/** Types shared by the models. */
module Common {
  const UINT: nat := 0x1_0000_0000      // a 32-bit unsigned integer is below this

  type Byte = b: int | 0 <= b < 256

  datatype Option<T> = None | Some(value: T)

  /** enum procstate of src/proc.h. */
  datatype ProcState = UNUSED | EMBRYO | SLEEPING | RUNNABLE | RUNNING | ZOMBIE

  function Min(a: int, b: int): int { if a < b then a else b }

  function Max(a: int, b: int): int { if a < b then b else a }

  predicate Distinct(bs: seq<nat>)
  {
    forall i, j :: 0 <= i < j < |bs| ==> bs[i] != bs[j]
  }

  /** The numbers a up to a + n. */
  function Span(a: nat, n: nat): (r: set<nat>)
    ensures |r| == n
    ensures forall u :: u in r <==> a <= u < a + n
  {
    if n == 0 then {} else Span(a, n - 1) + {a + n - 1}
  }

  lemma {:induction false} SubsetSize(a: set<nat>, b: set<nat>)
    requires a <= b
    ensures |a| <= |b|
    decreases |a|
  {
    if a != {} {
      var x :| x in a;
      SubsetSize(a - {x}, b - {x});
    }
  }
}
