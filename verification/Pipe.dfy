/** The pipe of src/pipe.c: a ring buffer with 32-bit counters that wrap. */
module Pipe {
  import opened Common

  const PIPESIZE: nat := 512

  // ---- The ring buffer and the byte streams it stands for ----

  datatype Ring = Ring(data: seq<Byte>, nread: nat, nwrite: nat)

  /** The ring after `accepted` has gone in and `delivered` has come out. */
  ghost predicate Holds(r: Ring, accepted: seq<Byte>, delivered: seq<Byte>)
  {
    && |r.data| == PIPESIZE && r.nread == |delivered| % UINT && r.nwrite == |accepted| % UINT
    && delivered <= accepted && |accepted| <= |delivered| + PIPESIZE
    && forall k :: |delivered| <= k < |accepted| ==> r.data[k % PIPESIZE] == accepted[k]
  }

  predicate Full(r: Ring) { r.nwrite == (r.nread + PIPESIZE) % UINT }

  predicate Empty(r: Ring) { r.nread == r.nwrite }

  /** The tests on the wrapping counters tell exactly when the ring is full and
      when it is empty. */
  lemma FullEmptyExact(r: Ring, accepted: seq<Byte>, delivered: seq<Byte>)
    requires Holds(r, accepted, delivered)
    ensures Full(r) <==> |accepted| == |delivered| + PIPESIZE
    ensures Empty(r) <==> |accepted| == |delivered|
  {
    CountsExact(|accepted|, |delivered|);
  }

  lemma CountsExact(a: nat, d: nat)
    requires d <= a <= d + PIPESIZE
    ensures a % UINT == (d % UINT + PIPESIZE) % UINT <==> a == d + PIPESIZE
    ensures d % UINT == a % UINT <==> a == d
  {
    SameMod(a, d);
    SameMod(d + PIPESIZE, a);
    ModOfSum(d, PIPESIZE);
  }

  lemma ModOfSum(n: nat, k: nat)
    ensures (n % UINT + k) % UINT == (n + k) % UINT
  {
    assert n + k == n / UINT * UINT + (n % UINT + k);
    assert (n / UINT * UINT + (n % UINT + k)) % UINT == (n % UINT + k) % UINT;
  }

  /** Numbers less than UINT apart agree modulo UINT only if they are equal. */
  lemma SameMod(a: nat, d: nat)
    requires d <= a < d + UINT
    ensures a % UINT == d % UINT <==> a == d
  {
    assert a == a / UINT * UINT + a % UINT && d == d / UINT * UINT + d % UINT;
  }

  /** Whole turns of the ring do not matter. */
  lemma SlotOfSum(turns: nat, r: nat)
    ensures (turns * PIPESIZE + r) % PIPESIZE == r % PIPESIZE
  {
    assert turns * PIPESIZE + r == (turns + r / PIPESIZE) * PIPESIZE + r % PIPESIZE;
  }

  /** The slot `n++ % PIPESIZE` is that of the unwrapped count. */
  lemma SlotOfCount(n: nat)
    ensures n % UINT % PIPESIZE == n % PIPESIZE
    ensures (n % UINT + 1) % UINT == (n + 1) % UINT
  {
    ModOfSum(n, 1);
    SlotOfSum(n / UINT * (UINT / PIPESIZE), n % UINT);
  }

  function Push(r: Ring, b: Byte): Ring
    requires |r.data| == PIPESIZE
  {
    Ring(r.data[r.nwrite % PIPESIZE := b], r.nread, (r.nwrite + 1) % UINT)
  }

  lemma PushHolds(r: Ring, accepted: seq<Byte>, delivered: seq<Byte>, b: Byte)
    requires Holds(r, accepted, delivered) && !Full(r)
    ensures Holds(Push(r, b), accepted + [b], delivered)
  {
    FullEmptyExact(r, accepted, delivered);
    SlotOfCount(|accepted|);
    var s, more := Push(r, b), accepted + [b];
    forall k | |delivered| <= k < |more| ensures s.data[k % PIPESIZE] == more[k] {
      if k < |accepted| {
        OtherSlot(k, |accepted|);
      }
    }
  }

  lemma OtherSlot(k: nat, n: nat)
    requires k < n < k + PIPESIZE
    ensures k % PIPESIZE != n % PIPESIZE
  {
    assert k == k / PIPESIZE * PIPESIZE + k % PIPESIZE && n == n / PIPESIZE * PIPESIZE + n % PIPESIZE;
  }

  function Pop(r: Ring): (Ring, Byte)
    requires |r.data| == PIPESIZE
  {
    (r.(nread := (r.nread + 1) % UINT), r.data[r.nread % PIPESIZE])
  }

  lemma PopHolds(r: Ring, accepted: seq<Byte>, delivered: seq<Byte>)
    requires Holds(r, accepted, delivered) && !Empty(r)
    ensures Holds(Pop(r).0, accepted, delivered + [Pop(r).1])
  {
    FullEmptyExact(r, accepted, delivered);
    SlotOfCount(|delivered|);
  }

  // ---- What a process does while it holds the lock ----

  /** The loop of `pipewrite` from index i: stops at the end or when full. */
  function Fill(r: Ring, addr: seq<Byte>, i: nat): (out: (Ring, nat))
    requires |r.data| == PIPESIZE && i <= |addr|
    ensures |out.0.data| == PIPESIZE && i <= out.1 <= |addr|
    ensures out.1 < |addr| ==> Full(out.0)
    decreases |addr| - i
  {
    if i == |addr| || Full(r) then (r, i) else Fill(Push(r, addr[i]), addr, i + 1)
  }

  /** The copy loop of `piperead`. */
  function Drain(r: Ring, n: int): (out: (Ring, seq<Byte>))
    requires |r.data| == PIPESIZE
    ensures |out.0.data| == PIPESIZE && (n >= 0 ==> |out.1| <= n) && (|out.1| < n ==> Empty(out.0))
    decreases n
  {
    if n <= 0 || Empty(r) then (r, [])
    else
      var (s, b) := Pop(r);
      var (t, bytes) := Drain(s, n - 1);
      (t, [b] + bytes)
  }

  lemma {:induction false} FillHolds(r: Ring, accepted: seq<Byte>, delivered: seq<Byte>, addr: seq<Byte>, i: nat)
    requires Holds(r, accepted, delivered) && i <= |addr|
    ensures var (s, j) := Fill(r, addr, i); Holds(s, accepted + addr[i..j], delivered)
    decreases |addr| - i
  {
    if i == |addr| || Full(r) {
      assert accepted + addr[i..i] == accepted;
    } else {
      PushHolds(r, accepted, delivered, addr[i]);
      FillHolds(Push(r, addr[i]), accepted + [addr[i]], delivered, addr, i + 1);
      var j := Fill(r, addr, i).1;
      assert accepted + [addr[i]] + addr[i + 1..j] == accepted + addr[i..j];
    }
  }

  lemma {:induction false} DrainHolds(r: Ring, accepted: seq<Byte>, delivered: seq<Byte>, n: int)
    requires Holds(r, accepted, delivered)
    ensures var (s, bytes) := Drain(r, n); Holds(s, accepted, delivered + bytes)
    decreases n
  {
    if n <= 0 || Empty(r) {
      assert delivered + [] == delivered;
    } else {
      PopHolds(r, accepted, delivered);
      var (s, b) := Pop(r);
      DrainHolds(s, accepted, delivered + [b], n - 1);
      var bytes := Drain(s, n - 1).1;
      assert delivered + [b] + bytes == delivered + ([b] + bytes);
    }
  }

  // ---- The code ----

  datatype Outcome = Slept | Failed | Returned

  class PipeBuffer {
    const data: array<Byte>
    var nread: nat
    var nwrite: nat
    var readopen: bool
    var writeopen: bool

    constructor ()
      ensures fresh(data) && Valid() && Value().nread == 0 && Value().nwrite == 0 && readopen && writeopen
      ensures Holds(Value(), [], [])
    {
      data := new Byte[PIPESIZE](i => 0);
      readopen, writeopen := true, true;
      nwrite, nread := 0, 0;
    }

    predicate Valid()
    {
      data.Length == PIPESIZE
    }

    function Value(): Ring
      reads this, data
    {
      Ring(data[..], nread, nwrite)
    }

    /** `pipewrite` from index i until it returns or sleeps. */
    method Write(addr: seq<Byte>, i: nat, killed: bool) returns (j: nat, o: Outcome)
      requires Valid() && i <= |addr|
      modifies this`nwrite, data
      ensures (Value(), j) == Fill(old(Value()), addr, i)
      ensures o == if j == |addr| then Returned else if !readopen || killed then Failed else Slept
    {
      j := i;
      while j < |addr|
        invariant i <= j <= |addr|
        invariant Fill(Value(), addr, j) == Fill(old(Value()), addr, i)
        decreases |addr| - j
      {
        if nwrite == (nread + PIPESIZE) % UINT {
          return j, if !readopen || killed then Failed else Slept;
        }
        ghost var r := Value();
        data[nwrite % PIPESIZE] := addr[j];
        nwrite := (nwrite + 1) % UINT;
        assert Value() == Push(r, addr[j]);
        j := j + 1;
      }
      return j, Returned;
    }

    /** `piperead` from its first test until it returns or sleeps. */
    method Read(n: int, killed: bool) returns (addr: seq<Byte>, o: Outcome)
      requires Valid()
      modifies this`nread
      ensures o == if old(Empty(Value())) && writeopen then (if killed then Failed else Slept) else Returned
      ensures o != Returned ==> addr == [] && Value() == old(Value())
      ensures o == Returned ==> (Value(), addr) == Drain(old(Value()), n)
    {
      addr := [];
      if nread == nwrite && writeopen {
        return [], if killed then Failed else Slept;
      }
      var i := 0;
      assert [] + Drain(Value(), n).1 == Drain(Value(), n).1;
      while i < n
        invariant 0 <= i && (i <= n || i == 0) && data[..] == old(data[..])
        invariant var (s, bytes) := Drain(Value(), n - i); Drain(old(Value()), n) == (s, addr + bytes)
        decreases n - i
      {
        if nread == nwrite {
          break;
        }
        ghost var r := Value();
        ghost var rest := Drain(Pop(r).0, n - i - 1).1;
        assert addr + ([Pop(r).1] + rest) == addr + [Pop(r).1] + rest;
        addr := addr + [data[nread % PIPESIZE]];
        nread := (nread + 1) % UINT;
        assert Value() == Pop(r).0;
        i := i + 1;
      }
      assert addr + [] == addr;
      return addr, Returned;
    }

    /** `pipeclose`; the page is freed when neither end is open any more. */
    method Close(writable: bool) returns (freed: bool)
      modifies this`readopen, this`writeopen
      ensures writable ==> !writeopen && readopen == old(readopen)
      ensures !writable ==> !readopen && writeopen == old(writeopen)
      ensures freed <==> !readopen && !writeopen
    {
      if writable {
        writeopen := false;
      } else {
        readopen := false;
      }
      return !readopen && !writeopen;
    }
  }

  // ---- How much goes in and comes out ----

  /** `pipewrite` stops at the end of its bytes or when the ring is full, and
      not before. */
  lemma {:induction false} FillCount(r: Ring, accepted: seq<Byte>, delivered: seq<Byte>, addr: seq<Byte>, i: nat)
    requires Holds(r, accepted, delivered) && i <= |addr|
    ensures Fill(r, addr, i).1 == Min(|addr|, i + 512 - (|accepted| - |delivered|))
    decreases |addr| - i
  {
    FullEmptyExact(r, accepted, delivered);
    if i < |addr| && !Full(r) {
      PushHolds(r, accepted, delivered, addr[i]);
      FillCount(Push(r, addr[i]), accepted + [addr[i]], delivered, addr, i + 1);
    }
  }

  /** `piperead` takes n bytes, or all there are. */
  lemma {:induction false} DrainCount(r: Ring, accepted: seq<Byte>, delivered: seq<Byte>, n: int)
    requires Holds(r, accepted, delivered)
    ensures |Drain(r, n).1| == Max(0, Min(n, |accepted| - |delivered|))
    ensures delivered + Drain(r, n).1 == accepted[..|delivered| + |Drain(r, n).1|]
    decreases n
  {
    FullEmptyExact(r, accepted, delivered);
    DrainHolds(r, accepted, delivered, n);
    if n > 0 && !Empty(r) {
      PopHolds(r, accepted, delivered);
      DrainCount(Pop(r).0, accepted, delivered + [Pop(r).1], n - 1);
    }
  }

  // ---- Any number of readers and writers ----

  datatype Pc = Idle | Writing(addr: seq<Byte>, i: nat) | Reading(n: int)

  /** A process: what it is doing, the bytes its finished calls of pipewrite
      put in, and the bytes its finished calls of piperead returned. */
  datatype Proc = Proc(pc: Pc, wrote: seq<Byte>, got: seq<Byte>)

  /** `writers` and `readers` name the writer of each accepted byte and the reader of
      each delivered one. */
  datatype System = System(ring: Ring, readopen: bool, writeopen: bool, procs: seq<Proc>,
                           accepted: seq<Byte>, writers: seq<nat>, delivered: seq<Byte>, readers: seq<nat>)

  datatype Step =
    | BeginWrite(p: nat, addr: seq<Byte>)
    | RunWrite(p: nat, killed: bool)
    | BeginRead(p: nat, n: int)
    | RunRead(p: nat, killed: bool)
    | Close(writable: bool)

  /** Everything a process has put in so far. */
  function Sent(q: Proc): seq<Byte>
  {
    q.wrote + if q.pc.Writing? && q.pc.i <= |q.pc.addr| then q.pc.addr[..q.pc.i] else []
  }

  function Repeat(p: nat, n: nat): (s: seq<nat>)
    ensures |s| == n && forall k :: 0 <= k < n ==> s[k] == p
  {
    seq(n, _ => p)
  }

  predicate Enabled(s: System, step: Step)
  {
    match step
    case BeginWrite(p, addr) => p < |s.procs| && s.procs[p].pc.Idle?
    case RunWrite(p, _) => p < |s.procs| && s.procs[p].pc.Writing? && s.procs[p].pc.i <= |s.procs[p].pc.addr|
    case BeginRead(p, n) => p < |s.procs| && s.procs[p].pc.Idle?
    case RunRead(p, _) => p < |s.procs| && s.procs[p].pc.Reading?
    case Close(_) => true
  }

  function DoWrite(s: System, p: nat, killed: bool): System
    requires Enabled(s, RunWrite(p, killed)) && |s.ring.data| == PIPESIZE
  {
    var q := s.procs[p];
    var (r, j) := Fill(s.ring, q.pc.addr, q.pc.i);
    var next := if j == |q.pc.addr| || !s.readopen || killed then Proc(Idle, q.wrote + q.pc.addr[..j], q.got)
                else q.(pc := Writing(q.pc.addr, j));
    s.(ring := r, procs := s.procs[p := next],
       accepted := s.accepted + q.pc.addr[q.pc.i..j], writers := s.writers + Repeat(p, j - q.pc.i))
  }

  function DoRead(s: System, p: nat, killed: bool): System
    requires Enabled(s, RunRead(p, killed)) && |s.ring.data| == PIPESIZE
  {
    var q := s.procs[p];
    if Empty(s.ring) && s.writeopen then
      (if killed then s.(procs := s.procs[p := q.(pc := Idle)]) else s)
    else
      var (r, bytes) := Drain(s.ring, q.pc.n);
      s.(ring := r, procs := s.procs[p := Proc(Idle, q.wrote, q.got + bytes)],
         delivered := s.delivered + bytes, readers := s.readers + Repeat(p, |bytes|))
  }

  function Do(s: System, step: Step): System
    requires Enabled(s, step) && |s.ring.data| == PIPESIZE
  {
    match step
    case BeginWrite(p, addr) => s.(procs := s.procs[p := s.procs[p].(pc := Writing(addr, 0))])
    case RunWrite(p, killed) => DoWrite(s, p, killed)
    case BeginRead(p, n) => s.(procs := s.procs[p := s.procs[p].(pc := Reading(n))])
    case RunRead(p, killed) => DoRead(s, p, killed)
    case Close(writable) => if writable then s.(writeopen := false) else s.(readopen := false)
  }

  /** The subsequence of s whose positions are labelled p. */
  function Of(s: seq<Byte>, who: seq<nat>, p: nat): seq<Byte>
    requires |who| == |s|
  {
    if s == [] then [] else
      Of(s[..|s| - 1], who[..|s| - 1], p) + if who[|s| - 1] == p then [s[|s| - 1]] else []
  }

  lemma {:induction false} OfMore(s: seq<Byte>, who: seq<nat>, p: nat, q: nat, t: seq<Byte>)
    requires |who| == |s|
    ensures Of(s + t, who + Repeat(q, |t|), p) == Of(s, who, p) + if p == q then t else []
    decreases |t|
  {
    hide Repeat;
    if t == [] {
      assert s + t == s && who + Repeat(q, 0) == who;
    } else {
      var n := |t| - 1;
      OfMore(s, who, p, q, t[..n]);
      var whole, whose := s + t, who + Repeat(q, |t|);
      assert whole[..|whole| - 1] == s + t[..n];
      assert whose[..|whole| - 1] == who + Repeat(q, n);
      assert t[..n] + [t[n]] == t;
    }
  }

  ghost predicate Streams(s: System)
  {
    && |s.writers| == |s.accepted| && |s.readers| == |s.delivered|
    && (forall p :: 0 <= p < |s.procs| ==> Of(s.accepted, s.writers, p) == Sent(s.procs[p]))
    && (forall p :: 0 <= p < |s.procs| ==> Of(s.delivered, s.readers, p) == s.procs[p].got)
  }

  ghost predicate Inv(s: System)
  {
    Holds(s.ring, s.accepted, s.delivered) && Streams(s)
  }

  lemma WriteInv(s: System, p: nat, killed: bool)
    requires Inv(s) && Enabled(s, RunWrite(p, killed))
    ensures Inv(DoWrite(s, p, killed))
  {
    hide Holds, Of, Repeat, Fill;
    HoldsData(s.ring, s.accepted, s.delivered);
    var t, q := DoWrite(s, p, killed), s.procs[p];
    FillHolds(s.ring, s.accepted, s.delivered, q.pc.addr, q.pc.i);
    var j := Fill(s.ring, q.pc.addr, q.pc.i).1;
    assert q.wrote + q.pc.addr[..q.pc.i] + q.pc.addr[q.pc.i..j] == q.wrote + q.pc.addr[..j];
    assert Sent(t.procs[p]) == Sent(q) + q.pc.addr[q.pc.i..j];
    forall x | 0 <= x < |t.procs| ensures Of(t.accepted, t.writers, x) == Sent(t.procs[x]) {
      OfMore(s.accepted, s.writers, x, p, q.pc.addr[q.pc.i..j]);
      assert Of(s.accepted, s.writers, x) == Sent(s.procs[x]);
    }
    forall x | 0 <= x < |t.procs| ensures Of(t.delivered, t.readers, x) == t.procs[x].got {
      assert Of(s.delivered, s.readers, x) == s.procs[x].got;
    }
  }

  lemma HoldsData(r: Ring, accepted: seq<Byte>, delivered: seq<Byte>)
    requires Holds(r, accepted, delivered)
    ensures |r.data| == PIPESIZE
  {
  }

  lemma ReadInv(s: System, p: nat, killed: bool)
    requires Inv(s) && Enabled(s, RunRead(p, killed))
    ensures Inv(DoRead(s, p, killed))
  {
    hide Holds, Of, Repeat;
    HoldsData(s.ring, s.accepted, s.delivered);
    var t, q := DoRead(s, p, killed), s.procs[p];
    DrainHolds(s.ring, s.accepted, s.delivered, q.pc.n);
    var bytes := Drain(s.ring, q.pc.n).1;
    forall x | 0 <= x < |t.procs| ensures Of(t.delivered, t.readers, x) == t.procs[x].got {
      OfMore(s.delivered, s.readers, x, p, bytes);
      assert Of(s.delivered, s.readers, x) == s.procs[x].got;
    }
    forall x | 0 <= x < |t.procs| ensures Of(t.accepted, t.writers, x) == Sent(t.procs[x]) {
      assert Of(s.accepted, s.writers, x) == Sent(s.procs[x]);
    }
  }

  lemma StepInv(s: System, step: Step)
    requires Inv(s) && Enabled(s, step)
    ensures |s.ring.data| == PIPESIZE && Inv(Do(s, step))
  {
    HoldsData(s.ring, s.accepted, s.delivered);
    match step
    case RunWrite(p, killed) => WriteInv(s, p, killed);
    case RunRead(p, killed) => ReadInv(s, p, killed);
    case BeginWrite(p, addr) => OtherInv(s, step);
    case BeginRead(p, n) => OtherInv(s, step);
    case Close(_) => OtherInv(s, step);
  }

  lemma OtherInv(s: System, step: Step)
    requires Inv(s) && Enabled(s, step) && |s.ring.data| == PIPESIZE
    requires step.BeginWrite? || step.BeginRead? || step.Close?
    ensures Inv(Do(s, step))
  {
    hide Holds, Of;
    var t := Do(s, step);
    forall x | 0 <= x < |t.procs|
      ensures Of(t.accepted, t.writers, x) == Sent(t.procs[x]) && Of(t.delivered, t.readers, x) == t.procs[x].got
    {
      assert Of(s.accepted, s.writers, x) == Sent(s.procs[x]) && Of(s.delivered, s.readers, x) == s.procs[x].got;
      assert Sent(t.procs[x]) == Sent(s.procs[x]);
    }
  }

  /** What a write does: as many of the remaining bytes as there is room for go
      in, in order; the call is over when all are in, when nobody can read them,
      or when the process is killed, and otherwise it goes on from there. */
  lemma WriteExact(s: System, p: nat, killed: bool)
    requires Inv(s) && Enabled(s, RunWrite(p, killed))
    ensures |s.ring.data| == PIPESIZE
    ensures var addr, i := s.procs[p].pc.addr, s.procs[p].pc.i;
            var j := Min(|addr|, i + 512 - (|s.accepted| - |s.delivered|));
            var t := Do(s, RunWrite(p, killed));
            && i <= j && t.accepted == s.accepted + addr[i..j] && t.delivered == s.delivered
            && (j == |addr| || killed || !s.readopen ==>
                  t.procs[p] == Proc(Idle, s.procs[p].wrote + addr[..j], s.procs[p].got))
            && (j < |addr| && !killed && s.readopen ==> t.procs[p] == s.procs[p].(pc := Writing(addr, j)))
            && forall q :: 0 <= q < |s.procs| && q != p ==> t.procs[q] == s.procs[q]
  {
    hide Of, Repeat;
    HoldsData(s.ring, s.accepted, s.delivered);
    FillCount(s.ring, s.accepted, s.delivered, s.procs[p].pc.addr, s.procs[p].pc.i);
  }

  /** What a read does: from an empty pipe that can still be written, nothing,
      until it is killed; otherwise it ends with the next n bytes, or all
      there are. */
  lemma ReadExact(s: System, p: nat, killed: bool)
    requires Inv(s) && Enabled(s, RunRead(p, killed))
    ensures |s.ring.data| == PIPESIZE
    ensures var held := |s.accepted| - |s.delivered|;
            var k := Max(0, Min(s.procs[p].pc.n, held));
            var t := Do(s, RunRead(p, killed));
            && 0 <= k <= held
            && (held == 0 && s.writeopen && !killed ==> t == s)
            && (held == 0 && s.writeopen && killed ==> t == s.(procs := s.procs[p := s.procs[p].(pc := Idle)]))
            && (held > 0 || !s.writeopen ==>
                  && t.accepted == s.accepted && t.delivered == s.accepted[..|s.delivered| + k]
                  && t.procs == s.procs[p := Proc(Idle, s.procs[p].wrote,
                                                  s.procs[p].got + s.accepted[|s.delivered|..|s.delivered| + k])])
  {
    hide Of, Repeat;
    HoldsData(s.ring, s.accepted, s.delivered);
    FullEmptyExact(s.ring, s.accepted, s.delivered);
    DrainCount(s.ring, s.accepted, s.delivered, s.procs[p].pc.n);
    var bytes := Drain(s.ring, s.procs[p].pc.n).1;
    assert bytes == (s.delivered + bytes)[|s.delivered|..];
  }

  /** Once the writing end is closed no read waits any more, and once the
      reading end is closed no write does; the other end is not affected. */
  lemma CloseEnds(s: System, p: nat)
    requires Inv(s) && |s.ring.data| == PIPESIZE
    ensures var t := Do(s, Close(true));
            && t.readopen == s.readopen && t.procs == s.procs
            && (Enabled(t, RunRead(p, false)) ==> Do(t, RunRead(p, false)).procs[p].pc.Idle?)
    ensures var t := Do(s, Close(false));
            && t.writeopen == s.writeopen && t.procs == s.procs
            && (Enabled(t, RunWrite(p, false)) ==> Do(t, RunWrite(p, false)).procs[p].pc.Idle?)
  {
    hide Inv;
    StepInv(s, Close(true));
    StepInv(s, Close(false));
    var t, u := Do(s, Close(true)), Do(s, Close(false));
    if Enabled(t, RunRead(p, false)) {
      ReadExact(t, p, false);
    }
    if Enabled(u, RunWrite(p, false)) {
      WriteExact(u, p, false);
    }
  }

  function Fresh(n: nat, data: seq<Byte>): System
  {
    System(Ring(data, 0, 0), true, true, seq(n, _ => Proc(Idle, [], [])), [], [], [], [])
  }

  /** The states reached by a run; steps that are not enabled do nothing. */
  function After(s: System, run: seq<Step>): System
    decreases |run|
  {
    if run == [] then s else
      var t := After(s, run[..|run| - 1]);
      var step := run[|run| - 1];
      if Enabled(t, step) && |t.ring.data| == PIPESIZE then Do(t, step) else t
  }

  /** Every interleaving of any number of readers and writers: what comes out is
      a prefix of what went in, at most PIPESIZE bytes behind, however often
      the counters wrap; and the two streams are merges of exactly the bytes
      each process wrote and read, in its own order. */
  lemma {:induction false} PipeRuns(n: nat, data: seq<Byte>, run: seq<Step>)
    requires |data| == PIPESIZE
    ensures var s := After(Fresh(n, data), run);
            && s.delivered <= s.accepted && |s.accepted| <= |s.delivered| + PIPESIZE
            && Inv(s) && |s.procs| == n
    decreases |run|
  {
    if run == [] {
    } else {
      PipeRuns(n, data, run[..|run| - 1]);
      var t, step := After(Fresh(n, data), run[..|run| - 1]), run[|run| - 1];
      hide Inv, Fresh;
      if Enabled(t, step) {
        StepInv(t, step);
        InvPrefix(Do(t, step));
      }
    }
  }

  lemma InvPrefix(s: System)
    requires Inv(s)
    ensures s.delivered <= s.accepted && |s.accepted| <= |s.delivered| + PIPESIZE
  {
  }

  /** With one writer and one reader, what the reader has is a prefix of what
      the writer has written. */
  lemma OneToOne(n: nat, data: seq<Byte>, run: seq<Step>, w: nat, r: nat)
    requires |data| == PIPESIZE && w < n && r < n
    ensures var s := After(Fresh(n, data), run);
            && |s.procs| == n
            && ((forall k :: 0 <= k < |s.writers| ==> s.writers[k] == w) &&
                (forall k :: 0 <= k < |s.readers| ==> s.readers[k] == r) ==>
                  s.procs[r].got <= Sent(s.procs[w]) && |Sent(s.procs[w])| <= |s.procs[r].got| + PIPESIZE)
  {
    PipeRuns(n, data, run);
    var s := After(Fresh(n, data), run);
    hide After, Fresh, Holds, Sent, Of;
    if && (forall k :: 0 <= k < |s.writers| ==> s.writers[k] == w)
       && (forall k :: 0 <= k < |s.readers| ==> s.readers[k] == r) {
      OfAll(s.accepted, s.writers, w);
      OfAll(s.delivered, s.readers, r);
      assert Of(s.accepted, s.writers, w) == Sent(s.procs[w]);
      assert Of(s.delivered, s.readers, r) == s.procs[r].got;
    }
  }

  lemma {:induction false} OfAll(s: seq<Byte>, who: seq<nat>, p: nat)
    requires |who| == |s| && forall k :: 0 <= k < |who| ==> who[k] == p
    ensures Of(s, who, p) == s
    decreases |s|
  {
    if s != [] {
      OfAll(s[..|s| - 1], who[..|s| - 1], p);
      assert s[..|s| - 1] + [s[|s| - 1]] == s;
    }
  }
}
