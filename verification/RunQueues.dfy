/** The per-CPU run queues of src/proc.c: rings through the process table, and
    work stealing. Table entries are numbered 0 .. NPROC-1; the head of queue i
    is node NPROC + i. */
module RunQueues {
  import opened Common
  import opened Ring

  const NPROC: nat := 15000
  const NCPU: nat := 8
  const NODES: nat := NPROC + NCPU
  const NULL: nat := NODES

  datatype Entry = Entry(state: ProcState, pid: int, chan: nat, killed: bool)

  function Head(i: nat): nat { NPROC + i }

  // ---- The queues, on values ----

  /** No process is in two queues, or twice in one. */
  ghost predicate Apart(q: seq<seq<nat>>)
  {
    forall i, j :: 0 <= i < j < |q| ==> NoneShared(q[i], q[j])
  }

  ghost predicate NoneShared(a: seq<nat>, b: seq<nat>)
  {
    forall x :: x in a ==> x !in b
  }

  ghost predicate QueueOk(next: seq<nat>, prev: seq<nat>, size: seq<int>, q: seq<seq<nat>>, i: nat)
    requires i < |q| && i < |size|
  {
    && IsRing(next, prev, Head(i), q[i]) && size[i] == |q[i]|
    && forall k :: 0 <= k < |q[i]| ==> q[i][k] < NPROC
  }

  ghost predicate Queues(next: seq<nat>, prev: seq<nat>, size: seq<int>, q: seq<seq<nat>>)
  {
    && |next| == |prev| == NODES && |size| == |q| <= NCPU && Apart(q)
    && forall i :: 0 <= i < |q| ==> QueueOk(next, prev, size, q, i)
  }

  ghost predicate Unqueued(q: seq<seq<nat>>, p: nat)
  {
    forall i :: 0 <= i < |q| ==> p !in q[i]
  }

  /** p is in no queue but perhaps queue i. */
  ghost predicate OnlyIn(q: seq<seq<nat>>, p: nat, i: nat)
  {
    forall j :: 0 <= j < |q| && j != i ==> p !in q[j]
  }

  /** Queue j does not notice changes to links outside it. */
  lemma OtherQueue(next: seq<nat>, prev: seq<nat>, size: seq<int>, q: seq<seq<nat>>,
                   next': seq<nat>, prev': seq<nat>, size': seq<int>, q': seq<seq<nat>>, j: nat)
    requires j < |q| == |q'| == |size| == |size'| && QueueOk(next, prev, size, q, j)
    requires |next'| == |prev'| == |next| && q'[j] == q[j] && size'[j] == size[j]
    requires next'[Head(j)] == next[Head(j)] && prev'[Head(j)] == prev[Head(j)]
    requires forall x :: x in q[j] ==> next'[x] == next[x] && prev'[x] == prev[x]
    ensures QueueOk(next', prev', size', q', j)
  {
    RingFrame(next, prev, next', prev', Head(j), q[j]);
  }

  /** The last node of queue i, or its head. */
  lemma TailOf(next: seq<nat>, prev: seq<nat>, size: seq<int>, q: seq<seq<nat>>, i: nat)
    requires Queues(next, prev, size, q) && i < |q|
    ensures prev[Head(i)] == Head(i) || prev[Head(i)] in q[i]
    ensures next[Head(i)] == (if q[i] == [] then Head(i) else q[i][0])
  {
    assert QueueOk(next, prev, size, q, i);
  }

  lemma EnqueueOk(next: seq<nat>, prev: seq<nat>, size: seq<int>, q: seq<seq<nat>>, i: nat, p: nat)
    requires Queues(next, prev, size, q) && i < |q| && p < NPROC && Unqueued(q, p)
    ensures prev[Head(i)] < NODES
    ensures Queues(next[p := Head(i)][prev[Head(i)] := p], prev[p := prev[Head(i)]][Head(i) := p],
                   size[i := size[i] + 1], q[i := q[i] + [p]])
  {
    hide IsRing;
    assert QueueOk(next, prev, size, q, i);
    PushBack(next, prev, Head(i), q[i], p);
    TailOf(next, prev, size, q, i);
    var next', prev' := next[p := Head(i)][prev[Head(i)] := p], prev[p := prev[Head(i)]][Head(i) := p];
    var size', q' := size[i := size[i] + 1], q[i := q[i] + [p]];
    forall j | 0 <= j < |q| ensures QueueOk(next', prev', size', q', j) {
      assert QueueOk(next, prev, size, q, j);
      if j != i {
        assert NoneShared(q[if i < j then i else j], q[if i < j then j else i]);
        OtherQueue(next, prev, size, q, next', prev', size', q', j);
      }
    }
    forall a, b | 0 <= a < b < |q'| ensures NoneShared(q'[a], q'[b]) {
      assert NoneShared(q[a], q[b]);
    }
  }

  lemma DequeueOwn(next: seq<nat>, prev: seq<nat>, size: seq<int>, q: seq<seq<nat>>, i: nat)
    requires i < |q| && i < |size| && QueueOk(next, prev, size, q, i) && q[i] != [] && |next| == NODES && i < NCPU
    ensures var p := q[i][0];
            && next[Head(i)] == p < NPROC && next[p] < NODES
            && (next[p] == Head(i) || next[p] in q[i]) && p !in q[i][1..]
            && IsRing(next[Head(i) := next[p]][p := NULL], prev[next[p] := Head(i)][p := NULL], Head(i), q[i][1..])
  {
    var p := q[i][0];
    RingAt(next, prev, Head(i), q[i], 0);
    Unlink(next, prev, Head(i), q[i], 0);
    assert Without(q[i], 0) == q[i][1..];
    var next1, prev1 := next[Head(i) := next[p]], prev[next[p] := Head(i)];
    RingFrame(next1, prev1, next1[p := NULL], prev1[p := NULL], Head(i), q[i][1..]);
  }

  lemma DequeueOk(next: seq<nat>, prev: seq<nat>, size: seq<int>, q: seq<seq<nat>>, i: nat)
    requires Queues(next, prev, size, q) && i < |q| && q[i] != []
    ensures var p := q[i][0];
            && next[Head(i)] == p < NPROC && next[p] < NODES
            && Queues(next[Head(i) := next[p]][p := NULL], prev[next[p] := Head(i)][p := NULL],
                      size[i := size[i] - 1], q[i := q[i][1..]])
            && Unqueued(q[i := q[i][1..]], p)
  {
    hide IsRing;
    assert QueueOk(next, prev, size, q, i);
    DequeueOwn(next, prev, size, q, i);
    var p := q[i][0];
    var next', prev' := next[Head(i) := next[p]][p := NULL], prev[next[p] := Head(i)][p := NULL];
    var size', q' := size[i := size[i] - 1], q[i := q[i][1..]];
    forall j | 0 <= j < |q| ensures QueueOk(next', prev', size', q', j) && p !in q'[j] {
      assert QueueOk(next, prev, size, q, j);
      if j != i {
        assert NoneShared(q[if i < j then i else j], q[if i < j then j else i]);
        OtherQueue(next, prev, size, q, next', prev', size', q', j);
      }
    }
    forall a, b | 0 <= a < b < |q'| ensures NoneShared(q'[a], q'[b]) {
      assert NoneShared(q[a], q[b]);
    }
  }

  // ---- Work stealing, on values ----

  /** Queue t is the first longest queue other than cur, and not empty. */
  ghost predicate Longest(q: seq<seq<nat>>, cur: nat, t: nat)
  {
    && t < |q| && t != cur && q[t] != []
    && (forall i :: 0 <= i < |q| && i != cur ==> |q[i]| <= |q[t]|)
    && (forall i :: 0 <= i < t && i != cur ==> |q[i]| < |q[t]|)
  }

  /** Moving the front of queue t to the end of queue cur. */
  function Move(q: seq<seq<nat>>, cur: nat, t: nat): seq<seq<nat>>
    requires cur < |q| && t < |q| && t != cur && q[t] != []
  {
    q[t := q[t][1..]][cur := q[cur] + [q[t][0]]]
  }

  lemma LongestUnique(q: seq<seq<nat>>, cur: nat, t: nat, u: nat)
    requires Longest(q, cur, t) && Longest(q, cur, u)
    ensures t == u
  {
  }

  lemma OnlyLongest(q: seq<seq<nat>>, cur: nat, t: Option<nat>)
    requires t.Some? ==> Longest(q, cur, t.value)
    requires t.None? ==> forall i :: 0 <= i < |q| && i != cur ==> q[i] == []
    ensures forall u: nat :: Longest(q, cur, u) ==> t == Some(u)
  {
    forall u: nat | Longest(q, cur, u) ensures t == Some(u) {
      if t.Some? {
        LongestUnique(q, cur, t.value, u);
      }
    }
  }

  /** What `work_steal` leaves: queue 0 is never stolen from. */
  ghost function Stolen(q: seq<seq<nat>>, cur: nat): seq<seq<nat>>
    requires cur < |q|
  {
    if exists t: nat :: Longest(q, cur, t) && t != 0
    then var t: nat :| Longest(q, cur, t) && t != 0; Move(q, cur, t)
    else q
  }

  lemma StolenIs(q: seq<seq<nat>>, cur: nat, t: nat)
    requires cur < |q| && Longest(q, cur, t)
    ensures Stolen(q, cur) == if t == 0 then q else Move(q, cur, t)
  {
    hide Longest;
    forall u: nat | Longest(q, cur, u) ensures u == t {
      LongestUnique(q, cur, t, u);
    }
  }

  /** All queued processes, with multiplicity. */
  function Queued(q: seq<seq<nat>>): multiset<nat>
  {
    if q == [] then multiset{} else multiset(q[0]) + Queued(q[1..])
  }

  lemma {:induction false} QueuedUpdate(q: seq<seq<nat>>, i: nat, a: seq<nat>)
    requires i < |q|
    ensures Queued(q[i := a]) + multiset(q[i]) == Queued(q) + multiset(a)
    decreases |q|
  {
    if i == 0 {
      assert q[i := a][1..] == q[1..];
    } else {
      QueuedUpdate(q[1..], i - 1, a);
      assert q[i := a][1..] == q[1..][i - 1 := a];
      AddSame(multiset(q[0]), Queued(q[1..][i - 1 := a]), multiset(q[i]), Queued(q[1..]), multiset(a));
    }
  }

  lemma AddSame(h: multiset<nat>, x: multiset<nat>, b: multiset<nat>, y: multiset<nat>, a: multiset<nat>)
    requires x + b == y + a
    ensures h + x + b == h + y + a
  {
    forall n ensures (h + x + b)[n] == (h + y + a)[n] {
      assert (x + b)[n] == (y + a)[n];
    }
  }

  /** Stealing conserves the queued processes. */
  lemma MoveConserves(q: seq<seq<nat>>, cur: nat, t: nat)
    requires cur < |q| && t < |q| && t != cur && q[t] != []
    ensures Queued(Move(q, cur, t)) == Queued(q)
  {
    hide Queued;
    var front, mid := q[t][0], q[t := q[t][1..]];
    QueuedUpdate(q, t, q[t][1..]);
    QueuedUpdate(mid, cur, q[cur] + [front]);
    assert q[t] == [front] + q[t][1..];
    assert multiset(q[t]) == multiset{front} + multiset(q[t][1..]);
    Cancel(Queued(q), Queued(mid), Queued(Move(q, cur, t)), multiset(q[t][1..]), multiset{front}, multiset(q[cur]));
  }

  lemma Cancel(all: multiset<nat>, mid: multiset<nat>, end: multiset<nat>,
               rest: multiset<nat>, one: multiset<nat>, cur: multiset<nat>)
    requires mid + (one + rest) == all + rest && end + cur == mid + (cur + one)
    ensures end == all
  {
    forall x ensures end[x] == all[x] {
      assert (mid + (one + rest))[x] == (all + rest)[x];
      assert (end + cur)[x] == (mid + (cur + one))[x];
    }
  }

  lemma StolenConserves(q: seq<seq<nat>>, cur: nat)
    requires cur < |q|
    ensures Queued(Stolen(q, cur)) == Queued(q)
  {
    hide Queued;
    if t: nat :| Longest(q, cur, t) && t != 0 && Stolen(q, cur) == Move(q, cur, t) {
      MoveConserves(q, cur, t);
    }
  }

  /** A queue without p is shorter than the table. */
  lemma ShortQueue(next: seq<nat>, prev: seq<nat>, size: seq<int>, q: seq<seq<nat>>, i: nat, p: nat)
    requires Queues(next, prev, size, q) && i < |q| && p < NPROC && p !in q[i]
    ensures size[i] < NPROC
  {
    assert QueueOk(next, prev, size, q, i);
    if |q[i]| >= NPROC {
      AllPresent(q[i][..NPROC], NPROC, p);
    }
  }

  // ---- The process table and the queues ----

  /** Every queued process is RUNNABLE. */
  ghost predicate Ready(table: seq<Entry>, q: seq<seq<nat>>)
  {
    && |table| == NPROC
    && forall i, k :: 0 <= i < |q| && 0 <= k < |q[i]| ==> q[i][k] < NPROC && table[q[i][k]].state == RUNNABLE
  }

  ghost predicate Used(table: seq<Entry>, p: nat) { p < |table| && table[p].state != UNUSED }

  /** Processes have different pids, all of them already given out. */
  ghost predicate Pids(table: seq<Entry>, nextpid: int)
  {
    && (forall a: nat, b: nat :: Used(table, a) && Used(table, b) && a != b ==> table[a].pid != table[b].pid)
    && (forall a: nat :: Used(table, a) ==> table[a].pid < nextpid)
  }

  /** What went into queue i is what came out followed by what is in it. */
  ghost predicate Fifo(entered: seq<seq<nat>>, left: seq<seq<nat>>, q: seq<seq<nat>>)
  {
    |entered| == |left| == |q| && forall i :: 0 <= i < |q| ==> entered[i] == left[i] + q[i]
  }

  /** Each history goes on from where it was. */
  ghost predicate Longer(a: seq<seq<nat>>, b: seq<seq<nat>>)
  {
    |a| == |b| && forall i :: 0 <= i < |a| ==> a[i] <= b[i]
  }

  lemma LongerTrans(a: seq<seq<nat>>, b: seq<seq<nat>>, c: seq<seq<nat>>)
    requires Longer(a, b) && Longer(b, c)
    ensures Longer(a, c)
  {
  }

  lemma LongerBy(a: seq<seq<nat>>, i: nat, p: nat)
    requires i < |a|
    ensures Longer(a, a[i := a[i] + [p]]) && Longer(a, a)
  {
  }

  lemma HistoryLength(entered: seq<seq<nat>>, left: seq<seq<nat>>, q: seq<seq<nat>>)
    requires Fifo(entered, left, q)
    ensures |entered| == |left| == |q|
  {
  }

  lemma NowhereElse(q: seq<seq<nat>>, p: nat, i: nat)
    requires Unqueued(q, p)
    ensures OnlyIn(q, p, i)
  {
  }

  lemma NotQueued(table: seq<Entry>, q: seq<seq<nat>>, p: nat)
    requires Ready(table, q) && p < NPROC && table[p].state != RUNNABLE
    ensures Unqueued(q, p)
  {
  }

  /** Changing an entry keeps queued processes RUNNABLE. */
  lemma ReadyChange(table: seq<Entry>, q: seq<seq<nat>>, p: nat, e: Entry)
    requires Ready(table, q) && p < NPROC && (table[p].state != RUNNABLE || e.state == RUNNABLE)
    ensures Ready(table[p := e], q)
  {
  }

  lemma PidsChange(table: seq<Entry>, nextpid: int, p: nat, e: Entry)
    requires Pids(table, nextpid) && p < |table|
    requires e.state == UNUSED || (table[p].state != UNUSED && e.pid == table[p].pid)
    ensures Pids(table[p := e], nextpid)
  {
    var t := table[p := e];
    forall a: nat, b: nat | Used(t, a) && Used(t, b) && a != b ensures t[a].pid != t[b].pid {
      assert Used(table, a) && Used(table, b);
    }
    forall a: nat | Used(t, a) ensures t[a].pid < nextpid {
      assert Used(table, a);
    }
  }

  lemma ReadyEnqueue(table: seq<Entry>, q: seq<seq<nat>>, i: nat, p: nat)
    requires Ready(table, q) && i < |q| && p < NPROC && table[p].state == RUNNABLE
    ensures Ready(table, q[i := q[i] + [p]])
  {
  }

  lemma ReadyDequeue(table: seq<Entry>, q: seq<seq<nat>>, i: nat)
    requires Ready(table, q) && i < |q| && q[i] != []
    ensures Ready(table, q[i := q[i][1..]]) && q[i][0] < NPROC && table[q[i][0]].state == RUNNABLE
  {
    var q' := q[i := q[i][1..]];
    forall j, k | 0 <= j < |q'| && 0 <= k < |q'[j]| ensures q'[j][k] < NPROC && table[q'[j][k]].state == RUNNABLE {
      assert q'[j][k] == if j == i then q[i][k + 1] else q[j][k];
    }
  }

  class Scheduler {
    const ncpu: nat
    var next: seq<nat>
    var prev: seq<nat>
    var size: seq<int>
    var table: seq<Entry>
    var nextpid: int
    ghost var q: seq<seq<nat>>        // the processes in each queue, front first
    ghost var entered: seq<seq<nat>>  // all processes ever put into each queue
    ghost var left: seq<seq<nat>>     // all processes ever taken out of it

    ghost predicate Linked()
      reads this
    {
      Queues(next, prev, size, q) && |q| == ncpu && Fifo(entered, left, q) && |table| == NPROC
    }

    ghost predicate Valid()
      reads this
    {
      1 <= ncpu <= NCPU && Linked() && Ready(table, q) && Pids(table, nextpid)
    }

    ghost function Now(): View
      reads this
    {
      View(table, nextpid, q)
    }

    /** `runqueueinit`. */
    constructor (ncpu: nat)
      requires 1 <= ncpu <= NCPU
      ensures Valid() && this.ncpu == ncpu && q == seq(ncpu, _ => [])
    {
      hide IsRing;
      this.ncpu := ncpu;
      next := seq(NODES, i => i);
      prev := seq(NODES, i => i);
      size := seq(ncpu, _ => 0);
      table := seq(NPROC, _ => Entry(UNUSED, 0, 0, false));
      nextpid := 1;
      q, entered, left := seq(ncpu, _ => []), seq(ncpu, _ => []), seq(ncpu, _ => []);
      new;
      forall i | 0 <= i < ncpu ensures QueueOk(next, prev, size, q, i) {
        EmptyRing(next, prev, Head(i));
      }
      assert forall p: nat :: !Used(table, p);
      assert forall i :: 0 <= i < ncpu ==> q[i] == [] && entered[i] == left[i] + q[i];
      assert Apart(q);
    }

    /** The search of `enqueue` for the pid of p. */
    method HasPid(i: nat, p: nat) returns (found: bool)
      requires Linked() && i < ncpu && p < NPROC
      ensures found <==> exists k :: 0 <= k < |q[i]| && q[i][k] < NPROC && table[q[i][k]].pid == table[p].pid
    {
      hide Apart;
      assert QueueOk(next, prev, size, q, i);
      TailOf(next, prev, size, q, i);
      var head := Head(i);
      var elm := next[head];
      ghost var k := 0;
      while elm != head
        invariant 0 <= k <= |q[i]| && elm == After(head, q[i], k - 1)
        invariant forall j :: 0 <= j < k ==> table[q[i][j]].pid != table[p].pid
        decreases |q[i]| - k
      {
        RingAt(next, prev, head, q[i], k);
        if table[elm].pid == table[p].pid {
          return true;
        }
        elm := next[elm];
        k := k + 1;
      }
      return false;
    }

    /** `enqueue`: p goes last, unless its pid is already in the queue; true is
        the panic "push same pid". */
    method Enqueue(i: nat, p: nat) returns (panicked: bool)
      requires Linked() && i < ncpu && p < NPROC && OnlyIn(q, p, i)
      modifies this`next, this`prev, this`size, this`q, this`entered
      ensures panicked <==>
                exists k :: 0 <= k < |old(q)[i]| && old(q)[i][k] < NPROC && table[old(q)[i][k]].pid == table[p].pid
      ensures panicked ==> unchanged(this)
      ensures !panicked ==>
                && Linked() && q == old(q)[i := old(q)[i] + [p]]
                && entered == old(entered)[i := old(entered)[i] + [p]]
    {
      hide IsRing, Apart;
      panicked := HasPid(i, p);
      if panicked {
        return;
      }
      assert QueueOk(next, prev, size, q, i);
      assert Unqueued(q, p);
      EnqueueOk(next, prev, size, q, i, p);
      var head := Head(i);
      var tail := prev[head];
      size := size[i := size[i] + 1];
      prev := prev[p := tail];
      next := next[p := head];
      prev := prev[head := p];
      next := next[tail := p];
      assert left[i] + (q[i] + [p]) == left[i] + q[i] + [p];
      q, entered := q[i := q[i] + [p]], entered[i := entered[i] + [p]];
    }

    /** `dequeue`: the process that has waited longest; None is the panic
        "empty runqueue". */
    method Dequeue(i: nat) returns (r: Option<nat>)
      requires Linked() && i < ncpu
      modifies this`next, this`prev, this`size, this`q, this`left
      ensures r.None? <==> old(q)[i] == []
      ensures r.None? ==> unchanged(this)
      ensures r.Some? ==>
                Linked() && r.value == old(q)[i][0] && q == old(q)[i := old(q)[i][1..]] && Unqueued(q, r.value)
                          && r.value < NPROC && left == old(left)[i := old(left)[i] + [r.value]]
    {
      hide IsRing, Apart;
      assert QueueOk(next, prev, size, q, i);
      if size[i] == 0 {
        return None;
      }
      DequeueOk(next, prev, size, q, i);
      var head := Head(i);
      var p := next[head];
      next := next[head := next[p]];
      prev := prev[next[p] := head];
      next := next[p := NULL];
      prev := prev[p := NULL];
      size := size[i := size[i] - 1];
      assert left[i] + q[i] == left[i] + [p] + q[i][1..];
      q, left := q[i := q[i][1..]], left[i := left[i] + [p]];
      return Some(p);
    }

    /** The search of `work_steal` for the first longest other queue. */
    method FindLongest(cur: nat) returns (t: Option<nat>)
      requires Linked() && cur < ncpu
      ensures t.Some? ==> Longest(q, cur, t.value)
      ensures t.Some? ==>
                && t.value < ncpu && t.value != cur
                && forall i :: 0 <= i < ncpu && i != cur ==>
                     |q[i]| <= |q[t.value]| && (i < t.value ==> |q[i]| < |q[t.value]|)
      ensures t.None? ==> forall i :: 0 <= i < ncpu && i != cur ==> q[i] == []
    {
      hide IsRing, Apart;
      var most := 0;
      t := None;
      for i := 0 to ncpu
        invariant t.Some? ==> t.value < i && t.value != cur && most == |q[t.value]| > 0
                              && forall j :: 0 <= j < t.value && j != cur ==> |q[j]| < most
        invariant t.None? ==> most == 0
        invariant forall j :: 0 <= j < i && j != cur ==> |q[j]| <= most
      {
        assert QueueOk(next, prev, size, q, i);
        if size[i] > most && i != cur {
          t, most := Some(i), size[i];
        }
      }
    }

    /** `work_steal` for the CPU cur. */
    method WorkSteal(cur: nat)
      requires Valid() && cur < ncpu
      modifies this`next, this`prev, this`size, this`q, this`entered, this`left
      ensures Valid() && q == Stolen(old(q), cur) && Longer(old(entered), entered) && Longer(old(left), left)
      ensures forall t: nat :: Longest(old(q), cur, t) && t != 0 ==>
                && old(q)[t] == [old(q)[t][0]] + q[t] && q[cur] == old(q)[cur] + [old(q)[t][0]]
                && forall i :: 0 <= i < ncpu && i != t && i != cur ==> q[i] == old(q)[i]
      ensures (forall t: nat :: Longest(old(q), cur, t) ==> t == 0) ==> q == old(q)
    {
      HistoryLength(entered, left, q);
      hide Queues, Fifo, Pids, Ready, Unqueued;
      LongerBy(entered, cur, 0);
      LongerBy(left, cur, 0);
      var t := FindLongest(cur);
      if t.None? || t.value == 0 {
        NothingStolen(q, cur, t);
        OnlyLongest(q, cur, t);
        return;
      }
      ReadyDequeue(table, q, t.value);
      LongerBy(left, t.value, q[t.value][0]);
      LongerBy(entered, cur, q[t.value][0]);
      hide Longer;
      var r := Dequeue(t.value);
      var p := r.value;
      SamePid(table, nextpid, q, cur, p);
      NowhereElse(q, p, cur);
      var panicked := Enqueue(cur, p);
      assert !panicked;
      ReadyEnqueue(table, old(q)[t.value := old(q)[t.value][1..]], cur, p);
      StolenIs(old(q), cur, t.value);
      OnlyLongest(old(q), cur, t);
      assert old(q)[t.value] == [p] + old(q)[t.value][1..];
    }

    /** Enqueues p, which is not RUNNABLE yet, and makes it RUNNABLE. */
    method Admit(i: nat, p: nat)
      requires Valid() && i < ncpu && p < NPROC && table[p].state != RUNNABLE && table[p].state != UNUSED
      modifies this`next, this`prev, this`size, this`q, this`entered, this`table
      ensures Valid() && q == old(q)[i := old(q)[i] + [p]] && Longer(old(entered), entered)
      ensures table == old(table)[p := old(table)[p].(state := RUNNABLE)]
    {
      HistoryLength(entered, left, q);
      hide Queues, Fifo, Pids, Ready, Unqueued;
      LongerBy(entered, i, p);
      hide Longer;
      NotQueued(table, q, p);
      SamePid(table, nextpid, q, i, p);
      NowhereElse(q, p, i);
      var panicked := Enqueue(i, p);
      assert !panicked;
      ReadyChange(table, old(q), p, table[p].(state := RUNNABLE));
      PidsChange(table, nextpid, p, table[p].(state := RUNNABLE));
      table := table[p := table[p].(state := RUNNABLE)];
      ReadyEnqueue(table, old(q), i, p);
    }

    /** The locked part of `allocproc`; None when the table is full. */
    method Alloc() returns (r: Option<nat>)
      requires Valid()
      modifies this`table, this`nextpid
      ensures Valid()
      ensures r.None? ==> unchanged(this) && forall p :: 0 <= p < NPROC ==> table[p].state != UNUSED
      ensures r.Some? ==> r.value < NPROC && old(table)[r.value].state == UNUSED
                          && (forall p :: 0 <= p < r.value ==> old(table)[p].state != UNUSED)
                          && table == old(table)[r.value := old(table)[r.value].(state := EMBRYO, pid := old(nextpid))]
                          && nextpid == old(nextpid) + 1
                          && forall p :: 0 <= p < NPROC && p != r.value && table[p].state != UNUSED ==>
                               table[p].pid != table[r.value].pid
      ensures Took(old(Now()), Now())
    {
      hide Queues, Fifo, Unqueued;
      r := FindUnused();
      if r.None? {
        return;
      }
      var p := r.value;
      var e := table[p].(state := EMBRYO, pid := nextpid);
      ReadyChange(table, q, p, e);
      NewPid(table, nextpid, p, e);
      hide Pids, Ready;
      nextpid := nextpid + 1;
      table := table[p := e];
    }

    method FindUnused() returns (r: Option<nat>)
      requires |table| == NPROC
      ensures r.None? ==> forall p :: 0 <= p < NPROC ==> table[p].state != UNUSED
      ensures r.Some? ==> r.value < NPROC && table[r.value].state == UNUSED
                          && forall p :: 0 <= p < r.value ==> table[p].state != UNUSED
    {
      for p := 0 to NPROC
        invariant forall j :: 0 <= j < p ==> table[j].state != UNUSED
      {
        if table[p].state == UNUSED {
          return Some(p);
        }
      }
      return None;
    }

    /** The search of `fork` for the first shortest queue. It always finds one:
        the new process is in no queue, so no queue fills the table. */
    method FindShortest(np: nat) returns (t: nat)
      requires Valid() && np < NPROC && Unqueued(q, np)
      ensures t < ncpu && forall i :: 0 <= i < ncpu ==> |q[t]| <= |q[i]|
      ensures forall i :: 0 <= i < t ==> |q[t]| < |q[i]|
    {
      hide IsRing, Apart, Ready, Pids, Fifo;
      var least := NPROC;
      var target: Option<nat> := None;
      for i := 0 to ncpu
        invariant target.Some? ==> target.value < i && least == |q[target.value]|
                                   && forall j :: 0 <= j < target.value ==> |q[j]| > least
        invariant target.None? ==> i == 0 && least == NPROC
        invariant forall j :: 0 <= j < i ==> |q[j]| >= least
      {
        assert QueueOk(next, prev, size, q, i);
        ShortQueue(next, prev, size, q, i, np);
        if size[i] < least {
          target, least := Some(i), size[i];
        }
      }
      return target.value;
    }

    /** The locked part of `fork`. */
    method Fork(np: nat)
      requires Valid() && np < NPROC && table[np].state == EMBRYO
      modifies this`next, this`prev, this`size, this`q, this`entered, this`table
      ensures Valid() && table == old(table)[np := old(table)[np].(state := RUNNABLE)] && Longer(old(entered), entered)
      ensures Joined(old(Now()), Now(), np)
    {
      NotQueued(table, q, np);
      var t := FindShortest(np);
      hide Queues, Fifo, Pids, Ready;
      Admit(t, np);
    }

    /** `yield` through swtch. */
    method Yield(cpu: nat, p: nat)
      requires Valid() && cpu < ncpu && p < NPROC && table[p].state == RUNNING
      modifies this`next, this`prev, this`size, this`q, this`entered, this`table
      ensures Valid() && q == old(q)[cpu := old(q)[cpu] + [p]] && Longer(old(entered), entered)
      ensures table == old(table)[p := old(table)[p].(state := RUNNABLE)]
    {
      hide Queues, Fifo, Pids, Ready;
      Admit(cpu, p);
    }

    /** Changes p's entry without touching the queues: `sleep` and `exit`
        through swtch, and the reaping of a zombie by `wait`. */
    method Change(p: nat, e: Entry)
      requires Valid() && p < NPROC && table[p].state != RUNNABLE && table[p].state != UNUSED
      requires e.state == UNUSED || e.pid == table[p].pid
      modifies this`table
      ensures Valid() && table == old(table)[p := e]
    {
      hide Queues, Fifo, Pids, Ready;
      ReadyChange(table, q, p, e);
      PidsChange(table, nextpid, p, e);
      table := table[p := e];
    }

    /** `wakeup1`: the sleepers on chan go to the back of cpu's queue, in table
        order, and become RUNNABLE. */
    method Wakeup1(cpu: nat, chan: nat)
      requires Valid() && cpu < ncpu
      modifies this`next, this`prev, this`size, this`q, this`entered, this`table
      ensures Valid() && Longer(old(entered), entered)
      ensures q == old(q)[cpu := old(q)[cpu] + Sleepers(old(table), chan, NPROC)]
      ensures forall p :: 0 <= p < NPROC ==>
                table[p] == if old(table)[p].state == SLEEPING && old(table)[p].chan == chan
                            then old(table)[p].(state := RUNNABLE) else old(table)[p]
      ensures nextpid == old(nextpid) && Woken(old(Now()), Now(), cpu, chan)
    {
      hide Queues, Fifo, Pids, Ready, Longer;
      HistoryLength(entered, left, q);
      LongerBy(entered, cpu, 0);
      assert q[cpu] + Sleepers(table, chan, 0) == q[cpu];
      for p := 0 to NPROC
        invariant Valid() && Longer(old(entered), entered)
        invariant q == old(q)[cpu := old(q)[cpu] + Sleepers(old(table), chan, p)]
        invariant forall j :: p <= j < NPROC ==> table[j] == old(table)[j]
        invariant forall j :: 0 <= j < p ==>
                    table[j] == if Asleep(old(table)[j], chan) then old(table)[j].(state := RUNNABLE) else old(table)[j]
      {
        if table[p].state == SLEEPING && table[p].chan == chan {
          assert old(q)[cpu] + Sleepers(old(table), chan, p) + [p]
              == old(q)[cpu] + (Sleepers(old(table), chan, p) + [p]);
          ghost var e := entered;
          Admit(cpu, p);
          LongerTrans(old(entered), e, entered);
        }
      }
    }

    /** `kill`: the first process with the pid is marked; a sleeper becomes
        RUNNABLE but is not queued. */
    method Kill(pid: int) returns (found: bool)
      requires Valid()
      modifies this`table
      ensures Valid() && (found <==> exists p :: 0 <= p < NPROC && old(table)[p].pid == pid)
      ensures !found ==> table == old(table)
      ensures found ==> Marked(old(Now()), Now(), pid)
    {
      var r := FindPid(pid);
      if r.Some? {
        hide Queues, Fifo, Pids, Ready;
        var p := r.value;
        ReadyChange(table, q, p, Roused(table[p]));
        PidsChange(table, nextpid, p, Roused(table[p]));
        table := table[p := table[p].(killed := true)];
        if table[p].state == SLEEPING {
          table := table[p := table[p].(state := RUNNABLE)];
        }
        assert table == old(table)[p := Roused(old(table)[p])];
      }
      return r.Some?;
    }

    method FindPid(pid: int) returns (r: Option<nat>)
      requires |table| == NPROC
      ensures r.None? ==> forall p :: 0 <= p < NPROC ==> table[p].pid != pid
      ensures r.Some? ==>
                && r.value < NPROC && table[r.value].pid == pid
                && forall j :: 0 <= j < r.value ==> table[j].pid != pid
    {
      for p := 0 to NPROC
        invariant forall j :: 0 <= j < p ==> table[j].pid != pid
      {
        if table[p].pid == pid {
          return Some(p);
        }
      }
      return None;
    }

    /** One round of the multiple-queue loop of `scheduler` up to swtch: the
        process to run, or None after an attempt to steal. */
    method Schedule(cpu: nat) returns (r: Option<nat>)
      requires Valid() && cpu < ncpu
      modifies this`next, this`prev, this`size, this`q, this`entered, this`left, this`table
      ensures Valid() && (r.None? <==> old(q)[cpu] == []) && Longer(old(entered), entered) && Longer(old(left), left)
      ensures r.None? ==> q == Stolen(old(q), cpu) && table == old(table)
      ensures r.Some? ==> r.value == old(q)[cpu][0] < NPROC && q == old(q)[cpu := old(q)[cpu][1..]]
                          && old(table)[r.value].state == RUNNABLE
                          && table == old(table)[r.value := old(table)[r.value].(state := RUNNING)]
    {
      assert size[cpu] == |q[cpu]| by { assert QueueOk(next, prev, size, q, cpu); }
      HistoryLength(entered, left, q);
      hide Queues, Fifo, Pids, Ready, Unqueued;
      if size[cpu] == 0 {
        WorkSteal(cpu);
        return None;
      }
      ReadyDequeue(table, q, cpu);
      LongerBy(entered, cpu, 0);
      LongerBy(left, cpu, q[cpu][0]);
      hide Longer;
      r := Dequeue(cpu);
      var p := r.value;
      PidsChange(table, nextpid, p, table[p].(state := RUNNING));
      StartRunning(table, q, p);
      table := table[p := table[p].(state := RUNNING)];
    }

    /** One event; nothing happens if it does not apply. */
    method Handle(e: Event)
      requires Valid()
      modifies this
      ensures Valid() && Longer(old(entered), entered) && Longer(old(left), left)
      ensures Happens(e, old(Now()), Now())
    {
      hide Queues, Fifo, Pids, Ready, Stolen, Longer, Longest, Sleepers, Took, Joined, Marked, Woken;
      HistoryLength(entered, left, q);
      LongerBy(entered, 0, 0);
      LongerBy(left, 0, 0);
      match e
      case Allocate => { var _ := Alloc(); }
      case Forked(p) => if p < NPROC && table[p].state == EMBRYO { Fork(p); }
      case Yielded(cpu, p) => if cpu < ncpu && p < NPROC && table[p].state == RUNNING { Yield(cpu, p); }
      case Slept(p, chan) =>
        if p < NPROC && table[p].state == RUNNING {
          Change(p, table[p].(state := SLEEPING, chan := chan));
        }
      case Woke(cpu, chan) => if cpu < ncpu { Wakeup1(cpu, chan); }
      case Killed(pid) => { var _ := Kill(pid); }
      case Exited(p) => if p < NPROC && table[p].state == RUNNING { Change(p, table[p].(state := ZOMBIE)); }
      case Reaped(p) => if p < NPROC && table[p].state == ZOMBIE { Change(p, Entry(UNUSED, 0, table[p].chan, false)); }
      case Scheduled(cpu) => if cpu < ncpu { var _ := Schedule(cpu); }
    }

    /** Any sequence of scheduling events keeps the queues and the table in
        order, and every queue first in, first out over the whole run: what has
        entered it is what has left it followed by what it holds. */
    method Run(events: seq<Event>) returns (ghost views: seq<View>)
      requires Valid()
      modifies this
      ensures Valid() && Longer(old(entered), entered) && Longer(old(left), left)
      ensures forall i :: 0 <= i < ncpu ==> entered[i] == left[i] + q[i]
      ensures |views| == |events| + 1 && views[0] == old(Now()) && views[|events|] == Now()
      ensures forall n :: 0 <= n < |events| ==> Happens(events[n], views[n], views[n + 1])
    {
      HistoryLength(entered, left, q);
      LongerBy(entered, 0, 0);
      LongerBy(left, 0, 0);
      hide Queues, Pids, Ready, Longer, Happens;
      views := [Now()];
      for n := 0 to |events|
        invariant Valid() && Longer(old(entered), entered) && Longer(old(left), left)
        invariant |views| == n + 1 && views[0] == old(Now()) && views[n] == Now()
        invariant forall k :: 0 <= k < n ==> Happens(events[k], views[k], views[k + 1])
      {
        ghost var e, l := entered, left;
        Handle(events[n]);
        views := views + [Now()];
        LongerTrans(old(entered), e, entered);
        LongerTrans(old(left), l, left);
      }
    }
  }

  datatype Event =
    | Allocate
    | Forked(p: nat)
    | Yielded(cpu: nat, p: nat)
    | Slept(p: nat, chan: nat)
    | Woke(cpu: nat, chan: nat)
    | Killed(pid: int)
    | Exited(p: nat)
    | Reaped(p: nat)
    | Scheduled(cpu: nat)

  /** The scheduler as its callers see it. */
  datatype View = View(table: seq<Entry>, nextpid: int, queue: seq<seq<nat>>)

  /** What event e does to the scheduler. */
  ghost predicate Happens(e: Event, a: View, b: View)
  {
    && |a.table| == |b.table| == NPROC && |a.queue| == |b.queue|
    && match e
       case Allocate => Took(a, b)
       case Forked(p) =>
         if p >= NPROC || a.table[p].state != EMBRYO then b == a
         else b.table == a.table[p := a.table[p].(state := RUNNABLE)] && Joined(a, b, p)
       case Yielded(cpu, p) =>
         if cpu >= |a.queue| || p >= NPROC || a.table[p].state != RUNNING then b == a
         else b == View(a.table[p := a.table[p].(state := RUNNABLE)], a.nextpid,
                        a.queue[cpu := a.queue[cpu] + [p]])
       case Slept(p, chan) =>
         if p >= NPROC || a.table[p].state != RUNNING then b == a
         else b == a.(table := a.table[p := a.table[p].(state := SLEEPING, chan := chan)])
       case Woke(cpu, chan) =>
         if cpu >= |a.queue| then b == a
         else b.nextpid == a.nextpid && Woken(a, b, cpu, chan)
       case Killed(pid) =>
         if forall p :: 0 <= p < NPROC ==> a.table[p].pid != pid then b == a
         else Marked(a, b, pid)
       case Exited(p) =>
         if p >= NPROC || a.table[p].state != RUNNING then b == a
         else b == a.(table := a.table[p := a.table[p].(state := ZOMBIE)])
       case Reaped(p) =>
         if p >= NPROC || a.table[p].state != ZOMBIE then b == a
         else b == a.(table := a.table[p := Entry(UNUSED, 0, a.table[p].chan, false)])
       case Scheduled(cpu) =>
         if cpu >= |a.queue| then b == a
         else if a.queue[cpu] == [] then b == a.(queue := Stolen(a.queue, cpu))
         else var p := a.queue[cpu][0];
              p < NPROC && b == View(a.table[p := a.table[p].(state := RUNNING)], a.nextpid,
                                     a.queue[cpu := a.queue[cpu][1..]])
  }

  /** The first free entry is an embryo with the next pid; a full table stays as
      it is. */
  ghost predicate Took(a: View, b: View)
    requires |a.table| == NPROC
  {
    if forall p :: 0 <= p < NPROC ==> a.table[p].state != UNUSED then b == a
    else exists p :: 0 <= p < NPROC && a.table[p].state == UNUSED
                     && (forall j :: 0 <= j < p ==> a.table[j].state != UNUSED)
                     && b == View(a.table[p := a.table[p].(state := EMBRYO, pid := a.nextpid)],
                                  a.nextpid + 1, a.queue)
  }

  /** p stands last in the first shortest queue. */
  ghost predicate Joined(a: View, b: View, p: nat)
  {
    && b.nextpid == a.nextpid
    && exists t :: 0 <= t < |a.queue| && (forall i :: 0 <= i < |a.queue| ==> |a.queue[t]| <= |a.queue[i]|)
                   && (forall i :: 0 <= i < t ==> |a.queue[t]| < |a.queue[i]|)
                   && b.queue == a.queue[t := a.queue[t] + [p]]
  }

  /** The first process with this pid is killed, and RUNNABLE if it slept. */
  ghost predicate Marked(a: View, b: View, pid: int)
    requires |a.table| == NPROC
  {
    exists p :: 0 <= p < NPROC && a.table[p].pid == pid && (forall j :: 0 <= j < p ==> a.table[j].pid != pid)
                && var s := a.table[p].state;
                   b == a.(table := a.table[p := Entry(if s == SLEEPING then RUNNABLE else s, pid,
                                                       a.table[p].chan, true)])
  }

  /** The sleepers on chan have become RUNNABLE and stand at the end of cpu's
      queue, in the order of the table; nothing else has changed. */
  ghost predicate Woken(a: View, b: View, cpu: nat, chan: nat)
    requires |a.table| == |b.table| == NPROC && cpu < |a.queue| == |b.queue|
  {
    && (forall p :: 0 <= p < NPROC ==>
          b.table[p] == if a.table[p].state == SLEEPING && a.table[p].chan == chan
                        then a.table[p].(state := RUNNABLE) else a.table[p])
    && (forall i :: 0 <= i < |a.queue| && i != cpu ==> b.queue[i] == a.queue[i])
    && a.queue[cpu] <= b.queue[cpu]
    && var woken := b.queue[cpu][|a.queue[cpu]|..];
       && (forall p :: p in woken <==> 0 <= p < NPROC && a.table[p].state == SLEEPING && a.table[p].chan == chan)
       && forall i, j :: 0 <= i < j < |woken| ==> woken[i] < woken[j]
  }

  function Roused(e: Entry): Entry
  {
    e.(killed := true, state := if e.state == SLEEPING then RUNNABLE else e.state)
  }

  predicate Asleep(e: Entry, chan: nat) { e.state == SLEEPING && e.chan == chan }

  /** The first n table entries asleep on chan, in order. */
  function Sleepers(table: seq<Entry>, chan: nat, n: nat): (r: seq<nat>)
    requires n <= |table|
    ensures forall p :: p in r <==> 0 <= p < n && table[p].state == SLEEPING && table[p].chan == chan
    ensures forall i, j :: 0 <= i < j < |r| ==> r[i] < r[j]
  {
    if n == 0 then []
    else
      var s := Sleepers(table, chan, n - 1);
      assert forall i :: 0 <= i < |s| ==> s[i] in s;
      if Asleep(table[n - 1], chan) then s + [n - 1] else s
  }

  lemma NewPid(table: seq<Entry>, nextpid: int, p: nat, e: Entry)
    requires Pids(table, nextpid) && p < |table| && e.pid == nextpid && table[p].state == UNUSED
    ensures Pids(table[p := e], nextpid + 1)
    ensures forall a :: 0 <= a < |table| && a != p && table[a].state != UNUSED ==> table[a].pid != nextpid
  {
    var t := table[p := e];
    forall a: nat | Used(t, a) ensures t[a].pid < nextpid + 1 && (a != p ==> t[a].pid < nextpid) {
      if a != p {
        assert Used(table, a);
      }
    }
    forall a: nat, b: nat | Used(t, a) && Used(t, b) && a != b ensures t[a].pid != t[b].pid {
      if a != p && b != p {
        assert Used(table, a) && Used(table, b);
      }
    }
    forall a | 0 <= a < |table| && a != p && table[a].state != UNUSED ensures table[a].pid != nextpid {
      assert Used(table, a);
    }
  }

  lemma StartRunning(table: seq<Entry>, q: seq<seq<nat>>, p: nat)
    requires Ready(table, q) && p < NPROC && Unqueued(q, p)
    ensures Ready(table[p := table[p].(state := RUNNING)], q)
  {
    var t := table[p := table[p].(state := RUNNING)];
    forall i, k | 0 <= i < |q| && 0 <= k < |q[i]| ensures q[i][k] < NPROC && t[q[i][k]].state == RUNNABLE {
      assert q[i][k] in q[i];
    }
  }

  lemma EmptyRing(next: seq<nat>, prev: seq<nat>, head: nat)
    requires |next| == |prev| && head < |next| && next[head] == head && prev[head] == head
    ensures IsRing(next, prev, head, [])
  {
  }

  lemma NothingStolen(q: seq<seq<nat>>, cur: nat, t: Option<nat>)
    requires cur < |q|
    requires t.None? ==> forall i :: 0 <= i < |q| && i != cur ==> q[i] == []
    requires t.Some? ==> t.value == 0 && Longest(q, cur, 0)
    ensures Stolen(q, cur) == q
  {
    if t.Some? {
      StolenIs(q, cur, 0);
    }
  }

  /** No queued process has the pid of an unqueued one. */
  lemma SamePid(table: seq<Entry>, nextpid: int, q: seq<seq<nat>>, i: nat, p: nat)
    requires Ready(table, q) && Pids(table, nextpid) && i < |q|
    requires p < NPROC && Unqueued(q, p) && table[p].state != UNUSED
    ensures forall k :: 0 <= k < |q[i]| && q[i][k] < NPROC ==> table[q[i][k]].pid != table[p].pid
  {
    forall k | 0 <= k < |q[i]| && q[i][k] < NPROC ensures table[q[i][k]].pid != table[p].pid {
      assert Used(table, q[i][k]) && Used(table, p);
    }
  }
}
