/** What the redo log means on disk: the writes that a commit and a recovery
    issue, and what a crash between any two of them leaves behind. */
module LogSpec {
  import opened Blocks
  import opened Common

  const MAXOPBLOCKS: nat := 10
  const LOGSIZE: nat := 3 * MAXOPBLOCKS

  /** One synchronous `bwrite`: the unit of atomicity. */
  datatype Write = Write(at: nat, data: Block)

  function Put(d: Disk, w: Write): (r: Disk)
    ensures |r| == |d|
  {
    if w.at < |d| then d[w.at := w.data] else d
  }

  /** The disk after the given writes, in order. */
  function Replay(d: Disk, ws: seq<Write>): (r: Disk)
    ensures |r| == |d|
  {
    if ws == [] then d else Put(Replay(d, ws[..|ws| - 1]), ws[|ws| - 1])
  }

  lemma ReplaySnoc(d: Disk, ws: seq<Write>, w: Write)
    ensures Replay(d, ws + [w]) == Put(Replay(d, ws), w)
  {
    assert (ws + [w])[..|ws|] == ws;
  }

  lemma {:induction false} ReplayConcat(d: Disk, a: seq<Write>, b: seq<Write>)
    ensures Replay(d, a + b) == Replay(Replay(d, a), b)
    decreases |b|
  {
    if b == [] {
      assert a + b == a;
    } else {
      assert a + b == (a + b[..|b| - 1]) + [b[|b| - 1]];
      ReplaySnoc(d, a + b[..|b| - 1], b[|b| - 1]);
      ReplayConcat(d, a, b[..|b| - 1]);
    }
  }

  // ---- The log header ----

  /** The block numbers listed in a header block (`struct logheader`). */
  function HeaderOf(b: Block): (bs: seq<nat>)
  {
    if Word(b, 0) <= LOGSIZE then seq(Word(b, 0), i requires 0 <= i < Word(b, 0) => Word(b, i + 1)) else []
  }

  predicate Encodable(bs: seq<nat>)
  {
    |bs| <= LOGSIZE && forall i :: 0 <= i < |bs| ==> bs[i] < UINT
  }

  /** The header block after `write_head`: the count and the listed entries;
      the words past them keep what the block held before. */
  function EncodeHeader(b: Block, bs: seq<nat>): (r: Block)
    requires Encodable(bs)
  {
    PutWords(PutWord(b, 0, |bs|), 1, bs)
  }

  /** Reading a header back gives the list that was written, whatever the
      block held before. */
  lemma HeaderRoundTrip(b: Block, bs: seq<nat>)
    requires Encodable(bs)
    ensures HeaderOf(EncodeHeader(b, bs)) == bs
    ensures Word(EncodeHeader(b, bs), 0) == |bs|
  {
    hide Word, PutWord, PutWords;
    var r := EncodeHeader(b, bs);
    WordOfPuts(PutWord(b, 0, |bs|), 1, bs, 0);
    WordOfPut(b, 0, |bs|, 0);
    forall i | 0 <= i < |bs| ensures Word(r, i + 1) == bs[i] {
      WordOfPuts(PutWord(b, 0, |bs|), 1, bs, i + 1);
    }
  }

  // ---- Layout ----

  /** The log occupies blocks start .. start+size-1; the first is the header. */
  datatype Layout = Layout(start: nat, size: nat)

  predicate InLog(l: Layout, b: nat) { l.start <= b < l.start + l.size }

  /** A list that fits the log and names home blocks on the disk. */
  predicate HomeList(l: Layout, diskSize: nat, bs: seq<nat>)
  {
    && |bs| <= LOGSIZE && |bs| < l.size
    && Distinct(bs)
    && forall i :: 0 <= i < |bs| ==> bs[i] < diskSize && bs[i] < UINT && !InLog(l, bs[i])
  }

  predicate LayoutOk(l: Layout, diskSize: nat)
  {
    1 <= l.size && l.start + l.size <= diskSize <= UINT
  }

  predicate DiskOk(l: Layout, d: Disk)
  {
    && LayoutOk(l, |d|)
    && Word(d[l.start], 0) <= LOGSIZE
    && HomeList(l, |d|, HeaderOf(d[l.start]))
  }

  ghost predicate SameHomes(l: Layout, d: Disk, e: Disk)
  {
    |d| == |e| && forall b :: 0 <= b < |d| && !InLog(l, b) ==> d[b] == e[b]
  }

  // ---- The writes of commit and of recovery ----

  /** `write_log`: the cached blocks go to the log body. */
  function LogBodyWrites(l: Layout, view: Disk, lh: seq<nat>): (ws: seq<Write>)
    requires HomeList(l, |view|, lh)
    ensures |ws| == |lh|
  {
    seq(|lh|, i requires 0 <= i < |lh| => Write(l.start + i + 1, view[lh[i]]))
  }

  /** `install_trans`: the logged blocks go to their homes. */
  function InstallWrites(lh: seq<nat>, body: seq<Block>): (ws: seq<Write>)
    requires |body| == |lh|
    ensures |ws| == |lh|
  {
    seq(|lh|, i requires 0 <= i < |lh| => Write(lh[i], body[i]))
  }

  function Pick(view: Disk, lh: seq<nat>): (bs: seq<Block>)
    requires forall i :: 0 <= i < |lh| ==> lh[i] < |view|
    ensures |bs| == |lh|
  {
    seq(|lh|, i requires 0 <= i < |lh| => view[lh[i]])
  }

  /** Every disk write of `commit`, in order; `view` is what `bread` returns. */
  function CommitWrites(l: Layout, view: Disk, lh: seq<nat>): (ws: seq<Write>)
    requires LayoutOk(l, |view|) && HomeList(l, |view|, lh)
    ensures |ws| == if lh == [] then 0 else 2 * |lh| + 2
  {
    if lh == [] then [] else
      var h := EncodeHeader(view[l.start], lh);
      LogBodyWrites(l, view, lh) + [Write(l.start, h)]
      + InstallWrites(lh, Pick(view, lh)) + [Write(l.start, EncodeHeader(h, []))]
  }

  function LogBody(l: Layout, d: Disk, n: nat): (bs: seq<Block>)
    requires LayoutOk(l, |d|) && n < l.size
    ensures |bs| == n
  {
    d[l.start + 1..l.start + 1 + n]
  }

  /** Every disk write of `recover_from_log`, in order. */
  function RecoverWrites(l: Layout, d: Disk): (ws: seq<Write>)
    requires DiskOk(l, d)
    ensures |ws| == |HeaderOf(d[l.start])| + 1
  {
    var lh := HeaderOf(d[l.start]);
    InstallWrites(lh, LogBody(l, d, |lh|)) + [Write(l.start, EncodeHeader(d[l.start], []))]
  }

  function Recover(l: Layout, d: Disk): (r: Disk)
    requires DiskOk(l, d)
    ensures |r| == |d|
  {
    Replay(d, RecoverWrites(l, d))
  }

  // ---- Crash safety ----

  /** The disk `d` stands for the contents `target`: every home block is
      either right in place or listed in the header with its right contents
      in the log body. */
  ghost predicate StandsFor(l: Layout, d: Disk, target: Disk)
  {
    && DiskOk(l, d) && |target| == |d|
    && var lh := HeaderOf(d[l.start]);
       && (forall i :: 0 <= i < |lh| ==> d[l.start + 1 + i] == target[lh[i]])
       && (forall b :: 0 <= b < |d| && !InLog(l, b) && b !in lh ==> d[b] == target[b])
  }

  /** Any well-formed disk stands for exactly one assignment of home blocks. */
  lemma StandsForUnique(l: Layout, d: Disk, t: Disk, u: Disk)
    requires StandsFor(l, d, t) && StandsFor(l, d, u)
    ensures SameHomes(l, t, u)
  {
    var lh := HeaderOf(d[l.start]);
    forall b | 0 <= b < |d| && !InLog(l, b) ensures t[b] == u[b] {
      if b in lh {
        var i :| 0 <= i < |lh| && lh[i] == b;
      }
    }
  }

  lemma StandsForSame(l: Layout, d: Disk, t: Disk, u: Disk)
    requires StandsFor(l, d, t) && SameHomes(l, t, u)
    ensures StandsFor(l, d, u)
  {
    var lh := HeaderOf(d[l.start]);
    forall i | 0 <= i < |lh| ensures t[lh[i]] == u[lh[i]] {
      assert !InLog(l, lh[i]);
    }
  }

  /** Writing the right contents to a home block keeps the meaning. */
  lemma HomeWriteKeeps(l: Layout, d: Disk, target: Disk, i: nat)
    requires StandsFor(l, d, target)
    requires i < |HeaderOf(d[l.start])|
    ensures StandsFor(l, Put(d, Write(HeaderOf(d[l.start])[i], d[l.start + 1 + i])), target)
  {
    hide HeaderOf, Word;
    var lh := HeaderOf(d[l.start]);
    var e := Put(d, Write(lh[i], d[l.start + 1 + i]));
    assert !InLog(l, lh[i]);
    assert e[l.start] == d[l.start];
  }

  /** The disk after the first k writes of recovery. */
  ghost function RecoverCut(l: Layout, d: Disk, k: nat): (r: Disk)
    requires DiskOk(l, d) && k <= |RecoverWrites(l, d)|
    ensures |r| == |d|
  {
    Replay(d, RecoverWrites(l, d)[..k])
  }

  ghost predicate SameLog(l: Layout, d: Disk, e: Disk)
  {
    |d| == |e| && forall b :: 0 <= b < |d| && InLog(l, b) ==> d[b] == e[b]
  }

  lemma RecoverCutNext(l: Layout, d: Disk, k: nat)
    requires DiskOk(l, d) && k < |RecoverWrites(l, d)|
    ensures RecoverCut(l, d, k + 1) == Put(RecoverCut(l, d, k), RecoverWrites(l, d)[k])
  {
    var ws := RecoverWrites(l, d);
    assert ws[..k + 1] == ws[..k] + [ws[k]];
    ReplaySnoc(d, ws[..k], ws[k]);
  }

  /** While recovery installs blocks the log area does not move and the disk
      keeps standing for the same contents. */
  lemma {:induction false} InstallPrefix(l: Layout, d: Disk, target: Disk, k: nat)
    requires StandsFor(l, d, target) && k <= |HeaderOf(d[l.start])|
    ensures var e := RecoverCut(l, d, k);
            && StandsFor(l, e, target) && SameLog(l, d, e)
            && (forall i :: 0 <= i < k ==> e[HeaderOf(d[l.start])[i]] == target[HeaderOf(d[l.start])[i]])
  {
    hide HeaderOf, Word, EncodeHeader, InstallWrites;
    if k == 0 {
      assert RecoverCut(l, d, 0) == d;
    } else {
      hide RecoverCut;
      var lh, e := HeaderOf(d[l.start]), RecoverCut(l, d, k - 1);
      assert Distinct(lh);
      InstallPrefix(l, d, target, k - 1);
      RecoverCutNext(l, d, k - 1);
      InstallStep(l, d, e, target, k - 1);
      hide RecoverWrites, StandsFor, SameLog, DiskOk;
    }
  }

  lemma InstallStep(l: Layout, d: Disk, e: Disk, target: Disk, k: nat)
    requires StandsFor(l, d, target) && StandsFor(l, e, target) && SameLog(l, d, e)
    requires k < |HeaderOf(d[l.start])|
    ensures var f := Put(e, RecoverWrites(l, d)[k]);
            var lh := HeaderOf(d[l.start]);
            && StandsFor(l, f, target) && SameLog(l, d, f)
            && f[lh[k]] == target[lh[k]]
            && (forall b :: 0 <= b < |e| && b != lh[k] ==> f[b] == e[b])
  {
    hide HeaderOf, Word, EncodeHeader;
    assert InLog(l, l.start) && InLog(l, l.start + 1 + k);
    assert e[l.start] == d[l.start];
    RecoverWriteAt(l, d, k);
    hide RecoverWrites;
    HomeWriteKeeps(l, e, target, k);
  }

  /** Clearing the header once every listed block is home keeps the meaning. */
  lemma ClearKeeps(l: Layout, d: Disk, target: Disk)
    requires StandsFor(l, d, target)
    requires forall i :: 0 <= i < |HeaderOf(d[l.start])| ==>
               d[HeaderOf(d[l.start])[i]] == target[HeaderOf(d[l.start])[i]]
    ensures var e := Put(d, Write(l.start, EncodeHeader(d[l.start], [])));
            StandsFor(l, e, target) && HeaderOf(e[l.start]) == [] && SameHomes(l, e, target)
  {
    HeaderRoundTrip(d[l.start], []);
    var lh := HeaderOf(d[l.start]);
    var e := Put(d, Write(l.start, EncodeHeader(d[l.start], [])));
    forall b | 0 <= b < |d| && !InLog(l, b) ensures e[b] == target[b] {
      if b in lh {
        var i :| 0 <= i < |lh| && lh[i] == b;
      }
    }
  }

  /** The last write of recovery clears the header. */
  lemma LastRecoverWrite(l: Layout, d: Disk, target: Disk)
    requires StandsFor(l, d, target)
    ensures var e := RecoverCut(l, d, |HeaderOf(d[l.start])| + 1);
            StandsFor(l, e, target) && HeaderOf(e[l.start]) == [] && SameHomes(l, e, target)
  {
    hide HeaderOf, Word, EncodeHeader, RecoverCut, InstallWrites;
    var lh := HeaderOf(d[l.start]);
    var e := RecoverCut(l, d, |lh|);
    InstallPrefix(l, d, target, |lh|);
    RecoverCutNext(l, d, |lh|);
    RecoverWriteAt(l, d, |lh|);
    assert InLog(l, l.start);
    assert e[l.start] == d[l.start];
    hide RecoverWrites, StandsFor, SameHomes, SameLog;
    ClearKeeps(l, e, target);
  }

  /** Recovery may be cut off after any of its writes: what is left stands
      for the same contents, and a complete run puts them in place. */
  lemma RecoverCutKeeps(l: Layout, d: Disk, target: Disk, k: nat)
    requires StandsFor(l, d, target) && k <= |RecoverWrites(l, d)|
    ensures StandsFor(l, RecoverCut(l, d, k), target)
    ensures k == |RecoverWrites(l, d)| ==> SameHomes(l, RecoverCut(l, d, k), target)
                                           && HeaderOf(RecoverCut(l, d, k)[l.start]) == []
  {
    hide HeaderOf, Word, EncodeHeader, RecoverCut, RecoverWrites, SameHomes;
    var lh := HeaderOf(d[l.start]);
    if k <= |lh| {
      InstallPrefix(l, d, target, k);
    } else {
      LastRecoverWrite(l, d, target);
    }
  }

  lemma RecoverSound(l: Layout, d: Disk, target: Disk)
    requires StandsFor(l, d, target)
    ensures SameHomes(l, Recover(l, d), target) && HeaderOf(Recover(l, d)[l.start]) == []
    ensures StandsFor(l, Recover(l, d), target)
  {
    var ws := RecoverWrites(l, d);
    assert ws[..|ws|] == ws;
    RecoverCutKeeps(l, d, target, |ws|);
  }

  /** Every well-formed disk stands for what recovery makes of it. */
  lemma StandsForRecovered(l: Layout, d: Disk)
    requires DiskOk(l, d)
    ensures StandsFor(l, d, Recover(l, d))
  {
    hide HeaderOf, Word, EncodeHeader, RecoverWrites;
    var lh := HeaderOf(d[l.start]);
    var target := seq(|d|, b requires 0 <= b < |d| =>
      if exists i :: 0 <= i < |lh| && lh[i] == b
      then var i :| 0 <= i < |lh| && lh[i] == b; d[l.start + 1 + i] else d[b]);
    assert StandsFor(l, d, target);
    RecoverSound(l, d, target);
    StandsForSame(l, d, target, Recover(l, d));
  }

  /** The disk after several recovery runs, each cut off after the given
      number of writes (as if the machine crashed again while recovering). */
  ghost function CutRuns(l: Layout, d: Disk, cuts: seq<nat>): (r: Disk)
    requires DiskOk(l, d)
    ensures |r| == |d| && DiskOk(l, r)
    decreases |cuts|
  {
    if cuts == [] then d else
      var k := if cuts[0] <= |RecoverWrites(l, d)| then cuts[0] else |RecoverWrites(l, d)|;
      StandsForRecovered(l, d);
      RecoverCutKeeps(l, d, Recover(l, d), k);
      CutRuns(l, RecoverCut(l, d, k), cuts[1..])
  }

  /** Recovery tolerates crashes: any number of interrupted runs followed by
      a complete one gives what a single complete run gives. */
  lemma {:induction false} RecoveryTolerant(l: Layout, d: Disk, cuts: seq<nat>)
    requires DiskOk(l, d)
    ensures var e := Recover(l, CutRuns(l, d, cuts));
            SameHomes(l, e, Recover(l, d)) && HeaderOf(e[l.start]) == []
    decreases |cuts|
  {
    hide RecoverWrites, RecoverCut, Recover, HeaderOf, HomeList, Word;
    StandsForRecovered(l, d);
    if cuts == [] {
      RecoverSound(l, d, Recover(l, d));
    } else {
      var k := if cuts[0] <= |RecoverWrites(l, d)| then cuts[0] else |RecoverWrites(l, d)|;
      RecoverCutKeeps(l, d, Recover(l, d), k);
      var e := RecoverCut(l, d, k);
      RecoverSound(l, e, Recover(l, d));
      RecoveryTolerant(l, e, cuts[1..]);
    }
  }

  // ---- Commit ----

  /** The disk after the first k writes of commit. */
  ghost function CommitCut(l: Layout, d: Disk, view: Disk, lh: seq<nat>, k: nat): (r: Disk)
    requires LayoutOk(l, |view|) && HomeList(l, |view|, lh) && k <= |CommitWrites(l, view, lh)|
    ensures |r| == |d|
  {
    Replay(d, CommitWrites(l, view, lh)[..k])
  }

  /** The cache view while a transaction is open: it differs from the disk
      only in the logged blocks. */
  ghost predicate OpenView(l: Layout, d: Disk, view: Disk, lh: seq<nat>)
  {
    && DiskOk(l, d) && HeaderOf(d[l.start]) == [] && |view| == |d|
    && HomeList(l, |d|, lh)
    && (forall b :: 0 <= b < |d| && b !in lh ==> view[b] == d[b])
  }

  /** The k-th write of commit. */
  lemma CommitWriteAt(l: Layout, view: Disk, lh: seq<nat>, k: nat)
    requires LayoutOk(l, |view|) && HomeList(l, |view|, lh) && lh != [] && k < 2 * |lh| + 2
    ensures CommitWrites(l, view, lh)[k] ==
            if k < |lh| then Write(l.start + k + 1, view[lh[k]])
            else if k == |lh| then Write(l.start, EncodeHeader(view[l.start], lh))
            else if k <= 2 * |lh| then Write(lh[k - |lh| - 1], view[lh[k - |lh| - 1]])
            else Write(l.start, EncodeHeader(EncodeHeader(view[l.start], lh), []))
  {
    hide EncodeHeader, HeaderOf, Word;
    var n, h := |lh|, EncodeHeader(view[l.start], lh);
    var body, home := LogBodyWrites(l, view, lh), InstallWrites(lh, Pick(view, lh));
    var first, last := [Write(l.start, h)], [Write(l.start, EncodeHeader(h, []))];
    assert CommitWrites(l, view, lh) == body + first + home + last;
    FourParts(body, first, home, last, k);
    if k < n {
      assert body[k] == Write(l.start + k + 1, view[lh[k]]);
    } else if n < k <= 2 * n {
      assert home[k - n - 1] == Write(lh[k - n - 1], Pick(view, lh)[k - n - 1]);
    }
  }

  /** Where the k-th element of a concatenation comes from. */
  lemma FourParts(a: seq<Write>, b: seq<Write>, c: seq<Write>, d: seq<Write>, k: nat)
    requires k < |a| + |b| + |c| + |d|
    ensures (a + b + c + d)[k] ==
            if k < |a| then a[k]
            else if k < |a| + |b| then b[k - |a|]
            else if k < |a| + |b| + |c| then c[k - |a| - |b|]
            else d[k - |a| - |b| - |c|]
  {
  }

  lemma CommitCutNext(l: Layout, d: Disk, view: Disk, lh: seq<nat>, k: nat)
    requires LayoutOk(l, |view|) && HomeList(l, |view|, lh) && k < |CommitWrites(l, view, lh)|
    ensures CommitCut(l, d, view, lh, k + 1) == Put(CommitCut(l, d, view, lh, k), CommitWrites(l, view, lh)[k])
  {
    var ws := CommitWrites(l, view, lh);
    assert ws[..k + 1] == ws[..k] + [ws[k]];
    ReplaySnoc(d, ws[..k], ws[k]);
  }

  ghost predicate BodyFilled(l: Layout, d: Disk, view: Disk, lh: seq<nat>, k: nat, e: Disk)
    requires LayoutOk(l, |d|) && HomeList(l, |view|, lh) && k <= |lh|
  {
    && |e| == |d| && e[l.start] == d[l.start] && SameHomes(l, e, d)
    && forall i :: 0 <= i < k ==> e[l.start + 1 + i] == view[lh[i]]
  }

  lemma BodyStep(l: Layout, d: Disk, view: Disk, lh: seq<nat>, k: nat, e: Disk)
    requires LayoutOk(l, |d|) && HomeList(l, |view|, lh) && k < |lh| && BodyFilled(l, d, view, lh, k, e)
    ensures BodyFilled(l, d, view, lh, k + 1, Put(e, Write(l.start + k + 1, view[lh[k]])))
  {
    assert InLog(l, l.start + k + 1);
  }

  /** Filling the log body moves neither the header nor any home block. */
  lemma {:induction false} BodyPrefix(l: Layout, d: Disk, view: Disk, lh: seq<nat>, k: nat)
    requires OpenView(l, d, view, lh) && lh != [] && k <= |lh|
    ensures BodyFilled(l, d, view, lh, k, CommitCut(l, d, view, lh, k))
  {
    hide HeaderOf, Word, EncodeHeader, LogBodyWrites, InstallWrites;
    if k == 0 {
      assert CommitCut(l, d, view, lh, 0) == d;
    } else {
      hide CommitCut;
      BodyPrefix(l, d, view, lh, k - 1);
      CommitCutNext(l, d, view, lh, k - 1);
      CommitWriteAt(l, view, lh, k - 1);
      BodyStep(l, d, view, lh, k - 1, CommitCut(l, d, view, lh, k - 1));
    }
  }

  lemma HeaderStep(l: Layout, d: Disk, view: Disk, lh: seq<nat>, e: Disk)
    requires OpenView(l, d, view, lh) && BodyFilled(l, d, view, lh, |lh|, e)
    ensures var f := Put(e, Write(l.start, EncodeHeader(view[l.start], lh)));
            StandsFor(l, f, view) && HeaderOf(f[l.start]) == lh
  {
    assert InLog(l, l.start);
    HeaderRoundTrip(view[l.start], lh);
  }

  /** The header write is the commit point. */
  lemma CommitPoint(l: Layout, d: Disk, view: Disk, lh: seq<nat>)
    requires OpenView(l, d, view, lh) && lh != []
    ensures var e := CommitCut(l, d, view, lh, |lh| + 1);
            StandsFor(l, e, view) && HeaderOf(e[l.start]) == lh
            && e[l.start] == EncodeHeader(view[l.start], lh)
  {
    BodyPrefix(l, d, view, lh, |lh|);
    CommitCutNext(l, d, view, lh, |lh|);
    CommitWriteAt(l, view, lh, |lh|);
    HeaderStep(l, d, view, lh, CommitCut(l, d, view, lh, |lh|));
  }

  /** The k-th write of recovery. */
  lemma RecoverWriteAt(l: Layout, d: Disk, k: nat)
    requires DiskOk(l, d) && k <= |HeaderOf(d[l.start])|
    ensures RecoverWrites(l, d)[k] ==
            var lh := HeaderOf(d[l.start]);
            if k < |lh| then Write(lh[k], d[l.start + 1 + k]) else Write(l.start, EncodeHeader(d[l.start], []))
  {
    hide EncodeHeader, Word;
    var lh := HeaderOf(d[l.start]);
    var home, last := InstallWrites(lh, LogBody(l, d, |lh|)), [Write(l.start, EncodeHeader(d[l.start], []))];
    assert RecoverWrites(l, d) == home + last;
    if k < |lh| {
      assert LogBody(l, d, |lh|)[k] == d[l.start + 1 + k];
    }
  }

  /** Past the header write, the writes of commit are those of recovery. */
  lemma TailWrites(l: Layout, view: Disk, lh: seq<nat>, e: Disk)
    requires LayoutOk(l, |view|) && HomeList(l, |view|, lh) && lh != []
    requires StandsFor(l, e, view) && HeaderOf(e[l.start]) == lh && e[l.start] == EncodeHeader(view[l.start], lh)
    ensures CommitWrites(l, view, lh)[|lh| + 1..] == RecoverWrites(l, e)
  {
    hide CommitWrites, RecoverWrites, HeaderOf, EncodeHeader, Word;
    var ws, rs := CommitWrites(l, view, lh), RecoverWrites(l, e);
    assert forall i :: 0 <= i < |lh| ==> e[l.start + 1 + i] == view[lh[i]];
    hide StandsFor, HomeList;
    forall i | 0 <= i < |rs| ensures ws[|lh| + 1 + i] == rs[i] {
      CommitWriteAt(l, view, lh, |lh| + 1 + i);
      RecoverWriteAt(l, e, i);
    }
  }

  lemma CommitTail(l: Layout, d: Disk, view: Disk, lh: seq<nat>, k: nat)
    requires OpenView(l, d, view, lh) && lh != []
    requires |lh| < k <= |CommitWrites(l, view, lh)|
    ensures var e := CommitCut(l, d, view, lh, |lh| + 1);
            && DiskOk(l, e)
            && |RecoverWrites(l, e)| == |CommitWrites(l, view, lh)| - |lh| - 1
            && CommitCut(l, d, view, lh, k) == RecoverCut(l, e, k - |lh| - 1)
  {
    hide CommitWrites, RecoverWrites, EncodeHeader, HeaderOf;
    CommitPoint(l, d, view, lh);
    var ws := CommitWrites(l, view, lh);
    var e := CommitCut(l, d, view, lh, |lh| + 1);
    TailWrites(l, view, lh, e);
    var rs := RecoverWrites(l, e);
    assert ws[..k] == ws[..|lh| + 1] + rs[..k - |lh| - 1];
    ReplayConcat(d, ws[..|lh| + 1], rs[..k - |lh| - 1]);
  }

  lemma CutInBody(l: Layout, d: Disk, view: Disk, lh: seq<nat>, k: nat)
    requires OpenView(l, d, view, lh) && lh != [] && k <= |lh|
    ensures StandsFor(l, CommitCut(l, d, view, lh, k), d)
  {
    hide HeaderOf, CommitCut, CommitWrites;
    BodyPrefix(l, d, view, lh, k);
  }

  lemma CutInTail(l: Layout, d: Disk, view: Disk, lh: seq<nat>, k: nat)
    requires OpenView(l, d, view, lh) && lh != [] && |lh| < k <= |CommitWrites(l, view, lh)|
    ensures var e := CommitCut(l, d, view, lh, k);
            && StandsFor(l, e, view)
            && (k == |CommitWrites(l, view, lh)| ==> SameHomes(l, e, view) && HeaderOf(e[l.start]) == [])
  {
    hide EncodeHeader, HeaderOf, RecoverWrites, CommitWrites, StandsFor, SameHomes, CommitCut, RecoverCut;
    CommitPoint(l, d, view, lh);
    CommitTail(l, d, view, lh, k);
    RecoverCutKeeps(l, CommitCut(l, d, view, lh, |lh| + 1), view, k - |lh| - 1);
  }

  /** Crash atomicity of one commit: after any number k of its writes the
      disk stands for exactly the old contents or exactly the new ones, the
      new ones precisely when the first header write has landed. */
  lemma CrashAtomic(l: Layout, d: Disk, view: Disk, lh: seq<nat>, k: nat)
    requires OpenView(l, d, view, lh) && k <= |CommitWrites(l, view, lh)|
    ensures var e := CommitCut(l, d, view, lh, k);
            && StandsFor(l, e, if k <= |lh| then d else view)
            && SameHomes(l, Recover(l, e), if k <= |lh| then d else view)
            && (k == |CommitWrites(l, view, lh)| ==> SameHomes(l, e, view) && HeaderOf(e[l.start]) == [])
  {
    hide EncodeHeader, HeaderOf, RecoverWrites;
    var e := CommitCut(l, d, view, lh, k);
    if lh == [] {
      assert e == d && view == d;
    } else if k <= |lh| {
      CutInBody(l, d, view, lh, k);
    } else {
      CutInTail(l, d, view, lh, k);
    }
    RecoverSound(l, e, if k <= |lh| then d else view);
  }
}
