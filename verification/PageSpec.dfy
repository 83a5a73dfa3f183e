/** Physical pages and two-level page tables (src/vm.c, src/kalloc.c), on
    values: who uses each page, and what each page directory maps. */
module PageSpec {
  import opened Common

  const NENT: nat := 1024        // entries in a directory or a table
  const UDIRS: nat := 512        // directory entries below KERNBASE

  type Page = seq<int>

  datatype Pte = Absent | Present(frame: nat, perm: nat)

  /** What a page is used for: free, held by kernel code (just allocated, or a
      stack, a pipe, ...), a page directory, the page table behind entry i of a
      directory, or the user page that entry j of that table maps. */
  datatype Owner = Free | Held | Dir | Table(d: nat, i: nat) | User(d: nat, i: nat, j: nat)

  /** `free` is the free list from its head; `tables` and `data` are the
      contents of pages used as directories or tables and as user memory. */
  datatype Vm = Vm(free: seq<nat>, tables: map<nat, seq<Pte>>, data: map<nat, Page>, owner: map<nat, Owner>)

  function Entry(vm: Vm, f: nat, i: nat): Pte
  {
    if f in vm.tables && i < |vm.tables[f]| then vm.tables[f][i] else Absent
  }

  /** What directory d maps at directory entry i, table entry j. */
  function Lookup(vm: Vm, d: nat, i: nat, j: nat): Pte
  {
    match Entry(vm, d, i)
    case Absent => Absent
    case Present(t, _) => Entry(vm, t, j)
  }

  predicate Has(vm: Vm, f: nat, o: Owner) { f in vm.owner && vm.owner[f] == o }

  predicate IsDir(vm: Vm, d: nat) { Has(vm, d, Dir) && d in vm.tables }

  ghost predicate FreeOk(vm: Vm)
  {
    && (forall k, l :: 0 <= k < l < |vm.free| ==> vm.free[k] != vm.free[l])
    && (forall f :: f in vm.free <==> Has(vm, f, Free))
    && 0 !in vm.owner
  }

  /** Table pages and user pages are referenced exactly where their owner says. */
  ghost predicate DirsOk(vm: Vm)
  {
    && (forall f :: f in vm.tables ==> |vm.tables[f]| == NENT)
    && (forall d, i :: IsDir(vm, d) && 0 <= i < NENT && Entry(vm, d, i).Present? ==>
          Has(vm, Entry(vm, d, i).frame, Table(d, i)))
    && (forall f :: f in vm.owner && vm.owner[f].Table? ==> TableOk(vm, f))
  }

  predicate TableOk(vm: Vm, t: nat)
    requires t in vm.owner && vm.owner[t].Table?
  {
    var Table(d, i) := vm.owner[t];
    IsDir(vm, d) && i < NENT && t in vm.tables && Entry(vm, d, i).Present? && Entry(vm, d, i).frame == t
  }

  ghost predicate UsersOk(vm: Vm)
  {
    && (forall d, i, j :: IsDir(vm, d) && 0 <= i < UDIRS && 0 <= j < NENT && Lookup(vm, d, i, j).Present? ==>
          Has(vm, Lookup(vm, d, i, j).frame, User(d, i, j)))
    && (forall f :: f in vm.owner && vm.owner[f].User? ==> UserOk(vm, f))
  }

  predicate UserOk(vm: Vm, u: nat)
    requires u in vm.owner && vm.owner[u].User?
  {
    var User(d, i, j) := vm.owner[u];
    && IsDir(vm, d) && i < UDIRS && j < NENT && u in vm.data
    && Lookup(vm, d, i, j).Present? && Lookup(vm, d, i, j).frame == u
  }

  /** Free pages, page-table pages and user pages, each of these mapped exactly
      once, partition the pages that nobody else holds. */
  ghost predicate VmInv(vm: Vm) { FreeOk(vm) && DirsOk(vm) && UsersOk(vm) }

  // ---- kalloc and kfree ----

  function Alloc(vm: Vm): Vm
    requires vm.free != []
  {
    vm.(free := vm.free[1..], owner := vm.owner[vm.free[0] := Held])
  }

  function Release(vm: Vm, f: nat): Vm
  {
    vm.(free := [f] + vm.free, owner := vm.owner[f := Free])
  }

  /** Owners change between Free and Held only: nothing mapped is affected. */
  ghost predicate OnlyIdle(vm: Vm, wm: Vm)
  {
    && wm.tables == vm.tables && wm.data == vm.data && wm.owner.Keys == vm.owner.Keys
    && forall f :: f in vm.owner && f in wm.owner ==>
         || wm.owner[f] == vm.owner[f]
         || ((vm.owner[f].Free? || vm.owner[f].Held?) && (wm.owner[f].Free? || wm.owner[f].Held?))
  }

  lemma IdleDirs(vm: Vm, wm: Vm)
    requires DirsOk(vm) && OnlyIdle(vm, wm)
    ensures DirsOk(wm)
    ensures forall f, i :: Entry(wm, f, i) == Entry(vm, f, i)
    ensures forall d :: IsDir(wm, d) == IsDir(vm, d)
  {
    assert forall f, i :: Entry(wm, f, i) == Entry(vm, f, i);
    assert forall d :: IsDir(wm, d) == IsDir(vm, d);
    forall f | f in wm.owner && wm.owner[f].Table? ensures TableOk(wm, f) {
      assert TableOk(vm, f);
    }
  }

  lemma IdleInv(vm: Vm, wm: Vm)
    requires DirsOk(vm) && UsersOk(vm) && OnlyIdle(vm, wm)
    ensures DirsOk(wm) && UsersOk(wm)
    ensures forall e, a, b :: Lookup(wm, e, a, b) == Lookup(vm, e, a, b)
  {
    IdleDirs(vm, wm);
    hide DirsOk;
    assert forall e, a, b :: Lookup(wm, e, a, b) == Lookup(vm, e, a, b);
    forall e, a, b | IsDir(wm, e) && 0 <= a < UDIRS && 0 <= b < NENT && Lookup(wm, e, a, b).Present?
      ensures Has(wm, Lookup(wm, e, a, b).frame, User(e, a, b))
    {
      assert Has(vm, Lookup(vm, e, a, b).frame, User(e, a, b));
    }
    forall f | f in wm.owner && wm.owner[f].User? ensures UserOk(wm, f) {
      assert UserOk(vm, f);
    }
  }

  lemma AllocInv(vm: Vm)
    requires VmInv(vm) && vm.free != []
    ensures VmInv(Alloc(vm)) && Has(vm, vm.free[0], Free) && Has(Alloc(vm), vm.free[0], Held)
    ensures forall e, a, b :: Lookup(Alloc(vm), e, a, b) == Lookup(vm, e, a, b)
  {
    var wm := Alloc(vm);
    assert vm.free[0] in vm.free;
    forall f ensures f in wm.free <==> Has(wm, f, Free) {
      if f in vm.free && f != vm.free[0] {
        var k :| 0 <= k < |vm.free| && vm.free[k] == f;
        assert wm.free[k - 1] == f;
      }
    }
    IdleInv(vm, wm);
  }

  lemma ReleaseInv(vm: Vm, f: nat)
    requires VmInv(vm) && Has(vm, f, Held)
    ensures VmInv(Release(vm, f))
    ensures forall e, a, b :: Lookup(Release(vm, f), e, a, b) == Lookup(vm, e, a, b)
  {
    var wm := Release(vm, f);
    assert f !in vm.free;
    IdleInv(vm, wm);
  }

  // ---- What an operation on directory d may touch ----

  predicate Mine(o: Owner, f: nat, d: nat)
  {
    f == d || (o.Table? && o.d == d) || (o.User? && o.d == d)
  }

  /** Page f is free, belongs to directory d, or is in `held`. */
  predicate Loose(vm: Vm, f: nat, d: nat, held: set<nat>)
  {
    f in vm.owner && (vm.owner[f].Free? || Mine(vm.owner[f], f, d) || f in held)
  }

  predicate SameFrame(vm: Vm, wm: Vm, f: nat)
  {
    && f in vm.owner && f in wm.owner && wm.owner[f] == vm.owner[f]
    && (f in vm.tables ==> f in wm.tables && wm.tables[f] == vm.tables[f])
    && (f in vm.data ==> f in wm.data && wm.data[f] == vm.data[f])
  }

  /** From vm to wm only free pages, pages of d and pages held by the operation
      (`held` before, `kept` after) have changed, and they stay among these. */
  ghost predicate Others(vm: Vm, wm: Vm, d: nat, held: set<nat>, kept: set<nat>)
  {
    && wm.owner.Keys == vm.owner.Keys
    && (forall f :: f in vm.owner ==> if Loose(vm, f, d, held) then Loose(wm, f, d, kept) else SameFrame(vm, wm, f))
    && (forall f :: f in kept && f in vm.owner ==> Loose(vm, f, d, held))
  }

  lemma OthersTrans(vm: Vm, wm: Vm, xm: Vm, d: nat, held: set<nat>, mid: set<nat>, kept: set<nat>)
    requires Others(vm, wm, d, held, mid) && Others(wm, xm, d, mid, kept)
    ensures Others(vm, xm, d, held, kept)
  {
    forall f | f in vm.owner ensures if Loose(vm, f, d, held) then Loose(xm, f, d, kept) else SameFrame(vm, xm, f) {
      if !Loose(vm, f, d, held) {
        assert SameFrame(vm, wm, f) && !Loose(wm, f, d, mid);
      }
    }
    forall f | f in kept && f in vm.owner ensures Loose(vm, f, d, held) {
      assert Loose(wm, f, d, mid);
      if !Loose(vm, f, d, held) {
        assert SameFrame(vm, wm, f);
      }
    }
  }

  /** Other directories map what they mapped, to pages with the same contents. */
  lemma OtherDirs(vm: Vm, wm: Vm, d: nat, e: nat, i: nat, j: nat)
    requires VmInv(vm) && Others(vm, wm, d, {}, {}) && IsDir(vm, e) && e != d && i < NENT && j < NENT
    requires d in vm.owner && !vm.owner[d].Table? && !vm.owner[d].User?
    ensures IsDir(wm, e) && Lookup(wm, e, i, j) == Lookup(vm, e, i, j)
    ensures Lookup(vm, e, i, j).Present? && i < UDIRS ==>
              var u := Lookup(vm, e, i, j).frame; u in vm.data && u in wm.data && wm.data[u] == vm.data[u]
  {
    hide FreeOk;
    assert SameFrame(vm, wm, e);
    if Entry(vm, e, i).Present? {
      var t := Entry(vm, e, i).frame;
      assert Has(vm, t, Table(e, i));
      assert TableOk(vm, t) && SameFrame(vm, wm, t);
      if Lookup(vm, e, i, j).Present? && i < UDIRS {
        var u := Lookup(vm, e, i, j).frame;
        assert Has(vm, u, User(e, i, j));
        assert UserOk(vm, u) && SameFrame(vm, wm, u);
      }
    }
  }

  // ---- Page directories and page tables ----

  function Blank(): (b: seq<Pte>)
    ensures |b| == NENT && forall i :: 0 <= i < NENT ==> b[i] == Absent
  {
    seq(NENT, _ => Absent)
  }

  /** A held page becomes an empty directory. */
  function NewDir(vm: Vm, d: nat): Vm { vm.(tables := vm.tables[d := Blank()], owner := vm.owner[d := Dir]) }

  lemma NewDirInv(vm: Vm, d: nat)
    requires VmInv(vm) && Has(vm, d, Held)
    ensures VmInv(NewDir(vm, d)) && IsDir(NewDir(vm, d), d)
    ensures Others(vm, NewDir(vm, d), d, {d}, {})
    ensures forall i, j :: 0 <= i && 0 <= j ==> Lookup(NewDir(vm, d), d, i, j) == Absent
  {
    hide Blank;
    var wm := NewDir(vm, d);
    assert FreeOk(wm);
    hide FreeOk;
    assert forall f, i :: f != d ==> Entry(wm, f, i) == Entry(vm, f, i);
    assert forall i :: Entry(wm, d, i) == Absent;
    forall f | f in wm.owner && wm.owner[f].Table? ensures TableOk(wm, f) {
      assert TableOk(vm, f);
    }
    forall e, i | IsDir(wm, e) && 0 <= i < NENT && Entry(wm, e, i).Present?
      ensures Has(wm, Entry(wm, e, i).frame, Table(e, i))
    {
      assert IsDir(vm, e);
    }
    forall e, i, j | IsDir(wm, e) && 0 <= i < UDIRS && 0 <= j < NENT && Lookup(wm, e, i, j).Present?
      ensures Has(wm, Lookup(wm, e, i, j).frame, User(e, i, j))
    {
      assert Has(vm, Entry(vm, e, i).frame, Table(e, i));
      assert Lookup(vm, e, i, j).Present?;
    }
    forall f | f in wm.owner && wm.owner[f].User? ensures UserOk(wm, f) {
      assert UserOk(vm, f);
      var User(e, i, j) := vm.owner[f];
      assert Has(vm, Entry(vm, e, i).frame, Table(e, i));
    }
  }

  const PDEPERM: nat := 6        // PTE_W | PTE_U

  /** A held page t becomes the empty table behind entry i of directory d. */
  function PutTable(vm: Vm, d: nat, i: nat, t: nat): Vm
    requires d in vm.tables && i < |vm.tables[d]|
  {
    vm.(tables := vm.tables[t := Blank()][d := vm.tables[d][i := Present(t, PDEPERM)]],
        owner := vm.owner[t := Table(d, i)])
  }

  lemma PutTableEntries(vm: Vm, d: nat, i: nat, t: nat)
    requires DirsOk(vm) && IsDir(vm, d) && i < NENT && Entry(vm, d, i) == Absent && Has(vm, t, Held)
    ensures var wm := PutTable(vm, d, i, t);
            && (forall f, a :: f != t ==>
                  Entry(wm, f, a) == if f == d && a == i then Present(t, PDEPERM) else Entry(vm, f, a))
            && (forall a :: Entry(wm, t, a) == Absent)
            && (forall e, a, b :: IsDir(vm, e) && 0 <= a < NENT ==> Lookup(wm, e, a, b) == Lookup(vm, e, a, b))
            && (forall e :: IsDir(wm, e) == IsDir(vm, e))
  {
    hide Blank;
    var wm := PutTable(vm, d, i, t);
    forall e, a, b | IsDir(vm, e) && 0 <= a < NENT ensures Lookup(wm, e, a, b) == Lookup(vm, e, a, b) {
      if Entry(vm, e, a).Present? {
        assert Has(vm, Entry(vm, e, a).frame, Table(e, a));
      }
    }
  }

  lemma PutTableInv(vm: Vm, d: nat, i: nat, t: nat)
    requires VmInv(vm) && IsDir(vm, d) && i < NENT && Entry(vm, d, i) == Absent && Has(vm, t, Held)
    ensures VmInv(PutTable(vm, d, i, t))
    ensures Others(vm, PutTable(vm, d, i, t), d, {t}, {})
  {
    var wm := PutTable(vm, d, i, t);
    assert FreeOk(wm);
    hide FreeOk, Blank;
    PutTableEntries(vm, d, i, t);
    forall f | f in wm.owner && wm.owner[f].Table? ensures TableOk(wm, f) {
      if f != t {
        assert TableOk(vm, f);
      }
    }
    assert Others(vm, wm, d, {t}, {});
    hide Others, PutTable;
    forall e, a, b | IsDir(wm, e) && 0 <= a < UDIRS && 0 <= b < NENT && Lookup(wm, e, a, b).Present?
      ensures Has(wm, Lookup(wm, e, a, b).frame, User(e, a, b))
    {
      assert Has(vm, Lookup(vm, e, a, b).frame, User(e, a, b));
    }
    forall f | f in wm.owner && wm.owner[f].User? ensures UserOk(wm, f) {
      assert UserOk(vm, f);
    }
  }

  // ---- Table entries ----

  /** `*pte = ...` for entry j of the table behind entry i of directory d. */
  function SetPte(vm: Vm, d: nat, i: nat, j: nat, pte: Pte): Vm
    requires Entry(vm, d, i).Present? && Entry(vm, d, i).frame in vm.tables && j < |vm.tables[Entry(vm, d, i).frame]|
  {
    var t := Entry(vm, d, i).frame;
    vm.(tables := vm.tables[t := vm.tables[t][j := pte]])
  }

  /** The table behind a present directory entry. */
  lemma TableAt(vm: Vm, d: nat, i: nat)
    requires DirsOk(vm) && IsDir(vm, d) && i < NENT && Entry(vm, d, i).Present?
    ensures var t := Entry(vm, d, i).frame;
            Has(vm, t, Table(d, i)) && t in vm.tables && |vm.tables[t]| == NENT && t != d
  {
    assert TableOk(vm, Entry(vm, d, i).frame);
  }

  lemma SetPteLookup(vm: Vm, d: nat, i: nat, j: nat, pte: Pte)
    requires DirsOk(vm) && IsDir(vm, d) && i < NENT && j < NENT && Entry(vm, d, i).Present?
    ensures Entry(vm, d, i).frame in vm.tables && |vm.tables[Entry(vm, d, i).frame]| == NENT
    ensures var wm := SetPte(vm, d, i, j, pte);
            && DirsOk(wm)
            && (forall e :: IsDir(wm, e) == IsDir(vm, e))
            && (forall e, a :: IsDir(vm, e) ==> Entry(wm, e, a) == Entry(vm, e, a))
            && (forall e, a, b :: IsDir(vm, e) && 0 <= a < NENT && 0 <= b < NENT ==>
                  Lookup(wm, e, a, b) == if e == d && a == i && b == j then pte else Lookup(vm, e, a, b))
  {
    TableAt(vm, d, i);
    var wm, t := SetPte(vm, d, i, j, pte), Entry(vm, d, i).frame;
    assert forall f, a :: f != t ==> Entry(wm, f, a) == Entry(vm, f, a);
    forall e, a, b | IsDir(vm, e) && 0 <= a < NENT && 0 <= b < NENT
      ensures Lookup(wm, e, a, b) == if e == d && a == i && b == j then pte else Lookup(vm, e, a, b)
    {
      if Entry(vm, e, a).Present? {
        assert Has(vm, Entry(vm, e, a).frame, Table(e, a));
      }
    }
    forall f | f in wm.owner && wm.owner[f].Table? ensures TableOk(wm, f) {
      assert TableOk(vm, f);
    }
  }

  /** Writing to a held page. */
  function Store(vm: Vm, u: nat, page: Page): Vm { vm.(data := vm.data[u := page]) }

  lemma StoreInv(vm: Vm, u: nat, page: Page, d: nat, held: set<nat>)
    requires VmInv(vm) && Has(vm, u, Held) && u in held && d != u
    ensures VmInv(Store(vm, u, page)) && Others(vm, Store(vm, u, page), d, held, held)
    ensures forall e, a, b :: Lookup(Store(vm, u, page), e, a, b) == Lookup(vm, e, a, b)
  {
    var wm := Store(vm, u, page);
    assert forall f, a :: Entry(wm, f, a) == Entry(vm, f, a);
    forall f | f in wm.owner && wm.owner[f].Table? ensures TableOk(wm, f) {
      assert TableOk(vm, f);
    }
    forall f | f in wm.owner && wm.owner[f].User? ensures UserOk(wm, f) {
      assert UserOk(vm, f);
    }
  }

  /** The held page u becomes the user page at (i, j) of directory d. */
  function MapUser(vm: Vm, d: nat, i: nat, j: nat, u: nat, perm: nat): Vm
    requires Entry(vm, d, i).Present? && Entry(vm, d, i).frame in vm.tables && j < |vm.tables[Entry(vm, d, i).frame]|
  {
    SetPte(vm, d, i, j, Present(u, perm)).(owner := vm.owner[u := User(d, i, j)])
  }

  lemma MapUserInv(vm: Vm, d: nat, i: nat, j: nat, u: nat, perm: nat, held: set<nat>)
    requires VmInv(vm) && IsDir(vm, d) && i < UDIRS && j < NENT && Entry(vm, d, i).Present?
    requires Lookup(vm, d, i, j) == Absent && Has(vm, u, Held) && u in vm.data && u in held
    ensures Entry(vm, d, i).frame in vm.tables && |vm.tables[Entry(vm, d, i).frame]| == NENT
    ensures var wm := MapUser(vm, d, i, j, u, perm);
            && VmInv(wm) && Others(vm, wm, d, held, held - {u}) && IsDir(wm, d)
            && (forall a, b :: 0 <= a < NENT && 0 <= b < NENT ==>
                  Lookup(wm, d, a, b) == if a == i && b == j then Present(u, perm) else Lookup(vm, d, a, b))
  {
    SetPteLookup(vm, d, i, j, Present(u, perm));
    TableAt(vm, d, i);
    var wm := MapUser(vm, d, i, j, u, perm);
    assert FreeOk(wm);
    assert Others(vm, wm, d, held, held - {u});
    var xm := SetPte(vm, d, i, j, Present(u, perm));
    assert forall f, a :: Entry(wm, f, a) == Entry(xm, f, a);
    hide FreeOk, Others, SetPte;
    forall f | f in wm.owner && wm.owner[f].Table? ensures TableOk(wm, f) {
      assert TableOk(xm, f);
    }
    MapUserUsers(vm, xm, wm, d, i, j, u, perm);
  }

  lemma MapUserUsers(vm: Vm, xm: Vm, wm: Vm, d: nat, i: nat, j: nat, u: nat, perm: nat)
    requires UsersOk(vm) && IsDir(vm, d) && i < UDIRS && j < NENT && Has(vm, u, Held) && u in vm.data
    requires Lookup(vm, d, i, j) == Absent
    requires wm.tables == xm.tables && wm.data == vm.data && wm.owner == vm.owner[u := User(d, i, j)]
    requires forall f, a :: Entry(wm, f, a) == Entry(xm, f, a)
    requires forall e :: IsDir(xm, e) == IsDir(vm, e)
    requires xm.owner == vm.owner
    requires forall e, a, b :: IsDir(vm, e) && 0 <= a < NENT && 0 <= b < NENT ==>
               Lookup(xm, e, a, b) == if e == d && a == i && b == j then Present(u, perm) else Lookup(vm, e, a, b)
    ensures UsersOk(wm)
  {
    forall e, a, b | IsDir(wm, e) && 0 <= a < UDIRS && 0 <= b < NENT && Lookup(wm, e, a, b).Present?
      ensures Has(wm, Lookup(wm, e, a, b).frame, User(e, a, b))
    {
      assert Lookup(wm, e, a, b) == Lookup(xm, e, a, b);
      if !(e == d && a == i && b == j) {
        assert Has(vm, Lookup(vm, e, a, b).frame, User(e, a, b));
      }
    }
    forall f | f in wm.owner && wm.owner[f].User? ensures UserOk(wm, f) {
      if f != u {
        assert UserOk(vm, f);
        var User(e, a, b) := vm.owner[f];
        assert Lookup(wm, e, a, b) == Lookup(xm, e, a, b);
      } else {
        assert Lookup(wm, d, i, j) == Lookup(xm, d, i, j);
      }
    }
  }

  /** A kernel mapping at (i, j) of directory d. */
  lemma MapKernelInv(vm: Vm, d: nat, i: nat, j: nat, pte: Pte)
    requires VmInv(vm) && IsDir(vm, d) && UDIRS <= i < NENT && j < NENT && Entry(vm, d, i).Present?
    ensures Entry(vm, d, i).frame in vm.tables && |vm.tables[Entry(vm, d, i).frame]| == NENT
    ensures var wm := SetPte(vm, d, i, j, pte);
            && VmInv(wm) && Others(vm, wm, d, {}, {}) && IsDir(wm, d)
            && (forall a, b :: 0 <= a < NENT && 0 <= b < NENT ==>
                  Lookup(wm, d, a, b) == if a == i && b == j then pte else Lookup(vm, d, a, b))
  {
    SetPteLookup(vm, d, i, j, pte);
    TableAt(vm, d, i);
    var wm := SetPte(vm, d, i, j, pte);
    assert FreeOk(wm);
    assert Others(vm, wm, d, {}, {});
    hide FreeOk, Others, SetPte, DirsOk;
    forall e, a, b | IsDir(wm, e) && 0 <= a < UDIRS && 0 <= b < NENT && Lookup(wm, e, a, b).Present?
      ensures Has(wm, Lookup(wm, e, a, b).frame, User(e, a, b))
    {
      assert Has(vm, Lookup(vm, e, a, b).frame, User(e, a, b));
    }
    forall f | f in wm.owner && wm.owner[f].User? ensures UserOk(wm, f) {
      assert UserOk(vm, f);
    }
  }

  /** The user page at (i, j) of directory d is freed, then unmapped. */
  function Unmap(vm: Vm, d: nat, i: nat, j: nat): Vm
    requires Entry(vm, d, i).Present? && Entry(vm, d, i).frame in vm.tables && j < |vm.tables[Entry(vm, d, i).frame]|
    requires Lookup(vm, d, i, j).Present?
  {
    Release(SetPte(vm, d, i, j, Absent), Lookup(vm, d, i, j).frame)
  }

  lemma ReleaseFree(vm: Vm, u: nat)
    requires FreeOk(vm) && u in vm.owner && !vm.owner[u].Free?
    ensures FreeOk(Release(vm, u))
  {
    assert u !in vm.free;
  }

  lemma UnmapFrame(vm: Vm, d: nat, i: nat, j: nat)
    requires VmInv(vm) && IsDir(vm, d) && i < UDIRS && j < NENT && Lookup(vm, d, i, j).Present?
    ensures Entry(vm, d, i).frame in vm.tables && |vm.tables[Entry(vm, d, i).frame]| == NENT
    ensures FreeOk(Unmap(vm, d, i, j)) && Others(vm, Unmap(vm, d, i, j), d, {}, {})
    ensures Has(vm, Lookup(vm, d, i, j).frame, User(d, i, j))
  {
    TableAt(vm, d, i);
    assert Has(vm, Lookup(vm, d, i, j).frame, User(d, i, j));
    hide DirsOk, UsersOk;
    ReleaseFree(SetPte(vm, d, i, j, Absent), Lookup(vm, d, i, j).frame);
  }

  lemma UnmapInv(vm: Vm, d: nat, i: nat, j: nat)
    requires VmInv(vm) && IsDir(vm, d) && i < UDIRS && j < NENT && Lookup(vm, d, i, j).Present?
    ensures Entry(vm, d, i).frame in vm.tables && |vm.tables[Entry(vm, d, i).frame]| == NENT
    ensures var wm := Unmap(vm, d, i, j);
            && VmInv(wm) && Others(vm, wm, d, {}, {}) && IsDir(wm, d)
            && Has(vm, Lookup(vm, d, i, j).frame, User(d, i, j))
            && (forall a, b :: 0 <= a < NENT && 0 <= b < NENT ==>
                  Lookup(wm, d, a, b) == if a == i && b == j then Absent else Lookup(vm, d, a, b))
  {
    SetPteLookup(vm, d, i, j, Absent);
    UnmapFrame(vm, d, i, j);
    var wm, xm, u := Unmap(vm, d, i, j), SetPte(vm, d, i, j, Absent), Lookup(vm, d, i, j).frame;
    hide FreeOk, Others;
    assert forall f, a :: Entry(wm, f, a) == Entry(xm, f, a);
    assert forall e :: IsDir(wm, e) == IsDir(vm, e);
    hide SetPte;
    forall f | f in wm.owner && wm.owner[f].Table? ensures TableOk(wm, f) {
      assert TableOk(xm, f);
    }
    forall e, a, b | IsDir(wm, e) && 0 <= a < UDIRS && 0 <= b < NENT && Lookup(wm, e, a, b).Present?
      ensures Has(wm, Lookup(wm, e, a, b).frame, User(e, a, b))
    {
      assert Has(vm, Lookup(vm, e, a, b).frame, User(e, a, b));
    }
    forall f | f in wm.owner && wm.owner[f].User? ensures UserOk(wm, f) {
      assert UserOk(vm, f);
    }
  }

  /** Directory d, without user pages, is given up: its pages are only held. */
  ghost function Detach(vm: Vm, d: nat): Vm
  {
    vm.(owner := map f | f in vm.owner :: if Mine(vm.owner[f], f, d) then Held else vm.owner[f])
  }

  ghost predicate NoUsers(vm: Vm, d: nat)
  {
    forall i, j :: 0 <= i < UDIRS && 0 <= j < NENT ==> Lookup(vm, d, i, j) == Absent
  }

  lemma DetachInv(vm: Vm, d: nat)
    requires VmInv(vm) && IsDir(vm, d) && NoUsers(vm, d)
    ensures VmInv(Detach(vm, d))
    ensures forall f :: f in vm.owner && Mine(vm.owner[f], f, d) ==> f == d || vm.owner[f].Table?
  {
    var wm := Detach(vm, d);
    forall f | f in vm.owner && Mine(vm.owner[f], f, d) ensures f == d || vm.owner[f].Table? {
      if vm.owner[f].User? {
        assert UserOk(vm, f);
      }
    }
    assert FreeOk(wm);
    hide FreeOk;
    assert forall f, a :: Entry(wm, f, a) == Entry(vm, f, a);
    assert forall e :: IsDir(wm, e) <==> IsDir(vm, e) && e != d;
    forall f | f in wm.owner && wm.owner[f].Table? ensures TableOk(wm, f) {
      assert TableOk(vm, f);
    }
    forall f | f in wm.owner && wm.owner[f].User? ensures UserOk(wm, f) {
      assert UserOk(vm, f);
    }
    forall e, a, b | IsDir(wm, e) && 0 <= a < UDIRS && 0 <= b < NENT && Lookup(wm, e, a, b).Present?
      ensures Has(wm, Lookup(wm, e, a, b).frame, User(e, a, b))
    {
      assert Lookup(vm, e, a, b).Present?;
      assert Has(vm, Lookup(vm, e, a, b).frame, User(e, a, b));
    }
  }

  lemma AllocOthers(vm: Vm, d: nat, held: set<nat>)
    requires VmInv(vm) && vm.free != []
    ensures Others(vm, Alloc(vm), d, held, held + {vm.free[0]})
  {
    hide DirsOk, UsersOk;
    assert vm.free[0] in vm.free;
  }

  lemma ReleaseOthers(vm: Vm, f: nat, d: nat, held: set<nat>)
    requires f in vm.owner && f in held
    ensures Others(vm, Release(vm, f), d, held, held - {f})
  {
  }

  // ---- Virtual pages ----

  const VPAGES: nat := NENT * NENT
  const UPAGES: nat := UDIRS * NENT

  /** What directory d maps at virtual page vp. */
  function At(vm: Vm, d: nat, vp: nat): Pte { Lookup(vm, d, vp / NENT, vp % NENT) }

  lemma Split(vp: nat)
    requires vp < VPAGES
    ensures vp / NENT < NENT && vp % NENT < NENT && vp == vp / NENT * NENT + vp % NENT
    ensures vp < UPAGES <==> vp / NENT < UDIRS
  {
  }

  lemma SamePage(vp: nat, wp: nat)
    requires vp / NENT == wp / NENT && vp % NENT == wp % NENT
    ensures vp == wp
  {
    assert vp == vp / NENT * NENT + vp % NENT && wp == wp / NENT * NENT + wp % NENT;
  }

  /** One entry changed, seen by virtual page. */
  lemma AtUpdate(vm: Vm, wm: Vm, d: nat, vp: nat, pte: Pte)
    requires vp < VPAGES
    requires forall a, b :: 0 <= a < NENT && 0 <= b < NENT ==>
               Lookup(wm, d, a, b) == if a == vp / NENT && b == vp % NENT then pte else Lookup(vm, d, a, b)
    ensures forall wp :: 0 <= wp < VPAGES ==> At(wm, d, wp) == if wp == vp then pte else At(vm, d, wp)
  {
    forall wp | 0 <= wp < VPAGES ensures At(wm, d, wp) == if wp == vp then pte else At(vm, d, wp) {
      Split(wp);
      if wp / NENT == vp / NENT && wp % NENT == vp % NENT {
        SamePage(wp, vp);
      }
    }
  }

  /** A user page of d in the range lo up to hi. */
  predicate InRange(o: Owner, d: nat, lo: nat, hi: nat) { o.User? && o.d == d && lo <= o.i * NENT + o.j < hi }

  /** Exactly the user pages of d in the range have become free. */
  ghost predicate FreedRange(vm: Vm, wm: Vm, d: nat, lo: nat, hi: nat)
  {
    && wm.owner.Keys == vm.owner.Keys && wm.data == vm.data
    && forall f :: f in vm.owner ==> wm.owner[f] == if InRange(vm.owner[f], d, lo, hi) then Free else vm.owner[f]
  }

  lemma UnmapAtFreed(vm: Vm, d: nat, vp: nat)
    requires VmInv(vm) && IsDir(vm, d) && vp < UPAGES
    ensures FreedRange(vm, UnmapAt(vm, d, vp), d, vp, vp + 1)
  {
    Split(vp);
    var i, j := vp / NENT, vp % NENT;
    if At(vm, d, vp).Present? {
      UnmapFrame(vm, d, i, j);
    }
    forall f | f in vm.owner && vm.owner[f].User? && vm.owner[f].d == d && vm.owner[f].i * NENT + vm.owner[f].j == vp
      ensures At(vm, d, vp).Present? && At(vm, d, vp).frame == f
    {
      assert UserOk(vm, f);
      SplitAt(vm.owner[f].i, vm.owner[f].j);
    }
  }

  lemma SplitAt(i: nat, j: nat)
    requires j < NENT
    ensures (i * NENT + j) / NENT == i && (i * NENT + j) % NENT == j
  {
  }

  /** The user page at vp is freed and unmapped if there is one. */
  ghost function UnmapAt(vm: Vm, d: nat, vp: nat): Vm
  {
    var i, j := vp / NENT, vp % NENT;
    if At(vm, d, vp).Present? && Entry(vm, d, i).frame in vm.tables && j < |vm.tables[Entry(vm, d, i).frame]|
    then Unmap(vm, d, i, j) else vm
  }

  /** Page by page, lo up to hi. */
  ghost function UnmapRange(vm: Vm, d: nat, lo: nat, hi: nat): Vm
    decreases hi - lo
  {
    if lo >= hi then vm else UnmapRange(UnmapAt(vm, d, lo), d, lo + 1, hi)
  }

  lemma UnmapAtInv(vm: Vm, d: nat, vp: nat)
    requires VmInv(vm) && IsDir(vm, d) && vp < UPAGES
    ensures var wm := UnmapAt(vm, d, vp);
            && VmInv(wm) && IsDir(wm, d) && Others(vm, wm, d, {}, {})
            && (forall wp :: 0 <= wp < VPAGES ==> At(wm, d, wp) == if wp == vp then Absent else At(vm, d, wp))
  {
    Split(vp);
    if At(vm, d, vp).Present? {
      UnmapInv(vm, d, vp / NENT, vp % NENT);
      hide VmInv, Others, Unmap;
      AtUpdate(vm, Unmap(vm, d, vp / NENT, vp % NENT), d, vp, Absent);
    } else {
      OthersSelf(vm, d);
    }
  }

  lemma OthersSelf(vm: Vm, d: nat)
    ensures Others(vm, vm, d, {}, {})
  {
  }

  lemma {:induction false} UnmapRangeInv(vm: Vm, d: nat, lo: nat, hi: nat)
    requires VmInv(vm) && IsDir(vm, d) && hi <= UPAGES
    ensures var wm := UnmapRange(vm, d, lo, hi);
            && VmInv(wm) && IsDir(wm, d) && Others(vm, wm, d, {}, {}) && FreedRange(vm, wm, d, lo, hi)
            && (forall wp :: 0 <= wp < VPAGES ==> At(wm, d, wp) == if lo <= wp < hi then Absent else At(vm, d, wp))
    decreases hi - lo
  {
    hide VmInv, Others, UnmapAt, At;
    if lo >= hi {
      OthersSelf(vm, d);
    } else {
      UnmapAtInv(vm, d, lo);
      UnmapAtFreed(vm, d, lo);
      var xm := UnmapAt(vm, d, lo);
      UnmapRangeInv(xm, d, lo + 1, hi);
      OthersTrans(vm, xm, UnmapRange(xm, d, lo + 1, hi), d, {}, {}, {});
    }
  }

  /** The mapped pages of the range, in ascending order. */
  ghost predicate Ascends(vm: Vm, d: nat, lo: nat, hi: nat, ps: seq<nat>)
  {
    && (forall a, b :: 0 <= a < b < |ps| ==> ps[a] < ps[b])
    && forall wp :: wp in ps <==> lo <= wp < hi && At(vm, d, wp).Present?
  }

  /** The free list afterwards: the pages freed, the one mapped last first, and
      then the old list. */
  ghost predicate Pushed(vm: Vm, wm: Vm, d: nat, ps: seq<nat>)
  {
    && |wm.free| == |ps| + |vm.free| && wm.free[|ps|..] == vm.free
    && forall k :: 0 <= k < |ps| ==> At(vm, d, ps[k]).Present? && wm.free[|ps| - 1 - k] == At(vm, d, ps[k]).frame
  }

  lemma {:induction false} UnmapOrder(vm: Vm, d: nat, lo: nat, hi: nat) returns (ps: seq<nat>)
    requires VmInv(vm) && IsDir(vm, d) && hi <= UPAGES
    ensures Ascends(vm, d, lo, hi, ps) && Pushed(vm, UnmapRange(vm, d, lo, hi), d, ps)
    decreases hi - lo
  {
    hide VmInv, Others, UnmapAt, At, IsDir;
    if lo >= hi {
      ps := [];
    } else {
      hide Ascends, Pushed;
      UnmapAtInv(vm, d, lo);
      UnmapAtFree(vm, d, lo);
      var xm := UnmapAt(vm, d, lo);
      var rest := UnmapOrder(xm, d, lo + 1, hi);
      ps := if At(vm, d, lo).Present? then [lo] + rest else rest;
      AscendsCons(vm, xm, d, lo, hi, rest);
      PushedCons(vm, xm, UnmapRange(xm, d, lo + 1, hi), d, lo, hi, rest);
    }
  }

  lemma AscendsCons(vm: Vm, xm: Vm, d: nat, lo: nat, hi: nat, rest: seq<nat>)
    requires lo < hi && Ascends(xm, d, lo + 1, hi, rest)
    requires forall wp :: lo < wp < hi ==> At(xm, d, wp) == At(vm, d, wp)
    ensures Ascends(vm, d, lo, hi, if At(vm, d, lo).Present? then [lo] + rest else rest)
  {
    hide At;
    if At(vm, d, lo).Present? {
      var ps := [lo] + rest;
      forall a, b | 0 <= a < b < |ps| ensures ps[a] < ps[b] {
        AscendsWithin(xm, d, lo + 1, hi, rest, b - 1);
        assert a > 0 ==> ps[a] == rest[a - 1];
      }
      assert forall wp :: wp in ps <==> wp == lo || wp in rest;
    }
  }

  lemma PushedCons(vm: Vm, xm: Vm, wm: Vm, d: nat, lo: nat, hi: nat, rest: seq<nat>)
    requires Ascends(xm, d, lo + 1, hi, rest) && Pushed(xm, wm, d, rest)
    requires forall wp :: lo < wp < hi ==> At(xm, d, wp) == At(vm, d, wp)
    requires xm.free == if At(vm, d, lo).Present? then [At(vm, d, lo).frame] + vm.free else vm.free
    ensures Pushed(vm, wm, d, if At(vm, d, lo).Present? then [lo] + rest else rest)
  {
    hide At, Ascends;
    forall k | 0 <= k < |rest|
      ensures At(vm, d, rest[k]).Present? && wm.free[|rest| - 1 - k] == At(vm, d, rest[k]).frame
    {
      AscendsWithin(xm, d, lo + 1, hi, rest, k);
    }
    if At(vm, d, lo).Present? {
      assert wm.free[|rest|..][0] == wm.free[|rest|];
      assert wm.free[|rest| + 1..] == wm.free[|rest|..][1..] == vm.free;
      var ps := [lo] + rest;
      forall k | 0 <= k < |ps|
        ensures At(vm, d, ps[k]).Present? && wm.free[|ps| - 1 - k] == At(vm, d, ps[k]).frame
      {
        if k > 0 {
          assert ps[k] == rest[k - 1];
        }
      }
    }
  }

  lemma AscendsWithin(vm: Vm, d: nat, lo: nat, hi: nat, ps: seq<nat>, k: nat)
    requires Ascends(vm, d, lo, hi, ps) && k < |ps|
    ensures lo <= ps[k] < hi
  {
    assert ps[k] in ps;
  }

  lemma UnmapAtFree(vm: Vm, d: nat, vp: nat)
    requires VmInv(vm) && IsDir(vm, d) && vp < UPAGES
    ensures UnmapAt(vm, d, vp).free == if At(vm, d, vp).Present? then [At(vm, d, vp).frame] + vm.free else vm.free
  {
    Split(vp);
    if At(vm, d, vp).Present? {
      UnmapFrame(vm, d, vp / NENT, vp % NENT);
    }
  }

  /** Where nothing is mapped, the range can be cut short. */
  lemma {:induction false} SkipRange(vm: Vm, d: nat, lo: nat, mid: nat, hi: nat)
    requires lo <= mid && forall vp :: lo <= vp < mid ==> At(vm, d, vp) == Absent
    ensures UnmapRange(vm, d, lo, hi) == UnmapRange(vm, d, mid, hi)
    decreases mid - lo
  {
    if lo < mid {
      assert UnmapAt(vm, d, lo) == vm;
      SkipRange(vm, d, lo + 1, mid, hi);
    }
  }

  // ---- Freeing a directory ----

  /** The pages of directory d of vm that have been freed once its table pages
      behind entries below i are; the others are still held. */
  ghost predicate Dropping(vm: Vm, wm: Vm, d: nat, i: nat)
  {
    && wm.owner.Keys == vm.owner.Keys && wm.tables == vm.tables && wm.data == vm.data
    && forall f :: f in vm.owner ==>
         wm.owner[f] == if !Mine(vm.owner[f], f, d) then vm.owner[f]
                        else if vm.owner[f].Table? && vm.owner[f].i < i then Free else Held
  }

  lemma DroppingStart(vm: Vm, d: nat)
    requires VmInv(vm) && IsDir(vm, d) && NoUsers(vm, d)
    ensures VmInv(Detach(vm, d)) && Dropping(vm, Detach(vm, d), d, 0)
  {
    DetachInv(vm, d);
  }

  lemma DropTable(vm: Vm, wm: Vm, d: nat, i: nat)
    requires VmInv(vm) && IsDir(vm, d) && VmInv(wm) && Dropping(vm, wm, d, i) && i < NENT
    ensures if Entry(vm, d, i).Present? then
              var t := Entry(vm, d, i).frame;
              && Has(wm, t, Held) && t !in wm.free && VmInv(Release(wm, t)) && Dropping(vm, Release(wm, t), d, i + 1)
            else Dropping(vm, wm, d, i + 1)
  {
    forall f | f in vm.owner && vm.owner[f] == Table(d, i)
      ensures Entry(vm, d, i).Present? && Entry(vm, d, i).frame == f
    {
      assert TableOk(vm, f);
    }
    if Entry(vm, d, i).Present? {
      TableAt(vm, d, i);
      ReleaseInv(wm, Entry(vm, d, i).frame);
    }
  }

  lemma DropDir(vm: Vm, wm: Vm, d: nat)
    requires VmInv(vm) && IsDir(vm, d) && NoUsers(vm, d) && VmInv(wm) && Dropping(vm, wm, d, NENT)
    ensures Has(wm, d, Held) && d !in wm.free && VmInv(Release(wm, d)) && Dropped(vm, Release(wm, d), d)
  {
    DetachInv(vm, d);
    ReleaseInv(wm, d);
    forall f | f in vm.owner && vm.owner[f].Table? ensures vm.owner[f].i < NENT {
      assert TableOk(vm, f);
    }
  }

  /** Exactly the pages of d have become free; the rest is as it was. */
  ghost predicate Dropped(vm: Vm, wm: Vm, d: nat)
  {
    && wm.owner.Keys == vm.owner.Keys
    && forall f :: f in vm.owner ==>
         if Loose(vm, f, d, {}) then wm.owner[f] == Free else SameFrame(vm, wm, f)
  }

  lemma DroppedAfter(vm: Vm, xm: Vm, wm: Vm, d: nat)
    requires Others(vm, xm, d, {}, {}) && Dropped(xm, wm, d)
    ensures Dropped(vm, wm, d)
  {
    forall f | f in vm.owner ensures if Loose(vm, f, d, {}) then wm.owner[f] == Free else SameFrame(vm, wm, f) {
      if !Loose(vm, f, d, {}) {
        assert SameFrame(vm, xm, f) && !Loose(xm, f, d, {});
      }
    }
  }

  lemma NoUsersAt(vm: Vm, d: nat)
    requires forall vp :: 0 <= vp < UPAGES ==> At(vm, d, vp) == Absent
    ensures NoUsers(vm, d)
  {
    forall i, j | 0 <= i < UDIRS && 0 <= j < NENT ensures Lookup(vm, d, i, j) == Absent {
      SplitAt(i, j);
      assert At(vm, d, i * NENT + j) == Absent;
    }
  }

  /** If d was not in use before, freeing it restores every owner. */
  lemma Restored(vm: Vm, wm: Vm, d: nat)
    requires VmInv(vm) && Has(vm, d, Free) && Dropped(vm, wm, d)
    ensures wm.owner == vm.owner
  {
    forall f | f in vm.owner ensures wm.owner[f] == vm.owner[f] {
      if vm.owner[f].Table? {
        assert TableOk(vm, f);
      }
      if vm.owner[f].User? {
        assert UserOk(vm, f);
      }
    }
  }

  lemma OthersHold(vm: Vm, wm: Vm, d: nat, held: set<nat>)
    requires Others(vm, wm, d, {}, {})
    ensures Others(vm, wm, d, held, held)
  {
    forall f | f in vm.owner ensures if Loose(vm, f, d, held) then Loose(wm, f, d, held) else SameFrame(vm, wm, f) {
      assert Loose(vm, f, d, {}) ==> Loose(wm, f, d, {});
    }
  }

  // ---- How many pages an operation takes ----

  /** The directory entries of d that have a page table. */
  function Dirs(vm: Vm, d: nat): (r: set<nat>)
    ensures forall i :: i in r <==> 0 <= i < NENT && Entry(vm, d, i).Present?
  {
    set i | 0 <= i < NENT && Entry(vm, d, i).Present?
  }

  /** The directory entries that n virtual pages from vp on use. */
  function PageDirs(vp: nat, n: nat): set<nat>
  {
    if n == 0 then {} else PageDirs(vp, n - 1) + {(vp + n - 1) / NENT}
  }

  lemma {:induction false} PageDirsRange(vp: nat, n: nat)
    ensures forall i :: i in PageDirs(vp, n) ==> vp / NENT <= i && i * NENT < vp + n
  {
    if n > 0 {
      PageDirsRange(vp, n - 1);
    }
  }

  /** From vm to wm directory d has got page tables for `dirs`, and the free
      list has paid for those that were missing and for `pages` other pages. */
  ghost predicate Spent(vm: Vm, wm: Vm, d: nat, dirs: set<nat>, pages: nat)
  {
    && Dirs(wm, d) == Dirs(vm, d) + dirs
    && |wm.free| + |Dirs(wm, d)| + pages == |vm.free| + |Dirs(vm, d)|
  }

  lemma SpentTrans(vm: Vm, xm: Vm, wm: Vm, d: nat, a: set<nat>, m: nat, b: set<nat>, n: nat)
    requires Spent(vm, xm, d, a, m) && Spent(xm, wm, d, b, n)
    ensures Spent(vm, wm, d, a + b, m + n)
  {
  }

  lemma SpentNone(vm: Vm, wm: Vm, d: nat, dirs: set<nat>)
    requires wm.free == vm.free && dirs <= Dirs(vm, d)
    requires forall i :: 0 <= i < NENT ==> Entry(wm, d, i) == Entry(vm, d, i)
    ensures Spent(vm, wm, d, dirs, 0)
  {
    assert Dirs(wm, d) == Dirs(vm, d) == Dirs(vm, d) + dirs;
  }

  lemma SpentPage(vm: Vm, wm: Vm, d: nat)
    requires vm.free != [] && wm.free == vm.free[1..] && wm.tables == vm.tables
    ensures Spent(vm, wm, d, {}, 1)
  {
    assert forall i :: Entry(wm, d, i) == Entry(vm, d, i);
    assert Dirs(wm, d) == Dirs(vm, d) == Dirs(vm, d) + {};
  }

  lemma SpentTable(vm: Vm, wm: Vm, d: nat, i: nat)
    requires vm.free != [] && wm.free == vm.free[1..] && i < NENT && Entry(vm, d, i) == Absent
    requires forall a :: 0 <= a < NENT ==> Entry(wm, d, a).Present? == (a == i || Entry(vm, d, a).Present?)
    ensures Spent(vm, wm, d, {i}, 0)
  {
    assert Dirs(wm, d) == Dirs(vm, d) + {i};
    assert i !in Dirs(vm, d);
  }

  /** One element short of a larger set. */
  lemma Short(a: set<nat>, b: set<nat>, x: nat)
    requires a <= b && x in b && x !in a
    ensures |a| < |b|
  {
    SubsetSize(a + {x}, b);
  }

  /** Running out while getting a table for entry i: there was too little. */
  lemma SpentTooLittle(vm: Vm, wm: Vm, d: nat, some: set<nat>, pages: nat, all: set<nat>, total: nat, i: nat)
    requires Spent(vm, wm, d, some, pages) && some <= all && pages <= total && wm.free == []
    requires i in all && i !in Dirs(wm, d)
    ensures |vm.free| + |Dirs(vm, d)| < total + |Dirs(vm, d) + all|
  {
    Short(Dirs(wm, d), Dirs(vm, d) + all, i);
  }

  /** Running out while getting another page. */
  lemma SpentNoPage(vm: Vm, wm: Vm, d: nat, some: set<nat>, pages: nat, all: set<nat>, total: nat)
    requires Spent(vm, wm, d, some, pages) && some <= all && pages < total && wm.free == []
    ensures |vm.free| + |Dirs(vm, d)| < total + |Dirs(vm, d) + all|
  {
    SubsetSize(Dirs(wm, d), Dirs(vm, d) + all);
  }

  lemma PageDirsNext(vp: nat, n: nat)
    ensures PageDirs(vp, n + 1) == PageDirs(vp, n) + {(vp + n) / NENT}
  {
  }

  lemma {:induction false} PageDirsAt(vp: nat, n: nat, k: nat)
    requires k < n
    ensures (vp + k) / NENT in PageDirs(vp, n)
  {
    if k < n - 1 {
      PageDirsAt(vp, n - 1, k);
    }
  }

  lemma {:induction false} PageDirsMore(vp: nat, m: nat, n: nat)
    requires m <= n
    ensures PageDirs(vp, m) <= PageDirs(vp, n)
    decreases n
  {
    if m < n {
      PageDirsMore(vp, m, n - 1);
    }
  }
}
