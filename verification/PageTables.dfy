/** Physical page allocation (src/kalloc.c) and page tables (src/vm.c), in
    place. Pages are named by their frame number; 0 is the null pointer. */
module PageTables {
  import opened Common
  import opened PageSpec

  const PGSIZE: nat := 4096
  const KERNBASE: nat := UPAGES * PGSIZE
  const USERPERM: nat := 6       // PTE_W | PTE_U

  function ZeroPage(): (page: Page)
    ensures |page| == 4096 && forall k :: 0 <= k < 4096 ==> page[k] == 0
  {
    seq(PGSIZE, _ => 0)
  }

  /** PGROUNDUP, in pages: the pages that hold the first sz bytes. */
  function PageUp(sz: nat): (n: nat)
    ensures (n - 1) * 4096 < sz <= n * 4096
  {
    (sz + PGSIZE - 1) / PGSIZE
  }

  ghost function AllHeld(lo: nat, hi: nat): (m: map<nat, Owner>)
    ensures forall f :: f in m <==> lo <= f < hi
    ensures forall f :: f in m ==> m[f] == Held
    decreases hi
  {
    if hi <= lo then map[] else AllHeld(lo, hi - 1)[hi - 1 := Held]
  }

  /** The free list threaded through the free pages. */
  ghost predicate Chain(head: nat, next: map<nat, nat>, free: seq<nat>)
  {
    head == (if free == [] then 0 else free[0]) && forall k :: 0 <= k < |free| ==> ChainAt(next, free, k)
  }

  ghost predicate ChainAt(next: map<nat, nat>, free: seq<nat>, k: nat)
    requires k < |free|
  {
    free[k] in next && next[free[k]] == if k + 1 < |free| then free[k + 1] else 0
  }

  class Memory {
    const lo: nat                     // managed frames: lo up to hi
    const hi: nat
    var freelist: nat
    var next: map<nat, nat>
    var tables: map<nat, seq<Pte>>
    var data: map<nat, Page>
    ghost var vm: Vm

    /** Before `kinit1`: no page has been put on the free list. */
    constructor (lo: nat, hi: nat)
      requires 0 < lo
      ensures Valid() && this.lo == lo && this.hi == hi && vm.free == []
      ensures forall f :: lo <= f < hi ==> Has(vm, f, Held)
    {
      this.lo, this.hi := lo, hi;
      freelist, next, tables, data := 0, map[], map[], map[];
      vm := Vm([], map[], map[], AllHeld(lo, hi));
    }

    ghost predicate Linked()
      reads this
    {
      && 0 < lo && (forall f :: f in vm.owner <==> lo <= f < hi)
      && tables == vm.tables && data == vm.data && Chain(freelist, next, vm.free)
    }

    ghost predicate Valid()
      reads this
    {
      Linked() && VmInv(vm)
    }

    /** `kalloc`; 0 when there is no free page. */
    method Kalloc() returns (r: nat)
      requires Valid()
      modifies this`freelist, this`vm
      ensures Valid()
      ensures r == 0 <==> old(vm).free == []
      ensures r == 0 ==> vm == old(vm)
      ensures r != 0 ==> r == old(vm).free[0] && vm == Alloc(old(vm)) && Has(old(vm), r, Free) && Has(vm, r, Held)
      ensures r != 0 ==> vm.free == old(vm).free[1..]
    {
      hide FreeOk, DirsOk, UsersOk, Chain;
      assert freelist == (if vm.free == [] then 0 else vm.free[0]) by { ChainHead(freelist, next, vm.free); }
      r := freelist;
      FreeNonzero(vm);
      if r != 0 {
        AllocInv(vm);
        ChainPop(freelist, next, vm.free);
        freelist := next[r];
        vm := Alloc(vm);
      }
    }

    /** `kfree`; false is its panic. A page that was not free becomes the first
        one of the free list; freeing a free page turns the list into a cycle. */
    method Kfree(f: nat) returns (ok: bool)
      requires Linked()
      modifies this`freelist, this`next, this`vm
      ensures ok <==> lo <= f < hi
      ensures !ok ==> unchanged(this)
      ensures ok && f !in old(vm).free ==> Linked() && vm == Release(old(vm), f) && vm.free == [f] + old(vm).free
      ensures ok && f in old(vm).free && 0 !in old(vm).free ==> forall free :: !Chain(freelist, next, free)
    {
      hide Chain;
      if !(lo <= f < hi) {
        return false;
      }
      if f !in vm.free {
        ChainPush(freelist, next, vm.free, f);
      } else if 0 !in vm.free {
        var now := next[f := freelist];
        forall free ensures !Chain(f, now, free) {
          ChainLoops(freelist, next, vm.free, f, free);
        }
      }
      next := next[f := freelist];
      freelist := f;
      vm := Release(vm, f);
      return true;
    }

    /** `freerange`: the whole pages between vstart and vend become free. */
    method FreeRange(vstart: nat, vend: nat)
      requires Valid() && forall f :: PageUp(vstart) <= f < vend / PGSIZE ==> Has(vm, f, Held)
      modifies this`freelist, this`next, this`vm
      ensures Valid() && vm.owner.Keys == old(vm).owner.Keys
      ensures forall f :: f in vm.owner ==>
                vm.owner[f] == if PageUp(vstart) <= f < vend / PGSIZE then Free else old(vm).owner[f]
    {
      hide FreeOk, DirsOk, UsersOk, Chain;
      var p := PageUp(vstart) * PGSIZE;
      while p + PGSIZE <= vend
        invariant p % PGSIZE == 0 && p / PGSIZE >= PageUp(vstart)
        invariant p / PGSIZE <= vend / PGSIZE || p / PGSIZE == PageUp(vstart)
        invariant Valid() && vm.owner.Keys == old(vm).owner.Keys
        invariant forall f :: f in vm.owner ==>
                    vm.owner[f] == if PageUp(vstart) <= f < p / PGSIZE then Free else old(vm).owner[f]
        decreases if vend > p then vend - p else 0
      {
        WholePage(p, vend);
        NextPage(p);
        assert Has(old(vm), p / PGSIZE, Held);
        ReleaseInv(vm, p / PGSIZE);
        ManagedFrame(vm, p / PGSIZE);
        var ok := Kfree(p / PGSIZE);
        assert ok;
        p := p + PGSIZE;
      }
      NoWholePage(p, vend);
    }

    /** `walkpgdir`: the table for virtual page vp, made on demand. */
    method Walk(d: nat, vp: nat, alloc: bool, ghost held: set<nat>) returns (t: Option<nat>)
      requires Valid() && IsDir(vm, d) && vp < VPAGES
      modifies this
      ensures Valid() && IsDir(vm, d) && Others(old(vm), vm, d, held, held)
      ensures forall a, b :: 0 <= a < NENT && 0 <= b < NENT ==> Lookup(vm, d, a, b) == Lookup(old(vm), d, a, b)
      ensures Kept(old(vm), vm) && data == old(data)
      ensures t.Some? ==> Entry(vm, d, vp / NENT).Present? && Entry(vm, d, vp / NENT).frame == t.value
                          && t.value in tables && |tables[t.value]| == NENT
      ensures t.None? || !alloc ==> vm == old(vm)
      ensures t.None? ==> Entry(vm, d, vp / NENT) == Absent && (alloc ==> vm.free == [])
      ensures t.Some? ==> Spent(old(vm), vm, d, {vp / NENT}, 0)
    {
      hide FreeOk, UsersOk, Others, Dirs, Spent;
      Split(vp);
      var i := vp / NENT;
      assert |tables[d]| == NENT;
      OthersKeep(vm, d, held);
      var pde := tables[d][i];
      if pde.Present? {
        TableAt(vm, d, i);
        SpentNone(vm, vm, d, {i});
        return Some(pde.frame);
      }
      if !alloc {
        return None;
      }
      var pgtab := Kalloc();
      if pgtab == 0 {
        return None;
      }
      WalkDone(old(vm), vm, d, i, pgtab, held);
      tables := tables[pgtab := Blank()];
      tables := tables[d := tables[d][i := Present(pgtab, PDEPERM)]];
      vm := PutTable(vm, d, i, pgtab);
      return Some(pgtab);
    }

    /** `mappages` of one user page: the held page mem becomes page vp of d. */
    method MapUserPage(d: nat, vp: nat, mem: nat, perm: nat, ghost held: set<nat>) returns (r: MapResult)
      requires Valid() && IsDir(vm, d) && vp < UPAGES && Has(vm, mem, Held) && mem in data && mem in held
      modifies this
      ensures Valid() && IsDir(vm, d) && data == old(data)
      ensures r == Remap <==> At(old(vm), d, vp).Present?
      ensures Others(old(vm), vm, d, held, if r == Mapped then held - {mem} else held)
      ensures forall wp :: 0 <= wp < VPAGES ==>
                At(vm, d, wp) == if r == Mapped && wp == vp then Present(mem, perm) else At(old(vm), d, wp)
      ensures r != Mapped ==> Has(vm, mem, Held)
      ensures r == NoMemory ==> vm == old(vm) && vm.free == [] && vp / NENT !in Dirs(vm, d)
      ensures r == Mapped ==> Spent(old(vm), vm, d, {vp / NENT}, 0)
      ensures KeptBut(old(vm), vm, mem)
    {
      hide FreeOk, UsersOk, DirsOk, Others, VmInv, Spent;
      Split(vp);
      var t := Walk(d, vp, true, held);
      if t.None? {
        return NoMemory;
      }
      var j := vp % NENT;
      var pte := tables[t.value][j];
      if pte.Present? {
        return Remap;
      }
      ghost var xm := vm;
      MapUserInv(vm, d, vp / NENT, j, mem, perm, held);
      MapUserSpent(old(vm), vm, d, vp / NENT, j, mem, perm);
      OthersTrans(old(vm), vm, MapUser(vm, d, vp / NENT, j, mem, perm), d, held, held, held - {mem});
      tables := tables[t.value := tables[t.value][j := Present(mem, perm)]];
      vm := MapUser(vm, d, vp / NENT, j, mem, perm);
      AtUpdate(xm, vm, d, vp, Present(mem, perm));
      return Mapped;
    }

    /** `mappages` of one page of the kernel part of d. */
    method MapKernelPage(d: nat, vp: nat, frame: nat, perm: nat) returns (r: MapResult)
      requires Valid() && IsDir(vm, d) && UPAGES <= vp < VPAGES
      modifies this
      ensures Valid() && IsDir(vm, d) && data == old(data)
      ensures r == Remap ==> At(old(vm), d, vp).Present?
      ensures Others(old(vm), vm, d, {}, {})
      ensures forall wp :: 0 <= wp < VPAGES ==>
                At(vm, d, wp) == if r == Mapped && wp == vp then Present(frame, perm) else At(old(vm), d, wp)
      ensures r == NoMemory ==> vm == old(vm) && vm.free == [] && vp / NENT !in Dirs(vm, d)
      ensures r == Mapped ==> Spent(old(vm), vm, d, {vp / NENT}, 0)
    {
      hide FreeOk, UsersOk, DirsOk, Others, VmInv, Spent;
      Split(vp);
      var t := Walk(d, vp, true, {});
      if t.None? {
        return NoMemory;
      }
      var j := vp % NENT;
      var pte := tables[t.value][j];
      if pte.Present? {
        return Remap;
      }
      ghost var xm := vm;
      MapKernelInv(vm, d, vp / NENT, j, Present(frame, perm));
      SetPteSpent(old(vm), vm, d, vp / NENT, j, Present(frame, perm));
      OthersTrans(old(vm), vm, SetPte(vm, d, vp / NENT, j, Present(frame, perm)), d, {}, {}, {});
      tables := tables[t.value := tables[t.value][j := Present(frame, perm)]];
      vm := SetPte(vm, d, vp / NENT, j, Present(frame, perm));
      AtUpdate(xm, vm, d, vp, Present(frame, perm));
      return Mapped;
    }

    /** `mappages` of a region of the kernel part of d. */
    method MapRegion(d: nat, r: Region) returns (ok: MapResult)
      requires Valid() && IsDir(vm, d) && RegionOk(r)
      modifies this
      ensures Valid() && IsDir(vm, d) && data == old(data) && Others(old(vm), vm, d, {}, {})
      ensures ok == Remap ==> exists wp :: r.vp <= wp < r.vp + r.n && At(old(vm), d, wp).Present?
      ensures ok == Mapped ==> RegionMapped(old(vm), vm, d, r, r.n)
      ensures forall wp :: 0 <= wp < UPAGES ==> At(vm, d, wp) == At(old(vm), d, wp)
      ensures ok == Mapped ==> Spent(old(vm), vm, d, PageDirs(r.vp, r.n), 0)
      ensures ok == NoMemory ==> |old(vm).free| + |Dirs(old(vm), d)| < |Dirs(old(vm), d) + PageDirs(r.vp, r.n)|
    {
      RegionStart(vm, d, r);
      hide FreeOk, UsersOk, DirsOk, Others, VmInv, At, Spent, PageDirs, Dirs, RegionMapped;
      OthersKeep(vm, d, {});
      var x := 0;
      while x < r.n
        invariant 0 <= x <= r.n && Spent(old(vm), vm, d, PageDirs(r.vp, x), 0)
        invariant Valid() && IsDir(vm, d) && data == old(data) && Others(old(vm), vm, d, {}, {})
        invariant RegionMapped(old(vm), vm, d, r, x)
      {
        ghost var xm := vm;
        ok := MapKernelPage(d, r.vp + x, r.frame + x, r.perm);
        OthersTrans(old(vm), xm, vm, d, {}, {}, {});
        if ok == Mapped {
          RegionNext(old(vm), xm, vm, d, r, x);
          x := x + 1;
        } else {
          RegionStop(old(vm), xm, vm, d, r, x, ok);
          return;
        }
      }
      RegionUser(old(vm), vm, d, r, r.n);
      return Mapped;
    }

    /** `deallocuvm`: the directory-skipping loop does what the page-by-page
        loop would do, down to the order of the free list. */
    method DeallocUvm(d: nat, oldsz: nat, newsz: nat) returns (r: nat)
      requires Valid() && IsDir(vm, d) && oldsz <= KERNBASE
      modifies this
      ensures Valid() && IsDir(vm, d) && data == old(data)
      ensures r == if newsz >= oldsz then oldsz else newsz
      ensures vm == if newsz >= oldsz then old(vm) else UnmapRange(old(vm), d, PageUp(newsz), PageUp(oldsz))
    {
      hide FreeOk, UsersOk, DirsOk, Others, VmInv, At, UnmapAt;
      if newsz >= oldsz {
        return oldsz;
      }
      ghost var hi := PageUp(oldsz);
      var a := PageUp(newsz) * PGSIZE;
      while a < oldsz
        invariant a % PGSIZE == 0 && Valid() && IsDir(vm, d) && data == old(data)
        invariant UnmapRange(vm, d, a / PGSIZE, hi) == UnmapRange(old(vm), d, PageUp(newsz), hi)
        decreases if a < oldsz then oldsz - a else 0
      {
        PageInRange(a, oldsz);
        var vp := a / PGSIZE;
        var present := UnmapOne(d, vp);
        if !present {
          SkipTable(vm, d, vp, hi);
          a := (vp / NENT + 1) * NENT * PGSIZE - PGSIZE;
        }
        NextPage(a);
        a := a + PGSIZE;
      }
      PastRange(a, oldsz);
      return newsz;
    }

    /** The body of the loop of `deallocuvm`; false when there is no table. */
    method UnmapOne(d: nat, vp: nat) returns (present: bool)
      requires Valid() && IsDir(vm, d) && vp < UPAGES
      modifies this
      ensures Valid() && IsDir(vm, d) && data == old(data) && vm == UnmapAt(old(vm), d, vp)
      ensures !present ==> Entry(old(vm), d, vp / NENT) == Absent && vm == old(vm)
    {
      hide FreeOk, UsersOk, DirsOk, Others, VmInv;
      Split(vp);
      var t := Walk(d, vp, false, {});
      if t.None? {
        return false;
      }
      var j := vp % NENT;
      var pte := tables[t.value][j];
      if pte.Present? {
        UnmapAtInv(vm, d, vp);
        UnmapFrame(vm, d, vp / NENT, j);
        UserFrame(vm, pte.frame, d, vp / NENT, j);
        var ok := Kfree(pte.frame);
        assert ok;
        tables := tables[t.value := tables[t.value][j := Absent]];
        vm := UnmapAt(old(vm), d, vp);
      }
      return true;
    }

    /** `freevm`: exactly the pages of directory d become free. */
    method FreeVm(d: nat)
      requires Valid() && IsDir(vm, d)
      modifies this
      ensures Valid() && data == old(data) && Dropped(old(vm), vm, d)
    {
      hide FreeOk, UsersOk, DirsOk, Others, VmInv, At, UnmapAt, Dropping, Dropped, UnmapRange;
      var _ := DeallocUvm(d, KERNBASE, 0);
      UnmapRangeInv(old(vm), d, 0, UPAGES);
      ghost var xm := vm;
      NoUsersAt(xm, d);
      DroppingStart(xm, d);
      vm := Detach(vm, d);
      hide Detach, NoUsers;
      DirLength(xm, d);
      for i := 0 to NENT
        invariant Valid() && data == old(data) && tables == xm.tables && Dropping(xm, vm, d, i)
      {
        DropTable(xm, vm, d, i);
        var pde := tables[d][i];
        if pde.Present? {
          ManagedFrame(vm, pde.frame);
          var ok := Kfree(pde.frame);
          assert ok;
        }
      }
      DropDir(xm, vm, d);
      var ok := Kfree(d);
      assert ok;
      DroppedAfter(old(vm), xm, vm, d);
    }

    /** `setupkvm` with the regions of kmap; 0 when it runs out of memory, in
        which case every page it took is free again. */
    method SetupKvm(kmap: seq<Region>) returns (d: nat)
      requires Valid() && KmapOk(kmap)
      modifies this
      ensures Valid()
      ensures d == 0 ==> vm.owner == old(vm).owner && Intact(old(vm), vm)
      ensures d != 0 ==> && IsDir(vm, d) && Has(old(vm), d, Free) && Others(old(vm), vm, d, {}, {}) && data == old(data)
                         && forall wp :: 0 <= wp < VPAGES ==> At(vm, d, wp) == KernelPte(kmap, wp)
      ensures d == 0 <==> |old(vm).free| < 1 + |KmapDirs(kmap)|
      ensures d != 0 ==> Dirs(vm, d) == KmapDirs(kmap) && |vm.free| == |old(vm).free| - 1 - |KmapDirs(kmap)|
    {
      hide FreeOk, UsersOk, DirsOk, Others, VmInv, At, Dropped, RegionMapped, Dirs, PageDirs, KmapDirs, Spent;
      IntactSelf(vm);
      d := Kalloc();
      if d == 0 {
        return;
      }
      NewDirFacts(old(vm), vm, d);
      tables := tables[d := Blank()];
      vm := NewDir(vm, d);
      ghost var base := vm;
      for k := 0 to |kmap|
        invariant Valid() && IsDir(vm, d) && data == old(data) && Others(old(vm), vm, d, {}, {})
        invariant KmapTo(vm, d, kmap, k)
        invariant Spent(base, vm, d, KmapDirs(kmap[..k]), 0)
      {
        ghost var xm := vm;
        KmapStep(kmap, k);
        var r := MapRegion(d, kmap[k]);
        OthersTrans(old(vm), xm, vm, d, {}, {}, {});
        assert r != Remap;
        if r != Mapped {
          KmapShort(base, xm, d, kmap, k);
          xm := vm;
          FreeVm(d);
          GiveBack(old(vm), xm, vm, d);
          return 0;
        }
        KmapNext(base, xm, vm, d, kmap, k);
      }
      assert kmap[..|kmap|] == kmap;
      KmapPaid(base, vm, d, kmap);
    }

    /** A page is allocated, filled, and mapped at vp of d. If the table for it
        cannot be allocated the page stays with the caller. */
    method AddPage(d: nat, vp: nat, page: Page, perm: nat) returns (r: AddResult)
      requires Valid() && IsDir(vm, d) && vp < UPAGES && At(vm, d, vp) == Absent
      modifies this
      ensures Valid() && IsDir(vm, d) && Kept(old(vm), vm)
      ensures r.NoPage? ==> vm == old(vm)
      ensures r.Added? ==> && Others(old(vm), vm, d, {}, {}) && Has(old(vm), r.u, Free)
                           && data == old(data)[r.u := page]
                           && forall wp :: 0 <= wp < VPAGES ==>
                                At(vm, d, wp) == if wp == vp then Present(r.u, perm) else At(old(vm), d, wp)
      ensures r.NoTable? ==> && Others(old(vm), vm, d, {}, {r.u}) && Has(old(vm), r.u, Free) && Has(vm, r.u, Held)
                             && data == old(data)[r.u := page]
                             && forall wp :: 0 <= wp < VPAGES ==> At(vm, d, wp) == At(old(vm), d, wp)
      ensures AddSpent(old(vm), vm, d, vp / NENT, r)
    {
      hide FreeOk, UsersOk, DirsOk, Others, VmInv, Spent, Dirs;
      var mem := Kalloc();
      if mem == 0 {
        return NoPage;
      }
      FillFacts(old(vm), vm, d, mem, page);
      data := data[mem := page];
      vm := Store(vm, mem, page);
      ghost var xm := vm;
      var m := MapUserPage(d, vp, mem, perm, {mem});
      OthersTrans(old(vm), xm, vm, d, {}, {mem}, if m == Mapped then {mem} - {mem} else {mem});
      if m != Mapped {
        return NoTable(mem);
      }
      assert {mem} - {mem} == {};
      SpentTrans(old(vm), xm, vm, d, {}, 1, {vp / NENT}, 0);
      assert {} + {vp / NENT} == {vp / NENT};
      return Added(mem);
    }

    /** `allocuvm`, for a directory that maps nothing from oldsz on. On success
        the new pages are mapped and zeroed; on failure the mappings are as
        before and every user page is given back. */
    method AllocUvm(d: nat, oldsz: nat, newsz: nat) returns (r: nat)
      requires Valid() && IsDir(vm, d)
      requires forall wp :: PageUp(oldsz) <= wp < UPAGES ==> At(vm, d, wp) == Absent
      modifies this
      ensures Valid() && IsDir(vm, d)
      ensures newsz >= KERNBASE ==> r == 0 && vm == old(vm)
      ensures newsz < oldsz && newsz < KERNBASE ==> r == oldsz && vm == old(vm)
      ensures oldsz <= newsz < KERNBASE ==>
                (r == newsz || r == 0) && Others(old(vm), vm, d, {}, {}) && DataKept(old(vm), vm)
      ensures oldsz <= newsz < KERNBASE && r == newsz ==> GrownTo(old(vm), vm, d, PageUp(oldsz), PageUp(newsz))
      ensures oldsz <= newsz < KERNBASE && r == newsz ==>
                forall wp :: PageUp(oldsz) <= wp < PageUp(newsz) ==> Blanked(vm, d, wp)
      ensures oldsz <= newsz < KERNBASE && r != newsz ==> Backed(old(vm), vm, d)
      ensures oldsz <= newsz < KERNBASE ==>
                (r == newsz <==> Enough(old(vm), d, PageUp(oldsz), PageUp(newsz) - PageUp(oldsz)))
    {
      hide FreeOk, UsersOk, DirsOk, Others, VmInv, At, Backed, Maps, GrownTo, Kept, DataKept, Chain;
      hide Spent, PageDirs, Dirs, Enough, AddSpent, Blanked, ZeroPage;
      if newsz >= KERNBASE {
        return 0;
      }
      if newsz < oldsz {
        return oldsz;
      }
      OthersKeep(vm, d, {});
      GrowStart(vm, d, PageUp(oldsz));
      NothingPaid(vm, d, PageUp(oldsz));
      var a := PageUp(oldsz) * PGSIZE;
      while a < newsz
        invariant a % PGSIZE == 0 && a / PGSIZE >= PageUp(oldsz)
        invariant a / PGSIZE <= PageUp(newsz) || a == PageUp(oldsz) * PGSIZE
        invariant Valid() && IsDir(vm, d)
        invariant Kept(old(vm), vm) && DataKept(old(vm), vm) && Others(old(vm), vm, d, {}, {})
        invariant GrownTo(old(vm), vm, d, PageUp(oldsz), a / PGSIZE)
        invariant Spent(old(vm), vm, d, PageDirs(PageUp(oldsz), a / PGSIZE - PageUp(oldsz)), a / PGSIZE - PageUp(oldsz))
        decreases if a < newsz then newsz - a else 0
      {
        PageInRange(a, newsz);
        ghost var xm := vm;
        GrowAt(old(vm), vm, d, PageUp(oldsz), a / PGSIZE);
        var r1 := AddPage(d, a / PGSIZE, ZeroPage(), USERPERM);
        ghost var lo, done := PageUp(oldsz), a / PGSIZE - PageUp(oldsz);
        if !r1.Added? {
          ghost var ym := vm;
          AddFailed(old(vm), xm, vm, d, lo, done, PageUp(newsz) - lo, r1);
          RoomyRange(oldsz, newsz);
          UnmapRangeInv(ym, d, PageUp(oldsz), PageUp(newsz));
          var _ := DeallocUvm(d, newsz, oldsz);
          if r1.NoTable? {
            FailedTable(old(vm), xm, ym, vm, d, PageUp(oldsz), a / PGSIZE, PageUp(newsz), r1.u, ZeroPage());
            var ok := Kfree(r1.u);
            assert ok;
          } else {
            FailedPage(old(vm), ym, vm, d, PageUp(oldsz), a / PGSIZE, PageUp(newsz));
          }
          return 0;
        }
        GrownStep(old(vm), xm, vm, d, PageUp(oldsz), a / PGSIZE, r1.u);
        AddPaid(old(vm), xm, vm, d, lo, done, r1);
        NextPage(a);
        a := a + PGSIZE;
      }
      PastRange(a, newsz);
      RoomyRange(oldsz, newsz);
      GrownBlank(old(vm), vm, d, PageUp(oldsz), PageUp(newsz));
      EnoughPaid(old(vm), vm, d, PageUp(oldsz), PageUp(newsz) - PageUp(oldsz));
      return newsz;
    }

    /** `copyuvm`: a new directory with copies of the first sz bytes of d, or
        nothing at all: out of memory, every page is where it was. Panic is one
        of its two panics: a page below sz is not mapped. */
    method CopyUvm(kmap: seq<Region>, d: nat, sz: nat) returns (r: CopyResult)
      requires Valid() && KmapOk(kmap) && IsDir(vm, d) && sz <= KERNBASE
      modifies this
      ensures Valid()
      ensures var m := FirstAbsent(old(vm), d, PageUp(sz));
              && (r.OutOfMemory? <==> |old(vm).free| < CopyNeed(kmap, m))
              && (r.Panic? <==> |old(vm).free| >= CopyNeed(kmap, m) && m < PageUp(sz))
              && (r.Copied? <==> |old(vm).free| >= CopyNeed(kmap, m) && m == PageUp(sz))
      ensures r.OutOfMemory? ==> vm.owner == old(vm).owner && Intact(old(vm), vm)
      ensures r.Copied? ==> && IsDir(vm, r.e) && Has(old(vm), r.e, Free) && Others(old(vm), vm, r.e, {}, {})
                            && CopiedTo(old(vm), vm, kmap, d, r.e, PageUp(sz))
    {
      hide FreeOk, UsersOk, DirsOk, Others, VmInv, At, Maps, Intact, Dropped, CopiedTo, Kept, Chain;
      hide Spent, PageDirs, KmapDirs, Dirs, Enough, AddSpent, FirstAbsent, CopyNeed, PageUp;
      ghost var m := FirstAbsent(vm, d, PageUp(sz));
      CopyNeedHead(kmap, m);
      var e := SetupKvm(kmap);
      if e == 0 {
        return OutOfMemory;
      }
      NotSame(old(vm), d, e);
      CopyStart(old(vm), vm, kmap, d, e);
      ghost var base := vm;
      NothingPaid(vm, e, 0);
      CopyBound(sz);
      var i := 0;
      while i < sz
        invariant i % PGSIZE == 0 && i / PGSIZE <= m
        invariant Spent(base, vm, e, PageDirs(0, i / PGSIZE), i / PGSIZE)
        invariant Valid() && IsDir(vm, e) && Others(old(vm), vm, e, {}, {})
        invariant CopiedTo(old(vm), vm, kmap, d, e, i / PGSIZE)
        decreases if i < sz then sz - i else 0
      {
        PageInRange(i, sz);
        var vp := i / PGSIZE;
        SourcePage(old(vm), vm, d, e, vp);
        var src := ReadPage(d, vp);
        if src.None? {
          CopyPaid(old(vm), base, vm, kmap, e, m);
          return Panic;
        }
        ghost var xm := vm;
        NoKernel(kmap, vp);
        CopyAt(old(vm), vm, kmap, d, e, vp);
        var a := AddPage(e, vp, src.value.0, src.value.1);
        if !a.Added? {
          CopyShort(old(vm), base, xm, vm, kmap, e, vp, m, a);
          CopyUndo(old(vm), xm, vm, e, a);
          if a.NoTable? {
            var ok := Kfree(a.u);
            assert ok;
          }
          ghost var ym := vm;
          FreeVm(e);
          GiveBack(old(vm), ym, vm, e);
          return OutOfMemory;
        }
        CopyStep(old(vm), xm, vm, kmap, d, e, vp, a.u, src.value.0, src.value.1);
        AddPaid(base, xm, vm, e, 0, vp, a);
        NextPage(i);
        i := i + PGSIZE;
      }
      PastRange(i, sz);
      CopyEnd(old(vm), vm, kmap, d, e, i / PGSIZE, PageUp(sz));
      CopyPaid(old(vm), base, vm, kmap, e, m);
      return Copied(e);
    }

    /** The contents and permissions of page vp of d. */
    method ReadPage(d: nat, vp: nat) returns (r: Option<(Page, nat)>)
      requires Valid() && IsDir(vm, d) && vp < UPAGES
      modifies this
      ensures Valid() && vm == old(vm)
      ensures r.None? <==> At(vm, d, vp) == Absent
      ensures r.Some? ==> Maps(vm, d, vp, r.value.0, r.value.1)
    {
      hide FreeOk, DirsOk, Others;
      Split(vp);
      var t := Walk(d, vp, false, {});
      if t.None? {
        return None;
      }
      var pte := tables[t.value][vp % NENT];
      if pte.Absent? {
        return None;
      }
      assert Has(vm, pte.frame, User(d, vp / NENT, vp % NENT));
      assert UserOk(vm, pte.frame);
      return Some((data[pte.frame], pte.perm));
    }
  }

  datatype MapResult = Mapped | NoMemory | Remap

  /** A row of kmap: n pages of the kernel part, mapped to consecutive frames. */
  datatype Region = Region(vp: nat, frame: nat, n: nat, perm: nat)

  predicate RegionOk(r: Region) { r.n > 0 && UPAGES <= r.vp && r.vp + r.n <= VPAGES }

  /** Pages that were in use are used as before. */
  ghost predicate Kept(vm: Vm, wm: Vm)
  {
    forall f :: f in vm.owner && !vm.owner[f].Free? ==> f in wm.owner && wm.owner[f] == vm.owner[f]
  }

  ghost predicate KeptBut(vm: Vm, wm: Vm, mem: nat)
  {
    forall f :: f in vm.owner && !vm.owner[f].Free? && f != mem ==> f in wm.owner && wm.owner[f] == vm.owner[f]
  }

  /** The first x pages of region r have been mapped in d, and nothing else. */
  ghost predicate RegionMapped(was: Vm, vm: Vm, d: nat, r: Region, x: nat)
  {
    forall wp :: 0 <= wp < VPAGES ==>
      At(vm, d, wp) == if r.vp <= wp < r.vp + x then Present(r.frame + (wp - r.vp), r.perm) else At(was, d, wp)
  }

  lemma RegionStart(vm: Vm, d: nat, r: Region)
    ensures RegionMapped(vm, vm, d, r, 0) && Spent(vm, vm, d, PageDirs(r.vp, 0), 0)
  {
    SpentNone(vm, vm, d, {});
  }

  lemma RegionNext(was: Vm, xm: Vm, vm: Vm, d: nat, r: Region, x: nat)
    requires RegionOk(r) && x < r.n && RegionMapped(was, xm, d, r, x) && Spent(was, xm, d, PageDirs(r.vp, x), 0)
    requires Spent(xm, vm, d, {(r.vp + x) / NENT}, 0)
    requires forall wp :: 0 <= wp < VPAGES ==>
               At(vm, d, wp) == if wp == r.vp + x then Present(r.frame + x, r.perm) else At(xm, d, wp)
    ensures RegionMapped(was, vm, d, r, x + 1) && Spent(was, vm, d, PageDirs(r.vp, x + 1), 0)
  {
    hide At, Spent;
    SpentTrans(was, xm, vm, d, PageDirs(r.vp, x), 0, {(r.vp + x) / NENT}, 0);
    PageDirsNext(r.vp, x);
  }

  lemma RegionUser(was: Vm, vm: Vm, d: nat, r: Region, x: nat)
    requires RegionOk(r) && RegionMapped(was, vm, d, r, x)
    ensures forall wp :: 0 <= wp < UPAGES ==> At(vm, d, wp) == At(was, d, wp)
  {
    hide At;
  }

  /** The mapping of region r stopped short at page x. */
  lemma RegionStop(was: Vm, xm: Vm, vm: Vm, d: nat, r: Region, x: nat, ok: MapResult)
    requires RegionOk(r) && x < r.n && RegionMapped(was, xm, d, r, x) && Spent(was, xm, d, PageDirs(r.vp, x), 0)
    requires ok == Remap ==> At(xm, d, r.vp + x).Present?
    requires ok == NoMemory ==> vm == xm && vm.free == [] && (r.vp + x) / NENT !in Dirs(vm, d)
    requires forall wp :: 0 <= wp < VPAGES ==> At(vm, d, wp) == At(xm, d, wp)
    ensures ok == Remap ==> exists wp :: r.vp <= wp < r.vp + r.n && At(was, d, wp).Present?
    ensures ok == NoMemory ==> |was.free| + |Dirs(was, d)| < |Dirs(was, d) + PageDirs(r.vp, r.n)|
    ensures forall wp :: 0 <= wp < UPAGES ==> At(vm, d, wp) == At(was, d, wp)
  {
    hide At, Spent, Dirs, PageDirs;
    RegionUser(was, xm, d, r, x);
    if ok == Remap {
      assert At(was, d, r.vp + x).Present?;
    }
    if ok == NoMemory {
      PageDirsMore(r.vp, x, r.n);
      PageDirsAt(r.vp, r.n, x);
      SpentTooLittle(was, vm, d, PageDirs(r.vp, x), 0, PageDirs(r.vp, r.n), 0, (r.vp + x) / NENT);
    }
  }

  lemma PageInRange(a: nat, oldsz: nat)
    requires a % PGSIZE == 0 && a < oldsz <= KERNBASE
    ensures a / PGSIZE < PageUp(oldsz) <= UPAGES
  {
  }

  lemma PastRange(a: nat, oldsz: nat)
    requires a % PGSIZE == 0 && a >= oldsz
    ensures a / PGSIZE >= PageUp(oldsz)
  {
  }

  lemma WholePage(p: nat, vend: nat)
    requires p % PGSIZE == 0 && p + PGSIZE <= vend
    ensures p / PGSIZE < vend / PGSIZE
  {
  }

  lemma NoWholePage(p: nat, vend: nat)
    requires p % PGSIZE == 0 && p + PGSIZE > vend
    ensures p / PGSIZE >= vend / PGSIZE
  {
  }

  lemma NextPage(a: nat)
    requires a % PGSIZE == 0
    ensures (a + PGSIZE) % PGSIZE == 0 && (a + PGSIZE) / PGSIZE == a / PGSIZE + 1
  {
  }

  /** Behind an absent directory entry nothing is mapped. */
  lemma SkipTable(vm: Vm, d: nat, vp: nat, hi: nat)
    requires Entry(vm, d, vp / NENT) == Absent
    ensures UnmapRange(vm, d, vp, hi) == UnmapRange(vm, d, (vp / NENT + 1) * NENT, hi)
    ensures ((vp / NENT + 1) * NENT * PGSIZE - PGSIZE) % PGSIZE == 0
    ensures ((vp / NENT + 1) * NENT * PGSIZE - PGSIZE) / PGSIZE + 1 == (vp / NENT + 1) * NENT
  {
    var mid := (vp / NENT + 1) * NENT;
    forall wp | vp <= wp < mid ensures At(vm, d, wp) == Absent {
      assert wp / NENT == vp / NENT;
    }
    SkipRange(vm, d, vp, mid, hi);
    assert (mid * PGSIZE - PGSIZE) == (mid - 1) * PGSIZE;
  }

  lemma UserFrame(vm: Vm, u: nat, d: nat, i: nat, j: nat)
    requires VmInv(vm) && Has(vm, u, User(d, i, j))
    ensures u !in vm.free
  {
    hide DirsOk, UsersOk;
  }

  /** Pages that were in use are used as before and have the same contents. */
  ghost predicate Intact(vm: Vm, wm: Vm)
  {
    forall f :: f in vm.owner && !vm.owner[f].Free? ==> SameFrame(vm, wm, f)
  }

  lemma IntactSelf(vm: Vm)
    ensures Intact(vm, vm)
  {
  }

  ghost predicate KmapOk(kmap: seq<Region>)
  {
    && (forall k :: 0 <= k < |kmap| ==> RegionOk(kmap[k]))
    && (forall k, l :: 0 <= k < l < |kmap| ==> Disjoint(kmap[k], kmap[l]))
  }

  predicate Disjoint(r: Region, s: Region) { r.vp + r.n <= s.vp || s.vp + s.n <= r.vp }

  predicate Within(r: Region, wp: nat) { r.vp <= wp < r.vp + r.n }

  /** What the kernel part maps at wp. */
  function KernelPte(kmap: seq<Region>, wp: nat): Pte
  {
    if kmap == [] then Absent
    else
      var r := kmap[|kmap| - 1];
      if Within(r, wp) then Present(r.frame + (wp - r.vp), r.perm) else KernelPte(kmap[..|kmap| - 1], wp)
  }

  lemma {:induction false} KernelAbsent(kmap: seq<Region>, wp: nat)
    requires forall k :: 0 <= k < |kmap| ==> !Within(kmap[k], wp)
    ensures KernelPte(kmap, wp) == Absent
    decreases |kmap|
  {
    if kmap != [] {
      KernelAbsent(kmap[..|kmap| - 1], wp);
    }
  }

  lemma KmapStep(kmap: seq<Region>, k: nat)
    requires KmapOk(kmap) && k < |kmap|
    ensures RegionOk(kmap[k])
    ensures forall wp :: 0 <= wp && Within(kmap[k], wp) ==> KernelPte(kmap[..k], wp) == Absent
    ensures forall wp :: 0 <= wp < VPAGES ==>
              KernelPte(kmap[..k + 1], wp) ==
              if Within(kmap[k], wp) then Present(kmap[k].frame + (wp - kmap[k].vp), kmap[k].perm)
              else KernelPte(kmap[..k], wp)
  {
    assert kmap[..k + 1][..k] == kmap[..k];
    forall wp | 0 <= wp && Within(kmap[k], wp) ensures KernelPte(kmap[..k], wp) == Absent {
      forall l | 0 <= l < k ensures !Within(kmap[..k][l], wp) {
        assert Disjoint(kmap[l], kmap[k]);
      }
      KernelAbsent(kmap[..k], wp);
    }
  }

  /** The kernel part, page by page: a page of region k goes to the frame as far
      into its frames as the page is into the region, any other page nowhere. */
  lemma {:induction false} KernelPages(kmap: seq<Region>, wp: nat)
    requires KmapOk(kmap)
    ensures forall k :: 0 <= k < |kmap| && kmap[k].vp <= wp < kmap[k].vp + kmap[k].n ==>
              KernelPte(kmap, wp) == Present(kmap[k].frame + wp - kmap[k].vp, kmap[k].perm)
    ensures (forall k :: 0 <= k < |kmap| ==> !(kmap[k].vp <= wp < kmap[k].vp + kmap[k].n)) ==>
              KernelPte(kmap, wp) == Absent
    decreases |kmap|
  {
    if kmap != [] {
      var last := |kmap| - 1;
      KernelPages(kmap[..last], wp);
      forall k | 0 <= k < last ensures kmap[..last][k] == kmap[k] && Disjoint(kmap[k], kmap[last]) {
      }
    }
  }

  /** The two indices of a virtual address: its upper ten bits select the
      directory entry, the next ten the table entry. User addresses are those
      below 0x80000000. */
  lemma AddressSplit(vm: Vm, d: nat, va: nat)
    requires va < 0x1_0000_0000
    ensures At(vm, d, va / 0x1000) == Lookup(vm, d, va / 0x40_0000, va / 0x1000 % 0x400)
    ensures va / 0x1000 < UPAGES <==> va < 0x8000_0000
    ensures KERNBASE == 0x8000_0000
  {
    assert va / 0x1000 / 0x400 == va / 0x40_0000;
  }

  /** The directory entries that the regions of kmap use. */
  function KmapDirs(kmap: seq<Region>): set<nat>
  {
    if kmap == [] then {}
    else KmapDirs(kmap[..|kmap| - 1]) + PageDirs(kmap[|kmap| - 1].vp, kmap[|kmap| - 1].n)
  }

  lemma KmapDirsNext(kmap: seq<Region>, k: nat)
    requires k < |kmap|
    ensures KmapDirs(kmap[..k + 1]) == KmapDirs(kmap[..k]) + PageDirs(kmap[k].vp, kmap[k].n)
  {
    assert kmap[..k + 1][..k] == kmap[..k];
  }

  lemma {:induction false} KmapDirsMore(kmap: seq<Region>, k: nat, l: nat)
    requires k <= l <= |kmap|
    ensures KmapDirs(kmap[..k]) <= KmapDirs(kmap[..l])
    decreases l
  {
    if k < l {
      KmapDirsMore(kmap, k, l - 1);
      KmapDirsNext(kmap, l - 1);
    }
  }

  /** d maps the first k regions of kmap and nothing else. */
  ghost predicate KmapTo(vm: Vm, d: nat, kmap: seq<Region>, k: nat)
    requires k <= |kmap|
  {
    forall wp :: 0 <= wp < VPAGES ==> At(vm, d, wp) == KernelPte(kmap[..k], wp)
  }

  lemma KmapNext(base: Vm, xm: Vm, vm: Vm, d: nat, kmap: seq<Region>, k: nat)
    requires KmapOk(kmap) && k < |kmap|
    requires KmapTo(xm, d, kmap, k) && RegionMapped(xm, vm, d, kmap[k], kmap[k].n)
    requires Spent(base, xm, d, KmapDirs(kmap[..k]), 0) && Spent(xm, vm, d, PageDirs(kmap[k].vp, kmap[k].n), 0)
    ensures KmapTo(vm, d, kmap, k + 1) && Spent(base, vm, d, KmapDirs(kmap[..k + 1]), 0)
  {
    hide Spent, KmapDirs, PageDirs, At;
    KmapStep(kmap, k);
    KmapDirsNext(kmap, k);
    SpentTrans(base, xm, vm, d, KmapDirs(kmap[..k]), 0, PageDirs(kmap[k].vp, kmap[k].n), 0);
  }

  /** Not enough for region k means not enough for all of kmap. */
  lemma KmapShort(base: Vm, xm: Vm, d: nat, kmap: seq<Region>, k: nat)
    requires k < |kmap| && Spent(base, xm, d, KmapDirs(kmap[..k]), 0) && Dirs(base, d) == {}
    requires |xm.free| + |Dirs(xm, d)| < |Dirs(xm, d) + PageDirs(kmap[k].vp, kmap[k].n)|
    ensures |base.free| < |KmapDirs(kmap)|
  {
    hide KmapDirs, PageDirs, Dirs;
    KmapDirsNext(kmap, k);
    KmapDirsMore(kmap, k + 1, |kmap|);
    assert kmap[..|kmap|] == kmap;
    assert Dirs(xm, d) == KmapDirs(kmap[..k]);
    SubsetSize(KmapDirs(kmap[..k + 1]), KmapDirs(kmap));
  }

  lemma KmapPaid(base: Vm, vm: Vm, d: nat, kmap: seq<Region>)
    requires Spent(base, vm, d, KmapDirs(kmap), 0) && Dirs(base, d) == {}
    ensures Dirs(vm, d) == KmapDirs(kmap) && |vm.free| + |KmapDirs(kmap)| == |base.free|
  {
    hide KmapDirs, Dirs;
    assert {} + KmapDirs(kmap) == KmapDirs(kmap);
  }

  lemma NewDirFacts(was: Vm, vm: Vm, d: nat)
    requires VmInv(was) && was.free != [] && d == was.free[0] && vm == Alloc(was) && VmInv(vm) && Has(vm, d, Held)
    ensures VmInv(NewDir(vm, d)) && IsDir(NewDir(vm, d), d) && Others(was, NewDir(vm, d), d, {}, {})
    ensures forall wp :: 0 <= wp < VPAGES ==> At(NewDir(vm, d), d, wp) == KernelPte([], wp)
    ensures Dirs(NewDir(vm, d), d) == {} && |NewDir(vm, d).free| == |was.free| - 1
    ensures Spent(NewDir(vm, d), NewDir(vm, d), d, KmapDirs([]), 0)
  {
    assert Dirs(NewDir(vm, d), d) == {};
    NewDirInv(vm, d);
    AllocOthers(was, d, {});
    hide VmInv, FreeOk, DirsOk, UsersOk;
    assert {} + {d} == {d};
    OthersTrans(was, vm, NewDir(vm, d), d, {}, {d}, {});
  }

  lemma DirLength(vm: Vm, d: nat)
    requires VmInv(vm) && IsDir(vm, d)
    ensures |vm.tables[d]| == NENT
  {
    hide FreeOk, UsersOk;
  }

  lemma ManagedFrame(vm: Vm, f: nat)
    requires VmInv(vm) && Has(vm, f, Held)
    ensures f in vm.owner && f !in vm.free
  {
    hide DirsOk, UsersOk;
  }

  /** A directory made and freed by the same operation leaves no trace. */
  lemma GiveBack(was: Vm, xm: Vm, wm: Vm, d: nat)
    requires VmInv(was) && Has(was, d, Free) && Others(was, xm, d, {}, {}) && Dropped(xm, wm, d)
    ensures wm.owner == was.owner && Intact(was, wm)
  {
    DroppedAfter(was, xm, wm, d);
    Restored(was, wm, d);
    forall f | f in was.owner && !was.owner[f].Free? ensures SameFrame(was, wm, f) {
      if was.owner[f].Table? {
        assert TableOk(was, f);
      }
      if was.owner[f].User? {
        assert UserOk(was, f);
      }
    }
  }

  datatype AddResult = Added(u: nat) | NoPage | NoTable(u: nat)

  /** What adding a page behind directory entry i has taken from the free list,
      or why it failed. */
  ghost predicate AddSpent(was: Vm, vm: Vm, d: nat, i: nat, r: AddResult)
  {
    match r
    case Added(_) => Spent(was, vm, d, {i}, 1)
    case NoPage => was.free == []
    case NoTable(_) => Spent(was, vm, d, {}, 1) && vm.free == [] && i !in Dirs(vm, d)
  }

  /** The free list has enough for n pages from page lo of d on, and for the
      page tables that are missing. */
  ghost predicate Enough(vm: Vm, d: nat, lo: nat, n: nat)
  {
    |vm.free| + |Dirs(vm, d)| >= n + |Dirs(vm, d) + PageDirs(lo, n)|
  }

  lemma EnoughPaid(was: Vm, vm: Vm, d: nat, lo: nat, n: nat)
    requires Spent(was, vm, d, PageDirs(lo, n), n)
    ensures Enough(was, d, lo, n)
  {
  }

  lemma NothingPaid(vm: Vm, d: nat, lo: nat)
    ensures Spent(vm, vm, d, PageDirs(lo, 0), 0)
  {
    SpentNone(vm, vm, d, {});
  }

  lemma AddPaid(was: Vm, xm: Vm, vm: Vm, d: nat, lo: nat, n: nat, r: AddResult)
    requires Spent(was, xm, d, PageDirs(lo, n), n) && AddSpent(xm, vm, d, (lo + n) / NENT, r) && r.Added?
    ensures Spent(was, vm, d, PageDirs(lo, n + 1), n + 1)
  {
    hide Spent, PageDirs;
    SpentTrans(was, xm, vm, d, PageDirs(lo, n), n, {(lo + n) / NENT}, 1);
    PageDirsNext(lo, n);
  }

  lemma AddFailed(was: Vm, xm: Vm, vm: Vm, d: nat, lo: nat, n: nat, all: nat, r: AddResult)
    requires Spent(was, xm, d, PageDirs(lo, n), n) && AddSpent(xm, vm, d, (lo + n) / NENT, r) && !r.Added? && n < all
    requires r.NoPage? ==> vm == xm
    ensures !Enough(was, d, lo, all)
  {
    hide Spent, PageDirs, Dirs;
    PageDirsMore(lo, n, all);
    PageDirsAt(lo, all, n);
    if r.NoPage? {
      SpentNoPage(was, xm, d, PageDirs(lo, n), n, PageDirs(lo, all), all);
    } else {
      SpentTrans(was, xm, vm, d, PageDirs(lo, n), n, {}, 1);
      SpentTooLittle(was, vm, d, PageDirs(lo, n) + {}, n + 1, PageDirs(lo, all), all, (lo + n) / NENT);
    }
  }

  /** Directory d maps a page with these contents at wp. */
  predicate Maps(vm: Vm, d: nat, wp: nat, page: Page, perm: nat)
  {
    At(vm, d, wp).Present? && At(vm, d, wp).perm == perm
    && At(vm, d, wp).frame in vm.data && vm.data[At(vm, d, wp).frame] == page
  }

  /** Pages that were in use have the contents they had. */
  ghost predicate DataKept(vm: Vm, wm: Vm)
  {
    forall f :: f in vm.owner && !vm.owner[f].Free? && f in vm.data ==> f in wm.data && wm.data[f] == vm.data[f]
  }

  /** Zeroed pages have been added to d from lo up to hi, and nothing else. */
  ghost predicate GrownTo(vm: Vm, wm: Vm, d: nat, lo: nat, hi: nat)
  {
    forall wp :: 0 <= wp < VPAGES ==>
      if lo <= wp < hi then Maps(wm, d, wp, ZeroPage(), USERPERM) else At(wm, d, wp) == At(vm, d, wp)
  }

  /** d maps what it mapped, and no page has changed hands except that free
      pages may have become page tables of d. */
  ghost predicate Backed(vm: Vm, wm: Vm, d: nat)
  {
    && (forall wp :: 0 <= wp < VPAGES ==> At(wm, d, wp) == At(vm, d, wp))
    && wm.owner.Keys == vm.owner.Keys
    && forall f :: f in vm.owner ==>
         wm.owner[f] == vm.owner[f] || (vm.owner[f].Free? && wm.owner[f].Table? && wm.owner[f].d == d)
  }

  lemma FillFacts(was: Vm, vm: Vm, d: nat, mem: nat, page: Page)
    requires VmInv(was) && IsDir(was, d) && was.free != [] && mem == was.free[0] && vm == Alloc(was) && VmInv(vm)
    requires Has(was, mem, Free) && Has(vm, mem, Held)
    ensures var wm := Store(vm, mem, page);
            && VmInv(wm) && IsDir(wm, d) && Others(was, wm, d, {}, {mem}) && Has(wm, mem, Held) && Kept(was, wm)
            && (forall wp :: 0 <= wp < VPAGES ==> At(wm, d, wp) == At(was, d, wp))
            && Spent(was, wm, d, {}, 1)
  {
    hide VmInv, FreeOk, DirsOk, UsersOk, Lookup, Spent, Others, Dirs;
    SpentPage(was, Store(vm, mem, page), d);
    AllocInv(was);
    AllocOthers(was, d, {});
    StoreInv(vm, mem, page, d, {mem});
    assert {} + {mem} == {mem};
    OthersTrans(was, vm, Store(vm, mem, page), d, {}, {mem}, {mem});
  }

  lemma RoomyRange(oldsz: nat, newsz: nat)
    requires oldsz <= newsz < KERNBASE
    ensures PageUp(oldsz) <= PageUp(newsz) <= UPAGES
  {
  }

  /** Mapped user pages are not free, so filling a free page leaves them alone. */
  lemma MapsKept(vm: Vm, wm: Vm, d: nat, wp: nat, page: Page, perm: nat, u: nat, q: Page)
    requires VmInv(vm) && IsDir(vm, d) && wp < UPAGES && Maps(vm, d, wp, page, perm)
    requires Has(vm, u, Free) && wm.data == vm.data[u := q] && At(wm, d, wp) == At(vm, d, wp)
    ensures Maps(wm, d, wp, page, perm)
  {
    Split(wp);
    assert Has(vm, At(vm, d, wp).frame, User(d, wp / NENT, wp % NENT));
  }

  /** Directory d maps page wp, writable by the user, to 4096 zero bytes. */
  predicate Blanked(vm: Vm, d: nat, wp: nat)
  {
    var e := At(vm, d, wp);
    && e.Present? && e.perm == 6 && e.frame in vm.data
    && |vm.data[e.frame]| == 4096 && forall k :: 0 <= k < 4096 ==> vm.data[e.frame][k] == 0
  }

  lemma GrownBlank(was: Vm, vm: Vm, d: nat, lo: nat, hi: nat)
    requires GrownTo(was, vm, d, lo, hi) && hi <= VPAGES
    ensures forall wp :: lo <= wp < hi ==> Blanked(vm, d, wp)
  {
    hide At, ZeroPage;
  }

  lemma GrowStart(vm: Vm, d: nat, lo: nat)
    ensures Kept(vm, vm) && DataKept(vm, vm) && GrownTo(vm, vm, d, lo, lo)
  {
  }

  lemma GrowAt(was: Vm, vm: Vm, d: nat, lo: nat, vp: nat)
    requires GrownTo(was, vm, d, lo, vp) && vp < VPAGES
    ensures At(vm, d, vp) == At(was, d, vp)
  {
    hide At, Maps;
  }

  lemma GrownStep(was: Vm, xm: Vm, vm: Vm, d: nat, lo: nat, vp: nat, u: nat)
    requires VmInv(xm) && IsDir(xm, d) && lo <= vp < UPAGES && GrownTo(was, xm, d, lo, vp)
    requires Kept(was, xm) && DataKept(was, xm) && Others(was, xm, d, {}, {})
    requires Kept(xm, vm) && Others(xm, vm, d, {}, {}) && Has(xm, u, Free) && vm.data == xm.data[u := ZeroPage()]
    requires forall wp :: 0 <= wp < VPAGES ==> At(vm, d, wp) == if wp == vp then Present(u, USERPERM) else At(xm, d, wp)
    ensures GrownTo(was, vm, d, lo, vp + 1) && Kept(was, vm) && DataKept(was, vm) && Others(was, vm, d, {}, {})
  {
    OthersTrans(was, xm, vm, d, {}, {}, {});
    hide Others;
    forall wp | 0 <= wp < VPAGES
      ensures if lo <= wp < vp + 1 then Maps(vm, d, wp, ZeroPage(), USERPERM) else At(vm, d, wp) == At(was, d, wp)
    {
      if lo <= wp < vp {
        MapsKept(xm, vm, d, wp, ZeroPage(), USERPERM, u, ZeroPage());
      }
    }
  }

  /** A user page of d that was not there at first lies in the part that grew. */
  lemma NewUser(was: Vm, ym: Vm, d: nat, lo: nat, vp: nat, f: nat)
    requires VmInv(was) && VmInv(ym) && IsDir(was, d) && IsDir(ym, d)
    requires forall wp :: 0 <= wp < VPAGES && !(lo <= wp < vp) ==> At(ym, d, wp) == At(was, d, wp)
    requires f in ym.owner && ym.owner[f].User? && ym.owner[f].d == d && Has(was, f, Free)
    ensures lo <= ym.owner[f].i * NENT + ym.owner[f].j < vp
  {
    assert UserOk(ym, f);
    var User(_, i, j) := ym.owner[f];
    SplitAt(i, j);
    var wp := i * NENT + j;
    assert At(ym, d, wp) == Lookup(ym, d, i, j) && At(was, d, wp) == Lookup(was, d, i, j);
  }

  /** A user page of d that was there at first is outside the range. */
  lemma OldUser(was: Vm, d: nat, lo: nat, hi: nat, f: nat)
    requires VmInv(was) && IsDir(was, d) && f in was.owner && hi <= UPAGES
    requires forall wp :: lo <= wp < hi ==> At(was, d, wp) == Absent
    ensures !InRange(was.owner[f], d, lo, hi)
  {
    if was.owner[f].User? && was.owner[f].d == d {
      assert UserOk(was, f);
      SplitAt(was.owner[f].i, was.owner[f].j);
      assert At(was, d, was.owner[f].i * NENT + was.owner[f].j).Present?;
    }
  }

  /** Out of memory for the page itself. */
  lemma FailedPage(was: Vm, ym: Vm, wm: Vm, d: nat, lo: nat, vp: nat, hi: nat)
    requires VmInv(was) && VmInv(ym) && IsDir(was, d) && IsDir(ym, d) && vp <= hi <= UPAGES
    requires GrownTo(was, ym, d, lo, vp) && Kept(was, ym) && DataKept(was, ym) && Others(was, ym, d, {}, {})
    requires forall wp :: lo <= wp < hi ==> At(was, d, wp) == Absent
    requires Others(ym, wm, d, {}, {}) && FreedRange(ym, wm, d, lo, hi)
    requires forall wp :: 0 <= wp < VPAGES ==> At(wm, d, wp) == if lo <= wp < hi then Absent else At(ym, d, wp)
    ensures Backed(was, wm, d) && Others(was, wm, d, {}, {}) && DataKept(was, wm)
  {
    hide VmInv;
    OthersTrans(was, ym, wm, d, {}, {}, {});
    forall f | f in was.owner
      ensures wm.owner[f] == was.owner[f] || (was.owner[f].Free? && wm.owner[f].Table? && wm.owner[f].d == d)
    {
      OldUser(was, d, lo, hi, f);
      if was.owner[f].Free? {
        assert Loose(ym, f, d, {});
        if ym.owner[f].User? {
          NewUser(was, ym, d, lo, vp, f);
        }
      }
    }
  }

  /** Out of memory for the table; u is the page given back last. */
  lemma FailedTable(was: Vm, xm: Vm, ym: Vm, wm: Vm, d: nat, lo: nat, vp: nat, hi: nat, u: nat, page: Page)
    requires VmInv(was) && VmInv(xm) && VmInv(ym) && VmInv(wm)
    requires IsDir(was, d) && IsDir(ym, d) && IsDir(wm, d) && vp <= hi <= UPAGES
    requires GrownTo(was, xm, d, lo, vp) && Kept(was, xm) && DataKept(was, xm) && Others(was, xm, d, {}, {})
    requires Others(xm, ym, d, {}, {u}) && Has(xm, u, Free) && Has(ym, u, Held) && Kept(xm, ym)
    requires ym.data == xm.data[u := page]
    requires forall wp :: 0 <= wp < VPAGES ==> At(ym, d, wp) == At(xm, d, wp)
    requires forall wp :: lo <= wp < hi ==> At(was, d, wp) == Absent
    requires Others(ym, wm, d, {}, {}) && FreedRange(ym, wm, d, lo, hi)
    requires forall wp :: 0 <= wp < VPAGES ==> At(wm, d, wp) == if lo <= wp < hi then Absent else At(ym, d, wp)
    ensures Has(wm, u, Held) && u !in wm.free && VmInv(Release(wm, u)) && IsDir(Release(wm, u), d)
    ensures Backed(was, Release(wm, u), d) && Others(was, Release(wm, u), d, {}, {}) && DataKept(was, Release(wm, u))
  {
    hide FreeOk, DirsOk, UsersOk, Others, Maps, At;
    assert Has(wm, u, Held);
    ReleaseInv(wm, u);
    ManagedFrame(wm, u);
    FailedOthers(was, xm, ym, wm, d, u);
    hide VmInv;
    assert Has(was, u, Free) by { FreeBefore(was, xm, d, u); }
    var zm := Release(wm, u);
    SameAt(wm, zm, d);
    OthersKeys(was, zm, d);
    FailedOwners(was, xm, ym, wm, d, lo, vp, hi, u);
  }

  lemma OthersKeys(was: Vm, zm: Vm, d: nat)
    requires Others(was, zm, d, {}, {})
    ensures zm.owner.Keys == was.owner.Keys
  {
  }

  lemma FreeBefore(was: Vm, xm: Vm, d: nat, u: nat)
    requires Kept(was, xm) && Has(xm, u, Free) && Others(was, xm, d, {}, {})
    ensures Has(was, u, Free)
  {
    assert u in was.owner.Keys;
  }

  lemma SameAt(wm: Vm, zm: Vm, d: nat)
    requires zm.tables == wm.tables
    ensures forall wp :: At(zm, d, wp) == At(wm, d, wp)
  {
    assert forall f, i :: Entry(zm, f, i) == Entry(wm, f, i);
  }

  lemma FailedOwners(was: Vm, xm: Vm, ym: Vm, wm: Vm, d: nat, lo: nat, vp: nat, hi: nat, u: nat)
    requires VmInv(was) && VmInv(ym) && IsDir(was, d) && IsDir(ym, d) && vp <= hi <= UPAGES && Has(was, u, Free)
    requires Kept(was, xm) && Others(was, xm, d, {}, {}) && Others(xm, ym, d, {}, {u}) && Kept(xm, ym)
    requires forall wp :: 0 <= wp < VPAGES && !(lo <= wp < vp) ==> At(ym, d, wp) == At(was, d, wp)
    requires forall wp :: lo <= wp < hi ==> At(was, d, wp) == Absent
    requires FreedRange(ym, wm, d, lo, hi)
    ensures forall f | f in was.owner && f != u ::
              && f in wm.owner
              && (wm.owner[f] == was.owner[f] || (was.owner[f].Free? && wm.owner[f].Table? && wm.owner[f].d == d))
  {
    hide VmInv, Others, At;
    forall f | f in was.owner && f != u
      ensures f in wm.owner
      ensures wm.owner[f] == was.owner[f] || (was.owner[f].Free? && wm.owner[f].Table? && wm.owner[f].d == d)
    {
      OldUser(was, d, lo, hi, f);
      if was.owner[f].Free? {
        FreeStays(was, xm, ym, d, f, u);
        if ym.owner[f].User? {
          NewUser(was, ym, d, lo, vp, f);
        }
      }
    }
  }

  lemma FreeStays(was: Vm, xm: Vm, ym: Vm, d: nat, f: nat, u: nat)
    requires Others(was, xm, d, {}, {}) && Others(xm, ym, d, {}, {u}) && Has(was, f, Free) && f != u
    ensures f in ym.owner && (ym.owner[f].Free? || Mine(ym.owner[f], f, d))
  {
    assert Loose(xm, f, d, {}) && Loose(ym, f, d, {u});
  }

  lemma FailedOthers(was: Vm, xm: Vm, ym: Vm, wm: Vm, d: nat, u: nat)
    requires Others(was, xm, d, {}, {}) && Others(xm, ym, d, {}, {u}) && Others(ym, wm, d, {}, {}) && u in wm.owner
    ensures Others(was, Release(wm, u), d, {}, {})
  {
    OthersTrans(was, xm, ym, d, {}, {}, {u});
    OthersHold(ym, wm, d, {u});
    OthersTrans(was, ym, wm, d, {}, {u}, {u});
    ReleaseOthers(wm, u, d, {u});
    hide Others;
    assert {u} - {u} == {};
    OthersTrans(was, wm, Release(wm, u), d, {}, {u}, {});
  }

  datatype CopyResult = Copied(e: nat) | OutOfMemory | Panic

  /** Page wp of d, as it was, has a copy at wp of e. */
  predicate CopyOf(was: Vm, vm: Vm, d: nat, e: nat, wp: nat)
  {
    && At(was, d, wp).Present? && At(was, d, wp).frame in was.data
    && Maps(vm, e, wp, was.data[At(was, d, wp).frame], At(was, d, wp).perm)
  }

  /** The first n pages of d have copies in e, which maps nothing else but the
      kernel part. */
  ghost predicate CopiedTo(was: Vm, vm: Vm, kmap: seq<Region>, d: nat, e: nat, n: nat)
  {
    && (forall wp :: 0 <= wp < n ==> CopyOf(was, vm, d, e, wp))
    && (forall wp :: n <= wp < VPAGES ==> At(vm, e, wp) == KernelPte(kmap, wp))
  }

  lemma NotSame(was: Vm, d: nat, e: nat)
    requires IsDir(was, d) && Has(was, e, Free)
    ensures d != e
  {
  }

  lemma CopyStart(was: Vm, vm: Vm, kmap: seq<Region>, d: nat, e: nat)
    requires forall wp :: 0 <= wp < VPAGES ==> At(vm, e, wp) == KernelPte(kmap, wp)
    ensures CopiedTo(was, vm, kmap, d, e, 0)
  {
  }

  lemma CopyAt(was: Vm, vm: Vm, kmap: seq<Region>, d: nat, e: nat, vp: nat)
    requires CopiedTo(was, vm, kmap, d, e, vp) && vp < VPAGES
    ensures At(vm, e, vp) == KernelPte(kmap, vp)
  {
    hide At;
  }

  lemma CopyEnd(was: Vm, vm: Vm, kmap: seq<Region>, d: nat, e: nat, n: nat, m: nat)
    requires CopiedTo(was, vm, kmap, d, e, n) && n >= m && (n <= m || n == 0)
    ensures CopiedTo(was, vm, kmap, d, e, m)
  {
  }

  lemma NoKernel(kmap: seq<Region>, vp: nat)
    requires KmapOk(kmap) && vp < UPAGES
    ensures KernelPte(kmap, vp) == Absent
  {
    KernelAbsent(kmap, vp);
  }

  /** While e is being built, d is as it was. */
  /** The first page below n that d does not map, or n. */
  ghost function FirstAbsent(vm: Vm, d: nat, n: nat): (m: nat)
    ensures m <= n && (m < n ==> At(vm, d, m) == Absent)
    ensures forall wp :: 0 <= wp < m ==> At(vm, d, wp) != Absent
  {
    if n == 0 then 0
    else
      var m := FirstAbsent(vm, d, n - 1);
      if m < n - 1 || At(vm, d, m) == Absent then m else n
  }

  /** The pages that copying n pages takes: the directory, the tables of the
      kernel part, the copies and their tables. */
  ghost function CopyNeed(kmap: seq<Region>, n: nat): nat { 1 + |KmapDirs(kmap)| + n + |PageDirs(0, n)| }

  lemma CopyNeedHead(kmap: seq<Region>, n: nat)
    ensures 1 + |KmapDirs(kmap)| <= CopyNeed(kmap, n)
  {
  }

  lemma CopyBound(sz: nat)
    requires sz <= KERNBASE
    ensures PageUp(sz) <= UPAGES
  {
  }

  /** The kernel part and the user part use different directory entries. */
  lemma {:induction false} KmapHigh(kmap: seq<Region>, n: nat)
    requires KmapOk(kmap) && n <= UPAGES
    ensures KmapDirs(kmap) !! PageDirs(0, n)
  {
    hide PageDirs;
    PageDirsRange(0, n);
    if kmap != [] {
      KmapHigh(kmap[..|kmap| - 1], n);
      var r := kmap[|kmap| - 1];
      assert RegionOk(r);
      PageDirsRange(r.vp, r.n);
    }
  }

  lemma CopyCount(was: Vm, base: Vm, kmap: seq<Region>, e: nat, n: nat)
    requires KmapOk(kmap) && n <= UPAGES
    requires Dirs(base, e) == KmapDirs(kmap) && |base.free| == |was.free| - 1 - |KmapDirs(kmap)|
    ensures Enough(base, e, 0, n) <==> |was.free| >= CopyNeed(kmap, n)
  {
    hide KmapDirs, PageDirs, Dirs;
    KmapHigh(kmap, n);
  }

  lemma CopyPaid(was: Vm, base: Vm, vm: Vm, kmap: seq<Region>, e: nat, n: nat)
    requires KmapOk(kmap) && n <= UPAGES
    requires Dirs(base, e) == KmapDirs(kmap) && |base.free| == |was.free| - 1 - |KmapDirs(kmap)|
    requires Spent(base, vm, e, PageDirs(0, n), n)
    ensures |was.free| >= CopyNeed(kmap, n)
  {
    CopyCount(was, base, kmap, e, n);
    EnoughPaid(base, vm, e, 0, n);
  }

  lemma CopyShort(was: Vm, base: Vm, xm: Vm, vm: Vm, kmap: seq<Region>, e: nat, vp: nat, n: nat, r: AddResult)
    requires KmapOk(kmap) && vp < n <= UPAGES
    requires Dirs(base, e) == KmapDirs(kmap) && |base.free| == |was.free| - 1 - |KmapDirs(kmap)|
    requires Spent(base, xm, e, PageDirs(0, vp), vp) && AddSpent(xm, vm, e, vp / NENT, r) && !r.Added?
    requires r.NoPage? ==> vm == xm
    ensures |was.free| < CopyNeed(kmap, n)
  {
    hide KmapDirs, PageDirs, Dirs, Spent, AddSpent, Enough, CopyNeed;
    CopyCount(was, base, kmap, e, n);
    AddFailed(base, xm, vm, e, 0, vp, n, r);
  }

  lemma SourcePage(was: Vm, vm: Vm, d: nat, e: nat, vp: nat)
    requires VmInv(was) && Others(was, vm, e, {}, {}) && IsDir(was, d) && d != e && vp < UPAGES && Has(was, e, Free)
    ensures IsDir(vm, d) && At(vm, d, vp) == At(was, d, vp)
    ensures At(was, d, vp).Present? ==>
              var u := At(was, d, vp).frame; u in was.data && u in vm.data && vm.data[u] == was.data[u]
  {
    Split(vp);
    OtherDirs(was, vm, e, d, vp / NENT, vp % NENT);
  }

  lemma CopyStep(was: Vm, xm: Vm, vm: Vm, kmap: seq<Region>, d: nat, e: nat, vp: nat, u: nat, page: Page, perm: nat)
    requires VmInv(xm) && IsDir(xm, e) && vp < UPAGES && CopiedTo(was, xm, kmap, d, e, vp)
    requires Others(was, xm, e, {}, {}) && Others(xm, vm, e, {}, {})
    requires Has(xm, u, Free) && vm.data == xm.data[u := page]
    requires Maps(xm, d, vp, page, perm) && At(xm, d, vp) == At(was, d, vp)
    requires At(was, d, vp).Present? ==> At(was, d, vp).frame in was.data && At(was, d, vp).frame in xm.data
                                         && xm.data[At(was, d, vp).frame] == was.data[At(was, d, vp).frame]
    requires forall wp :: 0 <= wp < VPAGES ==> At(vm, e, wp) == if wp == vp then Present(u, perm) else At(xm, e, wp)
    ensures CopiedTo(was, vm, kmap, d, e, vp + 1) && Others(was, vm, e, {}, {})
  {
    OthersTrans(was, xm, vm, e, {}, {}, {});
    hide Others, VmInv, At;
    forall wp | 0 <= wp < vp + 1 ensures CopyOf(was, vm, d, e, wp) {
      if wp < vp {
        assert CopyOf(was, xm, d, e, wp);
        MapsKept(xm, vm, e, wp, was.data[At(was, d, wp).frame], At(was, d, wp).perm, u, page);
      }
    }
  }

  /** A page that could not be mapped is given back. */
  lemma CopyUndo(was: Vm, xm: Vm, vm: Vm, e: nat, a: AddResult)
    requires Others(was, xm, e, {}, {}) && VmInv(vm) && IsDir(vm, e) && !a.Added?
    requires a.NoPage? ==> vm == xm
    requires a.NoTable? ==> Others(xm, vm, e, {}, {a.u}) && Has(vm, a.u, Held)
    ensures a.NoPage? ==> Others(was, vm, e, {}, {})
    ensures a.NoTable? ==> && a.u !in vm.free && VmInv(Release(vm, a.u)) && IsDir(Release(vm, a.u), e)
                           && Others(was, Release(vm, a.u), e, {}, {})
  {
    hide FreeOk, DirsOk, UsersOk;
    if a.NoTable? {
      ManagedFrame(vm, a.u);
      ReleaseInv(vm, a.u);
      OthersTrans(was, xm, vm, e, {}, {}, {a.u});
      ReleaseOthers(vm, a.u, e, {a.u});
      hide Others;
      assert {a.u} - {a.u} == {};
      OthersTrans(was, vm, Release(vm, a.u), e, {}, {a.u}, {});
    }
  }

  lemma SetPteSpent(was: Vm, vm: Vm, d: nat, i: nat, j: nat, pte: Pte)
    requires VmInv(vm) && IsDir(vm, d) && i < NENT && j < NENT && Entry(vm, d, i).Present?
    requires Spent(was, vm, d, {i}, 0)
    ensures Entry(vm, d, i).frame in vm.tables && |vm.tables[Entry(vm, d, i).frame]| == NENT
    ensures Spent(was, SetPte(vm, d, i, j, pte), d, {i}, 0)
  {
    SetPteLookup(vm, d, i, j, pte);
    hide VmInv, FreeOk, DirsOk, UsersOk, Spent;
    SpentNone(vm, SetPte(vm, d, i, j, pte), d, {});
    SpentTrans(was, vm, SetPte(vm, d, i, j, pte), d, {i}, 0, {}, 0);
    assert {i} + {} == {i};
  }

  lemma MapUserSpent(was: Vm, vm: Vm, d: nat, i: nat, j: nat, u: nat, perm: nat)
    requires VmInv(vm) && IsDir(vm, d) && i < NENT && j < NENT && Entry(vm, d, i).Present?
    requires Spent(was, vm, d, {i}, 0)
    ensures Entry(vm, d, i).frame in vm.tables && |vm.tables[Entry(vm, d, i).frame]| == NENT
    ensures Spent(was, MapUser(vm, d, i, j, u, perm), d, {i}, 0)
  {
    SetPteSpent(was, vm, d, i, j, Present(u, perm));
    hide VmInv, FreeOk, DirsOk, UsersOk;
    var xm, wm := SetPte(vm, d, i, j, Present(u, perm)), MapUser(vm, d, i, j, u, perm);
    assert forall a :: Entry(wm, d, a) == Entry(xm, d, a);
    assert Dirs(wm, d) == Dirs(xm, d);
  }

  lemma FreeNonzero(vm: Vm)
    requires VmInv(vm)
    ensures vm.free != [] ==> vm.free[0] != 0
  {
    hide DirsOk, UsersOk;
    if vm.free != [] {
      assert vm.free[0] in vm.free;
    }
  }

  lemma OthersKeep(vm: Vm, d: nat, held: set<nat>)
    ensures Others(vm, vm, d, held, held)
  {
  }

  lemma ChainHead(head: nat, next: map<nat, nat>, free: seq<nat>)
    requires Chain(head, next, free)
    ensures head == if free == [] then 0 else free[0]
  {
  }

  lemma ChainPop(head: nat, next: map<nat, nat>, free: seq<nat>)
    requires Chain(head, next, free) && free != []
    ensures head in next && Chain(next[head], next, free[1..])
  {
    assert ChainAt(next, free, 0);
    forall k | 0 <= k < |free| - 1 ensures ChainAt(next, free[1..], k) {
      assert ChainAt(next, free, k + 1);
    }
  }

  /** Putting a page on the free list twice makes a list without an end. */
  lemma ChainLoops(head: nat, next: map<nat, nat>, free: seq<nat>, f: nat, s: seq<nat>)
    requires Chain(head, next, free) && f in free && 0 !in free
    ensures !Chain(f, next[f := head], s)
  {
    if Chain(f, next[f := head], s) {
      var k := FirstPlace(free, f);
      var _ := RoundAndRound(head, next, free, f, k, s, |s|);
      assert false;
    }
  }

  lemma FirstPlace(free: seq<nat>, f: nat) returns (k: nat)
    requires f in free
    ensures k < |free| && free[k] == f && f !in free[..k]
  {
    k := 0;
    while free[k] != f
      invariant k < |free| && f in free[k..] && f !in free[..k]
      decreases |free| - k
    {
      k := k + 1;
    }
  }

  /** The m-th page of such a list: page f or one before it in `free`. */
  lemma {:induction false} RoundAndRound(head: nat, next: map<nat, nat>, free: seq<nat>, f: nat, k: nat,
                                         s: seq<nat>, m: nat)
    returns (j: nat)
    requires Chain(head, next, free) && 0 !in free && k < |free| && free[k] == f && f !in free[..k]
    requires Chain(f, next[f := head], s)
    ensures j <= k && m < |s| && s[m] == if j == 0 then f else free[j - 1]
    decreases m
  {
    if m == 0 {
      j := 0;
    } else {
      var i := RoundAndRound(head, next, free, f, k, s, m - 1);
      assert ChainAt(next[f := head], s, m - 1);
      if i > 0 {
        assert ChainAt(next, free, i - 1) && free[..k][i - 1] != f;
      }
      j := if i == k then 0 else i + 1;
    }
  }

  lemma ChainPush(head: nat, next: map<nat, nat>, free: seq<nat>, f: nat)
    requires Chain(head, next, free) && f !in free
    ensures Chain(f, next[f := head], [f] + free)
  {
    var more := [f] + free;
    var now := next[f := head];
    forall k | 0 <= k < |more| ensures ChainAt(now, more, k) {
      if k > 0 {
        assert ChainAt(next, free, k - 1);
      }
    }
  }

  /** The table just allocated is put in place. */
  lemma WalkDone(was: Vm, vm: Vm, d: nat, i: nat, t: nat, held: set<nat>)
    requires VmInv(was) && was.free != [] && vm == Alloc(was) && t == was.free[0] && VmInv(vm)
    requires IsDir(was, d) && i < NENT && Entry(was, d, i) == Absent
    ensures d in vm.tables && |vm.tables[d]| == NENT && t != d
    ensures var wm := PutTable(vm, d, i, t);
            && VmInv(wm) && IsDir(wm, d) && Others(was, wm, d, held, held)
            && (forall a, b :: 0 <= a < NENT && 0 <= b < NENT ==> Lookup(wm, d, a, b) == Lookup(was, d, a, b))
            && Kept(was, wm) && Spent(was, wm, d, {i}, 0)
  {
    hide VmInv, FreeOk, DirsOk, UsersOk, Lookup, Spent, Others, Dirs;
    AllocInv(was);
    assert IsDir(vm, d) && t != d;
    assert forall a :: 0 <= a < NENT ==> Entry(vm, d, a) == Entry(was, d, a);
    PutTableInv(vm, d, i, t);
    WalkEntries(vm, d, i, t);
    var wm := PutTable(vm, d, i, t);
    SpentTable(was, wm, d, i);
    WalkOthers(was, wm, d, i, t, held);
  }

  lemma WalkEntries(vm: Vm, d: nat, i: nat, t: nat)
    requires VmInv(vm) && IsDir(vm, d) && i < NENT && Entry(vm, d, i) == Absent && Has(vm, t, Held)
    ensures d in vm.tables && |vm.tables[d]| == NENT
    ensures var wm := PutTable(vm, d, i, t);
            && IsDir(wm, d)
            && (forall f, a :: f != t ==>
                  Entry(wm, f, a) == if f == d && a == i then Present(t, PDEPERM) else Entry(vm, f, a))
            && (forall a, b :: 0 <= a < NENT && 0 <= b < NENT ==> Lookup(wm, d, a, b) == Lookup(vm, d, a, b))
  {
    hide FreeOk, UsersOk, Lookup;
    PutTableEntries(vm, d, i, t);
  }

  lemma WalkOthers(was: Vm, wm: Vm, d: nat, i: nat, t: nat, held: set<nat>)
    requires was.free != [] && t == was.free[0] && Has(was, t, Free) && IsDir(was, d) && t != d
    requires i < |was.tables[d]| && wm == PutTable(Alloc(was), d, i, t)
    ensures Others(was, wm, d, held, held)
  {
    hide Blank;
  }
}
