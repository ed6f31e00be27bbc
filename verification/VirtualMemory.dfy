/** The virtual memory of kernel/vm.c over the page allocator of kernel/kalloc.c. A panic is a
    failed precondition. The allocator may run dry at any call. */
module VirtualMemory {
  import opened Collections
  import opened PageTable
  import opened AddressSpace
  import opened UserBytes

  class Memory {
    const managed: set<nat>              // the pages between end and PHYSTOP
    var free: seq<nat>                   // kmem.freelist
    var tables: map<nat, Table>
    var pages: map<nat, Page>

    ghost function Now(): (m: Mem)
      reads this
    {
      Mem(free, tables, pages)
    }

    ghost predicate Valid()
      reads this
    {
      Wf(Now()) && All(Now()) == managed && |managed| <= NPAGES
    }

    /** kinit: free the pages from `first` on, in order. */
    constructor (first: nat, count: nat)
      requires count <= NPAGES
      ensures Valid() && managed == Range(first, first + count) && tables == map[] && pages == map[]
    {
      managed := Range(first, first + count);
      free, tables, pages := [], map[], map[];
      new;
      var p := first;
      while p < first + count
        invariant first <= p <= first + count && |free| == p - first && tables == map[] && pages == map[]
        invariant forall k :: 0 <= k < |free| ==> free[k] == p - 1 - k
      {
        free := [p] + free;
        p := p + 1;
      }
      RangeLength(first, count);
      assert forall v :: v in managed ==> v == free[first + count - 1 - v];
      assert FreeSet(Now()) == managed;
    }

    method Kalloc() returns (p: Option<nat>)
      requires Valid()
      modifies this`free, this`pages
      ensures Valid()
      ensures p.None? ==> Now() == old(Now()) && free == []
      ensures p.Some? ==> old(free) != [] && p.value == old(free)[0] && Now() == AllocPage(old(Now()), Filled(5))
    {
      if free == [] { return None; }
      AllocPageOk(Now(), {}, Filled(5));
      p := Some(free[0]);
      free, pages := free[1..], pages[free[0] := Filled(5)];
    }

    /** Freeing a page that is not allocated would put it on the list twice. */
    method Kfree(p: nat)
      requires Valid() && p in Used(Now())
      modifies this
      ensures Valid() && Now() == PageTable.Kfree(old(Now()), p)
    {
      hide Moved, Wf, All;
      ghost var m := Now();
      KfreeOk(m, {p}, p);
      MovedWf(m, PageTable.Kfree(m, p), {p}, {p} - {p});
      free, tables, pages := [p] + free, tables - {p}, pages - {p};
    }

    /** walk: the table that holds the entry of page `v`. */
    method Walk(pt: nat, v: nat, alloc: bool) returns (t: Option<nat>)
      requires Valid() && Rooted(Now(), pt) && v < NVPN
      modifies this
      ensures Valid()
      ensures alloc ==> Walked(old(Now()), Now(), pt, v, t)
      ensures !alloc ==> Now() == old(Now())
      ensures !alloc ==> t == if tables[pt][v / NPTE].Valid() then Some(tables[pt][v / NPTE].ppn) else None
    {
      hide Moved, Wf, All, Tables, Walked, Leaf;
      ghost var m := Now();
      WalkFound(m, pt, v);
      var e := tables[pt][v / NPTE];
      if e.Valid() { return Some(e.ppn); }
      if !alloc { return None; }
      t := Kalloc();
      if t.None? { return; }
      WalkOk(m, pt, v);
      ghost var r := SetEntry(AllocTable(m), pt, v / NPTE, Pte(t.value, {V}));
      WalkedWf(m, r, pt, v, t);
      tables, pages := tables[t.value := Empty()], pages - {t.value};
      tables := tables[pt := tables[pt][v / NPTE := Pte(t.value, {V})]];
      assert Now() == r by { FreshPage(m); }
    }

    /** mappages for one page; a mapped page is the remap panic. */
    method Mappages(pt: nat, v: nat, ppn: nat, perm: set<Flag>) returns (ok: bool)
      requires Valid() && Rooted(Now(), pt) && v < NVPN && !Leaf(Now(), pt, v).Valid()
      modifies this
      ensures Valid() && Mapped(old(Now()), Now(), pt, v, Pte(ppn, LeafFlags(perm)), ok)
    {
      hide Mapped, Walked, Wf, All;
      ghost var m := Now();
      var t := Walk(pt, v, true);
      ghost var e := Pte(ppn, LeafFlags(perm));
      MappedOk(m, Now(), pt, v, t, e);
      if t.None? { return false; }
      var flags := perm + {A};
      if W in flags { flags := flags + {D}; }
      tables := tables[t.value := tables[t.value][v % NPTE := Pte(ppn, flags + {V})]];
      assert flags + {V} == LeafFlags(perm);
      MappedWf(m, Now(), pt, v, e, true);
      ok := true;
    }

    /** uvmunmap: no page is missing, none is a table, and every frame is freed while in use. */
    method Uvmunmap(pt: nat, v: nat, npages: nat, doFree: bool, ghost user: set<nat>, ghost extra: set<nat>)
      requires Valid() && Space(Now(), pt, user, extra)
      requires Range(v, v + npages) <= if doFree then user else extra
      modifies this
      ensures Valid() && |free| == |old(free)| + if doFree then npages else 0
      ensures doFree ==> Turned(old(Now()), Now(), pt, user, extra, user - Range(v, v + npages), extra)
      ensures !doFree ==> Turned(old(Now()), Now(), pt, user, extra, user, extra - Range(v, v + npages))
    {
      hide Turned, Space, Wf, All, Leaf;
      ghost var m := Now();
      TurnedRefl(m, pt, user, extra);
      var a := v;
      ghost var u, x := user, extra;
      while a < v + npages
        invariant v <= a <= v + npages && Valid() && Space(Now(), pt, u, x)
        invariant u == if doFree then user - Range(v, a) else user
        invariant x == if doFree then extra else extra - Range(v, a)
        invariant Turned(m, Now(), pt, user, extra, u, x) && |free| == |m.free| + if doFree then a - v else 0
      {
        ghost var g := Now();
        assert Within(a, v, v + npages) && !Within(a, v, a);
        MappedPage(g, pt, u, x, a);
        var t := Walk(pt, a, false);
        var e := tables[t.value][a % NPTE];
        assert e.Valid() && e.flags != {V};
        if doFree {
          DropUser(g, pt, u, x, a);
          Kfree(e.ppn);
          assert Range(v, a + 1) == Range(v, a) + {a};
        } else {
          DropExtra(g, pt, u, x, a);
          assert Range(v, a + 1) == Range(v, a) + {a};
        }
        tables := tables[t.value := tables[t.value][a % NPTE := Null]];
        a := a + 1;
        ghost var u1, x1 := if doFree then u - {a - 1} else u, if doFree then x else x - {a - 1};
        TurnedTrans(m, g, Now(), pt, user, extra, u, x, u1, x1);
        TurnedFacts(m, Now(), pt, user, extra, u1, x1);
        u, x := u1, x1;
      }
    }

    method Uvmdealloc(pt: nat, oldsz: nat, newsz: nat, ghost extra: set<nat>) returns (r: nat)
      requires Valid() && Space(Now(), pt, Range(0, Pages(oldsz)), extra) && oldsz < WORD && newsz < WORD
      modifies this
      ensures Valid() && r == (if newsz < oldsz then newsz else oldsz)
      ensures Turned(old(Now()), Now(), pt, Range(0, Pages(oldsz)), extra, Range(0, Pages(r)), extra)
      ensures |free| + Pages(r) == |old(free)| + Pages(oldsz)
    {
      hide Turned, Space, All, Wf, Range;
      ghost var user := Range(0, Pages(oldsz));
      TurnedRefl(Now(), pt, user, extra);
      if newsz >= oldsz { return oldsz; }
      FewPages(Now(), pt, Pages(oldsz), extra);
      r := newsz;
      if RoundUp(newsz) < RoundUp(oldsz) {
        var npages := (RoundUp(oldsz) - RoundUp(newsz)) / PGSIZE;
        RangeCut(Pages(newsz), Pages(oldsz));
        Uvmunmap(pt, RoundUp(newsz) / PGSIZE, npages, true, user, extra);
      }
    }

    /** One round of uvmalloc or uvmcopy: a page with `data` at `k`, or nothing when memory does not reach. */
    method AddPage(pt: nat, k: nat, data: Page, perm: set<Flag>, ghost extra: set<nat>) returns (ok: bool)
      requires Valid() && Space(Now(), pt, Range(0, k), extra) && k < NVPN && k !in extra
      modifies this
      ensures Valid() && pt in old(tables) && (ok <==> |old(free)| >= 1 + TableCost(old(Now()), pt, k))
      ensures !ok ==> Now() == old(Now())
      ensures ok ==> Turned(old(Now()), Now(), pt, Range(0, k), extra, Range(0, k + 1), extra)
      ensures ok ==> Rooted(Now(), pt) && HasPage(Now(), pt, k, LeafFlags(perm), data)
      ensures ok ==> Reaches(AllocPage(old(Now()), data), Now(), pt, k)
    {
      hide Turned, Wf, All, Leaf, Moved;
      ghost var m := Now();
      assert !Within(k, 0, k) && Rooted(m, pt);
      var mem := Kalloc();
      if mem.None? { return false; }
      pages := pages[mem.value := data];
      AllocPageOk(m, {}, data);
      MovedWf(m, AllocPage(m, data), {}, {} + {m.free[0]});
      assert Now() == AllocPage(m, data);
      assert !Leaf(Now(), pt, k).Valid() && Rooted(Now(), pt) by { SameTables(m, Now(), pt); }
      ok := Mappages(pt, k, mem.value, perm);
      if !ok {
        AllocFree(m, data);
        Kfree(mem.value);
        return;
      }
      assert LeafFlags(LeafFlags(perm)) == LeafFlags(perm);
      AddUser(m, Now(), pt, Range(0, k), extra, k, data, LeafFlags(perm));
      assert Range(0, k + 1) == Range(0, k) + {k};
      TurnedFacts(m, Now(), pt, Range(0, k), extra, Range(0, k + 1), extra);
    }

    /** uvmalloc: the pages up to `newsz`, zeroed, exactly when memory reaches; else back to where it began. */
    method Uvmalloc(pt: nat, oldsz: nat, newsz: nat, xperm: set<Flag>, ghost extra: set<nat>) returns (r: nat)
      requires Valid() && Space(Now(), pt, Range(0, Pages(oldsz)), extra) && extra <= {TRAMPOLINE, TRAPFRAME}
      requires oldsz < WORD && newsz < WORD
      modifies this
      ensures Valid() && pt in old(tables)
      ensures newsz < oldsz ==> r == oldsz && Now() == old(Now())
      ensures oldsz <= newsz ==>
        r == if |old(free)| >= Need(old(Now()), pt, Pages(oldsz), Pages(newsz)) then newsz else 0
      ensures oldsz <= newsz ==>
        Turned(old(Now()), Now(), pt, Range(0, Pages(oldsz)), extra, Range(0,
            if r == 0 then Pages(oldsz) else Pages(newsz)), extra)
      ensures oldsz <= newsz && r != 0 ==>
        Rooted(Now(), pt) && AllZero(Now(), pt, Pages(oldsz), Pages(newsz), LeafFlags({R, U} + xperm))
      ensures oldsz <= newsz && r != 0 ==> Paid(old(Now()), Now(), pt, Pages(oldsz), Pages(newsz))
      ensures r < newsz ==> |free| + TablesKept(old(Now()), pt, Pages(oldsz), Pages(newsz)) == |old(free)|
    {
      hide Turned, Space, Wf, All, Leaf, Range, Need, Paid, AllZero, Growing, Reach, NewTables;
      ghost var m, lo, hi, flags := Now(), Pages(oldsz), Pages(newsz), LeafFlags({R, U} + xperm);
      SpaceRooted(m, pt, Range(0, lo), extra);
      if newsz < oldsz { return oldsz; }
      FewPages(m, pt, lo, extra);
      GrowingNone(m, pt, lo, extra, flags);
      var base := RoundUp(oldsz);
      var a := base;
      ghost var k := lo;
      while a < newsz
        invariant a == k * PGSIZE && lo <= k && (k <= hi || k == lo) && k <= NPAGES
        invariant Valid() && Growing(m, Now(), pt, lo, k, extra, flags)
        decreases NPAGES - k
      {
        ghost var g := Now();
        NeedMono(m, pt, lo, k + 1, hi);
        var ok := GrowPage(pt, a / PGSIZE, xperm, extra, m, lo);
        if !ok {
          GrowingFacts(m, g, pt, lo, k, extra, flags);
          RangesNest(lo, k);
          ReachIs(m, pt, lo, k, hi);
          var _ := Uvmdealloc(pt, a, base, extra);
          TurnedTrans(m, g, Now(), pt, Range(0, lo), extra, Range(0, k), extra, Range(0, lo), extra);
          return 0;
        }
        a, k := (a + PGSIZE) % WORD, k + 1;
      }
      GrowingFacts(m, Now(), pt, lo, k, extra, flags);
      assert k == hi || newsz <= base;
      r := newsz;
    }

    /** One round of uvmalloc. */
    method GrowPage(pt: nat, k: nat, xperm: set<Flag>, ghost extra: set<nat>, ghost m: Mem, ghost lo: nat)
      returns (ok: bool)
      requires Valid() && lo <= k <= NPAGES && Growing(m, Now(), pt, lo, k, extra, LeafFlags({R, U} + xperm))
      requires extra <= {TRAMPOLINE, TRAPFRAME} && pt in m.tables
      modifies this
      ensures Valid() && (!ok ==> Now() == old(Now()) && |m.free| < Need(m, pt, lo, k + 1))
      ensures ok ==> k < NPAGES && Growing(m, Now(), pt, lo, k + 1, extra, LeafFlags({R, U} + xperm))
    {
      hide Turned, Space, Wf, All, Leaf, Moved, Range, Reaches, HasPage, Need, Paid, AllZero;
      ghost var g := Now();
      PaidCost(m, g, pt, lo, k);
      PaidFree(m, g, pt, lo, k);
      RangesNest(lo, k);
      ok := AddPage(pt, k, Filled(0), {R, U} + xperm, extra);
      if ok {
        PaidStep(m, g, Now(), pt, lo, k, Filled(0));
        AllZeroStep(g, Now(), pt, extra, lo, k, LeafFlags({R, U} + xperm));
        TurnedTrans(m, g, Now(), pt, Range(0, lo), extra, Range(0, k), extra, Range(0, k + 1), extra);
        TurnedFacts(m, Now(), pt, Range(0, lo), extra, Range(0, k + 1), extra);
        FewPages(Now(), pt, k + 1, extra);
      }
    }

    /** uvmcopy: a page-by-page copy, flags included, exactly when memory reaches; else nothing stays mapped. */
    method Uvmcopy(old_: nat, new_: nat, sz: nat, ghost xo: set<nat>, ghost xn: set<nat>) returns (ok: bool)
      requires Valid() && Space(Now(), old_, Range(0, Pages(sz)), xo) && Space(Now(), new_, {}, xn) && sz < WORD
      requires Owned(Now(), old_, Range(0, Pages(sz))) !! Owned(Now(), new_, {}) && xn <= {TRAMPOLINE, TRAPFRAME}
      modifies this
      ensures Valid() && new_ in old(tables)
      ensures ok <==> |old(free)| >= Need(old(Now()), new_, 0, Pages(sz))
      ensures Turned(old(Now()), Now(), new_, {}, xn, if ok then Range(0, Pages(sz)) else {}, xn)
      ensures ok ==> Rooted(Now(), new_) && CopyOf(old(Now()), Now(), old_, new_, Pages(sz))
    {
      hide Turned, Space, Wf, All, Leaf, Moved, Range, Reaches, HasPage, Need, Paid, CopyOf, Owned;
      ghost var m, n := Now(), Pages(sz);
      SpaceRooted(m, old_, Range(0, n), xo);
      SpaceRooted(m, new_, {}, xn);
      TurnedRefl(m, new_, {}, xn);
      PaidNone(m, new_, 0, {});
      FewPages(m, old_, n, xo);
      assert Range(0, 0) == {} by { EmptyRange(); }
      assert CopyOf(m, m, old_, new_, 0) by { CopyNone(m, old_, new_); }
      var i := 0;
      while i < sz
        invariant i % PGSIZE == 0 && i / PGSIZE <= n && Valid()
        invariant Rooted(Now(), new_) && Space(Now(), new_, Range(0, i / PGSIZE), xn)
        invariant Turned(m, Now(), new_, {}, xn, Range(0, i / PGSIZE), xn)
        invariant Paid(m, Now(), new_, 0, i / PGSIZE) && CopyOf(m, Now(), old_, new_, i / PGSIZE)
      {
        ghost var g := Now();
        var k := i / PGSIZE;
        PaidCost(m, g, new_, 0, k);
        NeedMono(m, new_, 0, k + 1, n);
        PaidFree(m, g, new_, 0, k);
        CopySource(m, g, old_, new_, n, k, xo, xn);
        var t := Walk(old_, k, false);
        var e := tables[t.value][k % NPTE];
        ok := AddPage(new_, k, pages[e.ppn], e.flags, xn);
        if !ok {
          RangeCut(0, k);
          Uvmunmap(new_, 0, k, true, Range(0, k), xn);
          TurnedTrans(m, g, Now(), new_, {}, xn, Range(0, k), xn, {}, xn);
          return;
        }
        PaidStep(m, g, Now(), new_, 0, k, g.pages[e.ppn]);
        CopyStep(m, g, Now(), old_, new_, xn, k);
        TurnedTrans(m, g, Now(), new_, {}, xn, Range(0, k), xn, Range(0, k + 1), xn);
        TurnedFacts(m, Now(), new_, {}, xn, Range(0, k + 1), xn);
        i := i + PGSIZE;
      }
      PaidFree(m, Now(), new_, 0, n);
      ok := true;
    }

    /** freewalk of a table with no leaves; `level` is its height. */
    method Freewalk(pt: nat, ghost level: nat)
      requires Valid() && level <= 1
      requires level == 0 ==> pt in tables && forall k :: 0 <= k < NPTE ==> !tables[pt][k].Valid()
      requires level == 1 ==> Space(Now(), pt, {}, {})
      modifies this
      ensures Valid()
      ensures level == 0 ==> Now() == PageTable.Kfree(old(Now()), pt)
      ensures level == 1 ==> pt in old(tables) && Moved(old(Now()), Now(), Tables(old(Now()), pt), {})
      decreases level
    {
      hide Moved, Wf, All, Leaf, Tables;
      ghost var m := Now();
      if level == 1 {
        SpaceRooted(m, pt, {}, {});
        MovedRefl(m, pt);
      }
      for i := 0 to NPTE
        invariant Valid() && (level == 0 ==> Now() == m)
        invariant level == 1 ==> Space(Now(), pt, {}, {}) && Moved(m, Now(), Tables(m, pt), Tables(Now(), pt))
        invariant pt in tables && forall k :: 0 <= k < i ==> !tables[pt][k].Valid()
      {
        ghost var g := Now();
        var e := tables[pt][i];
        if e.Valid() && e.Inner() {
          DropTable(g, pt, i);
          Freewalk(e.ppn, 0);
          tables := tables[pt := tables[pt][i := Null]];
          MovedTrans(m, g, Now(), Tables(m, pt), Tables(g, pt), Tables(Now(), pt));
          MovedWf(g, Now(), Tables(g, pt), Tables(Now(), pt));
        } else {
          assert !e.Valid();
        }
      }
      ghost var g := Now();
      BareRoot(g, pt);
      Kfree(pt);
      if level == 1 { MovedTrans(m, g, Now(), Tables(m, pt), {pt}, {}); }
    }

    /** uvmfree: every page the space owns goes back to the free list. */
    method Uvmfree(pt: nat, sz: nat)
      requires Valid() && Space(Now(), pt, Range(0, Pages(sz)), {}) && sz < WORD
      modifies this
      ensures Valid() && Rooted(old(Now()), pt)
      ensures Moved(old(Now()), Now(), Owned(old(Now()), pt, Range(0, Pages(sz))), {})
    {
      hide Moved, Wf, All, Leaf, Tables, Range;
      ghost var m, user := Now(), Range(0, Pages(sz));
      SpaceRooted(m, pt, user, {});
      FewPages(m, pt, Pages(sz), {});
      EmptyRange();
      if sz > 0 {
        RangeCut(0, Pages(sz));
        Uvmunmap(pt, 0, RoundUp(sz) / PGSIZE, true, user, {});
      } else {
        TurnedRefl(m, pt, user, {});
      }
      ghost var g := Now();
      assert Owned(g, pt, {}) == Tables(g, pt);
      Freewalk(pt, 1);
      MovedTrans(m, g, Now(), Owned(m, pt, user), Tables(g, pt), {});
    }

    method Uvmclear(pt: nat, v: nat, ghost user: set<nat>, ghost extra: set<nat>)
      requires Valid() && Space(Now(), pt, user, extra) && v in user
      modifies this
      ensures Valid() && Guarded(old(Now()), Now(), pt, user, extra, v)
    {
      hide Space, Wf, All, Leaf;
      MappedPage(Now(), pt, user, extra, v);
      ClearUser(Now(), pt, user, extra, v);
      ghost var m := Now();
      var t := Walk(pt, v, false);
      var e := tables[t.value][v % NPTE];
      tables := tables[t.value := tables[t.value][v % NPTE := e.(flags := e.flags - {U})]];
      MovedWf(m, Now(), Owned(m, pt, user), Owned(Now(), pt, user));
    }

    /** uvmcreate: an empty table. */
    method Uvmcreate() returns (pt: Option<nat>)
      requires Valid()
      modifies this
      ensures Valid()
      ensures pt.None? ==> Now() == old(Now()) && free == []
      ensures pt.Some? ==> old(free) != [] && pt.value == old(free)[0] && Now() == AllocTable(old(Now()))
    {
      hide Wf, All;
      ghost var m := Now();
      pt := Kalloc();
      if pt.Some? {
        tables, pages := tables[pt.value := Empty()], pages - {pt.value};
        FreshPage(m);
        AllocTableOk(m, {});
        assert Now() == AllocTable(m);
        MovedWf(m, Now(), {}, {} + {m.free[0]});
      }
    }

    /** proc_freepagetable: with no leaf, table or user page left behind. */
    method ProcFreepagetable(pt: nat, sz: nat)
      requires Valid() && Space(Now(), pt, Range(0, Pages(sz)), {TRAMPOLINE, TRAPFRAME}) && sz < WORD
      modifies this
      ensures Valid() && Rooted(old(Now()), pt)
      ensures Moved(old(Now()), Now(), Owned(old(Now()), pt, Range(0, Pages(sz))), {})
    {
      hide Space, Moved, Wf, All, Leaf, Range, Owned, Kept;
      ghost var m, user := Now(), Range(0, Pages(sz));
      SpaceRooted(m, pt, user, {TRAMPOLINE, TRAPFRAME});
      OneRange(TRAMPOLINE);
      OneRange(TRAPFRAME);
      Uvmunmap(pt, TRAMPOLINE, 1, false, user, {TRAMPOLINE, TRAPFRAME});
      ghost var g := Now();
      assert {TRAMPOLINE, TRAPFRAME} - {TRAMPOLINE} == {TRAPFRAME};
      Uvmunmap(pt, TRAPFRAME, 1, false, user, {TRAPFRAME});
      assert {TRAPFRAME} - {TRAPFRAME} == {};
      ghost var h := Now();
      SpaceRooted(g, pt, user, {TRAPFRAME});
      SpaceRooted(h, pt, user, {});
      MovedTrans(m, g, h, Owned(m, pt, user), Owned(g, pt, user), Owned(h, pt, user));
      Uvmfree(pt, sz);
      MovedTrans(m, h, Now(), Owned(m, pt, user), Owned(h, pt, user), {});
    }

    /** proc_pagetable: only the trampoline and the trapframe, at the cost of two pages; or nothing. */
    method ProcPagetable(trampoline: nat, tf: nat) returns (pt: Option<nat>)
      requires Valid()
      modifies this
      ensures Valid() && (pt.Some? <==> |old(free)| >= 2)
      ensures pt.None? ==> Moved(old(Now()), Now(), {}, {})
      ensures pt.Some? ==> && Space(Now(), pt.value, {}, {TRAMPOLINE, TRAPFRAME})
                           && Moved(old(Now()), Now(), {}, Owned(Now(), pt.value, {}))
                           && Leaf(Now(), pt.value, TRAMPOLINE) == Pte(trampoline, LeafFlags({R, X}))
                           && Leaf(Now(), pt.value, TRAPFRAME) == Pte(tf, LeafFlags({R, W}))
                           && TopOnly(Now(), pt.value) && |free| + 2 == |old(free)|
    {
      hide Space, Moved, Wf, All, Leaf, Owned, Tables, Reaches;
      ghost var m := Now();
      MovedNone(m);
      pt := Uvmcreate();
      if pt.None? { return; }
      FreshTable(m);
      ghost var g := Now();
      SpaceRooted(g, pt.value, {}, {});
      NoLeaf(g, pt.value, {}, {}, TRAMPOLINE);
      var ok := Mappages(pt.value, TRAMPOLINE, trampoline, {R, X});
      if !ok {
        EmptyRange();
        Uvmfree(pt.value, 0);
        MovedTrans(m, g, Now(), {}, {pt.value}, {});
        return None;
      }
      ghost var h := Now();
      AddExtra(g, h, pt.value, {}, {}, TRAMPOLINE, trampoline, {R, X});
      TopTable(g, h, pt.value);
      MovedTrans(m, g, h, {}, {pt.value}, Owned(h, pt.value, {}));
      NoLeaf(h, pt.value, {}, {} + {TRAMPOLINE}, TRAPFRAME);
      ok := Mappages(pt.value, TRAPFRAME, tf, {R, W});
      assert ok; // the table of the trampoline serves both pages
      AddExtra(h, Now(), pt.value, {}, {} + {TRAMPOLINE}, TRAPFRAME, tf, {R, W});
      assert {} + {TRAMPOLINE} + {TRAPFRAME} == {TRAMPOLINE, TRAPFRAME};
      TopKept(h, Now(), pt.value);
      MovedTrans(m, h, Now(), {}, Owned(h, pt.value, {}), Owned(Now(), pt.value, {}));
    }

    /** walkaddr: the frame of a user page. */
    method Walkaddr(pt: nat, a: nat) returns (p: Option<nat>)
      requires Valid() && Rooted(Now(), pt) && a < WORD
      modifies this
      ensures Now() == old(Now())
      ensures p == if Readable(Now(), pt, a) then Some(Leaf(Now(), pt, a / PGSIZE).ppn) else None
    {
      var t := Walk(pt, a / PGSIZE, false);
      if t.None? { return None; }
      var e := tables[t.value][a / PGSIZE % NPTE];
      if !e.Valid() { return None; }
      if U !in e.flags { return None; }
      p := Some(e.ppn);
    }

    /** copyin: all of the bytes, or a failure because one of them cannot be read. */
    method Copyin(pt: nat, srcva: nat, len: nat, ghost user: set<nat>, ghost extra: set<nat>)
      returns (dst: Option<seq<Byte>>)
      requires Valid() && UserOnly(Now(), pt, user, extra) && srcva < WORD
      modifies this
      ensures Now() == old(Now()) && Rooted(Now(), pt)
      ensures dst.Some? ==> |dst.value| == len && Holds(Now(), pt, srcva, dst.value)
      ensures dst.None? ==> exists i :: 0 <= i < len && !Readable(Now(), pt, Addr(srcva, i))
    {
      hide Leaf, Wf, All, Space, Readable, Holds;
      SpaceRooted(Now(), pt, user, extra);
      HoldsNothing(Now(), pt, srcva);
      var got: seq<Byte> := [];
      var va, left := srcva, len;
      while left > 0
        invariant 0 <= left && |got| + left == len && Now() == old(Now()) && va < WORD
        invariant left > 0 ==> va == Addr(srcva, |got|)
        invariant Holds(Now(), pt, srcva, got)
      {
        var va0 := va - va % PGSIZE;
        var pa0 := Walkaddr(pt, va0);
        SamePage(Now(), pt, va);
        if pa0.None? { return None; }
        var n := PGSIZE - (va - va0);
        if n > left { n := left; }
        HoldsMore(Now(), pt, user, extra, srcva, got, n);
        NextPage(srcva, |got|);
        got := got + pages[pa0.value][va - va0..va - va0 + n];
        left := left - n;
        va := (va0 + PGSIZE) % WORD;
      }
      dst := Some(got);
    }

    /** The inner loop of copyinstr: up to the NUL, or the whole piece. */
    static method CopyPiece(p: Page, off: nat, n: nat) returns (piece: seq<Byte>, found: bool)
      requires off + n <= PGSIZE
      ensures |piece| <= n && piece == p[off..off + |piece|]
      ensures found ==> Terminated(piece)
      ensures !found ==> |piece| == n && NoNul(piece)
    {
      piece := [];
      var i := 0;
      while i < n
        invariant 0 <= i <= n && piece == p[off..off + i] && NoNul(piece)
      {
        piece := piece + [p[off + i]];
        assert piece == p[off..off + (i + 1)];
        if p[off + i] == 0 { return piece, true; }
        i := i + 1;
      }
      found := false;
    }

    /** copyinstr: the terminated string of at most `max` bytes, whenever there is one. */
    method Copyinstr(pt: nat, srcva: nat, max: nat, ghost user: set<nat>, ghost extra: set<nat>)
      returns (dst: Option<seq<Byte>>)
      requires Valid() && UserOnly(Now(), pt, user, extra) && srcva < WORD
      modifies this
      ensures Now() == old(Now()) && Rooted(Now(), pt)
      ensures dst.Some? ==> Terminated(dst.value) && |dst.value| <= max && Holds(Now(), pt, srcva, dst.value)
      ensures dst.None? ==> NoString(Now(), pt, srcva, max)
    {
      hide Leaf, Wf, All, Space, Readable, Holds, NoString;
      SpaceRooted(Now(), pt, user, extra);
      HoldsNothing(Now(), pt, srcva);
      var got: seq<Byte> := [];
      var va, left := srcva, max;
      while left > 0
        invariant 0 <= left && |got| + left == max && Now() == old(Now()) && va < WORD
        invariant left > 0 ==> va == Addr(srcva, |got|)
        invariant Holds(Now(), pt, srcva, got) && NoNul(got)
      {
        var va0 := va - va % PGSIZE;
        var pa0 := Walkaddr(pt, va0);
        SamePage(Now(), pt, va);
        if pa0.None? {
          Stuck(Now(), pt, srcva, max, got);
          return None;
        }
        var n := PGSIZE - (va - va0);
        if n > left { n := left; }
        NextPage(srcva, |got|);
        HoldsMore(Now(), pt, user, extra, srcva, got, 0);
        var piece, found := CopyPiece(pages[pa0.value], va - va0, n);
        HoldsMore(Now(), pt, user, extra, srcva, got, |piece|);
        got := got + piece;
        if found { return Some(got); }
        left := left - n;
        va := (va0 + PGSIZE) % WORD;
      }
      Stuck(Now(), pt, srcva, max, got);
      dst := None;
    }

    /** copyout: the bytes before the first that cannot be reached, which is all of them on success. */
    method Copyout(pt: nat, dstva: nat, src: seq<Byte>, ghost user: set<nat>, ghost extra: set<nat>)
      returns (ok: bool, ghost done: nat)
      requires Valid() && UserOnly(Now(), pt, user, extra) && dstva < WORD && |src| < WORD
      modifies this
      ensures Valid() && done <= |src| && Wrote(old(Now()), Now(), pt, user, extra, dstva, src[..done])
      ensures ok <==> done == |src|
      ensures !ok ==> Rooted(old(Now()), pt) && !Readable(old(Now()), pt, Addr(dstva, done))
    {
      hide Leaf, Wf, All, Space, Readable, Holds, Wrote;
      ghost var m := Now();
      SpaceRooted(m, pt, user, extra);
      WroteNothing(m, pt, user, extra, dstva);
      var va, left := dstva, |src|;
      done := 0;
      assert src[..0] == [];
      while left > 0
        invariant 0 <= left && done + left == |src| && va < WORD && Valid()
        invariant left > 0 ==> va == Addr(dstva, done)
        invariant Wrote(m, Now(), pt, user, extra, dstva, src[..done])
      {
        var va0 := va - va % PGSIZE;
        WroteFacts(m, Now(), pt, user, extra, dstva, src[..done], va);
        var pa0 := Walkaddr(pt, va0);
        SamePage(Now(), pt, va);
        if pa0.None? { return false, done; }
        var n := PGSIZE - (va - va0);
        if n > left { n := left; }
        var from := |src| - left;
        WroteMore(m, Now(), pt, user, extra, dstva, src[..done], src[from..from + n]);
        NextPage(dstva, done);
        pages := pages[pa0.value := Splice(pages[pa0.value], va - va0, src[from..from + n])];
        assert src[..done] + src[from..from + n] == src[..done + n];
        done, left := done + n, left - n;
        va := (va0 + PGSIZE) % WORD;
      }
      ok := true;
    }

    /** loadseg: `data` is what the file holds from the segment's offset on. No page is missing. */
    method Loadseg(pt: nat, va: nat, data: seq<Byte>, sz: nat, ghost user: set<nat>, ghost extra: set<nat>)
      returns (ok: bool)
      requires Valid() && UserOnly(Now(), pt, user, extra) && va % PGSIZE == 0 && va + sz < WORD
      requires Rooted(Now(), pt) && forall i :: 0 <= i < sz ==> Readable(Now(), pt, Addr(va, i))
      modifies this
      ensures Valid() && (ok <==> |data| >= sz)
      ensures Wrote(old(Now()), Now(), pt, user, extra, va, data[..if ok then sz else |data|])
    {
      hide Leaf, Wf, All, Space, Readable, Holds, Wrote;
      ghost var m := Now();
      WroteNothing(m, pt, user, extra, va);
      assert data[..0] == [];
      var i := 0;
      while i < sz
        invariant i % PGSIZE == 0 && Valid()
        invariant (if i < sz then i else sz) <= |data|
        invariant Wrote(m, Now(), pt, user, extra, va, data[..if i < sz then i else sz])
      {
        WroteFacts(m, Now(), pt, user, extra, va, data[..i], va + i);
        assert Addr(va, i) == va + i;
        var pa := Walkaddr(pt, va + i);
        assert pa.Some?;
        var n := if sz - i < PGSIZE then sz - i else PGSIZE;
        var got := if |data| - i < n then |data| - i else n;
        assert (va + i) % PGSIZE == 0;
        WroteMore(m, Now(), pt, user, extra, va, data[..i], data[i..i + got]);
        pages := pages[pa.value := Splice(pages[pa.value], 0, data[i..i + got])];
        assert data[..i] + data[i..i + got] == data[..i + got];
        if got != n { return false; }
        i := i + PGSIZE;
      }
      ok := true;
    }
  }
}
