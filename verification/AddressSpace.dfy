/** What each step of kernel/vm.c does to an address space: the pages it maps, the pages it owns,
    the free pages it costs, and everything that stays as it was. */
module AddressSpace {
  import opened Collections
  import opened PageTable

  const NPAGES := 4096                   // (PHYSTOP - KERNBASE) / PGSIZE
  const WORD := 0x1_0000_0000            // uint32

  function RoundUp(a: nat): (r: nat) {
    (a + PGSIZE - 1) % WORD / PGSIZE * PGSIZE
  }

  function Pages(sz: nat): (n: nat) {
    (sz + PGSIZE - 1) / PGSIZE
  }

  predicate Within(v: nat, lo: nat, hi: nat) {
    lo <= v < hi
  }

  function Range(lo: nat, hi: nat): (s: set<nat>) {
    set v: nat | v < hi && Within(v, lo, hi)
  }

  lemma MovedFrame(m: Mem, r: Mem, f: set<nat>, g: set<nat>, h: set<nat>)
    requires Moved(m, r, f, g) && h <= Used(m) && h !! f
    ensures Moved(m, r, f + h, g + h)
  {
  }

  lemma MovedRefl(m: Mem, pt: nat)
    requires Wf(m) && Rooted(m, pt)
    ensures Moved(m, m, Tables(m, pt), Tables(m, pt))
  {
  }

  lemma MovedWf(m: Mem, r: Mem, f: set<nat>, g: set<nat>)
    requires Moved(m, r, f, g)
    ensures Wf(r) && All(r) == All(m)
  {
  }

  lemma WalkFound(m: Mem, pt: nat, v: nat)
    requires Wf(m) && Rooted(m, pt) && v < NVPN
    ensures var e := m.tables[pt][v / NPTE];
            && (e.Valid() ==> Walked(m, m, pt, v, Some(e.ppn)))
            && (!e.Valid() && m.free == [] ==> Walked(m, m, pt, v, None))
  {
  }

  lemma WalkedWf(m: Mem, r: Mem, pt: nat, v: nat, t: Option<nat>)
    requires Rooted(m, pt) && v < NVPN && Walked(m, r, pt, v, t)
    ensures Wf(r) && All(r) == All(m)
  {
  }

  lemma FreshPage(m: Mem)
    requires Wf(m) && m.free != []
    ensures m.free[0] !in m.pages && m.free[0] !in m.tables
  {
  }

  lemma SameTargets(m: Mem, r: Mem, pt: nat, vs: set<nat>)
    requires Rooted(m, pt) && Rooted(r, pt)
    requires forall v :: v in vs && v < NVPN ==> Leaf(r, pt, v) == Leaf(m, pt, v)
    ensures Targets(r, pt, vs) == Targets(m, pt, vs)
  {
    hide Leaf, Rooted;
  }

  lemma TargetsAdd(m: Mem, pt: nat, vs: set<nat>, v: nat)
    requires Rooted(m, pt) && v < NVPN
    ensures Targets(m, pt, vs + {v}) == Targets(m, pt, vs) + {Leaf(m, pt, v).ppn}
  {
    hide Leaf, Rooted;
  }

  /** Mapping one more page, to a data page the space does not have. */
  lemma MapUser(m: Mem, r: Mem, pt: nat, user: set<nat>, extra: set<nat>, v: nat)
    requires Space(m, pt, user, extra) && v < NVPN && v !in user && v !in extra
    requires Rooted(r, pt) && SameLeaves(m, r, pt, {v}) && m.pages.Keys <= r.pages.Keys
    requires var e := Leaf(r, pt, v);
             e.ppn in r.pages && e.ppn !in Targets(m, pt, user) && LeafFlags(e.flags) == e.flags
    ensures Space(r, pt, user + {v}, extra)
    ensures Targets(r, pt, user + {v}) == Targets(m, pt, user) + {Leaf(r, pt, v).ppn}
  {
    hide Leaf, Rooted;
    assert forall u :: u in user ==> Leaf(r, pt, u).ppn in Targets(m, pt, user);
    assert V in LeafFlags(Leaf(r, pt, v).flags);
    SameTargets(m, r, pt, user);
    TargetsAdd(r, pt, user, v);
  }

  lemma UnmapUser(m: Mem, r: Mem, pt: nat, user: set<nat>, extra: set<nat>, v: nat)
    requires Space(m, pt, user, extra) && v in user
    requires Rooted(r, pt) && SameLeaves(m, r, pt, {v}) && Leaf(r, pt, v) == Null
    requires m.pages.Keys - {Leaf(m, pt, v).ppn} <= r.pages.Keys
    ensures Space(r, pt, user - {v}, extra)
    ensures Targets(r, pt, user - {v}) == Targets(m, pt, user) - {Leaf(m, pt, v).ppn}
  {
    assert forall u :: u in user - {v} ==> Leaf(r, pt, u).ppn == Leaf(m, pt, u).ppn;
  }

  /** Distinct pages of a space are distinct frames, so memory bounds their number. */
  lemma {:induction false} UserBound(m: Mem, pt: nat, user: set<nat>, extra: set<nat>)
    requires Space(m, pt, user, extra)
    ensures |user| == |Targets(m, pt, user)| && Targets(m, pt, user) <= m.pages.Keys
    decreases user
  {
    if user == {} {
      assert Targets(m, pt, user) == {};
    } else {
      var v :| v in user;
      Counted(m, pt, user, v);
    }
  }

  lemma {:induction false} Counted(m: Mem, pt: nat, user: set<nat>, v: nat)
    requires Rooted(m, pt) && v in user && (forall u :: u in user ==> u < NVPN)
    requires forall u, w :: u in user && w in user && u != w ==> Leaf(m, pt, u).ppn != Leaf(m, pt, w).ppn
    ensures |user| == |Targets(m, pt, user)|
    decreases user
  {
    var rest := user - {v};
    assert Targets(m, pt, user) == Targets(m, pt, rest) + {Leaf(m, pt, v).ppn};
    if rest != {} {
      var w :| w in rest;
      Counted(m, pt, rest, w);
    } else {
      assert Targets(m, pt, rest) == {};
    }
  }

  /** The space went from mapping `u0` and `x0` to mapping `u1` and `x1`: what it had and still
      has is unchanged, and so is everything that belongs to others. */
  ghost predicate Turned(m: Mem, r: Mem, pt: nat, u0: set<nat>, x0: set<nat>, u1: set<nat>, x1: set<nat>) {
    && Space(m, pt, u0, x0) && Space(r, pt, u1, x1)
    && Moved(m, r, Owned(m, pt, u0), Owned(r, pt, u1))
    && Kept(m, r, pt, u0 * u1, x0 * x1)
  }

  lemma TurnedIntro(m: Mem, r: Mem, pt: nat, u0: set<nat>, x0: set<nat>, u1: set<nat>, x1: set<nat>)
    requires Space(m, pt, u0, x0) && Space(r, pt, u1, x1)
    requires Moved(m, r, Owned(m, pt, u0), Owned(r, pt, u1))
    requires exists u, x :: u0 * u1 <= u && x0 * x1 <= x && Kept(m, r, pt, u, x)
    ensures Turned(m, r, pt, u0, x0, u1, x1)
  {
  }

  lemma TurnedTrans(m: Mem, g: Mem, r: Mem, pt: nat, u0: set<nat>, x0: set<nat>, u1: set<nat>, x1: set<nat>,
                    u2: set<nat>, x2: set<nat>)
    requires Turned(m, g, pt, u0, x0, u1, x1) && Turned(g, r, pt, u1, x1, u2, x2)
    requires u0 * u2 <= u1 && x0 * x2 <= x1
    ensures Turned(m, r, pt, u0, x0, u2, x2)
  {
    hide Moved, Space, Leaf, Owned;
    MovedTrans(m, g, r, Owned(m, pt, u0), Owned(g, pt, u1), Owned(r, pt, u2));
  }

  /** Page `v` is mapped with these flags to a frame with these contents. */
  ghost predicate HasPage(m: Mem, pt: nat, v: nat, flags: set<Flag>, data: Page)
    requires Rooted(m, pt) && v < NVPN
  {
    var e := Leaf(m, pt, v);
    e.flags == flags && e.ppn in m.pages && m.pages[e.ppn] == data
  }

  /** mappages of one page: the new entry, or nothing at all when a table cannot be had. */
  ghost predicate Mapped(m: Mem, r: Mem, pt: nat, v: nat, e: Pte, ok: bool)
    requires Rooted(m, pt) && v < NVPN
  {
    && Rooted(r, pt) && Moved(m, r, Tables(m, pt), Tables(r, pt)) && r.pages == m.pages
    && (ok ==> Leaf(r, pt, v) == e && SameLeaves(m, r, pt, {v}) && Reaches(m, r, pt, v))
    && (!ok ==> r == m && |m.free| < TableCost(m, pt, v))
  }

  lemma MappedOk(m: Mem, g: Mem, pt: nat, v: nat, t: Option<nat>, e: Pte)
    requires Wf(m) && Rooted(m, pt) && v < NVPN && Walked(m, g, pt, v, t)
    ensures t.None? ==> g == m && Mapped(m, m, pt, v, e, false)
    ensures t.Some? ==> t.value in g.tables && Mapped(m, SetEntry(g, t.value, v % NPTE, e), pt, v, e, true)
  {
    hide Leaf, Wf, All;
    if t.Some? {
      var r := SetEntry(g, t.value, v % NPTE, e);
      WalkedWf(m, g, pt, v, t);
      SetLeaf(g, pt, v, e);
      MovedTrans(m, g, r, Tables(m, pt), Tables(g, pt), Tables(r, pt));
    }
  }

  lemma MappedWf(m: Mem, r: Mem, pt: nat, v: nat, e: Pte, ok: bool)
    requires Rooted(m, pt) && v < NVPN && Mapped(m, r, pt, v, e, ok)
    ensures Wf(r) && All(r) == All(m)
  {
  }

  /** One more user page: what uvmalloc and uvmcopy do in each round. */
  lemma AddUser(m: Mem, r: Mem, pt: nat, user: set<nat>, extra: set<nat>, v: nat, data: Page, flags: set<Flag>)
    requires Wf(m) && Space(m, pt, user, extra) && v < NVPN && v !in user && v !in extra
    requires m.free != [] && Rooted(AllocPage(m, data), pt) && LeafFlags(flags) == flags
    requires Mapped(AllocPage(m, data), r, pt, v, Pte(m.free[0], flags), true)
    ensures Turned(m, r, pt, user, extra, user + {v}, extra)
    ensures HasPage(r, pt, v, flags, data)
  {
    hide Space, Leaf, Wf, All, Turned;
    AddMapped(m, r, pt, user, extra, v, data, flags);
    TurnedIntro(m, r, pt, user, extra, user + {v}, extra);
  }

  lemma AddMapped(m: Mem, r: Mem, pt: nat, user: set<nat>, extra: set<nat>, v: nat, data: Page, flags: set<Flag>)
    requires Wf(m) && Space(m, pt, user, extra) && v < NVPN && v !in user && v !in extra
    requires m.free != [] && Rooted(AllocPage(m, data), pt) && LeafFlags(flags) == flags
    requires Mapped(AllocPage(m, data), r, pt, v, Pte(m.free[0], flags), true)
    ensures Space(r, pt, user + {v}, extra) && HasPage(r, pt, v, flags, data) && Kept(m, r, pt, user, extra)
    ensures Moved(m, r, Owned(m, pt, user), Owned(r, pt, user + {v}))
  {
    hide Moved, Wf, All, Tables;
    var g := AllocPage(m, data);
    FreshPage(m);
    assert SameLeaves(m, g, pt, {});
    MapUser(m, r, pt, user, extra, v);
    AddMoved(m, r, pt, user, extra, v, data);
  }

  lemma AddMoved(m: Mem, r: Mem, pt: nat, user: set<nat>, extra: set<nat>, v: nat, data: Page)
    requires Wf(m) && Space(m, pt, user, extra) && m.free != [] && Rooted(AllocPage(m, data), pt) && Rooted(r, pt)
    requires Moved(AllocPage(m, data), r, Tables(AllocPage(m, data), pt), Tables(r, pt))
    requires Targets(r, pt, user + {v}) == Targets(m, pt, user) + {m.free[0]}
    ensures Moved(m, r, Owned(m, pt, user), Owned(r, pt, user + {v}))
  {
    hide Moved, Wf, All, Space, Targets;
    var g, p := AllocPage(m, data), m.free[0];
    FreshPage(m);
    SpaceRooted(m, pt, user, extra);
    OwnedUsed(m, pt, user, extra);
    AllocPageOk(m, Owned(m, pt, user), data);
    Separate(m);
    MovedFrame(g, r, Tables(g, pt), Tables(r, pt), Targets(m, pt, user) + {p});
    assert Tables(g, pt) + (Targets(m, pt, user) + {p}) == Owned(m, pt, user) + {p};
    assert Tables(r, pt) + (Targets(m, pt, user) + {p}) == Owned(r, pt, user + {v});
    MovedTrans(m, g, r, Owned(m, pt, user), Owned(m, pt, user) + {p}, Owned(r, pt, user + {v}));
  }

  lemma Separate(m: Mem)
    requires Wf(m)
    ensures m.tables.Keys !! m.pages.Keys
  {
  }

  lemma OwnedUsed(m: Mem, pt: nat, user: set<nat>, extra: set<nat>)
    requires Space(m, pt, user, extra)
    ensures Tables(m, pt) <= m.tables.Keys && Targets(m, pt, user) <= m.pages.Keys
    ensures Owned(m, pt, user) <= Used(m)
  {
  }

  ghost function Dropped(m: Mem, pt: nat, v: nat): (r: Mem)
    requires Rooted(m, pt) && v < NVPN && m.tables[pt][v / NPTE].Valid()
    requires Leaf(m, pt, v).ppn !in m.tables
  {
    SetEntry(Kfree(m, Leaf(m, pt, v).ppn), m.tables[pt][v / NPTE].ppn, v % NPTE, Null)
  }

  /** One user page less: what uvmunmap does in each round. */
  lemma DropUser(m: Mem, pt: nat, user: set<nat>, extra: set<nat>, v: nat)
    requires Wf(m) && Space(m, pt, user, extra) && v in user
    ensures m.tables[pt][v / NPTE].Valid() && Leaf(m, pt, v).ppn !in m.tables
    ensures Turned(m, Dropped(m, pt, v), pt, user, extra, user - {v}, extra)
  {
    hide Moved, Wf, All;
    var p := Leaf(m, pt, v).ppn;
    var g := Kfree(m, p);
    assert Leaf(m, pt, v).Valid();
    Apart(m, p);
    assert g.tables == m.tables;
    assert SameLeaves(m, g, pt, {});
    OwnedUsed(m, pt, user, extra);
    KfreeOk(m, Owned(m, pt, user), p);
    MovedWf(m, g, Owned(m, pt, user), Owned(m, pt, user) - {p});
    SetLeaf(g, pt, v, Null);
    var r := Dropped(m, pt, v);
    UnmapUser(m, r, pt, user, extra, v);
    DropMoved(m, g, r, pt, user, extra, v);
    DropKept(m, g, r, pt, user, extra, v);
  }

  lemma Apart(m: Mem, p: nat)
    requires Wf(m) && p in m.pages
    ensures p !in m.tables && m.tables.Keys !! m.pages.Keys
  {
  }

  lemma DropKept(m: Mem, g: Mem, r: Mem, pt: nat, user: set<nat>, extra: set<nat>, v: nat)
    requires Space(m, pt, user, extra) && v in user && g == Kfree(m, Leaf(m, pt, v).ppn)
    requires Rooted(r, pt) && SameLeaves(m, r, pt, {v}) && r.pages == g.pages
    ensures Kept(m, r, pt, user - {v}, extra)
  {
  }

  lemma DropMoved(m: Mem, g: Mem, r: Mem, pt: nat, user: set<nat>, extra: set<nat>, v: nat)
    requires m.tables.Keys !! m.pages.Keys
    requires Space(m, pt, user, extra) && v in user && Rooted(g, pt) && Rooted(r, pt)
    requires g.tables == m.tables && Tables(r, pt) == Tables(g, pt) && r.pages == g.pages
      && g.pages.Keys == m.pages.Keys - {Leaf(m, pt, v).ppn}
    requires Targets(r, pt, user - {v}) == Targets(m, pt, user) - {Leaf(m, pt, v).ppn}
    requires Moved(m, g, Owned(m, pt, user), Owned(m, pt, user) - {Leaf(m, pt, v).ppn})
    requires Moved(g, r, Tables(g, pt), Tables(g, pt))
    ensures Moved(m, r, Owned(m, pt, user), Owned(r, pt, user - {v}))
  {
    hide Moved, Leaf;
    var p := Leaf(m, pt, v).ppn;
    OwnedUsed(m, pt, user, extra);
    var u := Targets(m, pt, user) - {p};
    assert Tables(g, pt) == Tables(m, pt);
    MovedFrame(g, r, Tables(g, pt), Tables(g, pt), u);
    assert Tables(g, pt) + u == Owned(m, pt, user) - {p};
    assert Tables(r, pt) + u == Owned(r, pt, user - {v});
    MovedTrans(m, g, r, Owned(m, pt, user), Owned(m, pt, user) - {p}, Owned(r, pt, user - {v}));
  }

  /** The trampoline or the trapframe: the entry comes and goes, the frame stays. */
  lemma AddExtra(m: Mem, r: Mem, pt: nat, user: set<nat>, extra: set<nat>, v: nat, ppn: nat, perm: set<Flag>)
    requires Space(m, pt, user, extra) && v < NVPN && v !in user && v !in extra
    requires Mapped(m, r, pt, v, Pte(ppn, LeafFlags(perm)), true)
    ensures Turned(m, r, pt, user, extra, user, extra + {v}) && Leaf(r, pt, v) == Pte(ppn, LeafFlags(perm))
  {
    hide Wf, All, Moved;
    assert V in LeafFlags(perm) && LeafFlags(LeafFlags(perm)) == LeafFlags(perm);
    TablesMoved(m, r, pt, user, extra);
  }

  lemma TablesMoved(m: Mem, r: Mem, pt: nat, user: set<nat>, extra: set<nat>)
    requires Space(m, pt, user, extra) && Rooted(r, pt) && r.pages == m.pages
    requires Moved(m, r, Tables(m, pt), Tables(r, pt)) && (forall u :: u in user ==> Leaf(r, pt, u) == Leaf(m, pt, u))
    ensures Moved(m, r, Owned(m, pt, user), Owned(r, pt, user))
  {
    hide Leaf, All;
    OwnedUsed(m, pt, user, extra);
    assert Targets(r, pt, user) == Targets(m, pt, user);
    MovedFrame(m, r, Tables(m, pt), Tables(r, pt), Targets(m, pt, user));
  }

  lemma DropExtra(m: Mem, pt: nat, user: set<nat>, extra: set<nat>, v: nat)
    requires Wf(m) && Space(m, pt, user, extra) && v in extra
    ensures m.tables[pt][v / NPTE].Valid()
    ensures Turned(m, SetEntry(m, m.tables[pt][v / NPTE].ppn, v % NPTE, Null), pt, user, extra, user, extra - {v})
  {
    hide Wf, All, Moved;
    assert Leaf(m, pt, v).Valid();
    SetLeaf(m, pt, v, Null);
    TablesMoved(m, SetEntry(m, m.tables[pt][v / NPTE].ppn, v % NPTE, Null), pt, user, extra);
  }

  lemma TurnedRefl(m: Mem, pt: nat, user: set<nat>, extra: set<nat>)
    requires Wf(m) && Space(m, pt, user, extra)
    ensures Turned(m, m, pt, user, extra, user, extra)
  {
    OwnedUsed(m, pt, user, extra);
  }

  lemma TurnedFacts(m: Mem, r: Mem, pt: nat, u0: set<nat>, x0: set<nat>, u1: set<nat>, x1: set<nat>)
    requires Turned(m, r, pt, u0, x0, u1, x1)
    ensures Wf(r) && All(r) == All(m) && Space(r, pt, u1, x1)
  {
  }

  /** A mapped page has its table, a leaf entry in it, and a frame that is in use. */
  lemma MappedPage(m: Mem, pt: nat, user: set<nat>, extra: set<nat>, v: nat)
    requires Space(m, pt, user, extra) && (v in user || v in extra)
    ensures v < NVPN && Rooted(m, pt)
    ensures m.tables[pt][v / NPTE].Valid() && m.tables[pt][v / NPTE].ppn in m.tables
    ensures Leaf(m, pt, v) == m.tables[m.tables[pt][v / NPTE].ppn][v % NPTE]
    ensures Leaf(m, pt, v).Valid() && Leaf(m, pt, v).flags != {V}
    ensures v in user ==> Leaf(m, pt, v).ppn in m.pages
  {
    assert Leaf(m, pt, v).Valid();
    assert A in LeafFlags(Leaf(m, pt, v).flags);
  }

  /** The pages it takes to map the pages from `lo` to `hi`: one each, and one for every missing table. */
  function Need(m: Mem, pt: nat, lo: nat, hi: nat): (n: nat)
    requires pt in m.tables && hi <= NVPN
    decreases hi
  {
    if hi <= lo then 0
    else Need(m, pt, lo, hi - 1) + 1 + if hi - 1 == lo || (hi - 1) % NPTE == 0 then TableCost(m, pt, hi - 1) else 0
  }

  lemma {:induction false} NeedMono(m: Mem, pt: nat, lo: nat, k: nat, hi: nat)
    requires pt in m.tables && lo <= k <= hi <= NVPN
    ensures Need(m, pt, lo, k) <= Need(m, pt, lo, hi)
    decreases hi
  {
    if k < hi { NeedMono(m, pt, lo, k, hi - 1); }
  }

  /** How far the free pages reach: the first page that they do not pay for, or `hi`. */
  function Reach(m: Mem, pt: nat, lo: nat, hi: nat): (k: nat)
    requires pt in m.tables && hi <= NVPN
    ensures k <= hi || k == lo
    decreases hi
  {
    if hi <= lo then lo else if Need(m, pt, lo, hi) <= |m.free| then hi else Reach(m, pt, lo, hi - 1)
  }

  /** The tables that mapping the pages from `lo` to `hi` adds. */
  function NewTables(m: Mem, pt: nat, lo: nat, hi: nat): (n: nat)
    requires pt in m.tables && hi <= NVPN
    decreases hi
  {
    if hi <= lo then 0
    else NewTables(m, pt, lo, hi - 1)
         + if hi - 1 == lo || (hi - 1) % NPTE == 0 then TableCost(m, pt, hi - 1) else 0
  }

  /** What a failed uvmalloc leaves: the tables that it added before it ran out. */
  function TablesKept(m: Mem, pt: nat, lo: nat, hi: nat): (n: nat)
    requires pt in m.tables && lo <= NVPN && hi <= NVPN
  {
    NewTables(m, pt, lo, Reach(m, pt, lo, hi))
  }

  lemma {:induction false} NewTablesOf(m: Mem, pt: nat, lo: nat, hi: nat)
    requires pt in m.tables && lo <= hi <= NVPN
    ensures Need(m, pt, lo, hi) == NewTables(m, pt, lo, hi) + hi - lo
    decreases hi
  {
    if lo < hi { NewTablesOf(m, pt, lo, hi - 1); }
  }

  lemma {:induction false} ReachIs(m: Mem, pt: nat, lo: nat, k: nat, hi: nat)
    requires pt in m.tables && lo <= k < hi <= NVPN && Need(m, pt, lo, k) <= |m.free| < Need(m, pt, lo, k + 1)
    ensures Reach(m, pt, lo, hi) == k
    ensures Need(m, pt, lo, k) == NewTables(m, pt, lo, k) + k - lo
    decreases hi
  {
    NewTablesOf(m, pt, lo, k);
    NeedMono(m, pt, lo, k + 1, hi);
    if k + 1 < hi { ReachIs(m, pt, lo, k, hi - 1); } else if k > lo { assert Need(m, pt, lo, k) <= |m.free|; }
  }

  /** No table is kept exactly when those of the pages reached were there already. */
  lemma {:induction false} NoNewTables(m: Mem, pt: nat, lo: nat, k: nat)
    requires pt in m.tables && lo <= k <= NVPN
    ensures NewTables(m, pt, lo, k) == 0 <==> forall v :: lo <= v < k ==> TableCost(m, pt, v) == 0
    decreases k
  {
    if lo < k {
      NoNewTables(m, pt, lo, k - 1);
      if lo < k - 1 && (k - 1) % NPTE != 0 {
        assert (k - 1) / NPTE == (k - 2) / NPTE;
        assert TableCost(m, pt, k - 1) == TableCost(m, pt, k - 2);
      }
    }
  }

  /** The pages from `lo` to `k` have been mapped, at their exact cost. */
  ghost predicate Paid(m: Mem, r: Mem, pt: nat, lo: nat, k: nat)
    requires pt in m.tables && k <= NVPN
  {
    && pt in r.tables && |r.free| + Need(m, pt, lo, k) == |m.free|
    && forall i :: 0 <= i < NPTE ==>
         (r.tables[pt][i].Valid() <==> m.tables[pt][i].Valid() || (lo < k && lo / NPTE <= i <= (k - 1) / NPTE))
  }

  lemma PaidCost(m: Mem, g: Mem, pt: nat, lo: nat, k: nat)
    requires pt in m.tables && lo <= k < NVPN && Paid(m, g, pt, lo, k)
    ensures Need(m, pt, lo, k + 1) == Need(m, pt, lo, k) + 1 + TableCost(g, pt, k)
  {
    assert k / NPTE == (k - 1) / NPTE || k % NPTE == 0 || k == lo;
  }

  lemma PaidStep(m: Mem, g: Mem, r: Mem, pt: nat, lo: nat, k: nat, data: Page)
    requires pt in m.tables && lo <= k < NVPN && Paid(m, g, pt, lo, k) && g.free != [] && pt in r.tables
    requires pt in AllocPage(g, data).tables && Reaches(AllocPage(g, data), r, pt, k)
    ensures Paid(m, r, pt, lo, k + 1)
  {
    PaidCost(m, g, pt, lo, k);
    assert lo <= k ==> lo / NPTE <= k / NPTE;
  }

  /** kalloc and kfree of the same page cancel out. */
  lemma AllocFree(m: Mem, data: Page)
    requires Wf(m) && m.free != []
    ensures Kfree(AllocPage(m, data), m.free[0]) == m
  {
    FreshPage(m);
    assert [m.free[0]] + m.free[1..] == m.free;
    assert m.pages[m.free[0] := data] - {m.free[0]} == m.pages;
    assert m.tables - {m.free[0]} == m.tables;
  }

  /** Another page of the space keeps its flags and contents. */
  lemma KeptHas(m: Mem, r: Mem, pt: nat, u0: set<nat>, x0: set<nat>, u1: set<nat>, x1: set<nat>, v: nat,
                flags: set<Flag>, data: Page)
    requires Turned(m, r, pt, u0, x0, u1, x1) && v in u0 && v in u1 && v < NVPN && HasPage(m, pt, v, flags, data)
    ensures HasPage(r, pt, v, flags, data)
  {
  }

  ghost predicate AllZero(m: Mem, pt: nat, lo: nat, hi: nat, flags: set<Flag>)
    requires Rooted(m, pt) && hi <= NVPN
  {
    forall v :: lo <= v < hi ==> HasPage(m, pt, v, flags, Filled(0))
  }

  lemma AllZeroStep(m: Mem, r: Mem, pt: nat, extra: set<nat>, lo: nat, k: nat, flags: set<Flag>)
    requires lo <= k < NVPN && Turned(m, r, pt, Range(0, k), extra, Range(0, k + 1), extra)
    requires Rooted(m, pt) && Rooted(r, pt)
    requires AllZero(m, pt, lo, k, flags) && HasPage(r, pt, k, flags, Filled(0))
    ensures AllZero(r, pt, lo, k + 1, flags)
  {
    hide Turned, HasPage;
    forall v | lo <= v < k + 1
      ensures HasPage(r, pt, v, flags, Filled(0))
    {
      if v < k {
        assert Within(v, 0, k) && Within(v, 0, k + 1);
        KeptHas(m, r, pt, Range(0, k), extra, Range(0, k + 1), extra, v, flags, Filled(0));
      }
    }
  }

  lemma UsedInAll(m: Mem, s: set<nat>)
    requires s <= Used(m)
    ensures s <= All(m)
  {
  }

  /** A space cannot have more user pages than there is memory. */
  lemma FewPages(m: Mem, pt: nat, k: nat, extra: set<nat>)
    requires Space(m, pt, Range(0, k), extra) && |All(m)| <= NPAGES
    ensures k <= NPAGES
  {
    hide Space, Range, Targets, FreeSet, All, Rooted, Leaf;
    SpaceRooted(m, pt, Range(0, k), extra);
    UserBound(m, pt, Range(0, k), extra);
    RangeLength(0, k);
    UsedInAll(m, Targets(m, pt, Range(0, k)));
    SubsetSize(Targets(m, pt, Range(0, k)), All(m));
  }

  lemma RangeGrows(lo: nat, n: nat)
    ensures Range(lo, lo + (n + 1)) == Range(lo, lo + n) + {lo + n} && lo + n !in Range(lo, lo + n)
  {
    var few, more := Range(lo, lo + n), Range(lo, lo + (n + 1));
    forall v | v in more && v != lo + n
      ensures v in few
    {
      assert Within(v, lo, lo + n);
    }
    forall v | v in few
      ensures v in more
    {
      assert Within(v, lo, lo + (n + 1));
    }
    assert Within(lo + n, lo, lo + (n + 1));
  }

  lemma {:induction false} RangeLength(lo: nat, n: nat)
    ensures |Range(lo, lo + n)| == n
  {
    if n > 0 {
      RangeLength(lo, n - 1);
      RangeGrows(lo, n - 1);
    } else {
      assert Range(lo, lo + n) == {};
    }
  }

  lemma RangeCut(k: nat, n: nat)
    requires k <= n
    ensures Range(k, n) <= Range(0, n) && Range(0, n) - Range(k, n) == Range(0, k)
  {
    forall v | v in Range(0, k)
      ensures v in Range(0, n) - Range(k, n)
    {
      assert Within(v, 0, n);
    }
    forall v | v in Range(k, n)
      ensures v in Range(0, n)
    {
      assert Within(v, 0, n);
    }
    forall v | v in Range(0, n) - Range(k, n)
      ensures v in Range(0, k)
    {
      assert Within(v, 0, k) || Within(v, k, n);
    }
  }

  lemma SameTables(m: Mem, r: Mem, pt: nat)
    requires Rooted(m, pt) && r.tables == m.tables
    ensures Rooted(r, pt) && SameLeaves(m, r, pt, {})
  {
  }

  lemma SpaceRooted(m: Mem, pt: nat, user: set<nat>, extra: set<nat>)
    requires Space(m, pt, user, extra)
    ensures Rooted(m, pt) && user !! extra
  {
  }

  lemma PaidNone(m: Mem, pt: nat, lo: nat, flags: set<Flag>)
    requires Rooted(m, pt) && lo <= NVPN
    ensures Paid(m, m, pt, lo, lo) && AllZero(m, pt, lo, lo, flags)
  {
  }

  lemma PaidFree(m: Mem, r: Mem, pt: nat, lo: nat, k: nat)
    requires pt in m.tables && k <= NVPN && Paid(m, r, pt, lo, k)
    ensures |r.free| + Need(m, pt, lo, k) == |m.free|
  {
  }

  /** uvmalloc on its way: the pages from `lo` to `k` are mapped, zeroed and paid for. */
  ghost predicate Growing(m: Mem, g: Mem, pt: nat, lo: nat, k: nat, extra: set<nat>, flags: set<Flag>) {
    && Rooted(g, pt) && pt in m.tables && k <= NVPN && Space(g, pt, Range(0, k), extra)
    && Turned(m, g, pt, Range(0, lo), extra, Range(0, k), extra)
    && Paid(m, g, pt, lo, k) && AllZero(g, pt, lo, k, flags)
  }

  lemma GrowingNone(m: Mem, pt: nat, lo: nat, extra: set<nat>, flags: set<Flag>)
    requires Wf(m) && Space(m, pt, Range(0, lo), extra) && Rooted(m, pt) && lo <= NVPN
    ensures Growing(m, m, pt, lo, lo, extra, flags)
  {
    hide Space, Turned, Wf, Paid, AllZero;
    TurnedRefl(m, pt, Range(0, lo), extra);
    PaidNone(m, pt, lo, flags);
  }

  lemma GrowingFacts(m: Mem, g: Mem, pt: nat, lo: nat, k: nat, extra: set<nat>, flags: set<Flag>)
    requires Growing(m, g, pt, lo, k, extra, flags)
    ensures Rooted(g, pt) && pt in m.tables && k <= NVPN && Space(g, pt, Range(0, k), extra)
    ensures Turned(m, g, pt, Range(0, lo), extra, Range(0, k), extra)
    ensures Paid(m, g, pt, lo, k) && AllZero(g, pt, lo, k, flags) && |g.free| + Need(m, pt, lo, k) == |m.free|
  {
    hide Space, Turned, AllZero;
  }

  lemma RangesNest(lo: nat, k: nat)
    requires lo <= k
    ensures Range(0, lo) <= Range(0, k) <= Range(0, k + 1)
  {
    forall v | v in Range(0, lo) ensures v in Range(0, k) { assert Within(v, 0, k); }
    forall v | v in Range(0, k) ensures v in Range(0, k + 1) { assert Within(v, 0, k + 1); }
  }

  /** An address space none of whose pages moved is as it was. */
  lemma Untouched(m: Mem, r: Mem, f: set<nat>, g: set<nat>, pt: nat, user: set<nat>, extra: set<nat>)
    requires Moved(m, r, f, g) && Space(m, pt, user, extra) && Owned(m, pt, user) !! f
    ensures Space(r, pt, user, extra) && Kept(m, r, pt, user, extra) && Owned(r, pt, user) == Owned(m, pt, user)
    ensures SameLeaves(m, r, pt, {})
  {
    hide All, Wf, Leaf, Rooted;
    RootUntouched(m, r, f, g, pt);
    assert forall v :: v in user ==> Leaf(m, pt, v).ppn in Targets(m, pt, user);
    SameTargets(m, r, pt, user);
  }

  lemma RootUntouched(m: Mem, r: Mem, f: set<nat>, g: set<nat>, pt: nat)
    requires Moved(m, r, f, g) && Rooted(m, pt) && Tables(m, pt) !! f
    ensures Rooted(r, pt) && Tables(r, pt) == Tables(m, pt) && SameLeaves(m, r, pt, {})
  {
    hide All, Wf;
    assert r.tables[pt] == m.tables[pt];
    assert forall k :: 0 <= k < NPTE && m.tables[pt][k].Valid() ==> m.tables[pt][k].ppn in Tables(m, pt);
  }

  /** The first `k` pages of `new` in `r` are copies of those of `old_` in `m`. */
  ghost predicate CopyOf(m: Mem, r: Mem, old_: nat, new_: nat, k: nat)
    requires Rooted(m, old_) && Rooted(r, new_) && k <= NVPN
  {
    forall v :: 0 <= v < k ==>
      Leaf(m, old_, v).ppn in m.pages && HasPage(r, new_, v, Leaf(m, old_, v).flags, m.pages[Leaf(m, old_, v).ppn])
  }

  lemma CopyNone(m: Mem, old_: nat, new_: nat)
    requires Rooted(m, old_) && Rooted(m, new_)
    ensures CopyOf(m, m, old_, new_, 0)
  {
  }

  lemma EmptyRange()
    ensures Range(0, 0) == {}
  {
  }

  /** The parent's page is still what it was when the copy began. */
  lemma CopySource(m: Mem, g: Mem, old_: nat, new_: nat, n: nat, k: nat, xo: set<nat>, xn: set<nat>)
    requires Space(m, old_, Range(0, n), xo) && k < n && n <= NVPN && Turned(m, g, new_, {}, xn, Range(0, k), xn)
    requires Owned(m, old_, Range(0, n)) !! Owned(m, new_, {})
    ensures Rooted(g, old_) && g.tables[old_][k / NPTE].Valid() && g.tables[old_][k / NPTE].ppn in g.tables
    ensures var e := g.tables[g.tables[old_][k / NPTE].ppn][k % NPTE];
            && e == Leaf(m, old_, k) && e.ppn in m.pages && e.ppn in g.pages && g.pages[e.ppn] == m.pages[e.ppn]
            && LeafFlags(e.flags) == e.flags
  {
    hide Moved, Owned, Wf, All;
    Untouched(m, g, Owned(m, new_, {}), Owned(g, new_, Range(0, k)), old_, Range(0, n), xo);
    assert Within(k, 0, n);
    MappedPage(g, old_, Range(0, n), xo, k);
  }

  lemma CopyStep(m: Mem, g: Mem, r: Mem, old_: nat, new_: nat, extra: set<nat>, k: nat)
    requires k < NVPN && Turned(g, r, new_, Range(0, k), extra, Range(0, k + 1), extra)
    requires Rooted(m, old_) && Rooted(g, new_) && Rooted(r, new_) && CopyOf(m, g, old_, new_, k)
    requires Leaf(m, old_, k).ppn in m.pages
    requires HasPage(r, new_, k, Leaf(m, old_, k).flags, m.pages[Leaf(m, old_, k).ppn])
    ensures CopyOf(m, r, old_, new_, k + 1)
  {
    hide Turned, HasPage, Leaf;
    forall v | 0 <= v < k + 1
      ensures Leaf(m, old_, v).ppn in m.pages
        && HasPage(r, new_, v, Leaf(m, old_, v).flags, m.pages[Leaf(m, old_, v).ppn])
    {
      if v < k {
        assert Within(v, 0, k) && Within(v, 0, k + 1);
        var e := Leaf(m, old_, v);
        KeptHas(g, r, new_, Range(0, k), extra, Range(0, k + 1), extra, v, e.flags, m.pages[e.ppn]);
      }
    }
  }

  /** Freeing an empty lower-level table and clearing its entry: one round of freewalk. */
  lemma DropTable(m: Mem, pt: nat, i: nat)
    requires Wf(m) && Space(m, pt, {}, {}) && i < NPTE && m.tables[pt][i].Valid()
    ensures var t := m.tables[pt][i].ppn;
            && t in m.tables && (forall j :: 0 <= j < NPTE ==> !m.tables[t][j].Valid())
            && pt in Kfree(m, t).tables
            && var r := SetEntry(Kfree(m, t), pt, i, Null);
            && Space(r, pt, {}, {}) && Moved(m, r, Tables(m, pt), Tables(r, pt))
  {
    var t := m.tables[pt][i].ppn;
    forall j | 0 <= j < NPTE
      ensures !m.tables[t][j].Valid()
    {
      assert !Leaf(m, pt, i * NPTE + j).Valid();
    }
    hide Wf, Moved, All, Tables;
    var r := SetEntry(Kfree(m, t), pt, i, Null);
    DropTableMoved(m, r, pt, i);
    forall v | 0 <= v < NVPN
      ensures !Leaf(r, pt, v).Valid()
    {
      assert !Leaf(m, pt, v).Valid();
    }
  }

  lemma DropTableMoved(m: Mem, r: Mem, pt: nat, i: nat)
    requires Wf(m) && Rooted(m, pt) && i < NPTE && m.tables[pt][i].Valid()
    requires r == SetEntry(Kfree(m, m.tables[pt][i].ppn), pt, i, Null)
    ensures Rooted(r, pt) && Moved(m, r, Tables(m, pt), Tables(r, pt))
  {
    var t := m.tables[pt][i].ppn;
    KfreeOk(m, Tables(m, pt), t);
    assert forall k :: 0 <= k < NPTE && k != i ==> r.tables[pt][k] == m.tables[pt][k];
    assert Tables(r, pt) == Tables(m, pt) - {t};
  }

  /** With no valid entry left the root is the whole table. */
  lemma BareRoot(m: Mem, pt: nat)
    requires Wf(m) && pt in m.tables && (forall k :: 0 <= k < NPTE ==> !m.tables[pt][k].Valid())
    ensures Space(m, pt, {}, {}) && Tables(m, pt) == {pt}
    ensures Moved(m, Kfree(m, pt), {pt}, {})
  {
    KfreeOk(m, {pt}, pt);
  }

  /** Page `v` lost its user flag and nothing else changed. */
  ghost predicate Guarded(m: Mem, r: Mem, pt: nat, user: set<nat>, extra: set<nat>, v: nat) {
    && Space(m, pt, user, extra) && Space(r, pt, user, extra) && v in user
    && Owned(r, pt, user) == Owned(m, pt, user) && Moved(m, r, Owned(m, pt, user), Owned(r, pt, user))
    && r.pages == m.pages && |r.free| == |m.free| && SameLeaves(m, r, pt, {v})
    && Leaf(r, pt, v) == Pte(Leaf(m, pt, v).ppn, Leaf(m, pt, v).flags - {U})
  }

  lemma ClearUser(m: Mem, pt: nat, user: set<nat>, extra: set<nat>, v: nat)
    requires Wf(m) && Space(m, pt, user, extra) && v in user
    ensures m.tables[pt][v / NPTE].Valid()
    ensures var e := Leaf(m, pt, v);
            Guarded(m, SetEntry(m, m.tables[pt][v / NPTE].ppn, v % NPTE, Pte(e.ppn, e.flags - {U})), pt, user, extra, v)
  {
    hide Wf, All;
    MappedPage(m, pt, user, extra, v);
    var e := Leaf(m, pt, v);
    var c := Pte(e.ppn, e.flags - {U});
    SetLeaf(m, pt, v, c);
    ClearedFlags(e.flags);
    var r := SetEntry(m, m.tables[pt][v / NPTE].ppn, v % NPTE, c);
    ClearSpace(m, r, pt, user, extra, v);
  }

  lemma ClearedFlags(f: set<Flag>)
    requires LeafFlags(f) == f
    ensures V in f && LeafFlags(f - {U}) == f - {U}
  {
    assert V in LeafFlags(f) && A in LeafFlags(f);
    assert W in f ==> D in LeafFlags(f);
  }

  lemma ClearSpace(m: Mem, r: Mem, pt: nat, user: set<nat>, extra: set<nat>, v: nat)
    requires Space(m, pt, user, extra) && v in user && Rooted(r, pt) && SameLeaves(m, r, pt, {v})
    requires Tables(r, pt) == Tables(m, pt) && Moved(m, r, Tables(m, pt), Tables(m, pt)) && r.pages == m.pages
    requires var e := Leaf(m, pt, v); Leaf(r, pt, v) == Pte(e.ppn, e.flags - {U})
    requires LeafFlags(Leaf(r, pt, v).flags) == Leaf(r, pt, v).flags
    ensures Space(r, pt, user, extra) && Owned(r, pt, user) == Owned(m, pt, user)
    ensures Moved(m, r, Owned(m, pt, user), Owned(r, pt, user))
  {
    hide Leaf, Rooted, All, Moved;
    assert V in LeafFlags(Leaf(r, pt, v).flags);
    assert Targets(r, pt, user) == Targets(m, pt, user) by { SamePpns(m, r, pt, user); }
    OwnedUsed(m, pt, user, extra);
    ClearMoved(m, r, pt, user);
  }

  lemma SamePpns(m: Mem, r: Mem, pt: nat, vs: set<nat>)
    requires Rooted(m, pt) && Rooted(r, pt)
    requires forall v :: v in vs && v < NVPN ==> Leaf(r, pt, v).ppn == Leaf(m, pt, v).ppn
    ensures Targets(r, pt, vs) == Targets(m, pt, vs)
  {
    hide Leaf, Rooted;
  }

  lemma ClearMoved(m: Mem, r: Mem, pt: nat, user: set<nat>)
    requires Rooted(m, pt) && Rooted(r, pt) && Targets(r, pt, user) == Targets(m, pt, user)
      && Tables(r, pt) == Tables(m, pt)
    requires Moved(m, r, Tables(m, pt), Tables(m, pt)) && Targets(m, pt, user) <= m.pages.Keys
      && Tables(m, pt) <= m.tables.Keys
    ensures Moved(m, r, Owned(m, pt, user), Owned(r, pt, user))
  {
    hide Leaf, All, Targets, Tables;
    MovedFrame(m, r, Tables(m, pt), Tables(r, pt), Targets(m, pt, user));
  }

  lemma OneRange(v: nat)
    ensures Range(v, v + 1) == {v}
  {
    assert Within(v, v, v + 1);
  }

  /** A new empty table, and the page it costs. */
  lemma FreshTable(m: Mem)
    requires Wf(m) && m.free != []
    ensures var r, pt := AllocTable(m), m.free[0];
            Space(r, pt, {}, {}) && Owned(r, pt, {}) == Tables(r, pt) == {pt} && Moved(m, r, {}, {pt})
            && |r.free| + 1 == |m.free|
    ensures TableCost(AllocTable(m), m.free[0], TRAMPOLINE) == 1
  {
    AllocTableOk(m, {});
    assert {} + {m.free[0]} == {m.free[0]};
    MovedWf(m, AllocTable(m), {}, {m.free[0]});
    BareRoot(AllocTable(m), m.free[0]);
  }

  /** Only the table of the trampoline and the trapframe is there. */
  predicate TopOnly(m: Mem, pt: nat)
    requires pt in m.tables
  {
    forall k :: 0 <= k < NPTE ==> (m.tables[pt][k].Valid() <==> k == NPTE - 1)
  }

  /** The cost of the first `n` pages of a new space. */
  lemma {:induction false} FreshNeed(m: Mem, pt: nat, n: nat)
    requires pt in m.tables && TopOnly(m, pt) && n <= (NPTE - 1) * NPTE
    ensures Need(m, pt, 0, n) == n + (n + NPTE - 1) / NPTE
  {
    if n > 0 { FreshNeed(m, pt, n - 1); }
  }

  lemma MovedNone(m: Mem)
    requires Wf(m)
    ensures Moved(m, m, {}, {})
  {
  }

  lemma NoLeaf(m: Mem, pt: nat, user: set<nat>, extra: set<nat>, v: nat)
    requires Space(m, pt, user, extra) && v < NVPN && v !in user && v !in extra
    ensures Rooted(m, pt) && !Leaf(m, pt, v).Valid()
  {
  }

  lemma TopTable(g: Mem, h: Mem, pt: nat)
    requires pt in g.tables && pt in h.tables && g.tables[pt] == Empty() && Reaches(g, h, pt, TRAMPOLINE)
    ensures TopOnly(h, pt) && |h.free| + 1 == |g.free| && TableCost(h, pt, TRAPFRAME) == 0
  {
  }

  lemma TopKept(h: Mem, r: Mem, pt: nat)
    requires pt in h.tables && pt in r.tables && TopOnly(h, pt) && Reaches(h, r, pt, TRAPFRAME)
    ensures TopOnly(r, pt) && |r.free| == |h.free|
  {
  }
}
