/** The memory of the process table (kernel/proc.c): which pages belong to which
    process. A process is in `procs` from allocproc to freeproc. */
module ProcMemory {
  import opened PageTable
  import opened AddressSpace

  datatype Proc = Proc(pt: nat, sz: nat, tf: nat)

  const Top := {TRAMPOLINE, TRAPFRAME}

  ghost function User(p: Proc): (s: set<nat>) {
    Range(0, Pages(p.sz))
  }

  /** Exactly the pages of [0, sz), the trapframe and the trampoline are mapped. */
  ghost predicate ProcOk(m: Mem, p: Proc, trampoline: nat) {
    && Space(m, p.pt, User(p), Top) && p.sz < WORD
    && Leaf(m, p.pt, TRAPFRAME) == Pte(p.tf, LeafFlags({R, W}))
    && Leaf(m, p.pt, TRAMPOLINE) == Pte(trampoline, LeafFlags({R, X}))
    && p.tf in m.pages && p.tf !in Owned(m, p.pt, User(p))
  }

  ghost function Foot(m: Mem, p: Proc): (s: set<nat>)
    requires Rooted(m, p.pt)
  {
    Owned(m, p.pt, User(p)) + {p.tf}
  }

  /** Every process is sound, no two share a page, and no page is lost: what is not free belongs
      to exactly one process or to `other`, the pages of the rest of the kernel. */
  ghost predicate Inv(m: Mem, procs: map<nat, Proc>, other: set<nat>, trampoline: nat) {
    && Wf(m) && other <= Used(m)
    && (forall i :: i in procs ==>
          ProcOk(m, procs[i], trampoline) && Foot(m, procs[i]) <= Used(m) && Foot(m, procs[i]) !! other)
    && (forall i, j :: i in procs && j in procs && i != j ==> Foot(m, procs[i]) !! Foot(m, procs[j]))
    && (forall k :: k in Used(m) && k !in other ==> exists i :: i in procs && k in Foot(m, procs[i]))
  }

  /** The memory a process sees is the same, byte for byte, in the same frames. */
  ghost predicate SameImage(m: Mem, r: Mem, p: Proc) {
    Kept(m, r, p.pt, User(p), Top) && p.tf in m.pages && p.tf in r.pages && r.pages[p.tf] == m.pages[p.tf]
  }

  lemma OtherProc(m: Mem, r: Mem, p: Proc, trampoline: nat, f: set<nat>, g: set<nat>)
    requires ProcOk(m, p, trampoline) && Moved(m, r, f, g) && Foot(m, p) !! f
    ensures ProcOk(r, p, trampoline) && Foot(r, p) == Foot(m, p) && SameImage(m, r, p)
  {
    hide Space, Wf, All, Leaf, Targets, Tables, User;
    SpaceRooted(m, p.pt, User(p), Top);
    assert Owned(m, p.pt, User(p)) !! f;
    Untouched(m, r, f, g, p.pt, User(p), Top);
  }

  ghost predicate Others(m: Mem, r: Mem, procs: map<nat, Proc>, i: nat) {
    forall j :: j in procs && j != i ==> SameImage(m, r, procs[j])
  }

  /** The pages of process `i`, if there is one. */
  ghost function FootAt(m: Mem, procs: map<nat, Proc>, i: nat): (s: set<nat>)
    requires i in procs ==> Rooted(m, procs[i].pt)
  {
    if i in procs then Foot(m, procs[i]) else {}
  }

  /** Only process `i` changed, came or went: its pages apart, all memory in use is as it was. */
  ghost predicate Only(m: Mem, r: Mem, before: map<nat, Proc>, after: map<nat, Proc>, i: nat) {
    && (i in before ==> Rooted(m, before[i].pt)) && (i in after ==> Rooted(r, after[i].pt))
    && after - {i} == before - {i}
    && Moved(m, r, FootAt(m, before, i), FootAt(r, after, i))
    && Others(m, r, before, i)
  }

  ghost predicate SameFoot(m: Mem, r: Mem, p: Proc, trampoline: nat) {
    && ProcOk(m, p, trampoline) && ProcOk(r, p, trampoline)
    && Rooted(m, p.pt) && Rooted(r, p.pt) && Foot(r, p) == Foot(m, p)
  }

  /** When only the pages of process `i` moved, every other process is as it was. */
  lemma Rest(m: Mem, r: Mem, procs: map<nat, Proc>, other: set<nat>, trampoline: nat, i: nat, g: set<nat>)
    requires (i in procs ==> Rooted(m, procs[i].pt)) && Moved(m, r, FootAt(m, procs, i), g)
    requires Inv(m, procs, other, trampoline)
    ensures Others(m, r, procs, i)
    ensures forall j :: j in procs && j != i ==> SameFoot(m, r, procs[j], trampoline)
  {
    hide ProcOk, SameImage, Foot, All, Wf;
    forall j | j in procs && j != i
      ensures SameImage(m, r, procs[j]) && SameFoot(m, r, procs[j], trampoline)
    {
      OkRooted(m, procs[j], trampoline);
      OtherProc(m, r, procs[j], trampoline, FootAt(m, procs, i), g);
      OkRooted(r, procs[j], trampoline);
    }
  }

  lemma Replace(m: Mem, r: Mem, procs: map<nat, Proc>, after: map<nat, Proc>, other: set<nat>, trampoline: nat,
                i: nat, g: set<nat>)
    requires (i in procs ==> Rooted(m, procs[i].pt)) && Moved(m, r, FootAt(m, procs, i), g)
      && after - {i} == procs - {i}
    requires i in after ==> ProcOk(r, after[i], trampoline) && Foot(r, after[i]) == g
    requires i !in after ==> g == {}
    requires Inv(m, procs, other, trampoline)
    ensures Inv(r, after, other, trampoline) && Only(m, r, procs, after, i)
  {
    hide ProcOk, Foot, All, Rooted, Others;
    SameRest(procs, after, i);
    Rest(m, r, procs, other, trampoline, i, g);
    if i in after { OkRooted(r, after[i], trampoline); }
    Covered(m, r, procs, after, other, trampoline, i, g);
    StillApart(m, r, procs, after, other, trampoline, i, g);
  }

  /** No two processes share a page, and none has one of the rest of the kernel. */
  ghost predicate Apart(m: Mem, procs: map<nat, Proc>, other: set<nat>) {
    && other <= Used(m)
    && (forall j :: j in procs ==>
          Rooted(m, procs[j].pt) && Foot(m, procs[j]) <= Used(m) && Foot(m, procs[j]) !! other)
    && (forall j, k :: j in procs && k in procs && j != k ==> Foot(m, procs[j]) !! Foot(m, procs[k]))
  }

  lemma StillApart(m: Mem, r: Mem, procs: map<nat, Proc>, after: map<nat, Proc>, other: set<nat>, trampoline: nat,
                   i: nat, g: set<nat>)
    requires (i in procs ==> Rooted(m, procs[i].pt)) && Moved(m, r, FootAt(m, procs, i), g)
    requires forall j :: j != i && j in after ==>
               j in procs && after[j] == procs[j] && SameFoot(m, r, procs[j], trampoline)
    requires i in after ==> Rooted(r, after[i].pt) && Foot(r, after[i]) == g
    requires Inv(m, procs, other, trampoline)
    ensures Apart(r, after, other)
  {
    hide ProcOk, Foot, All, Rooted, SameFoot, Wf, Moved, Used, FreeSet;
    forall j | j in after
      ensures Rooted(r, after[j].pt) && Foot(r, after[j]) <= Used(r) && Foot(r, after[j]) !! other
      ensures j != i ==> j in procs && Rooted(m, procs[j].pt) && Foot(r, after[j]) == Foot(m, procs[j])
      ensures j != i ==> Foot(r, after[j]) !! g
    {
      if j != i {
        FootOf(m, r, procs[j], trampoline);
        assert Foot(m, procs[j]) !! FootAt(m, procs, i);
        MovedApart(m, r, FootAt(m, procs, i), g, Foot(m, procs[j]));
      } else {
        MovedApart(m, r, FootAt(m, procs, i), g, other);
      }
    }
    MovedApart(m, r, FootAt(m, procs, i), g, other);
  }

  /** Pages in use that did not move stay in use, and are none of the new ones. */
  lemma MovedApart(m: Mem, r: Mem, f: set<nat>, g: set<nat>, pages: set<nat>)
    requires Wf(m) && Moved(m, r, f, g) && pages <= Used(m) && pages !! f
    ensures pages <= Used(r) && pages !! g && g <= Used(r)
  {
    hide Wf;
    FreeUnused(m);
  }

  lemma FreeUnused(m: Mem)
    requires Wf(m)
    ensures FreeSet(m) !! Used(m)
  {
  }

  lemma FootOf(m: Mem, r: Mem, p: Proc, trampoline: nat)
    requires SameFoot(m, r, p, trampoline)
    ensures Rooted(m, p.pt) && Rooted(r, p.pt) && Foot(r, p) == Foot(m, p)
  {
  }

  /** No page is lost: each still belongs to a process or to the rest of the kernel. */
  lemma Covered(m: Mem, r: Mem, procs: map<nat, Proc>, after: map<nat, Proc>, other: set<nat>, trampoline: nat,
                i: nat, g: set<nat>)
    requires (i in procs ==> Rooted(m, procs[i].pt)) && Moved(m, r, FootAt(m, procs, i), g)
    requires forall j :: j != i && j in procs ==>
               j in after && after[j] == procs[j] && SameFoot(m, r, procs[j], trampoline)
    requires i in after ==> Rooted(r, after[i].pt) && Foot(r, after[i]) == g
    requires i !in after ==> g == {}
    requires forall j :: j in after ==> Rooted(r, after[j].pt)
    requires Inv(m, procs, other, trampoline)
    ensures forall k :: k in Used(r) && k !in other ==> exists j :: j in after && k in Foot(r, after[j])
  {
    hide ProcOk, Foot, All, Rooted;
    forall k | k in Used(r) && k !in other
      ensures exists j :: j in after && k in Foot(r, after[j])
    {
      if k in g {
        assert k in Foot(r, after[i]);
      } else {
        var j :| j in procs && k in Foot(m, procs[j]);
        assert k in Foot(r, after[j]);
      }
    }
  }

  lemma OkRooted(m: Mem, p: Proc, trampoline: nat)
    requires ProcOk(m, p, trampoline)
    ensures Rooted(m, p.pt)
  {
  }

  lemma SameRest(procs: map<nat, Proc>, after: map<nat, Proc>, i: nat)
    requires after - {i} == procs - {i}
    ensures forall j :: j != i ==> (j in after <==> j in procs)
    ensures forall j :: j != i && j in procs ==> after[j] == procs[j]
  {
    forall j | j != i
      ensures (j in after <==> j in procs) && (j in procs ==> after[j] == procs[j])
    {
      assert j in after <==> j in after - {i};
      assert j in procs <==> j in procs - {i};
      if j in procs { assert (after - {i})[j] == (procs - {i})[j]; }
    }
  }

  /** A trapframe and a new address space make a process. */
  lemma Born(m: Mem, g: Mem, r: Mem, p: Proc, trampoline: nat)
    requires m.free != [] && g == AllocPage(m, Filled(5)) && p.tf == m.free[0] && p.sz == 0 && Wf(m)
    requires Space(r, p.pt, {}, Top) && Moved(g, r, {}, Owned(r, p.pt, {}))
    requires Leaf(r, p.pt, TRAPFRAME) == Pte(p.tf, LeafFlags({R, W}))
      && Leaf(r, p.pt, TRAMPOLINE) == Pte(trampoline, LeafFlags({R, X}))
    ensures ProcOk(r, p, trampoline) && Moved(m, r, {}, Foot(r, p))
  {
    hide Space, Leaf, All, Owned, Moved, Wf;
    EmptyRange();
    SpaceRooted(r, p.pt, {}, Top);
    AllocPageOk(m, {}, Filled(5));
    NotTaken(g, r, Owned(r, p.pt, {}), p.tf);
    assert {} + {p.tf} == {p.tf};
    MovedFrame(g, r, {}, Owned(r, p.pt, {}), {p.tf});
    assert Owned(r, p.pt, {}) + {p.tf} == Foot(r, p);
    MovedTrans(m, g, r, {}, {p.tf}, Foot(r, p));
  }

  lemma NotTaken(g: Mem, r: Mem, o: set<nat>, p: nat)
    requires Moved(g, r, {}, o) && p in g.pages
    ensures p !in o && p in r.pages && r.pages[p] == g.pages[p]
  {
  }

  lemma Unborn(m: Mem, g: Mem, h: Mem)
    requires m.free != [] && g == AllocPage(m, Filled(5)) && Wf(m) && Moved(g, h, {}, {})
    ensures m.free[0] in Used(h) && Moved(m, Kfree(h, m.free[0]), {}, {})
  {
    hide All, Wf;
    var p := m.free[0];
    AllocPageOk(m, {}, Filled(5));
    assert {} + {p} == {p};
    MovedFrame(g, h, {}, {}, {p});
    MovedTrans(m, g, h, {}, {p}, {} + {p});
    KfreeOk(h, {p}, p);
    assert {p} - {p} == {};
    MovedTrans(m, h, Kfree(h, p), {}, {p}, {});
  }

  lemma InvWf(m: Mem, procs: map<nat, Proc>, other: set<nat>, trampoline: nat)
    requires Inv(m, procs, other, trampoline)
    ensures Wf(m) && forall i :: i in procs ==> ProcOk(m, procs[i], trampoline) && Rooted(m, procs[i].pt)
  {
  }

  /** Freeing the trapframe leaves the address space as it is. */
  lemma TrapframeFreed(m: Mem, p: Proc, trampoline: nat)
    requires Wf(m) && ProcOk(m, p, trampoline) && Rooted(m, p.pt) && Foot(m, p) <= Used(m)
    ensures var g := Kfree(m, p.tf);
            && Space(g, p.pt, User(p), Top) && Rooted(g, p.pt) && Owned(g, p.pt, User(p)) == Owned(m, p.pt, User(p))
            && Moved(m, g, Foot(m, p), Owned(g, p.pt, User(p)))
  {
    hide All, Leaf, User, Space, Owned, Wf, Rooted;
    var g, o := Kfree(m, p.tf), Owned(m, p.pt, User(p));
    KfreeOk(m, Foot(m, p), p.tf);
    KfreeOk(m, {p.tf}, p.tf);
    Untouched(m, g, {p.tf}, {p.tf} - {p.tf}, p.pt, User(p), Top);
    SpaceRooted(g, p.pt, User(p), Top);
    assert Foot(m, p) - {p.tf} == o;
  }

  /** A process whose space grew or shrank. */
  lemma Resized(m: Mem, r: Mem, p: Proc, q: Proc, trampoline: nat)
    requires ProcOk(m, p, trampoline) && Rooted(m, p.pt) && q == p.(sz := q.sz) && q.sz < WORD
    requires Turned(m, r, p.pt, User(p), Top, User(q), Top)
    ensures ProcOk(r, q, trampoline) && Rooted(r, q.pt) && Moved(m, r, Foot(m, p), Foot(r, q))
    ensures r.pages[p.tf] == m.pages[p.tf]
  {
    hide All, Wf, User, Space, Owned;
    SpaceRooted(r, p.pt, User(q), Top);
    OwnedUsed(m, p.pt, User(p), Top);
    TfKept(m, r, Owned(m, p.pt, User(p)), Owned(r, p.pt, User(q)), p.tf);
    MovedFrame(m, r, Owned(m, p.pt, User(p)), Owned(r, p.pt, User(q)), {p.tf});
  }

  lemma TfKept(m: Mem, r: Mem, f: set<nat>, g: set<nat>, p: nat)
    requires Moved(m, r, f, g) && p in m.pages && p !in f
    ensures p in r.pages && r.pages[p] == m.pages[p] && p !in g
  {
  }

  lemma TrapframeUsed(m: Mem, procs: map<nat, Proc>, other: set<nat>, trampoline: nat, i: nat)
    requires Inv(m, procs, other, trampoline) && i in procs
    ensures Rooted(m, procs[i].pt) && procs[i].tf in Used(m) && Foot(m, procs[i]) <= Used(m) && procs[i].sz < WORD
  {
  }

  lemma ProcSpace(m: Mem, p: Proc, trampoline: nat)
    requires ProcOk(m, p, trampoline)
    ensures Space(m, p.pt, User(p), Top) && Rooted(m, p.pt) && p.sz < WORD && p.tf in m.pages && p.sz <= NVPN * PGSIZE
  {
  }

  /** A process fresh from allocproc: no user page, one table. */
  ghost predicate Newborn(m: Mem, before: map<nat, Proc>, after: map<nat, Proc>, i: nat) {
    && i in after && after == before[i := after[i]] && after[i].sz == 0
    && after[i].pt in m.tables && TopOnly(m, after[i].pt)
  }

  /** What sbrk by `n` makes of process `i`. Memory must reach for all of the growth. A sum that
      wraps around leaves the size alone and still succeeds. */
  ghost predicate Sbrk(m: Mem, r: Mem, before: map<nat, Proc>, after: map<nat, Proc>, i: nat, n: int, ok: bool) {
    && i in before && i in after && after == before[i := before[i].(sz := after[i].sz)]
    && before[i].pt in m.tables
    && var p, t := before[i], (before[i].sz + n) % WORD;
    && ok == (n <= 0 || t < p.sz || |m.free| >= Need(m, p.pt, Pages(p.sz), Pages(t)))
    && after[i].sz == (if ok && ((n > 0 && p.sz <= t) || (n < 0 && t < p.sz)) then t else p.sz)
    && Kept(m, r, p.pt, User(p) * User(after[i]), Top)
    && (ok && n > 0 && p.sz <= t ==> NewPages(r, p.pt, p.sz, t))
  }

  /** The pages that growing from `sz` to `t` adds are zero, and the user can read and write them. */
  ghost predicate NewPages(m: Mem, pt: nat, sz: nat, t: nat) {
    Rooted(m, pt) && t < WORD && Pages(t) <= NVPN && AllZero(m, pt, Pages(sz), Pages(t), LeafFlags({R, U} + {W}))
  }

  lemma OnlyTrans(m: Mem, g: Mem, r: Mem, a: map<nat, Proc>, b: map<nat, Proc>, c: map<nat, Proc>, i: nat)
    requires Only(m, g, a, b, i) && Only(g, r, b, c, i)
    ensures Only(m, r, a, c, i)
  {
    hide Moved, Foot, SameImage, Rooted;
    MovedTrans(m, g, r, FootAt(m, a, i), FootAt(g, b, i), FootAt(r, c, i));
    SameRest(a, b, i);
    forall j | j in a && j != i
      ensures SameImage(m, r, a[j])
    {
      assert SameImage(m, g, a[j]) && SameImage(g, r, b[j]);
      SameImageTrans(m, g, r, a[j]);
    }
  }

  lemma SameImageTrans(m: Mem, g: Mem, r: Mem, p: Proc)
    requires SameImage(m, g, p) && SameImage(g, r, p)
    ensures SameImage(m, r, p)
  {
    hide Leaf, User, Rooted;
  }

  /** The trapframe page with the word of register a0, the fifteenth, cleared. */
  function ClearA0(p: Page): (r: Page)
    ensures forall i :: 0 <= i < PGSIZE ==> r[i] == if 56 <= i < 60 then 0 else p[i]
  {
    p[..56] + [0, 0, 0, 0] + p[60..]
  }

  /** Process `j` of `r` is a copy of process `i` of `m` that returns 0 from fork. */
  ghost predicate Forked(m: Mem, r: Mem, before: map<nat, Proc>, after: map<nat, Proc>, i: nat, j: nat) {
    && i in before && j in after && after == before[j := after[j]] && after[j].sz == before[i].sz < WORD
    && Rooted(m, before[i].pt) && Rooted(r, after[j].pt)
    && CopyOf(m, r, before[i].pt, after[j].pt, Pages(before[i].sz))
    && before[i].tf in m.pages && after[j].tf in r.pages && r.pages[after[j].tf] == ClearA0(m.pages[before[i].tf])
  }

  lemma TrapframeSet(m: Mem, p: Proc, trampoline: nat, data: Page)
    requires Wf(m) && ProcOk(m, p, trampoline) && Rooted(m, p.pt) && Foot(m, p) <= Used(m)
    ensures var r := m.(pages := m.pages[p.tf := data]);
            && ProcOk(r, p, trampoline) && Rooted(r, p.pt) && Moved(m, r, Foot(m, p), Foot(r, p)) && Wf(r)
            && All(r) == All(m)
            && Kept(m, r, p.pt, User(p), Top)
  {
    hide Leaf, User, Rooted, All, Space;
    var r := m.(pages := m.pages[p.tf := data]);
    assert r.pages.Keys == m.pages.Keys;
    assert FreeSet(r) == FreeSet(m);
    SameAll(m, r);
    assert Moved(m, r, {p.tf}, {p.tf});
    Untouched(m, r, {p.tf}, {p.tf}, p.pt, User(p), Top);
    SpaceRooted(r, p.pt, User(p), Top);
  }

  lemma SameAll(m: Mem, r: Mem)
    requires r.free == m.free && r.tables == m.tables && r.pages.Keys == m.pages.Keys
    ensures All(r) == All(m) && FreeSet(r) == FreeSet(m)
  {
  }

  lemma Disjoint(m: Mem, procs: map<nat, Proc>, other: set<nat>, trampoline: nat, i: nat, j: nat)
    requires Inv(m, procs, other, trampoline) && i in procs && j in procs && i != j
    ensures ProcOk(m, procs[i], trampoline) && ProcOk(m, procs[j], trampoline)
    ensures Rooted(m, procs[i].pt) && Rooted(m, procs[j].pt)
    ensures Owned(m, procs[i].pt, User(procs[i])) !! Owned(m, procs[j].pt, User(procs[j]))
    ensures procs[i].tf !in Owned(m, procs[j].pt, User(procs[j]))
  {
    hide Leaf, Space, Owned, Rooted;
    OkRooted(m, procs[i], trampoline);
    OkRooted(m, procs[j], trampoline);
    assert Foot(m, procs[i]) !! Foot(m, procs[j]);
  }

  /** The copy was made of an image that had not changed since the call. */
  lemma CopyOfSame(m: Mem, g: Mem, h: Mem, r: Mem, p: Proc, q: Proc, trampoline: nat)
    requires ProcOk(m, p, trampoline) && SameImage(m, g, p) && Rooted(h, q.pt) && Rooted(g, p.pt)
      && Rooted(m, p.pt) && Rooted(r, q.pt)
    requires Pages(p.sz) <= NVPN && q.sz == p.sz && CopyOf(g, h, p.pt, q.pt, Pages(p.sz))
      && Kept(h, r, q.pt, User(q), Top)
    ensures CopyOf(m, r, p.pt, q.pt, Pages(p.sz))
  {
    hide Leaf, Rooted, Space;
    forall v | 0 <= v < Pages(p.sz)
      ensures Leaf(m, p.pt, v).ppn in m.pages
        && HasPage(r, q.pt, v, Leaf(m, p.pt, v).flags, m.pages[Leaf(m, p.pt, v).ppn])
    {
      assert Within(v, 0, Pages(p.sz));
    }
  }

  lemma UserIs(p: Proc)
    ensures User(p) == Range(0, Pages(p.sz))
  {
  }

  /** The pages fork needs: trapframe, root, two tables or more, and one for each page copied. */
  function ForkCost(sz: nat): (n: nat) {
    3 + Pages(sz) + (Pages(sz) + NPTE - 1) / NPTE
  }

  /** After allocproc in fork: parent `i` is as it was and child `j` has nothing of the parent's. */
  lemma Bred(m: Mem, g: Mem, was: map<nat, Proc>, mid: map<nat, Proc>, other: set<nat>, trampoline: nat, i: nat, j: nat)
    requires i in was && j !in was && Newborn(g, was, mid, j) && Only(m, g, was, mid, j)
    requires Pages(was[i].sz) <= NPAGES
    requires Inv(g, mid, other, trampoline)
    ensures i in mid && mid[i] == was[i] && SameImage(m, g, mid[i]) && User(mid[j]) == {}
    ensures Parted(g, mid[i], mid[j], trampoline)
    ensures was[i].tf in m.pages && was[i].tf in g.pages && g.pages[was[i].tf] == m.pages[was[i].tf]
  {
    hide Leaf, Moved, Need, TopOnly, Inv, Space, Foot, Owned;
    Disjoint(g, mid, other, trampoline, i, j);
    EmptyRange();
    FreshNeed(g, mid[j].pt, Pages(was[i].sz));
  }

  /** What uvmcopy needs of the two spaces. */
  ghost predicate Parted(g: Mem, p: Proc, q: Proc, trampoline: nat) {
    && ProcOk(g, p, trampoline) && ProcOk(g, q, trampoline) && Rooted(g, p.pt) && Rooted(g, q.pt)
    && Space(g, p.pt, Range(0, Pages(p.sz)), Top) && Space(g, q.pt, {}, Top) && p.sz < WORD
    && Owned(g, p.pt, Range(0, Pages(p.sz))) !! Owned(g, q.pt, {}) && p.tf !in Owned(g, q.pt, {})
    && Pages(p.sz) <= NPAGES && Need(g, q.pt, 0, Pages(p.sz)) == ForkCost(p.sz) - 3
  }

  /** After uvmcopy: the child has its pages, and the parent's trapframe is still there. */
  lemma Raised(g: Mem, h: Mem, p: Proc, q: Proc, q1: Proc, trampoline: nat)
    requires Parted(g, p, q, trampoline) && q1 == q.(sz := p.sz) && User(q) == {}
    requires Turned(g, h, q.pt, {}, Top, Range(0, Pages(p.sz)), Top)
    ensures ProcOk(h, q1, trampoline) && Rooted(h, q1.pt) && Moved(g, h, Foot(g, q), Foot(h, q1))
    ensures Wf(h) && Foot(h, q1) <= Used(h)
    ensures p.tf in g.pages && p.tf in h.pages && h.pages[p.tf] == g.pages[p.tf]
  {
    hide Leaf, Space, Need, Owned;
    Resized(g, h, q, q1, trampoline);
    TfKept(g, h, Owned(g, q.pt, {}), Owned(h, q.pt, Range(0, Pages(p.sz))), p.tf);
  }

  /** A process has only its own pages open. */
  lemma OpenPages(m: Mem, p: Proc, trampoline: nat)
    requires ProcOk(m, p, trampoline)
    ensures Space(m, p.pt, User(p), Top) && forall v :: v in Top ==> U !in Leaf(m, p.pt, v).flags
  {
    assert U !in LeafFlags({R, W}) && U !in LeafFlags({R, X});
  }

  /** Once no process is left, all memory but the kernel's own is free again. */
  /** Every process sees the memory it saw. */
  ghost predicate AllSame(m: Mem, r: Mem, procs: map<nat, Proc>) {
    forall j :: j in procs ==> SameImage(m, r, procs[j])
  }

  lemma OtherUsed(m: Mem, procs: map<nat, Proc>, other: set<nat>, trampoline: nat, k: nat)
    requires Inv(m, procs, other, trampoline) && k in other
    ensures k in Used(m)
  {
  }

  /** When only pages of the rest of the kernel moved, every process is as it was. */
  lemma RestMoved(m: Mem, r: Mem, procs: map<nat, Proc>, other: set<nat>, trampoline: nat, f: set<nat>, g: set<nat>)
    requires Moved(m, r, f, g) && f <= other
    requires Inv(m, procs, other, trampoline)
    ensures Inv(r, procs, other - f + g, trampoline) && AllSame(m, r, procs)
  {
    hide ProcOk, SameImage, Foot, All;
    forall j | j in procs
      ensures SameImage(m, r, procs[j]) && SameFoot(m, r, procs[j], trampoline)
    {
      OkRooted(m, procs[j], trampoline);
      OtherProc(m, r, procs[j], trampoline, f, g);
      OkRooted(r, procs[j], trampoline);
    }
    forall k | k in Used(r) && k !in other - f + g
      ensures exists j :: j in procs && k in Foot(r, procs[j])
    {
      var j :| j in procs && k in Foot(m, procs[j]);
      assert k in Foot(r, procs[j]);
    }
  }

  lemma AllBack(m: Mem, procs: map<nat, Proc>, other: set<nat>, trampoline: nat)
    requires procs == map[] && Inv(m, procs, other, trampoline)
    ensures Used(m) == other && FreeSet(m) == All(m) - other
  {
  }

  lemma NoProcs(m: Mem, trampoline: nat)
    requires Wf(m)
    ensures Inv(m, map[], Used(m), trampoline)
  {
  }
}
