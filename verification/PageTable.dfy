/** Physical pages and two-level page tables (kernel/kalloc.c, kernel/vm.c): what the free list
    and the tables mean, and how one step changes them. A page number stands for its address;
    every allocated page is either a page-table page or a data page. */
module PageTable {
  import opened Collections

  const NPTE := 1024
  const NVPN := NPTE * NPTE              // virtual pages of a 32-bit address space
  const TRAMPOLINE := NVPN - 1
  const TRAPFRAME := NVPN - 2

  datatype Flag = V | R | W | X | U | A | D

  datatype Pte = Pte(ppn: nat, flags: set<Flag>) {
    predicate Valid() { V in flags }
    /** Points to a lower-level table rather than to a page. */
    predicate Inner() { flags * {R, W, X} == {} }
  }

  const Null := Pte(0, {})

  type Table = t: seq<Pte> | |t| == NPTE witness seq(NPTE, _ => Pte(0, {}))

  const PGSIZE := 4096
  type Byte = b: int | 0 <= b < 256
  type Page = p: seq<Byte> | |p| == PGSIZE witness seq(PGSIZE, _ => 0)

  /** memset of a whole page. */
  function Filled(b: Byte): (p: Page)
    ensures forall i :: 0 <= i < PGSIZE ==> p[i] == b
  {
    seq(PGSIZE, _ => b)
  }

  function Empty(): (t: Table)
    ensures forall k :: 0 <= k < NPTE ==> t[k] == Null
  {
    seq(NPTE, _ => Null)
  }

  /** kmem.freelist, and the contents of the pages in use. */
  datatype Mem = Mem(free: seq<nat>, tables: map<nat, Table>, pages: map<nat, Page>)

  function Used(m: Mem): (s: set<nat>) {
    m.tables.Keys + m.pages.Keys
  }

  function FreeSet(m: Mem): (s: set<nat>) {
    set i | 0 <= i < |m.free| :: m.free[i]
  }

  /** Every page is in exactly one place, and once only. */
  ghost predicate Wf(m: Mem) {
    && m.tables.Keys !! m.pages.Keys
    && (forall i, j :: 0 <= i < j < |m.free| ==> m.free[i] != m.free[j])
    && (forall i :: 0 <= i < |m.free| ==> m.free[i] !in Used(m))
  }

  function All(m: Mem): (s: set<nat>) {
    FreeSet(m) + Used(m)
  }

  // ---- kalloc and kfree ----

  function AllocTable(m: Mem): (r: Mem)
    requires m.free != []
  {
    Mem(m.free[1..], m.tables[m.free[0] := Empty()], m.pages)
  }

  function AllocPage(m: Mem, data: Page): (r: Mem)
    requires m.free != []
  {
    Mem(m.free[1..], m.tables, m.pages[m.free[0] := data])
  }

  function Kfree(m: Mem, p: nat): (r: Mem) {
    Mem([p] + m.free, m.tables - {p}, m.pages - {p})
  }

  /** `r` was reached from `m` by replacing the pages in `f` by those in `g`, taken from `f` and
      the free list; nothing else that is in use changed. */
  ghost predicate Moved(m: Mem, r: Mem, f: set<nat>, g: set<nat>) {
    && Wf(m) && Wf(r) && All(r) == All(m)
    && f <= Used(m) && Used(r) == Used(m) - f + g && g <= f + FreeSet(m)
    && (forall k :: k in m.tables && k !in f ==> k in r.tables && r.tables[k] == m.tables[k])
    && (forall k :: k in m.pages && k !in f ==> k in r.pages && r.pages[k] == m.pages[k])
  }

  lemma MovedTrans(m: Mem, r: Mem, s: Mem, f: set<nat>, g: set<nat>, h: set<nat>)
    requires Moved(m, r, f, g) && Moved(r, s, g, h)
    ensures Moved(m, s, f, h)
  {
    assert FreeSet(r) == All(r) - Used(r);
    assert FreeSet(m) == All(m) - Used(m);
  }

  lemma FreeTail(m: Mem)
    requires Wf(m) && m.free != []
    ensures FreeSet(m) == {m.free[0]} + set i | 0 <= i < |m.free[1..]| :: m.free[1..][i]
    ensures m.free[0] !in set i | 0 <= i < |m.free[1..]| :: m.free[1..][i]
  {
    assert forall i :: 1 <= i < |m.free| ==> m.free[i] == m.free[1..][i - 1];
  }

  lemma AllocTableOk(m: Mem, f: set<nat>)
    requires Wf(m) && m.free != [] && f <= Used(m)
    ensures Moved(m, AllocTable(m), f, f + {m.free[0]}) && m.free[0] !in Used(m)
  {
    FreeTail(m);
  }

  lemma AllocPageOk(m: Mem, f: set<nat>, data: Page)
    requires Wf(m) && m.free != [] && f <= Used(m)
    ensures Moved(m, AllocPage(m, data), f, f + {m.free[0]}) && m.free[0] !in Used(m)
  {
    FreeTail(m);
  }

  lemma KfreeWf(m: Mem, p: nat)
    requires Wf(m) && p in Used(m)
    ensures Wf(Kfree(m, p)) && FreeSet(Kfree(m, p)) == FreeSet(m) + {p}
  {
    var r := Kfree(m, p);
    forall i | 0 <= i < |r.free|
      ensures i > 0 ==> r.free[i] == m.free[i - 1] && r.free[i] !in Used(m)
    {
    }
    assert FreeSet(r) == FreeSet(m) + {p} by {
      assert r.free[0] == p;
      assert forall i :: 0 <= i < |m.free| ==> r.free[i + 1] == m.free[i];
    }
  }

  /** kfree of a page in use; freeing a free page would break Wf. */
  lemma KfreeOk(m: Mem, f: set<nat>, p: nat)
    requires Wf(m) && p in f && f <= Used(m)
    ensures Moved(m, Kfree(m, p), f, f - {p})
  {
    hide Wf, FreeSet;
    KfreeWf(m, p);
  }

  // ---- tables ----

  /** The root and its valid entries: distinct page-table pages, none of them the root. */
  ghost predicate Rooted(m: Mem, pt: nat) {
    && pt in m.tables
    && (forall k :: 0 <= k < NPTE && m.tables[pt][k].Valid() ==>
          m.tables[pt][k].flags == {V} && m.tables[pt][k].ppn in m.tables && m.tables[pt][k].ppn != pt)
    && (forall j, k :: 0 <= j < k < NPTE && m.tables[pt][j].Valid() && m.tables[pt][k].Valid() ==>
          m.tables[pt][j].ppn != m.tables[pt][k].ppn)
  }

  ghost function Tables(m: Mem, pt: nat): (s: set<nat>)
    requires pt in m.tables
  {
    {pt} + set k | 0 <= k < NPTE && m.tables[pt][k].Valid() :: m.tables[pt][k].ppn
  }

  /** The entry that Sv32 translation of virtual page `v` ends in. */
  ghost function Leaf(m: Mem, pt: nat, v: nat): (e: Pte)
    requires Rooted(m, pt) && v < NVPN
  {
    var e := m.tables[pt][v / NPTE];
    if e.Valid() then m.tables[e.ppn][v % NPTE] else Null
  }

  /** Store an entry. */
  function SetEntry(m: Mem, t: nat, k: nat, e: Pte): (r: Mem)
    requires t in m.tables && k < NPTE
  {
    m.(tables := m.tables[t := m.tables[t][k := e]])
  }

  /** The flags of a page mapped with permissions `perm`. */
  function LeafFlags(perm: set<Flag>): (s: set<Flag>)
    ensures forall f :: f in {R, W, X, U} ==> (f in s <==> f in perm)
    ensures V in s && A in s && (W in s ==> D in s)
  {
    perm + {V, A} + (if W in perm then {D} else {})
  }

  ghost predicate SameLeaves(m: Mem, r: Mem, pt: nat, but: set<nat>)
    requires Rooted(m, pt) && Rooted(r, pt)
  {
    forall u :: 0 <= u < NVPN && u !in but ==> Leaf(r, pt, u) == Leaf(m, pt, u)
  }

  /** The pages that walk must allocate to reach the entry of `v`. */
  function TableCost(m: Mem, pt: nat, v: nat): (n: nat)
    requires pt in m.tables && v < NVPN
  {
    if m.tables[pt][v / NPTE].Valid() then 0 else 1
  }

  /** `r` has the table of `v`, and besides it the tables of `m`. */
  ghost predicate Reaches(m: Mem, r: Mem, pt: nat, v: nat)
    requires pt in m.tables && pt in r.tables && v < NVPN
  {
    && |r.free| + TableCost(m, pt, v) == |m.free|
    && r.tables[pt][v / NPTE].Valid()
    && forall k :: 0 <= k < NPTE && k != v / NPTE ==> r.tables[pt][k] == m.tables[pt][k]
  }

  /** walk with allocation: at most one new table, and the same translation of every page. */
  ghost predicate Walked(m: Mem, r: Mem, pt: nat, v: nat, t: Option<nat>)
    requires Rooted(m, pt) && v < NVPN
  {
    && Rooted(r, pt) && Moved(m, r, Tables(m, pt), Tables(r, pt)) && r.pages == m.pages
    && Tables(m, pt) <= Tables(r, pt)
    && SameLeaves(m, r, pt, {})
    && (t.None? ==> r == m && |m.free| < TableCost(m, pt, v))
    && (t.Some? ==> t.value in r.tables && r.tables[pt][v / NPTE] == Pte(t.value, {V}) && Reaches(m, r, pt, v))
  }

  lemma WalkOk(m: Mem, pt: nat, v: nat)
    requires Wf(m) && Rooted(m, pt) && v < NVPN && !m.tables[pt][v / NPTE].Valid() && m.free != []
    ensures var t := m.free[0];
            pt in AllocTable(m).tables &&
            Walked(m, SetEntry(AllocTable(m), pt, v / NPTE, Pte(t, {V})), pt, v, Some(t))
  {
    var t, k := m.free[0], v / NPTE;
    AllocTableOk(m, Tables(m, pt));
    var r := SetEntry(AllocTable(m), pt, k, Pte(t, {V}));
    assert r.tables[pt][k].ppn == t;
    assert forall j :: 0 <= j < NPTE && j != k ==> r.tables[pt][j] == m.tables[pt][j];
    assert Tables(r, pt) == Tables(m, pt) + {t};
  }

  /** Storing the entry of a page changes the translation of that page alone. */
  lemma SetLeaf(m: Mem, pt: nat, v: nat, e: Pte)
    requires Wf(m) && Rooted(m, pt) && v < NVPN && m.tables[pt][v / NPTE].Valid()
    ensures var r := SetEntry(m, m.tables[pt][v / NPTE].ppn, v % NPTE, e);
            && Rooted(r, pt) && Tables(r, pt) == Tables(m, pt) && r.pages == m.pages
            && Moved(m, r, Tables(m, pt), Tables(m, pt))
            && Leaf(r, pt, v) == e && SameLeaves(m, r, pt, {v})
  {
    var t := m.tables[pt][v / NPTE].ppn;
    var r := SetEntry(m, t, v % NPTE, e);
    forall u | 0 <= u < NVPN && u != v
      ensures Leaf(r, pt, u) == Leaf(m, pt, u)
    {
      if u / NPTE == v / NPTE { assert u % NPTE != v % NPTE; }
    }
  }

  // ---- address spaces ----

  ghost function Targets(m: Mem, pt: nat, vs: set<nat>): (s: set<nat>)
    requires Rooted(m, pt)
  {
    set v | v in vs && v < NVPN :: Leaf(m, pt, v).ppn
  }

  /** The mapped pages are exactly `user`, each to a data page of its own, and `extra`. */
  ghost predicate Space(m: Mem, pt: nat, user: set<nat>, extra: set<nat>) {
    && Rooted(m, pt) && user !! extra
    && (forall v :: v in user || v in extra ==> v < NVPN)
    && (forall v :: 0 <= v < NVPN ==> (Leaf(m, pt, v).Valid() <==> (v in user || v in extra)))
    && (forall v :: v in user || v in extra ==> LeafFlags(Leaf(m, pt, v).flags) == Leaf(m, pt, v).flags)
    && (forall v :: v in user ==> Leaf(m, pt, v).ppn in m.pages)
    && (forall u, v :: u in user && v in user && u != v ==> Leaf(m, pt, u).ppn != Leaf(m, pt, v).ppn)
  }

  /** The pages that belong to an address space: its tables and its user pages. */
  ghost function Owned(m: Mem, pt: nat, user: set<nat>): (s: set<nat>)
    requires Rooted(m, pt)
  {
    Tables(m, pt) + Targets(m, pt, user)
  }

  /** The pages `user` have the same frames, flags and contents, and `extra` the same entries. */
  ghost predicate Kept(m: Mem, r: Mem, pt: nat, user: set<nat>, extra: set<nat>) {
    && Rooted(m, pt) && Rooted(r, pt)
    && (forall v :: v in user && v < NVPN ==>
          && Leaf(r, pt, v) == Leaf(m, pt, v) && Leaf(m, pt, v).ppn in m.pages && Leaf(m, pt, v).ppn in r.pages
          && r.pages[Leaf(m, pt, v).ppn] == m.pages[Leaf(m, pt, v).ppn])
    && (forall v :: v in extra && v < NVPN ==> Leaf(r, pt, v) == Leaf(m, pt, v))
  }
}
