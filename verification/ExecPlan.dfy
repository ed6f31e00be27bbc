/** When exec (kernel/exec.c) succeeds: what its segments and arguments ask for, and what that costs in pages. */
module ExecPlan {
  import opened Collections
  import opened PageTable
  import opened AddressSpace
  import opened UserBytes
  import ProcMemory
  import opened ExecImage
  import opened ExecContents

  // ---- sizes ----

  /** What the first `k` program headers make of the size, if each of them is in order. */
  function SizeAfter(segs: seq<Segment>, k: nat): (r: Option<nat>)
    requires k <= |segs|
  {
    if k == 0 then Some(0)
    else
      var was := SizeAfter(segs, k - 1);
      if was.None? then None else Grows(was.value, segs[k - 1])
  }

  function Grows(sz: nat, s: Segment): (r: Option<nat>) {
    match s
    case Broken => None
    case Skipped => Some(sz)
    case Load(vaddr, filesz, memsz, _, data) =>
      if memsz < filesz || vaddr + memsz >= WORD || vaddr % PGSIZE != 0 || |data| < filesz then None
      else if vaddr + memsz > sz then Some(vaddr + memsz)
      else if sz > 0 then Some(sz)
      else None                          // uvmalloc returned 0
  }

  /** A header that is out of order spoils all that follow; otherwise sizes only grow. */
  lemma {:induction false} SizesGrow(segs: seq<Segment>, k: nat, n: nat)
    requires k <= n <= |segs|
    ensures SizeAfter(segs, k).None? ==> SizeAfter(segs, n).None?
    ensures var a, b := SizeAfter(segs, k), SizeAfter(segs, n); b.Some? ==> a.Some? && a.value <= b.value
    decreases n
  {
    if k < n { SizesGrow(segs, k, n - 1); }
  }

  // ---- pages ----

  /** The pages of a space of `n` user pages, besides its root and the table of the trampoline. */
  function SpaceCost(n: nat): (c: nat) {
    var t := (n + NPTE - 1) / NPTE;
    n + if t < NPTE then t else NPTE - 1
  }

  /** The tables of a space are those that its first `n` pages and the trampoline need. */
  ghost predicate Tabled(m: Mem, pt: nat, n: nat)
    requires pt in m.tables
  {
    forall k :: 0 <= k < NPTE ==> (m.tables[pt][k].Valid() <==> k == NPTE - 1 || k < (n + NPTE - 1) / NPTE)
  }

  lemma {:induction false} TabledNeed(m: Mem, pt: nat, lo: nat, hi: nat)
    requires pt in m.tables && Tabled(m, pt, lo) && lo <= hi <= NVPN
    ensures Need(m, pt, lo, hi) == SpaceCost(hi) - SpaceCost(lo)
    decreases hi
  {
    if lo < hi {
      TabledNeed(m, pt, lo, hi - 1);
      NextCost(hi - 1);
      var v := hi - 1;
      assert v == v / NPTE * NPTE + v % NPTE && 0 <= v / NPTE < NPTE;
      if v % NPTE == 0 {
        assert (lo + NPTE - 1) / NPTE <= v / NPTE;
      } else if v == lo {
        assert (lo + NPTE - 1) / NPTE == v / NPTE + 1;
      }
    }
  }

  lemma NextCost(v: nat)
    requires v < NVPN
    ensures SpaceCost(v + 1) == SpaceCost(v) + 1 + if v % NPTE == 0 && v / NPTE < NPTE - 1 then 1 else 0
  {
    assert v == v / NPTE * NPTE + v % NPTE;
    if v % NPTE == 0 {
      assert (v + NPTE - 1) / NPTE == v / NPTE && (v + 1 + NPTE - 1) / NPTE == v / NPTE + 1;
    } else {
      assert (v + NPTE - 1) / NPTE == v / NPTE + 1 == (v + 1 + NPTE - 1) / NPTE;
    }
  }

  lemma PaidTabled(m: Mem, r: Mem, pt: nat, lo: nat, hi: nat)
    requires pt in m.tables && pt in r.tables && lo <= hi <= NVPN && Tabled(m, pt, lo) && Paid(m, r, pt, lo, hi)
    ensures Tabled(r, pt, hi)
  {
    var a, b := (lo + NPTE - 1) / NPTE, (hi + NPTE - 1) / NPTE;
    if lo < hi {
      assert (hi - 1) / NPTE == b - 1;
      assert a == lo / NPTE || a == lo / NPTE + 1;
    }
  }

  lemma CostGrows(a: nat, b: nat)
    requires a <= b
    ensures SpaceCost(a) + b - a <= SpaceCost(b)
  {
    assert (a + NPTE - 1) / NPTE <= (b + NPTE - 1) / NPTE;
  }

  /** Of the pages that were free at `m`, a space of `n` user pages has taken what it costs. */
  ghost predicate Spent(m: Mem, g: Mem, pt: nat, n: nat) {
    pt in g.tables && n <= NVPN && Tabled(g, pt, n) && |g.free| + 2 + SpaceCost(n) == |m.free|
  }

  lemma SpentNone(m: Mem, g: Mem, pt: nat)
    requires pt in g.tables && TopOnly(g, pt) && |g.free| + 2 == |m.free|
    ensures Spent(m, g, pt, 0)
  {
  }

  /** Growing the space further is possible exactly when the free pages cover the whole of it. */
  lemma SpentMore(m: Mem, g: Mem, r: Mem, pt: nat, lo: nat, hi: nat)
    requires Spent(m, g, pt, lo) && lo <= hi <= NVPN
    ensures |g.free| >= Need(g, pt, lo, hi) <==> |m.free| >= 2 + SpaceCost(hi)
    ensures Paid(g, r, pt, lo, hi) ==> Spent(m, r, pt, hi)
  {
    hide Need, SpaceCost, Tabled;
    TabledNeed(g, pt, lo, hi);
    if Paid(g, r, pt, lo, hi) {
      PaidFree(g, r, pt, lo, hi);
      PaidTabled(g, r, pt, lo, hi);
    }
  }

  lemma SpentSame(m: Mem, g: Mem, r: Mem, pt: nat, n: nat)
    requires Spent(m, g, pt, n) && r.tables == g.tables && r.free == g.free
    ensures Spent(m, r, pt, n)
  {
  }

  /** The segments are in order and `n` free pages hold them. */
  predicate SegsFit(segs: seq<Segment>, n: nat) {
    var sz := SizeAfter(segs, |segs|);
    sz.Some? && n >= 2 + SpaceCost(Pages(sz.value))
  }

  /** The loading loop of exec before segment `i`. */
  ghost predicate Loading(m: Mem, g: Mem, pt: nat, sz: nat, tf: nat, trampoline: nat, segs: seq<Segment>, i: nat) {
    && i <= |segs| && Building(m, g, pt, sz, tf, trampoline)
    && Rooted(g, pt) && Pages(sz) <= NVPN && AllOpen(g, pt, Pages(sz)) && Loaded(g, pt, segs, i, sz)
    && Spent(m, g, pt, Pages(sz)) && SizeAfter(segs, i) == Some(sz)
    && sz == End(segs, i) && Laid(g, pt, segs, i, i, Pages(sz))
  }

  lemma LoadingFirst(m: Mem, g: Mem, pt: nat, tf: nat, trampoline: nat, segs: seq<Segment>)
    requires Building(m, g, pt, 0, tf, trampoline) && Spent(m, g, pt, 0)
    ensures Loading(m, g, pt, 0, tf, trampoline, segs, 0)
  {
    hide Building, Spent;
    BuildFacts(m, g, pt, 0, tf, trampoline);
    LoadedNone(g, pt, segs);
    LaidNone(g, pt, segs);
  }

  lemma LoadingSkip(m: Mem, g: Mem, pt: nat, sz: nat, tf: nat, trampoline: nat, segs: seq<Segment>, i: nat)
    requires Loading(m, g, pt, sz, tf, trampoline, segs, i) && i < |segs| && segs[i].Skipped?
    ensures Loading(m, g, pt, sz, tf, trampoline, segs, i + 1)
  {
    hide Building, Spent, AllOpen, Loaded, Laid;
    LoadedSkip(g, pt, segs, i, sz);
    LaidSkip(g, pt, segs, i, Pages(sz));
  }

  /** A segment out of order, or one too big for memory, and the whole does not fit. */
  lemma Misfit(segs: seq<Segment>, i: nat, n: nat)
    requires i < |segs|
    requires SizeAfter(segs, i + 1).None? || n < 2 + SpaceCost(Pages(SizeAfter(segs, i + 1).value))
    ensures !SegsFit(segs, n)
  {
    hide SpaceCost, SizeAfter;
    SizesGrow(segs, i + 1, |segs|);
    var a, b := SizeAfter(segs, i + 1), SizeAfter(segs, |segs|);
    if a.Some? && b.Some? {
      assert Pages(a.value) <= Pages(b.value);
      CostGrows(Pages(a.value), Pages(b.value));
    }
  }

  /** A segment to be loaded, but for its file being too short. */
  predicate InOrder(s: Segment) {
    s.Load? && s.filesz <= s.memsz && s.vaddr + s.memsz < WORD && s.vaddr % PGSIZE == 0
  }

  /** The pages of segment `i` are there, its bytes not yet. */
  ghost predicate Allocated(m: Mem, g: Mem, pt: nat, sz: nat, tf: nat, trampoline: nat, segs: seq<Segment>, i: nat)
    requires i < |segs|
  {
    && Building(m, g, pt, sz, tf, trampoline)
    && Rooted(g, pt) && Pages(sz) <= NVPN && AllOpen(g, pt, Pages(sz)) && Loaded(g, pt, segs, i, sz)
    && Spent(m, g, pt, Pages(sz)) && InOrder(segs[i]) && segs[i].vaddr + segs[i].memsz <= sz
    && SizeAfter(segs, i + 1) == (if |segs[i].data| < segs[i].filesz then None else Some(sz))
    && sz == End(segs, i + 1) && Laid(g, pt, segs, i + 1, i, Pages(sz))
  }

  /** What uvmalloc returned for segment `i` decides whether the segments can fit. */
  lemma GrewExact(m: Mem, g: Mem, r: Mem, pt: nat, sz: nat, grown: nat, segs: seq<Segment>, i: nat)
    requires i < |segs| && InOrder(segs[i]) && SizeAfter(segs, i) == Some(sz) && Spent(m, g, pt, Pages(sz))
    requires var end := segs[i].vaddr + segs[i].memsz;
             && (end < sz ==> grown == sz && r == g)
             && (sz <= end ==>
                   grown == if |g.free| >= Need(g, pt, Pages(sz), Pages(end)) then end else 0)
             && (sz <= end && grown != 0 ==> Paid(g, r, pt, Pages(sz), Pages(end)))
    ensures grown == 0 ==> !SegsFit(segs, |m.free|)
    ensures grown != 0 ==>
              && Spent(m, r, pt, Pages(grown)) && segs[i].vaddr + segs[i].memsz <= grown
              && SizeAfter(segs, i + 1) == if |segs[i].data| < segs[i].filesz then None else Some(grown)
  {
    hide Spent, Need, Paid, SegsFit, SpaceCost;
    var end := segs[i].vaddr + segs[i].memsz;
    if sz <= end {
      assert Pages(sz) <= Pages(end) <= NVPN;
      SpentMore(m, g, r, pt, Pages(sz), Pages(end));
    }
    if grown == 0 { Misfit(segs, i, |m.free|); }
  }

  lemma WroteSpent(m: Mem, g: Mem, r: Mem, pt: nat, sz: nat, base: nat, data: seq<Byte>)
    requires Spent(m, g, pt, Pages(sz)) && Wrote(g, r, pt, Range(0, Pages(sz)), ProcMemory.Top, base, data)
    ensures Spent(m, r, pt, Pages(sz))
  {
    hide Spent, Holds, UserOnly, Range;
    SpentSame(m, g, r, pt, Pages(sz));
  }

  lemma LoadingFits(m: Mem, g: Mem, pt: nat, sz: nat, tf: nat, trampoline: nat, segs: seq<Segment>)
    requires Loading(m, g, pt, sz, tf, trampoline, segs, |segs|)
    ensures SegsFit(segs, |m.free|)
  {
    hide Building, AllOpen, Loaded, Tabled, SpaceCost, Laid;
  }

  // ---- arguments ----

  /** Where the first `k` argument strings end, from the bottom of the stack page; below 0 if they do not fit. */
  function ArgTop(args: seq<seq<Byte>>, k: nat): (t: int)
    requires k <= |args|
    ensures t <= PGSIZE
  {
    if k == 0 then PGSIZE
    else
      var was := ArgTop(args, k - 1);
      if was < 0 then was else Down(was - |args[k - 1]|)
  }

  lemma NoArgs(args: seq<seq<Byte>>)
    ensures ArgTop(args, 0) == PGSIZE
  {
  }

  /** An address rounded down to a multiple of 16. */
  function Down(t: int): (r: int)
    ensures t - 16 < r <= t && r % 16 == 0
  {
    t - t % 16
  }

  /** Where the array of argument addresses goes. */
  function ArgvAt(args: seq<seq<Byte>>): (t: int) {
    Down(ArgTop(args, |args|) - 4 * (|args| + 1))
  }

  predicate ArgsFit(args: seq<seq<Byte>>) {
    ArgTop(args, |args|) >= 0 && ArgvAt(args) >= 0
  }

  lemma {:induction false} Overflow(args: seq<seq<Byte>>, k: nat, n: nat)
    requires k <= n <= |args| && ArgTop(args, k) < 0
    ensures ArgTop(args, n) < 0
    decreases n
  {
    if k < n { Overflow(args, k, n - 1); }
  }

  /** Stack pages are aligned, so rounding an address down is rounding its offset. */
  lemma DownFrom(base: nat, t: int)
    requires base % PGSIZE == 0
    ensures Down(base + t) == base + Down(t) && base % 16 == 0
  {
    assert base == base / PGSIZE * (PGSIZE / 16) * 16;
    AlignedShift(base / PGSIZE * (PGSIZE / 16), t);
  }

  lemma AlignedShift(n: nat, t: int)
    ensures (n * 16 + t) % 16 == t % 16
  {
    assert t == t / 16 * 16 + t % 16;
    assert n * 16 + t == (n + t / 16) * 16 + t % 16;
  }

  /** The next string goes where the plan says. */
  lemma NextArg(args: seq<seq<Byte>>, k: nat, base: nat, sp: nat)
    requires base % PGSIZE == 0 && k < |args| && sp == base + ArgTop(args, k) && base <= sp
    ensures var to := Down(sp - |args[k]|);
            to == base + ArgTop(args, k + 1) && to + |args[k]| <= sp && (to < base ==> !ArgsFit(args))
  {
    DownFrom(base, sp - |args[k]| - base);
    hide Down;
    if ArgTop(args, k + 1) < 0 { Overflow(args, k + 1, |args|); }
  }

  /** And so does the array. */
  lemma LastArg(args: seq<seq<Byte>>, base: nat, sp: nat)
    requires base % PGSIZE == 0 && sp == base + ArgTop(args, |args|) && base <= sp
    ensures var n := 4 * (|args| + 1); var to := Down(sp - n);
            to == base + ArgvAt(args) && to + n <= sp && to % 16 == 0 && (base <= to <==> ArgsFit(args))
  {
    DownFrom(base, sp - 4 * (|args| + 1) - base);
    hide ArgTop;
  }

  /** Every byte of the stack page can be written. */
  lemma StackOpen(m: Mem, pt: nat, sz: nat, segs: seq<Segment>, addrs: seq<nat>, args: seq<seq<Byte>>, sp: nat,
                  to: nat, k: nat)
    requires Stacked(m, pt, sz, segs, addrs, args, sp) && sz - PGSIZE <= to
    ensures to + k < sz ==> Readable(m, pt, Addr(to, k))
  {
    hide Loaded, Holds;
  }

  /** exec has what it needs: segments in order, arguments that fit a page, and pages for all of the image. */
  predicate ExecFits(segs: seq<Segment>, args: seq<seq<Byte>>, n: nat) {
    var sz := SizeAfter(segs, |segs|);
    sz.Some? && n >= 2 + SpaceCost(Pages(sz.value) + 2) && ArgsFit(args)
  }

  lemma FitsSegs(segs: seq<Segment>, args: seq<seq<Byte>>, n: nat)
    requires ExecFits(segs, args, n)
    ensures SegsFit(segs, n)
  {
    hide SpaceCost, SizeAfter;
    var p := Pages(SizeAfter(segs, |segs|).value);
    CostGrows(p, p + 2);
  }

  lemma StackBase(sz: nat)
    requires sz % PGSIZE == 0 && PGSIZE <= sz
    ensures (sz - PGSIZE) % PGSIZE == 0
  {
  }

  lemma StackPages(sz: nat)
    requires sz % PGSIZE == 0 && sz + 2 * PGSIZE < WORD
    ensures Pages(sz + 2 * PGSIZE) == Pages(sz) + 2 <= NVPN && sz == Pages(sz) * PGSIZE
  {
  }
}
