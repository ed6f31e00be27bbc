/** malloc, free and morecore of user/umalloc.c, over the heap of module FreeList. Addresses count
    units of sizeof(Header), 8 bytes. */
module Umalloc {
  import opened FreeList

  const NULL := 0
  const UNIT := 8

  predicate LinkAt(ptr: map<int, int>, ring: seq<int>, i: nat)
    requires i < |ring|
  {
    ring[i] in ptr && ptr[ring[i]] == ring[Succ(ring, i)]
  }

  /** Each free block points to the next, the last to the first. */
  predicate Linked(ptr: map<int, int>, ring: seq<int>) {
    forall i :: 0 <= i < |ring| ==> LinkAt(ptr, ring, i)
  }

  function Succ(ring: seq<int>, i: nat): (j: nat)
    requires i < |ring|
    ensures j < |ring|
  {
    if i + 1 < |ring| then i + 1 else 0
  }

  /** The index of the last free block below `bp`. */
  ghost function Place(ring: seq<int>, bp: int): (t: nat)
    requires ring != [] && Sorted(ring) && ring[0] < bp && bp !in ring
    ensures t < |ring| && ring[t] < bp && (t + 1 < |ring| ==> bp < ring[t + 1])
  {
    var n := |ring| - 1;
    assert ring[n] in ring;
    if ring[n] < bp then n else Place(ring[..n], bp)
  }

  lemma LinkInsert(ptr: map<int, int>, ring: seq<int>, i: nat, b: int)
    requires Linked(ptr, ring) && i < |ring| && b !in ring && Sorted(ring) && ring[i] in ptr
    ensures Linked(ptr[b := ptr[ring[i]]][ring[i] := b], ring[..i + 1] + [b] + ring[i + 1..])
  {
    RingHas(ring, i, b);
    var q, r := ptr[b := ptr[ring[i]]][ring[i] := b], ring[..i + 1] + [b] + ring[i + 1..];
    assert LinkAt(ptr, ring, i);
    forall k | 0 <= k < |r|
      ensures LinkAt(q, r, k)
    {
      if k < i { assert LinkAt(ptr, ring, k); }
      if k > i + 1 { assert LinkAt(ptr, ring, k - 1); }
    }
  }

  lemma LinkMerge(ptr: map<int, int>, ring: seq<int>, i: nat)
    requires Linked(ptr, ring) && i + 1 < |ring| && Sorted(ring) && ring[i + 1] in ptr
    ensures Linked(ptr[ring[i] := ptr[ring[i + 1]]], ring[..i + 1] + ring[i + 2..])
  {
    RingLess(ring, i);
    var q, r := ptr[ring[i] := ptr[ring[i + 1]]], ring[..i + 1] + ring[i + 2..];
    assert LinkAt(ptr, ring, i + 1);
    forall k | 0 <= k < |r|
      ensures LinkAt(q, r, k)
    {
      if k < i { assert LinkAt(ptr, ring, k); }
      if k > i { assert LinkAt(ptr, ring, k + 1); }
    }
  }

  lemma Follow(ptr: map<int, int>, ring: seq<int>, k: nat)
    requires Linked(ptr, ring) && k < |ring|
    ensures LinkAt(ptr, ring, k) && LinkAt(ptr, ring, Succ(ring, k))
  {
  }

  lemma LinkSame(ptr: map<int, int>, other: map<int, int>, ring: seq<int>)
    requires Linked(ptr, ring) && forall x :: x in ring && x in ptr ==> x in other && other[x] == ptr[x]
    ensures Linked(other, ring)
  {
    forall k | 0 <= k < |ring|
      ensures LinkAt(other, ring, k)
    {
      assert LinkAt(ptr, ring, k);
      var x := ring[k];
      assert x in ring && x in ptr && x in other && other[x] == ptr[x];
    }
  }

  lemma InvRing(h: Heap, slack: set<int>)
    requires Inv(h, slack)
    ensures h.ring != [] && h.ring[0] == h.base && Sorted(h.ring) && h.base in h.size && h.size[h.base] == 0
    ensures forall x :: x in h.ring ==> x in h.size && x >= h.base && h.size[x] >= 0
    ensures forall x :: x in h.live ==> x !in h.ring && x in h.size && x > h.base && h.size[x] >= 1
  {
    forall x | x in h.ring && x != h.base
      ensures x in h.size && x > h.base && h.size[x] >= 1
    {
      assert IsBlock(h, x);
      assert BlockOk(h, x);
    }
    forall x | x in h.live
      ensures x in h.size && x > h.base && h.size[x] >= 1
    {
      assert IsBlock(h, x);
      assert BlockOk(h, x);
    }
  }

  /** Block `p` or the one after it has `n` units or more. */
  ghost predicate Near(h: Heap, p: int, n: int) {
    exists i :: 0 <= i < |h.ring| && h.ring[i] == p && h.ring[i] in h.size && NearAt(h, i, n)
  }

  ghost predicate NearAt(h: Heap, i: nat, n: int)
    requires i < |h.ring| && h.ring[i] in h.size
  {
    h.size[h.ring[i]] >= n || (i + 1 < |h.ring| && h.ring[i + 1] in h.size && h.size[h.ring[i + 1]] >= n)
  }

  /** The links that free leaves. */
  function Relink(h: Heap, ptr: map<int, int>, i: nat, b: int): (r: map<int, int>)
    requires i < |h.ring| && b in h.size && h.ring[i] in h.size && LinkAt(ptr, h.ring, i)
      && LinkAt(ptr, h.ring, Succ(h.ring, i))
  {
    var p, next := h.ring[i], ptr[h.ring[i]];
    var to := if b + h.size[b] == next then ptr[next] else next;
    ptr[b := to][p := if p + h.size[p] == b then to else b]
  }

  /** The links after the first of free's two steps. */
  function Raised(h: Heap, ptr: map<int, int>, i: nat, b: int): (r: map<int, int>)
    requires i < |h.ring| && b in h.size && LinkAt(ptr, h.ring, i) && LinkAt(ptr, h.ring, Succ(h.ring, i))
  {
    var next := ptr[h.ring[i]];
    ptr[b := if Touches(h, i, b) then ptr[next] else next][h.ring[i] := b]
  }

  lemma RaiseLinks(h: Heap, ptr: map<int, int>, i: nat, b: int)
    requires i < |h.ring| && b in h.size && (forall x :: x in h.ring ==> x in h.size) && Linked(ptr, h.ring)
    requires Sorted(h.ring) && b !in h.ring && h.ring[i] < b && (i + 1 < |h.ring| ==> b < h.ring[i + 1])
    requires LinkAt(ptr, h.ring, i) && LinkAt(ptr, h.ring, Succ(h.ring, i))
    ensures Linked(Raised(h, ptr, i, b), Raise(h, i, b).ring) && Sorted(Raise(h, i, b).ring)
  {
    hide Linked, LinkAt, Sorted;
    InsertSorted(h, i, b);
    RingAt(h.ring, i, b);
    LinkIn(ptr, h.ring, i);
    LinkInsert(ptr, h.ring, i, b);
    var r, q := Insert(h, i, b).ring, ptr[b := ptr[h.ring[i]]][h.ring[i] := b];
    if Touches(h, i, b) {
      Follow(q, r, i + 1);
      LinkIn(q, r, i + 2);
      LinkMerge(q, r, i + 1);
      SortedLess(r, i + 1);
      LinkIn(ptr, h.ring, i + 1);
      assert q[b := q[h.ring[i + 1]]] == Raised(h, ptr, i, b);
    }
  }

  lemma RingAt(ring: seq<int>, i: nat, b: int)
    requires i < |ring|
    ensures var r := ring[..i + 1] + [b] + ring[i + 1..];
            |r| == |ring| + 1 && r[i + 1] == b && r[i] == ring[i] && (i + 1 < |ring| ==> r[i + 2] == ring[i + 1])
  {
  }

  lemma SortedLess(ring: seq<int>, i: nat)
    requires i + 1 < |ring| && Sorted(ring)
    ensures Sorted(ring[..i + 1] + ring[i + 2..])
  {
    RingLess(ring, i);
  }

  lemma LinkIn(ptr: map<int, int>, ring: seq<int>, k: nat)
    requires k < |ring| && LinkAt(ptr, ring, k)
    ensures ring[k] in ptr && ptr[ring[k]] == ring[Succ(ring, k)]
  {
  }

  lemma ReleaseLinks(h: Heap, ptr: map<int, int>, i: nat, b: int)
    requires i < |h.ring| && b in h.size && (forall x :: x in h.ring ==> x in h.size && h.size[x] >= 0)
      && Linked(ptr, h.ring)
    requires Sorted(h.ring) && b !in h.ring && h.ring[i] < b && (i + 1 < |h.ring| ==> b < h.ring[i + 1])
    requires LinkAt(ptr, h.ring, i) && LinkAt(ptr, h.ring, Succ(h.ring, i))
      && (Touches(h, i, b) <==> b + h.size[b] == ptr[h.ring[i]])
    ensures Linked(Relink(h, ptr, i, b), Release(h, i, b).ring)
  {
    hide Linked, Raise;
    RaiseLinks(h, ptr, i, b);
    RaiseAt(h, i, b);
    var k, s := Raise(h, i, b), Raised(h, ptr, i, b);
    if h.ring[i] + h.size[h.ring[i]] == b {
      Follow(s, k.ring, i);
      LinkMerge(s, k.ring, i);
      RingLess(k.ring, i);
      LinkSame(s[h.ring[i] := s[b]], Relink(h, ptr, i, b), Release(h, i, b).ring);
    }
  }

  lemma ReleaseNear(h: Heap, i: nat, b: int)
    requires i < |h.ring| && b in h.size && b !in h.ring && forall x :: x in h.ring ==> x in h.size && h.size[x] >= 0
    ensures Near(Release(h, i, b), h.ring[i], h.size[b]) && h.ring[i] in Release(h, i, b).ring
  {
    hide Raise;
    RaiseAt(h, i, b);
    var r := Release(h, i, b);
    assert r.ring[i] == h.ring[i] && NearAt(r, i, h.size[b]);
  }

  lemma NearMore(h: Heap, p: int, m: int, n: int)
    requires Near(h, p, m) && n <= m
    ensures Near(h, p, n)
  {
    var i :| 0 <= i < |h.ring| && h.ring[i] == p && h.ring[i] in h.size && NearAt(h, i, m);
    assert NearAt(h, i, n);
  }

  lemma NewBlock(h: Heap, a: int, b: int)
    requires Inv(h, {}) && !IsBlock(h, b) && a in h.ring && a < b
    ensures b !in h.live && b !in h.ring
  {
    InvRing(h, {});
  }

  lemma BaseIsNotNull(h: Heap, x: int)
    requires Inv(h, {}) && x in h.ring && h.base > NULL
    ensures x != NULL
  {
    InvRing(h, {});
  }

  lemma UnlinkLinks(h: Heap, ptr: map<int, int>, k: nat)
    requires Inv(h, {}) && Linked(ptr, h.ring) && 0 < k < |h.ring|
    ensures h.ring[k] in ptr && Linked(ptr[h.ring[k - 1] := ptr[h.ring[k]]], Unlink(h, k).ring)
    ensures h.ring[k - 1] in Unlink(h, k).ring
  {
    hide Inv, Linked;
    InvRing(h, {});
    Follow(ptr, h.ring, k - 1);
    LinkMerge(ptr, h.ring, k - 1);
    assert h.ring[..k - 1 + 1] == h.ring[..k] && h.ring[k - 1 + 2..] == h.ring[k + 1..];
    assert Unlink(h, k).ring[k - 1] == h.ring[k - 1];
  }

  // ---- the walk of malloc ----

  /** The units that hold `nbytes` bytes, no more than needed, and a header. */
  function Nunits(nbytes: nat): (n: nat)
    ensures n >= 1 && nbytes <= (n - 1) * UNIT < nbytes + UNIT
  {
    (nbytes + UNIT - 1) / UNIT + 1
  }

  function CoreUnits(nunits: nat): (n: nat) {
    if nunits < 4096 then 4096 else nunits
  }

  ghost predicate NoFit(h: Heap, n: int) {
    forall i :: 0 <= i < |h.ring| ==> h.ring[i] in h.size && h.size[h.ring[i]] < n
  }

  /** The index `e` places round the ring from `f`. */
  function Idx(n: nat, f: nat, e: nat): (k: nat)
    requires f < n && e <= n
    ensures k < n
  {
    if f + e < n then f + e else f + e - n
  }

  /** `p` is the `e`th block after freep, and `prevp` the one before it. */
  ghost predicate Walk(h: Heap, ptr: map<int, int>, freep: int, f: nat, e: nat, prevp: int, p: int) {
    && f < |h.ring| && h.ring[f] == freep && 1 <= e <= |h.ring|
    && h.ring[Idx(|h.ring|, f, e)] == p && h.ring[Idx(|h.ring|, f, e - 1)] == prevp
  }

  /** The blocks passed are all too small. */
  ghost predicate Passed(h: Heap, f: nat, e: nat, n: int) {
    f < |h.ring| && e <= |h.ring| && forall d :: 1 <= d < e ==>
      h.ring[Idx(|h.ring|, f, d)] in h.size && h.size[h.ring[Idx(|h.ring|, f, d)]] < n
  }

  /** A block that fits is `et - e` places on, before the walk is round. */
  ghost predicate Ahead(h: Heap, f: nat, e: nat, et: nat, n: int) {
    && f < |h.ring| && e <= et <= |h.ring|
    && h.ring[Idx(|h.ring|, f, et)] in h.size && h.size[h.ring[Idx(|h.ring|, f, et)]] >= n
  }

  lemma FirstRing(h: Heap, ptr: map<int, int>)
    requires h.ring == [h.base] && h.live == {} && h.owner == map[] && h.base in h.size && h.size[h.base] == 0
    requires h.base in ptr && ptr[h.base] == h.base
    ensures Inv(h, {}) && Linked(ptr, h.ring)
  {
  }

  lemma Start(h: Heap, ptr: map<int, int>, freep: int, n: int) returns (f: nat)
    requires Inv(h, {}) && Linked(ptr, h.ring) && freep in h.ring
    ensures f < |h.ring| && h.ring[f] == freep && freep in ptr && ptr[freep] == h.ring[Idx(|h.ring|, f, 1)]
      && Passed(h, f, 1, n)
  {
    hide Inv, Linked;
    f :| 0 <= f < |h.ring| && h.ring[f] == freep;
    Follow(ptr, h.ring, f);
  }

  lemma WalkAt(h: Heap, ptr: map<int, int>, freep: int, f: nat, e: nat, prevp: int, p: int, n: int)
    requires Inv(h, {}) && Linked(ptr, h.ring) && Walk(h, ptr, freep, f, e, prevp, p) && n >= 1
    ensures p in h.size && p in ptr && (p == freep <==> e == |h.ring|)
    ensures h.size[p] >= n ==> var k := Idx(|h.ring|, f, e); k > 0 && h.ring[k - 1] == prevp
    ensures e < |h.ring| ==> ptr[p] == h.ring[Idx(|h.ring|, f, e + 1)]
  {
    hide Inv, Linked;
    InvRing(h, {});
    var k := Idx(|h.ring|, f, e);
    Follow(ptr, h.ring, k);
    assert e < |h.ring| ==> k != f;
  }

  lemma WalkFirst(h: Heap, ptr: map<int, int>, freep: int, f: nat)
    requires f < |h.ring| && h.ring[f] == freep && freep in ptr && ptr[freep] == h.ring[Idx(|h.ring|, f, 1)]
    ensures Walk(h, ptr, freep, f, 1, freep, ptr[freep])
  {
  }

  lemma WalkNext(h: Heap, ptr: map<int, int>, freep: int, f: nat, e: nat, et: nat, prevp: int, p: int, n: int)
    requires Walk(h, ptr, freep, f, e, prevp, p) && e < |h.ring| && p in ptr
      && ptr[p] == h.ring[Idx(|h.ring|, f, e + 1)]
    requires p in h.size && h.size[p] < n
    ensures Walk(h, ptr, freep, f, e + 1, p, ptr[p])
    ensures Passed(h, f, e, n) ==> Passed(h, f, e + 1, n)
    ensures Ahead(h, f, e, et, n) ==> Ahead(h, f, e + 1, et, n)
  {
  }

  lemma WalkBounds(h: Heap, ptr: map<int, int>, freep: int, f: nat, e: nat, prevp: int, p: int)
    requires Walk(h, ptr, freep, f, e, prevp, p)
    ensures f < |h.ring| && 1 <= e <= |h.ring| && h.ring[Idx(|h.ring|, f, e)] == p
  {
  }

  lemma RoundDone(h: Heap, ptr: map<int, int>, freep: int, f: nat, e: nat, et: nat, prevp: int, p: int, n: int,
                  calls: nat)
    requires Walk(h, ptr, freep, f, e, prevp, p) && e == |h.ring| && p in h.size && h.size[p] < n && calls <= 1
    requires calls == 0 ==> Passed(h, f, e, n)
    requires calls == 1 ==> Ahead(h, f, e, et, n)
    ensures calls == 0 && NoFit(h, n)
  {
    forall i | 0 <= i < |h.ring|
      ensures h.ring[i] in h.size && h.size[h.ring[i]] < n
    {
      var d := if i > f then i - f else i - f + |h.ring|;
      assert Idx(|h.ring|, f, d) == i;
    }
  }

  lemma Restart(h: Heap, ptr: map<int, int>, freep: int, n: int) returns (f: nat, et: nat)
    requires Inv(h, {}) && Linked(ptr, h.ring) && Near(h, freep, n)
    ensures f < |h.ring| && h.ring[f] == freep && freep in ptr && ptr[freep] == h.ring[Idx(|h.ring|, f, 1)]
      && Ahead(h, f, 1, et, n)
  {
    hide Inv, Linked;
    f :| 0 <= f < |h.ring| && h.ring[f] == freep && h.ring[f] in h.size && NearAt(h, f, n);
    et := if h.size[h.ring[f]] >= n then |h.ring| else 1;
    Follow(ptr, h.ring, f);
  }

  class Allocator {
    const base: int
    var ptr: map<int, int>
    var size: map<int, int>
    var freep: int

    ghost var ring: seq<int>
    ghost var live: set<int>
    ghost var owner: map<int, int>

    ghost function View(): (h: Heap)
      reads this
    {
      Heap(base, ring, size, live, owner)
    }

    /** The links follow the ring round; before the first malloc there is none. */
    ghost predicate Valid()
      reads this
    {
      && base > NULL && (freep == NULL ==> live == {} && owner == map[])
      && (freep != NULL ==> Inv(View(), {}) && Linked(ptr, ring) && freep in ring)
    }

    constructor (base: int)
      requires base > NULL
      ensures Valid() && live == {} && owner == map[]
    {
      this.base := base;
      ptr, size, freep := map[], map[], NULL;
      ring, live, owner := [], {}, map[];
    }

    /** The search loop of free: the last free block below `bp`, from anywhere in the ring. */
    method Find(bp: int) returns (p: int, ghost i: nat)
      requires freep != NULL && Valid() && bp > base && bp !in ring
      ensures i < |ring| && ring[i] == p && p < bp && (i + 1 < |ring| ==> bp < ring[i + 1])
    {
      hide Inv, Linked;
      InvRing(View(), {});
      p := freep;
      ghost var k :| 0 <= k < |ring| && ring[k] == freep;
      Follow(ptr, ring, k);
      ghost var t := Place(ring, bp);
      while !(bp > p && bp < ptr[p])
        invariant 0 <= k < |ring| && ring[k] == p && LinkAt(ptr, ring, k)
        decreases if k <= t then t - k else t - k + |ring|
      {
        if p >= ptr[p] && (bp > p || bp < ptr[p]) { break; }
        assert k != t;
        p := ptr[p];
        k := Succ(ring, k);
        Follow(ptr, ring, k);
      }
      i := k;
    }

    /** free, of the block with header `bp`. */
    method Free(bp: int)
      requires Valid() && bp in live
      modifies this`ptr, this`size, this`freep, this`ring, this`live, this`owner
      ensures Valid() && freep != NULL && live == old(live) - {bp} && owner.Keys == old(owner).Keys
      ensures forall x :: x in live ==> x in size && x in old(size) && size[x] == old(size)[x]
      ensures bp in old(size) && Near(View(), freep, old(size)[bp])
    {
      hide Inv, Linked, Near, Release, Raise;
      ghost var h := View();
      InvRing(h, {});
      var p; ghost var i;
      p, i := Find(bp);
      Follow(ptr, ring, i);
      ReleaseOk(h, i, bp);
      ReleaseLinks(h, ptr, i, bp);
      ReleaseNear(h, i, bp);
      ReleaseSize(h, i, bp);
      var was := ptr;
      if bp + size[bp] == ptr[p] {
        size := size[bp := size[bp] + size[ptr[p]]];
        ptr := ptr[bp := ptr[ptr[p]]];
      } else {
        ptr := ptr[bp := ptr[p]];
      }
      if p + size[p] == bp {
        size := size[p := size[p] + size[bp]];
        ptr := ptr[p := ptr[bp]];
      } else {
        ptr := ptr[p := bp];
      }
      freep := p;
      ghost var r := Release(h, i, bp);
      assert size == r.size && ptr == Relink(h, was, i, bp);
      ring, live, owner := r.ring, r.live, r.owner;
    }

    /** morecore; `at` is what sbrk returns, above everything there is, or NULL when it fails. */
    method Morecore(nunits: int, at: int) returns (p: int)
      requires Valid() && freep != NULL && nunits >= 1
      requires at != NULL ==> at > base && forall u :: u in owner ==> u < at
      modifies this`ptr, this`size, this`freep, this`ring, this`live, this`owner
      ensures Valid() && freep != NULL && live == old(live)
      ensures p == NULL <==> at == NULL
      ensures p == NULL ==> View() == old(View()) && freep == old(freep)
      ensures p != NULL ==> p == freep && Near(View(), p, nunits)
      ensures p != NULL ==> owner.Keys == old(owner).Keys + Units(at, if nunits < 4096 then 4096 else nunits)
      ensures forall x :: x in live ==> x in size && x in old(size) && size[x] == old(size)[x]
    {
      hide Inv, Linked, Near;
      InvRing(View(), {});
      var nu := if nunits < 4096 then 4096 else nunits;
      if at == NULL { return NULL; }
      ghost var h := View();
      GrowOk(h, at, nu);
      size := size[at := nu];
      live, owner := live + {at}, Grow(h, at, nu).owner;
      assert View() == Grow(h, at, nu);
      Free(at);
      NearMore(View(), freep, nu, nunits);
      p := freep;
    }

    /** Take `nunits` from free block `p`, all of it or its tail. */
    method Carve(prevp: int, p: int, nunits: int, ghost k: nat) returns (q: int)
      requires Valid() && freep != NULL && nunits >= 1 && 0 < k < |ring| && ring[k] == p && ring[k - 1] == prevp
      requires p in size && size[p] >= nunits
      modifies this`ptr, this`size, this`freep, this`ring, this`live, this`owner
      ensures Valid() && freep != NULL && owner.Keys == old(owner).Keys
      ensures q > base && q !in old(live) && live == old(live) + {q} && q in size && size[q] == nunits
      ensures forall x :: x in old(live) && x in old(size) ==> x in size && size[x] == old(size)[x]
    {
      hide Inv, Linked, IsBlock, Sorted;
      ghost var h := View();
      if size[p] == nunits {
        UnlinkOk(h, k);
        UnlinkLinks(h, ptr, k);
        ptr := ptr[prevp := ptr[p]];
        q := p;
        ring, live := Unlink(h, k).ring, live + {p};
      } else {
        SplitOk(h, k, nunits);
        NewBlock(h, p, p + size[p] - nunits);
        size := size[p := size[p] - nunits];
        q := p + size[p];
        size := size[q := nunits];
        owner, live := Assign(owner, q, q + nunits, q), live + {q};
        assert View() == Split(h, k, nunits);
      }
      freep := prevp;
      BaseIsNotNull(View(), prevp);
      InvRing(View(), {});
    }

    /** The empty ring of the first call. */
    method FirstUse()
      requires Valid() && freep == NULL
      modifies this`ptr, this`size, this`freep, this`ring
      ensures Valid() && freep != NULL
      ensures forall x :: x in live && x in old(size) ==> x in size && size[x] == old(size)[x]
    {
      hide Inv, Linked, IsBlock;
      ptr, size, freep := ptr[base := base], size[base := 0], base;
      ring := [base];
      FirstRing(View(), ptr);
    }

    /** malloc: first fit from freep on; sbrk is asked at most once, and only when nothing fits. The
        request is bounded so that its size in bytes is a positive int. */
    method Malloc(nbytes: nat, at: int) returns (r: int, ghost calls: nat)
      requires Valid() && nbytes < 0x7fff_0000
      requires at != NULL ==> at > base && forall u :: u in owner ==> u < at
      modifies this`ptr, this`size, this`freep, this`ring, this`live, this`owner
      ensures Valid() && freep != NULL && calls <= 1
      ensures r == NULL ==>
        at == NULL && calls == 1 && live == old(live) && owner == old(owner) && NoFit(View(), Nunits(nbytes))
      ensures r != NULL ==> && r - 1 !in old(live) && live == old(live) + {r - 1}
                            && r - 1 in size && size[r - 1] == Nunits(nbytes)
                            && (size[r - 1] - 1) * UNIT >= nbytes
                            && owner.Keys ==
                               old(owner).Keys + if calls == 0 then {} else Units(at, CoreUnits(Nunits(nbytes)))
      ensures calls == 1 && old(freep) != NULL ==> NoFit(old(View()), Nunits(nbytes))
      ensures forall x :: x in old(live) && x in old(size) ==> x in size && size[x] == old(size)[x]
    {
      hide Inv, Linked, Near, IsBlock, NoFit, Units, Sorted, Walk, Passed, Ahead;
      var nunits := (nbytes + UNIT - 1) / UNIT + 1;
      if freep == NULL { FirstUse(); }
      ghost var h0 := View();
      ghost var f := Start(View(), ptr, freep, nunits);
      ghost var e, et := 1, 0;
      calls := 0;
      var prevp := freep;
      var p := ptr[prevp];
      WalkFirst(View(), ptr, freep, f);
      while true
        invariant Valid() && freep != NULL && live == old(live) && calls <= 1
        invariant Walk(View(), ptr, freep, f, e, prevp, p)
        invariant calls == 0 ==> owner == old(owner) && Passed(View(), f, e, nunits) && View() == h0
        invariant calls == 1 ==> NoFit(h0, nunits)
        invariant calls == 1 ==>
          at != NULL && owner.Keys == old(owner).Keys + Units(at, CoreUnits(nunits)) && Ahead(View(), f, e, et, nunits)
        invariant forall x :: x in live && x in old(size) ==> x in size && size[x] == old(size)[x]
        decreases 1 - calls, |ring| - e
      {
        ghost var h := View();
        WalkBounds(h, ptr, freep, f, e, prevp, p);
        WalkAt(h, ptr, freep, f, e, prevp, p, nunits);
        if size[p] >= nunits {
          r := Carve(prevp, p, nunits, Idx(|ring|, f, e));
          r := r + 1;
          return;
        }
        if p == freep {
          RoundDone(h, ptr, freep, f, e, et, prevp, p, nunits, calls);
          p := Morecore(nunits, at);
          calls := 1;
          if p == NULL { return NULL, 1; }
          f, et := Restart(View(), ptr, freep, nunits);
          WalkFirst(View(), ptr, freep, f);
          e := 0;
        } else {
          WalkNext(h, ptr, freep, f, e, et, prevp, p, nunits);
        }
        prevp := p;
        p := ptr[p];
        e := e + 1;
      }
    }
  }
}
