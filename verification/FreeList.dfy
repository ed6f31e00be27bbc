/** The heap of user/umalloc.c as a value: a ring of free blocks in address order and the blocks
    handed out. Addresses count units of sizeof(Header); a block is its header and what follows. */
module FreeList {
  /** `ring` lists the free headers from the static one, `base`, up. `owner` is the header of the
      block that a unit obtained from sbrk belongs to. */
  datatype Heap = Heap(base: int, ring: seq<int>, size: map<int, int>, live: set<int>, owner: map<int, int>)

  predicate IsBlock(h: Heap, b: int) {
    b in h.live || (b in h.ring && b != h.base)
  }

  /** The units of block `b` are its own. */
  ghost predicate BlockOk(h: Heap, b: int) {
    && b > h.base && b in h.size && h.size[b] >= 1
    && forall u :: b <= u < b + h.size[b] ==> u in h.owner && h.owner[u] == b
  }

  ghost predicate UnitOk(h: Heap, u: int)
    requires u in h.owner
  {
    IsBlock(h, h.owner[u]) && h.owner[u] in h.size && h.owner[u] <= u < h.owner[u] + h.size[h.owner[u]]
  }

  predicate Sorted(ring: seq<int>) {
    forall i, j :: 0 <= i < j < |ring| ==> ring[i] < ring[j]
  }

  /** Neither overlapping nor, but for blocks in `slack`, touching the next free block. */
  ghost predicate Apart(h: Heap, slack: set<int>) {
    forall i :: 0 < i < |h.ring| - 1 && h.ring[i] in h.size && h.ring[i] !in slack ==>
      h.ring[i] + h.size[h.ring[i]] < h.ring[i + 1]
  }

  ghost predicate Inv(h: Heap, slack: set<int>) {
    && h.ring != [] && h.ring[0] == h.base && Sorted(h.ring) && h.base in h.size && h.size[h.base] == 0
    && (forall b :: b in h.live ==> b !in h.ring)
    && (forall b :: IsBlock(h, b) ==> BlockOk(h, b))
    && (forall u :: u in h.owner ==> UnitOk(h, u))
    && Apart(h, slack)
  }

  /** Blocks are disjoint: they own their units. */
  lemma Disjoint(h: Heap, slack: set<int>, a: int, b: int)
    requires Inv(h, slack) && IsBlock(h, a) && IsBlock(h, b) && a < b
    ensures a in h.size && a + h.size[a] <= b
  {
    assert BlockOk(h, a) && BlockOk(h, b);
    assert h.owner[b] == b;
  }

  /** Give the units from `lo` to `hi` to block `b`. */
  function Assign(owner: map<int, int>, lo: int, hi: int, b: int): (r: map<int, int>)
    ensures r.Keys == owner.Keys
    ensures forall u :: u in owner ==> r[u] == if lo <= u < hi then b else owner[u]
  {
    map u | u in owner :: if lo <= u < hi then b else owner[u]
  }

  // ---- free: insert, then merge upwards, then downwards ----

  /** Block `b` between free blocks `i` and `i + 1`. */
  function Insert(h: Heap, i: nat, b: int): (r: Heap)
    requires i < |h.ring|
  {
    h.(ring := h.ring[..i + 1] + [b] + h.ring[i + 1..], live := h.live - {b})
  }

  /** Free block `i` swallows its successor. */
  function Merge(h: Heap, i: nat): (r: Heap)
    requires i + 1 < |h.ring| && h.ring[i] in h.size && h.ring[i + 1] in h.size
  {
    var a, b := h.ring[i], h.ring[i + 1];
    h.(ring := h.ring[..i + 1] + h.ring[i + 2..], size := h.size[a := h.size[a] + h.size[b]],
       owner := Assign(h.owner, b, b + h.size[b], a))
  }

  lemma RingHas(ring: seq<int>, i: nat, b: int)
    requires i < |ring|
    ensures var r := ring[..i + 1] + [b] + ring[i + 1..];
            && |r| == |ring| + 1 && r[i + 1] == b
            && (forall k :: 0 <= k <= i ==> r[k] == ring[k]) && (forall k :: i + 1 < k < |r| ==> r[k] == ring[k - 1])
            && (forall x :: x in r <==> x in ring || x == b)
  {
    var r := ring[..i + 1] + [b] + ring[i + 1..];
    forall x | x in ring
      ensures x in r
    {
      var k :| 0 <= k < |ring| && ring[k] == x;
      assert r[if k <= i then k else k + 1] == x;
    }
    assert r[i + 1] == b;
  }

  lemma InsertSorted(h: Heap, i: nat, b: int)
    requires Sorted(h.ring) && i < |h.ring| && h.ring[i] < b && (i + 1 < |h.ring| ==> b < h.ring[i + 1])
    ensures Sorted(Insert(h, i, b).ring)
  {
    RingHas(h.ring, i, b);
    var r := Insert(h, i, b);
    forall j, k | 0 <= j < k < |r.ring|
      ensures r.ring[j] < r.ring[k]
    {
      assert j <= i ==> h.ring[j] <= h.ring[i];
      assert k > i + 1 ==> h.ring[i + 1] <= h.ring[k - 1];
    }
  }

  lemma InsertApart(h: Heap, i: nat, b: int)
    requires Apart(h, {}) && i < |h.ring|
    ensures Apart(Insert(h, i, b), {h.ring[i], b})
  {
    RingHas(h.ring, i, b);
    var r := Insert(h, i, b);
    forall k | 0 < k < |r.ring| - 1 && r.ring[k] in r.size && r.ring[k] !in {h.ring[i], b}
      ensures r.ring[k] + r.size[r.ring[k]] < r.ring[k + 1]
    {
      assert k < i || k > i + 1;
    }
  }

  lemma InsertOk(h: Heap, i: nat, b: int)
    requires Inv(h, {}) && b in h.live && i < |h.ring| && h.ring[i] < b && (i + 1 < |h.ring| ==> b < h.ring[i + 1])
    ensures Inv(Insert(h, i, b), {h.ring[i], b})
  {
    var r := Insert(h, i, b);
    InsertSorted(h, i, b);
    InsertApart(h, i, b);
    RingHas(h.ring, i, b);
    hide Apart, Sorted;
    assert BlockOk(h, b);
    forall x | IsBlock(r, x)
      ensures BlockOk(r, x)
    {
      assert IsBlock(h, x);
      assert BlockOk(h, x);
    }
    forall u | u in r.owner
      ensures UnitOk(r, u)
    {
      assert UnitOk(h, u);
    }
  }

  lemma RingLess(ring: seq<int>, i: nat)
    requires i + 1 < |ring| && Sorted(ring)
    ensures var r := ring[..i + 1] + ring[i + 2..];
            && |r| == |ring| - 1 && Sorted(r)
            && (forall k :: 0 <= k <= i ==> r[k] == ring[k]) && (forall k :: i < k < |r| ==> r[k] == ring[k + 1])
            && (forall x :: x in r <==> x in ring && x != ring[i + 1])
  {
    var r := ring[..i + 1] + ring[i + 2..];
    forall x | x in ring && x != ring[i + 1]
      ensures x in r
    {
      var k :| 0 <= k < |ring| && ring[k] == x;
      assert r[if k <= i then k else k - 1] == x;
    }
  }

  lemma MergeOk(h: Heap, i: nat, slack: set<int>)
    requires Inv(h, slack) && 0 < i < |h.ring| - 1 && h.ring[i] in h.size && h.ring[i + 1] in h.size
    requires h.ring[i] + h.size[h.ring[i]] == h.ring[i + 1] && h.ring[i + 1] !in slack
    ensures Inv(Merge(h, i), slack - {h.ring[i]})
  {
    var r := Merge(h, i);
    var a, b := h.ring[i], h.ring[i + 1];
    RingLess(h.ring, i);
    assert IsBlock(h, a) && IsBlock(h, b);
    assert BlockOk(h, a) && BlockOk(h, b);
    forall x | IsBlock(r, x)
      ensures BlockOk(r, x)
    {
      MergeBlock(h, i, slack, x);
    }
    forall u | u in r.owner
      ensures UnitOk(r, u)
    {
      assert UnitOk(h, u);
    }
  }

  lemma MergeBlock(h: Heap, i: nat, slack: set<int>, x: int)
    requires Inv(h, slack) && 0 < i < |h.ring| - 1 && h.ring[i] in h.size && h.ring[i + 1] in h.size
    requires h.ring[i] + h.size[h.ring[i]] == h.ring[i + 1] && IsBlock(Merge(h, i), x)
    ensures BlockOk(Merge(h, i), x)
  {
    hide Apart;
    var r := Merge(h, i);
    var a, b := h.ring[i], h.ring[i + 1];
    MergedRing(h, i, slack, x);
    assert IsBlock(h, a) && IsBlock(h, b);
    assert BlockOk(h, a) && BlockOk(h, b);
    assert BlockOk(h, x);
    forall u | x <= u < x + r.size[x]
      ensures u in r.owner && r.owner[u] == x
    {
      if x != a || u < b { assert h.owner[u] == x; } else { assert h.owner[u] == b; }
    }
  }

  lemma MergedRing(h: Heap, i: nat, slack: set<int>, x: int)
    requires Inv(h, slack) && i + 1 < |h.ring| && h.ring[i] in h.size && h.ring[i + 1] in h.size
      && IsBlock(Merge(h, i), x)
    ensures IsBlock(h, x) && x != h.ring[i + 1]
  {
    RingLess(h.ring, i);
  }

  predicate Touches(h: Heap, i: nat, b: int)
    requires i < |h.ring| && b in h.size
  {
    i + 1 < |h.ring| && b + h.size[b] == h.ring[i + 1]
  }

  /** Block `b` after free block `i`, merged with the next if it touches it. */
  function Raise(h: Heap, i: nat, b: int): (r: Heap)
    requires i < |h.ring| && b in h.size && forall x :: x in h.ring ==> x in h.size
  {
    var g := Insert(h, i, b);
    if Touches(h, i, b) then Merge(g, i + 1) else g
  }

  lemma RaiseAt(h: Heap, i: nat, b: int)
    requires i < |h.ring| && b in h.size && b !in h.ring && forall x :: x in h.ring ==> x in h.size && h.size[x] >= 0
    ensures var k := Raise(h, i, b);
            && i + 1 < |k.ring| && k.ring[i] == h.ring[i] && k.ring[i + 1] == b && k.base == h.base
            && h.ring[i] in k.size && k.size[h.ring[i]] == h.size[h.ring[i]] && b in k.size && k.size[b] >= h.size[b]
  {
    RingHas(h.ring, i, b);
  }

  /** free: that, merged with block `i` if it touches it. */
  function Release(h: Heap, i: nat, b: int): (r: Heap)
    requires i < |h.ring| && b in h.size && b !in h.ring && forall x :: x in h.ring ==> x in h.size && h.size[x] >= 0
  {
    var k := Raise(h, i, b);
    RaiseAt(h, i, b);
    if h.ring[i] + h.size[h.ring[i]] == b then Merge(k, i) else k
  }

  lemma RaiseOk(h: Heap, i: nat, b: int)
    requires Inv(h, {}) && b in h.live && i < |h.ring| && h.ring[i] < b && (i + 1 < |h.ring| ==> b < h.ring[i + 1])
    requires b in h.size && forall x :: x in h.ring ==> x in h.size
    ensures Inv(Raise(h, i, b), {h.ring[i]})
  {
    hide Inv;
    InsertOk(h, i, b);
    RingHas(h.ring, i, b);
    var g := Insert(h, i, b);
    assert {h.ring[i], b} - {b} == {h.ring[i]};
    if Touches(h, i, b) {
      LiveApart(h);
      MergeOk(g, i + 1, {h.ring[i], b});
    } else {
      Settle(g, i + 1, {h.ring[i], b});
    }
  }

  lemma ReleaseSize(h: Heap, i: nat, b: int)
    requires i < |h.ring| && b in h.size && b !in h.ring && forall x :: x in h.ring ==> x in h.size && h.size[x] >= 0
    ensures var p, t := h.ring[i], if Touches(h, i, b) then h.size[b := h.size[b] + h.size[h.ring[i + 1]]] else h.size;
            && b in t && p in t && t[p] == h.size[p]
            && Release(h, i, b).size == if p + h.size[p] == b then t[p := t[p] + t[b]] else t
  {
    RaiseAt(h, i, b);
    RingHas(h.ring, i, b);
  }

  lemma ReleaseOk(h: Heap, i: nat, b: int)
    requires Inv(h, {}) && b in h.live && i < |h.ring| && h.ring[i] < b && (i + 1 < |h.ring| ==> b < h.ring[i + 1])
    requires b in h.size && b !in h.ring && forall x :: x in h.ring ==> x in h.size && h.size[x] >= 0
    ensures var r := Release(h, i, b);
            && Inv(r, {}) && r.live == h.live - {b} && r.owner.Keys == h.owner.Keys && r.base == h.base
            && forall x :: x in r.live && x in h.size ==> x in r.size && r.size[x] == h.size[x]
  {
    hide Inv;
    RaiseOk(h, i, b);
    RaiseAt(h, i, b);
    LiveApart(h);
    var k := Raise(h, i, b);
    assert {h.ring[i]} - {h.ring[i]} == {};
    if h.ring[i] + h.size[h.ring[i]] == b { MergeOk(k, i, {h.ring[i]}); } else { Settle(k, i, {h.ring[i]}); }
  }

  /** A block that does not touch the next needs no slack. */
  lemma Settle(h: Heap, i: nat, slack: set<int>)
    requires Inv(h, slack) && i < |h.ring| && h.ring[i] in h.size
    requires i + 1 < |h.ring| ==> h.ring[i] + h.size[h.ring[i]] != h.ring[i + 1]
    ensures Inv(h, slack - {h.ring[i]})
  {
    if 0 < i < |h.ring| - 1 { Disjoint(h, slack, h.ring[i], h.ring[i + 1]); }
  }

  lemma LiveApart(h: Heap)
    requires Inv(h, {})
    ensures h.size[h.base] == 0 && h.ring[0] == h.base && forall x :: x in h.live ==> x !in h.ring && x > h.base
  {
    forall x | x in h.live
      ensures x > h.base
    {
      assert IsBlock(h, x);
      assert BlockOk(h, x);
    }
  }

  // ---- malloc: a whole free block, or the tail of one ----

  function Unlink(h: Heap, i: nat): (r: Heap)
    requires 0 < i < |h.ring|
  {
    h.(ring := h.ring[..i] + h.ring[i + 1..], live := h.live + {h.ring[i]})
  }

  function Split(h: Heap, i: nat, n: int): (r: Heap)
    requires 0 < i < |h.ring| && h.ring[i] in h.size
  {
    var a := h.ring[i];
    var b := a + h.size[a] - n;
    h.(size := h.size[a := h.size[a] - n][b := n], live := h.live + {b}, owner := Assign(h.owner, b, b + n, b))
  }

  lemma UnlinkOk(h: Heap, i: nat)
    requires Inv(h, {}) && 0 < i < |h.ring|
    ensures Inv(Unlink(h, i), {}) && h.ring[i] !in h.live
  {
    var r := Unlink(h, i);
    RingLess(h.ring, i - 1);
    assert h.ring[..i - 1 + 1] == h.ring[..i] && h.ring[i - 1 + 2..] == h.ring[i + 1..];
    assert IsBlock(h, h.ring[i]);
    forall x | IsBlock(r, x)
      ensures BlockOk(r, x)
    {
      assert IsBlock(h, x);
      assert BlockOk(h, x);
    }
    forall u | u in r.owner
      ensures UnitOk(r, u)
    {
      assert UnitOk(h, u);
    }
    forall k | 0 < k < |r.ring| - 1 && r.ring[k] in r.size
      ensures r.ring[k] + r.size[r.ring[k]] < r.ring[k + 1]
    {
      if k == i - 1 { assert h.ring[k] + h.size[h.ring[k]] < h.ring[k + 1]; }
    }
  }

  lemma SplitBlock(h: Heap, i: nat, n: int, x: int)
    requires Inv(h, {}) && 0 < i < |h.ring| && h.ring[i] in h.size && 0 < n < h.size[h.ring[i]]
    requires IsBlock(Split(h, i, n), x)
    ensures BlockOk(Split(h, i, n), x)
  {
    assert IsBlock(h, h.ring[i]);
    assert BlockOk(h, h.ring[i]);
    var r, b := Split(h, i, n), h.ring[i] + h.size[h.ring[i]] - n;
    if x != b {
      assert IsBlock(h, x);
      assert BlockOk(h, x);
      forall u | x <= u < x + r.size[x]
        ensures u in r.owner && r.owner[u] == x
      {
        assert h.owner[u] == x;
      }
    }
  }

  lemma SplitOk(h: Heap, i: nat, n: int)
    requires Inv(h, {}) && 0 < i < |h.ring| && h.ring[i] in h.size && 0 < n < h.size[h.ring[i]]
    ensures Inv(Split(h, i, n), {}) && !IsBlock(h, h.ring[i] + h.size[h.ring[i]] - n)
  {
    var r := Split(h, i, n);
    var a := h.ring[i];
    var b := a + h.size[a] - n;
    assert IsBlock(h, a);
    assert BlockOk(h, a);
    if IsBlock(h, b) { Disjoint(h, {}, a, b); }
    forall x | IsBlock(r, x)
      ensures BlockOk(r, x)
    {
      SplitBlock(h, i, n, x);
    }
    forall u | u in r.owner
      ensures UnitOk(r, u)
    {
      assert UnitOk(h, u);
    }
  }

  // ---- morecore: a block from sbrk, above all others ----

  predicate Within(u: int, at: int, n: int) {
    at <= u < at + n
  }

  function Units(at: int, n: nat): (s: set<int>) {
    set u | at <= u < at + n && Within(u, at, n)
  }

  function Grow(h: Heap, at: int, n: nat): (r: Heap)
    ensures r.owner.Keys == h.owner.Keys + Units(at, n)
    ensures forall u :: u in r.owner ==> r.owner[u] == if at <= u < at + n then at else h.owner[u]
  {
    h.(size := h.size[at := n], live := h.live + {at},
       owner := map u | u in h.owner.Keys + Units(at, n) :: if Within(u, at, n) then at else h.owner[u])
  }

  lemma GrowOk(h: Heap, at: int, n: nat)
    requires Inv(h, {}) && n >= 1 && at > h.base && forall u :: u in h.owner ==> u < at
    ensures Inv(Grow(h, at, n), {}) && at !in h.live && at !in h.ring
  {
    var r := Grow(h, at, n);
    assert IsBlock(h, at) ==> BlockOk(h, at);
    assert at !in h.owner;
    forall x | IsBlock(r, x)
      ensures BlockOk(r, x)
    {
      if x != at {
        assert IsBlock(h, x);
        assert BlockOk(h, x);
      }
    }
    forall u | u in r.owner
      ensures UnitOk(r, u)
    {
      if u in h.owner { assert UnitOk(h, u); }
    }
  }
}
