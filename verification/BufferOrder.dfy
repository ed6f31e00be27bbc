/** The order in which kernel/bio.c recycles buffers: whatever the calls, the ring is sorted by the time at which each
    buffer was last released for good, and bget takes the free buffer whose time is longest ago. */
module BufferOrder {
  import opened Params
  import opened BufferCache
  import Ring = LruRing

  /** When each buffer last became idle through brelse; 0 if it never did. */
  type Times = t: seq<nat> | |t| == NBUF witness seq(NBUF, _ => 0)

  ghost predicate Sorted(c: Cache, t: Times) {
    c.Shaped() && forall i, j :: 0 <= i < j < NBUF ==> t[c.lru[i]] >= t[c.lru[j]]
  }

  datatype Call = Gets(dev: nat, blockno: nat) | Drops(i: int) | Stores(i: int, data: Block) | Writes(i: int)
    | Pins(i: int) | Unpins(i: int)

  function Apply(c: Cache, a: Call): (r: Cache)
    requires c.Shaped()
    ensures r.Shaped()
  {
    match a
    case Gets(dev, b) => Read(c, dev, b)
    case Drops(i) => if 0 <= i < NBUF then Release(c, i) else c
    case Stores(i, data) => if 0 <= i < NBUF then Fill(c, i, data) else c
    case Writes(i) => if 0 <= i < NBUF then Write(c, i) else c
    case Pins(i) => if 0 <= i < NBUF then Pin(c, i) else c
    case Unpins(i) => if 0 <= i < NBUF then Unpin(c, i) else c
  }

  /** brelse of the last reference, at time `now`. */
  function Stamp(c: Cache, t: Times, now: nat, a: Call): (r: Times)
    requires c.Shaped()
  {
    if a.Drops? && 0 <= a.i < NBUF && c.bufs[a.i].refcnt == 1 then t[a.i := now] else t
  }

  /** The cache and the times after the calls, the first of which is made at time `now`. */
  function Run(c: Cache, t: Times, now: nat, calls: seq<Call>): (r: (Cache, Times))
    requires c.Shaped()
    ensures r.0.Shaped()
    decreases |calls|
  {
    if calls == [] then (c, t) else Run(Apply(c, calls[0]), Stamp(c, t, now, calls[0]), now + 1, calls[1..])
  }

  lemma PromoteSorts(order: seq<int>, t: Times, b: int, now: nat)
    requires |order| == NBUF && Ring.Distinct(order) && b in order && 0 <= b < NBUF
    requires (forall k :: 0 <= k < NBUF ==> 0 <= order[k] < NBUF) && (forall k :: 0 <= k < NBUF ==> t[k] <= now)
    requires forall i, j :: 0 <= i < j < NBUF ==> t[order[i]] >= t[order[j]]
    ensures var r, u := Promote(order, b), t[b := now];
            forall i, j :: 0 <= i < j < NBUF ==> 0 <= r[i] < NBUF && 0 <= r[j] < NBUF && u[r[i]] >= u[r[j]]
  {
    var k := Position(order, b);
    var w := Ring.Without(order, k);
    assert forall i :: 0 <= i < |w| ==> w[i] == (if i < k then order[i] else order[i + 1]) && w[i] != b;
  }

  lemma ApplySorted(c: Cache, t: Times, now: nat, a: Call)
    requires Sorted(c, t) && forall k :: 0 <= k < NBUF ==> t[k] < now
    ensures Sorted(Apply(c, a), Stamp(c, t, now, a))
    ensures forall k :: 0 <= k < NBUF ==> Stamp(c, t, now, a)[k] < now + 1
  {
    if a.Drops? && 0 <= a.i < NBUF && c.bufs[a.i].refcnt == 1 {
      Ring.VisitsAll(c.lru, a.i);
      PromoteSorts(c.lru, t, a.i, now);
    }
  }

  lemma {:induction false} RunSorted(c: Cache, t: Times, now: nat, calls: seq<Call>)
    requires Sorted(c, t) && forall k :: 0 <= k < NBUF ==> t[k] < now
    ensures var (r, u) := Run(c, t, now, calls); Sorted(r, u)
    decreases |calls|
  {
    hide Sorted, Apply, Stamp;
    assert c.Shaped() by { Shape(c, t); }
    if calls != [] {
      ApplySorted(c, t, now, calls[0]);
      RunSorted(Apply(c, calls[0]), Stamp(c, t, now, calls[0]), now + 1, calls[1..]);
    }
  }

  lemma Shape(c: Cache, t: Times)
    requires Sorted(c, t)
    ensures c.Shaped()
  {
  }

  /** In every run from binit, a bget that finds no cached block takes a free buffer that was released longest ago. */
  lemma RecyclesOldest(c: Cache, calls: seq<Call>, dev: nat, blockno: nat, f: int)
    requires c.Shaped() && 0 <= f < NBUF
    ensures var (r, t) := Run(c, seq(NBUF, _ => 0), 1, calls); var i := Slot(r, dev, blockno);
            r.bufs[f].refcnt == 0 && i >= 0 && !Holds(r.bufs[i], dev, blockno) ==>
              r.bufs[i].refcnt == 0 && t[i] <= t[f]
  {
    hide Run, Promote;
    var t0: Times := seq(NBUF, _ => 0);
    assert Sorted(c, t0);
    RunSorted(c, t0, 1, calls);
    var (r, t) := Run(c, t0, 1, calls);
    var i := Slot(r, dev, blockno);
    if r.bufs[f].refcnt == 0 && i >= 0 && !Holds(r.bufs[i], dev, blockno) {
      OldestFree(r, t, f);
    }
  }

  /** No free buffer stands after the one that the walk along prev finds. */
  lemma {:induction false} LastFree(bufs: seq<Buf>, order: seq<int>, k: nat) returns (j: nat)
    requires (forall i :: 0 <= i < |order| ==> 0 <= order[i] < |bufs|) && k < |order| && bufs[order[k]].refcnt == 0
    ensures k <= j < |order| && order[j] == FindFree(bufs, order)
    ensures forall i :: j < i < |order| ==> bufs[order[i]].refcnt != 0
    decreases |order|
  {
    var last := |order| - 1;
    if bufs[order[last]].refcnt == 0 {
      j := last;
    } else {
      j := LastFree(bufs, order[..last], k);
      assert forall i :: 0 <= i < last ==> order[..last][i] == order[i];
    }
  }

  lemma OldestFree(c: Cache, t: Times, f: int)
    requires Sorted(c, t) && 0 <= f < NBUF && c.bufs[f].refcnt == 0
    ensures var i := FindFree(c.bufs, c.lru); 0 <= i < NBUF && t[i] <= t[f]
  {
    hide FindFree;
    Ring.VisitsAll(c.lru, f);
    var k :| 0 <= k < NBUF && c.lru[k] == f;
    var j := LastFree(c.bufs, c.lru, k);
  }
}
