/** The redo log (kernel/log.c) as functions on the cache of module BufferCache:
    coherence of cache, pins and disk, and what recovery makes of every disk state. */
module RedoLog {
  import opened Collections
  import opened Params
  import opened BufferCache

  /** log.start, log.size and the number of blocks on the device. */
  datatype Geometry = Geometry(start: nat, size: nat, blocks: nat) {
    predicate Ok() {
      2 <= size <= WORDS && start + size <= blocks
    }

    /** A block that file-system calls may log: outside the log area. */
    predicate Home(b: nat) {
      b < blocks && !(start <= b < start + size)
    }

    /** Entries a transaction can hold before log_write panics. */
    function Capacity(): (n: int) {
      if LOGSIZE < size - 1 then LOGSIZE else size - 1
    }
  }

  // ---- on-disk header ----

  /** The block list stored in a header block. */
  function Header(b: Block): (h: seq<nat>) {
    if b[0] < WORDS then b[1..1 + b[0]] else []
  }

  /** write_head overwrites the count and the first words only. */
  function PutHeader(b: Block, h: seq<nat>): (r: Block)
    requires |h| < WORDS
    ensures Header(r) == h && r[0] == |h|
  {
    [|h|] + h + b[1 + |h|..]
  }

  ghost predicate DistinctHomes(g: Geometry, h: seq<nat>) {
    && |h| < g.size
    && (forall i :: 0 <= i < |h| ==> g.Home(h[i]))
    && (forall i, j :: 0 <= i < j < |h| ==> h[i] != h[j])
  }

  ghost predicate Fits(g: Geometry, d: Disk) {
    g.Ok() && |d| == g.blocks
  }

  ghost predicate WellFormed(g: Geometry, d: Disk) {
    Fits(g, d) && d[g.start][0] < WORDS && DistinctHomes(g, Header(d[g.start]))
  }

  ghost predicate SameHomes(g: Geometry, d: Disk, e: Disk) {
    |d| == |e| == g.blocks && forall b :: 0 <= b < g.blocks && g.Home(b) ==> d[b] == e[b]
  }

  // ---- recovery as a function of the disk ----

  /** The disk after the first `k` logged blocks have been copied home. */
  function Replay(g: Geometry, d: Disk, h: seq<nat>, k: nat): (r: Disk)
    requires k <= |h|
    ensures |r| == |d|
  {
    if k == 0 then d else
    var p := Replay(g, d, h, k - 1);
    if h[k - 1] < |p| && g.start + k < |p| then p[h[k - 1] := p[g.start + k]] else p
  }

  /** What a completed recover_from_log leaves on disk. */
  function Recovered(g: Geometry, d: Disk): (r: Disk)
    requires g.start < |d|
    ensures |r| == |d| && r[g.start][0] == 0
  {
    var h := Header(d[g.start]);
    var p := Replay(g, d, h, |h|);
    p[g.start := PutHeader(p[g.start], [])]
  }

  /** Replaying touches exactly the listed home blocks, each getting its own log block. */
  lemma {:induction false} ReplayAt(g: Geometry, d: Disk, h: seq<nat>, k: nat)
    requires Fits(g, d) && DistinctHomes(g, h) && k <= |h|
    ensures forall i :: 0 <= i < k ==> Replay(g, d, h, k)[h[i]] == d[g.start + 1 + i]
    ensures forall b :: 0 <= b < g.blocks && b !in h[..k] ==> Replay(g, d, h, k)[b] == d[b]
  {
    if k > 0 {
      ReplayAt(g, d, h, k - 1);
      assert h[..k] == h[..k - 1] + [h[k - 1]];
      assert g.start + k !in h[..k - 1];
    }
  }

  /** What recovery puts in the home blocks. */
  lemma RecoveredAt(g: Geometry, d: Disk)
    requires WellFormed(g, d)
    ensures var h := Header(d[g.start]); var r := Recovered(g, d);
            && (forall i :: 0 <= i < |h| ==> r[h[i]] == d[g.start + 1 + i])
            && (forall b :: 0 <= b < g.blocks && g.Home(b) && b !in h ==> r[b] == d[b])
  {
    var h := Header(d[g.start]);
    ReplayAt(g, d, h, |h|);
    assert h[..|h|] == h;
  }

  /** Recovery started over from any point it had reached ends in the same home blocks. */
  lemma RecoverAgain(g: Geometry, d: Disk, k: nat)
    requires WellFormed(g, d) && k <= |Header(d[g.start])|
    ensures var r := Replay(g, d, Header(d[g.start]), k);
            WellFormed(g, r) && SameHomes(g, Recovered(g, r), Recovered(g, d))
  {
    var h := Header(d[g.start]);
    var r := Replay(g, d, h, k);
    ReplayAt(g, d, h, k);
    assert g.start !in h[..k];
    hide Recovered, Replay;
    RecoveredAt(g, d);
    RecoveredAt(g, r);
    forall b | 0 <= b < g.blocks && g.Home(b)
      ensures Recovered(g, r)[b] == Recovered(g, d)[b]
    {
      if b in h {
        var i :| 0 <= i < |h| && h[i] == b;
        assert g.start + 1 + i !in h[..k];
      } else {
        assert b !in h[..k];
      }
    }
  }

  /** A disk with an empty header is its own recovery. */
  lemma RecoverEmpty(g: Geometry, d: Disk)
    requires Fits(g, d) && d[g.start][0] == 0
    ensures WellFormed(g, d) && SameHomes(g, Recovered(g, d), d)
  {
  }

  // ---- runs of crashes during recovery ----

  /** Disk states a recovery of `d` passes through, in order. */
  ghost predicate RecoveryState(g: Geometry, d: Disk, e: Disk) {
    && WellFormed(g, d)
    && (|| e == Recovered(g, d)
        || exists k :: 0 <= k <= |Header(d[g.start])| && e == Replay(g, d, Header(d[g.start]), k))
  }

  /** Each boot starts from a disk the previous, interrupted boot had reached. */
  ghost predicate CrashLoop(g: Geometry, ds: seq<Disk>) {
    && |ds| > 0 && WellFormed(g, ds[0])
    && (forall i :: 0 <= i < |ds| - 1 ==> RecoveryState(g, ds[i], ds[i + 1]))
  }

  lemma RecoveryStateSafe(g: Geometry, d: Disk, e: Disk)
    requires RecoveryState(g, d, e)
    ensures WellFormed(g, e) && SameHomes(g, Recovered(g, e), Recovered(g, d))
  {
    if e == Recovered(g, d) {
      RecoverEmpty(g, e);
    } else {
      var k :| 0 <= k <= |Header(d[g.start])| && e == Replay(g, d, Header(d[g.start]), k);
      RecoverAgain(g, d, k);
    }
  }

  /** However often recovery is interrupted, the boot that completes yields the same home blocks. */
  lemma {:induction false} RecoverySurvivesCrashes(g: Geometry, ds: seq<Disk>)
    requires CrashLoop(g, ds)
    ensures WellFormed(g, ds[|ds| - 1])
    ensures SameHomes(g, Recovered(g, ds[|ds| - 1]), Recovered(g, ds[0]))
  {
    if |ds| > 1 {
      RecoverySurvivesCrashes(g, ds[..|ds| - 1]);
      RecoveryStateSafe(g, ds[|ds| - 2], ds[|ds| - 1]);
    }
  }

  // ---- cache coherence ----

  ghost predicate Pinned(b: Buf, pins: set<nat>) {
    b.dev == ROOTDEV && b.blockno in pins
  }

  ghost predicate Cached(c: Cache, b: nat)
    requires c.Shaped()
  {
    exists i :: 0 <= i < NBUF && Holds(c.bufs[i], ROOTDEV, b) && c.bufs[i].valid
  }

  /** What a buffer must satisfy: one reference per holder and per pin, and current contents. */
  ghost predicate BufOk(b: Buf, logical: Disk, pins: set<nat>, dirty: bool) {
    && (b.dev == ROOTDEV ==> b.blockno < |logical|)
    && (b.locked ==> b.dev == ROOTDEV && b.valid)
    && (dirty ==> b.locked)
    && b.refcnt == (if b.locked then 1 else 0) + (if Pinned(b, pins) then 1 else 0)
    && (b.dev == ROOTDEV && b.valid && !dirty ==> b.data == logical[b.blockno])
  }

  /** `logical` is the contents every reader must see: cache, pins and disk agree on it.
      Buffers in `dirty` are being modified by their holder. */
  ghost predicate Coherent(c: Cache, logical: Disk, pins: set<nat>, dirty: set<int>) {
    && c.Shaped() && |c.Disk()| == |logical|
    && (forall i :: 0 <= i < NBUF ==> BufOk(c.bufs[i], logical, pins, i in dirty))
    && (forall i, j :: 0 <= i < j < NBUF && c.bufs[i].dev == ROOTDEV && c.bufs[j].dev == ROOTDEV ==>
          c.bufs[i].blockno != c.bufs[j].blockno)
    && (forall b :: b in pins ==> Cached(c, b))
    && (forall b :: 0 <= b < |logical| && b !in pins ==> c.Disk()[b] == logical[b])
  }

  ghost predicate Unheld(c: Cache, b: nat)
    requires c.Shaped()
  {
    forall i :: 0 <= i < NBUF && Holds(c.bufs[i], ROOTDEV, b) ==> !c.bufs[i].locked
  }

  ghost predicate HasFree(c: Cache)
    requires c.Shaped()
  {
    exists i :: 0 <= i < NBUF && c.bufs[i].refcnt == 0
  }

  /** bread returns the current contents, whatever buffer it has to recycle. */
  lemma ReadOk(c: Cache, logical: Disk, pins: set<nat>, dirty: set<int>, b: nat)
    requires Coherent(c, logical, pins, dirty) && b < |logical| && Unheld(c, b)
    requires HasFree(c) || Cached(c, b)
    ensures var i := Slot(c, ROOTDEV, b); var r := Read(c, ROOTDEV, b);
            && 0 <= i < NBUF && i !in dirty && !c.bufs[i].locked
            && Coherent(r, logical, pins, dirty)
            && r.bufs[i].locked && Holds(r.bufs[i], ROOTDEV, b) && r.bufs[i].data == logical[b]
            && r.bufs == c.bufs[i := r.bufs[i]]
  {
    SlotFound(c, ROOTDEV, b);
    var i := Slot(c, ROOTDEV, b);
    var r := Read(c, ROOTDEV, b);
    assert Holds(c.bufs[i], ROOTDEV, b) || c.bufs[i].refcnt == 0;
    if !Holds(c.bufs[i], ROOTDEV, b) {
      forall j | 0 <= j < NBUF
        ensures !Holds(c.bufs[j], ROOTDEV, b)
      {
        BufferCache.Ring.VisitsAll(c.lru, j);
      }
    }
    forall p | p in pins
      ensures Cached(r, p)
    {
      var j :| 0 <= j < NBUF && Holds(c.bufs[j], ROOTDEV, p) && c.bufs[j].valid;
      assert Holds(r.bufs[j], ROOTDEV, p) && r.bufs[j].valid;
    }
  }

  lemma CachedStays(c: Cache, r: Cache, pins: set<nat>)
    requires c.Shaped() && r.Shaped()
    requires forall b :: b in pins ==> Cached(c, b)
    requires forall i :: 0 <= i < NBUF && Pinned(c.bufs[i], pins) && c.bufs[i].valid ==>
               Holds(r.bufs[i], ROOTDEV, c.bufs[i].blockno) && r.bufs[i].valid
    ensures forall b :: b in pins ==> Cached(r, b)
  {
    forall b | b in pins
      ensures Cached(r, b)
    {
      var j :| 0 <= j < NBUF && Holds(c.bufs[j], ROOTDEV, b) && c.bufs[j].valid;
      assert Holds(r.bufs[j], ROOTDEV, b) && r.bufs[j].valid;
    }
  }

  /** A holder may change its buffer, which then counts as dirty. */
  lemma FillOk(c: Cache, logical: Disk, pins: set<nat>, dirty: set<int>, i: int, data: Block)
    requires Coherent(c, logical, pins, dirty) && 0 <= i < NBUF && c.bufs[i].locked
    ensures Coherent(Fill(c, i, data), logical, pins, dirty + {i})
  {
    CachedStays(c, Fill(c, i, data), pins);
  }

  /** bwrite makes the buffer the current contents of its block, in memory and on disk. */
  lemma WriteOk(c: Cache, logical: Disk, pins: set<nat>, dirty: set<int>, i: int)
    requires Coherent(c, logical, pins, dirty) && 0 <= i < NBUF && c.bufs[i].locked
    ensures var b := c.bufs[i].blockno; var r := Write(c, i);
            && Coherent(r, logical[b := c.bufs[i].data], pins, dirty - {i})
            && r.hist == c.hist + [c.Disk()[b := c.bufs[i].data]]
  {
    CachedStays(c, Write(c, i), pins);
  }

  /** Overwriting a held buffer and writing it through. */
  lemma StoreOk(c: Cache, logical: Disk, pins: set<nat>, i: int, data: Block)
    requires Coherent(c, logical, pins, {}) && 0 <= i < NBUF && c.bufs[i].locked
    ensures var b := c.bufs[i].blockno; var r := Write(Fill(c, i, data), i);
            && b < |logical| == |c.Disk()|
            && Coherent(r, logical[b := data], pins, {})
            && r.hist == c.hist + [c.Disk()[b := data]]
            && r.bufs == c.bufs[i := c.bufs[i].(data := data)]
  {
    FillOk(c, logical, pins, {}, i, data);
    WriteOk(Fill(c, i, data), logical, pins, {} + {i}, i);
    assert ({} + {i}) - {i} == {};
  }

  /** brelse of a buffer that is not dirty. */
  lemma ReleaseOk(c: Cache, logical: Disk, pins: set<nat>, dirty: set<int>, i: int)
    requires Coherent(c, logical, pins, dirty) && 0 <= i < NBUF && c.bufs[i].locked && i !in dirty
    ensures var r := Release(c, i);
            && Coherent(r, logical, pins, dirty)
            && r.bufs == c.bufs[i := c.bufs[i].(locked := false, refcnt := c.bufs[i].refcnt - 1)]
            && (c.bufs[i].blockno !in pins ==> HasFree(r))
  {
    var r := Release(c, i);
    CachedStays(c, r, pins);
    assert c.bufs[i].blockno !in pins ==> r.bufs[i].refcnt == 0;
  }

  /** Dropping the pin of a block that has reached its home. */
  lemma UnpinOk(c: Cache, logical: Disk, pins: set<nat>, dirty: set<int>, i: int)
    requires Coherent(c, logical, pins, dirty) && 0 <= i < NBUF && c.bufs[i].locked
    requires c.bufs[i].blockno in pins && c.Disk()[c.bufs[i].blockno] == logical[c.bufs[i].blockno]
    ensures var r := Unpin(c, i);
            && Coherent(r, logical, pins - {c.bufs[i].blockno}, dirty)
            && r.hist == c.hist
            && r.bufs == c.bufs[i := c.bufs[i].(refcnt := c.bufs[i].refcnt - 1)]
  {
    CachedStays(c, Unpin(c, i), pins - {c.bufs[i].blockno});
  }

  /** log_write makes the held contents current and pins the buffer unless it already is. */
  lemma LogWriteOk(c: Cache, logical: Disk, pins: set<nat>, dirty: set<int>, i: int)
    requires Coherent(c, logical, pins, dirty) && 0 <= i < NBUF && c.bufs[i].locked
    ensures var b := c.bufs[i].blockno; var r := if b in pins then c else Pin(c, i);
            && b < |logical|
            && Coherent(r, logical[b := c.bufs[i].data], pins + {b}, dirty - {i})
  {
    var b := c.bufs[i].blockno;
    var r := if b in pins then c else Pin(c, i);
    CachedStays(c, r, pins);
    assert Holds(r.bufs[i], ROOTDEV, b) && r.bufs[i].valid;
  }

  lemma {:induction false} ImageSize<T>(f: seq<T>, s: set<T>)
    requires forall i, j :: 0 <= i < j < |f| ==> f[i] != f[j]
    requires forall i :: 0 <= i < |f| ==> f[i] in s
    ensures |f| <= |s|
  {
    if f != [] {
      var last := |f| - 1;
      ImageSize(f[..last], s - {f[last]});
    }
  }

  /** With no buffer held, one is free exactly when fewer blocks are pinned than there are buffers. */
  lemma FreeUnlessFull(c: Cache, logical: Disk, pins: set<nat>)
    requires Coherent(c, logical, pins, {})
    requires forall i :: 0 <= i < NBUF ==> !c.bufs[i].locked
    ensures HasFree(c) <==> |pins| < NBUF
  {
    var f := seq(NBUF, i requires 0 <= i < NBUF => c.bufs[i].blockno);
    if !HasFree(c) {
      forall i | 0 <= i < NBUF
        ensures f[i] in pins && c.bufs[i].dev == ROOTDEV
      {
        assert c.bufs[i].refcnt != 0;
      }
      ImageSize(f, pins);
    } else {
      var k :| 0 <= k < NBUF && c.bufs[k].refcnt == 0;
      PinsInOthers(c, pins, k);
    }
  }

  /** If buffer `k` is not pinned, the pins live in the other buffers. */
  lemma PinsInOthers(c: Cache, pins: set<nat>, k: int)
    requires c.Shaped() && 0 <= k < NBUF && !Pinned(c.bufs[k], pins)
    requires forall b :: b in pins ==> Cached(c, b)
    ensures |pins| < NBUF
  {
    var others := seq(NBUF - 1, i requires 0 <= i < NBUF - 1 => c.bufs[if i < k then i else i + 1].blockno);
    var s := set i | 0 <= i < NBUF - 1 :: others[i];
    SetOfSeq(others);
    forall b | b in pins
      ensures b in s
    {
      var j :| 0 <= j < NBUF && Holds(c.bufs[j], ROOTDEV, b) && c.bufs[j].valid;
      assert others[if j < k then j else j - 1] == b;
    }
    SubsetSize(pins, s);
  }

  lemma {:induction false} SetOfSeq<T>(f: seq<T>)
    ensures |set i | 0 <= i < |f| :: f[i]| <= |f|
  {
    if f != [] {
      var last := |f| - 1;
      SetOfSeq(f[..last]);
      var s, t := set i | 0 <= i < |f| :: f[i], set i | 0 <= i < last :: f[..last][i];
      assert s == t + {f[last]};
    }
  }
}
