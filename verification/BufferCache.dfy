/** The block cache (kernel/bio.c) over a disk whose block writes are atomic.

    `Cache` is the specification state: the disk after every write so far, the
    buffers, and the order of use. `Bcache` is the program: an array of buffers
    and the linked ring, each method tied to a function on `Cache`. */
module BufferCache {
  import opened Params
  import Ring = LruRing

  // A block as 128 words; block numbers and counts are stored one per word.
  const WORDS := BSIZE / 4
  type Block = b: seq<nat> | |b| == WORDS witness seq(WORDS, _ => 0)
  type Disk = seq<Block>

  datatype Buf = Buf(valid: bool, dev: nat, blockno: nat, refcnt: nat, locked: bool, data: Block)

  /** `hist` lists every state the disk has been in; the last one is current. */
  datatype Cache = Cache(hist: seq<Disk>, bufs: seq<Buf>, lru: seq<int>) {
    predicate Shaped() {
      && |hist| > 0 && |bufs| == NBUF && |lru| == NBUF && Ring.Distinct(lru)
    }

    function Disk(): (d: Disk)
      requires |hist| > 0
    {
      hist[|hist| - 1]
    }

    function Put(i: int, b: Buf): (c: Cache)
      requires 0 <= i < |bufs|
    {
      this.(bufs := bufs[i := b])
    }
  }

  predicate Holds(b: Buf, dev: nat, blockno: nat) {
    b.dev == dev && b.blockno == blockno
  }

  /** The first buffer from the most recently used end that holds the block, or -1. */
  function FindHit(bufs: seq<Buf>, order: seq<int>, dev: nat, blockno: nat): (r: int)
    requires forall i :: 0 <= i < |order| ==> 0 <= order[i] < |bufs|
    ensures r == -1 || (r in order && Holds(bufs[r], dev, blockno))
    ensures r == -1 ==> forall i :: 0 <= i < |order| ==> !Holds(bufs[order[i]], dev, blockno)
  {
    if order == [] then -1
    else if Holds(bufs[order[0]], dev, blockno) then order[0]
    else
      var r := FindHit(bufs, order[1..], dev, blockno);
      assert forall i :: 1 <= i < |order| ==> order[i] == order[1..][i - 1];
      r
  }

  /** The first unreferenced buffer from the least recently used end, or -1. */
  function FindFree(bufs: seq<Buf>, order: seq<int>): (r: int)
    requires forall i :: 0 <= i < |order| ==> 0 <= order[i] < |bufs|
    ensures r == -1 || (r in order && bufs[r].refcnt == 0)
    ensures r == -1 ==> forall i :: 0 <= i < |order| ==> bufs[order[i]].refcnt != 0
  {
    if order == [] then -1
    else
      var last := |order| - 1;
      if bufs[order[last]].refcnt == 0 then order[last]
      else FindFree(bufs, order[..last])
  }

  /** The buffer bget settles on, or -1 where it panics. */
  function Slot(c: Cache, dev: nat, blockno: nat): (r: int)
    requires c.Shaped()
    ensures -1 <= r < NBUF
  {
    var h := FindHit(c.bufs, c.lru, dev, blockno);
    if h >= 0 then h else FindFree(c.bufs, c.lru)
  }

  /** bget finds a buffer exactly when the block is cached or some buffer is unreferenced. */
  lemma SlotFound(c: Cache, dev: nat, blockno: nat)
    requires c.Shaped()
    ensures Slot(c, dev, blockno) >= 0 <==>
            exists i :: 0 <= i < NBUF && (Holds(c.bufs[i], dev, blockno) || c.bufs[i].refcnt == 0)
  {
    if i :| 0 <= i < NBUF && (Holds(c.bufs[i], dev, blockno) || c.bufs[i].refcnt == 0) {
      Ring.VisitsAll(c.lru, i);
    }
  }

  // The functions below are total; where the kernel would panic they change nothing, and
  // the methods that implement them require that case away.

  /** bget followed by the read that bread adds when the buffer is not valid. */
  function Read(c: Cache, dev: nat, blockno: nat): (r: Cache)
    requires c.Shaped()
    ensures r.Shaped() && r.hist == c.hist && r.lru == c.lru
  {
    var i := Slot(c, dev, blockno);
    if i < 0 || blockno >= |c.Disk()| then c else
    var b := c.bufs[i];
    var g := if Holds(b, dev, blockno) then b.(refcnt := b.refcnt + 1, locked := true)
             else Buf(false, dev, blockno, 1, true, b.data);
    c.Put(i, if g.valid then g else g.(valid := true, data := c.Disk()[blockno]))
  }

  /** Caller changes the contents of a locked buffer. */
  function Fill(c: Cache, i: int, data: Block): (r: Cache)
    requires c.Shaped() && 0 <= i < NBUF
    ensures r.Shaped()
  {
    c.Put(i, c.bufs[i].(data := data))
  }

  function Write(c: Cache, i: int): (r: Cache)
    requires c.Shaped() && 0 <= i < NBUF
    ensures r.Shaped() && r.bufs == c.bufs
  {
    if c.bufs[i].blockno >= |c.Disk()| then c else
    c.(hist := c.hist + [c.Disk()[c.bufs[i].blockno := c.bufs[i].data]])
  }

  function Pin(c: Cache, i: int): (r: Cache)
    requires c.Shaped() && 0 <= i < NBUF
    ensures r.Shaped()
  {
    c.Put(i, c.bufs[i].(refcnt := c.bufs[i].refcnt + 1))
  }

  function Unpin(c: Cache, i: int): (r: Cache)
    requires c.Shaped() && 0 <= i < NBUF
    ensures r.Shaped()
  {
    if c.bufs[i].refcnt == 0 then c else
    c.Put(i, c.bufs[i].(refcnt := c.bufs[i].refcnt - 1))
  }

  function Position(order: seq<int>, b: int): (k: nat)
    requires b in order
    ensures k < |order| && order[k] == b
  {
    if order[0] == b then 0 else 1 + Position(order[1..], b)
  }

  /** The ring after `b` becomes most recently used. */
  function Promote(order: seq<int>, b: int): (r: seq<int>)
    requires b in order
    ensures |r| == |order| && r[0] == b
    ensures Ring.Distinct(order) ==> Ring.Distinct(r)
  {
    var k := Position(order, b);
    var w := Ring.Without(order, k);
    assert forall i :: 0 <= i < |w| ==> w[i] == if i < k then order[i] else order[i + 1];
    [b] + w
  }

  function Release(c: Cache, i: int): (r: Cache)
    requires c.Shaped() && 0 <= i < NBUF
    ensures r.Shaped() && r.hist == c.hist
    ensures var b := c.bufs[i];
            b.refcnt > 0 ==> r.bufs == c.bufs[i := b.(refcnt := b.refcnt - 1, locked := false)]
  {
    var b := c.bufs[i];
    if b.refcnt == 0 then c else
    var c1 := c.Put(i, b.(refcnt := b.refcnt - 1, locked := false));
    Ring.VisitsAll(c.lru, i);
    if b.refcnt == 1 then c1.(lru := Promote(c.lru, i)) else c1
  }

  class Bcache {
    const ring: Ring.Ring
    const buf: array<Buf>
    var disk: Disk
    ghost var hist: seq<Disk>

    ghost predicate Valid()
      reads this, ring, ring.next, ring.prev, buf
    {
      && ring.Valid() && |ring.order| == NBUF
      && buf.Length == NBUF
      && |hist| > 0 && hist[|hist| - 1] == disk
    }

    ghost function Repr(): (r: set<object>) {
      {this, ring, ring.next, ring.prev, buf}
    }

    ghost function View(): (c: Cache)
      reads this, ring, ring.next, ring.prev, buf
      requires Valid()
      ensures c.Shaped() && c.Disk() == disk
    {
      Cache(hist, buf[..], ring.order)
    }

    /** binit on a machine whose disk holds `d`; buffers start as block 0 of device 0. */
    constructor (d: Disk)
      ensures Valid() && fresh(Repr()) && disk == d && hist == [d]
      ensures forall i :: 0 <= i < NBUF ==> buf[i] == Buf(false, 0, 0, 0, false, seq(WORDS, _ => 0))
    {
      var zero: Block := seq(WORDS, _ => 0);
      var r := new Ring.Ring();
      ring := r;
      buf := new Buf[NBUF](_ => Buf(false, 0, 0, 0, false, zero));
      disk := d;
      hist := [d];
    }

    /** First loop of bget: follow `next` from the head; the head itself means no hit. */
    method ScanHit(dev: nat, blockno: nat) returns (b: int)
      requires Valid()
      ensures var h := FindHit(buf[..], ring.order, dev, blockno);
              b == if h >= 0 then h else Ring.Head
    {
      ghost var order := ring.order;
      ghost var r := Ring.Circle(order);
      ghost var k := 0;
      assert ring.next[..][r[0]] == r[1];
      b := ring.next[Ring.Head];
      assert order[0..] == order;
      while b != Ring.Head
        invariant 0 <= k <= NBUF && b == r[k + 1]
        invariant FindHit(buf[..], order, dev, blockno) == FindHit(buf[..], order[k..], dev, blockno)
        decreases NBUF - k
      {
        assert order[k..][0] == b && order[k..][1..] == order[k + 1..];
        if buf[b].dev == dev && buf[b].blockno == blockno {
          return;
        }
        assert ring.next[..][r[k + 1]] == r[k + 2];
        b, k := ring.next[b], k + 1;
      }
    }

    /** Second loop of bget: follow `prev` from the head for an unreferenced buffer. */
    method ScanFree() returns (b: int)
      requires Valid()
      ensures var f := FindFree(buf[..], ring.order);
              b == if f >= 0 then f else Ring.Head
    {
      ghost var order := ring.order;
      ghost var r := Ring.Circle(order);
      ghost var k := NBUF;
      assert ring.prev[..][r[NBUF + 1]] == r[NBUF];
      b := ring.prev[Ring.Head];
      assert order[..NBUF] == order;
      while b != Ring.Head
        invariant 0 <= k <= NBUF && b == r[k]
        invariant FindFree(buf[..], order) == FindFree(buf[..], order[..k])
        decreases k
      {
        assert order[..k][k - 1] == b && order[..k][..k - 1] == order[..k - 1];
        if buf[b].refcnt == 0 {
          return;
        }
        assert ring.prev[..][r[k]] == r[k - 1];
        b, k := ring.prev[b], k - 1;
      }
    }

    /** bget, kernel/bio.c: reuse the cached buffer or recycle the least recently used one. */
    method Bget(dev: nat, blockno: nat) returns (b: int)
      requires Valid() && Slot(View(), dev, blockno) >= 0
      requires !buf[Slot(View(), dev, blockno)].locked
      modifies buf
      ensures Valid() && b == Slot(old(View()), dev, blockno)
      ensures View() == old(View()).Put(b,
        var o := old(buf[b]);
        if Holds(o, dev, blockno) then o.(refcnt := o.refcnt + 1, locked := true)
        else Buf(false, dev, blockno, 1, true, o.data))
    {
      b := ScanHit(dev, blockno);
      if b != Ring.Head {
        buf[b] := buf[b].(refcnt := buf[b].refcnt + 1, locked := true);
        return;
      }
      b := ScanFree();
      assert b == Slot(View(), dev, blockno);
      Ring.VisitsAll(ring.order, b);
      buf[b] := Buf(false, dev, blockno, 1, true, buf[b].data);
    }

    method Bread(dev: nat, blockno: nat) returns (b: int)
      requires Valid() && blockno < |disk| && Slot(View(), dev, blockno) >= 0
      requires !buf[Slot(View(), dev, blockno)].locked
      modifies buf
      ensures Valid() && b == Slot(old(View()), dev, blockno)
      ensures View() == Read(old(View()), dev, blockno)
    {
      b := Bget(dev, blockno);
      if !buf[b].valid {
        buf[b] := buf[b].(valid := true, data := disk[buf[b].blockno]);
      }
    }

    method Bwrite(b: int)
      requires Valid() && 0 <= b < NBUF && buf[b].locked && buf[b].blockno < |disk|
      modifies this
      ensures Valid() && View() == Write(old(View()), b)
    {
      disk := disk[buf[b].blockno := buf[b].data];
      hist := hist + [disk];
    }

    /** brelse, kernel/bio.c: unlock, drop the reference, move an idle buffer to the front. */
    method Brelse(b: int)
      requires Valid() && 0 <= b < NBUF && buf[b].locked && buf[b].refcnt > 0
      modifies buf, ring, ring.next, ring.prev
      ensures Valid() && View() == Release(old(View()), b)
    {
      buf[b] := buf[b].(refcnt := buf[b].refcnt - 1, locked := false);
      if buf[b].refcnt == 0 {
        Ring.VisitsAll(ring.order, b);
        ring.MoveToFront(b, Position(ring.order, b));
      }
    }

    /** memmove into a locked buffer. */
    method Store(b: int, data: Block)
      requires Valid() && 0 <= b < NBUF && buf[b].locked
      modifies buf
      ensures Valid() && View() == Fill(old(View()), b, data)
    {
      buf[b] := buf[b].(data := data);
    }

    method Bpin(b: int)
      requires Valid() && 0 <= b < NBUF
      modifies buf
      ensures Valid() && View() == Pin(old(View()), b)
    {
      buf[b] := buf[b].(refcnt := buf[b].refcnt + 1);
    }

    method Bunpin(b: int)
      requires Valid() && 0 <= b < NBUF && buf[b].refcnt > 0
      modifies buf
      ensures Valid() && View() == Unpin(old(View()), b)
    {
      buf[b] := buf[b].(refcnt := buf[b].refcnt - 1);
    }
  }
}
