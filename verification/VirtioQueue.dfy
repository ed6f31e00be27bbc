/** The virtio block queue of platform/qemu/platform.c and the device at its other end, which takes
    requests in order and completes them in any order (section 2.6 of VirtIO 1.1). Everything the
    driver does here it does under qemu_disk.lock. */
module VirtioQueue {
  import opened Collections

  const NUM := 8
  const IDX := 65536                     // uint16 indices

  datatype Address = Null | Header(i: nat) | Buffer(b: nat) | Status(i: nat)

  /** A descriptor; `more` and `write` are the flags NEXT and WRITE. */
  datatype Desc = Desc(addr: Address, more: bool, write: bool, next: nat)

  datatype Hdr = Hdr(write: bool, sector: nat)

  datatype Req = Req(sector: nat, buf: nat, write: bool)

  const NoDesc := Desc(Null, false, false, 0)

  /** Where a request is: in the available ring, with the device, in the used ring, or over. */
  datatype Phase = Posted | Taken | Used | Over

  /** A request in flight under its head: the rest of its chain, its place in the ring, and the status that the
      device gave it, 0xff until then. */
  datatype Flight = Flight(req: Req, b: nat, c: nat, phase: Phase, at: nat, result: nat)

  /** The queue in memory, and its history: `posted` and `finished` list the heads that were ever
      put in the two rings, of which the first `taken` and `seen` were taken out again. `owner` is
      the head of the request that has a descriptor. */
  datatype Queue = Queue(
    free: seq<bool>, desc: seq<Desc>, ops: seq<Hdr>, status: seq<nat>, done: seq<bool>,
    availRing: seq<nat>, availIdx: nat, usedRing: seq<nat>, usedIdx: nat, seenIdx: nat, devIdx: nat,
    posted: seq<nat>, taken: nat, finished: seq<nat>, seen: nat, flight: map<nat, Flight>, owner: seq<int>)

  function Chain(f: map<nat, Flight>, h: nat): (s: set<nat>)
    requires h in f
  {
    {h, f[h].b, f[h].c}
  }

  predicate Shaped(q: Queue) {
    && |q.free| == NUM && |q.desc| == NUM && |q.ops| == NUM && |q.status| == NUM && |q.done| == NUM
    && |q.availRing| == NUM && |q.usedRing| == NUM && |q.owner| == NUM
  }

  /** The chain of `h` is three descriptors in use that spell out the request. */
  predicate ChainOk(q: Queue, h: nat)
    requires Shaped(q) && h in q.flight
  {
    var f := q.flight[h];
    && h < NUM && f.b < NUM && f.c < NUM && h != f.b && h != f.c && f.b != f.c
    && q.owner[h] == h && q.owner[f.b] == h && q.owner[f.c] == h
    && q.ops[h] == Hdr(f.req.write, f.req.sector)
    && q.desc[h] == Desc(Header(h), true, false, f.b)
    && q.desc[f.b] == Desc(Buffer(f.req.buf), true, !f.req.write, f.c)
    && q.desc[f.c] == Desc(Status(h), false, true, 0)
  }

  predicate DescOk(q: Queue, i: nat)
    requires Shaped(q) && i < NUM
  {
    && (q.free[i] <==> q.owner[i] < 0)
    && (q.free[i] ==> q.desc[i] == NoDesc)
    && (q.owner[i] >= 0 ==> q.owner[i] in q.flight && i in Chain(q.flight, q.owner[i]))
  }

  /** Descriptors in use belong to exactly one request, the others are free and blank. */
  predicate Owners(q: Queue)
    requires Shaped(q)
  {
    (forall h :: h in q.flight ==> ChainOk(q, h)) && (forall i :: 0 <= i < NUM ==> DescOk(q, i))
  }

  /** Indices are the true counts modulo 2^16, and the rings hold what was put in and not taken out. */
  predicate Rings(q: Queue)
    requires Shaped(q)
  {
    && q.taken <= |q.posted| && q.seen <= |q.finished|
    && q.availIdx == |q.posted| % IDX && q.devIdx == q.taken % IDX
    && q.usedIdx == |q.finished| % IDX && q.seenIdx == q.seen % IDX
    && (forall k :: q.taken <= k < |q.posted| ==> q.availRing[k % NUM] == q.posted[k])
    && (forall k :: q.seen <= k < |q.finished| ==> q.usedRing[k % NUM] == q.finished[k])
  }

  /** Each ring entry not taken out is a request in that phase, and the other way round. */
  predicate Places(q: Queue)
    requires Shaped(q)
  {
    && (forall k :: q.taken <= k < |q.posted| ==> PlacedAt(q, q.posted[k], Posted, k))
    && (forall k :: q.seen <= k < |q.finished| ==> PlacedAt(q, q.finished[k], Used, k))
    && (forall h :: h in q.flight ==> PhaseOk(q, h))
  }

  predicate PlacedAt(q: Queue, h: nat, phase: Phase, k: nat) {
    h in q.flight && q.flight[h].phase == phase && q.flight[h].at == k
  }

  predicate PhaseOk(q: Queue, h: nat)
    requires Shaped(q) && h in q.flight
  {
    var f := q.flight[h];
    && h < NUM
    && (f.phase.Posted? ==> q.taken <= f.at < |q.posted| && q.posted[f.at] == h)
    && (f.phase.Used? ==> q.seen <= f.at < |q.finished| && q.finished[f.at] == h)
    && q.status[h] == f.result && (f.phase.Over? ==> f.result == 0)
    && (q.done[h] <==> f.phase.Over?)
  }

  /** A head that no request has was left with status 0. */
  predicate LeftGood(q: Queue)
    requires Shaped(q)
  {
    forall h :: 0 <= h < NUM && h !in q.flight ==> q.status[h] == 0
  }

  predicate Inv(q: Queue) {
    Shaped(q) && Owners(q) && Rings(q) && Places(q) && LeftGood(q)
  }

  // ---- index arithmetic ----

  lemma Wraps(n: nat)
    ensures (n % IDX + 1) % IDX == (n + 1) % IDX && n % IDX % NUM == n % NUM
  {
    var p, r := n / IDX, n % IDX;
    assert n == p * IDX + r;
    if r + 1 < IDX { Divides(n + 1, p, r + 1); } else { Divides(n + 1, p + 1, 0); }
    assert n == p * (IDX / NUM) * NUM + r;
    Slots(n, p * (IDX / NUM), r);
  }

  lemma Divides(n: nat, q: nat, r: nat)
    requires n == q * IDX + r && r < IDX
    ensures n % IDX == r
  {
  }

  lemma Slots(n: nat, q: nat, r: nat)
    requires n == q * NUM + r
    ensures n % NUM == r % NUM
  {
  }

  lemma Apart(a: nat, b: nat)
    requires a <= b <= a + NUM
    ensures a % IDX == b % IDX <==> a == b
    ensures a < b < a + NUM ==> a % NUM != b % NUM
  {
    assert a == a / IDX * IDX + a % IDX && b == b / IDX * IDX + b % IDX;
    assert a == a / NUM * NUM + a % NUM && b == b / NUM * NUM + b % NUM;
  }

  /** Distinct heads other than `h` fill less than a whole ring. */
  lemma RoomFor(heads: seq<nat>, lo: nat, h: nat)
    requires lo <= |heads| && h < NUM
    requires forall k :: lo <= k < |heads| ==> heads[k] < NUM && heads[k] != h
    requires forall j, k :: lo <= j < k < |heads| ==> heads[j] != heads[k]
    ensures |heads| < lo + NUM
  {
    var s := set k | lo <= k < |heads| :: heads[k];
    Distinct(heads, lo, |heads|);
    var all: set<nat> := {0, 1, 2, 3, 4, 5, 6, 7};
    assert s <= all - {h};
    SubsetSize(s, all - {h});
  }

  lemma {:induction false} Distinct(heads: seq<nat>, lo: nat, hi: nat)
    requires lo <= hi <= |heads|
    requires forall j, k :: lo <= j < k < hi ==> heads[j] != heads[k]
    ensures |set k | lo <= k < hi :: heads[k]| == hi - lo
    decreases hi
  {
    var s := set k | lo <= k < hi :: heads[k];
    if lo == hi {
      assert s == {};
    } else {
      Distinct(heads, lo, hi - 1);
      var t := set k | lo <= k < hi - 1 :: heads[k];
      assert s == t + {heads[hi - 1]};
    }
  }

  lemma PostedRoom(q: Queue, h: nat)
    requires Inv(q) && h < NUM && (h in q.flight ==> !q.flight[h].phase.Posted?)
    ensures |q.posted| < q.taken + NUM
  {
    hide Owners;
    forall k | q.taken <= k < |q.posted|
      ensures q.posted[k] < NUM && q.posted[k] != h && q.flight[q.posted[k]].at == k
    {
      assert PlacedAt(q, q.posted[k], Posted, k);
      assert PhaseOk(q, q.posted[k]);
    }
    RoomFor(q.posted, q.taken, h);
  }

  lemma UsedRoom(q: Queue, h: nat)
    requires Inv(q) && h < NUM && (h in q.flight ==> !q.flight[h].phase.Used?)
    ensures |q.finished| < q.seen + NUM
  {
    hide Owners;
    forall k | q.seen <= k < |q.finished|
      ensures q.finished[k] < NUM && q.finished[k] != h && q.flight[q.finished[k]].at == k
    {
      assert PlacedAt(q, q.finished[k], Used, k);
      assert PhaseOk(q, q.finished[k]);
    }
    RoomFor(q.finished, q.seen, h);
  }

  // ---- the steps ----

  /** platform_qemu_disk_rw up to the first sleep, once three descriptors were free. */
  function Post(q: Queue, h: nat, b: nat, c: nat, req: Req): (r: Queue)
    requires Shaped(q) && h < NUM && b < NUM && c < NUM
  {
    q.(free := q.free[h := false][b := false][c := false],
       desc := q.desc[h := Desc(Header(h), true, false, b)][b := Desc(Buffer(req.buf), true, !req.write, c)]
                     [c := Desc(Status(h), false, true, 0)],
       ops := q.ops[h := Hdr(req.write, req.sector)], status := q.status[h := 0xff], done := q.done[h := false],
       availRing := q.availRing[q.availIdx % NUM := h], availIdx := (q.availIdx + 1) % IDX,
       posted := q.posted + [h], flight := q.flight[h := Flight(req, b, c, Posted, |q.posted|, 0xff)],
       owner := q.owner[h := h][b := h][c := h])
  }

  /** The device takes the next available head. */
  function Take(q: Queue): (r: Queue)
    requires Shaped(q)
  {
    var h := q.availRing[q.devIdx % NUM];
    q.(devIdx := (q.devIdx + 1) % IDX, taken := q.taken + 1,
       flight := if h in q.flight then q.flight[h := q.flight[h].(phase := Taken)] else q.flight)
  }

  /** The device completes a request that it has, with any status. */
  function Complete(q: Queue, h: nat, result: nat): (r: Queue)
    requires Shaped(q) && h < NUM && h in q.flight
  {
    q.(status := q.status[h := result], usedRing := q.usedRing[q.usedIdx % NUM := h], usedIdx := (q.usedIdx + 1) % IDX,
       finished := q.finished + [h],
       flight := q.flight[h := q.flight[h].(phase := Used, at := |q.finished|, result := result)])
  }

  /** The next completion that the interrupt handler comes to has a bad status. */
  predicate Bad(q: Queue)
    requires Shaped(q)
  {
    var h := q.usedRing[q.seenIdx % NUM];
    q.seenIdx != q.usedIdx && h < NUM && q.status[h] != 0
  }

  /** One round of the interrupt handler, which does not get here with a bad status. */
  function See(q: Queue): (r: Queue)
    requires Shaped(q)
  {
    var h := q.usedRing[q.seenIdx % NUM];
    if h < NUM && h in q.flight then
      q.(done := q.done[h := true], seenIdx := (q.seenIdx + 1) % IDX, seen := q.seen + 1,
         flight := q.flight[h := q.flight[h].(phase := Over)])
    else q
  }

  /** The requester, awake again, gives its chain back. */
  function Finish(q: Queue, h: nat): (r: Queue)
    requires Shaped(q) && h in q.flight && ChainOk(q, h)
  {
    var f := q.flight[h];
    q.(free := q.free[h := true][f.b := true][f.c := true],
       desc := q.desc[h := NoDesc][f.b := NoDesc][f.c := NoDesc], flight := q.flight - {h},
       owner := q.owner[h := -1][f.b := -1][f.c := -1])
  }

  lemma PostChains(q: Queue, h: nat, b: nat, c: nat, req: Req, g: nat)
    requires Shaped(q) && Owners(q) && h < NUM && b < NUM && c < NUM && h != b && h != c && b != c
    requires q.free[h] && q.free[b] && q.free[c] && g in q.flight
    ensures g != h && g in Post(q, h, b, c, req).flight && ChainOk(Post(q, h, b, c, req), g)
  {
    assert DescOk(q, h) && DescOk(q, b) && DescOk(q, c);
    assert ChainOk(q, g);
  }

  lemma PostOwners(q: Queue, h: nat, b: nat, c: nat, req: Req)
    requires Shaped(q) && Owners(q) && h < NUM && b < NUM && c < NUM && h != b && h != c && b != c
    requires q.free[h] && q.free[b] && q.free[c]
    ensures Owners(Post(q, h, b, c, req)) && h !in q.flight
  {
    var r := Post(q, h, b, c, req);
    forall g | g in q.flight
      ensures g != h && g in r.flight && ChainOk(r, g)
    {
      PostChains(q, h, b, c, req, g);
    }
    hide ChainOk;
    assert ChainOk(r, h) by { PostChain(q, h, b, c, req); }
    forall i | 0 <= i < NUM
      ensures DescOk(r, i)
    {
      assert DescOk(q, i);
    }
  }

  lemma PostChain(q: Queue, h: nat, b: nat, c: nat, req: Req)
    requires Shaped(q) && h < NUM && b < NUM && c < NUM && h != b && h != c && b != c
    ensures ChainOk(Post(q, h, b, c, req), h)
  {
  }

  lemma PostRings(q: Queue, h: nat, b: nat, c: nat, req: Req)
    requires Inv(q) && h < NUM && b < NUM && c < NUM && h !in q.flight
    ensures Rings(Post(q, h, b, c, req)) && Places(Post(q, h, b, c, req))
  {
    hide Owners;
    var r := Post(q, h, b, c, req);
    PostedRoom(q, h);
    Wraps(|q.posted|);
    forall k | r.taken <= k < |r.posted|
      ensures r.availRing[k % NUM] == r.posted[k] && PlacedAt(r, r.posted[k], Posted, k)
    {
      if k < |q.posted| {
        Apart(k, |q.posted|);
        assert PlacedAt(q, q.posted[k], Posted, k);
      }
    }
    forall k | r.seen <= k < |r.finished|
      ensures PlacedAt(r, r.finished[k], Used, k)
    {
      assert PlacedAt(q, q.finished[k], Used, k);
    }
    forall g | g in r.flight
      ensures PhaseOk(r, g)
    {
      if g != h { assert PhaseOk(q, g); }
    }
  }

  /** A new request overwrites no ring entry that the device has not taken. */
  lemma PostOk(q: Queue, h: nat, b: nat, c: nat, req: Req)
    requires Inv(q) && h < NUM && b < NUM && c < NUM && h != b && h != c && b != c && q.free[h] && q.free[b]
      && q.free[c]
    ensures Inv(Post(q, h, b, c, req)) && h !in q.flight && |q.posted| < q.taken + NUM
  {
    hide Owners, Rings, Places;
    PostOwners(q, h, b, c, req);
    PostRings(q, h, b, c, req);
    PostedRoom(q, h);
  }

  /** Changing phases and places leaves descriptors and owners alone. */
  lemma SameOwners(q: Queue, r: Queue)
    requires Shaped(q) && Shaped(r) && Owners(q)
    requires r.free == q.free && r.desc == q.desc && r.ops == q.ops && r.owner == q.owner
      && r.flight.Keys == q.flight.Keys
    requires forall h :: h in q.flight ==>
      r.flight[h].req == q.flight[h].req && r.flight[h].b == q.flight[h].b && r.flight[h].c == q.flight[h].c
    ensures Owners(r)
  {
    forall h | h in r.flight
      ensures ChainOk(r, h)
    {
      assert ChainOk(q, h);
    }
    forall i | 0 <= i < NUM
      ensures DescOk(r, i)
    {
      assert DescOk(q, i);
    }
  }

  lemma TakeOk(q: Queue)
    requires Inv(q) && q.devIdx != q.availIdx
    ensures Inv(Take(q)) && q.taken < |q.posted| && q.availRing[q.devIdx % NUM] == q.posted[q.taken]
    ensures PlacedAt(q, q.posted[q.taken], Posted, q.taken)
  {
    hide Owners;
    var r := Take(q);
    assert q.taken < |q.posted|;
    Wraps(q.taken);
    var h := q.posted[q.taken];
    assert PlacedAt(q, h, Posted, q.taken);
    SameOwners(q, r);
    forall k | r.taken <= k < |r.posted|
      ensures PlacedAt(r, r.posted[k], Posted, k)
    {
      assert PlacedAt(q, q.posted[k], Posted, k);
    }
    forall k | r.seen <= k < |r.finished|
      ensures PlacedAt(r, r.finished[k], Used, k)
    {
      assert PlacedAt(q, q.finished[k], Used, k);
    }
    forall g | g in r.flight
      ensures PhaseOk(r, g)
    {
      assert PhaseOk(q, g);
    }
  }

  lemma CompleteOk(q: Queue, h: nat, result: nat)
    requires Inv(q) && h < NUM && h in q.flight && q.flight[h].phase.Taken?
    ensures Inv(Complete(q, h, result)) && |q.finished| < q.seen + NUM
  {
    hide Owners;
    var r := Complete(q, h, result);
    UsedRoom(q, h);
    Wraps(|q.finished|);
    SameOwners(q, r);
    forall k | r.taken <= k < |r.posted|
      ensures PlacedAt(r, r.posted[k], Posted, k)
    {
      assert PlacedAt(q, q.posted[k], Posted, k);
    }
    forall k | r.seen <= k < |r.finished|
      ensures r.usedRing[k % NUM] == r.finished[k] && PlacedAt(r, r.finished[k], Used, k)
    {
      if k < |q.finished| {
        Apart(k, |q.finished|);
        assert PlacedAt(q, q.finished[k], Used, k);
      }
    }
    forall g | g in r.flight
      ensures PhaseOk(r, g)
    {
      assert PhaseOk(q, g);
    }
  }

  /** The handler comes to the request whose head the device put in the ring next, and reads the status that the
      device gave that very request. */
  lemma NextOk(q: Queue)
    requires Inv(q) && q.seenIdx != q.usedIdx
    ensures Shaped(q) && q.seen < |q.finished|
    ensures var h := q.usedRing[q.seenIdx % NUM];
            && h == q.finished[q.seen] && h < NUM && PlacedAt(q, h, Used, q.seen)
            && q.status[h] == q.flight[h].result && (Bad(q) <==> q.flight[h].result != 0)
  {
    hide Owners;
    Wraps(q.seen);
    assert PlacedAt(q, q.finished[q.seen], Used, q.seen);
    assert PhaseOk(q, q.finished[q.seen]);
  }

  /** With a good status the handler credits that request. */
  lemma SeeOk(q: Queue)
    requires Shaped(q) && Inv(q) && q.seenIdx != q.usedIdx && !Bad(q)
    ensures Inv(See(q)) && q.seen < |q.finished| && See(q).seen == q.seen + 1
    ensures PlacedAt(See(q), q.finished[q.seen], Over, q.seen)
  {
    hide Owners;
    NextOk(q);
    var r := See(q);
    Wraps(q.seen);
    var h := q.finished[q.seen];
    assert PhaseOk(q, h);
    SameOwners(q, r);
    forall k | r.taken <= k < |r.posted|
      ensures PlacedAt(r, r.posted[k], Posted, k)
    {
      assert PlacedAt(q, q.posted[k], Posted, k);
    }
    forall k | r.seen <= k < |r.finished|
      ensures PlacedAt(r, r.finished[k], Used, k)
    {
      assert PlacedAt(q, q.finished[k], Used, k);
    }
    forall g | g in r.flight
      ensures PhaseOk(r, g)
    {
      assert PhaseOk(q, g);
    }
  }

  lemma FinishOwners(q: Queue, h: nat)
    requires Shaped(q) && Owners(q) && h in q.flight && ChainOk(q, h)
    ensures Owners(Finish(q, h))
  {
    var r := Finish(q, h);
    forall g | g in r.flight
      ensures ChainOk(r, g)
    {
      assert ChainOk(q, g);
    }
    FinishDescs(q, h);
  }

  lemma FinishDescs(q: Queue, h: nat)
    requires Shaped(q) && Owners(q) && h in q.flight && ChainOk(q, h)
    ensures forall i :: 0 <= i < NUM ==> DescOk(Finish(q, h), i)
  {
    forall i | 0 <= i < NUM
      ensures DescOk(Finish(q, h), i)
    {
      assert DescOk(q, i);
    }
  }

  lemma FinishOk(q: Queue, h: nat)
    requires Inv(q) && h in q.flight && q.flight[h].phase.Over? && ChainOk(q, h)
    ensures Inv(Finish(q, h))
  {
    hide Owners;
    var r := Finish(q, h);
    FinishOwners(q, h);
    forall k | r.taken <= k < |r.posted|
      ensures PlacedAt(r, r.posted[k], Posted, k)
    {
      assert PlacedAt(q, q.posted[k], Posted, k);
    }
    forall k | r.seen <= k < |r.finished|
      ensures PlacedAt(r, r.finished[k], Used, k)
    {
      assert PlacedAt(q, q.finished[k], Used, k);
    }
    forall g | g in r.flight
      ensures PhaseOk(r, g)
    {
      assert PhaseOk(q, g);
    }
  }

  /** Requests in flight have no descriptor in common. */
  lemma Disjoint(q: Queue, g: nat, h: nat)
    requires Inv(q) && g in q.flight && h in q.flight && g != h
    ensures Chain(q.flight, g) !! Chain(q.flight, h)
  {
    hide Rings, Places;
    assert ChainOk(q, g) && ChainOk(q, h);
  }

  /** What a device reads that follows the chain from head `h` as the flags say: the request, and where its status
      goes. It reads the header, may write to the buffer exactly on a read, and may write the status. */
  function Parse(q: Queue, h: nat): (r: Option<(Req, nat)>)
    requires Shaped(q)
  {
    if h >= NUM then None else
    var first := q.desc[h];
    if !first.addr.Header? || first.addr.i >= NUM || first.write || !first.more || first.next >= NUM then None else
    var hdr, data := q.ops[first.addr.i], q.desc[first.next];
    if !data.addr.Buffer? || data.write == hdr.write || !data.more || data.next >= NUM then None else
    var last := q.desc[data.next];
    if !last.addr.Status? || !last.write || last.more then None
    else Some((Req(hdr.sector, data.addr.b, hdr.write), last.addr.i))
  }

  /** At any time until it is freed, the chain of a request reads back as that request. */
  lemma ParseOk(q: Queue, h: nat)
    requires Inv(q) && h in q.flight
    ensures Parse(q, h) == Some((q.flight[h].req, h))
  {
    hide Rings, Places;
    assert ChainOk(q, h);
  }

  // ---- any order of events ----

  datatype Event =
    | Posts(h: nat, b: nat, c: nat, req: Req) | Takes | Completes(h: nat, result: nat) | Sees | Finishes(h: nat)

  predicate Possible(q: Queue, e: Event)
    requires Shaped(q)
  {
    match e
    case Posts(h, b, c, _) =>
      h < NUM && b < NUM && c < NUM && h != b && h != c && b != c && q.free[h] && q.free[b] && q.free[c]
    case Takes => q.devIdx != q.availIdx
    case Completes(h, _) => h < NUM && h in q.flight && q.flight[h].phase.Taken?
    case Sees => q.seenIdx != q.usedIdx && !Bad(q)
    case Finishes(h) => h < NUM && h in q.flight && q.done[h] && ChainOk(q, h)
  }

  function Step(q: Queue, e: Event): (r: Queue)
    requires Shaped(q) && Possible(q, e)
    ensures Shaped(r)
  {
    match e
    case Posts(h, b, c, req) => Post(q, h, b, c, req)
    case Takes => Take(q)
    case Completes(h, result) => Complete(q, h, result)
    case Sees => See(q)
    case Finishes(h) => Finish(q, h)
  }

  /** Events in any order; one that is not possible does not happen, and a panic ends the run. */
  function Run(q: Queue, events: seq<Event>): (r: Queue)
    requires Shaped(q)
    ensures Shaped(r)
    decreases |events|
  {
    if events == [] || (events[0].Sees? && Bad(q)) then q
    else Run(if Possible(q, events[0]) then Step(q, events[0]) else q, events[1..])
  }

  lemma StepOk(q: Queue, e: Event)
    requires Shaped(q) && Inv(q) && Possible(q, e)
    ensures Inv(Step(q, e))
  {
    hide Owners, Rings, Post, Take, Complete, See, Finish;
    match e
    case Posts(h, b, c, req) => PostOk(q, h, b, c, req);
    case Takes => TakeOk(q);
    case Completes(h, result) => CompleteOk(q, h, result);
    case Sees => SeeOk(q);
    case Finishes(h) =>
      assert PhaseOk(q, h);
      FinishOk(q, h);
  }

  /** In every run requests own disjoint chains that read back as posted, and no ring entry is lost. */
  lemma {:induction false} RunOk(q: Queue, events: seq<Event>)
    requires Shaped(q) && Inv(q)
    ensures Inv(Run(q, events))
    decreases |events|
  {
    hide Inv, Step, Possible;
    if events != [] && !(events[0].Sees? && Bad(q)) {
      var g := if Possible(q, events[0]) then Step(q, events[0]) else q;
      if Possible(q, events[0]) { StepOk(q, events[0]); }
      RunOk(g, events[1..]);
    }
  }

  // ---- the status that a requester reads again after it has released the lock ----

  /** By then its head may belong to another request, and it reads that one's status: it panics exactly when such a
      request is in flight and has not been completed with status 0. */
  lemma LateStatus(q: Queue, h: nat)
    requires Inv(q) && h < NUM
    ensures q.status[h] != 0 <==> h in q.flight && q.flight[h].result != 0
  {
    hide Owners, Rings;
    if h in q.flight { assert PhaseOk(q, h); }
  }

  /** The queue after platform_disk_init. */
  const Fresh := Queue(
    seq(NUM, _ => true), seq(NUM, _ => NoDesc), seq(NUM, _ => Hdr(false, 0)), seq(NUM, _ => 0), seq(NUM, _ => false),
    seq(NUM, _ => 0), 0, seq(NUM, _ => 0), 0, 0, 0, [], 0, [], 0, map[], seq(NUM, _ => -1))

  /** A request that is made, completed well and reclaimed, and another that takes its head. */
  const Served := [Posts(0, 1, 2, Req(0, 0, false)), Takes, Completes(0, 0), Sees, Finishes(0)]
  const Reuse := Posts(0, 1, 2, Req(8, 1, true))

  lemma RunStep(q: Queue, events: seq<Event>)
    requires Shaped(q) && events != [] && Possible(q, events[0])
    ensures Run(q, events) == Run(Step(q, events[0]), events[1..])
  {
  }

  /** The first requester, if only now it reads the status of its head, finds 0xff, though its request went well. */
  lemma LatePanic()
    ensures Shaped(Fresh)
    ensures 0 !in Run(Fresh, Served).flight && Run(Fresh, Served).status[0] == 0
    ensures Run(Fresh, Served + [Reuse]).status[0] == 0xff
  {
    var q1 := Step(Fresh, Served[0]);
    var q2 := Step(q1, Takes);
    var q3 := Step(q2, Completes(0, 0));
    var q4 := Step(q3, Sees);
    var q5 := Step(q4, Finishes(0));
    FiveSteps(q1, q2, q3, q4, q5, []);
    FiveSteps(q1, q2, q3, q4, q5, [Reuse]);
    assert Served + [] == Served;
    assert [Reuse][1..] == [];
    RunStep(q5, [Reuse]);
  }

  lemma FiveSteps(q1: Queue, q2: Queue, q3: Queue, q4: Queue, q5: Queue, rest: seq<Event>)
    requires Shaped(Fresh) && Possible(Fresh, Served[0]) && q1 == Step(Fresh, Served[0])
    requires Possible(q1, Takes) && q2 == Step(q1, Takes)
    requires Possible(q2, Completes(0, 0)) && q3 == Step(q2, Completes(0, 0))
    requires Possible(q3, Sees) && q4 == Step(q3, Sees)
    requires Possible(q4, Finishes(0)) && q5 == Step(q4, Finishes(0))
    ensures Run(Fresh, Served + rest) == Run(q5, rest)
  {
    hide Run, Possible, Step;
    var es := Served + rest;
    RunStep(Fresh, es);
    RunStep(q1, es[1..]);
    assert es[1..][1..] == es[2..];
    RunStep(q2, es[2..]);
    assert es[2..][1..] == es[3..];
    RunStep(q3, es[3..]);
    assert es[3..][1..] == es[4..];
    RunStep(q4, es[4..]);
    assert es[4..][1..] == rest;
  }
}
