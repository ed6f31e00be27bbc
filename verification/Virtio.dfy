/** The driver half of the queue as the code of platform/qemu/platform.c, and the device as two
    methods that may be called at any time. A panic is a failed precondition or assertion. */
module Virtio {
  import opened VirtioQueue

  class Disk {
    var free: seq<bool>
    var desc: seq<Desc>
    var ops: seq<Hdr>
    var status: seq<nat>
    var done: seq<bool>
    var availRing: seq<nat>
    var availIdx: nat
    var usedRing: seq<nat>
    var usedIdx: nat
    var seenIdx: nat                     // qemu_disk.used_idx
    var devIdx: nat                      // the device's own index into the available ring

    ghost var posted: seq<nat>
    ghost var taken: nat
    ghost var finished: seq<nat>
    ghost var seen: nat
    ghost var flight: map<nat, Flight>
    ghost var owner: seq<int>

    ghost function View(): (q: Queue)
      reads this
    {
      Queue(free, desc, ops, status, done, availRing, availIdx, usedRing, usedIdx, seenIdx, devIdx,
            posted, taken, finished, seen, flight, owner)
    }

    /** The queue part of platform_disk_init. */
    constructor ()
      ensures Inv(View()) && flight == map[]
    {
      free, desc, ops := seq(NUM, _ => true), seq(NUM, _ => NoDesc), seq(NUM, _ => Hdr(false, 0));
      status, done := seq(NUM, _ => 0), seq(NUM, _ => false);
      availRing, usedRing := seq(NUM, _ => 0), seq(NUM, _ => 0);
      availIdx, usedIdx, seenIdx, devIdx := 0, 0, 0, 0;
      posted, taken, finished, seen, flight, owner := [], 0, [], 0, map[], seq(NUM, _ => -1);
    }

    /** The lowest free descriptor. */
    method AllocDesc() returns (i: int)
      requires |free| == NUM
      modifies this`free
      ensures -1 <= i < NUM && (i < 0 ==> free == old(free) && forall k :: 0 <= k < NUM ==> !free[k])
      ensures i >= 0 ==> old(free)[i] && free == old(free)[i := false] && forall k :: 0 <= k < i ==> !old(free)[k]
    {
      i := 0;
      while i < NUM
        invariant 0 <= i <= NUM && free == old(free) && forall k :: 0 <= k < i ==> !free[k]
      {
        if free[i] {
          free := free[i := false];
          return;
        }
        i := i + 1;
      }
      i := -1;
    }

    method FreeDesc(i: nat)
      requires |free| == NUM && |desc| == NUM && i < NUM && !free[i]
      modifies this`free, this`desc
      ensures free == old(free)[i := true] && desc == old(desc)[i := NoDesc]
    {
      desc, free := desc[i := NoDesc], free[i := true];
    }

    /** Three free descriptors; or, when there are fewer, none and nothing changed. */
    method Alloc3() returns (ok: bool, idx: seq<nat>)
      requires |free| == NUM && |desc| == NUM && forall i :: 0 <= i < NUM && free[i] ==> desc[i] == NoDesc
      modifies this`free, this`desc
      ensures desc == old(desc) && (ok <==> Count(old(free)) >= 3)
      ensures !ok ==> free == old(free)
      ensures ok ==> && |idx| == 3 && idx[0] < idx[1] < idx[2] < NUM
                     && old(free)[idx[0]] && old(free)[idx[1]] && old(free)[idx[2]]
                     && free == old(free)[idx[0] := false][idx[1] := false][idx[2] := false]
    {
      hide Without, Count;
      ghost var f := free;
      idx := [];
      WithoutNone(f);
      while |idx| < 3
        invariant desc == old(desc) && |free| == NUM && |idx| <= 3 && Picks(f, idx) && free == Without(f, idx)
        invariant forall k :: 0 <= k < NUM && free[k] && |idx| > 0 ==> idx[|idx| - 1] < k
        decreases 3 - |idx|
      {
        WithoutCount(f, idx);
        WithoutAt(f, idx);
        var i := AllocDesc();
        if i < 0 {
          assert Count(Without(f, idx)) == 0 by { NoneFree(Without(f, idx)); }
          var j := 0;
          while j < |idx|
            invariant 0 <= j <= |idx| && desc == old(desc) && free == Without(f, idx[j..])
          {
            WithoutAt(f, idx[j..]);
            FreeDesc(idx[j]);
            assert desc == old(desc);
            WithoutFirst(f, idx, j);
            j := j + 1;
          }
          assert idx[j..] == [];
          WithoutNone(f);
          return false, [];
        }
        WithoutMore(f, idx, i);
        idx := idx + [i];
      }
      WithoutCount(f, idx);
      WithoutThree(f, idx);
      ok := true;
    }

    /** platform_qemu_disk_rw up to its first sleep: for want of descriptors, with nothing changed,
        or for the completion of the request it has posted. */
    method Submit(req: Req) returns (ok: bool, head: nat)
      requires Inv(View())
      modifies this
      ensures Inv(View()) && (ok <==> Count(old(free)) >= 3)
      ensures !ok ==> View() == old(View())
      ensures ok ==>
        head !in old(flight) && head in flight && flight[head].req == req && flight == old(flight)[head := flight[head]]
      ensures ok ==> posted == old(posted) + [head]
    {
      hide Rings, Places, Count, Owners, Inv, Post;
      ghost var q := View();
      FreeIsBlank(q);
      var idx;
      ok, idx := Alloc3();
      if !ok { return false, 0; }
      head := idx[0];
      PostOk(q, idx[0], idx[1], idx[2], req);
      PostFacts(q, idx[0], idx[1], idx[2], req);
      SetUp(head, idx[1], idx[2], req, q);
    }

    method SetUp(h: nat, b: nat, c: nat, req: Req, ghost q: Queue)
      requires Shaped(q) && h < NUM && b < NUM && c < NUM
      requires View() == q.(free := q.free[h := false][b := false][c := false])
      modifies this`ops, this`desc, this`status, this`done, this`availRing, this`availIdx, this`flight, this`posted,
               this`owner
      ensures View() == Post(q, h, b, c, req)
    {
      hide Shaped;
      ShapedSizes(q);
      Describe(h, b, c, req);
      Publish(h);
      Record(h, b, c, req);
    }

    /** The history of a new request. */
    ghost method Record(h: nat, b: nat, c: nat, req: Req)
      requires |owner| == NUM && h < NUM && b < NUM && c < NUM
      modifies this`flight, this`posted, this`owner
      ensures flight == old(flight)[h := Flight(req, b, c, Posted, |old(posted)|, 0xff)] && posted == old(posted) + [h]
      ensures owner == old(owner)[h := h][b := h][c := h]
    {
      flight, posted := flight[h := Flight(req, b, c, Posted, |posted|, 0xff)], posted + [h];
      owner := owner[h := h][b := h][c := h];
    }

    /** The descriptors of a request and its header. */
    method Describe(h: nat, b: nat, c: nat, req: Req)
      requires |desc| == NUM && |ops| == NUM && |status| == NUM && |done| == NUM && h < NUM && b < NUM && c < NUM
      modifies this`ops, this`desc, this`status, this`done
      ensures ops == old(ops)[h := Hdr(req.write, req.sector)] && status == old(status)[h := 0xff]
        && done == old(done)[h := false]
      ensures desc == old(desc)[h := Desc(Header(h), true, false, b)][b := Desc(Buffer(req.buf), true, !req.write, c)]
                               [c := Desc(Status(h), false, true, 0)]
    {
      ops := ops[h := Hdr(req.write, req.sector)];
      desc := desc[h := Desc(Header(h), true, false, b)];
      desc := desc[b := Desc(Buffer(req.buf), true, !req.write, c)];
      status, done := status[h := 0xff], done[h := false];
      desc := desc[c := Desc(Status(h), false, true, 0)];
    }

    /** The head in the available ring, for the device to see. */
    method Publish(h: nat)
      requires |availRing| == NUM
      modifies this`availRing, this`availIdx
      ensures availRing == old(availRing)[old(availIdx) % NUM := h] && availIdx == (old(availIdx) + 1) % IDX
    {
      availRing := availRing[availIdx % NUM := h];
      availIdx := (availIdx + 1) % IDX;
    }

    /** platform_qemu_disk_intr: completions are credited to their requests up to the first with a bad status; it panics
        exactly when one that waits has a bad status. */
    method Interrupt() returns (panics: bool)
      requires Inv(View())
      modifies this
      ensures Inv(View()) && finished == old(finished) && flight.Keys == old(flight).Keys
      ensures old(seen) <= seen <= |finished| && (panics <==> seen < |finished|)
      ensures forall k :: old(seen) <= k < seen ==> Gave(old(View()), k, 0)
      ensures panics ==> !Gave(old(View()), seen, 0)
      ensures panics <==> exists k :: old(seen) <= k < |finished| && !Gave(old(View()), k, 0)
      ensures forall h :: h in flight ==> flight[h] == Credited(old(flight)[h], seen)
    {
      hide Owners, Rings, Places, Inv;
      ghost var q0 := View();
      panics := false;
      AllCredited(q0);
      while seenIdx != usedIdx
        invariant Inv(View()) && flight.Keys == q0.flight.Keys && finished == q0.finished
        invariant q0.seen <= seen <= |finished|
        invariant forall k :: q0.seen <= k < seen ==> Gave(q0, k, 0)
        invariant forall h :: h in flight ==> flight[h] == Credited(q0.flight[h], seen)
        decreases |finished| - seen
      {
        ghost var q := View();
        NextOk(q);
        var id := usedRing[seenIdx % NUM];
        if status[id] != 0 { return true; }
        SeeOk(q);
        CreditOnly(q, q0);
        Credit();
      }
      AllSeen(View());
    }

    /** One round of the handler. */
    method Credit()
      requires Shaped(View()) && usedRing[seenIdx % NUM] < NUM && usedRing[seenIdx % NUM] in flight
      requires status[usedRing[seenIdx % NUM]] == 0
      modifies this`done, this`seenIdx, this`seen, this`flight
      ensures View() == See(old(View()))
    {
      var id := usedRing[seenIdx % NUM];
      done, seenIdx := done[id := true], (seenIdx + 1) % IDX;
      flight, seen := flight[id := flight[id].(phase := Over)], seen + 1;
    }

    method FreeChain(h: nat)
      requires Inv(View()) && h in flight && flight[h].phase.Over?
      modifies this
      ensures Inv(View()) && flight == old(flight) - {h} && status == old(status)
      ensures Chain(old(flight), h) !! (set i | 0 <= i < NUM && !free[i])
    {
      hide Owners, Rings, Places, Inv;
      ghost var q, f := View(), flight[h];
      ChainFacts(q, h);
      FinishOk(q, h);
      var i := h;
      ghost var n := 0;
      while true
        invariant 0 <= n <= 2 && |free| == NUM && |desc| == NUM
        invariant i == if n == 0 then h else if n == 1 then f.b else f.c
        invariant n == 0 ==> free == q.free && desc == q.desc
        invariant n == 1 ==> free == q.free[h := true] && desc == q.desc[h := NoDesc]
        invariant n == 2 ==> free == q.free[h := true][f.b := true] && desc == q.desc[h := NoDesc][f.b := NoDesc]
        invariant View() == q.(free := free, desc := desc)
        decreases 2 - n
      {
        var more, next := desc[i].more, desc[i].next;
        FreeDesc(i);
        if more {
          i := next;
          n := n + 1;
        } else {
          break;
        }
      }
      flight := flight - {h};
      owner := owner[h := -1][f.b := -1][f.c := -1];
      assert View() == Finish(q, h);
    }

    /** The rest of platform_qemu_disk_rw under the lock, once it sees its request done; the status is not bad. */
    method Reclaim(h: nat) returns (ok: bool)
      requires Inv(View()) && h in flight && h < NUM
      modifies this
      ensures Inv(View()) && (ok <==> old(flight)[h].phase.Over?)
      ensures ok ==> flight == old(flight) - {h} && status[h] == 0
      ensures !ok ==> View() == old(View())
    {
      hide Owners, Rings;
      assert PhaseOk(View(), h);
      ok := done[h];
      if ok { FreeChain(h); }
    }

    /** The check of disk_rw after it has released the lock, at any time from then on: the head may have been reused. */
    method LateCheck(h: nat) returns (panics: bool)
      requires Inv(View()) && h < NUM
      ensures panics <==> h in flight && flight[h].result != 0
    {
      hide Owners, Rings, Places;
      LateStatus(View(), h);
      panics := status[h] != 0;
    }

    /** The device takes a request; what it reads is what was asked for. */
    method DeviceTake() returns (h: nat, req: Req)
      requires Inv(View()) && devIdx != availIdx
      modifies this
      ensures Inv(View()) && h in old(flight) && old(flight)[h].phase.Posted? && req == old(flight)[h].req
      ensures flight == old(flight)[h := old(flight)[h].(phase := Taken)] && taken == old(taken) + 1
        && h == posted[old(taken)]
    {
      hide Owners, Rings, Places;
      ghost var q := View();
      TakeOk(q);
      h := availRing[devIdx % NUM];
      ParseOk(q, h);
      ChainFacts(q, h);
      req := Req(ops[desc[h].addr.i].sector, desc[desc[h].next].addr.b, ops[desc[h].addr.i].write);
      devIdx := (devIdx + 1) % IDX;
      taken, flight := taken + 1, flight[h := flight[h].(phase := Taken)];
      assert View() == Take(q);
    }

    /** The device completes any request that it has, with any status. */
    method DeviceComplete(h: nat, result: nat)
      requires Inv(View()) && h in flight && flight[h].phase.Taken? && h < NUM
      modifies this
      ensures Inv(View()) && finished == old(finished) + [h]
      ensures flight == old(flight)[h := old(flight)[h].(phase := Used, at := |old(finished)|, result := result)]
    {
      hide Owners, Rings, Places;
      ghost var q := View();
      CompleteOk(q, h, result);
      status := status[h := result];
      usedRing := usedRing[usedIdx % NUM := h];
      usedIdx := (usedIdx + 1) % IDX;
      flight := flight[h := flight[h].(phase := Used, at := |finished|, result := result)];
      finished := finished + [h];
      assert View() == Complete(q, h, result);
    }
  }

  /** `f` with the entries `idx` cleared. */
  ghost function Without(f: seq<bool>, idx: seq<nat>): (r: seq<bool>) {
    seq(|f|, i requires 0 <= i < |f| => f[i] && i !in idx)
  }

  ghost function Count(f: seq<bool>): (n: nat) {
    |set i | 0 <= i < |f| && f[i]|
  }

  lemma FreeIsBlank(q: Queue)
    requires Inv(q)
    ensures Shaped(q) && forall i :: 0 <= i < NUM && q.free[i] ==> q.desc[i] == NoDesc
  {
    forall i | 0 <= i < NUM && q.free[i]
      ensures q.desc[i] == NoDesc
    {
      assert DescOk(q, i);
    }
  }

  lemma ShapedSizes(q: Queue)
    requires Shaped(q)
    ensures |q.free| == NUM && |q.desc| == NUM && |q.ops| == NUM && |q.status| == NUM && |q.done| == NUM
    ensures |q.availRing| == NUM && |q.owner| == NUM
  {
  }

  lemma PostFacts(q: Queue, h: nat, b: nat, c: nat, req: Req)
    requires Shaped(q) && h < NUM && b < NUM && c < NUM
    ensures var r := Post(q, h, b, c, req);
            r.flight == q.flight[h := r.flight[h]] && r.flight[h].req == req && r.posted == q.posted + [h]
  {
  }

  lemma ChainFacts(q: Queue, h: nat)
    requires Inv(q) && h in q.flight
    ensures Shaped(q) && ChainOk(q, h) && !q.free[h] && !q.free[q.flight[h].b] && !q.free[q.flight[h].c]
  {
    assert ChainOk(q, h) && DescOk(q, h) && DescOk(q, q.flight[h].b) && DescOk(q, q.flight[h].c);
  }

  /** The device gave the `k`-th request to finish status `result`. */
  ghost predicate Gave(q: Queue, k: nat, result: nat) {
    k < |q.finished| && q.finished[k] in q.flight && q.flight[q.finished[k]].result == result
  }

  /** A request after the handler has come as far as place `n` of the used ring. */
  ghost function Credited(f: Flight, n: nat): (r: Flight) {
    if f.phase.Used? && f.at < n then f.(phase := Over) else f
  }

  lemma AllCredited(q: Queue)
    requires Inv(q)
    ensures q.seen <= |q.finished| && forall h :: h in q.flight ==> q.flight[h] == Credited(q.flight[h], q.seen)
  {
    hide Owners;
    forall h | h in q.flight
      ensures q.flight[h] == Credited(q.flight[h], q.seen)
    {
      assert PhaseOk(q, h);
    }
  }

  /** One round credits the request at the next place and no other. */
  lemma CreditOnly(q: Queue, q0: Queue)
    requires Shaped(q) && Inv(q) && q.seenIdx != q.usedIdx && !Bad(q)
    requires q.finished == q0.finished && q.flight.Keys == q0.flight.Keys
    requires forall h :: h in q.flight ==> q.flight[h] == Credited(q0.flight[h], q.seen)
    ensures Gave(q0, q.seen, 0)
    ensures forall h :: h in q.flight ==> h in See(q).flight && See(q).flight[h] == Credited(q0.flight[h], q.seen + 1)
  {
    hide Owners, Rings;
    NextOk(q);
    forall h | h in q.flight
      ensures h in See(q).flight && See(q).flight[h] == Credited(q0.flight[h], q.seen + 1)
    {
      assert PhaseOk(q, h);
    }
  }

  lemma AllSeen(q: Queue)
    requires Inv(q) && q.seenIdx == q.usedIdx
    ensures q.seen == |q.finished| && forall h :: h in q.flight ==> !q.flight[h].phase.Used?
  {
    hide Owners;
    if q.seen < |q.finished| {
      assert PlacedAt(q, q.finished[q.seen], Used, q.seen);
      UsedWindow(q);
      Apart(q.seen, |q.finished|);
      assert false;
    }
    forall h | h in q.flight
      ensures !q.flight[h].phase.Used?
    {
      assert PhaseOk(q, h);
    }
  }

  /** At most NUM completions wait to be seen. */
  lemma UsedWindow(q: Queue)
    requires Inv(q)
    ensures |q.finished| <= q.seen + NUM
  {
    hide Owners;
    if |q.finished| > q.seen + NUM {
      forall k | q.seen < k < |q.finished|
        ensures q.finished[k] < NUM && q.finished[k] != q.finished[q.seen] && q.flight[q.finished[k]].at == k
      {
        assert PlacedAt(q, q.finished[q.seen], Used, q.seen) && PlacedAt(q, q.finished[k], Used, k);
        assert PhaseOk(q, q.finished[k]);
      }
      assert PlacedAt(q, q.finished[q.seen], Used, q.seen);
      assert PhaseOk(q, q.finished[q.seen]);
      RoomFor(q.finished, q.seen + 1, q.finished[q.seen]);
      assert false;
    }
  }

  ghost predicate Picks(f: seq<bool>, idx: seq<nat>) {
    && |f| == NUM && (forall j :: 0 <= j < |idx| ==> idx[j] < NUM && f[idx[j]])
    && (forall j, k :: 0 <= j < k < |idx| ==> idx[j] < idx[k])
  }

  lemma WithoutNone(f: seq<bool>)
    ensures Without(f, []) == f
  {
  }

  lemma WithoutAt(f: seq<bool>, idx: seq<nat>)
    ensures |Without(f, idx)| == |f| && forall i :: 0 <= i < |f| ==> Without(f, idx)[i] == (f[i] && i !in idx)
  {
  }

  lemma WithoutMore(f: seq<bool>, idx: seq<nat>, i: nat)
    requires i < |f|
    ensures |Without(f, idx)| == |f| && Without(f, idx)[i := false] == Without(f, idx + [i])
  {
  }

  lemma WithoutFirst(f: seq<bool>, idx: seq<nat>, j: nat)
    requires Picks(f, idx) && j < |idx|
    ensures |Without(f, idx[j..])| == |f| && Without(f, idx[j..])[idx[j] := true] == Without(f, idx[j + 1..])
  {
    assert idx[j..] == [idx[j]] + idx[j + 1..];
    assert idx[j] !in idx[j + 1..];
  }

  lemma WithoutThree(f: seq<bool>, idx: seq<nat>)
    requires Picks(f, idx) && |idx| == 3
    ensures Without(f, idx) == f[idx[0] := false][idx[1] := false][idx[2] := false]
  {
    assert idx == [idx[0], idx[1], idx[2]];
  }

  lemma NoneFree(f: seq<bool>)
    requires forall k :: 0 <= k < |f| ==> !f[k]
    ensures Count(f) == 0
  {
    assert (set i | 0 <= i < |f| && f[i]) == {};
  }

  lemma {:induction false} WithoutCount(f: seq<bool>, idx: seq<nat>)
    requires Picks(f, idx)
    ensures Count(Without(f, idx)) + |idx| == Count(f)
  {
    if idx == [] {
      WithoutNone(f);
    } else {
      var n := |idx| - 1;
      WithoutCount(f, idx[..n]);
      var a, b := Without(f, idx[..n]), Without(f, idx);
      assert (set i | 0 <= i < |a| && a[i]) == (set i | 0 <= i < |b| && b[i]) + {idx[n]};
    }
  }
}
