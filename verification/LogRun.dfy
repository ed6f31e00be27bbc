/** Every run of the block cache and the log refines a flat block map with snapshots. A commit is one step for
    each of its disk writes, so that readers outside the transaction come in between. */
module LogRun {
  import opened Params
  import opened BufferCache
  import opened RedoLog
  import opened Transaction

  /** Cache, in-memory header, and how many writes of a commit have been made; 0 when there is none. */
  datatype State = State(c: Cache, lh: seq<nat>, stage: nat)

  /** The specification: one flat map of current contents, the snapshot a crash must yield after each disk write
      so far, the buffers their holders are still changing, and the disk when the commit at hand began. */
  datatype Spec = Spec(current: Disk, saved: seq<Disk>, dirty: set<int>, base: Disk)

  datatype Op =
    | Bread(b: nat)
    | Modify(i: int, data: Block)
    | LogWrite(i: int)
    | Brelse(i: int)
    | CommitWrite

  /** The transaction block that the next write of commit copies, if it copies one. */
  function Copies(h: seq<nat>, t: nat): (q: seq<nat>)
    ensures |q| <= 1
  {
    if t < |h| then [h[t]] else if |h| < t <= 2 * |h| then [h[t - |h| - 1]] else []
  }

  /** What the callers of bio.c and log.c have to respect, and where a call would sleep or panic. While a commit is
      under way no transaction is open, so nothing is changed or logged. */
  ghost predicate Enabled(g: Geometry, s: State, a: Spec, op: Op)
    requires s.c.Shaped()
  {
    match op
    case Bread(b) => g.Home(b) && Unheld(s.c, b) && (HasFree(s.c) || Cached(s.c, b))
    case Modify(i, _) => 0 <= i < NBUF && s.c.bufs[i].locked && s.stage == 0
    case LogWrite(i) => 0 <= i < NBUF && s.c.bufs[i].locked && s.stage == 0 && |s.lh| < g.Capacity()
    case Brelse(i) => 0 <= i < NBUF && s.c.bufs[i].locked && i !in a.dirty
    case CommitWrite =>
      s.lh != [] && a.dirty == {} && HasFree(s.c) && forall b :: b in Copies(s.lh, s.stage) ==> Unheld(s.c, b)
  }

  /** The next write of commit: a block to the log, the header, a block to its home, or the header cleared. */
  function CommitCache(g: Geometry, c: Cache, h: seq<nat>, t: nat): (r: Cache)
    requires c.Shaped() && |h| < WORDS
    ensures r.Shaped()
  {
    if t < |h| then CopyToLog(g, c, h, t)
    else if t == |h| then WriteHead(g, c, h)
    else if t <= 2 * |h| then CopyHome(g, c, h, t - |h| - 1, false)
    else WriteHead(g, c, [])
  }

  function Next(g: Geometry, s: State, op: Op): (r: State)
    requires s.c.Shaped()
    ensures r.c.Shaped()
  {
    match op
    case Bread(b) => s.(c := Read(s.c, ROOTDEV, b))
    case Modify(i, data) => if 0 <= i < NBUF then s.(c := Fill(s.c, i, data)) else s
    case LogWrite(i) =>
      if 0 <= i < NBUF then
        var r := LogWriteStep(Sys(s.c, s.lh), i);
        State(r.c, r.lh, s.stage)
      else s
    case Brelse(i) => if 0 <= i < NBUF then s.(c := Release(s.c, i)) else s
    case CommitWrite =>
      if |s.lh| >= WORDS then s
      else if s.stage <= 2 * |s.lh| then State(CommitCache(g, s.c, s.lh, s.stage), s.lh, s.stage + 1)
      else State(CommitCache(g, s.c, s.lh, s.stage), [], 0)
  }

  /** The specification knows nothing of buffers beyond the data that log_write publishes, and of a commit only
      that its header write makes the current contents the snapshot. */
  ghost function NextSpec(g: Geometry, s: State, a: Spec, op: Op): (r: Spec)
    requires s.c.Shaped()
  {
    match op
    case Bread(_) => a
    case Modify(i, _) => a.(dirty := a.dirty + {i})
    case LogWrite(i) =>
      if 0 <= i < NBUF && s.c.bufs[i].blockno < |a.current|
      then a.(current := a.current[s.c.bufs[i].blockno := s.c.bufs[i].data], dirty := a.dirty - {i})
      else a
    case Brelse(_) => a
    case CommitWrite =>
      if a.saved == [] then a
      else a.(saved := a.saved + [if s.stage < |s.lh| then a.saved[|a.saved| - 1] else a.current],
              base := if s.stage == 0 then s.c.Disk() else a.base)
  }

  /** Recovery from `d` yields the home blocks of `snapshot`. */
  ghost predicate Restores(g: Geometry, d: Disk, snapshot: Disk) {
    WellFormed(g, d) && SameHomes(g, Recovered(g, d), snapshot)
  }

  /** Every disk state so far recovers to its snapshot. */
  ghost predicate Durable(g: Geometry, hist: seq<Disk>, saved: seq<Disk>) {
    |saved| == |hist| && forall t :: 0 <= t < |hist| ==> Restores(g, hist[t], saved[t])
  }

  // ---- what holds while a commit is under way ----

  /** The contents that readers must see after `t` writes of a commit that began with `l`. */
  ghost function During(g: Geometry, l: Disk, h: seq<nat>, t: nat): (r: Disk)
    requires Fits(g, l) && DistinctHomes(g, h)
    ensures |r| == |l| && SameHomes(g, r, l)
  {
    if t <= |h| then Logged(g, l, l, h, t) else CommitPoint(g, l, l, h)
  }

  /** The blocks still pinned then. */
  ghost function PinsAt(h: seq<nat>, t: nat): (s: set<nat>)
    requires t <= 2 * |h| + 1
  {
    if t <= |h| then Blocks(h) else Blocks(h[t - |h| - 1..])
  }

  ghost predicate OnlyHomes(g: Geometry, c: Cache)
    requires c.Shaped()
  {
    forall i :: 0 <= i < NBUF && c.bufs[i].locked ==> g.Home(c.bufs[i].blockno)
  }

  /** A commit of the blocks `h` began on disk `base`, where all else was as in `l`. */
  ghost predicate Began(g: Geometry, base: Disk, l: Disk, h: seq<nat>) {
    && Fits(g, base) && |l| == g.blocks && DistinctHomes(g, h) && h != [] && base[g.start][0] == 0
    && forall b :: 0 <= b < g.blocks && b !in h ==> base[b] == l[b]
  }

  /** After `t` of its writes. */
  ghost predicate Committing(g: Geometry, c: Cache, base: Disk, l: Disk, h: seq<nat>, t: nat) {
    && Began(g, base, l, h) && t <= 2 * |h| + 1 && c.Shaped() && OnlyHomes(g, c)
    && c.Disk() == CommitState(g, base, l, h, t) && Coherent(c, During(g, l, h, t), PinsAt(h, t), {})
  }

  lemma QuietAt(g: Geometry, c: Cache, logical: Disk, pins: set<nat>, q: seq<nat>)
    requires c.Shaped() && OnlyHomes(g, c) && Coherent(c, logical, pins, {}) && HasFree(c)
    requires forall b :: b in q ==> Unheld(c, b)
    ensures Ready(g, c, q, logical, pins)
  {
  }

  lemma QuietHomes(g: Geometry, c: Cache, logical: Disk, pins: set<nat>, q: seq<nat>)
    requires c.Shaped() && Ready(g, c, q, logical, pins)
    ensures OnlyHomes(g, c) && Coherent(c, logical, pins, {}) && HasFree(c)
  {
  }

  /** A block reaches the log. */
  lemma LogsBlock(g: Geometry, c: Cache, base: Disk, l: Disk, h: seq<nat>, t: nat)
    requires Committing(g, c, base, l, h, t) && t < |h| && HasFree(c) && Unheld(c, h[t])
    ensures var r := CopyToLog(g, c, h, t);
            Committing(g, r, base, l, h, t + 1) && HasFree(r) && r.hist == c.hist + [r.Disk()]
  {
    hide Coherent, CopyToLog, Ready, OnlyHomes, HasFree, Blocks;
    var q := [h[t]];
    QuietAt(g, c, During(g, l, h, t), Blocks(h), q);
    CopyToLogOk(g, c, h, t, During(g, l, h, t), q);
    var r := CopyToLog(g, c, h, t);
    QuietHomes(g, r, During(g, l, h, t + 1), Blocks(h), q);
  }

  /** The header: the commit point. */
  lemma WritesHeader(g: Geometry, c: Cache, base: Disk, l: Disk, h: seq<nat>)
    requires Committing(g, c, base, l, h, |h|) && HasFree(c)
    ensures var r := WriteHead(g, c, h);
            Committing(g, r, base, l, h, |h| + 1) && HasFree(r) && r.hist == c.hist + [r.Disk()]
  {
    hide Coherent, WriteHead, Ready, OnlyHomes, HasFree, PutHeader;
    QuietAt(g, c, During(g, l, h, |h|), Blocks(h), []);
    WriteHeadOk(g, c, [], h, During(g, l, h, |h|), Blocks(h));
    var r := WriteHead(g, c, h);
    QuietHomes(g, r, During(g, l, h, |h| + 1), Blocks(h), []);
    assert h[0..] == h;
  }

  /** A block reaches its home. */
  lemma InstallsBlock(g: Geometry, c: Cache, base: Disk, l: Disk, h: seq<nat>, t: nat)
    requires |h| < t <= 2 * |h| && Committing(g, c, base, l, h, t) && HasFree(c) && Unheld(c, h[t - |h| - 1])
    ensures var r := CopyHome(g, c, h, t - |h| - 1, false);
            Committing(g, r, base, l, h, t + 1) && HasFree(r) && r.hist == c.hist + [r.Disk()]
  {
    hide Coherent, CopyHome, Ready, OnlyHomes, HasFree, Blocks, CommitPoint, Replay;
    var k := t - |h| - 1;
    var q, now := [h[k]], During(g, l, h, t);
    assert PinsAt(h, t) == Blocks(h[k..]) && PinsAt(h, t + 1) == Blocks(h[k + 1..]);
    hide During, PinsAt;
    assert |now| == |l| == g.blocks;
    QuietAt(g, c, now, Blocks(h[k..]), q);
    CopyHomeOk(g, c, h, k, now, q);
    var r := CopyHome(g, c, h, k, false);
    QuietHomes(g, r, now, Blocks(h[k + 1..]), q);
    ReplayNext(g, base, l, h, k);
  }

  lemma ReplayNext(g: Geometry, base: Disk, l: Disk, h: seq<nat>, k: nat)
    requires Fits(g, base) && |l| == g.blocks && DistinctHomes(g, h) && k < |h|
    ensures var f := CommitPoint(g, base, l, h);
            |Replay(g, f, h, k)| == g.blocks && Replay(g, f, h, k + 1) == Replay(g, f, h, k)[h[k] := l[h[k]]]
  {
    hide CommitPoint;
    var f := CommitPoint(g, base, l, h);
    ReplayAt(g, f, h, k);
    assert f[LogBlock(g, k)] == l[h[k]];
  }

  /** The header is cleared, and the cache is as between commits. */
  lemma ClearsHeader(g: Geometry, c: Cache, base: Disk, l: Disk, h: seq<nat>, current: Disk)
    requires Committing(g, c, base, l, h, 2 * |h| + 1) && HasFree(c)
    requires |current| == g.blocks && SameHomes(g, l, current)
    ensures var r := WriteHead(g, c, []); var d := CommitState(g, base, l, h, 2 * |h| + 2);
            && r.hist == c.hist + [d] && |d| == g.blocks && d[g.start][0] == 0 && HasFree(r) && OnlyHomes(g, r)
            && Coherent(r, Overlay(g, d, current), {}, {})
  {
    hide Coherent, WriteHead, Ready, OnlyHomes, HasFree, CommitPoint, Replay;
    assert h[|h|..] == [] && Blocks([]) == {};
    var now := During(g, l, h, 2 * |h| + 1);
    QuietAt(g, c, now, {}, []);
    WriteHeadOk(g, c, [], [], now, {});
    var r := WriteHead(g, c, []);
    var d := r.Disk();
    QuietHomes(g, r, now[g.start := PutHeader(now[g.start], [])], {}, []);
    ReadyDisk(g, c, [], now, {});
    assert d == CommitState(g, base, l, h, 2 * |h| + 2);
    assert now[g.start := PutHeader(now[g.start], [])] == Overlay(g, d, current);
  }

  // ---- the invariant ----

  /** Between commits, or in one; while a commit has not reached its header write a crash still yields what it
      yielded before. */
  ghost predicate Inv(g: Geometry, s: State, a: Spec) {
    && g.Ok() && s.c.Shaped() && |s.c.Disk()| == |a.current| == g.blocks && OnlyHomes(g, s.c) && DistinctHomes(g, s.lh)
    && Durable(g, s.c.hist, a.saved)
    && (s.stage == 0 ==> Idle(g, s, a))
    && (s.stage > 0 ==> UnderWay(g, s, a))
  }

  ghost predicate Idle(g: Geometry, s: State, a: Spec)
    requires s.c.Shaped() && |s.c.Disk()| == |a.current| == g.blocks && g.Ok()
  {
    s.c.Disk()[g.start][0] == 0 && Coherent(s.c, Overlay(g, s.c.Disk(), a.current), Blocks(s.lh), a.dirty)
  }

  ghost predicate UnderWay(g: Geometry, s: State, a: Spec)
    requires |a.current| == g.blocks && g.Ok()
  {
    && |a.base| == g.blocks && a.dirty == {} && a.saved != []
    && Committing(g, s.c, a.base, Overlay(g, a.base, a.current), s.lh, s.stage)
    && (s.stage <= |s.lh| ==> Restores(g, a.base, a.saved[|a.saved| - 1]))
  }

  /** What a reader must see, whatever the stage: in the home blocks, the current contents. */
  lemma Visible(g: Geometry, s: State, a: Spec) returns (logical: Disk, pins: set<nat>)
    requires Inv(g, s, a)
    ensures Coherent(s.c, logical, pins, a.dirty) && |logical| == g.blocks && SameHomes(g, logical, a.current)
    ensures s.stage == 0 ==> logical == Overlay(g, s.c.Disk(), a.current) && pins == Blocks(s.lh)
    ensures s.stage > 0 ==> s.stage <= 2 * |s.lh| + 1 && |a.base| == g.blocks
    ensures s.stage > 0 ==>
      logical == During(g, Overlay(g, a.base, a.current), s.lh, s.stage) && pins == PinsAt(s.lh, s.stage)
  {
    hide Coherent, Durable, CommitState, Restores;
    if s.stage == 0 {
      logical, pins := Overlay(g, s.c.Disk(), a.current), Blocks(s.lh);
    } else {
      logical, pins := During(g, Overlay(g, a.base, a.current), s.lh, s.stage), PinsAt(s.lh, s.stage);
    }
  }

  /** A step that leaves disk, header and stage alone keeps the invariant if it keeps the cache coherent. */
  lemma SameStage(g: Geometry, s: State, a: Spec, c: Cache, logical: Disk, pins: set<nat>)
    requires Inv(g, s, a) && c.Shaped() && c.hist == s.c.hist && OnlyHomes(g, c)
    requires s.stage == 0 ==> logical == Overlay(g, s.c.Disk(), a.current) && pins == Blocks(s.lh)
    requires s.stage > 0 ==> s.stage <= 2 * |s.lh| + 1 && |a.base| == g.blocks
    requires s.stage > 0 ==>
      logical == During(g, Overlay(g, a.base, a.current), s.lh, s.stage) && pins == PinsAt(s.lh, s.stage)
    requires Coherent(c, logical, pins, a.dirty)
    ensures Inv(g, s.(c := c), a)
  {
    hide Coherent, Durable, CommitState, Restores, OnlyHomes, During, PinsAt;
  }

  /** bread returns the current contents, also between two writes of a commit. */
  lemma BreadStep(g: Geometry, s: State, a: Spec, b: nat)
    requires Inv(g, s, a) && Enabled(g, s, a, Bread(b))
    ensures Inv(g, Next(g, s, Bread(b)), NextSpec(g, s, a, Bread(b)))
    ensures var i := Slot(s.c, ROOTDEV, b); var r := Next(g, s, Bread(b)).c;
            0 <= i < NBUF && Holds(r.bufs[i], ROOTDEV, b) && r.bufs[i].data == a.current[b]
  {
    hide Coherent, Read, Durable, Inv;
    InvFacts(g, s, a);
    var logical, pins := Visible(g, s, a);
    ReadOk(s.c, logical, pins, a.dirty, b);
    SameStage(g, s, a, Read(s.c, ROOTDEV, b), logical, pins);
  }

  lemma InvFacts(g: Geometry, s: State, a: Spec)
    requires Inv(g, s, a)
    ensures s.c.Shaped() && |s.c.Disk()| == |a.current| == g.blocks && OnlyHomes(g, s.c) && DistinctHomes(g, s.lh)
    ensures g.Ok() && Durable(g, s.c.hist, a.saved)
  {
    hide Coherent, Durable, Committing;
  }

  lemma BrelseStep(g: Geometry, s: State, a: Spec, i: int)
    requires Inv(g, s, a) && Enabled(g, s, a, Brelse(i))
    ensures Inv(g, Next(g, s, Brelse(i)), NextSpec(g, s, a, Brelse(i)))
  {
    hide Coherent, Release, Durable, Inv;
    InvFacts(g, s, a);
    var logical, pins := Visible(g, s, a);
    ReleaseOk(s.c, logical, pins, a.dirty, i);
    SameStage(g, s, a, Release(s.c, i), logical, pins);
  }

  lemma ModifyStep(g: Geometry, s: State, a: Spec, i: int, data: Block)
    requires Inv(g, s, a) && Enabled(g, s, a, Modify(i, data))
    ensures Inv(g, Next(g, s, Modify(i, data)), NextSpec(g, s, a, Modify(i, data)))
  {
    hide Coherent, Durable, Committing;
    FillOk(s.c, Overlay(g, s.c.Disk(), a.current), Blocks(s.lh), a.dirty, i, data);
  }

  lemma LogWriteStepOk(g: Geometry, s: State, a: Spec, i: int)
    requires Inv(g, s, a) && Enabled(g, s, a, LogWrite(i))
    ensures Inv(g, Next(g, s, LogWrite(i)), NextSpec(g, s, a, LogWrite(i)))
  {
    hide Coherent, Durable, Committing;
    var d, b := s.c.Disk(), s.c.bufs[i].blockno;
    LogWriteOk(s.c, Overlay(g, d, a.current), Blocks(s.lh), a.dirty, i);
    var r := Next(g, s, LogWrite(i));
    assert b in Blocks(s.lh) <==> b in s.lh;
    assert Blocks(r.lh) == Blocks(s.lh) + {b} by {
      if b !in s.lh {
        assert r.lh[|s.lh|] == b;
        assert forall k :: 0 <= k < |s.lh| ==> r.lh[k] == s.lh[k];
      }
    }
    assert Overlay(g, d, a.current)[b := s.c.bufs[i].data] == Overlay(g, d, a.current[b := s.c.bufs[i].data]);
  }

  // ---- one write of a commit ----

  /** Before its first write a commit is under way as well, from the disk as it is. */
  lemma Begins(g: Geometry, s: State, a: Spec)
    requires Inv(g, s, a) && s.stage == 0 && s.lh != [] && a.dirty == {}
    ensures a.saved != [] && Restores(g, s.c.Disk(), a.saved[|a.saved| - 1])
    ensures Committing(g, s.c, s.c.Disk(), Overlay(g, s.c.Disk(), a.current), s.lh, 0)
  {
    hide Restores;
    var d := s.c.Disk();
    assert forall b :: b !in s.lh ==> b !in Blocks(s.lh);
    assert s.c.hist[|s.c.hist| - 1] == d;
  }

  lemma CommitStateRestores(g: Geometry, d: Disk, l: Disk, h: seq<nat>, t: nat, was: Disk, now: Disk)
    requires Began(g, d, l, h) && t <= 2 * |h| + 2 && SameHomes(g, l, now)
    requires t <= |h| ==> Restores(g, d, was)
    ensures Restores(g, CommitState(g, d, l, h, t), if t <= |h| then was else now)
  {
    CommitStateRecovers(g, d, l, h, t);
    RecoverEmpty(g, d);
  }

  lemma DurableNext(g: Geometry, hist: seq<Disk>, saved: seq<Disk>, d: Disk, snapshot: Disk)
    requires Durable(g, hist, saved) && Restores(g, d, snapshot)
    ensures Durable(g, hist + [d], saved + [snapshot])
  {
    hide Restores;
  }

  /** One write, from stage `t` on. */
  lemma WriteOnce(g: Geometry, c: Cache, base: Disk, l: Disk, h: seq<nat>, t: nat)
    requires Committing(g, c, base, l, h, t) && t <= 2 * |h| && HasFree(c)
    requires forall b :: b in Copies(h, t) ==> Unheld(c, b)
    ensures |h| < WORDS
    ensures var r := CommitCache(g, c, h, t);
            Committing(g, r, base, l, h, t + 1) && HasFree(r) && r.hist == c.hist + [r.Disk()]
  {
    hide Committing, CopyToLog, CopyHome, WriteHead, HasFree;
    CommitStage(g, c, base, l, h, t);
    if t < |h| {
      assert h[t] in Copies(h, t);
      LogsBlock(g, c, base, l, h, t);
    } else if t == |h| {
      WritesHeader(g, c, base, l, h);
    } else {
      assert h[t - |h| - 1] in Copies(h, t);
      InstallsBlock(g, c, base, l, h, t);
    }
  }

  /** What the commit at hand, or the one about to begin, started from. */
  ghost function Base(s: State, a: Spec): (d: Disk)
    requires s.c.Shaped()
  {
    if s.stage == 0 then s.c.Disk() else a.base
  }

  lemma CommitFacts(g: Geometry, s: State, a: Spec)
    requires Inv(g, s, a) && Enabled(g, s, a, CommitWrite)
    ensures |Base(s, a)| == |a.current| == g.blocks && a.saved != [] && Durable(g, s.c.hist, a.saved)
    ensures Committing(g, s.c, Base(s, a), Overlay(g, Base(s, a), a.current), s.lh, s.stage)
    ensures s.stage <= |s.lh| ==> Restores(g, Base(s, a), a.saved[|a.saved| - 1])
  {
    if s.stage == 0 { Begins(g, s, a); }
  }

  /** The history and its snapshots after the next write. */
  lemma WriteIsDurable(g: Geometry, s: State, a: Spec)
    requires Inv(g, s, a) && Enabled(g, s, a, CommitWrite)
    ensures |Base(s, a)| == |a.current| == g.blocks
    ensures var l := Overlay(g, Base(s, a), a.current); var t := s.stage;
            && Began(g, Base(s, a), l, s.lh) && t <= 2 * |s.lh| + 1
            && Durable(g, s.c.hist + [CommitState(g, Base(s, a), l, s.lh, t + 1)], NextSpec(g, s, a, CommitWrite).saved)
  {
    hide Inv, Durable, Restores, Committing, CommitState, Overlay, Began;
    CommitFacts(g, s, a);
    var l, t, was := Overlay(g, Base(s, a), a.current), s.stage, a.saved[|a.saved| - 1];
    CommitStage(g, s.c, Base(s, a), l, s.lh, t);
    CommitStateRestores(g, Base(s, a), l, s.lh, t + 1, was, a.current);
    var d := CommitState(g, Base(s, a), l, s.lh, t + 1);
    DurableNext(g, s.c.hist, a.saved, d, if t + 1 <= |s.lh| then was else a.current);
  }

  /** A write after which the commit goes on. */
  lemma MiddleWrite(g: Geometry, s: State, a: Spec)
    requires Inv(g, s, a) && Enabled(g, s, a, CommitWrite) && s.stage <= 2 * |s.lh|
    ensures Inv(g, Next(g, s, CommitWrite), NextSpec(g, s, a, CommitWrite))
    ensures HasFree(Next(g, s, CommitWrite).c)
  {
    hide Coherent, Durable, Committing, CommitCache, Restores, OnlyHomes, HasFree, Overlay, Inv, CommitState, Began;
    InvFacts(g, s, a);
    CommitFacts(g, s, a);
    WriteIsDurable(g, s, a);
    var base := Base(s, a);
    var l, t := Overlay(g, base, a.current), s.stage;
    WriteOnce(g, s.c, base, l, s.lh, t);
    NextStage(g, CommitCache(g, s.c, s.lh, t), base, l, s.lh, t + 1);
    InvUnderWay(g, Next(g, s, CommitWrite), NextSpec(g, s, a, CommitWrite));
  }

  lemma InvUnderWay(g: Geometry, s: State, a: Spec)
    requires g.Ok() && s.c.Shaped() && |s.c.Disk()| == |a.current| == g.blocks && OnlyHomes(g, s.c)
    requires DistinctHomes(g, s.lh) && Durable(g, s.c.hist, a.saved) && s.stage > 0 && UnderWay(g, s, a)
    ensures Inv(g, s, a)
  {
  }

  /** The last one. */
  lemma LastWrite(g: Geometry, s: State, a: Spec)
    requires Inv(g, s, a) && Enabled(g, s, a, CommitWrite) && s.stage > 2 * |s.lh|
    ensures Inv(g, Next(g, s, CommitWrite), NextSpec(g, s, a, CommitWrite))
    ensures HasFree(Next(g, s, CommitWrite).c)
  {
    hide Coherent, Durable, Committing, CommitCache, Restores, OnlyHomes, HasFree, Overlay, CommitState, Began,
        DistinctHomes;
    CommitFacts(g, s, a);
    WriteIsDurable(g, s, a);
    var base := Base(s, a);
    var l := Overlay(g, base, a.current);
    CommitStage(g, s.c, base, l, s.lh, s.stage);
    ClearsHeader(g, s.c, base, l, s.lh, a.current);
    LastCache(g, s.c, s.lh);
    assert Blocks([]) == {} && DistinctHomes(g, []) by { NoBlocks(g); }
  }

  lemma NoBlocks(g: Geometry)
    requires g.Ok()
    ensures Blocks([]) == {} && DistinctHomes(g, [])
  {
  }

  lemma CommitWriteStep(g: Geometry, s: State, a: Spec)
    requires Inv(g, s, a) && Enabled(g, s, a, CommitWrite)
    ensures Inv(g, Next(g, s, CommitWrite), NextSpec(g, s, a, CommitWrite))
    ensures HasFree(Next(g, s, CommitWrite).c)
  {
    hide Inv, HasFree, Next, NextSpec, Enabled;
    if s.stage <= 2 * |s.lh| { MiddleWrite(g, s, a); } else { LastWrite(g, s, a); }
  }

  lemma CommitStage(g: Geometry, c: Cache, base: Disk, l: Disk, h: seq<nat>, t: nat)
    requires Committing(g, c, base, l, h, t)
    ensures Began(g, base, l, h) && t <= 2 * |h| + 1 && |h| < WORDS
  {
  }

  lemma NextStage(g: Geometry, c: Cache, base: Disk, l: Disk, h: seq<nat>, t: nat)
    requires Committing(g, c, base, l, h, t)
    ensures Began(g, base, l, h) && t <= 2 * |h| + 1 && c.Shaped() && OnlyHomes(g, c)
    ensures c.Disk() == CommitState(g, base, l, h, t) && |c.Disk()| == g.blocks
  {
  }

  lemma LastCache(g: Geometry, c: Cache, h: seq<nat>)
    requires c.Shaped() && |h| < WORDS
    ensures CommitCache(g, c, h, 2 * |h| + 1) == WriteHead(g, c, [])
  {
  }

  // ---- runs ----

  lemma StepKeepsInv(g: Geometry, s: State, a: Spec, op: Op)
    requires Inv(g, s, a) && Enabled(g, s, a, op)
    ensures Inv(g, Next(g, s, op), NextSpec(g, s, a, op))
  {
    hide Inv, Enabled, Next, NextSpec;
    match op
    case Bread(b) => BreadStep(g, s, a, b);
    case Modify(i, data) => ModifyStep(g, s, a, i, data);
    case LogWrite(i) => LogWriteStepOk(g, s, a, i);
    case Brelse(i) => BrelseStep(g, s, a, i);
    case CommitWrite => CommitWriteStep(g, s, a);
  }

  ghost predicate RunEnabled(g: Geometry, s: State, a: Spec, ops: seq<Op>)
    requires s.c.Shaped()
    decreases |ops|
  {
    ops == [] ||
    (Enabled(g, s, a, ops[0]) && RunEnabled(g, Next(g, s, ops[0]), NextSpec(g, s, a, ops[0]), ops[1..]))
  }

  ghost function Run(g: Geometry, s: State, a: Spec, ops: seq<Op>): (r: (State, Spec))
    requires s.c.Shaped()
    ensures r.0.c.Shaped()
    decreases |ops|
  {
    if ops == [] then (s, a) else Run(g, Next(g, s, ops[0]), NextSpec(g, s, a, ops[0]), ops[1..])
  }

  /** Cache and log refine the flat map in every run: after any enabled sequence of calls, between the writes of a
      commit too, a bread returns the current contents, and a crash after any disk write of the run recovers to
      the snapshot of the last transaction whose header had been written by then. */
  lemma {:induction false} RunRefines(g: Geometry, s: State, a: Spec, ops: seq<Op>, b: nat)
    requires Inv(g, s, a) && RunEnabled(g, s, a, ops)
    ensures var (r, e) := Run(g, s, a, ops);
            && Inv(g, r, e) && Durable(g, r.c.hist, e.saved)
            && (Enabled(g, r, e, Bread(b)) ==>
                  var i := Slot(r.c, ROOTDEV, b);
                  0 <= i < NBUF && Read(r.c, ROOTDEV, b).bufs[i].data == e.current[b])
    decreases |ops|
  {
    hide Inv, Durable, NextSpec;
    InvFacts(g, s, a);
    if ops == [] {
      if Enabled(g, s, a, Bread(b)) { BreadStep(g, s, a, b); }
    } else {
      hide Next, Enabled;
      StepKeepsInv(g, s, a, ops[0]);
      RunRefines(g, Next(g, s, ops[0]), NextSpec(g, s, a, ops[0]), ops[1..], b);
    }
  }

  /** Booting from any well-formed disk establishes the invariant: recovery yields the flat map. */
  lemma BootEstablishesInv(g: Geometry, c: Cache)
    requires c.Shaped() && WellFormed(g, c.Disk()) && Clean(c) && |c.hist| == 1
    ensures Inv(g, Booted(g, c).0, Booted(g, c).1)
    ensures SameHomes(g, Booted(g, c).1.current, Recovered(g, c.Disk()))
  {
    RecoverOk(g, c);
    var r, d := Recover(g, c), c.Disk();
    RecoverEmpty(g, r.Disk());
    assert Overlay(g, r.Disk(), r.Disk()) == r.Disk();
    assert Blocks([]) == {};
    var saved := seq(|r.hist|, _ => r.Disk());
    hide Coherent, Recover, Recovered, WellFormed, RecoveryState;
    forall t | 0 <= t < |r.hist|
      ensures Restores(g, r.hist[t], saved[t])
    {
      RecoverStates(g, c, t);
      RecoveryStateSafe(g, d, r.hist[t]);
    }
  }

  /** The system after initlog, and what it is to be. */
  ghost function Booted(g: Geometry, c: Cache): (r: (State, Spec))
    requires c.Shaped()
    ensures r.0.c.Shaped()
  {
    var r := Recover(g, c);
    (State(r, [], 0), Spec(r.Disk(), seq(|r.hist|, _ => r.Disk()), {}, r.Disk()))
  }

  /** Boot, run, crash after any disk write, boot any number of times with each but the last boot cut short, and
      boot once more: the system starts from the snapshot that was due at the crash. */
  lemma CrashAndReboot(g: Geometry, c: Cache, ops: seq<Op>, t: nat, ds: seq<Disk>, again: Cache)
    requires c.Shaped() && WellFormed(g, c.Disk()) && Clean(c) && |c.hist| == 1
    requires RunEnabled(g, Booted(g, c).0, Booted(g, c).1, ops)
    requires t < |Run(g, Booted(g, c).0, Booted(g, c).1, ops).0.c.hist|
    requires CrashLoop(g, ds) && ds[0] == Run(g, Booted(g, c).0, Booted(g, c).1, ops).0.c.hist[t]
    requires again.Shaped() && Clean(again) && again.hist == [ds[|ds| - 1]]
    ensures var saved := Run(g, Booted(g, c).0, Booted(g, c).1, ops).1.saved; var (s, a) := Booted(g, again);
            Inv(g, s, a) && t < |saved| && SameHomes(g, a.current, saved[t])
  {
    hide Inv, Clean, Run, RunEnabled, Booted, CrashLoop, Recovered;
    var (s0, a0) := Booted(g, c);
    BootEstablishesInv(g, c);
    RunRefines(g, s0, a0, ops, 0);
    var (r, e) := Run(g, s0, a0, ops);
    assert Restores(g, r.c.hist[t], e.saved[t]);
    RecoverySurvivesCrashes(g, ds) by { CrashLoopNonEmpty(g, ds); }
    BootEstablishesInv(g, again);
  }

  lemma CrashLoopNonEmpty(g: Geometry, ds: seq<Disk>)
    requires CrashLoop(g, ds)
    ensures |ds| > 0
  {
  }

  // ---- a commit that nobody disturbs ----

  /** commit's first bread panics exactly when the transaction pins all NBUF buffers. A log of
      `size` blocks lets a transaction grow to `Capacity()`, so a size of at most NBUF is safe. */
  lemma CommitNeedsOneBuffer(g: Geometry, s: State, a: Spec)
    requires Inv(g, s, a) && a.dirty == {} && s.stage == 0 && s.lh != []
    requires forall i :: 0 <= i < NBUF ==> !s.c.bufs[i].locked
    ensures Enabled(g, s, a, CommitWrite) <==> |s.lh| < NBUF
    ensures g.size <= NBUF ==> Enabled(g, s, a, CommitWrite)
    ensures Slot(s.c, ROOTDEV, LogBlock(g, 0)) >= 0 <==> |s.lh| < NBUF
  {
    FreeUnlessFull(s.c, Overlay(g, s.c.Disk(), a.current), Blocks(s.lh));
    ImageSize(s.lh, Blocks(s.lh));
    SetOfSeq(s.lh);
    SlotFound(s.c, ROOTDEV, LogBlock(g, 0));
    if i :| 0 <= i < NBUF && Holds(s.c.bufs[i], ROOTDEV, LogBlock(g, 0)) {
      assert s.c.bufs[i].blockno !in Blocks(s.lh);
      assert s.c.bufs[i].refcnt == 0;
    }
  }

  /** The cache after `t` writes of a commit that starts from `c`. */
  function CacheAt(g: Geometry, c: Cache, h: seq<nat>, t: nat): (r: Cache)
    requires c.Shaped() && |h| < WORDS && h != [] && t <= 2 * |h| + 2
    ensures r.Shaped()
  {
    if t <= |h| then WriteLog(g, c, h, t)
    else if t <= 2 * |h| + 1 then Install(g, WriteHead(g, WriteLog(g, c, h, |h|), h), h, t - |h| - 1, false)
    else Commit(g, c, h)
  }

  lemma CacheNext(g: Geometry, c: Cache, h: seq<nat>, t: nat)
    requires c.Shaped() && |h| < WORDS && h != [] && t <= 2 * |h| + 1
    ensures CommitCache(g, CacheAt(g, c, h, t), h, t) == CacheAt(g, c, h, t + 1)
  {
    hide CopyToLog, CopyHome, WriteHead;
  }

  /** Nobody else holding a block of the transaction, the next write can be made. */
  lemma ReadyAt(g: Geometry, c: Cache, h: seq<nat>, l: Disk, t: nat)
    requires g.Ok() && c.Shaped() && |l| == g.blocks && DistinctHomes(g, h) && h != [] && t <= 2 * |h| + 1
    requires Ready(g, c, h, l, Blocks(h))
    ensures Ready(g, CacheAt(g, c, h, t), h, During(g, l, h, t), PinsAt(h, t))
  {
    hide Ready, WriteLog, WriteHead, Install, CommitPoint, CommitState;
    if t <= |h| {
      WriteLogOk(g, c, h, t, l);
    } else {
      ToCommitPoint(g, c, h, l);
      var c1 := WriteHead(g, WriteLog(g, c, h, |h|), h);
      InstallOk(g, c1, h, t - |h| - 1, CommitPoint(g, l, l, h));
    }
  }

  lemma ReadyEnables(g: Geometry, s: State, a: Spec, logical: Disk, pins: set<nat>)
    requires s.c.Shaped() && Ready(g, s.c, s.lh, logical, pins) && s.lh != [] && a.dirty == {}
    ensures Enabled(g, s, a, CommitWrite)
  {
    assert forall b :: b in Copies(s.lh, s.stage) ==> b in s.lh;
  }

  /** From stage `t` on, all writes that remain can be made, and they make the commit of the code. */
  lemma {:induction false} CommitRuns(g: Geometry, c: Cache, h: seq<nat>, l: Disk, a: Spec, t: nat)
    requires g.Ok() && c.Shaped() && |l| == g.blocks && DistinctHomes(g, h) && h != [] && t <= 2 * |h| + 1
    requires Ready(g, c, h, l, Blocks(h)) && a.dirty == {}
    ensures var s := State(CacheAt(g, c, h, t), h, t); var ops := seq(2 * |h| + 2 - t, _ => CommitWrite);
            RunEnabled(g, s, a, ops) && Run(g, s, a, ops).0 == State(Commit(g, c, h), [], 0)
    decreases 2 * |h| + 1 - t
  {
    hide Ready, CacheAt, CommitCache, Commit, DistinctHomes, During, PinsAt, Enabled;
    Short(g, h);
    var s, ops := State(CacheAt(g, c, h, t), h, t), seq(2 * |h| + 2 - t, _ => CommitWrite);
    ReadyAt(g, c, h, l, t);
    ReadyEnables(g, s, a, During(g, l, h, t), PinsAt(h, t));
    CacheNext(g, c, h, t);
    assert ops[1..] == seq(2 * |h| + 2 - (t + 1), _ => CommitWrite);
    if t <= 2 * |h| {
      CommitRuns(g, c, h, l, NextSpec(g, s, a, CommitWrite), t + 1);
    } else {
      AllWritten(g, c, h);
    }
  }

  lemma Short(g: Geometry, h: seq<nat>)
    requires g.Ok() && DistinctHomes(g, h)
    ensures |h| < WORDS
  {
  }

  lemma AllWritten(g: Geometry, c: Cache, h: seq<nat>)
    requires c.Shaped() && |h| < WORDS && h != []
    ensures CacheAt(g, c, h, 2 * |h| + 2) == Commit(g, c, h)
  {
  }
}
