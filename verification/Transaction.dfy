/** Transactions of kernel/log.c: log_write, commit and recover_from_log as functions on
    the cache, and the crash atomicity of commit. */
module Transaction {
  import opened Params
  import opened BufferCache
  import opened RedoLog

  function LogBlock(g: Geometry, tail: nat): (b: nat) { g.start + tail + 1 }

  /** One round of the write_log loop: cache block to log block. */
  function CopyToLog(g: Geometry, c: Cache, h: seq<nat>, tail: nat): (r: Cache)
    requires c.Shaped() && tail < |h|
    ensures r.Shaped()
  {
    var to := Slot(c, ROOTDEV, LogBlock(g, tail));
    var c1 := Read(c, ROOTDEV, LogBlock(g, tail));
    var from := Slot(c1, ROOTDEV, h[tail]);
    var c2 := Read(c1, ROOTDEV, h[tail]);
    if to < 0 || from < 0 then c2 else
    var c3 := Write(Fill(c2, to, c2.bufs[from].data), to);
    Release(Release(c3, from), to)
  }

  function WriteLog(g: Geometry, c: Cache, h: seq<nat>, k: nat): (r: Cache)
    requires c.Shaped() && k <= |h|
    ensures r.Shaped()
  {
    if k == 0 then c else CopyToLog(g, WriteLog(g, c, h, k - 1), h, k - 1)
  }

  function WriteHead(g: Geometry, c: Cache, h: seq<nat>): (r: Cache)
    requires c.Shaped() && |h| < WORDS
    ensures r.Shaped()
  {
    var i := Slot(c, ROOTDEV, g.start);
    var c1 := Read(c, ROOTDEV, g.start);
    if i < 0 then c1 else
    Release(Write(Fill(c1, i, PutHeader(c1.bufs[i].data, h)), i), i)
  }

  /** One round of the install_trans loop: log block to home block. */
  function CopyHome(g: Geometry, c: Cache, h: seq<nat>, tail: nat, recovering: bool): (r: Cache)
    requires c.Shaped() && tail < |h|
    ensures r.Shaped()
  {
    var lb := Slot(c, ROOTDEV, LogBlock(g, tail));
    var c1 := Read(c, ROOTDEV, LogBlock(g, tail));
    var db := Slot(c1, ROOTDEV, h[tail]);
    var c2 := Read(c1, ROOTDEV, h[tail]);
    if lb < 0 || db < 0 then c2 else
    var c3 := Write(Fill(c2, db, c2.bufs[lb].data), db);
    var c4 := if recovering then c3 else Unpin(c3, db);
    Release(Release(c4, lb), db)
  }

  function Install(g: Geometry, c: Cache, h: seq<nat>, k: nat, recovering: bool): (r: Cache)
    requires c.Shaped() && k <= |h|
    ensures r.Shaped()
  {
    if k == 0 then c else CopyHome(g, Install(g, c, h, k - 1, recovering), h, k - 1, recovering)
  }

  function Commit(g: Geometry, c: Cache, h: seq<nat>): (r: Cache)
    requires c.Shaped() && |h| < WORDS
    ensures r.Shaped()
  {
    if h == [] then c else
    WriteHead(g, Install(g, WriteHead(g, WriteLog(g, c, h, |h|), h), h, |h|, false), [])
  }

  // ---- commit keeps cache, pins and disk coherent ----

  ghost function Blocks(h: seq<nat>): (s: set<nat>) {
    set i | 0 <= i < |h| :: h[i]
  }

  /** No one holds a buffer of the log area or of the transaction. */
  ghost predicate Quiet(g: Geometry, c: Cache, h: seq<nat>)
    requires c.Shaped()
  {
    forall i :: 0 <= i < NBUF && c.bufs[i].locked ==>
      g.Home(c.bufs[i].blockno) && c.bufs[i].blockno !in h
  }

  /** Everything the steps of commit rely on and restore. */
  ghost predicate Ready(g: Geometry, c: Cache, h: seq<nat>, logical: Disk, pins: set<nat>)
    requires c.Shaped()
  {
    Coherent(c, logical, pins, {}) && Quiet(g, c, h) && HasFree(c)
  }

  lemma ReadyDisk(g: Geometry, c: Cache, h: seq<nat>, logical: Disk, pins: set<nat>)
    requires c.Shaped() && Ready(g, c, h, logical, pins)
    ensures |c.Disk()| == |logical|
    ensures forall b :: 0 <= b < |logical| && b !in pins ==> c.Disk()[b] == logical[b]
  {
  }

  /** A round trip on one buffer: bread, overwrite, bwrite, brelse. */
  lemma WriteHeadOk(g: Geometry, c: Cache, h: seq<nat>, n: seq<nat>, logical: Disk, pins: set<nat>)
    requires g.Ok() && c.Shaped() && |logical| == g.blocks && |n| < WORDS
    requires Ready(g, c, h, logical, pins)
    requires forall p :: p in pins ==> g.Home(p)
    ensures var r := WriteHead(g, c, n); var v := PutHeader(logical[g.start], n);
            && Ready(g, r, h, logical[g.start := v], pins) && |c.Disk()| == g.blocks
            && (forall i :: 0 <= i < NBUF ==> (r.bufs[i].locked <==> c.bufs[i].locked))
            && r.hist == c.hist + [c.Disk()[g.start := v]]
  {
    hide Coherent;
    var i := Slot(c, ROOTDEV, g.start);
    ReadOk(c, logical, pins, {}, g.start);
    var c1 := Read(c, ROOTDEV, g.start);
    var v := PutHeader(c1.bufs[i].data, n);
    StoreOk(c1, logical, pins, i, v);
    ReleaseOk(Write(Fill(c1, i, v), i), logical[g.start := v], pins, {}, i);
  }

  /** Reading a log block and then a pinned block; the two buffers differ. */
  lemma ReadTwo(c: Cache, logical: Disk, pins: set<nat>, s: nat, t: nat)
    requires c.Shaped() && Coherent(c, logical, pins, {}) && HasFree(c)
    requires s < |logical| && t in pins && s !in pins && Unheld(c, s) && Unheld(c, t)
    ensures var c1 := Read(c, ROOTDEV, s); var c2 := Read(c1, ROOTDEV, t);
            var i := Slot(c, ROOTDEV, s); var j := Slot(c1, ROOTDEV, t);
            && 0 <= i < NBUF && 0 <= j < NBUF && i != j && !c.bufs[i].locked && !c.bufs[j].locked
            && Coherent(c2, logical, pins, {}) && c2.hist == c.hist
            && c2.bufs == c.bufs[i := c2.bufs[i]][j := c2.bufs[j]]
            && c2.bufs[i].locked && Holds(c2.bufs[i], ROOTDEV, s) && c2.bufs[i].data == logical[s]
            && c2.bufs[j].locked && Holds(c2.bufs[j], ROOTDEV, t)
            && t < |logical| && c2.bufs[j].data == logical[t]
  {
    assert t < |logical|;
    ReadOk(c, logical, pins, {}, s);
    var c1 := Read(c, ROOTDEV, s);
    assert Cached(c1, t);
    hide Coherent, Read, Slot;
    ReadOk(c1, logical, pins, {}, t);
  }

  /** One write of write_log, while nobody holds the blocks `q`, the one to copy among them. */
  lemma CopyToLogOk(g: Geometry, c: Cache, h: seq<nat>, tail: nat, logical: Disk, q: seq<nat>)
    requires g.Ok() && c.Shaped() && |logical| == g.blocks && DistinctHomes(g, h) && tail < |h| && h[tail] in q
    requires Ready(g, c, q, logical, Blocks(h))
    ensures var r := CopyToLog(g, c, h, tail); var t := LogBlock(g, tail); var v := logical[h[tail]];
            && Ready(g, r, q, logical[t := v], Blocks(h))
            && |c.Disk()| == g.blocks && r.hist == c.hist + [c.Disk()[t := v]]
  {
    hide Coherent, Read, Slot, Fill, Write, Release;
    var pins, t := Blocks(h), LogBlock(g, tail);
    assert h[tail] in pins && t !in pins;
    ReadTwo(c, logical, pins, t, h[tail]);
    var c1 := Read(c, ROOTDEV, t);
    var to, from := Slot(c, ROOTDEV, t), Slot(c1, ROOTDEV, h[tail]);
    var c2 := Read(c1, ROOTDEV, h[tail]);
    var v := logical[h[tail]];
    StoreOk(c2, logical, pins, to, v);
    var c3 := Write(Fill(c2, to, v), to);
    ReleaseOk(c3, logical[t := v], pins, {}, from);
    ReleaseOk(Release(c3, from), logical[t := v], pins, {}, to);
  }

  lemma PinsAfter(g: Geometry, h: seq<nat>, tail: nat)
    requires DistinctHomes(g, h) && tail < |h|
    ensures h[tail] in Blocks(h[tail..]) && LogBlock(g, tail) !in Blocks(h[tail..])
    ensures Blocks(h[tail..]) - {h[tail]} == Blocks(h[tail + 1..])
  {
    assert h[tail..][0] == h[tail];
    assert h[tail..] == [h[tail]] + h[tail + 1..];
  }

  /** One write of install_trans, likewise. */
  lemma CopyHomeOk(g: Geometry, c: Cache, h: seq<nat>, tail: nat, logical: Disk, q: seq<nat>)
    requires g.Ok() && c.Shaped() && |logical| == g.blocks && DistinctHomes(g, h) && tail < |h| && h[tail] in q
    requires Ready(g, c, q, logical, Blocks(h[tail..]))
    requires logical[LogBlock(g, tail)] == logical[h[tail]]
    ensures var r := CopyHome(g, c, h, tail, false); var v := logical[h[tail]];
            && Ready(g, r, q, logical, Blocks(h[tail + 1..]))
            && |c.Disk()| == g.blocks && r.hist == c.hist + [c.Disk()[h[tail] := v]]
  {
    hide Coherent, Read, Slot, Fill, Write, Release, Unpin, Blocks;
    PinsAfter(g, h, tail);
    var pins, rest, t := Blocks(h[tail..]), Blocks(h[tail + 1..]), LogBlock(g, tail);
    ReadTwo(c, logical, pins, t, h[tail]);
    var c1 := Read(c, ROOTDEV, t);
    var lb, db := Slot(c, ROOTDEV, t), Slot(c1, ROOTDEV, h[tail]);
    var c2 := Read(c1, ROOTDEV, h[tail]);
    var v := logical[t];
    StoreOk(c2, logical, pins, db, v);
    assert logical[h[tail] := v] == logical;
    var c3 := Write(Fill(c2, db, v), db);
    UnpinOk(c3, logical, pins, {}, db);
    var c4 := Unpin(c3, db);
    ReleaseOk(c4, logical, rest, {}, lb);
    ReleaseOk(Release(c4, lb), logical, rest, {}, db);
  }

  // ---- the disk states a commit passes through ----

  /** `d` after the first `k` transaction blocks have reached the log area. */
  function Logged(g: Geometry, d: Disk, logical: Disk, h: seq<nat>, k: nat): (r: Disk)
    requires g.Ok() && |d| == |logical| == g.blocks && k <= |h|
    requires |h| < g.size && forall i :: 0 <= i < |h| ==> h[i] < g.blocks
    ensures |r| == |d|
    ensures forall b :: 0 <= b < g.blocks && !(g.start < b <= g.start + k) ==> r[b] == d[b]
    ensures forall i :: 0 <= i < k ==> r[LogBlock(g, i)] == logical[h[i]]
  {
    if k == 0 then d else
    Logged(g, d, logical, h, k - 1)[LogBlock(g, k - 1) := logical[h[k - 1]]]
  }

  lemma {:induction false} WriteLogOk(g: Geometry, c: Cache, h: seq<nat>, k: nat, logical: Disk)
    requires g.Ok() && c.Shaped() && |logical| == g.blocks && DistinctHomes(g, h) && k <= |h|
    requires Ready(g, c, h, logical, Blocks(h))
    ensures var r := WriteLog(g, c, h, k); var d := c.Disk();
            && |d| == g.blocks
            && Ready(g, r, h, Logged(g, logical, logical, h, k), Blocks(h))
            && |r.hist| == |c.hist| + k && r.hist[..|c.hist|] == c.hist
            && forall j :: 0 <= j <= k ==> r.hist[|c.hist| - 1 + j] == Logged(g, d, logical, h, j)
  {
    hide Ready, CopyToLog;
    ReadyDisk(g, c, h, logical, Blocks(h));
    if k > 0 {
      WriteLogOk(g, c, h, k - 1, logical);
      var p, r := WriteLog(g, c, h, k - 1), WriteLog(g, c, h, k);
      var l := Logged(g, logical, logical, h, k - 1);
      CopyToLogOk(g, p, h, k - 1, l, h);
      assert l[h[k - 1]] == logical[h[k - 1]];
      forall j | 0 <= j < k
        ensures r.hist[|c.hist| - 1 + j] == Logged(g, c.Disk(), logical, h, j)
      {
        assert r.hist[|c.hist| - 1 + j] == p.hist[|c.hist| - 1 + j];
      }
    }
  }

  /** install_trans after the commit point walks the disk through `Replay`. */
  lemma {:induction false} InstallOk(g: Geometry, c: Cache, h: seq<nat>, k: nat, logical: Disk)
    requires g.Ok() && c.Shaped() && |logical| == g.blocks && DistinctHomes(g, h) && k <= |h|
    requires Ready(g, c, h, logical, Blocks(h))
    requires forall i :: 0 <= i < |h| ==> logical[LogBlock(g, i)] == logical[h[i]]
    ensures var r := Install(g, c, h, k, false); var d := c.Disk();
            && Ready(g, r, h, logical, Blocks(h[k..])) && |d| == g.blocks
            && |r.hist| == |c.hist| + k && r.hist[..|c.hist|] == c.hist
            && forall j :: 0 <= j <= k ==> r.hist[|c.hist| - 1 + j] == Replay(g, d, h, j)
  {
    hide Ready, CopyHome;
    ReadyDisk(g, c, h, logical, Blocks(h));
    assert h[0..] == h;
    if k > 0 {
      InstallOk(g, c, h, k - 1, logical);
      var p := Install(g, c, h, k - 1, false);
      ReadyDisk(g, p, h, logical, Blocks(h[k - 1..]));
      assert LogBlock(g, k - 1) !in Blocks(h[k - 1..]);
      CopyHomeOk(g, p, h, k - 1, logical, h);
    }
  }

  // ---- crash atomicity ----

  /** Until the header is written, recovery yields the old home blocks. */
  lemma BeforeCommitPoint(g: Geometry, d: Disk, logical: Disk, h: seq<nat>, j: nat)
    requires Fits(g, d) && |logical| == g.blocks && DistinctHomes(g, h) && j <= |h|
    requires d[g.start][0] == 0
    ensures var e := Logged(g, d, logical, h, j);
            WellFormed(g, e) && SameHomes(g, Recovered(g, e), d)
  {
    RecoverEmpty(g, Logged(g, d, logical, h, j));
  }

  /** The disk just after the first write_head: the log area and header describe the transaction. */
  ghost function CommitPoint(g: Geometry, d: Disk, logical: Disk, h: seq<nat>): (f: Disk)
    requires Fits(g, d) && |logical| == g.blocks && DistinctHomes(g, h)
    ensures WellFormed(g, f) && |f| == |d| && Header(f[g.start]) == h
    ensures SameHomes(g, f, d)
    ensures forall i :: 0 <= i < |h| ==> f[LogBlock(g, i)] == logical[h[i]]
  {
    var e := Logged(g, d, logical, h, |h|);
    e[g.start := PutHeader(e[g.start], h)]
  }

  /** From then on recovery yields the new home blocks. */
  lemma AfterCommitPoint(g: Geometry, d: Disk, logical: Disk, h: seq<nat>, j: nat)
    requires Fits(g, d) && |logical| == g.blocks && DistinctHomes(g, h) && j <= |h|
    requires forall b :: 0 <= b < g.blocks && b !in h ==> d[b] == logical[b]
    ensures var f := CommitPoint(g, d, logical, h); var e := Replay(g, f, h, j);
            && WellFormed(g, e) && SameHomes(g, Recovered(g, e), logical)
            && SameHomes(g, Recovered(g, f), logical)
  {
    hide Recovered, CommitPoint;
    var f := CommitPoint(g, d, logical, h);
    RecoverAgain(g, f, j);
    CommitPointRecovers(g, d, logical, h);
  }

  lemma CommitPointRecovers(g: Geometry, d: Disk, logical: Disk, h: seq<nat>)
    requires Fits(g, d) && |logical| == g.blocks && DistinctHomes(g, h)
    requires forall b :: 0 <= b < g.blocks && b !in h ==> d[b] == logical[b]
    ensures SameHomes(g, Recovered(g, CommitPoint(g, d, logical, h)), logical)
  {
    hide CommitPoint, Recovered;
    var f := CommitPoint(g, d, logical, h);
    RecoveredAt(g, f);
    forall b | 0 <= b < g.blocks && g.Home(b)
      ensures Recovered(g, f)[b] == logical[b]
    {
      if b in h {
        var i :| 0 <= i < |h| && h[i] == b;
        assert f[LogBlock(g, i)] == logical[h[i]];
      }
    }
  }

  /** The disk states of commit, in order, for a transaction of `n` blocks: `n` log writes,
      the header, `n` home writes, the cleared header. */
  ghost function CommitState(g: Geometry, d: Disk, logical: Disk, h: seq<nat>, t: nat): (e: Disk)
    requires Fits(g, d) && |logical| == g.blocks && DistinctHomes(g, h) && t <= 2 * |h| + 2
  {
    var f := CommitPoint(g, d, logical, h);
    if t <= |h| then Logged(g, d, logical, h, t)
    else if t <= 2 * |h| + 1 then Replay(g, f, h, t - |h| - 1)
    else Recovered(g, f)
  }

  /** Crash atomicity: recovery from the disk after any number `t` of commit's writes gives
      the old contents before the header write and the new contents from it on. */
  lemma CommitStateRecovers(g: Geometry, d: Disk, logical: Disk, h: seq<nat>, t: nat)
    requires Fits(g, d) && |logical| == g.blocks && DistinctHomes(g, h) && t <= 2 * |h| + 2
    requires d[g.start][0] == 0
    requires forall b :: 0 <= b < g.blocks && b !in h ==> d[b] == logical[b]
    ensures var e := CommitState(g, d, logical, h, t);
            && WellFormed(g, e) && SameHomes(g, Recovered(g, e), if t <= |h| then d else logical)
            && (t == 2 * |h| + 2 ==> e[g.start][0] == 0)
  {
    hide Logged, Replay, Recovered, CommitPoint, DistinctHomes;
    if t <= |h| {
      BeforeCommitPoint(g, d, logical, h, t);
    } else if t <= 2 * |h| + 1 {
      AfterCommitPoint(g, d, logical, h, t - |h| - 1);
    } else {
      AfterCommitPoint(g, d, logical, h, |h|);
      RecoverEmpty(g, CommitState(g, d, logical, h, t));
    }
  }

  /** `logical` with the log area as it is on disk. */
  ghost function Overlay(g: Geometry, d: Disk, logical: Disk): (r: Disk)
    requires |d| == |logical| == g.blocks
    ensures SameHomes(g, r, logical)
  {
    seq(g.blocks, b requires 0 <= b < g.blocks => if g.Home(b) then logical[b] else d[b])
  }

  /** write_log and the first write_head bring the disk to the commit point. */
  lemma ToCommitPoint(g: Geometry, c: Cache, h: seq<nat>, logical: Disk)
    requires g.Ok() && c.Shaped() && |logical| == g.blocks && DistinctHomes(g, h)
    requires Ready(g, c, h, logical, Blocks(h))
    ensures var r := WriteHead(g, WriteLog(g, c, h, |h|), h); var n := |h|; var d := c.Disk();
            && |d| == g.blocks
            && |r.hist| == |c.hist| + n + 1 && r.hist[..|c.hist|] == c.hist
            && (forall t :: 0 <= t <= n + 1 ==> r.hist[|c.hist| - 1 + t] == CommitState(g, d, logical, h, t))
            && r.Disk() == CommitPoint(g, d, logical, h)
            && Ready(g, r, h, CommitPoint(g, logical, logical, h), Blocks(h))
  {
    hide Ready, WriteLog, WriteHead, PutHeader;
    ReadyDisk(g, c, h, logical, Blocks(h));
    WriteLogOk(g, c, h, |h|, logical);
    var l, c1 := Logged(g, logical, logical, h, |h|), WriteLog(g, c, h, |h|);
    ReadyDisk(g, c1, h, l, Blocks(h));
    assert g.start !in Blocks(h);
    WriteHeadOk(g, c1, h, h, l, Blocks(h));
  }

  /** install_trans and the second write_head bring it from there to the recovered state. */
  lemma FromCommitPoint(g: Geometry, c: Cache, h: seq<nat>, logical: Disk)
    requires g.Ok() && c.Shaped() && |logical| == g.blocks && DistinctHomes(g, h)
    requires Ready(g, c, h, logical, Blocks(h)) && |c.Disk()| == g.blocks
    requires Header(c.Disk()[g.start]) == h
    requires forall i :: 0 <= i < |h| ==> logical[LogBlock(g, i)] == logical[h[i]]
    ensures var r := WriteHead(g, Install(g, c, h, |h|, false), []); var n := |h|; var d := c.Disk();
            && |r.hist| == |c.hist| + n + 1 && r.hist[..|c.hist|] == c.hist
            && (forall t :: 0 <= t <= n ==> r.hist[|c.hist| - 1 + t] == Replay(g, d, h, t))
            && r.Disk() == Recovered(g, d)
            && Ready(g, r, h, Overlay(g, r.Disk(), logical), {})
  {
    hide Ready, Install, WriteHead, PutHeader;
    InstallOk(g, c, h, |h|, logical);
    var c1 := Install(g, c, h, |h|, false);
    assert Blocks(h[|h|..]) == {};
    ReadyDisk(g, c1, h, logical, {});
    WriteHeadOk(g, c1, h, [], logical, {});
    var r, l := WriteHead(g, c1, []), logical[g.start := PutHeader(logical[g.start], [])];
    ReadyDisk(g, r, h, l, {});
    assert l == Overlay(g, r.Disk(), logical);
  }

  /** commit passes through exactly these states and ends clean: nothing pinned, the header
      empty, every home block current. */
  lemma CommitOk(g: Geometry, c: Cache, h: seq<nat>, logical: Disk)
    requires g.Ok() && c.Shaped() && |logical| == g.blocks && DistinctHomes(g, h) && h != []
    requires Ready(g, c, h, logical, Blocks(h))
    ensures var r := Commit(g, c, h); var n := |h|; var d := c.Disk();
            && |d| == g.blocks
            && |r.hist| == |c.hist| + 2 * n + 2 && r.hist[..|c.hist|] == c.hist
            && (forall t :: 0 <= t <= 2 * n + 2 ==> r.hist[|c.hist| - 1 + t] == CommitState(g, d, logical, h, t))
            && |r.Disk()| == g.blocks && Ready(g, r, h, Overlay(g, r.Disk(), logical), {})
  {
    hide Ready, WriteLog, WriteHead, Install, PutHeader, Replay, Recovered;
    var d, n := c.Disk(), |h|;
    ReadyDisk(g, c, h, logical, Blocks(h));
    ToCommitPoint(g, c, h, logical);
    var c1 := WriteHead(g, WriteLog(g, c, h, n), h);
    var l := CommitPoint(g, logical, logical, h);
    FromCommitPoint(g, c1, h, l);
    var r := Commit(g, c, h);
    assert Overlay(g, r.Disk(), l) == Overlay(g, r.Disk(), logical);
    forall t | n + 1 < t <= 2 * n + 2
      ensures r.hist[|c.hist| - 1 + t] == CommitState(g, d, logical, h, t)
    {
      assert |c.hist| - 1 + t == |c1.hist| - 1 + (t - n - 1);
    }
  }

  // ---- recovery through the cache ----

  /** read_head: the cache afterwards and the block list found on disk. */
  function ReadHead(g: Geometry, c: Cache): (r: (Cache, seq<nat>))
    requires c.Shaped()
    ensures r.0.Shaped()
  {
    var i := Slot(c, ROOTDEV, g.start);
    var c1 := Read(c, ROOTDEV, g.start);
    if i < 0 then (c1, []) else (Release(c1, i), Header(c1.bufs[i].data))
  }

  /** recover_from_log: read the header, install, clear the header. */
  function Recover(g: Geometry, c: Cache): (r: Cache)
    requires c.Shaped()
    ensures r.Shaped()
  {
    var (c1, h) := ReadHead(g, c);
    WriteHead(g, Install(g, c1, h, |h|, true), [])
  }

  /** No buffer held or pinned and all cached contents as on disk: the cache at boot. */
  ghost predicate Clean(c: Cache)
    requires c.Shaped()
  {
    && Coherent(c, c.Disk(), {}, {})
    && forall i :: 0 <= i < NBUF ==> !c.bufs[i].locked
  }

  ghost predicate OnlyHeld(c: Cache, held: set<int>)
    requires c.Shaped()
  {
    forall k :: 0 <= k < NBUF ==> (c.bufs[k].locked <==> k in held)
  }

  /** A bread while at most one other buffer is held, at boot. */
  lemma ReadNext(c: Cache, held: int, b: nat)
    requires c.Shaped() && Coherent(c, c.Disk(), {}, {}) && b < |c.Disk()|
    requires OnlyHeld(c, {held}) && (0 <= held < NBUF ==> c.bufs[held].blockno != b)
    ensures var d := c.Disk(); var r := Read(c, ROOTDEV, b); var j := Slot(c, ROOTDEV, b);
            && 0 <= j < NBUF && j != held
            && Coherent(r, d, {}, {}) && OnlyHeld(r, {held, j})
            && r.bufs[j].data == d[b] && r.bufs[j].blockno == b
            && (0 <= held < NBUF ==> r.bufs[held] == c.bufs[held])
  {
    FreeWhenIdle(c, held);
    hide Coherent, Read, Slot, HasFree;
    ReadOk(c, c.Disk(), {}, {}, b);
  }

  /** Two breads from an idle cache hold two different buffers and nothing else. */
  lemma ReadPair(c: Cache, s: nat, t: nat)
    requires c.Shaped() && Clean(c) && s != t && s < |c.Disk()| && t < |c.Disk()|
    ensures var d := c.Disk(); var c1 := Read(c, ROOTDEV, s); var c2 := Read(c1, ROOTDEV, t);
            var i := Slot(c, ROOTDEV, s); var j := Slot(c1, ROOTDEV, t);
            && 0 <= i < NBUF && 0 <= j < NBUF && i != j
            && Coherent(c2, d, {}, {}) && c2.hist == c.hist && OnlyHeld(c2, {i, j})
            && c2.bufs[i].data == d[s] && c2.bufs[j].blockno == t
  {
    hide Coherent, Read, Slot;
    assert OnlyHeld(c, {-1});
    ReadNext(c, -1, s);
    var i := Slot(c, ROOTDEV, s);
    var c1 := Read(c, ROOTDEV, s);
    assert OnlyHeld(c1, {i});
    ReadNext(c1, i, t);
  }

  lemma CopyHomeRecovering(g: Geometry, c: Cache, h: seq<nat>, tail: nat)
    requires g.Ok() && c.Shaped() && |c.Disk()| == g.blocks && DistinctHomes(g, h) && tail < |h| && Clean(c)
    ensures var r := CopyHome(g, c, h, tail, true); var d := c.Disk();
            Clean(r) && r.hist == c.hist + [d[h[tail] := d[LogBlock(g, tail)]]]
  {
    var d, t := c.Disk(), LogBlock(g, tail);
    assert g.Home(h[tail]) && h[tail] != t < g.blocks;
    hide Coherent, Clean, Read, Slot, Fill, Write, Release, DistinctHomes;
    ReadPair(c, t, h[tail]);
    var c1 := Read(c, ROOTDEV, t);
    var c2 := Read(c1, ROOTDEV, h[tail]);
    var lb, db := Slot(c, ROOTDEV, t), Slot(c1, ROOTDEV, h[tail]);
    StoreOk(c2, d, {}, db, d[t]);
    ReleaseBoth(Write(Fill(c2, db, d[t]), db), d[h[tail] := d[t]], lb, db);
  }

  lemma ReleaseBoth(c: Cache, d: Disk, i: int, j: int)
    requires c.Shaped() && Coherent(c, d, {}, {}) && c.Disk() == d && 0 <= i < NBUF && 0 <= j < NBUF && i != j
    requires OnlyHeld(c, {i, j})
    ensures var r := Release(Release(c, i), j); Clean(r) && r.hist == c.hist
  {
    hide Coherent, Release;
    ReleaseOk(c, d, {}, {}, i);
    ReleaseOk(Release(c, i), d, {}, {}, j);
  }

  lemma FreeWhenIdle(c: Cache, held: int)
    requires c.Shaped() && Coherent(c, c.Disk(), {}, {})
    requires forall i :: 0 <= i < NBUF && i != held ==> !c.bufs[i].locked
    ensures HasFree(c)
  {
    assert c.bufs[if held == 0 then 1 else 0].refcnt == 0;
  }

  lemma {:induction false} InstallRecovering(g: Geometry, c: Cache, h: seq<nat>, k: nat)
    requires g.Ok() && c.Shaped() && |c.Disk()| == g.blocks && DistinctHomes(g, h) && k <= |h| && Clean(c)
    ensures var r := Install(g, c, h, k, true); var d := c.Disk();
            && Clean(r) && |r.hist| == |c.hist| + k && r.hist[..|c.hist|] == c.hist
            && forall j :: 0 <= j <= k ==> r.hist[|c.hist| - 1 + j] == Replay(g, d, h, j)
  {
    hide Clean, CopyHome;
    if k > 0 {
      InstallRecovering(g, c, h, k - 1);
      var p := Install(g, c, h, k - 1, true);
      assert p.Disk() == Replay(g, c.Disk(), h, k - 1);
      CopyHomeRecovering(g, p, h, k - 1);
    }
  }

  /** recover_from_log walks the disk through `Replay` and ends in `Recovered`. */
  lemma RecoverOk(g: Geometry, c: Cache)
    requires c.Shaped() && WellFormed(g, c.Disk()) && Clean(c)
    ensures var r := Recover(g, c); var d := c.Disk(); var h := Header(d[g.start]);
            && Clean(r) && |r.hist| == |c.hist| + |h| + 1 && r.hist[..|c.hist|] == c.hist
            && r.Disk() == Recovered(g, d)
            && forall j :: 0 <= j <= |h| ==> r.hist[|c.hist| - 1 + j] == Replay(g, d, h, j)
  {
    hide Clean, ReadHead, Install, WriteHead, Replay;
    var d, h := c.Disk(), Header(c.Disk()[g.start]);
    ReadHeadOk(g, c);
    var c1 := ReadHead(g, c).0;
    InstallRecovering(g, c1, h, |h|);
    var c2 := Install(g, c1, h, |h|, true);
    assert c2.Disk() == c2.hist[|c1.hist| - 1 + |h|] == Replay(g, d, h, |h|);
    CleanHead(g, c2);
  }

  lemma ReadHeadOk(g: Geometry, c: Cache)
    requires c.Shaped() && g.start < |c.Disk()| && Clean(c)
    ensures var (r, h) := ReadHead(g, c); Clean(r) && r.hist == c.hist && h == Header(c.Disk()[g.start])
  {
    FreeWhenIdle(c, -1);
    hide Coherent, Slot, Read, Release;
    var d, i, c1 := c.Disk(), Slot(c, ROOTDEV, g.start), Read(c, ROOTDEV, g.start);
    ReadOk(c, d, {}, {}, g.start);
    ReleaseOk(c1, d, {}, {}, i);
  }

  /** Every disk state on the way is one that recovery itself can restart from. */
  lemma RecoverStates(g: Geometry, c: Cache, t: nat)
    requires c.Shaped() && WellFormed(g, c.Disk()) && Clean(c)
    requires |c.hist| - 1 <= t < |Recover(g, c).hist|
    ensures RecoveryState(g, c.Disk(), Recover(g, c).hist[t])
  {
    hide Clean, Recover, Replay, Recovered;
    RecoverOk(g, c);
    var r, d, j := Recover(g, c), c.Disk(), t - |c.hist| + 1;
    if j <= |Header(d[g.start])| {
      assert r.hist[|c.hist| - 1 + j] == Replay(g, d, Header(d[g.start]), j);
    } else {
      assert r.hist[t] == r.Disk();
    }
  }

  lemma CleanReady(g: Geometry, c: Cache)
    requires c.Shaped() && Clean(c)
    ensures Ready(g, c, [], c.Disk(), {})
  {
    FreeWhenIdle(c, -1);
  }

  lemma CleanHead(g: Geometry, c: Cache)
    requires g.Ok() && c.Shaped() && |c.Disk()| == g.blocks && Clean(c)
    ensures var r := WriteHead(g, c, []); var d := c.Disk();
            Clean(r) && r.hist == c.hist + [d[g.start := PutHeader(d[g.start], [])]]
  {
    hide Coherent, WriteHead, PutHeader;
    CleanReady(g, c);
    WriteHeadOk(g, c, [], [], c.Disk(), {});
  }

  // ---- log_write ----

  /** Cache and in-memory header (log.lh). */
  datatype Sys = Sys(c: Cache, lh: seq<nat>)

  function LogWriteStep(s: Sys, i: int): (r: Sys)
    requires s.c.Shaped() && 0 <= i < NBUF
    ensures r.c.Shaped()
  {
    var b := s.c.bufs[i].blockno;
    if b in s.lh then s else Sys(Pin(s.c, i), s.lh + [b])
  }
}
