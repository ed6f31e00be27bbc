/** The log program (kernel/log.c): the loops over the in-memory header, working through
    the block cache, each proved to compute its function in module Transaction. */
module Log {
  import opened Params
  import opened BufferCache
  import opened RedoLog
  import Transaction
  import Ring = LruRing

  class LogState {
    const bc: Bcache
    const g: Geometry
    var n: nat                    // lh.n
    const block: array<nat>       // lh.block

    ghost predicate Valid()
      reads this, block, bc, bc.ring, bc.ring.next, bc.ring.prev, bc.buf
    {
      && bc.Valid() && g.Ok() && |bc.disk| == g.blocks
      && block.Length == LOGSIZE && n <= LOGSIZE
      && block !in bc.Repr() && this !in bc.Repr()
    }

    ghost function Lh(): (h: seq<nat>)
      reads this, block
      requires n <= block.Length
    {
      block[..n]
    }

    /** initlog: take over the cache and recover whatever the last run committed. */
    constructor (cache: Bcache, geometry: Geometry)
      requires cache.Valid() && WellFormed(geometry, cache.disk) && Transaction.Clean(cache.View())
      requires geometry.size - 1 <= LOGSIZE
      modifies cache.Repr()
      ensures Valid() && bc == cache && g == geometry && n == 0 && fresh(block)
      ensures bc.View() == Transaction.Recover(g, old(cache.View()))
      ensures bc.disk == Recovered(g, old(cache.disk))
    {
      bc, g, n := cache, geometry, 0;
      block := new nat[LOGSIZE](_ => 0);
      new;
      RecoverFromLog();
    }

    method RecoverFromLog()
      requires Valid() && WellFormed(g, bc.disk) && Transaction.Clean(bc.View()) && g.size - 1 <= LOGSIZE
      modifies bc.Repr(), this, block
      ensures Valid() && n == 0
      ensures bc.View() == Transaction.Recover(g, old(bc.View()))
      ensures bc.disk == Recovered(g, old(bc.disk))
    {
      hide Ring.Links, Ring.Distinct, Transaction.Clean, Transaction.WriteHead, Transaction.Install,
        Transaction.ReadHead, Replay, Recovered;
      ghost var c0 := bc.View();
      Transaction.RecoverOk(g, c0);
      Transaction.ReadHeadOk(g, c0);
      ReadHead();
      Transaction.InstallRecovering(g, bc.View(), Lh(), n);
      InstallRecovering();
      n := 0;
      assert Lh() == [];
      Transaction.CleanReady(g, bc.View());
      WriteHead(bc.disk, {}, []);
    }

    /** read_head: load the on-disk header into memory. */
    method ReadHead()
      requires Valid() && WellFormed(g, bc.disk) && Transaction.Clean(bc.View()) && g.size - 1 <= LOGSIZE
      modifies bc.Repr(), this, block
      ensures Valid() && (bc.View(), Lh()) == Transaction.ReadHead(g, old(bc.View()))
      ensures Lh() == Header(old(bc.disk)[g.start])
    {
      Transaction.FreeWhenIdle(bc.View(), -1);
      ReadOk(bc.View(), bc.disk, {}, {}, g.start);
      hide Ring.Links, Ring.Distinct, Slot, Read, Release, Coherent;
      var b := bc.Bread(ROOTDEV, g.start);
      LoadHeader(bc.buf[b].data);
      bc.Brelse(b);
    }

    /** The copying loop of read_head. */
    method LoadHeader(data: Block)
      requires block.Length == LOGSIZE && data[0] <= LOGSIZE
      modifies this`n, block
      ensures n <= LOGSIZE && block[..n] == Header(data)
    {
      n := data[0];
      for i := 0 to n
        invariant n == data[0] && forall j :: 0 <= j < i ==> block[j] == data[1 + j]
      {
        block[i] := data[1 + i];
      }
    }

    /** The copying loop of write_head. */
    method StoreHeader(was: Block) returns (data: Block)
      requires n <= block.Length && n < WORDS
      ensures data == PutHeader(was, block[..n])
    {
      data := was[0 := n];
      for i := 0 to n
        invariant |data| == WORDS && data[0] == n
        invariant forall j :: 0 <= j < i ==> data[1 + j] == block[j]
        invariant forall j :: i < j < WORDS ==> data[j] == was[j]
      {
        data := data[1 + i := block[i]];
      }
    }

    /** write_head: store the in-memory header; only its own words of the block change. */
    method WriteHead(ghost logical: Disk, ghost pins: set<nat>, ghost h: seq<nat>)
      requires Valid() && n < WORDS && |logical| == g.blocks
      requires Transaction.Ready(g, bc.View(), h, logical, pins) && forall p :: p in pins ==> g.Home(p)
      modifies bc.Repr()
      ensures Valid() && Lh() == old(Lh())
      ensures bc.View() == Transaction.WriteHead(g, old(bc.View()), Lh())
    {
      ReadOk(bc.View(), logical, pins, {}, g.start);
      hide Ring.Links, Ring.Distinct, Slot, Read, Release, Coherent, PutHeader;
      var b := bc.Bread(ROOTDEV, g.start);
      var data := StoreHeader(bc.buf[b].data);
      bc.Store(b, data);
      bc.Bwrite(b);
      bc.Brelse(b);
    }

    /** install_trans(1): copy logged blocks home at boot. */
    method InstallRecovering()
      requires Valid() && DistinctHomes(g, Lh()) && Transaction.Clean(bc.View())
      modifies bc.Repr()
      ensures Valid() && Lh() == old(Lh())
      ensures bc.View() == Transaction.Install(g, old(bc.View()), Lh(), n, true)
    {
      hide Ring.Links, Ring.Distinct, Transaction.Clean, Transaction.CopyHome, Readable;
      ghost var c0, h := bc.View(), Lh();
      var tail := 0;
      while tail < n
        invariant 0 <= tail <= n && Valid() && Lh() == h
        invariant bc.View() == Transaction.Install(g, c0, h, tail, true)
      {
        Transaction.InstallRecovering(g, c0, h, tail);
        assert g.Home(h[tail]);
        IdleSlots(bc.View(), g.start + tail + 1, h[tail]);
        CopyHome(tail, true);
        tail := tail + 1;
      }
    }

    /** install_trans(0): copy the transaction home and drop its pins. */
    method InstallTrans(ghost logical: Disk)
      requires Valid() && |logical| == g.blocks && DistinctHomes(g, Lh())
      requires Transaction.Ready(g, bc.View(), Lh(), logical, Transaction.Blocks(Lh()))
      requires forall i :: 0 <= i < n ==> logical[Transaction.LogBlock(g, i)] == logical[Lh()[i]]
      modifies bc.Repr()
      ensures Valid() && Lh() == old(Lh())
      ensures bc.View() == Transaction.Install(g, old(bc.View()), Lh(), n, false)
    {
      hide Ring.Links, Ring.Distinct, DistinctHomes, Transaction.Ready, Transaction.CopyHome, Readable;
      ghost var c0, h := bc.View(), Lh();
      var tail := 0;
      while tail < n
        invariant 0 <= tail <= n && Valid() && Lh() == h
        invariant bc.View() == Transaction.Install(g, c0, h, tail, false)
      {
        Transaction.InstallOk(g, c0, h, tail, logical);
        PinnedSlots(bc.View(), h, tail, logical);
        CopyHome(tail, false);
        tail := tail + 1;
      }
    }

    lemma IdleSlots(c: Cache, s: nat, t: nat)
      requires c.Shaped() && Transaction.Clean(c) && s != t && s < |c.Disk()| && t < |c.Disk()|
      ensures Readable(c, s, t, false)
    {
      Transaction.FreeWhenIdle(c, -1);
      ReadOk(c, c.Disk(), {}, {}, s);
      var c1 := Read(c, ROOTDEV, s);
      Transaction.FreeWhenIdle(c1, Slot(c, ROOTDEV, s));
      ReadOk(c1, c.Disk(), {}, {}, t);
    }

    lemma PinnedSlots(c: Cache, h: seq<nat>, tail: nat, logical: Disk)
      requires g.Ok() && c.Shaped() && |logical| == g.blocks && DistinctHomes(g, h) && tail < |h|
      requires Transaction.Ready(g, c, h, logical, Transaction.Blocks(h[tail..]))
      ensures Readable(c, Transaction.LogBlock(g, tail), h[tail], true)
    {
      var pins := Transaction.Blocks(h[tail..]);
      assert h[tail..][0] in pins;
      ReadOk(c, logical, pins, {}, Transaction.LogBlock(g, tail));
      ReadOk(Read(c, ROOTDEV, Transaction.LogBlock(g, tail)), logical, pins, {}, h[tail]);
    }

    lemma LoggedSlots(c: Cache, h: seq<nat>, tail: nat, logical: Disk)
      requires g.Ok() && c.Shaped() && |logical| == g.blocks && DistinctHomes(g, h) && tail < |h|
      requires Transaction.Ready(g, c, h, logical, Transaction.Blocks(h))
      ensures Readable(c, Transaction.LogBlock(g, tail), h[tail], true)
    {
      var pins := Transaction.Blocks(h);
      assert h[tail] in pins;
      ReadOk(c, logical, pins, {}, Transaction.LogBlock(g, tail));
      ReadOk(Read(c, ROOTDEV, Transaction.LogBlock(g, tail)), logical, pins, {}, h[tail]);
    }

    /** Reading block `s` and then block `t` neither sleeps nor panics; `t` may also be pinned. */
    ghost predicate Readable(c: Cache, s: nat, t: nat, pinned: bool)
      requires c.Shaped()
    {
      var i, c1 := Slot(c, ROOTDEV, s), Read(c, ROOTDEV, s);
      var j, c2 := Slot(c1, ROOTDEV, t), Read(c1, ROOTDEV, t);
      && 0 <= i < NBUF && 0 <= j < NBUF && s < |c.Disk()| && t < |c.Disk()|
      && !c.bufs[i].locked && !c1.bufs[j].locked
      && c2.bufs[i].locked && c2.bufs[j].locked && i != j
      && Holds(c2.bufs[i], ROOTDEV, s) && Holds(c2.bufs[j], ROOTDEV, t)
      && c2.bufs[i].refcnt > 0 && c2.bufs[j].refcnt > (if pinned then 1 else 0)
    }

    /** Body of the install_trans loop. */
    method CopyHome(tail: nat, recovering: bool)
      requires Valid() && tail < n
      requires Readable(bc.View(), Transaction.LogBlock(g, tail), block[tail], !recovering)
      modifies bc.Repr()
      ensures Valid() && Lh() == old(Lh())
      ensures bc.View() == Transaction.CopyHome(g, old(bc.View()), Lh(), tail, recovering)
    {
      hide Ring.Links, Ring.Distinct, Slot, Read, Release;
      var lbuf := bc.Bread(ROOTDEV, g.start + tail + 1);
      var dbuf := bc.Bread(ROOTDEV, block[tail]);
      bc.Store(dbuf, bc.buf[lbuf].data);
      bc.Bwrite(dbuf);
      if !recovering {
        bc.Bunpin(dbuf);
      }
      bc.Brelse(lbuf);
      bc.Brelse(dbuf);
    }

    /** write_log: copy every modified block from the cache to the log area. */
    method WriteLog(ghost logical: Disk)
      requires Valid() && |logical| == g.blocks && DistinctHomes(g, Lh())
      requires Transaction.Ready(g, bc.View(), Lh(), logical, Transaction.Blocks(Lh()))
      modifies bc.Repr()
      ensures Valid() && Lh() == old(Lh())
      ensures bc.View() == Transaction.WriteLog(g, old(bc.View()), Lh(), n)
    {
      hide Ring.Links, Ring.Distinct, Transaction.Ready, Transaction.CopyToLog, Readable;
      ghost var c0, h := bc.View(), Lh();
      var tail := 0;
      while tail < n
        invariant 0 <= tail <= n && Valid() && Lh() == h
        invariant bc.View() == Transaction.WriteLog(g, c0, h, tail)
      {
        Transaction.WriteLogOk(g, c0, h, tail, logical);
        LoggedSlots(bc.View(), h, tail, Transaction.Logged(g, logical, logical, h, tail));
        CopyToLog(tail);
        tail := tail + 1;
      }
    }

    /** Body of the write_log loop. */
    method CopyToLog(tail: nat)
      requires Valid() && tail < n && Readable(bc.View(), Transaction.LogBlock(g, tail), block[tail], true)
      modifies bc.Repr()
      ensures Valid() && Lh() == old(Lh())
      ensures bc.View() == Transaction.CopyToLog(g, old(bc.View()), Lh(), tail)
    {
      hide Ring.Links, Ring.Distinct, Slot, Read, Release;
      var to := bc.Bread(ROOTDEV, g.start + tail + 1);
      var from := bc.Bread(ROOTDEV, block[tail]);
      bc.Store(to, bc.buf[from].data);
      bc.Bwrite(to);
      bc.Brelse(from);
      bc.Brelse(to);
    }

    /** commit: log, header, home, header; nothing at all for an empty transaction. */
    method Commit(ghost logical: Disk)
      requires Valid() && |logical| == g.blocks && DistinctHomes(g, Lh())
      requires n > 0 ==> Transaction.Ready(g, bc.View(), Lh(), logical, Transaction.Blocks(Lh()))
      modifies bc.Repr(), this
      ensures Valid() && n == 0
      ensures bc.View() == Transaction.Commit(g, old(bc.View()), old(Lh()))
    {
      hide Ring.Links, Ring.Distinct, Transaction.Ready, Transaction.WriteLog, Transaction.WriteHead,
        Transaction.Install, Transaction.CommitPoint, Transaction.CommitState, WellFormed;
      if n > 0 {
        ghost var c0, h := bc.View(), Lh();
        Transaction.WriteLogOk(g, c0, h, n, logical);
        Transaction.ToCommitPoint(g, c0, h, logical);
        WriteLog(logical);
        WriteHead(Transaction.Logged(g, logical, logical, h, n), Transaction.Blocks(h), h);
        Finish(Transaction.CommitPoint(g, logical, logical, h));
      }
    }

    /** The part of commit after the commit point. */
    method Finish(ghost logical: Disk)
      requires Valid() && |logical| == g.blocks && DistinctHomes(g, Lh())
      requires Transaction.Ready(g, bc.View(), Lh(), logical, Transaction.Blocks(Lh()))
      requires forall i :: 0 <= i < n ==> logical[Transaction.LogBlock(g, i)] == logical[Lh()[i]]
      modifies bc.Repr(), this
      ensures Valid() && n == 0
      ensures bc.View() == Transaction.WriteHead(g,
                Transaction.Install(g, old(bc.View()), old(Lh()), |old(Lh())|, false), [])
    {
      hide Ring.Links, Ring.Distinct, Transaction.Ready, Transaction.WriteHead, Transaction.Install;
      ghost var h := Lh();
      Transaction.InstallOk(g, bc.View(), h, n, logical);
      InstallTrans(logical);
      n := 0;
      assert Lh() == [] && Transaction.Blocks(h[|h|..]) == {};
      WriteHead(logical, {}, h);
    }

    /** log_write: absorb a block already in the transaction, else append it and pin its buffer. */
    method LogWrite(b: int)
      requires Valid() && 0 <= b < NBUF && bc.buf[b].locked && n < g.Capacity()
      modifies this, block, bc.buf
      ensures Valid()
      ensures Transaction.Sys(bc.View(), Lh())
           == Transaction.LogWriteStep(Transaction.Sys(old(bc.View()), old(Lh())), b)
    {
      var i := 0;
      while i < n && block[i] != bc.buf[b].blockno
        invariant 0 <= i <= n && bc.buf[b].blockno !in block[..i]
      {
        i := i + 1;
      }
      ghost var h := Lh();
      assert i < n ==> h[i] in h;
      block[i] := bc.buf[b].blockno;
      if i == n {
        bc.Bpin(b);
        n := n + 1;
        assert Lh() == h + [bc.buf[b].blockno];
      } else {
        assert Lh() == h;
      }
    }
  }
}
