/** Which blocks the code of kernel/fs.c passes to log_write, as functions of the image. */
module FsLogging {
  import opened Collections
  import opened Params
  import opened FsImage
  import F = FsFiles
  import Mkfs

  /** Blocks passed to log_write by balloc and the pointer update after it. */
  function GrowLogs(f: Fs, i: nat, s: nat): (r: set<nat>)
    requires f.Shaped() && i < |f.inodes| && s < SLOTS
  {
    var b := Balloc(f).1;
    if b == 0 then {}
    else {Mkfs.Bblock(b), b} + (if s > NDIRECT then {f.inodes[i].addrs[NDIRECT]} else {})
  }

  function BmapLogs(f: Fs, i: nat, bn: nat): (r: set<nat>)
    requires f.Shaped() && i < |f.inodes| && bn < MAXFILE
  {
    if bn < NDIRECT then
      if f.inodes[i].addrs[bn] != 0 then {} else GrowLogs(f, i, bn)
    else
      var (g, ind) := if f.inodes[i].addrs[NDIRECT] != 0 then (f, f.inodes[i].addrs[NDIRECT]) else Grow(f, i, NDIRECT);
      (if f.inodes[i].addrs[NDIRECT] != 0 then {} else GrowLogs(f, i, NDIRECT)) +
      (if ind == 0 || Ptr(g, i, bn + 1) != 0 then {} else GrowLogs(g, i, bn + 1))
  }

  /** Blocks logged by the loop of writei: those of bmap and each data block copied into. */
  function LoopLogs(f: Fs, i: nat, off: nat, data: seq<byte>, tot: nat, limit: nat): (r: set<nat>)
    requires f.Shaped() && i < |f.inodes| && off + |data| <= F.MAXBYTES && tot <= |data|
    decreases |data| - tot
  {
    if tot == |data| then {} else
    var pos := off + tot;
    var (g, a) := Bmap(f, i, pos / BSIZE);
    var m := F.Piece(|data| - tot, pos);
    BmapLogs(f, i, pos / BSIZE) +
    if a == 0 || tot + m > limit then {}
    else {a} + LoopLogs(F.Poke(g, a, pos % BSIZE, data[tot..tot + m]), i, off, data, tot + m, limit)
  }

  /** writei also logs the inode's block, whatever happened. */
  function WriteiLogs(f: Fs, i: nat, off: nat, data: seq<byte>, limit: nat): (r: set<nat>)
    requires f.Shaped() && i < |f.inodes|
  {
    if off > f.inodes[i].size || off + |data| >= WORD || off + |data| > F.MAXBYTES then {}
    else LoopLogs(f, i, off, data, 0, limit) + {Mkfs.Iblock(i)}
  }

  // ---- whatever changes is logged ----

  /** Every block, bit and inode in which `r` differs from `f` is in a block of `logs`. */
  ghost predicate Recorded(f: Fs, r: Fs, logs: set<nat>) {
    && DataRecorded(f, r, logs)
    && (forall j :: 0 <= j < |f.inodes| && r.inodes[j] != f.inodes[j] ==> Mkfs.Iblock(j) in logs)
  }

  ghost predicate DataRecorded(f: Fs, r: Fs, logs: set<nat>) {
    && r.meta == f.meta && |r.blocks| == |f.blocks| && |r.bits| == |f.bits| && |r.inodes| == |f.inodes|
    && (forall b :: 0 <= b < |f.blocks| && r.blocks[b] != f.blocks[b] ==> b in logs)
    && (forall b :: 0 <= b < |f.bits| && r.bits[b] != f.bits[b] ==> Mkfs.Bblock(b) in logs)
  }

  lemma DataRecordedTrans(f: Fs, g: Fs, r: Fs, a: set<nat>, b: set<nat>)
    requires DataRecorded(f, g, a) && DataRecorded(g, r, b)
    ensures DataRecorded(f, r, a + b)
  {
  }

  lemma RecordedTrans(f: Fs, g: Fs, r: Fs, a: set<nat>, b: set<nat>)
    requires Recorded(f, g, a) && Recorded(g, r, b)
    ensures Recorded(f, r, a + b)
  {
  }

  /** A new block and the pointer to it; that of a direct slot is in the inode, which its caller writes back. */
  lemma GrowRecorded(f: Fs, i: nat, s: nat)
    requires f.Shaped() && i < |f.inodes| && s < SLOTS
    ensures DataRecorded(f, Grow(f, i, s).0, GrowLogs(f, i, s))
    ensures s > NDIRECT ==> Grow(f, i, s).0.inodes == f.inodes
  {
    hide PutWord, Word;
  }

  /** bmap logs all it changes but its inode, and changes that exactly when a pointer in it is missing and the disk is
      not full. */
  lemma BmapRecorded(f: Fs, i: nat, bn: nat)
    requires Owned(f, {}) && i < |f.inodes| && bn < MAXFILE
    ensures DataRecorded(f, Bmap(f, i, bn).0, BmapLogs(f, i, bn))
    ensures Bmap(f, i, bn).0.inodes != f.inodes <==>
            f.inodes[i].addrs[if bn < NDIRECT then bn else NDIRECT] == 0 && !Full(f)
  {
    hide Exclusive, Accounted, Word, PutWord, Ptr, GrowLogs;
    var s := if bn < NDIRECT then bn else NDIRECT;
    var (r, a) := Bmap(f, i, bn);
    if f.inodes[i].addrs[s] == 0 { GrowInode(f, i, s); }
    GrowRecorded(f, i, s);
    if bn >= NDIRECT {
      hide Grow;
      var (g, ind) := if f.inodes[i].addrs[NDIRECT] != 0 then (f, f.inodes[i].addrs[NDIRECT]) else Grow(f, i, NDIRECT);
      GrowRecorded(g, i, bn + 1);
      DataRecordedTrans(f, g, r, if f.inodes[i].addrs[NDIRECT] != 0 then {} else GrowLogs(f, i, NDIRECT),
                        if ind == 0 || Ptr(g, i, bn + 1) != 0 then {} else GrowLogs(g, i, bn + 1));
    }
  }

  /** With its inode written back, bmap leaves nothing unlogged. */
  lemma BmapThenIupdate(f: Fs, i: nat, bn: nat)
    requires Owned(f, {}) && i < |f.inodes| && bn < MAXFILE
    ensures Recorded(f, Bmap(f, i, bn).0, BmapLogs(f, i, bn) + {Mkfs.Iblock(i)})
  {
    hide Exclusive, Accounted, Ptr, Bmap, BmapLogs;
    BmapRecorded(f, i, bn);
    F.BmapOk(f, i, bn);
  }

  /** A block for an empty slot of the inode changes the inode, unless there is none. */
  lemma GrowInode(f: Fs, i: nat, s: nat)
    requires Owned(f, {}) && i < |f.inodes| && s <= NDIRECT && f.inodes[i].addrs[s] == 0
    ensures Grow(f, i, s).0.inodes != f.inodes <==> !Full(f)
  {
    hide Exclusive, Ptr;
    var (g, b) := Balloc(f);
    if b != 0 {
      assert Grow(f, i, s).0.inodes[i].addrs[s] == b;
    } else {
      assert FirstFree(f.bits, 0) == |f.bits|;
    }
  }

  /** So what bmap itself logs is enough exactly when it leaves its inode alone. */
  lemma BmapNeedsIupdate(f: Fs, i: nat, bn: nat)
    requires Owned(f, {}) && i < |f.inodes| <= Mkfs.NINODES && bn < MAXFILE && Mkfs.bmapstart <= f.meta
    ensures Recorded(f, Bmap(f, i, bn).0, BmapLogs(f, i, bn)) <==>
            f.inodes[i].addrs[if bn < NDIRECT then bn else NDIRECT] != 0 || Full(f)
  {
    hide Exclusive, Accounted, Ptr, Bmap, BmapLogs;
    BmapRecorded(f, i, bn);
    BmapLogsAbove(f, i, bn);
    var r := Bmap(f, i, bn).0;
    F.BmapOk(f, i, bn);
    if r.inodes != f.inodes { assert r.inodes[i] != f.inodes[i]; }
  }

  /** bmap logs no block of inodes. */
  lemma BmapLogsAbove(f: Fs, i: nat, bn: nat)
    requires Owned(f, {}) && i < |f.inodes| <= Mkfs.NINODES && bn < MAXFILE && Mkfs.bmapstart <= f.meta
    ensures Mkfs.Iblock(i) !in BmapLogs(f, i, bn)
  {
    hide Exclusive, Accounted;
    assert Mkfs.Iblock(i) < Mkfs.bmapstart;
    if bn < NDIRECT {
      GrowLogsAbove(f, i, bn);
    } else {
      F.IndirectOk(f, i);
      GrowLogsAbove(f, i, NDIRECT);
      var (g, ind) := if f.inodes[i].addrs[NDIRECT] != 0 then (f, f.inodes[i].addrs[NDIRECT]) else Grow(f, i, NDIRECT);
      if ind != 0 { GrowLogsAbove(g, i, bn + 1); }
    }
  }

  lemma GrowLogsAbove(f: Fs, i: nat, s: nat)
    requires Owned(f, {}) && i < |f.inodes| && s < SLOTS && Mkfs.bmapstart <= f.meta
    requires s > NDIRECT ==> f.inodes[i].addrs[NDIRECT] != 0
    ensures forall b :: b in GrowLogs(f, i, s) ==> b >= Mkfs.bmapstart
  {
    if Balloc(f).1 != 0 { BallocOk(f); }
    F.IndirectPtr(f, i);
  }

  /** A first block for a file on a new image: the inode has changed and bmap has not logged it. */
  lemma BmapAlone()
    ensures var f := Mkfs.Blank(FSSIZE, Mkfs.nmeta, Mkfs.NINODES).(inodes := seq(Mkfs.NINODES, _ => Mkfs.EmptyFile));
            f.Shaped() && !Recorded(f, Bmap(f, 1, 0).0, BmapLogs(f, 1, 0))
  {
    var f := Mkfs.Blank(FSSIZE, Mkfs.nmeta, Mkfs.NINODES).(inodes := seq(Mkfs.NINODES, _ => Mkfs.EmptyFile));
    assert forall j, t :: 0 <= j < |f.inodes| && 0 <= t < SLOTS ==> Ptr(f, j, t) == 0;
    assert Owned(f, {});
    assert !f.bits[Mkfs.nmeta];
    BmapNeedsIupdate(f, 1, 0);
  }

  lemma {:induction false} LoopRecorded(f0: Fs, f: Fs, i: nat, off: nat, data: seq<byte>, tot: nat, limit: nat)
    requires F.Inv(f0) && f.Shaped() && |f.inodes| == |f0.inodes| && i < |f0.inodes|
    requires off <= f0.inodes[i].size && off + |data| <= F.MAXBYTES && tot <= |data|
    requires F.Wrote(f0, f, i, off, data, tot)
    ensures Recorded(f, F.WriteLoop(f, i, off, data, tot, limit).0,
                     LoopLogs(f, i, off, data, tot, limit) + {Mkfs.Iblock(i)})
    decreases |data| - tot
  {
    hide F.Wrote, Bmap, F.KeepsData, Exclusive, Accounted, F.Inv, F.Poke, Ptr, BmapLogs, Recorded, F.WriteLoop,
        LoopLogs;
    if tot == |data| {
      F.WriteLoopEnd(f, i, off, data, limit);
      NothingRecorded(f, {Mkfs.Iblock(i)});
      LoopLogsEnd(f, i, off, data, limit);
      assert {} + {Mkfs.Iblock(i)} == {Mkfs.Iblock(i)};
    } else {
      var pos, ib := off + tot, {Mkfs.Iblock(i)};
      F.WriteLoopStep(f0, f, i, off, data, tot, limit);
      LoopLogsStep(f, i, off, data, tot, limit);
      F.BmapOk(f, i, pos / BSIZE);
      BmapThenIupdate(f, i, pos / BSIZE);
      var (g, a) := Bmap(f, i, pos / BSIZE);
      F.WroteBmap(f0, f, i, off, data, tot, g);
      var m := F.Piece(|data| - tot, pos);
      if a != 0 && tot + m <= limit {
        F.WrotePiece(f0, g, i, off, data, tot);
        var h := F.Poke(g, a, pos % BSIZE, data[tot..tot + m]);
        PokeRecorded(g, a, pos % BSIZE, data[tot..tot + m]);
        var r := F.WriteLoop(h, i, off, data, tot + m, limit).0;
        var bl, ll := BmapLogs(f, i, pos / BSIZE), LoopLogs(h, i, off, data, tot + m, limit);
        LoopRecorded(f0, h, i, off, data, tot + m, limit);
        RecordedTrans(f, g, h, bl + ib, {a});
        RecordedTrans(f, h, r, bl + ib + {a}, ll + ib);
        assert bl + ib + {a} + (ll + ib) == bl + ({a} + ll) + ib;
      } else {
        assert BmapLogs(f, i, pos / BSIZE) + {} == BmapLogs(f, i, pos / BSIZE);
      }
    }
  }

  lemma NothingRecorded(f: Fs, logs: set<nat>)
    ensures Recorded(f, f, logs)
  {
  }

  lemma PokeRecorded(f: Fs, a: nat, o: nat, chunk: seq<byte>)
    requires f.Shaped() && o + |chunk| <= BSIZE
    ensures Recorded(f, F.Poke(f, a, o, chunk), {a})
  {
  }

  lemma RecordedMore(f: Fs, r: Fs, a: set<nat>, b: set<nat>)
    requires Recorded(f, r, a) && a <= b
    ensures Recorded(f, r, b)
  {
  }

  /** Only inode `i` changed. */
  lemma InodeRecorded(f: Fs, r: Fs, i: nat)
    requires i < |f.inodes| == |r.inodes| && r == f.(inodes := f.inodes[i := r.inodes[i]])
    ensures Recorded(f, r, {Mkfs.Iblock(i)})
  {
  }

  /** writei logs every block, bitmap block and inode that it changes. */
  lemma WriteiRecorded(f: Fs, i: nat, off: nat, data: seq<byte>, limit: nat)
    requires F.Inv(f) && i < |f.inodes|
    ensures Recorded(f, F.Writei(f, i, off, data, limit).0, WriteiLogs(f, i, off, data, limit))
  {
    hide F.Inv, F.WriteLoop, LoopLogs, Recorded, F.Wrote;
    F.InvShaped(f);
    if off <= f.inodes[i].size && off + |data| <= F.MAXBYTES {
      F.WroteNothing(f, i, off, data);
      LoopRecorded(f, f, i, off, data, 0, limit);
      var (g, n) := F.WriteLoop(f, i, off, data, 0, limit);
      var r := F.Writei(f, i, off, data, limit).0;
      var ll := LoopLogs(f, i, off, data, 0, limit) + {Mkfs.Iblock(i)};
      assert r == g.(inodes := g.inodes[i := r.inodes[i]]) by { assert g.inodes[i := g.inodes[i]] == g.inodes; }
      InodeRecorded(g, r, i);
      RecordedTrans(f, g, r, ll, {Mkfs.Iblock(i)});
      assert ll + {Mkfs.Iblock(i)} == ll;
    } else {
      NothingRecorded(f, {});
    }
  }

  /** The bitmap block, the indirect block and the file's own blocks from `lo` to `hi`. */
  ghost function Touched(f: Fs, i: nat, lo: nat, hi: nat): (r: set<nat>)
    requires f.Shaped() && i < |f.inodes| && hi < MAXFILE
  {
    {Mkfs.bmapstart, f.inodes[i].addrs[NDIRECT]} + set bn | lo <= bn <= hi :: Ptr(f, i, Slot(bn))
  }

  lemma GrowTouches(f: Fs, i: nat, s: nat)
    requires Owned(f, {}) && i < |f.inodes| && s < SLOTS && Ptr(f, i, s) == 0 && |f.bits| <= Mkfs.BPB
    requires s > NDIRECT ==> f.inodes[i].addrs[NDIRECT] != 0
    ensures var r := Grow(f, i, s).0;
            && GrowLogs(f, i, s) <= {Mkfs.bmapstart, Ptr(r, i, s), r.inodes[i].addrs[NDIRECT]}
            && 0 !in GrowLogs(f, i, s)
            && (s != NDIRECT ==> r.inodes[i].addrs[NDIRECT] == f.inodes[i].addrs[NDIRECT])
            && |r.bits| == |f.bits|
  {
    hide Exclusive, Accounted, Word, PutWord;
    GrowOk(f, i, s);
    var (r, b) := Grow(f, i, s);
    F.IndirectPtr(f, i);
    F.IndirectPtr(r, i);
    assert b != 0 ==> Mkfs.Bblock(b) == Mkfs.bmapstart;
  }

  /** bmap logs only the bitmap block, the indirect block and the block it returns. */
  lemma BmapTouches(f: Fs, i: nat, bn: nat)
    requires Owned(f, {}) && i < |f.inodes| && bn < MAXFILE && |f.bits| <= Mkfs.BPB
    ensures var (r, a) := Bmap(f, i, bn);
            && BmapLogs(f, i, bn) <= {Mkfs.bmapstart, a, r.inodes[i].addrs[NDIRECT]} && 0 !in BmapLogs(f, i, bn)
            && (f.inodes[i].addrs[NDIRECT] != 0 ==> r.inodes[i].addrs[NDIRECT] == f.inodes[i].addrs[NDIRECT])
            && |r.bits| == |f.bits|
  {
    hide Exclusive, Accounted, Grow, GrowLogs;
    F.BmapOk(f, i, bn);
    if bn < NDIRECT {
      if Ptr(f, i, bn) == 0 { GrowTouches(f, i, bn); }
    } else {
      F.IndirectOk(f, i);
      F.IndirectPtr(f, i);
      if f.inodes[i].addrs[NDIRECT] == 0 { GrowTouches(f, i, NDIRECT); }
      var (g, ind) := if f.inodes[i].addrs[NDIRECT] != 0 then (f, f.inodes[i].addrs[NDIRECT]) else Grow(f, i, NDIRECT);
      if ind != 0 && Ptr(g, i, bn + 1) == 0 { GrowTouches(g, i, bn + 1); }
    }
  }

  /** Pointers of inode `i` that are set stay set. */
  ghost predicate Stable(f: Fs, r: Fs, i: nat) {
    && f.Shaped() && r.Shaped() && i < |f.inodes| == |r.inodes| && |r.bits| == |f.bits|
    && (f.inodes[i].addrs[NDIRECT] != 0 ==> r.inodes[i].addrs[NDIRECT] == f.inodes[i].addrs[NDIRECT])
    && (forall t :: 0 <= t < SLOTS && t != NDIRECT && Ptr(f, i, t) != 0 ==> Ptr(r, i, t) == Ptr(f, i, t))
  }

  /** One round logs only blocks that the final file still has at this position. */
  lemma RoundTouches(f: Fs, i: nat, bn: nat, r: Fs, lo: nat, hi: nat)
    requires Owned(f, {}) && i < |f.inodes| && lo <= bn <= hi < MAXFILE && |f.bits| <= Mkfs.BPB
    requires Stable(Bmap(f, i, bn).0, r, i)
    ensures Stable(f, r, i)
    ensures BmapLogs(f, i, bn) + (if Bmap(f, i, bn).1 == 0 then {} else {Bmap(f, i, bn).1}) <= Touched(r, i, lo, hi)
  {
    hide Exclusive, Accounted, Bmap, BmapLogs, Ptr;
    BmapTouches(f, i, bn);
    F.BmapOk(f, i, bn);
    var a := Bmap(f, i, bn).1;
    assert a != 0 ==> Ptr(r, i, Slot(bn)) == a;
  }

  lemma {:induction false} LoopTouches(f0: Fs, f: Fs, i: nat, off: nat, data: seq<byte>, tot: nat, limit: nat, hi: nat)
    requires F.Inv(f0) && f.Shaped() && |f.inodes| == |f0.inodes| && i < |f0.inodes|
    requires off <= f0.inodes[i].size && off + |data| <= F.MAXBYTES && tot <= |data| && |f.bits| <= Mkfs.BPB
    requires F.Wrote(f0, f, i, off, data, tot)
    requires hi < MAXFILE && (|data| > 0 ==> (off + |data| - 1) / BSIZE <= hi)
    ensures var r := F.WriteLoop(f, i, off, data, tot, limit).0;
            Stable(f, r, i) && LoopLogs(f, i, off, data, tot, limit) <= Touched(r, i, off / BSIZE, hi)
    decreases |data| - tot
  {
    hide F.Wrote, Bmap, F.KeepsData, Exclusive, Accounted, F.Inv, F.Poke, Ptr, BmapLogs, Touched;
    if tot < |data| {
      var pos := off + tot;
      var bn := pos / BSIZE;
      F.WriteLoopStep(f0, f, i, off, data, tot, limit);
      F.BmapOk(f, i, bn);
      BmapTouches(f, i, bn);
      var (g, a) := Bmap(f, i, bn);
      F.WroteBmap(f0, f, i, off, data, tot, g);
      var m := F.Piece(|data| - tot, pos);
      var r := F.WriteLoop(f, i, off, data, tot, limit).0;
      if a != 0 && tot + m <= limit {
        F.WrotePiece(f0, g, i, off, data, tot);
        F.PokeOk(g, i, bn, pos % BSIZE, data[tot..tot + m]);
        LoopTouches(f0, F.Poke(g, a, pos % BSIZE, data[tot..tot + m]), i, off, data, tot + m, limit, hi);
      }
      assert Stable(g, r, i);
      RoundTouches(f, i, bn, r, off / BSIZE, hi);
    }
  }

  lemma {:induction false} RangeSize(f: Fs, i: nat, lo: nat, hi: nat)
    requires f.Shaped() && i < |f.inodes| && lo <= hi + 1 && hi < MAXFILE
    ensures |set bn | lo <= bn <= hi :: Ptr(f, i, Slot(bn))| <= hi + 1 - lo
    decreases hi + 1 - lo
  {
    hide Ptr;
    var s := set bn | lo <= bn <= hi :: Ptr(f, i, Slot(bn));
    if lo <= hi {
      RangeSize(f, i, lo + 1, hi);
      var t := set bn | lo + 1 <= bn <= hi :: Ptr(f, i, Slot(bn));
      assert s <= {Ptr(f, i, Slot(lo))} + t;
      SubsetSize(s, {Ptr(f, i, Slot(lo))} + t);
      UnionSize({Ptr(f, i, Slot(lo))}, t);
    } else {
      assert s == {};
    }
  }

  /** All that was logged besides `known` are bitmap blocks of a disk of `size` blocks. */
  ghost predicate Logs(known: set<nat>, logged: set<nat>, size: nat) {
    forall b :: b in logged && b !in known ==> exists c: nat :: c < size && b == Mkfs.Bblock(c)
  }

  /** itrunc on its way from `f` to `r`: the bits it cleared are logged, and only bitmap blocks are. */
  ghost predicate Freeing(f: Fs, r: Fs, before: set<nat>, logged: set<nat>) {
    before <= logged && Logs(before, logged, |f.bits|) && DataRecorded(f, r, logged)
  }

  lemma FreeingMore(f: Fs, r: Fs, before: set<nat>, logged: set<nat>, b: nat)
    requires Freeing(f, r, before, logged) && r.Shaped() && b < |r.bits|
    ensures Freeing(f, Bfree(r, b), before, logged + {Mkfs.Bblock(b)})
  {
  }

  lemma FreeingSame(f: Fs, r: Fs, g: Fs, before: set<nat>, logged: set<nat>)
    requires Freeing(f, r, before, logged) && g == r.(inodes := g.inodes) && |g.inodes| == |r.inodes|
    ensures Freeing(f, g, before, logged)
  {
  }

  /** iupdate at the end. */
  lemma FreeingDone(f: Fs, r: Fs, before: set<nat>, logged: set<nat>, i: nat)
    requires Freeing(f, r, before, logged) && i < |f.inodes| && r.inodes == f.inodes[i := r.inodes[i]]
    ensures Recorded(f, r, logged + {Mkfs.Iblock(i)})
    ensures Logs(before + {Mkfs.Iblock(i)}, logged + {Mkfs.Iblock(i)}, |f.bits|)
  {
  }

  /** One unfolding of the loop. */
  lemma LoopLogsStep(f: Fs, i: nat, off: nat, data: seq<byte>, tot: nat, limit: nat)
    requires f.Shaped() && i < |f.inodes| && off + |data| <= F.MAXBYTES && tot < |data|
    ensures var (g, a) := Bmap(f, i, (off + tot) / BSIZE); var m := F.Piece(|data| - tot, off + tot);
            LoopLogs(f, i, off, data, tot, limit) ==
              BmapLogs(f, i, (off + tot) / BSIZE) +
              if a == 0 || tot + m > limit then {}
              else {a} + LoopLogs(F.Poke(g, a, (off + tot) % BSIZE, data[tot..tot + m]), i, off, data, tot + m, limit)
  {
  }

  lemma LoopLogsEnd(f: Fs, i: nat, off: nat, data: seq<byte>, limit: nat)
    requires f.Shaped() && i < |f.inodes| && off + |data| <= F.MAXBYTES
    ensures LoopLogs(f, i, off, data, |data|, limit) == {}
  {
  }

  /** A block that is there is found without logging anything. */
  lemma FoundLogs(f: Fs, i: nat, bn: nat)
    requires f.Shaped() && i < |f.inodes| && bn < MAXFILE && Ptr(f, i, Slot(bn)) != 0
    ensures BmapLogs(f, i, bn) == {}
  {
  }

  lemma UnionSize(a: set<nat>, b: set<nat>)
    ensures |a + b| <= |a| + |b|
  {
    assert |a + b| == |a| + |b| - |a * b|;
  }

  lemma NothingLogged(f: Fs, i: nat, off: nat, limit: nat)
    requires f.Shaped() && i < |f.inodes|
    ensures WriteiLogs(f, i, off, [], limit) <= {Mkfs.Iblock(i)} && |WriteiLogs(f, i, off, [], limit)| <= 1
  {
    SubsetSize(WriteiLogs(f, i, off, [], limit), {Mkfs.Iblock(i)});
  }
}
