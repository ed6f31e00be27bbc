/** The loops of kernel/fs.c over the image, each proved to compute its function in module
    FsImage or FsFiles. A block freed twice, "freeing free block", is a failed precondition. */
module FsProgram {
  import opened Params
  import opened FsImage
  import F = FsFiles
  import Mkfs
  import opened FsLogging

  const BPB := BSIZE * 8      // bitmap bits per block

  class FileSystem {
    const meta: nat
    var bits: seq<bool>
    var inodes: seq<Dinode>
    var blocks: seq<Block>
    ghost var logged: set<nat>           // blocks passed to log_write in the transaction at hand

    function View(): (f: Fs)
      reads this
    {
      Fs(meta, bits, inodes, blocks)
    }

    constructor (f: Fs)
      requires f.Shaped()
      ensures View() == f && logged == {}
    {
      meta, bits, inodes, blocks := f.meta, f.bits, f.inodes, f.blocks;
      logged := {};
    }

    ghost method BeginOp()
      modifies this`logged
      ensures logged == {}
    {
      logged := {};
    }

    /** Scan the bitmap block by block, bit by bit. */
    method Balloc() returns (b: nat)
      requires View().Shaped()
      modifies this`bits, this`blocks, this`logged
      ensures (View(), b) == FsImage.Balloc(old(View()))
      ensures b != 0 ==> logged == old(logged) + {Mkfs.Bblock(b), b}
      ensures b == 0 && View() == old(View()) ==> logged == old(logged)
    {
      var base := 0;
      while base < |bits|
        invariant base % BPB == 0
        invariant FirstFree(bits, 0) >= if base < |bits| then base else |bits|
        invariant View() == old(View()) && logged == old(logged)
      {
        var bi := 0;
        while bi < BPB && base + bi < |bits|
          invariant 0 <= bi <= BPB
          invariant FirstFree(bits, 0) >= if base + bi < |bits| then base + bi else |bits|
          invariant View() == old(View()) && logged == old(logged)
        {
          if !bits[base + bi] {
            b := base + bi;
            bits := bits[b := true];
            logged := logged + {Mkfs.Bblock(b)};
            blocks := blocks[b := Zero()];
            logged := logged + {b};
            return;
          }
          bi := bi + 1;
        }
        base := base + BPB;
      }
      b := 0;
    }

    method Bfree(b: nat)
      requires View().Shaped() && b < |bits| && bits[b]
      modifies this`bits, this`logged
      ensures View() == FsImage.Bfree(old(View()), b) && logged == old(logged) + {Mkfs.Bblock(b)}
    {
      bits := bits[b := false];
      logged := logged + {Mkfs.Bblock(b)};
    }

    method Bmap(i: nat, bn: nat) returns (addr: nat)
      requires View().Shaped() && i < |inodes| && bn < MAXFILE
      requires Owned(View(), {})
      modifies this
      ensures (View(), addr) == FsImage.Bmap(old(View()), i, bn) && logged == old(logged) + BmapLogs(old(View()), i, bn)
      ensures Recorded(old(View()), View(), logged + {Mkfs.Iblock(i)})
    {
      BmapFound(i, bn);
      addr := Lookup(i, bn);
    }

    lemma BmapFound(i: nat, bn: nat)
      requires View().Shaped() && i < |inodes| && bn < MAXFILE && Owned(View(), {})
      ensures forall logs :: BmapLogs(View(), i, bn) <= logs ==>
                Recorded(View(), FsImage.Bmap(View(), i, bn).0, logs + {Mkfs.Iblock(i)})
    {
      hide FsImage.Bmap, BmapLogs, Recorded;
      BmapThenIupdate(View(), i, bn);
      forall logs | BmapLogs(View(), i, bn) <= logs
        ensures Recorded(View(), FsImage.Bmap(View(), i, bn).0, logs + {Mkfs.Iblock(i)})
      {
        RecordedMore(View(), FsImage.Bmap(View(), i, bn).0, BmapLogs(View(), i, bn) + {Mkfs.Iblock(i)},
                     logs + {Mkfs.Iblock(i)});
      }
    }

    /** The body of bmap. */
    method Lookup(i: nat, bn: nat) returns (addr: nat)
      requires View().Shaped() && i < |inodes| && bn < MAXFILE
      requires Owned(View(), {})
      modifies this
      ensures (View(), addr) == FsImage.Bmap(old(View()), i, bn) && logged == old(logged) + BmapLogs(old(View()), i, bn)
    {
      hide Exclusive, Accounted, Word, PutWord;
      ghost var f := View();
      if bn < NDIRECT {
        addr := inodes[i].addrs[bn];
        if addr == 0 {
          NoBlock();
          addr := Balloc();
          if addr == 0 { return; }
          inodes := inodes[i := inodes[i].(addrs := inodes[i].addrs[bn := addr])];
        }
        return;
      }
      var n := bn - NDIRECT;
      addr := inodes[i].addrs[NDIRECT];
      F.IndirectOk(f, i);
      if addr == 0 {
        NoBlock();
        addr := Balloc();
        if addr == 0 { return; }
        inodes := inodes[i := inodes[i].(addrs := inodes[i].addrs[NDIRECT := addr])];
      }
      IndirectEntry(i, n, addr);
      var ind := addr;
      addr := Word(blocks[ind], n);
      if addr == 0 {
        NoBlock();
        addr := Balloc();
        if addr != 0 {
          blocks := blocks[ind := PutWord(blocks[ind], n, addr)];
          logged := logged + {ind};
        }
      }
    }

    /** Block 0 is in use, so a result of 0 means that nothing was allocated. */
    lemma NoBlock()
      requires Owned(View(), {})
      ensures FsImage.Balloc(View()).1 == 0 ==> FsImage.Balloc(View()).0 == View()
    {
    }

    lemma IndirectEntry(i: nat, n: nat, ind: nat)
      requires View().Shaped() && i < |inodes| && n < NINDIRECT && Owned(View(), {})
      requires inodes[i].addrs[NDIRECT] == ind != 0
      ensures 0 < ind < |blocks| && Ptr(View(), i, n + NDIRECT + 1) == Word(blocks[ind], n)
    {
      assert Ptr(View(), i, NDIRECT) == ind;
    }

    /** writei: the returned count and the new image are those of FsFiles.Writei. */
    method Writei(i: nat, off: nat, data: seq<byte>, limit: nat) returns (t: int)
      requires F.Inv(View()) && i < |inodes|
      modifies this
      ensures (View(), t) == F.Writei(old(View()), i, off, data, limit)
      ensures logged == old(logged) + WriteiLogs(old(View()), i, off, data, limit)
      ensures Recorded(old(View()), View(), logged)
    {
      WriteiRecorded(View(), i, off, data, limit);
      t := WriteAll(i, off, data, limit);
      RecordedMore(old(View()), View(), WriteiLogs(old(View()), i, off, data, limit), logged);
    }

    /** The body of writei. */
    method WriteAll(i: nat, off: nat, data: seq<byte>, limit: nat) returns (t: int)
      requires F.Inv(View()) && i < |inodes|
      modifies this
      ensures (View(), t) == F.Writei(old(View()), i, off, data, limit)
      ensures logged == old(logged) + WriteiLogs(old(View()), i, off, data, limit)
    {
      hide F.WriteLoop, F.Inv, LoopLogs;
      F.InvShaped(View());
      if off > inodes[i].size || off + |data| >= WORD { return -1; }
      if off + |data| > MAXFILE * BSIZE { return -1; }
      t := WriteChunks(i, off, data, limit);
      if off + t > inodes[i].size {
        inodes := inodes[i := inodes[i].(size := off + t)];
      }
      logged := logged + {Mkfs.Iblock(i)};
    }

    /** The copying loop of writei. */
    method WriteChunks(i: nat, off: nat, data: seq<byte>, limit: nat) returns (tot: nat)
      requires View().Shaped() && F.Inv(View()) && i < |inodes|
      requires off <= inodes[i].size && off + |data| <= F.MAXBYTES
      modifies this
      ensures (View(), tot) == F.WriteLoop(old(View()), i, off, data, 0, limit)
      ensures logged == old(logged) + LoopLogs(old(View()), i, off, data, 0, limit)
    {
      hide F.Wrote, LoopLogs, BmapLogs, F.WriteLoop, F.KeepsData, FsImage.Bmap, Exclusive, Accounted, F.Inv, Ptr;
      ghost var f := View();
      F.WroteNothing(f, i, off, data);
      var stop := false;
      tot := 0;
      while tot < |data| && !stop
        invariant 0 <= tot <= |data| && View().Shaped() && |inodes| == |f.inodes|
        invariant !stop ==> F.Wrote(f, View(), i, off, data, tot)
        invariant F.WriteLoop(f, i, off, data, 0, limit) ==
                  if stop then (View(), tot) else F.WriteLoop(View(), i, off, data, tot, limit)
        invariant old(logged) + LoopLogs(f, i, off, data, 0, limit) ==
                  logged + if stop then {} else LoopLogs(View(), i, off, data, tot, limit)
        decreases |data| - tot, !stop
      {
        ghost var g := View();
        F.WriteLoopStep(f, g, i, off, data, tot, limit);
        LoopLogsStep(g, i, off, data, tot, limit);
        F.BmapOk(g, i, (off + tot) / BSIZE);
        var addr := Bmap(i, (off + tot) / BSIZE);
        F.WroteBmap(f, g, i, off, data, tot, View());
        var m := F.Piece(|data| - tot, off + tot);
        if addr == 0 || tot + m > limit {
          stop := true;
        } else {
          F.WrotePiece(f, View(), i, off, data, tot);
          Copyin(addr, (off + tot) % BSIZE, data[tot..tot + m]);
          logged := logged + {addr};
          tot := tot + m;
        }
      }
      if !stop {
        F.WriteLoopEnd(View(), i, off, data, limit);
        LoopLogsEnd(View(), i, off, data, limit);
      }
    }

    /** either_copyin into the buffer of block `a`. */
    method Copyin(a: nat, o: nat, chunk: seq<byte>)
      requires View().Shaped() && a < |blocks| && o + |chunk| <= BSIZE
      modifies this`blocks
      ensures View() == F.Poke(old(View()), a, o, chunk)
    {
      blocks := blocks[a := blocks[a][..o] + chunk + blocks[a][o + |chunk|..]];
    }

    /** readi: the slice and, though it calls bmap, the same image, with nothing to log. */
    method Readi(i: nat, off: nat, n: nat, limit: nat) returns (r: F.ReadResult)
      requires F.Inv(View()) && i < |inodes| && inodes[i].size <= F.MAXBYTES
      modifies this
      ensures (View(), r) == F.Readi(old(View()), i, off, n, limit)
      ensures View() == old(View()) && logged == old(logged)
    {
      hide F.Bytes, F.ReadLoop, Exclusive, Accounted, F.NoHoles;
      assert F.SoundInode(View(), i);
      F.ReadiOk(View(), i, off, n, limit);
      if off > inodes[i].size || off + n >= WORD { return F.Got([]); }
      r := ReadChunks(i, off, if off + n > inodes[i].size then inodes[i].size - off else n, limit);
    }

    /** The copying loop of readi. */
    method ReadChunks(i: nat, off: nat, n: nat, limit: nat) returns (r: F.ReadResult)
      requires Owned(View(), {}) && i < |inodes| && inodes[i].size <= F.MAXBYTES
      requires F.NoHoles(View(), i, inodes[i].size) && off + n <= inodes[i].size
      modifies this
      ensures View() == old(View()) && logged == old(logged)
      ensures r == if limit < n then F.Fault else F.Got(F.Bytes(View(), i)[off..off + n])
    {
      hide FsImage.Bmap, BmapLogs, Exclusive, Accounted, F.NoHoles, F.Bytes, Ptr;
      ghost var f := View();
      var got: seq<byte> := [];
      while |got| < n
        invariant |got| <= n && |got| <= limit && View() == f && logged == old(logged)
        invariant got == F.Bytes(f, i)[off..off + |got|]
      {
        var pos := off + |got|;
        var m := F.Piece(n - |got|, pos);
        F.ReadPiece(f, i, pos, m);
        F.AddressOf(f, i, inodes[i].size, pos);
        FoundLogs(f, i, pos / BSIZE);
        var addr := Bmap(i, pos / BSIZE);
        if |got| + m > limit { return F.Fault; }
        got := got + blocks[addr][pos % BSIZE..pos % BSIZE + m];
      }
      r := F.Got(got);
    }

    /** ialloc */
    method Ialloc(kind: nat) returns (inum: nat)
      requires View().Shaped() && |inodes| > 0
      modifies this`inodes, this`logged
      ensures (View(), inum) == F.Ialloc(old(View()), kind)
      ensures logged == old(logged) + if inum == 0 then {} else {Mkfs.Iblock(inum)}
      ensures Recorded(old(View()), View(), logged)
    {
      inum := 1;
      while inum < |inodes|
        invariant 1 <= inum <= |inodes| && View() == old(View()) && logged == old(logged)
        invariant F.FindInode(inodes, 1) == F.FindInode(inodes, inum)
      {
        if inodes[inum].kind == 0 {
          inodes := inodes[inum := Dinode(kind, 0, 0, F.NoAddrs)];
          logged := logged + {Mkfs.Iblock(inum)};
          return;
        }
        inum := inum + 1;
      }
      inum := 0;
    }

    /** itrunc: no bfree in either loop meets a clear bit, only bitmap blocks and the inode are logged, and all that
        changes is. */
    method Itrunc(i: nat)
      requires F.Inv(View()) && i < |inodes|
      modifies this
      ensures View() == F.Itrunc(old(View()), i)
      ensures old(logged) <= logged && Logs(old(logged) + {Mkfs.Iblock(i)}, logged, |bits|)
      ensures Recorded(old(View()), View(), logged)
    {
      hide Exclusive, Accounted, FsImage.Bfree, F.SoundInode, Freeing, Recorded, Logs, SetPtr;
      ghost var f := View();
      FreeingNone(f, logged);
      for k := 0 to NDIRECT
        invariant |inodes| == |f.inodes| && View() == F.TruncDirect(f, i, k) && Freeing(f, View(), old(logged), logged)
      {
        F.TruncDirectOk(f, i, k);
        if inodes[i].addrs[k] != 0 {
          DirectSet(i, k);
          FreeDirect(i, k, f, old(logged));
        }
      }
      F.TruncDirectOk(f, i, NDIRECT);
      var ind := inodes[i].addrs[NDIRECT];
      if ind != 0 { TruncIndirect(i, ind, f, old(logged)); }
      F.ItruncOk(f, i);
      ghost var g := View();
      inodes := inodes[i := inodes[i].(size := 0)];
      FreeingSame(f, g, View(), old(logged), logged);
      FreeingDone(f, View(), old(logged), logged, i);
      FreeingGrows(f, View(), old(logged), logged);
      logged := logged + {Mkfs.Iblock(i)};
    }

    /** One round of its first loop. */
    method FreeDirect(i: nat, k: nat, ghost f: Fs, ghost before: set<nat>)
      requires View().Shaped() && i < |inodes| && k < NDIRECT && inodes[i].addrs[k] < |bits| && bits[inodes[i].addrs[k]]
      requires Freeing(f, View(), before, logged)
      modifies this`bits, this`inodes, this`logged
      ensures |inodes| == |old(inodes)|
      ensures View() == SetPtr(FsImage.Bfree(old(View()), old(inodes)[i].addrs[k]), i, k, 0)
      ensures Freeing(f, View(), before, logged)
    {
      hide Freeing;
      FreeingMore(f, View(), before, logged, inodes[i].addrs[k]);
      Bfree(inodes[i].addrs[k]);
      ghost var g := View();
      inodes := inodes[i := inodes[i].(addrs := inodes[i].addrs[k := 0])];
      FreeingSame(f, g, View(), before, logged);
    }

    lemma FreeingNone(f: Fs, logs: set<nat>)
      ensures Freeing(f, f, logs, logs)
    {
    }

    lemma FreeingGrows(f: Fs, r: Fs, before: set<nat>, logs: set<nat>)
      requires Freeing(f, r, before, logs)
      ensures before <= logs && |r.bits| == |f.bits|
    {
    }

    lemma DirectSet(i: nat, s: nat)
      requires Owned(View(), {}) && i < |inodes| && s <= NDIRECT && inodes[i].addrs[s] != 0
      ensures inodes[i].addrs[s] < |bits| && bits[inodes[i].addrs[s]]
    {
      assert Ptr(View(), i, s) == inodes[i].addrs[s];
    }

    /** The indirect half of itrunc. */
    method TruncIndirect(i: nat, ind: nat, ghost f: Fs, ghost before: set<nat>)
      requires Owned(View(), {}) && i < |inodes| && ind == inodes[i].addrs[NDIRECT] != 0
      requires Freeing(f, View(), before, logged)
      modifies this
      ensures |old(inodes)| == |inodes| && ind < |old(blocks)|
      ensures Freeing(f, View(), before, logged)
      ensures View() ==
              SetPtr(FsImage.Bfree(F.FreeEntries(old(View()), old(blocks)[ind], NINDIRECT), ind), i, NDIRECT, 0)
    {
      ghost var g := View();
      F.IndirectPtrs(g, i);
      F.DetachIndirect(g, i);
      F.EntriesDistinct(g, i);
      hide Owned, Ptr, SetPtr, F.DistinctEntries, F.Entries, Word, Freeing;
      var a := blocks[ind];
      FreeListed(i, ind, a, f, before);
      EntrySet(g, i, a, ind, NINDIRECT);
      FreeingMore(f, View(), before, logged, ind);
      Bfree(ind);
      CutDirect(View(), i);
      ghost var h := View();
      inodes := inodes[i := inodes[i].(addrs := inodes[i].addrs[NDIRECT := 0])];
      FreeingSame(f, h, View(), before, logged);
    }

    /** The loop over the entries of the indirect block. */
    method FreeListed(i: nat, ind: nat, a: Block, ghost f: Fs, ghost before: set<nat>)
      requires View().Shaped() && i < |inodes|
      requires Owned(SetPtr(View(), i, NDIRECT, 0), {ind} + F.Entries(a, 0)) && F.DistinctEntries(a, ind)
      requires Freeing(f, View(), before, logged)
      modifies this`bits, this`logged
      ensures View() == F.FreeEntries(old(View()), a, NINDIRECT) && View().Shaped()
      ensures Freeing(f, View(), before, logged)
    {
      hide Owned, SetPtr, F.DistinctEntries, F.Entries, Word, Freeing;
      ghost var g := View();
      for j := 0 to NINDIRECT
        invariant View().Shaped() && View() == F.FreeEntries(g, a, j) && Freeing(f, View(), before, logged)
      {
        if Word(a, j) != 0 {
          EntrySet(g, i, a, ind, j);
          FreeingMore(f, View(), before, logged, Word(a, j));
          Bfree(Word(a, j));
        }
      }
    }

    lemma CutDirect(f: Fs, i: nat)
      requires f.Shaped() && i < |f.inodes|
      ensures SetPtr(f, i, NDIRECT, 0) ==
              Fs(f.meta, f.bits, f.inodes[i := f.inodes[i].(addrs := f.inodes[i].addrs[NDIRECT := 0])], f.blocks)
    {
    }

    /** Before round `j` the next block to free is still marked in use. */
    lemma EntrySet(g: Fs, i: nat, a: Block, ind: nat, j: nat)
      requires g.Shaped() && i < |g.inodes| && j <= NINDIRECT
      requires Owned(SetPtr(g, i, NDIRECT, 0), {ind} + F.Entries(a, 0)) && F.DistinctEntries(a, ind)
      ensures var e := F.FreeEntries(g, a, j); var b := if j == NINDIRECT then ind else Word(a, j);
              b != 0 ==> b < |e.bits| && e.bits[b]
    {
      F.FreeEntriesOk(SetPtr(g, i, NDIRECT, 0), a, ind, j);
      F.CutCommutes(g, i, a, j);
      var b := if j == NINDIRECT then ind else Word(a, j);
      assert b != 0 ==> b in {ind} + F.Entries(a, j);
    }

    /** A change of the link count and iupdate. */
    method Iupdate(i: nat, nlink: int)
      requires View().Shaped() && i < |inodes|
      modifies this`inodes, this`logged
      ensures View() == F.SetLinks(old(View()), i, nlink)
      ensures logged == old(logged) + {Mkfs.Iblock(i)} && Recorded(old(View()), View(), logged)
    {
      inodes := inodes[i := inodes[i].(nlink := nlink)];
      logged := logged + {Mkfs.Iblock(i)};
    }

    /** The freeing branch of iput. */
    method Ifree(i: nat)
      requires F.Inv(View()) && i < |inodes|
      modifies this
      ensures View() == F.Ifree(old(View()), i)
      ensures old(logged) <= logged && Recorded(old(View()), View(), logged)
    {
      hide F.Inv, F.Itrunc, Recorded, Logs;
      ghost var f := View();
      F.InvShaped(f);
      Itrunc(i);
      ghost var g := View();
      inodes := inodes[i := inodes[i].(kind := 0)];
      InodeRecorded(g, View(), i);
      RecordedTrans(f, g, View(), logged, {Mkfs.Iblock(i)});
      logged := logged + {Mkfs.Iblock(i)};
    }

    /** Any calls between begin_op and end_op: at the end the log has every block, bitmap block and inode in which the
        image differs from the one at begin_op. */
    method Transaction(ops: seq<F.Op>)
      requires F.Inv(View()) && View().Shaped() && F.RunAllowed(View(), ops)
      modifies this
      ensures View() == F.Run(old(View()), ops) && F.Inv(View()) && Recorded(old(View()), View(), logged)
    {
      hide F.Inv, F.Apply, F.Allowed, Recorded;
      BeginOp();
      ghost var f := View();
      NothingRecorded(f, {});
      assert ops[0..] == ops;
      for k := 0 to |ops|
        invariant F.Inv(View()) && View().Shaped() && F.RunAllowed(View(), ops[k..])
        invariant F.Run(View(), ops[k..]) == F.Run(f, ops) && Recorded(f, View(), logged)
      {
        assert ops[k..][0] == ops[k] && ops[k..][1..] == ops[k + 1..];
        ghost var g, was := View(), logged;
        F.ApplyKeepsInv(g, ops[k]);
        Do(ops[k]);
        F.InvShaped(View());
        RecordedTrans(f, g, View(), was, logged);
        assert was + logged == logged;
      }
    }

    /** One call. */
    method Do(op: F.Op)
      requires F.Inv(View()) && View().Shaped() && F.Allowed(View(), op)
      modifies this
      ensures View() == F.Apply(old(View()), op)
      ensures old(logged) <= logged && Recorded(old(View()), View(), logged)
    {
      hide F.Inv, F.Writei, F.Itrunc, F.Ialloc, F.Ifree, F.SetLinks, Recorded, WriteiLogs, Logs;
      match op
      case Write(i, off, data, limit) => var _ := Writei(i, off, data, limit);
      case Trunc(i) => Itrunc(i);
      case Alloc(kind) => var _ := Ialloc(kind);
      case Free(i) => Ifree(i);
      case Link(i, n) => Iupdate(i, n);
    }
  }
}
