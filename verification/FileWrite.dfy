/** filewrite (kernel/file.c): a write split into transactions, and the number of distinct
    blocks each transaction logs. */
module FileWrite {
  import opened Collections
  import opened Params
  import opened FsImage
  import F = FsFiles
  import Mkfs
  import opened FsLogging
  import P = FsProgram

  /** ((MAXOPBLOCKS-1-1-2) / 2) * BSIZE */
  const MaxChunk := (MAXOPBLOCKS - 1 - 1 - 2) / 2 * BSIZE

  // ---- the chunk loop ----

  /** The loop of filewrite: how many bytes were written before it stopped. */
  function Chunks(f: Fs, i: nat, off: nat, data: seq<byte>, done: nat, limit: nat): (r: (Fs, nat))
    requires f.Shaped() && i < |f.inodes| && done <= |data|
    ensures r.0.Shaped() && |r.0.inodes| == |f.inodes|
    decreases |data| - done
  {
    if done == |data| then (f, done) else
    var n1 := if |data| - done > MaxChunk then MaxChunk else |data| - done;
    var (g, t) := F.Writei(f, i, off + done, data[done..done + n1], if limit > done then limit - done else 0);
    if t == n1 then Chunks(g, i, off, data, done + n1, limit)
    else (g, if t > 0 then done + t else done)
  }

  /** filewrite on an inode: everything was written, or -1. */
  function Filewrite(f: Fs, i: nat, off: nat, data: seq<byte>, limit: nat): (r: (Fs, int))
    requires f.Shaped() && i < |f.inodes|
  {
    var (g, t) := Chunks(f, i, off, data, 0, limit);
    (g, if t == |data| then |data| else -1)
  }

  /** Two splices in a row are one. */
  lemma SpliceTwice(was: seq<byte>, off: nat, data: seq<byte>, a: nat, b: nat)
    requires off <= |was| && a + b <= |data|
    ensures var w := F.Splice(was, off, data, a);
            off + a <= |w| && F.Splice(w, off + a, data[a..], b) == F.Splice(was, off, data, a + b)
  {
    hide F.Splice;
    var w := F.Splice(was, off, data, a);
    var l, r := F.Splice(w, off + a, data[a..], b), F.Splice(was, off, data, a + b);
    assert |l| == |r| && forall k :: 0 <= k < |l| ==> l[k] == r[k];
  }

  /** `r` is `f0` with the first `t` bytes of `data` in file `i` at `off`, and every other file as it was. */
  ghost predicate Holds(f0: Fs, r: Fs, i: nat, off: nat, data: seq<byte>, t: nat) {
    && F.Inv(f0) && F.Inv(r) && i < |f0.inodes| == |r.inodes| && t <= |data|
    && off <= f0.inodes[i].size <= F.MAXBYTES && r.inodes[i].size <= F.MAXBYTES
    && F.Bytes(r, i) == F.Splice(F.Bytes(f0, i), off, data, t)
    && forall j :: 0 <= j < |f0.inodes| && j != i ==> SameFile(f0, r, j)
  }

  ghost predicate SameFile(f: Fs, r: Fs, j: nat) {
    && f.Shaped() && r.Shaped() && j < |f.inodes| && j < |r.inodes| && r.inodes[j] == f.inodes[j]
    && f.inodes[j].size <= F.MAXBYTES && F.Bytes(r, j) == F.Bytes(f, j)
  }

  /** One chunk more. */
  lemma HoldsMore(f0: Fs, f: Fs, g: Fs, i: nat, off: nat, data: seq<byte>, done: nat, n: nat, t: nat)
    requires Holds(f0, f, i, off, data, done) && done + n <= |data| && t <= n
    requires f.inodes[i].kind != 0
    requires F.Inv(g) && |g.inodes| == |f.inodes| && g.inodes[i].size <= F.MAXBYTES
    requires off + done <= f.inodes[i].size
    requires F.Bytes(g, i) == F.Splice(F.Bytes(f, i), off + done, data[done..done + n], t)
    requires forall j :: 0 <= j < |f.inodes| && j != i ==> SameFile(f, g, j)
    ensures Holds(f0, g, i, off, data, done + t)
  {
    hide F.Inv, F.Bytes, F.Splice;
    F.InvShaped(f0);
    F.InvShaped(f);
    F.InvShaped(g);
    SpliceTwice(F.Bytes(f0, i), off, data, done, t);
    SplicePrefix(F.Bytes(f, i), off + done, data[done..], n, t);
    assert data[done..][..n] == data[done..done + n];
    forall j | 0 <= j < |f0.inodes| && j != i
      ensures SameFile(f0, g, j)
    {
      assert SameFile(f0, f, j) && SameFile(f, g, j);
    }
  }

  /** Cutting a write into chunks does not change what ends up in the file: the bytes written so far are one contiguous
      splice, and if they are not all, the file cannot be so big, the source cannot be read, or the disk is full. */
  lemma {:induction false} ChunksOk(f0: Fs, f: Fs, i: nat, off: nat, data: seq<byte>, done: nat, limit: nat)
    requires Holds(f0, f, i, off, data, done) && f.Shaped() && f.inodes[i].kind != 0
    ensures var (r, t) := Chunks(f, i, off, data, done, limit);
            && done <= t && Holds(f0, r, i, off, data, t)
            && (t < |data| && off + |data| <= F.MAXBYTES && |data| <= limit ==> Full(r))
            && (t == |data| > done ==> off + |data| <= F.MAXBYTES)
    decreases |data| - done
  {
    hide F.Inv, F.Writei, F.Bytes, F.Splice, Full;
    if done < |data| {
      var n1 := if |data| - done > MaxChunk then MaxChunk else |data| - done;
      var piece, l := data[done..done + n1], if limit > done then limit - done else 0;
      SizeOf(f0, f, i, off, data, done);
      F.WriteiOk(f, i, off + done, piece, l);
      F.InvShaped(f0);
      var (g, t) := F.Writei(f, i, off + done, piece, l);
      KindKept(f, i, off + done, piece, l);
      SizesOf(f);
      if t >= 0 { HoldsMore(f0, f, g, i, off, data, done, n1, t); }
      if t == n1 { ChunksOk(f0, g, i, off, data, done + n1, limit); }
    }
  }

  lemma SizeOf(f0: Fs, f: Fs, i: nat, off: nat, data: seq<byte>, done: nat)
    requires Holds(f0, f, i, off, data, done)
    ensures f.Shaped() && off + done <= f.inodes[i].size
  {
    hide F.Splice;
  }

  lemma SizesOf(f: Fs)
    requires F.Inv(f)
    ensures f.Shaped() && forall j :: 0 <= j < |f.inodes| ==> f.inodes[j].size <= F.MAXBYTES
  {
    F.SizesOk(f);
  }

  lemma SplicePrefix(was: seq<byte>, off: nat, data: seq<byte>, n: nat, t: nat)
    requires off <= |was| && t <= n <= |data|
    ensures F.Splice(was, off, data[..n], t) == F.Splice(was, off, data, t)
  {
    assert data[..n][..t] == data[..t];
  }

  lemma KindKept(f: Fs, i: nat, off: nat, data: seq<byte>, limit: nat)
    requires F.Inv(f) && i < |f.inodes|
    ensures |F.Writei(f, i, off, data, limit).0.inodes| == |f.inodes|
    ensures |F.Writei(f, i, off, data, limit).0.bits| == |f.bits|
    ensures F.Writei(f, i, off, data, limit).0.inodes[i].kind == f.inodes[i].kind
  {
    F.InvShaped(f);
    if off <= f.inodes[i].size && off + |data| <= F.MAXBYTES {
      F.WroteNothing(f, i, off, data);
      F.WriteLoopOk(f, f, i, off, data, 0, limit);
    }
  }

  /** What filewrite promises of its result and of the number `t` of bytes that it wrote: all of them and the length as
      the result, or fewer and -1; and fewer only if the file cannot be so big, the source cannot be read, the disk is
      full, or the offset was beyond the end, of a file that someone else has truncated. */
  ghost predicate Promised(f: Fs, r: Fs, ret: int, i: nat, off: nat, data: seq<byte>, t: nat, limit: nat) {
    && i < |f.inodes| && t <= |data| && ret == (if t == |data| then |data| else -1)
    && if off > f.inodes[i].size then r == f && t == 0
       else && Holds(f, r, i, off, data, t)
            && (t < |data| && off + |data| <= F.MAXBYTES && |data| <= limit ==> Full(r))
            && (off + |data| > F.MAXBYTES ==> t < |data|)
  }

  lemma FilewriteOk(f: Fs, i: nat, off: nat, data: seq<byte>, limit: nat)
    requires F.Inv(f) && f.Shaped() && i < |f.inodes| && f.inodes[i].kind != 0
    ensures var (r, ret) := Filewrite(f, i, off, data, limit); exists t :: Promised(f, r, ret, i, off, data, t, limit)
  {
    hide Promised, Chunks, F.Inv;
    FilewriteWrote(f, i, off, data, limit);
    var (r, ret) := Filewrite(f, i, off, data, limit);
    assert Promised(f, r, ret, i, off, data, Chunks(f, i, off, data, 0, limit).1, limit);
  }

  lemma FilewriteWrote(f: Fs, i: nat, off: nat, data: seq<byte>, limit: nat)
    requires F.Inv(f) && f.Shaped() && i < |f.inodes| && f.inodes[i].kind != 0
    ensures var (r, ret) := Filewrite(f, i, off, data, limit); var t := Chunks(f, i, off, data, 0, limit).1;
            Promised(f, r, ret, i, off, data, t, limit)
  {
    hide F.Inv, Full, Holds, Chunks;
    var (r, t) := Chunks(f, i, off, data, 0, limit);
    SizesOf(f);
    if off <= f.inodes[i].size {
      HoldsNothing(f, i, off, data);
      ChunksOk(f, f, i, off, data, 0, limit);
      HoldsBound(f, r, i, off, data, t);
    } else {
      BeyondEnd(f, i, off, data, limit);
    }
  }

  lemma HoldsBound(f: Fs, r: Fs, i: nat, off: nat, data: seq<byte>, t: nat)
    requires Holds(f, r, i, off, data, t)
    ensures t <= |data| && off <= F.MAXBYTES
  {
  }

  lemma HoldsNothing(f: Fs, i: nat, off: nat, data: seq<byte>)
    requires F.Inv(f) && i < |f.inodes| && off <= f.inodes[i].size
    ensures Holds(f, f, i, off, data, 0)
  {
    hide F.Inv;
    SizesOf(f);
    var b := F.Bytes(f, i);
    assert F.Splice(b, off, data, 0) == b;
  }

  lemma BeyondEnd(f: Fs, i: nat, off: nat, data: seq<byte>, limit: nat)
    requires f.Shaped() && i < |f.inodes| && off > f.inodes[i].size
    ensures Chunks(f, i, off, data, 0, limit) == (f, 0)
  {
  }

  /** struct file for an inode. */
  class File {
    const fs: P.FileSystem
    const inum: nat
    var off: nat

    constructor (fs: P.FileSystem, inum: nat)
      ensures this.fs == fs && this.inum == inum && off == 0
    {
      this.fs, this.inum, off := fs, inum, 0;
    }

    /** One transaction of filewrite. */
    method Transact(piece: seq<byte>, left: nat) returns (r: int)
      requires F.Inv(fs.View()) && inum < |fs.inodes| && fs.inodes[inum].kind != 0 && |piece| <= MaxChunk
      modifies fs
      ensures (fs.View(), r) == F.Writei(old(fs.View()), inum, off, piece, left) && -1 <= r <= |piece|
      ensures F.Inv(fs.View()) && fs.View().Shaped() && |fs.inodes| == |old(fs.inodes)| && |fs.bits| == |old(fs.bits)|
      ensures fs.inodes[inum].kind != 0 && (|fs.bits| <= Mkfs.BPB ==> |fs.logged| <= 10)
      ensures Recorded(old(fs.View()), fs.View(), fs.logged)
    {
      hide F.Inv, F.Writei, F.Bytes, F.Splice, WriteiLogs, Recorded;
      ghost var f := fs.View();
      F.InvShaped(f);
      F.WriteiOk(f, inum, off, piece, left);
      KindKept(f, inum, off, piece, left);
      fs.BeginOp();
      if |f.bits| <= Mkfs.BPB { ChunkFitsLog(f, inum, off, piece, left); }
      r := fs.Writei(inum, off, piece, left);
      F.InvShaped(fs.View());
    }

    /** filewrite: the offset advances by what was written, even when the result is -1. Every chunk is a transaction;
        `most` is the number of distinct blocks that the largest of them logged. */
    method Write(data: seq<byte>, limit: nat) returns (ret: int, ghost most: nat)
      requires F.Inv(fs.View()) && inum < |fs.inodes| && fs.inodes[inum].kind != 0
      modifies this, fs
      ensures (fs.View(), ret) == Filewrite(old(fs.View()), inum, old(off), data, limit)
      ensures old(off) <= off
      ensures Promised(old(fs.View()), fs.View(), ret, inum, old(off), data, off - old(off), limit)
      ensures |old(fs.bits)| <= Mkfs.BPB ==> most <= 10 < Mkfs.geometry.Capacity()
    {
      hide F.Inv, F.Writei, F.Bytes, F.Splice, WriteiLogs, Promised, Recorded;
      ghost var f, start := fs.View(), off;
      F.InvShaped(f);
      FilewriteWrote(f, inum, off, data, limit);
      var i, stop := 0, false;
      most := 0;
      while i < |data| && !stop
        invariant i <= |data| && |fs.inodes| == |f.inodes| && fs.View().Shaped()
        invariant !stop ==> F.Inv(fs.View()) && fs.inodes[inum].kind != 0 && off == start + i
        invariant Chunks(f, inum, start, data, 0, limit) ==
                  if stop then (fs.View(), off - start) else Chunks(fs.View(), inum, start, data, i, limit)
        invariant stop ==> off >= start && i < |data| && off - start < |data|
        invariant |fs.bits| == |f.bits| && (|f.bits| <= Mkfs.BPB ==> most <= 10)
        decreases |data| - i, !stop
      {
        var n1 := if |data| - i > MaxChunk then MaxChunk else |data| - i;
        var left := if limit > i then limit - i else 0;
        var r := Transact(data[i..i + n1], left);
        most := if |fs.logged| > most then |fs.logged| else most;
        if r > 0 { off := off + r; }
        if r != n1 { stop := true; } else { i := i + r; }
      }
      ret := if i == |data| then |data| else -1;
    }
  }

  // ---- what one chunk logs ----

  /** A chunk of filewrite logs at most ten distinct blocks, so in a log of `capacity` blocks that
      starts empty no log_write of it can panic with "too big a transaction". */
  lemma ChunkFitsLog(f: Fs, i: nat, off: nat, data: seq<byte>, limit: nat)
    requires F.Inv(f) && i < |f.inodes| && |f.bits| <= Mkfs.BPB && |data| <= MaxChunk
    ensures |WriteiLogs(f, i, off, data, limit)| <= 10 < Mkfs.geometry.Capacity()
  {
    hide F.Inv, LoopLogs, F.WriteLoop, Ptr;
    F.InvShaped(f);
    if off <= f.inodes[i].size && off + |data| <= F.MAXBYTES && |data| > 0 {
      var lo, hi := off / BSIZE, (off + |data| - 1) / BSIZE;
      F.WroteNothing(f, i, off, data);
      LoopTouches(f, f, i, off, data, 0, limit, hi);
      var r := F.WriteLoop(f, i, off, data, 0, limit).0;
      RangeSize(r, i, lo, hi);
      assert hi - lo <= 6;
      var own := set bn | lo <= bn <= hi :: Ptr(r, i, Slot(bn));
      var all := {Mkfs.bmapstart, r.inodes[i].addrs[NDIRECT], Mkfs.Iblock(i)} + own;
      SubsetSize(WriteiLogs(f, i, off, data, limit), all);
      UnionSize({Mkfs.bmapstart, r.inodes[i].addrs[NDIRECT], Mkfs.Iblock(i)}, own);
    } else if |data| == 0 {
      NothingLogged(f, i, off, limit);
    }
  }
}
