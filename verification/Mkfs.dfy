/** mkfs/mkfs.c: the disk layout and the initial image. Blocks are handed out by a counter and
    the bitmap is written last; read as an image whose bitmap is the blocks handed out so far,
    every step is a kernel operation, so the image satisfies the kernel's invariant. */
module Mkfs {
  import opened Params
  import opened FsImage
  import opened MkfsSpace
  import F = FsFiles
  import RedoLog

  const NINODES := 200
  const IPB := BSIZE / 64                        // inodes per block
  const BPB := BSIZE * 8
  const nbitmap := FSSIZE / BPB + 1
  const ninodeblocks := NINODES / IPB + 1
  const nlog := LOGSIZE
  const nmeta := 2 + nlog + ninodeblocks + nbitmap
  const logstart := 2
  const inodestart := 2 + nlog
  const bmapstart := 2 + nlog + ninodeblocks

  const geometry := RedoLog.Geometry(logstart, nlog, FSSIZE)

  function Iblock(i: nat): (b: nat) { i / IPB + inodestart }
  function Bblock(b: nat): (r: nat) { b / BPB + bmapstart }

  /** The regions tile the metadata area in order; inodes, bitmap and data blocks are all blocks
      the log may carry, and a full log still leaves commit one buffer. */
  lemma LayoutOk(i: nat, b: nat)
    requires i < NINODES && b < FSSIZE
    ensures geometry.Ok() && geometry.Capacity() == NBUF - 1
    ensures inodestart <= Iblock(i) < bmapstart <= Bblock(b) < nmeta < FSSIZE
    ensures geometry.Home(Iblock(i)) && geometry.Home(Bblock(b))
    ensures b >= nmeta ==> geometry.Home(b)
  {
  }

  // ---- what mkfs is to build ----

  const ROOTINO := 1
  const T_DIR := 1
  const T_FILE := 2
  const DIRSIZ := 14
  const DIRENT := 2 + DIRSIZ

  /** A file named on the command line: its name in the image, and what each read of it returns. */
  datatype Input = Input(name: seq<byte>, chunks: seq<seq<byte>>)

  /** struct dirent: the inode number as a little-endian short, then the name, cut or filled up with zeros. */
  function Dirent(inum: nat, name: seq<byte>): (d: seq<byte>)
    ensures |d| == DIRENT
  {
    [inum % 0x100, inum / 0x100 % 0x100]
    + seq(DIRSIZ, k requires 0 <= k => if k < |name| then name[k] else 0)
  }

  function Flat(chunks: seq<seq<byte>>): (s: seq<byte>) {
    if chunks == [] then [] else Flat(chunks[..|chunks| - 1]) + chunks[|chunks| - 1]
  }

  const DOT: byte := 46

  /** The root directory after `.`, `..` and an entry for each file. */
  function Entries(files: seq<Input>): (s: seq<byte>)
    ensures |s| == DIRENT * (2 + |files|)
  {
    if files == [] then Dirent(ROOTINO, [DOT]) + Dirent(ROOTINO, [DOT, DOT])
    else Entries(files[..|files| - 1]) + Dirent(|files| + 1, files[|files| - 1].name)
  }

  /** What inode `i` is to hold: the root, then the files in order. */
  function Holds(files: seq<Input>, i: nat): (s: seq<byte>) {
    if i == ROOTINO then Entries(files) else if 2 <= i < 2 + |files| then Flat(files[i - 2].chunks) else []
  }

  function Laid(files: seq<Input>, ni: nat): (c: seq<seq<byte>>)
    ensures |c| == ni && forall i :: 0 <= i < ni ==> c[i] == Holds(files, i)
  {
    seq(ni, i requires 0 <= i => Holds(files, i))
  }

  /** The files fit an image of `size` blocks, `meta` of them metadata, and `ni` inodes. */
  predicate Fits(files: seq<Input>, size: nat, meta: nat, ni: nat) {
    && 2 + |files| <= ni && DIRENT * (2 + |files|) <= F.MAXBYTES
    && (forall k :: 0 <= k < |files| ==> |Flat(files[k].chunks)| <= F.MAXBYTES)
    && meta + Total(Laid(files, ni)) <= size && meta + Total(Laid(files, ni)) < BPB
  }

  /** What stat and namex find in a directory entry: the inode number, and the first 14 characters of the name. */
  predicate IsEntry(d: seq<byte>, inum: nat, name: seq<byte>) {
    && |d| == DIRENT && (var lo: int, hi: int := d[0], d[1]; lo + 0x100 * hi == inum)
    && (forall k :: 0 <= k < DIRSIZ ==> d[2 + k] == if k < |name| then name[k] else 0)
  }

  function EntryName(files: seq<Input>, k: nat): (name: seq<byte>)
    requires k < 2 + |files|
  {
    if k == 0 then [DOT] else if k == 1 then [DOT, DOT] else files[k - 2].name
  }

  /** Entry `k` of the root: itself twice, then the files in order, file `k - 2` in inode `k`. */
  lemma EntryAt(files: seq<Input>, k: nat)
    requires k < 2 + |files| <= 0x1_0000
    ensures IsEntry(Entries(files)[DIRENT * k..DIRENT * k + DIRENT], if k < 2 then ROOTINO else k, EntryName(files, k))
  {
    hide Dirent, IsEntry, Entries;
    EntrySlice(files, k);
    DirentOk(if k < 2 then ROOTINO else k, EntryName(files, k));
  }

  lemma {:induction false} EntrySlice(files: seq<Input>, k: nat)
    requires k < 2 + |files|
    ensures Entries(files)[DIRENT * k..DIRENT * k + DIRENT] ==
            Dirent(if k < 2 then ROOTINO else k, EntryName(files, k))
    decreases |files|
  {
    hide Dirent, Entries;
    var n := |files| - 1;
    if files == [] {
      DotEntries(k);
    } else {
      var was, d := Entries(files[..n]), Dirent(|files| + 1, files[n].name);
      LastEntry(files);
      if k < 2 + n {
        EntrySlice(files[..n], k);
        Before(was, d, DIRENT * k, DIRENT * k + DIRENT);
      } else {
        Behind(was, d);
      }
    }
  }

  lemma DotEntries(k: nat)
    requires k < 2
    ensures Entries([])[DIRENT * k..DIRENT * k + DIRENT] == Dirent(ROOTINO, if k == 0 then [DOT] else [DOT, DOT])
  {
    hide Dirent;
    var a, b := Dirent(ROOTINO, [DOT]), Dirent(ROOTINO, [DOT, DOT]);
    if k == 0 { Before(a, b, 0, DIRENT); } else { Behind(a, b); }
  }

  lemma LastEntry(files: seq<Input>)
    requires files != []
    ensures var n := |files| - 1; Entries(files) == Entries(files[..n]) + Dirent(|files| + 1, files[n].name)
  {
    hide Dirent;
  }

  lemma Behind(a: seq<byte>, b: seq<byte>)
    ensures (a + b)[|a|..|a| + |b|] == b
  {
  }

  lemma Before(a: seq<byte>, b: seq<byte>, lo: nat, hi: nat)
    requires lo <= hi <= |a|
    ensures (a + b)[lo..hi] == a[lo..hi] && (lo == 0 && hi == |a| ==> (a + b)[lo..hi] == a)
  {
  }

  lemma DirentOk(inum: nat, name: seq<byte>)
    requires inum < 0x1_0000
    ensures IsEntry(Dirent(inum, name), inum, name)
  {
  }

  lemma FitsEach(files: seq<Input>, size: nat, meta: nat, ni: nat, i: nat)
    requires Fits(files, size, meta, ni)
    ensures |Holds(files, i)| <= F.MAXBYTES
  {
  }

  /** `a` takes no more of the image than `b`. */
  ghost predicate Within(a: seq<seq<byte>>, b: seq<seq<byte>>) {
    |a| == |b| && forall i :: 0 <= i < |a| ==> |a[i]| <= |b[i]|
  }

  lemma {:induction false} TotalWithin(a: seq<seq<byte>>, b: seq<seq<byte>>)
    requires Within(a, b)
    ensures Total(a) <= Total(b)
  {
    hide Need;
    if a != [] {
      NeedGrows(|a[0]|, |b[0]| - |a[0]|);
      TotalWithin(a[1..], b[1..]);
    }
  }

  lemma {:induction false} FlatPart(chunks: seq<seq<byte>>, q: nat)
    requires q <= |chunks|
    ensures |Flat(chunks[..q])| <= |Flat(chunks)|
    decreases |chunks| - q
  {
    if q < |chunks| {
      FlatPart(chunks, q + 1);
      FlatNext(chunks, q);
    } else {
      assert chunks[..q] == chunks;
    }
  }

  lemma FlatNext(chunks: seq<seq<byte>>, q: nat)
    requires q < |chunks|
    ensures Flat(chunks[..q + 1]) == Flat(chunks[..q]) + chunks[q]
  {
    assert chunks[..q + 1][..q] == chunks[..q];
  }

  const EmptyFile := Dinode(T_FILE, 1, 0, F.NoAddrs)

  /** A zeroed disk with its metadata marked in use. */
  function Blank(size: nat, meta: nat, ni: nat): (f: Fs) {
    Fs(meta, Prefix(size, meta), seq(ni, _ => Dinode(0, 0, 0, F.NoAddrs)), seq(size, _ => Zero()))
  }

  lemma BlankPacked(size: nat, meta: nat, ni: nat)
    requires 0 < meta <= size <= WORD && F.Inv(Blank(size, meta, ni))
    ensures Packed(Blank(size, meta, ni), seq(ni, _ => []))
  {
    NothingNeeded(seq(ni, _ => []));
    hide Total, F.Inv;
    var f := Blank(size, meta, ni);
    forall i | 0 <= i < ni ensures Stored(f, i, []) {
      assert forall t :: 0 <= t < SLOTS ==> !Uses(0, t);
    }
  }

  lemma {:induction false} NothingNeeded(c: seq<seq<byte>>)
    requires forall i :: 0 <= i < |c| ==> c[i] == []
    ensures Total(c) == 0
  {
    if c != [] { NothingNeeded(c[1..]); }
  }

  class Image {
    const size: nat
    const meta: nat
    var freeinode: nat
    var freeblock: nat
    var inodes: seq<Dinode>
    var blocks: seq<Block>

    function View(): (f: Fs)
      reads this
    {
      Fs(meta, Prefix(size, freeblock), inodes, blocks)
    }

    /** Counters and contents: nothing at or above the counters has been used. */
    ghost predicate Valid()
      reads this
    {
      && 0 < meta <= freeblock <= size <= WORD && 1 <= freeinode && |blocks| == size
      && View().Shaped()
      && (forall b :: freeblock <= b < size ==> blocks[b] == Zero())
      && (forall i :: freeinode <= i < |inodes| ==> inodes[i].kind == 0)
      && (forall i :: 1 <= i < freeinode && i < |inodes| ==> inodes[i].kind != 0)
    }

    /** A zeroed disk: only metadata is in use. */
    constructor (n: nat, m: nat, ni: nat)
      requires 0 < m <= n <= WORD
      ensures Valid() && F.Inv(View()) && freeinode == 1 && size == n && meta == m && View() == Blank(n, m, ni)
    {
      size, meta, freeinode, freeblock := n, m, 1, m;
      inodes := seq(ni, _ => Dinode(0, 0, 0, F.NoAddrs));
      blocks := seq(n, _ => Zero());
    }

    /** mkfs ialloc: the next inode number, with one link. */
    method Ialloc(kind: nat) returns (inum: nat)
      requires Valid() && F.Inv(View()) && kind != 0 && freeinode < |inodes|
      modifies this
      ensures Valid() && F.Inv(View()) && freeinode == inum + 1
      ensures (View(), inum) == var (g, i) := F.Ialloc(old(View()), kind); (F.SetLinks(g, i, 1), i)
    {
      hide F.Inv;
      ghost var f := View();
      NextInode(f, freeinode, 1);
      F.IallocOk(f, kind);
      F.SetLinksOk(F.Ialloc(f, kind).0, freeinode, 1);
      inum := freeinode;
      freeinode := freeinode + 1;
      inodes := inodes[inum := Dinode(kind, 1, 0, F.NoAddrs)];
      assert inodes == f.inodes[inum := Dinode(kind, 0, 0, F.NoAddrs)][inum := Dinode(kind, 1, 0, F.NoAddrs)];
    }

    lemma {:induction false} NextInode(f: Fs, n: nat, from: nat)
      requires from <= n < |f.inodes| && f.inodes[n].kind == 0
      requires forall i :: from <= i < n ==> f.inodes[i].kind != 0
      ensures F.FindInode(f.inodes, from) == n
      decreases n - from
    {
      if from < n { NextInode(f, n, from + 1); }
    }

    /** The image with a copy of inode `inum` that has not been written back yet. */
    function With(inum: nat, din: Dinode): (f: Fs)
      reads this
      requires inum < |inodes|
    {
      Fs(meta, Prefix(size, freeblock), inodes[inum := din], blocks)
    }

    /** The address part of iappend's loop, which is bmap on this image. */
    method MapBlock(inum: nat, d: Dinode, fbn: nat) returns (din: Dinode, x: nat)
      requires Valid() && inum < |inodes| && |d.addrs| == NDIRECT + 1 && fbn < MAXFILE
      requires Owned(With(inum, d), {}) && FsImage.Bmap(With(inum, d), inum, fbn).1 != 0
      modifies this`freeblock, this`blocks
      ensures Valid() && |din.addrs| == NDIRECT + 1 && SameHead(d, din)
      ensures (With(inum, din), x) == FsImage.Bmap(old(With(inum, d)), inum, fbn)
    {
      hide Exclusive, Accounted, Ptr;
      Room(With(inum, d), inum, fbn);
      if fbn < NDIRECT {
        din := d;
        if din.addrs[fbn] == 0 {
          var b := TakeFor(inum, d);
          din := Dinode(d.kind, d.nlink, d.size, d.addrs[fbn := b]);
          assert inodes[inum := d][inum := din] == inodes[inum := din];
        }
        x := din.addrs[fbn];
      } else {
        F.IndirectOk(With(inum, d), inum);
        din := MapIndirect(inum, d);
        x := MapEntry(inum, din, fbn);
      }
    }

    method MapIndirect(inum: nat, d: Dinode) returns (din: Dinode)
      requires Valid() && inum < |inodes| && |d.addrs| == NDIRECT + 1
      requires d.addrs[NDIRECT] == 0 ==> FsImage.Balloc(With(inum, d)).1 != 0
      modifies this`freeblock
      ensures Valid() && |din.addrs| == NDIRECT + 1 && SameHead(d, din)
      ensures (With(inum, din), din.addrs[NDIRECT]) ==
              if d.addrs[NDIRECT] != 0 then (old(With(inum, d)), d.addrs[NDIRECT])
              else Grow(old(With(inum, d)), inum, NDIRECT)
    {
      din := d;
      if din.addrs[NDIRECT] == 0 {
        var b := TakeFor(inum, d);
        din := Dinode(d.kind, d.nlink, d.size, d.addrs[NDIRECT := b]);
        assert inodes[inum := d][inum := din] == inodes[inum := din];
      }
    }

    method MapEntry(inum: nat, din: Dinode, fbn: nat) returns (x: nat)
      requires Valid() && inum < |inodes| && |din.addrs| == NDIRECT + 1 && NDIRECT <= fbn < MAXFILE
      requires Owned(With(inum, din), {}) && din.addrs[NDIRECT] != 0
      requires Ptr(With(inum, din), inum, fbn + 1) == 0 ==> FsImage.Balloc(With(inum, din)).1 != 0
      modifies this`freeblock, this`blocks
      ensures Valid()
      ensures (With(inum, din), x) ==
              var g := old(With(inum, din));
              if Ptr(g, inum, fbn + 1) != 0 then (g, Ptr(g, inum, fbn + 1)) else Grow(g, inum, fbn + 1)
    {
      var ind := din.addrs[NDIRECT];
      Entry(With(inum, din), inum, fbn, ind);
      assert ind < freeblock;
      hide Exclusive, Accounted, PutWord, Word;
      x := Word(blocks[ind], fbn - NDIRECT);
      if x == 0 {
        x := TakeFor(inum, din);
        blocks := blocks[ind := PutWord(blocks[ind], fbn - NDIRECT, x)];
      }
    }

    /** `freeblock++` while a copy of inode `inum` is being changed. */
    method TakeFor(inum: nat, d: Dinode) returns (b: nat)
      requires Valid() && inum < |inodes| && |d.addrs| == NDIRECT + 1
      requires FsImage.Balloc(With(inum, d)).1 != 0
      modifies this`freeblock
      ensures Valid() && b == old(freeblock) && freeblock == b + 1
      ensures (With(inum, d), b) == FsImage.Balloc(old(With(inum, d)))
    {
      FirstFreePrefix(size, freeblock, 0);
      b := freeblock;
      freeblock := freeblock + 1;
      assert Prefix(size, b)[b := true] == Prefix(size, freeblock);
      assert blocks[b := Zero()] == blocks;
    }

    /** iappend: the kernel's writei at the end of the file, provided the image has room. */
    method Iappend(inum: nat, data: seq<byte>)
      requires Valid() && F.Inv(View()) && 1 <= inum < |inodes| && inodes[inum].kind != 0
      requires F.Writei(View(), inum, inodes[inum].size, data, |data|).1 == |data|
      modifies this`freeblock, this`inodes, this`blocks
      ensures Valid() && F.Inv(View())
      ensures View() == F.Writei(old(View()), inum, old(inodes)[inum].size, data, |data|).0
    {
      hide F.Wrote, F.WriteLoop, F.KeepsData, FsImage.Bmap, Exclusive, Accounted, F.Inv, Ptr;
      ghost var f, start := View(), inodes[inum].size;
      F.WriteiOk(f, inum, start, data, |data|);
      F.InvShaped(f);
      F.WroteNothing(f, inum, start, data);
      var din, off, tot := inodes[inum], inodes[inum].size, 0;
      assert inodes[inum := din] == inodes;
      while tot < |data|
        invariant 0 <= tot <= |data| && off == start + tot && Valid() && inodes == f.inodes
        invariant |din.addrs| == NDIRECT + 1 && SameHead(din, f.inodes[inum])
        invariant F.Wrote(f, With(inum, din), inum, start, data, tot)
        invariant F.WriteLoop(f, inum, start, data, 0, |data|) ==
                  F.WriteLoop(With(inum, din), inum, start, data, tot, |data|)
      {
        var n1;
        din, n1 := AppendPiece(inum, din, f, off - tot, data, tot);
        off, tot := off + n1, tot + n1;
      }
      F.WriteLoopEnd(With(inum, din), inum, start, data, |data|);
      inodes := inodes[inum := din.(size := off)];
      assert inodes == f.inodes[inum := din][inum := din.(size := off)];
    }

    /** One round of iappend's loop. */
    method AppendPiece(inum: nat, d: Dinode, ghost f: Fs, start: nat, data: seq<byte>, tot: nat)
      returns (din: Dinode, n1: nat)
      requires Valid() && F.Inv(f) && f.Shaped() && inum < |f.inodes| == |inodes| && |d.addrs| == NDIRECT + 1
      requires start == f.inodes[inum].size && start + |data| <= F.MAXBYTES && tot < |data|
      requires With(inum, d).Shaped() && F.Wrote(f, With(inum, d), inum, start, data, tot)
      requires F.WriteLoop(With(inum, d), inum, start, data, tot, |data|).1 == |data|
      modifies this`freeblock, this`blocks
      ensures Valid() && |din.addrs| == NDIRECT + 1 && SameHead(d, din) && 0 < n1 <= |data| - tot
      ensures F.Wrote(f, With(inum, din), inum, start, data, tot + n1)
      ensures F.WriteLoop(old(With(inum, d)), inum, start, data, tot, |data|) ==
              F.WriteLoop(With(inum, din), inum, start, data, tot + n1, |data|)
    {
      hide F.Wrote, F.WriteLoop, F.KeepsData, FsImage.Bmap, Accounted, F.Inv, Ptr;
      ghost var g := With(inum, d);
      var off := start + tot;
      F.WriteLoopStep(f, g, inum, start, data, tot, |data|);
      F.BmapOk(g, inum, off / BSIZE);
      var x;
      din, x := MapBlock(inum, d, off / BSIZE);
      F.WroteBmap(f, g, inum, start, data, tot, With(inum, din));
      F.WrotePiece(f, With(inum, din), inum, start, data, tot);
      var fbn := off / BSIZE;
      n1 := if |data| - tot < (fbn + 1) * BSIZE - off then |data| - tot else (fbn + 1) * BSIZE - off;
      assert n1 == F.Piece(|data| - tot, off);
      assert x < freeblock;
      PutBytes(inum, din, x, off % BSIZE, data[tot..tot + n1]);
    }

    /** Read a sector, overwrite part of it and write it back. */
    method PutBytes(inum: nat, din: Dinode, x: nat, o: nat, chunk: seq<byte>)
      requires Valid() && x < freeblock && o + |chunk| <= BSIZE && inum < |inodes| && |din.addrs| == NDIRECT + 1
      modifies this`blocks
      ensures Valid() && With(inum, din) == F.Poke(old(With(inum, din)), x, o, chunk)
    {
      blocks := blocks[x := blocks[x][..o] + chunk + blocks[x][o + |chunk|..]];
    }

    lemma Room(f: Fs, i: nat, bn: nat)
      requires Owned(f, {}) && i < |f.inodes| && bn < MAXFILE && FsImage.Bmap(f, i, bn).1 != 0
      ensures bn < NDIRECT && f.inodes[i].addrs[bn] == 0 ==> FsImage.Balloc(f).1 != 0
      ensures bn >= NDIRECT && f.inodes[i].addrs[NDIRECT] == 0 ==> FsImage.Balloc(f).1 != 0
    {
    }

    lemma Entry(g: Fs, i: nat, bn: nat, ind: nat)
      requires Owned(g, {}) && i < |g.inodes| && NDIRECT <= bn < MAXFILE && g.inodes[i].addrs[NDIRECT] == ind != 0
      ensures 0 < ind < |g.blocks| == |g.bits| && g.bits[ind]
      ensures Ptr(g, i, bn + 1) == Word(g.blocks[ind], bn - NDIRECT)
    {
      assert Ptr(g, i, NDIRECT) == ind;
    }

    /** The bitmap mkfs writes last is the one the image has had all along. */
    method WriteBitmap() returns (bits: seq<bool>)
      requires Valid() && freeblock < BPB
      ensures bits == View().bits
    {
      bits := seq(size, _ => false);
      for i := 0 to freeblock
        invariant |bits| == size && forall b :: 0 <= b < size ==> bits[b] == (b < i)
      {
        bits := bits[i := true];
      }
    }

    // ---- the run, on an image that is packed ----

    /** mkfs ialloc leaves the files as they are. */
    method NewInode(kind: nat, ghost c: seq<seq<byte>>) returns (inum: nat)
      requires Valid() && Packed(View(), c) && kind != 0 && freeinode < |inodes|
      modifies this
      ensures Valid() && Packed(View(), c) && inum == old(freeinode) && freeinode == inum + 1
      ensures |inodes| == old(|inodes|) && inodes == old(inodes)[inum := inodes[inum]] && inodes[inum].kind == kind
    {
      hide F.Inv, Stored;
      ghost var f, n := View(), freeinode;
      NextInode(f, n, 1);
      inum := Ialloc(kind);
      assert inum == n && inodes == f.inodes[n := Dinode(kind, 1, 0, F.NoAddrs)];
      assert View() == f.(inodes := f.inodes[n := Dinode(kind, 1, 0, F.NoAddrs)]);
      AllocPacked(f, c, n, kind, 1);
    }

    /** iappend on a packed image, towards files `laid` that fit. */
    method Append(inum: nat, data: seq<byte>, ghost c: seq<seq<byte>>, ghost laid: seq<seq<byte>>)
      requires Valid() && Packed(View(), c) && 1 <= inum < |inodes| && inodes[inum].kind != 0
      requires Within(c[inum := c[inum] + data], laid) && |laid[inum]| <= F.MAXBYTES && meta + Total(laid) <= size
      modifies this`freeblock, this`inodes, this`blocks
      ensures Valid() && Packed(View(), c[inum := c[inum] + data]) && |inodes| == old(|inodes|)
      ensures forall j :: 0 <= j < |inodes| ==> inodes[j].kind == old(inodes)[j].kind
    {
      hide F.Inv, Stored, F.Writei, Total;
      TotalWithin(c[inum := c[inum] + data], laid);
      assert |c[inum := c[inum] + data][inum]| <= |laid[inum]|;
      AppendPacked(View(), c, inum, data);
      Iappend(inum, data);
    }

    /** The kinds of the inodes in use: the root and `k` files. */
    ghost predicate Kinds(k: nat)
      reads this
    {
      && freeinode == 2 + k <= |inodes| && inodes[ROOTINO].kind == T_DIR
      && forall i :: 2 <= i < 2 + k ==> inodes[i].kind == T_FILE
    }

    /** The root directory with its first two entries. */
    method MakeRoot(ghost files: seq<Input>)
      requires Valid() && Packed(View(), seq(|inodes|, _ => [])) && freeinode == 1 && Fits(files, size, meta, |inodes|)
      modifies this
      ensures Valid() && Packed(View(), Laid([], |inodes|)) && |inodes| == old(|inodes|) && Kinds(0)
    {
      hide F.Inv, Packed, Total;
      ghost var c: seq<seq<byte>>, laid := seq(|inodes|, _ => []), Laid(files, |inodes|);
      FitsEach(files, size, meta, |inodes|, ROOTINO);
      assert |laid[ROOTINO]| >= 2 * DIRENT;
      var root := NewInode(T_DIR, c);
      var dot := Dirent(root, [DOT]);
      Append(root, dot, c, laid);
      assert [] + dot == dot;
      c := c[root := dot];
      Append(root, Dirent(root, [DOT, DOT]), c, laid);
      c := c[root := Entries([])];
      assert c == Laid([], |inodes|);
    }

    /** An inode for file `k` and its directory entry. */
    method AddEntry(files: seq<Input>, k: nat) returns (inum: nat)
      requires k < |files| && Valid() && Kinds(k) && Fits(files, size, meta, |inodes|)
      requires Packed(View(), Laid(files[..k], |inodes|))
      modifies this
      ensures Valid() && Kinds(k + 1) && |inodes| == old(|inodes|) && inum == k + 2
      ensures Packed(View(), Part(files, k, |inodes|, 0))
    {
      hide F.Inv, Packed, Total, Valid, Part, Flat;
      ghost var ni := |inodes|;
      inum := NewInode(T_FILE, Laid(files[..k], ni));
      FitsEach(files, size, meta, ni, ROOTINO);
      EntriesNext(files, k);
      Partly(files, k, ni, 0);
      PartNone(files, k, ni);
      Append(ROOTINO, Dirent(inum, files[k].name), Laid(files[..k], ni), Laid(files, ni));
    }

    /** The contents of file `k`, as they are read. */
    method CopyIn(files: seq<Input>, k: nat, inum: nat)
      requires k < |files| && Valid() && Kinds(k + 1) && Fits(files, size, meta, |inodes|) && inum == k + 2
      requires Packed(View(), Part(files, k, |inodes|, 0))
      modifies this`freeblock, this`inodes, this`blocks
      ensures Valid() && Kinds(k + 1) && |inodes| == old(|inodes|)
      ensures Packed(View(), Laid(files[..k + 1], |inodes|))
    {
      hide F.Inv, Packed, Total, Valid, Part, Flat, Laid;
      ghost var ni := |inodes|;
      FitsEach(files, size, meta, ni, inum);
      var chunks := files[k].chunks;
      for q := 0 to |chunks|
        invariant Valid() && Kinds(k + 1) && |inodes| == ni && Packed(View(), Part(files, k, ni, q))
      {
        Partly(files, k, ni, q + 1);
        PartNext(files, k, ni, q);
        Append(inum, chunks[q], Part(files, k, ni, q), Laid(files, ni));
      }
      PartAll(files, k, ni);
    }
  }

  /** What the inodes hold when file `k` has its entry and its first `q` reads. */
  function Part(files: seq<Input>, k: nat, ni: nat, q: nat): (c: seq<seq<byte>>)
    requires k < |files| && 2 + |files| <= ni && q <= |files[k].chunks|
    ensures |c| == ni
  {
    Laid(files[..k], ni)[ROOTINO := Entries(files[..k + 1])][k + 2 := Flat(files[k].chunks[..q])]
  }

  lemma EntriesNext(files: seq<Input>, k: nat)
    requires k < |files|
    ensures Entries(files[..k + 1]) == Entries(files[..k]) + Dirent(k + 2, files[k].name)
  {
    assert files[..k + 1][..k] == files[..k];
  }

  lemma Partly(files: seq<Input>, k: nat, ni: nat, q: nat)
    requires k < |files| && 2 + |files| <= ni && q <= |files[k].chunks|
    ensures Within(Part(files, k, ni, q), Laid(files, ni))
  {
    FlatPart(files[k].chunks, q);
    var a, b := Part(files, k, ni, q), Laid(files, ni);
    forall i | 0 <= i < ni ensures |a[i]| <= |b[i]| {
      assert b[i] == Holds(files, i) && Laid(files[..k], ni)[i] == Holds(files[..k], i);
    }
  }

  lemma PartNone(files: seq<Input>, k: nat, ni: nat)
    requires k < |files| && 2 + |files| <= ni
    ensures Part(files, k, ni, 0) == Laid(files[..k], ni)[ROOTINO := Entries(files[..k + 1])]
  {
    assert files[k].chunks[..0] == [];
    assert Laid(files[..k], ni)[k + 2] == [];
  }

  lemma PartNext(files: seq<Input>, k: nat, ni: nat, q: nat)
    requires k < |files| && 2 + |files| <= ni && q < |files[k].chunks|
    ensures var c := Part(files, k, ni, q); c[k + 2 := c[k + 2] + files[k].chunks[q]] == Part(files, k, ni, q + 1)
  {
    hide Flat;
    FlatNext(files[k].chunks, q);
  }

  lemma PartAll(files: seq<Input>, k: nat, ni: nat)
    requires k < |files| && 2 + |files| <= ni
    ensures Part(files, k, ni, |files[k].chunks|) == Laid(files[..k + 1], ni)
  {
    var a, b := Part(files, k, ni, |files[k].chunks|), Laid(files[..k + 1], ni);
    assert files[k].chunks[..|files[k].chunks|] == files[k].chunks;
    forall i | 0 <= i < ni ensures a[i] == b[i] {
      assert b[i] == Holds(files[..k + 1], i) && Laid(files[..k], ni)[i] == Holds(files[..k], i);
    }
  }

  // ---- rounding up the size of the root ----

  /** mkfs sets the size of the root directory to the next multiple of BSIZE strictly above it. */
  function FixRoot(f: Fs, i: nat): (r: Fs)
    requires f.Shaped() && i < |f.inodes|
    ensures r.Shaped() && |r.inodes| == |f.inodes|
  {
    F.SetSize(f, i, (f.inodes[i].size / BSIZE + 1) * BSIZE)
  }

  /** The rounded root keeps the invariant exactly when its last block has an address: that is, when its size
      was not already a multiple of BSIZE, or a block beyond its end was mapped all the same. */
  lemma FixRootOk(f: Fs, i: nat)
    requires F.Inv(f) && i < |f.inodes| && f.inodes[i].kind != 0
    ensures var size := f.inodes[i].size;
            F.Inv(FixRoot(f, i)) <==>
              size % BSIZE != 0 || (size < F.MAXBYTES && Ptr(f, i, Slot(size / BSIZE)) != 0)
  {
    hide Exclusive, Accounted, Ptr;
    var size := f.inodes[i].size;
    var last := size / BSIZE;
    var r := FixRoot(f, i);
    F.SetSizeAt(f, i, (last + 1) * BSIZE);
    F.SetSizeOwned(f, i, (last + 1) * BSIZE);
    assert F.SoundInode(f, i);
    if size == F.MAXBYTES || Ptr(f, i, Slot(last)) == 0 {
      assert size < F.MAXBYTES ==> !F.NoHoles(r, i, r.inodes[i].size);
      assert !F.SoundInode(r, i);
      assert size % BSIZE == 0;
    } else {
      forall j | 0 <= j < |r.inodes|
        ensures F.SoundInode(r, j)
      {
        assert F.SoundInode(f, j);
      }
    }
  }

  // ---- the run of mkfs ----

  /** A finished image of `n` files: inode `i` holds `c[i]` and then zeros, and has the blocks that takes; the size of
      the root is rounded up. */
  ghost predicate Finished(f: Fs, n: nat, c: seq<seq<byte>>) {
    && f.Shaped() && 2 + n <= |f.inodes| == |c|
    && (forall i :: 0 <= i < |c| ==>
          Stored(f, i, c[i]) && f.inodes[i].size == if i == ROOTINO then (|c[i]| / BSIZE + 1) * BSIZE else |c[i]|)
    && f.inodes[ROOTINO].kind == T_DIR && (forall i :: 2 <= i < 2 + n ==> f.inodes[i].kind == T_FILE)
    && f.meta + Total(c) <= |f.bits| && f.bits == Prefix(|f.bits|, f.meta + Total(c))
  }

  ghost predicate Built(f: Fs, files: seq<Input>) {
    Finished(f, |files|, Laid(files, |f.inodes|))
  }

  /** The root of a packed image has no block beyond its end, so the entries alone decide. */
  lemma RootRounds(f: Fs, files: seq<Input>)
    requires Packed(f, Laid(files, |f.inodes|)) && 2 + |files| <= |f.inodes| && f.inodes[ROOTINO].kind == T_DIR
    ensures F.Inv(FixRoot(f, ROOTINO)) <==> (2 + |files|) % 32 != 0
  {
    hide F.Inv, Total, Ptr, F.ByteAt, Uses, FixRoot;
    var s := Entries(files);
    assert Laid(files, |f.inodes|)[ROOTINO] == s && Stored(f, ROOTINO, s);
    FixRootOk(f, ROOTINO);
    if |s| < F.MAXBYTES { UsesOwn(|s|); }
  }

  /** A finished image satisfies the kernel's invariant exactly when the root directory, `.` and `..` and an entry
      for each file, does not end on a block boundary. */
  lemma BuiltOk(f: Fs, g: Fs, files: seq<Input>)
    requires Packed(f, Laid(files, |f.inodes|)) && 2 + |files| <= |f.inodes| && g == FixRoot(f, ROOTINO)
    requires f.inodes[ROOTINO].kind == T_DIR && forall i :: 2 <= i < 2 + |files| ==> f.inodes[i].kind == T_FILE
    ensures Built(g, files) && (F.Inv(g) <==> (2 + |files|) % 32 != 0)
  {
    RootRounds(f, files);
    hide F.Inv, Packed, Finished, Laid;
    FixRootFinishes(f, |files|, Laid(files, |f.inodes|));
  }

  lemma FixRootFinishes(f: Fs, n: nat, c: seq<seq<byte>>)
    requires Packed(f, c) && 2 + n <= |c|
    requires f.inodes[ROOTINO].kind == T_DIR && forall i :: 2 <= i < 2 + n ==> f.inodes[i].kind == T_FILE
    ensures Finished(FixRoot(f, ROOTINO), n, c)
  {
    hide F.Inv, Total, Stored;
    F.InvShaped(f);
    var g := FixRoot(f, ROOTINO);
    forall i | 0 <= i < |c| ensures Stored(g, i, c[i]) {
      StoredSized(f, ROOTINO, (f.inodes[ROOTINO].size / BSIZE + 1) * BSIZE, i, c[i]);
    }
  }

  lemma StoredSized(f: Fs, i: nat, n: nat, j: nat, s: seq<byte>)
    requires Stored(f, j, s) && i < |f.inodes|
    ensures Stored(F.SetSize(f, i, n), j, s)
  {
    hide Ptr, F.ByteAt, Uses;
    F.SetSizeAt(f, i, n);
  }

  lemma PrefixSame(size: nat, k: nat, n: nat)
    requires k <= size && n <= size && Prefix(size, k) == Prefix(size, n)
    ensures k == n
  {
    FirstFreePrefix(size, k, 0);
    FirstFreePrefix(size, n, 0);
  }

  lemma PackedUses(f: Fs, c: seq<seq<byte>>, k: nat)
    requires Packed(f, c) && k <= |f.bits| && f.bits == Prefix(|f.bits|, k)
    ensures k == f.meta + Total(c)
  {
    PrefixSame(|f.bits|, k, f.meta + Total(c));
  }

  /** mkfs, on files that fit. */
  method Mkfs(size: nat, meta: nat, ni: nat, files: seq<Input>) returns (img: Image, bits: seq<bool>)
    requires 0 < meta <= size <= WORD && Fits(files, size, meta, ni)
    ensures fresh(img) && |img.inodes| == ni && bits == img.View().bits && Built(img.View(), files)
    ensures F.Inv(img.View()) <==> (2 + |files|) % 32 != 0
  {
    hide F.Inv, Total, Stored, Built, Packed;
    img := new Image(size, meta, ni);
    BlankPacked(size, meta, ni);
    img.MakeRoot(files);
    assert files[..0] == [];
    for k := 0 to |files|
      invariant fresh(img) && img.size == size && img.meta == meta && |img.inodes| == ni && img.Valid() && img.Kinds(k)
      invariant Packed(img.View(), Laid(files[..k], ni))
    {
      var inum := img.AddEntry(files, k);
      img.CopyIn(files, k, inum);
    }
    assert files[..|files|] == files;
    ghost var f := img.View();
    var root := img.inodes[ROOTINO];
    img.inodes := img.inodes[ROOTINO := root.(size := (root.size / BSIZE + 1) * BSIZE)];
    BuiltOk(f, img.View(), files);
    PackedUses(f, Laid(files, ni), img.freeblock);
    bits := img.WriteBitmap();
  }

  /** With 30 files the image of mkfs breaks the invariant: byte 512 of the root has no block. */
  method ThirtyFiles() returns (img: Image)
    ensures fresh(img) && |img.inodes| == NINODES && img.View().Shaped() && !F.Inv(img.View())
    ensures img.inodes[ROOTINO].size == 2 * BSIZE && Ptr(img.View(), ROOTINO, 1) == 0
  {
    var files := seq(30, _ => Input([], []));
    ghost var c := Laid(files, NINODES);
    ghost var none: seq<seq<byte>> := seq(NINODES, _ => []);
    NothingNeeded(none);
    TotalUpdate(none, ROOTINO, Entries(files));
    assert c == none[ROOTINO := Entries(files)];
    var bits;
    img, bits := Mkfs(FSSIZE, nmeta, NINODES, files);
    hide Entries, Total;
    assert Stored(img.View(), ROOTINO, c[ROOTINO]);
  }
}
