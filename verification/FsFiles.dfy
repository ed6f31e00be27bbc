/** Files as byte sequences (kernel/fs.c): bmap, readi, writei, itrunc, ialloc and the
    freeing half of iput, on the image of module FsImage. */
module FsFiles {
  import opened Params
  import opened FsImage

  const MAXBYTES := MAXFILE * BSIZE

  /** Data blocks and their contents survive; only empty slots of inode `i` may be filled. */
  ghost predicate KeepsData(f: Fs, r: Fs, i: nat) {
    && f.Shaped() && r.Shaped() && i < |f.inodes|
    && r.meta == f.meta && |r.bits| == |f.bits| && |r.inodes| == |f.inodes|
    && r.inodes == f.inodes[i := r.inodes[i]] && SameHead(f.inodes[i], r.inodes[i])
    && (forall j, t :: 0 <= j < |f.inodes| && 0 <= t < SLOTS && t != NDIRECT && Ptr(f, j, t) != 0 ==>
          Ptr(r, j, t) == Ptr(f, j, t) < |f.blocks| && r.blocks[Ptr(f, j, t)] == f.blocks[Ptr(f, j, t)])
  }

  lemma GrownKeepsData(f: Fs, r: Fs, i: nat, s: nat, b: nat)
    requires Owned(f, {}) && r.Shaped() && i < |f.inodes| && s < SLOTS && Ptr(f, i, s) == 0 && Grown(f, r, i, s, b)
    ensures KeepsData(f, r, i)
  {
    hide Ptr, Accounted;
    forall j, t | 0 <= j < |f.inodes| && 0 <= t < SLOTS && t != NDIRECT && Ptr(f, j, t) != 0
      ensures Ptr(r, j, t) == Ptr(f, j, t) < |f.blocks| && r.blocks[Ptr(f, j, t)] == f.blocks[Ptr(f, j, t)]
    {
      var c := Ptr(f, j, t);
      assert f.bits[c];
      assert c != Ptr(f, i, NDIRECT);
    }
  }

  lemma KeepsDataRefl(f: Fs, i: nat)
    requires Owned(f, {}) && i < |f.inodes|
    ensures KeepsData(f, f, i)
  {
    hide Ptr, Accounted;
  }

  lemma KeepsDataTrans(f: Fs, g: Fs, r: Fs, i: nat)
    requires KeepsData(f, g, i) && KeepsData(g, r, i)
    ensures KeepsData(f, r, i)
  {
    hide Ptr;
  }

  /** bmap finds or adds the one block asked for and disturbs no other data; it fails only on
      a full disk. */
  lemma BmapOk(f: Fs, i: nat, bn: nat)
    requires Owned(f, {}) && i < |f.inodes| && bn < MAXFILE
    ensures var (r, a) := Bmap(f, i, bn);
            && Owned(r, {}) && KeepsData(f, r, i)
            && Ptr(r, i, Slot(bn)) == a
            && (a == 0 ==> Full(r))
            && (a != 0 ==> r.meta <= a < |r.blocks|)
            && (Ptr(f, i, Slot(bn)) != 0 ==> r == f)
  {
    assert KeepsData(f, f, i);
    var (r, a) := Bmap(f, i, bn);
    var s := Slot(bn);
    if Ptr(f, i, s) != 0 {
      assert r == f;
    } else if bn < NDIRECT {
      GrowOk(f, i, bn);
      if a != 0 { GrownKeepsData(f, r, i, bn, a); }
    } else {
      BmapIndirect(f, i, bn);
    }
  }

  lemma BmapIndirect(f: Fs, i: nat, bn: nat)
    requires Owned(f, {}) && i < |f.inodes| && NDIRECT <= bn < MAXFILE && Ptr(f, i, Slot(bn)) == 0
    ensures var (r, a) := Bmap(f, i, bn);
            && Owned(r, {}) && KeepsData(f, r, i) && Ptr(r, i, Slot(bn)) == a
            && (a == 0 ==> Full(r)) && (a != 0 ==> r.meta <= a < |r.blocks|)
  {
    hide Exclusive, Accounted, Grow;
    var (r, a) := Bmap(f, i, bn);
    var s := Slot(bn);
    IndirectOk(f, i);
    var g := (if f.inodes[i].addrs[NDIRECT] != 0 then (f, f.inodes[i].addrs[NDIRECT]) else Grow(f, i, NDIRECT)).0;
    KeepsDataRefl(g, i);
    if g.inodes[i].addrs[NDIRECT] != 0 {
      if Ptr(g, i, s) == 0 {
        GrowOk(g, i, s);
        if a != 0 { GrownKeepsData(g, r, i, s, a); }
        KeepsDataTrans(f, g, r, i);
      } else {
        PtrInRange(g, i, s);
      }
    }
  }

  lemma PtrInRange(f: Fs, i: nat, s: nat)
    requires Owned(f, {}) && i < |f.inodes| && s < SLOTS && Ptr(f, i, s) != 0
    ensures f.meta <= Ptr(f, i, s) < |f.blocks|
  {
  }

  lemma IndirectOk(f: Fs, i: nat)
    requires Owned(f, {}) && i < |f.inodes|
    ensures var (g, ind) := if f.inodes[i].addrs[NDIRECT] != 0 then (f, f.inodes[i].addrs[NDIRECT])
                            else Grow(f, i, NDIRECT);
            && Owned(g, {}) && KeepsData(f, g, i) && g.inodes[i].addrs[NDIRECT] == ind
            && (ind == 0 ==> g == f && Full(f))
  {
    assert KeepsData(f, f, i);
    assert Ptr(f, i, NDIRECT) == f.inodes[i].addrs[NDIRECT];
    if f.inodes[i].addrs[NDIRECT] == 0 {
      GrowOk(f, i, NDIRECT);
      var (g, ind) := Grow(f, i, NDIRECT);
      if ind != 0 { GrownKeepsData(f, g, i, NDIRECT, ind); }
      assert Ptr(g, i, NDIRECT) == ind;
    }
  }

  // ---- contents ----

  /** Byte `k` of inode `i`, 0 where no block is mapped. */
  function ByteAt(f: Fs, i: nat, k: nat): (b: byte)
    requires f.Shaped() && i < |f.inodes| && k < MAXBYTES
  {
    var p := Ptr(f, i, Slot(k / BSIZE));
    if 0 < p < |f.blocks| then f.blocks[p][k % BSIZE] else 0
  }

  /** The file: `size` bytes. */
  function Bytes(f: Fs, i: nat): (s: seq<byte>)
    requires f.Shaped() && i < |f.inodes| && f.inodes[i].size <= MAXBYTES
    ensures |s| == f.inodes[i].size
  {
    seq(f.inodes[i].size, k requires 0 <= k < f.inodes[i].size => ByteAt(f, i, k))
  }

  /** Every file block that starts below byte `n` has an address. */
  ghost predicate NoHoles(f: Fs, i: nat, n: nat)
    requires f.Shaped() && i < |f.inodes|
  {
    forall bn :: 0 <= bn < MAXFILE && bn * BSIZE < n ==> Ptr(f, i, Slot(bn)) != 0
  }

  ghost predicate SoundInode(f: Fs, i: nat)
    requires f.Shaped() && i < |f.inodes|
  {
    var d := f.inodes[i];
    && d.size <= MAXBYTES && NoHoles(f, i, d.size)
    && (d.kind == 0 ==> d.size == 0 && forall s :: 0 <= s <= NDIRECT ==> d.addrs[s] == 0)
  }

  /** What every file-system call keeps: ownership, no holes, free inodes empty. */
  ghost predicate Inv(f: Fs) {
    Owned(f, {}) && forall i :: 0 <= i < |f.inodes| ==> SoundInode(f, i)
  }

  // ---- writei ----

  /** Overwrite part of one block. */
  function Poke(f: Fs, a: nat, o: nat, chunk: seq<byte>): (r: Fs)
    requires f.Shaped() && o + |chunk| <= BSIZE
    ensures r.Shaped() && |r.inodes| == |f.inodes|
  {
    if a >= |f.blocks| then f else
    var b := f.blocks[a];
    Fs(f.meta, f.bits, f.inodes, f.blocks[a := b[..o] + chunk + b[o + |chunk|..]])
  }

  /** The size of the next piece: to the end of the data or of the block. */
  function Piece(left: nat, pos: nat): (m: nat)
    ensures m <= left && pos % BSIZE + m <= BSIZE && (left > 0 ==> m > 0)
  {
    if left < BSIZE - pos % BSIZE then left else BSIZE - pos % BSIZE
  }

  /** The copying loop of writei from `tot` on; the source is readable for `limit` bytes. */
  function WriteLoop(f: Fs, i: nat, off: nat, data: seq<byte>, tot: nat, limit: nat): (r: (Fs, nat))
    requires f.Shaped() && i < |f.inodes| && off + |data| <= MAXBYTES && tot <= |data|
    ensures r.0.Shaped() && |r.0.inodes| == |f.inodes| && tot <= r.1 <= |data|
    decreases |data| - tot
  {
    if tot == |data| then (f, tot) else
    var pos := off + tot;
    var (g, a) := Bmap(f, i, pos / BSIZE);
    var m := Piece(|data| - tot, pos);
    if a == 0 || tot + m > limit then (g, tot)
    else WriteLoop(Poke(g, a, pos % BSIZE, data[tot..tot + m]), i, off, data, tot + m, limit)
  }

  function SetSize(f: Fs, i: nat, n: nat): (r: Fs)
    requires f.Shaped() && i < |f.inodes|
    ensures r.Shaped() && |r.inodes| == |f.inodes|
  {
    Fs(f.meta, f.bits, f.inodes[i := f.inodes[i].(size := n)], f.blocks)
  }

  /** writei: -1 for a range the file cannot hold, else the number of bytes written. */
  function Writei(f: Fs, i: nat, off: nat, data: seq<byte>, limit: nat): (r: (Fs, int))
    requires f.Shaped() && i < |f.inodes|
    ensures r.0.Shaped() && |r.0.inodes| == |f.inodes|
  {
    if off > f.inodes[i].size || off + |data| >= WORD || off + |data| > MAXBYTES then (f, -1) else
    var (g, n) := WriteLoop(f, i, off, data, 0, limit);
    var t: int := n;
    (if off + t > g.inodes[i].size then SetSize(g, i, off + t) else g, t)
  }

  /** A data block is no indirect block, so writing to it moves no pointer. */
  lemma PokePtr(f: Fs, i: nat, bn: nat, o: nat, chunk: seq<byte>, j: nat, t: nat)
    requires Owned(f, {}) && i < |f.inodes| && bn < MAXFILE && Ptr(f, i, Slot(bn)) != 0 && o + |chunk| <= BSIZE
    requires j < |f.inodes| && t < SLOTS
    ensures Ptr(Poke(f, Ptr(f, i, Slot(bn)), o, chunk), j, t) == Ptr(f, j, t)
  {
    assert Ptr(f, j, NDIRECT) != Ptr(f, i, Slot(bn));
  }

  /** Writing inside a data block changes those bytes of that file and nothing else. */
  lemma PokeByte(f: Fs, i: nat, bn: nat, o: nat, chunk: seq<byte>, j: nat, k: nat)
    requires Owned(f, {}) && i < |f.inodes| && bn < MAXFILE && Ptr(f, i, Slot(bn)) != 0 && o + |chunk| <= BSIZE
    requires j < |f.inodes| && k < MAXBYTES
    ensures var r := Poke(f, Ptr(f, i, Slot(bn)), o, chunk);
            ByteAt(r, j, k) == if j == i && k / BSIZE == bn && o <= k % BSIZE < o + |chunk|
                               then chunk[k % BSIZE - o] else ByteAt(f, j, k)
  {
    hide Ptr;
    var t := Slot(k / BSIZE);
    PokePtr(f, i, bn, o, chunk, j, t);
    if Ptr(f, j, t) == Ptr(f, i, Slot(bn)) { assert j == i && t == Slot(bn); }
  }

  lemma PokeOk(f: Fs, i: nat, bn: nat, o: nat, chunk: seq<byte>)
    requires Owned(f, {}) && i < |f.inodes| && bn < MAXFILE && Ptr(f, i, Slot(bn)) != 0 && o + |chunk| <= BSIZE
    ensures var r := Poke(f, Ptr(f, i, Slot(bn)), o, chunk);
            && Owned(r, {}) && r.inodes == f.inodes && r.meta == f.meta && |r.bits| == |f.bits|
            && (forall j, t :: 0 <= j < |f.inodes| && 0 <= t < SLOTS ==> Ptr(r, j, t) == Ptr(f, j, t))
            && (forall j, k :: 0 <= j < |f.inodes| && 0 <= k < MAXBYTES ==>
                  ByteAt(r, j, k) == if j == i && k / BSIZE == bn && o <= k % BSIZE < o + |chunk|
                                     then chunk[k % BSIZE - o] else ByteAt(f, j, k))
  {
    hide Ptr, ByteAt;
    var r := Poke(f, Ptr(f, i, Slot(bn)), o, chunk);
    forall j, t | 0 <= j < |f.inodes| && 0 <= t < SLOTS
      ensures Ptr(r, j, t) == Ptr(f, j, t)
    {
      PokePtr(f, i, bn, o, chunk, j, t);
    }
    assert Owned(r, {}) by {
      forall c | Reached(f, c)
        ensures Reached(r, c)
      {
        var j, t :| 0 <= j < |f.inodes| && 0 <= t < SLOTS && Ptr(f, j, t) == c;
        assert Ptr(r, j, t) == c;
      }
    }
    forall j, k | 0 <= j < |f.inodes| && 0 <= k < MAXBYTES
      ensures ByteAt(r, j, k) == if j == i && k / BSIZE == bn && o <= k % BSIZE < o + |chunk|
                                 then chunk[k % BSIZE - o] else ByteAt(f, j, k)
    {
      PokeByte(f, i, bn, o, chunk, j, k);
    }
  }

  lemma KeepsBytes(f: Fs, r: Fs, i: nat, j: nat, k: nat)
    requires KeepsData(f, r, i) && j < |f.inodes| && k < MAXBYTES && Ptr(f, j, Slot(k / BSIZE)) != 0
    ensures ByteAt(r, j, k) == ByteAt(f, j, k)
  {
    hide Ptr;
  }

  /** The state of writei's loop after `tot` bytes: those bytes are in place, all else is as before. */
  ghost predicate Wrote(f0: Fs, f: Fs, i: nat, off: nat, data: seq<byte>, tot: nat)
    requires Inv(f0) && i < |f0.inodes| && off + |data| <= MAXBYTES && tot <= |data|
  {
    && Owned(f, {}) && f.meta == f0.meta && |f.bits| == |f0.bits| && |f.inodes| == |f0.inodes|
    && f.inodes == f0.inodes[i := f.inodes[i]] && SameHead(f0.inodes[i], f.inodes[i])
    && (forall j :: 0 <= j < |f.inodes| ==> NoHoles(f, j, f0.inodes[j].size))
    && NoHoles(f, i, off + tot)
    && (forall j, k :: 0 <= j < |f.inodes| && j != i && 0 <= k < f0.inodes[j].size ==> SameByte(f0, f, j, k))
    && (forall k :: 0 <= k < f0.inodes[i].size && !(off <= k < off + tot) ==> SameByte(f0, f, i, k))
    && (forall k :: off <= k < off + tot ==> ByteAt(f, i, k) == data[k - off])
  }

  ghost predicate SameByte(f: Fs, g: Fs, j: nat, k: nat) {
    && f.Shaped() && g.Shaped() && j < |f.inodes| && j < |g.inodes| && k < MAXBYTES
    && ByteAt(f, j, k) == ByteAt(g, j, k)
  }

  /** A hole-free prefix has an address for each of its bytes. */
  lemma AddressOf(f: Fs, i: nat, n: nat, k: nat)
    requires f.Shaped() && i < |f.inodes| && NoHoles(f, i, n) && k < n && k < MAXBYTES
    ensures Ptr(f, i, Slot(k / BSIZE)) != 0
  {
    assert k / BSIZE * BSIZE <= k;
  }

  /** bmap keeps the loop state. */
  lemma WroteBmap(f0: Fs, f: Fs, i: nat, off: nat, data: seq<byte>, tot: nat, r: Fs)
    requires Inv(f0) && i < |f0.inodes| && off + |data| <= MAXBYTES && tot <= |data|
    requires Wrote(f0, f, i, off, data, tot) && Owned(r, {}) && KeepsData(f, r, i)
    ensures Wrote(f0, r, i, off, data, tot)
  {
    hide Ptr, Exclusive, Accounted, ByteAt;
    forall j, k | 0 <= j < |f.inodes| && 0 <= k < f0.inodes[j].size && SameByte(f0, f, j, k)
      ensures SameByte(f0, r, j, k)
    {
      AddressOf(f, j, f0.inodes[j].size, k);
      KeepsBytes(f, r, i, j, k);
    }
    forall j, n | 0 <= j < |f.inodes| && NoHoles(f, j, n)
      ensures NoHoles(r, j, n)
    {
      assert forall bn :: 0 <= bn < MAXFILE && bn * BSIZE < n ==> Ptr(f, j, Slot(bn)) != 0;
    }
    forall k | off <= k < off + tot
      ensures ByteAt(r, i, k) == data[k - off]
    {
      AddressOf(f, i, off + tot, k);
      KeepsBytes(f, r, i, i, k);
    }
  }

  /** One round of the loop: the next piece lands in its block. */
  lemma WrotePiece(f0: Fs, f: Fs, i: nat, off: nat, data: seq<byte>, tot: nat)
    requires Inv(f0) && i < |f0.inodes| && off <= f0.inodes[i].size && off + |data| <= MAXBYTES && tot < |data|
    requires Wrote(f0, f, i, off, data, tot)
    requires Ptr(f, i, Slot((off + tot) / BSIZE)) != 0
    ensures var pos := off + tot; var m := Piece(|data| - tot, pos); var a := Ptr(f, i, Slot(pos / BSIZE));
            Wrote(f0, Poke(f, a, pos % BSIZE, data[tot..tot + m]), i, off, data, tot + m)
  {
    hide Exclusive, Accounted, ByteAt, Ptr;
    var pos := off + tot;
    var bn, o, m := pos / BSIZE, pos % BSIZE, Piece(|data| - tot, pos);
    var chunk := data[tot..tot + m];
    PokeOk(f, i, bn, o, chunk);
    var r := Poke(f, Ptr(f, i, Slot(bn)), o, chunk);
    forall k | 0 <= k < MAXBYTES
      ensures (k / BSIZE == bn && o <= k % BSIZE < o + m) <==> pos <= k < pos + m
    {
    }
    forall k | off <= k < off + tot + m
      ensures ByteAt(r, i, k) == data[k - off]
    {
      if k >= pos {
        assert k % BSIZE - o == k - pos;
      }
    }
    forall j, k | 0 <= j < |f.inodes| && 0 <= k < f0.inodes[j].size && !(j == i && off <= k < off + tot + m)
      ensures SameByte(f0, r, j, k)
    {
      assert SoundInode(f0, j);
      assert SameByte(f0, f, j, k);
    }
    forall b | 0 <= b < MAXFILE && b * BSIZE < off + tot + m
      ensures Ptr(r, i, Slot(b)) != 0
    {
      if b * BSIZE >= off + tot {
        assert b == bn;
      }
    }
  }

  /** One unfolding of the loop. */
  lemma WriteLoopStep(f0: Fs, f: Fs, i: nat, off: nat, data: seq<byte>, tot: nat, limit: nat)
    requires Inv(f0) && i < |f0.inodes| && off + |data| <= MAXBYTES && tot < |data| && Wrote(f0, f, i, off, data, tot)
    ensures Owned(f, {}) && |f.inodes| == |f0.inodes|
    ensures var (g, a) := Bmap(f, i, (off + tot) / BSIZE); var m := Piece(|data| - tot, off + tot);
            WriteLoop(f, i, off, data, tot, limit) ==
              if a == 0 || tot + m > limit then (g, tot)
              else WriteLoop(Poke(g, a, (off + tot) % BSIZE, data[tot..tot + m]), i, off, data, tot + m, limit)
  {
  }

  lemma WriteLoopEnd(f: Fs, i: nat, off: nat, data: seq<byte>, limit: nat)
    requires f.Shaped() && i < |f.inodes| && off + |data| <= MAXBYTES
    ensures WriteLoop(f, i, off, data, |data|, limit) == (f, |data|)
  {
  }

  /** A short count means a full disk or an unreadable source. */
  lemma {:induction false} WriteLoopOk(f0: Fs, f: Fs, i: nat, off: nat, data: seq<byte>, tot: nat, limit: nat)
    requires Inv(f0) && f.Shaped() && |f.inodes| == |f0.inodes|
    requires i < |f0.inodes| && off <= f0.inodes[i].size && off + |data| <= MAXBYTES && tot <= |data|
    requires Wrote(f0, f, i, off, data, tot)
    ensures var (r, t) := WriteLoop(f, i, off, data, tot, limit);
            && tot <= t <= |data| && Wrote(f0, r, i, off, data, t)
            && (t < |data| && limit >= |data| ==> Full(r))
    decreases |data| - tot
  {
    hide Wrote, Bmap, KeepsData, Exclusive, Accounted, Inv, Poke, Full;
    if tot < |data| {
      WriteLoopStep(f0, f, i, off, data, tot, limit);
      hide WriteLoop;
      var pos := off + tot;
      var (g, a) := Bmap(f, i, pos / BSIZE);
      var m := Piece(|data| - tot, pos);
      BmapOk(f, i, pos / BSIZE);
      WroteBmap(f0, f, i, off, data, tot, g);
      if a != 0 && tot + m <= limit {
        WrotePiece(f0, g, i, off, data, tot);
        WriteLoopOk(f0, Poke(g, a, pos % BSIZE, data[tot..tot + m]), i, off, data, tot + m, limit);
      }
    }
  }

  lemma SizesOk(f: Fs)
    requires Inv(f)
    ensures forall j :: 0 <= j < |f.inodes| ==> f.inodes[j].size <= MAXBYTES
  {
    forall j | 0 <= j < |f.inodes|
      ensures f.inodes[j].size <= MAXBYTES
    {
      assert SoundInode(f, j);
    }
  }

  /** Setting a size moves no pointer and no byte. */
  lemma SetSizeAt(f: Fs, i: nat, n: nat)
    requires f.Shaped() && i < |f.inodes|
    ensures var r := SetSize(f, i, n);
            && (forall j, s :: 0 <= j < |f.inodes| && 0 <= s < SLOTS ==> Ptr(r, j, s) == Ptr(f, j, s))
            && (forall j, k :: 0 <= j < |f.inodes| && 0 <= k < MAXBYTES ==> ByteAt(r, j, k) == ByteAt(f, j, k))
  {
  }

  lemma WroteNothing(f: Fs, i: nat, off: nat, data: seq<byte>)
    requires Inv(f) && i < |f.inodes| && off <= f.inodes[i].size && off + |data| <= MAXBYTES
    ensures Wrote(f, f, i, off, data, 0)
  {
    hide Ptr, ByteAt;
    forall j | 0 <= j < |f.inodes|
      ensures NoHoles(f, j, f.inodes[j].size) && f.inodes[j].size <= MAXBYTES
    {
      assert SoundInode(f, j);
    }
    forall j, k | 0 <= j < |f.inodes| && 0 <= k < f.inodes[j].size
      ensures SameByte(f, f, j, k)
    {
    }
  }

  /** What writei leaves of a file: `data[..t]` spliced in at `off`. */
  ghost function Splice(was: seq<byte>, off: nat, data: seq<byte>, t: nat): (r: seq<byte>)
    requires off <= |was| && t <= |data|
    ensures |r| == if off + t > |was| then off + t else |was|
    ensures forall k :: 0 <= k < |r| ==> r[k] == if off <= k < off + t then data[k - off] else was[k]
  {
    was[..off] + data[..t] + (if off + t < |was| then was[off + t..] else [])
  }

  lemma WroteInv(f0: Fs, f: Fs, i: nat, off: nat, data: seq<byte>, t: nat)
    requires Inv(f0) && i < |f0.inodes| && f0.inodes[i].kind != 0
    requires off <= f0.inodes[i].size && off + |data| <= MAXBYTES && t <= |data|
    requires Wrote(f0, f, i, off, data, t)
    ensures Inv(if off + t > f.inodes[i].size then SetSize(f, i, off + t) else f)
  {
    var r := if off + t > f.inodes[i].size then SetSize(f, i, off + t) else f;
    forall j, s | 0 <= j < |f.inodes| && 0 <= s < SLOTS
      ensures Ptr(r, j, s) == Ptr(f, j, s)
    {
    }
    forall j | 0 <= j < |r.inodes|
      ensures SoundInode(r, j)
    {
      assert SoundInode(f0, j) && NoHoles(f, j, f0.inodes[j].size);
    }
    hide Ptr;
    forall c | Reached(f, c)
      ensures Reached(r, c)
    {
      var j, s :| 0 <= j < |f.inodes| && 0 <= s < SLOTS && Ptr(f, j, s) == c;
      assert Ptr(r, j, s) == c;
    }
  }

  lemma WroteOthers(f0: Fs, f: Fs, i: nat, off: nat, data: seq<byte>, t: nat, r: Fs)
    requires Inv(f0) && i < |f0.inodes|
    requires off <= f0.inodes[i].size && off + |data| <= MAXBYTES && t <= |data|
    requires Wrote(f0, f, i, off, data, t) && r == if off + t > f.inodes[i].size then SetSize(f, i, off + t) else f
    ensures forall j :: 0 <= j < |f0.inodes| && j != i ==>
              r.inodes[j] == f0.inodes[j] && r.inodes[j].size <= MAXBYTES && Bytes(r, j) == Bytes(f0, j)
  {
    SizesOk(f0);
    SetSizeAt(f, i, off + t);
    hide ByteAt, Exclusive, Accounted, NoHoles;
    forall j | 0 <= j < |f0.inodes| && j != i
      ensures Bytes(r, j) == Bytes(f0, j)
    {
      forall k | 0 <= k < f0.inodes[j].size
        ensures Bytes(r, j)[k] == Bytes(f0, j)[k]
      {
        assert SameByte(f0, f, j, k);
      }
    }
  }

  lemma WroteBytes(f0: Fs, f: Fs, i: nat, off: nat, data: seq<byte>, t: nat, r: Fs)
    requires Inv(f0) && i < |f0.inodes|
    requires off <= f0.inodes[i].size && off + |data| <= MAXBYTES && t <= |data|
    requires Wrote(f0, f, i, off, data, t) && r == if off + t > f.inodes[i].size then SetSize(f, i, off + t) else f
    ensures f0.inodes[i].size <= MAXBYTES && r.inodes[i].size <= MAXBYTES
    ensures Bytes(r, i) == Splice(Bytes(f0, i), off, data, t)
  {
    hide ByteAt, Exclusive, Accounted, NoHoles, Splice;
    assert SoundInode(f0, i);
    var b := Splice(Bytes(f0, i), off, data, t);
    forall k | 0 <= k < r.inodes[i].size
      ensures Bytes(r, i)[k] == b[k]
    {
      WroteByte(f0, f, i, off, data, t, r, k);
    }
  }

  lemma WroteByte(f0: Fs, f: Fs, i: nat, off: nat, data: seq<byte>, t: nat, r: Fs, k: nat)
    requires Inv(f0) && i < |f0.inodes| && off <= f0.inodes[i].size <= MAXBYTES
    requires off + |data| <= MAXBYTES && t <= |data|
    requires Wrote(f0, f, i, off, data, t) && r == if off + t > f.inodes[i].size then SetSize(f, i, off + t) else f
    requires k < r.inodes[i].size <= MAXBYTES
    ensures ByteAt(r, i, k) == if off <= k < off + t then data[k - off] else ByteAt(f0, i, k)
  {
    SetSizeAt(f, i, off + t);
    hide ByteAt, Exclusive, Accounted, NoHoles, Inv;
    assert !(off <= k < off + t) ==> SameByte(f0, f, i, k);
  }

  /** writei refines the splice of a byte sequence, across direct and indirect blocks: the range
      check decides -1, other files are untouched, and a short count means the disk is full or
      the source could not be read. */
  lemma WriteiOk(f: Fs, i: nat, off: nat, data: seq<byte>, limit: nat)
    requires Inv(f) && i < |f.inodes| && f.inodes[i].kind != 0
    ensures var (r, t) := Writei(f, i, off, data, limit);
            && Inv(r) && |r.inodes| == |f.inodes|
            && f.inodes[i].size <= MAXBYTES && r.inodes[i].size <= MAXBYTES
            && (t == -1 <==> off > f.inodes[i].size || off + |data| > MAXBYTES)
            && (t == -1 ==> r == f)
            && (t != -1 ==> 0 <= t <= |data| && Bytes(r, i) == Splice(Bytes(f, i), off, data, t))
            && (0 <= t < |data| && limit >= |data| ==> Full(r))
            && forall j :: 0 <= j < |f.inodes| && j != i ==>
                 r.inodes[j] == f.inodes[j] && r.inodes[j].size <= MAXBYTES && Bytes(r, j) == Bytes(f, j)
  {
    hide Wrote, WriteLoop, Bytes, Splice, Exclusive, Accounted, SoundInode;
    SizesOk(f);
    if off <= f.inodes[i].size && off + |data| <= MAXBYTES {
      WroteNothing(f, i, off, data);
      WriteLoopOk(f, f, i, off, data, 0, limit);
      var (g, t) := WriteLoop(f, i, off, data, 0, limit);
      var r := Writei(f, i, off, data, limit).0;
      WroteInv(f, g, i, off, data, t);
      WroteBytes(f, g, i, off, data, t, r);
      WroteOthers(f, g, i, off, data, t, r);
    }
  }

  // ---- readi ----

  datatype ReadResult = Fault | Got(data: seq<byte>)

  /** The copying loop of readi; the destination is writable for `limit` bytes. Like the code it
      goes through bmap, which could allocate. */
  function ReadLoop(f: Fs, i: nat, off: nat, n: nat, got: seq<byte>, limit: nat): (r: (Fs, ReadResult))
    requires f.Shaped() && i < |f.inodes| && off + n <= MAXBYTES && |got| <= n
    ensures r.0.Shaped()
    decreases n - |got|
  {
    if |got| == n then (f, Got(got)) else
    var pos := off + |got|;
    var (g, a) := Bmap(f, i, pos / BSIZE);
    if a == 0 || a >= |g.blocks| then (g, Got(got)) else
    var m := Piece(n - |got|, pos);
    if |got| + m > limit then (g, Fault)
    else ReadLoop(g, i, off, n, got + g.blocks[a][pos % BSIZE..pos % BSIZE + m], limit)
  }

  /** readi: nothing outside the file, otherwise clipped to its size. */
  function Readi(f: Fs, i: nat, off: nat, n: nat, limit: nat): (r: (Fs, ReadResult))
    requires f.Shaped() && i < |f.inodes| && f.inodes[i].size <= MAXBYTES
    ensures r.0.Shaped()
  {
    var size := f.inodes[i].size;
    if off > size || off + n >= WORD then (f, Got([]))
    else ReadLoop(f, i, off, if off + n > size then size - off else n, [], limit)
  }

  /** Inside the file bmap only looks up, and the block holds the next bytes. */
  lemma ReadPiece(f: Fs, i: nat, pos: nat, m: nat)
    requires Owned(f, {}) && i < |f.inodes| && f.inodes[i].size <= MAXBYTES && NoHoles(f, i, f.inodes[i].size)
    requires pos < f.inodes[i].size && pos + m <= f.inodes[i].size && pos % BSIZE + m <= BSIZE
    ensures var (g, a) := Bmap(f, i, pos / BSIZE); var o := pos % BSIZE;
            g == f && 0 < a < |f.blocks| && f.blocks[a][o..o + m] == Bytes(f, i)[pos..pos + m]
  {
    hide Bmap, Ptr, Exclusive, Accounted, NoHoles, ByteAt;
    var bn, o := pos / BSIZE, pos % BSIZE;
    AddressOf(f, i, f.inodes[i].size, pos);
    BmapOk(f, i, bn);
    var p, q := f.blocks[Bmap(f, i, bn).1][o..o + m], Bytes(f, i)[pos..pos + m];
    forall k | 0 <= k < m
      ensures p[k] == q[k]
    {
      assert (pos + k) / BSIZE == bn && (pos + k) % BSIZE == o + k;
      ByteInBlock(f, i, pos + k);
      assert q[k] == ByteAt(f, i, pos + k);
    }
  }

  lemma ByteInBlock(f: Fs, i: nat, k: nat)
    requires f.Shaped() && i < |f.inodes| && k < MAXBYTES && 0 < Ptr(f, i, Slot(k / BSIZE)) < |f.blocks|
    ensures ByteAt(f, i, k) == f.blocks[Ptr(f, i, Slot(k / BSIZE))][k % BSIZE]
  {
  }

  lemma {:induction false} ReadLoopOk(f: Fs, i: nat, off: nat, n: nat, got: seq<byte>, limit: nat)
    requires Owned(f, {}) && i < |f.inodes| && f.inodes[i].size <= MAXBYTES && NoHoles(f, i, f.inodes[i].size)
    requires off + n <= f.inodes[i].size && |got| <= n && |got| <= limit
    requires got == Bytes(f, i)[off..off + |got|]
    ensures ReadLoop(f, i, off, n, got, limit) ==
            (f, if limit < n then Fault else Got(Bytes(f, i)[off..off + n]))
    decreases n - |got|
  {
    hide Bmap, Exclusive, Accounted, NoHoles, Bytes;
    if |got| < n {
      var pos := off + |got|;
      var m := Piece(n - |got|, pos);
      ReadPiece(f, i, pos, m);
      if |got| + m <= limit {
        var more := got + Bytes(f, i)[pos..pos + m];
        assert more == Bytes(f, i)[off..off + |more|];
        ReadLoopOk(f, i, off, n, more, limit);
      }
    }
  }

  /** readi returns exactly the requested slice clipped to the file and never changes the image:
      with no holes bmap has nothing to allocate, so a read needs no transaction. */
  lemma ReadiOk(f: Fs, i: nat, off: nat, n: nat, limit: nat)
    requires Inv(f) && i < |f.inodes|
    ensures var size := f.inodes[i].size;
            var end := if off + n > size then size else off + n;
            && size <= MAXBYTES
            && Readi(f, i, off, n, limit) ==
                 (f, if off > size || off + n >= WORD then Got([])
                     else if limit < end - off then Fault
                     else Got(Bytes(f, i)[off..end]))
  {
    hide ReadLoop, Bytes, Exclusive, Accounted, NoHoles;
    assert SoundInode(f, i);
    var size := f.inodes[i].size;
    if off <= size && off + n < WORD {
      assert Bytes(f, i)[off..off] == [];
      ReadLoopOk(f, i, off, if off + n > size then size - off else n, [], limit);
    }
  }

  // ---- ialloc, itrunc, iput ----

  const NoAddrs: seq<nat> := [0, 0, 0, 0, 0, 0, 0, 0, 0, 0, 0, 0, 0]

  function FindInode(inodes: seq<Dinode>, from: nat): (i: nat)
    requires from <= |inodes|
    ensures from <= i <= |inodes|
    ensures i < |inodes| ==> inodes[i].kind == 0
    ensures forall k :: from <= k < i ==> inodes[k].kind != 0
    decreases |inodes| - from
  {
    if from == |inodes| || inodes[from].kind == 0 then from else FindInode(inodes, from + 1)
  }

  /** ialloc: the first free inode from number 1 on, cleared and typed; 0 if there is none. */
  function Ialloc(f: Fs, kind: nat): (r: (Fs, nat))
    requires f.Shaped() && |f.inodes| > 0
    ensures r.0.Shaped() && |r.0.inodes| == |f.inodes|
  {
    var i := FindInode(f.inodes, 1);
    if i == |f.inodes| then (f, 0)
    else (Fs(f.meta, f.bits, f.inodes[i := Dinode(kind, 0, 0, NoAddrs)], f.blocks), i)
  }

  /** The first loop of itrunc: free and clear the first `k` direct blocks. */
  function TruncDirect(f: Fs, i: nat, k: nat): (r: Fs)
    requires f.Shaped() && i < |f.inodes| && k <= NDIRECT
    ensures r.Shaped() && |r.inodes| == |f.inodes|
  {
    if k == 0 then f else
    var g := TruncDirect(f, i, k - 1);
    var a := g.inodes[i].addrs[k - 1];
    if a == 0 then g else SetPtr(Bfree(g, a), i, k - 1, 0)
  }

  /** The second loop: free the first `k` blocks listed in an indirect block. */
  function FreeEntries(f: Fs, b: Block, k: nat): (r: Fs)
    requires f.Shaped() && k <= NINDIRECT
    ensures r.Shaped() && r.inodes == f.inodes && r.blocks == f.blocks && r.meta == f.meta && |r.bits| == |f.bits|
  {
    if k == 0 then f else
    var g := FreeEntries(f, b, k - 1);
    if Word(b, k - 1) == 0 then g else Bfree(g, Word(b, k - 1))
  }

  function Itrunc(f: Fs, i: nat): (r: Fs)
    requires f.Shaped() && i < |f.inodes|
    ensures r.Shaped() && |r.inodes| == |f.inodes|
  {
    var g := TruncDirect(f, i, NDIRECT);
    var ind := g.inodes[i].addrs[NDIRECT];
    var h := if ind == 0 || ind >= |g.blocks| then g
             else SetPtr(Bfree(FreeEntries(g, g.blocks[ind], NINDIRECT), ind), i, NDIRECT, 0);
    SetSize(h, i, 0)
  }

  /** iput of the last reference to an inode without links: truncate and mark free. */
  function Ifree(f: Fs, i: nat): (r: Fs)
    requires f.Shaped() && i < |f.inodes|
    ensures r.Shaped() && |r.inodes| == |f.inodes|
  {
    var g := Itrunc(f, i);
    Fs(g.meta, g.bits, g.inodes[i := g.inodes[i].(kind := 0)], g.blocks)
  }

  /** Cutting pointers makes exactly the blocks they reached loose. */
  lemma Detach(f: Fs, r: Fs, cut: set<nat>)
    requires Owned(f, {}) && r.Shaped() && r.meta == f.meta && r.bits == f.bits && |r.inodes| == |f.inodes|
    requires forall j, t :: 0 <= j < |f.inodes| && 0 <= t < SLOTS ==>
               Ptr(r, j, t) == if Ptr(f, j, t) in cut then 0 else Ptr(f, j, t)
    requires forall c :: c in cut ==> c != 0 && Reached(f, c)
    ensures Owned(r, cut)
  {
    hide Ptr;
    forall c | c in cut
      ensures f.meta <= c < |f.bits| && f.bits[c] && !Reached(r, c)
    {
      var j, t :| 0 <= j < |f.inodes| && 0 <= t < SLOTS && Ptr(f, j, t) == c;
    }
    forall c | c != 0 && Reached(f, c) && c !in cut
      ensures Reached(r, c)
    {
      var j, t :| 0 <= j < |f.inodes| && 0 <= t < SLOTS && Ptr(f, j, t) == c;
      assert Ptr(r, j, t) == c;
    }
  }

  /** Clearing a direct slot of inode `i` makes its block loose. */
  lemma DetachDirect(f: Fs, i: nat, s: nat)
    requires Owned(f, {}) && i < |f.inodes| && s < NDIRECT && Ptr(f, i, s) != 0
    ensures var r := SetPtr(f, i, s, 0);
            && Owned(r, {Ptr(f, i, s)})
            && forall j, t :: 0 <= j < |f.inodes| && 0 <= t < SLOTS ==>
                 Ptr(r, j, t) == if j == i && t == s then 0 else Ptr(f, j, t)
  {
    var r, a := SetPtr(f, i, s, 0), Ptr(f, i, s);
    forall j, t | 0 <= j < |f.inodes| && 0 <= t < SLOTS
      ensures Ptr(r, j, t) == if j == i && t == s then 0 else Ptr(f, j, t)
      ensures Ptr(f, j, t) == a <==> j == i && t == s
    {
    }
    assert Reached(f, a);
    Detach(f, r, {a});
  }

  /** bfree of a loose block: its bit was set, and the bitmap still agrees. */
  lemma FreeLoose(f: Fs, loose: set<nat>, b: nat)
    requires Owned(f, loose) && b in loose
    ensures b < |f.bits| && f.bits[b]
    ensures Owned(Bfree(f, b), loose - {b})
    ensures forall j, t :: 0 <= j < |f.inodes| && 0 <= t < SLOTS ==> Ptr(Bfree(f, b), j, t) == Ptr(f, j, t)
  {
    var r := Bfree(f, b);
    forall j, t | 0 <= j < |f.inodes| && 0 <= t < SLOTS
      ensures Ptr(r, j, t) == Ptr(f, j, t)
    {
    }
    hide Ptr;
    forall c
      ensures Reached(f, c) <==> Reached(r, c)
    {
      if Reached(f, c) {
        var j, t :| 0 <= j < |f.inodes| && 0 <= t < SLOTS && Ptr(f, j, t) == c;
        assert Ptr(r, j, t) == c;
      }
    }
    forall j, t | 0 <= j < |f.inodes| && 0 <= t < SLOTS && Ptr(f, j, t) != 0
      ensures Ptr(f, j, t) != b
    {
      assert Reached(f, Ptr(f, j, t));
    }
  }

  /** Only the bitmap and inode `i` change: other inodes, and every block, stay. */
  ghost predicate OnlyInode(f: Fs, r: Fs, i: nat) {
    && r.meta == f.meta && |r.bits| == |f.bits| && r.blocks == f.blocks
    && i < |f.inodes| == |r.inodes| && r.inodes == f.inodes[i := r.inodes[i]]
  }

  lemma TruncStep(f: Fs, i: nat, s: nat)
    requires Owned(f, {}) && i < |f.inodes| && s < NDIRECT && Ptr(f, i, s) != 0
    ensures var r := SetPtr(Bfree(f, Ptr(f, i, s)), i, s, 0);
            && Owned(r, {}) && OnlyInode(f, r, i) && SameHead(f.inodes[i], r.inodes[i])
            && forall j, t :: 0 <= j < |f.inodes| && 0 <= t < SLOTS ==>
                 Ptr(r, j, t) == if j == i && t == s then 0 else Ptr(f, j, t)
  {
    hide Exclusive, Accounted;
    var a := Ptr(f, i, s);
    var h := SetPtr(f, i, s, 0);
    DetachDirect(f, i, s);
    FreeLoose(h, {a}, a);
    assert {a} - {a} == {};
    assert Bfree(h, a) == SetPtr(Bfree(f, a), i, s, 0);
  }

  lemma {:induction false} TruncDirectOk(f: Fs, i: nat, k: nat)
    requires Owned(f, {}) && i < |f.inodes| && k <= NDIRECT
    ensures var r := TruncDirect(f, i, k);
            && Owned(r, {}) && OnlyInode(f, r, i) && SameHead(f.inodes[i], r.inodes[i])
            && forall j, t :: 0 <= j < |f.inodes| && 0 <= t < SLOTS ==>
                 Ptr(r, j, t) == if j == i && t < k then 0 else Ptr(f, j, t)
  {
    hide Exclusive, Accounted, Bfree, SetPtr;
    if k > 0 {
      TruncDirectOk(f, i, k - 1);
      var g := TruncDirect(f, i, k - 1);
      assert g.inodes[i].addrs[k - 1] == Ptr(g, i, k - 1);
      if Ptr(g, i, k - 1) != 0 {
        TruncStep(g, i, k - 1);
      }
    }
  }

  /** The blocks an indirect block lists from entry `k` on. */
  ghost function Entries(b: Block, k: nat): (s: set<nat>) {
    set j | k <= j < NINDIRECT && Word(b, j) != 0 :: Word(b, j)
  }

  lemma IndirectPtrs(f: Fs, i: nat)
    requires Owned(f, {}) && i < |f.inodes| && f.inodes[i].addrs[NDIRECT] != 0
    ensures var ind := f.inodes[i].addrs[NDIRECT]; var r := SetPtr(f, i, NDIRECT, 0);
            && 0 < ind < |f.blocks| && Ptr(f, i, NDIRECT) == ind
            && r.bits == f.bits && r.meta == f.meta && r.blocks == f.blocks
            && (forall t :: NDIRECT < t < SLOTS ==> Ptr(f, i, t) == Word(f.blocks[ind], t - NDIRECT - 1))
            && (forall k :: 0 <= k < NINDIRECT ==> Word(f.blocks[ind], k) == Ptr(f, i, k + NDIRECT + 1))
            && forall j, t :: 0 <= j < |f.inodes| && 0 <= t < SLOTS ==>
                 Ptr(r, j, t) == if j == i && t >= NDIRECT then 0 else Ptr(f, j, t)
  {
    assert Ptr(f, i, NDIRECT) == f.inodes[i].addrs[NDIRECT];
  }

  /** Cutting off the indirect block makes it and everything it lists loose. */
  lemma DetachIndirect(f: Fs, i: nat)
    requires Owned(f, {}) && i < |f.inodes| && f.inodes[i].addrs[NDIRECT] != 0
    ensures var ind := f.inodes[i].addrs[NDIRECT];
            ind < |f.blocks| && Owned(SetPtr(f, i, NDIRECT, 0), {ind} + Entries(f.blocks[ind], 0))
  {
    hide Ptr, Word, SetPtr, Accounted;
    IndirectPtrs(f, i);
    var ind := f.inodes[i].addrs[NDIRECT];
    var r, b := SetPtr(f, i, NDIRECT, 0), f.blocks[ind];
    var loose := {ind} + Entries(b, 0);
    forall c | c in loose
      ensures exists t :: NDIRECT <= t < SLOTS && Ptr(f, i, t) == c != 0
    {
      if c != ind {
        var k :| 0 <= k < NINDIRECT && Word(b, k) != 0 && Word(b, k) == c;
        assert Ptr(f, i, k + NDIRECT + 1) == c;
      }
    }
    forall j, t | 0 <= j < |f.inodes| && 0 <= t < SLOTS
      ensures Ptr(f, j, t) in loose <==> j == i && t >= NDIRECT && Ptr(f, j, t) != 0
    {
      if j == i && t > NDIRECT && Ptr(f, i, t) != 0 {
        assert Word(b, t - NDIRECT - 1) in Entries(b, 0);
      }
    }
    Detach(f, r, loose);
  }

  /** No entry repeats, and none is the indirect block itself. */
  ghost predicate DistinctEntries(b: Block, ind: nat) {
    && (forall j, k :: 0 <= j < k < NINDIRECT && Word(b, j) != 0 ==> Word(b, j) != Word(b, k))
    && (forall j :: 0 <= j < NINDIRECT ==> Word(b, j) != ind)
  }

  lemma {:induction false} FreeEntriesOk(f: Fs, b: Block, ind: nat, k: nat)
    requires f.Shaped() && Owned(f, {ind} + Entries(b, 0)) && DistinctEntries(b, ind) && k <= NINDIRECT
    ensures var r := FreeEntries(f, b, k);
            && Owned(r, {ind} + Entries(b, k))
            && forall j, t :: 0 <= j < |f.inodes| && 0 <= t < SLOTS ==> Ptr(r, j, t) == Ptr(f, j, t)
  {
    hide Owned, Ptr, Word, Bfree;
    if k > 0 {
      FreeEntriesOk(f, b, ind, k - 1);
      var w := Word(b, k - 1);
      var l, m := {ind} + Entries(b, k - 1), {ind} + Entries(b, k);
      EntriesStep(b, ind, k);
      if w != 0 {
        FreeLoose(FreeEntries(f, b, k - 1), l, w);
      }
    }
  }

  lemma EntriesStep(b: Block, ind: nat, k: nat)
    requires DistinctEntries(b, ind) && 0 < k <= NINDIRECT
    ensures var w := Word(b, k - 1); var l := {ind} + Entries(b, k - 1); var m := {ind} + Entries(b, k);
            if w != 0 then w in l && l - {w} == m else l == m
  {
    hide Word;
    assert forall j :: k <= j < NINDIRECT ==> Word(b, k - 1) == 0 || Word(b, j) != Word(b, k - 1);
  }

  /** Freeing blocks only touches the bitmap, so it may as well follow the cut. */
  lemma {:induction false} CutCommutes(f: Fs, i: nat, b: Block, k: nat)
    requires f.Shaped() && i < |f.inodes| && k <= NINDIRECT
    ensures FreeEntries(SetPtr(f, i, NDIRECT, 0), b, k) == SetPtr(FreeEntries(f, b, k), i, NDIRECT, 0)
  {
    if k > 0 {
      CutCommutes(f, i, b, k - 1);
    }
  }

  lemma EntriesDistinct(f: Fs, i: nat)
    requires Owned(f, {}) && i < |f.inodes| && 0 < f.inodes[i].addrs[NDIRECT] < |f.blocks|
    ensures DistinctEntries(f.blocks[f.inodes[i].addrs[NDIRECT]], f.inodes[i].addrs[NDIRECT])
  {
    var ind := f.inodes[i].addrs[NDIRECT];
    assert Ptr(f, i, NDIRECT) == ind;
    assert forall k :: 0 <= k < NINDIRECT ==> Word(f.blocks[ind], k) == Ptr(f, i, k + NDIRECT + 1);
  }

  lemma TruncIndirectOk(f: Fs, i: nat)
    requires Owned(f, {}) && i < |f.inodes| && f.inodes[i].addrs[NDIRECT] != 0
    ensures var ind := f.inodes[i].addrs[NDIRECT];
            && ind < |f.blocks|
            && var r := SetPtr(Bfree(FreeEntries(f, f.blocks[ind], NINDIRECT), ind), i, NDIRECT, 0);
               && Owned(r, {}) && OnlyInode(f, r, i) && SameHead(f.inodes[i], r.inodes[i])
               && forall j, t :: 0 <= j < |f.inodes| && 0 <= t < SLOTS ==>
                    Ptr(r, j, t) == if j == i && t >= NDIRECT then 0 else Ptr(f, j, t)
  {
    hide Exclusive, Accounted, Ptr, FreeEntries;
    IndirectPtrs(f, i);
    DetachIndirect(f, i);
    EntriesDistinct(f, i);
    var ind := f.inodes[i].addrs[NDIRECT];
    var b := f.blocks[ind];
    var d := SetPtr(f, i, NDIRECT, 0);
    FreeEntriesOk(d, b, ind, NINDIRECT);
    var e := FreeEntries(d, b, NINDIRECT);
    assert {ind} + Entries(b, NINDIRECT) == {ind} && {ind} - {ind} == {};
    FreeLoose(e, {ind}, ind);
    CutCommutes(f, i, b, NINDIRECT);
    assert Bfree(e, ind) == SetPtr(Bfree(FreeEntries(f, b, NINDIRECT), ind), i, NDIRECT, 0);
  }

  lemma SetSizeOwned(f: Fs, i: nat, n: nat)
    requires Owned(f, {}) && i < |f.inodes|
    ensures Owned(SetSize(f, i, n), {})
  {
    SetSizeAt(f, i, n);
    var r := SetSize(f, i, n);
    SamePtrsOwned(f, r);
  }

  /** Ownership depends on the bitmap and the pointers alone. */
  lemma SamePtrsOwned(f: Fs, r: Fs)
    requires Owned(f, {}) && r.Shaped() && r.meta == f.meta && r.bits == f.bits && |r.inodes| == |f.inodes|
    requires forall j, t :: 0 <= j < |f.inodes| && 0 <= t < SLOTS ==> Ptr(r, j, t) == Ptr(f, j, t)
    ensures Owned(r, {})
  {
    hide Ptr;
    Detach(f, r, {});
  }

  /** itrunc empties the file, touches nothing of the others, and frees precisely its blocks. */
  lemma ItruncOk(f: Fs, i: nat)
    requires Inv(f) && i < |f.inodes|
    ensures var r := Itrunc(f, i);
            && Inv(r) && OnlyInode(f, r, i)
            && r.inodes[i] == Dinode(f.inodes[i].kind, f.inodes[i].nlink, 0, NoAddrs)
            && (forall j, t :: 0 <= j < |f.inodes| && 0 <= t < SLOTS ==>
                  Ptr(r, j, t) == if j == i then 0 else Ptr(f, j, t))
  {
    hide Exclusive, Accounted, Ptr, TruncDirect, FreeEntries, Bfree;
    TruncDirectOk(f, i, NDIRECT);
    var g := TruncDirect(f, i, NDIRECT);
    var ind := g.inodes[i].addrs[NDIRECT];
    IndirectPtr(g, i);
    if ind != 0 {
      TruncIndirectOk(g, i);
    }
    var h := if ind == 0 then g else SetPtr(Bfree(FreeEntries(g, g.blocks[ind], NINDIRECT), ind), i, NDIRECT, 0);
    assert forall j, t :: 0 <= j < |f.inodes| && 0 <= t < SLOTS ==>
      Ptr(h, j, t) == if j == i then 0 else Ptr(f, j, t);
    SetSizeOwned(h, i, 0);
    SetSizeAt(h, i, 0);
    var r := Itrunc(f, i);
    NoPtrs(r, i);
    TruncSound(f, r, i);
  }

  lemma IndirectPtr(f: Fs, i: nat)
    requires f.Shaped() && i < |f.inodes|
    ensures Ptr(f, i, NDIRECT) == f.inodes[i].addrs[NDIRECT]
    ensures f.inodes[i].addrs[NDIRECT] == 0 ==> forall t :: NDIRECT < t < SLOTS ==> Ptr(f, i, t) == 0
  {
  }

  lemma NoPtrs(f: Fs, i: nat)
    requires f.Shaped() && i < |f.inodes| && forall t :: 0 <= t < SLOTS ==> Ptr(f, i, t) == 0
    ensures f.inodes[i].addrs == NoAddrs
  {
    assert forall t :: 0 <= t <= NDIRECT ==> f.inodes[i].addrs[t] == Ptr(f, i, t);
  }

  /** Emptying inode `i` leaves every inode sound. */
  lemma TruncSound(f: Fs, r: Fs, i: nat)
    requires Inv(f) && Owned(r, {}) && i < |f.inodes| == |r.inodes| && r.inodes == f.inodes[i := r.inodes[i]]
    requires r.inodes[i].size == 0 && r.inodes[i].addrs == NoAddrs
    requires forall j, t :: 0 <= j < |f.inodes| && 0 <= t < SLOTS && j != i ==> Ptr(r, j, t) == Ptr(f, j, t)
    ensures Inv(r)
  {
    hide Ptr, Exclusive, Accounted;
    forall j | 0 <= j < |r.inodes|
      ensures SoundInode(r, j)
    {
      assert SoundInode(f, j);
    }
  }

  /** Blocks freed by itrunc: a data block's bit stays set exactly when another inode has it. */
  lemma ItruncFrees(f: Fs, i: nat, b: nat)
    requires Inv(f) && i < |f.inodes| && f.meta <= b < |f.bits|
    ensures b < |Itrunc(f, i).bits|
    ensures Itrunc(f, i).bits[b] <==> f.bits[b] && forall t :: 0 <= t < SLOTS ==> Ptr(f, i, t) != b
  {
    hide Ptr, Itrunc;
    ItruncOk(f, i);
    var r := Itrunc(f, i);
    assert r.bits[b] <==> Reached(r, b) by {
      if Reached(r, b) {
        var j, t :| 0 <= j < |r.inodes| && 0 <= t < SLOTS && Ptr(r, j, t) == b;
      }
    }
    if Reached(r, b) {
      var j, t :| 0 <= j < |r.inodes| && 0 <= t < SLOTS && Ptr(r, j, t) == b;
      assert j != i && Ptr(f, j, t) == b;
    } else if f.bits[b] {
      assert Reached(f, b);
      var j, t :| 0 <= j < |f.inodes| && 0 <= t < SLOTS && Ptr(f, j, t) == b;
      assert Ptr(r, j, t) != b;
    }
  }

  /** Replacing the header fields of inode `i` moves no pointer. */
  lemma SameAddrs(f: Fs, r: Fs, i: nat)
    requires f.Shaped() && r.Shaped() && OnlyInode(f, r, i) && r.inodes[i].addrs == f.inodes[i].addrs
    ensures forall j, t :: 0 <= j < |f.inodes| && 0 <= t < SLOTS ==> Ptr(r, j, t) == Ptr(f, j, t)
  {
  }

  /** ialloc claims a free inode, which is empty, and fails only when every inode is taken. */
  lemma IallocOk(f: Fs, kind: nat)
    requires Inv(f) && |f.inodes| > 0 && kind != 0
    ensures var (r, i) := Ialloc(f, kind);
            && Inv(r)
            && (i == 0 ==> r == f && forall k :: 1 <= k < |f.inodes| ==> f.inodes[k].kind != 0)
            && (i != 0 ==> i < |f.inodes| && f.inodes[i].kind == 0 && OnlyInode(f, r, i)
                           && r.inodes[i] == Dinode(kind, 0, 0, NoAddrs))
  {
    hide Exclusive, Accounted, Ptr;
    var (r, i) := Ialloc(f, kind);
    if i != 0 {
      assert SoundInode(f, i);
      assert f.inodes[i].addrs == NoAddrs;
      SameAddrs(f, r, i);
      SamePtrsOwned(f, r);
      TruncSound(f, r, i);
    }
  }

  /** The freeing branch of iput gives back the inode and all its blocks. */
  lemma IfreeOk(f: Fs, i: nat)
    requires Inv(f) && i < |f.inodes|
    ensures var r := Ifree(f, i);
            && Inv(r) && OnlyInode(f, r, i) && r.inodes[i] == Dinode(0, f.inodes[i].nlink, 0, NoAddrs)
  {
    hide Exclusive, Accounted, Ptr, Itrunc;
    ItruncOk(f, i);
    var g, r := Itrunc(f, i), Ifree(f, i);
    SameAddrs(g, r, i);
    SamePtrsOwned(g, r);
    TruncSound(g, r, i);
  }

  /** iupdate after a change of the link count. */
  function SetLinks(f: Fs, i: nat, n: int): (r: Fs)
    requires f.Shaped() && i < |f.inodes|
    ensures r.Shaped() && |r.inodes| == |f.inodes|
  {
    Fs(f.meta, f.bits, f.inodes[i := f.inodes[i].(nlink := n)], f.blocks)
  }

  lemma SetLinksOk(f: Fs, i: nat, n: int)
    requires Inv(f) && i < |f.inodes|
    ensures Inv(SetLinks(f, i, n))
  {
    hide Exclusive, Accounted, Ptr;
    var r := SetLinks(f, i, n);
    SameAddrs(f, r, i);
    SamePtrsOwned(f, r);
    forall j | 0 <= j < |r.inodes|
      ensures SoundInode(r, j)
    {
      assert SoundInode(f, j);
    }
  }

  // ---- every run ----

  datatype Op =
    | Write(i: nat, off: nat, data: seq<byte>, limit: nat)
    | Trunc(i: nat)
    | Alloc(kind: nat)
    | Free(i: nat)
    | Link(i: nat, n: int)

  /** ilock panics on an inode without a type, and iput frees only inodes without links. */
  predicate Allowed(f: Fs, op: Op) {
    match op
    case Write(i, _, _, _) => i < |f.inodes| && f.inodes[i].kind != 0
    case Trunc(i) => i < |f.inodes| && f.inodes[i].kind != 0
    case Alloc(kind) => kind != 0 && |f.inodes| > 0
    case Free(i) => i < |f.inodes| && f.inodes[i].kind != 0 && f.inodes[i].nlink == 0
    case Link(i, _) => i < |f.inodes| && f.inodes[i].kind != 0
  }

  function Apply(f: Fs, op: Op): (r: Fs)
    requires f.Shaped() && Allowed(f, op)
    ensures r.Shaped() && |r.inodes| == |f.inodes|
  {
    match op
    case Write(i, off, data, limit) => Writei(f, i, off, data, limit).0
    case Trunc(i) => Itrunc(f, i)
    case Alloc(kind) => Ialloc(f, kind).0
    case Free(i) => Ifree(f, i)
    case Link(i, n) => SetLinks(f, i, n)
  }

  ghost predicate RunAllowed(f: Fs, ops: seq<Op>)
    requires f.Shaped()
    decreases |ops|
  {
    ops == [] || (Allowed(f, ops[0]) && RunAllowed(Apply(f, ops[0]), ops[1..]))
  }

  ghost function Run(f: Fs, ops: seq<Op>): (r: Fs)
    requires f.Shaped() && RunAllowed(f, ops)
    ensures r.Shaped() && |r.inodes| == |f.inodes|
    decreases |ops|
  {
    if ops == [] then f else Run(Apply(f, ops[0]), ops[1..])
  }

  lemma ApplyKeepsInv(f: Fs, op: Op)
    requires Inv(f) && Allowed(f, op)
    ensures Inv(Apply(f, op))
  {
    hide Inv, Itrunc, Ifree, Ialloc, Writei, SetLinks;
    match op
    case Write(i, off, data, limit) => WriteiOk(f, i, off, data, limit);
    case Trunc(i) => ItruncOk(f, i);
    case Alloc(kind) => IallocOk(f, kind);
    case Free(i) => IfreeOk(f, i);
    case Link(i, n) => SetLinksOk(f, i, n);
  }

  /** Block ownership and hole freedom survive every run, full disks included, so a read after
      any run is a pure lookup. */
  lemma {:induction false} RunKeepsInv(f: Fs, ops: seq<Op>, i: nat, off: nat, n: nat, limit: nat)
    requires Inv(f) && RunAllowed(f, ops) && i < |f.inodes|
    ensures var r := Run(f, ops);
            Inv(r) && r.inodes[i].size <= MAXBYTES && Readi(r, i, off, n, limit).0 == r
    decreases |ops|
  {
    hide Inv, Apply, Readi;
    InvShaped(f);
    if ops == [] {
      ReadiOk(f, i, off, n, limit);
    } else {
      ApplyKeepsInv(f, ops[0]);
      RunKeepsInv(Apply(f, ops[0]), ops[1..], i, off, n, limit);
    }
  }

  lemma InvShaped(f: Fs)
    requires Inv(f)
    ensures f.Shaped()
  {
  }
}
