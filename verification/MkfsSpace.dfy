/** What appending costs and stores, when blocks are handed out in order: a file of `n` bytes has exactly
    the blocks that `n` bytes need, and the rest of its last block is zero. */
module MkfsSpace {
  import opened Params
  import opened FsImage
  import F = FsFiles

  /** The bitmap of a disk whose first `k` blocks are in use. */
  function Prefix(size: nat, k: nat): (s: seq<bool>) {
    seq(size, b => b < k)
  }

  lemma {:induction false} FirstFreePrefix(size: nat, k: nat, from: nat)
    requires from <= k <= size
    ensures FirstFree(Prefix(size, k), from) == k
    decreases k - from
  {
    if from < k { FirstFreePrefix(size, k, from + 1); }
  }

  /** A file of `n` bytes needs slot `t`. */
  predicate Uses(n: nat, t: nat) {
    (if t <= NDIRECT then t else t - 1) * BSIZE < n
  }

  /** The blocks that `n` bytes take, the indirect block with them. */
  function Need(n: nat): (c: nat) {
    var b := (n + BSIZE - 1) / BSIZE;
    if b > NDIRECT then b + 1 else b
  }

  /** The slots of inode `i` that have a block are those that `n` bytes use. */
  ghost predicate Exact(f: Fs, i: nat, n: nat) {
    && f.Shaped() && i < |f.inodes|
    && forall t :: 0 <= t < SLOTS ==> (Ptr(f, i, t) != 0 <==> Uses(n, t))
  }

  /** Inode `i` has the blocks of the string `s` and no others; they hold `s` and then zeros. */
  ghost predicate Stored(f: Fs, i: nat, s: seq<byte>) {
    && f.Shaped() && i < |f.inodes| && |s| <= F.MAXBYTES
    && Exact(f, i, |s|)
    && (forall x :: 0 <= x < F.MAXBYTES ==> F.ByteAt(f, i, x) == if x < |s| then s[x] else 0)
  }

  // ---- one new block ----

  lemma GrownByte(f: Fs, r: Fs, i: nat, s: nat, b: nat, j: nat, x: nat)
    requires Owned(f, {}) && r.Shaped() && i < |f.inodes| && s < SLOTS && Ptr(f, i, s) == 0 && Grown(f, r, i, s, b)
    requires j < |f.inodes| && x < F.MAXBYTES
    ensures F.ByteAt(r, j, x) == F.ByteAt(f, j, x)
  {
    hide Ptr, Accounted;
    var t := Slot(x / BSIZE);
    if Ptr(f, j, t) != 0 {
      F.GrownKeepsData(f, r, i, s, b);
    }
  }

  /** `r` is `f` with slots filled: no byte of any file changed, no other inode gained a block. */
  ghost predicate Filled(f: Fs, r: Fs, i: nat) {
    && f.Shaped() && r.Shaped() && i < |f.inodes| == |r.inodes| && r.meta == f.meta
    && r.inodes == f.inodes[i := r.inodes[i]] && SameHead(f.inodes[i], r.inodes[i])
    && (forall j, t :: 0 <= j < |f.inodes| && j != i && 0 <= t < SLOTS ==> Ptr(r, j, t) == Ptr(f, j, t))
    && (forall j, x :: 0 <= j < |f.inodes| && 0 <= x < F.MAXBYTES ==> F.ByteAt(r, j, x) == F.ByteAt(f, j, x))
  }

  lemma GrowSpace(f: Fs, i: nat, s: nat, k: nat)
    requires Owned(f, {}) && i < |f.inodes| && s < SLOTS && Ptr(f, i, s) == 0
    requires s > NDIRECT ==> f.inodes[i].addrs[NDIRECT] != 0
    requires 0 < k < |f.bits| && f.bits == Prefix(|f.bits|, k)
    ensures var (r, b) := Grow(f, i, s);
            && b == k && r.bits == Prefix(|f.bits|, k + 1) && Owned(r, {}) && Filled(f, r, i)
            && forall t :: 0 <= t < SLOTS ==> Ptr(r, i, t) == if t == s then k else Ptr(f, i, t)
  {
    hide Ptr, Exclusive, Accounted, F.ByteAt;
    FirstFreePrefix(|f.bits|, k, 0);
    GrowOk(f, i, s);
    var (r, b) := Grow(f, i, s);
    GrowBits(f, i, s, k);
    forall j, x | 0 <= j < |f.inodes| && 0 <= x < F.MAXBYTES
      ensures F.ByteAt(r, j, x) == F.ByteAt(f, j, x)
    {
      GrownByte(f, r, i, s, b, j, x);
    }
  }

  lemma GrowBits(f: Fs, i: nat, s: nat, k: nat)
    requires f.Shaped() && i < |f.inodes| && s < SLOTS
    requires 0 < k < |f.bits| && f.bits == Prefix(|f.bits|, k) && FirstFree(f.bits, 0) == k
    ensures Grow(f, i, s).1 == k && Grow(f, i, s).0.bits == Prefix(|f.bits|, k + 1)
  {
    assert f.bits[k := true] == Prefix(|f.bits|, k + 1);
  }

  // ---- the next piece of an append ----

  /** Within a block that has been begun nothing new is needed. */
  lemma SameBlock(n: nat, m: nat, t: nat)
    requires n % BSIZE != 0 && n % BSIZE + m <= BSIZE
    ensures Need(n + m) == Need(n) && (Uses(n + m, t) <==> Uses(n, t))
  {
    var q := if t <= NDIRECT then t else t - 1;
    assert n == n / BSIZE * BSIZE + n % BSIZE;
    assert (n + BSIZE - 1) / BSIZE == n / BSIZE + 1 == (n + m + BSIZE - 1) / BSIZE;
    assert q * BSIZE < n <==> q <= n / BSIZE;
    assert q * BSIZE < n + m <==> q <= n / BSIZE;
  }

  /** At a block boundary one slot is needed, and before the first indirect block that block too. */
  lemma NextBlock(n: nat, m: nat, t: nat)
    requires n % BSIZE == 0 && 0 < m <= BSIZE && n < F.MAXBYTES
    ensures Need(n + m) == Need(n) + if n / BSIZE == NDIRECT then 2 else 1
    ensures Uses(n + m, t) <==> Uses(n, t) || t == Slot(n / BSIZE) || (n / BSIZE == NDIRECT == t)
  {
    var q := if t <= NDIRECT then t else t - 1;
    var b := n / BSIZE;
    assert n == b * BSIZE;
    assert (n + BSIZE - 1) / BSIZE == b && (n + m + BSIZE - 1) / BSIZE == b + 1;
    assert q * BSIZE < n <==> q < b;
    assert q * BSIZE < n + m <==> q <= b;
  }

  lemma FilledTwice(f: Fs, g: Fs, r: Fs, i: nat)
    requires Filled(f, g, i) && Filled(g, r, i)
    ensures Filled(f, r, i)
  {
    hide Ptr, F.ByteAt;
  }

  /** What bmap does for the next piece of an append. */
  ghost predicate Extends(f: Fs, r: Fs, i: nat, k: nat, c: nat) {
    Owned(r, {}) && Filled(f, r, i) && r.bits == Prefix(|f.bits|, k + c)
  }

  lemma BmapSpace(f: Fs, i: nat, n: nat, m: nat, k: nat)
    requires Owned(f, {}) && i < |f.inodes| && Exact(f, i, n) && n < F.MAXBYTES
    requires 0 < m && n % BSIZE + m <= BSIZE && f.bits == Prefix(|f.bits|, k)
    requires 0 < k && k + Need(n + m) - Need(n) <= |f.bits| && Need(n) <= Need(n + m)
    ensures var (r, a) := Bmap(f, i, n / BSIZE);
            a != 0 && Extends(f, r, i, k, Need(n + m) - Need(n)) && Exact(r, i, n + m)
  {
    hide Exclusive, Accounted, Need, Uses, F.ByteAt;
    var bn := n / BSIZE;
    var (r, a) := Bmap(f, i, bn);
    if n % BSIZE != 0 {
      forall t | 0 <= t < SLOTS ensures Uses(n + m, t) <==> Uses(n, t) { SameBlock(n, m, t); }
      SameBlock(n, m, 0);
      UsesOwn(n);
      assert Ptr(f, i, Slot(bn)) != 0;
    } else {
      forall t | 0 <= t < SLOTS
        ensures Uses(n + m, t) <==> Uses(n, t) || t == Slot(bn) || (bn == NDIRECT == t)
      {
        NextBlock(n, m, t);
      }
      NextBlock(n, m, 0);
      UsesOwn(n);
      assert Ptr(f, i, Slot(bn)) == 0;
      assert Ptr(f, i, NDIRECT) == f.inodes[i].addrs[NDIRECT];
      if bn < NDIRECT {
        GrowSpace(f, i, bn, k);
      } else if bn == NDIRECT {
        GrowSpace(f, i, NDIRECT, k);
        var g := Grow(f, i, NDIRECT).0;
        assert Ptr(g, i, NDIRECT) == g.inodes[i].addrs[NDIRECT];
        GrowSpace(g, i, bn + 1, k + 1);
        FilledTwice(f, g, r, i);
      } else {
        GrowSpace(f, i, bn + 1, k);
      }
    }
  }

  lemma UsesOwn(n: nat)
    requires n < F.MAXBYTES
    ensures Uses(n, Slot(n / BSIZE)) <==> n % BSIZE != 0
    ensures Uses(n, NDIRECT) <==> n > NDIRECT * BSIZE
  {
  }

  /** Inode `i` may have changed, but not what the other inodes refer to and hold. */
  ghost predicate Others(f: Fs, r: Fs, i: nat) {
    && f.Shaped() && r.Shaped() && i < |f.inodes| == |r.inodes| && r.meta == f.meta && |r.bits| == |f.bits|
    && r.inodes == f.inodes[i := r.inodes[i]]
    && (forall j, t :: 0 <= j < |f.inodes| && j != i && 0 <= t < SLOTS ==> Ptr(r, j, t) == Ptr(f, j, t))
    && (forall j, x :: 0 <= j < |f.inodes| && j != i && 0 <= x < F.MAXBYTES ==> F.ByteAt(r, j, x) == F.ByteAt(f, j, x))
  }

  /** `s` has become `s2` in inode `i`, at a cost of `c` blocks. */
  ghost predicate Became(f: Fs, r: Fs, i: nat, s2: seq<byte>, k: nat, c: int) {
    && Others(f, r, i) && SameHead(f.inodes[i], r.inodes[i]) && Owned(r, {})
    && Stored(r, i, s2) && k + c >= 0 && r.bits == Prefix(|f.bits|, k + c)
  }

  lemma PokeSpace(f: Fs, g: Fs, r: Fs, i: nat, s: seq<byte>, a: nat, chunk: seq<byte>, k: nat, c: nat)
    requires Stored(f, i, s) && 0 < |chunk| && |s| % BSIZE + |chunk| <= BSIZE && |s| + |chunk| <= F.MAXBYTES
    requires Extends(f, g, i, k, c) && Exact(g, i, |s| + |chunk|) && a == Ptr(g, i, Slot(|s| / BSIZE)) != 0
    requires r == F.Poke(g, a, |s| % BSIZE, chunk)
    ensures Became(f, r, i, s + chunk, k, c)
  {
    hide Ptr, F.ByteAt, Exclusive, Accounted, Uses;
    var bn, o := |s| / BSIZE, |s| % BSIZE;
    F.PokeOk(g, i, bn, o, chunk);
    forall x | 0 <= x < F.MAXBYTES
      ensures F.ByteAt(r, i, x) == if x < |s + chunk| then (s + chunk)[x] else 0
    {
      InPiece(|s|, |chunk|, x);
    }
  }

  lemma InPiece(n: nat, m: nat, x: nat)
    requires n % BSIZE + m <= BSIZE
    ensures (x / BSIZE == n / BSIZE && n % BSIZE <= x % BSIZE < n % BSIZE + m) <==> n <= x < n + m
    ensures n <= x < n + m ==> x % BSIZE - n % BSIZE == x - n
  {
  }

  lemma NeedGrows(n: nat, m: nat)
    ensures Need(n) <= Need(n + m)
  {
    assert (n + BSIZE - 1) / BSIZE <= (n + m + BSIZE - 1) / BSIZE;
  }

  lemma BecameTwice(f: Fs, g: Fs, r: Fs, i: nat, s: seq<byte>, s2: seq<byte>, k: nat, c: nat, d: int)
    requires Became(f, g, i, s, k, c) && Became(g, r, i, s2, k + c, d)
    ensures Became(f, r, i, s2, k, c + d)
  {
    hide Ptr, F.ByteAt, Stored, Owned;
  }

  lemma NothingYet(f: Fs, i: nat, s: seq<byte>, k: nat)
    requires Owned(f, {}) && Stored(f, i, s) && f.bits == Prefix(|f.bits|, k)
    ensures Became(f, f, i, s, k, 0)
  {
    hide Ptr, F.ByteAt;
  }

  /** The loop of an append from byte `tot` of the data on: with room for the blocks it needs it stores all of
      the data and takes exactly those blocks. */
  lemma {:induction false} LoopSpace(f: Fs, i: nat, off: nat, data: seq<byte>, tot: nat, was: seq<byte>, k: nat)
    requires Owned(f, {}) && i < |f.inodes| && tot <= |data| && |was| == off && off + |data| <= F.MAXBYTES
    requires Stored(f, i, was + data[..tot]) && f.bits == Prefix(|f.bits|, k) && 0 < k
    requires k + Need(off + |data|) - Need(off + tot) <= |f.bits|
    ensures var (r, t) := F.WriteLoop(f, i, off, data, tot, |data|);
            t == |data| && Became(f, r, i, was + data, k, Need(off + |data|) - Need(off + tot))
    decreases |data| - tot
  {
    hide Became, Bmap, Extends, Need, F.Poke, Stored, Exclusive, Accounted, Exact;
    if tot == |data| {
      assert data[..tot] == data;
      NothingYet(f, i, was + data, k);
    } else {
      var s := was + data[..tot];
      var m := F.Piece(|data| - tot, off + tot);
      var chunk := data[tot..tot + m];
      NeedGrows(off + tot, m);
      NeedGrows(off + tot + m, |data| - tot - m);
      StoredExact(f, i, s);
      BmapSpace(f, i, off + tot, m, k);
      var (g, a) := Bmap(f, i, (off + tot) / BSIZE);
      F.BmapOk(f, i, (off + tot) / BSIZE);
      var c := Need(off + tot + m) - Need(off + tot);
      var h := F.Poke(g, a, (off + tot) % BSIZE, chunk);
      PokeSpace(f, g, h, i, s, a, chunk, k, c);
      assert s + chunk == was + data[..tot + m];
      BecameParts(f, h, i, s + chunk, k, c);
      LoopSpace(h, i, off, data, tot + m, was, k + c);
      BecameTwice(f, h, F.WriteLoop(h, i, off, data, tot + m, |data|).0, i, s + chunk, was + data, k, c,
                  Need(off + |data|) - Need(off + tot + m));
    }
  }

  lemma StoredExact(f: Fs, i: nat, s: seq<byte>)
    requires Stored(f, i, s)
    ensures Exact(f, i, |s|)
  {
  }

  lemma BecameParts(f: Fs, r: Fs, i: nat, s: seq<byte>, k: nat, c: nat)
    requires Became(f, r, i, s, k, c)
    ensures Owned(r, {}) && i < |r.inodes| && Stored(r, i, s)
    ensures |r.bits| == |f.bits| && r.bits == Prefix(|f.bits|, k + c)
  {
  }

  // ---- the whole image ----

  /** The blocks that all files take. */
  function Total(files: seq<seq<byte>>): (n: nat) {
    if files == [] then 0 else Need(|files[0]|) + Total(files[1..])
  }

  lemma {:induction false} TotalUpdate(files: seq<seq<byte>>, i: nat, s: seq<byte>)
    requires i < |files|
    ensures Total(files[i := s]) == Total(files) - Need(|files[i]|) + Need(|s|)
  {
    hide Need;
    if i > 0 {
      TotalUpdate(files[1..], i - 1, s);
      assert files[i := s][1..] == files[1..][i - 1 := s];
    } else {
      assert files[i := s][1..] == files[1..];
    }
  }

  /** Inode `i` holds `files[i]`, and the blocks in use are the first ones and no more than the files need. */
  ghost predicate Packed(f: Fs, files: seq<seq<byte>>) {
    && F.Inv(f) && |files| == |f.inodes| && f.meta + Total(files) <= |f.bits|
    && (forall i :: 0 <= i < |files| ==> f.inodes[i].size == |files[i]| && Stored(f, i, files[i]))
    && f.bits == Prefix(|f.bits|, f.meta + Total(files))
  }

  /** What another inode holds does not change. */
  lemma StoredOther(f: Fs, r: Fs, i: nat, j: nat, s: seq<byte>)
    requires Others(f, r, i) && j < |f.inodes| && j != i && Stored(f, j, s)
    ensures Stored(r, j, s) && r.inodes[j] == f.inodes[j]
  {
    hide Ptr, F.ByteAt;
  }

  /** The size is written after the loop. */
  lemma SizeWritten(f: Fs, g: Fs, i: nat, s: seq<byte>, k: nat, c: int)
    requires Became(f, g, i, s, k, c)
    ensures var r := F.SetSize(g, i, |s|);
            Others(f, r, i) && Stored(r, i, s) && k + c >= 0 && r.bits == Prefix(|f.bits|, k + c)
  {
    hide Ptr, F.ByteAt;
    F.SetSizeAt(g, i, |s|);
  }

  /** Appending at the end of a file of a packed image succeeds when there is room for what the file then
      needs, and leaves the image packed. */
  lemma AppendPacked(f: Fs, files: seq<seq<byte>>, i: nat, data: seq<byte>)
    requires Packed(f, files) && i < |files| && f.inodes[i].kind != 0
    requires |files[i]| + |data| <= F.MAXBYTES && f.meta + Total(files[i := files[i] + data]) <= |f.bits|
    ensures var (r, t) := F.Writei(f, i, |files[i]|, data, |data|);
            && t == |data| && Packed(r, files[i := files[i] + data])
            && (forall j :: 0 <= j < |r.inodes| ==> r.inodes[j].kind == f.inodes[j].kind)
  {
    hide Became, Need, Total, F.WriteLoop, Exclusive, Accounted, F.SoundInode, Stored, F.Bytes, F.Splice, Others;
    var was, k := files[i], f.meta + Total(files);
    var all := was + data;
    TotalUpdate(files, i, all);
    assert was + data[..0] == was;
    LoopSpace(f, i, |was|, data, 0, was, k);
    F.WriteiOk(f, i, |was|, data, |data|);
    var (g, t) := F.WriteLoop(f, i, |was|, data, 0, |data|);
    var r := F.Writei(f, i, |was|, data, |data|).0;
    var c := Need(|all|) - Need(|was|);
    BecameHead(f, g, i, all, k, c);
    SizeWritten(f, g, i, all, k, c);
    assert r == F.SetSize(g, i, |all|) by { if data == [] { SameSize(g, i, |all|); } }
    forall j | 0 <= j < |files| && j != i
      ensures Stored(r, j, files[j]) && r.inodes[j] == f.inodes[j]
    {
      StoredOther(f, r, i, j, files[j]);
    }
  }

  lemma BecameHead(f: Fs, r: Fs, i: nat, s: seq<byte>, k: nat, c: int)
    requires Became(f, r, i, s, k, c)
    ensures r.meta == f.meta && |r.inodes| == |f.inodes| && i < |f.inodes| && r.inodes[i].size == f.inodes[i].size
    ensures r.inodes[i].kind == f.inodes[i].kind && |r.bits| == |f.bits| && f.Shaped() && r.Shaped()
  {
  }

  lemma SameSize(f: Fs, i: nat, n: nat)
    requires f.Shaped() && i < |f.inodes| && f.inodes[i].size == n
    ensures F.SetSize(f, i, n) == f
  {
    assert f.inodes[i := f.inodes[i].(size := n)] == f.inodes;
  }

  /** A free inode that comes into use is still empty. */
  lemma AllocPacked(f: Fs, files: seq<seq<byte>>, i: nat, kind: nat, links: int)
    requires Packed(f, files) && i < |files| && f.inodes[i].kind == 0
    ensures Packed(f.(inodes := f.inodes[i := Dinode(kind, links, 0, F.NoAddrs)]), files)
  {
    hide Exclusive, Accounted, Total, Uses;
    var r := f.(inodes := f.inodes[i := Dinode(kind, links, 0, F.NoAddrs)]);
    assert F.SoundInode(f, i);
    assert r.inodes[i].addrs == f.inodes[i].addrs;
    SameAddrs(f, r);
    hide Ptr, F.ByteAt;
    F.SamePtrsOwned(f, r);
    forall j | 0 <= j < |r.inodes| ensures F.SoundInode(r, j) {
      assert F.SoundInode(f, j);
    }
  }

  lemma SameAddrs(f: Fs, r: Fs)
    requires f.Shaped() && r.Shaped() && r.blocks == f.blocks && |r.inodes| == |f.inodes|
    requires forall j :: 0 <= j < |f.inodes| ==> r.inodes[j].addrs == f.inodes[j].addrs
    ensures forall j, t :: 0 <= j < |f.inodes| && 0 <= t < SLOTS ==> Ptr(r, j, t) == Ptr(f, j, t)
    ensures forall j, x :: 0 <= j < |f.inodes| && 0 <= x < F.MAXBYTES ==> F.ByteAt(r, j, x) == F.ByteAt(f, j, x)
  {
  }
}
