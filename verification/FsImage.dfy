/** The file-system image (kernel/fs.h, kernel/fs.c): free bitmap, inode table and data
    blocks, as the flat block map that the log provides. */
module FsImage {
  import opened Params

  const NDIRECT := 12
  const NINDIRECT := BSIZE / 4
  const MAXFILE := NDIRECT + NINDIRECT
  const SLOTS := NDIRECT + 1 + NINDIRECT      // direct, the indirect block itself, its entries
  const WORD := 0x1_0000_0000

  type byte = x: int | 0 <= x < 256
  type Block = b: seq<byte> | |b| == BSIZE witness seq(BSIZE, _ => 0)

  function Zero(): (b: Block)
    ensures forall k :: 0 <= k < BSIZE ==> b[k] == 0
  {
    seq(BSIZE, _ => 0)
  }

  /** struct dinode; `kind` is the type field, 0 for a free inode. */
  datatype Dinode = Dinode(kind: nat, nlink: int, size: nat, addrs: seq<nat>)

  /** `meta` counts the blocks before the data blocks. */
  datatype Fs = Fs(meta: nat, bits: seq<bool>, inodes: seq<Dinode>, blocks: seq<Block>) {
    predicate Shaped() {
      && 0 < meta <= |bits| == |blocks| <= WORD
      && forall i :: 0 <= i < |inodes| ==> |inodes[i].addrs| == NDIRECT + 1
    }
  }

  // ---- little-endian words inside a block, as the indirect block stores them ----

  function Word(b: Block, j: nat): (w: nat)
    requires j < NINDIRECT
    ensures w < WORD
  {
    var x: int, y: int, z: int, w: int := b[4 * j], b[4 * j + 1], b[4 * j + 2], b[4 * j + 3];
    x + 0x100 * y + 0x1_0000 * z + 0x100_0000 * w
  }

  function PutWord(b: Block, j: nat, w: nat): (r: Block)
    requires j < NINDIRECT && w < WORD
  {
    b[4 * j := w % 0x100][4 * j + 1 := w / 0x100 % 0x100]
     [4 * j + 2 := w / 0x1_0000 % 0x100][4 * j + 3 := w / 0x100_0000]
  }

  lemma PutWordAt(b: Block, j: nat, w: nat)
    requires j < NINDIRECT && w < WORD
    ensures Word(PutWord(b, j, w), j) == w
    ensures forall k :: 0 <= k < NINDIRECT && k != j ==> Word(PutWord(b, j, w), k) == Word(b, k)
  {
    assert w / 0x1_0000 == w / 0x100 / 0x100;
    assert w / 0x100_0000 == w / 0x1_0000 / 0x100;
  }

  lemma ZeroWords()
    ensures forall k :: 0 <= k < NINDIRECT ==> Word(Zero(), k) == 0
  {
  }

  // ---- block pointers ----

  /** The block that slot `s` of inode `i` refers to, 0 if none. */
  function Ptr(f: Fs, i: nat, s: nat): (b: nat)
    requires f.Shaped() && i < |f.inodes| && s < SLOTS
  {
    var a := f.inodes[i].addrs;
    if s <= NDIRECT then a[s]
    else if 0 < a[NDIRECT] < |f.blocks| then Word(f.blocks[a[NDIRECT]], s - NDIRECT - 1)
    else 0
  }

  /** The slot that holds file block `bn`; slot NDIRECT is the indirect block itself. */
  function Slot(bn: nat): (s: nat)
    requires bn < MAXFILE
    ensures s < SLOTS && s != NDIRECT
  {
    if bn < NDIRECT then bn else bn + 1
  }

  /** Pointers reach allocated data blocks only, each at most once. */
  ghost predicate Exclusive(f: Fs)
    requires f.Shaped()
  {
    && (forall i, s :: 0 <= i < |f.inodes| && 0 <= s < SLOTS && Ptr(f, i, s) != 0 ==>
          f.meta <= Ptr(f, i, s) < |f.bits| && f.bits[Ptr(f, i, s)])
    && (forall i, s, j, t ::
          (0 <= i < |f.inodes| && 0 <= s < SLOTS && 0 <= j < |f.inodes| && 0 <= t < SLOTS
           && Ptr(f, i, s) != 0 && Ptr(f, i, s) == Ptr(f, j, t)) ==> i == j && s == t)
  }

  ghost predicate Reached(f: Fs, b: nat)
    requires f.Shaped()
  {
    exists i, s :: 0 <= i < |f.inodes| && 0 <= s < SLOTS && Ptr(f, i, s) == b
  }

  /** The bitmap marks exactly the metadata, the blocks reached from inodes, and `loose`. */
  ghost predicate Accounted(f: Fs, loose: set<nat>)
    requires f.Shaped()
  {
    && (forall b :: 0 <= b < f.meta ==> f.bits[b])
    && (forall b :: f.meta <= b < |f.bits| && f.bits[b] ==> b in loose || Reached(f, b))
    && (forall b :: b in loose ==> f.meta <= b < |f.bits| && f.bits[b] && !Reached(f, b))
  }

  /** Block ownership: every block has one owner, and the bitmap agrees. */
  ghost predicate Owned(f: Fs, loose: set<nat>) {
    f.Shaped() && Exclusive(f) && Accounted(f, loose)
  }

  // ---- allocation ----

  function FirstFree(bits: seq<bool>, from: nat): (b: nat)
    requires from <= |bits|
    ensures from <= b <= |bits|
    ensures b < |bits| ==> !bits[b]
    ensures forall k :: from <= k < b ==> bits[k]
    decreases |bits| - from
  {
    if from == |bits| || !bits[from] then from else FirstFree(bits, from + 1)
  }

  /** balloc: the lowest free block, marked and zeroed; 0 if there is none. */
  function Balloc(f: Fs): (r: (Fs, nat))
    requires f.Shaped()
    ensures r.0.Shaped()
  {
    var b := FirstFree(f.bits, 0);
    if b == |f.bits| then (f, 0)
    else (Fs(f.meta, f.bits[b := true], f.inodes, f.blocks[b := Zero()]), b)
  }

  /** bfree: clear the bit of `b`; clearing a clear bit is a panic. */
  function Bfree(f: Fs, b: nat): (r: Fs)
    requires f.Shaped()
    ensures r.Shaped()
  {
    if b < |f.bits| then f.(bits := f.bits[b := false]) else f
  }

  /** Store a block number in slot `s` of inode `i`. */
  function SetPtr(f: Fs, i: nat, s: nat, b: nat): (r: Fs)
    requires f.Shaped() && i < |f.inodes| && s < SLOTS && b < WORD
    ensures r.Shaped() && |r.inodes| == |f.inodes|
  {
    var d := f.inodes[i];
    var a := d.addrs;
    if s <= NDIRECT then Fs(f.meta, f.bits, f.inodes[i := Dinode(d.kind, d.nlink, d.size, a[s := b])], f.blocks)
    else if 0 < a[NDIRECT] < |f.blocks| then
      Fs(f.meta, f.bits, f.inodes, f.blocks[a[NDIRECT] := PutWord(f.blocks[a[NDIRECT]], s - NDIRECT - 1, b)])
    else f
  }

  lemma BallocOk(f: Fs)
    requires Owned(f, {}) && Balloc(f).1 != 0
    ensures var (r, b) := Balloc(f);
            && Owned(r, {b}) && f.meta <= b < |f.bits| && !f.bits[b]
            && r.inodes == f.inodes && r.blocks == f.blocks[b := Zero()] && r.meta == f.meta
            && forall i, s :: 0 <= i < |f.inodes| && 0 <= s < SLOTS ==> Ptr(r, i, s) == Ptr(f, i, s)
  {
    var (r, b) := Balloc(f);
    forall i, s | 0 <= i < |f.inodes| && 0 <= s < SLOTS
      ensures Ptr(r, i, s) == Ptr(f, i, s)
    {
      assert Ptr(f, i, NDIRECT) != b;
    }
    forall c | Reached(f, c)
      ensures Reached(r, c)
    {
      var i, s :| 0 <= i < |f.inodes| && 0 <= s < SLOTS && Ptr(f, i, s) == c;
      assert Ptr(r, i, s) == c;
    }
  }

  /** Attaching a zeroed, unowned block to an empty slot changes that pointer and no other. */
  lemma SetPtrAt(f: Fs, i: nat, s: nat, b: nat)
    requires Owned(f, {b}) && i < |f.inodes| && s < SLOTS && Ptr(f, i, s) == 0
    requires s > NDIRECT ==> f.inodes[i].addrs[NDIRECT] != 0
    requires f.blocks[b] == Zero()
    ensures var r := SetPtr(f, i, s, b);
            forall j, t :: 0 <= j < |f.inodes| && 0 <= t < SLOTS ==>
              Ptr(r, j, t) == if j == i && t == s then b else Ptr(f, j, t)
  {
    var r := SetPtr(f, i, s, b);
    var ind := f.inodes[i].addrs[NDIRECT];
    ZeroWords();
    assert Ptr(f, i, NDIRECT) == ind;
    if s > NDIRECT {
      PutWordAt(f.blocks[ind], s - NDIRECT - 1, b);
    }
    forall j, t | 0 <= j < |f.inodes| && 0 <= t < SLOTS
      ensures Ptr(r, j, t) == if j == i && t == s then b else Ptr(f, j, t)
    {
      assert j != i && ind != 0 ==> Ptr(f, j, NDIRECT) != ind;
    }
  }

  lemma AttachOk(f: Fs, i: nat, s: nat, b: nat)
    requires Owned(f, {b}) && i < |f.inodes| && s < SLOTS && Ptr(f, i, s) == 0
    requires s > NDIRECT ==> f.inodes[i].addrs[NDIRECT] != 0
    requires f.blocks[b] == Zero()
    ensures Owned(SetPtr(f, i, s, b), {})
  {
    SetPtrAt(f, i, s, b);
    var r := SetPtr(f, i, s, b);
    hide SetPtr, Ptr;
    assert Ptr(r, i, s) == b;
    forall c | c != b && c != 0 && Reached(f, c)
      ensures Reached(r, c)
    {
      var j, t :| 0 <= j < |f.inodes| && 0 <= t < SLOTS && Ptr(f, j, t) == c;
      assert Ptr(r, j, t) == c;
    }
  }

  // ---- bmap ----

  /** balloc into an empty slot; nothing changes when the disk is full. */
  function Grow(f: Fs, i: nat, s: nat): (r: (Fs, nat))
    requires f.Shaped() && i < |f.inodes| && s < SLOTS
    ensures r.0.Shaped() && |r.0.inodes| == |f.inodes|
  {
    var (g, b) := Balloc(f);
    if b == 0 then (f, 0) else (SetPtr(g, i, s, b), b)
  }

  /** bmap: the block of file block `bn`, allocated if absent; 0 when the disk is full. */
  function Bmap(f: Fs, i: nat, bn: nat): (r: (Fs, nat))
    requires f.Shaped() && i < |f.inodes| && bn < MAXFILE
    ensures r.0.Shaped() && |r.0.inodes| == |f.inodes|
  {
    if bn < NDIRECT then
      if f.inodes[i].addrs[bn] != 0 then (f, f.inodes[i].addrs[bn]) else Grow(f, i, bn)
    else
      var (g, ind) := if f.inodes[i].addrs[NDIRECT] != 0 then (f, f.inodes[i].addrs[NDIRECT]) else Grow(f, i, NDIRECT);
      if ind == 0 then (g, 0)
      else if Ptr(g, i, bn + 1) != 0 then (g, Ptr(g, i, bn + 1))
      else Grow(g, i, bn + 1)
  }

  ghost predicate Full(f: Fs) {
    forall b :: 0 <= b < |f.bits| ==> f.bits[b]
  }

  /** `r` differs from `f` only in that slot `s` of inode `i` now has a fresh zeroed block. */
  ghost predicate Grown(f: Fs, r: Fs, i: nat, s: nat, b: nat)
    requires f.Shaped() && r.Shaped() && i < |f.inodes| && s < SLOTS
  {
    && r.meta == f.meta && |r.bits| == |f.bits| && |r.inodes| == |f.inodes|
    && f.meta <= b < |f.bits| && !f.bits[b] && r.blocks[b] == Zero()
    && r.inodes == f.inodes[i := r.inodes[i]] && SameHead(f.inodes[i], r.inodes[i])
    && (forall j, t :: 0 <= j < |f.inodes| && 0 <= t < SLOTS ==>
          Ptr(r, j, t) == if j == i && t == s then b else Ptr(f, j, t))
    && (forall c :: 0 <= c < |f.blocks| && c != b && c != Ptr(f, i, NDIRECT) ==> r.blocks[c] == f.blocks[c])
  }

  predicate SameHead(d: Dinode, e: Dinode) {
    d.kind == e.kind && d.nlink == e.nlink && d.size == e.size
  }

  lemma GrowOk(f: Fs, i: nat, s: nat)
    requires Owned(f, {}) && i < |f.inodes| && s < SLOTS && Ptr(f, i, s) == 0
    requires s > NDIRECT ==> f.inodes[i].addrs[NDIRECT] != 0
    ensures var (r, b) := Grow(f, i, s);
            && Owned(r, {})
            && if b == 0 then r == f && Full(f) else Grown(f, r, i, s, b)
  {
    var (g, b) := Balloc(f);
    if b != 0 {
      BallocOk(f);
      SetPtrAt(g, i, s, b);
      AttachOk(g, i, s, b);
      hide Exclusive, Accounted, Owned;
      assert s > NDIRECT ==> Ptr(f, i, NDIRECT) != b;
    } else {
      assert FirstFree(f.bits, 0) == |f.bits|;
    }
  }
}
