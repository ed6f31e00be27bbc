/** What is in the image that exec (kernel/exec.c) builds: the pages that a segment adds have its permissions, and every
    byte below the stack that comes from no file is zero. */
module ExecContents {
  import opened PageTable
  import opened AddressSpace
  import opened UserBytes
  import opened ProcMemory
  import opened ExecImage

  /** Where the first `k` segments end. */
  function End(segs: seq<Segment>, k: nat): (n: nat)
    requires k <= |segs|
  {
    if k == 0 then 0
    else
      var was := End(segs, k - 1);
      if segs[k - 1].Load? && segs[k - 1].vaddr + segs[k - 1].memsz > was then segs[k - 1].vaddr + segs[k - 1].memsz
      else was
  }

  /** The permissions of page `v` are those of the first segment that reaches it. */
  function Perm(segs: seq<Segment>, k: nat, v: nat): (p: set<Flag>)
    requires k <= |segs|
  {
    if k == 0 then {}
    else if v < Pages(End(segs, k - 1)) then Perm(segs, k - 1, v)
    else if segs[k - 1].Load? then segs[k - 1].xperm else {}
  }

  /** Address `a` is among the file bytes of segment `i`. */
  predicate FileByte(s: Segment, a: nat) {
    s.Load? && s.vaddr <= a < s.vaddr + s.filesz
  }

  ghost predicate NoFile(segs: seq<Segment>, k: nat, a: nat)
    requires k <= |segs|
  {
    forall i :: 0 <= i < k ==> !FileByte(segs[i], a)
  }

  /** Page `v` has the permissions that the first `kp` segments give it, and zeros where the first `kf` put no byte. */
  ghost predicate PageOk(m: Mem, pt: nat, segs: seq<Segment>, kp: nat, kf: nat, v: nat)
    requires Rooted(m, pt) && v < NVPN && kp <= |segs| && kf <= |segs|
  {
    var e := Leaf(m, pt, v);
    && e.flags == LeafFlags({R, U} + Perm(segs, kp, v)) && e.ppn in m.pages
    && forall o :: 0 <= o < PGSIZE && NoFile(segs, kf, v * PGSIZE + o) ==> m.pages[e.ppn][o] == 0
  }

  ghost predicate Laid(m: Mem, pt: nat, segs: seq<Segment>, kp: nat, kf: nat, n: nat) {
    && Rooted(m, pt) && n <= NVPN && kp <= |segs| && kf <= |segs| && n <= Pages(End(segs, kp))
    && forall v :: 0 <= v < n ==> PageOk(m, pt, segs, kp, kf, v)
  }

  lemma LaidNone(m: Mem, pt: nat, segs: seq<Segment>)
    requires Rooted(m, pt)
    ensures Laid(m, pt, segs, 0, 0, 0)
  {
  }

  lemma LaidSkip(m: Mem, pt: nat, segs: seq<Segment>, k: nat, n: nat)
    requires Laid(m, pt, segs, k, k, n) && k < |segs| && segs[k].Skipped?
    ensures Laid(m, pt, segs, k + 1, k + 1, n)
  {
    hide Leaf, Rooted, LeafFlags, Pages;
    var next := k + 1;
    forall v | 0 <= v < n
      ensures PageOk(m, pt, segs, next, next, v)
    {
      assert PageOk(m, pt, segs, k, k, v);
      assert forall a :: NoFile(segs, k + 1, a) <==> NoFile(segs, k, a);
    }
  }

  /** A page of the space that was kept. */
  lemma PageKept(g: Mem, r: Mem, pt: nat, segs: seq<Segment>, kp: nat, kf: nat, v: nat)
    requires Rooted(g, pt) && Rooted(r, pt) && v < NVPN && kp <= |segs| && kf <= |segs|
    requires PageOk(g, pt, segs, kp, kf, v)
    requires HasPage(r, pt, v, Leaf(g, pt, v).flags, g.pages[Leaf(g, pt, v).ppn])
    ensures PageOk(r, pt, segs, kp, kf, v)
  {
    hide Leaf, Rooted, LeafFlags, Perm, NoFile;
  }

  /** After uvmalloc for segment `k`. */
  lemma LaidGrown(g: Mem, r: Mem, pt: nat, segs: seq<Segment>, k: nat, n: nat, n1: nat)
    requires k < |segs| && segs[k].Load? && Laid(g, pt, segs, k, k, n) && Rooted(r, pt) && n <= n1 <= NVPN
    requires n == Pages(End(segs, k)) && n1 == Pages(End(segs, k + 1))
    requires Turned(g, r, pt, Range(0, n), Top, Range(0, n1), Top)
    requires AllZero(r, pt, n, n1, LeafFlags({R, U} + segs[k].xperm))
    ensures Laid(r, pt, segs, k + 1, k, n1)
  {
    hide Leaf, Rooted, LeafFlags, Pages, Turned, End, NoFile;
    var next := k + 1;
    forall v | 0 <= v < n1
      ensures PageOk(r, pt, segs, next, k, v)
    {
      if v < n {
        assert PageOk(g, pt, segs, k, k, v);
        assert Within(v, 0, n) && Within(v, 0, n1);
        KeptHas(g, r, pt, Range(0, n), Top, Range(0, n1), Top, v, Leaf(g, pt, v).flags, g.pages[Leaf(g, pt, v).ppn]);
        PageKept(g, r, pt, segs, k, k, v);
      } else {
        assert HasPage(r, pt, v, LeafFlags({R, U} + segs[k].xperm), Filled(0));
      }
    }
  }

  /** Or when the segment lies within what is there. */
  lemma LaidWithin(m: Mem, pt: nat, segs: seq<Segment>, k: nat, n: nat)
    requires k < |segs| && Laid(m, pt, segs, k, k, n) && End(segs, k + 1) == End(segs, k)
    ensures Laid(m, pt, segs, k + 1, k, n)
  {
    hide Leaf, Rooted, LeafFlags, Pages, NoFile, End;
    var next := k + 1;
    forall v | 0 <= v < n
      ensures PageOk(m, pt, segs, next, k, v)
    {
      assert PageOk(m, pt, segs, k, k, v);
    }
  }

  /** What uvmalloc makes of segment `k`. */
  lemma LaidAfter(g: Mem, r: Mem, pt: nat, segs: seq<Segment>, k: nat, sz: nat, grown: nat)
    requires k < |segs| && segs[k].Load? && Laid(g, pt, segs, k, k, Pages(sz)) && sz == End(segs, k)
    requires var end := segs[k].vaddr + segs[k].memsz;
             && (end < sz ==> grown == sz && r == g)
             && (sz <= end && grown != 0 ==>
                   && grown == end < WORD && Rooted(r, pt)
                   && Turned(g, r, pt, Range(0, Pages(sz)), Top, Range(0, Pages(end)), Top)
                   && AllZero(r, pt, Pages(sz), Pages(end), LeafFlags({R, U} + segs[k].xperm)))
    ensures grown != 0 ==> grown == End(segs, k + 1) && Laid(r, pt, segs, k + 1, k, Pages(grown))
  {
    hide Laid, Turned, AllZero, Rooted, Range, LeafFlags;
    var end := segs[k].vaddr + segs[k].memsz;
    if end < sz {
      LaidWithin(g, pt, segs, k, Pages(sz));
    } else if grown != 0 {
      assert Pages(sz) <= Pages(end) <= NVPN;
      LaidGrown(g, r, pt, segs, k, Pages(sz), Pages(end));
    }
  }

  /** A page in which only the stretch from `base` on was written. */
  lemma PageWrote(g: Mem, r: Mem, pt: nat, user: set<nat>, base: nat, data: seq<Byte>, v: nat, o: nat)
    requires Wrote(g, r, pt, user, Top, base, data) && Rooted(g, pt) && Rooted(r, pt) && v < NVPN && v in user
    requires o < PGSIZE && base + |data| <= WORD && !(base <= v * PGSIZE + o < base + |data|)
    requires Leaf(g, pt, v).ppn in g.pages
    ensures Leaf(r, pt, v) == Leaf(g, pt, v) && Leaf(r, pt, v).ppn in r.pages
    ensures r.pages[Leaf(r, pt, v).ppn][o] == g.pages[Leaf(g, pt, v).ppn][o]
  {
    hide Space, Leaf, Holds, UserOnly;
    SameTables(g, r, pt);
    var a := v * PGSIZE + o;
    assert a / PGSIZE == v && a % PGSIZE == o && a < WORD;
    assert forall i :: 0 <= i < |data| ==> Addr(base, i) == base + i;
  }

  /** After loadseg for segment `k`. */
  lemma LaidWrote(g: Mem, r: Mem, pt: nat, segs: seq<Segment>, k: nat, n: nat)
    requires k < |segs| && segs[k].Load? && segs[k].filesz <= |segs[k].data| && segs[k].vaddr + segs[k].filesz <= WORD
    requires Laid(g, pt, segs, k + 1, k, n) && Rooted(r, pt)
    requires Wrote(g, r, pt, Range(0, n), Top, segs[k].vaddr, segs[k].data[..segs[k].filesz])
    ensures Laid(r, pt, segs, k + 1, k + 1, n)
  {
    hide Leaf, Rooted, LeafFlags, Pages, Wrote, Perm, End;
    var next := k + 1;
    var s := segs[k];
    forall v | 0 <= v < n
      ensures PageOk(r, pt, segs, next, next, v)
    {
      assert PageOk(g, pt, segs, next, k, v);
      assert Within(v, 0, n);
      LeafWrote(g, r, pt, Range(0, n), s.vaddr, s.data[..s.filesz], v);
      forall o | 0 <= o < PGSIZE && NoFile(segs, k + 1, v * PGSIZE + o)
        ensures r.pages[Leaf(r, pt, v).ppn][o] == 0
      {
        assert !FileByte(segs[k], v * PGSIZE + o);
        PageWrote(g, r, pt, Range(0, n), s.vaddr, s.data[..s.filesz], v, o);
      }
    }
  }

  lemma LeafWrote(g: Mem, r: Mem, pt: nat, user: set<nat>, base: nat, data: seq<Byte>, v: nat)
    requires Wrote(g, r, pt, user, Top, base, data) && Rooted(g, pt) && Rooted(r, pt) && v < NVPN
    requires Leaf(g, pt, v).ppn in g.pages
    ensures Leaf(r, pt, v) == Leaf(g, pt, v) && Leaf(r, pt, v).ppn in r.pages
  {
    hide Space, Leaf, Holds, UserOnly;
    SameTables(g, r, pt);
  }

  // ---- with the stack ----

  /** The image of a program: its pages below the guard page, and a stack page that can be written. */
  ghost predicate Image(m: Mem, pt: nat, segs: seq<Segment>, sz: nat) {
    && Rooted(m, pt) && sz % PGSIZE == 0 && 2 * PGSIZE <= sz < WORD && sz / PGSIZE <= NVPN
    && Pages(End(segs, |segs|)) == sz / PGSIZE - 2
    && Laid(m, pt, segs, |segs|, |segs|, sz / PGSIZE - 2)
    && Leaf(m, pt, sz / PGSIZE - 1).flags == LeafFlags({R, U, W})
  }

  ghost predicate HasImage(m: Mem, procs: map<nat, Proc>, i: nat, segs: seq<Segment>) {
    i in procs && Image(m, procs[i].pt, segs, procs[i].sz)
  }

  /** uvmalloc of two pages, and uvmclear of the first. */
  lemma ImageMade(g: Mem, h: Mem, r: Mem, pt: nat, segs: seq<Segment>, n: nat, sz: nat)
    requires Laid(g, pt, segs, |segs|, |segs|, n) && n == Pages(End(segs, |segs|)) && sz == (n + 2) * PGSIZE < WORD
    requires Rooted(h, pt) && Rooted(r, pt) && Turned(g, h, pt, Range(0, n), Top, Range(0, n + 2), Top)
    requires n + 2 <= NVPN && AllZero(h, pt, n, n + 2, LeafFlags({R, U} + {W}))
    requires Guarded(h, r, pt, Range(0, n + 2), Top, n)
    ensures Image(r, pt, segs, sz)
  {
    hide Leaf, Rooted, LeafFlags, Pages, Turned, End, NoFile, Perm, Moved, Space, Owned;
    assert sz / PGSIZE == n + 2 && sz % PGSIZE == 0;
    forall v | 0 <= v < n
      ensures PageOk(r, pt, segs, |segs|, |segs|, v)
    {
      assert PageOk(g, pt, segs, |segs|, |segs|, v);
      assert Within(v, 0, n) && Within(v, 0, n + 2);
      KeptHas(g, h, pt, Range(0, n), Top, Range(0, n + 2), Top, v, Leaf(g, pt, v).flags, g.pages[Leaf(g, pt, v).ppn]);
      PageKept(g, h, pt, segs, |segs|, |segs|, v);
      PageKept(h, r, pt, segs, |segs|, |segs|, v);
    }
    assert HasPage(h, pt, n + 1, LeafFlags({R, U} + {W}), Filled(0));
    assert {R, U} + {W} == {R, U, W};
  }

  /** Writing to the stack page changes nothing of this. */
  lemma ImageWrote(g: Mem, r: Mem, pt: nat, segs: seq<Segment>, sz: nat, base: nat, data: seq<Byte>)
    requires Image(g, pt, segs, sz) && Rooted(r, pt) && sz - PGSIZE <= base && base + |data| <= sz
    requires Wrote(g, r, pt, Range(0, Pages(sz)), Top, base, data)
    ensures Image(r, pt, segs, sz)
  {
    hide Leaf, Rooted, LeafFlags, Wrote, Perm, End, NoFile, Range;
    var n := sz / PGSIZE - 2;
    assert Pages(sz) == n + 2;
    StackLeaf(g, r, pt, Range(0, n + 2), base, data, n + 1);
    forall v | 0 <= v < n
      ensures PageOk(r, pt, segs, |segs|, |segs|, v)
    {
      assert PageOk(g, pt, segs, |segs|, |segs|, v);
      InRange(v, n + 2);
      LeafWrote(g, r, pt, Range(0, n + 2), base, data, v);
      forall o | 0 <= o < PGSIZE
        ensures r.pages[Leaf(r, pt, v).ppn][o] == g.pages[Leaf(g, pt, v).ppn][o]
      {
        PageWrote(g, r, pt, Range(0, n + 2), base, data, v, o);
      }
    }
  }

  lemma InRange(v: nat, n: nat)
    requires v < n
    ensures v in Range(0, n)
  {
    assert Within(v, 0, n);
  }

  lemma StackLeaf(g: Mem, r: Mem, pt: nat, user: set<nat>, base: nat, data: seq<Byte>, v: nat)
    requires Wrote(g, r, pt, user, Top, base, data) && Rooted(g, pt) && Rooted(r, pt) && v < NVPN
    ensures Leaf(r, pt, v) == Leaf(g, pt, v)
  {
    hide Space, Leaf, Holds, UserOnly;
    SameTables(g, r, pt);
  }

  lemma ImageSwitched(m: Mem, g: Mem, r: Mem, p: Proc, q: Proc, trampoline: nat, data: Page, segs: seq<Segment>)
    requires Swapped(m, g, r, p, q, trampoline, data) && Image(g, q.pt, segs, q.sz)
    ensures Image(r, q.pt, segs, q.sz)
  {
    hide Image, ProcOk, Moved, Foot, Kept, Rooted, Leaf;
    ImageStays(g, r, q.pt, segs, q.sz);
  }

  /** Nor does the switch to the new image. */
  lemma ImageStays(g: Mem, r: Mem, pt: nat, segs: seq<Segment>, sz: nat)
    requires Image(g, pt, segs, sz) && Rooted(r, pt)
    requires Kept(g, r, pt, Range(0, Pages(sz)), Top) && SameLeaves(g, r, pt, {})
    ensures Image(r, pt, segs, sz)
  {
    hide Leaf, Rooted, LeafFlags, Perm, End, NoFile;
    var n := sz / PGSIZE - 2;
    assert Pages(sz) == n + 2;
    forall v | 0 <= v < n
      ensures PageOk(r, pt, segs, |segs|, |segs|, v)
    {
      assert PageOk(g, pt, segs, |segs|, |segs|, v);
      assert Within(v, 0, n + 2);
      PageKept(g, r, pt, segs, |segs|, |segs|, v);
    }
  }
}
