/** An address space that exec (kernel/exec.c) is building, before any process has it. */
module ExecImage {
  import opened PageTable
  import opened AddressSpace
  import opened UserBytes
  import opened ProcMemory

  /** Since `m` only free pages were taken, and they make up the space `pt` of `sz` bytes. */
  ghost predicate Building(m: Mem, g: Mem, pt: nat, sz: nat, tf: nat, trampoline: nat) {
    && Space(g, pt, Range(0, Pages(sz)), Top) && sz < WORD
    && Leaf(g, pt, TRAPFRAME) == Pte(tf, LeafFlags({R, W}))
    && Leaf(g, pt, TRAMPOLINE) == Pte(trampoline, LeafFlags({R, X}))
    && Moved(m, g, {}, Owned(g, pt, Range(0, Pages(sz))))
  }

  lemma BuildFacts(m: Mem, g: Mem, pt: nat, sz: nat, tf: nat, trampoline: nat)
    requires Building(m, g, pt, sz, tf, trampoline)
    ensures Rooted(g, pt) && Space(g, pt, Range(0, Pages(sz)), Top) && UserOnly(g, pt, Range(0, Pages(sz)), Top)
      && sz < WORD
    ensures Wf(g) && All(g) == All(m)
  {
    TopFlags();
  }

  lemma TopFlags()
    ensures U !in LeafFlags({R, W}) && U !in LeafFlags({R, X})
  {
  }

  lemma BuildTurned(m: Mem, g: Mem, r: Mem, pt: nat, sz: nat, sz1: nat, tf: nat, trampoline: nat)
    requires Building(m, g, pt, sz, tf, trampoline) && sz1 < WORD
    requires Turned(g, r, pt, Range(0, Pages(sz)), Top, Range(0, Pages(sz1)), Top)
    ensures Building(m, r, pt, sz1, tf, trampoline)
  {
    hide Moved, Owned, Leaf, Space, Range;
    SpaceRooted(g, pt, Range(0, Pages(sz)), Top);
    SpaceRooted(r, pt, Range(0, Pages(sz1)), Top);
    assert TRAPFRAME in Top * Top && TRAMPOLINE in Top * Top;
    MovedTrans(m, g, r, {}, Owned(g, pt, Range(0, Pages(sz))), Owned(r, pt, Range(0, Pages(sz1))));
  }

  lemma WroteMoved(g: Mem, r: Mem, pt: nat, user: set<nat>, extra: set<nat>, base: nat, data: seq<Byte>)
    requires Wf(g) && Wf(r) && Wrote(g, r, pt, user, extra, base, data) && Rooted(g, pt) && Rooted(r, pt)
    ensures Moved(g, r, Owned(g, pt, user), Owned(r, pt, user)) && SameLeaves(g, r, pt, {})
  {
    hide Leaf, Holds, All;
    SameTables(g, r, pt);
    SameTargets(g, r, pt, user);
    SameAll(g, r);
    OwnedUsed(g, pt, user, extra);
  }

  lemma BuildWrote(m: Mem, g: Mem, r: Mem, pt: nat, sz: nat, tf: nat, trampoline: nat, base: nat, data: seq<Byte>)
    requires Building(m, g, pt, sz, tf, trampoline) && Wf(r)
    requires Wrote(g, r, pt, Range(0, Pages(sz)), Top, base, data)
    ensures Building(m, r, pt, sz, tf, trampoline)
  {
    hide Moved, Owned, Leaf, Space, Range, Holds, All, Wf;
    var user := Range(0, Pages(sz));
    BuildFacts(m, g, pt, sz, tf, trampoline);
    SpaceRooted(r, pt, user, Top);
    WroteMoved(g, r, pt, user, Top, base, data);
    MovedTrans(m, g, r, {}, Owned(g, pt, user), Owned(r, pt, user));
  }

  lemma BuildGuarded(m: Mem, g: Mem, r: Mem, pt: nat, sz: nat, tf: nat, trampoline: nat, v: nat)
    requires Building(m, g, pt, sz, tf, trampoline) && Guarded(g, r, pt, Range(0, Pages(sz)), Top, v)
    ensures Building(m, r, pt, sz, tf, trampoline)
  {
    hide Moved, Owned, Leaf;
    MovedTrans(m, g, r, {}, Owned(g, pt, Range(0, Pages(sz))), Owned(r, pt, Range(0, Pages(sz))));
  }

  /** The user can reach every page. */
  ghost predicate AllOpen(m: Mem, pt: nat, n: nat)
    requires Rooted(m, pt) && n <= NVPN
  {
    forall v :: 0 <= v < n ==> Leaf(m, pt, v).Valid() && U in Leaf(m, pt, v).flags
  }

  lemma OpenReadable(m: Mem, pt: nat, sz: nat, base: nat, i: nat)
    requires Rooted(m, pt) && Pages(sz) <= NVPN && AllOpen(m, pt, Pages(sz)) && base + i < sz < WORD
    ensures Readable(m, pt, Addr(base, i)) && Addr(base, i) == base + i
  {
    assert (base + i) / PGSIZE < Pages(sz);
  }

  lemma OpenGrown(g: Mem, r: Mem, pt: nat, n: nat, k: nat, xperm: set<Flag>)
    requires n <= k <= NVPN && Turned(g, r, pt, Range(0, n), Top, Range(0, k), Top) && Rooted(g, pt) && Rooted(r, pt)
    requires AllOpen(g, pt, n) && AllZero(r, pt, n, k, LeafFlags({R, U} + xperm))
    ensures AllOpen(r, pt, k)
  {
    hide Moved, Owned;
    forall v | 0 <= v < k
      ensures Leaf(r, pt, v).Valid() && U in Leaf(r, pt, v).flags
    {
      if v < n {
        assert Within(v, 0, n) && Within(v, 0, k);
        assert v in Range(0, n) * Range(0, k);
      } else {
        assert HasPage(r, pt, v, LeafFlags({R, U} + xperm), Filled(0));
        assert V in LeafFlags({R, U} + xperm) && U in LeafFlags({R, U} + xperm);
      }
    }
  }

  // ---- contents stay readable ----

  lemma HoldsTurned(g: Mem, r: Mem, pt: nat, n: nat, k: nat, base: nat, data: seq<Byte>)
    requires UserOnly(g, pt, Range(0, n), Top) && Rooted(g, pt) && Rooted(r, pt) && n <= k
    requires Turned(g, r, pt, Range(0, n), Top, Range(0, k), Top) && Holds(g, pt, base, data)
    ensures Holds(r, pt, base, data)
  {
    hide Moved, Owned, Space, Leaf;
    forall i | 0 <= i < |data|
      ensures var a := Addr(base, i);
              Readable(r, pt, a) && Leaf(r, pt, a / PGSIZE).ppn in r.pages && ByteAt(r, pt, a) == data[i]
    {
      var a := Addr(base, i);
      ReadablePage(g, pt, Range(0, n), Top, a);
      assert Within(a / PGSIZE, 0, k);
      assert a / PGSIZE in Range(0, n) * Range(0, k);
    }
  }

  /** The two stretches of addresses have none in common. */
  ghost predicate Apart(base: nat, n: nat, base1: nat, n1: nat) {
    base + n <= WORD && base1 + n1 <= WORD && (base + n <= base1 || base1 + n1 <= base)
  }

  lemma HoldsWrote(g: Mem, r: Mem, pt: nat, user: set<nat>, extra: set<nat>, base: nat, data: seq<Byte>, base1: nat,
                   data1: seq<Byte>)
    requires Wrote(g, r, pt, user, extra, base, data) && Rooted(g, pt) && Rooted(r, pt) && Holds(g, pt, base1, data1)
    requires Apart(base, |data|, base1, |data1|)
    ensures Holds(r, pt, base1, data1)
  {
    hide Space, Leaf;
    SameTables(g, r, pt);
    forall i | 0 <= i < |data1|
      ensures var a := Addr(base1, i);
              Readable(r, pt, a) && Leaf(r, pt, a / PGSIZE).ppn in r.pages && ByteAt(r, pt, a) == data1[i]
    {
      var a := Addr(base1, i);
      ReadablePage(g, pt, user, extra, a);
      assert a == base1 + i;
      assert forall j :: 0 <= j < |data| ==> a != Addr(base, j);
    }
  }

  lemma HoldsGuarded(g: Mem, r: Mem, pt: nat, user: set<nat>, v: nat, base: nat, data: seq<Byte>)
    requires Guarded(g, r, pt, user, Top, v) && Rooted(g, pt) && Rooted(r, pt) && Holds(g, pt, base, data)
    requires Apart(base, |data|, v * PGSIZE, PGSIZE)
    ensures Holds(r, pt, base, data)
  {
    hide Space, Leaf, Moved, Owned;
    forall i | 0 <= i < |data|
      ensures var a := Addr(base, i);
              Readable(r, pt, a) && Leaf(r, pt, a / PGSIZE).ppn in r.pages && ByteAt(r, pt, a) == data[i]
    {
      assert Addr(base, i) == base + i && (base + i) / PGSIZE != v;
    }
  }

  // ---- segments ----

  /** A program header: unreadable, not to be loaded, or a segment with the bytes its file has from
      the segment's offset on. */
  datatype Segment = Broken | Skipped | Load(vaddr: nat, filesz: nat, memsz: nat, xperm: set<Flag>, data: seq<Byte>)

  predicate Words(segs: seq<Segment>) {
    forall i :: 0 <= i < |segs| && segs[i].Load? ==>
      segs[i].vaddr < WORD && segs[i].filesz < WORD && segs[i].memsz < WORD
  }

  ghost predicate SegsApart(segs: seq<Segment>) {
    forall i, j :: 0 <= i < j < |segs| && segs[i].Load? && segs[j].Load? ==>
      Apart(segs[j].vaddr, segs[j].filesz, segs[i].vaddr, segs[i].filesz)
  }

  /** A loaded segment lies below `sz`; its file bytes are in memory when `exact`. */
  ghost predicate LoadedAt(m: Mem, pt: nat, s: Segment, sz: nat, exact: bool)
    requires Rooted(m, pt)
  {
    s.Load? ==> && s.filesz <= s.memsz && s.vaddr + s.memsz <= sz && s.vaddr % PGSIZE == 0 && s.filesz <= |s.data|
                && (exact ==> Holds(m, pt, s.vaddr, s.data[..s.filesz]))
  }

  ghost predicate Loaded(m: Mem, pt: nat, segs: seq<Segment>, k: nat, sz: nat)
    requires Rooted(m, pt) && k <= |segs|
  {
    forall i :: 0 <= i < k ==> !segs[i].Broken? && LoadedAt(m, pt, segs[i], sz, SegsApart(segs))
  }

  lemma LoadedTurned(g: Mem, r: Mem, pt: nat, segs: seq<Segment>, k: nat, sz: nat, sz1: nat)
    requires UserOnly(g, pt, Range(0, Pages(sz)), Top) && Rooted(g, pt) && Rooted(r, pt) && k <= |segs| && sz <= sz1
    requires Turned(g, r, pt, Range(0, Pages(sz)), Top, Range(0, Pages(sz1)), Top) && Loaded(g, pt, segs, k, sz)
    ensures Loaded(r, pt, segs, k, sz1)
  {
    hide Turned, Holds, UserOnly, Range, Rooted, SegsApart;
    forall i | 0 <= i < k
      ensures !segs[i].Broken? && LoadedAt(r, pt, segs[i], sz1, SegsApart(segs))
    {
      if segs[i].Load? && SegsApart(segs) {
        HoldsTurned(g, r, pt, Pages(sz), Pages(sz1), segs[i].vaddr, segs[i].data[..segs[i].filesz]);
      }
    }
  }

  lemma LoadedWrote(g: Mem, r: Mem, pt: nat, segs: seq<Segment>, k: nat, sz: nat)
    requires k < |segs| && segs[k].Load? && segs[k].filesz <= |segs[k].data| && Rooted(g, pt) && Rooted(r, pt)
    requires Wrote(g, r, pt, Range(0, Pages(sz)), Top, segs[k].vaddr, segs[k].data[..segs[k].filesz])
    requires segs[k].filesz <= segs[k].memsz && segs[k].vaddr + segs[k].memsz <= sz && segs[k].vaddr % PGSIZE == 0
    requires Loaded(g, pt, segs, k, sz)
    ensures Loaded(r, pt, segs, k + 1, sz)
  {
    hide Holds, UserOnly, Range, Rooted, Apart, Leaf;
    forall i | 0 <= i < k + 1
      ensures !segs[i].Broken? && LoadedAt(r, pt, segs[i], sz, SegsApart(segs))
    {
      if i < k && segs[i].Load? && SegsApart(segs) {
        assert LoadedAt(g, pt, segs[i], sz, true);
        HoldsWrote(g, r, pt, Range(0, Pages(sz)), Top, segs[k].vaddr, segs[k].data[..segs[k].filesz], segs[i].vaddr,
            segs[i].data[..segs[i].filesz]);
      }
    }
  }

  lemma LoadedNone(m: Mem, pt: nat, segs: seq<Segment>)
    requires Rooted(m, pt)
    ensures Loaded(m, pt, segs, 0, 0) && AllOpen(m, pt, 0)
  {
  }

  lemma LoadedSkip(m: Mem, pt: nat, segs: seq<Segment>, k: nat, sz: nat)
    requires Rooted(m, pt) && k < |segs| && segs[k].Skipped? && Loaded(m, pt, segs, k, sz)
    ensures Loaded(m, pt, segs, k + 1, sz)
  {
    hide SegsApart;
  }

  lemma OpenWrote(g: Mem, r: Mem, pt: nat, sz: nat, base: nat, data: seq<Byte>)
    requires Rooted(g, pt) && Rooted(r, pt) && Wrote(g, r, pt, Range(0, Pages(sz)), Top, base, data)
    requires Pages(sz) <= NVPN && AllOpen(g, pt, Pages(sz))
    ensures AllOpen(r, pt, Pages(sz))
  {
    hide Holds, UserOnly, Leaf;
    SameTables(g, r, pt);
  }

  /** What uvmalloc returned to exec: the new size, or 0 with everything as it was. */
  lemma GrewTo(m: Mem, g: Mem, r: Mem, pt: nat, sz: nat, newsz: nat, sz1: nat, tf: nat, trampoline: nat,
               xperm: set<Flag>,
               segs: seq<Segment>, k: nat)
    requires Building(m, g, pt, sz, tf, trampoline) && newsz < WORD && Rooted(g, pt) && Pages(sz) <= NVPN && k <= |segs|
    requires AllOpen(g, pt, Pages(sz)) && Loaded(g, pt, segs, k, sz)
    requires newsz < sz ==> sz1 == sz && r == g
    requires sz <= newsz ==> sz1 == newsz || sz1 == 0
    requires sz <= newsz ==>
      Turned(g, r, pt, Range(0, Pages(sz)), Top, Range(0, if sz1 == 0 then Pages(sz) else Pages(newsz)), Top)
    requires sz <= newsz && sz1 != 0 ==>
      Rooted(r, pt) && AllZero(r, pt, Pages(sz), Pages(newsz), LeafFlags({R, U} + xperm))
    ensures Building(m, r, pt, if sz1 == 0 then sz else sz1, tf, trampoline)
    ensures sz1 != 0 ==> sz <= sz1 && newsz <= sz1 && Rooted(r, pt) && Pages(sz1) <= NVPN && AllOpen(r, pt, Pages(sz1))
    ensures sz1 != 0 ==> Loaded(r, pt, segs, k, sz1)
  {
    hide Building, Turned, AllOpen, Loaded, AllZero, Range;
    BuildFacts(m, g, pt, sz, tf, trampoline);
    if sz <= newsz {
      BuildTurned(m, g, r, pt, sz, if sz1 == 0 then sz else newsz, tf, trampoline);
      if sz1 != 0 {
        OpenGrown(g, r, pt, Pages(sz), Pages(newsz), xperm);
        LoadedTurned(g, r, pt, segs, k, sz, newsz);
      }
    }
  }

  // ---- the stack ----

  const MAXARG := 16

  /** The word that four bytes make, least significant first. */
  function Value(b: seq<Byte>): (w: int)
    requires |b| == 4
  {
    var x: int, y: int, z: int, w: int := b[0], b[1], b[2], b[3];
    x + 256 * y + 65536 * z + 16777216 * w
  }

  function Le(w: nat): (b: seq<Byte>)
    ensures |b| == 4 && Value(b) == w % WORD
  {
    Digits(w);
    [w % 256, w / 256 % 256, w / 65536 % 256, w / 16777216 % 256]
  }

  lemma Digits(w: nat)
    ensures w % 256 + 256 * (w / 256 % 256) + 65536 * (w / 65536 % 256) + 16777216 * (w / 16777216 % 256) == w % WORD
  {
    var a := w / 256;
    var b := a / 256;
    var c := b / 256;
    assert w / 65536 == b && w / 16777216 == c;
    assert w == w % 256 + 256 * a && a == a % 256 + 256 * b && b == b % 256 + 256 * c && c == c % 256 + 256 * (c / 256);
    assert w == w % 256 + 256 * (a % 256) + 65536 * (b % 256) + 16777216 * (c % 256) + WORD * (c / 256);
  }

  function LeWords(ws: seq<nat>): (b: seq<Byte>)
    ensures |b| == 4 * |ws|
  {
    if ws == [] then [] else LeWords(ws[..|ws| - 1]) + Le(ws[|ws| - 1])
  }

  lemma {:induction false} LeWordsAt(ws: seq<nat>, k: nat)
    requires k < |ws|
    ensures LeWords(ws)[4 * k..4 * k + 4] == Le(ws[k])
  {
    hide Le;
    var n := |ws| - 1;
    if k < n {
      LeWordsAt(ws[..n], k);
      assert LeWords(ws)[4 * k..4 * k + 4] == LeWords(ws[..n])[4 * k..4 * k + 4];
    }
  }

  ghost predicate Reachable(m: Mem, pt: nat, a: nat) {
    Rooted(m, pt) && a < WORD && Readable(m, pt, a) && Leaf(m, pt, a / PGSIZE).ppn in m.pages
  }

  /** The user finds the word `w` at address `a`. */
  ghost predicate WordAt(m: Mem, pt: nat, a: nat, w: nat) {
    && Reachable(m, pt, a) && Reachable(m, pt, a + 1) && Reachable(m, pt, a + 2) && Reachable(m, pt, a + 3)
    && Value([ByteAt(m, pt, a), ByteAt(m, pt, a + 1), ByteAt(m, pt, a + 2), ByteAt(m, pt, a + 3)]) == w
  }

  /** An array of words from `a` on, and a null after them. */
  ghost predicate Argv(m: Mem, pt: nat, a: nat, ws: seq<nat>) {
    forall k :: 0 <= k <= |ws| ==> NthWord(m, pt, a, k, if k < |ws| then ws[k] else 0)
  }

  ghost predicate NthWord(m: Mem, pt: nat, a: nat, k: nat, w: nat) {
    WordAt(m, pt, a + 4 * k, w)
  }

  lemma ByteHeld(m: Mem, pt: nat, a: nat, data: seq<Byte>, i: nat)
    requires Rooted(m, pt) && Holds(m, pt, a, data) && a + |data| <= WORD && i < |data|
    ensures Reachable(m, pt, a + i) && ByteAt(m, pt, a + i) == data[i]
  {
    hide Leaf, Rooted;
    assert Addr(a, i) == a + i;
  }

  /** Four bytes of a longer stretch. */
  lemma FourHeld(m: Mem, pt: nat, a: nat, data: seq<Byte>, n: nat, w: nat)
    requires Rooted(m, pt) && Holds(m, pt, a, data) && a + |data| <= WORD && n + 4 <= |data|
    requires data[n..n + 4] == Le(w) && w < WORD
    ensures WordAt(m, pt, a + n, w)
  {
    hide Leaf, Rooted, Holds, Reachable, ByteAt, Value, Le;
    ByteHeld(m, pt, a, data, n);
    ByteHeld(m, pt, a, data, n + 1);
    ByteHeld(m, pt, a, data, n + 2);
    ByteHeld(m, pt, a, data, n + 3);
    assert data[n..n + 4] == [data[n], data[n + 1], data[n + 2], data[n + 3]];
    assert w % WORD == w;
  }

  lemma {:induction false} ArgvHeld(m: Mem, pt: nat, a: nat, ws: seq<nat>)
    requires Rooted(m, pt) && Holds(m, pt, a, LeWords(ws + [0])) && a + 4 * (|ws| + 1) <= WORD
    requires forall k :: 0 <= k < |ws| ==> ws[k] < WORD
    ensures Argv(m, pt, a, ws)
  {
    hide Holds, LeWords, Rooted, Leaf, NthWord, Le;
    forall k | 0 <= k <= |ws|
      ensures NthWord(m, pt, a, k, if k < |ws| then ws[k] else 0)
    {
      NthOfArgv(m, pt, a, ws, k);
    }
  }

  lemma {:induction false} NthOfArgv(m: Mem, pt: nat, a: nat, ws: seq<nat>, k: nat)
    requires Rooted(m, pt) && Holds(m, pt, a, LeWords(ws + [0])) && a + 4 * (|ws| + 1) <= WORD && k <= |ws|
    requires k < |ws| ==> ws[k] < WORD
    ensures NthWord(m, pt, a, k, if k < |ws| then ws[k] else 0)
  {
    hide Holds, LeWords, Rooted, Leaf, NthWord, Le;
    var all := ws + [0];
    LeWordsAt(all, k);
    NthHeld(m, pt, a, LeWords(all), k, all[k]);
  }

  lemma NthHeld(m: Mem, pt: nat, a: nat, data: seq<Byte>, k: nat, w: nat)
    requires Rooted(m, pt) && Holds(m, pt, a, data) && a + |data| <= WORD && 4 * k + 4 <= |data|
    requires data[4 * k..4 * k + 4] == Le(w) && w < WORD
    ensures NthWord(m, pt, a, k, w)
  {
    hide Holds, Rooted, Leaf, WordAt, Le;
    FourHeld(m, pt, a, data, 4 * k, w);
  }

  /** The last page is the stack, open to the user; the page before it is closed. */
  ghost predicate StackPage(m: Mem, pt: nat, sz: nat)
    requires Rooted(m, pt)
  {
    && 2 * PGSIZE <= sz < WORD && sz % PGSIZE == 0
    && (forall a :: sz - PGSIZE <= a < sz ==> Readable(m, pt, a))
    && (forall a :: sz - 2 * PGSIZE <= a < sz - PGSIZE ==> !Readable(m, pt, a))
  }

  /** The segments are loaded, and the first `k` argument strings lie on the stack from `sp` up. */
  ghost predicate Stacked(m: Mem, pt: nat, sz: nat, segs: seq<Segment>, addrs: seq<nat>, args: seq<seq<Byte>>,
                          sp: nat) {
    && Rooted(m, pt) && StackPage(m, pt, sz) && Loaded(m, pt, segs, |segs|, sz - 2 * PGSIZE)
    && |addrs| <= |args| && sz - PGSIZE <= sp <= sz
    && forall i :: 0 <= i < |addrs| ==> sp <= addrs[i] && addrs[i] + |args[i]| <= sz && Holds(m, pt, addrs[i], args[i])
  }

  lemma StackedWrote(g: Mem, r: Mem, pt: nat, sz: nat, segs: seq<Segment>, addrs: seq<nat>, args: seq<seq<Byte>>,
                     sp: nat, to: nat, data: seq<Byte>)
    requires Stacked(g, pt, sz, segs, addrs, args, sp) && sz - PGSIZE <= to && to + |data| <= sp
    requires Wrote(g, r, pt, Range(0, Pages(sz)), Top, to, data)
    ensures Stacked(r, pt, sz, segs, addrs, args, sp) && Holds(r, pt, to, data)
  {
    hide Holds, Range, Leaf, UserOnly, SegsApart;
    SameTables(g, r, pt);
    assert forall a :: sz - 2 * PGSIZE <= a < sz ==> (Readable(r, pt, a) <==> Readable(g, pt, a));
    assert StackPage(r, pt, sz);
    forall i | 0 <= i < |addrs|
      ensures Holds(r, pt, addrs[i], args[i])
    {
      HoldsWrote(g, r, pt, Range(0, Pages(sz)), Top, to, data, addrs[i], args[i]);
    }
    forall i | 0 <= i < |segs|
      ensures !segs[i].Broken? && LoadedAt(r, pt, segs[i], sz - 2 * PGSIZE, SegsApart(segs))
    {
      if segs[i].Load? && SegsApart(segs) {
        HoldsWrote(g, r, pt, Range(0, Pages(sz)), Top, to, data, segs[i].vaddr, segs[i].data[..segs[i].filesz]);
      }
    }
  }

  lemma StackedPush(m: Mem, pt: nat, sz: nat, segs: seq<Segment>, addrs: seq<nat>, args: seq<seq<Byte>>, sp: nat,
                    to: nat)
    requires Stacked(m, pt, sz, segs, addrs, args, sp) && |addrs| < |args| && sz - PGSIZE <= to
    requires to + |args[|addrs|]| <= sp && Holds(m, pt, to, args[|addrs|])
    ensures Stacked(m, pt, sz, segs, addrs + [to], args, to)
  {
    hide Holds, Loaded, StackPage;
  }

  /** What uvmclear leaves: the guard closed, the rest as it was. */
  lemma StackedFirst(g: Mem, r: Mem, pt: nat, sz: nat, segs: seq<Segment>, args: seq<seq<Byte>>)
    requires Rooted(g, pt) && sz % PGSIZE == 0 && 2 * PGSIZE <= sz < WORD && Pages(sz) <= NVPN
      && AllOpen(g, pt, Pages(sz))
    requires Guarded(g, r, pt, Range(0, Pages(sz)), Top, sz / PGSIZE - 2)
      && Loaded(g, pt, segs, |segs|, sz - 2 * PGSIZE)
    ensures Stacked(r, pt, sz, segs, [], args, sz)
  {
    hide Holds, Range, Leaf, Space, SegsApart, Moved, Owned;
    var v := sz / PGSIZE - 2;
    SpaceRooted(r, pt, Range(0, Pages(sz)), Top);
    forall a | sz - PGSIZE <= a < sz
      ensures Readable(r, pt, a)
    {
      assert a / PGSIZE == v + 1;
    }
    forall a | sz - 2 * PGSIZE <= a < sz - PGSIZE
      ensures !Readable(r, pt, a)
    {
      assert a / PGSIZE == v;
    }
    forall i | 0 <= i < |segs|
      ensures !segs[i].Broken? && LoadedAt(r, pt, segs[i], sz - 2 * PGSIZE, SegsApart(segs))
    {
      if segs[i].Load? && SegsApart(segs) {
        HoldsGuarded(g, r, pt, Range(0, Pages(sz)), v, segs[i].vaddr, segs[i].data[..segs[i].filesz]);
      }
    }
  }

  lemma StackedSize(m: Mem, pt: nat, sz: nat, segs: seq<Segment>, addrs: seq<nat>, args: seq<seq<Byte>>, sp: nat)
    requires Stacked(m, pt, sz, segs, addrs, args, sp)
    ensures 2 * PGSIZE <= sz < WORD && sz % PGSIZE == 0 && sz - PGSIZE <= sp <= sz && Rooted(m, pt)
  {
  }

  lemma StackedFits(m: Mem, pt: nat, sz: nat, segs: seq<Segment>, addrs: seq<nat>, args: seq<seq<Byte>>, sp: nat)
    requires Stacked(m, pt, sz, segs, addrs, args, sp)
    ensures sp <= sz < WORD && forall k :: 0 <= k < |addrs| ==> addrs[k] < WORD
  {
    hide Holds, Loaded;
  }

  lemma StackedLower(m: Mem, pt: nat, sz: nat, segs: seq<Segment>, addrs: seq<nat>, args: seq<seq<Byte>>, sp: nat,
                     to: nat)
    requires Stacked(m, pt, sz, segs, addrs, args, sp) && sz - PGSIZE <= to <= sp
    ensures Stacked(m, pt, sz, segs, addrs, args, to) && Rooted(m, pt)
  {
    hide Holds, Loaded, StackPage;
  }

  // ---- the switch to the new image ----

  function PutWord(p: Page, k: nat, w: nat): (r: Page)
    requires 4 * k + 4 <= PGSIZE
    ensures r[4 * k..4 * k + 4] == Le(w)
    ensures forall i :: 0 <= i < PGSIZE && !(4 * k <= i < 4 * k + 4) ==> r[i] == p[i]
  {
    p[..4 * k] + Le(w) + p[4 * k + 4..]
  }

  /** a1, epc and sp of the trapframe, its words 15, 3 and 6. */
  function Entered(p: Page, entry: nat, sp: nat): (r: Page)
    ensures r[60..64] == Le(sp) && r[12..16] == Le(entry) && r[24..28] == Le(sp)
    ensures forall i :: 0 <= i < PGSIZE && !(12 <= i < 16) && !(24 <= i < 28) && !(60 <= i < 64) ==> r[i] == p[i]
  {
    var a := PutWord(p, 15, sp);
    var b := PutWord(a, 3, entry);
    var c := PutWord(b, 6, sp);
    assert c[60..64] == b[60..64] == a[60..64];
    assert c[12..16] == b[12..16];
    c
  }

  /** Process `q` is about to enter the program: segments, guard page, arguments and registers. */
  ghost predicate Launched(r: Mem, q: Proc, segs: seq<Segment>, args: seq<seq<Byte>>, entry: nat, sp: nat,
                           addrs: seq<nat>) {
    && Stacked(r, q.pt, q.sz, segs, addrs, args, sp) && sp % 16 == 0 && |addrs| == |args|
    && Argv(r, q.pt, sp, addrs)
    && q.tf in r.pages && Value(r.pages[q.tf][60..64]) == sp && Value(r.pages[q.tf][12..16]) == entry % WORD
    && Value(r.pages[q.tf][24..28]) == sp
  }

  /** exec put a new image in place of that of process `i`. */
  ghost predicate Execed(m: Mem, r: Mem, before: map<nat, Proc>, after: map<nat, Proc>, i: nat,
                         segs: seq<Segment>, args: seq<seq<Byte>>, entry: nat, sp: nat, addrs: seq<nat>) {
    && Only(m, r, before, after, i) && i in before && i in after && after[i].tf == before[i].tf
    && Launched(r, after[i], segs, args, entry, sp, addrs)
  }

  lemma HoldsKept(g: Mem, r: Mem, pt: nat, user: set<nat>, base: nat, data: seq<Byte>)
    requires UserOnly(g, pt, user, Top) && Rooted(g, pt) && Kept(g, r, pt, user, Top) && SameLeaves(g, r, pt, {})
    requires Holds(g, pt, base, data)
    ensures Holds(r, pt, base, data)
  {
    hide Leaf, Space, Rooted;
    forall i | 0 <= i < |data|
      ensures var a := Addr(base, i);
              Readable(r, pt, a) && Leaf(r, pt, a / PGSIZE).ppn in r.pages && ByteAt(r, pt, a) == data[i]
    {
      ReadablePage(g, pt, user, Top, Addr(base, i));
    }
  }

  lemma StackedKept(g: Mem, r: Mem, pt: nat, sz: nat, user: set<nat>, segs: seq<Segment>, addrs: seq<nat>,
                    args: seq<seq<Byte>>, sp: nat)
    requires UserOnly(g, pt, user, Top) && Rooted(g, pt) && Rooted(r, pt) && Kept(g, r, pt, user, Top)
      && SameLeaves(g, r, pt, {})
    requires Stacked(g, pt, sz, segs, addrs, args, sp)
    ensures Stacked(r, pt, sz, segs, addrs, args, sp)
  {
    hide Holds, Leaf, UserOnly, SegsApart, Kept, Rooted;
    assert forall a :: sz - 2 * PGSIZE <= a < sz ==> (Readable(r, pt, a) <==> Readable(g, pt, a));
    assert StackPage(r, pt, sz);
    forall i | 0 <= i < |addrs|
      ensures Holds(r, pt, addrs[i], args[i])
    {
      HoldsKept(g, r, pt, user, addrs[i], args[i]);
    }
    forall i | 0 <= i < |segs|
      ensures !segs[i].Broken? && LoadedAt(r, pt, segs[i], sz - 2 * PGSIZE, SegsApart(segs))
    {
      if segs[i].Load? && SegsApart(segs) {
        HoldsKept(g, r, pt, user, segs[i].vaddr, segs[i].data[..segs[i].filesz]);
      }
    }
  }

  /** The old image goes, the new one and the trapframe stay. */
  ghost predicate Swapped(m: Mem, g: Mem, r: Mem, p: Proc, q: Proc, trampoline: nat, data: Page) {
    && ProcOk(r, q, trampoline) && FootMoved(m, r, p, q) && ImageKept(g, r, q)
    && q.tf in r.pages && r.pages[q.tf] == data
  }

  ghost predicate FootMoved(m: Mem, r: Mem, p: Proc, q: Proc) {
    Rooted(m, p.pt) && Rooted(r, q.pt) && Moved(m, r, Foot(m, p), Foot(r, q))
  }

  ghost predicate ImageKept(g: Mem, r: Mem, q: Proc) {
    Rooted(g, q.pt) && Rooted(r, q.pt) && Kept(g, r, q.pt, User(q), Top) && SameLeaves(g, r, q.pt, {})
  }

  /** Before the switch: both images are sound and share nothing. */
  lemma BothImages(m: Mem, g: Mem, p: Proc, q: Proc, trampoline: nat)
    requires ProcOk(m, p, trampoline) && Rooted(m, p.pt) && Foot(m, p) <= Used(m) && q.tf == p.tf
    requires Building(m, g, q.pt, q.sz, p.tf, trampoline)
    ensures ProcOk(g, p, trampoline) && ProcOk(g, q, trampoline) && Rooted(g, p.pt) && Rooted(g, q.pt)
    ensures Foot(g, p) == Foot(m, p) && Foot(g, p) <= Used(g) && Owned(g, q.pt, User(q)) !! Foot(g, p)
    ensures Owned(g, q.pt, User(q)) <= Used(g) && Moved(m, g, Foot(m, p), Owned(g, q.pt, User(q)) + Foot(m, p))
    ensures p.tf in g.pages && g.pages[p.tf] == m.pages[p.tf]
  {
    hide Leaf, Space, Owned, Rooted, All;
    BuildFacts(m, g, q.pt, q.sz, p.tf, trampoline);
    OtherProc(m, g, p, trampoline, {}, Owned(g, q.pt, User(q)));
    OkRooted(g, p, trampoline);
    MovedFrame(m, g, {}, Owned(g, q.pt, User(q)), Foot(m, p));
  }

  lemma Switch(m: Mem, g: Mem, p: Proc, q: Proc, trampoline: nat, data: Page)
    requires ProcOk(m, p, trampoline) && Rooted(m, p.pt) && Foot(m, p) <= Used(m) && q.tf == p.tf
    requires Building(m, g, q.pt, q.sz, p.tf, trampoline)
    ensures var h := g.(pages := g.pages[p.tf := data]);
            && Wf(h) && All(h) == All(m) && Space(h, p.pt, User(p), Top)
            && Rooted(h, p.pt)
            && forall r :: Moved(h, r, Owned(h, p.pt, User(p)), {}) ==> Swapped(m, g, r, p, q, trampoline, data)
  {
    hide Leaf, Space, Owned, Rooted, All, Moved, Wf, Foot, ProcOk, Building, Swapped, User;
    BuildFacts(m, g, q.pt, q.sz, p.tf, trampoline);
    BothImages(m, g, p, q, trampoline);
    TrapframeSet(g, p, trampoline, data);
    var h := g.(pages := g.pages[p.tf := data]);
    ProcSpace(h, p, trampoline);
    forall r | Moved(h, r, Owned(h, p.pt, User(p)), {})
      ensures Swapped(m, g, r, p, q, trampoline, data)
    {
      SwitchTo(m, g, h, r, p, q, trampoline, data);
    }
  }

  lemma SwitchTo(m: Mem, g: Mem, h: Mem, r: Mem, p: Proc, q: Proc, trampoline: nat, data: Page)
    requires ProcOk(m, p, trampoline) && Rooted(m, p.pt) && Foot(m, p) <= Used(m) && q.tf == p.tf
    requires Building(m, g, q.pt, q.sz, p.tf, trampoline) && p.tf in g.pages && h == g.(pages := g.pages[p.tf := data])
    requires Rooted(h, p.pt) && Moved(h, r, Owned(h, p.pt, User(p)), {})
    ensures Swapped(m, g, r, p, q, trampoline, data)
  {
    hide Leaf, Space, Owned, Rooted, All, Building, User, Kept;
    BothImages(m, g, p, q, trampoline);
    var f, o, n := Foot(m, p), Owned(g, p.pt, User(p)), Owned(g, q.pt, User(q));
    TfMoved(g, h, p.tf, data);
    ProcSpace(g, p, trampoline);
    ProcSpace(g, q, trampoline);
    Untouched(g, h, {p.tf}, {p.tf}, p.pt, User(p), Top);
    Untouched(g, h, {p.tf}, {p.tf}, q.pt, User(q), Top);
    Untouched(h, r, o, {}, q.pt, User(q), Top);
    KeptTrans(g, h, r, q.pt, User(q));
    SwitchMoved(m, g, h, r, f, o, n, p.tf);
    SpaceRooted(r, q.pt, User(q), Top);
    TfKept(h, r, o, {}, p.tf);
  }

  lemma TfMoved(g: Mem, h: Mem, tf: nat, data: Page)
    requires Wf(g) && tf in g.pages && h == g.(pages := g.pages[tf := data])
    ensures Moved(g, h, {tf}, {tf})
  {
    assert h.pages.Keys == g.pages.Keys;
    SameAll(g, h);
  }

  lemma KeptTrans(g: Mem, h: Mem, r: Mem, pt: nat, user: set<nat>)
    requires Kept(g, h, pt, user, Top) && Kept(h, r, pt, user, Top) && SameLeaves(g, h, pt, {})
      && SameLeaves(h, r, pt, {})
    ensures Kept(g, r, pt, user, Top) && SameLeaves(g, r, pt, {})
  {
    hide Leaf, Rooted;
  }

  lemma SwitchMoved(m: Mem, g: Mem, h: Mem, r: Mem, f: set<nat>, o: set<nat>, n: set<nat>, tf: nat)
    requires Moved(m, g, f, n + f) && Moved(g, h, {tf}, {tf}) && Moved(h, r, o, {}) && f == o + {tf} && tf !in o
    requires n !! f && n <= Used(g) && f <= Used(g)
    ensures Moved(m, r, f, n + {tf})
  {
    hide All, Wf;
    MovedFrame(g, h, {tf}, {tf}, n + o);
    assert {tf} + (n + o) == n + f;
    MovedTrans(m, g, h, f, n + f, n + f);
    MovedFrame(h, r, o, {}, n + {tf});
    assert o + (n + {tf}) == n + f;
    assert {} + (n + {tf}) == n + {tf};
    MovedTrans(m, h, r, f, n + f, n + {tf});
  }

  lemma BuildStart(m: Mem, g: Mem, pt: nat, tf: nat, trampoline: nat)
    requires Space(g, pt, {}, Top) && Moved(m, g, {}, Owned(g, pt, {}))
    requires Leaf(g, pt, TRAPFRAME) == Pte(tf, LeafFlags({R, W}))
      && Leaf(g, pt, TRAMPOLINE) == Pte(trampoline, LeafFlags({R, X}))
    ensures Building(m, g, pt, 0, tf, trampoline)
  {
    hide Space, Leaf, Moved, Owned;
    SpaceRooted(g, pt, {}, Top);
    EmptyRange();
  }

  /** Rounding the size up to a page adds no page. */
  lemma BuildRound(m: Mem, g: Mem, pt: nat, sz: nat, tf: nat, trampoline: nat, segs: seq<Segment>)
    requires Building(m, g, pt, sz, tf, trampoline) && |All(m)| <= NPAGES && Rooted(g, pt)
      && Loaded(g, pt, segs, |segs|, sz)
    ensures var base := RoundUp(sz);
            && sz <= base && base % PGSIZE == 0 && base + 2 * PGSIZE < WORD && Pages(base) == Pages(sz)
            && Building(m, g, pt, base, tf, trampoline) && Loaded(g, pt, segs, |segs|, base)
  {
    hide Building, Loaded, Space, Range, Pages, RoundUp;
    BuildFacts(m, g, pt, sz, tf, trampoline);
    FewPages(g, pt, Pages(sz), Top);
    RoundFacts(sz);
    BuildSame(m, g, pt, sz, RoundUp(sz), tf, trampoline);
    LoadedMono(g, pt, segs, sz, RoundUp(sz));
  }

  lemma RoundFacts(sz: nat)
    requires Pages(sz) <= NPAGES
    ensures sz <= RoundUp(sz) <= NPAGES * PGSIZE && RoundUp(sz) % PGSIZE == 0 && Pages(RoundUp(sz)) == Pages(sz)
  {
  }

  lemma BuildSame(m: Mem, g: Mem, pt: nat, sz: nat, sz1: nat, tf: nat, trampoline: nat)
    requires Building(m, g, pt, sz, tf, trampoline) && Pages(sz1) == Pages(sz) && sz1 < WORD
    ensures Building(m, g, pt, sz1, tf, trampoline)
  {
    hide Space, Leaf, Moved, Owned, Range, Pages;
    SpaceRooted(g, pt, Range(0, Pages(sz)), Top);
  }

  lemma LoadedMono(m: Mem, pt: nat, segs: seq<Segment>, sz: nat, sz1: nat)
    requires Rooted(m, pt) && Loaded(m, pt, segs, |segs|, sz) && sz <= sz1
    ensures Loaded(m, pt, segs, |segs|, sz1)
  {
    hide SegsApart, Holds;
  }

  /** A failed exec has given everything back. */
  lemma Discarded(m: Mem, r: Mem, procs: map<nat, Proc>, other: set<nat>, trampoline: nat, i: nat)
    requires i in procs && Rooted(m, procs[i].pt) && Moved(m, r, {}, {})
    requires Inv(m, procs, other, trampoline)
    ensures Inv(r, procs, other, trampoline)
  {
    hide Leaf, Space, Owned, Foot, Moved, Inv, ProcOk, Only;
    InvWf(m, procs, other, trampoline);
    TrapframeUsed(m, procs, other, trampoline, i);
    OtherProc(m, r, procs[i], trampoline, {}, {});
    OkRooted(r, procs[i], trampoline);
    MovedFrame(m, r, {}, {}, Foot(m, procs[i]));
    assert {} + Foot(m, procs[i]) == Foot(m, procs[i]);
    Replace(m, r, procs, procs, other, trampoline, i, Foot(m, procs[i]));
  }

  lemma LoadedBelow(g: Mem, r: Mem, pt: nat, segs: seq<Segment>, sz: nat, sz1: nat)
    requires Rooted(g, pt) && Rooted(r, pt) && sz1 == sz + 2 * PGSIZE && Loaded(g, pt, segs, |segs|, sz)
      && Loaded(r, pt, segs, |segs|, sz1)
    ensures Loaded(r, pt, segs, |segs|, sz1 - 2 * PGSIZE)
  {
    hide SegsApart, Holds;
    forall i | 0 <= i < |segs|
      ensures !segs[i].Broken? && LoadedAt(r, pt, segs[i], sz, SegsApart(segs))
    {
      assert LoadedAt(g, pt, segs[i], sz, SegsApart(segs)) && LoadedAt(r, pt, segs[i], sz1, SegsApart(segs));
    }
  }

  lemma StackVpn(sz: nat)
    requires sz % PGSIZE == 0 && 2 * PGSIZE <= sz < WORD
    ensures (sz - 2 * PGSIZE) / PGSIZE == sz / PGSIZE - 2 && sz / PGSIZE - 2 in Range(0, Pages(sz)) && Pages(sz) <= NVPN
  {
    assert Within(sz / PGSIZE - 2, 0, Pages(sz));
  }

  lemma Replaced(m: Mem, g: Mem, r: Mem, p: Proc, q: Proc, trampoline: nat, data: Page, procs: map<nat, Proc>,
                 other: set<nat>, i: nat)
    requires Swapped(m, g, r, p, q, trampoline, data) && i in procs && procs[i] == p
    requires Inv(m, procs, other, trampoline)
    ensures Inv(r, procs[i := q], other, trampoline) && Only(m, r, procs, procs[i := q], i)
  {
    hide Inv, ProcOk, Foot, Moved, Only;
    assert procs[i := q] - {i} == procs - {i};
    Replace(m, r, procs, procs[i := q], other, trampoline, i, Foot(r, q));
  }

  lemma StillLaunched(m: Mem, g: Mem, r: Mem, p: Proc, q: Proc, trampoline: nat, data: Page, segs: seq<Segment>,
                      args: seq<seq<Byte>>,
                      entry: nat, sp: nat, addrs: seq<nat>)
    requires Swapped(m, g, r, p, q, trampoline, data) && Building(m, g, q.pt, q.sz, q.tf, trampoline)
    requires q.tf in g.pages && data == Entered(g.pages[q.tf], entry, sp)
    requires Stacked(g, q.pt, q.sz, segs, addrs, args, sp) && sp % 16 == 0 && |addrs| == |args|
    requires Rooted(g, q.pt) && Holds(g, q.pt, sp, LeWords(addrs + [0])) && sp + 4 * (|addrs| + 1) <= q.sz
    ensures Launched(r, q, segs, args, entry, sp, addrs)
  {
    hide Building, Stacked, Holds, ProcOk, Moved, Foot, Leaf, Kept, Argv, LeWords, Value, Le, Rooted;
    BuildFacts(m, g, q.pt, q.sz, q.tf, trampoline);
    StackedKept(g, r, q.pt, q.sz, User(q), segs, addrs, args, sp);
    HoldsKept(g, r, q.pt, User(q), sp, LeWords(addrs + [0]));
    StackedFits(g, q.pt, q.sz, segs, addrs, args, sp);
    ArgvHeld(r, q.pt, sp, addrs);
    ProcSpace(r, q, trampoline);
  }

  /** Process `i` can reach all of the `n` bytes at `base`. */
  ghost predicate CanStore(m: Mem, procs: map<nat, Proc>, i: nat, base: nat, n: nat) {
    i in procs && AllReadable(m, procs[i].pt, base, n)
  }

  ghost predicate WroteBy(m: Mem, r: Mem, procs: map<nat, Proc>, i: nat, base: nat, data: seq<Byte>) {
    i in procs && Wrote(m, r, procs[i].pt, User(procs[i]), Top, base, data)
  }

  /** A store to its own memory changes process `i` alone. */
  lemma Stored(m: Mem, r: Mem, procs: map<nat, Proc>, other: set<nat>, trampoline: nat, i: nat, base: nat,
               data: seq<Byte>)
    requires i in procs && Wf(r) && Wrote(m, r, procs[i].pt, User(procs[i]), Top, base, data)
    requires Inv(m, procs, other, trampoline)
    ensures Inv(r, procs, other, trampoline) && Only(m, r, procs, procs, i)
  {
    hide Inv, Only, Moved, Leaf, Holds, All, Wf, Space, User, Owned;
    var p := procs[i];
    InvWf(m, procs, other, trampoline);
    TrapframeUsed(m, procs, other, trampoline, i);
    SpaceRooted(r, p.pt, User(p), Top);
    WroteMoved(m, r, p.pt, User(p), Top, base, data);
    SpaceRooted(m, p.pt, User(p), Top);
    TfKept(m, r, Owned(m, p.pt, User(p)), Owned(r, p.pt, User(p)), p.tf);
    MovedFrame(m, r, Owned(m, p.pt, User(p)), Owned(r, p.pt, User(p)), {p.tf});
    Replace(m, r, procs, procs, other, trampoline, i, Foot(r, p));
  }

  /** What process `j` can read does not change while only process `i` does: a copyin from one is
      deaf to every copyout to the other, fork's child included. */
  lemma Isolated(m: Mem, r: Mem, before: map<nat, Proc>, after: map<nat, Proc>, other: set<nat>, trampoline: nat,
                 i: nat, j: nat,
                 base: nat, data: seq<Byte>)
    requires j in before && i != j && Only(m, r, before, after, i)
    requires Inv(m, before, other, trampoline) && Inv(r, after, other, trampoline)
    ensures j in after && after[j] == before[j] && Rooted(m, before[j].pt) && Rooted(r, before[j].pt)
    ensures Holds(m, before[j].pt, base, data) <==> Holds(r, before[j].pt, base, data)
  {
    hide Inv, Moved, Holds, Leaf, Foot, User;
    SameRest(before, after, i);
    InvWf(m, before, other, trampoline);
    InvWf(r, after, other, trampoline);
    SeenSame(m, r, before[j], trampoline, base, data);
  }

  lemma SeenSame(m: Mem, r: Mem, p: Proc, trampoline: nat, base: nat, data: seq<Byte>)
    requires ProcOk(m, p, trampoline) && ProcOk(r, p, trampoline) && SameImage(m, r, p) && Rooted(m, p.pt)
      && Rooted(r, p.pt)
    ensures Holds(m, p.pt, base, data) <==> Holds(r, p.pt, base, data)
  {
    hide Leaf, Owned, User, Rooted;
    OpenPages(m, p, trampoline);
    OpenPages(r, p, trampoline);
    forall a | 0 <= a < WORD
      ensures Readable(m, p.pt, a) <==> Readable(r, p.pt, a)
    {
      assert Leaf(m, p.pt, a / PGSIZE).Valid() <==> Leaf(r, p.pt, a / PGSIZE).Valid();
    }
    forall i | 0 <= i < |data|
      ensures Readable(m, p.pt, Addr(base, i)) ==> Addr(base, i) / PGSIZE in User(p)
    {
      if Readable(m, p.pt, Addr(base, i)) { ReadablePage(m, p.pt, User(p), Top, Addr(base, i)); }
    }
  }
}
