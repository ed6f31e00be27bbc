/** User memory as the user sees it: one byte per 32-bit address, translated on its own. */
module UserBytes {
  import opened PageTable
  import opened AddressSpace

  function Addr(base: nat, i: nat): (a: nat)
    ensures a < WORD
  {
    (base + i) % WORD
  }

  /** Translation succeeds for user accesses to address `a`. */
  ghost predicate Readable(m: Mem, pt: nat, a: nat)
    requires Rooted(m, pt) && a < WORD
  {
    Leaf(m, pt, a / PGSIZE).Valid() && U in Leaf(m, pt, a / PGSIZE).flags
  }

  /** Only the pages in `user` are open to the user. */
  ghost predicate UserOnly(m: Mem, pt: nat, user: set<nat>, extra: set<nat>) {
    Space(m, pt, user, extra) && forall v :: v in extra ==> U !in Leaf(m, pt, v).flags
  }

  /** The byte at address `a`. */
  ghost function ByteAt(m: Mem, pt: nat, a: nat): (b: Byte)
    requires Rooted(m, pt) && a < WORD && Leaf(m, pt, a / PGSIZE).ppn in m.pages
  {
    m.pages[Leaf(m, pt, a / PGSIZE).ppn][a % PGSIZE]
  }

  lemma ReadablePage(m: Mem, pt: nat, user: set<nat>, extra: set<nat>, a: nat)
    requires UserOnly(m, pt, user, extra) && a < WORD && Readable(m, pt, a)
    ensures a / PGSIZE in user && Leaf(m, pt, a / PGSIZE).ppn in m.pages
  {
  }

  /** The `n` bytes from `base` can be read and are `data`. */
  ghost predicate Holds(m: Mem, pt: nat, base: nat, data: seq<Byte>)
    requires Rooted(m, pt)
  {
    forall i :: 0 <= i < |data| ==>
      var a := Addr(base, i);
      Readable(m, pt, a) && Leaf(m, pt, a / PGSIZE).ppn in m.pages && ByteAt(m, pt, a) == data[i]
  }

  /** Within a page addresses do not wrap. */
  lemma InPage(base: nat, d: nat, x: nat)
    requires Addr(base, d) % PGSIZE + x < PGSIZE
    ensures var a := Addr(base, d);
            Addr(base, d + x) == a + x && (a + x) / PGSIZE == a / PGSIZE && (a + x) % PGSIZE == a % PGSIZE + x
  {
    var a := Addr(base, d);
    assert a / PGSIZE <= WORD / PGSIZE - 1;
    assert a == a / PGSIZE * PGSIZE + a % PGSIZE;
    assert (a + x) / PGSIZE == a / PGSIZE;
    NoWrap(base + d, x);
  }

  lemma NoWrap(s: nat, x: nat)
    requires s % WORD + x < WORD
    ensures (s + x) % WORD == s % WORD + x
  {
    var q := s / WORD;
    assert s + x == q * WORD + (s % WORD + x);
    ModUnique(s + x, q, s % WORD + x);
  }

  lemma ModUnique(n: nat, q: nat, r: nat)
    requires n == q * WORD + r && r < WORD
    ensures n % WORD == r
  {
  }

  lemma NextPage(base: nat, d: nat)
    ensures var a := Addr(base, d);
            Addr(base, d + (PGSIZE - a % PGSIZE)) == (a - a % PGSIZE + PGSIZE) % WORD
  {
    var a := Addr(base, d);
    var q := (base + d) / WORD;
    assert base + d == q * WORD + a;
    assert base + d + (PGSIZE - a % PGSIZE) == q * WORD + (a - a % PGSIZE + PGSIZE);
    if a - a % PGSIZE + PGSIZE < WORD {
      ModUnique(base + d + (PGSIZE - a % PGSIZE), q, a - a % PGSIZE + PGSIZE);
    } else {
      ModUnique(base + d + (PGSIZE - a % PGSIZE), q + 1, 0);
    }
  }

  /** One more piece of a page. */
  lemma HoldsMore(m: Mem, pt: nat, user: set<nat>, extra: set<nat>, base: nat, data: seq<Byte>, n: nat)
    requires UserOnly(m, pt, user, extra) && Holds(m, pt, base, data) && Readable(m, pt, Addr(base, |data|))
    requires Addr(base, |data|) % PGSIZE + n <= PGSIZE
    ensures var a := Addr(base, |data|);
            && Leaf(m, pt, a / PGSIZE).ppn in m.pages
            && Holds(m, pt, base, data + m.pages[Leaf(m, pt, a / PGSIZE).ppn][a % PGSIZE..a % PGSIZE + n])
  {
    hide Leaf;
    var a := Addr(base, |data|);
    ReadablePage(m, pt, user, extra, a);
    var all := data + m.pages[Leaf(m, pt, a / PGSIZE).ppn][a % PGSIZE..a % PGSIZE + n];
    forall i | 0 <= i < |all|
      ensures var b := Addr(base, i);
              Readable(m, pt, b) && Leaf(m, pt, b / PGSIZE).ppn in m.pages && ByteAt(m, pt, b) == all[i]
    {
      if i >= |data| { InPage(base, |data|, i - |data|); }
    }
  }

  // ---- strings ----

  predicate Terminated(s: seq<Byte>) {
    s != [] && s[|s| - 1] == 0 && NoNul(s[..|s| - 1])
  }

  predicate NoNul(s: seq<Byte>) {
    forall i :: 0 <= i < |s| ==> s[i] != 0
  }

  /** What is read is determined, so a terminated string is longer than any text without NUL. */
  lemma Longer(m: Mem, pt: nat, base: nat, text: seq<Byte>, s: seq<Byte>)
    requires Rooted(m, pt) && Holds(m, pt, base, text) && NoNul(text) && Terminated(s) && Holds(m, pt, base, s)
    ensures |s| > |text| && Readable(m, pt, Addr(base, |text|))
  {
    hide Readable, Leaf;
    forall i | 0 <= i < |s| && i < |text|
      ensures s[i] == text[i]
    {
      assert s[i] == ByteAt(m, pt, Addr(base, i));
    }
  }

  /** No terminated string of at most `max` bytes can be read at `base`. */
  ghost predicate NoString(m: Mem, pt: nat, base: nat, max: nat)
    requires Rooted(m, pt)
  {
    forall s: seq<Byte> :: Terminated(s) && |s| <= max ==> !Holds(m, pt, base, s)
  }

  lemma Stuck(m: Mem, pt: nat, base: nat, max: nat, text: seq<Byte>)
    requires Rooted(m, pt) && Holds(m, pt, base, text) && NoNul(text)
    requires |text| >= max || !Readable(m, pt, Addr(base, |text|))
    ensures NoString(m, pt, base, max)
  {
    forall s: seq<Byte> | Terminated(s) && |s| <= max
      ensures !Holds(m, pt, base, s)
    {
      if Holds(m, pt, base, s) {
        Longer(m, pt, base, text, s);
        assert false;
      }
    }
  }

  // ---- writing ----

  function Splice(p: Page, off: nat, chunk: seq<Byte>): (r: Page)
    requires off + |chunk| <= PGSIZE
    ensures forall i :: 0 <= i < PGSIZE ==> r[i] == if off <= i < off + |chunk| then chunk[i - off] else p[i]
  {
    p[..off] + chunk + p[off + |chunk|..]
  }

  function Poke(m: Mem, ppn: nat, off: nat, chunk: seq<Byte>): (r: Mem)
    requires ppn in m.pages && off + |chunk| <= PGSIZE
  {
    m.(pages := m.pages[ppn := Splice(m.pages[ppn], off, chunk)])
  }

  /** The user can reach all of the `n` bytes at `base`. */
  ghost predicate AllReadable(m: Mem, pt: nat, base: nat, n: nat) {
    Rooted(m, pt) && forall k :: 0 <= k < n ==> Readable(m, pt, Addr(base, k))
  }

  /** `r` differs from `m` in the user bytes `data` from `base`, and in nothing else. */
  ghost predicate Wrote(m: Mem, r: Mem, pt: nat, user: set<nat>, extra: set<nat>, base: nat, data: seq<Byte>) {
    && UserOnly(m, pt, user, extra) && UserOnly(r, pt, user, extra)
    && r.free == m.free && r.tables == m.tables && r.pages.Keys == m.pages.Keys
    && Holds(r, pt, base, data)
    && (forall a :: 0 <= a < WORD && a / PGSIZE in user && (forall i :: 0 <= i < |data| ==> a != Addr(base, i)) ==>
          ByteAt(r, pt, a) == ByteAt(m, pt, a))
    && (forall k :: k in m.pages && k !in Targets(m, pt, user) ==> r.pages[k] == m.pages[k])
  }

  /** Bytes that have been written could be reached before. */
  lemma WroteReadable(m: Mem, r: Mem, pt: nat, user: set<nat>, extra: set<nat>, base: nat, data: seq<Byte>)
    requires Wrote(m, r, pt, user, extra, base, data)
    ensures AllReadable(m, pt, base, |data|)
  {
    hide Space, Leaf;
    SpaceRooted(m, pt, user, extra);
    SpaceRooted(r, pt, user, extra);
    SameTables(m, r, pt);
  }

  lemma PokeSpace(m: Mem, pt: nat, user: set<nat>, extra: set<nat>, a: nat, chunk: seq<Byte>)
    requires Wf(m) && UserOnly(m, pt, user, extra) && a < WORD && Readable(m, pt, a) && a % PGSIZE + |chunk| <= PGSIZE
    requires Leaf(m, pt, a / PGSIZE).ppn in m.pages
    ensures var r := Poke(m, Leaf(m, pt, a / PGSIZE).ppn, a % PGSIZE, chunk);
            && Wf(r) && All(r) == All(m) && UserOnly(r, pt, user, extra) && r.tables == m.tables
            && Rooted(r, pt) && SameLeaves(m, r, pt, {}) && r.pages.Keys == m.pages.Keys
            && (forall k :: k in m.pages && k !in Targets(m, pt, user) ==> r.pages[k] == m.pages[k])
  {
    ReadablePage(m, pt, user, extra, a);
    var r := Poke(m, Leaf(m, pt, a / PGSIZE).ppn, a % PGSIZE, chunk);
    SameTables(m, r, pt);
    assert r.pages.Keys == m.pages.Keys;
    assert Leaf(m, pt, a / PGSIZE).ppn in Targets(m, pt, user);
  }

  /** Frames are not shared, so exactly the addressed bytes change. */
  lemma PokeAt(m: Mem, r: Mem, pt: nat, user: set<nat>, extra: set<nat>, a: nat, chunk: seq<Byte>, b: nat)
    requires UserOnly(m, pt, user, extra) && a < WORD && a / PGSIZE in user && a % PGSIZE + |chunk| <= PGSIZE
    requires Leaf(m, pt, a / PGSIZE).ppn in m.pages && r == Poke(m, Leaf(m, pt, a / PGSIZE).ppn, a % PGSIZE, chunk)
    requires Rooted(r, pt) && SameLeaves(m, r, pt, {}) && b < WORD && b / PGSIZE in user
    ensures Leaf(r, pt, b / PGSIZE).ppn in r.pages && Leaf(m, pt, b / PGSIZE).ppn in m.pages
    ensures ByteAt(r, pt, b) == if a <= b < a + |chunk| then chunk[b - a] else ByteAt(m, pt, b)
  {
    hide Leaf, Rooted;
    if b / PGSIZE != a / PGSIZE {
      assert Leaf(m, pt, b / PGSIZE).ppn != Leaf(m, pt, a / PGSIZE).ppn;
    } else {
      assert b - a == b % PGSIZE - a % PGSIZE;
    }
  }

  lemma AddrInjective(base: nat, i: nat, j: nat)
    requires i < WORD && j < WORD && Addr(base, i) == Addr(base, j)
    ensures i == j
  {
    var p, q := (base + i) / WORD, (base + j) / WORD;
    assert i - j == (p - q) * WORD;
  }

  lemma WroteNothing(m: Mem, pt: nat, user: set<nat>, extra: set<nat>, base: nat)
    requires UserOnly(m, pt, user, extra)
    ensures Wrote(m, m, pt, user, extra, base, [])
  {
  }

  /** One more piece of a page written. */
  lemma WroteMore(m: Mem, g: Mem, pt: nat, user: set<nat>, extra: set<nat>, base: nat, data: seq<Byte>,
                  chunk: seq<Byte>)
    requires Wf(g) && Wrote(m, g, pt, user, extra, base, data) && Rooted(g, pt) && Readable(g, pt, Addr(base, |data|))
    requires Addr(base, |data|) % PGSIZE + |chunk| <= PGSIZE && |data| + |chunk| < WORD
    ensures var a := Addr(base, |data|);
            && Leaf(g, pt, a / PGSIZE).ppn in g.pages
            && var r := Poke(g, Leaf(g, pt, a / PGSIZE).ppn, a % PGSIZE, chunk);
            && Wf(r) && All(r) == All(g) && Wrote(m, r, pt, user, extra, base, data + chunk)
  {
    hide Leaf, Wf, All, Space, Rooted;
    var a := Addr(base, |data|);
    ReadablePage(g, pt, user, extra, a);
    var r := Poke(g, Leaf(g, pt, a / PGSIZE).ppn, a % PGSIZE, chunk);
    PokeSpace(g, pt, user, extra, a, chunk);
    SpaceRooted(m, pt, user, extra);
    WroteHolds(g, r, pt, user, extra, base, data, chunk);
    WroteRest(m, g, r, pt, user, extra, base, data, chunk);
  }

  lemma WroteHolds(g: Mem, r: Mem, pt: nat, user: set<nat>, extra: set<nat>, base: nat, data: seq<Byte>,
                   chunk: seq<Byte>)
    requires UserOnly(g, pt, user, extra) && Holds(g, pt, base, data) && Readable(g, pt, Addr(base, |data|))
    requires Addr(base, |data|) % PGSIZE + |chunk| <= PGSIZE && |data| + |chunk| < WORD
    requires var a := Addr(base, |data|);
             && Leaf(g, pt, a / PGSIZE).ppn in g.pages
             && r == Poke(g, Leaf(g, pt, a / PGSIZE).ppn, a % PGSIZE, chunk)
    requires Rooted(r, pt) && SameLeaves(g, r, pt, {})
    ensures Holds(r, pt, base, data + chunk)
  {
    hide Leaf, Rooted, Space;
    var a, all := Addr(base, |data|), data + chunk;
    ReadablePage(g, pt, user, extra, a);
    forall i | 0 <= i < |all|
      ensures var b := Addr(base, i);
              Readable(r, pt, b) && Leaf(r, pt, b / PGSIZE).ppn in r.pages && ByteAt(r, pt, b) == all[i]
    {
      var b := Addr(base, i);
      if i >= |data| {
        InPage(base, |data|, i - |data|);
      } else if a <= b < a + |chunk| {
        InPage(base, |data|, b - a);
        AddrInjective(base, i, |data| + (b - a));
      }
      ReadablePage(g, pt, user, extra, b);
      PokeAt(g, r, pt, user, extra, a, chunk, b);
    }
  }

  lemma WroteRest(m: Mem, g: Mem, r: Mem, pt: nat, user: set<nat>, extra: set<nat>, base: nat, data: seq<Byte>,
                  chunk: seq<Byte>)
    requires Wrote(m, g, pt, user, extra, base, data) && Rooted(g, pt) && Rooted(r, pt) && SameLeaves(g, r, pt, {})
    requires var a := Addr(base, |data|);
             && a % PGSIZE + |chunk| <= PGSIZE && a / PGSIZE in user && Leaf(g, pt, a / PGSIZE).ppn in g.pages
             && r == Poke(g, Leaf(g, pt, a / PGSIZE).ppn, a % PGSIZE, chunk)
    requires Rooted(m, pt)
    ensures forall a ::
              && 0 <= a < WORD && a / PGSIZE in user
              && (forall i :: 0 <= i < |data + chunk| ==> a != Addr(base, i)) ==>
              && Leaf(r, pt, a / PGSIZE).ppn in r.pages && Leaf(m, pt, a / PGSIZE).ppn in m.pages
              && ByteAt(r, pt, a) == ByteAt(m, pt, a)
    ensures Targets(g, pt, user) == Targets(m, pt, user)
  {
    hide Leaf, Rooted, Holds;
    var a0 := Addr(base, |data|);
    SameTables(m, g, pt);
    SameTargets(m, g, pt, user);
    forall a | 0 <= a < WORD && a / PGSIZE in user && (forall i :: 0 <= i < |data + chunk| ==> a != Addr(base, i))
      ensures Leaf(r, pt, a / PGSIZE).ppn in r.pages && Leaf(m, pt, a / PGSIZE).ppn in m.pages
      ensures ByteAt(r, pt, a) == ByteAt(m, pt, a)
    {
      PokeAt(g, r, pt, user, extra, a0, chunk, a);
      if a0 <= a < a0 + |chunk| {
        InPage(base, |data|, a - a0);
      }
      assert forall i :: 0 <= i < |data| ==> a != Addr(base, i);
    }
  }

  lemma HoldsNothing(m: Mem, pt: nat, base: nat)
    requires Rooted(m, pt)
    ensures Holds(m, pt, base, [])
  {
  }

  /** Translation depends on the page alone. */
  lemma SamePage(m: Mem, pt: nat, a: nat)
    requires Rooted(m, pt) && a < WORD
    ensures (a - a % PGSIZE) / PGSIZE == a / PGSIZE && Readable(m, pt, a - a % PGSIZE) == Readable(m, pt, a)
  {
  }

  lemma WroteFacts(m: Mem, r: Mem, pt: nat, user: set<nat>, extra: set<nat>, base: nat, data: seq<Byte>, a: nat)
    requires Wrote(m, r, pt, user, extra, base, data) && a < WORD
    ensures UserOnly(r, pt, user, extra) && Rooted(r, pt) && Rooted(m, pt) && Readable(r, pt, a) == Readable(m, pt, a)
  {
    SameTables(m, r, pt);
  }
}
