/** What allocproc, freeproc, growproc, fork (kernel/proc.c) and exec (kernel/exec.c) do to memory,
    with kalloc failing at any point. A process is in `procs` from allocproc to freeproc. */
module ProcTable {
  import opened Collections
  import opened PageTable
  import opened AddressSpace
  import opened UserBytes
  import opened VirtualMemory
  import opened ProcMemory
  import opened ExecImage
  import opened ExecContents
  import opened ExecPlan

  /** What happens to the memory of processes; a call that does not apply is ignored. */
  datatype Call =
    | Spawn(i: nat)
    | ForkTo(i: nat, j: nat)
    | SbrkBy(i: nat, n: int)
    | Run(i: nat, header: bool, segs: seq<Segment>, entry: nat, args: seq<seq<Byte>>)
    | Write(i: nat, va: nat, data: seq<Byte>)
    | Reap(i: nat)
    | Takes                              // the rest of the kernel calls kalloc
    | Gives(k: nat)                      // and kfree

  class Kernel {
    const mem: Memory
    var other: set<nat>                  // pages held by the rest of the kernel
    const trampoline: nat
    var procs: map<nat, Proc>

    ghost predicate Valid()
      reads this, mem
    {
      mem.Valid() && Inv(mem.Now(), procs, other, trampoline)
    }

    /** Before the first process every page in use belongs to the kernel. */
    constructor (mem: Memory, trampoline: nat)
      requires mem.Valid()
      ensures Valid() && procs == map[] && this.mem == mem
    {
      hide Inv, Wf, All;
      this.mem, this.trampoline := mem, trampoline;
      other := mem.tables.Keys + mem.pages.Keys;
      procs := map[];
      NoProcs(mem.Now(), trampoline);
    }

    /** allocproc: a trapframe, a root and a table, or nothing. */
    method Allocproc(i: nat) returns (ok: bool)
      requires Valid() && i !in procs
      modifies this`procs, mem
      ensures Valid() && (ok <==> |old(mem.free)| >= 3)
      ensures Only(old(mem.Now()), mem.Now(), old(procs), procs, i)
      ensures !ok ==> procs == old(procs)
      ensures ok ==> Newborn(mem.Now(), old(procs), procs, i) && |mem.free| + 3 == |old(mem.free)|
    {
      hide Wf, All, Moved, Space, Leaf, Inv, Owned, Foot, ProcOk, Only;
      ghost var m := mem.Now();
      InvWf(m, procs, other, trampoline);
      var tf := mem.Kalloc();
      if tf.None? {
        MovedNone(m);
        Replace(m, m, procs, procs, other, trampoline, i, {});
        return false;
      }
      ghost var g := mem.Now();
      var pt := mem.ProcPagetable(trampoline, tf.value);
      if pt.None? {
        Unborn(m, g, mem.Now());
        mem.Kfree(tf.value);
        Replace(m, mem.Now(), procs, procs, other, trampoline, i, {});
        return false;
      }
      ghost var was := procs;
      var p := Proc(pt.value, 0, tf.value);
      procs := procs[i := p];
      Born(m, g, mem.Now(), p, trampoline);
      assert procs - {i} == was - {i};
      OkRooted(mem.Now(), p, trampoline);
      Replace(m, mem.Now(), was, procs, other, trampoline, i, Foot(mem.Now(), p));
      ok := true;
    }

    /** freeproc: all pages of the process go back to the free list, and no others. */
    method Freeproc(i: nat)
      requires Valid() && i in procs
      modifies this`procs, mem
      ensures Valid() && procs == old(procs) - {i}
      ensures Only(old(mem.Now()), mem.Now(), old(procs), procs, i)
    {
      hide Wf, All, Moved, Space, Leaf, Inv, Owned, Foot, ProcOk, Only;
      ghost var m, was, p := mem.Now(), procs, procs[i];
      InvWf(m, procs, other, trampoline);
      TrapframeUsed(m, procs, other, trampoline, i);
      TrapframeFreed(m, p, trampoline);
      mem.Kfree(procs[i].tf);
      ghost var g := mem.Now();
      mem.ProcFreepagetable(procs[i].pt, procs[i].sz);
      MovedTrans(m, g, mem.Now(), Foot(m, p), Owned(g, p.pt, User(p)), {});
      procs := procs - {i};
      Replace(m, mem.Now(), was, procs, other, trampoline, i, {});
    }

    /** growproc: sbrk by `n` bytes, in 32-bit arithmetic. */
    method Growproc(i: nat, n: int) returns (ok: bool)
      requires Valid() && i in procs && -0x8000_0000 <= n < 0x8000_0000
      modifies this`procs, mem
      ensures Valid() && Only(old(mem.Now()), mem.Now(), old(procs), procs, i)
      ensures Sbrk(old(mem.Now()), mem.Now(), old(procs), procs, i, n, ok)
    {
      hide Wf, All, Moved, Space, Leaf, Inv, Owned, Foot, ProcOk, Only, Need;
      ghost var m, was, p := mem.Now(), procs, procs[i];
      InvWf(m, procs, other, trampoline);
      ProcSpace(m, p, trampoline);
      TurnedRefl(m, p.pt, User(p), Top);
      var sz := procs[i].sz;
      if n > 0 {
        sz := mem.Uvmalloc(procs[i].pt, sz, (sz + n) % WORD, {W}, Top);
      } else if n < 0 {
        sz := mem.Uvmdealloc(procs[i].pt, sz, (sz + n) % WORD, Top);
      }
      ok := !(n > 0 && sz == 0);
      if ok { procs := procs[i := procs[i].(sz := sz)]; }
      Resized(m, mem.Now(), p, procs[i], trampoline);
      assert procs - {i} == was - {i};
      Replace(m, mem.Now(), was, procs, other, trampoline, i, Foot(mem.Now(), procs[i]));
    }

    /** fork: process `j` is a copy of `i`, exactly when memory reaches; else nothing stays. */
    method Fork(i: nat, j: nat) returns (ok: bool)
      requires Valid() && i in procs && j !in procs
      modifies this`procs, mem
      ensures Valid() && Only(old(mem.Now()), mem.Now(), old(procs), procs, j)
      ensures ok == (|old(mem.free)| >= ForkCost(old(procs)[i].sz))
      ensures !ok ==> procs == old(procs)
      ensures ok ==> Forked(old(mem.Now()), mem.Now(), old(procs), procs, i, j)
    {
      hide Wf, All, Moved, Space, Leaf, Inv, Owned, Foot, ProcOk, Only, Need, User, CopyOf, SameImage;
      ghost var m, was := mem.Now(), procs;
      InvWf(m, procs, other, trampoline);
      ProcSpace(m, procs[i], trampoline);
      FewPages(m, procs[i].pt, Pages(procs[i].sz), Top) by { UserIs(procs[i]); }
      ok := Allocproc(j);
      if !ok { return; }
      ghost var g, mid, p, q := mem.Now(), procs, procs[i], procs[j];
      Bred(m, g, was, mid, other, trampoline, i, j);
      ok := mem.Uvmcopy(procs[i].pt, procs[j].pt, procs[i].sz, Top, Top);
      if !ok {
        Resized(g, mem.Now(), q, q, trampoline);
        Replace(g, mem.Now(), mid, mid, other, trampoline, j, Foot(mem.Now(), q));
        OnlyTrans(m, g, mem.Now(), was, mid, mid, j);
        ghost var h := mem.Now();
        Freeproc(j);
        OnlyTrans(m, h, mem.Now(), was, mid, procs, j);
        assert procs == was;
        return;
      }
      ghost var h := mem.Now();
      procs := procs[j := procs[j].(sz := procs[i].sz)];
      Raised(g, h, p, q, procs[j], trampoline);
      TrapframeSet(h, procs[j], trampoline, ClearA0(h.pages[p.tf]));
      mem.pages := mem.pages[procs[j].tf := ClearA0(mem.pages[procs[i].tf])];
      ghost var r := mem.Now();
      MovedTrans(g, h, r, Foot(g, q), Foot(h, procs[j]), Foot(r, procs[j]));
      assert procs - {j} == mid - {j};
      Replace(g, r, mid, procs, other, trampoline, j, Foot(r, procs[j]));
      OnlyTrans(m, g, r, was, mid, procs, j);
      CopyOfSame(m, g, h, r, p, procs[j], trampoline);
    }

    /** One program header of exec. A wrapped, misplaced or unreadable segment ends the loop; none makes it panic. */
    method LoadOne(pt: nat, tf: nat, segs: seq<Segment>, i: nat, sz: nat, ghost m: Mem) returns (ok: bool, sz1: nat)
      requires mem.Valid() && Loading(m, mem.Now(), pt, sz, tf, trampoline, segs, i) && i < |segs| && Words(segs)
      modifies mem
      ensures mem.Valid() && Building(m, mem.Now(), pt, sz1, tf, trampoline)
      ensures if ok then Loading(m, mem.Now(), pt, sz1, tf, trampoline, segs, i + 1) else !SegsFit(segs, |m.free|)
    {
      hide Building, Wf, All, Space, Leaf, Turned, Wrote, AllOpen, Loaded, AllZero, Need, Range, Holds, Readable,
          SegsApart, Spent, SegsFit, Pages, Paid, Laid, End;
      ghost var g := mem.Now();
      BuildFacts(m, g, pt, sz, tf, trampoline);
      sz1 := sz;
      if segs[i].Broken? {
        Misfit(segs, i, |m.free|);
        return false, sz;
      }
      if segs[i].Skipped? {
        LoadingSkip(m, g, pt, sz, tf, trampoline, segs, i);
        return true, sz;
      }
      var s := segs[i];
      if s.memsz < s.filesz || (s.vaddr + s.memsz) % WORD < s.vaddr || s.vaddr % PGSIZE != 0 {
        Misfit(segs, i, |m.free|);
        return false, sz;
      }
      assert s.vaddr + s.memsz < WORD;
      var grown := mem.Uvmalloc(pt, sz, (s.vaddr + s.memsz) % WORD, s.xperm, Top);
      GrewTo(m, g, mem.Now(), pt, sz, s.vaddr + s.memsz, grown, tf, trampoline, s.xperm, segs, i);
      GrewExact(m, g, mem.Now(), pt, sz, grown, segs, i);
      LaidAfter(g, mem.Now(), pt, segs, i, sz, grown);
      if grown == 0 { return false, sz; }
      sz1 := grown;
      ok := LoadBytes(pt, tf, segs, i, sz1, m);
    }

    /** The bytes of a segment whose pages are there. */
    method LoadBytes(pt: nat, tf: nat, segs: seq<Segment>, i: nat, sz: nat, ghost m: Mem) returns (ok: bool)
      requires mem.Valid() && i < |segs| && segs[i].Load? && Allocated(m, mem.Now(), pt, sz, tf, trampoline, segs, i)
      modifies mem
      ensures mem.Valid() && Building(m, mem.Now(), pt, sz, tf, trampoline)
      ensures if ok then Loading(m, mem.Now(), pt, sz, tf, trampoline, segs, i + 1) else !SegsFit(segs, |m.free|)
    {
      hide Building, Wf, All, Space, Leaf, Turned, Wrote, AllOpen, Loaded, AllZero, Need, Range, Holds, Readable,
          SegsApart, Spent, SegsFit, Pages, Laid, End;
      ghost var h := mem.Now();
      var s := segs[i];
      BuildFacts(m, h, pt, sz, tf, trampoline);
      forall b | 0 <= b < s.filesz
        ensures Readable(h, pt, Addr(s.vaddr, b))
      {
        OpenReadable(h, pt, sz, s.vaddr, b);
      }
      ok := mem.Loadseg(pt, s.vaddr, s.data, s.filesz, Range(0, Pages(sz)), Top);
      ghost var wrote := s.data[..if ok then s.filesz else |s.data|];
      BuildWrote(m, h, mem.Now(), pt, sz, tf, trampoline, s.vaddr, wrote);
      if !ok {
        Misfit(segs, i, |m.free|);
        return;
      }
      BuildFacts(m, mem.Now(), pt, sz, tf, trampoline);
      LoadedWrote(h, mem.Now(), pt, segs, i, sz);
      OpenWrote(h, mem.Now(), pt, sz, s.vaddr, wrote);
      WroteSpent(m, h, mem.Now(), pt, sz, s.vaddr, wrote);
      LaidWrote(h, mem.Now(), pt, segs, i, Pages(sz));
    }

    /** The loading loop of exec, which succeeds exactly when the segments are in order and fit. */
    method LoadSegments(pt: nat, tf: nat, segs: seq<Segment>, ghost m: Mem) returns (ok: bool, sz: nat)
      requires mem.Valid() && Building(m, mem.Now(), pt, 0, tf, trampoline) && Spent(m, mem.Now(), pt, 0) && Words(segs)
      modifies mem
      ensures mem.Valid() && Building(m, mem.Now(), pt, sz, tf, trampoline) && (ok <==> SegsFit(segs, |m.free|))
      ensures ok ==> Loading(m, mem.Now(), pt, sz, tf, trampoline, segs, |segs|)
    {
      hide Loading, Building, Wf, Spent, SegsFit;
      sz := 0;
      LoadingFirst(m, mem.Now(), pt, tf, trampoline, segs);
      var i := 0;
      while i < |segs|
        invariant 0 <= i <= |segs| && mem.Valid() && Building(m, mem.Now(), pt, sz, tf, trampoline)
        invariant Loading(m, mem.Now(), pt, sz, tf, trampoline, segs, i)
      {
        ok, sz := LoadOne(pt, tf, segs, i, sz, m);
        if !ok { return; }
        i := i + 1;
      }
      LoadingFits(m, mem.Now(), pt, sz, tf, trampoline, segs);
      ok := true;
    }

    /** Bytes on the stack page, below everything that is there. */
    method Push(pt: nat, tf: nat, sz: nat, sp: nat, to: nat, data: seq<Byte>, ghost segs: seq<Segment>,
                ghost addrs: seq<nat>, ghost args: seq<seq<Byte>>, ghost m: Mem) returns (ok: bool)
      requires mem.Valid() && Building(m, mem.Now(), pt, sz, tf, trampoline)
        && Stacked(mem.Now(), pt, sz, segs, addrs, args, sp) && sz - PGSIZE <= to && to + |data| <= sp
      requires Image(mem.Now(), pt, segs, sz)
      modifies mem
      ensures mem.Valid() && Building(m, mem.Now(), pt, sz, tf, trampoline) && ok && Rooted(mem.Now(), pt)
      ensures Stacked(mem.Now(), pt, sz, segs, addrs, args, sp) && Holds(mem.Now(), pt, to, data)
      ensures Image(mem.Now(), pt, segs, sz)
    {
      hide Building, Wf, All, Space, Leaf, Wrote, Range, Holds, Stacked, Readable, UserOnly, Image;
      ghost var g := mem.Now();
      BuildFacts(m, g, pt, sz, tf, trampoline);
      StackedSize(g, pt, sz, segs, addrs, args, sp);
      ghost var done;
      ok, done := mem.Copyout(pt, to, data, Range(0, Pages(sz)), Top);
      BuildWrote(m, g, mem.Now(), pt, sz, tf, trampoline, to, data[..done]);
      StackOpen(g, pt, sz, segs, addrs, args, sp, to, done);
      assert ok && data[..done] == data;
      StackedWrote(g, mem.Now(), pt, sz, segs, addrs, args, sp, to, data);
      StackedSize(mem.Now(), pt, sz, segs, addrs, args, sp);
      ImageWrote(g, mem.Now(), pt, segs, sz, to, data);
    }

    /** The argument strings, then the array of their addresses, below one another on the stack page. */
    method PushArgs(pt: nat, tf: nat, sz: nat, args: seq<seq<Byte>>, ghost segs: seq<Segment>, ghost m: Mem)
      returns (ok: bool, sp: nat, addrs: seq<nat>)
      requires mem.Valid() && Building(m, mem.Now(), pt, sz, tf, trampoline)
        && Stacked(mem.Now(), pt, sz, segs, [], args, sz) && Image(mem.Now(), pt, segs, sz)
      requires |args| < MAXARG && forall i :: 0 <= i < |args| ==> |args[i]| <= PGSIZE
      modifies mem
      ensures mem.Valid() && Building(m, mem.Now(), pt, sz, tf, trampoline) && (ok <==> ArgsFit(args))
      ensures ok ==> sp == sz - PGSIZE + ArgvAt(args) && Image(mem.Now(), pt, segs, sz)
      ensures ok ==> |addrs| == |args| && sp % 16 == 0 && Stacked(mem.Now(), pt, sz, segs, addrs, args, sp)
      ensures ok ==> Rooted(mem.Now(), pt) && Holds(mem.Now(), pt, sp, LeWords(addrs + [0]))
      ensures ok ==> sp + 4 * (|addrs| + 1) <= sz && Argv(mem.Now(), pt, sp, addrs)
    {
      hide Building, Wf, All, Leaf, Holds, Stacked, Rooted, ArgTop, ArgvAt, ArgsFit, Down, LeWords, Argv, Image;
      sp, addrs := sz, [];
      NoArgs(args);
      StackedSize(mem.Now(), pt, sz, segs, [], args, sz);
      StackBase(sz);
      var stackbase := sp - PGSIZE;
      while |addrs| < |args|
        invariant |addrs| <= |args| && mem.Valid() && Building(m, mem.Now(), pt, sz, tf, trampoline)
        invariant stackbase <= sp <= sz && Stacked(mem.Now(), pt, sz, segs, addrs, args, sp)
        invariant sp == stackbase + ArgTop(args, |addrs|) && Image(mem.Now(), pt, segs, sz)
        decreases |args| - |addrs|
      {
        NextArg(args, |addrs|, stackbase, sp);
        var to := Down(sp - |args[|addrs|]|);
        if to < stackbase { return false, sp, addrs; }
        ok := Push(pt, tf, sz, sp, to, args[|addrs|], segs, addrs, args, m);
        if !ok { return; }
        StackedPush(mem.Now(), pt, sz, segs, addrs, args, sp, to);
        sp, addrs := to, addrs + [to];
      }
      LastArg(args, stackbase, sp);
      var to := Down(sp - 4 * (|addrs| + 1));
      if to < stackbase { return false, sp, addrs; }
      ok := Push(pt, tf, sz, sp, to, LeWords(addrs + [0]), segs, addrs, args, m);
      if !ok { return; }
      StackedLower(mem.Now(), pt, sz, segs, addrs, args, sp, to);
      StackedFits(mem.Now(), pt, sz, segs, addrs, args, to);
      ArgvHeld(mem.Now(), pt, to, addrs);
      sp := to;
    }

    /** The `bad` path of exec. */
    method Discard(pt: nat, sz: nat, tf: nat, ghost m: Mem)
      requires mem.Valid() && Building(m, mem.Now(), pt, sz, tf, trampoline)
      modifies mem
      ensures mem.Valid() && Moved(m, mem.Now(), {}, {})
    {
      hide Space, Leaf, Moved, Owned, Range;
      ghost var g := mem.Now();
      BuildFacts(m, g, pt, sz, tf, trampoline);
      mem.ProcFreepagetable(pt, sz);
      MovedTrans(m, g, mem.Now(), {}, Owned(g, pt, Range(0, Pages(sz))), {});
    }

    /** The new image of exec up to its arguments, or nothing. */
    method Build(tf: nat, segs: seq<Segment>, args: seq<seq<Byte>>) returns (ok: bool, pt: nat, sz: nat, sp: nat,
                 addrs: seq<nat>)
      requires mem.Valid() && Words(segs)
      requires |args| < MAXARG && forall i :: 0 <= i < |args| ==> |args[i]| <= PGSIZE
      modifies mem
      ensures mem.Valid() && (ok <==> ExecFits(segs, args, |old(mem.free)|))
      ensures !ok ==> Moved(old(mem.Now()), mem.Now(), {}, {})
      ensures ok ==> sz == Pages(SizeAfter(segs, |segs|).value) * PGSIZE + 2 * PGSIZE
      ensures ok ==> sp == sz - PGSIZE + ArgvAt(args) && Image(mem.Now(), pt, segs, sz)
      ensures ok ==> Building(old(mem.Now()), mem.Now(), pt, sz, tf, trampoline)
      ensures ok ==> |addrs| == |args| && sp % 16 == 0 && Stacked(mem.Now(), pt, sz, segs, addrs, args, sp)
      ensures ok ==> Rooted(mem.Now(), pt) && Holds(mem.Now(), pt, sp, LeWords(addrs + [0]))
      ensures ok ==> sp + 4 * (|addrs| + 1) <= sz && Argv(mem.Now(), pt, sp, addrs)
    {
      hide Building, Wf, All, Space, Leaf, Turned, AllOpen, Loaded, AllZero, Need, Range, Holds, Stacked, Guarded,
          Moved, Owned, TopOnly, Image, Argv;
      ghost var m := mem.Now();
      sp, addrs, sz, pt := 0, [], 0, 0;
      var root := mem.ProcPagetable(trampoline, tf);
      if root.None? { return false, pt, sz, sp, addrs; }
      pt := root.value;
      BuildStart(m, mem.Now(), pt, tf, trampoline);
      BuildFacts(m, mem.Now(), pt, 0, tf, trampoline);
      SpentNone(m, mem.Now(), pt);
      ok, sz := LoadSegments(pt, tf, segs, m);
      if !ok {
        if ExecFits(segs, args, |m.free|) { FitsSegs(segs, args, |m.free|); }
        Discard(pt, sz, tf, m);
        return;
      }
      ok, sz := AddStack(pt, tf, sz, segs, args, m);
      if !ok {
        Discard(pt, sz, tf, m);
        return;
      }
      ok, sp, addrs := PushArgs(pt, tf, sz, args, segs, m);
      if !ok { Discard(pt, sz, tf, m); }
    }

    /** Two pages above the segments: a guard that the user cannot reach, and the stack. */
    method AddStack(pt: nat, tf: nat, size: nat, segs: seq<Segment>, ghost args: seq<seq<Byte>>, ghost m: Mem)
      returns (ok: bool, sz: nat)
      requires mem.Valid() && All(m) == mem.managed && Loading(m, mem.Now(), pt, size, tf, trampoline, segs, |segs|)
      modifies mem
      ensures mem.Valid() && Building(m, mem.Now(), pt, sz, tf, trampoline)
      ensures ok <==> |m.free| >= 2 + SpaceCost(Pages(size) + 2)
      ensures ok ==> sz == (Pages(size) + 2) * PGSIZE && Stacked(mem.Now(), pt, sz, segs, [], args, sz)
      ensures ok ==> Image(mem.Now(), pt, segs, sz)
    {
      hide Building, Wf, All, Space, Leaf, Turned, AllOpen, Loaded, AllZero, Need, Range, Holds, Stacked, Guarded,
          Moved, Owned, TopOnly, Spent, Paid, SpaceCost, Laid, Image, End;
      BuildRound(m, mem.Now(), pt, size, tf, trampoline, segs);
      sz := RoundUp(size);
      ghost var g := mem.Now();
      BuildFacts(m, g, pt, sz, tf, trampoline);
      var sz1 := mem.Uvmalloc(pt, sz, sz + 2 * PGSIZE, {W}, Top);
      GrewTo(m, g, mem.Now(), pt, sz, sz + 2 * PGSIZE, sz1, tf, trampoline, {W}, segs, |segs|);
      StackPages(sz);
      SpentMore(m, g, mem.Now(), pt, Pages(sz), Pages(sz) + 2);
      if sz1 == 0 { return false, sz; }
      LoadedBelow(g, mem.Now(), pt, segs, sz, sz1);
      sz := sz1;
      ghost var h := mem.Now();
      BuildFacts(m, h, pt, sz, tf, trampoline);
      StackVpn(sz);
      mem.Uvmclear(pt, (sz - 2 * PGSIZE) / PGSIZE, Range(0, Pages(sz)), Top);
      BuildGuarded(m, h, mem.Now(), pt, sz, tf, trampoline, sz / PGSIZE - 2);
      StackedFirst(h, mem.Now(), pt, sz, segs, args);
      StackedSize(mem.Now(), pt, sz, segs, [], args, sz);
      ImageMade(g, h, mem.Now(), pt, segs, Pages(size), sz);
      ok := true;
    }

    /** exec: the new program, or the old one untouched; `header` says whether the file is an ELF file. */
    method Exec(i: nat, header: bool, segs: seq<Segment>, entry: nat, args: seq<seq<Byte>>)
      returns (argc: int, ghost sp: nat, ghost addrs: seq<nat>)
      requires |args| < MAXARG && forall k :: 0 <= k < |args| ==> |args[k]| <= PGSIZE
      requires i in procs && Words(segs) && Valid()
      modifies this`procs, mem
      ensures Valid() && argc == if header && ExecFits(segs, args, |old(mem.free)|) then |args| else -1
      ensures argc == -1 ==> procs == old(procs) && Moved(old(mem.Now()), mem.Now(), {}, {})
      ensures argc != -1 ==> Execed(old(mem.Now()), mem.Now(), old(procs), procs, i, segs, args, entry, sp, addrs)
      ensures argc != -1 ==> HasImage(mem.Now(), procs, i, segs)
    {
      hide Wf, All, Moved, Space, Leaf, Inv, Owned, Foot, ProcOk, Only, Building, Stacked, Holds, Swapped, User,
          Entered, UserOnly, ExecFits, Image, Argv;
      ghost var m, was, p := mem.Now(), procs, procs[i];
      InvWf(m, procs, other, trampoline);
      TrapframeUsed(m, procs, other, trampoline, i);
      sp, addrs := 0, [];
      if !header {
        MovedNone(m);
        return -1, sp, addrs;
      }
      var tf, oldpt, oldsz := procs[i].tf, procs[i].pt, procs[i].sz;
      var ok, pt, sz, top, strings := Build(tf, segs, args);
      if !ok {
        Discarded(m, mem.Now(), procs, other, trampoline, i);
        return -1, sp, addrs;
      }
      sp, addrs := top, strings;
      ghost var g, q := mem.Now(), Proc(pt, sz, tf);
      BothImages(m, g, p, q, trampoline);
      ghost var data := Entered(g.pages[tf], entry, sp);
      Switch(m, g, p, q, trampoline, data);
      mem.pages := mem.pages[tf := Entered(mem.pages[tf], entry, top)];
      procs := procs[i := Proc(pt, sz, tf)];
      UserIs(p);
      mem.ProcFreepagetable(oldpt, oldsz);
      Replaced(m, g, mem.Now(), p, q, trampoline, data, was, other, i);
      ImageSwitched(m, g, mem.Now(), p, q, trampoline, data, segs);
      StillLaunched(m, g, mem.Now(), p, q, trampoline, data, segs, args, entry, sp, addrs);
      argc := |args|;
    }

    /** A store by the user, or a copyout on its behalf. */
    method Store(i: nat, va: nat, data: seq<Byte>) returns (ok: bool)
      requires i in procs && va < WORD && |data| < WORD && Valid()
      modifies mem
      ensures ok <==> CanStore(old(mem.Now()), procs, i, va, |data|)
      ensures ok ==> WroteBy(old(mem.Now()), mem.Now(), procs, i, va, data)
      ensures Valid() && Only(old(mem.Now()), mem.Now(), procs, procs, i)
    {
      hide Wf, All, Inv, Only, Wrote, Leaf, Space, ProcOk, User, Readable;
      ghost var m, done := mem.Now(), 0;
      InvWf(m, procs, other, trampoline);
      OpenPages(m, procs[i], trampoline);
      ok, done := mem.Copyout(procs[i].pt, va, data, User(procs[i]), Top);
      Stored(m, mem.Now(), procs, other, trampoline, i, va, data[..done]);
      if ok {
        assert data[..done] == data;
        WroteReadable(m, mem.Now(), procs[i].pt, User(procs[i]), Top, va, data);
      }
    }

    /** A page for a pipe, a kernel stack or a buffer: it leaves every process as it was. */
    method Take() returns (p: Option<nat>)
      requires Valid()
      modifies this`other, mem
      ensures Valid() && (p.None? <==> old(mem.free) == []) && AllSame(old(mem.Now()), mem.Now(), procs)
      ensures other == old(other) + if p.Some? then {p.value} else {}
    {
      hide Wf, All, Inv, Moved;
      ghost var m := mem.Now();
      InvWf(m, procs, other, trampoline);
      p := mem.Kalloc();
      if p.Some? {
        AllocPageOk(m, {}, Filled(5));
        assert {} + {m.free[0]} == {p.value};
        RestMoved(m, mem.Now(), procs, other, trampoline, {}, {p.value});
        other := other + {p.value};
        assert other == old(other) - {} + {p.value};
      } else {
        MovedNone(m);
        RestMoved(m, m, procs, other, trampoline, {}, {});
      }
    }

    method Give(k: nat)
      requires Valid() && k in other
      modifies this`other, mem
      ensures Valid() && other == old(other) - {k} && AllSame(old(mem.Now()), mem.Now(), procs)
    {
      hide Wf, All, Inv, Moved;
      ghost var m := mem.Now();
      InvWf(m, procs, other, trampoline);
      OtherUsed(m, procs, other, trampoline, k);
      KfreeOk(m, {k}, k);
      assert {k} - {k} == {};
      mem.Kfree(k);
      RestMoved(m, mem.Now(), procs, other, trampoline, {k}, {});
      other := other - {k};
      assert other == old(other) - {k} + {};
    }

    /** However processes come, grow, copy, change and go, no page is lost or shared. */
    method Serve(calls: seq<Call>)
      requires Valid()
      modifies this, mem
      ensures Valid()
      ensures procs == map[] ==> FreeSet(mem.Now()) == mem.managed - other
    {
      hide Wf, Inv, Only, Wrote, Forked, Newborn, Sbrk, Execed, Moved;
      for k := 0 to |calls|
        invariant Valid()
      {
        match calls[k]
        case Spawn(i) =>
          if i !in procs { var _ := Allocproc(i); }
        case ForkTo(i, j) =>
          if i in procs && j !in procs { var _ := Fork(i, j); }
        case SbrkBy(i, n) =>
          if i in procs && -0x8000_0000 <= n < 0x8000_0000 { var _ := Growproc(i, n); }
        case Run(i, header, segs, entry, args) =>
          if i in procs && Words(segs) && |args| < MAXARG && forall a :: 0 <= a < |args| ==> |args[a]| <= PGSIZE {
            var argc; ghost var sp, addrs;
            argc, sp, addrs := Exec(i, header, segs, entry, args);
          }
        case Write(i, va, data) =>
          if i in procs && va < WORD && |data| < WORD { var _ := Store(i, va, data); }
        case Reap(i) =>
          if i in procs { Freeproc(i); }
        case Takes => var _ := Take();
        case Gives(k) =>
          if k in other { Give(k); }
      }
      if procs == map[] { AllBack(mem.Now(), procs, other, trampoline); }
    }
  }
}
