/** A pipe (kernel/pipe.c). The stretches of pipewrite and piperead under pi->lock are methods; a
    call that sleeps gives the lock up and goes on with another stretch, after others had theirs. */
module Pipe {
  const PIPESIZE := 512
  const WORD := 0x1_0000_0000            // uint

  type Byte = b: int | 0 <= b < 256

  datatype Outcome = Slept | Done | Failed

  function Min(a: nat, b: nat): (m: nat) {
    if a < b then a else b
  }

  // ---- counters modulo 2^32 ----

  function Wrap(n: nat): (w: nat) {
    n % WORD
  }

  lemma WrapStep(n: nat)
    ensures Wrap(Wrap(n) + 1) == Wrap(n + 1)
  {
    var q := n / WORD;
    assert n == q * WORD + n % WORD;
    if n % WORD + 1 < WORD { WrapIs(n + 1, q, n % WORD + 1); } else { WrapIs(n + 1, q + 1, 0); }
  }

  lemma WrapIs(n: nat, q: nat, r: nat)
    requires n == q * WORD + r && r < WORD
    ensures n % WORD == r
  {
  }

  /** Counters at most PIPESIZE apart tell empty and full apart. */
  lemma WrapApart(a: nat, b: nat)
    requires a <= b <= a + PIPESIZE
    ensures Wrap(a) == Wrap(b) <==> a == b
    ensures Wrap(b) == Wrap(Wrap(a) + PIPESIZE) <==> b == a + PIPESIZE
  {
    var p, q := a / WORD, b / WORD;
    assert a == p * WORD + Wrap(a) && b == q * WORD + Wrap(b);
    if Wrap(a) + PIPESIZE < WORD { WrapIs(Wrap(a) + PIPESIZE, 0, Wrap(a) + PIPESIZE); }
    else { WrapIs(Wrap(a) + PIPESIZE, 1, Wrap(a) + PIPESIZE - WORD); }
    assert q == p || q == p + 1;
  }

  /** PIPESIZE divides 2^32, so slots follow the true counts. */
  lemma WrapSlot(n: nat)
    ensures Wrap(n) % PIPESIZE == n % PIPESIZE
  {
    assert n == n / WORD * WORD + n % WORD;
    assert n / WORD * WORD == n / WORD * (WORD / PIPESIZE) * PIPESIZE;
    SlotIs(n, n / WORD * (WORD / PIPESIZE), n % WORD);
  }

  lemma SlotIs(n: nat, q: nat, r: nat)
    requires n == q * PIPESIZE + r
    ensures n % PIPESIZE == r % PIPESIZE
  {
    assert r == r / PIPESIZE * PIPESIZE + r % PIPESIZE;
    assert n == (q + r / PIPESIZE) * PIPESIZE + r % PIPESIZE;
  }

  lemma OtherSlot(a: nat, b: nat)
    requires a < b < a + PIPESIZE
    ensures a % PIPESIZE != b % PIPESIZE
  {
    assert a == a / PIPESIZE * PIPESIZE + a % PIPESIZE && b == b / PIPESIZE * PIPESIZE + b % PIPESIZE;
  }

  /** The slots hold what was appended and not yet removed. */
  ghost predicate Ring(d: seq<Byte>, removed: nat, appended: seq<Byte>) {
    && |d| == PIPESIZE && removed <= |appended| <= removed + PIPESIZE
    && forall j :: removed <= j < |appended| ==> d[j % PIPESIZE] == appended[j]
  }

  lemma Push(d: seq<Byte>, removed: nat, appended: seq<Byte>, b: Byte)
    requires Ring(d, removed, appended) && |appended| < removed + PIPESIZE
    ensures Ring(d[|appended| % PIPESIZE := b], removed, appended + [b])
  {
    var e, all := d[|appended| % PIPESIZE := b], appended + [b];
    forall j | removed <= j < |all|
      ensures e[j % PIPESIZE] == all[j]
    {
      if j < |appended| { OtherSlot(j, |appended|); }
    }
  }

  class Pipe {
    const data: array<Byte>
    var nread: nat
    var nwrite: nat
    var readopen: bool
    var writeopen: bool

    ghost var appended: seq<Byte>        // all bytes ever put in
    ghost var removed: nat               // how many of them were taken out

    /** What is in the pipe is what was appended and not removed, in order, whatever the counters
        have wrapped to. */
    ghost predicate Valid()
      reads this, data
    {
      data.Length == PIPESIZE && Ring(data[..], removed, appended) && nread == Wrap(removed)
      && nwrite == Wrap(|appended|)
    }

    /** pipealloc */
    constructor ()
      ensures Valid() && fresh(data) && appended == [] && removed == 0 && readopen && writeopen
    {
      data := new Byte[PIPESIZE](_ => 0);
      nread, nwrite, readopen, writeopen := 0, 0, true, true;
      appended, removed := [], 0;
    }

    lemma Counters()
      requires Valid()
      ensures removed <= |appended| <= removed + PIPESIZE
      ensures nread == nwrite <==> removed == |appended|
      ensures nwrite == Wrap(nread + PIPESIZE) <==> |appended| == removed + PIPESIZE
      ensures nwrite % PIPESIZE == |appended| % PIPESIZE && nread % PIPESIZE == removed % PIPESIZE
    {
      hide Wrap;
      WrapApart(removed, |appended|);
      WrapSlot(removed);
      WrapSlot(|appended|);
    }

    /** pi->data[pi->nwrite++ % PIPESIZE] = b */
    method Put(b: Byte)
      requires Valid() && |appended| < removed + PIPESIZE
      modifies this`nwrite, this`appended, data
      ensures Valid() && appended == old(appended) + [b]
    {
      hide Wrap, Ring;
      Counters();
      Push(data[..], removed, appended, b);
      WrapStep(|appended|);
      ghost var d := data[..];
      data[nwrite % PIPESIZE] := b;
      nwrite := Wrap(nwrite + 1);
      assert data[..] == d[|appended| % PIPESIZE := b];
      appended := appended + [b];
    }

    /** b = pi->data[pi->nread++ % PIPESIZE] */
    method Get() returns (b: Byte)
      requires Valid() && removed < |appended|
      modifies this`nread, this`removed
      ensures Valid() && removed == old(removed) + 1 && b == appended[old(removed)]
    {
      hide Wrap;
      Counters();
      WrapStep(removed);
      b := data[nread % PIPESIZE];
      nread := Wrap(nread + 1);
      removed := removed + 1;
    }

    /** From taking the lock, or waking up, to sleeping or returning. `i` bytes of `src` are in
        already. The process is seen to be killed after `killAt` rounds, and byte `fault` of `src`
        cannot be copied in. */
    method WriteStretch(src: seq<Byte>, i0: nat, killAt: nat, fault: nat) returns (i: nat, o: Outcome)
      requires Valid() && i0 <= |src| && i0 <= fault
      modifies this`nwrite, this`appended, data
      ensures Valid() && i0 <= i <= |src| && appended == old(appended) + src[i0..i]
      ensures o.Failed? <==> i < |src| && (!readopen || i == i0 + killAt)
      ensures o.Slept? <==> i < |src| && readopen && i < i0 + killAt && |appended| == removed + PIPESIZE
      ensures o.Done? && i < |src| ==> i == fault
      ensures var room := removed + PIPESIZE - |old(appended)|;
              i - i0 == Min(Min(|src|, fault) - i0, Min(room, if readopen then killAt else 0))
    {
      hide Wrap, Ring;
      Counters();
      i := i0;
      while i < |src|
        invariant Valid() && i0 <= i <= |src| && appended == old(appended) + src[i0..i]
        invariant i <= fault && |appended| <= removed + PIPESIZE
        invariant i - i0 <= if readopen then killAt else 0
      {
        Counters();
        if !readopen || i == i0 + killAt { return i, Failed; }
        if nwrite == Wrap(nread + PIPESIZE) { return i, Slept; }
        if i == fault { break; }
        Put(src[i]);
        assert src[i0..i + 1] == src[i0..i] + [src[i]];
        i := i + 1;
      }
      o := Done;
    }

    /** Up to sleeping or returning, with the bytes taken out; the last one may not have reached the
        reader, when `fault` is its index. */
    method ReadStretch(n: nat, killed: bool, fault: nat) returns (got: seq<Byte>, i: nat, o: Outcome)
      requires Valid()
      modifies this`nread, this`removed
      ensures Valid() && removed == old(removed) + |got| && got == appended[old(removed)..removed]
      ensures o.Failed? <==> killed && writeopen && old(removed) == |appended|
      ensures o.Slept? <==> !killed && writeopen && old(removed) == |appended|
      ensures o.Failed? || o.Slept? ==> got == []
      ensures o.Done? ==> i == Min(fault, |got|) && (i == |got| || |got| == fault + 1)
      ensures o.Done? && n <= fault ==> i == Min(n, |appended| - old(removed))
      ensures o.Done? && i == 0 && n > 0 && fault > 0 ==> removed == |appended| && !writeopen
    {
      hide Wrap, Ring;
      got, i := [], 0;
      Counters();
      if nread == nwrite && writeopen {
        return got, 0, if killed then Failed else Slept;
      }
      while i < n
        invariant Valid() && removed == old(removed) + |got| && removed <= |appended|
          && got == appended[old(removed)..removed]
        invariant i == |got| <= n && i <= fault
      {
        Counters();
        if nread == nwrite { break; }
        var b := Get();
        got := got + [b];
        if i == fault { break; }
        i := i + 1;
      }
      o := Done;
    }

    /** pipeclose; the page is freed when both ends are closed. */
    method Close(writable: bool) returns (freed: bool)
      requires Valid()
      modifies this`readopen, this`writeopen
      ensures Valid() && freed == (!readopen && !writeopen)
      ensures writeopen == (old(writeopen) && !writable) && readopen == (old(readopen) && writable)
    {
      if writable { writeopen := false; } else { readopen := false; }
      freed := !readopen && !writeopen;
    }
  }

  // ---- any interleaving of calls ----

  /** The bytes that call `w` put in. */
  function Picked(bytes: seq<Byte>, origin: seq<nat>, w: nat): (r: seq<Byte>)
    requires |bytes| == |origin|
  {
    if bytes == [] then []
    else
      var n := |bytes| - 1;
      Picked(bytes[..n], origin[..n], w) + if origin[n] == w then [bytes[n]] else []
  }

  lemma {:induction false} PickedMore(bytes: seq<Byte>, origin: seq<nat>, more: seq<Byte>, v: nat, w: nat)
    requires |bytes| == |origin|
    ensures Picked(bytes + more, origin + seq(|more|, _ => v), w) ==
            Picked(bytes, origin, w) + if v == w then more else []
    decreases |more|
  {
    if more == [] {
      assert bytes + more == bytes && origin + seq(|more|, _ => v) == origin;
    } else {
      var n := |more| - 1;
      PickedMore(bytes, origin, more[..n], v, w);
      assert (bytes + more)[..|bytes| + n] == bytes + more[..n];
      assert (origin + seq(n + 1, _ => v))[..|origin| + n] == origin + seq(n, _ => v);
      assert more[..n] + [more[n]] == more;
    }
  }

  lemma {:induction false} PickedNone(bytes: seq<Byte>, origin: seq<nat>, w: nat)
    requires |bytes| == |origin| && w !in origin
    ensures Picked(bytes, origin, w) == []
  {
    if bytes != [] {
      assert origin[|origin| - 1] in origin;
      PickedNone(bytes[..|bytes| - 1], origin[..|origin| - 1], w);
    }
  }

  /** A call of pipewrite that has put in the first `i` bytes of `src`. */
  datatype Writer = Writer(src: seq<Byte>, i: nat)

  datatype Event =
    | Begin(w: nat, src: seq<Byte>)
    | Go(w: nat, killAt: nat, fault: nat)
    | Read(n: nat, killed: bool, fault: nat)
    | Shut(writable: bool)

  class Traffic {
    const pipe: Pipe
    var writers: map<nat, Writer>
    ghost var origin: seq<nat>               // which call put in each byte
    var taken: seq<Byte>                 // what calls of piperead took out, one after the other

    /** Readers took a prefix of what was put in, and of each writer its first bytes are in, in order. */
    ghost predicate Valid()
      reads this, pipe, pipe.data
    {
      && pipe.Valid() && |origin| == |pipe.appended| && pipe.removed <= |pipe.appended|
      && taken == pipe.appended[..pipe.removed]
      && (forall w :: w in writers ==> writers[w].i <= |writers[w].src|
                                       && Picked(pipe.appended, origin, w) == writers[w].src[..writers[w].i])
      && (forall k :: 0 <= k < |origin| ==> origin[k] in writers)
    }

    constructor ()
      ensures Valid() && fresh(pipe) && fresh(pipe.data)
    {
      pipe := new Pipe();
      writers, origin, taken := map[], [], [];
    }

    method Begins(w: nat, src: seq<Byte>)
      requires Valid() && w !in writers
      modifies this
      ensures Valid() && writers == old(writers)[w := Writer(src, 0)]
    {
      PickedNone(pipe.appended, origin, w);
      writers := writers[w := Writer(src, 0)];
    }

    method Goes(w: nat, killAt: nat, fault: nat) returns (o: Outcome)
      requires Valid() && w in writers && writers[w].i <= fault
      modifies this, pipe, pipe.data
      ensures Valid() && w in writers && writers == old(writers)[w := Writer(old(writers)[w].src, writers[w].i)]
      ensures old(writers)[w].i <= writers[w].i
      ensures pipe.appended == old(pipe.appended) + writers[w].src[old(writers)[w].i..writers[w].i]
      ensures o.Done? && |writers[w].src| <= fault ==> writers[w].i == |writers[w].src|
    {
      hide Ring, Picked;
      ghost var before, was, had := pipe.appended, origin, writers;
      var i;
      i, o := pipe.WriteStretch(writers[w].src, writers[w].i, killAt, fault);
      ghost var more := writers[w].src[writers[w].i..i];
      origin := origin + seq(|more|, _ => w);
      forall v | v in had
        ensures Picked(pipe.appended, origin, v) == Picked(before, was, v) + if v == w then more else []
      {
        PickedMore(before, was, more, w, v);
      }
      assert had[w].src[..had[w].i] + more == had[w].src[..i];
      writers := writers[w := Writer(writers[w].src, i)];
      assert taken == pipe.appended[..pipe.removed];
      RingBounds(pipe.data[..], pipe.removed, pipe.appended);
    }

    method Reads(n: nat, killed: bool, fault: nat) returns (got: seq<Byte>, i: nat, o: Outcome)
      requires Valid()
      modifies this, pipe
      ensures Valid() && taken == old(taken) + got
    {
      hide Ring, Picked;
      got, i, o := pipe.ReadStretch(n, killed, fault);
      taken := taken + got;
      RingBounds(pipe.data[..], pipe.removed, pipe.appended);
    }

    /** Whatever writers, readers and closers do in whatever order. */
    method Play(events: seq<Event>)
      requires Valid()
      modifies this, pipe, pipe.data
      ensures Valid()
    {
      for k := 0 to |events|
        invariant Valid()
      {
        match events[k]
        case Begin(w, src) =>
          if w !in writers { Begins(w, src); }
        case Go(w, killAt, fault) =>
          if w in writers && writers[w].i <= fault { var _ := Goes(w, killAt, fault); }
        case Read(n, killed, fault) =>
          var _, _, _ := Reads(n, killed, fault);
        case Shut(writable) =>
          var _ := pipe.Close(writable);
      }
    }
  }

  lemma RingBounds(d: seq<Byte>, removed: nat, appended: seq<Byte>)
    requires Ring(d, removed, appended)
    ensures removed <= |appended| <= removed + PIPESIZE
  {
  }
}
