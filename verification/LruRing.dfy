/** The doubly linked ring that threads every buffer of the block cache in
    order of use (kernel/bio.c). A node is its index in the buffer array; index
    `Head` is the list head, which is not a buffer. */
module LruRing {
  import opened Params

  const Head := NBUF

  /** The ring read off from the head and back to it. */
  ghost function Circle(order: seq<int>): (r: seq<int>) {
    [Head] + order + [Head]
  }

  predicate Distinct(order: seq<int>) {
    && (forall i :: 0 <= i < |order| ==> 0 <= order[i] < NBUF)
    && (forall i, j :: 0 <= i < j < |order| ==> order[i] != order[j])
  }

  /** `next` and `prev` are inverse and visit exactly `order`. */
  ghost predicate Links(next: seq<int>, prev: seq<int>, order: seq<int>) {
    var r := Circle(order);
    && |next| == NBUF + 1 && |prev| == NBUF + 1
    && Distinct(order)
    && (forall i :: 0 <= i < |r| - 1 ==> next[r[i]] == r[i + 1])
    && (forall i :: 0 <= i < |r| - 1 ==> prev[r[i + 1]] == r[i])
  }

  /** `order` without its entry at position `k`. */
  function Without(order: seq<int>, k: nat): (r: seq<int>)
    requires k < |order|
  {
    order[..k] + order[k + 1..]
  }

  /** Every index occurs in a full ring. */
  lemma {:induction false} Pigeonhole(order: seq<int>, n: nat, x: int)
    requires |order| == n
    requires forall i :: 0 <= i < n ==> 0 <= order[i] < n
    requires forall i, j :: 0 <= i < j < n ==> order[i] != order[j]
    requires 0 <= x < n
    ensures x in order
    decreases n
  {
    if order[n - 1] == x {
    } else if n == 1 {
      assert false;
    } else {
      // rename the value n - 1 to the last element, then drop the last element
      var last := order[n - 1];
      var o := seq(n - 1, i requires 0 <= i < n - 1 => if order[i] == n - 1 then last else order[i]);
      var y := if x == n - 1 then last else x;
      Pigeonhole(o, n - 1, y);
      var i :| 0 <= i < n - 1 && o[i] == y;
      assert order[i] == x;
    }
  }

  /** A full ring visits every buffer. */
  lemma VisitsAll(order: seq<int>, b: int)
    requires Distinct(order) && |order| == NBUF && 0 <= b < NBUF
    ensures b in order
  {
    Pigeonhole(order, NBUF, b);
  }

  /** Splicing out position `k` leaves a ring through the others. */
  lemma Splice(next: seq<int>, prev: seq<int>, order: seq<int>, k: nat)
    requires Links(next, prev, order) && k < |order|
    ensures var r := Circle(order);
            Links(next[r[k] := r[k + 2]], prev[r[k + 2] := r[k]], Without(order, k))
  {
    var r := Circle(order);
    var o := Without(order, k);
    var q := Circle(o);
    var n, p := next[r[k] := r[k + 2]], prev[r[k + 2] := r[k]];
    assert forall i :: 0 <= i < |o| ==> o[i] == if i < k then order[i] else order[i + 1];
    assert forall i :: 0 <= i < |q| ==> q[i] == if i <= k then r[i] else r[i + 1];
    forall i | 0 <= i < |q| - 1
      ensures n[q[i]] == q[i + 1] && p[q[i + 1]] == q[i]
    {
      if i < k {
        assert next[r[i]] == r[i + 1] && prev[r[i + 1]] == r[i];
      } else if i > k {
        assert next[r[i + 1]] == r[i + 2] && prev[r[i + 2]] == r[i + 1];
      }
    }
  }

  class Ring {
    const next: array<int>
    const prev: array<int>
    ghost var order: seq<int>

    ghost predicate Valid()
      reads this, next, prev
    {
      && next != prev && next.Length == NBUF + 1 && prev.Length == NBUF + 1
      && Links(next[..], prev[..], order)
    }

    /** binit: link the buffers one by one in front of the head. */
    constructor ()
      ensures Valid() && fresh(next) && fresh(prev)
      ensures |order| == NBUF
    {
      next := new int[NBUF + 1](_ => 0);
      prev := new int[NBUF + 1](_ => 0);
      order := [];
      new;
      prev[Head] := Head;
      next[Head] := Head;
      for b := 0 to NBUF
        invariant Valid()
        invariant |order| == b && forall i :: 0 <= i < b ==> order[i] < b
      {
        PushFront(b);
      }
    }

    /** Insert an unlinked node just after the head. */
    method PushFront(b: int)
      requires Valid() && 0 <= b < NBUF && b !in order
      modifies this, next, prev
      ensures Valid() && order == [b] + old(order)
    {
      ghost var r := Circle(order);
      assert next[..][r[0]] == r[1] && 0 <= r[1] <= NBUF;
      next[b] := next[Head];
      prev[b] := Head;
      prev[next[Head]] := b;
      next[Head] := b;
      order := [b] + order;
      ghost var q := Circle(order);
      assert forall i :: 2 <= i < |q| ==> q[i] == r[i - 1];
    }

    /** Take a node out of the ring; its own links are left dangling. */
    method Unlink(b: int, ghost k: nat)
      requires Valid() && k < |order| && order[k] == b
      modifies this, next, prev
      ensures Valid() && order == Without(old(order), k)
    {
      ghost var r := Circle(order);
      assert r[k + 1] == b && next[..][r[k + 1]] == r[k + 2] && prev[..][r[k + 1]] == r[k];
      Splice(next[..], prev[..], order, k);
      prev[next[b]] := prev[b];
      next[prev[b]] := next[b];
      order := Without(order, k);
    }

    /** brelse, kernel/bio.c: move a buffer to the most-recently-used end. */
    method MoveToFront(b: int, ghost k: nat)
      requires Valid() && k < |order| && order[k] == b
      modifies this, next, prev
      ensures Valid() && order == [b] + Without(old(order), k)
    {
      Unlink(b, k);
      PushFront(b);
    }
  }
}
