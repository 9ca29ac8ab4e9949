/** The doubly linked ring of bio.c: buffers 0..NBUF-1 and the list head, linked
    through prev/next, most recently used first. */
module LruList {
  import opened Finite

  const NBUF := 10
  const HEAD := NBUF

  /** Ring position i: the head, the listed buffers in order, the head again. */
  function At(order: seq<nat>, i: nat): nat
    requires i <= |order| + 1
  {
    if i == 0 || i == |order| + 1 then HEAD else order[i - 1]
  }

  ghost predicate Distinct(order: seq<nat>) {
    && (forall i :: 0 <= i < |order| ==> order[i] < NBUF)
    && (forall i, j :: 0 <= i < j < |order| ==> order[i] != order[j])
  }

  /** next and prev spell out the given order, in both directions. */
  ghost predicate Linked(next: seq<nat>, prev: seq<nat>, order: seq<nat>) {
    && |next| == |prev| == NBUF + 1
    && Distinct(order)
    && forall i :: 0 <= i <= |order| ==>
         next[At(order, i)] == At(order, i + 1) && prev[At(order, i + 1)] == At(order, i)
  }

  /** `order` without position j. */
  function Without(order: seq<nat>, j: nat): seq<nat>
    requires j < |order|
  {
    order[..j] + order[j + 1..]
  }

  /** Taking a buffer out: its two neighbours are linked to each other. */
  lemma Unlink(next: seq<nat>, prev: seq<nat>, order: seq<nat>, j: nat)
    requires Linked(next, prev, order) && j < |order|
    ensures var b := order[j];
      && b < NBUF && next[b] <= NBUF && prev[b] <= NBUF
      && Linked(next[prev[b] := next[b]], prev[next[b] := prev[b]], Without(order, j))
      && b !in Without(order, j)
  {
    var b, o := order[j], Without(order, j);
    assert At(order, j + 1) == b;
    assert next[At(order, j + 1)] == At(order, j + 2) && prev[At(order, j + 1)] == At(order, j);
    var next', prev' := next[prev[b] := next[b]], prev[next[b] := prev[b]];
    forall i | 0 <= i <= |o|
      ensures next'[At(o, i)] == At(o, i + 1) && prev'[At(o, i + 1)] == At(o, i)
    {
      UnlinkAt(next, prev, order, j, i);
    }
  }

  /** Position i of the ring after position j is taken out. */
  lemma UnlinkAt(next: seq<nat>, prev: seq<nat>, order: seq<nat>, j: nat, i: nat)
    requires Linked(next, prev, order) && j < |order| && i < |order|
    ensures var b, o := order[j], Without(order, j);
      && b < NBUF && next[b] <= NBUF && prev[b] <= NBUF && At(o, i) <= NBUF && At(o, i + 1) <= NBUF
      && next[prev[b] := next[b]][At(o, i)] == At(o, i + 1)
      && prev[next[b] := prev[b]][At(o, i + 1)] == At(o, i)
  {
    var b, o := order[j], Without(order, j);
    assert At(order, j + 1) == b;
    assert next[At(order, j + 1)] == At(order, j + 2) && prev[At(order, j + 1)] == At(order, j);
    assert At(o, i) == if i <= j then At(order, i) else At(order, i + 1);
    assert At(o, i + 1) == if i < j then At(order, i + 1) else At(order, i + 2);
    var k := if i < j then i else i + 1;
    assert next[At(order, k)] == At(order, k + 1) && prev[At(order, k + 1)] == At(order, k);
    if i != j {
      AtInjective(order, k, j);
      AtInjective(order, k + 1, j + 2);
    }
  }

  /** Two ring positions hold the same node only if they are the same position
      or both ends of the ring. */
  lemma AtInjective(order: seq<nat>, i: nat, j: nat)
    requires Distinct(order) && i <= |order| + 1 && j <= |order| + 1
    ensures At(order, i) == At(order, j) ==> i == j || (i == 0 && j == |order| + 1) || (i == |order| + 1 && j == 0)
  {
  }

  /** Putting a buffer in directly behind the head. */
  lemma PushFront(next: seq<nat>, prev: seq<nat>, order: seq<nat>, b: nat)
    requires Linked(next, prev, order) && b < NBUF && b !in order
    ensures next[HEAD] <= NBUF
    ensures Linked(next[b := next[HEAD]][HEAD := b], prev[b := HEAD][next[HEAD] := b], [b] + order)
  {
    var o := [b] + order;
    assert next[At(order, 0)] == At(order, 1);
    var next', prev' := next[b := next[HEAD]][HEAD := b], prev[b := HEAD][next[HEAD] := b];
    forall i | 0 <= i <= |o|
      ensures next'[At(o, i)] == At(o, i + 1) && prev'[At(o, i + 1)] == At(o, i)
    {
      assert At(o, i + 1) == if i == 0 then b else At(order, i);
      if i > 1 {
        AtInjective(order, i, 1);
        assert next[At(order, i - 1)] == At(order, i);
      }
    }
  }

  /** A full ring lists every buffer. */
  lemma AllListed(order: seq<nat>, b: nat)
    requires Distinct(order) && |order| == NBUF && b < NBUF
    ensures b in order
  {
    Pigeonhole(order, NBUF, b);
  }

  class Lru {
    const next: array<nat>
    const prev: array<nat>
    ghost var order: seq<nat>

    ghost predicate Valid()
      reads this, next, prev
    {
      next != prev && Linked(next[..], prev[..], order) && |order| == NBUF
    }

    /** binit: push every buffer to the front in turn. */
    constructor ()
      ensures Valid() && fresh(next) && fresh(prev)
      ensures order == seq(NBUF, i requires 0 <= i < NBUF => NBUF - 1 - i)
    {
      next := new nat[NBUF + 1](_ => HEAD);
      prev := new nat[NBUF + 1](_ => HEAD);
      order := [];
      new;
      for b := 0 to NBUF
        invariant next != prev && fresh(next) && fresh(prev)
        invariant Linked(next[..], prev[..], order)
        invariant order == seq(b, i requires 0 <= i < b => b - 1 - i)
      {
        InsertAtHead(b);
      }
    }

    /** Put a buffer that is not on the list directly behind the head. */
    method InsertAtHead(b: nat)
      requires next != prev && Linked(next[..], prev[..], order) && b < NBUF && b !in order
      modifies this, next, prev
      ensures Linked(next[..], prev[..], order) && order == [b] + old(order)
    {
      PushFront(next[..], prev[..], order, b);
      next[b] := next[HEAD];
      prev[b] := HEAD;
      prev[next[HEAD]] := b;
      next[HEAD] := b;
      order := [b] + order;
      assert next[..] == old(next[..])[b := old(next[HEAD])][HEAD := b];
      assert prev[..] == old(prev[..])[b := HEAD][old(next[HEAD]) := b];
    }

    /** brelse: unlink b and make it the most recently used buffer. */
    method MoveToFront(b: nat, ghost j: nat)
      requires Valid() && j < NBUF && order[j] == b
      modifies this, next, prev
      ensures Valid() && order == [b] + Without(old(order), j)
    {
      Unlink(next[..], prev[..], order, j);
      prev[next[b]] := prev[b];
      next[prev[b]] := next[b];
      order := Without(order, j);
      assert prev[..] == old(prev[..])[old(next[b]) := old(prev[b])];
      assert next[..] == old(next[..])[old(prev[b]) := old(next[b])];
      InsertAtHead(b);
    }
  }
}
