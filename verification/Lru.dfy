/** The circular doubly linked list of kernel/bio.c, on which buffers are kept
    from the most to the least recently used. */
module Lru {

  /** Starting from `head`, following `next` visits `order` and returns to `head`,
      and following `prev` visits it backwards. */
  ghost predicate Linked(next: seq<int>, prev: seq<int>, head: int, order: seq<int>) {
    && |next| == |prev| && 0 <= head < |next|
    && (forall i :: 0 <= i < |order| ==> 0 <= order[i] < |next| && order[i] != head)
    && (forall i, j :: 0 <= i < j < |order| ==> order[i] != order[j])
    && forall i :: 0 <= i <= |order| ==> Link(next, prev, Before(head, order, i), After(head, order, i))
  }

  ghost predicate Link(next: seq<int>, prev: seq<int>, a: int, b: int) {
    && 0 <= a < |next| && 0 <= b < |prev| && next[a] == b && prev[b] == a
  }

  /** The elements on either side of the `i`th gap of the ring. */
  ghost function Before(head: int, order: seq<int>, i: nat): int
    requires i <= |order|
  {
    if i == 0 then head else order[i - 1]
  }

  ghost function After(head: int, order: seq<int>, i: nat): int
    requires i <= |order|
  {
    if i == |order| then head else order[i]
  }

  function Without(order: seq<int>, k: nat): (r: seq<int>)
    requires k < |order|
  {
    order[..k] + order[k + 1..]
  }

  /** Taking the element at `k` out of the list. */
  lemma Unlinked(next: seq<int>, prev: seq<int>, head: int, order: seq<int>, k: nat)
    requires Linked(next, prev, head, order) && k < |order|
    ensures var b := order[k];
            && 0 <= next[b] < |prev| && 0 <= prev[b] < |next|
            && Linked(next[prev[b] := next[b]], prev[next[b] := prev[b]], head, Without(order, k))
  {
    var b, o := order[k], Without(order, k);
    assert Link(next, prev, Before(head, order, k), After(head, order, k));
    assert Link(next, prev, Before(head, order, k + 1), After(head, order, k + 1));
    var next', prev' := next[prev[b] := next[b]], prev[next[b] := prev[b]];
    forall i | 0 <= i <= |o| ensures Link(next', prev', Before(head, o, i), After(head, o, i)) {
      var j := if i <= k then i else i + 1;
      assert Link(next, prev, Before(head, order, j), After(head, order, j));
    }
  }

  /** Putting `b` in front of the list. */
  lemma Pushed(next: seq<int>, prev: seq<int>, head: int, order: seq<int>, b: int)
    requires Linked(next, prev, head, order) && 0 <= b < |next| && b != head && b !in order
    ensures 0 <= next[head] < |prev|
    ensures Linked(next[b := next[head]][head := b], prev[b := head][next[head] := b], head, [b] + order)
  {
    var o := [b] + order;
    assert Link(next, prev, Before(head, order, 0), After(head, order, 0));
    var next', prev' := next[b := next[head]][head := b], prev[b := head][next[head] := b];
    forall i | 0 <= i <= |o| ensures Link(next', prev', Before(head, o, i), After(head, o, i)) {
      if i > 0 {
        assert Link(next, prev, Before(head, order, i - 1), After(head, order, i - 1));
      }
    }
  }

  /** `order` lists 0, ..., n - 1. */
  ghost predicate Permutation(order: seq<int>, n: nat) {
    && |order| == n
    && forall b :: 0 <= b < n ==> b in order
  }

  function ToFront(order: seq<int>, k: nat): (r: seq<int>)
    requires k < |order|
  {
    [order[k]] + Without(order, k)
  }

  lemma ToFrontPermutes(order: seq<int>, k: nat, n: nat)
    requires k < |order| && Permutation(order, n)
    ensures Permutation(ToFront(order, k), n)
  {
    forall b | 0 <= b < n ensures b in ToFront(order, k) {
      assert b in order;
      var i :| 0 <= i < |order| && order[i] == b;
      if i < k {
        assert ToFront(order, k)[i + 1] == b;
      } else if i > k {
        assert ToFront(order, k)[i] == b;
      }
    }
  }

  /** Elements 0 to n - 1 are buffers; element n is the list head. */
  class List {
    const n: nat
    const next: array<int>
    const prev: array<int>
    ghost var order: seq<int>

    ghost predicate Valid()
      reads this, next, prev
    {
      && next != prev
      && next.Length == n + 1
      && Linked(next[..], prev[..], n, order)
      && Permutation(order, n)
    }

    /** binit: buffers are pushed in front one by one. */
    constructor (n: nat)
      ensures this.n == n && Valid() && fresh(next) && fresh(prev)
      ensures order == seq(n, i => n - 1 - i)
    {
      this.n := n;
      next := new int[n + 1];
      prev := new int[n + 1];
      order := [];
      new;
      next[n], prev[n] := n, n;
      assert Linked(next[..], prev[..], n, order);
      var b := 0;
      while b < n
        invariant 0 <= b <= n && next.Length == n + 1
        invariant Linked(next[..], prev[..], n, order)
        invariant order == seq(b, i requires 0 <= i < b => b - 1 - i)
      {
        Push(b);
        b := b + 1;
      }
      forall c | 0 <= c < n ensures c in order {
        assert order[n - 1 - c] == c;
      }
    }

    /** Link `b` in after the head. */
    method Push(b: int)
      requires next != prev && next.Length == n + 1 && Linked(next[..], prev[..], n, order)
      requires 0 <= b < n && b !in order
      modifies this`order, next, prev
      ensures Linked(next[..], prev[..], n, order) && order == [b] + old(order)
    {
      Pushed(next[..], prev[..], n, order, b);
      next[b] := next[n];
      prev[b] := n;
      prev[next[n]] := b;
      next[n] := b;
      order := [b] + order;
    }

    /** The relinking in brelse. */
    method MoveToFront(b: int, ghost k: nat)
      requires Valid() && 0 <= b < n && k < |order| && order[k] == b
      modifies this`order, next, prev
      ensures Valid() && order == ToFront(old(order), k)
    {
      Unlinked(next[..], prev[..], n, order, k);
      ToFrontPermutes(order, k, n);
      prev[next[b]] := prev[b];
      next[prev[b]] := next[b];
      order := Without(order, k);
      Push(b);
    }
  }
}
