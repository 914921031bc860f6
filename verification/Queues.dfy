/** Linked queues as sequences. */
module Queues {
  ghost predicate Distinct(q: seq<nat>) {
    forall i, j | 0 <= i < j < |q| :: q[i] != q[j]
  }

  /** `queue_del` of an element. */
  function Without(q: seq<nat>, c: nat): seq<nat> {
    if q == [] then [] else if q[0] == c then q[1..] else [q[0]] + Without(q[1..], c)
  }

  lemma {:induction false} WithoutIs(q: seq<nat>, c: nat)
    requires Distinct(q)
    ensures forall x :: x in Without(q, c) <==> x in q && x != c
    ensures Distinct(Without(q, c))
  {
    if q != [] && q[0] != c {
      WithoutIs(q[1..], c);
      assert q[0] !in Without(q[1..], c);
      forall x ensures x in Without(q, c) <==> x in q && x != c { assert x in q <==> x == q[0] || x in q[1..]; }
    } else if q != [] {
      forall x ensures x in Without(q, c) <==> x in q && x != c { assert x in q <==> x == q[0] || x in q[1..]; }
    }
  }

  /** An element that is in no queue is linked to itself: nothing moves. */
  lemma {:induction false} WithoutSize(q: seq<nat>, c: nat)
    ensures c in q ==> |Without(q, c)| == |q| - 1
    ensures c !in q ==> Without(q, c) == q
    ensures forall x :: x in Without(q, c) ==> x in q
  {
    if q != [] && q[0] != c {
      WithoutSize(q[1..], c);
      assert c !in q ==> [q[0]] + q[1..] == q;
    }
  }

  /** The order of the others is kept. */
  lemma {:induction false} WithoutAt(q: seq<nat>, c: nat) returns (i: nat)
    requires c in q
    ensures i < |q| && q[i] == c && c !in q[..i] && Without(q, c) == q[..i] + q[i + 1..]
  {
    if q[0] == c {
      i := 0;
    } else {
      i := WithoutAt(q[1..], c);
      assert q[..i + 1] == [q[0]] + q[1..][..i];
      assert q[i + 2..] == q[1..][i + 1..];
      i := i + 1;
    }
  }

  /** r is q without its element c, the others in their order. */
  ghost predicate LeftOut(q: seq<nat>, r: seq<nat>, c: nat) {
    exists i :: 0 <= i < |q| && q[i] == c && r == q[..i] + q[i + 1..]
  }

  lemma WithoutLeaves(q: seq<nat>, c: nat)
    requires c in q
    ensures LeftOut(q, Without(q, c), c)
  {
    var i := WithoutAt(q, c);
    assert q[i] == c;
  }
}
