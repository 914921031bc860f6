/** The ready queue: one queue of threads for each priority, with a bit map of the queues that are
    not empty. */
module ReadyQueue {
  import opened Powers
  import opened Queues
  import opened Bitmaps

  /** The threads of one queue stand in the order of their arrival. */
  ghost predicate InOrder(q: seq<nat>, arrival: map<nat, nat>) {
    && (forall i | 0 <= i < |q| :: q[i] in arrival)
    && forall i, j | 0 <= i < j < |q| :: arrival[q[i]] < arrival[q[j]]
  }

  class Scheduler {
    const que: array<seq<nat>>
    const bitmap: array<nat>
    ghost var clock: nat
    ghost var arrival: map<nat, nat>

    ghost predicate BitsOk()
      reads que, bitmap
    {
      && Words(bitmap[..], 64) && que.Length <= 64 * bitmap.Length
      && forall p: nat {:trigger BitOf(bitmap[..], 64, p)} ::
            BitOf(bitmap[..], 64, p) <==> p < que.Length && que[p] != []
    }

    ghost predicate OrderOk()
      reads this, que
    {
      && (forall t | t in arrival :: arrival[t] < clock)
      && (forall p | 0 <= p < que.Length :: InOrder(que[p], arrival))
    }

    ghost predicate Valid()
      reads this, que, bitmap
    {
      BitsOk() && OrderOk()
    }

    ghost predicate Queued(t: nat)
      reads que
    {
      exists p :: 0 <= p < que.Length && t in que[p]
    }

    constructor (prios: nat)
      ensures Valid() && que.Length == prios && fresh(que) && fresh(bitmap)
      ensures forall p | 0 <= p < prios :: que[p] == []
    {
      que := new seq<nat>[prios](_ => []);
      bitmap := new nat[prios / 64 + 1](_ => 0);
      clock := 0;
      arrival := map[];
      new;
      assert forall i | 0 <= i < bitmap.Length :: bitmap[..][i] == 0;
      EmptyMap(bitmap[..]);
    }

    /** `bitops_set` */
    method SetBitOf(p: nat)
      requires p / 64 < bitmap.Length && Words(bitmap[..], 64)
      modifies bitmap
      ensures Words(bitmap[..], 64)
      ensures forall r: nat :: BitOf(bitmap[..], 64, r) <==> r == p || BitOf(old(bitmap[..]), 64, r)
    {
      MapSet(bitmap[..], p);
      ghost var was := bitmap[..];
      bitmap[p / 64] := SetBit(bitmap[p / 64], p % 64);
      assert bitmap[..] == was[p / 64 := SetBit(was[p / 64], p % 64)];
    }

    /** `bitops_clr` */
    method ClearBitOf(p: nat)
      requires p / 64 < bitmap.Length && Words(bitmap[..], 64)
      modifies bitmap
      ensures Words(bitmap[..], 64)
      ensures forall r: nat :: BitOf(bitmap[..], 64, r) <==> r != p && BitOf(old(bitmap[..]), 64, r)
    {
      MapClear(bitmap[..], p);
      ghost var was := bitmap[..];
      bitmap[p / 64] := ClearBit(bitmap[p / 64], p % 64);
      assert bitmap[..] == was[p / 64 := ClearBit(was[p / 64], p % 64)];
    }

    /** `sched_thread_add` */
    method Add(t: nat, prio: nat)
      requires Valid() && prio < que.Length && !Queued(t)
      modifies this, que, bitmap
      ensures Valid() && que[..] == old(que[..])[prio := old(que[prio]) + [t]]
      ensures arrival == old(arrival)[t := old(clock)] && clock == old(clock) + 1
    {
      hide BitOf, Words;
      if que[prio] == [] { SetBitOf(prio); }
      que[prio] := que[prio] + [t];
      arrival := arrival[t := clock];
      clock := clock + 1;
      assert forall p | 0 <= p < que.Length && p != prio :: t !in old(que[p]);
      forall p | 0 <= p < que.Length ensures InOrder(que[p], arrival) { assert old(InOrder(que[p], arrival)); }
    }

    /** `sched_thread_del`, for a thread of that priority */
    method Del(t: nat, prio: nat)
      requires Valid() && prio < que.Length && t in que[prio]
      modifies que, bitmap
      ensures Valid() && que[..] == old(que[..])[prio := Without(old(que[prio]), t)] && t !in que[prio]
    {
      hide BitOf, Words;
      WithoutInOrder(que[prio], t, arrival);
      que[prio] := Without(que[prio], t);
      if que[prio] == [] { ClearBitOf(prio); }
    }

    /** `get_next_thread`: of all the threads that are ready, one of the least priority number, and
        among these the one that has waited longest. */
    method Next() returns (found: bool, t: nat, prio: nat)
      requires Valid()
      modifies que, bitmap
      ensures Valid() && (!found <==> forall p | 0 <= p < que.Length :: old(que[p]) == [])
      ensures !found ==> que[..] == old(que[..])
      ensures found ==>
                && prio < que.Length && old(que[prio]) == [t] + que[prio]
                && que[..] == old(que[..])[prio := que[prio]]
      ensures found ==> forall p, u | 0 <= p < que.Length && u in old(que[p]) ::
                prio < p || (prio == p && t in arrival && u in arrival && arrival[t] <= arrival[u])
    {
      hide BitOf, Words;
      var idx := FindFirst(bitmap[..], 6, 64);
      if idx == 0 {
        forall p: nat | p < que.Length ensures que[p] == [] { assert !BitOf(bitmap[..], 64, p); }
        return false, 0, 0;
      }
      prio := idx - 1;
      assert BitOf(bitmap[..], 64, prio);
      ghost var q := que[prio];
      assert InOrder(q, arrival);
      forall p, u | 0 <= p < que.Length && u in que[p] ensures prio < p || (prio == p && arrival[q[0]] <= arrival[u]) {
        assert BitOf(bitmap[..], 64, p);
        if p == prio { assert InOrder(que[p], arrival); }
      }
      t := que[prio][0];
      que[prio] := que[prio][1..];
      if que[prio] == [] { ClearBitOf(prio); }
      forall p | 0 <= p < que.Length ensures InOrder(que[p], arrival) { assert old(InOrder(que[p], arrival)); }
      return true, t, prio;
    }
  }

  lemma EmptyMap(v: seq<nat>)
    requires forall i | 0 <= i < |v| :: v[i] == 0
    ensures Words(v, 64) && forall p: nat :: !BitOf(v, 64, p)
  {
    forall p: nat ensures !BitOf(v, 64, p) { NoBits(p % 64); }
    assert Pow2(64) > 0;
  }

  lemma MapSet(v: seq<nat>, p: nat)
    requires p / 64 < |v| && Words(v, 64)
    ensures var w := v[p / 64 := SetBit(v[p / 64], p % 64)];
            Words(w, 64) && forall r: nat :: BitOf(w, 64, r) <==> r == p || BitOf(v, 64, r)
  {
    var w := v[p / 64 := SetBit(v[p / 64], p % 64)];
    SetInWord(v[p / 64], p % 64, 64);
    forall r: nat ensures BitOf(w, 64, r) <==> r == p || BitOf(v, 64, r) {
      if r / 64 == p / 64 { BitSet(v[p / 64], p % 64, r % 64); }
    }
  }

  lemma MapClear(v: seq<nat>, p: nat)
    requires p / 64 < |v| && Words(v, 64)
    ensures var w := v[p / 64 := ClearBit(v[p / 64], p % 64)];
            Words(w, 64) && forall r: nat :: BitOf(w, 64, r) <==> r != p && BitOf(v, 64, r)
  {
    var w := v[p / 64 := ClearBit(v[p / 64], p % 64)];
    SetInWord(v[p / 64], p % 64, 64);
    forall r: nat ensures BitOf(w, 64, r) <==> r != p && BitOf(v, 64, r) {
      if r / 64 == p / 64 { BitCleared(v[p / 64], p % 64, r % 64); }
    }
  }

  lemma {:induction false} WithoutInOrder(q: seq<nat>, t: nat, arrival: map<nat, nat>)
    requires InOrder(q, arrival)
    ensures InOrder(Without(q, t), arrival) && t !in Without(q, t)
    ensures forall x | x in Without(q, t) :: x in q
  {
    if q != [] {
      Rest(q, arrival);
      hide InOrder;
      if q[0] != t {
        WithoutInOrder(q[1..], t, arrival);
        InFront(q[0], Without(q[1..], t), arrival);
      }
    }
  }

  lemma Rest(q: seq<nat>, arrival: map<nat, nat>)
    requires q != [] && InOrder(q, arrival)
    ensures InOrder(q[1..], arrival) && q[0] in arrival && q[0] !in q[1..]
    ensures forall x | x in q[1..] :: x in q && x in arrival && arrival[q[0]] < arrival[x]
  {
  }

  lemma InFront(a: nat, w: seq<nat>, arrival: map<nat, nat>)
    requires InOrder(w, arrival) && a in arrival && forall x | x in w :: x in arrival && arrival[a] < arrival[x]
    ensures InOrder([a] + w, arrival)
  {
    forall j | 0 <= j < |w| ensures arrival[a] < arrival[w[j]] { assert w[j] in w; }
  }
}
