/** The mutex and its wait queue as a state machine over the sections that run under its spin lock,
    for any number of threads; and the sections changed in place. */
module MutexProtocol {
  import opened Queues

  /** A thread that finds the mutex taken enters the queue (Parking), gives up the processor
      (Asleep), and tries again after it was woken (Woken). */
  datatype Phase = Out | Parking | Asleep | Woken | Holding

  datatype Mtx = Mtx(resources: nat, queue: seq<nat>, phase: map<nat, Phase>)
  {
    function PhaseOf(t: nat): Phase {
      if t in phase then phase[t] else Out
    }

    ghost predicate ThreadOk(t: nat) {
      t in queue <==> PhaseOf(t) == Parking || PhaseOf(t) == Asleep
    }

    ghost predicate Alone(t: nat, u: nat) {
      PhaseOf(t) == Holding && PhaseOf(u) == Holding ==> t == u
    }

    /** Resources and holders are one; while the mutex is free nobody is in the queue. */
    ghost predicate Inv() {
      && (forall t {:trigger ThreadOk(t)} :: ThreadOk(t))
      && (forall t, u {:trigger Alone(t, u)} :: Alone(t, u))
      && (forall i, j | 0 <= i < j < |queue| :: queue[i] != queue[j])
      && (resources == 0 || (resources == 1 && queue == []))
      && (resources == 0 <==> exists t :: PhaseOf(t) == Holding)
    }
  }

  datatype Move = Lock | TryLock | Park | Retry | Event | Unlock

  ghost predicate Enabled(s: Mtx, t: nat, m: Move) {
    match m
    case Lock => s.PhaseOf(t) == Out
    case TryLock => s.PhaseOf(t) == Out
    case Park => s.PhaseOf(t) == Parking
    case Retry => s.PhaseOf(t) == Woken
    case Event => s.PhaseOf(t) == Parking || s.PhaseOf(t) == Asleep
    case Unlock => s.PhaseOf(t) == Holding
  }

  /** `lock_mutex_common`, and the queue when it fails. */
  function Attempt(s: Mtx, t: nat): Mtx {
    if s.resources == 0 then s.(queue := s.queue + [t], phase := s.phase[t := Parking])
    else s.(resources := s.resources - 1, phase := s.phase[t := Holding])
  }

  /** `wque_wakeup`: all the queue may try again. */
  function WakeAll(phase: map<nat, Phase>, queue: seq<nat>): map<nat, Phase>
    decreases |queue|
  {
    if queue == [] then phase else WakeAll(phase[queue[0] := Woken], queue[1..])
  }

  function Apply(s: Mtx, t: nat, m: Move): Mtx {
    match m
    case Lock => Attempt(s, t)
    case TryLock => if s.resources == 0 then s else Attempt(s, t)
    case Park => s.(phase := s.phase[t := Asleep])
    case Retry => Attempt(s, t)
    case Event => s.(queue := Without(s.queue, t), phase := s.phase[t := Out])
    case Unlock => Mtx(s.resources + 1, [], WakeAll(s.phase[t := Out], s.queue))
  }

  lemma {:induction false} WakeAllIs(phase: map<nat, Phase>, queue: seq<nat>, t: nat)
    ensures var p := WakeAll(phase, queue);
            if t in queue then t in p && p[t] == Woken
            else (t in p <==> t in phase) && (t in phase ==> p[t] == phase[t])
    decreases |queue|
  {
    if queue != [] {
      WakeAllIs(phase[queue[0] := Woken], queue[1..], t);
      assert t in queue <==> t == queue[0] || t in queue[1..];
    }
  }

  // ---- What each step does ----

  /** Nobody but t, and those of moved, is in another phase. */
  ghost predicate OnlyMoved(s: Mtx, e: Mtx, t: nat, moved: seq<nat>) {
    forall u | u != t && u !in moved :: e.PhaseOf(u) == s.PhaseOf(u)
  }

  /** An attempt takes the resource if there is one, and else puts the thread last in the queue. */
  lemma AttemptIs(s: Mtx, t: nat)
    ensures var e := Attempt(s, t);
            && OnlyMoved(s, e, t, [])
            && (s.resources > 0 ==>
                  e.resources == s.resources - 1 && e.queue == s.queue && e.PhaseOf(t) == Holding)
            && (s.resources == 0 ==>
                  e.resources == 0 && e.queue == s.queue + [t] && e.PhaseOf(t) == Parking)
  {
  }

  /** Locking without waiting leaves everything as it is when there is no resource. */
  lemma TryIs(s: Mtx, t: nat)
    ensures s.resources == 0 ==> Apply(s, t, TryLock) == s
    ensures s.resources > 0 ==> var e := Apply(s, t, TryLock);
              && OnlyMoved(s, e, t, []) && e.PhaseOf(t) == Holding
              && e.resources == s.resources - 1 && e.queue == s.queue
  {
  }

  /** An event takes a sleeper out of the queue, and parking leaves it in. */
  lemma ParkIs(s: Mtx, t: nat)
    requires s.Inv() && s.PhaseOf(t) == Parking
    ensures var e := Apply(s, t, Park);
            OnlyMoved(s, e, t, []) && e.PhaseOf(t) == Asleep && e.resources == s.resources && e.queue == s.queue
  {
  }

  lemma EventIs(s: Mtx, t: nat)
    requires s.Inv() && (s.PhaseOf(t) == Parking || s.PhaseOf(t) == Asleep)
    ensures var e := Apply(s, t, Event);
            && OnlyMoved(s, e, t, []) && e.PhaseOf(t) == Out && e.resources == s.resources
            && |e.queue| == |s.queue| - 1 && (forall u :: u in e.queue <==> u in s.queue && u != t)
            && exists i: nat :: i < |s.queue| && s.queue[i] == t && e.queue == s.queue[..i] + s.queue[i + 1..]
  {
    assert s.ThreadOk(t);
    WithoutIs(s.queue, t);
    WithoutSize(s.queue, t);
    var i := WithoutAt(s.queue, t);
  }

  /** Unlocking gives the resource back and wakes all the queue. */
  lemma UnlockIs(s: Mtx, t: nat)
    requires s.Inv() && s.PhaseOf(t) == Holding
    ensures var e := Apply(s, t, Unlock);
            && e.resources == 1 && e.queue == [] && e.PhaseOf(t) == Out && OnlyMoved(s, e, t, s.queue)
            && forall u | u in s.queue :: e.PhaseOf(u) == Woken
  {
    assert s.ThreadOk(t);
    forall u ensures var e := Apply(s, t, Unlock);
                     e.PhaseOf(u) == if u in s.queue then Woken else if u == t then Out else s.PhaseOf(u) {
      WakeAllIs(s.phase[t := Out], s.queue, u);
    }
  }

  lemma AttemptKeeps(s: Mtx, t: nat)
    requires s.Inv() && (s.PhaseOf(t) == Out || s.PhaseOf(t) == Woken)
    ensures Attempt(s, t).Inv()
  {
    var e := Attempt(s, t);
    assert s.ThreadOk(t);
    forall u ensures e.ThreadOk(u) { assert s.ThreadOk(u); }
    forall u, v ensures e.Alone(u, v) {
      assert s.Alone(u, v);
      assert s.PhaseOf(u) == Holding || s.PhaseOf(v) == Holding ==> s.resources == 0;
    }
    if s.resources == 0 {
      var h :| s.PhaseOf(h) == Holding;
      assert e.PhaseOf(h) == Holding;
    } else {
      assert e.PhaseOf(t) == Holding;
    }
  }

  lemma UnlockKeeps(s: Mtx, t: nat)
    requires s.Inv() && s.PhaseOf(t) == Holding
    ensures Apply(s, t, Unlock).Inv()
  {
    var e := Apply(s, t, Unlock);
    assert s.ThreadOk(t);
    forall u ensures e.ThreadOk(u) && e.PhaseOf(u) != Holding {
      assert s.ThreadOk(u) && s.Alone(t, u);
      WakeAllIs(s.phase[t := Out], s.queue, u);
    }
    forall u, v ensures e.Alone(u, v) {}
  }

  lemma ApplyKeeps(s: Mtx, t: nat, m: Move)
    requires s.Inv() && Enabled(s, t, m)
    ensures Apply(s, t, m).Inv()
  {
    match m
    case Lock => AttemptKeeps(s, t);
    case TryLock => if s.resources != 0 { AttemptKeeps(s, t); }
    case Retry => AttemptKeeps(s, t);
    case Unlock => UnlockKeeps(s, t);
    case Park => LeaveKeeps(s, t, s.queue, Asleep);
    case Event => LeaveKeeps(s, t, Without(s.queue, t), Out);
  }

  /** A thread in the queue falls asleep or leaves. */
  lemma LeaveKeeps(s: Mtx, t: nat, q: seq<nat>, p: Phase)
    requires s.Inv() && (s.PhaseOf(t) == Parking || s.PhaseOf(t) == Asleep)
    requires (p == Asleep && q == s.queue) || (p == Out && q == Without(s.queue, t))
    ensures s.(queue := q, phase := s.phase[t := p]).Inv()
  {
    var e := s.(queue := q, phase := s.phase[t := p]);
    WithoutIs(s.queue, t);
    assert s.ThreadOk(t);
    forall u ensures e.ThreadOk(u) { assert s.ThreadOk(u); }
    forall u, v ensures e.Alone(u, v) { assert s.Alone(u, v); }
    assert s.resources == 0;
    var h :| s.PhaseOf(h) == Holding;
    assert e.PhaseOf(h) == Holding;
  }

  // ---- Whole runs ----

  const FREE: Mtx := Mtx(1, [], map[])

  ghost predicate Runs(s: Mtx, run: seq<(nat, Move)>, e: Mtx)
    decreases |run|
  {
    if run == [] then e == s else Enabled(s, run[0].0, run[0].1) && Runs(Apply(s, run[0].0, run[0].1), run[1..], e)
  }

  lemma {:induction false} RunsKeep(s: Mtx, run: seq<(nat, Move)>, e: Mtx)
    requires s.Inv() && Runs(s, run, e)
    ensures e.Inv()
    decreases |run|
  {
    hide Mtx.Inv, Apply, Enabled;
    if run != [] {
      ApplyKeeps(s, run[0].0, run[0].1);
      RunsKeep(Apply(s, run[0].0, run[0].1), run[1..], e);
    }
  }

  /** No wake-up is lost: after any run, at most one thread holds the mutex, and while a thread
      sleeps, or is about to, some other holds it and will wake it from the queue. */
  lemma NoLostWakeup(run: seq<(nat, Move)>, e: Mtx, t: nat, u: nat)
    requires Runs(FREE, run, e)
    ensures e.PhaseOf(t) == Holding && e.PhaseOf(u) == Holding ==> t == u
    ensures e.PhaseOf(t) == Asleep || e.PhaseOf(t) == Parking ==> t in e.queue && exists h :: e.PhaseOf(h) == Holding
    ensures e.resources == (if exists h :: e.PhaseOf(h) == Holding then 0 else 1)
  {
    FreeInv();
    RunsKeep(FREE, run, e);
    assert e.Alone(t, u) && e.ThreadOk(t);
  }

  /** Progress: after an unlock in any reachable state, whoever locks or tries again next has the
      mutex, and every thread that waited may be the one. */
  lemma UnlockThenLock(run: seq<(nat, Move)>, e: Mtx, t: nat, u: nat, m: Move)
    requires Runs(FREE, run, e) && Enabled(e, t, Unlock)
    ensures e.PhaseOf(u) == Asleep || e.PhaseOf(u) == Parking || e.PhaseOf(u) == Woken ==>
              Enabled(Apply(e, t, Unlock), u, Retry)
    ensures (m == Lock || m == Retry || m == TryLock) && Enabled(Apply(e, t, Unlock), u, m) ==>
              Apply(Apply(e, t, Unlock), u, m).PhaseOf(u) == Holding
  {
    FreeInv();
    RunsKeep(FREE, run, e);
    assert e.ThreadOk(u) && e.ThreadOk(t);
    UnlockIs(e, t);
    hide Mtx.Inv;
    AttemptIs(Apply(e, t, Unlock), u);
  }

  /** No deadlock: from every reachable state there is a run in which a thread that waits, asleep or
      woken, gets the mutex. */
  lemma WaiterCanHold(run: seq<(nat, Move)>, e: Mtx, u: nat) returns (more: seq<(nat, Move)>, f: Mtx)
    requires Runs(FREE, run, e) && (e.PhaseOf(u) == Asleep || e.PhaseOf(u) == Parking || e.PhaseOf(u) == Woken)
    ensures Runs(e, more, f) && f.PhaseOf(u) == Holding && |more| <= 2
  {
    FreeInv();
    RunsKeep(FREE, run, e);
    assert e.ThreadOk(u);
    if e.resources == 1 {
      more, f := [(u, Retry)], Apply(e, u, Retry);
      AttemptIs(e, u);
    } else {
      var h :| e.PhaseOf(h) == Holding;
      var g := Apply(e, h, Unlock);
      UnlockThenLock(run, e, h, u, Retry);
      more, f := [(h, Unlock), (u, Retry)], Apply(g, u, Retry);
      assert more[1..] == [(u, Retry)];
    }
    NoMore(f);
  }

  lemma NoMore(f: Mtx)
    ensures Runs(f, [], f)
  {
  }

  lemma FreeInv()
    ensures FREE.Inv()
  {
  }

  lemma Binary(s: Mtx)
    requires s.Inv()
    ensures s.resources <= 1
  {
  }

  // ---- In place ----

  class Mutex {
    var resources: nat
    var queue: seq<nat>
    ghost var phase: map<nat, Phase>

    ghost function State(): Mtx
      reads this
    {
      Mtx(resources, queue, phase)
    }

    ghost predicate Valid()
      reads this
    {
      State().Inv()
    }

    /** `mutex_init` */
    constructor ()
      ensures Valid() && State() == FREE && resources == 1 && queue == [] && phase == map[]
    {
      resources, queue, phase := 1, [], map[];
      new;
      FreeInv();
    }

    /** `lock_mutex_common` */
    method LockCommon(t: nat) returns (ok: bool)
      modifies this`resources, this`phase
      ensures ok <==> old(resources) > 0
      ensures if ok then resources == old(resources) - 1 && phase == old(phase)[t := Holding]
              else resources == 0 && phase == old(phase)
    {
      if resources == 0 { return false; }
      resources := resources - 1;
      phase := phase[t := Holding];
      return true;
    }

    /** `mutex_try_lock` */
    method TryAcquire(t: nat) returns (ok: bool)
      requires Valid() && Enabled(State(), t, TryLock)
      modifies this`resources, this`phase
      ensures Valid() && State() == Apply(old(State()), t, TryLock) && (ok <==> old(resources) == 1)
      ensures !ok ==> State() == old(State())
      ensures ok ==> resources == 0 && State().PhaseOf(t) == Holding && queue == old(queue)
      ensures OnlyMoved(old(State()), State(), t, [])
    {
      hide Mtx.Inv;
      Binary(State());
      TryIs(State(), t);
      ApplyKeeps(State(), t, TryLock);
      ok := LockCommon(t);
    }

    /** One turn of the loop of `mutex_lock`, up to the sleep. */
    method Acquire(t: nat) returns (ok: bool)
      requires Valid() && (Enabled(State(), t, Lock) || Enabled(State(), t, Retry))
      modifies this`resources, this`queue, this`phase
      ensures Valid() && State() == Attempt(old(State()), t) && (ok <==> old(resources) == 1)
      ensures resources == 0 && OnlyMoved(old(State()), State(), t, [])
      ensures State().PhaseOf(t) == if ok then Holding else Parking
      ensures queue == if ok then old(queue) else old(queue) + [t]
    {
      hide Mtx.Inv;
      Binary(State());
      AttemptIs(State(), t);
      AttemptKeeps(State(), t);
      ok := LockCommon(t);
      if !ok {
        queue := queue + [t];
        phase := phase[t := Parking];
      }
    }

    /** `mutex_unlock`, by the holder */
    method Release(t: nat)
      requires Valid() && Enabled(State(), t, Unlock)
      modifies this`resources, this`queue, this`phase
      ensures Valid() && State() == Apply(old(State()), t, Unlock)
      ensures resources == 1 && queue == [] && State().PhaseOf(t) == Out
      ensures forall u | u in old(queue) :: State().PhaseOf(u) == Woken
      ensures forall u | u != t && u !in old(queue) :: State().PhaseOf(u) == old(State()).PhaseOf(u)
    {
      UnlockIs(State(), t);
      ApplyKeeps(State(), t, Unlock);
      hide Mtx.Inv;
      resources := resources + 1;
      phase := phase[t := Out];
      Wakeup();
    }

    /** `wque_wakeup`, which drains the queue */
    method Wakeup()
      modifies this`queue, this`phase
      ensures queue == [] && phase == WakeAll(old(phase), old(queue))
      ensures forall u | u in old(queue) :: u in phase && phase[u] == Woken
      ensures forall u | u !in old(queue) ::
                (u in phase <==> u in old(phase)) && (u in phase ==> phase[u] == old(phase)[u])
    {
      forall u ensures var p := WakeAll(phase, queue);
                       if u in queue then u in p && p[u] == Woken
                       else (u in p <==> u in phase) && (u in phase ==> p[u] == phase[u]) {
        WakeAllIs(phase, queue, u);
      }
      while queue != []
        invariant WakeAll(phase, queue) == WakeAll(old(phase), old(queue))
        decreases |queue|
      {
        phase := phase[queue[0] := Woken];
        queue := queue[1..];
      }
    }
  }
}
