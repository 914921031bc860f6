/** What becomes of threads over whole runs: how deaths travel upwards, that a thread is freed once,
    and which dead threads are never collected. */
module ThreadRuns {
  import opened Queues
  import opened Threads

  // ---- Giving back a reference ----

  /** `thr_ref_dec`: the last reference to a thread ends it, and then the reference that it had to its
      parent is given back in the same way. */
  ghost function Release(d: Db, t: nat): (e: Db)
    requires d.Inv() && t in d.thr && d.Held(t) > 0
    ensures e.Inv()
    decreases |d.tree|
  {
    HasRefs(d, t);
    if d.thr[t].refs > 1 then
      DropKeeps(d, t);
      Drop(d, t)
    else
      LastKeeps(d, t);
      TreeShrinks(d, t);
      Release(Last(d, t), d.thr[t].parent)
  }

  lemma HasRefs(d: Db, t: nat)
    requires d.Inv() && t in d.thr && d.Held(t) > 0
    ensures d.thr[t].refs > 0 && (d.thr[t].refs == 1 ==> CanDie(d, t))
  {
    At(d, t);
    hide Db.Inv;
  }

  lemma TreeShrinks(d: Db, t: nat)
    requires d.Inv() && CanDie(d, t) && d.thr[t].parent in d.thr && d.thr[t].parent != t
    ensures |Last(d, t).tree| < |d.tree|
  {
    LastHolder(d, t);
    hide Db.Inv;
    var i := d.thr[t].id;
    assert d.tree.Keys == Last(d, t).tree.Keys + {i} && i !in Last(d, t).tree;
  }

  /** Thread u died between d and e. */
  ghost predicate Died(d: Db, e: Db, u: nat) {
    u in d.thr && u in e.thr && d.thr[u].life != Dead && e.thr[u].life == Dead
  }

  /** What giving back one reference to t does: t dies if it was the last one, and exiting threads above
      it may die. Each thread that dies waits with its parent, and exactly the identifiers of those
      that die are free. */
  ghost predicate GivenBack(d: Db, e: Db, t: nat) {
    && e.Inv() && e.own == d.own && e.holds == d.holds - multiset{t} && e.thr.Keys == d.thr.Keys && t in d.thr
    && (e.thr[t].life == Dead <==> d.thr[t].refs == 1)
    && IdsGone(d, e)
    && forall u | u in d.thr :: SameButDead(d.thr[u], e.thr[u]) && WaitsAbove(d, e, u)
  }

  ghost predicate SameButDead(x: Thread, y: Thread) {
    && y.id == x.id && y.parent == x.parent && y.children == x.children && x.waiters <= y.waiters
    && (y.life == x.life || (x.life == Exit && y.life == Dead))
  }

  /** The identifiers that left the tree are those of the threads that died, and they are free. */
  ghost predicate IdsGone(d: Db, e: Db) {
    && (forall i | i in e.tree :: i in d.tree && e.tree[i] == d.tree[i])
    && (forall i | i in d.tree :: i !in e.tree <==> Died(d, e, d.tree[i]))
    && (forall i :: i in e.idmap <==> i in d.idmap && !(i in d.tree && i !in e.tree))
  }

  /** A thread that died has come last in the queue of dead children of its parent, and nothing else
      has come into a queue. */
  ghost predicate WaitsAbove(d: Db, e: Db, u: nat)
    requires u in d.thr && u in e.thr
  {
    && (Died(d, e, u) ==> d.thr[u].parent in e.thr && u in e.thr[d.thr[u].parent].waiters)
    && (forall x | x in e.thr[u].waiters :: x in d.thr[u].waiters || (Died(d, e, x) && d.thr[x].parent == u))
  }

  lemma {:induction false} ReleaseGivesBack(d: Db, t: nat)
    requires d.Inv() && t in d.thr && d.Held(t) > 0
    ensures GivenBack(d, Release(d, t), t)
    decreases |d.tree|
  {
    hide Db.Inv, GivenBack;
    HasRefs(d, t);
    if d.thr[t].refs > 1 {
      DropKeeps(d, t);
      DropGivesBack(d, t);
    } else {
      LastKeeps(d, t);
      TreeShrinks(d, t);
      ReleaseGivesBack(Last(d, t), d.thr[t].parent);
      Chain(d, Last(d, t), Release(Last(d, t), d.thr[t].parent), t);
    }
  }

  lemma DropGivesBack(d: Db, t: nat)
    requires d.Inv() && t in d.thr && d.thr[t].refs > 1 && d.Held(t) > 0 && Drop(d, t).Inv()
    ensures GivenBack(d, Drop(d, t), t)
  {
    At(Drop(d, t), t);
    TreeIds(d);
    hide Db.Inv;
  }

  /** Of the death of t alone: the others are as they were. */
  lemma LastIs(d: Db, t: nat)
    requires CanDie(d, t) && d.thr[t].life == Exit && d.thr[t].parent in d.thr && d.thr[t].parent != t
    ensures var e := Last(d, t);
            && e.thr.Keys == d.thr.Keys && e.own == d.own && e.thr[t].life == Dead
            && e.holds == d.holds - multiset{t} + multiset{d.thr[t].parent}
            && (forall u | u in d.thr :: SameButDead(d.thr[u], e.thr[u]) && (u != t ==> e.thr[u].life == d.thr[u].life))
  {
  }

  /** One thread died, and its parent gave back the reference that the dead one had. */
  lemma Chain(d: Db, e: Db, f: Db, t: nat)
    requires d.Inv() && CanDie(d, t) && d.thr[t].parent in d.thr && d.thr[t].parent != t && e == Last(d, t)
    requires e.Inv() && GivenBack(e, f, d.thr[t].parent)
    ensures GivenBack(d, f, t)
  {
    hide Db.Inv, Last, WaitsAbove, IdsGone;
    LastHolder(d, t);
    TreeIds(d);
    LastIs(d, t);
    assert f.holds == d.holds - multiset{t} by { assert d.holds[t] > 0; }
    forall u | u in d.thr
      ensures SameButDead(d.thr[u], f.thr[u]) && (Died(d, f, u) <==> u == t || Died(e, f, u))
    {
      assert SameButDead(d.thr[u], e.thr[u]) && SameButDead(e.thr[u], f.thr[u]);
    }
    forall u | u in d.thr ensures WaitsAbove(d, f, u) { ChainWaits(d, e, f, t, u); }
    ChainIds(d, e, f, t);
  }

  lemma ChainWaits(d: Db, e: Db, f: Db, t: nat, u: nat)
    requires CanDie(d, t) && d.thr[t].parent in d.thr && d.thr[t].parent != t && e == Last(d, t) && u in d.thr
    requires f.thr.Keys == d.thr.Keys && SameButDead(e.thr[u], f.thr[u]) && WaitsAbove(e, f, u)
    requires SameButDead(e.thr[d.thr[t].parent], f.thr[d.thr[t].parent])
    requires forall x | x in d.thr :: Died(d, f, x) <==> x == t || Died(e, f, x)
    ensures WaitsAbove(d, f, u)
  {
    var p := d.thr[t].parent;
    var q := d.thr[p].waiters;
    assert e.thr[p].waiters[|q|] == t;
    assert f.thr[p].waiters[|q|] == t;
    forall x | x in f.thr[u].waiters ensures x in d.thr[u].waiters || (Died(d, f, x) && d.thr[x].parent == u) {
      if x in e.thr[u].waiters { assert x in d.thr[u].waiters || x == t; }
    }
  }

  lemma ChainIds(d: Db, e: Db, f: Db, t: nat)
    requires CanDie(d, t) && d.thr[t].parent in d.thr && d.thr[t].parent != t && e == Last(d, t) && d.InTree(t)
    requires IdsGone(e, f) && f.thr.Keys == d.thr.Keys
    requires forall i | i in d.tree :: d.tree[i] in d.thr && d.thr[d.tree[i]].id == i
    requires forall x | x in d.thr :: Died(d, f, x) <==> x == t || Died(e, f, x)
    ensures IdsGone(d, f)
  {
    forall i | i in d.tree ensures i !in f.tree <==> Died(d, f, d.tree[i]) {
      if i == d.thr[t].id { assert d.tree[i] == t; } else { assert i in e.tree && d.tree[i] != t; }
    }
  }

  /** A death below a thread that lives on ends there. */
  lemma ReleaseStops(d: Db, t: nat)
    requires d.Inv() && CanDie(d, t) && d.thr[t].parent in d.thr && d.thr[d.thr[t].parent].life == Live
    ensures d.thr[t].parent != t && Last(d, t).thr[d.thr[t].parent].refs > 1
    ensures Release(d, t) == Drop(Last(d, t), d.thr[t].parent)
  {
    hide Db.Inv;
    HasRefs(d, t);
    LastKeeps(d, t);
    var p := d.thr[t].parent;
    LiveHasOwn(Last(d, t), p);
  }

  lemma LiveHasOwn(d: Db, p: nat)
    requires d.Inv() && p in d.thr && d.thr[p].life == Live && d.Held(p) > 0
    ensures d.thr[p].refs > 1
  {
    At(d, p);
    hide Db.Inv;
  }

  // ---- Dead threads that nobody will collect ----

  /** A dead thread waits with a parent that has not begun to exit. */
  ghost predicate Awaited(d: Db, x: nat) {
    exists p :: p in d.thr && d.thr[p].life == Live && x in d.thr[p].waiters
  }

  ghost predicate Stranded(d: Db, x: nat) {
    x in d.thr && d.thr[x].life == Dead && !Awaited(d, x)
  }

  ghost predicate NoneStranded(d: Db) {
    forall x :: !Stranded(d, x)
  }

  /** In no queue at all. */
  ghost predicate Nowhere(d: Db, x: nat) {
    x in d.thr && d.thr[x].life == Dead && forall p | p in d.thr :: x !in d.thr[p].waiters
  }

  lemma Place(d: Db, p: nat, q: nat, x: nat)
    requires d.Inv() && p in d.thr && q in d.thr && x in d.thr[p].waiters && x in d.thr[q].waiters
    ensures p == q
  {
    var i: nat :| i < |d.thr[p].waiters| && d.thr[p].waiters[i] == x;
    var j: nat :| j < |d.thr[q].waiters| && d.thr[q].waiters[j] == x;
    assert d.OnePlace(p, i, q, j);
  }

  lemma WaitersDead(d: Db, p: nat)
    requires d.Inv() && p in d.thr
    ensures forall x | x in d.thr[p].waiters :: x in d.thr && d.thr[x].life == Dead
  {
    forall x | x in d.thr[p].waiters ensures x in d.thr && d.thr[x].life == Dead {
      var i: nat :| i < |d.thr[p].waiters| && d.thr[p].waiters[i] == x;
      assert d.WaiterAt(p, i);
    }
  }

  /** Where no dead thread is stranded, none waits with a thread that has begun to exit. */
  lemma OnlyLiveHaveWaiters(d: Db, p: nat)
    requires d.Inv() && NoneStranded(d) && p in d.thr && d.thr[p].life != Live
    ensures d.thr[p].waiters == []
  {
    if d.thr[p].waiters != [] {
      var x := d.thr[p].waiters[0];
      WaitersDead(d, p);
      assert !Stranded(d, x);
      var q :| q in d.thr && d.thr[q].life == Live && x in d.thr[q].waiters;
      Place(d, p, q, x);
    }
  }

  // ---- Steps and runs ----

  /** The steps that threads take, each under the locks that it needs. */
  datatype Move = MHold(t: nat) | MDrop(t: nat) | MNew(a: nat, id: nat, auto: bool) | MLink(c: nat, p: nat)
                | MUnlink(c: nat) | MDetach(c: nat) | MExit(t: nat) | MGiveUp(t: nat) | MLast(t: nat) | MCollect(p: nat)

  /** Only a thread that has not begun to exit waits for its children. */
  ghost predicate Enabled(d: Db, m: Move) {
    match m
    case MHold(t) => t in d.thr && d.thr[t].refs > 0
    case MDrop(t) => t in d.thr && d.thr[t].refs > 1 && d.Held(t) > 0
    case MNew(a, id, auto) =>
      a != NULL && a !in d.thr && id !in d.tree && (if auto then id !in d.idmap else id < TID_RSV)
    case MLink(c, p) => CanLink(d, c, p)
    case MUnlink(c) => CanUnlink(d, c)
    case MDetach(c) => CanDetach(d, c)
    case MExit(t) => CanExit(d, t)
    case MGiveUp(t) => t in d.own && t in d.thr && d.thr[t].life == Exit && d.thr[t].parent != t
    case MLast(t) => CanDie(d, t) && d.thr[t].parent in d.thr && d.thr[t].parent != t
    case MCollect(p) => CanFree(d, p) && d.thr[p].life == Live
  }

  ghost function Apply(d: Db, m: Move): Db
    requires Enabled(d, m)
  {
    match m
    case MHold(t) => Hold(d, t)
    case MDrop(t) => Drop(d, t)
    case MNew(a, id, auto) => New(d, a, id, auto)
    case MLink(c, p) => Link(d, c, p)
    case MUnlink(c) => Unlink(d, c)
    case MDetach(c) => Detach(d, c)
    case MExit(t) => BeginExit(d, t)
    case MGiveUp(t) => GiveUpOwn(d, t)
    case MLast(t) => Last(d, t)
    case MCollect(p) => Free(d, p)
  }

  lemma ApplyKeeps(d: Db, m: Move)
    requires d.Inv() && Enabled(d, m)
    ensures Apply(d, m).Inv()
  {
    hide Db.Inv, Hold, Drop, New, Link, Unlink, Detach, BeginExit, GiveUpOwn, Last, Free;
    hide CanLink, CanUnlink, CanDetach, CanExit, CanDie, CanFree;
    match m
    case MHold(t) => HoldKeeps(d, t);
    case MDrop(t) => DropKeeps(d, t);
    case MNew(a, id, auto) => NewKeeps(d, a, id, auto);
    case MLink(c, p) => LinkKeeps(d, c, p);
    case MUnlink(c) => UnlinkKeeps(d, c);
    case MDetach(c) => DetachKeeps(d, c);
    case MExit(t) => BeginExitKeeps(d, t);
    case MGiveUp(t) => GiveUpOwnKeeps(d, t);
    case MLast(t) => LastKeeps(d, t);
    case MCollect(p) => FreeKeeps(d, p);
  }

  ghost predicate Runs(d: Db, run: seq<Move>, e: Db)
    decreases |run|
  {
    if run == [] then e == d else Enabled(d, run[0]) && Runs(Apply(d, run[0]), run[1..], e)
  }

  lemma {:induction false} RunsKeep(d: Db, run: seq<Move>, e: Db)
    requires d.Inv() && Runs(d, run, e)
    ensures e.Inv()
    decreases |run|
  {
    hide Db.Inv, Apply, Enabled;
    if run != [] {
      ApplyKeeps(d, run[0]);
      RunsKeep(Apply(d, run[0]), run[1..], e);
    }
  }

  /** The database with the collecting thread alone. */
  ghost function Start(a: nat, ids: set<nat>): Db {
    Db(map[a := Thread(TID_REAPER, 1, Live, a, [], [])], map[TID_REAPER := a], ids, {a}, multiset{})
  }

  lemma StartInv(a: nat, ids: set<nat>)
    requires a != NULL
    ensures Start(a, ids).Inv() && NoneStranded(Start(a, ids))
  {
    assert Start(a, ids).Namers(a) == {};
  }

  /** In whatever order any number of threads took their steps: what is referred to is in the tree, and
      what is dead is referred to by nothing. */
  lemma RunsAreSafe(a: nat, ids: set<nat>, run: seq<Move>, e: Db, t: nat)
    requires a != NULL && Runs(Start(a, ids), run, e)
    ensures e.Held(t) > 0 || t in e.own || e.Queued(t) ==> e.InTree(t) && e.thr[t].refs > 0
    ensures forall c | c in e.thr && e.thr[c].life != Dead && e.thr[c].parent == t && t != NULL ::
              e.InTree(t) && e.thr[t].refs > 0
    ensures t in e.thr && e.thr[t].life == Dead ==> e.thr[t].refs == 0 && !e.InTree(t) && e.Namers(t) == {}
  {
    hide Db.Inv, Runs;
    StartInv(a, ids);
    RunsKeep(Start(a, ids), run, e);
    if e.Held(t) > 0 || t in e.own || e.Queued(t) { ReferencedIsAlive(e, t); }
    forall c | c in e.thr && e.thr[c].life != Dead && e.thr[c].parent == t && t != NULL
      ensures e.InTree(t) && e.thr[t].refs > 0
    {
      ReferencedIsAlive(e, t);
    }
    if t in e.thr && e.thr[t].life == Dead { DeadIsUnreferenced(e, t); }
  }

  // ---- Freed once ----

  /** How often the thread at x was freed in a run. */
  ghost function Frees(d: Db, run: seq<Move>, x: nat): nat
    decreases |run|
  {
    if run == [] || !Enabled(d, run[0]) then 0
    else
      Frees(Apply(d, run[0]), run[1..], x) + (if run[0].MCollect? && d.thr[run[0].p].waiters[0] == x then 1 else 0)
  }

  function News(run: seq<Move>, x: nat): nat {
    if run == [] then 0 else News(run[1..], x) + (if run[0].MNew? && run[0].a == x then 1 else 0)
  }

  /** A thread is freed once for each time it was created, and those not freed yet are there. */
  lemma {:induction false} FreedOnce(d: Db, run: seq<Move>, e: Db, x: nat)
    requires d.Inv() && Runs(d, run, e)
    ensures Frees(d, run, x) + (if x in e.thr then 1 else 0) == News(run, x) + (if x in d.thr then 1 else 0)
    decreases |run|
  {
    hide Db.Inv, Apply, Enabled;
    if run != [] {
      ApplyKeeps(d, run[0]);
      OneFree(d, run[0], x);
      FreedOnce(Apply(d, run[0]), run[1..], e, x);
    }
  }

  lemma OneFree(d: Db, m: Move, x: nat)
    requires d.Inv() && Enabled(d, m)
    ensures m.MCollect? ==> m.p in d.thr && |d.thr[m.p].waiters| > 0 && d.thr[m.p].waiters[0] in d.thr
    ensures x in Apply(d, m).thr <==>
              (m.MNew? && m.a == x) || (x in d.thr && !(m.MCollect? && d.thr[m.p].waiters[0] == x))
    ensures m.MNew? ==> m.a !in d.thr
  {
    if m.MCollect? { FirstWaiter(d, m.p); }
    hide Db.Inv, Without;
  }

  // ---- Which steps strand a dead thread ----

  /** Lives and queues of dead children are the same. */
  ghost predicate SameFates(d: Db, e: Db) {
    && e.thr.Keys == d.thr.Keys
    && forall u | u in d.thr :: e.thr[u].life == d.thr[u].life && e.thr[u].waiters == d.thr[u].waiters
  }

  lemma FatesStrand(d: Db, e: Db, x: nat)
    requires SameFates(d, e)
    ensures Stranded(e, x) <==> Stranded(d, x)
  {
  }

  lemma NewStrands(d: Db, a: nat, id: nat, auto: bool, x: nat)
    requires d.Inv() && a != NULL && a !in d.thr
    ensures Stranded(New(d, a, id, auto), x) <==> Stranded(d, x)
  {
    hide Db.Inv;
    var e := New(d, a, id, auto);
    forall p ensures p in e.thr && e.thr[p].life == Live && x in e.thr[p].waiters <==>
                     p in d.thr && d.thr[p].life == Live && x in d.thr[p].waiters {}
  }

  /** A thread that begins to exit strands exactly the dead children that wait with it. */
  lemma ExitStrands(d: Db, t: nat, x: nat)
    requires d.Inv() && CanExit(d, t)
    ensures Stranded(BeginExit(d, t), x) <==> Stranded(d, x) || x in d.thr[t].waiters
  {
    var e := BeginExit(d, t);
    WaitersDead(d, t);
    if x in d.thr[t].waiters {
      forall p | p in d.thr && x in d.thr[p].waiters ensures p == t { Place(d, p, t, x); }
    }
    hide Db.Inv;
    if Awaited(d, x) && x !in d.thr[t].waiters {
      var p :| p in d.thr && d.thr[p].life == Live && x in d.thr[p].waiters;
      assert p in e.thr && e.thr[p].life == Live && x in e.thr[p].waiters;
    }
    if Awaited(e, x) {
      var p :| p in e.thr && e.thr[p].life == Live && x in e.thr[p].waiters;
      assert p in d.thr && d.thr[p].life == Live && x in d.thr[p].waiters;
    }
  }

  /** A thread that dies is stranded exactly if its parent has begun to exit. */
  lemma LastStrands(d: Db, t: nat, x: nat)
    requires d.Inv() && CanDie(d, t) && d.thr[t].parent in d.thr && d.thr[t].parent != t
    ensures Stranded(Last(d, t), x) <==> Stranded(d, x) || (x == t && d.thr[d.thr[t].parent].life != Live)
  {
    LastHolder(d, t);
    NotWaiting(d, t);
    hide Db.Inv;
    var e, q := Last(d, t), d.thr[t].parent;
    assert e.thr[q].waiters[|d.thr[q].waiters|] == t;
    forall p ensures p in e.thr && e.thr[p].life == Live && x in e.thr[p].waiters <==>
                     p in d.thr && d.thr[p].life == Live && (x in d.thr[p].waiters || (p == q && x == t)) {}
    if x == t && d.thr[q].life == Live { assert q in e.thr && e.thr[q].life == Live && x in e.thr[q].waiters; }
    if Awaited(d, x) {
      var p :| p in d.thr && d.thr[p].life == Live && x in d.thr[p].waiters;
      assert p in e.thr && e.thr[p].life == Live && x in e.thr[p].waiters;
    }
  }

  /** What is not dead waits nowhere. */
  lemma NotWaiting(d: Db, t: nat)
    requires d.Inv() && t in d.thr && d.thr[t].life != Dead
    ensures forall p | p in d.thr :: t !in d.thr[p].waiters
  {
    forall p | p in d.thr ensures t !in d.thr[p].waiters { WaitersDead(d, p); }
  }

  /** Collecting strands nobody anew, but those that wait with the thread freed are in no queue any more. */
  lemma FreeStrands(d: Db, p: nat, x: nat)
    requires d.Inv() && CanFree(d, p) && d.thr[p].life == Live
    ensures Stranded(Free(d, p), x) <==> Stranded(d, x)
    ensures var w := d.thr[p].waiters[0];
            w in d.thr && (Nowhere(Free(d, p), x) <==> Nowhere(d, x) || x in d.thr[w].waiters)
  {
    FirstWaiter(d, p);
    var e, w := Free(d, p), d.thr[p].waiters[0];
    WaitersDead(d, w);
    forall q | q in d.thr && w in d.thr[q].waiters ensures q == p { Place(d, q, p, w); }
    if x in d.thr[w].waiters {
      forall q | q in d.thr && x in d.thr[q].waiters ensures q == w { Place(d, q, w, x); }
    }
    Gone(d, p);
    hide Db.Inv;
    forall q | q in d.thr && q != w && x != w ensures x in e.thr[q].waiters <==> x in d.thr[q].waiters {}
    if x != w && Awaited(d, x) {
      var q :| q in d.thr && d.thr[q].life == Live && x in d.thr[q].waiters;
      assert q in e.thr && e.thr[q].life == Live && x in e.thr[q].waiters;
    }
    if x == w { assert Awaited(d, x) && !Nowhere(d, x); }
  }

  /** The first one in the queue is there once, and does not wait with itself. */
  lemma Gone(d: Db, p: nat)
    requires d.Inv() && CanFree(d, p)
    ensures var w := d.thr[p].waiters[0]; w !in d.thr[p].waiters[1..] && (w in d.thr ==> w !in d.thr[w].waiters)
  {
    var q := d.thr[p].waiters;
    forall i: nat | i < |q[1..]| ensures q[1..][i] != q[0] { assert d.OnePlace(p, 0, p, i + 1); }
    if q[0] in d.thr && q[0] in d.thr[q[0]].waiters { Place(d, p, q[0], q[0]); }
  }

  /** The step leaves no dead thread behind: who begins to exit has none waiting, and who dies has a
      parent that has not begun to exit. */
  ghost predicate Careful(d: Db, m: Move) {
    && (m.MExit? && m.t in d.thr ==> d.thr[m.t].waiters == [])
    && (m.MLast? && m.t in d.thr && d.thr[m.t].parent in d.thr ==> d.thr[d.thr[m.t].parent].life == Live)
  }

  lemma StepStrands(d: Db, m: Move, x: nat)
    requires d.Inv() && Enabled(d, m)
    ensures Stranded(Apply(d, m), x) <==>
            || Stranded(d, x)
            || (m.MExit? && x in d.thr[m.t].waiters)
            || (m.MLast? && x == m.t && d.thr[d.thr[m.t].parent].life != Live)
  {
    hide Db.Inv, Stranded, Without;
    match m
    case MNew(a, id, auto) => NewStrands(d, a, id, auto, x);
    case MExit(t) => ExitStrands(d, t, x);
    case MLast(t) => LastStrands(d, t, x);
    case MCollect(p) => FreeStrands(d, p, x);
    case MHold(t) => FatesStrand(d, Hold(d, t), x);
    case MDrop(t) => FatesStrand(d, Drop(d, t), x);
    case MLink(c, p) => FatesStrand(d, Link(d, c, p), x);
    case MUnlink(c) => FatesStrand(d, Unlink(d, c), x);
    case MDetach(c) => FatesStrand(d, Detach(d, c), x);
    case MGiveUp(t) => FatesStrand(d, GiveUpOwn(d, t), x);
  }

  /** A step keeps NoneStranded if and only if it is careful. */
  lemma KeepsNoneStrandedIff(d: Db, m: Move)
    requires d.Inv() && Enabled(d, m) && NoneStranded(d)
    ensures NoneStranded(Apply(d, m)) <==> Careful(d, m)
  {
    hide Db.Inv, Stranded, Apply;
    assert m.MExit? ==> m.t in d.thr;
    assert m.MLast? ==> m.t in d.thr && d.thr[m.t].parent in d.thr;
    forall x ensures Stranded(Apply(d, m), x) <==>
                     (m.MExit? && x in d.thr[m.t].waiters)
                       || (m.MLast? && x == m.t && d.thr[d.thr[m.t].parent].life != Live) {
      StepStrands(d, m, x);
    }
    if m.MExit? && d.thr[m.t].waiters != [] { assert Stranded(Apply(d, m), d.thr[m.t].waiters[0]); }
    if m.MLast? && d.thr[d.thr[m.t].parent].life != Live { assert Stranded(Apply(d, m), m.t); }
  }

  ghost predicate AllCareful(d: Db, run: seq<Move>)
    decreases |run|
  {
    run == [] || (Enabled(d, run[0]) && Careful(d, run[0]) && AllCareful(Apply(d, run[0]), run[1..]))
  }

  /** What is stranded is never collected. */
  lemma {:induction false} StrandedForever(d: Db, run: seq<Move>, e: Db, x: nat)
    requires d.Inv() && Runs(d, run, e) && Stranded(d, x)
    ensures Stranded(e, x)
    decreases |run|
  {
    hide Db.Inv, Apply, Enabled, Stranded;
    if run != [] {
      ApplyKeeps(d, run[0]);
      StepStrands(d, run[0], x);
      StrandedForever(Apply(d, run[0]), run[1..], e, x);
    }
  }

  /** After a run no dead thread is stranded if and only if each of its steps was careful. */
  lemma {:induction false} NoneStrandedIff(d: Db, run: seq<Move>, e: Db)
    requires d.Inv() && Runs(d, run, e) && NoneStranded(d)
    ensures NoneStranded(e) <==> AllCareful(d, run)
    decreases |run|
  {
    hide Db.Inv, Apply, Enabled, Stranded, Careful;
    if run != [] {
      var f := Apply(d, run[0]);
      ApplyKeeps(d, run[0]);
      KeepsNoneStrandedIff(d, run[0]);
      if Careful(d, run[0]) {
        NoneStrandedIff(f, run[1..], e);
      } else {
        var x :| Stranded(f, x);
        StrandedForever(f, run[1..], e, x);
      }
    }
  }

  /** Where all steps were careful, from the start on, each dead thread waits with a parent that may
      still collect it, and with nobody else. */
  lemma CarefulRuns(a: nat, ids: set<nat>, run: seq<Move>, e: Db, x: nat)
    requires a != NULL && Runs(Start(a, ids), run, e) && AllCareful(Start(a, ids), run)
    ensures x in e.thr && e.thr[x].life == Dead ==> Awaited(e, x)
    ensures x in e.thr && e.thr[x].life != Live ==> e.thr[x].waiters == []
  {
    hide Db.Inv, Start, Awaited, Runs, AllCareful;
    StartInv(a, ids);
    RunsKeep(Start(a, ids), run, e);
    NoneStrandedIff(Start(a, ids), run, e);
    assert !Stranded(e, x);
    if x in e.thr && e.thr[x].life != Live { OnlyLiveHaveWaiters(e, x); }
  }

  // ---- Identifiers ----

  /** Each identifier in the tree is marked as used. */
  ghost predicate Marked(d: Db) {
    forall i | i in d.tree :: i in d.idmap
  }

  ghost predicate LeastFree(ids: set<nat>, max: nat, i: nat) {
    i < max && i !in ids && forall j: nat | j < i :: j in ids
  }

  /** The identifier that a new thread would get stands in the tree already: its entry there is
      refused, and the kernel stops. */
  ghost predicate Clashes(d: Db, max: nat, id: nat) {
    if id < TID_RSV then id in d.tree else exists i: nat :: LeastFree(d.idmap, max, i) && i in d.tree
  }

  /** Where all identifiers in the tree are marked, only a thread under a reserved identifier that is
      in use stops the kernel. */
  lemma MarkedClashes(d: Db, max: nat, id: nat)
    requires Marked(d)
    ensures Clashes(d, max, id) <==> id < TID_RSV && id in d.tree
  {
    assert forall i: nat | LeastFree(d.idmap, max, i) :: i !in d.tree;
  }

  /** Creation under a reserved identifier does not mark it. It was marked in advance, but the death
      of a thread that had it clears the mark: exactly then the next thread under it has no mark. */
  lemma KeepsMarkedIff(d: Db, m: Move)
    requires d.Inv() && Enabled(d, m) && Marked(d)
    ensures Marked(Apply(d, m)) <==> (m.MNew? && !m.auto ==> m.id in d.idmap)
  {
    hide Db.Inv;
    if m.MNew? { assert m.id in Apply(d, m).tree; }
  }

  ghost predicate KeepsMarks(d: Db, run: seq<Move>)
    decreases |run|
  {
    run == [] || (Enabled(d, run[0]) && (run[0].MNew? && !run[0].auto ==> run[0].id in d.idmap)
                  && KeepsMarks(Apply(d, run[0]), run[1..]))
  }

  /** In a run in which reserved identifiers are used only while they are marked, no automatic choice
      of an identifier ever stops the kernel. */
  lemma {:induction false} MarkedRuns(d: Db, run: seq<Move>, e: Db, max: nat)
    requires d.Inv() && Marked(d) && Runs(d, run, e) && KeepsMarks(d, run)
    ensures Marked(e) && !Clashes(e, max, TID_RSV)
    decreases |run|
  {
    hide Db.Inv, Apply, Enabled, Marked, Clashes;
    if run == [] {
      MarkedClashes(d, max, TID_RSV);
    } else {
      ApplyKeeps(d, run[0]);
      KeepsMarkedIff(d, run[0]);
      MarkedRuns(Apply(d, run[0]), run[1..], e, max);
    }
  }
}
