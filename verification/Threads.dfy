/** The thread tree as a value: reference counts, parents, children and dead threads waiting to
    be collected, and the steps of their life. */
module Threads {
  import opened Queues

  const NULL: nat := 0
  const TID_REAPER: nat := 2
  const TID_RSV: nat := 32

  /** Live stands for the scheduling states of a thread that has not begun to exit. */
  datatype Life = Live | Exit | Dead

  datatype Thread = Thread(id: nat, refs: nat, life: Life, parent: nat, children: seq<nat>, waiters: seq<nat>)

  /** tree is the thread database by identifier. For the proof: own holds the threads that have
      not given up the reference they were created with, holds counts the references that running
      code has taken and not yet given back. */
  datatype Db = Db(thr: map<nat, Thread>, tree: map<nat, nat>, idmap: set<nat>, own: set<nat>, holds: multiset<nat>)
  {
    ghost predicate Queued(t: nat) {
      t in thr && thr[t].parent in thr && t in thr[thr[t].parent].children
    }

    /** The threads that name t as their parent and have not told it that they are dead. */
    ghost function Namers(t: nat): set<nat> {
      set c | c in thr && c != t && thr[c].parent == t && thr[c].life != Dead
    }

    ghost function Held(t: nat): nat {
      holds[t]
    }

    ghost predicate InTree(t: nat) {
      t in thr && thr[t].id in tree && tree[thr[t].id] == t
    }

    /** Where each reference comes from. */
    ghost predicate RefsOk(t: nat) {
      t in thr ==>
        thr[t].refs == (if t in own then 1 else 0) + (if Queued(t) then 1 else 0) + |Namers(t)| + Held(t)
    }

    /** A thread is in the tree until its last reference is gone; then it is dead. */
    ghost predicate LifeOk(t: nat) {
      t in thr ==>
        && t != NULL && (thr[t].life == Dead <==> thr[t].refs == 0) && (thr[t].life == Dead <==> !InTree(t))
        && (t !in own ==> thr[t].life != Live)
    }

    /** The parent of a thread that is not dead exists; one that exits has a parent to tell, and
        has left the queues. */
    ghost predicate ParentOk(t: nat) {
      t in thr && thr[t].life != Dead ==>
        && (thr[t].parent != NULL ==> thr[t].parent in thr && thr[thr[t].parent].life != Dead)
        && (thr[t].life == Exit ==> thr[t].parent != NULL && thr[t].parent != t && thr[t].children == [] && !Queued(t))
    }

    ghost predicate KidsOk(p: nat) {
      p in thr ==>
        && (forall i | 0 <= i < |thr[p].children| ::
              var c := thr[p].children[i];
              c in thr && c != p && thr[c].parent == p && thr[c].life == Live)
        && (forall i, j | 0 <= i < j < |thr[p].children| :: thr[p].children[i] != thr[p].children[j])
    }

    ghost predicate WaiterAt(p: nat, i: nat) {
      p in thr && i < |thr[p].waiters| ==>
        thr[p].waiters[i] in thr && thr[thr[p].waiters[i]].life == Dead
    }

    /** A dead thread waits in one place only. */
    ghost predicate OnePlace(p: nat, i: nat, q: nat, j: nat) {
      p in thr && q in thr && i < |thr[p].waiters| && j < |thr[q].waiters| && thr[p].waiters[i] == thr[q].waiters[j]
      ==> p == q && i == j
    }

    ghost predicate TreeOk() {
      && (forall i | i in tree :: tree[i] in thr && thr[tree[i]].id == i)
      && TID_REAPER in tree && tree[TID_REAPER] in own && own <= thr.Keys && (forall t | t in holds :: t in thr)
      && thr[tree[TID_REAPER]].parent == tree[TID_REAPER]
    }

    ghost predicate AllRefs() { forall t {:trigger RefsOk(t)} :: RefsOk(t) }
    ghost predicate AllLives() { forall t {:trigger LifeOk(t)} :: LifeOk(t) }
    ghost predicate AllParents() { forall t {:trigger ParentOk(t)} :: ParentOk(t) }
    ghost predicate AllKids() { forall t {:trigger KidsOk(t)} :: KidsOk(t) }
    ghost predicate AllWaiters() {
      && (forall p, i {:trigger WaiterAt(p, i)} :: WaiterAt(p, i))
      && (forall p, i, q, j {:trigger OnePlace(p, i, q, j)} :: OnePlace(p, i, q, j))
    }

    ghost predicate Inv() {
      AllRefs() && AllLives() && AllParents() && AllKids() && AllWaiters() && TreeOk()
    }
  }

  // ---- What the invariant means ----

  lemma At(d: Db, t: nat)
    requires d.Inv()
    ensures d.RefsOk(t) && d.LifeOk(t) && d.ParentOk(t) && d.KidsOk(t) && d.TreeOk()
  {
  }

  /** A thread that a live or exiting thread names as its parent, that running code holds, or that
      stands in a queue of children, is in the tree: it can be neither dead nor freed. */
  lemma ReferencedIsAlive(d: Db, t: nat)
    requires d.Inv()
    requires d.Held(t) > 0 || t in d.own || d.Queued(t)
             || exists c :: c in d.thr && d.thr[c].life != Dead && d.thr[c].parent == t && t != NULL
    ensures d.InTree(t) && d.thr[t].life != Dead && d.thr[t].refs > 0
  {
    hide Db.Inv, Db.KidsOk;
    At(d, t);
    if exists c :: c in d.thr && d.thr[c].life != Dead && d.thr[c].parent == t && t != NULL {
      var c :| c in d.thr && d.thr[c].life != Dead && d.thr[c].parent == t && t != NULL;
      At(d, c);
    }
  }

  /** A dead thread is referred to by nothing but the queue of dead threads of its parent. */
  lemma DeadIsUnreferenced(d: Db, t: nat)
    requires d.Inv() && t in d.thr && d.thr[t].life == Dead
    ensures d.thr[t].refs == 0 && !d.InTree(t) && t !in d.own && d.Held(t) == 0 && !d.Queued(t) && d.Namers(t) == {}
    ensures forall p | p in d.thr :: t !in d.thr[p].children
  {
    hide Db.Inv;
    At(d, t);
    forall p | p in d.thr ensures t !in d.thr[p].children { At(d, p); }
  }

  // ---- Steps ----

  /** `thr_ref_inc` on a thread that has references. */
  ghost function Hold(d: Db, t: nat): Db
    requires t in d.thr
  {
    d.(thr := d.thr[t := d.thr[t].(refs := d.thr[t].refs + 1)], holds := d.holds + multiset{t})
  }

  /** `thr_ref_dec` that leaves references. */
  ghost function Drop(d: Db, t: nat): Db
    requires t in d.thr
  {
    d.(thr := d.thr[t := d.thr[t].(refs := if d.thr[t].refs > 0 then d.thr[t].refs - 1 else 0)],
      holds := d.holds - multiset{t})
  }

  /** The thread c, which has no parent, becomes a child of p. */
  ghost function Link(d: Db, c: nat, p: nat): Db
    requires c in d.thr && p in d.thr && c != p
  {
    d.(thr := d.thr[c := d.thr[c].(refs := d.thr[c].refs + 1, parent := p)]
                   [p := d.thr[p].(refs := d.thr[p].refs + 1, children := d.thr[p].children + [c])])
  }

  /** The thread c leaves the queue of its parent, which it still names. */
  ghost function Unlink(d: Db, c: nat): Db
    requires c in d.thr && d.thr[c].parent in d.thr && c != d.thr[c].parent && d.thr[c].refs > 0
  {
    var p := d.thr[c].parent;
    d.(thr := d.thr[c := d.thr[c].(refs := d.thr[c].refs - 1)]
                   [p := d.thr[p].(children := Without(d.thr[p].children, c))])
  }

  /** The thread c names its parent no more. */
  ghost function Detach(d: Db, c: nat): Db
    requires c in d.thr && d.thr[c].parent in d.thr && c != d.thr[c].parent && d.thr[d.thr[c].parent].refs > 0
  {
    var p := d.thr[c].parent;
    d.(thr := d.thr[p := d.thr[p].(refs := d.thr[p].refs - 1)][c := d.thr[c].(parent := NULL)])
  }

  ghost function BeginExit(d: Db, t: nat): Db
    requires t in d.thr
  {
    d.(thr := d.thr[t := d.thr[t].(life := Exit)])
  }

  /** The reference a thread was created with is one that running code must give back. */
  ghost function GiveUpOwn(d: Db, t: nat): Db {
    d.(own := d.own - {t}, holds := d.holds + multiset{t})
  }

  /** The last reference to t goes: t leaves the tree and its identifier is free, and the parent is
      told. The reference that t had to its parent is still to be given back. */
  ghost function Last(d: Db, t: nat): Db
    requires t in d.thr && d.thr[t].parent in d.thr && d.thr[t].parent != t
  {
    var p := d.thr[t].parent;
    Db(d.thr[t := d.thr[t].(refs := 0, life := Dead)][p := d.thr[p].(waiters := d.thr[p].waiters + [t])],
       d.tree - {d.thr[t].id}, d.idmap - {d.thr[t].id}, d.own, d.holds - multiset{t} + multiset{p})
  }

  /** The first dead child that waits is collected. */
  ghost function Free(d: Db, p: nat): Db
    requires p in d.thr && |d.thr[p].waiters| > 0
  {
    var w := d.thr[p].waiters[0];
    Db(d.thr[p := d.thr[p].(waiters := d.thr[p].waiters[1..])] - {w}, d.tree, d.idmap, d.own, d.holds)
  }

  /** A new thread, with one reference and no parent. */
  ghost function New(d: Db, a: nat, id: nat, auto: bool): Db {
    Db(d.thr[a := Thread(id, 1, Live, NULL, [], [])], d.tree[id := a], if auto then d.idmap + {id} else d.idmap,
       d.own + {a}, d.holds)
  }

  lemma Whole(d: Db)
    requires d.AllRefs() && d.AllLives() && d.AllParents() && d.AllKids() && d.AllWaiters() && d.TreeOk()
    ensures d.Inv()
  {
  }

  /** Parents, lives and queues are the same. */
  ghost predicate SameShape(d: Db, e: Db) {
    && e.thr.Keys == d.thr.Keys && e.tree == d.tree
    && forall t | t in d.thr ::
         && e.thr[t].parent == d.thr[t].parent && e.thr[t].life == d.thr[t].life && e.thr[t].id == d.thr[t].id
         && e.thr[t].children == d.thr[t].children && e.thr[t].waiters == d.thr[t].waiters
  }

  lemma SameQueues(d: Db, e: Db)
    requires d.Inv() && SameShape(d, e)
    ensures forall t :: e.Namers(t) == d.Namers(t) && (e.Queued(t) <==> d.Queued(t)) && (e.InTree(t) <==> d.InTree(t))
    ensures e.AllKids() && e.AllWaiters() && e.AllParents()
  {
    forall t ensures e.KidsOk(t) { At(d, t); }
    forall t ensures e.ParentOk(t) { At(d, t); }
    forall p, i ensures e.WaiterAt(p, i) { assert d.WaiterAt(p, i); }
    forall p, i, q, j ensures e.OnePlace(p, i, q, j) { assert d.OnePlace(p, i, q, j); }
  }

  lemma HoldKeeps(d: Db, t: nat)
    requires d.Inv() && t in d.thr && d.thr[t].refs > 0
    ensures Hold(d, t).Inv()
  {
    hide Db.Inv, Db.Namers, Db.Queued, Db.InTree, Db.ParentOk, Db.KidsOk, Db.WaiterAt, Db.OnePlace;
    var e := Hold(d, t);
    SameQueues(d, e);
    forall u ensures e.RefsOk(u) && e.LifeOk(u) { At(d, u); }
    At(d, t);
    Whole(e);
  }

  lemma DropKeeps(d: Db, t: nat)
    requires d.Inv() && t in d.thr && d.thr[t].refs > 1 && d.Held(t) > 0
    ensures Drop(d, t).Inv()
  {
    hide Db.Inv, Db.Namers, Db.Queued, Db.InTree, Db.ParentOk, Db.KidsOk, Db.WaiterAt, Db.OnePlace;
    var e := Drop(d, t);
    SameQueues(d, e);
    forall u ensures e.RefsOk(u) && e.LifeOk(u) { At(d, u); }
    At(d, t);
    Whole(e);
  }

  lemma GiveUpOwnKeeps(d: Db, t: nat)
    requires d.Inv() && t in d.own && t in d.thr && d.thr[t].life == Exit && d.thr[t].parent != t
    ensures GiveUpOwn(d, t).Inv()
  {
    hide Db.Inv, Db.Namers, Db.Queued, Db.InTree, Db.ParentOk, Db.KidsOk, Db.WaiterAt, Db.OnePlace;
    var e := GiveUpOwn(d, t);
    SameQueues(d, e);
    forall u ensures e.RefsOk(u) && e.LifeOk(u) { At(d, u); }
    At(d, t);
    Whole(e);
  }

  // ---- Entering and leaving the queue of a parent ----

  ghost predicate CanLink(d: Db, c: nat, p: nat) {
    && c in d.thr && p in d.thr && c != p && d.thr[c].parent == NULL && d.thr[c].life == Live && d.thr[p].life == Live
  }

  lemma LinkSets(d: Db, c: nat, p: nat)
    requires d.Inv() && CanLink(d, c, p)
    ensures var e := Link(d, c, p);
            && e.Namers(p) == d.Namers(p) + {c} && c !in d.Namers(p)
            && (forall t | t != p && t != NULL :: e.Namers(t) == d.Namers(t))
            && e.Queued(c) && !d.Queued(c) && (forall t | t != c :: e.Queued(t) <==> d.Queued(t))
            && (forall t :: e.InTree(t) <==> d.InTree(t))
  {
    At(d, NULL);
    At(d, p);
    hide Db.Inv, Db.RefsOk;
    var e := Link(d, c, p);
    assert e.thr[p].children[|d.thr[p].children|] == c;
    forall t | t != c ensures e.Queued(t) <==> d.Queued(t) {}
  }

  lemma LinkKeeps(d: Db, c: nat, p: nat)
    requires d.Inv() && CanLink(d, c, p)
    ensures Link(d, c, p).Inv()
  {
    var e := Link(d, c, p);
    LinkSets(d, c, p);
    At(d, c);
    At(d, p);
    LinkShape(d, c, p);
    hide Db.Inv, Db.Namers, Db.Queued, Db.InTree, Db.KidsOk, Db.WaiterAt, Db.OnePlace, Db.ParentOk;
    forall u ensures e.RefsOk(u) && e.LifeOk(u) { At(d, u); }
    hide Db.RefsOk, Db.LifeOk;
    LinkTree(d, c, p);
    Whole(e);
  }

  lemma LinkTree(d: Db, c: nat, p: nat)
    requires d.Inv() && CanLink(d, c, p)
    ensures Link(d, c, p).TreeOk()
  {
    At(d, c);
    hide Db.Inv;
  }

  lemma LinkShape(d: Db, c: nat, p: nat)
    requires d.Inv() && CanLink(d, c, p)
    ensures Link(d, c, p).AllParents() && Link(d, c, p).AllKids() && Link(d, c, p).AllWaiters()
  {
    var e := Link(d, c, p);
    forall q, i ensures e.WaiterAt(q, i) { assert d.WaiterAt(q, i); }
    forall q, i, r, j ensures e.OnePlace(q, i, r, j) { assert d.OnePlace(q, i, r, j); }
    hide Db.Inv, Db.RefsOk, Db.WaiterAt, Db.OnePlace, Db.Queued, Db.Namers, Db.InTree;
    forall t ensures e.KidsOk(t) { LinkKids(d, c, p, t); }
    forall t ensures e.ParentOk(t) { LinkParent(d, c, p, t); }
  }

  lemma LinkKids(d: Db, c: nat, p: nat, t: nat)
    requires d.Inv() && CanLink(d, c, p)
    ensures Link(d, c, p).KidsOk(t)
  {
    var e := Link(d, c, p);
    At(d, t);
    At(d, c);
    At(d, p);
    NotAChild(d, c, p);
    hide Db.Inv, Db.RefsOk, Db.Queued, Db.Namers, Db.InTree, Db.ParentOk;
    if t in d.thr {
      assert c !in d.thr[t].children by { At(d, NULL); }
    }
  }

  lemma LinkParent(d: Db, c: nat, p: nat, t: nat)
    requires d.Inv() && CanLink(d, c, p)
    ensures Link(d, c, p).ParentOk(t)
  {
    LinkSets(d, c, p);
    At(d, t);
    At(d, c);
    At(d, p);
    hide Db.Inv, Db.RefsOk, Db.Queued, Db.Namers, Db.InTree, Db.KidsOk;
  }

  lemma NotAChild(d: Db, c: nat, p: nat)
    requires d.Inv() && CanLink(d, c, p)
    ensures c !in d.thr[p].children
  {
    At(d, p);
    At(d, NULL);
  }

  ghost predicate CanUnlink(d: Db, c: nat) {
    c in d.thr && d.Queued(c) && d.thr[c].refs > 1 && d.thr[c].parent != c
  }

  lemma UnlinkSets(d: Db, c: nat)
    requires d.Inv() && CanUnlink(d, c)
    ensures var e := Unlink(d, c);
            && (forall t :: e.Namers(t) == d.Namers(t)) && (forall t :: e.InTree(t) <==> d.InTree(t))
            && !e.Queued(c) && (forall t | t != c :: e.Queued(t) <==> d.Queued(t))
  {
    var p := d.thr[c].parent;
    At(d, p);
    WithoutIs(d.thr[p].children, c);
    hide Db.Inv, Db.RefsOk, Without;
    var e := Unlink(d, c);
    forall t | t != c ensures e.Queued(t) <==> d.Queued(t) {}
  }

  lemma UnlinkKeeps(d: Db, c: nat)
    requires d.Inv() && CanUnlink(d, c)
    ensures Unlink(d, c).Inv()
  {
    var e := Unlink(d, c);
    var p := d.thr[c].parent;
    UnlinkSets(d, c);
    At(d, c);
    At(d, p);
    UnlinkShape(d, c);
    hide Db.Inv, Db.Namers, Db.InTree, Db.KidsOk, Db.WaiterAt, Db.OnePlace, Db.ParentOk;
    forall u ensures e.RefsOk(u) && e.LifeOk(u) { At(d, u); }
    Whole(e);
  }

  lemma UnlinkShape(d: Db, c: nat)
    requires d.Inv() && CanUnlink(d, c)
    ensures Unlink(d, c).AllParents() && Unlink(d, c).AllKids() && Unlink(d, c).AllWaiters()
  {
    var e := Unlink(d, c);
    var p := d.thr[c].parent;
    UnlinkSets(d, c);
    At(d, p);
    WithoutIs(d.thr[p].children, c);
    forall q, i ensures e.WaiterAt(q, i) { assert d.WaiterAt(q, i); }
    forall q, i, r, j ensures e.OnePlace(q, i, r, j) { assert d.OnePlace(q, i, r, j); }
    hide Db.Inv, Db.RefsOk, Db.WaiterAt, Db.OnePlace, Db.Queued, Db.Namers, Db.InTree, Without;
    forall t ensures e.KidsOk(t) { UnlinkKids(d, c, t); }
    forall t ensures e.ParentOk(t) { At(d, t); }
  }

  lemma UnlinkKids(d: Db, c: nat, t: nat)
    requires d.Inv() && CanUnlink(d, c)
    ensures Unlink(d, c).KidsOk(t)
  {
    var e := Unlink(d, c);
    var p := d.thr[c].parent;
    At(d, t);
    At(d, p);
    WithoutIs(d.thr[p].children, c);
    hide Db.Inv, Db.RefsOk, Db.Queued, Db.Namers, Without;
    if t == p {
      forall i | 0 <= i < |e.thr[p].children|
        ensures var k := e.thr[p].children[i]; k in e.thr && k != p && e.thr[k].parent == p && e.thr[k].life == Live
      {
        assert e.thr[p].children[i] in d.thr[p].children;
      }
    }
  }

  ghost predicate CanDetach(d: Db, c: nat) {
    && c in d.thr && d.thr[c].life == Live && d.thr[c].parent in d.thr && d.thr[c].parent != c && !d.Queued(c)
    && d.thr[d.thr[c].parent].refs > 1 && (TID_REAPER in d.tree ==> d.tree[TID_REAPER] != c)
  }

  lemma DetachSets(d: Db, c: nat)
    requires d.Inv() && CanDetach(d, c)
    ensures var e := Detach(d, c); var p := d.thr[c].parent;
            && e.Namers(p) == d.Namers(p) - {c} && c in d.Namers(p)
            && (forall t | t != p && t != NULL :: e.Namers(t) == d.Namers(t))
            && (forall t :: e.Queued(t) <==> d.Queued(t)) && (forall t :: e.InTree(t) <==> d.InTree(t))
  {
    At(d, NULL);
    hide Db.Inv, Db.RefsOk;
    var e := Detach(d, c);
    forall t ensures e.Queued(t) <==> d.Queued(t) {}
  }

  lemma DetachKeeps(d: Db, c: nat)
    requires d.Inv() && CanDetach(d, c)
    ensures Detach(d, c).Inv()
  {
    var e := Detach(d, c);
    DetachSets(d, c);
    At(d, c);
    At(d, d.thr[c].parent);
    DetachShape(d, c);
    hide Db.Inv, Db.Namers, Db.Queued, Db.InTree, Db.KidsOk, Db.WaiterAt, Db.OnePlace, Db.ParentOk;
    forall u ensures e.RefsOk(u) && e.LifeOk(u) { At(d, u); }
    Whole(e);
  }

  lemma DetachShape(d: Db, c: nat)
    requires d.Inv() && CanDetach(d, c)
    ensures Detach(d, c).AllParents() && Detach(d, c).AllKids() && Detach(d, c).AllWaiters()
  {
    var e := Detach(d, c);
    forall q, i ensures e.WaiterAt(q, i) { assert d.WaiterAt(q, i); }
    forall q, i, r, j ensures e.OnePlace(q, i, r, j) { assert d.OnePlace(q, i, r, j); }
    hide Db.WaiterAt, Db.OnePlace;
    forall t ensures e.KidsOk(t) { DetachKids(d, c, t); }
    forall t ensures e.ParentOk(t) { DetachParent(d, c, t); }
  }

  lemma DetachKids(d: Db, c: nat, t: nat)
    requires d.Inv() && CanDetach(d, c)
    ensures Detach(d, c).KidsOk(t)
  {
    At(d, t);
    hide Db.Inv, Db.RefsOk, Db.Namers, Db.InTree, Db.ParentOk;
    assert t in d.thr ==> c !in d.thr[t].children;
  }

  lemma DetachParent(d: Db, c: nat, t: nat)
    requires d.Inv() && CanDetach(d, c)
    ensures Detach(d, c).ParentOk(t)
  {
    DetachSets(d, c);
    At(d, t);
    hide Db.Inv, Db.RefsOk, Db.Queued, Db.Namers, Db.InTree, Db.KidsOk;
  }

  // ---- The end of a thread ----

  ghost predicate CanExit(d: Db, t: nat) {
    && t in d.thr && d.thr[t].life == Live && d.thr[t].children == [] && !d.Queued(t)
    && d.thr[t].parent != NULL && d.thr[t].parent != t
  }

  lemma BeginExitKeeps(d: Db, t: nat)
    requires d.Inv() && CanExit(d, t)
    ensures BeginExit(d, t).Inv()
  {
    var e := BeginExit(d, t);
    ExitSets(d, t);
    ExitShape(d, t);
    At(d, t);
    hide Db.Inv, Db.Namers, Db.Queued, Db.InTree, Db.KidsOk, Db.WaiterAt, Db.OnePlace, Db.ParentOk;
    forall u ensures e.RefsOk(u) && e.LifeOk(u) { At(d, u); }
    Whole(e);
  }

  lemma ExitSets(d: Db, t: nat)
    requires d.Inv() && CanExit(d, t)
    ensures var e := BeginExit(d, t);
            && (forall u :: e.Namers(u) == d.Namers(u)) && (forall u :: e.Queued(u) <==> d.Queued(u))
            && (forall u :: e.InTree(u) <==> d.InTree(u))
  {
    var e := BeginExit(d, t);
    hide Db.Inv, Db.RefsOk;
    forall u ensures e.Queued(u) <==> d.Queued(u) {}
  }

  lemma ExitShape(d: Db, t: nat)
    requires d.Inv() && CanExit(d, t)
    ensures BeginExit(d, t).AllParents() && BeginExit(d, t).AllKids() && BeginExit(d, t).AllWaiters()
  {
    var e := BeginExit(d, t);
    forall q, i ensures e.WaiterAt(q, i) { assert d.WaiterAt(q, i); }
    forall q, i, r, j ensures e.OnePlace(q, i, r, j) { assert d.OnePlace(q, i, r, j); }
    hide Db.WaiterAt, Db.OnePlace;
    ExitSets(d, t);
    forall u ensures e.KidsOk(u) { ExitKids(d, t, u); }
    forall u ensures e.ParentOk(u) { ExitParent(d, t, u); }
  }

  lemma ExitKids(d: Db, t: nat, u: nat)
    requires d.Inv() && CanExit(d, t)
    ensures BeginExit(d, t).KidsOk(u)
  {
    At(d, u);
    hide Db.Inv, Db.RefsOk, Db.Namers, Db.InTree, Db.ParentOk;
    assert u in d.thr ==> t !in d.thr[u].children;
  }

  lemma ExitParent(d: Db, t: nat, u: nat)
    requires d.Inv() && CanExit(d, t)
    ensures BeginExit(d, t).ParentOk(u)
  {
    ExitSets(d, t);
    At(d, u);
    hide Db.Inv, Db.RefsOk, Db.Queued, Db.Namers, Db.InTree, Db.KidsOk;
  }

  ghost predicate CanDie(d: Db, t: nat) {
    t in d.thr && d.thr[t].refs == 1 && d.Held(t) > 0
  }

  /** Where the last reference is one that code holds, the thread has exited and has a parent to
      tell. */
  lemma LastHolder(d: Db, t: nat)
    requires d.Inv() && CanDie(d, t)
    ensures t !in d.own && !d.Queued(t) && d.Namers(t) == {} && d.Held(t) == 1 && d.thr[t].life == Exit && d.InTree(t)
    ensures d.thr[t].parent in d.thr && d.thr[t].parent != t && d.thr[d.thr[t].parent].life != Dead
    ensures d.thr[t].id != TID_REAPER
  {
    At(d, t);
    hide Db.Inv, Db.KidsOk;
  }

  lemma LastSets(d: Db, t: nat)
    requires d.Inv() && CanDie(d, t) && d.thr[t].parent in d.thr && d.thr[t].parent != t
    ensures var e := Last(d, t); var p := d.thr[t].parent;
            && e.Namers(p) == d.Namers(p) - {t} && t in d.Namers(p)
            && (forall u | u != p :: e.Namers(u) == d.Namers(u))
            && (forall u :: e.Queued(u) <==> d.Queued(u))
            && !e.InTree(t) && (forall u | u != t :: e.InTree(u) <==> d.InTree(u))
  {
    LastHolder(d, t);
    TreeIds(d);
    var e := Last(d, t);
    hide Db.Inv, Db.RefsOk;
    forall u ensures e.Queued(u) <==> d.Queued(u) {}
  }

  lemma TreeIds(d: Db)
    requires d.Inv()
    ensures forall i | i in d.tree :: d.tree[i] in d.thr && d.thr[d.tree[i]].id == i
  {
  }

  lemma LastKeeps(d: Db, t: nat)
    requires d.Inv() && CanDie(d, t)
    ensures d.thr[t].parent in d.thr && d.thr[t].parent != t && Last(d, t).Inv()
    ensures Last(d, t).thr[d.thr[t].parent].refs > 0 && Last(d, t).Held(d.thr[t].parent) > 0
  {
    LastHolder(d, t);
    var e := Last(d, t);
    var p := d.thr[t].parent;
    LastSets(d, t);
    At(d, t);
    At(d, p);
    LastShape(d, t);
    LastTree(d, t);
    hide Db.Inv, Db.Namers, Db.Queued, Db.InTree, Db.KidsOk, Db.WaiterAt, Db.OnePlace, Db.ParentOk, Db.TreeOk;
    forall u ensures e.RefsOk(u) && e.LifeOk(u) { At(d, u); }
    Whole(e);
  }

  lemma LastTree(d: Db, t: nat)
    requires d.Inv() && CanDie(d, t) && d.thr[t].parent in d.thr && d.thr[t].parent != t
    ensures Last(d, t).TreeOk()
  {
    LastHolder(d, t);
    At(d, t);
    hide Db.Inv, Db.RefsOk, Db.Namers, Db.Queued, Db.KidsOk;
  }

  lemma LastShape(d: Db, t: nat)
    requires d.Inv() && CanDie(d, t) && d.thr[t].parent in d.thr && d.thr[t].parent != t
    ensures Last(d, t).AllParents() && Last(d, t).AllKids() && Last(d, t).AllWaiters()
  {
    var e := Last(d, t);
    LastHolder(d, t);
    forall q, i ensures e.WaiterAt(q, i) { LastWaiter(d, t, q, i); }
    forall q, i, r, j ensures e.OnePlace(q, i, r, j) { LastPlace(d, t, q, i, r, j); }
    hide Db.WaiterAt, Db.OnePlace;
    forall u ensures e.KidsOk(u) { LastKids(d, t, u); }
    forall u ensures e.ParentOk(u) { LastParent(d, t, u); }
  }

  lemma LastWaiter(d: Db, t: nat, q: nat, i: nat)
    requires d.Inv() && CanDie(d, t) && d.thr[t].parent in d.thr && d.thr[t].parent != t
    ensures Last(d, t).WaiterAt(q, i)
  {
    assert d.WaiterAt(q, i);
    hide Db.Inv, Db.Held;
  }

  /** A thread that was not dead waited nowhere. */
  lemma LastPlace(d: Db, t: nat, q: nat, i: nat, r: nat, j: nat)
    requires d.Inv() && CanDie(d, t) && d.thr[t].parent in d.thr && d.thr[t].parent != t
    ensures Last(d, t).OnePlace(q, i, r, j)
  {
    LastHolder(d, t);
    assert d.OnePlace(q, i, r, j) && d.WaiterAt(q, i) && d.WaiterAt(r, j);
    hide Db.Inv, Db.Held, Db.Queued, Db.Namers;
  }

  lemma LastKids(d: Db, t: nat, u: nat)
    requires d.Inv() && CanDie(d, t) && d.thr[t].parent in d.thr && d.thr[t].parent != t
    ensures Last(d, t).KidsOk(u)
  {
    LastHolder(d, t);
    At(d, u);
    hide Db.Inv, Db.RefsOk, Db.Held, Db.Queued, Db.Namers, Db.InTree, Db.ParentOk;
  }

  lemma LastParent(d: Db, t: nat, u: nat)
    requires d.Inv() && CanDie(d, t) && d.thr[t].parent in d.thr && d.thr[t].parent != t
    ensures Last(d, t).ParentOk(u)
  {
    LastHolder(d, t);
    LastSets(d, t);
    At(d, u);
    NoNamer(d, t, u);
    hide Db.Inv, Db.RefsOk, Db.Held, Db.Queued, Db.Namers, Db.InTree, Db.KidsOk;
  }

  lemma NoNamer(d: Db, t: nat, u: nat)
    requires d.Inv() && t in d.thr && d.Namers(t) == {} && d.thr[t].parent != t
    ensures u in d.thr && d.thr[u].life != Dead ==> d.thr[u].parent != t
  {
    assert u in d.thr && d.thr[u].life != Dead && d.thr[u].parent == t && u != t ==> u in d.Namers(t);
  }

  // ---- Collecting a dead thread ----

  ghost predicate CanFree(d: Db, p: nat) {
    p in d.thr && |d.thr[p].waiters| > 0 && d.thr[p].waiters[0] != p
  }

  lemma FirstWaiter(d: Db, p: nat)
    requires d.Inv() && CanFree(d, p)
    ensures var w := d.thr[p].waiters[0];
            && w in d.thr && d.thr[w].life == Dead && w !in d.own && d.Held(w) == 0
            && (forall t | t in d.thr :: w !in d.thr[t].children) && d.Namers(w) == {}
            && (forall i | i in d.tree :: d.tree[i] != w)
            && (forall t | t in d.thr && d.thr[t].life != Dead :: d.thr[t].parent != w)
  {
    assert d.WaiterAt(p, 0);
    var w := d.thr[p].waiters[0];
    DeadIsUnreferenced(d, w);
    TreeIds(d);
    At(d, w);
    hide Db.Inv;
    forall t | t in d.thr && d.thr[t].life != Dead ensures d.thr[t].parent != w {
      At(d, t);
    }
  }

  lemma FreeSets(d: Db, p: nat)
    requires d.Inv() && CanFree(d, p)
    ensures var e := Free(d, p); var w := d.thr[p].waiters[0];
            && (forall t | t != w :: e.Namers(t) == d.Namers(t)) && (forall t | t != w :: e.Queued(t) <==> d.Queued(t))
            && (forall t | t != w :: e.InTree(t) <==> d.InTree(t))
  {
    FirstWaiter(d, p);
    hide Db.Inv;
    var e, w := Free(d, p), d.thr[p].waiters[0];
    forall t | t != w ensures e.Queued(t) <==> d.Queued(t) { QueuedBy(d, t, w); }
  }

  lemma QueuedBy(d: Db, t: nat, w: nat)
    requires d.Inv() && w in d.thr && d.thr[w].life == Dead
    ensures d.Queued(t) ==> d.thr[t].parent != w
  {
    if d.Queued(t) {
      var p := d.thr[t].parent;
      var i :| 0 <= i < |d.thr[p].children| && d.thr[p].children[i] == t;
      At(d, p);
      At(d, t);
    }
  }

  lemma FreeKeeps(d: Db, p: nat)
    requires d.Inv() && CanFree(d, p)
    ensures Free(d, p).Inv()
  {
    var e := Free(d, p);
    FirstWaiter(d, p);
    FreeSets(d, p);
    FreeShape(d, p);
    At(d, p);
    hide Db.Inv, Db.Namers, Db.Queued, Db.InTree, Db.KidsOk, Db.WaiterAt, Db.OnePlace, Db.ParentOk;
    forall u ensures e.RefsOk(u) && e.LifeOk(u) { At(d, u); }
    Whole(e);
  }

  lemma FreeShape(d: Db, p: nat)
    requires d.Inv() && CanFree(d, p)
    ensures Free(d, p).AllParents() && Free(d, p).AllKids() && Free(d, p).AllWaiters()
  {
    var e := Free(d, p);
    FirstWaiter(d, p);
    forall q, i ensures e.WaiterAt(q, i) { FreeWaiter(d, p, q, i); }
    forall q, i, r, j ensures e.OnePlace(q, i, r, j) { FreePlace(d, p, q, i, r, j); }
    hide Db.WaiterAt, Db.OnePlace;
    forall u ensures e.KidsOk(u) { FreeKids(d, p, u); }
    forall u ensures e.ParentOk(u) { FreeParent(d, p, u); }
  }

  lemma FreeWaiter(d: Db, p: nat, q: nat, i: nat)
    requires d.Inv() && CanFree(d, p)
    ensures Free(d, p).WaiterAt(q, i)
  {
    var k := if q == p then i + 1 else i;
    assert d.WaiterAt(q, k) && d.OnePlace(q, k, p, 0);
    hide Db.Inv;
  }

  lemma FreePlace(d: Db, p: nat, q: nat, i: nat, r: nat, j: nat)
    requires d.Inv() && CanFree(d, p)
    ensures Free(d, p).OnePlace(q, i, r, j)
  {
    assert d.OnePlace(q, if q == p then i + 1 else i, r, if r == p then j + 1 else j);
    hide Db.Inv;
  }

  lemma FreeKids(d: Db, p: nat, u: nat)
    requires d.Inv() && CanFree(d, p)
    ensures Free(d, p).KidsOk(u)
  {
    FirstWaiter(d, p);
    At(d, u);
    hide Db.Inv, Db.RefsOk, Db.Held, Db.Queued, Db.Namers, Db.InTree, Db.ParentOk;
    var w := d.thr[p].waiters[0];
    assert u in d.thr ==> forall i | 0 <= i < |d.thr[u].children| :: d.thr[u].children[i] != w;
  }

  lemma FreeParent(d: Db, p: nat, u: nat)
    requires d.Inv() && CanFree(d, p)
    ensures Free(d, p).ParentOk(u)
  {
    FirstWaiter(d, p);
    FreeSets(d, p);
    At(d, u);
    hide Db.Inv, Db.RefsOk, Db.Held, Db.Queued, Db.Namers, Db.InTree, Db.KidsOk;
  }

  // ---- A new thread ----

  lemma NobodyNames(d: Db, a: nat)
    requires d.Inv() && a != NULL && a !in d.thr
    ensures forall t | t in d.thr && d.thr[t].life != Dead :: d.thr[t].parent != a
  {
    forall t | t in d.thr && d.thr[t].life != Dead ensures d.thr[t].parent != a { At(d, t); }
  }

  lemma NewSets(d: Db, a: nat, id: nat, auto: bool)
    requires d.Inv() && a != NULL && a !in d.thr && id !in d.tree
    ensures var e := New(d, a, id, auto);
            && e.Namers(a) == {} && (forall t | t != a && t != NULL :: e.Namers(t) == d.Namers(t))
            && !e.Queued(a) && (forall t | t != a :: e.Queued(t) <==> d.Queued(t))
            && e.InTree(a) && (forall t | t != a :: e.InTree(t) <==> d.InTree(t))
  {
    NobodyNames(d, a);
    At(d, NULL);
    TreeIds(d);
    hide Db.RefsOk;
    var e := New(d, a, id, auto);
    forall t | t != a ensures e.Queued(t) <==> d.Queued(t) {}
    hide Db.Inv;
  }

  lemma NewKeeps(d: Db, a: nat, id: nat, auto: bool)
    requires d.Inv() && a != NULL && a !in d.thr && id !in d.tree
    ensures New(d, a, id, auto).Inv()
  {
    var e := New(d, a, id, auto);
    NewSets(d, a, id, auto);
    NewShape(d, a, id, auto);
    At(d, NULL);
    hide Db.Namers, Db.Queued, Db.InTree, Db.KidsOk, Db.WaiterAt, Db.OnePlace, Db.ParentOk;
    forall u ensures e.RefsOk(u) && e.LifeOk(u) { At(d, u); }
    assert d.Held(a) == 0;
    hide Db.Inv;
    Whole(e);
  }

  lemma NewShape(d: Db, a: nat, id: nat, auto: bool)
    requires d.Inv() && a != NULL && a !in d.thr && id !in d.tree
    ensures New(d, a, id, auto).AllParents() && New(d, a, id, auto).AllKids() && New(d, a, id, auto).AllWaiters()
  {
    var e := New(d, a, id, auto);
    forall q, i ensures e.WaiterAt(q, i) { assert d.WaiterAt(q, i); }
    forall q, i, r, j ensures e.OnePlace(q, i, r, j) {
      assert d.OnePlace(q, i, r, j) && d.WaiterAt(q, i) && d.WaiterAt(r, j);
    }
    hide Db.WaiterAt, Db.OnePlace;
    NewSets(d, a, id, auto);
    forall u ensures e.KidsOk(u) { At(d, u); }
    hide Db.KidsOk;
    forall u ensures e.ParentOk(u) { At(d, u); }
  }
}
