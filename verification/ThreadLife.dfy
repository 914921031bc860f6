/** Threads from creation to collection, changed in place. */
module ThreadLife {
  import opened Queues
  import opened Threads
  import opened ThreadRuns

  /** Stopped stands for the kernel stopping itself. */
  datatype Created = NoId | Stopped | NewThread(t: nat)
  datatype Collected = Blocked | Child(id: nat)

  function FirstIds(n: nat): (ids: set<nat>)
    ensures forall i :: i in ids <==> 0 <= i < n
  {
    if n == 0 then {} else FirstIds(n - 1) + {n - 1}
  }

  class ThreadDb {
    var thr: map<nat, Thread>
    var tree: map<nat, nat>
    var idmap: set<nat>
    const tidMax: nat
    ghost var own: set<nat>
    ghost var holds: multiset<nat>

    ghost function State(): Db
      reads this
    {
      Db(thr, tree, idmap, own, holds)
    }

    ghost predicate Valid()
      reads this
    {
      State().Inv()
    }

    /** `thr_init` and `thr_system_thread_create`: the reaper, at address a, is its own parent. */
    constructor (a: nat, max: nat)
      requires a != NULL && max >= TID_RSV
      ensures Valid() && State() == Start(a, FirstIds(TID_RSV)) && tidMax == max && NoneStranded(State())
      ensures thr == map[a := Thread(TID_REAPER, 1, Live, a, [], [])] && tree == map[TID_REAPER := a]
      ensures own == {a} && holds == multiset{} && forall i :: i in idmap <==> 0 <= i < TID_RSV
    {
      thr := map[a := Thread(TID_REAPER, 1, Live, a, [], [])];
      tree := map[TID_REAPER := a];
      idmap := FirstIds(TID_RSV);
      tidMax := max;
      own := {a};
      holds := multiset{};
      new;
      StartInv(a, FirstIds(TID_RSV));
    }

    /** `thr_ref_inc` */
    method RefInc(t: nat) returns (ok: bool)
      requires Valid() && t in thr
      modifies this`thr, this`holds
      ensures Valid() && (ok <==> old(thr[t].refs) > 0)
      ensures State() == if ok then Hold(old(State()), t) else old(State())
      ensures thr == (if ok then old(thr)[t := old(thr[t]).(refs := old(thr[t].refs) + 1)] else old(thr))
      ensures holds == if ok then old(holds) + multiset{t} else old(holds)
    {
      hide Db.Inv;
      if thr[t].refs == 0 { return false; }
      HoldKeeps(State(), t);
      thr := thr[t := thr[t].(refs := thr[t].refs + 1)];
      holds := holds + multiset{t};
      return true;
    }

    /** `thr_ref_dec`: the last reference takes t out of the tree and tells its parent, and so on
        upwards. */
    method RefDec(t: nat) returns (last: bool)
      requires Valid() && t in thr && holds[t] > 0
      modifies this`thr, this`tree, this`idmap, this`holds
      ensures last <==> old(thr[t].refs) == 1
      ensures Valid() && State() == Release(old(State()), t) && GivenBack(old(State()), State(), t)
      decreases |tree|
    {
      hide Db.Inv, GivenBack;
      ghost var d := State();
      HeldHasRefs(d, t);
      ReleaseGivesBack(d, t);
      if thr[t].refs > 1 {
        DropKeeps(d, t);
        thr := thr[t := thr[t].(refs := thr[t].refs - 1)];
        holds := holds - multiset{t};
        return false;
      }
      HasRefs(d, t);
      LastHolder(d, t);
      LastKeeps(d, t);
      TreeShrinks(d, t);
      tree := tree - {thr[t].id};
      idmap := idmap - {thr[t].id};
      NotifyParent(t);
      assert State() == Last(d, t);
      hide Last;
      var upper := RefDec(thr[t].parent);
      return true;
    }

    /** `notify_parent_child_exit`, up to the waking of the parent. */
    method NotifyParent(t: nat)
      requires t in thr && thr[t].parent in thr && thr[t].parent != t && holds[t] > 0
      modifies this`thr, this`holds
      ensures thr == old(thr)[t := old(thr[t]).(refs := 0, life := Dead)]
                            [old(thr[t].parent) := old(thr[thr[t].parent]).(
                              waiters := old(thr[thr[t].parent].waiters) + [t])]
      ensures holds == old(holds) - multiset{t} + multiset{old(thr[t].parent)}
    {
      var p := thr[t].parent;
      thr := thr[p := thr[p].(waiters := thr[p].waiters + [t])];
      thr := thr[t := thr[t].(refs := 0, life := Dead)];
      holds := holds - multiset{t} + multiset{p};
    }

    // ---- Parents and children ----

    /** `add_child_thread_nolock` */
    method AddChild(c: nat, p: nat)
      requires Valid() && CanLink(State(), c, p)
      modifies this`thr, this`holds
      ensures State() == Link(old(State()), c, p) && Valid()
      ensures thr == old(thr)[c := old(thr[c]).(refs := old(thr[c].refs) + 1, parent := p)]
                             [p := old(thr[p]).(refs := old(thr[p].refs) + 1, children := old(thr[p].children) + [c])]
      ensures holds == old(holds)
    {
      hide Db.Inv;
      ghost var d := State();
      CanLinkRefs(d, c, p);
      var res := RefInc(p);
      res := RefInc(c);
      LinkKeeps(State(), c, p);
      Enqueue(c, p);
      LinkCancels(d, c, p);
      RefDecKept(c);
      RefDecKept(p);
      LinkKeeps(d, c, p);
      assert State() == Link(d, c, p);
    }

    method Enqueue(c: nat, p: nat)
      requires c in thr && p in thr && c != p
      modifies this`thr
      ensures State() == Link(old(State()), c, p)
    {
      thr := thr[p := thr[p].(children := thr[p].children + [c])];
      thr := thr[c := thr[c].(refs := thr[c].refs + 1)];
      thr := thr[c := thr[c].(parent := p)];
      thr := thr[p := thr[p].(refs := thr[p].refs + 1)];
    }

    /** `thr_ref_dec` where it is known that other references are left. */
    method RefDecKept(t: nat)
      requires Valid() && t in thr && holds[t] > 0 && thr[t].refs > 1
      modifies this`thr, this`holds
      ensures State() == Drop(old(State()), t) && Valid()
      ensures thr == old(thr)[t := old(thr[t]).(refs := old(thr[t].refs) - 1)] && holds == old(holds) - multiset{t}
    {
      hide Db.Inv;
      DropKeeps(State(), t);
      thr := thr[t := thr[t].(refs := thr[t].refs - 1)];
      holds := holds - multiset{t};
    }

    /** `del_child_thread_nolock` */
    method DelChild(c: nat, p: nat)
      requires Valid() && CanUnlink(State(), c) && thr[c].parent == p
      modifies this`thr, this`holds
      ensures State() == Unlink(old(State()), c) && Valid()
      ensures p in old(thr) && p in thr && LeftOut(old(thr[p].children), thr[p].children, c)
      ensures thr == old(thr)[c := old(thr[c]).(refs := old(thr[c].refs) - 1)]
                             [p := old(thr[p]).(children := thr[p].children)]
      ensures holds == old(holds)
    {
      hide Db.Inv, Db.Queued;
      ChildGone(State(), c);
      ghost var d := State();
      UnlinkRefs(d, c);
      var res := RefInc(p);
      var childRes := RefInc(c);
      HeldUnlink(d, c);
      UnlinkKeeps(State(), c);
      UnlinkCancels(d, c);
      Dequeue(c, p);
      if childRes { RefDecKept(c); }
      RefDecKept(p);
      UnlinkKeeps(d, c);
    }

    method Dequeue(c: nat, p: nat)
      requires c in thr && p in thr && c != p && thr[c].parent == p && thr[c].refs > 0
      modifies this`thr
      ensures State() == Unlink(old(State()), c)
    {
      thr := thr[p := thr[p].(children := Without(thr[p].children, c))];
      thr := thr[c := thr[c].(refs := thr[c].refs - 1)];
    }

    /** The child c of p becomes a child of r. */
    method AdoptChild(c: nat, p: nat, r: nat)
      requires Valid() && CanAdopt(State(), c, p, r)
      modifies this`thr, this`holds
      ensures Valid() && Adopted(old(State()), State(), c, p, r)
    {
      hide Db.Inv, Link, Unlink, Detach, CanUnlink, CanDetach, CanLink, Adopted;
      ghost var d := State();
      AdoptSteps(d, c, p, r);
      var res := RefInc(c);
      DelChild(c, p);
      DetachKeeps(State(), c);
      DropParent(c);
      AddChild(c, r);
      RefDecKept(c);
    }

    /** The reference that c has to its parent is given back; it is not the last one. */
    method DropParent(c: nat)
      requires c in thr && thr[c].parent in thr && thr[c].parent != c && thr[thr[c].parent].refs > 0
      modifies this`thr
      ensures State() == Detach(old(State()), c)
      ensures var p := old(thr[c].parent);
              thr == old(thr)[p := old(thr[p]).(refs := old(thr[p].refs) - 1)][c := old(thr[c]).(parent := NULL)]
    {
      var p := thr[c].parent;
      thr := thr[p := thr[p].(refs := thr[p].refs - 1)];
      thr := thr[c := thr[c].(parent := NULL)];
    }

    /** `handle_orphan_thread` */
    method HandleOrphans(p: nat)
      requires Valid() && CanGiveAway(State(), p)
      modifies this`thr, this`holds
      ensures Valid() && tree == old(tree) && idmap == old(idmap) && own == old(own) && holds == old(holds)
      ensures GivenAway(old(State()), State(), p, |old(thr[p].children)|)
    {
      hide Db.Inv, Adopted;
      ghost var d := State();
      var r := tree[TID_REAPER];
      var kids := thr[p].children;
      AwayStart(d, p);
      for i := 0 to |kids|
        invariant Valid() && tree == d.tree && idmap == d.idmap && own == d.own && holds == d.holds
        invariant GivenAway(d, State(), p, i) && CanGiveAway(State(), p) && tree[TID_REAPER] == r
      {
        CanAdoptNext(d, State(), p, i);
        ghost var e := State();
        AdoptChild(kids[i], p, r);
        AwayNext(d, e, State(), p, i);
      }
    }

    // ---- From creation to collection ----

    /** `alloc_new_tid_nolock`: the least free identifier. */
    method AllocId() returns (found: bool, id: nat)
      modifies this`idmap
      ensures found <==> exists i: nat :: i < tidMax && i !in old(idmap)
      ensures found ==> id < tidMax && id !in old(idmap) && idmap == old(idmap) + {id}
      ensures found ==> forall i: nat | i < id :: i in old(idmap)
      ensures !found ==> idmap == old(idmap)
    {
      id := 0;
      while id < tidMax && id in idmap
        invariant id <= tidMax && forall i: nat | i < id :: i in idmap
      {
        id := id + 1;
      }
      found := id < tidMax;
      if found { idmap := idmap + {id}; }
    }

    /** `create_thread_common`, with the address a that the slab cache gives. */
    method CreateCommon(a: nat, id: nat) returns (r: Created)
      requires Valid() && a != NULL && a !in thr
      modifies this`thr, this`tree, this`idmap, this`own
      ensures Valid()
      ensures r == NoId <==> id >= TID_RSV && forall i: nat | i < tidMax :: i in old(idmap)
      ensures r == NoId ==> State() == old(State())
      ensures r == Stopped <==> Clashes(old(State()), tidMax, id)
      ensures r == Stopped ==> thr == old(thr) && tree == old(tree) && own == old(own)
      ensures r.NewThread? ==> r.t == a && a in thr && var i := thr[a].id;
              && (if id < TID_RSV then i == id else LeastFree(old(idmap), tidMax, i))
              && i !in old(tree) && State() == New(old(State()), a, i, id >= TID_RSV)
              && thr == old(thr)[a := Thread(i, 1, Live, NULL, [], [])]
              && tree == old(tree)[i := a] && own == old(own) + {a}
              && idmap == if id < TID_RSV then old(idmap) else old(idmap) + {i}
    {
      hide Db.Inv;
      ghost var d := State();
      var newId := id;
      if id >= TID_RSV {
        var found;
        found, newId := AllocId();
        if !found { return NoId; }
        OneLeast(d.idmap, tidMax, newId);
      }
      if newId in tree {
        SameInv(d, State());
        return Stopped;
      }
      NewKeeps(d, a, newId, id >= TID_RSV);
      thr := thr[a := Thread(newId, 1, Live, NULL, [], [])];
      tree := tree[newId := a];
      own := own + {a};
      assert State() == New(d, a, newId, id >= TID_RSV);
      return NewThread(a);
    }

    /** `thr_thread_create`: a child of cur. */
    method Create(cur: nat, a: nat, id: nat) returns (r: Created)
      requires Valid() && cur in thr && thr[cur].life == Live && a != NULL && a !in thr
      modifies this`thr, this`tree, this`idmap, this`own, this`holds
      ensures Valid()
      ensures r == NoId <==> id >= TID_RSV && forall i: nat | i < tidMax :: i in old(idmap)
      ensures r == NoId ==> State() == old(State())
      ensures r == Stopped <==> Clashes(old(State()), tidMax, id)
      ensures r == Stopped ==> thr == old(thr) && tree == old(tree) && own == old(own)
      ensures r.NewThread? ==> r.t == a && a in thr && var i := thr[a].id;
              && (if id < TID_RSV then i == id else LeastFree(old(idmap), tidMax, i))
              && i !in old(tree) && var n := New(old(State()), a, i, id >= TID_RSV);
                 CanLink(n, a, cur) && State() == Link(n, a, cur)
      ensures r.NewThread? ==> a in thr && var i := thr[a].id;
              && thr == old(thr)[a := Thread(i, 2, Live, cur, [], [])]
                                [cur := old(thr[cur]).(refs := old(thr[cur].refs) + 1,
                                                       children := old(thr[cur].children) + [a])]
              && tree == old(tree)[i := a] && own == old(own) + {a} && holds == old(holds)
              && idmap == if id < TID_RSV then old(idmap) else old(idmap) + {i}
    {
      hide Db.Inv, Link, CanLink, New, Hold, Drop, Clashes, LeastFree;
      ghost var d := State();
      r := CreateCommon(a, id);
      if !r.NewThread? { return; }
      var i := thr[a].id;
      NewLinks(d, a, i, id >= TID_RSV, cur);
      NewChild(d, a, i, id >= TID_RSV, cur);
      ghost var e := State();
      var res := RefInc(cur);
      AddChild(a, cur);
      LinkHolds(e, a, cur);
      RefDecKept(cur);
      LinkId(e, a, cur);
    }

    /** `thr_thread_exit`: the children go to the reaper, and the thread gives up its place in the
        queue of its parent and the reference it was created with. Dead children that wait with it
        stay there. */
    method ExitThread(cur: nat)
      requires Valid() && cur in own && cur in thr && thr[cur].life == Live && State().Queued(cur)
      modifies this`thr, this`tree, this`idmap, this`own, this`holds
      ensures Valid() && Exited(old(State()), State(), cur)
      ensures thr[cur].life != Live && thr[cur].children == [] && !State().Queued(cur)
      ensures thr[cur].life == Dead <==> State().Namers(cur) == {} && holds[cur] == 0
      ensures TID_REAPER in tree && tree[TID_REAPER] == old(tree[TID_REAPER])
      ensures forall c | c in old(thr[cur].children) ::
                c in thr && thr[c].parent == tree[TID_REAPER] && c in thr[tree[TID_REAPER]].children
      ensures forall x :: Stranded(State(), x) <==> Stranded(old(State()), x) || x in old(thr[cur].waiters)
      ensures NoneStranded(old(State())) ==> (NoneStranded(State()) <==> old(thr[cur].waiters) == [])
    {
      hide Db.Inv, GivenAway, GivenBack, Retired, Exited, Stranded, Db.Queued, Db.Namers, GiveUpOwn;
      ghost var d := State();
      ExitFacts(d, cur);
      var res := RefInc(cur);
      Retire(cur);
      ghost var e := State();
      GivenUp(d, e, cur);
      RefDecKept(cur);
      LastReference(cur);
      ghost var g := State();
      AfterExit(d, e, cur);
      KidsWithReaper(d, e, g, cur);
      ExitedFacts(d, g, cur);
      forall x ensures Stranded(g, x) <==> Stranded(d, x) || x in d.thr[cur].waiters { ExitedStrands(d, g, cur, x); }
      if NoneStranded(d) { ExitKeepsIff(d, g, cur); }
    }

    /** The reference that cur was created with is given back. */
    method LastReference(cur: nat)
      requires Valid() && cur in own && cur in thr && thr[cur].life == Exit && thr[cur].parent != cur
      modifies this`thr, this`tree, this`idmap, this`own, this`holds
      ensures Valid() && GiveUpOwn(old(State()), cur).Inv() && GiveUpOwn(old(State()), cur).Held(cur) > 0
      ensures State() == Release(GiveUpOwn(old(State()), cur), cur)
    {
      hide Db.Inv, GivenBack;
      GiveUpOwnKeeps(State(), cur);
      own := own - {cur};
      holds := holds + multiset{cur};
      var last := RefDec(cur);
    }

    /** The locked part of `thr_thread_exit`. */
    method Retire(cur: nat)
      requires Valid() && cur in own && cur in thr && thr[cur].life == Live && State().Queued(cur) && holds[cur] > 0
      modifies this`thr, this`holds
      ensures Valid() && Retired(old(State()), State(), cur)
    {
      hide Db.Inv, GivenAway, CanUnlink, CanExit, Db.Queued, Retired;
      ghost var d := State();
      GiveAwayFacts(d, cur);
      HandleOrphans(cur);
      ghost var g := State();
      StillQueued(d, g, cur);
      DelChild(cur, thr[cur].parent);
      LeftQueue(d, g, cur);
      BeginExitKeeps(State(), cur);
      thr := thr[cur := thr[cur].(life := Exit)];
      assert State() == BeginExit(Unlink(g, cur), cur);
      NowRetired(d, g, cur);
    }

    /** `thr_thread_wait`: the first dead child is collected; with none the caller sleeps. */
    method Wait(cur: nat) returns (r: Collected)
      requires Valid() && cur in thr && thr[cur].life != Dead
      modifies this`thr, this`holds
      ensures Valid()
      ensures r == Blocked <==> old(thr[cur].waiters) == []
      ensures r == Blocked ==> State() == old(State())
      ensures r != Blocked ==> var w := old(thr[cur].waiters[0]);
              && w in old(thr) && r == Child(old(thr[w].id)) && w !in thr && State() == Free(old(State()), cur)
              && old(thr[w].life) == Dead && old(thr[w].refs) == 0 && !old(State().InTree(w))
              && thr == old(thr)[cur := old(thr[cur]).(waiters := old(thr[cur].waiters)[1..])] - {w}
              && holds == old(holds)
      ensures r != Blocked && old(thr[cur].life) == Live ==> forall x ::
                Nowhere(State(), x) <==> Nowhere(old(State()), x) || x in old(thr[thr[cur].waiters[0]].waiters)
      ensures old(thr[cur].life) == Live ==> forall x :: Stranded(State(), x) <==> Stranded(old(State()), x)
    {
      hide Db.Inv, Free, CanFree, Hold, Drop, Db.InTree, Stranded, Nowhere;
      ghost var d := State();
      HoldDrop(d, cur);
      var res := RefInc(cur);
      if thr[cur].waiters == [] {
        RefDecKept(cur);
        return Blocked;
      }
      CanCollect(d, cur);
      var w := thr[cur].waiters[0];
      var id := thr[w].id;
      RefDecKept(cur);
      FreeKeeps(d, cur);
      FreeThread(cur, w);
      if d.thr[cur].life == Live {
        forall x ensures Stranded(State(), x) <==> Stranded(d, x) { FreeStrands(d, cur, x); }
        forall x ensures Nowhere(State(), x) <==> Nowhere(d, x) || x in d.thr[w].waiters { FreeStrands(d, cur, x); }
      }
      return Child(id);
    }

    /** The queue is left and the memory given back. */
    method FreeThread(cur: nat, w: nat)
      requires cur in thr && |thr[cur].waiters| > 0 && w == thr[cur].waiters[0] && w != cur
      modifies this`thr
      ensures State() == Free(old(State()), cur) && w !in thr
      ensures thr == old(thr)[cur := old(thr[cur]).(waiters := old(thr[cur].waiters)[1..])] - {w}
    {
      thr := thr[cur := thr[cur].(waiters := thr[cur].waiters[1..])];
      thr := thr - {w};
    }
  }

  lemma ChildGone(d: Db, c: nat)
    requires CanUnlink(d, c)
    ensures var p := d.thr[c].parent;
            p in d.thr && p != c && LeftOut(d.thr[p].children, Unlink(d, c).thr[p].children, c)
            && Unlink(d, c).thr == d.thr[c := d.thr[c].(refs := d.thr[c].refs - 1)]
                                        [p := d.thr[p].(children := Unlink(d, c).thr[p].children)]
  {
    WithoutLeaves(d.thr[d.thr[c].parent].children, c);
    hide LeftOut, Without;
  }

  /** Taking a reference and giving it back. */
  lemma HoldDrop(d: Db, t: nat)
    requires d.Inv() && t in d.thr && d.thr[t].life != Dead
    ensures var h := Hold(d, t);
            && Drop(h, t) == d && d.thr[t].refs > 0 && h.thr[t].refs > 1 && h.holds[t] > 0
            && h.thr.Keys == d.thr.Keys && forall u | u in d.thr ::
               h.thr[u].waiters == d.thr[u].waiters && h.thr[u].id == d.thr[u].id
  {
    At(d, t);
    hide Db.Inv;
    assert Drop(Hold(d, t), t).thr == d.thr;
    assert Drop(Hold(d, t), t).holds == d.holds;
  }

  lemma CanCollect(d: Db, p: nat)
    requires d.Inv() && p in d.thr && d.thr[p].life != Dead && |d.thr[p].waiters| > 0
    ensures CanFree(d, p) && d.thr[p].waiters[0] != p && d.thr[p].waiters[0] in d.thr
            && d.thr[d.thr[p].waiters[0]].life == Dead
    ensures d.thr[d.thr[p].waiters[0]].refs == 0 && !d.InTree(d.thr[p].waiters[0])
  {
    assert d.WaiterAt(p, 0);
    At(d, d.thr[p].waiters[0]);
    hide Db.Inv;
  }

  lemma OneLeast(ids: set<nat>, max: nat, i: nat)
    requires LeastFree(ids, max, i)
    ensures forall j: nat :: LeastFree(ids, max, j) <==> j == i
  {
    forall j: nat | LeastFree(ids, max, j) ensures j == i { assert !(j < i) && !(i < j); }
  }

  /** The marks of identifiers are no part of the invariant. */
  lemma SameInv(d: Db, e: Db)
    requires d.Inv() && e == d.(idmap := e.idmap)
    ensures e.Inv()
  {
    hide Db.RefsOk, Db.LifeOk, Db.ParentOk, Db.KidsOk, Db.WaiterAt, Db.OnePlace;
    forall t ensures e.RefsOk(t) && e.LifeOk(t) && e.ParentOk(t) && e.KidsOk(t) { SameAt(d, e, t); }
    forall p, i ensures e.WaiterAt(p, i) { assert d.WaiterAt(p, i); SameWaiter(d, e, p, i); }
    forall p, i, q, j ensures e.OnePlace(p, i, q, j) { assert d.OnePlace(p, i, q, j); SamePlaces(d, e, p, i, q, j); }
  }

  lemma SameAt(d: Db, e: Db, t: nat)
    requires d.Inv() && e == d.(idmap := e.idmap)
    ensures e.RefsOk(t) && e.LifeOk(t) && e.ParentOk(t) && e.KidsOk(t)
  {
    At(d, t);
    assert e.Namers(t) == d.Namers(t);
    hide Db.Inv;
  }

  lemma SameWaiter(d: Db, e: Db, p: nat, i: nat)
    requires e == d.(idmap := e.idmap)
    ensures e.WaiterAt(p, i) <==> d.WaiterAt(p, i)
  {
  }

  lemma SamePlaces(d: Db, e: Db, p: nat, i: nat, q: nat, j: nat)
    requires e == d.(idmap := e.idmap)
    ensures e.OnePlace(p, i, q, j) <==> d.OnePlace(p, i, q, j)
  {
  }

  lemma NewLinks(d: Db, a: nat, id: nat, auto: bool, cur: nat)
    requires d.Inv() && cur in d.thr && d.thr[cur].life == Live && a != NULL && a !in d.thr && id !in d.tree
    ensures CanLink(New(d, a, id, auto), a, cur) && CanLink(Hold(New(d, a, id, auto), cur), a, cur)
    ensures cur in New(d, a, id, auto).thr && a in New(d, a, id, auto).thr && a != cur
            && New(d, a, id, auto).thr[cur].refs > 0
  {
    At(d, cur);
    hide Db.Inv;
  }

  /** A new thread that has become a child. */
  lemma NewChild(d: Db, a: nat, id: nat, auto: bool, cur: nat)
    requires a !in d.thr && cur in d.thr && CanLink(New(d, a, id, auto), a, cur)
    ensures Link(New(d, a, id, auto), a, cur) ==
            Db(d.thr[a := Thread(id, 2, Live, cur, [], [])]
                    [cur := d.thr[cur].(refs := d.thr[cur].refs + 1, children := d.thr[cur].children + [a])],
               d.tree[id := a], if auto then d.idmap + {id} else d.idmap, d.own + {a}, d.holds)
  {
  }

  lemma LinkId(e: Db, c: nat, p: nat)
    requires c in e.thr && p in e.thr && c != p
    ensures c in Link(e, c, p).thr && Link(e, c, p).thr[c].id == e.thr[c].id
  {
  }

  lemma LinkHolds(e: Db, c: nat, p: nat)
    requires CanLink(e, c, p)
    ensures CanLink(Hold(e, p), c, p)
    ensures var l := Link(Hold(e, p), c, p);
            p in l.thr && l.thr[p].refs > 1 && l.holds[p] > 0 && Drop(l, p) == Link(e, c, p)
  {
    var l := Link(Hold(e, p), c, p);
    assert Drop(l, p).thr == Link(e, c, p).thr;
    assert Drop(l, p).holds == e.holds;
  }

  lemma ExitFacts(d: Db, cur: nat)
    requires d.Inv() && cur in d.own && cur in d.thr && d.thr[cur].life == Live && d.Queued(cur)
    ensures d.thr[cur].refs >= 2 && d.thr[cur].parent != cur && d.thr[cur].parent in d.thr && d.thr[cur].parent != NULL
    ensures Hold(d, cur).Queued(cur) && TID_REAPER in d.tree && d.tree[TID_REAPER] != cur
  {
    At(d, cur);
    At(d, d.thr[cur].parent);
    At(d, NULL);
    hide Db.Inv, Db.Namers;
  }

  lemma StillQueued(d: Db, g: Db, cur: nat)
    requires d.Inv() && g.Inv() && cur in d.thr && d.Queued(cur) && cur in d.own && d.Held(cur) > 0
    requires GivenAway(d, g, cur, |d.thr[cur].children|)
    ensures CanUnlink(g, cur) && g.thr[cur].parent == d.thr[cur].parent && g.Queued(cur)
    ensures cur in g.thr && g.thr[cur].parent in g.thr && g.thr[cur].parent != cur && g.thr[cur].refs > 0
  {
    At(d, cur);
    At(d, d.thr[cur].parent);
    At(g, cur);
    assert d.thr[cur].children[..|d.thr[cur].children|] == d.thr[cur].children;
    hide Db.Inv, Db.Namers;
    assert cur !in d.thr[cur].children;
  }

  lemma LeftQueue(d: Db, g: Db, cur: nat)
    requires cur in d.thr && d.thr[cur].life == Live
    requires g.Inv() && CanUnlink(g, cur) && GivenAway(d, g, cur, |d.thr[cur].children|)
    ensures CanExit(Unlink(g, cur), cur)
  {
    UnlinkSets(g, cur);
    At(g, cur);
    At(g, NULL);
    hide Db.Inv, Db.Namers, Db.InTree, Without;
  }

  lemma GiveAwayFacts(d: Db, cur: nat)
    requires d.Inv() && cur in d.own && cur in d.thr && d.Queued(cur) && d.Held(cur) > 0
    ensures CanGiveAway(d, cur)
  {
    At(d, cur);
    At(d, d.thr[cur].parent);
    hide Db.Inv, Db.Namers;
  }

  /** The children of thread u when cur has left and its own children went to the reaper. */
  ghost function KidsAfter(d: Db, cur: nat, u: nat): seq<nat>
    requires cur in d.thr && u in d.thr
  {
    if u == cur then []
    else
      var q := if TID_REAPER in d.tree && u == d.tree[TID_REAPER] then d.thr[u].children + d.thr[cur].children
        else d.thr[u].children;
      if u == d.thr[cur].parent then Without(q, cur) else q
  }

  /** Parents and children are those after cur left, and nobody has died. */
  ghost predicate Left(d: Db, e: Db, cur: nat) {
    && cur in d.thr && e.thr.Keys == d.thr.Keys && TID_REAPER in d.tree
    && forall u | u in d.thr ::
         && e.thr[u].id == d.thr[u].id && e.thr[u].children == KidsAfter(d, cur, u)
         && e.thr[u].parent == (if u in d.thr[cur].children then d.tree[TID_REAPER] else d.thr[u].parent)
         && (u == cur || e.thr[u].life == d.thr[u].life) && e.thr[u].waiters == d.thr[u].waiters
  }

  /** What an exit leaves: as before, but for the death of cur, if nothing refers to it any more; then
      it waits with its parent, and its identifier is free. */
  ghost predicate Exited(d: Db, e: Db, cur: nat) {
    && cur in d.thr && e.thr.Keys == d.thr.Keys && TID_REAPER in d.tree && e.thr[cur].life != Live
    && e.own == d.own - {cur} && e.holds == d.holds
    && var gone := if e.thr[cur].life == Dead then {d.thr[cur].id} else {};
    && e.tree == d.tree - gone && e.idmap == d.idmap - gone
    && forall u | u in d.thr ::
         && e.thr[u].id == d.thr[u].id && e.thr[u].children == KidsAfter(d, cur, u)
         && e.thr[u].parent == (if u in d.thr[cur].children then d.tree[TID_REAPER] else d.thr[u].parent)
         && (u == cur || e.thr[u].life == d.thr[u].life)
         && e.thr[u].waiters ==
              d.thr[u].waiters + if u == d.thr[cur].parent && e.thr[cur].life == Dead then [cur] else []
  }

  /** The thread cur exits: it has left the queues, and its children have a new parent. */
  ghost predicate Retired(d: Db, e: Db, cur: nat) {
    && Left(d, e, cur) && e.tree == d.tree && e.idmap == d.idmap && e.own == d.own && e.holds == d.holds
    && e.thr[cur].life == Exit && e.thr[cur].children == [] && !e.Queued(cur) && e.thr[cur].parent != cur
    && d.tree[TID_REAPER] in d.thr
    && forall c | c in d.thr[cur].children ::
         c in e.thr && e.thr[c].parent == d.tree[TID_REAPER] && c in e.thr[d.tree[TID_REAPER]].children
  }

  lemma Leaves(d: Db, g: Db, cur: nat)
    requires cur in d.thr && CanUnlink(g, cur) && GivenAway(d, g, cur, |d.thr[cur].children|)
    requires cur !in d.thr[cur].children
    ensures Left(d, BeginExit(Unlink(g, cur), cur), cur)
  {
    hide Without;
    assert d.thr[cur].children[..|d.thr[cur].children|] == d.thr[cur].children;
    assert d.thr[cur].children[|d.thr[cur].children|..] == [];
    var e, p := BeginExit(Unlink(g, cur), cur), g.thr[cur].parent;
    assert p == d.thr[cur].parent && e.thr.Keys == d.thr.Keys;
    forall u | u in d.thr ensures e.thr[u].children == KidsAfter(d, cur, u) {
      assert e.thr[u].children == if u == p then Without(g.thr[u].children, cur) else g.thr[u].children;
    }
    forall u | u in d.thr
      ensures e.thr[u].parent == (if u in d.thr[cur].children then d.tree[TID_REAPER] else d.thr[u].parent)
    {
      assert e.thr[u].parent == g.thr[u].parent;
    }
  }

  lemma NowRetired(d: Db, g: Db, cur: nat)
    requires d.Inv() && cur in d.thr && g.Inv() && CanUnlink(g, cur) && GivenAway(d, g, cur, |d.thr[cur].children|)
    requires CanExit(Unlink(g, cur), cur)
    ensures Retired(d, BeginExit(Unlink(g, cur), cur), cur)
  {
    var p, r := g.thr[cur].parent, d.tree[TID_REAPER];
    var e := BeginExit(Unlink(g, cur), cur);
    ExitQueued(g, cur);
    At(g, p);
    WithoutIs(g.thr[p].children, cur);
    assert d.thr[cur].children[..|d.thr[cur].children|] == d.thr[cur].children;
    assert cur !in d.thr[cur].children by { NotOwnKid(d, cur); }
    Leaves(d, g, cur);
    hide Db.Inv, Db.Namers, Db.InTree, Without, Db.RefsOk, Db.Queued, Left;
    forall c | c in d.thr[cur].children ensures c in e.thr && e.thr[c].parent == r && c in e.thr[r].children {
      assert c in g.thr[r].children;
      var i :| 0 <= i < |g.thr[r].children| && g.thr[r].children[i] == c;
      At(g, r);
    }
  }

  lemma NotOwnKid(d: Db, cur: nat)
    requires d.Inv() && cur in d.thr
    ensures cur !in d.thr[cur].children
  {
    At(d, cur);
  }

  lemma ExitQueued(g: Db, cur: nat)
    requires g.Inv() && CanUnlink(g, cur) && CanExit(Unlink(g, cur), cur)
    ensures !BeginExit(Unlink(g, cur), cur).Queued(cur)
  {
    hide Db.Inv, Without;
  }

  lemma RetiredRefs(d: Db, e: Db, cur: nat)
    requires e.Inv() && Retired(d, e, cur) && cur in d.own && d.holds[cur] > 0
    ensures cur in e.thr && e.thr[cur].refs > 1 && e.holds[cur] > 0 && cur in e.own && e.thr[cur].life == Exit
    ensures e.thr[cur].parent != cur
  {
    At(e, cur);
    hide Db.Inv, Db.Namers, Db.Queued;
  }

  /** The parent of a thread in a queue has not begun to exit. */
  lemma ParentLive(d: Db, cur: nat)
    requires d.Inv() && cur in d.thr && d.thr[cur].life == Live && d.Queued(cur)
    ensures d.thr[cur].parent in d.thr && d.thr[cur].parent != cur && d.thr[d.thr[cur].parent].life == Live
  {
    At(d, cur);
    At(d, d.thr[cur].parent);
    NotOwnKid(d, cur);
    hide Db.Inv, Db.RefsOk;
  }

  /** Giving back the last two references of a thread that has retired. */
  lemma GivenUp(d: Db, e: Db, cur: nat)
    requires d.Inv() && e.Inv() && cur in d.thr && d.thr[cur].life == Live && cur in d.own && d.Queued(cur)
    requires Retired(Hold(d, cur), e, cur)
    ensures cur in e.thr && e.thr[cur].refs > 1 && e.Held(cur) > 0 && cur in e.own && e.thr[cur].parent != cur
    ensures e.thr[cur].parent == d.thr[cur].parent && e.thr[cur].parent in e.thr
            && e.thr[e.thr[cur].parent].life == Live
    ensures cur in Drop(e, cur).thr && Drop(e, cur).thr[cur].parent != cur && Drop(e, cur).thr[cur].life == Exit
    ensures Drop(e, cur).Inv() && GiveUpOwn(Drop(e, cur), cur).Inv() && GiveUpOwn(Drop(e, cur), cur).Held(cur) > 0
  {
    hide Db.Inv, Db.Queued;
    RetiredRefs(Hold(d, cur), e, cur);
    ParentLive(d, cur);
    NotOwnKid(d, cur);
    DropKeeps(e, cur);
    GiveUpOwnKeeps(Drop(e, cur), cur);
  }

  lemma AfterExit(d: Db, e: Db, cur: nat)
    requires d.Inv() && e.Inv() && cur in d.thr && d.thr[cur].life == Live && cur in d.own && d.Queued(cur)
    requires Retired(Hold(d, cur), e, cur)
    requires cur in e.thr && GiveUpOwn(Drop(e, cur), cur).Inv() && GiveUpOwn(Drop(e, cur), cur).Held(cur) > 0
    ensures Exited(d, Release(GiveUpOwn(Drop(e, cur), cur), cur), cur)
  {
    hide Db.Inv, Db.Queued, Retired, Exited;
    var f := GiveUpOwn(Drop(e, cur), cur);
    GivenUp(d, e, cur);
    HasRefs(f, cur);
    assert Left(Hold(d, cur), e, cur) && e.tree == d.tree && e.idmap == d.idmap by { RetiredIs(Hold(d, cur), e, cur); }
    assert e.own == d.own && e.holds == d.holds + multiset{cur} && e.thr[cur].life == Exit by {
      RetiredIs(Hold(d, cur), e, cur);
    }
    if f.thr[cur].refs > 1 {
      ExitedAlive(d, e, cur);
    } else {
      ReleaseStops(f, cur);
      ExitedDead(d, e, cur);
    }
  }

  lemma RetiredIs(d: Db, e: Db, cur: nat)
    requires Retired(d, e, cur)
    ensures Left(d, e, cur) && e.tree == d.tree && e.idmap == d.idmap && e.own == d.own && e.holds == d.holds
    ensures e.thr[cur].life == Exit
  {
  }

  lemma ExitedAlive(d: Db, e: Db, cur: nat)
    requires cur in d.thr && Left(Hold(d, cur), e, cur) && e.tree == d.tree && e.idmap == d.idmap && e.own == d.own
    requires e.holds == d.holds + multiset{cur} && e.thr[cur].life == Exit
    ensures Exited(d, Drop(GiveUpOwn(Drop(e, cur), cur), cur), cur)
  {
    hide Without;
    var g := Drop(GiveUpOwn(Drop(e, cur), cur), cur);
    assert g.holds == d.holds;
    forall u | u in d.thr ensures KidsAfter(Hold(d, cur), cur, u) == KidsAfter(d, cur, u) {}
  }

  lemma ExitedDead(d: Db, e: Db, cur: nat)
    requires cur in d.thr && Left(Hold(d, cur), e, cur) && e.tree == d.tree && e.idmap == d.idmap && e.own == d.own
    requires e.holds == d.holds + multiset{cur} && e.thr[cur].life == Exit
    requires e.thr[cur].parent == d.thr[cur].parent && e.thr[cur].parent in e.thr && e.thr[cur].parent != cur
    ensures Exited(d, Drop(Last(GiveUpOwn(Drop(e, cur), cur), cur), d.thr[cur].parent), cur)
  {
    hide Without;
    var g := Drop(Last(GiveUpOwn(Drop(e, cur), cur), cur), d.thr[cur].parent);
    assert g.holds == d.holds;
    forall u | u in d.thr ensures KidsAfter(Hold(d, cur), cur, u) == KidsAfter(d, cur, u) {}
  }

  lemma KidsWithReaper(d: Db, e: Db, g: Db, cur: nat)
    requires cur in d.thr && Retired(Hold(d, cur), e, cur) && Exited(d, g, cur)
    ensures d.tree[TID_REAPER] in g.thr
    ensures forall c | c in d.thr[cur].children ::
              c in g.thr && g.thr[c].parent == d.tree[TID_REAPER] && c in g.thr[d.tree[TID_REAPER]].children
  {
    hide Without, Db.Queued;
    forall u | u in d.thr ensures KidsAfter(Hold(d, cur), cur, u) == KidsAfter(d, cur, u) {}
  }

  /** Who is dead after an exit, and out of the queue. */
  lemma ExitedFacts(d: Db, g: Db, cur: nat)
    requires d.Inv() && g.Inv() && Exited(d, g, cur) && d.thr[cur].life == Live && d.Queued(cur)
    requires d.tree[TID_REAPER] != cur
    ensures g.thr[cur].life == Dead <==> g.Namers(cur) == {} && g.Held(cur) == 0
    ensures TID_REAPER in g.tree && g.tree[TID_REAPER] == d.tree[TID_REAPER]
    ensures g.thr[cur].life != Live && g.thr[cur].children == [] && !g.Queued(cur)
  {
    At(g, cur);
    At(d, d.tree[TID_REAPER]);
    TreeIds(d);
    ParentLive(d, cur);
    NotOwnKid(d, cur);
    var p := d.thr[cur].parent;
    At(d, p);
    assert cur !in g.thr[p].children by { LeavesQueue(d, g, cur); }
    hide Db.Inv, Db.Namers, Without;
  }

  lemma LeavesQueue(d: Db, g: Db, cur: nat)
    requires d.Inv() && g.Inv() && Exited(d, g, cur) && d.thr[cur].parent in d.thr
    ensures cur !in g.thr[d.thr[cur].parent].children
  {
    At(g, d.thr[cur].parent);
    hide Db.Inv, Without, Db.RefsOk;
  }

  /** An exit strands exactly the dead children that wait with the thread. */
  lemma ExitedStrands(d: Db, g: Db, cur: nat, x: nat)
    requires d.Inv() && g.Inv() && Exited(d, g, cur) && d.thr[cur].life == Live && d.Queued(cur)
    ensures Stranded(g, x) <==> Stranded(d, x) || x in d.thr[cur].waiters
  {
    ParentLive(d, cur);
    WaitersDead(d, cur);
    hide Db.Inv, Db.Queued;
    var q := d.thr[cur].parent;
    if x in d.thr[cur].waiters {
      forall p | p in g.thr && x in g.thr[p].waiters ensures p == cur { Place(g, p, cur, x); }
      forall p | p in d.thr && x in d.thr[p].waiters ensures p == cur { Place(d, p, cur, x); }
    } else if x == cur {
      if g.thr[cur].life == Dead { assert q in g.thr && g.thr[q].life == Live && cur in g.thr[q].waiters; }
    } else {
      if Awaited(d, x) {
        var p :| p in d.thr && d.thr[p].life == Live && x in d.thr[p].waiters;
        assert p in g.thr && g.thr[p].life == Live && x in g.thr[p].waiters;
      }
      if Awaited(g, x) {
        var p :| p in g.thr && g.thr[p].life == Live && x in g.thr[p].waiters;
        assert p in d.thr && d.thr[p].life == Live && x in d.thr[p].waiters;
      }
    }
  }

  lemma ExitKeepsIff(d: Db, g: Db, cur: nat)
    requires d.Inv() && g.Inv() && cur in d.thr && Exited(d, g, cur) && d.thr[cur].life == Live && d.Queued(cur)
    requires NoneStranded(d)
    ensures NoneStranded(g) <==> d.thr[cur].waiters == []
  {
    hide Db.Inv, Db.Queued, Exited, Stranded;
    forall x ensures Stranded(g, x) <==> x in d.thr[cur].waiters { ExitedStrands(d, g, cur, x); }
    if d.thr[cur].waiters != [] { assert Stranded(g, d.thr[cur].waiters[0]); }
  }

  ghost predicate CanAdopt(d: Db, c: nat, p: nat, r: nat) {
    && c in d.thr && p in d.thr && r in d.thr && c != p && c != r && p != r && d.thr[c].parent == p
    && c in d.thr[p].children && d.thr[p].refs > 1 && d.thr[r].life == Live && TID_REAPER in d.tree
    && d.tree[TID_REAPER] == r
  }

  /** The child c of p has become the last child of r; nothing else has changed but counts. */
  ghost predicate Adopted(d: Db, e: Db, c: nat, p: nat, r: nat) {
    && e == d.(thr := e.thr) && e.thr.Keys == d.thr.Keys
    && forall u | u in d.thr ::
         && e.thr[u].id == d.thr[u].id && e.thr[u].life == d.thr[u].life && e.thr[u].waiters == d.thr[u].waiters
         && e.thr[u].parent == (if u == c then r else d.thr[u].parent)
         && (u == p ==> e.thr[u].children == Without(d.thr[u].children, c))
         && (u == r && r != p ==> e.thr[u].children == d.thr[u].children + [c])
         && (u != p && u != r ==> e.thr[u].children == d.thr[u].children)
  }

  lemma AdoptSteps(d: Db, c: nat, p: nat, r: nat)
    requires d.Inv() && CanAdopt(d, c, p, r)
    ensures d.thr[c].refs > 0
    ensures CanUnlink(Hold(d, c), c)
    ensures var u := Unlink(Hold(d, c), c);
            && CanDetach(u, c) && c in u.thr && u.thr[c].parent == p && p in u.thr && u.thr[p].refs > 0
    ensures var t := Detach(Unlink(Hold(d, c), c), c); CanLink(t, c, r)
    ensures var l := Link(Detach(Unlink(Hold(d, c), c), c), c, r);
            c in l.thr && l.thr[c].refs > 1 && l.holds[c] > 0 && Adopted(d, Drop(l, c), c, p, r)
  {
    AdoptFacts(d, c, p, r);
    HoldKeeps(d, c);
    assert CanUnlink(Hold(d, c), c);
    UnlinkSets(Hold(d, c), c);
    hide Db.Inv, Db.Namers, Db.InTree, Db.Queued, Without;
    assert CanDetach(Unlink(Hold(d, c), c), c);
    AdoptedIn(d, c, p, r);
  }

  lemma AdoptedIn(d: Db, c: nat, p: nat, r: nat)
    requires CanAdopt(d, c, p, r) && d.thr[c].refs > 0
    ensures var l := Link(Detach(Unlink(Hold(d, c), c), c), c, r);
            c in l.thr && l.thr[c].refs > 1 && l.holds[c] > 0 && Adopted(d, Drop(l, c), c, p, r)
  {
    hide Without;
  }

  lemma AdoptFacts(d: Db, c: nat, p: nat, r: nat)
    requires d.Inv() && CanAdopt(d, c, p, r)
    ensures d.thr[c].refs > 0 && d.thr[c].life == Live && d.Queued(c)
  {
    At(d, p);
    At(d, c);
    hide Db.Inv;
  }

  // ---- Orphans ----

  ghost predicate CanGiveAway(d: Db, p: nat) {
    p in d.thr && p in d.own && d.Held(p) > 0 && TID_REAPER in d.tree && d.tree[TID_REAPER] != p
  }

  /** The first i children of p have become children of the reaper. */
  ghost predicate GivenAway(d: Db, e: Db, p: nat, i: nat) {
    && p in d.thr && e == d.(thr := e.thr) && e.thr.Keys == d.thr.Keys && i <= |d.thr[p].children|
    && TID_REAPER in d.tree
    && var r := d.tree[TID_REAPER];
    && r in d.thr && r != p
    && e.thr[p].children == d.thr[p].children[i..] && e.thr[r].children == d.thr[r].children + d.thr[p].children[..i]
    && forall u | u in d.thr ::
         && e.thr[u].id == d.thr[u].id && e.thr[u].life == d.thr[u].life && e.thr[u].waiters == d.thr[u].waiters
         && e.thr[u].parent == (if u in d.thr[p].children[..i] then r else d.thr[u].parent)
         && (u != p && u != r ==> e.thr[u].children == d.thr[u].children)
  }

  lemma AwayStart(d: Db, p: nat)
    requires d.Inv() && CanGiveAway(d, p)
    ensures GivenAway(d, d, p, 0)
  {
    At(d, p);
    hide Db.Inv;
  }

  lemma CanAdoptNext(d: Db, e: Db, p: nat, i: nat)
    requires e.Inv() && CanGiveAway(e, p) && GivenAway(d, e, p, i) && i < |d.thr[p].children|
    ensures CanAdopt(e, d.thr[p].children[i], p, d.tree[TID_REAPER])
  {
    var c := d.thr[p].children[i];
    assert e.thr[p].children[0] == c;
    At(e, p);
    At(e, c);
    At(e, d.tree[TID_REAPER]);
    hide Db.Inv, Db.Namers, Db.Queued, Db.InTree;
  }

  lemma AwayNext(d: Db, e: Db, f: Db, p: nat, i: nat)
    requires e.Inv() && CanGiveAway(e, p) && GivenAway(d, e, p, i) && i < |d.thr[p].children|
    requires Adopted(e, f, d.thr[p].children[i], p, d.tree[TID_REAPER])
    ensures GivenAway(d, f, p, i + 1) && CanGiveAway(f, p)
  {
    hide Db.Inv;
    var q := d.thr[p].children;
    assert e.thr[p].children[0] == q[i] && Without(q[i..], q[i]) == q[i + 1..];
    assert q[..i + 1] == q[..i] + [q[i]];
  }

  lemma CanLinkRefs(d: Db, c: nat, p: nat)
    requires d.Inv() && CanLink(d, c, p)
    ensures d.thr[c].refs > 0 && d.thr[p].refs > 0
  {
    At(d, c);
    At(d, p);
    hide Db.Inv;
  }

  lemma LinkCancels(d: Db, c: nat, p: nat)
    requires CanLink(d, c, p)
    ensures Drop(Drop(Link(Hold(Hold(d, p), c), c, p), c), p) == Link(d, c, p)
  {
    var e := Drop(Drop(Link(Hold(Hold(d, p), c), c, p), c), p);
    assert e.thr == Link(d, c, p).thr;
    assert e.holds == d.holds;
  }

  lemma UnlinkRefs(d: Db, c: nat)
    requires d.Inv() && CanUnlink(d, c)
    ensures d.thr[c].parent in d.thr && d.thr[d.thr[c].parent].refs > 0
  {
    At(d, c);
    At(d, NULL);
    NamedBy(d, c);
    hide Db.Inv;
  }

  /** The parent of a thread that is not dead has a reference for it. */
  lemma NamedBy(d: Db, c: nat)
    requires d.Inv() && c in d.thr && d.thr[c].life != Dead && d.thr[c].parent != NULL && d.thr[c].parent != c
    ensures d.thr[c].parent in d.thr && c in d.Namers(d.thr[c].parent)
            && d.thr[d.thr[c].parent].refs > d.Held(d.thr[c].parent)
  {
    At(d, c);
    At(d, d.thr[c].parent);
    hide Db.Inv;
    assert {c} <= d.Namers(d.thr[c].parent);
  }

  lemma UnlinkCancels(d: Db, c: nat)
    requires CanUnlink(d, c) && d.thr[c].parent in d.thr && d.thr[d.thr[c].parent].refs > 0
    ensures var p := d.thr[c].parent; var u := Unlink(Hold(Hold(d, p), c), c);
            && c in u.thr && u.thr[c].refs > 1 && u.holds[c] > 0 && p in u.thr && u.thr[p].refs > 1 && u.holds[p] > 0
            && Drop(Drop(u, c), p) == Unlink(d, c)
  {
    hide Without;
    var p := d.thr[c].parent;
    var e := Drop(Drop(Unlink(Hold(Hold(d, p), c), c), c), p);
    assert e.thr == Unlink(d, c).thr;
    assert e.holds == d.holds;
  }

  lemma HeldUnlink(d: Db, c: nat)
    requires CanUnlink(d, c) && d.thr[c].parent in d.thr
    ensures CanUnlink(Hold(Hold(d, d.thr[c].parent), c), c)
  {
  }

  lemma HeldHasRefs(d: Db, t: nat)
    requires d.Inv() && t in d.thr && d.holds[t] > 0
    ensures d.thr[t].refs > 0 && d.Held(t) == d.holds[t]
  {
    At(d, t);
    hide Db.Inv;
  }

  // ---- A thread that is never collected ----

  /** Thread 1 is the reaper, 2 its child and 3 the child of that. */
  ghost predicate Family(d: Db) {
    && d.thr.Keys == {1, 2, 3} && d.thr[1].parent == 1 && d.thr[2].parent == 1 && d.thr[3].parent == 2
    && d.thr[1].life == Live && d.thr[2].life == Live && d.thr[3].life == Live && d.own == {1, 2, 3}
    && d.thr[1].children == [2] && d.thr[2].children == [3] && d.thr[3].children == [] && d.thr[2].waiters == []
    && d.holds == multiset{}
  }

  lemma FamilyIs(ids: set<nat>, i: nat, j: nat)
    requires i != TID_REAPER && j != TID_REAPER && i != j
    ensures var d := Link(New(Start(1, ids), 2, i, true), 2, 1); 2 in d.thr && Family(Link(New(d, 3, j, true), 3, 2))
  {
    var d := Link(New(Start(1, ids), 2, i, true), 2, 1);
    var e := Link(New(d, 3, j, true), 3, 2);
    assert e.thr.Keys == {1, 2, 3};
  }

  /** 3 has exited and waits with 2, which is still there to exit. */
  lemma ChildExited(d: Db, e: Db)
    requires d.Inv() && e.Inv() && Family(d) && Exited(d, e, 3)
    requires e.thr[3].life == Dead <==> e.Namers(3) == {} && e.holds[3] == 0
    ensures 2 in e.own && 2 in e.thr && e.thr[2].life == Live && e.Queued(2) && e.thr[2].waiters == [3]
  {
    TreeIds(d);
    At(d, 1);
    hide Db.Inv, Without;
    assert d.Queued(3) by { assert d.thr[2].children[0] == 3; }
    assert e.Namers(3) == {};
    assert e.thr[1].children[0] == 2;
  }

  /** A child is created, creates a child of its own, and both exit, the younger one first: it waits
      with a parent that has exited, and no run ever collects it. */
  method ExitStrandsChild() returns (m: ThreadDb)
    ensures m.Valid() && Stranded(m.State(), 3) && !NoneStranded(m.State())
    ensures forall run: seq<Move>, e: Db :: Runs(m.State(), run, e) ==> Stranded(e, 3)
  {
    hide Db.Inv, Link, New, Exited, Stranded, CanLink, Start, Db.Namers, Runs;
    m := new ThreadDb(1, 64);
    ghost var ids := FirstIds(TID_RSV);
    StartIs(ids);
    assert m.State().idmap == ids && TID_RSV !in ids && TID_RSV + 1 !in ids;
    var r := m.Create(1, 2, TID_RSV);
    ghost var i := m.thr[2].id;
    FirstChild(ids, i);
    assert m.State().idmap == ids + {i};
    assert TID_RSV !in m.idmap || TID_RSV + 1 !in m.idmap;
    r := m.Create(2, 3, TID_RSV);
    FamilyIs(ids, i, m.thr[3].id);
    FamilyQueued(m.State());
    ghost var d := m.State();
    m.ExitThread(3);
    ChildExited(d, m.State());
    m.ExitThread(2);
    forall run: seq<Move>, e: Db | Runs(m.State(), run, e) ensures Stranded(e, 3) {
      StrandedForever(m.State(), run, e, 3);
    }
  }

  lemma StartIs(ids: set<nat>)
    ensures var d := Start(1, ids);
            && d.thr.Keys == {1} && d.idmap == ids && d.thr[1].life == Live && d.tree.Keys == {TID_REAPER}
  {
  }

  lemma FirstChild(ids: set<nat>, i: nat)
    requires i != TID_REAPER
    ensures var d := Start(1, ids); CanLink(New(d, 2, i, true), 2, 1) && var e := Link(New(d, 2, i, true), 2, 1);
            && e.thr.Keys == {1, 2} && e.thr[2].life == Live && e.idmap == ids + {i} && e.tree.Keys == {TID_REAPER, i}
  {
  }

  lemma FamilyQueued(d: Db)
    requires Family(d)
    ensures d.Queued(3) && 3 in d.thr && 3 in d.own && d.thr[3].life == Live
  {
    assert d.thr[2].children[0] == 3;
  }

  // ---- A reserved identifier that is used again ----

  /** A thread under the reserved identifier 5 is created and exits; its death clears the mark. */
  method ExitReserved() returns (m: ThreadDb)
    ensures fresh(m) && m.Valid() && m.tidMax == 64 && 1 in m.thr && m.thr[1].life == Live && m.thr.Keys == {1, 2}
    ensures m.tree.Keys == {TID_REAPER} && LeastFree(m.idmap, 64, 5)
  {
    hide Db.Inv, Link, New, Exited, Stranded, CanLink, Start, Db.Namers, GivenBack, LeastFree;
    m := new ThreadDb(1, 64);
    ghost var ids := FirstIds(TID_RSV);
    StartIs(ids);
    var r := m.Create(1, 2, 5);
    OneReserved(ids);
    ghost var d := m.State();
    m.ExitThread(2);
    ReservedGone(d, m.State(), ids);
  }

  /** Thread 1 is the reaper, and 2 its child under identifier 5. */
  ghost predicate Reserved(d: Db, ids: set<nat>) {
    && d.thr.Keys == {1, 2} && d.thr[1].parent == 1 && d.thr[2].parent == 1 && d.thr[2].id == 5
    && d.thr[1].life == Live && d.thr[2].life == Live && d.own == {1, 2} && d.thr[1].children == [2]
    && d.thr[2].children == [] && d.holds == multiset{} && d.idmap == ids && d.tree == map[TID_REAPER := 1, 5 := 2]
  }

  lemma OneReserved(ids: set<nat>)
    ensures var d := Start(1, ids); CanLink(New(d, 2, 5, false), 2, 1) ==>
              var e := Link(New(d, 2, 5, false), 2, 1); Reserved(e, ids) && e.Queued(2)
  {
    var d := Start(1, ids);
    var e := Link(New(d, 2, 5, false), 2, 1);
    assert e.thr[1].children[0] == 2;
  }

  lemma ReservedGone(d: Db, e: Db, ids: set<nat>)
    requires d.Inv() && e.Inv() && Reserved(d, ids) && ids == FirstIds(TID_RSV) && Exited(d, e, 2)
    requires e.thr[2].life == Dead <==> e.Namers(2) == {} && e.holds[2] == 0
    ensures e.thr.Keys == {1, 2} && e.thr[1].life == Live && e.tree.Keys == {TID_REAPER} && LeastFree(e.idmap, 64, 5)
  {
    hide Db.Inv, Without;
    assert e.Namers(2) == {};
  }

  lemma FreeFive(ids: set<nat>)
    requires LeastFree(ids, 64, 5)
    ensures 5 !in ids
  {
  }

  lemma NextChild(d: Db, i: nat, auto: bool)
    requires d.thr.Keys == {1, 2} && d.thr[1].life == Live
    ensures var n := New(d, 3, i, auto); CanLink(n, 3, 1) ==>
              var e := Link(n, 3, 1);
              && e.thr.Keys == {1, 2, 3} && e.thr[1].life == Live && e.tree == d.tree[i := 3]
              && e.idmap == if auto then d.idmap + {i} else d.idmap
  {
  }

  /** An automatic choice hands the identifier out; then the next thread under it stops the kernel. */
  method ReservedTaken() returns (m: ThreadDb, r: Created)
    ensures r == Stopped && m.Valid()
  {
    hide Db.Inv, Link, New, CanLink, LeastFree;
    m := ExitReserved();
    OneLeast(m.idmap, 64, 5);
    NextChild(m.State(), 5, true);
    assert !Clashes(m.State(), 64, TID_RSV) && 5 !in m.idmap by { FreeFive(m.idmap); }
    r := m.Create(1, 3, TID_RSV);
    r := m.Create(1, 4, 5);
  }

  /** A thread takes it again, without a mark; then the next automatic choice stops the kernel. */
  method ReservedUnmarked() returns (m: ThreadDb, r: Created)
    ensures r == Stopped && m.Valid()
  {
    hide Db.Inv, Link, New, CanLink, LeastFree;
    m := ExitReserved();
    NextChild(m.State(), 5, false);
    r := m.Create(1, 3, 5);
    r := m.Create(1, 4, TID_RSV);
  }
}
