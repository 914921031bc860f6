/** The buddy page allocator of one memory region, working in place on its frame array, its
    free queues and its counters.  Page indices are relative to the start of the region. */
module PageBuddy {
  import opened Powers
  import opened Queues
  import opened BuddyPool
  import opened BuddyTheorems

  datatype Errno = EInval | ENoMem | ENoLck | EBusy

  datatype Result<T> = Ok(value: T) | Err(error: Errno)

  class PagePool {
    const frames: array<Frame>
    const pageList: array<seq<nat>>
    const freeNr: array<int>
    var availablePages: int
    var usagePages: map<Usage, int>
    ghost var hd: seq<nat>

    /** The pool as a value, the blocks `held` being in transit. */
    ghost function State(held: set<nat>): Pool
      reads this, frames, pageList
    {
      Pool(frames[..], pageList[..], hd, held)
    }

    /** The counters; `pending` available pages are still to be counted. */
    ghost function Books(pending: int := 0): Counters
      reads this, freeNr
    {
      Counters(freeNr[..], availablePages + pending, usagePages)
    }

    ghost predicate Wired()
      reads this
    {
      && frames as object != pageList && frames as object != freeNr && pageList as object != freeNr
    }

    /** A frame is in use exactly while its use count is positive. */
    ghost predicate UseCounts()
      reads this, frames
    {
      forall i | 0 <= i < frames.Length :: frames[i].used <==> frames[i].usecnt > 0
    }

    ghost predicate Valid()
      reads this, frames, pageList, freeNr
    {
      Wired() && UseCounts() && AtRest(State({}), Books())
    }

    /** The free pages of the region. */
    ghost function Free(): set<nat>
      reads this, frames, pageList
    {
      State({}).FreeSet()
    }

    /** `adjust_page_order`: halve the block in transit until it has the requested order,
        queueing the upper half each time. */
    method AdjustPageOrder(idx: nat, requestOrder: nat)
      requires Wired() && UseCounts() && idx < frames.Length
      requires Taken(State({idx}), Books(), idx) && requestOrder <= frames[idx].order
      modifies this`hd, frames, pageList, freeNr
      ensures Wired() && UseCounts()
      ensures Taken(State({idx}), Books(), idx) && frames[idx].order == requestOrder
      ensures State({idx}).FreeSet() ==
                old(State({idx}).FreeSet() + (Block(idx, frames[idx].order) - Block(idx, requestOrder)))
      ensures SameLive(old(frames[..]), frames[..], {})
      ensures HalvesQueued(old(pageList[..]), pageList[..], idx, requestOrder, old(frames[idx].order))
    {
      hide Taken, Pool.FreeSet, Pow2, Flip, Aligned, HalvesQueued;
      HalvesStart(pageList[..], idx, frames[idx].order);
      var curOrder := frames[idx].order;
      ghost var free0 := State({idx}).FreeSet();
      ghost var order0 := curOrder;
      while curOrder > requestOrder
        invariant requestOrder <= curOrder <= order0 && frames[idx].order == curOrder
        invariant Wired() && UseCounts() && Taken(State({idx}), Books(), idx)
        invariant Block(idx, curOrder) <= Block(idx, order0)
        invariant State({idx}).FreeSet() == free0 + (Block(idx, order0) - Block(idx, curOrder))
        invariant SameLive(old(frames[..]), frames[..], {})
        invariant HalvesQueued(old(pageList[..]), pageList[..], idx, curOrder, order0)
      {
        ghost var s := State({idx});
        ghost var c := Books();
        UpperHalf(s, c, idx, curOrder - 1);
        HalvesNext(old(pageList[..]), pageList[..], idx, curOrder - 1, order0);
        SplitTaken(s, c, idx);
        SplitQuiet(s, c, idx);
        BlockHalves(idx, curOrder - 1);

        curOrder := curOrder - 1;
        var buddyIdx := Flip(idx, curOrder);
        frames[buddyIdx] := frames[buddyIdx].(order := curOrder);
        pageList[curOrder] := pageList[curOrder] + [buddyIdx];
        freeNr[curOrder] := freeNr[curOrder] + 1;
        frames[idx] := frames[idx].(order := curOrder);

        assert pageList[..] == s.lists[curOrder := s.lists[curOrder] + [buddyIdx]];
        hd := Split(s, idx).hd;
        assert State({idx}) == Split(s, idx);
        assert Books() == Bump(c, curOrder, 1);
      }
    }

    /** `setup_clustered_pages` */
    method SetupClusteredPages(h: nat)
      requires h < frames.Length && h + Pow2(frames[h].order) <= frames.Length
      modifies frames
      ensures frames[..] == old(MarkCluster(frames[..], h))
    {
      if frames[h].order == 0 {
        frames[h] := frames[h].(clustered := false, headp := None);
        return;
      }
      var pages := Pow2(frames[h].order);
      var i := 0;
      while i < pages
        invariant 0 <= i <= pages == Pow2(frames[h].order)
        invariant forall p | 0 <= p < frames.Length ::
          frames[p] == if h <= p < h + i then old(frames[p]).(clustered := true, headp := Some(h)) else old(frames[p])
      {
        frames[h + i] := frames[h + i].(clustered := true, headp := Some(h));
        i := i + 1;
      }
    }

    /** `clear_clustered_pages` */
    method ClearClusteredPages(h: nat)
      requires h < frames.Length && h + Pow2(frames[h].order) <= frames.Length
      modifies frames
      ensures frames[..] == old(ClearCluster(frames[..], h))
    {
      var pages := Pow2(frames[h].order);
      var i := 0;
      while i < pages
        invariant 0 <= i <= pages == Pow2(frames[h].order)
        invariant forall p | 0 <= p < frames.Length ::
          frames[p] == if h <= p < h + i then old(frames[p]).(clustered := false, headp := None) else old(frames[p])
      {
        frames[h + i] := frames[h + i].(clustered := false, headp := None);
        i := i + 1;
      }
    }

    ghost predicate UseCountsBut(h: nat)
      reads this, frames
    {
      forall i | 0 <= i < frames.Length && i != h :: frames[i].used <==> frames[i].usecnt > 0
    }

    /** `enqueue_page_to_buddy_pool`: take the use off the block, join it with its free buddies
        as far as possible and queue the result. */
    method EnqueuePageToBuddyPool(reqIdx: nat, ghost pending: int)
      requires Wired() && reqIdx < frames.Length && UseCountsBut(reqIdx) && frames[reqIdx].usecnt == 0
      requires frames[reqIdx].used ==> AtRest(State({}), Books(pending))
      requires !frames[reqIdx].used ==> InTransit(State({reqIdx}), Books(pending), reqIdx)
      modifies this`hd, this`usagePages, frames, pageList, freeNr
      ensures Wired() && UseCounts() && AtRest(State({}), Books(pending))
      ensures Free() == old(Free() + Block(reqIdx, frames[reqIdx].order))
      ensures SameLive(old(frames[..]), frames[..], {reqIdx}) && !Live(frames[reqIdx])
      ensures usagePages == old(LessUse(usagePages, frames[reqIdx]))
      ensures Rejoined(old(pageList[..]), pageList[..], frames[..], old(frames[reqIdx].order), reqIdx)
    {
      hide AtRest, InTransit, Pool.FreeSet, Pow2, JoinedUpTo, Rejoined;
      ghost var s0 := State({});
      StartRelease(s0, Books(pending), reqIdx);
      usagePages := LessUse(usagePages, frames[reqIdx]);
      frames[reqIdx] := frames[reqIdx].(ucase := {});
      frames[reqIdx] := frames[reqIdx].(used := false);
      assert State({reqIdx}) == s0.(held := {reqIdx},
          frames := s0.frames[reqIdx := s0.frames[reqIdx].(used := false, ucase := {})]);
      var last := Coalesce(reqIdx, pending);
      ghost var q := pageList[..];
      QueuePage(last, pending);
      RejoinedNow(old(pageList[..]), q, pageList[..], frames[..], old(frames[reqIdx].order), reqIdx, last);
    }

    /** The loop of `enqueue_page_to_buddy_pool`; returns the head of the joined block. */
    method Coalesce(reqIdx: nat, ghost pending: int) returns (curIdx: nat)
      requires Wired() && UseCounts() && reqIdx < frames.Length && frames[reqIdx].order < pageList.Length
      requires InTransit(State({reqIdx}), Books(pending), reqIdx)
      modifies this`hd, frames, pageList, freeNr
      ensures Wired() && UseCounts() && curIdx < frames.Length
      ensures InTransit(State({curIdx}), Books(pending), curIdx) && !CanMerge(State({curIdx}), curIdx)
      ensures State({curIdx}).FreeSet() + Block(curIdx, frames[curIdx].order) ==
                old(State({reqIdx}).FreeSet() + Block(reqIdx, frames[reqIdx].order))
      ensures SameLive(old(frames[..]), frames[..], {})
      ensures JoinedUpTo(old(pageList[..]), pageList[..], old(frames[reqIdx].order), frames[curIdx].order)
      ensures frames[curIdx].order < pageList.Length
      ensures Block(reqIdx, old(frames[reqIdx].order)) <= Block(curIdx, frames[curIdx].order)
    {
      hide InTransit, Pool.FreeSet, Pow2, Flip, MaskLow, JoinedUpTo;
      JoinedStart(pageList[..], frames[reqIdx].order);
      TransitQuiet(State({reqIdx}), Books(pending), reqIdx);
      var curOrder := frames[reqIdx].order;
      ghost var order0 := curOrder;
      curIdx := reqIdx;
      ghost var goal := State({reqIdx}).FreeSet() + Block(reqIdx, frames[reqIdx].order);
      ghost var w := State({curIdx});
      assert w.frames == frames[..][curIdx := frames[curIdx].(order := curOrder)];
      while curOrder < pageList.Length
        invariant Wired() && UseCounts() && curIdx < frames.Length && curOrder < pageList.Length
        invariant w == State({curIdx}).(frames := frames[..][curIdx := frames[curIdx].(order := curOrder)])
        invariant InTransit(w, Books(pending), curIdx) && !Live(frames[curIdx])
        invariant w.FreeSet() + Block(curIdx, curOrder) == goal
        invariant SameLive(old(frames[..]), frames[..], {})
        invariant JoinedUpTo(old(pageList[..]), pageList[..], order0, curOrder)
        invariant Block(reqIdx, order0) <= Block(curIdx, curOrder)
        decreases pageList.Length - curOrder
      {
        frames[curIdx] := frames[curIdx].(order := curOrder);
        assert State({curIdx}) == w;
        ghost var c := Books(pending);
        if curOrder >= pageList.Length - 1 { break; }
        var buddyIdx := Flip(curIdx, curOrder);
        if buddyIdx >= frames.Length { break; }
        if frames[curIdx].order != frames[buddyIdx].order { break; }
        if frames[buddyIdx].used || frames[buddyIdx].reserved { break; }

        MergeTransit(w, c, curIdx);
        MergeQuiet(w, c, curIdx);
        BuddyQueued(w, c, curIdx);
        JoinedNext(old(pageList[..]), pageList[..], order0, curOrder, buddyIdx);
        var k := frames[buddyIdx].order;
        pageList[k] := Unlink(pageList[k], buddyIdx);
        freeNr[k] := freeNr[k] - 1;
        w := Merge(w, curIdx);
        hd := w.hd;
        curOrder := curOrder + 1;
        curIdx := MaskLow(curIdx, curOrder);
        assert Books(pending) == Bump(c, k, -1);
      }
    }

    /** The end of `enqueue_page_to_buddy_pool`. */
    method QueuePage(curIdx: nat, ghost pending: int)
      requires Wired() && UseCounts() && curIdx < frames.Length
      requires InTransit(State({curIdx}), Books(pending), curIdx) && !CanMerge(State({curIdx}), curIdx)
      modifies frames, pageList, freeNr
      ensures Wired() && UseCounts() && AtRest(State({}), Books(pending))
      ensures Free() == old(State({curIdx}).FreeSet() + Block(curIdx, frames[curIdx].order))
      ensures SameLive(old(frames[..]), frames[..], {})
      ensures var k := old(frames[curIdx].order);
              && k < pageList.Length && frames[curIdx].order == k
              && pageList[..] == old(pageList[..])[k := old(pageList[k]) + [curIdx]]
    {
      hide InTransit, AtRest, Pool.FreeSet, Pow2, CanMerge;
      ghost var w := State({curIdx});
      ghost var c := Books(pending);
      DepositRest(w, c, curIdx);
      TransitFits(w, c, curIdx);
      TransitQuiet(w, c, curIdx);
      ClearClusteredPages(curIdx);
      var k := frames[curIdx].order;
      pageList[k] := pageList[k] + [curIdx];
      freeNr[k] := freeNr[k] + 1;
      assert State({}) == Deposit(w, curIdx);
      assert Books(pending) == Bump(c, k, 1);
    }

    /** `dequeue_page_from_memory_area`: hand out a block of 2^order pages. */
    method DequeuePage(order: nat, usage: Usage) returns (r: Result<nat>)
      requires Valid()
      modifies this`hd, this`usagePages, frames, pageList, freeNr
      ensures Valid()
      ensures order >= pageList.Length ==> r == Err(EInval)
      ensures order < pageList.Length ==> (r == Err(ENoMem) <==> !HasRun(old(Free()), order))
      ensures r.Err? ==> State({}) == old(State({})) && Books() == old(Books())
      ensures r.Ok? ==>
                && Aligned(r.value, order) && Block(r.value, order) <= old(Free())
                && Free() == old(Free()) - Block(r.value, order)
                && r.value < frames.Length && State({}).IsHead(r.value)
                && frames[r.value].used && frames[r.value].order == order
                && frames[r.value].ucase == {usage} && frames[r.value].usecnt == 1
                && SameLive(old(frames[..]), frames[..], {r.value})
                && availablePages == old(availablePages)
                && usage in old(usagePages)
                && usagePages == old(usagePages)[usage := old(usagePages)[usage] + Pow2(order)]
      ensures r.Ok? ==> exists k: nat ::
                && k < pageList.Length && FirstFit(old(pageList[..]), order, k)
                && r.value == old(pageList[k][0])
                && HalvesQueued(old(pageList[..])[k := old(pageList[k])[1..]], pageList[..], r.value, order, k)
    {
      hide AtRest, Taken, Pool.FreeSet, Pow2, HasRun, Aligned;
      if order >= pageList.Length { return Err(EInval); }
      AtRestComplete(State({}), Books(), order);
      var curOrder := order;
      while curOrder < pageList.Length
        invariant order <= curOrder <= pageList.Length
        invariant forall j | order <= j < curOrder :: pageList[j] == []
        invariant unchanged(this) && unchanged(frames) && unchanged(pageList) && unchanged(freeNr)
      {
        if pageList[curOrder] != [] {
          var curPage := pageList[curOrder][0];
          ghost var s := State({});
          ghost var c := Books();
          TopOfQueue(s, c, curOrder);
          assert FirstFit(old(pageList[..]), order, curOrder);
          pageList[curOrder] := pageList[curOrder][1..];
          freeNr[curOrder] := freeNr[curOrder] - 1;
          assert State({curPage}) == Detach(s, curPage);
          assert Books() == Bump(c, curOrder, -1);
          r := HandOutPage(curPage, order, usage);
          return;
        }
        curOrder := curOrder + 1;
      }
      return Err(ENoMem);
    }

    /** The rest of `dequeue_page_from_memory_area`, once a page has left its queue. */
    method HandOutPage(curPage: nat, order: nat, usage: Usage) returns (r: Result<nat>)
      requires Wired() && UseCounts() && curPage < frames.Length
      requires Taken(State({curPage}), Books(), curPage) && order <= frames[curPage].order
      modifies this`hd, this`usagePages, frames, pageList, freeNr
      ensures Valid() && r == Ok(curPage) && State({}).IsHead(curPage)
      ensures Aligned(curPage, order) && Block(curPage, order) <= old(Block(curPage, frames[curPage].order))
      ensures Free() ==
              old(State({curPage}).FreeSet() + (Block(curPage, frames[curPage].order) - Block(curPage, order)))
      ensures frames[curPage].used && frames[curPage].order == order
      ensures frames[curPage].ucase == {usage} && frames[curPage].usecnt == 1
      ensures SameLive(old(frames[..]), frames[..], {curPage})
      ensures usage in old(usagePages)
      ensures usagePages == old(usagePages)[usage := old(usagePages)[usage] + Pow2(order)]
      ensures availablePages == old(availablePages)
      ensures HalvesQueued(old(pageList[..]), pageList[..], curPage, order, old(frames[curPage].order))
    {
      hide AtRest, Taken, Pool.FreeSet, Pow2, Aligned;
      TakenAligned(State({curPage}), Books(), curPage, order);
      AdjustPageOrder(curPage, order);
      ghost var s := State({curPage});
      ghost var c := Books();
      HandOutRest(s, c, curPage, usage);
      TakenQuiet(s, c, curPage);
      SetupClusteredPages(curPage);
      usagePages := usagePages[usage := usagePages[usage] + Pow2(frames[curPage].order)];
      frames[curPage] := frames[curPage].(ucase := frames[curPage].ucase + {usage});
      frames[curPage] := frames[curPage].(used := true);
      frames[curPage] := frames[curPage].(usecnt := 1);
      assert State({}) == HandOut(s, curPage, usage);
      return Ok(curPage);
    }

    /** `pfdb_inc_page_use_count`: a page that is not in use cannot be referenced. */
    method IncPageUseCount(idx: nat) returns (res: bool)
      requires Valid() && idx < frames.Length
      modifies frames
      ensures Valid() && res == old(frames[idx].used)
      ensures Free() == old(Free()) && SameLive(old(frames[..]), frames[..], {idx})
      ensures frames[idx] == if res then old(frames[idx]).(usecnt := old(frames[idx].usecnt) + 1) else old(frames[idx])
    {
      hide AtRest, Pool.FreeSet;
      res := frames[idx].usecnt != 0;
      if res {
        ghost var s := State({});
        frames[idx] := frames[idx].(usecnt := frames[idx].usecnt + 1);
        UseCountFree(s, State({}), Books());
      }
    }

    /** `pfdb_dec_page_use_count`: the last user gives the block back. */
    method DecPageUseCount(idx: nat) returns (res: bool)
      requires Valid() && idx < frames.Length && frames[idx].usecnt > 0
      modifies this`hd, this`usagePages, frames, pageList, freeNr
      ensures Valid() && res == (old(frames[idx].usecnt) == 1)
      ensures Free() == if res then old(Free() + Block(idx, frames[idx].order)) else old(Free())
      ensures SameLive(old(frames[..]), frames[..], {idx})
      ensures if res then !Live(frames[idx])
              else frames[idx] == old(frames[idx]).(usecnt := old(frames[idx].usecnt) - 1)
      ensures if res then Rejoined(old(pageList[..]), pageList[..], frames[..], old(frames[idx].order), idx)
              else pageList[..] == old(pageList[..])
      ensures availablePages == old(availablePages)
      ensures usagePages == if res then old(LessUse(usagePages, frames[idx])) else old(usagePages)
    {
      hide AtRest, InTransit, Pool.FreeSet, Pow2;
      ghost var s := State({});
      frames[idx] := frames[idx].(usecnt := frames[idx].usecnt - 1);
      UseCountFree(s, State({}), Books());
      res := frames[idx].usecnt == 0;
      if res {
        UsedIsFreed(State({}), Books(), idx);
        assert Books(0) == Books();
        EnqueuePageToBuddyPool(idx, 0);
        assert Books(0) == Books();
      }
    }

    /** `mark_page_frame_reserved`, for a page that is the first of a free block. */
    method MarkPageReserved(idx: nat)
      requires Valid() && State({}).IsFree(idx)
      modifies this`hd, this`availablePages, frames, pageList, freeNr
      ensures Valid() && idx < frames.Length && State({}).IsHead(idx)
      ensures frames[idx].reserved && frames[idx].order == 0
      ensures Free() == old(Free()) - {idx}
      ensures SameLive(old(frames[..]), frames[..], {idx})
      ensures availablePages == old(availablePages) - 1
      ensures usagePages == old(usagePages)
      ensures TakenApart(old(pageList[..]), pageList[..], old(frames[idx].order), idx)
    {
      hide AtRest, Taken, Pool.FreeSet, Pow2, HalvesQueued, TakenApart, LeftOut;
      ghost var s := State({});
      ghost var c := Books();
      AtRestDetach(s, c, idx);
      HeadQueued(s, c, idx);
      var k := frames[idx].order;
      pageList[k] := Unlink(pageList[k], idx);
      freeNr[k] := freeNr[k] - 1;
      assert pageList[..] == s.lists[k := Unlink(s.lists[k], idx)];
      assert State({idx}) == Detach(s, idx);
      assert Books() == Bump(c, k, -1);
      AdjustPageOrder(idx, 0);
      ApartNow(s.lists, pageList[..], k, idx);
      ghost var t := State({idx});
      ReserveRest(t, Books(), idx);
      TakenQuiet(t, Books(), idx);
      SetupClusteredPages(idx);
      availablePages := availablePages - 1;
      frames[idx] := frames[idx].(reserved := true);
      assert State({}) == Reserve(t, idx);
      OnePage(idx);
      HeadIsHead(State({}), Books(), idx);
    }

    /** `unmark_page_frame_reserved` */
    method UnmarkPageReserved(idx: nat) returns (r: Result<()>)
      requires Valid() && idx < frames.Length
      modifies this`hd, this`usagePages, this`availablePages, frames, pageList, freeNr
      ensures Valid() && (r.Ok? <==> old(frames[idx].reserved)) && (r.Err? ==> r == Err(ENoLck))
      ensures r.Err? ==> State({}) == old(State({})) && Books() == old(Books())
      ensures r.Ok? ==>
                && Free() == old(Free()) + {idx} && !Live(frames[idx])
                && SameLive(old(frames[..]), frames[..], {idx})
                && availablePages == old(availablePages) + 1
                && usagePages == old(usagePages)
                && Rejoined(old(pageList[..]), pageList[..], frames[..], old(frames[idx].order), idx)
    {
      hide AtRest, InTransit, Pool.FreeSet, Pow2;
      if !frames[idx].reserved { return Err(ENoLck); }
      ghost var s := State({});
      ghost var c := Books();
      ReleaseReserved(s, c, idx);
      ReservedIsPlain(s, c, idx);
      assert LessUse(usagePages, frames[idx]) == usagePages;
      frames[idx] := frames[idx].(reserved := false);
      assert State({idx}) == Release(s, idx);
      ClearedPage(State({}), Release(s, idx), Books(1), idx);
      assert Books(1) == c.(available := c.available + 1);
      EnqueuePageToBuddyPool(idx, 1);
      ghost var d := Books(1);
      availablePages := availablePages + 1;
      assert Books() == d;
      OnePage(idx);
      return Ok(());
    }

    /** `pfdb_mark_phys_range_reserved`, over pages [lo, hi): the first page must head a free
        block and the range be free; then every further page heads a free block when its
        turn comes. */
    method MarkRangeReserved(lo: nat, hi: nat)
      requires Valid() && lo <= hi
      requires Pages(lo, hi) <= Free() && (lo < hi ==> State({}).IsFree(lo))
      modifies this`hd, this`availablePages, frames, pageList, freeNr
      ensures Valid() && Free() == old(Free()) - Pages(lo, hi)
      ensures hi <= frames.Length || lo == hi
      ensures forall p | lo <= p < hi :: frames[p].reserved
      ensures SameLive(old(frames[..]), frames[..], Pages(lo, hi))
      ensures availablePages == old(availablePages) - (hi - lo)
    {
      hide AtRest, Pool.FreeSet;
      var i := lo;
      while i < hi
        invariant lo <= i <= hi && Valid()
        invariant i == lo || i <= frames.Length
        invariant Free() == old(Free()) - Pages(lo, i)
        invariant i < hi ==> State({}).IsFree(i)
        invariant forall p | lo <= p < i :: frames[p].reserved
        invariant SameLive(old(frames[..]), frames[..], Pages(lo, i))
        invariant availablePages == old(availablePages) - (i - lo)
      {
        ghost var was := frames[..];
        MarkPageReserved(i);
        NextPage(lo, i);
        if i + 1 < hi {
          assert Between(i + 1, lo, hi) && i + 1 in Pages(lo, hi) && i + 1 !in Pages(lo, i + 1);
          NextIsHead(State({}), Books(), i);
        }
        i := i + 1;
      }
    }

    /** `pfdb_unmark_phys_range_reserved`, over the reserved pages [lo, hi). */
    method UnmarkRangeReserved(lo: nat, hi: nat)
      requires Valid() && lo <= hi <= frames.Length
      requires forall p | lo <= p < hi :: frames[p].reserved
      modifies this`hd, this`usagePages, this`availablePages, frames, pageList, freeNr
      ensures Valid() && Free() == old(Free()) + Pages(lo, hi)
      ensures SameLive(old(frames[..]), frames[..], Pages(lo, hi))
      ensures availablePages == old(availablePages) + (hi - lo)
      ensures usagePages == old(usagePages)
    {
      hide AtRest, Pool.FreeSet;
      var i := lo;
      while i < hi
        invariant lo <= i <= hi && Valid()
        invariant Free() == old(Free()) + Pages(lo, i)
        invariant forall p | i <= p < hi :: frames[p].reserved
        invariant SameLive(old(frames[..]), frames[..], Pages(lo, i))
        invariant availablePages == old(availablePages) + (i - lo)
        invariant usagePages == old(usagePages)
      {
        var r := UnmarkPageReserved(i);
        assert r.Ok?;
        NextPage(lo, i);
        i := i + 1;
      }
    }

    /** The test of `remove_pfdb_ent_common`: busy exactly while some block is in use. */
    method CheckRemovable() returns (r: Result<()>)
      requires Valid()
      ensures r == (if exists i | 0 <= i < frames.Length :: frames[i].used then Err(EBusy) else Ok(()))
    {
      hide AtRest;
      var freePages := 0;
      var order := 0;
      while order < freeNr.Length
        invariant 0 <= order <= freeNr.Length && freePages == FreePages(freeNr[..], order)
      {
        freePages := freePages + freeNr[order] * Pow2(order);
        order := order + 1;
      }
      RestAvailable(State({}), Books());
      if availablePages != freePages { return Err(EBusy); }
      return Ok(());
    }

    /** `pfdb_add`: a region of n pages whose pages from `managed` on hold the frame array
        itself and stay reserved. */
    constructor (n: nat, orders: nat, managed: nat)
      requires 0 < orders && managed <= n
      ensures Valid() && frames.Length == n && pageList.Length == orders
      ensures Free() == Pages(0, managed) && availablePages == managed
      ensures FreePages(freeNr[..], freeNr.Length) == managed
      ensures fresh(frames) && fresh(pageList) && fresh(freeNr)
    {
      frames := new Frame[n](_ => Blank());
      pageList := new seq<nat>[orders](_ => []);
      freeNr := new int[orders](_ => 0);
      availablePages := 0;
      usagePages := map[Kern := 0, KStack := 0, PgTbl := 0, Slab := 0, Anon := 0, PCache := 0];
      hd := seq(n, p => p);
      new;
      forall u: Usage ensures u in usagePages && usagePages[u] == 0 {
        assert u == Kern || u == KStack || u == PgTbl || u == Slab || u == Anon || u == PCache;
      }
      FreshPool(State({}), Books());
      ReleaseManaged(managed);
    }

    /** The second loop of `pfdb_add`: release every page in front of the frame array. */
    method ReleaseManaged(managed: nat)
      requires Valid() && Free() == {} && availablePages == 0 && managed <= frames.Length
      requires forall p | 0 <= p < frames.Length :: frames[p].reserved && !frames[p].used
      modifies this`hd, this`usagePages, this`availablePages, frames, pageList, freeNr
      ensures Valid() && Free() == Pages(0, managed) && availablePages == managed
      ensures FreePages(freeNr[..], freeNr.Length) == managed
    {
      hide AtRest, Pool.FreeSet;
      var i := 0;
      while i < frames.Length
        invariant 0 <= i <= frames.Length && Valid()
        invariant Free() == Pages(0, if i < managed then i else managed)
        invariant availablePages == if i < managed then i else managed
        invariant forall p | i <= p < frames.Length :: frames[p].reserved
        invariant forall p | 0 <= p < frames.Length :: !frames[p].used
      {
        if i < managed {
          ghost var was := frames[..];
          var r := UnmarkPageReserved(i);
          NextPage(0, i);
          assert forall p: nat | p < frames.Length && p != i && (Live(was[p]) || Live(frames[p])) ::
              was[p] == frames[p];
        }
        i := i + 1;
      }
      RestAvailable(State({}), Books());
    }
  }

  /** Queue k is the first one from the order on that is not empty. */
  ghost predicate FirstFit(lists: seq<seq<nat>>, order: nat, k: nat) {
    order <= k < |lists| && lists[k] != [] && forall j | order <= j < k :: lists[j] == []
  }

  /** The upper half of block idx at each order from lo up to hi came last in its queue. */
  ghost predicate HalvesQueued(was: seq<seq<nat>>, now: seq<seq<nat>>, idx: nat, lo: nat, hi: nat) {
    && |now| == |was|
    && forall j | 0 <= j < |was| :: now[j] == if lo <= j < hi then was[j] + [idx + Pow2(j)] else was[j]
  }

  /** The free block idx of order k left its queue, and all of it but its first page was queued again. */
  ghost predicate TakenApart(was: seq<seq<nat>>, now: seq<seq<nat>>, k: nat, idx: nat) {
    k < |was| && exists q :: LeftOut(was[k], q, idx) && HalvesQueued(was[k := q], now, idx, 0, k)
  }

  /** One block left each queue from order lo up to hi. */
  ghost predicate JoinedUpTo(was: seq<seq<nat>>, now: seq<seq<nat>>, lo: nat, hi: nat) {
    && |now| == |was|
    && forall j | 0 <= j < |was| :: if lo <= j < hi then OneGone(was[j], now[j]) else now[j] == was[j]
  }

  ghost predicate OneGone(q: seq<nat>, r: seq<nat>) {
    exists x :: LeftOut(q, r, x)
  }

  /** The block of order k that starts at idx was joined with one block of each order from k on below that
      of the result, which came last in its queue. */
  ghost predicate Rejoined(was: seq<seq<nat>>, now: seq<seq<nat>>, frames: seq<Frame>, k: nat, idx: nat) {
    exists h, q :: Requeued(was, q, now, frames, k, idx, h)
  }

  ghost predicate Requeued(was: seq<seq<nat>>, q: seq<seq<nat>>, now: seq<seq<nat>>, frames: seq<Frame>, k: nat,
                           idx: nat, h: nat) {
    && h < |frames| && var top := frames[h].order;
    && JoinedUpTo(was, q, k, top) && Block(idx, k) <= Block(h, top)
    && top < |q| && now == q[top := q[top] + [h]]
  }

  lemma HalvesStart(lists: seq<seq<nat>>, idx: nat, k: nat)
    ensures HalvesQueued(lists, lists, idx, k, k)
  {
  }

  lemma HalvesNext(was: seq<seq<nat>>, now: seq<seq<nat>>, idx: nat, lo: nat, hi: nat)
    requires HalvesQueued(was, now, idx, lo + 1, hi) && lo < hi && lo < |was|
    ensures HalvesQueued(was, now[lo := now[lo] + [idx + Pow2(lo)]], idx, lo, hi)
  {
  }

  lemma UpperHalf(s: Pool, c: Counters, h: nat, k: nat)
    requires Taken(s, c, h) && k < s.frames[h].order
    ensures Flip(h, k) == h + Pow2(k) && s.frames[h].order < |s.lists|
  {
    TakenAligned(s, c, h, k + 1);
    LowerAlignment(h, k);
    HalfOfParent(h, k);
    TransitFits(s, c, h);
  }

  lemma ApartNow(was: seq<seq<nat>>, now: seq<seq<nat>>, k: nat, idx: nat)
    requires k < |was| && idx in was[k] && HalvesQueued(was[k := Unlink(was[k], idx)], now, idx, 0, k)
    ensures TakenApart(was, now, k, idx)
  {
    WithoutLeaves(was[k], idx);
    assert Unlink(was[k], idx) == Without(was[k], idx);
  }

  lemma JoinedStart(lists: seq<seq<nat>>, k: nat)
    ensures JoinedUpTo(lists, lists, k, k)
  {
  }

  lemma JoinedNext(was: seq<seq<nat>>, now: seq<seq<nat>>, lo: nat, k: nat, b: nat)
    requires JoinedUpTo(was, now, lo, k) && lo <= k < |now| && b in now[k]
    ensures JoinedUpTo(was, now[k := Unlink(now[k], b)], lo, k + 1)
  {
    WithoutLeaves(now[k], b);
    assert Unlink(now[k], b) == Without(now[k], b);
    hide LeftOut;
  }

  lemma RejoinedNow(was: seq<seq<nat>>, q: seq<seq<nat>>, now: seq<seq<nat>>, frames: seq<Frame>, k: nat, idx: nat,
                    h: nat)
    requires h < |frames| && JoinedUpTo(was, q, k, frames[h].order) && Block(idx, k) <= Block(h, frames[h].order)
    requires frames[h].order < |q| && now == q[frames[h].order := q[frames[h].order] + [h]]
    ensures Rejoined(was, now, frames, k, idx)
  {
    assert Requeued(was, q, now, frames, k, idx, h);
  }

  /** The buddy that a block is joined with stands in its queue. */
  lemma BuddyQueued(s: Pool, c: Counters, h: nat)
    requires InTransit(s, c, h) && h < |s.frames| && CanMerge(s, h)
    ensures Flip(h, s.frames[h].order) in s.lists[s.frames[h].order]
    ensures var k := s.frames[h].order; Block(h, k) <= Block(MaskLow(h, k + 1), k + 1)
  {
    var k := s.frames[h].order;
    BuddyIsHead(s, h);
    HalfOfParent(h, k);
    BlockHalves(MaskLow(h, k + 1), k);
  }

  lemma HeadQueued(s: Pool, c: Counters, h: nat)
    requires AtRest(s, c) && s.IsFree(h) && s.frames[h].order < |s.lists|
    ensures h in s.lists[s.frames[h].order]
  {
  }

  /** A page as pfdb_add leaves it: reserved, of order 0. */
  function Blank(): Frame {
    Frame(0, false, true, false, {}, None, 0)
  }

  ghost predicate Between(p: nat, lo: nat, hi: nat) {
    lo <= p < hi
  }

  ghost function Pages(lo: nat, hi: nat): set<nat> {
    set p: nat | lo <= p < hi && Between(p, lo, hi)
  }

  lemma NextPage(lo: nat, i: nat)
    requires lo <= i
    ensures Pages(lo, i + 1) == Pages(lo, i) + {i}
  {
    forall p: nat ensures p in Pages(lo, i + 1) <==> p in Pages(lo, i) || p == i {
      assert p in Pages(lo, i + 1) <==> Between(p, lo, i + 1);
      assert p in Pages(lo, i) <==> Between(p, lo, i);
    }
  }

  /** Allocating a block and giving it back restores every free block and every counter. */
  method DequeueThenFree(pool: PagePool, order: nat, usage: Usage) returns (r: Result<nat>)
    requires pool.Valid()
    modifies pool, pool.frames, pool.pageList, pool.freeNr
    ensures pool.Valid()
    ensures forall k | 0 <= k < pool.pageList.Length :: multiset(pool.pageList[k]) == multiset(old(pool.pageList[k]))
    ensures pool.Books() == old(pool.Books())
  {
    hide AtRest, Pool.FreeSet, HasRun, Pow2, Aligned;
    ghost var s := pool.State({});
    ghost var c := pool.Books();
    r := pool.DequeuePage(order, usage);
    if r.Ok? {
      var last := pool.DecPageUseCount(r.value);
      assert pool.Free() == s.FreeSet();
      assert pool.usagePages == c.usagePages;
      SamePagesSameBooks(s, c, pool.State({}), pool.Books());
    }
  }

  /** Reserving a free range and releasing it again restores every free block and counter. */
  method ReserveThenUnreserve(pool: PagePool, lo: nat, hi: nat)
    requires pool.Valid() && lo <= hi <= pool.frames.Length
    requires Pages(lo, hi) <= pool.Free() && (lo < hi ==> pool.State({}).IsFree(lo))
    modifies pool, pool.frames, pool.pageList, pool.freeNr
    ensures pool.Valid()
    ensures forall k | 0 <= k < pool.pageList.Length :: multiset(pool.pageList[k]) == multiset(old(pool.pageList[k]))
    ensures pool.Books() == old(pool.Books())
  {
    hide AtRest, Pool.FreeSet, HasRun, Pow2, Aligned;
    ghost var s := pool.State({});
    ghost var c := pool.Books();
    pool.MarkRangeReserved(lo, hi);
    pool.UnmarkRangeReserved(lo, hi);
    assert pool.Free() == s.FreeSet();
    SamePagesSameBooks(s, c, pool.State({}), pool.Books());
  }
}
