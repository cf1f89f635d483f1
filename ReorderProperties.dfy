/** What the shared rules promise across calls: no self-moves, the threshold's effect on
    concrete drags, the correction of the level-drag case, the displacement right after a
    press, and the overshoot's meaning. */
module ReorderProperties {
  import opened LazyLayout
  import opened ReorderPolicy

  // ---------------------------------------------------------------- selection

  /** On a contiguous layout the dragged index is the live item's index, so a move never
      targets the dragged index itself, and both ends of the move are visible indices. */
  lemma NoSelfMove(initial: ItemInfo, currentIndex: int, distance: int, layout: LayoutInfo)
    requires |layout.visible| > 0 && Contiguous(layout.visible)
    ensures var m := NextMove(Some(initial), Some(currentIndex), distance, layout);
            m.Some? ==> m.value.from != m.value.to &&
                        (exists k :: 0 <= k < |layout.visible| && layout.visible[k].index == m.value.from) &&
                        (exists k :: 0 <= k < |layout.visible| && layout.visible[k].index == m.value.to)
  {
    var m := NextMove(Some(initial), Some(currentIndex), distance, layout);
    if m.Some? {
      VisibleItemInfoForByIndex(layout, currentIndex);
      var live := VisibleItemInfoFor(layout, currentIndex).value;
      var pos := currentIndex - layout.visible[0].index;
      assert layout.visible[pos].index == m.value.from;
      var target := DragTarget(Some(initial), Some(currentIndex), distance, layout).value;
      var t :| 0 <= t < |layout.visible| && layout.visible[t] == target;
      assert layout.visible[t].index == m.value.to;
    }
  }

  /** Right after a successful press, before any vertical movement and on the same contiguous
      layout, the controller proposes no move (the corrected threshold). */
  lemma NoMoveBeforeVerticalMovement(layout: LayoutInfo, y: int)
    requires Contiguous(layout.visible)
    requires HitTest(layout.visible, y).Some?
    ensures var it := HitTest(layout.visible, y).value;
            NextMove(Some(it), Some(it.index), 0, layout) == None
  {
    var it := HitTest(layout.visible, y).value;
    var k :| 0 <= k < |layout.visible| && layout.visible[k] == it;
    VisibleItemInfoForAt(layout, k);
  }

  // ---------------------------------------------------------------- concrete drags

  /** `n` items of height 50 stacked from offset 0 (at 0, 50, 100, …), the first visible
      one being index 0, with keys equal to their indices. */
  predicate Stacked(visible: seq<ItemInfo>, n: nat)
  {
    |visible| == n && forall k :: 0 <= k < n ==> visible[k] == ItemInfo(k, k, 50 * k, 50)
  }

  /** On five stacked items, a press at y = 30 holds item 0; a drag of 60 gives the virtual
      extent [60, 110], which has fully passed item 1 ([50, 100]): the move (0, 1) is
      emitted, deferred with the anchor restore because index 0 is the first visible item. */
  lemma FiveItemsDragDown(layout: LayoutInfo)
    requires Stacked(layout.visible, 5) && layout.firstVisibleItemIndex == 0
    ensures HitTest(layout.visible, 30) == Some(layout.visible[0])
    ensures NextMove(Some(layout.visible[0]), Some(0), 60, layout) == Some(MoveRequest(0, 1, true))
  {
    var v := layout.visible;
    FiveItemsPressAt30(v);
    FiveItemsPassItem1(v);
    assert VisibleItemInfoFor(layout, 0) == Some(v[0]);
  }

  /** The press at y = 30 lands on item 0: it is the first item containing that point. */
  lemma FiveItemsPressAt30(v: seq<ItemInfo>)
    requires Stacked(v, 5)
    ensures HitTest(v, 30) == Some(v[0])
  {
    var p := item => Contains(item, 30);
    assert p(v[0]);
    assert FirstIndex(v, p) == 0;
  }

  /** Extent [60, 110] against the live item 0: item 1 is the first fully passed item. */
  lemma FiveItemsPassItem1(v: seq<ItemInfo>)
    requires Stacked(v, 5)
    ensures SelectTarget(v, 60, 110, v[0]) == Some(v[1])
  {
    var p := item => IsSwapCandidate(item, 60, 110, v[0]);
    assert p(v[1]) && !p(v[0]);
    assert FirstIndex(v, p) == 1;
  }

  /** Hysteresis: after that move, and before the host has laid the list out again, a
      further 5 pixels down (distance 65, extent [65, 115]) proposes nothing, since item 2
      ([100, 150]) is not yet fully passed. */
  lemma FiveItemsNoSecondMove(layout: LayoutInfo)
    requires Stacked(layout.visible, 5)
    ensures NextMove(Some(layout.visible[0]), Some(1), 65, layout) == None
  {
    var v := layout.visible;
    assert VisibleItemInfoFor(layout, 1) == Some(v[1]);
    forall k | 0 <= k < 5 ensures !IsSwapCandidate(v[k], 65, 115, v[1]) {
    }
  }

  /** As the source is written, a drag event with no vertical component straight after the
      press (distance 0) already moves item 0 below item 1: the level case falls into the
      upward branch, and item 1 touches item 0 at offset 50. The corrected rule selects
      nothing. */
  lemma HorizontalWiggleMovesAsWritten(v: seq<ItemInfo>)
    requires Stacked(v, 5)
    ensures HitTest(v, 30) == Some(v[0])
    ensures SelectTargetAsWritten(v, 0, 50, v[0]) == Some(v[1])
    ensures SelectTarget(v, 0, 50, v[0]) == None
  {
    FiveItemsPressAt30(v);
    LevelDragSelectsItem1AsWritten(v);
    assert SelectTarget(v, 0, 50, v[0]) == None by {
      forall item | item in v ensures !IsSwapCandidate(item, 0, 50, v[0]) {
      }
    }
  }

  /** The source's rule at distance 0 on five stacked items: item 1 is the first
      candidate, since it touches item 0 and its top lies below item 0's top. */
  lemma LevelDragSelectsItem1AsWritten(v: seq<ItemInfo>)
    requires Stacked(v, 5)
    ensures SelectTargetAsWritten(v, 0, 50, v[0]) == Some(v[1])
  {
    var p := item => IsSwapCandidateAsWritten(item, 0, 50, v[0]);
    assert p(v[1]) && !p(v[0]);
    assert FirstIndex(v, p) == 1;
  }

  /** The whole drag event as the source handles it: after the press at y = 30 on five
      stacked items, a drag event with no vertical component emits `onMove(0, 1)`, deferred
      with the anchor restore; the corrected controller emits nothing. */
  lemma LevelDragEmitsMoveAsWritten(layout: LayoutInfo)
    requires Stacked(layout.visible, 5) && layout.firstVisibleItemIndex == 0
    ensures HitTest(layout.visible, 30) == Some(layout.visible[0])
    ensures NextMoveAsWritten(Some(layout.visible[0]), Some(0), 0, layout) == Some(MoveRequest(0, 1, true))
    ensures NextMove(Some(layout.visible[0]), Some(0), 0, layout) == None
  {
    var v := layout.visible;
    FiveItemsPressAt30(v);
    assert VisibleItemInfoFor(layout, 0) == Some(v[0]);
    assert DragTargetAsWritten(Some(v[0]), Some(0), 0, layout) == Some(v[1]) by {
      LevelDragSelectsItem1AsWritten(v);
      DragTargetsAt(v[0], 0, 0, layout, v[0]);
    }
    assert DragTarget(Some(v[0]), Some(0), 0, layout) == None by {
      HorizontalWiggleMovesAsWritten(v);
      DragTargetsAt(v[0], 0, 0, layout, v[0]);
    }
  }

  /** One drag event that carries item 2 of ten stacked items by 160 in a single step
      (virtual extent [260, 310]) emits the single move (2, 5): items 3 and 4 lie wholly
      above the extent and are filtered out, so the intermediate moves (2, 3), (3, 4) are
      never proposed. */
  lemma BigDeltaSkipsIntermediate(layout: LayoutInfo)
    requires Stacked(layout.visible, 10) && layout.firstVisibleItemIndex == 0
    ensures NextMove(Some(layout.visible[2]), Some(2), 160, layout) == Some(MoveRequest(2, 5, false))
  {
    var v := layout.visible;
    assert VisibleItemInfoFor(layout, 2) == Some(v[2]);
    var p := item => IsSwapCandidate(item, 260, 310, v[2]);
    forall j | 0 <= j < 5 ensures !p(v[j]) {
    }
    assert p(v[5]);
    assert FirstIndex(v, p) == 5;
  }

  // ---------------------------------------------------------------- rendering

  /** Right after a successful press, with distance 0 and the layout unchanged, the dragged
      item is drawn exactly where it lies: the displacement is 0. */
  lemma DisplacementZeroAtStart(layout: LayoutInfo, y: int)
    requires Contiguous(layout.visible)
    requires HitTest(layout.visible, y).Some?
    ensures var it := HitTest(layout.visible, y).value;
            ItemDisplacement(Some(it), 0, Some(it.index), layout) == Some(0)
  {
    var it := HitTest(layout.visible, y).value;
    var k :| 0 <= k < |layout.visible| && layout.visible[k] == it;
    VisibleItemInfoForAt(layout, k);
  }

  // ---------------------------------------------------------------- auto-scroll

  /** With a viewport [0, 1000] and an item of height 100: a virtual top edge at -20 gives
      -20, a virtual bottom edge at 1030 gives 30, and a drag that crosses no edge gives 0. */
  lemma OverScrollExamples()
    ensures OverScroll(Some(ItemInfo(0, 0, 0, 100)), -20, LayoutInfo([], 0, 1000, 0, 0)) == -20
    ensures OverScroll(Some(ItemInfo(9, 9, 900, 100)), 30, LayoutInfo([], 0, 1000, 0, 0)) == 30
    ensures OverScroll(Some(ItemInfo(4, 4, 400, 100)), 30, LayoutInfo([], 0, 1000, 0, 0)) == 0
    ensures OverScroll(None, 30, LayoutInfo([], 0, 1000, 0, 0)) == 0
  {
  }

  /** The overshoot is exactly the scroll that brings the dragged item's edge back to the
      viewport edge: against a viewport shifted by it, there is nothing left to scroll. */
  lemma OverScrollSettles(initial: Option<ItemInfo>, distance: int, layout: LayoutInfo)
    ensures var r := OverScroll(initial, distance, layout);
            OverScroll(initial, distance,
                       layout.(viewportStartOffset := layout.viewportStartOffset + r,
                               viewportEndOffset := layout.viewportEndOffset + r)) == 0
  {
  }

  /** At most one scroll in flight: while a job is active, any overshoot leaves the job as
      it is and launches nothing; a launch only ever replaces an inactive job. */
  lemma SingleScrollInFlight(job: Option<ScrollJob>, overshoot: int)
    ensures IsActive(job) ==> AfterScrollAction(job, GateOverScroll(job, overshoot)) == job
    ensures GateOverScroll(job, overshoot).LaunchScrollBy? ==> !IsActive(job)
  {
  }

  /** Cancelling is idempotent, so a second interruption leaves the job as the first left
      it (and every other field is already reset): `onDragInterrupted` is idempotent. */
  lemma CancelIdempotent(job: Option<ScrollJob>)
    ensures Cancel(Cancel(job)) == Cancel(job)
  {
  }
}
