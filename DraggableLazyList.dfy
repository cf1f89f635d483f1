/** `DraggableLazyListState` of `ui/Reorderable.kt` and the `DraggableLazyColumn` host that
    drives it. In this variant the controller only moves; the host's `onDrag` lambda owns a
    local scroll job and gates auto-scroll itself. The controller's own `overscrollJob` is
    never assigned, so cancelling it on interruption stops nothing. */
module DraggableLazyList {
  import opened LazyLayout
  import opened ReorderPolicy

  class DraggableLazyListState {
    var draggedDistance: int
    var initialDraggedItem: Option<ItemInfo>
    var currentDraggedItemIndex: Option<int>
    /** Declared by the class and cancelled on interruption, but never assigned. */
    var overscrollJob: Option<ScrollJob>

    ghost predicate Valid()
      reads this
    {
      (initialDraggedItem.Some? <==> currentDraggedItemIndex.Some?) && overscrollJob.None?
    }

    ghost predicate Idle()
      reads this
    {
      initialDraggedItem.None? && currentDraggedItemIndex.None? && draggedDistance == 0
    }

    constructor ()
      ensures Valid() && Idle()
    {
      draggedDistance := 0;
      initialDraggedItem := None;
      currentDraggedItemIndex := None;
      overscrollJob := None;
    }

    /** `itemDisplacement`: the translation that keeps the dragged item under the finger. */
    function ItemDisplacement(layout: LayoutInfo): (r: Option<int>)
      reads this
      requires Valid()
      requires currentDraggedItemIndex.Some? ==> |layout.visible| > 0
      ensures r.Some? <==> currentDraggedItemIndex.Some? &&
                           VisibleItemInfoFor(layout, currentDraggedItemIndex.value).Some?
      ensures r.Some? ==> VisibleItemInfoFor(layout, currentDraggedItemIndex.value).value.offset + r.value ==
                          initialDraggedItem.value.offset + draggedDistance
    {
      ReorderPolicy.ItemDisplacement(initialDraggedItem, draggedDistance, currentDraggedItemIndex, layout)
    }

    /** `checkForOverScroll` (public here): no overshoot without a held item or without net
        movement, and a non-zero overshoot points in the direction of the drag. */
    function CheckForOverScroll(layout: LayoutInfo): (r: int)
      reads this
      ensures initialDraggedItem.None? || draggedDistance == 0 ==> r == 0
      ensures r > 0 <==> initialDraggedItem.Some? && draggedDistance > 0 &&
                         VirtualEnd(initialDraggedItem.value, draggedDistance) > layout.viewportEndOffset
      ensures r < 0 <==> initialDraggedItem.Some? && draggedDistance < 0 &&
                         VirtualStart(initialDraggedItem.value, draggedDistance) < layout.viewportStartOffset
      ensures r > 0 ==> r == VirtualEnd(initialDraggedItem.value, draggedDistance) - layout.viewportEndOffset
      ensures r < 0 ==> r == VirtualStart(initialDraggedItem.value, draggedDistance) - layout.viewportStartOffset
    {
      OverScroll(initialDraggedItem, draggedDistance, layout)
    }

    /** `onDragStart`: hold the first visible item whose interval contains the pointer's
        (truncated) y; on a miss, leave everything as it was. The trailing `log` call looks
        up the live dragged item, which calls `first()` on the visible list whenever an index
        is held, hence the demand on a non-empty list in that case. */
    method OnDragStart(layout: LayoutInfo, y: int)
      requires Valid()
      requires currentDraggedItemIndex.Some? ==> |layout.visible| > 0
      modifies this
      ensures Valid()
      ensures HitTest(layout.visible, y).Some? ==>
                initialDraggedItem == HitTest(layout.visible, y) &&
                currentDraggedItemIndex == Some(HitTest(layout.visible, y).value.index)
      ensures HitTest(layout.visible, y).None? ==>
                initialDraggedItem == old(initialDraggedItem) &&
                currentDraggedItemIndex == old(currentDraggedItemIndex)
      ensures draggedDistance == old(draggedDistance)
    {
      var hit := HitTest(layout.visible, y);
      if hit.Some? {
        currentDraggedItemIndex := Some(hit.value.index);
        initialDraggedItem := hit;
      }
    }

    /** `onDragInterrupted`: forget the drag; the cancel of the never-assigned job is a no-op. */
    method OnDragInterrupted()
      requires Valid()
      modifies this
      ensures Valid() && Idle()
    {
      draggedDistance := 0;
      currentDraggedItemIndex := None;
      initialDraggedItem := None;
      overscrollJob := Cancel(overscrollJob);
    }

    /** `onDrag`: add the delta; then, while an item is held, emit at most one move towards
        the first fully overtaken neighbour (deferred with an anchor restore when either index
        is the first visible one) and follow it with the dragged index. */
    method OnDrag(layout: LayoutInfo, dy: int) returns (move: Option<MoveRequest>)
      requires Valid()
      requires currentDraggedItemIndex.Some? ==> |layout.visible| > 0
      modifies this
      ensures Valid()
      ensures draggedDistance == old(draggedDistance) + dy
      ensures initialDraggedItem == old(initialDraggedItem)
      ensures move == NextMove(old(initialDraggedItem), old(currentDraggedItemIndex), draggedDistance, layout)
      ensures !LevelDrag(old(initialDraggedItem), old(currentDraggedItemIndex), draggedDistance, layout) ==>
                move == NextMoveAsWritten(old(initialDraggedItem), old(currentDraggedItemIndex), draggedDistance, layout)
      ensures currentDraggedItemIndex == if move.Some? then Some(move.value.to) else old(currentDraggedItemIndex)
    {
      move := None;
      draggedDistance := draggedDistance + dy;
      if !LevelDrag(initialDraggedItem, currentDraggedItemIndex, draggedDistance, layout) {
        NextMoveAgreesUnlessLevel(initialDraggedItem, currentDraggedItemIndex, draggedDistance, layout);
      }
      if initialDraggedItem.Some? {
        var current := currentDraggedItemIndex.value;
        var target := DragTarget(initialDraggedItem, currentDraggedItemIndex, draggedDistance, layout);
        if target.Some? {
          var to := target.value.index;
          var deferred := to == layout.firstVisibleItemIndex || current == layout.firstVisibleItemIndex;
          move := Some(MoveRequest(current, to, deferred));
          currentDraggedItemIndex := Some(to);
        }
      }
    }
  }

  /** The `DraggableLazyColumn` composable's gesture wiring: its local `overscrollJob` and the
      three callbacks it hands to the long-press drag detector. */
  class DraggableLazyColumnHost {
    const state: DraggableLazyListState
    var overscrollJob: Option<ScrollJob>

    constructor ()
      ensures fresh(state) && state.Valid() && state.Idle() && overscrollJob == None
    {
      state := new DraggableLazyListState();
      overscrollJob := None;
    }

    /** `onDragStart = draggableLazyListState::onDragStart`. */
    method OnDragStart(layout: LayoutInfo, y: int)
      requires state.Valid()
      requires state.currentDraggedItemIndex.Some? ==> |layout.visible| > 0
      modifies state
      ensures state.Valid()
      ensures HitTest(layout.visible, y).Some? ==>
                state.initialDraggedItem == HitTest(layout.visible, y) &&
                state.currentDraggedItemIndex == Some(HitTest(layout.visible, y).value.index)
      ensures HitTest(layout.visible, y).None? ==>
                state.initialDraggedItem == old(state.initialDraggedItem) &&
                state.currentDraggedItemIndex == old(state.currentDraggedItemIndex)
      ensures state.draggedDistance == old(state.draggedDistance)
      ensures overscrollJob == old(overscrollJob)
    {
      state.OnDragStart(layout, y);
    }

    /** The `onDrag` lambda: always forward the delta; then, unless the local job is still
        active, launch one `scrollBy` for a non-zero overshoot or cancel the job for a zero
        one. The overshoot is read after the forwarded drag, so it sees the new distance. */
    method OnDrag(layout: LayoutInfo, dy: int) returns (move: Option<MoveRequest>, scroll: ScrollAction)
      requires state.Valid()
      requires state.currentDraggedItemIndex.Some? ==> |layout.visible| > 0
      modifies this, state
      ensures state.Valid()
      ensures state.draggedDistance == old(state.draggedDistance) + dy
      ensures state.initialDraggedItem == old(state.initialDraggedItem)
      ensures move == NextMove(old(state.initialDraggedItem), old(state.currentDraggedItemIndex),
                               state.draggedDistance, layout)
      ensures !LevelDrag(old(state.initialDraggedItem), old(state.currentDraggedItemIndex),
                         state.draggedDistance, layout) ==>
                move == NextMoveAsWritten(old(state.initialDraggedItem), old(state.currentDraggedItemIndex),
                                          state.draggedDistance, layout)
      ensures state.currentDraggedItemIndex ==
                if move.Some? then Some(move.value.to) else old(state.currentDraggedItemIndex)
      ensures scroll == GateOverScroll(old(overscrollJob), state.CheckForOverScroll(layout))
      ensures overscrollJob == AfterScrollAction(old(overscrollJob), scroll)
    {
      move := state.OnDrag(layout, dy);
      if IsActive(overscrollJob) {
        scroll := StillScrolling;
        return;
      }
      var overshoot := state.CheckForOverScroll(layout);
      if overshoot != 0 {
        scroll := LaunchScrollBy(overshoot);
        overscrollJob := Some(ScrollJob(overshoot, true));
      } else {
        scroll := CancelScroll;
        overscrollJob := Cancel(overscrollJob);
      }
    }

    /** `onDragEnd` / `onDragCancel = draggableLazyListState::onDragInterrupted`: the drag is
        forgotten, but the host's own scroll job is left running. */
    method OnDragInterrupted()
      requires state.Valid()
      modifies state
      ensures state.Valid() && state.Idle()
      ensures overscrollJob == old(overscrollJob)
    {
      state.OnDragInterrupted();
    }

    /** The launched `scrollBy` coroutine running to completion (an event of the host's
        coroutine scope, not a member of the composable). */
    method FinishScrollJob()
      modifies this
      ensures !IsActive(overscrollJob)
    {
      overscrollJob := Cancel(overscrollJob);
    }
  }
}
