/** `ReorderableLazyListState` of the `ui.reorderable` package: the drag-to-reorder
    controller that gates its own auto-scroll job. Each gesture callback receives the host's
    current layout snapshot; the `onMove` call and the auto-scroll decision it makes are
    returned to the caller instead of being performed. */
module ReorderableLazyList {
  import opened LazyLayout
  import opened ReorderPolicy

  class ReorderableLazyListState {
    /** The item under the finger at drag start, frozen at its pre-drag geometry. */
    var initialDraggedItem: Option<ItemInfo>
    /** The logical index currently treated as the dragged item; follows every move. */
    var currentDraggedItemIndex: Option<int>
    /** Sum of the vertical drag deltas since the last interruption. */
    var draggedDistance: int
    /** The auto-scroll coroutine last launched, if any. */
    var overscrollJob: Option<ScrollJob>

    /** A drag is either fully held (item and index) or not at all. */
    ghost predicate Valid()
      reads this
    {
      initialDraggedItem.Some? <==> currentDraggedItemIndex.Some?
    }

    /** The state of a fresh controller, up to the identity of a finished job. */
    ghost predicate Idle()
      reads this
    {
      initialDraggedItem.None? && currentDraggedItemIndex.None? && draggedDistance == 0 &&
      !IsActive(overscrollJob)
    }

    constructor ()
      ensures Valid() && Idle() && overscrollJob == None
    {
      initialDraggedItem := None;
      currentDraggedItemIndex := None;
      draggedDistance := 0;
      overscrollJob := None;
    }

    /** `currentDraggedItemKey`: the key of the held item, which no move changes; present
        exactly while a drag is held. */
    function CurrentDraggedItemKey(): (k: Option<int>)
      reads this
      requires Valid()
      ensures k.Some? <==> currentDraggedItemIndex.Some?
      ensures k.Some? ==> k.value == initialDraggedItem.value.key
    {
      match initialDraggedItem
      case None => None
      case Some(it) => Some(it.key)
    }

    /** `itemDisplacement`: the translation that keeps the dragged item under the finger. */
    function ItemDisplacement(layout: LayoutInfo): (r: Option<int>)
      reads this
      requires Valid()
      requires currentDraggedItemIndex.Some? ==> |layout.visible| > 0
      ensures r.Some? <==> currentDraggedItemIndex.Some? &&
                           VisibleItemInfoFor(layout, currentDraggedItemIndex.value).Some?
      ensures r.Some? ==> VisibleItemInfoFor(layout, currentDraggedItemIndex.value).value.offset + r.value ==
                          initialDraggedItem.value.offset + draggedDistance
    {
      ReorderPolicy.ItemDisplacement(initialDraggedItem, draggedDistance, currentDraggedItemIndex, layout)
    }

    /** `checkForOverScroll`: no overshoot without a held item or without net movement, and
        a non-zero overshoot points in the direction of the drag. */
    function CheckForOverScroll(layout: LayoutInfo): (r: int)
      reads this
      ensures initialDraggedItem.None? || draggedDistance == 0 ==> r == 0
      ensures r > 0 <==> initialDraggedItem.Some? && draggedDistance > 0 &&
                         VirtualEnd(initialDraggedItem.value, draggedDistance) > layout.viewportEndOffset
      ensures r < 0 <==> initialDraggedItem.Some? && draggedDistance < 0 &&
                         VirtualStart(initialDraggedItem.value, draggedDistance) < layout.viewportStartOffset
      ensures r > 0 ==> r == VirtualEnd(initialDraggedItem.value, draggedDistance) - layout.viewportEndOffset
      ensures r < 0 ==> r == VirtualStart(initialDraggedItem.value, draggedDistance) - layout.viewportStartOffset
    {
      OverScroll(initialDraggedItem, draggedDistance, layout)
    }

    /** `onDragStart`: hold the first visible item whose interval contains the pointer's
        (truncated) y; on a miss, leave everything as it was. */
    method OnDragStart(layout: LayoutInfo, y: int)
      requires Valid()
      modifies this
      ensures Valid()
      ensures HitTest(layout.visible, y).Some? ==>
                initialDraggedItem == HitTest(layout.visible, y) &&
                currentDraggedItemIndex == Some(HitTest(layout.visible, y).value.index)
      ensures HitTest(layout.visible, y).None? ==>
                initialDraggedItem == old(initialDraggedItem) &&
                currentDraggedItemIndex == old(currentDraggedItemIndex)
      ensures draggedDistance == old(draggedDistance) && overscrollJob == old(overscrollJob)
    {
      var hit := HitTest(layout.visible, y);
      if hit.Some? {
        currentDraggedItemIndex := Some(hit.value.index);
        initialDraggedItem := hit;
      }
    }

    /** `onDragInterrupted` (drag end and drag cancel): forget the drag and cancel the
        auto-scroll job. A second call changes nothing more. */
    method OnDragInterrupted()
      modifies this
      ensures Valid() && Idle()
      ensures overscrollJob == Cancel(old(overscrollJob))
    {
      draggedDistance := 0;
      currentDraggedItemIndex := None;
      initialDraggedItem := None;
      overscrollJob := Cancel(overscrollJob);
    }

    /** `onDrag`: add the delta; then, while an item is held, emit at most one move towards
        the first fully overtaken neighbour (deferred with an anchor restore when either index
        is the first visible one), follow it with the dragged index, and decide about
        auto-scroll: nothing while a job is active, else launch one `scrollBy(overshoot)` for
        a non-zero overshoot or cancel the job for a zero one. Without a held item only the
        distance changes. The live item lookup calls `first()` on the visible list. */
    method OnDrag(layout: LayoutInfo, dy: int) returns (move: Option<MoveRequest>, scroll: ScrollAction)
      requires Valid()
      requires currentDraggedItemIndex.Some? ==> |layout.visible| > 0
      modifies this
      ensures Valid()
      ensures draggedDistance == old(draggedDistance) + dy
      ensures initialDraggedItem == old(initialDraggedItem)
      ensures move == NextMove(old(initialDraggedItem), old(currentDraggedItemIndex), draggedDistance, layout)
      ensures !LevelDrag(old(initialDraggedItem), old(currentDraggedItemIndex), draggedDistance, layout) ==>
                move == NextMoveAsWritten(old(initialDraggedItem), old(currentDraggedItemIndex), draggedDistance, layout)
      ensures currentDraggedItemIndex == if move.Some? then Some(move.value.to) else old(currentDraggedItemIndex)
      ensures initialDraggedItem.None? ==>
                move.None? && scroll == NotChecked && overscrollJob == old(overscrollJob)
      ensures initialDraggedItem.Some? ==>
                scroll == GateOverScroll(old(overscrollJob), OverScroll(initialDraggedItem, draggedDistance, layout)) &&
                overscrollJob == AfterScrollAction(old(overscrollJob), scroll)
    {
      move, scroll := None, NotChecked;
      draggedDistance := draggedDistance + dy;
      if !LevelDrag(initialDraggedItem, currentDraggedItemIndex, draggedDistance, layout) {
        NextMoveAgreesUnlessLevel(initialDraggedItem, currentDraggedItemIndex, draggedDistance, layout);
      }
      if initialDraggedItem.Some? {
        var current := currentDraggedItemIndex.value;
        var target := DragTarget(initialDraggedItem, currentDraggedItemIndex, draggedDistance, layout);
        if target.Some? {
          var to := target.value.index;
          var deferred := to == layout.firstVisibleItemIndex || current == layout.firstVisibleItemIndex;
          move := Some(MoveRequest(current, to, deferred));
          currentDraggedItemIndex := Some(to);
        }
        if IsActive(overscrollJob) {
          scroll := StillScrolling;
          return;
        }
        var overshoot := OverScroll(initialDraggedItem, draggedDistance, layout);
        if overshoot != 0 {
          scroll := LaunchScrollBy(overshoot);
          overscrollJob := Some(ScrollJob(overshoot, true));
        } else {
          scroll := CancelScroll;
          overscrollJob := Cancel(overscrollJob);
        }
      }
    }

    /** The launched `scrollBy` coroutine running to completion (an event of the host's
        coroutine scope, not a member of the controller). */
    method FinishScrollJob()
      requires Valid()
      modifies this
      ensures Valid() && !IsActive(overscrollJob)
      ensures initialDraggedItem == old(initialDraggedItem)
      ensures currentDraggedItemIndex == old(currentDraggedItemIndex)
      ensures draggedDistance == old(draggedDistance)
    {
      overscrollJob := Cancel(overscrollJob);
    }
  }
}
