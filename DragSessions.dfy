/** Whole gestures driven through the two controllers, as a host would: what callers can
    conclude from the controllers' contracts alone. Each takes the layout of five items of
    height 50 at offsets 0, 50, …, 200, with index 0 first visible. */
module DragSessions {
  import opened LazyLayout
  import opened ReorderPolicy
  import opened ReorderProperties
  import ReorderableLazyList
  import DraggableLazyList

  /** Press at y = 30, drag down by 60 inside a viewport [0, 250]: the move (0, 1) is
      deferred with the anchor restore, the dragged index follows it, the dragged key stays
      that of item 0, and with no overshoot the (absent) scroll job is cancelled. */
  method DragFirstItemDown(layout: LayoutInfo)
    requires Stacked(layout.visible, 5) && layout.firstVisibleItemIndex == 0
    requires layout.viewportEndOffset == 250
  {
    FiveItemsDragDown(layout);
    var c := new ReorderableLazyList.ReorderableLazyListState();
    c.OnDragStart(layout, 30);
    assert c.CurrentDraggedItemKey() == Some(0);

    var move, scroll := c.OnDrag(layout, 60);
    assert move == Some(MoveRequest(0, 1, true));
    assert c.currentDraggedItemIndex == Some(1) && c.CurrentDraggedItemKey() == Some(0);
    assert scroll == CancelScroll;
  }

  /** The same press inside a viewport [0, 100]: the move is the same, and the overshoot
      of 10 below the viewport launches one scroll. */
  method DragFirstItemPastViewport(layout: LayoutInfo)
    requires Stacked(layout.visible, 5) && layout.firstVisibleItemIndex == 0
    requires layout.viewportEndOffset == 100
  {
    FiveItemsDragDown(layout);
    var c := new ReorderableLazyList.ReorderableLazyListState();
    c.OnDragStart(layout, 30);
    var move, scroll := c.OnDrag(layout, 60);
    assert move == Some(MoveRequest(0, 1, true));
    assert scroll == LaunchScrollBy(10) && IsActive(c.overscrollJob);
    assert c.currentDraggedItemIndex == Some(1) && c.draggedDistance == 60;
  }

  /** Continuing from where the previous session stops (item 0 held at index 1, distance
      60, its scroll running): a further drag of 5 proposes no move, since item 2 is not yet
      passed, and launches nothing while the scroll runs. */
  method NoSecondScrollWhileRunning(c: ReorderableLazyList.ReorderableLazyListState, layout: LayoutInfo)
    requires Stacked(layout.visible, 5) && layout.firstVisibleItemIndex == 0
    requires layout.viewportEndOffset == 100
    requires c.Valid() && c.initialDraggedItem == Some(layout.visible[0])
    requires c.currentDraggedItemIndex == Some(1) && c.draggedDistance == 60
    requires IsActive(c.overscrollJob)
    modifies c
  {
    FiveItemsNoSecondMove(layout);
    var job := c.overscrollJob;
    var move, scroll := c.OnDrag(layout, 5);
    assert move == None && scroll == StillScrolling && c.overscrollJob == job;
    assert c.draggedDistance == 65 && c.currentDraggedItemIndex == Some(1);
  }

  /** Continuing from where the previous session stops (item 0 held at index 1, distance
      65): once the running scroll has finished, the next drag event, even one with no
      vertical component, launches a new scroll by the overshoot 15; ending the gesture
      then returns the controller to its initial state. */
  method ScrollRelaunchesAfterFinish(c: ReorderableLazyList.ReorderableLazyListState, layout: LayoutInfo)
    requires Stacked(layout.visible, 5) && layout.firstVisibleItemIndex == 0
    requires layout.viewportEndOffset == 100
    requires c.Valid() && c.initialDraggedItem == Some(layout.visible[0])
    requires c.currentDraggedItemIndex == Some(1) && c.draggedDistance == 65
    modifies c
  {
    FiveItemsNoSecondMove(layout);
    c.FinishScrollJob();
    var move, scroll := c.OnDrag(layout, 0);
    assert move == None && scroll == LaunchScrollBy(15);

    c.OnDragInterrupted();
    assert c.Idle() && c.CurrentDraggedItemKey() == None;
  }

  /** Through the host of the second variant, inside a viewport [0, 100]: the host launches
      the scroll, and ending the gesture forgets the drag but leaves that job active. */
  method HostKeepsScrollAfterInterrupt(layout: LayoutInfo)
    requires Stacked(layout.visible, 5) && layout.firstVisibleItemIndex == 0
    requires layout.viewportEndOffset == 100
  {
    FiveItemsDragDown(layout);
    var host := new DraggableLazyList.DraggableLazyColumnHost();
    host.OnDragStart(layout, 30);
    var move, scroll := host.OnDrag(layout, 60);
    assert move == Some(MoveRequest(0, 1, true));
    assert scroll == LaunchScrollBy(10) && IsActive(host.overscrollJob);

    host.OnDragInterrupted();
    assert host.state.Idle() && IsActive(host.overscrollJob);
  }
}
