# Drag-to-reorder controller for a lazily rendered vertical list

This project models the drag-to-reorder controller of the `dragAndDrop` Android sample. It
also proves what that controller promises. The controller exists twice, as near-duplicates:

- `ReorderableLazyListState` (`ui/reorderable/DraggableLazyColumn.kt`) gates its own
  auto-scroll job.
- `DraggableLazyListState` (`ui/Reorderable.kt`) only moves. The `DraggableLazyColumn`
  composable's `onDrag` lambda owns a local scroll job and gates auto-scroll.

Given a snapshot of the visible items, the controller:

- hit-tests the press (`onDragStart`);
- accumulates vertical drag deltas and, once the dragged item's virtual extent has fully
  overtaken a neighbour, emits one `onMove(from, to)` (`onDrag`);
- computes the edge overshoot that drives auto-scroll (`checkForOverScroll`);
- computes where the dragged item is drawn (`itemDisplacement`).

The host applies each move to its backing list with `add(to, removeAt(from))`.

Modules:

- `LazyLayout`: the layout snapshot. It holds the item geometry (`ItemInfo`), the viewport
  and first-visible anchor (`LayoutInfo`), `offsetEnd` and `getVisibleItemInfoFor`.
- `ReorderPolicy`: the pure rules both controllers share. These are the hit-test, the
  candidate selection (the source's rule and the corrected one), the drag target and the
  emitted move, the overshoot, the displacement, and the scroll-job gating.
- `ReorderProperties`: lemmas across calls, plus worked drags on stacked items of height 50.
- `ListMove`: the host's list move as a function on sequences, and the backing list as a
  class whose `Move` mutates it in place, exception paths included.
- `ReorderableLazyList`: the class `ReorderableLazyListState`.
- `DraggableLazyList`: the class `DraggableLazyListState` and the composable's gesture
  wiring `DraggableLazyColumnHost`.
- `DragSessions`: whole gestures driven through the classes. They use only the classes'
  contracts and have no contracts of their own.

Each gesture callback takes the host's current layout snapshot as a parameter. The
`onMove` call and the scroll decision are returned to the caller rather than performed.
The scroll coroutine running to completion is the method `FinishScrollJob`. It is an
event of the coroutine scope, not a member of the source classes.

Two behaviours of the code that one might expect to be otherwise:

- **Skipped indices.** One might expect that dragging item 2 of ten down past index 5
  always emits `(2,3)`, `(3,4)`, `(4,5)` in that order, never skipping an intermediate
  index. The code guarantees this only when each drag event carries the item past at most
  one neighbour. A single event with a large
  delta filters out the items wholly above the virtual extent. It then emits the single
  move `(2,5)` (`ReorderProperties.BigDeltaSkipsIntermediate`). The list ends up the same
  either way (`ListMove.MovedChain`).
- **Scroll job after interruption.** One might expect ending a gesture to stop its
  auto-scroll, as it does in `ui/reorderable/DraggableLazyColumn.kt`. In
  `ui/Reorderable.kt`, `onDragInterrupted` cancels the class's own `overscrollJob`, which is
  never assigned, so the composable's running scroll job is left active when the gesture
  ends
  (`DragSessions.HostKeepsScrollAfterInterrupt`).

## Model

| member | source | states |
|---|---|---|
| LazyLayout.VisibleItemInfoFor | app/src/main/java/com/github/mikanichinose/dragAndDrop/ui/Reorderable.kt:352-354 | Present exactly when position `absoluteIndex - first().index` lies inside the visible list, and then it is a visible item; a non-empty list is demanded because `first()` throws |
| LazyLayout.OffsetEnd | app/src/main/java/com/github/mikanichinose/dragAndDrop/ui/Reorderable.kt:356-357 | `offsetEnd`: the trailing edge `offset + size` of an item (a definition; its uses carry the contracts) |
| LazyLayout.VisibleItemInfoForByIndex | app/src/main/java/com/github/mikanichinose/dragAndDrop/ui/reorderable/DraggableLazyColumn.kt:284-286 | On a layout with consecutive indices the positional lookup finds the item whose index is the requested one, and finds nothing exactly when no visible item has that index |
| LazyLayout.VisibleItemInfoForAt | app/src/main/java/com/github/mikanichinose/dragAndDrop/ui/reorderable/DraggableLazyColumn.kt:284-286 | Looking up the index of the item at position k finds that item |
| ReorderPolicy.FirstIndex | app/src/main/java/com/github/mikanichinose/dragAndDrop/ui/reorderable/DraggableLazyColumn.kt:212-218 | The `firstOrNull` search: no element before the returned position satisfies the predicate, and the element there does (or there is none) |
| ReorderPolicy.HitTest | app/src/main/java/com/github/mikanichinose/dragAndDrop/ui/reorderable/DraggableLazyColumn.kt:177-180 | The item found is visible and its closed interval `[offset, offsetEnd]` contains y; nothing is found exactly when no visible item contains y; no earlier visible item contains y |
| ReorderPolicy.Overlaps | app/src/main/java/com/github/mikanichinose/dragAndDrop/ui/reorderable/DraggableLazyColumn.kt:210 | The `filterNot` test keeps an item exactly when its closed interval and the virtual extent share a point (for non-empty intervals) |
| ReorderPolicy.OvertakesAsWritten | app/src/main/java/com/github/mikanichinose/dragAndDrop/ui/reorderable/DraggableLazyColumn.kt:213-217 | The source's threshold: below the live position the trailing edge must pass the candidate's trailing edge, otherwise (above or level) the leading edge must lie above the candidate's leading edge (a definition; `SelectTargetAsWritten` carries its consequences) |
| ReorderPolicy.Overtakes | app/src/main/java/com/github/mikanichinose/dragAndDrop/ui/Reorderable.kt:279-283 | The corrected threshold holds exactly when the source's threshold holds and the drag is not level |
| ReorderPolicy.SelectTargetAsWritten | app/src/main/java/com/github/mikanichinose/dragAndDrop/ui/reorderable/DraggableLazyColumn.kt:202-218 | The source's selection: the target is visible, overlaps the virtual extent and is not the live item; below the live position its trailing edge has been passed, otherwise (above or level) its leading edge lies below the dragged leading edge; nothing exactly when no item passes the source's filter and threshold; it is the first that does |
| ReorderPolicy.SelectTarget | app/src/main/java/com/github/mikanichinose/dragAndDrop/ui/Reorderable.kt:268-284 | The corrected selection: the target is visible, overlaps the virtual extent, is not the live item, and has been overtaken (downward the trailing edge is past its trailing edge, upward the leading edge is past its leading edge); no target for a level drag; nothing exactly when no item qualifies; it is the first that does |
| ReorderPolicy.DragTarget | app/src/main/java/com/github/mikanichinose/dragAndDrop/ui/reorderable/DraggableLazyColumn.kt:197-218 | A target exists only with a held item, a current index and a visible live item; it is visible, overlaps the virtual extent, differs in index from the live item and is overtaken in the drag's direction; with a held item and a visible live item, no target means no visible item qualifies |
| ReorderPolicy.NextMove | app/src/main/java/com/github/mikanichinose/dragAndDrop/ui/reorderable/DraggableLazyColumn.kt:219-240 | A move is emitted exactly when there is a target; it goes from the current dragged index to the target's index; it is deferred with the anchor restore exactly when either index is the first visible one |
| ReorderPolicy.DragTargetAsWritten | app/src/main/java/com/github/mikanichinose/dragAndDrop/ui/Reorderable.kt:263-284 | The source's target: found only with a held item, a current index and a visible live item; it is visible and passes the source's filter and threshold; with those present, none is found exactly when no visible item passes them |
| ReorderPolicy.NextMoveAsWritten | app/src/main/java/com/github/mikanichinose/dragAndDrop/ui/Reorderable.kt:285-305 | The move the source emits: exactly when the source finds a target, from the current dragged index to the target's index, deferred exactly when either index is the first visible one |
| ReorderPolicy.DragTargetsAt | app/src/main/java/com/github/mikanichinose/dragAndDrop/ui/reorderable/DraggableLazyColumn.kt:197-218 | With a held item and a visible live item, both drag targets are the selections over the dragged item's virtual extent against that live item |
| ReorderPolicy.CorrectedAgreesWhenMoved | app/src/main/java/com/github/mikanichinose/dragAndDrop/ui/reorderable/DraggableLazyColumn.kt:212-218 | The corrected selection equals the source's whenever the dragged item is not level with its live position |
| ReorderPolicy.NextMoveAgreesUnlessLevel | app/src/main/java/com/github/mikanichinose/dragAndDrop/ui/reorderable/DraggableLazyColumn.kt:197-240 | On every drag event that is not level, the corrected move is exactly the move the source emits |
| ReorderPolicy.OverScroll | app/src/main/java/com/github/mikanichinose/dragAndDrop/ui/reorderable/DraggableLazyColumn.kt:261-282 | 0 without a held item or without net movement; positive exactly when dragging down past the viewport's end, and then the amount past it; negative exactly when dragging up past the viewport's start, and then the amount past it |
| ReorderPolicy.Cancel | app/src/main/java/com/github/mikanichinose/dragAndDrop/ui/reorderable/DraggableLazyColumn.kt:191 | After `overscrollJob?.cancel()` no job is active; an absent job stays absent |
| ReorderPolicy.GateOverScroll | app/src/main/java/com/github/mikanichinose/dragAndDrop/ui/reorderable/DraggableLazyColumn.kt:243-257 | Nothing is launched while a job is active; otherwise exactly one `scrollBy(overshoot)` for a non-zero overshoot, and a cancel for a zero one |
| ReorderPolicy.AfterScrollAction | app/src/main/java/com/github/mikanichinose/dragAndDrop/ui/reorderable/DraggableLazyColumn.kt:249-257 | A launch makes a job scrolling by the launched amount the active one; a cancel leaves no active job; otherwise the job is kept |
| ReorderPolicy.ItemDisplacement | app/src/main/java/com/github/mikanichinose/dragAndDrop/ui/Reorderable.kt:235-240 | Present exactly when there is a current index whose item is visible; the live item's offset plus the displacement is the dragged item's virtual leading edge (or the distance alone when no item is held) |
| ReorderProperties.NoSelfMove | app/src/main/java/com/github/mikanichinose/dragAndDrop/ui/reorderable/DraggableLazyColumn.kt:202-219 | On a layout with consecutive indices a move never targets the dragged index itself, and both of its indices are visible |
| ReorderProperties.NoMoveBeforeVerticalMovement | app/src/main/java/com/github/mikanichinose/dragAndDrop/ui/Reorderable.kt:278-284 | Right after a successful press, at distance 0 on the same layout, no move is proposed |
| ReorderProperties.FiveItemsDragDown | app/src/main/java/com/github/mikanichinose/dragAndDrop/ui/Reorderable.kt:260-305 | Five items of height 50, press at y = 30, drag of 60: item 0 is held and the move (0, 1) is emitted, deferred because index 0 is first visible |
| ReorderProperties.FiveItemsPressAt30 | app/src/main/java/com/github/mikanichinose/dragAndDrop/ui/Reorderable.kt:242-249 | A press at y = 30 on five stacked items holds item 0 |
| ReorderProperties.FiveItemsPassItem1 | app/src/main/java/com/github/mikanichinose/dragAndDrop/ui/Reorderable.kt:276-284 | The virtual extent [60, 110] against live item 0 selects item 1 |
| ReorderProperties.FiveItemsNoSecondMove | app/src/main/java/com/github/mikanichinose/dragAndDrop/ui/reorderable/DraggableLazyColumn.kt:210-218 | After that move and before re-layout, a further 5 pixels (extent [65, 115]) proposes nothing, since item 2 is not yet fully passed |
| ReorderProperties.HorizontalWiggleMovesAsWritten | app/src/main/java/com/github/mikanichinose/dragAndDrop/ui/reorderable/DraggableLazyColumn.kt:212-218 | As written, a level drag right after the press at y = 30 selects item 1; the corrected rule selects nothing |
| ReorderProperties.LevelDragSelectsItem1AsWritten | app/src/main/java/com/github/mikanichinose/dragAndDrop/ui/Reorderable.kt:278-284 | The source's rule at distance 0 on five stacked items selects item 1 |
| ReorderProperties.LevelDragEmitsMoveAsWritten | app/src/main/java/com/github/mikanichinose/dragAndDrop/ui/Reorderable.kt:276-297 | After a press at y = 30 on five stacked items, a drag event with no vertical component makes the source emit the deferred `onMove(0, 1)`; the corrected move is none |
| ReorderProperties.BigDeltaSkipsIntermediate | app/src/main/java/com/github/mikanichinose/dragAndDrop/ui/reorderable/DraggableLazyColumn.kt:202-239 | One drag of 160 on item 2 of ten stacked items emits the single move (2, 5) |
| ReorderProperties.DisplacementZeroAtStart | app/src/main/java/com/github/mikanichinose/dragAndDrop/ui/Reorderable.kt:235-249 | Right after a successful press, with distance 0 and the same layout, the displacement is 0 |
| ReorderProperties.OverScrollExamples | app/src/main/java/com/github/mikanichinose/dragAndDrop/ui/Reorderable.kt:312-333 | Concrete overshoots in a viewport [0, 1000]: -20 above the start, 30 past the end, 0 inside, 0 without a held item |
| ReorderProperties.OverScrollSettles | app/src/main/java/com/github/mikanichinose/dragAndDrop/ui/reorderable/DraggableLazyColumn.kt:261-282 | Scrolling by the overshoot brings the item's edge back to the viewport's edge: against the shifted viewport the overshoot is 0 |
| ReorderProperties.SingleScrollInFlight | app/src/main/java/com/github/mikanichinose/dragAndDrop/ui/reorderable/DraggableLazyColumn.kt:243-257 | While a job is active the gating keeps it unchanged; a launch happens only when no job is active |
| ReorderProperties.CancelIdempotent | app/src/main/java/com/github/mikanichinose/dragAndDrop/ui/reorderable/DraggableLazyColumn.kt:187-192 | Cancelling twice is cancelling once, so a repeated interruption changes nothing more |
| ListMove.RemoveAt | app/src/main/java/com/github/mikanichinose/dragAndDrop/ui/reorderable/DraggableLazyColumn.kt:52 | `removeAt(i)` shortens the list by one, keeps the elements before i and shifts the ones after it down |
| ListMove.InsertAt | app/src/main/java/com/github/mikanichinose/dragAndDrop/ui/reorderable/DraggableLazyColumn.kt:52 | `add(i, x)` lengthens the list by one, puts x at i, keeps the elements before i and shifts the rest up |
| ListMove.Moved | app/src/main/java/com/github/mikanichinose/dragAndDrop/ui/Reorderable.kt:103-107 | The move keeps the length, puts the element from `from` at `to`, and leaves the other elements in their relative order |
| ListMove.MovedIsPermutation | app/src/main/java/com/github/mikanichinose/dragAndDrop/ui/Reorderable.kt:103-107 | The moved list is a permutation of the original |
| ListMove.MovedAt | app/src/main/java/com/github/mikanichinose/dragAndDrop/ui/reorderable/DraggableLazyColumn.kt:50-54 | Position by position: elements between the two indices shift by one towards `from`, and the rest stay put |
| ListMove.MovedInverse | app/src/main/java/com/github/mikanichinose/dragAndDrop/ui/reorderable/DraggableLazyColumn.kt:50-54 | Moving back from `to` to `from` restores the list |
| ListMove.MovedChain | app/src/main/java/com/github/mikanichinose/dragAndDrop/ui/Reorderable.kt:103-107 | Two chained moves, as the controller emits them, equal one move from the first origin to the last target |
| ListMove.ItemList.constructor | app/src/main/java/com/github/mikanichinose/dragAndDrop/ui/Reorderable.kt:100 | The backing list starts with the given items |
| ListMove.ItemList.Move | app/src/main/java/com/github/mikanichinose/dragAndDrop/ui/Reorderable.kt:104-106 | It throws exactly when an index is out of range; otherwise the list becomes the moved list; a bad `from` changes nothing; a bad `to` leaves the element removed |
| ReorderableLazyList.ReorderableLazyListState.constructor | app/src/main/java/com/github/mikanichinose/dragAndDrop/ui/reorderable/DraggableLazyColumn.kt:148-169 | A new controller holds nothing, has distance 0 and no job |
| ReorderableLazyList.ReorderableLazyListState.CurrentDraggedItemKey | app/src/main/java/com/github/mikanichinose/dragAndDrop/ui/reorderable/DraggableLazyColumn.kt:165-166 | A key is present exactly while a drag is held, and it is the held item's key, which no move changes |
| ReorderableLazyList.ReorderableLazyListState.ItemDisplacement | app/src/main/java/com/github/mikanichinose/dragAndDrop/ui/reorderable/DraggableLazyColumn.kt:170-175 | Present exactly when the current index's item is visible; it draws that item at the held item's virtual leading edge |
| ReorderableLazyList.ReorderableLazyListState.CheckForOverScroll | app/src/main/java/com/github/mikanichinose/dragAndDrop/ui/reorderable/DraggableLazyColumn.kt:261-282 | 0 without a held item or net movement; positive exactly when a downward drag takes the held item's virtual trailing edge past the viewport's end, and then by that amount; negative exactly when an upward drag takes its leading edge above the viewport's start, and then by that amount |
| ReorderableLazyList.ReorderableLazyListState.OnDragStart | app/src/main/java/com/github/mikanichinose/dragAndDrop/ui/reorderable/DraggableLazyColumn.kt:177-185 | On a hit, the held item and the current index become the hit item and its index; on a miss both keep their values; the distance and the job never change |
| ReorderableLazyList.ReorderableLazyListState.OnDragInterrupted | app/src/main/java/com/github/mikanichinose/dragAndDrop/ui/reorderable/DraggableLazyColumn.kt:187-192 | Back to idle: nothing held, distance 0, and the job cancelled |
| ReorderableLazyList.ReorderableLazyListState.OnDrag | app/src/main/java/com/github/mikanichinose/dragAndDrop/ui/reorderable/DraggableLazyColumn.kt:194-259 | The distance grows by the delta; the held item is unchanged; the move is the one `NextMove` proposes, which on every drag that is not level is the source's move `NextMoveAsWritten`; the current index follows it; without a held item nothing else happens; otherwise the scroll action is the gating of the previous job and the new overshoot, and the job is updated accordingly |
| ReorderableLazyList.ReorderableLazyListState.FinishScrollJob | app/src/main/java/com/github/mikanichinose/dragAndDrop/ui/reorderable/DraggableLazyColumn.kt:251-253 | When the launched `scrollBy` finishes no job is active, and the drag state is unchanged |
| DraggableLazyList.DraggableLazyListState.constructor | app/src/main/java/com/github/mikanichinose/dragAndDrop/ui/Reorderable.kt:214-234 | A new controller holds nothing and has distance 0 |
| DraggableLazyList.DraggableLazyListState.ItemDisplacement | app/src/main/java/com/github/mikanichinose/dragAndDrop/ui/Reorderable.kt:235-240 | Present exactly when the current index's item is visible; it draws that item at the held item's virtual leading edge |
| DraggableLazyList.DraggableLazyListState.CheckForOverScroll | app/src/main/java/com/github/mikanichinose/dragAndDrop/ui/Reorderable.kt:312-333 | 0 without a held item or net movement; positive exactly when a downward drag takes the held item's virtual trailing edge past the viewport's end, and then by that amount; negative exactly when an upward drag takes its leading edge above the viewport's start, and then by that amount |
| DraggableLazyList.DraggableLazyListState.OnDragStart | app/src/main/java/com/github/mikanichinose/dragAndDrop/ui/Reorderable.kt:242-251 | As for the other controller; the trailing `log` looks up the live item, so a held index needs a non-empty visible list |
| DraggableLazyList.DraggableLazyListState.OnDragInterrupted | app/src/main/java/com/github/mikanichinose/dragAndDrop/ui/Reorderable.kt:253-258 | Back to idle: nothing held and distance 0 |
| DraggableLazyList.DraggableLazyListState.OnDrag | app/src/main/java/com/github/mikanichinose/dragAndDrop/ui/Reorderable.kt:260-310 | The distance grows by the delta; the held item is unchanged; the move is the one `NextMove` proposes, which on every drag that is not level is the source's move `NextMoveAsWritten`; the current index follows it |
| DraggableLazyList.DraggableLazyColumnHost.constructor | app/src/main/java/com/github/mikanichinose/dragAndDrop/ui/Reorderable.kt:119-126 | The composable starts with an idle controller and no local job |
| DraggableLazyList.DraggableLazyColumnHost.OnDragStart | app/src/main/java/com/github/mikanichinose/dragAndDrop/ui/Reorderable.kt:153 | It forwards to the controller's `onDragStart` and leaves the local job alone |
| DraggableLazyList.DraggableLazyColumnHost.OnDrag | app/src/main/java/com/github/mikanichinose/dragAndDrop/ui/Reorderable.kt:133-151 | The drag is always forwarded, with the controller's move (the source's on every drag that is not level); then the local job is gated with the overshoot read after the forwarded drag |
| DraggableLazyList.DraggableLazyColumnHost.OnDragInterrupted | app/src/main/java/com/github/mikanichinose/dragAndDrop/ui/Reorderable.kt:154-155 | The controller returns to idle while the local job is left as it was |
| DraggableLazyList.DraggableLazyColumnHost.FinishScrollJob | app/src/main/java/com/github/mikanichinose/dragAndDrop/ui/Reorderable.kt:145-147 | When the launched `scrollBy` finishes the local job is no longer active |

## Left out

- ReorderableLazyList.ReorderableLazyListState.OnDrag emits the corrected rule's move
  (`NextMove`), not the source's (`NextMoveAsWritten`). The two differ only on a level drag,
  where the source emits a move to the touching item below and the model emits none (see
  "## Findings"). Its contract states the agreement on every other drag.
- DraggableLazyList.DraggableLazyListState.OnDrag emits the corrected rule's move in the
  same way, with the same agreement stated on every drag that is not level.
- DraggableLazyList.DraggableLazyColumnHost.OnDrag forwards that corrected move.
- Composables, modifiers and animation are UI. This covers `DraggableScreen`'s rendering,
  `DraggableItem`, `Modifier.reorderable`, `graphicsLayer`, `zIndex`, `animateDpAsState` and
  `animateItemPlacement`.
- `log` and `prettyPrint` are Android logging. The one effect kept is that `log`'s
  live-item lookup calls `first()`, which is a precondition of
  `DraggableLazyList.DraggableLazyListState.OnDragStart`.
- `scope.launch`, `scrollBy`, `scrollToItem` and `Job` are coroutine machinery:
  - A launch is a returned `ScrollAction` together with an active `ScrollJob` value.
  - A job's completion is the separate `FinishScrollJob` event.
  - Interleavings are not modelled.
- A deferred move runs in a coroutine, so it may reach the list after moves emitted
  synchronously by later drag events. The model marks the move `deferred` but does not
  reorder it.
- The anchor values that `scrollToItem` reads when its coroutine runs are not modelled.
- `draggedDistance` is a `Float` that only ever gets additions and comparisons. It is an
  `int` here. `offset.y.toInt()` is the `int` y passed to `OnDragStart`, and the displacement
  and the overshoot are `int` too.
- ReorderProperties.DisplacementZeroAtStart: displacement continuity across a move is not
  stated. It depends on the host laying the list out again after the move, which is outside
  the controller.
- `ui/Draggable.kt`, `VerticalReorderList`, `TodoListScreen.kt`, `MainActivity.kt`,
  `TodoListItem.kt`, `AnimatedShufflableList.kt` and `TodoState.kt` are not part of this
  model. They are free-drag UI glue over floating-point measurements, wrappers around an
  external reordering library, and UI or data shells.
- Item keys are `int`s. The source's keys are arbitrary objects, which only need equality.

## Findings

| source | as written | input that shows it | evidently intended | confidence | as-written member | corrected member |
|---|---|---|---|---|---|---|
| app/src/main/java/com/github/mikanichinose/dragAndDrop/ui/reorderable/DraggableLazyColumn.kt:212-218 | The directional threshold's `else` branch takes a level drag (`delta == 0`) as upward. The same code is at lines 278-284 of `ui/Reorderable.kt`. | Five items of height 50 at offsets 0, 50, …, 200. Press at y = 30, then one drag event with `offset.y == 0` (a horizontal wiggle). The extent is [0, 50]. Item 1 touches it at 50 and `0 < 50`, so `onMove(0, 1)` fires without any vertical movement. | A drag with no vertical movement overtakes nothing and emits no move | not executed | ReorderProperties.LevelDragEmitsMoveAsWritten | ReorderPolicy.SelectTarget |

Both controllers use the corrected rule, `ReorderPolicy.Overtakes`, which is false at
`delta == 0`. The source's rule is kept as `ReorderPolicy.SelectTargetAsWritten`, and the
source's move as `ReorderPolicy.NextMoveAsWritten`. `ReorderProperties.HorizontalWiggleMovesAsWritten`
shows the two selections apart on the same input.
`ReorderProperties.NoMoveBeforeVerticalMovement` proves the intended property for every
contiguous layout and every press. `ReorderPolicy.CorrectedAgreesWhenMoved` and
`ReorderPolicy.NextMoveAgreesUnlessLevel` prove that the two rules agree on every drag that
is not level.
