/** The pure rules both drag controllers share: which item a press lands on, which
    neighbour the dragged item has fully overtaken, how far it overshoots the viewport,
    where it is drawn, and whether an auto-scroll may be launched. */
module ReorderPolicy {
  import opened LazyLayout

  /** Position of the first element of `s` satisfying `p`, or |s| when there is none
      (the search behind Kotlin's `firstOrNull`). */
  function FirstIndex<T>(s: seq<T>, p: T -> bool): (k: nat)
    ensures k <= |s|
    ensures forall j :: 0 <= j < k ==> !p(s[j])
    ensures k < |s| ==> p(s[k])
  {
    if |s| == 0 then 0
    else if p(s[0]) then 0
    else 1 + FirstIndex(s[1..], p)
  }

  // ---------------------------------------------------------------- hit-test

  /** `onDragStart`'s search: the first visible item whose closed interval
      [offset, offsetEnd] contains the (already truncated) pointer position y. */
  function HitTest(visible: seq<ItemInfo>, y: int): (r: Option<ItemInfo>)
    ensures r.Some? ==> r.value in visible && r.value.offset <= y <= OffsetEnd(r.value)
    ensures r.None? <==> forall item :: item in visible ==> !(item.offset <= y <= OffsetEnd(item))
    ensures r.Some? ==> (exists k :: 0 <= k < |visible| && visible[k] == r.value &&
                           forall j :: 0 <= j < k ==> !(visible[j].offset <= y <= OffsetEnd(visible[j])))
  {
    var k := FirstIndex(visible, item => Contains(item, y));
    if k < |visible| then Some(visible[k]) else None
  }

  // ---------------------------------------------------------------- swap decision

  /** The item's extent shares at least one point with [startOffset, endOffset]
      (it is neither wholly above nor wholly below the dragged item). */
  predicate Overlaps(item: ItemInfo, startOffset: int, endOffset: int): (b: bool)
    ensures startOffset <= endOffset && item.size >= 0 ==>
              (b <==> exists y :: startOffset <= y <= endOffset && Contains(item, y))
  {
    var y := if item.offset < startOffset then startOffset else item.offset;
    assert !(OffsetEnd(item) < startOffset || item.offset > endOffset) ==>
             startOffset <= endOffset && item.size >= 0 ==> startOffset <= y <= endOffset && Contains(item, y);
    !(OffsetEnd(item) < startOffset || item.offset > endOffset)
  }

  /** The directional threshold, as the source writes it: when the dragged item's leading
      edge is below the live position of the dragged index, its trailing edge must be past the
      candidate's trailing edge; otherwise (above OR level) its leading edge must be above the
      candidate's leading edge. The level case lets a drag with no vertical movement qualify
      the item touching the dragged one from below. */
  predicate OvertakesAsWritten(item: ItemInfo, startOffset: int, endOffset: int, current: ItemInfo)
  {
    if startOffset - current.offset > 0 then endOffset > OffsetEnd(item)
    else startOffset < item.offset
  }

  /** The directional threshold as intended: downward the trailing edge must be past the
      candidate's trailing edge, upward the leading edge past the candidate's leading edge,
      and a dragged item level with its live position overtakes nothing. */
  predicate Overtakes(item: ItemInfo, startOffset: int, endOffset: int, current: ItemInfo): (b: bool)
    ensures b <==> OvertakesAsWritten(item, startOffset, endOffset, current) && startOffset != current.offset
  {
    var delta := startOffset - current.offset;
    if delta > 0 then endOffset > OffsetEnd(item)
    else if delta < 0 then startOffset < item.offset
    else false
  }

  /** What `filterNot { … }` keeps and `firstOrNull { … }` accepts, as written. */
  predicate IsSwapCandidateAsWritten(item: ItemInfo, startOffset: int, endOffset: int, current: ItemInfo)
  {
    Overlaps(item, startOffset, endOffset) && current.index != item.index &&
    OvertakesAsWritten(item, startOffset, endOffset, current)
  }

  /** The same filter with the intended threshold. */
  predicate IsSwapCandidate(item: ItemInfo, startOffset: int, endOffset: int, current: ItemInfo)
  {
    Overlaps(item, startOffset, endOffset) && current.index != item.index &&
    Overtakes(item, startOffset, endOffset, current)
  }

  /** The candidate-selection rule of `onDrag` exactly as the source writes it. */
  function SelectTargetAsWritten(visible: seq<ItemInfo>, startOffset: int, endOffset: int,
                                 current: ItemInfo): (r: Option<ItemInfo>)
    ensures r.Some? ==> r.value in visible
    ensures r.Some? ==> OffsetEnd(r.value) >= startOffset && r.value.offset <= endOffset
    ensures r.Some? ==> r.value.index != current.index
    ensures r.Some? && startOffset > current.offset ==> endOffset > OffsetEnd(r.value)
    ensures r.Some? && startOffset <= current.offset ==> startOffset < r.value.offset
    ensures r.None? <==>
              forall item :: item in visible ==> !IsSwapCandidateAsWritten(item, startOffset, endOffset, current)
    ensures r.Some? ==> (exists k :: 0 <= k < |visible| && visible[k] == r.value &&
                           forall j :: 0 <= j < k ==> !IsSwapCandidateAsWritten(visible[j], startOffset, endOffset, current))
  {
    var k := FirstIndex(visible, item => IsSwapCandidateAsWritten(item, startOffset, endOffset, current));
    if k < |visible| then Some(visible[k]) else None
  }

  /** The candidate-selection rule of `onDrag`, with the intended threshold: among the
      visible items, the first that overlaps the dragged item's virtual extent, is not the
      live dragged item and has been fully overtaken in the direction of the drag. */
  function SelectTarget(visible: seq<ItemInfo>, startOffset: int, endOffset: int, current: ItemInfo)
    : (r: Option<ItemInfo>)
    ensures r.Some? ==> r.value in visible
    ensures r.Some? ==> OffsetEnd(r.value) >= startOffset && r.value.offset <= endOffset
    ensures r.Some? ==> r.value.index != current.index
    ensures r.Some? ==> startOffset != current.offset
    ensures r.Some? && startOffset > current.offset ==> endOffset > OffsetEnd(r.value)
    ensures r.Some? && startOffset < current.offset ==> startOffset < r.value.offset
    ensures r.None? <==>
              forall item :: item in visible ==> !IsSwapCandidate(item, startOffset, endOffset, current)
    ensures r.Some? ==> (exists k :: 0 <= k < |visible| && visible[k] == r.value &&
                           forall j :: 0 <= j < k ==> !IsSwapCandidate(visible[j], startOffset, endOffset, current))
  {
    var k := FirstIndex(visible, item => IsSwapCandidate(item, startOffset, endOffset, current));
    if k < |visible| then Some(visible[k]) else None
  }

  /** The dragged item's virtual extent: its pre-drag interval shifted by the drag distance. */
  function VirtualStart(initial: ItemInfo, distance: int): int { initial.offset + distance }
  function VirtualEnd(initial: ItemInfo, distance: int): int { OffsetEnd(initial) + distance }

  /** The neighbour `onDrag` moves the dragged item to, if any: nothing without a held
      item, a current index, or a visible live item for that index. The lookup of the
      live item calls `first()` on the visible list, hence the non-emptiness demand. */
  function DragTarget(initial: Option<ItemInfo>, currentIndex: Option<int>, distance: int,
                      layout: LayoutInfo): (r: Option<ItemInfo>)
    requires initial.Some? && currentIndex.Some? ==> |layout.visible| > 0
    ensures r.Some? ==> initial.Some? && currentIndex.Some?
    ensures r.Some? ==> VisibleItemInfoFor(layout, currentIndex.value).Some?
    ensures r.Some? ==> r.value in layout.visible
    ensures r.Some? ==> Overlaps(r.value, VirtualStart(initial.value, distance),
                                 VirtualEnd(initial.value, distance))
    ensures r.Some? ==> r.value.index != VisibleItemInfoFor(layout, currentIndex.value).value.index
    ensures r.Some? ==> Overtakes(r.value, VirtualStart(initial.value, distance),
                                  VirtualEnd(initial.value, distance),
                                  VisibleItemInfoFor(layout, currentIndex.value).value)
    ensures r.None? && initial.Some? && currentIndex.Some? &&
            VisibleItemInfoFor(layout, currentIndex.value).Some? ==>
              forall item :: item in layout.visible ==>
                !IsSwapCandidate(item, VirtualStart(initial.value, distance), VirtualEnd(initial.value, distance),
                                 VisibleItemInfoFor(layout, currentIndex.value).value)
  {
    match initial
    case None => None
    case Some(init) =>
      match currentIndex
      case None => None
      case Some(ci) =>
        match VisibleItemInfoFor(layout, ci)
        case None => None
        case Some(current) =>
          SelectTarget(layout.visible, VirtualStart(init, distance), VirtualEnd(init, distance), current)
  }

  /** One `onMove(from, to)` call. `deferred` marks the move launched in a coroutine together
      with `scrollToItem(firstVisibleItemIndex, firstVisibleItemScrollOffset)`, which restores
      the scroll anchor; otherwise the move is applied synchronously. */
  datatype MoveRequest = MoveRequest(from: int, to: int, deferred: bool)

  /** The move `onDrag` emits for its target, from the current dragged index. */
  function NextMove(initial: Option<ItemInfo>, currentIndex: Option<int>, distance: int,
                    layout: LayoutInfo): (m: Option<MoveRequest>)
    requires initial.Some? && currentIndex.Some? ==> |layout.visible| > 0
    ensures m.Some? <==> DragTarget(initial, currentIndex, distance, layout).Some?
    ensures m.Some? ==> currentIndex.Some? && m.value.from == currentIndex.value
    ensures m.Some? ==> m.value.to == DragTarget(initial, currentIndex, distance, layout).value.index
    ensures m.Some? ==> (m.value.deferred <==> m.value.from == layout.firstVisibleItemIndex ||
                                               m.value.to == layout.firstVisibleItemIndex)
  {
    match DragTarget(initial, currentIndex, distance, layout)
    case None => None
    case Some(target) =>
      var from := currentIndex.value;
      Some(MoveRequest(from, target.index,
                       target.index == layout.firstVisibleItemIndex || from == layout.firstVisibleItemIndex))
  }

  /** A drag whose virtual leading edge is level with the live item of the dragged index:
      the one case in which the source's threshold and the corrected one differ. */
  predicate LevelDrag(initial: Option<ItemInfo>, currentIndex: Option<int>, distance: int,
                      layout: LayoutInfo)
    requires initial.Some? && currentIndex.Some? ==> |layout.visible| > 0
  {
    initial.Some? && currentIndex.Some? && VisibleItemInfoFor(layout, currentIndex.value).Some? &&
    VirtualStart(initial.value, distance) == VisibleItemInfoFor(layout, currentIndex.value).value.offset
  }

  /** The neighbour the source's `onDrag` moves the dragged item to: the same lookups as
      `DragTarget`, with the source's threshold. */
  function DragTargetAsWritten(initial: Option<ItemInfo>, currentIndex: Option<int>, distance: int,
                               layout: LayoutInfo): (r: Option<ItemInfo>)
    requires initial.Some? && currentIndex.Some? ==> |layout.visible| > 0
    ensures r.Some? ==> initial.Some? && currentIndex.Some?
    ensures r.Some? ==> VisibleItemInfoFor(layout, currentIndex.value).Some?
    ensures r.Some? ==> r.value in layout.visible
    ensures r.Some? ==> IsSwapCandidateAsWritten(r.value, VirtualStart(initial.value, distance),
                                                 VirtualEnd(initial.value, distance),
                                                 VisibleItemInfoFor(layout, currentIndex.value).value)
    ensures r.None? && initial.Some? && currentIndex.Some? &&
            VisibleItemInfoFor(layout, currentIndex.value).Some? ==>
              forall item :: item in layout.visible ==>
                !IsSwapCandidateAsWritten(item, VirtualStart(initial.value, distance),
                                          VirtualEnd(initial.value, distance),
                                          VisibleItemInfoFor(layout, currentIndex.value).value)
  {
    match initial
    case None => None
    case Some(init) =>
      match currentIndex
      case None => None
      case Some(ci) =>
        match VisibleItemInfoFor(layout, ci)
        case None => None
        case Some(current) =>
          SelectTargetAsWritten(layout.visible, VirtualStart(init, distance), VirtualEnd(init, distance), current)
  }

  /** The move the source's `onDrag` emits. */
  function NextMoveAsWritten(initial: Option<ItemInfo>, currentIndex: Option<int>, distance: int,
                             layout: LayoutInfo): (m: Option<MoveRequest>)
    requires initial.Some? && currentIndex.Some? ==> |layout.visible| > 0
    ensures m.Some? <==> DragTargetAsWritten(initial, currentIndex, distance, layout).Some?
    ensures m.Some? ==> currentIndex.Some? && m.value.from == currentIndex.value
    ensures m.Some? ==> m.value.to == DragTargetAsWritten(initial, currentIndex, distance, layout).value.index
    ensures m.Some? ==> (m.value.deferred <==> m.value.from == layout.firstVisibleItemIndex ||
                                               m.value.to == layout.firstVisibleItemIndex)
  {
    match DragTargetAsWritten(initial, currentIndex, distance, layout)
    case None => None
    case Some(target) =>
      var from := currentIndex.value;
      Some(MoveRequest(from, target.index,
                       target.index == layout.firstVisibleItemIndex || from == layout.firstVisibleItemIndex))
  }

  /** With a held item and a visible live item, both drag targets are the selections
      over the dragged item's virtual extent. */
  lemma DragTargetsAt(initial: ItemInfo, currentIndex: int, distance: int, layout: LayoutInfo,
                      live: ItemInfo)
    requires |layout.visible| > 0 && VisibleItemInfoFor(layout, currentIndex) == Some(live)
    ensures DragTarget(Some(initial), Some(currentIndex), distance, layout) ==
            SelectTarget(layout.visible, VirtualStart(initial, distance), VirtualEnd(initial, distance), live)
    ensures DragTargetAsWritten(Some(initial), Some(currentIndex), distance, layout) ==
            SelectTargetAsWritten(layout.visible, VirtualStart(initial, distance), VirtualEnd(initial, distance), live)
  {
  }

  /** Two predicates that agree on every element find the same first position. */
  lemma FirstIndexAgree<T>(s: seq<T>, p: T -> bool, q: T -> bool)
    requires forall j :: 0 <= j < |s| ==> p(s[j]) == q(s[j])
    ensures FirstIndex(s, p) == FirstIndex(s, q)
  {
  }

  /** Whenever the dragged item is above or below its live position, the corrected rule
      selects exactly what the source's rule selects: the two differ only on a level drag. */
  lemma CorrectedAgreesWhenMoved(visible: seq<ItemInfo>, startOffset: int, endOffset: int,
                                 current: ItemInfo)
    requires startOffset != current.offset
    ensures SelectTarget(visible, startOffset, endOffset, current) ==
            SelectTargetAsWritten(visible, startOffset, endOffset, current)
  {
    FirstIndexAgree(visible,
                    item => IsSwapCandidate(item, startOffset, endOffset, current),
                    item => IsSwapCandidateAsWritten(item, startOffset, endOffset, current));
  }

  /** Except on a level drag, the corrected controller emits exactly the source's move. */
  lemma NextMoveAgreesUnlessLevel(initial: Option<ItemInfo>, currentIndex: Option<int>, distance: int,
                                  layout: LayoutInfo)
    requires initial.Some? && currentIndex.Some? ==> |layout.visible| > 0
    requires !LevelDrag(initial, currentIndex, distance, layout)
    ensures NextMove(initial, currentIndex, distance, layout) ==
            NextMoveAsWritten(initial, currentIndex, distance, layout)
  {
    if initial.Some? && currentIndex.Some? && VisibleItemInfoFor(layout, currentIndex.value).Some? {
      CorrectedAgreesWhenMoved(layout.visible, VirtualStart(initial.value, distance),
                               VirtualEnd(initial.value, distance),
                               VisibleItemInfoFor(layout, currentIndex.value).value);
    }
  }

  // ---------------------------------------------------------------- auto-scroll

  /** `checkForOverScroll`: the signed amount by which the dragged item's virtual extent
      passes the viewport edge it is being dragged towards, 0 when it does not or when no
      item is held. */
  function OverScroll(initial: Option<ItemInfo>, distance: int, layout: LayoutInfo): (r: int)
    ensures initial.None? || distance == 0 ==> r == 0
    ensures r > 0 <==> initial.Some? && distance > 0 &&
                       VirtualEnd(initial.value, distance) > layout.viewportEndOffset
    ensures r < 0 <==> initial.Some? && distance < 0 &&
                       VirtualStart(initial.value, distance) < layout.viewportStartOffset
    ensures r > 0 ==> r == VirtualEnd(initial.value, distance) - layout.viewportEndOffset
    ensures r < 0 ==> r == VirtualStart(initial.value, distance) - layout.viewportStartOffset
  {
    match initial
    case None => 0
    case Some(it) =>
      var startOffset := it.offset + distance;
      var endOffset := OffsetEnd(it) + distance;
      if distance > 0 then
        (var diff := endOffset - layout.viewportEndOffset; if diff > 0 then diff else 0)
      else if distance < 0 then
        (var diff := startOffset - layout.viewportStartOffset; if diff < 0 then diff else 0)
      else 0
  }

  /** A running `scrollBy` coroutine: the amount it scrolls and whether it is still active. */
  datatype ScrollJob = ScrollJob(amount: int, active: bool)

  /** `overscrollJob?.isActive == true`. */
  predicate IsActive(job: Option<ScrollJob>)
  {
    job.Some? && job.value.active
  }

  /** `overscrollJob?.cancel()`: a cancelled job is no longer active; no job stays no job. */
  function Cancel(job: Option<ScrollJob>): (r: Option<ScrollJob>)
    ensures !IsActive(r)
    ensures r.None? <==> job.None?
    ensures r.Some? ==> r.value.amount == job.value.amount
  {
    match job
    case None => None
    case Some(j) => Some(j.(active := false))
  }

  /** What one drag event does about auto-scroll. */
  datatype ScrollAction =
    | NotChecked              // no held item: the overshoot is never computed
    | StillScrolling          // a scroll job is active: return without launching another
    | LaunchScrollBy(amount: int)  // a fresh `scrollBy(amount)` job replaces the old one
    | CancelScroll            // zero overshoot: cancel the current job, if any

  /** The gating both hosts apply after a drag event: nothing new while a job is active,
      else a non-zero overshoot launches exactly one scroll and a zero one cancels. */
  function GateOverScroll(job: Option<ScrollJob>, overshoot: int): (a: ScrollAction)
    ensures a != NotChecked
    ensures a == StillScrolling <==> IsActive(job)
    ensures a.LaunchScrollBy? <==> !IsActive(job) && overshoot != 0
    ensures a.LaunchScrollBy? ==> a.amount == overshoot
  {
    if IsActive(job) then StillScrolling
    else if overshoot != 0 then LaunchScrollBy(overshoot)
    else CancelScroll
  }

  /** The job after a scroll action. */
  function AfterScrollAction(job: Option<ScrollJob>, a: ScrollAction): (r: Option<ScrollJob>)
    ensures a.LaunchScrollBy? ==> IsActive(r) && r.value.amount == a.amount
    ensures a == CancelScroll ==> !IsActive(r)
    ensures a == NotChecked || a == StillScrolling ==> r == job
  {
    match a
    case LaunchScrollBy(amount) => Some(ScrollJob(amount, true))
    case CancelScroll => Cancel(job)
    case _ => job
  }

  // ---------------------------------------------------------------- rendering

  /** `itemDisplacement`: the translation that draws the live item at the dragged index at
      the dragged item's virtual leading edge; None when there is no current index or that
      index is not visible. A missing held item counts as offset 0 (`?: 0f`). */
  function ItemDisplacement(initial: Option<ItemInfo>, distance: int, currentIndex: Option<int>,
                            layout: LayoutInfo): (r: Option<int>)
    requires currentIndex.Some? ==> |layout.visible| > 0
    ensures r.Some? <==> currentIndex.Some? && VisibleItemInfoFor(layout, currentIndex.value).Some?
    ensures r.Some? && initial.Some? ==>
              VisibleItemInfoFor(layout, currentIndex.value).value.offset + r.value ==
              VirtualStart(initial.value, distance)
    ensures r.Some? && initial.None? ==>
              VisibleItemInfoFor(layout, currentIndex.value).value.offset + r.value == distance
  {
    match currentIndex
    case None => None
    case Some(ci) =>
      match VisibleItemInfoFor(layout, ci)
      case None => None
      case Some(item) =>
        var base := if initial.Some? then initial.value.offset else 0;
        Some(base + distance - item.offset)
  }
}
