/** The layout snapshot a lazily rendered vertical list hands to the drag controller:
    the visible items with their on-screen extents, the viewport bounds and the
    first-visible-item scroll anchor. Offsets and sizes are pixels along the scroll axis. */
module LazyLayout {

  /** A Kotlin nullable value `T?`. */
  datatype Option<T> = None | Some(value: T)

  /** One visible item: its position in the logical list, its stable key,
      its leading edge relative to the viewport and its extent. */
  datatype ItemInfo = ItemInfo(index: int, key: int, offset: int, size: int)

  /** The host's layout pass: visible items in index order, the viewport's bounds and
      the anchor (first visible item index and how far it is scrolled). */
  datatype LayoutInfo = LayoutInfo(
    visible: seq<ItemInfo>,
    viewportStartOffset: int,
    viewportEndOffset: int,
    firstVisibleItemIndex: int,
    firstVisibleItemScrollOffset: int)

  /** The trailing edge of an item. */
  function OffsetEnd(item: ItemInfo): int
  {
    item.offset + item.size
  }

  /** `y in item.offset..item.offsetEnd`: the closed interval of the item contains y. */
  predicate Contains(item: ItemInfo, y: int)
  {
    item.offset <= y <= OffsetEnd(item)
  }

  /** The visible items carry consecutive logical indices, as a lazy list lays them out. */
  predicate Contiguous(visible: seq<ItemInfo>)
  {
    forall k :: 0 <= k < |visible| ==> visible[k].index == visible[0].index + k
  }

  /** `getVisibleItemInfoFor`: the visible item at position `absoluteIndex - first().index`,
      or None when that position is outside the visible list. The source calls `first()`,
      which throws on an empty list, so the list must be non-empty. */
  function VisibleItemInfoFor(layout: LayoutInfo, absoluteIndex: int): (r: Option<ItemInfo>)
    requires |layout.visible| > 0
    ensures r.Some? <==> 0 <= absoluteIndex - layout.visible[0].index < |layout.visible|
    ensures r.Some? ==> r.value in layout.visible
  {
    var pos := absoluteIndex - layout.visible[0].index;
    if 0 <= pos < |layout.visible| then Some(layout.visible[pos]) else None
  }

  /** On a contiguous layout the positional lookup is a lookup by logical index:
      it finds exactly the visible item whose index is `absoluteIndex`, and None
      exactly when no visible item has that index. */
  lemma VisibleItemInfoForByIndex(layout: LayoutInfo, absoluteIndex: int)
    requires |layout.visible| > 0 && Contiguous(layout.visible)
    ensures VisibleItemInfoFor(layout, absoluteIndex).Some? ==>
              VisibleItemInfoFor(layout, absoluteIndex).value.index == absoluteIndex
    ensures VisibleItemInfoFor(layout, absoluteIndex).None? <==>
              forall item :: item in layout.visible ==> item.index != absoluteIndex
  {
    var vis := layout.visible;
    if VisibleItemInfoFor(layout, absoluteIndex).None? {
      forall item | item in vis ensures item.index != absoluteIndex {
        var k :| 0 <= k < |vis| && vis[k] == item;
      }
    }
  }

  /** The item found for position k of a contiguous layout is the item at position k. */
  lemma VisibleItemInfoForAt(layout: LayoutInfo, k: int)
    requires 0 <= k < |layout.visible| && Contiguous(layout.visible)
    ensures VisibleItemInfoFor(layout, layout.visible[k].index) == Some(layout.visible[k])
  {
  }
}
