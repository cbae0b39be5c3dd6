/**
 * The virtual-scrolling window shared by `VirtualScroller.getVisibleRange`
 * and the `useVirtualScrolling` hook: which item indices to render for a
 * scroll position, with a buffer of extra rows on each side.
 *
 * Heights and the scroll offset are whole pixels; the container height is a
 * parameter (the element's `clientHeight`).
 */
module Viewport {
  import opened Seqs
  import opened Arith

  /** The buffer both the scroller and the hook default to. */
  const DefaultBuffer := 5

  /** `Math.ceil(containerHeight / itemHeight)`: the rows the container can show. */
  function VisibleCount(containerHeight: int, itemHeight: int): int
    requires itemHeight > 0
  {
    CeilDiv(containerHeight, itemHeight)
  }

  /** `Math.max(0, Math.floor(scrollTop / itemHeight) - buffer)`. */
  function StartIndex(scrollTop: int, itemHeight: int, buffer: int): (start: int)
    requires itemHeight > 0
    ensures start >= 0
    ensures start == 0 || start == FloorDiv(scrollTop, itemHeight) - buffer
    ensures buffer >= 0 ==> start <= Max(0, FloorDiv(scrollTop, itemHeight))
  {
    Max(0, FloorDiv(scrollTop, itemHeight) - buffer)
  }

  /** `Math.min(total, start + visibleCount + buffer * 2)`. */
  function EndIndex(total: int, start: int, visibleCount: int, buffer: int): (end: int)
    ensures end <= total && end <= start + visibleCount + 2 * buffer
    ensures end == total || end == start + visibleCount + 2 * buffer
  {
    Min(total, start + visibleCount + buffer * 2)
  }

  /** Item `i` (occupying `[i * h, (i + 1) * h)`) shows in the viewport `[scrollTop, scrollTop + containerHeight)`. */
  predicate OnScreen(i: int, scrollTop: int, containerHeight: int, itemHeight: int) {
    i * itemHeight < scrollTop + containerHeight && scrollTop < (i + 1) * itemHeight
  }

  /** The range `getVisibleRange` returns. */
  datatype Range = Range(start: int, end: int, offset: int)

  /**
   * `VirtualScroller.getVisibleRange`: a window starting at a non-negative
   * index, ending no later than the list, no wider than the visible rows plus
   * both buffers, drawn at `start * itemHeight`.
   */
  function GetVisibleRange(totalItems: nat, scrollTop: int, containerHeight: int, itemHeight: int, bufferSize: int): (r: Range)
    requires itemHeight > 0
    ensures 0 <= r.start
    ensures r.end <= totalItems
    ensures r.end <= r.start + VisibleCount(containerHeight, itemHeight) + 2 * bufferSize
    ensures r.offset == r.start * itemHeight
  {
    var start := StartIndex(scrollTop, itemHeight, bufferSize);
    Range(start, EndIndex(totalItems, start, VisibleCount(containerHeight, itemHeight), bufferSize), start * itemHeight)
  }

  /**
   * Coverage: with a buffer of at least one row, every item that shows in the
   * viewport lies inside the window. (With no buffer the window can miss the
   * partly shown last row: item height 10, scroll 5, container 10 gives the
   * window [0, 1) while item 1 shows.)
   */
  lemma WindowCovers(totalItems: nat, scrollTop: int, containerHeight: int, itemHeight: int, bufferSize: int, i: int)
    requires itemHeight > 0 && bufferSize >= 1
    requires 0 <= i < totalItems && OnScreen(i, scrollTop, containerHeight, itemHeight)
    ensures var r := GetVisibleRange(totalItems, scrollTop, containerHeight, itemHeight, bufferSize);
      r.start <= i < r.end
  {
    var h := itemHeight;
    var q := FloorDiv(scrollTop, h);
    var vc := VisibleCount(containerHeight, h);
    CancelLt(h, q, i + 1);
    assert i * h < h * (q + 1) + h * vc;
    CancelLt(h, i, q + 1 + vc);
  }

  /** What `useVirtualScrolling` hands to the list it renders. */
  datatype VirtualView<T> = VirtualView(visibleItems: seq<T>, startIndex: int, endIndex: int, offsetY: int, totalHeight: int)

  /**
   * `useVirtualScrolling` at scroll position `scrollTop`: the window, the
   * items in it (`items.slice(startIndex, endIndex)`), where to draw them
   * and the height of the whole list. The rendered rows fit inside the list
   * whenever there are any.
   */
  function UseVirtualScrolling<T>(items: seq<T>, itemHeight: int, containerHeight: int, buffer: int, scrollTop: int): (v: VirtualView<T>)
    requires itemHeight > 0
    ensures v.startIndex >= 0
    ensures v.endIndex <= |items|
    ensures v.endIndex <= v.startIndex + VisibleCount(containerHeight, itemHeight) + 2 * buffer
    ensures 0 <= v.endIndex ==> v.visibleItems == if v.startIndex < v.endIndex then items[v.startIndex..v.endIndex] else []
    ensures v.offsetY == v.startIndex * itemHeight
    ensures v.totalHeight == |items| * itemHeight
    ensures v.startIndex < v.endIndex ==> v.offsetY + |v.visibleItems| * itemHeight <= v.totalHeight
  {
    var start := StartIndex(scrollTop, itemHeight, buffer);
    var end := EndIndex(|items|, start, VisibleCount(containerHeight, itemHeight), buffer);
    var visible := Slice(items, start, end);
    RowsFit(|items|, start, end, itemHeight);
    VirtualView(visible, start, end, start * itemHeight, |items| * itemHeight)
  }

  /** Rows `start .. end-1` drawn from `start * h` end within `n` rows. */
  lemma RowsFit(n: int, start: int, end: int, h: int)
    requires h > 0 && end <= n
    ensures start < end ==> start * h + (end - start) * h <= n * h
  {
    if start < end {
      assert start * h + (end - start) * h == end * h;
      assert end * h <= n * h;
    }
  }

  /** The hook and the scroller compute the same window for the same inputs. */
  lemma HookMatchesScroller<T>(items: seq<T>, itemHeight: int, containerHeight: int, buffer: int, scrollTop: int)
    requires itemHeight > 0
    ensures var v := UseVirtualScrolling(items, itemHeight, containerHeight, buffer, scrollTop);
      var r := GetVisibleRange(|items|, scrollTop, containerHeight, itemHeight, buffer);
      v.startIndex == r.start && v.endIndex == r.end && v.offsetY == r.offset
  {
  }

  /** With a non-negative container height and buffer the window end is never negative, so the slice is the index range. */
  lemma WindowEndNonNegative<T>(items: seq<T>, itemHeight: int, containerHeight: int, buffer: int, scrollTop: int)
    requires itemHeight > 0 && containerHeight >= 0 && buffer >= 0
    ensures var v := UseVirtualScrolling(items, itemHeight, containerHeight, buffer, scrollTop);
      0 <= v.endIndex && v.visibleItems == if v.startIndex < v.endIndex then items[v.startIndex..v.endIndex] else []
  {
    assert VisibleCount(containerHeight, itemHeight) >= 0;
  }
}
