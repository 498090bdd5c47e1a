/**
 * Worked examples over ten items of size 50, the sizes a fixed `itemSize`
 * of 50 produces, each proved from the manager's contracts alone: the
 * window for a 120-pixel viewport at the top, with and without overscan,
 * after a change of item size, the item found at an item boundary, and the
 * offset that scrolls item 5 to the start.
 */
module Scenarios {
  import opened Wrappers
  import opened Constants
  import opened Measurements
  import opened SizeAndPositions
  import opened Helper

  /** With nothing overscanned, items 0..2 cover the first 120 pixels. */
  method UniformWindow(getter: SizeGetter) returns (r: Result<Option<Window>, Error>)
    requires getter == ItemSizeGetter(Fixed(50))
    ensures r == Success(Some(Window(0, 2)))
  {
    var m := new SizeAndPositionManager(10, getter, EstimatedItemSize(Fixed(50), None));
    r := VisibleWindow(m, 0);
  }

  /** An overscan of 2 adds two items below and none above the first item. */
  method UniformWindowOverscanned(getter: SizeGetter) returns (r: Result<Option<Window>, Error>)
    requires getter == ItemSizeGetter(Fixed(50))
    ensures r == Success(Some(Window(0, 4)))
  {
    var m := new SizeAndPositionManager(10, getter, EstimatedItemSize(Fixed(50), None));
    r := VisibleWindow(m, 2);
  }

  /**
   * The window of a 120-pixel viewport at offset 0 on a coherent manager of
   * ten items of size 50: the walk covers items 0, 1 and 2.
   */
  method VisibleWindow(m: SizeAndPositionManager, overscanCount: int) returns (r: Result<Option<Window>, Error>)
    requires m.Valid() && m.coherent && m.itemCount == 10
    requires m.itemSizeGetter == ItemSizeGetter(Fixed(50)) && m.estimatedItemSize == 50
    modifies m`data, m`lastMeasuredIndex
    ensures r == Success(Some(Overscan(Window(0, 2), overscanCount, 10)))
  {
    FixedTotalSize(m, 50);
    ghost var first, last;
    r, first, last := m.GetVisibleRange(120, 0, overscanCount);
    FixedTotalSize(m, 50);
    if r.Success? && r.value.Some? {
      FixedOffsets(m.data, 50, m.lastMeasuredIndex, first);
      FixedOffsets(m.data, 50, m.lastMeasuredIndex, last);
      if last > 2 {
        FixedOffsets(m.data, 50, m.lastMeasuredIndex, 2);
      }
    }
  }

  /** Aligning item 5 to the start scrolls to its offset, 250. */
  method UniformScrollToStart(getter: SizeGetter) returns (r: Result<real, Error>)
    requires getter == ItemSizeGetter(Fixed(50))
    ensures r == Success(250.0)
  {
    var m := new SizeAndPositionManager(10, getter, EstimatedItemSize(Fixed(50), None));
    r := m.GetUpdatedOffsetForIndex(Some(Start), 120, 0, 5);
    FixedOffsets(m.data, 50, m.lastMeasuredIndex, 5);
    FixedTotalSize(m, 50);
  }

  /**
   * The list component's protocol when the item size changes: pass the new
   * size callback, then the new estimate, to the manager, and forget every
   * measurement from item 0 on. The window is then that of the new sizes,
   * whatever the old ones had measured.
   */
  method ResizedWindow(oldGetter: SizeGetter, getter: SizeGetter) returns (r: Result<Option<Window>, Error>)
    requires getter == ItemSizeGetter(Fixed(50))
    ensures r == Success(Some(Window(0, 2)))
  {
    var m := new SizeAndPositionManager(10, oldGetter, 30);
    var measured := m.GetSizeAndPositionForIndex(7);
    m.UpdateConfig(None, Some(getter), None);
    m.UpdateConfig(None, None, Some(EstimatedItemSize(Fixed(50), None)));
    m.ResetItem(0);
    r := VisibleWindow(m, 0);
  }

  /**
   * An offset on the boundary between items 0 and 1 finds item 1, the item
   * that starts there; one inside item 0 finds item 0.
   */
  method UniformNearestAtBoundary(getter: SizeGetter) returns (atBoundary: Result<int, Error>, inside: Result<int, Error>)
    requires getter == ItemSizeGetter(Fixed(50))
    ensures atBoundary == Success(1) && inside == Success(0)
  {
    var m := new SizeAndPositionManager(10, getter, EstimatedItemSize(Fixed(50), None));
    assert NonNegativeSizes(getter);
    atBoundary := m.FindNearestItem(Some(50));
    if atBoundary.Success? {
      FixedOffsets(m.data, 50, m.lastMeasuredIndex, atBoundary.value);
    }
    inside := m.FindNearestItem(Some(20));
    if inside.Success? {
      FixedOffsets(m.data, 50, m.lastMeasuredIndex, inside.value);
    }
  }
}
