/**
 * The size-and-position manager of a virtualised list: a lazily filled
 * prefix-sum cache over `itemCount` items whose sizes come from a callback,
 * with the searches that map a scroll offset to an item, the visible window
 * and the scroll offset that brings an item into view.
 */
module SizeAndPositions {
  import opened Wrappers
  import opened Constants
  import opened Measurements

  /** The three exceptions the manager throws. */
  datatype Error =
    | OutOfRange(index: int)     // requested index outside 0..itemCount-1
    | InvalidSize(index: int)    // the size callback gave null, undefined or NaN
    | InvalidOffset              // a NaN scroll offset

  /** The `{start, stop}` pair of item indices to render (both inclusive). */
  datatype Window = Window(start: int, stop: int)

  function RMax(a: real, b: real): real { if a < b then b else a }
  function RMin(a: real, b: real): real { if a < b then a else b }

  /**
   * Widens a window by `overscanCount` items on each side, clamped to the
   * list; an `overscanCount` of 0 is falsy and leaves the window alone.
   */
  function Overscan(w: Window, overscanCount: int, itemCount: int): (r: Window)
    ensures overscanCount == 0 ==> r == w
    ensures overscanCount != 0 ==> 0 <= r.start && r.stop <= itemCount - 1
    ensures 0 <= overscanCount && 0 <= w.start <= w.stop <= itemCount - 1 ==>
      0 <= r.start <= w.start && w.stop <= r.stop <= itemCount - 1
    ensures 0 <= overscanCount && 0 <= w.start <= w.stop <= itemCount - 1 ==>
      w.start - r.start == Min(w.start, overscanCount) &&
      r.stop - w.stop == Min(itemCount - 1 - w.stop, overscanCount)
  {
    if overscanCount == 0 then w
    else Window(Max(0, w.start - overscanCount), Min(w.stop + overscanCount, itemCount - 1))
  }

  /**
   * The offset an alignment asks for before clamping to the content. A
   * missing alignment means `Start`; `Auto` keeps the current offset when
   * the item is already in view and otherwise snaps to the nearer edge,
   * except that an item larger than the viewport always ends with it.
   */
  function IdealOffset(align: Option<Alignment>, containerSize: int, currentOffset: int, datum: SizeAndPosition): (r: real)
    // the item's leading edge meets the viewport's leading edge
    ensures align.None? || align == Some(Start) ==> r == datum.offset as real
    // the item's trailing edge meets the viewport's trailing edge
    ensures align == Some(End) ==> r + containerSize as real == (datum.offset + datum.size) as real
    // the item's centre meets the viewport's centre
    ensures align == Some(Center) ==>
      2.0 * r + containerSize as real == (2 * datum.offset + datum.size) as real
    // an item already fully in view does not move the viewport
    ensures (align == Some(Auto) && currentOffset <= datum.offset &&
             datum.offset + datum.size <= currentOffset + containerSize) ==> r == currentOffset as real
    // an item before the viewport is brought to its leading edge
    ensures align == Some(Auto) && datum.size <= containerSize && datum.offset < currentOffset ==>
      r == datum.offset as real
    // an item past the viewport is brought to its trailing edge
    ensures (align == Some(Auto) && datum.size <= containerSize &&
             currentOffset + containerSize < datum.offset + datum.size) ==>
      r + containerSize as real == (datum.offset + datum.size) as real
    // an item larger than the viewport is always brought to its trailing edge
    ensures align == Some(Auto) && datum.size > containerSize ==>
      r + containerSize as real == (datum.offset + datum.size) as real
  {
    var maxOffset := datum.offset as real;
    var minOffset := (datum.offset - containerSize + datum.size) as real;
    match align
    case None => maxOffset
    case Some(Start) => maxOffset
    case Some(End) => minOffset
    case Some(Center) => maxOffset - (containerSize - datum.size) as real / 2.0
    case Some(Auto) => RMax(minOffset, RMin(maxOffset, currentOffset as real))
  }

  /**
   * The scroll offset of `getUpdatedOffsetForIndex` once the item's datum and
   * the total size are known: the ideal offset clamped to the content.
   */
  function AlignedOffset(align: Option<Alignment>, containerSize: int, currentOffset: int,
                         datum: SizeAndPosition, totalSize: int): (r: real)
    ensures containerSize <= 0 ==> r == 0.0
    // never scrolls before the content or past its end
    ensures 0.0 <= r <= RMax(0.0, (totalSize - containerSize) as real)
    // inside the content the alignment is honoured exactly
    ensures (containerSize > 0 &&
             0.0 <= IdealOffset(align, containerSize, currentOffset, datum) <= (totalSize - containerSize) as real) ==>
      r == IdealOffset(align, containerSize, currentOffset, datum)
    ensures containerSize > 0 && IdealOffset(align, containerSize, currentOffset, datum) < 0.0 ==> r == 0.0
    // past the end of the content it stops at the last full viewport, or at 0 when the content is shorter
    ensures containerSize > 0 && IdealOffset(align, containerSize, currentOffset, datum) > (totalSize - containerSize) as real ==>
      r == RMax(0.0, (totalSize - containerSize) as real)
  {
    if containerSize <= 0 then 0.0
    else RMax(0.0, RMin((totalSize - containerSize) as real, IdealOffset(align, containerSize, currentOffset, datum)))
  }

  /**
   * Item `k` is measured (at most `last`) and holds `target`: it starts
   * exactly there, or starts before it and ends after it, or it is the last
   * of `count` items and starts before it.
   */
  ghost predicate Covers(data: map<int, SizeAndPosition>, last: int, count: int, k: int, target: int)
  {
    0 <= k < count && k <= last && k in data &&
    data[k].offset <= target &&
    (target < data[k].offset + data[k].size || data[k].offset == target || k == count - 1)
  }

  /**
   * When every size is greater than 0, only item 0 holds offset 0. With
   * items of size 0 this fails: a binary search that lands on a later item
   * starting at 0 returns it.
   */
  lemma {:induction false} OnlyFirstHoldsZero(data: map<int, SizeAndPosition>, getter: SizeGetter,
                                              last: int, count: int, k: int)
    requires Chain(data, 0, last) && Agrees(data, getter, 0, last) && PositiveSizes(getter)
    requires Covers(data, last, count, k, 0)
    ensures k == 0
  {
    if k > 0 {
      assert NonNegativeSizes(getter);
      ChainAt(data, 0, last, k);
      ChainAt(data, 0, last, 0);
      AgreesAt(data, getter, 0, last, k - 1);
      OffsetsNonDecreasing(data, getter, 0, last, 0, k - 1);
    }
  }

  /**
   * What a binary search over `low..high` returns: an exact match, or the
   * index below the bracket when every probe was above the target, or the
   * last index whose offset is below the target.
   */
  ghost predicate Bracketed(data: map<int, SizeAndPosition>, last: int, k: int, low: int, high: int, target: int)
  {
    0 <= k &&
    ((low <= k <= high && k <= last && k in data && data[k].offset == target) ||
     (k == Max(0, low - 1) &&
      (low <= high ==> 0 <= low <= last && low in data && data[low].offset > target)) ||
     (low <= k <= high && k <= last && k in data && data[k].offset < target &&
      (k < high ==> k + 1 <= last && k + 1 in data && data[k + 1].offset > target)))
  }

  /**
   * A binary search over a bracket whose lower end starts at or before the
   * target and whose upper end starts at or after it (or is the last item)
   * finds the item covering the target, on a measured run from 0 whose
   * sizes agree with a callback giving no negative size.
   */
  lemma {:induction false} BracketCovers(data: map<int, SizeAndPosition>, getter: SizeGetter, last: int,
                                         count: int, low: int, high: int, k: int, target: int)
    requires Chain(data, 0, last) && Agrees(data, getter, 0, last) && NonNegativeSizes(getter)
    requires last < count && 0 <= low <= high <= count - 1
    requires low <= last && low in data && data[low].offset <= target
    requires high == count - 1 || target <= 0 ||
             (high <= last && high in data && target <= data[high].offset)
    requires Bracketed(data, last, k, low, high, target)
    ensures Covers(data, last, count, k, target)
  {
    if k <= last && k in data {
      ChainAt(data, 0, last, k);
      AgreesAt(data, getter, 0, last, k);
      OffsetsNonDecreasing(data, getter, 0, last, 0, k);
      ChainAt(data, 0, last, 0);
    }
    if low <= k < high && k + 1 <= last {
      ChainAt(data, 0, last, k + 1);
    }
  }

  class SizeAndPositionManager {
    var itemSizeGetter: SizeGetter
    var itemCount: int
    var estimatedItemSize: int
    /** The measurement frontier: entries above it are never trusted. */
    var lastMeasuredIndex: int
    /** The cache `itemSizeAndPositionData`, keyed by item index. */
    var data: map<int, SizeAndPosition>
    /** Index at which the current measured run started at offset 0. */
    ghost var origin: int
    /**
     * The cache describes the current configuration: measuring started at
     * index 0, the frontier lies inside the list and every trusted entry
     * has the size the current callback gives.
     */
    ghost var coherent: bool

    ghost predicate Valid()
      reads this
    {
      origin <= 0 && origin - 1 <= lastMeasuredIndex &&
      (lastMeasuredIndex < 0 ==> origin == lastMeasuredIndex + 1) &&
      Chain(data, origin, lastMeasuredIndex) &&
      (coherent ==> origin == 0 && lastMeasuredIndex < itemCount && AgreesWithGetter())
    }

    /** Every trusted entry has the size the current callback gives. */
    ghost predicate AgreesWithGetter()
      reads this
    {
      Agrees(data, itemSizeGetter, origin, lastMeasuredIndex)
    }

    /** The frontier did not move back and every trusted entry kept its value. */
    ghost predicate KeepsMeasured(oldData: map<int, SizeAndPosition>, oldLast: int)
      reads this
    {
      oldLast <= lastMeasuredIndex && Unchanged(oldData, data, origin, oldLast)
    }

    constructor (itemCount: int, itemSizeGetter: SizeGetter, estimatedItemSize: int)
      ensures Valid() && origin == 0 && coherent == (0 <= itemCount)
      ensures this.itemCount == itemCount && this.itemSizeGetter == itemSizeGetter
      ensures this.estimatedItemSize == estimatedItemSize
      ensures data == map[] && lastMeasuredIndex == -1
    {
      this.itemSizeGetter := itemSizeGetter;
      this.itemCount := itemCount;
      this.estimatedItemSize := estimatedItemSize;
      data := map[];
      lastMeasuredIndex := -1;
      origin := 0;
      coherent := 0 <= itemCount;
    }

    /**
     * Replaces the configuration fields that are given; the cache is left
     * as it is, so after a new callback or a shrink below the frontier it
     * is no longer coherent.
     */
    method UpdateConfig(newItemCount: Option<int>, newItemSizeGetter: Option<SizeGetter>,
                        newEstimatedItemSize: Option<int>)
      requires Valid()
      modifies this`itemCount, this`itemSizeGetter, this`estimatedItemSize, this`coherent
      ensures Valid()
      ensures itemCount == if newItemCount.Some? then newItemCount.value else old(itemCount)
      ensures estimatedItemSize ==
        if newEstimatedItemSize.Some? then newEstimatedItemSize.value else old(estimatedItemSize)
      ensures itemSizeGetter ==
        if newItemSizeGetter.Some? then newItemSizeGetter.value else old(itemSizeGetter)
      ensures coherent == (old(coherent) && newItemSizeGetter.None? && lastMeasuredIndex < itemCount)
    {
      if newItemCount.Some? {
        itemCount := newItemCount.value;
      }
      if newEstimatedItemSize.Some? {
        estimatedItemSize := newEstimatedItemSize.value;
      }
      if newItemSizeGetter.Some? {
        itemSizeGetter := newItemSizeGetter.value;
      }
      coherent := coherent && newItemSizeGetter.None? && lastMeasuredIndex < itemCount;
    }

    function GetLastMeasuredIndex(): (r: int)
      reads this
      requires Valid()
      ensures r == lastMeasuredIndex
      // the frontier always names a cached entry
      ensures r >= 0 ==> r in data
    {
      if lastMeasuredIndex >= 0 then ChainAt(data, origin, lastMeasuredIndex, lastMeasuredIndex); lastMeasuredIndex
      else lastMeasuredIndex
    }

    /**
     * The offset and size of the frontier item, or `{0, 0}` when nothing
     * is measured; it ends where the measured run's sizes add up to.
     */
    function GetSizeAndPositionOfLastMeasuredItem(): (r: SizeAndPosition)
      reads this
      requires Valid()
      ensures lastMeasuredIndex < 0 ==> r == SizeAndPosition(0, 0)
      ensures lastMeasuredIndex >= 0 ==> lastMeasuredIndex in data && r == data[lastMeasuredIndex]
      ensures r.offset + r.size == SumSizes(data, origin, lastMeasuredIndex + 1)
    {
      if lastMeasuredIndex >= 0 then
        OffsetIsSumOfSizes(data, origin, lastMeasuredIndex, lastMeasuredIndex);
        data[lastMeasuredIndex]
      else
        SizeAndPosition(0, 0)
    }

    /** The measured sizes plus the estimate for every item past the frontier. */
    function GetTotalSize(): (t: int)
      reads this
      requires Valid()
      ensures t == SumSizes(data, origin, lastMeasuredIndex + 1) +
                   (itemCount - lastMeasuredIndex - 1) * estimatedItemSize
      ensures lastMeasuredIndex == -1 ==> t == itemCount * estimatedItemSize
      // exact once every item is measured
      ensures origin == 0 && lastMeasuredIndex == itemCount - 1 ==> t == SumSizes(data, 0, itemCount)
    {
      var last := GetSizeAndPositionOfLastMeasuredItem();
      last.offset + last.size + (itemCount - lastMeasuredIndex - 1) * estimatedItemSize
    }

    /** Rewinds the frontier to just before `index`; the cache itself is kept. */
    method ResetItem(index: int)
      requires Valid()
      modifies this`lastMeasuredIndex, this`origin, this`coherent
      ensures Valid()
      ensures lastMeasuredIndex == Min(old(lastMeasuredIndex), index - 1)
      ensures lastMeasuredIndex >= 0 ==> origin == old(origin)
      // a rewind to a real item keeps the cache coherent, and a rewind to nothing
      // measured makes it coherent again, whatever the callback did before
      ensures coherent == ((old(coherent) && 0 <= index) || (lastMeasuredIndex == -1 && 0 <= itemCount))
      ensures old(AgreesWithGetter()) ==> AgreesWithGetter()
    {
      ChainPrefix(data, origin, lastMeasuredIndex, Min(lastMeasuredIndex, index - 1));
      if AgreesWithGetter() {
        AgreesPrefix(data, itemSizeGetter, origin, lastMeasuredIndex, Min(lastMeasuredIndex, index - 1));
      }
      lastMeasuredIndex := Min(lastMeasuredIndex, index - 1);
      if lastMeasuredIndex < 0 {
        origin := lastMeasuredIndex + 1;
      }
      coherent := (coherent && 0 <= index) || (lastMeasuredIndex == -1 && 0 <= itemCount);
    }

    /**
     * The measuring loop of `getSizeAndPositionForIndex`: writes the entries
     * after the frontier up to `index`, stopping at the first size that is
     * null, undefined or NaN (`failedAt`). The frontier itself is not moved.
     */
    method MeasureUpTo(index: int) returns (failedAt: Option<int>)
      requires Valid() && lastMeasuredIndex < index
      modifies this`data
      ensures data == Measure(old(data), itemSizeGetter, lastMeasuredIndex + 1, index,
                              RunEnd(old(data), origin, lastMeasuredIndex))
      ensures failedAt == FirstMissing(itemSizeGetter, lastMeasuredIndex + 1, index)
    {
      var last := GetSizeAndPositionOfLastMeasuredItem();
      var offset := last.offset + last.size;
      var i := lastMeasuredIndex + 1;
      while i <= index
        invariant lastMeasuredIndex + 1 <= i <= index + 1
        invariant Measure(data, itemSizeGetter, i, index, offset) ==
                  Measure(old(data), itemSizeGetter, lastMeasuredIndex + 1, index,
                          RunEnd(old(data), origin, lastMeasuredIndex))
        invariant FirstMissing(itemSizeGetter, i, index) ==
                  FirstMissing(itemSizeGetter, lastMeasuredIndex + 1, index)
      {
        var size := SizeOf(itemSizeGetter, i);
        if size.None? {
          return Some(i);
        }
        data := data[i := SizeAndPosition(size.value, offset)];
        offset := offset + size.value;
        i := i + 1;
      }
      return None;
    }

    /**
     * The offset and size of item `index`, measuring every item from the
     * frontier up to it first. A size of null, undefined or NaN throws in
     * the middle of the run: the entries written before it stay in the
     * cache but the frontier does not move.
     */
    method GetSizeAndPositionForIndex(index: int) returns (r: Result<SizeAndPosition, Error>)
      requires Valid()
      modifies this`data, this`lastMeasuredIndex
      ensures Valid() && KeepsMeasured(old(data), old(lastMeasuredIndex))
      ensures !(0 <= index < itemCount) ==>
        r == Failure(OutOfRange(index)) && data == old(data) && lastMeasuredIndex == old(lastMeasuredIndex)
      // a cached item is answered from the cache without calling the callback
      ensures 0 <= index <= old(lastMeasuredIndex) && index < itemCount ==>
        index in old(data) && r == Success(old(data)[index]) &&
        data == old(data) && lastMeasuredIndex == old(lastMeasuredIndex)
      // past the frontier: the loop's writes, then the item or the first missing size
      ensures 0 <= index < itemCount && old(lastMeasuredIndex) < index ==>
        data == Measure(old(data), itemSizeGetter, old(lastMeasuredIndex) + 1, index,
                        RunEnd(old(data), origin, old(lastMeasuredIndex))) &&
        (r.Success? <==> FirstMissing(itemSizeGetter, old(lastMeasuredIndex) + 1, index).None?) &&
        (r.Failure? ==>
           r == Failure(InvalidSize(FirstMissing(itemSizeGetter, old(lastMeasuredIndex) + 1, index).value)))
      ensures r.Success? ==>
        0 <= index <= lastMeasuredIndex && index in data && r.value == data[index] &&
        lastMeasuredIndex == Max(old(lastMeasuredIndex), index) &&
        Agrees(data, itemSizeGetter, old(lastMeasuredIndex) + 1, lastMeasuredIndex)
      ensures r.Failure? ==> lastMeasuredIndex == old(lastMeasuredIndex)
      ensures r.Failure? && 0 <= index < itemCount ==>
        r.error.InvalidSize? && old(lastMeasuredIndex) < r.error.index <= index &&
        SizeOf(itemSizeGetter, r.error.index).None?
    {
      UnchangedRefl(data, origin, lastMeasuredIndex);
      if index < 0 || index >= itemCount {
        return Failure(OutOfRange(index));
      }
      if index > lastMeasuredIndex {
        ghost var agreed := AgreesWithGetter();
        ghost var start := RunEnd(data, origin, lastMeasuredIndex);
        var failedAt := MeasureUpTo(index);
        MeasureExtends(old(data), itemSizeGetter, origin, lastMeasuredIndex + 1, index, start);
        if agreed {
          AgreesKept(old(data), data, itemSizeGetter, origin, lastMeasuredIndex);
        }
        if failedAt.Some? {
          ChainPrefix(data, origin, failedAt.value - 1, lastMeasuredIndex);
          return Failure(InvalidSize(failedAt.value));
        }
        if agreed {
          AgreesJoin(data, itemSizeGetter, origin, lastMeasuredIndex, index);
        }
        lastMeasuredIndex := index;
      }
      ChainAt(data, origin, lastMeasuredIndex, index);
      return Success(data[index]);
    }

    /**
     * Binary search of `low..high` for `target`, measuring each probe: an
     * exact match, or else `low - 1` floored at 0 once the bracket is empty.
     */
    method BinarySearch(low: int, high: int, target: int) returns (r: Result<int, Error>)
      requires Valid() && 0 <= low
      modifies this`data, this`lastMeasuredIndex
      ensures Valid() && KeepsMeasured(old(data), old(lastMeasuredIndex))
      ensures r.Success? ==> Bracketed(data, lastMeasuredIndex, r.value, low, high, target)
      ensures r.Failure? && high < itemCount ==>
        r.error.InvalidSize? && SizeOf(itemSizeGetter, r.error.index).None?
    {
      UnchangedRefl(data, origin, lastMeasuredIndex);
      var lo, hi := low, high;
      while lo <= hi
        invariant Valid() && KeepsMeasured(old(data), old(lastMeasuredIndex))
        invariant low <= lo && hi <= high
        invariant lo <= hi + 1 || (lo == low && hi == high)
        invariant lo > low ==> lo - 1 <= lastMeasuredIndex && lo - 1 in data && data[lo - 1].offset < target
        invariant hi < high ==>
          0 <= hi + 1 <= lastMeasuredIndex && hi + 1 in data && data[hi + 1].offset > target
        decreases hi - lo
      {
        var middle := lo + (hi - lo) / 2;
        ghost var before, beforeLast := data, lastMeasuredIndex;
        var d := GetSizeAndPositionForIndex(middle);
        UnchangedTrans(old(data), before, data, origin, old(lastMeasuredIndex), beforeLast);
        if d.Failure? {
          return Failure(d.error);
        }
        if lo > low {
          UnchangedAt(before, data, origin, beforeLast, lo - 1);
        }
        if hi < high {
          UnchangedAt(before, data, origin, beforeLast, hi + 1);
        }
        var currentOffset := d.value.offset;
        if currentOffset == target {
          return Success(middle);
        } else if currentOffset < target {
          lo := middle + 1;
        } else {
          hi := middle - 1;
        }
      }
      r := Success(if lo > 0 then lo - 1 else 0);
    }

    /**
     * The probing loop of `exponentialSearch`: from `index`, measures items
     * `index`, `index+1`, `index+3`, ... (the step doubles) until one starts
     * at or after `target` or the list ends, and returns the index it
     * stopped at; `prev` is the probe before it, which starts before `target`.
     */
    method ProbeForward(index: int, target: int) returns (failure: Option<Error>, idx: int, ghost prev: int)
      requires Valid() && 0 <= index
      modifies this`data, this`lastMeasuredIndex
      ensures Valid() && KeepsMeasured(old(data), old(lastMeasuredIndex))
      ensures failure.Some? ==> failure.value.InvalidSize? && SizeOf(itemSizeGetter, failure.value.index).None?
      ensures failure.None? ==> index <= idx
      // the probe it stopped at starts at or after the target
      ensures failure.None? && idx < itemCount ==>
        idx <= lastMeasuredIndex && idx in data && data[idx].offset >= target
      // the probe before lies between half the stopping index and the stopping index
      ensures failure.None? && idx > index ==>
        idx / 2 <= prev <= idx && 0 <= prev < itemCount &&
        prev <= lastMeasuredIndex && prev in data && data[prev].offset < target
    {
      UnchangedRefl(data, origin, lastMeasuredIndex);
      idx, prev := index, index;
      var interval := 1;
      while idx < itemCount
        invariant Valid() && KeepsMeasured(old(data), old(lastMeasuredIndex))
        invariant interval >= 1 && idx == index + interval - 1
        invariant interval > 1 ==>
          2 * prev + 2 == 2 * index + interval &&
          0 <= prev < itemCount && prev <= lastMeasuredIndex && prev in data && data[prev].offset < target
        decreases itemCount - idx
      {
        ghost var before, beforeLast := data, lastMeasuredIndex;
        var d := GetSizeAndPositionForIndex(idx);
        UnchangedTrans(old(data), before, data, origin, old(lastMeasuredIndex), beforeLast);
        if d.Failure? {
          return Some(d.error), idx, prev;
        }
        if d.value.offset >= target {
          if interval > 1 {
            UnchangedAt(before, data, origin, beforeLast, prev);
            assert idx <= 2 * prev + 1;
          }
          return None, idx, prev;
        }
        prev := idx;
        idx := idx + interval;
        interval := interval * 2;
      }
      assert interval > 1 ==> idx <= 2 * prev + 1;
      return None, idx, prev;
    }

    /**
     * Probes forward from `index` until an item starts at or after `target`,
     * then binary-searches between half the last probe and that probe.
     */
    method ExponentialSearch(index: int, target: int) returns (r: Result<int, Error>)
      requires Valid() && 0 <= index
      modifies this`data, this`lastMeasuredIndex
      ensures Valid() && KeepsMeasured(old(data), old(lastMeasuredIndex))
      ensures r.Success? ==> r.value >= 0
      // started inside the list, the bracket it searches stays inside it
      ensures r.Success? && index < itemCount ==> r.value < itemCount
      ensures r.Failure? ==> r.error.InvalidSize? && SizeOf(itemSizeGetter, r.error.index).None?
      // called, as findNearestItem does, from the frontier when the target lies past it
      ensures (coherent && NonNegativeSizes(itemSizeGetter) && 0 < itemCount &&
               index == Max(0, old(lastMeasuredIndex)) &&
               old(GetSizeAndPositionOfLastMeasuredItem()).offset < target && r.Success?) ==>
        Covers(data, lastMeasuredIndex, itemCount, r.value, target)
    {
      ghost var fromFrontier := coherent && NonNegativeSizes(itemSizeGetter) && 0 < itemCount &&
        index == Max(0, lastMeasuredIndex) && GetSizeAndPositionOfLastMeasuredItem().offset < target;
      if fromFrontier && 0 <= lastMeasuredIndex {
        ChainAt(data, origin, lastMeasuredIndex, lastMeasuredIndex);
      }
      var failure, idx, prev := ProbeForward(index, target);
      if failure.Some? {
        return Failure(failure.value);
      }
      if fromFrontier && idx == index && idx < itemCount {
        // the first probe is the frontier item, which starts before the target
        if 0 <= old(lastMeasuredIndex) {
          UnchangedAt(old(data), data, origin, old(lastMeasuredIndex), index);
        } else {
          ChainAt(data, origin, lastMeasuredIndex, 0);
        }
      }
      assert fromFrontier ==> idx > index;
      ghost var stopped, stoppedLast := data, lastMeasuredIndex;
      var low := idx / 2;
      var high := Min(idx, itemCount - 1);
      assert index < itemCount ==> low <= high < itemCount;
      r := BinarySearch(low, high, target);
      UnchangedTrans(old(data), stopped, data, origin, old(lastMeasuredIndex), stoppedLast);
      if fromFrontier && r.Success? {
        UnchangedAt(stopped, data, origin, stoppedLast, prev);
        if idx < itemCount {
          UnchangedAt(stopped, data, origin, stoppedLast, idx);
        }
        OffsetsNonDecreasing(data, itemSizeGetter, origin, lastMeasuredIndex, low, prev);
        BracketCovers(data, itemSizeGetter, lastMeasuredIndex, itemCount, low, high, r.value, target);
      }
    }

    /**
     * The item that covers a scroll offset: NaN throws, a negative offset
     * counts as 0; a binary search of the measured prefix when the target
     * is not past the frontier item's start, an exponential search beyond.
     */
    method FindNearestItem(offset: Option<int>) returns (r: Result<int, Error>)
      requires Valid()
      modifies this`data, this`lastMeasuredIndex
      ensures Valid() && KeepsMeasured(old(data), old(lastMeasuredIndex))
      ensures offset.None? ==>
        r == Failure(InvalidOffset) && data == old(data) && lastMeasuredIndex == old(lastMeasuredIndex)
      ensures r.Success? ==> r.value >= 0
      ensures coherent && 0 < itemCount && offset.Some? && r.Failure? ==>
        r.error.InvalidSize? && SizeOf(itemSizeGetter, r.error.index).None?
      ensures coherent && NonNegativeSizes(itemSizeGetter) && 0 < itemCount && offset.Some? && r.Success? ==>
        Covers(data, lastMeasuredIndex, itemCount, r.value, Max(0, offset.value))
      // with sizes greater than 0, an offset at or before the top finds item 0
      ensures coherent && PositiveSizes(itemSizeGetter) && 0 < itemCount && offset.Some? && offset.value <= 0 && r.Success? ==>
        r.value == 0
    {
      if PositiveSizes(itemSizeGetter) {
        assert NonNegativeSizes(itemSizeGetter);
      }
      if offset.None? {
        UnchangedRefl(data, origin, lastMeasuredIndex);
        return Failure(InvalidOffset);
      }
      var target := Max(0, offset.value);
      var last := GetSizeAndPositionOfLastMeasuredItem();
      var from := Max(0, lastMeasuredIndex);
      if last.offset >= target {
        ghost var before, beforeLast := data, lastMeasuredIndex;
        r := BinarySearch(0, from, target);
        if coherent && NonNegativeSizes(itemSizeGetter) && r.Success? && 0 < itemCount {
          if 0 <= lastMeasuredIndex {
            ChainAt(data, origin, lastMeasuredIndex, 0);
          }
          if beforeLast >= 0 {
            UnchangedAt(before, data, origin, beforeLast, beforeLast);
          }
          BracketCovers(data, itemSizeGetter, lastMeasuredIndex, itemCount, 0, from, r.value, target);
        }
      } else {
        r := ExponentialSearch(from, target);
      }
      if coherent && PositiveSizes(itemSizeGetter) && 0 < itemCount && offset.value <= 0 && r.Success? {
        OnlyFirstHoldsZero(data, itemSizeGetter, lastMeasuredIndex, itemCount, r.value);
      }
    }

    /**
     * The walk of `getVisibleRange`: measures item `start`, then item after
     * item until one reaches `maxOffset` or the list ends, and returns the
     * index it stopped at.
     */
    method WalkToViewportEnd(start: int, maxOffset: int) returns (failure: Option<Error>, stop: int)
      requires Valid() && 0 <= start
      modifies this`data, this`lastMeasuredIndex
      ensures Valid() && KeepsMeasured(old(data), old(lastMeasuredIndex))
      ensures failure.Some? ==>
        (itemCount <= start && failure.value == OutOfRange(start)) ||
        (failure.value.InvalidSize? && SizeOf(itemSizeGetter, failure.value.index).None?)
      ensures failure.None? ==>
        start <= stop < itemCount && stop <= lastMeasuredIndex && stop in data &&
        EndsBefore(data, start, stop, maxOffset) &&
        (maxOffset <= data[stop].offset + data[stop].size || stop == itemCount - 1)
    {
      var datum := GetSizeAndPositionForIndex(start);
      if datum.Failure? {
        return Some(datum.error), start;
      }
      var end := datum.value.offset + datum.value.size;
      stop := start;
      while end < maxOffset && stop < itemCount - 1
        invariant Valid() && KeepsMeasured(old(data), old(lastMeasuredIndex))
        invariant start <= stop < itemCount && stop <= lastMeasuredIndex && stop in data
        invariant end == data[stop].offset + data[stop].size
        invariant EndsBefore(data, start, stop, maxOffset)
        decreases itemCount - stop
      {
        ghost var before, beforeLast := data, lastMeasuredIndex;
        stop := stop + 1;
        var next := GetSizeAndPositionForIndex(stop);
        UnchangedTrans(old(data), before, data, origin, old(lastMeasuredIndex), beforeLast);
        if next.Failure? {
          return Some(next.error), stop;
        }
        UnchangedAt(before, data, origin, beforeLast, stop - 1);
        EndsBeforeKept(before, data, start, stop - 1, maxOffset, origin, beforeLast);
        ChainAt(data, origin, lastMeasuredIndex, stop);
        end := end + next.value.size;
      }
      return None, stop;
    }

    /**
     * The window of items to render for a viewport at `offset` of size
     * `containerSize`: nothing when the total size is 0; otherwise from the
     * item covering `offset` forward until the items reach the viewport's
     * end or the list ends, then widened by `overscanCount`. `first` and
     * `last` are the window before widening.
     */
    method GetVisibleRange(containerSize: int, offset: int, overscanCount: int)
      returns (r: Result<Option<Window>, Error>, ghost first: int, ghost last: int)
      requires Valid()
      modifies this`data, this`lastMeasuredIndex
      ensures Valid() && KeepsMeasured(old(data), old(lastMeasuredIndex))
      ensures r == Success(None) <==> old(GetTotalSize()) == 0
      ensures r.Success? && r.value.Some? ==>
        0 <= first <= last <= itemCount - 1 && last <= lastMeasuredIndex &&
        r.value.value == Overscan(Window(first, last), overscanCount, itemCount)
      // the walk stops at the first item reaching the viewport's end, or at the last item
      ensures r.Success? && r.value.Some? ==>
        (forall j :: first <= j < last ==> j in data && data[j].offset + data[j].size < offset + containerSize) &&
        last in data &&
        (offset + containerSize <= data[last].offset + data[last].size || last == itemCount - 1)
      ensures coherent && NonNegativeSizes(itemSizeGetter) && r.Success? && r.value.Some? ==>
        Covers(data, lastMeasuredIndex, itemCount, first, Max(0, offset))
      // on a coherent cache the only failure is a size the callback does not give
      ensures coherent && NonNegativeSizes(itemSizeGetter) && r.Failure? ==>
        r.error.InvalidSize? && SizeOf(itemSizeGetter, r.error.index).None?
    {
      first, last := 0, 0;
      UnchangedRefl(data, origin, lastMeasuredIndex);
      var totalSize := GetTotalSize();
      if totalSize == 0 {
        return Success(None), first, last;
      }
      var maxOffset := offset + containerSize;
      ghost var searchable := coherent && NonNegativeSizes(itemSizeGetter);
      var found := FindNearestItem(Some(offset));
      if found.Failure? {
        return Failure(found.error), first, last;
      }
      var start := found.value;
      ghost var mid, midLast := data, lastMeasuredIndex;
      var failure, stop := WalkToViewportEnd(start, maxOffset);
      UnchangedTrans(old(data), mid, data, origin, old(lastMeasuredIndex), midLast);
      if failure.Some? {
        return Failure(failure.value), first, last;
      }
      if searchable {
        UnchangedAt(mid, data, origin, midLast, start);
      }
      EndsBeforeAll(data, start, stop, maxOffset);
      first, last := start, stop;
      var w := Window(start, stop);
      if overscanCount != 0 {
        w := Overscan(w, overscanCount, itemCount);
      }
      r := Success(Some(w));
    }

    /**
     * The scroll offset that shows item `targetIndex` as `align` asks,
     * clamped to the content; 0 when the container has no size.
     */
    method GetUpdatedOffsetForIndex(align: Option<Alignment>, containerSize: int, currentOffset: int,
                                    targetIndex: int) returns (r: Result<real, Error>)
      requires Valid()
      modifies this`data, this`lastMeasuredIndex
      ensures Valid() && KeepsMeasured(old(data), old(lastMeasuredIndex))
      ensures containerSize <= 0 ==>
        r == Success(0.0) && data == old(data) && lastMeasuredIndex == old(lastMeasuredIndex)
      ensures containerSize > 0 && !(0 <= targetIndex < itemCount) ==>
        r == Failure(OutOfRange(targetIndex)) && data == old(data) && lastMeasuredIndex == old(lastMeasuredIndex)
      ensures containerSize > 0 && 0 <= targetIndex < itemCount && r.Failure? ==>
        r.error.InvalidSize? && SizeOf(itemSizeGetter, r.error.index).None?
      ensures containerSize > 0 && r.Success? ==>
        0 <= targetIndex <= lastMeasuredIndex && targetIndex in data &&
        r.value == AlignedOffset(align, containerSize, currentOffset, data[targetIndex], GetTotalSize())
      ensures r.Success? ==> 0.0 <= r.value <= RMax(0.0, (GetTotalSize() - containerSize) as real)
    {
      if containerSize <= 0 {
        UnchangedRefl(data, origin, lastMeasuredIndex);
        return Success(0.0);
      }
      var datum := GetSizeAndPositionForIndex(targetIndex);
      if datum.Failure? {
        return Failure(datum.error);
      }
      var totalSize := GetTotalSize();
      r := Success(AlignedOffset(align, containerSize, currentOffset, datum.value, totalSize));
    }
  }
}
