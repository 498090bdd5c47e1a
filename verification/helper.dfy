/**
 * The helpers of the list component: the normalisation of the `itemSize`
 * prop into one size callback, the fallback chain for the size estimate,
 * and the memo of per-item styles.
 */
module Helper {
  import opened Wrappers
  import opened Constants
  import opened Measurements
  import opened SizeAndPositions

  /** The three shapes the `itemSize` prop may take. */
  datatype ItemSize =
    | Fixed(size: int)              // one number for every item
    | PerItem(sizes: seq<int>)      // an array indexed by item
    | Callback(sizeOf: SizeGetter)  // a function of the index

  /** The size a fixed `itemSize` of `n` gives item `index`: `n`, whatever the index. */
  function FixedSize(n: int, index: int): int { n }

  /**
   * The size callback handed to the manager: a function is called as is,
   * an array is indexed (undefined past its ends), a number is constant.
   */
  ghost function ItemSizeGetter(itemSize: ItemSize): (getter: SizeGetter)
    ensures itemSize.Callback? ==> getter == itemSize.sizeOf
    ensures itemSize.PerItem? ==>
      forall i :: SizeOf(getter, i) == if 0 <= i < |itemSize.sizes| then Some(itemSize.sizes[i]) else None
    ensures itemSize.Fixed? ==> forall i :: SizeOf(getter, i) == Some(itemSize.size)
  {
    match itemSize
    case Fixed(n) => imap i: int | true :: FixedSize(n, i)
    case PerItem(sizes) => imap i: int | 0 <= i < |sizes| :: sizes[i]
    case Callback(f) => f
  }

  /**
   * The estimate for unmeasured items: an explicit estimate unless it is
   * missing or 0, else a fixed item size unless it is 0, else 50.
   */
  function EstimatedItemSize(itemSize: ItemSize, estimatedItemSize: Option<int>): (r: int)
    ensures estimatedItemSize.Some? && estimatedItemSize.value != 0 ==> r == estimatedItemSize.value
    ensures (estimatedItemSize.None? || estimatedItemSize.value == 0) && itemSize.Fixed? && itemSize.size != 0 ==>
      r == itemSize.size
    ensures (estimatedItemSize.None? || estimatedItemSize.value == 0) && !(itemSize.Fixed? && itemSize.size != 0) ==>
      r == 50
    // never 0, so a list with unmeasured items never has a total size of 0 from them alone
    ensures r != 0
  {
    if estimatedItemSize.Some? && estimatedItemSize.value != 0 then estimatedItemSize.value
    else if itemSize.Fixed? && itemSize.size != 0 then itemSize.size
    else 50
  }

  /** The sum of a sequence of sizes. */
  function Sum(s: seq<int>): int
  {
    if |s| == 0 then 0 else Sum(s[..|s| - 1]) + s[|s| - 1]
  }

  /**
   * With an array of sizes, every measured item has its array entry as its
   * size and the sum of the entries before it as its offset; in particular
   * measuring never gets past the end of the array.
   */
  lemma {:induction false} PerItemOffsets(data: map<int, SizeAndPosition>, sizes: seq<int>, last: int, i: int)
    requires Chain(data, 0, last) && Agrees(data, ItemSizeGetter(PerItem(sizes)), 0, last)
    requires 0 <= i <= last
    ensures i < |sizes| && i in data && data[i] == SizeAndPosition(sizes[i], Sum(sizes[..i]))
    decreases i
  {
    ChainAt(data, 0, last, i);
    AgreesAt(data, ItemSizeGetter(PerItem(sizes)), 0, last, i);
    if i > 0 {
      PerItemOffsets(data, sizes, last, i - 1);
      assert sizes[..i][..i - 1] == sizes[..i - 1];
    }
  }

  /** With one fixed size `n`, item `i` is measured at offset `i * n`. */
  lemma {:induction false} FixedOffsets(data: map<int, SizeAndPosition>, n: int, last: int, i: int)
    requires Chain(data, 0, last) && Agrees(data, ItemSizeGetter(Fixed(n)), 0, last)
    requires 0 <= i <= last
    ensures i in data && data[i] == SizeAndPosition(n, i * n)
    decreases i
  {
    ChainAt(data, 0, last, i);
    AgreesAt(data, ItemSizeGetter(Fixed(n)), 0, last, i);
    if i > 0 {
      FixedOffsets(data, n, last, i - 1);
    }
  }

  /**
   * With one fixed non-zero size and no explicit estimate, the estimate is
   * that size, so the total size is exact wherever the frontier stands.
   */
  lemma FixedTotalSize(m: SizeAndPositionManager, n: int)
    requires m.Valid() && m.coherent && n != 0
    requires m.itemSizeGetter == ItemSizeGetter(Fixed(n))
    requires m.estimatedItemSize == EstimatedItemSize(Fixed(n), None)
    ensures m.GetTotalSize() == m.itemCount * n
  {
    var last := m.lastMeasuredIndex;
    forall i | 0 <= i < last + 1
      ensures i in m.data && m.data[i].size == n
    {
      AgreesAt(m.data, m.itemSizeGetter, 0, last, i);
    }
    UniformSum(m.data, 0, last + 1, n);
    assert (last + 1) * n + (m.itemCount - last - 1) * n == m.itemCount * n;
  }

  /** The positioning entries of an item's style: its size and offset along `direction`. */
  datatype Style = Style(direction: Direction, size: int, offset: int)

  /**
   * A memo of item styles keyed by index, filled from `getSizeAndPosition`
   * (which throws outside its domain) and emptied by `Reset`.
   */
  class StyleCache {
    var cache: map<int, Style>
    const getSizeAndPosition: imap<int, SizeAndPosition>

    /** Every cached style carries the size and offset the source gives for its index. */
    ghost predicate Valid()
      reads this
    {
      forall i :: i in cache ==>
        i in getSizeAndPosition &&
        cache[i].size == getSizeAndPosition[i].size && cache[i].offset == getSizeAndPosition[i].offset
    }

    constructor (getSizeAndPosition: imap<int, SizeAndPosition>)
      ensures Valid() && cache == map[] && this.getSizeAndPosition == getSizeAndPosition
    {
      this.getSizeAndPosition := getSizeAndPosition;
      cache := map[];
    }

    /**
     * The style of item `index`: the cached one when there is one, whatever
     * `direction` is asked for now; otherwise a new style from the item's
     * size and offset, stored before it is returned. A missing `direction`
     * means vertical. `None` when the source throws, in which case nothing
     * is stored.
     */
    method GetStyle(index: int, direction: Option<Direction>) returns (r: Option<Style>)
      requires Valid()
      modifies this
      ensures Valid()
      ensures index in old(cache) ==> r == Some(old(cache)[index]) && cache == old(cache)
      ensures index !in old(cache) && index in getSizeAndPosition ==>
        r == Some(Style(if direction.Some? then direction.value else Vertical,
                        getSizeAndPosition[index].size, getSizeAndPosition[index].offset)) &&
        cache == old(cache)[index := r.value]
      ensures index !in old(cache) && index !in getSizeAndPosition ==> r.None? && cache == old(cache)
      // whatever it returns, the style's size and offset are the item's
      ensures r.Some? ==>
        index in getSizeAndPosition && r.value.size == getSizeAndPosition[index].size &&
        r.value.offset == getSizeAndPosition[index].offset
    {
      if index in cache {
        return Some(cache[index]);
      }
      if index !in getSizeAndPosition {
        return None;
      }
      var datum := getSizeAndPosition[index];
      var dir := if direction.Some? then direction.value else Vertical;
      var style := Style(dir, datum.size, datum.offset);
      cache := cache[index := style];
      return Some(style);
    }

    /** Empties the memo, so the next `GetStyle` of any index recomputes. */
    method Reset()
      modifies this
      ensures Valid() && cache == map[]
    {
      cache := map[];
    }
  }
}
