# Size-and-position manager of a virtualised list, in Dafny

A virtualised list renders only the items that intersect its viewport. Its
core is the `SizeAndPositionManager`, a cache filled lazily that maps
each item index to its `{offset, size}`. Every offset is the sum of the
sizes before it. The cache is trusted up to a measurement frontier,
`lastMeasuredIndex`.

On top of the cache the manager provides:

- the size of the whole list, exact for the measured prefix and estimated
  for the rest;
- the item that covers a scroll offset: a binary search of the measured
  prefix, or an exponential probe past the frontier followed by a binary
  search;
- the window of items to render, widened by an overscan;
- the scroll offset that aligns an item to the start, centre or end of
  the viewport, or that brings it into view.

Around the manager sit three helpers:

- the normalisation of the `itemSize` prop into one size callback;
- the fallback chain for the size estimate;
- a memo of per-item styles.

The project is in six modules:

- `wrappers.dfy`: `Option` and `Result`.
- `constants.dfy`: the `Alignment` and `Direction` enumerations.
- `measurements.dfy`: the cache as a value.
  - The offset chain: each entry starts where the previous one ends.
  - Agreement of the cached sizes with the callback.
  - The specification function `Measure` of the measuring loop, and lemmas
    about these.
- `size_and_position_manager.dfy`: the manager as a class.
  - Its fields are those of the source: `itemSizeGetter`, `itemCount`,
    `estimatedItemSize`, `lastMeasuredIndex`, and the cache `data` as a
    `map`.
  - Each method states its new state against those functions.
- `helper.dfy`: the helpers, the class `StyleCache`, and lemmas that
  connect each `itemSize` shape to the offsets the manager caches.
- `scenarios.dfy`: worked examples over ten items of size 50, each result
  proved from the manager's contracts alone.

Modelling choices:

- **The size callback.** It is a `SizeGetter`, an `imap<int, int>`. An
  index outside its domain stands for a callback that returns `null`,
  `undefined` or `NaN`. So the callback is modelled as a deterministic
  function of the index.
- **Errors.** The exceptions the manager throws are the `Failure` cases of
  a `Result`: `OutOfRange`, `InvalidSize` and `InvalidOffset`.
- **Ghost field `origin`.** This is the index at which the trusted run of
  offsets starts at 0. It is always 0, except after `resetItem` with a
  negative index.
- **Ghost field `coherent`.** It records that the cache matches the
  current configuration:
  - measuring started at index 0;
  - the frontier lies inside the list;
  - every trusted entry has the size the current callback gives.

  `updateConfig` clears it when it installs a new callback or shrinks the
  list below the frontier, because the source never invalidates the cache
  there. `resetItem` to nothing measured sets it again, which is how the
  list component follows a change of item size (src/VirtualList/index.tsx,
  lines 137-141 and 153-157). The search results are stated for a coherent
  cache whose sizes are not negative.
- **The source's loops become methods of their own.** The measuring loop of
  `getSizeAndPositionForIndex` is `MeasureUpTo`. The probing loop of
  `exponentialSearch` is `ProbeForward`. The walk of `getVisibleRange` is
  `WalkToViewportEnd`. Each is called exactly where the source runs the
  loop.

The model follows the code where it departs from what a reader of the
design would expect:

- **Size validation.** One would expect a size to be checked to be finite
  and non-negative. The code rejects only `null`, `undefined` and `NaN`, so
  negative sizes are accepted. Monotone offsets, and so the search results,
  are proved only under `NonNegativeSizes`.
- **The frontier after an invalid size.** One would expect the frontier to
  be left at the last item measured successfully. In the code it
  keeps its old value, because the assignment comes after the loop. The
  entries written before the throw stay in the cache, past the frontier.
- **The default alignment.** One would expect `auto` to be the default.
  In the code a missing `align` means `start`, and `auto` is reached only
  through the `default:` branch.
- **Shrinking the list.** One would expect a shrinking `itemCount` to
  lower the frontier. `updateConfig` never touches the frontier or the
  cache; this model records the shrink by clearing `coherent`.
- **The item at offset 0.** One would expect `findNearestItem` of an offset
  at or before 0 to return item 0 whenever the list is not empty. With
  items of size 0 the code can return a later one: for sizes 0, 0 and 10
  measured through item 2, the binary search over 0..2 probes item 1, whose
  offset is exactly 0, and returns 1. `OnlyFirstHoldsZero` proves the
  expected result when every size is greater than 0, and `FindNearestItem`
  states it under that condition.

## Model

| member | source | states |
|---|---|---|
| `Measurements.FirstMissing` | src/VirtualualList/SizeAndPositionManager.ts:81-86 | the index at which the measuring loop throws: the first index in the range whose size is null, undefined or NaN, and none when every size is valid |
| `Measurements.MeasureExtends` | src/VirtualualList/SizeAndPositionManager.ts:77-94 | measuring from just after a chained run, starting at that run's end, extends the offset chain up to just before the first invalid size (or to the target); the new entries have the sizes the callback gives; entries before the run are unchanged |
| `Measurements.OffsetIsSumOfSizes` | src/VirtualualList/SizeAndPositionManager.ts:77-93 | every offset in a chained run is the sum of the sizes of the items before it |
| `Measurements.OffsetsNonDecreasing` | src/VirtualualList/SizeAndPositionManager.ts:88-93 | when no callback size is negative, offsets in a chained run never decrease, which is what the binary searches rely on |
| `SizeAndPositions.Overscan` | src/VirtualualList/SizeAndPositionManager.ts:202-205 | an overscan of 0 leaves the window as it is; otherwise the window is clamped to [0, itemCount-1]; a non-negative overscan widens a window inside the list by exactly min(start, overscan) below and min(itemCount-1-stop, overscan) above, so the result keeps 0 <= start <= stop <= itemCount-1 |
| `SizeAndPositions.IdealOffset` | src/VirtualualList/SizeAndPositionManager.ts:145-162 | a missing align or `start` puts the item's leading edge at the viewport's leading edge; `end` matches the trailing edges; `center` matches the centres; `auto` keeps the current offset when the item is fully in view; otherwise an item that fits is brought in at the nearer edge, and an item larger than the viewport is aligned to end with it |
| `SizeAndPositions.AlignedOffset` | src/VirtualualList/SizeAndPositionManager.ts:139-166 | 0 for a container of size <= 0; otherwise the result lies in [0, max(0, totalSize - containerSize)]; it equals the ideal offset whenever that already lies inside the content, and is clamped to max(0, totalSize - containerSize) when the ideal offset lies beyond it |
| `SizeAndPositions.BracketCovers` | src/VirtualualList/SizeAndPositionManager.ts:251-281 | a binary search over a bracket whose low end starts at or before the target, and whose high end starts at or after it or is the last item, returns an item that covers the target: it starts exactly at the target, or starts before it and ends after it, or is the last item and starts before it |
| `SizeAndPositions.OnlyFirstHoldsZero` | src/VirtualualList/SizeAndPositionManager.ts:225-249 | on a cache chained from 0 whose sizes are all greater than 0, the only item that covers offset 0 is item 0 |
| `SizeAndPositions.SizeAndPositionManager.constructor` | src/VirtualualList/SizeAndPositionManager.ts:29-39 | stores the configuration, with an empty cache and the frontier at -1 |
| `SizeAndPositions.SizeAndPositionManager.UpdateConfig` | src/VirtualualList/SizeAndPositionManager.ts:41-57 | overwrites exactly the fields that are given; the cache and the frontier are never touched, so a new callback or a shrink below the frontier leaves the cache incoherent |
| `SizeAndPositions.SizeAndPositionManager.GetLastMeasuredIndex` | src/VirtualualList/SizeAndPositionManager.ts:59-61 | returns the frontier, which always names a cached entry when it is not negative |
| `SizeAndPositions.SizeAndPositionManager.GetSizeAndPositionOfLastMeasuredItem` | src/VirtualualList/SizeAndPositionManager.ts:102-106 | {0, 0} when nothing is measured, otherwise the frontier's entry; either way it ends at the sum of the measured sizes |
| `SizeAndPositions.SizeAndPositionManager.GetTotalSize` | src/VirtualualList/SizeAndPositionManager.ts:111-119 | the sum of the measured sizes plus the estimate for every unmeasured item; itemCount times the estimate with nothing measured; exact once every item is measured |
| `SizeAndPositions.SizeAndPositionManager.ResetItem` | src/VirtualualList/SizeAndPositionManager.ts:217-219 | the frontier becomes min(frontier, index - 1) and nothing else changes; the cache stays agreed with the callback; a reset to nothing measured makes the cache coherent again, whatever callback was installed |
| `SizeAndPositions.SizeAndPositionManager.MeasureUpTo` | src/VirtualualList/SizeAndPositionManager.ts:77-95 | the cache after the measuring loop is `Measure` of the old cache from the frontier's end, and the loop stops at `FirstMissing` |
| `SizeAndPositions.SizeAndPositionManager.GetSizeAndPositionForIndex` | src/VirtualualList/SizeAndPositionManager.ts:68-99 | out of range: `OutOfRange` and nothing changes; at or below the frontier: the cached entry, with nothing changed and no call to the callback; beyond it: the loop's writes, then on success the frontier is max(old, index) and every new entry chains and has the callback's size, while on an invalid size it throws `InvalidSize` at the first such index and the frontier stays put |
| `SizeAndPositions.SizeAndPositionManager.BinarySearch` | src/VirtualualList/SizeAndPositionManager.ts:251-281 | returns an exact match in the bracket, or low - 1 floored at 0 when every probe was above the target, or the last index below the target whose successor starts after it; measured entries are kept |
| `SizeAndPositions.SizeAndPositionManager.ProbeForward` | src/VirtualualList/SizeAndPositionManager.ts:284-292 | stops at a measured probe starting at or after the target, or at the end of the list; the probe before it starts before the target and lies between half the stopping index and that index |
| `SizeAndPositions.SizeAndPositionManager.ExponentialSearch` | src/VirtualualList/SizeAndPositionManager.ts:283-299 | started inside the list, the result is an item of the list; called from the frontier on a coherent cache with sizes that are not negative, it returns the measured item covering the target |
| `SizeAndPositions.SizeAndPositionManager.FindNearestItem` | src/VirtualualList/SizeAndPositionManager.ts:225-249 | NaN gives `InvalidOffset` and changes nothing; a negative offset counts as 0; on a coherent cache with sizes that are not negative, the result is a measured item that starts exactly at the offset, or starts before it and ends after it, or is the last item; with sizes greater than 0, an offset at or before 0 finds item 0 |
| `SizeAndPositions.SizeAndPositionManager.WalkToViewportEnd` | src/VirtualualList/SizeAndPositionManager.ts:192-200 | from the start item, every item before the stopping one ends before the viewport's end, and the stopping item reaches it or is the last item |
| `SizeAndPositions.SizeAndPositionManager.GetVisibleRange` | src/VirtualualList/SizeAndPositionManager.ts:179-210 | no window exactly when the total size is 0; otherwise 0 <= first <= last <= itemCount - 1, the walk stops at the first item reaching offset + containerSize (or the last item), the result is that window widened by the overscan, and on a coherent cache the first item covers the offset |
| `SizeAndPositions.SizeAndPositionManager.GetUpdatedOffsetForIndex` | src/VirtualualList/SizeAndPositionManager.ts:128-167 | 0 and nothing changed for a container of size <= 0; `OutOfRange` for an index outside the list, with the cache and frontier unchanged; otherwise the aligned offset of the item's measured entry, clamped to [0, max(0, totalSize - containerSize)] |
| `Helper.ItemSizeGetter` | src/VirtualList/helper.ts:5-15 | a callback is used as is; an array gives its entry at each index and no size past its ends; a number gives that size for every index |
| `Helper.EstimatedItemSize` | src/VirtualList/helper.ts:17-23 | an explicit estimate unless it is missing or 0, else a fixed item size unless it is 0, else 50; never 0 |
| `Helper.PerItemOffsets` | src/VirtualList/helper.ts:11 | with an array of sizes, each measured item has its array entry as its size and the sum of the entries before it as its offset; measuring never passes the end of the array |
| `Helper.FixedOffsets` | src/VirtualList/helper.ts:11 | with one fixed size n, item i is measured with size n at offset i * n |
| `Helper.FixedTotalSize` | src/VirtualList/helper.ts:17-23 | with one fixed non-zero size and no explicit estimate, the total size is itemCount times that size wherever the frontier stands |
| `Helper.StyleCache.constructor` | src/VirtualList/helper.ts:33-35 | an empty memo over the given size-and-position source |
| `Helper.StyleCache.GetStyle` | src/VirtualList/helper.ts:37-56 | a hit returns the stored style, even one built for another direction, and changes nothing; a miss stores and returns a style with the item's size and offset and changes no other key; a source that throws stores nothing; a missing direction means vertical; every cached style keeps the item's size and offset |
| `Helper.StyleCache.Reset` | src/VirtualList/helper.ts:57-59 | the memo is empty afterwards |
| `Scenarios.VisibleWindow` | src/VirtualualList/SizeAndPositionManager.ts:179-210 | with ten items of size 50, a viewport of 120 at offset 0 gives the window 0..2 before overscan |
| `Scenarios.UniformWindow` | src/VirtualualList/SizeAndPositionManager.ts:179-210 | a new manager over ten items of size 50 with no overscan renders items 0..2 |
| `Scenarios.UniformWindowOverscanned` | src/VirtualualList/SizeAndPositionManager.ts:202-205 | the same with an overscan of 2 renders items 0..4 |
| `Scenarios.ResizedWindow` | src/VirtualList/index.tsx:137-157 | after measuring with another callback, installing the size-50 callback and its estimate and resetting from item 0 gives the window 0..2 again |
| `Scenarios.UniformNearestAtBoundary` | src/VirtualualList/SizeAndPositionManager.ts:225-249 | with ten items of size 50, offset 50 finds item 1, the item starting there, and offset 20 finds item 0 |
| `Scenarios.UniformScrollToStart` | src/VirtualualList/SizeAndPositionManager.ts:144-166 | aligning item 5 of ten items of size 50 to the start of a 120 viewport scrolls to 250 |

## Left out

- Numbers are unbounded integers. JavaScript's floating point is not
  modelled: precision above 2^53, infinite sizes and NaN arithmetic are
  left out. Only the scroll offset of `getUpdatedOffsetForIndex` is a
  `real`, because of the halving in the `center` case.
- The coercion `Number(containerSize)` of a string container size is not
  modelled: `containerSize` is an integer. The `containerSize === undefined`
  test after it can never hold, because `Number(undefined)` is `NaN`; a
  missing container size therefore yields `NaN` in the source, not 0, and
  this model has no such input.
- `getVisibleRange` takes an integer offset, so the NaN case is modelled
  only for `findNearestItem`, where `None` stands for NaN. The `typeof
  start === 'undefined'` test in `getVisibleRange` is not modelled, because
  `findNearestItem` returns a number or throws.
- The size callback is a deterministic function of the index. A callback
  that throws its own exception, or returns different sizes for the same
  index, is not modelled.
- `StyleCache` takes its `getSizeAndPosition` source as a fixed map from
  index to `{size, offset}`; an index outside it stands for a call that
  throws. In the component that source is the manager's
  `getSizeAndPositionForIndex`, which measures as a side effect; this
  model does not link the two objects.
- The CSS literals of a style (`position`, `top`, `left`, `width`) are
  left out. A style is its direction, size and offset.
- The React components that own the manager and the style cache (hooks,
  refs, scroll listeners, rendering) are not part of this model.
- `SizeAndPositions.SizeAndPositionManager.BinarySearch`: the bracket
  result is stated on the cache as it stands after the search, and
  `BracketCovers` turns it into a covering item for a coherent cache with
  sizes that are not negative. It is not stated to be the greatest index
  whose offset is at most the target: with items of size 0 several items
  start at the same offset, and the search returns whichever it probes
  first.
- `SizeAndPositions.SizeAndPositionManager.ExponentialSearch`: the
  covering-item result is stated only for calls from the frontier, the one
  way `findNearestItem` calls it. From elsewhere only the bounds and error
  cases are stated.
- `SizeAndPositions.SizeAndPositionManager.FindNearestItem`: the
  covering-item result is stated only for a coherent cache with sizes that
  are not negative. Without that, offsets need not increase, and the
  source promises nothing about which item is found.
- `SizeAndPositions.SizeAndPositionManager.GetVisibleRange`: which item
  starts the window is stated only for a coherent cache with sizes that
  are not negative, for the same reason.
