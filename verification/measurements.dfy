/**
 * Value-level facts about the measurement cache: a map from item index to
 * `{size, offset}` whose measured run forms a chain of prefix sums, and the
 * run of writes that extends it.
 */
module Measurements {
  import opened Wrappers

  datatype SizeAndPosition = SizeAndPosition(size: int, offset: int)

  function Max(a: int, b: int): int { if a < b then b else a }
  function Min(a: int, b: int): int { if a < b then a else b }

  /**
   * The size callback `(index) => number`, as the sizes it yields: an index
   * outside the domain stands for a result of null, undefined or NaN.
   */
  type SizeGetter = imap<int, int>

  /** What the size callback yields for item `i`. */
  function SizeOf(getter: SizeGetter, i: int): Option<int>
  {
    if i in getter then Some(getter[i]) else None
  }

  /** The size callback never yields a negative size. */
  ghost predicate NonNegativeSizes(getter: SizeGetter)
  {
    forall i :: SizeOf(getter, i).Some? ==> SizeOf(getter, i).value >= 0
  }

  /** The size callback yields only sizes greater than 0. */
  ghost predicate PositiveSizes(getter: SizeGetter)
  {
    forall i :: SizeOf(getter, i).Some? ==> SizeOf(getter, i).value > 0
  }

  /**
   * The entries `origin..last` are cached, the first starts at offset 0 and
   * each later one starts where its predecessor ends.
   */
  ghost predicate Chain(data: map<int, SizeAndPosition>, origin: int, last: int)
    decreases last - origin
  {
    last < origin ||
    (last in data &&
     if last == origin then data[last].offset == 0
     else last - 1 in data && data[last].offset == data[last - 1].offset + data[last - 1].size &&
          Chain(data, origin, last - 1))
  }

  /** The entries `lo..hi` are cached with the sizes `getter` gives for them. */
  ghost predicate Agrees(data: map<int, SizeAndPosition>, getter: SizeGetter, lo: int, hi: int)
    decreases hi - lo
  {
    hi < lo || (hi in data && SizeOf(getter, hi) == Some(data[hi].size) && Agrees(data, getter, lo, hi - 1))
  }

  /** Every entry of `a` in `lo..hi` is still in `b`, with the same value. */
  ghost predicate Unchanged(a: map<int, SizeAndPosition>, b: map<int, SizeAndPosition>, lo: int, hi: int)
    decreases hi - lo
  {
    hi < lo || ((hi in a ==> hi in b && b[hi] == a[hi]) && Unchanged(a, b, lo, hi - 1))
  }

  /** Each entry `lo..hi-1` is cached and ends before `bound`. */
  ghost predicate EndsBefore(data: map<int, SizeAndPosition>, lo: int, hi: int, bound: int)
    decreases hi - lo
  {
    hi <= lo ||
    (hi - 1 in data && data[hi - 1].offset + data[hi - 1].size < bound && EndsBefore(data, lo, hi - 1, bound))
  }

  /** Where the run `origin..last` ends: 0 while it is empty. */
  function RunEnd(data: map<int, SizeAndPosition>, origin: int, last: int): int
  {
    if last < origin || last !in data then 0 else data[last].offset + data[last].size
  }

  /**
   * The writes of the measuring loop: from `lo` up to `hi`, each item gets
   * the size the callback gives and the offset where the previous one
   * ended, stopping before the first item whose size is missing.
   */
  function Measure(data: map<int, SizeAndPosition>, getter: SizeGetter,
                   lo: int, hi: int, offset: int): map<int, SizeAndPosition>
    decreases hi - lo
  {
    if hi < lo then data
    else match SizeOf(getter, lo)
      case None => data
      case Some(size) => Measure(data[lo := SizeAndPosition(size, offset)], getter, lo + 1, hi, offset + size)
  }

  /** The first index in `lo..hi` whose size is missing, if any. */
  function FirstMissing(getter: SizeGetter, lo: int, hi: int): (r: Option<int>)
    ensures r.Some? ==> lo <= r.value <= hi && SizeOf(getter, r.value).None?
    decreases hi - lo
  {
    if hi < lo then None
    else if SizeOf(getter, lo).None? then Some(lo)
    else FirstMissing(getter, lo + 1, hi)
  }

  /** No size before the first missing one is missing. */
  lemma {:induction false} BeforeFirstMissing(getter: SizeGetter, lo: int, hi: int, i: int)
    requires lo <= i <= hi
    requires FirstMissing(getter, lo, hi).None? || i < FirstMissing(getter, lo, hi).value
    ensures SizeOf(getter, i).Some?
    decreases hi - lo
  {
    if lo < i {
      BeforeFirstMissing(getter, lo + 1, hi, i);
    }
  }

  /** One link of a chain: the entry is cached and starts where the previous one ends. */
  lemma {:induction false} ChainAt(data: map<int, SizeAndPosition>, origin: int, last: int, i: int)
    requires Chain(data, origin, last) && origin <= i <= last
    ensures i in data
    ensures i == origin ==> data[i].offset == 0
    ensures i > origin ==> i - 1 in data && data[i].offset == data[i - 1].offset + data[i - 1].size
    decreases last - i
  {
    if i < last {
      ChainAt(data, origin, last - 1, i);
    }
  }

  /** Every prefix of a chain is a chain. */
  lemma {:induction false} ChainPrefix(data: map<int, SizeAndPosition>, origin: int, last: int, j: int)
    requires Chain(data, origin, last) && j <= last
    ensures Chain(data, origin, j)
    decreases last - j
  {
    if j < last && origin < last {
      ChainPrefix(data, origin, last - 1, j);
    }
  }

  /** Writing an entry past the end of a chain leaves the chain intact. */
  lemma {:induction false} ChainUpdate(data: map<int, SizeAndPosition>, origin: int, last: int,
                                       i: int, v: SizeAndPosition)
    requires Chain(data, origin, last) && last < i
    ensures Chain(data[i := v], origin, last)
    decreases last - origin
  {
    if origin < last {
      ChainUpdate(data, origin, last - 1, i, v);
    }
  }

  /** One entry of an agreeing run. */
  lemma {:induction false} AgreesAt(data: map<int, SizeAndPosition>, getter: SizeGetter,
                                    lo: int, hi: int, i: int)
    requires Agrees(data, getter, lo, hi) && lo <= i <= hi
    ensures i in data && SizeOf(getter, i) == Some(data[i].size)
    decreases hi - i
  {
    if i < hi {
      AgreesAt(data, getter, lo, hi - 1, i);
    }
  }

  /** Every prefix of an agreeing run agrees. */
  lemma {:induction false} AgreesPrefix(data: map<int, SizeAndPosition>, getter: SizeGetter,
                                        lo: int, hi: int, j: int)
    requires Agrees(data, getter, lo, hi) && j <= hi
    ensures Agrees(data, getter, lo, j)
    decreases hi - j
  {
    if j < hi && lo <= hi {
      AgreesPrefix(data, getter, lo, hi - 1, j);
    }
  }

  /** Two adjacent agreeing runs form one. */
  lemma {:induction false} AgreesJoin(data: map<int, SizeAndPosition>, getter: SizeGetter,
                                      lo: int, mid: int, hi: int)
    requires Agrees(data, getter, lo, mid) && Agrees(data, getter, mid + 1, hi) && lo <= mid + 1
    ensures Agrees(data, getter, lo, hi)
    decreases hi - mid
  {
    if mid < hi {
      AgreesJoin(data, getter, lo, mid, hi - 1);
    } else {
      AgreesPrefix(data, getter, lo, mid, hi);
    }
  }

  /** An agreeing run survives any change that keeps its entries. */
  lemma {:induction false} AgreesKept(a: map<int, SizeAndPosition>, b: map<int, SizeAndPosition>,
                                      getter: SizeGetter, lo: int, hi: int)
    requires Agrees(a, getter, lo, hi) && Unchanged(a, b, lo, hi)
    ensures Agrees(b, getter, lo, hi)
    decreases hi - lo
  {
    if lo <= hi {
      AgreesKept(a, b, getter, lo, hi - 1);
    }
  }

  /** One entry kept by `Unchanged`. */
  lemma {:induction false} UnchangedAt(a: map<int, SizeAndPosition>, b: map<int, SizeAndPosition>,
                                       lo: int, hi: int, i: int)
    requires Unchanged(a, b, lo, hi) && lo <= i <= hi && i in a
    ensures i in b && b[i] == a[i]
    decreases hi - i
  {
    if i < hi {
      UnchangedAt(a, b, lo, hi - 1, i);
    }
  }

  /** Nothing changes between a map and itself. */
  lemma {:induction false} UnchangedRefl(a: map<int, SizeAndPosition>, lo: int, hi: int)
    ensures Unchanged(a, a, lo, hi)
    decreases hi - lo
  {
    if lo <= hi {
      UnchangedRefl(a, lo, hi - 1);
    }
  }

  /** Keeping `lo..h1` and then `lo..h2`, with `h1 <= h2`, keeps `lo..h1`. */
  lemma {:induction false} UnchangedTrans(a: map<int, SizeAndPosition>, b: map<int, SizeAndPosition>,
                                          c: map<int, SizeAndPosition>, lo: int, h1: int, h2: int)
    requires Unchanged(a, b, lo, h1) && Unchanged(b, c, lo, h2) && h1 <= h2
    ensures Unchanged(a, c, lo, h1)
    decreases h2 - lo
  {
    if lo <= h2 {
      if h1 == h2 {
        UnchangedTrans(a, b, c, lo, h1 - 1, h2 - 1);
      } else {
        UnchangedTrans(a, b, c, lo, h1, h2 - 1);
      }
    }
  }

  /** Writing an entry above `hi` keeps `lo..hi`. */
  lemma {:induction false} UnchangedUpdate(a: map<int, SizeAndPosition>, lo: int, hi: int,
                                           i: int, v: SizeAndPosition)
    requires hi < i
    ensures Unchanged(a, a[i := v], lo, hi)
    decreases hi - lo
  {
    if lo <= hi {
      UnchangedUpdate(a, lo, hi - 1, i, v);
    }
  }

  /** Entries that ended before a bound still do after a change that keeps them. */
  lemma {:induction false} EndsBeforeKept(a: map<int, SizeAndPosition>, b: map<int, SizeAndPosition>,
                                          lo: int, hi: int, bound: int, keepLo: int, keepHi: int)
    requires EndsBefore(a, lo, hi, bound) && Unchanged(a, b, keepLo, keepHi)
    requires keepLo <= lo && hi - 1 <= keepHi
    ensures EndsBefore(b, lo, hi, bound)
    decreases hi - lo
  {
    if lo < hi {
      UnchangedAt(a, b, keepLo, keepHi, hi - 1);
      EndsBeforeKept(a, b, lo, hi - 1, bound, keepLo, keepHi);
    }
  }

  /** `EndsBefore` says the same as its quantified reading. */
  lemma {:induction false} EndsBeforeAll(data: map<int, SizeAndPosition>, lo: int, hi: int, bound: int)
    requires EndsBefore(data, lo, hi, bound)
    ensures forall j :: lo <= j < hi ==> j in data && data[j].offset + data[j].size < bound
    decreases hi - lo
  {
    if lo < hi {
      EndsBeforeAll(data, lo, hi - 1, bound);
    }
  }

  /**
   * What the measuring loop leaves behind, started just after the end of a
   * chain at the offset where the chain ends: the chain now reaches the
   * item before the first missing size (or `hi`), the new entries agree
   * with the callback and every entry of the old chain is kept.
   */
  lemma {:induction false} MeasureExtends(data: map<int, SizeAndPosition>, getter: SizeGetter,
                                          origin: int, lo: int, hi: int, offset: int)
    requires origin <= lo && Chain(data, origin, lo - 1) && offset == RunEnd(data, origin, lo - 1)
    ensures var m := Measure(data, getter, lo, hi, offset);
            var top := if FirstMissing(getter, lo, hi).Some? then FirstMissing(getter, lo, hi).value - 1 else hi;
            Chain(m, origin, top) && Agrees(m, getter, lo, top) && Unchanged(data, m, origin, lo - 1)
    decreases hi - lo
  {
    if hi < lo || SizeOf(getter, lo).None? {
      ChainPrefix(data, origin, lo - 1, if hi < lo then hi else lo - 1);
      UnchangedRefl(data, origin, lo - 1);
    } else {
      var size := SizeOf(getter, lo).value;
      var v := SizeAndPosition(size, offset);
      var d := data[lo := v];
      if lo > origin {
        ChainAt(data, origin, lo - 1, lo - 1);
      }
      ChainUpdate(data, origin, lo - 1, lo, v);
      assert Chain(d, origin, lo);
      MeasureExtends(d, getter, origin, lo + 1, hi, offset + size);
      var m := Measure(d, getter, lo + 1, hi, offset + size);
      var top := if FirstMissing(getter, lo, hi).Some? then FirstMissing(getter, lo, hi).value - 1 else hi;
      UnchangedAt(d, m, origin, lo, lo);
      AgreesJoin(m, getter, lo, lo, top);
      UnchangedUpdate(data, origin, lo - 1, lo, v);
      UnchangedTrans(data, d, m, origin, lo - 1, lo);
    }
  }

  /**
   * Sum of the cached sizes of the items `lo..hi-1`; an index missing from
   * the cache would count as 0, which never happens on a chain.
   */
  function SumSizes(data: map<int, SizeAndPosition>, lo: int, hi: int): int
    decreases hi - lo
  {
    if hi <= lo then 0
    else SumSizes(data, lo, hi - 1) + (if hi - 1 in data then data[hi - 1].size else 0)
  }

  /** Every chained offset is the sum of the sizes before it. */
  lemma {:induction false} OffsetIsSumOfSizes(data: map<int, SizeAndPosition>, origin: int, last: int, i: int)
    requires Chain(data, origin, last) && origin <= i <= last
    ensures i in data && data[i].offset == SumSizes(data, origin, i)
    decreases i - origin
  {
    ChainAt(data, origin, last, i);
    if i > origin {
      OffsetIsSumOfSizes(data, origin, last, i - 1);
    }
  }

  /** With no negative size in the chain, offsets never decrease. */
  lemma {:induction false} OffsetsNonDecreasing(data: map<int, SizeAndPosition>, getter: SizeGetter,
                                                origin: int, last: int, i: int, j: int)
    requires Chain(data, origin, last) && origin <= i <= j <= last
    requires Agrees(data, getter, origin, last) && NonNegativeSizes(getter)
    ensures i in data && j in data && data[i].offset <= data[j].offset
    decreases j - i
  {
    ChainAt(data, origin, last, j);
    if i < j {
      AgreesAt(data, getter, origin, last, j - 1);
      OffsetsNonDecreasing(data, getter, origin, last, i, j - 1);
    }
  }

  /** A run of items all of size `n` sums to `n` times its length. */
  lemma {:induction false} UniformSum(data: map<int, SizeAndPosition>, lo: int, hi: int, n: int)
    requires lo <= hi
    requires forall i :: lo <= i < hi ==> i in data && data[i].size == n
    ensures SumSizes(data, lo, hi) == (hi - lo) * n
    decreases hi - lo
  {
    if lo < hi {
      UniformSum(data, lo, hi - 1, n);
    }
  }
}
