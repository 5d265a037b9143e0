/**
 * The depth processor: statistics of the valid (non-zero) samples of a raw depth
 * frame in millimetres, the point cloud with one point per non-zero sample in
 * row-major order, and the bird's-eye-view grid marked from the cloud.
 */
module DepthProcessor {
  import opened Jvm
  import opened Options
  import opened Raster

  // ----- Range analysis -----

  /** `map { it.toInt() and 0xFFFF }.filter { it > 0 }`: the non-zero samples, unsigned, in
      order, one value per non-zero sample. */
  function ValidDepths(raw: seq<Short>): (r: seq<nat>)
    ensures |r| == NonZeroCount(raw)
    ensures forall i | 0 <= i < |r| :: 0 < r[i] < 65536
    ensures forall v | v in r :: exists i | 0 <= i < |raw| :: U16(raw[i]) == v
    ensures forall i | 0 <= i < |raw| && U16(raw[i]) > 0 :: U16(raw[i]) in r
  {
    if raw == [] then []
    else
      var front := raw[..|raw| - 1];
      var rest := ValidDepths(front);
      assert forall i | 0 <= i < |front| :: front[i] == raw[i];
      var last := U16(raw[|raw| - 1]);
      if last > 0 then rest + [last] else rest
  }

  /** The filter keeps order and multiplicity: the valid samples of a concatenation are the
      first part's followed by the second's, ... */
  lemma {:induction false} ValidDepthsAppend(a: seq<Short>, b: seq<Short>)
    ensures ValidDepths(a + b) == ValidDepths(a) + ValidDepths(b)
    decreases |b|
  {
    if b != [] {
      var front := b[..|b| - 1];
      assert (a + b)[..|a + b| - 1] == a + front;
      assert (a + b)[|a + b| - 1] == b[|b| - 1];
      ValidDepthsAppend(a, front);
    } else {
      assert a + b == a;
    }
  }

  /** ... and one sample gives its unsigned value exactly when that is not zero. */
  lemma ValidDepthsSingle(s: Short)
    ensures ValidDepths([s]) == if U16(s) > 0 then [U16(s)] else []
  {
    assert [s][..0] == [];
  }

  function MinOf(s: seq<nat>): (m: nat)
    requires |s| > 0
    ensures m in s && forall i | 0 <= i < |s| :: m <= s[i]
  {
    if |s| == 1 then s[0]
    else var m := MinOf(s[1..]); if s[0] <= m then s[0] else m
  }

  function MaxOf(s: seq<nat>): (m: nat)
    requires |s| > 0
    ensures m in s && forall i | 0 <= i < |s| :: s[i] <= m
  {
    if |s| == 1 then s[0]
    else var m := MaxOf(s[1..]); if s[0] >= m then s[0] else m
  }

  function Sum(s: seq<nat>): nat {
    if s == [] then 0 else s[0] + Sum(s[1..])
  }

  /** `average()`, exactly: the value that, times the count, gives the sum. */
  function Mean(s: seq<nat>): (m: real)
    requires s != []
    ensures m * |s| as real == Sum(s) as real
  {
    Sum(s) as real / |s| as real
  }

  predicate Sorted(s: seq<nat>) {
    forall i, j | 0 <= i < j < |s| :: s[i] <= s[j]
  }

  /** Inserts `v` before the first element not smaller than it. */
  function Insert(v: nat, s: seq<nat>): (r: seq<nat>)
    requires Sorted(s)
    ensures Sorted(r) && multiset(r) == multiset(s) + multiset{v}
  {
    if s == [] then [v]
    else if v <= s[0] then [v] + s
    else
      var tail := s[1..];
      assert s == [s[0]] + tail;
      var rest := Insert(v, tail);
      InsertKeepsLowerBound(s[0], v, tail, rest);
      ConsSorted(s[0], rest);
      assert multiset([s[0]] + rest) == multiset{s[0]} + multiset(rest);
      [s[0]] + rest
  }

  /** A value at most every element of a sorted list can go in front of it. */
  lemma ConsSorted(x: nat, rest: seq<nat>)
    requires Sorted(rest) && forall k | 0 <= k < |rest| :: x <= rest[k]
    ensures Sorted([x] + rest)
  {
    var r := [x] + rest;
    forall i, j | 0 <= i < j < |r| ensures r[i] <= r[j] {
      assert r[j] == rest[j - 1];
      if i > 0 {
        assert r[i] == rest[i - 1];
      }
    }
  }

  /** Every element of `rest` is `v` or an element of `tail`, so a bound below both bounds it. */
  lemma InsertKeepsLowerBound(lo: nat, v: nat, tail: seq<nat>, rest: seq<nat>)
    requires lo <= v && forall j | 0 <= j < |tail| :: lo <= tail[j]
    requires multiset(rest) == multiset(tail) + multiset{v}
    ensures forall k | 0 <= k < |rest| :: lo <= rest[k]
  {
    forall k | 0 <= k < |rest| ensures lo <= rest[k] {
      var u := rest[k];
      assert u in multiset(rest);
      if u != v {
        assert u in multiset(tail);
        var j :| 0 <= j < |tail| && tail[j] == u;
      }
    }
  }

  /** `sorted()`: ascending order, the same values. */
  function Sort(s: seq<nat>): (r: seq<nat>)
    ensures Sorted(r) && multiset(r) == multiset(s)
  {
    if s == [] then []
    else
      assert s == [s[0]] + s[1..];
      Insert(s[0], Sort(s[1..]))
  }

  /** The middle element of an odd count, the average of the two middle ones of an even count. */
  function Median(sorted: seq<nat>): real
    requires |sorted| > 0
  {
    var n := |sorted|;
    if n % 2 == 0 then (sorted[n / 2 - 1] + sorted[n / 2]) as real / 2.0 else sorted[n / 2] as real
  }

  /** The range statistics, in millimetres; the mean as an exact quotient. */
  datatype DepthRangeAnalysis = DepthRangeAnalysis(minMm: nat, maxMm: nat, meanMm: real, medianMm: real)

  /** The statistics of a non-empty list of valid samples. */
  function Analyse(validDepths: seq<nat>): (r: DepthRangeAnalysis)
    requires validDepths != []
    ensures r.minMm == MinOf(validDepths) && r.maxMm == MaxOf(validDepths)
    ensures r.minMm as real <= r.medianMm <= r.maxMm as real
    ensures r.minMm as real <= r.meanMm <= r.maxMm as real
    ensures r.meanMm == Mean(validDepths) && r.medianMm == Median(Sort(validDepths))
  {
    var minMm := MinOf(validDepths);
    var maxMm := MaxOf(validDepths);
    var meanMm := Mean(validDepths);
    var sortedDepths := Sort(validDepths);
    assert |sortedDepths| == |multiset(sortedDepths)| == |multiset(validDepths)| == |validDepths|;
    MedianWithinRange(validDepths, sortedDepths);
    MeanWithinRange(validDepths);
    DepthRangeAnalysis(minMm, maxMm, meanMm, Median(sortedDepths))
  }

  /** `getEffectiveRangeAnalysis` on the raw samples, `None` when none are loaded. */
  function RangeAnalysis(rawDepthData: Option<seq<Short>>): (r: Option<DepthRangeAnalysis>)
    ensures r.None? <==> rawDepthData.None? || forall i | 0 <= i < |rawDepthData.value| :: U16(rawDepthData.value[i]) == 0
    ensures r.Some? ==> ValidDepths(rawDepthData.value) != [] && r.value == Analyse(ValidDepths(rawDepthData.value))
  {
    match rawDepthData
    case None => None
    case Some(raw) =>
      var validDepths := ValidDepths(raw);
      if validDepths == [] then
        None
      else
        assert U16(raw[0]) > 0 || U16(raw[0]) == 0;
        Some(Analyse(validDepths))
  }

  /** Two sorted sequences holding the same values are equal. */
  lemma {:induction false} SortedUnique(a: seq<nat>, b: seq<nat>)
    requires Sorted(a) && Sorted(b) && multiset(a) == multiset(b)
    ensures a == b
    decreases |a|
  {
    if a == [] {
      assert |b| == |multiset(b)| == 0;
    } else {
      SameHeadSameRest(a, b);
      SortedUnique(a[1..], b[1..]);
      assert a == [a[0]] + a[1..] && b == [b[0]] + b[1..];
    }
  }

  /** Two sorted arrangements of the same values start alike and go on with sorted
      arrangements of the same remaining values. */
  lemma SameHeadSameRest(a: seq<nat>, b: seq<nat>)
    requires Sorted(a) && Sorted(b) && multiset(a) == multiset(b) && a != []
    ensures b != [] && a[0] == b[0]
    ensures Sorted(a[1..]) && Sorted(b[1..]) && multiset(a[1..]) == multiset(b[1..])
  {
    assert |b| == |multiset(b)| == |a|;
    assert a[0] in multiset(b) && b[0] in multiset(a);
    SortedHeadIsLeast(b, a[0]);
    SortedHeadIsLeast(a, b[0]);
    Tail(a);
    Tail(b);
  }

  /** Dropping the head of a sorted sequence leaves it sorted, with the head's one
      occurrence gone. */
  lemma Tail(a: seq<nat>)
    requires Sorted(a) && a != []
    ensures Sorted(a[1..]) && multiset(a[1..]) == multiset(a) - multiset{a[0]}
  {
    assert a == [a[0]] + a[1..];
  }

  /** The head of a sorted sequence is no larger than anything in it. */
  lemma SortedHeadIsLeast(a: seq<nat>, v: nat)
    requires Sorted(a) && v in a
    ensures a[0] <= v
  {
    var i :| 0 <= i < |a| && a[i] == v;
    if i > 0 {
      assert a[0] <= a[i];
    }
  }

  /** The median of the analysis, read off any ascending arrangement of the valid samples:
      the middle one for an odd count, the mean of the two middle ones for an even count. */
  lemma MedianOfSortedValid(raw: seq<Short>, t: seq<nat>)
    requires Sorted(t) && multiset(t) == multiset(ValidDepths(raw)) && t != []
    ensures RangeAnalysis(Some(raw)).Some?
    ensures var n := |t|;
      RangeAnalysis(Some(raw)).value.medianMm
        == if n % 2 == 0 then (t[n / 2 - 1] + t[n / 2]) as real / 2.0 else t[n / 2] as real
  {
    var valid := ValidDepths(raw);
    assert |t| == |multiset(t)| == |multiset(valid)| == |valid|;
    assert RangeAnalysis(Some(raw)) == Some(Analyse(valid));
    AnalysedMedian(valid, t);
  }

  /** The median `Analyse` reports is the median of any ascending arrangement of its input. */
  lemma AnalysedMedian(valid: seq<nat>, t: seq<nat>)
    requires valid != [] && t != [] && Sorted(t) && multiset(t) == multiset(valid)
    ensures Analyse(valid).medianMm == Median(t)
  {
    SortedUnique(Sort(valid), t);
  }

  /** The extremes of a sequence are the ends of its sorted permutation. */
  lemma SortedEnds(s: seq<nat>, t: seq<nat>)
    requires |s| > 0 && Sorted(t) && multiset(t) == multiset(s)
    ensures |t| == |s| && t[0] == MinOf(s) && t[|t| - 1] == MaxOf(s)
  {
    assert |t| == |multiset(t)| == |multiset(s)| == |s|;
    var lo, hi := MinOf(s), MaxOf(s);
    assert lo in multiset(t) && hi in multiset(t);
    SortedHeadIsLeast(t, lo);
    SortedLastIsGreatest(t, hi);
    assert t[0] in multiset(s) && t[|t| - 1] in multiset(s);
    var i :| 0 <= i < |s| && s[i] == t[0];
    var j :| 0 <= j < |s| && s[j] == t[|t| - 1];
  }

  /** The last element of a sorted sequence is no smaller than anything in it. */
  lemma SortedLastIsGreatest(a: seq<nat>, v: nat)
    requires Sorted(a) && v in a
    ensures a[|a| - 1] >= v
  {
    var i :| 0 <= i < |a| && a[i] == v;
    if i < |a| - 1 {
      assert a[i] <= a[|a| - 1];
    }
  }

  /** The median lies between the minimum and the maximum. */
  lemma MedianWithinRange(s: seq<nat>, t: seq<nat>)
    requires |s| > 0 && t != [] && Sorted(t) && multiset(t) == multiset(s)
    ensures MinOf(s) as real <= Median(t) <= MaxOf(s) as real
  {
    SortedEnds(s, t);
    var n := |t|;
    assert t[0] <= t[n / 2] <= t[n - 1];
    if n % 2 == 0 {
      assert t[0] <= t[n / 2 - 1] <= t[n - 1];
    }
  }

  /** A sum of `|s|` values within `[lo, hi]` lies within `[lo * |s|, hi * |s|]`. */
  lemma {:induction false} SumWithin(s: seq<nat>, lo: nat, hi: nat)
    requires forall i | 0 <= i < |s| :: lo <= s[i] <= hi
    ensures lo * |s| <= Sum(s) <= hi * |s|
  {
    if s != [] {
      var rest := s[1..];
      assert forall i | 0 <= i < |rest| :: rest[i] == s[i + 1];
      SumWithin(rest, lo, hi);
      MulSucc(lo, |rest|);
      MulSucc(hi, |rest|);
    }
  }

  /** `a * (n + 1) == a * n + a`. */
  lemma MulSucc(a: nat, n: nat)
    ensures a * (n + 1) == a * n + a
  {
  }

  /** The mean lies between the minimum and the maximum. */
  lemma MeanWithinRange(s: seq<nat>)
    requires |s| > 0
    ensures MinOf(s) as real <= Mean(s) <= MaxOf(s) as real
  {
    SumWithin(s, MinOf(s), MaxOf(s));
    QuotientOfBoundedSum(MinOf(s), MaxOf(s), |s|, Sum(s));
  }

  lemma QuotientOfBoundedSum(lo: nat, hi: nat, n: nat, total: nat)
    requires n > 0 && lo * n <= total <= hi * n
    ensures lo as real <= total as real / n as real <= hi as real
  {
    ProductAsReal(lo, n);
    ProductAsReal(hi, n);
    QuotientWithin(total as real, n as real, lo as real, hi as real);
  }

  lemma {:induction false} ProductAsReal(a: nat, b: nat)
    ensures (a * b) as real == a as real * b as real
  {
    if b > 0 {
      ProductAsReal(a, b - 1);
      assert a * b == a * (b - 1) + a;
    }
  }

  lemma QuotientWithin(total: real, n: real, lo: real, hi: real)
    requires n > 0.0 && lo * n <= total <= hi * n
    ensures lo <= total / n <= hi
  {
  }

  // ----- Point cloud -----

  /** A point of the cloud: the depth pixel it comes from and its depth in millimetres. */
  datatype DepthPoint = DepthPoint(x: nat, y: nat, depthMm: nat)

  /** The sample index a point comes from. */
  function IndexOf(p: DepthPoint, width: nat): nat {
    RowStart(p.y, width) + p.x
  }

  /** The points of row `y`, columns `0 .. cols - 1`, whose samples start at `start`. */
  function RowPoints(s: seq<Short>, start: nat, y: nat, cols: nat): seq<DepthPoint>
    requires start + cols <= |s|
  {
    if cols == 0 then []
    else
      var v := U16(s[start + cols - 1]);
      RowPoints(s, start, y, cols - 1) + if v == 0 then [] else [DepthPoint(cols - 1, y, v)]
  }

  /** Each point of a row lies in that row, at a column before `cols`, with the non-zero
      sample at its column as its depth; the columns strictly increase. */
  lemma {:induction false} RowPointsAreSamples(s: seq<Short>, start: nat, y: nat, cols: nat)
    requires start + cols <= |s|
    ensures forall k | 0 <= k < |RowPoints(s, start, y, cols)| ::
      RowPoints(s, start, y, cols)[k].y == y && RowPoints(s, start, y, cols)[k].x < cols
    ensures forall k | 0 <= k < |RowPoints(s, start, y, cols)| ::
      RowPoints(s, start, y, cols)[k].depthMm > 0
      && RowPoints(s, start, y, cols)[k].depthMm == U16(s[start + RowPoints(s, start, y, cols)[k].x])
    ensures forall k, l | 0 <= k < l < |RowPoints(s, start, y, cols)| ::
      RowPoints(s, start, y, cols)[k].x < RowPoints(s, start, y, cols)[l].x
  {
    if cols > 0 {
      RowPointsAreSamples(s, start, y, cols - 1);
      var front := RowPoints(s, start, y, cols - 1);
      var v := U16(s[start + cols - 1]);
      var r := RowPoints(s, start, y, cols);
      if v == 0 {
        assert r == front + [];
        assert r == front;
      } else {
        var p := DepthPoint(cols - 1, y, v);
        assert r == front + [p];
        forall k | 0 <= k < |r| ensures r[k].y == y && r[k].x < cols {
          if k < |front| { assert r[k] == front[k]; }
        }
        forall k | 0 <= k < |r| ensures r[k].depthMm > 0 && r[k].depthMm == U16(s[start + r[k].x]) {
          if k < |front| { assert r[k] == front[k]; }
        }
        forall k, l | 0 <= k < l < |r| ensures r[k].x < r[l].x {
          assert r[k] == front[k];
          if l < |front| { assert r[l] == front[l]; }
        }
      }
    }
  }

  /** The points of rows `0 .. rows - 1` of a frame `width` samples wide. */
  function Cloud(s: seq<Short>, width: nat, rows: nat): seq<DepthPoint>
    requires RowStart(rows, width) <= |s|
  {
    if rows == 0 then []
    else
      RowInside(rows - 1, rows, width);
      Cloud(s, width, rows - 1) + RowPoints(s, RowStart(rows - 1, width), rows - 1, width)
  }

  /** How many samples are non-zero. */
  function NonZeroCount(s: seq<Short>): nat {
    if s == [] then 0 else NonZeroCount(s[..|s| - 1]) + if U16(s[|s| - 1]) > 0 then 1 else 0
  }

  /** How many of the samples at indices `lo .. hi - 1` are non-zero. */
  function NonZeroBetween(s: seq<Short>, lo: nat, hi: nat): nat
    requires lo <= hi <= |s|
    decreases hi - lo
  {
    if lo == hi then 0 else NonZeroBetween(s, lo, hi - 1) + if U16(s[hi - 1]) > 0 then 1 else 0
  }

  /** Counting by index agrees with counting the prefix. */
  lemma {:induction false} NonZeroBetweenIsCount(s: seq<Short>, n: nat)
    requires n <= |s|
    ensures NonZeroBetween(s, 0, n) == NonZeroCount(s[..n])
  {
    if n > 0 {
      NonZeroBetweenIsCount(s, n - 1);
      assert s[..n][..n - 1] == s[..n - 1];
    }
  }

  /** The non-zero samples before `hi` are those before `mid` plus those from `mid` on. */
  lemma {:induction false} NonZeroBetweenSplit(s: seq<Short>, mid: nat, hi: nat)
    requires mid <= hi <= |s|
    ensures NonZeroBetween(s, 0, hi) == NonZeroBetween(s, 0, mid) + NonZeroBetween(s, mid, hi)
    decreases hi - mid
  {
    if mid < hi {
      NonZeroBetweenSplit(s, mid, hi - 1);
    }
  }

  /** One point per non-zero sample of the row. */
  lemma {:induction false} RowPointsCount(s: seq<Short>, start: nat, y: nat, cols: nat)
    requires start + cols <= |s|
    ensures |RowPoints(s, start, y, cols)| == NonZeroBetween(s, start, start + cols)
  {
    if cols > 0 {
      RowPointsCount(s, start, y, cols - 1);
    }
  }

  /** One point per non-zero sample of the first `rows` rows. */
  lemma CloudCount(s: seq<Short>, width: nat, rows: nat)
    requires RowStart(rows, width) <= |s|
    ensures |Cloud(s, width, rows)| == NonZeroCount(s[..RowStart(rows, width)])
  {
    CloudCountBetween(s, width, rows);
    NonZeroBetweenIsCount(s, RowStart(rows, width));
  }

  /** The count of `CloudCount`, by index. */
  lemma {:induction false} CloudCountBetween(s: seq<Short>, width: nat, rows: nat)
    requires RowStart(rows, width) <= |s|
    ensures |Cloud(s, width, rows)| == NonZeroBetween(s, 0, RowStart(rows, width))
  {
    if rows > 0 {
      var start := RowStart(rows - 1, width);
      assert RowStart(rows, width) == start + width;
      CloudCountBetween(s, width, rows - 1);
      RowPointsCount(s, start, rows - 1, width);
      NonZeroBetweenSplit(s, start, start + width);
      CloudLength(s, width, rows);
      assert |Cloud(s, width, rows)| == NonZeroBetween(s, 0, start + width);
    }
  }

  /** The cloud of `rows` rows is that of the rows before the last, then the last row's points. */
  lemma CloudLength(s: seq<Short>, width: nat, rows: nat)
    requires 0 < rows && RowStart(rows, width) <= |s|
    ensures RowStart(rows - 1, width) + width <= |s|
    ensures |Cloud(s, width, rows)|
      == |Cloud(s, width, rows - 1)| + |RowPoints(s, RowStart(rows - 1, width), rows - 1, width)|
  {
  }

  /** Each point is a non-zero sample at its own index. */
  lemma {:induction false} CloudPointsAreSamples(s: seq<Short>, width: nat, rows: nat)
    requires RowStart(rows, width) <= |s|
    ensures forall k | 0 <= k < |Cloud(s, width, rows)| ::
      Cloud(s, width, rows)[k].x < width && Cloud(s, width, rows)[k].y < rows
      && IndexOf(Cloud(s, width, rows)[k], width) < RowStart(rows, width)
      && Cloud(s, width, rows)[k].depthMm > 0
      && Cloud(s, width, rows)[k].depthMm == U16(s[IndexOf(Cloud(s, width, rows)[k], width)])
  {
    if rows > 0 {
      var start := RowStart(rows - 1, width);
      assert RowStart(rows, width) == start + width;
      CloudPointsAreSamples(s, width, rows - 1);
      var c := Cloud(s, width, rows);
      var front := Cloud(s, width, rows - 1);
      var row := RowPoints(s, start, rows - 1, width);
      RowPointsAreSamples(s, start, rows - 1, width);
      assert c == front + row;
      forall k | 0 <= k < |c|
        ensures c[k].x < width && c[k].y < rows && IndexOf(c[k], width) < RowStart(rows, width)
        ensures c[k].depthMm > 0 && c[k].depthMm == U16(s[IndexOf(c[k], width)])
      {
        if k < |front| {
          var p := front[k];
          assert c[k] == p;
          assert IndexOf(p, width) < start;
        } else {
          var p := row[k - |front|];
          assert c[k] == p;
          assert p.y == rows - 1 && p.x < width && p.depthMm > 0 && p.depthMm == U16(s[start + p.x]);
          assert IndexOf(p, width) == start + p.x;
        }
      }
    }
  }

  /** The points' sample indices strictly increase. */
  predicate IncreasingIndices(c: seq<DepthPoint>, width: nat) {
    forall k, l | 0 <= k < l < |c| :: IndexOf(c[k], width) < IndexOf(c[l], width)
  }

  /** The cloud follows row-major order and holds no sample twice. */
  lemma {:induction false} CloudRowMajor(s: seq<Short>, width: nat, rows: nat)
    requires RowStart(rows, width) <= |s|
    ensures IncreasingIndices(Cloud(s, width, rows), width)
  {
    if rows > 0 {
      var start := RowStart(rows - 1, width);
      assert RowStart(rows, width) == start + width;
      CloudRowMajor(s, width, rows - 1);
      CloudPointsAreSamples(s, width, rows - 1);
      var front := Cloud(s, width, rows - 1);
      var row := RowPoints(s, start, rows - 1, width);
      assert Cloud(s, width, rows) == front + row;
      RowIndices(s, start, rows - 1, width);
      ConcatIncreasing(front, row, width, start);
    }
  }

  /** The points of row `y` sit at indices from `RowStart(y)` on, in increasing order. */
  lemma RowIndices(s: seq<Short>, start: nat, y: nat, width: nat)
    requires start == RowStart(y, width) && start + width <= |s|
    ensures forall k | 0 <= k < |RowPoints(s, start, y, width)| ::
      start <= IndexOf(RowPoints(s, start, y, width)[k], width)
    ensures IncreasingIndices(RowPoints(s, start, y, width), width)
  {
    var row := RowPoints(s, start, y, width);
    RowPointsAreSamples(s, start, y, width);
    assert forall k | 0 <= k < |row| :: IndexOf(row[k], width) == start + row[k].x;
  }

  /** Increasing indices below `start`, then increasing indices from `start` on, increase. */
  lemma ConcatIncreasing(front: seq<DepthPoint>, row: seq<DepthPoint>, width: nat, start: nat)
    requires IncreasingIndices(front, width) && IncreasingIndices(row, width)
    requires forall k | 0 <= k < |front| :: IndexOf(front[k], width) < start
    requires forall k | 0 <= k < |row| :: start <= IndexOf(row[k], width)
    ensures IncreasingIndices(front + row, width)
  {
    var c := front + row;
    forall k, l | 0 <= k < l < |c|
      ensures IndexOf(c[k], width) < IndexOf(c[l], width)
    {
      if l < |front| {
        assert c[k] == front[k] && c[l] == front[l];
      } else if k < |front| {
        assert c[k] == front[k] && c[l] == row[l - |front|];
      } else {
        assert c[k] == row[k - |front|] && c[l] == row[l - |front|];
      }
    }
  }

  /** A bird's-eye-view grid cell. */
  datatype GridCell = GridCell(gridX: int, gridZ: int)

  /** Some point of the cloud falls on cell `(i, j)`. */
  predicate Marked(cloud: seq<DepthPoint>, toGrid: DepthPoint -> GridCell, i: int, j: int) {
    exists k | 0 <= k < |cloud| :: toGrid(cloud[k]) == GridCell(i, j)
  }

  class Processor {
    var rawDepthData: array?<Short>
    var pointCloud: Option<seq<DepthPoint>>
    var bevBitmap: array2?<bool>

    /** Nothing is loaded: the raw frame is never assigned afterwards. */
    constructor ()
      ensures rawDepthData == null && pointCloud == None && bevBitmap == null
    {
      rawDepthData := null;
      pointCloud := None;
      bevBitmap := null;
    }

    /** `getEffectiveRangeAnalysis`. */
    method GetEffectiveRangeAnalysis() returns (r: Option<DepthRangeAnalysis>)
      ensures r == RangeAnalysis(if rawDepthData == null then None else Some(rawDepthData[..]))
    {
      if rawDepthData == null {
        return None;
      }
      r := RangeAnalysis(Some(rawDepthData[..]));
    }

    /** `processImageAndCreatePointCloud` on a depth frame of `depthWidth * depthHeight`
        samples. An index past the buffer makes the absolute `get` throw: the cloud is
        then left as it was and `completed` is false. */
    method ProcessImageAndCreatePointCloud(samples: array<Short>, depthWidth: nat, depthHeight: nat)
      returns (completed: bool)
      modifies this
      ensures completed <==> RowStart(depthHeight, depthWidth) <= samples.Length
      ensures completed ==> pointCloud == Some(Cloud(samples[..], depthWidth, depthHeight))
      ensures !completed ==> pointCloud == old(pointCloud)
      ensures rawDepthData == old(rawDepthData) && bevBitmap == old(bevBitmap)
    {
      var points: seq<DepthPoint> := [];
      for y := 0 to depthHeight
        invariant RowStart(y, depthWidth) <= samples.Length
        invariant points == Cloud(samples[..], depthWidth, y)
        invariant unchanged(this)
      {
        RowStartIsProduct(y, depthWidth);
        var row, inBounds := RowOfPoints(samples, y, y * depthWidth, depthWidth);
        if !inBounds {
          RowInside(y, depthHeight, depthWidth);
          return false;
        }
        points := points + row;
      }
      pointCloud := Some(points);
      completed := true;
    }

    /** The inner loop over row `y`, whose samples start at `rowStart`: the row's points,
        or `inBounds` false when the row runs past the buffer. */
    static method RowOfPoints(samples: array<Short>, y: nat, rowStart: nat, depthWidth: nat)
      returns (row: seq<DepthPoint>, inBounds: bool)
      requires rowStart <= samples.Length
      ensures inBounds <==> rowStart + depthWidth <= samples.Length
      ensures inBounds ==> row == RowPoints(samples[..], rowStart, y, depthWidth)
    {
      row := [];
      for x := 0 to depthWidth
        invariant rowStart + x <= samples.Length
        invariant row == RowPoints(samples[..], rowStart, y, x)
      {
        var index := rowStart + x;
        if index >= samples.Length {
          return row, false;
        }
        var depthMm := U16(samples[index]);
        if depthMm == 0 {
          continue;
        }
        row := row + [DepthPoint(x, y, depthMm)];
      }
      inBounds := true;
    }

    /** `generateBev`: with a cloud and a positive grid size, a new all-black square grid
        with the cells that some point maps to marked white; `toGrid` stands for the
        floating-point projection of a point onto the grid. Without a cloud it logs and
        returns, changing nothing. With a cloud and a non-positive grid size,
        `Bitmap.createBitmap` throws: `completed` is false and nothing changes. */
    method GenerateBev(gridSizeM: int, resolutionPxPerM: int, toGrid: DepthPoint -> GridCell)
      returns (completed: bool)
      modifies this
      ensures rawDepthData == old(rawDepthData) && pointCloud == old(pointCloud)
      ensures !completed <==> pointCloud.Some? && gridSizeM * resolutionPxPerM <= 0
      ensures pointCloud.None? || gridSizeM * resolutionPxPerM <= 0 ==> bevBitmap == old(bevBitmap)
      ensures pointCloud.Some? && gridSizeM * resolutionPxPerM > 0 ==>
        && bevBitmap != null && fresh(bevBitmap)
        && bevBitmap.Length0 == gridSizeM * resolutionPxPerM == bevBitmap.Length1
        && forall i, j | 0 <= i < bevBitmap.Length0 && 0 <= j < bevBitmap.Length1 ::
             bevBitmap[i, j] <==> Marked(pointCloud.value, toGrid, i, j)
    {
      if pointCloud.None? {
        return true;
      }
      var gridDimPx := gridSizeM * resolutionPxPerM;
      if gridDimPx <= 0 {
        return false;
      }
      var bitmap := new bool[gridDimPx, gridDimPx]((i, j) => false);
      MarkCells(bitmap, pointCloud.value, toGrid);
      bevBitmap := bitmap;
      completed := true;
    }

    /** The `forEach` over the cloud: marks the cell of each point that lies inside the grid. */
    static method MarkCells(bitmap: array2<bool>, cloud: seq<DepthPoint>, toGrid: DepthPoint -> GridCell)
      requires forall i, j | 0 <= i < bitmap.Length0 && 0 <= j < bitmap.Length1 :: !bitmap[i, j]
      modifies bitmap
      ensures forall i, j | 0 <= i < bitmap.Length0 && 0 <= j < bitmap.Length1 ::
        bitmap[i, j] <==> Marked(cloud, toGrid, i, j)
    {
      for n := 0 to |cloud|
        invariant forall i, j | 0 <= i < bitmap.Length0 && 0 <= j < bitmap.Length1 ::
          bitmap[i, j] <==> Marked(cloud[..n], toGrid, i, j)
      {
        var cell := toGrid(cloud[n]);
        if 0 <= cell.gridX < bitmap.Length0 && 0 <= cell.gridZ < bitmap.Length1 {
          bitmap[cell.gridX, cell.gridZ] := true;
        }
        forall i, j | 0 <= i < bitmap.Length0 && 0 <= j < bitmap.Length1
          ensures bitmap[i, j] <==> Marked(cloud[..n + 1], toGrid, i, j)
        {
          assert cloud[..n + 1][n] == cloud[n];
          if Marked(cloud[..n], toGrid, i, j) {
            var k :| 0 <= k < n && toGrid(cloud[..n][k]) == GridCell(i, j);
            assert cloud[..n + 1][k] == cloud[..n][k];
          }
          if Marked(cloud[..n + 1], toGrid, i, j) {
            var k :| 0 <= k < n + 1 && toGrid(cloud[..n + 1][k]) == GridCell(i, j);
            if k < n {
              assert cloud[..n][k] == cloud[..n + 1][k];
            }
          }
        }
      }
      assert cloud[..|cloud|] == cloud;
    }
  }
}
