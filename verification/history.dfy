/** The "no value" result of the statistics queries. */
module Options {

  datatype Option<+T> = None | Some(value: T)
}

/**
  The sliding window of CPU / memory samples kept by the dashboard
  (src/history.rs), with its rolling mean, peak and trend arrow.

  The window is a sequence, oldest sample first. Every query is a pure
  function of the tracker, so no query can change the window.
 */
module History {
  import opened Options

  /** One sample: CPU %, memory % and memory in use in MB. */
  datatype Sample = Sample(cpuUsage: real, memPercentUsage: real, memUsedMb: nat)

  /** The window and the capacity it was created with. */
  datatype Tracker = Tracker(data: seq<Sample>, maxSize: nat)

  /** The direction of the last step of a metric. */
  datatype Trend = Undetermined | Rising | Falling | Flat

  /** Steps no larger than this, in absolute units, count as flat. */
  const Deadband: real := 1.0

  /** The arrows the trend queries print; fewer than two samples print nothing. */
  const RisingArrow: string := "\U{2197}"
  const FallingArrow: string := "\U{2198}"
  const FlatArrow: string := "\U{2192}"

  // ---------------------------------------------------------------------
  // Window
  // ---------------------------------------------------------------------

  /** How many samples the window really holds at most: `add` pushes even
      when the capacity is zero, so a zero-capacity window keeps one. */
  function Capacity(maxSize: nat): (c: nat)
    ensures c >= 1 && c >= maxSize
    ensures maxSize >= 1 ==> c == maxSize
    ensures maxSize == 0 ==> c == 1
  {
    if maxSize == 0 then 1 else maxSize
  }

  /** The state every reachable tracker is in. */
  ghost predicate Valid(t: Tracker)
  {
    |t.data| <= Capacity(t.maxSize)
  }

  /** The newest `k` elements of `xs` (all of them if there are fewer). */
  function Newest<T>(xs: seq<T>, k: nat): (r: seq<T>)
    ensures |r| == if |xs| < k then |xs| else k
    ensures forall i :: 0 <= i < |r| ==> r[i] == xs[|xs| - |r| + i]
  {
    if |xs| <= k then xs else xs[|xs| - k..]
  }

  /** A tracker with an empty window. */
  function New(maxSize: nat): (t: Tracker)
    ensures t.maxSize == maxSize && |t.data| == 0
    ensures Valid(t)
    ensures !HasData(t)
    ensures CpuAvg(t) == None && MemAvg(t) == None
    ensures CpuMax(t) == None && MemMax(t) == None
    ensures CpuTrend(t) == "" && MemTrend(t) == ""
  {
    Tracker([], maxSize)
  }

  /** Appends `s`; when the window already holds `maxSize` samples the
      oldest one is dropped first. */
  function Add(t: Tracker, s: Sample): (t': Tracker)
    ensures t'.maxSize == t.maxSize
    ensures |t'.data| >= 1 && t'.data[|t'.data| - 1] == s
    ensures t'.data[..|t'.data| - 1] ==
            if |t.data| >= t.maxSize && |t.data| > 0 then t.data[1..] else t.data
    ensures Valid(t) ==> t'.data == Newest(t.data + [s], Capacity(t.maxSize))
    ensures Valid(t) ==> Valid(t')
    ensures t.maxSize >= 1 && |t.data| <= t.maxSize ==> |t'.data| <= t.maxSize
    ensures t.maxSize == 0 && Valid(t) ==> t'.data == [s]
  {
    var kept := if |t.data| >= t.maxSize && |t.data| > 0 then t.data[1..] else t.data;
    assert (kept + [s])[..|kept + [s]| - 1] == kept;
    t.(data := kept + [s])
  }

  /** The tracker after adding every sample of `xs`, first to last. */
  function AddAll(t: Tracker, xs: seq<Sample>): Tracker
    decreases |xs|
  {
    if xs == [] then t else Add(AddAll(t, xs[..|xs| - 1]), xs[|xs| - 1])
  }

  /** Keeping the newest `c` and then adding one more keeps the newest `c`
      of everything. */
  lemma NewestThenAppend<T>(xs: seq<T>, x: T, c: nat)
    requires c >= 1
    ensures Newest(Newest(xs, c) + [x], c) == Newest(xs + [x], c)
  {
    var lhs := Newest(Newest(xs, c) + [x], c);
    var rhs := Newest(xs + [x], c);
    assert |lhs| == |rhs|;
    forall i | 0 <= i < |lhs|
      ensures lhs[i] == rhs[i]
    {
      var n := Newest(xs, c);
      if i == |lhs| - 1 {
      } else {
        assert lhs[i] == (n + [x])[|n| + 1 - |lhs| + i];
        assert rhs[i] == (xs + [x])[|xs| + 1 - |rhs| + i];
      }
    }
  }

  lemma SplitLast<T>(a: seq<T>, xs: seq<T>)
    requires |xs| > 0
    ensures a + xs[..|xs| - 1] + [xs[|xs| - 1]] == a + xs
  {
    assert xs[..|xs| - 1] + [xs[|xs| - 1]] == xs;
  }

  /** Any run of adds leaves the window holding the newest samples, in
      insertion order, up to the window's capacity. */
  lemma {:induction false} AddAllKeepsNewest(t: Tracker, xs: seq<Sample>)
    requires Valid(t)
    ensures AddAll(t, xs).maxSize == t.maxSize
    ensures Valid(AddAll(t, xs))
    ensures AddAll(t, xs).data == Newest(t.data + xs, Capacity(t.maxSize))
    decreases |xs|
  {
    if xs == [] {
      assert t.data + xs == t.data;
    } else {
      var init, x := xs[..|xs| - 1], xs[|xs| - 1];
      AddAllKeepsNewest(t, init);
      var u, c := AddAll(t, init), Capacity(t.maxSize);
      assert AddAll(t, xs) == Add(u, x);
      assert Add(u, x).data == Newest(u.data + [x], c);
      NewestThenAppend(t.data + init, x, c);
      SplitLast(t.data, xs);
    }
  }

  /** From a fresh tracker the window is the newest samples added. */
  lemma FromNewKeepsNewest(maxSize: nat, xs: seq<Sample>)
    ensures AddAll(New(maxSize), xs).data == Newest(xs, Capacity(maxSize))
  {
    AddAllKeepsNewest(New(maxSize), xs);
    assert New(maxSize).data + xs == xs;
  }

  /** From a fresh tracker: the window never outgrows a positive capacity,
      a zero capacity keeps exactly the last sample, and after at least
      `maxSize` adds the window is the last `maxSize` samples added. */
  lemma WindowFromNew(maxSize: nat, xs: seq<Sample>)
    ensures maxSize >= 1 ==> |AddAll(New(maxSize), xs).data| <= maxSize
    ensures maxSize == 0 && |xs| >= 1 ==> AddAll(New(maxSize), xs).data == [xs[|xs| - 1]]
    ensures maxSize >= 1 && |xs| >= maxSize ==>
            AddAll(New(maxSize), xs).data == xs[|xs| - maxSize..]
    ensures |xs| <= maxSize ==> AddAll(New(maxSize), xs).data == xs
  {
    var c := Capacity(maxSize);
    FromNewKeepsNewest(maxSize, xs);
    var r := AddAll(New(maxSize), xs).data;
    if |xs| >= c {
      assert xs[|xs| - c..] == r;
    }
  }

  // ---------------------------------------------------------------------
  // Per-metric columns of the window
  // ---------------------------------------------------------------------

  function CpuValues(data: seq<Sample>): (r: seq<real>)
    ensures |r| == |data|
    ensures forall i :: 0 <= i < |data| ==> r[i] == data[i].cpuUsage
  {
    seq(|data|, i requires 0 <= i < |data| => data[i].cpuUsage)
  }

  function MemValues(data: seq<Sample>): (r: seq<real>)
    ensures |r| == |data|
    ensures forall i :: 0 <= i < |data| ==> r[i] == data[i].memPercentUsage
  {
    seq(|data|, i requires 0 <= i < |data| => data[i].memPercentUsage)
  }

  // ---------------------------------------------------------------------
  // Mean
  // ---------------------------------------------------------------------

  /** The sum of `xs`, added first to last. */
  function Sum(xs: seq<real>): real
  {
    if xs == [] then 0.0 else Sum(xs[..|xs| - 1]) + xs[|xs| - 1]
  }

  /** The arithmetic mean, absent for no values. */
  function Mean(xs: seq<real>): (r: Option<real>)
    ensures r.None? <==> |xs| == 0
    ensures r.Some? ==> r.value * (|xs| as real) == Sum(xs)
  {
    if |xs| == 0 then None else Some(Sum(xs) / (|xs| as real))
  }

  function CpuAvg(t: Tracker): (r: Option<real>)
    ensures r.None? <==> |t.data| == 0
    ensures r.Some? ==> r.value * (|t.data| as real) == Sum(CpuValues(t.data))
  {
    Mean(CpuValues(t.data))
  }

  function MemAvg(t: Tracker): (r: Option<real>)
    ensures r.None? <==> |t.data| == 0
    ensures r.Some? ==> r.value * (|t.data| as real) == Sum(MemValues(t.data))
  {
    Mean(MemValues(t.data))
  }

  /** `n` copies of `c` sum to `n * c`. */
  lemma {:induction false} SumOfConstant(xs: seq<real>, c: real)
    requires forall i :: 0 <= i < |xs| ==> xs[i] == c
    ensures Sum(xs) == (|xs| as real) * c
    decreases |xs|
  {
    if xs != [] {
      SumOfConstant(xs[..|xs| - 1], c);
    }
  }

  /** Values all at most `m` sum to at most `|xs| * m`. */
  lemma {:induction false} SumAtMost(xs: seq<real>, m: real)
    requires forall i :: 0 <= i < |xs| ==> xs[i] <= m
    ensures Sum(xs) <= (|xs| as real) * m
    decreases |xs|
  {
    if xs != [] {
      SumAtMost(xs[..|xs| - 1], m);
    }
  }

  /** On identical values the mean is exactly that value. */
  lemma MeanOfConstant(xs: seq<real>, c: real)
    requires |xs| > 0
    requires forall i :: 0 <= i < |xs| ==> xs[i] == c
    ensures Mean(xs) == Some(c)
  {
    SumOfConstant(xs, c);
    var n := |xs| as real;
    assert Mean(xs).value * n == n * c;
    DivideOut(Mean(xs).value, c, n);
    DivideOut(c, Mean(xs).value, n);
  }

  /** Cancels a positive factor from both sides of an inequality. */
  lemma DivideOut(a: real, b: real, n: real)
    requires n > 0.0 && a * n <= b * n
    ensures a <= b
  {
  }

  /** A value whose `n`-fold is at most `n * m` is at most `m`. */
  lemma QuotientAtMost(v: real, total: real, n: real, m: real)
    requires n > 0.0 && v * n == total && total <= n * m
    ensures v <= m
  {
    assert n * m == m * n;
    DivideOut(v, m, n);
  }

  /** The mean never exceeds a bound on every value. */
  lemma MeanAtMost(xs: seq<real>, m: real)
    requires |xs| > 0
    requires forall i :: 0 <= i < |xs| ==> xs[i] <= m
    ensures Mean(xs).value <= m
  {
    SumAtMost(xs, m);
    QuotientAtMost(Mean(xs).value, Sum(xs), |xs| as real, m);
  }

  /** A window of identical samples averages to exactly that sample. */
  lemma AvgOfIdenticalSamples(t: Tracker, s: Sample)
    requires |t.data| > 0
    requires forall i :: 0 <= i < |t.data| ==> t.data[i] == s
    ensures CpuAvg(t) == Some(s.cpuUsage)
    ensures MemAvg(t) == Some(s.memPercentUsage)
  {
    MeanOfConstant(CpuValues(t.data), s.cpuUsage);
    MeanOfConstant(MemValues(t.data), s.memPercentUsage);
  }

  /** The average line never shows more than the peak line. */
  lemma AvgAtMostPeak(t: Tracker)
    requires HasData(t)
    ensures CpuAvg(t).value <= CpuMax(t).value
    ensures MemAvg(t).value <= MemMax(t).value
  {
    MeanAtMost(CpuValues(t.data), CpuMax(t).value);
    MeanAtMost(MemValues(t.data), MemMax(t).value);
  }

  // ---------------------------------------------------------------------
  // Peak
  // ---------------------------------------------------------------------

  /** The largest of a non-empty sequence of values. */
  function MaxOf(xs: seq<real>): (m: real)
    requires |xs| > 0
    ensures exists i :: 0 <= i < |xs| && xs[i] == m
    ensures forall i :: 0 <= i < |xs| ==> xs[i] <= m
    decreases |xs|
  {
    if |xs| == 1 then xs[0]
    else
      var rest := MaxOf(xs[..|xs| - 1]);
      if xs[|xs| - 1] >= rest then xs[|xs| - 1] else rest
  }

  function CpuMax(t: Tracker): (r: Option<real>)
    ensures r.None? <==> |t.data| == 0
    ensures r.Some? ==> exists i :: 0 <= i < |t.data| && t.data[i].cpuUsage == r.value
    ensures r.Some? ==> forall i :: 0 <= i < |t.data| ==> t.data[i].cpuUsage <= r.value
  {
    if |t.data| == 0 then None else Some(MaxOf(CpuValues(t.data)))
  }

  function MemMax(t: Tracker): (r: Option<real>)
    ensures r.None? <==> |t.data| == 0
    ensures r.Some? ==> exists i :: 0 <= i < |t.data| && t.data[i].memPercentUsage == r.value
    ensures r.Some? ==> forall i :: 0 <= i < |t.data| ==> t.data[i].memPercentUsage <= r.value
  {
    if |t.data| == 0 then None else Some(MaxOf(MemValues(t.data)))
  }

  // ---------------------------------------------------------------------
  // Trend
  // ---------------------------------------------------------------------

  /** Classifies the step from `prev` to `curr` with the deadband. */
  function Classify(prev: real, curr: real): (d: Trend)
    ensures d != Undetermined
    ensures d == Rising <==> curr > prev + Deadband
    ensures d == Falling <==> curr < prev - Deadband
    ensures d == Flat <==> prev - Deadband <= curr <= prev + Deadband
  {
    if curr > prev + Deadband then Rising
    else if curr < prev - Deadband then Falling
    else Flat
  }

  /** The direction of the last step of `xs`, undetermined without one. */
  function Direction(xs: seq<real>): (d: Trend)
    ensures d == Undetermined <==> |xs| < 2
  {
    if |xs| < 2 then Undetermined else Classify(xs[|xs| - 2], xs[|xs| - 1])
  }

  /** The text printed for a direction. */
  function Symbol(d: Trend): (s: string)
    ensures s == "" <==> d == Undetermined
  {
    match d
    case Undetermined => ""
    case Rising => RisingArrow
    case Falling => FallingArrow
    case Flat => FlatArrow
  }

  function CpuTrend(t: Tracker): (s: string)
    ensures s == "" <==> |t.data| < 2
    ensures |t.data| >= 2 ==>
            s == Symbol(Classify(t.data[|t.data| - 2].cpuUsage, t.data[|t.data| - 1].cpuUsage))
  {
    Symbol(Direction(CpuValues(t.data)))
  }

  function MemTrend(t: Tracker): (s: string)
    ensures s == "" <==> |t.data| < 2
    ensures |t.data| >= 2 ==>
            s == Symbol(Classify(t.data[|t.data| - 2].memPercentUsage,
                                 t.data[|t.data| - 1].memPercentUsage))
  {
    Symbol(Direction(MemValues(t.data)))
  }

  /** The four outcomes print four different texts. */
  lemma SymbolInjective(d: Trend, e: Trend)
    requires Symbol(d) == Symbol(e)
    ensures d == e
  {
  }

  /** Swapping the two samples swaps rising and falling and keeps flat. */
  lemma ClassifyReversed(a: real, b: real)
    ensures Classify(a, b) == Rising <==> Classify(b, a) == Falling
    ensures Classify(a, b) == Flat <==> Classify(b, a) == Flat
  {
  }

  /** Only the size of the step matters, not the level. */
  lemma ClassifyShift(a: real, b: real, k: real)
    ensures Classify(a + k, b + k) == Classify(a, b)
  {
  }

  /** The trend after an add compares the new sample with the previous
      newest one; a window that holds a single sample never has a trend. */
  lemma TrendAfterAdd(t: Tracker, s: Sample)
    requires Valid(t) && |t.data| >= 1
    ensures CpuTrend(Add(t, s)) ==
            if Capacity(t.maxSize) >= 2
            then Symbol(Classify(t.data[|t.data| - 1].cpuUsage, s.cpuUsage)) else ""
    ensures MemTrend(Add(t, s)) ==
            if Capacity(t.maxSize) >= 2
            then Symbol(Classify(t.data[|t.data| - 1].memPercentUsage, s.memPercentUsage)) else ""
  {
    var u := Add(t, s);
    if Capacity(t.maxSize) >= 2 {
      LastTwoAfterAdd(t, s);
      var n := |u.data|;
      assert CpuTrend(u) == Symbol(Classify(u.data[n - 2].cpuUsage, u.data[n - 1].cpuUsage));
      assert MemTrend(u) ==
             Symbol(Classify(u.data[n - 2].memPercentUsage, u.data[n - 1].memPercentUsage));
    } else {
      OneAfterAdd(t, s);
    }
  }

  /** With room for one, the window after an add is just the new sample. */
  lemma OneAfterAdd(t: Tracker, s: Sample)
    requires Valid(t) && Capacity(t.maxSize) < 2
    ensures |Add(t, s).data| == 1
  {
    assert Add(t, s).data == Newest(t.data + [s], 1);
  }

  /** With room for two, the window after an add ends with the previous
      newest sample followed by the new one. */
  lemma LastTwoAfterAdd(t: Tracker, s: Sample)
    requires Valid(t) && |t.data| >= 1 && Capacity(t.maxSize) >= 2
    ensures |Add(t, s).data| >= 2
    ensures Add(t, s).data[|Add(t, s).data| - 2] == t.data[|t.data| - 1]
    ensures Add(t, s).data[|Add(t, s).data| - 1] == s
  {
    var d, e, c := Add(t, s).data, t.data + [s], Capacity(t.maxSize);
    assert d == Newest(e, c);
    assert |d| == if |e| < c then |e| else c;
    var k := |d| - 2;
    assert d[k] == e[|e| - |d| + k];
    assert e[|e| - 2] == t.data[|t.data| - 1];
  }

  /** The trend reads only the last two samples. */
  lemma TrendUsesLastTwo(t: Tracker, u: Tracker)
    requires |t.data| >= 2 && |u.data| >= 2
    requires t.data[|t.data| - 2] == u.data[|u.data| - 2]
    requires t.data[|t.data| - 1] == u.data[|u.data| - 1]
    ensures CpuTrend(t) == CpuTrend(u) && MemTrend(t) == MemTrend(u)
  {
  }

  // ---------------------------------------------------------------------
  // Presence
  // ---------------------------------------------------------------------

  /** Whether the average and peak lines have anything to show. */
  function HasData(t: Tracker): (b: bool)
    ensures b <==> CpuAvg(t).Some? && MemAvg(t).Some?
    ensures b <==> CpuMax(t).Some? && MemMax(t).Some?
    ensures !b <==> t.data == []
  {
    |t.data| != 0
  }

  // ---------------------------------------------------------------------
  // The worked examples
  // ---------------------------------------------------------------------

  function CpuSample(c: real): Sample
  {
    Sample(c, 0.0, 0)
  }

  lemma TrendExamples()
    ensures CpuTrend(Tracker([CpuSample(50.0), CpuSample(52.0)], 10)) == RisingArrow
    ensures CpuTrend(Tracker([CpuSample(50.0), CpuSample(48.5)], 10)) == FallingArrow
    ensures CpuTrend(Tracker([CpuSample(50.0), CpuSample(50.5)], 10)) == FlatArrow
    ensures CpuTrend(Tracker([CpuSample(50.0)], 10)) == ""
  {
  }

  lemma PeakExample()
    ensures CpuMax(Tracker([CpuSample(10.0), CpuSample(90.0), CpuSample(30.0)], 10)) == Some(90.0)
  {
    var t := Tracker([CpuSample(10.0), CpuSample(90.0), CpuSample(30.0)], 10);
    var m := CpuMax(t).value;
    assert t.data[1].cpuUsage <= m;
  }
}
