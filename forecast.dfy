/** The value-level parts of `PlotOrder.forecastPlot` and `savedForecastPlot`:
    the horizon choice, the month indices to forecast, the policy applied to each
    raw prediction, the primary x-axis with its month labels, and the secondary
    year axis (labels and tick positions). The loops of the source that build these
    lists are the methods at the end of the module. */
module Forecast {
  import opened Support
  import opened Series

  /** `MIN_DATA_PTS`: a product needs more non-zero months than this. */
  const MinDataPoints := 10
  /** `MIN_R2`: below this test R-squared the model is considered poor. */
  const MinR2: real := 0.20
  /** A poor model whose test MAE also exceeds this forecasts zeros. */
  const MaeLimit: real := 100.0
  /** A negative prediction is shown as this short bar instead. */
  const NegativeStub: real := 0.05
  /** The first year tick sits over the eighth month of the first year block. */
  const FirstYearTick := 8

  /** The tuple `forecastPlot` returns:
      `(x_forPlot, y_poly_pred, m, xticks1, modelDict[productID], newlabel, newpos)`. */
  datatype ForecastOutput = ForecastOutput(
    x: seq<int>,              // 1-based month indices of the training points
    y: seq<real>,             // the fitted model's value at each of them
    months: nat,              // forecast horizon in months
    xTicks: seq<int>,         // bar positions: history, then forecast months
    series: seq<real>,        // the history with the forecast appended
    yearLabels: seq<int>,     // labels of the year axis
    yearPositions: seq<int>)  // positions of those labels

  /** Duration choice 0, 1, 2 (month, quarter, year) to months; any other value is
      used as a month count unchanged. */
  function Horizon(choice: nat): (m: nat)
    ensures choice <= 2 ==> m == [1, 3, 12][choice]
    ensures choice > 2 ==> m == choice
  {
    if choice == 0 then 1 else if choice == 1 then 3 else if choice == 2 then 12 else choice
  }

  /** `currX`: the 1-based index of the start month, counted as if every year from
      the first observed one were present in the series. */
  function StartIndex(startYear: int, firstYear: int, startMon: int): (x: int)
    ensures 1 <= startMon <= 12 ==> MonthLabel(x) == startMon
    ensures startYear == firstYear ==> x == startMon
  {
    if 1 <= startMon <= 12 then
      MonthLabelOfSeriesPosition(startYear - firstYear, startMon);
      (startYear - firstYear) * 12 + startMon
    else
      (startYear - firstYear) * 12 + startMon
  }

  /** The model is untrusted when its fit is poor and its error large. */
  predicate LowConfidence(maxR2: real, mae: real)
  {
    maxR2 < MinR2 && mae > MaeLimit
  }

  /** The value appended for one raw prediction. */
  function ForecastValue(raw: real, lowConfidence: bool): (v: real)
    ensures v >= 0.0
    ensures lowConfidence ==> v == 0.0
    ensures !lowConfidence && raw < 0.0 ==> v == NegativeStub
    ensures !lowConfidence && raw >= 0.0 ==> v == raw
  {
    var clamped := if raw < 0.0 then NegativeStub else raw;
    if lowConfidence then 0.0 else clamped
  }

  /** The values appended for a sequence of raw predictions, in order. */
  function Appended(raw: seq<real>, lowConfidence: bool): (vs: seq<real>)
    ensures |vs| == |raw|
    ensures forall i :: 0 <= i < |vs| ==> vs[i] >= 0.0
  {
    if raw == [] then []
    else Appended(raw[..|raw| - 1], lowConfidence) + [ForecastValue(raw[|raw| - 1], lowConfidence)]
  }

  /** The appended values: one per prediction, never negative; all zero when the
      model is untrusted, and otherwise each value is its prediction or, for a
      negative prediction, the stub. */
  lemma {:induction false} AppendedPolicy(raw: seq<real>, maxR2: real, mae: real)
    ensures var vs := Appended(raw, LowConfidence(maxR2, mae));
      && |vs| == |raw|
      && (forall i :: 0 <= i < |vs| ==> vs[i] == ForecastValue(raw[i], LowConfidence(maxR2, mae)))
      && (forall i :: 0 <= i < |vs| ==> vs[i] >= 0.0)
      && (maxR2 < MinR2 && mae > MaeLimit ==> forall i :: 0 <= i < |vs| ==> vs[i] == 0.0)
      && (maxR2 >= MinR2 || mae <= MaeLimit ==>
            forall i :: 0 <= i < |vs| ==> vs[i] == (if raw[i] < 0.0 then NegativeStub else raw[i]))
  {
    if raw != [] {
      var init := raw[..|raw| - 1];
      AppendedPolicy(init, maxR2, mae);
      assert forall i :: 0 <= i < |init| ==> init[i] == raw[i];
    }
  }

  /** `list(range(1, n + 1))`. */
  function TickRange(n: nat): (r: seq<int>)
    ensures |r| == n
    ensures forall i :: 0 <= i < n ==> r[i] == i + 1
  {
    seq(n, i => i + 1)
  }

  /** The month shown under bar position `x`: `x % 12`, with 0 shown as 12. */
  function MonthLabel(x: int): (l: int)
    ensures 1 <= l <= 12
    ensures (x - l) % 12 == 0
  {
    var r := x % 12;
    if r == 0 then 12 else r
  }

  /** Under the series layout, 1-based position `12 * j + mo` is month `mo` of the
      `j`-th year block, and that is the label it gets. */
  lemma MonthLabelOfSeriesPosition(j: int, mo: int)
    requires 1 <= mo <= 12
    ensures MonthLabel(12 * j + mo) == mo
  {
    var x := 12 * j + mo;
    var q := x / 12;
    assert x == 12 * q + x % 12;
    assert mo - x % 12 == 12 * (q - j);
  }

  /** `[year for year in keys if year <= startYear]`. */
  function KeptYears(keys: seq<int>, startYear: int): (r: seq<int>)
    ensures |r| <= |keys|
    ensures forall i :: 0 <= i < |r| ==> r[i] <= startYear
    ensures forall y :: y in r <==> y in keys && y <= startYear
  {
    if keys == [] then []
    else
      var prev := KeptYears(keys[..|keys| - 1], startYear);
      var y := keys[|keys| - 1];
      if y <= startYear then prev + [y] else prev
  }

  /** The year the label list must reach: the start year, or the next when the
      horizon is a full year. */
  function LabelTarget(startYear: int, m: int): int
  {
    if m == 12 then startYear + 1 else startYear
  }

  /** `[lo, lo + 1, ..., hi]` (empty when `hi < lo`). */
  function Consecutive(lo: int, hi: int): (r: seq<int>)
    ensures |r| == if hi < lo then 0 else hi - lo + 1
    ensures forall i :: 0 <= i < |r| ==> r[i] == lo + i
    decreases hi - lo
  {
    if hi < lo then [] else Consecutive(lo, hi - 1) + [hi]
  }

  /** The final year labels, or `None` when `newlabel` is empty and the source's
      `newlabel[-1]` raises an IndexError. */
  function YearLabels(keys: seq<int>, startYear: int, m: int): (r: Option<seq<int>>)
    ensures r.None? <==> KeptYears(keys, startYear) == []
    ensures r.Some? ==> |KeptYears(keys, startYear)| <= |r.value|
  {
    var kept := KeptYears(keys, startYear);
    var target := LabelTarget(startYear, m);
    if target !in kept && kept == [] then None else Some(KeptLabels(kept, target))
  }

  /** The year labels exist exactly when some key is at most the start year. */
  lemma YearLabelsDefined(keys: seq<int>, startYear: int, m: int)
    ensures YearLabels(keys, startYear, m).Some? <==> exists i :: 0 <= i < |keys| && keys[i] <= startYear
  {
    var kept := KeptYears(keys, startYear);
    if exists i :: 0 <= i < |keys| && keys[i] <= startYear {
      var i :| 0 <= i < |keys| && keys[i] <= startYear;
      assert keys[i] in kept;
    }
    if YearLabels(keys, startYear, m).Some? {
      assert kept != [];
      assert kept[0] in keys;
      var i :| 0 <= i < |keys| && keys[i] == kept[0];
    }
  }

  /** From position `n` on, each entry is one more than the entry before it. */
  ghost predicate ConsecutiveFrom(labels: seq<int>, n: int)
  {
    forall i :: n <= i < |labels| && 0 < i ==> labels[i] == labels[i - 1] + 1
  }

  /** Defined year labels contain the target year and start with the kept keys. */
  lemma YearLabelsShape(keys: seq<int>, startYear: int, m: int)
    requires YearLabels(keys, startYear, m).Some?
    ensures LabelTarget(startYear, m) in YearLabels(keys, startYear, m).value
    ensures |KeptYears(keys, startYear)| <= |YearLabels(keys, startYear, m).value|
    ensures YearLabels(keys, startYear, m).value[..|KeptYears(keys, startYear)|] == KeptYears(keys, startYear)
  {
    var kept := KeptYears(keys, startYear);
    var target := LabelTarget(startYear, m);
    LabelsFromKept(kept, target);
  }

  /** Past the kept keys, defined year labels continue only by consecutive years. */
  lemma YearLabelsConsecutive(keys: seq<int>, startYear: int, m: int)
    requires YearLabels(keys, startYear, m).Some?
    ensures ConsecutiveFrom(YearLabels(keys, startYear, m).value, |KeptYears(keys, startYear)|)
  {
    var kept := KeptYears(keys, startYear);
    var target := LabelTarget(startYear, m);
    LabelsFromKept(kept, target);
  }

  /** The label list built from kept years: kept as is when it reaches `target`,
      extended by the years after its last one otherwise. */
  function KeptLabels(kept: seq<int>, target: int): seq<int>
    requires kept != [] || target in kept
  {
    if target in kept then kept else kept + Consecutive(kept[|kept| - 1] + 1, target)
  }

  /** The label list built from non-empty kept years, all at most `target`. */
  lemma LabelsFromKept(kept: seq<int>, target: int)
    requires kept != [] || target in kept
    requires forall y :: y in kept ==> y <= target
    ensures target in KeptLabels(kept, target)
    ensures |kept| <= |KeptLabels(kept, target)| && KeptLabels(kept, target)[..|kept|] == kept
    ensures ConsecutiveFrom(KeptLabels(kept, target), |kept|)
  {
    if target in kept {
      assert kept[..|kept|] == kept;
    } else {
      var last := kept[|kept| - 1];
      assert last in kept;
      ExtensionShape(kept, target);
    }
  }

  /** Extending a list that ends below `target` by the years after its last one. */
  lemma ExtensionShape(kept: seq<int>, target: int)
    requires kept != [] && kept[|kept| - 1] < target
    ensures var labels := kept + Consecutive(kept[|kept| - 1] + 1, target);
      && labels[|labels| - 1] == target
      && |kept| <= |labels| && labels[..|kept|] == kept
      && ConsecutiveFrom(labels, |kept|)
  {
    var last := kept[|kept| - 1];
    var ext := Consecutive(last + 1, target);
    var labels := kept + ext;
    assert labels[..|kept|] == kept;
    forall i | |kept| <= i < |labels| && 0 < i ensures labels[i] == labels[i - 1] + 1 {
      assert labels[i] == ext[i - |kept|];
      if i > |kept| {
        assert labels[i - 1] == ext[i - 1 - |kept|];
      }
    }
  }

  /** With ascending keys the year labels ascend and end exactly at the target year. */
  lemma YearLabelsAscending(keys: seq<int>, startYear: int, m: int)
    requires YearLabels(keys, startYear, m).Some? && StrictlyIncreasing(keys)
    ensures var labels := YearLabels(keys, startYear, m).value;
      StrictlyIncreasing(labels) && labels[|labels| - 1] == LabelTarget(startYear, m)
  {
    var kept := KeptYears(keys, startYear);
    var target := LabelTarget(startYear, m);
    KeptAscending(keys, startYear);
    var last := kept[|kept| - 1];
    if target !in kept {
      assert last < target;
      var ext := Consecutive(last + 1, target);
      var labels := kept + ext;
      assert labels[|labels| - 1] == target;
      forall i, j | 0 <= i < j < |labels| ensures labels[i] < labels[j] {
        if j < |kept| {
        } else if i < |kept| {
          assert labels[i] <= last < labels[j];
        }
      }
    } else {
      var j :| 0 <= j < |kept| && kept[j] == target;
      assert target == startYear;
      assert kept[j] <= last;
    }
  }

  /** Filtering ascending keys keeps them ascending. */
  lemma {:induction false} KeptAscending(keys: seq<int>, startYear: int)
    requires StrictlyIncreasing(keys)
    ensures StrictlyIncreasing(KeptYears(keys, startYear))
  {
    if keys != [] {
      var init := keys[..|keys| - 1];
      assert StrictlyIncreasing(init);
      KeptAscending(init, startYear);
      var prev := KeptYears(init, startYear);
      var y := keys[|keys| - 1];
      if y <= startYear {
        forall i | 0 <= i < |prev| ensures prev[i] < y {
          assert prev[i] in init;
          var k :| 0 <= k < |init| && init[k] == prev[i];
          assert keys[k] == prev[i];
        }
        var r := prev + [y];
        forall i, j | 0 <= i < j < |r| ensures r[i] < r[j] {
          if j < |prev| {
            assert r[i] == prev[i] && r[j] == prev[j];
          }
        }
      }
    }
  }

  /** `newpos`: the tick of label `i` sits at `8 + 12 * i`. */
  function YearTick(i: int): int
  {
    FirstYearTick + 12 * i
  }

  /** Year tick `i` falls inside the `i`-th block of twelve bar positions, over its
      eighth month. */
  lemma YearTickInBlock(i: nat)
    ensures 12 * i < YearTick(i) <= 12 * (i + 1)
    ensures MonthLabel(YearTick(i)) == 8
  {
    MonthLabelOfSeriesPosition(i, 8);
  }

  /** With no gap years the start index is the 1-based position, in the built
      series, of the start month; strictly ascending years between the first and the
      last observed one fill the range only when none is missing. */
  lemma StartIndexAlignedWithoutGaps(ys: seq<int>, j: nat, mo: int)
    requires StrictlyIncreasing(ys) && j < |ys| && 1 <= mo <= 12
    requires ys[|ys| - 1] == ys[0] + |ys| - 1
    ensures StartIndex(ys[j], ys[0], mo) == 12 * j + mo
  {
    IncreasingGaps(ys, 0, j);
    IncreasingGaps(ys, j, |ys| - 1);
  }

  /** Entries of a strictly increasing integer sequence differ at least by their distance. */
  lemma {:induction false} IncreasingGaps(ys: seq<int>, i: nat, j: nat)
    requires StrictlyIncreasing(ys) && i <= j < |ys|
    ensures ys[j] - ys[i] >= j - i
    decreases j - i
  {
    if i < j {
      IncreasingGaps(ys, i + 1, j);
    }
  }

  /** The layout assumption fails with a gap year: with shipments only in 2015 and
      2017 the series has 24 entries, but a forecast starting after December 2017 (the
      24th entry) gets start index 36. */
  lemma GapYearMisplacesStart()
    ensures var rs := [Shipment(1, 2015, 1, 5.0), Shipment(1, 2017, 1, 5.0)];
      |BuiltSeries(rs, 1)| == 24 && StartIndex(2017, 2015, 12) == 36
  {
    var rs := [Shipment(1, 2015, 1, 5.0), Shipment(1, 2017, 1, 5.0)];
    assert rs[..1] == [Shipment(1, 2015, 1, 5.0)];
    assert rs[..1][..0] == [];
    assert YearsOf(rs, 1) == {2015, 2017};
    BlocksLength(SortedInts(YearsOf(rs, 1)), rs, 1);
  }

  // ---------------------------------------------------------------------------
  // The list-building loops of forecastPlot / savedForecastPlot

  /** `monForPredictoin`: the `m` month indices after the start month `currX`. */
  function ForecastIndices(currX: int, m: nat): (xs: seq<int>)
    ensures |xs| == m
    ensures forall i :: 0 <= i < m ==> xs[i] == currX + i + 1
  {
    seq(m, i => currX + i + 1)
  }

  method ForecastMonths(currX: int, m: nat) returns (months: seq<int>)
    ensures |months| == m
    ensures forall i :: 0 <= i < m ==> months[i] == currX + i + 1
    ensures months == ForecastIndices(currX, m)
  {
    months := [];
    for i := 0 to m
      invariant |months| == i
      invariant forall k :: 0 <= k < i ==> months[k] == currX + k + 1
    {
      months := months + [currX + i + 1];
    }
  }

  /** `newXticks`: the month label of every bar position. */
  method MonthLabels(xs: seq<int>) returns (labels: seq<int>)
    ensures |labels| == |xs|
    ensures forall i :: 0 <= i < |xs| ==> 1 <= labels[i] <= 12 && (xs[i] - labels[i]) % 12 == 0
    ensures forall i :: 0 <= i < |xs| ==> labels[i] == MonthLabel(xs[i])
  {
    labels := [];
    for k := 0 to |xs|
      invariant |labels| == k
      invariant forall i :: 0 <= i < k ==> labels[i] == MonthLabel(xs[i])
    {
      var i := xs[k] % 12;
      if i == 0 {
        i := 12;
      }
      labels := labels + [i];
    }
  }

  /** `newlabel`: the kept keys, extended year by year up to the target. */
  method ExtendYearLabels(keys: seq<int>, startYear: int, m: int) returns (labels: Option<seq<int>>)
    ensures labels == YearLabels(keys, startYear, m)
    ensures labels.Some? <==> exists i :: 0 <= i < |keys| && keys[i] <= startYear
    ensures labels.Some? ==> LabelTarget(startYear, m) in labels.value
  {
    var newLabel := KeptYears(keys, startYear);
    var target := startYear;
    if m == 12 {
      target := target + 1;
    }
    assert target == LabelTarget(startYear, m);
    YearLabelsDefined(keys, startYear, m);
    if target !in newLabel {
      if newLabel == [] {
        return None;
      }
      newLabel := ExtendRun(newLabel, target);
    }
    labels := Some(newLabel);
    YearLabelsShape(keys, startYear, m);
  }

  /** The `while startYear >= year` loop that runs when `startYear not in newlabel`:
      starting from the year after the last label, append each year up to `target`. */
  method ExtendRun(kept: seq<int>, target: int) returns (newLabel: seq<int>)
    requires kept != []
    ensures newLabel == kept + Consecutive(kept[|kept| - 1] + 1, target)
  {
    newLabel := kept;
    var year := kept[|kept| - 1] + 1;
    ghost var first := year;
    while target >= year
      invariant first <= year
      invariant year <= target + 1 || year == first
      invariant newLabel == kept + Consecutive(first, year - 1)
      decreases target - year
    {
      ghost var run := Consecutive(first, year - 1);
      assert Consecutive(first, year) == run + [year];
      assert newLabel + [year] == kept + (run + [year]);
      newLabel := newLabel + [year];
      year := year + 1;
    }
    assert Consecutive(first, year - 1) == Consecutive(first, target);
  }

  /** `newpos`: one tick per year label, 12 positions apart from 8. */
  method YearPositions(count: nat) returns (positions: seq<int>)
    ensures |positions| == count
    ensures forall i :: 0 <= i < count ==> positions[i] == YearTick(i)
    ensures forall i :: 0 <= i < count ==> 12 * i < positions[i] <= 12 * (i + 1)
  {
    positions := [];
    var n := FirstYearTick;
    for i := 0 to count
      invariant |positions| == i && n == YearTick(i)
      invariant forall k :: 0 <= k < i ==> positions[k] == YearTick(k)
    {
      positions := positions + [n];
      n := n + 12;
    }
  }
}
