/** What `plot_data` computes before handing it to the charts
    (colemak_telegram_analysis.py:51-142): nothing at all when no sample was
    collected; otherwise the accuracy ticks, the per-day statistics and the
    rolling averages. Accuracies are in tenths of a percent. */
module Plot {
  import opened Options
  import opened Timestamp
  import opened Extraction
  import opened Ordering
  import opened Daily
  import opened Rolling

  /** `tick_spacing * (min_accuracy // tick_spacing)` with a spacing of 2,
      for a minimum accuracy given in tenths: the first tick, in percent. */
  function TickStart(minAccuracy: nat): nat {
    2 * (minAccuracy / 20)
  }

  /** The first tick is the largest even whole percentage not above the
      minimum accuracy. */
  lemma TickStartIsLargestEven(minAccuracy: nat)
    ensures TickStart(minAccuracy) % 2 == 0
    ensures TickStart(minAccuracy) * 10 <= minAccuracy < (TickStart(minAccuracy) + 2) * 10
  {
  }

  /** `range(start, 101, 2)`. */
  function TicksFrom(start: nat): seq<nat>
    decreases 101 - start
  {
    if start > 100 then [] else [start] + TicksFrom(start + 2)
  }

  /** The ticks climb by 2 from the start while they stay within 100, and
      there is none when the start is above 100. */
  lemma {:induction false} TicksFromShape(start: nat)
    ensures |TicksFrom(start)| == if start > 100 then 0 else (100 - start) / 2 + 1
    ensures forall i :: 0 <= i < |TicksFrom(start)| ==> TicksFrom(start)[i] == start + 2 * i <= 100
    decreases 101 - start
  {
    if start <= 100 {
      TicksFromShape(start + 2);
    }
  }

  /** The ticks of the accuracy chart (`y_ticks`). */
  function AccuracyTicks(minAccuracy: nat): seq<nat> {
    TicksFrom(TickStart(minAccuracy))
  }

  /** Since the accuracy is not capped, a minimum of 102 percent or more
      leaves the accuracy chart without ticks. */
  lemma NoTicksAboveHundred()
    ensures AccuracyTicks(1020) == []
    ensures AccuracyTicks(1019) == [100]
  {
    assert TicksFrom(102) == [];
  }

  /** The accuracies of the samples, in order. */
  function Accuracies(ss: seq<Sample>): (r: seq<nat>)
    ensures |r| == |ss|
  {
    if ss == [] then [] else Accuracies(ss[..|ss| - 1]) + [ss[|ss| - 1].accuracy]
  }

  /** The days of samples with real moments are real days. */
  lemma DaysValid(samples: seq<Sample>)
    requires ValidTimes(samples)
    ensures forall d :: d in DayKeys(samples) ==> ValidDate(d)
  {
    forall d | d in DayKeys(samples)
      ensures ValidDate(d)
    {
      KeysAreSampleDays(samples, d);
    }
  }

  /** Everything the charts show. */
  datatype Charts = Charts(accuracyTicks: seq<nat>, days: seq<Date>, stats: DayStats,
                           sortedDays: seq<Date>, rolling: seq<real>)

  /** What the charts of a non-empty `filtered_data` hold: the accuracy ticks
      from the lowest accuracy, the days in first-seen order with their
      statistics, the days sorted, and one rolling average per sorted day. */
  predicate ChartsFor(samples: seq<Sample>, c: Charts) {
    var days := DayKeys(samples);
    var byDay := Buckets(samples);
    var sorted := SortedDays(days);
    samples != []
    && AllBucketed(days, byDay) && AllBucketed(sorted, byDay)
    && c.accuracyTicks == AccuracyTicks(Min(Accuracies(samples)))
    && c.days == days
    && c.stats == StatsOf(days, byDay)
    && c.sortedDays == sorted
    && |c.rolling| == |sorted|
    && forall i :: 0 <= i < |sorted| ==> c.rolling[i] == RollingAt(sorted, byDay, i)
  }

  /** `plot_data` without the drawing: `None` stands for the early return on an
      empty `filtered_data`. When every sample's moment is a real one, as
      `strptime` guarantees, the sorted days run strictly forward in the
      calendar. */
  method PlotData(samples: seq<Sample>) returns (charts: Option<Charts>)
    ensures charts.None? <==> samples == []
    ensures charts.Some? ==> ChartsFor(samples, charts.value)
    ensures charts.Some? && ValidTimes(samples) ==> Chronological(charts.value.sortedDays)
  {
    if samples == [] {
      return None;
    }
    var minAccuracy := Min(Accuracies(samples));
    var yTicks := AccuracyTicks(minAccuracy);
    var days, byDay := BucketByDay(samples);
    forall d | d in days
      ensures d in byDay && byDay[d] != []
    {
      BucketsNonEmpty(samples, d);
    }
    var stats := StatsOf(days, byDay);
    var sortedDays := SortedDays(days);
    forall d | d in sortedDays
      ensures d in days
    {
      assert d in multiset(sortedDays);
    }
    var rolling := RollingAverages(sortedDays, byDay);
    charts := Some(Charts(yTicks, days, stats, sortedDays, rolling));
    if ValidTimes(samples) {
      DaysValid(samples);
      DayKeysDistinct(samples);
      SortedDaysStrictlyChronological(days);
    }
  }
}
