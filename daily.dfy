/** Day bucketing and the per-day statistics of `plot_data`
    (colemak_telegram_analysis.py:102-111): the speeds of `filtered_data` are
    gathered into `wpm_by_day`, a dictionary of lists keyed by calendar day,
    whose keys keep the order in which each day was first seen; then each
    day's list gives a maximum, a minimum and a "median". */
module Daily {
  import opened Timestamp
  import opened Extraction
  import opened Ordering

  /** `date.date()`: the calendar day of a sample. */
  function DayOf(s: Sample): Date {
    s.when.date
  }

  /** The speeds of the samples, in order. */
  function Wpms(ss: seq<Sample>): (r: seq<nat>)
    ensures |r| == |ss|
  {
    if ss == [] then [] else Wpms(ss[..|ss| - 1]) + [ss[|ss| - 1].wpm]
  }

  /** The days of the samples, each once, in the order first seen: the key
      order of `wpm_by_day`. */
  function DayKeys(ss: seq<Sample>): seq<Date> {
    if ss == [] then []
    else
      var keys := DayKeys(ss[..|ss| - 1]);
      if DayOf(ss[|ss| - 1]) in keys then keys else keys + [DayOf(ss[|ss| - 1])]
  }

  /** The speeds of the samples of day `d`, in sample order: the list
      `wpm_by_day[d]`. */
  function WpmsOn(ss: seq<Sample>, d: Date): seq<nat> {
    if ss == [] then []
    else WpmsOn(ss[..|ss| - 1], d) + (if DayOf(ss[|ss| - 1]) == d then [ss[|ss| - 1].wpm] else [])
  }

  /** `wpm_by_day` once filled: each key day with its list. */
  function Buckets(ss: seq<Sample>): map<Date, seq<nat>> {
    map d | d in DayKeys(ss) :: WpmsOn(ss, d)
  }

  /** The loop that fills `wpm_by_day`. The dictionary is `byDay`; the order
      of its keys is `days`. */
  method BucketByDay(samples: seq<Sample>) returns (days: seq<Date>, byDay: map<Date, seq<nat>>)
    ensures days == DayKeys(samples)
    ensures forall d :: d in byDay <==> d in days
    ensures forall d :: d in byDay ==> byDay[d] == WpmsOn(samples, d)
    ensures byDay == Buckets(samples)
  {
    days := [];
    byDay := map[];
    var i := 0;
    while i < |samples|
      invariant 0 <= i <= |samples|
      invariant days == DayKeys(samples[..i])
      invariant forall d :: d in byDay <==> d in days
      invariant forall d :: d in byDay ==> byDay[d] == WpmsOn(samples[..i], d)
    {
      assert samples[..i + 1][..i] == samples[..i];
      var day := samples[i].when.date;
      if day !in byDay {
        BucketsNonEmpty(samples[..i], day);
      }
      if day in byDay {
        byDay := byDay[day := byDay[day] + [samples[i].wpm]];
      } else {
        byDay := byDay[day := [samples[i].wpm]];
        days := days + [day];
      }
      i := i + 1;
    }
    assert samples[..i] == samples;
    assert byDay == Buckets(samples);
  }

  /** A day is a key exactly when some sample falls on it. */
  lemma {:induction false} KeysAreSampleDays(ss: seq<Sample>, d: Date)
    ensures d in DayKeys(ss) <==> exists i :: 0 <= i < |ss| && DayOf(ss[i]) == d
  {
    if ss != [] {
      var init := ss[..|ss| - 1];
      KeysAreSampleDays(init, d);
      if exists i :: 0 <= i < |init| && DayOf(init[i]) == d {
        var i :| 0 <= i < |init| && DayOf(init[i]) == d;
        assert DayOf(ss[i]) == d;
      }
      if exists i :: 0 <= i < |ss| && DayOf(ss[i]) == d {
        var i :| 0 <= i < |ss| && DayOf(ss[i]) == d;
        if i < |init| {
          assert DayOf(init[i]) == d;
        }
      }
    }
  }

  /** Every bucket is non-empty, and a day has a bucket only when it is a key. */
  lemma {:induction false} BucketsNonEmpty(ss: seq<Sample>, d: Date)
    ensures d in DayKeys(ss) <==> WpmsOn(ss, d) != []
  {
    if ss != [] {
      BucketsNonEmpty(ss[..|ss| - 1], d);
    }
  }

  /** No day is a key twice. */
  lemma {:induction false} DayKeysDistinct(ss: seq<Sample>)
    ensures Distinct(DayKeys(ss))
  {
    if ss != [] {
      DayKeysDistinct(ss[..|ss| - 1]);
    }
  }

  /** Keys are only ever added at the end: the keys of the first `n` samples
      lead the keys of all of them, so days appear in first-seen order. */
  lemma {:induction false} DayKeysGrow(ss: seq<Sample>, n: nat)
    requires n <= |ss|
    ensures DayKeys(ss[..n]) <= DayKeys(ss)
    decreases |ss| - n
  {
    if n < |ss| {
      DayKeysGrow(ss, n + 1);
      assert ss[..n + 1][..n] == ss[..n];
    } else {
      assert ss[..n] == ss;
    }
  }

  /** The buckets of `keys`, one after the other. */
  function Flatten(ss: seq<Sample>, keys: seq<Date>): seq<nat> {
    if keys == [] then [] else Flatten(ss, keys[..|keys| - 1]) + WpmsOn(ss, keys[|keys| - 1])
  }

  /** One more sample adds its speed to the buckets of `keys` exactly when its
      day is among them. */
  lemma {:induction false} FlattenAdd(ss: seq<Sample>, x: Sample, keys: seq<Date>)
    requires Distinct(keys)
    ensures multiset(Flatten(ss + [x], keys))
         == multiset(Flatten(ss, keys)) + (if DayOf(x) in keys then multiset{x.wpm} else multiset{})
  {
    var ss' := ss + [x];
    assert ss'[..|ss'| - 1] == ss;
    if keys != [] {
      var init, k := keys[..|keys| - 1], keys[|keys| - 1];
      assert keys == init + [k];
      assert Distinct(init);
      FlattenAdd(ss, x, init);
      assert WpmsOn(ss', k) == WpmsOn(ss, k) + (if DayOf(x) == k then [x.wpm] else []);
      if DayOf(x) == k {
        assert DayOf(x) !in init;
      }
    }
  }

  /** The buckets partition the samples: taken in key order, one after the
      other, they hold exactly the speeds of all samples. */
  lemma {:induction false} BucketsPartition(ss: seq<Sample>)
    ensures multiset(Flatten(ss, DayKeys(ss))) == multiset(Wpms(ss))
  {
    if ss != [] {
      var init, x := ss[..|ss| - 1], ss[|ss| - 1];
      var keys, d := DayKeys(init), DayOf(x);
      assert ss == init + [x];
      assert Wpms(ss) == Wpms(init) + [x.wpm];
      assert DayKeys(ss) == if d in keys then keys else keys + [d];
      assert WpmsOn(ss, d) == WpmsOn(init, d) + [x.wpm];
      assert (keys + [d])[..|keys|] == keys;
      assert Flatten(ss, keys + [d]) == Flatten(ss, keys) + WpmsOn(ss, d);
      hide *;
      BucketsPartition(init);
      DayKeysDistinct(init);
      FlattenAdd(init, x, keys);
      BucketsNonEmpty(init, d);
    }
  }

  /** `sorted(wpm_list)[len(wpm_list)//2]`: for an even count the upper of the
      two middle values. */
  function Median(b: seq<nat>): nat
    requires |b| > 0
  {
    SortBy(b, ByValue)[|b| / 2]
  }

  /** The median is one of the values and lies between the minimum and the
      maximum. */
  lemma MedianBetween(b: seq<nat>)
    requires |b| > 0
    ensures Median(b) in b
    ensures Min(b) <= Median(b) <= Max(b)
  {
    var s := SortBy(b, ByValue);
    assert s[|b| / 2] in multiset(s);
    assert Min(b) in multiset(s) && Max(b) in multiset(s);
    var i :| 0 <= i < |s| && s[i] == Min(b);
    var j :| 0 <= j < |s| && s[j] == Max(b);
    assert ByValue(s[i]) <= ByValue(s[|b| / 2]) || ByValue(s[|b| / 2]) <= ByValue(s[i]);
  }

  /** On an already ordered list the median is the element at index `len//2`. */
  lemma MedianOfOrdered(b: seq<nat>)
    requires |b| > 0 && SortedBy(b, ByValue)
    ensures Median(b) == b[|b| / 2]
  {
    SortBySorted(b, ByValue);
  }

  /** For two values the "median" is the larger one, not their mean nor the
      smaller one. */
  lemma MedianOfTwo(a: nat, c: nat)
    ensures Median([a, c]) == Max([a, c])
  {
    var s := SortBy([a, c], ByValue);
    assert multiset(s) == multiset{a, c};
    assert |s| == 2;
    assert s[0] in multiset(s) && s[1] in multiset(s);
    assert ByValue(s[0]) <= ByValue(s[1]);
    assert s[1] == Max([a, c]);
  }

  /** The three per-day lists plotted (`max_wpm_values`, `min_wpm_values`,
      `median_wpm_values`), in key order. */
  datatype DayStats = DayStats(maxima: seq<nat>, minima: seq<nat>, medians: seq<nat>)

  /** The list comprehensions over `wpm_by_day.values()`. */
  function StatsOf(days: seq<Date>, byDay: map<Date, seq<nat>>): DayStats
    requires forall d :: d in days ==> d in byDay && byDay[d] != []
  {
    DayStats(seq(|days|, i requires 0 <= i < |days| => Max(byDay[days[i]])),
             seq(|days|, i requires 0 <= i < |days| => Min(byDay[days[i]])),
             seq(|days|, i requires 0 <= i < |days| => Median(byDay[days[i]])))
  }

  /** One entry per day in each list, and on every day the minimum, the median
      and the maximum are ordered and are values of that day. */
  lemma StatsOrdered(days: seq<Date>, byDay: map<Date, seq<nat>>)
    requires forall d :: d in days ==> d in byDay && byDay[d] != []
    ensures var st := StatsOf(days, byDay);
      |st.maxima| == |st.minima| == |st.medians| == |days|
      && forall i :: 0 <= i < |days| ==>
           st.minima[i] <= st.medians[i] <= st.maxima[i]
           && st.minima[i] in byDay[days[i]]
           && st.medians[i] in byDay[days[i]]
           && st.maxima[i] in byDay[days[i]]
  {
    forall i | 0 <= i < |days|
      ensures Min(byDay[days[i]]) <= Median(byDay[days[i]]) <= Max(byDay[days[i]])
      ensures Median(byDay[days[i]]) in byDay[days[i]]
    {
      MedianBetween(byDay[days[i]]);
    }
  }
}
