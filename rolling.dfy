/** The 7-day trailing rolling average of `plot_data`
    (colemak_telegram_analysis.py:135-142): the days of `wpm_by_day` are put
    in calendar order, and the entry of day `i` is the mean, over the window
    of days `max(0, i-6)` to `i`, of each day's mean speed. Speeds are in
    tenths, and every sum and quotient is exact. */
module Rolling {
  import opened Timestamp
  import opened Ordering

  /** `a < b` on `datetime.date`: by year, then month, then day. */
  predicate DateBefore(a: Date, b: Date) {
    a.year < b.year || (a.year == b.year && (a.month < b.month || (a.month == b.month && a.day < b.day)))
  }

  /** The number `YYYYMMDD`, which orders valid days as the calendar does. */
  function DateKey(d: Date): int {
    d.year * 10000 + d.month * 100 + d.day
  }

  /** Comparing keys is comparing days. */
  lemma DateKeyChronological(a: Date, b: Date)
    requires ValidDate(a) && ValidDate(b)
    ensures DateKey(a) < DateKey(b) <==> DateBefore(a, b)
    ensures DateKey(a) == DateKey(b) <==> a == b
  {
    assert DaysInMonth(a.year, a.month) <= 31 && DaysInMonth(b.year, b.month) <= 31;
  }

  /** `sorted(wpm_by_day.keys())`. */
  function SortedDays(days: seq<Date>): seq<Date> {
    SortBy(days, DateKey)
  }

  /** The sorted days are the same days, each no later than the next. */
  lemma SortedDaysChronological(days: seq<Date>)
    requires forall d :: d in days ==> ValidDate(d)
    ensures multiset(SortedDays(days)) == multiset(days)
    ensures var s := SortedDays(days);
      forall i, j :: 0 <= i < j < |s| ==> s[i] == s[j] || DateBefore(s[i], s[j])
  {
    var s := SortedDays(days);
    forall i, j | 0 <= i < j < |s|
      ensures s[i] == s[j] || DateBefore(s[i], s[j])
    {
      assert s[i] in multiset(days) && s[j] in multiset(days);
      DateKeyChronological(s[i], s[j]);
    }
  }

  /** Each day strictly before the next: calendar order, no day twice. */
  predicate Chronological(s: seq<Date>) {
    forall i, j :: 0 <= i < j < |s| ==> DateBefore(s[i], s[j])
  }

  /** A list without repeats holds each value at most once. */
  lemma {:induction false} DistinctAtMostOnce(s: seq<Date>)
    requires Distinct(s)
    ensures forall x :: multiset(s)[x] <= 1
  {
    if s != [] {
      var init, last := s[..|s| - 1], s[|s| - 1];
      DistinctAtMostOnce(init);
      assert s == init + [last];
      forall k | 0 <= k < |init|
        ensures init[k] != last
      {
        assert init[k] == s[k];
      }
      assert last !in init;
    }
  }

  /** A value found at two places is counted at least twice. */
  lemma RepeatCountsTwice(s: seq<Date>, i: nat, j: nat)
    requires i < j < |s|
    ensures s[i] == s[j] ==> multiset(s)[s[i]] >= 2
  {
    assert s == s[..j] + s[j..];
    assert s[i] in s[..j] && s[j] in s[j..];
  }

  /** Distinct valid days, as `sorted` orders them, run strictly forward in
      the calendar. */
  lemma SortedDaysStrictlyChronological(days: seq<Date>)
    requires forall d :: d in days ==> ValidDate(d)
    requires Distinct(days)
    ensures Chronological(SortedDays(days))
  {
    var s := SortedDays(days);
    SortedDaysChronological(days);
    DistinctAtMostOnce(days);
    forall i, j | 0 <= i < j < |s|
      ensures DateBefore(s[i], s[j])
    {
      RepeatCountsTwice(s, i, j);
      assert s[i] != s[j];
    }
  }

  /** `max(0, i-6)`: the first day of the window of day `i`. */
  function WindowStart(i: nat): nat {
    if i >= 6 then i - 6 else 0
  }

  /** `sorted_days[max(0, i-6):i+1]`. */
  function Window(days: seq<Date>, i: nat): seq<Date>
    requires i < |days|
  {
    days[WindowStart(i)..i + 1]
  }

  /** The window holds the last seven days up to day `i`, or all of them when
      there are fewer, and ends with day `i`. */
  lemma WindowShape(days: seq<Date>, i: nat)
    requires i < |days|
    ensures |Window(days, i)| == if i < 6 then i + 1 else 7
    ensures Window(days, i)[|Window(days, i)| - 1] == days[i]
    ensures forall k :: 0 <= k < |Window(days, i)| ==> Window(days, i)[k] == days[i + 1 - |Window(days, i)| + k]
  {
  }

  /** `sum(xs)`, added from the left. */
  function Sum(xs: seq<real>): real {
    if xs == [] then 0.0 else Sum(xs[..|xs| - 1]) + xs[|xs| - 1]
  }

  /** `sum(xs) / len(xs)`. */
  function Mean(xs: seq<real>): real
    requires |xs| > 0
  {
    Sum(xs) / |xs| as real
  }

  /** A sum of values between `lo` and `hi` lies between `n * lo` and `n * hi`. */
  lemma {:induction false} SumBetween(xs: seq<real>, lo: real, hi: real)
    requires forall k :: 0 <= k < |xs| ==> lo <= xs[k] <= hi
    ensures |xs| as real * lo <= Sum(xs) <= |xs| as real * hi
  {
    if xs != [] {
      SumBetween(xs[..|xs| - 1], lo, hi);
    }
  }

  /** A mean lies between any bounds of the values averaged. */
  lemma MeanBetween(xs: seq<real>, lo: real, hi: real)
    requires |xs| > 0
    requires forall k :: 0 <= k < |xs| ==> lo <= xs[k] <= hi
    ensures lo <= Mean(xs) <= hi
  {
    SumBetween(xs, lo, hi);
    var n := |xs| as real;
    assert Mean(xs) * n == Sum(xs);
  }

  /** The speeds of a day as numbers to average. */
  function Reals(b: seq<nat>): (r: seq<real>)
    ensures |r| == |b|
  {
    if b == [] then [] else Reals(b[..|b| - 1]) + [b[|b| - 1] as real]
  }

  lemma {:induction false} RealsAt(b: seq<nat>, k: nat)
    requires k < |b|
    ensures Reals(b)[k] == b[k] as real
  {
    if k < |b| - 1 {
      RealsAt(b[..|b| - 1], k);
    }
  }

  /** `sum(wpm_by_day[d]) / len(wpm_by_day[d])`. */
  function DayMean(b: seq<nat>): real
    requires |b| > 0
  {
    Mean(Reals(b))
  }

  /** A day's mean lies between its slowest and its fastest speed. */
  lemma DayMeanBetween(b: seq<nat>)
    requires |b| > 0
    ensures Min(b) as real <= DayMean(b) <= Max(b) as real
  {
    forall k | 0 <= k < |b|
      ensures Min(b) as real <= Reals(b)[k] <= Max(b) as real
    {
      RealsAt(b, k);
    }
    MeanBetween(Reals(b), Min(b) as real, Max(b) as real);
  }

  /** Every day of `w` has a non-empty list. */
  predicate AllBucketed(w: seq<Date>, byDay: map<Date, seq<nat>>) {
    forall d :: d in w ==> d in byDay && byDay[d] != []
  }

  /** `last_7_wpm`: the mean of each day of the window. */
  function DayMeans(w: seq<Date>, byDay: map<Date, seq<nat>>): (r: seq<real>)
    requires AllBucketed(w, byDay)
  {
    seq(|w|, k requires 0 <= k < |w| => DayMean(byDay[w[k]]))
  }

  /** `avg_wpm` for day `i` of the sorted days. */
  function RollingAt(days: seq<Date>, byDay: map<Date, seq<nat>>, i: nat): real
    requires i < |days| && AllBucketed(days, byDay)
  {
    Mean(DayMeans(Window(days, i), byDay))
  }

  /** The loop that fills `rolling_avg_values`: one entry per day, the
      average of day `i` at index `i`. */
  method RollingAverages(sortedDays: seq<Date>, byDay: map<Date, seq<nat>>) returns (avgs: seq<real>)
    requires AllBucketed(sortedDays, byDay)
    ensures |avgs| == |sortedDays|
    ensures forall i :: 0 <= i < |sortedDays| ==> avgs[i] == RollingAt(sortedDays, byDay, i)
  {
    avgs := [];
    for i := 0 to |sortedDays|
      invariant |avgs| == i
      invariant forall k :: 0 <= k < i ==> avgs[k] == RollingAt(sortedDays, byDay, k)
    {
      var last7Days := sortedDays[WindowStart(i)..i + 1];
      var last7Wpm := DayMeans(last7Days, byDay);
      var avgWpm := Sum(last7Wpm) / |last7Wpm| as real;
      avgs := avgs + [avgWpm];
    }
  }

  /** The average of day `i` lies between the smallest and the largest day
      mean of its window. */
  lemma RollingBetween(days: seq<Date>, byDay: map<Date, seq<nat>>, i: nat, lo: real, hi: real)
    requires i < |days| && AllBucketed(days, byDay)
    requires forall d :: d in Window(days, i) ==> lo <= DayMean(byDay[d]) <= hi
    ensures lo <= RollingAt(days, byDay, i) <= hi
  {
    var w := Window(days, i);
    var means := DayMeans(w, byDay);
    forall k | 0 <= k < |means|
      ensures lo <= means[k] <= hi
    {
      assert w[k] in w;
    }
    MeanBetween(means, lo, hi);
  }

  /** The average of a day depends only on the lists of the days of its
      window. */
  lemma RollingIsLocal(days: seq<Date>, byDay: map<Date, seq<nat>>, other: map<Date, seq<nat>>, i: nat)
    requires i < |days| && AllBucketed(days, byDay) && AllBucketed(days, other)
    requires forall d :: d in Window(days, i) ==> byDay[d] == other[d]
    ensures RollingAt(days, byDay, i) == RollingAt(days, other, i)
  {
    var w := Window(days, i);
    assert DayMeans(w, byDay) == DayMeans(w, other) by {
      forall k | 0 <= k < |w|
        ensures DayMeans(w, byDay)[k] == DayMeans(w, other)[k]
      {
        assert w[k] in w;
      }
    }
  }

  /** The sum of one value is that value. */
  lemma SumOfOne(a: real)
    ensures Sum([a]) == a
  {
    assert [a][..0] == [];
    assert Sum([a]) == Sum([]) + a;
  }

  lemma SumOfThree(a: real, b: real, c: real)
    ensures Sum([a, b, c]) == a + b + c
  {
    assert [a, b, c][..2] == [a, b];
    assert [a, b][..1] == [a];
    SumOfOne(a);
    assert Sum([a, b]) == a + b;
  }

  /** A day of one session has that session's speed as its mean. */
  lemma DayMeanOfOne(x: nat)
    ensures DayMean([x]) == x as real
  {
    assert [x][..0] == [];
    assert Reals([x]) == Reals([]) + [x as real] == [x as real];
    SumOfOne(x as real);
  }

  /** The first day is averaged alone. */
  lemma RollingFirstDay(days: seq<Date>, byDay: map<Date, seq<nat>>)
    requires 0 < |days| && AllBucketed(days, byDay)
    ensures RollingAt(days, byDay, 0) == DayMean(byDay[days[0]])
  {
    var means := DayMeans(Window(days, 0), byDay);
    assert means == [DayMean(byDay[days[0]])];
    SumOfOne(DayMean(byDay[days[0]]));
  }

  /** Three days with means 60.0, 62.0 and 64.0 words per minute: the third
      average is taken over the three available days only. */
  lemma ExampleThreeDays(d1: Date, d2: Date, d3: Date)
    requires d1 != d2 && d2 != d3 && d1 != d3
    ensures var byDay := map[d1 := [600], d2 := [620], d3 := [640]];
      RollingAt([d1, d2, d3], byDay, 2) == 620.0
  {
    var byDay := map[d1 := [600], d2 := [620], d3 := [640]];
    var days := [d1, d2, d3];
    assert Window(days, 2) == days;
    DayMeanOfOne(600);
    DayMeanOfOne(620);
    DayMeanOfOne(640);
    var means := DayMeans(days, byDay);
    assert means == [600.0, 620.0, 640.0];
    SumOfThree(600.0, 620.0, 640.0);
  }
}
