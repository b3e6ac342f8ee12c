/** The message timestamp: the `title` of the date div, cut at the first " UTC"
    and read with `datetime.strptime(..., '%d.%m.%Y %H:%M:%S')`
    (colemak_telegram_analysis.py:38-39). Only the zero-padded, fixed-width
    spelling that chat exports write is read here. */
module Timestamp {
  import opened Options
  import opened Decimal
  import opened Text

  /** A calendar day, what `datetime.date()` keeps. */
  datatype Date = Date(year: nat, month: nat, day: nat)

  datatype DateTime = DateTime(date: Date, hour: nat, minute: nat, second: nat)

  /** No day occurs twice. */
  predicate Distinct(s: seq<Date>) {
    forall i, j :: 0 <= i < j < |s| ==> s[i] != s[j]
  }

  const Utc := " UTC"

  predicate IsLeapYear(y: nat) {
    y % 4 == 0 && (y % 100 != 0 || y % 400 == 0)
  }

  function DaysInMonth(y: nat, m: nat): nat
    requires 1 <= m <= 12
  {
    if m == 2 then (if IsLeapYear(y) then 29 else 28)
    else if m == 4 || m == 6 || m == 9 || m == 11 then 30
    else 31
  }

  /** A date `datetime.date` accepts. */
  predicate ValidDate(d: Date) {
    1 <= d.year <= 9999 && 1 <= d.month <= 12 && 1 <= d.day <= DaysInMonth(d.year, d.month)
  }

  /** A moment `datetime.datetime` accepts. */
  predicate ValidDateTime(t: DateTime) {
    ValidDate(t.date) && t.hour < 24 && t.minute < 60 && t.second < 60
  }

  /** `title.split(" UTC")[0]`: everything before the first " UTC", or the whole
      title when it has none. */
  function CutAtUtc(title: string): (r: string)
    ensures r <= title
    ensures r == title || HasAt(title, |r|, Utc)
    ensures forall k :: 0 <= k < |r| ==> !HasAt(title, k, Utc)
  {
    title[..FindFrom(title, Utc, 0)]
  }

  /** The zero-padded writing of `n` in `width` digits. */
  function Padded(n: nat, width: nat): (s: string)
    ensures |s| == width && AllDigits(s)
  {
    if width == 0 then [] else Padded(n / 10, width - 1) + [DigitChar(n % 10)]
  }

  /** The value of the `width` digits of `s` at position `i`. */
  function FieldValue(s: string, i: nat, width: nat): nat
    requires i + width <= |s| && AllDigits(s[i..i + width])
  {
    Value(s[i..i + width])
  }

  /** How the export writes a moment: `DD.MM.YYYY HH:MM:SS`. */
  function Format(t: DateTime): string {
    Padded(t.date.day, 2) + "." + Padded(t.date.month, 2) + "." + Padded(t.date.year, 4) + " "
      + Padded(t.hour, 2) + ":" + Padded(t.minute, 2) + ":" + Padded(t.second, 2)
  }

  /** The layout of `DD.MM.YYYY HH:MM:SS`: separators in place, digits elsewhere. */
  predicate WellLaidOut(s: string) {
    |s| == 19 && s[2] == '.' && s[5] == '.' && s[10] == ' ' && s[13] == ':' && s[16] == ':'
    && AllDigits(s[0..2]) && AllDigits(s[3..5]) && AllDigits(s[6..10])
    && AllDigits(s[11..13]) && AllDigits(s[14..16]) && AllDigits(s[17..19])
  }

  /** `strptime(s, '%d.%m.%Y %H:%M:%S')`; `None` stands for the `ValueError`
      it raises on text of another shape or on an impossible moment. */
  function ParseTimestamp(s: string): (r: Option<DateTime>)
    ensures r.Some? ==> ValidDateTime(r.value)
  {
    if !WellLaidOut(s) then None
    else
      var t := FieldsOf(s);
      if !ValidDateTime(t) then None else Some(t)
  }

  /** The moment the six fields of a well laid out text denote. */
  function FieldsOf(s: string): DateTime
    requires WellLaidOut(s)
  {
    DateTime(Date(FieldValue(s, 6, 4), FieldValue(s, 3, 2), FieldValue(s, 0, 2)),
             FieldValue(s, 11, 2), FieldValue(s, 14, 2), FieldValue(s, 17, 2))
  }

  /** Only the exact writing of a moment is read as that moment. */
  lemma ParseIsExact(s: string)
    requires ParseTimestamp(s).Some?
    ensures Format(ParseTimestamp(s).value) == s
  {
    FormatReadsBack(s, FieldsOf(s));
  }

  /** Padding then reading gives back any number that fits the width. */
  lemma {:induction false} ValueOfPadded(n: nat, width: nat)
    requires n < Pow10(width)
    ensures Value(Padded(n, width)) == n
  {
    if width > 0 {
      var s := Padded(n, width);
      assert s[..|s| - 1] == Padded(n / 10, width - 1);
      ValueOfPadded(n / 10, width - 1);
    }
  }

  /** Reading then padding gives back the digits read. */
  lemma {:induction false} PaddedOfValue(s: string)
    requires AllDigits(s)
    ensures Padded(Value(s), |s|) == s
  {
    if s != [] {
      var init := s[..|s| - 1];
      PaddedOfValue(init);
      assert (Value(init) * 10 + DigitValue(s[|s| - 1])) / 10 == Value(init);
    }
  }

  function Pow10(n: nat): (p: nat)
    ensures p >= 1
  {
    if n == 0 then 1 else 10 * Pow10(n - 1)
  }

  /** A well laid out text is the writing of the moment its fields denote. */
  lemma FormatReadsBack(s: string, t: DateTime)
    requires WellLaidOut(s) && t == FieldsOf(s)
    ensures Format(t) == s
  {
    PaddedOfValue(s[0..2]);
    PaddedOfValue(s[3..5]);
    PaddedOfValue(s[6..10]);
    PaddedOfValue(s[11..13]);
    PaddedOfValue(s[14..16]);
    PaddedOfValue(s[17..19]);
    assert s == s[0..2] + [s[2]] + s[3..5] + [s[5]] + s[6..10] + [s[10]]
              + s[11..13] + [s[13]] + s[14..16] + [s[16]] + s[17..19];
  }

  /** What the export writes is laid out as `strptime` expects. */
  lemma FormatLaidOut(t: DateTime)
    ensures WellLaidOut(Format(t))
  {
    var s := Format(t);
    assert s[0..2] == Padded(t.date.day, 2);
    assert s[3..5] == Padded(t.date.month, 2);
    assert s[6..10] == Padded(t.date.year, 4);
    assert s[11..13] == Padded(t.hour, 2);
    assert s[14..16] == Padded(t.minute, 2);
    assert s[17..19] == Padded(t.second, 2);
  }

  /** The fields of a moment's writing are the moment's own fields. */
  lemma FieldsOfFormat(t: DateTime)
    requires t.date.day < 100 && t.date.month < 100 && t.date.year < 10000
    requires t.hour < 100 && t.minute < 100 && t.second < 100
    ensures WellLaidOut(Format(t)) && FieldsOf(Format(t)) == t
  {
    var s := Format(t);
    FormatLaidOut(t);
    assert s[0..2] == Padded(t.date.day, 2);
    assert s[3..5] == Padded(t.date.month, 2);
    assert s[6..10] == Padded(t.date.year, 4);
    assert s[11..13] == Padded(t.hour, 2);
    assert s[14..16] == Padded(t.minute, 2);
    assert s[17..19] == Padded(t.second, 2);
    assert Pow10(2) == 100 && Pow10(4) == 10000;
    hide Format, WellLaidOut;
    ValueOfPadded(t.date.day, 2);
    ValueOfPadded(t.date.month, 2);
    ValueOfPadded(t.date.year, 4);
    ValueOfPadded(t.hour, 2);
    ValueOfPadded(t.minute, 2);
    ValueOfPadded(t.second, 2);
  }

  /** Round trip: every valid moment is read back from its own writing. */
  lemma ParseFormat(t: DateTime)
    requires ValidDateTime(t)
    ensures ParseTimestamp(Format(t)) == Some(t)
  {
    FieldsOfFormat(t);
    hide Format, FieldsOf, WellLaidOut;
  }

  /** The timestamp of a date div's title. */
  function ParseTitle(title: string): Option<DateTime> {
    ParseTimestamp(CutAtUtc(title))
  }

  /** A title written as the export writes it, followed by " UTC" and any zone,
      yields exactly its moment. */
  lemma {:induction false} ParseExportedTitle(t: DateTime, zone: string)
    requires ValidDateTime(t)
    ensures ParseTitle(Format(t) + Utc + zone) == Some(t)
  {
    var f := Format(t);
    var title := f + Utc + zone;
    assert HasAt(title, |f|, Utc);
    FormatLaidOut(t);
    forall k | 0 <= k < |f| ensures !HasAt(title, k, Utc) {
      assert title[k..k + |Utc|][0] == f[k];
      if k == 10 {
        assert title[k..k + |Utc|][1] == f[11] == f[11..13][0];
      } else if k < 2 {
        assert f[k] == f[0..2][k];
      } else if 2 < k < 5 {
        assert f[k] == f[3..5][k - 3];
      } else if 5 < k < 10 {
        assert f[k] == f[6..10][k - 6];
      } else if 10 < k < 13 {
        assert f[k] == f[11..13][k - 11];
      } else if 13 < k < 16 {
        assert f[k] == f[14..16][k - 14];
      } else if 16 < k {
        assert f[k] == f[17..19][k - 17];
      }
    }
    assert FindFrom(title, Utc, 0) == |f|;
    assert CutAtUtc(title) == f;
    ParseFormat(t);
  }

  lemma ExampleDayFields()
    ensures Padded(5, 2) == "05" && Padded(3, 2) == "03"
  {
  }

  lemma ExampleYearField()
    ensures Padded(2024, 4) == "2024"
  {
    assert Padded(2, 1) == "2" && Padded(20, 2) == "20" && Padded(202, 3) == "202";
  }

  lemma ExampleTimeFields()
    ensures Padded(14, 2) == "14" && Padded(22, 2) == "22" && Padded(10, 2) == "10"
  {
  }

  lemma ExampleDateText()
    ensures "05" + "." + "03" + "." + "2024" == "05.03.2024"
  {
    var a := "05" + "." + "03";
    assert a == "05.03";
  }

  lemma ExampleTimeText()
    ensures "05.03.2024" + " " + "14" + ":" + "22" + ":" + "10" == "05.03.2024 14:22:10"
  {
    var c := "05.03.2024" + " " + "14";
    assert c == "05.03.2024 14";
  }

  /** How the export writes the example moment. */
  lemma ExampleWriting()
    ensures Format(DateTime(Date(2024, 3, 5), 14, 22, 10)) + Utc + "+00:00"
         == "05.03.2024 14:22:10 UTC+00:00"
  {
    var t := DateTime(Date(2024, 3, 5), 14, 22, 10);
    ExampleDayFields();
    ExampleYearField();
    ExampleTimeFields();
    assert Format(t) == "05" + "." + "03" + "." + "2024" + " " + "14" + ":" + "22" + ":" + "10";
    hide *;
    ExampleDateText();
    ExampleTimeText();
    assert Format(t) == "05.03.2024 14:22:10";
    assert Utc == " UTC";
  }

  /** The date title of an exported message. */
  lemma ExampleTitle()
    ensures ParseTitle("05.03.2024 14:22:10 UTC+00:00") == Some(DateTime(Date(2024, 3, 5), 14, 22, 10))
  {
    var t := DateTime(Date(2024, 3, 5), 14, 22, 10);
    assert ValidDateTime(t);
    hide *;
    ExampleWriting();
    ParseExportedTitle(t, "+00:00");
  }
}
