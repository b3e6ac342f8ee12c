/** The practice-result tag `{layout=colemak_DH,wpm=N,accuracy=M%}` searched for
    in the text of every `text` div (colemak_telegram_analysis.py:9, :25).
    Each number is one or more ASCII digits, optionally followed by `.` and
    exactly one digit, so every value is held exactly in tenths. */
module Tag {
  import opened Options
  import opened Decimal
  import opened Text

  const Prefix := "{layout=colemak_DH,wpm="
  const Middle := ",accuracy="
  const Suffix := "%}"

  /** A number read from the text: its value in tenths and where it ends. */
  datatype Number = Number(tenths: nat, next: nat)

  /** One match of the pattern: the span it covers and the two captured values,
      in tenths (the `%` of the accuracy group is not part of the value). */
  datatype TagMatch = TagMatch(start: nat, end: nat, wpm: nat, accuracy: nat)

  /** The group `\d+(?:\.\d)?` at position `i`. The digit run is taken whole and
      the fraction taken when present: every literal that can follow the group
      (`,` or `%`) is neither a digit nor `.`, so backtracking into the group
      never yields another match. */
  function NumberAt(s: string, i: nat): (r: Option<Number>)
    requires i <= |s|
    ensures r.Some? ==> i < r.value.next <= |s|
  {
    var j := DigitRunEnd(s, i);
    if j == i then None
    else if j + 1 < |s| && s[j] == '.' && IsDigit(s[j + 1]) then
      Some(Number(Value(s[i..j]) * 10 + DigitValue(s[j + 1]), j + 2))
    else
      Some(Number(Value(s[i..j]) * 10, j))
  }

  /** The pattern anchored at position `p` (what `re.match` would find there). */
  function MatchAt(s: string, p: nat): (r: Option<TagMatch>)
    ensures r.Some? ==> r.value.start == p
  {
    if !HasAt(s, p, Prefix) then None
    else match NumberAt(s, p + |Prefix|)
      case None => None
      case Some(w) =>
        if !HasAt(s, w.next, Middle) then None
        else match NumberAt(s, w.next + |Middle|)
          case None => None
          case Some(a) =>
            if !HasAt(s, a.next, Suffix) then None
            else Some(TagMatch(p, a.next + |Suffix|, w.tenths, a.tenths))
  }

  /** The three literals and the two numbers found in a row make a match. */
  lemma MatchAtOf(s: string, p: nat, w: Number, a: Number)
    requires HasAt(s, p, Prefix) && NumberAt(s, p + |Prefix|) == Some(w)
    requires HasAt(s, w.next, Middle) && NumberAt(s, w.next + |Middle|) == Some(a)
    requires HasAt(s, a.next, Suffix)
    ensures MatchAt(s, p) == Some(TagMatch(p, a.next + |Suffix|, w.tenths, a.tenths))
  {
    hide HasAt, NumberAt;
  }

  /** A speed not followed by the literal `,accuracy=` leaves no match. */
  lemma MatchAtFailsAtMiddle(s: string, p: nat, w: Number)
    requires HasAt(s, p, Prefix) && NumberAt(s, p + |Prefix|) == Some(w)
    requires !HasAt(s, w.next, Middle)
    ensures MatchAt(s, p).None?
  {
    hide HasAt, NumberAt;
  }

  /** The pieces a match is made of, in a row. */
  lemma MatchAtParts(s: string, p: nat)
    requires MatchAt(s, p).Some?
    ensures HasAt(s, p, Prefix) && p + |Prefix| <= |s|
    ensures var wn := NumberAt(s, p + |Prefix|);
      wn.Some? && HasAt(s, wn.value.next, Middle) && wn.value.next + |Middle| <= |s|
      && var an := NumberAt(s, wn.value.next + |Middle|);
      an.Some? && HasAt(s, an.value.next, Suffix)
      && MatchAt(s, p).value == TagMatch(p, an.value.next + |Suffix|, wn.value.tenths, an.value.tenths)
  {
    hide NumberAt;
  }

  /** `re.search` from position `p`: the first position at or after `p` where
      the pattern matches. */
  function SearchFrom(s: string, p: nat): Option<TagMatch>
    requires p <= |s|
    decreases |s| - p
  {
    var m := MatchAt(s, p);
    if m.Some? then m
    else if p == |s| then None
    else SearchFrom(s, p + 1)
  }

  /** `re.search(pattern, text)`. */
  function Search(s: string): Option<TagMatch> {
    SearchFrom(s, 0)
  }

  /** The search reports the leftmost match: no match starts before the one
      reported, and there is none at all when the search fails. */
  lemma {:induction false} SearchFromLeftmost(s: string, p: nat)
    requires p <= |s|
    ensures SearchFrom(s, p).None? ==> forall q :: p <= q <= |s| ==> MatchAt(s, q).None?
    ensures SearchFrom(s, p).Some? ==>
      var m := SearchFrom(s, p).value;
      p <= m.start <= |s| && MatchAt(s, m.start) == SearchFrom(s, p)
      && forall q :: p <= q < m.start ==> MatchAt(s, q).None?
    decreases |s| - p
  {
    hide MatchAt;
    if MatchAt(s, p).None? && p < |s| {
      SearchFromLeftmost(s, p + 1);
    }
  }

  /** Every well-formed tag in a text is found: the search succeeds and its match
      starts no later than that tag. */
  lemma SearchFindsEveryTag(s: string, p: nat)
    requires MatchAt(s, p).Some?
    ensures Search(s).Some? && Search(s).value.start <= p
  {
    assert p <= |s|;
    hide MatchAt;
    SearchFromLeftmost(s, 0);
  }

  /** A number as the group `\d+(?:\.\d)?` writes it: digits, or digits, a
      point and one more digit. */
  predicate IsNumberText(w: string) {
    (|w| > 0 && AllDigits(w))
    || (|w| >= 3 && AllDigits(w[..|w| - 2]) && w[|w| - 2] == '.' && IsDigit(w[|w| - 1]))
  }

  /** The value in tenths that `float` gives such a text. */
  function TextTenths(w: string): nat
    requires IsNumberText(w)
  {
    if AllDigits(w) then Value(w) * 10
    else Value(w[..|w| - 2]) * 10 + DigitValue(w[|w| - 1])
  }

  /** A number text followed by a character that cannot continue it (neither a
      digit nor a point) is read whole, as its own value. */
  lemma NumberAtText(s: string, i: nat, w: string)
    requires HasAt(s, i, w) && IsNumberText(w)
    requires AllDigits(w) ==> i + |w| < |s| && !IsDigit(s[i + |w|]) && s[i + |w|] != '.'
    ensures NumberAt(s, i) == Some(Number(TextTenths(w), i + |w|))
  {
    if AllDigits(w) {
      assert s[i..i + |w|] == w;
      DigitRunEndOf(s, i, i + |w|);
    } else {
      var j := i + |w| - 2;
      assert s[i..j] == w[..|w| - 2];
      assert s[j] == w[|w| - 2] && s[j + 1] == w[|w| - 1];
      DigitRunEndOf(s, i, j);
    }
  }

  /** What the number group reads is a number text, and its value is the value
      of that text. */
  lemma NumberAtReads(s: string, i: nat)
    requires i <= |s|
    ensures NumberAt(s, i).Some? ==>
      var n := NumberAt(s, i).value;
      IsNumberText(s[i..n.next]) && TextTenths(s[i..n.next]) == n.tenths
  {
    var j := DigitRunEnd(s, i);
    if j > i && j + 1 < |s| && s[j] == '.' && IsDigit(s[j + 1]) {
      var w := s[i..j + 2];
      assert w[..|w| - 2] == s[i..j];
      assert w[|w| - 2] == '.' && w[|w| - 1] == s[j + 1];
      assert !AllDigits(w) by { assert !IsDigit(w[|w| - 2]); }
    }
  }

  /** The tag with its two numbers written as `w` and `a`. */
  function TagText(w: string, a: string): string {
    Prefix + w + Middle + a + Suffix
  }

  /** The five pieces of a tag text, one after the other. */
  lemma TagPieces(w: string, a: string)
    ensures var tag := TagText(w, a);
      HasAt(tag, 0, Prefix) && HasAt(tag, |Prefix|, w)
      && HasAt(tag, |Prefix| + |w|, Middle)
      && HasAt(tag, |Prefix| + |w| + |Middle|, a)
      && HasAt(tag, |Prefix| + |w| + |Middle| + |a|, Suffix)
  {
    var x1 := Prefix + w;
    var x2 := x1 + Middle;
    var x3 := x2 + a;
    var tag := x3 + Suffix;
    assert TagText(w, a) == tag;
    hide *;
    HasAtJoin(x3, Suffix);
    HasAtJoin(x2, a);
    HasAtJoin(x1, Middle);
    HasAtJoin(Prefix, w);
    HasAtWithin(tag, 0, x3, 0, x2);
    HasAtWithin(tag, 0, x2, 0, x1);
    HasAtWithin(tag, 0, x1, 0, Prefix);
    HasAtWithin(tag, 0, x1, |Prefix|, w);
    HasAtWithin(tag, 0, x2, |x1|, Middle);
    HasAtWithin(tag, 0, x3, |x2|, a);
  }

  /** The five pieces of a tag text, each where it was put in a text. */
  lemma PlacedPieces(pre: string, w: string, a: string, post: string)
    ensures var s, p := pre + TagText(w, a) + post, |pre|;
      HasAt(s, p, Prefix) && HasAt(s, p + |Prefix|, w)
      && HasAt(s, p + |Prefix| + |w|, Middle)
      && HasAt(s, p + |Prefix| + |w| + |Middle|, a)
      && HasAt(s, p + |Prefix| + |w| + |Middle| + |a|, Suffix)
  {
    var tag := TagText(w, a);
    var s, p := pre + tag + post, |pre|;
    hide *;
    TagPieces(w, a);
    HasAtJoin(pre + tag, post);
    HasAtJoin(pre, tag);
    HasAtWithin(s, 0, pre + tag, p, tag);
    HasAtWithin(s, p, tag, 0, Prefix);
    HasAtWithin(s, p, tag, |Prefix|, w);
    HasAtWithin(s, p, tag, |Prefix| + |w|, Middle);
    HasAtWithin(s, p, tag, |Prefix| + |w| + |Middle|, a);
    HasAtWithin(s, p, tag, |Prefix| + |w| + |Middle| + |a|, Suffix);
  }

  /** A literal occurrence fixes the character at its first position. */
  lemma FirstOfLiteral(s: string, i: nat, lit: string)
    requires HasAt(s, i, lit) && |lit| > 0
    ensures i < |s| && s[i] == lit[0]
  {
    assert s[i..i + |lit|][0] == s[i];
  }

  /** A literal does not occur where its first character is missing. */
  lemma FirstOfLiteralFails(s: string, i: nat, lit: string)
    requires i < |s| && |lit| > 0 && s[i] != lit[0]
    ensures !HasAt(s, i, lit)
  {
    if HasAt(s, i, lit) {
      FirstOfLiteral(s, i, lit);
    }
  }

  /** A text holding the pieces of a tag at `p` matches there. */
  lemma MatchOfPieces(s: string, p: nat, w: string, a: string)
    requires IsNumberText(w) && IsNumberText(a)
    requires HasAt(s, p, Prefix) && HasAt(s, p + |Prefix|, w)
    requires HasAt(s, p + |Prefix| + |w|, Middle)
    requires HasAt(s, p + |Prefix| + |w| + |Middle|, a)
    requires HasAt(s, p + |Prefix| + |w| + |Middle| + |a|, Suffix)
    ensures MatchAt(s, p) == Some(TagMatch(p, p + |Prefix| + |w| + |Middle| + |a| + |Suffix|,
                                           TextTenths(w), TextTenths(a)))
  {
    var i2 := p + |Prefix| + |w|;
    var i4 := i2 + |Middle| + |a|;
    assert Middle[0] == ',' && Suffix[0] == '%';
    hide Prefix, Middle, Suffix, MatchAt, HasAt, IsNumberText, TextTenths;
    FirstOfLiteral(s, i2, Middle);
    FirstOfLiteral(s, i4, Suffix);
    NumberAtText(s, p + |Prefix|, w);
    NumberAtText(s, i2 + |Middle|, a);
    MatchAtOf(s, p, Number(TextTenths(w), i2), Number(TextTenths(a), i4));
  }

  lemma TagTextLength(w: string, a: string)
    ensures |TagText(w, a)| == |Prefix| + |w| + |Middle| + |a| + |Suffix|
  {
  }

  /** Round trip: a tag written with well-formed numbers, wherever it sits in a
      text, is matched at its position with exactly its own extent, and reads
      back the values of its two numbers. */
  lemma MatchTagText(pre: string, w: string, a: string, post: string)
    requires IsNumberText(w) && IsNumberText(a)
    ensures MatchAt(pre + TagText(w, a) + post, |pre|)
         == Some(TagMatch(|pre|, |pre| + |TagText(w, a)|, TextTenths(w), TextTenths(a)))
  {
    hide *;
    TagTextLength(w, a);
    PlacedPieces(pre, w, a, post);
    MatchOfPieces(pre + TagText(w, a) + post, |pre|, w, a);
  }

  /** Only a tag text is matched: a match at `p` means that the tag, with two
      well-formed numbers, is written at `p`, and the match covers exactly that
      text and carries the values of its two numbers. */
  lemma MatchAtReads(s: string, p: nat)
    ensures MatchAt(s, p).Some? ==>
      exists w, a :: IsNumberText(w) && IsNumberText(a) && HasAt(s, p, TagText(w, a))
        && MatchAt(s, p).value == TagMatch(p, p + |TagText(w, a)|, TextTenths(w), TextTenths(a))
  {
    if MatchAt(s, p).Some? {
      MatchAtParts(s, p);
      var i := p + |Prefix|;
      var wn := NumberAt(s, i).value;
      var k := wn.next + |Middle|;
      var an := NumberAt(s, k).value;
      NumberAtReads(s, i);
      NumberAtReads(s, k);
      var w, a := s[i..wn.next], s[k..an.next];
      assert TagText(w, a) == Prefix + w + Middle + a + Suffix;
      assert HasAt(s, i, w) && HasAt(s, k, a);
      hide *;
      HasAtConcat(s, p, Prefix, w);
      HasAtConcat(s, p, Prefix + w, Middle);
      HasAtConcat(s, p, Prefix + w + Middle, a);
      HasAtConcat(s, p, Prefix + w + Middle + a, Suffix);
      TagTextLength(w, a);
    }
  }

  /** `re.search` accepts a text exactly when a tag with two well-formed
      numbers is written somewhere in it, and the tag it reports is such a
      text, with that text's values. */
  lemma SearchIffTag(s: string)
    ensures Search(s).Some? <==>
      exists p, w, a :: IsNumberText(w) && IsNumberText(a) && HasAt(s, p, TagText(w, a))
    ensures Search(s).Some? ==>
      var m := Search(s).value;
      exists w, a :: IsNumberText(w) && IsNumberText(a) && HasAt(s, m.start, TagText(w, a))
        && m == TagMatch(m.start, m.start + |TagText(w, a)|, TextTenths(w), TextTenths(a))
  {
    SearchFromLeftmost(s, 0);
    if Search(s).Some? {
      MatchAtReads(s, Search(s).value.start);
    }
    if exists p, w, a :: IsNumberText(w) && IsNumberText(a) && HasAt(s, p, TagText(w, a)) {
      var p, w, a :| IsNumberText(w) && IsNumberText(a) && HasAt(s, p, TagText(w, a));
      var tag := TagText(w, a);
      TagPieces(w, a);
      HasAtWithin(s, p, tag, 0, Prefix);
      HasAtWithin(s, p, tag, |Prefix|, w);
      HasAtWithin(s, p, tag, |Prefix| + |w|, Middle);
      HasAtWithin(s, p, tag, |Prefix| + |w| + |Middle|, a);
      HasAtWithin(s, p, tag, |Prefix| + |w| + |Middle| + |a|, Suffix);
      MatchOfPieces(s, p, w, a);
      SearchFindsEveryTag(s, p);
    }
  }

  /** Canonical writing of a value held in tenths: always with one decimal digit. */
  function RenderNumber(t: nat): (s: string)
    ensures |s| >= 3
  {
    Digits(t / 10) + "." + [DigitChar(t % 10)]
  }

  /** The canonical writing is a number text of the same value. */
  lemma RenderNumberReads(t: nat)
    ensures IsNumberText(RenderNumber(t)) && TextTenths(RenderNumber(t)) == t
  {
    var ds, r := Digits(t / 10), RenderNumber(t);
    assert r[..|r| - 2] == ds;
    assert r[|r| - 2] == '.';
    assert !AllDigits(r);
    ValueOfDigits(t / 10);
  }

  /** The tag text a practice session would post. */
  function RenderTag(wpm: nat, accuracy: nat): string {
    TagText(RenderNumber(wpm), RenderNumber(accuracy))
  }

  /** Round trip: a rendered tag, wherever it sits in a text, is matched at its
      position with exactly its own values and extent. */
  lemma MatchRendered(pre: string, wpm: nat, accuracy: nat, post: string)
    ensures MatchAt(pre + RenderTag(wpm, accuracy) + post, |pre|)
         == Some(TagMatch(|pre|, |pre| + |RenderTag(wpm, accuracy)|, wpm, accuracy))
  {
    hide MatchAt, TagText, RenderNumber, IsNumberText, TextTenths;
    assert RenderTag(wpm, accuracy) == TagText(RenderNumber(wpm), RenderNumber(accuracy));
    RenderNumberReads(wpm);
    RenderNumberReads(accuracy);
    MatchTagText(pre, RenderNumber(wpm), RenderNumber(accuracy), post);
  }

  /** The numbers of the first example tag, read. */
  lemma ExampleTagNumbers()
    ensures IsNumberText("87.5") && TextTenths("87.5") == 875
    ensures IsNumberText("96") && TextTenths("96") == 960
  {
    assert "87.5"[..2] == "87";
    assert Value("87") == Value("8") * 10 + 7 == 87;
    assert Value("96") == Value("9") * 10 + 6 == 96;
  }

  /** The first example tag is the tag text of its two numbers. */
  lemma ExampleTagText()
    ensures "{layout=colemak_DH,wpm=87.5,accuracy=96%}" == [] + TagText("87.5", "96") + []
    ensures |TagText("87.5", "96")| == 41
  {
  }

  /** A one-decimal speed and a plain-integer accuracy are both read, in tenths. */
  lemma ExampleTag()
    ensures MatchAt("{layout=colemak_DH,wpm=87.5,accuracy=96%}", 0) == Some(TagMatch(0, 41, 875, 960))
  {
    hide *;
    ExampleTagText();
    ExampleTagNumbers();
    MatchTagText([], "87.5", "96", []);
  }

  /** The numbers of the second example tag, read. */
  lemma ExampleCapNumbers()
    ensures IsNumberText("1") && TextTenths("1") == 10
    ensures IsNumberText("250") && TextTenths("250") == 2500
  {
    assert Value("1") == 1;
    assert "250"[..2] == "25" && "25"[..1] == "2";
    assert Value("250") == Value("25") * 10 + 0;
    assert Value("25") == Value("2") * 10 + 5 == 25;
  }

  /** The second example tag is the tag text of its two numbers. */
  lemma ExampleCapText()
    ensures "{layout=colemak_DH,wpm=1,accuracy=250%}" == [] + TagText("1", "250") + []
    ensures |TagText("1", "250")| == 39
  {
  }

  /** Nothing in the pattern caps the accuracy at 100 percent. */
  lemma AccuracyIsNotCapped()
    ensures MatchAt("{layout=colemak_DH,wpm=1,accuracy=250%}", 0) == Some(TagMatch(0, 39, 10, 2500))
  {
    hide *;
    ExampleCapText();
    ExampleCapNumbers();
    MatchTagText([], "1", "250", []);
  }

  /** A speed written with two decimal digits: the number group stops after the
      first one, leaving a digit where `,accuracy=` must begin, so nothing
      matches at that position. */
  lemma TwoDecimalsRejected(s: string, p: nat, j: nat)
    requires p + |Prefix| < j && j + 2 < |s|
    requires AllDigits(s[p + |Prefix|..j]) && s[j] == '.' && IsDigit(s[j + 1]) && IsDigit(s[j + 2])
    ensures MatchAt(s, p).None?
  {
    var i := p + |Prefix|;
    DigitRunEndOf(s, i, j);
    assert NumberAt(s, i).Some? && NumberAt(s, i).value.next == j + 2;
    assert Middle[0] == ',';
    FirstOfLiteralFails(s, j + 2, Middle);
    if HasAt(s, p, Prefix) {
      MatchAtFailsAtMiddle(s, p, NumberAt(s, i).value);
    }
  }

  /** A speed starting with the point has no integer part, so the number group
      reads nothing and nothing matches at that position. */
  lemma MissingIntegerPartRejected(s: string, p: nat)
    requires p + |Prefix| < |s| && s[p + |Prefix|] == '.'
    ensures MatchAt(s, p).None?
  {
    DigitRunEndOf(s, p + |Prefix|, p + |Prefix|);
  }
}
