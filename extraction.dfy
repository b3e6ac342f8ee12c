/** `parse_html` (colemak_telegram_analysis.py:20-48): every `div.text` of a
    document is searched for the tag; each match is counted, and a sample is
    appended to the module-level `filtered_data` list when the div sits inside
    a `div.message` whose date div carries a `title`. The document is given as
    the sequence of its `div.text` elements, in document order, each with what
    the tree navigation would find around it. */
module Extraction {
  import opened Options
  import opened Tag
  import opened Timestamp

  /** One practice result: when it was posted, its speed and its accuracy, both
      in tenths (the tag allows at most one decimal digit). */
  datatype Sample = Sample(when: DateTime, wpm: nat, accuracy: nat)

  /** One `div.text`: its text, whether `find_parent('div', class_='message')`
      finds an enclosing message, and the `title` of that message's
      `div.pull_right.date.details` (`None` when the div or its title is absent). */
  datatype TextDiv = TextDiv(text: string, inMessage: bool, dateTitle: Option<string>)

  /** What `parse_html` does with one `div.text`. `BadTimestamp` is the
      `ValueError` that `strptime` raises and nothing catches. */
  datatype Outcome = NoMatch | NoParent | NoDate | BadTimestamp | Accepted(sample: Sample)

  /** The fate of one div in `parse_html`. */
  function Classify(f: TextDiv): Outcome
  {
    match Search(f.text)
    case None => NoMatch
    case Some(m) =>
      if !f.inMessage then NoParent
      else match f.dateTitle
        case None => NoDate
        case Some(title) =>
          match ParseTitle(title)
          case None => BadTimestamp
          case Some(when) => Accepted(Sample(when, m.wpm, m.accuracy))
  }

  /** The effect of parsing a document: the samples appended, the matches
      counted, and whether `strptime` raised (after which nothing more happens). */
  datatype Scan = Scan(samples: seq<Sample>, matches: nat, crashed: bool)

  /** Nothing parsed yet. */
  const Start := Scan([], 0, false)

  /** One iteration of the loop of `parse_html`, for a div of fate `o`: once
      `strptime` has raised nothing more happens; otherwise a match bumps the
      count, an accepted div appends its sample and an unreadable timestamp
      raises. */
  function Step(st: Scan, o: Outcome): Scan {
    if st.crashed then st
    else
      Scan(st.samples + (if o.Accepted? then [o.sample] else []),
           st.matches + (if o.NoMatch? then 0 else 1),
           o.BadTimestamp?)
  }

  /** The loop of `parse_html` over the first `i` divs of `doc`. */
  function ScanUpTo(doc: seq<TextDiv>, i: nat): Scan
    requires i <= |doc|
  {
    if i == 0 then Start else Step(ScanUpTo(doc, i - 1), Classify(doc[i - 1]))
  }

  /** `parse_html` applied to a whole document. */
  function ScanDoc(doc: seq<TextDiv>): Scan {
    ScanUpTo(doc, |doc|)
  }

  /** Once `strptime` has raised, later divs change nothing. */
  lemma {:induction false} CrashStays(doc: seq<TextDiv>, i: nat, j: nat)
    requires i <= j <= |doc| && ScanUpTo(doc, i).crashed
    ensures ScanUpTo(doc, j) == ScanUpTo(doc, i)
  {
    hide Classify;
    if j > i {
      CrashStays(doc, i, j - 1);
    }
  }

  /** The fate of each div, in document order. */
  function Outcomes(doc: seq<TextDiv>): (os: seq<Outcome>)
    ensures |os| == |doc|
  {
    if doc == [] then [] else Outcomes(doc[..|doc| - 1]) + [Classify(doc[|doc| - 1])]
  }

  /** The same loop over a sequence of fates. */
  function Run(os: seq<Outcome>): Scan {
    if os == [] then Start else Step(Run(os[..|os| - 1]), os[|os| - 1])
  }

  /** One more div classified. */
  lemma OutcomesStep(doc: seq<TextDiv>, i: nat)
    requires i < |doc|
    ensures Outcomes(doc[..i + 1]) == Outcomes(doc[..i]) + [Classify(doc[i])]
  {
    assert doc[..i + 1][..i] == doc[..i];
  }

  lemma RunAppend(os: seq<Outcome>, o: Outcome)
    ensures Run(os + [o]) == Step(Run(os), o)
  {
    assert (os + [o])[..|os|] == os;
  }

  /** Parsing a document is running the loop over the fates of its divs. */
  lemma {:induction false} ScanUpToIsRun(doc: seq<TextDiv>, i: nat)
    requires i <= |doc|
    ensures ScanUpTo(doc, i) == Run(Outcomes(doc[..i]))
  {
    if i > 0 {
      ScanUpToIsRun(doc, i - 1);
      OutcomesStep(doc, i - 1);
      RunAppend(Outcomes(doc[..i - 1]), Classify(doc[i - 1]));
    }
  }

  lemma ScanDocIsRun(doc: seq<TextDiv>)
    ensures ScanDoc(doc) == Run(Outcomes(doc))
  {
    ScanUpToIsRun(doc, |doc|);
    assert doc[..|doc|] == doc;
  }

  /** Reference definition, read from the front: the samples of the accepted
      divs, in document order. */
  function AcceptedSamples(os: seq<Outcome>): seq<Sample> {
    if os == [] then []
    else (if os[0].Accepted? then [os[0].sample] else []) + AcceptedSamples(os[1..])
  }

  /** Reference definition, read from the front: the number of divs the tag matches. */
  function MatchingCount(os: seq<Outcome>): nat {
    if os == [] then 0
    else (if os[0].NoMatch? then 0 else 1) + MatchingCount(os[1..])
  }

  /** The outcomes of the divs the tag matches, in document order. */
  function Matching(os: seq<Outcome>): (r: seq<Outcome>)
    ensures |r| <= |os|
  {
    if os == [] then []
    else Matching(os[..|os| - 1]) + (if os[|os| - 1].NoMatch? then [] else [os[|os| - 1]])
  }

  /** The counter is bumped before the parent and date checks, so a document
      never yields more samples than the count `parse_html` returns. */
  lemma {:induction false} SamplesWithinMatches(os: seq<Outcome>)
    ensures |Run(os).samples| <= Run(os).matches
  {
    if os != [] {
      SamplesWithinMatches(os[..|os| - 1]);
    }
  }

  /** Divs the tag does not match change neither the samples nor the count:
      dropping them all leaves the outcome as it was. */
  lemma {:induction false} NonMatchingIgnored(os: seq<Outcome>)
    ensures Run(Matching(os)) == Run(os)
  {
    if os != [] {
      var init, o := os[..|os| - 1], os[|os| - 1];
      NonMatchingIgnored(init);
      if o.NoMatch? {
        assert Matching(os) == Matching(init) + [] == Matching(init);
        assert Run(os).samples == Run(init).samples + [];
      } else {
        var m := Matching(init) + [o];
        assert m[..|m| - 1] == Matching(init);
      }
    }
  }

  lemma {:induction false} AcceptedSamplesAppend(os: seq<Outcome>, o: Outcome)
    ensures AcceptedSamples(os + [o]) == AcceptedSamples(os) + (if o.Accepted? then [o.sample] else [])
  {
    if os != [] {
      assert (os + [o])[1..] == os[1..] + [o];
      AcceptedSamplesAppend(os[1..], o);
    }
  }

  lemma {:induction false} MatchingCountAppend(os: seq<Outcome>, o: Outcome)
    ensures MatchingCount(os + [o]) == MatchingCount(os) + (if o.NoMatch? then 0 else 1)
  {
    if os != [] {
      assert (os + [o])[1..] == os[1..] + [o];
      MatchingCountAppend(os[1..], o);
    }
  }

  /** When no timestamp fails to parse, the samples are exactly those of the
      accepted divs in document order and the count is the number of matching
      divs. */
  lemma {:induction false} RunWithoutBadTimestamp(os: seq<Outcome>)
    requires forall i :: 0 <= i < |os| ==> !os[i].BadTimestamp?
    ensures Run(os) == Scan(AcceptedSamples(os), MatchingCount(os), false)
  {
    if os != [] {
      var init, o := os[..|os| - 1], os[|os| - 1];
      RunWithoutBadTimestamp(init);
      assert os == init + [o];
      AcceptedSamplesAppend(init, o);
      MatchingCountAppend(init, o);
    }
  }

  /** Once `strptime` has raised, later divs change nothing. */
  lemma {:induction false} CrashIsFinal(os: seq<Outcome>, rest: seq<Outcome>)
    requires Run(os).crashed
    ensures Run(os + rest) == Run(os)
    decreases |rest|
  {
    if rest != [] {
      var longer := os + rest;
      CrashIsFinal(os, rest[..|rest| - 1]);
      assert longer[..|longer| - 1] == os + rest[..|rest| - 1];
      assert Run(longer[..|longer| - 1]).crashed;
    } else {
      assert os + rest == os;
    }
  }

  /** The first unreadable timestamp ends the parse: what was appended before it
      stays, and its own match has already been counted. */
  lemma RunStopsAtBadTimestamp(os: seq<Outcome>, i: nat)
    requires i < |os| && os[i].BadTimestamp?
    requires forall j :: 0 <= j < i ==> !os[j].BadTimestamp?
    ensures Run(os) == Scan(AcceptedSamples(os[..i]), MatchingCount(os[..i]) + 1, true)
  {
    var head := os[..i + 1];
    assert head[..|head| - 1] == os[..i] && head[|head| - 1] == os[i];
    assert head + os[i + 1..] == os;
    hide AcceptedSamples, MatchingCount;
    RunWithoutBadTimestamp(os[..i]);
    assert Run(head) == Scan(AcceptedSamples(os[..i]), MatchingCount(os[..i]) + 1, true);
    hide Run;
    CrashIsFinal(head, os[i + 1..]);
  }

  /** Every sample carries a real calendar date and time of day. */
  predicate ValidTimes(ss: seq<Sample>) {
    forall i :: 0 <= i < |ss| ==> ValidDateTime(ss[i].when)
  }

  /** A sample is taken only from a title that `strptime` read, so its
      moment is a real one. */
  lemma {:induction false} ScanUpToValid(doc: seq<TextDiv>, i: nat)
    requires i <= |doc|
    ensures ValidTimes(ScanUpTo(doc, i).samples)
  {
    if i > 0 {
      ScanUpToValid(doc, i - 1);
      var o := Classify(doc[i - 1]);
      assert o.Accepted? ==> ValidDateTime(o.sample.when);
    }
  }

  lemma ScanDocValid(doc: seq<TextDiv>)
    ensures ValidTimes(ScanDoc(doc).samples)
  {
    ScanUpToValid(doc, |doc|);
  }

  /** The example of a posted result: its tag and its date title give one sample. */
  lemma ExampleDiv()
    ensures Classify(TextDiv("{layout=colemak_DH,wpm=87.5,accuracy=96%}", true,
                             Some("05.03.2024 14:22:10 UTC+00:00")))
         == Accepted(Sample(DateTime(Date(2024, 3, 5), 14, 22, 10), 875, 960))
  {
    var s := "{layout=colemak_DH,wpm=87.5,accuracy=96%}";
    ExampleTag();
    assert Search(s) == SearchFrom(s, 0) == MatchAt(s, 0);
    ExampleTitle();
  }

  /** What one call of `parse_html` returns: the match count, or the uncaught
      `ValueError` of an unreadable timestamp. */
  datatype ParseResult = Parsed(matchCount: nat) | Crashed

  /** The module-level `filtered_data` list that `parse_html` appends to. */
  class SampleLog {
    var samples: seq<Sample>

    constructor ()
      ensures samples == []
    {
      samples := [];
    }

    /** `parse_html`: the samples of `doc` are appended after the existing ones,
        which stay untouched, and the match count is returned. */
    method ParseHtml(doc: seq<TextDiv>) returns (r: ParseResult)
      modifies this
      ensures samples == old(samples) + ScanDoc(doc).samples
      ensures r == if ScanDoc(doc).crashed then Crashed else Parsed(ScanDoc(doc).matches)
    {
      hide Classify;
      var matchCount := 0;
      var i := 0;
      while i < |doc|
        invariant 0 <= i <= |doc|
        invariant !ScanUpTo(doc, i).crashed
        invariant samples == old(samples) + ScanUpTo(doc, i).samples
        invariant matchCount == ScanUpTo(doc, i).matches
      {
        var outcome := Classify(doc[i]);
        if !outcome.NoMatch? {
          matchCount := matchCount + 1;
        }
        if outcome.BadTimestamp? {
          CrashStays(doc, i + 1, |doc|);
          return Crashed;
        }
        if outcome.Accepted? {
          samples := samples + [outcome.sample];
        }
        i := i + 1;
      }
      r := Parsed(matchCount);
    }
  }
}
