/** The script's top level (colemak_telegram_analysis.py:164-178): parse
    `messages.html`, `messages2.html`, `messages3.html`, ... in that order,
    stopping at the first name that does not exist, and record each file's
    match count. The files on disk are given as a map from name to document;
    a name exists exactly when it is a key. */
module Discovery {
  import opened Decimal
  import opened Extraction
  import opened FileNames

  /** How many names from the `k`-th on exist without a gap. */
  function RunFrom(names: set<string>, k: nat): nat
    requires k >= 1
    decreases |names - NamesBefore(k)|
  {
    if FileName(k) !in names then 0
    else
      UntriedShrinks(names, k);
      1 + RunFrom(names, k + 1)
  }

  /** The run ends at the first missing name. */
  lemma {:induction false} RunFromEndsAtGap(names: set<string>, k: nat)
    requires k >= 1
    ensures forall j :: k <= j < k + RunFrom(names, k) ==> FileName(j) in names
    ensures FileName(k + RunFrom(names, k)) !in names
    decreases |names - NamesBefore(k)|
  {
    hide FileName, NamesBefore;
    if FileName(k) in names {
      UntriedShrinks(names, k);
      RunFromEndsAtGap(names, k + 1);
    }
  }

  /** The first `n` names all exist. */
  predicate FirstExist(names: set<string>, n: nat) {
    n == 0 || (FirstExist(names, n - 1) && FileName(n) in names)
  }

  lemma {:induction false} FirstExistFromAll(names: set<string>, n: nat)
    requires forall j :: 1 <= j <= n ==> FileName(j) in names
    ensures FirstExist(names, n)
  {
    if n > 0 {
      FirstExistFromAll(names, n - 1);
    }
  }

  lemma {:induction false} FirstExistAt(names: set<string>, n: nat, j: nat)
    requires FirstExist(names, n) && 1 <= j <= n
    ensures FileName(j) in names
  {
    if j < n {
      FirstExistAt(names, n - 1, j);
    }
  }

  /** The number of files the loop parses: every name up to it exists and the
      next one does not. */
  function DiscoveredCount(names: set<string>): (n: nat)
    ensures FirstExist(names, n)
    ensures forall j :: 1 <= j <= n ==> FileName(j) in names
    ensures FileName(n + 1) !in names
  {
    var n := RunFrom(names, 1);
    RunFromEndsAtGap(names, 1);
    FirstExistFromAll(names, n);
    n
  }

  /** The count is the longest existing prefix of the name sequence. */
  lemma DiscoveredIsLongest(names: set<string>, m: nat)
    requires FirstExist(names, m)
    ensures m <= DiscoveredCount(names)
  {
    var n := DiscoveredCount(names);
    if n < m {
      assert false;
    }
  }

  /** A prefix of existing names followed by a missing one is exactly what the
      loop discovers, whatever exists further on. */
  lemma DiscoveredCountIs(names: set<string>, n: nat)
    requires FirstExist(names, n) && FileName(n + 1) !in names
    ensures DiscoveredCount(names) == n
  {
    var d := DiscoveredCount(names);
    DiscoveredIsLongest(names, n);
    if n < d {
      assert false;
    }
  }

  /** Two files present and the third missing: discovery stops after two,
      whatever exists further on. */
  lemma StopsAtFirstGap()
    ensures DiscoveredCount({"messages.html", "messages2.html", "messages4.html"}) == 2
  {
    var names := {"messages.html", "messages2.html", "messages4.html"};
    assert DigitChar(2) == '2' && DigitChar(3) == '3';
    assert Digits(2) == "2" && Digits(3) == "3";
    var f1, f2, f3 := FileName(1), FileName(2), FileName(3);
    assert f2 == "messages" + "2" + ".html" == "messages2.html";
    assert f3 == "messages" + "3" + ".html";
    assert |f3| == 14 && f3[8] == '3';
    assert "messages2.html"[8] == '2' && "messages4.html"[8] == '4';
    assert f3 !in names;
    assert FirstExist(names, 2) by {
      assert f1 in names && f2 in names;
    }
    DiscoveredCountIs(names, 2);
  }

  /** The scan of the `k`-th file (of nothing when it does not exist). */
  function ScanOf(files: map<string, seq<TextDiv>>, k: nat): Scan
    requires k >= 1
  {
    if FileName(k) in files then ScanDoc(files[FileName(k)]) else ScanDoc([])
  }

  /** The samples of the first `n` files, file after file. */
  function Collected(files: map<string, seq<TextDiv>>, n: nat): seq<Sample>
  {
    if n == 0 then [] else Collected(files, n - 1) + ScanOf(files, n).samples
  }

  /** Every sample collected from the first `n` files has a real moment. */
  lemma {:induction false} CollectedValid(files: map<string, seq<TextDiv>>, n: nat)
    ensures ValidTimes(Collected(files, n))
  {
    if n > 0 {
      CollectedValid(files, n - 1);
      var k := if FileName(n) in files then files[FileName(n)] else [];
      ScanDocValid(k);
    }
  }

  /** The `(file name, match count)` pairs of the first `n` files. */
  function Counted(files: map<string, seq<TextDiv>>, n: nat): (r: seq<(string, nat)>)
    ensures |r| == n
  {
    if n == 0 then [] else Counted(files, n - 1) + [(FileName(n), ScanOf(files, n).matches)]
  }

  /** Entry `i` of the summary is the `i+1`-th file name and its match count. */
  lemma {:induction false} CountedAt(files: map<string, seq<TextDiv>>, n: nat, i: nat)
    requires FirstExist(files.Keys, n)
    requires i < n
    ensures FileName(i + 1) in files
    ensures Counted(files, n)[i] == (FileName(i + 1), ScanDoc(files[FileName(i + 1)]).matches)
  {
    if i < n - 1 {
      CountedAt(files, n - 1, i);
    }
  }

  /** One more file parsed: the summaries grow by that file's entry. */
  lemma FilesStep(files: map<string, seq<TextDiv>>, n: nat)
    requires n >= 1 && FirstExist(files.Keys, n - 1) && FileName(n) in files
    ensures FirstExist(files.Keys, n)
    ensures Collected(files, n) == Collected(files, n - 1) + ScanDoc(files[FileName(n)]).samples
    ensures Counted(files, n) == Counted(files, n - 1) + [(FileName(n), ScanDoc(files[FileName(n)]).matches)]
  {
  }

  /** Before the loop: no file parsed, nothing collected. */
  lemma NothingParsedYet(files: map<string, seq<TextDiv>>)
    ensures FirstExist(files.Keys, 0) && Collected(files, 0) == [] && Counted(files, 0) == []
    ensures FileName(1) == "messages.html"
  {
  }

  /** The name the loop builds for the next file is the next name tried. */
  lemma NextFileName(k: nat)
    requires k >= 2
    ensures "messages" + Digits(k) + ".html" == FileName(k)
  {
  }

  lemma ScanOfExisting(files: map<string, seq<TextDiv>>, k: nat)
    requires k >= 1 && FileName(k) in files
    ensures ScanOf(files, k) == ScanDoc(files[FileName(k)])
  {
  }

  /** Where the discovery loop leaves off: at the first missing name, or at the
      first file whose timestamp raised, which lies within the discovered ones. */
  lemma LoopExit(files: map<string, seq<TextDiv>>, n: nat, crashed: bool)
    requires n >= 1 && FirstExist(files.Keys, n - 1)
    requires forall k :: 1 <= k < n ==> !ScanOf(files, k).crashed
    requires crashed ==> FileName(n) in files && ScanDoc(files[FileName(n)]).crashed
    requires !crashed ==> FileName(n) !in files
    ensures !crashed ==> n - 1 == DiscoveredCount(files.Keys)
    ensures crashed ==> n - 1 < DiscoveredCount(files.Keys)
    ensures crashed <==> exists k :: 1 <= k <= DiscoveredCount(files.Keys) && ScanOf(files, k).crashed
  {
    if crashed {
      DiscoveredIsLongest(files.Keys, n);
      ScanOfExisting(files, n);
    } else {
      DiscoveredCountIs(files.Keys, n - 1);
    }
  }

  /** The discovery loop: parses the files in name order until a name is
      missing or a timestamp is unreadable, appending to `log`. Returns the
      per-file match counts and the number `fileNum` of the last name tried. */
  method ParseAllFiles(log: SampleLog, files: map<string, seq<TextDiv>>)
    returns (matchCounts: seq<(string, nat)>, fileNum: nat, crashed: bool)
    modifies log
    ensures fileNum >= 1 && FirstExist(files.Keys, fileNum - 1)
    ensures matchCounts == Counted(files, fileNum - 1)
    ensures !crashed ==> fileNum - 1 == DiscoveredCount(files.Keys)
    ensures crashed ==> fileNum - 1 < DiscoveredCount(files.Keys)
    ensures crashed ==> FileName(fileNum) in files && ScanDoc(files[FileName(fileNum)]).crashed
    ensures crashed ==> forall k :: 1 <= k < fileNum ==> !ScanOf(files, k).crashed
    ensures crashed <==> exists k :: 1 <= k <= DiscoveredCount(files.Keys) && ScanOf(files, k).crashed
    ensures !crashed ==> log.samples == old(log.samples) + Collected(files, fileNum - 1)
    ensures crashed ==> log.samples == old(log.samples) + Collected(files, fileNum - 1) + ScanDoc(files[FileName(fileNum)]).samples
  {
    hide ScanDoc, ScanOf, Collected, Counted, DiscoveredCount, RunFrom, Digits, NamesBefore, FileName, FirstExist;
    NothingParsedYet(files);
    fileNum := 1;
    matchCounts := [];
    crashed := false;
    var fileName := "messages.html";
    while fileName in files
      invariant fileNum >= 1 && fileName == FileName(fileNum)
      invariant FirstExist(files.Keys, fileNum - 1)
      invariant matchCounts == Counted(files, fileNum - 1)
      invariant log.samples == old(log.samples) + Collected(files, fileNum - 1)
      invariant forall k :: 1 <= k < fileNum ==> !ScanOf(files, k).crashed
      decreases |files.Keys - NamesBefore(fileNum)|
    {
      UntriedShrinks(files.Keys, fileNum);
      var r := log.ParseHtml(files[fileName]);
      if r.Crashed? {
        crashed := true;
        break;
      }
      ScanOfExisting(files, fileNum);
      FilesStep(files, fileNum);
      assert (old(log.samples) + Collected(files, fileNum - 1)) + ScanDoc(files[fileName]).samples
          == old(log.samples) + (Collected(files, fileNum - 1) + ScanDoc(files[fileName]).samples);
      matchCounts := matchCounts + [(fileName, r.matchCount)];
      fileNum := fileNum + 1;
      fileName := "messages" + Digits(fileNum) + ".html";
      NextFileName(fileNum);
    }
    LoopExit(files, fileNum, crashed);
  }
}
