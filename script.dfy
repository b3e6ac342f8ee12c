/** The script from top to bottom (colemak_telegram_analysis.py:163-185):
    parse the message files in discovery order into `filtered_data`, then
    compute the charts. An unreadable timestamp raises out of `parse_html` and
    ends the script before anything is plotted. */
module Script {
  import opened Options
  import opened Extraction
  import opened Discovery
  import opened Plot
  import opened Rolling

  /** The whole run. `crashed` is the `ValueError` of an unreadable timestamp
      in one of the discovered files, which ends the script before any chart. */
  method RunScript(files: map<string, seq<TextDiv>>)
    returns (matchCounts: seq<(string, nat)>, charts: Option<Charts>, crashed: bool)
    ensures crashed <==> exists k :: 1 <= k <= DiscoveredCount(files.Keys) && ScanOf(files, k).crashed
    ensures crashed ==> charts.None?
    ensures !crashed ==> matchCounts == Counted(files, DiscoveredCount(files.Keys))
    ensures !crashed ==>
      var samples := Collected(files, DiscoveredCount(files.Keys));
      (charts.None? <==> samples == [])
      && (charts.Some? ==> ChartsFor(samples, charts.value) && Chronological(charts.value.sortedDays))
  {
    hide *;
    var log := new SampleLog();
    var fileNum;
    matchCounts, fileNum, crashed := ParseAllFiles(log, files);
    if crashed {
      return matchCounts, None, true;
    }
    assert log.samples == Collected(files, DiscoveredCount(files.Keys));
    CollectedValid(files, DiscoveredCount(files.Keys));
    charts := PlotData(log.samples);
  }
}
