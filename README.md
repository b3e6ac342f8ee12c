# Colemak practice log: extraction and statistics, modelled in Dafny

The script `colemak_telegram_analysis.py` reads exported chat logs
(`messages.html`, `messages2.html`, ...). In each log it looks for practice
results posted as the tag `{layout=colemak_DH,wpm=N,accuracy=M%}`. It collects
one sample (timestamp, words per minute, accuracy) per tagged `div.text`
inside a message whose date div has a `title`. From
those samples it draws charts:
- per-day maximum, minimum and median speed;
- a 7-day trailing rolling average of daily mean speeds;
- an accuracy chart whose ticks start at the largest even percentage not
  above the lowest accuracy.

This project models the logic under the HTML scraping and the plotting. Each
piece has its own module:

- `Tag` (`tag.dfy`): recognises the tag pattern, with its two
  `\d+(?:\.\d)?` groups. The greedy digit reading is in `Decimal`
  (`decimal.dfy`) and literal search is in `Text` (`text.dfy`).
- `Timestamp` (`timestamp.dfy`): cuts a date title at the first `" UTC"` and
  reads the rest as `DD.MM.YYYY HH:MM:SS`.
- `Extraction` (`extraction.dfy`): `parse_html`. The skip rules, the match
  counter and the append to the module-level `filtered_data` list are a class
  `SampleLog` whose `ParseHtml` method runs the loop. That loop is proved
  against the functional reading `ScanDoc`.
- `FileNames` and `Discovery` (`filenames.dfy`, `discovery.dfy`): the order in
  which input files are tried, and the `while` loop that parses them until the
  first missing name.
- `Ordering` (`ordering.dfy`): Python's `max`, `min` and `sorted`, the last as
  a stable insertion sort.
- `Daily` (`daily.dfy`): the bucketing loop that fills `wpm_by_day`, and the
  per-day max, min and median.
- `Rolling` (`rolling.dfy`): chronological ordering of days and the loop that
  computes the 7-day rolling averages.
- `Plot` (`plot.dfy`): the accuracy ticks and all the data `plot_data` feeds
  to its charts.
- `Script` (`script.dfy`): the whole run, from discovery to the chart data.

The definitions that stand for the script's own lines, and that the lemmas
below are about:
- `Tag.MatchAt` is the pattern of line 9 anchored at one position, and
  `Tag.Search` is the `re.search` of line 25.
- `Extraction.Classify` is the fate of one `div.text` in lines 25-43.
- `Daily.Median` is `sorted(b)[len(b)//2]` of line 111.
- `Rolling.RollingAt` is the window mean of lines 139-141.
- `Plot.TickStart` and `Plot.AccuracyTicks` are the tick start and the
  `range(start, 101, 2)` of lines 87-88.

Number representation:
- Speeds and accuracies are natural numbers in tenths. The pattern allows at
  most one decimal digit, so `87.5` is 875 and `96` is 960.
- Means are exact `real`s.

An HTML document is the sequence of its `div.text` elements. Each element is
given with its text, whether `find_parent` finds an enclosing message div, and
the `title` of that message's date div, if any.

The files on disk are a map from file name to document.

## Model

| member | source | states |
|---|---|---|
| `Decimal.DigitRunEnd` | colemak_telegram_analysis.py:9 | the greedy `\d+`: every character in the run is a digit and the character after it is not |
| `Decimal.DigitRunEndOf` | colemak_telegram_analysis.py:9 | a block of digits followed by a non-digit is exactly the run `\d+` takes |
| `Decimal.Digits` | colemak_telegram_analysis.py:178 | `f"{file_num}"` writes at least one digit and no leading zero |
| `Decimal.ValueOfDigits` | colemak_telegram_analysis.py:178 | reading back the decimal writing of a number gives the number |
| `Decimal.DigitsInjective` | colemak_telegram_analysis.py:178 | two different numbers never have the same decimal writing |
| `Text.FindFrom` | colemak_telegram_analysis.py:38 | the leftmost occurrence of a literal at or after a position, or the end of the string when there is none |
| `Tag.NumberAtReads` | colemak_telegram_analysis.py:41-42 | what a number group reads is a number text (digits, or digits `.` digit), and the value read is that text's value in tenths |
| `Tag.MatchAtReads` | colemak_telegram_analysis.py:9 | only a tag text is matched: a match at a position means the tag with two well-formed numbers is written there, and the match covers exactly it and carries its two values |
| `Tag.SearchFromLeftmost` | colemak_telegram_analysis.py:25 | `re.search` reports the leftmost position where the pattern matches, and reports nothing only when it matches nowhere |
| `Tag.SearchFindsEveryTag` | colemak_telegram_analysis.py:25 | a text with the tag anywhere in it is matched, at that position or earlier |
| `Tag.SearchIffTag` | colemak_telegram_analysis.py:25-26 | a fragment is accepted exactly when it contains the tag text with two well-formed numbers, and the match reported is such a text with its own values |
| `Tag.NumberAtText` | colemak_telegram_analysis.py:41-42 | a written number of the form digits or digits `.` digit reads as its value in tenths, as `float` reads it |
| `Tag.MatchOfPieces` | colemak_telegram_analysis.py:9 | the five pieces of the tag in place give a match with the two values and the exact extent |
| `Tag.MatchTagText` | colemak_telegram_analysis.py:9 | a well-formed tag placed anywhere in a text is matched at its position, with its own values and extent |
| `Tag.RenderNumberReads` | colemak_telegram_analysis.py:41-42 | every value in tenths has a written form of the allowed shape that reads back to it |
| `Tag.MatchRendered` | colemak_telegram_analysis.py:9 | round trip: a tag written from any speed and accuracy is matched with exactly those values |
| `Tag.ExampleTag` | colemak_telegram_analysis.py:9 | `{layout=colemak_DH,wpm=87.5,accuracy=96%}` gives speed 87.5 and accuracy 96 |
| `Tag.AccuracyIsNotCapped` | colemak_telegram_analysis.py:9 | an accuracy of 250% is accepted as it is: nothing bounds accuracy by 100 |
| `Tag.TwoDecimalsRejected` | colemak_telegram_analysis.py:9 | a speed written with two decimal digits leaves a digit where `,accuracy=` must begin, so nothing matches at that position |
| `Tag.MissingIntegerPartRejected` | colemak_telegram_analysis.py:9 | a speed starting with `.` has no integer part, so nothing matches at that position |
| `Timestamp.CutAtUtc` | colemak_telegram_analysis.py:38 | `title.split(" UTC")[0]` is the prefix of the title before the first `" UTC"`, or the whole title when there is none |
| `Timestamp.ParseTimestamp` | colemak_telegram_analysis.py:39 | `strptime` with `%d.%m.%Y %H:%M:%S` yields only real calendar dates and times of day |
| `Timestamp.ParseIsExact` | colemak_telegram_analysis.py:39 | a string that is read is exactly the writing of the time it yields |
| `Timestamp.ParseFormat` | colemak_telegram_analysis.py:39 | round trip: every valid date and time, written in the format, is read back unchanged |
| `Timestamp.ParseExportedTitle` | colemak_telegram_analysis.py:38-39 | an exported title (time, `" UTC"`, zone offset) yields the time, whatever the offset |
| `Timestamp.ExampleTitle` | colemak_telegram_analysis.py:38-39 | `05.03.2024 14:22:10 UTC+00:00` is 5 March 2024, 14:22:10 |
| `Extraction.CrashStays` | colemak_telegram_analysis.py:39 | after the `ValueError` of `strptime`, later divs change nothing |
| `Extraction.ScanDocIsRun` | colemak_telegram_analysis.py:24-43 | parsing a document is running the loop over the outcomes of its divs in document order |
| `Extraction.SamplesWithinMatches` | colemak_telegram_analysis.py:25-43 | the counter is bumped before the parent and date checks, so a file never appends more samples than its match count |
| `Extraction.NonMatchingIgnored` | colemak_telegram_analysis.py:25-47 | divs without the tag change neither the samples nor the count |
| `Extraction.RunWithoutBadTimestamp` | colemak_telegram_analysis.py:24-43 | with no unreadable timestamp, the samples are those of the fully qualified divs, in document order, and the count is the number of matching divs |
| `Extraction.CrashIsFinal` | colemak_telegram_analysis.py:39 | once `strptime` has raised, the outcome no longer changes |
| `Extraction.RunStopsAtBadTimestamp` | colemak_telegram_analysis.py:24-43 | the first unreadable timestamp ends the parse: the samples before it stay, and its own match is counted |
| `Extraction.ExampleDiv` | colemak_telegram_analysis.py:24-43 | a tagged div in a message whose title is `05.03.2024 14:22:10 UTC+00:00` gives the sample (that time, 87.5, 96) |
| `Extraction.ScanDocValid` | colemak_telegram_analysis.py:37-43 | every sample appended carries a timestamp `strptime` read, so a real calendar date and time of day |
| `Extraction.SampleLog.constructor` | colemak_telegram_analysis.py:10 | `filtered_data` starts empty |
| `Extraction.SampleLog.ParseHtml` | colemak_telegram_analysis.py:20-48 | the existing samples stay, the document's samples are appended at the end, and the match count or the `ValueError` is returned |
| `FileNames.FileName` | colemak_telegram_analysis.py:167-178 | every name tried begins with `messages` |
| `FileNames.FileNamesDiffer` | colemak_telegram_analysis.py:167-178 | no name is tried twice |
| `FileNames.NotTriedBefore` | colemak_telegram_analysis.py:169-178 | a name is never among the names tried before it |
| `FileNames.UntriedShrinks` | colemak_telegram_analysis.py:169-178 | each name found leaves fewer existing names untried, so the loop ends |
| `Discovery.RunFromEndsAtGap` | colemak_telegram_analysis.py:169-178 | counting from a name on, every counted name exists and the next one does not |
| `Discovery.DiscoveredCount` | colemak_telegram_analysis.py:169-178 | every name up to the count exists and the next one does not |
| `Discovery.DiscoveredIsLongest` | colemak_telegram_analysis.py:169-178 | the count is at least the length of every existing prefix of the name sequence |
| `Discovery.DiscoveredCountIs` | colemak_telegram_analysis.py:169-178 | an existing prefix followed by a missing name fixes the count, whatever exists further on |
| `Discovery.StopsAtFirstGap` | colemak_telegram_analysis.py:169-178 | with `messages.html`, `messages2.html` and `messages4.html` present, two files are parsed |
| `Discovery.CountedAt` | colemak_telegram_analysis.py:173 | entry `i` of `match_counts` is the `i+1`-th name and that file's match count |
| `Discovery.CollectedValid` | colemak_telegram_analysis.py:169-173 | every sample collected from the files carries a real calendar date and time of day |
| `Discovery.LoopExit` | colemak_telegram_analysis.py:169-178 | the loop stops at the first missing name, or earlier at the first file whose timestamp raised, and it raised exactly when some discovered file has an unreadable timestamp |
| `Discovery.ParseAllFiles` | colemak_telegram_analysis.py:164-178 | the loop parses the discovered files in name order, with one count per file; it reports a crash exactly when some discovered file has an unreadable timestamp, and then stops at the first such file, keeping the samples before it |
| `Ordering.InsertBy` | colemak_telegram_analysis.py:111 | inserting into an ordered list keeps it ordered and adds exactly that element |
| `Ordering.SortBy` | colemak_telegram_analysis.py:111 | `sorted` returns an ordered rearrangement of its input |
| `Ordering.SortBySorted` | colemak_telegram_analysis.py:111 | sorting an ordered list changes nothing |
| `Ordering.Max` | colemak_telegram_analysis.py:109 | `max` returns an element that no element exceeds |
| `Ordering.Min` | colemak_telegram_analysis.py:110 | `min` returns an element that exceeds no element |
| `Daily.BucketByDay` | colemak_telegram_analysis.py:103-108 | the loop gives keys in first-seen order, each with the speeds of its day in sample order |
| `Daily.KeysAreSampleDays` | colemak_telegram_analysis.py:103-108 | a day is a key exactly when some sample falls on it |
| `Daily.BucketsNonEmpty` | colemak_telegram_analysis.py:103-106 | a day has a non-empty bucket exactly when it is a key |
| `Daily.DayKeysDistinct` | colemak_telegram_analysis.py:108 | no day is a key twice |
| `Daily.DayKeysGrow` | colemak_telegram_analysis.py:103-108 | keys are only added at the end, so the keys of earlier samples lead the keys of all |
| `Daily.BucketsPartition` | colemak_telegram_analysis.py:103-108 | the buckets, one after another in key order, are a permutation of all the speeds |
| `Daily.MedianBetween` | colemak_telegram_analysis.py:111 | the median is a value of the bucket, between its minimum and its maximum |
| `Daily.MedianOfOrdered` | colemak_telegram_analysis.py:111 | on an ordered bucket the median is the element at index `len//2` |
| `Daily.MedianOfTwo` | colemak_telegram_analysis.py:111 | for two values the median is the larger one, the upper middle element |
| `Daily.StatsOrdered` | colemak_telegram_analysis.py:109-111 | one maximum, minimum and median per day, with min ≤ median ≤ max, all values of that day |
| `Rolling.DateKeyChronological` | colemak_telegram_analysis.py:136 | ordering valid days by `YYYYMMDD` is ordering them by date |
| `Rolling.SortedDaysChronological` | colemak_telegram_analysis.py:136 | `sorted(wpm_by_day.keys())` rearranges the days into chronological order |
| `Rolling.SortedDaysStrictlyChronological` | colemak_telegram_analysis.py:136 | distinct valid days, once sorted, run strictly forward in the calendar |
| `Rolling.WindowShape` | colemak_telegram_analysis.py:139 | the window of day `i` holds `min(7, i+1)` consecutive days ending with day `i` |
| `Rolling.MeanBetween` | colemak_telegram_analysis.py:141 | a mean lies between any bounds of the values averaged |
| `Rolling.DayMeanBetween` | colemak_telegram_analysis.py:140 | a day's mean lies between its slowest and fastest speed |
| `Rolling.RollingAverages` | colemak_telegram_analysis.py:137-142 | one entry per sorted day, entry `i` the mean of the day means of its window |
| `Rolling.RollingBetween` | colemak_telegram_analysis.py:139-141 | each rolling average lies between the smallest and the largest day mean of its window |
| `Rolling.RollingIsLocal` | colemak_telegram_analysis.py:139-140 | each rolling average depends only on the buckets of the days in its window |
| `Rolling.RollingFirstDay` | colemak_telegram_analysis.py:139-141 | the first day's average is that day's mean |
| `Rolling.ExampleThreeDays` | colemak_telegram_analysis.py:135-142 | day means 60, 62 and 64 give 62.0 on the third day, averaged over the three days available |
| `Plot.TickStartIsLargestEven` | colemak_telegram_analysis.py:85-87 | the first tick is the largest even whole percentage not above the minimum accuracy |
| `Plot.TicksFromShape` | colemak_telegram_analysis.py:88 | the ticks rise by 2 from the start and stay within 100, with none when the start is above 100 |
| `Plot.NoTicksAboveHundred` | colemak_telegram_analysis.py:85-88 | a minimum accuracy of 102% or more leaves no ticks; 101.9% leaves only 100 |
| `Plot.DaysValid` | colemak_telegram_analysis.py:105-108 | the day keys of samples with real moments are real calendar days |
| `Plot.PlotData` | colemak_telegram_analysis.py:51-142 | no charts for no samples; otherwise ticks, day keys, per-day stats, sorted days and rolling averages, each as defined above, with the sorted days strictly chronological when every sample's moment is real |
| `Script.RunScript` | colemak_telegram_analysis.py:163-185 | the run crashes exactly when a discovered file has an unreadable timestamp, and then draws no chart; otherwise one count per discovered file, and charts exactly when some sample was collected, with all their contents and the days in calendar order |

## Left out

- HTML parsing and tree navigation (`BeautifulSoup`, `find_all`, `find_parent`, `find`) are not modelled. A document is given as the sequence of its `div.text` elements, each with what the navigation would find.
- File reading and `os.path.exists` are not modelled. The files are a map from name to document, and a name exists exactly when it is a key.
- All printing (`print_colored`, the progress lines and the summary) is left out as output only. So is every matplotlib call (figures, axes, locators, limits, `savefig`).
- The `zip(*filtered_data)` unpacking is not modelled as a step; the model reads time, speed and accuracy from each sample directly (`Daily.DayOf`, `Daily.Wpms`, `Plot.Accuracies`).
- Python floats are not modelled. Values are exact tenths, and means are exact reals, with no rounding.
- `Timestamp.ParseTimestamp`: reads only fixed-width fields (two-digit day, month, hour, minute and second, four-digit year) separated by exactly one space. `strptime` also accepts one-digit fields such as `5.3.2024 9:05:00`, a space-padded day such as ` 5.03.2024`, and any run of whitespace where the format has its single space. The model treats all of those as a failure, which is the crash path. Exported titles always use the fixed width and one space.
- The regex is modelled on ASCII digits. Python's `\d` also matches other Unicode decimal digits, which an exported tag does not contain.
- A `ValueError` from `strptime` is modelled as a `Crashed` outcome that ends the run before any chart is drawn. In the source the exception is uncaught.

Three behaviours of the script are easy to misread:
- Accuracy is not capped at 100; see `Tag.AccuracyIsNotCapped`.
- For an even-sized day, the "median" `sorted(b)[len(b)//2]` is the upper of the two middle values; see `Daily.MedianOfTwo`.
- The 7-day rolling average is over each day's mean speed, not its median.
