/** The reactor reports of aoc_2024/src/bin/day2.rs.

    A report is a list of levels. It is safe when its levels change steadily
    in one direction, by 1 to 3 at each step; with the problem dampener, a
    report also counts when leaving out a single level makes it safe. */
module ReportSafety {
  import opened Wrappers
  import Text

  type Report = seq<int>

  function Abs(x: int): nat
  {
    if x < 0 then -x else x
  }

  // ---------------------------------------------------------------------------
  // Safety
  // ---------------------------------------------------------------------------

  /** The closure given to `all` for the window (a, b): the difference a - b
      has the required sign and a magnitude from 1 to 3. */
  predicate WindowOk(a: int, b: int, increasing: bool)
  {
    var diff := a - b;
    (if increasing then diff < 0 else diff > 0) && Abs(diff) >= 1 && Abs(diff) <= 3
  }

  /** `tuple_windows().all(..)` over the windows starting at index i or later. */
  predicate AllWindowsFrom(report: Report, i: nat, increasing: bool)
    decreases |report| - i
  {
    i + 1 >= |report|
    || (WindowOk(report[i], report[i + 1], increasing) && AllWindowsFrom(report, i + 1, increasing))
  }

  /** `is_safe`: every window increases by 1 to 3, or every window decreases
      by 1 to 3. A report of at most one level has no windows and is safe. */
  function IsSafe(report: Report): (safe: bool)
    ensures |report| <= 1 ==> safe
  {
    AllWindowsFrom(report, 0, true) || AllWindowsFrom(report, 0, false)
  }

  /** Each level is 1 to 3 above the one before. */
  predicate Increasing(report: Report)
  {
    forall i :: 0 <= i < |report| - 1 ==> 1 <= report[i + 1] - report[i] <= 3
  }

  /** Each level is 1 to 3 below the one before. */
  predicate Decreasing(report: Report)
  {
    forall i :: 0 <= i < |report| - 1 ==> 1 <= report[i] - report[i + 1] <= 3
  }

  lemma {:induction false} AllWindowsFromMeans(report: Report, i: nat, increasing: bool)
    ensures AllWindowsFrom(report, i, increasing) <==>
            forall k :: i <= k < |report| - 1 ==>
              if increasing then 1 <= report[k + 1] - report[k] <= 3 else 1 <= report[k] - report[k + 1] <= 3
    decreases |report| - i
  {
    if i + 1 < |report| {
      AllWindowsFromMeans(report, i + 1, increasing);
    }
  }

  /** `is_safe` holds exactly for the steadily increasing and the steadily
      decreasing reports. */
  lemma {:induction false} IsSafeMeans(report: Report)
    ensures IsSafe(report) <==> Increasing(report) || Decreasing(report)
  {
    AllWindowsFromMeans(report, 0, true);
    AllWindowsFromMeans(report, 0, false);
  }

  /** Every run of consecutive levels of a safe report is safe. */
  lemma {:induction false} SafeSlice(report: Report, a: nat, b: nat)
    requires IsSafe(report) && a <= b <= |report|
    ensures IsSafe(report[a..b])
  {
    IsSafeMeans(report);
    var part := report[a..b];
    if Increasing(report) {
      forall i | 0 <= i < |part| - 1
        ensures 1 <= part[i + 1] - part[i] <= 3
      {
        assert part[i] == report[a + i] && part[i + 1] == report[a + i + 1];
      }
    } else {
      forall i | 0 <= i < |part| - 1
        ensures 1 <= part[i] - part[i + 1] <= 3
      {
        assert part[i] == report[a + i] && part[i + 1] == report[a + i + 1];
      }
    }
    IsSafeMeans(part);
  }

  // ---------------------------------------------------------------------------
  // The problem dampener
  // ---------------------------------------------------------------------------

  /** The report with the level at index i left out (the `filter_map` over
      `enumerate` that drops index i). */
  function RemoveAt(report: Report, i: nat): (trimmed: Report)
    requires i < |report|
    ensures |trimmed| == |report| - 1
    ensures forall k :: 0 <= k < i ==> trimmed[k] == report[k]
    ensures forall k :: i <= k < |trimmed| ==> trimmed[k] == report[k + 1]
  {
    report[..i] + report[i + 1..]
  }

  /** `(i..len).any(..)`: some removal at index i or later is safe. */
  predicate AnyRemovalSafeFrom(report: Report, i: nat)
    decreases |report| - i
  {
    i < |report| && (IsSafe(RemoveAt(report, i)) || AnyRemovalSafeFrom(report, i + 1))
  }

  /** `is_safe_with_dampener`: some single removal leaves a safe report. The
      empty report has nothing to remove and is not dampener-safe. */
  function IsSafeWithDampener(report: Report): (safe: bool)
    ensures |report| == 0 ==> !safe
  {
    AnyRemovalSafeFrom(report, 0)
  }

  lemma {:induction false} AnyRemovalSafeFromMeans(report: Report, i: nat)
    ensures AnyRemovalSafeFrom(report, i) <==> exists k :: i <= k < |report| && IsSafe(RemoveAt(report, k))
    decreases |report| - i
  {
    if i < |report| {
      AnyRemovalSafeFromMeans(report, i + 1);
      if exists k :: i <= k < |report| && IsSafe(RemoveAt(report, k)) {
        var k :| i <= k < |report| && IsSafe(RemoveAt(report, k));
        if k > i {
          assert i + 1 <= k;
        }
      }
    }
  }

  /** Dampener-safe means that leaving out some one level gives a safe
      report. */
  lemma {:induction false} DampenerMeans(report: Report)
    ensures IsSafeWithDampener(report) <==> exists k :: 0 <= k < |report| && IsSafe(RemoveAt(report, k))
  {
    AnyRemovalSafeFromMeans(report, 0);
  }

  /** A safe report with at least one level stays safe under the dampener:
      leaving out its first level keeps every remaining window. */
  lemma {:induction false} SafeIsDampenerSafe(report: Report)
    requires IsSafe(report) && |report| > 0
    ensures IsSafeWithDampener(report)
  {
    assert RemoveAt(report, 0) == report[1..] == report[1..|report|];
    SafeSlice(report, 1, |report|);
    DampenerMeans(report);
  }

  // ---------------------------------------------------------------------------
  // Counting
  // ---------------------------------------------------------------------------

  /** The number of safe reports among the first k, with or without the
      dampener (`filter(..).count()`). */
  function SafeCountUpTo(reports: seq<Report>, k: nat, dampened: bool): (n: nat)
    requires k <= |reports|
    ensures n <= k
  {
    if k == 0 then 0
    else
      var safe := if dampened then IsSafeWithDampener(reports[k - 1]) else IsSafe(reports[k - 1]);
      SafeCountUpTo(reports, k - 1, dampened) + (if safe then 1 else 0)
  }

  /** `num_of_safe_reports`. */
  function NumOfSafeReports(reports: seq<Report>): nat
  {
    SafeCountUpTo(reports, |reports|, false)
  }

  /** `num_of_safe_reports_with_dampener`. */
  function NumOfSafeReportsWithDampener(reports: seq<Report>): nat
  {
    SafeCountUpTo(reports, |reports|, true)
  }

  /** The indices of the safe reports among the first k. */
  function SafeIndices(reports: seq<Report>, k: nat, dampened: bool): set<nat>
    requires k <= |reports|
  {
    set i: nat | i < k && (if dampened then IsSafeWithDampener(reports[i]) else IsSafe(reports[i]))
  }

  lemma {:induction false} SafeCountIsCardinality(reports: seq<Report>, k: nat, dampened: bool)
    requires k <= |reports|
    ensures SafeCountUpTo(reports, k, dampened) == |SafeIndices(reports, k, dampened)|
  {
    if k > 0 {
      SafeCountIsCardinality(reports, k - 1, dampened);
      var before := SafeIndices(reports, k - 1, dampened);
      var safe := if dampened then IsSafeWithDampener(reports[k - 1]) else IsSafe(reports[k - 1]);
      if safe {
        assert SafeIndices(reports, k, dampened) == before + {k - 1};
      } else {
        assert SafeIndices(reports, k, dampened) == before;
      }
    }
  }

  /** The counts are the numbers of safe reports, so neither exceeds the
      number of reports. */
  lemma {:induction false} CountsAreCardinalities(reports: seq<Report>)
    ensures NumOfSafeReports(reports) == |SafeIndices(reports, |reports|, false)|
    ensures NumOfSafeReportsWithDampener(reports) == |SafeIndices(reports, |reports|, true)|
    ensures NumOfSafeReports(reports) <= |reports| && NumOfSafeReportsWithDampener(reports) <= |reports|
  {
    SafeCountIsCardinality(reports, |reports|, false);
    SafeCountIsCardinality(reports, |reports|, true);
  }

  /** When no report is empty, the dampener can only add safe reports. */
  lemma {:induction false} DampenerCountsMore(reports: seq<Report>, k: nat)
    requires k <= |reports|
    requires forall i :: 0 <= i < |reports| ==> |reports[i]| > 0
    ensures SafeCountUpTo(reports, k, false) <= SafeCountUpTo(reports, k, true)
  {
    if k > 0 {
      DampenerCountsMore(reports, k - 1);
      if IsSafe(reports[k - 1]) {
        SafeIsDampenerSafe(reports[k - 1]);
      }
    }
  }

  // ---------------------------------------------------------------------------
  // Parsing
  // ---------------------------------------------------------------------------

  /** Collecting the level texts of one line into a report: every piece must
      parse as an `i32`. */
  function ParseLevels(pieces: seq<string>): (r: Result<Report>)
    ensures r.Ok? <==> forall k :: 0 <= k < |pieces| ==> Text.ParseI32(pieces[k]).Some?
    ensures r.Ok? ==> |r.value| == |pieces|
    ensures r.Ok? ==> forall k :: 0 <= k < |pieces| ==> r.value[k] == Text.ParseI32(pieces[k]).value
  {
    if pieces == [] then Ok([])
    else
      var first := Text.ParseI32(pieces[0]);
      var rest := ParseLevels(pieces[1..]);
      if first.None? then Err
      else if rest.Err? then Err
      else Ok([first.value] + rest.value)
  }

  /** One report line: trimmed, then split on single spaces. */
  function ParseReport(line: string): Result<Report>
  {
    ParseLevels(Text.Split(Text.Trim(line), ' '))
  }

  /** Collecting the lines parsed by `parse` into reports: the first line
      that fails fails the whole collection. */
  function CollectReports(lines: seq<string>, parse: string -> Result<Report>): (r: Result<seq<Report>>)
    ensures r.Ok? <==> forall k :: 0 <= k < |lines| ==> parse(lines[k]).Ok?
    ensures r.Ok? ==> |r.value| == |lines|
    ensures r.Ok? ==> forall k :: 0 <= k < |lines| ==> r.value[k] == parse(lines[k]).value
  {
    if lines == [] then Ok([])
    else
      var first := parse(lines[0]);
      var rest := CollectReports(lines[1..], parse);
      if first.Err? then Err
      else if rest.Err? then Err
      else Ok([first.value] + rest.value)
  }

  function ParseReportLines(lines: seq<string>): (r: Result<seq<Report>>)
    ensures r.Ok? <==> forall k :: 0 <= k < |lines| ==> ParseReport(lines[k]).Ok?
    ensures r.Ok? ==> |r.value| == |lines|
    ensures r.Ok? ==> forall k :: 0 <= k < |lines| ==> r.value[k] == ParseReport(lines[k]).value
  {
    CollectReports(lines, ParseReport)
  }

  /** `ReportData::from_str`: one report per piece of the text split at every
      line feed; the whole parse fails if any level of any line fails. */
  function ParseReportData(s: string): Result<seq<Report>>
  {
    ParseReportLines(Text.Split(s, '\n'))
  }

  /** A blank line has no levels to parse: the empty text between two spaces,
      or the whole empty line, is not an `i32`. */
  lemma {:induction false} EmptyLineRejected()
    ensures ParseReport([]).Err?
  {
    assert Text.Split([], ' ') == [[]];
    assert Text.ParseI32([]).None?;
  }

  /** Since the text is split at every line feed, not into lines, an input
      ending in a line feed has an empty last line and is rejected. */
  lemma {:induction false} TrailingLineFeedRejected(s: string)
    ensures ParseReportData(s + ['\n']).Err?
  {
    Text.SplitTrailingSeparator(s, '\n');
    var lines := Text.Split(s + ['\n'], '\n');
    assert lines[|lines| - 1] == [];
    EmptyLineRejected();
  }

  // ---------------------------------------------------------------------------
  // Writing reports in the input layout
  // ---------------------------------------------------------------------------

  /** A level as the input writes it: its decimal digits, after a '-' when
      it is negative. */
  function LevelText(level: int): string
  {
    if level >= 0 then Text.DecimalString(level) else "-" + Text.DecimalString(-level)
  }

  function LevelTexts(report: Report): seq<string>
  {
    seq(|report|, k requires 0 <= k < |report| => LevelText(report[k]))
  }

  /** An indentation made of spaces, as in the indented test input. */
  predicate IsIndent(indent: string)
  {
    forall k :: 0 <= k < |indent| ==> indent[k] == ' '
  }

  predicate LevelsInRange(report: Report)
  {
    forall k :: 0 <= k < |report| ==> Text.I32_MIN <= report[k] <= Text.I32_MAX
  }

  /** Reports that can be written as input lines: each has a level. */
  predicate NonEmptyReports(reports: seq<Report>)
  {
    forall i :: 0 <= i < |reports| ==> |reports[i]| >= 1
  }

  /** One report line: an indentation, then the levels separated by single
      spaces. */
  function ReportLine(indent: string, report: Report): string
    requires |report| >= 1
  {
    indent + Text.Join(LevelTexts(report), ' ')
  }

  function ReportLines(indents: seq<string>, reports: seq<Report>): seq<string>
    requires |indents| == |reports| && NonEmptyReports(reports)
  {
    seq(|reports|, i requires 0 <= i < |reports| => ReportLine(indents[i], reports[i]))
  }

  /** The input text: the report lines, each with its own indentation,
      separated by line feeds and with no line feed at the end. */
  function ReportText(indents: seq<string>, reports: seq<Report>): string
    requires |reports| >= 1 && |indents| == |reports| && NonEmptyReports(reports)
  {
    Text.Join(ReportLines(indents, reports), '\n')
  }

  /** A written level is a single token: digits, after a '-' when negative. */
  lemma {:induction false} LevelTextToken(level: int)
    ensures Text.IsToken(LevelText(level))
  {
    var t := LevelText(level);
    assert forall k :: 0 <= k < |t| ==> t[k] == '-' || Text.IsDigit(t[k]);
  }

  /** Every level of an `i32` reads back from its written form. */
  lemma {:induction false} LevelTextParses(level: int)
    requires Text.I32_MIN <= level <= Text.I32_MAX
    ensures Text.ParseI32(LevelText(level)) == Some(level)
  {
    Text.ParsePrinted(level, true, Text.I32_MIN, Text.I32_MAX);
  }

  /** Tokens joined by spaces neither start nor end with whitespace, and
      hold no line feed. */
  lemma {:induction false} JoinedTokens(pieces: seq<string>)
    requires |pieces| >= 1 && forall k :: 0 <= k < |pieces| ==> Text.IsToken(pieces[k])
    ensures var j := Text.Join(pieces, ' ');
            j != [] && !Text.IsWhitespace(j[0]) && !Text.IsWhitespace(j[|j| - 1]) && '\n' !in j
    decreases |pieces|
  {
    var j := Text.Join(pieces, ' ');
    assert Text.IsWhitespace('\n');
    forall k | 0 <= k < |pieces|
      ensures '\n' !in pieces[k]
    {
      Text.TokenAvoids(pieces[k], '\n');
    }
    Text.JoinAvoids(pieces, ' ', '\n');
    if |pieces| > 1 {
      JoinedTokens(pieces[1..]);
      var rest := Text.Join(pieces[1..], ' ');
      assert j == pieces[0] + [' '] + rest;
      assert j[0] == pieces[0][0] && j[|j| - 1] == rest[|rest| - 1];
    } else {
      assert j == pieces[0];
    }
  }

  /** The written levels of a report are tokens, without spaces, that read
      back as the levels. */
  lemma {:induction false} LevelTextsParse(report: Report)
    requires LevelsInRange(report)
    ensures forall k :: 0 <= k < |report| ==> Text.IsToken(LevelTexts(report)[k]) && ' ' !in LevelTexts(report)[k]
    ensures ParseLevels(LevelTexts(report)) == Ok(report)
  {
    var pieces := LevelTexts(report);
    forall k | 0 <= k < |pieces|
      ensures Text.IsToken(pieces[k]) && ' ' !in pieces[k]
      ensures Text.ParseI32(pieces[k]) == Some(report[k])
    {
      LevelTextToken(report[k]);
      Text.TokenAvoids(pieces[k], ' ');
      LevelTextParses(report[k]);
    }
    var r := ParseLevels(pieces);
    assert r.Ok? && |r.value| == |report|;
    assert r.value == report;
  }

  /** A report line reads back as its report, and holds no line feed. */
  lemma {:induction false} ReportLineParses(indent: string, report: Report)
    requires IsIndent(indent) && |report| >= 1 && LevelsInRange(report)
    ensures ParseReport(ReportLine(indent, report)) == Ok(report)
    ensures '\n' !in ReportLine(indent, report)
  {
    var pieces := LevelTexts(report);
    LevelTextsParse(report);
    JoinedTokens(pieces);
    var j := Text.Join(pieces, ' ');
    assert Text.AllWhitespace(indent) by {
      assert forall k :: 0 <= k < |indent| ==> indent[k] == ' ';
    }
    Text.TrimPadded(indent, j);
    Text.JoinSplit(pieces, ' ');
    assert '\n' !in indent by {
      assert forall k :: 0 <= k < |indent| ==> indent[k] != '\n';
    }
  }

  /** Reading a written input gives back its reports, whatever the
      indentation of each line. */
  lemma {:induction false} ReportDataRoundTrip(indents: seq<string>, reports: seq<Report>)
    requires |reports| >= 1 && |indents| == |reports| && NonEmptyReports(reports)
    requires forall i :: 0 <= i < |indents| ==> IsIndent(indents[i])
    requires forall i :: 0 <= i < |reports| ==> LevelsInRange(reports[i])
    ensures ParseReportData(ReportText(indents, reports)) == Ok(reports)
  {
    var lines := ReportLines(indents, reports);
    forall i | 0 <= i < |lines|
      ensures ParseReport(lines[i]) == Ok(reports[i]) && '\n' !in lines[i]
    {
      ReportLineParses(indents[i], reports[i]);
    }
    Text.JoinSplit(lines, '\n');
    ParseEachLine(lines, reports);
  }

  /** Lines that each read as their report read together as the reports. */
  lemma {:induction false} ParseEachLine(lines: seq<string>, reports: seq<Report>)
    requires |lines| == |reports|
    requires forall i :: 0 <= i < |lines| ==> ParseReport(lines[i]) == Ok(reports[i])
    ensures ParseReportLines(lines) == Ok(reports)
  {
    var r := ParseReportLines(lines);
    assert r.Ok? && |r.value| == |reports|;
    assert r.value == reports;
  }

  // ---------------------------------------------------------------------------
  // The sample reports
  // ---------------------------------------------------------------------------

  /** The unit cases: two safe reports and one with a jump of 5. */
  lemma {:induction false} SampleSafety()
    ensures IsSafe([7, 6, 4, 2, 1])
    ensures IsSafe([1, 3, 5, 7])
    ensures !IsSafe([1, 2, 7, 8])
  {
  }

  function SampleReports(): seq<Report>
  {
    [[7, 6, 4, 2, 1], [1, 2, 7, 8], [9, 7, 6, 2, 1], [1, 3, 2, 4, 5, 6, 7, 8], [8, 6, 4, 4, 1], [1, 3, 6, 7, 9]]
  }

  /** Two of the sample reports are safe. */
  lemma {:induction false} SampleSafeCount()
    ensures NumOfSafeReports(SampleReports()) == 2
  {
  }

  /** [1, 2, 7, 8] cannot be made safe by leaving out one level. */
  lemma {:induction false} SampleUndampenableRising()
    ensures !IsSafeWithDampener([1, 2, 7, 8])
  {
    var a: Report := [1, 2, 7, 8];
    DampenerMeans(a);
    forall k | 0 <= k < |a|
      ensures !IsSafe(RemoveAt(a, k))
    {
      if k == 0 {
        assert RemoveAt(a, 0) == [2, 7, 8];
      } else if k == 1 {
        assert RemoveAt(a, 1) == [1, 7, 8];
      } else if k == 2 {
        assert RemoveAt(a, 2) == [1, 2, 8];
      } else {
        assert RemoveAt(a, 3) == [1, 2, 7];
      }
    }
  }

  /** [9, 7, 6, 2, 1] cannot be made safe by leaving out one level. */
  lemma {:induction false} SampleUndampenableFalling()
    ensures !IsSafeWithDampener([9, 7, 6, 2, 1])
  {
    var b: Report := [9, 7, 6, 2, 1];
    DampenerMeans(b);
    forall k | 0 <= k < |b|
      ensures !IsSafe(RemoveAt(b, k))
    {
      if k == 0 {
        assert RemoveAt(b, 0) == [7, 6, 2, 1];
      } else if k == 1 {
        assert RemoveAt(b, 1) == [9, 6, 2, 1];
      } else if k == 2 {
        assert RemoveAt(b, 2) == [9, 7, 2, 1];
      } else if k == 3 {
        assert RemoveAt(b, 3) == [9, 7, 6, 1];
      } else {
        assert RemoveAt(b, 4) == [9, 7, 6, 2];
      }
    }
  }

  /** With the dampener, four of the sample reports are safe: the second
      level of [1, 3, 2, 4, 5, 6, 7, 8] and the third of [8, 6, 4, 4, 1] can
      go. */
  lemma {:induction false} SampleDampenedCount()
    ensures NumOfSafeReportsWithDampener(SampleReports()) == 4
  {
    var r := SampleReports();
    SafeIsDampenerSafe(r[0]);
    SafeIsDampenerSafe(r[5]);
    SampleUndampenableRising();
    SampleUndampenableFalling();
    SampleDampenedRising();
    SampleDampenedFalling();
  }

  /** Leaving out the 3 of [1, 3, 2, 4, 5, 6, 7, 8] makes it safe. */
  lemma {:induction false} SampleDampenedRising()
    ensures IsSafeWithDampener([1, 3, 2, 4, 5, 6, 7, 8])
  {
    var a: Report := [1, 3, 2, 4, 5, 6, 7, 8];
    assert RemoveAt(a, 1) == [1, 2, 4, 5, 6, 7, 8];
    assert IsSafe([1, 2, 4, 5, 6, 7, 8]);
    DampenerMeans(a);
  }

  /** Leaving out one 4 of [8, 6, 4, 4, 1] makes it safe. */
  lemma {:induction false} SampleDampenedFalling()
    ensures IsSafeWithDampener([8, 6, 4, 4, 1])
  {
    var b: Report := [8, 6, 4, 4, 1];
    assert RemoveAt(b, 2) == [8, 6, 4, 1];
    assert IsSafe([8, 6, 4, 1]);
    DampenerMeans(b);
  }

  /** The indentation of the test input: none on the first line, eight
      spaces on each of the five others. */
  function SampleIndents(): seq<string>
  {
    [""] + seq(5, _ => "        ")
  }

  /** The text of the parsing test: the six sample reports, one per line. */
  function SampleReportText(): string
  {
    ReportText(SampleIndents(), SampleReports())
  }

  /** The parsing test: the text reads as the six sample reports. */
  lemma {:induction false} SampleReportData()
    ensures ParseReportData(SampleReportText()) == Ok(SampleReports())
  {
    ReportDataRoundTrip(SampleIndents(), SampleReports());
  }
}
