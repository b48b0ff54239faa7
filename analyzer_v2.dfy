/** log_analyzer_v2.py: the per-file analysis with a time window that stops at the first late
    line, every rule tried case-insensitively, statistics and a bar chart per message; the fold of
    the per-file results in the main process; the walk from a file up to its node directory; and
    the way the main script applies the file filters. Line stamps carry `strptime`'s year 1900;
    the window is a pair of stamps given by the caller (see `RestampedWindowSkipsAll`). */
module AnalyzerV2 {
  import opened Base
  import opened Text
  import opened Calendar
  import opened Seqs
  import opened Occurrences
  import opened LogLib

  /** The `previousTime` the loop starts from. */
  const InitialTime: string := "0101 00:00"

  /** The initial `previousTime` stands for 1 January, midnight. */
  lemma InitialTimeParses()
    ensures ParseShort(InitialTime, DefaultYear) == Some(Stamp(DefaultYear, 1, 1, 0, 0, 0))
  {
    var t := Stamp(DefaultYear, 1, 1, 0, 0, 0);
    ParseFormatShort(t);
    assert FormatShort(t) == InitialTime;
  }

  /** Lines as iterating over a text file yields them: each keeps at least its line break, except
      possibly the last, which is never empty either. */
  predicate NonEmptyLines(ls: seq<string>)
  {
    forall k :: 0 <= k < |ls| ==> |ls[k]| > 0
  }

  // ---------------------------------------------------------------------------------------------
  // getTimeFromLog(line, previousTime)

  /** The stamp of one line, in the year 1900 and to the minute. A glog line gives the MMDD of its
      first word and the first five characters of its second; any other line is read as
      `%Y-%m-%d %H:%M:%S.%f` from its first two words, printed as MMDD HH:MM and parsed again, which
      drops its year. Whatever fails falls back to `previous` parsed. */
  function ParseLine(line: string, previous: string): (t: Stamp)
    requires |line| > 0 && ParseShort(previous, DefaultYear).Some?
    ensures Valid(t) && t.year == DefaultYear && t.second == 0
  {
    var fallback := ParseShort(previous, DefaultYear).value;
    var parts := Split(line, ' ');
    if |parts| < 2 then fallback
    else if IsSeverity(line[0]) then
      match ParseShort(Drop(parts[0], 1) + " " + Take(parts[1], 5), DefaultYear)
      case Some(t) => t
      case None => fallback
    else
      match ParseFullFraction(parts[0] + " " + parts[1])
      case None => fallback
      case Some(u) =>
        match ParseShort(FormatShort(u), DefaultYear)
        case Some(t) => t
        case None => fallback
  }

  /** A glog line `<severity>MMDD HH:MM…` gives that month, day, hour and minute in 1900, whatever
      follows the minutes. */
  lemma {:induction false} GlogShortLine(sev: char, t: Stamp, rest: string, previous: string)
    requires IsSeverity(sev) && Valid(t) && t.year == DefaultYear && t.second == 0
    requires ParseShort(previous, DefaultYear).Some?
    ensures ParseLine([sev] + FormatShort(t) + rest, previous) == t
  {
    var md, hm := Pad2(t.month) + Pad2(t.day), Pad2(t.hour) + ":" + Pad2(t.minute);
    NoSpaceInDigits(Pad2(t.month));
    NoSpaceInDigits(Pad2(t.day));
    NoSpaceInDigits(Pad2(t.hour));
    NoSpaceInDigits(Pad2(t.minute));
    assert ' ' !in [sev] + md && ' ' !in hm;
    var line := [sev] + FormatShort(t) + rest;
    assert line == ([sev] + md) + [' '] + (hm + rest);
    SplitFirst([sev] + md, ' ', hm + rest);
    var parts := Split(line, ' ');
    SplitHeadConcat(hm, rest, ' ');
    assert parts[0] == [sev] + md && parts[1] == hm + Split(rest, ' ')[0];
    assert Drop(parts[0], 1) + " " + Take(parts[1], 5) == FormatShort(t);
    ParseFormatShort(t);
  }

  /** A database line `YYYY-MM-DD HH:MM:SS.ffffff …` gives its month, day, hour and minute in
      1900, its own year and seconds dropped; on 29 February it falls back to `previous`. */
  lemma DatabaseShortLine(u: Stamp, fraction: string, rest: string, previous: string)
    requires Valid(u) && 1 <= |fraction| <= 6 && AllDigits(fraction)
    requires rest == [] || rest[0] == ' '
    requires ParseShort(previous, DefaultYear).Some?
    ensures ParseLine(FormatFull(u) + "." + fraction + rest, previous)
            == if ValidDate(DefaultYear, u.month, u.day) then u.(year := DefaultYear, second := 0)
               else ParseShort(previous, DefaultYear).value
  {
    var line := FormatFull(u) + "." + fraction + rest;
    FullLineWords(u, fraction, rest);
    var parts := Split(line, ' ');
    var s := parts[0] + " " + parts[1];
    assert s == FormatFull(u) + "." + fraction;
    assert s[..19] == FormatFull(u) && s[20..] == fraction;
    ParseFormatFull(u);
    assert ParseFullFraction(s) == Some(u);
    assert !IsSeverity(line[0]);
    ReparseShort(u);
  }

  /** A line with no blank has no second word: it takes the stamp of the line before it. */
  lemma FallbackKeepsPrevious(line: string, t: Stamp)
    requires |line| > 0 && ' ' !in line
    requires Valid(t) && t.year == DefaultYear && t.second == 0
    ensures ParseShort(FormatShort(t), DefaultYear).Some?
    ensures ParseLine(line, FormatShort(t)) == t
  {
    SplitNoSep(line, ' ');
    ParseFormatShort(t);
  }

  // ---------------------------------------------------------------------------------------------
  // The line loop of analyzeLogFile

  /** `start_time` and `end_time`. */
  datatype Window = Window(start: Stamp, end: Stamp)

  /** The stamp the loop gives line `k` when it starts reading at line `i` after `previous`: each
      line falls back on the stamp of the line before it. */
  function StampAt(ls: seq<string>, i: nat, previous: string, k: nat): (t: Stamp)
    requires NonEmptyLines(ls) && i <= k < |ls| && ParseShort(previous, DefaultYear).Some?
    ensures Valid(t) && t.year == DefaultYear && t.second == 0
    decreases k - i
  {
    var t := ParseLine(ls[i], previous);
    if k == i then t
    else
      ParseFormatShort(t);
      StampAt(ls, i + 1, FormatShort(t), k)
  }

  /** The hits of a file from line `i` on, after the hits `acc` of the lines before: a line before
      the start is skipped, the first line after the end stops the reading, and every other line
      is classified against all rules, case ignored, and stamped with its MMDD HH:MM. */
  function ScanFrom(ls: seq<string>, i: nat, previous: string, w: Window, rules: seq<Rule>, matches: Matcher,
                    acc: seq<Hit>): seq<Hit>
    requires NonEmptyLines(ls) && i <= |ls| && ParseShort(previous, DefaultYear).Some?
    decreases |ls| - i
  {
    if i == |ls| then acc
    else
      var t := ParseLine(ls[i], previous);
      ParseFormatShort(t);
      var time := FormatShort(t);
      if Before(t, w.start) then ScanFrom(ls, i + 1, time, w, rules, matches, acc)
      else if Before(w.end, t) then acc
      else ScanFrom(ls, i + 1, time, w, rules, matches, acc + AllHits(ls[i], time, rules, matches, true))
  }

  /** The hits of a whole file. */
  function FileHits(ls: seq<string>, w: Window, rules: seq<Rule>, matches: Matcher): seq<Hit>
    requires NonEmptyLines(ls)
  {
    InitialTimeParses();
    ScanFrom(ls, 0, InitialTime, w, rules, matches, [])
  }

  /** An MMDD HH:MM time inside the window. */
  predicate InWindowTime(time: string, w: Window)
  {
    var t := ParseShort(time, DefaultYear);
    t.Some? && !Before(t.value, w.start) && !Before(w.end, t.value)
  }

  /** Every hit carries the time of a line inside the window. */
  predicate AllInWindow(hits: seq<Hit>, w: Window)
  {
    forall j :: 0 <= j < |hits| ==> InWindowTime(hits[j].time, w)
  }

  /** Only lines inside the window are classified: every hit carries the time of one. */
  lemma {:induction false} ScanInWindow(ls: seq<string>, i: nat, previous: string, w: Window, rules: seq<Rule>,
                                        matches: Matcher, acc: seq<Hit>)
    requires NonEmptyLines(ls) && i <= |ls| && ParseShort(previous, DefaultYear).Some?
    requires AllInWindow(acc, w)
    ensures AllInWindow(ScanFrom(ls, i, previous, w, rules, matches, acc), w)
    decreases |ls| - i
  {
    if i < |ls| {
      var t := ParseLine(ls[i], previous);
      ParseFormatShort(t);
      var time := FormatShort(t);
      if Before(t, w.start) {
        ScanInWindow(ls, i + 1, time, w, rules, matches, acc);
      } else if !Before(w.end, t) {
        AppendInWindow(acc, ls[i], time, rules, matches, w);
        ScanInWindow(ls, i + 1, time, w, rules, matches, acc + AllHits(ls[i], time, rules, matches, true));
      }
    }
  }

  /** The hits of one in-window line keep every hit in the window. */
  lemma AppendInWindow(acc: seq<Hit>, line: string, time: string, rules: seq<Rule>, matches: Matcher, w: Window)
    requires AllInWindow(acc, w) && InWindowTime(time, w)
    ensures AllInWindow(acc + AllHits(line, time, rules, matches, true), w)
  {
    AllHitsTimes(line, time, rules, matches, true);
    var all := acc + AllHits(line, time, rules, matches, true);
    forall j | 0 <= j < |all|
      ensures InWindowTime(all[j].time, w)
    {
      if j < |acc| {
        assert all[j] == acc[j];
      } else {
        assert all[j] == AllHits(line, time, rules, matches, true)[j - |acc|];
      }
    }
  }

  /** The early stop: once a line at or after the start lies after the end, the lines after it
      are never read, in-window or not. */
  lemma {:induction false} ScanStopsAtLateLine(ls: seq<string>, i: nat, previous: string, w: Window,
                                               rules: seq<Rule>, matches: Matcher, acc: seq<Hit>, k: nat)
    requires NonEmptyLines(ls) && i <= k < |ls| && ParseShort(previous, DefaultYear).Some?
    requires !Before(StampAt(ls, i, previous, k), w.start) && Before(w.end, StampAt(ls, i, previous, k))
    ensures ScanFrom(ls, i, previous, w, rules, matches, acc) == ScanFrom(ls[..k + 1], i, previous, w, rules, matches, acc)
    decreases k - i
  {
    var t := ParseLine(ls[i], previous);
    ParseFormatShort(t);
    var time := FormatShort(t);
    assert ls[..k + 1][i] == ls[i];
    if k > i {
      if Before(t, w.start) {
        ScanStopsAtLateLine(ls, i + 1, time, w, rules, matches, acc, k);
      } else if !Before(w.end, t) {
        ScanStopsAtLateLine(ls, i + 1, time, w, rules, matches, acc + AllHits(ls[i], time, rules, matches, true), k);
      }
    }
  }

  /** Line stamps are in the year 1900, so a window put in a later year (the main script re-stamps
      it with the current year before the workers start, which forked workers inherit) puts every
      line before the start: no line is ever classified. */
  lemma {:induction false} RestampedWindowSkipsAll(ls: seq<string>, i: nat, previous: string, w: Window,
                                                   rules: seq<Rule>, matches: Matcher, acc: seq<Hit>)
    requires NonEmptyLines(ls) && i <= |ls| && ParseShort(previous, DefaultYear).Some?
    requires w.start.year > DefaultYear
    ensures ScanFrom(ls, i, previous, w, rules, matches, acc) == acc
    decreases |ls| - i
  {
    if i < |ls| {
      var t := ParseLine(ls[i], previous);
      ParseFormatShort(t);
      RestampedWindowSkipsAll(ls, i + 1, FormatShort(t), w, rules, matches, acc);
    }
  }

  // ---------------------------------------------------------------------------------------------
  // analyzeLogFile

  /** What a worker returns: the four values of a normal exit, the three of an early exit (which
      the unpacking in the main loop cannot take), or an exception. */
  datatype Outcome =
    | Complete(errors: seq<string>, clean: seq<string>, chart: Chart, details: map<string, Table>)
    | Truncated(errors: seq<string>, clean: seq<string>, chart: Chart)
    | Crashed

  /** The rule table chosen by the file's base name, if any. */
  function RulesFor(path: string, universe: seq<Rule>, pg: seq<Rule>): (r: Option<seq<Rule>>)
    ensures r.Some? <==> Contains(Basename(path), "postgresql") || Contains(Basename(path), "tserver")
                         || Contains(Basename(path), "master")
    ensures r.Some? ==> r.value == if Contains(Basename(path), "postgresql") then pg else universe
  {
    var name := Basename(path);
    if Contains(name, "postgresql") then Some(pg)
    else if Contains(name, "tserver") || Contains(name, "master") then Some(universe)
    else None
  }

  /** Whether `getSolution(message)` returns: in histogram mode it gives a fixed placeholder for
      every message; otherwise it reads `solutions[message]`, which raises for a message with no
      entry. */
  predicate Solved(message: string, solutions: map<string, string>, histogramMode: bool)
  {
    histogramMode || message in solutions
  }

  /** One call, given the worker's lists before it. */
  function Analysis(path: string, content: FileContent, nodeName: string, w: Window, universe: seq<Rule>,
                    pg: seq<Rule>, matches: Matcher, solutions: map<string, string>, histogramMode: bool,
                    errors: seq<string>, clean: seq<string>): Outcome
    requires content.Lines? ==> NonEmptyLines(content.lines)
  {
    match RulesFor(path, universe, pg)
    case None => Truncated(errors, clean, map[])
    case Some(rules) =>
      match content
      case Unreadable => Truncated(errors, clean, map[])
      case Undecodable => Crashed
      case Lines(ls) => FileOutcome(path, ls, nodeName, w, rules, matches, solutions, histogramMode, errors, clean)
  }

  /** The outcome of a file whose lines were read. Each hit looks up its message's solution, so a
      message without one makes the worker raise. Otherwise its messages are appended to the error
      list, the file is appended to the list of clean files when it has none, and the node's
      details are the file's statistics. */
  function FileOutcome(path: string, ls: seq<string>, nodeName: string, w: Window, rules: seq<Rule>,
                       matches: Matcher, solutions: map<string, string>, histogramMode: bool,
                       errors: seq<string>, clean: seq<string>): Outcome
    requires NonEmptyLines(ls)
  {
    var hits := FileHits(ls, w, rules, matches);
    var table := Tabulate(hits);
    if exists m | m in table :: !Solved(m, solutions, histogramMode) then Crashed
    else
      Complete(errors + Names(hits), clean + (if table == map[] then [path] else []), Plot(hits),
               map[nodeName := table])
  }

  /** A message is in the statistics exactly when some hit carries it. */
  lemma {:induction false} TabulatedIffHit(hits: seq<Hit>, m: string)
    ensures m in Tabulate(hits) <==> exists k :: 0 <= k < |hits| && hits[k].message == m
  {
    if |hits| > 0 {
      var init := hits[..|hits| - 1];
      TabulatedIffHit(init, m);
      if m in Tabulate(init) {
        var k :| 0 <= k < |init| && init[k].message == m;
        assert hits[k] == init[k];
      }
      if exists k :: 0 <= k < |hits| && hits[k].message == m {
        var k :| 0 <= k < |hits| && hits[k].message == m;
        if k < |init| {
          assert init[k] == hits[k];
        }
      }
    }
  }

  /** The worker raises exactly when some hit in the window has a message without a solution;
      when it completes, every message in the node's details has one. */
  lemma UnsolvedHitCrashes(path: string, ls: seq<string>, nodeName: string, w: Window, rules: seq<Rule>,
                           matches: Matcher, solutions: map<string, string>, histogramMode: bool,
                           errors: seq<string>, clean: seq<string>)
    requires NonEmptyLines(ls)
    ensures var hits := FileHits(ls, w, rules, matches);
            var o := FileOutcome(path, ls, nodeName, w, rules, matches, solutions, histogramMode, errors, clean);
            && (o.Crashed? <==> exists k :: 0 <= k < |hits| && !Solved(hits[k].message, solutions, histogramMode))
            && (o.Complete? ==> forall m :: m in o.details[nodeName] ==> Solved(m, solutions, histogramMode))
  {
    var hits := FileHits(ls, w, rules, matches);
    if exists k :: 0 <= k < |hits| && !Solved(hits[k].message, solutions, histogramMode) {
      var k :| 0 <= k < |hits| && !Solved(hits[k].message, solutions, histogramMode);
      TabulatedIffHit(hits, hits[k].message);
    }
    forall m | m in Tabulate(hits)
      ensures exists k :: 0 <= k < |hits| && hits[k].message == m
    {
      TabulatedIffHit(hits, m);
    }
  }

  /** A worker process. Its two lists are module-level in the script: each call appends to what
      earlier calls in the same process left and returns the whole list. */
  class Worker {
    var errorsInFile: seq<string>
    var filesWithNoErrors: seq<string>

    constructor ()
      ensures errorsInFile == [] && filesWithNoErrors == []
    {
      errorsInFile := [];
      filesWithNoErrors := [];
    }

    method AnalyzeLogFile(path: string, content: FileContent, nodeName: string, w: Window,
                          universe: seq<Rule>, pg: seq<Rule>, matches: Matcher,
                          solutions: map<string, string>, histogramMode: bool) returns (o: Outcome)
      requires content.Lines? ==> NonEmptyLines(content.lines)
      modifies this
      ensures o == Analysis(path, content, nodeName, w, universe, pg, matches, solutions, histogramMode,
                            old(errorsInFile), old(filesWithNoErrors))
      ensures o.Complete? ==> errorsInFile == o.errors && filesWithNoErrors == o.clean
      ensures !o.Complete? ==> errorsInFile == old(errorsInFile) && filesWithNoErrors == old(filesWithNoErrors)
    {
      var rules: seq<Rule>;
      var name := Basename(path);
      if Contains(name, "postgresql") {
        rules := pg;
      } else if Contains(name, "tserver") || Contains(name, "master") {
        rules := universe;
      } else {
        return Truncated(errorsInFile, filesWithNoErrors, map[]);
      }
      if content.Unreadable? {
        return Truncated(errorsInFile, filesWithNoErrors, map[]);
      }
      if content.Undecodable? {
        return Crashed;
      }
      assert RulesFor(path, universe, pg) == Some(rules);
      o := AnalyzeLines(path, content.lines, nodeName, w, rules, matches, solutions, histogramMode);
    }

    /** The part of `AnalyzeLogFile` after the file was read. */
    method AnalyzeLines(path: string, ls: seq<string>, nodeName: string, w: Window, rules: seq<Rule>,
                        matches: Matcher, solutions: map<string, string>, histogramMode: bool)
      returns (o: Outcome)
      requires NonEmptyLines(ls)
      modifies this
      ensures o == FileOutcome(path, ls, nodeName, w, rules, matches, solutions, histogramMode,
                               old(errorsInFile), old(filesWithNoErrors))
      ensures o.Complete? ==> errorsInFile == o.errors && filesWithNoErrors == o.clean
      ensures !o.Complete? ==> errorsInFile == old(errorsInFile) && filesWithNoErrors == old(filesWithNoErrors)
    {
      var results, chart, details, errors := ScanFile(ls, w, rules, matches, errorsInFile);
      if exists m | m in results :: !Solved(m, solutions, histogramMode) {
        return Crashed;
      }
      errorsInFile := errors;
      if results == map[] {
        filesWithNoErrors := filesWithNoErrors + [path];
      }
      return Complete(errorsInFile, filesWithNoErrors, chart, map[nodeName := details]);
    }
  }

  /** The line loop of one file: statistics, bar chart and the node's copy of the statistics of
      the file's hits, and the error list with their messages appended. */
  method ScanFile(ls: seq<string>, w: Window, rules: seq<Rule>, matches: Matcher, errors0: seq<string>)
    returns (results: Table, chart: Chart, details: Table, errors: seq<string>)
    requires NonEmptyLines(ls)
    ensures var hits := FileHits(ls, w, rules, matches);
            results == Tabulate(hits) && chart == Plot(hits) && details == results && errors == errors0 + Names(hits)
  {
    results, chart, details, errors := map[], map[], map[], errors0;
    var previous := InitialTime;
    InitialTimeParses();
    ghost var hits: seq<Hit> := [];
    var i := 0;
    while i < |ls|
      invariant 0 <= i <= |ls|
      invariant ParseShort(previous, DefaultYear).Some?
      invariant ScanFrom(ls, i, previous, w, rules, matches, hits) == FileHits(ls, w, rules, matches)
      invariant results == Tabulate(hits) && chart == Plot(hits) && details == results
      invariant errors == errors0 + Names(hits)
    {
      var line := ls[i];
      var t := ParseLine(line, previous);
      ParseFormatShort(t);
      previous := FormatShort(t);
      if Before(t, w.start) {
        i := i + 1;
        continue;
      }
      if Before(w.end, t) {
        break;
      }
      results, chart, details, errors := ClassifyLine(line, previous, rules, matches, hits, errors0, results, chart, errors);
      hits := hits + AllHits(line, previous, rules, matches, true);
      i := i + 1;
    }
  }

  /** One hit: the message's count goes up, its first time is set on its first hit only, its last
      time is overwritten, its bar for the hour goes up, the node's copy of its statistics is
      replaced and the message is appended to the error list. */
  method RecordHit(message: string, time: string, ghost all: seq<Hit>, ghost base: seq<string>,
                   results0: Table, chart0: Chart, details0: Table, errors0: seq<string>)
    returns (results: Table, chart: Chart, details: Table, errors: seq<string>)
    requires results0 == Tabulate(all) && chart0 == Plot(all) && details0 == results0
    requires errors0 == base + Names(all)
    ensures var all' := all + [Hit(message, time)];
            results == Tabulate(all') && chart == Plot(all') && details == results && errors == base + Names(all')
  {
    Snoc(all, Hit(message, time));
    var known := message in results0;
    var count := if known then results0[message].count else 0;
    var first := if known then results0[message].first else time;
    results := results0[message := Occurrence(count + 1, first, time)];
    errors := errors0 + [message];
    chart := chart0[message := Bump(RowOf(chart0, message), Bucket(time))];
    details := details0[message := results[message]];
  }

  /** The rule loop for one in-window line: every matching rule updates the message's statistics,
      its bar and the node's copy of its statistics, and appends the message to the error list. */
  method ClassifyLine(line: string, time: string, rules: seq<Rule>, matches: Matcher, ghost hits: seq<Hit>,
                      ghost base: seq<string>, results0: Table, chart0: Chart, errors0: seq<string>)
    returns (results: Table, chart: Chart, details: Table, errors: seq<string>)
    requires results0 == Tabulate(hits) && chart0 == Plot(hits) && errors0 == base + Names(hits)
    ensures var all := hits + AllHits(line, time, rules, matches, true);
            results == Tabulate(all) && chart == Plot(all) && details == results && errors == base + Names(all)
  {
    results, chart, details, errors := results0, chart0, results0, errors0;
    ghost var found: seq<Hit> := [];
    ghost var all := hits;
    assert rules[..0] == [] && hits + found == hits;
    var j := 0;
    while j < |rules|
      invariant 0 <= j <= |rules|
      invariant found == AllHits(line, time, rules[..j], matches, true) && all == hits + found
      invariant results == Tabulate(all) && chart == Plot(all) && details == results
      invariant errors == base + Names(all)
    {
      var rule := rules[j];
      AllHitsSnoc(line, time, rules, matches, true, j);
      if matches(rule.pattern, line, true) {
        results, chart, details, errors := RecordHit(rule.name, time, all, base, results, chart, details, errors);
        ghost var h := Hit(rule.name, time);
        AppendAssoc(hits, found, [h]);
        found := found + [h];
        all := all + [h];
      }
      j := j + 1;
    }
    assert rules[..|rules|] == rules;
  }

  // ---------------------------------------------------------------------------------------------
  // The merge loop of the main process

  /** `listOfErrorsInAllFiles`, `listOfAllFilesWithNoErrors` (kept as sets, since each round turns
      them into one), `histogramJSON`, and `hagenAIJSON["nodeDetails"]` when the node lookup filled
      it in. */
  datatype Summary = Summary(errors: set<string>, clean: set<string>, histogram: Chart,
                             nodeDetails: Option<map<string, Table>>)

  /** One message of one file folded into the node's statistics: counts add up, the first time is
      the smaller string and the last time the larger one. */
  function MergeOccurrence(known: Occurrence, add: Occurrence): (r: Occurrence)
    ensures r.count == known.count + add.count
    ensures r.first in {known.first, add.first} && r.last in {known.last, add.last}
    ensures !LexLess(known.first, r.first) && !LexLess(add.first, r.first)
    ensures !LexLess(r.last, known.last) && !LexLess(r.last, add.last)
  {
    LexMinBelow(known.first, add.first);
    LexMaxAbove(known.last, add.last);
    Occurrence(known.count + add.count, LexMin(known.first, add.first), LexMax(known.last, add.last))
  }

  /** The order in which files are merged does not matter to a message's statistics. */
  lemma MergeOccurrenceCommutes(a: Occurrence, b: Occurrence)
    ensures MergeOccurrence(a, b) == MergeOccurrence(b, a)
  {
    LexTrichotomy(a.first, b.first);
    LexTrichotomy(a.last, b.last);
    if LexLess(a.first, b.first) { LexAsymmetric(a.first, b.first); }
    if LexLess(b.first, a.first) { LexAsymmetric(b.first, a.first); }
    if LexLess(a.last, b.last) { LexAsymmetric(a.last, b.last); }
    if LexLess(b.last, a.last) { LexAsymmetric(b.last, a.last); }
  }

  /** The string comparisons pick the earliest first time and the latest last time: MMDD HH:MM
      strings order like the times they print. */
  lemma MergedTimesAreExtremes(c1: nat, f1: Stamp, l1: Stamp, c2: nat, f2: Stamp, l2: Stamp)
    requires Valid(f1) && Valid(l1) && Valid(f2) && Valid(l2)
    ensures var r := MergeOccurrence(Occurrence(c1, FormatShort(f1), FormatShort(l1)),
                                     Occurrence(c2, FormatShort(f2), FormatShort(l2)));
            r.first == FormatShort(if ShortBefore(f2, f1) then f2 else f1)
            && r.last == FormatShort(if ShortBefore(l1, l2) then l2 else l1)
  {
    ShortOrder(f2, f1);
    ShortOrder(l1, l2);
  }

  /** A node's message table with one file's table folded in. */
  function MergeTables(known: Table, add: Table): (r: Table)
    ensures r.Keys == known.Keys + add.Keys
  {
    map m | m in known.Keys + add.Keys ::
      if m in known && m in add then MergeOccurrence(known[m], add[m])
      else if m in known then known[m] else add[m]
  }

  function TableOf(nodes: map<string, Table>, node: string): Table
  {
    if node in nodes then nodes[node] else map[]
  }

  /** Every node of one file's details folded into the summary's node details. */
  function MergeNodes(nodes: map<string, Table>, details: map<string, Table>): (r: map<string, Table>)
    ensures r.Keys == nodes.Keys + details.Keys
  {
    map n | n in nodes.Keys + details.Keys ::
      if n in details then MergeTables(TableOf(nodes, n), details[n]) else nodes[n]
  }

  /** One round of the loop; `None` where unpacking a three-value result raises. */
  function MergeStep(s: Summary, o: Outcome): Option<Summary>
  {
    match o
    case Complete(errors, clean, chart, details) =>
      Some(Summary(s.errors + (set x | x in errors), s.clean + (set x | x in clean),
                   MergeCharts(s.histogram, chart),
                   if s.nodeDetails.Some? then Some(MergeNodes(s.nodeDetails.value, details)) else None))
    case _ => None
  }

  /** The whole loop over the workers' results, in the order of the files. */
  function MergeAll(s: Summary, outcomes: seq<Outcome>): Option<Summary>
    decreases |outcomes|
  {
    if |outcomes| == 0 then Some(s)
    else
      match MergeStep(s, outcomes[0])
      case None => None
      case Some(s') => MergeAll(s', outcomes[1..])
  }

  method MergeResults(init: Summary, outcomes: seq<Outcome>) returns (r: Option<Summary>)
    ensures r == MergeAll(init, outcomes)
  {
    var errors, clean, histogram, nodes := init.errors, init.clean, init.histogram, init.nodeDetails;
    var i := 0;
    while i < |outcomes|
      invariant 0 <= i <= |outcomes|
      invariant MergeAll(Summary(errors, clean, histogram, nodes), outcomes[i..]) == MergeAll(init, outcomes)
    {
      assert outcomes[i..][0] == outcomes[i] && outcomes[i..][1..] == outcomes[i + 1..];
      if !outcomes[i].Complete? {
        return None;
      }
      var o := outcomes[i];
      errors := errors + (set x | x in o.errors);
      clean := clean + (set x | x in o.clean);
      histogram := MergeHistogram(histogram, o.chart);
      if nodes.Some? {
        var merged := MergeNodeDetails(nodes.value, o.details);
        nodes := Some(merged);
      }
      i := i + 1;
    }
    return Some(Summary(errors, clean, histogram, nodes));
  }

  /** The node-details part of one round, node by node. */
  method MergeNodeDetails(nodes: map<string, Table>, details: map<string, Table>) returns (r: map<string, Table>)
    ensures r == MergeNodes(nodes, details)
  {
    r := nodes;
    var todo := details.Keys;
    while todo != {}
      invariant todo <= details.Keys
      invariant r == MergeNodes(nodes, details - todo)
      decreases todo
    {
      var node :| node in todo;
      var messages := if node in r then r[node] else map[];
      messages := MergeTableInto(messages, details[node]);
      MergeNodesStep(nodes, details, todo, node);
      r := r[node := messages];
      todo := todo - {node};
    }
    assert details - todo == details;
  }

  /** One more node of the details merged. */
  lemma MergeNodesStep(nodes: map<string, Table>, details: map<string, Table>, todo: set<string>, node: string)
    requires node in todo && todo <= details.Keys
    ensures var done := MergeNodes(nodes, details - todo);
            MergeNodes(nodes, details - (todo - {node}))
            == done[node := MergeTables(if node in done then done[node] else map[], details[node])]
  {
  }

  /** One node's messages, message by message. */
  method MergeTableInto(known: Table, add: Table) returns (r: Table)
    ensures r == MergeTables(known, add)
  {
    r := known;
    var todo := add.Keys;
    while todo != {}
      invariant todo <= add.Keys
      invariant r == MergeTables(known, add - todo)
      decreases todo
    {
      var message :| message in todo;
      var d := add[message];
      MergeTablesStep(known, add, todo, message);
      if message in r {
        r := r[message := MergeOccurrence(r[message], d)];
      } else {
        r := r[message := d];
      }
      todo := todo - {message};
    }
    assert add - todo == add;
  }

  /** One more message of a table merged. */
  lemma MergeTablesStep(known: Table, add: Table, todo: set<string>, message: string)
    requires message in todo && todo <= add.Keys
    ensures var done := MergeTables(known, add - todo);
            MergeTables(known, add - (todo - {message}))
            == done[message := if message in done then MergeOccurrence(done[message], add[message]) else add[message]]
  {
  }

  /** A three-value result (unknown file type, or a file that cannot be opened) or a worker's
      exception ends the main loop: no summary is produced. */
  lemma {:induction false} IncompleteResultAborts(s: Summary, outcomes: seq<Outcome>, k: nat)
    requires k < |outcomes| && !outcomes[k].Complete?
    ensures MergeAll(s, outcomes) == None
    decreases k
  {
    if k > 0 {
      match MergeStep(s, outcomes[0])
      case None =>
      case Some(s') =>
        assert outcomes[1..][k - 1] == outcomes[k];
        IncompleteResultAborts(s', outcomes[1..], k - 1);
    }
  }

  /** The message names and clean files of the summary are the union of those of every result. */
  lemma {:induction false} MergedLists(s: Summary, outcomes: seq<Outcome>)
    requires forall k :: 0 <= k < |outcomes| ==> outcomes[k].Complete?
    ensures MergeAll(s, outcomes).Some?
    ensures forall x :: x in MergeAll(s, outcomes).value.errors <==>
              x in s.errors || exists k :: 0 <= k < |outcomes| && x in outcomes[k].errors
    ensures forall x :: x in MergeAll(s, outcomes).value.clean <==>
              x in s.clean || exists k :: 0 <= k < |outcomes| && x in outcomes[k].clean
    decreases |outcomes|
  {
    if |outcomes| > 0 {
      var s' := MergeStep(s, outcomes[0]).value;
      var rest := outcomes[1..];
      MergedLists(s', rest);
      forall x
        ensures (exists k :: 0 <= k < |outcomes| && x in outcomes[k].errors) <==>
                x in outcomes[0].errors || exists k :: 0 <= k < |rest| && x in rest[k].errors
        ensures (exists k :: 0 <= k < |outcomes| && x in outcomes[k].clean) <==>
                x in outcomes[0].clean || exists k :: 0 <= k < |rest| && x in rest[k].clean
      {
        if exists k :: 0 <= k < |outcomes| && x in outcomes[k].errors {
          var k :| 0 <= k < |outcomes| && x in outcomes[k].errors;
          if k > 0 { assert x in rest[k - 1].errors; }
        }
        if exists k :: 0 <= k < |rest| && x in rest[k].errors {
          var k :| 0 <= k < |rest| && x in rest[k].errors;
          assert x in outcomes[k + 1].errors;
        }
        if exists k :: 0 <= k < |outcomes| && x in outcomes[k].clean {
          var k :| 0 <= k < |outcomes| && x in outcomes[k].clean;
          if k > 0 { assert x in rest[k - 1].clean; }
        }
        if exists k :: 0 <= k < |rest| && x in rest[k].clean {
          var k :| 0 <= k < |rest| && x in rest[k].clean;
          assert x in outcomes[k + 1].clean;
        }
      }
    }
  }

  /** All hits of several runs, in order. */
  function Concat(runs: seq<seq<Hit>>): seq<Hit>
  {
    if |runs| == 0 then [] else runs[0] + Concat(runs[1..])
  }

  /** One file's bar chart added bucket by bucket. */
  lemma MergeStepHistogram(s: Summary, o: Outcome, h0: seq<Hit>, run: seq<Hit>)
    requires s.histogram == Plot(h0) && o.Complete? && o.chart == Plot(run)
    ensures MergeStep(s, o).Some? && MergeStep(s, o).value.histogram == Plot(h0 + run)
  {
    MergePlots(h0, run);
  }

  /** Summing the files' bar charts bucket by bucket gives the bar chart of all their hits. */
  lemma {:induction false} MergedHistogram(s: Summary, outcomes: seq<Outcome>, h0: seq<Hit>, runs: seq<seq<Hit>>)
    requires |runs| == |outcomes| && s.histogram == Plot(h0)
    requires forall k :: 0 <= k < |outcomes| ==> outcomes[k].Complete? && outcomes[k].chart == Plot(runs[k])
    ensures MergeAll(s, outcomes).Some? && MergeAll(s, outcomes).value.histogram == Plot(h0 + Concat(runs))
    decreases |outcomes|
  {
    if |outcomes| == 0 {
      assert h0 + Concat(runs) == h0;
    } else {
      MergeStepHistogram(s, outcomes[0], h0, runs[0]);
      var s' := MergeStep(s, outcomes[0]).value;
      assert forall k :: 0 <= k < |outcomes[1..]| ==> outcomes[1..][k] == outcomes[k + 1] && runs[1..][k] == runs[k + 1];
      MergedHistogram(s', outcomes[1..], h0 + runs[0], runs[1..]);
      assert Concat(runs) == runs[0] + Concat(runs[1..]);
      AppendAssoc(h0, runs[0], Concat(runs[1..]));
    }
  }

  // ---------------------------------------------------------------------------------------------
  // getNodeDirectory

  /** `None` is `NotFound`; `Diverges` stands for the loop that never ends once the directory is
      nothing but slashes and still does not end with the node name. */
  datatype NodeDirectory = Found(dir: string) | NotFound | Diverges

  /** The inner loop: climb with `dirname` until the directory ends with the node name or is empty. */
  function WalkUp(dir: string, nodeName: string): (r: NodeDirectory)
    ensures r.Found? ==> EndsWith(r.dir, nodeName) && r.dir <= dir
    decreases |dir|
  {
    if dir == "" then (if EndsWith(dir, nodeName) then Found(dir) else NotFound)
    else if EndsWith(dir, nodeName) then Found(dir)
    else if AllSlashes(dir) then Diverges
    else
      DirnameShrinks(dir);
      WalkUp(Dirname(dir), nodeName)
  }

  /** The outer loop over the files in the metadata's order: the first file of the node whose walk
      finds a directory decides. */
  function NodeDirectoryOf(files: seq<string>, meta: map<string, Metadata>, nodeName: string): NodeDirectory
    requires forall k :: 0 <= k < |files| ==> files[k] in meta
  {
    if |files| == 0 then NotFound
    else if meta[files[0]].nodeName == nodeName && WalkUp(Dirname(files[0]), nodeName) != NotFound then
      WalkUp(Dirname(files[0]), nodeName)
    else NodeDirectoryOf(files[1..], meta, nodeName)
  }

  method GetNodeDirectory(files: seq<string>, meta: map<string, Metadata>, nodeName: string)
    returns (r: NodeDirectory)
    requires forall k :: 0 <= k < |files| ==> files[k] in meta
    ensures r == NodeDirectoryOf(files, meta, nodeName)
  {
    var i := 0;
    while i < |files|
      invariant 0 <= i <= |files|
      invariant NodeDirectoryOf(files[i..], meta, nodeName) == NodeDirectoryOf(files, meta, nodeName)
    {
      var logFile := files[i];
      assert files[i..][0] == logFile && files[i..][1..] == files[i + 1..];
      if meta[logFile].nodeName == nodeName {
        var nodeDir := Dirname(logFile);
        while nodeDir != "" && !EndsWith(nodeDir, nodeName)
          invariant WalkUp(nodeDir, nodeName) == WalkUp(Dirname(logFile), nodeName)
          decreases |nodeDir|
        {
          if AllSlashes(nodeDir) {
            return Diverges;
          }
          DirnameShrinks(nodeDir);
          nodeDir := Dirname(nodeDir);
        }
        if EndsWith(nodeDir, nodeName) {
          return Found(nodeDir);
        }
      }
      i := i + 1;
    }
    return NotFound;
  }

  /** From a relative directory the walk ends: `dirname` keeps the first character, so it never
      reaches a directory made of slashes. */
  lemma {:induction false} RelativeWalkEnds(dir: string, nodeName: string)
    requires dir == "" || dir[0] != '/'
    ensures WalkUp(dir, nodeName) != Diverges
    decreases |dir|
  {
    if dir != "" && !EndsWith(dir, nodeName) {
      assert !AllSlashes(dir);
      DirnameShrinks(dir);
      RelativeWalkEnds(Dirname(dir), nodeName);
    }
  }

  /** From an absolute directory the walk never reaches '': it finds the node directory or runs
      forever at '/'. */
  lemma {:induction false} AbsoluteWalkNeverEmpty(dir: string, nodeName: string)
    requires dir != "" && dir[0] == '/'
    ensures WalkUp(dir, nodeName) != NotFound
    decreases |dir|
  {
    if !EndsWith(dir, nodeName) && !AllSlashes(dir) {
      DirnameShrinks(dir);
      DirnameAbsolute(dir);
      AbsoluteWalkNeverEmpty(Dirname(dir), nodeName);
    }
  }

  /** With relative paths only, the lookup always ends. */
  lemma {:induction false} RelativeLookupEnds(files: seq<string>, meta: map<string, Metadata>, nodeName: string)
    requires forall k :: 0 <= k < |files| ==> files[k] in meta && (files[k] == "" || files[k][0] != '/')
    ensures NodeDirectoryOf(files, meta, nodeName) != Diverges
  {
    if |files| > 0 {
      var d := Dirname(files[0]);
      assert d == "" || d[0] == files[0][0];
      RelativeWalkEnds(d, nodeName);
      RelativeLookupEnds(files[1..], meta, nodeName);
    }
  }

  /** With absolute paths only, a node that has a file never gets `None`: the lookup finds a
      directory or never ends. */
  lemma {:induction false} AbsoluteLookupNeverMisses(files: seq<string>, meta: map<string, Metadata>,
                                                     nodeName: string, k: nat)
    requires forall j :: 0 <= j < |files| ==> files[j] in meta && files[j] != "" && files[j][0] == '/'
    requires k < |files| && meta[files[k]].nodeName == nodeName
    ensures NodeDirectoryOf(files, meta, nodeName) != NotFound
  {
    DirnameAbsolute(files[0]);
    AbsoluteWalkNeverEmpty(Dirname(files[0]), nodeName);
    if k > 0 && meta[files[0]].nodeName != nodeName {
      AbsoluteLookupNeverMisses(files[1..], meta, nodeName, k - 1);
    }
  }

  // ---------------------------------------------------------------------------------------------
  // How the main script applies the filters

  function NotIn(removed: seq<string>): string -> bool
  {
    f => f !in removed
  }

  /** `[f for f in files if f not in removed]`. */
  function Subtract(files: seq<string>, removed: seq<string>): (r: seq<string>)
    ensures forall k :: 0 <= k < |r| ==> r[k] !in removed
  {
    Filter(files, NotIn(removed))
  }

  lemma {:induction false} SubtractAgrees(s: seq<string>, removed: seq<string>, p: string -> bool)
    requires forall k :: 0 <= k < |s| ==> (s[k] in removed <==> !p(s[k]))
    ensures Filter(s, NotIn(removed)) == Filter(s, p)
  {
    if |s| > 0 {
      SubtractAgrees(s[..|s| - 1], removed, p);
    }
  }

  /** The script keeps what a filter did not remove, which is what the filter keeps whenever the
      filter reports every file it drops. */
  lemma SubtractRejected(files: seq<string>, p: string -> bool)
    ensures Subtract(files, Reject(files, p)) == Filter(files, p)
  {
    forall k | 0 <= k < |files|
      ensures files[k] in Reject(files, p) <==> !p(files[k])
    {
      RejectHas(files, p, files[k]);
    }
    SubtractAgrees(files, Reject(files, p), p);
  }

  /** The type filter drops a selected file whose path starts with '.' from its kept list without
      listing it as removed, so the script, which only subtracts the removed list, still analyzes
      it. */
  lemma HiddenFileStillAnalyzed(files: seq<string>, meta: map<string, Metadata>, codes: seq<string>, f: string)
    requires f in files && f in meta && meta[f].logType in SelectedTypes(codes) && |f| > 0 && f[0] == '.'
    ensures f !in Filter(Filter(files, KeepByType(meta, codes)), NotHidden())
    ensures f in Subtract(files, Reject(files, KeepByType(meta, codes)))
  {
    TypeFilterPlacement(files, meta, codes, f);
    SubtractRejected(files, KeepByType(meta, codes));
    FilterHas(files, KeepByType(meta, codes), f);
  }
}
