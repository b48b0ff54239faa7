/** The first revision of the analyzer (log_analyzer.py): the time window taken from the command
    line, the line loop of `analyzeLogFiles` with its table, bar chart and module-level lists, and the
    main process's merge of the workers' results. */
module LogAnalyzerV1 {
  import opened Base
  import opened Text
  import opened Calendar
  import opened Seqs
  import opened Occurrences
  import opened Ranking
  import opened LogLib

  // ---------------------------------------------------------------------------------------------
  // The window

  /** `start_time` and `end_time`, each possibly unset. */
  datatype Bounds = Bounds(start: Option<Stamp>, end: Option<Stamp>)

  /** `(not start_time or t >= start_time) and (not end_time or t <= end_time)`. */
  predicate Admits(b: Bounds, t: Stamp)
  {
    (b.start.None? || AtOrBefore(b.start.value, t)) && (b.end.None? || AtOrBefore(t, b.end.value))
  }

  /** Why the script stops before analyzing anything. */
  datatype StartupError = BadStartTime | BadEndTime | WeekAgoUnparsable

  /** An option counts as given only when its text is not empty (`if args.start_time:`). */
  function Given(arg: Option<string>): (r: Option<string>)
    ensures r.Some? <==> arg.Some? && arg.value != ""
    ensures r.Some? ==> r == arg
  {
    if arg.Some? && arg.value != "" then arg else None
  }

  /** The window from the `-t` and `-T` options: each given option must parse as MMDD HH:MM in 1900
      (else the script exits); a missing start is the moment a week before now printed as MMDD
      HH:MM and parsed again, which raises when that day is 29 February; a missing end stays
      unset. */
  function BoundsOf(startArg: Option<string>, endArg: Option<string>, weekAgo: Stamp): (r: Result<Bounds, StartupError>)
    requires Valid(weekAgo)
    ensures r.Ok? ==> r.value.start.Some?
    ensures r.Ok? && Given(startArg).Some? ==> r.value.start == ParseShort(startArg.value, DefaultYear)
    ensures r.Ok? && Given(endArg).Some? ==> r.value.end == ParseShort(endArg.value, DefaultYear)
    ensures r.Ok? && Given(endArg).None? ==> r.value.end.None?
    ensures r == Err(BadStartTime) <==> Given(startArg).Some? && ParseShort(startArg.value, DefaultYear).None?
  {
    var s, e := Given(startArg), Given(endArg);
    if s.Some? && ParseShort(s.value, DefaultYear).None? then Err(BadStartTime)
    else if e.Some? && ParseShort(e.value, DefaultYear).None? then Err(BadEndTime)
    else
      var start := if s.Some? then ParseShort(s.value, DefaultYear) else ParseShort(FormatShort(weekAgo), DefaultYear);
      if start.None? then Err(WeekAgoUnparsable)
      else Ok(Bounds(start, if e.Some? then ParseShort(e.value, DefaultYear) else None))
  }

  /** Without `-t`, the window starts a week before now, in 1900 and to the minute; when a week
      ago was 29 February, which 1900 lacks, the script stops. */
  lemma DefaultStartIsWeekAgo(endArg: Option<string>, weekAgo: Stamp)
    requires Valid(weekAgo)
    requires Given(endArg).Some? ==> ParseShort(endArg.value, DefaultYear).Some?
    ensures ValidDate(DefaultYear, weekAgo.month, weekAgo.day) ==>
              BoundsOf(None, endArg, weekAgo).Ok? &&
              BoundsOf(None, endArg, weekAgo).value.start == Some(weekAgo.(year := DefaultYear, second := 0))
    ensures !ValidDate(DefaultYear, weekAgo.month, weekAgo.day) ==>
              BoundsOf(None, endArg, weekAgo) == Err(WeekAgoUnparsable)
  {
    ReparseShort(weekAgo);
  }

  // ---------------------------------------------------------------------------------------------
  // getTimeFromLog(line, previousTime)

  /** The `previousTime` of `analyzeLogFiles`: it is assigned once and never updated. */
  const DefaultTime: string := "0101 00:00"

  /** 1 January, midnight, 1900. */
  const NewYear: Stamp := Stamp(DefaultYear, 1, 1, 0, 0, 0)

  lemma DefaultTimeParses()
    ensures ParseShort(DefaultTime, DefaultYear) == Some(NewYear)
  {
    ParseFormatShort(NewYear);
    assert FormatShort(NewYear) == DefaultTime;
  }

  /** `line.split(" ")[0][1:] + " " + line.split(" ")[1][:5]` read as MMDD HH:MM in 1900: whatever
      the line's first character, the rest of its first word is the MMDD and the first five
      characters of its second word the HH:MM. `None` where Python raises: a line without a second
      word (IndexError), or a text that does not parse (ValueError). */
  function GlogReading(line: string): (r: Option<Stamp>)
    ensures r.Some? ==> Valid(r.value) && r.value.year == DefaultYear && r.value.second == 0
  {
    var parts := Split(line, ' ');
    if |parts| < 2 then None else ParseShort(Drop(parts[0], 1) + " " + Take(parts[1], 5), DefaultYear)
  }

  /** getTimeFromLog(line, previousTime): the glog reading, or `previous` parsed where it fails. */
  function GetTimeFromLog(line: string, previous: string): (t: Stamp)
    requires ParseShort(previous, DefaultYear).Some?
    ensures Valid(t) && t.year == DefaultYear && t.second == 0
  {
    match GlogReading(line)
    case Some(t) => t
    case None => ParseShort(previous, DefaultYear).value
  }

  /** The stamp the loop gives a line: since `previousTime` never changes, every line the glog
      reading fails on is stamped 1 January, midnight, whatever the lines before it say. */
  function LineTime(line: string): (t: Stamp)
    ensures Valid(t) && t.year == DefaultYear && t.second == 0
    ensures GlogReading(line).None? ==> t == NewYear
    ensures GlogReading(line).Some? ==> t == GlogReading(line).value
  {
    DefaultTimeParses();
    GetTimeFromLog(line, DefaultTime)
  }

  /** A line `<c>MMDD HH:MM…` reads as that month, day, hour and minute for any first character but
      a blank, a glog severity letter or not. */
  lemma {:induction false} FirstCharacterIgnored(c: char, t: Stamp, rest: string)
    requires c != ' ' && Valid(t) && t.year == DefaultYear && t.second == 0
    ensures GlogReading([c] + FormatShort(t) + rest) == Some(t)
  {
    var md, hm := Pad2(t.month) + Pad2(t.day), Pad2(t.hour) + ":" + Pad2(t.minute);
    NoSpaceInDigits(Pad2(t.month));
    NoSpaceInDigits(Pad2(t.day));
    NoSpaceInDigits(Pad2(t.hour));
    NoSpaceInDigits(Pad2(t.minute));
    assert ' ' !in [c] + md && ' ' !in hm;
    var line := [c] + FormatShort(t) + rest;
    assert line == ([c] + md) + [' '] + (hm + rest);
    SplitFirst([c] + md, ' ', hm + rest);
    var parts := Split(line, ' ');
    SplitHeadConcat(hm, rest, ' ');
    assert parts[0] == [c] + md && parts[1] == hm + Split(rest, ' ')[0];
    assert Drop(parts[0], 1) + " " + Take(parts[1], 5) == FormatShort(t);
    ParseFormatShort(t);
  }

  /** A database line `YYYY-MM-DD HH:MM:SS.ffffff …` never reads (its first word minus one character
      is nine characters long), so the loop stamps it 1 January, midnight. */
  lemma DatabaseLineUnread(u: Stamp, fraction: string, rest: string)
    requires Valid(u) && AllDigits(fraction)
    requires rest == [] || rest[0] == ' '
    ensures GlogReading(FormatFull(u) + "." + fraction + rest) == None
    ensures LineTime(FormatFull(u) + "." + fraction + rest) == NewYear
  {
    FullLineWords(u, fraction, rest);
    var parts := Split(FormatFull(u) + "." + fraction + rest, ' ');
    assert |Drop(parts[0], 1) + " " + Take(parts[1], 5)| == 15;
  }

  /** A line without a blank has no second word: it is stamped 1 January, midnight. */
  lemma WordlessLineIsNewYear(line: string)
    requires ' ' !in line
    ensures GlogReading(line) == None && LineTime(line) == NewYear
  {
    SplitNoSep(line, ' ');
  }

  // ---------------------------------------------------------------------------------------------
  // The hits of a file

  /** The hits of one line: when its stamp lies in the window, one per matching rule, in table
      order and case-sensitive, each stamped with the line's MMDD HH:MM. */
  function LineHits(line: string, b: Bounds, rules: seq<Rule>, matches: Matcher): seq<Hit>
  {
    var t := LineTime(line);
    if Admits(b, t) then AllHits(line, FormatShort(t), rules, matches, false) else []
  }

  /** The hits of the lines of a file, in order: every line is read, whatever came before it. */
  function FileHits(ls: seq<string>, b: Bounds, rules: seq<Rule>, matches: Matcher): seq<Hit>
  {
    if |ls| == 0 then [] else FileHits(ls[..|ls| - 1], b, rules, matches) + LineHits(ls[|ls| - 1], b, rules, matches)
  }

  /** No early stop and no state carried from line to line: the hits of two stretches of lines
      are the hits of the first followed by those of the second. */
  lemma {:induction false} FileHitsAppend(a: seq<string>, c: seq<string>, b: Bounds, rules: seq<Rule>, matches: Matcher)
    ensures FileHits(a + c, b, rules, matches) == FileHits(a, b, rules, matches) + FileHits(c, b, rules, matches)
    decreases |c|
  {
    if |c| == 0 {
      assert a + c == a;
    } else {
      var init, last := c[..|c| - 1], c[|c| - 1];
      assert (a + c)[..|a + c| - 1] == a + init && (a + c)[|a + c| - 1] == last;
      FileHitsAppend(a, init, b, rules, matches);
      AppendAssoc(FileHits(a, b, rules, matches), FileHits(init, b, rules, matches), LineHits(last, b, rules, matches));
    }
  }

  /** Every line contributes its hits in its place, in-window lines after a late line included. */
  lemma EveryLineCounted(ls: seq<string>, k: nat, b: Bounds, rules: seq<Rule>, matches: Matcher)
    requires k < |ls|
    ensures FileHits(ls, b, rules, matches)
            == FileHits(ls[..k], b, rules, matches) + LineHits(ls[k], b, rules, matches)
               + FileHits(ls[k + 1..], b, rules, matches)
  {
    assert ls == ls[..k] + [ls[k]] + ls[k + 1..];
    FileHitsAppend(ls[..k] + [ls[k]], ls[k + 1..], b, rules, matches);
    FileHitsAppend(ls[..k], [ls[k]], b, rules, matches);
    assert [ls[k]][..0] == [];
  }

  /** An MMDD HH:MM time whose stamp lies in the window. */
  predicate AdmittedTime(b: Bounds, time: string)
  {
    ParseShort(time, DefaultYear).Some? && Admits(b, ParseShort(time, DefaultYear).value)
  }

  /** Every hit carries the time of a line inside the window. */
  lemma {:induction false} HitsAdmitted(ls: seq<string>, b: Bounds, rules: seq<Rule>, matches: Matcher)
    ensures forall j :: 0 <= j < |FileHits(ls, b, rules, matches)| ==> AdmittedTime(b, FileHits(ls, b, rules, matches)[j].time)
  {
    if |ls| > 0 {
      var init, line := ls[..|ls| - 1], ls[|ls| - 1];
      HitsAdmitted(init, b, rules, matches);
      var front: seq<Hit>, tail: seq<Hit> := FileHits(init, b, rules, matches), LineHits(line, b, rules, matches);
      var t := LineTime(line);
      ParseFormatShort(t);
      AllHitsTimes(line, FormatShort(t), rules, matches, false);
      forall j | 0 <= j < |front + tail|
        ensures AdmittedTime(b, (front + tail)[j].time)
      {
        if j < |front| {
          assert (front + tail)[j] == front[j];
        } else {
          assert (front + tail)[j] == tail[j - |front|];
        }
      }
    }
  }

  // ---------------------------------------------------------------------------------------------
  // analyzeLogFiles

  /** One row of the table written for a file: `[numOccurrences, message, first, last]`. */
  datatype TableRow = TableRow(count: nat, message: string, first: string, last: string)

  function TableRowOf(item: Item): TableRow
  {
    TableRow(item.1.count, item.0, item.1.first, item.1.last)
  }

  /** The table built from the sorted items, one row per item. */
  function TableOf(sorted: seq<Item>): (table: seq<TableRow>)
    ensures |table| == |sorted|
    ensures forall i :: 0 <= i < |sorted| ==>
              table[i].count == sorted[i].1.count && table[i].first == sorted[i].1.first && table[i].last == sorted[i].1.last
  {
    seq(|sorted|, i requires 0 <= i < |sorted| => TableRowOf(sorted[i]))
  }

  /** What a call returns (the two module-level lists, whole, and the file's bar chart), and the
      table it writes to the report, empty when it writes none. */
  datatype Outcome = Outcome(errors: seq<string>, clean: seq<string>, chart: Chart, table: seq<TableRow>)

  /** The table of the hits of one file: its items sorted by the chosen key, one row each, so that
      counts never increase down the table, or last (first) occurrence times never decrease. */
  function SortedTable(hits: seq<Hit>, key: SortKey): (rows: seq<TableRow>)
    ensures key == ByCount ==> forall i, j :: 0 <= i < j < |rows| ==> rows[i].count >= rows[j].count
    ensures key == ByLast ==> forall i, j :: 0 <= i < j < |rows| ==> !LexLess(rows[j].last, rows[i].last)
    ensures key == ByFirst ==> forall i, j :: 0 <= i < j < |rows| ==> !LexLess(rows[j].first, rows[i].first)
  {
    TableOf(Rank(Items(Tabulate(hits), Messages(hits)), key))
  }

  /** A message has a row exactly when it was hit. */
  lemma RowIffHit(hits: seq<Hit>, key: SortKey, m: string)
    ensures (exists i :: 0 <= i < |SortedTable(hits, key)| && SortedTable(hits, key)[i].message == m) <==> |Times(hits, m)| > 0
  {
    var t, keys := Tabulate(hits), Messages(hits);
    var ranked := Rank(Items(t, keys), key);
    var rows := SortedTable(hits, key);
    assert rows == TableOf(ranked);
    TabulateTimes(hits, m);
    RankHoldsEntries(t, keys, key, m);
    if m in keys {
      var i :| 0 <= i < |ranked| && ranked[i] == (m, t[m]);
      assert rows[i].message == m;
    }
    if i :| 0 <= i < |rows| && rows[i].message == m {
      assert ranked[i] in ranked;
    }
  }

  /** The row of a message holds its count and the times of its first and last hits in file order
      (not the smallest and largest times). */
  lemma RowOfHit(hits: seq<Hit>, key: SortKey, m: string, i: nat)
    requires i < |SortedTable(hits, key)| && SortedTable(hits, key)[i].message == m
    ensures var ts := Times(hits, m); |ts| > 0 && SortedTable(hits, key)[i] == TableRow(|ts|, m, ts[0], ts[|ts| - 1])
  {
    var t, keys := Tabulate(hits), Messages(hits);
    var ranked := Rank(Items(t, keys), key);
    var rows := SortedTable(hits, key);
    assert rows == TableOf(ranked);
    TabulateTimes(hits, m);
    RankHoldsEntries(t, keys, key, m);
    assert ranked[i] in ranked;
    assert m in t;
  }

  /** The table is empty exactly when nothing was hit. */
  lemma TableEmptyIffNoHits(hits: seq<Hit>, key: SortKey)
    ensures SortedTable(hits, key) == [] <==> hits == []
  {
    EmptyTableIffNoHits(hits);
    if hits != [] {
      RankHoldsEntries(Tabulate(hits), Messages(hits), key, hits[0].message);
      assert |Rank(Items(Tabulate(hits), Messages(hits)), key)| > 0;
    }
  }

  /** One call, given the worker's lists before it. A file that cannot be opened raises outside the
      `try`, so the call has no outcome (`None`). A file whose reading fails leaves the lists as they
      were and returns an empty chart; otherwise every hit appends its message to the error list, the
      file goes to the list of clean files when its table is empty, and the table holds the file's
      statistics sorted by `key`. */
  function Analysis(path: string, content: FileContent, b: Bounds, rules: seq<Rule>, matches: Matcher,
                    key: SortKey, errors: seq<string>, clean: seq<string>): Option<Outcome>
  {
    match content
    case Unreadable => None
    case Undecodable => Some(Outcome(errors, clean, map[], []))
    case Lines(ls) =>
      var hits := FileHits(ls, b, rules, matches);
      var table := SortedTable(hits, key);
      Some(Outcome(errors + Names(hits), if table == [] then clean + [path] else clean, Plot(hits), table))
  }

  /** What `pool.starmap` hands the main process: every call's outcome in order, or nothing at all
      when some call raised, in which case the run stops before any merging. */
  function Collected(calls: seq<Option<Outcome>>): (r: Option<seq<Outcome>>)
    ensures r.None? <==> exists i :: 0 <= i < |calls| && calls[i].None?
    ensures r.Some? ==> |r.value| == |calls| && forall i :: 0 <= i < |calls| ==> calls[i] == Some(r.value[i])
  {
    if calls == [] then Some([])
    else match (calls[0], Collected(calls[1..]))
      case (Some(o), Some(os)) => Some([o] + os)
      case _ => None
  }

  /** A text file is listed as clean exactly when nothing in it was hit, and its table is the
      sorted table of its hits. */
  lemma AnalysisClean(path: string, ls: seq<string>, b: Bounds, rules: seq<Rule>, matches: Matcher, key: SortKey,
                      errors: seq<string>, clean: seq<string>)
    ensures var o := Analysis(path, Lines(ls), b, rules, matches, key, errors, clean).value;
            && o.table == SortedTable(FileHits(ls, b, rules, matches), key)
            && (o.clean == clean + [path] <==> FileHits(ls, b, rules, matches) == [])
            && (o.clean == clean <==> FileHits(ls, b, rules, matches) != [])
  {
    TableEmptyIffNoHits(FileHits(ls, b, rules, matches), key);
    assert |clean + [path]| != |clean|;
  }

  /** A worker process: the two lists are module-level, so each call appends to what earlier calls
      in the same process left and returns the whole list. */
  class Worker {
    var errorsInFile: seq<string>
    var filesWithNoErrors: seq<string>

    constructor ()
      ensures errorsInFile == [] && filesWithNoErrors == []
    {
      errorsInFile := [];
      filesWithNoErrors := [];
    }

    method AnalyzeLogFiles(path: string, content: FileContent, b: Bounds, rules: seq<Rule>, matches: Matcher,
                           key: SortKey) returns (o: Option<Outcome>)
      modifies this
      ensures o == Analysis(path, content, b, rules, matches, key, old(errorsInFile), old(filesWithNoErrors))
      ensures o.Some? ==> errorsInFile == o.value.errors && filesWithNoErrors == o.value.clean
      ensures o.None? ==> errorsInFile == old(errorsInFile) && filesWithNoErrors == old(filesWithNoErrors)
    {
      if content.Unreadable? {
        return None;
      }
      if content.Undecodable? {
        return Some(Outcome(errorsInFile, filesWithNoErrors, map[], []));
      }
      var results, chart, keys, errors := ScanLines(content.lines, b, rules, matches, errorsInFile);
      errorsInFile := errors;
      var sorted := Rank(Items(results, keys), key);
      var table := BuildTable(sorted);
      if table == [] {
        filesWithNoErrors := filesWithNoErrors + [path];
      }
      return Some(Outcome(errorsInFile, filesWithNoErrors, chart, table));
    }
  }

  /** The loop over the sorted items, one row each. */
  method BuildTable(sorted: seq<Item>) returns (table: seq<TableRow>)
    ensures table == TableOf(sorted)
  {
    table := [];
    for i := 0 to |sorted|
      invariant table == TableOf(sorted[..i])
    {
      assert TableOf(sorted[..i + 1]) == TableOf(sorted[..i]) + [TableRowOf(sorted[i])];
      table := table + [TableRowOf(sorted[i])];
    }
    assert sorted[..|sorted|] == sorted;
  }

  /** The line loop: statistics (with their keys in the order the dictionary keeps them), bar chart
      and the error list with every hit's message appended. */
  method ScanLines(ls: seq<string>, b: Bounds, rules: seq<Rule>, matches: Matcher, errors0: seq<string>)
    returns (results: Table, chart: Chart, keys: seq<string>, errors: seq<string>)
    ensures var hits := FileHits(ls, b, rules, matches);
            results == Tabulate(hits) && chart == Plot(hits) && keys == Messages(hits) && errors == errors0 + Names(hits)
  {
    var previousTime := DefaultTime;
    DefaultTimeParses();
    results, chart, keys, errors := map[], map[], [], errors0;
    ghost var hits: seq<Hit> := [];
    for i := 0 to |ls|
      invariant hits == FileHits(ls[..i], b, rules, matches)
      invariant results == Tabulate(hits) && chart == Plot(hits) && keys == Messages(hits)
      invariant errors == errors0 + Names(hits) && FirstsSet(results)
    {
      var line := ls[i];
      var t := GetTimeFromLog(line, previousTime);
      ParseFormatShort(t);
      var time := FormatShort(t);
      results, chart, keys, errors := ScanRules(line, time, Admits(b, t), rules, matches, hits, errors0,
                                                results, chart, keys, errors);
      hits := hits + LineHits(line, b, rules, matches);
      assert ls[..i + 1][..i] == ls[..i];
    }
    assert ls[..|ls|] == ls;
  }

  /** The rule loop for one line: every rule whose pattern is found is counted, when the line's
      time is in the window. */
  method ScanRules(line: string, time: string, inside: bool, rules: seq<Rule>, matches: Matcher,
                   ghost hits: seq<Hit>, ghost base: seq<string>,
                   results0: Table, chart0: Chart, keys0: seq<string>, errors0: seq<string>)
    returns (results: Table, chart: Chart, keys: seq<string>, errors: seq<string>)
    requires results0 == Tabulate(hits) && chart0 == Plot(hits) && keys0 == Messages(hits)
    requires errors0 == base + Names(hits) && FirstsSet(results0) && time != ""
    ensures var all := hits + (if inside then AllHits(line, time, rules, matches, false) else []);
            results == Tabulate(all) && chart == Plot(all) && keys == Messages(all) && errors == base + Names(all)
    ensures FirstsSet(results)
  {
    results, chart, keys, errors := results0, chart0, keys0, errors0;
    ghost var found: seq<Hit> := [];
    ghost var all := hits;
    assert rules[..0] == [] && hits + found == hits;
    for j := 0 to |rules|
      invariant found == (if inside then AllHits(line, time, rules[..j], matches, false) else [])
      invariant all == hits + found
      invariant results == Tabulate(all) && chart == Plot(all) && keys == Messages(all)
      invariant errors == base + Names(all) && FirstsSet(results)
    {
      var rule := rules[j];
      AllHitsSnoc(line, time, rules, matches, false, j);
      if matches(rule.pattern, line, false) && inside {
        results, chart, keys, errors := NoteHit(rule.name, time, all, base, results, chart, keys, errors);
        ghost var h := Hit(rule.name, time);
        AppendAssoc(hits, found, [h]);
        found := found + [h];
        all := all + [h];
      }
    }
    assert rules[..|rules|] == rules;
  }

  /** Every entry has its first time set (to a non-empty text), so `if not first` holds only
      for an entry just created. */
  predicate FirstsSet(t: Table)
  {
    forall m :: m in t ==> t[m].first != ""
  }

  /** Counting a hit the way the loops do: the entry is made with no first time on the message's
      first hit, then updated; this is one `Record` step and keeps every first time set. */
  lemma CountStep(t: Table, message: string, time: string)
    requires FirstsSet(t) && time != ""
    ensures var t1 := if message in t then t else t[message := Occurrence(0, "", "")];
            var o := t1[message];
            Record(t, Hit(message, time)) == t1[message := Occurrence(o.count + 1, if o.first == "" then time else o.first, time)]
    ensures FirstsSet(Record(t, Hit(message, time)))
    ensures Record(t, Hit(message, time)).Keys == t.Keys + {message}
  {
  }

  /** One hit: the message gets an entry on its first hit, its count goes up, its first time is set
      on its first hit only and its last time is overwritten. */
  method CountHit(message: string, time: string, ghost hits: seq<Hit>, results0: Table, keys0: seq<string>)
    returns (results: Table, keys: seq<string>)
    requires results0 == Tabulate(hits) && keys0 == Messages(hits) && FirstsSet(results0) && time != ""
    ensures results == Tabulate(hits + [Hit(message, time)]) && keys == Messages(hits + [Hit(message, time)])
    ensures FirstsSet(results) && results.Keys == results0.Keys + {message}
  {
    Snoc(hits, Hit(message, time));
    assert (hits + [Hit(message, time)])[..|hits|] == hits;
    CountStep(results0, message, time);
    results, keys := results0, keys0;
    if message !in results {
      results := results[message := Occurrence(0, "", "")];
      keys := keys + [message];
    }
    var o := results[message];
    var first := if o.first == "" then time else o.first;
    results := results[message := Occurrence(o.count + 1, first, time)];
  }

  /** One hit of the later script: it is counted, its hour bar goes up and the message is
      appended to the error list. */
  method NoteHit(message: string, time: string, ghost all: seq<Hit>, ghost base: seq<string>,
                 results0: Table, chart0: Chart, keys0: seq<string>, errors0: seq<string>)
    returns (results: Table, chart: Chart, keys: seq<string>, errors: seq<string>)
    requires results0 == Tabulate(all) && chart0 == Plot(all) && keys0 == Messages(all)
    requires errors0 == base + Names(all)
    requires FirstsSet(results0) && time != ""
    ensures var all' := all + [Hit(message, time)];
            results == Tabulate(all') && chart == Plot(all') && keys == Messages(all') && errors == base + Names(all')
    ensures FirstsSet(results)
  {
    Snoc(all, Hit(message, time));
    results, keys := CountHit(message, time, all, results0, keys0);
    chart := chart0[message := Bump(RowOf(chart0, message), Bucket(time))];
    errors := errors0 + [message];
  }

  // ---------------------------------------------------------------------------------------------
  // The merge loop of the main process

  /** `listOfErrorsInAllFiles` and `listOfAllFilesWithNoErrors` (kept as sets, since each round
      turns them into one) and `histogramJSON`. */
  datatype Summary = Summary(errors: set<string>, clean: set<string>, histogram: Chart)

  /** One round: both lists are unioned with the worker's, and its chart is added bucket by
      bucket. */
  function MergeStep(s: Summary, o: Outcome): Summary
  {
    Summary(s.errors + (set x | x in o.errors), s.clean + (set x | x in o.clean), MergeCharts(s.histogram, o.chart))
  }

  /** The loop over the workers' results, in the order of the files. */
  function MergeAll(s: Summary, outcomes: seq<Outcome>): Summary
    decreases |outcomes|
  {
    if |outcomes| == 0 then s else MergeAll(MergeStep(s, outcomes[0]), outcomes[1..])
  }

  method MergeResults(init: Summary, outcomes: seq<Outcome>) returns (r: Summary)
    ensures r == MergeAll(init, outcomes)
  {
    var errors, clean, histogram := init.errors, init.clean, init.histogram;
    for i := 0 to |outcomes|
      invariant MergeAll(Summary(errors, clean, histogram), outcomes[i..]) == MergeAll(init, outcomes)
    {
      assert outcomes[i..][0] == outcomes[i] && outcomes[i..][1..] == outcomes[i + 1..];
      var o := outcomes[i];
      errors := errors + (set x | x in o.errors);
      clean := clean + (set x | x in o.clean);
      histogram := MergeHistogram(histogram, o.chart);
    }
    return Summary(errors, clean, histogram);
  }

  /** The message names and clean files of the summary are the union of those of every result. */
  lemma {:induction false} MergedLists(s: Summary, outcomes: seq<Outcome>)
    ensures forall x :: x in MergeAll(s, outcomes).errors <==>
              x in s.errors || exists k :: 0 <= k < |outcomes| && x in outcomes[k].errors
    ensures forall x :: x in MergeAll(s, outcomes).clean <==>
              x in s.clean || exists k :: 0 <= k < |outcomes| && x in outcomes[k].clean
    decreases |outcomes|
  {
    if |outcomes| > 0 {
      var rest := outcomes[1..];
      MergedLists(MergeStep(s, outcomes[0]), rest);
      forall x
        ensures (exists k :: 0 <= k < |outcomes| && x in outcomes[k].errors) <==>
                x in outcomes[0].errors || exists k :: 0 <= k < |rest| && x in rest[k].errors
        ensures (exists k :: 0 <= k < |outcomes| && x in outcomes[k].clean) <==>
                x in outcomes[0].clean || exists k :: 0 <= k < |rest| && x in rest[k].clean
      {
        if exists k :: 0 <= k < |outcomes| && x in outcomes[k].errors {
          var k :| 0 <= k < |outcomes| && x in outcomes[k].errors;
          if k > 0 { assert x in rest[k - 1].errors; }
        }
        if exists k :: 0 <= k < |rest| && x in rest[k].errors {
          var k :| 0 <= k < |rest| && x in rest[k].errors;
          assert x in outcomes[k + 1].errors;
        }
        if exists k :: 0 <= k < |outcomes| && x in outcomes[k].clean {
          var k :| 0 <= k < |outcomes| && x in outcomes[k].clean;
          if k > 0 { assert x in rest[k - 1].clean; }
        }
        if exists k :: 0 <= k < |rest| && x in rest[k].clean {
          var k :| 0 <= k < |rest| && x in rest[k].clean;
          assert x in outcomes[k + 1].clean;
        }
      }
    }
  }

  /** All hits of several files, in order. */
  function Concat(runs: seq<seq<Hit>>): seq<Hit>
  {
    if |runs| == 0 then [] else runs[0] + Concat(runs[1..])
  }

  /** Summing the files' bar charts bucket by bucket gives the bar chart of all their hits. */
  lemma {:induction false} MergedHistogram(s: Summary, outcomes: seq<Outcome>, h0: seq<Hit>, runs: seq<seq<Hit>>)
    requires |runs| == |outcomes| && s.histogram == Plot(h0)
    requires forall k :: 0 <= k < |outcomes| ==> outcomes[k].chart == Plot(runs[k])
    ensures MergeAll(s, outcomes).histogram == Plot(h0 + Concat(runs))
    decreases |outcomes|
  {
    if |outcomes| == 0 {
      assert h0 + Concat(runs) == h0;
    } else {
      MergePlots(h0, runs[0]);
      assert forall k :: 0 <= k < |outcomes[1..]| ==> outcomes[1..][k] == outcomes[k + 1] && runs[1..][k] == runs[k + 1];
      MergedHistogram(MergeStep(s, outcomes[0]), outcomes[1..], h0 + runs[0], runs[1..]);
      assert Concat(runs) == runs[0] + Concat(runs[1..]);
      AppendAssoc(h0, runs[0], Concat(runs[1..]));
    }
  }
}
