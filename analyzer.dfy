/** The oldest script (analyzer.py): one file at a time, a line stamp only where a rule matched and
    a bound is set, with no fallback, raw occurrence times, and a troubleshooting column. */
module Analyzer {
  import opened Base
  import opened Text
  import opened Calendar
  import opened Seqs
  import opened Occurrences
  import opened Ranking
  import V1 = LogAnalyzerV1

  /** What makes `analyzeLogFiles` raise. */
  datatype Failure =
    | Unstamped    // getTimeFromLog: no second word (IndexError) or no MMDD HH:MM (ValueError)
    | MissingWord  // the occurrence time: fewer than two words (IndexError)
    | NoSolution   // `solutions[message]` for a message without one (KeyError)
    | ReadFailed   // `readlines` raised something other than UnicodeDecodeError

  /** The window from the `-t` and `-T` options: each given option must parse as MMDD HH:MM in 1900,
      else the script exits; an option not given leaves its bound unset. */
  function BoundsOf(startArg: Option<string>, endArg: Option<string>): (r: Result<V1.Bounds, V1.StartupError>)
    ensures r.Ok? <==> (V1.Given(startArg).Some? ==> ParseShort(startArg.value, DefaultYear).Some?) &&
                       (V1.Given(endArg).Some? ==> ParseShort(endArg.value, DefaultYear).Some?)
    ensures r.Ok? && V1.Given(startArg).None? ==> r.value.start.None?
    ensures r.Ok? && V1.Given(startArg).Some? ==> r.value.start == ParseShort(startArg.value, DefaultYear)
    ensures r.Ok? && V1.Given(endArg).None? ==> r.value.end.None?
    ensures r.Ok? && V1.Given(endArg).Some? ==> r.value.end == ParseShort(endArg.value, DefaultYear)
  {
    var s, e := V1.Given(startArg), V1.Given(endArg);
    if s.Some? && ParseShort(s.value, DefaultYear).None? then Err(V1.BadStartTime)
    else if e.Some? && ParseShort(e.value, DefaultYear).None? then Err(V1.BadEndTime)
    else Ok(V1.Bounds(if s.Some? then ParseShort(s.value, DefaultYear) else None,
                      if e.Some? then ParseShort(e.value, DefaultYear) else None))
  }

  // ---------------------------------------------------------------------------------------------
  // getTimeFromLog(line)

  /** The glog reading of the later revision, with no fallback: a line shaped otherwise raises. */
  function GetTimeFromLog(line: string): (r: Result<Stamp, Failure>)
    ensures r.Ok? <==> V1.GlogReading(line).Some?
    ensures r.Ok? ==> r.value == V1.GlogReading(line).value && Valid(r.value) && r.value.year == DefaultYear
  {
    match V1.GlogReading(line)
    case Some(t) => Ok(t)
    case None => Err(Unstamped)
  }

  /** A line `<c>MMDD HH:MM…` is stamped with that month, day, hour and minute; a database line
      `YYYY-MM-DD HH:MM:SS.ffffff …` raises. */
  lemma LineShapes(c: char, t: Stamp, rest: string, u: Stamp, fraction: string, tail: string)
    requires c != ' ' && Valid(t) && t.year == DefaultYear && t.second == 0
    requires Valid(u) && AllDigits(fraction) && (tail == [] || tail[0] == ' ')
    ensures GetTimeFromLog([c] + FormatShort(t) + rest) == Ok(t)
    ensures GetTimeFromLog(FormatFull(u) + "." + fraction + tail) == Err(Unstamped)
  {
    V1.FirstCharacterIgnored(c, t, rest);
    V1.DatabaseLineUnread(u, fraction, tail);
  }

  /** The window test of a line that matched a rule: with no bound set nothing is parsed; with a
      bound set the line's stamp must parse, and must lie in the window. */
  function InWindow(line: string, b: V1.Bounds): (r: Result<bool, Failure>)
    ensures b.start.None? && b.end.None? ==> r == Ok(true)
    ensures (b.start.Some? || b.end.Some?) ==>
              (r.Err? <==> GetTimeFromLog(line).Err?) &&
              (r.Ok? ==> r.value == V1.Admits(b, GetTimeFromLog(line).value))
  {
    if b.start.None? && b.end.None? then Ok(true)
    else
      match GetTimeFromLog(line)
      case Err(f) => Err(f)
      case Ok(t) => Ok(V1.Admits(b, t))
  }

  /** `line.split()[0][1:] + " " + line.split()[1]`: the raw time text, seconds and fraction kept. */
  function OccurrenceTime(line: string): (r: Result<string, Failure>)
    ensures r.Err? <==> |Words(line)| < 2
    ensures r.Ok? ==> r.value == Drop(Words(line)[0], 1) + " " + Words(line)[1]
  {
    var ws := Words(line);
    if |ws| < 2 then Err(MissingWord) else Ok(Drop(ws[0], 1) + " " + ws[1])
  }

  // ---------------------------------------------------------------------------------------------
  // The loops of analyzeLogFiles

  /** One rule tried on one line after the hits `acc`: the line's stamp is looked at only when the
      rule matched (case-sensitive), and a hit needs the message's solution and the line's time. The
      script looks the solution up on a message's first hit only; a later hit of the same message
      always finds it. */
  function RuleStep(line: string, b: V1.Bounds, rule: Rule, matches: Matcher, solutions: map<string, string>,
                    acc: seq<Hit>): Result<seq<Hit>, Failure>
  {
    if !matches(rule.pattern, line, false) then Ok(acc)
    else
      match InWindow(line, b)
      case Err(f) => Err(f)
      case Ok(inside) =>
        if !inside then Ok(acc)
        else if rule.name !in solutions then Err(NoSolution)
        else
          match OccurrenceTime(line)
          case Err(f) => Err(f)
          case Ok(time) => Ok(acc + [Hit(rule.name, time)])
  }

  /** Rules `j` onward tried on one line, with no break. */
  function RulesFrom(line: string, b: V1.Bounds, rules: seq<Rule>, j: nat, matches: Matcher,
                     solutions: map<string, string>, acc: seq<Hit>): Result<seq<Hit>, Failure>
    requires j <= |rules|
    decreases |rules| - j
  {
    if j == |rules| then Ok(acc)
    else
      match RuleStep(line, b, rules[j], matches, solutions, acc)
      case Err(f) => Err(f)
      case Ok(acc') => RulesFrom(line, b, rules, j + 1, matches, solutions, acc')
  }

  /** Lines `i` onward: every line is read, and the first failure ends the call. */
  function LinesFrom(ls: seq<string>, i: nat, b: V1.Bounds, rules: seq<Rule>, matches: Matcher,
                     solutions: map<string, string>, acc: seq<Hit>): Result<seq<Hit>, Failure>
    requires i <= |ls|
    decreases |ls| - i
  {
    if i == |ls| then Ok(acc)
    else
      match RulesFrom(ls[i], b, rules, 0, matches, solutions, acc)
      case Err(f) => Err(f)
      case Ok(acc') => LinesFrom(ls, i + 1, b, rules, matches, solutions, acc')
  }

  function FileHits(ls: seq<string>, b: V1.Bounds, rules: seq<Rule>, matches: Matcher,
                    solutions: map<string, string>): Result<seq<Hit>, Failure>
  {
    LinesFrom(ls, 0, b, rules, matches, solutions, [])
  }

  /** A line no rule matches adds nothing and is never parsed, so it cannot make the call raise. */
  lemma {:induction false} UnmatchedLineSkipped(line: string, b: V1.Bounds, rules: seq<Rule>, j: nat, matches: Matcher,
                                                solutions: map<string, string>, acc: seq<Hit>)
    requires j <= |rules|
    requires forall k :: j <= k < |rules| ==> !matches(rules[k].pattern, line, false)
    ensures RulesFrom(line, b, rules, j, matches, solutions, acc) == Ok(acc)
    decreases |rules| - j
  {
    if j < |rules| {
      UnmatchedLineSkipped(line, b, rules, j + 1, matches, solutions, acc);
    }
  }

  /** An admitted line with a time, whose matching rules all have solutions, gets one hit per
      matching rule, in table order, all with the line's raw time: a line matching k rules counts k
      times. */
  lemma {:induction false} AdmittedLineHits(line: string, b: V1.Bounds, rules: seq<Rule>, j: nat, matches: Matcher,
                                            solutions: map<string, string>, acc: seq<Hit>, time: string)
    requires j <= |rules|
    requires InWindow(line, b) == Ok(true) && OccurrenceTime(line) == Ok(time)
    requires forall k :: 0 <= k < |rules| ==> rules[k].name in solutions
    ensures RulesFrom(line, b, rules, j, matches, solutions, acc + AllHits(line, time, rules[..j], matches, false))
            == Ok(acc + AllHits(line, time, rules, matches, false))
    decreases |rules| - j
  {
    if j == |rules| {
      assert rules[..j] == rules;
    } else {
      AllHitsSnoc(line, time, rules, matches, false, j);
      var before := AllHits(line, time, rules[..j], matches, false);
      var step := if matches(rules[j].pattern, line, false) then [Hit(rules[j].name, time)] else [];
      AppendAssoc(acc, before, step);
      if !matches(rules[j].pattern, line, false) {
        assert acc + before + step == acc + before;
      }
      assert RuleStep(line, b, rules[j], matches, solutions, acc + before) == Ok(acc + before + step);
      AdmittedLineHits(line, b, rules, j + 1, matches, solutions, acc, time);
    }
  }

  /** With no bound set no line is ever stamped, so a call never raises for want of a stamp. */
  lemma {:induction false} NoBoundsNeverStamps(ls: seq<string>, i: nat, rules: seq<Rule>, matches: Matcher,
                                               solutions: map<string, string>, acc: seq<Hit>)
    requires i <= |ls|
    ensures LinesFrom(ls, i, V1.Bounds(None, None), rules, matches, solutions, acc) != Err(Unstamped)
    decreases |ls| - i
  {
    if i < |ls| {
      var r := RulesFrom(ls[i], V1.Bounds(None, None), rules, 0, matches, solutions, acc);
      RulesNeverStamp(ls[i], rules, 0, matches, solutions, acc);
      if r.Ok? {
        NoBoundsNeverStamps(ls, i + 1, rules, matches, solutions, r.value);
      }
    }
  }

  lemma {:induction false} RulesNeverStamp(line: string, rules: seq<Rule>, j: nat, matches: Matcher,
                                           solutions: map<string, string>, acc: seq<Hit>)
    requires j <= |rules|
    ensures RulesFrom(line, V1.Bounds(None, None), rules, j, matches, solutions, acc) != Err(Unstamped)
    decreases |rules| - j
  {
    if j < |rules| {
      var r := RuleStep(line, V1.Bounds(None, None), rules[j], matches, solutions, acc);
      if r.Ok? {
        RulesNeverStamp(line, rules, j + 1, matches, solutions, r.value);
      }
    }
  }

  /** Every hit's message has a solution. */
  predicate Solved(hits: seq<Hit>, solutions: map<string, string>)
  {
    forall k :: 0 <= k < |hits| ==> hits[k].message in solutions
  }

  lemma {:induction false} LinesSolved(ls: seq<string>, i: nat, b: V1.Bounds, rules: seq<Rule>, matches: Matcher,
                                       solutions: map<string, string>, acc: seq<Hit>)
    requires i <= |ls| && Solved(acc, solutions)
    ensures var r := LinesFrom(ls, i, b, rules, matches, solutions, acc); r.Ok? ==> Solved(r.value, solutions)
    decreases |ls| - i
  {
    if i < |ls| {
      RulesSolved(ls[i], b, rules, 0, matches, solutions, acc);
      var r := RulesFrom(ls[i], b, rules, 0, matches, solutions, acc);
      if r.Ok? {
        LinesSolved(ls, i + 1, b, rules, matches, solutions, r.value);
      }
    }
  }

  lemma {:induction false} RulesSolved(line: string, b: V1.Bounds, rules: seq<Rule>, j: nat, matches: Matcher,
                                       solutions: map<string, string>, acc: seq<Hit>)
    requires j <= |rules| && Solved(acc, solutions)
    ensures var r := RulesFrom(line, b, rules, j, matches, solutions, acc); r.Ok? ==> Solved(r.value, solutions)
    decreases |rules| - j
  {
    if j < |rules| {
      var r := RuleStep(line, b, rules[j], matches, solutions, acc);
      if r.Ok? {
        assert Solved(r.value, solutions);
        RulesSolved(line, b, rules, j + 1, matches, solutions, r.value);
      }
    }
  }

  // ---------------------------------------------------------------------------------------------
  // The table

  /** One row: `[numOccurrences, message, first, last, solution]`. */
  datatype SolvedRow = SolvedRow(count: nat, message: string, first: string, last: string, solution: string)

  /** The row of one sorted item (every message that was hit has a solution). */
  function SolvedRowOf(item: Item, solutions: map<string, string>): SolvedRow
  {
    SolvedRow(item.1.count, item.0, item.1.first, item.1.last, if item.0 in solutions then solutions[item.0] else "")
  }

  function SolvedTable(sorted: seq<Item>, solutions: map<string, string>): (table: seq<SolvedRow>)
    ensures |table| == |sorted|
    ensures forall i :: 0 <= i < |sorted| ==>
              table[i].count == sorted[i].1.count && table[i].first == sorted[i].1.first && table[i].last == sorted[i].1.last
  {
    seq(|sorted|, i requires 0 <= i < |sorted| => SolvedRowOf(sorted[i], solutions))
  }

  /** What a call gives back: an exception, `None` for a file that is not text, or the table. */
  datatype Report = Raised(failure: Failure) | NotText | Table(rows: seq<SolvedRow>)

  /** The table of the hits of one file: its items sorted by the chosen key, one row each, so that
      counts never increase down the table, or last (first) occurrence times never decrease. */
  function SortedTable(hits: seq<Hit>, solutions: map<string, string>, key: SortKey): (rows: seq<SolvedRow>)
    ensures key == ByCount ==> forall i, j :: 0 <= i < j < |rows| ==> rows[i].count >= rows[j].count
    ensures key == ByLast ==> forall i, j :: 0 <= i < j < |rows| ==> !LexLess(rows[j].last, rows[i].last)
    ensures key == ByFirst ==> forall i, j :: 0 <= i < j < |rows| ==> !LexLess(rows[j].first, rows[i].first)
  {
    SolvedTable(Rank(Items(Tabulate(hits), Messages(hits)), key), solutions)
  }

  /** A message has a row exactly when it was hit. */
  lemma RowIffHit(hits: seq<Hit>, solutions: map<string, string>, key: SortKey, m: string)
    ensures (exists i :: 0 <= i < |SortedTable(hits, solutions, key)| && SortedTable(hits, solutions, key)[i].message == m) <==> |Times(hits, m)| > 0
  {
    var t, keys := Tabulate(hits), Messages(hits);
    var ranked := Rank(Items(t, keys), key);
    var rows := SortedTable(hits, solutions, key);
    assert rows == SolvedTable(ranked, solutions);
    TabulateTimes(hits, m);
    RankHoldsEntries(t, keys, key, m);
    if m in keys {
      var i :| 0 <= i < |ranked| && ranked[i] == (m, t[m]);
      assert rows[i].message == m;
    }
    if i :| 0 <= i < |rows| && rows[i].message == m {
      assert ranked[i] in ranked;
    }
  }

  /** The row of a message holds its count and the times of its first and last hits in file order
      (not the smallest and largest times) and its solution. */
  lemma RowOfHit(hits: seq<Hit>, solutions: map<string, string>, key: SortKey, m: string, i: nat)
    requires Solved(hits, solutions)
    requires i < |SortedTable(hits, solutions, key)| && SortedTable(hits, solutions, key)[i].message == m
    ensures var ts := Times(hits, m); |ts| > 0 && m in solutions && SortedTable(hits, solutions, key)[i] == SolvedRow(|ts|, m, ts[0], ts[|ts| - 1], solutions[m])
  {
    var t, keys := Tabulate(hits), Messages(hits);
    var ranked := Rank(Items(t, keys), key);
    var rows := SortedTable(hits, solutions, key);
    assert rows == SolvedTable(ranked, solutions);
    TabulateTimes(hits, m);
    RankHoldsEntries(t, keys, key, m);
    assert ranked[i] in ranked;
    assert m in t;
    var k :| 0 <= k < |hits| && hits[k].message == m by {
      if forall k :: 0 <= k < |hits| ==> hits[k].message != m {
        TimesNone(hits, m);
      }
    }
  }

  function Analysis(content: FileContent, b: V1.Bounds, rules: seq<Rule>, matches: Matcher,
                    solutions: map<string, string>, key: SortKey): Report
  {
    match content
    case Unreadable => Raised(ReadFailed)
    case Undecodable => NotText
    case Lines(ls) =>
      match FileHits(ls, b, rules, matches, solutions)
      case Err(f) => Raised(f)
      case Ok(hits) => Table(SortedTable(hits, solutions, key))
  }

  /** A call that does not raise tabulates hits whose messages all have solutions. */
  lemma AnalysisSolved(ls: seq<string>, b: V1.Bounds, rules: seq<Rule>, matches: Matcher,
                       solutions: map<string, string>, key: SortKey)
    requires FileHits(ls, b, rules, matches, solutions).Ok?
    ensures var hits := FileHits(ls, b, rules, matches, solutions).value;
            Solved(hits, solutions) && Analysis(Lines(ls), b, rules, matches, solutions, key) == Table(SortedTable(hits, solutions, key))
  {
    LinesSolved(ls, 0, b, rules, matches, solutions, []);
  }

  /** No hit of `m` leaves it no time. */
  lemma {:induction false} TimesNone(hits: seq<Hit>, m: string)
    requires forall k :: 0 <= k < |hits| ==> hits[k].message != m
    ensures Times(hits, m) == []
  {
    if |hits| > 0 {
      TimesNone(hits[..|hits| - 1], m);
    }
  }

  // ---------------------------------------------------------------------------------------------
  // The main loop

  /** What the main loop writes for a file: the table, or the "no issues" message when the call
      returned an empty table or `None`; an exception ends the script. */
  datatype Verdict = Crashed(failure: Failure) | Listed(rows: seq<SolvedRow>) | NoIssues

  function VerdictOf(r: Report): Verdict
  {
    match r
    case Raised(f) => Crashed(f)
    case NotText => NoIssues
    case Table(rows) => if rows == [] then NoIssues else Listed(rows)
  }

  /** A file is reported as having no issues exactly when it is not text or nothing in it was hit:
      a file that cannot be decoded reads as a clean one. */
  lemma NoIssuesIff(content: FileContent, b: V1.Bounds, rules: seq<Rule>, matches: Matcher,
                    solutions: map<string, string>, key: SortKey)
    ensures VerdictOf(Analysis(content, b, rules, matches, solutions, key)) == NoIssues <==>
              content.Undecodable? || (content.Lines? && FileHits(content.lines, b, rules, matches, solutions) == Ok([]))
  {
    match content
    case Unreadable =>
    case Undecodable =>
    case Lines(ls) =>
      var r := FileHits(ls, b, rules, matches, solutions);
      if r.Ok? {
        assert Analysis(content, b, rules, matches, solutions, key) == Table(SortedTable(r.value, solutions, key));
        TableVerdict(r.value, solutions, key);
      } else {
        assert Analysis(content, b, rules, matches, solutions, key) == Raised(r.error);
      }
  }

  /** The table of a file that was read is "no issues" exactly when nothing in it was hit. */
  lemma TableVerdict(hits: seq<Hit>, solutions: map<string, string>, key: SortKey)
    ensures VerdictOf(Table(SortedTable(hits, solutions, key))) == NoIssues <==> hits == []
  {
    TableEmptyIffNoHits(hits, solutions, key);
  }

  lemma TableEmptyIffNoHits(hits: seq<Hit>, solutions: map<string, string>, key: SortKey)
    ensures SortedTable(hits, solutions, key) == [] <==> hits == []
  {
    EmptyTableIffNoHits(hits);
    if hits != [] {
      RankHoldsEntries(Tabulate(hits), Messages(hits), key, hits[0].message);
      assert |Rank(Items(Tabulate(hits), Messages(hits)), key)| > 0;
    }
  }

  // ---------------------------------------------------------------------------------------------
  // analyzeLogFiles

  method AnalyzeLogFiles(content: FileContent, b: V1.Bounds, rules: seq<Rule>, matches: Matcher,
                         solutions: map<string, string>, key: SortKey) returns (r: Report)
    ensures r == Analysis(content, b, rules, matches, solutions, key)
  {
    if content.Unreadable? {
      return Raised(ReadFailed);
    }
    if content.Undecodable? {
      return NotText;
    }
    var ls := content.lines;
    var results: Table := map[];
    var keys: seq<string> := [];
    ghost var hits: seq<Hit> := [];
    for i := 0 to |ls|
      invariant LinesFrom(ls, i, b, rules, matches, solutions, hits) == FileHits(ls, b, rules, matches, solutions)
      invariant results == Tabulate(hits) && keys == Messages(hits)
      invariant V1.FirstsSet(results) && forall m :: m in results ==> m in solutions
    {
      var line := ls[i];
      ghost var start := hits;
      for j := 0 to |rules|
        invariant RulesFrom(line, b, rules, j, matches, solutions, hits) == RulesFrom(line, b, rules, 0, matches, solutions, start)
        invariant results == Tabulate(hits) && keys == Messages(hits)
        invariant V1.FirstsSet(results) && forall m :: m in results ==> m in solutions
      {
        var failure: Option<Failure>;
        ghost var after: seq<Hit>;
        failure, results, keys, after := TryRule(line, b, rules[j], matches, solutions, hits, results, keys);
        if failure.Some? {
          return Raised(failure.value);
        }
        hits := after;
      }
    }
    var sorted := Rank(Items(results, keys), key);
    var table := BuildTable(sorted, solutions);
    return Table(table);
  }

  /** One pass of the rule loop: the rule is tried on the line, and on a match the line's stamp is
      checked against each bound that is set, the message's entry is created (its solution looked
      up) on its first hit, its count goes up, its first time is set once and its last time
      overwritten; or the exception that pass raises. */
  method TryRule(line: string, b: V1.Bounds, rule: Rule, matches: Matcher, solutions: map<string, string>,
                 ghost hits: seq<Hit>, results0: Table, keys0: seq<string>)
    returns (failure: Option<Failure>, results: Table, keys: seq<string>, ghost after: seq<Hit>)
    requires results0 == Tabulate(hits) && keys0 == Messages(hits)
    requires V1.FirstsSet(results0) && forall m :: m in results0 ==> m in solutions
    ensures RuleStep(line, b, rule, matches, solutions, hits) == if failure.Some? then Err(failure.value) else Ok(after)
    ensures results == Tabulate(after) && keys == Messages(after)
    ensures V1.FirstsSet(results) && forall m :: m in results ==> m in solutions
  {
    failure, results, keys, after := None, results0, keys0, hits;
    if matches(rule.pattern, line, false) {
      var inside := true;
      if b.start.Some? {
        var t := GetTimeFromLog(line);
        if t.Err? {
          return Some(t.error), results, keys, after;
        }
        inside := AtOrBefore(b.start.value, t.value);
      }
      if inside && b.end.Some? {
        var t := GetTimeFromLog(line);
        if t.Err? {
          return Some(t.error), results, keys, after;
        }
        inside := AtOrBefore(t.value, b.end.value);
      }
      assert InWindow(line, b) == Ok(inside);
      if inside {
        if rule.name !in results && rule.name !in solutions {
          return Some(NoSolution), results, keys, after;
        }
        var time := OccurrenceTime(line);
        if time.Err? {
          return Some(time.error), results, keys, after;
        }
        results, keys := V1.CountHit(rule.name, time.value, hits, results, keys);
        after := hits + [Hit(rule.name, time.value)];
      }
    }
  }

  /** The loop over the sorted items, one row each. */
  method BuildTable(sorted: seq<Item>, solutions: map<string, string>) returns (table: seq<SolvedRow>)
    ensures table == SolvedTable(sorted, solutions)
  {
    table := [];
    for i := 0 to |sorted|
      invariant table == SolvedTable(sorted[..i], solutions)
    {
      assert SolvedTable(sorted[..i + 1], solutions) == SolvedTable(sorted[..i], solutions) + [SolvedRowOf(sorted[i], solutions)];
      table := table + [SolvedRowOf(sorted[i], solutions)];
    }
    assert sorted[..|sorted|] == sorted;
  }
}
