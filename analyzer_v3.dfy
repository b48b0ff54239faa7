/** log_analyzer_v3.py: stamps in the current year, file metadata with a sub-type, and the
    per-node analysis of the files of one node, log type and sub-type whose first or last stamp
    lies in the window, each line classified by the first rule that matches it. */
module AnalyzerV3 {
  import opened Base
  import opened Text
  import opened Calendar
  import opened Seqs
  import opened Occurrences
  import opened LogLib
  import opened Dicts
  import AnalyzerV2

  /** A year `datetime.now()` can report. */
  predicate CurrentYear(year: int)
  {
    1 <= year <= 9999
  }

  /** The default window bounds, and the `previousTime` of the head and the tail scans. */
  const FromDefault: string := "0101 00:00"
  const ToDefault: string := "1231 23:59"

  lemma DefaultsParse()
    ensures ParseShort(FromDefault, DefaultYear) == Some(FirstMinute)
    ensures ParseShort(ToDefault, DefaultYear) == Some(LastMinute)
  {
    ParseFormatShort(FirstMinute);
    ParseFormatShort(LastMinute);
    assert FormatShort(FirstMinute) == FromDefault;
    assert FormatShort(LastMinute) == ToDefault;
  }

  /** MMDD HH:MM text valid in 1900 reads as the same minute in any other year. */
  lemma ShortInYear(s: string, year: int)
    requires ParseShort(s, DefaultYear).Some? && CurrentYear(year)
    ensures ParseShort(s, year) == Some(ParseShort(s, DefaultYear).value.(year := year))
  {
    var t := ParseShort(s, DefaultYear).value;
    DefaultYearDateValidEverywhere(t.month, t.day, year);
  }

  /** The MMDD HH:MM text of a stamp whose date exists in 1900 parses back in 1900. */
  lemma ShortTextOf(t: Stamp)
    requires Valid(t) && t.second == 0 && ValidDate(DefaultYear, t.month, t.day)
    ensures ParseShort(FormatShort(t), DefaultYear) == Some(t.(year := DefaultYear))
  {
    var u := t.(year := DefaultYear);
    ParseFormatShort(u);
    assert FormatShort(u) == FormatShort(t);
  }

  // ---------------------------------------------------------------------------------------------
  // getTimeFromLog(line, previousTime)

  /** The stamp of one line in the current year. The line is read as log_analyzer_v2.py reads it
      (a glog MMDD HH:MM, or a database stamp printed as MMDD HH:MM and parsed again, else
      `previous`), then given the current year, which a date valid in 1900 always accepts. */
  function StampLine(line: string, previous: string, year: int): (t: Stamp)
    requires |line| > 0 && ParseShort(previous, DefaultYear).Some? && CurrentYear(year)
    ensures Valid(t) && t.year == year && t.second == 0 && ValidDate(DefaultYear, t.month, t.day)
  {
    var u := AnalyzerV2.ParseLine(line, previous);
    DefaultYearDateValidEverywhere(u.month, u.day, year);
    WithYear(u, year).value
  }

  /** A glog line `<severity>MMDD HH:MM…` gives that minute in the current year. */
  lemma GlogLineStamp(sev: char, t: Stamp, rest: string, previous: string, year: int)
    requires IsSeverity(sev) && Valid(t) && t.year == DefaultYear && t.second == 0
    requires ParseShort(previous, DefaultYear).Some? && CurrentYear(year)
    ensures StampLine([sev] + FormatShort(t) + rest, previous, year) == t.(year := year)
  {
    AnalyzerV2.GlogShortLine(sev, t, rest, previous);
  }

  /** A database line gives its month, day, hour and minute in the current year, its own year
      and seconds dropped; on 29 February it takes `previous` in the current year. */
  lemma DatabaseLineStamp(u: Stamp, fraction: string, rest: string, previous: string, year: int)
    requires Valid(u) && 1 <= |fraction| <= 6 && AllDigits(fraction)
    requires rest == [] || rest[0] == ' '
    requires ParseShort(previous, DefaultYear).Some? && CurrentYear(year)
    ensures StampLine(FormatFull(u) + "." + fraction + rest, previous, year)
            == if ValidDate(DefaultYear, u.month, u.day) then u.(year := year, second := 0)
               else ParseShort(previous, DefaultYear).value.(year := year)
  {
    AnalyzerV2.DatabaseShortLine(u, fraction, rest, previous);
  }

  /** A line with no blank takes the stamp of the line before it, in the current year. */
  lemma FallbackStamp(line: string, t: Stamp, year: int)
    requires |line| > 0 && ' ' !in line && CurrentYear(year)
    requires Valid(t) && t.year == DefaultYear && t.second == 0
    ensures ParseShort(FormatShort(t), DefaultYear).Some?
    ensures StampLine(line, FormatShort(t), year) == t.(year := year)
  {
    AnalyzerV2.FallbackKeepsPrevious(line, t);
  }

  // ---------------------------------------------------------------------------------------------
  // getStartAndEndTimes

  /** The window in the current year, and as MMDD HH:MM text. */
  datatype Times = Times(startLong: Stamp, endLong: Stamp, startShort: string, endShort: string)

  /** A `--from_time`/`--to_time` value the script accepted at start-up: absent (""), or MMDD HH:MM
      valid in 1900. */
  predicate Accepted(s: string)
  {
    s == "" || ParseShort(s, DefaultYear).Some?
  }

  /** A missing start is 1 January 00:00 and a missing end 31 December 23:59; the long forms are
      the short forms read in the current year. */
  function StartAndEndTimes(startArg: string, endArg: string, year: int): (r: Times)
    requires Accepted(startArg) && Accepted(endArg) && CurrentYear(year)
    ensures r.startShort == if startArg == "" then FromDefault else startArg
    ensures r.endShort == if endArg == "" then ToDefault else endArg
    ensures ParseShort(r.startShort, year) == Some(r.startLong)
    ensures ParseShort(r.endShort, year) == Some(r.endLong)
  {
    DefaultsParse();
    var startText := if startArg != "" then startArg else FromDefault;
    var endText := if endArg != "" then endArg else ToDefault;
    var s := ParseShort(startText, DefaultYear).value;
    var e := ParseShort(endText, DefaultYear).value;
    ShortInYear(startText, year);
    ShortInYear(endText, year);
    FormatParseShort(startText, DefaultYear);
    FormatParseShort(endText, DefaultYear);
    DefaultYearDateValidEverywhere(s.month, s.day, year);
    DefaultYearDateValidEverywhere(e.month, e.day, year);
    Times(WithYear(s, year).value, WithYear(e, year).value, FormatShort(s), FormatShort(e))
  }

  // ---------------------------------------------------------------------------------------------
  // getFileMetadata

  datatype FileInfo = FileInfo(startsAt: Stamp, endsAt: Stamp, logType: string, nodeName: string, subType: string)

  /** This revision's stamp reader as a line classifier for the head and tail scans: it never
      raises `ValueError`; an empty read (end of file) fails on `line[0]`, which ends the read. */
  function ReaderOf(previous: string, year: int): string -> LineParse
    requires ParseShort(previous, DefaultYear).Some? && CurrentYear(year)
  {
    line => if line == "" then Fault else Parsed(StampLine(line, previous, year))
  }

  /** The metadata of one file, or `None` when it cannot be opened or read. */
  function FileInfoOf(path: string, content: FileContent, year: int): Option<FileInfo>
    requires CurrentYear(year)
  {
    if !content.Lines? then None
    else
      DefaultsParse();
      InfoFrom(path, ScanSpec(content.lines, ReaderOf(FromDefault, year), ReaderOf(ToDefault, year)), year)
  }

  /** The metadata from the scans' first and last stamps, with the defaults for the missing ones,
      given the current year. */
  function InfoFrom(path: string, ends: Option<Ends>, year: int): Option<FileInfo>
  {
    match ends
    case None => None
    case Some(e) =>
      var stamps := Restamp(if e.start.Some? then e.start.value else FirstMinute,
                            if e.end.Some? then e.end.value else LastMinute, year);
      Some(FileInfo(stamps.0, stamps.1, TypeOf(path), NodeName(path), SubTypeOf(path)))
  }

  /** getFileMetadata in log_analyzer_v3.py. */
  method ReadFileInfo(path: string, content: FileContent, year: int) returns (r: Option<FileInfo>)
    requires CurrentYear(year)
    ensures r == FileInfoOf(path, content, year)
  {
    if !content.Lines? {
      return None;
    }
    DefaultsParse();
    var ends := ScanEnds(content.lines, ReaderOf(FromDefault, year), ReaderOf(ToDefault, year));
    if ends == None {
      return None;
    }
    var startsAt := if ends.value.start.Some? then ends.value.start.value else FirstMinute;
    var endsAt := if ends.value.end.Some? then ends.value.end.value else LastMinute;
    var stamps := Restamp(startsAt, endsAt, year);
    r := Some(FileInfo(stamps.0, stamps.1, TypeOf(path), NodeName(path), SubTypeOf(path)));
  }

  /** An empty file: the first `readline()` gives "", whose `line[0]` raises, so no metadata. */
  lemma EmptyFileHasNoInfo(path: string, year: int)
    requires CurrentYear(year)
    ensures FileInfoOf(path, Lines([]), year) == None
  {
    DefaultsParse();
    assert ReadLine([], 0) == "";
  }

  /** Any other file: its first line always gives a stamp, so that is the start; the end is the
      stamp of its last line when it has more than one, else 31 December 23:59; both in the
      current year. */
  lemma FileInfoOfLines(path: string, ls: seq<string>, year: int)
    requires AnalyzerV2.NonEmptyLines(ls) && |ls| > 0 && CurrentYear(year)
    ensures FileInfoOf(path, Lines(ls), year).Some?
    ensures var info := FileInfoOf(path, Lines(ls), year).value;
            (DefaultsParse(); info.startsAt == StampLine(ls[0], FromDefault, year)) &&
            info.endsAt == if |ls| > 1 then (DefaultsParse(); StampLine(ls[|ls| - 1], ToDefault, year)) else LastMinute.(year := year)
  {
    DefaultsParse();
    var head, tail := ReaderOf(FromDefault, year), ReaderOf(ToDefault, year);
    var t := StampLine(ls[0], FromDefault, year);
    assert ReadLine(ls, 0) == ls[0];
    assert HeadScan(ls, 0, head) == HeadFound(t, 0);
    var rest := ls[1..];
    var w := LastLines(rest);
    if |ls| > 1 {
      assert w[|w| - 1] == ls[|ls| - 1];
      var e := StampLine(ls[|ls| - 1], ToDefault, year);
      assert TailScan(w, tail) == TailFound(e, |w| - 1);
      assert ScanSpec(ls, head, tail) == Some(Ends(Some(t), Some(e)));
    } else {
      assert w == [];
      assert ScanSpec(ls, head, tail) == Some(Ends(Some(t), None));
    }
  }

  /** Stamps that the scans can find: this revision's readers only produce stamps. */
  predicate EndsValid(e: Ends)
  {
    (e.start.Some? ==> Valid(e.start.value)) && (e.end.Some? ==> Valid(e.end.value))
  }

  lemma ScanValid(ls: seq<string>, year: int)
    requires CurrentYear(year)
    ensures (DefaultsParse(); var r := ScanSpec(ls, ReaderOf(FromDefault, year), ReaderOf(ToDefault, year));
             r.Some? ==> EndsValid(r.value))
  {
    DefaultsParse();
    var head, tail := ReaderOf(FromDefault, year), ReaderOf(ToDefault, year);
    forall s | head(s).Parsed? ensures Valid(head(s).stamp) {
      assert head(s) == Parsed(StampLine(s, FromDefault, year));
    }
    forall s | tail(s).Parsed? ensures Valid(tail(s).stamp) {
      assert tail(s) == Parsed(StampLine(s, ToDefault, year));
    }
    ScanEndsValid(ls, head, tail);
  }

  /** Whatever the two readers, the scan only reports stamps they produced. */
  lemma ScanEndsValid(ls: seq<string>, head: string -> LineParse, tail: string -> LineParse)
    requires forall s :: head(s).Parsed? ==> Valid(head(s).stamp)
    requires forall s :: tail(s).Parsed? ==> Valid(tail(s).stamp)
    ensures ScanSpec(ls, head, tail).Some? ==> EndsValid(ScanSpec(ls, head, tail).value)
  {
    var h := HeadScan(ls, 0, head);
    if h.HeadFound? {
      assert head(ReadLine(ls, h.read)) == Parsed(h.stamp);
      TailValid(ls[Min(h.read + 1, |ls|)..], Some(h.stamp), tail);
    } else if h.HeadMissed? {
      TailValid(ls[Min(HeadLines, |ls|)..], None, tail);
    }
  }

  /** The tail scan, too, only reports a stamp its reader produced. */
  lemma TailValid(rest: seq<string>, start: Option<Stamp>, tail: string -> LineParse)
    requires forall s :: tail(s).Parsed? ==> Valid(tail(s).stamp)
    requires start.Some? ==> Valid(start.value)
    ensures TailEnds(rest, start, tail).Some? ==> EndsValid(TailEnds(rest, start, tail).value)
  {
    var tr := TailScan(LastLines(rest), tail);
    if tr.TailFound? {
      assert tail(LastLines(rest)[tr.index]) == Parsed(tr.stamp);
    }
  }

  lemma InfoFromValid(path: string, ends: Option<Ends>, year: int)
    requires ends.Some? ==> EndsValid(ends.value)
    ensures InfoFrom(path, ends, year).Some? ==>
              Valid(InfoFrom(path, ends, year).value.startsAt) && Valid(InfoFrom(path, ends, year).value.endsAt)
  {
    assert Valid(FirstMinute) && Valid(LastMinute);
  }

  /** Both stamps of a file's metadata are stamps. */
  lemma InfoValid(path: string, content: FileContent, year: int)
    requires CurrentYear(year)
    ensures FileInfoOf(path, content, year).Some? ==>
              Valid(FileInfoOf(path, content, year).value.startsAt) && Valid(FileInfoOf(path, content, year).value.endsAt)
  {
    if content.Lines? {
      DefaultsParse();
      ScanValid(content.lines, year);
      InfoFromValid(path, ScanSpec(content.lines, ReaderOf(FromDefault, year), ReaderOf(ToDefault, year)), year);
    }
  }

  // ---------------------------------------------------------------------------------------------
  // Log type and sub-type

  const TypeTableV3: seq<(string, string)> := TypeTable + [("application", "YBA")]

  /** The log type: log_lib.py's order of precedence, then "application" for YBA. */
  function TypeOf(path: string): string
  {
    if Contains(path, "postgres") then "postgres"
    else if Contains(path, "controller") then "yb-controller"
    else if Contains(path, "tserver") then "yb-tserver"
    else if Contains(path, "master") then "yb-master"
    else if Contains(path, "application") then "YBA"
    else "unknown"
  }

  /** The log type is the label of the first key of the table that occurs in the path; it agrees
      with log_lib.py's wherever that one is known. */
  lemma TypeOfIsFirstLabel(path: string)
    ensures TypeOf(path) == FirstLabel(path, TypeTableV3, "unknown")
    ensures LogType(path) != "unknown" ==> TypeOf(path) == LogType(path)
  {
    var t1 := TypeTableV3[1..];
    var t2 := t1[1..];
    var t3 := t2[1..];
    var t4 := t3[1..];
    assert TypeTableV3[0] == ("postgres", "postgres") && t1[0] == ("controller", "yb-controller");
    assert t2[0] == ("tserver", "yb-tserver") && t3[0] == ("master", "yb-master");
    assert t4 == [("application", "YBA")] && t4[1..] == [];
    assert FirstLabel(path, t4, "unknown") == if Contains(path, "application") then "YBA" else "unknown";
    assert FirstLabel(path, t3, "unknown") == if Contains(path, "master") then "yb-master" else FirstLabel(path, t4, "unknown");
    assert FirstLabel(path, t2, "unknown") == if Contains(path, "tserver") then "yb-tserver" else FirstLabel(path, t3, "unknown");
    assert FirstLabel(path, t1, "unknown") == if Contains(path, "controller") then "yb-controller" else FirstLabel(path, t2, "unknown");
  }

  const SubTypeTable: seq<(string, string)> :=
    [("INFO", "INFO"), ("WARN", "WARN"), ("ERROR", "ERROR"), ("FATAL", "FATAL"), ("postgres", "INFO"), ("application", "INFO")]

  /** The sub-type: the first severity named in the path, else INFO for postgres and YBA logs. */
  function SubTypeOf(path: string): string
  {
    if Contains(path, "INFO") then "INFO"
    else if Contains(path, "WARN") then "WARN"
    else if Contains(path, "ERROR") then "ERROR"
    else if Contains(path, "FATAL") then "FATAL"
    else if Contains(path, "postgres") then "INFO"
    else if Contains(path, "application") then "INFO"
    else "unknown"
  }

  lemma SubTypeIsFirstLabel(path: string)
    ensures SubTypeOf(path) == FirstLabel(path, SubTypeTable, "unknown")
  {
    var t1 := SubTypeTable[1..];
    var t2 := t1[1..];
    var t3 := t2[1..];
    var t4 := t3[1..];
    var t5 := t4[1..];
    assert SubTypeTable[0] == ("INFO", "INFO") && t1[0] == ("WARN", "WARN") && t2[0] == ("ERROR", "ERROR");
    assert t3[0] == ("FATAL", "FATAL") && t4[0] == ("postgres", "INFO");
    assert t5 == [("application", "INFO")] && t5[1..] == [];
    assert FirstLabel(path, t5, "unknown") == if Contains(path, "application") then "INFO" else "unknown";
    assert FirstLabel(path, t4, "unknown") == if Contains(path, "postgres") then "INFO" else FirstLabel(path, t5, "unknown");
    assert FirstLabel(path, t3, "unknown") == if Contains(path, "FATAL") then "FATAL" else FirstLabel(path, t4, "unknown");
    assert FirstLabel(path, t2, "unknown") == if Contains(path, "ERROR") then "ERROR" else FirstLabel(path, t3, "unknown");
    assert FirstLabel(path, t1, "unknown") == if Contains(path, "WARN") then "WARN" else FirstLabel(path, t2, "unknown");
  }

  // ---------------------------------------------------------------------------------------------
  // analyzeNodeLogs: which files

  /** The analysis window in the current year, both bounds included. */
  datatype Period = Period(start: Stamp, end: Stamp)

  predicate Within(t: Stamp, p: Period)
  {
    AtOrBefore(p.start, t) && AtOrBefore(t, p.end)
  }

  /** A file's entry in the metadata: `str` of its first and of its last stamp. */
  datatype Entry = Entry(startsAt: string, endsAt: string)

  /** The entry's two texts read back with `%Y-%m-%d %H:%M:%S` (the analysis raises otherwise). */
  predicate Readable(e: Entry)
  {
    ParseFull(e.startsAt).Some? && ParseFull(e.endsAt).Some?
  }

  ghost predicate AllReadable(files: Dict<Entry>)
  {
    forall f :: f in files.entries ==> Readable(files.entries[f])
  }

  /** A file whose first or last stamp lies in the window. */
  predicate Overlaps(e: Entry, p: Period)
  {
    var s, e := ParseFull(e.startsAt), ParseFull(e.endsAt);
    (s.Some? && Within(s.value, p)) || (e.Some? && Within(e.value, p))
  }

  function Overlapping(files: Dict<Entry>, p: Period): string -> bool
  {
    f => f in files.entries && Overlaps(files.entries[f], p)
  }

  /** `filteredLogs`: the files of the bucket, in its order, whose first or last stamp lies in the
      window. */
  function Kept(files: Dict<Entry>, p: Period): seq<string>
  {
    Filter(files.keys, Overlapping(files, p))
  }

  /** The filter loop of analyzeNodeLogs. */
  method FilterLogs(files: Dict<Entry>, p: Period) returns (kept: seq<string>)
    requires WellFormed(files) && AllReadable(files)
    ensures kept == Kept(files, p)
  {
    kept := [];
    var i := 0;
    while i < |files.keys|
      invariant 0 <= i <= |files.keys|
      invariant kept == Filter(files.keys[..i], Overlapping(files, p))
    {
      var f := files.keys[i];
      assert f in files.entries;
      FilterSnoc(files.keys, i, Overlapping(files, p));
      if Overlaps(files.entries[f], p) {
        kept := kept + [f];
      }
      i := i + 1;
    }
    assert files.keys[..i] == files.keys;
  }

  /** A file is analysed exactly when its first or its last stamp lies in the window; so a file
      that begins before the window and ends after it is not analysed. */
  lemma KeptIff(files: Dict<Entry>, p: Period, f: string)
    requires WellFormed(files) && AllReadable(files) && f in files.entries
    ensures f in Kept(files, p) <==>
              Within(ParseFull(files.entries[f].startsAt).value, p) || Within(ParseFull(files.entries[f].endsAt).value, p)
  {
    FilterHas(files.keys, Overlapping(files, p), f);
  }

  // ---------------------------------------------------------------------------------------------
  // analyzeNodeLogs: which lines

  /** The first rule whose pattern matches the line, case-sensitively: the loop breaks there. */
  function FirstMatch(line: string, rules: seq<Rule>, matches: Matcher): Option<string>
  {
    if |rules| == 0 then None
    else if matches(rules[0].pattern, line, false) then Some(rules[0].name)
    else FirstMatch(line, rules[1..], matches)
  }

  /** A line counts for one message only: the first rule in table order that matches it; none
      when no rule matches. */
  lemma {:induction false} FirstMatchIsFirst(line: string, rules: seq<Rule>, matches: Matcher)
    ensures FirstMatch(line, rules, matches).Some? ==>
              exists i :: 0 <= i < |rules| && rules[i].name == FirstMatch(line, rules, matches).value
                          && matches(rules[i].pattern, line, false)
                          && forall j :: 0 <= j < i ==> !matches(rules[j].pattern, line, false)
    ensures FirstMatch(line, rules, matches).None? <==>
              forall i :: 0 <= i < |rules| ==> !matches(rules[i].pattern, line, false)
  {
    if |rules| > 0 && !matches(rules[0].pattern, line, false) {
      var tail := rules[1..];
      FirstMatchIsFirst(line, tail, matches);
      assert forall i :: 1 <= i < |rules| ==> rules[i] == tail[i - 1];
      if FirstMatch(line, tail, matches).Some? {
        var i :| 0 <= i < |tail| && tail[i].name == FirstMatch(line, tail, matches).value
                 && matches(tail[i].pattern, line, false)
                 && forall j :: 0 <= j < i ==> !matches(tail[j].pattern, line, false);
        assert rules[i + 1] == tail[i];
        assert forall j :: 0 <= j < i + 1 ==> !matches(rules[j].pattern, line, false) by {
          forall j | 0 <= j < i + 1
            ensures !matches(rules[j].pattern, line, false)
          {
            if j > 0 {
              assert rules[j] == tail[j - 1];
            }
          }
        }
      }
    }
  }

  /** The rule loop of analyzeNodeLogs. */
  method FindRule(line: string, rules: seq<Rule>, matches: Matcher) returns (m: Option<string>)
    ensures m == FirstMatch(line, rules, matches)
  {
    var idx := 0;
    while idx < |rules|
      invariant 0 <= idx <= |rules|
      invariant FirstMatch(line, rules[idx..], matches) == FirstMatch(line, rules, matches)
    {
      assert rules[idx..][1..] == rules[idx + 1..];
      if matches(rules[idx].pattern, line, false) {
        return Some(rules[idx].name);
      }
      idx := idx + 1;
    }
    return None;
  }

  /** One classified line: its message and its stamp. */
  datatype Sighting = Sighting(message: string, at: Stamp)

  /** The sightings of a file from line `i` on, after the sightings `acc` of earlier lines and
      files. An empty line raises on `line[0]` and is skipped without a stamp; every other line is
      stamped (falling back on `previous`), and counted for its first matching rule when it lies
      in the window. There is no early stop. */
  function LinesFrom(ls: seq<string>, i: nat, previous: string, p: Period, rules: seq<Rule>, matches: Matcher,
                     year: int, acc: seq<Sighting>): seq<Sighting>
    requires i <= |ls| && ParseShort(previous, DefaultYear).Some? && CurrentYear(year)
    decreases |ls| - i
  {
    if i == |ls| then acc
    else if ls[i] == "" then LinesFrom(ls, i + 1, previous, p, rules, matches, year, acc)
    else
      var t := StampLine(ls[i], previous, year);
      ShortTextOf(t);
      var next := FormatShort(t);
      if Within(t, p) && FirstMatch(ls[i], rules, matches).Some? then
        LinesFrom(ls, i + 1, next, p, rules, matches, year, acc + [Sighting(FirstMatch(ls[i], rules, matches).value, t)])
      else LinesFrom(ls, i + 1, next, p, rules, matches, year, acc)
  }

  /** One non-empty line: it is stamped, sighted when it lies in the window and matches a rule, and
      its stamp becomes the previous one. */
  lemma LinesStep(ls: seq<string>, i: nat, previous: string, p: Period, rules: seq<Rule>, matches: Matcher,
                  year: int, acc: seq<Sighting>)
    requires i < |ls| && ls[i] != "" && ParseShort(previous, DefaultYear).Some? && CurrentYear(year)
    ensures var t := StampLine(ls[i], previous, year);
            ParseShort(FormatShort(t), DefaultYear).Some?
            && LinesFrom(ls, i, previous, p, rules, matches, year, acc)
               == LinesFrom(ls, i + 1, FormatShort(t), p, rules, matches, year,
                            if Within(t, p) && FirstMatch(ls[i], rules, matches).Some?
                            then acc + [Sighting(FirstMatch(ls[i], rules, matches).value, t)] else acc)
  {
    ShortTextOf(StampLine(ls[i], previous, year));
  }

  /** A file's sightings: none when it cannot be opened or decoded. */
  function FileSightings(content: FileContent, p: Period, rules: seq<Rule>, matches: Matcher, year: int,
                         acc: seq<Sighting>): seq<Sighting>
    requires CurrentYear(year)
  {
    if content.Lines? then
      AnalyzerV2.InitialTimeParses();
      LinesFrom(content.lines, 0, FromDefault, p, rules, matches, year, acc)
    else acc
  }

  /** The sightings of the files `paths[j..]`, in order, after `acc`. */
  function FilesFrom(paths: seq<string>, j: nat, read: string -> FileContent, p: Period, rules: seq<Rule>,
                     matches: Matcher, year: int, acc: seq<Sighting>): seq<Sighting>
    requires j <= |paths| && CurrentYear(year)
    decreases |paths| - j
  {
    if j == |paths| then acc
    else FilesFrom(paths, j + 1, read, p, rules, matches, year, FileSightings(read(paths[j]), p, rules, matches, year, acc))
  }

  /** A sighting the analysis can produce: a current-year stamp to the minute inside the window. */
  predicate Proper(s: Sighting, p: Period, year: int)
  {
    Valid(s.at) && s.at.year == year && s.at.second == 0 && Within(s.at, p)
  }

  predicate AllProper(ss: seq<Sighting>, p: Period, year: int)
  {
    forall k :: 0 <= k < |ss| ==> Proper(ss[k], p, year)
  }

  lemma AppendProper(ss: seq<Sighting>, s: Sighting, p: Period, year: int)
    requires AllProper(ss, p, year) && Proper(s, p, year)
    ensures AllProper(ss + [s], p, year)
  {
    assert forall k :: 0 <= k < |ss| ==> (ss + [s])[k] == ss[k];
  }

  /** Only lines inside the window, bounds included, are counted. */
  lemma {:induction false} LinesInWindow(ls: seq<string>, i: nat, previous: string, p: Period, rules: seq<Rule>,
                                         matches: Matcher, year: int, acc: seq<Sighting>)
    requires i <= |ls| && ParseShort(previous, DefaultYear).Some? && CurrentYear(year)
    requires AllProper(acc, p, year)
    ensures AllProper(LinesFrom(ls, i, previous, p, rules, matches, year, acc), p, year)
    decreases |ls| - i
  {
    if i < |ls| {
      if ls[i] == "" {
        LinesInWindow(ls, i + 1, previous, p, rules, matches, year, acc);
      } else {
        var t := StampLine(ls[i], previous, year);
        ShortTextOf(t);
        var m := FirstMatch(ls[i], rules, matches);
        if Within(t, p) && m.Some? {
          AppendProper(acc, Sighting(m.value, t), p, year);
          LinesInWindow(ls, i + 1, FormatShort(t), p, rules, matches, year, acc + [Sighting(m.value, t)]);
        } else {
          LinesInWindow(ls, i + 1, FormatShort(t), p, rules, matches, year, acc);
        }
      }
    }
  }

  /** The `previousTime` in force when line `k` is read, starting at line `i` with `previous`. */
  function PreviousAt(ls: seq<string>, i: nat, previous: string, k: nat, year: int): (s: string)
    requires i <= k <= |ls| && ParseShort(previous, DefaultYear).Some? && CurrentYear(year)
    ensures ParseShort(s, DefaultYear).Some?
    decreases k - i
  {
    if i == k then previous
    else if ls[i] == "" then PreviousAt(ls, i + 1, previous, k, year)
    else
      var t := StampLine(ls[i], previous, year);
      ShortTextOf(t);
      PreviousAt(ls, i + 1, FormatShort(t), k, year)
  }

  /** Earlier sightings are kept as they are. */
  lemma {:induction false} LinesKeepEarlier(ls: seq<string>, i: nat, previous: string, p: Period, rules: seq<Rule>,
                                            matches: Matcher, year: int, acc: seq<Sighting>)
    requires i <= |ls| && ParseShort(previous, DefaultYear).Some? && CurrentYear(year)
    ensures acc <= LinesFrom(ls, i, previous, p, rules, matches, year, acc)
    decreases |ls| - i
  {
    if i < |ls| {
      if ls[i] == "" {
        LinesKeepEarlier(ls, i + 1, previous, p, rules, matches, year, acc);
      } else {
        var t := StampLine(ls[i], previous, year);
        ShortTextOf(t);
        var m := FirstMatch(ls[i], rules, matches);
        if Within(t, p) && m.Some? {
          var acc' := acc + [Sighting(m.value, t)];
          LinesKeepEarlier(ls, i + 1, FormatShort(t), p, rules, matches, year, acc');
          assert acc <= acc';
        } else {
          LinesKeepEarlier(ls, i + 1, FormatShort(t), p, rules, matches, year, acc);
        }
      }
    }
  }

  /** No early stop: every non-empty line whose stamp lies in the window and that some rule
      matches is counted, whatever lines come before it, late ones included. */
  lemma {:induction false} InWindowLineCounted(ls: seq<string>, i: nat, previous: string, p: Period, rules: seq<Rule>,
                                               matches: Matcher, year: int, acc: seq<Sighting>, k: nat)
    requires i <= k < |ls| && ls[k] != "" && ParseShort(previous, DefaultYear).Some? && CurrentYear(year)
    requires Within(StampLine(ls[k], PreviousAt(ls, i, previous, k, year), year), p)
    requires FirstMatch(ls[k], rules, matches).Some?
    ensures Sighting(FirstMatch(ls[k], rules, matches).value, StampLine(ls[k], PreviousAt(ls, i, previous, k, year), year))
            in LinesFrom(ls, i, previous, p, rules, matches, year, acc)
    decreases k - i
  {
    if ls[i] == "" {
      InWindowLineCounted(ls, i + 1, previous, p, rules, matches, year, acc, k);
      return;
    }
    var t := StampLine(ls[i], previous, year);
    ShortTextOf(t);
    var m := FirstMatch(ls[i], rules, matches);
    if i == k {
      var acc' := acc + [Sighting(m.value, t)];
      LinesKeepEarlier(ls, i + 1, FormatShort(t), p, rules, matches, year, acc');
      assert acc'[|acc|] == Sighting(m.value, t);
    } else if Within(t, p) && m.Some? {
      InWindowLineCounted(ls, i + 1, FormatShort(t), p, rules, matches, year, acc + [Sighting(m.value, t)], k);
    } else {
      InWindowLineCounted(ls, i + 1, FormatShort(t), p, rules, matches, year, acc, k);
    }
  }

  // ---------------------------------------------------------------------------------------------
  // analyzeNodeLogs: per-message statistics

  /** `message_stats[msg_type]`: first and last stamp, count and hour buckets. */
  datatype MessageStats = MessageStats(first: Stamp, last: Stamp, count: nat, histogram: Row)

  predicate AllValid(ss: seq<Sighting>)
  {
    forall k :: 0 <= k < |ss| ==> Valid(ss[k].at)
  }

  /** One sighting noted: a new message starts at count 1; a known one moves its first stamp back
      or its last stamp forward when the sighting lies beyond them, and counts one more; either way
      its hour bucket goes up by one. */
  function Note(stats: map<string, MessageStats>, s: Sighting): map<string, MessageStats>
    requires Valid(s.at)
  {
    var key := HourKey(s.at);
    if s.message !in stats then stats[s.message := MessageStats(s.at, s.at, 1, Bump(map[], key))]
    else
      var o := stats[s.message];
      stats[s.message := MessageStats(if Before(s.at, o.first) then s.at else o.first,
                                      if Before(o.last, s.at) then s.at else o.last,
                                      o.count + 1, Bump(o.histogram, key))]
  }

  /** The statistics of a sequence of sightings. */
  function Stats(ss: seq<Sighting>): map<string, MessageStats>
    requires AllValid(ss)
  {
    if |ss| == 0 then map[]
    else Note(Stats(ss[..|ss| - 1]), ss[|ss| - 1])
  }

  /** How many sightings are of message `m`. */
  function CountOf(ss: seq<Sighting>, m: string): nat
  {
    if |ss| == 0 then 0
    else CountOf(ss[..|ss| - 1], m) + (if ss[|ss| - 1].message == m then 1 else 0)
  }

  /** Noting a sighting touches its own message only. */
  lemma NoteEntry(stats: map<string, MessageStats>, s: Sighting, m: string)
    requires Valid(s.at)
    ensures m in Note(stats, s) <==> m in stats || m == s.message
    ensures m != s.message && m in stats ==> Note(stats, s)[m] == stats[m]
    ensures m == s.message ==> Note(stats, s)[m].count == (if m in stats then stats[m].count else 0) + 1
  {
  }

  /** Noting a sighting widens its message's first and last stamps to cover it, and they stay
      stamps of sightings. */
  lemma NoteBounds(stats: map<string, MessageStats>, s: Sighting)
    requires Valid(s.at)
    ensures var n := Note(stats, s)[s.message];
            AtOrBefore(n.first, s.at) && AtOrBefore(s.at, n.last)
    ensures s.message in stats ==>
              var o, n := stats[s.message], Note(stats, s)[s.message];
              AtOrBefore(n.first, o.first) && AtOrBefore(o.last, n.last)
              && (n.first == o.first || n.first == s.at) && (n.last == o.last || n.last == s.at)
    ensures s.message !in stats ==> Note(stats, s)[s.message].first == s.at == Note(stats, s)[s.message].last
  {
    if s.message in stats {
      var o := stats[s.message];
      BeforeTotal(s.at, o.first);
      BeforeTotal(o.last, s.at);
    }
  }

  /** Whether message `m` is sighted at all in `ss`. */
  predicate Mentions(ss: seq<Sighting>, m: string)
  {
    exists k :: 0 <= k < |ss| && ss[k].message == m
  }

  lemma MentionsSnoc(ss: seq<Sighting>, m: string)
    requires |ss| > 0
    ensures Mentions(ss, m) <==> Mentions(ss[..|ss| - 1], m) || ss[|ss| - 1].message == m
  {
    var front := ss[..|ss| - 1];
    if Mentions(front, m) {
      var k :| 0 <= k < |front| && front[k].message == m;
      assert ss[k] == front[k];
    }
    if Mentions(ss, m) {
      var k :| 0 <= k < |ss| && ss[k].message == m;
      if k < |front| {
        assert front[k] == ss[k];
      }
    }
  }

  /** A message has statistics exactly when it was sighted, and its count is the number of its
      sightings. */
  lemma {:induction false} StatsCount(ss: seq<Sighting>, m: string)
    requires AllValid(ss)
    ensures m in Stats(ss) <==> Mentions(ss, m)
    ensures m in Stats(ss) ==> Stats(ss)[m].count == CountOf(ss, m)
    ensures m !in Stats(ss) ==> CountOf(ss, m) == 0
  {
    if |ss| > 0 {
      var front := ss[..|ss| - 1];
      assert AllValid(front) by {
        assert forall k :: 0 <= k < |front| ==> front[k] == ss[k];
      }
      StatsCount(front, m);
      NoteEntry(Stats(front), ss[|ss| - 1], m);
      MentionsSnoc(ss, m);
    }
  }

  /** Whether message `m` is sighted at stamp `t` in `ss`. */
  predicate SightedAt(ss: seq<Sighting>, m: string, t: Stamp)
  {
    exists k :: 0 <= k < |ss| && ss[k].message == m && ss[k].at == t
  }

  /** Every sighting of message `m` lies between its first and its last stamp. */
  predicate Covers(ss: seq<Sighting>, m: string, n: MessageStats)
  {
    forall k :: 0 <= k < |ss| && ss[k].message == m ==> AtOrBefore(n.first, ss[k].at) && AtOrBefore(ss[k].at, n.last)
  }

  /** The first stamp of a message is the earliest of its sightings and the last the latest. */
  lemma {:induction false} StatsBounds(ss: seq<Sighting>, m: string)
    requires AllValid(ss) && m in Stats(ss)
    ensures Covers(ss, m, Stats(ss)[m])
    ensures SightedAt(ss, m, Stats(ss)[m].first) && SightedAt(ss, m, Stats(ss)[m].last)
  {
    var front := ss[..|ss| - 1];
    var s := ss[|ss| - 1];
    var n := Stats(ss)[m];
    assert ss == front + [s];
    assert AllValid(front) by {
      assert forall k :: 0 <= k < |front| ==> front[k] == ss[k];
    }
    NoteEntry(Stats(front), s, m);
    if s.message != m {
      StatsBounds(front, m);
      SightedGrows(front, s, m, n.first);
      SightedGrows(front, s, m, n.last);
      CoversGrows(front, s, m, n);
    } else {
      NoteBounds(Stats(front), s);
      assert SightedAt(ss, m, s.at) by {
        assert ss[|ss| - 1] == s;
      }
      if m in Stats(front) {
        var o := Stats(front)[m];
        StatsBounds(front, m);
        SightedGrows(front, s, m, o.first);
        SightedGrows(front, s, m, o.last);
        forall k | 0 <= k < |front| && front[k].message == m
          ensures AtOrBefore(n.first, front[k].at) && AtOrBefore(front[k].at, n.last)
        {
          BeforeTransitive(n.first, o.first, front[k].at);
          BeforeTransitive(front[k].at, o.last, n.last);
        }
        CoversGrows(front, s, m, n);
      } else {
        StatsCount(front, m);
        assert Covers(front, m, n);
        CoversGrows(front, s, m, n);
      }
    }
  }

  lemma SightedGrows(ss: seq<Sighting>, s: Sighting, m: string, t: Stamp)
    requires SightedAt(ss, m, t)
    ensures SightedAt(ss + [s], m, t)
  {
    var k :| 0 <= k < |ss| && ss[k].message == m && ss[k].at == t;
    assert (ss + [s])[k] == ss[k];
  }

  lemma CoversGrows(ss: seq<Sighting>, s: Sighting, m: string, n: MessageStats)
    requires Covers(ss, m, n)
    requires s.message == m ==> AtOrBefore(n.first, s.at) && AtOrBefore(s.at, n.last)
    ensures Covers(ss + [s], m, n)
  {
    assert forall k :: 0 <= k < |ss| ==> (ss + [s])[k] == ss[k];
  }

  /** A message's hour buckets add up to its count. */
  lemma {:induction false} HistogramTotal(ss: seq<Sighting>, m: string)
    requires AllValid(ss) && m in Stats(ss)
    ensures Total(Stats(ss)[m].histogram) == Stats(ss)[m].count
  {
    var front := ss[..|ss| - 1];
    var s := ss[|ss| - 1];
    if s.message == m {
      if m in Stats(front) {
        HistogramTotal(front, m);
        TotalBump(Stats(front)[m].histogram, HourKey(s.at));
      } else {
        TotalBump(map[], HourKey(s.at));
        assert Total(map[]) == 0;
      }
    } else {
      HistogramTotal(front, m);
    }
  }

  lemma AllValidSnoc(ss: seq<Sighting>, s: Sighting)
    requires AllValid(ss) && Valid(s.at)
    ensures AllValid(ss + [s]) && Stats(ss + [s]) == Note(Stats(ss), s)
  {
    assert forall k :: 0 <= k < |ss| ==> (ss + [s])[k] == ss[k];
    assert (ss + [s])[..|ss|] == ss;
  }

  /** Every message's stamps are stamps. */
  ghost predicate StatsValid(stats: map<string, MessageStats>)
  {
    forall m :: m in stats ==> Valid(stats[m].first) && Valid(stats[m].last)
  }

  lemma {:induction false} StatsAreValid(ss: seq<Sighting>)
    requires AllValid(ss)
    ensures StatsValid(Stats(ss))
  {
    if |ss| > 0 {
      var front := ss[..|ss| - 1];
      assert AllValid(front) by {
        assert forall k :: 0 <= k < |front| ==> front[k] == ss[k];
      }
      StatsAreValid(front);
      NoteBounds(Stats(front), ss[|ss| - 1]);
    }
  }

  // ---------------------------------------------------------------------------------------------
  // analyzeNodeLogs: the report

  /** `logMessages[msg_type]`: the first and last stamps in ISO form, the count and the hour
      buckets. */
  datatype LogMessage = LogMessage(startTime: string, endTime: string, count: nat, histogram: Row)

  function Formatted(n: MessageStats): (r: LogMessage)
    requires Valid(n.first) && Valid(n.last)
  {
    LogMessage(FormatIso(n.first), FormatIso(n.last), n.count, n.histogram)
  }

  /** The report of the messages in `done`. */
  function ReportOn(stats: map<string, MessageStats>, done: set<string>): map<string, LogMessage>
    requires StatsValid(stats)
  {
    map m | m in stats && m in done :: Formatted(stats[m])
  }

  function Report(stats: map<string, MessageStats>): map<string, LogMessage>
    requires StatsValid(stats)
  {
    ReportOn(stats, stats.Keys)
  }

  lemma ReportOnStep(stats: map<string, MessageStats>, done: set<string>, m: string)
    requires StatsValid(stats) && m in stats
    ensures ReportOn(stats, done + {m}) == ReportOn(stats, done)[m := Formatted(stats[m])]
  {
  }

  /** The formatting loop at the end of analyzeNodeLogs. */
  method FormatMessages(stats: map<string, MessageStats>) returns (messages: map<string, LogMessage>)
    requires StatsValid(stats)
    ensures messages == Report(stats)
  {
    messages := map[];
    var todo := stats.Keys;
    while todo != {}
      invariant todo <= stats.Keys
      invariant messages == ReportOn(stats, stats.Keys - todo)
      decreases |todo|
    {
      var m :| m in todo;
      ReportOnStep(stats, stats.Keys - todo, m);
      assert stats.Keys - (todo - {m}) == (stats.Keys - todo) + {m};
      var n := stats[m];
      messages := messages[m := LogMessage(FormatIso(n.first), FormatIso(n.last), n.count, n.histogram)];
      todo := todo - {m};
    }
    assert stats.Keys - todo == stats.Keys;
  }

  /** What the report says of a message: it is listed exactly when it was sighted, its count is
      the number of its sightings, its hour buckets add up to that count, and its two times are
      those of its earliest and of its latest sighting. */
  lemma ReportOfSightings(ss: seq<Sighting>, m: string)
    requires AllValid(ss)
    ensures StatsValid(Stats(ss))
    ensures m in Report(Stats(ss)) <==> Mentions(ss, m)
    ensures m in Report(Stats(ss)) ==>
              var r, n := Report(Stats(ss))[m], Stats(ss)[m];
              r.count == CountOf(ss, m) && Total(r.histogram) == r.count
              && r.startTime == FormatIso(n.first) && r.endTime == FormatIso(n.last)
              && Covers(ss, m, n) && SightedAt(ss, m, n.first) && SightedAt(ss, m, n.last)
  {
    StatsAreValid(ss);
    StatsCount(ss, m);
    if m in Stats(ss) {
      HistogramTotal(ss, m);
      StatsBounds(ss, m);
    }
  }

  // ---------------------------------------------------------------------------------------------
  // analyzeNodeLogs

  /** `pg_regex_patterns` for postgres logs, `universe_regex_patterns` for the others. */
  function RulesFor(logType: string, universe: seq<Rule>, pg: seq<Rule>): (rules: seq<Rule>)
    ensures rules == if logType == "postgres" then pg else universe
  {
    if logType == "postgres" then pg else universe
  }

  lemma {:induction false} FileInWindow(content: FileContent, p: Period, rules: seq<Rule>, matches: Matcher, year: int,
                                        acc: seq<Sighting>)
    requires CurrentYear(year) && AllProper(acc, p, year)
    ensures AllProper(FileSightings(content, p, rules, matches, year, acc), p, year)
  {
    if content.Lines? {
      AnalyzerV2.InitialTimeParses();
      LinesInWindow(content.lines, 0, FromDefault, p, rules, matches, year, acc);
    }
  }

  lemma {:induction false} FilesInWindow(paths: seq<string>, j: nat, read: string -> FileContent, p: Period,
                                         rules: seq<Rule>, matches: Matcher, year: int, acc: seq<Sighting>)
    requires j <= |paths| && CurrentYear(year) && AllProper(acc, p, year)
    ensures AllProper(FilesFrom(paths, j, read, p, rules, matches, year, acc), p, year)
    decreases |paths| - j
  {
    if j < |paths| {
      var acc' := FileSightings(read(paths[j]), p, rules, matches, year, acc);
      FileInWindow(read(paths[j]), p, rules, matches, year, acc);
      FilesInWindow(paths, j + 1, read, p, rules, matches, year, acc');
    }
  }

  /** The sightings in the files of a bucket that the analysis reads. */
  function NodeSightings(files: Dict<Entry>, logType: string, p: Period, universe: seq<Rule>, pg: seq<Rule>,
                         matches: Matcher, read: string -> FileContent, year: int): (ss: seq<Sighting>)
    requires CurrentYear(year)
    ensures AllProper(ss, p, year)
  {
    FilesInWindow(Kept(files, p), 0, read, p, RulesFor(logType, universe, pg), matches, year, []);
    FilesFrom(Kept(files, p), 0, read, p, RulesFor(logType, universe, pg), matches, year, [])
  }

  /** The result of analyzeNodeLogs for one bucket of files. */
  datatype NodeSummary = NodeSummary(node: string, logType: string, logMessages: map<string, LogMessage>)

  function NodeReport(node: string, files: Dict<Entry>, logType: string, p: Period, universe: seq<Rule>,
                      pg: seq<Rule>, matches: Matcher, read: string -> FileContent, year: int): (r: NodeSummary)
    requires CurrentYear(year)
    ensures r.node == node && r.logType == logType
  {
    var ss := NodeSightings(files, logType, p, universe, pg, matches, read, year);
    StatsAreValid(ss);
    NodeSummary(node, logType, Report(Stats(ss)))
  }

  /** Every time reported lies in the window. */
  lemma ReportInWindow(node: string, files: Dict<Entry>, logType: string, p: Period, universe: seq<Rule>,
                       pg: seq<Rule>, matches: Matcher, read: string -> FileContent, year: int, m: string)
    requires CurrentYear(year)
    requires m in NodeReport(node, files, logType, p, universe, pg, matches, read, year).logMessages
    ensures var ss := NodeSightings(files, logType, p, universe, pg, matches, read, year);
            StatsValid(Stats(ss)) && m in Stats(ss) && Within(Stats(ss)[m].first, p) && Within(Stats(ss)[m].last, p)
            && NodeReport(node, files, logType, p, universe, pg, matches, read, year).logMessages[m].startTime
               == FormatIso(Stats(ss)[m].first)
  {
    var ss := NodeSightings(files, logType, p, universe, pg, matches, read, year);
    ReportOfSightings(ss, m);
    var n := Stats(ss)[m];
    var i :| 0 <= i < |ss| && ss[i].message == m && ss[i].at == n.first;
    var j :| 0 <= j < |ss| && ss[j].message == m && ss[j].at == n.last;
  }

  /** The line loop of analyzeNodeLogs over one file: statistics `stats0` of the sightings
      `seen0` so far become those of `seen0` followed by this file's sightings. */
  method AnalyzeFile(content: FileContent, p: Period, rules: seq<Rule>, matches: Matcher, year: int,
                     stats0: map<string, MessageStats>, ghost seen0: seq<Sighting>)
    returns (stats: map<string, MessageStats>, ghost seen: seq<Sighting>)
    requires CurrentYear(year) && AllProper(seen0, p, year) && stats0 == Stats(seen0)
    ensures seen == FileSightings(content, p, rules, matches, year, seen0)
    ensures AllProper(seen, p, year) && stats == Stats(seen)
  {
    stats, seen := stats0, seen0;
    if !content.Lines? {
      return;
    }
    var ls := content.lines;
    AnalyzerV2.InitialTimeParses();
    var previous := FromDefault;
    var i := 0;
    while i < |ls|
      invariant 0 <= i <= |ls| && ParseShort(previous, DefaultYear).Some?
      invariant LinesFrom(ls, i, previous, p, rules, matches, year, seen) == FileSightings(content, p, rules, matches, year, seen0)
      invariant AllProper(seen, p, year) && stats == Stats(seen)
    {
      var line := ls[i];
      if line != "" {
        var t := StampLine(line, previous, year);
        LinesStep(ls, i, previous, p, rules, matches, year, seen);
        if Within(t, p) {
          var m := FindRule(line, rules, matches);
          if m.Some? {
            var s := Sighting(m.value, t);
            AllValidSnoc(seen, s);
            AppendProper(seen, s, p, year);
            stats := Note(stats, s);
            seen := seen + [s];
          }
        }
        previous := FormatShort(t);
      }
      i := i + 1;
    }
  }

  /** analyzeNodeLogs: the files of one bucket whose first or last stamp lies in the window are
      read in order, and the report gives the statistics of their sightings. */
  method AnalyzeNodeLogs(node: string, files: Dict<Entry>, logType: string, p: Period, universe: seq<Rule>,
                         pg: seq<Rule>, matches: Matcher, read: string -> FileContent, year: int)
    returns (r: NodeSummary)
    requires CurrentYear(year) && WellFormed(files) && AllReadable(files)
    ensures r == NodeReport(node, files, logType, p, universe, pg, matches, read, year)
  {
    var kept := FilterLogs(files, p);
    var rules := if logType == "postgres" then pg else universe;
    var stats: map<string, MessageStats> := map[];
    ghost var seen: seq<Sighting> := [];
    var j := 0;
    while j < |kept|
      invariant 0 <= j <= |kept|
      invariant FilesFrom(kept, j, read, p, rules, matches, year, seen) == FilesFrom(kept, 0, read, p, rules, matches, year, [])
      invariant AllProper(seen, p, year) && stats == Stats(seen)
    {
      stats, seen := AnalyzeFile(read(kept[j]), p, rules, matches, year, stats, seen);
      j := j + 1;
    }
    StatsAreValid(seen);
    var messages := FormatMessages(stats);
    r := NodeSummary(node, logType, messages);
  }

  // ---------------------------------------------------------------------------------------------
  // The metadata: node, log type, sub-type, file

  /** The files of one sub-type, with their first and last stamps. */
  type Bucket = Dict<Entry>
  /** sub-type -> files */
  type TypeMeta = Dict<Bucket>
  /** log type -> sub-type -> files */
  type NodeMeta = Dict<TypeMeta>
  /** node -> log type -> sub-type -> files, as `log_files_metadata.json` holds them */
  type Metadata = Dict<NodeMeta>

  /** Every level is a well-formed dictionary and every entry's texts read back as stamps. */
  ghost predicate Sound(meta: Metadata)
  {
    WellFormed(meta) &&
    forall n :: n in meta.entries ==> SoundNode(meta.entries[n])
  }

  ghost predicate SoundNode(node: NodeMeta)
  {
    WellFormed(node) &&
    forall t :: t in node.entries ==> SoundType(node.entries[t])
  }

  ghost predicate SoundType(types: TypeMeta)
  {
    WellFormed(types) &&
    forall u :: u in types.entries ==> WellFormed(types.entries[u]) && AllReadable(types.entries[u])
  }

  /** The entry filed under node `n`, log type `t`, sub-type `u` and file `f`, if any. */
  function At(meta: Metadata, n: string, t: string, u: string, f: string): Option<Entry>
  {
    if n in meta.entries && t in meta.entries[n].entries && u in meta.entries[n].entries[t].entries
       && f in meta.entries[n].entries[t].entries[u].entries
    then Some(meta.entries[n].entries[t].entries[u].entries[f])
    else None
  }

  /** A file's entry: `str` of its two stamps. */
  function EntryOf(info: FileInfo): (e: Entry)
    requires Valid(info.startsAt) && Valid(info.endsAt)
    ensures Readable(e)
  {
    ParseFormatFull(info.startsAt);
    ParseFormatFull(info.endsAt);
    Entry(FormatFull(info.startsAt), FormatFull(info.endsAt))
  }

  /** One file filed under its node, log type and sub-type, each level created on first use. */
  function File(meta: Metadata, info: FileInfo, path: string): (r: Metadata)
    requires Fileable(meta, info) && Valid(info.startsAt) && Valid(info.endsAt)
  {
    var node := Lookup(meta, info.nodeName, Empty());
    var types := Lookup(node, info.logType, Empty());
    var bucket := Lookup(types, info.subType, Empty());
    Put(meta, info.nodeName, Put(node, info.logType, Put(types, info.subType, Put(bucket, path, EntryOf(info)))))
  }

  /** Every level a file is filed into is a well-formed dictionary, whether it exists yet or not. */
  ghost predicate Fileable(meta: Metadata, info: FileInfo)
  {
    WellFormed(meta)
    && WellFormed(Lookup(meta, info.nodeName, Empty()))
    && WellFormed(Lookup(Lookup(meta, info.nodeName, Empty()), info.logType, Empty()))
    && WellFormed(Lookup(Lookup(Lookup(meta, info.nodeName, Empty()), info.logType, Empty()), info.subType, Empty()))
  }

  lemma SoundFileable(meta: Metadata, info: FileInfo)
    requires Sound(meta)
    ensures Fileable(meta, info)
  {
    Levels(meta, info.nodeName, info.logType, info.subType);
  }

  lemma PutBucket(bucket: Bucket, f: string, e: Entry)
    requires WellFormed(bucket) && AllReadable(bucket) && Readable(e)
    ensures WellFormed(Put(bucket, f, e)) && AllReadable(Put(bucket, f, e))
  {
  }

  lemma PutType(types: TypeMeta, u: string, bucket: Bucket)
    requires SoundType(types) && WellFormed(bucket) && AllReadable(bucket)
    ensures SoundType(Put(types, u, bucket))
  {
  }

  lemma PutNode(node: NodeMeta, t: string, types: TypeMeta)
    requires SoundNode(node) && SoundType(types)
    ensures SoundNode(Put(node, t, types))
  {
  }

  lemma PutMeta(meta: Metadata, n: string, node: NodeMeta)
    requires Sound(meta) && SoundNode(node)
    ensures Sound(Put(meta, n, node))
  {
  }

  /** The levels a file is filed into are sound, whether they exist yet or not. */
  lemma Levels(meta: Metadata, n: string, t: string, u: string)
    requires Sound(meta)
    ensures SoundNode(Lookup(meta, n, Empty()))
    ensures SoundType(Lookup(Lookup(meta, n, Empty()), t, Empty()))
    ensures WellFormed(Lookup(Lookup(Lookup(meta, n, Empty()), t, Empty()), u, Empty()))
    ensures AllReadable(Lookup(Lookup(Lookup(meta, n, Empty()), t, Empty()), u, Empty()))
  {
    var node := Lookup(meta, n, Empty());
    assert SoundNode(node);
    var types := Lookup(node, t, Empty());
    assert SoundType(types);
  }

  /** Filing a file keeps the metadata sound. */
  lemma FileSound(meta: Metadata, info: FileInfo, path: string)
    requires Sound(meta) && Valid(info.startsAt) && Valid(info.endsAt)
    ensures Fileable(meta, info) && Sound(File(meta, info, path))
  {
    var node := Lookup(meta, info.nodeName, Empty());
    var types := Lookup(node, info.logType, Empty());
    var bucket := Lookup(types, info.subType, Empty());
    Levels(meta, info.nodeName, info.logType, info.subType);
    var bucket' := Put(bucket, path, EntryOf(info));
    PutBucket(bucket, path, EntryOf(info));
    var types' := Put(types, info.subType, bucket');
    PutType(types, info.subType, bucket');
    PutNode(node, info.logType, types');
    PutMeta(meta, info.nodeName, Put(node, info.logType, types'));
  }

  /** Filing a file files it where it belongs and changes nothing else. */
  lemma FileAt(meta: Metadata, info: FileInfo, path: string, n: string, t: string, u: string, f: string)
    requires Fileable(meta, info) && Valid(info.startsAt) && Valid(info.endsAt)
    ensures At(File(meta, info, path), n, t, u, f) ==
              if (n, t, u, f) == (info.nodeName, info.logType, info.subType, path) then Some(EntryOf(info))
              else At(meta, n, t, u, f)
  {
    var node := Lookup(meta, info.nodeName, Empty());
    var types := Lookup(node, info.logType, Empty());
    var bucket := Lookup(types, info.subType, Empty());
    var bucket' := Put(bucket, path, EntryOf(info));
    var types' := Put(types, info.subType, bucket');
    var node' := Put(node, info.logType, types');
    AtUpdated(meta, File(meta, info, path), node, node', types, types', bucket, bucket',
              info.nodeName, info.logType, info.subType, path, EntryOf(info), n, t, u, f);
  }

  /** Writing `e` at `n0`/`t0`/`u0`/`path`, each level taken from the one above (or empty), changes
      that one place only. */
  lemma AtUpdated(meta: Metadata, meta': Metadata, node: NodeMeta, node': NodeMeta, types: TypeMeta, types': TypeMeta,
                  bucket: Bucket, bucket': Bucket, n0: string, t0: string, u0: string, path: string, e: Entry,
                  n: string, t: string, u: string, f: string)
    requires node == Lookup(meta, n0, Empty()) && types == Lookup(node, t0, Empty()) && bucket == Lookup(types, u0, Empty())
    requires meta'.entries == meta.entries[n0 := node'] && node'.entries == node.entries[t0 := types']
    requires types'.entries == types.entries[u0 := bucket'] && bucket'.entries == bucket.entries[path := e]
    ensures At(meta', n, t, u, f) == if (n, t, u, f) == (n0, t0, u0, path) then Some(e) else At(meta, n, t, u, f)
  {
    if n == n0 && t == t0 && u == u0 {
      assert meta'.entries[n].entries[t].entries[u] == bucket';
    } else if n == n0 && t == t0 {
      assert meta'.entries[n].entries[t] == types';
    } else if n == n0 {
      assert meta'.entries[n] == node';
    }
  }

  /** The metadata of the files `paths`, in order; files without metadata are left out. */
  function MetadataOf(paths: seq<string>, read: string -> FileContent, year: int): (r: Metadata)
    requires CurrentYear(year)
    ensures Sound(r)
  {
    if |paths| == 0 then Empty()
    else
      var meta := MetadataOf(paths[..|paths| - 1], read, year);
      var path := paths[|paths| - 1];
      var info := FileInfoOf(path, read(path), year);
      InfoValid(path, read(path), year);
      if info.None? then meta
      else
        FileSound(meta, info.value, path);
        File(meta, info.value, path)
  }

  /** One more path of the metadata loop. */
  lemma MetadataStep(paths: seq<string>, i: nat, read: string -> FileContent, year: int)
    requires CurrentYear(year) && i < |paths|
    ensures (InfoValid(paths[i], read(paths[i]), year);
             var info := FileInfoOf(paths[i], read(paths[i]), year);
             MetadataOf(paths[..i + 1], read, year)
             == if info.None? then MetadataOf(paths[..i], read, year) else (SoundFileable(MetadataOf(paths[..i], read, year), info.value);
                     File(MetadataOf(paths[..i], read, year), info.value, paths[i])))
  {
    assert paths[..i + 1][..i] == paths[..i];
  }

  /** The main script's metadata loop. */
  method BuildMetadata(paths: seq<string>, read: string -> FileContent, year: int) returns (meta: Metadata)
    requires CurrentYear(year)
    ensures meta == MetadataOf(paths, read, year)
  {
    meta := Empty();
    var i := 0;
    while i < |paths|
      invariant 0 <= i <= |paths| && meta == MetadataOf(paths[..i], read, year)
    {
      var path := paths[i];
      MetadataStep(paths, i, read, year);
      var info := ReadFileInfo(path, read(path), year);
      if info.Some? {
        InfoValid(path, read(path), year);
        var i' := info.value;
        ghost var before := meta;
        SoundFileable(meta, i');
        var node := Lookup(meta, i'.nodeName, Empty());
        var types := Lookup(node, i'.logType, Empty());
        var bucket := Lookup(types, i'.subType, Empty());
        meta := Put(meta, i'.nodeName, Put(node, i'.logType, Put(types, i'.subType, Put(bucket, path, EntryOf(i')))));
        assert meta == File(before, i', path);
      }
      i := i + 1;
    }
    assert paths[..i] == paths;
  }

  /** A file is filed under node `n`, log type `t` and sub-type `u` exactly when it is one of the
      files and its metadata names them, and then its entry holds its two stamps. */
  lemma {:induction false} MetadataAt(paths: seq<string>, read: string -> FileContent, year: int,
                                      n: string, t: string, u: string, f: string)
    requires CurrentYear(year)
    ensures At(MetadataOf(paths, read, year), n, t, u, f).Some? <==>
              f in paths && FileInfoOf(f, read(f), year).Some?
              && var info := FileInfoOf(f, read(f), year).value;
                 (info.nodeName, info.logType, info.subType) == (n, t, u)
    ensures At(MetadataOf(paths, read, year), n, t, u, f).Some? ==>
              (InfoValid(f, read(f), year);
               At(MetadataOf(paths, read, year), n, t, u, f).value == EntryOf(FileInfoOf(f, read(f), year).value))
  {
    if |paths| > 0 {
      var front := paths[..|paths| - 1];
      var path := paths[|paths| - 1];
      assert paths == front + [path];
      MetadataAt(front, read, year, n, t, u, f);
      var info := FileInfoOf(path, read(path), year);
      InfoValid(path, read(path), year);
      if info.Some? {
        SoundFileable(MetadataOf(front, read, year), info.value);
        FileAt(MetadataOf(front, read, year), info.value, path, n, t, u, f);
      }
    }
  }

  // ---------------------------------------------------------------------------------------------
  // The summary: node -> log type -> messages

  /** What every call of analyzeNodeLogs shares: the window, the two rule tables, the matcher,
      the file reader and the current year. */
  datatype Run = Run(window: Period, universe: seq<Rule>, pg: seq<Rule>, matches: Matcher,
                     read: string -> FileContent, year: int)

  /** The messages reported for a bucket, given its node and log type. */
  type Reporter = (string, string, Bucket) -> map<string, LogMessage>

  /** The messages analyzeNodeLogs reports for a bucket. */
  function BucketMessages(run: Run, n: string, t: string, b: Bucket): map<string, LogMessage>
  {
    if CurrentYear(run.year)
    then NodeReport(n, b, t, run.window, run.universe, run.pg, run.matches, run.read, run.year).logMessages
    else map[]
  }

  /** analyzeNodeLogs as a reporter. */
  function Analysis(run: Run): Reporter
  {
    (n, t, b) => BucketMessages(run, n, t, b)
  }

  /** A node's log types are listed exactly when they have entries, and so are the sub-types of
      each. */
  ghost predicate Listed(node: NodeMeta)
  {
    WellFormed(node) && forall t :: t in node.entries ==> WellFormed(node.entries[t])
  }

  /** Every node's log types and sub-types are listed. */
  ghost predicate AllListed(meta: Metadata)
  {
    WellFormed(meta) && forall n :: n in meta.entries ==> Listed(meta.entries[n])
  }

  lemma SoundListed(meta: Metadata)
    requires Sound(meta)
    ensures AllListed(meta)
  {
    forall n | n in meta.entries
      ensures Listed(meta.entries[n])
    {
      assert SoundNode(meta.entries[n]);
    }
  }

  /** The report of sub-type `j` of log type `t` of node `n`. */
  function ReportAt(n: string, t: string, types: TypeMeta, j: nat, report: Reporter): map<string, LogMessage>
    requires WellFormed(types) && j < |types.keys|
  {
    assert types.keys[j] in types.keys;
    report(n, t, types.entries[types.keys[j]])
  }

  /** The messages of log type `t` of node `n` after its first `k` sub-types: each sub-type's
      report is laid over the messages so far. */
  function TypeMessages(n: string, t: string, types: TypeMeta, k: nat, report: Reporter): map<string, LogMessage>
    requires WellFormed(types) && k <= |types.keys|
  {
    if k == 0 then map[]
    else TypeMessages(n, t, types, k - 1, report) + ReportAt(n, t, types, k - 1, report)
  }

  /** The log types of node `n` after its first `k`. */
  function NodeResults(n: string, node: NodeMeta, k: nat, report: Reporter): map<string, map<string, LogMessage>>
    requires Listed(node) && k <= |node.keys|
  {
    if k == 0 then map[]
    else
      var t := node.keys[k - 1];
      assert t in node.keys;
      NodeResults(n, node, k - 1, report)[t := TypeMessages(n, t, node.entries[t], |node.entries[t].keys|, report)]
  }

  /** The nodes after the first `k`. */
  function ResultsFrom(meta: Metadata, k: nat, report: Reporter): map<string, map<string, map<string, LogMessage>>>
    requires AllListed(meta) && k <= |meta.keys|
  {
    if k == 0 then map[]
    else
      var n := meta.keys[k - 1];
      assert n in meta.keys;
      ResultsFrom(meta, k - 1, report)[n := NodeResults(n, meta.entries[n], |meta.entries[n].keys|, report)]
  }

  /** One more log type of a node. */
  lemma NodeResultsStep(n: string, node: NodeMeta, j: nat, report: Reporter)
    requires Listed(node) && j < |node.keys|
    ensures node.keys[j] in node.entries
    ensures NodeResults(n, node, j + 1, report)
            == NodeResults(n, node, j, report)[node.keys[j] := TypeMessages(n, node.keys[j], node.entries[node.keys[j]], |node.entries[node.keys[j]].keys|, report)]
  {
    assert node.keys[j] in node.keys;
  }

  /** One more node. */
  lemma ResultsStep(meta: Metadata, i: nat, report: Reporter)
    requires AllListed(meta) && i < |meta.keys|
    ensures meta.keys[i] in meta.entries
    ensures ResultsFrom(meta, i + 1, report)
            == ResultsFrom(meta, i, report)[meta.keys[i] := NodeResults(meta.keys[i], meta.entries[meta.keys[i]], |meta.entries[meta.keys[i]].keys|, report)]
  {
    assert meta.keys[i] in meta.keys;
  }

  /** `nested_results`, without the `"logMessages"` wrapper. */
  function Results(meta: Metadata, report: Reporter): map<string, map<string, map<string, LogMessage>>>
    requires AllListed(meta)
  {
    ResultsFrom(meta, |meta.keys|, report)
  }

  /** Sub-type `j` of the first `k` is the last that reports message `m`. */
  predicate LastReporting(n: string, t: string, types: TypeMeta, k: nat, report: Reporter, m: string, j: nat)
    requires WellFormed(types) && j < k <= |types.keys|
  {
    m in ReportAt(n, t, types, j, report) && forall j' :: j < j' < k ==> m !in ReportAt(n, t, types, j', report)
  }

  /** A message of a log type is reported exactly when one of its sub-types reports it, and the
      entry is that of the last such sub-type: a later sub-type replaces an earlier one's entry. */
  lemma LaterSubTypeReplaces(n: string, t: string, types: TypeMeta, k: nat, report: Reporter, m: string)
    requires WellFormed(types) && k <= |types.keys|
    ensures m in TypeMessages(n, t, types, k, report) <==> exists j :: 0 <= j < k && m in ReportAt(n, t, types, j, report)
    ensures forall j :: 0 <= j < k && LastReporting(n, t, types, k, report, m, j) ==>
              TypeMessages(n, t, types, k, report)[m] == ReportAt(n, t, types, j, report)[m]
  {
    TypeMessagesDomain(n, t, types, k, report, m);
    TypeMessagesLast(n, t, types, k, report, m);
  }

  /** A message of a log type is reported exactly when one of its sub-types reports it. */
  lemma {:induction false} TypeMessagesDomain(n: string, t: string, types: TypeMeta, k: nat, report: Reporter, m: string)
    requires WellFormed(types) && k <= |types.keys|
    ensures m in TypeMessages(n, t, types, k, report) <==> exists j :: 0 <= j < k && m in ReportAt(n, t, types, j, report)
  {
    if k > 0 {
      TypeMessagesDomain(n, t, types, k - 1, report, m);
      if m in ReportAt(n, t, types, k - 1, report) {
        assert m in TypeMessages(n, t, types, k, report);
      } else {
        assert m in TypeMessages(n, t, types, k, report) <==> m in TypeMessages(n, t, types, k - 1, report);
      }
    }
  }

  /** The entry kept for a message is that of the last sub-type reporting it. */
  lemma {:induction false} TypeMessagesLast(n: string, t: string, types: TypeMeta, k: nat, report: Reporter, m: string)
    requires WellFormed(types) && k <= |types.keys|
    ensures forall j :: 0 <= j < k && LastReporting(n, t, types, k, report, m, j) ==>
              m in TypeMessages(n, t, types, k, report) && TypeMessages(n, t, types, k, report)[m] == ReportAt(n, t, types, j, report)[m]
  {
    if k > 0 {
      TypeMessagesLast(n, t, types, k - 1, report, m);
      forall j | 0 <= j < k && LastReporting(n, t, types, k, report, m, j)
        ensures m in TypeMessages(n, t, types, k, report) && TypeMessages(n, t, types, k, report)[m] == ReportAt(n, t, types, j, report)[m]
      {
        if j < k - 1 {
          assert m !in ReportAt(n, t, types, k - 1, report);
          assert LastReporting(n, t, types, k - 1, report, m, j);
        }
      }
    }
  }

  /** Every node of the metadata gets an entry, which holds the node's log types. */
  lemma {:induction false} ResultsKeys(meta: Metadata, k: nat, report: Reporter)
    requires AllListed(meta) && k <= |meta.keys|
    ensures forall n :: n in ResultsFrom(meta, k, report) <==> n in meta.keys[..k]
    ensures forall n :: n in ResultsFrom(meta, k, report) ==>
              (n in meta.entries && ResultsFrom(meta, k, report)[n] == NodeResults(n, meta.entries[n], |meta.entries[n].keys|, report))
  {
    if k > 0 {
      ResultsKeys(meta, k - 1, report);
      assert meta.keys[..k] == meta.keys[..k - 1] + [meta.keys[k - 1]];
    }
  }

  /** Every log type of a node gets an entry... */
  lemma {:induction false} NodeResultsDomain(n: string, node: NodeMeta, k: nat, report: Reporter)
    requires Listed(node) && k <= |node.keys|
    ensures forall t :: t in NodeResults(n, node, k, report) <==> t in node.keys[..k]
  {
    if k > 0 {
      NodeResultsDomain(n, node, k - 1, report);
      assert node.keys[..k] == node.keys[..k - 1] + [node.keys[k - 1]];
    }
  }

  /** ... which holds the messages of its sub-types. */
  lemma {:induction false} NodeResultsValues(n: string, node: NodeMeta, k: nat, report: Reporter, t: string)
    requires Listed(node) && k <= |node.keys| && t in NodeResults(n, node, k, report)
    ensures t in node.entries
    ensures NodeResults(n, node, k, report)[t] == TypeMessages(n, t, node.entries[t], |node.entries[t].keys|, report)
  {
    var u := node.keys[k - 1];
    assert u in node.entries;
    if t != u {
      NodeResultsValues(n, node, k - 1, report, t);
    }
  }

  /** The main script's analysis loops, with analyzeNodeLogs for the reporter. */
  method Summarize(meta: Metadata, run: Run) returns (nested: map<string, map<string, map<string, LogMessage>>>)
    requires Sound(meta)
    ensures (SoundListed(meta); nested == Results(meta, Analysis(run)))
  {
    SoundListed(meta);
    nested := SummarizeWith(meta, Analysis(run));
  }

  /** The main script's analysis loops: every node, every log type, every sub-type in the order
      the metadata lists them; each sub-type's messages are merged into its log type's. */
  method SummarizeWith(meta: Metadata, report: Reporter) returns (nested: map<string, map<string, map<string, LogMessage>>>)
    requires AllListed(meta)
    ensures nested == Results(meta, report)
  {
    nested := map[];
    var i := 0;
    while i < |meta.keys|
      invariant 0 <= i <= |meta.keys| && nested == ResultsFrom(meta, i, report)
    {
      var n := meta.keys[i];
      ResultsStep(meta, i, report);
      var types := SummarizeNode(n, meta.entries[n], report);
      nested := nested[n := types];
      i := i + 1;
    }
  }

  /** The loop over one node's log types. */
  method SummarizeNode(n: string, node: NodeMeta, report: Reporter) returns (types: map<string, map<string, LogMessage>>)
    requires Listed(node)
    ensures types == NodeResults(n, node, |node.keys|, report)
  {
    types := map[];
    var j := 0;
    while j < |node.keys|
      invariant 0 <= j <= |node.keys| && types == NodeResults(n, node, j, report)
    {
      var t := node.keys[j];
      NodeResultsStep(n, node, j, report);
      var messages := SummarizeType(n, t, node.entries[t], report);
      types := types[t := messages];
      j := j + 1;
    }
  }

  /** The loop over one log type's sub-types: each report's messages replace those so far. */
  method SummarizeType(n: string, t: string, subTypes: TypeMeta, report: Reporter) returns (messages: map<string, LogMessage>)
    requires WellFormed(subTypes)
    ensures messages == TypeMessages(n, t, subTypes, |subTypes.keys|, report)
  {
    messages := map[];
    var k := 0;
    while k < |subTypes.keys|
      invariant 0 <= k <= |subTypes.keys| && messages == TypeMessages(n, t, subTypes, k, report)
    {
      var u := subTypes.keys[k];
      assert u in subTypes.entries;
      messages := messages + report(n, t, subTypes.entries[u]);
      k := k + 1;
    }
  }

  /** The reporter is analyzeNodeLogs: on a bucket of the metadata it returns what the method
      computes. */
  method ReportBucket(n: string, t: string, files: Bucket, run: Run) returns (found: map<string, LogMessage>)
    requires WellFormed(files) && AllReadable(files) && CurrentYear(run.year)
    ensures found == Analysis(run)(n, t, files)
  {
    var r := AnalyzeNodeLogs(n, files, t, run.window, run.universe, run.pg, run.matches, run.read, run.year);
    found := r.logMessages;
  }
}
