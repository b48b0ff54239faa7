/** log_lib.py: the time stamp of a log line, the metadata of a log file (first and last time
    stamp, log type, node name) and the three filters that split a file list by time window, node
    and log type. */
module LogLib {
  import opened Base
  import opened Text
  import opened Calendar
  import opened Seqs

  /** The first letter of a glog line: Info, Warning, Error or Fatal. */
  predicate IsSeverity(c: char)
  {
    c == 'I' || c == 'W' || c == 'E' || c == 'F'
  }

  function Min(a: int, b: int): int
  {
    if a <= b then a else b
  }

  // ---------------------------------------------------------------------------------------------
  // getTimeFromLog

  /** `getTimeFromLog(line)` in log_lib.py, with the current year given: `None` where it raises
      `ValueError`. A glog line (`I0923 14:23:45.123456 …`) gives its month, day and clock in the
      current year; any other line is read as `YYYY-MM-DD HH:MM:SS` from its first two
      space-separated words, cut at the first '.', and keeps its own year. */
  function TimeFromLine(line: string, year: int): (r: Option<Stamp>)
    ensures r.Some? ==> Valid(r.value)
    ensures |line| == 0 ==> r.None?
    ensures r.Some? && IsSeverity(line[0]) ==> r.value.year == year
  {
    if |line| == 0 then None
    else
      var parts := Split(line, ' ');
      if IsSeverity(line[0]) then
        if |parts| < 2 then None
        else
          match ParseGlogSeconds(Drop(parts[0], 1) + " " + Take(parts[1], 8))
          case None => None
          case Some(t) => WithYear(t, year)
      else
        var firstTwo := if |parts| >= 2 then parts[..2] else parts;
        ParseFull(Split(Join(firstTwo, ' '), '.')[0])
  }

  lemma NoSpaceInDigits(s: string)
    requires AllDigits(s)
    ensures ' ' !in s && '.' !in s && '/' !in s
  {
    forall k | 0 <= k < |s|
      ensures s[k] != ' ' && s[k] != '.' && s[k] != '/'
    {
    }
  }

  /** The first two words of a database line are its date and its clock with the fraction. */
  lemma FullLineWords(u: Stamp, fraction: string, rest: string)
    requires Valid(u) && AllDigits(fraction)
    requires rest == [] || rest[0] == ' '
    ensures var parts := Split(FormatFull(u) + "." + fraction + rest, ' ');
            |parts| >= 2 && parts[0] == FormatDate(u) && parts[1] == FormatClock(u) + "." + fraction
  {
    var date, clock := FormatDate(u), FormatClock(u) + "." + fraction;
    NoSpaceInDigits(Pad4(u.year));
    NoSpaceInDigits(Pad2(u.month));
    NoSpaceInDigits(Pad2(u.day));
    NoSpaceInDigits(Pad2(u.hour));
    NoSpaceInDigits(Pad2(u.minute));
    NoSpaceInDigits(Pad2(u.second));
    NoSpaceInDigits(fraction);
    assert ' ' !in date && ' ' !in clock;
    var line := FormatFull(u) + "." + fraction + rest;
    assert line == date + [' '] + (clock + rest);
    SplitFirst(date, ' ', clock + rest);
    SplitHeadConcat(clock, rest, ' ');
    if rest != [] {
      assert rest == [] + [' '] + rest[1..];
      SplitFirst([], ' ', rest[1..]);
    }
    assert Split(rest, ' ')[0] == [];
  }

  /** A glog line `<severity>MMDD HH:MM:SS…` yields that month, day and clock in the current year,
      whatever follows the clock. */
  lemma {:induction false} GlogLineTime(sev: char, t: Stamp, rest: string, year: int)
    requires IsSeverity(sev) && Valid(t) && ValidDate(DefaultYear, t.month, t.day) && 1 <= year <= 9999
    ensures TimeFromLine([sev] + Pad2(t.month) + Pad2(t.day) + " " + FormatClock(t) + rest, year)
            == Some(t.(year := year))
  {
    var md, clock := Pad2(t.month) + Pad2(t.day), FormatClock(t);
    var line := [sev] + md + " " + clock + rest;
    NoSpaceInDigits(Pad2(t.month));
    NoSpaceInDigits(Pad2(t.day));
    NoSpaceInDigits(Pad2(t.hour));
    NoSpaceInDigits(Pad2(t.minute));
    NoSpaceInDigits(Pad2(t.second));
    assert ' ' !in [sev] + md;
    assert ' ' !in clock;
    assert line == ([sev] + md) + [' '] + (clock + rest);
    SplitFirst([sev] + md, ' ', clock + rest);
    var parts := Split(line, ' ');
    assert parts[0] == [sev] + md;
    SplitHeadConcat(clock, rest, ' ');
    assert parts[1] == clock + Split(rest, ' ')[0];
    assert Take(parts[1], 8) == clock;
    assert Drop(parts[0], 1) == md;
    var s := md + " " + clock;
    assert s[0..2] == Pad2(t.month) && s[2..4] == Pad2(t.day) && s[5..] == clock;
    assert s[0..4] == md;
    var c := s[5..];
    assert c[0..2] == Pad2(t.hour) && c[3..5] == Pad2(t.minute) && c[6..8] == Pad2(t.second);
    assert ParseGlogSeconds(s) == Some(t.(year := DefaultYear));
    assert line[0] == sev && |parts| >= 2;
    assert Drop(parts[0], 1) + " " + Take(parts[1], 8) == s;
    DefaultYearDateValidEverywhere(t.month, t.day, year);
    assert TimeFromLine(line, year) == WithYear(t.(year := DefaultYear), year);
    assert line == [sev] + Pad2(t.month) + Pad2(t.day) + " " + FormatClock(t) + rest;
  }

  /** The first two space-separated words, joined again, of text that starts with two words. */
  lemma {:induction false} FirstTwoWords(a: string, b: string, rest: string)
    requires ' ' !in a && ' ' !in b
    ensures var parts := Split(a + " " + b + rest, ' ');
            |parts| >= 2 && Join(parts[..2], ' ') == a + " " + b + Split(rest, ' ')[0]
  {
    var line := a + " " + b + rest;
    assert line == a + [' '] + (b + rest);
    SplitFirst(a, ' ', b + rest);
    var parts := Split(line, ' ');
    assert parts == [a] + Split(b + rest, ' ');
    SplitHeadConcat(b, rest, ' ');
    var w := Split(rest, ' ')[0];
    assert parts[1] == b + w;
    assert parts[..2] == [a, b + w];
    assert parts[..2][1..] == [b + w];
    assert Join([b + w], ' ') == b + w;
  }

  /** A database line `YYYY-MM-DD HH:MM:SS` followed by nothing, a blank or a fraction keeps its
      own date, year included. */
  lemma DatabaseLineTime(t: Stamp, rest: string, year: int)
    requires Valid(t) && (rest == [] || rest[0] == ' ' || rest[0] == '.')
    ensures TimeFromLine(FormatFull(t) + rest, year) == Some(t)
  {
    var date, clock := FormatDate(t), FormatClock(t);
    NoSpaceInDigits(Pad4(t.year));
    NoSpaceInDigits(Pad2(t.month));
    NoSpaceInDigits(Pad2(t.day));
    NoSpaceInDigits(Pad2(t.hour));
    NoSpaceInDigits(Pad2(t.minute));
    NoSpaceInDigits(Pad2(t.second));
    assert ' ' !in date && '.' !in date;
    assert ' ' !in clock && '.' !in clock;
    var line := FormatFull(t) + rest;
    assert line == date + " " + clock + rest;
    FirstTwoWords(date, clock, rest);
    var parts := Split(line, ' ');
    var w := Split(rest, ' ')[0];
    assert Join(parts[..2], ' ') == (date + " " + clock) + w;
    assert w == [] || w[0] == '.';
    SplitHeadConcat(date + " " + clock, w, '.');
    assert Split(w, '.')[0] == [];
    assert Split(Join(parts[..2], ' '), '.')[0] == FormatFull(t);
    assert IsDigit(line[0]) && |parts| >= 2;
    assert TimeFromLine(line, year) == ParseFull(Split(Join(parts[..2], ' '), '.')[0]);
    ParseFormatFull(t);
  }

  /** A glog line dated 29 February never parses: the clock is read in the year 1900, which has
      no such day, before the current year is put in. */
  lemma GlogLeapDayRejected(sev: char, rest: string, year: int)
    requires IsSeverity(sev)
    ensures TimeFromLine([sev] + "0229" + rest, year) == None
  {
    var line := [sev] + "0229" + rest;
    var parts := Split(line, ' ');
    if |parts| >= 2 {
      var head := Drop(parts[0], 1);
      NoSpaceInDigits("0229");
      assert ' ' !in [sev] + "0229";
      SplitHeadConcat([sev] + "0229", rest, ' ');
      assert line == ([sev] + "0229") + rest;
      assert "0229" <= head;
      var s := head + " " + Take(parts[1], 8);
      if |s| == 13 {
        assert s[0..2] == "02" && s[2..4] == "29";
      }
    }
  }

  // ---------------------------------------------------------------------------------------------
  // The head and tail scan of getFileMetadata (shared with log_analyzer_v3.py)

  const HeadLines: nat := 10
  const TailLines: nat := 10

  /** What the stamp reader makes of one line: a stamp, a `ValueError` the scan skips, or any other
      exception, which ends the whole metadata read. */
  datatype LineParse = Parsed(stamp: Stamp) | Invalid | Fault

  datatype HeadResult = HeadFound(stamp: Stamp, read: nat) | HeadMissed | HeadFault
  datatype TailResult = TailFound(stamp: Stamp, index: nat) | TailMissed | TailFault
  datatype Ends = Ends(start: Option<Stamp>, end: Option<Stamp>)

  /** The text of the `i`-th `readline()` call from the start of the file: "" once the file is
      exhausted. */
  function ReadLine(lines: seq<string>, i: nat): string
  {
    if i < |lines| then lines[i] else ""
  }

  /** The head scan from the `i`-th read on: the first of the first ten reads that yields a stamp;
      reads that raise `ValueError` are skipped. */
  function HeadScan(lines: seq<string>, i: nat, parse: string -> LineParse): (r: HeadResult)
    ensures r.HeadFound? ==>
              i <= r.read < HeadLines && parse(ReadLine(lines, r.read)) == Parsed(r.stamp)
              && forall k :: i <= k < r.read ==> parse(ReadLine(lines, k)) == Invalid
    ensures r.HeadMissed? ==> forall k :: i <= k < HeadLines ==> parse(ReadLine(lines, k)) == Invalid
    ensures r.HeadFault? ==> exists k :: i <= k < HeadLines && parse(ReadLine(lines, k)) == Fault
    decreases HeadLines - i
  {
    if i >= HeadLines then HeadMissed
    else
      match parse(ReadLine(lines, i))
      case Parsed(t) => HeadFound(t, i)
      case Invalid => HeadScan(lines, i + 1, parse)
      case Fault => HeadFault
  }

  /** `deque(rest, maxlen=10)`: the last ten lines, or all of them when there are fewer. */
  function LastLines(rest: seq<string>): (w: seq<string>)
    ensures |w| == Min(|rest|, TailLines) && rest == rest[..|rest| - |w|] + w
  {
    rest[|rest| - Min(|rest|, TailLines)..]
  }

  /** The tail scan: the last line of `ls` that yields a stamp, trying lines from the end. */
  function TailScan(ls: seq<string>, parse: string -> LineParse): (r: TailResult)
    ensures r.TailFound? ==>
              r.index < |ls| && parse(ls[r.index]) == Parsed(r.stamp)
              && forall j :: r.index < j < |ls| ==> parse(ls[j]) == Invalid
    ensures r.TailMissed? ==> forall j :: 0 <= j < |ls| ==> parse(ls[j]) == Invalid
    ensures r.TailFault? ==> exists j :: 0 <= j < |ls| && parse(ls[j]) == Fault
  {
    if |ls| == 0 then TailMissed
    else
      match parse(ls[|ls| - 1])
      case Parsed(t) => TailFound(t, |ls| - 1)
      case Invalid => TailScan(ls[..|ls| - 1], parse)
      case Fault => TailFault
  }

  function TailEnds(rest: seq<string>, start: Option<Stamp>, parse: string -> LineParse): Option<Ends>
  {
    match TailScan(LastLines(rest), parse)
    case TailFault => None
    case TailFound(t, _) => Some(Ends(start, Some(t)))
    case TailMissed => Some(Ends(start, None))
  }

  /** First and last stamp of a file: the head scan reads at most ten lines; the tail scan sees
      the last ten of the lines the head scan did not consume. `None` when a line raises anything
      other than `ValueError`. */
  function ScanSpec(lines: seq<string>, head: string -> LineParse, tail: string -> LineParse): Option<Ends>
  {
    match HeadScan(lines, 0, head)
    case HeadFault => None
    case HeadFound(t, k) => TailEnds(lines[Min(k + 1, |lines|)..], Some(t), tail)
    case HeadMissed => TailEnds(lines[Min(HeadLines, |lines|)..], None, tail)
  }

  /** The scan as the scripts run it: up to ten `readline()` calls, then the rest of the file
      pushed through a ten-slot ring buffer (the bounded deque), then the buffer read newest
      first. */
  method ScanEnds(lines: seq<string>, head: string -> LineParse, tail: string -> LineParse)
    returns (r: Option<Ends>)
    ensures r == ScanSpec(lines, head, tail)
  {
    var fault, start, pos := ReadHead(lines, head);
    if fault {
      return None;
    }
    var rest := lines[pos..];
    var buf := FillRing(rest);
    r := ScanRing(buf, rest, start, tail);
  }

  /** The head loop: `readline()` ten times at most, stopping at the first stamp. */
  method ReadHead(lines: seq<string>, head: string -> LineParse)
    returns (fault: bool, start: Option<Stamp>, pos: nat)
    ensures fault <==> HeadScan(lines, 0, head).HeadFault?
    ensures HeadScan(lines, 0, head).HeadFound? ==>
              start == Some(HeadScan(lines, 0, head).stamp) && pos == Min(HeadScan(lines, 0, head).read + 1, |lines|)
    ensures HeadScan(lines, 0, head).HeadMissed? ==> start == None && pos == Min(HeadLines, |lines|)
  {
    var i := 0;
    pos := 0;
    start := None;
    while i < HeadLines && start == None
      invariant 0 <= i <= HeadLines
      invariant start == None ==> pos == Min(i, |lines|) && HeadScan(lines, 0, head) == HeadScan(lines, i, head)
      invariant start != None ==> pos == Min(i + 1, |lines|) && HeadScan(lines, 0, head) == HeadFound(start.value, i)
      decreases HeadLines - i, if start == None then 1 else 0
    {
      var line := if pos < |lines| then lines[pos] else "";
      if pos < |lines| {
        pos := pos + 1;
      }
      match head(line)
      case Parsed(t) =>
        start := Some(t);
      case Invalid =>
        i := i + 1;
      case Fault =>
        return true, start, pos;
    }
    fault := false;
  }

  /** `deque(logs, maxlen=10)`: every remaining line is pushed into a ten-slot ring buffer, the
      oldest slot overwritten once it is full. */
  method FillRing(rest: seq<string>) returns (buf: array<string>)
    ensures fresh(buf) && buf.Length == TailLines
    ensures forall q :: |rest| - Min(|rest|, TailLines) <= q < |rest| ==> buf[q % TailLines] == rest[q]
  {
    buf := new string[TailLines];
    var n := 0;
    while n < |rest|
      invariant 0 <= n <= |rest|
      invariant forall q :: n - Min(n, TailLines) <= q < n ==> buf[q % TailLines] == rest[q]
    {
      buf[n % TailLines] := rest[n];
      n := n + 1;
    }
  }

  /** One step of the tail scan over `rest[lo..q]`: the newest line decides, or the scan goes on
      with the older lines. */
  lemma TailScanStep(rest: seq<string>, lo: nat, q: nat, parse: string -> LineParse)
    requires lo < q <= |rest|
    ensures parse(rest[q - 1]).Parsed? ==> TailScan(rest[lo..q], parse) == TailFound(parse(rest[q - 1]).stamp, q - 1 - lo)
    ensures parse(rest[q - 1]).Invalid? ==> TailScan(rest[lo..q], parse) == TailScan(rest[lo..q - 1], parse)
    ensures parse(rest[q - 1]).Fault? ==> TailScan(rest[lo..q], parse) == TailFault
  {
    var w := rest[lo..q];
    assert w[|w| - 1] == rest[q - 1] && w[..|w| - 1] == rest[lo..q - 1];
  }

  /** `for line in reversed(last_lines)`: the buffered lines newest first, up to the first stamp. */
  method ScanRing(buf: array<string>, rest: seq<string>, start: Option<Stamp>, tail: string -> LineParse)
    returns (r: Option<Ends>)
    requires buf.Length == TailLines
    requires forall q :: |rest| - Min(|rest|, TailLines) <= q < |rest| ==> buf[q % TailLines] == rest[q]
    ensures r == TailEnds(rest, start, tail)
  {
    var lo := |rest| - Min(|rest|, TailLines);
    assert LastLines(rest) == rest[lo..] == rest[lo..|rest|];
    var q := |rest|;
    while q > lo
      invariant lo <= q <= |rest|
      invariant TailScan(rest[lo..], tail) == TailScan(rest[lo..q], tail)
    {
      var line := buf[(q - 1) % TailLines];
      assert line == rest[q - 1];
      match tail(line)
      case Parsed(t) =>
        TailScanStep(rest, lo, q, tail);
        return Some(Ends(start, Some(t)));
      case Invalid =>
        TailScanStep(rest, lo, q, tail);
        q := q - 1;
      case Fault =>
        TailScanStep(rest, lo, q, tail);
        return None;
    }
    r := Some(Ends(start, None));
  }

  // ---------------------------------------------------------------------------------------------
  // getFileMetadata

  datatype Metadata = Metadata(startsAt: Stamp, endsAt: Stamp, logType: string, nodeName: string)

  /** `strptime('0101 00:00', '%m%d %H:%M')` and `strptime('1231 23:59', '%m%d %H:%M')`: the
      defaults for a file without a readable first or last stamp. */
  const FirstMinute: Stamp := Stamp(DefaultYear, 1, 1, 0, 0, 0)
  const LastMinute: Stamp := Stamp(DefaultYear, 12, 31, 23, 59, 0)

  /** log_lib.py's stamp reader as a line classifier: it raises only `ValueError`. */
  function LibParse(year: int): string -> LineParse
  {
    line => if TimeFromLine(line, year).Some? then Parsed(TimeFromLine(line, year).value) else Invalid
  }

  /** The re-stamping with the current year, both inside one `try`: if the start cannot take the
      year (29 February), neither stamp changes; if only the end cannot, the start alone does. */
  function Restamp(start: Stamp, end: Stamp, year: int): (r: (Stamp, Stamp))
    ensures ValidDate(year, start.month, start.day) ==> r.0 == start.(year := year)
    ensures !ValidDate(year, start.month, start.day) ==> r == (start, end)
    ensures ValidDate(year, start.month, start.day) ==>
              r.1 == if ValidDate(year, end.month, end.day) then end.(year := year) else end
  {
    match WithYear(start, year)
    case None => (start, end)
    case Some(s) =>
      match WithYear(end, year)
      case None => (s, end)
      case Some(e) => (s, e)
  }

  /** The metadata getFileMetadata returns, or `None` when the file cannot be opened or read. */
  function FileMetadata(path: string, content: FileContent, year: int): Option<Metadata>
  {
    match content
    case Unreadable => None
    case Undecodable => None
    case Lines(ls) =>
      match ScanSpec(ls, LibParse(year), LibParse(year))
      case None => None
      case Some(e) =>
        var stamps := Restamp(if e.start.Some? then e.start.value else FirstMinute,
                              if e.end.Some? then e.end.value else LastMinute, year);
        Some(Metadata(stamps.0, stamps.1, LogType(path), NodeName(path)))
  }

  /** getFileMetadata in log_lib.py. */
  method GetFileMetadata(path: string, content: FileContent, year: int) returns (r: Option<Metadata>)
    ensures r == FileMetadata(path, content, year)
  {
    if !content.Lines? {
      return None;
    }
    var ends := ScanEnds(content.lines, LibParse(year), LibParse(year));
    if ends == None {
      return None;
    }
    var startsAt := if ends.value.start.Some? then ends.value.start.value else FirstMinute;
    var endsAt := if ends.value.end.Some? then ends.value.end.value else LastMinute;
    var stamps := Restamp(startsAt, endsAt, year);
    r := Some(Metadata(stamps.0, stamps.1, LogType(path), NodeName(path)));
  }

  lemma LibParseNeverFaults(year: int, line: string)
    ensures LibParse(year)(line) != Fault
  {
  }

  /** log_lib.py's reader never raises anything but `ValueError`, so the scan always completes. */
  lemma LibScanCompletes(ls: seq<string>, year: int)
    ensures ScanSpec(ls, LibParse(year), LibParse(year)).Some?
  {
    var p := LibParse(year);
    forall s ensures p(s) != Fault {
      LibParseNeverFaults(year, s);
    }
    ScanCompletes(ls, p, p);
  }

  /** With readers that never fault, the scan always yields its two ends. */
  lemma ScanCompletes(ls: seq<string>, head: string -> LineParse, tail: string -> LineParse)
    requires forall s :: head(s) != Fault
    requires forall s :: tail(s) != Fault
    ensures ScanSpec(ls, head, tail).Some?
  {
    var h := HeadScan(ls, 0, head);
    if h.HeadFault? {
      assert false;
    } else if h.HeadFound? {
      TailCompletes(ls[Min(h.read + 1, |ls|)..], Some(h.stamp), tail);
    } else {
      TailCompletes(ls[Min(HeadLines, |ls|)..], None, tail);
    }
  }

  /** A tail reader that never faults always ends the tail scan. */
  lemma TailCompletes(rest: seq<string>, start: Option<Stamp>, tail: string -> LineParse)
    requires forall s :: tail(s) != Fault
    ensures TailEnds(rest, start, tail).Some?
  {
    if TailScan(LastLines(rest), tail).TailFault? {
      assert false;
    }
  }

  /** So every readable text file gets metadata: the first stamp among its first ten lines (or
      1 January 00:00) as its start and the last stamp among its last ten unread lines (or
      31 December 23:59) as its end, in the current year where that date exists. */
  lemma LibMetadataAlwaysFound(path: string, ls: seq<string>, year: int)
    ensures FileMetadata(path, Lines(ls), year).Some?
  {
    LibScanCompletes(ls, year);
  }

  // ---------------------------------------------------------------------------------------------
  // Log type and node name

  /** The first label in `table` whose key occurs in `path`, else `otherwise`: a reference
      definition of the `if … in logFile: … elif …` chains. */
  function FirstLabel(path: string, table: seq<(string, string)>, otherwise: string): (r: string)
    ensures forall i :: (0 <= i < |table| && Contains(path, table[i].0)
                         && (forall j :: 0 <= j < i ==> !Contains(path, table[j].0))) ==> r == table[i].1
    ensures (forall i :: 0 <= i < |table| ==> !Contains(path, table[i].0)) ==> r == otherwise
  {
    if |table| == 0 then otherwise
    else if Contains(path, table[0].0) then table[0].1
    else
      var r := FirstLabel(path, table[1..], otherwise);
      assert forall i :: 1 <= i < |table| ==> table[1..][i - 1] == table[i];
      r
  }

  const TypeTable: seq<(string, string)> :=
    [("postgres", "postgres"), ("controller", "yb-controller"), ("tserver", "yb-tserver"), ("master", "yb-master")]

  /** The log type from substrings of the path, in this order of precedence. */
  function LogType(path: string): string
  {
    if Contains(path, "postgres") then "postgres"
    else if Contains(path, "controller") then "yb-controller"
    else if Contains(path, "tserver") then "yb-tserver"
    else if Contains(path, "master") then "yb-master"
    else "unknown"
  }

  /** The log type is the label of the first of "postgres", "controller", "tserver", "master"
      that occurs anywhere in the path, else "unknown". */
  lemma LogTypeIsFirstLabel(path: string)
    ensures LogType(path) == FirstLabel(path, TypeTable, "unknown")
  {
    var t1 := TypeTable[1..];
    var t2 := t1[1..];
    var t3 := t2[1..];
    assert t1[0] == ("controller", "yb-controller") && t2[0] == ("tserver", "yb-tserver");
    assert t3 == [("master", "yb-master")] && t3[1..] == [];
    assert FirstLabel(path, t3, "unknown") == if Contains(path, "master") then "yb-master" else "unknown";
    assert FirstLabel(path, t2, "unknown") == if Contains(path, "tserver") then "yb-tserver" else FirstLabel(path, t3, "unknown");
    assert FirstLabel(path, t1, "unknown") == if Contains(path, "controller") then "yb-controller" else FirstLabel(path, t2, "unknown");
  }

  /** `yb-…n<digits>`, the first form of the node-name pattern. */
  predicate NumberedNode(seg: string)
  {
    var d := SpanEnd(seg, IsDigit);
    d >= 1 && |seg| - d - 1 >= 3 && "yb-" <= seg && seg[|seg| - d - 1] == 'n'
  }

  /** `yb-master-<digits>_…` or `yb-tserver-<digits>_…`, with at least one character after '_'. */
  predicate ProcessNodeWith(seg: string, prefix: string)
  {
    prefix <= seg &&
    var rest := seg[|prefix|..];
    var d := Span(rest, IsDigit);
    d >= 1 && d + 1 < |rest| && rest[d] == '_'
  }

  /** A path segment the node-name pattern `/(yb-[^/]*n\d+|yb-(master|tserver)-\d+_[^/]+)/`
      accepts between its two slashes. */
  predicate NodeSegment(seg: string)
  {
    '/' !in seg && (NumberedNode(seg) || ProcessNodeWith(seg, "yb-master-") || ProcessNodeWith(seg, "yb-tserver-"))
  }

  /** The text up to the next '/' and whether a '/' closes it. */
  function Segment(s: string): string
  {
    Split(s, '/')[0]
  }

  /** `re.search` of the node-name pattern: the leftmost slash followed by a node segment and
      another slash. */
  function FirstNode(path: string): (r: Option<string>)
    ensures r.Some? ==> NodeSegment(r.value) && Contains(path, "/" + r.value + "/")
    decreases |path|
  {
    if |path| == 0 then None
    else if path[0] == '/' && |Split(path[1..], '/')| > 1 && NodeSegment(Segment(path[1..])) then
      var seg := Segment(path[1..]);
      EnclosedSegment(path[1..]);
      ContainsAt(path, "/" + seg + "/", 0);
      Some(seg)
    else
      var r := FirstNode(path[1..]);
      if r.Some? then
        ContainsWitness(path[1..], "/" + r.value + "/");
        var i :| 0 <= i <= |path[1..]| && "/" + r.value + "/" <= path[1..][i..];
        assert path[1..][i..] == path[i + 1..];
        ContainsAt(path, "/" + r.value + "/", i + 1);
        r
      else r
  }

  /** When a '/' follows the first segment, the segment and that slash start the text. */
  lemma {:induction false} EnclosedSegment(s: string)
    requires |Split(s, '/')| > 1
    ensures Segment(s) + "/" <= s
    decreases |s|
  {
    if s[0] != '/' {
      EnclosedSegment(s[1..]);
    }
  }

  /** `nodeName`: the matched segment, or "unknown". */
  function NodeName(path: string): string
  {
    match FirstNode(path)
    case Some(seg) => seg
    case None => "unknown"
  }

  /** Any node segment enclosed in slashes somewhere in the path gives the file a node name. */
  lemma {:induction false} NodeNameFound(before: string, seg: string, after: string)
    requires NodeSegment(seg)
    ensures FirstNode(before + "/" + seg + "/" + after).Some?
    decreases |before|
  {
    var path := before + "/" + seg + "/" + after;
    if |before| == 0 {
      assert path[1..] == seg + ['/'] + after;
      SplitFirst(seg, '/', after);
    } else {
      assert path[1..] == before[1..] + "/" + seg + "/" + after;
      NodeNameFound(before[1..], seg, after);
    }
  }

  // ---------------------------------------------------------------------------------------------
  // The filters

  /** A file overlaps the window unless it starts at or after the window's end or ends at or
      before the window's start: a file that only touches the window is removed. */
  predicate InWindow(md: Metadata, start: Stamp, end: Stamp)
  {
    Before(md.startsAt, end) && Before(start, md.endsAt)
  }

  function KeepByTime(meta: map<string, Metadata>, start: Stamp, end: Stamp): string -> bool
  {
    f => f in meta && InWindow(meta[f], start, end)
  }

  /** filterLogFilesByTime, over the metadata as the cache gives it back (see
      `Calendar.ParseFormatFull`). */
  method FilterByTime(files: seq<string>, meta: map<string, Metadata>, start: Stamp, end: Stamp)
    returns (kept: seq<string>, removed: seq<string>)
    requires forall k :: 0 <= k < |files| ==> files[k] in meta
    ensures kept == Filter(files, KeepByTime(meta, start, end))
    ensures removed == Reject(files, KeepByTime(meta, start, end))
  {
    kept, removed := [], [];
    var i := 0;
    while i < |files|
      invariant 0 <= i <= |files|
      invariant kept == Filter(files[..i], KeepByTime(meta, start, end))
      invariant removed == Reject(files[..i], KeepByTime(meta, start, end))
    {
      var md := meta[files[i]];
      assert files[..i + 1][..i] == files[..i];
      if !Before(md.startsAt, end) || !Before(start, md.endsAt) {
        removed := removed + [files[i]];
      } else {
        kept := kept + [files[i]];
      }
      i := i + 1;
    }
    assert files[..i] == files;
  }

  /** Some selector occurs in the node name. */
  predicate AnySelector(name: string, selectors: seq<string>)
  {
    exists i :: 0 <= i < |selectors| && Contains(name, selectors[i])
  }

  function KeepByNode(meta: map<string, Metadata>, nodes: string): string -> bool
  {
    f => f in meta && AnySelector(meta[f].nodeName, Split(nodes, ','))
  }

  /** filterLogFilesByNode: a file stays when one of the comma-separated selectors is a substring
      of its node name. */
  method FilterByNode(files: seq<string>, meta: map<string, Metadata>, nodes: string)
    returns (kept: seq<string>, removed: seq<string>)
    requires forall k :: 0 <= k < |files| ==> files[k] in meta
    ensures kept == Filter(files, KeepByNode(meta, nodes))
    ensures removed == Reject(files, KeepByNode(meta, nodes))
  {
    var selectors := Split(nodes, ',');
    kept, removed := [], [];
    var i := 0;
    while i < |files|
      invariant 0 <= i <= |files|
      invariant kept == Filter(files[..i], KeepByNode(meta, nodes))
      invariant removed == Reject(files[..i], KeepByNode(meta, nodes))
    {
      var name := meta[files[i]].nodeName;
      var j, found := 0, false;
      while j < |selectors| && !found
        invariant 0 <= j <= |selectors|
        invariant found <==> AnySelector(name, selectors[..j])
      {
        assert selectors[..j + 1][..j] == selectors[..j];
        found := Contains(name, selectors[j]);
        j := j + 1;
      }
      assert found <==> AnySelector(name, selectors) by {
        if found {
          var w :| 0 <= w < |selectors[..j]| && Contains(name, selectors[..j][w]);
          assert selectors[w] == selectors[..j][w];
        } else {
          assert selectors[..j] == selectors;
        }
      }
      assert files[..i + 1][..i] == files[..i];
      if found {
        kept := kept + [files[i]];
      } else {
        removed := removed + [files[i]];
      }
      i := i + 1;
    }
    assert files[..i] == files;
  }

  /** An empty selector is a substring of every name, so an empty node list keeps every file. */
  lemma EmptySelectorKeepsAll(files: seq<string>, meta: map<string, Metadata>)
    requires forall k :: 0 <= k < |files| ==> files[k] in meta
    ensures Filter(files, KeepByNode(meta, "")) == files
  {
    assert Split("", ',') == [""];
    forall k | 0 <= k < |files|
      ensures KeepByNode(meta, "")(files[k])
    {
      assert Contains(meta[files[k]].nodeName, Split("", ',')[0]);
    }
    FilterKeepsAll(files, KeepByNode(meta, ""));
  }

  /** `type_map`: the type codes of the command line and the log types they select. */
  function TypeOfCode(code: string): Option<string>
  {
    if code == "pg" then Some("postgres")
    else if code == "ts" then Some("yb-tserver")
    else if code == "ms" then Some("yb-master")
    else if code == "ybc" then Some("yb-controller")
    else None
  }

  /** `[type_map[t] for t in types if t in type_map]`: unknown codes are dropped. */
  function SelectedTypes(codes: seq<string>): (r: seq<string>)
    ensures forall t :: t in r <==> exists c :: c in codes && TypeOfCode(c) == Some(t)
  {
    if |codes| == 0 then []
    else
      var init, c := codes[..|codes| - 1], codes[|codes| - 1];
      assert forall x :: x in codes <==> x in init || x == c;
      SelectedTypes(init) + (if TypeOfCode(c).Some? then [TypeOfCode(c).value] else [])
  }

  function KeepByType(meta: map<string, Metadata>, codes: seq<string>): string -> bool
  {
    f => f in meta && meta[f].logType in SelectedTypes(codes)
  }

  /** Paths starting with '.', which the type filter drops from the files it keeps. */
  function NotHidden(): string -> bool
  {
    f => !(|f| > 0 && f[0] == '.')
  }

  /** filterLogFilesByType: split by selected log type, then drop paths starting with '.' from the
      kept list only. */
  method FilterByType(files: seq<string>, meta: map<string, Metadata>, codes: seq<string>)
    returns (kept: seq<string>, removed: seq<string>)
    requires forall k :: 0 <= k < |files| ==> files[k] in meta
    ensures kept == Filter(Filter(files, KeepByType(meta, codes)), NotHidden())
    ensures removed == Reject(files, KeepByType(meta, codes))
  {
    var selected := SelectedTypes(codes);
    kept, removed := [], [];
    var i := 0;
    while i < |files|
      invariant 0 <= i <= |files|
      invariant kept == Filter(files[..i], KeepByType(meta, codes))
      invariant removed == Reject(files[..i], KeepByType(meta, codes))
    {
      assert files[..i + 1][..i] == files[..i];
      if meta[files[i]].logType in selected {
        kept := kept + [files[i]];
      } else {
        removed := removed + [files[i]];
      }
      i := i + 1;
    }
    assert files[..i] == files;
    kept := Filter(kept, NotHidden());
  }

  /** A path starting with '.' is in neither list when its type is selected: it is dropped, not
      removed. Every other path is in exactly one list. */
  lemma TypeFilterPlacement(files: seq<string>, meta: map<string, Metadata>, codes: seq<string>, f: string)
    requires f in files && f in meta
    ensures var kept := Filter(Filter(files, KeepByType(meta, codes)), NotHidden());
            var removed := Reject(files, KeepByType(meta, codes));
            (f in removed <==> meta[f].logType !in SelectedTypes(codes))
            && (f in kept <==> meta[f].logType in SelectedTypes(codes) && !(|f| > 0 && f[0] == '.'))
  {
    FilterHas(files, KeepByType(meta, codes), f);
    FilterHas(Filter(files, KeepByType(meta, codes)), NotHidden(), f);
    RejectHas(files, KeepByType(meta, codes), f);
  }
}
