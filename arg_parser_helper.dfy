/** The command line of the bundle-oriented front end: its two custom argument types (a
    comma-separated list and an `MMDD HH:MM` time in the current year) and the checks made once
    the arguments are parsed. */
module ArgParserHelper {
  import opened Base
  import opened Text
  import opened Calendar

  // ---------------------------------------------------------------------------------------------
  // parse_comma_separated_list

  /** `parse_comma_separated_list`: nothing for a missing or empty argument, otherwise one stripped
      item per comma-separated piece, empty items kept, in order. */
  function ParseCommaSeparatedList(listStr: Option<string>): (r: seq<string>)
    ensures listStr.None? || listStr.value == "" ==> r == []
    ensures listStr.Some? && listStr.value != "" ==>
              |r| == CountChar(listStr.value, ',') + 1 &&
              forall k :: 0 <= k < |r| ==> r[k] == Strip(Split(listStr.value, ',')[k]) && ',' !in r[k]
  {
    match listStr
    case None => []
    case Some(s) => if s == "" then [] else StripItems(s, ',')
  }

  /** A list written without whitespace is given back piece by piece: joining the items with
      commas restores the argument. */
  lemma CommaListRoundTrip(s: string)
    requires s != "" && forall k :: 0 <= k < |s| ==> !IsSpace(s[k])
    ensures Join(ParseCommaSeparatedList(Some(s)), ',') == s
    ensures ParseCommaSeparatedList(Some(s)) == Split(s, ',')
  {
    StripItemsNoSpace(s, ',');
    JoinSplit(s, ',');
  }

  /** Three plain words joined by commas come back as those words. */
  lemma ThreeItems(a: string, b: string, c: string)
    requires ',' !in a && ',' !in b && ',' !in c
    requires forall k :: 0 <= k < |a| ==> !IsSpace(a[k])
    requires forall k :: 0 <= k < |b| ==> !IsSpace(b[k])
    requires forall k :: 0 <= k < |c| ==> !IsSpace(c[k])
    ensures ParseCommaSeparatedList(Some(a + [','] + b + [','] + c)) == [a, b, c]
  {
    var s := a + [','] + b + [','] + c;
    assert Split(s, ',') == [a, b, c] by {
      assert s == a + [','] + (b + [','] + c);
      SplitFirst(a, ',', b + [','] + c);
      SplitFirst(b, ',', c);
      SplitNoSep(c, ',');
    }
    assert s != "" by {
      assert s[|a|] == ',';
    }
    var parts := Split(s, ',');
    assert forall k, j :: 0 <= k < |parts| && 0 <= j < |parts[k]| ==> !IsSpace(parts[k][j]) by {
      assert parts[0] == a && parts[1] == b && parts[2] == c;
    }
    StripPlainItems(s, ',');
    assert ParseCommaSeparatedList(Some(s)) == StripItems(s, ',');
  }

  /** The default of `--types` becomes the three log types. */
  lemma DefaultTypes(s: string)
    requires s == DefaultTypesText
    ensures ParseCommaSeparatedList(Some(s)) == ["pg", "ts", "ms"]
  {
    var a, b, c := "pg", "ts", "ms";
    assert s == a + [','] + b + [','] + c;
    assert ParseCommaSeparatedList(Some(a + [','] + b + [','] + c)) == [a, b, c] by {
      assert forall k :: 0 <= k < |a| ==> !IsSpace(a[k]) by {
        assert a[0] == 'p' && a[1] == 'g';
      }
      assert forall k :: 0 <= k < |b| ==> !IsSpace(b[k]) by {
        assert b[0] == 't' && b[1] == 's';
      }
      assert forall k :: 0 <= k < |c| ==> !IsSpace(c[k]) by {
        assert c[0] == 'm' && c[1] == 's';
      }
      ThreeItems(a, b, c);
    }
  }

  const DefaultTypesText: string := "pg,ts,ms"
  const DefaultThreads: int := 5

  // ---------------------------------------------------------------------------------------------
  // parse_datetime

  /** `strptime(f"{current_year}{time_str}", "%Y%m%d %H:%M")`: the current year's four digits put
      in front of the text, which must then be a valid date and time; `None` where the source
      raises `ArgumentTypeError`. */
  function ParseDatetime(timeStr: string, currentYear: int): (r: Option<Stamp>)
    requires 1000 <= currentYear <= 9999
    ensures r == ParseShort(timeStr, currentYear)
    ensures r.Some? ==> Valid(r.value) && r.value.year == currentYear && r.value.second == 0
  {
    CompactIsShortInYear(currentYear, timeStr);
    ParseCompact(Pad4(currentYear) + timeStr)
  }

  /** The time `0229 HH:MM` is accepted exactly in a leap year. */
  lemma LeapDayAcceptedInLeapYear(currentYear: int, hour: int, minute: int)
    requires 1000 <= currentYear <= 9999 && 0 <= hour < 24 && 0 <= minute < 60
    ensures ParseDatetime("0229 " + Pad2(hour) + ":" + Pad2(minute), currentYear).Some? <==> IsLeap(currentYear)
  {
    var s := "0229 " + Pad2(hour) + ":" + Pad2(minute);
    assert s[0..2] == "02" && s[2..4] == "29";
    assert s[5..7] == Pad2(hour) && s[8..10] == Pad2(minute);
    assert Num2("02") == 2 && Num2("29") == 29;
    assert ShortShape(s);
  }

  /** Printing a whole-minute stamp of the current year and reading it back gives it back. */
  lemma ParseDatetimeOfFormat(t: Stamp)
    requires 1000 <= t.year <= 9999 && Valid(t) && t.second == 0
    ensures ParseDatetime(FormatShort(t), t.year) == Some(t)
  {
    ParseFormatShort(t);
  }

  // ---------------------------------------------------------------------------------------------
  // parse_arguments

  /** The command line as given: each option's text, or `None` when it was left out. Whether a path
      names a directory or a file is asked of the file system, given here as two predicates. */
  datatype RawArgs = RawArgs(
    directory: Option<string>, supportBundle: Option<string>, types: Option<string>,
    nodes: Option<string>, fromTime: Option<string>, toTime: Option<string>,
    histogramMode: Option<string>, output: Option<string>, parallel: Option<int>, skipTar: bool)

  /** The one input source the mutually exclusive group admits. */
  datatype Source = Directory(path: string) | SupportBundle(path: string)

  datatype Args = Args(
    source: Source, types: seq<string>, nodes: Option<seq<string>>,
    startTime: Option<Stamp>, endTime: Option<Stamp>, histogramErrors: Option<seq<string>>,
    outputFile: Option<string>, numThreads: int, skipTar: bool)

  /** The ways `parse_arguments` exits through `parser.error`. */
  datatype UsageError =
    | BothSources | NoSource | BadTime(text: string)
    | StartNotBeforeEnd | NotADirectory(path: string) | NotABundle(path: string)

  /** A list option: `None` when left out, its parsed items otherwise. */
  function ListOption(arg: Option<string>): (r: Option<seq<string>>)
    ensures r.Some? <==> arg.Some?
    ensures r.Some? ==> r.value == ParseCommaSeparatedList(arg)
  {
    if arg.None? then None else Some(ParseCommaSeparatedList(arg))
  }

  /** A time option parsed in the current year: `Ok(None)` when left out. */
  function TimeOption(arg: Option<string>, currentYear: int): (r: Result<Option<Stamp>, UsageError>)
    requires 1000 <= currentYear <= 9999
    ensures arg.None? ==> r == Ok(None)
    ensures arg.Some? ==> (r.Ok? <==> ParseDatetime(arg.value, currentYear).Some?)
    ensures arg.Some? && r.Ok? ==> r.value == ParseDatetime(arg.value, currentYear)
    ensures r.Err? ==> r.error == BadTime(arg.value)
  {
    match arg
    case None => Ok(None)
    case Some(s) =>
      match ParseDatetime(s, currentYear)
      case Some(t) => Ok(Some(t))
      case None => Err(BadTime(s))
  }

  /** `parse_arguments`: exactly one input source, times that parse, a start strictly before the
      end when both are given, and a source that exists as the kind of path it claims to be. */
  function ParseArguments(raw: RawArgs, currentYear: int, isDir: string -> bool, isFile: string -> bool):
    (r: Result<Args, UsageError>)
    requires 1000 <= currentYear <= 9999
    // accepted exactly when one source is given and exists as the right kind of path, every given
    // time parses in the current year, and a given start lies strictly before a given end
    ensures r.Ok? <==>
              (raw.directory.Some? != raw.supportBundle.Some?) &&
              (raw.directory.Some? ==> isDir(raw.directory.value)) &&
              (raw.supportBundle.Some? ==> isFile(raw.supportBundle.value)) &&
              (raw.fromTime.Some? ==> ParseDatetime(raw.fromTime.value, currentYear).Some?) &&
              (raw.toTime.Some? ==> ParseDatetime(raw.toTime.value, currentYear).Some?) &&
              (raw.fromTime.Some? && raw.toTime.Some? ==>
                 Before(ParseDatetime(raw.fromTime.value, currentYear).value,
                        ParseDatetime(raw.toTime.value, currentYear).value))
    ensures r == Err(NoSource) <==>
              (raw.directory.None? && raw.supportBundle.None? &&
               (raw.fromTime.Some? ==> ParseDatetime(raw.fromTime.value, currentYear).Some?) &&
               (raw.toTime.Some? ==> ParseDatetime(raw.toTime.value, currentYear).Some?))
    // what an accepted command line holds: the chosen source, the types (by default `pg`, `ts`
    // and `ms`), five threads unless `-p` says otherwise, and the window in the current year
    ensures r.Ok? ==>
              var a := r.value;
              && (raw.directory.Some? ==> a.source == Directory(raw.directory.value))
              && (raw.supportBundle.Some? ==> a.source == SupportBundle(raw.supportBundle.value))
              && (raw.types.None? ==> a.types == ["pg", "ts", "ms"])
              && (raw.types.Some? ==> a.types == ParseCommaSeparatedList(raw.types))
              && a.numThreads == (if raw.parallel.Some? then raw.parallel.value else 5)
              && (a.startTime.Some? <==> raw.fromTime.Some?)
              && (a.endTime.Some? <==> raw.toTime.Some?)
              && (a.startTime.Some? && a.endTime.Some? ==> Before(a.startTime.value, a.endTime.value))
              && (a.startTime.Some? ==> a.startTime.value.year == currentYear)
              && (a.endTime.Some? ==> a.endTime.value.year == currentYear)
  {
    DefaultTypes(DefaultTypesText);
    if raw.directory.Some? && raw.supportBundle.Some? then Err(BothSources)
    else
      match TimeOption(raw.fromTime, currentYear)
      case Err(e) => Err(e)
      case Ok(start) =>
        match TimeOption(raw.toTime, currentYear)
        case Err(e) => Err(e)
        case Ok(end) =>
          if raw.directory.None? && raw.supportBundle.None? then Err(NoSource)
          else if start.Some? && end.Some? && !Before(start.value, end.value) then Err(StartNotBeforeEnd)
          else if raw.directory.Some? && !isDir(raw.directory.value) then Err(NotADirectory(raw.directory.value))
          else if raw.supportBundle.Some? && !isFile(raw.supportBundle.value) then
            Err(NotABundle(raw.supportBundle.value))
          else
            var source := if raw.directory.Some? then Directory(raw.directory.value)
                          else SupportBundle(raw.supportBundle.value);
            var types := ParseCommaSeparatedList(Some(if raw.types.Some? then raw.types.value else DefaultTypesText));
            var threads := if raw.parallel.Some? then raw.parallel.value else DefaultThreads;
            Ok(Args(source, types, ListOption(raw.nodes), start, end, ListOption(raw.histogramMode),
                    raw.output, threads, raw.skipTar))
  }
}
