/** The command line of the directory-oriented front end: its comma-separated list type, which
    drops empty items, its `MMDD HH:MM` time type, which validates the date in the default year
    before moving it to the current one, and the checks made once the arguments are parsed. */
module InputHelper {
  import opened Base
  import opened Text
  import opened Seqs
  import opened Calendar
  import ArgParserHelper

  const DefaultLogTypes: seq<string> := ["pg", "ts", "ms"]
  const DefaultParallelThreads: int := 5

  // ---------------------------------------------------------------------------------------------
  // comma_separated_list

  predicate NonEmpty(item: string)
  {
    item != ""
  }

  /** `comma_separated_list`: nothing for a missing or empty argument, otherwise the stripped
      comma-separated pieces that are not empty, in order. */
  function CommaSeparatedList(value: Option<string>): (r: seq<string>)
    ensures value.None? || value.value == "" ==> r == []
    ensures forall k :: 0 <= k < |r| ==> r[k] != "" && ',' !in r[k]
  {
    match value
    case None => []
    case Some(s) =>
      if s == "" then []
      else
        var items := StripItems(s, ',');
        assert forall k :: 0 <= k < |items| ==> ',' !in items[k] by {
          forall k | 0 <= k < |items|
            ensures ',' !in items[k]
          {
            StripIsInfix(Split(s, ',')[k]);
          }
        }
        FilterHasNoComma(items);
        Filter(items, NonEmpty)
  }

  /** Filtering keeps the "no comma" property of every piece. */
  lemma FilterHasNoComma(items: seq<string>)
    requires forall k :: 0 <= k < |items| ==> ',' !in items[k]
    ensures forall k :: 0 <= k < |Filter(items, NonEmpty)| ==> ',' !in Filter(items, NonEmpty)[k]
  {
    var r := Filter(items, NonEmpty);
    forall k | 0 <= k < |r|
      ensures ',' !in r[k]
    {
      FilterHas(items, NonEmpty, r[k]);
    }
  }

  /** A stripped piece is a part of the piece, so it holds no character the piece lacks. */
  lemma StripIsInfix(p: string)
    ensures forall c :: c in Strip(p) ==> c in p
  {
    var i := Span(p, IsSpace);
    var r := Strip(p);
    forall c | c in r
      ensures c in p
    {
      var j :| 0 <= j < |r| && r[j] == c;
      assert r[j] == p[i..][j];
    }
  }

  /** An item is listed exactly when it is a non-empty stripped piece of the argument. */
  lemma CommaSeparatedListHas(s: string, x: string)
    requires s != ""
    ensures x in CommaSeparatedList(Some(s)) <==> x != "" && x in StripItems(s, ',')
  {
    FilterHas(StripItems(s, ','), NonEmpty, x);
  }

  /** A list written without whitespace and without empty pieces comes back piece by piece, and
      joining it with commas restores the argument. */
  lemma CommaListRoundTrip(s: string)
    requires s != "" && forall k :: 0 <= k < |s| ==> !IsSpace(s[k])
    requires forall k :: 0 <= k < |Split(s, ',')| ==> Split(s, ',')[k] != ""
    ensures CommaSeparatedList(Some(s)) == Split(s, ',')
    ensures Join(CommaSeparatedList(Some(s)), ',') == s
  {
    StripItemsNoSpace(s, ',');
    FilterKeepsAll(Split(s, ','), NonEmpty);
    JoinSplit(s, ',');
  }

  /** This front end's list is the other front end's with the empty items dropped. */
  lemma DropsEmptyItems(value: Option<string>)
    ensures CommaSeparatedList(value) == Filter(ArgParserHelper.ParseCommaSeparatedList(value), NonEmpty)
  {
    if value.Some? && value.value != "" {
      var items := StripItems(value.value, ',');
      assert ArgParserHelper.ParseCommaSeparatedList(value) == items;
    }
  }

  // ---------------------------------------------------------------------------------------------
  // validate_datetime_format

  /** `validate_datetime_format`: `strptime(s, "%m%d %H:%M")`, which checks the date in the
      default year 1900, and then `replace(year=current_year)`; `None` where the source raises
      `ArgumentTypeError`. */
  function ValidateDatetimeFormat(timeStr: string, currentYear: int): (r: Option<Stamp>)
    requires 1 <= currentYear <= 9999
    ensures r.Some? <==> ParseShort(timeStr, DefaultYear).Some?
    ensures r.Some? ==> r.value == ParseShort(timeStr, DefaultYear).value.(year := currentYear)
    ensures r.Some? ==> Valid(r.value) && r.value.second == 0
  {
    match ParseShort(timeStr, DefaultYear)
    case None => None
    case Some(t) =>
      DefaultYearDateValidEverywhere(t.month, t.day, currentYear);
      WithYear(t, currentYear)
  }

  /** `0229 HH:MM` is turned away whatever the current year, since 1900 was not a leap year. */
  lemma LeapDayAlwaysRejected(currentYear: int, hour: int, minute: int)
    requires 1 <= currentYear <= 9999 && 0 <= hour < 24 && 0 <= minute < 60
    ensures ValidateDatetimeFormat("0229 " + Pad2(hour) + ":" + Pad2(minute), currentYear).None?
  {
    var s := "0229 " + Pad2(hour) + ":" + Pad2(minute);
    assert s[0..2] == "02" && s[2..4] == "29";
    assert Num2("02") == 2 && Num2("29") == 29;
    assert !IsLeap(DefaultYear);
  }

  /** The two front ends read a time alike, except on 29 February, which only the other one
      accepts (in a leap year). */
  lemma AgreesWithParseDatetime(timeStr: string, currentYear: int)
    requires 1000 <= currentYear <= 9999
    ensures var mine, theirs := ValidateDatetimeFormat(timeStr, currentYear), ArgParserHelper.ParseDatetime(timeStr, currentYear);
            mine == theirs ||
            (mine.None? && theirs.Some? && theirs.value.month == 2 && theirs.value.day == 29 && IsLeap(currentYear))
  {
    var theirs := ArgParserHelper.ParseDatetime(timeStr, currentYear);
    var old1900 := ParseShort(timeStr, DefaultYear);
    if theirs.Some? && !(theirs.value.month == 2 && theirs.value.day == 29) {
      assert old1900.Some?;
    }
  }

  // ---------------------------------------------------------------------------------------------
  // parse_arguments

  /** The command line as given: each option's text, or `None` when it was left out. */
  datatype RawArgs = RawArgs(
    directory: Option<string>, supportBundle: Option<string>, skipTar: bool, types: Option<string>,
    nodes: Option<string>, fromTime: Option<string>, toTime: Option<string>, output: Option<string>,
    parallel: Option<int>, histogramMode: Option<string>)

  /** Both sources may be given here; the caller decides which one it uses. */
  datatype Args = Args(
    directory: Option<string>, supportBundle: Option<string>, skipTar: bool, types: seq<string>,
    nodes: Option<seq<string>>, startTime: Option<Stamp>, endTime: Option<Stamp>,
    outputFile: Option<string>, numThreads: int, histogramErrors: Option<seq<string>>)

  /** The ways `parse_arguments` exits through `parser.error`. */
  datatype UsageError = BadTime(text: string) | NoSource | StartNotBeforeEnd

  /** Python's truth value of an optional string: given and not empty. */
  predicate Given(arg: Option<string>)
  {
    arg.Some? && arg.value != ""
  }

  /** A list option: `None` when left out, its parsed items otherwise. */
  function ListOption(arg: Option<string>): (r: Option<seq<string>>)
    ensures r.Some? <==> arg.Some?
    ensures r.Some? ==> r.value == CommaSeparatedList(arg)
  {
    if arg.None? then None else Some(CommaSeparatedList(arg))
  }

  /** A time option: `Ok(None)` when left out. */
  function TimeOption(arg: Option<string>, currentYear: int): (r: Result<Option<Stamp>, UsageError>)
    requires 1 <= currentYear <= 9999
    ensures arg.None? ==> r == Ok(None)
    ensures arg.Some? ==> (r.Ok? <==> ValidateDatetimeFormat(arg.value, currentYear).Some?)
    ensures arg.Some? && r.Ok? ==> r.value == ValidateDatetimeFormat(arg.value, currentYear)
    ensures r.Err? ==> r.error == BadTime(arg.value)
  {
    match arg
    case None => Ok(None)
    case Some(s) =>
      match ValidateDatetimeFormat(s, currentYear)
      case Some(t) => Ok(Some(t))
      case None => Err(BadTime(s))
  }

  /** `parse_arguments`: times that parse, at least one non-empty source, and a start strictly
      before the end when both are given. */
  function ParseArguments(raw: RawArgs, currentYear: int): (r: Result<Args, UsageError>)
    requires 1 <= currentYear <= 9999
    // accepted exactly when a source is named, every given time parses, and a given start lies
    // strictly before a given end
    ensures r.Ok? <==>
              (Given(raw.directory) || Given(raw.supportBundle)) &&
              (raw.fromTime.Some? ==> ValidateDatetimeFormat(raw.fromTime.value, currentYear).Some?) &&
              (raw.toTime.Some? ==> ValidateDatetimeFormat(raw.toTime.value, currentYear).Some?) &&
              (raw.fromTime.Some? && raw.toTime.Some? ==>
                 Before(ValidateDatetimeFormat(raw.fromTime.value, currentYear).value,
                        ValidateDatetimeFormat(raw.toTime.value, currentYear).value))
    ensures r == Err(NoSource) <==>
              (!Given(raw.directory) && !Given(raw.supportBundle) &&
               (raw.fromTime.Some? ==> ValidateDatetimeFormat(raw.fromTime.value, currentYear).Some?) &&
               (raw.toTime.Some? ==> ValidateDatetimeFormat(raw.toTime.value, currentYear).Some?))
    // the defaults: the three log types and five workers
    ensures r.Ok? ==>
              var a := r.value;
              && a.directory == raw.directory && a.supportBundle == raw.supportBundle
              && a.types == (if raw.types.Some? then CommaSeparatedList(raw.types) else ["pg", "ts", "ms"])
              && a.numThreads == (if raw.parallel.Some? then raw.parallel.value else 5)
              && (a.startTime.Some? <==> raw.fromTime.Some?)
              && (a.endTime.Some? <==> raw.toTime.Some?)
              && (a.startTime.Some? && a.endTime.Some? ==> Before(a.startTime.value, a.endTime.value))
              && (a.startTime.Some? ==> a.startTime.value.year == currentYear)
              && (a.endTime.Some? ==> a.endTime.value.year == currentYear)
  {
    match TimeOption(raw.fromTime, currentYear)
    case Err(e) => Err(e)
    case Ok(start) =>
      match TimeOption(raw.toTime, currentYear)
      case Err(e) => Err(e)
      case Ok(end) =>
        if !Given(raw.directory) && !Given(raw.supportBundle) then Err(NoSource)
        else if start.Some? && end.Some? && !Before(start.value, end.value) then Err(StartNotBeforeEnd)
        else
          var types := if raw.types.Some? then CommaSeparatedList(raw.types) else DefaultLogTypes;
          var threads := if raw.parallel.Some? then raw.parallel.value else DefaultParallelThreads;
          Ok(Args(raw.directory, raw.supportBundle, raw.skipTar, types, ListOption(raw.nodes), start, end,
                  raw.output, threads, ListOption(raw.histogramMode)))
  }
}
