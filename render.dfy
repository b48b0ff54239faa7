/** The index page of analysis reports: the ticket number read from a report's file name, and the
    list of items the page template is given, one per report file, sorted by ticket number. */
module Render {
  import opened Base
  import opened Text
  import opened Seqs
  import opened Helper

  /** The argument of `extract_zendesk_ticket_id`: the function checks at run time that it got a
      string, and everything else is turned away. */
  datatype Arg = Str(s: string) | NotStr

  const PosixWrap: string := "PosixPath('"
  const WindowsWrap: string := "WindowsPath('"

  /** `re.match(r"^(?:Posix|Windows)Path\('(.*)'\)$", s)`: the text between the quotes when `s` is
      a path's `repr` (`.` stops at a newline, and `$` also matches before one final newline). */
  function Unwrapped(s: string): (r: Option<string>)
    ensures r.Some? ==> '\n' !in r.value
    ensures r.Some? ==> s == PosixWrap + r.value + "')" || s == PosixWrap + r.value + "')\n" ||
                        s == WindowsWrap + r.value + "')" || s == WindowsWrap + r.value + "')\n"
  {
    if PosixWrap <= s then Between(s, PosixWrap)
    else if WindowsWrap <= s then Between(s, WindowsWrap)
    else None
  }

  /** The text after the prefix `w` up to a final `')`, itself optionally followed by one newline;
      the text may not hold a newline. */
  function Between(s: string, w: string): (r: Option<string>)
    requires w <= s
    ensures r.Some? ==> '\n' !in r.value && (s == w + r.value + "')" || s == w + r.value + "')\n")
  {
    var rest := s[|w|..];
    assert s == w + rest;
    if EndsWith(rest, "')") && '\n' !in rest[..|rest| - 2] then
      assert rest == rest[..|rest| - 2] + "')";
      Some(rest[..|rest| - 2])
    else if EndsWith(rest, "')\n") && '\n' !in rest[..|rest| - 3] then
      assert rest == rest[..|rest| - 3] + "')\n";
      Some(rest[..|rest| - 3])
    else None
  }

  /** Every wrapped form is recognised, and gives back the text inside. */
  lemma UnwrapRepr(p: string)
    requires '\n' !in p
    ensures Unwrapped(PosixWrap + p + "')") == Some(p)
    ensures Unwrapped(WindowsWrap + p + "')") == Some(p)
    ensures Unwrapped(PosixWrap + p + "')\n") == Some(p)
  {
    var s2 := WindowsWrap + p + "')";
    BetweenWrapped(PosixWrap, p);
    BetweenWrapped(WindowsWrap, p);
    assert !(PosixWrap <= s2) by {
      assert s2[0] == 'W';
    }
  }

  /** The wrapper followed by a single-line text and `')` gives back that text. */
  lemma BetweenWrapped(w: string, p: string)
    requires '\n' !in p
    ensures w <= w + p + "')" && Between(w + p + "')", w) == Some(p)
    ensures w <= w + p + "')\n" && Between(w + p + "')\n", w) == Some(p)
  {
    var s1, s3 := w + p + "')", w + p + "')\n";
    assert s1[|w|..] == p + "')" && (p + "')")[..|p|] == p;
    assert s3[|w|..] == p + "')\n" && (p + "')\n")[..|p|] == p;
    var t := p + "')\n";
    assert t[|t| - 2..] == [')', '\n'];
  }

  /** A path that starts with '/' is not a `repr`. */
  lemma AbsoluteNotWrapped(s: string)
    requires s != "" && s[0] == '/'
    ensures Unwrapped(s) == None
  {
    assert !(PosixWrap <= s) && !(WindowsWrap <= s) by {
      assert PosixWrap[0] == 'P' && WindowsWrap[0] == 'W';
    }
  }

  /** The number of decimal digits at the start of a file name. */
  function LeadingDigits(name: string): (n: nat)
    ensures n <= |name| && AllDigits(name[..n])
    ensures forall j :: 0 <= j < n ==> IsDigit(name[j])
    ensures n < |name| ==> !IsDigit(name[n])
  {
    Span(name, IsDigit)
  }

  /** `re.match(r"^(\d+)-.*", name)`: the digits before the first character that is not one, when
      there is at least one and that character is a hyphen. */
  function TicketOfName(name: string): (r: Option<string>)
    ensures r.Some? ==> r.value != "" && AllDigits(r.value) && r.value + "-" <= name
  {
    var n := LeadingDigits(name);
    if 0 < n < |name| && name[n] == '-' then
      assert name[..n] + "-" == name[..n + 1];
      Some(name[..n])
    else None
  }

  /** A name yields no ticket exactly when no hyphen in it follows a non-empty run of digits
      from its start. */
  lemma TicketOfNameNone(name: string)
    ensures TicketOfName(name).None? <==>
              forall n :: 0 < n < |name| && name[n] == '-' ==> !AllDigits(name[..n])
  {
    var k := LeadingDigits(name);
    if TicketOfName(name).None? {
      forall n | 0 < n < |name| && name[n] == '-'
        ensures !AllDigits(name[..n])
      {
        assert k != n;
        assert name[..n][k] == name[k];
      }
    } else {
      assert name[k] == '-' && AllDigits(name[..k]);
    }
  }

  /** A name `<digits>-<rest>` has those digits as its ticket. */
  lemma TicketOfDigitsName(digits: string, rest: string)
    requires digits != "" && AllDigits(digits)
    ensures TicketOfName(digits + "-" + rest) == Some(digits)
  {
    var name := digits + "-" + rest;
    assert forall j :: 0 <= j < |digits| ==> name[j] == digits[j];
    assert name[|digits|] == '-';
    assert LeadingDigits(name) == |digits|;
    assert name[..|digits|] == digits;
  }

  /** `extract_zendesk_ticket_id`: not a string, an empty path (after unwrapping) and a base name
      that does not start with digits and a hyphen all give `None`; a ticket id is a non-empty run
      of digits. */
  function ExtractTicketId(arg: Arg): (r: Option<string>)
    ensures arg.NotStr? ==> r.None?
    ensures arg.Str? ==>
              var path := if Unwrapped(arg.s).Some? then Unwrapped(arg.s).value else arg.s;
              r == (if path == "" then None else TicketOfName(Basename(path)))
    ensures r.Some? ==> r.value != "" && AllDigits(r.value)
  {
    match arg
    case NotStr => None
    case Str(s) =>
      var path := match Unwrapped(s) case Some(inner) => inner case None => s;
      if path == "" then None else TicketOfName(Basename(path))
  }

  /** A report named `<digits>-<rest>` in an absolute directory has those digits as its ticket. */
  lemma TicketOfReport(dir: string, digits: string, rest: string)
    requires dir == "" || dir[0] == '/'
    requires digits != "" && AllDigits(digits) && '/' !in rest
    ensures ExtractTicketId(Str(dir + "/" + digits + "-" + rest)) == Some(digits)
  {
    var name := digits + "-" + rest;
    var path := dir + "/" + name;
    assert path == dir + "/" + digits + "-" + rest;
    AbsoluteNotWrapped(path);
    BasenameOfJoin(dir, name);
    TicketOfDigitsName(digits, rest);
  }

  /** A path given as its `repr` has the ticket the path itself has. */
  lemma ReprSameTicket(p: string)
    requires '\n' !in p && Unwrapped(p).None?
    ensures ExtractTicketId(Str(PosixWrap + p + "')")) == ExtractTicketId(Str(p))
    ensures ExtractTicketId(Str(WindowsWrap + p + "')")) == ExtractTicketId(Str(p))
  {
    UnwrapRepr(p);
    TicketOfUnwrapped(PosixWrap + p + "')", p);
    TicketOfUnwrapped(WindowsWrap + p + "')", p);
  }

  lemma TicketOfUnwrapped(s: string, path: string)
    requires Unwrapped(s) == Some(path)
    ensures ExtractTicketId(Str(s)) == if path == "" then None else TicketOfName(Basename(path))
  {
  }

  lemma BasenameOfJoin(dir: string, name: string)
    requires '/' !in name
    ensures Basename(dir + "/" + name) == name
  {
    var p := dir + "/" + name;
    assert forall j :: |dir| < j < |p| ==> p[j] == name[j - |dir| - 1];
    assert forall j :: |dir| < j < |p| ==> p[j] != '/';
    assert p[|dir|] == '/';
    assert RFind(p, '/') == |dir|;
    assert p[|dir| + 1..] == name;
  }

  // ---------------------------------------------------------------------------------------------
  // prepare_template_data

  /** One report file: its path as text, its final component and where it lies relative to the
      output directory, or `None` when resolving the two paths raised. */
  datatype ReportFile = ReportFile(path: string, name: string, link: Option<string>)

  // A template entry is `Helper.Item`, `{"case_number": …, "filename": …}`, sorted by
  // `Helper.ByCaseNumber`.

  /** The entry for one file: its ticket id or "N/A" with its relative path, or "Error" with its
      name when the relative path could not be computed. */
  function ItemOf(f: ReportFile): (item: Item)
    ensures f.link.None? ==> item == Item("Error", f.name)
    ensures f.link.Some? ==> item.filename == f.link.value
    ensures f.link.Some? ==> item.caseNumber == (match ExtractTicketId(Str(f.path)) case Some(id) => id case None => "N/A")
  {
    if f.link.None? then Item("Error", f.name)
    else
      var id := ExtractTicketId(Str(f.path));
      Item(if id.Some? then id.value else "N/A", f.link.value)
  }

  /** The entries in the order of the files. */
  function ItemsOf(files: seq<ReportFile>): (items: seq<Item>)
    ensures |items| == |files|
    ensures forall k :: 0 <= k < |files| ==> items[k] == ItemOf(files[k])
  {
    Map(files, ItemOf)
  }

  /** `prepare_template_data`: one entry per file, built in a loop, then sorted by case number. */
  method PrepareTemplateData(files: seq<ReportFile>) returns (items: seq<Item>)
    ensures StrictOrder(ByCaseNumber())
    ensures items == SortBy(ItemsOf(files), ByCaseNumber())
  {
    items := [];
    for i := 0 to |files|
      invariant items == ItemsOf(files[..i])
    {
      MapSnoc(files, i, ItemOf);
      items := items + [ItemOf(files[i])];
    }
    assert files[..|files|] == files;
    ByCaseNumberIsStrict();
    items := SortBy(items, ByCaseNumber());
  }

  /** The sorted list holds each file's entry, as many times as it occurs, and nothing else, with
      case numbers never decreasing down the list. */
  lemma TemplateDataEntries(files: seq<ReportFile>)
    ensures StrictOrder(ByCaseNumber())
    ensures var items := SortBy(ItemsOf(files), ByCaseNumber());
            && |items| == |files|
            && multiset(items) == multiset(ItemsOf(files))
            && (forall k :: 0 <= k < |files| ==> ItemOf(files[k]) in items)
            && (forall x :: x in items ==> exists k :: 0 <= k < |files| && x == ItemOf(files[k]))
            && (forall i, j :: 0 <= i < j < |items| ==> !LexLess(items[j].caseNumber, items[i].caseNumber))
  {
    ByCaseNumberIsStrict();
    var unsorted := ItemsOf(files);
    var items := SortBy(unsorted, ByCaseNumber());
    assert |items| == |multiset(items)| == |multiset(unsorted)| == |unsorted|;
    forall k | 0 <= k < |files|
      ensures ItemOf(files[k]) in items
    {
      assert unsorted[k] in multiset(unsorted);
    }
    forall x | x in items
      ensures exists k :: 0 <= k < |files| && x == ItemOf(files[k])
    {
      assert x in multiset(items);
      assert x in multiset(unsorted);
      var k :| 0 <= k < |unsorted| && unsorted[k] == x;
    }
    forall i, j | 0 <= i < j < |items|
      ensures !LexLess(items[j].caseNumber, items[i].caseNumber)
    {
      assert !ByCaseNumber()(items[j], items[i]);
    }
  }
}
