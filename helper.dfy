/** Case numbers read from a log directory's path and from the names of analysis reports, and the
    list of reports shown on the index page. */
module Helper {
  import opened Base
  import opened Text
  import opened Seqs

  // ---------------------------------------------------------------------------------------------
  // get_case_number_from_path

  /** `log_dir.strip('/').split('/')`. */
  function PathParts(logDir: string): (parts: seq<string>)
    ensures |parts| >= 1
    ensures forall k :: 0 <= k < |parts| ==> '/' !in parts[k]
  {
    Split(StripBy(logDir, IsSlash), '/')
  }

  /** The second component of the path once outer slashes are stripped, provided there is at least
      a third one; otherwise `None`. */
  function CaseNumberFromPath(logDir: string): (r: Option<string>)
    ensures r.Some? <==> |PathParts(logDir)| > 2
    ensures r.Some? ==> r.value == PathParts(logDir)[1] && '/' !in r.value
  {
    var parts := PathParts(logDir);
    if |parts| > 2 then Some(parts[1]) else None
  }

  /** `/<base>/<caseDir>/<rest>` has case number `<caseDir>` when `<rest>` does not end in a
      slash. */
  lemma CaseNumberOfLogDir(base: string, caseDir: string, rest: string)
    requires base != "" && '/' !in base && '/' !in caseDir
    requires rest != "" && rest[|rest| - 1] != '/'
    ensures CaseNumberFromPath("/" + base + "/" + caseDir + "/" + rest) == Some(caseDir)
  {
    var inner := base + "/" + caseDir + "/" + rest;
    StripOneLeadingSlash(inner);
    assert "/" + base + "/" + caseDir + "/" + rest == "/" + inner;
    assert inner == base + ['/'] + (caseDir + ['/'] + rest);
    SplitFirst(base, '/', caseDir + ['/'] + rest);
    SplitFirst(caseDir, '/', rest);
  }

  /** `/<base>/<caseDir>`, with or without a trailing slash, has two components and so no case
      number. */
  lemma NoCaseNumberInTwoComponents(base: string, caseDir: string)
    requires base != "" && '/' !in base && caseDir != "" && '/' !in caseDir
    ensures CaseNumberFromPath("/" + base + "/" + caseDir) == None
    ensures CaseNumberFromPath("/" + base + "/" + caseDir + "/") == None
  {
    var two := base + "/" + caseDir;
    TwoParts(base, caseDir);
    AppendAssoc("/", base, "/");
    AppendAssoc("/", base + "/", caseDir);
    assert "/" + two == "/" + base + "/" + caseDir;
    assert CaseNumberFromPath("/" + base + "/" + caseDir) == None by {
      StripSlashes("/" + two, "");
      assert "/" + two + "" == "/" + two;
    }
    assert CaseNumberFromPath("/" + base + "/" + caseDir + "/") == None by {
      StripSlashes("/" + two, "/");
      assert "/" + two + "/" == "/" + base + "/" + caseDir + "/";
    }
  }

  /** Two slash-free components joined by one slash split back into those two. */
  lemma TwoParts(base: string, caseDir: string)
    requires '/' !in base && '/' !in caseDir
    ensures Split(base + "/" + caseDir, '/') == [base, caseDir]
  {
    assert base + "/" + caseDir == base + ['/'] + caseDir;
    SplitFirst(base, '/', caseDir);
    SplitNoSep(caseDir, '/');
  }

  /** Stripping slashes from `/` + a string that has no slash at either end removes that one slash. */
  lemma StripOneLeadingSlash(s: string)
    requires s != "" && s[0] != '/' && s[|s| - 1] != '/'
    ensures StripBy("/" + s, IsSlash) == s
  {
    StripSlashes("/" + s, "");
    assert "/" + s + "" == "/" + s;
  }

  /** Stripping slashes from `/` + a middle that neither starts nor ends with one + trailing slashes. */
  lemma StripSlashes(s: string, tail: string)
    requires |s| >= 2 && s[0] == '/' && s[1] != '/' && s[|s| - 1] != '/' && AllSlashes(tail)
    ensures StripBy(s + tail, IsSlash) == s[1..]
  {
    var t := s + tail;
    assert Span(t, IsSlash) == 1 by {
      assert t[0] == '/' && t[1] != '/';
    }
    var u := t[1..];
    assert u == s[1..] + tail;
    var n := SpanEnd(u, IsSlash);
    assert n == |tail| by {
      assert forall k :: |s[1..]| <= k < |u| ==> u[k] == '/';
      assert u[|u| - |tail| - 1] == s[|s| - 1];
    }
    assert u[..|u| - n] == s[1..];
  }

  // ---------------------------------------------------------------------------------------------
  // get_case_number_from_filename

  predicate IsNotHyphen(c: char)
  {
    c != '-'
  }

  /** `filename.split('-', 1)[0]` when the name contains '-', else `None`. */
  function CaseNumberFromFilename(filename: string): (r: Option<string>)
    ensures r.Some? <==> '-' in filename
    ensures r.Some? ==> '-' !in r.value && r.value + "-" <= filename
  {
    var n := Span(filename, IsNotHyphen);
    if n < |filename| then
      assert filename[..n] + "-" == filename[..n + 1];
      Some(filename[..n])
    else None
  }

  /** The case number is the first piece of the name when it is split at every hyphen. */
  lemma CaseNumberIsFirstPiece(filename: string)
    requires '-' in filename
    ensures CaseNumberFromFilename(filename).value == Split(filename, '-')[0]
  {
    var n := Span(filename, IsNotHyphen);
    var head := filename[..n];
    assert filename == head + ['-'] + filename[n + 1..];
    SplitFirst(head, '-', filename[n + 1..]);
  }

  // ---------------------------------------------------------------------------------------------
  // get_analysis_items

  /** One entry of the index list: `{"case_number": …, "filename": …}`. */
  datatype Item = Item(caseNumber: string, filename: string)

  /** A directory entry that is listed: an HTML report other than the index page, whose name yields
      a non-empty case number. */
  predicate Listed(filename: string)
  {
    EndsWith(filename, ".html") && filename != "index.html" &&
    CaseNumberFromFilename(filename).Some? && CaseNumberFromFilename(filename).value != ""
  }

  /** The entries appended by the loop over the directory listing, in listing order. */
  function Collected(names: seq<string>): (items: seq<Item>)
    ensures forall k :: 0 <= k < |items| ==> Listed(items[k].filename)
  {
    if |names| == 0 then []
    else
      var name := names[|names| - 1];
      Collected(names[..|names| - 1]) +
      (if Listed(name) then [Item(CaseNumberFromFilename(name).value, name)] else [])
  }

  function ByCaseNumber(): (Item, Item) -> bool
  {
    (a: Item, b: Item) => LexLess(a.caseNumber, b.caseNumber)
  }

  lemma ByCaseNumberIsStrict()
    ensures StrictOrder(ByCaseNumber())
  {
    forall a: Item
      ensures !ByCaseNumber()(a, a)
    {
      LexIrreflexive(a.caseNumber);
    }
    forall a: Item, b: Item, c: Item | ByCaseNumber()(a, b) && ByCaseNumber()(b, c)
      ensures ByCaseNumber()(a, c)
    {
      LexTransitive(a.caseNumber, b.caseNumber, c.caseNumber);
    }
  }

  /** The listed reports sorted by case number: the same entries, case numbers never decreasing. */
  function AnalysisItems(names: seq<string>): (items: seq<Item>)
    ensures multiset(items) == multiset(Collected(names))
    ensures forall i, j :: 0 <= i < j < |items| ==> !LexLess(items[j].caseNumber, items[i].caseNumber)
  {
    ByCaseNumberIsStrict();
    var items := SortBy(Collected(names), ByCaseNumber());
    assert forall i, j :: 0 <= i < j < |items| ==> !ByCaseNumber()(items[j], items[i]);
    items
  }

  /** `get_analysis_items` over a directory listing, `None` when the directory does not exist or
      cannot be listed. */
  method GetAnalysisItems(listing: Option<seq<string>>) returns (items: seq<Item>)
    ensures listing.None? ==> items == []
    ensures listing.Some? ==> items == AnalysisItems(listing.value)
  {
    if listing.None? {
      return [];
    }
    var names := listing.value;
    items := [];
    for i := 0 to |names|
      invariant items == Collected(names[..i])
    {
      var filename := names[i];
      assert names[..i + 1][..i] == names[..i];
      if EndsWith(filename, ".html") && filename != "index.html" {
        var caseNum := CaseNumberFromFilename(filename);
        if caseNum.Some? && caseNum.value != "" {
          items := items + [Item(caseNum.value, filename)];
        }
      }
    }
    assert names[..|names|] == names;
    ByCaseNumberIsStrict();
    items := SortBy(items, ByCaseNumber());
  }

  /** A name is in the list exactly when it is an HTML report other than the index page whose name
      has a non-empty case number before its first hyphen, and then with that case number. */
  lemma AnalysisItemsIff(names: seq<string>, name: string)
    ensures var items := AnalysisItems(names);
            && ((exists k :: 0 <= k < |items| && items[k].filename == name) <==> name in names && Listed(name))
            && (forall k :: 0 <= k < |items| && items[k].filename == name ==>
                  items[k].caseNumber == CaseNumberFromFilename(name).value)
  {
    var collected := Collected(names);
    var items := AnalysisItems(names);
    CollectedHas(names, name);
    forall k | 0 <= k < |items|
      ensures items[k] in collected
    {
      assert items[k] in multiset(items);
    }
    if name in names && Listed(name) {
      var x := Item(CaseNumberFromFilename(name).value, name);
      assert x in multiset(collected);
      var k :| 0 <= k < |items| && items[k] == x;
    }
  }

  /** The collected entries are exactly the listed names, each with its case number. */
  lemma {:induction false} CollectedHas(names: seq<string>, name: string)
    ensures (exists x :: x in Collected(names) && x.filename == name) <==> name in names && Listed(name)
    ensures forall x :: x in Collected(names) ==> x.caseNumber == CaseNumberFromFilename(x.filename).value
    ensures name in names && Listed(name) ==> Item(CaseNumberFromFilename(name).value, name) in Collected(names)
  {
    if |names| > 0 {
      var init, last := names[..|names| - 1], names[|names| - 1];
      CollectedHas(init, name);
      assert names == init + [last];
      if name in names && name != last {
        assert name in init;
      }
    }
  }
}
