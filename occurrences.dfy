/** The per-message statistics every analyzer keeps while it reads a file: a count, the time of the
    first and of the last hit, and a bar chart of hits per bucket; and the merge of those charts
    across files. A hit is one (message, time) pair, in the order the analyzer finds them. */
module Occurrences {
  import opened Base
  import opened Text
  import opened Seqs

  datatype Hit = Hit(message: string, time: string)

  /** `{"count": …, "first_occurrence": …, "last_occurrence": …}` for one message. */
  datatype Occurrence = Occurrence(count: nat, first: string, last: string)

  type Table = map<string, Occurrence>

  /** Hits per bucket for one message. */
  type Row = map<string, nat>

  /** `barChartJSON` / `histogramJSON`: message -> bucket -> hits. */
  type Chart = map<string, Row>

  /** The times of the hits for message `m`, in order. */
  function Times(hits: seq<Hit>, m: string): (ts: seq<string>)
    ensures |ts| <= |hits|
  {
    if |hits| == 0 then []
    else
      var h := hits[|hits| - 1];
      Times(hits[..|hits| - 1], m) + (if h.message == m then [h.time] else [])
  }

  lemma {:induction false} TimesAppend(a: seq<Hit>, b: seq<Hit>, m: string)
    ensures Times(a + b, m) == Times(a, m) + Times(b, m)
    decreases |b|
  {
    if |b| == 0 {
      assert a + b == a;
    } else {
      assert (a + b)[..|a + b| - 1] == a + b[..|b| - 1];
      TimesAppend(a, b[..|b| - 1], m);
    }
  }

  // ---------------------------------------------------------------------------------------------
  // The per-message table

  /** One hit: the count goes up by one, the first time is set on the first hit only and the last
      time is overwritten on every hit. */
  function Record(t: Table, h: Hit): Table
  {
    if h.message in t then
      var o := t[h.message];
      t[h.message := Occurrence(o.count + 1, o.first, h.time)]
    else t[h.message := Occurrence(1, h.time, h.time)]
  }

  function Tabulate(hits: seq<Hit>): Table
  {
    if |hits| == 0 then map[] else Record(Tabulate(hits[..|hits| - 1]), hits[|hits| - 1])
  }

  /** A message has an entry exactly when it was hit; its count is the number of its hits and its
      first and last times are the times of its first and last hit in file order (not the
      smallest and largest times). */
  lemma {:induction false} TabulateTimes(hits: seq<Hit>, m: string)
    ensures m in Tabulate(hits) <==> |Times(hits, m)| > 0
    ensures m in Tabulate(hits) ==>
              var ts := Times(hits, m);
              Tabulate(hits)[m] == Occurrence(|ts|, ts[0], ts[|ts| - 1])
  {
    if |hits| > 0 {
      var init := hits[..|hits| - 1];
      TabulateTimes(init, m);
      if hits[|hits| - 1].message == m && |Times(init, m)| > 0 {
        assert Times(hits, m)[0] == Times(init, m)[0];
      }
    }
  }

  /** The distinct messages in the order of their first hit: the order in which a Python dict
      built from the hits lists its keys. */
  function Messages(hits: seq<Hit>): (ms: seq<string>)
    ensures forall i, j :: 0 <= i < j < |ms| ==> ms[i] != ms[j]
    ensures forall m :: m in ms <==> m in Tabulate(hits)
  {
    if |hits| == 0 then []
    else
      var init, h := hits[..|hits| - 1], hits[|hits| - 1];
      var ms := Messages(init);
      if h.message in ms then ms else ms + [h.message]
  }

  // ---------------------------------------------------------------------------------------------
  // Bar charts

  /** `hour = time[:-3]`: the MMDD HH:MM time without its minutes. */
  function Bucket(time: string): (b: string)
    ensures |time| >= 3 ==> b + time[|time| - 3..] == time
    ensures |time| < 3 ==> b == ""
  {
    if |time| >= 3 then time[..|time| - 3] else ""
  }

  function Get(row: Row, k: string): nat
  {
    if k in row then row[k] else 0
  }

  /** `row.setdefault(k, 0); row[k] += 1`. */
  function Bump(row: Row, k: string): (r: Row)
    ensures r.Keys == row.Keys + {k}
    ensures forall j :: j in r ==> r[j] == Get(row, j) + (if j == k then 1 else 0)
  {
    row[k := Get(row, k) + 1]
  }

  function RowOf(c: Chart, m: string): Row
  {
    if m in c then c[m] else map[]
  }

  /** The bar-chart update for one hit. */
  function Plot(hits: seq<Hit>): Chart
  {
    if |hits| == 0 then map[]
    else
      var c, h := Plot(hits[..|hits| - 1]), hits[|hits| - 1];
      c[h.message := Bump(RowOf(c, h.message), Bucket(h.time))]
  }

  /** The buckets of a sequence of times. */
  function Buckets(ts: seq<string>): Row
  {
    if |ts| == 0 then map[] else Bump(Buckets(ts[..|ts| - 1]), Bucket(ts[|ts| - 1]))
  }

  /** A message's row of the chart is the bucket count of its hit times. */
  lemma {:induction false} PlotTimes(hits: seq<Hit>, m: string)
    ensures m in Plot(hits) <==> |Times(hits, m)| > 0
    ensures RowOf(Plot(hits), m) == Buckets(Times(hits, m))
  {
    if |hits| > 0 {
      var init := hits[..|hits| - 1];
      PlotTimes(init, m);
      var ts, h := Times(init, m), hits[|hits| - 1];
      if h.message == m {
        var ts' := Times(hits, m);
        assert ts' == ts + [h.time];
        assert ts'[..|ts'| - 1] == ts;
        assert Buckets(ts') == Bump(Buckets(ts), Bucket(h.time));
        assert RowOf(Plot(hits), m) == Bump(RowOf(Plot(init), m), Bucket(h.time));
      } else {
        assert Times(hits, m) == ts;
        assert RowOf(Plot(hits), m) == RowOf(Plot(init), m);
      }
    }
  }

  ghost function Pick(row: Row): string
    requires row != map[]
  {
    var k :| k in row; k
  }

  /** The sum of a row's counts. */
  ghost function Total(row: Row): nat
    decreases |row.Keys|
  {
    if row == map[] then 0
    else
      var k := Pick(row);
      assert (row - {k}).Keys == row.Keys - {k};
      row[k] + Total(row - {k})
  }

  lemma {:induction false} TotalRemove(row: Row, k: string)
    requires k in row
    ensures Total(row) == row[k] + Total(row - {k})
    decreases |row.Keys|
  {
    var j := Pick(row);
    if j != k {
      assert (row - {j}).Keys == row.Keys - {j};
      assert (row - {k}).Keys == row.Keys - {k};
      TotalRemove(row - {j}, k);
      TotalRemove(row - {k}, j);
      assert row - {j} - {k} == row - {k} - {j};
    }
  }

  lemma TotalBump(row: Row, k: string)
    ensures Total(Bump(row, k)) == Total(row) + 1
  {
    var r := Bump(row, k);
    TotalRemove(r, k);
    assert r - {k} == row - {k};
    if k in row {
      TotalRemove(row, k);
    } else {
      assert row - {k} == row;
    }
  }

  lemma {:induction false} TotalBuckets(ts: seq<string>)
    ensures Total(Buckets(ts)) == |ts|
  {
    if |ts| > 0 {
      TotalBuckets(ts[..|ts| - 1]);
      TotalBump(Buckets(ts[..|ts| - 1]), Bucket(ts[|ts| - 1]));
    }
  }

  /** The chart and the table agree: a message has a row exactly when it has an entry, and its
      bucket counts add up to its count. */
  lemma BucketTotalIsCount(hits: seq<Hit>, m: string)
    ensures m in Plot(hits) <==> m in Tabulate(hits)
    ensures m in Tabulate(hits) ==> Total(Plot(hits)[m]) == Tabulate(hits)[m].count
  {
    PlotTimes(hits, m);
    TabulateTimes(hits, m);
    TotalBuckets(Times(hits, m));
  }

  /** A table is empty exactly when there was no hit: what sends a file to the no-errors list. */
  lemma EmptyTableIffNoHits(hits: seq<Hit>)
    ensures Tabulate(hits) == map[] <==> hits == []
  {
    if hits != [] {
      TabulateTimes(hits, hits[0].message);
      assert Times(hits, hits[0].message) != [] by {
        TimesAppend([hits[0]], hits[1..], hits[0].message);
        assert [hits[0]] + hits[1..] == hits;
        assert Times([hits[0]], hits[0].message) == [hits[0].time] by {
          assert [hits[0]][..0] == [];
        }
      }
    }
  }

  // ---------------------------------------------------------------------------------------------
  // Merging charts across files

  /** Two rows added bucket by bucket. */
  function MergeRow(a: Row, b: Row): (r: Row)
    ensures r.Keys == a.Keys + b.Keys
  {
    map k | k in a.Keys + b.Keys :: Get(a, k) + Get(b, k)
  }

  /** The merge loop's effect: a message new to the histogram takes the file's row, a known one
      has the file's row added bucket by bucket. */
  function MergeCharts(h: Chart, c: Chart): (r: Chart)
    ensures r.Keys == h.Keys + c.Keys
  {
    map m | m in h.Keys + c.Keys ::
      if m in h && m in c then MergeRow(h[m], c[m]) else if m in h then h[m] else c[m]
  }

  lemma MergeRowEmpty(a: Row)
    ensures MergeRow(a, map[]) == a && MergeRow(map[], a) == a
  {
  }

  lemma MergeRowBump(a: Row, b: Row, k: string)
    ensures MergeRow(a, Bump(b, k)) == Bump(MergeRow(a, b), k)
  {
  }

  lemma {:induction false} BucketsAppend(t1: seq<string>, t2: seq<string>)
    ensures Buckets(t1 + t2) == MergeRow(Buckets(t1), Buckets(t2))
    decreases |t2|
  {
    if |t2| == 0 {
      assert t1 + t2 == t1;
      MergeRowEmpty(Buckets(t1));
    } else {
      var init := t2[..|t2| - 1];
      assert (t1 + t2)[..|t1 + t2| - 1] == t1 + init;
      BucketsAppend(t1, init);
      MergeRowBump(Buckets(t1), Buckets(init), Bucket(t2[|t2| - 1]));
    }
  }

  /** Merging the charts of two runs gives the chart of all their hits together: summing the
      per-file histograms loses and invents nothing. */
  lemma MergePlots(h1: seq<Hit>, h2: seq<Hit>)
    ensures MergeCharts(Plot(h1), Plot(h2)) == Plot(h1 + h2)
  {
    var l, r := MergeCharts(Plot(h1), Plot(h2)), Plot(h1 + h2);
    forall m | true
      ensures m in l <==> m in r
      ensures m in l ==> l[m] == r[m]
    {
      PlotTimes(h1, m);
      PlotTimes(h2, m);
      PlotTimes(h1 + h2, m);
      TimesAppend(h1, h2, m);
      BucketsAppend(Times(h1, m), Times(h2, m));
      MergeRowEmpty(Buckets(Times(h1, m)));
      MergeRowEmpty(Buckets(Times(h2, m)));
    }
  }

  /** Bucket totals add up across a merge. */
  lemma TotalMergeRow(a: Row, b: Row)
    ensures Total(MergeRow(a, b)) == Total(a) + Total(b)
    decreases |b.Keys|
  {
    if b == map[] {
      MergeRowEmpty(a);
    } else {
      var k := Pick(b);
      var b' := b - {k};
      assert b'.Keys == b.Keys - {k};
      TotalMergeRow(a, b');
      TotalRemove(b, k);
      MergeRowStep(a, b, k);
    }
  }

  /** Removing one bucket of `b` from a merge. */
  lemma MergeRowStep(a: Row, b: Row, k: string)
    requires k in b
    ensures Total(MergeRow(a, b)) == b[k] + Total(MergeRow(a, b - {k}))
  {
    var m, m' := MergeRow(a, b), MergeRow(a, b - {k});
    TotalRemove(m, k);
    assert m - {k} == m' - {k};
    if k in a {
      TotalRemove(m', k);
    } else {
      assert m' - {k} == m';
    }
  }

  lemma MergeChartsCommute(h: Chart, c: Chart)
    ensures MergeCharts(h, c) == MergeCharts(c, h)
  {
    forall m | m in h && m in c
      ensures MergeRow(h[m], c[m]) == MergeRow(c[m], h[m])
    {
      MergeRowCommute(h[m], c[m]);
    }
    assert MergeCharts(h, c).Keys == MergeCharts(c, h).Keys;
  }

  lemma MergeRowCommute(a: Row, b: Row)
    ensures MergeRow(a, b) == MergeRow(b, a)
  {
    assert MergeRow(a, b).Keys == MergeRow(b, a).Keys;
  }

  /** The merge loop of the analyzers, updating the histogram message by message and bucket by
      bucket. */
  method MergeHistogram(histogram: Chart, chart: Chart) returns (r: Chart)
    ensures r == MergeCharts(histogram, chart)
  {
    r := histogram;
    var todo := chart.Keys;
    while todo != {}
      invariant todo <= chart.Keys
      invariant r.Keys == histogram.Keys + (chart.Keys - todo)
      invariant forall m :: m in r ==>
                  r[m] == if m in chart && m !in todo then
                            (if m in histogram then MergeRow(histogram[m], chart[m]) else chart[m])
                          else histogram[m]
      decreases todo
    {
      var key :| key in todo;
      if key in r {
        var row := MergeRowInto(r[key], chart[key]);
        r := r[key := row];
      } else {
        r := r[key := chart[key]];
      }
      todo := todo - {key};
    }
  }

  /** The inner loop: one file's row added bucket by bucket. */
  method MergeRowInto(row: Row, add: Row) returns (r: Row)
    ensures r == MergeRow(row, add)
  {
    r := row;
    var todo := add.Keys;
    while todo != {}
      invariant todo <= add.Keys
      invariant r.Keys == row.Keys + (add.Keys - todo)
      invariant forall k :: k in r ==> r[k] == Get(row, k) + (if k in add && k !in todo then add[k] else 0)
      decreases todo
    {
      var k :| k in todo;
      if k in r {
        r := r[k := r[k] + add[k]];
      } else {
        r := r[k := add[k]];
      }
      todo := todo - {k};
    }
  }

  /** One more hit, as the loops record it. */
  lemma Snoc(hits: seq<Hit>, h: Hit)
    ensures Tabulate(hits + [h]) == Record(Tabulate(hits), h)
    ensures Plot(hits + [h]) == Plot(hits)[h.message := Bump(RowOf(Plot(hits), h.message), Bucket(h.time))]
    ensures Names(hits + [h]) == Names(hits) + [h.message]
  {
    assert (hits + [h])[..|hits|] == hits;
  }

  // ---------------------------------------------------------------------------------------------
  // Classifying a line against a rule table

  /** Whether a rule's pattern is found in the line. */
  function Matching(line: string, matches: Matcher, ignoreCase: bool): Rule -> bool
  {
    (r: Rule) => matches(r.pattern, line, ignoreCase)
  }

  /** Every rule is tried in table order and nothing stops at the first match. */
  function AllHits(line: string, time: string, rules: seq<Rule>, matches: Matcher, ignoreCase: bool)
    : seq<Hit>
  {
    if |rules| == 0 then []
    else
      var r := rules[|rules| - 1];
      AllHits(line, time, rules[..|rules| - 1], matches, ignoreCase)
      + (if matches(r.pattern, line, ignoreCase) then [Hit(r.name, time)] else [])
  }

  /** A line gets one hit per matching rule, in table order, all stamped with the line's time: a
      line matching k rules counts k times. */
  lemma {:induction false} AllHitsMatched(line: string, time: string, rules: seq<Rule>, matches: Matcher,
                                          ignoreCase: bool)
    ensures var hs := AllHits(line, time, rules, matches, ignoreCase);
            var matched := Filter(rules, Matching(line, matches, ignoreCase));
            |hs| == |matched| && forall k :: 0 <= k < |hs| ==> hs[k] == Hit(matched[k].name, time)
  {
    if |rules| > 0 {
      AllHitsMatched(line, time, rules[..|rules| - 1], matches, ignoreCase);
    }
  }

  lemma {:induction false} AllHitsTimes(line: string, time: string, rules: seq<Rule>, matches: Matcher,
                                        ignoreCase: bool)
    ensures forall k :: 0 <= k < |AllHits(line, time, rules, matches, ignoreCase)| ==>
              AllHits(line, time, rules, matches, ignoreCase)[k].time == time
  {
    if |rules| > 0 {
      var front := AllHits(line, time, rules[..|rules| - 1], matches, ignoreCase);
      AllHitsTimes(line, time, rules[..|rules| - 1], matches, ignoreCase);
      var r := rules[|rules| - 1];
      var tail := if matches(r.pattern, line, ignoreCase) then [Hit(r.name, time)] else [];
      var hs := AllHits(line, time, rules, matches, ignoreCase);
      assert hs == front + tail;
      forall k | 0 <= k < |hs|
        ensures hs[k].time == time
      {
        if k < |front| {
          assert hs[k] == front[k];
        } else {
          assert hs[k] == tail[k - |front|];
        }
      }
    }
  }

  /** Rules tried one more: what the rule loops do. */
  lemma AllHitsSnoc(line: string, time: string, rules: seq<Rule>, matches: Matcher, ignoreCase: bool, j: nat)
    requires j < |rules|
    ensures AllHits(line, time, rules[..j + 1], matches, ignoreCase)
            == AllHits(line, time, rules[..j], matches, ignoreCase)
               + (if matches(rules[j].pattern, line, ignoreCase) then [Hit(rules[j].name, time)] else [])
  {
    assert rules[..j + 1][..j] == rules[..j];
  }

  /** The message of every hit, in order: what the analyzers append to their error lists. */
  function Names(hits: seq<Hit>): seq<string>
  {
    if |hits| == 0 then [] else Names(hits[..|hits| - 1]) + [hits[|hits| - 1].message]
  }
}
