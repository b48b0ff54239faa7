/** How the first two analyzer revisions order the table of one file: `sorted(results.items(), key=…)`
    on the per-message statistics, by count (largest first), by last occurrence or by first
    occurrence. */
module Ranking {
  import opened Base
  import opened Text
  import opened Seqs
  import opened Occurrences

  /** What `--sort-by` selects. */
  datatype SortKey = ByCount | ByLast | ByFirst

  /** `args.sort_by`: "NO" sorts by count, "LO" by last occurrence, and anything else (the option
      left out included) by first occurrence. */
  function SortKeyOf(arg: Option<string>): (k: SortKey)
    ensures k == ByCount <==> arg == Some("NO")
    ensures k == ByLast <==> arg == Some("LO")
  {
    if arg == Some("NO") then ByCount else if arg == Some("LO") then ByLast else ByFirst
  }

  /** One entry of `results.items()`: a message and its statistics. */
  type Item = (string, Occurrence)

  /** The items of a table in the order of its keys, as a dictionary lists them. */
  function Items(t: Table, keys: seq<string>): (items: seq<Item>)
    requires forall k :: k in keys ==> k in t
    ensures |items| == |keys|
    ensures forall i :: 0 <= i < |items| ==> items[i].0 == keys[i] && items[i].1 == t[keys[i]]
  {
    if |keys| == 0 then [] else Items(t, keys[..|keys| - 1]) + [(keys[|keys| - 1], t[keys[|keys| - 1]])]
  }

  /** The sort key compared with `<` (with `>` for the count, which is sorted in reverse). */
  function Precedes(key: SortKey): (Item, Item) -> bool
  {
    match key
    case ByCount => (a: Item, b: Item) => a.1.count > b.1.count
    case ByLast => (a: Item, b: Item) => LexLess(a.1.last, b.1.last)
    case ByFirst => (a: Item, b: Item) => LexLess(a.1.first, b.1.first)
  }

  lemma PrecedesIsStrict(key: SortKey)
    ensures StrictOrder(Precedes(key))
  {
    var less := Precedes(key);
    forall a: Item
      ensures !less(a, a)
    {
      LexIrreflexive(a.1.last);
      LexIrreflexive(a.1.first);
    }
    forall a: Item, b: Item, c: Item | less(a, b) && less(b, c)
      ensures less(a, c)
    {
      match key
      case ByCount =>
      case ByLast => LexTransitive(a.1.last, b.1.last, c.1.last);
      case ByFirst => LexTransitive(a.1.first, b.1.first, c.1.first);
    }
  }

  /** The sorted items: the same items, with counts never increasing, or last (first) occurrence
      strings never decreasing, down the table. */
  function Rank(items: seq<Item>, key: SortKey): (r: seq<Item>)
    ensures multiset(r) == multiset(items)
    ensures key == ByCount ==> forall i, j :: 0 <= i < j < |r| ==> r[i].1.count >= r[j].1.count
    ensures key == ByLast ==> forall i, j :: 0 <= i < j < |r| ==> !LexLess(r[j].1.last, r[i].1.last)
    ensures key == ByFirst ==> forall i, j :: 0 <= i < j < |r| ==> !LexLess(r[j].1.first, r[i].1.first)
  {
    PrecedesIsStrict(key);
    var r := SortBy(items, Precedes(key));
    assert forall i, j :: 0 <= i < j < |r| ==> !Precedes(key)(r[j], r[i]);
    r
  }

  /** The sorted items of a table hold each of its keyed entries once. */
  lemma RankHoldsEntries(t: Table, keys: seq<string>, key: SortKey, m: string)
    requires forall k :: k in keys ==> k in t
    ensures m in keys ==> (m, t[m]) in Rank(Items(t, keys), key)
    ensures forall x :: x in Rank(Items(t, keys), key) ==> x.0 in keys && x.1 == t[x.0]
  {
    var items := Items(t, keys);
    var r := Rank(items, key);
    if m in keys {
      var i :| 0 <= i < |keys| && keys[i] == m;
      assert items[i] == (m, t[m]);
      assert (m, t[m]) in multiset(items);
    }
    forall x | x in r
      ensures x.0 in keys && x.1 == t[x.0]
    {
      assert x in multiset(r);
      assert x in multiset(items);
      var i :| 0 <= i < |items| && items[i] == x;
    }
  }
}
