/** List comprehensions and `sorted` as the scripts use them. */
module Seqs {

  /** Concatenation regrouped, proved away from any other facts. */
  lemma AppendAssoc<T>(a: seq<T>, b: seq<T>, c: seq<T>)
    ensures a + b + c == a + (b + c)
  {
  }

  /** `[f(x) for x in s]`. */
  function Map<A, B>(s: seq<A>, f: A -> B): (r: seq<B>)
    ensures |r| == |s|
    ensures forall k :: 0 <= k < |s| ==> r[k] == f(s[k])
  {
    if |s| == 0 then [] else Map(s[..|s| - 1], f) + [f(s[|s| - 1])]
  }

  /** Mapping one more element of a prefix. */
  lemma MapSnoc<A, B>(s: seq<A>, i: nat, f: A -> B)
    requires i < |s|
    ensures Map(s[..i + 1], f) == Map(s[..i], f) + [f(s[i])]
  {
    assert s[..i + 1][..i] == s[..i];
  }

  /** `[x for x in s if p(x)]`: the elements satisfying `p`, in their order in `s`. */
  function Filter<T>(s: seq<T>, p: T -> bool): (r: seq<T>)
    ensures |r| <= |s|
    ensures forall k :: 0 <= k < |r| ==> p(r[k])
  {
    if |s| == 0 then [] else Filter(s[..|s| - 1], p) + (if p(s[|s| - 1]) then [s[|s| - 1]] else [])
  }

  /** Filtering one more element of a prefix. */
  lemma FilterSnoc<T>(s: seq<T>, i: nat, p: T -> bool)
    requires i < |s|
    ensures Filter(s[..i + 1], p) == Filter(s[..i], p) + (if p(s[i]) then [s[i]] else [])
  {
    assert s[..i + 1][..i] == s[..i];
  }

  /** `[x for x in s if not p(x)]`. */
  function Reject<T>(s: seq<T>, p: T -> bool): (r: seq<T>)
    ensures |r| <= |s|
    ensures forall k :: 0 <= k < |r| ==> !p(r[k])
  {
    if |s| == 0 then [] else Reject(s[..|s| - 1], p) + (if p(s[|s| - 1]) then [] else [s[|s| - 1]])
  }

  /** Filtering and rejecting by one predicate split a list: every element lands in exactly one of
      the two, as often as it occurs. */
  lemma {:induction false} FilterRejectPartition<T>(s: seq<T>, p: T -> bool)
    ensures multiset(Filter(s, p)) + multiset(Reject(s, p)) == multiset(s)
  {
    if |s| > 0 {
      var init, x := s[..|s| - 1], s[|s| - 1];
      FilterRejectPartition(init, p);
      assert s == init + [x];
    }
  }

  lemma {:induction false} FilterHas<T>(s: seq<T>, p: T -> bool, x: T)
    ensures x in Filter(s, p) <==> x in s && p(x)
  {
    if |s| > 0 {
      FilterHas(s[..|s| - 1], p, x);
      assert s == s[..|s| - 1] + [s[|s| - 1]];
    }
  }

  lemma {:induction false} RejectHas<T>(s: seq<T>, p: T -> bool, x: T)
    ensures x in Reject(s, p) <==> x in s && !p(x)
  {
    if |s| > 0 {
      RejectHas(s[..|s| - 1], p, x);
      assert s == s[..|s| - 1] + [s[|s| - 1]];
    }
  }

  /** A filter that keeps every element keeps the list as it is. */
  lemma {:induction false} FilterKeepsAll<T>(s: seq<T>, p: T -> bool)
    requires forall k :: 0 <= k < |s| ==> p(s[k])
    ensures Filter(s, p) == s
  {
    if |s| > 0 {
      FilterKeepsAll(s[..|s| - 1], p);
      assert s == s[..|s| - 1] + [s[|s| - 1]];
    }
  }

  /** Filtering distributes over concatenation. */
  lemma {:induction false} FilterAppend<T>(a: seq<T>, b: seq<T>, p: T -> bool)
    ensures Filter(a + b, p) == Filter(a, p) + Filter(b, p)
    decreases |b|
  {
    if |b| > 0 {
      assert (a + b)[..|a + b| - 1] == a + b[..|b| - 1];
      FilterAppend(a, b[..|b| - 1], p);
    } else {
      assert a + b == a;
    }
  }

  /** `less` is irreflexive and transitive, as Python's `<` is on the keys the scripts sort by. */
  ghost predicate StrictOrder<T(!new)>(less: (T, T) -> bool)
  {
    (forall a :: !less(a, a)) && (forall a, b, c :: less(a, b) && less(b, c) ==> less(a, c))
  }

  /** No element is strictly less than one before it. */
  predicate SortedBy<T>(s: seq<T>, less: (T, T) -> bool)
  {
    forall i, j :: 0 <= i < j < |s| ==> !less(s[j], s[i])
  }

  /** Places `x` after every element it is not less than, as a stable sort places a later element. */
  function Insert<T(!new)>(x: T, s: seq<T>, less: (T, T) -> bool): (r: seq<T>)
    requires StrictOrder(less) && SortedBy(s, less)
    ensures SortedBy(r, less)
    ensures multiset(r) == multiset(s) + multiset{x}
  {
    if |s| == 0 then [x]
    else if less(x, s[0]) then
      InsertFront(x, s, less);
      [x] + s
    else
      var rest := Insert(x, s[1..], less);
      InsertBehind(x, s, less, rest);
      [s[0]] + rest
  }

  lemma InsertFront<T(!new)>(x: T, s: seq<T>, less: (T, T) -> bool)
    requires StrictOrder(less) && SortedBy(s, less) && |s| > 0 && less(x, s[0])
    ensures SortedBy([x] + s, less)
  {
    forall j | 0 <= j < |s|
      ensures !less(s[j], x)
    {
      var a, b := s[j], s[0];
      assert !less(a, b);
    }
  }

  lemma InsertBehind<T(!new)>(x: T, s: seq<T>, less: (T, T) -> bool, rest: seq<T>)
    requires StrictOrder(less) && SortedBy(s, less) && |s| > 0 && !less(x, s[0])
    requires SortedBy(rest, less) && multiset(rest) == multiset(s[1..]) + multiset{x}
    ensures SortedBy([s[0]] + rest, less)
    ensures multiset([s[0]] + rest) == multiset(s) + multiset{x}
  {
    forall k | 0 <= k < |rest|
      ensures !less(rest[k], s[0])
    {
      assert rest[k] in multiset(rest);
      if rest[k] != x {
        assert rest[k] in multiset(s[1..]);
        var j :| 0 <= j < |s[1..]| && s[1..][j] == rest[k];
        assert s[j + 1] == rest[k];
      }
    }
    assert s == [s[0]] + s[1..];
  }

  /** `sorted(s, key=…)`: a sorted permutation of `s`. */
  function SortBy<T(!new)>(s: seq<T>, less: (T, T) -> bool): (r: seq<T>)
    requires StrictOrder(less)
    ensures SortedBy(r, less)
    ensures multiset(r) == multiset(s)
  {
    if |s| == 0 then []
    else
      assert s == s[..|s| - 1] + [s[|s| - 1]];
      Insert(s[|s| - 1], SortBy(s[..|s| - 1], less), less)
  }
}
