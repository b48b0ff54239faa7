/** Python string operations used by the log triage scripts, on strings as sequences of characters. */
module Text {

  /** The characters Python's `str.isspace()` accepts: the separators of `str.split()` and the
      characters `str.strip()` removes when called without an argument. */
  predicate IsSpace(c: char)
  {
    c == ' ' || ('\t' <= c <= '\r') || ('\U{1C}' <= c <= '\U{1F}') || c == '\U{85}' || c == '\U{A0}'
    || c == '\U{1680}' || ('\U{2000}' <= c <= '\U{200A}') || c == '\U{2028}' || c == '\U{2029}'
    || c == '\U{202F}' || c == '\U{205F}' || c == '\U{3000}'
  }

  predicate IsNonSpace(c: char)
  {
    !IsSpace(c)
  }

  /** An ASCII decimal digit. */
  predicate IsDigit(c: char)
  {
    '0' <= c <= '9'
  }

  predicate AllDigits(s: string)
  {
    forall k :: 0 <= k < |s| ==> IsDigit(s[k])
  }

  predicate EndsWith(s: string, suffix: string)
  {
    |suffix| <= |s| && s[|s| - |suffix|..] == suffix
  }

  /** Python's `sub in s`. */
  predicate Contains(s: string, sub: string)
    decreases |s|
  {
    sub <= s || (|s| > 0 && Contains(s[1..], sub))
  }

  lemma {:induction false} ContainsAt(s: string, sub: string, i: nat)
    requires i <= |s| && sub <= s[i..]
    ensures Contains(s, sub)
    decreases i
  {
    if i > 0 {
      assert s[1..][i - 1..] == s[i..];
      ContainsAt(s[1..], sub, i - 1);
    }
  }

  lemma {:induction false} ContainsWitness(s: string, sub: string)
    requires Contains(s, sub)
    ensures exists i :: 0 <= i <= |s| && sub <= s[i..]
    decreases |s|
  {
    if !(sub <= s) {
      ContainsWitness(s[1..], sub);
      var i :| 0 <= i <= |s[1..]| && sub <= s[1..][i..];
      assert s[1..][i..] == s[i + 1..];
    } else {
      assert s[0..] == s;
    }
  }

  /** Python's `s[:n]` for n >= 0. */
  function Take(s: string, n: nat): (r: string)
    ensures r <= s && |r| == if n <= |s| then n else |s|
  {
    if n <= |s| then s[..n] else s
  }

  /** Python's `s[n:]` for n >= 0. */
  function Drop(s: string, n: nat): (r: string)
    ensures |r| == if n <= |s| then |s| - n else 0
    ensures n <= |s| ==> s == s[..n] + r
  {
    if n <= |s| then s[n..] else ""
  }

  function CountChar(s: string, c: char): nat
  {
    if |s| == 0 then 0 else (if s[0] == c then 1 else 0) + CountChar(s[1..], c)
  }

  /** Python's `s.split(sep)` for a one-character separator: the pieces between separators, empty
      pieces included. */
  function Split(s: string, sep: char): (parts: seq<string>)
    ensures |parts| == CountChar(s, sep) + 1
    ensures forall k :: 0 <= k < |parts| ==> sep !in parts[k]
    decreases |s|
  {
    if |s| == 0 then [""]
    else
      var rest := Split(s[1..], sep);
      if s[0] == sep then [""] + rest else [[s[0]] + rest[0]] + rest[1..]
  }

  /** Every character of a piece comes from the split string. */
  lemma {:induction false} SplitPieceChars(s: string, sep: char)
    ensures forall k, j :: 0 <= k < |Split(s, sep)| && 0 <= j < |Split(s, sep)[k]| ==> Split(s, sep)[k][j] in s
    decreases |s|
  {
    if |s| > 0 {
      SplitPieceChars(s[1..], sep);
      forall c | c in s[1..]
        ensures c in s
      {
      }
    }
  }

  /** Python's `sep.join(parts)`. */
  function Join(parts: seq<string>, sep: char): string
    requires |parts| > 0
  {
    if |parts| == 1 then parts[0] else parts[0] + [sep] + Join(parts[1..], sep)
  }

  /** Splitting and joining again gives back the original string. */
  lemma {:induction false} JoinSplit(s: string, sep: char)
    ensures Join(Split(s, sep), sep) == s
    decreases |s|
  {
    if |s| > 0 {
      var rest := Split(s[1..], sep);
      JoinSplit(s[1..], sep);
      if s[0] == sep {
        assert ([""] + rest)[1..] == rest;
      } else if |rest| > 1 {
        var parts := [[s[0]] + rest[0]] + rest[1..];
        assert parts[1..] == rest[1..];
        assert Join(rest, sep) == rest[0] + [sep] + Join(rest[1..], sep);
        assert Join(parts, sep) == [s[0]] + (rest[0] + [sep] + Join(rest[1..], sep));
      }
    }
  }

  /** A string without the separator is a single piece. */
  lemma {:induction false} SplitNoSep(a: string, sep: char)
    requires sep !in a
    ensures Split(a, sep) == [a]
    decreases |a|
  {
    if |a| > 0 {
      assert sep !in a[1..];
      SplitNoSep(a[1..], sep);
      assert a[0] != sep;
      assert [a[0]] + a[1..] == a;
    }
  }

  /** The first piece is the text before the first separator. */
  lemma {:induction false} SplitFirst(a: string, sep: char, b: string)
    requires sep !in a
    ensures Split(a + [sep] + b, sep) == [a] + Split(b, sep)
    decreases |a|
  {
    var s := a + [sep] + b;
    if |a| == 0 {
      assert s[1..] == b;
    } else {
      assert s[1..] == a[1..] + [sep] + b;
      assert sep !in a[1..];
      SplitFirst(a[1..], sep, b);
      assert [a[0]] + a[1..] == a;
    }
  }

  /** Text without the separator at the front of a string stays at the front of its first piece. */
  lemma {:induction false} SplitHeadConcat(a: string, b: string, sep: char)
    requires sep !in a
    ensures Split(a + b, sep)[0] == a + Split(b, sep)[0]
    decreases |a|
  {
    if |a| > 0 {
      assert (a + b)[1..] == a[1..] + b;
      assert sep !in a[1..];
      SplitHeadConcat(a[1..], b, sep);
    } else {
      assert a + b == b;
    }
  }

  /** The number of leading characters of `s` that satisfy `p`. */
  function Span(s: string, p: char -> bool): (n: nat)
    ensures n <= |s|
    ensures forall k :: 0 <= k < n ==> p(s[k])
    ensures n < |s| ==> !p(s[n])
  {
    if |s| == 0 || !p(s[0]) then 0 else 1 + Span(s[1..], p)
  }

  /** The number of trailing characters of `s` that satisfy `p`. */
  function SpanEnd(s: string, p: char -> bool): (n: nat)
    ensures n <= |s|
    ensures forall k :: |s| - n <= k < |s| ==> p(s[k])
    ensures n < |s| ==> !p(s[|s| - n - 1])
  {
    if |s| == 0 || !p(s[|s| - 1]) then 0 else 1 + SpanEnd(s[..|s| - 1], p)
  }

  /** Python's `s.strip(chars)`, with the stripped characters given as a predicate: the longest
      middle part of `s` that neither starts nor ends with a stripped character. */
  function StripBy(s: string, p: char -> bool): (r: string)
    ensures |r| <= |s|
    ensures r == [] ==> forall k :: 0 <= k < |s| ==> p(s[k])
    ensures r != [] ==> !p(r[0]) && !p(r[|r| - 1])
    ensures Span(s, p) + |r| <= |s| && r <= s[Span(s, p)..]
    ensures forall k :: Span(s, p) + |r| <= k < |s| ==> p(s[k])
  {
    var i := Span(s, p);
    var t := s[i..];
    t[..|t| - SpanEnd(t, p)]
  }

  /** Python's `s.strip()`. */
  function Strip(s: string): string
  {
    StripBy(s, IsSpace)
  }

  /** A string with no whitespace is its own `strip()`. */
  lemma StripNoSpace(s: string)
    requires forall k :: 0 <= k < |s| ==> !IsSpace(s[k])
    ensures Strip(s) == s
  {
    assert Span(s, IsSpace) == 0;
    assert s[0..] == s;
    assert SpanEnd(s, IsSpace) == 0;
  }

  /** `[item.strip() for item in s.split(sep)]`. */
  function StripItems(s: string, sep: char): (items: seq<string>)
    ensures |items| == |Split(s, sep)|
    ensures forall k :: 0 <= k < |items| ==> items[k] == Strip(Split(s, sep)[k])
  {
    var parts := Split(s, sep);
    seq(|parts|, k requires 0 <= k < |parts| => Strip(parts[k]))
  }

  /** Stripping pieces that hold no whitespace changes none of them. */
  lemma StripPlainItems(s: string, sep: char)
    requires forall k, j :: 0 <= k < |Split(s, sep)| && 0 <= j < |Split(s, sep)[k]| ==> !IsSpace(Split(s, sep)[k][j])
    ensures StripItems(s, sep) == Split(s, sep)
  {
    var parts := Split(s, sep);
    forall k | 0 <= k < |parts| ensures StripItems(s, sep)[k] == parts[k] {
      StripNoSpace(parts[k]);
    }
  }

  /** Stripping the pieces of a string without whitespace changes none of them. */
  lemma StripItemsNoSpace(s: string, sep: char)
    requires forall k :: 0 <= k < |s| ==> !IsSpace(s[k])
    ensures StripItems(s, sep) == Split(s, sep)
  {
    var parts := Split(s, sep);
    SplitPieceChars(s, sep);
    forall k | 0 <= k < |parts|
      ensures Strip(parts[k]) == parts[k]
    {
      forall j | 0 <= j < |parts[k]|
        ensures !IsSpace(parts[k][j])
      {
        assert parts[k][j] in s;
      }
      StripNoSpace(parts[k]);
    }
  }

  /** Python's `s.split()`: the maximal runs of non-whitespace characters. */
  function Words(s: string): (ws: seq<string>)
    ensures forall k :: 0 <= k < |ws| ==> |ws[k]| > 0
    decreases |s|
  {
    var i := Span(s, IsSpace);
    if i == |s| then []
    else
      var j := i + Span(s[i..], IsNonSpace);
      [s[i..j]] + Words(s[j..])
  }

  /** Python's `a < b` on strings: lexicographic order of code points, a proper prefix first. */
  predicate LexLess(a: string, b: string)
    decreases |a|
  {
    |b| > 0 && (|a| == 0 || a[0] < b[0] || (a[0] == b[0] && LexLess(a[1..], b[1..])))
  }

  /** Python's `min(a, b)` as the merge loops write it: `b` replaces `a` only when strictly smaller. */
  function LexMin(a: string, b: string): string
  {
    if LexLess(b, a) then b else a
  }

  function LexMax(a: string, b: string): string
  {
    if LexLess(a, b) then b else a
  }

  lemma {:induction false} LexIrreflexive(a: string)
    ensures !LexLess(a, a)
    decreases |a|
  {
    if |a| > 0 {
      LexIrreflexive(a[1..]);
    }
  }

  lemma {:induction false} LexTransitive(a: string, b: string, c: string)
    requires LexLess(a, b) && LexLess(b, c)
    ensures LexLess(a, c)
    decreases |a|
  {
    if |a| > 0 && a[0] == b[0] && b[0] == c[0] {
      LexTransitive(a[1..], b[1..], c[1..]);
    }
  }

  lemma {:induction false} LexTrichotomy(a: string, b: string)
    ensures LexLess(a, b) || a == b || LexLess(b, a)
    decreases |a|
  {
    if |a| > 0 && |b| > 0 && a[0] == b[0] {
      LexTrichotomy(a[1..], b[1..]);
      if a[1..] == b[1..] {
        assert a == [a[0]] + a[1..] && b == [b[0]] + b[1..];
      }
    }
  }

  lemma LexAsymmetric(a: string, b: string)
    requires LexLess(a, b)
    ensures !LexLess(b, a)
  {
    if LexLess(b, a) {
      LexTransitive(a, b, a);
      LexIrreflexive(a);
    }
  }

  /** Comparing two concatenations whose first parts have the same length compares the first parts,
      and the second parts only when the first parts are equal. */
  lemma {:induction false} LexConcat(x1: string, y1: string, x2: string, y2: string)
    requires |x1| == |x2|
    ensures LexLess(x1 + y1, x2 + y2) <==> LexLess(x1, x2) || (x1 == x2 && LexLess(y1, y2))
    decreases |x1|
  {
    if |x1| > 0 {
      assert (x1 + y1)[1..] == x1[1..] + y1;
      assert (x2 + y2)[1..] == x2[1..] + y2;
      LexConcat(x1[1..], y1, x2[1..], y2);
      if x1[0] == x2[0] && x1[1..] == x2[1..] {
        assert x1 == [x1[0]] + x1[1..] && x2 == [x2[0]] + x2[1..];
      }
    } else {
      assert x1 + y1 == y1 && x2 + y2 == y2;
    }
  }

  /** `LexMin` is below both arguments. */
  lemma LexMinBelow(a: string, b: string)
    ensures !LexLess(a, LexMin(a, b)) && !LexLess(b, LexMin(a, b))
  {
    LexIrreflexive(a);
    LexIrreflexive(b);
    if LexLess(b, a) {
      LexAsymmetric(b, a);
    }
  }

  /** `LexMax` is above both arguments. */
  lemma LexMaxAbove(a: string, b: string)
    ensures !LexLess(LexMax(a, b), a) && !LexLess(LexMax(a, b), b)
  {
    LexIrreflexive(a);
    LexIrreflexive(b);
    if LexLess(a, b) {
      LexAsymmetric(a, b);
    }
  }

  // ---------------------------------------------------------------------------------------------
  // POSIX paths

  /** `s.rfind(c)`: the index of the last `c` in `s`, or -1 when there is none. */
  function RFind(s: string, c: char): (i: int)
    ensures -1 <= i < |s|
    ensures i >= 0 ==> s[i] == c
    ensures forall k :: i < k < |s| ==> s[k] != c
  {
    if |s| == 0 then -1 else if s[|s| - 1] == c then |s| - 1 else RFind(s[..|s| - 1], c)
  }

  /** `os.path.basename(p)`: the text after the last '/'. */
  function Basename(p: string): (b: string)
    ensures '/' !in b
    ensures |b| <= |p| && p == p[..|p| - |b|] + b
    ensures |b| < |p| ==> p[|p| - |b| - 1] == '/'
  {
    p[RFind(p, '/') + 1..]
  }

  predicate IsSlash(c: char)
  {
    c == '/'
  }

  predicate AllSlashes(s: string)
  {
    forall k :: 0 <= k < |s| ==> s[k] == '/'
  }

  /** `os.path.dirname(p)`: everything up to the last '/', with trailing slashes removed unless
      nothing but slashes is left. */
  function Dirname(p: string): (d: string)
    ensures d <= p
  {
    var head := p[..RFind(p, '/') + 1];
    if |head| > 0 && !AllSlashes(head) then head[..|head| - SpanEnd(head, IsSlash)] else head
  }

  /** A path of slashes only is its own directory: `dirname('/') == '/'`. */
  lemma DirnameOfSlashes(p: string)
    requires AllSlashes(p)
    ensures Dirname(p) == p
  {
    if |p| > 0 {
      assert RFind(p, '/') == |p| - 1;
    }
  }

  /** Any other non-empty path has a strictly shorter directory. */
  lemma DirnameShrinks(p: string)
    requires p != "" && !AllSlashes(p)
    ensures |Dirname(p)| < |p|
  {
    var i := RFind(p, '/');
    var head := p[..i + 1];
    if |head| == |p| {
      assert !AllSlashes(head);
      assert SpanEnd(head, IsSlash) > 0;
    }
  }

  /** An absolute path keeps a non-empty absolute directory. */
  lemma DirnameAbsolute(p: string)
    requires p != "" && p[0] == '/'
    ensures Dirname(p) != "" && Dirname(p)[0] == '/'
  {
    var i := RFind(p, '/');
    var head := p[..i + 1];
    assert i >= 0;
    if |head| > 0 && !AllSlashes(head) {
      var n := SpanEnd(head, IsSlash);
      assert n < |head|;
    }
  }
}
