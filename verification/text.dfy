/**
 The three string operations the scripts apply to their comma-separated
 configuration: Python's `str.split(sep)` for a one-character separator,
 `str.strip()` without arguments, and `sep.join(list)`.
 */
module Text {
  import opened Sequences

  /** The characters for which Python's `str.isspace` holds: the set `str.strip()` removes. */
  const Whitespace: set<char> := {
    '\t', '\n', '\U{B}', '\U{C}', '\r', '\U{1C}', '\U{1D}', '\U{1E}', '\U{1F}', ' ',
    '\U{85}', '\U{A0}', '\U{1680}',
    '\U{2000}', '\U{2001}', '\U{2002}', '\U{2003}', '\U{2004}', '\U{2005}',
    '\U{2006}', '\U{2007}', '\U{2008}', '\U{2009}', '\U{200A}',
    '\U{2028}', '\U{2029}', '\U{202F}', '\U{205F}', '\U{3000}'
  }

  predicate IsSpace(c: char) {
    c in Whitespace
  }

  /** Every character is whitespace (the empty string included). */
  predicate AllSpace(s: string) {
    forall i :: 0 <= i < |s| ==> IsSpace(s[i])
  }

  /** No leading and no trailing whitespace. */
  predicate IsStripped(s: string) {
    s == [] || (!IsSpace(s[0]) && !IsSpace(s[|s| - 1]))
  }

  /** The number of whitespace characters `s` starts with. */
  function LeadingSpace(s: string): (n: nat)
    ensures n <= |s|
  {
    if s != [] && IsSpace(s[0]) then 1 + LeadingSpace(s[1..]) else 0
  }

  /** The number of whitespace characters `s` ends with. */
  function TrailingSpace(s: string): (n: nat)
    ensures n <= |s|
  {
    if s != [] && IsSpace(s[|s| - 1]) then 1 + TrailingSpace(s[..|s| - 1]) else 0
  }

  /**
   Python's `s.strip()`: the part between the leading and the trailing
   whitespace, or nothing when the whole string is whitespace.
   */
  function Strip(s: string): (r: string)
    ensures IsStripped(r)
    ensures |r| <= |s|
    ensures r == [] <==> AllSpace(s)
  {
    StripFacts(s);
    var n := LeadingSpace(s);
    if n == |s| then [] else s[n..|s| - TrailingSpace(s)]
  }

  /** The leading whitespace counted is whitespace, and the character after it is not. */
  lemma {:induction false} LeadingSpaceFacts(s: string)
    ensures AllSpace(s[..LeadingSpace(s)])
    ensures LeadingSpace(s) < |s| ==> !IsSpace(s[LeadingSpace(s)])
    decreases |s|
  {
    if s != [] && IsSpace(s[0]) {
      LeadingSpaceFacts(s[1..]);
      var n := LeadingSpace(s);
      assert forall i :: 1 <= i < n ==> s[..n][i] == s[1..][..n - 1][i - 1];
    }
  }

  /** The trailing whitespace counted is whitespace, and the character before it is not. */
  lemma {:induction false} TrailingSpaceFacts(s: string)
    ensures AllSpace(s[|s| - TrailingSpace(s)..])
    ensures TrailingSpace(s) < |s| ==> !IsSpace(s[|s| - 1 - TrailingSpace(s)])
    decreases |s|
  {
    if s != [] && IsSpace(s[|s| - 1]) {
      var u := s[..|s| - 1];
      TrailingSpaceFacts(u);
      var n := TrailingSpace(s);
      assert forall i :: |s| - n <= i < |s| - 1 ==> s[i] == u[i];
      var w := s[|s| - n..];
      assert forall i :: 0 <= i < |w| ==> w[i] == s[|s| - n + i];
    }
  }

  /** Trailing whitespace never reaches past a non-whitespace character. */
  lemma {:induction false} TrailingSpaceStops(s: string, i: nat)
    requires i < |s| && !IsSpace(s[i])
    ensures TrailingSpace(s) <= |s| - 1 - i
    decreases |s|
  {
    if i < |s| - 1 && IsSpace(s[|s| - 1]) {
      TrailingSpaceStops(s[..|s| - 1], i);
    }
  }

  /**
   The facts behind the contract of `Strip`: the leading whitespace covers the
   whole string exactly when it is all whitespace, and otherwise the leading and
   trailing whitespace do not meet and both stop at a non-whitespace character.
   */
  lemma StripFacts(s: string)
    ensures LeadingSpace(s) == |s| <==> AllSpace(s)
    ensures LeadingSpace(s) < |s| ==>
              && LeadingSpace(s) < |s| - TrailingSpace(s)
              && !IsSpace(s[LeadingSpace(s)])
              && !IsSpace(s[|s| - 1 - TrailingSpace(s)])
  {
    var n := LeadingSpace(s);
    LeadingSpaceFacts(s);
    if n < |s| {
      TrailingSpaceStops(s, n);
      TrailingSpaceFacts(s);
    } else {
      assert s[..n] == s;
    }
  }

  /** `strip` keeps a slice of its input: it starts where the leading whitespace ends. */
  lemma StripIsSlice(s: string)
    ensures LeadingSpace(s) + |Strip(s)| <= |s|
    ensures Strip(s) == s[LeadingSpace(s)..LeadingSpace(s) + |Strip(s)|]
  {
    StripFacts(s);
  }

  /** What `strip` removes is whitespace only, before and after the slice it keeps. */
  lemma StripRemovesSpace(s: string)
    ensures LeadingSpace(s) + |Strip(s)| <= |s|
    ensures AllSpace(s[..LeadingSpace(s)])
    ensures AllSpace(s[LeadingSpace(s) + |Strip(s)|..])
  {
    LeadingSpaceFacts(s);
    TrailingSpaceFacts(s);
  }

  /** Stripping never introduces a character: one absent from the input is absent from the result. */
  lemma StripKeepsCharacters(s: string, c: char)
    requires c !in s
    ensures c !in Strip(s)
  {
    StripIsSlice(s);
    var i := LeadingSpace(s);
    var r := Strip(s);
    assert forall j :: 0 <= j < |r| ==> r[j] == s[i + j];
  }

  /** Python's `sep.join(xs)`: "" for the empty list. */
  function Join(xs: seq<string>, sep: string): string
  {
    if xs == [] then []
    else if |xs| == 1 then xs[0]
    else xs[0] + sep + Join(xs[1..], sep)
  }

  /** Python's `s.split(c)` for a one-character separator: never empty, `"".split(c) == [""]`. */
  function Split(s: string, c: char): (r: seq<string>)
    ensures 1 <= |r| <= |s| + 1
    decreases |s|
  {
    if s == [] then [[]]
    else
      var rest := Split(s[1..], c);
      if s[0] == c then [[]] + rest
      else [[s[0]] + rest[0]] + rest[1..]
  }

  /** No piece of a split contains the separator. */
  lemma {:induction false} SplitPiecesFree(s: string, c: char)
    ensures forall k :: 0 <= k < |Split(s, c)| ==> c !in Split(s, c)[k]
    decreases |s|
  {
    if s != [] {
      SplitPiecesFree(s[1..], c);
      var rest := Split(s[1..], c);
      if s[0] != c {
        assert c !in [s[0]] + rest[0];
      }
    }
  }

  /** Independent reference: every occurrence of `c` in `s` replaced by `sep`. */
  function Replace(s: string, c: char, sep: string): string
  {
    if s == [] then []
    else (if s[0] == c then sep else [s[0]]) + Replace(s[1..], c, sep)
  }

  /** Replacing a character by itself changes nothing. */
  lemma {:induction false} ReplaceSelf(s: string, c: char)
    ensures Replace(s, c, [c]) == s
  {
    if s != [] {
      ReplaceSelf(s[1..], c);
      if s[0] == c {
        assert [c] + s[1..] == s;
      } else {
        assert [s[0]] + s[1..] == s;
      }
    }
  }

  /** Prepending to the first element prepends to the whole join. */
  lemma JoinPrependHead(h: string, xs: seq<string>, sep: string)
    requires |xs| >= 1
    ensures Join([h + xs[0]] + xs[1..], sep) == h + Join(xs, sep)
  {
    var ys := [h + xs[0]] + xs[1..];
    assert ys[1..] == xs[1..];
    if |xs| > 1 {
      assert Join(ys, sep) == (h + xs[0]) + sep + Join(xs[1..], sep);
    }
  }

  /** Joining the pieces of a split with `sep` is the same as replacing each separator by `sep`. */
  lemma {:induction false} JoinSplitIsReplace(s: string, c: char, sep: string)
    ensures Join(Split(s, c), sep) == Replace(s, c, sep)
    decreases |s|
  {
    if s != [] {
      var rest := Split(s[1..], c);
      JoinSplitIsReplace(s[1..], c, sep);
      if s[0] == c {
        assert ([[]] + rest)[1..] == rest;
        assert Join([[]] + rest, sep) == [] + sep + Join(rest, sep);
      } else {
        JoinPrependHead([s[0]], rest, sep);
      }
    }
  }

  /** Round trip: joining the split pieces with the separator gives back the input. */
  lemma JoinSplit(s: string, c: char)
    ensures Join(Split(s, c), [c]) == s
  {
    JoinSplitIsReplace(s, c, [c]);
    ReplaceSelf(s, c);
  }

  /** A string without the separator splits into itself alone. */
  lemma {:induction false} SplitNoSeparator(a: string, c: char)
    requires c !in a
    ensures Split(a, c) == [a]
    decreases |a|
  {
    if a != [] {
      assert a == [a[0]] + a[1..];
      SplitNoSeparator(a[1..], c);
      assert [a[0]] + a[1..] == a;
    }
  }

  /** Splitting at the first separator peels off the piece before it. */
  lemma {:induction false} SplitAtFirst(a: string, c: char, t: string)
    requires c !in a
    ensures Split(a + [c] + t, c) == [a] + Split(t, c)
    decreases |a|
  {
    var s := a + [c] + t;
    if a == [] {
      assert s[0] == c && s[1..] == t;
    } else {
      assert s[0] == a[0] && a[0] != c;
      assert s[1..] == a[1..] + [c] + t;
      assert a == [a[0]] + a[1..];
      SplitAtFirst(a[1..], c, t);
      assert [a[0]] + a[1..] == a;
    }
  }

  /** Round trip: splitting a join of separator-free pieces gives back the pieces. */
  lemma {:induction false} SplitJoin(xs: seq<string>, c: char)
    requires |xs| >= 1
    requires forall k :: 0 <= k < |xs| ==> c !in xs[k]
    ensures Split(Join(xs, [c]), c) == xs
    decreases |xs|
  {
    if |xs| == 1 {
      SplitNoSeparator(xs[0], c);
    } else {
      SplitJoin(xs[1..], c);
      SplitAtFirst(xs[0], c, Join(xs[1..], [c]));
      assert [xs[0]] + xs[1..] == xs;
    }
  }

  /** Leading whitespace adds up across a whitespace prefix. */
  lemma {:induction false} LeadingSpaceAfterSpace(a: string, u: string)
    requires AllSpace(a)
    ensures LeadingSpace(a + u) == |a| + LeadingSpace(u)
    decreases |a|
  {
    if a != [] {
      assert (a + u)[0] == a[0];
      assert (a + u)[1..] == a[1..] + u;
      LeadingSpaceAfterSpace(a[1..], u);
    } else {
      assert a + u == u;
    }
  }

  /** Trailing whitespace adds up across a whitespace suffix. */
  lemma {:induction false} TrailingSpaceBeforeSpace(u: string, b: string)
    requires AllSpace(b)
    ensures TrailingSpace(u + b) == TrailingSpace(u) + |b|
    decreases |b|
  {
    if b != [] {
      assert (u + b)[|u + b| - 1] == b[|b| - 1];
      assert (u + b)[..|u + b| - 1] == u + b[..|b| - 1];
      TrailingSpaceBeforeSpace(u, b[..|b| - 1]);
    } else {
      assert u + b == u;
    }
  }

  /** A string of whitespace only is all leading whitespace. */
  lemma {:induction false} LeadingSpaceOfSpace(b: string)
    requires AllSpace(b)
    ensures LeadingSpace(b) == |b|
  {
    LeadingSpaceAfterSpace(b, []);
    assert b + [] == b;
  }

  /** Stripping whitespace around a stripped core gives the core: this pins `strip` down completely. */
  lemma StripUnique(a: string, m: string, b: string)
    requires AllSpace(a) && AllSpace(b) && IsStripped(m)
    ensures Strip(a + m + b) == m
  {
    var s := a + m + b;
    assert s == a + (m + b);
    LeadingSpaceAfterSpace(a, m + b);
    if m == [] {
      assert m + b == b;
      LeadingSpaceOfSpace(b);
    } else {
      assert (m + b)[0] == m[0];
      assert LeadingSpace(m + b) == 0;
      TrailingSpaceBeforeSpace(a + m, b);
      assert (a + m)[|a + m| - 1] == m[|m| - 1];
      assert TrailingSpace(a + m) == 0;
      assert s[|a|..|a| + |m|] == m;
    }
  }

  /** `strip` is idempotent. */
  lemma StripIdempotent(s: string)
    ensures Strip(Strip(s)) == Strip(s)
  {
    StripUnique([], Strip(s), []);
    assert [] + Strip(s) + [] == Strip(s);
  }
}
