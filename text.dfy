/**
  The string primitives the report parser relies on, with Python's meaning:
  `str.isspace`, `str.strip()` (no argument) and `str.replace(old, new)` for a
  non-empty `old`. Strings are sequences of code points; the number of
  occurrences of one character `c` in `s` (Python's `s.count(c)`) is
  `multiset(s)[c]`.
*/
module Text {

  /** Python's `str.isspace` for one code point: the ASCII controls tab to
      carriage return, the information separators 0x1C-0x1F, the space, and the
      Unicode space and line/paragraph separators. */
  predicate IsSpace(c: char) {
    || c == ' '
    || '\t' <= c <= '\r'
    || '\U{1C}' <= c <= '\U{1F}'
    || c == '\U{85}' || c == '\U{A0}' || c == '\U{1680}'
    || '\U{2000}' <= c <= '\U{200A}'
    || c == '\U{2028}' || c == '\U{2029}' || c == '\U{202F}' || c == '\U{205F}'
    || c == '\U{3000}'
  }

  predicate AllSpace(s: string) {
    forall k :: 0 <= k < |s| ==> IsSpace(s[k])
  }

  /** The number of whitespace characters that open `s`. */
  function LeadingSpaces(s: string): (n: nat)
    ensures n <= |s|
  {
    if |s| > 0 && IsSpace(s[0]) then 1 + LeadingSpaces(s[1..]) else 0
  }

  /** The number of whitespace characters that close `s`. */
  function TrailingSpaces(s: string): (n: nat)
    ensures n <= |s|
  {
    if |s| > 0 && IsSpace(s[|s| - 1]) then 1 + TrailingSpaces(s[..|s| - 1]) else 0
  }

  /** The leading run is whitespace and the character after it is not. */
  lemma {:induction false} LeadingRun(s: string)
    ensures AllSpace(s[..LeadingSpaces(s)])
    ensures LeadingSpaces(s) < |s| ==> !IsSpace(s[LeadingSpaces(s)])
    decreases |s|
  {
    if |s| > 0 && IsSpace(s[0]) {
      LeadingRun(s[1..]);
      var n := LeadingSpaces(s);
      assert s[..n] == [s[0]] + s[1..][..n - 1];
      assert n < |s| ==> s[n] == s[1..][n - 1];
    }
  }

  /** The trailing run is whitespace and the character before it is not. */
  lemma {:induction false} TrailingRun(s: string)
    ensures AllSpace(s[|s| - TrailingSpaces(s)..])
    ensures TrailingSpaces(s) < |s| ==> !IsSpace(s[|s| - 1 - TrailingSpaces(s)])
    decreases |s|
  {
    if |s| > 0 && IsSpace(s[|s| - 1]) {
      var init := s[..|s| - 1];
      TrailingRun(init);
      var n := TrailingSpaces(s);
      assert s[|s| - n..] == init[|s| - n..] + [s[|s| - 1]];
      assert n < |s| ==> s[|s| - 1 - n] == init[|init| - 1 - (n - 1)];
    }
  }

  /** Python's `s.strip()`: `s` without its leading and trailing whitespace. */
  function Strip(s: string): string {
    var rest := s[LeadingSpaces(s)..];
    rest[..|rest| - TrailingSpaces(rest)]
  }

  /** `strip` keeps one contiguous piece of `s`; what it removes on either
      side is whitespace, and what it keeps neither starts nor ends with
      whitespace. */
  lemma {:induction false} StripEnds(s: string)
    ensures var i, t := LeadingSpaces(s), Strip(s);
      i + |t| <= |s| && t == s[i..i + |t|] && AllSpace(s[..i]) && AllSpace(s[i + |t|..])
    ensures var t := Strip(s); t != [] ==> !IsSpace(t[0]) && !IsSpace(t[|t| - 1])
  {
    var i := LeadingSpaces(s);
    var rest := s[i..];
    var j := TrailingSpaces(rest);
    var t := Strip(s);
    LeadingRun(s);
    TrailingRun(rest);
    assert t == rest[..|rest| - j];
    assert s[i + |t|..] == rest[|rest| - j..];
    if t != [] {
      assert t[0] == s[i];
      assert t[|t| - 1] == rest[|rest| - 1 - j];
    }
  }

  /** A stripped string is blank exactly when the whole input was whitespace. */
  lemma {:induction false} StripEmptyIff(s: string)
    ensures Strip(s) == [] <==> AllSpace(s)
  {
    if Strip(s) == [] {
      BlankStripAllSpace(s);
    } else {
      KeptNotAllSpace(s);
    }
  }

  lemma {:induction false} BlankStripAllSpace(s: string)
    requires Strip(s) == []
    ensures AllSpace(s)
  {
    var i := LeadingSpaces(s);
    StripEnds(s);
    assert AllSpace(s[i..]);
    AllSpaceConcat(s[..i], s[i..]);
    assert s == s[..i] + s[i..];
  }

  lemma {:induction false} KeptNotAllSpace(s: string)
    requires Strip(s) != []
    ensures !AllSpace(s)
  {
    var i := LeadingSpaces(s);
    StripEnds(s);
    assert s[i] == Strip(s)[0];
  }

  lemma {:induction false} AllSpaceConcat(a: string, b: string)
    requires AllSpace(a) && AllSpace(b)
    ensures AllSpace(a + b)
  {
    forall k | 0 <= k < |a + b| ensures IsSpace((a + b)[k]) {
      if k < |a| { assert (a + b)[k] == a[k]; } else { assert (a + b)[k] == b[k - |a|]; }
    }
  }

  /** A string that neither starts nor ends with whitespace is its own strip. */
  lemma {:induction false} StripNoOp(s: string)
    requires s != [] ==> !IsSpace(s[0]) && !IsSpace(s[|s| - 1])
    ensures Strip(s) == s
  {
    if s != [] {
      assert LeadingSpaces(s) == 0;
      assert TrailingSpaces(s) == 0;
    }
  }

  /** `strip` is idempotent. */
  lemma {:induction false} StripIdempotent(s: string)
    ensures Strip(Strip(s)) == Strip(s)
  {
    StripEnds(s);
    StripNoOp(Strip(s));
  }

  /** Trailing whitespace does not survive a strip. */
  lemma {:induction false} StripTrailingSpace(s: string, c: char)
    requires IsSpace(c)
    requires s != [] ==> !IsSpace(s[0]) && !IsSpace(s[|s| - 1])
    ensures Strip(s + [c]) == s
  {
    var u := s + [c];
    if s != [] {
      assert LeadingSpaces(u) == 0;
      assert u[..|u| - 1] == s;
      assert TrailingSpaces(u) == 1;
    } else {
      assert LeadingSpaces(u) == 1;
    }
  }

  /** Python's `s.replace(pat, repl)` for a non-empty `pat`: the occurrences of
      `pat` are found from the left, never overlapping, and each is replaced
      by `repl`. */
  function Replace(s: string, pat: string, repl: string): string
    requires pat != []
    decreases |s|
  {
    if |s| < |pat| then s
    else if s[..|pat|] == pat then repl + Replace(s[|pat|..], pat, repl)
    else [s[0]] + Replace(s[1..], pat, repl)
  }

  /** Replacing cannot bring in a character that is neither in the string nor
      in the replacement. */
  lemma {:induction false} ReplaceKeepsOut(s: string, pat: string, repl: string, c: char)
    requires pat != []
    requires c !in s && c !in repl
    ensures c !in Replace(s, pat, repl)
    decreases |s|
  {
    if |s| < |pat| {
    } else if s[..|pat|] == pat {
      assert c !in s[|pat|..] by { assert forall k :: 0 <= k < |s| - |pat| ==> s[|pat|..][k] == s[|pat| + k]; }
      ReplaceKeepsOut(s[|pat|..], pat, repl, c);
    } else {
      assert c !in s[1..] by { assert forall k :: 0 <= k < |s| - 1 ==> s[1..][k] == s[1 + k]; }
      ReplaceKeepsOut(s[1..], pat, repl, c);
    }
  }

  /** Replacing a single character by a string that does not contain it leaves
      none of it behind. */
  lemma {:induction false} ReplaceCharGone(s: string, x: char, repl: string)
    requires x !in repl
    ensures x !in Replace(s, [x], repl)
    decreases |s|
  {
    if s != [] {
      assert s[..1] == [s[0]];
      ReplaceCharGone(s[1..], x, repl);
    }
  }

  /** A string that does not contain the first character of `pat` is left alone,
      even when something follows it: no occurrence can start inside it. */
  lemma {:induction false} ReplaceSkipsPrefix(a: string, b: string, pat: string, repl: string)
    requires pat != []
    requires pat[0] !in a
    ensures Replace(a + b, pat, repl) == a + Replace(b, pat, repl)
    decreases |a|
  {
    var s := a + b;
    if a == [] {
      assert s == b;
    } else if |s| < |pat| {
      assert |b| < |pat|;
    } else {
      assert s[..|pat|][0] == a[0];
      assert s[1..] == a[1..] + b;
      assert pat[0] !in a[1..] by { assert forall k :: 0 <= k < |a| - 1 ==> a[1..][k] == a[k + 1]; }
      ReplaceSkipsPrefix(a[1..], b, pat, repl);
      assert [s[0]] + (a[1..] + Replace(b, pat, repl)) == a + Replace(b, pat, repl);
    }
  }

  /** Replacing one character acts on each character separately, so it
      distributes over concatenation. */
  lemma {:induction false} ReplaceCharConcat(a: string, b: string, x: char, repl: string)
    ensures Replace(a + b, [x], repl) == Replace(a, [x], repl) + Replace(b, [x], repl)
    decreases |a|
  {
    if a == [] {
      assert a + b == b;
    } else {
      var s := a + b;
      assert s[..1] == [a[0]] && a[..1] == [a[0]];
      assert s[1..] == a[1..] + b;
      ReplaceCharConcat(a[1..], b, x, repl);
    }
  }

  /** Removing occurrences of `pat` leaves the count of every character that
      `pat` does not contain unchanged. */
  lemma {:induction false} RemoveKeepsCount(s: string, pat: string, c: char)
    requires pat != [] && c !in pat
    ensures multiset(Replace(s, pat, []))[c] == multiset(s)[c]
    decreases |s|
  {
    if |s| < |pat| {
    } else if s[..|pat|] == pat {
      RemoveKeepsCount(s[|pat|..], pat, c);
      assert s == pat + s[|pat|..];
      assert multiset(s) == multiset(pat) + multiset(s[|pat|..]);
    } else {
      RemoveKeepsCount(s[1..], pat, c);
      assert s == [s[0]] + s[1..];
    }
  }

  /** Replacing the character `x` by the distinct character `y` moves every
      occurrence of `x` into the count of `y`. */
  lemma {:induction false} ReplaceCharCount(s: string, x: char, y: char)
    requires x != y
    ensures multiset(Replace(s, [x], [y]))[y] == multiset(s)[y] + multiset(s)[x]
    ensures multiset(Replace(s, [x], [y]))[x] == 0
    decreases |s|
  {
    if s != [] {
      ReplaceCharCount(s[1..], x, y);
      assert s == [s[0]] + s[1..];
      assert s[..1] == [s[0]];
    }
  }
}
