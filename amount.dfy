/**
  The amount line of a transaction block: the fixed chain of
  replacements that turns a German-formatted amount ("1.234,56 EUR") into a
  decimal literal with a point ("1234.56"), and Python's `float()` on
  that literal. The value of `float()` is modelled as an exact `real`.
*/
module Amount {
  import opened Wrappers
  import opened Text

  const Euro: char := '\U{20AC}'

  /** The replacements applied to the amount line, in their order: drop every
      thousands dot, turn the decimal comma into a point, drop " EUR" and drop
      the euro sign. */
  function Normalize(line: string): string {
    Replace(Replace(Replace(Replace(line, ".", ""), ",", "."), " EUR", ""), [Euro], "")
  }

  /** After normalisation no comma and no euro sign is left. */
  lemma {:induction false} NormalizeDropsCommaAndEuro(line: string)
    ensures ',' !in Normalize(line) && Euro !in Normalize(line)
  {
    var s2 := Replace(Replace(line, ".", ""), ",", ".");
    var s3 := Replace(s2, " EUR", "");
    ReplaceCharGone(Replace(line, ".", ""), ',', ".");
    ReplaceKeepsOut(s2, " EUR", "", ',');
    ReplaceKeepsOut(s3, [Euro], "", ',');
    ReplaceCharGone(s3, Euro, "");
  }

  /** Every decimal comma of the amount line, and nothing else, becomes a
      point: the dots of the input are all gone. */
  lemma {:induction false} NormalizeDotCount(line: string)
    ensures multiset(Normalize(line))['.'] == multiset(line)[',']
  {
    var s1 := Replace(line, ".", "");
    var s2 := Replace(s1, ",", ".");
    var s3 := Replace(s2, " EUR", "");
    ReplaceCharGone(line, '.', "");
    RemoveKeepsCount(line, ".", ',');
    ReplaceCharCount(s1, ',', '.');
    RemoveKeepsCount(s2, " EUR", '.');
    RemoveKeepsCount(s3, [Euro], '.');
  }

  // ---------------------------------------------------------------------------
  // Python's float() on a string

  predicate IsDigit(c: char) {
    '0' <= c <= '9'
  }

  predicate AllDigits(s: string) {
    forall k :: 0 <= k < |s| ==> IsDigit(s[k])
  }

  /** The length of the longest run of ASCII digits that opens `s`. */
  function DigitRun(s: string): (n: nat)
    ensures n <= |s|
  {
    if s != [] && IsDigit(s[0]) then 1 + DigitRun(s[1..]) else 0
  }

  /** The opening run is digits and the character after it is not. */
  lemma {:induction false} DigitRunFacts(s: string)
    ensures AllDigits(s[..DigitRun(s)])
    ensures DigitRun(s) < |s| ==> !IsDigit(s[DigitRun(s)])
    decreases |s|
  {
    if s != [] && IsDigit(s[0]) {
      DigitRunFacts(s[1..]);
      var n := DigitRun(s);
      assert s[..n] == [s[0]] + s[1..][..n - 1];
      assert n < |s| ==> s[n] == s[1..][n - 1];
    }
  }

  /** The number a string of decimal digits denotes. */
  function DigitsValue(s: string): nat
    requires AllDigits(s)
  {
    if s == [] then 0
    else DigitsValue(s[..|s| - 1]) * 10 + (s[|s| - 1] as int - '0' as int)
  }

  function Pow10(n: nat): (p: nat)
    ensures p >= 1
  {
    if n == 0 then 1 else 10 * Pow10(n - 1)
  }

  /** `mantissa * 10^exponent`, exactly. */
  function Scale(mantissa: int, exponent: int): real {
    if exponent >= 0 then (mantissa * Pow10(exponent)) as real
    else mantissa as real / Pow10(-exponent) as real
  }

  /** The whitespace `float()` ignores around a literal: what `str.isspace`
      accepts except the information separators U+001C to U+001F. CPython
      turns only non-ASCII whitespace into spaces and then trims ASCII
      whitespace, so those four pass through and make the literal invalid. */
  predicate IsFloatSpace(c: char) {
    IsSpace(c) && !('\U{1C}' <= c <= '\U{1F}')
  }

  function LeadingFloatSpaces(s: string): (n: nat)
    ensures n <= |s|
  {
    if |s| > 0 && IsFloatSpace(s[0]) then 1 + LeadingFloatSpaces(s[1..]) else 0
  }

  function TrailingFloatSpaces(s: string): (n: nat)
    ensures n <= |s|
  {
    if |s| > 0 && IsFloatSpace(s[|s| - 1]) then 1 + TrailingFloatSpaces(s[..|s| - 1]) else 0
  }

  /** `s` without the leading and trailing whitespace that `float()` ignores. */
  function TrimFloat(s: string): string {
    var rest := s[LeadingFloatSpaces(s)..];
    rest[..|rest| - TrailingFloatSpaces(rest)]
  }

  /** Python's `float(s)` on a finite decimal literal: surrounding whitespace
      in the sense of `IsFloatSpace` is ignored, then an optional sign, digits
      with an optional decimal point (at least one digit on either side), and
      an optional exponent. Anything else raises `ValueError`, here `None`. */
  function ToFloat(s: string): Option<real> {
    Signed(TrimFloat(s))
  }

  /** A decimal literal with an optional leading sign. */
  function Signed(t: string): Option<real> {
    if t != [] && t[0] == '-' then Negate(Unsigned(t[1..]))
    else if t != [] && t[0] == '+' then Unsigned(t[1..])
    else Unsigned(t)
  }

  function Negate(v: Option<real>): Option<real> {
    match v
    case None => None
    case Some(x) => Some(-x)
  }

  /** An unsigned decimal literal with optional fraction and exponent. */
  function Unsigned(t: string): Option<real> {
    var n := DigitRun(t);
    DigitRunFacts(t);
    if n < |t| && t[n] == '.' then
      var after := t[n + 1..];
      var m := DigitRun(after);
      DigitRunFacts(after);
      AllDigitsConcat(t[..n], after[..m]);
      if n + m == 0 then None
      else WithExponent(DigitsValue(t[..n] + after[..m]), m, after[m..])
    else if n == 0 then None
    else WithExponent(DigitsValue(t[..n]), 0, t[n..])
  }

  /** The value of a literal whose digits, read without the point, are
      `mantissa`, with `fractionDigits` of them after the point; `tail` is what
      follows the digits and must be empty or an exponent. */
  function WithExponent(mantissa: nat, fractionDigits: nat, tail: string): Option<real> {
    if tail == [] then Some(Scale(mantissa, -(fractionDigits as int)))
    else if tail[0] == 'e' || tail[0] == 'E' then
      var x := tail[1..];
      var signed := x != [] && (x[0] == '+' || x[0] == '-');
      var digits := if signed then x[1..] else x;
      if digits != [] && DigitRun(digits) == |digits| then
        DigitRunFacts(digits);
        assert digits[..|digits|] == digits;
        var e := DigitsValue(digits);
        Some(Scale(mantissa, (if signed && x[0] == '-' then -(e as int) else e) - fractionDigits))
      else None
    else None
  }

  /** The amount of a transaction block: `float()` of the normalised line. */
  function ParseAmount(line: string): Option<real> {
    ToFloat(Normalize(line))
  }

  /** What the parser gets from an amount line: the number, or the
      `ValueError` of `float()`, which carries the string it was handed. */
  datatype Conversion = Converted(value: real) | Rejected(arg: string)

  function ConvertAmount(line: string): Conversion {
    match ParseAmount(line)
    case Some(v) => Converted(v)
    case None => Rejected(Normalize(line))
  }

  // ---------------------------------------------------------------------------
  // German-formatted amounts, the format the normalisation is written for

  function DigitChar(d: nat): char
    requires d < 10
  {
    ('0' as int + d) as char
  }

  /** The decimal digits of `n`, without leading zeros. */
  function Digits(n: nat): (s: string)
    ensures s != [] && AllDigits(s) && '.' !in s
    ensures DigitsValue(s) == n
  {
    if n < 10 then [DigitChar(n)]
    else
      var s := Digits(n / 10) + [DigitChar(n % 10)];
      assert s[..|s| - 1] == Digits(n / 10);
      s
  }

  /** Three digits with leading zeros, for one thousands group. */
  function Group3(n: nat): (s: string)
    requires n < 1000
  {
    [DigitChar(n / 100), DigitChar(n / 10 % 10), DigitChar(n % 10)]
  }

  /** `n` written with a dot between thousands groups, as in "1.234.567". */
  function Grouped(n: nat): string
    decreases n
  {
    if n < 1000 then Digits(n) else Grouped(n / 1000) + "." + Group3(n % 1000)
  }

  /** An amount of `cents` as a German bank report writes it: optional minus,
      grouped euros, a decimal comma, two cent digits, then `suffix`. */
  function GermanAmount(cents: int, suffix: string): string {
    var c: nat := if cents < 0 then -cents else cents;
    (if cents < 0 then "-" else "") + Grouped(c / 100) + ","
      + [DigitChar(c % 100 / 10), DigitChar(c % 10)] + suffix
  }

  /** The suffixes a report may put after an amount. */
  predicate IsCurrencySuffix(suffix: string) {
    suffix == "" || suffix == " EUR" || suffix == [Euro] || suffix == [' ', Euro]
  }

  lemma {:induction false} AllDigitsConcat(a: string, b: string)
    requires AllDigits(a) && AllDigits(b)
    ensures AllDigits(a + b)
  {
    var s := a + b;
    forall k | 0 <= k < |s| ensures IsDigit(s[k]) {
      if k < |a| { assert s[k] == a[k]; } else { assert s[k] == b[k - |a|]; }
    }
  }

  lemma {:induction false} DigitsValueConcat(a: string, b: string)
    requires AllDigits(a) && AllDigits(b)
    ensures AllDigits(a + b)
    ensures DigitsValue(a + b) == DigitsValue(a) * Pow10(|b|) + DigitsValue(b)
    decreases |b|
  {
    AllDigitsConcat(a, b);
    if b == [] {
      assert a + b == a;
    } else {
      var b' := b[..|b| - 1];
      var s := a + b;
      assert s[..|s| - 1] == a + b';
      assert s[|s| - 1] == b[|b| - 1];
      DigitsValueConcat(a, b');
      var d := b[|b| - 1] as int - '0' as int;
      var x, y, p := DigitsValue(a), DigitsValue(b'), Pow10(|b'|);
      assert DigitsValue(b) == y * 10 + d;
      assert DigitsValue(s) == (x * p + y) * 10 + d;
      assert Pow10(|b|) == p * 10;
      MulAssoc(x, p);
    }
  }

  lemma {:induction false} MulAssoc(x: int, p: int)
    ensures x * (p * 10) == (x * p) * 10
  {
  }

  lemma {:induction false} Group3Value(m: nat)
    requires m < 1000
    ensures AllDigits(Group3(m)) && '.' !in Group3(m)
    ensures DigitsValue(Group3(m)) == m
  {
    var g := Group3(m);
    var a, b, c := m / 100, m / 10 % 10, m % 10;
    assert g[..|g| - 1] == g[..2] && g[..2][..|g[..2]| - 1] == g[..1];
    assert g[..1][..0] == [];
    assert DigitsValue(g[..1]) == a;
    assert DigitsValue(g[..2]) == a * 10 + b;
    assert DigitsValue(g) == (a * 10 + b) * 10 + c;
    ThreeDigits(m);
  }

  lemma {:induction false} ThreeDigits(m: nat)
    ensures m == (m / 100 * 10 + m / 10 % 10) * 10 + m % 10
  {
    assert m == m / 10 * 10 + m % 10;
    assert m / 10 == m / 10 / 10 * 10 + m / 10 % 10;
    assert m / 10 / 10 == m / 100;
  }

  /** A string without dots loses nothing when the dots are removed. */
  lemma {:induction false} RemoveNoDots(s: string)
    requires '.' !in s
    ensures Replace(s, ".", "") == s
  {
    ReplaceSkipsPrefix(s, [], ".", "");
    assert s + [] == s;
  }

  /** Dropping the thousands dots of a grouped number leaves its digits. */
  lemma {:induction false} UngroupedDigits(n: nat)
    ensures var u := Replace(Grouped(n), ".", "");
      u != [] && AllDigits(u) && DigitsValue(u) == n && u[0] != '-'
    decreases n
  {
    if n < 1000 {
      RemoveNoDots(Digits(n));
    } else {
      var g := Group3(n % 1000);
      Group3Value(n % 1000);
      UngroupedDigits(n / 1000);
      var head := Replace(Grouped(n / 1000), ".", "");
      assert Grouped(n) == Grouped(n / 1000) + "." + g;
      UngroupStep(Grouped(n / 1000), g);
      DigitsValueConcat(head, g);
      assert Pow10(3) == 1000 && |g| == 3;
      assert DigitsValue(head + g) == n / 1000 * 1000 + n % 1000;
      assert (head + g)[0] == head[0];
    }
  }

  lemma {:induction false} UngroupStep(a: string, g: string)
    requires '.' !in g
    ensures Replace(a + "." + g, ".", "") == Replace(a, ".", "") + g
  {
    ReplaceCharConcat(".", g, '.', "");
    DotRemoved();
    RemoveNoDots(g);
    assert Replace("." + g, ".", "") == g;
    ReplaceCharConcat(a, "." + g, '.', "");
    assert a + "." + g == a + ("." + g);
  }

  lemma {:induction false} DotRemoved()
    ensures Replace(".", ".", "") == ""
  {
    assert "."[..1] == "." && "."[1..] == "";
  }

  /** Normalising a German-formatted amount gives the point-decimal literal
      of the same number, followed by a space when the suffix was " €". */
  lemma {:induction false} NormalizeGerman(cents: int, suffix: string)
    requires IsCurrencySuffix(suffix)
    ensures var c: nat := if cents < 0 then -cents else cents;
      var lit := (if cents < 0 then "-" else "") + Replace(Grouped(c / 100), ".", "") + "."
        + [DigitChar(c % 100 / 10), DigitChar(c % 10)];
      Normalize(GermanAmount(cents, suffix)) == lit + (if suffix == [' ', Euro] then " " else "")
  {
    var c: nat := if cents < 0 then -cents else cents;
    UngroupedDigits(c / 100);
    NormalizeParts(if cents < 0 then "-" else "", Grouped(c / 100),
      [DigitChar(c % 100 / 10), DigitChar(c % 10)], suffix);
  }

  lemma {:induction false} NormalizeParts(sign: string, g: string, cd: string, suffix: string)
    requires sign == "" || sign == "-"
    requires AllDigits(Replace(g, ".", "")) && AllDigits(cd)
    requires IsCurrencySuffix(suffix)
    ensures Normalize(sign + g + "," + cd + suffix)
      == sign + Replace(g, ".", "") + "." + cd + (if suffix == [' ', Euro] then " " else "")
  {
    var lit := sign + Replace(g, ".", "") + "." + cd;
    PlainChars(sign, Replace(g, ".", ""), cd);
    assert '.' !in suffix && ',' !in suffix;
    SeparatorsReplaced(sign, g, cd, suffix);
    CurrencyRemoved(lit, suffix);
  }

  /** Steps one and two: the thousands dots go and the comma becomes a point. */
  lemma {:induction false} SeparatorsReplaced(sign: string, g: string, cd: string, suffix: string)
    requires '.' !in sign && ',' !in sign + Replace(g, ".", "") && ',' !in cd
    requires '.' !in suffix && ',' !in suffix && '.' !in cd
    ensures Replace(Replace(sign + g + "," + cd + suffix, ".", ""), ",", ".")
      == sign + Replace(g, ".", "") + "." + cd + suffix
  {
    var tail := cd + suffix;
    assert ',' !in tail && '.' !in tail;
    assert sign + g + "," + cd + suffix == sign + g + ("," + tail);
    DotsAroundComma(sign, g, tail);
    assert sign + Replace(g, ".", "") + "." + tail == sign + Replace(g, ".", "") + "." + cd + suffix;
  }

  lemma {:induction false} DotsAroundComma(pre: string, g: string, tail: string)
    requires '.' !in pre && ',' !in pre + Replace(g, ".", "")
    requires '.' !in tail && ',' !in tail
    ensures Replace(Replace(pre + g + ("," + tail), ".", ""), ",", ".")
      == pre + Replace(g, ".", "") + "." + tail
  {
    var u := Replace(g, ".", "");
    var rest := "," + tail;
    assert '.' !in rest by { assert forall k :: 0 < k < |rest| ==> rest[k] == tail[k - 1]; }
    RemoveDotsInside(pre, g, rest);
    assert pre + u + rest == (pre + u) + "," + tail;
    ReplaceOnlyComma(pre + u, tail);
  }

  /** Steps three and four: the currency marker goes. */
  lemma {:induction false} CurrencyRemoved(lit: string, suffix: string)
    requires ' ' !in lit && Euro !in lit
    requires IsCurrencySuffix(suffix)
    ensures Replace(Replace(lit + suffix, " EUR", ""), [Euro], "")
      == lit + (if suffix == [' ', Euro] then " " else "")
  {
    ReplaceSkipsPrefix(lit, suffix, " EUR", "");
    ReplaceSkipsPrefix(lit, Replace(suffix, " EUR", ""), [Euro], "");
    SuffixRemoved(suffix);
  }

  /** A sign, digits, a point and digits: no character the later
      replacements look for. */
  lemma {:induction false} PlainChars(sign: string, u: string, cd: string)
    requires sign == "" || sign == "-"
    requires AllDigits(u) && AllDigits(cd)
    ensures ',' !in sign + u && ',' !in cd && '.' !in sign
    ensures var lit := sign + u + "." + cd; ' ' !in lit && Euro !in lit
  {
    var lit := sign + u + "." + cd;
    assert forall k :: 0 <= k < |u| ==> (sign + u)[|sign| + k] == u[k];
    assert forall k :: 0 <= k < |lit| ==> lit[k] == '-' || lit[k] == '.' || IsDigit(lit[k]) by {
      forall k | 0 <= k < |lit| ensures lit[k] == '-' || lit[k] == '.' || IsDigit(lit[k]) {
        if k < |sign| { assert lit[k] == sign[k]; }
        else if k < |sign| + |u| { assert lit[k] == u[k - |sign|]; }
        else if k > |sign| + |u| { assert lit[k] == cd[k - |sign| - |u| - 1]; }
      }
    }
  }

  lemma {:induction false} RemoveDotsInside(pre: string, mid: string, post: string)
    requires '.' !in pre && '.' !in post
    ensures Replace(pre + mid + post, ".", "") == pre + Replace(mid, ".", "") + post
  {
    ReplaceCharConcat(pre + mid, post, '.', "");
    ReplaceCharConcat(pre, mid, '.', "");
    RemoveNoDots(pre);
    RemoveNoDots(post);
  }

  lemma {:induction false} ReplaceOnlyComma(a: string, b: string)
    requires ',' !in a && ',' !in b
    ensures Replace(a + "," + b, ",", ".") == a + "." + b
  {
    ReplaceCharConcat(a + ",", b, ',', ".");
    ReplaceCharConcat(a, ",", ',', ".");
    ReplaceSkipsPrefix(a, [], ",", ".");
    ReplaceSkipsPrefix(b, [], ",", ".");
    assert a + [] == a && b + [] == b;
    assert Replace(",", ",", ".") == "." by {
      assert ","[..1] == "," && ","[1..] == "";
    }
  }

  /** What the last two replacements leave of each currency suffix. */
  lemma {:induction false} SuffixRemoved(suffix: string)
    requires IsCurrencySuffix(suffix)
    ensures Replace(Replace(suffix, " EUR", ""), [Euro], "")
      == if suffix == [' ', Euro] then " " else ""
  {
    if suffix == " EUR" {
      assert suffix[..4] == " EUR" && suffix[4..] == [];
    } else if suffix == [' ', Euro] {
      assert Replace(suffix, " EUR", "") == suffix;
      assert [Euro][..1] == [Euro] && [Euro][1..] == [];
      assert Replace([Euro], [Euro], "") == "";
      assert suffix[..1] == " " && suffix[1..] == [Euro];
      assert Replace(suffix, [Euro], "") == " " + Replace([Euro], [Euro], "");
    } else if suffix == [Euro] {
      assert suffix[..1] == [Euro] && suffix[1..] == [];
    }
  }

  /** The thousands dots, the decimal comma and every currency suffix a report
      uses are undone exactly: the amount read back is the amount written. */
  lemma {:induction false} ParseGermanAmount(cents: int, suffix: string)
    requires IsCurrencySuffix(suffix)
    ensures ParseAmount(GermanAmount(cents, suffix)) == Some(cents as real / 100.0)
  {
    ReadGerman(cents, suffix);
  }

  lemma {:induction false} ReadGerman(cents: int, suffix: string)
    requires IsCurrencySuffix(suffix)
    ensures ToFloat(Normalize(GermanAmount(cents, suffix))) == Some(cents as real / 100.0)
  {
    var c: nat := if cents < 0 then -cents else cents;
    var sign := if cents < 0 then "-" else "";
    var u := Replace(Grouped(c / 100), ".", "");
    var cd := [DigitChar(c % 100 / 10), DigitChar(c % 10)];
    NormalizeGerman(cents, suffix);
    UngroupedDigits(c / 100);
    CentDigits(c);
    SignedCents(cents);
    ReadCents(sign, u, cd, if suffix == [' ', Euro] then " " else "", c, cents as real / 100.0);
  }

  /** The two cent digits of an amount denote its cents. */
  lemma {:induction false} CentDigits(c: nat)
    ensures var cd := [DigitChar(c % 100 / 10), DigitChar(c % 10)];
      AllDigits(cd) && DigitsValue(cd) == c % 100
  {
    var cd := [DigitChar(c % 100 / 10), DigitChar(c % 10)];
    assert cd[..|cd| - 1] == [cd[0]];
    assert [cd[0]][..0] == [];
    assert DigitsValue([cd[0]]) == c % 100 / 10;
  }

  lemma {:induction false} SignedCents(cents: int)
    ensures var c: nat := if cents < 0 then -cents else cents;
      (if cents < 0 then -(c as real / 100.0) else c as real / 100.0) == cents as real / 100.0
  {
  }

  /** `float()` of a signed point-decimal literal with two cent digits,
      possibly followed by a space. */
  lemma {:induction false} ReadCents(sign: string, u: string, cd: string, tail: string, c: nat, value: real)
    requires sign == "" || sign == "-"
    requires u != [] && AllDigits(u) && DigitsValue(u) == c / 100
    requires |cd| == 2 && AllDigits(cd) && DigitsValue(cd) == c % 100
    requires tail == "" || tail == " "
    requires value == if sign == "-" then -(c as real / 100.0) else c as real / 100.0
    ensures ToFloat(sign + u + "." + cd + tail) == Some(value)
  {
    StripLiteral(sign, u, cd, tail);
    SignedCentsLiteral(sign, u, cd, c, value);
    FloatOfStripped(sign + u + "." + cd + tail, sign + u + "." + cd, value);
  }

  /** A signed point-decimal literal with two cent digits denotes its signed
      cents divided by 100. */
  lemma {:induction false} SignedCentsLiteral(sign: string, u: string, cd: string, c: nat, value: real)
    requires sign == "" || sign == "-"
    requires u != [] && AllDigits(u) && DigitsValue(u) == c / 100
    requires |cd| == 2 && AllDigits(cd) && DigitsValue(cd) == c % 100
    requires value == if sign == "-" then -(c as real / 100.0) else c as real / 100.0
    ensures Signed(sign + u + "." + cd) == Some(value)
  {
    var v := c as real / 100.0;
    CentsLiteral(u, cd, c);
    assert IsDigit(u[0]);
    SignedLiteral(sign, u, cd, v);
    assert value == if sign == "-" then -v else v;
  }

  lemma {:induction false} FloatOfStripped(s: string, t: string, v: real)
    requires TrimFloat(s) == t && Signed(t) == Some(v)
    ensures ToFloat(s) == Some(v)
  {
  }

  /** A minus in front of an unsigned literal negates its value; a literal
      that starts with a digit is read unsigned. */
  lemma {:induction false} SignedLiteral(sign: string, u: string, cd: string, v: real)
    requires sign == "" || sign == "-"
    requires u != [] && IsDigit(u[0]) && Unsigned(u + "." + cd) == Some(v)
    ensures Signed(sign + u + "." + cd) == Some(if sign == "-" then -v else v)
  {
    var body := u + "." + cd;
    assert sign + u + "." + cd == sign + body;
    if sign == "-" {
      MinusLiteral(body, v);
    } else {
      assert sign + body == body;
      assert body[0] == u[0];
      DigitLiteral(body, v);
    }
  }

  lemma {:induction false} MinusLiteral(body: string, v: real)
    requires Unsigned(body) == Some(v)
    ensures Signed("-" + body) == Some(-v)
  {
    assert ("-" + body)[1..] == body;
  }

  lemma {:induction false} DigitLiteral(body: string, v: real)
    requires body != [] && IsDigit(body[0]) && Unsigned(body) == Some(v)
    ensures Signed(body) == Some(v)
  {
  }

  /** Euros and two cent digits, with a point between them, read as hundredths. */
  lemma {:induction false} CentsLiteral(u: string, cd: string, c: nat)
    requires u != [] && AllDigits(u) && DigitsValue(u) == c / 100
    requires |cd| == 2 && AllDigits(cd) && DigitsValue(cd) == c % 100
    ensures Unsigned(u + "." + cd) == Some(c as real / 100.0)
  {
    FixedPointLiteral(u, cd);
    DigitsValueConcat(u, cd);
    HundredCents(c, DigitsValue(u + cd), Pow10(|cd|));
  }

  lemma {:induction false} HundredCents(c: nat, n: nat, p: nat)
    requires p == Pow10(2) && n == c / 100 * p + c % 100
    ensures n as real / p as real == c as real / 100.0
  {
    assert Pow10(2) == 100 by { assert Pow10(1) == 10; }
  }

  /** A signed literal with a trailing space or none is unchanged by the
      whitespace strip of `float()`, apart from losing the space. */
  lemma {:induction false} StripLiteral(sign: string, u: string, cd: string, tail: string)
    requires sign == "" || sign == "-"
    requires u != [] && AllDigits(u) && |cd| == 2 && AllDigits(cd)
    requires tail == "" || tail == " "
    ensures TrimFloat(sign + u + "." + cd + tail) == sign + u + "." + cd
  {
    var lit := sign + u + "." + cd;
    assert lit[|lit| - 1] == cd[1];
    assert lit[0] == if sign == "-" then '-' else u[0];
    TrimFloatLiteral(lit, tail);
  }

  /** A literal that neither starts nor ends with whitespace, followed by one
      space or nothing, trims to itself. */
  lemma {:induction false} TrimFloatLiteral(lit: string, tail: string)
    requires lit != [] && !IsFloatSpace(lit[0]) && !IsFloatSpace(lit[|lit| - 1])
    requires tail == "" || tail == " "
    ensures TrimFloat(lit + tail) == lit
  {
    var s := lit + tail;
    assert s[0] == lit[0];
    assert LeadingFloatSpaces(s) == 0;
    assert s[..|lit|] == lit;
    if tail == " " {
      assert s[..|s| - 1] == lit;
      assert TrailingFloatSpaces(s) == 1;
    } else {
      assert s == lit;
    }
  }

  /** On a string without the separators U+001C to U+001F, the trim of
      `float()` is `str.strip()`. */
  lemma {:induction false} TrimFloatIsStrip(s: string)
    requires forall k :: 0 <= k < |s| ==> !('\U{1C}' <= s[k] <= '\U{1F}')
    ensures TrimFloat(s) == Strip(s)
  {
    LeadingAgree(s);
    var rest := s[LeadingSpaces(s)..];
    assert forall k :: 0 <= k < |rest| ==> rest[k] == s[LeadingSpaces(s) + k];
    TrailingAgree(rest);
  }

  lemma {:induction false} LeadingAgree(s: string)
    requires forall k :: 0 <= k < |s| ==> !('\U{1C}' <= s[k] <= '\U{1F}')
    ensures LeadingFloatSpaces(s) == LeadingSpaces(s)
    decreases |s|
  {
    if |s| > 0 {
      assert IsFloatSpace(s[0]) == IsSpace(s[0]);
      assert forall k :: 0 <= k < |s| - 1 ==> s[1..][k] == s[k + 1];
      LeadingAgree(s[1..]);
    }
  }

  lemma {:induction false} TrailingAgree(s: string)
    requires forall k :: 0 <= k < |s| ==> !('\U{1C}' <= s[k] <= '\U{1F}')
    ensures TrailingFloatSpaces(s) == TrailingSpaces(s)
    decreases |s|
  {
    if |s| > 0 {
      assert IsFloatSpace(s[|s| - 1]) == IsSpace(s[|s| - 1]);
      assert forall k :: 0 <= k < |s| - 1 ==> s[..|s| - 1][k] == s[k];
      TrailingAgree(s[..|s| - 1]);
    }
  }

  /** A trailing information separator is whitespace to `str.strip()` but not
      to `float()`: the literal it ends is rejected. */
  lemma {:induction false} SeparatorRejected()
    ensures Strip("1.00" + ['\U{1F}']) == "1.00"
    ensures ToFloat("1.00" + ['\U{1F}']) == None
  {
    var s := "1.00" + ['\U{1F}'];
    StripTrailingSpace("1.00", '\U{1F}');
    assert LeadingFloatSpaces(s) == 0;
    assert TrailingFloatSpaces(s) == 0;
    assert TrimFloat(s) == s;
    assert s[..1] == "1";
    DigitRunOf(s, 1);
    var after := s[2..];
    assert after == "00" + ['\U{1F}'];
    assert after[..2] == "00";
    DigitRunOf(after, 2);
    assert after[2..] == ['\U{1F}'];
    assert Unsigned(s) == None;
  }

  /** `float()` reads digits, a point and digits as the number they denote
      divided by ten to the number of digits after the point. */
  lemma {:induction false} FixedPointLiteral(u: string, f: string)
    requires AllDigits(u) && AllDigits(f) && |u| + |f| > 0
    ensures AllDigits(u + f)
    ensures Unsigned(u + "." + f) == Some(DigitsValue(u + f) as real / Pow10(|f|) as real)
  {
    AllDigitsConcat(u, f);
    var body := u + "." + f;
    assert body[..|u|] == u;
    DigitRunOf(body, |u|);
    assert body[|u| + 1..] == f;
    assert f[..|f|] == f;
    DigitRunOf(f, |f|);
    assert f[|f|..] == [];
  }

  /** The digit run of `s` has length `n` when the first `n` characters are
      digits and the next one is not. */
  lemma {:induction false} DigitRunOf(s: string, n: nat)
    requires n <= |s| && AllDigits(s[..n])
    requires n < |s| ==> !IsDigit(s[n])
    ensures DigitRun(s) == n
    decreases n
  {
    if n > 0 {
      assert s[1..][..n - 1] == s[..n][1..];
      assert IsDigit(s[..n][0]);
      DigitRunOf(s[1..], n - 1);
    }
  }

  /** A worked value with a thousands dot and the " EUR" suffix. */
  lemma {:induction false} ThousandsExample()
    ensures Normalize("1.234,56 EUR") == "1234.56"
    ensures ParseAmount("1.234,56 EUR") == Some(1234.56)
  {
    ThousandsWritten();
    ThousandsNormalized();
    ParseGermanAmount(123456, " EUR");
  }

  lemma {:induction false} ThousandsWritten()
    ensures Grouped(1234) == "1.234"
    ensures GermanAmount(123456, " EUR") == "1.234,56 EUR"
  {
    assert Grouped(1) == "1";
    assert Group3(234) == "234";
  }

  lemma {:induction false} ThousandsNormalized()
    ensures Normalize(GermanAmount(123456, " EUR")) == "1234.56"
  {
    assert [DigitChar(123456 % 100 / 10), DigitChar(123456 % 10)] == "56";
    assert 123456 / 100 == 1234;
    ThousandsUngrouped();
    assert (if 123456 < 0 then "-" else "") + "1234" + "." + "56" + "" == "1234.56";
    NormalizeGerman(123456, " EUR");
  }

  lemma {:induction false} ThousandsUngrouped()
    ensures Replace(Grouped(1234), ".", "") == "1234"
  {
    ThousandsWritten();
    UngroupStep("1", "234");
    RemoveNoDots("1");
  }

  /** A worked negative value with the euro sign. */
  lemma {:induction false} NegativeExample()
    ensures ParseAmount("-5,00" + [Euro]) == Some(-5.0)
  {
    assert Grouped(5) == "5";
    assert GermanAmount(-500, [Euro]) == "-5,00" + [Euro];
    ParseGermanAmount(-500, [Euro]);
  }

  /** A line that is not an amount at all makes `float()` fail. */
  lemma {:induction false} NotAnAmountExample()
    ensures Normalize("n/a") == "n/a"
    ensures ParseAmount("n/a") == None
  {
    NotAnAmountNormalized();
    TrimFloatLiteral("n/a", "");
    assert DigitRun("n/a") == 0;
    assert Unsigned("n/a") == None;
  }

  lemma {:induction false} NotAnAmountNormalized()
    ensures Normalize("n/a") == "n/a"
  {
    assert Replace("n/a", ".", "") == "n/a";
    assert Replace("n/a", ",", ".") == "n/a";
    assert Replace("n/a", " EUR", "") == "n/a";
    assert Replace("n/a", [Euro], "") == "n/a";
  }
}
