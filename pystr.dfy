/**
 * The Python string and integer builtins that the export pipeline relies on:
 * `str.isspace`, `str.strip`, `str.split(sep)`, `str.zfill`, `int(str)` and
 * `str(int)`, written out over `seq<char>`.
 */
module PyStr {
  import opened Wrappers

  /** Python's `str.isspace()` for one character. */
  predicate IsSpace(c: char) {
    ('\t' <= c <= '\r') || ('\U{1c}' <= c <= '\U{1f}') || c == ' ' ||
    c == '\U{85}' || c == '\U{a0}' || c == '\U{1680}' ||
    ('\U{2000}' <= c <= '\U{200a}') || c == '\U{2028}' || c == '\U{2029}' ||
    c == '\U{202f}' || c == '\U{205f}' || c == '\U{3000}'
  }

  /** An ASCII decimal digit, as the regex class `[0-9]` matches. */
  predicate IsDigit(c: char) {
    '0' <= c <= '9'
  }

  predicate AllDigits(s: string) {
    forall i :: 0 <= i < |s| ==> IsDigit(s[i])
  }

  /**
   * The whitespace `int()` skips around its literal: ASCII `\t` to `\r` and
   * space, and the non-ASCII characters of `str.isspace()` (which `int()`
   * first maps to a space). The ASCII separators U+001C to U+001F count as
   * whitespace for `strip()` but not for `int()`.
   */
  predicate IsIntSpace(c: char) {
    ('\t' <= c <= '\r') || c == ' ' ||
    c == '\U{85}' || c == '\U{a0}' || c == '\U{1680}' ||
    ('\U{2000}' <= c <= '\U{200a}') || c == '\U{2028}' || c == '\U{2029}' ||
    c == '\U{202f}' || c == '\U{205f}' || c == '\U{3000}'
  }

  /** What `int()` skips is exactly the whitespace of `strip()` other than U+001C to U+001F. */
  lemma IntSpaceIsSpace(c: char)
    ensures IsIntSpace(c) <==> IsSpace(c) && !('\U{1c}' <= c <= '\U{1f}')
  {
  }

  /** Removes leading whitespace. */
  function LStrip(s: string): (r: string)
    ensures |r| <= |s| && r == s[|s| - |r|..]
    ensures forall i :: 0 <= i < |s| - |r| ==> IsSpace(s[i])
    ensures r == [] || !IsSpace(r[0])
    ensures (s == [] || !IsSpace(s[0])) ==> r == s
  {
    if s != [] && IsSpace(s[0]) then
      var r := LStrip(s[1..]);
      assert forall i :: 1 <= i < |s| ==> s[i] == s[1..][i - 1];
      assert s[|s| - |r|..] == s[1..][|s| - 1 - |r|..];
      r
    else s
  }

  /** Removes trailing whitespace. */
  function RStrip(s: string): (r: string)
    ensures |r| <= |s| && r == s[..|r|]
    ensures forall i :: |r| <= i < |s| ==> IsSpace(s[i])
    ensures r == [] || !IsSpace(r[|r| - 1])
    ensures (s == [] || !IsSpace(s[|s| - 1])) ==> r == s
  {
    if s != [] && IsSpace(s[|s| - 1]) then
      var r := RStrip(s[..|s| - 1]);
      assert forall i :: 0 <= i < |s| - 1 ==> s[i] == s[..|s| - 1][i];
      assert s[..|r|] == s[..|s| - 1][..|r|];
      r
    else s
  }

  /** Removes leading whitespace as `int()` skips it. */
  function IntLStrip(s: string): (r: string)
    ensures |r| <= |s| && r == s[|s| - |r|..]
    ensures forall i :: 0 <= i < |s| - |r| ==> IsIntSpace(s[i])
    ensures r == [] || !IsIntSpace(r[0])
    ensures (s == [] || !IsIntSpace(s[0])) ==> r == s
  {
    if s != [] && IsIntSpace(s[0]) then
      var r := IntLStrip(s[1..]);
      assert forall i :: 1 <= i < |s| ==> s[i] == s[1..][i - 1];
      assert s[|s| - |r|..] == s[1..][|s| - 1 - |r|..];
      r
    else s
  }

  /** Removes trailing whitespace as `int()` skips it. */
  function IntRStrip(s: string): (r: string)
    ensures |r| <= |s| && r == s[..|r|]
    ensures forall i :: |r| <= i < |s| ==> IsIntSpace(s[i])
    ensures r == [] || !IsIntSpace(r[|r| - 1])
    ensures (s == [] || !IsIntSpace(s[|s| - 1])) ==> r == s
  {
    if s != [] && IsIntSpace(s[|s| - 1]) then
      var r := IntRStrip(s[..|s| - 1]);
      assert forall i :: 0 <= i < |s| - 1 ==> s[i] == s[..|s| - 1][i];
      assert s[..|r|] == s[..|s| - 1][..|r|];
      r
    else s
  }

  /** `r` is `s[i..j]` with only whitespace cut on either side and none left at its ends. */
  ghost predicate Trimmed(s: string, r: string) {
    exists i, j :: 0 <= i <= j <= |s| && r == s[i..j] &&
      (forall k :: 0 <= k < i ==> IsSpace(s[k])) &&
      (forall k :: j <= k < |s| ==> IsSpace(s[k])) &&
      (r == [] || (!IsSpace(r[0]) && !IsSpace(r[|r| - 1])))
  }

  /** Python's `str.strip()` with no argument. */
  function Strip(s: string): (r: string)
    ensures |r| <= |s|
    ensures r == [] || (!IsSpace(r[0]) && !IsSpace(r[|r| - 1]))
    ensures (s == [] || (!IsSpace(s[0]) && !IsSpace(s[|s| - 1]))) ==> r == s
  {
    RStrip(LStrip(s))
  }

  /** `strip()` cuts only whitespace, from either end, and leaves none at the ends. */
  lemma StripTrimmed(s: string)
    ensures Trimmed(s, Strip(s))
  {
    var l := LStrip(s);
    var r := RStrip(l);
    var i := |s| - |l|;
    var j := i + |r|;
    assert l == s[i..] && r == l[..|r|];
    assert r == s[i..j] by {
      assert forall k :: 0 <= k < |r| ==> r[k] == s[i + k];
    }
    forall k | j <= k < |s|
      ensures IsSpace(s[k])
    {
      assert |r| <= k - i < |l| && s[k] == l[k - i];
    }
    assert Strip(s) == r;
    TrimmedWitness(s, r, i, j);
  }

  lemma TrimmedWitness(s: string, r: string, i: nat, j: nat)
    requires i <= j <= |s| && r == s[i..j]
    requires forall k :: 0 <= k < i ==> IsSpace(s[k])
    requires forall k :: j <= k < |s| ==> IsSpace(s[k])
    requires r == [] || (!IsSpace(r[0]) && !IsSpace(r[|r| - 1]))
    ensures Trimmed(s, r)
  {
  }

  /** A string whose last character is not whitespace for `int()` keeps it when that whitespace is cut. */
  lemma {:induction false} IntStripKeepsLast(s: string)
    requires s != [] && !IsIntSpace(s[|s| - 1])
    ensures var t := IntRStrip(IntLStrip(s)); t != [] && t[|t| - 1] == s[|s| - 1]
  {
    var l := IntLStrip(s);
    var n := |s| - 1;
    assert l != [];
    assert l == s[|s| - |l|..];
    assert l[|l| - 1] == s[n];
    assert IntRStrip(l) == l;
  }

  /** Number of occurrences of `c` in `s`. */
  function CountChar(s: string, c: char): (n: nat)
    ensures n == 0 <==> c !in s
    ensures n <= |s|
  {
    if s == [] then 0 else (if s[0] == c then 1 else 0) + CountChar(s[1..], c)
  }

  /** The inverse of `split`: the parts glued back with the separator. */
  function Join(parts: seq<string>, sep: char): string
    requires |parts| > 0
  {
    if |parts| == 1 then parts[0] else parts[0] + [sep] + Join(parts[1..], sep)
  }

  /** Position of the first occurrence of `c` in `s`. */
  function IndexOf(s: string, c: char): (i: nat)
    requires c in s
    ensures i < |s| && s[i] == c && c !in s[..i]
  {
    if s[0] == c then 0 else 1 + IndexOf(s[1..], c)
  }

  lemma {:induction false} CountCharConcat(a: string, b: string, c: char)
    ensures CountChar(a + b, c) == CountChar(a, c) + CountChar(b, c)
  {
    if a == [] {
      assert a + b == b;
    } else {
      assert (a + b)[1..] == a[1..] + b;
      CountCharConcat(a[1..], b, c);
    }
  }

  /** Python's `str.split(sep)` for a one-character separator. */
  function SplitOn(s: string, sep: char): (parts: seq<string>)
    ensures |parts| == CountChar(s, sep) + 1
    ensures forall i :: 0 <= i < |parts| ==> sep !in parts[i]
    ensures Join(parts, sep) == s
    decreases |s|
  {
    if sep !in s then [s]
    else
      var i := IndexOf(s, sep);
      var rest := SplitOn(s[i + 1..], sep);
      SplitCons(s, sep, i, rest);
      [s[..i]] + rest
  }

  /** The parts before the first separator and those of the rest make up the split of `s`. */
  lemma SplitCons(s: string, sep: char, i: nat, rest: seq<string>)
    requires i < |s| && s[i] == sep && sep !in s[..i]
    requires |rest| == CountChar(s[i + 1..], sep) + 1
    requires forall k :: 0 <= k < |rest| ==> sep !in rest[k]
    requires Join(rest, sep) == s[i + 1..]
    ensures var parts := [s[..i]] + rest;
      |parts| == CountChar(s, sep) + 1 && (forall k :: 0 <= k < |parts| ==> sep !in parts[k]) &&
      Join(parts, sep) == s
  {
    var parts := [s[..i]] + rest;
    assert parts[1..] == rest;
    assert s == s[..i] + [sep] + s[i + 1..];
    assert Join(parts, sep) == s[..i] + [sep] + Join(rest, sep);
    assert forall k :: 1 <= k < |parts| ==> parts[k] == rest[k - 1];
    CountCharConcat(s[..i] + [sep], s[i + 1..], sep);
    CountCharConcat(s[..i], [sep], sep);
  }

  /** Splitting around a separator that occurs nowhere in the left part. */
  lemma SplitAtFirst(a: string, sep: char, b: string)
    requires sep !in a
    ensures SplitOn(a + [sep] + b, sep) == [a] + SplitOn(b, sep)
  {
    var s := a + [sep] + b;
    assert s[|a|] == sep;
    var i := IndexOf(s, sep);
    assert s[..|a|] == a;
    assert i == |a|;
    assert s[..i] == a && s[i + 1..] == b;
  }

  /** A string without the separator splits into itself. */
  lemma SplitNoSeparator(s: string, sep: char)
    requires sep !in s
    ensures SplitOn(s, sep) == [s]
  {
  }

  /** Value of a run of decimal digits, most significant first. */
  function DigitsValue(d: string): (v: nat)
    requires AllDigits(d)
    ensures v < Pow10(|d|)
  {
    if d == [] then 0 else DigitsValue(d[..|d| - 1]) * 10 + (d[|d| - 1] - '0') as int
  }

  function Pow10(n: nat): (p: nat)
    ensures p >= 1
  {
    if n == 0 then 1 else 10 * Pow10(n - 1)
  }

  function Digit(n: nat): (c: char)
    requires n < 10
    ensures IsDigit(c) && (c - '0') as int == n
  {
    ('0' as int + n) as char
  }

  lemma {:induction false} DigitsValueAppend(d: string, c: char)
    requires AllDigits(d) && IsDigit(c)
    ensures AllDigits(d + [c]) && DigitsValue(d + [c]) == DigitsValue(d) * 10 + (c - '0') as int
  {
    assert (d + [c])[..|d + [c]| - 1] == d;
  }

  /** `n` written in decimal, without leading zeros. */
  function NatToDigits(n: nat): (d: string)
    ensures d != [] && AllDigits(d)
    ensures DigitsValue(d) == n
    ensures d[0] == '0' ==> n == 0
  {
    if n < 10 then [Digit(n)]
    else
      var d := NatToDigits(n / 10) + [Digit(n % 10)];
      DigitsValueAppend(NatToDigits(n / 10), Digit(n % 10));
      d
  }

  /**
   * The text `str()` writes for an integer: an optional `-`, then decimal
   * digits with no leading zero, where `0` is written alone and never as `-0`.
   */
  predicate IsCanonicalDecimal(s: string) {
    if s != [] && s[0] == '-' then |s| >= 2 && AllDigits(s[1..]) && s[1] != '0'
    else s != [] && AllDigits(s) && (s[0] == '0' ==> |s| == 1)
  }

  /** Python's `str(i)` for an integer. */
  function IntToString(i: int): (s: string)
    ensures IsCanonicalDecimal(s)
    ensures s[0] == '-' <==> i < 0
    ensures IsDigit(s[|s| - 1])
  {
    if i < 0 then
      var d := NatToDigits(-i);
      assert (['-'] + d)[1..] == d;
      ['-'] + d
    else NatToDigits(i)
  }

  /** The digits of an integer literal as `int()` accepts them: single underscores between digits. */
  predicate IsDecimalBody(b: string) {
    b != [] && IsDigit(b[0]) && IsDigit(b[|b| - 1]) &&
    (forall i :: 0 <= i < |b| ==> IsDigit(b[i]) || b[i] == '_') &&
    (forall i :: 0 <= i < |b| - 1 ==> b[i] == '_' ==> b[i + 1] != '_')
  }

  function RemoveUnderscores(b: string): (r: string)
    ensures (forall i :: 0 <= i < |b| ==> IsDigit(b[i]) || b[i] == '_') ==> AllDigits(r)
    ensures AllDigits(b) ==> r == b
  {
    if b == [] then []
    else if b[0] == '_' then RemoveUnderscores(b[1..])
    else [b[0]] + RemoveUnderscores(b[1..])
  }

  /** Python's `int(s)` on a string: surrounding whitespace, an optional sign, decimal digits. */
  function ParseInt(s: string): Option<int> {
    var t := IntRStrip(IntLStrip(s));
    if t != [] && (t[0] == '-' || t[0] == '+') then
      var body := t[1..];
      if IsDecimalBody(body) then
        var v: int := DigitsValue(RemoveUnderscores(body));
        Some(if t[0] == '-' then -v else v)
      else None
    else if IsDecimalBody(t) then Some(DigitsValue(RemoveUnderscores(t)))
    else None
  }

  lemma DigitNotSpace(c: char)
    requires IsDigit(c) || c == '-'
    ensures !IsSpace(c) && !IsIntSpace(c)
  {
  }

  /** A run of digits is a decimal body that has no underscores to remove. */
  lemma DigitsAreDecimal(d: string)
    requires d != [] && AllDigits(d)
    ensures IsDecimalBody(d) && RemoveUnderscores(d) == d
  {
  }

  /** `int()` reads back every natural number that `str()` writes. */
  lemma NatToDigitsRoundTrip(n: nat)
    ensures ParseInt(NatToDigits(n)) == Some(n)
  {
    var d := NatToDigits(n);
    DigitsAreDecimal(d);
    DigitNotSpace(d[0]);
    DigitNotSpace(d[|d| - 1]);
    assert IntRStrip(IntLStrip(d)) == d;
    assert d[0] != '-' && d[0] != '+';
  }

  /** `int()` reads back every integer that `str()` writes. */
  lemma IntToStringRoundTrip(i: int)
    ensures ParseInt(IntToString(i)) == Some(i)
  {
    if i < 0 {
      var d := NatToDigits(-i);
      var s := ['-'] + d;
      DigitsAreDecimal(d);
      DigitNotSpace(s[0]);
      DigitNotSpace(s[|s| - 1]);
      assert IntRStrip(IntLStrip(s)) == s;
      assert s[1..] == d;
    } else {
      NatToDigitsRoundTrip(i);
    }
  }

  /** A run of digits that does not start with `0` has a value of at least one. */
  lemma {:induction false} LeadingNonzero(d: string)
    requires d != [] && AllDigits(d) && d[0] != '0'
    ensures DigitsValue(d) >= 1
  {
    if |d| > 1 {
      var p := d[..|d| - 1];
      assert p[0] == d[0];
      LeadingNonzero(p);
    }
  }

  /** Digits without a leading zero are what `str()` writes for their value. */
  lemma {:induction false} NatDigitsCanonical(d: string)
    requires d != [] && AllDigits(d) && (d[0] == '0' ==> |d| == 1)
    ensures NatToDigits(DigitsValue(d)) == d
  {
    var n := |d|;
    var c := d[n - 1];
    var p := d[..n - 1];
    var v := DigitsValue(d);
    assert v == DigitsValue(p) * 10 + (c - '0') as int;
    if n == 1 {
      assert p == [];
      assert Digit(v) == c;
    } else {
      assert p[0] == d[0];
      LeadingNonzero(p);
      NatDigitsCanonical(p);
      assert v / 10 == DigitsValue(p) && v % 10 == (c - '0') as int;
      assert Digit(v % 10) == c;
      assert p + [c] == d;
    }
  }

  /**
   * `str()` writes exactly the canonical decimals: each one is read by `int()`
   * and is what `str()` writes for the value read.
   */
  lemma CanonicalDecimalUnique(s: string)
    requires IsCanonicalDecimal(s)
    ensures ParseInt(s).Some? && IntToString(ParseInt(s).value) == s
  {
    var i := CanonicalValue(s);
    IntToStringRoundTrip(i);
  }

  /** The integer a canonical decimal writes. */
  lemma CanonicalValue(s: string) returns (i: int)
    requires IsCanonicalDecimal(s)
    ensures IntToString(i) == s
  {
    if s[0] == '-' {
      var d := s[1..];
      assert d[0] == s[1];
      NatDigitsCanonical(d);
      LeadingNonzero(d);
      var v := DigitsValue(d);
      assert s == ['-'] + d;
      i := -(v as int);
    } else {
      NatDigitsCanonical(s);
      i := DigitsValue(s);
    }
  }

  /** `int()` skips a space and a newline around its literal. */
  lemma ParseIntSkipsBlanks(t: string)
    requires t == " 5\n"
    ensures ParseInt(t) == Some(5)
  {
    IntTrimExample(t);
    assert AllDigits("5") && DigitsValue("5") == 5 by {
      assert "5"[..0] == [];
    }
    ParseIntOfDigits(t, "5");
  }

  /** A string that is a run of digits once `int()`'s whitespace is cut reads as their value. */
  lemma ParseIntOfDigits(s: string, d: string)
    requires IntRStrip(IntLStrip(s)) == d && d != [] && AllDigits(d)
    ensures ParseInt(s) == Some(DigitsValue(d))
  {
    DigitsAreDecimal(d);
    var t := IntRStrip(IntLStrip(s));
    assert t == d && IsDigit(t[0]);
    assert !(t[0] == '-' || t[0] == '+');
    assert IsDecimalBody(t) && RemoveUnderscores(t) == d;
  }

  /** `int()` does not skip the ASCII separator U+001C, which `strip()` would remove. */
  lemma ParseIntRejectsSeparator(u: string)
    requires u == "\U{1c}5"
    ensures ParseInt(u) == None
  {
    assert !IsIntSpace(u[0]) && !IsIntSpace(u[1]);
    assert IntRStrip(IntLStrip(u)) == u;
    assert !IsDigit(u[0]);
  }

  /** What `int()` keeps of ` 5\n` after cutting its whitespace, for `ParseIntSkipsBlanks`. */
  lemma IntTrimExample(t: string)
    requires t == " 5\n"
    ensures IntRStrip(IntLStrip(t)) == "5"
  {
    var l := t[1..];
    assert IsIntSpace(t[0]) && !IsIntSpace(l[0]);
    assert IntLStrip(t) == l;
    var five := l[..1];
    assert IsIntSpace(l[1]) && !IsIntSpace(five[0]);
    assert IntRStrip(l) == IntRStrip(five);
    assert five == "5";
  }

  /** `int()` rejects a string whose last character is neither a digit nor whitespace. */
  lemma ParseIntRejectsTrailing(s: string)
    requires s != [] && !IsDigit(s[|s| - 1]) && !IsIntSpace(s[|s| - 1])
    ensures ParseInt(s).None?
  {
    IntStripKeepsLast(s);
    var t := IntRStrip(IntLStrip(s));
    assert !IsDigit(t[|t| - 1]);
    if t[0] == '-' || t[0] == '+' {
      var body := t[1..];
      assert body != [] ==> body[|body| - 1] == t[|t| - 1];
      assert !IsDecimalBody(body);
    } else {
      assert !IsDecimalBody(t);
    }
  }

  /** Splitting `a + sep + b` where neither side holds the separator gives the two sides. */
  lemma SplitTwo(a: string, sep: char, b: string)
    requires sep !in a && sep !in b
    ensures SplitOn(a + [sep] + b, sep) == [a, b]
  {
    SplitAtFirst(a, sep, b);
    SplitNoSeparator(b, sep);
  }

  function Zeros(n: nat): (z: string)
    ensures |z| == n && forall i :: 0 <= i < n ==> z[i] == '0'
  {
    if n == 0 then [] else ['0'] + Zeros(n - 1)
  }

  /** Python's `str.zfill(width)`: zeros on the left, after a leading sign if there is one. */
  function ZFill(s: string, width: nat): (r: string)
    ensures |r| == if |s| >= width then |s| else width
    ensures (s == [] || (s[0] != '+' && s[0] != '-')) ==>
      r[|r| - |s|..] == s && forall i :: 0 <= i < |r| - |s| ==> r[i] == '0'
  {
    if |s| >= width then s
    else if s != [] && (s[0] == '+' || s[0] == '-') then [s[0]] + Zeros(width - |s|) + s[1..]
    else Zeros(width - |s|) + s
  }
}
