/** Shared vocabulary: an optional value, decimal digit strings, Python's
    `str.strip()` and `int()` on text, and joining/splitting of lines. */
module Common {

  datatype Option<+T> = None | Some(value: T)

  /*** Prefixes, suffixes and substrings ***/

  predicate StartsWith(s: string, prefix: string) {
    |prefix| <= |s| && s[..|prefix|] == prefix
  }

  predicate EndsWith(s: string, suffix: string) {
    |suffix| <= |s| && s[|s| - |suffix|..] == suffix
  }

  /** A single differing position rules a prefix out. */
  lemma NotStartsWith(s: string, prefix: string, i: nat)
    requires i < |prefix| && i < |s| && s[i] != prefix[i]
    ensures !StartsWith(s, prefix)
  {
    if |prefix| <= |s| {
      assert s[..|prefix|][i] == s[i];
    }
  }

  lemma ConcatAffixes(a: string, b: string)
    ensures StartsWith(a + b, a) && (a + b)[|a|..] == b
    ensures EndsWith(a + b, b) && (a + b)[..|a|] == a
  {
    assert (a + b)[..|a|] == a;
    assert (a + b)[|a + b| - |b|..] == b;
  }

  /** `p` occurs in `s` starting at position `i`. */
  predicate OccursAt(s: string, p: string, i: int) {
    0 <= i && i + |p| <= |s| && s[i..i + |p|] == p
  }

  predicate Contains(s: string, p: string) {
    exists i | 0 <= i <= |s| - |p| :: OccursAt(s, p, i)
  }

  /*** Decimal digits ***/

  predicate IsDigit(c: char) {
    '0' <= c <= '9'
  }

  predicate AllDigits(s: string) {
    forall i :: 0 <= i < |s| ==> IsDigit(s[i])
  }

  function DigitChar(d: nat): (c: char)
    requires d < 10
    ensures IsDigit(c) && (c as int) - ('0' as int) == d
  {
    (('0' as int) + d) as char
  }

  /** The value of a string of decimal digits, leading zeros allowed. */
  function DigitsValue(s: string): nat
    requires AllDigits(s)
  {
    if |s| == 0 then 0
    else DigitsValue(s[..|s| - 1]) * 10 + ((s[|s| - 1] as int) - ('0' as int))
  }

  /** Python's `str(n)` for a non-negative integer: shortest decimal form. */
  function NatToString(n: nat): (s: string)
    ensures 1 <= |s| && AllDigits(s)
    ensures |s| == 1 || s[0] != '0'
    ensures n < 10 <==> |s| == 1
  {
    if n < 10 then [DigitChar(n)] else NatToString(n / 10) + [DigitChar(n % 10)]
  }

  lemma {:induction false} NatToStringValue(n: nat)
    ensures DigitsValue(NatToString(n)) == n
  {
    if n >= 10 {
      var s := NatToString(n / 10);
      var t := s + [DigitChar(n % 10)];
      assert t[..|t| - 1] == s;
      NatToStringValue(n / 10);
    }
  }

  lemma NatToStringInjective(a: nat, b: nat)
    requires NatToString(a) == NatToString(b)
    ensures a == b
  {
    NatToStringValue(a);
    NatToStringValue(b);
  }

  function Zeros(k: nat): (s: string)
    ensures |s| == k && AllDigits(s)
    ensures forall i :: 0 <= i < k ==> s[i] == '0'
  {
    if k == 0 then [] else ['0'] + Zeros(k - 1)
  }

  lemma {:induction false} LeadingZeroValue(t: string)
    requires AllDigits(t)
    ensures AllDigits(['0'] + t)
    ensures DigitsValue(['0'] + t) == DigitsValue(t)
  {
    if |t| > 0 {
      var w := ['0'] + t;
      assert w[..|w| - 1] == ['0'] + t[..|t| - 1];
      LeadingZeroValue(t[..|t| - 1]);
    }
  }

  lemma {:induction false} LeadingZerosValue(k: nat, t: string)
    requires AllDigits(t)
    ensures AllDigits(Zeros(k) + t)
    ensures DigitsValue(Zeros(k) + t) == DigitsValue(t)
  {
    if k > 0 {
      LeadingZerosValue(k - 1, t);
      assert Zeros(k) == ['0'] + Zeros(k - 1);
      assert Zeros(k) + t == ['0'] + (Zeros(k - 1) + t);
      LeadingZeroValue(Zeros(k - 1) + t);
    } else {
      assert Zeros(k) + t == t;
    }
  }

  /** Python's `format(n, "0{width}d")`: at least `width` digits, padded with zeros. */
  function ZeroPad(n: nat, width: nat): (s: string)
    ensures AllDigits(s) && DigitsValue(s) == n
    ensures |s| == if |NatToString(n)| < width then width else |NatToString(n)|
  {
    var digits := NatToString(n);
    var pad := if |digits| < width then width - |digits| else 0;
    LeadingZerosValue(pad, digits);
    NatToStringValue(n);
    Zeros(pad) + digits
  }

  lemma ZeroPadInjective(a: nat, b: nat, width: nat)
    requires ZeroPad(a, width) == ZeroPad(b, width)
    ensures a == b
  {
  }

  /** Python's `str(i)` for any integer. */
  function IntToString(i: int): (s: string)
    ensures 1 <= |s|
  {
    if i < 0 then "-" + NatToString(-i) else NatToString(i)
  }

  /*** Python's str.strip() ***/

  /** The characters Python's `str.isspace()` accepts (and `str.strip()` removes). */
  predicate IsSpace(c: char) {
    c in {' ', '\t', '\n', '\r', '\U{B}', '\U{C}', '\U{1C}', '\U{1D}', '\U{1E}', '\U{1F}',
          '\U{85}', '\U{A0}', '\U{1680}', '\U{2000}', '\U{2001}', '\U{2002}', '\U{2003}',
          '\U{2004}', '\U{2005}', '\U{2006}', '\U{2007}', '\U{2008}', '\U{2009}', '\U{200A}',
          '\U{2028}', '\U{2029}', '\U{202F}', '\U{205F}', '\U{3000}'}
  }

  predicate AllSpaces(s: string) {
    forall i :: 0 <= i < |s| ==> IsSpace(s[i])
  }

  function TrimStart(s: string): (r: string)
    ensures |r| <= |s| && r == s[|s| - |r|..]
    ensures AllSpaces(s[..|s| - |r|])
    ensures r == [] || !IsSpace(r[0])
  {
    if |s| == 0 || !IsSpace(s[0]) then s
    else
      var t := s[1..];
      var r := TrimStart(t);
      var w := s[..|s| - |r|];
      assert w == [s[0]] + t[..|t| - |r|];
      assert AllSpaces(w) by {
        forall i | 0 <= i < |w| ensures IsSpace(w[i]) {
          if i > 0 { assert w[i] == t[..|t| - |r|][i - 1]; }
        }
      }
      assert t[|t| - |r|..] == s[|s| - |r|..];
      r
  }

  function TrimEnd(s: string): (r: string)
    ensures |r| <= |s| && r == s[..|r|]
    ensures AllSpaces(s[|r|..])
    ensures r == [] || !IsSpace(r[|r| - 1])
  {
    if |s| == 0 || !IsSpace(s[|s| - 1]) then s
    else TrimEnd(s[..|s| - 1])
  }

  /** Python's `s.strip()`: the longest infix of `s` that neither starts nor
      ends with whitespace, obtained by removing whitespace from both ends. */
  function Strip(s: string): (r: string)
    ensures |r| <= |s|
    ensures r == [] || (!IsSpace(r[0]) && !IsSpace(r[|r| - 1]))
  {
    TrimEnd(TrimStart(s))
  }

  /** What `Strip` removes is whitespace, from the two ends only. */
  lemma StripIsInfix(s: string)
    ensures exists i, j :: 0 <= i <= j <= |s| && Strip(s) == s[i..j] && AllSpaces(s[..i]) && AllSpaces(s[j..])
  {
    var a := TrimStart(s);
    var r := TrimEnd(a);
    var i := |s| - |a|;
    var j := i + |r|;
    assert Strip(s) == s[i..j] && AllSpaces(s[..i]) && AllSpaces(s[j..]) by {
      assert r == s[i..j];
      assert s[j..] == a[|r|..];
    }
  }

  lemma StripIdempotent(s: string)
    ensures Strip(Strip(s)) == Strip(s)
  {
  }

  lemma StripEmptyIffAllSpaces(s: string)
    ensures Strip(s) == [] <==> AllSpaces(s)
  {
    StripIsInfix(s);
  }

  /*** Python's int() on text ***/

  /** Python's `int(s)` for a string, restricted to ASCII digits:
      surrounding whitespace, an optional sign and one or more digits; `None`
      where Python raises ValueError. Python also accepts single underscores
      between digits ("1_0") and decimal digits of other scripts
      (full-width, Arabic-Indic, ...); this function rejects both. */
  function ParseInt(s: string): Option<int> {
    ParseSigned(Strip(s))
  }

  /** An optional sign followed by one or more digits, nothing else. */
  function ParseSigned(t: string): Option<int> {
    if 0 < |t| && (t[0] == '-' || t[0] == '+') then
      if 1 < |t| && AllDigits(t[1..]) then
        var v: int := DigitsValue(t[1..]);
        Some(if t[0] == '-' then -v else v)
      else None
    else if 0 < |t| && AllDigits(t) then Some(DigitsValue(t))
    else None
  }

  lemma DigitIsNotSpace(c: char)
    requires IsDigit(c)
    ensures !IsSpace(c)
  {
  }

  lemma StripUntrimmed(s: string)
    requires s == [] || (!IsSpace(s[0]) && !IsSpace(s[|s| - 1]))
    ensures Strip(s) == s
  {
    assert TrimStart(s) == s;
  }

  lemma ParseIntOfDigits(d: string)
    requires 1 <= |d| && AllDigits(d)
    ensures ParseInt(d) == Some(DigitsValue(d) as int)
  {
    DigitIsNotSpace(d[0]);
    DigitIsNotSpace(d[|d| - 1]);
    StripUntrimmed(d);
    assert d[0] != '-' && d[0] != '+';
  }

  lemma ParseSignedNegated(d: string)
    requires 1 <= |d| && AllDigits(d)
    ensures ParseSigned("-" + d) == Some(-(DigitsValue(d) as int))
  {
    assert ("-" + d)[1..] == d;
  }

  lemma ParseIntOfNegatedDigits(d: string)
    requires 1 <= |d| && AllDigits(d)
    ensures ParseInt("-" + d) == Some(-(DigitsValue(d) as int))
  {
    var m := "-" + d;
    DigitIsNotSpace(d[|d| - 1]);
    assert m[|m| - 1] == d[|d| - 1];
    assert !IsSpace(m[0]);
    StripUntrimmed(m);
    ParseSignedNegated(d);
  }

  lemma ParseIntOfIntToString(i: int)
    ensures ParseInt(IntToString(i)) == Some(i)
  {
    var n: nat := if i < 0 then -i else i;
    NatToStringValue(n);
    if i < 0 {
      ParseIntOfNegatedDigits(NatToString(n));
    } else {
      ParseIntOfDigits(NatToString(n));
    }
  }

  /*** Lines ***/

  /** Python's `sep.join(parts)`. */
  function Join(parts: seq<string>, sep: string): string {
    if |parts| == 0 then ""
    else if |parts| == 1 then parts[0]
    else parts[0] + sep + Join(parts[1..], sep)
  }

  predicate NoNewline(s: string) {
    forall i :: 0 <= i < |s| ==> s[i] != '\n'
  }

  /** Python's `s.split("\n")`: the pieces between newline characters. */
  function SplitLines(s: string): (r: seq<string>)
    ensures 1 <= |r|
    ensures forall k :: 0 <= k < |r| ==> NoNewline(r[k])
  {
    if exists i :: 0 <= i < |s| && s[i] == '\n' then
      var i := FirstNewline(s, 0);
      [s[..i]] + SplitLines(s[i + 1..])
    else [s]
  }

  /** The position of the first newline at or after `from`. */
  function FirstNewline(s: string, from: nat): (i: nat)
    requires from <= |s|
    requires exists k :: from <= k < |s| && s[k] == '\n'
    ensures from <= i < |s| && s[i] == '\n'
    ensures forall k :: from <= k < i ==> s[k] != '\n'
    decreases |s| - from
  {
    if s[from] == '\n' then from else FirstNewline(s, from + 1)
  }

  /** Joining lines with "\n" loses nothing: splitting gives the lines back. */
  lemma {:induction false} SplitJoin(lines: seq<string>)
    requires 1 <= |lines|
    requires forall k :: 0 <= k < |lines| ==> NoNewline(lines[k])
    ensures SplitLines(Join(lines, "\n")) == lines
  {
    var s := Join(lines, "\n");
    if |lines| == 1 {
      assert s == lines[0];
    } else {
      var rest := Join(lines[1..], "\n");
      var n := |lines[0]|;
      assert s == lines[0] + "\n" + rest;
      assert s[n] == '\n';
      assert s[..n] == lines[0] && s[n + 1..] == rest;
      assert FirstNewline(s, 0) == n by {
        FirstNewlineOfNoNewlinePrefix(s, n);
      }
      SplitJoin(lines[1..]);
      assert SplitLines(s) == [s[..n]] + SplitLines(s[n + 1..]);
    }
  }

  /** The first newline of a string whose first `n` characters hold none
      and whose character `n` is one is at `n`. */
  lemma FirstNewlineOfNoNewlinePrefix(s: string, n: nat)
    requires n < |s| && s[n] == '\n' && NoNewline(s[..n])
    ensures FirstNewline(s, 0) == n
  {
    assert forall k :: 0 <= k < n ==> s[..n][k] == s[k];
  }

  /*** Filtering a sequence, keeping its order ***/

  function Filter<T>(xs: seq<T>, p: T -> bool): (r: seq<T>)
    ensures |r| <= |xs|
    ensures forall i :: 0 <= i < |r| ==> r[i] in xs && p(r[i])
    ensures forall i :: 0 <= i < |xs| && p(xs[i]) ==> xs[i] in r
  {
    if |xs| == 0 then [] else (if p(xs[0]) then [xs[0]] else []) + Filter(xs[1..], p)
  }

  lemma {:induction false} FilterAppend<T>(xs: seq<T>, ys: seq<T>, p: T -> bool)
    ensures Filter(xs + ys, p) == Filter(xs, p) + Filter(ys, p)
  {
    if |xs| > 0 {
      assert (xs + ys)[1..] == xs[1..] + ys;
      FilterAppend(xs[1..], ys, p);
    } else {
      assert xs + ys == ys;
    }
  }

  /** A filter of a sequence that is ordered by a non-increasing key is still ordered so. */
  predicate NonIncreasing<T>(xs: seq<T>, key: T -> int) {
    forall i, j :: 0 <= i < j < |xs| ==> key(xs[i]) >= key(xs[j])
  }

  /** Putting an element anywhere in a sequence adds exactly that element. */
  lemma InsertedMembers<T>(xs: seq<T>, k: nat, t: T)
    requires k <= |xs|
    ensures forall x :: x in xs[..k] + [t] + xs[k..] <==> x in xs || x == t
  {
    assert xs == xs[..k] + xs[k..];
  }

  /** Putting an element no smaller than the head in front keeps the order. */
  lemma PrependKeepsOrder<T>(x: T, xs: seq<T>, key: T -> int)
    requires NonIncreasing(xs, key)
    requires |xs| > 0 ==> key(xs[0]) <= key(x)
    ensures NonIncreasing([x] + xs, key)
  {
    var ys := [x] + xs;
    forall i, j | 0 <= i < j < |ys| ensures key(ys[i]) >= key(ys[j]) {
      assert ys[j] == xs[j - 1];
      if i > 0 {
        assert ys[i] == xs[i - 1];
      } else if j > 1 {
        assert key(xs[0]) >= key(xs[j - 1]);
      }
    }
  }

  lemma {:induction false} FilterKeepsOrder<T>(xs: seq<T>, p: T -> bool, key: T -> int)
    requires NonIncreasing(xs, key)
    ensures NonIncreasing(Filter(xs, p), key)
  {
    if |xs| > 0 {
      var tail := xs[1..];
      assert NonIncreasing(tail, key) by {
        forall i, j | 0 <= i < j < |tail| ensures key(tail[i]) >= key(tail[j]) {
          assert tail[i] == xs[i + 1] && tail[j] == xs[j + 1];
        }
      }
      FilterKeepsOrder(tail, p, key);
      var rest := Filter(tail, p);
      if p(xs[0]) {
        if |rest| > 0 {
          var k :| 0 <= k < |tail| && tail[k] == rest[0];
          assert xs[k + 1] == rest[0];
        }
        PrependKeepsOrder(xs[0], rest, key);
        assert Filter(xs, p) == [xs[0]] + rest;
      }
    }
  }


  /*** Python's ordering of strings: code point by code point ***/

  predicate StrLe(a: string, b: string) {
    if |a| == 0 then true
    else if |b| == 0 then false
    else if a[0] != b[0] then a[0] < b[0]
    else StrLe(a[1..], b[1..])
  }

  lemma {:induction false} StrLeTotal(a: string, b: string)
    ensures StrLe(a, b) || StrLe(b, a)
  {
    if |a| > 0 && |b| > 0 && a[0] == b[0] {
      StrLeTotal(a[1..], b[1..]);
    }
  }
}
