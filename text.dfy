/** Character classes, case mapping, stripping, lexicographic order and decimal text,
    as the Python string operations used by the program define them (on ASCII). */
module Text {
  import opened Wrappers

  // ---- Character classes --------------------------------------------------------------

  predicate IsDigit(c: char) { '0' <= c <= '9' }
  predicate IsUpper(c: char) { 'A' <= c <= 'Z' }
  predicate IsLower(c: char) { 'a' <= c <= 'z' }
  predicate IsLetter(c: char) { IsUpper(c) || IsLower(c) }

  /** `\w` of Python's `re` module: letters, digits and the underscore. */
  predicate IsWordChar(c: char) { IsLetter(c) || IsDigit(c) || c == '_' }

  /** `\s` of Python's `re` module and the default set of `str.strip()`. */
  predicate IsSpace(c: char) {
    c == ' ' || c == '\t' || c == '\n' || c == '\r' || c == '\U{0B}' || c == '\U{0C}'
    || ('\U{1C}' <= c <= '\U{1F}')
  }

  // ---- Case mapping -------------------------------------------------------------------

  function LowerChar(c: char): (r: char)
    ensures !IsUpper(r)
    ensures IsLetter(c) <==> IsLetter(r)
    ensures IsDigit(c) <==> IsDigit(r)
    ensures IsSpace(c) <==> IsSpace(r)
    ensures c == r || IsUpper(c)
  {
    if IsUpper(c) then (c as int + 32) as char else c
  }

  function UpperChar(c: char): (r: char)
    ensures !IsLower(r)
    ensures c == r || IsLower(c)
  {
    if IsLower(c) then (c as int - 32) as char else c
  }

  /** `str.lower()` and SQLite's `LOWER()`, both on ASCII letters. */
  function Lower(s: string): (r: string)
    ensures |r| == |s|
    ensures forall i :: 0 <= i < |s| ==> r[i] == LowerChar(s[i])
  {
    seq(|s|, i requires 0 <= i < |s| => LowerChar(s[i]))
  }

  /** `str.upper()` on ASCII letters. */
  function Upper(s: string): (r: string)
    ensures |r| == |s|
    ensures forall i :: 0 <= i < |s| ==> r[i] == UpperChar(s[i])
  {
    seq(|s|, i requires 0 <= i < |s| => UpperChar(s[i]))
  }

  /** `str.replace(a, b)` for single characters. */
  function ReplaceChar(s: string, from: char, to: char): (r: string)
    ensures |r| == |s|
    ensures forall i :: 0 <= i < |s| ==> r[i] == (if s[i] == from then to else s[i])
  {
    seq(|s|, i requires 0 <= i < |s| => if s[i] == from then to else s[i])
  }

  // ---- Stripping ----------------------------------------------------------------------

  function StripLeft(s: string, drop: char -> bool): (r: string)
    ensures |r| <= |s| && r == s[|s| - |r|..]
    ensures r == [] || !drop(r[0])
    ensures forall i :: 0 <= i < |s| - |r| ==> drop(s[i])
  {
    if s != [] && drop(s[0]) then StripLeft(s[1..], drop) else s
  }

  function StripRight(s: string, drop: char -> bool): (r: string)
    ensures |r| <= |s| && r == s[..|r|]
    ensures r == [] || !drop(r[|r| - 1])
    ensures forall i :: |r| <= i < |s| ==> drop(s[i])
  {
    if s != [] && drop(s[|s| - 1]) then StripRight(s[..|s| - 1], drop) else s
  }

  /** `str.strip(chars)`: the longest middle slice whose two ends are kept characters. */
  function Strip(s: string, drop: char -> bool): (r: string)
    ensures r == [] || (!drop(r[0]) && !drop(r[|r| - 1]))
  {
    var l := StripLeft(s, drop);
    var r := StripRight(l, drop);
    assert r == [] || r[0] == l[0];
    r
  }

  /** What `strip` keeps is one slice of the input. */
  lemma StripIsSlice(s: string, drop: char -> bool)
    ensures exists i :: OccursAt(s, Strip(s, drop), i)
  {
    var l := StripLeft(s, drop);
    var r := Strip(s, drop);
    var k := |s| - |l|;
    assert l == s[k..] && r == StripRight(l, drop) && r == l[..|r|];
    assert s[k..][..|r|] == s[k..k + |r|];
    assert OccursAt(s, r, k);
  }

  predicate IsSpaceOrHyphen(c: char) { c == ' ' || c == '-' }

  // ---- Substrings ---------------------------------------------------------------------

  predicate OccursAt(s: string, sub: string, i: int) {
    0 <= i <= |s| - |sub| && s[i..i + |sub|] == sub
  }

  /** Python's `sub in s`. */
  predicate Contains(s: string, sub: string) {
    exists i | 0 <= i <= |s| - |sub| :: OccursAt(s, sub, i)
  }

  /** `str.startswith(prefix)`. */
  predicate StartsWith(s: string, prefix: string) {
    |prefix| <= |s| && s[..|prefix|] == prefix
  }

  /** `sep.join(parts)`. */
  function Join(parts: seq<string>, sep: string): string {
    if parts == [] then ""
    else if |parts| == 1 then parts[0]
    else parts[0] + sep + Join(parts[1..], sep)
  }

  // ---- Lexicographic order (Python `str` comparison, SQLite BINARY collation) ---------

  predicate StrLe(a: string, b: string) {
    if a == [] then true
    else if b == [] then false
    else a[0] < b[0] || (a[0] == b[0] && StrLe(a[1..], b[1..]))
  }

  lemma {:induction false} StrLeTotal(a: string, b: string)
    ensures StrLe(a, b) || StrLe(b, a)
  {
    if a != [] && b != [] && a[0] == b[0] {
      StrLeTotal(a[1..], b[1..]);
    }
  }

  lemma {:induction false} StrLeTransitive(a: string, b: string, c: string)
    requires StrLe(a, b) && StrLe(b, c)
    ensures StrLe(a, c)
  {
    if a != [] && b != [] && c != [] && a[0] == b[0] && b[0] == c[0] {
      StrLeTransitive(a[1..], b[1..], c[1..]);
    }
  }

  lemma {:induction false} StrLeAntisymmetric(a: string, b: string)
    requires StrLe(a, b) && StrLe(b, a)
    ensures a == b
  {
    if a != [] && b != [] {
      StrLeAntisymmetric(a[1..], b[1..]);
      assert a == [a[0]] + a[1..] && b == [b[0]] + b[1..];
    }
  }

  // ---- Decimal text -------------------------------------------------------------------

  function DigitChar(d: nat): (c: char)
    requires d < 10
    ensures IsDigit(c)
  {
    ('0' as int + d) as char
  }

  function DigitValue(c: char): (d: nat)
    requires IsDigit(c)
    ensures d < 10
  {
    c as int - '0' as int
  }

  predicate AllDigits(s: string) {
    forall i :: 0 <= i < |s| ==> IsDigit(s[i])
  }

  /** `str(n)` for a natural number. */
  function NatToString(n: nat): (r: string)
    ensures |r| >= 1 && AllDigits(r)
    decreases n
  {
    if n < 10 then [DigitChar(n)] else NatToString(n / 10) + [DigitChar(n % 10)]
  }

  /** The number a run of decimal digits denotes (leading zeros allowed). */
  function DigitsValue(s: string): nat
    requires AllDigits(s)
  {
    if s == [] then 0 else DigitsValue(s[..|s| - 1]) * 10 + DigitValue(s[|s| - 1])
  }

  lemma {:induction false} NatToStringRoundTrip(n: nat)
    ensures DigitsValue(NatToString(n)) == n
  {
    if n >= 10 {
      var s := NatToString(n / 10);
      NatToStringRoundTrip(n / 10);
      assert (s + [DigitChar(n % 10)])[..|s|] == s;
    }
  }

  /** `str(i)` for any integer. */
  function IntToString(i: int): (r: string)
    ensures |r| >= 1
  {
    if i < 0 then "-" + NatToString(-i) else NatToString(i)
  }

  /** `f"{n:02d}"`: zero-padded to at least two characters. */
  function Pad2(n: int): (r: string)
    ensures |r| >= 2
  {
    if 0 <= n < 10 then "0" + NatToString(n)
    else if n < 0 then IntToString(n)
    else NatToString(n)
  }

  /** An optional sign followed by one or more digits, and nothing else. */
  function ParseSignedDigits(t: string): Option<int>
  {
    if |t| > 0 && (t[0] == '-' || t[0] == '+') then
      if |t| > 1 && AllDigits(t[1..]) then
        var v: int := DigitsValue(t[1..]);
        Some(if t[0] == '-' then -v else v)
      else None
    else if |t| > 0 && AllDigits(t) then Some(DigitsValue(t))
    else None
  }

  /** Python's `int(s)` on a `str`, restricted to ASCII digits without `_` separators:
      surrounding whitespace, an optional sign, then digits; `None` where Python raises
      `ValueError` (and also for `"1_000"`, which Python accepts). */
  function ParseInt(s: string): Option<int>
  {
    ParseSignedDigits(Strip(s, IsSpace))
  }

  lemma NoSpaceStripsToSelf(s: string)
    requires forall i :: 0 <= i < |s| ==> !IsSpace(s[i])
    ensures Strip(s, IsSpace) == s
  {
    var l := StripLeft(s, IsSpace);
    assert l == s;
  }

  lemma ParseIntOfDigits(digits: string)
    requires |digits| >= 1 && AllDigits(digits)
    ensures ParseInt(digits) == Some(DigitsValue(digits))
  {
    NoSpaceStripsToSelf(digits);
    assert ParseInt(digits) == ParseSignedDigits(digits);
    assert !(digits[0] == '-' || digits[0] == '+');
  }

  lemma ParseSignedOfNegative(t: string)
    requires |t| > 1 && t[0] == '-' && AllDigits(t[1..])
    ensures ParseSignedDigits(t) == Some(-(DigitsValue(t[1..]) as int))
  {
  }

  /** `int(str(i)) == i`. */
  lemma IntToStringRoundTrip(i: int)
    ensures ParseInt(IntToString(i)) == Some(i)
  {
    var n: nat := if i < 0 then -i else i;
    NatToStringRoundTrip(n);
    var d := NatToString(n);
    if i < 0 {
      var t := IntToString(i);
      assert t == "-" + d && t[1..] == d;
      forall k | 0 <= k < |t|
        ensures !IsSpace(t[k])
      {
        if k > 0 {
          assert t[k] == d[k - 1];
        }
      }
      NoSpaceStripsToSelf(t);
      ParseSignedOfNegative(t);
    } else {
      ParseIntOfDigits(d);
    }
  }

  // ---- Scanning -----------------------------------------------------------------------

  /** The length of the longest prefix of `s` whose characters all satisfy `p`: what a
      greedy `p+` or `p*` consumes. */
  function Run(s: string, p: char -> bool): (n: nat)
    ensures n <= |s|
    ensures forall i :: 0 <= i < n ==> p(s[i])
    ensures n == |s| || !p(s[n])
  {
    if s != [] && p(s[0]) then 1 + Run(s[1..], p) else 0
  }

  /** A run followed by a character outside the class is read in full. */
  lemma {:induction false} RunOfPrefix(x: string, y: string, p: char -> bool)
    requires forall i :: 0 <= i < |x| ==> p(x[i])
    requires y == [] || !p(y[0])
    ensures Run(x + y, p) == |x|
  {
    if x != [] {
      assert (x + y)[1..] == x[1..] + y;
      RunOfPrefix(x[1..], y, p);
    }
  }

  /** `\d+` at the start of `s`: its value and the text after it. */
  function Digits(s: string): (r: Option<(nat, string)>)
    ensures r.Some? ==> |r.value.1| < |s|
  {
    var n := Run(s, IsDigit);
    if n == 0 then None else Some((DigitsValue(s[..n]), s[n..]))
  }

  lemma DigitsOf(d: string, rest: string)
    requires |d| >= 1 && AllDigits(d)
    requires rest == [] || !IsDigit(rest[0])
    ensures Digits(d + rest) == Some((DigitsValue(d), rest))
  {
    RunOfPrefix(d, rest, IsDigit);
    assert (d + rest)[..|d|] == d;
    assert (d + rest)[|d|..] == rest;
  }

  /** `re.sub(r'<sep>+', into, s)`: every maximal run of characters satisfying `sep`
      becomes the single character `into`. */
  function CollapseRuns(s: string, sep: char -> bool, into: char): (r: string)
    ensures |r| <= |s|
    ensures r != [] && sep(s[0]) ==> r[0] == into
    ensures r != [] && !sep(s[0]) ==> r[0] == s[0]
    decreases |s|
  {
    if s == [] then []
    else if sep(s[0]) then [into] + CollapseRuns(StripLeft(s[1..], sep), sep, into)
    else [s[0]] + CollapseRuns(s[1..], sep, into)
  }

  /** Each run character of the result is `into`, and no two run characters touch. */
  predicate SingleRuns(r: string, sep: char -> bool, into: char) {
    && (forall i :: 0 <= i < |r| && sep(r[i]) ==> r[i] == into)
    && (forall i :: 0 <= i < |r| - 1 ==> !(sep(r[i]) && sep(r[i + 1])))
  }

  /** One character in front of single runs keeps them single, unless it starts a
      second run character beside the first. */
  lemma ConsSingle(x: char, c: string, sep: char -> bool, into: char)
    requires SingleRuns(c, sep, into)
    requires sep(x) ==> x == into && (c == [] || !sep(c[0]))
    ensures SingleRuns([x] + c, sep, into)
  {
    var r := [x] + c;
    forall i | 1 <= i < |r| ensures r[i] == c[i - 1] {}
  }

  lemma SingleRunsTail(s: string, sep: char -> bool, into: char)
    requires |s| >= 1 && SingleRuns(s, sep, into)
    ensures SingleRuns(s[1..], sep, into)
  {
    forall i | 0 <= i < |s[1..]| ensures s[1..][i] == s[i + 1] {}
  }

  /** Collapsing leaves single runs. */
  lemma {:induction false} CollapseRunsSingle(s: string, sep: char -> bool, into: char)
    requires sep(into)
    ensures SingleRuns(CollapseRuns(s, sep, into), sep, into)
    decreases |s|
  {
    if s != [] {
      if sep(s[0]) {
        var t := StripLeft(s[1..], sep);
        CollapseRunsSingle(t, sep, into);
        ConsSingle(into, CollapseRuns(t, sep, into), sep, into);
      } else {
        CollapseRunsSingle(s[1..], sep, into);
        ConsSingle(s[0], CollapseRuns(s[1..], sep, into), sep, into);
      }
    }
  }

  /** Text that already has single runs is left as it is. */
  lemma {:induction false} CollapseRunsOfSingle(s: string, sep: char -> bool, into: char)
    requires SingleRuns(s, sep, into)
    ensures CollapseRuns(s, sep, into) == s
    decreases |s|
  {
    if s != [] {
      SingleRunsTail(s, sep, into);
      CollapseRunsOfSingle(s[1..], sep, into);
      if sep(s[0]) {
        assert s[1..] == [] || !sep(s[1]);
        assert StripLeft(s[1..], sep) == s[1..];
      }
    }
  }

  lemma ConcatAssoc<T>(a: seq<T>, b: seq<T>, c: seq<T>)
    ensures a + b + c == a + (b + c)
  {
  }

  /** Text with no dropped character at either end is its own strip. */
  lemma StripOfTrimmed(s: string, drop: char -> bool)
    requires s == [] || (!drop(s[0]) && !drop(s[|s| - 1]))
    ensures Strip(s, drop) == s
  {
    assert StripLeft(s, drop) == s;
    assert StripRight(s, drop) == s;
  }

  /** A dropped character in front is stripped away. */
  lemma StripLeftCons(c: char, s: string, drop: char -> bool)
    requires drop(c)
    ensures StripLeft([c] + s, drop) == StripLeft(s, drop)
  {
    assert ([c] + s)[1..] == s;
  }

  /** Stripping keeps every property all characters had. */
  lemma StripKeeps(s: string, drop: char -> bool, ok: char -> bool)
    requires forall i :: 0 <= i < |s| ==> ok(s[i])
    ensures forall i :: 0 <= i < |Strip(s, drop)| ==> ok(Strip(s, drop)[i])
  {
    var r := Strip(s, drop);
    StripIsSlice(s, drop);
    var k :| OccursAt(s, r, k);
    forall i | 0 <= i < |r| ensures r[i] == s[k + i] {}
  }
}
