/** String helpers shared by the catalog, the preview router and the e-mail
    codec: prefix/suffix tests, splitting and joining on one separator
    character (Python's `str.split`/`str.join` and JavaScript's
    `String.prototype.split`/`Array.prototype.join` agree on these), trimming,
    and decimal rendering of integers (`str(n)` in Python, `ToString(n)` in
    JavaScript for integers). */
module Strings {
  import opened Wrappers

  predicate StartsWith(s: string, prefix: string) {
    |prefix| <= |s| && s[..|prefix|] == prefix
  }

  predicate EndsWith(s: string, suffix: string) {
    |suffix| <= |s| && s[|s| - |suffix|..] == suffix
  }

  /** Index of the first occurrence of `c` in `s`. */
  function IndexOf(s: string, c: char): (r: Option<nat>)
    ensures r.None? <==> c !in s
    ensures r.Some? ==> r.value < |s| && s[r.value] == c && c !in s[..r.value]
  {
    if s == [] then None
    else if s[0] == c then Some(0)
    else match IndexOf(s[1..], c)
      case None => None
      case Some(k) =>
        assert s[..k + 1] == [s[0]] + s[1..][..k];
        Some(k + 1)
  }

  lemma {:induction false} IndexOfAfter(a: string, c: char, b: string)
    requires c !in a
    ensures IndexOf(a + [c] + b, c) == Some(|a|)
  {
    if a != [] {
      assert (a + [c] + b)[1..] == a[1..] + [c] + b;
      IndexOfAfter(a[1..], c, b);
    }
  }

  /** `s.split(sep)`: the pieces between separators, always at least one. */
  function Split(s: string, sep: char): (r: seq<string>)
    ensures |r| >= 1
    ensures forall i :: 0 <= i < |r| ==> sep !in r[i]
    decreases |s|
  {
    match IndexOf(s, sep)
    case None => [s]
    case Some(k) => [s[..k]] + Split(s[k + 1..], sep)
  }

  /** `sep.join(ts)`. */
  function Join(ts: seq<string>, sep: char): string
  {
    if ts == [] then ""
    else if |ts| == 1 then ts[0]
    else ts[0] + [sep] + Join(ts[1..], sep)
  }

  /** Splitting a join of separator-free pieces gives the pieces back. */
  lemma {:induction false} SplitJoin(ts: seq<string>, sep: char)
    requires |ts| >= 1
    requires forall i :: 0 <= i < |ts| ==> sep !in ts[i]
    ensures Split(Join(ts, sep), sep) == ts
  {
    if |ts| > 1 {
      var rest := Join(ts[1..], sep);
      IndexOfAfter(ts[0], sep, rest);
      var s := ts[0] + [sep] + rest;
      assert s[..|ts[0]|] == ts[0];
      assert s[|ts[0]| + 1..] == rest;
      SplitJoin(ts[1..], sep);
    }
  }

  /** Number of occurrences of `c` in `s`. */
  function Count(s: string, c: char): nat
  {
    if s == [] then 0 else (if s[0] == c then 1 else 0) + Count(s[1..], c)
  }

  lemma {:induction false} CountAppend(a: string, b: string, c: char)
    ensures Count(a + b, c) == Count(a, c) + Count(b, c)
  {
    if a == [] {
      assert a + b == b;
    } else {
      assert (a + b)[1..] == a[1..] + b;
      CountAppend(a[1..], b, c);
    }
  }

  lemma {:induction false} CountAbsent(s: string, c: char)
    requires c !in s
    ensures Count(s, c) == 0
  {
    if s != [] {
      CountAbsent(s[1..], c);
    }
  }

  /** Joining n separator-free pieces puts exactly n - 1 separators in the text. */
  lemma {:induction false} JoinCount(ts: seq<string>, sep: char)
    requires |ts| >= 1
    requires forall i :: 0 <= i < |ts| ==> sep !in ts[i]
    ensures Count(Join(ts, sep), sep) == |ts| - 1
  {
    CountAbsent(ts[0], sep);
    if |ts| > 1 {
      JoinCount(ts[1..], sep);
      CountAppend(ts[0], [sep], sep);
      CountAppend(ts[0] + [sep], Join(ts[1..], sep), sep);
    }
  }

  /** Drops the leading characters that satisfy `drop`. */
  function TrimLeft(s: string, drop: char -> bool): (r: string)
    ensures |r| <= |s| && r == s[|s| - |r|..]
    ensures r == [] || !drop(r[0])
    ensures forall i :: 0 <= i < |s| - |r| ==> drop(s[i])
  {
    if s != [] && drop(s[0]) then TrimLeft(s[1..], drop) else s
  }

  /** Drops the trailing characters that satisfy `drop` (Python's `rstrip`). */
  function TrimRight(s: string, drop: char -> bool): (r: string)
    ensures |r| <= |s| && r == s[..|r|]
    ensures r == [] || !drop(r[|r| - 1])
    ensures forall i :: |r| <= i < |s| ==> drop(s[i])
  {
    if s != [] && drop(s[|s| - 1]) then TrimRight(s[..|s| - 1], drop) else s
  }

  /** Python's `strip(chars)`: both ends. */
  function Trim(s: string, drop: char -> bool): string
  {
    TrimRight(TrimLeft(s, drop), drop)
  }

  predicate IsDigit(c: char) {
    '0' <= c <= '9'
  }

  function DigitChar(d: nat): (c: char)
    requires d < 10
    ensures IsDigit(c)
  {
    (d + '0' as int) as char
  }

  function DigitValue(c: char): (d: nat)
    requires IsDigit(c)
    ensures d < 10 && DigitChar(d) == c
  {
    (c as int) - ('0' as int)
  }

  predicate AllDigits(s: string) {
    forall i :: 0 <= i < |s| ==> IsDigit(s[i])
  }

  /** The decimal digits of `n`, without leading zeros. */
  function NatDecimal(n: nat): (r: string)
    ensures r != [] && AllDigits(r)
    ensures r[0] == '0' ==> n == 0 && |r| == 1
    decreases n
  {
    if n < 10 then [DigitChar(n)] else NatDecimal(n / 10) + [DigitChar(n % 10)]
  }

  /** `str(n)` for a Python int, `String(n)` for a JavaScript integer. */
  function IntDecimal(n: int): string
  {
    if n < 0 then "-" + NatDecimal(-n) else NatDecimal(n)
  }

  /** The value of a string of decimal digits (empty reads as 0). */
  function DigitsValue(s: string): nat
    requires AllDigits(s)
  {
    if s == [] then 0 else DigitsValue(s[..|s| - 1]) * 10 + DigitValue(s[|s| - 1])
  }

  lemma {:induction false} DigitsValueOfDecimal(n: nat)
    ensures DigitsValue(NatDecimal(n)) == n
    decreases n
  {
    if n >= 10 {
      DigitsValueOfDecimal(n / 10);
      assert NatDecimal(n)[..|NatDecimal(n)| - 1] == NatDecimal(n / 10);
    }
  }

  /** The rendering of an integer is made of digits and an optional leading minus:
      it never holds a dot. */
  lemma IntDecimalHasNoDot(n: int)
    ensures '.' !in IntDecimal(n)
    ensures IntDecimal(n) != []
  {
    var r := IntDecimal(n);
    if n < 0 {
      var d := NatDecimal(-n);
      assert forall i :: 1 <= i < |r| ==> r[i] == d[i - 1];
    }
  }
}
