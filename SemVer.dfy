/** Precedence of Semantic Versioning 2.0.0 version strings, the ordering the
    catalog sorts each package's versions by (app.py:78 calls the `semver`
    library's `compare`). The library itself is not part of this model: this
    module follows the grammar of section 2, 9 and 10 and the precedence rules of
    section 11 of Semantic Versioning 2.0.0 as published, not the library's code. */
module SemVer {
  import opened Wrappers
  import opened Strings

  /** A pre-release identifier (section 9). */
  datatype Ident = Numeric(n: nat) | Alphanumeric(s: string)

  /** A parsed version; build metadata is validated but dropped, because
      section 10 says precedence ignores it. */
  datatype Version = Version(major: nat, minor: nat, patch: nat, pre: seq<Ident>)

  predicate IdentChar(c: char) {
    '0' <= c <= '9' || 'A' <= c <= 'Z' || 'a' <= c <= 'z' || c == '-'
  }

  predicate IdentText(s: string) {
    s != [] && forall i :: 0 <= i < |s| ==> IdentChar(s[i])
  }

  /** A numeric identifier: digits, no leading zero unless it is "0". */
  function ParseNumber(s: string): (r: Option<nat>)
    ensures r.Some? ==> NatDecimal(r.value) == s
  {
    if s != [] && AllDigits(s) && (s[0] != '0' || |s| == 1) then
      DecimalOfDigits(s);
      Some(DigitsValue(s))
    else None
  }

  /** The digits of a numeral without leading zeros are the decimal rendering of its value. */
  lemma {:induction false} DecimalOfDigits(s: string)
    requires s != [] && AllDigits(s) && (s[0] != '0' || |s| == 1)
    ensures NatDecimal(DigitsValue(s)) == s
  {
    if |s| > 1 {
      var init := s[..|s| - 1];
      DecimalOfDigits(init);
      PositiveValue(init);
      var n := DigitsValue(s);
      assert n / 10 == DigitsValue(init);
      assert n % 10 == DigitValue(s[|s| - 1]);
    }
  }

  lemma {:induction false} PositiveValue(s: string)
    requires s != [] && AllDigits(s) && s[0] != '0'
    ensures DigitsValue(s) > 0
  {
    if |s| > 1 {
      PositiveValue(s[..|s| - 1]);
    }
  }

  function ParseIdent(s: string): Option<Ident>
  {
    if !IdentText(s) then None
    else if AllDigits(s) then
      match ParseNumber(s)
      case Some(n) => Some(Numeric(n))
      case None => None
    else Some(Alphanumeric(s))
  }

  function ParsePre(parts: seq<string>): (r: Option<seq<Ident>>)
    ensures r.Some? ==> |r.value| == |parts|
  {
    if parts == [] then Some([])
    else match (ParseIdent(parts[0]), ParsePre(parts[1..]))
      case (Some(x), Some(xs)) => Some([x] + xs)
      case _ => None
  }

  predicate ValidBuild(parts: seq<string>) {
    forall i :: 0 <= i < |parts| ==> IdentText(parts[i])
  }

  /** Parses `MAJOR.MINOR.PATCH[-PRE][+BUILD]`; None when the text is not a
      valid semantic version. */
  function Parse(s: string): Option<Version>
  {
    var (main, build) := match IndexOf(s, '+')
      case None => (s, None)
      case Some(k) => (s[..k], Some(Split(s[k + 1..], '.')));
    var (core, pre) := match IndexOf(main, '-')
      case None => (main, None)
      case Some(k) => (main[..k], Some(Split(main[k + 1..], '.')));
    var nums := Split(core, '.');
    if |nums| != 3 || (build.Some? && !ValidBuild(build.value)) then None
    else match (ParseNumber(nums[0]), ParseNumber(nums[1]), ParseNumber(nums[2]))
      case (Some(x), Some(y), Some(z)) =>
        if pre.None? then Some(Version(x, y, z, []))
        else (match ParsePre(pre.value)
          case Some(ids) => Some(Version(x, y, z, ids))
          case None => None)
      case _ => None
  }

  predicate Valid(s: string) {
    Parse(s).Some?
  }

  function CompareNat(a: nat, b: nat): int {
    if a < b then -1 else if a > b then 1 else 0
  }

  /** Lexical comparison in ASCII order (section 11.4.2). */
  function CompareAscii(a: string, b: string): int
  {
    if a == [] && b == [] then 0
    else if a == [] then -1
    else if b == [] then 1
    else if a[0] < b[0] then -1
    else if a[0] > b[0] then 1
    else CompareAscii(a[1..], b[1..])
  }

  /** Section 11.4.1 - 11.4.3: numbers numerically, numbers below words. */
  function CompareIdent(a: Ident, b: Ident): int
  {
    match (a, b)
    case (Numeric(x), Numeric(y)) => CompareNat(x, y)
    case (Numeric(_), Alphanumeric(_)) => -1
    case (Alphanumeric(_), Numeric(_)) => 1
    case (Alphanumeric(x), Alphanumeric(y)) => CompareAscii(x, y)
  }

  /** Section 11.4: field by field, and a longer list wins when one is a prefix. */
  function ComparePre(a: seq<Ident>, b: seq<Ident>): int
  {
    if a == [] && b == [] then 0
    else if a == [] then -1
    else if b == [] then 1
    else if CompareIdent(a[0], b[0]) != 0 then CompareIdent(a[0], b[0])
    else ComparePre(a[1..], b[1..])
  }

  /** Section 11: major, minor, patch, then a release outranks its pre-releases. */
  function Compare(a: Version, b: Version): int
  {
    if a.major != b.major then CompareNat(a.major, b.major)
    else if a.minor != b.minor then CompareNat(a.minor, b.minor)
    else if a.patch != b.patch then CompareNat(a.patch, b.patch)
    else if a.pre == [] && b.pre == [] then 0
    else if a.pre == [] then 1
    else if b.pre == [] then -1
    else ComparePre(a.pre, b.pre)
  }

  /** The comparator the catalog sorts with, on version strings. Only valid
      strings are ever compared (the catalog fails first otherwise); invalid
      ones compare as ties here. */
  function CompareText(a: string, b: string): int
  {
    match (Parse(a), Parse(b))
    case (Some(x), Some(y)) => Compare(x, y)
    case _ => 0
  }

  // ---- Compare is a total order on parsed versions ----

  lemma {:induction false} CompareAsciiOrder(a: string, b: string)
    ensures CompareAscii(a, b) in {-1, 0, 1}
    ensures CompareAscii(a, b) == 0 <==> a == b
    ensures CompareAscii(b, a) == -CompareAscii(a, b)
  {
    if a != [] && b != [] && a[0] == b[0] {
      CompareAsciiOrder(a[1..], b[1..]);
      if a[1..] == b[1..] {
        assert a == [a[0]] + a[1..] && b == [b[0]] + b[1..];
      }
    }
  }

  lemma {:induction false} CompareAsciiTransitive(a: string, b: string, c: string)
    requires CompareAscii(a, b) <= 0 && CompareAscii(b, c) <= 0
    ensures CompareAscii(a, c) <= 0
  {
    if a != [] && b != [] && c != [] && a[0] == b[0] && b[0] == c[0] {
      CompareAsciiTransitive(a[1..], b[1..], c[1..]);
    }
  }

  lemma CompareIdentOrder(a: Ident, b: Ident)
    ensures CompareIdent(a, b) in {-1, 0, 1}
    ensures CompareIdent(a, b) == 0 <==> a == b
    ensures CompareIdent(b, a) == -CompareIdent(a, b)
  {
    if a.Alphanumeric? && b.Alphanumeric? {
      CompareAsciiOrder(a.s, b.s);
    }
  }

  lemma CompareIdentTransitive(a: Ident, b: Ident, c: Ident)
    requires CompareIdent(a, b) <= 0 && CompareIdent(b, c) <= 0
    ensures CompareIdent(a, c) <= 0
  {
    if a.Alphanumeric? && b.Alphanumeric? && c.Alphanumeric? {
      CompareAsciiTransitive(a.s, b.s, c.s);
    }
  }

  lemma {:induction false} ComparePreOrder(a: seq<Ident>, b: seq<Ident>)
    ensures ComparePre(a, b) in {-1, 0, 1}
    ensures ComparePre(a, b) == 0 <==> a == b
    ensures ComparePre(b, a) == -ComparePre(a, b)
  {
    if a != [] && b != [] {
      CompareIdentOrder(a[0], b[0]);
      if CompareIdent(a[0], b[0]) == 0 {
        ComparePreOrder(a[1..], b[1..]);
        if a[1..] == b[1..] {
          assert a == [a[0]] + a[1..] && b == [b[0]] + b[1..];
        }
      }
    }
  }

  lemma {:induction false} ComparePreTransitive(a: seq<Ident>, b: seq<Ident>, c: seq<Ident>)
    requires ComparePre(a, b) <= 0 && ComparePre(b, c) <= 0
    ensures ComparePre(a, c) <= 0
  {
    if a != [] && b != [] && c != [] {
      CompareIdentOrder(a[0], b[0]);
      CompareIdentOrder(b[0], c[0]);
      CompareIdentOrder(a[0], c[0]);
      CompareIdentTransitive(a[0], b[0], c[0]);
      if CompareIdent(a[0], b[0]) == 0 && CompareIdent(b[0], c[0]) == 0 {
        ComparePreTransitive(a[1..], b[1..], c[1..]);
      }
    }
  }

  /** Precedence is a total order: it ranks every pair one way, equal only for
      equal versions, and is antisymmetric and transitive. */
  lemma CompareOrder(a: Version, b: Version)
    ensures Compare(a, b) in {-1, 0, 1}
    ensures Compare(a, b) == 0 <==> a == b
    ensures Compare(b, a) == -Compare(a, b)
  {
    ComparePreOrder(a.pre, b.pre);
  }

  lemma CompareTransitive(a: Version, b: Version, c: Version)
    requires Compare(a, b) <= 0 && Compare(b, c) <= 0
    ensures Compare(a, c) <= 0
  {
    CompareOrder(a, b);
    CompareOrder(b, c);
    CompareOrder(a, c);
    if a.major == b.major == c.major && a.minor == b.minor == c.minor && a.patch == b.patch == c.patch
       && a.pre != [] && b.pre != [] && c.pre != [] {
      ComparePreTransitive(a.pre, b.pre, c.pre);
    }
  }

  /** On valid version strings the text comparator is a total preorder whose
      ties are exactly the versions that differ at most in build metadata. */
  lemma CompareTextPreorder(a: string, b: string, c: string)
    requires Valid(a) && Valid(b) && Valid(c)
    ensures CompareText(a, a) == 0
    ensures CompareText(b, a) == -CompareText(a, b)
    ensures CompareText(a, b) <= 0 && CompareText(b, c) <= 0 ==> CompareText(a, c) <= 0
    ensures CompareText(a, b) == 0 <==> Parse(a) == Parse(b)
  {
    CompareOrder(Parse(a).value, Parse(a).value);
    CompareOrder(Parse(a).value, Parse(b).value);
    if CompareText(a, b) <= 0 && CompareText(b, c) <= 0 {
      CompareTransitive(Parse(a).value, Parse(b).value, Parse(c).value);
    }
  }
}
