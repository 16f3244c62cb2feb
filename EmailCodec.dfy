/** The e-mail obfuscation of the site: `encode_email` (a Jinja2 global in
    app.py) and `encodeEmail` in the browser script turn each character
    into an integer offset by position, joined with '.'; `decodeEmail`
    undoes it in the browser. A JavaScript string is a sequence of UTF-16
    code units, a Python string a sequence of code points; the encoded text
    is ASCII. JavaScript's NaN is `None` in an `Option<int>`. */
module EmailCodec {
  import opened Wrappers
  import opened Strings

  const EvenOffset: int := 0x66ccff
  const OddOffset: int := 0xee0000

  /** What `charCodeAt` returns. */
  type CodeUnit = n: int | 0 <= n < 0x1_0000
  /** What Python's `ord` returns. */
  type CodePoint = n: int | 0 <= n < 0x11_0000

  // ---- Encoding ----

  /** The integer written for the character code `code` at position `i`. */
  function Token(i: nat, code: int): int {
    if i % 2 == 0 then code + EvenOffset else code - OddOffset
  }

  function Tokens(codes: seq<int>): seq<int>
  {
    if codes == [] then [] else Tokens(codes[..|codes| - 1]) + [Token(|codes| - 1, codes[|codes| - 1])]
  }

  /** `str(r)` / `String(r)` of every token. */
  function Decimals(ns: seq<int>): seq<string>
  {
    if ns == [] then [] else Decimals(ns[..|ns| - 1]) + [IntDecimal(ns[|ns| - 1])]
  }

  /** The encoded text of a sequence of character codes. */
  function Encode(codes: seq<int>): string {
    Join(Decimals(Tokens(codes)), '.')
  }

  /** `encodeEmail(text)`: the tokens are stored into an array slot by slot
      and joined. */
  method EncodeEmail(text: seq<CodeUnit>) returns (r: string)
    ensures r == Encode(text)
  {
    var result := new int[|text|];
    for i := 0 to |text|
      invariant result[..i] == Tokens(text[..i])
    {
      assert text[..i + 1] == text[..i] + [text[i]];
      if i % 2 == 0 {
        result[i] := text[i] + EvenOffset;
      } else {
        result[i] := text[i] - OddOffset;
      }
      assert result[..i + 1] == result[..i] + [result[i]];
    }
    assert text[..|text|] == text;
    assert result[..] == result[..|text|];
    r := Join(Decimals(result[..]), '.');
  }

  /** `encode_email(email)`: the tokens are appended to a list and joined. */
  method EncodeEmailPy(email: seq<CodePoint>) returns (r: string)
    ensures r == Encode(email)
  {
    var result: seq<int> := [];
    var i := 0;
    while i < |email|
      invariant 0 <= i <= |email|
      invariant result == Tokens(email[..i])
    {
      assert email[..i + 1] == email[..i] + [email[i]];
      var code := email[i];
      if i % 2 == 0 {
        result := result + [code + EvenOffset];
      } else {
        result := result + [code - OddOffset];
      }
      i := i + 1;
    }
    assert email[..i] == email;
    r := Join(Decimals(result), '.');
  }

  lemma {:induction false} TokensAt(codes: seq<int>)
    ensures |Tokens(codes)| == |codes|
    ensures forall i :: 0 <= i < |codes| ==> Tokens(codes)[i] == Token(i, codes[i])
  {
    if codes != [] {
      TokensAt(codes[..|codes| - 1]);
    }
  }

  lemma {:induction false} DecimalsAt(ns: seq<int>)
    ensures |Decimals(ns)| == |ns|
    ensures forall i :: 0 <= i < |ns| ==> Decimals(ns)[i] == IntDecimal(ns[i])
  {
    if ns != [] {
      DecimalsAt(ns[..|ns| - 1]);
    }
  }

  /** Even positions give at least 0x66ccff, odd positions a negative number
      (for every code point, so for every code unit too). */
  lemma TokenSigns(i: nat, code: CodePoint)
    ensures i % 2 == 0 ==> Token(i, code) >= EvenOffset
    ensures i % 2 == 1 ==> Token(i, code) < 0
  {
  }

  /** No token's rendering holds a '.', so the tokens can be read back by
      splitting on '.'. */
  lemma {:induction false} SplitEncoded(codes: seq<int>)
    requires codes != []
    ensures Split(Encode(codes), '.') == Decimals(Tokens(codes))
  {
    var ds := Decimals(Tokens(codes));
    TokensAt(codes);
    DecimalsAt(Tokens(codes));
    forall i | 0 <= i < |ds|
      ensures '.' !in ds[i]
    {
      IntDecimalHasNoDot(Tokens(codes)[i]);
    }
    SplitJoin(ds, '.');
  }

  /** The text has one '.' fewer than there are characters, and the empty
      text encodes to the empty text. */
  lemma EncodeDots(codes: seq<int>)
    ensures codes == [] ==> Encode(codes) == ""
    ensures codes != [] ==> Count(Encode(codes), '.') == |codes| - 1
  {
    if codes != [] {
      var ds := Decimals(Tokens(codes));
      TokensAt(codes);
      DecimalsAt(Tokens(codes));
      forall i | 0 <= i < |ds|
        ensures '.' !in ds[i]
      {
        IntDecimalHasNoDot(Tokens(codes)[i]);
      }
      JoinCount(ds, '.');
    }
  }

  // ---- parseInt ----

  /** The white space and line terminators `parseInt` skips. */
  predicate JsWhitespace(c: char) {
    var n := c as int;
    || 0x09 <= n <= 0x0D || n == 0x20 || n == 0xA0 || n == 0x1680
    || 0x2000 <= n <= 0x200A || n == 0x2028 || n == 0x2029
    || n == 0x202F || n == 0x205F || n == 0x3000 || n == 0xFEFF
  }

  /** The value of `c` as a digit in base `radix` (10 or 16), if it is one. */
  function RadixDigit(c: char, radix: nat): (d: Option<nat>)
    ensures d.Some? ==> d.value < radix || d.value < 16
  {
    if '0' <= c <= '9' && (c as int) - ('0' as int) < radix then Some((c as int) - ('0' as int))
    else if radix == 16 && 'a' <= c <= 'f' then Some((c as int) - ('a' as int) + 10)
    else if radix == 16 && 'A' <= c <= 'F' then Some((c as int) - ('A' as int) + 10)
    else None
  }

  /** The longest prefix of `s` made of digits in base `radix`. */
  function RadixPrefix(s: string, radix: nat): (r: string)
    ensures StartsWith(s, r)
    ensures forall i :: 0 <= i < |r| ==> RadixDigit(r[i], radix).Some?
    ensures |r| < |s| ==> RadixDigit(s[|r|], radix).None?
  {
    if s != [] && RadixDigit(s[0], radix).Some? then [s[0]] + RadixPrefix(s[1..], radix) else []
  }

  /** The value of a run of digits in base `radix` (a character that is not
      a digit counts as 0; `RadixPrefix` never lets one through). */
  function RadixValue(digits: string, radix: nat): nat
  {
    if digits == [] then 0
    else
      var d := match RadixDigit(digits[|digits| - 1], radix) case Some(d) => d case None => 0;
      RadixValue(digits[..|digits| - 1], radix) * radix + d
  }

  /** `parseInt(s)` with no radix: leading white space, an optional sign, an
      optional `0x`/`0X` that switches to base 16, then the longest run of
      digits; NaN when that run is empty. */
  function ParseInt(s: string): Option<int> {
    if s != [] && JsWhitespace(s[0]) then ParseInt(s[1..]) else ParseSigned(s)
  }

  function ParseSigned(t: string): Option<int> {
    if t != [] && t[0] == '-' then
      (match ParseUnsigned(t[1..]) case None => None case Some(m) => Some(-m))
    else if t != [] && t[0] == '+' then ParseUnsigned(t[1..])
    else ParseUnsigned(t)
  }

  function ParseUnsigned(u: string): Option<int> {
    if |u| >= 2 && u[0] == '0' && (u[1] == 'x' || u[1] == 'X') then ParseDigits(u[2..], 16)
    else ParseDigits(u, 10)
  }

  function ParseDigits(v: string, radix: nat): Option<int> {
    var digits := RadixPrefix(v, radix);
    if digits == [] then None else Some(RadixValue(digits, radix))
  }

  lemma {:induction false} RadixPrefixOfDigits(s: string)
    requires AllDigits(s)
    ensures RadixPrefix(s, 10) == s
  {
    if s != [] {
      RadixPrefixOfDigits(s[1..]);
    }
  }

  lemma {:induction false} RadixValueOfDigits(s: string)
    requires AllDigits(s)
    ensures RadixValue(s, 10) == DigitsValue(s)
  {
    if s != [] {
      RadixValueOfDigits(s[..|s| - 1]);
    }
  }

  /** `parseInt` reads the decimal rendering of a natural number back. */
  lemma NatDecimalParses(m: nat)
    ensures RadixPrefix(NatDecimal(m), 10) == NatDecimal(m)
    ensures RadixValue(RadixPrefix(NatDecimal(m), 10), 10) == m
  {
    var u := NatDecimal(m);
    RadixPrefixOfDigits(u);
    RadixValueOfDigits(u);
    DigitsValueOfDecimal(m);
  }

  /** `parseInt(String(n)) == n` for every integer. */
  lemma ParseIntOfDecimal(n: int)
    ensures ParseInt(IntDecimal(n)) == Some(n)
  {
    var s := IntDecimal(n);
    var m := if n < 0 then -n else n;
    var u := NatDecimal(m);
    assert !JsWhitespace(s[0]);
    NatDecimalParses(m);
    assert ParseDigits(u, 10) == Some(m);
    assert u[0] == '0' ==> |u| == 1;
    assert ParseUnsigned(u) == Some(m);
    if n < 0 {
      assert s[1..] == u;
    }
  }

  // ---- Decoding ----

  /** `String.fromCharCode(x)`: ToUint16, with NaN read as 0. */
  function FromCharCode(x: Option<int>): (c: CodeUnit)
    ensures x.Some? && 0 <= x.value < 0x1_0000 ==> c == x.value
    ensures x.None? ==> c == 0
  {
    match x
    case None => 0
    case Some(n) => n % 0x1_0000
  }

  /** The character code read back from a token at position `i`; NaN stays NaN. */
  function Untoken(i: nat, x: Option<int>): Option<int> {
    match x
    case None => None
    case Some(t) => Some(if i % 2 == 0 then t - EvenOffset else t + OddOffset)
  }

  /** The character a piece at position `i` decodes to. */
  function DecodeToken(i: nat, piece: string): CodeUnit {
    FromCharCode(Untoken(i, ParseInt(piece)))
  }

  function DecodeAll(numbers: seq<string>): seq<CodeUnit>
  {
    if numbers == [] then []
    else DecodeAll(numbers[..|numbers| - 1]) + [DecodeToken(|numbers| - 1, numbers[|numbers| - 1])]
  }

  /** The decoded text of `data`. */
  function Decode(data: string): seq<CodeUnit> {
    DecodeAll(Split(data, '.'))
  }

  /** `decodeEmail(data)`: one character per '.'-separated piece, appended in
      order. */
  method DecodeEmail(data: string) returns (r: seq<CodeUnit>)
    ensures r == Decode(data)
  {
    var numbers := Split(data, '.');
    r := [];
    for i := 0 to |numbers|
      invariant r == DecodeAll(numbers[..i])
    {
      DecodeAllSnoc(numbers, i);
      var n := ParseInt(numbers[i]);
      UntokenCases(i, n);
      var code: Option<int>;
      if i % 2 == 0 {
        code := if n.Some? then Some(n.value - EvenOffset) else None;
      } else {
        code := if n.Some? then Some(n.value + OddOffset) else None;
      }
      r := r + [FromCharCode(code)];
    }
    DecodeAllWhole(numbers);
  }

  lemma DecodeAllWhole(numbers: seq<string>)
    ensures DecodeAll(numbers[..|numbers|]) == DecodeAll(numbers)
  {
    assert numbers[..|numbers|] == numbers;
  }

  lemma UntokenCases(i: nat, n: Option<int>)
    ensures i % 2 == 0 ==> Untoken(i, n) == if n.Some? then Some(n.value - EvenOffset) else None
    ensures i % 2 == 1 ==> Untoken(i, n) == if n.Some? then Some(n.value + OddOffset) else None
  {
  }

  lemma DecodeAllSnoc(numbers: seq<string>, i: nat)
    requires i < |numbers|
    ensures DecodeAll(numbers[..i + 1]) == DecodeAll(numbers[..i]) + [FromCharCode(Untoken(i, ParseInt(numbers[i])))]
  {
    assert numbers[..i + 1][..i] == numbers[..i];
  }

  lemma {:induction false} DecodeAllAt(numbers: seq<string>)
    ensures |DecodeAll(numbers)| == |numbers|
    ensures forall i :: 0 <= i < |numbers| ==>
      DecodeAll(numbers)[i] == DecodeToken(i, numbers[i])
  {
    if numbers != [] {
      var n := |numbers| - 1;
      DecodeAllAt(numbers[..n]);
      assert DecodeAll(numbers) == DecodeAll(numbers[..n]) + [DecodeToken(n, numbers[n])];
      forall i | 0 <= i < |numbers|
        ensures DecodeAll(numbers)[i] == DecodeToken(i, numbers[i])
      {
        if i < n {
          assert numbers[..n][i] == numbers[i];
        }
      }
    }
  }

  /** A token decodes to the character code it was made from, reduced to
      16 bits. */
  lemma DecodeTokenOf(i: nat, code: int)
    ensures DecodeToken(i, IntDecimal(Token(i, code))) == code % 0x1_0000
  {
    ParseIntOfDecimal(Token(i, code));
  }

  /** Each position decodes to its character code reduced to 16 bits. */
  lemma DecodeEncoded(codes: seq<int>)
    requires codes != []
    ensures |Decode(Encode(codes))| == |codes|
    ensures forall i :: 0 <= i < |codes| ==> Decode(Encode(codes))[i] == codes[i] % 0x1_0000
  {
    SplitEncoded(codes);
    var ts := Tokens(codes);
    var ds := Decimals(ts);
    TokensAt(codes);
    DecimalsAt(ts);
    DecodeAllAt(ds);
    assert Decode(Encode(codes)) == DecodeAll(ds);
    forall i | 0 <= i < |codes|
      ensures DecodeAll(ds)[i] == codes[i] % 0x1_0000
    {
      DecodeTokenOf(i, codes[i]);
    }
  }

  lemma SmallCodeUnchanged(code: int)
    requires 0 <= code < 0x1_0000
    ensures code % 0x1_0000 == code
  {
  }

  /** `decodeEmail(encodeEmail(s)) == s` for every non-empty JavaScript string. */
  lemma RoundTrip(text: seq<CodeUnit>)
    requires text != []
    ensures Decode(Encode(text)) == text
  {
    DecodeEncoded(text);
    var d := Decode(Encode(text));
    forall i | 0 <= i < |text|
      ensures d[i] == text[i]
    {
      SmallCodeUnchanged(text[i]);
    }
  }

  /** The empty text does not round-trip: it decodes to one NUL character. */
  lemma DecodeEmpty()
    ensures Encode([]) == ""
    ensures Decode("") == [0]
  {
    assert Split("", '.') == [""];
    ParseIntEmpty();
    assert DecodeAll([""]) == [DecodeToken(0, "")];
  }

  /** `parseInt("")` is NaN. */
  lemma ParseIntEmpty()
    ensures ParseInt("") == None
  {
    assert ParseDigits("", 10) == None;
  }

  // ---- Python and JavaScript strings ----

  /** The UTF-16 code units of a Python string, as the browser sees it. */
  function Utf16(cps: seq<CodePoint>): (units: seq<CodeUnit>)
    ensures |units| >= |cps|
  {
    if cps == [] then []
    else
      var cp := cps[|cps| - 1];
      Utf16(cps[..|cps| - 1])
        + (if cp < 0x1_0000 then [cp]
           else [0xD800 + (cp - 0x1_0000) / 0x400, 0xDC00 + (cp - 0x1_0000) % 0x400])
  }

  predicate AllBasic(cps: seq<CodePoint>) {
    forall i :: 0 <= i < |cps| ==> cps[i] < 0x1_0000
  }

  /** A string of code points below 0x10000 is the same sequence of UTF-16
      code units; one with a code point above makes a longer one. */
  lemma {:induction false} Utf16Length(cps: seq<CodePoint>)
    ensures AllBasic(cps) ==> Utf16(cps) == cps
    ensures !AllBasic(cps) ==> |Utf16(cps)| > |cps|
  {
    if cps != [] {
      var init := cps[..|cps| - 1];
      Utf16Length(init);
      if AllBasic(cps) {
        assert AllBasic(init);
      } else if AllBasic(init) {
        assert cps[|cps| - 1] >= 0x1_0000;
      }
    }
  }

  /** `encode_email` and `encodeEmail` write the same text for a string of
      code points below 0x10000; with any code point above, the browser's
      version writes more tokens. */
  lemma PythonMatchesBrowser(cps: seq<CodePoint>)
    ensures AllBasic(cps) ==> Encode(Utf16(cps)) == Encode(cps)
    ensures !AllBasic(cps) ==> Count(Encode(Utf16(cps)), '.') > Count(Encode(cps), '.')
  {
    Utf16Length(cps);
    EncodeDots(cps);
    EncodeDots(Utf16(cps));
  }

  /** What the page shows: `decodeEmail` on the text `encode_email` wrote
      gives the address back exactly when every code point is below 0x10000. */
  lemma PythonToBrowser(cps: seq<CodePoint>)
    requires cps != []
    ensures Decode(Encode(cps)) == cps <==> AllBasic(cps)
  {
    DecodeEncoded(cps);
    var d := Decode(Encode(cps));
    if AllBasic(cps) {
      forall i | 0 <= i < |cps|
        ensures d[i] == cps[i]
      {
        SmallCodeUnchanged(cps[i]);
      }
    } else {
      var i :| 0 <= i < |cps| && cps[i] >= 0x1_0000;
      assert d[i] == cps[i] % 0x1_0000 < 0x1_0000 <= cps[i];
    }
  }
}
