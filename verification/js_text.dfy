/** The two JavaScript text conversions the proof flattener relies on:
    writing an integer out in a base (`Number.prototype.toString()` for
    integers and `BigInt.prototype.toString(16)`) and reading a string back
    as a big integer (the `BigInt(string)` constructor, which throws a
    SyntaxError when the string is not an integer literal). */
module JsText {
  import opened Types

  /** The bases that occur: decimal text of numbers, hexadecimal output, and
      the `0b`/`0o`/`0x` prefixes `BigInt` accepts. */
  type Base = b: nat | b == 2 || b == 8 || b == 10 || b == 16 witness 10

  /** Digit characters as `toString(base)` writes them: lower case. */
  function DigitChar(d: nat): char
    requires d < 16
  {
    "0123456789abcdef"[d]
  }

  /** The value of a digit character of any case, or -1 for a non-digit. */
  function DigitValue(c: char): int {
    if '0' <= c <= '9' then c as int - '0' as int
    else if 'a' <= c <= 'f' then c as int - 'a' as int + 10
    else if 'A' <= c <= 'F' then c as int - 'A' as int + 10
    else -1
  }

  predicate IsDigit(c: char, base: Base) {
    0 <= DigitValue(c) < base
  }

  /** The digit characters `toString` writes: `0`-`9` and lower-case `a`-`f`. */
  predicate AllLowerDigits(s: string) {
    forall i :: 0 <= i < |s| ==> '0' <= s[i] <= '9' || 'a' <= s[i] <= 'f'
  }

  predicate AllDigits(s: string, base: Base) {
    forall i :: 0 <= i < |s| ==> IsDigit(s[i], base)
  }

  lemma DigitCharValue(d: nat)
    requires d < 16
    ensures DigitValue(DigitChar(d)) == d
  {
    var digits := "0123456789abcdef";
    assert digits[d] == DigitChar(d);
    if d < 10 {
      assert '0' <= digits[d] <= '9';
    } else {
      assert 'a' <= digits[d] <= 'f';
    }
  }

  /** The digits of `n` in `base`, most significant first, without leading
      zeros ("0" for zero). */
  function Digits(n: nat, base: Base): (s: string)
    ensures 1 <= |s|
    ensures AllDigits(s, base)
    ensures s[0] == '0' <==> n == 0
    ensures s[0] == '0' ==> s == "0"
    decreases n
  {
    DigitCharValue(n % base);
    if n < base then [DigitChar(n)] else Digits(n / base, base) + [DigitChar(n % base)]
  }

  /** `toString(base)` writes its digits in lower case: every character is
      `0`-`9` or `a`-`f`. */
  lemma {:induction false} DigitsLowerCase(n: nat, base: Base)
    ensures AllLowerDigits(Digits(n, base))
    decreases n
  {
    var c := DigitChar(n % base);
    var digits := "0123456789abcdef";
    assert c == digits[n % base];
    if n >= base {
      DigitsLowerCase(n / base, base);
      var p := Digits(n / base, base);
      assert Digits(n, base) == p + [c];
    }
  }

  /** The number a digit string denotes, read most significant digit first. */
  function DigitsValue(s: string, base: Base): nat
    requires AllDigits(s, base)
  {
    if s == [] then 0
    else DigitsValue(s[..|s| - 1], base) * base + DigitValue(s[|s| - 1])
  }

  /** A non-empty run of digits of `base`, or nothing. */
  function ParseDigits(s: string, base: Base): Option<nat> {
    if s != [] && AllDigits(s, base) then Some(DigitsValue(s, base)) else None
  }

  lemma DigitsValueSnoc(s: string, c: char, base: Base)
    requires AllDigits(s, base) && IsDigit(c, base)
    ensures AllDigits(s + [c], base)
    ensures DigitsValue(s + [c], base) == DigitsValue(s, base) * base + DigitValue(c)
  {
    assert (s + [c])[..|s|] == s;
  }

  lemma DivMod(n: nat, base: Base)
    ensures (n / base) * base + n % base == n
  {
  }

  /** The digits written for `n` denote `n`. */
  lemma {:induction false} DigitsValueOf(n: nat, base: Base)
    ensures DigitsValue(Digits(n, base), base) == n
  {
    var d := Digits(n, base);
    if n < base {
      DigitCharValue(n);
      assert d == [] + [DigitChar(n)];
      DigitsValueSnoc([], DigitChar(n), base);
    } else {
      var q, r := n / base, n % base;
      DigitsValueOf(q, base);
      var dq, c := Digits(q, base), DigitChar(r);
      DigitCharValue(r);
      assert d == dq + [c];
      DigitsValueSnoc(dq, c, base);
      DivMod(n, base);
    }
  }

  /** Decoding inverts the digit encoding, in every base used here. */
  lemma DigitsRoundTrip(n: nat, base: Base)
    ensures ParseDigits(Digits(n, base), base) == Some(n)
  {
    DigitsValueOf(n, base);
  }

  /** `n.toString(base)` for an integer `n`: a minus sign before the digits
      of a negative value. */
  function IntegerText(n: int, base: Base): (s: string)
    ensures 1 <= |s|
    ensures s[0] == '-' <==> n < 0
    ensures n >= 0 ==> AllDigits(s, base)
    ensures n < 0 ==> 2 <= |s| && AllDigits(s[1..], base)
  {
    if n < 0 then
      var d := Digits(-n, base);
      assert ("-" + d)[1..] == d;
      "-" + d
    else
      var d := Digits(n, base);
      assert IsDigit(d[0], base);
      d
  }

  /** The characters JavaScript strips from both ends of a string before
      reading it as a number: WhiteSpace and LineTerminator. */
  predicate IsJsWhitespace(c: char) {
    || c == '\t' || c == '\n' || c == '\U{0B}' || c == '\U{0C}' || c == '\r'
    || c == ' ' || c == '\U{A0}' || c == '\U{1680}' || ('\U{2000}' <= c <= '\U{200A}')
    || c == '\U{2028}' || c == '\U{2029}' || c == '\U{202F}' || c == '\U{205F}'
    || c == '\U{3000}' || c == '\U{FEFF}'
  }

  /** `s` without its leading white space: only white space is removed,
      and the result starts with something else or is empty. */
  predicate AllWhitespace(s: string) {
    forall i :: 0 <= i < |s| ==> IsJsWhitespace(s[i])
  }

  function TrimStart(s: string): (t: string)
    ensures t == [] || !IsJsWhitespace(t[0])
  {
    if s != [] && IsJsWhitespace(s[0]) then TrimStart(s[1..]) else s
  }

  /** `s` without its trailing white space, in the same way. */
  function TrimEnd(s: string): (t: string)
    ensures t == [] || !IsJsWhitespace(t[|t| - 1])
  {
    if s != [] && IsJsWhitespace(s[|s| - 1]) then TrimEnd(s[..|s| - 1]) else s
  }

  /** Only leading white space is removed: `s` is that white space
      followed by the result. */
  lemma {:induction false} TrimStartDropsWhitespace(s: string)
    ensures |TrimStart(s)| <= |s|
    ensures s == s[..|s| - |TrimStart(s)|] + TrimStart(s)
    ensures AllWhitespace(s[..|s| - |TrimStart(s)|])
  {
    if s != [] && IsJsWhitespace(s[0]) {
      TrimStartDropsWhitespace(s[1..]);
      var k := |s[1..]| - |TrimStart(s[1..])|;
      assert s[..k + 1] == [s[0]] + s[1..][..k];
    }
  }

  /** Only trailing white space is removed: `s` is the result followed by
      that white space. */
  lemma {:induction false} TrimEndDropsWhitespace(s: string)
    ensures |TrimEnd(s)| <= |s|
    ensures s == TrimEnd(s) + s[|TrimEnd(s)|..]
    ensures AllWhitespace(s[|TrimEnd(s)|..])
  {
    if s != [] && IsJsWhitespace(s[|s| - 1]) {
      var init := s[..|s| - 1];
      TrimEndDropsWhitespace(init);
      var k := |TrimEnd(init)|;
      assert s[k..] == init[k..] + [s[|s| - 1]];
    }
  }

  function Trim(s: string): string {
    TrimEnd(TrimStart(s))
  }

  /** The base a prefix letter after `0` selects: `0x`, `0o`, `0b`, either case. */
  function PrefixBase(c: char): Option<Base> {
    if c == 'x' || c == 'X' then Some(16)
    else if c == 'o' || c == 'O' then Some(8)
    else if c == 'b' || c == 'B' then Some(2)
    else None
  }

  /** The integer literals `BigInt` accepts once white space is trimmed:
      nothing at all, a `0x`/`0o`/`0b` prefix followed by at least one digit
      of that base, or at least one decimal digit after an optional sign. */
  predicate IsIntegerLiteral(t: string) {
    || t == []
    || (|t| >= 3 && t[0] == '0' && PrefixBase(t[1]).Some? && AllDigits(t[2..], PrefixBase(t[1]).value))
    || (|t| >= 2 && (t[0] == '+' || t[0] == '-') && AllDigits(t[1..], 10))
    || (t != [] && AllDigits(t, 10))
  }

  /** `BigInt(s)` for a string `s`: `Some(value)` when `s`, without surrounding
      white space, is empty (value 0), a decimal integer with an optional
      sign, or a `0x`/`0o`/`0b` literal (prefix of either case, no sign);
      `None` where `BigInt` throws a SyntaxError. */
  function StringToBigInt(s: string): (r: Option<int>)
    ensures r.Some? <==> IsIntegerLiteral(Trim(s))
    ensures r.Some? && r.value < 0 ==> Trim(s) != [] && Trim(s)[0] == '-'
  {
    var t := Trim(s);
    if t == [] then Some(0)
    else if |t| >= 2 && t[0] == '0' && (t[1] == 'x' || t[1] == 'X') then ParseDigits(t[2..], 16)
    else if |t| >= 2 && t[0] == '0' && (t[1] == 'o' || t[1] == 'O') then ParseDigits(t[2..], 8)
    else if |t| >= 2 && t[0] == '0' && (t[1] == 'b' || t[1] == 'B') then ParseDigits(t[2..], 2)
    else if t[0] == '+' then ParseDigits(t[1..], 10)
    else if t[0] == '-' then
      match ParseDigits(t[1..], 10)
      case None => None
      case Some(v) => Some(0 - v as int)
    else ParseDigits(t, 10)
  }

  /** A string that neither starts nor ends with white space is left alone. */
  lemma TrimUnpadded(s: string)
    requires s != [] && !IsJsWhitespace(s[0]) && !IsJsWhitespace(s[|s| - 1])
    ensures Trim(s) == s
  {
  }

  lemma DecimalDigitChar(c: char)
    requires IsDigit(c, 10)
    ensures '0' <= c <= '9'
  {
  }

  /** A plain run of decimal digits reads as its decimal value. */
  lemma DecimalLiteralValue(t: string)
    requires t != [] && AllDigits(t, 10)
    ensures StringToBigInt(t) == ParseDigits(t, 10)
  {
    DecimalDigitChar(t[0]);
    DecimalDigitChar(t[|t| - 1]);
    TrimUnpadded(t);
    if |t| >= 2 {
      DecimalDigitChar(t[1]);
    }
  }

  lemma DecimalReadBackNat(n: nat)
    ensures StringToBigInt(Digits(n, 10)) == Some(n)
  {
    DigitsRoundTrip(n, 10);
    DecimalLiteralValue(Digits(n, 10));
  }

  lemma DecimalReadBackNeg(m: nat)
    ensures StringToBigInt("-" + Digits(m, 10)) == Some(0 - m)
  {
    var d := Digits(m, 10);
    var t := "-" + d;
    DigitsRoundTrip(m, 10);
    DecimalDigitChar(d[|d| - 1]);
    assert t[|t| - 1] == d[|d| - 1];
    TrimUnpadded(t);
    assert t[1..] == d;
    assert StringToBigInt(t) == Some(0 - m);
  }

  /** `BigInt(String(n))` gives back `n` for every integer `n`. */
  lemma DecimalReadBack(n: int)
    ensures StringToBigInt(IntegerText(n, 10)) == Some(n)
  {
    if n < 0 {
      assert IntegerText(n, 10) == "-" + Digits(-n, 10);
      DecimalReadBackNeg(-n);
    } else {
      assert IntegerText(n, 10) == Digits(n, 10);
      DecimalReadBackNat(n);
    }
  }

  /** `BigInt("0x" + n.toString(16))` gives back `n` for every `n >= 0`: the
      hexadecimal text is decodable. */
  lemma HexReadBack(n: nat)
    ensures StringToBigInt("0x" + IntegerText(n, 16)) == Some(n)
  {
    var d := Digits(n, 16);
    DigitsRoundTrip(n, 16);
    var t := "0x" + d;
    assert IsDigit(d[|d| - 1], 16);
    assert t[|t| - 1] == d[|d| - 1];
    TrimUnpadded(t);
    assert t[2..] == d;
  }

  /** For a negative `n`, the text `"0x-…"` is not readable by `BigInt`. */
  lemma NegativeHexUnreadable(n: int)
    requires n < 0
    ensures StringToBigInt("0x" + IntegerText(n, 16)) == None
  {
    var d := Digits(-n, 16);
    var t := "0x" + IntegerText(n, 16);
    assert IsDigit(d[|d| - 1], 16);
    assert t[|t| - 1] == d[|d| - 1];
    TrimUnpadded(t);
    assert t[2..][0] == '-';
    assert !IsDigit('-', 16);
  }

  /** `BigInt("true")` and `BigInt("false")` throw. */
  lemma BooleanTextRejected(b: bool)
    ensures StringToBigInt(if b then "true" else "false") == None
  {
    var t := if b then "true" else "false";
    TrimUnpadded(t);
    assert !IsDigit(t[0], 10);
  }
}
