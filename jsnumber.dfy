/** JavaScript number conversions the plugins rely on: `parseInt` with
    no radix (leading white space, an optional sign, a "0x" prefix for
    hexadecimal, the longest digit prefix, NaN as None) and the decimal
    rendering of a natural number. */
module JsNumber {

  import opened Wrappers
  import opened JsString

  predicate IsDecDigit(c: char) {
    '0' <= c <= '9'
  }

  predicate IsDigitIn(c: char, base: int) {
    if base == 16 then IsDecDigit(c) || 'a' <= c <= 'f' || 'A' <= c <= 'F' else IsDecDigit(c)
  }

  function DigitValue(c: char): (d: nat)
    ensures IsDecDigit(c) ==> d < 10
    ensures d < 16
  {
    if IsDecDigit(c) then c as int - '0' as int
    else if 'a' <= c <= 'f' then c as int - 'a' as int + 10
    else if 'A' <= c <= 'F' then c as int - 'A' as int + 10
    else 0
  }

  /** The length of the longest prefix made of digits of the base. */
  function DigitPrefix(s: string, base: int): (k: nat)
    ensures k <= |s|
    ensures forall i :: 0 <= i < k ==> IsDigitIn(s[i], base)
    ensures k < |s| ==> !IsDigitIn(s[k], base)
  {
    if |s| == 0 || !IsDigitIn(s[0], base) then 0 else 1 + DigitPrefix(s[1..], base)
  }

  /** The value of a digit string, most significant digit first. */
  function DigitsValue(s: string, base: nat): nat {
    if |s| == 0 then 0 else DigitsValue(s[..|s| - 1], base) * base + DigitValue(s[|s| - 1])
  }

  /** The text `parseInt` reads digits from: past the leading white space
      and at most one sign. */
  function Unsigned(s: string): string {
    var t := TrimStart(s);
    if |t| > 0 && (t[0] == '-' || t[0] == '+') then t[1..] else t
  }

  /** -1 after a leading minus sign, else 1. */
  function SignOf(s: string): int {
    var t := TrimStart(s);
    if |t| > 0 && t[0] == '-' then -1 else 1
  }

  /** A "0x" or "0X" prefix selects base 16. */
  predicate HexPrefixed(u: string) {
    |u| >= 2 && u[0] == '0' && (u[1] == 'x' || u[1] == 'X')
  }

  /** `parseInt(s)`; None is NaN.  Without a hex prefix the value is the
      signed decimal value of the longest digit prefix, NaN when there is
      none; after "0x" the same holds in base 16 for the text after the
      prefix. */
  function ParseInt(s: string): (r: Option<int>)
    ensures var u := Unsigned(s);
            && (!HexPrefixed(u) ==> (r.Some? <==> |u| > 0 && IsDecDigit(u[0])))
            && (!HexPrefixed(u) && r.Some? ==> r.value == SignOf(s) * DigitsValue(u[..DigitPrefix(u, 10)], 10))
            && (HexPrefixed(u) ==> (r.Some? <==> |u| > 2 && IsDigitIn(u[2], 16)))
            && (HexPrefixed(u) && r.Some? ==> r.value == SignOf(s) * DigitsValue(u[2..][..DigitPrefix(u[2..], 16)], 16))
            && (r.Some? ==> |u| > 0 && IsDecDigit(u[0]))
  {
    var u := Unsigned(s);
    if HexPrefixed(u) then
      var hex := u[2..];
      var k := DigitPrefix(hex, 16);
      if k == 0 then None else Some(SignOf(s) * DigitsValue(hex[..k], 16))
    else
      var k := DigitPrefix(u, 10);
      if k == 0 then None else Some(SignOf(s) * DigitsValue(u[..k], 10))
  }

  function DigitChar(d: nat): (c: char)
    requires d < 10
    ensures IsDecDigit(c) && DigitValue(c) == d
  {
    ('0' as int + d) as char
  }

  /** `String(n)` for a natural number. */
  function ShowNat(n: nat): (r: string)
    ensures |r| >= 1
    ensures forall i :: 0 <= i < |r| ==> IsDecDigit(r[i])
    ensures n > 0 ==> r[0] != '0'
    ensures |r| >= 2 ==> n >= 10
  {
    if n < 10 then [DigitChar(n)] else ShowNat(n / 10) + [DigitChar(n % 10)]
  }

  /** The digits of `String(n)` read back give `n`. */
  lemma {:induction false} DigitsValueShowNat(n: nat)
    ensures DigitsValue(ShowNat(n), 10) == n
  {
    if n >= 10 {
      DigitsValueShowNat(n / 10);
      var s := ShowNat(n);
      assert s[..|s| - 1] == ShowNat(n / 10);
    }
  }

  /** A string of decimal digits is its own longest digit prefix. */
  lemma {:induction false} AllDigitsPrefix(s: string)
    requires forall i :: 0 <= i < |s| ==> IsDecDigit(s[i])
    ensures DigitPrefix(s, 10) == |s|
  {
    if |s| > 0 {
      AllDigitsPrefix(s[1..]);
    }
  }

  /** Nothing to trim in front of a non-space character. */
  lemma TrimStartNoSpace(s: string)
    requires |s| > 0 && !IsSpace(s[0])
    ensures TrimStart(s) == s
  {
  }

  /** A digit string without a "0x" prefix parses as its decimal value. */
  lemma ParseIntOfDigits(s: string)
    requires |s| >= 1 && forall i :: 0 <= i < |s| ==> IsDecDigit(s[i])
    requires |s| >= 2 ==> s[0] != '0'
    ensures ParseInt(s) == Some(DigitsValue(s, 10))
  {
    assert IsDecDigit(s[0]);
    TrimStartNoSpace(s);
    assert Unsigned(s) == s && SignOf(s) == 1;
    assert !HexPrefixed(s);
    AllDigitsPrefix(s);
    assert s[..|s|] == s;
  }

  /** `parseInt(String(n)) == n`: the rendering reads back exactly. */
  lemma ParseIntShowNat(n: nat)
    ensures ParseInt(ShowNat(n)) == Some(n)
  {
    ParseIntOfDigits(ShowNat(n));
    DigitsValueShowNat(n);
  }

  /** Text that does not start with a digit (after white space and a
      sign) is NaN. */
  lemma ParseIntExamples()
    ensures ParseInt("abc") == None
    ensures ParseInt("") == None
    ensures ParseInt("0x") == None
  {
    ParseIntLetters();
    ParseIntBareHexPrefix();
  }

  lemma ParseIntLetters()
    ensures ParseInt("abc") == None
  {
    var s := "abc";
    assert |s| == 3 && s[0] == 'a';
    assert TrimStart(s) == s by {
      assert !IsSpace(s[0]);
    }
    assert DigitPrefix(s, 10) == 0;
  }

  lemma ParseIntBareHexPrefix()
    ensures ParseInt("0x") == None
  {
    var s := "0x";
    assert |s| == 2 && s[0] == '0' && s[1] == 'x';
    assert TrimStart(s) == s by {
      assert !IsSpace(s[0]);
    }
    assert s[2..] == [] && DigitPrefix(s[2..], 16) == 0;
  }
}
