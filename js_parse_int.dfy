/**
 * JavaScript's `parseInt(string)` with no radix argument, over integers: leading
 * white space is skipped, one sign is read, a `0x`/`0X` prefix selects base 16
 * (base 10 otherwise), and the longest run of digits of that base is read. No
 * digit at all gives NaN, modelled as `None`.
 */
module JsParseInt {
  import opened Wrappers

  /** The characters ECMAScript's StrWhiteSpaceChar admits (white space and line terminators). */
  predicate IsJsWhiteSpace(c: char) {
    c == '\t' || c == '\n' || c == '\U{000B}' || c == '\U{000C}' || c == '\r' || c == ' ' ||
    c == '\U{00A0}' || c == '\U{1680}' || ('\U{2000}' <= c <= '\U{200A}') ||
    c == '\U{2028}' || c == '\U{2029}' || c == '\U{202F}' || c == '\U{205F}' ||
    c == '\U{3000}' || c == '\U{FEFF}'
  }

  /** Drops the leading white space. */
  function TrimStart(s: string): (r: string)
    ensures |r| <= |s| && r == s[|s| - |r|..]
    ensures r == [] || !IsJsWhiteSpace(r[0])
    ensures forall i :: 0 <= i < |s| - |r| ==> IsJsWhiteSpace(s[i])
  {
    if s != [] && IsJsWhiteSpace(s[0]) then TrimStart(s[1..]) else s
  }

  /** The value of `c` as a digit of base up to 36 (`0`-`9`, then `a`/`A` = 10 ... `z`/`Z` = 35). */
  function DigitValue(c: char): Option<nat> {
    if '0' <= c <= '9' then Some(c as int - '0' as int)
    else if 'a' <= c <= 'z' then Some(c as int - 'a' as int + 10)
    else if 'A' <= c <= 'Z' then Some(c as int - 'A' as int + 10)
    else None
  }

  predicate IsDigit(c: char, radix: nat) {
    DigitValue(c).Some? && DigitValue(c).value < radix
  }

  /** The length of the longest prefix of `s` made of digits of `radix`. */
  function DigitRunLength(s: string, radix: nat): (n: nat)
    ensures n <= |s|
    ensures forall i :: 0 <= i < n ==> IsDigit(s[i], radix)
    ensures n < |s| ==> !IsDigit(s[n], radix)
  {
    if s == [] || !IsDigit(s[0], radix) then 0 else 1 + DigitRunLength(s[1..], radix)
  }

  /** The value of a string of digits, most significant first. */
  function DigitsValue(s: string, radix: nat): nat
    requires forall i :: 0 <= i < |s| ==> IsDigit(s[i], radix)
  {
    if s == [] then 0
    else
      var init := s[..|s| - 1];
      assert forall i :: 0 <= i < |init| ==> IsDigit(init[i], radix) by {
        forall i | 0 <= i < |init| ensures IsDigit(init[i], radix) {
          assert init[i] == s[i];
        }
      }
      assert IsDigit(s[|s| - 1], radix);
      var high := DigitsValue(init, radix);
      MulNat(high, radix);
      high * radix + DigitValue(s[|s| - 1]).value
  }

  lemma MulNat(a: nat, b: nat)
    ensures a * b >= 0
  {
  }

  /** -1 after a leading `-`, 1 otherwise. */
  function SignOf(t: string): int {
    if t != [] && t[0] == '-' then -1 else 1
  }

  /** Drops one leading `-` or `+`. */
  function StripSign(t: string): string {
    if t != [] && (t[0] == '-' || t[0] == '+') then t[1..] else t
  }

  /** The unsigned part: a `0x`/`0X` prefix selects base 16, then the longest digit run is read. */
  function ParseUnsigned(u: string): Option<nat> {
    var hex := |u| >= 2 && u[0] == '0' && (u[1] == 'x' || u[1] == 'X');
    var radix := if hex then 16 else 10;
    var body := if hex then u[2..] else u;
    var z := body[..DigitRunLength(body, radix)];
    if z == [] then None else Some(DigitsValue(z, radix))
  }

  function ParseInt(s: string): (r: Option<int>)
    ensures r.Some? ==> TrimStart(s) != []
    ensures r.Some? && r.value < 0 ==> TrimStart(s)[0] == '-'
  {
    var t := TrimStart(s);
    match ParseUnsigned(StripSign(t))
    case None => None
    case Some(v) => Some(SignOf(t) * v)
  }

  /** The decimal spelling of a natural number, as `String(n)` writes it. */
  function NatToDecimal(n: nat): (s: string)
    ensures s != [] && forall i :: 0 <= i < |s| ==> '0' <= s[i] <= '9'
    ensures |s| > 1 ==> s[0] != '0'
  {
    if n < 10 then [('0' as int + n) as char]
    else NatToDecimal(n / 10) + [('0' as int + n % 10) as char]
  }

  /** The decimal spelling of an integer, with a leading `-` when negative. */
  function IntToDecimal(n: int): string {
    if n < 0 then "-" + NatToDecimal(-n) else NatToDecimal(n)
  }

  lemma {:induction false} DecimalDigitsValue(n: nat)
    ensures forall i :: 0 <= i < |NatToDecimal(n)| ==> IsDigit(NatToDecimal(n)[i], 10)
    ensures DigitsValue(NatToDecimal(n), 10) == n
  {
    var s := NatToDecimal(n);
    if n >= 10 {
      DecimalDigitsValue(n / 10);
      assert s[..|s| - 1] == NatToDecimal(n / 10);
    }
  }

  lemma {:induction false} RunOfDigits(s: string, radix: nat)
    requires forall i :: 0 <= i < |s| ==> IsDigit(s[i], radix)
    ensures DigitRunLength(s, radix) == |s|
  {
    if s != [] {
      assert IsDigit(s[0], radix);
      RunOfDigits(s[1..], radix);
    }
  }

  /** Without a `0x` prefix, a string of decimal digits is read in full. */
  lemma ParseUnsignedOfDigits(u: string)
    requires u != [] && forall i :: 0 <= i < |u| ==> IsDigit(u[i], 10)
    requires |u| > 1 ==> u[0] != '0'
    ensures ParseUnsigned(u) == Some(DigitsValue(u, 10))
  {
    RunOfDigits(u, 10);
    assert u[..|u|] == u;
  }

  lemma ParseUnsignedOfDecimal(m: nat)
    ensures ParseUnsigned(NatToDecimal(m)) == Some(m)
  {
    DecimalDigitsValue(m);
    ParseUnsignedOfDigits(NatToDecimal(m));
  }

  lemma TrimStartKeeps(s: string)
    requires s != [] && !IsJsWhiteSpace(s[0])
    ensures TrimStart(s) == s
  {
  }

  /** Reading back what `String(n)` writes gives `n`. */
  lemma ParseIntOfDecimal(n: int)
    ensures ParseInt(IntToDecimal(n)) == Some(n)
  {
    var m: nat := if n < 0 then -n else n;
    ParseUnsignedOfDecimal(m);
    var s := IntToDecimal(n);
    var d := NatToDecimal(m);
    assert '0' <= d[0] <= '9';
    assert s[0] == (if n < 0 then '-' else d[0]);
    TrimStartKeeps(s);
    assert StripSign(s) == d;
    assert SignOf(s) * m == n;
  }

  /** Leading white space does not change the result. */
  lemma {:induction false} ParseIntSkipsWhiteSpace(w: string, s: string)
    requires forall i :: 0 <= i < |w| ==> IsJsWhiteSpace(w[i])
    ensures ParseInt(w + s) == ParseInt(s)
  {
    TrimStartSkips(w, s);
    assert TrimStart(w + s) == TrimStart(s);
  }

  lemma {:induction false} TrimStartSkips(w: string, s: string)
    requires forall i :: 0 <= i < |w| ==> IsJsWhiteSpace(w[i])
    ensures TrimStart(w + s) == TrimStart(s)
  {
    if w != [] {
      assert (w + s)[1..] == w[1..] + s;
      TrimStartSkips(w[1..], s);
    } else {
      assert w + s == s;
    }
  }

  lemma ParseUnsignedNaN(u: string)
    requires u == [] || !IsDigit(u[0], 16)
    ensures ParseUnsigned(u) == None
  {
    if u != [] {
      assert u[0] != '0' by { assert IsDigit('0', 16); }
      assert DigitRunLength(u, 10) == 0;
      assert u[..0] == [];
    }
  }

  /** A string with no digit of base 10 or 16 where the number would start reads as NaN. */
  lemma ParseIntNaN(s: string)
    requires s == [] || (!IsDigit(s[0], 16) && s[0] != '-' && s[0] != '+' && !IsJsWhiteSpace(s[0]))
    ensures ParseInt(s) == None
  {
    if s != [] {
      TrimStartKeeps(s);
      assert StripSign(s) == s;
    }
    ParseUnsignedNaN(StripSign(TrimStart(s)));
  }
}
