/**
 * JavaScript's global `parseInt(string)` called without a radix, as the
 * ECMAScript language specification defines it in section 19.2.5
 * ("parseInt ( string, radix )"): skip leading white space, take an
 * optional sign, switch to base 16 after a "0x" or "0X" prefix, then read
 * the longest run of digits. No digits at all gives NaN, modelled as
 * `None`.
 */
module JsParseInt {
  import opened Wrappers
  import opened JsText

  /** The value of `c` as a digit of base `radix`: 0-9, then a-z or A-Z for 10 and up. */
  function DigitValue(c: char, radix: nat): (r: Option<nat>)
    ensures r.Some? ==> r.value < radix
  {
    var v :=
      if '0' <= c <= '9' then c as int - '0' as int
      else if 'a' <= c <= 'z' then c as int - 'a' as int + 10
      else if 'A' <= c <= 'Z' then c as int - 'A' as int + 10
      else 36;
    if v < radix then Some(v) else None
  }

  predicate IsDigitIn(c: char, radix: nat) {
    DigitValue(c, radix).Some?
  }

  predicate AllDigitsIn(s: string, radix: nat) {
    forall i :: 0 <= i < |s| ==> IsDigitIn(s[i], radix)
  }

  /** The leading digits of `s` in base `radix`. */
  function DigitRun(s: string, radix: nat): (r: string)
    ensures AllDigitsIn(r, radix)
  {
    if |s| > 0 && IsDigitIn(s[0], radix) then [s[0]] + DigitRun(s[1..], radix) else []
  }

  /** The digit run is the longest prefix of `s` made only of digits. */
  lemma {:induction false} DigitRunIsLongestPrefix(s: string, radix: nat)
    ensures var r := DigitRun(s, radix);
      && |r| <= |s| && r == s[..|r|]
      && (|r| == |s| || !IsDigitIn(s[|r|], radix))
    decreases |s|
  {
    if |s| > 0 && IsDigitIn(s[0], radix) {
      DigitRunIsLongestPrefix(s[1..], radix);
      var r := DigitRun(s[1..], radix);
      assert s[..|r| + 1] == [s[0]] + s[1..][..|r|];
    }
  }

  /** The number a run of base-`radix` digits denotes, most significant digit first. */
  function DigitsValue(ds: string, radix: nat): nat
    requires AllDigitsIn(ds, radix)
  {
    if ds == [] then 0
    else DigitsValue(ds[..|ds| - 1], radix) * radix + DigitValue(ds[|ds| - 1], radix).value
  }

  /** The text after an optional leading sign. */
  function Unsigned(t: string): string {
    if |t| > 0 && (t[0] == '+' || t[0] == '-') then t[1..] else t
  }

  /** True when `u` starts with the "0x" or "0X" prefix that selects base 16. */
  predicate HasHexPrefix(u: string) {
    |u| >= 2 && u[0] == '0' && (u[1] == 'x' || u[1] == 'X')
  }

  /** The magnitude read from sign-less text: hex after "0x"/"0X", decimal otherwise. */
  function ParseMagnitude(u: string): Option<nat> {
    var radix := if HasHexPrefix(u) then 16 else 10;
    var z := DigitRun(if HasHexPrefix(u) then u[2..] else u, radix);
    if z == [] then None else Some(DigitsValue(z, radix))
  }

  /** `parseInt(s)`; `None` stands for NaN. */
  function ParseInt(s: string): Option<int> {
    ParseSigned(TrimStart(s))
  }

  /** `parseInt` on text already stripped of leading white space. */
  function ParseSigned(t: string): Option<int> {
    match ParseMagnitude(Unsigned(t))
    case None => None
    case Some(m) => Some(if |t| > 0 && t[0] == '-' then -(m as int) else m as int)
  }

  /**
   * `parseInt(s) || 0`: NaN, +0 and -0 are all falsy in JavaScript and
   * become 0, so the result is the parsed value or 0.
   */
  function IntOrZero(s: string): int {
    ParseInt(s).GetOr(0)
  }

  // ---------------------------------------------------------------------
  // Rendering numbers as digit text, the partner of the parser.

  /** The digit character for `d`, lower-case beyond 9. */
  function DigitChar(d: nat): char
    requires d < 16
  {
    "0123456789abcdef"[d]
  }

  lemma DigitCharValue(d: nat, radix: nat)
    requires d < radix <= 16
    ensures DigitValue(DigitChar(d), radix) == Some(d)
  {
  }

  /** Euclidean division of a natural by a radix, in the form the proofs use. */
  lemma DivMod(n: nat, radix: nat)
    requires 2 <= radix
    ensures n == (n / radix) * radix + n % radix
    ensures 0 <= n % radix < radix
    ensures n >= radix ==> 0 < n / radix < n
  {
  }

  /** `n` written in base `radix` without leading zeros (just "0" for zero). */
  function NatDigits(n: nat, radix: nat): (r: string)
    requires 2 <= radix <= 16
    ensures |r| > 0 && AllDigitsIn(r, radix)
    ensures n > 0 ==> r[0] != '0'
    ensures n == 0 ==> r == "0"
    decreases n
  {
    if n < radix then
      DigitCharValue(n, radix);
      [DigitChar(n)]
    else
      DivMod(n, radix);
      DigitCharValue(n % radix, radix);
      NatDigits(n / radix, radix) + [DigitChar(n % radix)]
  }

  /**
   * `n` in plain decimal with a leading '-' when negative. This is what
   * `String(n)` prints for integers below 1e21 in magnitude; from there on
   * `String` switches to exponent notation, which this printer does not model.
   */
  function DecimalString(n: int): string {
    if n < 0 then "-" + NatDigits(-n, 10) else NatDigits(n, 10)
  }

  /** Appending a digit multiplies the value by the radix and adds the digit. */
  lemma DigitsValueSnoc(front: string, c: char, radix: nat)
    requires AllDigitsIn(front, radix) && IsDigitIn(c, radix)
    ensures AllDigitsIn(front + [c], radix)
    ensures DigitsValue(front + [c], radix) == DigitsValue(front, radix) * radix + DigitValue(c, radix).value
  {
    assert (front + [c])[..|front|] == front;
  }

  /** A single digit denotes its own value. */
  lemma DigitsValueSingle(c: char, radix: nat)
    requires IsDigitIn(c, radix)
    ensures DigitsValue([c], radix) == DigitValue(c, radix).value
  {
    var ds := [c];
    assert ds[..0] == [];
    assert DigitsValue(ds[..0], radix) * radix == 0;
  }

  /** Reading back the digits of `n` gives `n`. */
  lemma {:induction false} DigitsValueOfNatDigits(n: nat, radix: nat)
    requires 2 <= radix <= 16
    ensures DigitsValue(NatDigits(n, radix), radix) == n
    decreases n
  {
    if n >= radix {
      DivMod(n, radix);
      var q, d := n / radix, n % radix;
      DigitCharValue(d, radix);
      var front := NatDigits(q, radix);
      DigitsValueOfNatDigits(q, radix);
      DigitsValueSnoc(front, DigitChar(d), radix);
      assert NatDigits(n, radix) == front + [DigitChar(d)];
    } else {
      DigitCharValue(n, radix);
      DigitsValueSingle(DigitChar(n), radix);
      assert NatDigits(n, radix) == [DigitChar(n)];
    }
  }

  /** A digit run stops exactly where the digits end. */
  lemma {:induction false} DigitRunOfDigits(ds: string, t: string, radix: nat)
    requires AllDigitsIn(ds, radix)
    requires t == [] || !IsDigitIn(t[0], radix)
    ensures DigitRun(ds + t, radix) == ds
    decreases |ds|
  {
    if ds == [] {
      assert ds + t == t;
    } else {
      assert (ds + t)[1..] == ds[1..] + t;
      DigitRunOfDigits(ds[1..], t, radix);
    }
  }

  /** The digits of `m`, followed by text that does not continue them, read back as `m`. */
  lemma {:induction false} DecimalMagnitudeReadsBack(m: nat, t: string)
    requires t == [] || !IsDigitIn(t[0], 10)
    requires m == 0 ==> t == [] || (t[0] != 'x' && t[0] != 'X')
    ensures ParseMagnitude(NatDigits(m, 10) + t) == Some(m)
  {
    var ds := NatDigits(m, 10);
    assert !HasHexPrefix(ds + t) by {
      if m == 0 {
        assert ds + t == "0" + t;
      } else {
        assert (ds + t)[0] == ds[0];
      }
    }
    DigitRunOfDigits(ds, t, 10);
    DigitsValueOfNatDigits(m, 10);
  }

  /** A sign in front of sign-less text negates (or keeps) its magnitude. */
  lemma SignApplies(u: string, sign: string)
    requires sign == "" || sign == "+" || sign == "-"
    requires |u| > 0 && u[0] != '+' && u[0] != '-'
    requires ParseMagnitude(u).Some?
    ensures var m := ParseMagnitude(u).value;
      ParseSigned(sign + u) == Some(if sign == "-" then -(m as int) else m as int)
  {
    var t := sign + u;
    if sign == "" {
      assert t == u;
    } else {
      assert t[0] == sign[0] && t[1..] == u;
    }
  }

  /** Text that starts with a sign or a digit is left alone by trimming. */
  lemma NoLeadingBlank(s: string)
    requires |s| > 0 && (s[0] == '-' || s[0] == '+' || IsDigitIn(s[0], 10))
    ensures TrimStart(s) == s
  {
  }

  /** Text made of an optional sign and then a digit starts with a sign or a digit. */
  lemma SignedStartsWithSignOrDigit(sign: string, u: string)
    requires sign == "" || sign == "+" || sign == "-"
    requires |u| > 0 && IsDigitIn(u[0], 10)
    ensures var s := sign + u; |s| > 0 && (s[0] == '-' || s[0] == '+' || IsDigitIn(s[0], 10))
  {
    if sign == "" {
      assert sign + u == u;
    }
  }

  /** `parseInt` of an optional sign followed by a number's text: the magnitude, with the sign applied. */
  lemma {:induction false} SignedReadsBack(sign: string, u: string, m: nat)
    requires sign == "" || sign == "+" || sign == "-"
    requires |u| > 0 && IsDigitIn(u[0], 10)
    requires ParseMagnitude(u) == Some(m)
    ensures ParseInt(sign + u) == Some(if sign == "-" then -(m as int) else m as int)
  {
    SignApplies(u, sign);
    SignedStartsWithSignOrDigit(sign, u);
    NoLeadingBlank(sign + u);
  }

  /** Printed text is the sign, if any, followed by the digits of the magnitude. */
  lemma DecimalStringSplits(n: int, t: string)
    ensures var m: nat := if n < 0 then -n else n;
      DecimalString(n) + t == (if n < 0 then "-" else "") + (NatDigits(m, 10) + t)
  {
  }

  /** An optional '-' and the decimal digits of `m`, followed by `t`, read as the signed `m`. */
  lemma {:induction false} SignedDigitsReadBack(sign: string, m: nat, t: string)
    requires sign == "" || sign == "-"
    requires t == [] || !IsDigitIn(t[0], 10)
    requires m == 0 ==> t == [] || (t[0] != 'x' && t[0] != 'X')
    ensures ParseInt(sign + (NatDigits(m, 10) + t)) == Some(if sign == "-" then -(m as int) else m as int)
  {
    var u := NatDigits(m, 10) + t;
    DecimalMagnitudeReadsBack(m, t);
    assert IsDigitIn(u[0], 10);
    SignedReadsBack(sign, u, m);
  }

  /**
   * Round trip: `parseInt` reads back any integer printed in decimal, also
   * when other text follows, as long as that text does not continue the
   * number (a digit) or, after a bare "0", turn it into a hex prefix.
   * So "120 min" reads as 120 and "7.5" as 7.
   */
  lemma {:induction false} DecimalPrefixReadsBack(n: int, t: string)
    requires t == [] || !IsDigitIn(t[0], 10)
    requires n == 0 ==> t == [] || (t[0] != 'x' && t[0] != 'X')
    ensures ParseInt(DecimalString(n) + t) == Some(n)
  {
    var m: nat := if n < 0 then -n else n;
    var sign := if n < 0 then "-" else "";
    SignedDigitsReadBack(sign, m, t);
    DecimalStringSplits(n, t);
  }

  /**
   * The plain round trip: `parseInt` reads back the plain decimal printing
   * of every integer (what `String(n)` prints below 1e21).
   */
  lemma DecimalRoundTrip(n: int)
    ensures ParseInt(DecimalString(n)) == Some(n)
  {
    assert DecimalString(n) + [] == DecimalString(n);
    DecimalPrefixReadsBack(n, []);
  }

  /** Leading white space is skipped: `parseInt("  42") == parseInt("42")`. */
  lemma LeadingWhitespaceIgnored(ws: string, s: string)
    requires AllWhitespace(ws)
    ensures ParseInt(ws + s) == ParseInt(s)
  {
    TrimStartSkipsWhitespace(ws, s);
  }

  /** Four strings joined left to right or right to left give the same text. */
  lemma ConcatAssoc(a: string, b: string, c: string, d: string)
    ensures a + b + c + d == a + (b + (c + d))
  {
  }

  /** After a hex prefix, a run of base-16 digits reads as the number it denotes. */
  lemma {:induction false} HexMagnitudeReadsBack(prefix: string, h: string, t: string)
    requires prefix == "0x" || prefix == "0X"
    requires h != [] && AllDigitsIn(h, 16)
    requires t == [] || !IsDigitIn(t[0], 16)
    ensures ParseMagnitude(prefix + (h + t)) == Some(DigitsValue(h, 16))
  {
    var u := prefix + (h + t);
    assert HasHexPrefix(u) && u[2..] == h + t;
    DigitRunOfDigits(h, t, 16);
  }

  /** A sign and then a hex prefix whose text reads as the magnitude `m`: the signed `m`. */
  lemma {:induction false} SignedHexReadsBack(sign: string, prefix: string, rest: string, m: nat)
    requires sign == "" || sign == "+" || sign == "-"
    requires prefix == "0x" || prefix == "0X"
    requires ParseMagnitude(prefix + rest) == Some(m)
    ensures ParseInt(sign + (prefix + rest)) == Some(if sign == "-" then -(m as int) else m as int)
  {
    var u := prefix + rest;
    assert u[0] == '0';
    SignedReadsBack(sign, u, m);
  }

  /**
   * The hexadecimal quirk: with no radix, text such as "0x1a", "0X1A",
   * "-0x00ff" or "+0x10;" is read in base 16, in either letter case, with
   * the sign coming before the prefix and the digit run ending at the
   * first character that is not a hex digit.
   */
  lemma {:induction false} HexPrefixReadsBase16(sign: string, prefix: string, h: string, t: string)
    requires sign == "" || sign == "+" || sign == "-"
    requires prefix == "0x" || prefix == "0X"
    requires h != [] && AllDigitsIn(h, 16)
    requires t == [] || !IsDigitIn(t[0], 16)
    ensures ParseInt(sign + prefix + h + t)
      == Some(if sign == "-" then -(DigitsValue(h, 16) as int) else DigitsValue(h, 16) as int)
  {
    HexMagnitudeReadsBack(prefix, h, t);
    SignedHexReadsBack(sign, prefix, h + t, DigitsValue(h, 16));
    ConcatAssoc(sign, prefix, h, t);
  }

  /**
   * Text whose first non-blank character neither starts a number nor is a
   * sign followed by a digit reads as NaN: "", "   ", "abc", "-", "N/A".
   */
  lemma NoLeadingDigitIsNaN(s: string)
    requires var t := TrimStart(s);
      || t == []
      || (!IsDigitIn(t[0], 10) && t[0] != '+' && t[0] != '-')
      || ((t[0] == '+' || t[0] == '-') && (|t| == 1 || !IsDigitIn(t[1], 10)))
    ensures ParseInt(s) == None
  {
    var t := TrimStart(s);
    var u := Unsigned(t);
    assert u == [] || !IsDigitIn(u[0], 10);
    assert !HasHexPrefix(u);
  }
}
