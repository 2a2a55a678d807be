/** The numeric coercions the pipeline relies on: `pandas.to_numeric` with
    `errors="coerce"` applied to one text value, and the `astype(int)` cast,
    which truncates toward zero. */
module Numeric {
  import opened Results

  predicate IsDigit(c: char) {
    '0' <= c <= '9'
  }

  predicate AllDigits(s: string) {
    forall i :: 0 <= i < |s| ==> IsDigit(s[i])
  }

  /** A character that may appear in a numeral accepted by `ParseDecimal`. */
  predicate NumeralChar(c: char) {
    IsDigit(c) || c == '.' || c == '+' || c == '-'
  }

  /** The value of a run of decimal digits, most significant digit first. */
  function DigitsValue(s: string): nat
    requires AllDigits(s)
  {
    if |s| == 0 then 0
    else DigitsValue(s[..|s| - 1]) * 10 + ((s[|s| - 1] as int) - ('0' as int))
  }

  function Pow10(n: nat): (r: nat)
    ensures r > 0
  {
    if n == 0 then 1 else 10 * Pow10(n - 1)
  }

  /** The position of the first decimal point of `s`, if there is one. */
  function FirstDot(s: string): (r: Option<nat>)
    ensures r.Some? ==> r.value < |s| && s[r.value] == '.'
    ensures r.Some? ==> forall i :: 0 <= i < r.value ==> s[i] != '.'
    ensures r.None? <==> forall i :: 0 <= i < |s| ==> s[i] != '.'
  {
    if |s| == 0 then None
    else if s[0] == '.' then Some(0)
    else match FirstDot(s[1..])
      case None => None
      case Some(k) => Some(k + 1)
  }

  /** An unsigned numeral: digits, optionally split by one decimal point,
      with at least one digit in all (`"5"`, `"5."`, `".5"`, `"350.25"`). */
  function ParseUnsigned(s: string): Option<real>
  {
    match FirstDot(s)
    case None =>
      if |s| > 0 && AllDigits(s) then Some(DigitsValue(s) as real) else None
    case Some(k) =>
      var whole, frac := s[..k], s[k + 1..];
      if AllDigits(whole) && AllDigits(frac) && |whole| + |frac| > 0
      then Some(Scaled(DigitsValue(whole), DigitsValue(frac), |frac|))
      else None
  }

  /** The value of a whole part and `places` fractional digits. */
  function Scaled(whole: nat, frac: nat, places: nat): real
  {
    whole as real + Shifted(frac, places)
  }

  /** `frac` with the decimal point moved `places` digits to the left. */
  function Shifted(frac: nat, places: nat): real
  {
    if places == 0 then frac as real else Shifted(frac, places - 1) / 10.0
  }

  /** Moving the point `places` digits divides by 10^places. */
  lemma {:induction false} ShiftedDivides(frac: nat, places: nat)
    ensures Shifted(frac, places) == frac as real / Pow10(places) as real
  {
    if places > 0 {
      ShiftedDivides(frac, places - 1);
      assert Pow10(places) as real == 10.0 * Pow10(places - 1) as real;
    }
  }

  /** `pandas.to_numeric(errors="coerce")` on one text value: the number the
      text denotes, or `None` (NaN) when it is not a plain decimal numeral. */
  function ParseDecimal(s: string): (r: Option<real>)
    ensures r.Some? ==> |s| > 0 && forall i :: 0 <= i < |s| ==> NumeralChar(s[i])
    ensures r.Some? ==> exists i :: 0 <= i < |s| && IsDigit(s[i])
  {
    if |s| > 0 && (s[0] == '+' || s[0] == '-') then
      match ParseUnsigned(s[1..])
      case None => None
      case Some(v) => Some(if s[0] == '-' then -v else v)
    else ParseUnsigned(s)
  }

  /** `astype(int)` on a finite float: truncation toward zero. */
  function TruncateToInt(x: real): (n: int)
    ensures 0.0 <= x ==> n as real <= x < n as real + 1.0
    ensures x < 0.0 ==> n as real - 1.0 < x <= n as real
    ensures n == 0 <==> -1.0 < x < 1.0
  {
    if x >= 0.0 then x.Floor else -((-x).Floor)
  }

  /** The decimal digits of a natural number, as `str(n)` writes them. */
  function NatDigits(n: nat): (s: string)
    ensures |s| > 0 && AllDigits(s)
    decreases n
  {
    var d := [(('0' as int) + n % 10) as char];
    if n < 10 then d else NatDigits(n / 10) + d
  }

  /** An integer written the way `str(n)` writes it. */
  function IntToDecimal(n: int): string
  {
    if n < 0 then "-" + NatDigits(-n) else NatDigits(n)
  }

  lemma {:induction false} NatDigitsValue(n: nat)
    ensures DigitsValue(NatDigits(n)) == n
    decreases n
  {
    var s := NatDigits(n);
    if n >= 10 {
      NatDigitsValue(n / 10);
      assert s[..|s| - 1] == NatDigits(n / 10);
    }
  }

  lemma NoDotInDigits(s: string)
    requires AllDigits(s)
    ensures FirstDot(s) == None
  {
  }

  /** Round trip: every integer written in decimal parses back to itself. */
  lemma ParseIntToDecimal(n: int)
    ensures ParseDecimal(IntToDecimal(n)) == Some(n as real)
  {
    if n < 0 {
      ParseNegativeInt(n);
    } else {
      ParseNatToDecimal(n);
    }
  }

  lemma ParseNatToDecimal(n: nat)
    ensures ParseDecimal(NatDigits(n)) == Some(n as real)
  {
    NatDigitsValue(n);
    NoDotInDigits(NatDigits(n));
  }

  lemma ParseNegativeInt(n: int)
    requires n < 0
    ensures ParseDecimal("-" + NatDigits(-n)) == Some(n as real)
  {
    var s := "-" + NatDigits(-n);
    assert s[1..] == NatDigits(-n);
    NatDigitsValue(-n);
    NoDotInDigits(NatDigits(-n));
  }

  /** An unsigned numeral as `ParseUnsigned` reads it: digits, or digits
      split by one decimal point, with at least one digit in all. */
  predicate UnsignedNumeral(u: string)
  {
    || (|u| > 0 && AllDigits(u))
    || (exists k :: 0 <= k < |u| && u[k] == '.' && AllDigits(u[..k]) && AllDigits(u[k + 1..]) && |u| > 1)
  }

  /** A numeral: an optional `+` or `-` sign, then an unsigned numeral. */
  predicate Numeral(s: string)
  {
    if |s| > 0 && (s[0] == '+' || s[0] == '-') then UnsignedNumeral(s[1..]) else UnsignedNumeral(s)
  }

  lemma UnsignedParsesIffNumeral(u: string)
    ensures ParseUnsigned(u).Some? <==> UnsignedNumeral(u)
  {
    match FirstDot(u)
    case None =>
      assert forall k :: 0 <= k < |u| ==> u[k] != '.';
    case Some(k) =>
      assert !IsDigit(u[k]);
      if ParseUnsigned(u).Some? {
        assert u[k] == '.' && AllDigits(u[..k]) && AllDigits(u[k + 1..]) && |u| > 1;
      }
      if UnsignedNumeral(u) {
        var k' :| 0 <= k' < |u| && u[k'] == '.' && AllDigits(u[..k']) && AllDigits(u[k' + 1..]) && |u| > 1;
        assert forall i :: 0 <= i < k' ==> u[..k'][i] == u[i];
        assert k' == k;
      }
  }

  /** `ParseDecimal` accepts exactly the numerals: a text converts to a
      number if and only if it is an optionally signed run of digits with
      at most one decimal point and at least one digit. */
  lemma ParseDecimalIffNumeral(s: string)
    ensures ParseDecimal(s).Some? <==> Numeral(s)
  {
    if |s| > 0 && (s[0] == '+' || s[0] == '-') {
      UnsignedParsesIffNumeral(s[1..]);
    } else {
      UnsignedParsesIffNumeral(s);
    }
  }

  /** The `d` low-order decimal digits of `m`, leading zeros included: the
      fractional part of a numeral with `d` places. */
  function Padded(m: nat, d: nat): (s: string)
    ensures |s| == d && AllDigits(s)
  {
    if d == 0 then "" else Padded(m / 10, d - 1) + [(('0' as int) + m % 10) as char]
  }

  lemma {:induction false} PaddedValue(m: nat, d: nat)
    requires m < Pow10(d)
    ensures DigitsValue(Padded(m, d)) == m
  {
    if d > 0 {
      var s := Padded(m, d);
      assert m / 10 < Pow10(d - 1);
      PaddedValue(m / 10, d - 1);
      assert s[..|s| - 1] == Padded(m / 10, d - 1);
    }
  }

  /** A numeral with `d` decimal places, as fixed-point formatting writes
      it: an optional minus sign, the whole part, a point and exactly `d`
      fractional digits (`"70.50"`, `"-0.25"`, `"5."`). */
  function FixedPoint(negative: bool, whole: nat, frac: nat, d: nat): string
  {
    var unsigned := NatDigits(whole) + "." + Padded(frac, d);
    if negative then "-" + unsigned else unsigned
  }

  /** The first point after a run of digits is the one that ends it. */
  lemma FirstDotAfterDigits(w: string, p: string)
    requires AllDigits(w)
    ensures FirstDot(w + "." + p) == Some(|w|)
  {
    var u := w + "." + p;
    assert u[|w|] == '.';
    assert forall i :: 0 <= i < |w| ==> u[i] == w[i];
  }

  /** Digits, a point and digits parse to the whole part plus the
      fraction the digits after the point write. */
  lemma ParseWholeAndFraction(w: string, p: string)
    requires AllDigits(w) && AllDigits(p) && |w| + |p| > 0
    ensures ParseUnsigned(w + "." + p)
         == Some(Scaled(DigitsValue(w), DigitsValue(p), |p|))
  {
    var u := w + "." + p;
    FirstDotAfterDigits(w, p);
    assert u[..|w|] == w;
    assert u[|w| + 1..] == p;
  }

  /** `v` with a minus sign in front when `negative`. */
  function Signed(negative: bool, v: real): real
  {
    if negative then -v else v
  }

  /** Round trip: every fixed-point numeral parses to the number it
      writes. */
  lemma ParseFixedPoint(negative: bool, whole: nat, frac: nat, d: nat)
    requires frac < Pow10(d)
    ensures ParseDecimal(FixedPoint(negative, whole, frac, d)) == Some(Signed(negative, Scaled(whole, frac, d)))
  {
    NatDigitsValue(whole);
    PaddedValue(frac, d);
    ParseFixedText(negative, NatDigits(whole), Padded(frac, d));
  }

  /** The same for any digits before and after the point. */
  lemma ParseFixedText(negative: bool, w: string, p: string)
    requires |w| > 0 && AllDigits(w) && AllDigits(p)
    ensures ParseDecimal(if negative then "-" + (w + "." + p) else w + "." + p)
         == Some(Signed(negative, Scaled(DigitsValue(w), DigitsValue(p), |p|)))
  {
    ParseWholeAndFraction(w, p);
    assert (w + "." + p)[0] == w[0];
    ParseSigned(negative, w + "." + p, Scaled(DigitsValue(w), DigitsValue(p), |p|));
  }

  /** A sign in front of an unsigned numeral that starts with a digit. */
  lemma ParseSigned(negative: bool, u: string, v: real)
    requires ParseUnsigned(u) == Some(v) && |u| > 0 && IsDigit(u[0])
    ensures ParseDecimal(if negative then "-" + u else u) == Some(Signed(negative, v))
  {
    assert ("-" + u)[1..] == u;
  }

  /** A blank or alphabetic value is not a numeral: this is how the blank
      `TotalCharges` entries of the raw dataset become NaN. */
  lemma NonNumeralsAreNaN()
    ensures ParseDecimal("") == None
    ensures ParseDecimal(" ") == None
    ensures ParseDecimal("abc") == None
  {
    assert !NumeralChar(" "[0]);
    assert !NumeralChar("abc"[0]);
  }

  /** A charges value written with a fraction parses to that amount. */
  lemma ParseChargesExample()
    ensures ParseDecimal("350.25") == Some(350.25)
  {
    ChargesUnsigned();
  }

  lemma ChargesUnsigned()
    ensures ParseUnsigned("350.25") == Some(350.25)
  {
    var s := "350.25";
    ChargesDot();
    assert s[..3] == "350" && s[4..] == "25";
    ChargesDigits();
    UnsignedWithDot(s, 3);
    ChargesAmount();
  }

  lemma ChargesAmount()
    ensures Scaled(350, 25, 2) == 350.25
  {
    assert Shifted(25, 2) == 0.25;
  }

  /** A numeral with its point at position `k`. */
  lemma UnsignedWithDot(s: string, k: nat)
    requires FirstDot(s) == Some(k) && k < |s|
    requires AllDigits(s[..k]) && AllDigits(s[k + 1..]) && |s| > 1
    ensures ParseUnsigned(s) == Some(Scaled(DigitsValue(s[..k]), DigitsValue(s[k + 1..]), |s| - k - 1))
  {
  }

  lemma ChargesDot()
    ensures FirstDot("350.25") == Some(3)
  {
    var s := "350.25";
    assert s[0] != '.' && s[1] != '.' && s[2] != '.' && s[3] == '.';
    assert s[1..][1..][1..] == ".25";
  }

  lemma ChargesDigits()
    ensures AllDigits("350") && AllDigits("25")
    ensures DigitsValue("350") == 350 && DigitsValue("25") == 25
  {
    assert DigitsValue("3") == 3 by { assert "3"[..0] == ""; }
    assert DigitsValue("35") == 35 by { assert "35"[..1] == "3"; }
    assert DigitsValue("350") == 350 by { assert "350"[..2] == "35"; }
    assert DigitsValue("2") == 2 by { assert "2"[..0] == ""; }
    assert DigitsValue("25") == 25 by { assert "25"[..1] == "2"; }
  }
}
