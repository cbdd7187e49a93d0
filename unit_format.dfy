/**
 * Model of the unit formatter of scripts/console.ts:
 *
 *   new BigNumber(val.toString()).shiftedBy(-d).toFixed()
 *
 * for an integer `val`. The amount is rendered as the decimal string of
 * val / 10^d in plain notation: no exponent, no trailing zeros after the
 * point and no point when the fraction is zero. The shift is exact; no
 * floating-point value is involved.
 */
module UnitFormat {
  import opened Wrappers

  function Pow10(k: nat): (r: nat)
    ensures r >= 1
  {
    if k == 0 then 1 else 10 * Pow10(k - 1)
  }

  lemma {:induction false} Pow10Add(a: nat, b: nat)
    ensures Pow10(a + b) == Pow10(a) * Pow10(b)
  {
    if a > 0 {
      Pow10Add(a - 1, b);
      calc {
        Pow10(a + b);
        10 * Pow10(a - 1 + b);
        10 * (Pow10(a - 1) * Pow10(b));
        (10 * Pow10(a - 1)) * Pow10(b);
      }
    }
  }

  // ---------------------------------------------------------------------
  // Decimal digits

  predicate IsDigit(c: char) {
    '0' <= c <= '9'
  }

  predicate AllDigits(s: string) {
    forall i :: 0 <= i < |s| ==> IsDigit(s[i])
  }

  function DigitValue(c: char): (v: nat)
    requires IsDigit(c)
    ensures v < 10
  {
    (c as int) - ('0' as int)
  }

  function DigitChar(v: nat): (c: char)
    requires v < 10
    ensures IsDigit(c) && DigitValue(c) == v
  {
    (v + '0' as int) as char
  }

  /** The number a string of decimal digits denotes, most significant digit first. */
  function DigitsValue(s: string): (v: nat)
    requires AllDigits(s)
    ensures v < Pow10(|s|)
  {
    if s == [] then 0 else 10 * DigitsValue(s[..|s| - 1]) + DigitValue(s[|s| - 1])
  }

  lemma {:induction false} DigitsValueAppend(a: string, b: string)
    requires AllDigits(a) && AllDigits(b)
    ensures AllDigits(a + b)
    ensures DigitsValue(a + b) == DigitsValue(a) * Pow10(|b|) + DigitsValue(b)
  {
    if b == [] {
      assert a + b == a;
    } else {
      var b' := b[..|b| - 1];
      assert (a + b)[..|a + b| - 1] == a + b';
      assert (a + b)[|a + b| - 1] == b[|b| - 1];
      DigitsValueAppend(a, b');
      ShiftDigit(DigitsValue(a), Pow10(|b'|), DigitsValue(b'), DigitValue(b[|b| - 1]));
    }
  }

  lemma ShiftDigit(x: int, p: int, y: int, c: int)
    ensures 10 * (x * p + y) + c == x * (10 * p) + (10 * y + c)
  {
  }

  /** A string of '0' digits denotes zero. */
  lemma {:induction false} ZerosValue(z: string)
    requires forall i :: 0 <= i < |z| ==> z[i] == '0'
    ensures AllDigits(z) && DigitsValue(z) == 0
  {
    if z != [] {
      ZerosValue(z[..|z| - 1]);
    }
  }

  /**
   * The ordinary decimal rendering of a natural number, as BigInt's and
   * BigNumber's toString() give it: digits only, no leading zero except
   * for the number zero itself.
   */
  function NatToString(n: nat): (s: string)
    ensures s != [] && AllDigits(s) && DigitsValue(s) == n
    ensures s[0] == '0' ==> s == "0"
    decreases n
  {
    if n < 10 then [DigitChar(n)]
    else
      var s := NatToString(n / 10) + [DigitChar(n % 10)];
      assert s[..|s| - 1] == NatToString(n / 10);
      s
  }

  /** Exactly k digits denoting r (leading zeros kept), for r < 10^k. */
  function FixedDigits(r: nat, k: nat): (s: string)
    requires r < Pow10(k)
    ensures |s| == k && AllDigits(s) && DigitsValue(s) == r
  {
    if k == 0 then []
    else
      var s := FixedDigits(r / 10, k - 1) + [DigitChar(r % 10)];
      assert s[..|s| - 1] == FixedDigits(r / 10, k - 1);
      s
  }

  /** Drops the trailing '0' characters. */
  function TrimTrailingZeros(s: string): (t: string)
    ensures |t| <= |s| && t == s[..|t|]
    ensures t == [] || t[|t| - 1] != '0'
    ensures forall i :: |t| <= i < |s| ==> s[i] == '0'
  {
    if s != [] && s[|s| - 1] == '0' then TrimTrailingZeros(s[..|s| - 1]) else s
  }

  /** Trimming trailing zeros divides the value by 10 per dropped digit. */
  lemma TrimmedValue(s: string)
    requires AllDigits(s)
    ensures AllDigits(TrimTrailingZeros(s))
    ensures DigitsValue(s) ==
            DigitsValue(TrimTrailingZeros(s)) * Pow10(|s| - |TrimTrailingZeros(s)|)
  {
    var t := TrimTrailingZeros(s);
    var z := s[|t|..];
    assert s == t + z;
    ZerosValue(z);
    DigitsValueAppend(t, z);
  }

  // ---------------------------------------------------------------------
  // The formatter

  /** The significant fraction digits of r / 10^d, for r < 10^d. */
  function FractionDigits(r: nat, d: nat): string
    requires r < Pow10(d)
  {
    TrimTrailingZeros(FixedDigits(r, d))
  }

  /** BigNumber(n).shiftedBy(-d).toFixed() for a natural number n. */
  function FormatUnits(n: nat, d: nat): string
  {
    JoinFraction(NatToString(WholeUnits(n, d)), FractionDigits(Remainder(n, d), d))
  }

  /** The integer part of n / 10^d. */
  function WholeUnits(n: nat, d: nat): nat
  {
    var p := Pow10(d);
    assert p >= 1;
    NonNegativeQuotient(n, p);
    n / p
  }

  lemma NonNegativeQuotient(n: nat, p: nat)
    requires p >= 1
    ensures n / p >= 0
  {
  }

  /** The part of n below 10^d, i.e. the fraction of n / 10^d scaled by 10^d. */
  function Remainder(n: nat, d: nat): (r: nat)
    ensures r < Pow10(d)
  {
    n % Pow10(d)
  }

  /** The integer digits, followed by '.' and the fraction digits when there are any. */
  function JoinFraction(whole: string, frac: string): string
  {
    if frac == [] then whole else whole + "." + frac
  }

  /**
   * BigNumber(x.toString()).shiftedBy(-d).toFixed() for an integer x: a
   * negative amount is rendered as '-' followed by its magnitude.
   */
  function Format(x: int, d: nat): string
  {
    Sign(x) + FormatUnits(Magnitude(x), d)
  }

  /** The sign BigNumber prints: '-' for a negative amount, nothing otherwise. */
  function Sign(x: int): string
  {
    if x < 0 then "-" else ""
  }

  function Magnitude(x: int): nat
  {
    if x < 0 then -x else x
  }

  // ---------------------------------------------------------------------
  // Reading a decimal back: the reference the formatter is checked against

  /** The rational number mantissa / 10^scale. */
  datatype Decimal = Decimal(mantissa: int, scale: nat)

  /** v denotes the same rational number as n / 10^d (cross-multiplied, so exact). */
  predicate SameValue(v: Decimal, n: int, d: nat) {
    v.mantissa * Pow10(d) == n * Pow10(v.scale)
  }

  /** Position of the first '.', or |s| when there is none. */
  function DotIndex(s: string): (i: nat)
    ensures i <= |s|
    ensures i < |s| ==> s[i] == '.'
    ensures forall j :: 0 <= j < i ==> s[j] != '.'
  {
    if s == [] || s[0] == '.' then 0 else 1 + DotIndex(s[1..])
  }

  /**
   * Reads an unsigned decimal written in plain notation: one or more
   * digits, optionally followed by '.' and one or more digits.
   */
  function ParseUnsigned(s: string): Option<Decimal>
  {
    var i := DotIndex(s);
    var whole := s[..i];
    if whole == [] || !AllDigits(whole) then None
    else if i == |s| then Some(Decimal(DigitsValue(whole), 0))
    else
      var frac := s[i + 1..];
      if frac == [] || !AllDigits(frac) then None
      else
        DigitsValueAppend(whole, frac);
        Some(Decimal(DigitsValue(whole + frac), |frac|))
  }

  /** Reads a plain-notation decimal with an optional leading '-'. */
  function ParseDecimal(s: string): Option<Decimal>
  {
    if s != [] && s[0] == '-' then
      match ParseUnsigned(s[1..])
      case Some(v) => Some(Decimal(-v.mantissa, v.scale))
      case None => None
    else ParseUnsigned(s)
  }

  /**
   * Plain fixed-point notation without redundant zeros: an integer part
   * with no leading zero (unless it is exactly "0"), then optionally '.'
   * and fraction digits whose last digit is not '0'.
   */
  predicate IsPlainUnsigned(s: string) {
    var i := DotIndex(s);
    var whole := s[..i];
    && whole != [] && AllDigits(whole) && (whole[0] == '0' ==> whole == "0")
    && (i < |s| ==> var frac := s[i + 1..]; frac != [] && AllDigits(frac) && frac[|frac| - 1] != '0')
  }

  /** IsPlainUnsigned, optionally negated by a leading '-' (never "-0"). */
  predicate IsPlainDecimal(s: string) {
    if s != [] && s[0] == '-' then IsPlainUnsigned(s[1..]) && s[1..] != "0"
    else IsPlainUnsigned(s)
  }

  // ---------------------------------------------------------------------
  // Properties of the formatter

  lemma DotIndexOfDigits(s: string)
    requires AllDigits(s)
    ensures DotIndex(s) == |s|
  {
  }

  /** How the reader splits an integer part and a fraction part joined by the formatter. */
  lemma ParseJoined(whole: string, frac: string)
    requires whole != [] && AllDigits(whole) && AllDigits(frac)
    ensures AllDigits(whole + frac)
    ensures ParseUnsigned(JoinFraction(whole, frac)) == Some(Decimal(DigitsValue(whole + frac), |frac|))
  {
    DigitsValueAppend(whole, frac);
    var s := JoinFraction(whole, frac);
    if frac == [] {
      assert whole + frac == whole;
      DotIndexOfDigits(whole);
      assert s[..|s|] == whole;
    } else {
      assert s[|whole|] == '.';
      assert DotIndex(s) == |whole|;
      assert s[..|whole|] == whole;
      assert s[|whole| + 1..] == frac;
    }
  }

  lemma ScaleIdentity(q: int, vf: int, pz: int, pf: int)
    ensures (q * pf + vf) * (pz * pf) == (q * (pz * pf) + vf * pz) * pf
  {
    calc {
      (q * pf + vf) * (pz * pf);
      q * pf * (pz * pf) + vf * (pz * pf);
      (q * (pz * pf)) * pf + (vf * pz) * pf;
      (q * (pz * pf) + vf * pz) * pf;
    }
  }

  /** The amount splits into its whole units and its remainder. */
  lemma WholeAndRemainder(n: nat, d: nat)
    ensures n == WholeUnits(n, d) * Pow10(d) + Remainder(n, d)
  {
    DivMod(n, Pow10(d));
  }

  /** There are no whole units exactly when the amount is below 10^d. */
  lemma WholeUnitsZero(n: nat, d: nat)
    ensures WholeUnits(n, d) == 0 <==> n < Pow10(d)
  {
    DivMod(n, Pow10(d));
  }

  lemma DivMod(n: nat, p: nat)
    requires p >= 1
    ensures n == (n / p) * p + n % p
    ensures n / p == 0 <==> n < p
  {
    if n >= p {
      assert n / p >= 1;
    }
  }

  /** The remainder is the fraction digits' value shifted left past the dropped zeros. */
  lemma FractionValue(r: nat, d: nat)
    requires r < Pow10(d)
    ensures |FractionDigits(r, d)| <= d && AllDigits(FractionDigits(r, d))
    ensures r == DigitsValue(FractionDigits(r, d)) * Pow10(d - |FractionDigits(r, d)|)
    ensures FractionDigits(r, d) == [] || FractionDigits(r, d)[|FractionDigits(r, d)| - 1] != '0'
  {
    TrimmedValue(FixedDigits(r, d));
  }

  lemma CrossMultiplied(n: int, q: int, r: int, vf: int, m: int, pd: int, pz: int, pf: int)
    requires n == q * pd + r && r == vf * pz && pd == pz * pf && m == q * pf + vf
    ensures m * pd == n * pf
  {
    ScaleIdentity(q, vf, pz, pf);
  }

  /**
   * Round trip: reading the formatted string back gives exactly n / 10^d,
   * in lowest terms (no fraction digit is a redundant trailing zero).
   */
  lemma FormatUnitsRoundTrip(n: nat, d: nat)
    ensures ParseUnsigned(FormatUnits(n, d)).Some?
    ensures SameValue(ParseUnsigned(FormatUnits(n, d)).value, n, d)
    ensures ParseUnsigned(FormatUnits(n, d)).value.scale == 0 ||
            ParseUnsigned(FormatUnits(n, d)).value.mantissa % 10 != 0
  {
    var q, r := WholeUnits(n, d), Remainder(n, d);
    var w, f := NatToString(q), FractionDigits(r, d);
    WholeAndRemainder(n, d);
    FractionValue(r, d);
    ParseJoined(w, f);
    DigitsValueAppend(w, f);
    Pow10Add(d - |f|, |f|);
    CrossMultiplied(n, q, r, DigitsValue(f), DigitsValue(w + f), Pow10(d), Pow10(d - |f|), Pow10(|f|));
    if f != [] {
      LastDigit(w + f);
      assert (w + f)[|w + f| - 1] == f[|f| - 1];
    }
  }

  /** The last digit of a digit string is its value modulo 10. */
  lemma LastDigit(s: string)
    requires s != [] && AllDigits(s)
    ensures DigitsValue(s) % 10 == DigitValue(s[|s| - 1])
  {
    var c := DigitValue(s[|s| - 1]);
    assert DigitsValue(s) == 10 * DigitsValue(s[..|s| - 1]) + c;
    TensDigit(DigitsValue(s[..|s| - 1]), c);
  }

  lemma TensDigit(x: nat, c: nat)
    requires c < 10
    ensures (10 * x + c) % 10 == c
  {
  }

  /** The formatted string is plain fixed-point notation without redundant zeros. */
  lemma FormatUnitsIsPlain(n: nat, d: nat)
    ensures IsPlainUnsigned(FormatUnits(n, d))
  {
    TrimmedValue(FixedDigits(Remainder(n, d), d));
    JoinIsPlain(NatToString(WholeUnits(n, d)), FractionDigits(Remainder(n, d), d));
  }

  /** Joining a canonical integer part and significant fraction digits gives plain notation. */
  lemma JoinIsPlain(w: string, f: string)
    requires w != [] && AllDigits(w) && (w[0] == '0' ==> w == "0")
    requires AllDigits(f) && (f == [] || f[|f| - 1] != '0')
    ensures IsPlainUnsigned(JoinFraction(w, f))
  {
    var s := JoinFraction(w, f);
    if f == [] {
      DotIndexOfDigits(w);
      assert s[..DotIndex(s)] == w;
    } else {
      assert s[|w|] == '.';
      assert DotIndex(s) == |w|;
      assert s[..|w|] == w;
      assert s[|w| + 1..] == f;
    }
  }

  /** Plain notation uses only digits, one leading '-' at most and one '.' at most: no exponent. */
  lemma PlainCharacters(s: string)
    requires IsPlainDecimal(s)
    ensures s != []
    ensures forall i :: 0 <= i < |s| ==> IsDigit(s[i]) || s[i] == '.' || (i == 0 && s[i] == '-')
    ensures forall i, j :: 0 <= i < j < |s| && s[i] == '.' ==> s[j] != '.'
  {
    var o := if s != [] && s[0] == '-' then 1 else 0;
    var u := s[o..];
    var i := DotIndex(u);
    assert u[..i] != [];
    forall k | 0 <= k < |u|
      ensures IsDigit(u[k]) || (k == i && u[k] == '.')
    {
      if k < i {
        assert u[k] == u[..i][k];
      } else if k > i {
        assert u[k] == u[i + 1..][k - i - 1];
      }
    }
  }

  /** The integer part is a single "0" exactly when the amount is below one whole unit. */
  lemma FormatUnitsLeadingZero(n: nat, d: nat)
    ensures FormatUnits(n, d) != []
    ensures FormatUnits(n, d)[0] == '0' <==> n < Pow10(d)
    ensures n < Pow10(d) ==> FormatUnits(n, d) == "0" || FormatUnits(n, d)[..2] == "0."
  {
    var q := WholeUnits(n, d);
    JoinedFront(NatToString(q), FractionDigits(Remainder(n, d), d));
    WholeUnitsZero(n, d);
    assert NatToString(q)[0] == '0' <==> q == 0 by {
      if q == 0 {
        assert NatToString(q) == [DigitChar(0)];
      }
    }
  }

  /** Joining keeps the integer part in front, so "0" stays a lone "0" or a "0." prefix. */
  lemma JoinedFront(whole: string, frac: string)
    requires whole != []
    ensures JoinFraction(whole, frac) != [] && JoinFraction(whole, frac)[0] == whole[0]
    ensures whole == "0" ==> JoinFraction(whole, frac) == "0" || JoinFraction(whole, frac)[..2] == "0."
  {
    if frac != [] {
      assert JoinFraction(whole, frac) == whole + "." + frac;
    }
  }

  /** Only the amount zero formats as "0". */
  lemma FormatUnitsZero(n: nat, d: nat)
    ensures FormatUnits(n, d) == "0" <==> n == 0
  {
    var q, r := WholeUnits(n, d), Remainder(n, d);
    WholeAndRemainder(n, d);
    WholeUnitsZero(n, d);
    NatToStringZero(q);
    FractionDigitsEmpty(r, d);
    JoinedZero(NatToString(q), FractionDigits(r, d));
  }

  lemma NatToStringZero(q: nat)
    ensures NatToString(q) == "0" <==> q == 0
  {
    if q == 0 {
      assert NatToString(q) == [DigitChar(0)];
    }
  }

  /** The fraction digits are empty exactly when the remainder is zero. */
  lemma FractionDigitsEmpty(r: nat, d: nat)
    requires r < Pow10(d)
    ensures FractionDigits(r, d) == [] <==> r == 0
  {
    FractionValueZero(r, d);
    SignificantDigitsZero(FractionDigits(r, d));
  }

  lemma FractionValueZero(r: nat, d: nat)
    requires r < Pow10(d)
    ensures AllDigits(FractionDigits(r, d))
    ensures FractionDigits(r, d) == [] || FractionDigits(r, d)[|FractionDigits(r, d)| - 1] != '0'
    ensures r == 0 <==> DigitsValue(FractionDigits(r, d)) == 0
  {
    var f := FractionDigits(r, d);
    FractionValue(r, d);
    var v, p := DigitsValue(f), Pow10(d - |f|);
    assert r == v * p;
    if r == 0 {
      assert v == 0 by { MultipleBounds(v, p); }
    } else {
      assert v != 0;
    }
  }

  /** Digits without a trailing zero denote zero only when there are none. */
  lemma SignificantDigitsZero(f: string)
    requires AllDigits(f) && (f == [] || f[|f| - 1] != '0')
    ensures DigitsValue(f) == 0 <==> f == []
  {
    if f != [] {
      LastDigit(f);
    }
  }


  lemma JoinedZero(whole: string, frac: string)
    requires whole != []
    ensures JoinFraction(whole, frac) == "0" <==> whole == "0" && frac == []
  {
    if frac != [] {
      assert |JoinFraction(whole, frac)| == |whole| + 1 + |frac|;
    }
  }

  /** With no decimals the formatter is the ordinary decimal rendering of the amount. */
  lemma FormatUnitsNoDecimals(n: nat)
    ensures FormatUnits(n, 0) == NatToString(n)
  {
  }

  lemma NegatedValue(v: Decimal, n: int, d: nat)
    requires SameValue(v, n, d)
    ensures SameValue(Decimal(-v.mantissa, v.scale), -n, d)
  {
    assert (-v.mantissa) * Pow10(d) == -(v.mantissa * Pow10(d));
    assert (-n) * Pow10(v.scale) == -(n * Pow10(v.scale));
  }

  lemma ParseNegated(u: string)
    requires ParseUnsigned(u).Some?
    ensures ParseDecimal("-" + u) ==
            Some(Decimal(-ParseUnsigned(u).value.mantissa, ParseUnsigned(u).value.scale))
  {
    assert ("-" + u)[1..] == u;
  }

  /** Signed amounts: the sign in front of the magnitude; the reading is still exact. */
  lemma FormatRoundTrip(x: int, d: nat)
    ensures ParseDecimal(Format(x, d)).Some?
    ensures SameValue(ParseDecimal(Format(x, d)).value, x, d)
  {
    var m := Magnitude(x);
    FormatUnitsRoundTrip(m, d);
    FormatUnitsStartsWithDigit(m, d);
    SignedReading(x, FormatUnits(m, d), d);
  }

  /** Reading back a sign followed by an unsigned rendering of the magnitude. */
  lemma SignedReading(x: int, u: string, d: nat)
    requires u != [] && IsDigit(u[0])
    requires ParseUnsigned(u).Some? && SameValue(ParseUnsigned(u).value, Magnitude(x), d)
    ensures ParseDecimal(Sign(x) + u).Some? && SameValue(ParseDecimal(Sign(x) + u).value, x, d)
  {
    if x < 0 {
      ParseNegated(u);
      NegatedValue(ParseUnsigned(u).value, Magnitude(x), d);
    } else {
      assert Sign(x) + u == u;
    }
  }

  lemma FormatUnitsStartsWithDigit(n: nat, d: nat)
    ensures FormatUnits(n, d) != [] && IsDigit(FormatUnits(n, d)[0])
  {
    var w := NatToString(WholeUnits(n, d));
    var f := FractionDigits(Remainder(n, d), d);
    JoinedFront(w, f);
  }

  /** Every formatted amount, negative ones included, is in plain notation. */
  lemma FormatIsPlain(x: int, d: nat)
    ensures IsPlainDecimal(Format(x, d))
  {
    var m := Magnitude(x);
    FormatUnitsIsPlain(m, d);
    FormatUnitsStartsWithDigit(m, d);
    FormatUnitsZero(m, d);
    SignedPlain(x, FormatUnits(m, d));
  }

  /** A sign in front of a plain unsigned rendering is plain, unless it would be "-0". */
  lemma SignedPlain(x: int, u: string)
    requires IsPlainUnsigned(u) && u != [] && IsDigit(u[0])
    requires x < 0 ==> u != "0"
    ensures IsPlainDecimal(Sign(x) + u)
  {
    if x < 0 {
      assert (Sign(x) + u)[1..] == u;
    } else {
      assert Sign(x) + u == u;
    }
  }

  lemma CancelFactor(x: int, y: int, p: int)
    requires p >= 1 && x * p == y * p
    ensures x == y
  {
  }

  /** Distinct amounts never format to the same string. */
  lemma FormatInjective(x: int, y: int, d: nat)
    requires Format(x, d) == Format(y, d)
    ensures x == y
  {
    FormatRoundTrip(x, d);
    FormatRoundTrip(y, d);
    var v := ParseDecimal(Format(x, d)).value;
    CancelFactor(x, y, Pow10(v.scale));
  }

  // ---------------------------------------------------------------------
  // Uniqueness: the formatted string is the only plain rendering of n / 10^d

  /** A leading digit other than '0' puts the value at or above 10^(|s| - 1). */
  lemma LeadingDigitBound(s: string)
    requires s != [] && AllDigits(s) && s[0] != '0'
    ensures DigitsValue(s) >= Pow10(|s| - 1)
  {
    var rest := s[1..];
    assert s == [s[0]] + rest;
    DigitsValueAppend([s[0]], rest);
    assert DigitsValue([s[0]]) >= 1;
  }

  /** A digit string without redundant leading zero is the rendering of its own value. */
  lemma {:induction false} CanonicalDigitsUnique(w: string)
    requires w != [] && AllDigits(w) && (w[0] == '0' ==> w == "0")
    ensures NatToString(DigitsValue(w)) == w
  {
    var n := DigitsValue(w);
    if |w| == 1 {
      assert n == DigitValue(w[0]);
    } else {
      var init := w[..|w| - 1];
      LeadingDigitBound(w);
      assert Pow10(|w| - 1) >= 10;
      assert init[0] == w[0];
      CanonicalDigitsUnique(init);
      DivMod(n, 10);
      assert n == 10 * DigitsValue(init) + DigitValue(w[|w| - 1]);
      assert n / 10 == DigitsValue(init) && n % 10 == DigitValue(w[|w| - 1]);
      assert w == init + [w[|w| - 1]];
    }
  }

  /** A digit string of length k is the k-digit rendering of its own value. */
  lemma {:induction false} FixedDigitsUnique(s: string)
    requires AllDigits(s)
    ensures FixedDigits(DigitsValue(s), |s|) == s
  {
    if s != [] {
      var init := s[..|s| - 1];
      var n := DigitsValue(s);
      FixedDigitsUnique(init);
      DivMod(n, 10);
      assert n / 10 == DigitsValue(init) && n % 10 == DigitValue(s[|s| - 1]);
      assert s == init + [s[|s| - 1]];
    }
  }

  /** Trailing zeros appended to a string that does not end in '0' are exactly what trimming drops. */
  lemma {:induction false} TrimAppendedZeros(t: string, z: string)
    requires t == [] || t[|t| - 1] != '0'
    requires forall i :: 0 <= i < |z| ==> z[i] == '0'
    ensures TrimTrailingZeros(t + z) == t
  {
    if z == [] {
      assert t + z == t;
    } else {
      var z' := z[..|z| - 1];
      assert (t + z)[..|t + z| - 1] == t + z';
      TrimAppendedZeros(t, z');
    }
  }

  function Zeros(k: nat): (z: string)
    ensures |z| == k && forall i :: 0 <= i < k ==> z[i] == '0'
  {
    if k == 0 then [] else Zeros(k - 1) + ['0']
  }

  /** A non-zero integer multiple of p is at least p away from zero. */
  lemma MultipleBounds(x: int, p: int)
    ensures p >= 1 && x >= 1 ==> x * p >= p
    ensures p >= 1 && x <= -1 ==> x * p <= -p
  {
  }

  /** Division is determined by any quotient/remainder pair. */
  lemma DivUnique(n: nat, p: nat, a: int, b: int)
    requires p >= 1 && n == a * p + b && 0 <= b < p
    ensures n / p == a && n % p == b
  {
    DivMod(n, p);
    var q, r := n / p, n % p;
    assert (q - a) * p == b - r;
    MultipleBounds(q - a, p);
  }

  lemma Pow10Split(k: nat, d: nat)
    requires k > d
    ensures Pow10(k) == 10 * (Pow10(k - d - 1) * Pow10(d))
  {
    Pow10Add(k - d - 1, d);
    assert Pow10(k - d) == 10 * Pow10(k - d - 1);
    Pow10Add(k - d, d);
  }

  lemma Reassociate(n: int, t: int, p: int)
    ensures n * (10 * (t * p)) == (10 * (n * t)) * p
  {
  }

  /**
   * A reading whose last fraction digit is not zero cannot carry more
   * fraction digits than the d decimals of n / 10^d: otherwise its
   * mantissa would be a multiple of 10.
   */
  lemma ScaleBound(m: int, n: int, k: nat, d: nat)
    ensures m * Pow10(d) == n * Pow10(k) && k > d ==> m % 10 == 0
  {
    if m * Pow10(d) == n * Pow10(k) && k > d {
      var t := Pow10(k - d - 1);
      Pow10Split(k, d);
      Reassociate(n, t, Pow10(d));
      CancelFactor(m, 10 * (n * t), Pow10(d));
    }
  }

  lemma Uncross(m: int, n: int, pz: int, pk: int)
    requires pk >= 1 && m * (pz * pk) == n * pk
    ensures n == m * pz
  {
    CancelFactor(m * pz, n, pk);
  }

  lemma AddScaled(a: int, b: int, pk: int, pz: int)
    ensures (a * pk + b) * pz == a * (pz * pk) + b * pz
  {
  }

  lemma MulBelow(b: nat, pk: nat, pz: nat)
    requires b < pk
    ensures b * pz <= pz * pk - pz
  {
    assert b * pz <= (pk - 1) * pz;
  }

  /** The arithmetic half of uniqueness: the reading fixes the whole units and the remainder. */
  lemma ReadingSplit(w: string, f: string, n: nat, d: nat)
    requires w != [] && AllDigits(w) && AllDigits(f) && (f == [] || f[|f| - 1] != '0')
    requires AllDigits(w + f) && SameValue(Decimal(DigitsValue(w + f), |f|), n, d)
    ensures |f| <= d
    ensures WholeUnits(n, d) == DigitsValue(w)
    ensures Remainder(n, d) == DigitsValue(f) * Pow10(d - |f|)
  {
    var m := DigitsValue(w + f);
    var k := |f|;
    ScaleFits(w, f, n, d);
    var z := d - k;
    DigitsValueAppend(w, f);
    Pow10Add(z, k);
    var a, b := DigitsValue(w), DigitsValue(f);
    assert m == a * Pow10(k) + b;
    assert m * Pow10(d) == n * Pow10(k);
    ShiftedSplit(n, m, a, b, Pow10(d), Pow10(k), Pow10(z));
    DivUnique(n, Pow10(d), a, b * Pow10(z));
  }

  /** A reading in lowest terms has no more fraction digits than the d decimals. */
  lemma ScaleFits(w: string, f: string, n: nat, d: nat)
    requires w != [] && AllDigits(w) && AllDigits(f) && (f == [] || f[|f| - 1] != '0')
    requires AllDigits(w + f) && SameValue(Decimal(DigitsValue(w + f), |f|), n, d)
    ensures |f| <= d
  {
    if f != [] {
      LastDigit(w + f);
      assert (w + f)[|w + f| - 1] == f[|f| - 1];
    }
    ScaleBound(DigitsValue(w + f), n, |f|, d);
  }

  /**
   * Cross-multiplied readings: when m / pk == n / pd with pd == pz * pk and
   * m == a * pk + b, the amount n is a * pd + b * pz, and b * pz < pd.
   */
  lemma ShiftedSplit(n: int, m: int, a: int, b: nat, pd: int, pk: nat, pz: nat)
    requires pk >= 1 && pd == pz * pk && b < pk
    requires m == a * pk + b && m * pd == n * pk
    ensures n == a * pd + b * pz
    ensures 0 <= b * pz && (b * pz < pd || pz == 0)
  {
    assert m * (pz * pk) == n * pk;
    Uncross(m, n, pz, pk);
    AddScaled(a, b, pk, pz);
    MulBelow(b, pk, pz);
  }

  /**
   * The string half of uniqueness: significant fraction digits padded with
   * z zeros come back unchanged from the fraction rendering.
   */
  lemma FractionOfDigits(f: string, z: nat) returns (padded: string)
    requires AllDigits(f) && (f == [] || f[|f| - 1] != '0')
    ensures padded == f + Zeros(z) && |padded| == |f| + z && AllDigits(padded)
    ensures DigitsValue(padded) < Pow10(|padded|)
    ensures FractionDigits(DigitsValue(padded), |padded|) == f
  {
    padded := PaddedDigits(f, z);
    FixedDigitsUnique(padded);
    TrimAppendedZeros(f, Zeros(z));
  }

  /** f followed by z zeros is a digit string of length |f| + z. */
  lemma PaddedDigits(f: string, z: nat) returns (padded: string)
    requires AllDigits(f)
    ensures padded == f + Zeros(z) && |padded| == |f| + z && AllDigits(padded)
    ensures DigitsValue(padded) < Pow10(|padded|)
  {
    padded := f + Zeros(z);
    forall i | 0 <= i < |padded|
      ensures IsDigit(padded[i])
    {
      if i < |f| {
        assert padded[i] == f[i];
      } else {
        assert padded[i] == Zeros(z)[i - |f|];
      }
    }
  }

  /** f followed by z zeros denotes f's value times 10^z. */
  lemma PaddedValue(f: string, z: nat, padded: string)
    requires AllDigits(f) && padded == f + Zeros(z)
    ensures AllDigits(padded) && DigitsValue(padded) == DigitsValue(f) * Pow10(z)
  {
    ZerosValue(Zeros(z));
    DigitsValueAppend(f, Zeros(z));
  }

  /** A plain-notation string is an integer part joined with significant fraction digits. */
  lemma SplitPlain(s: string) returns (w: string, f: string)
    requires IsPlainUnsigned(s)
    ensures s == JoinFraction(w, f)
    ensures w != [] && AllDigits(w) && (w[0] == '0' ==> w == "0")
    ensures AllDigits(f) && (f == [] || f[|f| - 1] != '0')
    ensures AllDigits(w + f) && ParseUnsigned(s) == Some(Decimal(DigitsValue(w + f), |f|))
  {
    var i := DotIndex(s);
    w := s[..i];
    if i < |s| {
      f := s[i + 1..];
      assert s == w + "." + f by {
        assert s == s[..i] + [s[i]] + s[i + 1..];
      }
    } else {
      f := [];
      assert s == w;
    }
    ParseJoined(w, f);
  }

  /** The formatted string is the only plain-notation string that reads back as n / 10^d. */
  lemma FormatUnitsUnique(n: nat, d: nat, s: string)
    requires IsPlainUnsigned(s)
    requires ParseUnsigned(s).Some? && SameValue(ParseUnsigned(s).value, n, d)
    ensures s == FormatUnits(n, d)
  {
    var w, f := SplitPlain(s);
    ReadingSplit(w, f, n, d);
    CanonicalDigitsUnique(w);
    RemainderDigits(n, d, f);
    assert NatToString(WholeUnits(n, d)) == w;
  }

  /** A remainder that is f's value shifted past d - |f| zeros renders as exactly f. */
  lemma RemainderDigits(n: nat, d: nat, f: string)
    requires AllDigits(f) && (f == [] || f[|f| - 1] != '0') && |f| <= d
    requires Remainder(n, d) == DigitsValue(f) * Pow10(d - |f|)
    ensures FractionDigits(Remainder(n, d), d) == f
  {
    var z := d - |f|;
    var padded := FractionOfDigits(f, z);
    PaddedValue(f, z, padded);
    assert |padded| == d;
    assert Remainder(n, d) == DigitsValue(padded);
  }

  /**
   * The whole specification of the formatter: a string is the rendering of
   * n / 10^d exactly when it is in plain notation and reads back as that value.
   */
  lemma FormatUnitsCharacterised(n: nat, d: nat, s: string)
    ensures s == FormatUnits(n, d) <==>
            IsPlainUnsigned(s) && ParseUnsigned(s).Some? && SameValue(ParseUnsigned(s).value, n, d)
  {
    FormatUnitsIsPlain(n, d);
    FormatUnitsRoundTrip(n, d);
    if IsPlainUnsigned(s) && ParseUnsigned(s).Some? && SameValue(ParseUnsigned(s).value, n, d) {
      FormatUnitsUnique(n, d, s);
    }
  }

  lemma Pow10Of18()
    ensures Pow10(18) == 1_000_000_000_000_000_000
  {
    Pow10Add(9, 9);
    Pow10Add(3, 6);
    Pow10Add(3, 3);
    assert Pow10(3) == 1000;
  }

  /** One whole token (10^18 smallest units at 18 decimals) renders as "1". */
  lemma FormatOneToken()
    ensures FormatUnits(1_000_000_000_000_000_000, 18) == "1"
  {
    Pow10Of18();
    JoinIsPlain("1", []);
    ParseJoined("1", []);
    assert JoinFraction("1", []) == "1";
    FormatUnitsUnique(1_000_000_000_000_000_000, 18, "1");
  }

  /** One smallest unit at d decimals: "0.", then d - 1 zeros, then "1" ("0.000000000000000001" at 18). */
  lemma FormatSmallestUnit(d: nat)
    requires d >= 1
    ensures FormatUnits(1, d) == "0." + Zeros(d - 1) + "1"
  {
    var z := Zeros(d - 1);
    var f := z + "1";
    OneAfterZeros(z);
    var s := JoinFraction("0", f);
    JoinIsPlain("0", f);
    ParseJoined("0", f);
    LeadingZeroValue(f);
    assert ParseUnsigned(s) == Some(Decimal(1, d));
    FormatUnitsUnique(1, d, s);
    JoinedAfterZero(z, s);
  }

  /** Zeros followed by a '1' denote one. */
  lemma OneAfterZeros(z: string)
    requires forall i :: 0 <= i < |z| ==> z[i] == '0'
    ensures AllDigits(z + "1") && DigitsValue(z + "1") == 1 && (z + "1")[|z|] == '1'
  {
    ZerosValue(z);
    DigitsValueAppend(z, "1");
    assert DigitsValue("1") == 1;
  }

  /** A leading '0' does not change the value of a digit string. */
  lemma LeadingZeroValue(f: string)
    requires AllDigits(f)
    ensures AllDigits("0" + f) && DigitsValue("0" + f) == DigitsValue(f)
  {
    DigitsValueAppend("0", f);
    assert DigitsValue("0") == 0;
  }

  lemma JoinedAfterZero(z: string, s: string)
    requires s == JoinFraction("0", z + "1")
    ensures s == "0." + z + "1"
  {
    assert s == "0" + "." + (z + "1");
    forall i | 0 <= i < |s|
      ensures s[i] == ("0." + z + "1")[i]
    {
    }
  }

  /** One and a half tokens: the fraction keeps only its significant digit, "1.5". */
  lemma FormatOneAndAHalf()
    ensures FormatUnits(1_500_000_000_000_000_000, 18) == "1.5"
  {
    Pow10Of18();
    JoinIsPlain("1", "5");
    ParseJoined("1", "5");
    assert JoinFraction("1", "5") == "1.5";
    FormatUnitsUnique(1_500_000_000_000_000_000, 18, "1.5");
  }
}
