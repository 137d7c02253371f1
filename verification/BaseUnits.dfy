/** The decimal printer of apps/api/src/balances/balances.service.ts and the reading that inverts it. */
module BaseUnits {
  import opened IntMath

  function Pow10(n: nat): (r: nat)
    ensures r > 0
  {
    if n == 0 then 1 else 10 * Pow10(n - 1)
  }

  function Digit(d: nat): char
    requires d < 10
  {
    '0' + d as char
  }

  predicate IsDigit(c: char) {
    '0' <= c <= '9'
  }

  predicate AllDigits(s: string) {
    forall i :: 0 <= i < |s| ==> IsDigit(s[i])
  }

  /** `BigInt.prototype.toString`. */
  function ToString(n: nat): (s: string)
    ensures s != [] && AllDigits(s) && (n > 0 ==> s[0] != '0')
  {
    if n < 10 then [Digit(n)] else ToString(n / 10) + [Digit(n % 10)]
  }

  /** `padStart(width, '0')`. */
  function PadStart(s: string, width: nat): (r: string)
    ensures AllDigits(s) ==> AllDigits(r)
    decreases width - |s|
  {
    if |s| >= width then s else PadStart(['0'] + s, width)
  }

  /** `replace(/0+$/, '')`. */
  function StripZeros(s: string): (r: string)
    ensures AllDigits(s) ==> AllDigits(r)
    ensures |r| <= |s|
  {
    if s != [] && s[|s| - 1] == '0' then StripZeros(s[..|s| - 1]) else s
  }

  /** `amount / divisor` and `amount % divisor`. */
  function WholeAndPart(amount: nat, divisor: nat): (r: (nat, nat))
    requires divisor > 0
    ensures amount == r.0 * divisor + r.1 && r.1 < divisor
  {
    DivIff(amount, divisor, 0);
    (amount / divisor, amount % divisor)
  }

  /** The fraction as printed: padded to `decimals` digits, trailing zeros dropped. */
  function Fraction(part: nat, decimals: nat): (frac: string)
    ensures AllDigits(frac)
  {
    StripZeros(PadStart(ToString(part), decimals))
  }

  function FromBaseUnits(amount: nat, decimals: nat): string {
    var (whole, part) := WholeAndPart(amount, Pow10(decimals));
    var frac := Fraction(part, decimals);
    if frac != [] then ToString(whole) + "." + frac else ToString(whole)
  }

  // ----- reading a decimal back --------------------------------------------------

  /** The number a digit string denotes. */
  function ReadNat(s: string): nat
    requires AllDigits(s)
  {
    if s == [] then 0 else 10 * ReadNat(s[..|s| - 1]) + (s[|s| - 1] as int - '0' as int)
  }

  function IndexOfPoint(s: string): (i: nat)
    ensures i <= |s|
  {
    if s == [] || s[0] == '.' then 0 else 1 + IndexOfPoint(s[1..])
  }

  /** A digit string, optionally followed by a point and more digits. */
  predicate IsDecimal(s: string) {
    var i := IndexOfPoint(s);
    AllDigits(s[..i]) && (i < |s| ==> AllDigits(s[i + 1..]))
  }

  /** The value of a decimal in units of 10^-decimals, when its fraction is that short. */
  function Read(s: string, decimals: nat): int
    requires IsDecimal(s)
  {
    var i := IndexOfPoint(s);
    if i == |s| then ReadNat(s) * Pow10(decimals)
    else
      var frac := s[i + 1..];
      ReadNat(s[..i]) * Pow10(decimals)
      + (if |frac| <= decimals then ReadNat(frac) * Pow10(decimals - |frac|) else 0)
  }

  // ----- digits ------------------------------------------------------------------

  lemma {:induction false} ReadToString(n: nat)
    ensures ReadNat(ToString(n)) == n
  {
    if n >= 10 {
      ReadToString(n / 10);
      var s := ToString(n);
      assert s[..|s| - 1] == ToString(n / 10);
    } else {
      var s := ToString(n);
      assert s[..0] == [];
    }
  }

  lemma {:induction false} ReadLeadingZero(s: string)
    requires AllDigits(s)
    ensures AllDigits(['0'] + s) && ReadNat(['0'] + s) == ReadNat(s)
  {
    if s != [] {
      ReadLeadingZero(s[..|s| - 1]);
      assert (['0'] + s)[..|s|] == ['0'] + s[..|s| - 1];
    } else {
      assert (['0'] + s)[..0] == [];
    }
  }

  lemma {:induction false} ReadPadded(s: string, width: nat)
    requires AllDigits(s)
    ensures ReadNat(PadStart(s, width)) == ReadNat(s)
    ensures |PadStart(s, width)| == if |s| >= width then |s| else width
    decreases width - |s|
  {
    if |s| < width {
      ReadLeadingZero(s);
      ReadPadded(['0'] + s, width);
    }
  }

  lemma {:induction false} ReadStripped(s: string, decimals: nat)
    requires AllDigits(s) && |s| <= decimals
    ensures ReadNat(StripZeros(s)) * Pow10(decimals - |StripZeros(s)|) == ReadNat(s) * Pow10(decimals - |s|)
  {
    if s != [] && s[|s| - 1] == '0' {
      ReadStripped(s[..|s| - 1], decimals);
      Regroup(ReadNat(s[..|s| - 1]), 10, Pow10(decimals - |s|));
    }
  }

  lemma {:induction false} StrippedEnd(s: string)
    ensures StripZeros(s) != [] ==> StripZeros(s)[|StripZeros(s)| - 1] != '0'
    ensures StripZeros(s) == [] <==> forall i :: 0 <= i < |s| ==> s[i] == '0'
  {
    if s != [] && s[|s| - 1] == '0' {
      StrippedEnd(s[..|s| - 1]);
    }
  }

  /** A number below 10^width has at most `width` digits (one for zero). */
  lemma {:induction false} ToStringLength(n: nat, width: nat)
    requires n < Pow10(width)
    ensures |ToString(n)| <= if width == 0 then 1 else width
  {
    if n >= 10 {
      ToStringLength(n / 10, width - 1);
      assert width >= 2;
    }
  }

  lemma {:induction false} PointAfterDigits(s: string, rest: string)
    requires AllDigits(s) && (rest == [] || rest[0] == '.')
    ensures IndexOfPoint(s + rest) == |s|
  {
    if s != [] {
      assert (s + rest)[0] == s[0] && (s + rest)[1..] == s[1..] + rest;
      PointAfterDigits(s[1..], rest);
    } else {
      assert s + rest == rest;
    }
  }

  // ----- the printer -------------------------------------------------------------

  /** The printed fraction denotes the part, is short enough and does not end in a zero. */
  lemma FractionDenotesPart(part: nat, decimals: nat)
    requires part < Pow10(decimals)
    ensures var frac := Fraction(part, decimals);
            && |frac| <= decimals
            && ReadNat(frac) * Pow10(decimals - |frac|) == part
            && (frac != [] ==> frac[|frac| - 1] != '0')
  {
    var digits := PadStart(ToString(part), decimals);
    ReadToString(part);
    ReadPadded(ToString(part), decimals);
    ToStringLength(part, decimals);
    StrippedEnd(digits);
    if decimals == 0 {
      assert part == 0 && digits == "0";
      assert StripZeros("0") == StripZeros("0"[..0]);
    } else {
      ReadStripped(digits, decimals);
      assert Pow10(0) == 1;
    }
  }

  lemma ReadWithFraction(whole: string, frac: string, decimals: nat)
    requires AllDigits(whole) && AllDigits(frac) && |frac| <= decimals
    ensures var s := whole + "." + frac;
            && IndexOfPoint(s) == |whole| && IsDecimal(s) && s[|whole| + 1..] == frac
            && Read(s, decimals) == ReadNat(whole) * Pow10(decimals) + ReadNat(frac) * Pow10(decimals - |frac|)
  {
    var s := whole + "." + frac;
    PointAfterDigits(whole, "." + frac);
    assert s == whole + ("." + frac);
    assert s[..|whole|] == whole && s[|whole| + 1..] == frac;
  }

  lemma ReadWithoutFraction(whole: string, decimals: nat)
    requires AllDigits(whole)
    ensures IndexOfPoint(whole) == |whole| && IsDecimal(whole)
    ensures Read(whole, decimals) == ReadNat(whole) * Pow10(decimals)
  {
    PointAfterDigits(whole, []);
    assert whole + [] == whole && whole[..|whole|] == whole;
  }

  /** Reading the printed amount gives the amount back exactly; the fraction, if any, is at most
      `decimals` digits and does not end in a zero. */
  lemma PrintReadsBack(amount: nat, decimals: nat)
    ensures var s := FromBaseUnits(amount, decimals);
            && IsDecimal(s) && Read(s, decimals) == amount
            && (IndexOfPoint(s) < |s| ==> s[|s| - 1] != '0' && 0 < |s| - IndexOfPoint(s) - 1 <= decimals)
  {
    var (whole, part) := WholeAndPart(amount, Pow10(decimals));
    var frac := Fraction(part, decimals);
    ReadToString(whole);
    FractionDenotesPart(part, decimals);
    if frac == [] {
      ReadWithoutFraction(ToString(whole), decimals);
    } else {
      ReadWithFraction(ToString(whole), frac, decimals);
    }
  }

  /** Only an amount below one whole unit starts with a zero. */
  lemma NoLeadingZero(amount: nat, decimals: nat)
    requires amount >= Pow10(decimals)
    ensures FromBaseUnits(amount, decimals) != [] && FromBaseUnits(amount, decimals)[0] != '0'
  {
    var (whole, part) := WholeAndPart(amount, Pow10(decimals));
    DivIff(amount, Pow10(decimals), 1);
    assert ToString(whole)[0] != '0';
  }

  /** Less than one unit is printed with a single zero before the point. */
  lemma OneZeroBelowOne(amount: nat, decimals: nat)
    requires amount < Pow10(decimals)
    ensures var s := FromBaseUnits(amount, decimals); s == "0" || (|s| > 2 && s[..2] == "0.")
  {
    var (whole, part) := WholeAndPart(amount, Pow10(decimals));
    DivIff(amount, Pow10(decimals), 1);
    DivIff(amount, Pow10(decimals), 0);
    assert ToString(0) == "0";
    var frac := Fraction(part, decimals);
    if frac != [] {
      assert (("0" + ".") + frac)[..2] == "0.";
    }
  }

  /** Distinct amounts print differently. */
  lemma PrintInjective(a: nat, b: nat, decimals: nat)
    requires FromBaseUnits(a, decimals) == FromBaseUnits(b, decimals)
    ensures a == b
  {
    PrintReadsBack(a, decimals);
    PrintReadsBack(b, decimals);
  }
}
