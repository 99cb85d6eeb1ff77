/**
 * The cost summary: the saving a program's monetary cap promises, read from
 * its free-text amount, and what the patient still pays for a year of the drug.
 * Amounts are exact reals rather than IEEE doubles.
 */
module CostCalculator {
  import opened Wrappers
  import opened Records

  predicate IsDigit(c: char) {
    '0' <= c <= '9'
  }

  /** The characters the cap's clean-up keeps: the class [0-9.]. */
  predicate IsNumericChar(c: char) {
    IsDigit(c) || c == '.'
  }

  predicate AllNumeric(s: string) {
    forall i :: 0 <= i < |s| ==> IsNumericChar(s[i])
  }

  predicate AllDigits(s: string) {
    forall i :: 0 <= i < |s| ==> IsDigit(s[i])
  }

  predicate HasDigit(s: string) {
    exists i :: 0 <= i < |s| && IsDigit(s[i])
  }

  /** The cap with every character outside [0-9.] removed, the rest kept in order. */
  function StripNonNumeric(s: string): (r: string)
    ensures AllNumeric(r)
    ensures |r| <= |s|
  {
    if s == [] then []
    else if IsNumericChar(s[0]) then [s[0]] + StripNonNumeric(s[1..])
    else StripNonNumeric(s[1..])
  }

  function DigitValue(c: char): (d: nat)
    requires IsDigit(c)
    ensures d < 10
  {
    (c - '0') as nat
  }

  /** Number of leading decimal digits of s. */
  function LeadingDigits(s: string): (n: nat)
    ensures n <= |s|
    ensures forall i :: 0 <= i < n ==> IsDigit(s[i])
    ensures n < |s| ==> !IsDigit(s[n])
  {
    if s == [] || !IsDigit(s[0]) then 0
    else 1 + LeadingDigits(s[1..])
  }

  /** The leading digits of s. */
  function Prefix(s: string): (p: string)
    ensures AllDigits(p)
  {
    s[..LeadingDigits(s)]
  }

  /** The value of a string of decimal digits (the empty string is 0). */
  function NumeralValue(s: string): nat
    requires AllDigits(s)
    decreases |s|
  {
    if s == [] then 0
    else 10 * NumeralValue(s[..|s| - 1]) + DigitValue(s[|s| - 1])
  }

  function Pow10(k: nat): (p: nat)
    ensures p >= 1
  {
    if k == 0 then 1 else 10 * Pow10(k - 1)
  }

  /**
   * parseFloat on a string of digits and points: the value of its longest
   * prefix of the form digits [ "." digits ], or None (NaN) when that prefix
   * holds no digit.
   */
  function ParseDecimal(s: string): (r: Option<real>)
    requires AllNumeric(s)
    ensures r.None? <==> s == [] || (s[0] == '.' && (|s| == 1 || !IsDigit(s[1])))
  {
    var i := LeadingDigits(s);
    assert i < |s| ==> s[i] == '.';
    assert i == 0 && |s| > 1 ==> s[i + 1..][0] == s[1];
    var whole := s[..i];
    var frac := if i < |s| then Prefix(s[i + 1..]) else [];
    if whole == [] && frac == [] then None
    else Some(AmountValue(whole, frac))
  }

  /** The value of the amount written whole.frac. */
  function AmountValue(whole: string, frac: string): (v: real)
    requires AllDigits(whole) && AllDigits(frac)
    ensures v >= 0.0
  {
    NumeralValue(whole) as real + NumeralValue(frac) as real / Pow10(|frac|) as real
  }

  /** calculatePotentialSaving: the cleaned-up cap parsed as a number, 0 when that gives NaN. */
  function PotentialSaving(monetaryCap: string): (saving: real)
    ensures saving >= 0.0
  {
    match ParseDecimal(StripNonNumeric(monetaryCap))
    case None => 0.0
    case Some(v) => v
  }

  /**
   * calculateOutOfPocketCost: nothing without a drug record; otherwise the
   * yearly price less the potential saving, or 0 when the saving covers it.
   */
  function OutOfPocketCost(program: Program, patientDrug: Option<PatientDrug>): (cost: real)
    ensures cost >= 0.0
    ensures patientDrug.None? ==> cost == 0.0
    ensures patientDrug.Some? ==>
              var shortfall := patientDrug.value.yearlyPrice - PotentialSaving(program.monetaryCap);
              cost >= shortfall && (cost == 0.0 || cost == shortfall)
    ensures patientDrug.Some? && patientDrug.value.yearlyPrice >= 0.0 ==>
              cost <= patientDrug.value.yearlyPrice
  {
    match patientDrug
    case None => 0.0
    case Some(drug) =>
      var outOfPocket := drug.yearlyPrice - PotentialSaving(program.monetaryCap);
      if outOfPocket > 0.0 then outOfPocket else 0.0
  }

  /** The decimal digits of n, most significant first, without leading zeros. */
  function DecimalString(n: nat): (s: string)
    ensures |s| >= 1 && AllDigits(s)
    decreases n
  {
    var last := ['0' + (n % 10) as char];
    if n < 10 then last else DecimalString(n / 10) + last
  }

  // ---------------------------------------------------------------------
  // Lemmas

  /** The clean-up works character by character. */
  lemma {:induction false} StripNonNumericAppend(a: string, b: string)
    ensures StripNonNumeric(a + b) == StripNonNumeric(a) + StripNonNumeric(b)
    decreases |a|
  {
    if a == [] {
      assert a + b == b;
    } else {
      assert (a + b)[0] == a[0];
      assert (a + b)[1..] == a[1..] + b;
      StripNonNumericAppend(a[1..], b);
      if IsNumericChar(a[0]) {
        assert StripNonNumeric(a + b) == [a[0]] + (StripNonNumeric(a[1..]) + StripNonNumeric(b));
      }
    }
  }

  /** A character outside [0-9.] anywhere in the cap is ignored. */
  lemma StripIgnoresOtherChars(a: string, c: char, b: string)
    requires !IsNumericChar(c)
    ensures StripNonNumeric(a + [c] + b) == StripNonNumeric(a + b)
  {
    StripNonNumericAppend(a + [c], b);
    StripNonNumericAppend(a, [c]);
    StripNonNumericAppend(a, b);
  }

  /** A string already in [0-9.]* is left as it is. */
  lemma {:induction false} StripKeepsNumeric(s: string)
    requires AllNumeric(s)
    ensures StripNonNumeric(s) == s
    decreases |s|
  {
    if s != [] {
      StripKeepsNumeric(s[1..]);
    }
  }

  /** The saving depends only on the cap's digits and points. */
  lemma PotentialSavingOfStripped(monetaryCap: string)
    ensures PotentialSaving(StripNonNumeric(monetaryCap)) == PotentialSaving(monetaryCap)
  {
    StripKeepsNumeric(StripNonNumeric(monetaryCap));
  }

  /** The clean-up keeps every digit: it finds one exactly when the cap has one. */
  lemma {:induction false} StripKeepsDigits(s: string)
    ensures HasDigit(StripNonNumeric(s)) <==> HasDigit(s)
    decreases |s|
  {
    if s != [] {
      StripKeepsDigits(s[1..]);
      var rest := StripNonNumeric(s[1..]);
      assert HasDigit(s) <==> IsDigit(s[0]) || HasDigit(s[1..]) by {
        if HasDigit(s) && !IsDigit(s[0]) {
          var i :| 0 <= i < |s| && IsDigit(s[i]);
          assert s[1..][i - 1] == s[i];
        }
        if HasDigit(s[1..]) {
          var i :| 0 <= i < |s[1..]| && IsDigit(s[1..][i]);
          assert s[i + 1] == s[1..][i];
        }
      }
      if IsNumericChar(s[0]) {
        var r := [s[0]] + rest;
        assert HasDigit(r) <==> IsDigit(s[0]) || HasDigit(rest) by {
          assert r[0] == s[0];
          if HasDigit(rest) {
            var i :| 0 <= i < |rest| && IsDigit(rest[i]);
            assert r[i + 1] == rest[i];
          }
          if HasDigit(r) && !IsDigit(s[0]) {
            var i :| 0 <= i < |r| && IsDigit(r[i]);
            assert rest[i - 1] == r[i];
          }
        }
      }
    }
  }

  /** Digits-and-points without a digit (such as "." or "") parse to NaN. */
  lemma NoDigitNoParse(s: string)
    requires AllNumeric(s) && !HasDigit(s)
    ensures ParseDecimal(s) == None
  {
    if |s| > 0 {
      assert !IsDigit(s[0]);
      if |s| > 1 {
        assert s[1..][0] == s[1];
        assert !IsDigit(s[1]);
      }
    }
  }

  /** A cap without digits yields no saving (parseFloat gives NaN, which becomes 0). */
  lemma NoDigitsNoSaving(monetaryCap: string)
    requires !HasDigit(monetaryCap)
    ensures PotentialSaving(monetaryCap) == 0.0
  {
    StripKeepsDigits(monetaryCap);
    NoDigitNoParse(StripNonNumeric(monetaryCap));
  }

  lemma {:induction false} LeadingDigitsOfDigits(s: string, rest: string)
    requires AllDigits(s)
    requires rest == [] || !IsDigit(rest[0])
    ensures LeadingDigits(s + rest) == |s|
    decreases |s|
  {
    if s != [] {
      assert (s + rest)[1..] == s[1..] + rest;
      LeadingDigitsOfDigits(s[1..], rest);
    }
  }

  lemma AllNumericAppend(a: string, b: string)
    requires AllNumeric(a) && AllNumeric(b)
    ensures AllNumeric(a + b)
  {
    forall i | 0 <= i < |a + b| ensures IsNumericChar((a + b)[i]) {
      if i >= |a| { assert (a + b)[i] == b[i - |a|]; }
    }
  }

  /**
   * An amount "whole.frac" followed by anything that starts with a point parses
   * to whole + frac / 10^|frac|: parsing stops at the second point.
   */
  lemma ParseDecimalAmount(whole: string, frac: string, rest: string)
    requires AllDigits(whole) && AllDigits(frac) && AllNumeric(rest)
    requires |whole| + |frac| > 0
    requires rest == [] || rest[0] == '.'
    ensures AllNumeric(whole + "." + frac + rest)
    ensures ParseDecimal(whole + "." + frac + rest) == Some(AmountValue(whole, frac))
  {
    var tail := frac + rest;
    var s := whole + ("." + tail);
    assert whole + "." + frac + rest == s;
    AllNumericAppend(frac, rest);
    AllNumericAppend(".", tail);
    AllNumericAppend(whole, "." + tail);
    LeadingDigitsOfDigits(whole, "." + tail);
    assert s[..|whole|] == whole;
    assert s[|whole| + 1..] == tail;
    LeadingDigitsOfDigits(frac, rest);
    assert Prefix(tail) == frac;
    var i := LeadingDigits(s);
    assert i == |whole| && i < |s|;
    assert s[..i] == whole && Prefix(s[i + 1..]) == frac;
  }

  /**
   * Every [0-9.]* string that is not all digits splits at its first point
   * into the whole digits, the fraction digits and a rest that is empty or
   * starts at a second point, and parses to the value of whole.frac.
   */
  lemma ParseDecimalAnyInput(s: string)
    requires AllNumeric(s)
    ensures !AllDigits(s) ==>
              var whole := Prefix(s);
              |whole| < |s| &&
              var frac := Prefix(s[|whole| + 1..]);
              var rest := s[|whole| + 1 + |frac|..];
              s == whole + "." + frac + rest && (rest == [] || rest[0] == '.') &&
              (|whole| + |frac| > 0 ==> ParseDecimal(s) == Some(AmountValue(whole, frac)))
  {
    var n := LeadingDigits(s);
    if n < |s| {
      assert s[n] == '.';
      var after := s[n + 1..];
      var m := LeadingDigits(after);
      assert s == s[..n] + "." + after[..m] + after[m..];
      if m < |after| {
        assert after[m] == s[n + 1 + m];
      }
    }
  }

  /** A whole number with no point parses to itself. */
  lemma ParseDecimalWhole(whole: string)
    requires AllDigits(whole) && |whole| > 0
    ensures AllNumeric(whole)
    ensures ParseDecimal(whole) == Some(NumeralValue(whole) as real)
  {
    LeadingDigitsOfDigits(whole, []);
    assert whole + [] == whole;
    assert whole[..|whole|] == whole;
  }

  /** Printing a whole number in decimal and reading it back gives the number. */
  lemma {:induction false} DecimalStringValue(n: nat)
    ensures NumeralValue(DecimalString(n)) == n
    decreases n
  {
    var s := DecimalString(n);
    if n >= 10 {
      DecimalStringValue(n / 10);
      assert s[..|s| - 1] == DecimalString(n / 10);
    }
  }

  /** A cap that is a plain whole number of dollars saves exactly that amount. */
  lemma WholeDollarCap(n: nat)
    ensures PotentialSaving(DecimalString(n)) == n as real
  {
    var s := DecimalString(n);
    StripKeepsNumeric(s);
    ParseDecimalWhole(s);
    DecimalStringValue(n);
  }

  /** "$1,200.00" promises 1200, which covers a 1000-a-year drug entirely. */
  lemma CapCoversDrug(program: Program, drug: PatientDrug)
    requires program.monetaryCap == "$1,200.00" && drug.yearlyPrice == 1000.0
    ensures PotentialSaving(program.monetaryCap) == 1200.0
    ensures OutOfPocketCost(program, Some(drug)) == 0.0
  {
    StripThousandsCap();
    ParseTwelveHundred();
  }

  lemma ParseTwelveHundred()
    ensures AllNumeric("1200.00")
    ensures ParseDecimal("1200.00") == Some(1200.0)
  {
    ParseDecimalAmount("1200", "00", "");
    assert "1200" + "." + "00" + "" == "1200.00";
    AmountTwelveHundred();
  }

  lemma AmountTwelveHundred()
    ensures AllDigits("1200") && AllDigits("00")
    ensures AmountValue("1200", "00") == 1200.0
  {
    assert NumeralValue("1200") == 1200 by {
      assert "12"[..1] == "1";
      assert NumeralValue("12") == 12;
      assert "120"[..2] == "12";
      assert NumeralValue("120") == 120;
      assert "1200"[..3] == "120";
    }
    assert NumeralValue("00") == 0 by {
      assert "00"[..1] == "0";
    }
  }

  lemma StripThousandsCap()
    ensures StripNonNumeric("$1,200.00") == "1200.00"
  {
    StripDollarSign();
    StripThousandsComma();
    StripKeepsNumeric("1200.00");
  }

  lemma StripDollarSign()
    ensures StripNonNumeric("$1,200.00") == StripNonNumeric("1,200.00")
  {
    var s := "$1,200.00";
    assert !IsNumericChar(s[0]) && s[1..] == "1,200.00";
  }

  lemma StripThousandsComma()
    ensures StripNonNumeric("1,200.00") == StripNonNumeric("1200.00")
  {
    StripIgnoresOtherChars("1", ',', "200.00");
    assert "1" + [','] + "200.00" == "1,200.00";
    assert "1" + "200.00" == "1200.00";
  }

  /** "$300" against a 1000-a-year drug leaves 700 to pay. */
  lemma CapPartlyCoversDrug(program: Program, drug: PatientDrug)
    requires program.monetaryCap == "$300" && drug.yearlyPrice == 1000.0
    ensures OutOfPocketCost(program, Some(drug)) == 700.0
  {
    assert StripNonNumeric("$300") == "300";
    ParseDecimalWhole("300");
  }
}
