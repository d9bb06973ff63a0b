/** Abuse-policy thresholds: 64-bit floats as the validator, the `abuse_policy` table and the
    renderer see them. A finite float is represented by the decimal its `Display` prints. */
module Thresholds {
  import opened Strings

  /** mantissa / 10^scale */
  datatype Decimal = Decimal(mantissa: nat, scale: nat)

  datatype F64 = NaN | Inf(negative: bool) | Finite(negative: bool, magnitude: Decimal)

  function Pow10(n: nat): (p: nat)
    ensures p >= 1
  {
    if n == 0 then 1 else 10 * Pow10(n - 1)
  }

  function Value(f: F64): real
    requires f.Finite?
  {
    var m := f.magnitude.mantissa as real / Pow10(f.magnitude.scale) as real;
    if f.negative then -m else m
  }

  function Whole(n: nat): F64 { Finite(false, Decimal(n, 0)) }

  /** IEEE 754 `<`: nothing compares with a NaN. */
  predicate Less(a: F64, b: F64) {
    match (a, b)
    case (Finite(_, _), Finite(_, _)) => Value(a) < Value(b)
    case (Inf(na), Inf(nb)) => na && !nb
    case (Inf(na), Finite(_, _)) => na
    case (Finite(_, _), Inf(nb)) => !nb
    case _ => false
  }

  /** PostgreSQL's `<` on double precision: a NaN is above everything else. */
  predicate SqlLess(a: F64, b: F64) {
    if b.NaN? then !a.NaN? else Less(a, b)
  }

  datatype Policy = Policy(reject: F64, addHeader: F64, greylist: F64)

  predicate AllFinite(p: Policy) { p.reject.Finite? && p.addHeader.Finite? && p.greylist.Finite? }

  /** `validate_policy` */
  predicate ValidatePolicy(p: Policy) {
    && AllFinite(p)
    && Less(Whole(0), p.greylist) && Less(p.greylist, p.addHeader) && Less(p.addHeader, p.reject)
  }

  /** The CHECK constraints of `abuse_policy`. */
  predicate PolicyCheck(p: Policy) {
    && SqlLess(Whole(0), p.reject) && SqlLess(Whole(0), p.addHeader) && SqlLess(Whole(0), p.greylist)
    && SqlLess(p.greylist, p.addHeader) && SqlLess(p.addHeader, p.reject)
  }

  /** The request check is the table's check and finiteness, no more and no less. */
  lemma ValidatorVersusCheck(p: Policy)
    ensures ValidatePolicy(p) <==> PolicyCheck(p) && AllFinite(p)
  {
    if AllFinite(p) { assert Value(Whole(0)) == 0.0; }
  }

  /** What the validator asks for, in numbers. */
  lemma ValidMeansOrdered(p: Policy)
    ensures ValidatePolicy(p) <==>
            p.reject.Finite? && p.addHeader.Finite? && p.greylist.Finite? &&
            0.0 < Value(p.greylist) < Value(p.addHeader) < Value(p.reject)
  {
    assert Value(Whole(0)) == 0.0;
  }

  /** On its own the table would take an infinite or undefined rejection threshold. */
  lemma CheckAloneAdmitsNonFinite()
    ensures PolicyCheck(Policy(NaN, Whole(6), Whole(4))) && PolicyCheck(Policy(Inf(false), Whole(6), Whole(4)))
  {
    assert Value(Whole(0)) == 0.0 && Value(Whole(4)) == 4.0 && Value(Whole(6)) == 6.0;
  }

  /** `AbusePolicy::defaults`, models.rs */
  function ApiDefaults(): Policy { Policy(Whole(15), Whole(6), Whole(4)) }

  // The compiler's fallbacks, render.rs
  const REJECT := Whole(15)
  const ADD_HEADER := Whole(6)
  const GREYLIST := Whole(4)

  lemma DefaultsAreValid()
    ensures ValidatePolicy(ApiDefaults()) && ApiDefaults() == Policy(REJECT, ADD_HEADER, GREYLIST)
  {
    assert Value(Whole(0)) == 0.0 && Value(Whole(4)) == 4.0 && Value(Whole(6)) == 6.0 && Value(Whole(15)) == 15.0;
  }

  // ------------------------------------------------------------------------
  // What a policy does to a score
  // ------------------------------------------------------------------------

  datatype Disposition = Accepted | Greylisted | Marked | Rejected

  function Rank(d: Disposition): nat {
    match d case Accepted => 0 case Greylisted => 1 case Marked => 2 case Rejected => 3
  }

  function ActionFor(p: Policy, score: real): Disposition
    requires AllFinite(p)
  {
    if score >= Value(p.reject) then Rejected
    else if score >= Value(p.addHeader) then Marked
    else if score >= Value(p.greylist) then Greylisted
    else Accepted
  }

  /** A worse score is never treated more kindly, every disposition is reachable, and a score
      that is not positive is always accepted. */
  lemma ActionIsMonotone(p: Policy, low: real, high: real)
    requires ValidatePolicy(p) && low <= high
    ensures Rank(ActionFor(p, low)) <= Rank(ActionFor(p, high))
    ensures low <= 0.0 ==> ActionFor(p, low) == Accepted
    ensures ActionFor(p, Value(p.greylist)) == Greylisted
    ensures ActionFor(p, Value(p.addHeader)) == Marked
    ensures ActionFor(p, Value(p.reject)) == Rejected
  {
    assert Value(Whole(0)) == 0.0;
  }

  // ------------------------------------------------------------------------
  // Display and reading back
  // ------------------------------------------------------------------------

  function DigitChar(n: nat): (c: char)
    requires n < 10
    ensures IsDigit(c) && c as int - '0' as int == n
  {
    ('0' as int + n) as char
  }

  function Digits(n: nat): (s: string)
    ensures s != [] && All(s, IsDigit)
  {
    if n < 10 then [DigitChar(n)] else Digits(n / 10) + [DigitChar(n % 10)]
  }

  function Number(s: string): nat
    requires All(s, IsDigit)
  {
    if s == [] then 0 else 10 * Number(s[..|s| - 1]) + (s[|s| - 1] as int - '0' as int)
  }

  function PadLeft(s: string, width: nat): (p: string)
    requires All(s, IsDigit)
    ensures All(p, IsDigit) && |p| == if |s| < width then width else |s|
    decreases width - |s|
  {
    if |s| >= width then s else PadLeft("0" + s, width)
  }

  lemma {:induction false} NumberOfDigits(n: nat)
    ensures Number(Digits(n)) == n
  {
    if n >= 10 {
      NumberOfDigits(n / 10);
      var s := Digits(n);
      assert s[..|s| - 1] == Digits(n / 10);
    }
  }

  /** Printed numbers have no leading zero. */
  lemma {:induction false} DigitsAreCanonical(n: nat)
    ensures Digits(n)[0] == '0' <==> n == 0
    ensures n < 10 <==> |Digits(n)| == 1
  {
    if n >= 10 { DigitsAreCanonical(n / 10); }
  }

  lemma {:induction false} LeadingZero(s: string)
    requires All(s, IsDigit)
    ensures Number("0" + s) == Number(s)
  {
    var z := "0" + s;
    if s == [] {
      assert z[..|z| - 1] == [];
    } else {
      LeadingZero(s[..|s| - 1]);
      assert z[..|z| - 1] == "0" + s[..|s| - 1];
      assert z[|z| - 1] == s[|s| - 1];
    }
  }

  lemma {:induction false} NumberOfPadded(s: string, width: nat)
    requires All(s, IsDigit)
    ensures Number(PadLeft(s, width)) == Number(s)
    decreases width - |s|
  {
    if |s| < width {
      LeadingZero(s);
      NumberOfPadded("0" + s, width);
    }
  }

  function ShowDecimal(d: Decimal): string {
    if d.scale == 0 then Digits(d.mantissa)
    else
      var ds := PadLeft(Digits(d.mantissa), d.scale + 1);
      ds[..|ds| - d.scale] + "." + ds[|ds| - d.scale..]
  }

  /** `{}` of an `f64` */
  function Show(f: F64): string {
    match f
    case NaN => "NaN"
    case Inf(negative) => if negative then "-inf" else "inf"
    case Finite(negative, d) => (if negative then "-" else "") + ShowDecimal(d)
  }

  /** Reads an unsigned decimal number. */
  function ReadDecimal(s: string): Option<Decimal> {
    var parts := Split(s, '.');
    if |parts| == 1 && parts[0] != [] && All(parts[0], IsDigit) then Some(Decimal(Number(parts[0]), 0))
    else if |parts| == 2 && parts[0] != [] && parts[1] != [] && All(parts[0] + parts[1], IsDigit) then
      Some(Decimal(Number(parts[0] + parts[1]), |parts[1]|))
    else None
  }

  predicate IsNumberChar(c: char) { IsDigit(c) || c == '.' }

  lemma WholePart(a: string)
    requires All(a, IsDigit) && a != []
    ensures ReadDecimal(a) == Some(Decimal(Number(a), 0))
  {
    assert '.' !in a;
    SplitWithout(a, '.');
  }

  lemma WithFraction(a: string, b: string)
    requires All(a, IsDigit) && All(b, IsDigit) && a != [] && b != []
    ensures All(a + b, IsDigit) && ReadDecimal(a + "." + b) == Some(Decimal(Number(a + b), |b|))
  {
    assert '.' !in a && '.' !in b;
    SplitPiece(a, '.', b);
    SplitWithout(b, '.');
  }

  lemma Shape(d: Decimal) returns (a: string, b: string)
    requires d.scale > 0
    ensures All(a, IsDigit) && All(b, IsDigit) && a != [] && |b| == d.scale
    ensures All(a + b, IsDigit) && Number(a + b) == d.mantissa
    ensures ShowDecimal(d) == a + "." + b
  {
    NumberOfDigits(d.mantissa);
    NumberOfPadded(Digits(d.mantissa), d.scale + 1);
    var ds := PadLeft(Digits(d.mantissa), d.scale + 1);
    a, b := ds[..|ds| - d.scale], ds[|ds| - d.scale..];
    assert a + b == ds;
  }

  /** A printed decimal reads back as itself and is made of digits and dots only. */
  lemma ShownDecimalReadsBack(d: Decimal)
    ensures ReadDecimal(ShowDecimal(d)) == Some(d)
    ensures ShowDecimal(d) != [] && All(ShowDecimal(d), IsNumberChar)
  {
    if d.scale == 0 {
      NumberOfDigits(d.mantissa);
      WholePart(Digits(d.mantissa));
    } else {
      var a, b := Shape(d);
      WithFraction(a, b);
    }
  }

  /** As `Display` prints them. */
  lemma ShownExamples()
    ensures Show(Whole(15)) == "15" && Show(Whole(0)) == "0"
    ensures Show(Finite(false, Decimal(625, 2))) == "6.25" && Show(Finite(true, Decimal(5, 2))) == "-0.05"
  {
    assert Digits(15) == "15";
    assert Digits(62) == "62" && Digits(625) == "625";
    assert PadLeft("625", 3) == "625";
    assert PadLeft("05", 3) == "005" && PadLeft("5", 3) == "005";
  }

  predicate Unsigned(f: F64) { f.Finite? && !f.negative }

  lemma ValidMeansUnsigned(p: Policy)
    requires ValidatePolicy(p)
    ensures Unsigned(p.reject) && Unsigned(p.addHeader) && Unsigned(p.greylist)
  {
    assert Value(Whole(0)) == 0.0;
    PositiveIsUnsigned(p.greylist);
    PositiveIsUnsigned(p.addHeader);
    PositiveIsUnsigned(p.reject);
  }

  lemma PositiveIsUnsigned(f: F64)
    requires f.Finite? && Value(f) > 0.0
    ensures !f.negative
  {
    var p := Pow10(f.magnitude.scale) as real;
    assert f.magnitude.mantissa as real / p >= 0.0;
  }
}
