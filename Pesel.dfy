/**
 * `DerivedClassOf` of scratch-pad/index.ts: the year a student was born in (their
 * "class of"), read from the first two characters of their PESEL, the Polish national
 * identification number.
 */
module Pesel {
  import opened Wrappers
  import opened DecimalNumbers

  /**
   * `P extends `${A}${B}${Rest}` ? ToNumber<`${A}${B}`> : never`, as written: the number
   * whose rendering is the first two characters, and `never` for a shorter string.
   */
  function DerivedClassOf(p: string): (r: Option<nat>)
    ensures |p| < 2 ==> r.None?
    ensures r.Some? ==> Decimal(r.value) == p[..2]
    ensures |p| >= 2 && (exists n :: Decimal(n) == p[..2]) ==> r.Some?
  {
    if |p| >= 2 then ToNumber(p[..2]) else None
  }

  /**
   * The same reading with the two characters taken as digits, so that a leading zero
   * (anyone born in 2000-2009) still gives a year.
   */
  function DerivedClassOfDigits(p: string): (r: Option<nat>)
    ensures r.Some? <==> |p| >= 2 && IsDigit(p[0]) && IsDigit(p[1])
    ensures r.Some? ==> r.value == 10 * DigitValue(p[0]) + DigitValue(p[1]) && r.value < 100
  {
    if |p| >= 2 then
      var two := p[..2];
      assert two[..1] == [p[0]] && two[1] == p[1];
      assert IsDigit(p[0]) ==> DigitsValue(two[..1]) == Some(DigitValue(p[0]));
      DigitsValue(two)
    else None
  }

  /** Where the source answers at all, the digit reading agrees with it. */
  lemma DigitsAgreeWhereDefined(p: string)
    requires DerivedClassOf(p).Some?
    ensures DerivedClassOfDigits(p) == DerivedClassOf(p)
  {
    ToNumberIsDigitsValue(p[..2]);
  }

  /** The student "99123456789" was born in '99, so a class-of of 90 is refused. */
  lemma ClassOfSample(p: string)
    requires p == "99123456789"
    ensures DerivedClassOf(p) == Some(99)
    ensures DerivedClassOf(p) != Some(90)
  {
    assert p[..2] == Decimal(99);
    ToNumberOfDecimal(99);
  }

  /**
   * A PESEL starting with 0 has no class-of at all as written, where the two digits
   * evidently mean a year such as '05.
   */
  lemma LeadingZeroPesel(p: string)
    requires p == "05211234567"
    ensures DerivedClassOf(p) == None
    ensures DerivedClassOfDigits(p) == Some(5)
  {
    LeadingZeroIsNever(p[..2]);
  }
}
