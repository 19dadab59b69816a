/**
 * `ToNumber` of scratch-pad/index.ts: the number whose decimal rendering (a number
 * type spliced into a template literal type) is the given string, found by counting
 * up from 0.
 */
module DecimalNumbers {
  import opened Wrappers

  function Pow10(k: nat): (p: nat)
    ensures p >= 1
  {
    if k == 0 then 1 else 10 * Pow10(k - 1)
  }

  predicate IsDigit(c: char)
  {
    '0' <= c <= '9'
  }

  function DigitChar(d: nat): (c: char)
    requires d < 10
    ensures IsDigit(c)
  {
    "0123456789"[d]
  }

  function DigitValue(c: char): (d: nat)
    requires IsDigit(c)
    ensures d < 10 && DigitChar(d) == c
  {
    (c as int - '0' as int)
  }

  /**
   * The rendering of a natural number as a string: its digits, most significant first,
   * with no leading zero.
   */
  function Decimal(n: nat): (s: string)
    ensures |s| >= 1 && n < Pow10(|s|)
    ensures forall i :: 0 <= i < |s| ==> IsDigit(s[i])
    ensures |s| > 1 ==> s[0] != '0'
  {
    if n < 10 then [DigitChar(n)] else Decimal(n / 10) + [DigitChar(n % 10)]
  }

  /**
   * The value of a non-empty string of decimal digits, leading zeros allowed; no value
   * for the empty string or one with another character.
   */
  function DigitsValue(s: string): (r: Option<nat>)
    ensures r.Some? <==> |s| >= 1 && forall i :: 0 <= i < |s| ==> IsDigit(s[i])
  {
    if s == [] || !IsDigit(s[|s| - 1]) then None
    else if |s| == 1 then Some(DigitValue(s[0]))
    else
      match DigitsValue(s[..|s| - 1])
      case None => None
      case Some(v) => Some(10 * v + DigitValue(s[|s| - 1]))
  }

  /** Reading a rendering back gives the number. */
  lemma {:induction false} DigitsValueOfDecimal(n: nat)
    ensures DigitsValue(Decimal(n)) == Some(n)
  {
    if n >= 10 {
      DigitsValueOfDecimal(n / 10);
      var s := Decimal(n);
      assert s[..|s| - 1] == Decimal(n / 10);
      assert DigitValue(s[|s| - 1]) == n % 10 by {
        assert s[|s| - 1] == DigitChar(n % 10);
      }
    }
  }

  /** Different numbers render differently. */
  lemma DecimalInjective(a: nat, b: nat)
    requires Decimal(a) == Decimal(b)
    ensures a == b
  {
    DigitsValueOfDecimal(a);
    DigitsValueOfDecimal(b);
  }

  lemma {:induction false} Pow10Monotone(j: nat, k: nat)
    requires j <= k
    ensures Pow10(j) <= Pow10(k)
  {
    if j < k {
      Pow10Monotone(j, k - 1);
    }
  }

  /**
   * `ToNumber<T, R>` with `R["length"]` = n: answers n when n renders as t, and otherwise
   * tries n + 1. The source counts up without end when no number renders as t; here the
   * search stops at 10^|t|, past which every rendering is longer than t, and answers
   * `never` (None).
   */
  function ToNumberFrom(t: string, n: nat): (r: Option<nat>)
    ensures r.Some? ==> n <= r.value && Decimal(r.value) == t
    ensures r.Some? ==> forall m :: n <= m < r.value ==> Decimal(m) != t
    ensures r.None? ==> forall m :: n <= m ==> Decimal(m) != t
    decreases Pow10(|t|) - n
  {
    if Decimal(n) == t then Some(n)
    else if n < Pow10(|t|) then ToNumberFrom(t, n + 1)
    else
      assert forall m :: n <= m ==> Decimal(m) != t by {
        forall m | n <= m ensures Decimal(m) != t {
          if |Decimal(m)| <= |t| {
            Pow10Monotone(|Decimal(m)|, |t|);
          }
        }
      }
      None
  }

  /** `ToNumber<T>`: the search started from the empty tuple, that is from 0. */
  function ToNumber(t: string): (r: Option<nat>)
    ensures r.Some? ==> Decimal(r.value) == t
    ensures r.None? <==> forall m :: Decimal(m) != t
  {
    ToNumberFrom(t, 0)
  }

  /** Rendering then parsing back with `ToNumber` is the identity. */
  lemma ToNumberOfDecimal(n: nat)
    ensures ToNumber(Decimal(n)) == Some(n)
  {
    var r := ToNumber(Decimal(n));
    assert r.Some?;
    DecimalInjective(r.value, n);
  }

  /** Whatever `ToNumber` finds is also the value of the digits. */
  lemma ToNumberIsDigitsValue(t: string)
    requires ToNumber(t).Some?
    ensures DigitsValue(t) == ToNumber(t)
  {
    DigitsValueOfDecimal(ToNumber(t).value);
  }

  /** A string of two or more digits that starts with 0 is no number's rendering. */
  lemma LeadingZeroIsNever(t: string)
    requires |t| > 1 && t[0] == '0'
    ensures ToNumber(t) == None
  {
  }

  /** The sample `ToNumber<"990">`. */
  lemma ToNumberSample()
    ensures ToNumber("990") == Some(990)
  {
    assert Decimal(990) == "990";
    ToNumberOfDecimal(990);
  }
}
