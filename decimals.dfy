/** Fixed-point money: `Decimal.quantize(Decimal('0.01'))` under Python's default
    decimal context, whose rounding mode is ROUND_HALF_EVEN. Quantities are exact
    reals; the binary-float detour through `Decimal(str(x))` is not modelled. */
module Decimals {

  /** `x` has at most two fractional digits, i.e. is a whole number of cents. */
  predicate IsCents(x: real) {
    (x * 100.0).Floor as real == x * 100.0
  }

  /** `x` lies exactly halfway between two consecutive cents. */
  predicate IsHalfCent(x: real) {
    x * 100.0 - (x * 100.0).Floor as real == 0.5
  }

  /** `x` is a whole number of cents and that number is even. */
  predicate IsEvenCents(x: real) {
    IsCents(x) && (x * 100.0).Floor % 2 == 0
  }

  /** Rounds `x` to the nearest cent; a value exactly halfway goes to the even cent. */
  function RoundCents(x: real): (r: real)
    ensures IsCents(r)
    ensures -0.005 <= r - x <= 0.005
    ensures IsHalfCent(x) ==> IsEvenCents(r)
    ensures IsCents(x) ==> r == x
  {
    var scaled := x * 100.0;
    var whole := scaled.Floor;
    var fraction := scaled - whole as real;
    var cents :=
      if fraction < 0.5 then whole
      else if fraction > 0.5 then whole + 1
      else if whole % 2 == 0 then whole
      else whole + 1;
    var r := cents as real / 100.0;
    assert r * 100.0 == cents as real;
    assert (r * 100.0).Floor == cents;
    assert -0.5 <= cents as real - scaled <= 0.5;
    r
  }

  /** The three properties in RoundCents's contract pin its result down: any whole
      number of cents within half a cent of `x`, even when `x` is a tie, is RoundCents(x). */
  lemma RoundCentsUnique(x: real, r: real)
    requires IsCents(r)
    requires -0.005 <= r - x <= 0.005
    requires IsHalfCent(x) ==> IsEvenCents(r)
    ensures r == RoundCents(x)
  {
    var q := RoundCents(x);
    var a := (r * 100.0).Floor;
    var b := (q * 100.0).Floor;
    assert a as real == r * 100.0 && b as real == q * 100.0;
    assert -1.0 <= (a - b) as real <= 1.0;
    if a != b {
      // Two distinct cents within half a cent of x would put x exactly between
      // them, a tie, where both would have to be even.
      assert false;
    }
  }

  /** The cost of `fuel` units at `price` per unit, quantized to cents: the
      `(Decimal(fuel) * Decimal(price)).quantize(Decimal('0.01'))` of every cost line. */
  function FuelCost(fuel: real, price: real): (cost: real)
    ensures IsCents(cost)
    ensures -0.005 <= cost - fuel * price <= 0.005
  {
    RoundCents(fuel * price)
  }

  /** Sums of whole cents are whole cents. */
  lemma CentsAdd(a: real, b: real)
    requires IsCents(a) && IsCents(b)
    ensures IsCents(a + b)
  {
    var m := (a * 100.0).Floor + (b * 100.0).Floor;
    assert (a + b) * 100.0 == m as real;
  }
}
