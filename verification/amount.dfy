/**
  Normalisation of the selected dollar amount into a whole number of $100 bills.

  The amount arrives as the result of parsing a string into a JavaScript number,
  which is either NaN, one of the two infinities, or a finite value. Finite values
  are modelled as exact reals: IEEE rounding of the intermediate division is not
  part of this model.
 */
module Amount {

  /** The outcome of parsing the selected amount into a number. */
  datatype Number = NaN | PosInfinity | NegInfinity | Finite(value: real)

  /** The denomination of one bill, in dollars. */
  const BillValue: int := 100

  /** The largest amount ever drawn, in dollars. */
  const MaxAmount: int := 500_000_000_000

  /** JavaScript's Math.round on an exact real: nearest integer, with a half rounding up. */
  function RoundHalfUp(x: real): (n: int)
    ensures n as real - 0.5 <= x < n as real + 0.5
  {
    (x + 0.5).Floor
  }

  /** True of a real that is a whole number of dollars divisible by the bill value. */
  predicate IsWholeBills(v: real)
  {
    v.Floor as real == v && v.Floor % BillValue == 0
  }

  /** An amount as it stands after normalisation: minus infinity, or whole bills up to the cap. */
  predicate IsNormalised(a: Number)
  {
    || a.NegInfinity?
    || (a.Finite? && IsWholeBills(a.value) && a.value <= MaxAmount as real)
  }

  /**
    The normalisation renderBills (and visualize) apply: NaN becomes 0, the value is
    rounded to the nearest multiple of 100 with a half going up, and the result is
    capped at MaxAmount. Minus infinity survives both steps unchanged; plus infinity
    is capped.
   */
  function Normalise(input: Number): (amount: Number)
    ensures IsNormalised(amount)
    ensures input.NaN? ==> amount == Finite(0.0)
    ensures input.PosInfinity? ==> amount == Finite(MaxAmount as real)
    ensures amount.NegInfinity? <==> input.NegInfinity?
    ensures input.Finite? && input.value < MaxAmount as real + 50.0 ==>
              amount.value - 50.0 <= input.value < amount.value + 50.0
    ensures input.Finite? && input.value >= MaxAmount as real + 50.0 ==>
              amount.value == MaxAmount as real
  {
    match input
    case NaN => Finite(0.0)
    case PosInfinity => Finite(MaxAmount as real)
    case NegInfinity => NegInfinity
    case Finite(v) =>
      var rounded := RoundHalfUp(v / BillValue as real) * BillValue;
      Finite((if rounded < MaxAmount then rounded else MaxAmount) as real)
  }

  /**
    The nearest-hundred window pins the rounded amount down: a multiple of 100 within
    [v - 50, v + 50) is unique, so Normalise's postcondition determines its result.
   */
  lemma {:induction false} NearestHundredUnique(v: real, m: int, m': int)
    requires m % BillValue == 0 && m' % BillValue == 0
    requires m as real - 50.0 <= v < m as real + 50.0
    requires m' as real - 50.0 <= v < m' as real + 50.0
    ensures m == m'
  {
    assert -100 < m - m' < 100;
    var q, q' := m / BillValue, m' / BillValue;
    assert m == q * BillValue && m' == q' * BillValue;
    assert -1 < q - q' < 1;
  }

  /**
    Normalising twice is normalising once: an amount that visualize has already
    normalised and stored passes through renderBills' own normalisation unchanged.
   */
  lemma {:induction false} NormaliseIdempotent(input: Number)
    ensures Normalise(Normalise(input)) == Normalise(input)
  {
    var a := Normalise(input);
    if a.Finite? {
      var v := a.value;
      var n := v.Floor;
      assert n % BillValue == 0 && n <= MaxAmount;
      var b := Normalise(a);
      assert b.value - 50.0 <= v < b.value + 50.0;
      NearestHundredUnique(v, n, b.value.Floor);
    }
  }

  /**
    The number of bills renderBills goes on to draw: amount / 100 when that is
    positive, and none otherwise (zero, negative and minus-infinite amounts draw
    nothing).
   */
  function BillsToDraw(amount: Number): (n: nat)
    requires IsNormalised(amount)
    ensures n > 0 <==> amount.Finite? && amount.value > 0.0
    ensures n > 0 ==> (n * BillValue) as real == amount.value
    ensures n <= MaxAmount / BillValue
  {
    if amount.Finite? && amount.value > 0.0 then amount.value.Floor / BillValue else 0
  }

  /** A concrete instance: one trillion dollars is capped at five hundred billion. */
  lemma OneTrillionIsCapped()
    ensures Normalise(Finite(1_000_000_000_000.0)) == Finite(500_000_000_000.0)
    ensures BillsToDraw(Normalise(Finite(1_000_000_000_000.0))) == 5_000_000_000
  {
  }
}
