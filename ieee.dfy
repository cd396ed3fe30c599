/**
  * The binary64 (`System.Double`) values the source computes with, over exact
  * reals: NaN, the two infinities, or a finite value. Rounding of finite results
  * to 53 bits and the sign of zero are not modelled; a zero divisor is +0.
  */
module Ieee {

  datatype Double = NaN | PosInf | NegInf | Finite(v: real) {

    /** The C# comparison `x > 0`, false for NaN. */
    predicate IsPositive() {
      PosInf? || (Finite? && v > 0.0)
    }

    /** The C# comparison `x < 0`, false for NaN. */
    predicate IsNegative() {
      NegInf? || (Finite? && v < 0.0)
    }

    /** The C# comparison `x != 0`, true for NaN. */
    predicate IsNonZero() {
      !(Finite? && v == 0.0)
    }
  }

  const Zero: Double := Finite(0.0)

  function Sign(x: Double): int
    requires !x.NaN?
  {
    if x.IsPositive() then 1 else if x.IsNegative() then -1 else 0
  }

  function Infinity(sign: int): Double {
    if sign < 0 then NegInf else PosInf
  }

  /** `a * b`: NaN propagates and an infinity times zero is NaN. */
  function Mul(a: Double, b: Double): Double {
    if a.NaN? || b.NaN? then NaN
    else if a.Finite? && b.Finite? then Finite(a.v * b.v)
    else if Sign(a) == 0 || Sign(b) == 0 then NaN
    else Infinity(Sign(a) * Sign(b))
  }

  /** `a / b`: 0/0 and an infinity over an infinity are NaN, x/0 is an infinity of the sign of x. */
  function Div(a: Double, b: Double): Double {
    if a.NaN? || b.NaN? then NaN
    else if !a.Finite? && !b.Finite? then NaN
    else if !a.Finite? then Infinity(if Sign(b) == 0 then Sign(a) else Sign(a) * Sign(b))
    else if !b.Finite? then Zero
    else if b.v == 0.0 then (if a.v == 0.0 then NaN else Infinity(Sign(a)))
    else Finite(a.v / b.v)
  }

  function Abs(x: real): real {
    if x < 0.0 then -x else x
  }

  /**
    * `Math.Round(x, 0)` on a finite value: the nearest integer, a tie going to
    * the even neighbour (MidpointRounding.ToEven).
    */
  function RoundHalfEven(x: real): (k: int)
    ensures Abs(x - k as real) <= 0.5
  {
    var f := x.Floor;
    var d := x - f as real;
    if d < 0.5 then f
    else if d > 0.5 then f + 1
    else if f % 2 == 0 then f
    else f + 1
  }

  /** A tie goes to the even neighbour. */
  lemma RoundHalfEvenTie(x: real)
    ensures Abs(x - RoundHalfEven(x) as real) == 0.5 ==> RoundHalfEven(x) % 2 == 0
  {
  }

  /** An integer rounds to itself. */
  lemma RoundHalfEvenOfInteger(k: int)
    ensures RoundHalfEven(k as real) == k
  {
  }

  /** No integer is closer to `x` than the one `RoundHalfEven` picks. */
  lemma RoundHalfEvenNearest(x: real, j: int)
    ensures Abs(x - RoundHalfEven(x) as real) <= Abs(x - j as real)
  {
    var k := RoundHalfEven(x);
    if j < k {
      assert j as real <= k as real - 1.0;
    } else if j > k {
      assert j as real >= k as real + 1.0;
    }
  }

  /** `Math.Round(x, 0)` on any double: NaN and the infinities come back unchanged. */
  function Round(a: Double): Double {
    if a.Finite? then Finite(RoundHalfEven(a.v) as real) else a
  }
}
