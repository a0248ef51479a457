/** The bignumber.js values of libs/helper/src/bignumber.ts and decimals.ts. Addition, multiplication
    and decimal shifts are exact; division rounds half away from zero to 20 decimal places. */
module Numbers {

  /** The sign of zero is dropped: no operation modelled here divides by a negative zero. */
  datatype Num = NaN | Infinite(positive: bool) | Finite(v: real)

  /** Half of 10^-20, the most that one rounding can move a number. */
  const HALF_ULP: real := 0.000000000000000000005

  function Abs(x: real): real { if x < 0.0 then -x else x }

  function RoundHalfUp(x: real): real {
    if x >= 0.0 then GridPoint((Scaled(x) + 0.5).Floor) else GridPoint(-(Scaled(-x) + 0.5).Floor)
  }

  function Scaled(x: real): real { x * 100000000000000000000.0 }

  /** The multiples of 10^-20. */
  function GridPoint(k: int): real { k as real / 100000000000000000000.0 }

  ghost predicate OnGrid(x: real) {
    exists k: int :: GridPoint(k) == x
  }

  function Div(a: Num, b: Num): Num {
    if a.NaN? || b.NaN? || (a.Infinite? && b.Infinite?) then NaN
    else if a.Infinite? then Infinite(a.positive == (b.v >= 0.0))
    else if b.Infinite? then Finite(0.0)
    else if b.v == 0.0 then (if a.v == 0.0 then NaN else Infinite(a.v > 0.0))
    else Finite(RoundHalfUp(a.v / b.v))
  }

  function Mul(a: Num, b: Num): Num {
    if a.NaN? || b.NaN? then NaN
    else if a.Finite? && b.Finite? then Finite(a.v * b.v)
    else if IsZero(a) || IsZero(b) then NaN
    else Infinite(Positive(a) == Positive(b))
  }

  predicate Positive(a: Num)
    requires !a.NaN?
  {
    if a.Infinite? then a.positive else a.v > 0.0
  }

  predicate IsZero(a: Num) { a == Finite(0.0) }

  /** `isGreaterThan`: false as soon as one side is NaN. */
  predicate GreaterThan(a: Num, b: Num) {
    match (a, b)
    case (Finite(x), Finite(y)) => x > y
    case (Infinite(p), Finite(_)) => p
    case (Finite(_), Infinite(q)) => !q
    case (Infinite(p), Infinite(q)) => p && !q
    case _ => false
  }

  /** `toFixed(value, 20)`: the printed number, rounded half up as well. */
  function ToFixed(a: Num): Num {
    if a.Finite? then Finite(RoundHalfUp(a.v)) else a
  }

  function Pow10(n: nat): (r: real)
    ensures r >= 1.0
  {
    if n == 0 then 1.0 else 10.0 * Pow10(n - 1)
  }

  /** `divideDecimals`: an exact shift of an on-chain integer. */
  function DivideDecimals(raw: int, decimals: nat): (r: real) {
    if raw == 0 then 0.0 else raw as real / Pow10(decimals)
  }

  lemma NearestInteger(y: real, j: int)
    ensures Abs((y + 0.5).Floor as real - y) <= 0.5
    ensures Abs((y + 0.5).Floor as real - y) <= Abs(j as real - y)
  {
    var n := (y + 0.5).Floor;
    assert n as real <= y + 0.5 < n as real + 1.0;
    if j < n {
      assert j as real <= n as real - 1.0;
    } else if j > n {
      assert j as real >= n as real + 1.0;
    }
  }

  /** The rounded value is a grid point, and no grid point is nearer. */
  lemma RoundIsNearest(x: real, k: int)
    ensures OnGrid(RoundHalfUp(x))
    ensures Abs(RoundHalfUp(x) - x) <= HALF_ULP
    ensures Abs(RoundHalfUp(x) - x) <= Abs(GridPoint(k) - x)
  {
    if x >= 0.0 {
      NearestInteger(Scaled(x), k);
      assert GridPoint((Scaled(x) + 0.5).Floor) == RoundHalfUp(x);
    } else {
      NearestInteger(Scaled(-x), -k);
      assert GridPoint(-(Scaled(-x) + 0.5).Floor) == RoundHalfUp(x);
    }
  }

  /** So is what is printed with 20 places, whatever the number. */
  lemma PrintedIsNearest(x: real, k: int)
    ensures ToFixed(Finite(x)).Finite? && OnGrid(ToFixed(Finite(x)).v)
    ensures Abs(ToFixed(Finite(x)).v - x) <= HALF_ULP
    ensures Abs(ToFixed(Finite(x)).v - x) <= Abs(GridPoint(k) - x)
  {
    RoundIsNearest(x, k);
  }

  /** A number half-way between two grid points goes to the one further from zero, on both sides of zero. */
  lemma TiesGoAwayFromZero(k: nat)
    ensures RoundHalfUp(GridPoint(k) + HALF_ULP) == GridPoint(k + 1)
    ensures RoundHalfUp(-(GridPoint(k) + HALF_ULP)) == -GridPoint(k + 1)
  {
    var x := GridPoint(k) + HALF_ULP;
    assert Scaled(x) + 0.5 == (k + 1) as real;
    assert (Scaled(x) + 0.5).Floor == k + 1;
    assert RoundHalfUp(-x) == GridPoint(-(k + 1)) by { assert -(-x) == x && -x < 0.0; }
    assert GridPoint(-(k + 1)) == -GridPoint(k + 1);
  }

  /** A number already rounded to 20 places is left alone. */
  lemma RoundKeepsGrid(k: int)
    ensures RoundHalfUp(GridPoint(k)) == GridPoint(k)
  {
    var n := if k >= 0 then k else -k;
    assert (n as real + 0.5).Floor == n;
    assert Scaled(GridPoint(k)) == k as real;
    assert Scaled(-GridPoint(k)) == (-k) as real;
  }

  lemma RoundIdempotent(x: real)
    ensures RoundHalfUp(RoundHalfUp(x)) == RoundHalfUp(x)
  {
    RoundIsNearest(x, 0);
    var k :| GridPoint(k) == RoundHalfUp(x);
    RoundKeepsGrid(k);
  }

  /** Multiplying a quotient back by its divisor misses the dividend by at most half a unit times
      the divisor, and printing the quotient changes nothing. */
  lemma DivTimesDivisor(a: real, b: real)
    requires b > 0.0
    ensures Div(Finite(a), Finite(b)).Finite?
    ensures Abs(Div(Finite(a), Finite(b)).v * b - a) <= HALF_ULP * b
    ensures ToFixed(Div(Finite(a), Finite(b))) == Div(Finite(a), Finite(b))
  {
    var q := a / b;
    RoundIsNearest(q, 0);
    RoundIdempotent(q);
    RoundedTimes(RoundHalfUp(q), q, a, b);
  }

  lemma RoundedTimes(p: real, q: real, a: real, b: real)
    requires b > 0.0 && q == a / b && Abs(p - q) <= HALF_ULP
    ensures Abs(p * b - a) <= HALF_ULP * b
  {
    var d := p - q;
    ScaleBound(d, HALF_ULP, b);
    assert q * b == a;
    assert d * b == p * b - q * b;
    assert p * b - a == d * b;
    assert Abs(p * b - a) == Abs(d * b);
  }

  lemma ScaleBound(d: real, bound: real, factor: real)
    requires Abs(d) <= bound && factor >= 0.0
    ensures Abs(d * factor) <= bound * factor
  {
    assert d * factor <= bound * factor;
    assert -d * factor <= bound * factor;
  }

  /** A common positive factor cancels exactly, before any rounding. */
  lemma CancelFactor(a: real, b: real, c: real)
    requires b != 0.0 && c > 0.0
    ensures b / c != 0.0
    ensures (a / c) / (b / c) == a / b
  {
    var x, y := a / c, b / c;
    assert x * c == a && y * c == b;
    var q := a / b;
    assert q * b == a;
    assert q * y * c == x * c;
    assert q * y == x;
  }
}
