/** Python's `round`: to the nearest, halves to the even neighbour. */
module Rounding {

  function Round(x: real): int {
    var f := x.Floor;
    var d := x - f as real;
    if d < 0.5 then f
    else if d > 0.5 then f + 1
    else if f % 2 == 0 then f else f + 1
  }

  /** `round(x, d)` where `unit` is ten to the `d`. */
  function RoundTo(x: real, unit: nat): real
    requires unit > 0
  {
    Round(x * unit as real) as real / unit as real
  }

  /** `n` is nearest to `x`, and even if its neighbour is as near. */
  ghost predicate IsNearest(x: real, n: int) {
    x - 0.5 <= n as real <= x + 0.5 && (n as real - x == 0.5 || x - n as real == 0.5 ==> n % 2 == 0)
  }

  lemma RoundIsNearest(x: real, n: int)
    ensures IsNearest(x, n) <==> n == Round(x)
  {
    var f := x.Floor;
    assert f as real <= x < f as real + 1.0;
    if IsNearest(x, n) {
      assert n == f || n == f + 1;
    }
  }

  /** Rounding to `unit` parts moves a number by half a part at most. */
  lemma RoundToIsNear(x: real, unit: nat)
    requires unit > 0
    ensures var r := RoundTo(x, unit) * unit as real;
            r == Round(x * unit as real) as real && x * unit as real - 0.5 <= r <= x * unit as real + 0.5
  {
    RoundIsNearest(x * unit as real, Round(x * unit as real));
    var r := Round(x * unit as real) as real;
    assert r / unit as real * unit as real == r;
  }

  lemma RoundMonotone(x: real, y: real)
    requires x <= y
    ensures Round(x) <= Round(y)
  {
    assert x.Floor <= y.Floor;
    if x.Floor < y.Floor {
      assert Round(x) <= x.Floor + 1 <= y.Floor <= Round(y);
    }
  }

  lemma DivideMonotone(x: real, y: real, t: real)
    requires x <= y && t > 0.0
    ensures x / t <= y / t
  {
    var p, q := x / t, y / t;
    assert p * t == x && q * t == y;
    assert (q - p) * t >= 0.0;
  }
}
