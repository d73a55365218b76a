/** The dirt field's geometry: its size, the four cardinal directions, Manhattan distance,
    and the injected stand-in for Math.random. */
module Grid {

  /** Columns (x) and rows (y) of the dirt area. */
  const GRID_WIDTH: int := 14
  const GRID_HEIGHT: int := 15

  datatype Direction = Up | Down | Left | Right

  /** One value of Math.random(): a real in [0, 1). */
  type Unit = r: real | 0.0 <= r < 1.0

  predicate InBounds(x: int, y: int) {
    0 <= x < GRID_WIDTH && 0 <= y < GRID_HEIGHT
  }

  function DeltaX(d: Direction): int {
    match d
    case Left => -1
    case Right => 1
    case _ => 0
  }

  function DeltaY(d: Direction): int {
    match d
    case Up => -1
    case Down => 1
    case _ => 0
  }

  function Abs(n: int): nat {
    if n < 0 then -n else n
  }

  function Manhattan(x1: int, y1: int, x2: int, y2: int): nat {
    Abs(x1 - x2) + Abs(y1 - y2)
  }

  /** Math.floor: the integer part of a non-negative real below `bound`. */
  function WholePart(x: real, bound: nat): (k: nat)
    requires 0.0 <= x < bound as real
    ensures k < bound && k as real <= x < k as real + 1.0
    decreases bound
  {
    if x < 1.0 then 0 else 1 + WholePart(x - 1.0, bound - 1)
  }

  /** r * n, as the n-fold sum r + ... + r. */
  function Scaled(r: real, n: nat): real {
    if n == 0 then 0.0 else r + Scaled(r, n - 1)
  }

  /** The n-fold sum is the product. */
  lemma {:induction false} ScaledIsProduct(r: real, n: nat)
    ensures Scaled(r, n) == r * (n as real)
  {
    if n > 0 {
      ScaledIsProduct(r, n - 1);
    }
  }

  /** A draw in [0, 1) scaled by n lies in [0, n), and strictly below n when n > 0. */
  lemma {:induction false} ScaledBounds(r: Unit, n: nat)
    ensures 0.0 <= Scaled(r, n) <= n as real
    ensures n > 0 ==> Scaled(r, n) < n as real
  {
    if n > 0 {
      ScaledBounds(r, n - 1);
    }
  }

  /** `Math.floor(Math.random() * n)`: an index in 0..n-1. */
  function RandomIndex(r: Unit, n: nat): (k: nat)
    requires n > 0
    ensures k < n
  {
    ScaledBounds(r, n);
    WholePart(Scaled(r, n), n)
  }

  /** RandomIndex is the floor of the draw scaled by n: the greatest whole number not
      above r * n. */
  lemma RandomIndexIsFloor(r: Unit, n: nat)
    requires n > 0
    ensures var k := RandomIndex(r, n);
            k as real <= r * (n as real) < k as real + 1.0
  {
    ScaledIsProduct(r, n);
  }
}
