/** The arithmetic and the placement search of spawnEnemies: how many enemies a level gets,
    which cells a tunnel covers, and getRandomSpawnPosition. */
module Spawning {
  import opened Grid

  const MIN_POOKA: int := 2
  const MAX_POOKA: int := 4
  const MIN_FYGAR: int := 1
  const MAX_FYGAR: int := 2
  /** Retries of the random placement before the row-by-row scan. */
  const MAX_ATTEMPTS: int := 100

  function Min(a: int, b: int): int { if a <= b then a else b }
  function Max(a: int, b: int): int { if a >= b then a else b }

  /** Pookas on a level: 2 more than a Pooka per two levels, at most 4. */
  function PookaCount(level: nat): (n: nat)
    ensures MIN_POOKA <= n <= MAX_POOKA
    ensures level < 4 ==> n == MIN_POOKA + level / 2
    ensures level >= 4 ==> n == MAX_POOKA
  {
    Min(MIN_POOKA + level / 2, MAX_POOKA)
  }

  /** Fygars on a level: 1 more than a Fygar per three levels, at most 2. */
  function FygarCount(level: nat): (n: nat)
    ensures MIN_FYGAR <= n <= MAX_FYGAR
    ensures level < 3 <==> n == MIN_FYGAR
  {
    Min(MIN_FYGAR + level / 3, MAX_FYGAR)
  }

  /** The first and last cell of a tunnel of the given length centred on `center`, clipped
      to a line of `size` cells (clearHorizontalTunnel, clearVerticalTunnel). It never
      leaves the line, is never longer than asked, covers the centre, and has the full
      length whenever it fits. */
  function TunnelSpan(center: int, length: int, size: int): (span: (int, int))
    ensures 0 <= span.0 && span.1 <= size - 1
    ensures span.1 - span.0 + 1 <= length
    ensures 1 <= length && 0 <= center < size ==> span.0 <= center <= span.1
    ensures 0 <= center - length / 2 && center - length / 2 + length <= size ==> span.1 - span.0 + 1 == length
  {
    var start := Max(0, center - length / 2);
    var end := Min(size - 1, start + length - 1);
    (start, end)
  }

  /** A grid cell nobody occupies yet. */
  predicate Free(occupied: set<(int, int)>, x: int, y: int) {
    InBounds(x, y) && (x, y) !in occupied
  }

  /** (x', y') comes before (x, y) in the fallback's row-by-row scan. */
  predicate ScannedBefore(x': int, y': int, x: int, y: int) {
    y' < y || (y' == y && x' < x)
  }

  /** Fewer occupied cells than the first n cells of row 0 leaves one of them free. */
  lemma {:induction false} FreeCellInFirstRow(occupied: set<(int, int)>, n: nat)
    requires |occupied| < n <= GRID_WIDTH
    ensures exists x :: 0 <= x < n && Free(occupied, x, 0)
  {
    if (n - 1, 0) !in occupied {
      assert Free(occupied, n - 1, 0);
    } else {
      FreeCellInFirstRow(occupied - {(n - 1, 0)}, n - 1);
      var x :| 0 <= x < n - 1 && Free(occupied - {(n - 1, 0)}, x, 0);
      assert Free(occupied, x, 0);
    }
  }

  /** getRandomSpawnPosition. Draws come from the stream `rand`, starting at `k`. Up to
      MAX_ATTEMPTS random cells are tried; the first that is free and more than 3 cells
      from the player is taken. Failing that, the first free cell in row-by-row order is
      taken; failing that, a random cell, which is then not recorded. So the result is
      always on the grid, and it is a cell nobody occupies whenever one exists. */
  method RandomSpawnPosition(px: int, py: int, occupied: set<(int, int)>, rand: nat -> Unit, k: nat)
    returns (x: int, y: int, occupied': set<(int, int)>, k': nat)
    ensures InBounds(x, y) && k <= k'
    ensures (x, y) !in occupied ==> occupied' == occupied + {(x, y)}
    ensures (x, y) in occupied ==> occupied' == occupied
    ensures (exists cx, cy :: Free(occupied, cx, cy)) ==> (x, y) !in occupied
    ensures (x, y) !in occupied ==>
              Manhattan(x, y, px, py) > 3 ||
              forall cx, cy :: InBounds(cx, cy) && ScannedBefore(cx, cy, x, y) ==> !Free(occupied, cx, cy)
  {
    k' := k;
    var attempts := 0;
    while attempts < MAX_ATTEMPTS
      invariant k <= k'
    {
      var rx := RandomIndex(rand(k'), GRID_WIDTH);
      var ry := RandomIndex(rand(k' + 1), GRID_HEIGHT);
      k' := k' + 2;
      if (rx, ry) !in occupied && Manhattan(rx, ry, px, py) > 3 {
        return rx, ry, occupied + {(rx, ry)}, k';
      }
      attempts := attempts + 1;
    }

    var sy := 0;
    while sy < GRID_HEIGHT
      invariant 0 <= sy <= GRID_HEIGHT
      invariant forall cx, cy :: InBounds(cx, cy) && cy < sy ==> !Free(occupied, cx, cy)
    {
      var sx := 0;
      while sx < GRID_WIDTH
        invariant 0 <= sx <= GRID_WIDTH
        invariant forall cx, cy :: InBounds(cx, cy) && ScannedBefore(cx, cy, sx, sy) ==> !Free(occupied, cx, cy)
      {
        if (sx, sy) !in occupied {
          return sx, sy, occupied + {(sx, sy)}, k';
        }
        sx := sx + 1;
      }
      sy := sy + 1;
    }

    x := RandomIndex(rand(k'), GRID_WIDTH);
    y := RandomIndex(rand(k' + 1), GRID_HEIGHT);
    k' := k' + 2;
    assert !Free(occupied, x, y);
    occupied' := occupied;
  }
}
