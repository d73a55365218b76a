/** calculateEnemyPath: the direction an enemy steps in, chosen greedily by Manhattan
    distance to the player among the in-bounds cardinal neighbours, ties broken by a random
    draw. The grid's dirt is not consulted. */
module Pathing {
  import opened Grid

  /** The order in which calculateEnemyPath lists the candidate directions. */
  const DIRECTIONS: seq<Direction> := [Up, Down, Left, Right]

  predicate StepInBounds(x: int, y: int, d: Direction) {
    InBounds(x + DeltaX(d), y + DeltaY(d))
  }

  /** Manhattan distance from the neighbour of (x, y) in direction d to the player. */
  function DistanceAfter(x: int, y: int, px: int, py: int, d: Direction): nat {
    Manhattan(x + DeltaX(d), y + DeltaY(d), px, py)
  }

  /** The candidates whose neighbour lies on the grid, in their original order. */
  function ValidDirections(x: int, y: int, ds: seq<Direction>): (r: seq<Direction>)
    ensures |r| <= |ds|
  {
    if ds == [] then []
    else (if StepInBounds(x, y, ds[0]) then [ds[0]] else []) + ValidDirections(x, y, ds[1..])
  }

  /** The filter keeps exactly the candidates that stay on the grid. */
  lemma {:induction false} ValidDirectionsMembers(x: int, y: int, ds: seq<Direction>)
    ensures forall d :: d in ValidDirections(x, y, ds) <==> d in ds && StepInBounds(x, y, d)
  {
    if ds != [] {
      ValidDirectionsMembers(x, y, ds[1..]);
      assert ds == [ds[0]] + ds[1..];
    }
  }

  /** The smallest distance any candidate leads to. */
  function MinDistance(x: int, y: int, px: int, py: int, ds: seq<Direction>): nat
    requires ds != []
  {
    if |ds| == 1 then DistanceAfter(x, y, px, py, ds[0])
    else
      var rest := MinDistance(x, y, px, py, ds[1..]);
      var here := DistanceAfter(x, y, px, py, ds[0]);
      if here <= rest then here else rest
  }

  /** MinDistance is attained by some candidate and bounds every candidate from below. */
  lemma {:induction false} MinDistanceIsMinimum(x: int, y: int, px: int, py: int, ds: seq<Direction>)
    requires ds != []
    ensures exists d :: d in ds && DistanceAfter(x, y, px, py, d) == MinDistance(x, y, px, py, ds)
    ensures forall d :: d in ds ==> MinDistance(x, y, px, py, ds) <= DistanceAfter(x, y, px, py, d)
  {
    if |ds| == 1 {
      assert ds[0] in ds;
    } else {
      MinDistanceIsMinimum(x, y, px, py, ds[1..]);
      assert ds == [ds[0]] + ds[1..];
      var d' :| d' in ds[1..] && DistanceAfter(x, y, px, py, d') == MinDistance(x, y, px, py, ds[1..]);
      assert d' in ds && ds[0] in ds;
    }
  }

  /** The candidates that lead to distance m, in their original order. */
  function NearestDirections(x: int, y: int, px: int, py: int, ds: seq<Direction>, m: nat): seq<Direction> {
    if ds == [] then []
    else (if DistanceAfter(x, y, px, py, ds[0]) == m then [ds[0]] else []) + NearestDirections(x, y, px, py, ds[1..], m)
  }

  /** The second filter keeps exactly the candidates at distance m. */
  lemma {:induction false} NearestDirectionsMembers(x: int, y: int, px: int, py: int, ds: seq<Direction>, m: nat)
    ensures forall d :: d in NearestDirections(x, y, px, py, ds, m) <==> d in ds && DistanceAfter(x, y, px, py, d) == m
  {
    if ds != [] {
      NearestDirectionsMembers(x, y, px, py, ds[1..], m);
      assert ds == [ds[0]] + ds[1..];
    }
  }

  /** Every cell of the grid has a neighbour on the grid. */
  lemma SomeNeighbourInBounds(x: int, y: int)
    requires InBounds(x, y)
    ensures ValidDirections(x, y, DIRECTIONS) != []
  {
    ValidDirectionsMembers(x, y, DIRECTIONS);
    if y + 1 < GRID_HEIGHT {
      assert Down in DIRECTIONS;
    } else {
      assert Up in DIRECTIONS;
    }
  }

  /** The candidate list names every direction. */
  lemma AllDirectionsListed(d: Direction)
    ensures d in DIRECTIONS
  {
    assert DIRECTIONS[0] == Up && DIRECTIONS[1] == Down && DIRECTIONS[2] == Left && DIRECTIONS[3] == Right;
  }

  /** The distance to the player from the nearest in-bounds neighbour (Math.min over the
      candidates' distances). */
  function NearestDistance(x: int, y: int, px: int, py: int): nat
    requires InBounds(x, y)
  {
    SomeNeighbourInBounds(x, y);
    MinDistance(x, y, px, py, ValidDirections(x, y, DIRECTIONS))
  }

  /** NearestDistance is the least distance over all in-bounds neighbours, and some
      in-bounds neighbour attains it. */
  lemma NearestDistanceIsMinimum(x: int, y: int, px: int, py: int)
    requires InBounds(x, y)
    ensures exists d :: StepInBounds(x, y, d) && DistanceAfter(x, y, px, py, d) == NearestDistance(x, y, px, py)
    ensures forall d :: StepInBounds(x, y, d) ==> NearestDistance(x, y, px, py) <= DistanceAfter(x, y, px, py, d)
  {
    SomeNeighbourInBounds(x, y);
    var valid := ValidDirections(x, y, DIRECTIONS);
    ValidDirectionsMembers(x, y, DIRECTIONS);
    MinDistanceIsMinimum(x, y, px, py, valid);
    forall d | StepInBounds(x, y, d)
      ensures NearestDistance(x, y, px, py) <= DistanceAfter(x, y, px, py, d)
    {
      AllDirectionsListed(d);
    }
  }

  /** The tied-nearest candidates among the in-bounds ones. */
  function BestDirections(x: int, y: int, px: int, py: int): (r: seq<Direction>)
    requires InBounds(x, y)
    ensures r != []
    ensures forall d :: d in r ==> StepInBounds(x, y, d) && DistanceAfter(x, y, px, py, d) == NearestDistance(x, y, px, py)
  {
    SomeNeighbourInBounds(x, y);
    var valid := ValidDirections(x, y, DIRECTIONS);
    var m := MinDistance(x, y, px, py, valid);
    ValidDirectionsMembers(x, y, DIRECTIONS);
    NearestDirectionsMembers(x, y, px, py, valid, m);
    MinDistanceIsMinimum(x, y, px, py, valid);
    NearestDirections(x, y, px, py, valid, m)
  }

  /** Every in-bounds neighbour at the nearest distance is among the tied candidates. */
  lemma BestDirectionsComplete(x: int, y: int, px: int, py: int, d: Direction)
    requires InBounds(x, y) && StepInBounds(x, y, d)
    requires DistanceAfter(x, y, px, py, d) == NearestDistance(x, y, px, py)
    ensures d in BestDirections(x, y, px, py)
  {
    SomeNeighbourInBounds(x, y);
    var valid := ValidDirections(x, y, DIRECTIONS);
    ValidDirectionsMembers(x, y, DIRECTIONS);
    NearestDirectionsMembers(x, y, px, py, valid, MinDistance(x, y, px, py, valid));
    AllDirectionsListed(d);
  }

  /** calculateEnemyPath: the returned direction leads onto the grid, to a neighbour at the
      nearest distance to the player. */
  function CalculateEnemyPath(x: int, y: int, px: int, py: int, r: Unit): (d: Direction)
    requires InBounds(x, y)
    ensures StepInBounds(x, y, d)
    ensures DistanceAfter(x, y, px, py, d) == NearestDistance(x, y, px, py)
  {
    var best := BestDirections(x, y, px, py);
    best[RandomIndex(r, |best|)]
  }

  /** Greedy choice: no in-bounds neighbour is closer to the player than the chosen one. */
  lemma PathIsGreedy(x: int, y: int, px: int, py: int, r: Unit)
    requires InBounds(x, y)
    ensures forall d :: StepInBounds(x, y, d) ==>
              DistanceAfter(x, y, px, py, CalculateEnemyPath(x, y, px, py, r)) <= DistanceAfter(x, y, px, py, d)
  {
    NearestDistanceIsMinimum(x, y, px, py);
  }

  /** The random draw only breaks ties: every in-bounds direction whose neighbour is nearest
      to the player is returned for some draw. */
  lemma EveryNearestIsChosenBySomeDraw(x: int, y: int, px: int, py: int, d: Direction)
    requires InBounds(x, y) && StepInBounds(x, y, d)
    requires forall d' :: StepInBounds(x, y, d') ==>
               DistanceAfter(x, y, px, py, d) <= DistanceAfter(x, y, px, py, d')
    ensures exists r: Unit :: CalculateEnemyPath(x, y, px, py, r) == d
  {
    NearestDistanceIsMinimum(x, y, px, py);
    var d0 :| StepInBounds(x, y, d0) && DistanceAfter(x, y, px, py, d0) == NearestDistance(x, y, px, py);
    BestDirectionsComplete(x, y, px, py, d);
    var best := BestDirections(x, y, px, py);
    var j :| 0 <= j < |best| && best[j] == d;
    var r := DrawForIndex(j, |best|);
    assert CalculateEnemyPath(x, y, px, py, r) == d;
  }

  /** The draw j / n selects index j out of n. */
  lemma DrawForIndex(j: nat, n: nat) returns (r: Unit)
    requires j < n
    ensures RandomIndex(r, n) == j
  {
    var q: real := j as real / n as real;
    assert q * (n as real) == j as real;
    r := q;
    ScaledIsProduct(r, n);
  }

  /** Greedy pursuit: away from the player's cell, each chosen step brings the enemy exactly
      one cell closer; on the player's cell, it steps one cell off. */
  lemma PathApproachesPlayer(x: int, y: int, px: int, py: int, r: Unit)
    requires InBounds(x, y) && InBounds(px, py)
    ensures DistanceAfter(x, y, px, py, CalculateEnemyPath(x, y, px, py, r))
            == if x == px && y == py then 1 else Manhattan(x, y, px, py) - 1
  {
    NearestDistanceIsMinimum(x, y, px, py);
    var toward :=
      if px < x then Left else if px > x then Right else if py < y then Up else Down;
    if x == px && y == py {
      assert forall d :: DistanceAfter(x, y, px, py, d) == 1;
    } else {
      assert StepInBounds(x, y, toward);
      assert DistanceAfter(x, y, px, py, toward) == Manhattan(x, y, px, py) - 1;
      assert forall d :: DistanceAfter(x, y, px, py, d) >= Manhattan(x, y, px, py) - 1;
    }
  }
}
