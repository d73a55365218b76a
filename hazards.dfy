/** Fygar fire breath: the trigger gate of triggerFygarFire, the age-to-range table of
    getFireRange, the cells a breath covers (checkFireCollision) and the expiry filter of
    updateFires. */
module Hazards {
  import opened Grid
  import opened Entities

  /** Phase lengths of a breath, in seconds. */
  const WARNING_DURATION: real := 0.5
  const GROW_DURATION: real := 0.4
  const FULL_DURATION: real := 0.3
  const SHRINK_DURATION: real := 0.3
  const TOTAL_DURATION: real := 1.5
  /** Seconds a Fygar waits between two breaths. */
  const COOLDOWN: real := 3.0
  /** A breath starts when the random draw is at most this. */
  const PROBABILITY: real := 0.3
  /** How far along its row a Fygar looks for the player. */
  const DISTANCE_CHECK: int := 3

  /** getFireRange: how many cells a breath of the given age reaches — nothing while it
      warns, one cell while it grows, two at full strength, one while it shrinks, nothing
      once spent. */
  function FireRange(age: real): (r: nat)
    ensures r <= 2
    ensures age < 0.5 ==> r == 0
    ensures 0.5 <= age < 0.9 ==> r == 1
    ensures 0.9 <= age < 1.2 ==> r == 2
    ensures 1.2 <= age < 1.5 ==> r == 1
    ensures 1.5 <= age ==> r == 0
  {
    if age < WARNING_DURATION then 0
    else
      var activeAge := age - WARNING_DURATION;
      if activeAge < GROW_DURATION then 1
      else if activeAge < GROW_DURATION + FULL_DURATION then 2
      else if activeAge < GROW_DURATION + FULL_DURATION + SHRINK_DURATION then 1
      else 0
  }

  /** The cell `distance` cells from the breath's origin along its direction. */
  function FireCell(f: Fire, distance: int): (int, int) {
    match f.direction
    case Left => (f.x - distance, f.y)
    case Right => (f.x + distance, f.y)
    case Up => (f.x, f.y - distance)
    case Down => (f.x, f.y + distance)
  }

  /** The breath covers the player's cell at time `now`. */
  predicate Scorches(f: Fire, now: real, px: int, py: int) {
    exists distance :: 1 <= distance <= FireRange(now - f.createdTime) && FireCell(f, distance) == (px, py)
  }

  /** The search of checkFireCollision: whether some breath covers the player's cell. */
  method FindFireHit(fires: seq<Fire>, now: real, px: int, py: int) returns (hit: bool)
    ensures hit <==> exists i :: 0 <= i < |fires| && Scorches(fires[i], now, px, py)
  {
    var i := 0;
    while i < |fires|
      invariant 0 <= i <= |fires|
      invariant forall j :: 0 <= j < i ==> !Scorches(fires[j], now, px, py)
    {
      var fire := fires[i];
      var currentRange := FireRange(now - fire.createdTime);
      if currentRange != 0 {
        var distance := 1;
        while distance <= currentRange
          invariant 1 <= distance <= currentRange + 1
          invariant forall k :: 1 <= k < distance ==> FireCell(fire, k) != (px, py)
        {
          if FireCell(fire, distance) == (px, py) {
            return true;
          }
          distance := distance + 1;
        }
      }
      i := i + 1;
    }
    return false;
  }

  /** A breath that has not yet lasted its duration. */
  predicate Live(f: Fire, now: real) {
    now - f.createdTime < f.duration
  }

  /** updateFires: the live breaths, in their original order. */
  function LiveFires(fires: seq<Fire>, now: real): (r: seq<Fire>)
    ensures |r| <= |fires|
    ensures forall f :: f in r <==> f in fires && Live(f, now)
  {
    if fires == [] then []
    else (if Live(fires[0], now) then [fires[0]] else []) + LiveFires(fires[1..], now)
  }

  /** Filtering commutes with concatenation, so the kept breaths keep their relative order. */
  lemma {:induction false} LiveFiresAppend(a: seq<Fire>, b: seq<Fire>, now: real)
    ensures LiveFires(a + b, now) == LiveFires(a, now) + LiveFires(b, now)
  {
    if a == [] {
      assert a + b == b;
    } else {
      assert (a + b)[1..] == a[1..] + b;
      LiveFiresAppend(a[1..], b, now);
    }
  }

  /** Filtering twice keeps the same breaths as filtering once. */
  lemma {:induction false} LiveFiresIdempotent(fires: seq<Fire>, now: real)
    ensures LiveFires(LiveFires(fires, now), now) == LiveFires(fires, now)
  {
    if fires != [] {
      LiveFiresIdempotent(fires[1..], now);
      var head := if Live(fires[0], now) then [fires[0]] else [];
      LiveFiresAppend(head, LiveFires(fires[1..], now), now);
    }
  }

  /** A breath removed by updateFires reaches no cell any more. */
  lemma SpentBreathIsHarmless(f: Fire, now: real, px: int, py: int)
    requires f.duration == TOTAL_DURATION && !Live(f, now)
    ensures !Scorches(f, now, px, py)
  {
  }

  /** The Fygar faces the player along its row. */
  predicate FacesPlayer(e: Enemy, px: int) {
    (e.direction == Left && e.x > px) || (e.direction == Right && e.x < px)
  }

  /** Every condition of triggerFygarFire, in the source's order: a Fygar, not in dirt, out
      of cooldown, on the player's row within DISTANCE_CHECK cells, facing the player, and a
      random draw of at most PROBABILITY. */
  predicate FireGate(e: Enemy, inDirt: bool, px: int, py: int, now: real, draw: Unit) {
    && e.kind == Fygar
    && !inDirt
    && now - e.lastFireTime >= COOLDOWN
    && Abs(e.x - px) <= DISTANCE_CHECK && Abs(e.y - py) == 0
    && FacesPlayer(e, px)
    && draw <= PROBABILITY
  }

  /** The breath triggerFygarFire creates. */
  function Breath(e: Enemy, now: real): Fire {
    Fire(e.x, e.y, e.direction, now, TOTAL_DURATION)
  }

  /** A breath let through by the gate points along the row at the player, 1 to 3 cells
      away, and covers the player's cell at a later time exactly when its range then is at
      least that distance. So a player who stays 3 cells away is never reached. */
  lemma BreathReach(e: Enemy, inDirt: bool, px: int, py: int, now: real, draw: Unit, later: real)
    requires FireGate(e, inDirt, px, py, now, draw)
    ensures Breath(e, now).direction in {Left, Right}
    ensures 1 <= Abs(e.x - px) <= DISTANCE_CHECK
    ensures Scorches(Breath(e, now), later, px, py) <==> Abs(e.x - px) <= FireRange(later - now)
  {
    var f := Breath(e, now);
    var gap := Abs(e.x - px);
    assert FireCell(f, gap) == (px, py);
    if Scorches(f, later, px, py) {
      var k :| 1 <= k <= FireRange(later - now) && FireCell(f, k) == (px, py);
      assert k == gap;
    }
  }
}
