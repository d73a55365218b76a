/** The per-enemy update of updateEnemies — alive time, dirt flag, Fygar firing state,
    triggerFygarFire and moveEnemy — as functions on enemy values, and its left-to-right
    fold over the enemy list. The Game class's methods are proved against these. */
module Enemies {
  import opened Grid
  import opened Entities
  import opened Pathing
  import opened Hazards

  /** What one frame hands to every enemy: the player's cell, the current time in seconds
      and the elapsed time. */
  datatype Frame = Frame(px: int, py: int, now: real, dt: real)

  /** The injected choices of one updateEnemies call, indexed by the enemy's place in the
      list: whether its interpolation reaches its target this frame, and the Math.random
      values of triggerFygarFire and calculateEnemyPath. */
  datatype Draws = Draws(arrived: nat -> bool, fire: nat -> Unit, path: nat -> Unit)

  /** The arrival branch of moveEnemy: logical cell and drawn position snap to the target. */
  function Arrive(e: Enemy): (r: Enemy)
    requires EnemyPlaced(e)
    ensures EnemyPlaced(r) && !r.isMoving && r.x == e.targetX && r.y == e.targetY
  {
    e.(renderX := e.targetX as real, renderY := e.targetY as real,
       x := e.targetX, y := e.targetY, isMoving := false)
  }

  /** moveEnemy. A firing enemy, or one still on its way, keeps its state; otherwise the
      enemy (having arrived, if it was moving) sets off toward a neighbour of its new cell
      that is nearest to the player. It stays placed and keeps its identity and dirt flag;
      MoveResultSpec states the rest. */
  function MoveResult(e: Enemy, px: int, py: int, arrived: bool, draw: Unit): (r: Enemy)
    requires EnemyPlaced(e)
    ensures EnemyPlaced(r) && SameIdentity(r, e) && r.isInDirt == e.isInDirt
  {
    if e.isFiring then e
    else
      var here := if e.isMoving && arrived then Arrive(e) else e;
      if here.isMoving then here
      else
        var d := CalculateEnemyPath(here.x, here.y, px, py, draw);
        var newX := here.x + DeltaX(d);
        var newY := here.y + DeltaY(d);
        var turned := here.(direction := d);
        if InBounds(newX, newY) then turned.(targetX := newX, targetY := newY, isMoving := true)
        else turned
  }

  /** moveEnemy touches only the position, drawn position, target, direction and moving
      flag. A firing enemy, or one still on its way, is unchanged; any other enemy ends on
      its target cell, drawn there too, and sets off, one step along its new direction, toward a neighbour at the nearest
      distance to the player. */
  lemma MoveResultSpec(e: Enemy, px: int, py: int, arrived: bool, draw: Unit)
    requires EnemyPlaced(e)
    ensures var r := MoveResult(e, px, py, arrived, draw);
            && r.inflationStage == e.inflationStage && r.aliveTime == e.aliveTime
            && r.lastFireTime == e.lastFireTime && r.isFiring == e.isFiring
    ensures e.isFiring || (e.isMoving && !arrived) ==> MoveResult(e, px, py, arrived, draw) == e
    ensures var r := MoveResult(e, px, py, arrived, draw);
            !e.isFiring && (!e.isMoving || arrived) ==>
              && r.isMoving
              && r.x == e.targetX && r.y == e.targetY
              && r.targetX == r.x + DeltaX(r.direction) && r.targetY == r.y + DeltaY(r.direction)
              && DistanceAfter(r.x, r.y, px, py, r.direction) == NearestDistance(r.x, r.y, px, py)
    ensures var r := MoveResult(e, px, py, arrived, draw);
            !e.isFiring && e.isMoving && arrived ==> r.renderX == e.targetX as real && r.renderY == e.targetY as real
    ensures var r := MoveResult(e, px, py, arrived, draw);
            !e.isFiring && !e.isMoving ==> r.renderX == e.renderX && r.renderY == e.renderY
  {
  }

  /** Array.find over the breaths: the first one whose origin is the given cell. */
  function FireAt(fires: seq<Fire>, x: int, y: int): Option<Fire> {
    if fires == [] then None
    else if fires[0].x == x && fires[0].y == y then Some(fires[0])
    else FireAt(fires[1..], x, y)
  }

  /** FireAt finds nothing exactly when no breath originates on the cell, and otherwise
      the earliest breath that does. */
  lemma {:induction false} FireAtIsFirstMatch(fires: seq<Fire>, x: int, y: int)
    ensures var r := FireAt(fires, x, y);
            r.None? <==> forall i :: 0 <= i < |fires| ==> !(fires[i].x == x && fires[i].y == y)
    ensures var r := FireAt(fires, x, y);
            r.Some? ==> exists i :: 0 <= i < |fires| && fires[i] == r.value && r.value.x == x && r.value.y == y
                          && forall j :: 0 <= j < i ==> !(fires[j].x == x && fires[j].y == y)
  {
    if fires != [] && !(fires[0].x == x && fires[0].y == y) {
      FireAtIsFirstMatch(fires[1..], x, y);
      assert forall i :: 1 <= i < |fires| ==> fires[i] == fires[1..][i - 1];
      var r := FireAt(fires, x, y);
      if r.Some? {
        var i :| 0 <= i < |fires[1..]| && fires[1..][i] == r.value && r.value.x == x && r.value.y == y
                 && forall j :: 0 <= j < i ==> !(fires[1..][j].x == x && fires[1..][j].y == y);
        assert fires[i + 1] == r.value;
      }
    }
  }

  /** A Fygar counts as firing while the first breath originating on its cell is younger
      than a breath's total duration — whoever breathed it. */
  predicate StillFiring(e: Enemy, fires: seq<Fire>, now: real) {
    match FireAt(fires, e.x, e.y)
    case Some(f) => now - f.createdTime < TOTAL_DURATION
    case None => false
  }

  /** triggerFygarFire: when the gate passes, the cooldown restarts and the Fygar breathes;
      otherwise the enemy is unchanged and there is no breath. */
  function TriggerResult(e: Enemy, inDirt: bool, px: int, py: int, now: real, draw: Unit)
    : (r: (Enemy, Option<Fire>))
    ensures r.1.Some? <==> FireGate(e, inDirt, px, py, now, draw)
    ensures r.1.Some? ==> r.0 == e.(lastFireTime := now) && r.1.value == Breath(e, now)
    ensures r.1.None? ==> r.0 == e
  {
    if FireGate(e, inDirt, px, py, now, draw) then (e.(lastFireTime := now), Some(Breath(e, now)))
    else (e, None)
  }

  /** The breaths once an optional new one is appended. */
  function Added(fires: seq<Fire>, breath: Option<Fire>): seq<Fire> {
    match breath
    case Some(f) => fires + [f]
    case None => fires
  }

  /** The breaths added by one frame: created now on the player's row, pointing along it. */
  predicate NewBreath(f: Fire, fr: Frame) {
    FireWellFormed(f) && f.createdTime == fr.now && f.y == fr.py
  }

  /** The Fygar part of updateEnemies' forEach, before the move: the firing state is
      refreshed from the breaths, and a Fygar not firing may breathe. A Pooka is left as
      it is. The enemy stays placed and keeps its identity and dirt flag; only a Fygar
      breathes, and its breath starts on its cell now, on the player's row. ArmedSpec
      states the rest. */
  function Armed(e: Enemy, fires: seq<Fire>, now: real, fireDraw: Unit, px: int, py: int)
    : (r: (Enemy, Option<Fire>))
    requires EnemyPlaced(e)
    ensures EnemyPlaced(r.0) && SameIdentity(r.0, e) && r.0.isInDirt == e.isInDirt
    ensures r.1.Some? ==> e.kind == Fygar && e.y == py && r.1.value == Breath(e, now) && FireWellFormed(r.1.value)
  {
    if e.kind == Fygar then
      var firing := StillFiring(e, fires, now);
      var checked := e.(isFiring := firing);
      if !firing then TriggerResult(checked, e.isInDirt, px, py, now, fireDraw)
      else (checked, None)
    else (e, None)
  }

  /** A Pooka passes through unchanged. A Fygar's firing flag is refreshed from the
      breaths; a Fygar still firing keeps everything else and does not breathe, and one
      not firing goes through triggerFygarFire, so it breathes exactly when the gate
      passes. The alive time is untouched. */
  lemma ArmedSpec(e: Enemy, fires: seq<Fire>, now: real, fireDraw: Unit, px: int, py: int)
    requires EnemyPlaced(e)
    ensures Armed(e, fires, now, fireDraw, px, py).0.aliveTime == e.aliveTime
    ensures e.kind == Pooka ==> Armed(e, fires, now, fireDraw, px, py) == (e, None)
    ensures e.kind == Fygar ==> Armed(e, fires, now, fireDraw, px, py).0.isFiring == StillFiring(e, fires, now)
    ensures e.kind == Fygar && StillFiring(e, fires, now) ==>
              Armed(e, fires, now, fireDraw, px, py) == (e.(isFiring := true), None)
    ensures e.kind == Fygar && !StillFiring(e, fires, now) ==>
              Armed(e, fires, now, fireDraw, px, py) == TriggerResult(e.(isFiring := false), e.isInDirt, px, py, now, fireDraw)
    ensures Armed(e, fires, now, fireDraw, px, py).1.Some? <==>
              e.kind == Fygar && !StillFiring(e, fires, now) && FireGate(e, e.isInDirt, px, py, now, fireDraw)
  {
  }

  /** StillFiring holds exactly when some breath originates on the enemy's cell and the
      earliest such breath is younger than a breath's total duration. */
  lemma StillFiringIff(e: Enemy, fires: seq<Fire>, now: real)
    ensures StillFiring(e, fires, now) <==>
              exists i :: 0 <= i < |fires| && fires[i].x == e.x && fires[i].y == e.y
                          && (forall j :: 0 <= j < i ==> !(fires[j].x == e.x && fires[j].y == e.y))
                          && now - fires[i].createdTime < TOTAL_DURATION
  {
    FireAtIsFirstMatch(fires, e.x, e.y);
    var r := FireAt(fires, e.x, e.y);
    if r.Some? {
      var i :| 0 <= i < |fires| && fires[i] == r.value && r.value.x == e.x && r.value.y == e.y
               && forall j :: 0 <= j < i ==> !(fires[j].x == e.x && fires[j].y == e.y);
      forall k | 0 <= k < |fires| && fires[k].x == e.x && fires[k].y == e.y
                 && (forall j :: 0 <= j < k ==> !(fires[j].x == e.x && fires[j].y == e.y))
        ensures k == i
      {
      }
    }
  }

  /** The first step of updateEnemies' forEach: the enemy ages by dt and records whether
      its cell holds dirt. */
  function Aged(e: Enemy, inDirt: bool, dt: real): Enemy {
    e.(aliveTime := e.aliveTime + dt, isInDirt := inDirt)
  }

  predicate AllPlaced(es: seq<Enemy>) {
    forall i :: 0 <= i < |es| ==> EnemyPlaced(es[i])
  }

  /** Number of Fygars among the first n enemies. */
  function FygarsIn(es: seq<Enemy>, n: nat): (k: nat)
    requires n <= |es|
    ensures k <= n
  {
    if n == 0 then 0 else FygarsIn(es, n - 1) + (if es[n - 1].kind == Fygar then 1 else 0)
  }

  /** The body of updateEnemies' forEach for enemy e at place i in the list, in frame fr,
      with `inDirt` the dirt flag of its cell and `fires` the breaths so far: the enemy ages
      and records the flag (Aged), a Fygar refreshes its firing state and perhaps breathes
      (Armed), then the enemy moves (MoveResult). The enemy keeps its identity and records
      the flag; only a Fygar breathes, and its breath is created now on the player's row. */
  function EnemyStep(e: Enemy, inDirt: bool, fires: seq<Fire>, fr: Frame, draws: Draws, i: nat)
    : (r: (Enemy, Option<Fire>))
    requires EnemyPlaced(e)
    ensures Kept(r.0, e, inDirt)
    ensures r.1.Some? ==> e.kind == Fygar && NewBreath(r.1.value, fr)
  {
    var armed := Armed(Aged(e, inDirt, fr.dt), fires, fr.now, draws.fire(i), fr.px, fr.py);
    (MoveResult(armed.0, fr.px, fr.py, draws.arrived(i), draws.path(i)), armed.1)
  }

  /** One enemy's update ages it by dt. A Fygar still firing on the breaths so far holds
      its cell, target, direction and moving flag and does not breathe; any other enemy's
      firing flag is as the breaths leave it. */
  lemma EnemyStepSpec(e: Enemy, inDirt: bool, fires: seq<Fire>, fr: Frame, draws: Draws, i: nat)
    requires EnemyPlaced(e)
    ensures EnemyStep(e, inDirt, fires, fr, draws, i).0.aliveTime == e.aliveTime + fr.dt
    ensures e.kind == Fygar ==> EnemyStep(e, inDirt, fires, fr, draws, i).0.isFiring == StillFiring(e, fires, fr.now)
    ensures var r := EnemyStep(e, inDirt, fires, fr, draws, i);
            e.kind == Fygar && StillFiring(e, fires, fr.now) ==>
              && r.0.x == e.x && r.0.y == e.y && r.0.targetX == e.targetX && r.0.targetY == e.targetY
              && r.0.direction == e.direction && r.0.isMoving == e.isMoving && r.1.None?
  {
    var aged := Aged(e, inDirt, fr.dt);
    ArmedSpec(aged, fires, fr.now, draws.fire(i), fr.px, fr.py);
    var armed := Armed(aged, fires, fr.now, draws.fire(i), fr.px, fr.py);
    MoveResultSpec(armed.0, fr.px, fr.py, draws.arrived(i), draws.path(i));
  }

  /** A per-enemy update as updateEnemies applies it: to the enemy, the dirt flag of its
      cell, the breaths so far and its place in the list. */
  type Update = (Enemy, bool, seq<Fire>, nat) --> (Enemy, Option<Fire>)

  /** The update applies to every enemy of the list, whatever breaths it sees. */
  ghost predicate Applies(step: Update, es: seq<Enemy>, inDirt: seq<bool>) {
    |inDirt| == |es| && forall i, f :: 0 <= i < |es| ==> step.requires(es[i], inDirt[i], f, i)
  }

  /** The forEach of updateEnemies over the first n enemies, in list order, for any update:
      the updated enemies and the breaths they add, each enemy seeing the breaths added
      before it. */
  function Fold(step: Update, es: seq<Enemy>, inDirt: seq<bool>, fires: seq<Fire>, n: nat)
    : (r: (seq<Enemy>, seq<Fire>))
    requires n <= |es| && Applies(step, es, inDirt)
    ensures |r.0| == n
  {
    if n == 0 then ([], [])
    else
      var prev := Fold(step, es, inDirt, fires, n - 1);
      var s := step(es[n - 1], inDirt[n - 1], fires + prev.1, n - 1);
      (prev.0 + [s.0], Added(prev.1, s.1))
  }

  /** One more step of the fold: the next enemy is updated seeing the breaths added so far. */
  lemma FoldNext(step: Update, es: seq<Enemy>, inDirt: seq<bool>, fires: seq<Fire>, n: nat)
    requires n < |es| && Applies(step, es, inDirt)
    ensures var prev := Fold(step, es, inDirt, fires, n);
            var s := step(es[n], inDirt[n], fires + prev.1, n);
            Fold(step, es, inDirt, fires, n + 1) == (prev.0 + [s.0], Added(prev.1, s.1))
  {
  }

  /** The j-th enemy after the fold is the j-th enemy's own update, seeing the breaths the
      enemies before it added. */
  lemma {:induction false} FoldElement(step: Update, es: seq<Enemy>, inDirt: seq<bool>, fires: seq<Fire>, n: nat, j: nat)
    requires n <= |es| && Applies(step, es, inDirt) && j < n
    ensures Fold(step, es, inDirt, fires, n).0[j]
            == step(es[j], inDirt[j], fires + Fold(step, es, inDirt, fires, j).1, j).0
  {
    var prev := Fold(step, es, inDirt, fires, n - 1);
    var s := step(es[n - 1], inDirt[n - 1], fires + prev.1, n - 1);
    FoldNext(step, es, inDirt, fires, n - 1);
    if j < n - 1 {
      FoldElement(step, es, inDirt, fires, n - 1, j);
      assert (prev.0 + [s.0])[j] == prev.0[j];
    } else {
      assert (prev.0 + [s.0])[j] == s.0;
    }
  }

  /** The breaths added by the first m enemies are a prefix of those the first n add. */
  lemma {:induction false} FoldBreathsGrow(step: Update, es: seq<Enemy>, inDirt: seq<bool>, fires: seq<Fire>, m: nat, n: nat)
    requires m <= n <= |es| && Applies(step, es, inDirt)
    ensures Fold(step, es, inDirt, fires, m).1 <= Fold(step, es, inDirt, fires, n).1
  {
    if m < n {
      FoldBreathsGrow(step, es, inDirt, fires, m, n - 1);
      FoldNext(step, es, inDirt, fires, n - 1);
    }
  }

  /** Under the update, only a Fygar breathes, and its breath is new in frame fr. */
  ghost predicate FygarBreathsNew(step: Update, es: seq<Enemy>, inDirt: seq<bool>, fr: Frame)
    requires Applies(step, es, inDirt)
  {
    forall i, f :: 0 <= i < |es| && step(es[i], inDirt[i], f, i).1.Some? ==>
      es[i].kind == Fygar && NewBreath(step(es[i], inDirt[i], f, i).1.value, fr)
  }

  /** A fold whose updates let only Fygars breathe adds at most one breath per Fygar. */
  lemma {:induction false} FoldBreathCount(step: Update, es: seq<Enemy>, inDirt: seq<bool>, fires: seq<Fire>, fr: Frame, n: nat)
    requires n <= |es| && Applies(step, es, inDirt) && FygarBreathsNew(step, es, inDirt, fr)
    ensures |Fold(step, es, inDirt, fires, n).1| <= FygarsIn(es, n)
  {
    if n > 0 {
      FoldBreathCount(step, es, inDirt, fires, fr, n - 1);
      FoldNext(step, es, inDirt, fires, n - 1);
    }
  }

  /** The k-th breath such a fold adds is new in frame fr. */
  lemma {:induction false} FoldBreathAt(step: Update, es: seq<Enemy>, inDirt: seq<bool>, fires: seq<Fire>, fr: Frame, n: nat, k: nat)
    requires n <= |es| && Applies(step, es, inDirt) && FygarBreathsNew(step, es, inDirt, fr)
    requires k < |Fold(step, es, inDirt, fires, n).1|
    ensures NewBreath(Fold(step, es, inDirt, fires, n).1[k], fr)
  {
    var prev := Fold(step, es, inDirt, fires, n - 1);
    var s := step(es[n - 1], inDirt[n - 1], fires + prev.1, n - 1);
    FoldNext(step, es, inDirt, fires, n - 1);
    if k < |prev.1| {
      FoldBreathAt(step, es, inDirt, fires, fr, n - 1, k);
      assert Added(prev.1, s.1)[k] == prev.1[k];
    } else {
      assert Added(prev.1, s.1)[k] == s.1.value;
    }
  }

  /** EnemyStep in frame fr with the draws given, as an update. */
  function StepIn(fr: Frame, draws: Draws): Update {
    (e: Enemy, inDirt: bool, fires: seq<Fire>, i: nat) requires EnemyPlaced(e) => EnemyStep(e, inDirt, fires, fr, draws, i)
  }

  lemma StepInApplies(fr: Frame, draws: Draws, es: seq<Enemy>, inDirt: seq<bool>)
    requires |inDirt| == |es| && AllPlaced(es)
    ensures Applies(StepIn(fr, draws), es, inDirt)
  {
  }

  /** updateEnemies over the first n enemies in frame fr: the fold of EnemyStep. */
  function TickAll(es: seq<Enemy>, inDirt: seq<bool>, fires: seq<Fire>, fr: Frame, draws: Draws, n: nat)
    : (r: (seq<Enemy>, seq<Fire>))
    requires n <= |es| && |inDirt| == |es| && AllPlaced(es)
    ensures |r.0| == n
  {
    StepInApplies(fr, draws, es, inDirt);
    Fold(StepIn(fr, draws), es, inDirt, fires, n)
  }

  /** One more step of updateEnemies: the next enemy is updated seeing the breaths added so far. */
  lemma TickAllNext(es: seq<Enemy>, inDirt: seq<bool>, fires: seq<Fire>, fr: Frame, draws: Draws, n: nat)
    requires n < |es| && |inDirt| == |es| && AllPlaced(es)
    ensures var prev := TickAll(es, inDirt, fires, fr, draws, n);
            var step := EnemyStep(es[n], inDirt[n], fires + prev.1, fr, draws, n);
            TickAll(es, inDirt, fires, fr, draws, n + 1) == (prev.0 + [step.0], Added(prev.1, step.1))
  {
    StepInApplies(fr, draws, es, inDirt);
    FoldNext(StepIn(fr, draws), es, inDirt, fires, n);
  }

  /** The j-th enemy after updateEnemies is the j-th enemy's own update, seeing the breaths
      that the enemies before it added. */
  lemma TickAllElement(es: seq<Enemy>, inDirt: seq<bool>, fires: seq<Fire>, fr: Frame, draws: Draws, n: nat, j: nat)
    requires n <= |es| && |inDirt| == |es| && AllPlaced(es) && j < n
    ensures TickAll(es, inDirt, fires, fr, draws, n).0[j]
            == EnemyStep(es[j], inDirt[j], fires + TickAll(es, inDirt, fires, fr, draws, j).1, fr, draws, j).0
  {
    StepInApplies(fr, draws, es, inDirt);
    FoldElement(StepIn(fr, draws), es, inDirt, fires, n, j);
  }

  /** The breaths added by the first m enemies are a prefix of those the first n add. */
  lemma TickAllBreathsGrow(es: seq<Enemy>, inDirt: seq<bool>, fires: seq<Fire>, fr: Frame, draws: Draws, m: nat, n: nat)
    requires m <= n <= |es| && |inDirt| == |es| && AllPlaced(es)
    ensures TickAll(es, inDirt, fires, fr, draws, m).1 <= TickAll(es, inDirt, fires, fr, draws, n).1
  {
    StepInApplies(fr, draws, es, inDirt);
    FoldBreathsGrow(StepIn(fr, draws), es, inDirt, fires, m, n);
  }

  /** What updateEnemies keeps of an enemy: its placement, its identity, and the dirt flag
      of the cell it stood on. */
  predicate Kept(a: Enemy, e: Enemy, inDirt: bool) {
    EnemyPlaced(a) && SameIdentity(a, e) && a.isInDirt == inDirt
  }

  /** updateEnemies keeps every enemy's identity and placement, and each enemy records the
      dirt flag of the cell it stood on. */
  lemma TickAllKeepsEnemies(es: seq<Enemy>, inDirt: seq<bool>, fires: seq<Fire>, fr: Frame, draws: Draws, n: nat)
    requires n <= |es| && |inDirt| == |es| && AllPlaced(es)
    ensures var r := TickAll(es, inDirt, fires, fr, draws, n).0;
            AllPlaced(r) && forall i :: 0 <= i < n ==> SameIdentity(r[i], es[i]) && r[i].isInDirt == inDirt[i]
  {
    forall j | 0 <= j < n
      ensures Kept(TickAll(es, inDirt, fires, fr, draws, n).0[j], es[j], inDirt[j])
    {
      TickAllElement(es, inDirt, fires, fr, draws, n, j);
    }
  }

  /** updateEnemies adds at most one breath per Fygar, each created this frame on the
      player's row and pointing along it; a list of Pookas adds none. */
  lemma TickAllBreaths(es: seq<Enemy>, inDirt: seq<bool>, fires: seq<Fire>, fr: Frame, draws: Draws, n: nat)
    requires n <= |es| && |inDirt| == |es| && AllPlaced(es)
    ensures var added := TickAll(es, inDirt, fires, fr, draws, n).1;
            |added| <= FygarsIn(es, n) && forall k :: 0 <= k < |added| ==> NewBreath(added[k], fr)
  {
    var step := StepIn(fr, draws);
    StepInApplies(fr, draws, es, inDirt);
    assert FygarBreathsNew(step, es, inDirt, fr);
    FoldBreathCount(step, es, inDirt, fires, fr, n);
    forall k | 0 <= k < |Fold(step, es, inDirt, fires, n).1|
      ensures NewBreath(Fold(step, es, inDirt, fires, n).1[k], fr)
    {
      FoldBreathAt(step, es, inDirt, fires, fr, n, k);
    }
  }
}
