/** The shared game object of game.js: the dirt grid changed in place, the player, the
    enemies and the breaths, lives, and the round-pause / game-over state machine, with the
    operations that change them. */
module Simulation {
  import opened Grid
  import opened Entities
  import opened Pathing
  import opened Hazards
  import opened Enemies
  import opened Spawning
  import opened Movement

  /** Seconds of the pause at the start of every round. */
  const PAUSE_DURATION: real := 2.0
  /** Lives at the start of a game. */
  const START_LIVES: int := 3

  /** The search of checkEnemyCollision: whether some enemy stands on the player's cell. */
  method FindEnemyHit(enemies: seq<Enemy>, px: int, py: int) returns (hit: bool)
    ensures hit <==> exists i :: 0 <= i < |enemies| && enemies[i].x == px && enemies[i].y == py
  {
    var i := 0;
    while i < |enemies|
      invariant 0 <= i <= |enemies|
      invariant forall j :: 0 <= j < i ==> !(enemies[j].x == px && enemies[j].y == py)
    {
      if enemies[i].x == px && enemies[i].y == py {
        return true;
      }
      i := i + 1;
    }
    return false;
  }

  /** triggerFygarFire for enemy e at `now` seconds, with the player on (px, py), `inDirt`
      the dirt flag of the enemy's cell and `draw` its Math.random value: the enemy after
      the call and the breath pushed onto game.fires, if any. */
  method TriggerFygarFire(e: Enemy, inDirt: bool, px: int, py: int, now: real, draw: Unit)
    returns (r: Enemy, breath: Option<Fire>)
    ensures (r, breath) == TriggerResult(e, inDirt, px, py, now, draw)
  {
    r, breath := e, None;
    if e.kind != Fygar {
      return;
    }
    if inDirt {
      return;
    }
    if now - e.lastFireTime < COOLDOWN {
      return;
    }
    var horizontalDistance := Abs(e.x - px);
    var verticalDistance := Abs(e.y - py);
    if horizontalDistance > DISTANCE_CHECK || verticalDistance != 0 {
      return;
    }
    var isFacingPlayer := (e.direction == Left && e.x > px) || (e.direction == Right && e.x < px);
    if !isFacingPlayer {
      return;
    }
    if draw > PROBABILITY {
      return;
    }
    breath := Some(Fire(e.x, e.y, e.direction, now, TOTAL_DURATION));
    r := e.(lastFireTime := now);
  }

  /** moveEnemy for enemy e with the player on (px, py): `arrived` says whether its
      interpolation reaches its target this frame, `draw` is calculateEnemyPath's
      Math.random value. */
  method MoveEnemy(e: Enemy, px: int, py: int, arrived: bool, draw: Unit) returns (r: Enemy)
    requires EnemyPlaced(e)
    ensures r == MoveResult(e, px, py, arrived, draw)
  {
    r := e;
    if r.isFiring {
      return;
    }
    if r.isMoving {
      if arrived {
        r := r.(renderX := r.targetX as real, renderY := r.targetY as real,
                x := r.targetX, y := r.targetY, isMoving := false);
      }
    }
    if !r.isMoving {
      var newDirection := CalculateEnemyPath(r.x, r.y, px, py, draw);
      var newX := r.x + DeltaX(newDirection);
      var newY := r.y + DeltaY(newDirection);
      if InBounds(newX, newY) {
        r := r.(direction := newDirection, targetX := newX, targetY := newY, isMoving := true);
      } else {
        r := r.(direction := newDirection);
      }
    }
  }

  /** The body of updateEnemies' forEach for enemy e at place i in the list: it computes
      EnemyStep. */
  method UpdateEnemy(e: Enemy, inDirt: bool, fires: seq<Fire>, fr: Frame, draws: Draws, i: nat)
    returns (r: Enemy, breath: Option<Fire>)
    requires EnemyPlaced(e)
    ensures (r, breath) == EnemyStep(e, inDirt, fires, fr, draws, i)
  {
    ghost var armed := Armed(Aged(e, inDirt, fr.dt), fires, fr.now, draws.fire(i), fr.px, fr.py);
    var enemy := e.(aliveTime := e.aliveTime + fr.dt);
    enemy := enemy.(isInDirt := inDirt);
    assert enemy == Aged(e, inDirt, fr.dt);
    breath := None;
    if enemy.kind == Fygar {
      var activeFire := FireAt(fires, enemy.x, enemy.y);
      if activeFire.Some? {
        var fireAge := fr.now - activeFire.value.createdTime;
        enemy := enemy.(isFiring := fireAge < TOTAL_DURATION);
      } else {
        enemy := enemy.(isFiring := false);
      }
      if !enemy.isFiring {
        enemy, breath := TriggerFygarFire(enemy, inDirt, fr.px, fr.py, fr.now, draws.fire(i));
      }
    }
    assert enemy == armed.0 && breath == armed.1;
    r := MoveEnemy(enemy, fr.px, fr.py, draws.arrived(i), draws.path(i));
  }

  /** The forEach loop of updateEnemies over the enemies es, in frame fr, with inDirt the
      dirt flag of each enemy's cell: every enemy in list order ages, records its flag, (a
      Fygar) refreshes its firing state and perhaps breathes, then moves, each enemy seeing
      the breaths pushed before it — the fold TickAll. Returns the updated enemies and the
      pushed breaths. */
  method EnemyPass(es: seq<Enemy>, inDirt: seq<bool>, fires: seq<Fire>, fr: Frame, draws: Draws)
    returns (updated: seq<Enemy>, added: seq<Fire>)
    requires |inDirt| == |es| && AllPlaced(es)
    ensures (updated, added) == TickAll(es, inDirt, fires, fr, draws, |es|)
  {
    updated, added := [], [];
    var i := 0;
    while i < |es|
      invariant i <= |es|
      invariant (updated, added) == TickAll(es, inDirt, fires, fr, draws, i)
    {
      TickAllNext(es, inDirt, fires, fr, draws, i);
      var enemy, breath := UpdateEnemy(es[i], inDirt[i], fires + added, fr, draws, i);
      updated := updated + [enemy];
      added := Added(added, breath);
      i := i + 1;
    }
  }

  /** The line spawnEnemies digs for an enemy: a Pooka's tunnel runs along its spawn row,
      a Fygar's along its spawn column. */
  predicate OnTunnel(e: Enemy, x: int, y: int) {
    if e.kind == Pooka then y == e.spawnY else x == e.spawnX
  }

  /** Some enemy of the list has its tunnel line through the cell. */
  predicate OnSomeTunnel(es: seq<Enemy>, x: int, y: int) {
    |es| > 0 && (OnSomeTunnel(es[..|es| - 1], x, y) || OnTunnel(es[|es| - 1], x, y))
  }

  /** OnSomeTunnel holds exactly when some enemy of the list has its tunnel line through
      the cell. */
  lemma {:induction false} OnSomeTunnelIff(es: seq<Enemy>, x: int, y: int)
    ensures OnSomeTunnel(es, x, y) <==> exists j :: 0 <= j < |es| && OnTunnel(es[j], x, y)
  {
    if |es| > 0 {
      var init := es[..|es| - 1];
      OnSomeTunnelIff(init, x, y);
      if OnSomeTunnel(init, x, y) {
        var j :| 0 <= j < |init| && OnTunnel(init[j], x, y);
        assert es[j] == init[j];
      }
      if exists j :: 0 <= j < |es| && OnTunnel(es[j], x, y) {
        var j :| 0 <= j < |es| && OnTunnel(es[j], x, y);
        if j < |init| {
          assert init[j] == es[j];
        }
      }
    }
  }

  class Game {
    /** game.dirt[y][x]: true while the cell still holds dirt. */
    const dirt: array2<bool>
    var player: Player
    var enemies: seq<Enemy>
    var fires: seq<Fire>
    var level: nat
    var lives: int
    var score: int
    var gameState: GameState
    var roundPaused: bool
    var pauseTimer: real
    /** Timestamp of the last frame, in milliseconds. */
    var lastTime: real

    /** Every entity stands on the grid with a target at most one step away, every breath
        points along a row, and a game in play has a life left. */
    ghost predicate Valid()
      reads this
    {
      && dirt.Length0 == GRID_HEIGHT && dirt.Length1 == GRID_WIDTH
      && PlayerPlaced(player)
      && AllPlaced(enemies)
      && (forall i :: 0 <= i < |fires| ==> FireWellFormed(fires[i]))
      && (gameState == Playing ==> 1 <= lives)
    }

    /** The source's guarded read of game.dirt: false off the grid. */
    predicate HasDirt(x: int, y: int)
      requires dirt.Length0 == GRID_HEIGHT && dirt.Length1 == GRID_WIDTH
      reads dirt
    {
      InBounds(x, y) && dirt[y, x]
    }

    /** The dirt flag under each enemy, in list order. */
    function DirtUnder(es: seq<Enemy>): (flags: seq<bool>)
      requires dirt.Length0 == GRID_HEIGHT && dirt.Length1 == GRID_WIDTH
      reads dirt
      ensures |flags| == |es|
      ensures forall i :: 0 <= i < |es| ==> flags[i] == HasDirt(es[i].x, es[i].y)
    {
      if es == [] then [] else DirtUnder(es[..|es| - 1]) + [HasDirt(es[|es| - 1].x, es[|es| - 1].y)]
    }

    /** Grid cells outside `cells` hold what they held before. */
    twostate predicate DirtKeptExcept(cells: set<(int, int)>)
      reads this, dirt
    {
      forall y, x :: 0 <= y < dirt.Length0 && 0 <= x < dirt.Length1 && (x, y) !in cells ==>
        dirt[y, x] == old(dirt[y, x])
    }

    /** The round and score bookkeeping is as before. */
    twostate predicate CountersKept()
      reads this
    {
      && level == old(level) && lives == old(lives) && score == old(score)
      && gameState == old(gameState) && roundPaused == old(roundPaused)
      && pauseTimer == old(pauseTimer) && lastTime == old(lastTime)
    }

    /** The enemies of a freshly spawned level: its Pookas then its Fygars, with ids 0, 1, ...
        in order, each at rest on a spawn cell of its own, none on the player's cell, each
        standing in dug ground. */
    predicate Spawned(lvl: nat)
      reads this, dirt
    {
      && dirt.Length0 == GRID_HEIGHT && dirt.Length1 == GRID_WIDTH
      && |enemies| == PookaCount(lvl) + FygarCount(lvl)
      && (forall i :: 0 <= i < |enemies| ==>
            enemies[i] == CreateEnemy(i, if i < PookaCount(lvl) then Pooka else Fygar, enemies[i].spawnX, enemies[i].spawnY))
      && (forall i :: 0 <= i < |enemies| ==> !HasDirt(enemies[i].spawnX, enemies[i].spawnY))
      && (forall i :: 0 <= i < |enemies| ==> (enemies[i].spawnX, enemies[i].spawnY) != (player.x, player.y))
      && (forall i, j :: 0 <= i < j < |enemies| ==>
            (enemies[i].spawnX, enemies[i].spawnY) != (enemies[j].spawnX, enemies[j].spawnY))
    }

    /** The grid of a new game: dirt everywhere except the start cell and the lines the
        enemies' tunnels run along. */
    predicate DirtOutsideTunnels()
      reads this, dirt
    {
      && dirt.Length0 == GRID_HEIGHT && dirt.Length1 == GRID_WIDTH
      && forall y, x ::
           (0 <= y < GRID_HEIGHT && 0 <= x < GRID_WIDTH && (x, y) != (START_X, START_Y)
            && !OnSomeTunnel(enemies, x, y))
           ==> dirt[y, x]
    }

    /** The outcome of restartGame: a new game at level 1 with three lives, no score and a
        fresh round pause, the player at the start on a dug cell, the level-1 enemies
        spawned, and the breaths and the timestamp as before. */
    twostate predicate Restarted()
      reads this, dirt
    {
      && Spawned(1) && DirtOutsideTunnels()
      && lives == START_LIVES && score == 0 && level == 1
      && gameState == Playing && roundPaused && pauseTimer == 0.0 && lastTime == old(lastTime)
      && player == StartPlayer() && !HasDirt(START_X, START_Y) && fires == old(fires)
    }

    /** The outcome of loseLife: one life fewer; then either game over with nothing else
        changed, or player and enemies back at their starts, the start cell dug, and a new
        round pause. */
    twostate predicate LostLife()
      reads this, dirt
    {
      && lives == old(lives) - 1
      && level == old(level) && score == old(score) && lastTime == old(lastTime)
      && fires == old(fires)
      && if lives <= 0 then
           && gameState == GameOver
           && player == old(player) && enemies == old(enemies)
           && roundPaused == old(roundPaused) && pauseTimer == old(pauseTimer)
           && DirtKeptExcept({})
         else
           && gameState == old(gameState)
           && player == StartPlayer()
           && |enemies| == |old(enemies)|
           && (forall i :: 0 <= i < |enemies| ==> enemies[i] == ResetToSpawn(old(enemies[i])))
           && roundPaused && pauseTimer == 0.0
           && 0 <= START_Y < dirt.Length0 && 0 <= START_X < dirt.Length1 && !dirt[START_Y, START_X]
           && DirtKeptExcept({(START_X, START_Y)})
    }

    /** The `game` object as declared, with the grid set up as init does it: all dirt but
        the start cell, then the level's enemies spawned. */
    constructor (startTime: real, rand: nat -> Unit)
      ensures Valid() && fresh(dirt)
      ensures player == StartPlayer() && fires == []
      ensures level == 1 && lives == START_LIVES && score == 0
      ensures gameState == Playing && roundPaused && pauseTimer == 0.0 && lastTime == startTime
      ensures !dirt[START_Y, START_X] && Spawned(1) && DirtOutsideTunnels()
    {
      dirt := new bool[GRID_HEIGHT, GRID_WIDTH];
      player := StartPlayer();
      enemies := [];
      fires := [];
      level := 1;
      lives := START_LIVES;
      score := 0;
      gameState := Playing;
      roundPaused := true;
      pauseTimer := 0.0;
      lastTime := startTime;
      new;
      FillDirt();
      dirt[START_Y, START_X] := false;
      SpawnEnemies(level, rand);

    }

    /** Sets every grid cell to dirt (the nested loops of restartGame and init). */
    method FillDirt()
      requires Valid()
      modifies dirt
      ensures forall y, x :: 0 <= y < GRID_HEIGHT && 0 <= x < GRID_WIDTH ==> dirt[y, x]
    {
      var y := 0;
      while y < GRID_HEIGHT
        invariant 0 <= y <= GRID_HEIGHT
        invariant forall cy, cx :: 0 <= cy < y && 0 <= cx < GRID_WIDTH ==> dirt[cy, cx]
      {
        var x := 0;
        while x < GRID_WIDTH
          invariant 0 <= x <= GRID_WIDTH
          invariant forall cy, cx :: 0 <= cy < y && 0 <= cx < GRID_WIDTH ==> dirt[cy, cx]
          invariant forall cx :: 0 <= cx < x ==> dirt[y, cx]
        {
          dirt[y, x] := true;
          x := x + 1;
        }
        y := y + 1;
      }
    }

    /** clearHorizontalTunnel: digs exactly the cells of row y within the clipped span, and
        only when the row is on the grid. */
    method ClearHorizontalTunnel(x: int, y: int, length: int)
      requires dirt.Length0 == GRID_HEIGHT && dirt.Length1 == GRID_WIDTH
      modifies dirt
      ensures var (startX, endX) := TunnelSpan(x, length, GRID_WIDTH);
              forall cy, cx :: 0 <= cy < GRID_HEIGHT && 0 <= cx < GRID_WIDTH ==>
                dirt[cy, cx] == if InBounds(cx, y) && cy == y && startX <= cx <= endX then false else old(dirt[cy, cx])
    {
      var (startX, endX) := TunnelSpan(x, length, GRID_WIDTH);
      var clearX := startX;
      while clearX <= endX
        invariant clearX == startX || startX <= clearX <= endX + 1
        invariant forall cy, cx :: 0 <= cy < GRID_HEIGHT && 0 <= cx < GRID_WIDTH ==>
                    dirt[cy, cx] == if InBounds(cx, y) && cy == y && startX <= cx < clearX then false else old(dirt[cy, cx])
      {
        if y >= 0 && y < GRID_HEIGHT {
          dirt[y, clearX] := false;
        }
        clearX := clearX + 1;
      }
    }

    /** clearVerticalTunnel: digs exactly the cells of column x within the clipped span,
        and only when the column is on the grid. */
    method ClearVerticalTunnel(x: int, y: int, length: int)
      requires dirt.Length0 == GRID_HEIGHT && dirt.Length1 == GRID_WIDTH
      modifies dirt
      ensures var (startY, endY) := TunnelSpan(y, length, GRID_HEIGHT);
              forall cy, cx :: 0 <= cy < GRID_HEIGHT && 0 <= cx < GRID_WIDTH ==>
                dirt[cy, cx] == if InBounds(x, cy) && cx == x && startY <= cy <= endY then false else old(dirt[cy, cx])
    {
      var (startY, endY) := TunnelSpan(y, length, GRID_HEIGHT);
      var clearY := startY;
      while clearY <= endY
        invariant clearY == startY || startY <= clearY <= endY + 1
        invariant forall cy, cx :: 0 <= cy < GRID_HEIGHT && 0 <= cx < GRID_WIDTH ==>
                    dirt[cy, cx] == if InBounds(x, cy) && cx == x && startY <= cy < clearY then false else old(dirt[cy, cx])
      {
        if x >= 0 && x < GRID_WIDTH {
          dirt[clearY, x] := false;
        }
        clearY := clearY + 1;
      }
    }

    /** The tunnel spawnEnemies digs around a new enemy: along its row for a Pooka, along
        its column for a Fygar. The spawn cell is dug, every cell dug lies on the enemy's
        tunnel line, and no cell gains dirt. */
    method DigTunnel(e: Enemy, length: int)
      requires dirt.Length0 == GRID_HEIGHT && dirt.Length1 == GRID_WIDTH
      modifies dirt
      ensures 1 <= length && InBounds(e.spawnX, e.spawnY) ==> !dirt[e.spawnY, e.spawnX]
      ensures forall y, x :: 0 <= y < GRID_HEIGHT && 0 <= x < GRID_WIDTH && dirt[y, x] ==> old(dirt[y, x])
      ensures forall y, x :: 0 <= y < GRID_HEIGHT && 0 <= x < GRID_WIDTH && !dirt[y, x] && old(dirt[y, x]) ==>
                OnTunnel(e, x, y)
    {
      if e.kind == Pooka {
        ClearHorizontalTunnel(e.spawnX, e.spawnY, length);
      } else {
        ClearVerticalTunnel(e.spawnX, e.spawnY, length);
      }
    }

    /** One pass of spawnEnemies' loop: a free cell is drawn as getRandomSpawnPosition does
        it, the enemy is created there, and its tunnel is dug with a drawn length, 5 to 8
        cells for a Pooka and 4 to 7 for a Fygar. The cell was free and is now occupied and
        dug; every cell dug lies on the enemy's tunnel line. */
    method PlaceEnemy(id: nat, kind: EnemyType, occupied: set<(int, int)>, rand: nat -> Unit, k: nat)
      returns (enemy: Enemy, occupied': set<(int, int)>, k': nat)
      requires dirt.Length0 == GRID_HEIGHT && dirt.Length1 == GRID_WIDTH && |occupied| < GRID_WIDTH
      modifies dirt
      ensures enemy == CreateEnemy(id, kind, enemy.spawnX, enemy.spawnY) && InBounds(enemy.spawnX, enemy.spawnY)
      ensures (enemy.spawnX, enemy.spawnY) !in occupied && occupied' == occupied + {(enemy.spawnX, enemy.spawnY)}
      ensures !dirt[enemy.spawnY, enemy.spawnX]
      ensures forall y, x :: 0 <= y < GRID_HEIGHT && 0 <= x < GRID_WIDTH && dirt[y, x] ==> old(dirt[y, x])
      ensures forall y, x :: 0 <= y < GRID_HEIGHT && 0 <= x < GRID_WIDTH && !dirt[y, x] && old(dirt[y, x]) ==>
                OnTunnel(enemy, x, y)
    {
      FreeCellInFirstRow(occupied, GRID_WIDTH);
      var x, y;
      x, y, occupied', k' := RandomSpawnPosition(player.x, player.y, occupied, rand, k);
      enemy := CreateEnemy(id, kind, x, y);
      var tunnelLength := if kind == Pooka then 5 + RandomIndex(rand(k'), 4) else 4 + RandomIndex(rand(k'), 4);
      k' := k' + 1;
      DigTunnel(enemy, tunnelLength);
    }

    /** spawnEnemies: replaces the enemies by the level's Pookas followed by its Fygars,
        with ids 0, 1, ... in order, each created at rest on a cell of its own other than the
        player's cell, each standing in a freshly dug tunnel. Dirt is only ever dug. */
    method SpawnEnemies(lvl: nat, rand: nat -> Unit)
      requires Valid()
      modifies this, dirt
      ensures Valid()
      ensures |enemies| == PookaCount(lvl) + FygarCount(lvl)
      ensures forall i :: 0 <= i < |enemies| ==>
                enemies[i] == CreateEnemy(i, if i < PookaCount(lvl) then Pooka else Fygar, enemies[i].spawnX, enemies[i].spawnY)
      ensures forall i :: 0 <= i < |enemies| ==> !dirt[enemies[i].spawnY, enemies[i].spawnX]
      ensures forall i :: 0 <= i < |enemies| ==> (enemies[i].spawnX, enemies[i].spawnY) != (player.x, player.y)
      ensures forall i, j :: 0 <= i < j < |enemies| ==>
                (enemies[i].spawnX, enemies[i].spawnY) != (enemies[j].spawnX, enemies[j].spawnY)
      ensures forall y, x :: 0 <= y < GRID_HEIGHT && 0 <= x < GRID_WIDTH && dirt[y, x] ==> old(dirt[y, x])
      ensures forall y, x :: 0 <= y < GRID_HEIGHT && 0 <= x < GRID_WIDTH && !dirt[y, x] && old(dirt[y, x]) ==>
                OnSomeTunnel(enemies, x, y)
      ensures player == old(player) && fires == old(fires) && CountersKept()
    {
      var spawned: seq<Enemy> := [];
      var enemyId := 0;
      var pookaCount := PookaCount(lvl);
      var fygarCount := FygarCount(lvl);
      var occupied := {(player.x, player.y)};
      var k := 0;

      var i := 0;
      while i < pookaCount + fygarCount
        invariant 0 <= i <= pookaCount + fygarCount && enemyId == i && |spawned| == i
        invariant dirt.Length0 == GRID_HEIGHT && dirt.Length1 == GRID_WIDTH
        invariant player == old(player) && enemies == old(enemies) && fires == old(fires) && CountersKept()
        invariant |occupied| <= 1 + i && (player.x, player.y) in occupied
        invariant forall j :: 0 <= j < i ==>
                    && spawned[j] == CreateEnemy(j, if j < pookaCount then Pooka else Fygar, spawned[j].spawnX, spawned[j].spawnY)
                    && InBounds(spawned[j].spawnX, spawned[j].spawnY)
                    && (spawned[j].spawnX, spawned[j].spawnY) in occupied
                    && (spawned[j].spawnX, spawned[j].spawnY) != (player.x, player.y)
        invariant forall j :: 0 <= j < i ==> !dirt[spawned[j].spawnY, spawned[j].spawnX]
        invariant forall j, j' :: 0 <= j < j' < i ==>
                    (spawned[j].spawnX, spawned[j].spawnY) != (spawned[j'].spawnX, spawned[j'].spawnY)
        invariant forall y, x :: 0 <= y < GRID_HEIGHT && 0 <= x < GRID_WIDTH && dirt[y, x] ==> old(dirt[y, x])
        invariant forall y, x :: 0 <= y < GRID_HEIGHT && 0 <= x < GRID_WIDTH && !dirt[y, x] && old(dirt[y, x]) ==>
                    OnSomeTunnel(spawned, x, y)
      {
        var kind := if i < pookaCount then Pooka else Fygar;
        ghost var before := spawned;
        var enemy;
        enemy, occupied, k := PlaceEnemy(enemyId, kind, occupied, rand, k);
        enemyId := enemyId + 1;
        spawned := spawned + [enemy];
        assert spawned[..i] == before;
        i := i + 1;
      }
      enemies := spawned;
    }

    /** loseLife. */
    method LoseLife()
      requires Valid()
      modifies this, dirt
      ensures Valid() && LostLife() && SameIdentities(old(enemies), enemies)
    {
      lives := lives - 1;
      if lives <= 0 {
        gameState := GameOver;
        return;
      }
      player := StartPlayer();
      dirt[player.y, player.x] := false;
      var reset := enemies;
      var i := 0;
      while i < |reset|
        invariant 0 <= i <= |reset| == |enemies|
        invariant forall j :: 0 <= j < i ==> reset[j] == ResetToSpawn(enemies[j])
        invariant forall j :: i <= j < |reset| ==> reset[j] == enemies[j]
      {
        reset := reset[i := ResetToSpawn(reset[i])];
        i := i + 1;
      }
      enemies := reset;
      roundPaused := true;
      pauseTimer := 0.0;
    }

    /** restartGame: a new game at level 1 — lives, score and pause reset, the player at the
        start, the grid all dirt except the start cell and the new enemies' tunnels. The
        breaths of the previous game are kept. */
    method RestartGame(rand: nat -> Unit)
      requires Valid()
      modifies this, dirt
      ensures Valid() && Restarted()
    {
      lives := START_LIVES;
      score := 0;
      level := 1;
      gameState := Playing;
      roundPaused := true;
      pauseTimer := 0.0;
      player := StartPlayer();
      FillDirt();
      dirt[player.y, player.x] := false;
      SpawnEnemies(level, rand);

    }

    /** The restart key: honoured only in the game-over state. */
    method RequestRestart(rand: nat -> Unit)
      requires Valid()
      modifies this, dirt
      ensures Valid()
      ensures old(gameState) == GameOver ==> Restarted()
      ensures old(gameState) != GameOver ==>
                CountersKept() && player == old(player) && enemies == old(enemies) && fires == old(fires) && DirtKeptExcept({})
    {
      if gameState == GameOver {
        RestartGame(rand);
      }
    }

    /** updateEnemies at the current time: the enemy list becomes EnemyPass's result and
        its breaths are appended to the fires. Every enemy keeps its identity. */
    method UpdateEnemies(dt: real, draws: Draws)
      requires Valid()
      modifies this
      ensures Valid()
      ensures var r := old(TickAll(enemies, DirtUnder(enemies), fires, Frame(player.x, player.y, lastTime / 1000.0, dt),
                                   draws, |enemies|));
              enemies == r.0 && fires == old(fires) + r.1
      ensures SameIdentities(old(enemies), enemies)
      ensures player == old(player) && CountersKept()
    {
      var fr := Frame(player.x, player.y, lastTime / 1000.0, dt);
      var flags := DirtUnder(enemies);
      var updated, added := EnemyPass(enemies, flags, fires, fr, draws);
      TickAllKeepsEnemies(enemies, flags, fires, fr, draws, |enemies|);
      TickAllBreaths(enemies, flags, fires, fr, draws, |enemies|);
      enemies := updated;
      fires := fires + added;
    }

    /** updateFires: keeps the breaths younger than their duration, in order. */
    method UpdateFires()
      requires Valid()
      modifies this
      ensures Valid()
      ensures fires == old(LiveFires(fires, lastTime / 1000.0))
      ensures player == old(player) && enemies == old(enemies) && CountersKept()
    {
      var currentTime := lastTime / 1000.0;
      var live := LiveFires(fires, currentTime);
      assert forall k :: 0 <= k < |live| ==> live[k] in fires;
      fires := live;
    }

    /** checkEnemyCollision: outside the round pause, a life is lost (once) when some
        enemy stands on the player's cell; otherwise nothing changes. */
    method CheckEnemyCollision()
      requires Valid()
      modifies this, dirt
      ensures Valid()
      ensures if !old(roundPaused) && exists i :: 0 <= i < |old(enemies)| && old(enemies[i]).x == old(player).x && old(enemies[i]).y == old(player).y
              then LostLife()
              else CountersKept() && player == old(player) && enemies == old(enemies) && fires == old(fires) && DirtKeptExcept({})
      ensures SameIdentities(old(enemies), enemies)
    {
      if roundPaused {
        return;
      }
      var hit := FindEnemyHit(enemies, player.x, player.y);
      if hit {
        LoseLife();
      }
    }

    /** checkFireCollision: outside the round pause, a life is lost (once) when some breath
        covers the player's cell; otherwise nothing changes. */
    method CheckFireCollision()
      requires Valid()
      modifies this, dirt
      ensures Valid()
      ensures if !old(roundPaused) && exists i :: 0 <= i < |old(fires)| && Scorches(old(fires[i]), old(lastTime) / 1000.0, old(player).x, old(player).y)
              then LostLife()
              else CountersKept() && player == old(player) && enemies == old(enemies) && fires == old(fires) && DirtKeptExcept({})
      ensures SameIdentities(old(enemies), enemies)
    {
      if roundPaused {
        return;
      }
      var currentTime := lastTime / 1000.0;
      var hit := FindFireHit(fires, currentTime, player.x, player.y);
      if hit {
        LoseLife();
      }
    }

    /** updatePlayerMovement with the set of held direction keys and whether the player's
        interpolation reaches its target this frame: the player follows PlayerMoveResult
        and the target of a step that starts is dug; no other cell changes. */
    method UpdatePlayerMovement(held: set<Direction>, arrived: bool)
      requires Valid()
      modifies this, dirt
      ensures Valid()
      ensures player == PlayerMoveResult(old(player), held, arrived)
      ensures match DugCell(old(player), held, arrived)
              case None => DirtKeptExcept({})
              case Some(c) => !dirt[c.1, c.0] && DirtKeptExcept({c})
      ensures enemies == old(enemies) && fires == old(fires) && CountersKept()
    {
      if player.isMoving {
        if arrived {
          player := player.(renderX := player.targetX as real, renderY := player.targetY as real,
                            x := player.targetX, y := player.targetY, isMoving := false);
        }
      }
      if !player.isMoving {
        var newX := player.x;
        var newY := player.y;
        var newDirection := player.direction;
        var hasInput := false;
        match HeldDirection(held) {
          case Some(d) =>
            newX, newY := newX + DeltaX(d), newY + DeltaY(d);
            newDirection := d;
            hasInput := true;
          case None =>
        }
        if hasInput {
          player := player.(direction := newDirection);
          if InBounds(newX, newY) {
            player := player.(targetX := newX, targetY := newY, isMoving := true);
            dirt[newY, newX] := false;
          }
        }
      }
    }

    /** The frame of gameLoop outside the round pause, `deltaTime` seconds after the last:
        player movement, enemies, breaths, then the two collision checks. Every enemy keeps
        its identity. A frame costs at most one life, except that the enemy check may end the
        game on the last life without pausing the round, and the breath check then takes
        another: lives reach -1. */
    method PlayFrame(deltaTime: real, held: set<Direction>, playerArrives: bool, draws: Draws)
      requires Valid() && gameState == Playing && !roundPaused
      modifies this, dirt
      ensures Valid()
      ensures level == old(level) && score == old(score) && lastTime == old(lastTime)
      ensures SameIdentities(old(enemies), enemies)
      ensures lives == old(lives) || lives == old(lives) - 1 || (old(lives) == 1 && lives == -1)
      ensures lives < old(lives) ==> gameState == GameOver || roundPaused
    {
      ghost var es0 := enemies;
      UpdatePlayerMovement(held, playerArrives);
      UpdateEnemies(deltaTime, draws);
      ghost var es1 := enemies;
      UpdateFires();
      CheckEnemyCollision();
      SameIdentitiesTrans(es0, es1, enemies);
      ghost var es2 := enemies;
      CheckFireCollision();
      SameIdentitiesTrans(es0, es2, enemies);
    }

    /** gameLoop for one frame at `currentTime` milliseconds. Outside play nothing but the
        timestamp changes. During the round pause only the pause timer runs, and the pause
        ends once it reaches PAUSE_DURATION. Otherwise the frame is PlayFrame. */
    method GameLoop(currentTime: real, held: set<Direction>, playerArrives: bool, draws: Draws)
      requires Valid()
      modifies this, dirt
      ensures Valid() && lastTime == currentTime
      ensures old(gameState) != Playing ==>
                && player == old(player) && enemies == old(enemies) && fires == old(fires) && DirtKeptExcept({})
                && level == old(level) && lives == old(lives) && score == old(score) && gameState == old(gameState)
                && roundPaused == old(roundPaused) && pauseTimer == old(pauseTimer)
      ensures old(gameState) == Playing && old(roundPaused) ==>
                && player == old(player) && enemies == old(enemies) && fires == old(fires) && DirtKeptExcept({})
                && level == old(level) && lives == old(lives) && score == old(score) && gameState == old(gameState)
                && var timer := old(pauseTimer) + (currentTime - old(lastTime)) / 1000.0;
                   if timer >= PAUSE_DURATION then !roundPaused && pauseTimer == 0.0
                   else roundPaused && pauseTimer == timer
      ensures old(gameState) == Playing && !old(roundPaused) ==>
                && level == old(level) && score == old(score)
                && SameIdentities(old(enemies), enemies)
                && (lives == old(lives) || lives == old(lives) - 1 || (old(lives) == 1 && lives == -1))
                && (lives < old(lives) ==> gameState == GameOver || roundPaused)
    {
      var deltaTime := (currentTime - lastTime) / 1000.0;
      lastTime := currentTime;
      if gameState == Playing {
        if roundPaused {
          pauseTimer := pauseTimer + deltaTime;
          if pauseTimer >= PAUSE_DURATION {
            roundPaused := false;
            pauseTimer := 0.0;
          }
        } else {
          PlayFrame(deltaTime, held, playerArrives, draws);
        }
      }
    }
  }

  /** The two collision checks of a frame, in gameLoop's order, on the last life: an enemy
      on the player's cell ends the game without pausing the round, so a breath covering
      the same cell takes a second life and lives end at -1. */
  method DoubleLifeLoss() returns (g: Game)
    ensures g.gameState == GameOver && g.lives == -1
  {
    g := new Game(0.0, _ => 0.0);
    g.player := StartPlayer();
    g.enemies := [CreateEnemy(0, Pooka, START_X, START_Y)];
    g.fires := [Fire(START_X + 2, START_Y, Left, 1.0, TOTAL_DURATION)];
    g.lastTime := 2000.0;
    g.lives := 1;
    g.roundPaused := false;
    assert g.enemies[0].x == g.player.x && g.enemies[0].y == g.player.y;
    g.CheckEnemyCollision();
    assert FireCell(g.fires[0], 2) == (g.player.x, g.player.y);
    assert Scorches(g.fires[0], g.lastTime / 1000.0, g.player.x, g.player.y);
    g.CheckFireCollision();
  }
}
