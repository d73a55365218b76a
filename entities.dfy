/** The records the simulation works on: enemies, the player, fire breaths, and the
    record-building helpers createEnemy and the per-enemy reset of loseLife. */
module Entities {
  import opened Grid

  datatype Option<T> = None | Some(value: T)

  datatype EnemyType = Pooka | Fygar

  /** Blocks per second in tunnels, by type. */
  const POOKA_TUNNEL_SPEED: real := 2.0
  const FYGAR_TUNNEL_SPEED: real := 1.5

  /** Where the player starts every life. */
  const START_X: int := 7
  const START_Y: int := 3

  /** An enemy. `x, y` is its logical cell, `targetX, targetY` the cell it is stepping to,
      `renderX, renderY` where it is drawn, `spawnX, spawnY` where it was created. */
  datatype Enemy = Enemy(
    id: nat,
    kind: EnemyType,
    x: int, y: int,
    renderX: real, renderY: real,
    spawnX: int, spawnY: int,
    direction: Direction,
    speed: real,
    isInDirt: bool,
    inflationStage: int,
    aliveTime: real,
    lastFireTime: real,
    isFiring: bool,
    targetX: int, targetY: int,
    isMoving: bool)

  datatype Player = Player(
    x: int, y: int,
    renderX: real, renderY: real,
    targetX: int, targetY: int,
    direction: Direction,
    isMoving: bool)

  /** A fire breath: its origin cell, the way it points, when it was created (seconds)
      and how long it lasts. */
  datatype Fire = Fire(x: int, y: int, direction: Direction, createdTime: real, duration: real)

  /** A breath as triggerFygarFire creates it: along a row, for the full duration. */
  predicate FireWellFormed(f: Fire) {
    (f.direction == Left || f.direction == Right) && f.duration == 1.5
  }

  /** The game states game.js assigns. */
  datatype GameState = Playing | GameOver

  function TunnelSpeed(kind: EnemyType): real {
    if kind == Pooka then POOKA_TUNNEL_SPEED else FYGAR_TUNNEL_SPEED
  }

  /** A logical cell, and a target that is either that cell (at rest) or one cardinal step
      away (moving), both on the grid. */
  predicate Placed(x: int, y: int, targetX: int, targetY: int, isMoving: bool) {
    && InBounds(x, y)
    && InBounds(targetX, targetY)
    && (if isMoving then Manhattan(x, y, targetX, targetY) == 1 else x == targetX && y == targetY)
  }

  predicate EnemyPlaced(e: Enemy) {
    Placed(e.x, e.y, e.targetX, e.targetY, e.isMoving) && InBounds(e.spawnX, e.spawnY)
  }

  predicate PlayerPlaced(p: Player) {
    Placed(p.x, p.y, p.targetX, p.targetY, p.isMoving)
  }

  /** The enemy stands still on its spawn cell, drawn there, facing down, with a fresh
      alive-time. */
  predicate AtSpawn(e: Enemy) {
    && e.x == e.spawnX && e.y == e.spawnY
    && e.renderX == e.spawnX as real && e.renderY == e.spawnY as real
    && e.targetX == e.spawnX && e.targetY == e.spawnY
    && e.direction == Down
    && !e.isMoving
    && e.aliveTime == 0.0
  }

  /** The fields an enemy keeps for its whole life. */
  predicate SameIdentity(a: Enemy, b: Enemy) {
    a.id == b.id && a.kind == b.kind && a.spawnX == b.spawnX && a.spawnY == b.spawnY && a.speed == b.speed
  }

  /** Two enemy lists of the same length whose members pairwise keep their identity. */
  predicate SameIdentities(a: seq<Enemy>, b: seq<Enemy>) {
    |a| == |b| && forall i :: 0 <= i < |a| ==> SameIdentity(a[i], b[i])
  }

  lemma SameIdentitiesTrans(a: seq<Enemy>, b: seq<Enemy>, c: seq<Enemy>)
    requires SameIdentities(a, b) && SameIdentities(b, c)
    ensures SameIdentities(a, c)
  {
  }

  /** createEnemy: a new enemy resting on the cell it is created at, which becomes its spawn. */
  function CreateEnemy(id: nat, kind: EnemyType, x: int, y: int): (e: Enemy)
    ensures AtSpawn(e) && e.spawnX == x && e.spawnY == y
    ensures e.id == id && e.kind == kind && e.speed == TunnelSpeed(kind)
    ensures e.isInDirt && e.inflationStage == 0 && e.lastFireTime == 0.0 && !e.isFiring
    ensures InBounds(x, y) ==> EnemyPlaced(e)
  {
    Enemy(id, kind, x, y, x as real, y as real, x, y, Down, TunnelSpeed(kind),
          true, 0, 0.0, 0.0, false, x, y, false)
  }

  /** The per-enemy body of loseLife: back to the spawn cell, facing down, alive-time zero.
      Inflation, firing, last fire time and the dirt flag are left as they were. */
  function ResetToSpawn(e: Enemy): (r: Enemy)
    ensures AtSpawn(r) && SameIdentity(r, e)
    ensures r.isInDirt == e.isInDirt && r.inflationStage == e.inflationStage
    ensures r.lastFireTime == e.lastFireTime && r.isFiring == e.isFiring
    ensures InBounds(e.spawnX, e.spawnY) ==> EnemyPlaced(r)
  {
    e.(x := e.spawnX, y := e.spawnY,
       renderX := e.spawnX as real, renderY := e.spawnY as real,
       targetX := e.spawnX, targetY := e.spawnY,
       direction := Down, isMoving := false, aliveTime := 0.0)
  }

  /** A life loss puts an enemy back exactly into the state createEnemy gave it, except for
      the four fields loseLife does not touch. */
  lemma ResetRestoresCreation(e: Enemy)
    requires e.speed == TunnelSpeed(e.kind)
    ensures ResetToSpawn(e).(isInDirt := true, inflationStage := 0, lastFireTime := 0.0, isFiring := false)
         == CreateEnemy(e.id, e.kind, e.spawnX, e.spawnY)
  {
  }

  /** The player as placed at the start of every life: on the start cell, facing down. */
  function StartPlayer(): (p: Player)
    ensures PlayerPlaced(p) && !p.isMoving && p.direction == Down
    ensures p.x == START_X && p.y == START_Y
  {
    Player(START_X, START_Y, START_X as real, START_Y as real, START_X, START_Y, Down, false)
  }
}
