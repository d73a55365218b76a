/** The discrete part of updatePlayerMovement: which held direction wins, when a step
    starts, and which cell it digs. */
module Movement {
  import opened Grid
  import opened Entities

  /** The direction keys are read in this order; the first one held wins. */
  function HeldDirection(held: set<Direction>): (r: Option<Direction>)
    ensures r.None? <==> held == {}
    ensures r.Some? ==> r.value in held
    ensures r.Some? && r.value != Up ==> Up !in held
    ensures r.Some? && r.value in {Left, Right} ==> Down !in held
    ensures r == Some(Right) ==> Left !in held
  {
    if Up in held then Some(Up)
    else if Down in held then Some(Down)
    else if Left in held then Some(Left)
    else if Right in held then Some(Right)
    else
      NoDirectionHeld(held);
      None
  }

  /** A set holding none of the four directions is empty. */
  lemma NoDirectionHeld(held: set<Direction>)
    requires Up !in held && Down !in held && Left !in held && Right !in held
    ensures held == {}
  {
    forall d | d in held ensures false {
      match d
      case Up =>
      case Down =>
      case Left =>
      case Right =>
    }
  }

  /** The player's state after updatePlayerMovement: a moving player that arrives snaps to
      its target; a player then standing still turns to the held direction and, when the
      neighbour that way is on the grid, sets off toward it. */
  function PlayerMoveResult(p: Player, held: set<Direction>, arrived: bool): (r: Player)
    requires PlayerPlaced(p)
    ensures PlayerPlaced(r)
    ensures p.isMoving && !arrived ==> r == p
    ensures (!p.isMoving || arrived) ==>
              && r.x == p.targetX && r.y == p.targetY
              && match HeldDirection(held)
                 case None => !r.isMoving && r.direction == p.direction
                 case Some(d) =>
                   && r.direction == d
                   && (r.isMoving <==> InBounds(r.x + DeltaX(d), r.y + DeltaY(d)))
                   && (r.isMoving ==> r.targetX == r.x + DeltaX(d) && r.targetY == r.y + DeltaY(d))
  {
    var here :=
      if p.isMoving && arrived
      then p.(renderX := p.targetX as real, renderY := p.targetY as real, x := p.targetX, y := p.targetY, isMoving := false)
      else p;
    if here.isMoving then here
    else
      match HeldDirection(held)
      case None => here
      case Some(d) =>
        var newX := here.x + DeltaX(d);
        var newY := here.y + DeltaY(d);
        var turned := here.(direction := d);
        if InBounds(newX, newY) then turned.(targetX := newX, targetY := newY, isMoving := true)
        else turned
  }

  /** The cell updatePlayerMovement digs: the target of a step that starts this frame. */
  function DugCell(p: Player, held: set<Direction>, arrived: bool): (c: Option<(int, int)>)
    requires PlayerPlaced(p)
    ensures c.Some? <==> (!p.isMoving || arrived) && PlayerMoveResult(p, held, arrived).isMoving
    ensures c.Some? ==> InBounds(c.value.0, c.value.1)
                        && c.value == (PlayerMoveResult(p, held, arrived).targetX, PlayerMoveResult(p, held, arrived).targetY)
  {
    var r := PlayerMoveResult(p, held, arrived);
    if (!p.isMoving || arrived) && r.isMoving then Some((r.targetX, r.targetY)) else None
  }
}
