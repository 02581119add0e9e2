// Per-tick movement of the player, the enemies and the bullets.

module Movement {
  import opened Geometry
  import opened Entities
  import opened Splice

  /** The player after one tick: moved by dx, then pushed back inside the side walls,
      left edge first, right edge second. */
  function PlayerMoved(p: Player): Player
  {
    var x := p.x + p.dx;
    var x := if x < 0.0 then 0.0 else x;
    var x := if x + PlayerWidth > CanvasWidth then CanvasWidth - PlayerWidth else x;
    p.(x := x)
  }

  /** The player always ends the tick on the field, [0, 760], at the requested spot when
      that is on the field and against the wall it ran into otherwise; nothing else changes. */
  lemma PlayerMovedOnField(p: Player)
    ensures 0.0 <= PlayerMoved(p).x <= CanvasWidth - PlayerWidth
    ensures PlayerMoved(p).x == Min(Max(p.x + p.dx, 0.0), CanvasWidth - PlayerWidth)
    ensures PlayerMoved(p).(x := p.x) == p
  {
  }

  /** A moved box is outside the side walls. */
  predicate OutsideWalls(e: Enemy)
  {
    e.x + e.width > CanvasWidth || e.x < 0.0
  }

  /** One enemy's move: x advances by speed; if the moved box crosses a side wall, the
      direction flips and the enemy drops by its own height. */
  function MoveEnemy(e: Enemy): Enemy
  {
    var moved := e.(x := e.x + e.speed);
    if OutsideWalls(moved) then moved.(speed := -moved.speed, y := moved.y + moved.height)
    else moved
  }

  /** The enemy's bottom edge is below the playfield. */
  predicate EnemyBreached(e: Enemy)
  {
    e.y + e.height > CanvasHeight
  }

  /** Moving an enemy shifts x by exactly its speed, keeps its size and the magnitude of its
      speed, reverses it exactly when the moved box is outside the walls (for a moving enemy),
      and never lifts it. */
  lemma MoveEnemyPace(e: Enemy)
    requires e.speed != 0.0
    ensures MoveEnemy(e).x == e.x + e.speed
    ensures MoveEnemy(e).width == e.width && MoveEnemy(e).height == e.height
    ensures MoveEnemy(e).speed == e.speed || MoveEnemy(e).speed == -e.speed
    ensures MoveEnemy(e).speed == -e.speed <==> OutsideWalls(e.(x := e.x + e.speed))
    ensures MoveEnemy(e).y == (if MoveEnemy(e).speed == e.speed then e.y else e.y + e.height)
  {
  }

  /** One bullet's move: straight up by its speed. */
  function MoveBullet(b: Bullet): Bullet
  {
    b.(y := b.y - b.speed)
  }

  /** The bullet's top edge has left the playfield. */
  predicate BulletGone(b: Bullet)
  {
    b.y < 0.0
  }

  /** The enemy pass: every visited enemy moves; one whose bottom passes the playfield is
      spliced out and costs a life. */
  function EnemiesMoved(s: State): State
  {
    var es := Sweep(s.enemies, MoveEnemy, EnemyBreached);
    s.(enemies := es, lives := s.lives - (|s.enemies| - |es|))
  }

  /** The bullet pass: every visited bullet moves up; one above the top is spliced out. */
  function BulletsMoved(s: State): State
  {
    s.(bullets := Sweep(s.bullets, MoveBullet, BulletGone))
  }

  /** The enemy pass costs one life per removed enemy, never more than it had enemies, and
      touches nothing but the enemies and lives. */
  lemma EnemiesMovedLives(s: State)
    ensures var r := EnemiesMoved(s);
      |r.enemies| <= |s.enemies| &&
      s.lives - r.lives == |s.enemies| - |r.enemies| &&
      r.(enemies := s.enemies, lives := s.lives) == s
  {
    SweepLength(s.enemies, MoveEnemy, EnemyBreached);
  }

  /** When every moved bullet is still on the field, all of them stay, each moved by its
      speed. */
  lemma BulletsStayWhileOnField(s: State)
    requires forall i :: 0 <= i < |s.bullets| ==> s.bullets[i].y - s.bullets[i].speed >= 0.0
    ensures |BulletsMoved(s).bullets| == |s.bullets|
    ensures forall i :: 0 <= i < |s.bullets| ==>
              BulletsMoved(s).bullets[i] == s.bullets[i].(y := s.bullets[i].y - s.bullets[i].speed)
  {
    SweepKeepsAll(s.bullets, MoveBullet, BulletGone);
  }

  /** An enemy is removed by the enemy pass only if its moved box has passed the bottom: any
      other enemy is still in the list, moved or (when its visit was skipped) as it was. */
  lemma EnemyRemovedOnlyPastBottom(s: State, j: int)
    requires 0 <= j < |s.enemies| && !EnemyBreached(MoveEnemy(s.enemies[j]))
    ensures MoveEnemy(s.enemies[j]) in EnemiesMoved(s).enemies || s.enemies[j] in EnemiesMoved(s).enemies
  {
    SweepKeepsUndropped(s.enemies, MoveEnemy, EnemyBreached, j);
  }

  /** A bullet is removed by the bullet pass only if its moved y is negative: any other bullet
      is still in the list, moved or (when its visit was skipped) as it was. */
  lemma BulletRemovedOnlyAboveTop(s: State, j: int)
    requires 0 <= j < |s.bullets| && s.bullets[j].y - s.bullets[j].speed >= 0.0
    ensures MoveBullet(s.bullets[j]) in BulletsMoved(s).bullets || s.bullets[j] in BulletsMoved(s).bullets
  {
    SweepKeepsUndropped(s.bullets, MoveBullet, BulletGone, j);
  }
}
