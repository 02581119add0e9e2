// The game's mutable state and the operations that change it in place, each proved against
// the state functions of the Movement, Collisions and Frame modules.

module Arcade {
  import opened Geometry
  import opened Entities
  import opened Spawner
  import opened Splice
  import opened Movement
  import opened Collisions
  import opened Frame

  /** The keys the key handlers react to. */
  datatype Key = ArrowLeft | ArrowRight | Space | KeyR | OtherKey

  class Game {
    var score: int
    var lives: int
    var level: int
    var player: Player
    var enemies: seq<Enemy>
    var bullets: seq<Bullet>
    /** How many times the explosion and the level-up sounds were started. */
    var explosions: nat
    var levelUps: nat

    /** The whole state as a value. */
    function Snapshot(): State
      reads this
    {
      State(score, lives, level, player, enemies, bullets, explosions, levelUps)
    }

    /** Loading the script: start values, then the first wave. */
    constructor ()
      ensures Snapshot() == InitialState()
    {
      score, lives, level := 0, StartLives, 1;
      player := Player(PlayerStartX, 0.0, true, false);
      enemies, bullets := [], [];
      explosions, levelUps := 0, 0;
      new;
      CreateEnemies();
    }

    /** Pushes the wave for the current level, row by row, onto the enemies already there. */
    method CreateEnemies()
      modifies this`enemies
      ensures enemies == old(enemies) + Wave(level)
      ensures Snapshot() == old(Snapshot()).(enemies := enemies)
    {
      var rows := 3 + level;
      var r := 0;
      while r < rows
        invariant 0 <= r && (rows > 0 ==> r <= rows)
        invariant Cols * r <= |Wave(level)|
        invariant enemies == old(enemies) + Wave(level)[..Cols * r]
      {
        var c := 0;
        while c < Cols
          invariant 0 <= c <= Cols
          invariant Cols * r + c <= |Wave(level)|
          invariant enemies == old(enemies) + Wave(level)[..Cols * r + c]
          {
          var x := c * (EnemySize + Padding) + OffsetLeft;
          var y := r * (EnemySize + Padding) + OffsetTop;
          DivModTen(r, c);
          assert Wave(level)[Cols * r + c] == GridEnemy(level, r, c);
          assert Wave(level)[..Cols * r + c + 1] == Wave(level)[..Cols * r + c] + [GridEnemy(level, r, c)];
          enemies := enemies + [Enemy(x as real, y as real, EnemySize as real, EnemySize as real, 1.0 + level as real * 0.5)];
          c := c + 1;
        }
        r := r + 1;
      }
      assert Wave(level)[..Cols * r] == Wave(level);
    }

    /** Moves the player by dx and clamps it to the field. */
    method UpdatePlayer()
      modifies this`player
      ensures 0.0 <= player.x <= CanvasWidth - PlayerWidth
      ensures Snapshot() == old(Snapshot()).(player := PlayerMoved(old(player)))
    {
      player := player.(x := player.x + player.dx);
      if player.x < 0.0 {
        player := player.(x := 0.0);
      }
      if player.x + PlayerWidth > CanvasWidth {
        player := player.(x := CanvasWidth - PlayerWidth);
      }
    }

    /** The enemy forEach: move, bounce off a wall, splice out and lose a life past the bottom. */
    method UpdateEnemies()
      modifies this`enemies, this`lives
      ensures enemies == Sweep(old(enemies), MoveEnemy, EnemyBreached)
      ensures lives == old(lives) - (|old(enemies)| - |enemies|)
      ensures Snapshot() == EnemiesMoved(old(Snapshot()))
    {
      var n := |enemies|;
      var k := 0;
      ghost var done: seq<Enemy> := [];
      ghost var rest := enemies;
      while k < n
        invariant 0 <= k <= n
        invariant enemies == done + rest
        invariant |done| <= k && (rest != [] ==> |done| == k) && |rest| <= n - k
        invariant done + Sweep(rest, MoveEnemy, EnemyBreached) == Sweep(old(enemies), MoveEnemy, EnemyBreached)
        invariant lives == old(lives) - (n - |enemies|)
      {
        if k < |enemies| {
          assert enemies[k] == rest[0];
          ghost var done', rest' := Advance(done, rest, MoveEnemy, EnemyBreached);
          UpdateEnemyAt(k);
          done, rest := done', rest';
        }
        k := k + 1;
      }
      assert rest == [];
    }

    /** The callback of the enemy forEach at index k. */
    method UpdateEnemyAt(k: int)
      requires 0 <= k < |enemies|
      modifies this`enemies, this`lives
      ensures EnemyBreached(MoveEnemy(old(enemies)[k])) ==>
                enemies == old(enemies)[..k] + old(enemies)[k + 1..] && lives == old(lives) - 1
      ensures !EnemyBreached(MoveEnemy(old(enemies)[k])) ==>
                enemies == old(enemies)[k := MoveEnemy(old(enemies)[k])] && lives == old(lives)
    {
      var enemy := enemies[k];
      enemy := enemy.(x := enemy.x + enemy.speed);
      if enemy.x + enemy.width > CanvasWidth || enemy.x < 0.0 {
        enemy := enemy.(speed := -enemy.speed, y := enemy.y + enemy.height);
      }
      enemies := enemies[k := enemy];
      if enemy.y + enemy.height > CanvasHeight {
        lives := lives - 1;
        assert enemies[..k] == old(enemies)[..k] && enemies[k + 1..] == old(enemies)[k + 1..];
        enemies := enemies[..k] + enemies[k + 1..];
      }
    }

    /** The bullet forEach: move up, splice out above the top. */
    method UpdateBullets()
      modifies this`bullets
      ensures bullets == Sweep(old(bullets), MoveBullet, BulletGone)
      ensures Snapshot() == BulletsMoved(old(Snapshot()))
    {
      var n := |bullets|;
      var k := 0;
      ghost var done: seq<Bullet> := [];
      ghost var rest := bullets;
      while k < n
        invariant 0 <= k <= n
        invariant bullets == done + rest
        invariant |done| <= k && (rest != [] ==> |done| == k) && |rest| <= n - k
        invariant done + Sweep(rest, MoveBullet, BulletGone) == Sweep(old(bullets), MoveBullet, BulletGone)
      {
        if k < |bullets| {
          assert bullets[k] == rest[0];
          ghost var done', rest' := Advance(done, rest, MoveBullet, BulletGone);
          UpdateBulletAt(k);
          done, rest := done', rest';
        }
        k := k + 1;
      }
      assert rest == [];
    }

    /** The callback of the bullet forEach at index k. */
    method UpdateBulletAt(k: int)
      requires 0 <= k < |bullets|
      modifies this`bullets
      ensures BulletGone(MoveBullet(old(bullets)[k])) ==>
                bullets == old(bullets)[..k] + old(bullets)[k + 1..]
      ensures !BulletGone(MoveBullet(old(bullets)[k])) ==>
                bullets == old(bullets)[k := MoveBullet(old(bullets)[k])]
    {
      var bullet := bullets[k];
      bullet := bullet.(y := bullet.y - bullet.speed);
      bullets := bullets[k := bullet];
      if bullet.y < 0.0 {
        assert bullets[..k] == old(bullets)[..k] && bullets[k + 1..] == old(bullets)[k + 1..];
        bullets := bullets[..k] + bullets[k + 1..];
      }
    }

    /** Both collision passes, with the forEach semantics of the source: lengths captured at
        the start of each loop, the captured bullet still tested after it was spliced. */
    method DetectCollisions()
      modifies this
      ensures Snapshot() == Collided(old(Snapshot()))
    {
      CollideBullets();
      ghost var mid := Snapshot();
      CollidePlayer();
      SweepLength(mid.enemies, Unmoved, PlayerHit(mid.player));
    }

    /** The first pass: the forEach over bullets with the forEach over enemies inside it. */
    method CollideBullets()
      modifies this
      ensures Snapshot() == BulletEnemyPass(old(Snapshot()))
    {
      ghost var s0 := Snapshot();
      var nb := |bullets|;
      var b := 0;
      while b < nb
        invariant 0 <= b <= nb
        invariant OuterPass(Snapshot(), b, nb) == BulletEnemyPass(s0)
      {
        if b < |bullets| {
          var bullet := bullets[b];
          var ne := |enemies|;
          var e := 0;
          while e < ne
            invariant 0 <= e <= ne
            invariant OuterPass(InnerPass(Snapshot(), bullet, b, e, ne), b + 1, nb) == BulletEnemyPass(s0)
          {
            if e < |enemies| {
              var enemy := enemies[e];
              if Overlaps(bullet.Bounds(), enemy.Bounds()) {
                BulletHit(b, e);
              }
            }
            e := e + 1;
          }
        }
        b := b + 1;
      }
    }

    /** What one bullet hit does: splice out the enemy at e and whatever sits at the bullet's
        index b, explode, score 10, and when no enemy is left go up a level and respawn. */
    method BulletHit(b: int, e: int)
      requires 0 <= e < |enemies|
      modifies this
      ensures Snapshot() == HitStep(old(Snapshot()), b, e)
    {
      ghost var s := Snapshot();
      enemies := enemies[..e] + enemies[e + 1..];
      if 0 <= b < |bullets| {
        bullets := bullets[..b] + bullets[b + 1..];
      }
      explosions := explosions + 1;
      score := score + 10;
      assert enemies == RemoveAt(s.enemies, e) && bullets == RemoveAt(s.bullets, b);
      ghost var hit := s.(enemies := enemies, bullets := bullets, score := score, explosions := explosions);
      assert Snapshot() == hit;
      if |enemies| == 0 {
        level := level + 1;
        levelUps := levelUps + 1;
        CreateEnemies();
        assert Snapshot() == hit.(level := s.level + 1, levelUps := s.levelUps + 1, enemies := RemoveAt(s.enemies, e) + Wave(s.level + 1));
      }
    }

    /** The second pass: the forEach over enemies against the player, with no early exit. */
    method CollidePlayer()
      modifies this`enemies, this`lives, this`explosions, this`player
      ensures enemies == Sweep(old(enemies), Unmoved, PlayerHit(old(player)))
      ensures lives == old(lives) - (|old(enemies)| - |enemies|)
      ensures explosions == old(explosions) + (|old(enemies)| - |enemies|)
      ensures player == old(player).(isDestroyed := old(player).isDestroyed || |enemies| < |old(enemies)|)
    {
      ghost var p0 := player;
      var n := |enemies|;
      var k := 0;
      ghost var done: seq<Enemy> := [];
      ghost var rest := enemies;
      while k < n
        invariant 0 <= k <= n
        invariant enemies == done + rest
        invariant |done| <= k && (rest != [] ==> |done| == k) && |rest| <= n - k
        invariant done + Sweep(rest, Unmoved, PlayerHit(p0)) == Sweep(old(enemies), Unmoved, PlayerHit(p0))
        invariant lives == old(lives) - (n - |enemies|)
        invariant explosions == old(explosions) + (n - |enemies|)
        invariant player == p0.(isDestroyed := p0.isDestroyed || |enemies| < n)
      {
        if k < |enemies| {
          ghost var done', rest' := Advance(done, rest, Unmoved, PlayerHit(p0));
          assert PlayerHit(p0)(Unmoved(rest[0])) == Overlaps(enemies[k].Bounds(), player.Bounds());
          CollideEnemyAt(k);
          done, rest := done', rest';
        }
        k := k + 1;
      }
      assert rest == [];
    }

    /** The callback of the player forEach at index k. */
    method CollideEnemyAt(k: int)
      requires 0 <= k < |enemies|
      modifies this`enemies, this`lives, this`explosions, this`player
      ensures Overlaps(old(enemies)[k].Bounds(), old(player).Bounds()) ==>
                enemies == old(enemies)[..k] + old(enemies)[k + 1..] && lives == old(lives) - 1 &&
                explosions == old(explosions) + 1 && player == old(player).(isDestroyed := true)
      ensures !Overlaps(old(enemies)[k].Bounds(), old(player).Bounds()) ==>
                enemies == old(enemies) && lives == old(lives) &&
                explosions == old(explosions) && player == old(player)
    {
      var enemy := enemies[k];
      if Overlaps(enemy.Bounds(), player.Bounds()) {
        player := player.(isDestroyed := true);
        explosions := explosions + 1;
        lives := lives - 1;
        enemies := enemies[..k] + enemies[k + 1..];
      }
    }

    /** The update half of one frame; the result says whether another frame is scheduled. */
    method Tick() returns (continues: bool)
      modifies this
      ensures Snapshot() == Ticked(old(Snapshot()))
      ensures continues == Continues(Snapshot())
    {
      UpdatePlayer();
      UpdateEnemies();
      UpdateBullets();
      DetectCollisions();
      continues := lives > 0;
    }

    /** The fire intent. */
    method ShootBullet()
      modifies this
      ensures Snapshot() == Fired(old(Snapshot()))
    {
      if player.canShoot && !player.isDestroyed {
        bullets := bullets + [Bullet(player.x + PlayerWidth / 2.0 - 2.5, PlayerY, 5.0, 10.0, 7.0)];
        player := player.(canShoot := false);
      }
    }

    /** The deferred callback that re-arms the gun; the 500 ms delay is the caller's business. */
    method CooldownElapsed()
      modifies this
      ensures Snapshot() == old(Snapshot()).(player := old(player).(canShoot := true))
    {
      player := player.(canShoot := true);
    }

    /** Resets the session and runs the first frame of the new game. */
    method ResetGame() returns (continues: bool)
      modifies this
      ensures Snapshot() == Ticked(Restarted(old(Snapshot())))
      ensures continues == Continues(Snapshot())
    {
      score := 0;
      lives := StartLives;
      level := 1;
      enemies := [];
      bullets := [];
      player := player.(x := PlayerStartX, isDestroyed := false);
      CreateEnemies();
      continues := Tick();
    }

    /** The key-down handler: arrows set dx, space fires, R restarts when lives are exactly zero. */
    method KeyDown(key: Key)
      modifies this
      ensures key == ArrowLeft ==> Snapshot() == old(Snapshot()).(player := old(player).(dx := -PlayerSpeed))
      ensures key == ArrowRight ==> Snapshot() == old(Snapshot()).(player := old(player).(dx := PlayerSpeed))
      ensures key == Space ==> Snapshot() == Fired(old(Snapshot()))
      ensures key == KeyR ==> Snapshot() == if RestartAccepted(old(Snapshot()))
                                             then Ticked(Restarted(old(Snapshot())))
                                             else old(Snapshot())
      ensures key == OtherKey ==> Snapshot() == old(Snapshot())
    {
      if key == ArrowLeft {
        player := player.(dx := -PlayerSpeed);
      }
      if key == ArrowRight {
        player := player.(dx := PlayerSpeed);
      }
      if key == Space {
        ShootBullet();
      }
      if key == KeyR && lives == 0 {
        var _ := ResetGame();
      }
    }

    /** The key-up handler: releasing an arrow stops the ship. */
    method KeyUp(key: Key)
      modifies this
      ensures Snapshot() == if key == ArrowLeft || key == ArrowRight
                            then old(Snapshot()).(player := old(player).(dx := 0.0))
                            else old(Snapshot())
    {
      if key == ArrowLeft || key == ArrowRight {
        player := player.(dx := 0.0);
      }
    }
  }
}
