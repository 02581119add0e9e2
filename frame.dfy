// One frame of the game loop as a function of the state, the intents, and what the frame
// loop promises over a tick.

module Frame {
  import opened Geometry
  import opened Entities
  import opened Spawner
  import opened Splice
  import opened Movement
  import opened Collisions

  /** The state at load time: counters at their start values, the player centred and ready,
      no bullets, and the level-1 wave. */
  function InitialState(): State
  {
    State(0, StartLives, 1, Player(PlayerStartX, 0.0, true, false), Wave(1), [], 0, 0)
  }

  /** The update half of one frame: player, enemies, bullets, then both collision passes. */
  function Ticked(s: State): State
  {
    Collided(BulletsMoved(EnemiesMoved(s.(player := PlayerMoved(s.player)))))
  }

  /** The frame loop schedules another frame only while lives are left. */
  predicate Continues(s: State)
  {
    s.lives > 0
  }

  /** The fire intent: with the cooldown flag up and the ship intact, one bullet is pushed and
      the flag goes down; otherwise nothing happens. */
  function Fired(s: State): State
  {
    if s.player.canShoot && !s.player.isDestroyed then
      s.(bullets := s.bullets + [Shot(s.player)], player := s.player.(canShoot := false))
    else s
  }

  /** The state changes of a reset, before its first frame: counters back to their start values,
      both lists emptied, the player recentred and intact, then the level-1 wave pushed. The
      player's dx and cooldown flag are left as they were. */
  function Restarted(s: State): State
  {
    State(0, StartLives, 1, s.player.(x := PlayerStartX, isDestroyed := false),
          [] + Wave(1), [], s.explosions, s.levelUps)
  }

  /** The restart key is honoured only when lives are exactly zero. */
  predicate RestartAccepted(s: State)
  {
    s.lives == 0
  }

  /** The guard the game evidently means: restart whenever the frame loop has stopped. */
  predicate RestartAcceptedWhenOver(s: State)
  {
    s.lives <= 0
  }

  /** A tick never lowers the score or the level; the score moves in steps of ten, one per
      explosion of the bullet pass. */
  lemma TickScoreNeverDrops(s: State)
    ensures Ticked(s).score >= s.score && Ticked(s).level >= s.level
    ensures (Ticked(s).score - s.score) % 10 == 0
  {
    var m := BulletsMoved(EnemiesMoved(s.(player := PlayerMoved(s.player))));
    BulletEnemyPassAccounted(m);
    PlayerPassLives(BulletEnemyPass(m));
  }

  /** A tick never gives back a life, and the player ends it on the field. */
  lemma TickLivesNeverRise(s: State)
    ensures Ticked(s).lives <= s.lives
    ensures 0.0 <= Ticked(s).player.x <= CanvasWidth - PlayerWidth
  {
    var p := s.(player := PlayerMoved(s.player));
    PlayerMovedOnField(s.player);
    EnemiesMovedLives(p);
    var m := BulletsMoved(EnemiesMoved(p));
    BulletEnemyPassAccounted(m);
    PlayerPassLives(BulletEnemyPass(m));
  }

  /** A field emptied by enemies leaving through the bottom is never refilled: the wave is
      only respawned by the bullet pass, so the tick keeps it empty at the same level and
      score and leaves the lives. */
  lemma ClearedFieldStaysClear(s: State)
    requires s.enemies == []
    ensures Ticked(s).enemies == []
    ensures Ticked(s).level == s.level && Ticked(s).score == s.score && Ticked(s).lives == s.lives
  {
    var m := BulletsMoved(EnemiesMoved(s.(player := PlayerMoved(s.player))));
    assert m.enemies == [];
    BulletEnemyPassNeedsOverlap(m);
  }

  /** A reset gives score 0, three lives, level 1, no bullets, an intact player at x = 380 and
      exactly the 40-enemy level-1 wave, and the loop may run again. */
  lemma RestartedFresh(s: State)
    ensures var r := Restarted(s);
      r.score == 0 && r.lives == 3 && r.level == 1 && r.bullets == [] &&
      r.player.x == 380.0 && !r.player.isDestroyed &&
      r.enemies == Wave(1) && |r.enemies| == 40 && Continues(r)
  {
  }

  /** Firing pushes exactly one bullet, 5 by 10 with speed 7 at (x + 17.5, 540), and lowers the
      cooldown flag, exactly when the flag is up and the ship intact; otherwise nothing
      changes. Firing never touches the score, lives, level or enemies. */
  lemma FiredEffect(s: State)
    ensures var r := Fired(s);
      r.score == s.score && r.lives == s.lives && r.level == s.level && r.enemies == s.enemies &&
      if s.player.canShoot && !s.player.isDestroyed then
        r.bullets == s.bullets + [Bullet(s.player.x + 17.5, 540.0, 5.0, 10.0, 7.0)] &&
        r.player == s.player.(canShoot := false)
      else r == s
  {
  }

  /** As written, the restart guard can lock the game: with one life left, two enemies of a
      row that breach in the same tick (the one between them is skipped) take lives to -1;
      the loop stops, and the restart key is refused for ever. */
  lemma DoubleBreachBlocksRestart()
    ensures var a := Enemy(30.0, 570.0, 40.0, 40.0, 1.5);
            var b := Enemy(80.0, 570.0, 40.0, 40.0, 1.5);
            var c := Enemy(130.0, 570.0, 40.0, 40.0, 1.5);
            var s := State(0, 1, 1, Player(PlayerStartX, 0.0, true, false), [a, b, c], [], 0, 0);
            Continues(s) && Ticked(s).lives == -1 &&
            !Continues(Ticked(s)) && !RestartAccepted(Ticked(s))
  {
    var a := Enemy(30.0, 570.0, 40.0, 40.0, 1.5);
    var b := Enemy(80.0, 570.0, 40.0, 40.0, 1.5);
    var c := Enemy(130.0, 570.0, 40.0, 40.0, 1.5);
    var s := State(0, 1, 1, Player(PlayerStartX, 0.0, true, false), [a, b, c], [], 0, 0);
    var p := s.(player := PlayerMoved(s.player));
    assert p.player == s.player;
    assert Sweep([c], MoveEnemy, EnemyBreached) == [];
    assert Sweep([a, b, c], MoveEnemy, EnemyBreached) == [b];
    var m := BulletsMoved(EnemiesMoved(p));
    assert m.lives == -1 && m.enemies == [b] && m.bullets == [];
    assert BulletEnemyPass(m) == m;
    var q := PlayerPass(m);
    assert !PlayerHit(m.player)(b);
    assert Sweep([b], Unmoved, PlayerHit(m.player)) == [b];
    assert q.lives == -1;
  }

  /** The lock is reached in real play: the level-9 wave's last row reaches past the bottom
      edge, so its first move breaches every enemy of that row; with each removal shielding the
      next, 5 of the 10 are spliced out. From the at most 3 lives a game can hold, the frame
      ends at -2 or below, the loop stops and the restart key is refused. */
  lemma Wave9FirstFrameLocks(s: State)
    requires s.enemies == Wave(9) && s.lives <= StartLives
    ensures EnemiesMoved(s).lives == s.lives - 5
    ensures Ticked(s).lives <= -2 && !Continues(Ticked(s)) && !RestartAccepted(Ticked(s))
  {
    var w := Wave(9);
    assert |w| == 120;
    var top, last := w[..110], w[110..];
    assert w == top + last;
    forall i | 0 <= i < |top|
      ensures !EnemyBreached(MoveEnemy(top[i]))
    {
      assert top[i] == w[i];
      assert i / Cols <= 10;
    }
    forall i | 0 <= i < |last|
      ensures EnemyBreached(MoveEnemy(last[i]))
    {
      assert last[i] == w[110 + i];
      assert (110 + i) / Cols == 11;
    }
    SweepKeptPrefix(top, last, MoveEnemy, EnemyBreached);
    SweepAllDropped(last, MoveEnemy, EnemyBreached);
    var p := s.(player := PlayerMoved(s.player));
    assert EnemiesMoved(p).lives == s.lives - 5;
    var m := BulletsMoved(EnemiesMoved(p));
    BulletEnemyPassAccounted(m);
    PlayerPassLives(BulletEnemyPass(m));
  }

  /** The corrected guard accepts a restart exactly when the frame loop has stopped, so every
      game over, however far below zero the lives went, can be restarted, and a running game
      never is. */
  lemma RestartExactlyWhenStopped(s: State)
    ensures RestartAcceptedWhenOver(s) <==> !Continues(s)
    ensures RestartAccepted(s) ==> RestartAcceptedWhenOver(s)
  {
  }
}
