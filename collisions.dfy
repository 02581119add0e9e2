// Collision resolution: bullets against enemies, then enemies against the player.

module Collisions {
  import opened Geometry
  import opened Entities
  import opened Spawner
  import opened Splice

  /** Array splice of one element: removes xs[i] when i is an index, and is a no-op when i
      is at or past the end (as splice(i, 1) is). */
  function RemoveAt<T>(xs: seq<T>, i: int): seq<T>
  {
    if 0 <= i < |xs| then xs[..i] + xs[i + 1..] else xs
  }

  /** One bullet hit on the enemy at ei by the bullet loop at index bi: splice both lists,
      emit an explosion, score 10; if that empties the enemies, go up a level, emit a level-up
      and push the new level's wave. */
  function HitStep(s: State, bi: int, ei: int): State
    requires 0 <= ei < |s.enemies|
  {
    var es := RemoveAt(s.enemies, ei);
    var hit := s.(enemies := es, bullets := RemoveAt(s.bullets, bi),
                  score := s.score + 10, explosions := s.explosions + 1);
    if |es| == 0 then
      hit.(level := s.level + 1, levelUps := s.levelUps + 1, enemies := es + Wave(s.level + 1))
    else hit
  }

  /** The inner forEach over enemies for one captured bullet, from index ei; ne is the
      length captured when that forEach started. */
  function InnerPass(s: State, bullet: Bullet, bi: int, ei: nat, ne: int): State
    decreases ne - ei
  {
    if ei >= ne then s
    else if ei < |s.enemies| && Overlaps(bullet.Bounds(), s.enemies[ei].Bounds()) then
      InnerPass(HitStep(s, bi, ei), bullet, bi, ei + 1, ne)
    else InnerPass(s, bullet, bi, ei + 1, ne)
  }

  /** The outer forEach over bullets from index bi; nb is the captured length. */
  function OuterPass(s: State, bi: nat, nb: int): State
    decreases nb - bi
  {
    if bi >= nb then s
    else if bi < |s.bullets| then
      OuterPass(InnerPass(s, s.bullets[bi], bi, 0, |s.enemies|), bi + 1, nb)
    else OuterPass(s, bi + 1, nb)
  }

  /** Past the first enemy index the inner loop never goes up a level: a hit there leaves at
      least one enemy in the list. */
  lemma {:induction false} NoRespawnAfterFirst(s: State, bullet: Bullet, bi: int, ei: nat, ne: int)
    requires ei >= 1
    ensures InnerPass(s, bullet, bi, ei, ne).level == s.level
    decreases ne - ei
  {
    if ei < ne {
      if ei < |s.enemies| && Overlaps(bullet.Bounds(), s.enemies[ei].Bounds()) {
        NoRespawnAfterFirst(HitStep(s, bi, ei), bullet, bi, ei + 1, ne);
      } else {
        NoRespawnAfterFirst(s, bullet, bi, ei + 1, ne);
      }
    }
  }

  /** A respawn inside the inner loop happens only when the bullet took the single enemy at
      index 0, and it ends that loop: the new wave is met only by the later bullets of the
      outer loop. */
  lemma RespawnEndsInner(s: State, bullet: Bullet, bi: int)
    ensures var r := InnerPass(s, bullet, bi, 0, |s.enemies|);
            r.level != s.level ==> |s.enemies| == 1 && r == HitStep(s, bi, 0)
  {
    if 0 < |s.enemies| {
      if Overlaps(bullet.Bounds(), s.enemies[0].Bounds()) {
        var h := HitStep(s, bi, 0);
        if |s.enemies| > 1 {
          NoRespawnAfterFirst(h, bullet, bi, 1, |s.enemies|);
        }
      } else {
        NoRespawnAfterFirst(s, bullet, bi, 1, |s.enemies|);
      }
    }
  }

  /** The first collision pass. */
  function BulletEnemyPass(s: State): State
  {
    OuterPass(s, 0, |s.bullets|)
  }

  /** The second pass visits enemies without moving them ... */
  function Unmoved(e: Enemy): Enemy
  {
    e
  }

  /** ... and splices out each one whose box overlaps the player's. */
  function PlayerHit(p: Player): Enemy -> bool
  {
    (e: Enemy) => Overlaps(e.Bounds(), p.Bounds())
  }

  /** The second collision pass: every removal flags the player destroyed, emits an
      explosion and costs a life; there is no early exit. */
  function PlayerPass(s: State): State
  {
    var es := Sweep(s.enemies, Unmoved, PlayerHit(s.player));
    SweepLength(s.enemies, Unmoved, PlayerHit(s.player));
    var lost := |s.enemies| - |es|;
    s.(enemies := es, lives := s.lives - lost,
       player := s.player.(isDestroyed := s.player.isDestroyed || lost > 0),
       explosions := s.explosions + lost)
  }

  /** Both passes, in source order. */
  function Collided(s: State): State
  {
    PlayerPass(BulletEnemyPass(s))
  }

  /** What the bullet pass keeps between a state s0 and a later state s: ten points and one
      explosion per hit, each hit removing exactly one enemy; one level per level-up, never
      more level-ups than hits; enemies added only as whole waves, one per new level; no
      bullet added and at most one removed per hit; lives and player untouched. */
  ghost predicate Accounted(s0: State, s: State)
  {
    s.explosions >= s0.explosions && s.levelUps >= s0.levelUps &&
    s.levelUps - s0.levelUps <= s.explosions - s0.explosions &&
    s.score == s0.score + 10 * (s.explosions - s0.explosions) &&
    s.level == s0.level + (s.levelUps - s0.levelUps) &&
    |s.enemies| + (s.explosions - s0.explosions) == |s0.enemies| + WaveTotal(s0.level, s.level) &&
    |s.bullets| <= |s0.bullets| &&
    |s0.bullets| - |s.bullets| <= s.explosions - s0.explosions &&
    s.lives == s0.lives && s.player == s0.player
  }

  lemma AccountedTrans(a: State, b: State, c: State)
    requires Accounted(a, b) && Accounted(b, c)
    ensures Accounted(a, c)
  {
    WaveTotalSplit(a.level, b.level, c.level);
  }

  /** A single hit: score +10, one explosion, one enemy fewer; the level goes up by one, with
      the new level's wave as the whole enemy list, exactly when the hit took the last enemy. */
  lemma HitStepEffect(s: State, bi: int, ei: int)
    requires 0 <= ei < |s.enemies|
    ensures var r := HitStep(s, bi, ei);
      r.score == s.score + 10 && r.explosions == s.explosions + 1 &&
      (r.level == s.level + 1 <==> |s.enemies| == 1) &&
      (|s.enemies| == 1 ==> r.enemies == Wave(s.level + 1) && r.levelUps == s.levelUps + 1) &&
      (|s.enemies| > 1 ==> r.level == s.level && r.levelUps == s.levelUps &&
                           r.enemies == s.enemies[..ei] + s.enemies[ei + 1..])
    ensures 0 <= bi < |s.bullets| ==> HitStep(s, bi, ei).bullets == s.bullets[..bi] + s.bullets[bi + 1..]
    ensures !(0 <= bi < |s.bullets|) ==> HitStep(s, bi, ei).bullets == s.bullets
    ensures Accounted(s, HitStep(s, bi, ei))
  {
  }

  /** The smaller of two integers. */
  function Lo(a: int, b: int): int
  {
    if a <= b then a else b
  }

  /** The bullets the inner loop for the bullet at bi splices: its first hit takes that bullet,
      and every later hit takes the bullet that has since slid into slot bi, so after k hits
      the k bullets from slot bi on (as many as there are) are gone and the rest are kept. */
  lemma {:induction false} InnerBullets(s: State, bullet: Bullet, bi: nat, ei: nat, ne: int)
    requires bi <= |s.bullets|
    ensures var t := InnerPass(s, bullet, bi, ei, ne);
            t.explosions >= s.explosions &&
            t.bullets == s.bullets[..bi] + s.bullets[Lo(bi + (t.explosions - s.explosions), |s.bullets|)..]
    decreases ne - ei
  {
    if ei < ne {
      if ei < |s.enemies| && Overlaps(bullet.Bounds(), s.enemies[ei].Bounds()) {
        var h := HitStep(s, bi, ei);
        if bi < |s.bullets| {
          assert h.bullets == s.bullets[..bi] + s.bullets[bi + 1..];
        }
        InnerBullets(h, bullet, bi, ei + 1, ne);
        var t := InnerPass(h, bullet, bi, ei + 1, ne);
        if bi < |s.bullets| {
          var j := Lo(bi + (t.explosions - h.explosions), |h.bullets|);
          assert h.bullets[..bi] == s.bullets[..bi];
          assert h.bullets[j..] == s.bullets[j + 1..];
        }
      } else {
        InnerBullets(s, bullet, bi, ei + 1, ne);
      }
    } else {
      assert s.bullets == s.bullets[..bi] + s.bullets[bi..];
    }
  }

  lemma {:induction false} InnerAccounted(s: State, bullet: Bullet, bi: int, ei: nat, ne: int)
    ensures Accounted(s, InnerPass(s, bullet, bi, ei, ne))
    decreases ne - ei
  {
    if ei < ne {
      if ei < |s.enemies| && Overlaps(bullet.Bounds(), s.enemies[ei].Bounds()) {
        var h := HitStep(s, bi, ei);
        HitStepEffect(s, bi, ei);
        InnerAccounted(h, bullet, bi, ei + 1, ne);
        AccountedTrans(s, h, InnerPass(h, bullet, bi, ei + 1, ne));
      } else {
        InnerAccounted(s, bullet, bi, ei + 1, ne);
      }
    }
  }

  lemma {:induction false} OuterAccounted(s: State, bi: nat, nb: int)
    ensures Accounted(s, OuterPass(s, bi, nb))
    decreases nb - bi
  {
    if bi < nb {
      if bi < |s.bullets| {
        var t := InnerPass(s, s.bullets[bi], bi, 0, |s.enemies|);
        InnerAccounted(s, s.bullets[bi], bi, 0, |s.enemies|);
        OuterAccounted(t, bi + 1, nb);
        AccountedTrans(s, t, OuterPass(t, bi + 1, nb));
      } else {
        OuterAccounted(s, bi + 1, nb);
      }
    }
  }

  /** Over the whole bullet pass: score grows by exactly 10 per explosion, level by exactly
      one per level-up, every hit removes one enemy and the only enemies added are full waves
      for the new levels, and no bullet is added. */
  lemma BulletEnemyPassAccounted(s: State)
    ensures Accounted(s, BulletEnemyPass(s))
  {
    OuterAccounted(s, 0, |s.bullets|);
  }

  lemma {:induction false} InnerNoHit(s: State, bullet: Bullet, bi: int, ei: nat, ne: int)
    requires forall j :: 0 <= j < |s.enemies| ==> !Overlaps(bullet.Bounds(), s.enemies[j].Bounds())
    ensures InnerPass(s, bullet, bi, ei, ne) == s
    decreases ne - ei
  {
    if ei < ne {
      InnerNoHit(s, bullet, bi, ei + 1, ne);
    }
  }

  lemma {:induction false} OuterNoHit(s: State, bi: nat, nb: int)
    requires forall i, j :: 0 <= i < |s.bullets| && 0 <= j < |s.enemies| ==>
               !Overlaps(s.bullets[i].Bounds(), s.enemies[j].Bounds())
    ensures OuterPass(s, bi, nb) == s
    decreases nb - bi
  {
    if bi < nb {
      if bi < |s.bullets| {
        InnerNoHit(s, s.bullets[bi], bi, 0, |s.enemies|);
      }
      OuterNoHit(s, bi + 1, nb);
    }
  }

  /** With no bullet overlapping any enemy, the bullet pass changes nothing. */
  lemma BulletEnemyPassNeedsOverlap(s: State)
    requires forall i, j :: 0 <= i < |s.bullets| && 0 <= j < |s.enemies| ==>
               !Overlaps(s.bullets[i].Bounds(), s.enemies[j].Bounds())
    ensures BulletEnemyPass(s) == s
  {
    OuterNoHit(s, 0, |s.bullets|);
  }

  /** The player pass costs exactly one life and emits one explosion per removed enemy, flags
      the player destroyed exactly when it removed one, and leaves score, level and bullets. */
  lemma PlayerPassLives(s: State)
    ensures var r := PlayerPass(s);
      |r.enemies| <= |s.enemies| &&
      s.lives - r.lives == |s.enemies| - |r.enemies| &&
      r.explosions - s.explosions == |s.enemies| - |r.enemies| &&
      r.player.isDestroyed == (s.player.isDestroyed || |r.enemies| < |s.enemies|) &&
      r.player.x == s.player.x &&
      r.score == s.score && r.level == s.level && r.bullets == s.bullets
  {
    SweepLength(s.enemies, Unmoved, PlayerHit(s.player));
  }

  /** With no enemy overlapping the ship, the player pass changes nothing. */
  lemma PlayerPassNeedsContact(s: State)
    requires forall j :: 0 <= j < |s.enemies| ==> !Overlaps(s.enemies[j].Bounds(), s.player.Bounds())
    ensures PlayerPass(s) == s
  {
    SweepKeepsAll(s.enemies, Unmoved, PlayerHit(s.player));
    assert Sweep(s.enemies, Unmoved, PlayerHit(s.player)) == s.enemies;
  }

  /** Every enemy the player pass removes overlaps the ship: an enemy that does not is still in
      the list afterwards. */
  lemma PlayerPassOnlyContact(s: State, e: Enemy)
    requires e in s.enemies && !Overlaps(e.Bounds(), s.player.Bounds())
    ensures e in PlayerPass(s).enemies
  {
    var j :| 0 <= j < |s.enemies| && s.enemies[j] == e;
    SweepKeepsUndropped(s.enemies, Unmoved, PlayerHit(s.player), j);
  }

  /** A splice keeps every element other than the one it removes ... */
  lemma RemoveAtKeepsOthers<T>(xs: seq<T>, i: int, x: T)
    requires x in xs && (0 <= i < |xs| ==> xs[i] != x)
    ensures x in RemoveAt(xs, i)
  {
    if 0 <= i < |xs| {
      var k :| 0 <= k < |xs| && xs[k] == x;
      if k < i {
        assert xs[..i][k] == x;
      } else {
        assert xs[i + 1..][k - i - 1] == x;
      }
    }
  }

  /** ... and adds nothing. */
  lemma RemoveAtShrinks<T>(xs: seq<T>, i: int, x: T)
    requires x in RemoveAt(xs, i)
    ensures x in xs
  {
    if 0 <= i < |xs| {
      assert x in xs[..i] || x in xs[i + 1..];
    }
  }

  /** Along the inner loop, no bullet enters the list, and an enemy the captured bullet does not
      overlap stays in it. */
  lemma {:induction false} InnerKeeps(s: State, bullet: Bullet, bi: int, ei: nat, ne: int, e: Enemy)
    requires e in s.enemies && !Overlaps(bullet.Bounds(), e.Bounds())
    ensures e in InnerPass(s, bullet, bi, ei, ne).enemies
    ensures forall b :: b in InnerPass(s, bullet, bi, ei, ne).bullets ==> b in s.bullets
    decreases ne - ei
  {
    if ei < ne {
      if ei < |s.enemies| && Overlaps(bullet.Bounds(), s.enemies[ei].Bounds()) {
        var h := HitStep(s, bi, ei);
        RemoveAtKeepsOthers(s.enemies, ei, e);
        assert e in h.enemies;
        InnerKeeps(h, bullet, bi, ei + 1, ne, e);
        forall b | b in InnerPass(h, bullet, bi, ei + 1, ne).bullets
          ensures b in s.bullets
        {
          RemoveAtShrinks(s.bullets, bi, b);
        }
      } else {
        InnerKeeps(s, bullet, bi, ei + 1, ne, e);
      }
    }
  }

  lemma {:induction false} OuterKeeps(s: State, bi: nat, nb: int, e: Enemy, bs: seq<Bullet>)
    requires e in s.enemies
    requires forall b :: b in s.bullets ==> b in bs
    requires forall b :: b in bs ==> !Overlaps(b.Bounds(), e.Bounds())
    ensures e in OuterPass(s, bi, nb).enemies
    decreases nb - bi
  {
    if bi < nb {
      if bi < |s.bullets| {
        var t := InnerPass(s, s.bullets[bi], bi, 0, |s.enemies|);
        InnerKeeps(s, s.bullets[bi], bi, 0, |s.enemies|, e);
        OuterKeeps(t, bi + 1, nb, e, bs);
      } else {
        OuterKeeps(s, bi + 1, nb, e, bs);
      }
    }
  }

  /** Every enemy the bullet pass removes overlapped one of the frame's bullets: an enemy that
      no bullet overlaps is still in the list afterwards. */
  lemma BulletEnemyPassOnlyOverlap(s: State, e: Enemy)
    requires e in s.enemies
    requires forall b :: b in s.bullets ==> !Overlaps(b.Bounds(), e.Bounds())
    ensures e in BulletEnemyPass(s).enemies
  {
    OuterKeeps(s, 0, |s.bullets|, e, s.bullets);
  }

  /** The loop keeps testing the captured bullet after splicing it: here the first bullet
      destroys two enemies (the second after the enemy between them shifted down and was
      skipped), scores 20, and its second splice removes the other, innocent bullet. */
  lemma StaleBulletIndex()
    ensures var e1 := Enemy(100.0, 100.0, 40.0, 40.0, 1.5);
            var e2 := Enemy(300.0, 100.0, 40.0, 40.0, 1.5);
            var e3 := Enemy(100.0, 115.0, 40.0, 40.0, 1.5);
            var b1 := Bullet(110.0, 110.0, 5.0, 10.0, 7.0);
            var b2 := Bullet(600.0, 300.0, 5.0, 10.0, 7.0);
            var s := State(0, 3, 1, Player(PlayerStartX, 0.0, true, false), [e1, e2, e3], [b1, b2], 0, 0);
            var r := BulletEnemyPass(s);
            r.enemies == [e2] && r.bullets == [] && r.score == 20 && r.level == 1
  {
    var e1 := Enemy(100.0, 100.0, 40.0, 40.0, 1.5);
    var e2 := Enemy(300.0, 100.0, 40.0, 40.0, 1.5);
    var e3 := Enemy(100.0, 115.0, 40.0, 40.0, 1.5);
    var b1 := Bullet(110.0, 110.0, 5.0, 10.0, 7.0);
    var b2 := Bullet(600.0, 300.0, 5.0, 10.0, 7.0);
    var s := State(0, 3, 1, Player(PlayerStartX, 0.0, true, false), [e1, e2, e3], [b1, b2], 0, 0);
    var h1 := HitStep(s, 0, 0);
    assert h1.enemies == [e2, e3] && h1.bullets == [b2];
    var h2 := HitStep(h1, 0, 1);
    assert h2.enemies == [e2] && h2.bullets == [];
    assert InnerPass(h2, b1, 0, 2, 3) == h2;
    assert InnerPass(h1, b1, 0, 1, 3) == h2;
    assert InnerPass(s, b1, 0, 0, 3) == h2;
    assert OuterPass(h2, 1, 2) == h2;
  }
}
