# Space-invaders clone: the per-frame game state, in Dafny

This project models the game logic of `script.js`, a canvas space-invaders clone. The
state is a session score, a number of lives, a level, the player's ship, the enemies and
the player's bullets. The state changes in these ways:

- the key handlers set the ship's horizontal velocity, fire a bullet (one at a time, behind
  a cooldown flag) and restart a finished game;
- one frame of the game loop moves the ship (clamped to the field), moves every enemy
  (bouncing off the side walls one enemy height down, and costing a life when it leaves
  through the bottom), moves every bullet up (dropping it above the top), then resolves
  collisions. A bullet that strictly overlaps an enemy destroys it for 10 points, and the
  last enemy of a wave brings the next level and a bigger wave. An enemy that strictly
  overlaps the ship is removed, flags the ship destroyed and costs a life;
- the loop asks for another frame only while lives are left.

The mutable state is the class `Arcade.Game`, with one field per global of the script. Its
methods change those fields in place, as the script's functions do. Each method is proved
against a function on an immutable `State` value (modules `Movement`, `Collisions`,
`Frame`). The properties the game promises are lemmas about those functions.

Every state-changing `forEach` of the script may splice the element it visits out of the
array it walks (the bullet-versus-enemy loop also splices the bullet list, which it does not
walk). Under section 23.1.3.15 of ECMA-262, `forEach` fixes the length when it starts
and visits an index only while it is still below the current length. So after a removal,
the next element slides into a slot already visited and is skipped for that frame. The
methods reproduce this loop shape: a captured length, and a visit only when the index is
still in range. `Splice.Sweep` is the reference definition of "visit, step, maybe splice"
that `UpdateEnemies`, `UpdateBullets` and `CollidePlayer` are proved equal to.

The bullet-versus-enemy pass is modelled as written:
- The inner loop keeps using the captured bullet after splicing it out. A second hit by
  that bullet splices whatever bullet now sits at its index.
- A respawn can happen inside the inner loop only when the bullet took the single enemy
  left, at index 0, and that ends the inner loop (its captured length was 1). The new
  wave is met only by the later bullets of the outer loop (`Collisions.RespawnEndsInner`).

`Collisions.InnerPass` and `Collisions.OuterPass` state this loop nest one visit at a time.

These behaviours of the script are modelled as they are and proved as lemmas:
- the skipped successor;
- the stale bullet index (`Collisions.StaleBulletIndex`);
- a field emptied by enemies leaving through the bottom is never refilled
  (`Frame.ClearedFieldStaysClear`);
- from level 9 on, the last row of a wave reaches past the bottom edge as soon as it is
  spawned (`Spawner.WaveFitsIff`);
- lives can drop below zero in one frame, and do in a game whose level-9 wave makes its
  first move whole (`Frame.Wave9FirstFrameLocks`).

Sound playback is recorded as two event counters, `explosions` and `levelUps`.

## Model

| member | source | states |
|---|---|---|
| Arcade.Game.constructor | script.js:7-22 | the state at load time is `InitialState`: score 0, 3 lives, level 1, the ship at x = 380 with dx 0, ready to fire and intact, no bullets, and the level-1 wave pushed by the load-time `createEnemies()` call (line 190 of script.js) |
| Arcade.Game.CreateEnemies | script.js:67-82 | the enemies become the old list followed by exactly `Wave(level)`, and nothing else changes |
| Arcade.Game.UpdatePlayer | script.js:61-65 | the ship ends on the field, 0 <= x <= 760, at `PlayerMoved` of the old ship; nothing else changes |
| Arcade.Game.UpdateEnemies | script.js:89-101 | the new enemy list is `Sweep` of the old one under `MoveEnemy`/`EnemyBreached`; lives fall by exactly the number removed; nothing else changes |
| Arcade.Game.UpdateEnemyAt | script.js:90-100 | one visit of the enemy loop: the enemy at k is replaced by its moved self, or spliced out at a cost of one life when the moved enemy has passed the bottom |
| Arcade.Game.UpdateBullets | script.js:108-113 | the new bullet list is `Sweep` of the old one under `MoveBullet`/`BulletGone`; score, lives, level, ship and enemies are unchanged |
| Arcade.Game.UpdateBulletAt | script.js:109-112 | one visit of the bullet loop: the bullet at k moves up by its speed, and is spliced out when its moved y is negative |
| Arcade.Game.DetectCollisions | script.js:115-140 | the new state is `Collided` of the old one: the bullet pass, then the player pass |
| Arcade.Game.CollideBullets | script.js:116-130 | the new state is `BulletEnemyPass` of the old one, the nested loops with both captured lengths and the captured bullet |
| Arcade.Game.BulletHit | script.js:119-127 | one hit is `HitStep`: the enemy spliced out, the bullet index spliced (a no-op past the end), one explosion, +10 score, and when no enemy is left: level + 1, one level-up and the new wave |
| Arcade.Game.CollidePlayer | script.js:132-139 | the new enemy list is `Sweep` under `PlayerHit` of the ship; lives fall and explosions rise by exactly the number removed; the ship is flagged destroyed exactly when one was removed (or it already was) |
| Arcade.Game.CollideEnemyAt | script.js:133-138 | one visit of the player loop: an enemy strictly overlapping the ship is spliced out, the ship flagged destroyed, one explosion and one life lost; otherwise nothing changes |
| Arcade.Game.Tick | script.js:178-187 | the new state is `Ticked` of the old one (player, enemies, bullets, collisions in that order), and the result says whether lives > 0, that is, whether another frame is scheduled |
| Arcade.Game.ShootBullet | script.js:41-47 | the new state is `Fired` of the old one: one bullet pushed and the cooldown flag cleared exactly when the flag is set and the ship intact |
| Arcade.Game.CooldownElapsed | script.js:45 | the deferred callback sets the cooldown flag and changes nothing else |
| Arcade.Game.ResetGame | script.js:159-169 | the new state is the first frame after `Restarted` of the old one, and the result is whether that frame schedules another |
| Arcade.Game.KeyDown | script.js:30-35 | the left and right arrows set dx to -5 and 5, space fires, `r` restarts exactly when lives are 0 (as written), and any other key changes nothing |
| Arcade.Game.KeyUp | script.js:37-39 | releasing an arrow sets dx to 0, and any other key changes nothing |
| Geometry.OverlapsIffSharedPoint | script.js:118 | for boxes of positive size, the four-comparison test holds exactly when the two boxes share an interior point |
| Spawner.WaveShape | script.js:67-82 | a wave for level >= 1 has exactly 10 * (3 + level) enemies; the one at 10r + c is 40 by 40 at (30 + 50c, 30 + 50r) with speed 1 + level * 0.5 |
| Spawner.WaveInsideWalls | script.js:75-80 | every enemy of a fresh wave starts between the side walls |
| Spawner.WaveDisjoint | script.js:75-80 | no two enemies of a fresh wave overlap |
| Spawner.WaveFitsIff | script.js:68-79 | the whole wave starts above the bottom edge if and only if level <= 8 |
| Splice.SweepLength | script.js:96-98 | a splicing pass never grows its list and removes at most every other element |
| Splice.SweepKeepsAll | script.js:109-112 | when no visited element is dropped, the pass is exactly the elementwise step |
| Splice.SweepAllDropped | script.js:96-98 | when every visited element would be dropped, exactly the odd-position elements survive, unmoved |
| Splice.SweepKeepsUndropped | script.js:90-100 | a visited element that would not be dropped is never lost: its stepped value, or the element itself when its visit was skipped, is in the result |
| Splice.SweepKeptPrefix | script.js:90-100 | over a leading run none of whose elements is dropped, the result is exactly as long as that run plus the pass over the rest, so every removal comes from the rest |
| Splice.SweepSurvivor | script.js:90-100 | every survivor is either an input element left untouched or the stepped value of an input element that was kept |
| Movement.PlayerMovedOnField | script.js:61-65 | the moved ship's x is clamp(x + dx, 0, 760); only x changes |
| Movement.MoveEnemyPace | script.js:91-95 | x changes by exactly the speed; the speed is negated, and y grows by the height, exactly when the moved box is outside the side walls; size is unchanged |
| Movement.EnemiesMovedLives | script.js:96-99 | the enemy pass costs exactly one life per removed enemy, never grows the list, and changes only enemies and lives |
| Movement.BulletsStayWhileOnField | script.js:110-111 | when every moved bullet is still on the field, all of them stay, each moved by its speed |
| Movement.EnemyRemovedOnlyPastBottom | script.js:96-99 | an enemy is removed only if its moved box has passed the bottom: any other enemy is still in the list afterwards, moved, or unmoved when its visit was skipped |
| Movement.BulletRemovedOnlyAboveTop | script.js:110-111 | a bullet is removed only if its moved y is negative: any other bullet is still in the list afterwards, moved, or unmoved when its visit was skipped |
| Collisions.HitStepEffect | script.js:119-127 | a hit scores exactly 10 and one explosion; the level rises, with the new wave as the whole enemy list, exactly when the hit took the last enemy; otherwise the list is the old one without that enemy; the bullet at the loop's index is spliced out when one is there, and the bullets are unchanged when the index is past the end |
| Collisions.InnerBullets | script.js:117-121 | over the inner loop for the bullet at index bi, the first hit splices that bullet and every later hit splices the bullet that has since slid into slot bi: after k hits, the bullets are the old ones without the k (or as many as there are) from slot bi on |
| Collisions.BulletEnemyPassAccounted | script.js:116-130 | over the bullet pass: score rises by exactly 10 per explosion and level by exactly one per level-up; there are no more level-ups than hits; each hit removes one enemy and only whole waves are added; no bullet is added and at most one is removed per hit; lives and the ship are untouched |
| Collisions.NoRespawnAfterFirst | script.js:117-127 | from the second enemy index on, the inner loop never changes the level: a hit there leaves an enemy in the list, so no wave is pushed |
| Collisions.RespawnEndsInner | script.js:117-127 | the inner loop for one bullet goes up a level only when the list held a single enemy and the bullet hit it, and its result is then exactly that one hit |
| Collisions.BulletEnemyPassNeedsOverlap | script.js:118 | with no bullet overlapping any enemy, the bullet pass changes nothing at all |
| Collisions.BulletEnemyPassOnlyOverlap | script.js:118-119 | every enemy the bullet pass removes strictly overlapped one of the frame's bullets: an enemy that none overlaps is still in the list afterwards, whatever else was hit or respawned |
| Collisions.PlayerPassLives | script.js:132-139 | the player pass costs exactly one life and one explosion per removed enemy, flags the ship destroyed exactly when it removed one (or it already was), and leaves score, level, bullets and the ship's position |
| Collisions.PlayerPassNeedsContact | script.js:133 | with no enemy overlapping the ship, the player pass changes nothing at all |
| Collisions.PlayerPassOnlyContact | script.js:133-137 | every enemy the player pass removes strictly overlaps the ship: an enemy that does not is still in the list afterwards |
| Collisions.StaleBulletIndex | script.js:116-120 | one bullet can destroy two enemies in one pass, scoring 20, while its second splice removes a different bullet |
| Frame.TickScoreNeverDrops | script.js:178-181 | a frame never lowers the score or the level, and the score moves in multiples of 10 |
| Frame.TickLivesNeverRise | script.js:178-181 | a frame never adds a life, and the ship ends it on the field |
| Frame.ClearedFieldStaysClear | script.js:123-127 | a field emptied other than by a bullet stays empty: the frame keeps the enemies empty and the level, score and lives as they were |
| Frame.RestartedFresh | script.js:159-167 | a reset gives score 0, 3 lives, level 1, no bullets, an intact ship at x = 380, and exactly the 40-enemy level-1 wave, with lives left for the loop to run |
| Frame.FiredEffect | script.js:42-44 | firing pushes exactly one 5 by 10 bullet with speed 7 at (x + 17.5, 540) and clears the flag, exactly when the flag is set and the ship intact; otherwise nothing changes; score, lives, level and enemies never change |
| Frame.DoubleBreachBlocksRestart | script.js:34 | a frame with one life left can end at -1 lives; the loop then stops and the restart key is refused |
| Frame.Wave9FirstFrameLocks | script.js:89-101 | when the level-9 wave makes its first move whole (no bullet of the level-up frame hit it, and the ship stood clear of the grid, x >= 520, so the player pass of that frame took none of it), that move breaches its whole last row and splices out 5 of those 10 enemies (each removal skips the next), so from at most 3 lives the frame ends at -2 or below, the loop stops and the `lives === 0` restart guard refuses |
| Frame.RestartExactlyWhenStopped | script.js:183-187 | the corrected guard, lives <= 0, accepts a restart exactly when the loop has stopped, and accepts every state the written guard accepts |

## Left out

- Drawing on the canvas, the game-over screen and `clearRect` are output only: they read the state and never change it.
- The two sounds are foreign calls. They are recorded as the counters `explosions` and `levelUps`.
- Event listeners and the touch buttons only dispatch. The touch buttons' handlers set dx and fire just as `KeyDown` and `KeyUp` do.
- `requestAnimationFrame` scheduling is not modelled. `Tick` is one frame and returns whether the loop would schedule another. The frame run at load time is a `Tick` call after the constructor.
- The 500 ms `setTimeout` delay is not modelled. Its callback is the method `CooldownElapsed`, called whenever the caller decides the time has passed.
- `enemyBullets` is declared and never used.
- Numbers are exact reals, not IEEE doubles. Every value the game produces from its start state is a multiple of 0.5 of modest size, which doubles hold exactly.
- The ship's `y`, `width`, `height` and `speed` never change, so they are constants rather than fields of the player record.
- Each `forEach` callback is a method of its own (`UpdateEnemyAt`, `UpdateBulletAt`, `CollideEnemyAt`, `BulletHit`), called from the loop that captured the length. The enemy and bullet objects are values, so the model has no aliasing between list elements. None exists in the game either: every record is pushed once and never shared.
- Arcade.Game.KeyDown: keeps the restart guard as written (lives exactly 0). The corrected guard is `Frame.RestartAcceptedWhenOver`, which the Findings row below proves right.
- Lives are not claimed to stay non-negative. The game does not keep that, as `Frame.DoubleBreachBlocksRestart` shows.

## Findings

| source | as written | input that shows it | evidently intended | confidence | as-written member | corrected member |
|---|---|---|---|---|---|---|
| script.js:34 | restart is accepted only when `lives === 0`, while the loop stops whenever `lives > 0` fails | a game whose level-9 wave makes its first move whole: the wave's last row reaches past the bottom edge, its first move removes 5 of those 10 enemies, and lives fall from at most 3 to at most -2 (a smaller hand-built input is `Frame.DoubleBreachBlocksRestart`: three enemies at y = 570 with one life left end at -1) | accept the restart whenever the loop has stopped, that is, lives <= 0 | high; not executed | Frame.Wave9FirstFrameLocks | Frame.RestartExactlyWhenStopped |
