// The playfield, the three kinds of entity and the box-overlap test.

module Geometry {

  /** Playfield size (the canvas is 800 by 600). */
  const CanvasWidth: real := 800.0
  const CanvasHeight: real := 600.0

  /** An axis-aligned box: top-left corner and size. */
  datatype Box = Box(x: real, y: real, width: real, height: real)

  /** The overlap test written out at both collision sites: strict on all four sides,
      so boxes that only touch along an edge do not collide. */
  predicate Overlaps(a: Box, b: Box)
  {
    a.x < b.x + b.width && a.x + a.width > b.x &&
    a.y < b.y + b.height && a.y + a.height > b.y
  }

  /** The point (px, py) lies strictly inside box a. */
  predicate Interior(a: Box, px: real, py: real)
  {
    a.x < px < a.x + a.width && a.y < py < a.y + a.height
  }

  function Max(a: real, b: real): real { if a < b then b else a }
  function Min(a: real, b: real): real { if a < b then a else b }

  /** The four-comparison test means exactly "the two boxes share an interior point". */
  lemma OverlapsIffSharedPoint(a: Box, b: Box)
    requires a.width > 0.0 && a.height > 0.0 && b.width > 0.0 && b.height > 0.0
    ensures Overlaps(a, b) <==> exists px, py :: Interior(a, px, py) && Interior(b, px, py)
  {
    if Overlaps(a, b) {
      var px := (Max(a.x, b.x) + Min(a.x + a.width, b.x + b.width)) / 2.0;
      var py := (Max(a.y, b.y) + Min(a.y + a.height, b.y + b.height)) / 2.0;
      assert Interior(a, px, py) && Interior(b, px, py);
    }
  }
}

module Entities {
  import opened Geometry

  /** Player constants: centred horizontally, 60 above the bottom edge, 40 by 40, 5 per key press. */
  const PlayerStartX: real := CanvasWidth / 2.0 - 20.0
  const PlayerY: real := CanvasHeight - 60.0
  const PlayerWidth: real := 40.0
  const PlayerHeight: real := 40.0
  const PlayerSpeed: real := 5.0
  const StartLives: int := 3

  /** The player record: only the fields the program ever changes are stored. */
  datatype Player = Player(x: real, dx: real, canShoot: bool, isDestroyed: bool)
  {
    function Bounds(): Box { Box(x, PlayerY, PlayerWidth, PlayerHeight) }
  }

  /** An enemy; the sign of speed is its horizontal direction. */
  datatype Enemy = Enemy(x: real, y: real, width: real, height: real, speed: real)
  {
    function Bounds(): Box { Box(x, y, width, height) }
  }

  /** A player bullet; it travels upwards by speed per tick. */
  datatype Bullet = Bullet(x: real, y: real, width: real, height: real, speed: real)
  {
    function Bounds(): Box { Box(x, y, width, height) }
  }

  /** The bullet fired from a player at x: centred on the ship, 5 by 10, speed 7. */
  function Shot(p: Player): Bullet
  {
    Bullet(p.x + PlayerWidth / 2.0 - 2.5, PlayerY, 5.0, 10.0, 7.0)
  }

  /** The whole game state as a value: session counters, the player, both collections,
      and how many explosion and level-up events have been emitted. */
  datatype State = State(
    score: int, lives: int, level: int,
    player: Player, enemies: seq<Enemy>, bullets: seq<Bullet>,
    explosions: nat, levelUps: nat)
}
