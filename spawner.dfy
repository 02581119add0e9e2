// The enemy wave: a grid of 10 columns and 3 + level rows.

module Spawner {
  import opened Geometry
  import opened Entities

  const Cols: int := 10
  const EnemySize: int := 40
  const Padding: int := 10
  const OffsetTop: int := 30
  const OffsetLeft: int := 30

  /** Number of rows for a level; the row loop runs zero times when 3 + level <= 0. */
  function Rows(level: int): nat
  {
    if 3 + level > 0 then 3 + level else 0
  }

  /** Every enemy of a wave starts with this speed, to the right. */
  function EnemySpeed(level: int): real
  {
    1.0 + level as real * 0.5
  }

  /** The enemy placed in row r, column c. */
  function GridEnemy(level: int, r: int, c: int): Enemy
  {
    Enemy((c * (EnemySize + Padding) + OffsetLeft) as real,
          (r * (EnemySize + Padding) + OffsetTop) as real,
          EnemySize as real, EnemySize as real, EnemySpeed(level))
  }

  /** The wave for a level, in the order the nested row/column loops push it. */
  function Wave(level: int): seq<Enemy>
  {
    seq(Cols * Rows(level), i requires 0 <= i < Cols * Rows(level) => GridEnemy(level, i / Cols, i % Cols))
  }

  /** Enemies added by the waves for levels from + 1 up to to. */
  function WaveTotal(from: int, to: int): nat
    decreases to - from
  {
    if to <= from then 0 else WaveTotal(from, to - 1) + |Wave(to)|
  }

  lemma DivModTen(r: int, c: int)
    requires 0 <= c < Cols
    ensures (Cols * r + c) / Cols == r && (Cols * r + c) % Cols == c
  {
  }

  /** A wave for level >= 1 has 10 * (3 + level) enemies, each 40 by 40 at its grid cell,
      with speed 1 + level / 2. */
  lemma WaveShape(level: int, r: int, c: int)
    requires level >= 1 && 0 <= r < 3 + level && 0 <= c < 10
    ensures |Wave(level)| == 10 * (3 + level)
    ensures Wave(level)[10 * r + c] == Enemy(30.0 + 50.0 * c as real, 30.0 + 50.0 * r as real, 40.0, 40.0, 1.0 + level as real * 0.5)
  {
    DivModTen(r, c);
  }

  /** Every enemy of a fresh wave starts inside the side walls. */
  lemma WaveInsideWalls(level: int, i: int)
    requires 0 <= i < |Wave(level)|
    ensures 0.0 <= Wave(level)[i].x && Wave(level)[i].x + Wave(level)[i].width <= CanvasWidth
  {
  }

  /** No two enemies of a fresh wave overlap. */
  lemma WaveDisjoint(level: int, i: int, j: int)
    requires 0 <= i < |Wave(level)| && 0 <= j < |Wave(level)| && i != j
    ensures !Overlaps(Wave(level)[i].Bounds(), Wave(level)[j].Bounds())
  {
    var w := Wave(level);
    assert i == Cols * (i / Cols) + i % Cols;
    assert j == Cols * (j / Cols) + j % Cols;
    if i / Cols == j / Cols {
      assert i % Cols != j % Cols;
    } else {
      assert i / Cols < j / Cols || j / Cols < i / Cols;
    }
  }

  /** The whole wave fits above the bottom edge exactly up to level 8; from level 9 on the
      last row reaches past the bottom edge as soon as it is spawned. */
  lemma WaveFitsIff(level: int)
    requires level >= 1
    ensures (forall i :: 0 <= i < |Wave(level)| ==> Wave(level)[i].y + Wave(level)[i].height <= CanvasHeight)
            <==> level <= 8
  {
    var w := Wave(level);
    var last := |w| - 1;
    DivModTen(2 + level, 9);
    assert last == Cols * (2 + level) + 9;
    if level > 8 {
      assert w[last].y + w[last].height > CanvasHeight;
    } else {
      forall i | 0 <= i < |w|
        ensures w[i].y + w[i].height <= CanvasHeight
      {
        assert i / Cols <= 2 + level;
      }
    }
  }

  /** Waves added over consecutive level ranges add up. */
  lemma {:induction false} WaveTotalSplit(a: int, b: int, c: int)
    requires a <= b <= c
    ensures WaveTotal(a, b) + WaveTotal(b, c) == WaveTotal(a, c)
    decreases c - b
  {
    if b < c {
      WaveTotalSplit(a, b, c - 1);
    }
  }
}
