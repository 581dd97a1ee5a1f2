/**
 * The fallback level generator. The level's `TileMap` (when no level file can
 * be read) and `GameView`'s inner `TileMap` (always) build the same map; they
 * differ only in the ground row, `rows - 1` for the former and `rows - 2` for
 * the latter, so the ground row is a parameter here.
 */
module MapGen {
  import opened Numerics
  import opened Grid

  /** Exactly `rows` rows of exactly `cols` cells. */
  predicate Dims(g: Grid, cols: int, rows: int)
  {
    |g| == rows && forall r :: 0 <= r < rows ==> |g[r]| == cols
  }

  /** `c` is one of `start, start + step, ...` below `stop`: the values of `start until stop step step`. */
  predicate Stepped(c: int, start: int, stop: int, step: int)
    requires step > 0
  {
    start <= c < stop && (c - start) % step == 0
  }

  /** Advancing a stepped counter by one step adds exactly the counter to the values it has passed. */
  lemma SteppedNext(c: int, start: int, x: int, step: int)
    requires step > 0 && start <= x && (x - start) % step == 0
    ensures Stepped(c, start, x + step, step) <==> Stepped(c, start, x, step) || c == x
  {
    if Stepped(c, start, x + step, step) && c != x && !(c < x) {
      var k := (x - start) / step;
      DivUnique(x - start, step, k, 0);
      var j := (c - start) / step;
      DivUnique(c - start, step, j, 0);
      assert k * step < j * step < (k + 1) * step by { assert (k + 1) * step == k * step + step; }
      MulLtCancel(k, j, step);
      MulLtCancel(j, k + 1, step);
    }
    if c == x {
      DivUnique(x - start, step, (x - start) / step, 0);
    }
  }

  /** Once a stepped counter has reached `stop`, the values it has passed are all those below `stop`. */
  lemma SteppedDone(c: int, start: int, stop: int, x: int, step: int)
    requires step > 0 && start <= x && (x - start) % step == 0
    requires x == start || x - step < stop
    requires stop <= x
    ensures Stepped(c, start, x, step) <==> Stepped(c, start, stop, step)
  {
    if Stepped(c, start, x, step) && stop <= c {
      var k := (x - start) / step;
      DivUnique(x - start, step, k, 0);
      var j := (c - start) / step;
      DivUnique(c - start, step, j, 0);
      assert (k - 1) * step < j * step < k * step by { assert (k - 1) * step == k * step - step; }
      MulLtCancel(k - 1, j, step);
      MulLtCancel(j, k, step);
    }
  }

  /** One cell of a grid replaced. */
  function Put(g: Grid, row: int, col: int, ch: char): (g': Grid)
    requires 0 <= row < |g| && 0 <= col < |g[row]|
    ensures |g'| == |g| && forall r :: 0 <= r < |g| ==> |g'[r]| == |g[r]|
    ensures forall r, c :: 0 <= r < |g| && 0 <= c < |g[r]| ==> g'[r][c] == if r == row && c == col then ch else g[r][c]
  {
    g[row := g[row][col := ch]]
  }

  /** `for (x in start until stop step step) g[row][x] = ch`. */
  method MarkRow(g: Grid, cols: int, row: int, start: int, stop: int, step: int, ch: char) returns (g': Grid)
    requires Dims(g, cols, |g|) && step > 0 && 0 <= start && stop <= cols
    requires start < stop ==> 0 <= row < |g|
    ensures Dims(g', cols, |g|)
    ensures forall r, c {:trigger g'[r][c]} :: 0 <= r < |g| && 0 <= c < cols ==>
      g'[r][c] == if r == row && Stepped(c, start, stop, step) then ch else g[r][c]
  {
    g' := g;
    var x := start;
    while x < stop
      invariant start <= x && (x - start) % step == 0
      invariant x == start || x - step < stop
      invariant Dims(g', cols, |g|)
      invariant forall r, c {:trigger g'[r][c]} :: 0 <= r < |g| && 0 <= c < cols ==>
        g'[r][c] == if r == row && Stepped(c, start, x, step) then ch else g[r][c]
    {
      ghost var prev := g';
      g' := Put(g', row, x, ch);
      forall r, c | 0 <= r < |g| && 0 <= c < cols
        ensures g'[r][c] == if r == row && Stepped(c, start, x + step, step) then ch else g[r][c]
      {
        SteppedNext(c, start, x, step);
        assert prev[r][c] == if r == row && Stepped(c, start, x, step) then ch else g[r][c];
      }
      assert (x + step - start) % step == 0 by { DivUnique(x + step - start, step, (x - start) / step + 1, 0); }
      x := x + step;
    }
    forall c | 0 <= c < cols
      ensures Stepped(c, start, x, step) <==> Stepped(c, start, stop, step)
    {
      SteppedDone(c, start, stop, x, step);
    }
  }

  /** The row of the platform that starts at column `x`. */
  function PlatformRow(x: int, base: int, m: int): int
    requires m > 0
  {
    base + x % m
  }

  /** The column of the `i`-th cell of a platform starting at `x`, held inside the row. */
  function Spot(x: int, i: int, cols: int): int
  {
    Min(cols - 1, x + i)
  }

  /** The columns a platform starting at `x` covers: `min(cols - 1, x + i)` for `i` in `0..len`. */
  predicate Covers(c: int, x: int, len: int, cols: int)
  {
    Min(cols - 1, x) <= c <= Min(cols - 1, x + len)
  }

  /** `for (i in 0..len) g[y][min(cols - 1, x + i)] = '^'`: exactly the covered cells of row `y` become `'^'`. */
  method LayPlatform(g: Grid, cols: int, y: int, x: int, len: int) returns (g': Grid)
    requires Dims(g, cols, |g|) && 1 <= cols && 0 <= y < |g| && 0 <= x && 0 <= len
    ensures Dims(g', cols, |g|)
    ensures forall r, c {:trigger g'[r][c]} :: 0 <= r < |g| && 0 <= c < cols ==>
      g'[r][c] == if r == y && Covers(c, x, len, cols) then '^' else g[r][c]
    ensures forall i :: 0 <= i <= len ==> g'[y][Spot(x, i, cols)] == '^'
  {
    g' := g;
    var i := 0;
    while i <= len
      invariant 0 <= i <= len + 1
      invariant Dims(g', cols, |g|)
      invariant forall r, c {:trigger g'[r][c]} :: 0 <= r < |g| && 0 <= c < cols ==>
        g'[r][c] == if r == y && 0 < i && Covers(c, x, i - 1, cols) then '^' else g[r][c]
      invariant forall i' :: 0 <= i' < i ==> g'[y][Spot(x, i', cols)] == '^'
    {
      g' := Put(g', y, Spot(x, i, cols), '^');
      i := i + 1;
    }
  }

  /** Some platform of the series `start until stop step step`, laid on row `base + x % m`, covers cell `(r, c)`. */
  ghost predicate OnPlatform(r: int, c: int, cols: int, start: int, stop: int, step: int, base: int, m: int, len: int)
    requires step > 0 && m > 0
  {
    exists x :: Stepped(x, start, stop, step) && r == PlatformRow(x, base, m) && Covers(c, x, len, cols)
  }

  /** One more platform laid adds exactly its own cells to those covered. */
  lemma OnPlatformNext(r: int, c: int, cols: int, start: int, x: int, step: int, base: int, m: int, len: int)
    requires step > 0 && m > 0 && start <= x && (x - start) % step == 0
    ensures OnPlatform(r, c, cols, start, x + step, step, base, m, len)
        <==> OnPlatform(r, c, cols, start, x, step, base, m, len) || (r == PlatformRow(x, base, m) && Covers(c, x, len, cols))
  {
    if OnPlatform(r, c, cols, start, x + step, step, base, m, len) {
      var x' :| Stepped(x', start, x + step, step) && r == PlatformRow(x', base, m) && Covers(c, x', len, cols);
      SteppedNext(x', start, x, step);
    }
    if OnPlatform(r, c, cols, start, x, step, base, m, len) {
      var x' :| Stepped(x', start, x, step) && r == PlatformRow(x', base, m) && Covers(c, x', len, cols);
      SteppedNext(x', start, x, step);
    }
    SteppedNext(x, start, x, step);
  }

  /** Once the series has passed `stop`, the cells covered are those of the platforms below `stop`. */
  lemma OnPlatformDone(r: int, c: int, cols: int, start: int, stop: int, x: int, step: int, base: int, m: int, len: int)
    requires step > 0 && m > 0 && start <= x && (x - start) % step == 0
    requires x == start || x - step < stop
    requires stop <= x
    ensures OnPlatform(r, c, cols, start, x, step, base, m, len) <==> OnPlatform(r, c, cols, start, stop, step, base, m, len)
  {
    if OnPlatform(r, c, cols, start, x, step, base, m, len) {
      var x' :| Stepped(x', start, x, step) && r == PlatformRow(x', base, m) && Covers(c, x', len, cols);
      SteppedDone(x', start, stop, x, step);
    }
    if OnPlatform(r, c, cols, start, stop, step, base, m, len) {
      var x' :| Stepped(x', start, stop, step) && r == PlatformRow(x', base, m) && Covers(c, x', len, cols);
      SteppedDone(x', start, stop, x, step);
    }
  }

  /** Laying the platform at `x` over the cells of those before it leaves the cells of those up to `x + step`. */
  lemma LaidNext(g: Grid, before: Grid, after: Grid, cols: int, start: int, x: int, y: int, step: int, base: int, m: int, len: int)
    requires step > 0 && m > 0 && start <= x && (x - start) % step == 0 && y == PlatformRow(x, base, m)
    requires Dims(g, cols, |g|) && Dims(before, cols, |g|) && Dims(after, cols, |g|)
    requires forall r, c {:trigger before[r][c]} :: 0 <= r < |g| && 0 <= c < cols ==>
      before[r][c] == if OnPlatform(r, c, cols, start, x, step, base, m, len) then '^' else g[r][c]
    requires forall r, c {:trigger after[r][c]} :: 0 <= r < |before| && 0 <= c < cols ==>
      after[r][c] == if r == y && Covers(c, x, len, cols) then '^' else before[r][c]
    ensures forall r, c {:trigger after[r][c]} :: 0 <= r < |g| && 0 <= c < cols ==>
      after[r][c] == if OnPlatform(r, c, cols, start, x + step, step, base, m, len) then '^' else g[r][c]
  {
    forall r, c | 0 <= r < |g| && 0 <= c < cols
      ensures after[r][c] == if OnPlatform(r, c, cols, start, x + step, step, base, m, len) then '^' else g[r][c]
    {
      assert before[r][c] == if OnPlatform(r, c, cols, start, x, step, base, m, len) then '^' else g[r][c];
      assert after[r][c] == if r == y && Covers(c, x, len, cols) then '^' else before[r][c];
      OnPlatformNext(r, c, cols, start, x, step, base, m, len);
    }
  }

  /** What the finished series of platforms leaves: only `'^'`, only in its rows, every platform in full. */
  lemma LaidAll(g: Grid, g': Grid, cols: int, start: int, stop: int, x: int, step: int, base: int, m: int, len: int)
    requires step > 0 && m > 0 && start <= x && (x - start) % step == 0
    requires x == start || x - step < stop
    requires stop <= x && 0 <= start && (start < stop ==> 1 <= cols)
    requires Dims(g, cols, |g|) && Dims(g', cols, |g|)
    requires forall r, c {:trigger g'[r][c]} :: 0 <= r < |g| && 0 <= c < cols ==>
      g'[r][c] == if OnPlatform(r, c, cols, start, x, step, base, m, len) then '^' else g[r][c]
    requires forall x' :: Stepped(x', start, stop, step) ==> 0 <= PlatformRow(x', base, m) < |g|
    ensures forall r, c {:trigger g'[r][c]} :: 0 <= r < |g| && 0 <= c < cols ==>
      g'[r][c] == if OnPlatform(r, c, cols, start, stop, step, base, m, len) then '^' else g[r][c]
    ensures forall r, c {:trigger g'[r][c]} :: 0 <= r < |g| && 0 <= c < cols ==>
      g'[r][c] == g[r][c] || (g'[r][c] == '^' && base <= r < base + m)
    ensures forall x', i :: Stepped(x', start, stop, step) && 0 <= i <= len ==>
      g'[PlatformRow(x', base, m)][Spot(x', i, cols)] == '^'
  {
    forall r, c | 0 <= r < |g| && 0 <= c < cols
      ensures g'[r][c] == if OnPlatform(r, c, cols, start, stop, step, base, m, len) then '^' else g[r][c]
    {
      OnPlatformDone(r, c, cols, start, stop, x, step, base, m, len);
    }
    forall r, c | 0 <= r < |g| && 0 <= c < cols && OnPlatform(r, c, cols, start, stop, step, base, m, len)
      ensures base <= r < base + m
    {
      var x' :| Stepped(x', start, stop, step) && r == PlatformRow(x', base, m) && Covers(c, x', len, cols);
    }
    forall x', i | Stepped(x', start, stop, step) && 0 <= i <= len
      ensures g'[PlatformRow(x', base, m)][Spot(x', i, cols)] == '^'
    {
      assert Covers(Spot(x', i, cols), x', len, cols);
      assert 0 <= Spot(x', i, cols) < cols;
    }
  }

  /**
   * `for (x in start until stop step step) { val y = base + x % m; for (i in 0..len) g[y][min(cols - 1, x + i)] = '^' }`:
   * every platform is laid in full, and exactly the cells some platform covers become `'^'`.
   */
  method Platforms(g: Grid, cols: int, start: int, stop: int, step: int, base: int, m: int, len: int) returns (g': Grid)
    requires Dims(g, cols, |g|) && step > 0 && m > 0 && 0 <= start && 0 <= len
    requires start < stop ==> 1 <= cols && 0 <= base && base + m <= |g|
    ensures Dims(g', cols, |g|)
    ensures forall r, c {:trigger g'[r][c]} :: 0 <= r < |g| && 0 <= c < cols ==>
      g'[r][c] == if OnPlatform(r, c, cols, start, stop, step, base, m, len) then '^' else g[r][c]
    ensures forall r, c {:trigger g'[r][c]} :: 0 <= r < |g| && 0 <= c < cols ==>
      g'[r][c] == g[r][c] || (g'[r][c] == '^' && base <= r < base + m)
    ensures forall x, i :: Stepped(x, start, stop, step) && 0 <= i <= len ==>
      g'[PlatformRow(x, base, m)][Spot(x, i, cols)] == '^'
  {
    g' := g;
    var x := start;
    while x < stop
      invariant start <= x && (x - start) % step == 0
      invariant x == start || x - step < stop
      invariant Dims(g', cols, |g|)
      invariant forall r, c {:trigger g'[r][c]} :: 0 <= r < |g| && 0 <= c < cols ==>
        g'[r][c] == if OnPlatform(r, c, cols, start, x, step, base, m, len) then '^' else g[r][c]
    {
      ghost var before := g';
      var y := PlatformRow(x, base, m);
      g' := LayPlatform(g', cols, y, x, len);
      LaidNext(g, before, g', cols, start, x, y, step, base, m, len);
      assert (x + step - start) % step == 0 by { DivUnique(x + step - start, step, (x - start) / step + 1, 0); }
      x := x + step;
    }
    LaidAll(g, g', cols, start, stop, x, step, base, m, len);
  }

  /** Where the generator places an enemy marker: every 80 columns on the row above the ground, every 100 five rows higher. */
  predicate EnemySlot(r: int, c: int, gy: int, cols: int)
  {
    (r == gy - 1 && Stepped(c, 40, cols - 60, 80)) || (r == gy - 5 && Stepped(c, 120, cols - 60, 100))
  }

  /** A cell covered by a platform of either series: 7 cells every 14 columns in rows 10 to 12, 11 cells every 25 columns in rows 6 to 9. */
  ghost predicate PlatformCell(r: int, c: int, cols: int)
  {
    OnPlatform(r, c, cols, 10, cols - 10, 14, 10, 3, 6) || OnPlatform(r, c, cols, 50, cols - 20, 25, 6, 4, 10)
  }

  /** A cell the ground row or the blocks every 7 columns above it fill with `'#'`. */
  predicate BlockCell(r: int, c: int, gy: int)
  {
    r == gy || (r == gy - 1 && c % 7 == 0)
  }

  /** A cell that receives a player, boss or enemy marker. */
  predicate MarkerCell(r: int, c: int, gy: int, cols: int)
  {
    (r == gy - 1 && (c == 2 || c == cols - 10)) || EnemySlot(r, c, gy, cols)
  }

  /**
   * The shape of a generated map: a ground row `gy` of `'#'`, a `'#'` every 7
   * columns on the row above, the platforms as `'^'` over them, then the
   * player marker at column 2 and the boss marker 10 columns from the end of
   * the row above the ground (the boss marker wins when both land on one
   * cell) and enemy markers exactly at their slots; `'.'` everywhere else.
   */
  ghost predicate Generated(g: Grid, rows: int, cols: int, gy: int)
  {
    Dims(g, cols, rows)
    && (forall r, c :: InGrid(c, r, cols, rows) ==> g[r][c] in {'.', '#', '^', 'P', 'E', 'B'})
    && (14 <= gy < rows ==> forall c :: 0 <= c < cols ==> g[gy][c] == '#')
    && (14 <= gy < rows ==> forall c :: 0 <= c < cols && c % 7 == 0 ==> g[gy - 1][c] in {'#', 'P', 'E', 'B'})
    && (forall r, c :: InGrid(c, r, cols, rows) ==> (g[r][c] == 'P' <==> r == gy - 1 && c == 2 && cols != 12))
    && (forall r, c :: InGrid(c, r, cols, rows) ==> (g[r][c] == 'B' <==> r == gy - 1 && c == cols - 10))
    && (forall r, c :: InGrid(c, r, cols, rows) ==> (g[r][c] == 'E' <==> EnemySlot(r, c, gy, cols)))
    && (forall r, c {:trigger g[r][c]} :: InGrid(c, r, cols, rows) ==>
          (g[r][c] == '^' <==> PlatformCell(r, c, cols) && !MarkerCell(r, c, gy, cols)))
    && (forall r, c {:trigger g[r][c]} :: InGrid(c, r, cols, rows) ==>
          (g[r][c] == '#' <==> BlockCell(r, c, gy) && !PlatformCell(r, c, cols) && !MarkerCell(r, c, gy, cols)))
    && (forall r, c {:trigger g[r][c]} :: InGrid(c, r, cols, rows) ==>
          (g[r][c] == '.' <==> !BlockCell(r, c, gy) && !PlatformCell(r, c, cols) && !MarkerCell(r, c, gy, cols)))
  }

  /**
   * `generateMap`: the ground, every seventh block above it, the two series of
   * one-way platforms, then the player, enemy and boss markers, in that order.
   */
  method GenerateMap(rows: int, cols: int, gy: int) returns (g: Grid)
    requires 10 <= cols && 1 <= gy < rows
    requires cols > 20 ==> 13 <= rows
    requires cols > 180 ==> 5 <= gy
    ensures Generated(g, rows, cols, gy)
  {
    var g0 := seq(rows, _ => seq(cols, _ => '.'));
    var g1 := MarkRow(g0, cols, gy, 0, cols, 1, '#');
    var g2 := MarkRow(g1, cols, gy - 1, 0, cols, 7, '#');
    var g3 := Platforms(g2, cols, 10, cols - 10, 14, 10, 3, 6);
    var g4 := Platforms(g3, cols, 50, cols - 20, 25, 6, 4, 10);
    var g5 := Put(g4, gy - 1, 2, 'P');
    var g6 := MarkRow(g5, cols, gy - 1, 40, cols - 60, 80, 'E');
    var g7 := MarkRow(g6, cols, gy - 5, 120, cols - 60, 100, 'E');
    g := Put(g7, gy - 1, cols - 10, 'B');
    forall r, c | InGrid(c, r, cols, rows)
      ensures g[r][c] in {'.', '#', '^', 'P', 'E', 'B'}
      ensures 14 <= gy && r == gy ==> g[r][c] == '#'
      ensures 14 <= gy && r == gy - 1 && c % 7 == 0 ==> g[r][c] in {'#', 'P', 'E', 'B'}
      ensures g[r][c] == 'P' <==> r == gy - 1 && c == 2 && cols != 12
      ensures g[r][c] == 'B' <==> r == gy - 1 && c == cols - 10
      ensures g[r][c] == 'E' <==> EnemySlot(r, c, gy, cols)
      ensures g[r][c] == '^' <==> PlatformCell(r, c, cols) && !MarkerCell(r, c, gy, cols)
      ensures g[r][c] == '#' <==> BlockCell(r, c, gy) && !PlatformCell(r, c, cols) && !MarkerCell(r, c, gy, cols)
      ensures g[r][c] == '.' <==> !BlockCell(r, c, gy) && !PlatformCell(r, c, cols) && !MarkerCell(r, c, gy, cols)
    {
      assert g0[r][c] == '.';
      assert Stepped(c, 0, cols, 1);
      assert g2[r][c] in {'.', '#'};
      assert 14 <= gy && r == gy ==> g2[r][c] == '#';
      assert 14 <= gy && r == gy - 1 && c % 7 == 0 ==> g2[r][c] == '#';
      assert g2[r][c] == if BlockCell(r, c, gy) then '#' else '.';
      assert g4[r][c] == g2[r][c] || (g4[r][c] == '^' && 6 <= r < 13);
      assert g4[r][c] == if PlatformCell(r, c, cols) then '^' else g2[r][c];
      assert g5[r][c] == if r == gy - 1 && c == 2 then 'P' else g4[r][c];
    }
  }
}
