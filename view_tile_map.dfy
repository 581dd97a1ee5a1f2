/**
 * The older level kept inside `GameView` (its inner `TileMap`): always
 * generated, with the ground on the second-to-last row, and scanned for the
 * `'P'`, `'E'` and `'B'` markers, which stay in the grid. Its tile queries and
 * collision tests are the `Collision` module applied to `grid`.
 */
module ViewTileMap {
  import opened Grid
  import Col = Collision
  import MapGen

  /** The positions the inner `scanSpecials` records. */
  datatype Marks = Marks(playerStart: Spawn, spawnPoints: seq<Spawn>, bossStart: Spawn)

  /** The positions before the scan. */
  function Initial(cols: int, rows: int, tile: int): Marks
  {
    Marks(Spawn(0, 0), [], Spawn((cols - 6) * tile, (rows - 4) * tile))
  }

  /** What one cell adds to the recorded positions. */
  function ScanCell(s: Marks, ch: char, x: int, y: int, tile: int): Marks
  {
    if ch == 'P' then s.(playerStart := Spawn(x * tile, (y - 1) * tile))
    else if ch == 'E' then s.(spawnPoints := s.spawnPoints + [Spawn(x * tile, (y - 1) * tile)])
    else if ch == 'B' then s.(bossStart := Spawn(x * tile, (y - 2) * tile))
    else s
  }

  /** The scan of the first `n` cells of row `y`. */
  function ScanRow(s: Marks, row: seq<char>, y: int, n: int, tile: int): Marks
    requires 0 <= n <= |row|
  {
    if n == 0 then s else ScanCell(ScanRow(s, row, y, n - 1, tile), row[n - 1], n - 1, y, tile)
  }

  /** The scan of the first `m` rows, `cols` cells each. */
  function ScanRows(s: Marks, g: Grid, cols: int, m: int, tile: int): Marks
    requires 0 <= m <= |g| && 0 <= cols
    requires forall r :: 0 <= r < m ==> cols <= |g[r]|
  {
    if m == 0 then s else ScanRow(ScanRows(s, g, cols, m - 1, tile), g[m - 1], m - 1, cols, tile)
  }

  /** The start position a `'P'` or `'B'` marker sets. */
  function Start(s: Marks, c: char): Spawn
  {
    if c == 'P' then s.playerStart else s.bossStart
  }

  /** How many rows above its cell a marker's position lies (negated). */
  function Lift(c: char): int
  {
    if c == 'B' then -2 else -1
  }

  lemma ScanCellStart(s: Marks, ch: char, x: int, y: int, tile: int, c: char)
    requires c == 'P' || c == 'B'
    ensures Start(ScanCell(s, ch, x, y, tile), c)
      == if ch == c then Spawn(x * tile, (y + Lift(c)) * tile) else Start(s, c)
  {
  }

  /** Scanning part of a row appends the row's `'E'` cells, in order and in pixels, to `spawnPoints`. */
  lemma {:induction false} ScanRowSpawns(s: Marks, row: seq<char>, y: int, n: int, tile: int)
    requires 0 <= n <= |row|
    ensures ScanRow(s, row, y, n, tile).spawnPoints == s.spawnPoints + ToPixels(RowPositions(row, y, 'E', n), tile, -1)
  {
    if n > 0 {
      ScanRowSpawns(s, row, y, n - 1, tile);
      var e: seq<Cell> := if row[n - 1] == 'E' then [Cell(n - 1, y)] else [];
      ToPixelsAppend(RowPositions(row, y, 'E', n - 1), e, tile, -1);
    }
  }

  /** Scanning part of a row leaves `c`'s start at the row's last cell holding `c`, if any. */
  lemma {:induction false} ScanRowStart(s: Marks, row: seq<char>, y: int, n: int, tile: int, c: char)
    requires 0 <= n <= |row| && (c == 'P' || c == 'B')
    ensures Start(ScanRow(s, row, y, n, tile), c) == LastOr(RowPositions(row, y, c, n), tile, Lift(c), Start(s, c))
  {
    if n > 0 {
      ScanRowStart(s, row, y, n - 1, tile, c);
      ScanCellStart(ScanRow(s, row, y, n - 1, tile), row[n - 1], n - 1, y, tile, c);
      var tail: seq<Cell> := if row[n - 1] == c then [Cell(n - 1, y)] else [];
      LastOrAppend(RowPositions(row, y, c, n - 1), tail, tile, Lift(c), Start(s, c));
    }
  }

  /** A whole-grid scan: `spawnPoints` gains every `'E'` cell in row-major order, one tile above the marker. */
  lemma {:induction false} ScanRowsSpawns(s: Marks, g: Grid, cols: int, m: int, tile: int)
    requires 0 <= m <= |g| && 0 <= cols
    requires forall r :: 0 <= r < m ==> cols <= |g[r]|
    ensures ScanRows(s, g, cols, m, tile).spawnPoints == s.spawnPoints + ToPixels(Positions(g, 'E', cols, m), tile, -1)
  {
    if m > 0 {
      ScanRowsSpawns(s, g, cols, m - 1, tile);
      ScanRowSpawns(ScanRows(s, g, cols, m - 1, tile), g[m - 1], m - 1, cols, tile);
      ToPixelsAppend(Positions(g, 'E', cols, m - 1), RowPositions(g[m - 1], m - 1, 'E', cols), tile, -1);
    }
  }

  /** A whole-grid scan: `c`'s start comes from the last cell holding `c` in row-major order, if any. */
  lemma {:induction false} ScanRowsStart(s: Marks, g: Grid, cols: int, m: int, tile: int, c: char)
    requires 0 <= m <= |g| && 0 <= cols
    requires forall r :: 0 <= r < m ==> cols <= |g[r]|
    requires c == 'P' || c == 'B'
    ensures Start(ScanRows(s, g, cols, m, tile), c) == LastOr(Positions(g, c, cols, m), tile, Lift(c), Start(s, c))
  {
    if m > 0 {
      ScanRowsStart(s, g, cols, m - 1, tile, c);
      ScanRowStart(ScanRows(s, g, cols, m - 1, tile), g[m - 1], m - 1, cols, tile, c);
      LastOrAppend(Positions(g, c, cols, m - 1), RowPositions(g[m - 1], m - 1, c, cols), tile, Lift(c), Start(s, c));
    }
  }

  /** The sizes `generateMap` can lay out without indexing off the grid. */
  predicate Fits(cols: int, rows: int)
  {
    10 <= cols && 3 <= rows && (cols > 20 ==> 15 <= rows) && (cols > 180 ==> 7 <= rows)
  }

  class TileMap {
    const tile: int
    const cols: int
    const rows: int
    const pixelWidth: real
    const pixelHeight: real
    const grid: Grid
    var playerStart: Spawn
    var spawnPoints: seq<Spawn>
    var bossStart: Spawn

    function Recorded(): Marks
      reads this
    {
      Marks(playerStart, spawnPoints, bossStart)
    }

    /** The generated level, ground on row `rows - 2`, and the positions its markers gave. */
    ghost predicate Valid()
      reads this
    {
      0 < tile && Fits(cols, rows)
      && MapGen.Generated(grid, rows, cols, rows - 2) && WellFormed(grid, cols, rows)
      && Recorded() == ScanRows(Initial(cols, rows, tile), grid, cols, rows, tile)
    }

    constructor (tile: int, cols: int, rows: int)
      requires 0 < tile && Fits(cols, rows)
      ensures this.tile == tile && this.cols == cols && this.rows == rows
      ensures pixelWidth == (cols * tile) as real && pixelHeight == (rows * tile) as real
      ensures Valid()
    {
      this.tile, this.cols, this.rows := tile, cols, rows;
      pixelWidth, pixelHeight := (cols * tile) as real, (rows * tile) as real;
      var g := MapGen.GenerateMap(rows, cols, rows - 2);
      grid := g;
      playerStart, spawnPoints, bossStart := Spawn(0, 0), [], Spawn((cols - 6) * tile, (rows - 4) * tile);
      new;
      ScanSpecials();
    }

    /** The inner `scanSpecials`: records `'P'`, `'E'` and `'B'` cells in row-major order and leaves the grid as it is. */
    method ScanSpecials()
      requires WellFormed(grid, cols, rows)
      modifies this
      ensures Recorded() == ScanRows(old(Recorded()), grid, cols, rows, tile)
    {
      ghost var s0 := Recorded();
      var y := 0;
      while y < rows
        invariant 0 <= y <= rows
        invariant Recorded() == ScanRows(s0, grid, cols, y, tile)
      {
        var x := 0;
        while x < cols
          invariant 0 <= x <= cols
          invariant Recorded() == ScanRow(ScanRows(s0, grid, cols, y, tile), grid[y], y, x, tile)
        {
          var ch := grid[y][x];
          if ch == 'P' {
            playerStart := Spawn(x * tile, (y - 1) * tile);
          } else if ch == 'E' {
            spawnPoints := spawnPoints + [Spawn(x * tile, (y - 1) * tile)];
          } else if ch == 'B' {
            bossStart := Spawn(x * tile, (y - 2) * tile);
          }
          x := x + 1;
        }
        y := y + 1;
      }
    }

    /** `isSolidAt`: never true off the grid, and never together with a one-way cell. */
    predicate IsSolidAt(col: int, row: int)
      reads this
      requires 0 < tile && WellFormed(grid, cols, rows)
      ensures IsSolidAt(col, row) ==> InGrid(col, row, cols, rows) && !IsOneWayAt(col, row)
    {
      Col.IsSolidAt(grid, cols, rows, col, row)
    }

    /** `isOneWayAt`: never true off the grid. */
    predicate IsOneWayAt(col: int, row: int)
      reads this
      requires 0 < tile && WellFormed(grid, cols, rows)
      ensures IsOneWayAt(col, row) ==> InGrid(col, row, cols, rows)
    {
      Col.IsOneWayAt(grid, cols, rows, col, row)
    }

    /** `isSolidAtPx`: for a pixel inside the map, whether its cell is solid; the tile left of column 0 reads column 0. */
    predicate IsSolidAtPx(px: int, py: int)
      reads this
      requires 0 < tile && WellFormed(grid, cols, rows)
      ensures 0 <= px && 0 <= py ==> (IsSolidAtPx(px, py) <==> IsSolidAt(px / tile, py / tile))
      ensures -tile < px < 0 ==> (IsSolidAtPx(px, py) <==> Col.IsSolidAtPx(grid, cols, rows, tile, 0, py))
    {
      Col.SolidAtPxMeaning(grid, cols, rows, tile, px, py);
      Col.IsSolidAtPx(grid, cols, rows, tile, px, py)
    }
  }

  /**
   * The generated level scanned: the player starts two tiles in, one tile
   * above its marker on the row above the ground, unless the boss marker
   * overwrote it (12 columns).
   */
  lemma GeneratedPlayerStart(m: TileMap)
    requires m.Valid()
    ensures m.cols != 12 ==> m.playerStart == Spawn(2 * m.tile, (m.rows - 4) * m.tile)
    ensures m.cols == 12 ==> m.playerStart == Spawn(0, 0)
  {
    var g, cols, rows := m.grid, m.cols, m.rows;
    ScanRowsStart(Initial(cols, rows, m.tile), g, cols, rows, m.tile, 'P');
    if cols != 12 {
      PositionsSingleton(g, 'P', cols, rows, Cell(2, rows - 3));
    } else {
      PositionsNone(g, 'P', cols, rows);
    }
  }

  /** The boss starts ten tiles from the right end, two tiles above its marker on the row above the ground. */
  lemma GeneratedBossStart(m: TileMap)
    requires m.Valid()
    ensures m.bossStart == Spawn((m.cols - 10) * m.tile, (m.rows - 5) * m.tile)
  {
    var g, cols, rows := m.grid, m.cols, m.rows;
    ScanRowsStart(Initial(cols, rows, m.tile), g, cols, rows, m.tile, 'B');
    PositionsSingleton(g, 'B', cols, rows, Cell(cols - 10, rows - 3));
  }

  /** The enemy spawns are the generator's enemy slots, in row-major order, one tile above each marker. */
  lemma GeneratedSpawnPoints(m: TileMap)
    requires m.Valid()
    ensures m.spawnPoints == ToPixels(Positions(m.grid, 'E', m.cols, m.rows), m.tile, -1)
    ensures forall p :: p in Positions(m.grid, 'E', m.cols, m.rows) <==>
      InGrid(p.col, p.row, m.cols, m.rows) && MapGen.EnemySlot(p.row, p.col, m.rows - 2, m.cols)
    ensures RowMajor(Positions(m.grid, 'E', m.cols, m.rows))
  {
    ScanRowsSpawns(Initial(m.cols, m.rows, m.tile), m.grid, m.cols, m.rows, m.tile);
    PositionsMembers(m.grid, 'E', m.cols, m.rows);
  }
}
