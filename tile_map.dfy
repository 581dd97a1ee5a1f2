/**
 * The level (`world/TileMap`): a grid loaded from the level file, or
 * generated when the file cannot be read, whose marker cells are turned into
 * spawn positions once at construction. Collision against the grid is the
 * `Collision` module applied to `grid`.
 */
module TileMap {
  import opened Numerics
  import opened Grid
  import C = Constants
  import Col = Collision
  import MapGen
  import opened Wrappers

  /** The positions `scanSpecials` records. */
  datatype Specials = Specials(
    playerStart: Spawn, bossStart: Spawn,
    witches: seq<Spawn>, skeletons: seq<Spawn>, goblins: seq<Spawn>,
    hearts: seq<Spawn>, ammo: seq<Spawn>)

  /** The start positions before any marker is seen, and empty spawn lists. */
  function Initial(cols: int, rows: int, tile: int): Specials
  {
    Specials(Spawn(tile * 2, tile * (rows - 3)), Spawn(tile * (cols - 10), tile * (rows - 3)), [], [], [], [], [])
  }

  /** The markers `scanSpecials` consumes. `'E'` is not one of them. */
  predicate IsMarker(ch: char)
  {
    ch == 'P' || ch == 'B' || ch == 'W' || ch == 'S' || ch == 'G' || ch == 'H' || ch == 'A'
  }

  /** What one cell adds to the recorded positions. */
  function ScanCell(s: Specials, ch: char, x: int, y: int, tile: int): Specials
  {
    if ch == 'P' then s.(playerStart := Spawn(x * tile, (y - 1) * tile))
    else if ch == 'B' then s.(bossStart := Spawn(x * tile, (y - 2) * tile))
    else if ch == 'W' then s.(witches := s.witches + [Spawn(x * tile, y * tile)])
    else if ch == 'S' then s.(skeletons := s.skeletons + [Spawn(x * tile, y * tile)])
    else if ch == 'G' then s.(goblins := s.goblins + [Spawn(x * tile, y * tile)])
    else if ch == 'H' then s.(hearts := s.hearts + [Spawn(x * tile, (y - 1) * tile)])
    else if ch == 'A' then s.(ammo := s.ammo + [Spawn(x * tile, (y - 1) * tile)])
    else s
  }

  /** The scan of the first `n` cells of row `y`. */
  function ScanRow(s: Specials, row: seq<char>, y: int, n: int, tile: int): Specials
    requires 0 <= n <= |row|
  {
    if n == 0 then s else ScanCell(ScanRow(s, row, y, n - 1, tile), row[n - 1], n - 1, y, tile)
  }

  /** The scan of the first `m` rows, `cols` cells each. */
  function ScanRows(s: Specials, g: Grid, cols: int, m: int, tile: int): Specials
    requires 0 <= m <= |g| && 0 <= cols
    requires forall r :: 0 <= r < m ==> cols <= |g[r]|
  {
    if m == 0 then s else ScanRow(ScanRows(s, g, cols, m - 1, tile), g[m - 1], m - 1, cols, tile)
  }

  /** A row with the markers among its first `n` cells turned into `'.'`. */
  function ClearRow(row: seq<char>, n: int): (r: seq<char>)
    ensures |r| == |row|
  {
    seq(|row|, i requires 0 <= i < |row| => if i < n && IsMarker(row[i]) then '.' else row[i])
  }

  /** The markers that append to a spawn list. */
  predicate IsListMarker(c: char)
  {
    c == 'W' || c == 'S' || c == 'G' || c == 'H' || c == 'A'
  }

  /** The spawn list a marker appends to. */
  function Listed(s: Specials, c: char): seq<Spawn>
  {
    match c
    case 'W' => s.witches
    case 'S' => s.skeletons
    case 'G' => s.goblins
    case 'H' => s.hearts
    case 'A' => s.ammo
    case _ => []
  }

  /** The start position a `'P'` or `'B'` marker sets. */
  function Start(s: Specials, c: char): Spawn
  {
    if c == 'P' then s.playerStart else s.bossStart
  }

  /** How many rows above its cell a marker's spawn position lies (negated). */
  function Lift(c: char): int
  {
    if c == 'P' || c == 'H' || c == 'A' then -1 else if c == 'B' then -2 else 0
  }

  lemma ScanCellListed(s: Specials, ch: char, x: int, y: int, tile: int, c: char)
    requires IsListMarker(c)
    ensures Listed(ScanCell(s, ch, x, y, tile), c)
      == Listed(s, c) + (if ch == c then [Spawn(x * tile, (y + Lift(c)) * tile)] else [])
  {
  }

  lemma ScanCellStart(s: Specials, ch: char, x: int, y: int, tile: int, c: char)
    requires c == 'P' || c == 'B'
    ensures Start(ScanCell(s, ch, x, y, tile), c)
      == if ch == c then Spawn(x * tile, (y + Lift(c)) * tile) else Start(s, c)
  {
  }

  /** Scanning part of a row appends that part's cells holding `c`, in pixels, to `c`'s list. */
  lemma {:induction false} ScanRowListed(s: Specials, row: seq<char>, y: int, n: int, tile: int, c: char)
    requires 0 <= n <= |row| && IsListMarker(c)
    ensures Listed(ScanRow(s, row, y, n, tile), c) == Listed(s, c) + ToPixels(RowPositions(row, y, c, n), tile, Lift(c))
  {
    if n > 0 {
      var prev := ScanRow(s, row, y, n - 1, tile);
      ScanRowListed(s, row, y, n - 1, tile, c);
      ScanCellListed(prev, row[n - 1], n - 1, y, tile, c);
      var tail: seq<Cell> := if row[n - 1] == c then [Cell(n - 1, y)] else [];
      ToPixelsAppend(RowPositions(row, y, c, n - 1), tail, tile, Lift(c));
    }
  }

  /** Scanning part of a row leaves `c`'s start at its last cell holding `c`, if any. */
  lemma {:induction false} ScanRowStart(s: Specials, row: seq<char>, y: int, n: int, tile: int, c: char)
    requires 0 <= n <= |row| && (c == 'P' || c == 'B')
    ensures Start(ScanRow(s, row, y, n, tile), c) == LastOr(RowPositions(row, y, c, n), tile, Lift(c), Start(s, c))
  {
    if n > 0 {
      var prev := ScanRow(s, row, y, n - 1, tile);
      ScanRowStart(s, row, y, n - 1, tile, c);
      ScanCellStart(prev, row[n - 1], n - 1, y, tile, c);
      var tail: seq<Cell> := if row[n - 1] == c then [Cell(n - 1, y)] else [];
      LastOrAppend(RowPositions(row, y, c, n - 1), tail, tile, Lift(c), Start(s, c));
    }
  }

  /** A whole-grid scan: `c`'s list gains the grid's cells holding `c`, in row-major order, in pixels. */
  lemma {:induction false} ScanRowsListed(s: Specials, g: Grid, cols: int, m: int, tile: int, c: char)
    requires 0 <= m <= |g| && 0 <= cols
    requires forall r :: 0 <= r < m ==> cols <= |g[r]|
    requires IsListMarker(c)
    ensures Listed(ScanRows(s, g, cols, m, tile), c) == Listed(s, c) + ToPixels(Positions(g, c, cols, m), tile, Lift(c))
  {
    if m > 0 {
      ScanRowsListed(s, g, cols, m - 1, tile, c);
      ScanRowListed(ScanRows(s, g, cols, m - 1, tile), g[m - 1], m - 1, cols, tile, c);
      ToPixelsAppend(Positions(g, c, cols, m - 1), RowPositions(g[m - 1], m - 1, c, cols), tile, Lift(c));
    }
  }

  /** A whole-grid scan: `c`'s start comes from the last cell holding `c` in row-major order, if any. */
  lemma {:induction false} ScanRowsStart(s: Specials, g: Grid, cols: int, m: int, tile: int, c: char)
    requires 0 <= m <= |g| && 0 <= cols
    requires forall r :: 0 <= r < m ==> cols <= |g[r]|
    requires c == 'P' || c == 'B'
    ensures Start(ScanRows(s, g, cols, m, tile), c) == LastOr(Positions(g, c, cols, m), tile, Lift(c), Start(s, c))
  {
    if m > 0 {
      ScanRowsStart(s, g, cols, m - 1, tile, c);
      ScanRowStart(ScanRows(s, g, cols, m - 1, tile), g[m - 1], m - 1, cols, tile, c);
      LastOrAppend(Positions(g, c, cols, m - 1), RowPositions(g[m - 1], m - 1, c, cols), tile, Lift(c), Start(s, c));
    }
  }

  /** One scan step: the cell at `x` is cleared exactly when it holds a marker. */
  lemma ClearRowStep(row: seq<char>, x: int)
    requires 0 <= x < |row|
    ensures ClearRow(row, x)[x] == row[x]
    ensures ClearRow(row, x + 1) == if IsMarker(row[x]) then ClearRow(row, x)[x := '.'] else ClearRow(row, x)
  {
  }

  class TileMap {
    const cols: int
    const rows: int
    const tile: int
    const pixelWidth: real
    const pixelHeight: real
    var grid: Grid
    /** The grid as loaded, before its markers were cleared. */
    ghost var loaded: Grid
    var playerStartX: int
    var playerStartY: int
    var bossStartX: int
    var bossStartY: int
    var witchSpawns: seq<Spawn>
    var skeletonSpawns: seq<Spawn>
    var goblinSpawns: seq<Spawn>
    var heartSpawns: seq<Spawn>
    var ammoSpawns: seq<Spawn>

    function Recorded(): Specials
      reads this
    {
      Specials(Spawn(playerStartX, playerStartY), Spawn(bossStartX, bossStartY),
        witchSpawns, skeletonSpawns, goblinSpawns, heartSpawns, ammoSpawns)
    }

    /** The map after construction: the loaded grid with its markers cleared, and the positions they gave. */
    ghost predicate Valid()
      reads this
    {
      cols == C.WorldCols && rows == C.WorldRows && tile == C.Tile
      && WellFormed(loaded, cols, rows) && |grid| == rows
      && (forall r :: 0 <= r < rows ==> grid[r] == ClearRow(loaded[r], cols))
      && Recorded() == ScanRows(Initial(cols, rows, tile), loaded, cols, rows, tile)
    }

    /**
     * `level` holds the lines of the level file, or `None` when it cannot be
     * read, in which case the map is generated with its ground on the last row.
     */
    constructor (level: Option<seq<string>>)
      ensures Valid()
      ensures pixelWidth == (cols * tile) as real && pixelHeight == (rows * tile) as real
      ensures level.Some? ==> loaded == Parse(level.value, cols, rows)
      ensures level.None? ==> MapGen.Generated(loaded, rows, cols, rows - 1)
    {
      cols, rows, tile := C.WorldCols, C.WorldRows, C.Tile;
      pixelWidth := (C.WorldCols * C.Tile) as real;
      pixelHeight := (C.WorldRows * C.Tile) as real;
      var g: Grid;
      if level.Some? {
        g := Parse(level.value, C.WorldCols, C.WorldRows);
      } else {
        g := MapGen.GenerateMap(C.WorldRows, C.WorldCols, C.WorldRows - 1);
      }
      grid, loaded := g, g;
      playerStartX, playerStartY := C.Tile * 2, C.Tile * (C.WorldRows - 3);
      bossStartX, bossStartY := C.Tile * (C.WorldCols - 10), C.Tile * (C.WorldRows - 3);
      witchSpawns, skeletonSpawns, goblinSpawns, heartSpawns, ammoSpawns := [], [], [], [], [];
      new;
      ScanSpecials();
    }

    /**
     * `scanSpecials`: visits the first `cols` cells of every row in row-major
     * order, records each marker's spawn position and clears the marker cell.
     */
    method ScanSpecials()
      requires WellFormed(grid, cols, rows)
      modifies this
      ensures |grid| == rows && forall r :: 0 <= r < rows ==> grid[r] == ClearRow(old(grid)[r], cols)
      ensures Recorded() == ScanRows(old(Recorded()), old(grid), cols, rows, tile)
      ensures loaded == old(loaded)
    {
      ghost var g0 := grid;
      ghost var s0 := Recorded();
      var y := 0;
      while y < rows
        invariant 0 <= y <= rows && |grid| == rows && loaded == old(loaded)
        invariant forall r :: 0 <= r < y ==> grid[r] == ClearRow(g0[r], cols)
        invariant forall r :: y <= r < rows ==> grid[r] == g0[r]
        invariant Recorded() == ScanRows(s0, g0, cols, y, tile)
      {
        ScanRowOf(y);
        y := y + 1;
      }
    }

    /** The inner loop of `scanSpecials`: row `y`'s first `cols` cells. */
    method ScanRowOf(y: int)
      requires 0 <= y < |grid| && 0 <= cols <= |grid[y]|
      modifies this
      ensures grid == old(grid)[y := ClearRow(old(grid)[y], cols)]
      ensures Recorded() == ScanRow(old(Recorded()), old(grid)[y], y, cols, tile)
      ensures loaded == old(loaded)
    {
      ghost var row0 := grid[y];
      assert ClearRow(row0, 0) == row0;
      var x := 0;
      while x < cols
        invariant 0 <= x <= cols && loaded == old(loaded)
        invariant grid == old(grid)[y := ClearRow(row0, x)]
        invariant Recorded() == ScanRow(old(Recorded()), row0, y, x, tile)
      {
        ClearRowStep(row0, x);
        var ch := grid[y][x];
        if ch == 'P' {
          playerStartX, playerStartY := x * tile, (y - 1) * tile;
          grid := grid[y := grid[y][x := '.']];
        } else if ch == 'B' {
          bossStartX, bossStartY := x * tile, (y - 2) * tile;
          grid := grid[y := grid[y][x := '.']];
        } else if ch == 'W' {
          witchSpawns := witchSpawns + [Spawn(x * tile, y * tile)];
          grid := grid[y := grid[y][x := '.']];
        } else if ch == 'S' {
          skeletonSpawns := skeletonSpawns + [Spawn(x * tile, y * tile)];
          grid := grid[y := grid[y][x := '.']];
        } else if ch == 'G' {
          goblinSpawns := goblinSpawns + [Spawn(x * tile, y * tile)];
          grid := grid[y := grid[y][x := '.']];
        } else if ch == 'H' {
          heartSpawns := heartSpawns + [Spawn(x * tile, (y - 1) * tile)];
          grid := grid[y := grid[y][x := '.']];
        } else if ch == 'A' {
          ammoSpawns := ammoSpawns + [Spawn(x * tile, (y - 1) * tile)];
          grid := grid[y := grid[y][x := '.']];
        }
        x := x + 1;
      }
    }

    /** `isSolidAt`: clearing the markers left every `'#'` of the loaded level in place. */
    predicate IsSolidAt(col: int, row: int)
      reads this
      requires Valid()
      ensures IsSolidAt(col, row) <==> InGrid(col, row, cols, rows) && loaded[row][col] == '#'
    {
      assert WellFormed(grid, cols, rows);
      Col.IsSolidAt(grid, cols, rows, col, row)
    }

    /** `isOneWayAt`: likewise for `'^'`. */
    predicate IsOneWayAt(col: int, row: int)
      reads this
      requires Valid()
      ensures IsOneWayAt(col, row) <==> InGrid(col, row, cols, rows) && loaded[row][col] == '^'
    {
      assert WellFormed(grid, cols, rows);
      Col.IsOneWayAt(grid, cols, rows, col, row)
    }

    /** `isSolidAtPx`: for a pixel inside the map, whether it lies in a `'#'` cell of the loaded level. */
    predicate IsSolidAtPx(px: int, py: int)
      reads this
      requires Valid()
      ensures 0 <= px && 0 <= py ==>
        (IsSolidAtPx(px, py) <==> InGrid(px / tile, py / tile, cols, rows) && loaded[py / tile][px / tile] == '#')
    {
      assert WellFormed(grid, cols, rows);
      Col.IsSolidAtPx(grid, cols, rows, tile, px, py)
    }
  }

  /**
   * The scan turns exactly the in-grid `P`, `B`, `W`, `S`, `G`, `H` and `A`
   * cells into `'.'`; every other cell, `'E'` included, keeps its character.
   */
  lemma ScanClearsMarkers(m: TileMap, col: int, row: int)
    requires m.Valid() && InGrid(col, row, m.cols, m.rows)
    ensures IsMarker(m.loaded[row][col]) ==> m.grid[row][col] == '.'
    ensures !IsMarker(m.loaded[row][col]) ==> m.grid[row][col] == m.loaded[row][col]
    ensures m.loaded[row][col] == 'E' ==> m.grid[row][col] == 'E'
  {
  }

  /**
   * After construction the spawn lists are the marker cells of the loaded
   * level in row-major order, in pixels: witches, skeletons and goblins on
   * their own cell, hearts and ammo one row up.
   */
  lemma SpawnLists(m: TileMap)
    requires m.Valid()
    ensures m.witchSpawns == ToPixels(Positions(m.loaded, 'W', m.cols, m.rows), m.tile, 0)
    ensures m.skeletonSpawns == ToPixels(Positions(m.loaded, 'S', m.cols, m.rows), m.tile, 0)
    ensures m.goblinSpawns == ToPixels(Positions(m.loaded, 'G', m.cols, m.rows), m.tile, 0)
    ensures m.heartSpawns == ToPixels(Positions(m.loaded, 'H', m.cols, m.rows), m.tile, -1)
    ensures m.ammoSpawns == ToPixels(Positions(m.loaded, 'A', m.cols, m.rows), m.tile, -1)
  {
    var s0 := Initial(m.cols, m.rows, m.tile);
    ScanRowsListed(s0, m.loaded, m.cols, m.rows, m.tile, 'W');
    ScanRowsListed(s0, m.loaded, m.cols, m.rows, m.tile, 'S');
    ScanRowsListed(s0, m.loaded, m.cols, m.rows, m.tile, 'G');
    ScanRowsListed(s0, m.loaded, m.cols, m.rows, m.tile, 'H');
    ScanRowsListed(s0, m.loaded, m.cols, m.rows, m.tile, 'A');
  }

  /**
   * After construction the player and boss starts are those of the last
   * `P` and `B` markers in row-major order (one and two rows up), or the
   * defaults when there is none.
   */
  lemma SpawnStarts(m: TileMap)
    requires m.Valid()
    ensures Spawn(m.playerStartX, m.playerStartY)
      == LastOr(Positions(m.loaded, 'P', m.cols, m.rows), m.tile, -1, Spawn(m.tile * 2, m.tile * (m.rows - 3)))
    ensures Spawn(m.bossStartX, m.bossStartY)
      == LastOr(Positions(m.loaded, 'B', m.cols, m.rows), m.tile, -2, Spawn(m.tile * (m.cols - 10), m.tile * (m.rows - 3)))
  {
    var s0 := Initial(m.cols, m.rows, m.tile);
    ScanRowsStart(s0, m.loaded, m.cols, m.rows, m.tile, 'P');
    ScanRowsStart(s0, m.loaded, m.cols, m.rows, m.tile, 'B');
  }

  /**
   * When the level file cannot be read, the generated level puts the player
   * two tiles in and the boss ten tiles from the right end, both standing on
   * the row above the ground.
   */
  lemma GeneratedStarts(m: TileMap)
    requires m.Valid() && MapGen.Generated(m.loaded, m.rows, m.cols, m.rows - 1)
    ensures m.playerStartX == 2 * m.tile && m.playerStartY == (m.rows - 3) * m.tile
    ensures m.bossStartX == (m.cols - 10) * m.tile && m.bossStartY == (m.rows - 4) * m.tile
  {
    SpawnStarts(m);
    var g, cols, rows := m.loaded, m.cols, m.rows;
    PositionsSingleton(g, 'P', cols, rows, Cell(2, rows - 2));
    PositionsSingleton(g, 'B', cols, rows, Cell(cols - 10, rows - 2));
  }

  /**
   * The generated level has no witch, skeleton, goblin, heart or ammo spawns:
   * its enemy markers are `'E'`, which this map does not scan.
   */
  lemma GeneratedNoSpawns(m: TileMap)
    requires m.Valid() && MapGen.Generated(m.loaded, m.rows, m.cols, m.rows - 1)
    ensures m.witchSpawns == [] && m.skeletonSpawns == [] && m.goblinSpawns == []
    ensures m.heartSpawns == [] && m.ammoSpawns == []
  {
    SpawnLists(m);
    var g, cols, rows := m.loaded, m.cols, m.rows;
    assert forall r, c :: InGrid(c, r, cols, rows) ==> g[r][c] in {'.', '#', '^', 'P', 'E', 'B'};
    PositionsNone(g, 'W', cols, rows);
    PositionsNone(g, 'S', cols, rows);
    PositionsNone(g, 'G', cols, rows);
    PositionsNone(g, 'H', cols, rows);
    PositionsNone(g, 'A', cols, rows);
  }
}
