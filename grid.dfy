/**
 * The ASCII level grid: one `char` per tile, rows top to bottom. A grid is an
 * `Array<CharArray>` in the game; its rows may be longer than `cols` (a level
 * line is padded but never truncated), so a well-formed grid only promises
 * `rows` rows of at least `cols` cells.
 */
module Grid {
  import opened Numerics

  type Grid = seq<seq<char>>

  predicate WellFormed(g: Grid, cols: int, rows: int)
  {
    0 <= cols && rows == |g| && forall r :: 0 <= r < rows ==> cols <= |g[r]|
  }

  predicate InGrid(col: int, row: int, cols: int, rows: int)
  {
    0 <= row < rows && 0 <= col < cols
  }

  /** A cell position, column first as in `(x, y)`. */
  datatype Cell = Cell(col: int, row: int)

  /** A spawn position in pixels, the game's `Pair<Int, Int>`. */
  datatype Spawn = Spawn(x: int, y: int)

  // ---------------------------------------------------------------------------
  // Parsing a level file
  // ---------------------------------------------------------------------------

  /** Kotlin `Char.isWhitespace`: Java whitespace or a Unicode space separator. */
  predicate IsWhitespace(c: char)
  {
    c == ' ' || ('\U{9}' <= c <= '\U{D}') || ('\U{1C}' <= c <= '\U{1F}')
    || c == '\U{A0}' || c == '\U{1680}' || ('\U{2000}' <= c <= '\U{200A}')
    || c == '\U{2028}' || c == '\U{2029}' || c == '\U{202F}' || c == '\U{205F}' || c == '\U{3000}'
  }

  /** `isBlank()`: empty or whitespace only. */
  predicate IsBlank(s: string)
  {
    forall i :: 0 <= i < |s| ==> IsWhitespace(s[i])
  }

  /** `lines.filter { it.isNotBlank() }`. */
  function NonBlank(lines: seq<string>): (r: seq<string>)
    ensures |r| <= |lines|
    ensures forall s :: s in r <==> s in lines && !IsBlank(s)
  {
    if lines == [] then []
    else
      var rest := NonBlank(lines[1..]);
      assert forall s :: s in lines <==> s == lines[0] || s in lines[1..];
      if IsBlank(lines[0]) then rest else [lines[0]] + rest
  }

  /** `padEnd(n, c)`: right-pads with `c` up to length `n`; a longer string is kept whole. */
  function PadEnd(s: string, n: int, c: char): (r: string)
    ensures |r| == Max(|s|, n)
    ensures r[..|s|] == s
    ensures forall i :: |s| <= i < |r| ==> r[i] == c
  {
    if |s| >= n then s else s + seq(n - |s|, _ => c)
  }

  /**
   * The parse half of `loadAsciiOrGenerate`: the non-blank lines, in order,
   * become the first rows; every row is padded with `'.'` to at least `cols`;
   * rows without a line are all `'.'`. Extra lines are dropped.
   */
  function Parse(lines: seq<string>, cols: int, rows: int): (g: Grid)
    requires 0 <= cols && 0 <= rows
    ensures WellFormed(g, cols, rows)
    ensures forall r :: 0 <= r < rows ==>
      |g[r]| == Max(if r < |NonBlank(lines)| then |NonBlank(lines)[r]| else 0, cols)
    ensures forall r, i :: 0 <= r < rows && 0 <= i < |g[r]| ==>
      g[r][i] == (if r < |NonBlank(lines)| && i < |NonBlank(lines)[r]| then NonBlank(lines)[r][i] else '.')
  {
    var ls := NonBlank(lines);
    var g := seq(rows, r requires 0 <= r < rows => PadEnd(if r < |ls| then ls[r] else "", cols, '.'));
    forall r | 0 <= r < rows
      ensures cols <= |g[r]|
    {
      assert g[r] == PadEnd(if r < |ls| then ls[r] else "", cols, '.');
    }
    assert forall r, i :: 0 <= r < rows && 0 <= i < |g[r]| && r < |ls| && i < |ls[r]| ==>
      g[r][i] == g[r][..|ls[r]|][i];
    g
  }

  // ---------------------------------------------------------------------------
  // Markers
  // ---------------------------------------------------------------------------

  /** Row-major order of cells: by row, then by column. */
  predicate Before(a: Cell, b: Cell)
  {
    a.row < b.row || (a.row == b.row && a.col < b.col)
  }

  predicate RowMajor(ps: seq<Cell>)
  {
    forall i, j :: 0 <= i < j < |ps| ==> Before(ps[i], ps[j])
  }

  /** The cells of row `y` among its first `n` columns that hold `c`, left to right. */
  function RowPositions(row: seq<char>, y: int, c: char, n: int): seq<Cell>
    requires 0 <= n <= |row|
  {
    if n == 0 then []
    else RowPositions(row, y, c, n - 1) + (if row[n - 1] == c then [Cell(n - 1, y)] else [])
  }

  /** The cells holding `c` in the first `m` rows and the first `cols` columns, in row-major order. */
  function Positions(g: Grid, c: char, cols: int, m: int): seq<Cell>
    requires 0 <= m <= |g| && 0 <= cols
    requires forall r :: 0 <= r < m ==> cols <= |g[r]|
  {
    if m == 0 then []
    else Positions(g, c, cols, m - 1) + RowPositions(g[m - 1], m - 1, c, cols)
  }

  lemma {:induction false} RowPositionsMembers(row: seq<char>, y: int, c: char, n: int)
    requires 0 <= n <= |row|
    ensures forall p :: p in RowPositions(row, y, c, n) <==> p.row == y && 0 <= p.col < n && row[p.col] == c
    ensures RowMajor(RowPositions(row, y, c, n))
  {
    if n > 0 {
      RowPositionsMembers(row, y, c, n - 1);
      var ps := RowPositions(row, y, c, n - 1);
      var tail: seq<Cell> := if row[n - 1] == c then [Cell(n - 1, y)] else [];
      assert RowPositions(row, y, c, n) == ps + tail;
      assert forall p :: p in ps + tail <==> p in ps || p in tail;
      forall i, j | 0 <= i < j < |ps + tail|
        ensures Before((ps + tail)[i], (ps + tail)[j])
      {
        if j >= |ps| {
          assert (ps + tail)[i] in ps;
        }
      }
    }
  }

  /** Row-major lists of earlier rows followed by a row-major list of row `y` stay row-major. */
  lemma ConcatRowMajor(ps: seq<Cell>, tail: seq<Cell>, y: int)
    requires RowMajor(ps) && RowMajor(tail)
    requires forall p :: p in ps ==> p.row < y
    requires forall p :: p in tail ==> p.row == y
    ensures RowMajor(ps + tail)
  {
    forall i, j | 0 <= i < j < |ps + tail|
      ensures Before((ps + tail)[i], (ps + tail)[j])
    {
      if i < |ps| && j >= |ps| {
        assert (ps + tail)[i] in ps;
        assert (ps + tail)[j] in tail;
      } else if i >= |ps| {
        assert (ps + tail)[i] == tail[i - |ps|];
        assert (ps + tail)[j] == tail[j - |ps|];
      }
    }
  }

  /** `Positions` lists exactly the in-grid cells holding `c`, in row-major order. */
  lemma {:induction false} PositionsMembers(g: Grid, c: char, cols: int, m: int)
    requires 0 <= m <= |g| && 0 <= cols
    requires forall r :: 0 <= r < m ==> cols <= |g[r]|
    ensures forall p :: p in Positions(g, c, cols, m) <==> InGrid(p.col, p.row, cols, m) && g[p.row][p.col] == c
    ensures RowMajor(Positions(g, c, cols, m))
  {
    if m > 0 {
      PositionsMembers(g, c, cols, m - 1);
      RowPositionsMembers(g[m - 1], m - 1, c, cols);
      var ps := Positions(g, c, cols, m - 1);
      var tail := RowPositions(g[m - 1], m - 1, c, cols);
      assert Positions(g, c, cols, m) == ps + tail;
      assert forall p :: p in ps + tail <==> p in ps || p in tail;
      ConcatRowMajor(ps, tail, m - 1);
    }
  }

  lemma FirstTwoIn(ps: seq<Cell>)
    ensures |ps| > 0 ==> ps[0] in ps
    ensures |ps| > 1 ==> ps[1] in ps
  {
  }

  /** When `c` occurs in exactly one cell, `Positions` is that cell alone. */
  lemma PositionsSingleton(g: Grid, c: char, cols: int, m: int, p: Cell)
    requires 0 <= m <= |g| && 0 <= cols
    requires forall r :: 0 <= r < m ==> cols <= |g[r]|
    requires forall col, row :: InGrid(col, row, cols, m) ==> (g[row][col] == c <==> Cell(col, row) == p)
    requires InGrid(p.col, p.row, cols, m)
    ensures Positions(g, c, cols, m) == [p]
  {
    PositionsMembers(g, c, cols, m);
    var ps := Positions(g, c, cols, m);
    assert p in ps;
    FirstTwoIn(ps);
  }

  /** When `c` occurs nowhere, `Positions` is empty. */
  lemma PositionsNone(g: Grid, c: char, cols: int, m: int)
    requires 0 <= m <= |g| && 0 <= cols
    requires forall r :: 0 <= r < m ==> cols <= |g[r]|
    requires forall col, row :: InGrid(col, row, cols, m) ==> g[row][col] != c
    ensures Positions(g, c, cols, m) == []
  {
    PositionsMembers(g, c, cols, m);
    FirstTwoIn(Positions(g, c, cols, m));
  }

  /** Pixel positions of marker cells: `(x * tile, (y + dy) * tile)`. */
  function ToPixels(ps: seq<Cell>, tile: int, dy: int): (r: seq<Spawn>)
    ensures |r| == |ps|
    ensures forall i :: 0 <= i < |ps| ==> r[i] == Spawn(ps[i].col * tile, (ps[i].row + dy) * tile)
  {
    seq(|ps|, i requires 0 <= i < |ps| => Spawn(ps[i].col * tile, (ps[i].row + dy) * tile))
  }

  lemma ToPixelsAppend(a: seq<Cell>, b: seq<Cell>, tile: int, dy: int)
    ensures ToPixels(a + b, tile, dy) == ToPixels(a, tile, dy) + ToPixels(b, tile, dy)
  {
  }

  /** The spawn position of the last marker cell in `ps`, or `d` when there is none: the last one scanned wins. */
  function LastOr(ps: seq<Cell>, tile: int, dy: int, d: Spawn): Spawn
  {
    if ps == [] then d else Spawn(ps[|ps| - 1].col * tile, (ps[|ps| - 1].row + dy) * tile)
  }

  lemma LastOrAppend(a: seq<Cell>, b: seq<Cell>, tile: int, dy: int, d: Spawn)
    ensures LastOr(a + b, tile, dy, d) == LastOr(b, tile, dy, LastOr(a, tile, dy, d))
  {
    if b != [] {
      assert (a + b)[|a + b| - 1] == b[|b| - 1];
    }
  }
}
