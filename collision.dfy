/**
 * Tile queries and axis-by-axis collision resolution over a level grid. The
 * level's `TileMap` and the older inner `TileMap` of `GameView` run the same
 * code, so both use this module: `'#'` cells are solid on every side, `'^'`
 * cells are one-way platforms that only catch a body falling onto the top 6
 * pixels of the cell.
 */
module Collision {
  import opened Numerics
  import opened Geometry
  import opened Grid
  import PB = PhysicsBody

  // ---------------------------------------------------------------------------
  // Cell queries
  // ---------------------------------------------------------------------------

  /** `isSolidAt(col, row)`: false off the grid, otherwise whether the cell is `'#'`. */
  predicate IsSolidAt(g: Grid, cols: int, rows: int, col: int, row: int)
    requires WellFormed(g, cols, rows)
  {
    InGrid(col, row, cols, rows) && g[row][col] == '#'
  }

  /** `isOneWayAt(col, row)`: false off the grid, otherwise whether the cell is `'^'`. */
  predicate IsOneWayAt(g: Grid, cols: int, rows: int, col: int, row: int)
    requires WellFormed(g, cols, rows)
  {
    InGrid(col, row, cols, rows) && g[row][col] == '^'
  }

  /** `isSolidAtPx(px, py)`: the cell found by Kotlin's truncating `Int` division. */
  predicate IsSolidAtPx(g: Grid, cols: int, rows: int, tile: int, px: int, py: int)
    requires WellFormed(g, cols, rows) && tile > 0
  {
    IsSolidAt(g, cols, rows, TruncDiv(px, tile), TruncDiv(py, tile))
  }

  /** A solid cell and a one-way cell never coincide. */
  lemma SolidNotOneWay(g: Grid, cols: int, rows: int, col: int, row: int)
    requires WellFormed(g, cols, rows)
    ensures !(IsSolidAt(g, cols, rows, col, row) && IsOneWayAt(g, cols, rows, col, row))
    ensures !InGrid(col, row, cols, rows) ==> !IsSolidAt(g, cols, rows, col, row) && !IsOneWayAt(g, cols, rows, col, row)
  {
  }

  /**
   * For pixels inside the map, `isSolidAtPx` tells whether the pixel lies in a
   * solid cell. Truncation sends the 31 pixels left of (or above) the map to
   * column (row) 0, so those pixels read the first column (row).
   */
  lemma SolidAtPxMeaning(g: Grid, cols: int, rows: int, tile: int, px: int, py: int)
    requires WellFormed(g, cols, rows) && tile > 0
    ensures 0 <= px && 0 <= py ==>
      (IsSolidAtPx(g, cols, rows, tile, px, py) <==>
        exists col, row :: IsSolidAt(g, cols, rows, col, row) && PixelInCell(px, py, col, row, tile))
    ensures -tile < px < 0 ==> (IsSolidAtPx(g, cols, rows, tile, px, py) <==> IsSolidAtPx(g, cols, rows, tile, 0, py))
    ensures -tile < py < 0 ==> (IsSolidAtPx(g, cols, rows, tile, px, py) <==> IsSolidAtPx(g, cols, rows, tile, px, 0))
  {
    if 0 <= px && 0 <= py {
      var c, r := TruncDiv(px, tile), TruncDiv(py, tile);
      assert PixelInCell(px, py, c, r, tile);
      forall col, row | IsSolidAt(g, cols, rows, col, row) && PixelInCell(px, py, col, row, tile)
        ensures IsSolidAtPx(g, cols, rows, tile, px, py)
      {
        DivUnique(px, tile, col, px - col * tile);
        DivUnique(px, tile, c, px - c * tile);
        DivUnique(py, tile, row, py - row * tile);
        DivUnique(py, tile, r, py - r * tile);
      }
    }
    if -tile < px < 0 {
      assert TruncDiv(px, tile) == 0 by { DivUnique(-px, tile, 0, -px); }
    }
    if -tile < py < 0 {
      assert TruncDiv(py, tile) == 0 by { DivUnique(-py, tile, 0, -py); }
    }
  }

  predicate PixelInCell(px: int, py: int, col: int, row: int, tile: int)
  {
    col * tile <= px < col * tile + tile && row * tile <= py < row * tile + tile
  }

  // ---------------------------------------------------------------------------
  // Rectangle against cells
  // ---------------------------------------------------------------------------

  /** The pixel rectangle of a cell. */
  function CellRect(col: int, row: int, tile: int): RectF
  {
    RectF((col * tile) as real, (row * tile) as real, ((col + 1) * tile) as real, ((row + 1) * tile) as real)
  }

  /** The 6-pixel band at the top of a cell that catches a falling body. */
  function Platform(col: int, row: int, tile: int): RectF
  {
    var rx := (col * tile) as real;
    var ry := (row * tile) as real;
    RectF(rx, ry, rx + tile as real, ry + 6.0)
  }

  /** The foot of `r` is inside the band and `r` overlaps it horizontally. */
  predicate OnPlatform(p: RectF, r: RectF)
  {
    r.bottom > p.top && r.bottom < p.bottom && r.right > p.left && r.left < p.right
  }

  predicate SolidCellHit(g: Grid, cols: int, rows: int, tile: int, r: RectF, col: int, row: int)
    requires WellFormed(g, cols, rows)
  {
    IsSolidAt(g, cols, rows, col, row) && Overlap(CellRect(col, row, tile), r)
  }

  predicate OneWayCellHit(g: Grid, cols: int, rows: int, tile: int, r: RectF, col: int, row: int)
    requires WellFormed(g, cols, rows)
  {
    IsOneWayAt(g, cols, rows, col, row) && OnPlatform(Platform(col, row, tile), r)
  }

  /** Some solid cell of the grid strictly overlaps `r` on both axes. */
  ghost predicate SolidHit(g: Grid, cols: int, rows: int, tile: int, r: RectF)
    requires WellFormed(g, cols, rows)
  {
    exists col, row :: SolidCellHit(g, cols, rows, tile, r, col, row)
  }

  /** Some one-way cell of the grid has the foot of `r` in its top band. */
  ghost predicate OneWayHit(g: Grid, cols: int, rows: int, tile: int, r: RectF)
    requires WellFormed(g, cols, rows)
  {
    exists col, row :: OneWayCellHit(g, cols, rows, tile, r, col, row)
  }

  /** The first and last cell index the scan window covers between `lo` and `hi`. */
  function WindowLo(lo: real, tile: int): int
    requires tile > 0
  {
    TruncDiv(Trunc(lo), tile) - 1
  }

  function WindowHi(hi: real, tile: int): int
    requires tile > 0
  {
    TruncDiv(Trunc(hi), tile) + 1
  }

  /**
   * The one-cell margin of the scan window is enough: a cell `k >= 0` whose
   * span `[k * tile, (k + 1) * tile]` strictly overlaps `(lo, hi)` lies
   * between the window's ends, whatever the signs of `lo` and `hi`.
   */
  lemma AxisWindow(k: int, tile: int, lo: real, hi: real)
    requires tile > 0 && 0 <= k
    requires (k * tile) as real < hi
    requires ((k + 1) * tile) as real > lo
    ensures WindowLo(lo, tile) <= k <= WindowHi(hi, tile)
  {
    MulNonNeg(k, tile);
    var hiT := Trunc(hi);
    assert k * tile <= hiT;
    var q := TruncDiv(hiT, tile);
    assert k * tile < (q + 1) * tile by { assert (q + 1) * tile == q * tile + tile; }
    MulLtCancel(k, q + 1, tile);
    var loT := Trunc(lo);
    if 0.0 <= lo {
      var p := TruncDiv(loT, tile);
      assert p * tile < (k + 1) * tile;
      MulLtCancel(p, k + 1, tile);
    }
  }

  /** Every cell that hits `r` lies in the scan window of `r`. */
  lemma SolidInWindow(g: Grid, cols: int, rows: int, tile: int, r: RectF, col: int, row: int)
    requires WellFormed(g, cols, rows) && tile > 0
    requires SolidCellHit(g, cols, rows, tile, r, col, row)
    ensures WindowLo(r.left, tile) <= col <= WindowHi(r.right, tile)
    ensures WindowLo(r.top, tile) <= row <= WindowHi(r.bottom, tile)
  {
    AxisWindow(col, tile, r.left, r.right);
    AxisWindow(row, tile, r.top, r.bottom);
  }

  /**
   * The same for one-way cells, for a rectangle that is not upside down and a
   * tile at least as tall as the band.
   */
  lemma OneWayInWindow(g: Grid, cols: int, rows: int, tile: int, r: RectF, col: int, row: int)
    requires WellFormed(g, cols, rows) && 6 <= tile
    requires r.top <= r.bottom
    requires OneWayCellHit(g, cols, rows, tile, r, col, row)
    ensures WindowLo(r.left, tile) <= col <= WindowHi(r.right, tile)
    ensures WindowLo(r.top, tile) <= row <= WindowHi(r.bottom, tile)
  {
    assert (col * tile) as real + tile as real == ((col + 1) * tile) as real by {
      assert (col + 1) * tile == col * tile + tile;
    }
    assert (row * tile) as real + tile as real == ((row + 1) * tile) as real by {
      assert (row + 1) * tile == row * tile + tile;
    }
    AxisWindow(col, tile, r.left, r.right);
    AxisWindow(row, tile, r.top, r.bottom);
  }

  /**
   * `collidesSolid`: scans the cells from one before to one after the
   * rectangle's truncated corners and stops at the first solid cell that
   * strictly overlaps it.
   */
  method CollidesSolid(g: Grid, cols: int, rows: int, tile: int, r: RectF) returns (hit: bool)
    requires WellFormed(g, cols, rows) && tile > 0
    ensures hit <==> SolidHit(g, cols, rows, tile, r)
  {
    var l := WindowLo(r.left, tile);
    var t := WindowLo(r.top, tile);
    var rr := WindowHi(r.right, tile);
    var b := WindowHi(r.bottom, tile);
    var y := t;
    while y <= b
      invariant t <= y
      invariant forall col, row :: l <= col <= rr && t <= row < y ==> !SolidCellHit(g, cols, rows, tile, r, col, row)
    {
      var x := l;
      while x <= rr
        invariant l <= x
        invariant forall col :: l <= col < x ==> !SolidCellHit(g, cols, rows, tile, r, col, y)
      {
        if IsSolidAt(g, cols, rows, x, y) {
          var cell := CellRect(x, y, tile);
          if cell.left < r.right && cell.right > r.left && cell.top < r.bottom && cell.bottom > r.top {
            assert SolidCellHit(g, cols, rows, tile, r, x, y);
            return true;
          }
        }
        x := x + 1;
      }
      y := y + 1;
    }
    forall col, row | SolidCellHit(g, cols, rows, tile, r, col, row)
      ensures false
    {
      SolidInWindow(g, cols, rows, tile, r, col, row);
    }
    return false;
  }

  /**
   * `collidesOneWayFromAbove`: the same window scan for one-way cells. A hit
   * it reports is always real; it finds every hit when the rectangle is not
   * upside down (every body has a non-negative height) and tiles are at least
   * 6 pixels tall.
   */
  method CollidesOneWayFromAbove(g: Grid, cols: int, rows: int, tile: int, r: RectF) returns (hit: bool)
    requires WellFormed(g, cols, rows) && tile > 0
    ensures hit ==> OneWayHit(g, cols, rows, tile, r)
    ensures r.top <= r.bottom && 6 <= tile ==> (hit <==> OneWayHit(g, cols, rows, tile, r))
  {
    var l := WindowLo(r.left, tile);
    var t := WindowLo(r.top, tile);
    var rr := WindowHi(r.right, tile);
    var b := WindowHi(r.bottom, tile);
    var y := t;
    while y <= b
      invariant t <= y
      invariant forall col, row :: l <= col <= rr && t <= row < y ==> !OneWayCellHit(g, cols, rows, tile, r, col, row)
    {
      var x := l;
      while x <= rr
        invariant l <= x
        invariant forall col :: l <= col < x ==> !OneWayCellHit(g, cols, rows, tile, r, col, y)
      {
        if IsOneWayAt(g, cols, rows, x, y) {
          var plat := Platform(x, y, tile);
          var footInside := r.bottom > plat.top && r.bottom < plat.bottom;
          var horizontalOverlap := r.right > plat.left && r.left < plat.right;
          if footInside && horizontalOverlap {
            assert OneWayCellHit(g, cols, rows, tile, r, x, y);
            return true;
          }
        }
        x := x + 1;
      }
      y := y + 1;
    }
    if r.top <= r.bottom && 6 <= tile {
      forall col, row | OneWayCellHit(g, cols, rows, tile, r, col, row)
        ensures false
      {
        OneWayInWindow(g, cols, rows, tile, r, col, row);
      }
    }
    return false;
  }

  // ---------------------------------------------------------------------------
  // Movement
  // ---------------------------------------------------------------------------

  /**
   * Where the horizontal pass puts a blocked body: moving right, one pixel
   * left of the tile line at or before its truncated right edge; otherwise at
   * the tile line after its truncated left edge.
   */
  function PushX(hb: RectF, vx: real, w: real, tile: int): real
    requires tile > 0
  {
    if vx > 0.0 then (TruncDiv(Trunc(hb.right), tile) * tile) as real - w - 1.0
    else ((TruncDiv(Trunc(hb.left), tile) + 1) * tile) as real
  }

  /** Where the vertical pass puts a body that hit something. */
  function SnapY(vb: RectF, vy: real, h: real, tile: int, hitSolid: bool): real
    requires tile > 0
  {
    if vy > 0.0 then Trunc(vb.bottom - FRem(vb.bottom, tile as real)) as real - h - 0.1
    else if vy < 0.0 && hitSolid then Trunc(vb.top - FRem(vb.top, tile as real) + tile as real) as real
    else vb.top
  }

  /**
   * Pushed back from a wall while moving right, the body's right edge ends
   * one pixel before a tile line that is not past its intended right edge.
   */
  lemma PushLeftMeaning(hb: RectF, w: real, tile: int)
    requires tile > 0 && 0.0 <= hb.right
    ensures var line := TruncDiv(Trunc(hb.right), tile) * tile;
      line % tile == 0 && line as real <= hb.right && PushX(hb, 1.0, w, tile) + w == line as real - 1.0
  {
    var q := TruncDiv(Trunc(hb.right), tile);
    DivUnique(q * tile, tile, q, 0);
  }

  /**
   * Pushed out to the right, the body's left edge sits on the tile line just
   * after its truncated left edge.
   */
  lemma PushRightMeaning(hb: RectF, vx: real, w: real, tile: int)
    requires tile > 0 && 0.0 <= hb.left && vx <= 0.0
    ensures var line := (TruncDiv(Trunc(hb.left), tile) + 1) * tile;
      line % tile == 0 && hb.left < line as real <= hb.left + tile as real
      && PushX(hb, vx, w, tile) == line as real
  {
    var q := TruncDiv(Trunc(hb.left), tile);
    DivUnique((q + 1) * tile, tile, q + 1, 0);
    assert (q + 1) * tile == q * tile + tile;
  }

  /** `(v - v % tile).toInt()` for `v >= 0` is the tile line at or above `v`. */
  lemma SnapDown(v: real, tile: int)
    requires tile > 0 && 0.0 <= v
    ensures var line := Trunc(v - FRem(v, tile as real));
      line as real == v - FRem(v, tile as real)
      && line % tile == 0 && line as real <= v < line as real + tile as real
  {
    var m := tile as real;
    var q := Trunc(v / m);
    TruncScaled(v, m);
    assert v - FRem(v, m) == (q as real) * m;
    assert (q as real) * m == (q * tile) as real;
    assert Trunc((q * tile) as real) == q * tile;
    DivUnique(q * tile, tile, q, 0);
  }

  /**
   * Landing with `vy > 0`: the body's bottom ends 0.1 above the tile line at
   * or above its intended bottom.
   */
  lemma LandingMeaning(vb: RectF, vy: real, h: real, tile: int, hitSolid: bool)
    requires tile > 0 && 0.0 <= vb.bottom && vy > 0.0
    ensures var line := Trunc(vb.bottom - FRem(vb.bottom, tile as real));
      line % tile == 0 && line as real <= vb.bottom < line as real + tile as real
      && SnapY(vb, vy, h, tile, hitSolid) + h == line as real - 0.1
  {
    SnapDown(vb.bottom, tile);
  }

  /**
   * Hitting a ceiling with `vy < 0`: the body's top moves to the tile line
   * below its intended top.
   */
  lemma CeilingMeaning(vb: RectF, vy: real, h: real, tile: int)
    requires tile > 0 && 0.0 <= vb.top && vy < 0.0
    ensures var line := Trunc(vb.top - FRem(vb.top, tile as real) + tile as real);
      line % tile == 0 && vb.top < line as real <= vb.top + tile as real
      && SnapY(vb, vy, h, tile, true) == line as real
  {
    var m := tile as real;
    var down := Trunc(vb.top - FRem(vb.top, m));
    SnapDown(vb.top, tile);
    assert vb.top - FRem(vb.top, m) == down as real;
    assert Trunc(down as real + m) == down + tile;
    DivUnique(down + tile, tile, down / tile + 1, 0);
  }

  /** The horizontal pass of `moveAndCollide`: move by `vx`, or snap against the solid cell hit and stop. */
  method MoveX(g: Grid, cols: int, rows: int, tile: int, e: PB.Body)
    requires WellFormed(g, cols, rows) && tile > 0
    modifies e`x, e`vx
    ensures var hb := BoundsAt(old(e.x) + old(e.vx), e.y, e.w, e.h);
      if SolidHit(g, cols, rows, tile, hb) then e.x == PushX(hb, old(e.vx), e.w, tile) && e.vx == 0.0
      else e.x == old(e.x) + old(e.vx) && e.vx == old(e.vx)
  {
    var nx := e.x + e.vx;
    var hb := BoundsAt(nx, e.y, e.w, e.h);
    var blocked := CollidesSolid(g, cols, rows, tile, hb);
    if blocked {
      nx := PushX(hb, e.vx, e.w, tile);
      e.vx := 0.0;
    }
    e.x := nx;
  }

  /**
   * The vertical pass of `moveAndCollide`: move by `vy`, or stop at a solid cell, or at a
   * one-way cell when not rising; any stop zeroes `vy`, and only a stop while falling sets `canJump`.
   */
  method MoveY(g: Grid, cols: int, rows: int, tile: int, e: PB.Body)
    requires WellFormed(g, cols, rows) && tile > 0
    modifies e`y, e`vy, e`canJump
    ensures var vb := BoundsAt(e.x, old(e.y) + old(e.vy), e.w, e.h);
      var hitSolid := SolidHit(g, cols, rows, tile, vb);
      var oneWay := old(e.vy) >= 0.0 && OneWayHit(g, cols, rows, tile, vb);
      // whenever the band test is exact: a non-negative height and a tile of at least 6 pixels
      (0.0 <= e.h && 6 <= tile ==>
        if hitSolid || oneWay then e.y == SnapY(vb, old(e.vy), e.h, tile, hitSolid) && e.vy == 0.0
        else e.y == old(e.y) + old(e.vy) && e.vy == old(e.vy))
      && (old(e.vy) < 0.0 && !hitSolid ==> e.y == old(e.y) + old(e.vy) && e.vy == old(e.vy))
      && (e.canJump <==> old(e.canJump) || (old(e.vy) > 0.0 && e.vy == 0.0))
  {
    var ny := e.y + e.vy;
    var vb := BoundsAt(e.x, ny, e.w, e.h);
    var hitSolid := CollidesSolid(g, cols, rows, tile, vb);
    var hitOneWayDown := false;
    if e.vy >= 0.0 {
      hitOneWayDown := CollidesOneWayFromAbove(g, cols, rows, tile, vb);
    }
    if hitSolid || hitOneWayDown {
      if e.vy > 0.0 {
        ny := Trunc(vb.bottom - FRem(vb.bottom, tile as real)) as real - e.h - 0.1;
        e.canJump := true;
      } else if e.vy < 0.0 && hitSolid {
        ny := Trunc(vb.top - FRem(vb.top, tile as real) + tile as real) as real;
      }
      e.vy := 0.0;
    }
    e.y := ny;
  }

  /**
   * The move of a body of size `w` x `h` from `m` to `m'`. Horizontally: a
   * solid cell at the moved box pushes it back to the tile line and stops it;
   * otherwise it moves by `vx`. Vertically, from the new column, whenever the
   * band test is exact (a non-negative height and a tile of at least 6
   * pixels): a solid cell, or a one-way cell under a body not rising, snaps it
   * to the cell and stops it; otherwise it moves by `vy`. A rising body that
   * meets no solid cell always moves freely, and the body can jump afterwards
   * exactly when it could before or it was stopped while falling.
   */
  ghost predicate Collided(g: Grid, cols: int, rows: int, tile: int, w: real, h: real, m: PB.Motion, m': PB.Motion)
    requires WellFormed(g, cols, rows) && tile > 0
  {
    (var hb := BoundsAt(m.x + m.vx, m.y, w, h);
      if SolidHit(g, cols, rows, tile, hb) then m'.x == PushX(hb, m.vx, w, tile) && m'.vx == 0.0
      else m'.x == m.x + m.vx && m'.vx == m.vx)
    && (var vb := BoundsAt(m'.x, m.y + m.vy, w, h);
      var hitSolid := SolidHit(g, cols, rows, tile, vb);
      var oneWay := m.vy >= 0.0 && OneWayHit(g, cols, rows, tile, vb);
      (0.0 <= h && 6 <= tile ==>
        if hitSolid || oneWay then m'.y == SnapY(vb, m.vy, h, tile, hitSolid) && m'.vy == 0.0
        else m'.y == m.y + m.vy && m'.vy == m.vy)
      && (m.vy < 0.0 && !hitSolid ==> m'.y == m.y + m.vy && m'.vy == m.vy)
      && (m'.canJump <==> m.canJump || (m.vy > 0.0 && m'.vy == 0.0)))
  }

  /**
   * `moveAndCollide`: moves a body by its velocity, one axis at a time. The
   * horizontal pass stops at solid cells and zeroes `vx`. The vertical pass
   * stops at solid cells, and at one-way cells only when `vy >= 0`; any stop
   * zeroes `vy`, and only a stop while falling (`vy > 0`) sets `canJump`.
   */
  method MoveAndCollide(g: Grid, cols: int, rows: int, tile: int, e: PB.Body)
    requires WellFormed(g, cols, rows) && tile > 0
    modifies e
    ensures Collided(g, cols, rows, tile, e.w, e.h, old(e.State()), e.State())
    ensures e.wasJump == old(e.wasJump)
  {
    MoveX(g, cols, rows, tile, e);
    MoveY(g, cols, rows, tile, e);
  }
}
