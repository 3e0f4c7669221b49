/** The playing field: a Height x Width grid of colour codes (0 empty, 1..7 a locked
    piece's colour), collision tests, locking a piece into the grid and clearing full rows. */
module Boards {
  import opened Shapes
  import opened Pieces

  /** Rows top to bottom; each row left to right. */
  type Grid = seq<seq<int>>

  /** h rows of exactly w cells each. */
  predicate Shaped(g: Grid, w: int, h: int)
  {
    |g| == h && forall r :: 0 <= r < |g| ==> |g[r]| == w
  }

  /** Every cell holds 0 (empty) or a piece colour 1..7. */
  predicate ColorsInRange(g: Grid)
  {
    forall r, c :: 0 <= r < |g| && 0 <= c < |g[r]| ==> 0 <= g[r][c] <= 7
  }

  /** A fresh row of w empty cells. */
  function EmptyRow(w: nat): (row: seq<int>)
    ensures |row| == w && forall x :: 0 <= x < w ==> row[x] == 0
  {
    seq(w, _ => 0)
  }

  /** k empty rows of width w. */
  function EmptyRows(k: nat, w: nat): (g: Grid)
    ensures Shaped(g, w, k) && ColorsInRange(g)
    ensures forall r :: 0 <= r < k ==> g[r] == EmptyRow(w)
  {
    seq(k, _ => EmptyRow(w))
  }

  /** The board coordinate (x, y) cannot take a cell: it is left or right of the
      board, above row 0, below the last row, or occupied. */
  predicate Blocked(g: Grid, w: int, h: int, x: int, y: int)
    requires Shaped(g, w, h)
  {
    x < 0 || x >= w || y < 0 || y >= h || g[y][x] != 0
  }

  /** Some cell of the footprint, placed at (px, py), is blocked. */
  predicate Collides(g: Grid, w: int, h: int, cells: seq<Cell>, px: int, py: int)
    requires Shaped(g, w, h)
  {
    exists i :: 0 <= i < |cells| && Blocked(g, w, h, px + cells[i].x, py + cells[i].y)
  }

  /** Some cell of the footprint, placed at (px, py), lands on (x, y). */
  predicate Covers(cells: seq<Cell>, px: int, py: int, x: int, y: int)
  {
    exists i :: 0 <= i < |cells| && px + cells[i].x == x && py + cells[i].y == y
  }

  /** The grid after writing `color` into every in-bounds cell of the footprint at
      (px, py), in list order; cells off the grid are skipped. */
  function Lock(g: Grid, w: int, h: int, cells: seq<Cell>, px: int, py: int, color: int): (r: Grid)
    requires Shaped(g, w, h)
    ensures Shaped(r, w, h)
    ensures forall y, x :: 0 <= y < h && 0 <= x < w ==>
      r[y][x] == if Covers(cells, px, py, x, y) then color else g[y][x]
    decreases |cells|
  {
    if cells == [] then g
    else
      var last := cells[|cells| - 1];
      var prev := Lock(g, w, h, cells[..|cells| - 1], px, py, color);
      var x, y := px + last.x, py + last.y;
      assert forall cx, cy :: Covers(cells, px, py, cx, cy) <==>
        Covers(cells[..|cells| - 1], px, py, cx, cy) || (cx == x && cy == y) by {
        forall cx, cy | Covers(cells, px, py, cx, cy)
          ensures Covers(cells[..|cells| - 1], px, py, cx, cy) || (cx == x && cy == y)
        {
          var i :| 0 <= i < |cells| && px + cells[i].x == cx && py + cells[i].y == cy;
          if i < |cells| - 1 { assert cells[..|cells| - 1][i] == cells[i]; }
        }
        forall cx, cy | Covers(cells[..|cells| - 1], px, py, cx, cy)
          ensures Covers(cells, px, py, cx, cy)
        {
          var i :| 0 <= i < |cells| - 1 && px + cells[..|cells| - 1][i].x == cx
            && py + cells[..|cells| - 1][i].y == cy;
          assert cells[..|cells| - 1][i] == cells[i];
        }
        assert px + cells[|cells| - 1].x == x && py + cells[|cells| - 1].y == y;
      }
      if 0 <= x < w && 0 <= y < h then prev[y := prev[y][x := color]] else prev
  }

  /** Locking colours in 1..7 keeps every cell in 0..7. */
  lemma LockKeepsColors(g: Grid, w: int, h: int, cells: seq<Cell>, px: int, py: int, color: int)
    requires Shaped(g, w, h) && ColorsInRange(g) && 1 <= color <= 7
    ensures ColorsInRange(Lock(g, w, h, cells, px, py, color))
  {
  }

  /** A row is full when none of its cells is empty; a row of width 0 is vacuously full. */
  predicate Full(row: seq<int>)
  {
    forall x :: 0 <= x < |row| ==> row[x] != 0
  }

  /** The number of full rows. */
  function CountFull(g: Grid): (n: nat)
    ensures n <= |g|
  {
    if g == [] then 0 else CountFull(g[..|g| - 1]) + (if Full(g[|g| - 1]) then 1 else 0)
  }

  /** The rows that are not full, in their original order. */
  function Kept(g: Grid): (r: Grid)
    ensures |r| + CountFull(g) == |g|
  {
    if g == [] then []
    else
      var rest := Kept(g[..|g| - 1]);
      if Full(g[|g| - 1]) then rest else rest + [g[|g| - 1]]
  }

  /** The kept rows are rows of the grid, and none of them is full. */
  lemma {:induction false} KeptRows(g: Grid)
    ensures forall i :: 0 <= i < |Kept(g)| ==> !Full(Kept(g)[i]) && Kept(g)[i] in g
  {
    if g != [] {
      var front := g[..|g| - 1];
      KeptRows(front);
      var rest := Kept(front);
      forall i | 0 <= i < |Kept(g)| ensures !Full(Kept(g)[i]) && Kept(g)[i] in g {
        if i < |rest| {
          assert Kept(g)[i] == rest[i];
          var k :| 0 <= k < |front| && front[k] == rest[i];
          assert g[k] == rest[i];
        }
      }
    }
  }

  /** Counting and filtering distribute over concatenation. */
  lemma {:induction false} KeptAppend(a: Grid, b: Grid)
    ensures Kept(a + b) == Kept(a) + Kept(b)
    ensures CountFull(a + b) == CountFull(a) + CountFull(b)
    decreases |b|
  {
    if b == [] {
      assert a + b == a;
    } else {
      var b' := b[..|b| - 1];
      assert (a + b)[..|a + b| - 1] == a + b';
      assert (a + b)[|a + b| - 1] == b[|b| - 1];
      KeptAppend(a, b');
    }
  }

  /** Filtering a row followed by more rows. */
  lemma KeptPrepend(row: seq<int>, s: Grid)
    ensures Kept([row] + s) == (if Full(row) then [] else [row]) + Kept(s)
    ensures CountFull([row] + s) == (if Full(row) then 1 else 0) + CountFull(s)
  {
    KeptAppend([row], s);
    assert [row][..0] == [];
  }

  /** The grid ClearFullLines leaves: as many empty rows as there were full rows, on top
      of the rows that were not full, in their original order. */
  function ClearedGrid(g: Grid, w: nat): Grid
  {
    EmptyRows(CountFull(g), w) + Kept(g)
  }

  /** Each row of a cleared grid is a fresh empty row or a row of the original grid. */
  lemma ClearedRows(g: Grid, w: nat)
    ensures |ClearedGrid(g, w)| == |g|
    ensures forall r :: 0 <= r < CountFull(g) ==> ClearedGrid(g, w)[r] == EmptyRow(w)
    ensures forall r :: CountFull(g) <= r < |g| ==>
      ClearedGrid(g, w)[r] == Kept(g)[r - CountFull(g)]
  {
  }

  /** Clearing keeps the dimensions and the colour range of the grid. */
  lemma ClearedShape(g: Grid, w: nat)
    requires Shaped(g, w, |g|)
    ensures Shaped(ClearedGrid(g, w), w, |g|)
    ensures ColorsInRange(g) ==> ColorsInRange(ClearedGrid(g, w))
  {
    ClearedRows(g, w);
    KeptRows(g);
    var c, n, k := ClearedGrid(g, w), CountFull(g), Kept(g);
    forall r | n <= r < |g| ensures c[r] in g {
      assert c[r] == k[r - n];
    }
  }

  /** With w > 0 no row of the cleared grid is full. */
  lemma ClearedHasNoFullRow(g: Grid, w: nat)
    requires w > 0
    ensures forall r :: 0 <= r < |ClearedGrid(g, w)| ==> !Full(ClearedGrid(g, w)[r])
    ensures CountFull(ClearedGrid(g, w)) == 0
  {
    ClearedRows(g, w);
    KeptRows(g);
    var c, n, k := ClearedGrid(g, w), CountFull(g), Kept(g);
    forall r | 0 <= r < |c| ensures !Full(c[r]) {
      if r < n {
        assert c[r][0] == 0;
      } else {
        assert c[r] == k[r - n];
      }
    }
    NoFullRowsCountZero(c);
  }

  /** A grid without full rows is left as it is. */
  lemma ClearedIdentity(g: Grid, w: nat)
    requires CountFull(g) == 0
    ensures ClearedGrid(g, w) == g
  {
    KeptAll(g);
  }

  /** A grid whose rows are all non-full has no full row to count. */
  lemma {:induction false} NoFullRowsCountZero(g: Grid)
    requires forall r :: 0 <= r < |g| ==> !Full(g[r])
    ensures CountFull(g) == 0
  {
    if g != [] {
      NoFullRowsCountZero(g[..|g| - 1]);
    }
  }

  /** With no full row, filtering keeps every row. */
  lemma {:induction false} KeptAll(g: Grid)
    requires CountFull(g) == 0
    ensures Kept(g) == g
  {
    if g != [] {
      KeptAll(g[..|g| - 1]);
      assert g == g[..|g| - 1] + [g[|g| - 1]];
    }
  }

  /** The grid part-way through the bottom-up scan of ClearFullLines over g: the `c` rows
      removed so far come back as empty rows on top, then the rows g[..j] not yet
      examined, then the non-full rows among those already examined. */
  function ScanGrid(g: Grid, j: nat, c: nat, w: nat): Grid
    requires j <= |g|
  {
    EmptyRows(c, w) + g[..j] + Kept(g[j..])
  }

  /** Before the scan the grid is g; when all rows are examined it is the cleared grid. */
  lemma ScanGridEnds(g: Grid, w: nat)
    ensures ScanGrid(g, |g|, 0, w) == g
    ensures ScanGrid(g, 0, CountFull(g), w) == ClearedGrid(g, w)
  {
    assert g[..|g|] == g && g[|g|..] == [] && g[..0] == [] && g[0..] == g;
    assert EmptyRows(0, w) == [];
  }

  /** The row under examination is g[j - 1], or, once every original row has been
      examined, one of the empty rows on top, which is never full. */
  lemma ClearStepRow(g: Grid, j: nat, c: nat, w: nat, y: int)
    requires j <= |g| && w > 0
    requires if j > 0 then y == c + j - 1 else 0 <= y < c
    ensures 0 <= y < |ScanGrid(g, j, c, w)|
    ensures j > 0 ==> ScanGrid(g, j, c, w)[y] == g[j - 1]
    ensures j == 0 ==> !Full(ScanGrid(g, j, c, w)[y])
  {
    var grid := ScanGrid(g, j, c, w);
    if j == 0 {
      assert grid[y] == EmptyRow(w);
      assert grid[y][0] == 0;
    }
  }

  /** Removing the full row g[j - 1] moves it from the unexamined rows to the empty rows
      on top. */
  lemma ClearStepFull(g: Grid, j: nat, c: nat, w: nat, cur: Grid, y: nat)
    requires 0 < j <= |g| && Full(g[j - 1])
    requires cur == ScanGrid(g, j, c, w) && y == c + j - 1
    ensures y < |cur|
    ensures RemovedRow(cur, y, w) == ScanGrid(g, j - 1, c + 1, w)
    ensures CountFull(g[j - 1..]) == CountFull(g[j..]) + 1
  {
    FullRowDropped(g, j);
    var e := EmptyRows(c, w);
    assert g[..j] == g[..j - 1] + [g[j - 1]];
    RemovedRowSplice(e, g[..j - 1], g[j - 1], Kept(g[j..]), w);
    assert [EmptyRow(w)] + e == EmptyRows(c + 1, w);
  }

  /** Scanning past a full row adds it to the count and not to the kept rows. */
  lemma FullRowDropped(g: Grid, j: nat)
    requires 0 < j <= |g| && Full(g[j - 1])
    ensures Kept(g[j - 1..]) == Kept(g[j..])
    ensures CountFull(g[j - 1..]) == CountFull(g[j..]) + 1
  {
    KeptPrepend(g[j - 1], g[j..]);
    assert g[j - 1..] == [g[j - 1]] + g[j..];
  }

  /** Removing the row that sits between e + a and k. */
  lemma RemovedRowSplice(e: Grid, a: Grid, row: seq<int>, k: Grid, w: nat)
    ensures RemovedRow(e + (a + [row]) + k, |e| + |a|, w) == [EmptyRow(w)] + (e + a) + k
  {
    var s := e + (a + [row]) + k;
    assert s == (e + a) + [row] + k;
    SpliceOut(e + a, row, k);
  }

  /** Cutting the element between p and q out of p + [x] + q. */
  lemma SpliceOut<X>(p: seq<X>, x: X, q: seq<X>)
    ensures (p + [x] + q)[..|p|] == p && (p + [x] + q)[|p| + 1..] == q
  {
  }

  /** A non-full row g[j - 1] passes from the unscanned part to the kept part. */
  lemma ClearStepKeep(g: Grid, j: nat, c: nat, w: nat)
    requires 0 < j <= |g| && !Full(g[j - 1])
    ensures ScanGrid(g, j, c, w) == ScanGrid(g, j - 1, c, w)
    ensures CountFull(g[j - 1..]) == CountFull(g[j..])
  {
    KeptRowMoves(EmptyRows(c, w), g, j);
  }

  /** Moving the non-full row g[j - 1] from the unexamined rows to the kept rows leaves
      the whole grid as it was, whatever rows e sit on top. */
  lemma KeptRowMoves(e: Grid, g: Grid, j: nat)
    requires 0 < j <= |g| && !Full(g[j - 1])
    ensures e + g[..j] + Kept(g[j..]) == e + g[..j - 1] + Kept(g[j - 1..])
    ensures CountFull(g[j - 1..]) == CountFull(g[j..])
  {
    var a, row, k := g[..j - 1], g[j - 1], Kept(g[j..]);
    assert g[j - 1..] == [row] + g[j..];
    KeptPrepend(row, g[j..]);
    assert Kept(g[j - 1..]) == [row] + k;
    assert g[..j] == a + [row];
    Reassociate(e, a, row, k);
  }

  /** Moving an element across the middle of a concatenation. */
  lemma Reassociate<X>(e: seq<X>, a: seq<X>, x: X, k: seq<X>)
    ensures e + (a + [x]) + k == e + a + ([x] + k)
  {
  }

  /** The grid after removeLine(k): row k gone, rows above it one lower, a fresh row on top. */
  function RemovedRow(g: Grid, k: nat, w: nat): Grid
    requires k < |g|
  {
    [EmptyRow(w)] + g[..k] + g[k + 1..]
  }

  /** Some cell of the top row is occupied. */
  predicate TopRowOccupied(g: Grid)
    requires |g| > 0
  {
    exists x :: 0 <= x < |g[0]| && g[0][x] != 0
  }

  /** The board object; its dimensions are fixed when it is made. */
  class Board {
    const width: nat
    const height: nat
    var grid: Grid

    ghost predicate Valid()
      reads this
    {
      Shaped(grid, width, height)
    }

    /** NewBoard: height rows of width empty cells. */
    constructor (width: nat, height: nat)
      ensures this.width == width && this.height == height
      ensures Valid() && grid == EmptyRows(height, width)
    {
      this.width := width;
      this.height := height;
      var rows: Grid := seq(height, _ => []);
      var i := 0;
      while i < height
        invariant 0 <= i <= height && |rows| == height
        invariant forall r :: 0 <= r < i ==> rows[r] == EmptyRow(width)
      {
        rows := rows[i := EmptyRow(width)];
        i := i + 1;
      }
      grid := rows;
    }

    /** Whether the piece, shifted by (offsetX, offsetY), would leave the board or overlap
        an occupied cell. */
    method IsColliding(piece: Piece, offsetX: int, offsetY: int) returns (hit: bool)
      requires Valid() && piece.Valid()
      ensures hit == Collides(grid, width, height, piece.GetCells(), piece.x + offsetX, piece.y + offsetY)
    {
      var cells := piece.GetCells();
      ghost var px, py := piece.x + offsetX, piece.y + offsetY;
      var i := 0;
      while i < |cells|
        invariant 0 <= i <= |cells|
        invariant forall j :: 0 <= j < i ==> !Blocked(grid, width, height, px + cells[j].x, py + cells[j].y)
      {
        var x := piece.x + cells[i].x + offsetX;
        var y := piece.y + cells[i].y + offsetY;
        if x < 0 || x >= width {
          return true;
        }
        if y < 0 || y >= height {
          return true;
        }
        if grid[y][x] != 0 {
          return true;
        }
        i := i + 1;
      }
      return false;
    }

    /** Write the piece's colour into its in-bounds cells; nothing else changes. */
    method LockPiece(piece: Piece)
      requires Valid() && piece.Valid()
      modifies this
      ensures Valid()
      ensures grid == Lock(old(grid), width, height, piece.GetCells(), piece.x, piece.y, piece.color)
    {
      var cells := piece.GetCells();
      var i := 0;
      while i < |cells|
        invariant 0 <= i <= |cells|
        invariant Valid()
        invariant grid == Lock(old(grid), width, height, cells[..i], piece.x, piece.y, piece.color)
      {
        var x := piece.x + cells[i].x;
        var y := piece.y + cells[i].y;
        assert cells[..i + 1][..i] == cells[..i] && cells[..i + 1][i] == cells[i];
        if x >= 0 && x < width && y >= 0 && y < height {
          grid := grid[y := grid[y][x := piece.color]];
        }
        assert grid == Lock(old(grid), width, height, cells[..i + 1], piece.x, piece.y, piece.color);
        i := i + 1;
      }
      assert cells[..|cells|] == cells;
    }

    /** Scan the rows bottom-up, removing each full row and re-examining the row that moves
        into its place; returns the number of rows removed. */
    method ClearFullLines() returns (linesCleared: int)
      requires Valid() && width > 0
      modifies this
      ensures Valid()
      ensures grid == ClearedGrid(old(grid), width)
      ensures linesCleared == CountFull(old(grid))
    {
      ghost var g := grid;
      ghost var j := height;
      linesCleared := 0;
      var y := height - 1;
      ScanGridEnds(g, width);
      while y >= 0
        invariant Valid()
        invariant 0 <= j <= height
        invariant linesCleared == CountFull(g[j..])
        invariant grid == ScanGrid(g, j, linesCleared, width)
        invariant if j > 0 then y == linesCleared + j - 1 else -1 <= y < linesCleared
        decreases j + y + 1
      {
        ClearStepRow(g, j, linesCleared, width, y);
        var full := IsLineFull(y);
        if full {
          ClearStepFull(g, j, linesCleared, width, grid, y);
          ghost var next := ScanGrid(g, j - 1, linesCleared + 1, width);
          RemoveLine(y);
          assert grid == next;
          linesCleared := linesCleared + 1;
          y := y + 1;
          j := j - 1;
        } else if j > 0 {
          ClearStepKeep(g, j, linesCleared, width);
          assert grid == ScanGrid(g, j - 1, linesCleared, width);
          j := j - 1;
        }
        y := y - 1;
      }
      assert g[j..] == g;
    }

    /** Whether every cell of row y is occupied. */
    method IsLineFull(y: int) returns (full: bool)
      requires Valid() && 0 <= y < height
      ensures full == Full(grid[y])
    {
      var x := 0;
      while x < width
        invariant 0 <= x <= width
        invariant forall k :: 0 <= k < x ==> grid[y][k] != 0
      {
        if grid[y][x] == 0 {
          return false;
        }
        x := x + 1;
      }
      return true;
    }

    /** Shift every row above lineY down by one and put a fresh empty row on top. */
    method RemoveLine(lineY: int)
      requires Valid() && 0 <= lineY < height
      modifies this
      ensures Valid()
      ensures grid == RemovedRow(old(grid), lineY, width)
    {
      ghost var g := grid;
      var y := lineY;
      while y > 0
        invariant 0 <= y <= lineY
        invariant grid == g[..y + 1] + g[y..lineY] + g[lineY + 1..]
      {
        assert g[..y + 1] == g[..y] + [g[y]];
        assert g[y - 1..lineY] == [g[y - 1]] + g[y..lineY];
        grid := grid[y := grid[y - 1]];
        y := y - 1;
      }
      assert g[..1] == [g[0]];
      grid := grid[0 := EmptyRow(width)];
    }

    /** Whether some cell of the top row is occupied. */
    method IsGameOver() returns (over: bool)
      requires Valid() && height > 0
      ensures over == TopRowOccupied(grid)
    {
      var x := 0;
      while x < width
        invariant 0 <= x <= width
        invariant forall k :: 0 <= k < x ==> grid[0][k] == 0
      {
        if grid[0][x] != 0 {
          return true;
        }
        x := x + 1;
      }
      return false;
    }
  }
}
