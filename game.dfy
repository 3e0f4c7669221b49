/** The game-state engine: the board, the falling and the next piece, the totals, the
    play status and the frame counter that drives gravity. `Engine` is the value of a
    game and the step functions say what each operation does to it; the class
    `GameState` is the mutable object, and each of its methods is proved to perform the
    corresponding step. The random choice of a new piece's shape is a parameter. */
module Game {
  import opened Shapes
  import opened Pieces
  import opened Boards
  import opened Scoring

  datatype Status = Playing | Paused | GameOver

  /** The value of a game on a board of fixed width and height. */
  datatype Engine = Engine(grid: Grid, current: PieceValue, next: PieceValue,
                           tally: Tally, status: Status, frames: int)
  {
    /** The grid has the board's dimensions and holds colours 0..7, both pieces have an
        in-range rotation and a piece colour, and the totals are consistent. */
    predicate Valid(w: nat, h: nat)
    {
      w > 0 && h > 0 && Shaped(grid, w, h) && ColorsInRange(grid)
      && current.Valid() && 1 <= current.color <= 7
      && next.Valid() && 1 <= next.color <= 7
      && tally.Valid()
    }
  }

  /** The column new pieces appear in. */
  function SpawnX(w: nat): int
  {
    w / 2 - 2
  }

  /** A newly drawn next piece: the drawn shape at the spawn column, row 0, rotation 0. */
  function Spawn(shape: ShapeType, w: nat): (p: PieceValue)
    ensures p.Valid() && 1 <= p.color <= 7
    ensures p == NewPiece(shape, SpawnX(w), 0, 0)
  {
    NewPiece(shape, SpawnX(w), 0, 0)
  }

  /** The game right after NewGameState. */
  function Start(w: nat, h: nat, first: ShapeType, second: ShapeType): (e: Engine)
    requires w > 0 && h > 0
    ensures e.Valid(w, h)
    ensures e.tally == Tally(0, 0, StartDelay) && e.status == Playing && e.frames == 0
  {
    Engine(EmptyRows(h, w), Spawn(first, w), Spawn(second, w), Tally(0, 0, StartDelay), Playing, 0)
  }

  /** Whether the falling piece, shifted by (dx, dy), would collide. */
  predicate Blocks(e: Engine, w: nat, h: nat, dx: int, dy: int)
    requires e.Valid(w, h)
  {
    Collides(e.grid, w, h, e.current.Cells(), e.current.x + dx, e.current.y + dy)
  }

  /** The grid after writing the falling piece into it, before any row is cleared. */
  function LockedGrid(e: Engine, w: nat, h: nat): (g: Grid)
    requires e.Valid(w, h)
    ensures Shaped(g, w, h) && ColorsInRange(g)
  {
    LockKeepsColors(e.grid, w, h, e.current.Cells(), e.current.x, e.current.y, e.current.color);
    Lock(e.grid, w, h, e.current.Cells(), e.current.x, e.current.y, e.current.color)
  }

  /** lockCurrentPiece: lock the falling piece, clear full rows and score them if any,
      promote the next piece, draw a new next piece, and end the game if row 0 is now
      occupied. */
  function LockStep(e: Engine, w: nat, h: nat, spawn: ShapeType): (r: Engine)
    requires e.Valid(w, h)
    ensures r.Valid(w, h)
    ensures r.current == e.next && r.next == Spawn(spawn, w) && r.frames == e.frames
    ensures r.grid == ClearedGrid(LockedGrid(e, w, h), w)
    ensures forall y :: 0 <= y < h ==> !Full(r.grid[y])
    ensures var n := CountFull(LockedGrid(e, w, h));
      r.tally == if n > 0 then AddScore(e.tally, n) else e.tally
    ensures r.status == if TopRowOccupied(r.grid) then GameOver else e.status
    ensures e.tally.score <= r.tally.score && e.tally.lines <= r.tally.lines
    ensures r.tally.delay <= e.tally.delay
  {
    var locked := LockedGrid(e, w, h);
    var n := CountFull(locked);
    var cleared := ClearedGrid(locked, w);
    ClearedShape(locked, w);
    ClearedHasNoFullRow(locked, w);
    Engine(cleared, e.next, Spawn(spawn, w),
           if n > 0 then AddScore(e.tally, n) else e.tally,
           if TopRowOccupied(cleared) then GameOver else e.status,
           e.frames)
  }

  /** An engine assembled from the parts LockStep computes is LockStep's result. */
  lemma LockStepParts(e: Engine, w: nat, h: nat, spawn: ShapeType, r: Engine)
    requires e.Valid(w, h)
    requires r.grid == ClearedGrid(LockedGrid(e, w, h), w)
    requires r.current == e.next && r.next == Spawn(spawn, w) && r.frames == e.frames
    requires var n := CountFull(LockedGrid(e, w, h));
      r.tally == if n > 0 then AddScore(e.tally, n) else e.tally
    requires r.status == if TopRowOccupied(r.grid) then GameOver else e.status
    ensures r == LockStep(e, w, h, spawn)
  {
  }

  /** applyGravity: move the falling piece one row down, or lock it if it cannot move. */
  function GravityStep(e: Engine, w: nat, h: nat, spawn: ShapeType): (r: Engine)
    requires e.Valid(w, h)
    ensures r.Valid(w, h)
    ensures !Blocks(e, w, h, 0, 1) ==> r == e.(current := Shifted(e.current, 0, 1))
    ensures Blocks(e, w, h, 0, 1) ==> r == LockStep(e, w, h, spawn)
  {
    if Blocks(e, w, h, 0, 1) then LockStep(e, w, h, spawn)
    else e.(current := Shifted(e.current, 0, 1))
  }

  /** Update: nothing unless the game is being played; otherwise count the frame and,
      once the count reaches the gravity delay, reset it and apply gravity. */
  function UpdateStep(e: Engine, w: nat, h: nat, spawn: ShapeType): (r: Engine)
    requires e.Valid(w, h)
    ensures r.Valid(w, h)
    ensures e.status != Playing ==> r == e
    ensures e.status == Playing && e.frames + 1 < e.tally.delay ==> r == e.(frames := e.frames + 1)
    ensures e.status == Playing && e.frames + 1 >= e.tally.delay ==>
      r == GravityStep(e.(frames := 0), w, h, spawn)
    ensures e.tally.score <= r.tally.score && e.tally.lines <= r.tally.lines
    ensures MinDelay <= r.tally.delay <= e.tally.delay <= StartDelay
    ensures r.status != e.status ==> e.status == Playing && r.status == GameOver
  {
    if e.status != Playing then e
    else if e.frames + 1 >= e.tally.delay then GravityStep(e.(frames := 0), w, h, spawn)
    else e.(frames := e.frames + 1)
  }

  /** Below the floor every footprint collides: its cells have non-negative offsets. */
  lemma FloorBlocks(g: Grid, w: nat, h: nat, cells: seq<Cell>, px: int, py: int)
    requires Shaped(g, w, h) && WellFormedState(cells) && py >= h
    ensures Collides(g, w, h, cells, px, py)
  {
    assert Blocked(g, w, h, px + cells[0].x, py + cells[0].y);
  }

  /** The row a hard drop from row y leaves the piece on: the first row from y down
      on which one more row down would collide. */
  function RestRow(g: Grid, w: nat, h: nat, cells: seq<Cell>, x: int, y: int): (r: int)
    requires Shaped(g, w, h) && WellFormedState(cells)
    ensures y <= r && Collides(g, w, h, cells, x, r + 1)
    ensures forall k :: y < k <= r ==> !Collides(g, w, h, cells, x, k)
    decreases h - y
  {
    if y + 1 >= h then
      FloorBlocks(g, w, h, cells, x, y + 1);
      y
    else if Collides(g, w, h, cells, x, y + 1) then y
    else RestRow(g, w, h, cells, x, y + 1)
  }

  /** The first-collision row is unique: a row from which the piece can fall from y to r
      without colliding but not one row further is RestRow. */
  lemma RestRowUnique(g: Grid, w: nat, h: nat, cells: seq<Cell>, x: int, y: int, r: int)
    requires Shaped(g, w, h) && WellFormedState(cells)
    requires y <= r && Collides(g, w, h, cells, x, r + 1)
    requires forall k :: y < k <= r ==> !Collides(g, w, h, cells, x, k)
    ensures RestRow(g, w, h, cells, x, y) == r
  {
    var q := RestRow(g, w, h, cells, x, y);
  }

  /** HardDrop: move the falling piece straight down to its resting row. The piece stays
      the falling piece, one row above its first collision; it locks on the next gravity
      step. Nothing else changes. */
  function HardDropStep(e: Engine, w: nat, h: nat): (r: Engine)
    requires e.Valid(w, h)
    ensures r.Valid(w, h) && Blocks(r, w, h, 0, 1)
    ensures r == e.(current := r.current)
    ensures r.current == e.current.(y := r.current.y) && e.current.y <= r.current.y
    ensures forall k :: e.current.y < k <= r.current.y ==>
      !Collides(e.grid, w, h, e.current.Cells(), e.current.x, k)
  {
    var c := e.current;
    e.(current := c.(y := RestRow(e.grid, w, h, c.Cells(), c.x, c.y)))
  }

  /** On an empty 10 x 20 board a square dropped from row 0 rests on row 17: its cells sit
      one and two rows below the piece's row, so they fill rows 18 and 19. */
  lemma SquareHardDropRow()
    ensures var g := EmptyRows(20, 10); var cells := NewPiece(O, 4, 0, 0).Cells();
      RestRow(g, 10, 20, cells, 4, 0) == 17
  {
    var g := EmptyRows(20, 10);
    var cells := NewPiece(O, 4, 0, 0).Cells();
    assert cells == [Cell(1, 1), Cell(2, 1), Cell(1, 2), Cell(2, 2)];
    forall k | 0 < k <= 17 ensures !Collides(g, 10, 20, cells, 4, k) {
      forall i | 0 <= i < 4 ensures !Blocked(g, 10, 20, 4 + cells[i].x, k + cells[i].y) {
        assert g[k + cells[i].y] == EmptyRow(10);
      }
    }
    assert Blocked(g, 10, 20, 4 + cells[2].x, 18 + cells[2].y);
    RestRowUnique(g, 10, 20, cells, 4, 0, 17);
  }

  /** The walls for a square at row 0 of an empty 10 x 20 board: its cells sit one and two
      columns right of the piece's column, so from column 0 it can still move left (to
      column -1), while from column 8 it cannot move right. */
  lemma SquareAtTheWalls()
    ensures var g := EmptyRows(20, 10); var cells := NewPiece(O, 0, 0, 0).Cells();
      !Collides(g, 10, 20, cells, -1, 0) && Collides(g, 10, 20, cells, 9, 0)
  {
    var g := EmptyRows(20, 10);
    var cells := NewPiece(O, 0, 0, 0).Cells();
    assert cells == [Cell(1, 1), Cell(2, 1), Cell(1, 2), Cell(2, 2)];
    forall i | 0 <= i < 4 ensures !Blocked(g, 10, 20, -1 + cells[i].x, cells[i].y) {
      assert g[cells[i].y] == EmptyRow(10);
    }
    assert Blocked(g, 10, 20, 9 + cells[1].x, cells[1].y);
  }

  /** The game object. The board and the two pieces are separate objects; the falling
      piece is moved and rotated in place. */
  class GameState {
    var board: Board
    var current: Piece
    var next: Piece
    var score: int
    var linesCleared: int
    var status: Status
    var frameCount: int
    var gravityDelay: int

    /** The value of the game. */
    function Snapshot(): Engine
      reads this, board, current, next
    {
      Engine(board.grid, current.Value(), next.Value(),
             Tally(score, linesCleared, gravityDelay), status, frameCount)
    }

    ghost predicate Valid()
      reads this, board, current, next
    {
      board.Valid() && current != next && Snapshot().Valid(board.width, board.height)
    }

    /** The level: lines cleared divided by ten. */
    function Level(): (level: int)
      reads this
      requires linesCleared >= 0
      ensures level >= 0 && 10 * level <= linesCleared < 10 * level + 10
    {
      Scoring.Level(linesCleared)
    }

    /** NewGameState: an empty board, both pieces at the spawn column on row 0, zero
        totals, the starting gravity delay, playing. */
    constructor (width: nat, height: nat, first: ShapeType, second: ShapeType)
      requires width > 0 && height > 0
      ensures Valid() && fresh(board) && fresh(current) && fresh(next)
      ensures board.width == width && board.height == height
      ensures Snapshot() == Start(width, height, first, second)
    {
      board := new Board(width, height);
      current := new Piece(first, width / 2 - 2, 0, 0);
      next := new Piece(second, width / 2 - 2, 0, 0);
      score := 0;
      linesCleared := 0;
      status := Playing;
      frameCount := 0;
      gravityDelay := StartDelay;
    }

    method Pause()
      modifies this`status
      ensures status == Paused
    {
      status := Paused;
    }

    /** Resume sets Playing whatever the status was, a finished game included. */
    method Resume()
      modifies this`status
      ensures status == Playing
    {
      status := Playing;
    }

    method Update(spawn: ShapeType)
      requires Valid()
      modifies this, board, current
      ensures Valid() && board == old(board)
      ensures Snapshot() == UpdateStep(old(Snapshot()), board.width, board.height, spawn)
      ensures (current == old(current) && next == old(next)) || (current == old(next) && fresh(next))
    {
      if status != Playing {
        return;
      }
      frameCount := frameCount + 1;
      if frameCount >= gravityDelay {
        frameCount := 0;
        ApplyGravity(spawn);
      }
    }

    method ApplyGravity(spawn: ShapeType)
      requires Valid()
      modifies this, board, current
      ensures Valid() && board == old(board)
      ensures Snapshot() == GravityStep(old(Snapshot()), board.width, board.height, spawn)
      ensures (current == old(current) && next == old(next)) || (current == old(next) && fresh(next))
    {
      ghost var e := Snapshot();
      var hit := board.IsColliding(current, 0, 1);
      assert hit == Blocks(e, board.width, board.height, 0, 1);
      if hit {
        LockCurrentPiece(spawn);
      } else {
        current.MoveDown();
        assert Snapshot() == e.(current := Shifted(e.current, 0, 1));
      }
    }

    method LockCurrentPiece(spawn: ShapeType)
      requires Valid()
      modifies this, board
      ensures Valid() && board == old(board)
      ensures Snapshot() == LockStep(old(Snapshot()), board.width, board.height, spawn)
      ensures current == old(next) && fresh(next)
    {
      ghost var e := Snapshot();
      ghost var w, h := board.width, board.height;
      var n := SettleBoard();
      ScoreCleared(n);
      PromoteNext(spawn);
      var over := board.IsGameOver();
      if over {
        status := GameOver;
      }
      LockStepParts(e, w, h, spawn, Snapshot());
    }

    /** The scoring half of lockCurrentPiece: score the cleared rows, if there were any. */
    method ScoreCleared(n: int)
      requires Tally(score, linesCleared, gravityDelay).Valid() && n >= 0
      modifies this`score, this`linesCleared, this`gravityDelay
      ensures var t := old(Tally(score, linesCleared, gravityDelay));
        Tally(score, linesCleared, gravityDelay) == if n > 0 then Scoring.AddScore(t, n) else t
    {
      if n > 0 {
        AddScore(n);
      }
    }

    /** The next piece becomes the falling piece, and a new next piece is drawn. */
    method PromoteNext(spawn: ShapeType)
      modifies this`current, this`next
      ensures current == old(next) && fresh(next) && next.Value() == Spawn(spawn, board.width)
    {
      current := next;
      next := new Piece(spawn, board.width / 2 - 2, 0, 0);
    }

    /** The board half of lockCurrentPiece: write the falling piece into the grid and
        clear the full rows, returning how many there were. */
    method SettleBoard() returns (n: int)
      requires Valid()
      modifies board
      ensures board.Valid()
      ensures var locked := LockedGrid(old(Snapshot()), board.width, board.height);
        board.grid == ClearedGrid(locked, board.width) && n == CountFull(locked)
    {
      ghost var e := Snapshot();
      board.LockPiece(current);
      assert board.grid == LockedGrid(e, board.width, board.height);
      n := board.ClearFullLines();
    }

    method AddScore(n: int)
      requires Tally(score, linesCleared, gravityDelay).Valid() && n >= 0
      modifies this`score, this`linesCleared, this`gravityDelay
      ensures Tally(score, linesCleared, gravityDelay)
        == Scoring.AddScore(old(Tally(score, linesCleared, gravityDelay)), n)
    {
      var points := Points(n);
      var currentLevel := Level();
      score := score + points * (currentLevel + 1);
      linesCleared := linesCleared + n;
      var newLevel := Level();
      if newLevel > currentLevel {
        gravityDelay := if StartDelay - newLevel * 2 > MinDelay then StartDelay - newLevel * 2 else MinDelay;
      }
    }

    /** Move the falling piece one column left unless that collides. */
    method MoveLeft() returns (moved: bool)
      requires Valid()
      modifies current
      ensures Valid()
      ensures moved == !Blocks(old(Snapshot()), board.width, board.height, -1, 0)
      ensures current.Value() == if moved then Shifted(old(current.Value()), -1, 0) else old(current.Value())
    {
      var hit := board.IsColliding(current, -1, 0);
      if hit {
        return false;
      }
      current.MoveLeft();
      return true;
    }

    /** Move the falling piece one column right unless that collides. */
    method MoveRight() returns (moved: bool)
      requires Valid()
      modifies current
      ensures Valid()
      ensures moved == !Blocks(old(Snapshot()), board.width, board.height, 1, 0)
      ensures current.Value() == if moved then Shifted(old(current.Value()), 1, 0) else old(current.Value())
    {
      var hit := board.IsColliding(current, 1, 0);
      if hit {
        return false;
      }
      current.MoveRight();
      return true;
    }

    /** Move the falling piece one row down unless that collides; never locks. */
    method MoveDown() returns (moved: bool)
      requires Valid()
      modifies current
      ensures Valid()
      ensures moved == !Blocks(old(Snapshot()), board.width, board.height, 0, 1)
      ensures current.Value() == if moved then Shifted(old(current.Value()), 0, 1) else old(current.Value())
    {
      var hit := board.IsColliding(current, 0, 1);
      if hit {
        return false;
      }
      current.MoveDown();
      return true;
    }

    /** Rotate the falling piece in place, restoring the old rotation if the rotated
        footprint collides. */
    method Rotate() returns (rotated: bool)
      requires Valid()
      modifies current
      ensures Valid()
      ensures var r := Rotated(old(current.Value()));
        rotated == !Collides(board.grid, board.width, board.height, r.Cells(), r.x, r.y)
      ensures current.Value() == if rotated then Rotated(old(current.Value())) else old(current.Value())
    {
      var saved := current.rotation;
      current.Rotate();
      var hit := board.IsColliding(current, 0, 0);
      if hit {
        current.rotation := saved;
        return false;
      }
      return true;
    }

    /** HardDrop: move the falling piece down while the row below is free. */
    method HardDrop()
      requires Valid()
      modifies current
      ensures Valid()
      ensures Snapshot() == HardDropStep(old(Snapshot()), board.width, board.height)
    {
      ghost var e := Snapshot();
      DropToRest();
      assert current.Value() == HardDropStep(e, board.width, board.height).current;
    }

    /** The loop of HardDrop: the falling piece moves down one row at a time until the
        row below collides, which leaves it on its resting row. */
    method DropToRest()
      requires board.Valid() && current.Valid()
      modifies current
      ensures var p := old(current.Value());
        current.Value() == p.(y := RestRow(board.grid, board.width, board.height, p.Cells(), p.x, p.y))
    {
      ghost var start := current.Value();
      ghost var cells := start.Cells();
      var hit := board.IsColliding(current, 0, 1);
      while !hit
        invariant current.Value() == start.(y := current.y) && start.y <= current.y
        invariant hit == Collides(board.grid, board.width, board.height, cells, start.x, current.y + 1)
        invariant forall k :: start.y < k <= current.y ==>
          !Collides(board.grid, board.width, board.height, cells, start.x, k)
        decreases board.height - current.y
      {
        if current.y + 1 >= board.height {
          FloorBlocks(board.grid, board.width, board.height, cells, current.x, current.y + 1);
        }
        ghost var y := current.y;
        current.MoveDown();
        assert current.Value() == start.(y := y + 1);
        hit := board.IsColliding(current, 0, 1);
      }
      RestRowUnique(board.grid, board.width, board.height, cells, start.x, start.y, current.y);
    }
  }
}
