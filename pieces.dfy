/** A piece: a shape kind with its display colour, a board position and a rotation index.
    The class `Piece` is the mutable object the game holds; `PieceValue` is its value,
    used by the specifications. */
module Pieces {
  import opened Shapes
  import opened GoInts

  /** Colour codes of the pieces; 0 on the board means an empty cell. */
  const Red := 1
  const Green := 2
  const Blue := 3
  const Yellow := 4
  const Cyan := 5
  const Magenta := 6
  const Orange := 7
  /** The colour of the landing preview; no shape kind is given it. */
  const Shadow := 8

  /** The colour every new piece of a shape kind receives. */
  function ShapeColor(s: ShapeType): (c: int)
    ensures Red <= c <= Orange && c != Shadow
  {
    match s
    case I => Cyan
    case O => Yellow
    case T => Magenta
    case S => Green
    case Z => Red
    case J => Blue
    case L => Orange
  }

  /** The seven kinds get seven different colours. */
  lemma ShapeColorsDistinct()
    ensures forall a, b :: ShapeColor(a) == ShapeColor(b) ==> a == b
  {
    forall a, b | ShapeColor(a) == ShapeColor(b) ensures a == b {
      match a
      case I => case O => case T => case S => case Z => case J => case L =>
    }
  }

  /** One step through n rotation states: Go's (r + 1) % n. */
  function NextIndex(r: int, n: int): (r': int)
    requires n > 0
    ensures 0 <= r < n ==> r' == if r + 1 == n then 0 else r + 1
  {
    TruncRem(r + 1, n)
  }

  /** The index after k steps through n states. */
  function Steps(r: int, n: int, k: nat): int
    requires n > 0
  {
    if k == 0 then r else NextIndex(Steps(r, n, k - 1), n)
  }

  /** Taking a + b steps is taking a steps, then b more. */
  lemma {:induction false} StepsCompose(r: int, n: int, a: nat, b: nat)
    requires n > 0
    ensures Steps(r, n, a + b) == Steps(Steps(r, n, a), n, b)
  {
    if b > 0 {
      StepsCompose(r, n, a, b - 1);
      assert a + b - 1 == a + (b - 1);
    }
  }

  /** Below the last state each step advances the index by one. */
  lemma {:induction false} StepsClimb(r: int, n: int, k: nat)
    requires n > 0 && 0 <= r && r + k < n
    ensures Steps(r, n, k) == r + k
  {
    if k > 0 {
      StepsClimb(r, n, k - 1);
    }
  }

  /** n steps bring an in-range index back to itself: the steps up to the last state and
      one more reach 0, and r more steps from 0 reach r. */
  lemma {:induction false} StepsCycle(r: int, n: int)
    requires 0 <= r < n
    ensures Steps(r, n, n) == r
  {
    StepsClimb(r, n, n - 1 - r);
    assert Steps(r, n, n - r) == NextIndex(n - 1, n) == 0;
    StepsCompose(r, n, n - r, r);
    StepsClimb(0, n, r);
    assert n - r + r == n;
  }

  /** Stepping through n states repeats with period n. */
  lemma StepsPeriodic(r: int, n: int, k: nat)
    requires 0 <= r < n
    ensures Steps(r, n, k + n) == Steps(r, n, k)
  {
    StepsCycle(r, n);
    StepsCompose(r, n, n, k);
    assert n + k == k + n;
  }

  /** The rotation index after one rotation step: (r + 1) modulo the state count. */
  function NextRotation(s: ShapeType, r: int): (r': int)
    ensures 0 <= r < RotationCount(s) ==> 0 <= r' < RotationCount(s)
    ensures 0 <= r < RotationCount(s) ==> r' == if r + 1 == RotationCount(s) then 0 else r + 1
  {
    NextIndex(r, RotationCount(s))
  }

  /** The rotation index after k rotation steps. */
  function RotateTimes(s: ShapeType, r: int, k: nat): int
  {
    Steps(r, RotationCount(s), k)
  }

  /** As many rotation steps as the shape has states bring an in-range index back. */
  lemma RotationCycle(s: ShapeType, r: int)
    requires 0 <= r < RotationCount(s)
    ensures RotateTimes(s, r, RotationCount(s)) == r
  {
    StepsCycle(r, RotationCount(s));
  }

  /** Rotation repeats with the number of states as its period. */
  lemma RotationPeriodic(s: ShapeType, r: int, k: nat)
    requires 0 <= r < RotationCount(s)
    ensures RotateTimes(s, r, k + RotationCount(s)) == RotateTimes(s, r, k)
  {
    StepsPeriodic(r, RotationCount(s), k);
  }

  /** The value of a piece. */
  datatype PieceValue = PieceValue(shape: ShapeType, color: int, x: int, y: int, rotation: int)
  {
    /** The rotation index selects an entry of the shape's table. */
    predicate Valid()
    {
      0 <= rotation < RotationCount(shape)
    }

    /** The cell offsets the piece occupies, relative to (x, y). */
    function Cells(): (cells: seq<Cell>)
      requires Valid()
      ensures WellFormedState(cells)
      ensures cells == States(shape)[rotation]
    {
      StateWellFormed(shape, rotation);
      States(shape)[rotation]
    }
  }

  /** A new piece of the given kind with its kind's colour, stored at the given position
      and rotation index exactly as passed. */
  function NewPiece(shape: ShapeType, x: int, y: int, rotation: int): (p: PieceValue)
    ensures p.color == ShapeColor(shape) && 1 <= p.color <= 7
    ensures p.shape == shape && p.x == x && p.y == y && p.rotation == rotation
  {
    PieceValue(shape, ShapeColor(shape), x, y, rotation)
  }

  /** The piece after one unchecked rotation step. */
  function Rotated(p: PieceValue): (q: PieceValue)
    ensures q.shape == p.shape && q.color == p.color && q.x == p.x && q.y == p.y
    ensures p.Valid() ==> q.Valid()
  {
    p.(rotation := NextRotation(p.shape, p.rotation))
  }

  /** The piece moved by (dx, dy). */
  function Shifted(p: PieceValue, dx: int, dy: int): PieceValue
  {
    p.(x := p.x + dx, y := p.y + dy)
  }

  /** Moving back undoes a move: down then up, left then right, restore the piece. */
  lemma ShiftInverse(p: PieceValue, dx: int, dy: int)
    ensures Shifted(Shifted(p, dx, dy), -dx, -dy) == p
    ensures Shifted(p, dx, dy).Valid() == p.Valid()
  {
  }

  /** A tetromino on the board; its moves and rotation are unchecked, the caller tests for
      collisions first. */
  class Piece {
    var shape: ShapeType
    var color: int
    var x: int
    var y: int
    var rotation: int

    /** The piece's current value. */
    function Value(): PieceValue
      reads this
    {
      PieceValue(shape, color, x, y, rotation)
    }

    /** The rotation index is in range for the shape. */
    ghost predicate Valid()
      reads this
    {
      Value().Valid()
    }

    /** NewPiece: colour from the shape, position and rotation stored as given. */
    constructor (shape: ShapeType, posX: int, posY: int, rotation: int)
      ensures Value() == NewPiece(shape, posX, posY, rotation)
    {
      this.shape := shape;
      this.color := ShapeColor(shape);
      this.x := posX;
      this.y := posY;
      this.rotation := rotation;
    }

    /** A new object with the same field values; the two share nothing. */
    method Clone() returns (p: Piece)
      ensures fresh(p) && p.Value() == Value()
    {
      p := new Piece(shape, x, y, rotation);
      p.color := color;
    }

    /** The occupied cell offsets; the rotation index must be in range. */
    function GetCells(): (cells: seq<Cell>)
      reads this
      requires Valid()
      ensures WellFormedState(cells)
    {
      Value().Cells()
    }

    /** Advance the rotation index by one, modulo the number of states. */
    method Rotate()
      modifies this
      ensures Value() == Rotated(old(Value()))
    {
      rotation := TruncRem(rotation + 1, |States(shape)|);
    }

    method MoveLeft()
      modifies this
      ensures Value() == Shifted(old(Value()), -1, 0)
    {
      Move(-1, 0);
    }

    method MoveRight()
      modifies this
      ensures Value() == Shifted(old(Value()), 1, 0)
    {
      Move(1, 0);
    }

    method MoveDown()
      modifies this
      ensures Value() == Shifted(old(Value()), 0, 1)
    {
      Move(0, 1);
    }

    method MoveUp()
      modifies this
      ensures Value() == Shifted(old(Value()), 0, -1)
    {
      Move(0, -1);
    }

    method Move(dx: int, dy: int)
      modifies this
      ensures Value() == Shifted(old(Value()), dx, dy)
    {
      x := x + dx;
      y := y + dy;
    }
  }
}
