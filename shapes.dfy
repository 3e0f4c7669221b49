/** The tetromino catalogue: seven shape kinds, each with its rotation states, each
    rotation state a list of four cell offsets inside a 4x4 box. */
module Shapes {

  /** The seven tetromino kinds, in the order of their enumeration constants. */
  datatype ShapeType = I | O | T | S | Z | J | L

  /** A cell offset (or, once shifted by a piece position, a board coordinate). */
  datatype Cell = Cell(x: int, y: int)

  /** The enumeration value of a shape kind. */
  function Ordinal(s: ShapeType): (n: nat)
    ensures n < 7
  {
    match s
    case I => 0
    case O => 1
    case T => 2
    case S => 3
    case Z => 4
    case J => 5
    case L => 6
  }

  /** The shape kind with enumeration value n. */
  function FromOrdinal(n: nat): (s: ShapeType)
    requires n < 7
    ensures Ordinal(s) == n
  {
    [I, O, T, S, Z, J, L][n]
  }

  /** The numbering 0..6 is a bijection between the kinds and their values. */
  lemma OrdinalBijection()
    ensures forall s :: FromOrdinal(Ordinal(s)) == s
    ensures forall a, b :: Ordinal(a) == Ordinal(b) ==> a == b
  {
    forall s ensures FromOrdinal(Ordinal(s)) == s {
      match s
      case I => case O => case T => case S => case Z => case J => case L =>
    }
  }

  /** Every offset of a rotation state lies in 0..3 on both axes. */
  predicate InBox(cells: seq<Cell>)
  {
    forall i :: 0 <= i < |cells| ==> 0 <= cells[i].x <= 3 && 0 <= cells[i].y <= 3
  }

  /** No cell is listed twice. */
  predicate Distinct(cells: seq<Cell>)
  {
    forall i, j :: 0 <= i < j < |cells| ==> cells[i] != cells[j]
  }

  /** A rotation state: four distinct cells inside the 4x4 box. */
  predicate WellFormedState(cells: seq<Cell>)
  {
    |cells| == 4 && InBox(cells) && Distinct(cells)
  }

  /** The rotation table of a shape kind: every kind has between one and four states,
      each of four cells (StateWellFormed shows the cells are distinct and boxed). */
  function States(s: ShapeType): (r: seq<seq<Cell>>)
    ensures 1 <= |r| <= 4
    ensures forall k :: 0 <= k < |r| ==> |r[k]| == 4
  {
    match s
    case I => [
      [Cell(0, 1), Cell(1, 1), Cell(2, 1), Cell(3, 1)],
      [Cell(2, 0), Cell(2, 1), Cell(2, 2), Cell(2, 3)]]
    case O => [
      [Cell(1, 1), Cell(2, 1), Cell(1, 2), Cell(2, 2)]]
    case T => [
      [Cell(1, 0), Cell(0, 1), Cell(1, 1), Cell(2, 1)],
      [Cell(1, 0), Cell(1, 1), Cell(2, 1), Cell(1, 2)],
      [Cell(0, 1), Cell(1, 1), Cell(2, 1), Cell(1, 2)],
      [Cell(1, 0), Cell(0, 1), Cell(1, 1), Cell(1, 2)]]
    case S => [
      [Cell(1, 0), Cell(2, 0), Cell(0, 1), Cell(1, 1)],
      [Cell(1, 0), Cell(1, 1), Cell(2, 1), Cell(2, 2)]]
    case Z => [
      [Cell(0, 0), Cell(1, 0), Cell(1, 1), Cell(2, 1)],
      [Cell(2, 0), Cell(2, 1), Cell(1, 1), Cell(1, 2)]]
    case J => [
      [Cell(0, 0), Cell(0, 1), Cell(1, 1), Cell(2, 1)],
      [Cell(1, 0), Cell(2, 0), Cell(1, 1), Cell(1, 2)],
      [Cell(0, 1), Cell(1, 1), Cell(2, 1), Cell(2, 2)],
      [Cell(1, 0), Cell(1, 1), Cell(0, 2), Cell(1, 2)]]
    case L => [
      [Cell(2, 0), Cell(0, 1), Cell(1, 1), Cell(2, 1)],
      [Cell(1, 0), Cell(1, 1), Cell(1, 2), Cell(2, 2)],
      [Cell(0, 1), Cell(1, 1), Cell(2, 1), Cell(0, 2)],
      [Cell(0, 0), Cell(1, 0), Cell(1, 1), Cell(1, 2)]]
  }

  /** Four explicitly checked cells form a well-formed rotation state. */
  lemma FourCells(a: Cell, b: Cell, c: Cell, d: Cell)
    requires 0 <= a.x <= 3 && 0 <= a.y <= 3 && 0 <= b.x <= 3 && 0 <= b.y <= 3
    requires 0 <= c.x <= 3 && 0 <= c.y <= 3 && 0 <= d.x <= 3 && 0 <= d.y <= 3
    requires a != b && a != c && a != d && b != c && b != d && c != d
    ensures WellFormedState([a, b, c, d])
  {
    var st := [a, b, c, d];
    forall i, j | 0 <= i < j < 4 ensures st[i] != st[j] {
      if i == 0 { assert st[i] == a; } else if i == 1 { assert st[i] == b; }
    }
  }

  /** Every rotation state in the table lists four distinct cells inside the 4x4 box. */
  lemma StateWellFormed(s: ShapeType, k: nat)
    requires k < |States(s)|
    ensures WellFormedState(States(s)[k])
  {
    var st := States(s)[k];
    assert st == [st[0], st[1], st[2], st[3]];
    FourCells(st[0], st[1], st[2], st[3]);
  }

  /** The number of rotation states of a shape kind (the length of its table entry). */
  function RotationCount(s: ShapeType): (n: nat)
    ensures 1 <= n <= 4
  {
    |States(s)|
  }

  /** The line and S/Z shapes have two states, the square one, T, J and L four. */
  lemma RotationCounts()
    ensures RotationCount(I) == 2 && RotationCount(O) == 1 && RotationCount(T) == 4
    ensures RotationCount(S) == 2 && RotationCount(Z) == 2
    ensures RotationCount(J) == 4 && RotationCount(L) == 4
  {
  }

  /** The square's only state is the 2x2 block at offsets 1..2 on both axes. */
  lemma SquareIsCentredBlock()
    ensures RotationCount(O) == 1
    ensures forall c :: c in States(O)[0] <==> 1 <= c.x <= 2 && 1 <= c.y <= 2
  {
    var block := States(O)[0];
    forall c: Cell | 1 <= c.x <= 2 && 1 <= c.y <= 2 ensures c in block {
      if c.x == 1 && c.y == 1 { assert block[0] == c; }
      else if c.x == 2 && c.y == 1 { assert block[1] == c; }
      else if c.x == 1 { assert block[2] == c; }
      else { assert block[3] == c; }
    }
  }
}
