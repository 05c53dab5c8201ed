/** The well of Courses as rows of cells: shapes, collision, stamping a piece and
    clearing full rows. */
module CoursesBoard {
  import opened Basics
  import opened CoursesBag

  const WIDTH: nat := 10
  const TOTAL_HEIGHT: nat := 22 // HEIGHT + SPAWN_ROWS

  type Turn = r: nat | r < 4

  /** One cell of a shape, relative to the piece's corner. */
  datatype Cell = Cell(x: int, y: int)

  /** 0 is empty; a settled cell holds its piece plus one. */
  type Row = r: seq<nat> | |r| == 10 witness [0, 0, 0, 0, 0, 0, 0, 0, 0, 0]

  type Board = b: seq<Row> | |b| == 22 witness EmptyRows(22)

  function EmptyRow(): Row
  {
    [0, 0, 0, 0, 0, 0, 0, 0, 0, 0]
  }

  function EmptyRows(n: nat): (rows: seq<Row>)
    ensures |rows| == n && forall i :: 0 <= i < n ==> rows[i] == EmptyRow()
  {
    seq(n, _ => EmptyRow())
  }

  function Shape(piece: Kind, rotation: Turn): (cells: seq<Cell>)
    ensures |cells| == 4
  {
    match piece
    case 0 => (
      match rotation
      case 0 => [Cell(0, 1), Cell(1, 1), Cell(2, 1), Cell(3, 1)]
      case 1 => [Cell(2, 0), Cell(2, 1), Cell(2, 2), Cell(2, 3)]
      case 2 => [Cell(0, 2), Cell(1, 2), Cell(2, 2), Cell(3, 2)]
      case _ => [Cell(1, 0), Cell(1, 1), Cell(1, 2), Cell(1, 3)])
    case 1 => (
      match rotation
      case 0 => [Cell(0, 0), Cell(0, 1), Cell(1, 1), Cell(2, 1)]
      case 1 => [Cell(1, 0), Cell(2, 0), Cell(1, 1), Cell(1, 2)]
      case 2 => [Cell(0, 1), Cell(1, 1), Cell(2, 1), Cell(2, 2)]
      case _ => [Cell(1, 0), Cell(1, 1), Cell(0, 2), Cell(1, 2)])
    case 2 => (
      match rotation
      case 0 => [Cell(2, 0), Cell(0, 1), Cell(1, 1), Cell(2, 1)]
      case 1 => [Cell(1, 0), Cell(1, 1), Cell(1, 2), Cell(2, 2)]
      case 2 => [Cell(0, 1), Cell(1, 1), Cell(2, 1), Cell(0, 2)]
      case _ => [Cell(0, 0), Cell(1, 0), Cell(1, 1), Cell(1, 2)])
    case 3 => [Cell(1, 0), Cell(2, 0), Cell(1, 1), Cell(2, 1)]
    case 4 => (
      match rotation
      case 0 => [Cell(1, 0), Cell(2, 0), Cell(0, 1), Cell(1, 1)]
      case 1 => [Cell(1, 0), Cell(1, 1), Cell(2, 1), Cell(2, 2)]
      case 2 => [Cell(1, 1), Cell(2, 1), Cell(0, 2), Cell(1, 2)]
      case _ => [Cell(0, 0), Cell(0, 1), Cell(1, 1), Cell(1, 2)])
    case 5 => (
      match rotation
      case 0 => [Cell(1, 0), Cell(0, 1), Cell(1, 1), Cell(2, 1)]
      case 1 => [Cell(1, 0), Cell(1, 1), Cell(2, 1), Cell(1, 2)]
      case 2 => [Cell(0, 1), Cell(1, 1), Cell(2, 1), Cell(1, 2)]
      case _ => [Cell(1, 0), Cell(0, 1), Cell(1, 1), Cell(1, 2)])
    case _ => (
      match rotation
      case 0 => [Cell(0, 0), Cell(1, 0), Cell(1, 1), Cell(2, 1)]
      case 1 => [Cell(2, 0), Cell(1, 1), Cell(2, 1), Cell(1, 2)]
      case 2 => [Cell(0, 1), Cell(1, 1), Cell(1, 2), Cell(2, 2)]
      case _ => [Cell(1, 0), Cell(0, 1), Cell(1, 1), Cell(0, 2)])
  }

  /** All that the proofs use of the table: four distinct cells of a 4x4 box, at
      least one of them below its top row. */
  lemma ShapeFacts(piece: Kind, rotation: Turn)
    ensures forall c :: c in Shape(piece, rotation) ==> 0 <= c.x < 4 && 0 <= c.y < 4
    ensures forall i, j :: 0 <= i < j < 4 ==> Shape(piece, rotation)[i] != Shape(piece, rotation)[j]
    ensures Shape(piece, rotation)[3].y >= 1
  {
    ShapeInBox(piece, rotation);
    ShapeDistinct(piece, rotation);
    hide Shape;
    forall c | c in Shape(piece, rotation) ensures 0 <= c.x < 4 && 0 <= c.y < 4 {
      var i :| 0 <= i < 4 && Shape(piece, rotation)[i] == c;
    }
  }

  predicate InBox(c: Cell)
  {
    0 <= c.x < 4 && 0 <= c.y < 4
  }

  lemma ShapeInBox(piece: Kind, rotation: Turn)
    ensures var s := Shape(piece, rotation);
      InBox(s[0]) && InBox(s[1]) && InBox(s[2]) && InBox(s[3]) && s[3].y >= 1
  {
  }

  lemma ShapeDistinct(piece: Kind, rotation: Turn)
    ensures var s := Shape(piece, rotation);
      s[0] != s[1] && s[0] != s[2] && s[0] != s[3] && s[1] != s[2] && s[1] != s[3] && s[2] != s[3]
  {
  }

  // ----- collision -----

  predicate Inside(px: int, py: int)
  {
    0 <= px < WIDTH && 0 <= py < TOTAL_HEIGHT
  }

  /** Whether a cell cannot be used: a wall, the floor, or a settled cell. Above the
      top row only the walls count. */
  predicate Blocked(b: Board, px: int, py: int)
  {
    px < 0 || px >= WIDTH || py >= TOTAL_HEIGHT || (py >= 0 && b[py][px] != 0)
  }

  predicate Collides(b: Board, piece: Kind, rotation: Turn, x: int, y: int)
  {
    exists c :: c in Shape(piece, rotation) && Blocked(b, x + c.x, y + c.y)
  }

  /** A placement that fits ends above the floor. */
  lemma FitsAboveFloor(b: Board, piece: Kind, rotation: Turn, x: int, y: int)
    requires !Collides(b, piece, rotation, x, y)
    ensures y <= TOTAL_HEIGHT - 2
  {
    ShapeFacts(piece, rotation);
    assert Shape(piece, rotation)[3] in Shape(piece, rotation);
    hide Shape;
    assert !Blocked(b, x + Shape(piece, rotation)[3].x, y + Shape(piece, rotation)[3].y);
  }

  /** With every cell above the board, only the walls decide, whatever the height. */
  lemma OnlyWallsAbove(b: Board, piece: Kind, rotation: Turn, x: int, y: int, z: int)
    requires y <= -4 && z <= -4
    ensures Collides(b, piece, rotation, x, y) == Collides(b, piece, rotation, x, z)
  {
    ShapeFacts(piece, rotation);
    hide Shape;
    if Collides(b, piece, rotation, x, y) {
      var c :| c in Shape(piece, rotation) && Blocked(b, x + c.x, y + c.y);
      assert Blocked(b, x + c.x, z + c.y);
    }
    if Collides(b, piece, rotation, x, z) {
      var c :| c in Shape(piece, rotation) && Blocked(b, x + c.x, z + c.y);
      assert Blocked(b, x + c.x, y + c.y);
    }
  }

  /** The row a piece rests at when it falls straight down from y: everything on the
      way fits and one row further does not. */
  function Landing(b: Board, piece: Kind, rotation: Turn, x: int, y: int): (rest: int)
    ensures y <= rest
    ensures Collides(b, piece, rotation, x, rest + 1)
    ensures forall v :: y < v <= rest ==> !Collides(b, piece, rotation, x, v)
    ensures rest <= Max(y, TOTAL_HEIGHT - 2)
    decreases TOTAL_HEIGHT - y
  {
    hide *;
    if Collides(b, piece, rotation, x, y + 1) then y
    else
      FitsAboveFloor(b, piece, rotation, x, y + 1);
      Landing(b, piece, rotation, x, y + 1)
  }

  // ----- settling -----

  /** Write one cell; a cell off the board is not written. */
  function Put(b: Board, px: int, py: int, v: nat): Board
  {
    if Inside(px, py) then b[py := b[py][px := v]] else b
  }

  function StampCells(b: Board, cells: seq<Cell>, x: int, y: int, v: nat): Board
    decreases cells
  {
    if cells == [] then b
    else StampCells(Put(b, x + cells[0].x, y + cells[0].y, v), cells[1..], x, y, v)
  }

  function Stamp(b: Board, piece: Kind, rotation: Turn, x: int, y: int): Board
  {
    StampCells(b, Shape(piece, rotation), x, y, piece + 1)
  }

  // ----- clearing -----

  predicate Full(row: Row)
  {
    0 !in row
  }

  function OpenRow(row: Row): seq<Row>
  {
    if Full(row) then [] else [row]
  }

  /** The rows that are not full, in order. */
  function OpenRows(rows: seq<Row>): seq<Row>
  {
    if rows == [] then [] else OpenRow(rows[0]) + OpenRows(rows[1..])
  }

  function FullRows(rows: seq<Row>): nat
  {
    if rows == [] then 0 else (if Full(rows[0]) then 1 else 0) + FullRows(rows[1..])
  }

  lemma {:induction false} EveryRowIsOpenOrFull(rows: seq<Row>)
    ensures |OpenRows(rows)| + FullRows(rows) == |rows|
  {
    if rows != [] {
      EveryRowIsOpenOrFull(rows[1..]);
    }
  }

  /** What a clear leaves: the open rows in order, under as many empty rows as went. */
  function Cleared(b: Board): Board
  {
    EveryRowIsOpenOrFull(b);
    EmptyRows(FullRows(b)) + OpenRows(b)
  }

  /** One turn of the in-place clear: row r goes, what is above moves down by one and
      an empty row enters at the top. */
  function DropOnto(b: Board, r: nat): Board
    requires r < |b|
  {
    [EmptyRow()] + (b[..r] + b[r + 1..])
  }

  lemma {:induction false} RowsAppend(a: seq<Row>, b: seq<Row>)
    ensures OpenRows(a + b) == OpenRows(a) + OpenRows(b)
    ensures FullRows(a + b) == FullRows(a) + FullRows(b)
  {
    if a == [] {
      assert a + b == b;
    } else {
      hide Full, OpenRow;
      var ab := a + b;
      assert ab[0] == a[0] && ab[1..] == a[1..] + b;
      RowsAppend(a[1..], b);
      assert OpenRow(a[0]) + (OpenRows(a[1..]) + OpenRows(b)) == (OpenRow(a[0]) + OpenRows(a[1..])) + OpenRows(b);
    }
  }

  lemma RowsAround(b: seq<Row>, r: nat)
    requires r < |b|
    ensures OpenRows(b) == OpenRows(b[..r]) + OpenRow(b[r]) + OpenRows(b[r + 1..])
    ensures FullRows(b) == FullRows(b[..r]) + (if Full(b[r]) then 1 else 0) + FullRows(b[r + 1..])
  {
    hide *;
    assert b == b[..r] + b[r..] && b[r..][0] == b[r] && b[r..][1..] == b[r + 1..];
    RowsAppend(b[..r], b[r..]);
    RowsUnfold(b[r..]);
    var above, here, below := OpenRows(b[..r]), OpenRow(b[r]), OpenRows(b[r + 1..]);
    assert (above + here) + below == above + (here + below);
  }

  lemma RowsUnfold(rows: seq<Row>)
    requires rows != []
    ensures OpenRows(rows) == OpenRow(rows[0]) + OpenRows(rows[1..])
    ensures FullRows(rows) == (if Full(rows[0]) then 1 else 0) + FullRows(rows[1..])
  {
    hide OpenRow, Full;
  }

  lemma EmptyRowIsOpen(rows: seq<Row>)
    ensures OpenRows([EmptyRow()] + rows) == [EmptyRow()] + OpenRows(rows)
    ensures FullRows([EmptyRow()] + rows) == FullRows(rows)
  {
    var e := EmptyRow();
    assert e[0] == 0;
    assert OpenRow(e) == [e];
    assert ([e] + rows)[1..] == rows;
  }

  lemma OpenRowsOfDrop(b: Board, r: nat)
    requires r < |b| && Full(b[r])
    ensures OpenRows(DropOnto(b, r)) == [EmptyRow()] + OpenRows(b)
    ensures FullRows(DropOnto(b, r)) == FullRows(b) - 1
  {
    RowsAround(b, r);
    assert OpenRow(b[r]) == [];
    hide OpenRow, OpenRows, FullRows, Full, EmptyRow;
    RowsAppend(b[..r], b[r + 1..]);
    EmptyRowIsOpen(b[..r] + b[r + 1..]);
    assert OpenRows(b[..r]) + [] == OpenRows(b[..r]);
    assert DropOnto(b, r) == [EmptyRow()] + (b[..r] + b[r + 1..]);
  }

  /** Dropping a full row changes neither what a clear leaves nor what it has to do
      elsewhere: one full row fewer, the same result. */
  lemma DropFullRow(b: Board, r: nat)
    requires r < |b| && Full(b[r])
    ensures Cleared(DropOnto(b, r)) == Cleared(b)
    ensures FullRows(DropOnto(b, r)) == FullRows(b) - 1
  {
    hide OpenRows, FullRows, Full, EmptyRow, EmptyRows, DropOnto;
    OpenRowsOfDrop(b, r);
    OneMoreEmptyRow(FullRows(b), OpenRows(b));
  }

  lemma OneMoreEmptyRow(n: nat, rows: seq<Row>)
    requires n > 0
    ensures EmptyRows(n - 1) + ([EmptyRow()] + rows) == EmptyRows(n) + rows
  {
    hide EmptyRow;
    assert EmptyRows(n) == EmptyRows(n - 1) + [EmptyRow()];
  }

  lemma {:induction false} NoFullRows(rows: seq<Row>)
    requires forall i :: 0 <= i < |rows| ==> !Full(rows[i])
    ensures FullRows(rows) == 0 && OpenRows(rows) == rows
  {
    if rows != [] {
      NoFullRows(rows[1..]);
    }
  }

  lemma {:induction false} OpenRowsAreOpen(rows: seq<Row>)
    ensures forall i :: 0 <= i < |OpenRows(rows)| ==> !Full(OpenRows(rows)[i])
  {
    if rows != [] {
      OpenRowsAreOpen(rows[1..]);
    }
  }

  /** No row is full after a clear. */
  lemma ClearedHasNoFullRow(b: Board)
    ensures forall i :: 0 <= i < |Cleared(b)| ==> !Full(Cleared(b)[i])
    ensures FullRows(Cleared(b)) == 0
  {
    OpenRowsAreOpen(b);
    assert EmptyRow()[0] == 0;
    NoFullRows(Cleared(b));
  }

  // ----- counting cells -----

  function RowCells(row: seq<nat>): nat
  {
    if row == [] then 0 else (if row[0] != 0 then 1 else 0) + RowCells(row[1..])
  }

  function Filled(rows: seq<Row>): nat
  {
    if rows == [] then 0 else RowCells(rows[0]) + Filled(rows[1..])
  }

  /** The cells of a placed shape that are off the top, and so are never written. */
  function OffBoard(cells: seq<Cell>, x: int, y: int): nat
  {
    if cells == [] then 0
    else (if Inside(x + cells[0].x, y + cells[0].y) then 0 else 1) + OffBoard(cells[1..], x, y)
  }

  lemma {:induction false} RowCellsUpdate(row: seq<nat>, i: nat, v: nat)
    requires i < |row| && row[i] == 0 && v != 0
    ensures RowCells(row[i := v]) == RowCells(row) + 1
  {
    if i > 0 {
      RowCellsUpdate(row[1..], i - 1, v);
      assert row[i := v][1..] == row[1..][i - 1 := v];
    } else {
      assert row[i := v][1..] == row[1..];
    }
  }

  lemma {:induction false} FilledUpdate(rows: seq<Row>, i: nat, row: Row)
    requires i < |rows|
    ensures Filled(rows[i := row]) + RowCells(rows[i]) == Filled(rows) + RowCells(row)
  {
    if i > 0 {
      FilledUpdate(rows[1..], i - 1, row);
      assert rows[i := row][1..] == rows[1..][i - 1 := row];
    } else {
      assert rows[i := row][1..] == rows[1..];
    }
  }

  /** Stamping onto free cells adds one filled cell for each cell on the board. */
  lemma {:induction false} StampAdds(b: Board, cells: seq<Cell>, x: int, y: int, v: nat)
    requires v != 0
    requires forall c :: c in cells ==> !Blocked(b, x + c.x, y + c.y)
    requires forall i, j :: 0 <= i < j < |cells| ==> cells[i] != cells[j]
    ensures Filled(StampCells(b, cells, x, y, v)) + OffBoard(cells, x, y) == Filled(b) + |cells|
    decreases cells
  {
    if cells != [] {
      var c := cells[0];
      var next := Put(b, x + c.x, y + c.y, v);
      assert c in cells;
      if Inside(x + c.x, y + c.y) {
        var row := b[y + c.y];
        RowCellsUpdate(row, x + c.x, v);
        FilledUpdate(b, y + c.y, row[x + c.x := v]);
      }
      forall d | d in cells[1..] ensures !Blocked(next, x + d.x, y + d.y) {
        assert d in cells && d != c;
      }
      StampAdds(next, cells[1..], x, y, v);
    }
  }

  /** A full row holds a cell in each column. */
  lemma {:induction false} FullRowCells(row: seq<nat>)
    requires 0 !in row
    ensures RowCells(row) == |row|
  {
    if row != [] {
      assert row[0] in row;
      FullRowCells(row[1..]);
    }
  }

  lemma {:induction false} OpenRowsFilled(rows: seq<Row>)
    ensures Filled(rows) == Filled(OpenRows(rows)) + 10 * FullRows(rows)
  {
    if rows != [] {
      OpenRowsFilled(rows[1..]);
      if Full(rows[0]) {
        FullRowCells(rows[0]);
        assert OpenRows(rows) == OpenRows(rows[1..]);
      } else {
        assert OpenRows(rows)[1..] == OpenRows(rows[1..]);
      }
    }
  }

  lemma {:induction false} EmptyRowsFilled(n: nat, rows: seq<Row>)
    ensures Filled(EmptyRows(n) + rows) == Filled(rows)
  {
    hide RowCells, EmptyRow;
    if n == 0 {
      assert EmptyRows(0) + rows == rows;
    } else {
      EmptyRowsFilled(n - 1, rows);
      var all := EmptyRows(n) + rows;
      assert all[0] == EmptyRow() && all[1..] == EmptyRows(n - 1) + rows;
      EmptyRowHasNoCells();
    }
  }

  lemma EmptyRowHasNoCells()
    ensures RowCells(EmptyRow()) == 0
  {
    var e := EmptyRow();
    assert e[1..] == [0, 0, 0, 0, 0, 0, 0, 0, 0];
    assert RowCells(e) == 0;
  }

  /** A clear takes exactly ten cells for each row it counts. */
  lemma ClearTakesTenEach(b: Board)
    ensures Filled(Cleared(b)) + 10 * FullRows(b) == Filled(b)
  {
    OpenRowsFilled(b);
    EmptyRowsFilled(FullRows(b), OpenRows(b));
  }

  // ----- at most four rows at a time -----

  lemma FullRowsWithin(rows: seq<Row>, lo: nat, hi: nat)
    requires lo <= hi <= |rows|
    requires forall i :: 0 <= i < |rows| && Full(rows[i]) ==> lo <= i < hi
    ensures FullRows(rows) <= hi - lo
  {
    hide *;
    var above, within, below := rows[..lo], rows[lo..hi], rows[hi..];
    assert rows == above + (within + below);
    RowsAppend(above, within + below);
    RowsAppend(within, below);
    NoFullRows(above);
    NoFullRows(below);
    EveryRowIsOpenOrFull(within);
  }

  lemma {:induction false} StampTouches(b: Board, cells: seq<Cell>, x: int, y: int, v: nat, i: nat)
    requires i < TOTAL_HEIGHT
    requires forall c :: c in cells ==> y + c.y != i
    ensures StampCells(b, cells, x, y, v)[i] == b[i]
    decreases cells
  {
    if cells != [] {
      assert cells[0] in cells;
      StampTouches(Put(b, x + cells[0].x, y + cells[0].y, v), cells[1..], x, y, v, i);
    }
  }

  /** One piece completes at most four rows of a well that had none full. */
  lemma AtMostFourRows(b: Board, piece: Kind, rotation: Turn, x: int, y: int)
    requires forall i :: 0 <= i < |b| ==> !Full(b[i])
    ensures FullRows(Stamp(b, piece, rotation, x, y)) <= 4
  {
    ShapeFacts(piece, rotation);
    hide Shape;
    var stamped := Stamp(b, piece, rotation, x, y);
    forall i | 0 <= i < |stamped| && Full(stamped[i]) ensures y <= i < y + 4 {
      if forall c :: c in Shape(piece, rotation) ==> y + c.y != i {
        StampTouches(b, Shape(piece, rotation), x, y, piece + 1, i);
      }
    }
    var lo := Min(Max(y, 0), TOTAL_HEIGHT);
    FullRowsWithin(stamped, lo, Max(lo, Min(y + 4, TOTAL_HEIGHT)));
  }
}
