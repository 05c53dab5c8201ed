/** The pieces of Courses as one would draw them: how each comes, how it turns, what it leaves
    in the well, and where the rows go when some are cleared. */
module CoursesShapes {
  import opened CoursesBag
  import opened CoursesBoard

  function Cells(kind: Kind, rotation: Turn): set<Cell>
  {
    var s := Shape(kind, rotation);
    {s[0], s[1], s[2], s[3]}
  }

  /** The kinds as they come into the well, I, J, L, O, S, T, Z, row by row from the top. */
  const PICTURES: seq<seq<string>> := [
    ["....", "####"],
    ["#..", "###"],
    ["..#", "###"],
    [".##", ".##"],
    [".##", "##."],
    [".#.", "###"],
    ["##.", ".##"]]

  predicate IsDrawn(picture: seq<string>, c: Cell)
  {
    0 <= c.y < |picture| && 0 <= c.x < |picture[c.y]| && picture[c.y][c.x] == '#'
  }

  lemma ComesAsDrawn(kind: Kind, c: Cell)
    ensures c in Cells(kind, 0) <==> IsDrawn(PICTURES[kind], c)
  {
  }

  /** A quarter turn clockwise, in a box of a size. */
  function Turned(size: int, c: Cell): Cell
  {
    Cell(size - 1 - c.y, c.x)
  }

  /** Each rotation is the one before it a quarter turn clockwise on: of a box of four for the
      I, of three for the others, and the O stays as it is. */
  lemma TurnsAQuarter(kind: Kind, rotation: Turn, c: Cell)
    ensures kind != 3 ==>
      (c in Cells(kind, rotation) <==> Turned(if kind == 0 then 4 else 3, c) in Cells(kind, (rotation + 1) % 4))
    ensures kind == 3 ==> Cells(kind, rotation) == Cells(kind, 0)
  {
  }

  // ----- in the well -----

  /** A piece put down fills the cells it covers with its own mark, and no other cell. */
  lemma StampWrites(b: Board, kind: Kind, rotation: Turn, x: int, y: int, px: nat, py: nat)
    requires px < 10 && py < 22
    ensures Stamp(b, kind, rotation, x, y)[py][px]
         == if Cell(px - x, py - y) in Cells(kind, rotation) then kind + 1 else b[py][px]
  {
    var s := Shape(kind, rotation);
    hide Shape;
    assert s == [s[0], s[1], s[2], s[3]];
    StampCellsWrites(b, s, x, y, kind + 1, px, py);
    assert Cell(px - x, py - y) in s <==> Cell(px - x, py - y) in Cells(kind, rotation);
  }

  lemma {:induction false} StampCellsWrites(b: Board, cells: seq<Cell>, x: int, y: int, v: nat, px: nat, py: nat)
    requires px < 10 && py < 22
    ensures StampCells(b, cells, x, y, v)[py][px] == if Cell(px - x, py - y) in cells then v else b[py][px]
    decreases cells
  {
    if cells != [] {
      StampCellsWrites(Put(b, x + cells[0].x, y + cells[0].y, v), cells[1..], x, y, v, px, py);
    }
  }

  /** A clear takes a row that is not full down by as many rows as were full below it, as it
      is, and empty rows come in at the top. */
  lemma RowsComeDown(b: Board, r: nat)
    requires r < 22
    ensures var down := FullRows(b[r + 1..]);
      (exists i :: 0 <= i < 10 && b[r][i] == 0) ==> r + down < 22 && Cleared(b)[r + down] == b[r]
    ensures r < FullRows(b) ==> Cleared(b)[r] == [0, 0, 0, 0, 0, 0, 0, 0, 0, 0]
  {
    hide FullRows, OpenRows;
    RowsAround(b, r);
    EveryRowIsOpenOrFull(b);
    EveryRowIsOpenOrFull(b[..r]);
    EveryRowIsOpenOrFull(b[r + 1..]);
  }
}
