/** The well of Courses as both programs keep it: a flat array of cells, read and rewritten
    in place. */
module CoursesWell {
  import opened CoursesBag
  import opened CoursesBoard

  const CELLS: nat := 220 // TOTAL_HEIGHT * WIDTH

  /** The rows of a flat board. */
  function RowsOf(cells: seq<nat>): Board
    requires |cells| == CELLS
  {
    seq(22, r requires 0 <= r < 22 => cells[10 * r..10 * r + 10])
  }

  lemma RowsOfUpdate(cells: seq<nat>, px: int, py: int, v: nat)
    requires |cells| == CELLS && Inside(px, py)
    ensures RowsOf(cells[py * 10 + px := v]) == Put(RowsOf(cells), px, py, v)
  {
    var a, b := RowsOf(cells[py * 10 + px := v]), Put(RowsOf(cells), px, py, v);
    forall r | 0 <= r < 22 ensures a[r] == b[r] {
      RowUpdate(cells, 10 * r, py * 10 + px, v);
    }
  }

  lemma RowUpdate(cells: seq<nat>, lo: nat, at: nat, v: nat)
    requires lo + 10 <= |cells| && at < |cells|
    ensures cells[at := v][lo..lo + 10]
         == if lo <= at < lo + 10 then cells[lo..lo + 10][at - lo := v] else cells[lo..lo + 10]
  {
  }

  lemma ZerosAreEmpty(row: seq<nat>)
    requires |row| == 10 && forall c :: 0 <= c < 10 ==> row[c] == 0
    ensures row == EmptyRow()
  {
  }

  lemma RowsOfDrop(cells: seq<nat>, dropped: seq<nat>, row: nat)
    requires |cells| == |dropped| == CELLS && row < 22
    requires forall i :: 0 <= i < 10 ==> dropped[i] == 0
    requires forall i :: 10 <= i < 10 * (row + 1) ==> dropped[i] == cells[i - 10]
    requires forall i :: 10 * (row + 1) <= i < CELLS ==> dropped[i] == cells[i]
    ensures RowsOf(dropped) == DropOnto(RowsOf(cells), row)
  {
    var a, b := RowsOf(dropped), DropOnto(RowsOf(cells), row);
    hide Full;
    forall r | 0 <= r < 22 ensures a[r] == b[r] {
      assert a[r] == dropped[10 * r..10 * r + 10];
      if r == 0 {
        ZerosAreEmpty(dropped[0..10]);
      } else {
        var from := if r <= row then r - 1 else r;
        assert b[r] == RowsOf(cells)[from] == cells[10 * from..10 * from + 10];
      }
    }
  }

  lemma ZerosAreEmptyRows(cells: seq<nat>)
    requires |cells| == CELLS && forall i :: 0 <= i < CELLS ==> cells[i] == 0
    ensures RowsOf(cells) == EmptyRows(TOTAL_HEIGHT)
  {
    var a, b := RowsOf(cells), EmptyRows(TOTAL_HEIGHT);
    forall r | 0 <= r < 22 ensures a[r] == b[r] {
      assert b[r] == EmptyRow();
      assert a[r] == cells[10 * r..10 * r + 10];
    }
  }

  lemma NothingLeftToClear(b: Board)
    requires forall r :: 0 <= r < 22 ==> !Full(b[r])
    ensures Cleared(b) == b && FullRows(b) == 0
  {
    NoFullRows(b);
  }

  method CollidesOn(board: array<nat>, piece: Kind, rotation: Turn, x: int, y: int) returns (hit: bool)
    requires board.Length == CELLS
    ensures hit == Collides(RowsOf(board[..]), piece, rotation, x, y)
  {
    var cells := Shape(piece, rotation);
    hide Shape;
    for i := 0 to |cells|
      invariant forall k :: 0 <= k < i ==> !Blocked(RowsOf(board[..]), x + cells[k].x, y + cells[k].y)
    {
      var px, py := x + cells[i].x, y + cells[i].y;
      assert cells[i] in cells;
      if px < 0 || px >= WIDTH || py >= TOTAL_HEIGHT {
        return true;
      }
      if py < 0 {
        continue;
      }
      assert RowsOf(board[..])[py][px] == board[py * 10 + px];
      if board[py * 10 + px] != 0 {
        return true;
      }
    }
    return false;
  }

  /** Write the piece into the board, cell by cell. */
  method StampOn(board: array<nat>, piece: Kind, rotation: Turn, x: int, y: int)
    requires board.Length == CELLS
    modifies board
    ensures RowsOf(board[..]) == Stamp(old(RowsOf(board[..])), piece, rotation, x, y)
  {
    var cells := Shape(piece, rotation);
    hide Shape, RowsOf;
    var i := 0;
    assert cells[0..] == cells;
    while i < |cells|
      invariant 0 <= i <= |cells|
      invariant StampCells(RowsOf(board[..]), cells[i..], x, y, piece + 1)
             == Stamp(old(RowsOf(board[..])), piece, rotation, x, y)
    {
      assert cells[i..][0] == cells[i] && cells[i..][1..] == cells[i + 1..];
      WriteCell(board, x + cells[i].x, y + cells[i].y, piece + 1);
      i := i + 1;
    }
  }

  method WriteCell(board: array<nat>, px: int, py: int, v: nat)
    requires board.Length == CELLS
    modifies board
    ensures RowsOf(board[..]) == Put(old(RowsOf(board[..])), px, py, v)
  {
    if 0 <= py < TOTAL_HEIGHT && 0 <= px < WIDTH {
      RowsOfUpdate(board[..], px, py, v);
      hide RowsOf;
      ghost var was := board[..];
      board[py * 10 + px] := v;
      assert board[..] == was[py * 10 + px := v];
    }
  }

  /** Move everything above a row down by one, and empty the top row. */
  method ShiftDown(board: array<nat>, row: nat)
    requires board.Length == CELLS && row < TOTAL_HEIGHT
    modifies board
    ensures RowsOf(board[..]) == DropOnto(old(RowsOf(board[..])), row)
  {
    ghost var was := board[..];
    var r := row;
    while r > 0
      invariant 0 <= r <= row
      invariant forall i :: 0 <= i < 10 * (r + 1) ==> board[i] == was[i]
      invariant forall i :: 10 * (r + 1) <= i < 10 * (row + 1) ==> board[i] == was[i - 10]
      invariant forall i :: 10 * (row + 1) <= i < CELLS ==> board[i] == was[i]
    {
      for col := 0 to WIDTH
        invariant forall i :: 0 <= i < 10 * r ==> board[i] == was[i]
        invariant forall i :: 10 * r <= i < 10 * r + col ==> board[i] == was[i - 10]
        invariant forall i :: 10 * r + col <= i < 10 * (r + 1) ==> board[i] == was[i]
        invariant forall i :: 10 * (r + 1) <= i < 10 * (row + 1) ==> board[i] == was[i - 10]
        invariant forall i :: 10 * (row + 1) <= i < CELLS ==> board[i] == was[i]
      {
        board[r * 10 + col] := board[(r - 1) * 10 + col];
      }
      r := r - 1;
    }
    for col := 0 to WIDTH
      invariant forall i :: 0 <= i < col ==> board[i] == 0
      invariant forall i :: 10 <= i < 10 * (row + 1) ==> board[i] == was[i - 10]
      invariant forall i :: 10 * (row + 1) <= i < CELLS ==> board[i] == was[i]
    {
      board[col] := 0;
    }
    RowsOfDrop(was, board[..], row);
  }

  method IsFull(board: array<nat>, row: nat) returns (full: bool)
    requires board.Length == CELLS && row < TOTAL_HEIGHT
    ensures full == Full(RowsOf(board[..])[row])
  {
    ghost var cells := RowsOf(board[..])[row];
    assert cells == board[..][10 * row..10 * row + 10];
    for col := 0 to WIDTH
      invariant forall k :: 0 <= k < col ==> cells[k] != 0
    {
      assert cells[col] == board[row * 10 + col];
      if board[row * 10 + col] == 0 {
        return false;
      }
    }
    return true;
  }

  /** Clear full rows bottom up, looking again at a row that something fell into. */
  method ClearRowsOf(board: array<nat>) returns (cleared: nat)
    requires board.Length == CELLS
    modifies board
    ensures RowsOf(board[..]) == Cleared(old(RowsOf(board[..])))
    ensures cleared == FullRows(old(RowsOf(board[..])))
  {
    cleared := 0;
    var row := TOTAL_HEIGHT - 1;
    hide Full, Cleared, DropOnto;
    while row >= 0
      invariant -1 <= row < TOTAL_HEIGHT
      invariant Cleared(RowsOf(board[..])) == Cleared(old(RowsOf(board[..])))
      invariant cleared + FullRows(RowsOf(board[..])) == FullRows(old(RowsOf(board[..])))
      invariant forall r :: row < r < TOTAL_HEIGHT ==> !Full(RowsOf(board[..])[r])
      decreases FullRows(RowsOf(board[..])) + row + 1
    {
      var full := IsFull(board, row);
      if full {
        ghost var was := RowsOf(board[..]);
        cleared := cleared + 1;
        ShiftDown(board, row);
        DropFullRow(was, row);
        DropKeepsBelow(was, row);
        row := row + 1;
      }
      row := row - 1;
    }
    NothingLeftToClear(RowsOf(board[..]));
  }

  lemma DropKeepsBelow(b: Board, row: nat)
    requires row < 22
    ensures forall r :: row < r < 22 ==> DropOnto(b, row)[r] == b[r]
  {
  }
}
