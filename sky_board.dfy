/**
 * The board of a skyscraper puzzle as both C programs keep it: a global
 * MAX_LENGTH x MAX_LENGTH grid of characters of which the top-left size x size
 * square is in use, and four clue arrays (top, bottom, left, right). Loading
 * and validating the board, and placing one piece, work on it in place.
 */
module SkyBoard {
  import opened Skyline

  /** count_visible: one pass over the first size cells with a running maximum. */
  method CountVisible(line: seq<char>, size: int) returns (visible: int)
    requires 0 <= size <= |line|
    ensures visible == SeenFromStart(line[..size])
  {
    visible := 0;
    var tallest := 0;
    var i := 0;
    while i < size
      invariant 0 <= i <= size
      invariant visible == Visible(Heights(line[..i]))
      invariant tallest == Tallest(Heights(line[..i]))
    {
      HeightsSnoc(line, i);
      VisibleSnoc(Heights(line[..i]), if line[i] == EMPTY then 0 else Height(line[i]));
      if line[i] != EMPTY {
        var height := Height(line[i]);
        if height > tallest {
          tallest := height;
          visible := visible + 1;
        }
      }
      i := i + 1;
    }
  }

  /** The copy revRow[j] = line[size - 1 - j] made before counting from the far end. */
  method ReverseCopy(line: seq<char>, size: int) returns (rev: seq<char>)
    requires 0 <= size <= |line|
    ensures rev == Reverse(line[..size])
  {
    rev := [];
    var j := 0;
    while j < size
      invariant 0 <= j <= size
      invariant |rev| == j
      invariant forall k :: 0 <= k < j ==> rev[k] == line[size - 1 - k]
    {
      rev := rev + [line[size - 1 - j]];
      j := j + 1;
    }
  }

  /** i * n + j stays inside an n x n square laid out row after row. */
  lemma RowMajorInRange(i: int, j: int, n: int)
    requires 0 <= i < n && 0 <= j < n
    ensures 0 <= i * n + j < n * n
  {
    assert i * n <= (n - 1) * n;
  }

  /** The character for cell (r, c) of a square of side n given row after row. */
  function StateAt(s: seq<char>, n: int, r: int, c: int): char
    requires 0 <= r < n && 0 <= c < n && |s| >= n * n
  {
    RowMajorInRange(r, c, n);
    s[r * n + c]
  }

  class Board {
    const size: int
    const cells: array2<char>
    const topKey: array<int>
    const bottomKey: array<int>
    const leftKey: array<int>
    const rightKey: array<int>

    /** The fixed-size global arrays, with size no larger than them. */
    predicate Valid()
    {
      && 0 <= size <= MAX_LENGTH
      && cells.Length0 == MAX_LENGTH && cells.Length1 == MAX_LENGTH
      && topKey.Length == MAX_LENGTH && bottomKey.Length == MAX_LENGTH
      && leftKey.Length == MAX_LENGTH && rightKey.Length == MAX_LENGTH
      && topKey != bottomKey && topKey != leftKey && topKey != rightKey
      && bottomKey != leftKey && bottomKey != rightKey && leftKey != rightKey
    }

    /** The globals as the program starts: every cell and every clue zero. */
    constructor (n: int)
      requires 0 <= n <= MAX_LENGTH
      ensures Valid() && size == n
      ensures fresh(cells) && fresh(topKey) && fresh(bottomKey) && fresh(leftKey) && fresh(rightKey)
      ensures forall i, j :: 0 <= i < MAX_LENGTH && 0 <= j < MAX_LENGTH ==> cells[i, j] == 0 as char
    {
      size := n;
      cells := new char[MAX_LENGTH, MAX_LENGTH]((i, j) => 0 as char);
      topKey := new int[MAX_LENGTH](i => 0);
      bottomKey := new int[MAX_LENGTH](i => 0);
      leftKey := new int[MAX_LENGTH](i => 0);
      rightKey := new int[MAX_LENGTH](i => 0);
    }

    /** Row i of the square in use. */
    function Row(i: int): (r: seq<char>)
      requires Valid() && 0 <= i < size
      reads cells
      ensures |r| == size
    {
      seq(size, j requires 0 <= j < size reads cells => cells[i, j])
    }

    /** Column j of the square in use. */
    function Col(j: int): (c: seq<char>)
      requires Valid() && 0 <= j < size
      reads cells
      ensures |c| == size
    {
      seq(size, i requires 0 <= i < size reads cells => cells[i, j])
    }

    /** A cell of the square in use is still empty. */
    predicate IsEmpty(i: int, j: int)
      requires Valid() && 0 <= i < size && 0 <= j < size
      reads cells
    {
      cells[i, j] == EMPTY
    }

    /** What initialize_board accepts: no repeats, and every complete line agrees with its clues. */
    predicate Consistent()
      requires Valid()
      reads cells, topKey, bottomKey, leftKey, rightKey
    {
      RowsRepeatFree(size) && ColumnsRepeatFree(size) && RowsMeetClues(size) && ColumnsMeetClues(size)
    }

    /** No row before n repeats a height. */
    predicate RowsRepeatFree(n: int)
      requires Valid() && n <= size
      reads cells
    {
      forall i :: 0 <= i < n ==> NoRepeats(Row(i))
    }

    /** No column before n repeats a height. */
    predicate ColumnsRepeatFree(n: int)
      requires Valid() && n <= size
      reads cells
    {
      forall j :: 0 <= j < n ==> NoRepeats(Col(j))
    }

    /** Every row before n agrees with its left and right clues. */
    predicate RowsMeetClues(n: int)
      requires Valid() && n <= size
      reads cells, leftKey, rightKey
    {
      forall i :: 0 <= i < n ==> CluesAllow(Row(i), leftKey[i], rightKey[i])
    }

    /** Every column before n agrees with its top and bottom clues. */
    predicate ColumnsMeetClues(n: int)
      requires Valid() && n <= size
      reads cells, topKey, bottomKey
    {
      forall j :: 0 <= j < n ==> CluesAllow(Col(j), topKey[j], bottomKey[j])
    }

    /** A piece may go to an empty cell whose row and column do not hold it yet. */
    predicate Placeable(piece: char, row: int, col: int)
      requires Valid() && 0 <= row < size && 0 <= col < size
      reads cells
    {
      cells[row, col] == EMPTY && piece !in Row(row) && piece !in Col(col)
    }

    /**
     * initialize_board: cells are loaded row after row, clues in the order
     * top, bottom, left, right, each as its character minus '0'; the result
     * says whether the loaded board is consistent.
     */
    method InitializeBoard(initialState: seq<char>, keys: seq<char>) returns (ok: bool)
      requires Valid() && |initialState| >= size * size && |keys| >= 4 * size
      modifies cells, topKey, bottomKey, leftKey, rightKey
      ensures forall i, j :: 0 <= i < MAX_LENGTH && 0 <= j < MAX_LENGTH ==>
        cells[i, j] == if i < size && j < size then StateAt(initialState, size, i, j) else old(cells[i, j])
      ensures forall i :: 0 <= i < MAX_LENGTH ==> topKey[i] == if i < size then Height(keys[i]) else old(topKey[i])
      ensures forall i :: 0 <= i < MAX_LENGTH ==> bottomKey[i] == if i < size then Height(keys[size + i]) else old(bottomKey[i])
      ensures forall i :: 0 <= i < MAX_LENGTH ==> leftKey[i] == if i < size then Height(keys[2 * size + i]) else old(leftKey[i])
      ensures forall i :: 0 <= i < MAX_LENGTH ==> rightKey[i] == if i < size then Height(keys[3 * size + i]) else old(rightKey[i])
      ensures ok <==> Consistent()
    {
      LoadCells(initialState);
      LoadKeys(keys);
      ok := Validate();
    }

    /** The first nested loop of initialize_board. */
    method LoadCells(initialState: seq<char>)
      requires Valid() && |initialState| >= size * size
      modifies cells
      ensures forall i, j :: 0 <= i < MAX_LENGTH && 0 <= j < MAX_LENGTH ==>
        cells[i, j] == if i < size && j < size then StateAt(initialState, size, i, j) else old(cells[i, j])
    {
      var i := 0;
      while i < size
        invariant 0 <= i <= size
        invariant forall r, c :: 0 <= r < MAX_LENGTH && 0 <= c < MAX_LENGTH ==>
          cells[r, c] == if r < i && c < size then StateAt(initialState, size, r, c) else old(cells[r, c])
      {
        var j := 0;
        while j < size
          invariant 0 <= j <= size
          invariant forall r, c :: 0 <= r < MAX_LENGTH && 0 <= c < MAX_LENGTH ==>
            cells[r, c] == if (r < i && c < size) || (r == i && c < j) then StateAt(initialState, size, r, c) else old(cells[r, c])
        {
          cells[i, j] := StateAt(initialState, size, i, j);
          j := j + 1;
        }
        i := i + 1;
      }
    }

    /** The clue loop of initialize_board. */
    method LoadKeys(keys: seq<char>)
      requires Valid() && |keys| >= 4 * size
      modifies topKey, bottomKey, leftKey, rightKey
      ensures forall i :: 0 <= i < MAX_LENGTH ==> topKey[i] == if i < size then Height(keys[i]) else old(topKey[i])
      ensures forall i :: 0 <= i < MAX_LENGTH ==> bottomKey[i] == if i < size then Height(keys[size + i]) else old(bottomKey[i])
      ensures forall i :: 0 <= i < MAX_LENGTH ==> leftKey[i] == if i < size then Height(keys[2 * size + i]) else old(leftKey[i])
      ensures forall i :: 0 <= i < MAX_LENGTH ==> rightKey[i] == if i < size then Height(keys[3 * size + i]) else old(rightKey[i])
    {
      var i := 0;
      while i < size
        invariant 0 <= i <= size
        invariant forall k :: 0 <= k < MAX_LENGTH ==> topKey[k] == if k < i then Height(keys[k]) else old(topKey[k])
        invariant forall k :: 0 <= k < MAX_LENGTH ==> bottomKey[k] == if k < i then Height(keys[size + k]) else old(bottomKey[k])
        invariant forall k :: 0 <= k < MAX_LENGTH ==> leftKey[k] == if k < i then Height(keys[2 * size + k]) else old(leftKey[k])
        invariant forall k :: 0 <= k < MAX_LENGTH ==> rightKey[k] == if k < i then Height(keys[3 * size + k]) else old(rightKey[k])
      {
        topKey[i] := Height(keys[i]);
        bottomKey[i] := Height(keys[size + i]);
        leftKey[i] := Height(keys[2 * size + i]);
        rightKey[i] := Height(keys[3 * size + i]);
        i := i + 1;
      }
    }

    /** The four validation loops of initialize_board, each stopping at the first failure. */
    method Validate() returns (ok: bool)
      requires Valid()
      ensures ok <==> Consistent()
    {
      ok := CheckRows();
      if !ok {
        return;
      }
      ok := CheckColumns();
      if !ok {
        return;
      }
      ok := CheckRowClues();
      if !ok {
        return;
      }
      ok := CheckColumnClues();
    }

    /** The loop over the rows looking for a repeated height. */
    method CheckRows() returns (ok: bool)
      requires Valid()
      ensures ok <==> RowsRepeatFree(size)
    {
      var i := 0;
      while i < size
        invariant 0 <= i <= size
        invariant RowsRepeatFree(i)
      {
        ok := RowRepeatFree(i);
        if !ok {
          return;
        }
        i := i + 1;
      }
      ok := true;
    }

    /** The loop over the columns looking for a repeated height. */
    method CheckColumns() returns (ok: bool)
      requires Valid()
      ensures ok <==> ColumnsRepeatFree(size)
    {
      var j := 0;
      while j < size
        invariant 0 <= j <= size
        invariant ColumnsRepeatFree(j)
      {
        ok := ColumnRepeatFree(j);
        if !ok {
          return;
        }
        j := j + 1;
      }
      ok := true;
    }

    /** The loop over the rows checking the left and right clues. */
    method CheckRowClues() returns (ok: bool)
      requires Valid()
      ensures ok <==> RowsMeetClues(size)
    {
      var i := 0;
      while i < size
        invariant 0 <= i <= size
        invariant RowsMeetClues(i)
      {
        ok := RowMeetsClues(i);
        if !ok {
          return;
        }
        i := i + 1;
      }
      ok := true;
    }

    /** The loop over the columns checking the top and bottom clues. */
    method CheckColumnClues() returns (ok: bool)
      requires Valid()
      ensures ok <==> ColumnsMeetClues(size)
    {
      var j := 0;
      while j < size
        invariant 0 <= j <= size
        invariant ColumnsMeetClues(j)
      {
        ok := ColumnMeetsClues(j);
        if !ok {
          return;
        }
        j := j + 1;
      }
      ok := true;
    }

    /** The duplicate scan of one row: every filled cell against the cells after it. */
    method RowRepeatFree(i: int) returns (ok: bool)
      requires Valid() && 0 <= i < size
      ensures ok <==> NoRepeats(Row(i))
    {
      var j := 0;
      while j < size
        invariant 0 <= j <= size
        invariant forall a, b :: 0 <= a < j && a < b < size && cells[i, a] != EMPTY ==> cells[i, a] != cells[i, b]
      {
        var curr := cells[i, j];
        if curr != EMPTY {
          var k := j + 1;
          while k < size
            invariant j + 1 <= k <= size
            invariant forall b :: j < b < k ==> cells[i, b] != curr
          {
            if cells[i, k] == curr {
              assert Row(i)[j] == curr == Row(i)[k];
              return false;
            }
            k := k + 1;
          }
        }
        j := j + 1;
      }
      ok := true;
    }

    /** The duplicate scan of one column. */
    method ColumnRepeatFree(j: int) returns (ok: bool)
      requires Valid() && 0 <= j < size
      ensures ok <==> NoRepeats(Col(j))
    {
      var i := 0;
      while i < size
        invariant 0 <= i <= size
        invariant forall a, b :: 0 <= a < i && a < b < size && cells[a, j] != EMPTY ==> cells[a, j] != cells[b, j]
      {
        var curr := cells[i, j];
        if curr != EMPTY {
          var k := i + 1;
          while k < size
            invariant i + 1 <= k <= size
            invariant forall b :: i < b < k ==> cells[b, j] != curr
          {
            if cells[k, j] == curr {
              assert Col(j)[i] == curr == Col(j)[k];
              return false;
            }
            k := k + 1;
          }
        }
        i := i + 1;
      }
      ok := true;
    }

    /** Copy a row, note whether it is complete, and if so count from both ends against the clues. */
    method RowMeetsClues(i: int) returns (ok: bool)
      requires Valid() && 0 <= i < size
      ensures ok <==> CluesAllow(Row(i), leftKey[i], rightKey[i])
    {
      var complete := true;
      var rowLine: seq<char> := [];
      var j := 0;
      while j < size
        invariant 0 <= j <= size
        invariant rowLine == Row(i)[..j]
        invariant complete <==> forall k :: 0 <= k < j ==> cells[i, k] != EMPTY
      {
        rowLine := rowLine + [cells[i, j]];
        if cells[i, j] == EMPTY {
          complete := false;
        }
        j := j + 1;
      }
      assert rowLine == Row(i) && rowLine[..size] == rowLine;
      assert forall k :: 0 <= k < size ==> Row(i)[k] == cells[i, k];
      assert complete <==> Complete(Row(i));
      if complete {
        var visL := CountVisible(rowLine, size);
        assert visL == SeenFromStart(Row(i));
        if leftKey[i] != 0 && visL != leftKey[i] {
          return false;
        }
        var revRow := ReverseCopy(rowLine, size);
        assert revRow[..size] == revRow;
        var visR := CountVisible(revRow, size);
        assert visR == SeenFromEnd(Row(i));
        if rightKey[i] != 0 && visR != rightKey[i] {
          return false;
        }
      }
      ok := true;
    }

    /** Copy a column, note whether it is complete, and if so count from both ends against the clues. */
    method ColumnMeetsClues(j: int) returns (ok: bool)
      requires Valid() && 0 <= j < size
      ensures ok <==> CluesAllow(Col(j), topKey[j], bottomKey[j])
    {
      var complete := true;
      var colLine: seq<char> := [];
      var i := 0;
      while i < size
        invariant 0 <= i <= size
        invariant colLine == Col(j)[..i]
        invariant complete <==> forall k :: 0 <= k < i ==> cells[k, j] != EMPTY
      {
        colLine := colLine + [cells[i, j]];
        if cells[i, j] == EMPTY {
          complete := false;
        }
        i := i + 1;
      }
      assert colLine == Col(j) && colLine[..size] == colLine;
      assert forall k :: 0 <= k < size ==> Col(j)[k] == cells[k, j];
      assert complete <==> Complete(Col(j));
      if complete {
        var visT := CountVisible(colLine, size);
        assert visT == SeenFromStart(Col(j));
        if topKey[j] != 0 && visT != topKey[j] {
          return false;
        }
        var revCol := ReverseCopy(colLine, size);
        assert revCol[..size] == revCol;
        var visB := CountVisible(revCol, size);
        assert visB == SeenFromEnd(Col(j));
        if bottomKey[j] != 0 && visB != bottomKey[j] {
          return false;
        }
      }
      ok := true;
    }

    /** The occupancy and duplicate checks both programs' try_move start with. */
    method CheckPlaceable(piece: char, row: int, col: int) returns (ok: bool)
      requires Valid() && 0 <= row < size && 0 <= col < size
      ensures ok <==> Placeable(piece, row, col)
    {
      if cells[row, col] != EMPTY {
        return false;
      }
      var j := 0;
      while j < size
        invariant 0 <= j <= size
        invariant forall k :: 0 <= k < j ==> cells[row, k] != piece
      {
        if cells[row, j] == piece {
          assert Row(row)[j] == piece;
          return false;
        }
        j := j + 1;
      }
      var i := 0;
      while i < size
        invariant 0 <= i <= size
        invariant forall k :: 0 <= k < i ==> cells[k, col] != piece
      {
        if cells[i, col] == piece {
          assert Col(col)[i] == piece;
          return false;
        }
        i := i + 1;
      }
      ok := true;
    }

    /**
     * try_move of the solver: a placeable piece is written, then kept only if
     * its row and its column, once complete, agree with their clues; on any
     * failure the board is as before.
     */
    method TryMoveWithClues(piece: char, row: int, col: int) returns (ok: bool)
      requires Valid() && 0 <= row < size && 0 <= col < size
      modifies cells
      ensures ok <==>
        && old(Placeable(piece, row, col))
        && CluesAllow(old(Row(row))[col := piece], leftKey[row], rightKey[row])
        && CluesAllow(old(Col(col))[row := piece], topKey[col], bottomKey[col])
      ensures forall i, j :: 0 <= i < MAX_LENGTH && 0 <= j < MAX_LENGTH ==>
        cells[i, j] == if ok && i == row && j == col then piece else old(cells[i, j])
    {
      ok := CheckPlaceable(piece, row, col);
      if !ok {
        return;
      }
      ghost var newRow := old(Row(row))[col := piece];
      ghost var newCol := old(Col(col))[row := piece];
      cells[row, col] := piece;
      assert Row(row) == newRow;
      assert Col(col) == newCol;
      ok := RowMeetsClues(row);
      assert ok <==> CluesAllow(Row(row), leftKey[row], rightKey[row]);
      assert Row(row) == newRow;
      if !ok {
        cells[row, col] := EMPTY;
        assert !CluesAllow(newRow, leftKey[row], rightKey[row]);
        return;
      }
      ok := ColumnMeetsClues(col);
      assert ok <==> CluesAllow(Col(col), topKey[col], bottomKey[col]);
      assert Col(col) == newCol;
      assert ok <==> CluesAllow(newCol, topKey[col], bottomKey[col]);
      if !ok {
        cells[row, col] := EMPTY;
      }
    }

    /** try_move of the visual game: the same occupancy and duplicate checks, no clue check. */
    method TryMove(piece: char, row: int, col: int) returns (ok: bool)
      requires Valid() && 0 <= row < size && 0 <= col < size
      modifies cells
      ensures ok <==> old(Placeable(piece, row, col))
      ensures forall i, j :: 0 <= i < MAX_LENGTH && 0 <= j < MAX_LENGTH ==>
        cells[i, j] == if ok && i == row && j == col then piece else old(cells[i, j])
    {
      ok := CheckPlaceable(piece, row, col);
      if ok {
        cells[row, col] := piece;
      }
    }

    /** is_board_full: no cell of the square in use is empty. */
    method IsBoardFull() returns (full: bool)
      requires Valid()
      ensures full <==> forall i, j :: 0 <= i < size && 0 <= j < size ==> !IsEmpty(i, j)
    {
      var i := 0;
      while i < size
        invariant 0 <= i <= size
        invariant forall r, c :: 0 <= r < i && 0 <= c < size ==> !IsEmpty(r, c)
      {
        var j := 0;
        while j < size
          invariant 0 <= j <= size
          invariant forall c :: 0 <= c < j ==> !IsEmpty(i, c)
        {
          if cells[i, j] == EMPTY {
            assert IsEmpty(i, j);
            return false;
          }
          j := j + 1;
        }
        i := i + 1;
      }
      full := true;
    }
  }
}
