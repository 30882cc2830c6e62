/**
 * The visual skyscraper game's input rules: a left click selects the board
 * cell under the pointer, a digit key tries to place that digit in the
 * selected cell, and 'q' or closing the window stops the game. Drawing is
 * not part of this model; the state the drawing reads (selection, error
 * message and its time stamp) is.
 */
module SkyGame {
  import opened Skyline
  import opened SkyBoard
  import Decimal

  /** Pixel size of a cell, and the margin around the board. */
  const CELL_SIZE := 50
  const MARGIN := 50

  /** SDL_BUTTON_LEFT and SDLK_q (the key code of 'q'). */
  const BUTTON_LEFT := 1
  const KEY_Q := 'q' as int

  /** The size of the errorMessage buffer. */
  const ERROR_CAPACITY := 256

  /** The events the game loop reacts to; anything else is ignored. */
  datatype Event =
    | Quit
    | MouseButtonDown(button: int, x: int, y: int)
    | KeyDown(sym: int)
    | Other

  /** The key is a digit the board accepts: '1' up to '0' + size. */
  predicate IsBoardDigit(c: int, size: int)
  {
    '1' as int <= c <= '0' as int + size
  }

  /** A key acts as a board digit exactly when the low byte of its code is that digit. */
  lemma BoardDigitIsLowByte(sym: int, size: int)
    requires 0 <= size <= MAX_LENGTH
    ensures IsBoardDigit(SignedChar(sym), size) <==> IsBoardDigit(sym % 256, size)
    ensures IsBoardDigit(SignedChar(sym), size) ==> SignedChar(sym) == sym % 256
  {
  }

  /**
   * The cell a left click at (x, y) selects: (row, column) of the cell under
   * the pointer, or (-1, -1) for a click outside the board.
   */
  function Selection(size: int, x: int, y: int): (cell: (int, int))
    requires 0 <= size
    ensures cell == (-1, -1) || (0 <= cell.0 < size && 0 <= cell.1 < size)
    ensures cell != (-1, -1) <==>
      MARGIN <= x < MARGIN + size * CELL_SIZE && MARGIN <= y < MARGIN + size * CELL_SIZE
    ensures cell != (-1, -1) ==>
      && MARGIN + cell.0 * CELL_SIZE <= y < MARGIN + (cell.0 + 1) * CELL_SIZE
      && MARGIN + cell.1 * CELL_SIZE <= x < MARGIN + (cell.1 + 1) * CELL_SIZE
  {
    if MARGIN <= x < MARGIN + size * CELL_SIZE && MARGIN <= y < MARGIN + size * CELL_SIZE then
      ((y - MARGIN) / CELL_SIZE, (x - MARGIN) / CELL_SIZE)
    else
      (-1, -1)
  }

  /** The text snprintf writes for a rejected move: "Invalid move at (%d, %d) with %c". */
  function ErrorText(row: int, col: int, key: char): string
  {
    "Invalid move at (" + Decimal.IntToString(row) + ", " + Decimal.IntToString(col) + ") with " + [key]
  }

  /** A number below 100 has at most two digits. */
  lemma TwoDigits(n: nat)
    requires n < 100
    ensures |Decimal.DigitsOf(n)| <= 2
  {
    if n >= 10 {
      assert |Decimal.DigitsOf(n / 10)| == 1;
    }
  }

  /** For any cell of a board the message fits the buffer, so snprintf never truncates it. */
  lemma ErrorTextFits(row: int, col: int, key: char)
    requires 0 <= row < MAX_LENGTH && 0 <= col < MAX_LENGTH
    ensures |ErrorText(row, col, key)| < ERROR_CAPACITY
  {
    TwoDigits(row);
    TwoDigits(col);
  }

  class Game {
    const board: Board
    var selectedRow: int
    var selectedCol: int
    var errorMessage: string
    var errorMessageTime: int
    var running: bool

    /** Nothing is selected, or a cell of the board is. */
    ghost predicate Valid()
      reads this
    {
      && board.Valid()
      && ((selectedRow == -1 && selectedCol == -1) ||
          (0 <= selectedRow < board.size && 0 <= selectedCol < board.size))
    }

    /** The globals before the event loop starts. */
    constructor (b: Board)
      requires b.Valid()
      ensures Valid() && board == b
      ensures selectedRow == -1 && selectedCol == -1
      ensures errorMessage == "" && errorMessageTime == 0 && running
    {
      board := b;
      selectedRow, selectedCol := -1, -1;
      errorMessage, errorMessageTime := "", 0;
      running := true;
    }

    /** SDL_MOUSEBUTTONDOWN: a left click selects the cell under it, or clears the selection. */
    method Click(button: int, x: int, y: int)
      requires Valid()
      modifies this
      ensures Valid()
      ensures (selectedRow, selectedCol) ==
        if button == BUTTON_LEFT then Selection(board.size, x, y) else (old(selectedRow), old(selectedCol))
      ensures errorMessage == old(errorMessage) && errorMessageTime == old(errorMessageTime) && running == old(running)
    {
      if button == BUTTON_LEFT {
        var boardPixelSize := board.size * CELL_SIZE;
        if x >= MARGIN && x < MARGIN + boardPixelSize && y >= MARGIN && y < MARGIN + boardPixelSize {
          selectedCol := (x - MARGIN) / CELL_SIZE;
          selectedRow := (y - MARGIN) / CELL_SIZE;
        } else {
          selectedRow := -1;
          selectedCol := -1;
        }
      }
    }

    /**
     * The state after key sym was handled at time ticks: the selection is
     * kept; with a cell selected and a board digit pressed, the digit is
     * placed if the board allows it (clearing the error) and otherwise the
     * board is kept and the error text and time are recorded; 'q' stops the
     * game.
     */
    twostate predicate KeyPressed(sym: int, ticks: int)
      reads this, board.cells
      requires old(Valid())
    {
      var attempt := old(selectedRow) != -1 && old(selectedCol) != -1 && IsBoardDigit(SignedChar(sym), board.size);
      var piece := if attempt then SignedChar(sym) as char else EMPTY;
      var placed := attempt && old(board.Placeable(piece, selectedRow, selectedCol));
      && selectedRow == old(selectedRow) && selectedCol == old(selectedCol)
      && running == (old(running) && sym != KEY_Q)
      && (forall i, j :: 0 <= i < MAX_LENGTH && 0 <= j < MAX_LENGTH ==>
            board.cells[i, j] == if placed && i == selectedRow && j == selectedCol then piece else old(board.cells[i, j]))
      && errorMessage == (if !attempt then old(errorMessage) else if placed then "" else ErrorText(selectedRow, selectedCol, piece))
      && errorMessageTime == (if attempt && !placed then ticks else old(errorMessageTime))
    }

    /**
     * SDL_KEYDOWN: with a cell selected, a board digit is tried there; a
     * rejected move leaves the board alone and records the error text and the
     * time. The 'q' key stops the loop whatever else happened.
     */
    method PressKey(sym: int, ticks: int)
      requires Valid()
      modifies this, board.cells
      ensures Valid()
      ensures KeyPressed(sym, ticks)
    {
      if selectedRow != -1 && selectedCol != -1 {
        var keyChar := SignedChar(sym);
        if keyChar >= '1' as int && keyChar <= '0' as int + board.size {
          var moved := board.TryMove(keyChar as char, selectedRow, selectedCol);
          if moved {
            errorMessage := "";
          } else {
            errorMessage := ErrorText(selectedRow, selectedCol, keyChar as char);
            errorMessageTime := ticks;
          }
        }
      }
      if sym == KEY_Q {
        running := false;
      }
    }

    /** One pass of the event switch in the game loop. */
    method HandleEvent(e: Event, ticks: int)
      requires Valid()
      modifies this, board.cells
      ensures Valid()
      ensures e.Quit? ==>
        && !running && unchanged(board.cells)
        && selectedRow == old(selectedRow) && selectedCol == old(selectedCol)
        && errorMessage == old(errorMessage) && errorMessageTime == old(errorMessageTime)
      ensures e.MouseButtonDown? ==>
        && unchanged(board.cells)
        && (selectedRow, selectedCol) ==
             (if e.button == BUTTON_LEFT then Selection(board.size, e.x, e.y) else (old(selectedRow), old(selectedCol)))
        && errorMessage == old(errorMessage) && errorMessageTime == old(errorMessageTime) && running == old(running)
      ensures e.KeyDown? ==> KeyPressed(e.sym, ticks)
      ensures e.Other? ==> unchanged(this) && unchanged(board.cells)
    {
      match e {
        case Quit =>
          running := false;
        case MouseButtonDown(button, x, y) =>
          Click(button, x, y);
        case KeyDown(sym) =>
          PressKey(sym, ticks);
        case Other =>
      }
    }
  }
}
