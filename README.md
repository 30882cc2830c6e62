# A verified model of four small programs

This project is a Dafny model of four programs from one repository of
small games and applications. For each one it proves what the program
promises.

- **Skyscraper puzzle.**
  - The C solver (`skyscraper_solver.c`) loads an N×N board (N ≤ 20) and its four rows of clues. It checks that the given cells neither repeat nor break a clue. It keeps a cube of candidate heights for every cell. The clues cap which heights each cell may take, and then, line by line, the solver keeps only the heights that occur in some admissible permutation of that line. It repeats these passes until a pass changes nothing.
  - The visual game (`skyscraper_visual_game.c`) shares the board, the clue rule and `try_move`. It adds cell selection by mouse, digit keys, a bounded error message and quitting.
- **Mail server.**
  - `Folder` keeps a list of emails sorted by one of four methods. The sort is stable.
  - `Mailbox` holds named folders. Inbox and Trash are always present and cannot be removed.
  - `Email` has a one-line summary.
  - A session of `EmailServer` reads lines, logs a user in (creating the mailbox on first use), and answers QUIT, INBOX, VIEW n and COMPOSE.
- **Elevator simulation.**
  - A FIFO `RequestQueue`.
  - `Request`.
  - `Elevator`, which moves one floor per shift from IDLE to the source to the destination and back to IDLE.
  - The game tick of `ElevatorGameEnhanced`, with the manual floor override and the cancel command.
- **Music search.**
  - `Song`'s ordering and text form.
  - The conversion of iTunes track milliseconds to an `m:ss` duration.

Java library behaviour the programs rely on is modelled in `java_lang.dfy` (decimal printing in `decimal.dfy`):
- `trim`;
- ASCII `toUpperCase` / `equalsIgnoreCase`;
- `startsWith`;
- `split("\\s+")`;
- `Integer.parseInt`;
- `String.compareTo`.

The files are:

| file | module | models |
|---|---|---|
| `skyline.dfy` | `Skyline` | visibility along one line, with the clue rule and its bounds |
| `sky_board.dfy` | `SkyBoard` | the board shared by both C programs: loading, validation, `try_move`, `is_board_full` |
| `sky_solver.dfy` | `SkySolver` | the candidate cube, generation of admissible sequences, filtration, sorting of lines, `solve` |
| `sky_game.dfy` | `SkyGame` | the event handling of the visual game |
| `decimal.dfy` | `Decimal` | the decimal notation of integers: Java's `Integer.toString` and C's `%d` |
| `java_lang.dfy` | `JavaLang` | the Java string operations and `Integer.parseInt`, used by the Java programs |
| `email.dfy` | `Emails` | `Email` and `Email.toString` |
| `folder.dfy` | `Folders` | `Folder`, with its sort as a reference insertion sort |
| `mailbox.dfy` | `Mailboxes` | `Mailbox` |
| `email_server.dfy` | `EmailServer` | the mailbox map and one client session of `EmailServer` |
| `elevator.dfy` | `Elevators` | `Request`, `RequestQueue`, `Elevator` and the `ElevatorGameEnhanced` logic |
| `music.dfy` | `Music` | `Song` and the duration logic of `ITunesAPIClient` |

The solver records at most MAX_SEQUENCE_CAP (50000) admissible sequences
per line, in the order its search finds them, and filters each cell against
the recorded ones only. From size 9 on a line can have more admissible
sequences than that (9! = 362880 for an empty line without clues), and then
a cell can lose a candidate that some unrecorded sequence uses. The model
keeps this behaviour: it proves that every recorded sequence is admissible,
and that filtration keeps the union of the recorded ones.

Both C programs check a clue only against a complete line. A line that
still has an empty cell (`'-'`) passes its clues whatever they are, and
`count_visible` skips empty cells.

## Model

| member | source | states |
|---|---|---|
| `Skyline.SignedChar` | skyscraperBoardgame/skyscraper_solver.c:30 | a C char holds the low byte of a code read as a signed byte: between -128 and 127 and congruent to the code mod 256 |
| `Skyline.Height` | skyscraperBoardgame/skyscraper_solver.c:30 | the height a cell stands for is its signed char minus '0', which for an ASCII character is its digit value |
| `Skyline.Heights` | skyscraperBoardgame/skyscraper_solver.c:27-39 | one height per cell, its signed char minus '0' as `line[i] - '0'` computes it, and 0 for an empty cell |
| `Skyline.VisibleCountsRecords` | skyscraperBoardgame/skyscraper_solver.c:27-39 | the number of buildings seen is the number of positions that are strictly taller than everything before them |
| `Skyline.Tallest` | skyscraperBoardgame/skyscraper_solver.c:27-39 | the running maximum over a start of 0, bounded and attained as TallestBounds proves |
| `Skyline.Visible` | skyscraperBoardgame/skyscraper_solver.c:27-39 | the number of buildings seen, which VisibleCountsRecords ties to the positions taller than all before them |
| `Skyline.TallestBounds` | skyscraperBoardgame/skyscraper_solver.c:27-39 | the running maximum bounds every height and is attained by one of them, unless it is 0 |
| `Skyline.VisibleAtMost` | skyscraperBoardgame/skyscraper_solver.c:27-39 | no more buildings are seen than the line has cells |
| `Skyline.TallestSeen` | skyscraperBoardgame/skyscraper_solver.c:27-39 | a line with any building sees at least one |
| `Skyline.IncreasingAllSeen` | skyscraperBoardgame/skyscraper_solver.c:27-39 | a strictly rising line sees every building |
| `Skyline.SeenAfter` | skyscraperBoardgame/skyscraper_solver.c:27-39 | the height at a position plus the count seen in a prefix is bounded by the position and the prefix's maximum |
| `Skyline.ClueBound` | skyscraperBoardgame/skyscraper_solver.c:416-422 | in a line of heights at most n with clue v, the cell at distance d is at most n - v + 1 + d, which is the CAP rule |
| `Skyline.VisibleIgnoresEmpty` | skyscraperBoardgame/skyscraper_visual_game.c:25-37 | empty cells never change the count seen or the tallest height |
| `Skyline.Reverse` | skyscraperBoardgame/skyscraper_solver.c:121-124 | the reversed line read from its end, as the right and bottom clues read it |
| `Skyline.SeenFromStart` | skyscraperBoardgame/skyscraper_solver.c:109-128 | the count_visible of a line from its start, bounded as VisibleAtMost and TallestSeen state |
| `Skyline.SeenFromEnd` | skyscraperBoardgame/skyscraper_solver.c:109-128 | the count_visible of a line read from its end, as SeenFromStart of the reversed line |
| `Skyline.CluesAllow` | skyscraperBoardgame/skyscraper_solver.c:109-128 | a complete line meets both clues, a 0 clue being no clue; a line with an empty cell passes, as RowMeetsClues and ColumnMeetsClues state |
| `Skyline.NoRepeats` | skyscraperBoardgame/skyscraper_solver.c:85-95 | no height occurs twice among the filled cells, which RowRepeatFree and ColumnRepeatFree compute |
| `SkyBoard.CountVisible` | skyscraperBoardgame/skyscraper_solver.c:27-39 | the loop over the first size cells returns the number of buildings seen from the start |
| `SkyBoard.ReverseCopy` | skyscraperBoardgame/skyscraper_solver.c:121-123 | the copy loop produces the first size cells in reverse order |
| `SkyBoard.RowMajorInRange` | skyscraperBoardgame/skyscraper_solver.c:72-76 | the row-major index i*n+j of a cell lies inside the n*n input |
| `SkyBoard.Board.constructor` | skyscraperBoardgame/skyscraper_solver.c:13-17 | a zeroed MAX_LENGTH board and four fresh clue arrays |
| `SkyBoard.Board.Row` | skyscraperBoardgame/skyscraper_solver.c:85-95 | a row of the board has size cells |
| `SkyBoard.Board.Col` | skyscraperBoardgame/skyscraper_solver.c:97-107 | a column of the board has size cells |
| `SkyBoard.Board.Consistent` | skyscraperBoardgame/skyscraper_solver.c:85-149 | every row and column is free of repeats and meets its clues: what Validate and InitializeBoard return |
| `SkyBoard.Board.Placeable` | skyscraperBoardgame/skyscraper_visual_game.c:127-147 | the cell is empty and the piece is nowhere in its row or column: what CheckPlaceable and TryMove decide |
| `SkyBoard.Board.InitializeBoard` | skyscraperBoardgame/skyscraper_solver.c:70-151 | the board and the four clue arrays hold the input, nothing outside size changes, and the result is true iff no line repeats a height or breaks a clue |
| `SkyBoard.Board.LoadCells` | skyscraperBoardgame/skyscraper_solver.c:72-76 | each cell (i, j) holds input character i*size+j, and the cells outside size are unchanged |
| `SkyBoard.Board.LoadKeys` | skyscraperBoardgame/skyscraper_solver.c:78-83 | top, bottom, left and right clues come from the four quarters of the key string, in that order |
| `SkyBoard.Board.Validate` | skyscraperBoardgame/skyscraper_solver.c:85-149 | true iff every row and column is free of repeats and meets its clues |
| `SkyBoard.Board.CheckRows` | skyscraperBoardgame/skyscraper_solver.c:85-95 | the loop over the rows returns true iff no row repeats a height |
| `SkyBoard.Board.CheckColumns` | skyscraperBoardgame/skyscraper_solver.c:97-107 | the loop over the columns returns true iff no column repeats a height |
| `SkyBoard.Board.CheckRowClues` | skyscraperBoardgame/skyscraper_solver.c:109-128 | the loop over the rows returns true iff every row agrees with its left and right clues |
| `SkyBoard.Board.CheckColumnClues` | skyscraperBoardgame/skyscraper_solver.c:130-149 | the loop over the columns returns true iff every column agrees with its top and bottom clues |
| `SkyBoard.Board.RowsRepeatFree` | skyscraperBoardgame/skyscraper_solver.c:85-95 | no row before n repeats a height; with n = size, the first part of Consistent |
| `SkyBoard.Board.ColumnsRepeatFree` | skyscraperBoardgame/skyscraper_solver.c:97-107 | no column before n repeats a height; with n = size, the second part of Consistent |
| `SkyBoard.Board.RowsMeetClues` | skyscraperBoardgame/skyscraper_solver.c:109-128 | every row before n agrees with its left and right clues; with n = size, the third part of Consistent |
| `SkyBoard.Board.ColumnsMeetClues` | skyscraperBoardgame/skyscraper_solver.c:130-149 | every column before n agrees with its top and bottom clues; with n = size, the fourth part of Consistent |
| `SkyBoard.Board.RowRepeatFree` | skyscraperBoardgame/skyscraper_solver.c:85-95 | true iff no height repeats in the row (empty cells aside) |
| `SkyBoard.Board.ColumnRepeatFree` | skyscraperBoardgame/skyscraper_solver.c:97-107 | true iff no height repeats in the column (empty cells aside) |
| `SkyBoard.Board.RowMeetsClues` | skyscraperBoardgame/skyscraper_solver.c:109-128 | true iff the row meets its left and right clues (a 0 clue is no clue, and a row with an empty cell is not checked) |
| `SkyBoard.Board.ColumnMeetsClues` | skyscraperBoardgame/skyscraper_solver.c:130-149 | true iff the column meets its top and bottom clues (a column with an empty cell is not checked) |
| `SkyBoard.Board.CheckPlaceable` | skyscraperBoardgame/skyscraper_visual_game.c:127-147 | true iff the cell is empty and the piece occurs nowhere else in its row or column |
| `SkyBoard.Board.TryMoveWithClues` | skyscraperBoardgame/skyscraper_solver.c:159-227 | the move is made iff the cell is placeable and the row and column with the piece still meet their clues; otherwise the board is unchanged |
| `SkyBoard.Board.TryMove` | skyscraperBoardgame/skyscraper_visual_game.c:127-147 | the move is made iff the cell is placeable, and then only that cell changes |
| `SkyBoard.Board.IsBoardFull` | skyscraperBoardgame/skyscraper_visual_game.c:150-156 | true iff no cell of the board is empty |
| `SkyGame.BoardDigitIsLowByte` | skyscraperBoardgame/skyscraper_visual_game.c:364-380 | a key is accepted as a board digit iff its low byte is one, and then the `(char)` cast (SignedChar) is that byte |
| `SkyGame.Selection` | skyscraperBoardgame/skyscraper_visual_game.c:346-363 | a click inside the grid selects the cell under the pointer; any other click clears the selection |
| `SkyGame.ErrorText` | skyscraperBoardgame/skyscraper_visual_game.c:372 | the "Invalid move at (row, col) with key" text, which ErrorTextFits bounds below the buffer size |
| `SkyGame.ErrorTextFits` | skyscraperBoardgame/skyscraper_visual_game.c:372 | the "Invalid move" message always fits the 256-byte buffer |
| `SkyGame.Game.constructor` | skyscraperBoardgame/skyscraper_visual_game.c:174-179 | nothing selected, no error message, running |
| `SkyGame.Game.Click` | skyscraperBoardgame/skyscraper_visual_game.c:346-363 | a left click sets the selection as Selection says; other buttons and the rest of the state are untouched |
| `SkyGame.Game.PressKey` | skyscraperBoardgame/skyscraper_visual_game.c:364-380 | the key has the effect KeyPressed states: a digit key with a selected cell places the piece iff it is placeable, and otherwise sets the error text and time; q stops the game |
| `SkyGame.Game.KeyPressed` | skyscraperBoardgame/skyscraper_visual_game.c:364-380 | the effect of a key: the selection is kept, a board digit on a selected cell is placed iff placeable and otherwise sets the error text and time, and q stops the game |
| `SkyGame.Game.HandleEvent` | skyscraperBoardgame/skyscraper_visual_game.c:341-382 | quit stops the game and changes nothing else; a click selects as Click does without touching the board; a key press has the effect KeyPressed states; other events change nothing |
| `SkySolver.Swap` | skyscraperBoardgame/skyscraper_solver.c:360-364 | exchanging two entries is a permutation that touches only those two |
| `SkySolver.CapsKeepLines` | skyscraperBoardgame/skyscraper_solver.c:415-460 | the clue caps never exclude a height of a permutation line that meets both its clues |
| `SkySolver.CapKeepsStart` | skyscraperBoardgame/skyscraper_solver.c:415-437 | the cap from the start clue never excludes the height of a line that meets that clue |
| `SkySolver.Indices` | skyscraperBoardgame/skyscraper_solver.c:343-345 | the identity order 0..n-1 |
| `SkySolver.CountRising` | skyscraperBoardgame/skyscraper_solver.c:238-241 | the loop counts the buildings seen from the start of a candidate sequence |
| `SkySolver.CountRisingFromEnd` | skyscraperBoardgame/skyscraper_solver.c:242-245 | the loop counts the buildings seen from the end of a candidate sequence |
| `SkySolver.Solver.constructor` | skyscraperBoardgame/skyscraper_solver.c:19-20 | an all-false candidate cube over the given board |
| `SkySolver.Solver.Allows` | skyscraperBoardgame/skyscraper_solver.c:259-282 | a height may stand at a position iff it is in 1..size, still a candidate there, and the cell's own value when the cell is filled |
| `SkySolver.Solver.Admissible` | skyscraperBoardgame/skyscraper_solver.c:231-283 | a sequence the search may record: a permutation of 1..size that every position allows and that meets both clues of the line |
| `SkySolver.Solver.GenerateSequences` | skyscraperBoardgame/skyscraper_solver.c:231-283 | the backtracking search restores its scratch arrays, keeps at most MAX_SEQUENCE_CAP sequences, and each one it records is a permutation that agrees with the fixed cells and candidates and meets both clues |
| `SkySolver.Solver.Record` | skyscraperBoardgame/skyscraper_solver.c:246-255 | a complete sequence is appended iff it is admissible and fewer than MAX_SEQUENCE_CAP are stored; otherwise the list is unchanged |
| `SkySolver.Solver.Branch` | skyscraperBoardgame/skyscraper_solver.c:273-282 | trying one value at a position only appends admissible sequences and restores the scratch arrays |
| `SkySolver.Solver.Extend` | skyscraperBoardgame/skyscraper_solver.c:276-277 | placing an allowed unused value extends the prefix and marks the value used |
| `SkySolver.Solver.ValidSequences` | skyscraperBoardgame/skyscraper_solver.c:286-295 | at most MAX_SEQUENCE_CAP sequences, each admissible for the line |
| `SkySolver.Solver.NarrowingShrinks` | skyscraperBoardgame/skyscraper_solver.c:462-465 | when cells and candidates only narrow, the live candidates and the empty cells only shrink, and they stay equal iff nothing changed |
| `SkySolver.Solver.SequenceFiltrationLine` | skyscraperBoardgame/skyscraper_solver.c:298-339 | each empty cell of the line keeps exactly the candidates some recorded sequence uses there, and is filled when one remains; the other cells are kept; the result says whether anything changed |
| `SkySolver.Solver.FilterLine` | skyscraperBoardgame/skyscraper_solver.c:311-332 | the per-cell loop narrows every empty cell of the line to its sequence union and leaves the rest alone |
| `SkySolver.Solver.FilterAt` | skyscraperBoardgame/skyscraper_solver.c:311-332 | one cell is narrowed to the union of the sequences at its position, and no other cell changes |
| `SkySolver.Solver.RefineCell` | skyscraperBoardgame/skyscraper_solver.c:311-332 | candidates not in the union are dropped; the cell is filled iff one candidate remains, and then with that value |
| `SkySolver.Solver.UnionOf` | skyscraperBoardgame/skyscraper_solver.c:311-315 | the flags mark exactly the values some sequence has at the position |
| `SkySolver.Solver.DropUnsupported` | skyscraperBoardgame/skyscraper_solver.c:316-321 | a candidate survives iff it is supported by the union, and the result says whether any was removed |
| `SkySolver.Solver.CountCandidates` | skyscraperBoardgame/skyscraper_solver.c:322-332 | the count is 1 iff the cell has exactly one candidate, and then the last index is that candidate |
| `SkySolver.Solver.EmptiesBefore` | skyscraperBoardgame/skyscraper_solver.c:348-353 | the empty cells counted before k are at most k |
| `SkySolver.Solver.CountPair` | skyscraperBoardgame/skyscraper_solver.c:348-359 | the two loops count the empty cells of both lines |
| `SkySolver.Solver.GetSortedIndices` | skyscraperBoardgame/skyscraper_solver.c:342-367 | the order is a permutation of 0..size-1, sorted by the number of empty cells |
| `SkySolver.Solver.SelectSmallest` | skyscraperBoardgame/skyscraper_solver.c:346-366 | one pass of the outer loop keeps the prefix, permutes the rest and places a line with fewest empty cells at i |
| `SkySolver.Solver.FilterLines` | skyscraperBoardgame/skyscraper_solver.c:372-385 | filtering the lines in the given order only narrows, never changes a filled cell, fills only with a sole candidate, and reports any change |
| `SkySolver.Solver.ApplyFiltrationPass` | skyscraperBoardgame/skyscraper_solver.c:370-387 | one pass over rows and columns only narrows, and it returns true iff the candidates or the filled cells changed |
| `SkySolver.Solver.InitCell` | skyscraperBoardgame/skyscraper_solver.c:401-412 | a filled cell's only candidate is its own height; an empty cell allows every height |
| `SkySolver.Solver.InitRow` | skyscraperBoardgame/skyscraper_solver.c:401-412 | one row of the candidate cube is initialised, and no other row changes |
| `SkySolver.Solver.InitCandidates` | skyscraperBoardgame/skyscraper_solver.c:401-412 | every cell inside the board is initialised, and after that a filled cell has its own height as its sole candidate |
| `SkySolver.Solver.PruneCell` | skyscraperBoardgame/skyscraper_solver.c:419-423 | heights from the bound up to size are removed from one cell, and nothing else changes |
| `SkySolver.Solver.PruneLine` | skyscraperBoardgame/skyscraper_solver.c:415-460 | for one clue, each empty cell at distance d loses exactly the heights above CAP(clue, size, d); filled cells and other lines keep theirs |
| `SkySolver.Solver.PruneColumn` | skyscraperBoardgame/skyscraper_solver.c:415-437 | the top and bottom clues cap every empty cell of the column, and other columns are untouched |
| `SkySolver.Solver.PruneRow` | skyscraperBoardgame/skyscraper_solver.c:438-460 | the left and right clues cap every empty cell of the row, and other rows are untouched |
| `SkySolver.Solver.ApplyClues` | skyscraperBoardgame/skyscraper_solver.c:415-460 | a candidate survives iff no clue of its row or column excludes it |
| `SkySolver.Solver.Propagate` | skyscraperBoardgame/skyscraper_solver.c:462-465 | the do-while loop ends, because each productive pass shrinks the live candidates or the empty cells; filled cells stay filled and new ones hold their sole candidate |
| `SkySolver.Solver.Solve` | skyscraperBoardgame/skyscraper_solver.c:394-469 | on failure the board is the inconsistent input and the cube is untouched; on success the given cells are kept and every filled empty cell holds its sole candidate |
| `JavaLang.TrimStartDrops` | emailapp/EmailServer.java:62 | trim's leading part drops only characters at or below a space |
| `JavaLang.TrimEndDrops` | emailapp/EmailServer.java:62 | trim's trailing part drops only characters at or below a space |
| `JavaLang.TrimStart` | emailapp/EmailServer.java:62 | the line without its leading characters at or below a space, as TrimStartDrops proves |
| `JavaLang.TrimEnd` | emailapp/EmailServer.java:62 | the line without its trailing characters at or below a space, as TrimEndDrops proves |
| `JavaLang.Trim` | emailapp/EmailServer.java:62 | the trimmed line neither starts nor ends with a character at or below a space |
| `JavaLang.TrimInfix` | emailapp/EmailServer.java:62 | the trimmed line is a contiguous slice, and everything cut off on either side is trimmable |
| `JavaLang.TrimNothingToTrim` | emailapp/EmailServer.java:62 | a line with nothing to trim is returned as it is |
| `JavaLang.TrimIdempotent` | emailapp/EmailServer.java:62 | trimming twice is trimming once |
| `JavaLang.UpperAscii` | emailapp/EmailServer.java:67 | lower-case letters become upper-case, and every other character is kept |
| `JavaLang.ToUpper` | emailapp/EmailServer.java:67 | upper-casing keeps the length |
| `JavaLang.ToUpperAt` | emailapp/EmailServer.java:67 | each character is upper-cased in place |
| `JavaLang.EqualsIgnoreCase` | emailapp/EmailServer.java:83-90 | equal lengths and equal characters up to ASCII case, which EqualsIgnoreCaseUpper ties to upper-casing |
| `JavaLang.EqualsIgnoreCaseUpper` | emailapp/EmailServer.java:83-90 | equalsIgnoreCase holds iff the upper-cased strings are equal |
| `JavaLang.StartsWith` | emailapp/EmailServer.java:67 | the prefix test, which StartsWithPrefix ties to the string's first characters |
| `JavaLang.StartsWithPrefix` | emailapp/EmailServer.java:67 | startsWith holds iff the prefix is the string's first characters |
| `JavaLang.DropSpaces` | emailapp/EmailServer.java:68 | what remains after skipping leading whitespace starts with a non-space |
| `JavaLang.TakeWord` | emailapp/EmailServer.java:68 | a token is a prefix of the text and ends at whitespace or at the end |
| `JavaLang.NoSpaceEach` | emailapp/EmailServer.java:68 | a word has no whitespace character at any position |
| `JavaLang.TakeWordHasNoSpace` | emailapp/EmailServer.java:68 | every token split off is free of whitespace |
| `JavaLang.Words` | emailapp/EmailServer.java:68 | the maximal runs of non-whitespace characters, left to right, each a word by WordsAreWords |
| `JavaLang.WordsAreWords` | emailapp/EmailServer.java:68 | every token of split is non-empty and free of whitespace |
| `JavaLang.SplitWhitespace` | emailapp/EmailServer.java:68 | a trimmed non-empty line splits into at least one token, and its first token is its first word |
| `JavaLang.TakeWordOfWord` | emailapp/EmailServer.java:116 | a word followed by whitespace or nothing is taken whole |
| `JavaLang.WordsOfWord` | emailapp/EmailServer.java:116 | a space followed by a word splits into that word |
| `JavaLang.WordsCons` | emailapp/EmailServer.java:116 | splitting text that starts with a word gives that word, then the split of the rest |
| `JavaLang.SplitTwoWords` | emailapp/EmailServer.java:116 | "a b" splits into exactly [a, b] |
| `Decimal.AllDigitsEach` | emailapp/EmailServer.java:122 | a digit string has a digit at every position |
| `Decimal.DigitChar` | emailapp/EmailServer.java:111 | the character for a digit is that digit |
| `Decimal.DigitsOf` | emailapp/EmailServer.java:111 | the decimal form of a number is non-empty and all digits |
| `Decimal.IntToString` | emailapp/EmailServer.java:111 | an optional '-' and the digits of the magnitude, which ParseIntToString reads back |
| `Decimal.DigitsRoundTrip` | emailapp/EmailServer.java:122 | reading the decimal digits of n gives n back |
| `JavaLang.ParseInt` | emailapp/EmailServer.java:122 | an optional sign, then one or more ASCII digits, with a value in the 32-bit range, and otherwise None for the NumberFormatException; ParseIntToString is its round trip |
| `JavaLang.IntToStringIsWord` | emailapp/EmailServer.java:111 | a printed integer is a single whitespace-free token |
| `JavaLang.ParseIntToString` | emailapp/EmailServer.java:122 | Integer.parseInt of a printed 32-bit int returns it |
| `JavaLang.Units` | spotifyclone/Song.java:34 | a character is one UTF-16 code unit below U+10000 (never a surrogate), otherwise a high then a low surrogate |
| `JavaLang.UnitsPrefix` | spotifyclone/Song.java:34 | the code units of one character are never the start of those of another, so the encoding can be cut after the first character |
| `JavaLang.Utf16Injective` | spotifyclone/Song.java:34 | two strings with the same UTF-16 code units are equal |
| `JavaLang.CompareUnitsZero` | spotifyclone/Song.java:34 | comparing code unit sequences gives 0 iff they are equal |
| `JavaLang.CompareUnitsAntisymmetric` | spotifyclone/Song.java:34 | swapping two code unit sequences flips the sign of the comparison |
| `JavaLang.CompareUnitsTransitive` | spotifyclone/Song.java:34 | the at-most-zero relation on code unit sequences is transitive |
| `JavaLang.CompareStrings` | spotifyclone/Song.java:34 | compareTo on the UTF-16 code units: the first differing pair decides, else the length; its order laws are the four lemmas below |
| `JavaLang.SurrogatesSortLow` | spotifyclone/Song.java:34 | a character above U+FFFF sorts before U+FFFD, though its code point is larger, because compareTo sees its high surrogate |
| `JavaLang.CompareStringsZero` | spotifyclone/Song.java:33-36 | compareTo is 0 iff the strings are equal |
| `JavaLang.CompareStringsAntisymmetric` | spotifyclone/Song.java:33-36 | swapping the arguments flips the sign of compareTo |
| `JavaLang.CompareStringsTransitive` | spotifyclone/Song.java:33-36 | compareTo's at-most-zero relation is transitive |
| `JavaLang.CompareStringsTotal` | spotifyclone/Song.java:33-36 | any two strings are comparable |
| `Emails.Summary` | emailapp/Email.java:31-35 | the summary starts with the bracketed time |
| `Emails.SummaryEndsWithSubject` | emailapp/Email.java:31-35 | the summary ends with "] " followed by the subject |
| `Folders.ModeOf` | emailapp/Folder.java:33-48 | each of the four method names selects its own sort order, and any other name selects none |
| `Folders.NotAfter` | emailapp/Folder.java:33-48 | each method's comparator as a may-come-first order, total and transitive by NotAfterTotal and NotAfterTransitive |
| `Folders.Sortable` | emailapp/Folder.java:41-46 | the comparator can run on the list: sorting by subject needs every subject non-null |
| `Folders.Insert` | emailapp/Folder.java:33-48 | one insertion step of the reference sort, placing the email after all that may come first |
| `Folders.SortBy` | emailapp/Folder.java:33-48 | the reference stable sort: a sorted permutation keeping equal keys in order, as SortSorted, SortPermutation and SortStable prove |
| `Folders.Arrange` | emailapp/Folder.java:33-48 | the list a sortingMethod leaves: sorted by a known method, unchanged by an unknown one, as ArrangeProperties proves |
| `Folders.NotAfterTotal` | emailapp/Folder.java:33-48 | any two emails are ordered one way or the other by each comparator |
| `Folders.NotAfterTransitive` | emailapp/Folder.java:33-48 | each comparator's order is transitive |
| `Folders.InsertPermutation` | emailapp/Folder.java:33-48 | insertion adds exactly the one email |
| `Folders.InsertSorted` | emailapp/Folder.java:33-48 | insertion into a sorted list keeps it sorted |
| `Folders.SortPermutation` | emailapp/Folder.java:33-48 | sorting keeps the same emails |
| `Folders.SortSorted` | emailapp/Folder.java:33-48 | the sorted list is in comparator order |
| `Folders.KeyClassAppend` | emailapp/Folder.java:33-48 | the emails with one key are taken from a concatenation piece by piece |
| `Folders.InsertKeyClass` | emailapp/Folder.java:33-48 | inserting an email places it after every earlier email with the same key |
| `Folders.SortStable` | emailapp/Folder.java:33-48 | sorting keeps the original order of emails with equal keys, as List.sort promises |
| `Folders.ArrangeProperties` | emailapp/Folder.java:33-48 | the rearranged list is a permutation; an unknown method leaves it as it is, and a known one sorts it stably |
| `Folders.RemoveKeepsSorted` | emailapp/Folder.java:29-31 | removing one email keeps a sorted list sorted |
| `Folders.Folder.constructor` | emailapp/Folder.java:14-19 | a named empty folder sorted by "dateDesc" |
| `Folders.Folder.AddEmail` | emailapp/Folder.java:24-27 | the email is appended and the list is re-sorted by the folder's method |
| `Folders.Folder.RemoveEmail` | emailapp/Folder.java:29-31 | an index in range removes and returns that email; any other index changes nothing |
| `Folders.Folder.SortEmails` | emailapp/Folder.java:33-48 | the list becomes its arrangement under the current method |
| `Folders.Folder.SetSortingMethod` | emailapp/Folder.java:50-53 | the method is stored and the list is re-sorted by it |
| `Mailboxes.IndexNamed` | emailapp/Mailbox.java:30-35 | the first folder with the name, or -1 iff there is none |
| `Mailboxes.Mailbox.constructor` | emailapp/Mailbox.java:19-22 | a mailbox holding just an empty Inbox and an empty Trash |
| `Mailboxes.Mailbox.GetFolder` | emailapp/Mailbox.java:37-39 | null iff no folder has the name; otherwise a folder of the mailbox with that name |
| `Mailboxes.Mailbox.PermanentFolders` | emailapp/Mailbox.java:15-22 | looking up Inbox and Trash always finds the mailbox's own two folders |
| `Mailboxes.Mailbox.AddFolder` | emailapp/Mailbox.java:24-28 | a new empty folder is appended iff the name is not taken; otherwise nothing changes |
| `Mailboxes.Mailbox.RemoveFolder` | emailapp/Mailbox.java:30-35 | the first folder with the name is removed iff it exists and is neither Inbox nor Trash; otherwise nothing changes |
| `EmailServer.ListingFromLines` | emailapp/EmailServer.java:110-112 | the listing from k on has one line per remaining email, numbered from k+1 |
| `EmailServer.ListingFrom` | emailapp/EmailServer.java:110-112 | the lines the loop prints from email k on, as ListingFromLines states |
| `EmailServer.ListingLines` | emailapp/EmailServer.java:104-113 | a non-empty inbox is listed one line per email as "i: summary", numbered from 1 |
| `EmailServer.Listing` | emailapp/EmailServer.java:104-113 | the INBOX reply: "Inbox is empty." or one "i: summary" line per email, as ListingLines states |
| `EmailServer.Details` | emailapp/EmailServer.java:127-132 | the six VIEW lines: To, CC, BCC, Subject, Body and the timestamp, nulls printed as "null" |
| `EmailServer.ViewReply` | emailapp/EmailServer.java:115-138 | VIEW answers with one error line or with the six detail lines |
| `EmailServer.ViewCommandOf` | emailapp/EmailServer.java:116-122 | "VIEW n" splits into the command and n, and n parses back |
| `EmailServer.ListedNumberViews` | emailapp/EmailServer.java:104-138 | the number INBOX prints in front of an email is the one VIEW takes to show that email |
| `EmailServer.ViewOutOfRange` | emailapp/EmailServer.java:124-125 | VIEW with a number outside 1..size answers "Invalid email index." |
| `EmailServer.CommandOf` | emailapp/EmailServer.java:83-94 | a line is QUIT iff it equals "quit" ignoring case, and COMPOSE only if it equals "compose" ignoring case |
| `EmailServer.LoginIsNoCommand` | emailapp/EmailServer.java:66-94 | a LOGIN line is never a logged-in command: a second LOGIN is unknown, and no command is accepted before login |
| `EmailServer.MailboxStore.constructor` | emailapp/EmailServer.java:21 | the shared map starts empty |
| `EmailServer.MailboxStore.GetOrCreate` | emailapp/EmailServer.java:72 | computeIfAbsent returns the user's mailbox; if absent, it adds a fresh empty one and keeps every other entry |
| `EmailServer.MailboxStore.InboxUpdated` | emailapp/EmailServer.java:155 | adding to one inbox keeps the whole store valid |
| `EmailServer.LineReader.constructor` | emailapp/EmailServer.java:57 | the reader starts at the first line |
| `EmailServer.LineReader.ReadLine` | emailapp/EmailServer.java:61 | returns the next line, or null at the end of the stream, and advances |
| `EmailServer.ClientHandler.constructor` | emailapp/EmailServer.java:54-57 | no output, no user and no mailbox, with a fresh reader over the input |
| `EmailServer.ClientHandler.Run` | emailapp/EmailServer.java:54-102 | the welcome line comes first; a user once logged in stays logged in with the same mailbox; the session ends at the end of the input or with GOODBYE; every existing user keeps their mailbox in the map, and no mailbox or inbox other than the session user's inbox changes |
| `EmailServer.ClientHandler.Step` | emailapp/EmailServer.java:61-95 | at end of input it stops and changes nothing; a line blank after trimming is skipped with nothing else changed; otherwise the trimmed line gets LoginReply before login and CommandReply after it, stopping iff it is QUIT; only the session, the reader, the mailbox map and the user's own inbox may change, and no user's entry in the map is replaced |
| `EmailServer.ClientHandler.Handle` | emailapp/EmailServer.java:66-95 | before login the line gets LoginReply and never stops the session; after login it gets CommandReply, the user stays, and the session stops iff the line is QUIT |
| `EmailServer.ClientHandler.LoginReply` | emailapp/EmailServer.java:66-80 | a non-LOGIN line and a LOGIN without a name are refused with their messages and change nothing else; LOGIN name logs in with the second token, reusing that user's mailbox or adding an empty one, and greets |
| `EmailServer.ClientHandler.LogIn` | emailapp/EmailServer.java:66-80 | the line has the effect LoginReply states, and a mailbox created for it is fresh |
| `EmailServer.ClientHandler.Enter` | emailapp/EmailServer.java:70-74 | the user is logged in with their mailbox from the map, created empty if absent, and greeted |
| `EmailServer.ClientHandler.CommandReply` | emailapp/EmailServer.java:83-94 | QUIT prints goodbye, INBOX the listing, VIEW the ViewReply, anything else the unknown-command line, each without reading input or touching the inbox; COMPOSE has the effect Composed states |
| `EmailServer.ClientHandler.Dispatch` | emailapp/EmailServer.java:83-94 | quit iff QUIT, and the line has the effect CommandReply states |
| `EmailServer.ClientHandler.InboxFound` | emailapp/EmailServer.java:105 | getFolder("Inbox") finds the user's inbox, which never sorts by subject |
| `EmailServer.ClientHandler.ListInbox` | emailapp/EmailServer.java:104-113 | appends the inbox listing, or "Inbox is empty." |
| `EmailServer.ClientHandler.ViewEmail` | emailapp/EmailServer.java:115-138 | appends ViewReply for the user's inbox, checking the tokens, the number and the index in the order the method does |
| `EmailServer.ClientHandler.Prompt` | emailapp/EmailServer.java:141-151 | prints the prompt and reads the next line, or null at the end of the input |
| `EmailServer.ClientHandler.Composed` | emailapp/EmailServer.java:140-157 | after COMPOSE the five answers read (null past the end of input) make an email stamped with the clock, the inbox is that email added and re-arranged by its method, and the seven dialogue lines are printed |
| `EmailServer.ClientHandler.ComposeEmail` | emailapp/EmailServer.java:140-157 | prints the dialogue, reads five answers, and adds the email stamped with the clock to the inbox, which stays sorted by its method |
| `Elevators.StepBounded` | elevatorsim/Elevator.java:31-49 | one shift moves at most one floor, keeps the state among IDLE, TO_SOURCE and TO_DESTINATION, and only ever drops the request |
| `Elevators.Target` | elevatorsim/Elevator.java:34-35 | the floor the car heads for: the source, the destination, or its own floor when IDLE |
| `Elevators.Step` | elevatorsim/Elevator.java:31-49 | one shift of the car, bounded by StepBounded and driving a trip to completion by DriveTo and TripCompletes |
| `Elevators.PicksUp` | elevatorsim/Elevator.java:37-41 | the shift that reaches the source of the request, which is when the wait is counted |
| `Elevators.DriveTo` | elevatorsim/Elevator.java:31-49 | a car heading for a floor reaches it after exactly as many shifts as the distance |
| `Elevators.StepsAdd` | elevatorsim/Elevator.java:31-49 | m shifts followed by n shifts are m+n shifts |
| `Elevators.TripCompletes` | elevatorsim/Elevator.java:31-49 | a dispatched request is carried to its destination, after which the car is IDLE with no request |
| `Elevators.FifoOrder` | elevatorsim/RequestQueue.java:7-17 | whatever interleaving of enqueues and dequeues, the items dequeued and still waiting are exactly the enqueued ones, in order |
| `Elevators.Request.constructor` | elevatorsim/Request.java:8-12 | a request with zero floors and time |
| `Elevators.Request.Drawn` | elevatorsim/Request.java:15-19 | a request with the two floors drawn in range |
| `Elevators.Request.SetSourceFloor` | elevatorsim/Request.java:22 | only the source floor changes |
| `Elevators.Request.SetDestinationFloor` | elevatorsim/Request.java:24 | only the destination floor changes |
| `Elevators.Request.SetTimeEntered` | elevatorsim/Request.java:26 | only the entry time changes |
| `Elevators.RequestQueue.constructor` | elevatorsim/RequestQueue.java:6 | an empty queue |
| `Elevators.RequestQueue.Enqueue` | elevatorsim/RequestQueue.java:7-9 | the request goes to the back |
| `Elevators.RequestQueue.Dequeue` | elevatorsim/RequestQueue.java:11-17 | the front request is removed and returned; an empty queue gives None, standing for the NoSuchElementException |
| `Elevators.Elevator.constructor` | elevatorsim/Elevator.java:13-17 | floor 1, IDLE, no request |
| `Elevators.Elevator.SetCurrentFloor` | elevatorsim/Elevator.java:20 | only the floor changes |
| `Elevators.Elevator.SetRequest` | elevatorsim/Elevator.java:28 | only the request changes |
| `Elevators.Elevator.SetElevatorState` | elevatorsim/Elevator.java:22-26 | a known state is stored; an unknown one is rejected and leaves the elevator unchanged |
| `Elevators.Elevator.Shift` | elevatorsim/Elevator.java:31-49 | the elevator takes one step of the trip; a pick-up adds the wait to the total and counts one served request |
| `Elevators.Simulation.constructor` | elevatorsim/ElevatorGameEnhanced.java:84-88 | an empty queue, an idle elevator at floor 1, time 0 and zero statistics |
| `Elevators.Simulation.GameTick` | elevatorsim/ElevatorGameEnhanced.java:166-203 | the clock advances; a new request joins the back of the queue; an idle elevator takes the front request; then it shifts once, and on a pick-up the wait since the request entered is added to the total and one more request is counted |
| `Elevators.Simulation.OverrideElevatorFloor` | elevatorsim/ElevatorGameEnhanced.java:249-268 | a floor 1..10 moves the idle elevator there and drops its request; bad input leaves it unchanged, with the matching status |
| `Elevators.Simulation.CancelCurrentRequest` | elevatorsim/ElevatorGameEnhanced.java:271-282 | an active request is dropped and the elevator goes IDLE where it is; otherwise nothing changes |
| `Music.ToStringShape` | spotifyclone/Song.java:39-41 | the text is "name by artist" followed by "(duration)" |
| `Music.ToString` | spotifyclone/Song.java:39-41 | "name by artist (duration)", shaped as ToStringShape states |
| `Music.CompareTo` | spotifyclone/Song.java:33-36 | by name, then by artist, a total order by the lemmas below |
| `Music.CompareToZero` | spotifyclone/Song.java:33-36 | two songs compare equal iff name and artist are equal |
| `Music.CompareToLexicographic` | spotifyclone/Song.java:33-36 | songs are ordered by name, then by artist |
| `Music.CompareToAntisymmetric` | spotifyclone/Song.java:33-36 | swapping two songs flips the sign of compareTo |
| `Music.CompareToTransitive` | spotifyclone/Song.java:33-36 | the song order is transitive |
| `Music.DurationArithmetic` | spotifyclone/ITunesAPIClient.java:38-40 | the whole seconds are the milliseconds rounded down, split into minutes and seconds below 60 |
| `Music.JavaDiv` | spotifyclone/ITunesAPIClient.java:38-39 | Java's int division, rounding toward zero |
| `Music.JavaRem` | spotifyclone/ITunesAPIClient.java:40 | Java's remainder, with the sign of the dividend |
| `Music.ZeroPad2` | spotifyclone/ITunesAPIClient.java:41 | %02d: the number with a leading zero below 10, two digits by ZeroPad2TwoDigits |
| `Music.ZeroPad2TwoDigits` | spotifyclone/ITunesAPIClient.java:41 | %02d of a second count below 60 gives two digits that read back as the count |
| `Music.FormatDurationRoundTrip` | spotifyclone/ITunesAPIClient.java:38-41 | reading the "m:ss" duration back gives the whole seconds of the track |
| `Music.FormatDuration` | spotifyclone/ITunesAPIClient.java:38-41 | the "m:ss" text of the track time, read back by FormatDurationRoundTrip |
| `Music.ParseDuration` | spotifyclone/ITunesAPIClient.java:41 | reads an "m:ss" text back to seconds; the inverse of FormatDuration |
| `Music.SongOf` | spotifyclone/ITunesAPIClient.java:33-43 | the song of one result: its name, artist, formatted duration and preview URL |
| `Music.SongsOf` | spotifyclone/ITunesAPIClient.java:32-45 | one song per result, in order, with name, artist, preview URL and formatted duration |

## Left out

- The network is not modelled: sockets, `ServerSocket` accept loop, one thread per client, `ConcurrentHashMap` concurrency. One client session runs at a time over a sequence of input lines and an output sequence.
- `EmailClient`, `EmailClientSocket`, `Main` and `SpotifyCloneGUI` (user interfaces and I/O) are not part of this model.
- Date formatting and the clock are not modelled: `SimpleDateFormat`, `Date.toString` and `new GregorianCalendar()` become function parameters of the session (the clock is read by the number of lines consumed).
- The Java `Comparator` on subjects throws a `NullPointerException` when a subject is null. `Folders.Folder.AddEmail`, `SortEmails` and `SetSortingMethod` require that the list is sortable instead; the server only ever sorts by date.
- `Folders.Folder.SetSortingMethod` takes a non-null method: Java stores a null sorting method and then throws `NullPointerException` in the sort's `switch`. The null argument is not modelled, since no code in the programs passes one.
- `Mailboxes.Mailbox.AddFolder` takes a non-null name: Java's `addFolder(null)` appends a folder with a null name, on which a later `getFolder` or `removeFolder` throws `NullPointerException`. The null argument is not modelled, since no code in the programs passes one.
- `JavaLang.ToUpper`, `UpperAscii` and `EqualsIgnoreCase` map only ASCII letters; Unicode case mapping is not modelled.
- 32-bit overflow of the elevator clock and statistics is not modelled (it takes 2^31 ticks). VIEW's index is parsed as a 32-bit int as `Integer.parseInt` does.
- Printing and rendering are not modelled: `printf`, SDL drawing, fonts and window setup, the expiry of the visual game's error message, the congratulations text, the JavaFX status text, sound and the average wait as a `double`.
- The random draws are not modelled: `Math.random` floors become parameters (`Elevators.Request.Drawn`, the arrival argument of `Elevators.Simulation.GameTick`). `BooleanSource` is not part of this model.
- The HTTP request, URL encoding and JSON parsing of `ITunesAPIClient` are not modelled: the parsed results are the input of `Music.SongsOf`.
- Memory management is not modelled: `malloc`/`free`, allocation failure, and the command-line parsing of `strtoul` and `argv`.
- `SkySolver.Solver.Solve` requires a board of at most MAX_LENGTH and cells `'-'` or a digit 0..MAX_LENGTH; the C code never checks these, and other input indexes outside its arrays.
- `SkySolver.Solver.Solve` does not restate that success means a consistent loaded board; `SkyBoard.Board.InitializeBoard` states that if-and-only-if.
- `SkySolver.Solver.GenerateSequences` proves only that every recorded sequence is admissible, not that every admissible sequence is recorded, because the search stops at MAX_SEQUENCE_CAP sequences.
- `SkySolver.Solver.GetSortedIndices` returns the order as a sequence instead of filling the caller's array.
- `SkyGame.Game.PressKey` reads the key as an integer symbol; the `(char)` cast is `Skyline.SignedChar`.
- Heights: a cell is a Dafny character standing for a C byte, read through its code mod 256; a character above U+00FF has no C counterpart, and the two bytes of a multi-byte character in the C input are not modelled.
- ParseInt: only ASCII digits are read; Java's `Integer.parseInt` also accepts the decimal digits of other scripts (for instance Arabic-Indic), which the model treats as a format error.
- ViewReply: a VIEW number written with non-ASCII decimal digits is answered "Invalid index format." by the model, while Java would read it, because ParseInt reads ASCII digits only.
- OverrideElevatorFloor: a floor written with non-ASCII decimal digits is answered as invalid input by the model, while Java would read it, because ParseInt reads ASCII digits only.
- `EmailServer.ClientHandler.Run` states the bounds of the whole session (welcome first, a login kept, the end at end of input or GOODBYE), not the transcript as one function of the input lines; the reply to each line is stated by `Step`, which the loop runs.
- Aliasing between the mailboxes of two sessions of the same user is not modelled, since sessions are sequential.
