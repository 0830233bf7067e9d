# Chess engine core, modelled in Dafny

This project models the logical core of a small browser chess game written in
TypeScript (`index.ts`), with the page rendering removed. The parts modelled are:

- **The board.** It is an 8x8 grid of signed piece values, read as `grid[y][x]` while squares are
  given as `[x, y]`. A positive value is a white piece, a negative value is black and 0 is empty. An
  off-board lookup yields the `VOID` value.
- **The two pawn move generators.**
- **The dispatch table.** It selects a generator by the magnitude of a piece. The king, queen, rook,
  knight and bishop generators are stubs that return no square.
- **The listing of a player's pieces** and of all the squares the player can reach.
- **The start-up code.** It builds the empty grid and places the standard start position.
- **The click handler.** It arms a piece of the player to move, plays a move onto a lit square,
  promotes pawns and passes the turn.

The project has three modules:

- `ChessBoard` (`board.dfy`): piece encoding, grid, bounds and lookup, ownership, the piece listing
  and the start position.
- `Movement` (`movement.dfy`): the generators, the dispatch table and the reachable squares.
- `Engine` (`engine.dfy`): the game state, the click as a function on states, and the class `Game`.
  The class holds the three global variables of the program (`grid`, `movingCell`,
  `currentPlayerTurn`). Its methods update them in place.

Modelling choices:

- **Values.** The pure parts are functions over values. `VOID` is `None` of an `Option`. The
  generators take the grid as a parameter instead of reading the global.
- **Loops.** The parts that loop and push are methods with loops. Each is proved equal to a
  specification function, and the properties are proved about that function:
  - the piece listing;
  - a pawn generator;
  - the collection of reachable squares;
  - the grid construction;
  - the placement of the start position.
- **The click handler.** `Engine.Game.OnCellClick` is proved to perform exactly `Engine.Click` on
  the state. It also keeps the state invariant `Engine.ValidState`.

## Model

| member | source | states |
|---|---|---|
| ChessBoard.GetPieceAt | index.ts:165-171 | The lookup returns a stored value (not VOID) exactly when 0 <= x < 8 and 0 <= y < 8, and that value is `grid[y][x]`; everywhere else it returns VOID |
| ChessBoard.PiecePlayer | index.ts:149-156 | Owner of a piece value: 1 iff the value is positive, 2 iff negative, 0 iff it is 0 |
| ChessBoard.IsInBounds | index.ts:144-146 | Holds exactly when 0 <= x < 8 and 0 <= y < 8; `GetPieceAt` returns a stored value (not VOID) on exactly these squares |
| ChessBoard.SquarePlayer | index.ts:149-156 | Owner of a lookup result: 0 exactly for VOID or an empty square, 1 exactly for a positive value, 2 exactly for a negative value (so `getPiecePlayer(VOID)` is 0) |
| ChessBoard.VoidIsNeitherEmptyNorOwned | index.ts:165-171 | An off-board square never reads as empty and never belongs to a player; a square is black (white) iff it is on the board and holds a negative (positive) value |
| ChessBoard.SetCell | index.ts:238-242 | The write `grid[y][x] = v`: the written square holds v and every other square is unchanged |
| ChessBoard.ScanColumnExact | index.ts:178-185 | The inner scan of column x up to row j holds exactly the owned squares of that column above j, in row order |
| ChessBoard.ScanColumnsExact | index.ts:175-188 | The scan of columns 0 .. i-1 holds exactly the owned squares of those columns, in column-then-row order |
| ChessBoard.PlayerPiecesExact | index.ts:175-188 | The listing holds exactly the on-board squares owned by the player, each entry recording the piece `grid[y][x]`, in strict x-outer, y-inner order and so without duplicates |
| ChessBoard.PlayerPieces | index.ts:175-188 | The specification of the listing: the scan of all eight columns; `PlayerPiecesExact` proves its contents, values and order |
| ChessBoard.GetAllPlayerPiecesWithCoords | index.ts:175-188 | The nested loops of the listing compute exactly the listing specified by `PlayerPieces` |
| ChessBoard.EmptyGrid | index.ts:60-67 | The grid that grid generation builds: 8 rows of 8 squares, every square 0 |
| ChessBoard.DefaultBoard | index.ts:91-131 | The start position: an 8x8 grid of piece values with the start piece at every square |
| ChessBoard.DefaultBoardKings | index.ts:91-131 | The start position has exactly one white king, on (4, 7), and one black king, on (4, 0) |
| ChessBoard.DefaultBoardRows | index.ts:91-131 | Rows 2 to 5 are empty; rows 0-1 hold only black pieces, rows 6-7 only white pieces |
| ChessBoard.DefaultBoardCounts | index.ts:91-131 | In the start position each player's listing has exactly 16 entries |
| Movement.DiagonalCapturesExact | index.ts:389-396 | The diagonal loop (i = -1, 1) adds (x-1, y+dir) and (x+1, y+dir) exactly when they hold a piece of the opponent |
| Movement.PawnMovesExact | index.ts:376-425 | A pawn's squares are exactly the forward step onto an empty square, the double step from the start row onto an empty square, and diagonal steps onto opponent pieces; each is on the board and empty or an opponent's |
| Movement.PawnMoves | index.ts:376-425 | One definition of both pawn generators, parameterised by direction, start row and opponent; `PawnMovesExact` states exactly which squares it returns |
| Movement.WhitePawnMoves | index.ts:376-399 | The white generator: direction -1, start row 6, opponent black; its squares are characterised by `WhitePawnMovesExact` |
| Movement.BlackPawnMoves | index.ts:402-425 | The black generator: direction +1, start row 1, opponent white; its squares are characterised by `BlackPawnMovesExact` |
| Movement.WhitePawnMovesExact | index.ts:376-399 | White pawn: every square is on the board and holds no white piece; (x, y-1) iff empty; (x, y-2) iff y == 6 and empty; (x-1, y-1) and (x+1, y-1) iff black-occupied; nothing else |
| Movement.BlackPawnMovesExact | index.ts:402-425 | Black pawn: every square is on the board and holds no black piece; (x, y+1) iff empty; (x, y+2) iff y == 1 and empty; (x-1, y+1) and (x+1, y+1) iff white-occupied; nothing else |
| Movement.WhiteDoubleStepIgnoresBlocker | index.ts:383-387 | A white pawn on row 6 may jump to row 4 over a piece on row 5 |
| Movement.BlackDoubleStepIgnoresBlocker | index.ts:409-413 | A black pawn on row 1 may jump to row 3 over a piece on row 2 |
| Movement.KingMoves | index.ts:428-432 | The king generator is a stub and returns no square |
| Movement.QueenMoves | index.ts:456-460 | The queen generator is a stub and returns no square |
| Movement.RookMoves | index.ts:442-446 | The rook generator is a stub and returns no square |
| Movement.KnightMoves | index.ts:435-439 | The knight generator is a stub and returns no square |
| Movement.BishopMoves | index.ts:449-453 | The bishop generator is a stub and returns no square |
| Movement.Generator | index.ts:22-30 | The table of generators: entry 0 is the black pawn, entries 1-5 king, queen, rook, knight and bishop, entry 6 the white pawn |
| Movement.GeneratorIndex | index.ts:268-272 | For every piece value the index is in 0..6; it is 0 exactly for the black pawn and for 0, and 6 exactly for the white pawn |
| Movement.MovementCells | index.ts:267-276 | Dispatch: the white pawn gets the white generator; the black pawn, and the value 0 through index 0, get the black generator; every king, queen, rook, knight and bishop of either colour gets no square |
| Movement.MovementCellsAvoidOwnPieces | index.ts:267-276 | Whatever the piece, its squares are on the board and never hold a piece of its own colour |
| Movement.PawnMovementCells | index.ts:376-425 | The push-based generator body, with its diagonal loop, returns exactly the pawn's specified squares in push order |
| Movement.PieceMovementCells | index.ts:267-276 | The table lookup returns exactly `MovementCells` |
| Movement.ReachableFromExact | index.ts:193-203 | A square is among the collected squares iff some listed piece reaches it |
| Movement.ReachableCellsSound | index.ts:193-203 | Every square reachable by a player is on the board and free of that player's pieces, and is reached by one of the player's pawns |
| Movement.ReachableFrom | index.ts:197-200 | The specification of the collection: the generators' squares of the listed pieces, concatenated in listing order; `ReachableFromExact` states its membership |
| Movement.ReachableCells | index.ts:193-203 | The squares reachable by a player: the collection over that player's listing; `ReachableCellsSound` states what they are |
| Movement.CollectMovementCells | index.ts:197-200 | The forEach loop concatenates the generators' results over the listing, in listing order and with duplicates kept |
| Movement.GetAllPlayerReachableCellsCoords | index.ts:193-203 | Listing then collection yields exactly `ReachableCells` |
| Engine.OtherPlayer | index.ts:304-310 | The result is always white or black, and it is black exactly when the argument is white |
| Engine.OtherPlayerInvolution | index.ts:304-310 | For white or black, the other player is the other colour, and taking the other player twice gives the player back |
| Engine.OtherPlayerOfNoPlayer | index.ts:304-310 | Outside the two players the involution fails: 0 maps to white, then to black |
| Engine.MovePiece | index.ts:339-341 | After the two writes of a move, the destination holds the moving piece and the origin is empty; every other square is unchanged; a grid of piece values stays one |
| Engine.Promoted | index.ts:360-373 | A white pawn on row 0 becomes a white queen and a black pawn on row 7 a black queen; in every other case the grid is unchanged; no other square changes |
| Engine.InitialState | index.ts:54-57 | The game starts valid, on the start position with white to move and nothing armed; each side owns 16 squares |
| Engine.IsLit | index.ts:262-264 | A square is lit when a piece is armed and the square is on the board and among that piece's dispatched squares, as `lightCells` lights them; `LitSquareIsNotOwn` states what a lit square can hold |
| Engine.LitSquareIsNotOwn | index.ts:245-251 | A lit square never holds a piece of the player to move and is never the armed square |
| Engine.Click | index.ts:313-356 | Every click keeps the state invariant: 8x8 grid of piece values, turn white or black, and the armed square, if any, holding a piece of the player to move |
| Engine.ClickOwnPieceArms | index.ts:325-330 | Clicking a piece of the player to move arms it and changes nothing else |
| Engine.ClickLitSquareMoves | index.ts:338-349 | A click on a lit square moves the piece: the destination holds it, or its queen on promotion; the origin is empty; all other squares are unchanged; the turn passes to the other player; nothing is armed |
| Engine.ClickElsewhereDisarms | index.ts:351-355 | A click on a square that is neither own nor lit keeps grid and turn and disarms |
| Engine.TurnPassesIffGridChanges | index.ts:313-356 | A click passes the turn iff it changes the grid |
| Engine.OnlyPawnsMove | index.ts:313-356 | A click that changes the grid was made with an armed white or black pawn |
| Engine.PawnCanTakeKing | index.ts:338-346 | A white pawn can capture the only black king and promote on its square, leaving no black king on the board |
| Engine.Game.constructor | index.ts:469-471 | The program's start-up, from the empty grid through grid generation and the start position, yields `InitialState()` |
| Engine.Game.GenerateGrid | index.ts:60-67 | Pushing 8 rows of 8 zeros onto the empty grid yields the empty 8x8 grid |
| Engine.Game.InitPieceTo | index.ts:238-242 | The write of one piece onto the grid; nothing else changes |
| Engine.Game.GenerateDefaultBoardState | index.ts:91-131 | Clearing every square and placing the pieces leaves exactly the start position; the armed square and the turn are unchanged |
| Engine.Game.ClearBoard | index.ts:92-98 | After the clearing loops every square is empty |
| Engine.Game.PlaceBlackBackRank | index.ts:99-109 | The eight black back-rank writes complete row 0 of the start position |
| Engine.Game.PlaceBlackPawns | index.ts:111-113 | The black pawn loop completes row 1 |
| Engine.Game.PlaceWhiteBackRank | index.ts:115-125 | The eight white back-rank writes complete row 7 |
| Engine.Game.PlaceWhitePawns | index.ts:127-129 | The white pawn loop completes row 6 |
| Engine.Game.ChangeTurn | index.ts:295-301 | The turn becomes black after white and white after anything else; nothing else changes |
| Engine.Game.TryPromotion | index.ts:360-373 | The grid becomes `Promoted(old grid)`; the armed square and the turn are unchanged |
| Engine.Game.OnCellClick | index.ts:313-356 | The handler changes the grid, the armed square and the turn exactly as `Click` does, and so keeps the state invariant |

## Left out

- **Rendering and the page.** The HTML grid, the piece elements, the CSS lighting of squares, the
  piece colour classes and the event wiring are not modelled. "Lit" is modelled as membership of
  the clicked square among the in-bounds squares the dispatch returns for the armed piece. The grid
  does not change between arming and the next click, so the squares lit at arming time are the
  same.
- **Element ids.** `convertCoordsToId` and `convertIdToCoords` are not modelled. The click handler
  takes the clicked square directly.
- **The first test of the handler** asks whether the clicked element has child nodes. It is modelled
  as "the square's grid value is not 0". This assumes the page mirrors the grid.
- **Check and checkmate.** There is no check, checkmate or self-check filtering, and no real king,
  queen, rook, knight or bishop movement. The source has only empty stubs for these, including the
  unused `getUncheckedKingMovementCells`. The stubs are modelled as returning nothing.
- **Other rules.** Castling, en passant, draws and undo do not exist in the source and are not
  modelled.
- **Engine.Game.GenerateGrid** requires an empty grid. That is its only use, at start-up. On a
  non-empty grid the source behaves differently. Each pass i first pushes a new empty row at the
  end, then pushes eight zeros into `grid[i]`, the row at position i. After the eight passes, the
  rows at indices 0..7 of the result each hold eight more zeros than before. Any other existing
  row is untouched. The pushed rows that end up at index 8 or beyond stay empty. The model does
  not cover this case.
- **One grid.** The source's `generateGrid` and `generateDefaultBoardState` write through their
  `grid` parameter, while `initPieceTo` writes to the global `grid`. The model merges the two into
  the one field `Engine.Game.grid`. This is exact at the only call site, the start-up code, which
  passes the global.
- **Movement.PieceMovementCells and Movement.MovementCells** require a piece value between -6
  and 6. Outside that range the table lookup in the source has no entry and the call fails at
  run time.
- **Start-up phases.** `Engine.Game.GenerateDefaultBoardState` is split into a clearing phase and
  four placement phases (`ClearBoard`, `PlaceBlackBackRank`, `PlaceBlackPawns`,
  `PlaceWhiteBackRank`, `PlaceWhitePawns`). The split only keeps each proof small. The writes and
  their order are those of the source.
- **Behaviour kept as the code has it, though a reader might expect otherwise:**
  - The two-step pawn move does not look at the square it passes. See
    `WhiteDoubleStepIgnoresBlocker` and `BlackDoubleStepIgnoresBlocker`.
  - The listing of a player's pieces goes column by column (x outer, y inner).
  - A pawn can capture a king, so a side can end up with no king (see `PawnCanTakeKing`).
    Exactly one king per side holds for the start position only (`DefaultBoardKings`).
- **Engine.Game.ChangeTurn and Engine.Game.TryPromotion** neither require nor ensure the state
  invariant `Valid()`, as in the source, where they are plain functions on the globals.
  `OnCellClick` calls them mid-move, when the grid has already changed. Called alone while a piece
  is armed, `ChangeTurn` gives the turn to the other player while the armed square still holds a
  piece of the first one, which breaks `ValidState`. Only `OnCellClick` and the constructor promise
  the invariant.
