/** Movement rules: the squares a piece standing on a square may move to.
    Only the two pawn generators compute anything; the king, queen, rook,
    knight and bishop generators return no square at all. */
module Movement {
  import opened ChessBoard

  /** The squares (x + i, y + dir), for the diagonal offsets i, i + 2, ...
      below 2 (the loop i = -1, 1), that hold a piece of `enemy`. */
  function DiagonalCaptures(g: Grid, c: Cell, dir: int, enemy: int, i: int): seq<Cell>
    requires IsGrid(g) && (i == -1 || i == 1 || i == 3)
    decreases 3 - i
  {
    if i >= 2 then []
    else
      var d := Cell(c.x + i, c.y + dir);
      (if SquarePlayer(GetPieceAt(g, d)) == enemy then [d] else [])
      + DiagonalCaptures(g, c, dir, enemy, i + 2)
  }

  lemma {:induction false} DiagonalCapturesExact(g: Grid, c: Cell, dir: int, enemy: int, i: int)
    requires IsGrid(g) && (i == -1 || i == 1 || i == 3)
    ensures forall d :: d in DiagonalCaptures(g, c, dir, enemy, i) <==>
              ((i <= -1 && d == Cell(c.x - 1, c.y + dir)) || (i <= 1 && d == Cell(c.x + 1, c.y + dir)))
              && SquarePlayer(GetPieceAt(g, d)) == enemy
    decreases 3 - i
  {
    if i < 2 {
      DiagonalCapturesExact(g, c, dir, enemy, i + 2);
    }
  }

  /** d is a square of a pawn on c that advances by `dir` rows: one step
      forward onto an empty square, two steps forward from row `startY` onto
      an empty square (the square in between is not looked at), or a
      diagonal step onto a piece of `enemy`. */
  predicate IsPawnMove(g: Grid, c: Cell, dir: int, startY: int, enemy: int, d: Cell)
    requires IsGrid(g)
  {
    || (d == Cell(c.x, c.y + dir) && GetPieceAt(g, d) == Some(NoPiece))
    || (d == Cell(c.x, c.y + 2 * dir) && c.y == startY && GetPieceAt(g, d) == Some(NoPiece))
    || ((d == Cell(c.x - 1, c.y + dir) || d == Cell(c.x + 1, c.y + dir))
        && SquarePlayer(GetPieceAt(g, d)) == enemy)
  }

  /** The squares of a pawn on c that advances by `dir` rows, in the order the
      source pushes them: forward, double step, left and right diagonal. */
  function PawnMoves(g: Grid, c: Cell, dir: int, startY: int, enemy: int): seq<Cell>
    requires IsGrid(g)
  {
    var forward := Cell(c.x, c.y + dir);
    var double := Cell(c.x, c.y + 2 * dir);
    (if GetPieceAt(g, forward) == Some(NoPiece) then [forward] else [])
    + (if c.y == startY && GetPieceAt(g, double) == Some(NoPiece) then [double] else [])
    + DiagonalCaptures(g, c, dir, enemy, -1)
  }

  /** The pawn's squares are exactly those of IsPawnMove; each is on the board
      and is empty or holds a piece of `enemy`. */
  lemma PawnMovesExact(g: Grid, c: Cell, dir: int, startY: int, enemy: int)
    requires IsGrid(g) && enemy != NoPlayer
    ensures forall d :: d in PawnMoves(g, c, dir, startY, enemy) <==> IsPawnMove(g, c, dir, startY, enemy, d)
    ensures forall d :: d in PawnMoves(g, c, dir, startY, enemy) ==>
              IsInBounds(d) && (At(g, d) == NoPiece || PiecePlayer(At(g, d)) == enemy)
  {
    DiagonalCapturesExact(g, c, dir, enemy, -1);
  }

  /** The white pawn generator: white pawns advance towards row 0. */
  function WhitePawnMoves(g: Grid, c: Cell): seq<Cell>
    requires IsGrid(g)
  {
    PawnMoves(g, c, -1, WhitePawnStartY, BlackPlayer)
  }

  /** The white pawn's squares: each on the board and free of white pieces;
      (x, y-1) iff empty; (x, y-2) iff y == 6 and it is empty; (x-1, y-1) and
      (x+1, y-1) iff they hold a black piece; and nothing else. */
  lemma WhitePawnMovesExact(g: Grid, c: Cell)
    requires IsGrid(g)
    ensures forall d :: d in WhitePawnMoves(g, c) ==> IsInBounds(d) && PiecePlayer(At(g, d)) != WhitePlayer
    ensures Cell(c.x, c.y - 1) in WhitePawnMoves(g, c) <==> GetPieceAt(g, Cell(c.x, c.y - 1)) == Some(NoPiece)
    ensures Cell(c.x, c.y - 2) in WhitePawnMoves(g, c) <==>
              c.y == 6 && GetPieceAt(g, Cell(c.x, c.y - 2)) == Some(NoPiece)
    ensures Cell(c.x - 1, c.y - 1) in WhitePawnMoves(g, c) <==>
              SquarePlayer(GetPieceAt(g, Cell(c.x - 1, c.y - 1))) == BlackPlayer
    ensures Cell(c.x + 1, c.y - 1) in WhitePawnMoves(g, c) <==>
              SquarePlayer(GetPieceAt(g, Cell(c.x + 1, c.y - 1))) == BlackPlayer
    ensures forall d :: d in WhitePawnMoves(g, c) ==>
              d == Cell(c.x, c.y - 1) || d == Cell(c.x, c.y - 2)
              || d == Cell(c.x - 1, c.y - 1) || d == Cell(c.x + 1, c.y - 1)
  {
    PawnMovesExact(g, c, -1, WhitePawnStartY, BlackPlayer);
  }

  /** The black pawn generator: black pawns advance towards row 7. */
  function BlackPawnMoves(g: Grid, c: Cell): seq<Cell>
    requires IsGrid(g)
  {
    PawnMoves(g, c, 1, BlackPawnStartY, WhitePlayer)
  }

  /** The black pawn's squares: each on the board and free of black pieces;
      (x, y+1) iff empty; (x, y+2) iff y == 1 and it is empty; (x-1, y+1) and
      (x+1, y+1) iff they hold a white piece; and nothing else. */
  lemma BlackPawnMovesExact(g: Grid, c: Cell)
    requires IsGrid(g)
    ensures forall d :: d in BlackPawnMoves(g, c) ==> IsInBounds(d) && PiecePlayer(At(g, d)) != BlackPlayer
    ensures Cell(c.x, c.y + 1) in BlackPawnMoves(g, c) <==> GetPieceAt(g, Cell(c.x, c.y + 1)) == Some(NoPiece)
    ensures Cell(c.x, c.y + 2) in BlackPawnMoves(g, c) <==>
              c.y == 1 && GetPieceAt(g, Cell(c.x, c.y + 2)) == Some(NoPiece)
    ensures Cell(c.x - 1, c.y + 1) in BlackPawnMoves(g, c) <==>
              SquarePlayer(GetPieceAt(g, Cell(c.x - 1, c.y + 1))) == WhitePlayer
    ensures Cell(c.x + 1, c.y + 1) in BlackPawnMoves(g, c) <==>
              SquarePlayer(GetPieceAt(g, Cell(c.x + 1, c.y + 1))) == WhitePlayer
    ensures forall d :: d in BlackPawnMoves(g, c) ==>
              d == Cell(c.x, c.y + 1) || d == Cell(c.x, c.y + 2)
              || d == Cell(c.x - 1, c.y + 1) || d == Cell(c.x + 1, c.y + 1)
  {
    PawnMovesExact(g, c, 1, BlackPawnStartY, WhitePlayer);
  }

  /** The two-step move does not look at the square it passes: a white pawn
      on its start row jumps over a piece right in front of it. */
  lemma WhiteDoubleStepIgnoresBlocker(g: Grid, x: int)
    requires IsGrid(g) && 0 <= x < GridSide
    requires g[5][x] != NoPiece && g[4][x] == NoPiece
    ensures Cell(x, 4) in WhitePawnMoves(g, Cell(x, 6))
    ensures Cell(x, 5) !in WhitePawnMoves(g, Cell(x, 6))
  {
    WhitePawnMovesExact(g, Cell(x, 6));
  }

  /** The same for a black pawn on row 1 with a piece on row 2. */
  lemma BlackDoubleStepIgnoresBlocker(g: Grid, x: int)
    requires IsGrid(g) && 0 <= x < GridSide
    requires g[2][x] != NoPiece && g[3][x] == NoPiece
    ensures Cell(x, 3) in BlackPawnMoves(g, Cell(x, 1))
    ensures Cell(x, 2) !in BlackPawnMoves(g, Cell(x, 1))
  {
    BlackPawnMovesExact(g, Cell(x, 1));
  }

  /** The stub generators of the other pieces: they return no square. */
  function KingMoves(g: Grid, c: Cell, player: int): seq<Cell> { [] }
  function QueenMoves(g: Grid, c: Cell, player: int): seq<Cell> { [] }
  function RookMoves(g: Grid, c: Cell, player: int): seq<Cell> { [] }
  function KnightMoves(g: Grid, c: Cell, player: int): seq<Cell> { [] }
  function BishopMoves(g: Grid, c: Cell, player: int): seq<Cell> { [] }

  /** The table of generators, indexed by the magnitude of a piece, with the
      black pawn at index 0. */
  function Generator(index: int, g: Grid, c: Cell, player: int): seq<Cell>
    requires IsGrid(g) && 0 <= index <= 6
  {
    if index == 0 then BlackPawnMoves(g, c)
    else if index == 1 then KingMoves(g, c, player)
    else if index == 2 then QueenMoves(g, c, player)
    else if index == 3 then RookMoves(g, c, player)
    else if index == 4 then KnightMoves(g, c, player)
    else if index == 5 then BishopMoves(g, c, player)
    else WhitePawnMoves(g, c)
  }

  /** The index into the table: 0 for the black pawn, |piece| otherwise. So
      only the black pawn and the value 0 reach entry 0, and only the white
      pawn reaches entry 6. */
  function GeneratorIndex(piece: int): (index: int)
    ensures IsPiece(piece) ==> 0 <= index <= 6
    ensures index == 0 <==> piece == BlackPawn || piece == NoPiece
    ensures index == 6 <==> piece == WhitePawn
  {
    if piece != BlackPawn then (if piece < 0 then -piece else piece) else 0
  }

  /** The squares the piece `piece` standing on c may move to. The white pawn
      uses the white generator; the black pawn and, through index 0, the
      empty value 0 use the black one; every other piece yields nothing. */
  function MovementCells(g: Grid, piece: int, c: Cell): (r: seq<Cell>)
    requires IsGrid(g) && IsPiece(piece)
    ensures piece == WhitePawn ==> r == WhitePawnMoves(g, c)
    ensures piece == BlackPawn || piece == NoPiece ==> r == BlackPawnMoves(g, c)
    ensures piece != WhitePawn && piece != BlackPawn && piece != NoPiece ==> r == []
  {
    Generator(GeneratorIndex(piece), g, c, PiecePlayer(piece))
  }

  /** A piece's squares never hold a piece of the piece's own colour. */
  lemma MovementCellsAvoidOwnPieces(g: Grid, piece: int, c: Cell)
    requires IsGrid(g) && IsPiece(piece) && piece != NoPiece
    ensures forall d :: d in MovementCells(g, piece, c) ==>
              IsInBounds(d) && PiecePlayer(At(g, d)) != PiecePlayer(piece)
  {
    WhitePawnMovesExact(g, c);
    BlackPawnMovesExact(g, c);
  }

  /** A pawn generator, with the result built by pushes as the source does. */
  method PawnMovementCells(g: Grid, c: Cell, dir: int, startY: int, enemy: int) returns (result: seq<Cell>)
    requires IsGrid(g)
    ensures result == PawnMoves(g, c, dir, startY, enemy)
  {
    result := [];
    var forward := Cell(c.x, c.y + dir);
    if GetPieceAt(g, forward) == Some(NoPiece) {
      result := result + [forward];
    }
    if c.y == startY {
      var double := Cell(c.x, c.y + 2 * dir);
      if GetPieceAt(g, double) == Some(NoPiece) {
        result := result + [double];
      }
    }
    assert result + DiagonalCaptures(g, c, dir, enemy, -1) == PawnMoves(g, c, dir, startY, enemy);
    var i := -1;
    while i < 2
      invariant i == -1 || i == 1 || i == 3
      invariant result + DiagonalCaptures(g, c, dir, enemy, i) == PawnMoves(g, c, dir, startY, enemy)
    {
      var diagonal := Cell(c.x + i, c.y + dir);
      ghost var rest := DiagonalCaptures(g, c, dir, enemy, i + 2);
      if SquarePlayer(GetPieceAt(g, diagonal)) == enemy {
        assert DiagonalCaptures(g, c, dir, enemy, i) == [diagonal] + rest;
        ghost var before := result;
        result := result + [diagonal];
        assert result + rest == before + ([diagonal] + rest);
      } else {
        assert DiagonalCaptures(g, c, dir, enemy, i) == rest;
      }
      i := i + 2;
    }
  }

  /** The dispatch through the table of generators. */
  method PieceMovementCells(g: Grid, piece: int, c: Cell) returns (result: seq<Cell>)
    requires IsGrid(g) && IsPiece(piece)
    ensures result == MovementCells(g, piece, c)
  {
    var index := GeneratorIndex(piece);
    if index == 0 {
      result := PawnMovementCells(g, c, 1, BlackPawnStartY, WhitePlayer);
    } else if index == 6 {
      result := PawnMovementCells(g, c, -1, WhitePawnStartY, BlackPlayer);
    } else {
      result := Generator(index, g, c, PiecePlayer(piece));
    }
  }

  // ----- All squares reachable by a player -----

  /** Every entry of a listing holds a piece value. */
  predicate AllPieces(pieces: seq<PlacedPiece>) {
    forall k :: 0 <= k < |pieces| ==> IsPiece(pieces[k].piece)
  }

  /** The squares of every listed piece, concatenated in listing order;
      squares reached by several pieces appear once per piece. */
  function ReachableFrom(g: Grid, pieces: seq<PlacedPiece>): seq<Cell>
    requires IsGrid(g) && AllPieces(pieces)
  {
    if pieces == [] then []
    else
      var last := pieces[|pieces| - 1];
      ReachableFrom(g, pieces[..|pieces| - 1]) + MovementCells(g, last.piece, Cell(last.x, last.y))
  }

  /** A square is reachable from a listing iff some listed piece reaches it. */
  lemma {:induction false} ReachableFromExact(g: Grid, pieces: seq<PlacedPiece>)
    requires IsGrid(g) && AllPieces(pieces)
    ensures forall d :: d in ReachableFrom(g, pieces) <==>
              exists e :: e in pieces && d in MovementCells(g, e.piece, Cell(e.x, e.y))
  {
    if pieces != [] {
      var last := pieces[|pieces| - 1];
      var init := pieces[..|pieces| - 1];
      ReachableFromExact(g, init);
      assert forall e :: e in pieces <==> e in init || e == last;
    }
  }

  lemma ListedPiecesArePieces(g: Grid, player: int)
    requires IsGrid(g) && HoldsPieces(g)
    ensures AllPieces(PlayerPieces(g, player))
  {
    PlayerPiecesExact(g, player);
    forall k | 0 <= k < |PlayerPieces(g, player)|
      ensures IsPiece(PlayerPieces(g, player)[k].piece)
    {
      assert IsEntryOf(g, player, PlayerPieces(g, player)[k]);
    }
  }

  /** The squares reachable by all pieces of `player`. */
  function ReachableCells(g: Grid, player: int): seq<Cell>
    requires IsGrid(g) && HoldsPieces(g)
  {
    ListedPiecesArePieces(g, player);
    ReachableFrom(g, PlayerPieces(g, player))
  }

  /** A square reached by one listed piece is on the board, free of that
      player's pieces, and reached by a pawn. */
  lemma EntryCellsSound(g: Grid, player: int, e: PlacedPiece, d: Cell)
    requires IsGrid(g) && HoldsPieces(g) && IsEntryOf(g, player, e)
    requires player == WhitePlayer || player == BlackPlayer
    requires d in MovementCells(g, e.piece, Cell(e.x, e.y))
    ensures IsInBounds(d) && PiecePlayer(At(g, d)) != player
    ensures e.piece == WhitePawn || e.piece == BlackPawn
  {
    MovementCellsAvoidOwnPieces(g, e.piece, Cell(e.x, e.y));
  }

  /** Every square reachable by a player is on the board and free of that
      player's pieces, and only pawns contribute to it. */
  lemma ReachableCellsSound(g: Grid, player: int)
    requires IsGrid(g) && HoldsPieces(g)
    requires player == WhitePlayer || player == BlackPlayer
    ensures forall d :: d in ReachableCells(g, player) ==>
              IsInBounds(d) && PiecePlayer(At(g, d)) != player
    ensures forall d :: d in ReachableCells(g, player) ==>
              exists e :: e in PlayerPieces(g, player)
                && (e.piece == WhitePawn || e.piece == BlackPawn)
                && d in MovementCells(g, e.piece, Cell(e.x, e.y))
  {
    var pieces := PlayerPieces(g, player);
    ListedPiecesArePieces(g, player);
    ReachableFromExact(g, pieces);
    forall d | d in ReachableFrom(g, pieces)
      ensures IsInBounds(d) && PiecePlayer(At(g, d)) != player
      ensures exists e :: e in pieces
                && (e.piece == WhitePawn || e.piece == BlackPawn)
                && d in MovementCells(g, e.piece, Cell(e.x, e.y))
    {
      var e :| e in pieces && d in MovementCells(g, e.piece, Cell(e.x, e.y));
      ScanColumnsExact(g, player, GridSide);
      EntryCellsSound(g, player, e, d);
    }
  }

  /** The forEach over a listing that appends every piece's squares. */
  method CollectMovementCells(g: Grid, pieces: seq<PlacedPiece>) returns (result: seq<Cell>)
    requires IsGrid(g) && AllPieces(pieces)
    ensures result == ReachableFrom(g, pieces)
  {
    result := [];
    var k := 0;
    while k < |pieces|
      invariant 0 <= k <= |pieces|
      invariant result == ReachableFrom(g, pieces[..k])
    {
      var e := pieces[k];
      var cells := PieceMovementCells(g, e.piece, Cell(e.x, e.y));
      assert pieces[..k + 1][..k] == pieces[..k];
      result := result + cells;
      k := k + 1;
    }
    assert pieces[..|pieces|] == pieces;
  }

  /** All squares reachable by the pieces of `player`, duplicates kept. */
  method GetAllPlayerReachableCellsCoords(g: Grid, player: int) returns (result: seq<Cell>)
    requires IsGrid(g) && HoldsPieces(g)
    ensures result == ReachableCells(g, player)
  {
    var pieces := GetAllPlayerPiecesWithCoords(g, player);
    ListedPiecesArePieces(g, player);
    result := CollectMovementCells(g, pieces);
  }
}
