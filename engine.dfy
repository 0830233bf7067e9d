/** The turn and move engine: the state of a game, what a click on a square
    does to it, pawn promotion and the change of turn. */
module Engine {
  import opened ChessBoard
  import opened Movement

  /** The player who does not have the turn: black for white, white for
      anything else (so also for 0). */
  function OtherPlayer(player: int): (other: int)
    ensures other == WhitePlayer || other == BlackPlayer
    ensures other == BlackPlayer <==> player == WhitePlayer
  {
    if player == WhitePlayer then BlackPlayer else WhitePlayer
  }

  /** On the two players, taking the other player twice gives the player back. */
  lemma OtherPlayerInvolution(player: int)
    requires player == WhitePlayer || player == BlackPlayer
    ensures OtherPlayer(player) != player
    ensures OtherPlayer(player) == WhitePlayer || OtherPlayer(player) == BlackPlayer
    ensures OtherPlayer(OtherPlayer(player)) == player
  {
  }

  /** Outside the two players it does not: 0 goes to white, then to black. */
  lemma OtherPlayerOfNoPlayer()
    ensures OtherPlayer(NoPlayer) == WhitePlayer
    ensures OtherPlayer(OtherPlayer(NoPlayer)) == BlackPlayer
  {
  }

  /** The grid after the two writes of an accepted move: the destination
      receives the moving piece, overwriting whatever stood there, and the
      origin is emptied. */
  function MovePiece(g: Grid, from: Cell, to: Cell): (r: Grid)
    requires IsGrid(g) && IsInBounds(from) && IsInBounds(to)
    ensures IsGrid(r)
    ensures from != to ==> At(r, to) == At(g, from)
    ensures At(r, from) == NoPiece
    ensures forall d :: IsInBounds(d) && d != from && d != to ==> At(r, d) == At(g, d)
    ensures HoldsPieces(g) ==> HoldsPieces(r)
  {
    var placed := SetCell(g, to, At(g, from));
    SetCellKeepsPieces(g, to, At(g, from));
    SetCellKeepsPieces(placed, from, NoPiece);
    SetCell(placed, from, NoPiece)
  }

  /** The grid after promotion of `piece` standing on c: a white pawn on row
      0 becomes a white queen, a black pawn on row 7 a black queen, and in
      every other case the grid is left as it is. */
  function Promoted(g: Grid, piece: int, c: Cell): (r: Grid)
    requires IsGrid(g) && IsInBounds(c)
    ensures IsGrid(r)
    ensures piece == WhitePawn && c.y == 0 ==> At(r, c) == WhiteQueen
    ensures piece == BlackPawn && c.y == 7 ==> At(r, c) == BlackQueen
    ensures !(piece == WhitePawn && c.y == 0) && !(piece == BlackPawn && c.y == 7) ==> r == g
    ensures forall d :: IsInBounds(d) && d != c ==> At(r, d) == At(g, d)
    ensures HoldsPieces(g) ==> HoldsPieces(r)
  {
    if piece == WhitePawn && c.y == WhitePromotionRow then
      SetCellKeepsPieces(g, c, WhiteQueen);
      SetCell(g, c, WhiteQueen)
    else if piece == BlackPawn && c.y == BlackPromotionRow then
      SetCellKeepsPieces(g, c, BlackQueen);
      SetCell(g, c, BlackQueen)
    else g
  }

  /** The state of a game: the grid, the armed square (None when nothing is
      armed) and the player to move. */
  datatype GameState = GameState(grid: Grid, movingCell: Option<Cell>, turn: int)

  /** The invariant every reachable state keeps: an 8x8 grid of piece values,
      a turn that is white or black, and an armed square, when there is one,
      holding a piece of the player to move. */
  predicate ValidState(s: GameState) {
    && IsGrid(s.grid) && HoldsPieces(s.grid)
    && (s.turn == WhitePlayer || s.turn == BlackPlayer)
    && (s.movingCell.Some? ==>
          IsInBounds(s.movingCell.value) && PiecePlayer(At(s.grid, s.movingCell.value)) == s.turn)
  }

  /** The state the game starts in. */
  function InitialState(): (s: GameState)
    ensures ValidState(s)
    ensures |PlayerPieces(s.grid, WhitePlayer)| == 16 && |PlayerPieces(s.grid, BlackPlayer)| == 16
  {
    DefaultBoardCounts();
    GameState(DefaultBoard(), None, WhitePlayer)
  }

  /** The armed piece's squares that are lit: those its generator returns
      that lie on the board. Nothing is lit while nothing is armed. */
  predicate IsLit(s: GameState, c: Cell)
    requires ValidState(s)
  {
    && s.movingCell.Some? && IsInBounds(c)
    && c in MovementCells(s.grid, At(s.grid, s.movingCell.value), s.movingCell.value)
  }

  /** A lit square never holds a piece of the player to move. */
  lemma LitSquareIsNotOwn(s: GameState, c: Cell)
    requires ValidState(s) && IsLit(s, c)
    ensures PiecePlayer(At(s.grid, c)) != s.turn
    ensures c != s.movingCell.value
  {
    var from := s.movingCell.value;
    MovementCellsAvoidOwnPieces(s.grid, At(s.grid, from), from);
  }

  /** What a click on square c does. An empty square with nothing armed is
      ignored; a piece of the player to move is armed; a lit square receives
      the armed piece, which may promote, and the turn passes; any other
      square only disarms. */
  function Click(s: GameState, c: Cell): (r: GameState)
    requires ValidState(s) && IsInBounds(c)
    ensures ValidState(r)
  {
    var piece := At(s.grid, c);
    if piece == NoPiece && s.movingCell.None? then s
    else if PiecePlayer(piece) == s.turn then s.(movingCell := Some(c))
    else if IsLit(s, c) then
      var from := s.movingCell.value;
      var moving := At(s.grid, from);
      GameState(Promoted(MovePiece(s.grid, from, c), moving, c), None, OtherPlayer(s.turn))
    else s.(movingCell := None)
  }

  /** A click on a piece of the player to move arms it and changes nothing else. */
  lemma ClickOwnPieceArms(s: GameState, c: Cell)
    requires ValidState(s) && IsInBounds(c)
    requires PiecePlayer(At(s.grid, c)) == s.turn
    ensures Click(s, c) == GameState(s.grid, Some(c), s.turn)
  {
  }

  /** An accepted move: the destination holds the moving piece, or the queen
      it promotes to, the origin is empty, every other square is unchanged,
      the turn has passed to the other player and nothing is armed. */
  lemma ClickLitSquareMoves(s: GameState, c: Cell)
    requires ValidState(s) && IsInBounds(c) && IsLit(s, c)
    ensures var r := Click(s, c);
      var from := s.movingCell.value;
      var moving := At(s.grid, from);
      && At(r.grid, c) == (if moving == WhitePawn && c.y == 0 then WhiteQueen
                           else if moving == BlackPawn && c.y == 7 then BlackQueen
                           else moving)
      && At(r.grid, from) == NoPiece
      && (forall d :: IsInBounds(d) && d != from && d != c ==> At(r.grid, d) == At(s.grid, d))
      && r.turn == OtherPlayer(s.turn) && r.turn != s.turn
      && r.movingCell == None
  {
    LitSquareIsNotOwn(s, c);
  }

  /** A click on a square that is neither own nor lit leaves the grid and the
      turn as they are and disarms. */
  lemma ClickElsewhereDisarms(s: GameState, c: Cell)
    requires ValidState(s) && IsInBounds(c)
    requires PiecePlayer(At(s.grid, c)) != s.turn && !IsLit(s, c)
    ensures Click(s, c) == GameState(s.grid, None, s.turn)
  {
  }

  /** The turn passes exactly when the grid changes. */
  lemma TurnPassesIffGridChanges(s: GameState, c: Cell)
    requires ValidState(s) && IsInBounds(c)
    ensures Click(s, c).turn != s.turn <==> Click(s, c).grid != s.grid
  {
    if IsLit(s, c) && PiecePlayer(At(s.grid, c)) != s.turn {
      var from := s.movingCell.value;
      LitSquareIsNotOwn(s, c);
      assert At(Click(s, c).grid, from) != At(s.grid, from);
    }
  }

  /** Only pawns ever move: the generators of the other pieces light nothing. */
  lemma OnlyPawnsMove(s: GameState, c: Cell)
    requires ValidState(s) && IsInBounds(c)
    requires Click(s, c).grid != s.grid
    ensures s.movingCell.Some?
    ensures At(s.grid, s.movingCell.value) == WhitePawn || At(s.grid, s.movingCell.value) == BlackPawn
  {
  }

  /** Nothing stops a pawn from taking a king: a white pawn on (3, 1) takes
      the lone black king on (4, 0) and promotes, leaving black without a king. */
  lemma PawnCanTakeKing()
    ensures var g := SetCell(SetCell(EmptyGrid(), Cell(3, 1), WhitePawn), Cell(4, 0), BlackKing);
      var s := GameState(g, Some(Cell(3, 1)), WhitePlayer);
      && ValidState(s) && IsLit(s, Cell(4, 0))
      && At(Click(s, Cell(4, 0)).grid, Cell(4, 0)) == WhiteQueen
      && forall d :: IsInBounds(d) ==> At(Click(s, Cell(4, 0)).grid, d) != BlackKing
  {
    var g := SetCell(SetCell(EmptyGrid(), Cell(3, 1), WhitePawn), Cell(4, 0), BlackKing);
    var s := GameState(g, Some(Cell(3, 1)), WhitePlayer);
    assert HoldsPieces(g) by {
      SetCellKeepsPieces(EmptyGrid(), Cell(3, 1), WhitePawn);
      SetCellKeepsPieces(SetCell(EmptyGrid(), Cell(3, 1), WhitePawn), Cell(4, 0), BlackKing);
    }
    WhitePawnMovesExact(g, Cell(3, 1));
    assert IsLit(s, Cell(4, 0));
    ClickLitSquareMoves(s, Cell(4, 0));
  }

  /** The game: the logical grid, the armed square and the player to move,
      updated in place by the click handler. */
  class Game {
    var grid: Grid
    var movingCell: Option<Cell>
    var currentPlayerTurn: int

    function State(): GameState
      reads this
    {
      GameState(grid, movingCell, currentPlayerTurn)
    }

    ghost predicate Valid()
      reads this
    {
      ValidState(State())
    }

    /** Start-up: an empty list of rows, filled with empty squares, then the
      start position; white moves first and nothing is armed. */
    constructor ()
      ensures Valid()
      ensures State() == InitialState()
    {
      grid := [];
      movingCell := None;
      currentPlayerTurn := WhitePlayer;
      new;
      GenerateGrid();
      GenerateDefaultBoardState();
    }

    /** Pushes eight rows of eight empty squares onto the (empty) grid. */
    method GenerateGrid()
      requires grid == []
      modifies this
      ensures grid == EmptyGrid()
      ensures movingCell == old(movingCell) && currentPlayerTurn == old(currentPlayerTurn)
    {
      var i := 0;
      while i < GridSide
        invariant 0 <= i <= GridSide && |grid| == i
        invariant forall y :: 0 <= y < i ==> grid[y] == EmptyGrid()[y]
        invariant movingCell == old(movingCell) && currentPlayerTurn == old(currentPlayerTurn)
      {
        grid := grid + [[]];
        var j := 0;
        while j < GridSide
          invariant 0 <= j <= GridSide && |grid| == i + 1
          invariant forall y :: 0 <= y < i ==> grid[y] == EmptyGrid()[y]
          invariant grid[i] == EmptyGrid()[i][..j]
          invariant movingCell == old(movingCell) && currentPlayerTurn == old(currentPlayerTurn)
        {
          grid := grid[i := grid[i] + [NoPiece]];
          j := j + 1;
        }
        i := i + 1;
      }
    }

    /** Writes one piece onto the grid. */
    method InitPieceTo(piece: int, c: Cell)
      requires IsGrid(grid) && IsInBounds(c)
      modifies this
      ensures grid == SetCell(old(grid), c, piece)
      ensures movingCell == old(movingCell) && currentPlayerTurn == old(currentPlayerTurn)
    {
      grid := SetCell(grid, c, piece);
    }

    /** Empties every square, then places the pieces of the start position:
        the black back rank and pawns, then the white back rank and pawns. */
    method GenerateDefaultBoardState()
      requires IsGrid(grid)
      modifies this
      ensures grid == DefaultBoard()
      ensures movingCell == old(movingCell) && currentPlayerTurn == old(currentPlayerTurn)
    {
      ClearBoard();
      PlaceBlackBackRank();
      PlaceBlackPawns();
      PlaceWhiteBackRank();
      PlaceWhitePawns();
      ShowsStartEverywhere(grid);
    }

    /** First phase of the start-up: every square becomes empty, column by column. */
    method ClearBoard()
      requires IsGrid(grid)
      modifies this
      ensures IsGrid(grid) && ShowsStartOn(grid, {}, 0, 0)
      ensures movingCell == old(movingCell) && currentPlayerTurn == old(currentPlayerTurn)
    {
      for x := 0 to GridSide
        invariant IsGrid(grid)
        invariant forall d :: IsInBounds(d) && d.x < x ==> At(grid, d) == NoPiece
        invariant movingCell == old(movingCell) && currentPlayerTurn == old(currentPlayerTurn)
      {
        for y := 0 to GridSide
          invariant IsGrid(grid)
          invariant forall d :: IsInBounds(d) && (d.x < x || (d.x == x && d.y < y)) ==> At(grid, d) == NoPiece
          invariant movingCell == old(movingCell) && currentPlayerTurn == old(currentPlayerTurn)
        {
          grid := SetCell(grid, Cell(x, y), NoPiece);
        }
      }
    }

    /** The black back rank on row 0. */
    method PlaceBlackBackRank()
      requires IsGrid(grid) && ShowsStartOn(grid, {}, 0, 0)
      modifies this
      ensures IsGrid(grid) && ShowsStartOn(grid, {0}, 1, 0)
      ensures movingCell == old(movingCell) && currentPlayerTurn == old(currentPlayerTurn)
    {
      ghost var before := grid;
      InitPieceTo(BlackRook, Cell(0, 0));
      assert grid == WriteBackRank(before, 0, -1, 1);
      InitPieceTo(BlackRook, Cell(7, 0));
      assert grid == WriteBackRank(before, 0, -1, 2);
      InitPieceTo(BlackKnight, Cell(1, 0));
      assert grid == WriteBackRank(before, 0, -1, 3);
      InitPieceTo(BlackKnight, Cell(6, 0));
      assert grid == WriteBackRank(before, 0, -1, 4);
      InitPieceTo(BlackBishop, Cell(2, 0));
      assert grid == WriteBackRank(before, 0, -1, 5);
      InitPieceTo(BlackBishop, Cell(5, 0));
      assert grid == WriteBackRank(before, 0, -1, 6);
      InitPieceTo(BlackQueen, Cell(3, 0));
      assert grid == WriteBackRank(before, 0, -1, 7);
      InitPieceTo(BlackKing, Cell(4, 0));
      assert grid == WriteBackRank(before, 0, -1, 8);
      BackRankWritesShow(before, {}, 0);
    }

    /** Eight black pawns on row 1. */
    method PlaceBlackPawns()
      requires IsGrid(grid) && ShowsStartOn(grid, {0}, 1, 0)
      modifies this
      ensures IsGrid(grid) && ShowsStartOn(grid, {0, 1}, 7, 0)
      ensures movingCell == old(movingCell) && currentPlayerTurn == old(currentPlayerTurn)
    {
      for i := 0 to GridSide
        invariant IsGrid(grid) && ShowsStartOn(grid, {0}, 1, i)
        invariant movingCell == old(movingCell) && currentPlayerTurn == old(currentPlayerTurn)
      {
        PlaceStartPiece(grid, {0}, 1, i);
        InitPieceTo(BlackPawn, Cell(i, 1));
      }
    }

    /** The white back rank on row 7. */
    method PlaceWhiteBackRank()
      requires IsGrid(grid) && ShowsStartOn(grid, {0, 1}, 7, 0)
      modifies this
      ensures IsGrid(grid) && ShowsStartOn(grid, {0, 1, 7}, 6, 0)
      ensures movingCell == old(movingCell) && currentPlayerTurn == old(currentPlayerTurn)
    {
      ghost var before := grid;
      InitPieceTo(WhiteRook, Cell(0, 7));
      assert grid == WriteBackRank(before, 7, 1, 1);
      InitPieceTo(WhiteRook, Cell(7, 7));
      assert grid == WriteBackRank(before, 7, 1, 2);
      InitPieceTo(WhiteKnight, Cell(1, 7));
      assert grid == WriteBackRank(before, 7, 1, 3);
      InitPieceTo(WhiteKnight, Cell(6, 7));
      assert grid == WriteBackRank(before, 7, 1, 4);
      InitPieceTo(WhiteBishop, Cell(2, 7));
      assert grid == WriteBackRank(before, 7, 1, 5);
      InitPieceTo(WhiteBishop, Cell(5, 7));
      assert grid == WriteBackRank(before, 7, 1, 6);
      InitPieceTo(WhiteQueen, Cell(3, 7));
      assert grid == WriteBackRank(before, 7, 1, 7);
      InitPieceTo(WhiteKing, Cell(4, 7));
      assert grid == WriteBackRank(before, 7, 1, 8);
      BackRankWritesShow(before, {0, 1}, 7);
    }

    /** Eight white pawns on row 6. */
    method PlaceWhitePawns()
      requires IsGrid(grid) && ShowsStartOn(grid, {0, 1, 7}, 6, 0)
      modifies this
      ensures IsGrid(grid) && ShowsStartOn(grid, {0, 1, 7}, 6, GridSide)
      ensures movingCell == old(movingCell) && currentPlayerTurn == old(currentPlayerTurn)
    {
      for i := 0 to GridSide
        invariant IsGrid(grid) && ShowsStartOn(grid, {0, 1, 7}, 6, i)
        invariant movingCell == old(movingCell) && currentPlayerTurn == old(currentPlayerTurn)
      {
        PlaceStartPiece(grid, {0, 1, 7}, 6, i);
        InitPieceTo(WhitePawn, Cell(i, 6));
      }
    }

    /** Passes the turn: black after white, white after anything else. */
    method ChangeTurn()
      modifies this
      ensures currentPlayerTurn == OtherPlayer(old(currentPlayerTurn))
      ensures grid == old(grid) && movingCell == old(movingCell)
    {
      if currentPlayerTurn == WhitePlayer {
        currentPlayerTurn := BlackPlayer;
      } else {
        currentPlayerTurn := WhitePlayer;
      }
    }

    /** Turns a pawn that has reached the far row into a queen of its colour. */
    method TryPromotion(piece: int, c: Cell)
      requires IsGrid(grid) && IsInBounds(c)
      modifies this
      ensures grid == Promoted(old(grid), piece, c)
      ensures movingCell == old(movingCell) && currentPlayerTurn == old(currentPlayerTurn)
    {
      if piece == WhitePawn && c.y == WhitePromotionRow {
        grid := SetCell(grid, c, WhiteQueen);
      } else if piece == BlackPawn && c.y == BlackPromotionRow {
        grid := SetCell(grid, c, BlackQueen);
      }
    }

    /** The click handler on square c. */
    method OnCellClick(c: Cell)
      requires Valid() && IsInBounds(c)
      modifies this
      ensures Valid()
      ensures State() == Click(old(State()), c)
    {
      ghost var s0 := State();
      if grid[c.y][c.x] == NoPiece && movingCell.None? {
        return;
      }
      var piece := grid[c.y][c.x];
      if PiecePlayer(piece) == currentPlayerTurn {
        movingCell := Some(c);
      } else {
        var lit := false;
        if movingCell.Some? {
          var from := movingCell.value;
          var cells := PieceMovementCells(grid, grid[from.y][from.x], from);
          lit := c in cells && IsInBounds(c);
        }
        assert lit == IsLit(s0, c);
        if lit {
          var from := movingCell.value;
          var movingPiece := grid[from.y][from.x];
          grid := SetCell(grid, c, movingPiece);
          grid := SetCell(grid, from, NoPiece);
          assert grid == MovePiece(s0.grid, from, c);
          TryPromotion(movingPiece, c);
          ChangeTurn();
        }
        movingCell := None;
      }
    }
  }
}
