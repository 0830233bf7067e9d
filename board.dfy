/** The board model of the chess engine: how pieces are encoded, the 8x8 grid,
    bounds and lookup, piece ownership, the listing of a player's pieces and
    the standard start position. */
module ChessBoard {

  const GridSide: int := 8

  const WhitePawnStartY: int := 6
  const BlackPawnStartY: int := 1
  const WhitePromotionRow: int := 0
  const BlackPromotionRow: int := 7

  /** Player numbers; 0 is the "player" of an empty or missing square. */
  const NoPlayer: int := 0
  const WhitePlayer: int := 1
  const BlackPlayer: int := 2

  /** A piece is a signed integer: positive is white, negative is black, and
      the two colours of one kind have the same magnitude. 0 is an empty square. */
  const BlackPawn: int := -6
  const BlackBishop: int := -5
  const BlackKnight: int := -4
  const BlackRook: int := -3
  const BlackQueen: int := -2
  const BlackKing: int := -1
  const NoPiece: int := 0
  const WhiteKing: int := 1
  const WhiteQueen: int := 2
  const WhiteRook: int := 3
  const WhiteKnight: int := 4
  const WhiteBishop: int := 5
  const WhitePawn: int := 6

  /** The result of a lookup: None is the off-board VOID value, which is
      neither an empty square nor a piece. */
  datatype Option<+T> = None | Some(value: T)

  /** A square given as [x, y]: x is the column, y the row; the grid is read
      as grid[y][x]. */
  datatype Cell = Cell(x: int, y: int)

  /** One entry [x, y, piece] of a piece listing. */
  datatype PlacedPiece = PlacedPiece(x: int, y: int, piece: int)

  /** The logical board: a list of rows, each a list of piece values. */
  type Grid = seq<seq<int>>

  predicate IsGrid(g: Grid) {
    |g| == GridSide && forall y :: 0 <= y < |g| ==> |g[y]| == GridSide
  }

  predicate IsPiece(v: int) {
    BlackPawn <= v <= WhitePawn
  }

  /** Every square of the grid holds a piece value or 0. */
  predicate HoldsPieces(g: Grid)
    requires IsGrid(g)
  {
    forall y, x :: 0 <= y < GridSide && 0 <= x < GridSide ==> IsPiece(g[y][x])
  }

  predicate IsInBounds(c: Cell) {
    0 <= c.x < GridSide && 0 <= c.y < GridSide
  }

  /** The value stored at an on-board square. */
  function At(g: Grid, c: Cell): int
    requires IsGrid(g) && IsInBounds(c)
  {
    g[c.y][c.x]
  }

  /** Lookup of a square: its stored value when on the board, VOID otherwise. */
  function GetPieceAt(g: Grid, c: Cell): (r: Option<int>)
    requires IsGrid(g)
    ensures r.Some? <==> 0 <= c.x < GridSide && 0 <= c.y < GridSide
    ensures r.Some? ==> r.value == g[c.y][c.x]
  {
    if IsInBounds(c) then Some(g[c.y][c.x]) else None
  }

  /** The owner of a piece value: 1 for white, 2 for black, 0 for an empty square. */
  function PiecePlayer(piece: int): (p: int)
    ensures p == WhitePlayer <==> piece > 0
    ensures p == BlackPlayer <==> piece < 0
    ensures p == NoPlayer <==> piece == 0
  {
    if piece > 0 then WhitePlayer else if piece < 0 then BlackPlayer else NoPlayer
  }

  /** The owner of a lookup result; VOID converts to 0 like an empty square. */
  function SquarePlayer(v: Option<int>): (p: int)
    ensures p == NoPlayer <==> v.None? || v == Some(NoPiece)
    ensures p == WhitePlayer <==> v.Some? && v.value > 0
    ensures p == BlackPlayer <==> v.Some? && v.value < 0
  {
    match v
    case None => NoPlayer
    case Some(piece) => PiecePlayer(piece)
  }

  /** An off-board square is never "empty" and never belongs to a player. */
  lemma VoidIsNeitherEmptyNorOwned(g: Grid, c: Cell)
    requires IsGrid(g)
    ensures GetPieceAt(g, c) == Some(NoPiece) ==> IsInBounds(c)
    ensures SquarePlayer(GetPieceAt(g, c)) != NoPlayer ==> IsInBounds(c)
    ensures SquarePlayer(GetPieceAt(g, c)) == BlackPlayer <==> IsInBounds(c) && At(g, c) < 0
    ensures SquarePlayer(GetPieceAt(g, c)) == WhitePlayer <==> IsInBounds(c) && At(g, c) > 0
  {
  }

  /** The grid with one square overwritten: the write grid[y][x] = v. */
  function SetCell(g: Grid, c: Cell, v: int): (r: Grid)
    requires IsGrid(g) && IsInBounds(c)
    ensures IsGrid(r)
    ensures At(r, c) == v
    ensures forall d :: IsInBounds(d) && d != c ==> At(r, d) == At(g, d)
  {
    g[c.y := g[c.y][c.x := v]]
  }

  /** Writing a piece value keeps the grid a grid of piece values. */
  lemma SetCellKeepsPieces(g: Grid, c: Cell, v: int)
    requires IsGrid(g) && IsInBounds(c)
    ensures HoldsPieces(g) && IsPiece(v) ==> HoldsPieces(SetCell(g, c, v))
  {
    if HoldsPieces(g) && IsPiece(v) {
      var r := SetCell(g, c, v);
      forall y, x | 0 <= y < GridSide && 0 <= x < GridSide
        ensures IsPiece(r[y][x])
      {
        assert At(r, Cell(x, y)) == r[y][x];
      }
    }
  }

  /** Two grids that agree on every square are equal. */
  lemma GridsEqual(a: Grid, b: Grid)
    requires IsGrid(a) && IsGrid(b)
    requires forall y, x :: 0 <= y < GridSide && 0 <= x < GridSide ==> a[y][x] == b[y][x]
    ensures a == b
  {
    forall y | 0 <= y < GridSide
      ensures a[y] == b[y]
    {
      assert |a[y]| == |b[y]|;
    }
  }

  // ----- Listing the pieces of a player -----

  /** a comes before b in the scan order of the listing: column by column
      (x outer), and inside a column row by row (y inner). */
  predicate ScansBefore(a: PlacedPiece, b: PlacedPiece) {
    a.x < b.x || (a.x == b.x && a.y < b.y)
  }

  /** An entry of the listing of `player`: an on-board square holding a piece
      of that player, recorded with the piece it holds. */
  predicate IsEntryOf(g: Grid, player: int, e: PlacedPiece)
    requires IsGrid(g)
  {
    0 <= e.x < GridSide && 0 <= e.y < GridSide
    && e.piece == g[e.y][e.x] && PiecePlayer(e.piece) == player
  }

  /** The entries found in rows 0 .. j-1 of column x. */
  function ScanColumn(g: Grid, player: int, x: int, j: int): (r: seq<PlacedPiece>)
    requires IsGrid(g) && 0 <= x < GridSide && 0 <= j <= GridSide
    decreases j
  {
    if j == 0 then []
    else
      var e := ScanColumn(g, player, x, j - 1);
      var piece := g[j - 1][x];
      if PiecePlayer(piece) == player then e + [PlacedPiece(x, j - 1, piece)] else e
  }

  /** The scan of a column holds exactly the entries of that column above
      row j, in row order. */
  lemma {:induction false} ScanColumnExact(g: Grid, player: int, x: int, j: int)
    requires IsGrid(g) && 0 <= x < GridSide && 0 <= j <= GridSide
    ensures forall e :: e in ScanColumn(g, player, x, j) <==> IsEntryOf(g, player, e) && e.x == x && e.y < j
    ensures forall a, b :: 0 <= a < b < |ScanColumn(g, player, x, j)| ==>
              ScansBefore(ScanColumn(g, player, x, j)[a], ScanColumn(g, player, x, j)[b])
  {
    if j > 0 {
      ScanColumnExact(g, player, x, j - 1);
      var e := ScanColumn(g, player, x, j - 1);
      assert forall a :: 0 <= a < |e| ==> e[a] in e;
    }
  }

  /** The entries found in columns 0 .. i-1. */
  function ScanColumns(g: Grid, player: int, i: int): (r: seq<PlacedPiece>)
    requires IsGrid(g) && 0 <= i <= GridSide
    decreases i
  {
    if i == 0 then []
    else ScanColumns(g, player, i - 1) + ScanColumn(g, player, i - 1, GridSide)
  }

  /** The scan of columns 0 .. i-1 holds exactly their entries, in scan order. */
  lemma {:induction false} ScanColumnsExact(g: Grid, player: int, i: int)
    requires IsGrid(g) && 0 <= i <= GridSide
    ensures forall e :: e in ScanColumns(g, player, i) <==> IsEntryOf(g, player, e) && e.x < i
    ensures forall a, b :: 0 <= a < b < |ScanColumns(g, player, i)| ==>
              ScansBefore(ScanColumns(g, player, i)[a], ScanColumns(g, player, i)[b])
  {
    if i > 0 {
      ScanColumnsExact(g, player, i - 1);
      ScanColumnExact(g, player, i - 1, GridSide);
      var left := ScanColumns(g, player, i - 1);
      var col := ScanColumn(g, player, i - 1, GridSide);
      var r := left + col;
      assert r == ScanColumns(g, player, i);
      forall a, b | 0 <= a < b < |r|
        ensures ScansBefore(r[a], r[b])
      {
        if b < |left| {
          assert r[a] == left[a] && r[b] == left[b];
        } else if a >= |left| {
          assert r[a] == col[a - |left|] && r[b] == col[b - |left|];
        } else {
          assert r[a] == left[a] && left[a] in left;
          assert r[b] == col[b - |left|] && col[b - |left|] in col;
        }
      }
    }
  }

  /** The listing of all pieces of `player`, in scan order. */
  function PlayerPieces(g: Grid, player: int): seq<PlacedPiece>
    requires IsGrid(g)
  {
    ScanColumns(g, player, GridSide)
  }

  /** The listing holds exactly the squares owned by `player`, each with the
      piece it holds, in strict scan order and so without duplicates. */
  lemma PlayerPiecesExact(g: Grid, player: int)
    requires IsGrid(g)
    ensures forall e :: e in PlayerPieces(g, player) <==> IsEntryOf(g, player, e)
    ensures forall a, b :: 0 <= a < b < |PlayerPieces(g, player)| ==>
              ScansBefore(PlayerPieces(g, player)[a], PlayerPieces(g, player)[b])
    ensures forall a, b :: 0 <= a < b < |PlayerPieces(g, player)| ==>
              PlayerPieces(g, player)[a] != PlayerPieces(g, player)[b]
  {
    ScanColumnsExact(g, player, GridSide);
  }

  /** Scan of the pieces, the nested loops of the listing operation. */
  method GetAllPlayerPiecesWithCoords(g: Grid, player: int) returns (result: seq<PlacedPiece>)
    requires IsGrid(g)
    ensures result == PlayerPieces(g, player)
  {
    result := [];
    var i := 0;
    while i < GridSide
      invariant 0 <= i <= GridSide
      invariant result == ScanColumns(g, player, i)
    {
      var j := 0;
      while j < GridSide
        invariant 0 <= j <= GridSide
        invariant result == ScanColumns(g, player, i) + ScanColumn(g, player, i, j)
      {
        var piece := GetPieceAt(g, Cell(i, j)).value;
        if PiecePlayer(piece) == player {
          result := result + [PlacedPiece(i, j, piece)];
        }
        j := j + 1;
      }
      i := i + 1;
    }
  }

  // ----- The start position -----

  /** The all-empty grid that generateGrid builds. */
  function EmptyGrid(): (g: Grid)
    ensures IsGrid(g)
    ensures forall y, x :: 0 <= y < GridSide && 0 <= x < GridSide ==> g[y][x] == NoPiece
  {
    seq(GridSide, y => seq(GridSide, x => NoPiece))
  }

  /** The piece of the back rank at column x, as a white value. */
  function BackRankPiece(x: int): int {
    if x == 0 || x == 7 then WhiteRook
    else if x == 1 || x == 6 then WhiteKnight
    else if x == 2 || x == 5 then WhiteBishop
    else if x == 3 then WhiteQueen
    else WhiteKing
  }

  /** The piece of the standard start position at column x, row y. */
  function StartPieceAt(x: int, y: int): int {
    if y == 0 then -BackRankPiece(x)
    else if y == 1 then BlackPawn
    else if y == 6 then WhitePawn
    else if y == 7 then BackRankPiece(x)
    else NoPiece
  }

  /** The standard start position. */
  function DefaultBoard(): (g: Grid)
    ensures IsGrid(g) && HoldsPieces(g)
    ensures forall y, x :: 0 <= y < GridSide && 0 <= x < GridSide ==> g[y][x] == StartPieceAt(x, y)
  {
    seq(GridSide, y => seq(GridSide, x => StartPieceAt(x, y)))
  }

  // Proof helpers for the start-up code, which fills the start position
  // square by square.

  /** g shows the start position on the rows in `rows` and on the columns
      0 .. upTo-1 of row `row`, and is empty everywhere else. */
  ghost predicate ShowsStartOn(g: Grid, rows: set<int>, row: int, upTo: int)
    requires IsGrid(g)
  {
    forall d :: IsInBounds(d) ==>
      At(g, d) == (if d.y in rows || (d.y == row && d.x < upTo) then StartPieceAt(d.x, d.y) else NoPiece)
  }

  /** Writing the start piece of the next column of row `row`. */
  lemma PlaceStartPiece(g: Grid, rows: set<int>, row: int, i: int)
    requires IsGrid(g) && 0 <= i < GridSide && 0 <= row < GridSide && row !in rows
    requires ShowsStartOn(g, rows, row, i)
    ensures ShowsStartOn(SetCell(g, Cell(i, row), StartPieceAt(i, row)), rows, row, i + 1)
  {
  }

  /** The order in which the start-up code writes a back rank: rooks,
      knights, bishops, queen, king. */
  const BackRankOrder: seq<int> := [0, 7, 1, 6, 2, 5, 3, 4]

  /** The grid after the first k back rank writes on row y, in the order
      of BackRankOrder; sign -1 makes the pieces black. */
  ghost function WriteBackRank(g: Grid, y: int, sign: int, k: int): (r: Grid)
    requires IsGrid(g) && 0 <= y < GridSide && 0 <= k <= |BackRankOrder|
    ensures IsGrid(r)
  {
    if k == 0 then g
    else
      var x := BackRankOrder[k - 1];
      SetCell(WriteBackRank(g, y, sign, k - 1), Cell(x, y), sign * BackRankPiece(x))
  }

  /** What the first k writes leave on one square: the back rank piece if
      one of them wrote it, the old value otherwise. */
  lemma {:induction false} WriteBackRankAt(g: Grid, y: int, sign: int, k: int, d: Cell)
    requires IsGrid(g) && 0 <= y < GridSide && 0 <= k <= |BackRankOrder| && IsInBounds(d)
    ensures At(WriteBackRank(g, y, sign, k), d)
         == if d.y == y && d.x in BackRankOrder[..k] then sign * BackRankPiece(d.x) else At(g, d)
  {
    if k > 0 {
      WriteBackRankAt(g, y, sign, k - 1, d);
      assert BackRankOrder[..k] == BackRankOrder[..k - 1] + [BackRankOrder[k - 1]];
    }
  }

  /** The back rank writes on an empty row 0 or 7 complete that row. */
  lemma BackRankWritesShow(g: Grid, rows: set<int>, y: int)
    requires IsGrid(g) && (y == 0 || y == 7) && y !in rows
    requires ShowsStartOn(g, rows, y, 0)
    ensures ShowsStartOn(WriteBackRank(g, y, if y == 0 then -1 else 1, |BackRankOrder|), rows + {y}, y, 0)
  {
    var sign := if y == 0 then -1 else 1;
    forall d | IsInBounds(d)
      ensures At(WriteBackRank(g, y, sign, |BackRankOrder|), d)
           == (if d.y in rows + {y} then StartPieceAt(d.x, d.y) else NoPiece)
    {
      WriteBackRankAt(g, y, sign, |BackRankOrder|, d);
      assert BackRankOrder[..|BackRankOrder|] == BackRankOrder;
    }
  }

  /** A grid showing the start position on every row is the start position. */
  lemma ShowsStartEverywhere(g: Grid)
    requires IsGrid(g) && ShowsStartOn(g, {0, 1, 7}, 6, GridSide)
    ensures g == DefaultBoard()
  {
    forall y, x | 0 <= y < GridSide && 0 <= x < GridSide
      ensures g[y][x] == DefaultBoard()[y][x]
    {
      assert At(g, Cell(x, y)) == StartPieceAt(x, y);
    }
    GridsEqual(g, DefaultBoard());
  }

  /** Each king stands alone on its start square: white on (4, 7), black on (4, 0). */
  lemma DefaultBoardKings()
    ensures At(DefaultBoard(), Cell(4, 7)) == WhiteKing
    ensures At(DefaultBoard(), Cell(4, 0)) == BlackKing
    ensures forall c :: IsInBounds(c) && At(DefaultBoard(), c) == WhiteKing ==> c == Cell(4, 7)
    ensures forall c :: IsInBounds(c) && At(DefaultBoard(), c) == BlackKing ==> c == Cell(4, 0)
  {
  }

  /** Rows 2 to 5 of the start position are empty; rows 0 and 1 are black,
      rows 6 and 7 white. */
  lemma DefaultBoardRows()
    ensures forall c :: IsInBounds(c) && 2 <= c.y <= 5 ==> At(DefaultBoard(), c) == NoPiece
    ensures forall c :: IsInBounds(c) && c.y <= 1 ==> PiecePlayer(At(DefaultBoard(), c)) == BlackPlayer
    ensures forall c :: IsInBounds(c) && c.y >= 6 ==> PiecePlayer(At(DefaultBoard(), c)) == WhitePlayer
  {
    forall c | IsInBounds(c) && c.y <= 1
      ensures PiecePlayer(At(DefaultBoard(), c)) == BlackPlayer
    {
      assert At(DefaultBoard(), c) == StartPieceAt(c.x, c.y);
    }
  }

  /** Every column of the start position holds two pieces of each player. */
  lemma {:induction false} DefaultColumnCount(player: int, x: int)
    requires player == WhitePlayer || player == BlackPlayer
    requires 0 <= x < GridSide
    ensures |ScanColumn(DefaultBoard(), player, x, GridSide)| == 2
  {
    var g := DefaultBoard();
    assert |ScanColumn(g, player, x, 2)| == (if player == BlackPlayer then 2 else 0) by {
      assert |ScanColumn(g, player, x, 0)| == 0;
    }
    assert |ScanColumn(g, player, x, 6)| == (if player == BlackPlayer then 2 else 0) by {
      assert |ScanColumn(g, player, x, 3)| == (if player == BlackPlayer then 2 else 0);
      assert |ScanColumn(g, player, x, 4)| == (if player == BlackPlayer then 2 else 0);
      assert |ScanColumn(g, player, x, 5)| == (if player == BlackPlayer then 2 else 0);
    }
    assert |ScanColumn(g, player, x, 7)| == (if player == BlackPlayer then 2 else 1);
  }

  lemma {:induction false} DefaultColumnsCount(player: int, i: int)
    requires player == WhitePlayer || player == BlackPlayer
    requires 0 <= i <= GridSide
    ensures |ScanColumns(DefaultBoard(), player, i)| == 2 * i
    decreases i
  {
    if i > 0 {
      DefaultColumnsCount(player, i - 1);
      DefaultColumnCount(player, i - 1);
    }
  }

  /** In the start position each player owns exactly 16 squares. */
  lemma DefaultBoardCounts()
    ensures |PlayerPieces(DefaultBoard(), WhitePlayer)| == 16
    ensures |PlayerPieces(DefaultBoard(), BlackPlayer)| == 16
  {
    DefaultColumnsCount(WhitePlayer, GridSide);
    DefaultColumnsCount(BlackPlayer, GridSide);
  }
}
