/**
 * The 3x3 sliding puzzle: a board of nine pieces, each with an id, the cell it
 * occupies (`position`, 0..8 read row by row) and the cell it belongs in
 * (`correctPosition`). The blank is whichever piece occupies cell 8.
 */
module SlidingPuzzle {
  import opened Common

  datatype Piece = Piece(id: int, position: nat, correctPosition: nat)

  /** The pieces in the order the board holds them (by id, as the board is built). */
  type Board = seq<Piece>

  const CellCount: nat := 9
  /** The cell the blank is looked up by. */
  const BlankCell: nat := 8

  function Row(cell: nat): nat { cell / 3 }
  function Col(cell: nat): nat { cell % 3 }
  function Abs(x: int): nat { if x < 0 then -x else x }

  /** Exactly one row apart in the same column, or exactly one column apart in the same row. */
  predicate IsAdjacent(a: nat, b: nat)
    ensures IsAdjacent(a, b) ==> a != b
  {
    || (Abs(Row(a) - Row(b)) == 1 && Col(a) == Col(b))
    || (Abs(Col(a) - Col(b)) == 1 && Row(a) == Row(b))
  }

  /** The 4-neighbours of each cell of the 3x3 grid, listed by hand. */
  function Neighbours(cell: nat): set<nat>
    requires cell < CellCount
  {
    match cell
    case 0 => {1, 3}
    case 1 => {0, 2, 4}
    case 2 => {1, 5}
    case 3 => {0, 4, 6}
    case 4 => {1, 3, 5, 7}
    case 5 => {2, 4, 8}
    case 6 => {3, 7}
    case 7 => {4, 6, 8}
    case 8 => {5, 7}
  }

  /** The row/column adjacency test agrees with the table of grid neighbours. */
  lemma AdjacentIffNeighbour(a: nat, b: nat)
    requires a < CellCount && b < CellCount
    ensures IsAdjacent(a, b) <==> b in Neighbours(a)
  {
  }

  /** The numbers 0..n-1 in order; `Range(CellCount)` lists the cells of the board. */
  function Range(n: nat): (r: seq<nat>)
    ensures |r| == n && forall i :: 0 <= i < n ==> r[i] == i
  {
    if n == 0 then [] else Range(n - 1) + [n - 1]
  }

  /** The `position` fields of the board, piece by piece. */
  function Positions(b: Board): (ps: seq<nat>)
    ensures |ps| == |b| && forall k :: 0 <= k < |b| ==> ps[k] == b[k].position
  {
    seq(|b|, k requires 0 <= k < |b| => b[k].position)
  }

  /**
   * A board as the game builds it: nine pieces, piece k has id k and belongs in cell k,
   * and the cells they occupy are a permutation of the nine cells.
   */
  ghost predicate ValidBoard(b: Board) {
    && |b| == CellCount
    && (forall k :: 0 <= k < |b| ==> b[k].id == k && b[k].correctPosition == k)
    && multiset(Positions(b)) == multiset(Range(CellCount))
  }

  /** The solved board, from which the shuffle starts. */
  function InitialBoard(): (b: Board)
    ensures ValidBoard(b)
    ensures forall k :: 0 <= k < |b| ==> b[k].position == b[k].correctPosition
  {
    var b := seq(CellCount, k requires 0 <= k < CellCount => Piece(k, k, k));
    assert Positions(b) == Range(CellCount);
    b
  }

  /** One shuffle step: pieces i and j trade their `position` fields; ids and home cells stay. */
  function SwapPositions(b: Board, i: nat, j: nat): (r: Board)
    requires i < |b| && j < |b|
    ensures |r| == |b|
    ensures r[i] == b[i].(position := b[j].position) && r[j] == b[j].(position := b[i].position)
    ensures forall k :: 0 <= k < |b| && k != i && k != j ==> r[k] == b[k]
  {
    var temp := b[i].position;
    var b' := b[i := b[i].(position := b[j].position)];
    b'[j := b'[j].(position := temp)]
  }

  /** A shuffle step only permutes the occupied cells. */
  lemma SwapKeepsPositions(b: Board, i: nat, j: nat)
    requires i < |b| && j < |b|
    ensures multiset(Positions(SwapPositions(b, i, j))) == multiset(Positions(b))
  {
    if i != j {
      var ps := Positions(b);
      assert Positions(SwapPositions(b, i, j)) == ps[i := ps[j]][j := ps[i]];
      SwapKeepsMultiset(ps, i, j);
    } else {
      assert SwapPositions(b, i, j) == b;
    }
  }

  /** A shuffle step keeps the board valid: ids and home cells stay, occupied cells stay a permutation. */
  lemma SwapKeepsValid(b: Board, i: nat, j: nat)
    requires ValidBoard(b) && i < |b| && j < |b|
    ensures ValidBoard(SwapPositions(b, i, j))
  {
    SwapKeepsPositions(b, i, j);
  }

  lemma SwapKeepsMultiset(s: seq<nat>, i: nat, j: nat)
    requires i < |s| && j < |s| && i != j
    ensures multiset(s[i := s[j]][j := s[i]]) == multiset(s)
  {
    var s1 := s[i := s[j]];
    assert multiset(s1) == multiset(s) - multiset{s[i]} + multiset{s[j]};
    assert s1[j] == s[j];
  }

  /**
   * The shuffle as a value: the loop's steps i, i-1, .., 1 applied to `b`, step k exchanging the
   * positions of pieces k and picks[k].
   */
  function ShuffleFrom(b: Board, picks: seq<nat>, i: nat): (r: Board)
    requires i < |b| && i < |picks|
    requires forall k :: 0 <= k <= i ==> picks[k] <= k
    ensures |r| == |b|
    decreases i
  {
    if i == 0 then b else ShuffleFrom(SwapPositions(b, i, picks[i]), picks, i - 1)
  }

  /** The board the shuffle deals for the random picks: all steps 8..1 applied to the solved board. */
  function Shuffled(picks: seq<nat>): Board
    requires |picks| == CellCount
    requires forall i :: 0 <= i < |picks| ==> picks[i] <= i
  {
    ShuffleFrom(InitialBoard(), picks, CellCount - 1)
  }

  /** Every run of shuffle steps keeps a board valid. */
  lemma {:induction false} ShuffleFromValid(b: Board, picks: seq<nat>, i: nat)
    requires ValidBoard(b) && i < |b| && i < |picks|
    requires forall k :: 0 <= k <= i ==> picks[k] <= k
    ensures ValidBoard(ShuffleFrom(b, picks, i))
    decreases i
  {
    if i > 0 {
      SwapKeepsValid(b, i, picks[i]);
      ShuffleFromValid(SwapPositions(b, i, picks[i]), picks, i - 1);
    }
  }

  /** Whatever the picks, the dealt board is valid: same ids and home cells, positions a permutation. */
  lemma ShuffledValid(picks: seq<nat>)
    requires |picks| == CellCount
    requires forall i :: 0 <= i < |picks| ==> picks[i] <= i
    ensures ValidBoard(Shuffled(picks))
  {
    ShuffleFromValid(InitialBoard(), picks, CellCount - 1);
  }

  /** Picks that never exchange two different pieces deal the solved board. */
  lemma {:induction false} IdlePicksDealSolvedBoard(b: Board, picks: seq<nat>, i: nat)
    requires i < |b| && i < |picks|
    requires forall k :: 0 <= k <= i ==> picks[k] == k
    ensures ShuffleFrom(b, picks, i) == b
    decreases i
  {
    if i > 0 {
      assert SwapPositions(b, i, picks[i]) == b;
      IdlePicksDealSolvedBoard(b, picks, i - 1);
    }
  }

  /**
   * Builds the shuffled board: starting from the solved board, for i from 8 down to 1 the
   * positions of pieces i and picks[i] are exchanged in place. `picks[i]` stands for the
   * random index drawn from 0..i.
   */
  method ShuffledBoard(picks: seq<nat>) returns (board: Board)
    requires |picks| == CellCount
    requires forall i :: 0 <= i < |picks| ==> picks[i] <= i
    ensures board == Shuffled(picks)
    ensures ValidBoard(board)
  {
    var pieces := new Piece[CellCount](k requires 0 <= k => Piece(k, k, k));
    assert pieces[..] == InitialBoard();
    var i := pieces.Length - 1;
    while i > 0
      invariant 0 <= i < pieces.Length
      invariant ShuffleFrom(pieces[..], picks, i) == Shuffled(picks)
    {
      var j := picks[i];
      ghost var before := pieces[..];
      var temp := pieces[i].position;
      pieces[i] := pieces[i].(position := pieces[j].position);
      pieces[j] := pieces[j].(position := temp);
      assert pieces[..] == SwapPositions(before, i, j);
      i := i - 1;
    }
    board := pieces[..];
    ShuffledValid(picks);
  }

  /** Index of the first piece satisfying `matches`, as `Array.prototype.find` picks it. */
  function Find(b: Board, matches: Piece -> bool): (r: Option<nat>)
    ensures r.Some? ==> r.value < |b| && matches(b[r.value])
    ensures r.Some? ==> forall k :: 0 <= k < r.value ==> !matches(b[k])
    ensures r.None? ==> forall k :: 0 <= k < |b| ==> !matches(b[k])
  {
    if b == [] then None
    else if matches(b[0]) then Some(0)
    else match Find(b[1..], matches)
      case None => None
      case Some(k) => Some(k + 1)
  }

  function FindById(b: Board, id: int): Option<nat> {
    Find(b, (p: Piece) => p.id == id)
  }

  function FindBlank(b: Board): Option<nat> {
    Find(b, (p: Piece) => p.position == BlankCell)
  }

  /** The board after the clicked piece and the blank piece exchange their positions. */
  function Exchange(b: Board, clicked: Piece, blank: Piece): (r: Board)
    ensures |r| == |b|
    ensures forall k :: 0 <= k < |b| ==> r[k].id == b[k].id && r[k].correctPosition == b[k].correctPosition
    ensures forall k :: 0 <= k < |b| && b[k].id == clicked.id ==> r[k].position == blank.position
    ensures forall k :: 0 <= k < |b| && b[k].id != clicked.id && b[k].id == blank.id ==> r[k].position == clicked.position
    ensures forall k :: 0 <= k < |b| && b[k].id != clicked.id && b[k].id != blank.id ==> r[k] == b[k]
  {
    seq(|b|, k requires 0 <= k < |b| =>
      if b[k].id == clicked.id then b[k].(position := blank.position)
      else if b[k].id == blank.id then b[k].(position := clicked.position)
      else b[k])
  }

  /**
   * A click on piece `pieceId`: `None` when there is no such piece, no piece on the blank
   * cell, or the clicked piece's cell is not adjacent to the blank's; otherwise the board
   * after the exchange.
   */
  function TryMove(b: Board, pieceId: int): (r: Option<Board>)
    ensures r.Some? <==>
      && FindById(b, pieceId).Some? && FindBlank(b).Some?
      && IsAdjacent(b[FindById(b, pieceId).value].position, b[FindBlank(b).value].position)
    ensures r.Some? ==> r.value == Exchange(b, b[FindById(b, pieceId).value], b[FindBlank(b).value])
  {
    match (FindById(b, pieceId), FindBlank(b))
    case (Some(c), Some(e)) =>
      if IsAdjacent(b[c].position, b[e].position) then Some(Exchange(b, b[c], b[e])) else None
    case _ => None
  }

  /** The cells adjacent to the blank cell are 5 (above it) and 7 (left of it). */
  lemma AdjacentToBlankCell(cell: nat)
    requires cell < CellCount
    ensures IsAdjacent(cell, BlankCell) <==> cell == 5 || cell == 7
  {
  }

  /** A cell is occupied on a valid board exactly when it is one of the nine cells. */
  lemma {:induction false} OccupiedCells(b: Board, cell: int)
    requires ValidBoard(b)
    ensures cell in Positions(b) <==> 0 <= cell < CellCount
  {
    var ps, cells := Positions(b), Range(CellCount);
    assert cell in ps <==> cell in multiset(ps);
    assert cell in cells <==> cell in multiset(cells);
    if 0 <= cell < CellCount {
      assert cells[cell] == cell;
    }
  }

  /** On a valid board every piece occupies one of the nine cells, and some piece occupies the blank cell. */
  lemma {:induction false} ValidBoardCells(b: Board)
    requires ValidBoard(b)
    ensures forall k :: 0 <= k < |b| ==> b[k].position < CellCount
    ensures FindBlank(b).Some?
  {
    var ps := Positions(b);
    forall k | 0 <= k < |b| ensures b[k].position < CellCount {
      assert ps[k] in ps;
      OccupiedCells(b, ps[k]);
    }
    OccupiedCells(b, BlankCell);
    var e :| 0 <= e < |ps| && ps[e] == BlankCell;
    FindSome(b, (p: Piece) => p.position == BlankCell, e);
  }

  /** `Find` finds something when some piece matches (a corollary of its contract, by induction). */
  lemma {:induction false} FindSome(b: Board, matches: Piece -> bool, k: nat)
    requires k < |b| && matches(b[k])
    ensures Find(b, matches).Some?
  {
    if k > 0 && !matches(b[0]) {
      FindSome(b[1..], matches, k - 1);
    }
  }

  /** `Find` returns the first index whose piece matches (a corollary of its contract, by induction). */
  lemma {:induction false} FindFirst(b: Board, matches: Piece -> bool, k: nat)
    requires k < |b| && matches(b[k])
    requires forall j :: 0 <= j < k ==> !matches(b[j])
    ensures Find(b, matches) == Some(k)
  {
    if k > 0 {
      FindFirst(b[1..], matches, k - 1);
    }
  }

  /** On a valid board the piece with id k is the k-th piece. */
  lemma FindByIdOnValidBoard(b: Board, id: int)
    requires forall k :: 0 <= k < |b| ==> b[k].id == k
    ensures FindById(b, id) == if 0 <= id < |b| then Some(id) else None
  {
    if 0 <= id < |b| {
      FindFirst(b, (p: Piece) => p.id == id, id);
    }
  }

  /**
   * A click on a valid board is accepted exactly when the clicked piece's cell is one row or one
   * column away from the blank cell, which leaves the pieces in cells 5 and 7. An accepted click
   * exchanges the positions of the clicked piece and the blank piece, changes no other piece,
   * and leaves a valid board.
   */
  lemma {:induction false} MoveOnValidBoard(b: Board, id: int)
    requires ValidBoard(b)
    ensures TryMove(b, id).Some? <==> 0 <= id < |b| && IsAdjacent(b[id].position, BlankCell)
    ensures TryMove(b, id).Some? <==> 0 <= id < |b| && (b[id].position == 5 || b[id].position == 7)
    ensures TryMove(b, id).Some? ==>
      && FindBlank(b).Some?
      && var e, r := FindBlank(b).value, TryMove(b, id).value;
      && e != id
      && r[id] == b[id].(position := BlankCell)
      && r[e] == b[e].(position := b[id].position)
      && (forall k :: 0 <= k < |b| && k != id && k != e ==> r[k] == b[k])
      && ValidBoard(r)
  {
    MoveAccepted(b, id);
    if TryMove(b, id).Some? {
      MoveExchanges(b, id);
    }
  }

  /** When a click on a valid board is accepted. */
  lemma {:induction false} MoveAccepted(b: Board, id: int)
    requires ValidBoard(b)
    ensures TryMove(b, id).Some? <==> 0 <= id < |b| && IsAdjacent(b[id].position, BlankCell)
    ensures TryMove(b, id).Some? <==> 0 <= id < |b| && (b[id].position == 5 || b[id].position == 7)
  {
    ValidBoardCells(b);
    FindByIdOnValidBoard(b, id);
    if 0 <= id < |b| {
      AdjacentToBlankCell(b[id].position);
    }
  }

  /** An accepted click is the shuffle's exchange of the clicked piece's and the blank piece's positions. */
  lemma {:induction false} MoveExchanges(b: Board, id: int)
    requires ValidBoard(b) && TryMove(b, id).Some?
    ensures 0 <= id < |b| && FindBlank(b).Some? && FindBlank(b).value != id
    ensures TryMove(b, id).value == SwapPositions(b, id, FindBlank(b).value)
    ensures ValidBoard(TryMove(b, id).value)
  {
    MoveAccepted(b, id);
    ValidBoardCells(b);
    FindByIdOnValidBoard(b, id);
    var e := FindBlank(b).value;
    assert b[e].position == BlankCell;
    var r := TryMove(b, id).value;
    assert r == Exchange(b, b[id], b[e]);
    assert r == SwapPositions(b, id, e);
    SwapKeepsValid(b, id, e);
  }

  /** The board after a run of clicks; rejected clicks leave it as it was. */
  function ApplyClicks(b: Board, ids: seq<int>): Board
    decreases |ids|
  {
    if ids == [] then b
    else match TryMove(b, ids[0])
      case Some(r) => ApplyClicks(r, ids[1..])
      case None => ApplyClicks(b, ids[1..])
  }

  /** The blank cell and the two cells next to it. */
  predicate NearBlank(cell: nat) {
    cell == 5 || cell == 7 || cell == BlankCell
  }

  /**
   * Because the blank is found by its cell and the clicked piece takes that cell, the blank never
   * leaves cell 8: whatever is clicked, a piece outside cells 5, 7 and 8 never moves.
   */
  lemma {:induction false} OnlyCellsNearBlankMove(b: Board, ids: seq<int>)
    requires ValidBoard(b)
    ensures ValidBoard(ApplyClicks(b, ids))
    ensures forall k :: 0 <= k < |b| && !NearBlank(b[k].position) ==> ApplyClicks(b, ids)[k] == b[k]
    decreases |ids|
  {
    if ids != [] {
      MoveOnValidBoard(b, ids[0]);
      match TryMove(b, ids[0])
      case Some(r) =>
        OnlyCellsNearBlankMove(r, ids[1..]);
        forall k | 0 <= k < |b| && !NearBlank(b[k].position)
          ensures ApplyClicks(b, ids)[k] == b[k]
        {
          assert r[k] == b[k];
        }
      case None =>
        OnlyCellsNearBlankMove(b, ids[1..]);
    }
  }

  /**
   * The shuffled puzzle can be completed only if the shuffle already put home every piece that
   * sits outside cells 5, 7 and 8.
   */
  lemma SolvableOnlyIfOuterPiecesHome(b: Board, ids: seq<int>)
    requires ValidBoard(b) && Completed(ApplyClicks(b, ids))
    ensures forall k :: 0 <= k < |b| && !NearBlank(b[k].position) ==> b[k].position == b[k].correctPosition
  {
    OnlyCellsNearBlankMove(b, ids);
  }

  /** Every piece is in the cell it belongs in. */
  predicate Completed(b: Board) {
    forall k :: 0 <= k < |b| ==> b[k].position == b[k].correctPosition
  }

  /** On a valid board, the completion test holds exactly for the solved board. */
  lemma CompletedIsInitial(b: Board)
    requires ValidBoard(b)
    ensures Completed(b) <==> b == InitialBoard()
  {
    if Completed(b) {
      assert forall k :: 0 <= k < |b| ==> b[k] == InitialBoard()[k];
    }
  }

  /** Points for finishing after `moves` earlier moves: 500, five fewer per move, never under 100. */
  function PuzzleScore(moves: nat): (points: int)
    ensures 100 <= points <= 500
    ensures points == 100 <==> moves >= 80
    ensures moves < 80 ==> points == 500 - 5 * moves
  {
    if 500 - moves * 5 > 100 then 500 - moves * 5 else 100
  }
}
