/** The Go board: colours, cells, coordinates, orthogonal adjacency and the
    in-bounds neighbour enumeration every search of the engine is built on. */
module Board {

  /** The side of the board; every search bound-checks against this constant. */
  const BOARD_SIZE: int := 19

  datatype Color = Black | White

  function Opponent(c: Color): (o: Color)
    ensures o != c
  {
    if c == Black then White else Black
  }

  /** A cell is empty (the source's null) or holds a stone of one colour. */
  datatype Cell = Empty | Stone(color: Color)

  /** (row, column) */
  type Coord = (int, int)

  type Grid = seq<seq<Cell>>

  predicate InGrid(p: Coord, n: int) {
    0 <= p.0 < n && 0 <= p.1 < n
  }

  predicate OnBoard(p: Coord) {
    InGrid(p, BOARD_SIZE)
  }

  predicate WellFormed(b: Grid) {
    |b| == BOARD_SIZE && forall r :: 0 <= r < |b| ==> |b[r]| == BOARD_SIZE
  }

  function At(b: Grid, p: Coord): Cell
    requires WellFormed(b) && OnBoard(p)
  {
    b[p.0][p.1]
  }

  /** p and q differ by one step up, down, left or right. */
  predicate Adjacent(p: Coord, q: Coord) {
    (p.0 == q.0 && (p.1 - q.1 == 1 || q.1 - p.1 == 1)) ||
    (p.1 == q.1 && (p.0 - q.0 == 1 || q.0 - p.0 == 1))
  }

  /** Every cell of the board. */
  ghost function AllCells(): set<Coord> {
    set r, c | 0 <= r < BOARD_SIZE && 0 <= c < BOARD_SIZE :: (r, c)
  }

  lemma InAllCells(p: Coord)
    ensures p in AllCells() <==> OnBoard(p)
  {
    if OnBoard(p) {
      assert p == (p.0, p.1);
    }
  }

  predicate Distinct<T(==)>(s: seq<T>) {
    forall i, j :: 0 <= i < j < |s| ==> s[i] != s[j]
  }

  /** The board with the single cell p set to v. */
  function Put(b: Grid, p: Coord, v: Cell): (r: Grid)
    requires WellFormed(b) && OnBoard(p)
    ensures WellFormed(r)
    ensures At(r, p) == v
    ensures forall q :: OnBoard(q) && q != p ==> At(r, q) == At(b, q)
  {
    b[p.0 := b[p.0][p.1 := v]]
  }

  /** Two well-formed boards that agree on every cell are equal. */
  lemma BoardsEqual(b1: Grid, b2: Grid)
    requires WellFormed(b1) && WellFormed(b2)
    requires forall q :: OnBoard(q) ==> At(b1, q) == At(b2, q)
    ensures b1 == b2
  {
    forall r | 0 <= r < BOARD_SIZE
      ensures b1[r] == b2[r]
    {
      forall c | 0 <= c < BOARD_SIZE
        ensures b1[r][c] == b2[r][c]
      {
        assert At(b1, (r, c)) == At(b2, (r, c));
      }
    }
  }

  /** getInitialBoardState: a 19x19 board of empty cells. */
  function InitialBoard(): (b: Grid)
    ensures WellFormed(b)
    ensures forall q :: OnBoard(q) ==> At(b, q) == Empty
  {
    seq(BOARD_SIZE, _ => seq(BOARD_SIZE, _ => Empty))
  }

  /** The colour the person at the board plays. */
  const HUMAN_PLAYER_COLOR: Color := Black

  /** The colour the computer opponent plays. */
  const AI_PLAYER_COLOR: Color := White

  /** getInitialCurrentPlayer: the human player moves first, so the first
      stone is Black's and the computer answers with the other colour. */
  function InitialPlayer(): (c: Color)
    ensures c == HUMAN_PLAYER_COLOR && c == Black
    ensures Opponent(c) == AI_PLAYER_COLOR
  {
    HUMAN_PLAYER_COLOR
  }

  /** The cells orthogonally next to (row, col) inside [0, n) x [0, n). */
  ghost function AdjacentCells(row: int, col: int, n: int): set<Coord> {
    set p | p in {(row - 1, col), (row + 1, col), (row, col - 1), (row, col + 1)} && InGrid(p, n)
  }

  lemma AdjacentCellsMembers(row: int, col: int, n: int, p: Coord)
    ensures p in AdjacentCells(row, col, n) <==> InGrid(p, n) && Adjacent(p, (row, col))
  {
  }

  /** How many of the four sides of the grid the cell lies on. */
  function SidesTouched(row: int, col: int, n: int): nat {
    (if row == 0 then 1 else 0) + (if row == n - 1 then 1 else 0) +
    (if col == 0 then 1 else 0) + (if col == n - 1 then 1 else 0)
  }

  /** The candidates that fall inside the grid, in their given order. */
  function InGridOf(cands: seq<Coord>, n: int): seq<Coord> {
    if cands == [] then []
    else InGridOf(cands[..|cands| - 1], n) + (if InGrid(cands[|cands| - 1], n) then [cands[|cands| - 1]] else [])
  }

  /** getNeighbors: the in-bounds orthogonal neighbours, in the order up, down,
      left, right. A corner has 2, an edge cell 3 and an interior cell 4. */
  method GetNeighbors(row: int, col: int, boardSize: int) returns (ns: seq<Coord>)
    ensures forall p :: p in ns <==> InGrid(p, boardSize) && Adjacent(p, (row, col))
    ensures Distinct(ns)
    ensures InDirectionOrder(ns, row, col)
    ensures boardSize >= 2 && InGrid((row, col), boardSize) ==>
              |ns| == 4 - SidesTouched(row, col, boardSize)
  {
    var deltas := [(-1, 0), (1, 0), (0, -1), (0, 1)];
    ghost var cands := Candidates(row, col);
    ns := [];
    for i := 0 to 4
      invariant ns == InGridOf(cands[..i], boardSize)
    {
      var r := row + deltas[i].0;
      var c := col + deltas[i].1;
      assert (r, c) == cands[i];
      assert cands[..i + 1][..i] == cands[..i];
      if r >= 0 && r < boardSize && c >= 0 && c < boardSize {
        ns := ns + [(r, c)];
      }
    }
    assert cands[..4] == cands;
    InGridPrefix(row, col, boardSize, 4, ns);
    forall p
      ensures p in ns <==> InGrid(p, boardSize) && Adjacent(p, (row, col))
    {
      CandidatesAreAdjacent(row, col, p);
    }
    if boardSize >= 2 && InGrid((row, col), boardSize) {
      CandidateCount(row, col, boardSize);
    }
  }

  /** The cells of ns come in the order up, down, left, right around (row, col). */
  predicate InDirectionOrder(ns: seq<Coord>, row: int, col: int) {
    forall j, k :: 0 <= j < k < |ns| ==> Direction(ns[j], row, col) < Direction(ns[k], row, col)
  }

  /** The candidates among the first i that lie in the grid keep their
      order, and each is one of those i. */
  lemma {:induction false} InGridPrefix(row: int, col: int, n: int, i: nat, ns: seq<Coord>)
    requires i <= 4 && ns == InGridOf(Candidates(row, col)[..i], n)
    ensures forall p :: p in ns <==> p in Candidates(row, col)[..i] && InGrid(p, n)
    ensures forall j :: 0 <= j < |ns| ==> Direction(ns[j], row, col) < i
    ensures forall j, k :: 0 <= j < k < |ns| ==> Direction(ns[j], row, col) < Direction(ns[k], row, col)
  {
    if i > 0 {
      var cands := Candidates(row, col);
      assert cands[..i][..i - 1] == cands[..i - 1];
      assert cands[..i] == cands[..i - 1] + [cands[i - 1]];
      assert Direction(cands[i - 1], row, col) == i - 1;
      InGridPrefix(row, col, n, i - 1, InGridOf(cands[..i - 1], n));
    }
  }

  /** The four orthogonal candidates in the source's order: up, down, left, right. */
  function Candidates(row: int, col: int): seq<Coord> {
    [(row - 1, col), (row + 1, col), (row, col - 1), (row, col + 1)]
  }

  /** The position of a neighbour of (row, col) in that order: 0 up, 1 down,
      2 left, 3 right. */
  function Direction(p: Coord, row: int, col: int): nat {
    if p == (row - 1, col) then 0
    else if p == (row + 1, col) then 1
    else if p == (row, col - 1) then 2
    else 3
  }

  lemma CandidatesAreAdjacent(row: int, col: int, p: Coord)
    ensures p in Candidates(row, col) <==> Adjacent(p, (row, col))
  {
    if Adjacent(p, (row, col)) {
      if p.0 == row {
        assert p == (row, col - 1) || p == (row, col + 1);
      } else {
        assert p == (row - 1, col) || p == (row + 1, col);
      }
    }
  }

  lemma CandidateCount(row: int, col: int, n: int)
    requires n >= 2 && InGrid((row, col), n)
    ensures |InGridOf(Candidates(row, col), n)| == 4 - SidesTouched(row, col, n)
  {
    var cands := Candidates(row, col);
    assert cands[..3][..2] == cands[..2] && cands[..2][..1] == cands[..1] && cands[..1][..0] == [];
    assert |InGridOf(cands[..1], n)| == (if row >= 1 then 1 else 0);
    assert |InGridOf(cands[..2], n)| == |InGridOf(cands[..1], n)| + (if row + 1 < n then 1 else 0);
    assert |InGridOf(cands[..3], n)| == |InGridOf(cands[..2], n)| + (if col >= 1 then 1 else 0);
    assert cands[..4] == cands;
  }
}
