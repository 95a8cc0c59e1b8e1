/** placeStoneLogic: placing a stone, capturing the opponent groups it leaves
    without liberties, and refusing suicide. The method follows the source
    step by step; the ghost functions below say what its result is. */
module Moves {
  import opened Board
  import opened Wrappers
  import opened Connectivity
  import opened Groups

  datatype MoveError = OutOfBoundsOrOccupied | Suicide

  /** The messages the engine reports for a refused move: each starts with
      "Invalid move: " and then names the reason, the suicide one by the
      words "self-capture". */
  function ErrorMessage(e: MoveError): (m: string)
    ensures "Invalid move: " <= m
    ensures e == OutOfBoundsOrOccupied ==> "Invalid move: Spot is out of bounds" <= m
    ensures e == Suicide ==> "Invalid move: self-capture" <= m
  {
    match e
    case OutOfBoundsOrOccupied => "Invalid move: " + "Spot is out of bounds" + " or already occupied."
    case Suicide => "Invalid move: " + "self-capture" + " (suicide) without capturing opponent stones."
  }

  /** The record placeStoneLogic returns; `error` is None on a move made. */
  datatype MoveResult = MoveResult(newBoardState: Grid, newCurrentPlayer: Color, moveMade: bool,
                                   error: Option<MoveError>, capturedCoords: seq<Coord>)

  // ---------------------------------------------------------------------
  // Specification

  /** The board with the new stone tentatively placed. */
  function Placed(b: Grid, p: Coord, player: Color): (r: Grid)
    requires WellFormed(b) && OnBoard(p)
    ensures WellFormed(r)
    ensures At(r, p) == Stone(player)
    ensures forall q :: OnBoard(q) && q != p ==> At(r, q) == At(b, q)
  {
    Put(b, p, Stone(player))
  }

  /** The group of colour c through nb when it has no liberty on b, else nothing. */
  ghost function DeadGroup(b: Grid, c: Color, nb: Coord): set<Coord>
    requires WellFormed(b)
  {
    var C := Component(b, Stone(c), nb);
    if LibertiesOf(b, C) == {} then C else {}
  }

  /** The stones a move at p captures: every opponent group next to p that
      has no liberty once the stone is placed. */
  ghost function CapturedBy(b: Grid, p: Coord, player: Color): set<Coord>
    requires WellFormed(b) && OnBoard(p)
  {
    var placed := Placed(b, p, player);
    set nb, q | nb in AdjacentCells(p.0, p.1, BOARD_SIZE) && q in DeadGroup(placed, Opponent(player), nb) :: q
  }

  /** b with every cell of S emptied. */
  function ClearAll(b: Grid, S: set<Coord>): (r: Grid)
    requires WellFormed(b)
    ensures WellFormed(r)
    ensures forall q :: OnBoard(q) ==> At(r, q) == if q in S then Empty else At(b, q)
  {
    seq(BOARD_SIZE, r requires 0 <= r < BOARD_SIZE =>
      seq(BOARD_SIZE, c requires 0 <= c < BOARD_SIZE => if (r, c) in S then Empty else b[r][c]))
  }

  /** The board after the stone is placed and the captured stones removed. */
  ghost function ResultBoard(b: Grid, p: Coord, player: Color): (r: Grid)
    requires WellFormed(b) && OnBoard(p)
    ensures WellFormed(r)
  {
    ClearAll(Placed(b, p, player), CapturedBy(b, p, player))
  }

  /** The liberties of the new stone's group once the captures are removed. */
  ghost function OwnLiberties(b: Grid, p: Coord, player: Color): set<Coord>
    requires WellFormed(b) && OnBoard(p)
  {
    var after := ResultBoard(b, p, player);
    LibertiesOf(after, Component(after, Stone(player), p))
  }

  /** A move is made when it is on an empty point and either captures or
      leaves its own group a liberty. */
  ghost predicate IsLegal(b: Grid, p: Coord, player: Color)
    requires WellFormed(b)
  {
    OnBoard(p) && At(b, p) == Empty && (CapturedBy(b, p, player) != {} || OwnLiberties(b, p, player) != {})
  }

  // ---------------------------------------------------------------------
  // The algorithm

  /** t is the board `placed` with the cells of S emptied. */
  ghost predicate ClearedOf(t: Grid, placed: Grid, S: set<Coord>) {
    WellFormed(t) && WellFormed(placed) &&
    forall q :: OnBoard(q) ==> At(t, q) == if q in S then Empty else At(placed, q)
  }

  /** S is made of whole groups of colour c on `placed`. */
  ghost predicate WholeGroups(placed: Grid, c: Color, S: set<Coord>)
    requires WellFormed(placed)
  {
    forall x :: x in S ==> OnBoard(x) && At(placed, x) == Stone(c) && Component(placed, Stone(c), x) <= S
  }

  /** The innermost loop of placeStoneLogic: empties each listed stone that
      still holds colour c and records it as captured. */
  method ClearStones(tempBoard: Grid, ghost placed: Grid, c: Color, stones: seq<Coord>,
                     captured: seq<Coord>, count: int)
    returns (tempBoard': Grid, captured': seq<Coord>, count': int)
    requires ClearedOf(tempBoard, placed, Elements(captured))
    requires Distinct(captured) && count == |captured|
    requires forall k :: 0 <= k < |stones| ==> OnBoard(stones[k]) && At(placed, stones[k]) == Stone(c)
    ensures ClearedOf(tempBoard', placed, Elements(captured'))
    ensures Distinct(captured') && count' == |captured'|
    ensures Elements(captured') == Elements(captured) + Elements(stones)
  {
    tempBoard', captured', count' := tempBoard, captured, count;
    for j := 0 to |stones|
      invariant ClearedOf(tempBoard', placed, Elements(captured'))
      invariant Distinct(captured') && count' == |captured'|
      invariant Elements(captured') == Elements(captured) + Elements(stones[..j])
    {
      var (sr, sc) := stones[j];
      assert stones[..j + 1] == stones[..j] + [(sr, sc)];
      if tempBoard'[sr][sc] == Stone(c) {
        tempBoard' := Put(tempBoard', (sr, sc), Empty);
        captured' := captured' + [(sr, sc)];
        count' := count' + 1;
      }
    }
    assert stones[..|stones|] == stones;
  }

  /** One neighbour of the capture loop, entered when it holds an opponent
      stone: search its group on the current board and remove it when it has
      no liberty. */
  method RemoveIfDead(tempBoard: Grid, ghost placed: Grid, c: Color, nb: Coord,
                      captured: seq<Coord>, count: int)
    returns (tempBoard': Grid, captured': seq<Coord>, count': int)
    requires WellFormed(placed) && OnBoard(nb) && ClearedOf(tempBoard, placed, Elements(captured))
    requires At(tempBoard, nb) == Stone(c)
    requires WholeGroups(placed, c, Elements(captured))
    requires Distinct(captured) && count == |captured|
    ensures ClearedOf(tempBoard', placed, Elements(captured'))
    ensures WholeGroups(placed, c, Elements(captured'))
    ensures Distinct(captured') && count' == |captured'|
    ensures Elements(captured') == Elements(captured) + DeadGroup(placed, c, nb)
  {
    ClearingOtherComponents(placed, tempBoard, Stone(c), Elements(captured), nb);
    var stones, liberties := FindGroup(nb.0, nb.1, tempBoard, c);
    ghost var C := Component(placed, Stone(c), nb);
    if |liberties| == 0 {
      forall k | 0 <= k < |stones|
        ensures OnBoard(stones[k]) && At(placed, stones[k]) == Stone(c)
      {
        ComponentCells(placed, Stone(c), nb, stones[k]);
      }
      tempBoard', captured', count' := ClearStones(tempBoard, placed, c, stones, captured, count);
      assert Elements(stones) == C;
      DeadGroupWhole(placed, c, nb);
    } else {
      tempBoard', captured', count' := tempBoard, captured, count;
    }
  }

  /** The capture loop of placeStoneLogic: each opponent neighbour whose
      group has no liberty on the board with the new stone is removed with
      its whole group. */
  method CaptureNeighbours(placed: Grid, opponentColor: Color, neighbors: seq<Coord>)
    returns (tempBoard: Grid, capturedThisTurn: seq<Coord>, capturedStonesCount: int)
    requires WellFormed(placed)
    requires forall k :: 0 <= k < |neighbors| ==> OnBoard(neighbors[k])
    ensures ClearedOf(tempBoard, placed, Elements(capturedThisTurn))
    ensures Distinct(capturedThisTurn) && capturedStonesCount == |capturedThisTurn|
    ensures Elements(capturedThisTurn) == UnionAll(DeadGroups(placed, opponentColor, neighbors))
  {
    tempBoard := placed;
    capturedThisTurn := [];
    capturedStonesCount := 0;
    ghost var groups := DeadGroups(placed, opponentColor, neighbors);
    for i := 0 to |neighbors|
      invariant ClearedOf(tempBoard, placed, Elements(capturedThisTurn))
      invariant WholeGroups(placed, opponentColor, Elements(capturedThisTurn))
      invariant Distinct(capturedThisTurn) && capturedStonesCount == |capturedThisTurn|
      invariant Elements(capturedThisTurn) == UnionAll(groups[..i])
    {
      var (nr, nc) := neighbors[i];
      UnionAllStep(groups, i);
      if tempBoard[nr][nc] == Stone(opponentColor) {
        tempBoard, capturedThisTurn, capturedStonesCount :=
          RemoveIfDead(tempBoard, placed, opponentColor, (nr, nc), capturedThisTurn, capturedStonesCount);
      } else {
        DeadGroupAlreadyCleared(placed, tempBoard, opponentColor, Elements(capturedThisTurn), (nr, nc));
      }
    }
    assert groups[..|groups|] == groups;
  }

  /** placeStoneLogic. */
  method PlaceStone(row: int, col: int, currentBoard: Grid, player: Color) returns (r: MoveResult)
    requires WellFormed(currentBoard)
    ensures WellFormed(r.newBoardState)
    ensures r.moveMade <==> IsLegal(currentBoard, (row, col), player)
    ensures !(OnBoard((row, col)) && At(currentBoard, (row, col)) == Empty) ==>
              r == MoveResult(currentBoard, player, false, Some(OutOfBoundsOrOccupied), [])
    ensures OnBoard((row, col)) && At(currentBoard, (row, col)) == Empty && !IsLegal(currentBoard, (row, col), player) ==>
              r == MoveResult(currentBoard, player, false, Some(Suicide), [])
    ensures IsLegal(currentBoard, (row, col), player) ==>
              && r.newBoardState == ResultBoard(currentBoard, (row, col), player)
              && r.newCurrentPlayer == Opponent(player)
              && r.error == None
              && Distinct(r.capturedCoords)
              && Elements(r.capturedCoords) == CapturedBy(currentBoard, (row, col), player)
  {
    if row < 0 || row >= BOARD_SIZE || col < 0 || col >= BOARD_SIZE || currentBoard[row][col] != Empty {
      return MoveResult(currentBoard, player, false, Some(OutOfBoundsOrOccupied), []);
    }
    var tempBoard := Put(currentBoard, (row, col), Stone(player));
    var opponentColor := if player == Black then White else Black;
    var neighbors := GetNeighbors(row, col, BOARD_SIZE);
    assert forall k :: 0 <= k < |neighbors| ==> neighbors[k] in neighbors;
    var capturedThisTurn, capturedStonesCount;
    tempBoard, capturedThisTurn, capturedStonesCount := CaptureNeighbours(tempBoard, opponentColor, neighbors);
    CaptureOutcome(currentBoard, (row, col), player, neighbors, tempBoard, capturedThisTurn);

    var ownStones, ownLiberties := FindGroup(row, col, tempBoard, player);
    LegalOutcome(currentBoard, (row, col), player, ownLiberties, capturedThisTurn);
    if |ownLiberties| == 0 {
      if capturedStonesCount == 0 {
        return MoveResult(currentBoard, player, false, Some(Suicide), []);
      } else {
        assert false;
      }
    }
    var nextPlayer := if player == Black then White else Black;
    return MoveResult(tempBoard, nextPlayer, true, None, capturedThisTurn);
  }

  // ---------------------------------------------------------------------
  // Lemmas the algorithm rests on

  /** After the capture loop the board is the result board and the
      captured list holds exactly the captured stones. */
  lemma CaptureOutcome(b: Grid, p: Coord, player: Color, neighbors: seq<Coord>, t: Grid, captured: seq<Coord>)
    requires WellFormed(b) && OnBoard(p)
    requires forall q :: q in neighbors <==> InGrid(q, BOARD_SIZE) && Adjacent(q, p)
    requires ClearedOf(t, Placed(b, p, player), Elements(captured))
    requires Elements(captured) == UnionAll(DeadGroups(Placed(b, p, player), Opponent(player), neighbors))
    ensures t == ResultBoard(b, p, player)
    ensures Elements(captured) == CapturedBy(b, p, player)
  {
    CapturedByNeighbours(b, p, player, neighbors);
    BoardsEqual(t, ResultBoard(b, p, player));
  }

  /** The search of the new stone's group on the result board decides the
      move, and a capture always leaves that group a liberty. */
  lemma LegalOutcome(b: Grid, p: Coord, player: Color, liberties: set<Coord>, captured: seq<Coord>)
    requires WellFormed(b) && OnBoard(p) && At(b, p) == Empty
    requires liberties == LibertiesOf(ResultBoard(b, p, player), Component(ResultBoard(b, p, player), Stone(player), p))
    requires Elements(captured) == CapturedBy(b, p, player)
    ensures IsLegal(b, p, player) <==> |liberties| > 0
    ensures |captured| > 0 ==> |liberties| > 0
  {
    MoveLegalIff(b, p, player);
    if |captured| > 0 {
      assert captured[0] in CapturedBy(b, p, player);
      CaptureOpensLiberty(b, p, player);
    }
  }

  /** The union of a sequence of sets. */
  ghost function UnionAll(ss: seq<set<Coord>>): set<Coord> {
    if ss == [] then {} else UnionAll(ss[..|ss| - 1]) + ss[|ss| - 1]
  }

  lemma UnionAllStep(ss: seq<set<Coord>>, i: int)
    requires 0 <= i < |ss|
    ensures UnionAll(ss[..i + 1]) == UnionAll(ss[..i]) + ss[i]
  {
    assert ss[..i + 1][..i] == ss[..i];
  }

  lemma {:induction false} UnionAllMembers(ss: seq<set<Coord>>, q: Coord)
    ensures q in UnionAll(ss) <==> exists k :: 0 <= k < |ss| && q in ss[k]
  {
    if ss != [] {
      var front := ss[..|ss| - 1];
      UnionAllMembers(front, q);
      if exists k :: 0 <= k < |ss| && q in ss[k] {
        var k :| 0 <= k < |ss| && q in ss[k];
        if k < |front| {
          assert front[k] == ss[k];
        }
      }
    }
  }

  /** The dead groups next to each cell of nbs, gathered in order. */
  ghost function DeadGroups(b: Grid, c: Color, nbs: seq<Coord>): (r: seq<set<Coord>>)
    requires WellFormed(b)
    ensures |r| == |nbs|
    ensures forall k :: 0 <= k < |nbs| ==> r[k] == DeadGroup(b, c, nbs[k])
  {
    seq(|nbs|, k requires 0 <= k < |nbs| => DeadGroup(b, c, nbs[k]))
  }

  /** Gathering over the neighbour list gives the captured set. */
  lemma CapturedByNeighbours(b: Grid, p: Coord, player: Color, nbs: seq<Coord>)
    requires WellFormed(b) && OnBoard(p)
    requires forall q :: q in nbs <==> InGrid(q, BOARD_SIZE) && Adjacent(q, p)
    ensures UnionAll(DeadGroups(Placed(b, p, player), Opponent(player), nbs)) == CapturedBy(b, p, player)
  {
    var placed := Placed(b, p, player);
    var opp := Opponent(player);
    forall q
      ensures q in UnionAll(DeadGroups(placed, opp, nbs)) <==> q in CapturedBy(b, p, player)
    {
      UnionAllMembers(DeadGroups(placed, opp, nbs), q);
      if q in CapturedBy(b, p, player) {
        var nb :| nb in AdjacentCells(p.0, p.1, BOARD_SIZE) && q in DeadGroup(placed, opp, nb);
        AdjacentCellsMembers(p.0, p.1, BOARD_SIZE, nb);
        assert nb in nbs;
        var k :| 0 <= k < |nbs| && nbs[k] == nb;
      }
      if q in UnionAll(DeadGroups(placed, opp, nbs)) {
        var k :| 0 <= k < |nbs| && q in DeadGroup(placed, opp, nbs[k]);
        AdjacentCellsMembers(p.0, p.1, BOARD_SIZE, nbs[k]);
        assert nbs[k] in nbs;
      }
    }
  }

  /** A dead group is a whole group of colour c. */
  lemma DeadGroupWhole(b: Grid, c: Color, nb: Coord)
    requires WellFormed(b)
    ensures WholeGroups(b, c, DeadGroup(b, c, nb))
  {
    forall x | x in DeadGroup(b, c, nb)
      ensures OnBoard(x) && At(b, x) == Stone(c) && Component(b, Stone(c), x) <= DeadGroup(b, c, nb)
    {
      ComponentCells(b, Stone(c), nb, x);
      SameComponent(b, Stone(c), nb, x);
    }
  }

  /** A neighbour that no longer holds an opponent stone adds nothing: either
      it never did, or its whole group was already captured. */
  lemma DeadGroupAlreadyCleared(placed: Grid, t: Grid, c: Color, S: set<Coord>, nb: Coord)
    requires WellFormed(placed) && OnBoard(nb) && ClearedOf(t, placed, S)
    requires WholeGroups(placed, c, S)
    requires At(t, nb) != Stone(c)
    ensures DeadGroup(placed, c, nb) <= S
  {
    EmptyComponent(placed, Stone(c), nb);
  }

  /** A captured stone belongs to the dead group of some neighbour of p,
      and that neighbour is captured too. */
  lemma CapturedWitness(b: Grid, p: Coord, player: Color, q: Coord) returns (nb: Coord)
    requires WellFormed(b) && OnBoard(p) && q in CapturedBy(b, p, player)
    ensures OnBoard(nb) && Adjacent(nb, p)
    ensures q in DeadGroup(Placed(b, p, player), Opponent(player), nb)
    ensures nb in CapturedBy(b, p, player)
  {
    var placed := Placed(b, p, player);
    var opp := Opponent(player);
    nb :| nb in AdjacentCells(p.0, p.1, BOARD_SIZE) && q in DeadGroup(placed, opp, nb);
    AdjacentCellsMembers(p.0, p.1, BOARD_SIZE, nb);
    EmptyComponent(placed, Stone(opp), nb);
    SeedInComponent(placed, Stone(opp), nb);
    assert nb in DeadGroup(placed, opp, nb);
  }

  /** The dead group of any neighbour of p is captured. */
  lemma NeighbourDeadGroupCaptured(b: Grid, p: Coord, player: Color, nb: Coord)
    requires WellFormed(b) && OnBoard(p) && OnBoard(nb) && Adjacent(nb, p)
    ensures DeadGroup(Placed(b, p, player), Opponent(player), nb) <= CapturedBy(b, p, player)
  {
    AdjacentCellsMembers(p.0, p.1, BOARD_SIZE, nb);
  }

  /** Only opponent stones are captured, and never the new stone itself. */
  lemma CapturedAreOpponent(b: Grid, p: Coord, player: Color, q: Coord)
    requires WellFormed(b) && OnBoard(p) && q in CapturedBy(b, p, player)
    ensures OnBoard(q) && q != p && At(b, q) == Stone(Opponent(player))
  {
    var nb := CapturedWitness(b, p, player, q);
    ComponentCells(Placed(b, p, player), Stone(Opponent(player)), nb, q);
  }

  /** Capturing always frees the point of a captured neighbour, so the new
      stone's group keeps a liberty; hence the source's branch for a suicide
      that also captures is never taken. */
  lemma CaptureOpensLiberty(b: Grid, p: Coord, player: Color)
    requires WellFormed(b) && OnBoard(p) && At(b, p) == Empty
    requires CapturedBy(b, p, player) != {}
    ensures OwnLiberties(b, p, player) != {}
  {
    var S := CapturedBy(b, p, player);
    var after := ResultBoard(b, p, player);
    var q :| q in S;
    var nb := CapturedWitness(b, p, player, q);
    assert At(after, nb) == Empty;
    if p in S {
      CapturedAreOpponent(b, p, player, p);
    }
    assert At(after, p) == Stone(player);
    SeedInComponent(after, Stone(player), p);
    LibertyWitness(after, Component(after, Stone(player), p), p, nb);
  }

  // ---------------------------------------------------------------------
  // Properties of a move

  /** The captured stones form whole opponent groups of the board with the
      new stone placed, each of them without a liberty there. */
  lemma CapturedWholeAndDead(b: Grid, p: Coord, player: Color)
    requires WellFormed(b) && OnBoard(p)
    ensures WholeGroups(Placed(b, p, player), Opponent(player), CapturedBy(b, p, player))
    ensures forall q :: q in CapturedBy(b, p, player) ==>
              LibertiesOf(Placed(b, p, player), Component(Placed(b, p, player), Stone(Opponent(player)), q)) == {}
  {
    var placed := Placed(b, p, player);
    var opp := Opponent(player);
    var S := CapturedBy(b, p, player);
    forall x | x in S
      ensures OnBoard(x) && At(placed, x) == Stone(opp) && Component(placed, Stone(opp), x) <= S
      ensures LibertiesOf(placed, Component(placed, Stone(opp), x)) == {}
    {
      var nb := CapturedWitness(b, p, player, x);
      DeadGroupWhole(placed, opp, nb);
      ComponentCells(placed, Stone(opp), nb, x);
      SameComponent(placed, Stone(opp), nb, x);
      AdjacentCellsMembers(p.0, p.1, BOARD_SIZE, nb);
    }
  }

  /** What a move on an empty point does to the board: the new stone appears,
      the captured points (all opponent stones before) become empty, and
      every other point is unchanged. */
  lemma ResultBoardCells(b: Grid, p: Coord, player: Color)
    requires WellFormed(b) && OnBoard(p) && At(b, p) == Empty
    ensures forall q :: OnBoard(q) ==>
              At(ResultBoard(b, p, player), q) ==
                if q == p then Stone(player) else if q in CapturedBy(b, p, player) then Empty else At(b, q)
    ensures forall q :: q in CapturedBy(b, p, player) ==> OnBoard(q) && At(b, q) == Stone(Opponent(player))
  {
    forall q | q in CapturedBy(b, p, player)
      ensures OnBoard(q) && q != p && At(b, q) == Stone(Opponent(player))
    {
      CapturedAreOpponent(b, p, player, q);
    }
  }

  /** A move is legal exactly when, after its captures, the new stone's group
      has a liberty. */
  lemma MoveLegalIff(b: Grid, p: Coord, player: Color)
    requires WellFormed(b)
    ensures IsLegal(b, p, player) <==> OnBoard(p) && At(b, p) == Empty && OwnLiberties(b, p, player) != {}
  {
    if OnBoard(p) && At(b, p) == Empty && CapturedBy(b, p, player) != {} {
      CaptureOpensLiberty(b, p, player);
    }
  }

  /** After a move no opponent group next to the new stone is left without a
      liberty: every such group was captured. */
  lemma NoDeadNeighbourLeft(b: Grid, p: Coord, player: Color, nb: Coord)
    requires WellFormed(b) && OnBoard(p) && OnBoard(nb) && Adjacent(nb, p)
    requires At(ResultBoard(b, p, player), nb) == Stone(Opponent(player))
    ensures var after := ResultBoard(b, p, player);
            LibertiesOf(after, Component(after, Stone(Opponent(player)), nb)) != {}
  {
    var placed := Placed(b, p, player);
    var opp := Opponent(player);
    var S := CapturedBy(b, p, player);
    var after := ResultBoard(b, p, player);
    assert nb !in S;
    CapturedWholeAndDead(b, p, player);
    ClearingOtherComponents(placed, after, Stone(opp), S, nb);
    NeighbourDeadGroupCaptured(b, p, player, nb);
    SeedInComponent(placed, Stone(opp), nb);
    assert LibertiesOf(placed, Component(placed, Stone(opp), nb)) != {};
  }

  /** The full board but one corner, all Black. */
  function BlackBoardButCorner(): (b: Grid)
    ensures WellFormed(b)
    ensures At(b, (0, 0)) == Empty
    ensures forall q :: OnBoard(q) && q != (0, 0) ==> At(b, q) == Stone(Black)
  {
    seq(BOARD_SIZE, r requires 0 <= r < BOARD_SIZE =>
      seq(BOARD_SIZE, c requires 0 <= c < BOARD_SIZE => if r == 0 && c == 0 then Empty else Stone(Black)))
  }

  /** White filling the last empty point of a board otherwise all Black is a
      legal move: the placed stone takes the last liberty of the Black
      group, which is captured, so the move is no suicide. */
  lemma CornerCaptureLegal()
    ensures IsLegal(BlackBoardButCorner(), (0, 0), White)
    ensures (0, 1) in CapturedBy(BlackBoardButCorner(), (0, 0), White)
  {
    var b := BlackBoardButCorner();
    var placed := Placed(b, (0, 0), White);
    var C := Component(placed, Stone(Black), (0, 1));
    forall q | q in LibertiesOf(placed, C)
      ensures false
    {
      InLiberties(placed, C, q);
    }
    assert LibertiesOf(placed, C) == {};
    SeedInComponent(placed, Stone(Black), (0, 1));
    assert (0, 1) in DeadGroup(placed, Black, (0, 1));
    AdjacentCellsMembers(0, 0, BOARD_SIZE, (0, 1));
    assert (0, 1) in AdjacentCells(0, 0, BOARD_SIZE);
    assert Opponent(White) == Black;
    assert (0, 1) in CapturedBy(b, (0, 0), White);
  }
}
