/** The two computer opponents: both try every empty point with
    placeStoneLogic in row-major order and pick one of the moves it accepts
    with Math.random, which the model takes as a number in [0, 1). */
module Ai {
  import opened Board
  import opened Wrappers
  import opened Moves
  import opened Groups

  /** Which of the legal moves a list collects. */
  datatype MoveKind = AnyLegal | Capturing | NonCapturing

  ghost predicate Wanted(b: Grid, p: Coord, player: Color, kind: MoveKind)
    requires WellFormed(b)
  {
    IsLegal(b, p, player) &&
    match kind
    case AnyLegal => true
    case Capturing => CapturedBy(b, p, player) != {}
    case NonCapturing => CapturedBy(b, p, player) == {}
  }

  /** The k-th point in row-major order. */
  function PointAt(k: int): Coord {
    (k / BOARD_SIZE, k % BOARD_SIZE)
  }

  /** The wanted points of the board, as a set. */
  ghost function WantedPoints(b: Grid, player: Color, kind: MoveKind): set<Coord>
    requires WellFormed(b)
  {
    set r, c | 0 <= r < BOARD_SIZE && 0 <= c < BOARD_SIZE && Wanted(b, (r, c), player, kind) :: (r, c)
  }

  lemma InWantedPoints(b: Grid, player: Color, kind: MoveKind, p: Coord)
    requires WellFormed(b)
    ensures p in WantedPoints(b, player, kind) <==> Wanted(b, p, player, kind)
  {
    if Wanted(b, p, player, kind) {
      assert p == (p.0, p.1);
    }
  }

  /** The points of W among the first n points, in row-major order. */
  function MovesBefore(W: set<Coord>, n: nat): seq<Coord> {
    if n == 0 then []
    else MovesBefore(W, n - 1) + (if PointAt(n - 1) in W then [PointAt(n - 1)] else [])
  }

  /** The wanted moves on the whole board, in row-major order. */
  ghost function MovesOf(b: Grid, player: Color, kind: MoveKind): seq<Coord>
    requires WellFormed(b)
  {
    MovesBefore(WantedPoints(b, player, kind), BOARD_SIZE * BOARD_SIZE)
  }

  /** Math.floor(rand * n): a valid index into a list of n moves. */
  function PickIndex(rand: real, n: int): (i: int)
    requires 0.0 <= rand < 1.0 && n > 0
    ensures 0 <= i < n
  {
    PickBound(rand, n);
    (rand * (n as real)).Floor
  }

  lemma PickBound(rand: real, n: int)
    requires 0.0 <= rand < 1.0 && n > 0
    ensures 0.0 <= rand * (n as real) < n as real
  {
    assert rand * (n as real) <= rand * (n as real);
    assert (1.0 - rand) * (n as real) > 0.0;
  }

  lemma PointAtIndex(r: int, c: int)
    requires 0 <= r < BOARD_SIZE && 0 <= c < BOARD_SIZE
    ensures PointAt(r * BOARD_SIZE + c) == (r, c)
  {
  }

  /** One step of the row-major scan over the board. */
  lemma MovesStep(W: set<Coord>, r: int, c: int, k: nat)
    requires 0 <= r < BOARD_SIZE && 0 <= c < BOARD_SIZE && k == r * BOARD_SIZE + c
    ensures MovesBefore(W, k + 1) == MovesBefore(W, k) + (if (r, c) in W then [(r, c)] else [])
  {
    PointAtIndex(r, c);
  }

  /** The position of an on-board point in row-major order. */
  function Index(p: Coord): int {
    p.0 * BOARD_SIZE + p.1
  }

  /** The first BOARD_SIZE * BOARD_SIZE positions are the board's points. */
  lemma PointAtOnBoard(k: int)
    requires 0 <= k < BOARD_SIZE * BOARD_SIZE
    ensures OnBoard(PointAt(k)) && Index(PointAt(k)) == k
  {
  }

  /** A move is listed exactly when it is a wanted move among the first n points. */
  lemma {:induction false} MovesBeforeMembers(W: set<Coord>, n: nat, p: Coord)
    requires n <= BOARD_SIZE * BOARD_SIZE
    ensures p in MovesBefore(W, n) <==> p in W && OnBoard(p) && Index(p) < n
  {
    if n > 0 {
      MovesBeforeMembers(W, n - 1, p);
      PointAtOnBoard(n - 1);
      if OnBoard(p) && Index(p) == n - 1 {
        PointAtIndex(p.0, p.1);
      }
    }
  }

  /** The whole-board list holds exactly the wanted moves. */
  lemma MovesOfMembers(b: Grid, player: Color, kind: MoveKind, p: Coord)
    requires WellFormed(b)
    ensures p in MovesOf(b, player, kind) <==> Wanted(b, p, player, kind)
  {
    MovesBeforeMembers(WantedPoints(b, player, kind), BOARD_SIZE * BOARD_SIZE, p);
    InWantedPoints(b, player, kind, p);
  }

  /** Every point is either a capturing or a non-capturing legal move, or not
      a legal move at all. */
  lemma KindsSplit(b: Grid, player: Color, p: Coord)
    requires WellFormed(b)
    ensures Wanted(b, p, player, AnyLegal) <==> Wanted(b, p, player, Capturing) || Wanted(b, p, player, NonCapturing)
  {
  }

  /** What placeStoneLogic's answer says about the kind of a move on an
      empty point. */
  lemma Classify(b: Grid, p: Coord, player: Color, made: bool, captured: seq<Coord>)
    requires WellFormed(b) && OnBoard(p)
    requires made <==> IsLegal(b, p, player)
    requires made ==> Distinct(captured) && Elements(captured) == CapturedBy(b, p, player)
    ensures Wanted(b, p, player, Capturing) <==> made && |captured| > 0
    ensures Wanted(b, p, player, NonCapturing) <==> made && |captured| == 0
  {
    if made {
      DistinctCard(captured);
    }
  }

  /** aiMakeRandomMove: a uniformly indexed choice among all legal moves,
      or None (the AI passes) when there is none. */
  method AiMakeRandomMove(currentBoard: Grid, playerColor: Color, rand: real) returns (move: Option<Coord>)
    requires WellFormed(currentBoard) && 0.0 <= rand < 1.0
    ensures var moves := MovesOf(currentBoard, playerColor, AnyLegal);
            move == if |moves| > 0 then Some(moves[PickIndex(rand, |moves|)]) else None
    ensures move.Some? ==> IsLegal(currentBoard, move.value, playerColor)
    ensures move.None? <==> forall p :: !IsLegal(currentBoard, p, playerColor)
  {
    var validMoves := CollectLegalMoves(currentBoard, playerColor);
    if |validMoves| > 0 {
      var randomIndex := PickIndex(rand, |validMoves|);
      move := Some(validMoves[randomIndex]);
      MovesOfMembers(currentBoard, playerColor, AnyLegal, move.value);
    } else {
      move := None;
    }
    forall p
      ensures p in validMoves <==> IsLegal(currentBoard, p, playerColor)
    {
      MovesOfMembers(currentBoard, playerColor, AnyLegal, p);
    }
  }

  /** The nested loops of aiMakeRandomMove: every legal move, in row-major order. */
  method CollectLegalMoves(currentBoard: Grid, playerColor: Color) returns (validMoves: seq<Coord>)
    requires WellFormed(currentBoard)
    ensures validMoves == MovesOf(currentBoard, playerColor, AnyLegal)
  {
    validMoves := [];
    ghost var k := 0;
    for r := 0 to BOARD_SIZE
      invariant k == r * BOARD_SIZE
      invariant validMoves == MovesBefore(WantedPoints(currentBoard, playerColor, AnyLegal), k)
    {
      for c := 0 to BOARD_SIZE
        invariant k == r * BOARD_SIZE + c
        invariant validMoves == MovesBefore(WantedPoints(currentBoard, playerColor, AnyLegal), k)
      {
        validMoves := ConsiderLegalPoint(currentBoard, playerColor, r, c, k, validMoves);
        k := k + 1;
      }
    }
  }

  /** The body of the random scan: an empty point that placeStoneLogic
      accepts joins the list. */
  method ConsiderLegalPoint(currentBoard: Grid, playerColor: Color, r: int, c: int, ghost k: nat,
                            validMoves0: seq<Coord>) returns (validMoves: seq<Coord>)
    requires WellFormed(currentBoard) && 0 <= r < BOARD_SIZE && 0 <= c < BOARD_SIZE && k == r * BOARD_SIZE + c
    requires validMoves0 == MovesBefore(WantedPoints(currentBoard, playerColor, AnyLegal), k)
    ensures validMoves == MovesBefore(WantedPoints(currentBoard, playerColor, AnyLegal), k + 1)
  {
    MovesStep(WantedPoints(currentBoard, playerColor, AnyLegal), r, c, k);
    InWantedPoints(currentBoard, playerColor, AnyLegal, (r, c));
    validMoves := validMoves0;
    if currentBoard[r][c] == Empty {
      var potentialMove := PlaceStone(r, c, currentBoard, playerColor);
      if potentialMove.moveMade {
        validMoves := validMoves + [(r, c)];
      }
    }
  }

  /** The nested loops of aiMakeHeuristicMove: the legal moves, split by
      whether they capture, each list in row-major order. */
  method CollectHeuristicMoves(currentBoard: Grid, playerColor: Color)
    returns (captureMoves: seq<Coord>, otherValidMoves: seq<Coord>)
    requires WellFormed(currentBoard)
    ensures captureMoves == MovesOf(currentBoard, playerColor, Capturing)
    ensures otherValidMoves == MovesOf(currentBoard, playerColor, NonCapturing)
  {
    captureMoves, otherValidMoves := [], [];
    ghost var k := 0;
    for r := 0 to BOARD_SIZE
      invariant k == r * BOARD_SIZE
      invariant captureMoves == MovesBefore(WantedPoints(currentBoard, playerColor, Capturing), k)
      invariant otherValidMoves == MovesBefore(WantedPoints(currentBoard, playerColor, NonCapturing), k)
    {
      for c := 0 to BOARD_SIZE
        invariant k == r * BOARD_SIZE + c
        invariant captureMoves == MovesBefore(WantedPoints(currentBoard, playerColor, Capturing), k)
        invariant otherValidMoves == MovesBefore(WantedPoints(currentBoard, playerColor, NonCapturing), k)
      {
        captureMoves, otherValidMoves := ConsiderPoint(currentBoard, playerColor, r, c, k, captureMoves, otherValidMoves);
        k := k + 1;
      }
    }
  }

  /** The body of the heuristic scan: an empty point that placeStoneLogic
      accepts joins the capturing list when the move captures and the other
      list when it does not. */
  method ConsiderPoint(currentBoard: Grid, playerColor: Color, r: int, c: int, ghost k: nat,
                       captureMoves0: seq<Coord>, otherValidMoves0: seq<Coord>)
    returns (captureMoves: seq<Coord>, otherValidMoves: seq<Coord>)
    requires WellFormed(currentBoard) && 0 <= r < BOARD_SIZE && 0 <= c < BOARD_SIZE && k == r * BOARD_SIZE + c
    requires captureMoves0 == MovesBefore(WantedPoints(currentBoard, playerColor, Capturing), k)
    requires otherValidMoves0 == MovesBefore(WantedPoints(currentBoard, playerColor, NonCapturing), k)
    ensures captureMoves == MovesBefore(WantedPoints(currentBoard, playerColor, Capturing), k + 1)
    ensures otherValidMoves == MovesBefore(WantedPoints(currentBoard, playerColor, NonCapturing), k + 1)
  {
    MovesStep(WantedPoints(currentBoard, playerColor, Capturing), r, c, k);
    MovesStep(WantedPoints(currentBoard, playerColor, NonCapturing), r, c, k);
    InWantedPoints(currentBoard, playerColor, Capturing, (r, c));
    InWantedPoints(currentBoard, playerColor, NonCapturing, (r, c));
    captureMoves, otherValidMoves := captureMoves0, otherValidMoves0;
    if currentBoard[r][c] == Empty {
      var potentialMove := PlaceStone(r, c, currentBoard, playerColor);
      Classify(currentBoard, (r, c), playerColor, potentialMove.moveMade, potentialMove.capturedCoords);
      if potentialMove.moveMade {
        if |potentialMove.capturedCoords| > 0 {
          captureMoves := captureMoves + [(r, c)];
        } else {
          otherValidMoves := otherValidMoves + [(r, c)];
        }
      }
    }
  }

  /** aiMakeHeuristicMove: a choice among the capturing moves when there is
      one, otherwise among the other legal moves, otherwise None. */
  method AiMakeHeuristicMove(currentBoard: Grid, playerColor: Color, rand: real) returns (move: Option<Coord>)
    requires WellFormed(currentBoard) && 0.0 <= rand < 1.0
    ensures var captureMoves := MovesOf(currentBoard, playerColor, Capturing);
            var otherValidMoves := MovesOf(currentBoard, playerColor, NonCapturing);
            move == if |captureMoves| > 0 then Some(captureMoves[PickIndex(rand, |captureMoves|)])
                    else if |otherValidMoves| > 0 then Some(otherValidMoves[PickIndex(rand, |otherValidMoves|)])
                    else None
    ensures move.Some? ==> IsLegal(currentBoard, move.value, playerColor)
    ensures move.None? <==> forall p :: !IsLegal(currentBoard, p, playerColor)
    ensures (exists p :: IsLegal(currentBoard, p, playerColor) && CapturedBy(currentBoard, p, playerColor) != {}) ==>
              move.Some? && CapturedBy(currentBoard, move.value, playerColor) != {}
  {
    var captureMoves, otherValidMoves := CollectHeuristicMoves(currentBoard, playerColor);
    forall p
      ensures p in captureMoves <==> Wanted(currentBoard, p, playerColor, Capturing)
      ensures p in otherValidMoves <==> Wanted(currentBoard, p, playerColor, NonCapturing)
    {
      MovesOfMembers(currentBoard, playerColor, Capturing, p);
      MovesOfMembers(currentBoard, playerColor, NonCapturing, p);
    }
    if |captureMoves| > 0 {
      var randomIndex := PickIndex(rand, |captureMoves|);
      move := Some(captureMoves[randomIndex]);
      assert move.value in captureMoves;
    } else if |otherValidMoves| > 0 {
      var randomIndex := PickIndex(rand, |otherValidMoves|);
      move := Some(otherValidMoves[randomIndex]);
      assert move.value in otherValidMoves;
      forall p | IsLegal(currentBoard, p, playerColor)
        ensures CapturedBy(currentBoard, p, playerColor) == {}
      {
        assert p !in captureMoves;
      }
    } else {
      move := None;
      forall p
        ensures !IsLegal(currentBoard, p, playerColor)
      {
        KindsSplit(currentBoard, playerColor, p);
        assert p !in captureMoves && p !in otherValidMoves;
      }
    }
  }
}
