/** The engine's module-level game state: the board, whose turn it is, the
    gameEnded flag and the two capture tallies, with initializeGame,
    endGame, getGameEndedState, the state update of a move and the final
    score. */
module Session {
  import opened Board
  import opened Moves
  import opened Groups
  import opened Territory
  import opened Scoring

  class GameSession {
    var boardState: Grid
    var currentPlayer: Color
    var gameEnded: bool
    /** Stones Black has captured. */
    var stonesCapturedByBlack: int
    /** Stones White has captured. */
    var stonesCapturedByWhite: int

    ghost predicate Valid()
      reads this
    {
      WellFormed(boardState) && stonesCapturedByBlack >= 0 && stonesCapturedByWhite >= 0
    }

    /** The state of a freshly initialized game. */
    ghost predicate Initial()
      reads this
    {
      boardState == InitialBoard() && currentPlayer == InitialPlayer() && !gameEnded &&
      stonesCapturedByBlack == 0 && stonesCapturedByWhite == 0
    }

    /** A session as the page starts it: initializeGame runs before any move. */
    constructor ()
      ensures Valid() && Initial()
    {
      boardState := InitialBoard();
      currentPlayer := InitialPlayer();
      gameEnded := false;
      stonesCapturedByBlack := 0;
      stonesCapturedByWhite := 0;
    }

    /** initializeGame (its state part): clears the flag and the tallies and
        starts over on an empty board with Black to play. */
    method InitializeGame()
      modifies this
      ensures Valid() && Initial()
    {
      gameEnded := false;
      stonesCapturedByBlack := 0;
      stonesCapturedByWhite := 0;
      boardState := InitialBoard();
      currentPlayer := InitialPlayer();
    }

    method GetGameEndedState() returns (ended: bool)
      ensures ended == gameEnded
    {
      return gameEnded;
    }

    /** endGame: sets the flag; reports whether this call changed it. */
    method EndGame() returns (changed: bool)
      modifies this
      ensures gameEnded
      ensures changed == !old(gameEnded)
      ensures boardState == old(boardState) && currentPlayer == old(currentPlayer)
      ensures stonesCapturedByBlack == old(stonesCapturedByBlack) && stonesCapturedByWhite == old(stonesCapturedByWhite)
    {
      if gameEnded {
        return false;
      }
      gameEnded := true;
      return true;
    }

    /** The final score of displayEndOfGameResults, with the territory of the
        current board and each capture tally credited to the side that made
        the captures. */
    method FinalScores() returns (scores: Scores)
      requires Valid()
      ensures scores == EndScores(|TerritoryOf(boardState, Black)|, |TerritoryOf(boardState, White)|,
                                  stonesCapturedByBlack, stonesCapturedByWhite)
      ensures scores.blackScore >= |TerritoryOf(boardState, Black)| as real
      ensures scores.whiteScore > |TerritoryOf(boardState, White)| as real
    {
      var blackTerritory, whiteTerritory, _ := GetTerritoryInfo(boardState);
      scores := EndScores(blackTerritory, whiteTerritory, stonesCapturedByBlack, stonesCapturedByWhite);
    }

    /** A move at (row, col) by the player to move, as a click applies it:
        ignored once the game has ended; otherwise the board, the turn and
        the mover's capture tally follow placeStoneLogic when the move is
        made, and nothing changes when it is refused. */
    method PlayMove(row: int, col: int) returns (made: bool)
      requires Valid()
      modifies this
      ensures Valid() && gameEnded == old(gameEnded)
      ensures old(gameEnded) ==> !made
      ensures made <==> !old(gameEnded) && IsLegal(old(boardState), (row, col), old(currentPlayer))
      ensures !made ==>
                boardState == old(boardState) && currentPlayer == old(currentPlayer) &&
                stonesCapturedByBlack == old(stonesCapturedByBlack) && stonesCapturedByWhite == old(stonesCapturedByWhite)
      ensures made ==>
                && boardState == ResultBoard(old(boardState), (row, col), old(currentPlayer))
                && currentPlayer == Opponent(old(currentPlayer))
                && var n := |CapturedBy(old(boardState), (row, col), old(currentPlayer))|;
                   if old(currentPlayer) == Black
                   then stonesCapturedByBlack == old(stonesCapturedByBlack) + n && stonesCapturedByWhite == old(stonesCapturedByWhite)
                   else stonesCapturedByWhite == old(stonesCapturedByWhite) + n && stonesCapturedByBlack == old(stonesCapturedByBlack)
    {
      if gameEnded {
        return false;
      }
      var playerMakingMove := currentPlayer;
      var result := PlaceStone(row, col, boardState, playerMakingMove);
      DistinctCard(result.capturedCoords);
      ApplyResult(result, playerMakingMove);
      return result.moveMade;
    }

    /** What a click does with the result of placeStoneLogic: when the move
        is made, the new board and turn are adopted and the captured stones
        are credited to the mover; otherwise nothing changes. */
    method ApplyResult(result: MoveResult, mover: Color)
      requires Valid() && WellFormed(result.newBoardState)
      modifies this
      ensures Valid() && gameEnded == old(gameEnded)
      ensures !result.moveMade ==>
                boardState == old(boardState) && currentPlayer == old(currentPlayer) &&
                stonesCapturedByBlack == old(stonesCapturedByBlack) && stonesCapturedByWhite == old(stonesCapturedByWhite)
      ensures result.moveMade ==>
                && boardState == result.newBoardState
                && currentPlayer == result.newCurrentPlayer
                && var n := |result.capturedCoords|;
                   if mover == Black
                   then stonesCapturedByBlack == old(stonesCapturedByBlack) + n && stonesCapturedByWhite == old(stonesCapturedByWhite)
                   else stonesCapturedByWhite == old(stonesCapturedByWhite) + n && stonesCapturedByBlack == old(stonesCapturedByBlack)
    {
      if result.moveMade {
        boardState := result.newBoardState;
        if |result.capturedCoords| > 0 {
          var numCaptured := |result.capturedCoords|;
          if mover == Black {
            stonesCapturedByBlack := stonesCapturedByBlack + numCaptured;
          } else {
            stonesCapturedByWhite := stonesCapturedByWhite + numCaptured;
          }
        }
        currentPlayer := result.newCurrentPlayer;
      }
    }
  }

  /** A new game starts empty, with Black to move; the first endGame
      reports a change and sets the flag, a second one reports none and
      leaves it set, and a move after the end is ignored. */
  method EndGameTwice() returns (before: bool, first: bool, second: bool, after: bool, moved: bool)
    ensures !before && first && !second && after && !moved
  {
    var s := new GameSession();
    s.InitializeGame();
    before := s.GetGameEndedState();
    first := s.EndGame();
    second := s.EndGame();
    after := s.GetGameEndedState();
    moved := s.PlayMove(3, 3);
  }

  /** Restarting after an ended game clears the flag and the tallies. */
  method RestartAfterEnd() returns (ended: bool, black: int, white: int, toMove: Color)
    ensures !ended && black == 0 && white == 0 && toMove == Black
  {
    var s := new GameSession();
    var _ := s.EndGame();
    s.InitializeGame();
    ended := s.GetGameEndedState();
    black, white, toMove := s.stonesCapturedByBlack, s.stonesCapturedByWhite, s.currentPlayer;
  }
}
