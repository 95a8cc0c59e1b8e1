# Go rules engine and OCR question segmenter

This project models two pieces of a small web application in Dafny.

The first is the Go rules engine of the page script (`script.js`). It works on a
19×19 board whose cells are empty, black or white. It covers these operations:

- the in-bounds neighbours of a point (`getNeighbors`);
- the breadth-first search of a group of stones and its liberties (`findGroup`);
- move resolution with capture and the suicide rule (`placeStoneLogic`);
- the flood fill that counts territory (`getTerritoryInfo`);
- the score arithmetic with komi (`calculateScores`);
- the two computer opponents (`aiMakeRandomMove`, `aiMakeHeuristicMove`);
- the initial board and player;
- the session state: the `gameEnded` flag, the two capture tallies and the
  board update of a move (`initializeGame`, `endGame`, `getGameEndedState` and
  the state part of the click handler).

The second is `parse_ocr_text` (`app/ocr_parser.py`). It cuts the lines of an
OCR'd page into numbered question/answer items.

Each search is written as a method with loops over a `visited` array. It is
proved against a declarative specification:

- A group, or an empty territory region, is the `Connectivity.Component` of
  its seed: the cells reachable from it through orthogonally adjacent cells of
  the same content.
- Liberties are `Connectivity.LibertiesOf`.
- The outcome of a move is the board `Moves.ResultBoard`, and the captured
  stones are `Moves.CapturedBy`: the opponent groups next to the move that have
  no liberty once the stone is placed.
- The territory counts are the sizes of `Territory.TerritoryOf` and
  `Territory.Neutral`.
- The OCR parser equals the function `OcrParser.ParseSpec`. That function is
  defined by blocks: a question line with the answer lines that follow it.

Properties of these specifications are then proved as lemmas.

Modules:

| file | module | models |
|---|---|---|
| wrappers.dfy | Wrappers | `Option` |
| board.dfy | Board | cells, board, adjacency, `getNeighbors`, initial state |
| connectivity.dfy | Connectivity | connected components and liberties |
| groups.dfy | Groups | `findGroup` |
| moves.dfy | Moves | `placeStoneLogic` |
| ai.dfy | Ai | `aiMakeRandomMove`, `aiMakeHeuristicMove` |
| territory.dfy | Territory | `getTerritoryInfo` |
| scoring.dfy | Scoring | `calculateScores` |
| session.dfy | Session | the module-level game state |
| ocr_parser.dfy | OcrParser | `parse_ocr_text` |

## Model

| member | source | states |
|---|---|---|
| Board.GetNeighbors | script.js:29-41 | The result holds exactly the in-bounds cells orthogonally adjacent to the point, with no repeats, in the order up, down, left, right. An on-board point has 4 minus the number of board sides it touches: 2 at a corner, 3 on an edge, 4 inside. |
| Board.InitialBoard | script.js:482-484 | The initial board is 19×19, and every point on it is empty. |
| Board.InitialPlayer | script.js:485-487 | The first player is the human player's colour, Black, and the computer plays the other colour, White. |
| Board.Opponent | script.js:96 | The opponent of a colour is the other colour. |
| Board.Put | script.js:93-94 | Placing a stone on a copy sets that one point and leaves every other point as it was. |
| Connectivity.SeedInComponent | script.js:50-55 | A seed belongs to its own group exactly when it is on the board and holds the colour searched for. |
| Connectivity.EmptyComponent | script.js:50-52 | The group of a seed is empty exactly when the seed is off the board or does not hold that colour. |
| Connectivity.ComponentClosed | script.js:58-76 | A group contains every same-coloured neighbour of each of its stones. |
| Connectivity.ClosedContainsComponent | script.js:58-76 | A group is the smallest closed set that contains its seed. |
| Connectivity.SameComponent | script.js:58-76 | Starting the search from any stone of a group finds the same group. |
| Connectivity.ClearingOtherComponents | script.js:104-115 | Removing whole groups of one colour leaves the group and the liberties of any other stone of that colour unchanged. So removing earlier captures in the same turn does not change what a later search finds. |
| Groups.FindGroup | script.js:44-78 | Three cases are covered. If the seed is off the board or not of the colour, both results are empty. Otherwise the stones are exactly the seed's connected group, each listed once, with the seed first. The liberties are exactly the empty points next to some stone of the group. |
| Groups.ScanNeighbors | script.js:62-75 | Scanning one stone's neighbours adds its empty neighbours to the liberties. It appends every unvisited same-coloured neighbour, keeps the visited grid equal to the set of listed stones, and keeps the list free of repeats. |
| Groups.BfsEnd | script.js:58-77 | When the queue is exhausted, the listed stones are the whole group and the liberty set is the group's liberties. |
| Moves.ErrorMessage | script.js:82-131 | Both refusal messages start with "Invalid move: ". The bounds/occupied one goes on "Spot is out of bounds", and the suicide one goes on "self-capture". |
| Moves.Placed | script.js:93-94 | The tentative board holds the player's stone at the played point and is otherwise the input board. |
| Moves.ClearAll | script.js:111-115 | Clearing a set of stones empties exactly those points and leaves the rest of the board alone. |
| Moves.ClearStones | script.js:107-117 | Clearing a dead group's stones that are still on the temporary board appends each such stone once. It keeps the captured list free of repeats, keeps the count equal to its length, and grows the captured set by the group. |
| Moves.RemoveIfDead | script.js:103-118 | For one neighbouring opponent stone, the captured set grows by exactly that stone's group if the group has no liberty, and by nothing otherwise. The temporary board stays the placed board with the captured set cleared. |
| Moves.CaptureNeighbours | script.js:101-120 | After all neighbours are examined, the captured stones are exactly the union of the dead opponent groups next to the move, each listed once, and cleared from the board. |
| Moves.PlaceStone | script.js:82-153 | A move is made exactly when it is legal. An off-board or occupied target returns the input board, the same player, no move and the bounds/occupied error with no captures. A suicide that captures nothing returns the input board, the same player and the self-capture error. A legal move returns the placed board minus exactly the captured stones, hands the turn to the opponent, and lists each captured stone once. |
| Moves.CaptureOutcome | script.js:93-120 | The board built by placing and clearing each dead neighbour group in turn is `ResultBoard`, and the stones it collected are `CapturedBy`. |
| Moves.LegalOutcome | script.js:121-131 | With the stone placed and captures removed, the move is legal exactly when the placed stone's group has a liberty. A move that captured something always has one. |
| Moves.MoveLegalIff | script.js:83-131 | A move is legal exactly when the target is on the board and empty and the placed stone's group keeps a liberty after captures. |
| Moves.CapturedAreOpponent | script.js:104-115 | Every captured point is an opponent stone on the input board, and never the point just played. |
| Moves.CapturedWholeAndDead | script.js:101-120 | Captures take whole groups. Every opponent group touched by the capture set lies wholly in it, and each such group had no liberty on the placed board. |
| Moves.NeighbourDeadGroupCaptured | script.js:101-118 | Every opponent group next to the move that has no liberty on the placed board is captured. |
| Moves.CaptureOpensLiberty | script.js:132-143 | If a move captures anything, the placed stone keeps a liberty: a captured neighbour becomes empty. So the branch that removes the player's own group after a capture can never run. |
| Moves.NoDeadNeighbourLeft | script.js:101-153 | After a legal move, no opponent group next to the played point is left on the board without a liberty. |
| Moves.ResultBoardCells | script.js:93-153 | On the resulting board the played point holds the player's stone. Every captured point is empty, and every other point is unchanged. |
| Moves.CornerCaptureLegal | script.js:82-153 | On a board that is all Black except the empty corner (0, 0), White at the corner is a legal move. It captures the Black group, (0, 1) included, so it is not suicide. The test at __tests__/script.test.js:701-748 expects this move to be refused; the code makes it. |
| Ai.AiMakeRandomMove | script.js:584-609 | The candidates are exactly the legal moves in row-major order, and the move returned is the one at index floor(rand × count). It is always legal. The result is none exactly when no point is a legal move. |
| Ai.ConsiderLegalPoint | script.js:593-599 | Examining one point extends the list of legal moves before it, in row-major order, by that point exactly when the move there is legal. |
| Ai.CollectLegalMoves | script.js:591-601 | The row-major scan collects exactly the legal moves, in row-major order. |
| Ai.AiMakeHeuristicMove | script.js:612-648 | The scan splits the legal moves into those that capture and those that do not. If any capturing move exists the choice is a capturing move, otherwise a non-capturing one, and always a legal one. The result is none exactly when no point is a legal move. |
| Ai.CollectHeuristicMoves | script.js:620-633 | The row-major scan collects exactly the capturing legal moves in one list and the non-capturing legal moves in the other. |
| Ai.ConsiderPoint | script.js:623-632 | Examining one point extends the capturing list by it when the move there is legal and captures, and the other list when it is legal and captures nothing. Both lists stay in row-major order. |
| Ai.MovesOfMembers | script.js:591-601 | A point is in a move list exactly when it is a move of that kind: legal, legal and capturing, or legal and not capturing. |
| Ai.KindsSplit | script.js:624-629 | A legal move is either capturing or non-capturing, so the two heuristic lists together hold exactly the legal moves. |
| Ai.Classify | script.js:623-629 | A point goes to the capture list exactly when the move is made with a non-empty capture list, and to the other list exactly when it is made with an empty one. |
| Ai.PickIndex | script.js:602-604 | floor(rand × n) is a valid index for every rand in [0, 1) and every n > 0. |
| Territory.ExploreRegion | script.js:656-680 | The flood fill from an unvisited empty point lists exactly the point's empty region, each point once. The bordering colours are exactly the colours of the stones next to the region. |
| Territory.ScanRegionNeighbors | script.js:666-678 | Scanning one point's neighbours queues every unvisited empty neighbour and adds exactly the colours of its neighbouring stones. |
| Territory.GetTerritoryInfo | script.js:650-697 | The three counts are the number of empty points in regions bordered only by Black, the number bordered only by White, and the number of all other empty points. |
| Territory.CountRegion | script.js:656-692 | Crediting one region adds its size to Black, to White or to neutral, by its bordering colours, and marks the whole region visited. |
| Territory.TerritoryPartition | script.js:681-692 | Black territory, White territory and neutral points are pairwise disjoint and together make up all the empty points. So the three counts add up to the number of empty points. |
| Territory.RegionCreditedAlike | script.js:681-692 | All points of one empty region are credited to the same owner, or are all neutral. |
| Territory.BothColorsNeutral | script.js:689-691 | A region bordered by both colours is neutral. |
| Territory.SurroundedPointOwned | script.js:681-686 | An empty point whose neighbours are all stones of one colour is a one-point region owned by that colour. |
| Territory.NoStonesAllNeutral | script.js:689-691 | On a board without stones every point is neutral and neither colour has territory. |
| Territory.EmptyBoardCount | script.js:650-697 | On the initial board the counts are 0 for Black, 0 for White and 361 neutral. |
| Territory.FullBoardCount | script.js:650-697 | On a board without empty points all three counts are 0. |
| Scoring.CalculateScores | script.js:699-713 | White's lead over Black is White's territory minus Black's, plus the third argument minus the fourth, plus komi. Black's score is its territory plus the fourth argument. |
| Scoring.CalculateScoresDefault | script.js:699 | With the default komi of 6.5, White's score is its territory plus the third argument plus 6.5, and the two scores are never equal. |
| Scoring.EndScoresAsWritten | script.js:546-558 | The end-of-game call as written: Black's score is its territory plus the number of stones White captured. White's lead grows with the stones Black captured. |
| Scoring.CapturesCreditedToOpponent | script.js:546-558 | As written, with no territory and one stone captured by Black, Black scores 0 and White 7.5. |
| Scoring.EndScores | script.js:699-706 | Each side scores its territory plus the stones it captured. White also gets the default komi. |
| Scoring.CaptureCountsForCapturer | script.js:699-706 | Each stone a side captures adds one point to its own score and nothing to the other side's. |
| Scoring.KomiOnlyForWhite | script.js:699-713 | Komi changes only White's score, by exactly its own amount. |
| Scoring.TerritoryPointWorthOne | script.js:703-706 | One more point of a player's territory raises that player's score by one and leaves the other's alone. |
| Scoring.ScoreExamples | script.js:699-713 | (10, 5, 2, 3, 6.5) scores 13 and 13.5, and all-zero inputs with no komi score 0 and 0. Black's score takes the fourth argument and White's the third, as written. |
| Session.GameSession.constructor | script.js:446-461 | A new session is in the initial state: an empty board, Black to play, the game not ended, both tallies 0. |
| Session.GameSession.InitializeGame | script.js:446-461 | Whatever the state before, afterwards the game is not ended, both tallies are 0, the board is empty and Black is to play. |
| Session.GameSession.GetGameEndedState | script.js:510-512 | Returns the flag. |
| Session.GameSession.EndGame | script.js:515-524 | Afterwards the game is ended. The call reports a change exactly when the game was not already ended, and the board, the player and the tallies are unchanged. |
| Session.GameSession.FinalScores | script.js:546-558 | The final score is `EndScores` of the current board's Black and White territory and of the two capture tallies, each tally credited to the side that made the captures. |
| Session.GameSession.PlayMove | script.js:172-220 | An ended game accepts no move and changes nothing. Otherwise a move is made exactly when it is legal for the player to move. A rejected move changes nothing. A made move adopts the resulting board, passes the turn, and adds the number of captured stones to the mover's tally only. |
| Session.GameSession.ApplyResult | script.js:194-220 | Adopting a move result: nothing changes when no move was made. Otherwise the board and the player are taken from the result and the mover's tally grows by the length of the capture list. |
| Session.EndGameTwice | script.js:515-524 | From a fresh game the first endGame reports a change, the second does not, the flag stays set, and no move is accepted after it. |
| Session.RestartAfterEnd | script.js:446-461 | initializeGame after endGame clears the flag and the tallies and gives Black the move. |
| OcrParser.ParseOcrText | app/ocr_parser.py:3-85 | The loop's result equals `ParseSpec` of the raw lines. Its properties are the lemmas below. |
| OcrParser.ReadLine | app/ocr_parser.py:33-65 | One line keeps the parser state equal to the block decomposition of the lines read so far. A question line first emits the pending question if it has answer lines and then becomes pending. Any other line joins the pending answer, or is ignored before the first question. The next id stays one past the item count. |
| OcrParser.Finish | app/ocr_parser.py:67-83 | After the last line, emitting the pending question (with its answer, or "" without one) and then the unknown fallback gives exactly `ParseLines`. |
| OcrParser.BlankTextNoItems | app/ocr_parser.py:9-16 | Input whose every line is blank gives no items. |
| OcrParser.Clean | app/ocr_parser.py:13 | Cleaning never gives more lines than it was given. |
| OcrParser.CleanMembers | app/ocr_parser.py:13 | A string is among the cleaned lines exactly when it is non-empty and is the stripped form of some raw line. |
| OcrParser.CleanStripped | app/ocr_parser.py:13 | Cleaning keeps at most every line, and every kept line is non-empty with no leading or trailing whitespace. |
| OcrParser.StripResult | app/ocr_parser.py:13 | strip() gives the empty string or a string that neither starts nor ends with whitespace. |
| OcrParser.StripStripped | app/ocr_parser.py:41 | Stripping an already stripped string changes nothing. |
| OcrParser.FromFirstQuestionFacts | app/ocr_parser.py:57-65 | Parsing starts at the first question line. The lines kept are a suffix, the lines dropped contain no question line, nothing is kept exactly when there is no question line, and every question line is kept. |
| OcrParser.BlocksPartition | app/ocr_parser.py:33-59 | The blocks, read back in order, are exactly the lines from the first question on. Each block is one question line followed by non-question lines, and there are as many blocks as question lines. |
| OcrParser.IdsConsecutive | app/ocr_parser.py:21-79 | Item ids are 1, 2, 3, … in order. |
| OcrParser.UnknownFallback | app/ocr_parser.py:81-83 | The result contains an unknown item exactly when there is text but no question line. Then it is the single item with id 1 holding all cleaned lines joined by newlines. |
| OcrParser.ItemCount | app/ocr_parser.py:37-79 | With at least one question line there is at least one item, and no more items than question lines. |
| OcrParser.ItemsAreBlocks | app/ocr_parser.py:37-79 | Every question/answer item has a question that is a whole cleaned line matching the question pattern. Every item but the last has a non-empty answer, because a question with no answer lines is dropped unless it is the last. |
| OcrParser.NumberedAt | app/ocr_parser.py:38-42 | The k-th item is numbered k + 1 and carries its block's question and its answer lines joined with newlines and stripped. |
| OcrParser.AnswerTextOfCleanLines | app/ocr_parser.py:38-42 | For cleaned answer lines the answer text is just their newline join. It is empty exactly when there are no answer lines. |
| OcrParser.AnsweredFacts | app/ocr_parser.py:37 | Only blocks with at least one answer line are emitted before the last question, and every such block is emitted. |
| OcrParser.QuestionLineForms | app/ocr_parser.py:26-29 | A question line starts with a number, a marker (Q or q, 〇, □) or a keyword (题目, 问题), and has at least one more character that is not a line feed. A number of any length (its whole run of leading digits) followed by '．', '.', '、' or whitespace, a marker, or a keyword, each followed by a character other than a line feed, always makes a question line. |
| OcrParser.RestMatchesMeaning | app/ocr_parser.py:27 | The tail `\s*(.+)` matches from a position exactly when, past some line feeds, there is a character other than a line feed. |
| OcrParser.BareNumberNotQuestion | app/ocr_parser.py:26-29 | A line of digits alone does not match the question pattern, because the separator after the number is missing. |
| OcrParser.LetterQOpensQuestion | app/ocr_parser.py:26-29 | Because matching ignores case and the colon and number after Q are optional, any line of two or more characters that starts with q or Q matches the question pattern. |
| OcrParser.MarkerAloneNotQuestion | app/ocr_parser.py:26-29 | A marker with nothing after it ("Q", "题目", "1.") does not match: the pattern needs at least one more character. |
| OcrParser.RestMatchesEarlier | app/ocr_parser.py:27 | If the pattern's tail matches from a position, it matches from any earlier position too. So the optional colon, digits and spaces after a marker never decide a match. |

## Left out

- The DOM, drawing, messages, `console` logging and the button wiring are presentation. They are not modelled. Of `displayEndOfGameResults`, only the score computation is modelled. `Scoring.EndScoresAsWritten` is that computation as the source writes it. `Session.GameSession.FinalScores` computes the corrected score, `Scoring.EndScores` (see Findings). The winner message is left out.
- `triggerAIMove` and its `setTimeout` pacing are timer-driven glue and are left out. Only the two move-choosing functions are modelled.
- The game-mode checks of the click handler are left out, as is its parsing of the row and column from the DOM. These are the "AI's turn, ignore the click" test and the DOM guard. `Session.GameSession.PlayMove` takes the row and column as parameters.
- `Math.random()` is the parameter `rand`, with 0 ≤ rand < 1.
- Ai.AiMakeRandomMove: the model does not capture the randomness itself. It states which move a given `rand` picks.
- Ai.AiMakeHeuristicMove: likewise, the model does not capture the randomness itself. It states which move a given `rand` picks.
- The `!currentBoard` null checks of the two opponents are left out. The model's boards always exist, and `WellFormed` is required of every board.
- Boards are immutable values (`seq<seq<Cell>>`), so the copy the source makes before placing a stone needs no modelling. Leaving the input board untouched holds by construction. Aliasing between boards is not modelled.
- Groups.FindGroup: the separate `queue` array of the source is the `stones` list itself read from a moving head. The two hold the same points in the same order. The liberty set is a set of coordinates rather than "r,c" strings.
- The explicit bounds check inside `findGroup`'s loop (script.js:64-66) never fires, because `getNeighbors` returns in-bounds points only. It is kept as a skipped case.
- Moves.PlaceStone: the unreachable self-removal branch (script.js:132-143) is an `assert false` proved by `Moves.CaptureOpensLiberty`. It is not modelled as code that runs.
- Error messages are a datatype `MoveError` with the two source strings, not free text.
- Several loop bodies are written as helper methods so that each proof stays small: `Groups.ScanNeighbors`, `Moves.RemoveIfDead`, `Moves.CaptureNeighbours`, `Ai.ConsiderPoint`, `Ai.ConsiderLegalPoint`, `Territory.ScanRegionNeighbors`, `Territory.VisitRegionNeighbor`, `Territory.CountRegion`, `OcrParser.ReadLine` and `Session.GameSession.ApplyResult`. Each does exactly what the loop body does.
- The tally update after an AI move (script.js:270-285) is the same update as `Session.GameSession.ApplyResult`. It is not modelled separately, because it sits inside the timer callback.
- Scoring.CalculateScores follows the code: Black gets its territory plus the fourth argument, White gets its territory plus the third argument plus komi. Komi is an exact `real`.
- `displayEndOfGameResults` (script.js:552-558) passes `stonesCapturedByBlack`, the stones Black captured, as the third argument, which goes to White. It passes `stonesCapturedByWhite` as the fourth, which goes to Black. So each side's captures are credited to the other side. `Scoring.EndScoresAsWritten` models this call. `Session.GameSession.FinalScores` uses the corrected `Scoring.EndScores`; see Findings.
- The OCR text arrives as a sequence of raw lines. `str.splitlines()` is not modelled, and the `raw_text.isspace()` guard is modelled as "every raw line is blank".
- `\d` in the question pattern is modelled as ASCII and fullwidth digits only. `\s` is modelled with the same whitespace set as `str.strip()`. Other Unicode digits and the differences between the two whitespace sets are not modelled.
- The lookahead at app/ocr_parser.py:51-55 does nothing (`pass`) and has no counterpart.
- `current_question` is tested for truthiness in the source. The model uses an `Option`; after cleaning no question line is empty, so the two tests agree.
- An unknown item has the fields `id` and `text`. The source's constant `'type': 'unknown'` field is the datatype constructor `Unknown`.
- `app/routes.py`, `app/models.py` and `app/__init__.py` (web routes, the database models, the application factory) are not part of this model.

## Findings

| source | as written | input that shows it | evidently intended | confidence | as-written member | corrected member |
|---|---|---|---|---|---|---|
| script.js:552-558 | `calculateScores` receives `stonesCapturedByBlack` (the stones Black captured) as its third argument, which it adds to White's score, and `stonesCapturedByWhite` as its fourth, which it adds to Black's. | No territory, Black has captured 1 stone, White none: Black scores 0 and White 7.5. | Each side scores its own captures: Black 1, White 6.5. | not executed; high: the call site's comments (script.js:549-550, 555-556) take `stonesCapturedByBlack` to be the Black stones White captured, but the increments at script.js:205-212 and 276-277 add to it the stones Black captured; the comments of `calculateScores` (script.js:700-704) and the test at __tests__/script.test.js:61-63 read the fourth argument as the stones Black captured | Scoring.CapturesCreditedToOpponent | Scoring.EndScores |
