/** findGroup: the breadth-first search that collects a group of stones and
    its liberties. */
module Groups {
  import opened Board
  import opened Connectivity

  /** The empty cells next to p. */
  ghost function EmptyNeighbours(board: Grid, p: Coord): set<Coord>
    requires WellFormed(board)
  {
    set q | q in AdjacentCells(p.0, p.1, BOARD_SIZE) && At(board, q) == Empty
  }

  /** Adding one stone to a set adds exactly that stone's empty neighbours to
      the set's liberties. */
  lemma LibertiesAdd(board: Grid, S: set<Coord>, p: Coord)
    requires WellFormed(board)
    ensures LibertiesOf(board, S + {p}) == LibertiesOf(board, S) + EmptyNeighbours(board, p)
  {
    forall q
      ensures q in LibertiesOf(board, S + {p}) <==> q in LibertiesOf(board, S) + EmptyNeighbours(board, p)
    {
      InLiberties(board, S, q);
      InLiberties(board, S + {p}, q);
      AdjacentCellsMembers(p.0, p.1, BOARD_SIZE, q);
      assert Adjacent(p, q) <==> Adjacent(q, (p.0, p.1));
    }
  }

  /** One step of the search (the neighbour loop of findGroup): every empty
      neighbour of cur becomes a liberty, and every unvisited neighbour of
      the group's colour is marked visited and queued. */
  method ScanNeighbors(board: Grid, playerColor: Color, cur: Coord, visited: array2<bool>,
                       stones: seq<Coord>, liberties: set<Coord>)
    returns (stones': seq<Coord>, liberties': set<Coord>)
    requires WellFormed(board) && OnBoard(cur)
    requires visited.Length0 == BOARD_SIZE && visited.Length1 == BOARD_SIZE
    requires forall r, c :: 0 <= r < BOARD_SIZE && 0 <= c < BOARD_SIZE ==> (visited[r, c] <==> (r, c) in stones)
    requires Distinct(stones)
    modifies visited
    ensures forall r, c :: 0 <= r < BOARD_SIZE && 0 <= c < BOARD_SIZE ==> (visited[r, c] <==> (r, c) in stones')
    ensures Distinct(stones') && |stones| <= |stones'| && stones'[..|stones|] == stones
    ensures forall k :: |stones| <= k < |stones'| ==>
              OnBoard(stones'[k]) && Adjacent(cur, stones'[k]) && At(board, stones'[k]) == Stone(playerColor)
    ensures forall q :: OnBoard(q) && Adjacent(cur, q) && At(board, q) == Stone(playerColor) ==> q in stones'
    ensures liberties' == liberties + EmptyNeighbours(board, cur)
  {
    var neighbors := GetNeighbors(cur.0, cur.1, BOARD_SIZE);
    stones', liberties' := stones, liberties;
    for i := 0 to |neighbors|
      invariant forall r, c :: 0 <= r < BOARD_SIZE && 0 <= c < BOARD_SIZE ==> (visited[r, c] <==> (r, c) in stones')
      invariant Distinct(stones') && |stones| <= |stones'| && stones'[..|stones|] == stones
      invariant forall k :: |stones| <= k < |stones'| ==>
                  OnBoard(stones'[k]) && Adjacent(cur, stones'[k]) && At(board, stones'[k]) == Stone(playerColor)
      invariant forall j :: 0 <= j < i && At(board, neighbors[j]) == Stone(playerColor) ==> neighbors[j] in stones'
      invariant forall q :: q in liberties' <==>
                  q in liberties || (q in neighbors[..i] && At(board, q) == Empty)
    {
      var (nr, nc) := neighbors[i];
      assert neighbors[i] in neighbors && neighbors[i] == (nr, nc);
      assert neighbors[..i + 1] == neighbors[..i] + [(nr, nc)];
      // The source re-checks the bounds although the neighbours are in bounds.
      if nr < 0 || nr >= BOARD_SIZE || nc < 0 || nc >= BOARD_SIZE {
        continue;
      }
      if board[nr][nc] == Empty {
        liberties' := liberties' + {(nr, nc)};
      } else if board[nr][nc] == Stone(playerColor) && !visited[nr, nc] {
        visited[nr, nc] := true;
        stones' := stones' + [(nr, nc)];
      }
    }
    assert neighbors[..|neighbors|] == neighbors;
    forall q
      ensures q in liberties' <==> q in liberties + EmptyNeighbours(board, cur)
    {
      AdjacentCellsMembers(cur.0, cur.1, BOARD_SIZE, q);
    }
    forall q | OnBoard(q) && Adjacent(cur, q) && At(board, q) == Stone(playerColor)
      ensures q in stones'
    {
      assert q in neighbors;
    }
  }

  /** findGroup: returns the stones of the group containing (row, col), in the
      order the search reaches them, and the set of its liberties. A seed that
      is off the board or does not hold playerColor gives an empty group with
      no liberties. The source keeps a separate queue that is always equal to
      `stones`; here `stones` doubles as the queue. */
  method FindGroup(row: int, col: int, board: Grid, playerColor: Color)
    returns (stones: seq<Coord>, liberties: set<Coord>)
    requires WellFormed(board)
    ensures forall p :: p in stones <==> p in Component(board, Stone(playerColor), (row, col))
    ensures Distinct(stones)
    ensures liberties == LibertiesOf(board, Component(board, Stone(playerColor), (row, col)))
    ensures !(OnBoard((row, col)) && At(board, (row, col)) == Stone(playerColor)) ==>
              stones == [] && liberties == {}
    ensures OnBoard((row, col)) && At(board, (row, col)) == Stone(playerColor) ==>
              |stones| > 0 && stones[0] == (row, col)
  {
    EmptyComponent(board, Stone(playerColor), (row, col));
    if row < 0 || row >= BOARD_SIZE || col < 0 || col >= BOARD_SIZE || board[row][col] != Stone(playerColor) {
      assert LibertiesOf(board, {}) == {};
      return [], {};
    }
    var visited := new bool[BOARD_SIZE, BOARD_SIZE]((_, _) => false);
    visited[row, col] := true;
    stones := [(row, col)];
    liberties := {};
    ghost var done: set<Coord> := {};
    BfsStart(board, playerColor, (row, col));
    var head := 0;
    while head < |stones|
      invariant BfsState(board, playerColor, (row, col), stones, head, done, liberties)
      invariant forall r, c :: 0 <= r < BOARD_SIZE && 0 <= c < BOARD_SIZE ==> (visited[r, c] <==> (r, c) in stones)
      decreases AllCells() - Elements(stones), |stones| - head
    {
      var cur := stones[head];
      ghost var stones0, liberties0 := stones, liberties;
      stones, liberties := ScanNeighbors(board, playerColor, cur, visited, stones, liberties);
      BfsStep(board, playerColor, (row, col), stones0, head, done, liberties0, stones, liberties);
      done := done + {cur};
      head := head + 1;
    }
    BfsEnd(board, playerColor, (row, col), stones, done, liberties);
  }

  /** What the search knows after `head` cells of `stones` have been scanned:
      the queue starts at the seed, holds distinct cells of the seed's group,
      every same-coloured neighbour of a scanned cell has been queued, and the
      liberties found are those of the scanned cells. */
  ghost predicate BfsState(board: Grid, c: Color, seed: Coord, stones: seq<Coord>, head: int,
                           done: set<Coord>, liberties: set<Coord>)
    requires WellFormed(board)
  {
    && 0 <= head <= |stones| && 0 < |stones| && stones[0] == seed
    && Distinct(stones)
    && AllInComponent(board, c, seed, stones)
    && (forall p :: p in done <==> p in stones[..head])
    && NeighboursQueued(board, c, done, stones)
    && liberties == LibertiesOf(board, done)
  }

  /** Every queued stone belongs to the group of the seed. */
  ghost predicate AllInComponent(board: Grid, c: Color, seed: Coord, stones: seq<Coord>)
    requires WellFormed(board)
  {
    forall k :: 0 <= k < |stones| ==> stones[k] in Component(board, Stone(c), seed)
  }

  /** Every same-coloured neighbour of an explored stone is queued. */
  ghost predicate NeighboursQueued(board: Grid, c: Color, done: set<Coord>, stones: seq<Coord>)
    requires WellFormed(board)
  {
    forall p, q :: p in done && OnBoard(q) && Adjacent(p, q) && At(board, q) == Stone(c) ==> q in stones
  }

  lemma BfsStart(board: Grid, c: Color, seed: Coord)
    requires WellFormed(board) && OnBoard(seed) && At(board, seed) == Stone(c)
    ensures BfsState(board, c, seed, [seed], 0, {}, {})
  {
    SeedInComponent(board, Stone(c), seed);
    assert LibertiesOf(board, {}) == {};
  }

  lemma BfsStep(board: Grid, c: Color, seed: Coord, stones0: seq<Coord>, head: int, done: set<Coord>,
                liberties0: set<Coord>, stones: seq<Coord>, liberties: set<Coord>)
    requires WellFormed(board)
    requires BfsState(board, c, seed, stones0, head, done, liberties0) && head < |stones0|
    requires Distinct(stones) && |stones0| <= |stones| && stones[..|stones0|] == stones0
    requires forall k :: |stones0| <= k < |stones| ==>
               OnBoard(stones[k]) && Adjacent(stones0[head], stones[k]) && At(board, stones[k]) == Stone(c)
    requires forall q :: OnBoard(q) && Adjacent(stones0[head], q) && At(board, q) == Stone(c) ==> q in stones
    requires liberties == liberties0 + EmptyNeighbours(board, stones0[head])
    ensures BfsState(board, c, seed, stones, head + 1, done + {stones0[head]}, liberties)
    ensures |stones| == |stones0| ==> Elements(stones) == Elements(stones0)
    ensures |stones| > |stones0| ==> AllCells() - Elements(stones) < AllCells() - Elements(stones0)
  {
    var cur := stones0[head];
    var C := Component(board, Stone(c), seed);
    forall k | 0 <= k < |stones0|
      ensures stones[k] == stones0[k]
    {
      assert stones[..|stones0|][k] == stones0[k];
    }
    assert AllInComponent(board, c, seed, stones) by {
      forall k | |stones0| <= k < |stones|
        ensures stones[k] in C
      {
        ComponentGrows(board, Stone(c), seed, cur, stones[k]);
      }
    }
    PrefixStep(stones0, stones, head);
    assert NeighboursQueued(board, c, done + {cur}, stones) by {
      forall p, q | p in done + {cur} && OnBoard(q) && Adjacent(p, q) && At(board, q) == Stone(c)
        ensures q in stones
      {
        if p != cur {
          assert q in stones0;
        }
      }
    }
    LibertiesAdd(board, done, cur);
    forall k | 0 <= k < |stones|
      ensures OnBoard(stones[k])
    {
      ComponentCells(board, Stone(c), seed, stones[k]);
    }
    ShrinkingUnvisited(stones0, stones);
  }

  lemma BfsEnd(board: Grid, c: Color, seed: Coord, stones: seq<Coord>, done: set<Coord>, liberties: set<Coord>)
    requires WellFormed(board)
    requires BfsState(board, c, seed, stones, |stones|, done, liberties)
    ensures forall p :: p in stones <==> p in Component(board, Stone(c), seed)
    ensures liberties == LibertiesOf(board, Component(board, Stone(c), seed))
  {
    assert stones[..|stones|] == stones;
    assert Closed(board, Stone(c), Elements(stones));
    ClosedContainsComponent(board, Stone(c), Elements(stones), seed);
    assert done == Component(board, Stone(c), seed);
  }

  /** Extending a sequence keeps its prefixes: the first head + 1 cells of
      the extension are the first head cells of the original and its cell at head. */
  lemma PrefixStep(s0: seq<Coord>, s: seq<Coord>, head: int)
    requires 0 <= head < |s0| <= |s| && s[..|s0|] == s0
    ensures s[..head + 1] == s0[..head] + [s0[head]]
  {
    assert s[..head + 1] == s[..|s0|][..head + 1];
  }

  function Elements(s: seq<Coord>): (e: set<Coord>)
    ensures forall x :: x in e <==> x in s
  {
    set x | x in s
  }

  /** A sequence without repetitions has as many elements as its set. */
  lemma {:induction false} DistinctCard(s: seq<Coord>)
    requires Distinct(s)
    ensures |Elements(s)| == |s|
  {
    if s != [] {
      var front := s[..|s| - 1];
      DistinctCard(front);
      assert Elements(s) == Elements(front) + {s[|s| - 1]};
      assert s[|s| - 1] !in Elements(front);
    }
  }

  /** Appending new on-board cells shrinks the set of unvisited cells. */
  lemma ShrinkingUnvisited(s0: seq<Coord>, s: seq<Coord>)
    requires |s0| <= |s| && s[..|s0|] == s0 && Distinct(s)
    requires forall k :: 0 <= k < |s| ==> OnBoard(s[k])
    ensures |s| == |s0| ==> Elements(s) == Elements(s0)
    ensures |s| > |s0| ==> AllCells() - Elements(s) < AllCells() - Elements(s0)
  {
    forall k | 0 <= k < |s0|
      ensures s[k] == s0[k]
    {
      assert s[..|s0|][k] == s0[k];
    }
    if |s| > |s0| {
      var x := s[|s0|];
      InAllCells(x);
      assert forall k :: 0 <= k < |s0| ==> s0[k] != x;
      assert x in AllCells() - Elements(s0) && x !in AllCells() - Elements(s);
    } else {
      assert s == s0;
    }
  }
}
