/** getTerritoryInfo: area counting of the empty points. Each maximal region
    of connected empty points belongs to a colour when that colour's stones
    are the only ones it touches, and is neutral otherwise. */
module Territory {
  import opened Board
  import opened Connectivity
  import opened Groups

  // ---------------------------------------------------------------------
  // Specification

  /** The empty region through q. */
  ghost function Region(b: Grid, q: Coord): set<Coord>
    requires WellFormed(b)
  {
    Component(b, Empty, q)
  }

  /** The colours of the stones next to p. */
  ghost function NeighbourColors(b: Grid, p: Coord): set<Color>
    requires WellFormed(b)
  {
    set c | c in {Black, White} && exists y :: y in AdjacentCells(p.0, p.1, BOARD_SIZE) && At(b, y) == Stone(c)
  }

  lemma InNeighbourColors(b: Grid, p: Coord, c: Color, y: Coord)
    requires WellFormed(b) && y in AdjacentCells(p.0, p.1, BOARD_SIZE) && At(b, y) == Stone(c)
    ensures c in NeighbourColors(b, p)
  {
    assert c in {Black, White} by {
      if c.Black? { } else { }
    }
  }

  /** The colours of the stones next to some point of S. */
  ghost function BorderColors(b: Grid, S: set<Coord>): set<Color>
    requires WellFormed(b)
  {
    set c | c in {Black, White} &&
            exists x, y :: x in S && OnBoard(y) && Adjacent(x, y) && At(b, y) == Stone(c)
  }

  /** q is an empty point whose region touches stones of colour c only. */
  ghost predicate OwnedBy(b: Grid, q: Coord, c: Color)
    requires WellFormed(b)
  {
    OnBoard(q) && At(b, q) == Empty && BorderColors(b, Region(b, q)) == {c}
  }

  /** q is an empty point whose region touches no stone or both colours. */
  ghost predicate IsNeutral(b: Grid, q: Coord)
    requires WellFormed(b)
  {
    OnBoard(q) && At(b, q) == Empty && |BorderColors(b, Region(b, q))| != 1
  }

  ghost function TerritoryIn(b: Grid, c: Color, S: set<Coord>): set<Coord>
    requires WellFormed(b)
  {
    set q | q in S && OwnedBy(b, q, c)
  }

  ghost function NeutralIn(b: Grid, S: set<Coord>): set<Coord>
    requires WellFormed(b)
  {
    set q | q in S && IsNeutral(b, q)
  }

  /** The territory of colour c on the whole board. */
  ghost function TerritoryOf(b: Grid, c: Color): set<Coord>
    requires WellFormed(b)
  {
    TerritoryIn(b, c, AllCells())
  }

  /** The neutral points (dame) of the whole board. */
  ghost function Neutral(b: Grid): set<Coord>
    requires WellFormed(b)
  {
    NeutralIn(b, AllCells())
  }

  ghost function EmptyPoints(b: Grid): set<Coord>
    requires WellFormed(b)
  {
    set q | q in AllCells() && At(b, q) == Empty
  }

  // ---------------------------------------------------------------------
  // The algorithm

  /** The neighbour loop of the region search: every unvisited empty
      neighbour of cur is marked and queued, and the colour of every stone
      next to cur is recorded. */
  method ScanRegionNeighbors(board: Grid, cur: Coord, visited: array2<bool>, ghost seen: set<Coord>,
                             queue: seq<Coord>, borderingColors: set<Color>)
    returns (queue': seq<Coord>, borderingColors': set<Color>)
    requires WellFormed(board) && OnBoard(cur)
    requires visited.Length0 == BOARD_SIZE && visited.Length1 == BOARD_SIZE
    requires forall r, c :: 0 <= r < BOARD_SIZE && 0 <= c < BOARD_SIZE ==>
               (visited[r, c] <==> (r, c) in seen || (r, c) in queue)
    requires Distinct(queue)
    modifies visited
    ensures forall r, c :: 0 <= r < BOARD_SIZE && 0 <= c < BOARD_SIZE ==>
              (visited[r, c] <==> (r, c) in seen || (r, c) in queue')
    ensures Distinct(queue') && |queue| <= |queue'| && queue'[..|queue|] == queue
    ensures forall k :: |queue| <= k < |queue'| ==>
              OnBoard(queue'[k]) && Adjacent(cur, queue'[k]) && At(board, queue'[k]) == Empty
    ensures forall q :: OnBoard(q) && Adjacent(cur, q) && At(board, q) == Empty ==> q in seen || q in queue'
    ensures borderingColors' == borderingColors + NeighbourColors(board, cur)
  {
    var neighbors := GetNeighbors(cur.0, cur.1, BOARD_SIZE);
    queue', borderingColors' := queue, borderingColors;
    for i := 0 to |neighbors|
      invariant forall r, c :: 0 <= r < BOARD_SIZE && 0 <= c < BOARD_SIZE ==>
                  (visited[r, c] <==> (r, c) in seen || (r, c) in queue')
      invariant Distinct(queue') && |queue| <= |queue'| && queue'[..|queue|] == queue
      invariant forall k :: |queue| <= k < |queue'| ==>
                  OnBoard(queue'[k]) && Adjacent(cur, queue'[k]) && At(board, queue'[k]) == Empty
      invariant forall j :: 0 <= j < i && At(board, neighbors[j]) == Empty ==> neighbors[j] in seen || neighbors[j] in queue'
      invariant forall c :: c in borderingColors' <==>
                  c in borderingColors || exists j :: 0 <= j < i && At(board, neighbors[j]) == Stone(c)
    {
      assert neighbors[i] in neighbors;
      queue', borderingColors' := VisitRegionNeighbor(board, cur, neighbors[i], visited, seen, queue', borderingColors');
    }
    assert borderingColors' == borderingColors + NeighbourColors(board, cur) by {
      NeighbourColorsListed(board, cur, neighbors);
    }
    forall q | OnBoard(q) && Adjacent(cur, q) && At(board, q) == Empty
      ensures q in seen || q in queue'
    {
      assert q in neighbors;
    }
  }

  /** One neighbour nb of the region search: queued and marked when it is
      empty and unvisited, its colour recorded when it holds a stone. */
  method VisitRegionNeighbor(board: Grid, cur: Coord, nb: Coord, visited: array2<bool>, ghost seen: set<Coord>,
                             queue: seq<Coord>, borderingColors: set<Color>)
    returns (queue': seq<Coord>, borderingColors': set<Color>)
    requires WellFormed(board) && OnBoard(nb) && Adjacent(cur, nb)
    requires visited.Length0 == BOARD_SIZE && visited.Length1 == BOARD_SIZE
    requires forall r, c :: 0 <= r < BOARD_SIZE && 0 <= c < BOARD_SIZE ==>
               (visited[r, c] <==> (r, c) in seen || (r, c) in queue)
    requires Distinct(queue)
    modifies visited
    ensures forall r, c :: 0 <= r < BOARD_SIZE && 0 <= c < BOARD_SIZE ==>
              (visited[r, c] <==> (r, c) in seen || (r, c) in queue')
    ensures Distinct(queue')
    ensures queue' == queue || (queue' == queue + [nb] && At(board, nb) == Empty)
    ensures At(board, nb) == Empty ==> nb in seen || nb in queue'
    ensures borderingColors' == if At(board, nb) == Empty then borderingColors else borderingColors + {At(board, nb).color}
  {
    var (nR, nC) := nb;
    queue', borderingColors' := queue, borderingColors;
    if board[nR][nC] == Empty && !visited[nR, nC] {
      visited[nR, nC] := true;
      queue' := queue' + [(nR, nC)];
    } else if board[nR][nC] != Empty {
      borderingColors' := borderingColors' + {board[nR][nC].color};
    }
  }

  /** The colours next to p are the colours of the stones on its listed
      neighbours. */
  lemma NeighbourColorsListed(board: Grid, p: Coord, neighbors: seq<Coord>)
    requires WellFormed(board)
    requires forall q :: q in neighbors <==> InGrid(q, BOARD_SIZE) && Adjacent(q, (p.0, p.1))
    ensures forall c :: c in NeighbourColors(board, p) <==>
              exists j :: 0 <= j < |neighbors| && OnBoard(neighbors[j]) && At(board, neighbors[j]) == Stone(c)
  {
    forall c
      ensures c in NeighbourColors(board, p) <==>
              exists j :: 0 <= j < |neighbors| && OnBoard(neighbors[j]) && At(board, neighbors[j]) == Stone(c)
    {
      if exists j :: 0 <= j < |neighbors| && OnBoard(neighbors[j]) && At(board, neighbors[j]) == Stone(c) {
        var j :| 0 <= j < |neighbors| && OnBoard(neighbors[j]) && At(board, neighbors[j]) == Stone(c);
        assert neighbors[j] in neighbors;
        AdjacentCellsMembers(p.0, p.1, BOARD_SIZE, neighbors[j]);
        InNeighbourColors(board, p, c, neighbors[j]);
      }
      if c in NeighbourColors(board, p) {
        var y :| y in AdjacentCells(p.0, p.1, BOARD_SIZE) && At(board, y) == Stone(c);
        AdjacentCellsMembers(p.0, p.1, BOARD_SIZE, y);
        assert y in neighbors;
        var j :| 0 <= j < |neighbors| && neighbors[j] == y;
      }
    }
  }

  /** What the region search knows after `head` points of `queue` have been
      taken out: the queue starts at the seed and holds distinct points of
      the seed's region, `area` lists the points taken out, every empty
      neighbour of those has been queued, and the colours recorded are the
      ones bordering them. */
  ghost predicate RegionState(board: Grid, seed: Coord, queue: seq<Coord>, head: int,
                              area: seq<Coord>, border: set<Color>)
    requires WellFormed(board)
  {
    && 0 <= head <= |queue| && 0 < |queue| && queue[0] == seed
    && Distinct(queue)
    && (forall k :: 0 <= k < |queue| ==> queue[k] in Region(board, seed))
    && area == queue[..head]
    && (forall p, q :: p in area && OnBoard(q) && Adjacent(p, q) && At(board, q) == Empty ==> q in queue)
    && border == BorderColors(board, Elements(area))
  }

  /** The search of one empty region of getTerritoryInfo, from an empty point
      no earlier search has reached: `area` lists the region and
      `borderingColors` the colours of the stones around it. */
  method ExploreRegion(board: Grid, r: int, c: int, visited: array2<bool>, ghost seen: set<Coord>)
    returns (area: seq<Coord>, borderingColors: set<Color>)
    requires WellFormed(board) && OnBoard((r, c)) && board[r][c] == Empty
    requires visited.Length0 == BOARD_SIZE && visited.Length1 == BOARD_SIZE
    requires forall i, j :: 0 <= i < BOARD_SIZE && 0 <= j < BOARD_SIZE ==> (visited[i, j] <==> (i, j) in seen)
    requires forall x :: x in seen ==> x !in Region(board, (r, c))
    modifies visited
    ensures Elements(area) == Region(board, (r, c)) && Distinct(area)
    ensures borderingColors == BorderColors(board, Region(board, (r, c)))
    ensures forall i, j :: 0 <= i < BOARD_SIZE && 0 <= j < BOARD_SIZE ==>
              (visited[i, j] <==> (i, j) in seen || (i, j) in Region(board, (r, c)))
  {
    area := [];
    borderingColors := {};
    var queue := [(r, c)];
    SeedInComponent(board, Empty, (r, c));
    visited[r, c] := true;
    var currentPointIndex := 0;
    assert BorderColors(board, {}) == {};
    while currentPointIndex < |queue|
      invariant RegionState(board, (r, c), queue, currentPointIndex, area, borderingColors)
      invariant forall i, j :: 0 <= i < BOARD_SIZE && 0 <= j < BOARD_SIZE ==>
                  (visited[i, j] <==> (i, j) in seen || (i, j) in queue)
      decreases AllCells() - Elements(queue), |queue| - currentPointIndex
    {
      var cur := queue[currentPointIndex];
      currentPointIndex := currentPointIndex + 1;
      area := area + [cur];
      ghost var queue0, border0 := queue, borderingColors;
      ComponentCells(board, Empty, (r, c), cur);
      queue, borderingColors := ScanRegionNeighbors(board, cur, visited, seen, queue, borderingColors);
      RegionStep(board, (r, c), queue0, currentPointIndex - 1, border0, queue, borderingColors, seen);
    }
    RegionEnd(board, (r, c), queue, area, borderingColors);
  }

  /** Adding one point to a set adds exactly that point's neighbouring
      colours to the set's border. */
  lemma BorderAdd(b: Grid, S: set<Coord>, p: Coord)
    requires WellFormed(b)
    ensures BorderColors(b, S + {p}) == BorderColors(b, S) + NeighbourColors(b, p)
  {
    forall c
      ensures c in BorderColors(b, S + {p}) <==> c in BorderColors(b, S) + NeighbourColors(b, p)
    {
      if c in BorderColors(b, S + {p}) {
        var x, y :| x in S + {p} && OnBoard(y) && Adjacent(x, y) && At(b, y) == Stone(c);
        if x == p {
          AdjacentCellsMembers(p.0, p.1, BOARD_SIZE, y);
          InNeighbourColors(b, p, c, y);
        }
      }
      if c in NeighbourColors(b, p) {
        var y :| y in AdjacentCells(p.0, p.1, BOARD_SIZE) && At(b, y) == Stone(c);
        AdjacentCellsMembers(p.0, p.1, BOARD_SIZE, y);
        assert Adjacent(p, y);
      }
    }
  }

  lemma RegionStep(board: Grid, seed: Coord, queue0: seq<Coord>, head: int, border0: set<Color>,
                   queue: seq<Coord>, border: set<Color>, seen: set<Coord>)
    requires WellFormed(board)
    requires 0 <= head < |queue0| && RegionState(board, seed, queue0, head, queue0[..head], border0)
    requires forall x :: x in seen ==> x !in Region(board, seed)
    requires Distinct(queue) && |queue0| <= |queue| && queue[..|queue0|] == queue0
    requires forall k :: |queue0| <= k < |queue| ==>
               OnBoard(queue[k]) && Adjacent(queue0[head], queue[k]) && At(board, queue[k]) == Empty
    requires forall q :: OnBoard(q) && Adjacent(queue0[head], q) && At(board, q) == Empty ==> q in seen || q in queue
    requires border == border0 + NeighbourColors(board, queue0[head])
    ensures RegionState(board, seed, queue, head + 1, queue0[..head] + [queue0[head]], border)
    ensures |queue| == |queue0| ==> Elements(queue) == Elements(queue0)
    ensures |queue| > |queue0| ==> AllCells() - Elements(queue) < AllCells() - Elements(queue0)
  {
    var cur := queue0[head];
    var R := Region(board, seed);
    forall k | 0 <= k < |queue0|
      ensures queue[k] == queue0[k]
    {
      assert queue[..|queue0|][k] == queue0[k];
    }
    forall k | |queue0| <= k < |queue|
      ensures queue[k] in R
    {
      ComponentGrows(board, Empty, seed, cur, queue[k]);
    }
    forall q | OnBoard(q) && Adjacent(cur, q) && At(board, q) == Empty
      ensures q in queue
    {
      ComponentGrows(board, Empty, seed, cur, q);
    }
    PrefixStep(queue0, queue, head);
    assert Elements(queue0[..head] + [cur]) == Elements(queue0[..head]) + {cur};
    BorderAdd(board, Elements(queue0[..head]), cur);
    forall k | 0 <= k < |queue|
      ensures OnBoard(queue[k])
    {
      ComponentCells(board, Empty, seed, queue[k]);
    }
    ShrinkingUnvisited(queue0, queue);
  }

  lemma RegionEnd(board: Grid, seed: Coord, queue: seq<Coord>, area: seq<Coord>, border: set<Color>)
    requires WellFormed(board)
    requires RegionState(board, seed, queue, |queue|, area, border)
    ensures Elements(area) == Region(board, seed) && Elements(queue) == Region(board, seed) && Distinct(area)
    ensures border == BorderColors(board, Region(board, seed))
  {
    assert area == queue;
    assert Closed(board, Empty, Elements(queue));
    ClosedContainsComponent(board, Empty, Elements(queue), seed);
  }

  /** The points scanned so far: whole empty regions, with the three counters
      holding the sizes of their black, white and neutral parts. */
  ghost predicate ScanState(b: Grid, seen: set<Coord>, blackTerritory: int, whiteTerritory: int, neutralPoints: int)
    requires WellFormed(b)
  {
    && (forall x :: x in seen ==> OnBoard(x) && At(b, x) == Empty)
    && Closed(b, Empty, seen)
    && blackTerritory == |TerritoryIn(b, Black, seen)|
    && whiteTerritory == |TerritoryIn(b, White, seen)|
    && neutralPoints == |NeutralIn(b, seen)|
  }

  /** getTerritoryInfo: scans the board row by row and explores each empty
      region the first time one of its points is met, crediting the region's
      size to the single colour around it, or to the neutral points. */
  method GetTerritoryInfo(board: Grid) returns (blackTerritory: int, whiteTerritory: int, neutralPoints: int)
    requires WellFormed(board)
    ensures blackTerritory == |TerritoryOf(board, Black)|
    ensures whiteTerritory == |TerritoryOf(board, White)|
    ensures neutralPoints == |Neutral(board)|
  {
    blackTerritory, whiteTerritory, neutralPoints := 0, 0, 0;
    var visited := new bool[BOARD_SIZE, BOARD_SIZE]((_, _) => false);
    ghost var seen: set<Coord> := {};
    for r := 0 to BOARD_SIZE
      invariant forall i, j :: 0 <= i < BOARD_SIZE && 0 <= j < BOARD_SIZE ==> (visited[i, j] <==> (i, j) in seen)
      invariant ScanState(board, seen, blackTerritory, whiteTerritory, neutralPoints)
      invariant forall q :: OnBoard(q) && At(board, q) == Empty && q.0 < r ==> q in seen
    {
      for c := 0 to BOARD_SIZE
        invariant forall i, j :: 0 <= i < BOARD_SIZE && 0 <= j < BOARD_SIZE ==> (visited[i, j] <==> (i, j) in seen)
        invariant ScanState(board, seen, blackTerritory, whiteTerritory, neutralPoints)
        invariant forall q :: OnBoard(q) && At(board, q) == Empty && (q.0 < r || (q.0 == r && q.1 < c)) ==> q in seen
      {
        if board[r][c] == Empty && !visited[r, c] {
          blackTerritory, whiteTerritory, neutralPoints :=
            CountRegion(board, r, c, visited, seen, blackTerritory, whiteTerritory, neutralPoints);
          SeedInComponent(board, Empty, (r, c));
          seen := seen + Region(board, (r, c));
        }
        CoverStep(board, seen, r, c);
      }
    }
    ScanComplete(board, seen);
  }

  /** The body of the scan for an empty point no search has reached yet:
      explore its region and credit the region's size to its owner. */
  method CountRegion(board: Grid, r: int, c: int, visited: array2<bool>, ghost seen: set<Coord>,
                     blackTerritory: int, whiteTerritory: int, neutralPoints: int)
    returns (blackTerritory': int, whiteTerritory': int, neutralPoints': int)
    requires WellFormed(board) && OnBoard((r, c)) && board[r][c] == Empty && (r, c) !in seen
    requires visited.Length0 == BOARD_SIZE && visited.Length1 == BOARD_SIZE
    requires forall i, j :: 0 <= i < BOARD_SIZE && 0 <= j < BOARD_SIZE ==> (visited[i, j] <==> (i, j) in seen)
    requires ScanState(board, seen, blackTerritory, whiteTerritory, neutralPoints)
    modifies visited
    ensures forall i, j :: 0 <= i < BOARD_SIZE && 0 <= j < BOARD_SIZE ==>
              (visited[i, j] <==> (i, j) in seen + Region(board, (r, c)))
    ensures ScanState(board, seen + Region(board, (r, c)), blackTerritory', whiteTerritory', neutralPoints')
  {
    RegionDisjoint(board, seen, (r, c));
    var area, borderingColors := ExploreRegion(board, r, c, visited, seen);
    DistinctCard(area);
    ScanGrows(board, seen, (r, c));
    TerritoryStep(board, seen, (r, c), Black);
    TerritoryStep(board, seen, (r, c), White);
    NeutralStep(board, seen, (r, c));
    ColorSets(borderingColors);
    blackTerritory', whiteTerritory', neutralPoints' := blackTerritory, whiteTerritory, neutralPoints;
    if |borderingColors| == 1 {
      if Black in borderingColors {
        blackTerritory' := blackTerritory' + |area|;
      } else if White in borderingColors {
        whiteTerritory' := whiteTerritory' + |area|;
      }
    } else {
      neutralPoints' := neutralPoints' + |area|;
    }
  }

  /** Row-major coverage advances past (r, c) once (r, c) is covered. */
  lemma CoverStep(b: Grid, seen: set<Coord>, r: int, c: int)
    requires WellFormed(b) && 0 <= r < BOARD_SIZE && 0 <= c < BOARD_SIZE
    requires forall q :: OnBoard(q) && At(b, q) == Empty && (q.0 < r || (q.0 == r && q.1 < c)) ==> q in seen
    requires b[r][c] == Empty ==> (r, c) in seen
    ensures forall q :: OnBoard(q) && At(b, q) == Empty && (q.0 < r || (q.0 == r && q.1 < c + 1)) ==> q in seen
  {
    forall q | OnBoard(q) && At(b, q) == Empty && (q.0 < r || (q.0 == r && q.1 < c + 1))
      ensures q in seen
    {
      if q.0 == r && q.1 == c {
        assert q == (r, c);
      }
    }
  }

  /** The sets of colours with exactly one member. */
  lemma ColorSets(s: set<Color>)
    ensures |s| == 1 && Black in s <==> s == {Black}
    ensures |s| == 1 && Black !in s <==> s == {White}
    ensures |s| == 1 <==> s == {Black} || s == {White}
  {
    if |s| == 1 {
      var x :| x in s;
      assert s - {x} == {} by {
        assert |s - {x}| == 0;
      }
      assert s == {x};
      if x == Black {
      } else {
        assert x == White;
      }
    }
  }

  /** No point already scanned lies in the region of an unscanned empty point. */
  lemma RegionDisjoint(b: Grid, seen: set<Coord>, s: Coord)
    requires WellFormed(b) && OnBoard(s) && At(b, s) == Empty && s !in seen
    requires forall x :: x in seen ==> OnBoard(x) && At(b, x) == Empty
    requires Closed(b, Empty, seen)
    ensures forall x :: x in seen ==> x !in Region(b, s)
  {
    forall x | x in seen
      ensures x !in Region(b, s)
    {
      if x in Region(b, s) {
        SameComponent(b, Empty, s, x);
        ClosedContainsComponent(b, Empty, seen, x);
        SeedInComponent(b, Empty, s);
      }
    }
  }

  /** Every point of a region is an empty point with that same region. */
  lemma RegionPoints(b: Grid, s: Coord)
    requires WellFormed(b)
    ensures forall x :: x in Region(b, s) ==> OnBoard(x) && At(b, x) == Empty && Region(b, x) == Region(b, s)
  {
    forall x | x in Region(b, s)
      ensures OnBoard(x) && At(b, x) == Empty && Region(b, x) == Region(b, s)
    {
      ComponentCells(b, Empty, s, x);
      SameComponent(b, Empty, s, x);
    }
  }

  /** Adding a new region to the scanned points adds it whole to the
      territory of c when c is the only colour around it, and nothing
      otherwise. */
  lemma TerritoryStep(b: Grid, seen: set<Coord>, s: Coord, c: Color)
    requires WellFormed(b)
    requires forall x :: x in seen ==> x !in Region(b, s)
    ensures |TerritoryIn(b, c, seen + Region(b, s))| ==
            |TerritoryIn(b, c, seen)| + (if BorderColors(b, Region(b, s)) == {c} then |Region(b, s)| else 0)
  {
    var R := Region(b, s);
    var added := if BorderColors(b, R) == {c} then R else {};
    TerritoryUnion(b, seen, s, c);
    DisjointUnionCard(TerritoryIn(b, c, seen), added);
  }

  lemma TerritoryUnion(b: Grid, seen: set<Coord>, s: Coord, c: Color)
    requires WellFormed(b)
    ensures TerritoryIn(b, c, seen + Region(b, s)) ==
            TerritoryIn(b, c, seen) + (if BorderColors(b, Region(b, s)) == {c} then Region(b, s) else {})
  {
    RegionPoints(b, s);
  }

  lemma DisjointUnionCard<T>(A: set<T>, B: set<T>)
    requires A !! B
    ensures |A + B| == |A| + |B|
  {
    assert A * B == {};
  }

  /** Likewise, a region touching no stone or both colours is added whole to
      the neutral points. */
  lemma NeutralStep(b: Grid, seen: set<Coord>, s: Coord)
    requires WellFormed(b)
    requires forall x :: x in seen ==> x !in Region(b, s)
    ensures |NeutralIn(b, seen + Region(b, s))| ==
            |NeutralIn(b, seen)| + (if |BorderColors(b, Region(b, s))| != 1 then |Region(b, s)| else 0)
  {
    var R := Region(b, s);
    RegionPoints(b, s);
    var added := if |BorderColors(b, R)| != 1 then R else {};
    assert NeutralIn(b, seen + R) == NeutralIn(b, seen) + added;
    assert NeutralIn(b, seen) !! added;
  }

  /** Adding a new region keeps the scanned points a closed set of empty points. */
  lemma ScanGrows(b: Grid, seen: set<Coord>, s: Coord)
    requires WellFormed(b)
    requires forall x :: x in seen ==> OnBoard(x) && At(b, x) == Empty
    requires Closed(b, Empty, seen)
    ensures forall x :: x in seen + Region(b, s) ==> OnBoard(x) && At(b, x) == Empty
    ensures Closed(b, Empty, seen + Region(b, s))
  {
    RegionPoints(b, s);
    ComponentClosed(b, Empty, s);
  }

  /** Once every empty point is scanned, the counts cover the whole board. */
  lemma ScanComplete(b: Grid, seen: set<Coord>)
    requires WellFormed(b)
    requires forall q :: OnBoard(q) && At(b, q) == Empty ==> q in seen
    requires forall x :: x in seen ==> OnBoard(x) && At(b, x) == Empty
    ensures TerritoryIn(b, Black, seen) == TerritoryOf(b, Black)
    ensures TerritoryIn(b, White, seen) == TerritoryOf(b, White)
    ensures NeutralIn(b, seen) == Neutral(b)
  {
    forall q
      ensures q in seen <==> q in AllCells() && OnBoard(q) && At(b, q) == Empty
    {
      InAllCells(q);
    }
  }

  // ---------------------------------------------------------------------
  // Properties of the count

  /** Every empty point is counted exactly once: black territory, white
      territory and neutral points split the empty points between them. */
  lemma TerritoryPartition(b: Grid)
    requires WellFormed(b)
    ensures TerritoryOf(b, Black) !! TerritoryOf(b, White)
    ensures TerritoryOf(b, Black) !! Neutral(b) && TerritoryOf(b, White) !! Neutral(b)
    ensures TerritoryOf(b, Black) + TerritoryOf(b, White) + Neutral(b) == EmptyPoints(b)
    ensures |TerritoryOf(b, Black)| + |TerritoryOf(b, White)| + |Neutral(b)| == |EmptyPoints(b)|
  {
    var B, W, N := TerritoryOf(b, Black), TerritoryOf(b, White), Neutral(b);
    forall q | q in EmptyPoints(b)
      ensures q in B + W + N
    {
      ColorSets(BorderColors(b, Region(b, q)));
    }
    assert B !! W;
    assert (B + W) !! N;
  }

  /** All points of a region are credited alike. */
  lemma RegionCreditedAlike(b: Grid, q: Coord, x: Coord)
    requires WellFormed(b) && x in Region(b, q)
    ensures forall c :: OwnedBy(b, x, c) <==> OwnedBy(b, q, c)
    ensures IsNeutral(b, x) <==> IsNeutral(b, q)
  {
    SameComponent(b, Empty, q, x);
    ComponentCells(b, Empty, q, x);
    if OnBoard(q) && At(b, q) == Empty {
      SeedInComponent(b, Empty, q);
    } else {
      EmptyComponent(b, Empty, q);
    }
  }

  /** A region touching stones of both colours is neutral (dame). */
  lemma BothColorsNeutral(b: Grid, q: Coord)
    requires WellFormed(b) && OnBoard(q) && At(b, q) == Empty
    requires Black in BorderColors(b, Region(b, q)) && White in BorderColors(b, Region(b, q))
    ensures IsNeutral(b, q) && forall c :: !OwnedBy(b, q, c)
  {
    var border := BorderColors(b, Region(b, q));
    assert White in border - {Black};
    assert |border - {Black}| >= 1;
    assert border == (border - {Black}) + {Black};
  }

  /** An empty point whose neighbours are all stones of colour c is a region
      of its own, credited to c as one point of territory. */
  lemma SurroundedPointOwned(b: Grid, q: Coord, c: Color)
    requires WellFormed(b) && OnBoard(q) && At(b, q) == Empty
    requires forall y :: OnBoard(y) && Adjacent(q, y) ==> At(b, y) == Stone(c)
    ensures Region(b, q) == {q}
    ensures OwnedBy(b, q, c)
  {
    assert Closed(b, Empty, {q});
    ClosedContainsComponent(b, Empty, {q}, q);
    SeedInComponent(b, Empty, q);
    var y := if q.0 > 0 then (q.0 - 1, q.1) else (q.0 + 1, q.1);
    assert OnBoard(y) && Adjacent(q, y);
    assert c in BorderColors(b, {q});
    forall d | d in BorderColors(b, {q})
      ensures d == c
    {
      var x, z :| x in {q} && OnBoard(z) && Adjacent(x, z) && At(b, z) == Stone(d);
    }
    assert BorderColors(b, {q}) == {c};
  }

  /** On a board without stones every empty point is neutral. */
  lemma NoStonesAllNeutral(b: Grid)
    requires WellFormed(b)
    requires forall q :: OnBoard(q) ==> At(b, q) == Empty
    ensures TerritoryOf(b, Black) == {} && TerritoryOf(b, White) == {}
    ensures Neutral(b) == AllCells()
  {
    forall q | OnBoard(q)
      ensures BorderColors(b, Region(b, q)) == {}
    {
    }
    forall q
      ensures q in Neutral(b) <==> q in AllCells()
    {
      InAllCells(q);
    }
  }

  /** getTerritoryInfo on the initial board: no territory, and all 361
      points neutral. */
  lemma EmptyBoardCount()
    ensures |TerritoryOf(InitialBoard(), Black)| == 0 && |TerritoryOf(InitialBoard(), White)| == 0
    ensures |Neutral(InitialBoard())| == BOARD_SIZE * BOARD_SIZE
  {
    NoStonesAllNeutral(InitialBoard());
    AllCellsCard();
  }

  /** A board without empty points has no territory and no neutral point. */
  lemma FullBoardCount(b: Grid)
    requires WellFormed(b)
    requires forall q :: OnBoard(q) ==> At(b, q) != Empty
    ensures TerritoryOf(b, Black) == {} && TerritoryOf(b, White) == {} && Neutral(b) == {}
  {
  }

  /** The first k rows of the board. */
  ghost function Rows(k: int): set<Coord> {
    set r, c | 0 <= r < k && 0 <= c < BOARD_SIZE :: (r, c)
  }

  /** The first m points of row r. */
  ghost function RowPrefix(r: int, m: int): set<Coord> {
    set c | 0 <= c < m :: (r, c)
  }

  lemma {:induction false} RowPrefixCard(r: int, m: nat)
    ensures |RowPrefix(r, m)| == m
  {
    if m > 0 {
      RowPrefixCard(r, m - 1);
      assert RowPrefix(r, m) == RowPrefix(r, m - 1) + {(r, m - 1)};
    }
  }

  lemma {:induction false} RowsCard(k: nat)
    requires k <= BOARD_SIZE
    ensures |Rows(k)| == k * BOARD_SIZE
  {
    if k > 0 {
      RowsCard(k - 1);
      RowPrefixCard(k - 1, BOARD_SIZE);
      assert Rows(k) == Rows(k - 1) + RowPrefix(k - 1, BOARD_SIZE);
      assert Rows(k - 1) !! RowPrefix(k - 1, BOARD_SIZE);
    }
  }

  lemma AllCellsCard()
    ensures |AllCells()| == BOARD_SIZE * BOARD_SIZE
  {
    RowsCard(BOARD_SIZE);
    assert Rows(BOARD_SIZE) == AllCells();
  }
}
