/** Connected regions of equal cells, the specification both breadth-first
    searches of the engine are proved against: with v == Stone(c) a region is
    a group of stones, with v == Empty it is an empty area scored as territory. */
module Connectivity {
  import opened Board

  /** A walk through orthogonally adjacent on-board cells that all hold v. */
  ghost predicate IsPath(b: Grid, v: Cell, path: seq<Coord>)
    requires WellFormed(b)
  {
    && |path| > 0
    && (forall i :: 0 <= i < |path| ==> OnBoard(path[i]) && At(b, path[i]) == v)
    && (forall i :: 0 < i < |path| ==> Adjacent(path[i - 1], path[i]))
  }

  ghost predicate Connected(b: Grid, v: Cell, p: Coord, q: Coord)
    requires WellFormed(b)
  {
    exists path :: IsPath(b, v, path) && path[0] == p && path[|path| - 1] == q
  }

  /** The cells reachable from s through cells holding v; empty when s itself
      is off the board or does not hold v. */
  ghost function Component(b: Grid, v: Cell, s: Coord): set<Coord>
    requires WellFormed(b)
  {
    set r, c | 0 <= r < BOARD_SIZE && 0 <= c < BOARD_SIZE && Connected(b, v, s, (r, c)) :: (r, c)
  }

  /** S contains every v-neighbour of each of its cells. */
  ghost predicate Closed(b: Grid, v: Cell, S: set<Coord>)
    requires WellFormed(b)
  {
    forall p, q :: p in S && OnBoard(q) && Adjacent(p, q) && At(b, q) == v ==> q in S
  }

  /** The empty cells next to some cell of S, each counted once. */
  ghost function LibertiesOf(b: Grid, S: set<Coord>): set<Coord>
    requires WellFormed(b)
  {
    set r, c | 0 <= r < BOARD_SIZE && 0 <= c < BOARD_SIZE && b[r][c] == Empty &&
               (exists p :: p in S && Adjacent(p, (r, c))) :: (r, c)
  }

  lemma InComponent(b: Grid, v: Cell, s: Coord, q: Coord)
    requires WellFormed(b)
    ensures q in Component(b, v, s) <==> OnBoard(q) && Connected(b, v, s, q)
  {
    if OnBoard(q) && Connected(b, v, s, q) {
      assert q == (q.0, q.1);
    }
  }

  lemma InLiberties(b: Grid, S: set<Coord>, q: Coord)
    requires WellFormed(b)
    ensures q in LibertiesOf(b, S) <==>
            OnBoard(q) && At(b, q) == Empty && exists p :: p in S && Adjacent(p, q)
  {
    if OnBoard(q) && At(b, q) == Empty && exists p :: p in S && Adjacent(p, q) {
      assert q == (q.0, q.1);
    }
  }

  /** A stone of S next to an empty cell gives S that liberty. */
  lemma LibertyWitness(b: Grid, S: set<Coord>, p: Coord, q: Coord)
    requires WellFormed(b)
    requires p in S && OnBoard(q) && Adjacent(p, q) && At(b, q) == Empty
    ensures q in LibertiesOf(b, S)
  {
    InLiberties(b, S, q);
  }

  /** Every cell of a component holds v. */
  lemma ComponentCells(b: Grid, v: Cell, s: Coord, q: Coord)
    requires WellFormed(b)
    requires q in Component(b, v, s)
    ensures OnBoard(q) && At(b, q) == v
  {
    InComponent(b, v, s, q);
    var path :| IsPath(b, v, path) && path[0] == s && path[|path| - 1] == q;
    assert OnBoard(path[|path| - 1]);
  }

  /** The seed belongs to its component exactly when it holds v. */
  lemma SeedInComponent(b: Grid, v: Cell, s: Coord)
    requires WellFormed(b)
    ensures s in Component(b, v, s) <==> OnBoard(s) && At(b, s) == v
  {
    if OnBoard(s) && At(b, s) == v {
      assert IsPath(b, v, [s]);
      InComponent(b, v, s, s);
    } else if s in Component(b, v, s) {
      ComponentCells(b, v, s, s);
    }
  }

  /** A component is empty exactly when its seed is off the board or does
      not hold v. */
  lemma EmptyComponent(b: Grid, v: Cell, s: Coord)
    requires WellFormed(b)
    ensures Component(b, v, s) == {} <==> !(OnBoard(s) && At(b, s) == v)
  {
    SeedInComponent(b, v, s);
    if Component(b, v, s) != {} {
      var q :| q in Component(b, v, s);
      InComponent(b, v, s, q);
      var path :| IsPath(b, v, path) && path[0] == s && path[|path| - 1] == q;
      assert OnBoard(path[0]) && At(b, path[0]) == v;
    }
  }

  /** A component contains every v-neighbour of its cells. */
  lemma ComponentClosed(b: Grid, v: Cell, s: Coord)
    requires WellFormed(b)
    ensures Closed(b, v, Component(b, v, s))
  {
    var C := Component(b, v, s);
    forall p, q | p in C && OnBoard(q) && Adjacent(p, q) && At(b, q) == v
      ensures q in C
    {
      InComponent(b, v, s, p);
      var path :| IsPath(b, v, path) && path[0] == s && path[|path| - 1] == p;
      assert IsPath(b, v, path + [q]);
      InComponent(b, v, s, q);
    }
  }

  /** A v-neighbour of a cell of a component belongs to it. */
  lemma ComponentGrows(b: Grid, v: Cell, s: Coord, p: Coord, q: Coord)
    requires WellFormed(b)
    requires p in Component(b, v, s) && OnBoard(q) && Adjacent(p, q) && At(b, q) == v
    ensures q in Component(b, v, s)
  {
    ComponentClosed(b, v, s);
  }

  /** A closed set holding the first cell of a path holds the whole path. */
  lemma {:induction false} PathInClosed(b: Grid, v: Cell, S: set<Coord>, path: seq<Coord>)
    requires WellFormed(b)
    requires Closed(b, v, S) && IsPath(b, v, path) && path[0] in S
    ensures forall i :: 0 <= i < |path| ==> path[i] in S
  {
    if |path| > 1 {
      var front := path[..|path| - 1];
      assert IsPath(b, v, front);
      PathInClosed(b, v, S, front);
      assert path[|path| - 2] in S;
    }
  }

  /** The component of s is the smallest closed set containing s. */
  lemma ClosedContainsComponent(b: Grid, v: Cell, S: set<Coord>, s: Coord)
    requires WellFormed(b)
    requires Closed(b, v, S) && s in S
    ensures Component(b, v, s) <= S
  {
    forall q | q in Component(b, v, s)
      ensures q in S
    {
      InComponent(b, v, s, q);
      var path :| IsPath(b, v, path) && path[0] == s && path[|path| - 1] == q;
      PathInClosed(b, v, S, path);
    }
  }

  lemma {:induction false} ReversedPath(b: Grid, v: Cell, path: seq<Coord>)
    requires WellFormed(b) && IsPath(b, v, path)
    ensures IsPath(b, v, Reverse(path)) && Reverse(path)[0] == path[|path| - 1]
    ensures Reverse(path)[|path| - 1] == path[0]
  {
    ReverseAt(path);
  }

  function Reverse(s: seq<Coord>): (r: seq<Coord>)
    ensures |r| == |s|
  {
    if s == [] then [] else Reverse(s[1..]) + [s[0]]
  }

  lemma {:induction false} ReverseAt(s: seq<Coord>)
    ensures forall k :: 0 <= k < |s| ==> Reverse(s)[k] == s[|s| - 1 - k]
  {
    if s != [] {
      ReverseAt(s[1..]);
    }
  }

  /** Adjacency is symmetric, so connection is too. */
  lemma ConnectedSymmetric(b: Grid, v: Cell, p: Coord, q: Coord)
    requires WellFormed(b) && Connected(b, v, p, q)
    ensures Connected(b, v, q, p)
  {
    var path :| IsPath(b, v, path) && path[0] == p && path[|path| - 1] == q;
    ReversedPath(b, v, path);
  }

  /** Any cell of a component has that same component. */
  lemma SameComponent(b: Grid, v: Cell, s: Coord, x: Coord)
    requires WellFormed(b)
    requires x in Component(b, v, s)
    ensures Component(b, v, x) == Component(b, v, s)
  {
    ComponentClosed(b, v, s);
    ClosedContainsComponent(b, v, Component(b, v, s), x);
    InComponent(b, v, s, x);
    ConnectedSymmetric(b, v, s, x);
    InComponent(b, v, x, s);
    ComponentClosed(b, v, x);
    ClosedContainsComponent(b, v, Component(b, v, x), s);
  }

  /** Clearing whole components of v that do not contain s changes neither
      the component of s nor its liberties. */
  lemma ClearingOtherComponents(b: Grid, t: Grid, v: Cell, S: set<Coord>, s: Coord)
    requires WellFormed(b) && WellFormed(t) && v != Empty
    requires forall q :: OnBoard(q) ==> At(t, q) == if q in S then Empty else At(b, q)
    requires forall x :: x in S ==> OnBoard(x) && At(b, x) == v && Component(b, v, x) <= S
    requires s !in S
    ensures Component(t, v, s) == Component(b, v, s)
    ensures LibertiesOf(t, Component(b, v, s)) == LibertiesOf(b, Component(b, v, s))
  {
    var C := Component(b, v, s);
    ComponentClosed(b, v, s);
    SeedInComponent(b, v, s);
    // No cell of S lies in C or next to it.
    forall x, y | x in S && y in C && (x == y || Adjacent(y, x))
      ensures false
    {
      ComponentCells(b, v, s, y);
      assert x in C;
      SameComponent(b, v, s, x);
    }
    if s !in C {
      SeedInComponent(b, v, s);
      SeedInComponent(t, v, s);
      EmptyComponent(b, v, s);
      EmptyComponent(t, v, s);
    } else {
      forall p, q | p in C && OnBoard(q) && Adjacent(p, q) && At(t, q) == v
        ensures q in C
      {
      }
      ClosedContainsComponent(t, v, C, s);
      var D := Component(t, v, s);
      ComponentClosed(t, v, s);
      forall p, q | p in D && OnBoard(q) && Adjacent(p, q) && At(b, q) == v
        ensures q in D
      {
        assert q in C;
      }
      SeedInComponent(t, v, s);
      ClosedContainsComponent(b, v, D, s);
    }
    forall q
      ensures q in LibertiesOf(t, C) <==> q in LibertiesOf(b, C)
    {
      InLiberties(t, C, q);
      InLiberties(b, C, q);
    }
  }
}
