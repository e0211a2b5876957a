/**
  Why diagonal moves may not cut corners: every legal path can be walked along the edges of free
  cells, so what is reachable is what is connected by edges.
*/
module EdgePaths {
  import opened GridRay
  import opened GridSearch

  /** The cells share an edge. */
  predicate Touch(a: Cell, b: Cell) {
    DeltaX(a, b) + DeltaY(a, b) == 1
  }

  predicate EdgeStep(free: set<Cell>, a: Cell, b: Cell) {
    a in free && b in free && Touch(a, b)
  }

  predicate EdgeSteps(free: set<Cell>, q: seq<Cell>) {
    |q| <= 1 || (EdgeSteps(free, q[..|q| - 1]) && EdgeStep(free, q[|q| - 2], q[|q| - 1]))
  }

  /** From start to goal through free cells of which any two in a row share an edge. */
  ghost predicate IsEdgePath(free: set<Cell>, start: Cell, goal: Cell, q: seq<Cell>) {
    |q| > 0 && q[0] == start && q[|q| - 1] == goal && start in free && EdgeSteps(free, q)
  }

  lemma OneMoreEdge(free: set<Cell>, start: Cell, a: Cell, b: Cell, q: seq<Cell>)
    requires IsEdgePath(free, start, a, q) && EdgeStep(free, a, b)
    ensures IsEdgePath(free, start, b, q + [b])
  {
    assert (q + [b])[..|q|] == q;
  }

  /** A legal move is one step along an edge, or two of them around either corner. */
  lemma MoveAlongEdges(free: set<Cell>, a: Cell, b: Cell)
    requires Move(free, a, b)
    ensures if a.x == b.x || a.y == b.y then EdgeStep(free, a, b)
            else var c, d := Cell(b.x, a.y), Cell(a.x, b.y);
              EdgeStep(free, a, c) && EdgeStep(free, c, b) && EdgeStep(free, a, d) && EdgeStep(free, d, b)
  {
  }

  /** Every legal path can be refined to one along edges that visits all of its cells. */
  lemma {:induction false} PathAlongEdges(free: set<Cell>, start: Cell, goal: Cell, p: seq<Cell>) returns (q: seq<Cell>)
    requires IsPath(free, start, goal, p)
    ensures IsEdgePath(free, start, goal, q) && forall c <- p :: c in q
    decreases |p|
  {
    if |p| == 1 {
      return p;
    }
    var a, front := p[|p| - 2], p[..|p| - 1];
    assert p == front + [goal];
    q := PathAlongEdges(free, start, a, front);
    MoveAlongEdges(free, a, goal);
    if a.x != goal.x && a.y != goal.y {
      var c := Cell(goal.x, a.y);
      OneMoreEdge(free, start, a, c, q);
      q := q + [c];
      a := c;
    }
    OneMoreEdge(free, start, a, goal, q);
    q := q + [goal];
  }

  /** Steps along edges are legal moves. */
  lemma {:induction false} EdgesAreMoves(free: set<Cell>, q: seq<Cell>)
    requires EdgeSteps(free, q)
    ensures Moves(free, q)
    decreases |q|
  {
    if |q| > 1 {
      EdgesAreMoves(free, q[..|q| - 1]);
    }
  }

  /** A cell can be reached by legal moves exactly when it is connected by edges of free cells. */
  lemma ReachableExactly(free: set<Cell>, start: Cell, goal: Cell)
    ensures Reachable(free, start, goal) <==> exists q :: IsEdgePath(free, start, goal, q)
  {
    if Reachable(free, start, goal) {
      var p :| IsPath(free, start, goal, p);
      var q := PathAlongEdges(free, start, goal, p);
    }
    if exists q :: IsEdgePath(free, start, goal, q) {
      var q :| IsEdgePath(free, start, goal, q);
      EdgesAreMoves(free, q);
      assert IsPath(free, start, goal, q);
    }
  }

  /** A diagonal move that is possible but would cut a corner is not legal. */
  lemma CornersCount(free: set<Cell>, a: Cell, b: Cell)
    requires a in free && b in free && RaySteps(a, b) == 1
    ensures Move(free, a, b) <==> forall c :: Touch(a, c) && Touch(c, b) ==> c in free
  {
    if a.x != b.x && a.y != b.y {
      assert Touch(a, Cell(b.x, a.y)) && Touch(Cell(b.x, a.y), b);
      assert Touch(a, Cell(a.x, b.y)) && Touch(Cell(a.x, b.y), b);
    }
  }
}
