/**
  Legal paths on an 8-connected grid, their cost, and why best-first search with a consistent
  heuristic is optimal and complete on them.  Everything here is about values and holds for any
  consistent heuristic; AStar.dfy holds the planner and its octile heuristic.
*/
module GridSearch {
  import opened GridRay

  /**
    A search problem: the free cells, the start, the cost of a straight and of a diagonal step,
    and the heuristic estimate of the remaining cost.
  */
  datatype Problem = Problem(free: set<Cell>, start: Cell, straight: real, diagonal: real, h: Cell -> real)

  /** No single move lowers the estimate by more than its own cost. */
  ghost predicate Consistent(pb: Problem) {
    forall a, b :: RaySteps(a, b) == 1 ==> pb.h(a) <= StepCost(pb, a, b) + pb.h(b)
  }

  /**
    One legal move: between free cells that are neighbours, and for a diagonal move with both
    cells at the cut corner free as well.
  */
  predicate Move(free: set<Cell>, a: Cell, b: Cell) {
    && a in free && b in free
    && RaySteps(a, b) == 1
    && (a.x != b.x && a.y != b.y ==> Cell(b.x, a.y) in free && Cell(a.x, b.y) in free)
  }

  /** Every cell of `p` is reached from the one before it by a legal move. */
  predicate Moves(free: set<Cell>, p: seq<Cell>) {
    |p| <= 1 || (Moves(free, p[..|p| - 1]) && Move(free, p[|p| - 2], p[|p| - 1]))
  }

  lemma {:induction false} MoveAt(free: set<Cell>, p: seq<Cell>, i: nat)
    requires Moves(free, p) && i < |p| - 1
    ensures Move(free, p[i], p[i + 1])
    decreases |p|
  {
    if i < |p| - 2 {
      MoveAt(free, p[..|p| - 1], i);
    }
  }

  ghost predicate IsPath(free: set<Cell>, start: Cell, goal: Cell, p: seq<Cell>) {
    && |p| > 0 && p[0] == start && p[|p| - 1] == goal
    && start in free && Moves(free, p)
  }

  ghost predicate Reachable(free: set<Cell>, start: Cell, goal: Cell) {
    exists p :: IsPath(free, start, goal, p)
  }

  function StepCost(pb: Problem, a: Cell, b: Cell): real {
    if a.x != b.x && a.y != b.y then pb.diagonal else pb.straight
  }

  function PathCost(pb: Problem, p: seq<Cell>): real {
    if |p| <= 1 then 0.0 else PathCost(pb, p[..|p| - 1]) + StepCost(pb, p[|p| - 2], p[|p| - 1])
  }

  /** No legal path from the start to `goal` is cheaper than `cost`. */
  ghost predicate IsLowerBound(pb: Problem, goal: Cell, cost: real) {
    forall p :: IsPath(pb.free, pb.start, goal, p) ==> cost <= PathCost(pb, p)
  }

  /** `p` is a legal path and no legal path is cheaper. */
  ghost predicate IsShortest(pb: Problem, goal: Cell, p: seq<Cell>) {
    IsPath(pb.free, pb.start, goal, p) && IsLowerBound(pb, goal, PathCost(pb, p))
  }

  lemma ExtendPath(pb: Problem, a: Cell, b: Cell, p: seq<Cell>)
    requires IsPath(pb.free, pb.start, a, p) && Move(pb.free, a, b)
    ensures IsPath(pb.free, pb.start, b, p + [b])
    ensures PathCost(pb, p + [b]) == PathCost(pb, p) + StepCost(pb, a, b)
  {
    assert (p + [b])[..|p|] == p;
  }

  lemma ShortenPath(pb: Problem, b: Cell, p: seq<Cell>)
    requires IsPath(pb.free, pb.start, b, p) && |p| > 1
    ensures IsPath(pb.free, pb.start, p[|p| - 2], p[..|p| - 1]) && Move(pb.free, p[|p| - 2], b)
    ensures PathCost(pb, p) == PathCost(pb, p[..|p| - 1]) + StepCost(pb, p[|p| - 2], b)
  {
  }

  // ---------------------------------------------------------------------
  // State of the search
  // ---------------------------------------------------------------------

  /** Priority queue entry, ordered by `f` and then by insertion count. */
  datatype Entry = Entry(f: real, count: int, cell: Cell)

  /** The tables of one search. */
  datatype State = State(g: map<Cell, real>, cameFrom: map<Cell, Cell>, closed: set<Cell>, open: seq<Entry>)

  /** For proofs only: the path found so far to every scored cell. */
  type Paths = map<Cell, seq<Cell>>

  ghost predicate HasEntry(pb: Problem, s: State, c: Cell)
    requires c in s.g
  {
    exists e :: e in s.open && e.cell == c && e.f == s.g[c] + pb.h(c)
  }

  /** The score of `c` is the cost of a legal path to it. */
  ghost predicate ScoreHasPath(pb: Problem, s: State, paths: Paths, c: Cell) {
    c in s.g && c in paths && IsPath(pb.free, pb.start, c, paths[c]) && PathCost(pb, paths[c]) == s.g[c]
  }

  /** The path to `c` is the path to its predecessor, which is closed, and one more cell. */
  ghost predicate ExtendsPredecessor(s: State, paths: Paths, c: Cell) {
    && c in s.cameFrom && c in paths
    && s.cameFrom[c] in s.closed && s.cameFrom[c] in paths
    && paths[c] == paths[s.cameFrom[c]] + [c]
  }

  /** Scores, predecessors and paths describe the same legal paths. */
  ghost predicate PathsAgree(pb: Problem, s: State, paths: Paths) {
    && s.g.Keys == paths.Keys && pb.start in s.g && s.closed <= s.g.Keys
    && s.cameFrom.Keys == s.g.Keys - {pb.start}
    && (forall c :: c in s.g ==> ScoreHasPath(pb, s, paths, c))
    && (forall c :: c in s.cameFrom ==> ExtendsPredecessor(s, paths, c))
    && paths[pb.start] == [pb.start]
  }

  /** Every open score has its queue entry, and no entry promises less than the score. */
  ghost predicate QueueAgrees(pb: Problem, s: State) {
    && (forall c :: c in s.g && c !in s.closed ==> HasEntry(pb, s, c))
    && (forall e :: e in s.open ==> e.cell in s.g && e.f >= s.g[e.cell] + pb.h(e.cell))
  }

  /** The score of a closed cell is the least cost over all legal paths to it. */
  ghost predicate ClosedOptimal(pb: Problem, s: State) {
    forall c :: c in s.closed ==> c in s.g && IsLowerBound(pb, c, s.g[c])
  }

  /** The move from `a` to `b` has been accounted for in the scores. */
  predicate Relaxed(pb: Problem, s: State, a: Cell, b: Cell) {
    a in s.g && b in s.g && s.g[b] <= s.g[a] + StepCost(pb, a, b)
  }

  /** All legal moves out of the cells in `done` have been relaxed. */
  ghost predicate AllRelaxed(pb: Problem, s: State, done: set<Cell>) {
    forall a, b :: a in done && Move(pb.free, a, b) ==> Relaxed(pb, s, a, b)
  }

  /** The whole invariant; compared with `true` so that the verifier treats it as a single fact. */
  ghost predicate SearchInvariant(pb: Problem, s: State, paths: Paths, done: set<Cell>) {
    (&& PathsAgree(pb, s, paths)
     && QueueAgrees(pb, s)
     && ClosedOptimal(pb, s)
     && done <= s.closed
     && AllRelaxed(pb, s, done)) == true
  }

  // ---------------------------------------------------------------------
  // Why the search is optimal and complete
  // ---------------------------------------------------------------------

  /** Some open cell promises a total of at most `bound`. */
  ghost predicate FrontierWithin(pb: Problem, s: State, bound: real) {
    exists w :: w in s.g && w !in s.closed && s.g[w] + pb.h(w) <= bound
  }

  /**
    Either `v` is closed with a score of at most `cost`, or some open cell promises at most `cost`
    plus the estimate at `v`.
  */
  ghost predicate Bounded(pb: Problem, s: State, v: Cell, cost: real) {
    (v in s.closed && v in s.g && s.g[v] <= cost) || FrontierWithin(pb, s, cost + pb.h(v))
  }

  lemma BoundedAcrossMove(pb: Problem, s: State, u: Cell, v: Cell, cost: real)
    requires Consistent(pb) && AllRelaxed(pb, s, s.closed)
    requires Bounded(pb, s, u, cost) && Move(pb.free, u, v)
    ensures Bounded(pb, s, v, cost + StepCost(pb, u, v))
  {
    if u in s.closed && u in s.g && s.g[u] <= cost {
      assert Relaxed(pb, s, u, v);
    } else {
      var w :| w in s.g && w !in s.closed && s.g[w] + pb.h(w) <= cost + pb.h(u);
    }
  }

  /** The bound holds at the end of every legal path, with the cost of the path. */
  lemma {:induction false} FrontierBound(pb: Problem, s: State, v: Cell, p: seq<Cell>)
    requires Consistent(pb) && AllRelaxed(pb, s, s.closed)
    requires pb.start in s.g && s.g[pb.start] == 0.0
    requires IsPath(pb.free, pb.start, v, p)
    ensures Bounded(pb, s, v, PathCost(pb, p))
    decreases |p|
  {
    if |p| > 1 {
      ShortenPath(pb, v, p);
      FrontierBound(pb, s, p[|p| - 2], p[..|p| - 1]);
      BoundedAcrossMove(pb, s, p[|p| - 2], v, PathCost(pb, p[..|p| - 1]));
    }
  }

  /** A queue entry of least priority promises no more than any legal path to its cell costs. */
  lemma PoppedWithin(pb: Problem, s: State, e: Entry, p: seq<Cell>)
    requires Consistent(pb) && AllRelaxed(pb, s, s.closed) && QueueAgrees(pb, s)
    requires pb.start in s.g && s.g[pb.start] == 0.0
    requires e in s.open && e.cell !in s.closed
    requires forall o :: o in s.open ==> e.f <= o.f
    requires IsPath(pb.free, pb.start, e.cell, p)
    ensures s.g[e.cell] <= PathCost(pb, p)
  {
    FrontierBound(pb, s, e.cell, p);
    var w :| w in s.g && w !in s.closed && s.g[w] + pb.h(w) <= PathCost(pb, p) + pb.h(e.cell);
    assert HasEntry(pb, s, w);
  }

  /** A queue entry of least priority for an open cell carries that cell's true shortest cost. */
  lemma PoppedIsOptimal(pb: Problem, s: State, paths: Paths, e: Entry)
    requires Consistent(pb) && SearchInvariant(pb, s, paths, s.closed)
    requires e in s.open && e.cell !in s.closed
    requires forall o :: o in s.open ==> e.f <= o.f
    ensures IsLowerBound(pb, e.cell, s.g[e.cell])
  {
    assert ScoreHasPath(pb, s, paths, pb.start);
    assert s.g[pb.start] == PathCost(pb, paths[pb.start]) == 0.0;
    forall p | IsPath(pb.free, pb.start, e.cell, p)
      ensures s.g[e.cell] <= PathCost(pb, p)
    {
      PoppedWithin(pb, s, e, p);
    }
  }

  /** With the queue exhausted, every cell that can be reached is closed. */
  lemma {:induction false} ExhaustedClosesPath(pb: Problem, s: State, paths: Paths, v: Cell, p: seq<Cell>)
    requires SearchInvariant(pb, s, paths, s.closed) && s.open == []
    requires IsPath(pb.free, pb.start, v, p)
    ensures v in s.closed
    decreases |p|
  {
    if |p| > 1 {
      ShortenPath(pb, v, p);
      ExhaustedClosesPath(pb, s, paths, p[|p| - 2], p[..|p| - 1]);
      assert Relaxed(pb, s, p[|p| - 2], v);
    }
    assert v in s.closed || HasEntry(pb, s, v);
  }

  /** A closed cell is never improved: no further move into it is cheaper than its score. */
  lemma ClosedNotImproved(pb: Problem, s: State, paths: Paths, a: Cell, b: Cell)
    requires PathsAgree(pb, s, paths) && ClosedOptimal(pb, s)
    requires a in s.closed && b in s.closed && Move(pb.free, a, b)
    ensures s.g[b] <= s.g[a] + StepCost(pb, a, b)
  {
    assert ScoreHasPath(pb, s, paths, a);
    ExtendPath(pb, a, b, paths[a]);
  }

  /** The tables after giving `b` the score `t` through `a`. */
  function Improve(s: State, a: Cell, b: Cell, t: real, f: real, count: int): State {
    State(s.g[b := t], s.cameFrom[b := a], s.closed, s.open + [Entry(f, count, b)])
  }

  /** `t` is the better score that the move from `a` offers to `b`. */
  predicate Improves(pb: Problem, s: State, a: Cell, b: Cell, t: real) {
    && pb.start in s.closed && a in s.closed && Move(pb.free, a, b)
    && a in s.g && t == s.g[a] + StepCost(pb, a, b)
    && (b !in s.g || t < s.g[b])
  }

  lemma ImproveKeepsPaths(pb: Problem, s: State, paths: Paths, a: Cell, b: Cell, t: real, f: real, count: int)
    requires PathsAgree(pb, s, paths) && Improves(pb, s, a, b, t) && b !in s.closed
    ensures PathsAgree(pb, Improve(s, a, b, t, f, count), paths[b := paths[a] + [b]])
  {
    assert ScoreHasPath(pb, s, paths, a);
    ExtendPath(pb, a, b, paths[a]);
    var s', paths' := Improve(s, a, b, t, f, count), paths[b := paths[a] + [b]];
    forall c | c in s'.g
      ensures ScoreHasPath(pb, s', paths', c)
    {
      assert c == b || ScoreHasPath(pb, s, paths, c);
    }
    forall c | c in s'.cameFrom
      ensures ExtendsPredecessor(s', paths', c)
    {
      assert c == b || ExtendsPredecessor(s, paths, c);
    }
  }

  lemma ImproveKeepsQueue(pb: Problem, s: State, a: Cell, b: Cell, t: real, count: int)
    requires QueueAgrees(pb, s) && Improves(pb, s, a, b, t)
    ensures QueueAgrees(pb, Improve(s, a, b, t, t + pb.h(b), count))
  {
    var e := Entry(t + pb.h(b), count, b);
    var s' := Improve(s, a, b, t, t + pb.h(b), count);
    assert s'.open[|s.open|] == e;
    assert forall o :: o in s'.open <==> o in s.open || o == e;
    forall c | c in s'.g && c !in s'.closed
      ensures HasEntry(pb, s', c)
    {
      if c != b {
        assert HasEntry(pb, s, c);
      }
    }
  }

  lemma ImproveKeepsRelaxed(pb: Problem, s: State, done: set<Cell>, a: Cell, b: Cell, t: real, f: real, count: int)
    requires AllRelaxed(pb, s, done) && done <= s.closed
    requires Improves(pb, s, a, b, t) && b !in s.closed
    ensures AllRelaxed(pb, Improve(s, a, b, t, f, count), done)
    ensures Relaxed(pb, Improve(s, a, b, t, f, count), a, b)
    ensures forall n :: Relaxed(pb, s, a, n) ==> Relaxed(pb, Improve(s, a, b, t, f, count), a, n)
  {
  }

  /** An improved cell is still open, so the scores of closed cells stand. */
  lemma ImproveKeepsClosed(pb: Problem, s: State, paths: Paths, a: Cell, b: Cell, t: real, f: real, count: int)
    requires PathsAgree(pb, s, paths) && ClosedOptimal(pb, s) && Improves(pb, s, a, b, t)
    ensures b !in s.closed && ClosedOptimal(pb, Improve(s, a, b, t, f, count))
  {
    if b in s.closed {
      ClosedNotImproved(pb, s, paths, a, b);
    }
  }

  /** Improving the score of a neighbour keeps the invariant. */
  lemma ImprovePreserves(pb: Problem, s: State, paths: Paths, done: set<Cell>, a: Cell, b: Cell, t: real, count: int)
    requires SearchInvariant(pb, s, paths, done) && Improves(pb, s, a, b, t)
    ensures SearchInvariant(pb, Improve(s, a, b, t, t + pb.h(b), count), paths[b := paths[a] + [b]], done)
    ensures b !in s.closed
  {
    ImproveKeepsClosed(pb, s, paths, a, b, t, t + pb.h(b), count);
    ImproveKeepsPaths(pb, s, paths, a, b, t, t + pb.h(b), count);
    ImproveKeepsQueue(pb, s, a, b, t, count);
    ImproveKeepsRelaxed(pb, s, done, a, b, t, t + pb.h(b), count);
  }

  /**
    What the search does about one neighbour `b` of the cell `a` being expanded: nothing when the
    move is illegal or offers no better score, otherwise a new score and a new queue entry.
  */
  function RelaxMove(pb: Problem, s: State, a: Cell, b: Cell, count: int): (r: (State, int))
    requires a in s.g
    ensures r.0.closed == s.closed && a in r.0.g
  {
    var t := s.g[a] + StepCost(pb, a, b);
    if Move(pb.free, a, b) && (b !in s.g || t < s.g[b])
    then (Improve(s, a, b, t, t + pb.h(b), count + 1), count + 1)
    else (s, count)
  }

  lemma RelaxMoveCases(pb: Problem, s: State, a: Cell, b: Cell, t: real, count: int)
    requires a in s.g && t == s.g[a] + StepCost(pb, a, b)
    ensures RelaxMove(pb, s, a, b, count).0
            == if Move(pb.free, a, b) && (b !in s.g || t < s.g[b])
                then Improve(s, a, b, t, t + pb.h(b), count + 1) else s
  {
  }

  lemma RelaxMovePreserves(pb: Problem, s: State, paths: Paths, done: set<Cell>, a: Cell, b: Cell, count: int)
    returns (paths': Paths)
    requires SearchInvariant(pb, s, paths, done) && pb.start in s.closed && a in s.closed
    ensures SearchInvariant(pb, RelaxMove(pb, s, a, b, count).0, paths', done)
  {
    paths' := paths;
    var t := s.g[a] + StepCost(pb, a, b);
    if Move(pb.free, a, b) && (b !in s.g || t < s.g[b]) {
      ImprovePreserves(pb, s, paths, done, a, b, t, count + 1);
      paths' := paths[b := paths[a] + [b]];
    }
    RelaxMoveCases(pb, s, a, b, t, count);
  }

  lemma RelaxMoveRelaxes(pb: Problem, s: State, paths: Paths, done: set<Cell>, a: Cell, b: Cell, count: int)
    requires SearchInvariant(pb, s, paths, done) && pb.start in s.closed && a in s.closed
    ensures Move(pb.free, a, b) ==> Relaxed(pb, RelaxMove(pb, s, a, b, count).0, a, b)
    ensures forall n :: Relaxed(pb, s, a, n) ==> Relaxed(pb, RelaxMove(pb, s, a, b, count).0, a, n)
  {
    var t := s.g[a] + StepCost(pb, a, b);
    if Move(pb.free, a, b) && (b !in s.g || t < s.g[b]) {
      ImproveKeepsClosed(pb, s, paths, a, b, t, t + pb.h(b), count + 1);
      ImproveKeepsRelaxed(pb, s, done, a, b, t, t + pb.h(b), count + 1);
    }
  }

  /** Relaxing a list of neighbours one after the other. */
  function RelaxAll(pb: Problem, s: State, a: Cell, nbrs: seq<Cell>, count: int): (r: (State, int))
    requires a in s.g
    ensures r.0.closed == s.closed && a in r.0.g
  {
    if nbrs == [] then (s, count)
    else
      var (s', count') := RelaxAll(pb, s, a, nbrs[..|nbrs| - 1], count);
      RelaxMove(pb, s', a, nbrs[|nbrs| - 1], count')
  }

  lemma {:induction false} RelaxAllPreserves(pb: Problem, s: State, paths: Paths, done: set<Cell>, a: Cell,
                                             nbrs: seq<Cell>, count: int)
    returns (paths': Paths)
    requires SearchInvariant(pb, s, paths, done) && pb.start in s.closed && a in s.closed
    ensures SearchInvariant(pb, RelaxAll(pb, s, a, nbrs, count).0, paths', done)
    ensures forall b :: b in nbrs && Move(pb.free, a, b) ==> Relaxed(pb, RelaxAll(pb, s, a, nbrs, count).0, a, b)
    decreases |nbrs|
  {
    paths' := paths;
    if nbrs != [] {
      var front, last := nbrs[..|nbrs| - 1], nbrs[|nbrs| - 1];
      paths' := RelaxAllPreserves(pb, s, paths, done, a, front, count);
      var (s', count') := RelaxAll(pb, s, a, front, count);
      paths' := RelaxNext(pb, s', RelaxMove(pb, s', a, last, count').0, paths', done, a, front, last, count');
      assert nbrs == front + [last];
    }
  }

  lemma RelaxNext(pb: Problem, s: State, u: State, paths: Paths, done: set<Cell>, a: Cell, front: seq<Cell>, b: Cell,
                  count: int) returns (paths': Paths)
    requires SearchInvariant(pb, s, paths, done) && pb.start in s.closed && a in s.closed
    requires forall c :: c in front && Move(pb.free, a, c) ==> Relaxed(pb, s, a, c)
    requires u == RelaxMove(pb, s, a, b, count).0
    ensures SearchInvariant(pb, u, paths', done)
    ensures forall c :: c in front + [b] && Move(pb.free, a, c) ==> Relaxed(pb, u, a, c)
  {
    RelaxMoveRelaxes(pb, s, paths, done, a, b, count);
    paths' := RelaxMovePreserves(pb, s, paths, done, a, b, count);
  }

  /** Expanding a freshly closed cell over all its neighbours completes it. */
  lemma ExpandPreserves(pb: Problem, s: State, paths: Paths, done: set<Cell>, a: Cell, nbrs: seq<Cell>, count: int)
    returns (paths': Paths)
    requires SearchInvariant(pb, s, paths, done) && pb.start in s.closed && s.closed == done + {a}
    requires forall b :: RaySteps(a, b) == 1 ==> b in nbrs
    ensures SearchInvariant(pb, RelaxAll(pb, s, a, nbrs, count).0, paths', s.closed)
  {
    paths' := RelaxAllPreserves(pb, s, paths, done, a, nbrs, count);
    var s' := RelaxAll(pb, s, a, nbrs, count).0;
    forall c, b | c in s.closed && Move(pb.free, c, b)
      ensures Relaxed(pb, s', c, b)
    {
    }
  }

  /** Taking an entry out of the queue hurts no open cell other than its own. */
  lemma RemoveEntry(pb: Problem, s: State, e: Entry, rest: seq<Entry>, closed: set<Cell>)
    requires QueueAgrees(pb, s)
    requires forall o :: o in s.open <==> o == e || o in rest
    requires s.closed <= closed && e.cell in closed
    ensures QueueAgrees(pb, State(s.g, s.cameFrom, closed, rest))
  {
    var s' := State(s.g, s.cameFrom, closed, rest);
    forall c | c in s'.g && c !in s'.closed
      ensures HasEntry(pb, s', c)
    {
      assert HasEntry(pb, s, c);
      var o :| o in s.open && o.cell == c && o.f == s.g[c] + pb.h(c);
      assert o in rest;
    }
  }

  /** Closing the popped cell: its score is final, and its own moves are the only ones left to relax. */
  lemma ClosePreserves(pb: Problem, s: State, paths: Paths, e: Entry, rest: seq<Entry>)
    requires Consistent(pb) && SearchInvariant(pb, s, paths, s.closed)
    requires e in s.open && e.cell !in s.closed
    requires forall o :: o in s.open ==> e.f <= o.f
    requires forall o :: o in s.open <==> o == e || o in rest
    ensures SearchInvariant(pb, State(s.g, s.cameFrom, s.closed + {e.cell}, rest), paths, s.closed)
  {
    PoppedIsOptimal(pb, s, paths, e);
    RemoveEntry(pb, s, e, rest, s.closed + {e.cell});
  }

  /** Dropping a stale entry for a closed cell. */
  lemma SkipPreserves(pb: Problem, s: State, paths: Paths, e: Entry, rest: seq<Entry>)
    requires SearchInvariant(pb, s, paths, s.closed)
    requires e in s.open && e.cell in s.closed
    requires forall o :: o in s.open <==> o == e || o in rest
    ensures SearchInvariant(pb, State(s.g, s.cameFrom, s.closed, rest), paths, s.closed)
  {
    RemoveEntry(pb, s, e, rest, s.closed);
  }

  lemma InitialState(pb: Problem, f: real)
    requires pb.start in pb.free && f == 0.0 + pb.h(pb.start)
    ensures SearchInvariant(pb, StartState(pb.start, f), map[pb.start := [pb.start]], {})
  {
    var s := StartState(pb.start, f);
    assert s.open[0] in s.open;
    assert HasEntry(pb, s, pb.start);
  }

  function StartState(start: Cell, f: real): State {
    State(map[start := 0.0], map[], {}, [Entry(f, 0, start)])
  }

  /** Scored cells are free and carry a path. */
  lemma ScoredIsFree(pb: Problem, s: State, paths: Paths)
    requires PathsAgree(pb, s, paths)
    ensures s.closed <= s.g.Keys == paths.Keys <= pb.free
  {
    forall c | c in s.g
      ensures c in pb.free
    {
      assert ScoreHasPath(pb, s, paths, c);
    }
  }

  /** With the queue exhausted and the goal not closed, no legal path to the goal exists. */
  lemma ExhaustedMeansUnreachable(pb: Problem, s: State, paths: Paths, goal: Cell)
    requires SearchInvariant(pb, s, paths, s.closed) && s.open == [] && goal !in s.closed
    ensures !Reachable(pb.free, pb.start, goal)
  {
    forall p | IsPath(pb.free, pb.start, goal, p)
      ensures false
    {
      ExhaustedClosesPath(pb, s, paths, goal, p);
    }
  }

  /** The path of a closed goal is a shortest one. */
  lemma ClosedGoalIsShortest(pb: Problem, s: State, paths: Paths, done: set<Cell>, goal: Cell)
    requires SearchInvariant(pb, s, paths, done) && goal in s.closed
    ensures goal in s.g && goal in paths && IsShortest(pb, goal, paths[goal]) && s.g[goal] == PathCost(pb, paths[goal])
  {
    assert ScoreHasPath(pb, s, paths, goal);
  }
}
