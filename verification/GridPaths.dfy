/** Eight-neighbour paths over a set of walkable cells, their cost, and the octile estimate of it. */
module GridPaths {
  import opened GridMaps

  // The cost of a straight and of a diagonal step (D and DD in a_star.cpp).
  const STRAIGHT := 10
  const DIAGONAL := 14

  predicate Adjacent(a: Cell, b: Cell) {
    a != b && -1 <= a.x - b.x <= 1 && -1 <= a.y - b.y <= 1
  }

  function StepCost(a: Cell, b: Cell): int {
    if a.x == b.x || a.y == b.y then STRAIGHT else DIAGONAL
  }

  ghost predicate IsPath(walk: set<Cell>, p: seq<Cell>) {
    && |p| > 0
    && (forall i :: 0 <= i < |p| ==> p[i] in walk)
    && (forall i :: 0 < i < |p| ==> Adjacent(p[i - 1], p[i]))
  }

  ghost predicate Connects(walk: set<Cell>, p: seq<Cell>, a: Cell, b: Cell) {
    IsPath(walk, p) && p[0] == a && p[|p| - 1] == b
  }

  function Cost(p: seq<Cell>): int {
    if |p| <= 1 then 0 else StepCost(p[0], p[1]) + Cost(p[1..])
  }

  ghost predicate Reachable(walk: set<Cell>, a: Cell, b: Cell) {
    exists p :: Connects(walk, p, a, b)
  }

  ghost function ReachableSet(walk: set<Cell>, a: Cell): set<Cell> {
    set c | c in walk && Reachable(walk, a, c)
  }

  /** A cheapest way from a to b. */
  ghost predicate IsShortest(walk: set<Cell>, p: seq<Cell>, a: Cell, b: Cell) {
    && Connects(walk, p, a, b)
    && forall q :: Connects(walk, q, a, b) ==> Cost(p) <= Cost(q)
  }

  function Abs(n: int): int { if n < 0 then -n else n }

  /** The octile distance, computed as the source computes it. */
  function Diagonal(c: Cell, goal: Cell): int {
    var dx, dy := Abs(c.x - goal.x), Abs(c.y - goal.y);
    STRAIGHT * (dx + dy) + (DIAGONAL - 2 * STRAIGHT) * (if dx < dy then dx else dy)
  }

  /** An estimate of the way to the goal that never drops by more than the step taken. */
  ghost predicate Consistent(est: Cell -> int, goal: Cell) {
    est(goal) == 0 && forall a, b | Adjacent(a, b) :: est(a) <= StepCost(a, b) + est(b)
  }

  ghost function Octile(goal: Cell): Cell -> int {
    c => Diagonal(c, goal)
  }

  lemma DiagonalStep(a: Cell, b: Cell, goal: Cell)
    requires Adjacent(a, b)
    ensures Diagonal(a, goal) <= StepCost(a, b) + Diagonal(b, goal)
  {
    CoordinateStep(a.x, b.x, goal.x);
    CoordinateStep(a.y, b.y, goal.y);
    hide Abs;
    LongSide(a, goal);
    LongSide(b, goal);
    hide Diagonal;
  }

  /** Ten for the longer side and four for the shorter one. */
  lemma LongSide(c: Cell, goal: Cell)
    ensures var dx, dy := Abs(c.x - goal.x), Abs(c.y - goal.y);
            Diagonal(c, goal) == if dx < dy then 4 * dx + 10 * dy else 10 * dx + 4 * dy
  {
  }

  lemma CoordinateStep(p: int, q: int, goal: int)
    requires -1 <= p - q <= 1
    ensures -1 <= Abs(p - goal) - Abs(q - goal) <= 1 && (p == q ==> Abs(p - goal) == Abs(q - goal))
  {
  }

  /** The octile distance is a consistent estimate. */
  lemma OctileConsistent(goal: Cell)
    ensures Consistent(Octile(goal), goal)
  {
    var est := Octile(goal);
    forall a, b | Adjacent(a, b)
      ensures est(a) <= StepCost(a, b) + est(b)
    {
      DiagonalStep(a, b, goal);
    }
  }

  /** A consistent estimate never exceeds the cost of any way to the goal: it is admissible. */
  lemma {:induction false} Admissible(walk: set<Cell>, p: seq<Cell>, est: Cell -> int, goal: Cell)
    requires Consistent(est, goal)
    requires IsPath(walk, p) && p[|p| - 1] == goal
    ensures est(p[0]) <= Cost(p)
  {
    if |p| > 1 {
      assert Adjacent(p[0], p[1]);
      Admissible(walk, p[1..], est, goal);
    }
  }

  /** The octile distance is attained when the box spanned by a and the goal is free of obstacles. */
  lemma {:induction false} DiagonalAttained(walk: set<Cell>, a: Cell, goal: Cell) returns (p: seq<Cell>)
    requires Box(a, goal) <= walk
    ensures Connects(walk, p, a, goal) && Cost(p) == Diagonal(a, goal)
    decreases Abs(a.x - goal.x) + Abs(a.y - goal.y)
  {
    assert a in Box(a, goal);
    if a == goal {
      p := [a];
    } else {
      var next := Toward(a, goal);
      TowardIsStep(a, goal);
      assert Box(next, goal) <= Box(a, goal);
      var rest := DiagonalAttained(walk, next, goal);
      PathCons(walk, a, rest);
      p := [a] + rest;
    }
  }

  function Toward(a: Cell, goal: Cell): Cell {
    Cell(a.x + Sign(goal.x - a.x), a.y + Sign(goal.y - a.y))
  }

  lemma TowardIsStep(a: Cell, goal: Cell)
    requires a != goal
    ensures Adjacent(a, Toward(a, goal))
    ensures Diagonal(a, goal) == StepCost(a, Toward(a, goal)) + Diagonal(Toward(a, goal), goal)
  {
    var b := Toward(a, goal);
    assert Abs(b.x - goal.x) == if a.x == goal.x then 0 else Abs(a.x - goal.x) - 1;
    assert Abs(b.y - goal.y) == if a.y == goal.y then 0 else Abs(a.y - goal.y) - 1;
  }

  function Sign(n: int): int { if n < 0 then -1 else if n > 0 then 1 else 0 }

  ghost function Box(a: Cell, b: Cell): set<Cell> {
    var (x0, x1) := if a.x < b.x then (a.x, b.x) else (b.x, a.x);
    var (y0, y1) := if a.y < b.y then (a.y, b.y) else (b.y, a.y);
    set x, y | x0 <= x <= x1 && y0 <= y <= y1 :: Cell(x, y)
  }

  /** Prepending a step to a path. */
  lemma PathCons(walk: set<Cell>, a: Cell, p: seq<Cell>)
    requires IsPath(walk, p) && a in walk && Adjacent(a, p[0])
    ensures IsPath(walk, [a] + p) && Cost([a] + p) == StepCost(a, p[0]) + Cost(p)
  {
    assert ([a] + p)[1..] == p;
  }

  /** Appending a step to a path. */
  lemma {:induction false} PathSnoc(walk: set<Cell>, p: seq<Cell>, c: Cell)
    requires IsPath(walk, p) && c in walk && Adjacent(p[|p| - 1], c)
    ensures IsPath(walk, p + [c]) && Cost(p + [c]) == Cost(p) + StepCost(p[|p| - 1], c)
  {
    if |p| == 1 {
      assert (p + [c])[1..] == [c];
    } else {
      assert (p + [c])[1..] == p[1..] + [c];
      PathSnoc(walk, p[1..], c);
    }
  }

  /** Being reachable spreads over walkable neighbours. */
  lemma ReachableStep(walk: set<Cell>, a: Cell, b: Cell, c: Cell)
    requires Reachable(walk, a, b) && c in walk && Adjacent(b, c)
    ensures Reachable(walk, a, c)
  {
    var p :| Connects(walk, p, a, b);
    PathSnoc(walk, p, c);
    assert Connects(walk, p + [c], a, c);
  }
}
