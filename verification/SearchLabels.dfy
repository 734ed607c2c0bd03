/** What the labels of a best-first search mean: the invariants behind optimality and completeness. */
module SearchLabels {
  import opened GridMaps
  import opened GridPaths

  // The source's per-cell record. mask is set once the cell is closed.
  datatype Node = Node(mask: bool, g: int, h: int, x: int, y: int, px: int, py: int) {
    function Pos(): Cell { Cell(x, y) }
    function Parent(): Cell { Cell(px, py) }
    function F(): int { g + h }
  }

  type Labels = map<Cell, Node>
  type Estimate = Cell -> int

  // North, east, south, west, then the four diagonals.
  const OFFSET: seq<(int, int)> := [(0, -1), (1, 0), (0, 1), (-1, 0), (1, -1), (1, 1), (-1, 1), (-1, -1)]

  function Neighbour(c: Cell, dir: int): Cell
    requires 0 <= dir < 8
  {
    Cell(c.x + OFFSET[dir].0, c.y + OFFSET[dir].1)
  }

  lemma NeighbourIsAdjacent(c: Cell, dir: int)
    requires 0 <= dir < 8
    ensures Adjacent(c, Neighbour(c, dir))
    ensures StepCost(c, Neighbour(c, dir)) == if dir < 4 then STRAIGHT else DIAGONAL
  {
  }

  /** The eight directions reach every adjacent cell. */
  lemma DirectionsComplete(c: Cell, d: Cell) returns (dir: int)
    requires Adjacent(c, d)
    ensures 0 <= dir < 8 && Neighbour(c, dir) == d
  {
    dir := match (d.x - c.x, d.y - c.y)
      case (0, -1) => 0
      case (1, 0) => 1
      case (0, 1) => 2
      case (-1, 0) => 3
      case (1, -1) => 4
      case (1, 1) => 5
      case (-1, 1) => 6
      case _ => 7;
  }

  function F(nodes: Labels, est: Estimate, c: Cell): int
    requires c in nodes
  {
    nodes[c].g + est(c)
  }

  ghost predicate HasParent(nodes: Labels, c: Cell)
    requires c in nodes
  {
    var p := nodes[c].Parent();
    p in nodes && nodes[p].mask && Adjacent(p, c) && nodes[c].g == nodes[p].g + StepCost(p, c)
  }

  /** Every label is the cost of a real way from the start, which the parent links spell out. */
  ghost predicate Tree(walk: set<Cell>, start: Cell, nodes: Labels) {
    && nodes.Keys <= walk
    && start in nodes && nodes[start].g == 0
    && (forall c | c in nodes :: nodes[c].Pos() == c && nodes[c].g >= 0)
    && (forall c | c in nodes && c != start :: HasParent(nodes, c))
  }

  ghost predicate Relaxed(nodes: Labels, u: Cell, v: Cell)
    requires u in nodes
  {
    v in nodes && nodes[v].g <= nodes[u].g + StepCost(u, v)
  }

  ghost predicate Settled(walk: set<Cell>, nodes: Labels, u: Cell)
    requires u in nodes
  {
    forall v | v in walk && Adjacent(u, v) :: Relaxed(nodes, u, v)
  }

  ghost predicate ClosedAtMost(nodes: Labels, est: Estimate, bound: int) {
    forall u | u in nodes && nodes[u].mask :: F(nodes, est, u) <= bound
  }

  ghost predicate OpenAtLeast(nodes: Labels, est: Estimate, bound: int) {
    forall v | v in nodes && !nodes[v].mask :: F(nodes, est, v) >= bound
  }

  ghost predicate Common(walk: set<Cell>, start: Cell, goal: Cell, est: Estimate, nodes: Labels) {
    && Consistent(est, goal)
    && Tree(walk, start, nodes)
    && (forall c | c in nodes && c != start && !nodes[c].mask :: nodes[c].h == est(c))
    && (goal in nodes ==> !nodes[goal].mask)
  }

  /** Between two expansions: closed cells cost no more than open ones, and all their edges are relaxed. */
  ghost predicate Frontier(walk: set<Cell>, start: Cell, goal: Cell, est: Estimate, nodes: Labels) {
    && Common(walk, start, goal, est, nodes)
    && (!nodes[start].mask ==> nodes.Keys == {start})
    && (forall u | u in nodes && nodes[u].mask :: Settled(walk, nodes, u))
    && (forall u, v | u in nodes && v in nodes && nodes[u].mask && !nodes[v].mask :: F(nodes, est, u) <= F(nodes, est, v))
  }

  /** Once the start is closed every open cell carries its estimate. */
  lemma OpenEstimated(walk: set<Cell>, start: Cell, goal: Cell, est: Estimate, nodes: Labels)
    requires Frontier(walk, start, goal, est, nodes) && start in nodes && nodes[start].mask
    ensures forall c | c in nodes && !nodes[c].mask :: nodes[c].h == est(c)
  {
  }

  /** While cell p is being expanded and its first `dirs` directions are done. */
  ghost predicate Expanding(walk: set<Cell>, start: Cell, goal: Cell, est: Estimate, nodes: Labels, p: Cell, dirs: int)
    requires 0 <= dirs <= 8
  {
    && Common(walk, start, goal, est, nodes)
    && nodes[start].mask
    && p in nodes && nodes[p].mask
    && ClosedAtMost(nodes, est, F(nodes, est, p))
    && OpenAtLeast(nodes, est, F(nodes, est, p))
    && (forall u | u in nodes && nodes[u].mask && u != p :: Settled(walk, nodes, u))
    && (forall dir | 0 <= dir < dirs :: Neighbour(p, dir) in walk ==> Relaxed(nodes, p, Neighbour(p, dir)))
  }

  lemma ExpandingTree(walk: set<Cell>, start: Cell, goal: Cell, est: Estimate, nodes: Labels, p: Cell, dirs: int)
    requires 0 <= dirs <= 8 && Expanding(walk, start, goal, est, nodes, p, dirs)
    ensures Tree(walk, start, nodes) && p in nodes && nodes[p].mask
  {
  }

  function Close(nodes: Labels, p: Cell): Labels
    requires p in nodes
  {
    nodes[p := nodes[p].(mask := true)]
  }

  /** The source's treatment of one walkable neighbour c of p. */
  function Relax(nodes: Labels, p: Cell, c: Cell, step: int, h: int): Labels
    requires p in nodes
  {
    var g := nodes[p].g + step;
    if c !in nodes then nodes[c := Node(false, g, h, c.x, c.y, p.x, p.y)]
    else if nodes[c].mask then nodes
    else if g + h < nodes[c].g + nodes[c].h then nodes[c := nodes[c].(g := g, h := h, px := p.x, py := p.y)]
    else nodes
  }

  /** Lowering labels cannot unsettle a cell whose own label stays. */
  lemma SettledStays(walk: set<Cell>, nodes: Labels, after: Labels, u: Cell)
    requires u in nodes && u in after && after[u].g == nodes[u].g
    requires nodes.Keys <= after.Keys && forall v | v in nodes :: after[v].g <= nodes[v].g
    requires Settled(walk, nodes, u)
    ensures Settled(walk, after, u)
  {
    forall v | v in walk && Adjacent(u, v)
      ensures Relaxed(after, u, v)
    {
      assert Relaxed(nodes, u, v);
    }
  }

  lemma CloseKeepsTree(walk: set<Cell>, start: Cell, nodes: Labels, p: Cell)
    requires Tree(walk, start, nodes) && p in nodes
    ensures Tree(walk, start, Close(nodes, p))
  {
    var after := Close(nodes, p);
    forall c | c in after && c != start
      ensures HasParent(after, c)
    {
      assert HasParent(nodes, c);
    }
  }

  lemma CloseKeeps(walk: set<Cell>, start: Cell, goal: Cell, est: Estimate, nodes: Labels, p: Cell)
    requires Frontier(walk, start, goal, est, nodes)
    requires p in nodes && !nodes[p].mask && p != goal
    requires OpenAtLeast(nodes, est, F(nodes, est, p))
    ensures Expanding(walk, start, goal, est, Close(nodes, p), p, 0)
  {
    var after := Close(nodes, p);
    CloseKeepsTree(walk, start, nodes, p);
    assert forall c | c in nodes :: F(after, est, c) == F(nodes, est, c);
    forall u | u in after && after[u].mask && u != p
      ensures Settled(walk, after, u)
    {
      SettledStays(walk, nodes, after, u);
    }
  }

  /** A closed neighbour needs no second look: consistency already gave it a label at least as good. */
  lemma ClosedIsRelaxed(est: Estimate, goal: Cell, nodes: Labels, p: Cell, c: Cell)
    requires Consistent(est, goal)
    requires p in nodes && c in nodes && Adjacent(p, c)
    requires F(nodes, est, c) <= F(nodes, est, p)
    ensures Relaxed(nodes, p, c)
  {
  }

  lemma RelaxKeepsTree(walk: set<Cell>, start: Cell, est: Estimate, nodes: Labels, p: Cell, c: Cell)
    requires Tree(walk, start, nodes)
    requires nodes[start].mask
    requires p in nodes && nodes[p].mask && c in walk && Adjacent(p, c)
    ensures Tree(walk, start, Relax(nodes, p, c, StepCost(p, c), est(c)))
  {
    var after := Relax(nodes, p, c, StepCost(p, c), est(c));
    forall d | d in after && d != start
      ensures HasParent(after, d)
    {
      if d != c {
        assert HasParent(nodes, d);
      } else if c in nodes {
        assert HasParent(nodes, c);
      }
    }
  }

  lemma RelaxKeepsBounds(goal: Cell, est: Estimate, nodes: Labels, p: Cell, c: Cell)
    requires Consistent(est, goal) && Adjacent(p, c) && p in nodes && nodes[p].mask
    requires ClosedAtMost(nodes, est, F(nodes, est, p))
    requires OpenAtLeast(nodes, est, F(nodes, est, p))
    ensures var after := Relax(nodes, p, c, StepCost(p, c), est(c));
            ClosedAtMost(after, est, F(after, est, p)) && OpenAtLeast(after, est, F(after, est, p))
  {
    var after := Relax(nodes, p, c, StepCost(p, c), est(c));
    assert est(p) <= StepCost(p, c) + est(c);
    forall v | v in after && !after[v].mask
      ensures F(after, est, v) >= F(after, est, p)
    {
      if v != c {
        assert F(nodes, est, v) >= F(nodes, est, p);
      }
    }
  }

  lemma RelaxRelaxes(goal: Cell, est: Estimate, nodes: Labels, p: Cell, c: Cell)
    requires Consistent(est, goal) && Adjacent(p, c) && p in nodes && nodes[p].mask
    requires ClosedAtMost(nodes, est, F(nodes, est, p))
    requires c in nodes && !nodes[c].mask ==> nodes[c].h == est(c)
    ensures var after := Relax(nodes, p, c, StepCost(p, c), est(c));
            && Relaxed(after, p, c)
            && nodes.Keys <= after.Keys
            && (forall v | v in nodes :: after[v].g <= nodes[v].g)
            && (forall v | v in nodes && nodes[v].mask :: after[v] == nodes[v])
  {
    if c in nodes && nodes[c].mask {
      assert F(nodes, est, c) <= F(nodes, est, p);
      ClosedIsRelaxed(est, goal, nodes, p, c);
    }
  }

  lemma RelaxKeeps(walk: set<Cell>, start: Cell, goal: Cell, est: Estimate, nodes: Labels, p: Cell, dirs: int)
    requires 0 <= dirs < 8
    requires Expanding(walk, start, goal, est, nodes, p, dirs)
    requires Neighbour(p, dirs) in walk
    ensures var c := Neighbour(p, dirs);
            Expanding(walk, start, goal, est, Relax(nodes, p, c, StepCost(p, c), est(c)), p, dirs + 1)
  {
    var c := Neighbour(p, dirs);
    NeighbourIsAdjacent(p, dirs);
    var after := Relax(nodes, p, c, StepCost(p, c), est(c));
    RelaxKeepsTree(walk, start, est, nodes, p, c);
    RelaxRelaxes(goal, est, nodes, p, c);
    RelaxKeepsBounds(goal, est, nodes, p, c);
    forall u | u in after && after[u].mask && u != p
      ensures Settled(walk, after, u)
    {
      SettledStays(walk, nodes, after, u);
    }
    forall dir | 0 <= dir < dirs + 1 && Neighbour(p, dir) in walk
      ensures Relaxed(after, p, Neighbour(p, dir))
    {
      if dir < dirs {
        assert Relaxed(nodes, p, Neighbour(p, dir));
      }
    }
  }

  lemma SkipKeeps(walk: set<Cell>, start: Cell, goal: Cell, est: Estimate, nodes: Labels, p: Cell, dirs: int)
    requires 0 <= dirs < 8
    requires Expanding(walk, start, goal, est, nodes, p, dirs)
    requires Neighbour(p, dirs) !in walk
    ensures Expanding(walk, start, goal, est, nodes, p, dirs + 1)
  {
  }

  lemma ExpansionDone(walk: set<Cell>, start: Cell, goal: Cell, est: Estimate, nodes: Labels, p: Cell)
    requires Expanding(walk, start, goal, est, nodes, p, 8)
    ensures Frontier(walk, start, goal, est, nodes)
    ensures start in nodes && nodes[start].mask
  {
    forall v | v in walk && Adjacent(p, v)
      ensures Relaxed(nodes, p, v)
    {
      var dir := DirectionsComplete(p, v);
    }
  }

  /** Continuing from any closed cell, no way to the goal undercuts the best open label. */
  lemma {:induction false} NoCheaperWay(walk: set<Cell>, start: Cell, goal: Cell, est: Estimate, nodes: Labels, q: seq<Cell>, bound: int)
    requires Frontier(walk, start, goal, est, nodes)
    requires OpenAtLeast(nodes, est, bound)
    requires IsPath(walk, q) && q[|q| - 1] == goal
    requires q[0] in nodes
    ensures nodes[q[0]].g + Cost(q) >= bound
  {
    if !nodes[q[0]].mask {
      Admissible(walk, q, est, goal);
    } else {
      assert Adjacent(q[0], q[1]) && q[1] in walk;
      assert Settled(walk, nodes, q[0]);
      assert Relaxed(nodes, q[0], q[1]);
      NoCheaperWay(walk, start, goal, est, nodes, q[1..], bound);
    }
  }

  /** With no open cell left, the closed cells are all that can be reached. */
  lemma {:induction false} ClosedUnderSteps(walk: set<Cell>, start: Cell, goal: Cell, est: Estimate, nodes: Labels, q: seq<Cell>)
    requires Frontier(walk, start, goal, est, nodes)
    requires forall c | c in nodes :: nodes[c].mask
    requires IsPath(walk, q) && q[0] in nodes
    ensures q[|q| - 1] in nodes
  {
    if |q| > 1 {
      assert Settled(walk, nodes, q[0]);
      assert Relaxed(nodes, q[0], q[1]);
      ClosedUnderSteps(walk, start, goal, est, nodes, q[1..]);
    }
  }

  /** Every labelled cell is reachable. */
  lemma {:induction false} LabelledIsReachable(walk: set<Cell>, start: Cell, nodes: Labels, c: Cell)
    requires Tree(walk, start, nodes) && c in nodes
    ensures Reachable(walk, start, c)
    decreases nodes[c].g
  {
    if c == start {
      assert Connects(walk, [start], start, start);
    } else {
      assert HasParent(nodes, c);
      LabelledIsReachable(walk, start, nodes, nodes[c].Parent());
      ReachableStep(walk, start, nodes[c].Parent(), c);
    }
  }
}
