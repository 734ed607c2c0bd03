/** The grid path finder (engine/src/scene/a_star.cpp). */
module AStars {
  import opened GridMaps
  import opened GridPaths
  import opened SearchLabels
  import opened SearchViews
  import opened Sequences

  // Backtracing gives up once the path holds this many numbers.
  const PATH_LIMIT := 1024000

  datatype Outcome = Found | NotFound | Overrun

  /** The path as the source stores it: goal first, two numbers a cell. */
  function Flatten(p: seq<Cell>): seq<int> {
    if p == [] then [] else Flatten(p[1..]) + [p[0].x, p[0].y]
  }

  lemma {:induction false} FlattenLength(p: seq<Cell>)
    ensures |Flatten(p)| == 2 * |p|
  {
    if p != [] {
      FlattenLength(p[1..]);
    }
  }

  /** The stored numbers read backwards are the path. */
  lemma {:induction false} FlattenAt(p: seq<Cell>, k: nat)
    requires k < |p|
    ensures |Flatten(p)| == 2 * |p|
    ensures Flatten(p)[2 * k] == p[|p| - 1 - k].x && Flatten(p)[2 * k + 1] == p[|p| - 1 - k].y
  {
    FlattenLength(p);
    FlattenLength(p[1..]);
    if k < |p| - 1 {
      FlattenAt(p[1..], k);
    }
  }

  /** A map that GridMap.Set accepts, yet too large for the slot table. */
  method LegalMapOverruns() returns (r: Outcome)
    ensures r == Overrun
  {
    var terrain := new GridMap();
    var ok := terrain.Set(1, 129, 128);
    ok := terrain.Fill(0, 0, 0);
    var finder := new AStar();
    ghost var p;
    r, p := finder.Search(terrain, 0, 0, 0, 0);
  }

  lemma ShortestMeansReachable(walk: set<Cell>, p: seq<Cell>, a: Cell, b: Cell)
    requires IsShortest(walk, p, a, b)
    ensures Reachable(walk, a, b)
  {
  }

  class AStar {
    var nodeSet: array?<Ref>
    var nodePool: array?<Node>
    var path: seq<int>
    var openSet: seq<nat>
    var setMax: int
    var poolMax: int
    var poolIdx: nat

    // The labels of the running search, and the pool index of each labelled cell.
    ghost var nodes: Labels
    ghost var slots: map<Cell, nat>

    /** What holds between searches. The slot table has DEFAULT_SET entries, whatever setMax says. */
    ghost predicate Valid()
      reads this
    {
      && (nodeSet == null ==> setMax == 0)
      && (nodeSet != null ==> nodeSet.Length == DEFAULT_SET && DEFAULT_SET <= setMax)
      && (nodePool == null ==> poolMax == 0)
      && (nodePool != null ==> nodePool.Length == DEFAULT_POOL == poolMax)
    }

    ghost predicate Ready()
      reads this
    {
      Valid() && nodeSet != null && nodePool != null && poolIdx <= poolMax
    }

    ghost function Now(): View
      requires Ready()
      reads this, nodePool, nodeSet
    {
      View(nodePool[..poolIdx], nodeSet[..], openSet, nodes, slots)
    }

    ghost predicate Cleared(width: int, height: int)
      reads this, nodeSet
    {
      && poolIdx == 0 && openSet == []
      && nodeSet != null && width * height <= nodeSet.Length
      && forall k | 0 <= k < width * height :: nodeSet[k] == Null
    }

    constructor ()
      ensures Valid() && nodeSet == null && nodePool == null && path == []
    {
      nodeSet, nodePool := null, null;
      setMax, poolMax, poolIdx := 0, 0, 0;
      path, openSet := [], [];
      nodes, slots := map[], map[];
    }

    /** Takes the next node of the pool, if there is one left. */
    method NewNode(x: int, y: int, px: int, py: int) returns (r: Ref)
      requires Ready()
      modifies this`poolIdx, nodePool
      ensures Ready()
      ensures old(poolIdx) >= poolMax ==> r == Null && Now() == old(Now())
      ensures old(poolIdx) < poolMax ==>
                && r == At(old(poolIdx))
                && Now() == old(Now()).(pool := old(Now().pool) + [Node(false, 0, 0, x, y, px, py)])
    {
      if poolIdx >= poolMax {
        return Null;
      }
      r := At(poolIdx);
      nodePool[poolIdx] := Node(false, 0, 0, x, y, px, py);
      poolIdx := poolIdx + 1;
    }

    /** Overwrites a pool node in place. */
    method SetNode(i: nat, n: Node)
      requires Ready() && i < poolIdx
      modifies this`nodes, nodePool
      ensures Ready() && Now() == Overwrite(old(Now()), i, n)
    {
      nodePool[i] := n;
      nodes := nodes[n.Pos() := n];
    }

    /** Takes the first of the cheapest open nodes out of the open vector. */
    method PopOpenSet() returns (r: Ref, ghost k: nat)
      requires nodePool != null && forall j | 0 <= j < |openSet| :: openSet[j] < nodePool.Length
      modifies this`openSet
      ensures old(openSet) == [] ==> r == Null && openSet == []
      ensures old(openSet) != [] ==>
                && k < |old(openSet)| && r == At(old(openSet)[k]) && openSet == SwapRemove(old(openSet), k)
                && (forall j | 0 <= j < |old(openSet)| :: nodePool[r.index].F() <= nodePool[old(openSet)[j]].F())
                && (forall j | 0 <= j < k :: nodePool[r.index].F() < nodePool[old(openSet)[j]].F())
    {
      r, k := Null, 0;
      if |openSet| == 0 {
        return;
      }
      var parentF, parentIdx := -1, -1;
      for idx := 0 to |openSet|
        invariant idx > 0 ==> 0 <= parentIdx < idx && r == At(openSet[parentIdx]) && parentF == nodePool[r.index].F()
        invariant idx == 0 ==> r == Null
        invariant forall j | 0 <= j < idx :: parentF <= nodePool[openSet[j]].F()
        invariant parentIdx < idx && forall j | 0 <= j < parentIdx :: parentF < nodePool[openSet[j]].F()
      {
        var nd := openSet[idx];
        var f := nodePool[nd].g + nodePool[nd].h;
        if r == Null || parentF > f {
          r, parentIdx, parentF := At(nd), idx, f;
        }
      }
      k := parentIdx;
      openSet := openSet[parentIdx := openSet[|openSet| - 1]];
      openSet := openSet[..|openSet| - 1];
    }

    /** Labels a cell for the first time, if the pool has a node left. */
    method Discover(x: int, y: int, g: int, h: int, px: int, py: int, idx: nat) returns (refused: bool)
      requires Ready() && idx < DEFAULT_SET
      modifies this`nodes, this`slots, this`poolIdx, this`openSet, nodePool, nodeSet
      ensures Ready()
      ensures refused <==> old(poolIdx) == poolMax
      ensures refused ==> Now() == old(Now())
      ensures !refused ==> Now() == Append(old(Now()), Node(false, g, h, x, y, px, py), idx)
    {
      ghost var before := Now();
      var child := NewNode(x, y, px, py);
      if child == Null {
        return true;
      }
      var i := child.index;
      nodePool[i] := nodePool[i].(g := g, h := h);
      nodeSet[idx] := child;
      openSet := openSet + [i];
      nodes, slots := nodes[Cell(x, y) := nodePool[i]], slots[Cell(x, y) := i];
      assert Now().pool == before.pool + [Node(false, g, h, x, y, px, py)];
      return false;
    }

    ghost predicate Relabelled(before: Labels, after: Labels, p: Cell, c: Cell, step: int, goal: Cell) {
      p in before && after == Relax(before, p, c, step, Diagonal(c, goal))
    }

    /** Looks at walkable cell (cx, cy), `step` away from a freshly closed parent. */
    method VisitWalkable(parent: nat, cx: int, cy: int, step: int, dx: int, dy: int, width: int, height: int)
      returns (refused: bool)
      requires 0 <= cx < width && 0 <= cy < height
      requires Ready() && Rep(Now(), width, height, {})
      requires parent < poolIdx && nodePool[parent].mask
      modifies this`nodes, this`slots, this`poolIdx, this`openSet, nodePool, nodeSet
      ensures Ready() && Rep(Now(), width, height, {})
      ensures parent < poolIdx && nodePool[parent] == old(nodePool[parent])
      ensures refused ==> Cell(cx, cy) !in nodes && |nodes| == DEFAULT_POOL && nodes == old(nodes)
      ensures !refused ==> Relabelled(old(nodes), nodes, old(nodePool[parent].Pos()), Cell(cx, cy), step, Cell(dx, dy))
    {
      hide Rep;
      ghost var before := Now();
      var px, py := nodePool[parent].x, nodePool[parent].y;
      assert before.pool[parent] == nodePool[parent];
      RepNode(before, width, height, {}, parent);
      RepSize(before, width, height, {});
      RepLookup(before, width, height, {}, cx, cy);
      var idx := cx * height + cy;
      var child := nodeSet[idx];
      if child != Null && nodePool[child.index].mask {
        return false;
      }
      var g := nodePool[parent].g + step;
      var h := Diagonal(Cell(cx, cy), Cell(dx, dy));
      if child == Null {
        if poolIdx < poolMax {
          AppendKeepsRep(before, width, height, Node(false, g, h, cx, cy, px, py));
        }
        refused := Discover(cx, cy, g, h, px, py, idx);
        assert Now().pool[parent] == before.pool[parent];
      } else {
        refused := false;
        if g + h < nodePool[child.index].g + nodePool[child.index].h {
          var n := nodePool[child.index].(g := g, h := h, px := px, py := py);
          ImproveKeepsRep(before, width, height, child.index, n);
          SetNode(child.index, n);
          assert Now().pool[parent] == before.pool[parent];
        }
      }
    }

    /** One round of the direction loop keeps what an expansion maintains. */
    method ExpandDirection(terrain: GridMap, ghost walk: set<Cell>, ghost start: Cell, parent: nat, dir: int, dx: int, dy: int)
      returns (refused: bool)
      requires terrain.Valid() && terrain.Walkable() == walk
      requires Ready() && Rep(Now(), terrain.width, terrain.height, {})
      requires parent < poolIdx && nodePool[parent].mask && 0 <= dir < 8
      requires Expanding(walk, start, Cell(dx, dy), Octile(Cell(dx, dy)), nodes, nodePool[parent].Pos(), dir)
      modifies this`nodes, this`slots, this`poolIdx, this`openSet, nodePool, nodeSet
      ensures Ready() && Rep(Now(), terrain.width, terrain.height, {})
      ensures parent < poolIdx && nodePool[parent] == old(nodePool[parent])
      ensures refused ==> |ReachableSet(walk, start)| > DEFAULT_POOL
      ensures !refused ==> Expanding(walk, start, Cell(dx, dy), Octile(Cell(dx, dy)), nodes, nodePool[parent].Pos(), dir + 1)
      ensures !refused ==> ClosedCells(nodes) == old(ClosedCells(nodes))
    {
      hide Rep;
      hide Expanding;
      hide Tree;
      hide ReachableSet;
      hide GridMap.Walkable;
      hide ClosedCells;
      ghost var goal, p := Cell(dx, dy), nodePool[parent].Pos();
      ghost var c, before := Neighbour(p, dir), nodes;
      ExpandingTree(walk, start, goal, Octile(goal), nodes, p, dir);
      NeighbourIsAdjacent(p, dir);
      var cx, cy := nodePool[parent].x + OFFSET[dir].0, nodePool[parent].y + OFFSET[dir].1;
      var step := if dir < 4 then STRAIGHT else DIAGONAL;
      var cost := terrain.GetPassCost(cx, cy);
      if cost < 0 {
        SkipKeeps(walk, start, goal, Octile(goal), before, p, dir);
        return false;
      }
      refused := VisitWalkable(parent, cx, cy, step, dx, dy, terrain.width, terrain.height);
      if refused {
        PoolExhausted(walk, start, nodes, p, c);
      } else {
        RelaxKeeps(walk, start, goal, Octile(goal), before, p, dir);
        assert nodes == Relax(before, p, c, StepCost(p, c), Octile(goal)(c));
        RelaxKeepsClosed(before, p, c, StepCost(p, c), Octile(goal)(c));
      }
    }

    /** Closes the node in hand and looks in all eight directions. */
    method Expand(terrain: GridMap, ghost walk: set<Cell>, ghost start: Cell, parent: nat, dx: int, dy: int) returns (refused: bool)
      requires terrain.Valid() && terrain.Walkable() == walk
      requires Ready() && InHand(walk, start, Cell(dx, dy), parent, terrain.width, terrain.height)
      requires nodePool[parent].Pos() != Cell(dx, dy)
      modifies this`nodes, this`slots, this`poolIdx, this`openSet, nodePool, nodeSet
      ensures Ready() && (!refused ==> Rep(Now(), terrain.width, terrain.height, {}))
      ensures refused ==> |ReachableSet(walk, start)| > DEFAULT_POOL
      ensures !refused ==>
                && Frontier(walk, start, Cell(dx, dy), Octile(Cell(dx, dy)), nodes) && start in nodes && nodes[start].mask
                && |ClosedCells(nodes)| <= DEFAULT_POOL
                && ClosedCells(nodes) == old(ClosedCells(nodes)) + {old(nodePool[parent].Pos())}
    {
      hide Rep;
      hide ReachableSet;
      hide Frontier;
      hide Expanding;
      hide OpenAtLeast;
      hide GridMap.Walkable;
      ghost var goal, p := Cell(dx, dy), nodePool[parent].Pos();
      ghost var est := Octile(goal);
      assert Now().pool[parent] == nodePool[parent];
      RepNode(Now(), terrain.width, terrain.height, {p}, parent);
      CloseKeeps(walk, start, goal, est, nodes, p);
      CloseKeepsRep(Now(), terrain.width, terrain.height, parent);
      SetNode(parent, nodePool[parent].(mask := true));
      assert Now().pool[parent] == nodePool[parent];
      ghost var closed := ClosedCells(nodes);
      assert closed == old(ClosedCells(nodes)) + {p};
      for dir := 0 to 8
        invariant Ready() && Rep(Now(), terrain.width, terrain.height, {})
        invariant terrain.Valid() && terrain.Walkable() == walk
        invariant parent < poolIdx && nodePool[parent].Pos() == p && nodePool[parent].mask
        invariant Expanding(walk, start, goal, est, nodes, p, dir)
        invariant ClosedCells(nodes) == closed
      {
        refused := ExpandDirection(terrain, walk, start, parent, dir, dx, dy);
        if refused {
          return;
        }
      }
      ExpansionDone(walk, start, goal, est, nodes, p);
      ClosedBound(Now(), terrain.width, terrain.height, {});
      refused := false;
    }

    /** Follows the parent links from a labelled cell back to the start and spells the path out. */
    method BacktracePath(ghost walk: set<Cell>, dest: nat, x: int, y: int, ghost width: int, height: int, ghost inHand: set<Cell>)
      returns (ok: bool, ghost p: seq<Cell>)
      requires Ready() && Rep(Now(), width, height, inHand) && dest < poolIdx && path == []
      requires Tree(walk, Cell(x, y), nodes)
      requires Within(walk, width, height)
      modifies this`path
      ensures ok && Connects(walk, p, Cell(x, y), nodePool[dest].Pos())
      ensures nodePool[dest].Pos() in nodes && Cost(p) == nodes[nodePool[dest].Pos()].g
      ensures path == Flatten(p)
    {
      hide Rep;
      hide Tree;
      hide WayOn;
      hide Connects;
      ghost var start, goal, v := Cell(x, y), nodePool[dest].Pos(), Now();
      RepSize(v, width, height, inHand);
      assert v.pool[dest] == nodePool[dest];
      RepNode(v, width, height, inHand, dest);
      NoWayYet(walk, nodes, goal);
      var cur := At(dest);
      ghost var c, seen := goal, {};
      p, ok := [], false;
      while cur != Null && |path| < PATH_LIMIT
        invariant Now() == v && cur != Null && cur.index < |v.pool| && v.pool[cur.index].Pos() == c
        invariant c in nodes && nodes[c] == v.pool[cur.index]
        invariant WayOn(walk, nodes, c, p, goal)
        invariant path == Flatten(p) && |path| == 2 * |p| && |p| <= |nodes|
        invariant seen <= nodes.Keys && |seen| == |p| && forall d | d in seen :: nodes[d].g > nodes[c].g
        decreases if nodes[c].g < 0 then 0 else nodes[c].g
      {
        assert nodePool[cur.index] == v.pool[cur.index];
        var cx, cy := nodePool[cur.index].x, nodePool[cur.index].y;
        path := path + [cx, cy];
        assert ([c] + p)[1..] == p;
        StepBack(walk, start, goal, nodes, c, p);
        p, seen := [c] + p, seen + {c};
        SubsetSize(seen, nodes.Keys);
        FlattenLength(p);
        if cx == x && cy == y {
          ok := true;
          break;
        }
        c := nodes[c].Parent();
        RepLookup(v, width, height, inHand, c.x, c.y);
        var idx := nodePool[cur.index].px * height + nodePool[cur.index].py;
        assert nodeSet[idx] == v.table[idx];
        cur := nodeSet[idx];
      }
    }

    /**
     * Looks for a cheapest way over the map. The slot table is cleared for width * height entries, but
     * never has more than DEFAULT_SET: Overrun is the case in which clearing runs past its end.
     */
    method Search(terrain: GridMap, x: int, y: int, dx: int, dy: int) returns (r: Outcome, ghost p: seq<Cell>)
      requires Valid() && terrain.Valid()
      modifies this, nodePool, nodeSet
      ensures Valid() && terrain.Valid() && terrain.Walkable() == old(terrain.Walkable())
      ensures r == Found ==> IsShortest(terrain.Walkable(), p, Cell(x, y), Cell(dx, dy)) && path == Flatten(p)
      ensures r == NotFound ==>
                || !Reachable(terrain.Walkable(), Cell(x, y), Cell(dx, dy))
                || |ReachableSet(terrain.Walkable(), Cell(x, y))| > DEFAULT_POOL
      ensures r == Overrun <==>
                && Cell(x, y) in terrain.Walkable() && Cell(dx, dy) in terrain.Walkable()
                && terrain.width * terrain.height > DEFAULT_SET
      ensures |ReachableSet(terrain.Walkable(), Cell(x, y))| <= DEFAULT_POOL && terrain.width * terrain.height <= DEFAULT_SET ==>
                (r == Found <==> Reachable(terrain.Walkable(), Cell(x, y), Cell(dx, dy)))
    {
      hide IsShortest;
      hide ReachableSet;
      hide GridMap.Walkable;
      p := [];
      ghost var walk := terrain.Walkable();
      var cost := terrain.GetPassCost(x, y);
      var goalCost := terrain.GetPassCost(dx, dy);
      if cost < 0 || goalCost < 0 {
        NotWalkable(walk, Cell(x, y), Cell(dx, dy));
        return NotFound, p;
      }
      SlotInRange(x, y, terrain.width, terrain.height);
      var cells := terrain.width * terrain.height;
      Allocate(cells);
      assert terrain.Walkable() == walk;
      poolIdx, path, openSet := 0, [], [];
      if cells > nodeSet.Length {
        return Overrun, p;
      }
      forall k | 0 <= k < cells {
        nodeSet[k] := Null;
      }
      var found;
      found, p := DoSearch(terrain, walk, x, y, dx, dy);
      r := if found then Found else NotFound;
      if found {
        ShortestMeansReachable(walk, p, Cell(x, y), Cell(dx, dy));
      }
    }

    /** Makes sure there is a slot table and a pool. A table that is too small is replaced by one of DEFAULT_SET. */
    method Allocate(cells: int)
      requires Valid() && 0 < cells
      modifies this`nodeSet, this`setMax, this`nodePool, this`poolMax, this`poolIdx
      ensures Ready() && poolIdx == 0 && nodeSet.Length == DEFAULT_SET && cells <= setMax
      ensures nodeSet == old(nodeSet) || fresh(nodeSet)
      ensures nodePool == old(nodePool) || fresh(nodePool)
      ensures if old(setMax) >= cells then setMax == old(setMax) && nodeSet == old(nodeSet)
              else setMax >= DEFAULT_SET && (setMax == cells || setMax == DEFAULT_SET)
    {
      if setMax < cells {
        setMax := if cells > DEFAULT_SET then cells else DEFAULT_SET;
        nodeSet := new Ref[DEFAULT_SET](_ => Null);
      }
      if poolMax < DEFAULT_POOL {
        poolMax := DEFAULT_POOL;
        nodePool := new Node[DEFAULT_POOL](_ => Node(false, 0, 0, 0, 0, 0, 0));
      }
      poolIdx := 0;
    }

    /** The search itself, from a cleared state. */
    method DoSearch(terrain: GridMap, ghost walk: set<Cell>, x: int, y: int, dx: int, dy: int) returns (found: bool, ghost p: seq<Cell>)
      requires terrain.Valid() && terrain.Walkable() == walk
      requires Cell(x, y) in walk && Cell(dx, dy) in walk
      requires Ready() && path == [] && Cleared(terrain.width, terrain.height)
      modifies this`nodes, this`slots, this`poolIdx, this`openSet, this`path, nodePool, nodeSet
      ensures Ready()
      ensures found ==> IsShortest(walk, p, Cell(x, y), Cell(dx, dy)) && path == Flatten(p)
      ensures !found ==> !Reachable(walk, Cell(x, y), Cell(dx, dy)) || |ReachableSet(walk, Cell(x, y))| > DEFAULT_POOL
    {
      hide Searching;
      hide Exhausted;
      hide IsShortest;
      hide Reachable;
      hide ReachableSet;
      hide GridMap.Walkable;
      hide GridMap.Valid;
      hide Flatten;
      hide ClosedCells;
      hide Cleared;
      ghost var start, goal := Cell(x, y), Cell(dx, dy);
      p := [];
      StartNode(terrain, walk, goal, x, y);
      var parent := At(0);
      while parent != Null
        invariant Searching(terrain, walk, start, goal, parent)
        decreases DEFAULT_POOL - |ClosedCells(nodes)|
      {
        var done;
        done, found, parent, p := SearchStep(terrain, walk, start, parent.index, x, y, dx, dy);
        if done {
          return;
        }
      }
      ExhaustedIsUnreachable(terrain, walk, start, goal);
      found := false;
    }

    /** The invariant of the search loop: the next node is in hand, or nothing is left to expand. */
    ghost predicate Searching(terrain: GridMap, walk: set<Cell>, start: Cell, goal: Cell, parent: Ref)
      reads this, nodePool, nodeSet, terrain, terrain.gridSet
    {
      && Ready() && terrain.Valid() && terrain.Walkable() == walk && path == []
      && match parent
         case At(i) => InHand(walk, start, goal, i, terrain.width, terrain.height)
         case Null => Exhausted(walk, start, goal, terrain.width, terrain.height)
    }

    /** One round of the search: stops at the goal, else expands the node in hand and picks the next. */
    method SearchStep(terrain: GridMap, ghost walk: set<Cell>, ghost start: Cell, parent: nat, x: int, y: int, dx: int, dy: int)
      returns (done: bool, found: bool, next: Ref, ghost p: seq<Cell>)
      requires Searching(terrain, walk, start, Cell(dx, dy), At(parent)) && start == Cell(x, y)
      modifies this`nodes, this`slots, this`poolIdx, this`openSet, this`path, nodePool, nodeSet
      ensures Ready()
      ensures done && found ==> IsShortest(walk, p, start, Cell(dx, dy)) && path == Flatten(p)
      ensures done && !found ==> |ReachableSet(walk, start)| > DEFAULT_POOL
      ensures !done ==> |old(ClosedCells(nodes))| < |ClosedCells(nodes)| <= DEFAULT_POOL
      ensures !done ==> Searching(terrain, walk, start, Cell(dx, dy), next)
    {
      hide Rep;
      hide Frontier;
      hide OpenAtLeast;
      hide ReachableSet;
      hide IsShortest;
      hide GridMap.Walkable;
      hide GridMap.Valid;
      hide InHand;
      hide Exhausted;
      hide ClosedCells;
      hide Connects;
      hide Tree;
      hide Within;
      hide Flatten;
      ghost var goal := Cell(dx, dy);
      WalkableWithin(terrain, goal);
      p, next := [], Null;
      InHandFacts(walk, start, goal, parent, terrain.width, terrain.height);
      if nodePool[parent].x == dx && nodePool[parent].y == dy {
        assert nodePool[parent].Pos() == goal;
        done := true;
        found, p := BacktracePath(walk, parent, x, y, terrain.width, terrain.height, {goal});
        CheapestIsShortest(walk, start, goal, nodes, p);
        return;
      }
      found := false;
      done := Expand(terrain, walk, start, parent, dx, dy);
      if !done {
        next := NextParent(walk, start, goal, terrain.width, terrain.height);
      }
    }

    /** Puts the cheapest open node in hand, if any is open. */
    method NextParent(ghost walk: set<Cell>, ghost start: Cell, ghost goal: Cell, ghost width: int, ghost height: int) returns (r: Ref)
      requires Ready() && Rep(Now(), width, height, {})
      requires Frontier(walk, start, goal, Octile(goal), nodes) && start in nodes && nodes[start].mask
      modifies this`openSet
      ensures Ready() && nodes == old(nodes)
      ensures r != Null ==> InHand(walk, start, goal, r.index, width, height)
      ensures r == Null ==> Exhausted(walk, start, goal, width, height)
    {
      ghost var v := Now();
      OpenInRange(v, width, height);
      OpenEstimated(walk, start, goal, Octile(goal), nodes);
      hide Frontier;
      hide Octile;
      hide Rep;
      hide InHand;
      hide Taken;
      hide Valid;
      ghost var k;
      r, k := TakeCheapest();
      if r != Null {
        CheapestInHand(walk, start, goal, width, height, v, r.index, k);
      } else {
        NothingTaken(v, k);
      }
    }

    /** The first cheapest node is taken out of the open vector; nothing else changes. */
    method TakeCheapest() returns (r: Ref, ghost k: nat)
      requires Ready() && forall j | 0 <= j < |openSet| :: openSet[j] < poolIdx
      modifies this`openSet
      ensures Ready() && nodes == old(nodes) && Taken(old(Now()), Now(), r, k)
    {
      hide SwapRemove;
      ghost var v := Now();
      r, k := PopOpenSet();
      assert forall j | 0 <= j < |v.open| :: nodePool[v.open[j]] == v.pool[v.open[j]];
    }

    lemma NothingTaken(v: View, k: nat)
      requires Ready() && Taken(v, Now(), Null, k)
      ensures Now() == v && openSet == []
    {
    }

    /** What has been taken out is in hand. */
    lemma CheapestInHand(walk: set<Cell>, start: Cell, goal: Cell, width: int, height: int, v: View, i: nat, k: nat)
      requires Ready() && Rep(v, width, height, {}) && Taken(v, Now(), At(i), k)
      requires Frontier(walk, start, goal, Octile(goal), nodes)
      requires forall c | c in nodes && !nodes[c].mask :: nodes[c].h == Octile(goal)(c)
      ensures InHand(walk, start, goal, i, width, height)
    {
      hide Rep;
      hide Frontier;
      hide OpenAtLeast;
      hide SwapRemove;
      PopKeepsRep(v, width, height, k);
      assert nodePool[i] == v.pool[i];
      CheapestIsLeast(v, width, height, k, Octile(goal));
    }

    lemma InHandFacts(walk: set<Cell>, start: Cell, goal: Cell, i: nat, width: int, height: int)
      requires Ready() && InHand(walk, start, goal, i, width, height)
      ensures i < poolIdx && Rep(Now(), width, height, {nodePool[i].Pos()}) && Tree(walk, start, nodes)
      ensures nodePool[i].Pos() in nodes && nodePool[i].Pos() !in ClosedCells(nodes)
      ensures |ClosedCells(nodes)| <= DEFAULT_POOL
      ensures Frontier(walk, start, goal, Octile(goal), nodes)
      ensures OpenAtLeast(nodes, Octile(goal), F(nodes, Octile(goal), nodePool[i].Pos()))
    {
      assert Now().pool[i] == nodePool[i];
      RepNode(Now(), width, height, {nodePool[i].Pos()}, i);
      ClosedBound(Now(), width, height, {nodePool[i].Pos()});
    }

    lemma ExhaustedIsUnreachable(terrain: GridMap, walk: set<Cell>, start: Cell, goal: Cell)
      requires Searching(terrain, walk, start, goal, Null)
      ensures Ready() && !Reachable(walk, start, goal)
    {
      EmptyOpenMeansClosed(Now(), terrain.width, terrain.height);
      if q :| Connects(walk, q, start, goal) {
        ClosedUnderSteps(walk, start, goal, Octile(goal), nodes, q);
        assert false;
      }
    }

    ghost predicate InHand(walk: set<Cell>, start: Cell, goal: Cell, i: nat, width: int, height: int)
      requires Ready()
      reads this, nodePool, nodeSet
    {
      && i < poolIdx && !nodePool[i].mask && Rep(Now(), width, height, {nodePool[i].Pos()})
      && Frontier(walk, start, goal, Octile(goal), nodes)
      && nodePool[i].Pos() in nodes
      && OpenAtLeast(nodes, Octile(goal), F(nodes, Octile(goal), nodePool[i].Pos()))
    }

    ghost predicate Exhausted(walk: set<Cell>, start: Cell, goal: Cell, width: int, height: int)
      requires Ready()
      reads this, nodePool, nodeSet
    {
      Rep(Now(), width, height, {}) && Frontier(walk, start, goal, Octile(goal), nodes) && openSet == []
    }

    /** The start node: taken from the pool and stored, but never put in the open vector. */
    method StartNode(terrain: GridMap, ghost walk: set<Cell>, ghost goal: Cell, x: int, y: int)
      requires terrain.Valid() && terrain.Walkable() == walk && Cell(x, y) in walk
      requires Ready() && path == [] && Cleared(terrain.width, terrain.height)
      modifies this`nodes, this`slots, this`poolIdx, nodePool, nodeSet
      ensures Searching(terrain, walk, Cell(x, y), goal, At(0))
    {
      hide Rep;
      hide InHand;
      hide GridMap.Walkable;
      var width, height := terrain.width, terrain.height;
      WalkableWithin(terrain, Cell(x, y));
      StoreFirst(walk, goal, x, y, width, height);
    }

    method StoreFirst(ghost walk: set<Cell>, ghost goal: Cell, x: int, y: int, width: int, height: int)
      requires Cell(x, y) in walk
      requires Ready() && Cleared(width, height)
      requires 0 <= x < width && 0 <= y < height
      modifies this`nodes, this`slots, this`poolIdx, nodePool, nodeSet
      ensures Ready() && InHand(walk, Cell(x, y), goal, 0, width, height)
    {
      SlotInRange(x, y, width, height);
      var parent := NewNode(x, y, 0, 0);
      assert Now().pool[0] == nodePool[0];
      nodeSet[x * height + y] := parent;
      nodes, slots := map[Cell(x, y) := nodePool[0]], map[Cell(x, y) := 0];
      FirstNodeRep(Now(), width, height, nodePool[0]);
      StartFrontier(walk, Cell(x, y), goal, nodePool[0]);
    }
  }

  /** Once the goal is the cheapest open cell, its label is the least cost of any way to it. */
  lemma CheapestIsShortest(walk: set<Cell>, start: Cell, goal: Cell, nodes: Labels, p: seq<Cell>)
    requires Frontier(walk, start, goal, Octile(goal), nodes)
    requires goal in nodes && OpenAtLeast(nodes, Octile(goal), F(nodes, Octile(goal), goal))
    requires Connects(walk, p, start, goal) && Cost(p) == nodes[goal].g
    ensures IsShortest(walk, p, start, goal)
  {
    forall q | Connects(walk, q, start, goal)
      ensures Cost(p) <= Cost(q)
    {
      NoCheaperWay(walk, start, goal, Octile(goal), nodes, q, nodes[goal].g);
    }
  }

  lemma ClosedBound(v: View, width: int, height: int, inHand: set<Cell>)
    requires Rep(v, width, height, inHand)
    ensures |ClosedCells(v.nodes)| <= DEFAULT_POOL
  {
    RepSize(v, width, height, inHand);
    SubsetSize(ClosedCells(v.nodes), v.nodes.Keys);
  }

  lemma StartFrontier(walk: set<Cell>, start: Cell, goal: Cell, n: Node)
    requires start in walk && n.Pos() == start && n.g == 0 && !n.mask
    ensures Frontier(walk, start, goal, Octile(goal), map[start := n])
    ensures OpenAtLeast(map[start := n], Octile(goal), F(map[start := n], Octile(goal), start))
  {
    OctileConsistent(goal);
  }

  lemma NoWayYet(walk: set<Cell>, nodes: Labels, goal: Cell)
    ensures WayOn(walk, nodes, goal, [], goal)
  {
  }

  /** One step back along the parent links. */
  lemma StepBack(walk: set<Cell>, start: Cell, goal: Cell, nodes: Labels, c: Cell, p: seq<Cell>)
    requires Tree(walk, start, nodes) && c in nodes && goal in nodes && WayOn(walk, nodes, c, p, goal)
    ensures c == start ==> Connects(walk, [c] + p, start, goal) && Cost([c] + p) == nodes[goal].g
    ensures c != start ==>
              var q := nodes[c].Parent();
              q in nodes && q in walk && 0 <= nodes[q].g < nodes[c].g && WayOn(walk, nodes, q, [c] + p, goal)
  {
    if p != [] {
      PathCons(walk, c, p);
    }
    if c != start {
      assert HasParent(nodes, c);
    }
  }

  /** p leads from a neighbour of c to the goal, at the price the labels say; or it has not begun. */
  ghost predicate WayOn(walk: set<Cell>, nodes: Labels, c: Cell, p: seq<Cell>, goal: Cell) {
    if p == [] then c == goal
    else
      && IsPath(walk, p) && p[|p| - 1] == goal && Adjacent(c, p[0]) && c in nodes && goal in nodes
      && nodes[c].g + StepCost(c, p[0]) + Cost(p) == nodes[goal].g
  }

  ghost predicate Within(walk: set<Cell>, width: int, height: int) {
    forall c | c in walk :: 0 <= c.x < width && 0 <= c.y < height
  }

  lemma NotWalkable(walk: set<Cell>, a: Cell, b: Cell)
    requires a !in walk || b !in walk
    ensures !Reachable(walk, a, b)
  {
  }

  lemma WalkableWithin(terrain: GridMap, c: Cell)
    requires terrain.Valid()
    ensures Within(terrain.Walkable(), terrain.width, terrain.height)
    ensures c in terrain.Walkable() ==> 0 <= c.x < terrain.width && 0 <= c.y < terrain.height
  {
  }

  ghost function ClosedCells(nodes: Labels): set<Cell> {
    set c | c in nodes && nodes[c].mask
  }

  lemma RelaxKeepsClosed(nodes: Labels, p: Cell, c: Cell, step: int, h: int)
    requires p in nodes
    ensures ClosedCells(Relax(nodes, p, c, step, h)) == ClosedCells(nodes)
  {
  }

  /** A refused cell is one more reachable cell than the pool has nodes. */
  lemma PoolExhausted(walk: set<Cell>, start: Cell, nodes: Labels, p: Cell, c: Cell)
    requires Tree(walk, start, nodes) && p in nodes && Adjacent(p, c) && c in walk && c !in nodes
    requires |nodes| >= DEFAULT_POOL
    ensures |ReachableSet(walk, start)| > DEFAULT_POOL
  {
    forall d | d in nodes
      ensures d in ReachableSet(walk, start)
    {
      LabelledIsReachable(walk, start, nodes, d);
    }
    LabelledIsReachable(walk, start, nodes, p);
    ReachableStep(walk, start, p, c);
    assert |nodes.Keys + {c}| == |nodes.Keys| + 1;
    SubsetSize(nodes.Keys + {c}, ReachableSet(walk, start));
  }

  lemma {:induction false} SubsetSize<T>(a: set<T>, b: set<T>)
    requires a <= b
    ensures |a| <= |b|
  {
    if a != {} {
      var x :| x in a;
      SubsetSize(a - {x}, b - {x});
    }
  }
}
