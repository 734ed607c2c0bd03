/** How the path finder's node pool, slot table and open vector represent the labels of a search. */
module SearchViews {
  import opened GridMaps
  import opened GridPaths
  import opened SearchLabels
  import opened Sequences

  const DEFAULT_SET := 128 * 128
  const DEFAULT_POOL := 1024

  // A pointer into the node pool.
  datatype Ref = Null | At(index: nat)

  // The used part of the pool, the slot table and the open vector, with the labels they stand for
  // and the pool index of every labelled cell.
  datatype View = View(pool: seq<Node>, table: seq<Ref>, open: seq<nat>, nodes: Labels, slots: map<Cell, nat>)

  ghost predicate PoolRep(v: View) {
    && |v.pool| <= DEFAULT_POOL
    && v.nodes.Keys == v.slots.Keys && |v.slots| == |v.pool|
    && (forall c | c in v.slots :: v.slots[c] < |v.pool| && v.pool[v.slots[c]] == v.nodes[c] && v.nodes[c].Pos() == c)
    && (forall i | 0 <= i < |v.pool| :: v.pool[i].Pos() in v.slots && v.slots[v.pool[i].Pos()] == i)
  }

  ghost function TableAt(v: View, x: int, y: int, width: int, height: int): Ref
    requires 0 <= x < width && 0 <= y < height && width * height <= |v.table|
  {
    SlotInRange(x, y, width, height);
    v.table[Slot(x, y, height)]
  }

  ghost predicate TableRep(v: View, width: int, height: int) {
    && 0 <= width && 0 <= height && width * height <= |v.table|
    && (forall x, y | 0 <= x < width && 0 <= y < height ::
          TableAt(v, x, y, width, height) == if Cell(x, y) in v.slots then At(v.slots[Cell(x, y)]) else Null)
  }

  ghost predicate IsOpen(v: View, i: nat, inHand: set<Cell>) {
    i < |v.pool| && !v.pool[i].mask && v.pool[i].Pos() !in inHand
  }

  ghost predicate OpenRep(v: View, inHand: set<Cell>) {
    && NoDup(v.open)
    && (forall k | 0 <= k < |v.open| :: IsOpen(v, v.open[k], inHand))
    && (forall i | 0 <= i < |v.pool| && IsOpen(v, i, inHand) :: i in v.open)
  }

  /** The open vector holds every open cell once, apart from the one in hand. */
  ghost predicate Rep(v: View, width: int, height: int, inHand: set<Cell>) {
    PoolRep(v) && TableRep(v, width, height) && OpenRep(v, inHand)
  }

  /** What the representation says about one pool node. */
  lemma RepNode(v: View, width: int, height: int, inHand: set<Cell>, i: nat)
    requires Rep(v, width, height, inHand) && i < |v.pool|
    ensures v.pool[i].Pos() in v.nodes && v.nodes[v.pool[i].Pos()] == v.pool[i]
  {
  }

  lemma RepSize(v: View, width: int, height: int, inHand: set<Cell>)
    requires Rep(v, width, height, inHand)
    ensures |v.nodes| == |v.pool| <= DEFAULT_POOL
    ensures width * height <= |v.table|
  {
    assert |v.nodes.Keys| == |v.slots.Keys|;
  }

  lemma RepLookup(v: View, width: int, height: int, inHand: set<Cell>, x: int, y: int)
    requires Rep(v, width, height, inHand) && 0 <= x < width && 0 <= y < height
    ensures 0 <= x * height + y < |v.table|
    ensures var r := v.table[x * height + y];
            && (r == Null <==> Cell(x, y) !in v.nodes)
            && (r != Null ==> r.index < |v.pool| && v.pool[r.index] == v.nodes[Cell(x, y)] && v.pool[r.index].Pos() == Cell(x, y))
  {
    SlotInRange(x, y, width, height);
    assert TableAt(v, x, y, width, height) == v.table[x * height + y];
  }

  function Overwrite(v: View, i: nat, n: Node): View
    requires i < |v.pool|
  {
    v.(pool := v.pool[i := n], nodes := v.nodes[n.Pos() := n])
  }

  lemma OverwriteKeepsPool(v: View, i: nat, n: Node)
    requires PoolRep(v) && i < |v.pool| && n.Pos() == v.pool[i].Pos()
    ensures PoolRep(Overwrite(v, i, n))
  {
    var w := Overwrite(v, i, n);
    forall k | 0 <= k < |w.pool|
      ensures w.pool[k].Pos() in w.slots && w.slots[w.pool[k].Pos()] == k
    {
      assert w.pool[k].Pos() == v.pool[k].Pos();
    }
  }

  lemma SameTable(v: View, w: View, width: int, height: int)
    requires TableRep(v, width, height) && w.table == v.table && w.slots == v.slots
    ensures TableRep(w, width, height)
  {
    assert forall x, y | 0 <= x < width && 0 <= y < height :: TableAt(w, x, y, width, height) == TableAt(v, x, y, width, height);
  }

  lemma ImproveKeepsRep(v: View, width: int, height: int, i: nat, n: Node)
    requires Rep(v, width, height, {}) && i < |v.pool| && !v.pool[i].mask
    requires n.Pos() == v.pool[i].Pos() && !n.mask
    ensures Rep(Overwrite(v, i, n), width, height, {})
  {
    var w := Overwrite(v, i, n);
    OverwriteKeepsPool(v, i, n);
    SameTable(v, w, width, height);
    hide TableRep;
    assert forall k | 0 <= k < |v.pool| :: IsOpen(w, k, {}) == IsOpen(v, k, {});
  }

  lemma CloseKeepsRep(v: View, width: int, height: int, i: nat)
    requires i < |v.pool| && Rep(v, width, height, {v.pool[i].Pos()})
    ensures Rep(Overwrite(v, i, v.pool[i].(mask := true)), width, height, {})
  {
    var w := Overwrite(v, i, v.pool[i].(mask := true));
    OverwriteKeepsPool(v, i, v.pool[i].(mask := true));
    SameTable(v, w, width, height);
    hide TableRep;
    assert forall k | 0 <= k < |v.pool| :: IsOpen(w, k, {}) == IsOpen(v, k, {v.pool[i].Pos()});
  }

  /** A new cell takes the next pool node, its slot and the last place of the open vector. */
  function Append(v: View, n: Node, slot: nat): View
    requires slot < |v.table|
  {
    View(v.pool + [n], v.table[slot := At(|v.pool|)], v.open + [|v.pool|],
         v.nodes[n.Pos() := n], v.slots[n.Pos() := |v.pool|])
  }

  lemma AppendKeepsPool(v: View, n: Node, slot: nat)
    requires PoolRep(v) && |v.pool| < DEFAULT_POOL && slot < |v.table|
    requires n.Pos() !in v.nodes
    ensures PoolRep(Append(v, n, slot))
  {
    var w := Append(v, n, slot);
    forall i | 0 <= i < |w.pool|
      ensures w.pool[i].Pos() in w.slots && w.slots[w.pool[i].Pos()] == i
    {
      if i < |v.pool| {
        assert w.pool[i] == v.pool[i];
      }
    }
  }

  lemma AppendKeepsTable(v: View, width: int, height: int, n: Node)
    requires TableRep(v, width, height)
    requires 0 <= n.x < width && 0 <= n.y < height
    ensures 0 <= n.x * height + n.y < |v.table|
    ensures TableRep(Append(v, n, n.x * height + n.y), width, height)
  {
    SlotInRange(n.x, n.y, width, height);
    var w := Append(v, n, n.x * height + n.y);
    forall x, y | 0 <= x < width && 0 <= y < height
      ensures TableAt(w, x, y, width, height) == if Cell(x, y) in w.slots then At(w.slots[Cell(x, y)]) else Null
    {
      SlotInRange(x, y, width, height);
      assert TableAt(v, x, y, width, height) == v.table[Slot(x, y, height)];
      if Slot(x, y, height) == Slot(n.x, n.y, height) {
        SlotInjective(x, y, n.x, n.y, height);
      }
    }
  }

  lemma AppendKeepsOpen(v: View, n: Node, slot: nat)
    requires OpenRep(v, {}) && slot < |v.table| && !n.mask
    ensures OpenRep(Append(v, n, slot), {})
  {
    var w := Append(v, n, slot);
    assert forall k: nat | k < |v.pool| :: IsOpen(w, k, {}) == IsOpen(v, k, {});
    forall k | 0 <= k < |w.open|
      ensures IsOpen(w, w.open[k], {})
    {
      if k < |v.open| {
        assert IsOpen(v, v.open[k], {});
      }
    }
    forall i: nat | i < |w.pool| && IsOpen(w, i, {})
      ensures i in w.open
    {
      if i < |v.pool| {
        assert i in v.open;
      } else {
        assert w.open[|v.open|] == i;
      }
    }
    forall i, j | 0 <= i < j < |w.open|
      ensures w.open[i] != w.open[j]
    {
      assert IsOpen(v, v.open[i], {});
    }
  }

  lemma AppendKeepsRep(v: View, width: int, height: int, n: Node)
    requires Rep(v, width, height, {}) && |v.pool| < DEFAULT_POOL
    requires 0 <= n.x < width && 0 <= n.y < height && n.Pos() !in v.nodes && !n.mask
    ensures 0 <= n.x * height + n.y < |v.table|
    ensures Rep(Append(v, n, n.x * height + n.y), width, height, {})
  {
    AppendKeepsTable(v, width, height, n);
    AppendKeepsRest(v, width, height, n, n.x * height + n.y);
  }

  lemma AppendKeepsRest(v: View, width: int, height: int, n: Node, slot: nat)
    requires Rep(v, width, height, {}) && |v.pool| < DEFAULT_POOL && n.Pos() !in v.nodes && !n.mask && slot < |v.table|
    requires TableRep(Append(v, n, slot), width, height)
    ensures Rep(Append(v, n, slot), width, height, {})
  {
    hide TableRep;
    AppendKeepsPool(v, n, slot);
    AppendKeepsOpen(v, n, slot);
    hide PoolRep;
    hide OpenRep;
  }

  /** The first node of a search: labelled, stored, in hand, not in the open vector. */
  lemma FirstNodeRep(v: View, width: int, height: int, n: Node)
    requires v.pool == [n] && v.open == [] && v.nodes == map[n.Pos() := n] && v.slots == map[n.Pos() := 0]
    requires 0 <= n.x < width && 0 <= n.y < height && width * height <= |v.table| && !n.mask
    requires forall k | 0 <= k < width * height :: v.table[k] == if k == n.x * height + n.y then At(0) else Null
    ensures Rep(v, width, height, {n.Pos()})
  {
    SlotInRange(n.x, n.y, width, height);
    forall x, y | 0 <= x < width && 0 <= y < height
      ensures TableAt(v, x, y, width, height) == if Cell(x, y) in v.slots then At(v.slots[Cell(x, y)]) else Null
    {
      SlotInRange(x, y, width, height);
      if Slot(x, y, height) == Slot(n.x, n.y, height) {
        SlotInjective(x, y, n.x, n.y, height);
      }
    }
  }

  /** Taking a cheapest node out of the open vector puts a cheapest open cell in hand. */
  lemma PopKeepsRep(v: View, width: int, height: int, k: nat)
    requires Rep(v, width, height, {}) && k < |v.open|
    ensures v.open[k] < |v.pool| && !v.pool[v.open[k]].mask
    ensures var c := v.pool[v.open[k]].Pos();
            Rep(v.(open := SwapRemove(v.open, k)), width, height, {c})
  {
    assert IsOpen(v, v.open[k], {});
    var c, w := v.pool[v.open[k]].Pos(), v.(open := SwapRemove(v.open, k));
    SwapRemoveDrops(v.open, k);
    SameTable(v, w, width, height);
    hide TableRep;
    forall i: nat | i < |v.pool|
      ensures IsOpen(w, i, {c}) == (IsOpen(v, i, {}) && i != v.open[k])
    {
      assert v.slots[v.pool[i].Pos()] == i;
      assert v.slots[c] == v.open[k];
    }
    forall j | 0 <= j < |w.open|
      ensures IsOpen(w, w.open[j], {c})
    {
      assert w.open[j] in w.open;
    }
  }

  lemma OpenInRange(v: View, width: int, height: int)
    requires Rep(v, width, height, {})
    ensures forall k | 0 <= k < |v.open| :: v.open[k] < |v.pool|
  {
    forall k | 0 <= k < |v.open|
      ensures v.open[k] < |v.pool|
    {
      assert IsOpen(v, v.open[k], {});
    }
  }

  /** From `v` to `w` a cheapest node, at place `k` of the open vector, has been taken out, if there was any. */
  ghost predicate Taken(v: View, w: View, r: Ref, k: nat) {
    match r
    case Null => v.open == [] && w == v
    case At(i) =>
      && k < |v.open| && i == v.open[k] < |v.pool| && w == v.(open := SwapRemove(v.open, k))
      && (forall j | 0 <= j < |v.open| :: v.open[j] < |v.pool| && v.pool[v.open[k]].F() <= v.pool[v.open[j]].F())
  }

  lemma CheapestIsLeast(v: View, width: int, height: int, k: nat, est: Estimate)
    requires Rep(v, width, height, {}) && k < |v.open| && v.open[k] < |v.pool|
    requires forall j | 0 <= j < |v.open| && v.open[j] < |v.pool| :: v.pool[v.open[k]].F() <= v.pool[v.open[j]].F()
    requires forall c | c in v.nodes && !v.nodes[c].mask :: v.nodes[c].h == est(c)
    ensures var c := v.pool[v.open[k]].Pos(); c in v.nodes && OpenAtLeast(v.nodes, est, F(v.nodes, est, c))
  {
    assert IsOpen(v, v.open[k], {});
    forall d | d in v.nodes && !v.nodes[d].mask
      ensures F(v.nodes, est, d) >= v.pool[v.open[k]].F()
    {
      assert IsOpen(v, v.slots[d], {});
      var j :| 0 <= j < |v.open| && v.open[j] == v.slots[d];
    }
  }

  lemma EmptyOpenMeansClosed(v: View, width: int, height: int)
    requires Rep(v, width, height, {}) && v.open == []
    ensures forall c | c in v.nodes :: v.nodes[c].mask
  {
    forall c | c in v.nodes
      ensures v.nodes[c].mask
    {
      if !v.nodes[c].mask {
        assert IsOpen(v, v.slots[c], {});
      }
    }
  }
}
