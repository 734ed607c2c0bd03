/** The 2D terrain grid (engine/src/scene/grid_map.cpp): one cost byte a cell, negative meaning "not walkable". */
module GridMaps {

  datatype Cell = Cell(x: int, y: int)

  type int8 = c: int | -128 <= c < 128

  // The largest width or height that Set accepts.
  const MAX_MAP_GRID := 256

  /** The cells in the first x columns: x * height, as repeated addition to spare the solver products. */
  ghost function Column(x: int, height: int): int {
    if x <= 0 then 0 else Column(x - 1, height) + height
  }

  /** A cell's slot in the column-major arrays, x * height + y. */
  ghost function Slot(x: int, y: int, height: int): int {
    Column(x, height) + y
  }

  lemma {:induction false} ColumnIsProduct(x: int, height: int)
    requires 0 <= x
    ensures Column(x, height) == x * height
  {
    if x > 0 {
      ColumnIsProduct(x - 1, height);
      assert x * height == (x - 1) * height + height;
    }
  }

  lemma {:induction false} ColumnsApart(x: int, x': int, height: int)
    requires 0 <= x < x' && 0 <= height
    ensures Column(x, height) + height <= Column(x', height)
  {
    if x + 1 < x' {
      ColumnsApart(x, x' - 1, height);
    }
  }

  lemma SlotInRange(x: int, y: int, width: int, height: int)
    requires 0 <= x < width && 0 <= y < height
    ensures 0 <= Slot(x, y, height) < width * height
    ensures Slot(x, y, height) == x * height + y
  {
    ColumnIsProduct(x, height);
    ColumnIsProduct(width, height);
    ColumnsApart(x, width, height);
    if x > 0 {
      ColumnsApart(0, x, height);
    }
  }

  lemma SlotInjective(x: int, y: int, x': int, y': int, height: int)
    requires 0 <= x && 0 <= x' && 0 <= y < height && 0 <= y' < height
    requires Slot(x, y, height) == Slot(x', y', height)
    ensures x == x' && y == y'
  {
    if x < x' {
      ColumnsApart(x, x', height);
    } else if x > x' {
      ColumnsApart(x', x, height);
    }
  }

  class GridMap {
    var id: int
    var width: int
    var height: int
    var gridSet: array?<int8>

    ghost predicate Valid()
      reads this, gridSet
    {
      && 0 <= width && 0 <= height
      && (gridSet == null ==> width == 0 && height == 0)
      && (gridSet != null ==> gridSet.Length == width * height)
    }

    /** The cells a walker may stand on: inside the grid and of non-negative cost. */
    ghost function Walkable(): (cells: set<Cell>)
      requires Valid()
      reads this, gridSet
    {
      set x, y | 0 <= x < width && 0 <= y < height && CostAt(x, y) >= 0 :: Cell(x, y)
    }

    ghost function CostAt(x: int, y: int): int
      requires Valid()
      requires 0 <= x < width && 0 <= y < height
      reads this, gridSet
    {
      SlotInRange(x, y, width, height);
      gridSet[Slot(x, y, height)]
    }

    constructor ()
      ensures Valid() && Walkable() == {} && gridSet == null
    {
      id, width, height := 0, 0, 0;
      gridSet := null;
    }

    /** Sizes the grid. Every cell starts out not walkable. */
    method Set(id: int, width: int, height: int) returns (ok: bool)
      requires Valid() && gridSet == null
      requires 0 <= width && 0 <= height
      modifies this
      ensures Valid()
      ensures ok <==> width <= MAX_MAP_GRID && height <= MAX_MAP_GRID
      ensures Walkable() == {}
      ensures ok ==> this.id == id && this.width == width && this.height == height && gridSet != null && fresh(gridSet)
      ensures !ok ==> unchanged(this)
    {
      if MAX_MAP_GRID < width || MAX_MAP_GRID < height {
        return false;
      }
      this.id, this.width, this.height := id, width, height;
      assert width * height >= 0;
      gridSet := new int8[width * height](_ => -1);
      assert forall x, y | 0 <= x < width && 0 <= y < height :: CostAt(x, y) == -1 by {
        forall x, y | 0 <= x < width && 0 <= y < height
          ensures CostAt(x, y) == -1
        {
          SlotInRange(x, y, width, height);
        }
      }
      return true;
    }

    /** Sets one cell's cost. The upper bounds are checked, the lower ones are the caller's duty. */
    method Fill(x: int, y: int, cost: int8) returns (ok: bool)
      requires Valid() && 0 <= x && 0 <= y
      modifies gridSet
      ensures Valid()
      ensures ok <==> x < width && y < height
      ensures ok && cost >= 0 ==> Walkable() == old(Walkable()) + {Cell(x, y)}
      ensures ok && cost < 0 ==> Walkable() == old(Walkable()) - {Cell(x, y)}
      ensures !ok ==> Walkable() == old(Walkable())
    {
      if x >= width || y >= height {
        return false;
      }
      SlotInRange(x, y, width, height);
      gridSet[x * height + y] := cost;
      assert CostAt(x, y) == cost;
      forall x', y' | 0 <= x' < width && 0 <= y' < height && (x' != x || y' != y)
        ensures CostAt(x', y') == old(CostAt(x', y'))
      {
        SlotInRange(x', y', width, height);
        if Slot(x, y, height) == Slot(x', y', height) {
          SlotInjective(x, y, x', y', height);
        }
      }
      return true;
    }

    /** The cost of stepping on a cell; negative everywhere outside the grid. */
    method GetPassCost(x: int, y: int) returns (cost: int)
      requires Valid()
      ensures cost >= 0 <==> Cell(x, y) in Walkable()
      ensures 0 <= x < width && 0 <= y < height ==> cost == CostAt(x, y)
      ensures !(0 <= x < width && 0 <= y < height) ==> cost == -1
    {
      if x < 0 || x >= width {
        return -1;
      }
      if y < 0 || y >= height {
        return -1;
      }
      SlotInRange(x, y, width, height);
      return gridSet[x * height + y];
    }
  }
}
