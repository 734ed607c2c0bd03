/**
 * The grid index of who is in whose area of interest (engine/src/scene/grid_aoi.cpp, engine/src/scene/grid_aoi.hpp).
 * A pointer to an entity's record is its id, which finds the record in ctxs; an absent cell list is an empty one.
 */
module GridAois {
  import opened GridMaps
  import opened GridViews
  import opened IdLists
  import opened Sequences

  /** C++ division of integers. */
  function TruncDiv(a: int, b: int): int
    requires b > 0
  {
    if a >= 0 then a / b else -(-a / b)
  }

  /** The ceiling of the exact quotient. */
  function CeilDiv(a: int, b: int): int
    requires b > 0
  {
    -(-a / b)
  }

  /** A pixel x is in cell g; cell 0 takes in those up to one cell to the left of it. */
  ghost predicate PixelIn(g: int, pix: int, x: int) {
    if x >= 0 then g * pix <= x < (g + 1) * pix else (g - 1) * pix < x <= g * pix
  }

  /** A pixel x is in one of the cells 0..size - 1. */
  ghost predicate PixelOn(size: int, pix: int, x: int) { size > 0 && -pix < x < size * pix }

  /** The quotient of the division is the cell that a pixel is in, and no other is. */
  lemma CellOfPixel(x: int, pix: int, g: int)
    requires pix > 0
    ensures PixelIn(g, pix, x) <==> g == TruncDiv(x, pix)
  {
    if x >= 0 {
      QuotientIs(x, pix, g);
    } else {
      QuotientIs(-x, pix, -g);
      Mirrored(g, pix);
    }
  }

  lemma Mirrored(g: int, pix: int)
    ensures -g * pix == -(g * pix) && (-g + 1) * pix == -((g - 1) * pix)
  {
  }

  lemma QuotientIs(a: nat, pix: int, g: int)
    requires pix > 0
    ensures g * pix <= a < (g + 1) * pix <==> g == a / pix
  {
    var q := a / pix;
    assert q * pix <= a < (q + 1) * pix;
    if g < q {
      Ordered(g + 1, q, pix);
    } else if g > q {
      Ordered(q + 1, g, pix);
    }
  }

  lemma Ordered(p: int, q: int, pix: int)
    requires pix > 0 && p <= q
    ensures p * pix <= q * pix
  {
  }

  /** A cell lies between those of two pixels exactly if it begins and ends so. */
  lemma Between(x: int, dx: int, pix: int, p: nat)
    requires pix > 0 && -pix < x <= dx
    ensures TruncDiv(x, pix) <= p <==> x < (p + 1) * pix
    ensures p <= TruncDiv(dx, pix) <==> p == 0 || p * pix <= dx
  {
    var g, h := TruncDiv(x, pix), TruncDiv(dx, pix);
    CellOfPixel(x, pix, g);
    CellOfPixel(dx, pix, h);
    PixelOnGrid(x, pix, 0);
    PixelOnGrid(dx, pix, 0);
    Apart(x, pix, g, p);
    if dx >= 0 {
      if p <= h {
        Ordered(p, h, pix);
      } else {
        Ordered(h + 1, p, pix);
      }
    } else {
      NoneLeft(dx, pix, h, p);
    }
  }

  lemma Apart(x: int, pix: int, g: int, p: nat)
    requires pix > 0 && g >= 0 && PixelIn(g, pix, x)
    ensures g <= p <==> x < (p + 1) * pix
  {
    if g <= p {
      Ordered(g + 1, p + 1, pix);
      Ordered(g, p + 1, pix);
    } else {
      Ordered(p + 1, g, pix);
      Ordered(0, g - 1, pix);
    }
  }

  lemma NoneLeft(dx: int, pix: int, h: int, p: nat)
    requires pix > 0 && -pix < dx < 0 && h >= 0 && PixelIn(h, pix, dx)
    ensures h == 0 && p * pix > dx
  {
    if h > 0 {
      Ordered(0, h - 1, pix);
    }
    Ordered(0, p, pix);
  }

  /** The cell is one of the first ones exactly if the pixel is. */
  lemma PixelOnGrid(x: int, pix: int, size: nat)
    requires pix > 0
    ensures TruncDiv(x, pix) >= 0 <==> -pix < x
    ensures TruncDiv(x, pix) >= 0 ==> (TruncDiv(x, pix) < size <==> PixelOn(size, pix, x))
  {
    var g := TruncDiv(x, pix);
    CellOfPixel(x, pix, g);
    if x >= 0 {
      if g < size {
        Ordered(g + 1, size, pix);
      } else {
        Ordered(size, g, pix);
      }
      if g < 0 {
        Ordered(g + 1, 0, pix);
      }
    } else {
      if g < 0 {
        Ordered(g, -1, pix);
      } else {
        Ordered(-1, g - 1, pix);
      }
      Ordered(0, size, pix);
    }
  }

  /** The ceiling is the least number of cells that hold so many pixels. */
  lemma CellsFor(a: int, pix: int)
    requires pix > 0 && a >= 0
    ensures (CeilDiv(a, pix) - 1) * pix < a <= CeilDiv(a, pix) * pix && CeilDiv(a, pix) >= 0
  {
    var q: int := (-a) / pix;
    assert q * pix <= -a < (q + 1) * pix;
    Mirrored(q + 1, pix);
    Mirrored(q, pix);
    if q > 0 {
      Ordered(1, q, pix);
    }
  }

  function Lo(p: int, range: int): int { if p - range < 0 then 0 else p - range }

  function Hi(p: int, range: int, size: int): int { if p + range >= size then size - 1 else p + range }

  class GridAOI {
    var width: int
    var height: int
    var pixGrid: int
    var visualWidth: int
    var visualHeight: int
    var entityGrid: array?<seq<Id>>
    var entitySet: set<Id>
    var ctxs: Entities
    // The grid by cells.
    ghost var cells: map<Cell, seq<Id>>

    ghost predicate SlotOk(c: Cell)
      requires c in cells && entityGrid != null
      reads this, entityGrid
    {
      && 0 <= c.x < width && 0 <= c.y < height && Slot(c.y, c.x, width) < entityGrid.Length
      && 0 <= Slot(c.y, c.x, width) && entityGrid[Slot(c.y, c.x, width)] == cells[c]
    }

    /** The grid has its size, and every slot is a cell's. */
    ghost predicate Sized()
      reads this, entityGrid
    {
      && 0 <= width && 0 <= height && pixGrid > 0 && 0 <= visualWidth && 0 <= visualHeight
      && entityGrid != null && entityGrid.Length == width * height
      && (forall x, y | 0 <= x < width && 0 <= y < height :: Cell(x, y) in cells)
      && forall c | c in cells :: SlotOk(c)
    }

    /** Every entity is listed once in its cell, and every list of interest is exact. */
    ghost predicate Valid()
      reads this, entityGrid
    {
      Sized() && entitySet == ctxs.Keys && Placed(cells, ctxs, {}) && Exact(ctxs, visualWidth, visualHeight)
    }

    predicate ValidPos(x: int, y: int, dx: int, dy: int)
      reads this
    {
      !(x < 0 || y < 0 || dx >= width || dy >= height)
    }

    // The pixel size of a cell is left as it was found.
    constructor (memory: int)
      ensures width == height == visualWidth == visualHeight == 0 && entityGrid == null && pixGrid == memory
      ensures entitySet == {} && ctxs == map[]
    {
      width, height, visualWidth, visualHeight, entityGrid, pixGrid := 0, 0, 0, 0, null, memory;
      entitySet, ctxs, cells := {}, map[], map[];
    }

    /** Sets the size from pixels, before anything else. */
    method SetSize(w: nat, h: nat, pix: int)
      requires pix > 0 && entityGrid == null && entitySet == {} && ctxs == map[] && visualWidth == visualHeight == 0
      modifies this
      ensures Valid() && fresh(entityGrid) && pixGrid == pix
      ensures (width - 1) * pix < w <= width * pix && (height - 1) * pix < h <= height * pix
      ensures visualWidth == visualHeight == 0 && ctxs == map[]
    {
      CellsFor(w, pix);
      CellsFor(h, pix);
      pixGrid := pix;
      width := CeilDiv(w, pixGrid);
      height := CeilDiv(h, pixGrid);
      var n: nat := width * height;
      entityGrid := new seq<Id>[n](_ => []);
      cells := map x: int, y: int | 0 <= x < width && 0 <= y < height :: Cell(x, y) := [];
      forall c | c in cells
        ensures SlotOk(c)
      {
        SlotInRange(c.y, c.x, height, width);
      }
    }

    /** Sets how far everybody sees, in pixels. Lists are not brought up to date, so they stay exact only if the
        change makes no difference to anybody, as when there is nobody yet. */
    method SetVisualRange(w: nat, h: nat) returns (ok: bool)
      requires pixGrid > 0 ==> Valid()
      modifies this`visualWidth, this`visualHeight
      ensures ok == (pixGrid > 0)
      ensures ok ==> (visualWidth - 1) * pixGrid < w <= visualWidth * pixGrid && (visualHeight - 1) * pixGrid < h <= visualHeight * pixGrid
      ensures ok ==> (Valid() <==> SameViews(ctxs, old(visualWidth), old(visualHeight), visualWidth, visualHeight))
      ensures ok && ctxs == map[] ==> Valid()
      ensures !ok ==> unchanged(this)
    {
      if pixGrid <= 0 {
        return false;
      }
      CellsFor(w, pixGrid);
      CellsFor(h, pixGrid);
      visualWidth := CeilDiv(w, pixGrid);
      visualHeight := CeilDiv(h, pixGrid);
      assert forall c | c in cells :: old(SlotOk(c));
      OtherRange(ctxs, old(visualWidth), old(visualHeight), visualWidth, visualHeight);
      return true;
    }

    /** Puts an entity that has been out of the grid into its cell. */
    method InsertGridEntity(x: int, y: int, id: Id)
      requires Sized() && id in ctxs && CellOf(ctxs[id]) == Cell(x, y) && ValidPos(x, y, x, y) && Placed(cells, ctxs, {id})
      modifies this`cells, entityGrid
      ensures Sized() && Placed(cells, ctxs, {})
    {
      ghost var c := Cell(x, y);
      SlotInRange(y, x, height, width);
      assert SlotOk(c) && CellOk(cells, ctxs, {id}, c);
      ghost var s := cells[c];
      entityGrid[x + width * y] := entityGrid[x + width * y] + [id];
      cells := cells[c := s + [id]];
      OneSlot(c);
      CellFilled(old(cells), cells, ctxs, id, c);
    }

    /** Takes an entity out of its cell. */
    method RemoveGridEntity(x: int, y: int, id: Id) returns (ok: bool)
      requires Sized() && id in ctxs && CellOf(ctxs[id]) == Cell(x, y) && Placed(cells, ctxs, {})
      modifies this`cells, entityGrid
      ensures Sized() && Placed(cells, ctxs, {id}) && ok
    {
      ghost var c := Cell(x, y);
      assert SlotOk(c) && CellOk(cells, ctxs, {}, c);
      SlotInRange(y, x, height, width);
      var list := entityGrid[x + width * y];
      ok := list != [];
      if ok {
        var list', found := RemoveEntityFromVector(list, id);
        entityGrid[x + width * y] := list';
        cells := cells[c := list'];
        OneSlot(c);
        CellCleared(old(cells), cells, ctxs, id, c);
      }
    }

    /** The entities in a rectangle of cells, in the order in which the grid is walked. */
    method RawEachRange(x: int, y: int, dx: int, dy: int, ghost gone: set<Id>) returns (visited: seq<Id>)
      requires Sized() && Placed(cells, ctxs, gone) && 0 <= x && 0 <= y && dx < width && dy < height
      ensures NoDup(visited) && Members(visited) == RangeSet(ctxs, gone, Rect(x, y, dx, dy))
    {
      hide NoDup;
      hide Met;
      hide Placed;
      hide RangeSet;
      hide Members;
      visited := [];
      StartSweep(gone, Rect(x, y, dx, dy));
      var ix := x;
      while ix <= dx
        invariant x <= ix && Met(ctxs, gone, Rect(x, y, dx, dy), ix, y, visited)
        decreases dx - ix
      {
        visited := VisitColumn(ix, Rect(x, y, dx, dy), visited, gone);
        ix := ix + 1;
      }
      SweepDone(gone, Rect(x, y, dx, dy), ix, visited);
    }

    /** The walk over one column. */
    method VisitColumn(ix: int, r: Rect, visited: seq<Id>, ghost gone: set<Id>) returns (visited': seq<Id>)
      requires Sized() && Placed(cells, ctxs, gone) && 0 <= r.x <= ix <= r.dx < width && 0 <= r.y && r.dy < height
      requires Met(ctxs, gone, r, ix, r.y, visited)
      ensures Met(ctxs, gone, r, ix + 1, r.y, visited')
    {
      hide NoDup;
      hide Met;
      visited' := visited;
      var iy := r.y;
      while iy <= r.dy
        invariant r.y <= iy && Met(ctxs, gone, r, ix, iy, visited')
        decreases r.dy - iy
      {
        assert SlotOk(Cell(ix, iy)) && CellOk(cells, ctxs, gone, Cell(ix, iy));
        SlotInRange(iy, ix, height, width);
        MeetCell(cells, ctxs, gone, r, ix, iy, visited');
        visited' := visited' + entityGrid[ix + width * iy];
        iy := iy + 1;
      }
      NextColumn(ctxs, gone, r, ix, iy, visited');
    }

    lemma StartSweep(gone: set<Id>, r: Rect)
      ensures Met(ctxs, gone, r, r.x, r.y, [])
    {
    }

    lemma SweepDone(gone: set<Id>, r: Rect, ix: int, visited: seq<Id>)
      requires Met(ctxs, gone, r, ix, r.y, visited) && ix > r.dx
      ensures NoDup(visited) && Members(visited) == RangeSet(ctxs, gone, r)
    {
      forall o
        ensures o in visited <==> o in RangeSet(ctxs, gone, r)
      {
        assert o in visited <==> o in ctxs && o !in gone && Swept(ctxs[o], r, ix, r.y);
      }
    }

    /** Everybody in a rectangle given in pixels: those in cells of which it takes in a pixel, where what is left of the first
        cell or above it counts as in it. */
    method EachRangeEntity(x: int, y: int, dx: int, dy: int) returns (ret: int, visited: seq<Id>)
      requires Valid()
      ensures ret == if x > dx || y > dy || x <= -pixGrid || y <= -pixGrid
                        || !PixelOn(width, pixGrid, dx) || !PixelOn(height, pixGrid, dy)
                     then -1 else 0
      ensures ret == -1 ==> visited == []
      ensures ret == 0 ==>
                && NoDup(visited)
                && forall o :: o in visited <==>
                                 && o in ctxs && x < (ctxs[o].posX + 1) * pixGrid && y < (ctxs[o].posY + 1) * pixGrid
                                 && (ctxs[o].posX == 0 || ctxs[o].posX * pixGrid <= dx) && (ctxs[o].posY == 0 || ctxs[o].posY * pixGrid <= dy)
    {
      if x > dx || y > dy {
        return -1, [];
      }
      var gx, gy := TruncDiv(x, pixGrid), TruncDiv(y, pixGrid);
      var gdx, gdy := TruncDiv(dx, pixGrid), TruncDiv(dy, pixGrid);
      PixelOnGrid(x, pixGrid, width);
      PixelOnGrid(y, pixGrid, height);
      PixelOnGrid(dx, pixGrid, width);
      PixelOnGrid(dy, pixGrid, height);
      if !ValidPos(gx, gy, gdx, gdy) {
        return -1, [];
      }
      visited := RawEachRange(gx, gy, gdx, gdy, {});
      PixelsMet(x, y, dx, dy, visited);
      return 0, visited;
    }

    lemma PixelsMet(x: int, y: int, dx: int, dy: int, visited: seq<Id>)
      requires Valid() && -pixGrid < x <= dx && -pixGrid < y <= dy
      requires Members(visited) == RangeSet(ctxs, {}, Rect(TruncDiv(x, pixGrid), TruncDiv(y, pixGrid), TruncDiv(dx, pixGrid), TruncDiv(dy, pixGrid)))
      ensures forall o :: o in visited <==>
                            && o in ctxs && x < (ctxs[o].posX + 1) * pixGrid && y < (ctxs[o].posY + 1) * pixGrid
                            && (ctxs[o].posX == 0 || ctxs[o].posX * pixGrid <= dx) && (ctxs[o].posY == 0 || ctxs[o].posY * pixGrid <= dy)
    {
      forall o
        ensures o in visited <==>
                  && o in ctxs && x < (ctxs[o].posX + 1) * pixGrid && y < (ctxs[o].posY + 1) * pixGrid
                  && (ctxs[o].posX == 0 || ctxs[o].posX * pixGrid <= dx) && (ctxs[o].posY == 0 || ctxs[o].posY * pixGrid <= dy)
      {
        assert o in visited <==> o in Members(visited);
        if o in ctxs {
          assert CellOf(ctxs[o]) in cells && SlotOk(CellOf(ctxs[o]));
          Between(x, dx, pixGrid, ctxs[o].posX);
          Between(y, dy, pixGrid, ctxs[o].posY);
        }
      }
    }

    /** One entity goes out of another's view. */
    method ExitOne(id: Id, other: Id, ghost mine: set<Id>, ghost theirs: set<Id>)
      requires id in ctxs && other in ctxs && other != id
      requires ListsOk(ctxs, id, mine, theirs, visualWidth, visualHeight)
      modifies this`ctxs
      ensures ListsOk(ctxs, id, mine - {other}, theirs - {other}, visualWidth, visualHeight)
      ensures SameButLists(old(ctxs), ctxs)
    {
      hide ListsOk;
      hide Without;
      ghost var m := ctxs;
      if Interested(ctxs[id]) {
        var list, found := RemoveEntityFromVector(ctxs[other].interestMe, id);
        ctxs := ctxs[other := ctxs[other].(interestMe := list)];
      }
      if Interested(ctxs[other]) {
        var list, found := RemoveEntityFromVector(ctxs[id].interestMe, other);
        ctxs := ctxs[id := ctxs[id].(interestMe := list)];
      }
      ExitStep(m, ctxs, id, other, mine, theirs, visualWidth, visualHeight);
    }

    /** One entity comes into another's view. */
    method EnterOne(id: Id, other: Id, ghost mine: set<Id>, ghost theirs: set<Id>)
      requires id in ctxs && other in ctxs && other != id && other !in mine && other !in theirs
      requires ListsOk(ctxs, id, mine, theirs, visualWidth, visualHeight)
      modifies this`ctxs
      ensures ListsOk(ctxs, id, mine + {other}, theirs + {other}, visualWidth, visualHeight)
      ensures SameButLists(old(ctxs), ctxs)
    {
      hide ListsOk;
      ghost var m := ctxs;
      if Interested(ctxs[id]) {
        ctxs := ctxs[other := ctxs[other].(interestMe := ctxs[other].interestMe + [id])];
      }
      if Interested(ctxs[other]) {
        ctxs := ctxs[id := ctxs[id].(interestMe := ctxs[id].interestMe + [other])];
      }
      EnterStep(m, ctxs, id, other, mine, theirs, visualWidth, visualHeight);
    }

    /** Everybody in a rectangle goes out of an entity's view. */
    method EntityExitRange(id: Id, x: int, y: int, dx: int, dy: int, list: seq<Id>, ghost mine: set<Id>, ghost theirs: set<Id>)
      returns (list': seq<Id>, ghost visited: seq<Id>)
      requires Sized() && id in ctxs && Placed(cells, ctxs, {id}) && 0 <= x && 0 <= y && dx < width && dy < height
      requires ListsOk(ctxs, id, mine, theirs, visualWidth, visualHeight)
      modifies this`ctxs
      ensures Sized() && Placed(cells, ctxs, {id}) && SameButLists(old(ctxs), ctxs)
      ensures ListsOk(ctxs, id, mine - Members(visited), theirs - Members(visited), visualWidth, visualHeight)
      ensures list' == list + visited && (list == [] ==> list' == visited)
      ensures NoDup(visited) && Members(visited) == RangeSet(old(ctxs), {id}, Rect(x, y, dx, dy))
    {
      hide ListsOk;
      var others := RawEachRange(x, y, dx, dy, {id});
      list' := list;
      ghost var m := ctxs;
      var i := 0;
      assert mine - Members([]) == mine && theirs - Members([]) == theirs;
      while i < |others|
        invariant i <= |others| && SameButLists(m, ctxs) && list' == list + others[..i]
        invariant ListsOk(ctxs, id, mine - Members(others[..i]), theirs - Members(others[..i]), visualWidth, visualHeight)
      {
        assert others[i] in Members(others);
        OneMore(others, i);
        ghost var seen := Members(others[..i]);
        ExitOne(id, others[i], mine - seen, theirs - seen);
        assert mine - seen - {others[i]} == mine - Members(others[..i + 1]);
        assert theirs - seen - {others[i]} == theirs - Members(others[..i + 1]);
        list' := list' + [others[i]];
        i := i + 1;
      }
      assert others[..i] == others;
      visited := others;
      ListsDoNotPlace(cells, m, ctxs, {id});
    }

    /** Everybody in a rectangle comes into an entity's view. */
    method EntityEnterRange(id: Id, x: int, y: int, dx: int, dy: int, list: seq<Id>, ghost mine: set<Id>, ghost theirs: set<Id>)
      returns (list': seq<Id>, ghost visited: seq<Id>)
      requires Sized() && id in ctxs && Placed(cells, ctxs, {id}) && 0 <= x && 0 <= y && dx < width && dy < height
      requires ListsOk(ctxs, id, mine, theirs, visualWidth, visualHeight)
      requires RangeSet(ctxs, {id}, Rect(x, y, dx, dy)) !! mine + theirs
      modifies this`ctxs
      ensures Sized() && Placed(cells, ctxs, {id}) && SameButLists(old(ctxs), ctxs)
      ensures ListsOk(ctxs, id, mine + Members(visited), theirs + Members(visited), visualWidth, visualHeight)
      ensures list' == list + visited && (list == [] ==> list' == visited)
      ensures NoDup(visited) && Members(visited) == RangeSet(old(ctxs), {id}, Rect(x, y, dx, dy))
    {
      hide ListsOk;
      var others := RawEachRange(x, y, dx, dy, {id});
      list' := list;
      ghost var m := ctxs;
      var i := 0;
      assert mine + Members([]) == mine && theirs + Members([]) == theirs;
      while i < |others|
        invariant i <= |others| && SameButLists(m, ctxs) && list' == list + others[..i]
        invariant ListsOk(ctxs, id, mine + Members(others[..i]), theirs + Members(others[..i]), visualWidth, visualHeight)
      {
        assert others[i] in Members(others);
        OneMore(others, i);
        ghost var seen := Members(others[..i]);
        EnterOne(id, others[i], mine + seen, theirs + seen);
        assert mine + seen + {others[i]} == mine + Members(others[..i + 1]);
        assert theirs + seen + {others[i]} == theirs + Members(others[..i + 1]);
        list' := list' + [others[i]];
        i := i + 1;
      }
      assert others[..i] == others;
      visited := others;
      ListsDoNotPlace(cells, m, ctxs, {id});
    }

    /** What can be seen from a cell: of the cells of the grid exactly those that are no further off than the range, and
        none outside of it. */
    method GetVisualRange(posX: int, posY: int) returns (r: Rect)
      ensures forall x, y | 0 <= x < width && 0 <= y < height ::
                Covers(r, x, y) <==> Within(x, posX, visualWidth) && Within(y, posY, visualHeight)
      ensures 0 <= r.x && 0 <= r.y && r.dx < width && r.dy < height
      ensures r == View(posX, posY)
    {
      var x, y, dx, dy := posX - visualWidth, posY - visualHeight, posX + visualWidth, posY + visualHeight;
      if x < 0 { x := 0; }
      if y < 0 { y := 0; }
      if dx >= width { dx := width - 1; }
      if dy >= height { dy := height - 1; }
      return Rect(x, y, dx, dy);
    }

    ghost function View(posX: int, posY: int): Rect
      reads this
    {
      Rect(Lo(posX, visualWidth), Lo(posY, visualHeight), Hi(posX, visualWidth, width), Hi(posY, visualHeight, height))
    }

    /** On the grid, what is in view of a cell is what is near it. */
    lemma ViewIsNear(id: Id, e: Entity)
      requires Sized() && Placed(cells, ctxs, {id}) && ValidPos(e.posX, e.posY, e.posX, e.posY)
      ensures var r := View(e.posX, e.posY);
              0 <= r.x <= e.posX <= r.dx < width && 0 <= r.y <= e.posY <= r.dy < height
      ensures RangeSet(ctxs, {id}, View(e.posX, e.posY)) == NearSet(ctxs, id, e, visualWidth, visualHeight)
    {
      forall o | o in ctxs
        ensures In(ctxs[o], View(e.posX, e.posY)) <==> Near(ctxs[o], e, visualWidth, visualHeight)
      {
        assert CellOf(ctxs[o]) in cells && SlotOk(CellOf(ctxs[o]));
      }
    }

    /** Brings a new entity in, and tells who is there to be seen: all others whose cells are near enough. */
    method EnterEntity(id: Id, x: int, y: int, mask: bv8) returns (ret: int, list: seq<Id>)
      requires Valid()
      modifies this`entitySet, this`ctxs, this`cells, entityGrid
      ensures Valid()
      ensures ret == if !PixelOn(width, pixGrid, x) || !PixelOn(height, pixGrid, y) then -1 else if id in old(ctxs) then 2 else 0
      ensures ret != 0 ==> list == [] && ctxs == old(ctxs)
      ensures ret == 0 ==>
                && ctxs.Keys == old(ctxs.Keys) + {id} && SameButLists(old(ctxs), ctxs - {id})
                && ctxs[id].mask == mask && PixelIn(ctxs[id].posX, pixGrid, x) && PixelIn(ctxs[id].posY, pixGrid, y)
      ensures ret == 0 ==>
                && NoDup(list)
                && forall o :: o in list <==>
                                 && o in old(ctxs)
                                 && -visualWidth <= old(ctxs)[o].posX - ctxs[id].posX <= visualWidth
                                 && -visualHeight <= old(ctxs)[o].posY - ctxs[id].posY <= visualHeight
    {
      var gx, gy := TruncDiv(x, pixGrid), TruncDiv(y, pixGrid);
      PixelOnGrid(x, pixGrid, width);
      PixelOnGrid(y, pixGrid, height);
      if !ValidPos(gx, gy, gx, gy) {
        return -1, [];
      }
      if id in entitySet {
        return 2, [];
      }
      CellOfPixel(x, pixGrid, gx);
      CellOfPixel(y, pixGrid, gy);
      hide PixelIn;
      hide Valid;
      hide SameButLists;
      ret, list := EnterAt(id, gx, gy, mask);
      NearPlainly(old(ctxs), id, ctxs[id], visualWidth, visualHeight, list);
    }

    /** The part of an entry that is about cells. */
    method EnterAt(id: Id, gx: int, gy: int, mask: bv8) returns (ret: int, list: seq<Id>)
      requires Valid() && id !in ctxs && ValidPos(gx, gy, gx, gy)
      modifies this`entitySet, this`ctxs, this`cells, entityGrid
      ensures Valid() && ret == 0 && ctxs.Keys == old(ctxs.Keys) + {id}
      ensures ctxs[id] == Entity(mask, gx, gy, ctxs[id].interestMe) && SameButLists(old(ctxs), ctxs - {id})
      ensures NoDup(list) && Members(list) == NearSet(old(ctxs), id, ctxs[id], visualWidth, visualHeight)
    {
      hide Exact;
      hide Placed;
      hide ListsOk;
      hide NearSet;
      hide RangeSet;
      hide View;
      hide NoDup;
      hide Members;
      hide SameButLists;
      var e := Entity(mask, gx, gy, []);
      Newcomer(cells, ctxs, id, e, visualWidth, visualHeight);
      ghost var m := ctxs;
      entitySet := entitySet + {id};
      ctxs := ctxs[id := e];
      ghost var l, visited := ctxs, [];
      var r := GetVisualRange(gx, gy);
      ViewIsNear(id, e);
      list, visited := EntityEnterRange(id, r.x, r.y, r.dx, r.dy, [], {}, {});
      ghost var v := NearSet(l, id, e, visualWidth, visualHeight);
      NewcomerSame(m, id, e, ctxs);
      NewcomerNear(m, id, e, ctxs[id], visualWidth, visualHeight);
      NearKept(l, ctxs, id, e, ctxs[id], visualWidth, visualHeight);
      assert {} + Members(visited) == v;
      Arrived(cells, ctxs, id, ctxs[id], v, visualWidth, visualHeight);
      InsertGridEntity(gx, gy, id);
      ret := 0;
    }

    /** Empties an entity's own list, which spares searching it, and takes the entity off all others'. */
    method LeaveView(id: Id, list: seq<Id>) returns (list': seq<Id>, ghost visited: seq<Id>)
      requires Sized() && id in ctxs && Placed(cells, ctxs, {id}) && CellOf(ctxs[id]) in cells
      requires var v := NearSet(ctxs, id, ctxs[id], visualWidth, visualHeight);
               ListsOk(ctxs, id, v, v, visualWidth, visualHeight)
      modifies this`ctxs
      ensures ListsOk(ctxs, id, {}, {}, visualWidth, visualHeight)
      ensures Sized() && Placed(cells, ctxs, {id}) && SameButLists(old(ctxs), ctxs)
      ensures list' == list + visited && NoDup(visited)
      ensures Members(visited) == NearSet(old(ctxs), id, old(ctxs[id]), visualWidth, visualHeight)
    {
      hide Placed;
      hide ListsOk;
      hide NearSet;
      hide RangeSet;
      hide View;
      hide NoDup;
      hide Members;
      hide SameButLists;
      ghost var m, v := ctxs, NearSet(ctxs, id, ctxs[id], visualWidth, visualHeight);
      var e := ctxs[id].(interestMe := []);
      assert SlotOk(CellOf(e));
      MineCleared(ctxs, id, v, v, visualWidth, visualHeight);
      ListsDoNotPlace(cells, ctxs, ctxs[id := e], {id});
      ctxs := ctxs[id := e];
      ghost var l := ctxs;
      NearKept(m, l, id, m[id], e, visualWidth, visualHeight);
      ViewIsNear(id, e);
      var r := GetVisualRange(e.posX, e.posY);
      list', visited := EntityExitRange(id, r.x, r.y, r.dx, r.dy, list, {}, v);
      SameTrans(m, l, ctxs);
      assert {} - Members(visited) == {} && v - Members(visited) == {};
    }

    method Leave(id: Id) returns (ret: int, list: seq<Id>)
      requires Valid() && id in ctxs
      modifies this`entitySet, this`ctxs, this`cells, entityGrid
      ensures Valid() && ret == 0 && list == old(ctxs[id].interestMe) && SameButLists(old(ctxs) - {id}, ctxs)
    {
      hide Exact;
      hide Placed;
      hide ListsOk;
      hide NearSet;
      hide SameButLists;
      ghost var m := ctxs;
      entitySet := entitySet - {id};
      var e := ctxs[id];
      OnGrid(id);
      var ok := RemoveGridEntity(e.posX, e.posY, id);
      list := e.interestMe;
      ghost var mine, theirs := LeaveAll(id);
      LeftSame(m, ctxs, id);
      Gone(cells, ctxs, id, mine, theirs, visualWidth, visualHeight);
      ctxs := ctxs - {id};
      ret := if ok then 0 else -1;
    }

    /** An entity that nobody cares to be told of has nobody's list to get off. */
    method LeaveAll(id: Id) returns (ghost mine: set<Id>, ghost theirs: set<Id>)
      requires Sized() && id in ctxs && Placed(cells, ctxs, {id}) && CellOf(ctxs[id]) in cells && Exact(ctxs, visualWidth, visualHeight)
      requires ValidPos(ctxs[id].posX, ctxs[id].posY, ctxs[id].posX, ctxs[id].posY)
      modifies this`ctxs
      ensures Sized() && Placed(cells, ctxs, {id}) && SameButLists(old(ctxs), ctxs)
      ensures ListsOk(ctxs, id, mine, theirs, visualWidth, visualHeight) && (Interested(old(ctxs[id])) ==> theirs == {})
    {
      hide Exact;
      hide Placed;
      hide ListsOk;
      hide NearSet;
      hide SameButLists;
      ghost var v := NearSet(ctxs, id, ctxs[id], visualWidth, visualHeight);
      mine, theirs := v, v;
      ExactIsListsOk(ctxs, id, visualWidth, visualHeight);
      AllSame(ctxs);
      if Interested(ctxs[id]) {
        ghost var visited, gone := [], [];
        gone, visited := LeaveView(id, []);
        mine, theirs := {}, {};
      }
    }

    /** Takes an entity out, and tells who was interested in it. */
    method ExitEntity(id: Id) returns (ret: int, list: seq<Id>)
      requires Valid()
      modifies this`entitySet, this`ctxs, this`cells, entityGrid
      ensures Valid()
      ensures id !in old(ctxs) ==> ret == 1 && list == [] && ctxs == old(ctxs)
      ensures id in old(ctxs) ==>
                ret == 0 && list == old(ctxs[id].interestMe) && SameButLists(old(ctxs) - {id}, ctxs)
    {
      assert entitySet == ctxs.Keys;
      hide Valid;
      hide SameButLists;
      if id !in entitySet {
        return 1, [];
      }
      ret, list := Leave(id);
    }

    /** The rows of column ix of r that are not in t, if there are any. */
    method ColumnRows(r: Rect, t: Rect, ix: int) returns (some: bool, iy: int, idy: int)
      requires CutsOneSide(r, t) && r.x <= ix <= r.dx
      ensures Rows(r, t, ix, iy, idy) && some == (iy <= idy)
      ensures some ==> r.y <= iy && idy <= r.dy
    {
      iy, idy := r.y, r.dy;
      if ix >= t.x && ix <= t.dx {
        if r.dy > t.dy {
          iy := t.dy + 1;
          idy := r.dy;
        } else if r.y < t.y {
          iy := r.y;
          idy := t.y - 1;
        } else {
          return false, r.y, t.y - 1;
        }
      }
      assert iy <= idy;
      return true, iy, idy;
    }

    /** Everybody in r but not in t goes out of an entity's view, column by column. */
    method SweepExit(id: Id, r: Rect, t: Rect, list: seq<Id>, ghost v: set<Id>) returns (list': seq<Id>, ghost visited: seq<Id>)
      requires Sized() && id in ctxs && Placed(cells, ctxs, {id}) && CutsOneSide(r, t)
      requires 0 <= r.x && 0 <= r.y && r.dx < width && r.dy < height
      requires ListsOk(ctxs, id, v, v, visualWidth, visualHeight)
      modifies this`ctxs
      ensures Sized() && Placed(cells, ctxs, {id}) && SameButLists(old(ctxs), ctxs)
      ensures ListsOk(ctxs, id, v - Members(visited), v - Members(visited), visualWidth, visualHeight)
      ensures list' == list + visited && NoDup(visited)
      ensures Members(visited) == RangeSet(old(ctxs), {id}, r) - RangeSet(old(ctxs), {id}, t)
    {
      hide Placed;
      hide ListsOk;
      hide RangeSet;
      hide StripSet;
      hide NoDup;
      hide SameButLists;
      hide CutsOneSide;
      hide Sized;
      ghost var m := ctxs;
      AllStrips(m, id, r, t);
      AllSame(m);
      NoneYet(v);
      list', visited := list, [];
      var ix := r.x;
      CutWidth(r, t);
      while ix <= r.dx
        invariant r.x <= ix <= r.dx + 1
        invariant Sized() && Placed(cells, ctxs, {id}) && SameButLists(m, ctxs) && id in ctxs
        invariant ListsOk(ctxs, id, v - Members(visited), v - Members(visited), visualWidth, visualHeight)
        invariant list' == list + visited && NoDup(visited) && Members(visited) == StripSet(m, id, r, t, ix)
      {
        var some, iy, idy := ColumnRows(r, t, ix);
        NextStrip(m, id, r, t, ix, iy, idy);
        ghost var col := [];
        if some {
          ghost var l := ctxs;
          list', col := EntityExitRange(id, ix, iy, ix, idy, list', v - Members(visited), v - Members(visited));
          RangeKept(m, l, {id}, Rect(ix, iy, ix, idy));
          SameTrans(m, l, ctxs);
        } else {
          EmptyRange(m, {id}, Rect(ix, iy, ix, idy));
          assert visited + [] == visited;
        }
        JoinedMembers(visited, col);
        assert v - Members(visited) - Members(col) == v - Members(visited + col);
        assert list + visited + col == list + (visited + col);
        visited := visited + col;
        ix := ix + 1;
      }
    }

    /** Everybody in r but not in t comes into an entity's view, column by column. */
    method SweepEnter(id: Id, r: Rect, t: Rect, list: seq<Id>, ghost v: set<Id>) returns (list': seq<Id>, ghost visited: seq<Id>)
      requires Sized() && id in ctxs && Placed(cells, ctxs, {id}) && CutsOneSide(r, t)
      requires 0 <= r.x && 0 <= r.y && r.dx < width && r.dy < height
      requires ListsOk(ctxs, id, v, v, visualWidth, visualHeight)
      requires RangeSet(ctxs, {id}, r) - RangeSet(ctxs, {id}, t) !! v
      modifies this`ctxs
      ensures Sized() && Placed(cells, ctxs, {id}) && SameButLists(old(ctxs), ctxs)
      ensures ListsOk(ctxs, id, v + Members(visited), v + Members(visited), visualWidth, visualHeight)
      ensures list' == list + visited && NoDup(visited)
      ensures Members(visited) == RangeSet(old(ctxs), {id}, r) - RangeSet(old(ctxs), {id}, t)
    {
      hide Placed;
      hide ListsOk;
      hide RangeSet;
      hide StripSet;
      hide NoDup;
      hide SameButLists;
      hide CutsOneSide;
      hide Sized;
      ghost var m := ctxs;
      AllStrips(m, id, r, t);
      AllSame(m);
      NoneYet(v);
      list', visited := list, [];
      var ix := r.x;
      CutWidth(r, t);
      while ix <= r.dx
        invariant r.x <= ix <= r.dx + 1
        invariant Sized() && Placed(cells, ctxs, {id}) && SameButLists(m, ctxs) && id in ctxs
        invariant ListsOk(ctxs, id, v + Members(visited), v + Members(visited), visualWidth, visualHeight)
        invariant list' == list + visited && NoDup(visited) && Members(visited) == StripSet(m, id, r, t, ix)
      {
        var some, iy, idy := ColumnRows(r, t, ix);
        NextStrip(m, id, r, t, ix, iy, idy);
        StripsWithin(m, id, r, t, ix + 1);
        ghost var col := [];
        if some {
          ghost var l := ctxs;
          RangeKept(m, l, {id}, Rect(ix, iy, ix, idy));
          list', col := EntityEnterRange(id, ix, iy, ix, idy, list', v + Members(visited), v + Members(visited));
          SameTrans(m, l, ctxs);
        } else {
          EmptyRange(m, {id}, Rect(ix, iy, ix, idy));
          assert visited + [] == visited;
        }
        JoinedMembers(visited, col);
        assert v + Members(visited) + Members(col) == v + Members(visited + col);
        assert list + visited + col == list + (visited + col);
        visited := visited + col;
        ix := ix + 1;
      }
    }

    lemma NoneYet(v: set<Id>)
      ensures Members([]) == {} && NoDup<Id>([]) && v - {} == v && v + {} == v
    {
    }

    lemma CutWidth(r: Rect, t: Rect)
      requires CutsOneSide(r, t)
      ensures r.x <= r.dx
    {
    }

    /** Brings the lists from the view of one cell to that of another, which the entity is not put into yet. */
    method ChangeViews(id: Id, gx: int, gy: int, ghost e': Entity) returns (listIn: seq<Id>, listOut: seq<Id>)
      requires Sized() && id in ctxs && Placed(cells, ctxs, {id}) && CellOf(ctxs[id]) in cells && ValidPos(gx, gy, gx, gy)
      requires CellOf(e') == Cell(gx, gy)
      requires var v := NearSet(ctxs, id, ctxs[id], visualWidth, visualHeight);
               ListsOk(ctxs, id, v, v, visualWidth, visualHeight)
      modifies this`ctxs
      ensures Sized() && Placed(cells, ctxs, {id}) && SameButLists(old(ctxs), ctxs)
      ensures var before := NearSet(old(ctxs), id, old(ctxs[id]), visualWidth, visualHeight);
              var after := NearSet(old(ctxs), id, e', visualWidth, visualHeight);
              && ListsOk(ctxs, id, after, after, visualWidth, visualHeight)
              && NoDup(listOut) && Members(listOut) == before - after
              && NoDup(listIn) && Members(listIn) == after - before
    {
      hide Placed;
      hide ListsOk;
      hide NearSet;
      hide RangeSet;
      hide NoDup;
      hide Members;
      hide SameButLists;
      ghost var m, e := ctxs, ctxs[id];
      assert SlotOk(CellOf(e));
      ViewIsNear(id, e);
      ViewIsNear(id, e');
      ghost var v := RangeSet(m, {id}, View(e.posX, e.posY));
      var old_ := GetVisualRange(ctxs[id].posX, ctxs[id].posY);
      var new_ := GetVisualRange(gx, gy);
      var t := Intersection(old_, new_);
      hide Sized;
      hide View;
      if t.x > t.dx || t.y > t.dy {
        ViewsApart(m, id, old_, new_);
        hide Intersection;
        listIn, listOut := JumpViews(id, old_, new_);
      } else {
        ViewsCut(old_, new_);
        hide CutsOneSide;
        hide Intersection;
        listIn, listOut := SlideViews(id, old_, new_, t);
      }
    }

    /** The two views have no cell in common. */
    method JumpViews(id: Id, ghost r: Rect, s: Rect) returns (listIn: seq<Id>, listOut: seq<Id>)
      requires Sized() && id in ctxs && Placed(cells, ctxs, {id}) && CellOf(ctxs[id]) in cells
      requires 0 <= s.x && 0 <= s.y && s.dx < width && s.dy < height
      requires var v := RangeSet(ctxs, {id}, r);
               v == NearSet(ctxs, id, ctxs[id], visualWidth, visualHeight) && ListsOk(ctxs, id, v, v, visualWidth, visualHeight)
      modifies this`ctxs
      ensures Sized() && Placed(cells, ctxs, {id}) && SameButLists(old(ctxs), ctxs)
      ensures var w := RangeSet(old(ctxs), {id}, s); ListsOk(ctxs, id, w, w, visualWidth, visualHeight)
      ensures NoDup(listOut) && Members(listOut) == RangeSet(old(ctxs), {id}, r)
      ensures NoDup(listIn) && Members(listIn) == RangeSet(old(ctxs), {id}, s)
    {
      hide Placed;
      hide ListsOk;
      hide NearSet;
      hide RangeSet;
      hide NoDup;
      hide Members;
      hide SameButLists;
      hide Sized;
      ghost var m, out_, in_ := ctxs, [], [];
      listOut, out_ := LeaveView(id, []);
      ghost var l := ctxs;
      RangeKept(m, l, {id}, s);
      LeftSame(m, l, id);
      listIn, in_ := EntityEnterRange(id, s.x, s.y, s.dx, s.dy, [], {}, {});
      assert {} + Members(in_) == Members(in_);
      SameTrans(m, l, ctxs);
      assert [] + out_ == out_;
    }

    /** The two views have the cells of t in common. */
    method SlideViews(id: Id, r: Rect, s: Rect, t: Rect) returns (listIn: seq<Id>, listOut: seq<Id>)
      requires Sized() && id in ctxs && Placed(cells, ctxs, {id}) && CutsOneSide(r, t) && CutsOneSide(s, t)
      requires 0 <= r.x && 0 <= r.y && r.dx < width && r.dy < height && 0 <= s.x && 0 <= s.y && s.dx < width && s.dy < height
      requires t == Intersection(r, s)
      requires var v := RangeSet(ctxs, {id}, r); ListsOk(ctxs, id, v, v, visualWidth, visualHeight)
      modifies this`ctxs
      ensures Sized() && Placed(cells, ctxs, {id}) && SameButLists(old(ctxs), ctxs)
      ensures var w := RangeSet(old(ctxs), {id}, s); ListsOk(ctxs, id, w, w, visualWidth, visualHeight)
      ensures NoDup(listOut) && Members(listOut) == RangeSet(old(ctxs), {id}, r) - RangeSet(old(ctxs), {id}, s)
      ensures NoDup(listIn) && Members(listIn) == RangeSet(old(ctxs), {id}, s) - RangeSet(old(ctxs), {id}, r)
    {
      hide Placed;
      hide ListsOk;
      hide RangeSet;
      hide NoDup;
      hide Members;
      hide SameButLists;
      hide Sized;
      hide CutsOneSide;
      hide Intersection;
      ghost var m, out_, in_ := ctxs, [], [];
      ghost var v := RangeSet(ctxs, {id}, r);
      ViewsChanged(m, id, r, s);
      listOut, out_ := SweepExit(id, r, t, [], v);
      ghost var l := ctxs;
      RangeKept(m, l, {id}, s);
      RangeKept(m, l, {id}, t);
      LeftSame(m, l, id);
      listIn, in_ := SweepEnter(id, s, t, [], v - Members(out_));
      SameTrans(m, l, ctxs);
      assert [] + out_ == out_ && [] + in_ == in_;
    }

    /** The part of update_entity that is for a change of cell. */
    method MoveEntity(id: Id, gx: int, gy: int) returns (ret: int, listIn: seq<Id>, listOut: seq<Id>)
      requires Valid() && id in ctxs && ValidPos(gx, gy, gx, gy)
      modifies this`ctxs, this`cells, entityGrid
      ensures Valid() && ctxs.Keys == old(ctxs.Keys) && ret == 0
      ensures var e, e' := old(ctxs[id]), ctxs[id];
              var before, after := NearSet(old(ctxs), id, e, visualWidth, visualHeight), NearSet(old(ctxs), id, e', visualWidth, visualHeight);
              && e' == e.(posX := gx, posY := gy, interestMe := e'.interestMe)
              && SameButLists(old(ctxs)[id := e'], ctxs)
              && NoDup(listOut) && Members(listOut) == before - after
              && NoDup(listIn) && Members(listIn) == after - before
    {
      hide Exact;
      hide Placed;
      hide ListsOk;
      hide NearSet;
      hide NoDup;
      hide Members;
      hide SameButLists;
      ghost var m, e := ctxs, ctxs[id];
      OnGrid(id);
      var ok := RemoveGridEntity(ctxs[id].posX, ctxs[id].posY, id);
      ExactIsListsOk(m, id, visualWidth, visualHeight);
      listIn, listOut := ChangeViews(id, gx, gy, e.(posX := gx, posY := gy));
      Settle(id, gx, gy, m);
      ret := if ok then 0 else -2;
    }

    /** The end of a move: the entity gets its new cell. */
    method Settle(id: Id, gx: int, gy: int, ghost m: Entities)
      requires Sized() && Placed(cells, ctxs, {id}) && id in m && SameButLists(m, ctxs) && ValidPos(gx, gy, gx, gy)
      requires var v := NearSet(m, id, m[id].(posX := gx, posY := gy), visualWidth, visualHeight);
               ListsOk(ctxs, id, v, v, visualWidth, visualHeight)
      requires entitySet == m.Keys
      modifies this`ctxs, this`cells, entityGrid
      ensures Valid() && ctxs.Keys == m.Keys && id in ctxs
      ensures ctxs[id] == m[id].(posX := gx, posY := gy, interestMe := ctxs[id].interestMe)
      ensures SameButLists(m[id := ctxs[id]], ctxs)
      ensures NearSet(m, id, ctxs[id], visualWidth, visualHeight)
           == NearSet(m, id, m[id].(posX := gx, posY := gy), visualWidth, visualHeight)
    {
      hide Exact;
      hide Placed;
      hide ListsOk;
      hide NearSet;
      hide SameButLists;
      ghost var l := ctxs;
      ghost var v := NearSet(m, id, m[id].(posX := gx, posY := gy), visualWidth, visualHeight);
      MovedSame(m, l, id, gx, gy, visualWidth, visualHeight);
      Arrived(cells, l, id, l[id].(posX := gx, posY := gy), v, visualWidth, visualHeight);
      assert Cell(gx, gy) in cells;
      ctxs := ctxs[id := ctxs[id].(posX := gx, posY := gy)];
      InsertGridEntity(gx, gy, id);
    }

    /** Moves an entity, and tells who comes into view and who goes out of it. */
    method UpdateEntity(id: Id, x: int, y: int) returns (ret: int, listIn: seq<Id>, listOut: seq<Id>)
      requires Valid()
      modifies this`ctxs, this`cells, entityGrid
      ensures Valid() && ctxs.Keys == old(ctxs.Keys)
      ensures ret == if !PixelOn(width, pixGrid, x) || !PixelOn(height, pixGrid, y) then -1 else if id !in old(ctxs) then -2 else 0
      ensures ret != 0 ==> ctxs == old(ctxs) && listIn == [] && listOut == []
      ensures ret == 0 ==>
                && SameButLists(old(ctxs)[id := ctxs[id]], ctxs) && ctxs[id].mask == old(ctxs)[id].mask
                && PixelIn(ctxs[id].posX, pixGrid, x) && PixelIn(ctxs[id].posY, pixGrid, y)
                && NoDup(listOut) && NoDup(listIn)
      ensures ret == 0 ==> forall o :: o in listOut <==> o in old(ctxs) && o != id && NearTo(old(ctxs)[o], old(ctxs)[id]) && !NearTo(old(ctxs)[o], ctxs[id])
      ensures ret == 0 ==> forall o :: o in listIn <==> o in old(ctxs) && o != id && !NearTo(old(ctxs)[o], old(ctxs)[id]) && NearTo(old(ctxs)[o], ctxs[id])
    {
      listIn, listOut := [], [];
      var gx, gy := TruncDiv(x, pixGrid), TruncDiv(y, pixGrid);
      PixelOnGrid(x, pixGrid, width);
      PixelOnGrid(y, pixGrid, height);
      if !ValidPos(gx, gy, gx, gy) {
        return -1, [], [];
      }
      if id !in ctxs {
        return -2, [], [];
      }
      CellOfPixel(x, pixGrid, gx);
      CellOfPixel(y, pixGrid, gy);
      hide PixelIn;
      ghost var m := ctxs;
      if gx == ctxs[id].posX && gy == ctxs[id].posY {
        NoneYet({});
        return 0, [], [];
      }
      hide Valid;
      ret, listIn, listOut := MoveEntity(id, gx, gy);
      ChangePlainly(m, id, m[id], ctxs[id], listIn, listOut);
    }

    /** The cells of two entities are no further apart than the visual width and height. */
    ghost predicate NearTo(d: Entity, e: Entity)
      reads this`visualWidth, this`visualHeight
    {
      -visualWidth <= d.posX - e.posX <= visualWidth && -visualHeight <= d.posY - e.posY <= visualHeight
    }

    lemma ChangePlainly(m: Entities, id: Id, e: Entity, e': Entity, listIn: seq<Id>, listOut: seq<Id>)
      requires var before, after := NearSet(m, id, e, visualWidth, visualHeight), NearSet(m, id, e', visualWidth, visualHeight);
               Members(listOut) == before - after && Members(listIn) == after - before
      ensures forall o :: o in listOut <==> o in m && o != id && NearTo(m[o], e) && !NearTo(m[o], e')
      ensures forall o :: o in listIn <==> o in m && o != id && !NearTo(m[o], e) && NearTo(m[o], e')
    {
      forall o
        ensures o in listOut <==> o in Members(listOut)
        ensures o in listIn <==> o in Members(listIn)
      {
      }
    }

    lemma OnGrid(id: Id)
      requires Sized() && Placed(cells, ctxs, {}) && id in ctxs
      ensures CellOf(ctxs[id]) in cells && ValidPos(ctxs[id].posX, ctxs[id].posY, ctxs[id].posX, ctxs[id].posY)
    {
      assert SlotOk(CellOf(ctxs[id]));
    }

    /** A change of one cell's slot leaves the other cells' alone. */
    twostate lemma OneSlot(c: Cell)
      requires old(Sized()) && entityGrid == old(entityGrid) && width == old(width) && height == old(height)
      requires pixGrid > 0 && visualWidth >= 0 && visualHeight >= 0
      requires c in old(cells) && c in cells && cells == old(cells)[c := cells[c]]
      requires var k := Slot(c.y, c.x, width); old(SlotOk(c)) && entityGrid[..] == old(entityGrid[..])[k := cells[c]]
      ensures Sized()
    {
      var k := Slot(c.y, c.x, width);
      forall d | d in cells
        ensures SlotOk(d)
      {
        assert old(SlotOk(d));
        var j := Slot(d.y, d.x, width);
        if j == k {
          SlotInjective(d.y, d.x, c.y, c.x, width);
        }
        assert entityGrid[..][j] == entityGrid[j] && old(entityGrid[..])[j] == old(entityGrid[j]);
      }
    }
  }

  lemma CellFilled(cells: map<Cell, seq<Id>>, cells': map<Cell, seq<Id>>, m: Entities, id: Id, c: Cell)
    requires Placed(cells, m, {id}) && id in m && CellOf(m[id]) == c && c in cells && cells' == cells[c := cells[c] + [id]]
    ensures Placed(cells', m, {})
  {
    forall d | d in cells'
      ensures CellOk(cells', m, {}, d)
    {
      assert CellOk(cells, m, {id}, d);
      if d == c {
        Pushed(cells[c], id);
      }
    }
  }

  lemma CellCleared(cells: map<Cell, seq<Id>>, cells': map<Cell, seq<Id>>, m: Entities, id: Id, c: Cell)
    requires Placed(cells, m, {}) && id in m && CellOf(m[id]) == c && c in cells
    requires c in cells' && cells' == cells[c := cells'[c]] && Without(cells[c], id, cells'[c])
    ensures Placed(cells', m, {id})
  {
    forall d | d in cells'
      ensures CellOk(cells', m, {id}, d)
    {
      assert CellOk(cells, m, {}, d);
    }
  }
}
