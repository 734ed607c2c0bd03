/** Who sees whom on a grid of cells: the value-level half of the grid index (engine/src/scene/grid_aoi.cpp). */
module GridViews {
  import opened GridMaps
  import opened IdLists
  import opened Sequences

  // An entity: its mask, the cell it is in, and who is interested in it.
  datatype Entity = Entity(mask: bv8, posX: int, posY: int, interestMe: seq<Id>)

  type Entities = map<Id, Entity>

  predicate Interested(e: Entity) { e.mask & INTEREST != 0 }

  predicate Within(p: int, q: int, range: int) { -range <= p - q <= range }

  /** The cells of two entities are at most the visual width and height apart. */
  predicate Near(d: Entity, e: Entity, vw: int, vh: int) {
    Within(d.posX, e.posX, vw) && Within(d.posY, e.posY, vh)
  }

  datatype Rect = Rect(x: int, y: int, dx: int, dy: int)

  predicate Covers(r: Rect, x: int, y: int) { r.x <= x <= r.dx && r.y <= y <= r.dy }

  predicate In(e: Entity, r: Rect) { Covers(r, e.posX, e.posY) }

  /** Those in a rectangle of cells. */
  ghost function RangeSet(m: Entities, gone: set<Id>, r: Rect): set<Id> {
    set o | o in m && o !in gone && In(m[o], r)
  }

  function CellOf(e: Entity): Cell { Cell(e.posX, e.posY) }

  /** Whether b is to be in the list of a. The pairs that id is part of go by two sets of their own: mine, those
      id lists if they are interested, and theirs, those who list id if it is. */
  ghost predicate Listed(m: Entities, id: Id, mine: set<Id>, theirs: set<Id>, vw: int, vh: int, b: Id, a: Id)
    requires a in m && b in m
  {
    a != b && Interested(m[b]) && (if a == id then b in mine else if b == id then a in theirs else Near(m[a], m[b], vw, vh))
  }

  ghost predicate ListOk(m: Entities, id: Id, mine: set<Id>, theirs: set<Id>, vw: int, vh: int, a: Id)
    requires a in m
  {
    && NoDup(m[a].interestMe)
    && forall b :: b in m[a].interestMe <==> b in m && Listed(m, id, mine, theirs, vw, vh, b, a)
  }

  ghost predicate ListsOk(m: Entities, id: Id, mine: set<Id>, theirs: set<Id>, vw: int, vh: int) {
    forall a | a in m :: ListOk(m, id, mine, theirs, vw, vh, a)
  }

  /** The naive definition: b is in the list of a, once, exactly if b is another entity that is interested and
      sees a. */
  ghost predicate ExactAt(m: Entities, vw: int, vh: int, a: Id)
    requires a in m
  {
    && NoDup(m[a].interestMe)
    && forall b :: b in m[a].interestMe <==> b in m && b != a && Interested(m[b]) && Near(m[a], m[b], vw, vh)
  }

  ghost predicate Exact(m: Entities, vw: int, vh: int) {
    forall a | a in m :: ExactAt(m, vw, vh, a)
  }

  /** In so many words: on a list are the others whose mask has the lowest bit set and whose cell is near enough both ways. */
  lemma ExactPlainly(m: Entities, vw: int, vh: int)
    ensures Exact(m, vw, vh) <==>
              forall a | a in m ::
                && (forall i, j | 0 <= i < j < |m[a].interestMe| :: m[a].interestMe[i] != m[a].interestMe[j])
                && forall b :: b in m[a].interestMe <==>
                                 && b in m && b != a && m[b].mask & 1 == 1
                                 && m[a].posX - vw <= m[b].posX <= m[a].posX + vw && m[a].posY - vh <= m[b].posY <= m[a].posY + vh
  {
    forall b | b in m
      ensures Interested(m[b]) <==> m[b].mask & 1 == 1
    {
      OneBit(m[b].mask);
    }
    forall a | a in m
      ensures ExactAt(m, vw, vh, a) <==>
                && (forall i, j | 0 <= i < j < |m[a].interestMe| :: m[a].interestMe[i] != m[a].interestMe[j])
                && forall b :: b in m[a].interestMe <==>
                                 && b in m && b != a && m[b].mask & 1 == 1
                                 && m[a].posX - vw <= m[b].posX <= m[a].posX + vw && m[a].posY - vh <= m[b].posY <= m[a].posY + vh
    {
      assert forall b | b in m :: Near(m[a], m[b], vw, vh) <==>
        m[a].posX - vw <= m[b].posX <= m[a].posX + vw && m[a].posY - vh <= m[b].posY <= m[a].posY + vh;
    }
  }

  /** Nobody's view of anybody is another with another range. */
  ghost predicate SameViews(m: Entities, vw: int, vh: int, vw': int, vh': int) {
    forall a, b | a in m && b in m && a != b && Interested(m[b]) :: Near(m[a], m[b], vw, vh) == Near(m[a], m[b], vw', vh')
  }

  /** Lists that are exact for one range are exact for another only if nobody would notice. */
  lemma OtherRange(m: Entities, vw: int, vh: int, vw': int, vh': int)
    requires Exact(m, vw, vh)
    ensures Exact(m, vw', vh') <==> SameViews(m, vw, vh, vw', vh')
  {
    if Exact(m, vw', vh') {
      forall a, b | a in m && b in m && a != b && Interested(m[b])
        ensures Near(m[a], m[b], vw, vh) == Near(m[a], m[b], vw', vh')
      {
        assert ExactAt(m, vw, vh, a) && ExactAt(m, vw', vh', a);
        assert b in m[a].interestMe <==> Near(m[a], m[b], vw, vh);
        assert b in m[a].interestMe <==> Near(m[a], m[b], vw', vh');
      }
    } else if SameViews(m, vw, vh, vw', vh') {
      forall a | a in m
        ensures ExactAt(m, vw', vh', a)
      {
        assert ExactAt(m, vw, vh, a);
        forall b
          ensures b in m[a].interestMe <==> b in m && b != a && Interested(m[b]) && Near(m[a], m[b], vw', vh')
        {
        }
      }
      assert Exact(m, vw', vh');
    }
  }

  /** Somebody would: two entities three cells apart, one of them interested, whose lists are exact for range 0, and
      the range becomes 5. */
  lemma RangeMatters(a: Entity, b: Entity)
    requires a.posX == 0 && b.posX == 3 && a.posY == b.posY && a.interestMe == b.interestMe == []
    requires Interested(a) && !Interested(b)
    ensures var m := map[1 := a, 2 := b]; Exact(m, 0, 0) && !Exact(m, 5, 5)
  {
    var m := map[1 := a, 2 := b];
    assert 1 in m && 2 in m && m[1] == a && m[2] == b;
    assert forall o | o in m :: ExactAt(m, 0, 0, o);
    assert !ExactAt(m, 5, 5, 2) by {
      assert Near(m[2], m[1], 5, 5);
    }
  }

  /** The others near the cell of e. */
  ghost function NearSet(m: Entities, id: Id, e: Entity, vw: int, vh: int): set<Id> {
    set o | o in m && o != id && Near(m[o], e, vw, vh)
  }

  lemma NearPlainly(m: Entities, id: Id, e: Entity, vw: int, vh: int, list: seq<Id>)
    requires Members(list) == NearSet(m, id, e, vw, vh) && id !in m
    ensures forall o :: o in list <==> o in m && -vw <= m[o].posX - e.posX <= vw && -vh <= m[o].posY - e.posY <= vh
  {
    forall o
      ensures o in list <==> o in Members(list)
    {
    }
  }

  lemma ExactIsListsOk(m: Entities, id: Id, vw: int, vh: int)
    requires id in m
    ensures Exact(m, vw, vh) <==>
              ListsOk(m, id, NearSet(m, id, m[id], vw, vh), NearSet(m, id, m[id], vw, vh), vw, vh)
  {
    var v := NearSet(m, id, m[id], vw, vh);
    forall a, b | a in m && b in m
      ensures Listed(m, id, v, v, vw, vh, b, a) <==> b != a && Interested(m[b]) && Near(m[a], m[b], vw, vh)
    {
    }
    forall a | a in m
      ensures ListOk(m, id, v, v, vw, vh, a) <==> ExactAt(m, vw, vh, a)
    {
      if ExactAt(m, vw, vh, a) {
        assert forall b :: b in m[a].interestMe <==> b in m && Listed(m, id, v, v, vw, vh, b, a);
      } else if ListOk(m, id, v, v, vw, vh, a) {
        assert forall b :: b in m[a].interestMe <==> b in m && b != a && Interested(m[b]) && Near(m[a], m[b], vw, vh);
      }
    }
  }

  /** Nothing but lists has changed. */
  ghost predicate SameButLists(m: Entities, m': Entities) {
    m.Keys == m'.Keys && forall o | o in m :: m'[o] == m[o].(interestMe := m'[o].interestMe)
  }

  /** o goes out of view: taken off both lists. */
  lemma ExitStep(m: Entities, m': Entities, id: Id, o: Id, mine: set<Id>, theirs: set<Id>, vw: int, vh: int)
    requires ListsOk(m, id, mine, theirs, vw, vh) && SameButLists(m, m') && id in m && o in m && o != id
    requires forall a | a in m && a != id && a != o :: m'[a] == m[a]
    requires if Interested(m[id]) then Without(m[o].interestMe, id, m'[o].interestMe) else m'[o] == m[o]
    requires if Interested(m[o]) then Without(m[id].interestMe, o, m'[id].interestMe) else m'[id] == m[id]
    ensures ListsOk(m', id, mine - {o}, theirs - {o}, vw, vh)
  {
    forall a | a in m'
      ensures ListOk(m', id, mine - {o}, theirs - {o}, vw, vh, a)
    {
      assert ListOk(m, id, mine, theirs, vw, vh, a);
      forall b
        ensures b in m'[a].interestMe <==> b in m' && Listed(m', id, mine - {o}, theirs - {o}, vw, vh, b, a)
      {
        assert b in m ==> m'[b].mask == m[b].mask;
      }
    }
  }

  /** o comes into view: put on both lists. */
  lemma EnterStep(m: Entities, m': Entities, id: Id, o: Id, mine: set<Id>, theirs: set<Id>, vw: int, vh: int)
    requires ListsOk(m, id, mine, theirs, vw, vh) && SameButLists(m, m') && id in m && o in m && o != id
    requires o !in mine && o !in theirs
    requires forall a | a in m && a != id && a != o :: m'[a] == m[a]
    requires m'[o].interestMe == if Interested(m[id]) then m[o].interestMe + [id] else m[o].interestMe
    requires m'[id].interestMe == if Interested(m[o]) then m[id].interestMe + [o] else m[id].interestMe
    ensures ListsOk(m', id, mine + {o}, theirs + {o}, vw, vh)
  {
    forall a | a in m'
      ensures ListOk(m', id, mine + {o}, theirs + {o}, vw, vh, a)
    {
      assert ListOk(m, id, mine, theirs, vw, vh, a);
      var s := m[a].interestMe;
      if a == id && Interested(m[o]) {
        assert o !in s;
        Pushed(s, o);
      } else if a == o && Interested(m[id]) {
        assert id !in s;
        Pushed(s, id);
      } else {
        assert m'[a].interestMe == s;
      }
      forall b
        ensures b in m'[a].interestMe <==> b in m' && Listed(m', id, mine + {o}, theirs + {o}, vw, vh, b, a)
      {
        assert b in m ==> m'[b].mask == m[b].mask;
      }
    }
  }

  /** The grid lists every entity but those on the move exactly once, in the cell it is in. */
  ghost predicate CellOk(cells: map<Cell, seq<Id>>, m: Entities, gone: set<Id>, c: Cell)
    requires c in cells
  {
    NoDup(cells[c]) && forall o :: o in cells[c] <==> o in m && o !in gone && CellOf(m[o]) == c
  }

  ghost predicate Placed(cells: map<Cell, seq<Id>>, m: Entities, gone: set<Id>) {
    && (forall c | c in cells :: CellOk(cells, m, gone, c))
    && (forall o | o in m :: CellOf(m[o]) in cells)
  }

  /** Those that a sweep over a rectangle, column by column, has met before it comes to a cell. */
  ghost predicate Swept(e: Entity, r: Rect, ix: int, iy: int) {
    In(e, r) && (e.posX < ix || (e.posX == ix && e.posY < iy))
  }

  ghost predicate Met(m: Entities, gone: set<Id>, r: Rect, ix: int, iy: int, visited: seq<Id>) {
    NoDup(visited) && forall o :: o in visited <==> o in m && o !in gone && Swept(m[o], r, ix, iy)
  }

  lemma MeetCell(cells: map<Cell, seq<Id>>, m: Entities, gone: set<Id>, r: Rect, ix: int, iy: int,
                 visited: seq<Id>)
    requires Met(m, gone, r, ix, iy, visited) && r.x <= ix <= r.dx && r.y <= iy <= r.dy
    requires Cell(ix, iy) in cells && CellOk(cells, m, gone, Cell(ix, iy))
    ensures Met(m, gone, r, ix, iy + 1, visited + cells[Cell(ix, iy)])
  {
    var cell := cells[Cell(ix, iy)];
    forall o
      ensures o in visited + cell <==> o in m && o !in gone && Swept(m[o], r, ix, iy + 1)
    {
      assert o in cell <==> o in m && o !in gone && CellOf(m[o]) == Cell(ix, iy);
    }
    forall o | o in visited
      ensures o !in cell
    {
      assert o in m && Swept(m[o], r, ix, iy);
    }
    Joined(visited, cell);
  }

  lemma NextColumn(m: Entities, gone: set<Id>, r: Rect, ix: int, iy: int, visited: seq<Id>)
    requires Met(m, gone, r, ix, iy, visited) && iy > r.dy
    ensures Met(m, gone, r, ix + 1, r.y, visited)
  {
    forall o | o in m
      ensures Swept(m[o], r, ix, iy) <==> Swept(m[o], r, ix + 1, r.y)
    {
    }
  }

  /** Where entities are in the grid does not depend on their lists. */
  lemma ListsDoNotPlace(cells: map<Cell, seq<Id>>, m: Entities, m': Entities, gone: set<Id>)
    requires Placed(cells, m, gone) && SameButLists(m, m')
    ensures Placed(cells, m', gone)
  {
    forall c | c in cells
      ensures CellOk(cells, m', gone, c)
    {
      assert CellOk(cells, m, gone, c);
    }
  }

  function Intersection(r: Rect, s: Rect): Rect {
    Rect(if r.x < s.x then s.x else r.x, if r.y < s.y then s.y else r.y,
         if r.dx < s.dx then r.dx else s.dx, if r.dy < s.dy then r.dy else s.dy)
  }

  /** Part t of r touches the upper or the lower side of r. */
  predicate CutsOneSide(r: Rect, t: Rect) {
    && r.x <= t.x <= t.dx <= r.dx && r.y <= t.y <= t.dy <= r.dy
    && (r.y == t.y || t.dy == r.dy)
  }

  /** Those in the columns of r before column ix, leaving out t. */
  ghost function StripSet(m: Entities, id: Id, r: Rect, t: Rect, ix: int): set<Id> {
    set o | o in m && o != id && In(m[o], r) && !In(m[o], t) && m[o].posX < ix
  }

  /** What of column ix belongs to r but not to t, as rows from iy to idy. */
  predicate Rows(r: Rect, t: Rect, ix: int, iy: int, idy: int) {
    if !(t.x <= ix <= t.dx) then iy == r.y && idy == r.dy
    else if r.dy > t.dy then iy == t.dy + 1 && idy == r.dy
    else iy == r.y && idy == t.y - 1
  }

  lemma NextStrip(m: Entities, id: Id, r: Rect, t: Rect, ix: int, iy: int, idy: int)
    requires r.x <= ix <= r.dx && CutsOneSide(r, t) && Rows(r, t, ix, iy, idy)
    ensures StripSet(m, id, r, t, ix + 1) == StripSet(m, id, r, t, ix) + RangeSet(m, {id}, Rect(ix, iy, ix, idy))
    ensures StripSet(m, id, r, t, ix) !! RangeSet(m, {id}, Rect(ix, iy, ix, idy))
  {
    forall o | o in m
      ensures In(m[o], Rect(ix, iy, ix, idy)) <==> In(m[o], r) && !In(m[o], t) && m[o].posX == ix
    {
    }
  }

  /** A sweep over all columns of r leaves out t and nothing else. */
  lemma AllStrips(m: Entities, id: Id, r: Rect, t: Rect)
    ensures StripSet(m, id, r, t, r.x) == {}
    ensures StripSet(m, id, r, t, r.dx + 1) == RangeSet(m, {id}, r) - RangeSet(m, {id}, t)
  {
  }

  /** Two views of equal reach, clipped to the grid: their intersection reaches to one side of each. */
  lemma ViewsCut(r: Rect, s: Rect)
    requires r.x <= r.dx && r.y <= r.dy && s.x <= s.dx && s.y <= s.dy
    requires (r.x <= s.x && r.dx <= s.dx) || (s.x <= r.x && s.dx <= r.dx)
    requires (r.y <= s.y && r.dy <= s.dy) || (s.y <= r.y && s.dy <= r.dy)
    requires var t := Intersection(r, s); t.x <= t.dx && t.y <= t.dy
    ensures CutsOneSide(r, Intersection(r, s)) && CutsOneSide(s, Intersection(r, s))
  {
  }

  lemma ViewsApart(m: Entities, id: Id, r: Rect, s: Rect)
    requires var t := Intersection(r, s); t.x > t.dx || t.y > t.dy
    ensures RangeSet(m, {id}, r) !! RangeSet(m, {id}, s)
    ensures RangeSet(m, {id}, r) - RangeSet(m, {id}, s) == RangeSet(m, {id}, r)
    ensures RangeSet(m, {id}, s) - RangeSet(m, {id}, r) == RangeSet(m, {id}, s)
  {
    forall o | o in m
      ensures !(In(m[o], r) && In(m[o], s))
    {
    }
  }

  /** Leaving the old view for the new one, by sets. */
  lemma ViewsChanged(m: Entities, id: Id, r: Rect, s: Rect)
    ensures var t := Intersection(r, s);
            var old_, new_, both := RangeSet(m, {id}, r), RangeSet(m, {id}, s), RangeSet(m, {id}, t);
            && old_ - both == old_ - new_ && new_ - both == new_ - old_
            && (old_ - (old_ - both)) + (new_ - both) == new_ && new_ - both !! old_ - (old_ - both)
  {
    forall o | o in m
      ensures In(m[o], Intersection(r, s)) <==> In(m[o], r) && In(m[o], s)
    {
    }
  }

  lemma EmptyRange(m: Entities, gone: set<Id>, r: Rect)
    requires r.x > r.dx || r.y > r.dy
    ensures RangeSet(m, gone, r) == {}
  {
    assert forall o | o in m :: !In(m[o], r);
  }

  lemma StripsWithin(m: Entities, id: Id, r: Rect, t: Rect, ix: int)
    ensures StripSet(m, id, r, t, ix) <= RangeSet(m, {id}, r) - RangeSet(m, {id}, t)
  {
  }

  /** Positions alone decide who is where. */
  lemma RangeKept(m: Entities, m': Entities, gone: set<Id>, r: Rect)
    requires SameButLists(m, m')
    ensures RangeSet(m, gone, r) == RangeSet(m', gone, r)
  {
    forall o | o in m
      ensures In(m[o], r) == In(m'[o], r)
    {
    }
  }

  lemma NearKept(m: Entities, m': Entities, id: Id, e: Entity, e': Entity, vw: int, vh: int)
    requires SameButLists(m, m') && CellOf(e) == CellOf(e')
    ensures NearSet(m, id, e, vw, vh) == NearSet(m', id, e', vw, vh)
  {
    forall o | o in m
      ensures Near(m[o], e, vw, vh) == Near(m'[o], e', vw, vh)
    {
    }
  }

  lemma NewcomerNear(m: Entities, id: Id, e: Entity, e': Entity, vw: int, vh: int)
    requires id !in m && CellOf(e) == CellOf(e')
    ensures NearSet(m[id := e], id, e, vw, vh) == NearSet(m, id, e', vw, vh)
  {
    forall o | o in m
      ensures Near(m[o], e, vw, vh) == Near(m[o], e', vw, vh)
    {
    }
  }

  lemma NewcomerSame(m: Entities, id: Id, e: Entity, m': Entities)
    requires id !in m && SameButLists(m[id := e], m')
    ensures m'.Keys == m.Keys + {id} && m'[id] == e.(interestMe := m'[id].interestMe) && SameButLists(m, m' - {id})
    ensures m'[id := m'[id]] == m'
  {
    var l := m[id := e];
    assert l[id] == e;
    forall o | o in m
      ensures m'[o] == m[o].(interestMe := m'[o].interestMe)
    {
      assert l[o] == m[o];
    }
  }

  lemma AllSame(m: Entities)
    ensures SameButLists(m, m)
  {
  }

  lemma LeftSame(m: Entities, m': Entities, id: Id)
    requires SameButLists(m, m') && id in m
    ensures SameButLists(m - {id}, m' - {id}) && m'.Keys == m.Keys && m'[id].mask == m[id].mask
  {
  }

  lemma MovedSame(m: Entities, l: Entities, id: Id, gx: int, gy: int, vw: int, vh: int)
    requires SameButLists(m, l) && id in m
    ensures var e' := l[id].(posX := gx, posY := gy);
            && e' == m[id].(posX := gx, posY := gy, interestMe := e'.interestMe) && id in l
            && SameButLists(m[id := e'], l[id := e']) && l[id := e'].Keys == m.Keys
            && NearSet(m, id, e', vw, vh) == NearSet(m, id, m[id].(posX := gx, posY := gy), vw, vh) == NearSet(l, id, e', vw, vh)
  {
    var e', f := l[id].(posX := gx, posY := gy), m[id].(posX := gx, posY := gy);
    NearKept(m, l, id, f, e', vw, vh);
    NearKept(l, l, id, e', e', vw, vh);
    forall o | o in m
      ensures Near(m[o], e', vw, vh) == Near(m[o], f, vw, vh)
    {
    }
  }

  lemma SameTrans(m: Entities, m': Entities, m'': Entities)
    requires SameButLists(m, m') && SameButLists(m', m'')
    ensures SameButLists(m, m'')
  {
  }

  /** A new entity that nobody lists yet and that lists nobody. */
  lemma Newcomer(cells: map<Cell, seq<Id>>, m: Entities, id: Id, e: Entity, vw: int, vh: int)
    requires Exact(m, vw, vh) && id !in m && e.interestMe == [] && Placed(cells, m, {}) && CellOf(e) in cells
    ensures ListsOk(m[id := e], id, {}, {}, vw, vh) && Placed(cells, m[id := e], {id})
  {
    var l := m[id := e];
    forall a | a in l
      ensures ListOk(l, id, {}, {}, vw, vh, a)
    {
      if a != id {
        assert ExactAt(m, vw, vh, a);
        forall b
          ensures b in l[a].interestMe <==> b in l && Listed(l, id, {}, {}, vw, vh, b, a)
        {
          assert b in m[a].interestMe <==> b in m && b != a && Interested(m[b]) && Near(m[a], m[b], vw, vh);
        }
      }
    }
    forall c | c in cells
      ensures CellOk(cells, l, {id}, c)
    {
      assert CellOk(cells, m, {}, c);
    }
  }

  /** An entity's own list can be emptied. */
  lemma MineCleared(m: Entities, id: Id, mine: set<Id>, theirs: set<Id>, vw: int, vh: int)
    requires ListsOk(m, id, mine, theirs, vw, vh) && id in m
    ensures ListsOk(m[id := m[id].(interestMe := [])], id, {}, theirs, vw, vh)
    ensures SameButLists(m, m[id := m[id].(interestMe := [])])
  {
    var l := m[id := m[id].(interestMe := [])];
    forall a | a in l
      ensures ListOk(l, id, {}, theirs, vw, vh, a)
    {
      assert ListOk(m, id, mine, theirs, vw, vh, a);
      if a != id {
        forall b
          ensures b in l[a].interestMe <==> b in l && Listed(l, id, {}, theirs, vw, vh, b, a)
        {
          assert b in m[a].interestMe <==> b in m && Listed(m, id, mine, theirs, vw, vh, b, a);
        }
      }
    }
  }

  /** An entity that nobody lists can go. */
  lemma Gone(cells: map<Cell, seq<Id>>, m: Entities, id: Id, mine: set<Id>, theirs: set<Id>, vw: int, vh: int)
    requires ListsOk(m, id, mine, theirs, vw, vh) && id in m && (Interested(m[id]) ==> theirs == {}) && Placed(cells, m, {id})
    ensures Exact(m - {id}, vw, vh) && Placed(cells, m - {id}, {})
  {
    var l := m - {id};
    forall a | a in l
      ensures ExactAt(l, vw, vh, a)
    {
      assert ListOk(m, id, mine, theirs, vw, vh, a);
      forall b
        ensures b in l[a].interestMe <==> b in l && b != a && Interested(l[b]) && Near(l[a], l[b], vw, vh)
      {
        assert b in m[a].interestMe <==> b in m && Listed(m, id, mine, theirs, vw, vh, b, a);
      }
    }
    forall c | c in cells
      ensures CellOk(cells, l, {}, c)
    {
      assert CellOk(cells, m, {id}, c);
    }
  }

  /** A change of cell of an entity that is out of the grid; who it lists and who lists it are now those near. */
  lemma Arrived(cells: map<Cell, seq<Id>>, m: Entities, id: Id, e: Entity, v: set<Id>, vw: int, vh: int)
    requires ListsOk(m, id, v, v, vw, vh) && id in m && Placed(cells, m, {id})
    requires e == m[id].(posX := e.posX, posY := e.posY) && CellOf(e) in cells && v == NearSet(m, id, e, vw, vh)
    ensures Exact(m[id := e], vw, vh) && Placed(cells, m[id := e], {id})
  {
    var l := m[id := e];
    assert NearSet(l, id, e, vw, vh) == v;
    forall a | a in l
      ensures ListOk(l, id, v, v, vw, vh, a)
    {
      assert ListOk(m, id, v, v, vw, vh, a);
      forall b
        ensures b in l[a].interestMe <==> b in l && Listed(l, id, v, v, vw, vh, b, a)
      {
        assert b in m[a].interestMe <==> b in m && Listed(m, id, v, v, vw, vh, b, a);
      }
    }
    ExactIsListsOk(l, id, vw, vh);
    forall c | c in cells
      ensures CellOk(cells, l, {id}, c)
    {
      assert CellOk(cells, m, {id}, c);
    }
  }
}
