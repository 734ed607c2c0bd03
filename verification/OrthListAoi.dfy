/**
 * The index of areas of interest on three sorted lists, one an axis (engine/src/scene/orth_list_aoi.cpp,
 * engine/src/scene/orth_list_aoi.hpp). A pointer to an entity's record is its id. What a list operation calls back for
 * each node that it passes is done here after the operation, in the same order: the callbacks read and change only
 * marks and lists of interest, which the list operations do not look at.
 */
module OrthListAois {
  import opened IdLists
  import opened Sequences
  import opened Sights
  import opened OrthAxes
  import opened OrthStands

  datatype Axis = X | Y | Z

  const MAX_MARK := 0xFFFF_FFFF

  /** has_visual: whether an entity's view has boundary nodes. */
  predicate HasVisual(e: Entity) { e.visual > 0 && Interested(e) }

  function Coord(p: Pos, a: Axis): int {
    match a
    case X => p.x
    case Y => p.y
    case Z => p.z
  }

  function SpanOf(e: Entity, a: Axis): Span { Span(Coord(e.pos, a), e.visual, HasVisual(e)) }

  ghost function SpansOf(m: Entities, a: Axis): Spans { map o | o in m :: SpanOf(m[o], a) }

  lemma SpansEnter(m: Entities, id: Id, e: Entity, a: Axis)
    ensures SpansOf(m[id := e], a) == SpansOf(m, a)[id := SpanOf(e, a)]
  {
  }

  lemma SpansLeave(m: Entities, id: Id, a: Axis)
    ensures SpansOf(m - {id}, a) == SpansOf(m, a) - {id}
  {
  }

  lemma SpansSame(m: Entities, m': Entities, a: Axis)
    requires SameButLists(m, m')
    ensures SpansOf(m, a) == SpansOf(m', a)
  {
    forall o | o in m
      ensures SpanOf(m[o], a) == SpanOf(m'[o], a)
    {
    }
  }

  class OrthListAOI {
    const useY: bool
    var ctxs: Entities
    var marks: map<Id, nat>
    var mark: nat
    var nowMark: nat
    const x: AxisList
    const y: AxisList
    const z: AxisList

    /** Each list in use holds exactly the nodes of the entities, sorted. */
    ghost predicate Axes(m: Entities)
      reads x, y, z
    {
      && x != y && y != z && x != z
      && Stands(x, SpansOf(m, X)) && (useY ==> Stands(y, SpansOf(m, Y))) && Stands(z, SpansOf(m, Z))
    }

    /** The marks of the last operation are all below those of the next one. With all three axes in use, every
        operation uses up three marks or six, so that they never run over the 32 bits. */
    ghost predicate Marks()
      reads this`ctxs, this`marks, this`nowMark
    {
      && marks.Keys == ctxs.Keys && (forall o | o in marks :: marks[o] <= nowMark + 1)
      && (useY ==> nowMark % 3 == 0 && nowMark <= MAX_MARK)
    }

    ghost predicate Valid()
      reads this, x, y, z
    {
      Axes(ctxs) && Marks() && Level(ctxs)
    }

    /** With the y axis off, all entities count as being at height 0. */
    ghost predicate Level(m: Entities) { !useY ==> forall o | o in m :: m[o].pos.y == 0 }

    constructor (useY: bool)
      ensures Valid() && Exact(ctxs) && ctxs == map[] && this.useY == useY && fresh(x) && fresh(y) && fresh(z)
    {
      this.useY := useY;
      ctxs, marks, mark, nowMark := map[], map[], 0, 0;
      x := new AxisList();
      y := new AxisList();
      z := new AxisList();
    }

    /** What counts of a position. With the y axis off, in_visual does not compare heights; all entities count as being
        at height 0 then. */
    function Flat(p: Pos): Pos { if useY then p else p.(y := 0) }

    /** had_mark: already met in this operation, on an earlier axis. */
    predicate HadMark(o: Id)
      requires o in marks
      reads this`marks, this`mark, this`nowMark
    {
      marks[o] >= mark && marks[o] != nowMark
    }

    /** Nobody has a mark of this operation. */
    ghost predicate Unmarked()
      reads this`ctxs, this`marks, this`mark, this`nowMark
    {
      marks.Keys == ctxs.Keys && mark == nowMark && forall o | o in marks :: marks[o] < mark
    }

    /** update_mark: a new mark for a new operation, and three to spare for its axes. With two axes in use an operation
        needs two of them, and these run over exactly if the counter stood four below the end. */
    method UpdateMark()
      requires Marks()
      modifies this`marks, this`mark, this`nowMark
      ensures Unmarked()
      ensures useY ==> nowMark % 3 == 0 && nowMark + 3 <= MAX_MARK
      ensures nowMark + 2 > MAX_MARK <==> old(nowMark) == MAX_MARK - 4
    {
      if nowMark >= MAX_MARK - 3 {
        nowMark := 0;
        marks := map o | o in marks :: 0;
      }
      nowMark := nowMark + 3;
      mark := nowMark;
    }

    /** on_enter_range: watcher b gets a into view if it sees it. */
    method OnEnterRange(b: Id, a: Id, listIn: seq<Id>, me: bool, ghost exact: bool, ghost id: Id, ghost v: Views)
      returns (listIn': seq<Id>)
      requires a in ctxs && b in ctxs
      requires exact ==> ListsOk(ctxs, id, v) && Pair(ctxs, id, b, a) && !Has(v, id, b, a)
      modifies this`ctxs
      ensures SameButLists(old(ctxs), ctxs) && (b == id || a == id ==> OthersAlone(old(ctxs), ctxs, id))
      ensures ctxs == if Sees(old(ctxs)[b].visual, old(ctxs)[b].pos, old(ctxs)[a].pos) && Interested(old(ctxs)[b])
                then old(ctxs)[a := old(ctxs)[a].(interestMe := old(ctxs)[a].interestMe + [b])] else old(ctxs)
      ensures var sees := Sees(old(ctxs)[b].visual, old(ctxs)[b].pos, old(ctxs)[a].pos);
              (exact ==> ListsOk(ctxs, id, Put(v, id, b, a, sees))) && listIn' == AppendIf(listIn, if me then a else b, sees)
    {
      hide ListsOk;
      listIn' := listIn;
      ghost var m := ctxs;
      AllSame(m);
      if Sees(ctxs[b].visual, ctxs[b].pos, ctxs[a].pos) {
        if Interested(ctxs[b]) {
          if b == id || a == id {
            OneListChanged(m, a, ctxs[a].interestMe + [b], id);
          }
          ctxs := ctxs[a := ctxs[a].(interestMe := ctxs[a].interestMe + [b])];
        }
        if exact {
          AddWatch(m, ctxs, id, v, b, a);
        }
        listIn' := listIn' + [if me then a else b];
      } else if exact {
        PutFree(ctxs, id, v, b, a, false);
      }
    }

    /** on_exit_range, on_exit_old_range and on_exit_old_pos_range: watcher b loses a from view if it saw it. What it saw
        goes by the range and the positions that each of the three takes. */
    method OnExitRange(b: Id, a: Id, visual: int, from: Pos, to: Pos, listOut: seq<Id>, me: bool,
                       ghost exact: bool, ghost id: Id, ghost v: Views) returns (listOut': seq<Id>)
      requires a in ctxs && b in ctxs
      requires exact ==> ListsOk(ctxs, id, v) && Pair(ctxs, id, b, a) && (Has(v, id, b, a) ==> Sees(visual, from, to))
      modifies this`ctxs
      ensures SameButLists(old(ctxs), ctxs) && (b == id || a == id ==> OthersAlone(old(ctxs), ctxs, id))
      ensures ctxs == old(ctxs)[a := old(ctxs)[a].(interestMe := ctxs[a].interestMe)]
      ensures if Sees(visual, from, to) && Interested(old(ctxs)[b]) then Without(old(ctxs)[a].interestMe, b, ctxs[a].interestMe)
              else ctxs == old(ctxs)
      ensures exact ==> ListsOk(ctxs, id, Put(v, id, b, a, false))
      ensures b != a ==> b in ctxs && ctxs[b] == old(ctxs)[b]
      ensures listOut' == AppendIf(listOut, if me then a else b, Sees(visual, from, to))
    {
      hide ListsOk;
      listOut' := listOut;
      ghost var m := ctxs;
      AllSame(m);
      if Sees(visual, from, to) {
        if Interested(ctxs[b]) {
          var list, found := RemoveEntityFromVector(ctxs[a].interestMe, b);
          if b == id || a == id {
            OneListChanged(m, a, list, id);
          }
          ctxs := ctxs[a := ctxs[a].(interestMe := list)];
        }
        if exact {
          DropWatch(m, ctxs, id, v, b, a);
        }
        listOut' := listOut' + [if me then a else b];
      } else if exact {
        PutFree(ctxs, id, v, b, a, false);
      }
    }

    /** on_shift_visual: a boundary of id has passed a node. Only entities count that have not been met on an earlier
        axis. A boundary that goes outwards brings into view, one that goes inwards takes out of the old view. */
    method OnShiftVisual(id: Id, c: Crossing, oldPos: Pos, oldVisual: int, listIn: seq<Id>, listOut: seq<Id>,
                         ghost exact: bool, ghost u: Views) returns (listIn': seq<Id>, listOut': seq<Id>)
      requires marks.Keys == ctxs.Keys && id in ctxs && c.node.id in ctxs && c.node.id != id && c.mover != Self
      requires exact && c.node.kind == Self && !HadMark(c.node.id) ==>
                 && ListsOk(ctxs, id, u)
                 && if c.toward == c.mover then !Has(u, id, id, c.node.id)
                    else Has(u, id, id, c.node.id) ==> Sees(oldVisual, ctxs[c.node.id].pos, oldPos)
      modifies this`ctxs, this`marks
      ensures SameButLists(old(ctxs), ctxs) && OthersAlone(old(ctxs), ctxs, id)
      ensures c.node.kind != Self || old(HadMark(c.node.id)) ==>
                ctxs == old(ctxs) && marks == old(marks) && listIn' == listIn && listOut' == listOut
      ensures c.node.kind == Self && !old(HadMark(c.node.id)) ==>
                var o := c.node.id;
                var sees := c.toward == c.mover && Sees(old(ctxs)[id].visual, old(ctxs)[id].pos, old(ctxs)[o].pos);
                && marks == old(marks)[o := nowMark] && (exact ==> ListsOk(ctxs, id, Put(u, id, id, o, sees)))
                && listIn' == AppendIf(listIn, o, sees)
                && listOut' == AppendIf(listOut, o, c.toward != c.mover && Sees(oldVisual, old(ctxs)[o].pos, oldPos))
    {
      hide ListsOk;
      listIn', listOut' := listIn, listOut;
      AllSame(ctxs);
      var o := c.node.id;
      if c.node.kind != Self || HadMark(o) {
        return;
      }
      marks := marks[o := nowMark];
      if c.toward == c.mover {
        listIn' := OnEnterRange(id, o, listIn, true, exact, id, u);
      } else {
        listOut' := OnExitRange(id, o, oldVisual, ctxs[o].pos, oldPos, listOut, true, exact, id, u);
      }
    }

    /** on_shift_entity: entity id has passed a node. Only boundaries count, of others that have not been met on an
        earlier axis. To pass a left boundary to the left or a right one to the right is to go out of view. */
    method OnShiftEntity(id: Id, c: Crossing, oldPos: Pos, listIn: seq<Id>, listOut: seq<Id>, ghost exact: bool, ghost u: Views)
      returns (listIn': seq<Id>, listOut': seq<Id>)
      requires marks.Keys == ctxs.Keys && id in ctxs && c.node.id in ctxs && c.node.id != id
      requires exact && c.node.kind != Self && !HadMark(c.node.id) ==>
                 var b := c.node.id;
                 && ListsOk(ctxs, id, u)
                 && if c.toward == c.node.kind then Has(u, id, b, id) ==> Sees(ctxs[b].visual, ctxs[b].pos, oldPos)
                    else !Has(u, id, b, id)
      modifies this`ctxs, this`marks
      ensures SameButLists(old(ctxs), ctxs) && OthersAlone(old(ctxs), ctxs, id)
      ensures c.node.kind == Self || old(HadMark(c.node.id)) ==>
                ctxs == old(ctxs) && marks == old(marks) && listIn' == listIn && listOut' == listOut
      ensures c.node.kind != Self && !old(HadMark(c.node.id)) ==>
                var b, m := c.node.id, old(ctxs);
                var saw := c.toward == c.node.kind && Sees(m[b].visual, m[b].pos, oldPos);
                var sees := c.toward != c.node.kind && Sees(m[b].visual, m[b].pos, m[id].pos);
                && marks == old(marks)[b := nowMark] && ctxs == m[id := m[id].(interestMe := ctxs[id].interestMe)]
                && listIn' == AppendIf(listIn, b, sees) && listOut' == AppendIf(listOut, b, saw)
                && (exact ==> ListsOk(ctxs, id, Put(u, id, b, id, sees)))
                && (if Interested(m[b]) && saw then Without(m[id].interestMe, b, ctxs[id].interestMe)
                    else ctxs[id].interestMe == AppendIf(m[id].interestMe, b, Interested(m[b]) && sees))
    {
      hide ListsOk;
      listIn', listOut' := listIn, listOut;
      AllSame(ctxs);
      var b := c.node.id;
      if c.node.kind == Self || HadMark(b) {
        return;
      }
      marks := marks[b := nowMark];
      if c.toward == c.node.kind {
        listOut' := OnExitRange(b, id, ctxs[b].visual, ctxs[b].pos, oldPos, listOut, false, exact, id, u);
      } else {
        listIn' := OnEnterRange(b, id, listIn, false, exact, id, u);
      }
    }

    // ---- a change of range

    /** Where a change of the range of id has got to: the entities in done have been met. */
    ghost predicate Sighting(m: Entities, id: Id, oldVisual: int, done: set<Id>, meIn: seq<Id>, meOut: seq<Id>, exact: bool)
      reads this`ctxs
    {
      && id in m && SameButLists(m, ctxs)
      && var v, w := ViewsAt(m, id, m[id].pos, oldVisual), ViewsAt(m, id, m[id].pos, m[id].visual);
         && (exact ==> ListsOk(ctxs, id, Between(v, w, done)))
         && Lists(meIn, (w.theirs - v.theirs) * done) && Lists(meOut, (v.theirs - w.theirs) * done)
    }

    /** A boundary of id is on its way: who comes under it was out of the old view, or goes out of the new one. */
    ghost predicate OnTheWay(m: Entities, id: Id, oldVisual: int, c: Crossing)
      requires id in m
    {
      && c.node.id in m && c.node.id != id && c.mover != Self
      && (c.toward == c.mover <==> m[id].visual > oldVisual)
      && (c.node.kind == Self ==>
            !Sees(if m[id].visual > oldVisual then oldVisual else m[id].visual, m[id].pos, m[c.node.id].pos))
    }

    method SweepOne(id: Id, c: Crossing, oldVisual: int, meIn: seq<Id>, meOut: seq<Id>,
                    ghost m: Entities, ghost done: set<Id>, ghost exact: bool) returns (meIn': seq<Id>, meOut': seq<Id>)
      requires marks.Keys == ctxs.Keys && Sighting(m, id, oldVisual, done, meIn, meOut, exact) && OnTheWay(m, id, oldVisual, c)
      requires c.node.kind == Self && !HadMark(c.node.id) ==> c.node.id !in done
      modifies this`ctxs, this`marks
      ensures marks.Keys == ctxs.Keys
      ensures c.node.kind != Self || old(HadMark(c.node.id)) ==>
                marks == old(marks) && Sighting(m, id, oldVisual, done, meIn', meOut', exact)
      ensures c.node.kind == Self && !old(HadMark(c.node.id)) ==>
                && marks == old(marks)[c.node.id := nowMark]
                && Sighting(m, id, oldVisual, done + {c.node.id}, meIn', meOut', exact)
    {
      ghost var v, w := ViewsAt(m, id, m[id].pos, oldVisual), ViewsAt(m, id, m[id].pos, m[id].visual);
      ghost var o, l := c.node.id, ctxs;
      SamePair(m, l, id, o);
      if c.node.kind == Self && !HadMark(o) {
        TheirsStep(v, w, done, id, o);
        ListsStep(meIn, (w.theirs - v.theirs) * done, (w.theirs - v.theirs) * (done + {o}), o, o in w.theirs && o !in v.theirs);
        ListsStep(meOut, (v.theirs - w.theirs) * done, (v.theirs - w.theirs) * (done + {o}), o, o in v.theirs && o !in w.theirs);
      }
      hide ListsOk;
      hide Lists;
      hide SameButLists;
      meIn', meOut' := OnShiftVisual(id, c, ctxs[id].pos, oldVisual, meIn, meOut, exact, Between(v, w, done));
      SameTrans(m, l, ctxs);
    }

    /** The entities, other than id, that this operation has met are those in done; mark by mark, those met on this axis
        are in here. */
    ghost predicate MarkedAre(id: Id, done: set<Id>, here: set<Id>)
      reads this`marks, this`mark, this`nowMark
    {
      MarkedBy(marks, mark, nowMark, id, done, here)
    }

    static ghost predicate MarkedBy(marks: map<Id, nat>, mark: nat, nowMark: nat, id: Id, done: set<Id>, here: set<Id>) {
      && mark <= nowMark && (forall o | o in marks :: marks[o] <= nowMark)
      && (forall o | o in marks && o != id :: (marks[o] >= mark <==> o in done) && (marks[o] == nowMark ==> o in here))
    }

    /** One axis of a change of range. */
    method SweepAxis(id: Id, crossings: seq<Crossing>, oldVisual: int, meIn: seq<Id>, meOut: seq<Id>,
                     ghost m: Entities, ghost done: set<Id>, ghost exact: bool)
      returns (meIn': seq<Id>, meOut': seq<Id>, ghost done': set<Id>)
      requires marks.Keys == ctxs.Keys && Sighting(m, id, oldVisual, done, meIn, meOut, exact) && MarkedAre(id, done, {})
      requires forall c | c in crossings :: OnTheWay(m, id, oldVisual, c)
      requires forall i, j | 0 <= i < j < |crossings| && crossings[i].node == crossings[j].node :: crossings[i].node.kind != Self
      modifies this`ctxs, this`marks
      ensures marks.Keys == ctxs.Keys && Sighting(m, id, oldVisual, done', meIn', meOut', exact)
      ensures MarkedAre(id, done', done') && done <= done' && forall o | Meets(crossings, o) :: o in done'
    {
      hide Sighting;
      hide OnTheWay;
      meIn', meOut', done' := meIn, meOut, done;
      ghost var here := {};
      var i := 0;
      while i < |crossings|
        invariant i <= |crossings| && marks.Keys == ctxs.Keys && Sighting(m, id, oldVisual, done', meIn', meOut', exact)
        invariant MarkedAre(id, done', here) && done <= done' && here <= done'
        invariant forall o | o in here :: Meets(crossings[..i], o)
        invariant forall j | 0 <= j < i && crossings[j].node.kind == Self :: crossings[j].node.id in done'
      {
        var c := crossings[i];
        ghost var o := c.node.id;
        assert c in crossings;
        Facts(m, id, oldVisual, done', meIn', meOut', exact, c);
        NotYetMet(crossings, i);
        MeetsMore(crossings, i);
        ghost var met := c.node.kind == Self && !HadMark(o);
        meIn', meOut' := SweepOne(id, c, oldVisual, meIn', meOut', m, done', exact);
        if met {
          here, done' := here + {o}, done' + {o};
        }
        i := i + 1;
      }
    }

    lemma Facts(m: Entities, id: Id, oldVisual: int, done: set<Id>, meIn: seq<Id>, meOut: seq<Id>, exact: bool, c: Crossing)
      requires Sighting(m, id, oldVisual, done, meIn, meOut, exact) && OnTheWay(m, id, oldVisual, c)
      ensures id in m && c.node.id in m && c.node.id in ctxs && c.node.id != id
    {
    }

    lemma NotYetMet(crossings: seq<Crossing>, i: nat)
      requires i < |crossings|
      requires forall i, j | 0 <= i < j < |crossings| && crossings[i].node == crossings[j].node :: crossings[i].node.kind != Self
      ensures crossings[i].node.kind == Self ==> !Meets(crossings[..i], crossings[i].node.id)
    {
    }

    lemma MeetsMore(crossings: seq<Crossing>, i: nat)
      requires i < |crossings|
      ensures forall o | Meets(crossings[..i], o) :: Meets(crossings[..i + 1], o)
      ensures crossings[i].node.kind == Self ==> Meets(crossings[..i + 1], crossings[i].node.id)
    {
      forall o | Meets(crossings[..i], o)
        ensures Meets(crossings[..i + 1], o)
      {
        var j :| 0 <= j < i && crossings[..i][j].node == Node(o, Self);
        assert crossings[..i + 1][j].node == Node(o, Self);
      }
      if crossings[i].node.kind == Self {
        assert crossings[..i + 1][i].node == Node(crossings[i].node.id, Self);
      }
    }

    /** Whether the range of id takes in o on one axis just before or just after it has changed. */
    static ghost predicate Differs(m: Entities, id: Id, oldVisual: int, a: Axis, o: Id)
      requires id in m && o in m
    {
      Covers(SpanOf(m[id], a), Coord(m[o].pos, a)) != Covers(SpanOf(m[id], a).(visual := oldVisual), Coord(m[o].pos, a))
    }

    /** One axis of a change of range: the list, then who has been passed. */
    method VisualAxis(l: AxisList, a: Axis, id: Id, oldVisual: int, meIn: seq<Id>, meOut: seq<Id>,
                      ghost m0: Entities, ghost m: Entities, ghost done: set<Id>, ghost exact: bool)
      returns (meIn': seq<Id>, meOut': seq<Id>, ghost done': set<Id>)
      requires id in m0 && id in m && m == m0[id := m0[id].(visual := m[id].visual)] && oldVisual == m0[id].visual
      requires HasVisual(m0[id]) && HasVisual(m[id]) && Shifting(l, SpansOf(m0, a), id, SpanOf(m[id], a), {})
      requires marks.Keys == ctxs.Keys && Sighting(m, id, oldVisual, done, meIn, meOut, exact) && MarkedAre(id, done, done)
      modifies this`ctxs, this`marks, this`nowMark, l
      ensures Stands(l, SpansOf(m, a)) && nowMark == old(nowMark) + 1
      ensures marks.Keys == ctxs.Keys && Sighting(m, id, oldVisual, done', meIn', meOut', exact) && MarkedAre(id, done', done')
      ensures done <= done' && forall o | o in m && o != id && Differs(m, id, oldVisual, a, o) :: o in done'
    {
      ghost var who, s := SpansOf(m0, a), SpanOf(m[id], a);
      assert s == who[id].(visual := s.visual) && who[id].shown;
      SpansEnter(m0, id, m[id], a);
      SightingPair(m, id, oldVisual, done, meIn, meOut, exact);
      hide Sighting;
      hide Shifting;
      hide Stands;
      hide Swept;
      hide MarkedBy;
      hide SpansOf;
      NextAxis(marks, mark, nowMark, id, done);
      nowMark := nowMark + 1;
      var crossings := ShiftVisual(l, id, ctxs[id].visual - oldVisual, who, s);
      SweptOnTheWay(m0, m, id, a, crossings);
      meIn', meOut', done' := SweepAxis(id, crossings, oldVisual, meIn, meOut, m, done, exact);
    }

    /** A change of the range of id that has a view before and after. */
    static ghost predicate Widening(m0: Entities, m: Entities, id: Id, oldVisual: int) {
      && id in m0 && id in m && m == m0[id := m0[id].(visual := m[id].visual)] && oldVisual == m0[id].visual
      && HasVisual(m0[id]) && HasVisual(m[id])
    }

    /** Between two axes. */
    ghost predicate Turning(m: Entities, id: Id, oldVisual: int, done: set<Id>, meIn: seq<Id>, meOut: seq<Id>, exact: bool)
      reads this`ctxs, this`marks, this`mark, this`nowMark
    {
      marks.Keys == ctxs.Keys && Sighting(m, id, oldVisual, done, meIn, meOut, exact) && MarkedAre(id, done, done)
    }

    /** Everybody has been met whom the range takes in on axis a only before or only after. */
    static ghost predicate MetOn(m: Entities, id: Id, oldVisual: int, a: Axis, done: set<Id>) {
      id in m && forall o | o in m && o != id && Differs(m, id, oldVisual, a, o) :: o in done
    }

    /** One axis, if it is on. */
    method TurnAxis(on: bool, l: AxisList, a: Axis, id: Id, oldVisual: int, meIn: seq<Id>, meOut: seq<Id>,
                    ghost m0: Entities, ghost m: Entities, ghost done: set<Id>, ghost exact: bool)
      returns (meIn': seq<Id>, meOut': seq<Id>, ghost done': set<Id>)
      requires Widening(m0, m, id, oldVisual) && Turning(m, id, oldVisual, done, meIn, meOut, exact)
      requires on ==> DisplacedOn(l, a, m0, id, m0[id].pos, m[id].visual)
      modifies this`ctxs, this`marks, this`nowMark, l
      ensures Turning(m, id, oldVisual, done', meIn', meOut', exact) && done <= done'
      ensures on ==> Stands(l, SpansOf(m, a)) && MetOn(m, id, oldVisual, a, done')
      ensures nowMark == old(nowMark) + if on then 1 else 0
    {
      meIn', meOut', done' := meIn, meOut, done;
      if on {
        meIn', meOut', done' := VisualAxis(l, a, id, oldVisual, meIn, meOut, m0, m, done, exact);
      }
    }

    static lemma StillMet(m: Entities, id: Id, oldVisual: int, a: Axis, done: set<Id>, done': set<Id>)
      requires MetOn(m, id, oldVisual, a, done) && done <= done'
      ensures MetOn(m, id, oldVisual, a, done')
    {
    }

    lemma SightingPair(m: Entities, id: Id, oldVisual: int, done: set<Id>, meIn: seq<Id>, meOut: seq<Id>, exact: bool)
      requires Sighting(m, id, oldVisual, done, meIn, meOut, exact)
      ensures id in ctxs && ctxs[id].visual == m[id].visual
    {
    }

    /** On a new axis nobody has been met yet. */
    static lemma NextAxis(marks: map<Id, nat>, mark: nat, nowMark: nat, id: Id, done: set<Id>)
      requires MarkedBy(marks, mark, nowMark, id, done, done)
      ensures MarkedBy(marks, mark, nowMark + 1, id, done, {})
    {
    }

    lemma SweptOnTheWay(m0: Entities, m: Entities, id: Id, a: Axis, crossings: seq<Crossing>)
      requires id in m0 && id in m && m == m0[id := m0[id].(visual := m[id].visual)]
      requires Swept(SpansOf(m0, a), id, SpanOf(m[id], a), crossings)
      ensures forall c | c in crossings :: OnTheWay(m, id, m0[id].visual, c)
      ensures forall o | o in m && o != id && Differs(m, id, m0[id].visual, a, o) :: Meets(crossings, o)
      ensures forall i, j | 0 <= i < j < |crossings| && crossings[i].node == crossings[j].node :: crossings[i].node.kind != Self
    {
      var who := SpansOf(m0, a);
      forall o | o in m && o != id
        ensures o in who && who[o].at == Coord(m[o].pos, a)
        ensures Differs(m, id, m0[id].visual, a, o) <==> Covers(SpanOf(m[id], a), who[o].at) != Covers(who[id], who[o].at)
      {
      }
      forall c | c in crossings
        ensures OnTheWay(m, id, m0[id].visual, c)
      {
        assert who[id].visual == m0[id].visual;
      }
    }

    /** In the middle of a change of the position or the range of id: its nodes have their new places, the lists have
        them where they were. */
    ghost predicate Displaced(m: Entities, id: Id, pos: Pos, visual: int)
      requires id in m
      reads x, y, z
    {
      && x != y && y != z && x != z
      && DisplacedOn(x, X, m, id, pos, visual) && (useY ==> DisplacedOn(y, Y, m, id, pos, visual)) && DisplacedOn(z, Z, m, id, pos, visual)
    }

    static ghost predicate DisplacedOn(l: AxisList, a: Axis, m: Entities, id: Id, pos: Pos, visual: int)
      requires id in m
      reads l
    {
      var s := Span(Coord(pos, a), visual, HasVisual(m[id]));
      Shifting(l, SpansOf(m, a), id, s, {}) && Placed(l, id, s)
    }

    /** update_pos of the three nodes of id on every axis. */
    method DisplaceAll(id: Id, pos: Pos, visual: int, ghost m: Entities)
      requires Axes(m) && id in m
      modifies x, y, z
      ensures Displaced(m, id, pos, visual)
    {
      hide Shifting;
      hide Stands;
      hide Placed;
      Displace(x, id, pos.x, visual, SpansOf(m, X));
      if useY {
        Displace(y, id, pos.y, visual, SpansOf(m, Y));
      }
      Displace(z, id, pos.z, visual, SpansOf(m, Z));
    }

    lemma SightingStarts(m0: Entities, m: Entities, id: Id, oldVisual: int, exact: bool)
      requires id in m0 && id in m && m == m0[id := m0[id].(visual := m[id].visual)] && oldVisual == m0[id].visual && ctxs == m
      requires exact ==> Exact(m0)
      ensures Sighting(m, id, oldVisual, {}, [], [], exact)
    {
      var p := m[id].pos;
      var v, w := ViewsAt(m, id, p, oldVisual), ViewsAt(m, id, p, m[id].visual);
      AllSame(m);
      SameOthers(m0, m, id, p, oldVisual);
      BetweenEnds(v, w, {});
      assert (w.theirs - v.theirs) * {} == {} == (v.theirs - w.theirs) * {};
      assert Members([]) == {};
      if exact {
        ExactIsListsOk(m0, id);
        Elsewhere(m0, id, v, p, m[id].visual);
      }
    }

    lemma SightingEnds(m: Entities, id: Id, oldVisual: int, done: set<Id>, meIn: seq<Id>, meOut: seq<Id>, exact: bool)
      requires Sighting(m, id, oldVisual, done, meIn, meOut, exact)
      requires forall o | o in m && o != id && Sees(oldVisual, m[id].pos, m[o].pos) != Sees(m[id].visual, m[id].pos, m[o].pos) :: o in done
      ensures exact ==> Exact(ctxs)
      ensures Lists(meIn, Seen(m, id, m[id].pos, m[id].visual) - Seen(m, id, m[id].pos, oldVisual))
      ensures Lists(meOut, Seen(m, id, m[id].pos, oldVisual) - Seen(m, id, m[id].pos, m[id].visual))
    {
      var p := m[id].pos;
      var v, w := ViewsAt(m, id, p, oldVisual), ViewsAt(m, id, p, m[id].visual);
      assert (w.theirs - v.theirs) * done == w.theirs - v.theirs;
      assert (v.theirs - w.theirs) * done == v.theirs - w.theirs;
      assert Between(v, w, done).theirs == w.theirs && Between(v, w, done).mine == w.mine;
      SameViews(m, ctxs, id, p, m[id].visual);
      SamePair(m, ctxs, id, id);
      if exact {
        ExactIsListsOk(ctxs, id);
      }
    }

    /** The shift_visual part of update_visual: the boundaries of one that had a view and still has one. */
    method ShiftVisuals(id: Id, oldVisual: int, ghost m0: Entities, ghost exact: bool) returns (meIn: seq<Id>, meOut: seq<Id>)
      requires id in m0 && id in ctxs && ctxs == m0[id := m0[id].(visual := ctxs[id].visual)] && oldVisual == m0[id].visual
      requires HasVisual(m0[id]) && HasVisual(ctxs[id]) && Displaced(m0, id, m0[id].pos, ctxs[id].visual)
      requires marks.Keys == ctxs.Keys && mark == nowMark && forall o | o in marks :: marks[o] < mark
      requires (exact ==> Exact(m0)) && Level(ctxs)
      modifies this`ctxs, this`marks, this`nowMark, x, y, z
      ensures var m := old(ctxs);
              && Axes(m) && SameButLists(m, ctxs) && (exact ==> Exact(ctxs))
              && Lists(meIn, Seen(m, id, m[id].pos, m[id].visual) - Seen(m, id, m[id].pos, oldVisual))
              && Lists(meOut, Seen(m, id, m[id].pos, oldVisual) - Seen(m, id, m[id].pos, m[id].visual))
      ensures marks.Keys == ctxs.Keys && (forall o | o in marks :: marks[o] <= nowMark)
      ensures nowMark == old(nowMark) + if useY then 3 else 2
    {
      ghost var m := ctxs;
      SightingStarts(m0, m, id, oldVisual, exact);
      AllDiffer(m, id, oldVisual);
      hide Sighting;
      hide Displaced;
      hide Axes;
      hide Exact;
      hide Lists;
      hide Differs;
      hide Sees;
      NoneMarked(marks, mark, id);
      hide MarkedBy;
      ghost var done;
      meIn, meOut, done := ThreeAxes(id, oldVisual, m0, m, exact);
      NoneAbove(marks, mark, nowMark, id, done);
      SightingSame(m, id, oldVisual, done, meIn, meOut, exact);
      SightingEnds(m, id, oldVisual, done, meIn, meOut, exact);
    }

    /** One axis after the other, without the one that is off. */
    method ThreeAxes(id: Id, oldVisual: int, ghost m0: Entities, ghost m: Entities, ghost exact: bool)
      returns (meIn: seq<Id>, meOut: seq<Id>, ghost done: set<Id>)
      requires Widening(m0, m, id, oldVisual) && Displaced(m0, id, m0[id].pos, m[id].visual)
      requires Turning(m, id, oldVisual, {}, [], [], exact)
      modifies this`ctxs, this`marks, this`nowMark, x, y, z
      ensures Axes(m) && Turning(m, id, oldVisual, done, meIn, meOut, exact)
      ensures nowMark == old(nowMark) + if useY then 3 else 2
      ensures MetOn(m, id, oldVisual, X, done) && (useY ==> MetOn(m, id, oldVisual, Y, done)) && MetOn(m, id, oldVisual, Z, done)
    {
      assert id in m0 && id in m;
      hide Widening;
      hide Turning;
      hide MetOn;
      hide DisplacedOn;
      hide Stands;
      hide SpansOf;
      meIn, meOut, done := TurnAxis(true, x, X, id, oldVisual, [], [], m0, m, {}, exact);
      ghost var done1 := done;
      meIn, meOut, done := OtherAxes(id, oldVisual, meIn, meOut, m0, m, done, exact);
      StillMet(m, id, oldVisual, X, done1, done);
    }

    method OtherAxes(id: Id, oldVisual: int, meIn: seq<Id>, meOut: seq<Id>,
                     ghost m0: Entities, ghost m: Entities, ghost done: set<Id>, ghost exact: bool)
      returns (meIn': seq<Id>, meOut': seq<Id>, ghost done': set<Id>)
      requires Widening(m0, m, id, oldVisual) && Turning(m, id, oldVisual, done, meIn, meOut, exact)
      requires y != z && DisplacedOn(z, Z, m0, id, m0[id].pos, m[id].visual)
      requires useY ==> DisplacedOn(y, Y, m0, id, m0[id].pos, m[id].visual)
      modifies this`ctxs, this`marks, this`nowMark, y, z
      ensures (useY ==> Stands(y, SpansOf(m, Y))) && Stands(z, SpansOf(m, Z))
      ensures Turning(m, id, oldVisual, done', meIn', meOut', exact) && done <= done'
      ensures nowMark == old(nowMark) + if useY then 2 else 1
      ensures (useY ==> MetOn(m, id, oldVisual, Y, done')) && MetOn(m, id, oldVisual, Z, done')
    {
      assert id in m0 && id in m;
      hide Widening;
      hide Turning;
      hide MetOn;
      hide DisplacedOn;
      hide Stands;
      hide SpansOf;
      meIn', meOut', done' := TurnAxis(useY, y, Y, id, oldVisual, meIn, meOut, m0, m, done, exact);
      ghost var done1 := done';
      meIn', meOut', done' := TurnAxis(true, z, Z, id, oldVisual, meIn', meOut', m0, m, done', exact);
      if useY {
        StillMet(m, id, oldVisual, Y, done1, done');
      }
    }

    static lemma NoneMarked(marks: map<Id, nat>, mark: nat, id: Id)
      requires forall o | o in marks :: marks[o] < mark
      ensures MarkedBy(marks, mark, mark, id, {}, {})
    {
    }

    static lemma NoneAbove(marks: map<Id, nat>, mark: nat, nowMark: nat, id: Id, done: set<Id>)
      requires MarkedBy(marks, mark, nowMark, id, done, done)
      ensures forall o | o in marks :: marks[o] <= nowMark
    {
    }

    lemma SightingSame(m: Entities, id: Id, oldVisual: int, done: set<Id>, meIn: seq<Id>, meOut: seq<Id>, exact: bool)
      requires Sighting(m, id, oldVisual, done, meIn, meOut, exact)
      ensures SameButLists(m, ctxs)
    {
    }

    /** Who is seen before or after and not both is within range on some axis only before or only after. */
    lemma AllDiffer(m: Entities, id: Id, oldVisual: int)
      requires id in m && m[id].visual > 0 && oldVisual > 0 && Level(m)
      ensures forall o | o in m && o != id && Sees(oldVisual, m[id].pos, m[o].pos) != Sees(m[id].visual, m[id].pos, m[o].pos) ::
                Differs(m, id, oldVisual, X, o) || (useY && Differs(m, id, oldVisual, Y, o)) || Differs(m, id, oldVisual, Z, o)
    {
    }

    /** Everybody met loses the interest of id, if the range visual around id takes them in. */
    method LoseAll(id: Id, visited: seq<Id>, visual: int, ghost exact: bool, ghost v: Views) returns (listOut: seq<Id>)
      requires id in ctxs && NoDup(visited) && Members(visited) <= ctxs.Keys - {id}
      requires v.theirs == Seen(ctxs, id, ctxs[id].pos, visual) && (exact ==> ListsOk(ctxs, id, v))
      modifies this`ctxs
      ensures SameButLists(old(ctxs), ctxs) && Lists(listOut, v.theirs * Members(visited))
      ensures exact ==> ListsOk(ctxs, id, v.(theirs := v.theirs - Members(visited)))
      ensures id in ctxs && ctxs[id] == old(ctxs[id])
    {
      hide ListsOk;
      hide SameButLists;
      hide Lists;
      ghost var m, w := ctxs, v.(theirs := {});
      listOut := [];
      AllSame(m);
      BetweenEnds(v, w, {});
      NothingLost(v);
      var i := 0;
      while i < |visited|
        invariant i <= |visited| && SameButLists(m, ctxs) && id in ctxs && ctxs[id] == m[id]
        invariant exact ==> ListsOk(ctxs, id, Between(v, w, Members(visited[..i])))
        invariant Lists(listOut, v.theirs * Members(visited[..i]))
      {
        var o := visited[i];
        assert o in Members(visited);
        OneMore(visited, i);
        ghost var done, l := Members(visited[..i]), ctxs;
        TheirsStep(v, w, done, id, o);
        ListsStep(listOut, v.theirs * done, v.theirs * (done + {o}), o, o in v.theirs);
        SamePair(m, l, id, o);
        listOut := OnExitRange(id, o, visual, ctxs[id].pos, ctxs[o].pos, listOut, true, exact, id, Between(v, w, done));
        OneKept(l, ctxs, id);
        SamePair(l, ctxs, id, o);
        SameTrans(m, l, ctxs);
        i := i + 1;
      }
      assert visited[..i] == visited;
      assert Between(v, w, Members(visited)) == v.(theirs := v.theirs - Members(visited));
    }

    lemma OneKept(l: Entities, l': Entities, id: Id)
      requires SameButLists(l, l') && id in l
      ensures id in l'
    {
    }

    lemma NothingLost(v: Views)
      ensures Members([]) == {} && Lists([], v.theirs * {})
    {
      assert v.theirs * {} == {};
    }

    /** The entities among some nodes. */
    ghost function SelfIds(s: seq<Node>): set<Id> { set n | n in s && n.kind == Self :: n.id }

    lemma OneNodeMore(s: seq<Node>, i: nat)
      requires i < |s| && NoDup(s)
      ensures SelfIds(s[..i + 1]) == if s[i].kind == Self then SelfIds(s[..i]) + {s[i].id} else SelfIds(s[..i])
      ensures s[i].kind == Self ==> s[i].id !in SelfIds(s[..i])
    {
      assert s[..i + 1] == s[..i] + [s[i]];
      assert s[i] == Node(s[i].id, s[i].kind);
      forall o
        ensures o in SelfIds(s[..i]) <==> Node(o, Self) in s[..i]
        ensures o in SelfIds(s[..i + 1]) <==> Node(o, Self) in s[..i + 1]
      {
        InSelfIds(s[..i], o);
        InSelfIds(s[..i + 1], o);
      }
    }

    lemma InSelfIds(s: seq<Node>, o: Id)
      ensures o in SelfIds(s) <==> Node(o, Self) in s
    {
      if o in SelfIds(s) {
        var n: Node :| n in s && n.kind == Self && n.id == o;
        assert n == Node(o, Self);
      } else {
        assert Node(o, Self) in s ==> Node(o, Self).id in SelfIds(s);
      }
    }

    /** Everybody met comes into the view of id, if that takes them in. */
    method GainAll(id: Id, visited: seq<Node>, ghost exact: bool, ghost v: Views) returns (listIn: seq<Id>)
      requires id in ctxs && NoDup(visited) && (forall n: Node | n in visited && n.kind == Self :: n.id in ctxs && n.id != id)
      requires v.theirs == {} && (exact ==> ListsOk(ctxs, id, v))
      modifies this`ctxs
      ensures SameButLists(old(ctxs), ctxs)
      ensures var seen := Seen(old(ctxs), id, old(ctxs)[id].pos, old(ctxs)[id].visual) * SelfIds(visited);
              (exact ==> ListsOk(ctxs, id, v.(theirs := seen))) && Lists(listIn, seen)
    {
      hide ListsOk;
      hide SameButLists;
      hide Lists;
      hide SelfIds;
      ghost var m := ctxs;
      ghost var seen := Seen(m, id, m[id].pos, m[id].visual);
      ghost var w := v.(theirs := seen);
      listIn := [];
      AllSame(m);
      BetweenEnds(v, w, {});
      NothingLost(w);
      NoSelfIds(visited);
      var i := 0;
      while i < |visited|
        invariant i <= |visited| && SameButLists(m, ctxs) && id in ctxs
        invariant exact ==> ListsOk(ctxs, id, Between(v, w, SelfIds(visited[..i])))
        invariant Lists(listIn, w.theirs * SelfIds(visited[..i]))
      {
        var n := visited[i];
        assert n in visited;
        OneNodeMore(visited, i);
        if n.kind == Self {
          ghost var done, l, o := SelfIds(visited[..i]), ctxs, n.id;
          TheirsStep(v, w, done, id, o);
          ListsStep(listIn, w.theirs * done, w.theirs * (done + {o}), o, o in w.theirs);
          SamePair(m, l, id, o);
          listIn := OnEnterRange(id, n.id, listIn, true, exact, id, Between(v, w, done));
          OneKept(l, ctxs, id);
          SameTrans(m, l, ctxs);
        }
        i := i + 1;
      }
      assert visited[..i] == visited;
      assert Between(v, w, SelfIds(visited)) == v.(theirs := seen * SelfIds(visited));
    }

    lemma NoSelfIds(s: seq<Node>)
      ensures SelfIds(s[..0]) == {}
    {
    }

    /** The end of a change of the range of id, whatever it has brought about among views. */
    ghost predicate Resighted(m: Entities, id: Id, visual: int, meIn: seq<Id>, meOut: seq<Id>, exact: bool)
      requires id in m
      reads this`ctxs, x, y, z
    {
      var e := m[id];
      && SameButLists(m[id := e.(visual := visual)], ctxs) && Axes(ctxs) && (exact ==> Exact(ctxs))
      && Lists(meIn, if Interested(e) then Seen(m, id, e.pos, visual) - Seen(m, id, e.pos, e.visual) else {})
      && Lists(meOut, if Interested(e) then Seen(m, id, e.pos, e.visual) - Seen(m, id, e.pos, visual) else {})
    }

    lemma LoseEnds(m0: Entities, m: Entities, id: Id, oldVisual: int, visited: seq<Id>, out: seq<Id>, exact: bool)
      requires id in m0 && id in m && m == m0[id := m0[id].(visual := m[id].visual)] && oldVisual == m0[id].visual
      requires SameButLists(m, ctxs) && m[id].visual <= 0 && HasVisual(m0[id])
      requires forall o :: o in visited <==> o in m && o != id && -oldVisual <= m[o].pos.x - m[id].pos.x <= oldVisual
      requires var v := ViewsAt(m, id, m[id].pos, oldVisual);
               && Lists(out, v.theirs * Members(visited))
               && (exact ==> ListsOk(ctxs, id, v.(theirs := v.theirs - Members(visited))))
      ensures Lists(out, Seen(m0, id, m0[id].pos, oldVisual) - Seen(m0, id, m0[id].pos, m[id].visual))
      ensures Lists([], Seen(m0, id, m0[id].pos, m[id].visual) - Seen(m0, id, m0[id].pos, oldVisual))
      ensures exact ==> Exact(ctxs)
    {
      var p := m[id].pos;
      var v := ViewsAt(m, id, p, oldVisual);
      assert v.theirs <= Members(visited);
      assert v.theirs * Members(visited) == v.theirs && v.theirs - Members(visited) == {};
      assert Seen(m, id, p, m[id].visual) == {} == Seen(m0, id, p, m[id].visual);
      assert Members([]) == {};
      SameOthers(m0, m, id, p, oldVisual);
      assert ViewsAt(m, id, p, m[id].visual) == v.(theirs := {});
      SameViews(m, ctxs, id, p, m[id].visual);
      SamePair(m, ctxs, id, id);
      if exact {
        ExactIsListsOk(ctxs, id);
      }
    }

    /** The lists after the record of id has changed from that in m0 to that in m. */
    lemma NewSpans(m0: Entities, m: Entities, id: Id)
      requires id in m && m == m0[id := m[id]]
      ensures forall a :: SpansOf(m, a) == SpansOf(m0, a)[id := SpanOf(m[id], a)]
    {
      forall a
        ensures SpansOf(m, a) == SpansOf(m0, a)[id := SpanOf(m[id], a)]
      {
        SpansEnter(m0, id, m[id], a);
      }
    }

    /** Lists of interest have no part in the axes. */
    lemma AxesSame(m: Entities, m': Entities)
      requires Axes(m) && SameButLists(m, m')
      ensures Axes(m')
    {
      SpansSame(m, m', X);
      SpansSame(m, m', Y);
      SpansSame(m, m', Z);
    }

    /** The boundary nodes of id go out of every list. */
    method RemoveVisualLists(id: Id, ghost m0: Entities, ghost m: Entities)
      requires id in m0 && id in m && m == m0[id := m0[id].(visual := m[id].visual)]
      requires HasVisual(m0[id]) && m[id].visual <= 0 && Displaced(m0, id, m0[id].pos, m[id].visual)
      modifies x, y, z
      ensures Axes(m)
    {
      NewSpans(m0, m, id);
      hide Shifting;
      hide Stands;
      hide SpansOf;
      SpanIs(m0, id);
      RemoveVisualList(x, id, SpansOf(m0, X), SpanOf(m0[id], X).(visual := m[id].visual));
      if useY {
        RemoveVisualList(y, id, SpansOf(m0, Y), SpanOf(m0[id], Y).(visual := m[id].visual));
      }
      RemoveVisualList(z, id, SpansOf(m0, Z), SpanOf(m0[id], Z).(visual := m[id].visual));
    }

    lemma SpanIs(m: Entities, id: Id)
      requires id in m
      ensures forall a :: id in SpansOf(m, a) && SpansOf(m, a)[id] == SpanOf(m[id], a)
    {
    }

    /** remove_visual: one that had a view has none any more. */
    method RemoveVisual(id: Id, oldVisual: int, ghost m0: Entities, ghost exact: bool) returns (listOut: seq<Id>)
      requires id in m0 && id in ctxs && ctxs == m0[id := m0[id].(visual := ctxs[id].visual)] && oldVisual == m0[id].visual
      requires HasVisual(m0[id]) && ctxs[id].visual <= 0 && Displaced(m0, id, m0[id].pos, ctxs[id].visual)
      requires exact ==> Exact(m0)
      modifies this`ctxs, x, y, z
      ensures Resighted(m0, id, old(ctxs[id].visual), [], listOut, exact)
    {
      ghost var m, v := ctxs, ViewsAt(ctxs, id, ctxs[id].pos, oldVisual);
      var visited := EachRangeEntity(x, id, oldVisual, SpansOf(m0, X), SpanOf(m0[id], X).(visual := m[id].visual));
      forall o | o in Members(visited)
        ensures o in ctxs.Keys - {id}
      {
        assert o in visited;
      }
      SightingStarts(m0, m, id, oldVisual, exact);
      BetweenEnds(v, ViewsAt(m, id, m[id].pos, m[id].visual), {});
      hide ListsOk;
      hide Lists;
      hide Exact;
      hide Shifting;
      hide Stands;
      hide Displaced;
      listOut := LoseAll(id, visited, oldVisual, exact, v);
      LoseEnds(m0, m, id, oldVisual, visited, listOut, exact);
      RemoveVisualLists(id, m0, m);
      AxesSame(m, ctxs);
    }

    /** The boundary nodes of id, which it has not had, go into every list. Returns the nodes passed on the x axis. */
    method InsertVisualLists(id: Id, ghost m0: Entities, ghost m: Entities) returns (visited: seq<Node>)
      requires id in m0 && id in m && m == m0[id := m0[id].(visual := m[id].visual)]
      requires !HasVisual(m0[id]) && HasVisual(m[id]) && Displaced(m0, id, m0[id].pos, m[id].visual)
      modifies x, y, z
      ensures Axes(m) && NoDup(visited)
      ensures forall o :: Node(o, Self) in visited <==> o in m && o != id && -m[id].visual <= m[o].pos.x - m[id].pos.x <= m[id].visual
    {
      hide Shifting;
      hide Stands;
      hide Placed;
      hide SpansOf;
      hide NoDup;
      visited := InsertOn(x, X, id, m0, m);
      if useY {
        var rest := InsertOn(y, Y, id, m0, m);
      }
      var rest := InsertOn(z, Z, id, m0, m);
    }

    static method InsertOn(l: AxisList, a: Axis, id: Id, ghost m0: Entities, ghost m: Entities) returns (visited: seq<Node>)
      requires id in m0 && id in m && m == m0[id := m0[id].(visual := m[id].visual)]
      requires !HasVisual(m0[id]) && HasVisual(m[id]) && DisplacedOn(l, a, m0, id, m0[id].pos, m[id].visual)
      modifies l
      ensures Stands(l, SpansOf(m, a)) && NoDup(visited)
      ensures forall o :: Node(o, Self) in visited <==>
                o in m && o != id && -m[id].visual <= Coord(m[o].pos, a) - Coord(m[id].pos, a) <= m[id].visual
    {
      ghost var who := SpansOf(m0, a);
      ghost var s := SpanOf(m[id], a);
      ghost var s0 := s.(shown := false);
      assert who[id].(visual := s0.visual) == s0;
      Arrived(l, who, id, s0, {});
      SpansEnter(m0, id, m[id], a);
      assert who[id := s0][id := s] == who[id := s];
      visited := InsertVisualList(l, id, who[id := s0], s);
    }

    /** insert_visual: one that had no view has one now. */
    method InsertVisual(id: Id, oldVisual: int, ghost m0: Entities, ghost exact: bool) returns (listIn: seq<Id>)
      requires id in m0 && id in ctxs && ctxs == m0[id := m0[id].(visual := ctxs[id].visual)] && oldVisual == m0[id].visual
      requires !HasVisual(m0[id]) && HasVisual(ctxs[id]) && Displaced(m0, id, m0[id].pos, ctxs[id].visual)
      requires exact ==> Exact(m0)
      modifies this`ctxs, x, y, z
      ensures Resighted(m0, id, old(ctxs[id].visual), listIn, [], exact)
    {
      ghost var m, v := ctxs, ViewsAt(ctxs, id, ctxs[id].pos, oldVisual);
      SightingStarts(m0, m, id, oldVisual, exact);
      BetweenEnds(v, ViewsAt(m, id, m[id].pos, m[id].visual), {});
      var visited := InsertVisualLists(id, m0, m);
      hide ListsOk;
      hide Lists;
      hide Exact;
      hide Stands;
      listIn := GainAll(id, visited, exact, v);
      GainEnds(m0, m, id, oldVisual, visited, listIn, exact);
      AxesSame(m, ctxs);
    }

    lemma GainEnds(m0: Entities, m: Entities, id: Id, oldVisual: int, visited: seq<Node>, listIn: seq<Id>, exact: bool)
      requires id in m0 && id in m && m == m0[id := m0[id].(visual := m[id].visual)] && oldVisual == m0[id].visual
      requires SameButLists(m, ctxs) && oldVisual <= 0 && HasVisual(m[id])
      requires forall o :: Node(o, Self) in visited <==> o in m && o != id && -m[id].visual <= m[o].pos.x - m[id].pos.x <= m[id].visual
      requires var v, seen := ViewsAt(m, id, m[id].pos, oldVisual), Seen(m, id, m[id].pos, m[id].visual) * SelfIds(visited);
               Lists(listIn, seen) && (exact ==> ListsOk(ctxs, id, v.(theirs := seen)))
      ensures Lists(listIn, Seen(m0, id, m0[id].pos, m[id].visual) - Seen(m0, id, m0[id].pos, oldVisual))
      ensures Lists([], Seen(m0, id, m0[id].pos, oldVisual) - Seen(m0, id, m0[id].pos, m[id].visual))
      ensures exact ==> Exact(ctxs)
    {
      var p, visual := m[id].pos, m[id].visual;
      var v, w := ViewsAt(m, id, p, oldVisual), ViewsAt(m, id, p, visual);
      forall o | o in w.theirs
        ensures o in SelfIds(visited)
      {
        InSelfIds(visited, o);
      }
      assert w.theirs * SelfIds(visited) == w.theirs && v.(theirs := w.theirs) == w;
      assert Seen(m0, id, p, oldVisual) == {} && Seen(m0, id, p, visual) == w.theirs;
      assert Members([]) == {};
      SameViews(m, ctxs, id, p, visual);
      SamePair(m, ctxs, id, id);
      if exact {
        ExactIsListsOk(ctxs, id);
      }
    }

    /** The last part of update_visual: the boundaries move, if there are any. */
    method Reshift(id: Id, oldVisual: int, had: bool, ghost m0: Entities, ghost exact: bool) returns (meIn: seq<Id>, meOut: seq<Id>)
      requires id in m0 && id in ctxs && ctxs == m0[id := m0[id].(visual := ctxs[id].visual)] && oldVisual == m0[id].visual
      requires had == HasVisual(m0[id]) == HasVisual(ctxs[id]) && Displaced(m0, id, m0[id].pos, ctxs[id].visual)
      requires Marks() && (exact ==> Exact(m0)) && Level(ctxs)
      modifies this`ctxs, this`marks, this`mark, this`nowMark, x, y, z
      ensures Resighted(m0, id, old(ctxs[id].visual), meIn, meOut, exact) && Marks()
    {
      hide Exact;
      hide Resighted;
      hide Displaced;
      hide Axes;
      hide Lists;
      meIn, meOut := [], [];
      UpdateMark();
      if had {
        ghost var m := ctxs;
        meIn, meOut := ShiftVisuals(id, oldVisual, m0, exact);
        ShiftEnds(m0, m, id, oldVisual, meIn, meOut, exact);
      } else {
        // Nodes that are in no list have no links to follow.
        nowMark := nowMark + if useY then 3 else 2;
        NoView(m0, id, exact);
      }
    }

    method SetVisual(id: Id, visual: int) returns (meIn: seq<Id>, meOut: seq<Id>)
      requires Valid() && id in ctxs
      modifies this`ctxs, this`marks, this`mark, this`nowMark, x, y, z
      ensures Valid() && Resighted(old(ctxs), id, visual, meIn, meOut, old(Exact(ctxs)))
    {
      hide Exact;
      hide Resighted;
      hide Displaced;
      hide Axes;
      hide HadMark;
      ghost var m0, exact := ctxs, Exact(ctxs);
      meIn, meOut := [], [];
      var had, oldVisual := HasVisual(ctxs[id]), ctxs[id].visual;
      LevelWith(m0, id, ctxs[id].(visual := visual));
      hide Level;
      ctxs := ctxs[id := ctxs[id].(visual := visual)];
      DisplaceAll(id, ctxs[id].pos, visual, m0);
      var has := HasVisual(ctxs[id]);
      if had && !has {
        meOut := RemoveVisual(id, oldVisual, m0, exact);
      } else if !had && has {
        meIn := InsertVisual(id, oldVisual, m0, exact);
      } else {
        meIn, meOut := Reshift(id, oldVisual, had, m0, exact);
      }
      ResightedSame(m0, id, visual, meIn, meOut, exact);
    }

    /** Changes the range of an entity, and tells who comes into and goes out of its view. */
    method UpdateVisual(id: Id, visual: int) returns (ret: int, meIn: seq<Id>, meOut: seq<Id>)
      requires Valid()
      modifies this`ctxs, this`marks, this`mark, this`nowMark, x, y, z
      ensures Valid() && ret == if id in old(ctxs) then 0 else -1
      ensures ret == -1 ==> ctxs == old(ctxs) && meIn == meOut == []
      ensures ret == 0 ==> Resighted(old(ctxs), id, visual, meIn, meOut, old(Exact(ctxs)))
    {
      hide Valid;
      hide Exact;
      hide Resighted;
      if id !in ctxs {
        ret, meIn, meOut := -1, [], [];
      } else {
        meIn, meOut := SetVisual(id, visual);
        ret := 0;
      }
    }

    lemma ShiftEnds(m0: Entities, m: Entities, id: Id, oldVisual: int, meIn: seq<Id>, meOut: seq<Id>, exact: bool)
      requires id in m0 && id in m && m == m0[id := m0[id].(visual := m[id].visual)] && oldVisual == m0[id].visual
      requires HasVisual(m0[id]) && Axes(m) && SameButLists(m, ctxs) && (exact ==> Exact(ctxs))
      requires Lists(meIn, Seen(m, id, m[id].pos, m[id].visual) - Seen(m, id, m[id].pos, oldVisual))
      requires Lists(meOut, Seen(m, id, m[id].pos, oldVisual) - Seen(m, id, m[id].pos, m[id].visual))
      ensures Resighted(m0, id, m[id].visual, meIn, meOut, exact)
    {
      hide Stands;
      hide SpansOf;
      AxesSame(m, ctxs);
      SameOthers(m0, m, id, m[id].pos, oldVisual);
      SameOthers(m0, m, id, m[id].pos, m[id].visual);
      assert ViewsAt(m0, id, m[id].pos, oldVisual).theirs == Seen(m0, id, m[id].pos, oldVisual);
      assert ViewsAt(m0, id, m[id].pos, m[id].visual).theirs == Seen(m0, id, m[id].pos, m[id].visual);
    }

    lemma ResightedSame(m0: Entities, id: Id, visual: int, meIn: seq<Id>, meOut: seq<Id>, exact: bool)
      requires id in m0 && Resighted(m0, id, visual, meIn, meOut, exact)
      ensures ctxs.Keys == m0.Keys && Axes(ctxs) && (Level(m0) ==> Level(ctxs))
    {
      var m := m0[id := m0[id].(visual := visual)];
      if Level(m0) {
        LevelWith(m0, id, m[id]);
        LevelKept(m, ctxs);
      }
    }

    /** The range of one that has no view before or after. */
    lemma NoView(m0: Entities, id: Id, exact: bool)
      requires id in m0 && id in ctxs && ctxs == m0[id := m0[id].(visual := ctxs[id].visual)]
      requires !HasVisual(m0[id]) && !HasVisual(ctxs[id]) && Displaced(m0, id, m0[id].pos, ctxs[id].visual)
      requires exact ==> Exact(m0)
      ensures Resighted(m0, id, ctxs[id].visual, [], [], exact)
    {
      NoViewAxes(m0, ctxs, id);
      hide Axes;
      NoneSeen(m0, id, m0[id].pos, m0[id].visual);
      NoneSeen(m0, id, m0[id].pos, ctxs[id].visual);
      AllSame(ctxs);
      assert Members([]) == {};
      if exact {
        forall a | a in ctxs
          ensures ExactAt(ctxs, a)
        {
          assert ExactAt(m0, a);
        }
      }
    }

    lemma NoneSeen(m: Entities, id: Id, p: Pos, visual: int)
      ensures visual <= 0 ==> Seen(m, id, p, visual) == {}
    {
    }

    lemma NoViewAxes(m0: Entities, m: Entities, id: Id)
      requires id in m0 && id in m && m == m0[id := m0[id].(visual := m[id].visual)]
      requires !HasVisual(m0[id]) && !HasVisual(m[id]) && Displaced(m0, id, m0[id].pos, m[id].visual)
      ensures Axes(m)
    {
      NoViewAxis(x, X, m0, m, id);
      if useY {
        NoViewAxis(y, Y, m0, m, id);
      }
      NoViewAxis(z, Z, m0, m, id);
    }

    static lemma NoViewAxis(l: AxisList, a: Axis, m0: Entities, m: Entities, id: Id)
      requires id in m0 && id in m && m == m0[id := m0[id].(visual := m[id].visual)]
      requires !HasVisual(m0[id]) && !HasVisual(m[id]) && DisplacedOn(l, a, m0, id, m0[id].pos, m[id].visual)
      ensures Stands(l, SpansOf(m, a))
    {
      SpansEnter(m0, id, m[id], a);
      Arrived(l, SpansOf(m0, a), id, SpanOf(m[id], a), {});
    }

    // ---- exit

    /** remove_entity on every axis. */
    method LeaveLists(id: Id, has: bool, ghost m: Entities)
      requires Axes(m) && id in m && has == HasVisual(m[id])
      modifies x, y, z
      ensures Axes(m - {id})
    {
      SpanIs(m, id);
      SpansLeave(m, id, X);
      SpansLeave(m, id, Y);
      SpansLeave(m, id, Z);
      hide Stands;
      hide SpansOf;
      LeaveList(x, id, has, SpansOf(m, X));
      if useY {
        LeaveList(y, id, has, SpansOf(m, Y));
      }
      LeaveList(z, id, has, SpansOf(m, Z));
    }

    method Leave(id: Id) returns (interested: seq<Id>)
      requires Valid() && id in ctxs
      modifies this`ctxs, this`marks, x, y, z
      ensures Valid() && SameButLists(old(ctxs) - {id}, ctxs) && interested == old(ctxs[id].interestMe)
      ensures old(Exact(ctxs)) ==> Exact(ctxs)
    {
      hide Axes;
      hide Exact;
      hide Level;
      hide SameButLists;
      ghost var m := ctxs;
      LoseSight(id, Exact(ctxs));
      interested := ctxs[id].interestMe;
      AxesSame(m, ctxs);
      LeftSame(m, ctxs, id);
      LevelKept(m, ctxs);
      LevelWithout(ctxs, id);
      KeysSame(m, ctxs);
      LeaveLists(id, HasVisual(ctxs[id]), ctxs);
      ctxs := ctxs - {id};
      marks := marks - {id};
    }

    /** Takes an entity out, and tells who was interested in it. */
    method ExitEntity(id: Id) returns (ret: int, interested: seq<Id>)
      requires Valid()
      modifies this`ctxs, this`marks, x, y, z
      ensures Valid() && ret == if id in old(ctxs) then 0 else 1
      ensures ret == 1 ==> ctxs == old(ctxs) && interested == []
      ensures ret == 0 ==> SameButLists(old(ctxs) - {id}, ctxs) && interested == old(ctxs[id].interestMe)
      ensures old(Exact(ctxs)) ==> Exact(ctxs)
    {
      hide Valid;
      hide Exact;
      hide SameButLists;
      if id !in ctxs {
        ret, interested := 1, [];
      } else {
        interested := Leave(id);
        ret := 0;
      }
    }

    lemma LevelKept(m: Entities, m': Entities)
      requires SameButLists(m, m') && Level(m)
      ensures Level(m')
    {
      forall o | o in m
        ensures m'[o].pos == m[o].pos
      {
      }
    }

    lemma LevelWith(m: Entities, id: Id, e: Entity)
      requires Level(m) && (!useY ==> e.pos.y == 0)
      ensures Level(m[id := e])
    {
    }

    lemma LevelWithout(m: Entities, id: Id)
      requires Level(m)
      ensures Level(m - {id})
    {
    }

    /** One that is about to leave takes itself off everybody's list. */
    method LoseSight(id: Id, ghost exact: bool)
      requires Axes(ctxs) && id in ctxs && (exact ==> Exact(ctxs))
      modifies this`ctxs
      ensures SameButLists(old(ctxs), ctxs) && id in ctxs && ctxs[id] == old(ctxs[id])
      ensures exact ==> Exact(ctxs - {id})
    {
      ghost var m, e := ctxs, ctxs[id];
      ghost var v := ViewsAt(m, id, e.pos, e.visual);
      ExactIsListsOk(m, id);
      AllSame(m);
      if HasVisual(ctxs[id]) {
        StandsIsShifting(x, SpansOf(m, X), id);
        var visited := EachRangeEntity(x, id, ctxs[id].visual, SpansOf(m, X), SpanOf(e, X));
        assert Members(visited) <= m.Keys - {id} by {
          forall o | o in Members(visited)
            ensures o in m.Keys - {id}
          {
            assert o in SpansOf(m, X);
          }
        }
        hide Stands;
        hide Shifting;
        hide ListsOk;
        hide Exact;
        var out := LoseAll(id, visited, ctxs[id].visual, exact, v);
        assert v.theirs <= Members(visited);
        if exact {
          Gone(ctxs, id, v.(theirs := v.theirs - Members(visited)));
        }
      } else if exact {
        NoneSeen(m, id, e.pos, e.visual);
        Gone(m, id, v);
      }
    }

    // ---- enter

    /** The entities whose boundaries are among some nodes. */
    ghost function BoundIds(s: seq<Node>): set<Id> { set n | n in s && n.kind != Self :: n.id }

    lemma BoundsMore(s: seq<Node>, i: nat)
      requires i < |s|
      ensures BoundIds(s[..i + 1]) == if s[i].kind != Self then BoundIds(s[..i]) + {s[i].id} else BoundIds(s[..i])
    {
      assert s[..i + 1] == s[..i] + [s[i]];
      forall o
        ensures o in BoundIds(s[..i + 1]) <==> o in BoundIds(s[..i]) || (s[i].kind != Self && s[i].id == o)
      {
        if o in BoundIds(s[..i]) {
          var n: Node :| n in s[..i] && n.kind != Self && n.id == o;
          assert n in s[..i + 1];
        }
        if s[i].kind != Self && s[i].id == o {
          assert s[i] in s[..i + 1];
        }
      }
    }

    /** The views of a newcomer that have been built up among those met. */
    ghost function Partly(w: Views, mine: set<Id>, theirs: set<Id>): Views { Views(w.mine * mine, w.theirs * theirs) }

    lemma PartlyMore(w: Views, mine: set<Id>, theirs: set<Id>, id: Id, o: Id)
      requires o != id
      ensures o !in theirs ==>
                && !Has(Partly(w, mine, theirs), id, id, o)
                && Put(Partly(w, mine, theirs), id, id, o, o in w.theirs) == Partly(w, mine, theirs + {o})
      ensures o !in mine ==>
                && !Has(Partly(w, mine, theirs), id, o, id)
                && Put(Partly(w, mine, theirs), id, o, id, o in w.mine) == Partly(w, mine + {o}, theirs)
    {
      var u := Partly(w, mine, theirs);
      if o !in theirs {
        assert Put(u, id, id, o, o in w.theirs).theirs == Partly(w, mine, theirs + {o}).theirs;
      }
      if o !in mine {
        assert Put(u, id, o, id, o in w.mine).mine == Partly(w, mine + {o}, theirs).mine;
      }
    }

    /** Where the entry of id has got to: those in mine have been asked whether they see it, those in theirs whether it
        sees them. */
    ghost predicate Entering(m: Entities, id: Id, mine: set<Id>, theirs: set<Id>, meIn: seq<Id>, otherIn: seq<Id>, exact: bool)
      reads this`ctxs, this`marks, this`mark, this`nowMark
    {
      && id in m && SameButLists(m, ctxs) && marks.Keys == ctxs.Keys && mark == nowMark
      && (forall o | o in marks && o != id :: if o in mine then marks[o] == nowMark + 1 else marks[o] < mark)
      && (marks[id] <= nowMark + 1)
      && var w := ViewsAt(m, id, m[id].pos, m[id].visual);
         && (exact ==> ListsOk(ctxs, id, Partly(w, mine, theirs)))
         && Lists(meIn, w.theirs * theirs) && Lists(otherIn, w.mine * mine)
    }

    /** The callback of an entry: a node that the newcomer or its boundaries have passed. */
    method OnPassed(id: Id, n: Node, meIn: seq<Id>, otherIn: seq<Id>, ghost m: Entities, ghost mine: set<Id>, ghost theirs: set<Id>,
                    ghost exact: bool) returns (meIn': seq<Id>, otherIn': seq<Id>)
      requires Entering(m, id, mine, theirs, meIn, otherIn, exact) && n.id in ctxs && id !in mine && id !in theirs
      requires n.kind == Self ==> n.id !in theirs
      modifies this`ctxs, this`marks
      ensures Entering(m, id, if n.kind != Self then mine + ({n.id} - {id}) else mine,
                       if n.kind == Self then theirs + ({n.id} - {id}) else theirs, meIn', otherIn', exact)
    {
      meIn', otherIn' := meIn, otherIn;
      var o := n.id;
      assert {id} - {id} == {} && mine + {} == mine && theirs + {} == theirs;
      if o == id {
        return;
      }
      ghost var w, l := ViewsAt(m, id, m[id].pos, m[id].visual), ctxs;
      assert {o} - {id} == {o};
      PartlyMore(w, mine, theirs, id, o);
      SamePair(m, l, id, o);
      hide ListsOk;
      if n.kind == Self {
        ListsStep(meIn, w.theirs * theirs, w.theirs * (theirs + {o}), o, o in w.theirs);
        hide Lists;
        meIn' := OnEnterRange(id, o, meIn, true, exact, id, Partly(w, mine, theirs));
        SameTrans(m, l, ctxs);
      } else if !HadMark(o) {
        ListsStep(otherIn, w.mine * mine, w.mine * (mine + {o}), o, o in w.mine);
        hide Lists;
        marks := marks[o := nowMark + 1];
        otherIn' := OnEnterRange(o, id, otherIn, false, exact, id, Partly(w, mine, theirs));
        SameTrans(m, l, ctxs);
      } else {
        assert mine + {o} == mine;
      }
    }

    method EnterAll(id: Id, visited: seq<Node>, ghost exact: bool) returns (meIn: seq<Id>, otherIn: seq<Id>)
      requires id in ctxs && NoDup(visited) && AllIn(ctxs, visited) && Unmarked()
      requires exact ==> ListsOk(ctxs, id, Views({}, {}))
      modifies this`ctxs, this`marks
      ensures Entering(old(ctxs), id, BoundIds(visited) - {id}, SelfIds(visited) - {id}, meIn, otherIn, exact)
    {
      ghost var m := ctxs;
      meIn, otherIn := [], [];
      EnterStarts(m, id, exact);
      NoSelfIds(visited);
      AllInAt(m, visited);
      hide Entering;
      hide SelfIds;
      hide BoundIds;
      hide ListsOk;
      hide Unmarked;
      hide AllIn;
      hide NoDup;
      ghost var mine: set<Id>, theirs: set<Id> := {}, {};
      var i := 0;
      while i < |visited|
        invariant i <= |visited| && ctxs.Keys == m.Keys
        invariant mine == BoundIds(visited[..i]) - {id} && theirs == SelfIds(visited[..i]) - {id}
        invariant Entering(m, id, mine, theirs, meIn, otherIn, exact)
      {
        var n := visited[i];
        OneMet(visited, i, id);
        meIn, otherIn := OnPassed(id, n, meIn, otherIn, m, mine, theirs, exact);
        if n.kind == Self {
          theirs := theirs + ({n.id} - {id});
        } else {
          mine := mine + ({n.id} - {id});
        }
        EnteringKeys(m, id, mine, theirs, meIn, otherIn, exact);
        i := i + 1;
      }
      assert visited[..i] == visited;
    }

    lemma AllInAt(m: Entities, visited: seq<Node>)
      requires AllIn(m, visited)
      ensures forall i | 0 <= i < |visited| :: visited[i].id in m
    {
    }

    lemma OneMet(s: seq<Node>, i: nat, id: Id)
      requires i < |s| && NoDup(s)
      ensures SelfIds(s[..i + 1]) - {id} == (SelfIds(s[..i]) - {id}) + if s[i].kind == Self then {s[i].id} - {id} else {}
      ensures BoundIds(s[..i + 1]) - {id} == (BoundIds(s[..i]) - {id}) + if s[i].kind != Self then {s[i].id} - {id} else {}
      ensures s[i].kind == Self ==> s[i].id !in SelfIds(s[..i]) - {id}
    {
      OneNodeMore(s, i);
      BoundsMore(s, i);
    }

    lemma EnteringKeys(m: Entities, id: Id, mine: set<Id>, theirs: set<Id>, meIn: seq<Id>, otherIn: seq<Id>, exact: bool)
      requires Entering(m, id, mine, theirs, meIn, otherIn, exact)
      ensures ctxs.Keys == m.Keys
    {
    }

    lemma EnterStarts(m: Entities, id: Id, exact: bool)
      requires id in m && ctxs == m && marks.Keys == ctxs.Keys && mark == nowMark && (forall o | o in marks :: marks[o] < mark)
      requires exact ==> ListsOk(ctxs, id, Views({}, {}))
      ensures Entering(m, id, {}, {}, [], [], exact) && BoundIds([]) == {}
    {
      var w := ViewsAt(m, id, m[id].pos, m[id].visual);
      AllSame(m);
      assert w.mine * {} == {} && w.theirs * {} == {} && Members([]) == {};
    }

    /** Whom a newcomer is told that it sees: all those whom it sees, if it is interested; one who is not interested has
        no boundaries, and is told only of those on lower places on the x axis. */
    static ghost function ToldIn(m: Entities, id: Id, e: Entity): set<Id> {
      if Interested(e) then Seen(m, id, e.pos, e.visual)
      else set o | o in Seen(m, id, e.pos, e.visual) && m[o].pos.x < e.pos.x
    }

    /** That is all that it sees if and only if it is interested or sees nobody at its own or a higher x. */
    static lemma ToldInExactly(m: Entities, id: Id, e: Entity)
      ensures ToldIn(m, id, e) == Seen(m, id, e.pos, e.visual) <==>
                Interested(e) || forall o | o in Seen(m, id, e.pos, e.visual) :: m[o].pos.x < e.pos.x
    {
      if ToldIn(m, id, e) == Seen(m, id, e.pos, e.visual) && !Interested(e) {
        forall o | o in Seen(m, id, e.pos, e.visual)
          ensures m[o].pos.x < e.pos.x
        {
          assert o in ToldIn(m, id, e);
        }
      }
    }

    /** It need not be: a newcomer at 0 that is not interested and sees as far as 10 is not told of one at 5. */
    static lemma HigherIsNotTold(watcher: Entity, newcomer: Entity)
      requires watcher.pos == Pos(5, 0, 0) && newcomer.mask == 0 && newcomer.pos == Pos(0, 0, 0) && newcomer.visual == 10
      ensures var m := map[1 := watcher];
              1 in Seen(m, 2, newcomer.pos, newcomer.visual) && 1 !in ToldIn(m, 2, newcomer)
    {
      assert map[1 := watcher][1].pos.x == 5;
    }

    /** insert_entity on every axis. Returns the nodes passed on the x axis. */
    method EnterLists(id: Id, ghost m: Entities, e: Entity) returns (visited: seq<Node>)
      requires Axes(m) && id !in m
      modifies x, y, z
      ensures Axes(m[id := e]) && NoDup(visited) && PassedBy(m[id := e], id, visited)
    {
      SpansEnter(m, id, e, X);
      SpansEnter(m, id, e, Y);
      SpansEnter(m, id, e, Z);
      assert id !in SpansOf(m, X) && id !in SpansOf(m, Y) && id !in SpansOf(m, Z);
      hide Stands;
      hide SpansOf;
      visited := EnterList(x, id, SpanOf(e, X), SpansOf(m, X));
      if useY {
        var rest := EnterList(y, id, SpanOf(e, Y), SpansOf(m, Y));
      }
      var rest := EnterList(z, id, SpanOf(e, Z), SpansOf(m, Z));
    }

    /** The nodes before the last node of id on the x axis. */
    static ghost predicate PassedBy(m: Entities, id: Id, visited: seq<Node>)
      requires id in m
    {
      var who := SpansOf(m, X);
      forall n :: n in visited <==> Belongs(who, n) && Before(who, n, Node(id, if HasVisual(m[id]) then Next else Self))
    }

    static ghost predicate AllIn(m: Entities, visited: seq<Node>) {
      forall n: Node | n in visited :: n.id in m
    }

    /** What the entry of e is to bring about. */
    ghost predicate Came(m: Entities, id: Id, e: Entity, meIn: seq<Id>, otherIn: seq<Id>, exact: bool)
      reads this`ctxs
    {
      && SameButLists(m[id := e], ctxs) && Lists(meIn, ToldIn(m, id, e)) && Lists(otherIn, Keen(m, Watchers(m, id, e.pos)))
      && (exact ==> Exact(ctxs))
    }

    method Enter(id: Id, e: Entity) returns (meIn: seq<Id>, otherIn: seq<Id>)
      requires Valid() && id !in ctxs && Flat(e.pos) == e.pos && e.interestMe == []
      modifies this`ctxs, this`marks, this`mark, this`nowMark, x, y, z
      ensures Valid() && Came(old(ctxs), id, e, meIn, otherIn, old(Exact(ctxs)))
    {
      ghost var m, exact := ctxs, Exact(ctxs);
      if exact {
        Newcomer(m, id, e);
      }
      LevelWith(m, id, e);
      hide Axes;
      hide Exact;
      hide ListsOk;
      hide Came;
      hide Level;
      Register(id, e);
      meIn, otherIn := Announce(id, m, exact);
    }

    /** A record and a mark for a new entity. */
    method Register(id: Id, e: Entity)
      requires Marks() && id !in ctxs
      modifies this`ctxs, this`marks, this`mark, this`nowMark
      ensures ctxs == old(ctxs)[id := e] && Unmarked() && (useY ==> nowMark % 3 == 0 && nowMark + 3 <= MAX_MARK)
    {
      ctxs := ctxs[id := e];
      marks := marks[id := 0];
      UpdateMark();
    }

    /** The nodes of a new entity, and the callbacks for those that they pass. */
    method Announce(id: Id, ghost m: Entities, ghost exact: bool) returns (meIn: seq<Id>, otherIn: seq<Id>)
      requires Axes(m) && id !in m && id in ctxs && ctxs == m[id := ctxs[id]] && Unmarked()
      requires exact ==> ListsOk(ctxs, id, Views({}, {}))
      modifies this`ctxs, this`marks, x, y, z
      ensures Axes(ctxs) && Came(m, id, old(ctxs)[id], meIn, otherIn, exact) && (old(Level(ctxs)) ==> Level(ctxs))
      ensures marks.Keys == ctxs.Keys && forall o | o in marks :: marks[o] <= nowMark + 1
    {
      hide Axes;
      hide ListsOk;
      hide Entering;
      hide PassedBy;
      hide Came;
      hide Level;
      hide Unmarked;
      hide AllIn;
      ghost var l := ctxs;
      var visited := EnterLists(id, m, ctxs[id]);
      PassedKnown(l, id, visited);
      meIn, otherIn := EnterAll(id, visited, exact);
      EnterEnds(m, l, id, visited, meIn, otherIn, exact);
    }

    /** Brings a new entity in, and tells whom it sees and who sees it. */
    method EnterEntity(id: Id, pos: Pos, visual: int, mask: bv8) returns (ok: bool, meIn: seq<Id>, otherIn: seq<Id>)
      requires Valid()
      modifies this`ctxs, this`marks, this`mark, this`nowMark, x, y, z
      ensures Valid() && ok == (id !in old(ctxs))
      ensures !ok ==> ctxs == old(ctxs) && meIn == otherIn == []
      ensures ok ==> Came(old(ctxs), id, Entity(mask, Flat(pos), visual, []), meIn, otherIn, old(Exact(ctxs)))
      ensures ok ==> ctxs.Keys == old(ctxs.Keys) + {id} && IsAt(id, pos) && ctxs[id].visual == visual && ctxs[id].mask == mask
      ensures ok ==> forall o :: o in meIn <==>
                                   && o in old(ctxs) && Around(useY, visual, pos, old(ctxs)[o].pos)
                                   && (mask & 1 == 1 || old(ctxs)[o].pos.x < pos.x)
      ensures ok ==> forall o :: o in otherIn <==>
                                   && o in old(ctxs) && old(ctxs)[o].mask & 1 == 1
                                   && Around(useY, old(ctxs)[o].visual, old(ctxs)[o].pos, pos)
      ensures ok && old(Exact(ctxs)) ==>
                forall a, b | a in ctxs && b in ctxs && a != b :: b in ctxs[a].interestMe <==>
                  ctxs[b].mask & 1 == 1 && Around(useY, ctxs[b].visual, ctxs[b].pos, ctxs[a].pos)
    {
      LevelNow();
      hide Valid;
      hide Exact;
      hide Came;
      if id in ctxs {
        ok, meIn, otherIn := false, [], [];
      } else {
        ghost var m, exact := ctxs, Exact(ctxs);
        meIn, otherIn := Enter(id, Entity(mask, Flat(pos), visual, []));
        CamePlainly(m, id, pos, visual, mask, meIn, otherIn, exact);
        LevelNow();
        hide Level;
        if exact {
          ListsPlainly();
        }
        ok := true;
      }
    }

    /** An entity stands where it was put; with the y axis off, at height 0. */
    ghost predicate IsAt(id: Id, pos: Pos)
      reads this`ctxs
    {
      id in ctxs && ctxs[id].pos.x == pos.x && ctxs[id].pos.z == pos.z && ctxs[id].pos.y == if useY then pos.y else 0
    }

    lemma LevelNow()
      requires Valid()
      ensures Level(ctxs)
    {
    }

    /** What an entry comes to, in terms of the arguments. */
    lemma CamePlainly(m: Entities, id: Id, pos: Pos, visual: int, mask: bv8, meIn: seq<Id>, otherIn: seq<Id>, exact: bool)
      requires id !in m && Level(m) && Came(m, id, Entity(mask, Flat(pos), visual, []), meIn, otherIn, exact)
      ensures ctxs.Keys == m.Keys + {id} && IsAt(id, pos) && ctxs[id].visual == visual && ctxs[id].mask == mask
      ensures exact ==> Exact(ctxs)
      ensures forall o :: o in meIn <==> o in m && Around(useY, visual, pos, m[o].pos) && (mask & 1 == 1 || m[o].pos.x < pos.x)
      ensures forall o :: o in otherIn <==> o in m && m[o].mask & 1 == 1 && Around(useY, m[o].visual, m[o].pos, pos)
    {
      var e := Entity(mask, Flat(pos), visual, []);
      NewcomerSame(m, id, e, ctxs);
      OneBit(mask);
      forall o
        ensures o in meIn <==> o in Members(meIn)
        ensures o in otherIn <==> o in Members(otherIn)
      {
      }
      forall o | o in m
        ensures Sees(visual, e.pos, m[o].pos) <==> Around(useY, visual, pos, m[o].pos)
        ensures Sees(m[o].visual, m[o].pos, e.pos) <==> Around(useY, m[o].visual, m[o].pos, pos)
        ensures Interested(m[o]) <==> m[o].mask & 1 == 1
      {
        SeesPlainly(useY, visual, e.pos, m[o].pos);
        SeesPlainly(useY, m[o].visual, m[o].pos, e.pos);
        OneBit(m[o].mask);
      }
    }

    /** Exact lists, in so many words. */
    lemma ListsPlainly()
      requires Exact(ctxs) && Level(ctxs)
      ensures forall a, b | a in ctxs && b in ctxs && a != b :: b in ctxs[a].interestMe <==>
                ctxs[b].mask & 1 == 1 && Around(useY, ctxs[b].visual, ctxs[b].pos, ctxs[a].pos)
    {
      ExactPlainly(ctxs);
      forall a, b | a in ctxs && b in ctxs
        ensures Around(true, ctxs[b].visual, ctxs[b].pos, ctxs[a].pos) <==> Around(useY, ctxs[b].visual, ctxs[b].pos, ctxs[a].pos)
      {
      }
    }

    lemma PassedKnown(m: Entities, id: Id, visited: seq<Node>)
      requires id in m && PassedBy(m, id, visited)
      ensures AllIn(m, visited)
    {
    }

    lemma EnterEnds(m: Entities, l: Entities, id: Id, visited: seq<Node>, meIn: seq<Id>, otherIn: seq<Id>, exact: bool)
      requires id !in m && id in l && l == m[id := l[id]] && PassedBy(l, id, visited) && Axes(l)
      requires Entering(l, id, BoundIds(visited) - {id}, SelfIds(visited) - {id}, meIn, otherIn, exact)
      ensures Axes(ctxs) && Came(m, id, l[id], meIn, otherIn, exact) && (Level(l) ==> Level(ctxs))
      ensures marks.Keys == ctxs.Keys && forall o | o in marks :: marks[o] <= nowMark + 1
    {
      if Level(l) {
        LevelKept(l, ctxs);
      }
      AxesSame(l, ctxs);
      hide Axes;
      MetAll(l, id, visited);
      EnterExact(l, id, BoundIds(visited) - {id}, SelfIds(visited) - {id}, meIn, otherIn, exact);
      hide Exact;
      hide ListsOk;
      hide Lists;
      SeenBefore(m, l, id, l[id]);
    }

    /** The newcomer is not among those whom it is told of. */
    static lemma SeenBefore(m: Entities, l: Entities, id: Id, e: Entity)
      requires id !in m && l == m[id := e]
      ensures ToldIn(l, id, e) == ToldIn(m, id, e)
      ensures Keen(l, Watchers(l, id, e.pos)) == Keen(m, Watchers(m, id, e.pos))
    {
      assert Seen(l, id, e.pos, e.visual) == Seen(m, id, e.pos, e.visual);
      assert ToldIn(l, id, e) == ToldIn(m, id, e);
      assert Watchers(l, id, e.pos) == Watchers(m, id, e.pos);
      assert Keen(l, Watchers(l, id, e.pos)) == Keen(m, Watchers(m, id, e.pos));
    }

    /** Of those who see a newcomer, exactly the interested ones have a boundary that it has passed; and it has passed
        everybody whom it sees, if it is interested. */
    lemma MetAll(l: Entities, id: Id, visited: seq<Node>)
      requires id in l && PassedBy(l, id, visited)
      ensures Watchers(l, id, l[id].pos) * (BoundIds(visited) - {id}) == Keen(l, Watchers(l, id, l[id].pos))
      ensures Seen(l, id, l[id].pos, l[id].visual) * (SelfIds(visited) - {id}) == ToldIn(l, id, l[id])
    {
      var who, e := SpansOf(l, X), l[id];
      var watchers, seen := Watchers(l, id, e.pos), Seen(l, id, e.pos, e.visual);
      forall n: Node | n in visited && n.kind != Self
        ensures n.id in l && Interested(l[n.id])
      {
        assert Belongs(who, n) && who[n.id] == SpanOf(l[n.id], X);
      }
      forall b | b in watchers
        ensures b in BoundIds(visited) <==> Interested(l[b])
      {
        assert who[b] == SpanOf(l[b], X) && who[id] == SpanOf(e, X);
        if Interested(l[b]) {
          assert Node(b, Prev) in visited;
        }
      }
      forall o | o in seen
        ensures o in SelfIds(visited) <==> o in ToldIn(l, id, e)
      {
        assert who[o] == SpanOf(l[o], X) && who[id] == SpanOf(e, X);
        InSelfIds(visited, o);
        assert Belongs(who, Node(o, Self));
      }
    }

    /** What has been built up among those met is what is there to be seen. */
    lemma EnterExact(l: Entities, id: Id, mine: set<Id>, theirs: set<Id>, meIn: seq<Id>, otherIn: seq<Id>, exact: bool)
      requires Entering(l, id, mine, theirs, meIn, otherIn, exact)
      requires Watchers(l, id, l[id].pos) * mine == Keen(l, Watchers(l, id, l[id].pos))
      requires Seen(l, id, l[id].pos, l[id].visual) * theirs == ToldIn(l, id, l[id])
      ensures exact ==> Exact(ctxs)
    {
      if exact {
        var w := ViewsAt(l, id, l[id].pos, l[id].visual);
        var u := Partly(w, mine, theirs);
        SameViews(l, ctxs, id, l[id].pos, l[id].visual);
        SamePair(l, ctxs, id, id);
        forall b | b in ctxs && Interested(ctxs[b])
          ensures b in u.mine <==> b in w.mine
        {
          assert b in l && ctxs[b].mask == l[b].mask;
        }
        MineFree(ctxs, id, u, w.mine);
        if Interested(l[id]) {
          assert u.(mine := w.mine) == w;
        } else {
          TheirsFree(ctxs, id, u.(mine := w.mine), w.theirs);
          assert u.(mine := w.mine).(theirs := w.theirs) == w;
        }
        ExactIsListsOk(ctxs, id);
      }
    }

    // ---- movement

    /** Where a move of id has got to: whether it sees them is up to date for those in theirs, and whether they see it for
        those in mine. */
    ghost predicate Going(m: Entities, id: Id, oldPos: Pos, mine: set<Id>, theirs: set<Id>, c: Changes, exact: bool)
      reads this`ctxs
    {
      && id in m && SameButLists(m, ctxs) && OthersAlone(m, ctxs, id)
      && var v, w := ViewsAt(m, id, oldPos, m[id].visual), ViewsAt(m, id, m[id].pos, m[id].visual);
         && (exact ==> ListsOk(ctxs, id, Turned(v, w, mine, theirs))) && Reported(v, w, mine, theirs, c)
    }

    static ghost predicate Reported(v: Views, w: Views, mine: set<Id>, theirs: set<Id>, c: Changes) {
      && Lists(c.meIn, (w.theirs - v.theirs) * theirs) && Lists(c.meOut, (v.theirs - w.theirs) * theirs)
      && Lists(c.otherIn, (w.mine - v.mine) * mine) && Lists(c.otherOut, (v.mine - w.mine) * mine)
    }

    /** Mark by mark: those in met have been met on an earlier axis, those in here on this one only. */
    static ghost predicate Met(marks: map<Id, nat>, mark: nat, nowMark: nat, id: Id, met: set<Id>, here: set<Id>) {
      && mark <= nowMark && (forall o | o in marks :: marks[o] <= nowMark)
      && forall o | o in marks && o != id ::
           if o in met then mark <= marks[o] < nowMark else if o in here then marks[o] == nowMark else marks[o] < mark
    }

    /** Two entities pass each other so that one of them was or is out of the other's view. */
    static ghost predicate OutOfView(m: Entities, id: Id, oldPos: Pos, c: Crossing)
      requires id in m
    {
      var o := c.node.id;
      && o in m && o != id
      && (c.mover != Self && c.node.kind == Self ==> !Sees(m[id].visual, if c.toward == c.mover then oldPos else m[id].pos, m[o].pos))
      && (c.mover == Self && c.node.kind != Self ==> !Sees(m[o].visual, m[o].pos, if c.toward == c.node.kind then m[id].pos else oldPos))
    }

    /** If they have passed each other before on this axis, they are out of view before and after. */
    static ghost predicate OnceOnly(m: Entities, id: Id, oldPos: Pos, c: Crossing, mine: set<Id>, theirs: set<Id>)
      requires id in m && c.node.id in m
    {
      var o := c.node.id;
      && (c.mover != Self && c.node.kind == Self && o in theirs ==>
            !Sees(m[id].visual, oldPos, m[o].pos) && !Sees(m[id].visual, m[id].pos, m[o].pos))
      && (c.mover == Self && c.node.kind != Self && o in mine ==>
            !Sees(m[o].visual, m[o].pos, oldPos) && !Sees(m[o].visual, m[o].pos, m[id].pos))
    }

    /** A boundary of id and an entity pass each other, the first time on any axis. */
    method PassRange(id: Id, r: Crossing, oldPos: Pos, c: Changes, ghost m: Entities, ghost mine: set<Id>, ghost theirs: set<Id>,
                     ghost exact: bool) returns (c': Changes)
      requires marks.Keys == ctxs.Keys && Going(m, id, oldPos, mine, theirs, c, exact)
      requires OutOfView(m, id, oldPos, r) && OnceOnly(m, id, oldPos, r, mine, theirs)
      requires r.mover != Self && r.node.kind == Self && r.node.id in marks && !HadMark(r.node.id)
      modifies this`ctxs, this`marks
      ensures marks.Keys == ctxs.Keys && marks == old(marks)[r.node.id := nowMark]
      ensures Going(m, id, oldPos, mine, theirs + {r.node.id}, c', exact)
    {
      ghost var v, w := ViewsAt(m, id, oldPos, m[id].visual), ViewsAt(m, id, m[id].pos, m[id].visual);
      ghost var o, l := r.node.id, ctxs;
      SamePair(m, l, id, o);
      TurnedTheirs(v, w, mine, theirs, id, o);
      ListsStep(c.meIn, (w.theirs - v.theirs) * theirs, (w.theirs - v.theirs) * (theirs + {o}), o, o in w.theirs && r.toward == r.mover);
      ListsStep(c.meOut, (v.theirs - w.theirs) * theirs, (v.theirs - w.theirs) * (theirs + {o}), o, o in v.theirs && r.toward != r.mover);
      hide ListsOk;
      hide Lists;
      hide SameButLists;
      hide OthersAlone;
      hide Turned;
      var in_, out_ := OnShiftVisual(id, r, oldPos, ctxs[id].visual, c.meIn, c.meOut, exact, Turned(v, w, mine, theirs));
      c' := c.(meIn := in_, meOut := out_);
      AloneTrans(m, l, ctxs, id);
      SameTrans(m, l, ctxs);
    }

    /** Entity id and a boundary of another pass each other, the first time on any axis. */
    method PassPlace(id: Id, r: Crossing, oldPos: Pos, c: Changes, ghost m: Entities, ghost mine: set<Id>, ghost theirs: set<Id>,
                     ghost exact: bool) returns (c': Changes)
      requires marks.Keys == ctxs.Keys && Going(m, id, oldPos, mine, theirs, c, exact)
      requires OutOfView(m, id, oldPos, r) && OnceOnly(m, id, oldPos, r, mine, theirs)
      requires r.mover == Self && r.node.kind != Self && r.node.id in marks && !HadMark(r.node.id)
      modifies this`ctxs, this`marks
      ensures marks.Keys == ctxs.Keys && marks == old(marks)[r.node.id := nowMark]
      ensures Going(m, id, oldPos, mine + {r.node.id}, theirs, c', exact)
    {
      ghost var v, w := ViewsAt(m, id, oldPos, m[id].visual), ViewsAt(m, id, m[id].pos, m[id].visual);
      ghost var o, l := r.node.id, ctxs;
      SamePair(m, l, id, o);
      TurnedMine(v, w, mine, theirs, id, o);
      ListsStep(c.otherIn, (w.mine - v.mine) * mine, (w.mine - v.mine) * (mine + {o}), o, o in w.mine && r.toward != r.node.kind);
      ListsStep(c.otherOut, (v.mine - w.mine) * mine, (v.mine - w.mine) * (mine + {o}), o, o in v.mine && r.toward == r.node.kind);
      hide ListsOk;
      hide Lists;
      hide SameButLists;
      hide OthersAlone;
      hide Turned;
      var in_, out_ := OnShiftEntity(id, r, oldPos, c.otherIn, c.otherOut, exact, Turned(v, w, mine, theirs));
      c' := c.(otherIn := in_, otherOut := out_);
      AloneTrans(m, l, ctxs, id);
      SameTrans(m, l, ctxs);
    }

    /** What the marks say of one that is being passed. */
    lemma MarksTell(id: Id, o: Id, met: set<Id>, here: set<Id>)
      requires Met(marks, mark, nowMark, id, met, here) && o in marks && o != id
      ensures HadMark(o) <==> o in met
      ensures o in met ==> Met(marks, mark, nowMark, id, met, here + {o})
      ensures o !in met ==> Met(marks[o := nowMark], mark, nowMark, id, met, here + {o})
    {
    }

    method PassOne(id: Id, r: Crossing, oldPos: Pos, c: Changes, ghost m: Entities, ghost met: set<Id>, ghost here: set<Id>,
                   ghost mine: set<Id>, ghost theirs: set<Id>, ghost exact: bool) returns (c': Changes)
      requires marks.Keys == ctxs.Keys && Going(m, id, oldPos, mine, theirs, c, exact) && Met(marks, mark, nowMark, id, met, here)
      requires OutOfView(m, id, oldPos, r) && (r.node.id !in met ==> OnceOnly(m, id, oldPos, r, mine, theirs))
      modifies this`ctxs, this`marks
      ensures marks.Keys == ctxs.Keys && Met(marks, mark, nowMark, id, met, here + RangeOf(r) + PlaceIn(r))
      ensures Going(m, id, oldPos, mine + (PlaceIn(r) - met), theirs + (RangeOf(r) - met), c', exact)
    {
      GoingKeys(m, id, oldPos, mine, theirs, c, exact);
      var o := r.node.id;
      MarksTell(id, o, met, here);
      NoMore(mine, theirs, here, met, o);
      hide Going;
      hide OnceOnly;
      hide Met;
      c' := c;
      if !HadMark(o) {
        if r.mover != Self && r.node.kind == Self {
          c' := PassRange(id, r, oldPos, c, m, mine, theirs, exact);
        } else if r.mover == Self && r.node.kind != Self {
          c' := PassPlace(id, r, oldPos, c, m, mine, theirs, exact);
        }
      }
    }

    lemma GoingKeys(m: Entities, id: Id, oldPos: Pos, mine: set<Id>, theirs: set<Id>, c: Changes, exact: bool)
      requires Going(m, id, oldPos, mine, theirs, c, exact)
      ensures id in m && m.Keys == ctxs.Keys
    {
    }

    lemma NoMore(mine: set<Id>, theirs: set<Id>, here: set<Id>, met: set<Id>, o: Id)
      ensures mine + ({} - met) == mine && theirs + ({} - met) == theirs && here + {} + {} == here
      ensures o in met ==> mine + ({o} - met) == mine && theirs + ({o} - met) == theirs
      ensures o !in met ==> {o} - met == {o}
      ensures here + {o} + {} == here + {o} == here + {} + {o}
    {
    }

    /** All that id passes on one axis as it moves. */
    static ghost predicate Orderly(m: Entities, id: Id, oldPos: Pos, crossings: seq<Crossing>)
      requires id in m
    {
      && NoDup(crossings) && (forall r | r in crossings :: OutOfView(m, id, oldPos, r))
      && (forall r, r' | r in crossings && r' in crossings :: r.toward == r'.toward)
      && (forall r | r in crossings :: r.toward != Self)
    }

    static lemma PassedBefore(m: Entities, id: Id, oldPos: Pos, crossings: seq<Crossing>, i: nat)
      requires id in m && Orderly(m, id, oldPos, crossings) && i < |crossings| && crossings[i].node.id in m
      ensures OnceOnly(m, id, oldPos, crossings[i], ByPlace(crossings[..i]), ByRange(crossings[..i]))
    {
      var r := crossings[i];
      assert r in crossings;
      if r.mover != Self && r.node.kind == Self && r.node.id in ByRange(crossings[..i]) {
        var r' :| r' in crossings[..i] && r'.mover != Self && r'.node.kind == Self && r'.node.id == r.node.id;
        assert r' in crossings && r'.node == r.node && r' != r;
        assert OutOfView(m, id, oldPos, r) && OutOfView(m, id, oldPos, r');
      }
      if r.mover == Self && r.node.kind != Self && r.node.id in ByPlace(crossings[..i]) {
        var r' :| r' in crossings[..i] && r'.mover == Self && r'.node.kind != Self && r'.node.id == r.node.id;
        assert r' in crossings && r'.node.kind != r.node.kind;
        assert OutOfView(m, id, oldPos, r) && OutOfView(m, id, oldPos, r');
      }
    }

    method PassAll(id: Id, crossings: seq<Crossing>, oldPos: Pos, c: Changes, ghost m: Entities, ghost met: set<Id>,
                   ghost mine: set<Id>, ghost theirs: set<Id>, ghost exact: bool) returns (c': Changes)
      requires marks.Keys == ctxs.Keys && Going(m, id, oldPos, mine, theirs, c, exact) && Met(marks, mark, nowMark, id, met, {})
      requires mine <= met && theirs <= met && id in m && Orderly(m, id, oldPos, crossings)
      modifies this`ctxs, this`marks
      ensures marks.Keys == ctxs.Keys && Met(marks, mark, nowMark, id, met, ByRange(crossings) + ByPlace(crossings))
      ensures Going(m, id, oldPos, mine + (ByPlace(crossings) - met), theirs + (ByRange(crossings) - met), c', exact)
    {
      hide Going;
      hide Met;
      hide ByRange;
      hide ByPlace;
      hide RangeOf;
      hide PlaceIn;
      hide OutOfView;
      hide OnceOnly;
      c' := c;
      NonePassed(crossings);
      NothingPassed(mine, theirs, met);
      assert ByRange(crossings[..0]) + ByPlace(crossings[..0]) == {};
      var i := 0;
      while i < |crossings|
        invariant i <= |crossings| && marks.Keys == ctxs.Keys
        invariant Met(marks, mark, nowMark, id, met, ByRange(crossings[..i]) + ByPlace(crossings[..i]))
        invariant Going(m, id, oldPos, mine + (ByPlace(crossings[..i]) - met), theirs + (ByRange(crossings[..i]) - met), c', exact)
      {
        var r := crossings[i];
        assert r in crossings;
        ghost var p, q := ByPlace(crossings[..i]), ByRange(crossings[..i]);
        OneMorePassed(crossings, i);
        Once(m, id, oldPos, crossings, i, met, mine, theirs);
        MoreMet(mine, theirs, met, p, q, PlaceIn(r), RangeOf(r));
        c' := PassOne(id, r, oldPos, c', m, met, q + p, mine + (p - met), theirs + (q - met), exact);
        i := i + 1;
      }
      assert crossings[..i] == crossings;
    }

    static lemma NothingPassed(mine: set<Id>, theirs: set<Id>, met: set<Id>)
      ensures mine + ({} - met) == mine && theirs + ({} - met) == theirs
    {
    }

    static lemma MoreMet(mine: set<Id>, theirs: set<Id>, met: set<Id>, p: set<Id>, q: set<Id>, p1: set<Id>, q1: set<Id>)
      ensures (mine + (p - met)) + (p1 - met) == mine + ((p + p1) - met)
      ensures (theirs + (q - met)) + (q1 - met) == theirs + ((q + q1) - met)
      ensures (q + p) + q1 + p1 == (q + q1) + (p + p1)
    {
    }

    static lemma Once(m: Entities, id: Id, oldPos: Pos, crossings: seq<Crossing>, i: nat, met: set<Id>, mine: set<Id>, theirs: set<Id>)
      requires id in m && Orderly(m, id, oldPos, crossings) && i < |crossings| && mine <= met && theirs <= met
      ensures OutOfView(m, id, oldPos, crossings[i])
      ensures crossings[i].node.id in m && (crossings[i].node.id !in met ==>
                OnceOnly(m, id, oldPos, crossings[i], mine + (ByPlace(crossings[..i]) - met), theirs + (ByRange(crossings[..i]) - met)))
    {
      assert crossings[i] in crossings;
      PassedBefore(m, id, oldPos, crossings, i);
    }

    /** On which side of the range around a place another place is, or within it. */
    static ghost function SideOf(at: int, range: int, p: int): int {
      if p < at - range then -1 else if p > at + range then 1 else 0
    }

    /** Those who change sides of the range of id on one axis as it moves. */
    static ghost function RangePasses(m: Entities, id: Id, oldPos: Pos, a: Axis): set<Id>
      requires id in m
    {
      var visual := m[id].visual;
      set o | o in m && o != id && m[id].mask & 1 == 1 && visual > 0
              && SideOf(Coord(oldPos, a), visual, Coord(m[o].pos, a)) != SideOf(Coord(m[id].pos, a), visual, Coord(m[o].pos, a))
    }

    /** Those of whose range id changes sides. */
    static ghost function PlacePasses(m: Entities, id: Id, oldPos: Pos, a: Axis): set<Id>
      requires id in m
    {
      set o | o in m && o != id && m[o].mask & 1 == 1 && m[o].visual > 0
              && SideOf(Coord(m[o].pos, a), m[o].visual, Coord(oldPos, a)) != SideOf(Coord(m[o].pos, a), m[o].visual, Coord(m[id].pos, a))
    }

    static lemma AxisPasses(m0: Entities, m: Entities, id: Id, oldPos: Pos, a: Axis, crossings: seq<Crossing>)
      requires id in m0 && id in m && m == m0[id := m0[id].(pos := m[id].pos)] && oldPos == m0[id].pos
      requires AllCrossings(SpansOf(m0, a), id, SpanOf(m[id], a), crossings)
      ensures ByRange(crossings) == RangePasses(m, id, oldPos, a) && ByPlace(crossings) == PlacePasses(m, id, oldPos, a)
      ensures Orderly(m, id, oldPos, crossings)
    {
      var who, s := SpansOf(m0, a), SpanOf(m[id], a);
      assert s == who[id].(at := s.at) && who[id] == s.(at := Coord(oldPos, a));
      forall o | o in m && o != id
        ensures o in who && who[o] == SpanOf(m[o], a)
      {
      }
      hide AllCrossings;
      forall o
        ensures o in ByRange(crossings) <==> o in RangePasses(m, id, oldPos, a)
        ensures o in ByPlace(crossings) <==> o in PlacePasses(m, id, oldPos, a)
      {
        RangeCrosses(who, id, s, crossings, o);
        PlaceCrosses(who, id, s, crossings, o);
        OneBit(m[id].mask);
        if o in m {
          OneBit(m[o].mask);
        }
      }
      AxisOrderly(m0, m, id, oldPos, a, crossings);
    }

    static lemma AxisOrderly(m0: Entities, m: Entities, id: Id, oldPos: Pos, a: Axis, crossings: seq<Crossing>)
      requires id in m0 && id in m && m == m0[id := m0[id].(pos := m[id].pos)] && oldPos == m0[id].pos
      requires AllCrossings(SpansOf(m0, a), id, SpanOf(m[id], a), crossings)
      ensures Orderly(m, id, oldPos, crossings)
    {
      var who, s := SpansOf(m0, a), SpanOf(m[id], a);
      assert s == who[id].(at := s.at);
      forall r | r in crossings
        ensures OutOfView(m, id, oldPos, r)
      {
        WhoIsPassed(who, id, s, crossings, r);
        var o := r.node.id;
        assert o in m && who[o] == SpanOf(m0[o], a) && m[o] == m0[o];
      }
    }

    /** One axis of a move: the list, then who has been passed. The asserts of on_shift_visual and on_shift_entity, that
        it is nobody's own node, hold. Whom an earlier axis has met is passed over. */
    method MoveAxis(l: AxisList, a: Axis, id: Id, oldPos: Pos, c: Changes, ghost m0: Entities, ghost m: Entities,
                    ghost met: set<Id>, ghost mine: set<Id>, ghost theirs: set<Id>, ghost exact: bool) returns (c': Changes)
      requires id in m0 && id in m && m == m0[id := m0[id].(pos := m[id].pos)] && oldPos == m0[id].pos
      requires DisplacedOn(l, a, m0, id, m[id].pos, m[id].visual)
      requires marks.Keys == ctxs.Keys && Going(m, id, oldPos, mine, theirs, c, exact)
      requires Met(marks, mark, nowMark + 1, id, met, {}) && mine <= met && theirs <= met
      modifies this`ctxs, this`marks, this`nowMark, l
      ensures Stands(l, SpansOf(m, a)) && nowMark == old(nowMark) + 1 && marks.Keys == ctxs.Keys
      ensures var p, q := PlacePasses(m, id, oldPos, a), RangePasses(m, id, oldPos, a);
              && Going(m, id, oldPos, mine + (p - met), theirs + (q - met), c', exact)
              && Met(marks, mark, nowMark + 1, id, met + p + q, {})
    {
      GoingPair(m, id, oldPos, mine, theirs, c, exact);
      hide Going;
      hide Met;
      hide Stands;
      hide SpansOf;
      hide Orderly;
      hide RangePasses;
      hide PlacePasses;
      hide ByRange;
      hide ByPlace;
      hide DisplacedOn;
      nowMark := nowMark + 1;
      var crossings := ShiftOn(l, a, id, HasVisual(ctxs[id]), Coord(oldPos, a), Coord(ctxs[id].pos, a), oldPos, m0, m);
      c' := PassAll(id, crossings, oldPos, c, m, met, mine, theirs, exact);
      AxisDone(marks, mark, nowMark, id, met, ByPlace(crossings), ByRange(crossings));
    }

    /** The list's part of one axis of a move. */
    method ShiftOn(l: AxisList, a: Axis, id: Id, has: bool, from: int, to: int, ghost oldPos: Pos, ghost m0: Entities, ghost m: Entities)
      returns (crossings: seq<Crossing>)
      requires id in m0 && id in m && m == m0[id := m0[id].(pos := m[id].pos)] && oldPos == m0[id].pos
      requires has == HasVisual(m[id]) && from == Coord(oldPos, a) && to == Coord(m[id].pos, a)
      requires DisplacedOn(l, a, m0, id, m[id].pos, m[id].visual)
      modifies l
      ensures Stands(l, SpansOf(m, a)) && Orderly(m, id, oldPos, crossings)
      ensures ByRange(crossings) == RangePasses(m, id, oldPos, a) && ByPlace(crossings) == PlacePasses(m, id, oldPos, a)
    {
      ghost var who := SpansOf(m0, a);
      assert SpanOf(m[id], a) == who[id].(at := to);
      SpansEnter(m0, id, m[id], a);
      hide Shifting;
      hide Stands;
      hide AllCrossings;
      hide SpansOf;
      hide Orderly;
      hide RangePasses;
      hide PlacePasses;
      hide ByRange;
      hide ByPlace;
      crossings := ShiftEntity(l, id, has, from, to, who);
      AxisPasses(m0, m, id, oldPos, a, crossings);
    }

    lemma GoingPair(m: Entities, id: Id, oldPos: Pos, mine: set<Id>, theirs: set<Id>, c: Changes, exact: bool)
      requires Going(m, id, oldPos, mine, theirs, c, exact)
      ensures id in m && id in ctxs && HasVisual(ctxs[id]) == HasVisual(m[id]) && ctxs[id].pos == m[id].pos
    {
      SamePair(m, ctxs, id, id);
    }

    static lemma AxisDone(marks: map<Id, nat>, mark: nat, nowMark: nat, id: Id, met: set<Id>, p: set<Id>, q: set<Id>)
      requires Met(marks, mark, nowMark, id, met, q + p)
      ensures Met(marks, mark, nowMark + 1, id, met + p + q, {})
    {
    }

    /** Those whose being seen by id its move brings up to date: they change sides of its range on some axis, and id has not
        changed sides of theirs on an earlier one. */
    ghost function SeenTo(m: Entities, id: Id, oldPos: Pos): set<Id>
      requires id in m
    {
      var px, py := PlacePasses(m, id, oldPos, X), if useY then PlacePasses(m, id, oldPos, Y) else {};
      var qy := if useY then RangePasses(m, id, oldPos, Y) else {};
      RangePasses(m, id, oldPos, X) + (qy - px) + (RangePasses(m, id, oldPos, Z) - px - py)
    }

    /** Those whose seeing id it brings up to date, with the parts of the two exchanged. */
    ghost function SeenBy(m: Entities, id: Id, oldPos: Pos): set<Id>
      requires id in m
    {
      var qx, qy := RangePasses(m, id, oldPos, X), if useY then RangePasses(m, id, oldPos, Y) else {};
      var py := if useY then PlacePasses(m, id, oldPos, Y) else {};
      PlacePasses(m, id, oldPos, X) + (py - qx) + (PlacePasses(m, id, oldPos, Z) - qx - qy)
    }

    method MoveAxes(id: Id, oldPos: Pos, ghost m0: Entities, ghost exact: bool) returns (c: Changes)
      requires id in m0 && id in ctxs && ctxs == m0[id := m0[id].(pos := ctxs[id].pos)] && oldPos == m0[id].pos
      requires Displaced(m0, id, ctxs[id].pos, ctxs[id].visual)
      requires marks.Keys == ctxs.Keys && Going(ctxs, id, oldPos, {}, {}, NO_CHANGES, exact)
      requires Met(marks, mark, nowMark + 1, id, {}, {})
      modifies this`ctxs, this`marks, this`nowMark, x, y, z
      ensures Axes(ctxs) && nowMark == old(nowMark) + (if useY then 3 else 2) && marks.Keys == ctxs.Keys
      ensures var m := old(ctxs); Going(m, id, oldPos, SeenBy(m, id, oldPos), SeenTo(m, id, oldPos), c, exact)
      ensures forall o | o in marks :: marks[o] <= nowMark + 1
    {
      ghost var m := ctxs;
      hide Stands;
      hide DisplacedOn;
      hide Going;
      hide Met;
      hide PlacePasses;
      hide RangePasses;
      ghost var px, qx := PlacePasses(m, id, oldPos, X), RangePasses(m, id, oldPos, X);
      ghost var pz, qz := PlacePasses(m, id, oldPos, Z), RangePasses(m, id, oldPos, Z);
      ghost var py, qy: set<Id> := {}, {};
      c := MoveAxis(x, X, id, oldPos, NO_CHANGES, m0, m, {}, {}, {}, exact);
      if useY {
        py, qy := PlacePasses(m, id, oldPos, Y), RangePasses(m, id, oldPos, Y);
        c := MoveAxis(y, Y, id, oldPos, c, m0, m, {} + px + qx, {} + (px - {}), {} + (qx - {}), exact);
      }
      AxisByAxis(px, py, pz, qx, qy, qz);
      c := MoveAxis(z, Z, id, oldPos, c, m0, m, px + qx + py + qy, px + (py - px - qx), qx + (qy - px - qx), exact);
      GoingSame(m, id, oldPos, SeenBy(m, id, oldPos), SeenTo(m, id, oldPos), c, exact);
      AxesSame(m, ctxs);
      MarksLow(id, px + qx + py + qy + pz + qz);
    }

    lemma MarksLow(id: Id, met: set<Id>)
      requires Met(marks, mark, nowMark + 1, id, met, {})
      ensures forall o | o in marks :: marks[o] <= nowMark + 1
    {
    }

    static lemma AxisByAxis(px: set<Id>, py: set<Id>, pz: set<Id>, qx: set<Id>, qy: set<Id>, qz: set<Id>)
      ensures {} + px + qx == px + qx && {} + (px - {}) == px && {} + (qx - {}) == qx
      ensures px + qx + {} + {} == px + qx && px + ({} - px - qx) == px && qx + ({} - px - qx) == qx
      ensures px + (py - (px + qx)) == px + (py - px - qx) && qx + (qy - (px + qx)) == qx + (qy - px - qx)
      ensures (px + (py - px - qx)) + (pz - (px + qx + py + qy)) == px + (py - qx) + (pz - qx - qy)
      ensures (qx + (qy - px - qx)) + (qz - (px + qx + py + qy)) == qx + (qy - px) + (qz - px - py)
    {
    }

    lemma GoingSame(m: Entities, id: Id, oldPos: Pos, mine: set<Id>, theirs: set<Id>, c: Changes, exact: bool)
      requires Going(m, id, oldPos, mine, theirs, c, exact)
      ensures SameButLists(m, ctxs)
    {
    }

    /** What a move is to bring about, as far as the marks let it. */
    ghost predicate Went(m0: Entities, id: Id, pos: Pos, c: Changes, exact: bool)
      requires id in m0
      reads this`ctxs
    {
      var m, oldPos := m0[id := m0[id].(pos := pos)], m0[id].pos;
      var v, w := ViewsAt(m, id, oldPos, m[id].visual), ViewsAt(m, id, pos, m[id].visual);
      var mine, theirs := SeenBy(m, id, oldPos), SeenTo(m, id, oldPos);
      && SameButLists(m, ctxs) && OthersAlone(m0, ctxs, id) && Reported(v, w, mine, theirs, c)
      && (exact ==> (Exact(ctxs) <==> NoneMissed(m, id, v, w, mine, theirs)))
    }

    lemma MoveStarts(m0: Entities, m: Entities, id: Id, exact: bool)
      requires id in m0 && id in m && m == m0[id := m0[id].(pos := m[id].pos)] && ctxs == m && (exact ==> Exact(m0))
      ensures Going(m, id, m0[id].pos, {}, {}, NO_CHANGES, exact)
    {
      var v, w := ViewsAt(m, id, m0[id].pos, m[id].visual), ViewsAt(m, id, m[id].pos, m[id].visual);
      AllSame(m);
      TurnedNone(v, w);
      NothingReported(v, w);
      if exact {
        ExactIsListsOk(m0, id);
        SameOthers(m0, m, id, m0[id].pos, m[id].visual);
        Elsewhere(m0, id, v, m[id].pos, m[id].visual);
      }
    }

    static lemma NothingReported(v: Views, w: Views)
      ensures Reported(v, w, {}, {}, NO_CHANGES)
    {
      assert (w.theirs - v.theirs) * {} == {} == (v.theirs - w.theirs) * {};
      assert (w.mine - v.mine) * {} == {} == (v.mine - w.mine) * {};
      assert Members([]) == {};
    }

    lemma MoveEnds(m0: Entities, m: Entities, id: Id, c: Changes, exact: bool)
      requires id in m0 && id in m && m == m0[id := m0[id].(pos := m[id].pos)]
      requires Going(m, id, m0[id].pos, SeenBy(m, id, m0[id].pos), SeenTo(m, id, m0[id].pos), c, exact)
      ensures Went(m0, id, m[id].pos, c, exact)
    {
      var oldPos := m0[id].pos;
      var v, w := ViewsAt(m, id, oldPos, m[id].visual), ViewsAt(m, id, m[id].pos, m[id].visual);
      hide SeenBy;
      hide SeenTo;
      AloneFrom(m0, m, ctxs, id);
      if exact {
        SamePair(m, ctxs, id, id);
        SameViews(m, ctxs, id, m[id].pos, m[id].visual);
        TurnedExactly(ctxs, id, v, SeenBy(m, id, oldPos), SeenTo(m, id, oldPos));
        MissedSame(m, ctxs, id, v, w, SeenBy(m, id, oldPos), SeenTo(m, id, oldPos));
      }
    }

    static lemma MissedSame(m: Entities, m': Entities, id: Id, v: Views, w: Views, mine: set<Id>, theirs: set<Id>)
      requires SameButLists(m, m') && id in m
      ensures NoneMissed(m, id, v, w, mine, theirs) <==> NoneMissed(m', id, v, w, mine, theirs)
    {
    }

    method MoveTo(id: Id, pos: Pos) returns (c: Changes)
      requires Valid() && id in ctxs && Flat(pos) == pos
      modifies this`ctxs, this`marks, this`mark, this`nowMark, x, y, z
      ensures Valid() && Went(old(ctxs), id, pos, c, old(Exact(ctxs)))
    {
      hide Displaced;
      hide Axes;
      hide SameButLists;
      hide Going;
      hide Went;
      hide Exact;
      ghost var m0, exact := ctxs, Exact(ctxs);
      var oldPos := ctxs[id].pos;
      LevelWith(m0, id, ctxs[id].(pos := pos));
      hide Level;
      ctxs := ctxs[id := ctxs[id].(pos := pos)];
      ghost var m := ctxs;
      DisplaceAll(id, pos, ctxs[id].visual, m0);
      UpdateMark();
      MoveStarts(m0, m, id, exact);
      c := MoveAxes(id, oldPos, m0, exact);
      GoingSame(m, id, oldPos, SeenBy(m, id, oldPos), SeenTo(m, id, oldPos), c, exact);
      MoveEnds(m0, m, id, c, exact);
      LevelKept(m, ctxs);
    }

    lemma AloneFrom(m0: Entities, m: Entities, m': Entities, id: Id)
      requires id in m0 && id in m && m == m0[id := m[id]] && OthersAlone(m, m', id)
      ensures OthersAlone(m0, m', id)
    {
      forall a | a in m0 && a in m' && a != id
        ensures m[a] == m0[a]
      {
      }
    }

    /** Moves an entity, and tells who comes into and goes out of its view, and into and out of whose view it comes and
        goes. One mark serves both: whoever has been met on an axis is passed over on the next ones. */
    method UpdateEntity(id: Id, pos: Pos) returns (ret: int, c: Changes)
      requires Valid()
      modifies this`ctxs, this`marks, this`mark, this`nowMark, x, y, z
      ensures Valid() && ret == if id in old(ctxs) then 0 else -1
      ensures ret == -1 ==> ctxs == old(ctxs) && c == NO_CHANGES
      ensures ret == 0 ==> Went(old(ctxs), id, Flat(pos), c, old(Exact(ctxs)))
      ensures ret == 0 ==> IsAt(id, pos) && ctxs[id].visual == old(ctxs)[id].visual && ctxs[id].mask == old(ctxs)[id].mask
      ensures ret == 0 ==> ToldPlainly(old(ctxs), id, pos, c)
      ensures ret == 0 && Exact(ctxs) ==>
                forall a, b | a in ctxs && b in ctxs && a != b :: b in ctxs[a].interestMe <==>
                  ctxs[b].mask & 1 == 1 && Around(useY, ctxs[b].visual, ctxs[b].pos, ctxs[a].pos)
    {
      LevelNow();
      hide Valid;
      hide Went;
      hide ToldPlainly;
      if id !in ctxs {
        ret, c := -1, NO_CHANGES;
      } else {
        ghost var m := ctxs;
        ghost var exact := Exact(ctxs);
        c := MoveTo(id, Flat(pos));
        WentPlainly(m, id, pos, c, exact);
        LevelNow();
        hide Level;
        hide Exact;
        if Exact(ctxs) {
          ListsPlainly();
        }
        ret := 0;
      }
    }

    /** The reports of a move, in terms of the arguments. */
    ghost predicate ToldPlainly(m: Entities, id: Id, pos: Pos, c: Changes)
      requires id in m
    {
      var p, l := m[id].pos, m[id := m[id].(pos := Pos(pos.x, if useY then pos.y else 0, pos.z))];
      var theirs, mine := SeenTo(l, id, p), SeenBy(l, id, p);
      && (forall o :: o in c.meIn <==> o in theirs && o in m && Around(useY, m[id].visual, pos, m[o].pos) && !Around(useY, m[id].visual, p, m[o].pos))
      && (forall o :: o in c.meOut <==> o in theirs && o in m && !Around(useY, m[id].visual, pos, m[o].pos) && Around(useY, m[id].visual, p, m[o].pos))
      && (forall o :: o in c.otherIn <==> o in mine && o in m && Around(useY, m[o].visual, m[o].pos, pos) && !Around(useY, m[o].visual, m[o].pos, p))
      && (forall o :: o in c.otherOut <==> o in mine && o in m && !Around(useY, m[o].visual, m[o].pos, pos) && Around(useY, m[o].visual, m[o].pos, p))
    }

    lemma WentPlainly(m: Entities, id: Id, pos: Pos, c: Changes, exact: bool)
      requires id in m && Level(m) && Went(m, id, Flat(pos), c, exact)
      ensures IsAt(id, pos) && ctxs[id].visual == m[id].visual && ctxs[id].mask == m[id].mask
      ensures ToldPlainly(m, id, pos, c)
    {
      var l := m[id := m[id].(pos := Flat(pos))];
      hide SeenTo;
      hide SeenBy;
      hide NoneMissed;
      SamePair(l, ctxs, id, id);
      hide SameButLists;
      hide OthersAlone;
      NotIts(l, id, m[id].pos);
      ReportsPlainly(m, l, id, pos, SeenBy(l, id, m[id].pos), SeenTo(l, id, m[id].pos), c);
    }

    lemma ReportsPlainly(m: Entities, l: Entities, id: Id, pos: Pos, mine: set<Id>, theirs: set<Id>, c: Changes)
      requires id in m && Level(m) && l == m[id := m[id].(pos := Flat(pos))] && id !in mine && id !in theirs
      requires Reported(ViewsAt(l, id, m[id].pos, m[id].visual), ViewsAt(l, id, Flat(pos), m[id].visual), mine, theirs, c)
      ensures var p, r := m[id].pos, m[id].visual;
              && (forall o :: o in c.meIn <==> o in theirs && o in m && Around(useY, r, pos, m[o].pos) && !Around(useY, r, p, m[o].pos))
              && (forall o :: o in c.meOut <==> o in theirs && o in m && !Around(useY, r, pos, m[o].pos) && Around(useY, r, p, m[o].pos))
              && (forall o :: o in c.otherIn <==> o in mine && o in m && Around(useY, m[o].visual, m[o].pos, pos) && !Around(useY, m[o].visual, m[o].pos, p))
              && (forall o :: o in c.otherOut <==> o in mine && o in m && !Around(useY, m[o].visual, m[o].pos, pos) && Around(useY, m[o].visual, m[o].pos, p))
    {
      var v, w := ViewsAt(l, id, m[id].pos, m[id].visual), ViewsAt(l, id, Flat(pos), m[id].visual);
      ViewPlainly(m, l, id, m[id].pos, m[id].pos);
      ViewPlainly(m, l, id, Flat(pos), pos);
      hide ViewsAt;
      hide Around;
      hide Flat;
      forall o
        ensures o in c.meIn <==> o in Members(c.meIn)
        ensures o in c.meOut <==> o in Members(c.meOut)
        ensures o in c.otherIn <==> o in Members(c.otherIn)
        ensures o in c.otherOut <==> o in Members(c.otherOut)
      {
      }
    }

    /** Views from q, where one stands that was put to pos. */
    lemma ViewPlainly(m: Entities, l: Entities, id: Id, q: Pos, pos: Pos)
      requires id in m && id in l && Level(m) && l == m[id := l[id]] && q == (if useY then pos else pos.(y := 0))
      ensures forall o | o != id :: o in ViewsAt(l, id, q, m[id].visual).theirs <==> o in m && Around(useY, m[id].visual, pos, m[o].pos)
      ensures forall o | o != id :: o in ViewsAt(l, id, q, m[id].visual).mine <==> o in m && Around(useY, m[o].visual, m[o].pos, pos)
    {
      forall o | o in m && o != id
        ensures Sees(m[id].visual, q, m[o].pos) <==> Around(useY, m[id].visual, pos, m[o].pos)
        ensures Sees(m[o].visual, m[o].pos, q) <==> Around(useY, m[o].visual, m[o].pos, pos)
      {
        SeesPlainly(useY, m[id].visual, q, m[o].pos);
        SeesPlainly(useY, m[o].visual, m[o].pos, q);
      }
    }

    lemma NotIts(m: Entities, id: Id, oldPos: Pos)
      requires id in m
      ensures id !in SeenTo(m, id, oldPos) && id !in SeenBy(m, id, oldPos)
    {
    }

    /** Whoever comes into view or goes out of it changes sides of the range on some axis. */
    lemma SightPasses(m: Entities, id: Id, oldPos: Pos, o: Id)
      requires id in m && o in m && o != id && Level(m) && (!useY ==> oldPos.y == 0)
      ensures HasVisual(m[id]) && Sees(m[id].visual, oldPos, m[o].pos) != Sees(m[id].visual, m[id].pos, m[o].pos) ==>
                o in RangePasses(m, id, oldPos, X) + RangePasses(m, id, oldPos, Z) || (useY && o in RangePasses(m, id, oldPos, Y))
      ensures HasVisual(m[o]) && Sees(m[o].visual, m[o].pos, oldPos) != Sees(m[o].visual, m[o].pos, m[id].pos) ==>
                o in PlacePasses(m, id, oldPos, X) + PlacePasses(m, id, oldPos, Z) || (useY && o in PlacePasses(m, id, oldPos, Y))
    {
      var e, f := m[id], m[o];
      assert forall a :: (o in RangePasses(m, id, oldPos, a)) <==>
        HasVisual(e) && Side(SpanOf(e, a).(at := Coord(oldPos, a)), Coord(f.pos, a)) != Side(SpanOf(e, a), Coord(f.pos, a));
      assert forall a :: (o in PlacePasses(m, id, oldPos, a)) <==>
        HasVisual(f) && Side(SpanOf(f, a), Coord(oldPos, a)) != Side(SpanOf(f, a), Coord(e.pos, a));
      hide RangePasses;
      hide PlacePasses;
      assert Side(SpanOf(e, X), f.pos.x) == 0 <==> Within(e.pos.x, f.pos.x, e.visual);
    }

    /** A move along one axis misses nobody. */
    lemma AlongOneAxis(m: Entities, id: Id, oldPos: Pos, a: Axis)
      requires id in m && Level(m) && (!useY ==> oldPos.y == 0)
      requires forall b: Axis | b != a :: Coord(oldPos, b) == Coord(m[id].pos, b)
      ensures NoneMissed(m, id, ViewsAt(m, id, oldPos, m[id].visual), ViewsAt(m, id, m[id].pos, m[id].visual),
                         SeenBy(m, id, oldPos), SeenTo(m, id, oldPos))
    {
      forall b: Axis | b != a
        ensures RangePasses(m, id, oldPos, b) == {} == PlacePasses(m, id, oldPos, b)
      {
      }
      forall o | o in m && o != id
        ensures HasVisual(m[id]) && Sees(m[id].visual, oldPos, m[o].pos) != Sees(m[id].visual, m[id].pos, m[o].pos) ==> o in SeenTo(m, id, oldPos)
        ensures HasVisual(m[o]) && Sees(m[o].visual, m[o].pos, oldPos) != Sees(m[o].visual, m[o].pos, m[id].pos) ==> o in SeenBy(m, id, oldPos)
      {
        SightPasses(m, id, oldPos, o);
      }
    }

    /** If nobody is missed, all changes are reported. */
    lemma AllReported(m: Entities, id: Id, oldPos: Pos, c: Changes)
      requires id in m
      requires var v, w := ViewsAt(m, id, oldPos, m[id].visual), ViewsAt(m, id, m[id].pos, m[id].visual);
               var mine, theirs := SeenBy(m, id, oldPos), SeenTo(m, id, oldPos);
               NoneMissed(m, id, v, w, mine, theirs) && Reported(v, w, mine, theirs, c)
      ensures Told(m, id, ViewsAt(m, id, oldPos, m[id].visual), ViewsAt(m, id, m[id].pos, m[id].visual), m.Keys - {id}, c)
    {
      var v, w := ViewsAt(m, id, oldPos, m[id].visual), ViewsAt(m, id, m[id].pos, m[id].visual);
      var mine, theirs, all := SeenBy(m, id, oldPos), SeenTo(m, id, oldPos), m.Keys - {id};
      assert forall o | o in mine :: o in m && Interested(m[o]);
      assert Keen(m, (w.mine - v.mine) * all) == (w.mine - v.mine) * mine;
      assert Keen(m, (v.mine - w.mine) * all) == (v.mine - w.mine) * mine;
      if Interested(m[id]) {
        assert (w.theirs - v.theirs) * all == (w.theirs - v.theirs) * theirs;
        assert (v.theirs - w.theirs) * all == (v.theirs - w.theirs) * theirs;
      } else {
        assert theirs == {};
      }
    }

    /** A move along two can: one at 0 with range 5 goes to (1, 10, 0). On the x axis its range passes one at (6, 30, 0)
        with range 20; that this one gets it into view shows on the y axis only, and is missed. */
    lemma DiagonalMoveMisses(m: Entities)
      requires useY && m.Keys == {1, 2} && Interested(m[1]) && Interested(m[2])
      requires m[1].visual == 5 && m[1].pos == Pos(1, 10, 0) && m[2].visual == 20 && m[2].pos == Pos(6, 30, 0)
      ensures var oldPos := Pos(0, 0, 0);
              !NoneMissed(m, 1, ViewsAt(m, 1, oldPos, 5), ViewsAt(m, 1, m[1].pos, 5), SeenBy(m, 1, oldPos), SeenTo(m, 1, oldPos))
    {
      var oldPos := Pos(0, 0, 0);
      assert 2 in RangePasses(m, 1, oldPos, X) && 2 !in PlacePasses(m, 1, oldPos, X);
      assert 2 in Watchers(m, 1, m[1].pos) && 2 !in Watchers(m, 1, oldPos);
    }

    lemma KeysSame(m: Entities, m': Entities)
      requires SameButLists(m, m')
      ensures m.Keys == m'.Keys
    {
    }
  }
}
