/**
 * Who sees whom in a scene where everybody has a range of their own: the naive definition that the two list
 * indexes (engine/src/scene/skip_list_aoi.cpp, engine/src/scene/orth_list_aoi.cpp) maintain incrementally.
 */
module Sights {
  import opened IdLists
  import opened Sequences

  datatype Pos = Pos(x: int, y: int, z: int)

  // An entity: its mask, position and range, and who is interested in it.
  datatype Entity = Entity(mask: bv8, pos: Pos, visual: int, interestMe: seq<Id>)

  type Entities = map<Id, Entity>

  predicate Interested(e: Entity) { e.mask & INTEREST != 0 }

  predicate Within(p: int, q: int, range: int) { -range <= p - q <= range }

  /** Whether a range around p, a cube, takes in q. */
  predicate Sees(visual: int, p: Pos, q: Pos) {
    visual > 0 && Within(p.x, q.x, visual) && Within(p.y, q.y, visual) && Within(p.z, q.z, visual)
  }

  /** The naive definition: b is in the list of a, once, exactly if b is another entity that is interested and
      sees a. */
  ghost predicate ExactAt(m: Entities, a: Id)
    requires a in m
  {
    && NoDup(m[a].interestMe)
    && forall b :: b in m[a].interestMe <==> b in m && b != a && Interested(m[b]) && Sees(m[b].visual, m[b].pos, m[a].pos)
  }

  ghost predicate Exact(m: Entities) {
    forall a | a in m :: ExactAt(m, a)
  }

  /** q is no further from p than the range, in x, in z and, if heights count, in y. */
  ghost predicate Around(heights: bool, range: int, p: Pos, q: Pos) {
    && range > 0 && p.x - range <= q.x <= p.x + range && p.z - range <= q.z <= p.z + range
    && (heights ==> p.y - range <= q.y <= p.y + range)
  }

  /** In so many words: on a list are the others whose mask has the lowest bit set and whose range reaches so far. */
  lemma ExactPlainly(m: Entities)
    ensures Exact(m) <==>
              forall a | a in m ::
                && (forall i, j | 0 <= i < j < |m[a].interestMe| :: m[a].interestMe[i] != m[a].interestMe[j])
                && forall b :: b in m[a].interestMe <==>
                                 b in m && b != a && m[b].mask & 1 == 1 && Around(true, m[b].visual, m[b].pos, m[a].pos)
  {
    forall b | b in m
      ensures Interested(m[b]) <==> m[b].mask & 1 == 1
    {
      OneBit(m[b].mask);
    }
    forall a | a in m
      ensures ExactAt(m, a) <==>
                && (forall i, j | 0 <= i < j < |m[a].interestMe| :: m[a].interestMe[i] != m[a].interestMe[j])
                && forall b :: b in m[a].interestMe <==>
                                 b in m && b != a && m[b].mask & 1 == 1 && Around(true, m[b].visual, m[b].pos, m[a].pos)
    {
      assert forall b | b in m :: Sees(m[b].visual, m[b].pos, m[a].pos) <==> Around(true, m[b].visual, m[b].pos, m[a].pos);
    }
  }

  /** Where all are at one height, or heights count, to see is to have around. */
  lemma SeesPlainly(heights: bool, visual: int, p: Pos, q: Pos)
    requires !heights ==> p.y == q.y
    ensures Sees(visual, p, q) <==> Around(heights, visual, p, q)
  {
  }

  // For one entity: those who have it in view and those it has in view, as the lists know it.
  datatype Views = Views(mine: set<Id>, theirs: set<Id>)

  /** Whether watcher b has a in view; one of the two is id. */
  predicate Has(v: Views, id: Id, b: Id, a: Id) { if a == id then b in v.mine else a in v.theirs }

  function Add(v: Views, id: Id, b: Id, a: Id): Views {
    if a == id then v.(mine := v.mine + {b}) else v.(theirs := v.theirs + {a})
  }

  function Drop(v: Views, id: Id, b: Id, a: Id): Views {
    if a == id then v.(mine := v.mine - {b}) else v.(theirs := v.theirs - {a})
  }

  predicate Pair(m: Entities, id: Id, b: Id, a: Id) { b in m && a in m && b != a && (b == id || a == id) }

  /** The pairs that id is part of go by v, all others by the naive definition. */
  ghost predicate Listed(m: Entities, id: Id, v: Views, b: Id, a: Id)
    requires a in m && b in m
  {
    a != b && Interested(m[b]) && (if a == id || b == id then Has(v, id, b, a) else Sees(m[b].visual, m[b].pos, m[a].pos))
  }

  ghost predicate ListOk(m: Entities, id: Id, v: Views, a: Id)
    requires a in m
  {
    NoDup(m[a].interestMe) && forall b :: b in m[a].interestMe <==> b in m && Listed(m, id, v, b, a)
  }

  ghost predicate ListsOk(m: Entities, id: Id, v: Views) {
    forall a | a in m :: ListOk(m, id, v, a)
  }

  /** The others that a range around p takes in. */
  ghost function Seen(m: Entities, id: Id, p: Pos, visual: int): set<Id> {
    set o | o in m && o != id && Sees(visual, p, m[o].pos)
  }

  /** The others that see p. */
  ghost function Watchers(m: Entities, id: Id, p: Pos): set<Id> {
    set o | o in m && o != id && Sees(m[o].visual, m[o].pos, p)
  }

  ghost function ViewsAt(m: Entities, id: Id, p: Pos, visual: int): Views {
    Views(Watchers(m, id, p), Seen(m, id, p, visual))
  }

  lemma ExactIsListsOk(m: Entities, id: Id)
    requires id in m
    ensures Exact(m) <==> ListsOk(m, id, ViewsAt(m, id, m[id].pos, m[id].visual))
  {
    var v := ViewsAt(m, id, m[id].pos, m[id].visual);
    forall a, b | a in m && b in m
      ensures Listed(m, id, v, b, a) <==> b != a && Interested(m[b]) && Sees(m[b].visual, m[b].pos, m[a].pos)
    {
    }
    forall a | a in m
      ensures ListOk(m, id, v, a) <==> ExactAt(m, a)
    {
      if ExactAt(m, a) {
        assert forall b :: b in m[a].interestMe <==> b in m && Listed(m, id, v, b, a);
      } else if ListOk(m, id, v, a) {
        assert forall b :: b in m[a].interestMe <==> b in m && b != a && Interested(m[b]) && Sees(m[b].visual, m[b].pos, m[a].pos);
      }
    }
  }

  /** Nothing but lists has changed. */
  ghost predicate SameButLists(m: Entities, m': Entities) {
    m.Keys == m'.Keys && forall o | o in m :: m'[o] == m[o].(interestMe := m'[o].interestMe)
  }

  lemma SamePair(m: Entities, l: Entities, id: Id, o: Id)
    requires SameButLists(m, l) && id in m && o in m
    ensures id in l && o in l && l[id].pos == m[id].pos && l[o].pos == m[o].pos
    ensures l[id].visual == m[id].visual && l[o].visual == m[o].visual && l[id].mask == m[id].mask && l[o].mask == m[o].mask
  {
  }

  lemma SameTrans(m: Entities, m': Entities, m'': Entities)
    requires SameButLists(m, m') && SameButLists(m', m'')
    ensures SameButLists(m, m'')
  {
  }

  lemma AllSame(m: Entities)
    ensures SameButLists(m, m)
  {
  }

  lemma SameViews(m: Entities, m': Entities, id: Id, p: Pos, visual: int)
    requires SameButLists(m, m')
    ensures ViewsAt(m, id, p, visual) == ViewsAt(m', id, p, visual)
  {
    forall o | o in m
      ensures m[o].pos == m'[o].pos && m[o].visual == m'[o].visual
    {
    }
    assert Seen(m, id, p, visual) == Seen(m', id, p, visual);
    assert Watchers(m, id, p) == Watchers(m', id, p);
  }

  /** Nobody but id has got on or off anybody's list but that of id. */
  ghost predicate OthersAlone(m: Entities, m': Entities, id: Id) {
    forall a, b | a in m && a in m' && a != id && b != id :: b in m'[a].interestMe <==> b in m[a].interestMe
  }

  lemma AloneTrans(m: Entities, m': Entities, m'': Entities, id: Id)
    requires SameButLists(m, m') && OthersAlone(m, m', id) && OthersAlone(m', m'', id)
    ensures OthersAlone(m, m'', id)
  {
  }

  /** A change of the list of a, by b or by anybody if a is id. */
  lemma OneListChanged(m: Entities, a: Id, list: seq<Id>, id: Id)
    requires a in m && (a == id || forall y | y != id :: y in list <==> y in m[a].interestMe)
    ensures OthersAlone(m, m[a := m[a].(interestMe := list)], id)
  {
  }

  /** Watcher b gets a into view. */
  lemma AddWatch(m: Entities, m': Entities, id: Id, v: Views, b: Id, a: Id)
    requires ListsOk(m, id, v) && Pair(m, id, b, a) && !Has(v, id, b, a)
    requires m' == if Interested(m[b]) then m[a := m[a].(interestMe := m[a].interestMe + [b])] else m
    ensures ListsOk(m', id, Add(v, id, b, a)) && SameButLists(m, m')
  {
    var w := Add(v, id, b, a);
    forall c | c in m'
      ensures ListOk(m', id, w, c)
    {
      assert ListOk(m, id, v, c);
      if c == a && Interested(m[b]) {
        assert b !in m[a].interestMe;
        Pushed(m[a].interestMe, b);
      }
      forall d
        ensures d in m'[c].interestMe <==> d in m' && Listed(m', id, w, d, c)
      {
        assert d in m ==> m'[d].mask == m[d].mask && m'[d].visual == m[d].visual && m'[d].pos == m[d].pos;
      }
    }
  }

  /** Watcher b loses a from view, if it had it. */
  lemma DropWatch(m: Entities, m': Entities, id: Id, v: Views, b: Id, a: Id)
    requires ListsOk(m, id, v) && Pair(m, id, b, a) && a in m'
    requires if Interested(m[b]) then
               Without(m[a].interestMe, b, m'[a].interestMe) && m' == m[a := m[a].(interestMe := m'[a].interestMe)]
             else m' == m
    ensures ListsOk(m', id, Drop(v, id, b, a)) && SameButLists(m, m')
  {
    var w := Drop(v, id, b, a);
    forall c | c in m'
      ensures ListOk(m', id, w, c)
    {
      assert ListOk(m, id, v, c);
      forall d
        ensures d in m'[c].interestMe <==> d in m' && Listed(m', id, w, d, c)
      {
        assert d in m ==> m'[d].mask == m[d].mask && m'[d].visual == m[d].visual && m'[d].pos == m[d].pos;
      }
    }
  }

  /** What one who is not interested has in view is on no list. */
  lemma TheirsFree(m: Entities, id: Id, v: Views, theirs: set<Id>)
    requires ListsOk(m, id, v) && id in m && !Interested(m[id])
    ensures ListsOk(m, id, v.(theirs := theirs))
  {
    forall a | a in m
      ensures ListOk(m, id, v.(theirs := theirs), a)
    {
      assert ListOk(m, id, v, a);
    }
  }

  lemma MineFree(m: Entities, id: Id, v: Views, mine: set<Id>)
    requires ListsOk(m, id, v) && id in m
    requires forall b | b in m && Interested(m[b]) :: b in v.mine <==> b in mine
    ensures ListsOk(m, id, v.(mine := mine))
  {
    forall a | a in m
      ensures ListOk(m, id, v.(mine := mine), a)
    {
      assert ListOk(m, id, v, a);
    }
  }

  /** A new entity that nobody lists yet and that lists nobody. */
  lemma Newcomer(m: Entities, id: Id, e: Entity)
    requires Exact(m) && id !in m && e.interestMe == []
    ensures ListsOk(m[id := e], id, Views({}, {}))
  {
    var l, v := m[id := e], Views({}, {});
    forall a | a in l
      ensures ListOk(l, id, v, a)
    {
      if a != id {
        assert ExactAt(m, a);
        forall b
          ensures b in l[a].interestMe <==> b in l && Listed(l, id, v, b, a)
        {
          assert b in m[a].interestMe <==> b in m && b != a && Interested(m[b]) && Sees(m[b].visual, m[b].pos, m[a].pos);
        }
      }
    }
  }

  /** An entity that nobody lists can go. */
  lemma Gone(m: Entities, id: Id, v: Views)
    requires ListsOk(m, id, v) && id in m && (Interested(m[id]) ==> v.theirs == {})
    ensures Exact(m - {id})
  {
    var l := m - {id};
    forall a | a in l
      ensures ExactAt(l, a)
    {
      assert ListOk(m, id, v, a);
      forall b
        ensures b in l[a].interestMe <==> b in l && b != a && Interested(l[b]) && Sees(l[b].visual, l[b].pos, l[a].pos)
      {
        assert b in m[a].interestMe <==> b in m && Listed(m, id, v, b, a);
      }
    }
  }

  /** Where id is and how far it sees makes no difference to lists that go by v. */
  lemma Elsewhere(m: Entities, id: Id, v: Views, pos: Pos, visual: int)
    requires ListsOk(m, id, v) && id in m
    ensures ListsOk(m[id := m[id].(pos := pos, visual := visual)], id, v)
  {
    var l := m[id := m[id].(pos := pos, visual := visual)];
    forall a | a in l
      ensures ListOk(l, id, v, a)
    {
      assert ListOk(m, id, v, a);
      forall b
        ensures b in l[a].interestMe <==> b in l && Listed(l, id, v, b, a)
      {
        assert b in m[a].interestMe <==> b in m && Listed(m, id, v, b, a);
      }
    }
  }

  /** What the others of id see does not depend on where id is. */
  lemma SameOthers(m: Entities, m': Entities, id: Id, p: Pos, visual: int)
    requires m.Keys == m'.Keys && forall o | o in m && o != id :: m[o].pos == m'[o].pos && m[o].visual == m'[o].visual
    ensures ViewsAt(m, id, p, visual) == ViewsAt(m', id, p, visual)
  {
    assert Seen(m, id, p, visual) == Seen(m', id, p, visual);
    assert Watchers(m, id, p) == Watchers(m', id, p);
  }

  // ---- from one set of views to another, entity by entity

  function Put(v: Views, id: Id, b: Id, a: Id, seen: bool): Views {
    if seen then Add(v, id, b, a) else Drop(v, id, b, a)
  }

  /** What is seen by one who is not interested is on no list. */
  lemma PutFree(m: Entities, id: Id, v: Views, b: Id, a: Id, seen: bool)
    requires ListsOk(m, id, v) && Pair(m, id, b, a) && (Interested(m[b]) ==> Has(v, id, b, a) == seen)
    ensures ListsOk(m, id, Put(v, id, b, a, seen))
  {
    var w := Put(v, id, b, a, seen);
    forall c | c in m
      ensures ListOk(m, id, w, c)
    {
      assert ListOk(m, id, v, c);
      forall d
        ensures d in m[c].interestMe <==> d in m && Listed(m, id, w, d, c)
      {
        assert d in m[c].interestMe <==> d in m && Listed(m, id, v, d, c);
      }
    }
  }

  /** Views that have been brought from v to w for the entities in done. */
  function Between(v: Views, w: Views, done: set<Id>): Views { Turned(v, w, done, done) }

  lemma BetweenStep(v: Views, w: Views, done: set<Id>, id: Id, o: Id)
    requires o !in done && o != id
    ensures var u := Between(v, w, done);
            && Has(u, id, id, o) == (o in v.theirs) && Has(u, id, o, id) == (o in v.mine)
            && Put(Put(u, id, id, o, o in w.theirs), id, o, id, o in w.mine) == Between(v, w, done + {o})
            && Has(Put(u, id, id, o, o in w.theirs), id, o, id) == (o in v.mine)
  {
    var u := Between(v, w, done);
    var u' := Put(Put(u, id, id, o, o in w.theirs), id, o, id, o in w.mine);
    assert u'.theirs == Between(v, w, done + {o}).theirs;
    assert u'.mine == Between(v, w, done + {o}).mine;
  }

  lemma BetweenEnds(v: Views, w: Views, done: set<Id>)
    ensures Between(v, w, {}) == v
    ensures v.mine + w.mine + v.theirs + w.theirs <= done ==> Between(v, w, done) == w
  {
  }

  /** Views that have been brought from v to w, as to whom the one in the middle has in view, for those in theirs, and as
      to who has it in view, for those in mine. */
  function Turned(v: Views, w: Views, mine: set<Id>, theirs: set<Id>): Views {
    Views((v.mine - mine) + w.mine * mine, (v.theirs - theirs) + w.theirs * theirs)
  }

  lemma TurnedNone(v: Views, w: Views)
    ensures Turned(v, w, {}, {}) == v
  {
    assert Turned(v, w, {}, {}).mine == v.mine && Turned(v, w, {}, {}).theirs == v.theirs;
  }

  lemma TurnedTheirs(v: Views, w: Views, mine: set<Id>, theirs: set<Id>, id: Id, o: Id)
    requires o != id
    ensures Put(Turned(v, w, mine, theirs), id, id, o, o in w.theirs) == Turned(v, w, mine, theirs + {o})
    ensures Has(Turned(v, w, mine, theirs), id, id, o) == if o in theirs then o in w.theirs else o in v.theirs
  {
    assert Put(Turned(v, w, mine, theirs), id, id, o, o in w.theirs).theirs == Turned(v, w, mine, theirs + {o}).theirs;
  }

  lemma TurnedMine(v: Views, w: Views, mine: set<Id>, theirs: set<Id>, id: Id, o: Id)
    ensures Put(Turned(v, w, mine, theirs), id, o, id, o in w.mine) == Turned(v, w, mine + {o}, theirs)
    ensures Has(Turned(v, w, mine, theirs), id, o, id) == if o in mine then o in w.mine else o in v.mine
  {
    assert Put(Turned(v, w, mine, theirs), id, o, id, o in w.mine).mine == Turned(v, w, mine + {o}, theirs).mine;
  }

  /** No change that matters, from v to w, is outside of mine and theirs. */
  ghost predicate NoneMissed(m: Entities, id: Id, v: Views, w: Views, mine: set<Id>, theirs: set<Id>)
    requires id in m
  {
    && (forall b | b in m && b != id && Interested(m[b]) && (b in v.mine) != (b in w.mine) :: b in mine)
    && (Interested(m[id]) ==> forall a | a in m && a != id && (a in v.theirs) != (a in w.theirs) :: a in theirs)
  }

  /** Lists that go by partly turned views are exact if and only if no change has been missed. */
  lemma TurnedExactly(m: Entities, id: Id, v: Views, mine: set<Id>, theirs: set<Id>)
    requires id in m && v.mine <= m.Keys - {id} && v.theirs <= m.Keys - {id}
    requires ListsOk(m, id, Turned(v, ViewsAt(m, id, m[id].pos, m[id].visual), mine, theirs))
    ensures Exact(m) <==> NoneMissed(m, id, v, ViewsAt(m, id, m[id].pos, m[id].visual), mine, theirs)
  {
    var w := ViewsAt(m, id, m[id].pos, m[id].visual);
    var u := Turned(v, w, mine, theirs);
    ExactIsListsOk(m, id);
    if NoneMissed(m, id, v, w, mine, theirs) {
      MineFree(m, id, u, w.mine);
      if Interested(m[id]) {
        forall a
          ensures a in u.theirs <==> a in w.theirs
        {
          assert a in w.theirs ==> a in m && a != id;
        }
        assert u.theirs == w.theirs;
        assert u.(mine := w.mine) == w;
      } else {
        TheirsFree(m, id, u.(mine := w.mine), w.theirs);
        assert u.(mine := w.mine).(theirs := w.theirs) == w;
      }
    }
    if Exact(m) {
      OneView(m, id, u, w);
    }
  }

  /** The interested ones among some. */
  ghost function Keen(m: Entities, s: set<Id>): set<Id> { set o | o in s && o in m && Interested(m[o]) }

  // Who has come into and gone out of an entity's view, and into and out of whose view it has come and gone.
  datatype Changes = Changes(meIn: seq<Id>, otherIn: seq<Id>, meOut: seq<Id>, otherOut: seq<Id>)

  const NO_CHANGES := Changes([], [], [], [])

  ghost predicate Lists(s: seq<Id>, want: set<Id>) { NoDup(s) && Members(s) == want }

  /** The changes from v to w among the entities in done, as far as the one who sees is interested. */
  ghost predicate Told(m: Entities, id: Id, v: Views, w: Views, done: set<Id>, c: Changes)
    requires id in m
  {
    && Lists(c.meIn, if Interested(m[id]) then (w.theirs - v.theirs) * done else {})
    && Lists(c.meOut, if Interested(m[id]) then (v.theirs - w.theirs) * done else {})
    && Lists(c.otherIn, Keen(m, (w.mine - v.mine) * done))
    && Lists(c.otherOut, Keen(m, (v.mine - w.mine) * done))
  }

  function AppendIf(s: seq<Id>, o: Id, c: bool): seq<Id> { if c then s + [o] else s }

  lemma ListsStep(s: seq<Id>, want: set<Id>, want': set<Id>, o: Id, c: bool)
    requires Lists(s, want) && o !in want && want' == if c then want + {o} else want
    ensures Lists(AppendIf(s, o, c), want')
  {
    if c {
      assert o !in Members(s);
      Pushed(s, o);
    }
  }

  lemma ToldStep(m: Entities, id: Id, v: Views, w: Views, done: set<Id>, c: Changes, o: Id, c': Changes)
    requires id in m && o in m && o !in done && Told(m, id, v, w, done, c)
    requires c'.meIn == AppendIf(c.meIn, o, Interested(m[id]) && o in w.theirs && o !in v.theirs)
    requires c'.meOut == AppendIf(c.meOut, o, Interested(m[id]) && o !in w.theirs && o in v.theirs)
    requires c'.otherIn == AppendIf(c.otherIn, o, Interested(m[o]) && o in w.mine && o !in v.mine)
    requires c'.otherOut == AppendIf(c.otherOut, o, Interested(m[o]) && o !in w.mine && o in v.mine)
    ensures Told(m, id, v, w, done + {o}, c')
  {
    var d := done + {o};
    var k := Interested(m[id]);
    ListsStep(c.meIn, if k then (w.theirs - v.theirs) * done else {}, if k then (w.theirs - v.theirs) * d else {},
              o, k && o in w.theirs && o !in v.theirs);
    ListsStep(c.meOut, if k then (v.theirs - w.theirs) * done else {}, if k then (v.theirs - w.theirs) * d else {},
              o, k && o !in w.theirs && o in v.theirs);
    ListsStep(c.otherIn, Keen(m, (w.mine - v.mine) * done), Keen(m, (w.mine - v.mine) * d),
              o, Interested(m[o]) && o in w.mine && o !in v.mine);
    ListsStep(c.otherOut, Keen(m, (v.mine - w.mine) * done), Keen(m, (v.mine - w.mine) * d),
              o, Interested(m[o]) && o !in w.mine && o in v.mine);
  }

  lemma ToldNothing(m: Entities, id: Id, v: Views, w: Views)
    requires id in m
    ensures Told(m, id, v, w, {}, NO_CHANGES)
  {
    assert Keen(m, (w.mine - v.mine) * {}) == {} == Keen(m, (v.mine - w.mine) * {});
    assert (w.theirs - v.theirs) * {} == {} == (v.theirs - w.theirs) * {};
  }

  lemma ToldKept(m: Entities, m': Entities, id: Id, v: Views, w: Views, done: set<Id>, c: Changes)
    requires id in m && SameButLists(m, m') && Told(m, id, v, w, done, c)
    ensures Told(m', id, v, w, done, c)
  {
    forall s
      ensures Keen(m, s) == Keen(m', s)
    {
      forall o | o in m
        ensures o in Keen(m, s) <==> o in Keen(m', s)
      {
      }
    }
  }

  /** Everybody who matters in a change of views from v to w is in done. */
  ghost predicate Caught(m: Entities, id: Id, v: Views, w: Views, done: set<Id>)
    requires id in m
  {
    && (forall b | b in m && Interested(m[b]) && b in v.mine + w.mine :: b in done)
    && (Interested(m[id]) ==> v.theirs + w.theirs <= done)
  }

  lemma CaughtAll(m: Entities, id: Id, v: Views, w: Views, done: set<Id>)
    requires id in m && Caught(m, id, v, w, done) && ListsOk(m, id, Between(v, w, done))
    ensures ListsOk(m, id, w)
  {
    var u := Between(v, w, done);
    MineFree(m, id, u, w.mine);
    var u' := u.(mine := w.mine);
    if Interested(m[id]) {
      assert u'.theirs == w.theirs;
      assert u' == w;
    } else {
      TheirsFree(m, id, u', w.theirs);
      assert u'.(theirs := w.theirs) == w;
    }
  }

  lemma KeenSame(m: Entities, s: set<Id>, t: set<Id>)
    requires forall o | o in m && Interested(m[o]) :: o in s <==> o in t
    ensures Keen(m, s) == Keen(m, t)
  {
    forall o
      ensures o in Keen(m, s) <==> o in Keen(m, t)
    {
    }
  }

  lemma ToldAll(m: Entities, id: Id, v: Views, w: Views, done: set<Id>, all: set<Id>, c: Changes)
    requires id in m && Caught(m, id, v, w, done) && Told(m, id, v, w, done, c) && done <= all
    ensures Told(m, id, v, w, all, c)
  {
    KeenSame(m, (w.mine - v.mine) * done, (w.mine - v.mine) * all);
    KeenSame(m, (v.mine - w.mine) * done, (v.mine - w.mine) * all);
    if Interested(m[id]) {
      assert (w.theirs - v.theirs) * done == (w.theirs - v.theirs) * all;
      assert (v.theirs - w.theirs) * done == (v.theirs - w.theirs) * all;
    }
  }

  /** First out of all views, then into new ones: if none is both old and new, these are the changes. */
  lemma ToldTwice(m: Entities, id: Id, v: Views, w: Views, all: set<Id>, c: Changes, d: Changes)
    requires id in m && Told(m, id, v, Views({}, {}), all, c) && Told(m, id, Views({}, {}), w, all, d)
    requires (forall b | b in m && Interested(m[b]) :: b !in v.mine || b !in w.mine) && (Interested(m[id]) ==> v.theirs !! w.theirs)
    ensures Told(m, id, v, w, all, Changes(d.meIn, d.otherIn, c.meOut, c.otherOut))
  {
    KeenSame(m, (w.mine - v.mine) * all, (w.mine - {}) * all);
    KeenSame(m, (v.mine - w.mine) * all, (v.mine - {}) * all);
    if Interested(m[id]) {
      assert (w.theirs - v.theirs) * all == (w.theirs - {}) * all;
      assert (v.theirs - w.theirs) * all == (v.theirs - {}) * all;
    }
  }

  /** The two halves of a move, the first of which brings nobody in and the second takes nobody out. */
  lemma HalvesTold(m: Entities, id: Id, v: Views, w: Views, left: set<Id>, entered: set<Id>, c: Changes, d: Changes)
    requires id in m && Told(m, id, v, Views({}, {}), left, c) && Told(m, id, Views({}, {}), w, entered, d)
    ensures Told(m, id, v, Views({}, {}), left, Changes([], [], c.meOut, c.otherOut))
    ensures Told(m, id, Views({}, {}), w, entered, Changes(d.meIn, d.otherIn, [], []))
  {
    assert Members([]) == {};
    assert ({} - v.theirs) * left == {} && Keen(m, ({} - v.mine) * left) == {};
    assert ({} - w.theirs) * entered == {} && Keen(m, ({} - w.mine) * entered) == {};
  }

  /** Lists cannot go by two views that differ in anybody who matters. */
  lemma OneView(m: Entities, id: Id, v: Views, w: Views)
    requires ListsOk(m, id, v) && ListsOk(m, id, w) && id in m
    ensures forall b | b in m && b != id && Interested(m[b]) :: b in v.mine <==> b in w.mine
    ensures Interested(m[id]) ==> forall a | a in m && a != id :: a in v.theirs <==> a in w.theirs
  {
    assert ListOk(m, id, v, id) && ListOk(m, id, w, id);
    forall b | b in m && b != id && Interested(m[b])
      ensures b in v.mine <==> b in w.mine
    {
      assert Listed(m, id, v, b, id) <==> Listed(m, id, w, b, id);
    }
    if Interested(m[id]) {
      forall a | a in m && a != id
        ensures a in v.theirs <==> a in w.theirs
      {
        assert ListOk(m, id, v, a) && ListOk(m, id, w, a);
        assert Listed(m, id, v, id, a) <==> Listed(m, id, w, id, a);
      }
    }
  }

  /** A newcomer's views have been built up among those in done: the lists are exact if and only if these were
      all who matter. */
  lemma CaughtExactly(m: Entities, id: Id, done: set<Id>)
    requires id in m
    requires var w := ViewsAt(m, id, m[id].pos, m[id].visual); ListsOk(m, id, Between(Views({}, {}), w, done))
    ensures Exact(m) <==> Caught(m, id, Views({}, {}), ViewsAt(m, id, m[id].pos, m[id].visual), done)
  {
    var none, w := Views({}, {}), ViewsAt(m, id, m[id].pos, m[id].visual);
    ExactIsListsOk(m, id);
    if Caught(m, id, none, w, done) {
      CaughtAll(m, id, none, w, done);
    }
    if Exact(m) {
      OneView(m, id, Between(none, w, done), w);
    }
  }

  // ---- entering all views again although some have not been left

  ghost predicate Doubled(m: Entities) { exists a | a in m :: !NoDup(m[a].interestMe) }

  lemma StillDoubled(m: Entities, a: Id, b: Id)
    requires Doubled(m) && a in m
    ensures Doubled(m[a := m[a].(interestMe := m[a].interestMe + [b])])
  {
    var l := m[a := m[a].(interestMe := m[a].interestMe + [b])];
    var c :| c in m && !NoDup(m[c].interestMe);
    if c == a {
      var i, j :| 0 <= i < j < |m[a].interestMe| && m[a].interestMe[i] == m[a].interestMe[j];
      assert l[a].interestMe[i] == l[a].interestMe[j];
    }
    assert c in l && !NoDup(l[c].interestMe);
  }

  /** Who is listed and comes into view again is listed twice. */
  lemma ListedTwice(m: Entities, id: Id, v: Views, b: Id, a: Id)
    requires ListsOk(m, id, v) && Pair(m, id, b, a) && Interested(m[b]) && Has(v, id, b, a)
    ensures Doubled(m[a := m[a].(interestMe := m[a].interestMe + [b])])
  {
    var l := m[a := m[a].(interestMe := m[a].interestMe + [b])];
    assert ListOk(m, id, v, a) && Listed(m, id, v, b, a);
    var i :| 0 <= i < |m[a].interestMe| && m[a].interestMe[i] == b;
    assert l[a].interestMe[i] == l[a].interestMe[|m[a].interestMe|];
    assert a in l && !NoDup(l[a].interestMe);
  }

  /** Views that are left over from before, and new ones among those in done. */
  function Merged(u: Views, w: Views, done: set<Id>): Views {
    Views(u.mine + w.mine * done, u.theirs + w.theirs * done)
  }

  /** None of those who matter and come into view is left over. */
  ghost predicate Afresh(m: Entities, id: Id, u: Views, w: Views, done: set<Id>)
    requires id in m
  {
    && (forall b | b in m && Interested(m[b]) && b in done :: b !in u.mine || b !in w.mine)
    && (Interested(m[id]) ==> forall a | a in done :: a !in u.theirs || a !in w.theirs)
  }

  /** The lists after the views left over, and then those in done, have been entered into. */
  ghost predicate Entered(m: Entities, id: Id, u: Views, w: Views, done: set<Id>)
    requires id in m
  {
    if Afresh(m, id, u, w, done) then ListsOk(m, id, Merged(u, w, done)) else Doubled(m)
  }

  /** What is left over is exactly what has not been entered into, among those who matter. */
  ghost predicate MadeUp(m: Entities, id: Id, u: Views, w: Views, done: set<Id>)
    requires id in m
  {
    && (forall b | b in m && b != id && Interested(m[b]) :: b in u.mine <==> b in w.mine - done)
    && (Interested(m[id]) ==> forall a | a in m && a != id :: a in u.theirs <==> a in w.theirs - done)
  }

  lemma EnteredExactly(m: Entities, id: Id, u: Views, done: set<Id>)
    requires id in m && u.mine <= m.Keys - {id} && u.theirs <= m.Keys - {id} && done <= m.Keys - {id}
    requires Entered(m, id, u, ViewsAt(m, id, m[id].pos, m[id].visual), done)
    ensures Exact(m) <==> MadeUp(m, id, u, ViewsAt(m, id, m[id].pos, m[id].visual), done)
  {
    var w := ViewsAt(m, id, m[id].pos, m[id].visual);
    var j := Merged(u, w, done);
    ExactIsListsOk(m, id);
    if !Afresh(m, id, u, w, done) {
      var a :| a in m && !NoDup(m[a].interestMe);
      assert !ExactAt(m, a);
    } else if MadeUp(m, id, u, w, done) {
      MineFree(m, id, j, w.mine);
      if Interested(m[id]) {
        forall a
          ensures a in j.theirs <==> a in w.theirs
        {
          assert a in w.theirs ==> a in m && a != id;
        }
        assert j.theirs == w.theirs;
        assert j.(mine := w.mine) == w;
      } else {
        TheirsFree(m, id, j.(mine := w.mine), w.theirs);
        assert j.(mine := w.mine).(theirs := w.theirs) == w;
      }
    } else if Exact(m) {
      OneView(m, id, j, w);
    }
  }

  lemma NothingEntered(m: Entities, id: Id, u: Views, w: Views)
    requires id in m && ListsOk(m, id, u)
    ensures Entered(m, id, u, w, {})
  {
    assert Merged(u, w, {}) == u;
  }

  /** One more has been asked whether it is in view, and whether it has id in view. */
  lemma EnteredStep(m: Entities, m': Entities, id: Id, u: Views, w: Views, done: set<Id>, o: Id)
    requires id in m && o in m && o != id && o !in done && SameButLists(m, m')
    requires var j := Merged(u, w, done);
             var ok := Afresh(m, id, u, w, done);
             var ok1 := ok && !(Interested(m[id]) && o in w.theirs && Has(j, id, id, o));
             var j1 := if o in w.theirs then Add(j, id, id, o) else j;
             var ok2 := ok1 && !(Interested(m[o]) && o in w.mine && Has(j1, id, o, id));
             if ok2 then ListsOk(m', id, if o in w.mine then Add(j1, id, o, id) else j1) else Doubled(m')
    ensures Entered(m', id, u, w, done + {o})
  {
    var j := Merged(u, w, done);
    var j1 := if o in w.theirs then Add(j, id, id, o) else j;
    var j2 := if o in w.mine then Add(j1, id, o, id) else j1;
    SamePair(m, m', id, o);
    assert j2.mine == Merged(u, w, done + {o}).mine && j2.theirs == Merged(u, w, done + {o}).theirs;
    assert Afresh(m, id, u, w, done) <==> Afresh(m', id, u, w, done);
    assert Afresh(m', id, u, w, done + {o}) <==>
           Afresh(m', id, u, w, done) && !(Interested(m[id]) && o in w.theirs && o in u.theirs) && !(Interested(m[o]) && o in w.mine && o in u.mine);
  }

  lemma TheirsAll(v: Views, w: Views, done: set<Id>)
    requires v.mine == w.mine && v.theirs + w.theirs <= done
    ensures Between(v, w, done) == w
    ensures (w.theirs - v.theirs) * done == w.theirs - v.theirs && (v.theirs - w.theirs) * done == v.theirs - w.theirs
  {
    assert Between(v, w, done).mine == w.mine && Between(v, w, done).theirs == w.theirs;
  }

  lemma TheirsStep(v: Views, w: Views, done: set<Id>, id: Id, o: Id)
    requires v.mine == w.mine && o !in done && o != id
    ensures var u := Between(v, w, done);
            Has(u, id, id, o) == (o in v.theirs) && Put(u, id, id, o, o in w.theirs) == Between(v, w, done + {o})
  {
    var u := Between(v, w, done);
    assert u.mine == v.mine && Between(v, w, done + {o}).mine == v.mine;
    assert Put(u, id, id, o, o in w.theirs).theirs == Between(v, w, done + {o}).theirs;
  }

  lemma NewcomerSame(m: Entities, id: Id, e: Entity, m': Entities)
    requires id !in m && SameButLists(m[id := e], m')
    ensures m'.Keys == m.Keys + {id} && m'[id] == e.(interestMe := m'[id].interestMe) && SameButLists(m, m' - {id})
  {
    var l := m[id := e];
    assert l[id] == e;
    forall o | o in m
      ensures m'[o] == m[o].(interestMe := m'[o].interestMe)
    {
      assert l[o] == m[o];
    }
  }

  lemma LeftSame(m: Entities, m': Entities, id: Id)
    requires SameButLists(m, m')
    ensures SameButLists(m - {id}, m' - {id})
  {
  }
}
