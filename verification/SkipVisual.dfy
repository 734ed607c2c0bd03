/**
 * The register of ranges in use (add_visual and del_visual, engine/src/scene/skip_list_aoi.cpp): how many use each,
 * and an upper bound of all. Everything the index looks up within the bound is right as long as it is a bound.
 */
module SkipVisuals {
  import opened IdLists
  import opened Sequences
  import opened Sights

  datatype Visual = Visual(visual: int, counter: int)

  ghost predicate Registered(vs: seq<Visual>, v: int) { exists i | 0 <= i < |vs| :: vs[i].visual == v }

  /** No range twice, none zero, and all in use. */
  ghost predicate Regular(vs: seq<Visual>) {
    && (forall i, j | 0 <= i < j < |vs| :: vs[i].visual != vs[j].visual)
    && (forall i | 0 <= i < |vs| :: vs[i].visual != 0 && vs[i].counter >= 1)
  }

  ghost function Count(vs: seq<Visual>, v: int): int
  {
    if exists i :: 0 <= i < |vs| && vs[i].visual == v then
      var i :| 0 <= i < |vs| && vs[i].visual == v;
      vs[i].counter
    else 0
  }

  lemma CountAt(vs: seq<Visual>, i: nat)
    requires Regular(vs) && i < |vs|
    ensures Count(vs, vs[i].visual) == vs[i].counter
  {
  }

  /** The interested entities with range v. */
  ghost function Users(m: Entities, v: int): set<Id> {
    set o | o in m && Interested(m[o]) && m[o].visual == v
  }

  /** Every range in use is counted at least as often as it is used. */
  ghost predicate Counted(vs: seq<Visual>, m: Entities) {
    Regular(vs) && forall v | v != 0 :: |Users(m, v)| <= Count(vs, v)
  }

  /** No registered range is greater than max. */
  ghost predicate Bounds(vs: seq<Visual>, max: int) {
    forall i | 0 <= i < |vs| :: vs[i].visual <= max
  }

  lemma CountedIsRegular(vs: seq<Visual>, m: Entities)
    requires Counted(vs, m)
    ensures Regular(vs)
  {
  }

  lemma UserIsCounted(vs: seq<Visual>, m: Entities, o: Id)
    requires Counted(vs, m) && o in m && Interested(m[o]) && m[o].visual != 0
    ensures Count(vs, m[o].visual) >= 1 && Registered(vs, m[o].visual)
  {
    assert o in Users(m, m[o].visual);
  }

  lemma UsersBounded(vs: seq<Visual>, m: Entities, max: int, o: Id)
    requires Counted(vs, m) && Bounds(vs, max) && o in m && Interested(m[o]) && m[o].visual != 0
    ensures m[o].visual <= max
  {
    UserIsCounted(vs, m, o);
  }

  /** Nothing but the count of v has changed, by d. */
  ghost predicate Recounted(vs: seq<Visual>, vs': seq<Visual>, v: int, d: int) {
    Regular(vs') && forall w :: Count(vs', w) == Count(vs, w) + if w == v then d else 0
  }

  lemma OneMoreUse(vs: seq<Visual>, i: nat)
    requires Regular(vs) && i < |vs|
    ensures Recounted(vs, vs[i := vs[i].(counter := vs[i].counter + 1)], vs[i].visual, 1)
    ensures forall max :: Bounds(vs[i := vs[i].(counter := vs[i].counter + 1)], max) <==> Bounds(vs, max)
  {
    var vs' := vs[i := vs[i].(counter := vs[i].counter + 1)];
    SameVisuals(vs, vs', i);
  }

  lemma SameVisuals(vs: seq<Visual>, vs': seq<Visual>, i: nat)
    requires Regular(vs) && i < |vs| == |vs'| && vs' == vs[i := vs'[i]]
    requires vs'[i].visual == vs[i].visual && vs'[i].counter >= 1
    ensures Recounted(vs, vs', vs[i].visual, vs'[i].counter - vs[i].counter)
    ensures forall max :: Bounds(vs', max) <==> Bounds(vs, max)
  {
    forall j | 0 <= j < |vs|
      ensures vs'[j].visual == vs[j].visual
    {
    }
    forall w
      ensures Count(vs', w) == Count(vs, w) + if w == vs[i].visual then vs'[i].counter - vs[i].counter else 0
    {
      if j :| 0 <= j < |vs| && vs[j].visual == w {
        CountAt(vs, j);
        CountAt(vs', j);
      } else {
        assert Count(vs', w) == 0;
      }
    }
    forall max
      ensures Bounds(vs', max) <==> Bounds(vs, max)
    {
      assert forall j | 0 <= j < |vs| :: vs'[j].visual <= max <==> vs[j].visual <= max;
    }
  }

  lemma NewUse(vs: seq<Visual>, v: int)
    requires Regular(vs) && v != 0 && !Registered(vs, v)
    ensures Recounted(vs, vs + [Visual(v, 1)], v, 1)
    ensures forall max :: Bounds(vs + [Visual(v, 1)], max) <==> Bounds(vs, max) && v <= max
  {
    var vs' := vs + [Visual(v, 1)];
    assert Regular(vs');
    CountAt(vs', |vs|);
    forall w
      ensures Count(vs', w) == Count(vs, w) + if w == v then 1 else 0
    {
      if j :| 0 <= j < |vs| && vs[j].visual == w {
        CountAt(vs, j);
        CountAt(vs', j);
      } else if w == v {
        assert Count(vs, w) == 0;
      } else {
        assert forall j | 0 <= j < |vs'| :: vs'[j].visual != w;
      }
    }
    forall max
      ensures Bounds(vs', max) <==> Bounds(vs, max) && v <= max
    {
      if Bounds(vs', max) {
        assert vs'[|vs|].visual <= max;
        forall j | 0 <= j < |vs|
          ensures vs[j].visual <= max
        {
          assert vs'[j].visual <= max;
        }
      }
    }
  }

  /** The register without entry i: the last entry takes its place. */
  function Retire(vs: seq<Visual>, i: nat): seq<Visual>
    requires i < |vs|
  {
    vs[i := vs[|vs| - 1]][..|vs| - 1]
  }

  lemma LastUse(vs: seq<Visual>, i: nat)
    requires Regular(vs) && i < |vs| && vs[i].counter == 1
    ensures Recounted(vs, Retire(vs, i), vs[i].visual, -1)
    ensures forall max :: Bounds(Retire(vs, i), max) <==> forall j | 0 <= j < |vs| && j != i :: vs[j].visual <= max
  {
    var vs', n := Retire(vs, i), |vs| - 1;
    forall j | 0 <= j < n
      ensures vs'[j] == vs[if j == i then n else j]
    {
    }
    assert Regular(vs');
    forall w
      ensures Count(vs', w) == Count(vs, w) + if w == vs[i].visual then -1 else 0
    {
      if j :| 0 <= j < |vs| && vs[j].visual == w {
        CountAt(vs, j);
        if j != i {
          CountAt(vs', if j == n then i else j);
        } else {
          assert forall k | 0 <= k < n :: vs'[k].visual != w;
        }
      } else {
        assert forall k | 0 <= k < n :: vs'[k].visual != w;
      }
    }
    forall max
      ensures Bounds(vs', max) <==> forall j | 0 <= j < |vs| && j != i :: vs[j].visual <= max
    {
      if Bounds(vs', max) {
        forall j | 0 <= j < |vs| && j != i
          ensures vs[j].visual <= max
        {
          assert vs'[if j == n then i else j].visual <= max;
        }
      }
    }
  }

  /** The bound after a range has been given up: del_visual falls back to whatever entry has come last. */
  function MaxAfter(vs: seq<Visual>, i: nat, max: int): int
    requires i < |vs|
  {
    if vs[i].visual != max then max
    else if |vs| == 1 then 0
    else Retire(vs, i)[|vs| - 2].visual
  }

  /** The bound after one use of range v has been given up, and one of w taken up. */
  ghost function MaxWithout(vs: seq<Visual>, v: int, max: int): int {
    if i :| 0 <= i < |vs| && vs[i].visual == v && vs[i].counter == 1 then MaxAfter(vs, i, max) else max
  }

  ghost function MaxWith(vs: seq<Visual>, v: int, w: int, max: int): int {
    var rest := MaxWithout(vs, v, max);
    if w == 0 || Registered(vs, w) || w <= rest then rest else w
  }

  /** Without one use of range v, b is a bound. */
  ghost predicate OthersBelow(vs: seq<Visual>, v: int, b: int) {
    forall j | 0 <= j < |vs| && (vs[j].visual != v || vs[j].counter > 1) :: vs[j].visual <= b
  }

  /** One use of v has been given up. */
  ghost predicate GivenUp(vs: seq<Visual>, vs': seq<Visual>, v: int, max: int, max': int) {
    && max' == MaxWithout(vs, v, max)
    && (forall w | w != v :: Registered(vs', w) <==> Registered(vs, w))
    && (forall b :: Bounds(vs', b) <==> OthersBelow(vs, v, b))
  }

  lemma NothingGivenUp(vs: seq<Visual>, max: int)
    requires Regular(vs)
    ensures GivenUp(vs, vs, 0, max, max)
  {
  }

  lemma OneGivenUp(vs: seq<Visual>, vs': seq<Visual>, i: nat, max: int)
    requires Regular(vs) && i < |vs| && vs[i].counter > 1
    requires vs' == vs[i := vs[i].(counter := vs[i].counter - 1)]
    ensures GivenUp(vs, vs', vs[i].visual, max, max)
  {
    assert forall j | 0 <= j < |vs| :: vs'[j].visual == vs[j].visual;
    SameVisuals(vs, vs', i);
    forall w | w != vs[i].visual
      ensures Registered(vs', w) <==> Registered(vs, w)
    {
      if j :| 0 <= j < |vs| && vs[j].visual == w {
        assert vs'[j].visual == w;
      }
    }
    assert forall b :: Bounds(vs, b) <==> OthersBelow(vs, vs[i].visual, b);
  }

  lemma LastGivenUp(vs: seq<Visual>, i: nat, max: int)
    requires Regular(vs) && i < |vs| && vs[i].counter == 1
    ensures GivenUp(vs, Retire(vs, i), vs[i].visual, max, MaxAfter(vs, i, max))
  {
    var vs', n := Retire(vs, i), |vs| - 1;
    LastUse(vs, i);
    forall w | w != vs[i].visual
      ensures Registered(vs', w) <==> Registered(vs, w)
    {
      if j :| 0 <= j < |vs| && vs[j].visual == w {
        assert vs'[if j == n then i else j].visual == w;
      }
    }
    assert forall b :: (forall j | 0 <= j < |vs| && j != i :: vs[j].visual <= b) <==> OthersBelow(vs, vs[i].visual, b);
  }

  /** Retiring the widest range keeps the bound exactly if the entry that comes last is the widest of the rest. */
  lemma RetireKeepsBound(vs: seq<Visual>, i: nat, max: int)
    requires Regular(vs) && i < |vs| && vs[i].counter == 1 && Bounds(vs, max)
    ensures Bounds(Retire(vs, i), MaxAfter(vs, i, max)) <==>
              || vs[i].visual < max || |vs| == 1
              || (forall j | 0 <= j < |vs| && j != i :: vs[j].visual <= Retire(vs, i)[|vs| - 2].visual)
  {
    LastUse(vs, i);
  }

  /** It need not be: with ranges 10, 3 and 5 registered in this order, retiring 10 leaves 3 as the bound. */
  lemma WidestRetired()
    ensures var vs := [Visual(10, 1), Visual(3, 1), Visual(5, 1)];
            && Regular(vs) && Bounds(vs, 10)
            && Retire(vs, 0) == [Visual(5, 1), Visual(3, 1)] && MaxAfter(vs, 0, 10) == 3
            && !Bounds(Retire(vs, 0), MaxAfter(vs, 0, 10))
  {
    var vs := [Visual(10, 1), Visual(3, 1), Visual(5, 1)];
    assert Retire(vs, 0) == [Visual(5, 1), Visual(3, 1)];
    assert Retire(vs, 0)[0].visual == 5;
  }

  /** An entity's coming, going or change of range, on the counts. */
  lemma UserComes(vs: seq<Visual>, vs': seq<Visual>, m: Entities, id: Id, e: Entity)
    requires Counted(vs, m) && id !in m
    requires if e.visual != 0 && Interested(e) then Recounted(vs, vs', e.visual, 1) else vs' == vs
    ensures Counted(vs', m[id := e])
  {
    hide Count;
    hide Regular;
    hide Interested;
    forall v | v != 0
      ensures |Users(m[id := e], v)| <= Count(vs', v)
    {
      if Interested(e) && e.visual == v {
        assert Users(m[id := e], v) == Users(m, v) + {id};
      } else {
        assert Users(m[id := e], v) == Users(m, v);
      }
    }
  }

  lemma UserGoes(vs: seq<Visual>, m: Entities, id: Id)
    requires Counted(vs, m)
    ensures Counted(vs, m - {id})
  {
    forall v | v != 0
      ensures |Users(m - {id}, v)| <= Count(vs, v)
    {
      Fewer(Users(m - {id}, v), Users(m, v));
    }
  }

  lemma Fewer(a: set<Id>, b: set<Id>)
    requires a <= b
    ensures |a| <= |b|
  {
    assert b == a + (b - a);
  }

  lemma UserChanges(vs: seq<Visual>, vs': seq<Visual>, vs'': seq<Visual>, m: Entities, m': Entities, id: Id, v: int)
    requires Counted(vs, m) && id in m && Interested(m[id]) && m' == m[id := m[id].(visual := v)] && m[id].visual != v
    requires if m[id].visual != 0 then Recounted(vs, vs', m[id].visual, -1) else vs' == vs
    requires if v != 0 then Recounted(vs', vs'', v, 1) else vs'' == vs'
    ensures Counted(vs'', m')
  {
    hide Count;
    hide Regular;
    forall w | w != 0
      ensures |Users(m', w)| <= Count(vs'', w)
    {
      if w == v {
        assert Users(m', w) == Users(m, w) + {id};
      } else if w == m[id].visual {
        assert Users(m', w) == Users(m, w) - {id};
      } else {
        assert Users(m', w) == Users(m, w);
      }
    }
  }

  lemma SameUsers(vs: seq<Visual>, m: Entities, m': Entities)
    requires Counted(vs, m) && m.Keys == m'.Keys && forall o | o in m :: m[o].mask == m'[o].mask && m[o].visual == m'[o].visual
    ensures Counted(vs, m')
  {
    forall v
      ensures Users(m, v) == Users(m', v)
    {
      forall o | o in m
        ensures o in Users(m, v) <==> o in Users(m', v)
      {
      }
    }
  }
}
