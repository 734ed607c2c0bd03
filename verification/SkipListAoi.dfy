/**
 * The index of areas of interest on one sorted axis with index nodes to jump to (engine/src/scene/skip_list_aoi.cpp,
 * engine/src/scene/skip_list_aoi.hpp). A pointer to an entity's record is its id; a stored list iterator is the node
 * it points to.
 */
module SkipListAois {
  import opened IdLists
  import opened Sequences
  import opened Sights
  import opened SkipOrders
  import opened SkipVisuals

  // Where an entity is, if anywhere.
  datatype Place = Nowhere | There(pos: Pos)

  function Least(a: int, b: int): int { if a < b then a else b }

  function Greatest(a: int, b: int): int { if a < b then b else a }

  class SkipListAOI {
    var maxVisual: int
    var visuals: seq<Visual>
    var ctxs: Entities
    var index: int
    var list: seq<Node>
    var indexer: seq<int>

    /** The index nodes stand at the multiples of the index step. */
    ghost predicate Spaced()
      reads this`index, this`indexer
    {
      index > 0 && indexer != [] && forall i | 0 <= i < |indexer| :: indexer[i] == i * index
    }

    /** The list holds every index node and every entity but those gone, with the first index node in front. */
    ghost predicate Listing(gone: set<Id>)
      reads this`ctxs, this`list, this`indexer
    {
      && Holds(list, indexer, ctxs, gone) && list != [] && list[0] == Index(0)
      && forall o | o in ctxs :: o != 0 && ctxs[o].pos.x >= 0
    }

    ghost predicate Valid()
      reads this
    {
      Spaced() && Listing({}) && Sorted(list, indexer, ctxs) && Counted(visuals, ctxs) && Exact(ctxs)
    }

    /** Whether the index reaches x. */
    predicate InScene(x: int)
      reads this`index, this`indexer
    {
      0 <= x && index > 0 && x / index < |indexer|
    }

    constructor ()
      ensures index == maxVisual == 0 && visuals == [] && ctxs == map[] && list == [] && indexer == []
    {
      index, maxVisual, visuals, ctxs, list, indexer := 0, 0, [], map[], [], [];
    }

    /** Builds the index nodes, once and before anything else. */
    method SetIndex(step: int, maxX: int)
      requires index == maxVisual == 0 && visuals == [] && ctxs == map[] && list == [] && indexer == []
      requires step > 0 && maxX > 0
      modifies this
      ensures Valid() && Bounds(visuals, maxVisual) && ctxs == map[] && forall x | 0 <= x < maxX :: InScene(x)
      ensures index == step && (|indexer| - 1) * step < maxX <= |indexer| * step && |list| == |indexer|
      ensures forall i | 0 <= i < |indexer| :: list[i] == Index(i) && indexer[i] == i * step
    {
      var size := (maxX + step - 1) / step;
      index := step;
      var i := 0;
      while i < size
        invariant 0 <= i <= size && |list| == |indexer| == i && index == step
        invariant forall j | 0 <= j < i :: list[j] == Index(j) && indexer[j] == j * step
        invariant visuals == [] && ctxs == map[] && maxVisual == 0
      {
        list := list + [Index(i)];
        indexer := indexer + [i * index];
        i := i + 1;
      }
      IndexOnly(list, indexer, step);
      forall x | 0 <= x < maxX
        ensures InScene(x)
      {
        Reaches(x, maxX, step);
      }
      RoundedUp(maxX, step, size);
      forall v | v != 0
        ensures |Users(ctxs, v)| <= Count(visuals, v)
      {
        assert Users(ctxs, v) == {};
      }
    }

    lemma Reaches(x: int, maxX: int, step: int)
      requires 0 <= x < maxX && step > 0
      ensures x / step < (maxX + step - 1) / step
    {
      var q, r := x / step, x % step;
      assert maxX + step - 1 >= x + step == (q + 1) * step + r;
      Quotient(maxX + step - 1, step, q + 1);
    }

    lemma RoundedUp(maxX: int, step: int, size: int)
      requires step > 0 && size == (maxX + step - 1) / step
      ensures (size - 1) * step < maxX <= size * step
    {
      var r := (maxX + step - 1) % step;
      assert maxX + step - 1 == size * step + r;
    }

    lemma Quotient(n: int, step: int, k: int)
      requires step > 0 && n >= k * step
      ensures n / step >= k
    {
      var q := n / step;
      assert q < k ==> (q + 1) * step <= k * step;
      assert (q + 1) * step == q * step + step > n;
    }

    lemma IndexOnly(s: seq<Node>, ixs: seq<int>, step: int)
      requires |s| == |ixs| > 0 && step > 0 && forall j | 0 <= j < |s| :: s[j] == Index(j) && ixs[j] == j * step
      ensures Holds(s, ixs, map[], {}) && Sorted(s, ixs, map[])
    {
      forall n
        ensures n in s <==> Belongs(ixs, map[], {}, n)
      {
        if n.Index? && n.i < |ixs| {
          assert s[n.i] == n;
        }
      }
      forall i, j | 0 <= i < j < |s|
        ensures InOrder(ixs, map[], s[i], s[j])
      {
        assert i * step < j * step;
      }
    }

    /** Counts one more use of a range. */
    method AddVisual(visual: int)
      requires Regular(visuals) && visual != 0
      modifies this`visuals, this`maxVisual
      ensures Recounted(old(visuals), visuals, visual, 1)
      ensures Bounds(old(visuals), old(maxVisual)) ==> Bounds(visuals, maxVisual)
      ensures maxVisual == if Registered(old(visuals), visual) || visual <= old(maxVisual) then old(maxVisual) else visual
      ensures Bounds(visuals, maxVisual) <==> Bounds(old(visuals), maxVisual)
    {
      var i := 0;
      while i < |visuals|
        invariant i <= |visuals| && visuals == old(visuals) && maxVisual == old(maxVisual)
        invariant forall j | 0 <= j < i :: visuals[j].visual != visual
      {
        if visuals[i].visual == visual {
          OneMoreUse(visuals, i);
          visuals := visuals[i := visuals[i].(counter := visuals[i].counter + 1)];
          return;
        }
        i := i + 1;
      }
      NewUse(visuals, visual);
      hide Recounted;
      hide Bounds;
      visuals := visuals + [Visual(visual, 1)];
      if visual > maxVisual {
        maxVisual := visual;
      }
      WiderBound(old(visuals), old(maxVisual), maxVisual);
    }

    lemma WiderBound(vs: seq<Visual>, max: int, max': int)
      requires max <= max'
      ensures Bounds(vs, max) ==> Bounds(vs, max')
    {
    }

    /** Counts one use of a range less. What is not in use must not be deleted. */
    method DelVisual(visual: int) returns (ghost i: nat)
      requires Regular(visuals) && Count(visuals, visual) >= 1
      modifies this`visuals, this`maxVisual
      ensures Recounted(old(visuals), visuals, visual, -1)
      ensures i < |old(visuals)| && old(visuals)[i].visual == visual
      ensures GivenUp(old(visuals), visuals, visual, old(maxVisual), maxVisual)
      ensures old(visuals)[i].counter > 1 ==>
                visuals == old(visuals)[i := Visual(visual, old(visuals)[i].counter - 1)] && maxVisual == old(maxVisual)
      ensures old(visuals)[i].counter == 1 ==>
                visuals == Retire(old(visuals), i) && maxVisual == MaxAfter(old(visuals), i, old(maxVisual))
    {
      i := 0;
      var k := 0;
      while k < |visuals|
        invariant k <= |visuals| && visuals == old(visuals) && maxVisual == old(maxVisual)
        invariant forall j | 0 <= j < k :: visuals[j].visual != visual
      {
        if visuals[k].visual == visual {
          i := k;
          visuals := visuals[k := visuals[k].(counter := visuals[k].counter - 1)];
          if visuals[k].counter <= 0 {
            LastUse(old(visuals), k);
            LastGivenUp(old(visuals), k, maxVisual);
            visuals := visuals[k := visuals[|visuals| - 1]][..|visuals| - 1];
            assert visuals == Retire(old(visuals), k);
            if visual == maxVisual {
              maxVisual := if visuals == [] then 0 else visuals[|visuals| - 1].visual;
            }
          } else {
            SameVisuals(old(visuals), visuals, k);
            OneGivenUp(old(visuals), visuals, k, maxVisual);
          }
          return;
        }
        k := k + 1;
      }
      assert false;
    }

    /** Puts an entity that is not in the list where it belongs, starting from the index node before it. */
    method InsertEntity(id: Id)
      requires Spaced() && Listing({id}) && Sorted(list, indexer, ctxs) && id in ctxs && InScene(ctxs[id].pos.x)
      modifies this`list
      ensures Listing({}) && Sorted(list, indexer, ctxs)
    {
      var key := KeyOf(indexer, ctxs, Ent(id));
      var start := Index(ctxs[id].pos.x / index);
      assert Belongs(indexer, ctxs, {id}, start);
      FindIt(list, start);
      var i := Find(list, start);
      StepBack(ctxs[id].pos.x);
      AllKnown({id});
      UpTo(list, indexer, ctxs, id, i);
      while i < |list| && Less(KeyOf(indexer, ctxs, list[i]), key)
        invariant i <= |list| && forall j | 0 <= j < i :: InOrder(indexer, ctxs, list[j], Ent(id))
      {
        i := i + 1;
      }
      assert indexer[0] == 0 * index && list[0] == Index(0);
      FitsFrom(list, indexer, ctxs, id, i);
      Inserted(list, indexer, ctxs, id, i);
      list := InsertAt(list, i, Ent(id));
    }

    lemma StepBack(x: int)
      requires Spaced() && InScene(x)
      ensures indexer[x / index] <= x
    {
      assert (x / index) * index <= x;
    }

    lemma AllKnown(gone: set<Id>)
      requires Listing(gone)
      ensures forall i | 0 <= i < |list| :: Known(indexer, ctxs, list[i])
    {
      forall i | 0 <= i < |list|
        ensures Known(indexer, ctxs, list[i])
      {
        assert list[i] in list;
      }
    }

    /** Moves the node of an entity whose x has changed from oldX to where it belongs now. */
    method ShiftEntity(id: Id, oldX: int)
      requires Spaced() && Listing({}) && id in ctxs && SortedBut(list, indexer, ctxs, id)
      requires FitsAt(list, indexer, ctxs, Find(list, Ent(id)), Key(oldX, true))
      modifies this`list
      ensures Listing({}) && Sorted(list, indexer, ctxs)
    {
      assert Belongs(indexer, ctxs, {}, Ent(id));
      FindIt(list, Ent(id));
      var x, k := ctxs[id].pos.x, Find(list, Ent(id));
      var iter, update, p := k, false, k;
      assert list[0] == Index(0) && k > 0;
      AllKnown({});
      hide Holds;
      hide SortedBut;
      hide FitsAt;
      hide Less;
      hide Sorted;
      hide Target;
      if x > oldX {
        iter := ScanRight(id, k);
        update := iter > k + 1;
        p := iter - 1;
        FitsAfterScan(id, k, oldX, p);
      } else if x < oldX {
        iter := ScanLeft(id, k);
        update := iter < k - 1;
        p := iter + 1;
        FitsBeforeScan(id, k, oldX, p);
      }
      InPlace(id, k, oldX, p);
      Replaced(id, k, p);
      if update {
        list := InsertAt(RemoveAt(list, k), p, Ent(id));
      }
    }

    /** Taking a node out and putting it in where it fits sorts the list. */
    lemma Replaced(id: Id, k: nat, p: nat)
      requires Listing({}) && id in ctxs && SortedBut(list, indexer, ctxs, id) && k < |list| && list[k] == Ent(id)
      requires Target(id, k, p) && p > 0
      ensures var s := InsertAt(RemoveAt(list, k), p, Ent(id));
              Holds(s, indexer, ctxs, {}) && Sorted(s, indexer, ctxs) && s != [] && s[0] == Index(0)
      ensures p == k ==> InsertAt(RemoveAt(list, k), p, Ent(id)) == list
    {
      Removed(list, indexer, ctxs, id, k);
      assert k > 0;
      hide Fits;
      hide SortedBut;
      hide Sorted;
      hide Holds;
      Inserted(RemoveAt(list, k), indexer, ctxs, id, p);
    }

    /** The first place right of the entity's node whose node is not less than the entity. */
    method ScanRight(id: Id, k: nat) returns (iter: nat)
      requires id in ctxs && k < |list| && list[k] == Ent(id) && forall i | 0 <= i < |list| :: Known(indexer, ctxs, list[i])
      ensures k < iter <= |list|
      ensures forall j | k < j < iter :: Less(KeyOf(indexer, ctxs, list[j]), KeyOf(indexer, ctxs, Ent(id)))
      ensures iter < |list| ==> !Less(KeyOf(indexer, ctxs, list[iter]), KeyOf(indexer, ctxs, Ent(id)))
    {
      iter := k + 1;
      while iter < |list| && Less(KeyOf(indexer, ctxs, list[iter]), KeyOf(indexer, ctxs, Ent(id)))
        invariant k < iter <= |list|
        invariant forall j | k < j < iter :: Less(KeyOf(indexer, ctxs, list[j]), KeyOf(indexer, ctxs, Ent(id)))
      {
        iter := iter + 1;
      }
    }

    /** The last place left of the entity's node whose node is not greater than the entity, or the first of all. */
    method ScanLeft(id: Id, k: nat) returns (iter: nat)
      requires id in ctxs && 0 < k < |list| && list[k] == Ent(id) && forall i | 0 <= i < |list| :: Known(indexer, ctxs, list[i])
      ensures iter < k
      ensures forall j | iter < j < k :: Less(KeyOf(indexer, ctxs, Ent(id)), KeyOf(indexer, ctxs, list[j]))
      ensures iter > 0 ==> !Less(KeyOf(indexer, ctxs, Ent(id)), KeyOf(indexer, ctxs, list[iter]))
    {
      iter := k - 1;
      while iter != 0 && Less(KeyOf(indexer, ctxs, Ent(id)), KeyOf(indexer, ctxs, list[iter]))
        invariant iter < k
        invariant forall j | iter < j < k :: Less(KeyOf(indexer, ctxs, Ent(id)), KeyOf(indexer, ctxs, list[j]))
      {
        iter := iter - 1;
      }
    }

    /** In the list without id's node, p is where id fits. */
    ghost predicate Target(id: Id, k: nat, p: nat)
      requires k < |list|
      reads this`ctxs, this`list, this`indexer
    {
      p < |list| && Fits(RemoveAt(list, k), indexer, ctxs, id, p)
    }

    lemma FitsAfterScan(id: Id, k: nat, oldX: int, p: nat)
      requires id in ctxs && k <= p < |list| && list[k] == Ent(id) && SortedBut(list, indexer, ctxs, id) && Listing({})
      requires FitsAt(list, indexer, ctxs, k, Key(oldX, true)) && ctxs[id].pos.x > oldX
      requires forall j | k < j <= p :: Known(indexer, ctxs, list[j]) && Less(KeyOf(indexer, ctxs, list[j]), KeyOf(indexer, ctxs, Ent(id)))
      requires p + 1 < |list| ==>
                 Known(indexer, ctxs, list[p + 1]) && !Less(KeyOf(indexer, ctxs, list[p + 1]), KeyOf(indexer, ctxs, Ent(id)))
      ensures Target(id, k, p)
    {
      var t := RemoveAt(list, k);
      forall j | 0 <= j < |t|
        ensures t[j] == list[if j < k then j else j + 1] && t[j] != Ent(id)
      {
      }
      forall j | 0 <= j < p
        ensures InOrder(indexer, ctxs, t[j], Ent(id))
      {
      }
      forall j | p <= j < |t|
        ensures InOrder(indexer, ctxs, Ent(id), t[j])
      {
        assert InOrder(indexer, ctxs, Ent(id), list[p + 1]);
        if j > p {
          assert InOrder(indexer, ctxs, list[p + 1], list[j + 1]);
          OrderTrans(indexer, ctxs, Ent(id), list[p + 1], list[j + 1]);
        }
      }
    }

    lemma FitsBeforeScan(id: Id, k: nat, oldX: int, p: nat)
      requires id in ctxs && 1 <= p <= k < |list| && list[k] == Ent(id) && SortedBut(list, indexer, ctxs, id) && Listing({}) && Spaced()
      requires FitsAt(list, indexer, ctxs, k, Key(oldX, true)) && ctxs[id].pos.x < oldX
      requires forall j | p <= j < k :: Known(indexer, ctxs, list[j]) && Less(KeyOf(indexer, ctxs, Ent(id)), KeyOf(indexer, ctxs, list[j]))
      requires p > 1 ==>
                 Known(indexer, ctxs, list[p - 1]) && !Less(KeyOf(indexer, ctxs, Ent(id)), KeyOf(indexer, ctxs, list[p - 1]))
      ensures Target(id, k, p)
    {
      var t := RemoveAt(list, k);
      forall j | 0 <= j < |t|
        ensures t[j] == list[if j < k then j else j + 1] && t[j] != Ent(id)
      {
      }
      assert indexer[0] == 0 * index;
      assert InOrder(indexer, ctxs, list[p - 1], Ent(id));
      forall j | 0 <= j < p
        ensures InOrder(indexer, ctxs, t[j], Ent(id))
      {
        if j < p - 1 {
          assert InOrder(indexer, ctxs, list[j], list[p - 1]);
          OrderTrans(indexer, ctxs, list[j], list[p - 1], Ent(id));
        }
      }
    }

    lemma InPlace(id: Id, k: nat, oldX: int, p: nat)
      requires id in ctxs && k < |list| && list[k] == Ent(id) && Listing({})
      requires FitsAt(list, indexer, ctxs, k, Key(oldX, true))
      requires ctxs[id].pos.x != oldX ==> Target(id, k, p)
      requires ctxs[id].pos.x == oldX ==> p == k
      ensures Target(id, k, p)
    {
      var t := RemoveAt(list, k);
      forall j | 0 <= j < |t|
        ensures t[j] == list[if j < k then j else j + 1] && t[j] != Ent(id)
      {
      }
    }

    /** The others from lo to hi along the axis, as met by walking left and right from an entity's node. The node
        may still be where its entity was, at c. */
    method EachRange(id: Id, lo: int, hi: int, ghost c: int) returns (visited: seq<Id>)
      requires Listing({}) && id in ctxs && SortedBut(list, indexer, ctxs, id)
      requires FitsAt(list, indexer, ctxs, Find(list, Ent(id)), Key(c, true))
      ensures NoDup(visited) && id !in visited && Range(ctxs, id, lo, hi) <= Members(visited) <= ctxs.Keys - {id}
      ensures lo <= c <= hi || hi < c < lo ==> Members(visited) == Range(ctxs, id, lo, hi)
    {
      assert Belongs(indexer, ctxs, {}, Ent(id));
      FindIt(list, Ent(id));
      var k := Find(list, Ent(id));
      AllKnown({});
      assert list[0] == Index(0) && k > 0 && NoDup(list);
      hide Met;
      hide Holds;
      hide FitsAt;
      hide SortedBut;
      var left, right;
      ghost var l, r;
      left, l := WalkLeft(k, lo);
      right, r := WalkRight(k, hi);
      WalksDone(list, indexer, ctxs, id, k, c, lo, hi, l, r, left, right);
      visited := left + right;
    }

    method WalkLeft(k: nat, lo: int) returns (left: seq<Id>, ghost l: nat)
      requires 0 < k < |list| && NoDup(list) && forall i | 0 <= i < |list| :: Known(indexer, ctxs, list[i])
      ensures 1 <= l <= k && Met(list, l, k, left) && (l == 1 || KeyOf(indexer, ctxs, list[l - 1]).x < lo)
      ensures forall i | l <= i < k :: KeyOf(indexer, ctxs, list[i]).x >= lo
    {
      hide Met;
      hide NoDup;
      left := [];
      NoneMet(k);
      var prev := k - 1;
      while prev != 0 && KeyOf(indexer, ctxs, list[prev]).x >= lo
        invariant prev < k && Met(list, prev + 1, k, left)
        invariant forall i | prev < i < k :: KeyOf(indexer, ctxs, list[i]).x >= lo
      {
        MeetLeft(list, prev, k, left);
        if list[prev].Ent? {
          left := left + [list[prev].id];
        }
        prev := prev - 1;
      }
      l := prev + 1;
    }

    method WalkRight(k: nat, hi: int) returns (right: seq<Id>, ghost r: nat)
      requires k < |list| && NoDup(list) && forall i | 0 <= i < |list| :: Known(indexer, ctxs, list[i])
      ensures k < r <= |list| && Met(list, k + 1, r, right) && (r == |list| || KeyOf(indexer, ctxs, list[r]).x > hi)
      ensures forall i | k < i < r :: KeyOf(indexer, ctxs, list[i]).x <= hi
    {
      hide Met;
      hide NoDup;
      right := [];
      NoneMet(k);
      var next := k + 1;
      while next < |list| && KeyOf(indexer, ctxs, list[next]).x <= hi
        invariant k < next <= |list| && Met(list, k + 1, next, right)
        invariant forall i | k < i < next :: KeyOf(indexer, ctxs, list[i]).x <= hi
      {
        MeetRight(list, k + 1, next, right);
        if list[next].Ent? {
          right := right + [list[next].id];
        }
        next := next + 1;
      }
      r := next;
    }

    lemma NoneMet(k: nat)
      ensures Met(list, k, k, []) && Met(list, k + 1, k + 1, [])
    {
    }

    /** Who watcher b sees has changed: a has come into view or gone out of it, or neither. If it comes into view and is
        listed already it is listed twice. */
    method OnChangeRange(b: Id, a: Id, isIn: bool, wasIn: bool, listIn: seq<Id>, listOut: seq<Id>, me: bool,
                         ghost id: Id, ghost v: Views, ghost ok: bool) returns (listIn': seq<Id>, listOut': seq<Id>)
      requires Pair(ctxs, id, b, a) && Interested(ctxs[b])
      requires if ok then ListsOk(ctxs, id, v) && (wasIn ==> Has(v, id, b, a)) else Doubled(ctxs) && !wasIn
      modifies this`ctxs
      ensures SameButLists(old(ctxs), ctxs)
      ensures ok && Has(v, id, b, a) == wasIn ==> ListsOk(ctxs, id, Put(v, id, b, a, isIn))
      ensures !wasIn ==> if ok && !(isIn && Has(v, id, b, a)) then ListsOk(ctxs, id, if isIn then Add(v, id, b, a) else v)
                         else Doubled(ctxs)
      ensures listIn' == AppendIf(listIn, if me then a else b, isIn && !wasIn)
      ensures listOut' == AppendIf(listOut, if me then a else b, !isIn && wasIn)
    {
      hide ListsOk;
      hide Doubled;
      listIn', listOut' := listIn, listOut;
      ghost var m := ctxs;
      AllSame(m);
      if isIn && !wasIn {
        ctxs := ctxs[a := ctxs[a].(interestMe := ctxs[a].interestMe + [b])];
        OneListNew(m, a, m[a].interestMe + [b]);
        if !ok {
          StillDoubled(m, a, b);
        } else if Has(v, id, b, a) {
          ListedTwice(m, id, v, b, a);
        } else {
          AddWatch(m, ctxs, id, v, b, a);
        }
        listIn' := listIn' + [if me then a else b];
      } else if !isIn && wasIn {
        var list, found := RemoveEntityFromVector(ctxs[a].interestMe, b);
        ctxs := ctxs[a := ctxs[a].(interestMe := list)];
        DropWatch(m, ctxs, id, v, b, a);
        listOut' := listOut' + [if me then a else b];
      } else if ok && Has(v, id, b, a) == wasIn {
        PutFree(ctxs, id, v, b, a, isIn);
      }
    }

    lemma OneListNew(m: Entities, a: Id, list: seq<Id>)
      requires a in m
      ensures SameButLists(m, m[a := m[a].(interestMe := list)])
    {
    }

    // Where an entity was before a step of its move, or is after it; nowhere if it has no part in the scene there.
    ghost function ViewsIf(m: Entities, id: Id, p: Place, visual: int): Views {
      if p.There? then ViewsAt(m, id, p.pos, visual) else Views({}, {})
    }

    /** The change between one entity that moves and another. */
    method ChangeOne(id: Id, o: Id, from: Place, to: Place, c: Changes, ghost u: Views) returns (c': Changes)
      requires ListsOk(ctxs, id, u) && id in ctxs && o in ctxs && o != id && (to.There? ==> to.pos == ctxs[id].pos)
      requires var v, w := ViewsIf(ctxs, id, from, ctxs[id].visual), ViewsIf(ctxs, id, to, ctxs[id].visual);
               && Has(u, id, id, o) == (o in v.theirs) && Has(u, id, o, id) == (o in v.mine)
               && Has(Put(u, id, id, o, o in w.theirs), id, o, id) == (o in v.mine)
      modifies this`ctxs
      ensures SameButLists(old(ctxs), ctxs)
      ensures var v, w := ViewsIf(old(ctxs), id, from, ctxs[id].visual), ViewsIf(old(ctxs), id, to, ctxs[id].visual);
              && ListsOk(ctxs, id, Put(Put(u, id, id, o, o in w.theirs), id, o, id, o in w.mine))
              && c'.meIn == AppendIf(c.meIn, o, Interested(ctxs[id]) && o in w.theirs && o !in v.theirs)
              && c'.meOut == AppendIf(c.meOut, o, Interested(ctxs[id]) && o !in w.theirs && o in v.theirs)
              && c'.otherIn == AppendIf(c.otherIn, o, Interested(ctxs[o]) && o in w.mine && o !in v.mine)
              && c'.otherOut == AppendIf(c.otherOut, o, Interested(ctxs[o]) && o !in w.mine && o in v.mine)
    {
      hide ListsOk;
      c' := c;
      ghost var m := ctxs;
      ghost var v, w := ViewsIf(m, id, from, m[id].visual), ViewsIf(m, id, to, m[id].visual);
      ghost var u' := Put(u, id, id, o, o in w.theirs);
      if ctxs[id].visual != 0 && Interested(ctxs[id]) {
        var isInMe := to.There? && Sees(ctxs[id].visual, ctxs[id].pos, ctxs[o].pos);
        var wasInMe := from.There? && Sees(ctxs[id].visual, ctxs[o].pos, from.pos);
        var in_, out_ := OnChangeRange(id, o, isInMe, wasInMe, c'.meIn, c'.meOut, true, id, u, true);
        c' := c'.(meIn := in_, meOut := out_);
      } else {
        PutFree(ctxs, id, u, id, o, o in w.theirs);
        AllSame(m);
      }
      ghost var l := ctxs;
      SamePair(m, l, id, o);
      if ctxs[o].visual != 0 && Interested(ctxs[o]) {
        var isInOther := to.There? && Sees(ctxs[o].visual, ctxs[o].pos, ctxs[id].pos);
        var wasInOther := from.There? && Sees(ctxs[o].visual, ctxs[o].pos, from.pos);
        var in_, out_ := OnChangeRange(o, id, isInOther, wasInOther, c'.otherIn, c'.otherOut, false, id, u', true);
        c' := c'.(otherIn := in_, otherOut := out_);
      } else {
        PutFree(ctxs, id, u', o, id, o in w.mine);
        AllSame(l);
      }
      SamePair(l, ctxs, id, o);
      SameTrans(m, l, ctxs);
    }

    /** The changes between one entity that moves and all those met. */
    method ChangeAll(id: Id, visited: seq<Id>, from: Place, to: Place, c: Changes) returns (c': Changes)
      requires id in ctxs && NoDup(visited) && Members(visited) <= ctxs.Keys - {id} && (to.There? ==> to.pos == ctxs[id].pos)
      requires ListsOk(ctxs, id, ViewsIf(ctxs, id, from, ctxs[id].visual))
      requires var v, w := ViewsIf(ctxs, id, from, ctxs[id].visual), ViewsIf(ctxs, id, to, ctxs[id].visual);
               Told(ctxs, id, v, w, {}, c)
      modifies this`ctxs
      ensures SameButLists(old(ctxs), ctxs)
      ensures var v, w := ViewsIf(old(ctxs), id, from, ctxs[id].visual), ViewsIf(old(ctxs), id, to, ctxs[id].visual);
              ListsOk(ctxs, id, Between(v, w, Members(visited))) && Told(old(ctxs), id, v, w, Members(visited), c')
    {
      hide ListsOk;
      hide Told;
      hide SameButLists;
      ghost var m := ctxs;
      ghost var v, w := ViewsIf(m, id, from, m[id].visual), ViewsIf(m, id, to, m[id].visual);
      hide ViewsIf;
      c' := c;
      AllSame(m);
      BetweenEnds(v, w, {});
      assert Members([]) == {};
      var i := 0;
      while i < |visited|
        invariant i <= |visited| && SameButLists(m, ctxs) && id in ctxs && ctxs[id].visual == m[id].visual && ctxs[id].pos == m[id].pos
        invariant ListsOk(ctxs, id, Between(v, w, Members(visited[..i]))) && Told(m, id, v, w, Members(visited[..i]), c')
      {
        var o := visited[i];
        assert o in Members(visited);
        OneMore(visited, i);
        ghost var done, l, d := Members(visited[..i]), ctxs, c';
        BetweenStep(v, w, done, id, o);
        SamePair(m, l, id, o);
        SameViewsIf(m, l, id, from, m[id].visual);
        SameViewsIf(m, l, id, to, m[id].visual);
        c' := ChangeOne(id, o, from, to, c', Between(v, w, done));
        SamePair(l, ctxs, id, o);
        ToldStep(m, id, v, w, done, d, o, c');
        SameTrans(m, l, ctxs);
        i := i + 1;
      }
      assert visited[..i] == visited;
    }

    lemma SameViewsIf(m: Entities, m': Entities, id: Id, p: Place, visual: int)
      requires SameButLists(m, m')
      ensures ViewsIf(m, id, p, visual) == ViewsIf(m', id, p, visual)
    {
      if p.There? {
        SameViews(m, m', id, p.pos, visual);
      }
    }

    /** Another that is met in the second pass of a long move: who comes into view of whom is listed, even if it is already. */
    method EnterOne(id: Id, o: Id, c: Changes, ghost j: Views, ghost ok: bool) returns (c': Changes)
      requires id in ctxs && o in ctxs && o != id && (if ok then ListsOk(ctxs, id, j) else Doubled(ctxs))
      modifies this`ctxs
      ensures SameButLists(old(ctxs), ctxs)
      ensures var w := ViewsAt(old(ctxs), id, ctxs[id].pos, ctxs[id].visual);
              var ok1 := ok && !(Interested(ctxs[id]) && o in w.theirs && Has(j, id, id, o));
              var j1 := if o in w.theirs then Add(j, id, id, o) else j;
              var ok2 := ok1 && !(Interested(ctxs[o]) && o in w.mine && Has(j1, id, o, id));
              && (if ok2 then ListsOk(ctxs, id, if o in w.mine then Add(j1, id, o, id) else j1) else Doubled(ctxs))
              && c' == c.(meIn := AppendIf(c.meIn, o, Interested(ctxs[id]) && o in w.theirs),
                          otherIn := AppendIf(c.otherIn, o, Interested(ctxs[o]) && o in w.mine))
    {
      hide ListsOk;
      hide Doubled;
      c' := c;
      ghost var m := ctxs;
      ghost var w := ViewsAt(m, id, m[id].pos, m[id].visual);
      ghost var ok1 := ok && !(Interested(m[id]) && o in w.theirs && Has(j, id, id, o));
      ghost var j1 := if o in w.theirs then Add(j, id, id, o) else j;
      AllSame(m);
      if ctxs[id].visual != 0 && Interested(ctxs[id]) {
        var isInMe := Sees(ctxs[id].visual, ctxs[id].pos, ctxs[o].pos);
        var in_, out_ := OnChangeRange(id, o, isInMe, false, c'.meIn, c'.meOut, true, id, j, ok);
        c' := c'.(meIn := in_, meOut := out_);
      } else if ok {
        FreeView(ctxs, id, j, id, o, o in w.theirs);
      }
      ghost var l := ctxs;
      SamePair(m, l, id, o);
      if ctxs[o].visual != 0 && Interested(ctxs[o]) {
        var isInOther := Sees(ctxs[o].visual, ctxs[o].pos, ctxs[id].pos);
        var in_, out_ := OnChangeRange(o, id, isInOther, false, c'.otherIn, c'.otherOut, false, id, j1, ok1);
        c' := c'.(otherIn := in_, otherOut := out_);
      } else if ok1 {
        FreeView(ctxs, id, j1, o, id, o in w.mine);
        AllSame(l);
      } else {
        AllSame(l);
      }
      SamePair(l, ctxs, id, o);
      SameTrans(m, l, ctxs);
    }

    lemma FreeView(m: Entities, id: Id, v: Views, b: Id, a: Id, sees: bool)
      requires ListsOk(m, id, v) && Pair(m, id, b, a) && (Interested(m[b]) ==> !sees)
      ensures ListsOk(m, id, if sees then Add(v, id, b, a) else v)
    {
      if sees {
        PutFree(m, id, v, b, a, true);
      }
    }

    /** All those met in the second pass. */
    method EnterSight(id: Id, visited: seq<Id>, ghost u: Views) returns (c: Changes)
      requires id in ctxs && NoDup(visited) && Members(visited) <= ctxs.Keys - {id} && ListsOk(ctxs, id, u)
      modifies this`ctxs
      ensures SameButLists(old(ctxs), ctxs) && id in ctxs
      ensures var m := old(ctxs);
              var w := ViewsAt(m, id, m[id].pos, m[id].visual);
              Entered(ctxs, id, u, w, Members(visited)) && Told(m, id, Views({}, {}), w, Members(visited), c)
    {
      hide ListsOk;
      hide Told;
      hide SameButLists;
      hide Entered;
      ghost var m, none := ctxs, Views({}, {});
      ghost var w := ViewsAt(m, id, m[id].pos, m[id].visual);
      c := NO_CHANGES;
      AllSame(m);
      NothingEntered(m, id, u, w);
      ToldNothing(m, id, none, w);
      assert Members([]) == {};
      var i := 0;
      while i < |visited|
        invariant i <= |visited| && SameButLists(m, ctxs) && id in ctxs && ctxs[id].visual == m[id].visual && ctxs[id].pos == m[id].pos
        invariant Entered(ctxs, id, u, w, Members(visited[..i])) && Told(m, id, none, w, Members(visited[..i]), c)
      {
        var o := visited[i];
        assert o in Members(visited);
        OneMore(visited, i);
        ghost var done, l, d := Members(visited[..i]), ctxs, c;
        SamePair(m, l, id, o);
        SameViews(m, l, id, m[id].pos, m[id].visual);
        EnteredMeans(l, id, u, w, done);
        c := EnterOne(id, o, c, Merged(u, w, done), Afresh(l, id, u, w, done));
        SamePair(l, ctxs, id, o);
        EnteredStep(l, ctxs, id, u, w, done, o);
        ToldStep(m, id, none, w, done, d, o, c);
        SameTrans(m, l, ctxs);
        i := i + 1;
      }
      assert visited[..i] == visited;
    }

    lemma EnteredMeans(m: Entities, id: Id, u: Views, w: Views, done: set<Id>)
      requires id in m && Entered(m, id, u, w, done)
      ensures if Afresh(m, id, u, w, done) then ListsOk(m, id, Merged(u, w, done)) else Doubled(m)
    {
    }

    /** In the middle of a move: the record of id has its new place, nothing else has changed. */
    ghost predicate Moving(m: Entities, id: Id)
      reads this
    {
      && id in m && id in ctxs && ctxs == m[id := m[id].(pos := ctxs[id].pos)] && ctxs[id].pos.x >= 0 && m[id].pos.x >= 0
      && Spaced() && Holds(list, indexer, m, {}) && Sorted(list, indexer, m) && Listing({})
      && Counted(visuals, ctxs) && Exact(m)
    }

    /** All that is as it should be, but for the lists of interest. */
    ghost predicate Placed(m: Entities, id: Id, pos: Pos)
      reads this
    {
      && id in m && id in ctxs && ctxs[id].pos == pos && SameButLists(m[id := m[id].(pos := pos)], ctxs)
      && Spaced() && Listing({}) && Sorted(list, indexer, ctxs) && Counted(visuals, ctxs)
    }

    /** The lists and reports k and c of a short move from p, whether or not max is a bound: those within it of either end of
        the move have been seen to. */
    static ghost predicate ShortDone(k: Entities, id: Id, p: Pos, max: int, c: Changes)
      requires id in k
    {
      var v, w := ViewsAt(k, id, p, k[id].visual), ViewsAt(k, id, k[id].pos, k[id].visual);
      var done := Range(k, id, Least(p.x, k[id].pos.x) - max, Greatest(p.x, k[id].pos.x) + max);
      Told(k, id, v, w, done, c) && (Exact(k) <==> NoneMissed(k, id, v, w, done, done))
    }

    /** The same of a long move: those within max of where it was have been left, those within it of where it is have been
        entered into. */
    static ghost predicate LongDone(k: Entities, id: Id, p: Pos, max: int, c: Changes)
      requires id in k
    {
      var none, v, w := Views({}, {}), ViewsAt(k, id, p, k[id].visual), ViewsAt(k, id, k[id].pos, k[id].visual);
      var left, entered := Range(k, id, p.x - max, p.x + max), Range(k, id, k[id].pos.x - max, k[id].pos.x + max);
      && Told(k, id, v, none, left, Changes([], [], c.meOut, c.otherOut))
      && Told(k, id, none, w, entered, Changes(c.meIn, c.otherIn, [], []))
      && (Exact(k) <==> MadeUp(k, id, Between(v, none, left), w, entered))
    }

    /** What an update does, whether or not the maximum is a bound. */
    ghost predicate MovedAnyhow(m: Entities, id: Id, pos: Pos, c: Changes)
      reads this
    {
      Placed(m, id, pos)
      && if Far(m[id].pos.x, pos.x) then LongDone(ctxs, id, m[id].pos, maxVisual, c) else ShortDone(ctxs, id, m[id].pos, maxVisual, c)
    }

    /** What an update is to bring about. */
    ghost predicate Moved(m: Entities, id: Id, pos: Pos, c: Changes)
      reads this
    {
      && Valid() && id in m && id in ctxs && ctxs[id].pos == pos && SameButLists(m[id := m[id].(pos := pos)], ctxs)
      && Told(ctxs, id, ViewsAt(m, id, m[id].pos, m[id].visual), ViewsAt(m, id, pos, m[id].visual), m.Keys - {id}, c)
    }

    /** What is known of views before a move. */
    lemma MoveStarts(m: Entities, id: Id)
      requires Moving(m, id)
      ensures var v := ViewsAt(m, id, m[id].pos, m[id].visual);
              ListsOk(ctxs, id, v) && v == ViewsAt(ctxs, id, m[id].pos, m[id].visual)
      ensures Find(list, Ent(id)) < |list| && list[Find(list, Ent(id))] == Ent(id)
      ensures SortedBut(list, indexer, ctxs, id) && FitsAt(list, indexer, ctxs, Find(list, Ent(id)), Key(m[id].pos.x, true))
    {
      ExactIsListsOk(m, id);
      Elsewhere(m, id, ViewsAt(m, id, m[id].pos, m[id].visual), ctxs[id].pos, m[id].visual);
      SameOthers(m, ctxs, id, m[id].pos, m[id].visual);
      assert Belongs(indexer, ctxs, {}, Ent(id));
      FindIt(list, Ent(id));
      Displaced(list, indexer, m, ctxs, id, Find(list, Ent(id)));
    }

    /** Both views overlap: shift the node, then compare the views before and after of everybody in either. */
    method UpdateEntityShort(id: Id, ghost m: Entities, oldPos: Pos) returns (c: Changes)
      requires Moving(m, id) && oldPos == m[id].pos
      requires !Far(oldPos.x, ctxs[id].pos.x)
      modifies this`ctxs, this`list
      ensures Placed(m, id, old(ctxs[id].pos)) && ShortDone(ctxs, id, oldPos, maxVisual, c)
    {
      hide Sorted;
      hide ListsOk;
      hide Told;
      ghost var l := ctxs;
      MoveStarts(m, id);
      hide ShortDone;
      hide Exact;
      hide Counted;
      hide Placed;
      var x := ctxs[id].pos.x;
      var prevVisual, nextVisual := x - maxVisual, oldPos.x + maxVisual;
      if x > oldPos.x {
        nextVisual := x + maxVisual;
        prevVisual := oldPos.x - maxVisual;
      }
      ShiftEntity(id, oldPos.x);
      SortedFits(list, indexer, ctxs, id);
      var visited := EachRange(id, prevVisual, nextVisual, x);
      ghost var v := ViewsIf(ctxs, id, There(oldPos), ctxs[id].visual);
      ghost var w := ViewsIf(ctxs, id, There(ctxs[id].pos), ctxs[id].visual);
      ToldNothing(ctxs, id, v, w);
      c := ChangeAll(id, visited, There(oldPos), There(ctxs[id].pos), NO_CHANGES);
      Housed(m, l, id);
      ShortOutcome(l, ctxs, id, oldPos, maxVisual, c);
    }

    /** All within the maximum have been met, from l to k. */
    static ghost predicate MetWithin(l: Entities, k: Entities, id: Id, p: Pos, max: int, c: Changes) {
      && id in l && id in k
      && var v, w := ViewsAt(l, id, p, l[id].visual), ViewsAt(l, id, l[id].pos, l[id].visual);
         var done := Range(l, id, Least(p.x, l[id].pos.x) - max, Greatest(p.x, l[id].pos.x) + max);
         ListsOk(k, id, Between(v, w, done)) && Told(l, id, v, w, done, c)
    }

    static lemma ShortOutcome(l: Entities, k: Entities, id: Id, p: Pos, max: int, c: Changes)
      requires SameButLists(l, k) && MetWithin(l, k, id, p, max, c)
      ensures id in k && ShortDone(k, id, p, max, c)
    {
      hide Told;
      hide Exact;
      hide ListsOk;
      hide NoneMissed;
      hide Range;
      hide ViewsAt;
      hide Between;
      hide Least;
      hide Greatest;
      hide SameButLists;
      var lo, hi := Least(p.x, l[id].pos.x) - max, Greatest(p.x, l[id].pos.x) + max;
      SightSame(l, k, id, p, lo, hi);
      ToldKept(l, k, id, ViewsAt(k, id, p, k[id].visual), ViewsAt(k, id, k[id].pos, k[id].visual), Range(k, id, lo, hi), c);
      ShortExact(k, id, p, lo, hi);
    }

    /** Views and ranges do not depend on the lists of interest. */
    static lemma SightSame(l: Entities, k: Entities, id: Id, p: Pos, lo: int, hi: int)
      requires id in l && id in k && SameButLists(l, k)
      ensures l[id].pos == k[id].pos && Range(l, id, lo, hi) == Range(k, id, lo, hi)
      ensures ViewsAt(l, id, p, l[id].visual) == ViewsAt(k, id, p, k[id].visual)
      ensures ViewsAt(l, id, l[id].pos, l[id].visual) == ViewsAt(k, id, k[id].pos, k[id].visual)
    {
      hide Range;
      hide ViewsAt;
      SamePair(l, k, id, id);
      SameViews(l, k, id, p, l[id].visual);
      SameViews(l, k, id, l[id].pos, l[id].visual);
      SameRange(l, k, id, lo, hi);
    }

    static lemma ShortExact(k: Entities, id: Id, p: Pos, lo: int, hi: int)
      requires id in k
      requires ListsOk(k, id, Between(ViewsAt(k, id, p, k[id].visual), ViewsAt(k, id, k[id].pos, k[id].visual), Range(k, id, lo, hi)))
      ensures var v, w, done := ViewsAt(k, id, p, k[id].visual), ViewsAt(k, id, k[id].pos, k[id].visual), Range(k, id, lo, hi);
              Exact(k) <==> NoneMissed(k, id, v, w, done, done)
    {
      var v, done := ViewsAt(k, id, p, k[id].visual), Range(k, id, lo, hi);
      hide ListsOk;
      hide Exact;
      hide NoneMissed;
      TurnedExactly(k, id, v, done, done);
    }

    /** The list and the register are as they should be after a move. */
    lemma Housed(m: Entities, l: Entities, id: Id)
      requires id in m && id in l && l == m[id := m[id].(pos := l[id].pos)] && SameButLists(l, ctxs) && Counted(visuals, l)
      requires Spaced() && Holds(list, indexer, l, {}) && Sorted(list, indexer, l) && list != [] && list[0] == Index(0)
      requires forall o | o in l :: o != 0 && l[o].pos.x >= 0
      ensures Placed(m, id, l[id].pos)
    {
      ListsDoNotOrder(list, indexer, l, ctxs, id, 0, Key(0, true));
      SamePair(l, ctxs, id, id);
      SameUsers(visuals, l, ctxs);
    }

    /** With a bound, a short move misses nobody. */
    static lemma ShortInBounds(k: Entities, id: Id, p: Pos, max: int, c: Changes)
      requires id in k && ShortDone(k, id, p, max, c) && BoundedBy(k, max)
      ensures Exact(k) && Told(k, id, ViewsAt(k, id, p, k[id].visual), ViewsAt(k, id, k[id].pos, k[id].visual), k.Keys - {id}, c)
    {
      var lo, hi := Least(p.x, k[id].pos.x) - max, Greatest(p.x, k[id].pos.x) + max;
      var v, w := ViewsAt(k, id, p, k[id].visual), ViewsAt(k, id, k[id].pos, k[id].visual);
      var done := Range(k, id, lo, hi);
      hide Told;
      hide Exact;
      InReach(k, id, p, k[id].visual, max, lo, hi);
      InReach(k, id, k[id].pos, k[id].visual, max, lo, hi);
      assert Caught(k, id, v, w, done);
      ToldAll(k, id, v, w, done, k.Keys - {id}, c);
    }

    /** What has been done to the lists and told, told of the scene before the move. */
    lemma MoveSettled(m: Entities, id: Id, pos: Pos, c: Changes)
      requires Placed(m, id, pos) && Exact(ctxs)
      requires Told(ctxs, id, ViewsAt(ctxs, id, m[id].pos, ctxs[id].visual), ViewsAt(ctxs, id, ctxs[id].pos, ctxs[id].visual), ctxs.Keys - {id}, c)
      ensures Moved(m, id, pos, c)
    {
      var l := m[id := m[id].(pos := pos)];
      SamePair(l, ctxs, id, id);
      SameOthers(m, l, id, m[id].pos, m[id].visual);
      SameOthers(m, l, id, pos, m[id].visual);
      SameViews(l, ctxs, id, m[id].pos, m[id].visual);
      SameViews(l, ctxs, id, pos, m[id].visual);
      assert ctxs.Keys == m.Keys;
    }

    /** Whether two places are more than one index node apart. */
    predicate ByIndex(oldX: int, newX: int)
      requires index > 0
      reads this`index
    {
      newX / index - oldX / index > 1 || oldX / index - newX / index > 1
    }

    /** Whether a move leads out of sight of where it began. */
    predicate Far(oldX: int, newX: int)
      reads this`maxVisual
    {
      newX - oldX > 2 * maxVisual || oldX - newX > 2 * maxVisual
    }

    /** The node of an entity that has moved far is taken to its new place: by way of the index if that is more
        than one index node away. */
    method Relocate(id: Id, oldX: int)
      requires Spaced() && Listing({}) && id in ctxs && SortedBut(list, indexer, ctxs, id) && oldX >= 0
      requires FitsAt(list, indexer, ctxs, Find(list, Ent(id)), Key(oldX, true))
      requires ByIndex(oldX, ctxs[id].pos.x) ==> InScene(ctxs[id].pos.x)
      modifies this`list
      ensures Listing({}) && Sorted(list, indexer, ctxs)
    {
      if ByIndex(oldX, ctxs[id].pos.x) {
        assert Belongs(indexer, ctxs, {}, Ent(id));
        FindIt(list, Ent(id));
        var k := Find(list, Ent(id));
        Removed(list, indexer, ctxs, id, k);
        list := RemoveAt(list, k);
        InsertEntity(id);
      } else {
        ShiftEntity(id, oldX);
      }
    }

    /** No interested entity sees further than the bound. */
    static ghost predicate BoundedBy(m: Entities, max: int) {
      forall o | o in m && Interested(m[o]) && m[o].visual > 0 :: m[o].visual <= max
    }

    lemma CountedInBounds(m: Entities)
      requires Counted(visuals, m) && Bounds(visuals, maxVisual)
      ensures BoundedBy(m, maxVisual)
    {
      forall o | o in m && Interested(m[o]) && m[o].visual > 0
        ensures m[o].visual <= maxVisual
      {
        UsersBounded(visuals, m, maxVisual, o);
      }
    }

    /** The first half of a long move: out of everybody's view and everybody out of view, within the maximum. */
    method LeaveOld(id: Id, oldPos: Pos) returns (c: Changes)
      requires Listing({}) && id in ctxs && SortedBut(list, indexer, ctxs, id)
      requires FitsAt(list, indexer, ctxs, Find(list, Ent(id)), Key(oldPos.x, true))
      requires ListsOk(ctxs, id, ViewsAt(ctxs, id, oldPos, ctxs[id].visual))
      modifies this`ctxs
      ensures SameButLists(old(ctxs), ctxs)
      ensures var l, none := old(ctxs), Views({}, {});
              var v, left := ViewsAt(l, id, oldPos, l[id].visual), Range(l, id, oldPos.x - maxVisual, oldPos.x + maxVisual);
              ListsOk(ctxs, id, Between(v, none, left)) && Told(l, id, v, none, left, c)
      ensures Listing({}) && SortedBut(list, indexer, ctxs, id)
      ensures FitsAt(list, indexer, ctxs, Find(list, Ent(id)), Key(oldPos.x, true))
    {
      hide SortedBut;
      hide FitsAt;
      hide ListsOk;
      hide Told;
      ghost var l, none := ctxs, Views({}, {});
      ghost var v := ViewsAt(l, id, oldPos, l[id].visual);
      var visited := EachRange(id, oldPos.x - maxVisual, oldPos.x + maxVisual, oldPos.x);
      ToldNothing(l, id, v, none);
      c := ChangeAll(id, visited, There(oldPos), Nowhere, NO_CHANGES);
      ListsDoNotOrder(list, indexer, l, ctxs, id, Find(list, Ent(id)), Key(oldPos.x, true));
    }

    /** The second half: into everybody's view and everybody into view, within the maximum. */
    method EnterNew(id: Id, ghost u: Views) returns (c: Changes)
      requires Listing({}) && id in ctxs && Sorted(list, indexer, ctxs) && ListsOk(ctxs, id, u)
      modifies this`ctxs
      ensures SameButLists(old(ctxs), ctxs) && id in ctxs && Listing({}) && Sorted(list, indexer, ctxs)
      ensures var l := old(ctxs);
              var w, entered := ViewsAt(l, id, l[id].pos, l[id].visual), Range(l, id, l[id].pos.x - maxVisual, l[id].pos.x + maxVisual);
              Entered(ctxs, id, u, w, entered) && Told(l, id, Views({}, {}), w, entered, c)
    {
      hide Sorted;
      hide ListsOk;
      hide Told;
      hide Entered;
      ghost var l := ctxs;
      var pos := ctxs[id].pos;
      SortedFits(list, indexer, ctxs, id);
      var visited := EachRange(id, pos.x - maxVisual, pos.x + maxVisual, pos.x);
      c := EnterSight(id, visited, u);
      ListsDoNotOrder(list, indexer, l, ctxs, id, 0, Key(0, true));
    }

    /** The views do not overlap: first out of the old one, then into the new one. */
    method UpdateEntityLong(id: Id, ghost m: Entities, oldPos: Pos) returns (c: Changes)
      requires Moving(m, id) && oldPos == m[id].pos && Far(oldPos.x, ctxs[id].pos.x)
      requires ByIndex(oldPos.x, ctxs[id].pos.x) ==> InScene(ctxs[id].pos.x)
      modifies this`ctxs, this`list
      ensures Placed(m, id, old(ctxs[id].pos)) && LongDone(ctxs, id, oldPos, maxVisual, c)
    {
      ghost var l := ctxs;
      MoveStarts(m, id);
      StillCounted(m, id);
      hide Moving;
      hide Placed;
      hide LongDone;
      hide Counted;
      hide ListsOk;
      c := LeaveAndEnter(id, oldPos);
      HousedAgain(m, l, id);
    }

    method LeaveAndEnter(id: Id, oldPos: Pos) returns (c: Changes)
      requires Spaced() && Listing({}) && id in ctxs && SortedBut(list, indexer, ctxs, id) && oldPos.x >= 0
      requires FitsAt(list, indexer, ctxs, Find(list, Ent(id)), Key(oldPos.x, true))
      requires ListsOk(ctxs, id, ViewsAt(ctxs, id, oldPos, ctxs[id].visual))
      requires ByIndex(oldPos.x, ctxs[id].pos.x) ==> InScene(ctxs[id].pos.x)
      modifies this`ctxs, this`list
      ensures id in ctxs && SameButLists(old(ctxs), ctxs) && LongDone(ctxs, id, oldPos, maxVisual, c)
      ensures Listing({}) && Sorted(list, indexer, ctxs)
    {
      hide SortedBut;
      hide FitsAt;
      hide ListsOk;
      hide Told;
      hide Holds;
      hide Sorted;
      hide Entered;
      hide LongDone;
      ghost var l, none := ctxs, Views({}, {});
      ghost var v := ViewsAt(l, id, oldPos, l[id].visual);
      ghost var left := Range(l, id, oldPos.x - maxVisual, oldPos.x + maxVisual);
      var c1 := LeaveOld(id, oldPos);
      ghost var l1 := ctxs;
      SamePair(l, l1, id, id);
      Relocate(id, oldPos.x);
      var c2 := EnterNew(id, Between(v, none, left));
      SameTrans(l, l1, ctxs);
      // The first pass has reported nobody in, the second nobody out.
      c := Changes(c2.meIn, c2.otherIn, c1.meOut, c1.otherOut);
      assert Halves(l, l1, ctxs, id, oldPos, maxVisual, c1, c2);
      LongOutcome(l, l1, ctxs, id, oldPos, maxVisual, c1, c2);
    }

    lemma StillCounted(m: Entities, id: Id)
      requires Moving(m, id)
      ensures Counted(visuals, ctxs) && Spaced() && Listing({}) && m[id].pos.x >= 0
      ensures id in m && id in ctxs && ctxs == m[id := m[id].(pos := ctxs[id].pos)]
    {
    }

    lemma HousedAgain(m: Entities, l: Entities, id: Id)
      requires id in m && id in l && l == m[id := m[id].(pos := l[id].pos)] && SameButLists(l, ctxs) && Counted(visuals, l)
      requires Spaced() && Listing({}) && Sorted(list, indexer, ctxs)
      ensures Placed(m, id, l[id].pos)
    {
      SamePair(l, ctxs, id, id);
      SameUsers(visuals, l, ctxs);
    }

    /** What both halves of a long move have done: from l to l1 the first, from l1 to k the second. */
    static ghost predicate Halves(l: Entities, l1: Entities, k: Entities, id: Id, p: Pos, max: int, c1: Changes, c2: Changes) {
      && id in l && id in l1 && id in k
      && var none, v, left := Views({}, {}), ViewsAt(l, id, p, l[id].visual), Range(l, id, p.x - max, p.x + max);
         var w, entered := ViewsAt(l1, id, l1[id].pos, l1[id].visual), Range(l1, id, l1[id].pos.x - max, l1[id].pos.x + max);
         && Told(l, id, v, none, left, c1) && Told(l1, id, none, w, entered, c2)
         && Entered(k, id, Between(v, none, left), w, entered)
    }

    static lemma LongOutcome(l: Entities, l1: Entities, k: Entities, id: Id, p: Pos, max: int, c1: Changes, c2: Changes)
      requires SameButLists(l, l1) && SameButLists(l1, k) && SameButLists(l, k) && Halves(l, l1, k, id, p, max, c1, c2)
      ensures id in k && LongDone(k, id, p, max, Changes(c2.meIn, c2.otherIn, c1.meOut, c1.otherOut))
    {
      hide Told;
      hide Entered;
      hide Exact;
      hide MadeUp;
      hide Range;
      hide ViewsAt;
      hide Between;
      SightSame(l, k, id, p, p.x - max, p.x + max);
      SightSame(l1, k, id, p, l1[id].pos.x - max, l1[id].pos.x + max);
      LongTold(l, l1, k, id, ViewsAt(k, id, p, k[id].visual), ViewsAt(k, id, k[id].pos, k[id].visual),
               Range(k, id, p.x - max, p.x + max), Range(k, id, k[id].pos.x - max, k[id].pos.x + max), c1, c2);
      hide SameButLists;
      LongExact(k, id, p, max);
    }

    static lemma LongExact(k: Entities, id: Id, p: Pos, max: int)
      requires id in k
      requires var none, v, left := Views({}, {}), ViewsAt(k, id, p, k[id].visual), Range(k, id, p.x - max, p.x + max);
               var w, entered := ViewsAt(k, id, k[id].pos, k[id].visual), Range(k, id, k[id].pos.x - max, k[id].pos.x + max);
               Entered(k, id, Between(v, none, left), w, entered)
      ensures var none, v, left := Views({}, {}), ViewsAt(k, id, p, k[id].visual), Range(k, id, p.x - max, p.x + max);
              var w, entered := ViewsAt(k, id, k[id].pos, k[id].visual), Range(k, id, k[id].pos.x - max, k[id].pos.x + max);
              Exact(k) <==> MadeUp(k, id, Between(v, none, left), w, entered)
    {
      var left := Range(k, id, p.x - max, p.x + max);
      LeftOverIn(k, id, p, k[id].visual, left, k[id].pos.x - max, k[id].pos.x + max);
      hide Entered;
      hide Exact;
      hide MadeUp;
      EnteredExactly(k, id, Between(ViewsAt(k, id, p, k[id].visual), Views({}, {}), left), Range(k, id, k[id].pos.x - max, k[id].pos.x + max));
    }

    static lemma LongTold(l: Entities, l1: Entities, k: Entities, id: Id, v: Views, w: Views, left: set<Id>, entered: set<Id>,
                          c1: Changes, c2: Changes)
      requires id in l && id in l1 && id in k && SameButLists(l1, k) && SameButLists(l, k)
      requires Told(l, id, v, Views({}, {}), left, c1) && Told(l1, id, Views({}, {}), w, entered, c2)
      ensures Told(k, id, v, Views({}, {}), left, Changes([], [], c1.meOut, c1.otherOut))
      ensures Told(k, id, Views({}, {}), w, entered, Changes(c2.meIn, c2.otherIn, [], []))
    {
      hide Told;
      ToldKept(l, k, id, v, Views({}, {}), left, c1);
      ToldKept(l1, k, id, Views({}, {}), w, entered, c2);
      HalvesTold(k, id, v, w, left, entered, c1, c2);
    }

    static lemma LeftOverIn(k: Entities, id: Id, p: Pos, visual: int, left: set<Id>, lo: int, hi: int)
      ensures var u := Between(ViewsAt(k, id, p, visual), Views({}, {}), left);
              u.mine <= k.Keys - {id} && u.theirs <= k.Keys - {id} && Range(k, id, lo, hi) <= k.Keys - {id}
    {
    }

    /** With a bound, a long move leaves and enters all views. */
    static lemma LongInBounds(k: Entities, id: Id, p: Pos, max: int, c: Changes)
      requires id in k && LongDone(k, id, p, max, c) && BoundedBy(k, max) && !(-2 * max <= k[id].pos.x - p.x <= 2 * max)
      ensures Exact(k) && Told(k, id, ViewsAt(k, id, p, k[id].visual), ViewsAt(k, id, k[id].pos, k[id].visual), k.Keys - {id}, c)
    {
      var q, visual, all := k[id].pos, k[id].visual, k.Keys - {id};
      var none, v, w := Views({}, {}), ViewsAt(k, id, p, visual), ViewsAt(k, id, q, visual);
      var left, entered := Range(k, id, p.x - max, p.x + max), Range(k, id, q.x - max, q.x + max);
      hide Told;
      hide Exact;
      AllCaught(k, id, p, max);
      FarApart(k, id, p, q, visual, max);
      ToldAll(k, id, v, none, left, all, Changes([], [], c.meOut, c.otherOut));
      ToldAll(k, id, none, w, entered, all, Changes(c.meIn, c.otherIn, [], []));
      ToldTwice(k, id, v, w, all, Changes([], [], c.meOut, c.otherOut), Changes(c.meIn, c.otherIn, [], []));
    }

    static lemma AllCaught(k: Entities, id: Id, p: Pos, max: int)
      requires id in k && BoundedBy(k, max)
      ensures var none, v, w := Views({}, {}), ViewsAt(k, id, p, k[id].visual), ViewsAt(k, id, k[id].pos, k[id].visual);
              var left, entered := Range(k, id, p.x - max, p.x + max), Range(k, id, k[id].pos.x - max, k[id].pos.x + max);
              && Caught(k, id, v, none, left) && Caught(k, id, none, w, entered)
              && MadeUp(k, id, Between(v, none, left), w, entered)
    {
      InReach(k, id, p, k[id].visual, max, p.x - max, p.x + max);
      InReach(k, id, k[id].pos, k[id].visual, max, k[id].pos.x - max, k[id].pos.x + max);
    }

    /** Moves an entity, and tells who comes into and goes out of its view, and into and out of whose view it
        comes and goes, as far as those who see are interested and the maximum reaches. While that is a bound, nothing is
        missed. */
    method UpdateEntity(id: Id, x: int, y: int, z: int) returns (ret: int, c: Changes)
      requires Valid() && x >= 0
      requires id in ctxs && Far(ctxs[id].pos.x, x) && ByIndex(ctxs[id].pos.x, x) ==> InScene(x)
      modifies this`ctxs, this`list
      ensures ret == if id in old(ctxs) then 0 else -1
      ensures ret == -1 ==> Valid() && unchanged(this) && c == NO_CHANGES
      ensures ret == 0 ==> MovedAnyhow(old(ctxs), id, Pos(x, y, z), c)
      ensures ret == 0 && Bounds(visuals, maxVisual) ==> Moved(old(ctxs), id, Pos(x, y, z), c)
    {
      if id !in ctxs {
        return -1, NO_CHANGES;
      }
      ghost var m := ctxs;
      var oldPos := ctxs[id].pos;
      ctxs := ctxs[id := ctxs[id].(pos := Pos(x, y, z))];
      MoveBegun(m, id);
      hide Valid;
      hide Moving;
      hide LongDone;
      hide ShortDone;
      hide Moved;
      hide Bounds;
      if Far(oldPos.x, x) {
        c := UpdateEntityLong(id, m, oldPos);
      } else {
        c := UpdateEntityShort(id, m, oldPos);
      }
      InBounds(m, id, Pos(x, y, z), c);
      ret := 0;
    }

    lemma InBounds(m: Entities, id: Id, pos: Pos, c: Changes)
      requires MovedAnyhow(m, id, pos, c)
      ensures Bounds(visuals, maxVisual) ==> Moved(m, id, pos, c)
    {
      hide LongDone;
      hide ShortDone;
      hide Moved;
      hide Exact;
      hide Told;
      hide Sorted;
      if Bounds(visuals, maxVisual) {
        CountedInBounds(ctxs);
        if Far(m[id].pos.x, pos.x) {
          LongInBounds(ctxs, id, m[id].pos, maxVisual, c);
        } else {
          ShortInBounds(ctxs, id, m[id].pos, maxVisual, c);
        }
        MoveSettled(m, id, pos, c);
      }
    }

    lemma MoveBegun(m: Entities, id: Id)
      requires id in m && id in ctxs && ctxs == m[id := m[id].(pos := ctxs[id].pos)] && ctxs[id].pos.x >= 0
      requires Spaced() && Holds(list, indexer, m, {}) && Sorted(list, indexer, m) && list != [] && list[0] == Index(0)
      requires (forall o | o in m :: o != 0 && m[o].pos.x >= 0) && Counted(visuals, m) && Exact(m)
      ensures Moving(m, id)
    {
      assert Belongs(indexer, m, {}, Ent(id));
      FindIt(list, Ent(id));
      Displaced(list, indexer, m, ctxs, id, Find(list, Ent(id)));
      SameUsers(visuals, m, ctxs);
    }

    /** Watcher b gets a into view if it sees it. */
    method OnEnterRange(b: Id, a: Id, listIn: seq<Id>, me: bool, ghost id: Id, ghost v: Views) returns (listIn': seq<Id>)
      requires ListsOk(ctxs, id, v) && Pair(ctxs, id, b, a) && !Has(v, id, b, a)
      modifies this`ctxs
      ensures SameButLists(old(ctxs), ctxs)
      ensures var sees := Sees(ctxs[b].visual, ctxs[b].pos, ctxs[a].pos);
              ListsOk(ctxs, id, Put(v, id, b, a, sees)) && listIn' == AppendIf(listIn, if me then a else b, sees)
    {
      hide ListsOk;
      listIn' := listIn;
      ghost var m := ctxs;
      AllSame(m);
      if Sees(ctxs[b].visual, ctxs[b].pos, ctxs[a].pos) {
        if Interested(ctxs[b]) {
          ctxs := ctxs[a := ctxs[a].(interestMe := ctxs[a].interestMe + [b])];
        }
        AddWatch(m, ctxs, id, v, b, a);
        listIn' := listIn' + [if me then a else b];
      } else {
        PutFree(ctxs, id, v, b, a, false);
      }
    }

    /** A newcomer and all those met get each other into view. */
    method EnterAll(id: Id, visited: seq<Id>) returns (meIn: seq<Id>, otherIn: seq<Id>)
      requires id in ctxs && NoDup(visited) && Members(visited) <= ctxs.Keys - {id} && ListsOk(ctxs, id, Views({}, {}))
      modifies this`ctxs
      ensures SameButLists(old(ctxs), ctxs)
      ensures var w := ViewsAt(old(ctxs), id, ctxs[id].pos, ctxs[id].visual);
              && ListsOk(ctxs, id, Between(Views({}, {}), w, Members(visited)))
              && Lists(meIn, w.theirs * Members(visited)) && Lists(otherIn, w.mine * Members(visited))
    {
      hide ListsOk;
      hide SameButLists;
      hide Lists;
      ghost var m := ctxs;
      ghost var none, w := Views({}, {}), ViewsAt(m, id, m[id].pos, m[id].visual);
      meIn, otherIn := [], [];
      AllSame(m);
      BetweenEnds(none, w, {});
      NothingListed(w);
      var i := 0;
      while i < |visited|
        invariant i <= |visited| && SameButLists(m, ctxs) && id in ctxs && ctxs[id].visual == m[id].visual && ctxs[id].pos == m[id].pos
        invariant ListsOk(ctxs, id, Between(none, w, Members(visited[..i])))
        invariant Lists(meIn, w.theirs * Members(visited[..i])) && Lists(otherIn, w.mine * Members(visited[..i]))
      {
        var o := visited[i];
        assert o in Members(visited);
        OneMore(visited, i);
        ghost var done, l := Members(visited[..i]), ctxs;
        ghost var u := Between(none, w, done);
        BetweenStep(none, w, done, id, o);
        SamePair(m, l, id, o);
        SameViews(m, l, id, m[id].pos, m[id].visual);
        ListsStep(meIn, w.theirs * done, w.theirs * (done + {o}), o, o in w.theirs);
        ListsStep(otherIn, w.mine * done, w.mine * (done + {o}), o, o in w.mine);
        meIn := OnEnterRange(id, o, meIn, true, id, u);
        ghost var l' := ctxs;
        SamePair(l, l', id, o);
        otherIn := OnEnterRange(o, id, otherIn, false, id, Put(u, id, id, o, o in w.theirs));
        SamePair(l', ctxs, id, o);
        SameTrans(l, l', ctxs);
        SameTrans(m, l, ctxs);
        i := i + 1;
      }
      assert visited[..i] == visited;
    }

    lemma NothingListed(w: Views)
      ensures Members([]) == {} && Lists([], w.theirs * {}) && Lists([], w.mine * {})
    {
      assert w.theirs * {} == {} && w.mine * {} == {};
    }

    /** What a newcomer's entry is to bring about, whether or not the bound is one. The lists are exact afterwards if
        and only if all who matter were within the bound. */
    ghost predicate Came(m: Entities, id: Id, e: Entity, meIn: seq<Id>, otherIn: seq<Id>)
      requires id in ctxs
      reads this
    {
      && ctxs.Keys == m.Keys + {id} && SameButLists(m, ctxs - {id}) && ctxs[id] == e.(interestMe := ctxs[id].interestMe)
      && Spaced() && Listing({}) && Sorted(list, indexer, ctxs) && Counted(visuals, ctxs)
      && var w := ViewsAt(ctxs, id, e.pos, e.visual);
         var reach := Range(ctxs, id, e.pos.x - maxVisual, e.pos.x + maxVisual);
         && Lists(meIn, w.theirs * reach) && Lists(otherIn, w.mine * reach)
         && (Exact(ctxs) <==> Caught(ctxs, id, Views({}, {}), w, reach))
    }

    /** If the bound is one, the entry keeps the lists exact and misses nobody who is interested. */
    lemma CameInBounds(m: Entities, id: Id, e: Entity, meIn: seq<Id>, otherIn: seq<Id>)
      requires id in ctxs && Came(m, id, e, meIn, otherIn) && Bounds(visuals, maxVisual)
      ensures Valid()
      ensures Interested(e) ==> Lists(meIn, Seen(ctxs, id, e.pos, e.visual))
      ensures Keen(ctxs, Members(otherIn)) == Keen(ctxs, Watchers(ctxs, id, e.pos))
    {
      var none, w := Views({}, {}), ViewsAt(ctxs, id, e.pos, e.visual);
      var reach := Range(ctxs, id, e.pos.x - maxVisual, e.pos.x + maxVisual);
      forall o | o in ctxs && Interested(ctxs[o]) && ctxs[o].visual > 0
        ensures ctxs[o].visual <= maxVisual
      {
        UsersBounded(visuals, ctxs, maxVisual, o);
      }
      InReach(ctxs, id, e.pos, e.visual, maxVisual, e.pos.x - maxVisual, e.pos.x + maxVisual);
      assert Caught(ctxs, id, none, w, reach);
      KeenSame(ctxs, w.mine * reach, w.mine);
      if Interested(e) {
        assert w.theirs * reach == w.theirs;
      }
    }

    /** Brings a new entity in, and tells whom it sees and who sees it. */
    method EnterEntity(id: Id, pos: Pos, visual: int, mask: bv8) returns (ok: bool, meIn: seq<Id>, otherIn: seq<Id>)
      requires Valid() && id != 0 && InScene(pos.x)
      modifies this`ctxs, this`list, this`visuals, this`maxVisual
      ensures ok == (id !in old(ctxs))
      ensures !ok ==> meIn == otherIn == [] && unchanged(this)
      ensures ok ==> if visual == 0 || mask & 1 == 0 then visuals == old(visuals) && maxVisual == old(maxVisual)
                     else
                       && Recounted(old(visuals), visuals, visual, 1)
                       && maxVisual == if Registered(old(visuals), visual) || visual <= old(maxVisual) then old(maxVisual) else visual
      ensures ok ==> id in ctxs && Came(old(ctxs), id, Entity(mask, pos, visual, []), meIn, otherIn)
      ensures ok ==> forall o :: o in meIn <==>
                                   && o in old(ctxs) && -maxVisual <= old(ctxs)[o].pos.x - pos.x <= maxVisual
                                   && Around(true, visual, pos, old(ctxs)[o].pos)
      ensures ok ==> forall o :: o in otherIn <==>
                                   && o in old(ctxs) && -maxVisual <= old(ctxs)[o].pos.x - pos.x <= maxVisual
                                   && Around(true, old(ctxs)[o].visual, old(ctxs)[o].pos, pos)
      ensures Bounds(old(visuals), old(maxVisual)) ==> Valid() && Bounds(visuals, maxVisual)
    {
      if id in ctxs {
        return false, [], [];
      }
      hide Sorted;
      hide Holds;
      hide Bounds;
      hide Exact;
      hide Came;
      ghost var m := ctxs;
      var e := Entity(mask, pos, visual, []);
      Newcomer(ctxs, id, e);
      NotListed(list, indexer, m, m[id := e], id, {});
      ctxs := ctxs[id := e];
      if visual != 0 && Interested(ctxs[id]) {
        AddVisual(visual);
      }
      UserComes(old(visuals), visuals, m, id, e);
      OneBit(mask);
      hide Interested;
      hide Recounted;
      hide Registered;
      meIn, otherIn := Introduce(id, m);
      CamePlainly(m, id, e, meIn, otherIn);
      if Bounds(visuals, maxVisual) {
        CameInBounds(m, id, e, meIn, otherIn);
      }
      ok := true;
    }

    /** Whom a newcomer is told of, and who is told of it. */
    lemma CamePlainly(m: Entities, id: Id, e: Entity, meIn: seq<Id>, otherIn: seq<Id>)
      requires id !in m && id in ctxs && Came(m, id, e, meIn, otherIn)
      ensures forall o :: o in meIn <==>
                            o in m && -maxVisual <= m[o].pos.x - e.pos.x <= maxVisual && Around(true, e.visual, e.pos, m[o].pos)
      ensures forall o :: o in otherIn <==>
                            o in m && -maxVisual <= m[o].pos.x - e.pos.x <= maxVisual && Around(true, m[o].visual, m[o].pos, e.pos)
    {
      forall o
        ensures o in meIn <==> o in Members(meIn)
        ensures o in otherIn <==> o in Members(otherIn)
        ensures o in ctxs && o != id <==> o in m
        ensures o in m ==> (ctxs - {id})[o] == ctxs[o] && ctxs[o].pos == m[o].pos && ctxs[o].visual == m[o].visual
      {
      }
    }

    /** The part of an entry that is about the list and views. */
    method Introduce(id: Id, ghost m: Entities) returns (meIn: seq<Id>, otherIn: seq<Id>)
      requires Spaced() && Listing({id}) && Sorted(list, indexer, ctxs) && Counted(visuals, ctxs) && id in ctxs
      requires id !in m && ctxs == m[id := ctxs[id]] && ListsOk(ctxs, id, Views({}, {})) && InScene(ctxs[id].pos.x)
      modifies this`ctxs, this`list
      ensures id in ctxs && Came(m, id, old(ctxs[id]), meIn, otherIn)
    {
      hide Sorted;
      hide Holds;
      hide Counted;
      hide ListsOk;
      hide SameButLists;
      hide Lists;
      hide Came;
      ghost var l := ctxs;
      InsertEntity(id);
      SortedFits(list, indexer, l, id);
      var pos := ctxs[id].pos;
      var visited := EachRange(id, pos.x - maxVisual, pos.x + maxVisual, pos.x);
      meIn, otherIn := EnterAll(id, visited);
      SamePair(l, ctxs, id, id);
      EnterEnds(m, l, id, visited, meIn, otherIn);
    }

    lemma EnterEnds(m: Entities, l: Entities, id: Id, visited: seq<Id>, meIn: seq<Id>, otherIn: seq<Id>)
      requires SameButLists(l, ctxs) && id in l && id !in m && l == m[id := l[id]] && Spaced() && Counted(visuals, l)
      requires Sorted(list, indexer, l) && Holds(list, indexer, l, {}) && list != [] && list[0] == Index(0)
      requires forall o | o in l :: o != 0 && l[o].pos.x >= 0
      requires Members(visited) == Range(l, id, l[id].pos.x - maxVisual, l[id].pos.x + maxVisual)
      requires var w := ViewsAt(l, id, l[id].pos, l[id].visual);
               && ListsOk(ctxs, id, Between(Views({}, {}), w, Members(visited)))
               && Lists(meIn, w.theirs * Members(visited)) && Lists(otherIn, w.mine * Members(visited))
      ensures id in ctxs && Came(m, id, l[id], meIn, otherIn)
    {
      hide Between;
      hide Exact;
      hide ListsOk;
      hide Lists;
      SamePair(l, ctxs, id, id);
      SameViews(l, ctxs, id, l[id].pos, l[id].visual);
      SameRange(l, ctxs, id, l[id].pos.x - maxVisual, l[id].pos.x + maxVisual);
      ListsDoNotOrder(list, indexer, l, ctxs, id, 0, Key(0, true));
      SameUsers(visuals, l, ctxs);
      CaughtExactly(ctxs, id, Members(visited));
      NewcomerSame(m, id, l[id], ctxs);
      hide Sorted;
      hide Holds;
      hide Counted;
      hide Caught;
    }

    static lemma SameRange(m: Entities, m': Entities, id: Id, lo: int, hi: int)
      requires SameButLists(m, m')
      ensures Range(m, id, lo, hi) == Range(m', id, lo, hi)
    {
      forall o | o in m
        ensures m[o].pos == m'[o].pos
      {
      }
    }

    /** Watcher b loses a, if it sees it. */
    method OnExitRange(b: Id, a: Id, ghost id: Id, ghost v: Views)
      requires ListsOk(ctxs, id, v) && Pair(ctxs, id, b, a)
      requires Has(v, id, b, a) ==> Sees(ctxs[b].visual, ctxs[b].pos, ctxs[a].pos)
      modifies this`ctxs
      ensures SameButLists(old(ctxs), ctxs) && ListsOk(ctxs, id, Put(v, id, b, a, false))
      ensures ctxs[b] == old(ctxs)[b]
    {
      hide ListsOk;
      ghost var m := ctxs;
      AllSame(m);
      if Sees(ctxs[b].visual, ctxs[b].pos, ctxs[a].pos) {
        if Interested(ctxs[b]) {
          var list, found := RemoveEntityFromVector(ctxs[a].interestMe, b);
          ctxs := ctxs[a := ctxs[a].(interestMe := list)];
        }
        DropWatch(m, ctxs, id, v, b, a);
      } else {
        PutFree(ctxs, id, v, b, a, false);
      }
    }

    /** An entity that is leaving loses all those met. */
    method ExitAll(id: Id, visited: seq<Id>, ghost v: Views)
      requires id in ctxs && NoDup(visited) && Members(visited) <= ctxs.Keys - {id} && ListsOk(ctxs, id, v)
      requires v.theirs == Seen(ctxs, id, ctxs[id].pos, ctxs[id].visual)
      modifies this`ctxs
      ensures SameButLists(old(ctxs), ctxs) && ListsOk(ctxs, id, v.(theirs := v.theirs - Members(visited)))
      ensures id in ctxs && ctxs[id] == old(ctxs[id])
    {
      hide ListsOk;
      hide SameButLists;
      ghost var m, w := ctxs, v.(theirs := {});
      AllSame(m);
      BetweenEnds(v, w, {});
      assert Members([]) == {};
      var i := 0;
      while i < |visited|
        invariant i <= |visited| && SameButLists(m, ctxs) && id in ctxs && ctxs[id] == m[id]
        invariant ListsOk(ctxs, id, Between(v, w, Members(visited[..i])))
      {
        var o := visited[i];
        assert o in Members(visited);
        OneMore(visited, i);
        ghost var done, l := Members(visited[..i]), ctxs;
        TheirsStep(v, w, done, id, o);
        SamePair(m, l, id, o);
        OnExitRange(id, o, id, Between(v, w, done));
        SamePair(l, ctxs, id, o);
        SameTrans(m, l, ctxs);
        i := i + 1;
      }
      assert visited[..i] == visited;
      assert Between(v, w, Members(visited)) == v.(theirs := v.theirs - Members(visited));
    }

    /** Takes an entity out, and tells who was interested in it. */
    method ExitEntity(id: Id) returns (ret: int, interested: seq<Id>)
      requires Valid()
      modifies this`ctxs, this`list
      ensures Valid() && ret == if id in old(ctxs) then 0 else 1
      ensures ret == 1 ==> unchanged(this) && interested == []
      ensures ret == 0 ==> SameButLists(old(ctxs) - {id}, ctxs) && interested == old(ctxs[id].interestMe)
    {
      if id !in ctxs {
        return 1, [];
      }
      hide Sorted;
      hide SortedBut;
      hide FitsAt;
      hide Holds;
      hide Counted;
      hide Exact;
      hide ListsOk;
      hide SameButLists;
      ghost var m := ctxs;
      ghost var v := ViewsAt(m, id, m[id].pos, m[id].visual);
      var e := ctxs[id];
      ExactIsListsOk(m, id);
      AllSame(m);
      SortedFits(list, indexer, m, id);
      if e.visual > 0 && Interested(e) {
        var visited := EachRange(id, e.pos.x - e.visual, e.pos.x + e.visual, e.pos.x);
        ExitAll(id, visited, v);
        v := v.(theirs := v.theirs - Members(visited));
        InSight(m, id, e, Members(visited));
      }
      NoSight(m, id, e.pos, e.visual);
      interested := ctxs[id].interestMe;
      Leaving(m, id);
      list := RemoveAt(list, Find(list, Ent(id)));
      Gone(ctxs, id, v);
      ctxs := ctxs - {id};
      ret := 0;
    }

    lemma InSight(m: Entities, id: Id, e: Entity, met: set<Id>)
      requires Range(m, id, e.pos.x - e.visual, e.pos.x + e.visual) <= met
      ensures Seen(m, id, e.pos, e.visual) - met == {}
    {
    }

    lemma NoSight(m: Entities, id: Id, p: Pos, visual: int)
      ensures visual <= 0 ==> Seen(m, id, p, visual) == {}
    {
    }

    /** What is left in the list and of the counts when an entity has gone. */
    lemma Leaving(m: Entities, id: Id)
      requires id in m && SameButLists(m, ctxs) && Sorted(list, indexer, m) && Holds(list, indexer, m, {}) && Counted(visuals, m)
      requires list != [] && list[0] == Index(0)
      ensures id in ctxs && ctxs[id].mask == m[id].mask && Find(list, Ent(id)) < |list|
      ensures var t := RemoveAt(list, Find(list, Ent(id)));
              t != [] && t[0] == Index(0) && Holds(t, indexer, ctxs - {id}, {}) && Sorted(t, indexer, ctxs - {id})
      ensures Counted(visuals, ctxs - {id}) && SameButLists(m - {id}, ctxs - {id})
    {
      ListsDoNotOrder(list, indexer, m, ctxs, id, 0, Key(0, true));
      SameUsers(visuals, m, ctxs);
      LeftSame(m, ctxs, id);
      assert Belongs(indexer, ctxs, {}, Ent(id));
      FindIt(list, Ent(id));
      var k := Find(list, Ent(id));
      SortedFits(list, indexer, ctxs, id);
      Removed(list, indexer, ctxs, id, k);
      GoneFromList(RemoveAt(list, k), indexer, ctxs, id);
      UserGoes(visuals, ctxs, id);
    }

    /** Everybody met, as the range of one entity changes. */
    method ChangeSight(id: Id, visited: seq<Id>, oldVisual: int) returns (meIn: seq<Id>, meOut: seq<Id>)
      requires id in ctxs && NoDup(visited) && Members(visited) <= ctxs.Keys - {id} && Interested(ctxs[id])
      requires ListsOk(ctxs, id, ViewsAt(ctxs, id, ctxs[id].pos, oldVisual))
      modifies this`ctxs
      ensures SameButLists(old(ctxs), ctxs) && id in ctxs
      ensures var l, p := old(ctxs), old(ctxs[id].pos);
              var v, w := ViewsAt(l, id, p, oldVisual), ViewsAt(l, id, p, l[id].visual);
              && ListsOk(ctxs, id, Between(v, w, Members(visited)))
              && Lists(meIn, (w.theirs - v.theirs) * Members(visited)) && Lists(meOut, (v.theirs - w.theirs) * Members(visited))
    {
      hide ListsOk;
      hide SameButLists;
      hide Lists;
      ghost var m, p := ctxs, ctxs[id].pos;
      ghost var v, w := ViewsAt(m, id, p, oldVisual), ViewsAt(m, id, p, m[id].visual);
      meIn, meOut := [], [];
      AllSame(m);
      BetweenEnds(v, w, {});
      NoneListed(w.theirs - v.theirs, v.theirs - w.theirs);
      var i := 0;
      while i < |visited|
        invariant i <= |visited| && SameButLists(m, ctxs) && id in ctxs && ctxs[id].visual == m[id].visual && ctxs[id].pos == p
        invariant ctxs[id].mask == m[id].mask
        invariant ListsOk(ctxs, id, Between(v, w, Members(visited[..i])))
        invariant Lists(meIn, (w.theirs - v.theirs) * Members(visited[..i]))
        invariant Lists(meOut, (v.theirs - w.theirs) * Members(visited[..i]))
      {
        var o := visited[i];
        assert o in Members(visited);
        OneMore(visited, i);
        ghost var done, l := Members(visited[..i]), ctxs;
        TheirsStep(v, w, done, id, o);
        SamePair(m, l, id, o);
        var isInMe := Sees(ctxs[id].visual, ctxs[id].pos, ctxs[o].pos);
        var wasInMe := Sees(oldVisual, ctxs[id].pos, ctxs[o].pos);
        ListsStep(meIn, (w.theirs - v.theirs) * done, (w.theirs - v.theirs) * (done + {o}), o, isInMe && !wasInMe);
        ListsStep(meOut, (v.theirs - w.theirs) * done, (v.theirs - w.theirs) * (done + {o}), o, !isInMe && wasInMe);
        meIn, meOut := OnChangeRange(id, o, isInMe, wasInMe, meIn, meOut, true, id, Between(v, w, done), true);
        SamePair(l, ctxs, id, o);
        SameTrans(m, l, ctxs);
        i := i + 1;
      }
      assert visited[..i] == visited;
    }

    lemma NoneListed(a: set<Id>, b: set<Id>)
      ensures Members([]) == {} && Lists([], a * {}) && Lists([], b * {})
    {
      assert a * {} == {} && b * {} == {};
    }

    /** An entity's range in its record and in the register. */
    method Recount(id: Id, visual: int)
      requires Counted(visuals, ctxs) && id in ctxs && visual != ctxs[id].visual && Interested(ctxs[id])
      modifies this`ctxs, this`visuals, this`maxVisual
      ensures ctxs == old(ctxs)[id := old(ctxs)[id].(visual := visual)] && Counted(visuals, ctxs)
      ensures var v := old(ctxs)[id].visual;
              && maxVisual == MaxWith(old(visuals), v, visual, old(maxVisual))
              && (Bounds(visuals, maxVisual) <==> OthersBelow(old(visuals), v, maxVisual))
    {
      hide Count;
      hide Counted;
      hide Regular;
      hide Registered;
      hide MaxWithout;
      hide OthersBelow;
      hide Bounds;
      ghost var vs, max := visuals, maxVisual;
      var oldVisual := ctxs[id].visual;
      CountedIsRegular(vs, ctxs);
      if oldVisual != 0 {
        UserIsCounted(visuals, ctxs, id);
        ghost var i := DelVisual(oldVisual);
      } else {
        NothingGivenUp(vs, max);
      }
      ghost var vs' := visuals;
      ctxs := ctxs[id := ctxs[id].(visual := visual)];
      if visual != 0 {
        AddVisual(visual);
      }
      UserChanges(vs, vs', visuals, old(ctxs), ctxs, id, visual);
    }

    /** The part of a change of range that is about views. */
    method Resight(id: Id, oldVisual: int, ghost m: Entities) returns (meIn: seq<Id>, meOut: seq<Id>)
      requires Spaced() && Listing({}) && Sorted(list, indexer, m) && Holds(list, indexer, m, {}) && Counted(visuals, ctxs) && Exact(m)
      requires id in m && id in ctxs && ctxs == m[id := m[id].(visual := ctxs[id].visual)]
      requires Interested(m[id]) && oldVisual == m[id].visual
      modifies this`ctxs
      ensures Valid() && SameButLists(old(ctxs), ctxs)
      ensures var visual := old(ctxs[id].visual);
              && Lists(meIn, Seen(m, id, m[id].pos, visual) - Seen(m, id, m[id].pos, oldVisual))
              && Lists(meOut, Seen(m, id, m[id].pos, oldVisual) - Seen(m, id, m[id].pos, visual))
    {
      ghost var l, pos := ctxs, m[id].pos;
      var visual := ctxs[id].visual;
      ghost var v, w := ViewsAt(m, id, pos, oldVisual), ViewsAt(m, id, pos, visual);
      ExactIsListsOk(m, id);
      Elsewhere(m, id, v, pos, visual);
      SameOthers(m, l, id, pos, oldVisual);
      SameOthers(m, l, id, pos, visual);
      PlacesOrder(list, indexer, m, l);
      hide Sorted;
      hide SortedBut;
      hide FitsAt;
      hide Holds;
      hide ListsOk;
      hide Lists;
      hide Counted;
      hide Exact;
      SortedFits(list, indexer, l, id);
      var maxVisual := if oldVisual < visual then visual else oldVisual;
      var prevVisual, nextVisual := ctxs[id].pos.x - maxVisual, ctxs[id].pos.x + maxVisual;
      var visited := EachRange(id, prevVisual, nextVisual, ctxs[id].pos.x);
      SeenInRange(l, id, pos, oldVisual, maxVisual);
      SeenInRange(l, id, pos, visual, maxVisual);
      TheirsAll(v, w, Members(visited));
      meIn, meOut := ChangeSight(id, visited, oldVisual);
      SamePair(l, ctxs, id, id);
      SameViews(l, ctxs, id, pos, visual);
      ExactIsListsOk(ctxs, id);
      ListsDoNotOrder(list, indexer, l, ctxs, id, 0, Key(0, true));
      SameUsers(visuals, l, ctxs);
    }

    /** Changes an interested entity's range, and tells who comes into and goes out of its view. Afterwards the
        maximum is a bound exactly if it is one of the ranges that stay in use; a wide new range can make it so. */
    method UpdateVisual(id: Id, visual: int) returns (ret: int, meIn: seq<Id>, meOut: seq<Id>)
      requires Valid() && (id in ctxs && visual != ctxs[id].visual ==> Interested(ctxs[id]))
      modifies this`ctxs, this`visuals, this`maxVisual
      ensures Valid() && ret == if id in old(ctxs) then 0 else -1
      ensures id !in old(ctxs) || old(ctxs)[id].visual == visual ==> unchanged(this) && meIn == meOut == []
      ensures id in old(ctxs) && old(ctxs)[id].visual != visual ==>
                var m, e := old(ctxs), old(ctxs)[id];
                && SameButLists(m[id := e.(visual := visual)], ctxs)
                && Lists(meIn, Seen(m, id, e.pos, visual) - Seen(m, id, e.pos, e.visual))
                && Lists(meOut, Seen(m, id, e.pos, e.visual) - Seen(m, id, e.pos, visual))
                && maxVisual == MaxWith(old(visuals), e.visual, visual, old(maxVisual))
                && (Bounds(visuals, maxVisual) <==> OthersBelow(old(visuals), e.visual, maxVisual))
    {
      if id !in ctxs {
        return -1, [], [];
      }
      ret, meIn, meOut := 0, [], [];
      if visual == ctxs[id].visual {
        return;
      }
      ghost var m := ctxs;
      var oldVisual := ctxs[id].visual;
      Recount(id, visual);
      meIn, meOut := Resight(id, oldVisual, m);
    }
  }
}
