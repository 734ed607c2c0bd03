/** The sorted x axis with its index nodes: the value-level half of the skip-list index (engine/src/scene/skip_list_aoi.cpp). */
module SkipOrders {
  import opened IdLists
  import opened Sequences
  import opened Sights

  // A list node: the i-th index node, or an entity.
  datatype Node = Index(i: nat) | Ent(id: Id)

  // What nodes are sorted by: where, and at equal places index nodes before entities.
  datatype Key = Key(x: int, ent: bool)

  /** The less-than operator of list nodes. */
  predicate Less(a: Key, b: Key) { if a.x == b.x then !a.ent && b.ent else a.x < b.x }

  predicate Known(indexer: seq<int>, m: Entities, n: Node) {
    match n case Index(i) => i < |indexer| case Ent(id) => id in m
  }

  function KeyOf(indexer: seq<int>, m: Entities, n: Node): Key
    requires Known(indexer, m, n)
  {
    match n case Index(i) => Key(indexer[i], false) case Ent(id) => Key(m[id].pos.x, true)
  }

  ghost predicate InOrder(indexer: seq<int>, m: Entities, n: Node, n': Node) {
    Known(indexer, m, n) && Known(indexer, m, n') && !Less(KeyOf(indexer, m, n'), KeyOf(indexer, m, n))
  }

  /** Sorted, leaving the node of id out of account. */
  ghost predicate SortedBut(s: seq<Node>, indexer: seq<int>, m: Entities, id: Id) {
    forall i, j | 0 <= i < j < |s| && s[i] != Ent(id) && s[j] != Ent(id) :: InOrder(indexer, m, s[i], s[j])
  }

  ghost predicate Sorted(s: seq<Node>, indexer: seq<int>, m: Entities) {
    forall i, j | 0 <= i < j < |s| :: InOrder(indexer, m, s[i], s[j])
  }

  /** A key is in order at place k of s, whatever is there. */
  ghost predicate FitsAt(s: seq<Node>, indexer: seq<int>, m: Entities, k: nat, key: Key) {
    && (forall j | 0 <= j < k && j < |s| :: Known(indexer, m, s[j]) && !Less(key, KeyOf(indexer, m, s[j])))
    && (forall j | k < j < |s| :: Known(indexer, m, s[j]) && !Less(KeyOf(indexer, m, s[j]), key))
  }

  predicate Belongs(indexer: seq<int>, m: Entities, gone: set<Id>, n: Node) {
    Known(indexer, m, n) && (n.Ent? ==> n.id !in gone)
  }

  /** The list holds every index node and every entity but those gone, once. */
  ghost predicate Holds(s: seq<Node>, indexer: seq<int>, m: Entities, gone: set<Id>) {
    NoDup(s) && forall n :: n in s <==> Belongs(indexer, m, gone, n)
  }

  /** Where a node is: what an iterator stands for. */
  function Find(s: seq<Node>, n: Node): (k: nat)
    ensures k <= |s| && (k < |s| ==> s[k] == n) && forall i | 0 <= i < k :: s[i] != n
  {
    if s == [] || s[0] == n then 0 else 1 + Find(s[1..], n)
  }

  lemma FindIt(s: seq<Node>, n: Node)
    requires n in s
    ensures Find(s, n) < |s| && s[Find(s, n)] == n
  {
  }

  lemma Removed(s: seq<Node>, indexer: seq<int>, m: Entities, id: Id, k: nat)
    requires Holds(s, indexer, m, {}) && k < |s| && s[k] == Ent(id)
    ensures Holds(RemoveAt(s, k), indexer, m, {id})
    ensures SortedBut(s, indexer, m, id) ==> Sorted(RemoveAt(s, k), indexer, m)
  {
    var t := RemoveAt(s, k);
    forall i | 0 <= i < |t|
      ensures t[i] == s[if i < k then i else i + 1] && t[i] != Ent(id)
    {
    }
    forall n
      ensures n in t <==> Belongs(indexer, m, {id}, n)
    {
      if n in s && n != Ent(id) {
        var i :| 0 <= i < |s| && s[i] == n;
        assert t[if i < k then i else i - 1] == n;
      }
      assert n in s <==> Belongs(indexer, m, {}, n);
    }
    if SortedBut(s, indexer, m, id) {
      forall i, j | 0 <= i < j < |t|
        ensures InOrder(indexer, m, t[i], t[j])
      {
        assert InOrder(indexer, m, s[if i < k then i else i + 1], s[if j < k then j else j + 1]);
      }
    }
  }

  /** Entity id is in order before place p of s. */
  ghost predicate Fits(s: seq<Node>, indexer: seq<int>, m: Entities, id: Id, p: nat) {
    && (forall j | 0 <= j < p && j < |s| :: InOrder(indexer, m, s[j], Ent(id)))
    && (forall j | p <= j < |s| :: InOrder(indexer, m, Ent(id), s[j]))
  }

  lemma Inserted(t: seq<Node>, indexer: seq<int>, m: Entities, id: Id, p: nat)
    requires Holds(t, indexer, m, {id}) && Sorted(t, indexer, m) && id in m && p <= |t|
    requires Fits(t, indexer, m, id, p)
    ensures var s := InsertAt(t, p, Ent(id)); Holds(s, indexer, m, {}) && Sorted(s, indexer, m) && s[p] == Ent(id)
  {
    var s := InsertAt(t, p, Ent(id));
    forall i | 0 <= i < |s|
      ensures s[i] == if i < p then t[i] else if i == p then Ent(id) else t[i - 1]
    {
    }
    assert Ent(id) !in t by {
      assert !Belongs(indexer, m, {id}, Ent(id));
    }
    forall n
      ensures n in s <==> Belongs(indexer, m, {}, n)
    {
      assert n in t <==> Belongs(indexer, m, {id}, n);
      if n in t {
        var i :| 0 <= i < |t| && t[i] == n;
        assert s[if i < p then i else i + 1] == n;
      }
      assert s[p] == Ent(id);
    }
    forall i, j | 0 <= i < j < |s|
      ensures InOrder(indexer, m, s[i], s[j]) && s[i] != s[j]
    {
      assert i != p && j != p ==> InOrder(indexer, m, t[if i < p then i else i - 1], t[if j < p then j else j - 1]);
      if i == p {
        assert t[j - 1] in t;
      } else if j == p {
        assert t[i] in t;
      }
    }
  }

  lemma OrderTrans(indexer: seq<int>, m: Entities, a: Node, b: Node, c: Node)
    requires InOrder(indexer, m, a, b) && InOrder(indexer, m, b, c)
    ensures InOrder(indexer, m, a, c)
  {
  }

  /** A scan from place i on finds where id fits: everything before is in order, and s[p] is the first not less. */
  lemma FitsFrom(s: seq<Node>, indexer: seq<int>, m: Entities, id: Id, p: nat)
    requires Sorted(s, indexer, m) && id in m && p <= |s| && forall j | 0 <= j < |s| :: Known(indexer, m, s[j])
    requires forall j | 0 <= j < p :: InOrder(indexer, m, s[j], Ent(id))
    requires p < |s| ==> InOrder(indexer, m, Ent(id), s[p])
    ensures Fits(s, indexer, m, id, p)
  {
    forall j | p <= j < |s|
      ensures InOrder(indexer, m, Ent(id), s[j])
    {
      if j > p {
        OrderTrans(indexer, m, Ent(id), s[p], s[j]);
      }
    }
  }

  /** Everything up to an index node that is not right of id is in order with id. */
  lemma UpTo(s: seq<Node>, indexer: seq<int>, m: Entities, id: Id, i: nat)
    requires Sorted(s, indexer, m) && id in m && i < |s| && s[i].Index? && Known(indexer, m, s[i]) && indexer[s[i].i] <= m[id].pos.x
    ensures forall j | 0 <= j <= i :: InOrder(indexer, m, s[j], Ent(id))
  {
    forall j | 0 <= j <= i
      ensures InOrder(indexer, m, s[j], Ent(id))
    {
      if j < i {
        OrderTrans(indexer, m, s[j], s[i], Ent(id));
      }
    }
  }

  /** After a change of place of id, the rest is still sorted, and id's node is where its old place was in order. */
  lemma Displaced(s: seq<Node>, indexer: seq<int>, m: Entities, m': Entities, id: Id, k: nat)
    requires Sorted(s, indexer, m) && Holds(s, indexer, m, {}) && k < |s| && s[k] == Ent(id) && id in m
    requires m'.Keys == m.Keys && forall o | o in m && o != id :: m'[o].pos == m[o].pos
    ensures SortedBut(s, indexer, m', id) && FitsAt(s, indexer, m', k, Key(m[id].pos.x, true)) && Holds(s, indexer, m', {})
  {
    forall n | n != Ent(id)
      ensures Known(indexer, m, n) <==> Known(indexer, m', n)
      ensures Known(indexer, m, n) ==> KeyOf(indexer, m, n) == KeyOf(indexer, m', n)
    {
    }
    forall i, j | 0 <= i < j < |s| && s[i] != Ent(id) && s[j] != Ent(id)
      ensures InOrder(indexer, m', s[i], s[j])
    {
      assert InOrder(indexer, m, s[i], s[j]);
    }
    forall j | 0 <= j < |s| && j != k
      ensures Known(indexer, m', s[j]) && s[j] != Ent(id) && KeyOf(indexer, m', s[j]) == KeyOf(indexer, m, s[j])
    {
      assert s[j] in s && Belongs(indexer, m, {}, s[j]);
    }
    forall j | 0 <= j < k
      ensures !Less(Key(m[id].pos.x, true), KeyOf(indexer, m', s[j]))
    {
      assert InOrder(indexer, m, s[j], s[k]);
    }
    forall j | k < j < |s|
      ensures !Less(KeyOf(indexer, m', s[j]), Key(m[id].pos.x, true))
    {
      assert InOrder(indexer, m, s[k], s[j]);
    }
    forall n
      ensures n in s <==> Belongs(indexer, m', {}, n)
    {
      assert n in s <==> Belongs(indexer, m, {}, n);
    }
  }

  /** Order does not depend on lists. */
  lemma ListsDoNotOrder(s: seq<Node>, indexer: seq<int>, m: Entities, m': Entities, id: Id, k: nat, key: Key)
    requires SameButLists(m, m') && Holds(s, indexer, m, {})
    ensures Holds(s, indexer, m', {})
    ensures SortedBut(s, indexer, m, id) ==> SortedBut(s, indexer, m', id)
    ensures Sorted(s, indexer, m) ==> Sorted(s, indexer, m')
    ensures FitsAt(s, indexer, m, k, key) ==> FitsAt(s, indexer, m', k, key)
  {
    forall n
      ensures Known(indexer, m, n) <==> Known(indexer, m', n)
      ensures Known(indexer, m, n) ==> KeyOf(indexer, m, n) == KeyOf(indexer, m', n)
      ensures n in s <==> Belongs(indexer, m', {}, n)
    {
      assert n in s <==> Belongs(indexer, m, {}, n);
    }
    forall n, n'
      ensures InOrder(indexer, m, n, n') == InOrder(indexer, m', n, n')
    {
    }
  }

  /** In a sorted list every node is where it is in order. */
  lemma SortedFits(s: seq<Node>, indexer: seq<int>, m: Entities, id: Id)
    requires Sorted(s, indexer, m) && Holds(s, indexer, m, {}) && id in m
    ensures SortedBut(s, indexer, m, id) && FitsAt(s, indexer, m, Find(s, Ent(id)), Key(m[id].pos.x, true))
  {
    assert Belongs(indexer, m, {}, Ent(id));
    FindIt(s, Ent(id));
    var k := Find(s, Ent(id));
    forall j | 0 <= j < k
      ensures Known(indexer, m, s[j]) && !Less(Key(m[id].pos.x, true), KeyOf(indexer, m, s[j]))
    {
      assert InOrder(indexer, m, s[j], s[k]);
    }
    forall j | k < j < |s|
      ensures Known(indexer, m, s[j]) && !Less(KeyOf(indexer, m, s[j]), Key(m[id].pos.x, true))
    {
      assert InOrder(indexer, m, s[k], s[j]);
    }
  }

  /** All whose views can change are in range if max bounds the ranges in use. */
  lemma InReach(m: Entities, id: Id, p: Pos, visual: int, max: int, lo: int, hi: int)
    requires id in m && lo <= p.x - max && p.x + max <= hi
    requires forall o | o in m && o != id && Interested(m[o]) && m[o].visual > 0 :: m[o].visual <= max
    ensures forall b | b in m && Interested(m[b]) && b in Watchers(m, id, p) :: b in Range(m, id, lo, hi)
    ensures visual <= 0 || visual <= max ==> Seen(m, id, p, visual) <= Range(m, id, lo, hi)
  {
  }

  /** Nobody sees both ends of a move of more than twice the bound. */
  lemma FarApart(m: Entities, id: Id, p: Pos, q: Pos, visual: int, max: int)
    requires id in m && !(-2 * max <= q.x - p.x <= 2 * max)
    requires forall o | o in m && o != id && Interested(m[o]) && m[o].visual > 0 :: m[o].visual <= max
    ensures forall b | b in m && Interested(m[b]) :: b !in Watchers(m, id, p) || b !in Watchers(m, id, q)
    ensures 0 < visual <= max ==> Seen(m, id, p, visual) !! Seen(m, id, q, visual)
    ensures visual <= 0 ==> Seen(m, id, p, visual) == {} == Seen(m, id, q, visual)
  {
  }

  /** A new entity that is not in the list yet, and one that is no longer. */
  lemma NotListed(s: seq<Node>, indexer: seq<int>, m: Entities, m': Entities, id: Id, gone: set<Id>)
    requires m'.Keys == m.Keys + {id} && forall o | o in m && o != id :: m'[o].pos == m[o].pos
    requires Sorted(s, indexer, m) && Holds(s, indexer, m, gone) && gone == if id in m then {id} else {}
    ensures Sorted(s, indexer, m') && Holds(s, indexer, m', {id})
  {
    forall n
      ensures n in s <==> Belongs(indexer, m', {id}, n)
    {
      assert n in s <==> Belongs(indexer, m, gone, n);
    }
    forall i, j | 0 <= i < j < |s|
      ensures InOrder(indexer, m', s[i], s[j])
    {
      assert s[i] in s && s[j] in s && InOrder(indexer, m, s[i], s[j]);
      assert Belongs(indexer, m, gone, s[i]) && Belongs(indexer, m, gone, s[j]);
    }
  }

  lemma GoneFromList(s: seq<Node>, indexer: seq<int>, m: Entities, id: Id)
    requires Sorted(s, indexer, m) && Holds(s, indexer, m, {id}) && id in m
    ensures Sorted(s, indexer, m - {id}) && Holds(s, indexer, m - {id}, {})
  {
    forall n
      ensures n in s <==> Belongs(indexer, m - {id}, {}, n)
    {
      assert n in s <==> Belongs(indexer, m, {id}, n);
    }
    forall i, j | 0 <= i < j < |s|
      ensures InOrder(indexer, m - {id}, s[i], s[j])
    {
      assert s[i] in s && s[j] in s && InOrder(indexer, m, s[i], s[j]);
      assert Belongs(indexer, m, {id}, s[i]) && Belongs(indexer, m, {id}, s[j]);
    }
  }

  /** Order does not depend on anything but places. */
  lemma PlacesOrder(s: seq<Node>, indexer: seq<int>, m: Entities, m': Entities)
    requires m.Keys == m'.Keys && forall o | o in m :: m'[o].pos == m[o].pos
    requires Holds(s, indexer, m, {}) && Sorted(s, indexer, m)
    ensures Holds(s, indexer, m', {}) && Sorted(s, indexer, m')
  {
    forall n
      ensures Known(indexer, m, n) <==> Known(indexer, m', n)
      ensures Known(indexer, m, n) ==> KeyOf(indexer, m, n) == KeyOf(indexer, m', n)
      ensures n in s <==> Belongs(indexer, m', {}, n)
    {
      assert n in s <==> Belongs(indexer, m, {}, n);
    }
    forall n, n'
      ensures InOrder(indexer, m, n, n') == InOrder(indexer, m', n, n')
    {
    }
  }

  lemma SeenInRange(m: Entities, id: Id, p: Pos, visual: int, max: int)
    requires visual <= max
    ensures Seen(m, id, p, visual) <= Range(m, id, p.x - max, p.x + max)
  {
  }

  // ---- ranges

  /** The entities but id at x coordinates from lo to hi. */
  ghost function Range(m: Entities, id: Id, lo: int, hi: int): set<Id> {
    set o | o in m && o != id && lo <= m[o].pos.x <= hi
  }

  /** The entities from place a to before place b. */
  ghost predicate Met(s: seq<Node>, a: int, b: int, visited: seq<Id>) {
    NoDup(visited) && forall o :: o in visited <==> exists i | 0 <= i < |s| && a <= i < b :: s[i] == Ent(o)
  }

  lemma MeetLeft(s: seq<Node>, a: nat, b: nat, visited: seq<Id>)
    requires Met(s, a + 1, b, visited) && a < b <= |s| && NoDup(s)
    ensures Met(s, a, b, if s[a].Ent? then visited + [s[a].id] else visited)
  {
    if s[a].Ent? {
      forall i | a < i < b
        ensures s[i] != s[a]
      {
      }
      Pushed(visited, s[a].id);
    }
    var w := if s[a].Ent? then visited + [s[a].id] else visited;
    forall o
      ensures o in w <==> exists i | 0 <= i < |s| && a <= i < b :: s[i] == Ent(o)
    {
      if exists i | 0 <= i < |s| && a <= i < b :: s[i] == Ent(o) {
        var i :| 0 <= i < |s| && a <= i < b && s[i] == Ent(o);
        assert i != a ==> o in visited;
      }
      if o in visited {
        var i :| 0 <= i < |s| && a + 1 <= i < b && s[i] == Ent(o);
      }
    }
  }

  lemma MeetRight(s: seq<Node>, a: nat, b: nat, visited: seq<Id>)
    requires Met(s, a, b, visited) && a <= b < |s| && NoDup(s)
    ensures Met(s, a, b + 1, if s[b].Ent? then visited + [s[b].id] else visited)
  {
    if s[b].Ent? {
      forall i | a <= i < b
        ensures s[i] != s[b]
      {
      }
      Pushed(visited, s[b].id);
    }
    var w := if s[b].Ent? then visited + [s[b].id] else visited;
    forall o
      ensures o in w <==> exists i | 0 <= i < |s| && a <= i < b + 1 :: s[i] == Ent(o)
    {
      if exists i | 0 <= i < |s| && a <= i < b + 1 :: s[i] == Ent(o) {
        var i :| 0 <= i < |s| && a <= i < b + 1 && s[i] == Ent(o);
        assert i != b ==> o in visited;
      }
      if o in visited {
        var i :| 0 <= i < |s| && a <= i < b && s[i] == Ent(o);
      }
    }
  }

  /** Where walks to the left and to the right of id's node have stopped. */
  ghost predicate Walked(s: seq<Node>, indexer: seq<int>, m: Entities, k: nat, lo: int, hi: int, l: nat, r: nat) {
    && 1 <= l <= k < r <= |s| && (forall i | 0 <= i < |s| :: Known(indexer, m, s[i]))
    && (l == 1 || KeyOf(indexer, m, s[l - 1]).x < lo) && (forall i | l <= i < k :: KeyOf(indexer, m, s[i]).x >= lo)
    && (r == |s| || KeyOf(indexer, m, s[r]).x > hi) && (forall i | k < i < r :: KeyOf(indexer, m, s[i]).x <= hi)
  }

  /** An entity that neither walk meets is out of the range. */
  lemma WalksMeet(s: seq<Node>, indexer: seq<int>, m: Entities, id: Id, k: nat, lo: int, hi: int, l: nat, r: nat, i: nat)
    requires Walked(s, indexer, m, k, lo, hi, l, r) && SortedBut(s, indexer, m, id) && s[k] == Ent(id) && NoDup(s)
    requires i < |s| && i != k && s[0].Index? && s[i].Ent?
    ensures i < l ==> m[s[i].id].pos.x < lo
    ensures i >= r ==> m[s[i].id].pos.x > hi
  {
    assert s[i] != s[k];
    if i < l && i != l - 1 {
      assert s[l - 1] != s[k];
      assert InOrder(indexer, m, s[i], s[l - 1]);
    }
    if i > r {
      assert s[r] != s[k];
      assert InOrder(indexer, m, s[r], s[i]);
    }
  }

  /** Both walks together meet everybody in the range, and only others; if the range is around id's place they
      meet nobody else. */
  lemma WalksDone(s: seq<Node>, indexer: seq<int>, m: Entities, id: Id, k: nat, c: int, lo: int, hi: int, l: nat, r: nat,
                  left: seq<Id>, right: seq<Id>)
    requires Walked(s, indexer, m, k, lo, hi, l, r) && SortedBut(s, indexer, m, id) && s[k] == Ent(id)
    requires Holds(s, indexer, m, {}) && FitsAt(s, indexer, m, k, Key(c, true)) && s[0].Index?
    requires Met(s, l, k, left) && Met(s, k + 1, r, right)
    ensures NoDup(left + right) && id !in left + right
    ensures Range(m, id, lo, hi) <= Members(left + right) <= m.Keys - {id}
    ensures lo <= c <= hi || hi < c < lo ==> Members(left + right) == Range(m, id, lo, hi)
  {
    forall o | o in left
      ensures o !in right && o in m && o != id && lo <= m[o].pos.x <= c
    {
      var i :| 0 <= i < |s| && l <= i < k && s[i] == Ent(o);
    }
    forall o | o in right
      ensures o in m && o != id && c <= m[o].pos.x <= hi
    {
      var i :| 0 <= i < |s| && k + 1 <= i < r && s[i] == Ent(o);
    }
    Joined(left, right);
    forall o | o in Range(m, id, lo, hi)
      ensures o in left + right
    {
      assert Belongs(indexer, m, {}, Ent(o));
      assert Ent(o) in s;
      var i :| 0 <= i < |s| && s[i] == Ent(o);
      WalksMeet(s, indexer, m, id, k, lo, hi, l, r, i);
      if i < k {
        assert o in left;
      } else {
        assert o in right;
      }
    }
  }
}
