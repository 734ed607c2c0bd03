/**
 * One axis of the orthogonal-list index (engine/src/scene/orth_list_aoi.cpp, engine/src/scene/orth_list_aoi.hpp): a
 * doubly linked list of entity nodes and view boundary nodes, sorted by place and kind. The fields that nodes have
 * for this axis are maps here.
 */
module OrthAxes {
  import opened IdLists
  import opened Sequences

  // The nodes of an entity: its left view boundary, itself, its right view boundary.
  datatype Kind = Prev | Self | Next

  datatype Node = Node(id: Id, kind: Kind)

  datatype Link = Null | To(node: Node)

  function Rank(k: Kind): int { match k case Prev => -1 case Self => 0 case Next => 1 }

  /** What comp compares: the place, and at equal places the kind. */
  datatype Key = Key(pos: int, rank: int)

  /** comp: greater, equal or less as the result is positive, zero or negative. */
  function Comp(a: Key, b: Key): int {
    if a.pos > b.pos then 1 else if a.pos == b.pos then a.rank - b.rank else -1
  }

  function KeyOf(pos: map<Node, int>, n: Node): Key
    requires n in pos
  {
    Key(pos[n], Rank(n.kind))
  }

  predicate NotAfter(at: map<Node, int>, n: Node, n': Node) { n in at && n' in at && Comp(KeyOf(at, n), KeyOf(at, n')) <= 0 }

  ghost predicate Sorted(order: seq<Node>, at: map<Node, int>) {
    forall i, j | 0 <= i < j < |order| :: NotAfter(at, order[i], order[j])
  }

  function LinkAt(order: seq<Node>, i: int): Link { if 0 <= i < |order| then To(order[i]) else Null }

  ghost predicate LinkedAt(order: seq<Node>, next: map<Node, Link>, prev: map<Node, Link>, i: nat)
    requires i < |order|
  {
    && order[i] in next && next[order[i]] == LinkAt(order, i + 1)
    && order[i] in prev && prev[order[i]] == LinkAt(order, i - 1)
  }

  /** The links spell out the order in both directions. */
  ghost predicate Linked(order: seq<Node>, first: Link, next: map<Node, Link>, prev: map<Node, Link>) {
    && NoDup(order) && first == LinkAt(order, 0)
    && forall i | 0 <= i < |order| :: LinkedAt(order, next, prev, i)
  }

  /** The links of nodes outside the list are untouched. */
  ghost predicate OthersKept(order: seq<Node>, links: map<Node, Link>, links': map<Node, Link>) {
    links'.Keys == links.Keys && forall m | m in links && m !in order :: links'[m] == links[m]
  }

  function SetIf(links: map<Node, Link>, l: Link, to: Link): map<Node, Link> {
    if l.To? then links[l.node := to] else links
  }

  /** The links after n has been put in at place k. */
  function NextPut(next: map<Node, Link>, order: seq<Node>, k: nat, n: Node): map<Node, Link>
    requires k <= |order|
  {
    SetIf(next, LinkAt(order, k - 1), To(n))[n := LinkAt(order, k)]
  }

  function PrevPut(prev: map<Node, Link>, order: seq<Node>, k: nat, n: Node): map<Node, Link>
    requires k <= |order|
  {
    SetIf(prev[n := LinkAt(order, k - 1)], LinkAt(order, k), To(n))
  }

  lemma InsertedDistinct(order: seq<Node>, k: nat, n: Node)
    requires NoDup(order) && k <= |order| && n !in order
    ensures NoDup(InsertAt(order, k, n))
  {
    var s := InsertAt(order, k, n);
    forall i, j | 0 <= i < j < |s|
      ensures s[i] != s[j]
    {
      if i == k {
        assert order[j - 1] in order;
      } else if j == k {
        assert order[i] in order;
      }
    }
  }

  lemma InsertedOthers(order: seq<Node>, first: Link, next: map<Node, Link>, prev: map<Node, Link>, k: nat, n: Node)
    requires Linked(order, first, next, prev) && k <= |order| && n !in order && n in next && n in prev
    ensures OthersKept(InsertAt(order, k, n), next, NextPut(next, order, k, n))
    ensures OthersKept(InsertAt(order, k, n), prev, PrevPut(prev, order, k, n))
  {
    InsertedNode(order, k, n);
    assert k > 0 ==> LinkedAt(order, next, prev, k - 1) && order[k - 1] in order;
    assert k < |order| ==> LinkedAt(order, next, prev, k) && order[k] in order;
  }

  lemma InsertedLinks(order: seq<Node>, first: Link, next: map<Node, Link>, prev: map<Node, Link>, k: nat, n: Node)
    requires Linked(order, first, next, prev) && k <= |order| && n !in order && n in next && n in prev
    ensures Linked(InsertAt(order, k, n), if k == 0 then To(n) else first, NextPut(next, order, k, n), PrevPut(prev, order, k, n))
  {
    var s := InsertAt(order, k, n);
    InsertedDistinct(order, k, n);
    forall i | 0 <= i < |s|
      ensures LinkedAt(s, NextPut(next, order, k, n), PrevPut(prev, order, k, n), i)
    {
      if i < k {
        assert LinkedAt(order, next, prev, i) && order[i] in order;
      } else if i > k {
        assert LinkedAt(order, next, prev, i - 1) && order[i - 1] in order;
      }
    }
  }

  lemma RemovedLinks(order: seq<Node>, first: Link, next: map<Node, Link>, prev: map<Node, Link>, k: nat)
    requires Linked(order, first, next, prev) && k < |order|
    ensures var next', prev' := SetIf(next, LinkAt(order, k - 1), LinkAt(order, k + 1)),
                                SetIf(prev, LinkAt(order, k + 1), LinkAt(order, k - 1));
            && Linked(RemoveAt(order, k), if k == 0 then LinkAt(order, 1) else first, next', prev')
            && OthersKept(RemoveAt(order, k), next, next') && OthersKept(RemoveAt(order, k), prev, prev')
  {
    var s := RemoveAt(order, k);
    var next', prev' := SetIf(next, LinkAt(order, k - 1), LinkAt(order, k + 1)),
                        SetIf(prev, LinkAt(order, k + 1), LinkAt(order, k - 1));
    RemovedNode(order, k);
    assert LinkedAt(order, next, prev, k);
    assert k > 0 ==> LinkedAt(order, next, prev, k - 1) && order[k - 1] in order;
    assert k + 1 < |order| ==> LinkedAt(order, next, prev, k + 1) && order[k + 1] in order;
    forall i | 0 <= i < |s|
      ensures s[i] == order[if i < k then i else i + 1]
    {
    }
    forall i | 0 <= i < |s|
      ensures LinkedAt(s, next', prev', i)
    {
      assert LinkedAt(order, next, prev, if i < k then i else i + 1);
    }
  }

  lemma InsertedSorted(order: seq<Node>, at: map<Node, int>, k: nat, n: Node, p: int)
    requires Sorted(order, at) && k <= |order| && n !in order && forall m | m in order :: m in at
    requires forall i | 0 <= i < k :: NotAfter(at[n := p], order[i], n)
    requires forall i | k <= i < |order| :: NotAfter(at[n := p], n, order[i])
    ensures Sorted(InsertAt(order, k, n), at[n := p])
  {
    var s := InsertAt(order, k, n);
    forall i | 0 <= i < |s|
      ensures s[i] == if i < k then order[i] else if i == k then n else order[i - 1]
    {
    }
    forall i, j | 0 <= i < j < |s|
      ensures NotAfter(at[n := p], s[i], s[j])
    {
      if i != k && j != k {
        var a, b := if i < k then i else i - 1, if j < k then j else j - 1;
        assert NotAfter(at, order[a], order[b]) && order[a] in order && order[b] in order;
      }
    }
  }

  lemma RemovedSorted(order: seq<Node>, at: map<Node, int>, k: nat)
    requires Sorted(order, at) && k < |order|
    ensures Sorted(RemoveAt(order, k), at)
  {
    var s := RemoveAt(order, k);
    forall i, j | 0 <= i < j < |s|
      ensures NotAfter(at, s[i], s[j])
    {
      assert NotAfter(at, order[if i < k then i else i + 1], order[if j < k then j else j + 1]);
    }
  }

  lemma RemovedNode(order: seq<Node>, k: nat)
    requires NoDup(order) && k < |order|
    ensures NoDup(RemoveAt(order, k)) && forall m :: m in RemoveAt(order, k) <==> m in order && m != order[k]
  {
    var s := RemoveAt(order, k);
    forall i | 0 <= i < |s|
      ensures s[i] == order[if i < k then i else i + 1]
    {
    }
    forall m | m in order && m != order[k]
      ensures m in s
    {
      var i :| 0 <= i < |order| && order[i] == m;
      assert s[if i < k then i else i - 1] == m;
    }
  }

  lemma InsertedNode(order: seq<Node>, k: nat, n: Node)
    requires k <= |order|
    ensures forall m :: m in InsertAt(order, k, n) <==> m in order || m == n
    ensures InsertAt(order, k, n)[k] == n
  {
    assert order == order[..k] + order[k..];
  }

  /** n with place p is in order between the nodes before k and those from k on. */
  ghost predicate Fits(order: seq<Node>, at: map<Node, int>, n: Node, k: nat)
    requires k <= |order|
  {
    && (forall i | 0 <= i < k :: NotAfter(at, order[i], n))
    && forall i | k <= i < |order| :: NotAfter(at, n, order[i])
  }

  /** That takes only the two next to it. */
  lemma FitsByNeighbours(order: seq<Node>, at: map<Node, int>, n: Node, k: nat, p: int)
    requires Sorted(order, at) && k <= |order| && n !in order && forall m | m in order :: m in at
    requires k > 0 ==> NotAfter(at[n := p], order[k - 1], n)
    requires k < |order| ==> NotAfter(at[n := p], n, order[k])
    ensures Fits(order, at[n := p], n, k)
  {
    var at' := at[n := p];
    forall i | 0 <= i < |order|
      ensures i < k ==> NotAfter(at', order[i], n)
      ensures i >= k ==> NotAfter(at', n, order[i])
    {
      assert order[i] in order;
      if i < k - 1 {
        assert NotAfter(at, order[i], order[k - 1]) && order[k - 1] in order;
      } else if i > k {
        assert NotAfter(at, order[k], order[i]) && order[k] in order;
      }
    }
  }

  /** A node put where it fits between its neighbours leaves the list in order, and is the only one more. */
  lemma PutSorted(order: seq<Node>, at: map<Node, int>, k: nat, n: Node, p: int)
    requires Sorted(order, at) && k <= |order| && n !in order && forall m | m in order :: m in at
    requires k > 0 ==> NotAfter(at[n := p], order[k - 1], n)
    requires k < |order| ==> NotAfter(at[n := p], n, order[k])
    ensures Sorted(InsertAt(order, k, n), at[n := p])
    ensures forall m :: m in InsertAt(order, k, n) <==> m in order || m == n
  {
    FitsByNeighbours(order, at, n, k, p);
    InsertedSorted(order, at, k, n, p);
    InsertedNode(order, k, n);
  }

  /** The entities among some nodes, each once. */
  ghost predicate EntitiesOf(s: seq<Node>, visited: seq<Id>) {
    NoDup(visited) && forall o :: o in visited <==> Node(o, Self) in s
  }

  /** A walk reports the entities that it meets. */
  function Meet(visited: seq<Id>, n: Node): seq<Id> { if n.kind == Self then visited + [n.id] else visited }

  lemma NoEntities(order: seq<Node>, k: nat)
    requires k <= |order|
    ensures EntitiesOf(order[k..k], [])
  {
  }

  lemma OneLeft(order: seq<Node>, i: nat, k: nat, visited: seq<Id>)
    requires NoDup(order) && 0 < i <= k <= |order| && EntitiesOf(order[i..k], visited)
    ensures EntitiesOf(order[i - 1..k], Meet(visited, order[i - 1]))
  {
    assert order[i - 1..k] == [order[i - 1]] + order[i..k];
    if order[i - 1].kind == Self {
      assert order[i - 1] == Node(order[i - 1].id, Self) && order[i - 1] !in order[i..k];
      Pushed(visited, order[i - 1].id);
    }
  }

  lemma OneRight(order: seq<Node>, k: nat, i: nat, visited: seq<Id>)
    requires NoDup(order) && k < i < |order| && EntitiesOf(order[k + 1..i], visited)
    ensures EntitiesOf(order[k + 1..i + 1], Meet(visited, order[i]))
  {
    assert order[k + 1..i + 1] == order[k + 1..i] + [order[i]];
    if order[i].kind == Self {
      assert order[i] == Node(order[i].id, Self) && order[i] !in order[k + 1..i];
      Pushed(visited, order[i].id);
    }
  }

  /** What a node passes on its way to the right, given where the list had everything before and has it after. */
  ghost predicate PassedRight(order: seq<Node>, at: map<Node, int>, at': map<Node, int>, n: Node, visited: seq<Node>)
    requires n in at && n in at' && forall m | m in order :: m in at && m in at'
  {
    && NoDup(visited)
    && (forall m | m in visited :: m in order && m != n && NotAfter(at, n, m) && Comp(KeyOf(at', n), KeyOf(at', m)) > 0)
    && forall m | m in order && m != n && !NotAfter(at, m, n) && Comp(KeyOf(at', n), KeyOf(at', m)) > 0 :: m in visited
  }

  /** And to the left. */
  ghost predicate PassedLeft(order: seq<Node>, at: map<Node, int>, at': map<Node, int>, n: Node, visited: seq<Node>)
    requires n in at && n in at' && forall m | m in order :: m in at && m in at'
  {
    && NoDup(visited)
    && (forall m | m in visited :: m in order && m != n && NotAfter(at, m, n) && Comp(KeyOf(at', n), KeyOf(at', m)) < 0)
    && forall m | m in order && m != n && !NotAfter(at, n, m) && Comp(KeyOf(at', n), KeyOf(at', m)) < 0 :: m in visited
  }

  class AxisList {
    var first: Link
    var next: map<Node, Link>
    var prev: map<Node, Link>
    var pos: map<Node, int>
    // The nodes in the list, and where the list has them: a node that has a new place but has not been shifted yet
    // is still where it was.
    ghost var order: seq<Node>
    ghost var at: map<Node, int>

    ghost predicate Valid()
      reads this
    {
      && Linked(order, first, next, prev) && Sorted(order, at)
      && forall n | n in order :: n in pos && n in at
    }

    /** A node's list place is its place. */
    ghost predicate Settled(n: Node)
      reads this`pos, this`at
    {
      n in pos && n in at && pos[n] == at[n]
    }

    /** What the scans go by: n is greater than m. */
    predicate Greater(n: Node, m: Node)
      reads this`pos
    {
      n in pos && m in pos && Comp(KeyOf(pos, n), KeyOf(pos, m)) > 0
    }

    /** A node that is in no list has no links. */
    ghost predicate Loose(n: Node)
      reads this
    {
      n !in order && n in pos && n in next && n in prev && next[n] == prev[n] == Null
    }

    constructor ()
      ensures Valid() && order == [] && pos == map[]
    {
      first, next, prev, pos := Null, map[], map[], map[];
      order, at := [], map[];
    }

    /** Gives a node a place. */
    method SetPos(n: Node, p: int)
      requires Valid()
      modifies this`pos
      ensures Valid() && pos == old(pos)[n := p]
    {
      pos := pos[n := p];
    }

    /** reset: a node that is in no list gets no links. */
    method Unlink(n: Node)
      requires Valid() && n !in order
      modifies this`next, this`prev
      ensures Valid() && next == old(next)[n := Null] && prev == old(prev)[n := Null]
    {
      LinksOfOthers(n, Null, Null);
      next := next[n := Null];
      prev := prev[n := Null];
    }

    lemma LinksOfOthers(n: Node, l: Link, l': Link)
      requires Valid() && n !in order
      ensures Linked(order, first, next[n := l], prev[n := l'])
    {
      var next', prev' := next[n := l], prev[n := l'];
      forall i | 0 <= i < |order|
        ensures LinkedAt(order, next', prev', i)
      {
        assert LinkedAt(order, next, prev, i) && order[i] in order;
      }
    }

    /** The node that a link leads to is where the links say. */
    lemma Follow(i: nat)
      requires Valid() && i < |order|
      ensures order[i] in order && order[i] in pos && order[i] in at && order[i] in next && order[i] in prev
      ensures next[order[i]] == LinkAt(order, i + 1) && prev[order[i]] == LinkAt(order, i - 1)
    {
      assert LinkedAt(order, next, prev, i);
    }

    /** Where the links of a node lead. */
    lemma After(i: nat)
      requires Valid() && i < |order|
      ensures order[i] in next && next[order[i]] == LinkAt(order, i + 1) && (i + 1 < |order| ==> order[i + 1] in pos)
      ensures order[i] in prev && prev[order[i]] == LinkAt(order, i - 1) && (i > 0 ==> order[i - 1] in pos)
    {
      Follow(i);
      assert i + 1 < |order| ==> order[i + 1] in order;
      assert i > 0 ==> order[i - 1] in order;
    }

    /** The same of the node that a link leads to. */
    lemma Beyond(i: int)
      requires Valid() && LinkAt(order, i).To?
      ensures var n := LinkAt(order, i).node;
              && n in next && next[n] == LinkAt(order, i + 1) && (next[n].To? ==> next[n].node in pos)
              && n in prev && prev[n] == LinkAt(order, i - 1) && (prev[n].To? ==> prev[n].node in pos)
    {
      After(i);
    }

    /** Links a node that is not in the list in at place k. */
    method PutBetween(before: Link, n: Node, after: Link, ghost k: nat)
      requires Valid() && n !in order && n in next && n in prev && n in pos
      requires k <= |order| && before == LinkAt(order, k - 1) && after == LinkAt(order, k)
      requires k > 0 ==> NotAfter(at[n := pos[n]], order[k - 1], n)
      requires k < |order| ==> NotAfter(at[n := pos[n]], n, order[k])
      modifies this`first, this`next, this`prev, this`order, this`at
      ensures Valid() && order == InsertAt(old(order), k, n) && at == old(at)[n := pos[n]]
      ensures OthersKept(order, old(next), next) && OthersKept(order, old(prev), prev)
    {
      ghost var first0, next0, prev0, s, t := first, next, prev, order, at;
      PutSorted(order, at, k, n, pos[n]);
      InsertedLinks(order, first, next, prev, k, n);
      InsertedOthers(order, first, next, prev, k, n);
      hide Linked;
      hide Sorted;
      hide NotAfter;
      hide InsertAt;
      hide OthersKept;
      LinkIn(before, n, after);
      order, at := InsertAt(s, k, n), t[n := pos[n]];
    }

    /** The links of a node and of its new neighbours. */
    method LinkIn(before: Link, n: Node, after: Link)
      modifies this`first, this`next, this`prev
      ensures first == if before.To? then old(first) else To(n)
      ensures next == SetIf(old(next), before, To(n))[n := after]
      ensures prev == SetIf(old(prev)[n := before], after, To(n))
    {
      if before.To? {
        next := next[before.node := To(n)];
      } else {
        first := To(n);
      }
      prev := prev[n := before];
      next := next[n := after];
      if after.To? {
        prev := prev[after.node := To(n)];
      }
    }

    /** remove_list: unlinks a node. Its own links stay as they were. */
    method RemoveList(n: Node) returns (ghost k: nat)
      requires Valid() && n in order
      modifies this`first, this`next, this`prev, this`order
      ensures Valid() && k < |old(order)| && old(order)[k] == n && order == RemoveAt(old(order), k)
      ensures OthersKept(order, old(next), next) && OthersKept(order, old(prev), prev)
    {
      k :| 0 <= k < |order| && order[k] == n;
      ghost var s := order;
      Follow(k);
      RemovedSorted(order, at, k);
      RemovedNode(order, k);
      RemovedLinks(order, first, next, prev, k);
      hide Linked;
      hide Sorted;
      hide RemoveAt;
      hide OthersKept;
      LinkOver(prev[n], next[n]);
      order := RemoveAt(s, k);
    }

    /** Links two neighbours of a node to each other. */
    method LinkOver(before: Link, after: Link)
      modifies this`first, this`next, this`prev
      ensures first == if before.To? then old(first) else after
      ensures next == SetIf(old(next), before, after) && prev == SetIf(old(prev), after, before)
    {
      if before.To? {
        next := next[before.node := after];
      } else {
        first := after;
      }
      if after.To? {
        prev := prev[after.node := before];
      }
    }

    /** remove_list, and what it leaves as it was. */
    method TakeOut(n: Node)
      requires Valid() && n in order
      modifies this`first, this`next, this`prev, this`order
      ensures Valid() && forall m :: m in order <==> m in old(order) && m != n
      ensures forall m | old(Loose(m)) :: Loose(m)
    {
      ghost var s := order;
      assert NoDup(s);
      hide Linked;
      hide Sorted;
      ghost var k := RemoveList(n);
      RemovedNode(s, k);
    }

    /** The scan to the right: past the nodes that n is greater than. */
    method ScanNext(before: Link, after: Link, n: Node, ghost i: nat)
      returns (visited: seq<Node>, before': Link, after': Link, ghost j: nat)
      requires Valid() && n in pos && i <= |order| && before == LinkAt(order, i - 1) && after == LinkAt(order, i)
      ensures i <= j <= |order| && visited == order[i..j]
      ensures before' == LinkAt(order, j - 1) && after' == LinkAt(order, j)
      ensures forall m | i <= m < j :: Greater(n, order[m])
      ensures j < |order| ==> !Greater(n, order[j])
    {
      hide Linked;
      hide Sorted;
      visited, before', after', j := [], before, after, i;
      while after' != Null && Comp(KeyOf(pos, n), KeyOf(pos, after'.node)) > 0
        invariant i <= j <= |order| && visited == order[i..j]
        invariant before' == LinkAt(order, j - 1) && after' == LinkAt(order, j) && (after'.To? ==> after'.node in pos)
        invariant forall m | i <= m < j :: Greater(n, order[m])
        decreases |order| - j
      {
        After(j);
        assert order[i..j + 1] == order[i..j] + [order[j]];
        visited := visited + [after'.node];
        before' := after';
        after' := next[after'.node];
        j := j + 1;
      }
    }

    /** The scan to the left: past the nodes that are greater than n. */
    method ScanPrev(before: Link, after: Link, n: Node, ghost i: nat)
      returns (visited: seq<Node>, before': Link, after': Link, ghost j: nat)
      requires Valid() && n in pos && i <= |order| && before == LinkAt(order, i - 1) && after == LinkAt(order, i)
      ensures j <= i && |visited| == i - j && forall m | 0 <= m < i - j :: visited[m] == order[i - 1 - m]
      ensures before' == LinkAt(order, j - 1) && after' == LinkAt(order, j)
      ensures forall m | j <= m < i :: Greater(order[m], n)
      ensures j > 0 ==> !Greater(order[j - 1], n)
    {
      hide Linked;
      hide Sorted;
      visited, before', after', j := [], before, after, i;
      while before' != Null && Comp(KeyOf(pos, n), KeyOf(pos, before'.node)) < 0
        invariant j <= i && |visited| == i - j && forall m | 0 <= m < i - j :: visited[m] == order[i - 1 - m]
        invariant before' == LinkAt(order, j - 1) && after' == LinkAt(order, j) && (before'.To? ==> before'.node in pos)
        invariant forall m | j <= m < i :: Greater(order[m], n)
        decreases j
      {
        After(j - 1);
        visited := visited + [before'.node];
        after' := before';
        before' := prev[before'.node];
        j := j - 1;
      }
    }

    /** Asking the places of n and m tells how n compares with m as the list has it. */
    ghost predicate Agrees(n: Node, m: Node)
      reads this`pos, this`at
    {
      && n in pos && m in pos && m in at
      && (Comp(KeyOf(pos, n), KeyOf(pos, m)) > 0 <==> Comp(KeyOf(pos, n), KeyOf(at, m)) > 0)
      && (Comp(KeyOf(pos, n), KeyOf(pos, m)) < 0 <==> Comp(KeyOf(pos, n), KeyOf(at, m)) < 0)
    }

    /** insert_list: from a start node on, links a loose node in before the first node that it is not greater than.
        Returns the nodes that it has passed. */
    method InsertList(start: Link, n: Node, ghost j: nat) returns (visited: seq<Node>, ghost k: nat)
      requires Valid() && Loose(n) && j <= |order| && start == LinkAt(order, j) && (start == Null ==> order == [])
      requires forall m | m in order :: Settled(m)
      requires j > 0 ==> start.To? && Greater(n, start.node)
      modifies this`first, this`next, this`prev, this`order, this`at
      ensures Valid() && j <= k <= |old(order)| && order == InsertAt(old(order), k, n) && at == old(at)[n := pos[n]]
      ensures visited == old(order)[j..k] && forall m | m in visited :: Greater(n, m)
      ensures k < |old(order)| ==> !Greater(n, old(order)[k])
      ensures OthersKept(order, old(next), next) && OthersKept(order, old(prev), prev)
    {
      if start == Null {
        visited, k := [], 0;
        AloneSorted(n);
        first := To(n);
        order, at := InsertAt([], 0, n), at[n := pos[n]];
        return;
      }
      Follow(j);
      var before, after;
      visited, before, after, k := ScanNext(prev[start.node], start, n, j);
      FitsHere(n, k, j);
      hide Linked;
      hide Sorted;
      PutBetween(before, n, after, k);
    }

    lemma AloneSorted(n: Node)
      requires Valid() && Loose(n) && order == []
      ensures InsertAt([], 0, n) == [n] && Linked([n], To(n), next, prev) && Sorted([n], at[n := pos[n]])
    {
      assert LinkedAt([n], next, prev, 0);
    }

    /** Where a scan from place j has stopped, n fits. */
    lemma FitsHere(n: Node, k: nat, j: nat)
      requires n in pos && n !in order && j <= k <= |order| && (j > 0 ==> j < |order| && Greater(n, order[j]))
      requires forall m | m in order :: Settled(m)
      requires forall m | j <= m < k :: Greater(n, order[m])
      requires k < |order| ==> !Greater(n, order[k])
      ensures k > 0 ==> NotAfter(at[n := pos[n]], order[k - 1], n)
      ensures k < |order| ==> NotAfter(at[n := pos[n]], n, order[k])
    {
      assert k > 0 ==> order[k - 1] in order && Settled(order[k - 1]);
      assert k < |order| ==> order[k] in order && Settled(order[k]);
    }

    /** Takes a node out of the list and links it in at place i of what is left. */
    method Relink(n: Node, before: Link, after: Link, ghost k: nat, ghost i: nat)
      requires Valid() && k < |order| && order[k] == n && n in pos && i < |order|
      requires before == LinkAt(RemoveAt(order, k), i - 1) && after == LinkAt(RemoveAt(order, k), i)
      requires i > 0 ==> NotAfter(at[n := pos[n]], RemoveAt(order, k)[i - 1], n)
      requires i < |order| - 1 ==> NotAfter(at[n := pos[n]], n, RemoveAt(order, k)[i])
      modifies this`first, this`next, this`prev, this`order, this`at
      ensures Valid() && (forall m :: m in order <==> m in old(order)) && at == old(at)[n := pos[n]]
      ensures OthersKept(order, old(next), next) && OthersKept(order, old(prev), prev)
    {
      ghost var s, next0, prev0 := order, next, prev;
      Follow(k);
      RemovedNode(s, k);
      InsertedNode(RemoveAt(s, k), i, n);
      OnePlace(s, k);
      hide Linked;
      hide Sorted;
      hide NoDup;
      hide NotAfter;
      hide OthersKept;
      hide InsertAt;
      ghost var l := RemoveList(n);
      hide RemoveAt;
      ghost var next1, prev1 := next, prev;
      OthersThere(order, next0, next1);
      OthersThere(order, prev0, prev1);
      PutBetween(before, n, after, i);
      OthersTwice(order, n, RemoveAt(s, k), next0, next1, next);
      OthersTwice(order, n, RemoveAt(s, k), prev0, prev1, prev);
    }

    lemma OthersThere(s: seq<Node>, links: map<Node, Link>, links': map<Node, Link>)
      requires OthersKept(s, links, links')
      ensures links'.Keys == links.Keys
    {
    }

    lemma OthersTwice(s: seq<Node>, n: Node, t: seq<Node>, a: map<Node, Link>, b: map<Node, Link>, c: map<Node, Link>)
      requires OthersKept(t, a, b) && OthersKept(s, b, c) && forall m | m in t :: m in s
      ensures OthersKept(s, a, c)
    {
    }

    /** shift_list_next: takes a node whose place has grown to the right, where it belongs now. Returns the nodes that
        it has passed. */
    method ShiftNext(n: Node) returns (visited: seq<Node>)
      requires Valid() && n in order && pos[n] >= at[n]
      requires forall m | m in order && m != n && NotAfter(at, n, m) :: Agrees(n, m)
      modifies this`first, this`next, this`prev, this`order, this`at
      ensures Valid() && (forall m :: m in order <==> m in old(order)) && at == old(at)[n := pos[n]]
      ensures OthersKept(order, old(next), next) && OthersKept(order, old(prev), prev)
      ensures PassedRight(old(order), old(at), at, n, visited)
    {
      ghost var k :| 0 <= k < |order| && order[k] == n;
      var before, after;
      ghost var j;
      visited, before, after, j := LookRight(n, k);
      FitsRight(n, k, j);
      hide Linked;
      hide Sorted;
      hide NotAfter;
      hide PassedRight;
      hide KeyOf;
      hide Comp;
      if visited == [] {
        at := at[n := pos[n]];
      } else {
        Relink(n, before, after, k, j - 1);
      }
    }

    /** The scan of a shift to the right. */
    method LookRight(n: Node, ghost k: nat) returns (visited: seq<Node>, before: Link, after: Link, ghost j: nat)
      requires Valid() && k < |order| && order[k] == n && n in pos
      requires forall m | m in order && m != n && NotAfter(at, n, m) :: Agrees(n, m)
      ensures k < j <= |order| && (visited == [] <==> j == k + 1)
      ensures before == LinkAt(order, j - 1) && after == LinkAt(order, j)
      ensures (j > k + 1 ==> Greater(n, order[j - 1])) && (j < |order| ==> !Greater(n, order[j]))
      ensures PassedRight(order, at, at[n := pos[n]], n, visited)
    {
      Follow(k);
      visited, before, after, j := ScanNext(To(n), next[n], n, k + 1);
      WentRight(n, k, j, visited);
    }

    lemma OnePlace(s: seq<Node>, k: nat)
      requires NoDup(s) && k < |s|
      ensures forall l | 0 <= l < |s| && s[l] == s[k] :: l == k
    {
    }

    /** What a scan to the right has passed. */
    lemma WentRight(n: Node, k: nat, j: nat, visited: seq<Node>)
      requires Valid() && k < j <= |order| && order[k] == n && n in pos && visited == order[k + 1..j]
      requires forall m | m in order && m != n && NotAfter(at, n, m) :: Agrees(n, m)
      requires forall m | k + 1 <= m < j :: Greater(n, order[m])
      requires j < |order| ==> !Greater(n, order[j])
      ensures PassedRight(order, at, at[n := pos[n]], n, visited)
    {
    }

    /** Where n fits then, without its old place. */
    lemma FitsRight(n: Node, k: nat, j: nat)
      requires Valid() && k < j <= |order| && order[k] == n && pos[n] >= at[n]
      requires forall m | m in order && m != n && NotAfter(at, n, m) :: Agrees(n, m)
      requires j > k + 1 ==> Greater(n, order[j - 1])
      requires j < |order| ==> !Greater(n, order[j])
      ensures j == k + 1 ==> Sorted(order, at[n := pos[n]])
      ensures var s := RemoveAt(order, k);
              && LinkAt(s, j - 2) == LinkAt(order, if j == k + 1 then j - 2 else j - 1) && LinkAt(s, j - 1) == LinkAt(order, j)
              && (j > k + 1 ==> NotAfter(at[n := pos[n]], s[j - 2], n))
              && (j < |order| ==> NotAfter(at[n := pos[n]], n, s[j - 1]))
    {
      assert j < |order| ==> order[j] in order && NotAfter(at, n, order[j]);
      assert j > k + 1 ==> order[j - 1] in order && NotAfter(at, n, order[j - 1]);
    }

    /** shift_list_prev: takes a node whose place has shrunk to the left. */
    method ShiftPrev(n: Node) returns (visited: seq<Node>)
      requires Valid() && n in order && pos[n] <= at[n]
      requires forall m | m in order && m != n && NotAfter(at, m, n) :: Agrees(n, m)
      modifies this`first, this`next, this`prev, this`order, this`at
      ensures Valid() && (forall m :: m in order <==> m in old(order)) && at == old(at)[n := pos[n]]
      ensures OthersKept(order, old(next), next) && OthersKept(order, old(prev), prev)
      ensures PassedLeft(old(order), old(at), at, n, visited)
    {
      ghost var k :| 0 <= k < |order| && order[k] == n;
      Follow(k);
      var before, after;
      ghost var j;
      visited, before, after, j := ScanPrev(prev[n], To(n), n, k);
      WentLeft(n, k, j, visited);
      FitsLeft(n, k, j);
      hide Linked;
      hide Sorted;
      hide NotAfter;
      hide PassedLeft;
      if visited == [] {
        at := at[n := pos[n]];
      } else {
        Relink(n, before, after, k, j);
      }
    }

    lemma WentLeft(n: Node, k: nat, j: nat, visited: seq<Node>)
      requires Valid() && j <= k < |order| && order[k] == n && n in pos
      requires forall m | m in order && m != n && NotAfter(at, m, n) :: Agrees(n, m)
      requires |visited| == k - j && forall m | 0 <= m < k - j :: visited[m] == order[k - 1 - m]
      requires forall m | j <= m < k :: Greater(order[m], n)
      requires j > 0 ==> !Greater(order[j - 1], n)
      ensures PassedLeft(order, at, at[n := pos[n]], n, visited)
    {
      var at' := at[n := pos[n]];
      forall i | 0 <= i < j
        ensures Comp(KeyOf(at', n), KeyOf(at', order[i])) >= 0
      {
        assert NotAfter(at, order[i], order[if i < j - 1 then j - 1 else k]) && order[i] in order && order[j - 1] in order;
      }
      forall m | m in order && m != n && !NotAfter(at, n, m) && Comp(KeyOf(at', n), KeyOf(at', m)) < 0
        ensures m in visited
      {
        var i :| 0 <= i < |order| && order[i] == m;
        assert j <= i < k && visited[k - 1 - i] == m;
      }
    }

    lemma FitsLeft(n: Node, k: nat, j: nat)
      requires Valid() && j <= k < |order| && order[k] == n && pos[n] <= at[n]
      requires forall m | m in order && m != n && NotAfter(at, m, n) :: Agrees(n, m)
      requires j < k ==> Greater(order[j], n)
      requires j > 0 ==> !Greater(order[j - 1], n)
      ensures j == k ==> Sorted(order, at[n := pos[n]])
      ensures var s := RemoveAt(order, k);
              && LinkAt(s, j - 1) == LinkAt(order, j - 1) && LinkAt(s, j) == LinkAt(order, if j == k then j + 1 else j)
              && (j > 0 ==> NotAfter(at[n := pos[n]], s[j - 1], n))
              && (j < k ==> NotAfter(at[n := pos[n]], n, s[j]))
    {
      assert j > 0 ==> order[j - 1] in order && NotAfter(at, order[j - 1], n);
      assert j < k ==> order[j] in order && NotAfter(at, order[j], n);
    }

    /** The first half of insert_visual_list: the right boundary goes in, from the entity outwards. */
    method InsertRight(self: Node, n: Node, ghost k: nat) returns (visited: seq<Node>)
      requires Valid() && k < |order| && order[k] == self && Loose(n) && Greater(n, self)
      requires forall m | m in order :: Settled(m)
      modifies this`first, this`next, this`prev, this`order, this`at
      ensures Valid() && (forall m :: m in order <==> m in old(order) || m == n) && at == old(at)[n := pos[n]]
      ensures k < |order| && order[..k + 1] == old(order)[..k + 1]
      ensures OthersKept(order, old(next), next) && OthersKept(order, old(prev), prev)
      ensures forall m :: m in visited <==> m in old(order)[k + 1..] && Greater(n, m)
      ensures NoDup(visited)
    {
      ghost var s := order;
      Follow(k);
      var before, after;
      ghost var j;
      visited, before, after, j := ScanNext(To(self), next[self], n, k + 1);
      FitsHere(n, j, k);
      MetRight(n, k, j);
      InsertedNode(s, j, n);
      hide Linked;
      hide Sorted;
      hide NoDup;
      PutBetween(before, n, after, j);
    }

    lemma MetRight(n: Node, k: nat, j: nat)
      requires Valid() && k < j <= |order| && (forall m | m in order :: Settled(m)) && n in pos
      requires forall m | k + 1 <= m < j :: Greater(n, order[m])
      requires j < |order| ==> !Greater(n, order[j])
      ensures forall m :: m in order[k + 1..j] <==> m in order[k + 1..] && Greater(n, m)
      ensures NoDup(order[k + 1..j])
    {
      forall i | j <= i < |order|
        ensures !Greater(n, order[i])
      {
        assert order[i] in order && order[j] in order && (i > j ==> NotAfter(at, order[j], order[i]));
      }
      forall m | m in order[k + 1..] && Greater(n, m)
        ensures m in order[k + 1..j]
      {
        var i :| k + 1 <= i < |order| && order[i] == m;
        assert order[k + 1..j][i - (k + 1)] == m;
      }
    }

    /** The second half: the left boundary. */
    method InsertLeft(self: Node, n: Node, ghost k: nat) returns (visited: seq<Node>)
      requires Valid() && k < |order| && order[k] == self && Loose(n) && Greater(self, n)
      requires forall m | m in order :: Settled(m)
      modifies this`first, this`next, this`prev, this`order, this`at
      ensures Valid() && (forall m :: m in order <==> m in old(order) || m == n) && at == old(at)[n := pos[n]]
      ensures OthersKept(order, old(next), next) && OthersKept(order, old(prev), prev)
      ensures forall m :: m in visited <==> m in old(order)[..k] && Greater(m, n)
      ensures NoDup(visited)
    {
      ghost var s := order;
      Follow(k);
      var before, after;
      ghost var j;
      visited, before, after, j := ScanPrev(prev[self], To(self), n, k);
      FitsThere(n, j, k);
      MetLeft(n, k, j, visited);
      InsertedNode(s, j, n);
      hide Linked;
      hide Sorted;
      hide NoDup;
      PutBetween(before, n, after, j);
    }

    lemma FitsThere(n: Node, j: nat, k: nat)
      requires n in pos && j <= k < |order| && Greater(order[k], n) && forall m | m in order :: Settled(m)
      requires j < k ==> Greater(order[j], n)
      requires j > 0 ==> !Greater(order[j - 1], n)
      ensures j > 0 ==> NotAfter(at[n := pos[n]], order[j - 1], n)
      ensures NotAfter(at[n := pos[n]], n, order[j])
    {
      assert j > 0 ==> order[j - 1] in order && Settled(order[j - 1]);
      assert order[j] in order && Settled(order[j]);
    }

    lemma MetLeft(n: Node, k: nat, j: nat, visited: seq<Node>)
      requires Valid() && j <= k < |order| && (forall m | m in order :: Settled(m)) && n in pos
      requires |visited| == k - j && forall m | 0 <= m < k - j :: visited[m] == order[k - 1 - m]
      requires forall m | j <= m < k :: Greater(order[m], n)
      requires j > 0 ==> !Greater(order[j - 1], n)
      ensures forall m :: m in visited <==> m in order[..k] && Greater(m, n)
      ensures NoDup(visited)
    {
      forall i | 0 <= i < j
        ensures !Greater(order[i], n)
      {
        assert order[i] in order && order[j - 1] in order && (i < j - 1 ==> NotAfter(at, order[i], order[j - 1]));
      }
      forall m | m in order[..k] && Greater(m, n)
        ensures m in visited
      {
        var i :| 0 <= i < k && order[i] == m;
        assert visited[k - 1 - i] == m;
      }
      forall m | m in visited
        ensures m in order[..k]
      {
        var i :| 0 <= i < |visited| && visited[i] == m;
        assert order[..k][k - 1 - i] == m;
      }
    }

    /** insert_visual_list: links the loose boundary nodes of an entity in. Returns the nodes passed. */
    method InsertVisual(id: Id) returns (visited: seq<Node>)
      requires Valid() && Node(id, Self) in order && Loose(Node(id, Next)) && Loose(Node(id, Prev))
      requires forall m | m in order :: Settled(m)
      requires Greater(Node(id, Next), Node(id, Self)) && Greater(Node(id, Self), Node(id, Prev))
      modifies this`first, this`next, this`prev, this`order, this`at
      ensures Valid() && forall m :: m in order <==> m in old(order) || m in {Node(id, Prev), Node(id, Next)}
      ensures at == old(at)[Node(id, Next) := pos[Node(id, Next)]][Node(id, Prev) := pos[Node(id, Prev)]]
      ensures OthersKept(order, old(next), next) && OthersKept(order, old(prev), prev)
      ensures NoDup(visited)
      ensures forall m :: m in visited <==>
                m in old(order) && m != Node(id, Self) && Greater(Node(id, Next), m) && Greater(m, Node(id, Prev))
    {
      var self, n, p := Node(id, Self), Node(id, Next), Node(id, Prev);
      ghost var k :| 0 <= k < |order| && order[k] == self;
      ghost var s, next0, prev0, at0 := order, next, prev, at;
      Aside(self, n, p, k);
      hide Linked;
      hide Sorted;
      hide NoDup;
      hide NotAfter;
      var right := InsertRight(self, n, k);
      ghost var next1, prev1, t := next, prev, order;
      SamePrefix(s, t, k);
      OthersThere(t, next0, next1);
      OthersThere(t, prev0, prev1);
      StillLoose(t, p, next0, next1);
      StillLoose(t, p, prev0, prev1);
      hide OthersKept;
      var left := InsertLeft(self, p, k);
      OthersTwice(order, p, t, next0, next1, next);
      OthersTwice(order, p, t, prev0, prev1, prev);
      visited := right + left;
      BothSides(s, k, right, left);
    }

    lemma SamePrefix(s: seq<Node>, t: seq<Node>, k: nat)
      requires k < |s| && k < |t| && s[..k + 1] == t[..k + 1]
      ensures s[..k] == t[..k] && s[k] == t[k]
    {
      assert s[..k] == s[..k + 1][..k] && t[..k] == t[..k + 1][..k];
      assert s[k] == s[..k + 1][k] && t[k] == t[..k + 1][k];
    }

    lemma StillLoose(s: seq<Node>, n: Node, links: map<Node, Link>, links': map<Node, Link>)
      requires OthersKept(s, links, links') && n in links && n !in s
      ensures n in links' && links'[n] == links[n]
    {
    }

    /** To the right of an entity nothing is less than it, so nothing is less than its left boundary; and so on. */
    lemma Aside(self: Node, n: Node, p: Node, k: nat)
      requires Valid() && k < |order| && order[k] == self && (forall m | m in order :: Settled(m))
      requires Greater(n, self) && Greater(self, p)
      ensures forall m | m in order[k + 1..] :: m in order && m != self && Greater(m, p)
      ensures forall m | m in order[..k] :: m in order && m != self && Greater(n, m)
      ensures forall m | m in order && m != self :: m in order[k + 1..] || m in order[..k]
    {
      forall m | m in order[k + 1..]
        ensures m in order && m != self && Greater(m, p)
      {
        var i :| k + 1 <= i < |order| && order[i] == m;
        assert NotAfter(at, self, m) && Settled(m) && Settled(self);
      }
      forall m | m in order[..k]
        ensures m in order && m != self && Greater(n, m)
      {
        var i :| 0 <= i < k && order[i] == m;
        assert NotAfter(at, m, self) && Settled(m) && Settled(self);
      }
    }

    lemma OneSide(s: seq<Node>, k: nat, a: Node, b: Node)
      requires NoDup(s) && k < |s| && a in s[k + 1..] && b in s[..k]
      ensures a != b
    {
      var i :| k + 1 <= i < |s| && s[i] == a;
      var j :| 0 <= j < k && s[j] == b;
    }

    lemma BothSides(s: seq<Node>, k: nat, right: seq<Node>, left: seq<Node>)
      requires NoDup(s) && k < |s| && NoDup(right) && NoDup(left)
      requires (forall m | m in right :: m in s[k + 1..]) && forall m | m in left :: m in s[..k]
      ensures NoDup(right + left)
    {
      var v := right + left;
      forall i, j | 0 <= i < j < |v|
        ensures v[i] != v[j]
      {
        if i < |right| <= j {
          assert right[i] in right && left[j - |right|] in left;
          OneSide(s, k, right[i], left[j - |right|]);
        }
      }
    }

    /** To the left of place k only boundary nodes may have other places than the list has, none of them below lo. */
    ghost predicate LeftAsIs(lo: int, k: nat)
      requires k < |order| && forall m | m in order :: m in pos
      reads this`pos, this`at, this`order
    {
      forall i | 0 <= i < k :: Settled(order[i]) || (order[i].kind != Self && pos[order[i]] >= lo)
    }

    ghost predicate RightAsIs(hi: int, k: nat)
      requires k < |order| && forall m | m in order :: m in pos
      reads this`pos, this`at, this`order
    {
      forall i | k < i < |order| :: Settled(order[i]) || (order[i].kind != Self && pos[order[i]] <= hi)
    }

    /** Exactly the entities to the left of place k, as far as lo. */
    ghost predicate SeenLeft(lo: int, k: nat, visited: seq<Id>)
      reads this`pos, this`order
    {
      && k < |order| && NoDup(visited) && (forall m | m in order[..k] :: m in pos)
      && forall o :: o in visited <==> Node(o, Self) in order[..k] && pos[Node(o, Self)] >= lo
    }

    /** Exactly those to the right, as far as hi. */
    ghost predicate SeenRight(hi: int, k: nat, visited: seq<Id>)
      reads this`pos, this`order
    {
      && k < |order| && NoDup(visited) && (forall m | m in order[k + 1..] :: m in pos)
      && forall o :: o in visited <==> Node(o, Self) in order[k + 1..] && pos[Node(o, Self)] <= hi
    }

    /** Where a walk to the left has got to: it has met the entities from place i on, all of them as far as lo. */
    ghost predicate WalkedLeft(lo: int, k: nat, i: nat, visited: seq<Id>)
      reads this`pos, this`order
    {
      && i <= k < |order| && EntitiesOf(order[i..k], visited)
      && forall j | i <= j < k :: order[j] in pos && pos[order[j]] >= lo
    }

    lemma StepLeft(lo: int, k: nat, i: nat, visited: seq<Id>)
      requires Valid() && WalkedLeft(lo, k, i, visited) && LinkAt(order, i - 1).To?
      requires LinkAt(order, i - 1).node in pos && pos[LinkAt(order, i - 1).node] >= lo
      ensures i > 0 && WalkedLeft(lo, k, i - 1, Meet(visited, LinkAt(order, i - 1).node))
    {
      OneLeft(order, i, k, visited);
      hide EntitiesOf;
      hide NoDup;
    }

    /** One half of each_range_entity: the entities to the left of place k, as far as lo. The walk does not stop at a
        boundary node that has been given a place within the range. */
    method WalkLeft(lo: int, before: Link, ghost k: nat) returns (visited: seq<Id>)
      requires Valid() && k < |order| && before == LinkAt(order, k - 1)
      requires LeftAsIs(lo, k)
      ensures SeenLeft(lo, k, visited)
    {
      visited := [];
      var l := before;
      ghost var i: nat := k;
      KnownAt(k - 1);
      WalkStarts(lo, k);
      hide Valid;
      hide NoDup;
      hide EntitiesOf;
      hide LeftAsIs;
      hide WalkedLeft;
      hide SeenLeft;
      hide LinkAt;
      hide Meet;
      while l != Null && pos[l.node] >= lo
        invariant l == LinkAt(order, i - 1) && (l.To? ==> l.node in pos) && WalkedLeft(lo, k, i, visited)
        decreases i
      {
        Beyond(i - 1);
        StepLeft(lo, k, i, visited);
        visited := Meet(visited, l.node);
        l := prev[l.node];
        i := i - 1;
      }
      AllLeft(lo, k, i, visited);
    }

    lemma WalkStarts(lo: int, k: nat)
      requires k < |order|
      ensures WalkedLeft(lo, k, k, []) && WalkedRight(lo, k, k + 1, [])
    {
      NoEntities(order, k);
      NoEntities(order, k + 1);
    }

    lemma KnownAt(i: int)
      requires Valid()
      ensures NoDup(order) && (LinkAt(order, i).To? ==> LinkAt(order, i).node in pos)
    {
      assert 0 <= i < |order| ==> order[i] in order;
    }

    lemma AllLeft(lo: int, k: nat, i: nat, visited: seq<Id>)
      requires Valid() && k < |order| && LeftAsIs(lo, k) && WalkedLeft(lo, k, i, visited)
      requires LinkAt(order, i - 1).To? ==> LinkAt(order, i - 1).node in pos && pos[LinkAt(order, i - 1).node] < lo
      ensures SeenLeft(lo, k, visited)
    {
      OnlyLeft(lo, k, i);
      forall o
        ensures o in visited <==> Node(o, Self) in order[..k] && pos[Node(o, Self)] >= lo
      {
        assert o in visited <==> Node(o, Self) in order[i..k];
      }
    }

    lemma OnlyLeft(lo: int, k: nat, i: nat)
      requires Valid() && i <= k < |order|
      requires LeftAsIs(lo, k)
      requires forall j | i <= j < k :: order[j] in pos && pos[order[j]] >= lo
      requires i > 0 ==> order[i - 1] in pos && pos[order[i - 1]] < lo
      ensures forall m: Node :: m.kind == Self ==> (m in order[i..k] <==> m in order[..k] && m in pos && pos[m] >= lo)
    {
      forall j | 0 <= j < i && order[j].kind == Self
        ensures pos[order[j]] < lo
      {
        assert order[j] in order && order[i - 1] in order && (j < i - 1 ==> NotAfter(at, order[j], order[i - 1]));
      }
      forall m | m in order[..k] && pos[m] >= lo && m.kind == Self
        ensures m in order[i..k]
      {
        var j :| 0 <= j < k && order[j] == m;
        assert order[i..k][j - i] == m;
      }
    }

    /** Where a walk to the right has got to. */
    ghost predicate WalkedRight(hi: int, k: nat, i: nat, visited: seq<Id>)
      reads this`pos, this`order
    {
      && k < i <= |order| && EntitiesOf(order[k + 1..i], visited)
      && forall j | k < j < i :: order[j] in pos && pos[order[j]] <= hi
    }

    lemma StepRight(hi: int, k: nat, i: nat, visited: seq<Id>)
      requires Valid() && WalkedRight(hi, k, i, visited) && LinkAt(order, i).To?
      requires LinkAt(order, i).node in pos && pos[LinkAt(order, i).node] <= hi
      ensures i < |order| && WalkedRight(hi, k, i + 1, Meet(visited, LinkAt(order, i).node))
    {
      OneRight(order, k, i, visited);
      hide EntitiesOf;
      hide NoDup;
    }

    /** The other half. */
    method WalkRight(hi: int, after: Link, ghost k: nat) returns (visited: seq<Id>)
      requires Valid() && k < |order| && after == LinkAt(order, k + 1)
      requires RightAsIs(hi, k)
      ensures SeenRight(hi, k, visited)
    {
      visited := [];
      var l := after;
      ghost var i: nat := k + 1;
      KnownAt(k + 1);
      WalkStarts(hi, k);
      hide Valid;
      hide NoDup;
      hide EntitiesOf;
      hide RightAsIs;
      hide WalkedRight;
      hide SeenRight;
      hide LinkAt;
      hide Meet;
      while l != Null && pos[l.node] <= hi
        invariant l == LinkAt(order, i) && (l.To? ==> l.node in pos) && WalkedRight(hi, k, i, visited)
        decreases |order| - i
      {
        Beyond(i);
        StepRight(hi, k, i, visited);
        visited := Meet(visited, l.node);
        l := next[l.node];
        i := i + 1;
      }
      AllRight(hi, k, i, visited);
    }

    lemma AllRight(hi: int, k: nat, i: nat, visited: seq<Id>)
      requires Valid() && k < |order| && RightAsIs(hi, k) && WalkedRight(hi, k, i, visited)
      requires LinkAt(order, i).To? ==> LinkAt(order, i).node in pos && pos[LinkAt(order, i).node] > hi
      ensures SeenRight(hi, k, visited)
    {
      OnlyRight(hi, k, i);
      forall o
        ensures o in visited <==> Node(o, Self) in order[k + 1..] && pos[Node(o, Self)] <= hi
      {
        assert o in visited <==> Node(o, Self) in order[k + 1..i];
      }
    }

    lemma OnlyRight(hi: int, k: nat, i: nat)
      requires Valid() && k < i <= |order|
      requires RightAsIs(hi, k)
      requires forall j | k < j < i :: order[j] in pos && pos[order[j]] <= hi
      requires i < |order| ==> order[i] in pos && pos[order[i]] > hi
      ensures forall m: Node :: m.kind == Self ==> (m in order[k + 1..i] <==> m in order[k + 1..] && m in pos && pos[m] <= hi)
    {
      forall j | i <= j < |order| && order[j].kind == Self
        ensures pos[order[j]] > hi
      {
        assert order[j] in order && order[i] in order && (j > i ==> NotAfter(at, order[i], order[j]));
      }
      forall m | m in order[k + 1..] && pos[m] <= hi && m.kind == Self
        ensures m in order[k + 1..i]
      {
        var j :| k + 1 <= j < |order| && order[j] == m;
        assert order[k + 1..i][j - (k + 1)] == m;
      }
    }

    /** each_range_entity: the entities, other than the one given, whose place is from lo to hi. */
    method EachRange(id: Id, visual: int) returns (visited: seq<Id>)
      requires Valid() && Node(id, Self) in order && visual >= 0
      requires forall m | m in order && (m.id != id || m.kind == Self) :: Settled(m)
      requires Node(id, Prev) in order ==> pos[Node(id, Prev)] >= pos[Node(id, Self)] - visual && at[Node(id, Prev)] < at[Node(id, Self)]
      requires Node(id, Next) in order ==> pos[Node(id, Next)] <= pos[Node(id, Self)] + visual && at[Node(id, Next)] > at[Node(id, Self)]
      ensures NoDup(visited)
      ensures forall o :: o in visited <==>
                o != id && Node(o, Self) in order && -visual <= pos[Node(o, Self)] - pos[Node(id, Self)] <= visual
    {
      var self := Node(id, Self);
      ghost var k :| 0 <= k < |order| && order[k] == self;
      Follow(k);
      Sides(id, k);
      hide Linked;
      hide Sorted;
      var left := WalkLeft(pos[self] - visual, prev[self], k);
      var right := WalkRight(pos[self] + visual, next[self], k);
      visited := left + right;
      Joined(left, right);
    }

    /** What is to the left and to the right of an entity. */
    lemma Sides(id: Id, k: nat)
      requires Valid() && k < |order| && order[k] == Node(id, Self)
      requires forall m | m in order && (m.id != id || m.kind == Self) :: Settled(m)
      requires Node(id, Prev) in order ==> at[Node(id, Prev)] < at[Node(id, Self)]
      requires Node(id, Next) in order ==> at[Node(id, Next)] > at[Node(id, Self)]
      ensures forall i | 0 <= i < k :: order[i] in pos && (Settled(order[i]) || order[i] == Node(id, Prev))
      ensures forall i | k < i < |order| :: order[i] in pos && (Settled(order[i]) || order[i] == Node(id, Next))
      ensures forall o :: Node(o, Self) in order[..k] ==>
                o != id && Node(o, Self) in order && pos[Node(o, Self)] <= pos[Node(id, Self)] && Node(o, Self) !in order[k + 1..]
      ensures forall o :: Node(o, Self) in order[k + 1..] ==>
                o != id && Node(o, Self) in order && pos[Node(o, Self)] >= pos[Node(id, Self)]
      ensures forall m :: m in order && m != order[k] ==> m in order[..k] || m in order[k + 1..]
    {
      forall i | 0 <= i < |order|
        ensures i < k ==> NotAfter(at, order[i], order[k]) && order[i] != order[k]
        ensures i > k ==> NotAfter(at, order[k], order[i]) && order[i] != order[k]
        ensures order[i] in order
      {
      }
      forall o | Node(o, Self) in order[..k]
        ensures o != id && Node(o, Self) in order && pos[Node(o, Self)] <= pos[Node(id, Self)] && Node(o, Self) !in order[k + 1..]
      {
        var i :| 0 <= i < k && order[i] == Node(o, Self);
        OnePlace(order, i);
      }
      forall o | Node(o, Self) in order[k + 1..]
        ensures o != id && Node(o, Self) in order && pos[Node(o, Self)] >= pos[Node(id, Self)]
      {
        var i :| k < i < |order| && order[i] == Node(o, Self);
      }
    }

    /** insert_list, and what it leaves as it was. */
    method InsertNode(start: Link, n: Node, ghost j: nat) returns (visited: seq<Node>, ghost k: nat)
      requires Valid() && Loose(n) && j <= |order| && start == LinkAt(order, j) && (start == Null ==> order == [])
      requires forall m | m in order :: Settled(m)
      requires j > 0 ==> start.To? && Greater(n, start.node)
      modifies this`first, this`next, this`prev, this`order, this`at
      ensures Valid() && j <= k <= |old(order)| && order == InsertAt(old(order), k, n)
      ensures (forall m :: m in order <==> m in old(order) || m == n) && forall m | m in order :: Settled(m)
      ensures forall m | m != n && old(Loose(m)) :: Loose(m)
      ensures visited == old(order)[j..k] && forall m | m in visited :: Greater(n, m)
      ensures k < |old(order)| ==> !Greater(n, old(order)[k])
    {
      ghost var s := order;
      hide Linked;
      hide Sorted;
      visited, k := InsertList(start, n, j);
      InsertedNode(s, k, n);
    }

    /** insert_entity: the left boundary, the entity and the right boundary go in, each from the one before on; or the
        entity alone. Returns the nodes passed. */
    method InsertEntity(id: Id, has: bool) returns (visited: seq<Node>)
      requires Valid() && Loose(Node(id, Self)) && forall m | m in order :: Settled(m)
      requires has ==> Loose(Node(id, Prev)) && Loose(Node(id, Next))
      requires has ==> Greater(Node(id, Self), Node(id, Prev)) && Greater(Node(id, Next), Node(id, Self))
      modifies this`first, this`next, this`prev, this`order, this`at
      ensures Valid() && forall m :: m in order <==> m in old(order) || m == Node(id, Self) || (has && m.id == id)
      ensures forall m | m in order :: Settled(m)
      ensures forall m: Node | m.id != id && old(Loose(m)) :: Loose(m)
      ensures !has ==> forall m: Node | m.kind != Self && old(Loose(m)) :: Loose(m)
      ensures NoDup(visited)
      ensures forall m :: m in visited <==> m in order && Greater(Node(id, if has then Next else Self), m)
    {
      if has {
        visited := InsertThree(id);
      } else {
        ghost var k;
        ghost var s := order;
        assert first == LinkAt(order, 0);
        visited, k := InsertNode(first, Node(id, Self), 0);
        Met(s, Node(id, Self), k);
      }
    }

    method InsertThree(id: Id) returns (visited: seq<Node>)
      requires Valid() && Loose(Node(id, Self)) && forall m | m in order :: Settled(m)
      requires Loose(Node(id, Prev)) && Loose(Node(id, Next))
      requires Greater(Node(id, Self), Node(id, Prev)) && Greater(Node(id, Next), Node(id, Self))
      modifies this`first, this`next, this`prev, this`order, this`at
      ensures Valid() && forall m :: m in order <==> m in old(order) || m.id == id
      ensures forall m | m in order :: Settled(m)
      ensures forall m: Node | m.id != id && old(Loose(m)) :: Loose(m)
      ensures NoDup(visited)
      ensures forall m :: m in visited <==> m in order && Greater(Node(id, Next), m)
    {
      var self, n, p := Node(id, Self), Node(id, Next), Node(id, Prev);
      ghost var s0 := order;
      assert first == LinkAt(order, 0);
      hide Valid;
      hide Linked;
      hide Sorted;
      hide InsertAt;
      hide NoDup;
      hide Greater;
      hide Settled;
      hide Loose;
      ghost var k, j, l;
      var left, middle, right;
      left, j := InsertNode(first, p, 0);
      ghost var s1 := order;
      InsertedThere(s0, j, p);
      middle, k := InsertNode(To(p), self, j);
      ghost var s2 := order;
      InsertedThere(s1, k, self);
      right, l := InsertNode(To(self), n, k);
      Chain(s0, j, p, k);
      Chain(s1, k, self, l);
      visited := left + middle + right;
      Less3(p, self, n, left, middle);
      Met(s2, n, l);
      ThreeKinds(id);
    }

    lemma ThreeKinds(id: Id)
      ensures forall m: Node :: m.id == id <==> m == Node(id, Prev) || m == Node(id, Self) || m == Node(id, Next)
    {
      forall m: Node | m.id == id
        ensures m == Node(id, Prev) || m == Node(id, Self) || m == Node(id, Next)
      {
        match m.kind {
          case Prev => assert m == Node(id, Prev);
          case Self => assert m == Node(id, Self);
          case Next => assert m == Node(id, Next);
        }
      }
    }

    lemma InsertedThere(s: seq<Node>, k: nat, n: Node)
      requires k <= |s|
      ensures |InsertAt(s, k, n)| == |s| + 1 && LinkAt(InsertAt(s, k, n), k) == To(n)
    {
    }

    /** The nodes before one put in at j, and from there to k, are those up to k. */
    lemma Chain(s: seq<Node>, j: nat, n: Node, k: nat)
      requires j <= |s| && j <= k <= |InsertAt(s, j, n)|
      ensures s[..j] + InsertAt(s, j, n)[j..k] == InsertAt(s, j, n)[..k]
    {
    }

    lemma Less3(p: Node, self: Node, n: Node, left: seq<Node>, middle: seq<Node>)
      requires Greater(self, p) && Greater(n, self)
      requires (forall m | m in left :: Greater(p, m)) && forall m | m in middle :: Greater(self, m)
      ensures forall m | m in left + middle :: Greater(n, m)
    {
    }

    /** What a node has passed that has been linked in from the front of the list. */
    lemma Met(s: seq<Node>, n: Node, k: nat)
      requires Valid() && k <= |s| && order == InsertAt(s, k, n) && forall m | m in order :: Settled(m)
      requires (forall m | m in s[..k] :: Greater(n, m)) && (k < |s| ==> !Greater(n, s[k]))
      ensures NoDup(s[..k]) && forall m :: m in s[..k] <==> m in order && Greater(n, m)
    {
      assert forall i | 0 <= i < k :: s[..k][i] == order[i];
      assert k < |s| ==> order[k + 1] == s[k];
      forall i | k <= i < |order|
        ensures !Greater(n, order[i])
      {
        assert order[i] in order && order[k] == n;
        if i > k {
          assert order[k + 1] in order && (i > k + 1 ==> NotAfter(at, order[k + 1], order[i]));
        }
      }
      forall m | m in order && Greater(n, m)
        ensures m in s[..k]
      {
        var i :| 0 <= i < |order| && order[i] == m;
        assert s[..k][i] == m;
      }
    }
  }
}
