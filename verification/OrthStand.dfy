/**
 * What an axis list (engine/src/scene/orth_list_aoi.cpp) holds of a scene: exactly the nodes of the entities that are
 * in it, with boundary nodes for those that have a view, each at its place.
 */
module OrthStands {
  import opened IdLists
  import opened Sequences
  import opened OrthAxes

  // What one axis has of an entity: its place, its range, and whether its boundary nodes are in the list.
  datatype Span = Span(at: int, visual: int, shown: bool)

  type Spans = map<Id, Span>

  function PlaceOf(s: Span, k: Kind): int {
    match k
    case Prev => s.at - s.visual
    case Self => s.at
    case Next => s.at + s.visual
  }

  predicate Belongs(who: Spans, n: Node) { n.id in who && (n.kind == Self || who[n.id].shown) }

  ghost predicate Stands(l: AxisList, who: Spans)
    reads l
  {
    && l.Valid()
    && (forall n :: n in l.order <==> Belongs(who, n))
    && (forall n | n in l.order :: l.Settled(n) && Belongs(who, n) && l.pos[n] == PlaceOf(who[n.id], n.kind))
    && (forall n: Node | n.id in who && n !in l.order :: l.Loose(n))
    && forall o | o in who && who[o].shown :: who[o].visual > 0
  }

  /** Whether m is before n by place and kind. */
  predicate Before(who: Spans, m: Node, n: Node) {
    && m.id in who && n.id in who
    && Comp(Key(PlaceOf(who[n.id], n.kind), Rank(n.kind)), Key(PlaceOf(who[m.id], m.kind), Rank(m.kind))) > 0
  }

  /** update_pos: the nodes of an entity get new places. */
  method Place(l: AxisList, id: Id, at: int, visual: int)
    requires l.Valid()
    modifies l`pos
    ensures l.Valid() && l.pos == old(l.pos)[Node(id, Self) := at][Node(id, Prev) := at - visual][Node(id, Next) := at + visual]
    ensures forall m | old(l.Loose(m)) :: l.Loose(m)
    ensures forall m: Node | m.id != id && old(l.Settled(m)) :: l.Settled(m)
  {
    l.SetPos(Node(id, Self), at);
    l.SetPos(Node(id, Prev), at - visual);
    l.SetPos(Node(id, Next), at + visual);
  }

  /** reset of a node that is in no list. */
  method Reset(l: AxisList, n: Node)
    requires l.Valid() && n !in l.order
    modifies l`pos, l`next, l`prev
    ensures l.Valid() && l.Loose(n)
    ensures forall m | m == n || old(l.Loose(m)) :: l.Loose(m)
    ensures forall m | m != n && old(l.Settled(m)) :: l.Settled(m) && l.pos[m] == old(l.pos)[m]
  {
    l.SetPos(n, 0);
    l.Unlink(n);
  }

  /** The nodes of an entity that is about to go into the list. */
  ghost predicate Ready(l: AxisList, id: Id, s: Span)
    reads l
  {
    ReadyNode(l, id, s, Self) && ReadyNode(l, id, s, Prev) && ReadyNode(l, id, s, Next)
  }

  ghost predicate ReadyNode(l: AxisList, id: Id, s: Span, k: Kind)
    reads l
  {
    l.Loose(Node(id, k)) && l.pos[Node(id, k)] == PlaceOf(s, k)
  }

  method Prepare(l: AxisList, id: Id, s: Span, ghost who: Spans)
    requires Stands(l, who) && id !in who
    modifies l`pos, l`next, l`prev
    ensures Stands(l, who) && Ready(l, id, s)
  {
    ResetAll(l, id, who);
    hide Linked;
    hide Sorted;
    Place(l, id, s.at, s.visual);
  }

  method ResetAll(l: AxisList, id: Id, ghost who: Spans)
    requires Stands(l, who) && id !in who
    modifies l`pos, l`next, l`prev
    ensures Stands(l, who) && forall k: Kind :: l.Loose(Node(id, k))
  {
    ResetOne(l, id, Self, who);
    ResetOne(l, id, Prev, who);
    ResetOne(l, id, Next, who);
    hide Stands;
    AllKinds(l, id);
  }

  lemma AllKinds(l: AxisList, id: Id)
    requires l.Loose(Node(id, Self)) && l.Loose(Node(id, Prev)) && l.Loose(Node(id, Next))
    ensures forall k: Kind :: l.Loose(Node(id, k))
  {
    forall k: Kind
      ensures l.Loose(Node(id, k))
    {
      match k {
        case Prev =>
        case Self =>
        case Next =>
      }
    }
  }

  method ResetOne(l: AxisList, id: Id, k: Kind, ghost who: Spans)
    requires Stands(l, who) && id !in who
    modifies l`pos, l`next, l`prev
    ensures Stands(l, who) && l.Loose(Node(id, k)) && forall n | old(l.Loose(n)) :: l.Loose(n)
  {
    hide Linked;
    hide Sorted;
    Reset(l, Node(id, k));
  }

  /** A new entity goes into the list. Returns the nodes passed: those before the last one that has gone in. */
  method EnterList(l: AxisList, id: Id, s: Span, ghost who: Spans) returns (visited: seq<Node>)
    requires Stands(l, who) && id !in who && (s.shown ==> s.visual > 0)
    modifies l
    ensures Stands(l, who[id := s]) && NoDup(visited)
    ensures forall m :: m in visited <==> Belongs(who[id := s], m) && Before(who[id := s], m, Node(id, if s.shown then Next else Self))
  {
    Prepare(l, id, s, who);
    ghost var order0 := l.order;
    hide Linked;
    hide Sorted;
    hide NoDup;
    visited := l.InsertEntity(id, s.shown);
    Entered(l, who, id, s, order0);
  }

  lemma Entered(l: AxisList, who: Spans, id: Id, s: Span, order0: seq<Node>)
    requires l.Valid() && id !in who && (s.shown ==> s.visual > 0)
    requires forall n :: n in order0 <==> Belongs(who, n)
    requires forall n :: n in l.order <==> n in order0 || n == Node(id, Self) || (s.shown && n.id == id)
    requires forall n | n in l.order :: l.Settled(n)
    requires forall n | n in order0 :: n.id in who && l.pos[n] == PlaceOf(who[n.id], n.kind)
    requires forall k: Kind :: Node(id, k) in l.pos && l.pos[Node(id, k)] == PlaceOf(s, k)
    requires forall n: Node | n.id in who && n !in order0 :: l.Loose(n)
    requires !s.shown ==> l.Loose(Node(id, Prev)) && l.Loose(Node(id, Next))
    requires forall o | o in who && who[o].shown :: who[o].visual > 0
    ensures Stands(l, who[id := s])
  {
    l.ThreeKinds(id);
  }

  /** remove_entity: an entity goes out of the list. */
  method LeaveList(l: AxisList, id: Id, has: bool, ghost who: Spans)
    requires Stands(l, who) && id in who && has == who[id].shown
    modifies l
    ensures Stands(l, who - {id})
  {
    hide Linked;
    hide Sorted;
    l.ThreeKinds(id);
    if has {
      l.TakeOut(Node(id, Next));
    }
    l.TakeOut(Node(id, Self));
    if has {
      l.TakeOut(Node(id, Prev));
    }
  }

  // ---- nodes that move

  /** Whether a node of one kind at p is past one of another kind at q. */
  predicate Past(k: Kind, p: int, k': Kind, q: int) { Comp(Key(p, Rank(k)), Key(q, Rank(k'))) > 0 }

  /** In the middle of a change of an entity to s: the nodes of the kinds in done have been shifted. */
  ghost predicate Shifting(l: AxisList, who: Spans, id: Id, s: Span, done: set<Kind>)
    requires id in who
    reads l
  {
    && l.Valid() && s.shown == who[id].shown
    && (forall n :: n in l.order <==> Belongs(who, n))
    && (forall n: Node | n in l.order :: Belongs(who, n))
    && (forall n: Node | n in l.order && n.id != id :: l.Settled(n) && l.pos[n] == PlaceOf(who[n.id], n.kind))
    && (forall n: Node | n in l.order && n.id == id ::
          n in l.pos && n in l.at && l.pos[n] == PlaceOf(s, n.kind) && l.at[n] == PlaceOf(if n.kind in done then s else who[id], n.kind))
    && (forall n: Node | n.id in who && n !in l.order :: l.Loose(n))
    && forall o | o in who && who[o].shown :: who[o].visual > 0
  }

  /** The other nodes of the entity are not in the way of the one of kind k that goes from p to q. */
  predicate Clear(old': int, new': int, p: int, q: int) {
    if p <= q then old' < p || (old' > q && new' > q) else old' > p || (old' < q && new' < q)
  }

  ghost predicate AllClear(who: Spans, id: Id, s: Span, done: set<Kind>, k: Kind)
    requires id in who
  {
    forall k' | k' != k && Belongs(who, Node(id, k')) ::
      Clear(PlaceOf(if k' in done then s else who[id], k'), PlaceOf(s, k'), PlaceOf(who[id], k), PlaceOf(s, k))
  }

  /** The node of kind k passes n when the entity changes to s. */
  ghost predicate Crossed(who: Spans, id: Id, s: Span, k: Kind, n: Node)
    requires id in who && n.id in who
  {
    var q := PlaceOf(who[n.id], n.kind);
    Past(k, PlaceOf(s, k), n.kind, q) != Past(k, PlaceOf(who[id], k), n.kind, q)
  }

  /** The nodes that one of kind k has passed: none of its own entity; of those on whose side it is that matters, the
      entities for a boundary and the boundaries for an entity, exactly those it is now on the other side of. */
  ghost predicate Crossings(who: Spans, id: Id, s: Span, k: Kind, visited: seq<Node>)
    requires id in who
  {
    && NoDup(visited)
    && (forall n: Node | n in visited :: n.id != id && Belongs(who, n))
    && forall n: Node | Belongs(who, n) && n.id != id && (n.kind == Self) != (k == Self) :: n in visited <==> Crossed(who, id, s, k, n)
  }

  method StepNext(l: AxisList, id: Id, k: Kind, ghost who: Spans, ghost s: Span, ghost done: set<Kind>) returns (visited: seq<Node>)
    requires id in who && Shifting(l, who, id, s, done) && Belongs(who, Node(id, k)) && k !in done
    requires PlaceOf(s, k) >= PlaceOf(who[id], k) && AllClear(who, id, s, done, k)
    modifies l
    ensures Shifting(l, who, id, s, done + {k}) && Crossings(who, id, s, k, visited)
  {
    hide Linked;
    hide Sorted;
    hide NoDup;
    hide PassedRight;
    ghost var order0, at0 := l.order, l.at;
    NothingInTheWay(l, who, id, s, done, k);
    visited := l.ShiftNext(Node(id, k));
    CrossedRight(who, id, s, done, k, order0, at0, l.at, visited);
  }

  lemma NothingInTheWay(l: AxisList, who: Spans, id: Id, s: Span, done: set<Kind>, k: Kind)
    requires id in who && Shifting(l, who, id, s, done) && Belongs(who, Node(id, k)) && k !in done
    requires AllClear(who, id, s, done, k)
    ensures PlaceOf(s, k) >= PlaceOf(who[id], k) ==>
              forall m | m in l.order && m != Node(id, k) && NotAfter(l.at, Node(id, k), m) :: l.Agrees(Node(id, k), m)
    ensures PlaceOf(s, k) < PlaceOf(who[id], k) ==>
              forall m | m in l.order && m != Node(id, k) && NotAfter(l.at, m, Node(id, k)) :: l.Agrees(Node(id, k), m)
  {
    forall m: Node | m in l.order && m != Node(id, k) && m.id == id
      ensures Clear(l.at[m], PlaceOf(s, m.kind), PlaceOf(who[id], k), PlaceOf(s, k))
    {
      assert m == Node(id, m.kind) && Belongs(who, Node(id, m.kind));
    }
  }

  lemma CrossedRight(who: Spans, id: Id, s: Span, done: set<Kind>, k: Kind, order: seq<Node>, at: map<Node, int>, at': map<Node, int>,
                     visited: seq<Node>)
    requires id in who && Belongs(who, Node(id, k)) && k !in done && AllClear(who, id, s, done, k)
    requires (forall n :: n in order <==> Belongs(who, n)) && forall n | n in order :: n in at && n in at'
    requires forall n: Node | n in order && n.id != id :: n.id in who && at[n] == PlaceOf(who[n.id], n.kind)
    requires forall n: Node | n in order && n.id == id :: at[n] == PlaceOf(if n.kind in done then s else who[id], n.kind)
    requires at' == at[Node(id, k) := PlaceOf(s, k)] && PlaceOf(s, k) >= PlaceOf(who[id], k)
    requires PassedRight(order, at, at', Node(id, k), visited)
    ensures Crossings(who, id, s, k, visited)
  {
    hide NoDup;
    forall n: Node | n in visited
      ensures n.id != id && Belongs(who, n)
    {
      assert n == Node(n.id, n.kind);
      assert n.id == id ==> Clear(at[n], PlaceOf(s, n.kind), PlaceOf(who[id], k), PlaceOf(s, k));
    }
  }

  method StepPrev(l: AxisList, id: Id, k: Kind, ghost who: Spans, ghost s: Span, ghost done: set<Kind>) returns (visited: seq<Node>)
    requires id in who && Shifting(l, who, id, s, done) && Belongs(who, Node(id, k)) && k !in done
    requires PlaceOf(s, k) < PlaceOf(who[id], k) && AllClear(who, id, s, done, k)
    modifies l
    ensures Shifting(l, who, id, s, done + {k}) && Crossings(who, id, s, k, visited)
  {
    hide Linked;
    hide Sorted;
    hide NoDup;
    hide PassedLeft;
    ghost var order0, at0 := l.order, l.at;
    NothingInTheWay(l, who, id, s, done, k);
    visited := l.ShiftPrev(Node(id, k));
    CrossedLeft(who, id, s, done, k, order0, at0, l.at, visited);
  }

  lemma CrossedLeft(who: Spans, id: Id, s: Span, done: set<Kind>, k: Kind, order: seq<Node>, at: map<Node, int>, at': map<Node, int>,
                    visited: seq<Node>)
    requires id in who && Belongs(who, Node(id, k)) && k !in done && AllClear(who, id, s, done, k)
    requires (forall n :: n in order <==> Belongs(who, n)) && forall n | n in order :: n in at && n in at'
    requires forall n: Node | n in order && n.id != id :: n.id in who && at[n] == PlaceOf(who[n.id], n.kind)
    requires forall n: Node | n in order && n.id == id :: at[n] == PlaceOf(if n.kind in done then s else who[id], n.kind)
    requires at' == at[Node(id, k) := PlaceOf(s, k)] && PlaceOf(s, k) <= PlaceOf(who[id], k)
    requires PassedLeft(order, at, at', Node(id, k), visited)
    ensures Crossings(who, id, s, k, visited)
  {
    hide NoDup;
    forall n: Node | n in visited
      ensures n.id != id && Belongs(who, n)
    {
      assert n == Node(n.id, n.kind);
      assert n.id == id ==> Clear(at[n], PlaceOf(s, n.kind), PlaceOf(who[id], k), PlaceOf(s, k));
    }
  }

  // A node that another has passed: what kind of node of its entity the other one is, and which way it went.
  datatype Crossing = Crossing(mover: Kind, toward: Kind, node: Node)

  /** Exactly the nodes that an entity's nodes pass as it changes to s, without those of its own. */
  ghost predicate AllCrossings(who: Spans, id: Id, s: Span, crossings: seq<Crossing>)
    requires id in who
  {
    && NoDup(crossings)
    && (forall c | c in crossings :: c.toward == if s.at > who[id].at then Next else Prev)
    && (forall c | c in crossings :: c.node.id != id && Belongs(who, c.node) && Belongs(who, Node(id, c.mover)))
    && forall k: Kind, n: Node | Belongs(who, Node(id, k)) && Belongs(who, n) && n.id != id && (n.kind == Self) != (k == Self) ::
         Passes(crossings, k, n) <==> Crossed(who, id, s, k, n)
  }

  ghost predicate Passes(crossings: seq<Crossing>, k: Kind, n: Node) { exists c | c in crossings :: c.mover == k && c.node == n }

  function By(k: Kind, toward: Kind, visited: seq<Node>): seq<Crossing> {
    seq(|visited|, i requires 0 <= i < |visited| => Crossing(k, toward, visited[i]))
  }

  ghost predicate Placed(l: AxisList, id: Id, s: Span)
    reads l
  {
    forall k: Kind :: Node(id, k) in l.pos && l.pos[Node(id, k)] == PlaceOf(s, k)
  }

  /** The nodes of an entity get new places; the list has them where they were. */
  method Displace(l: AxisList, id: Id, at: int, visual: int, ghost who: Spans)
    requires Stands(l, who) && id in who
    modifies l`pos
    ensures Shifting(l, who, id, Span(at, visual, who[id].shown), {}) && Placed(l, id, Span(at, visual, who[id].shown))
  {
    hide Linked;
    hide Sorted;
    Place(l, id, at, visual);
  }

  lemma Arrived(l: AxisList, who: Spans, id: Id, s: Span, done: set<Kind>)
    requires id in who && Shifting(l, who, id, s, done) && (s.shown ==> s.visual > 0)
    requires forall k | Belongs(who, Node(id, k)) :: k in done || PlaceOf(s, k) == PlaceOf(who[id], k)
    ensures Stands(l, who[id := s])
  {
    forall n: Node | n in l.order && n.id == id
      ensures l.Settled(n) && l.pos[n] == PlaceOf(s, n.kind)
    {
      assert Belongs(who, n) && n == Node(id, n.kind);
    }
  }

  /** shift_entity: the nodes of an entity that has moved are taken to where they belong, the foremost first. */
  method ShiftEntity(l: AxisList, id: Id, has: bool, from: int, to: int, ghost who: Spans) returns (crossings: seq<Crossing>)
    requires id in who && has == who[id].shown && from == who[id].at && Shifting(l, who, id, who[id].(at := to), {})
    modifies l
    ensures Stands(l, who[id := who[id].(at := to)]) && AllCrossings(who, id, who[id].(at := to), crossings)
  {
    if to > from {
      crossings := ShiftRight(l, id, has, from, to, who);
    } else if to < from {
      crossings := ShiftLeft(l, id, has, from, to, who);
    } else {
      crossings := [];
      NothingMoved(who, id);
      Arrived(l, who, id, who[id].(at := to), {});
    }
  }

  /** The kinds of nodes that are shifted before those of kind k: with a move to the right those further right. */
  function Foremost(right: bool, k: Kind): set<Kind> {
    match k
    case Self => if right then {Next} else {Prev}
    case Next => if right then {} else {Prev, Self}
    case Prev => if right then {Next, Self} else {}
  }

  /** With the foremost node first, none is in the way of the next. */
  lemma ForemostFirst(who: Spans, id: Id, to: int, k: Kind)
    requires id in who && (who[id].shown ==> who[id].visual > 0) && Belongs(who, Node(id, k)) && to != who[id].at
    ensures AllClear(who, id, who[id].(at := to), Foremost(to > who[id].at, k), k)
  {
  }

  lemma Steps(right: bool, front: Kind, back: Kind)
    requires if right then front == Next && back == Prev else front == Prev && back == Next
    ensures Foremost(right, front) == {} && Foremost(right, front) + {front} == Foremost(right, Self)
    ensures Foremost(right, Self) + {Self} == Foremost(right, back)
    ensures forall k: Kind :: k in Foremost(right, back) + {back}
  {
    forall k: Kind
      ensures k in Foremost(right, back) + {back}
    {
      match k {
        case Prev =>
        case Self =>
        case Next =>
      }
    }
  }

  lemma RangeKnown(l: AxisList, who: Spans, id: Id, s: Span, done: set<Kind>)
    requires id in who && Shifting(l, who, id, s, done)
    ensures who[id].shown ==> who[id].visual > 0
  {
  }

  lemma Nodes(who: Spans, id: Id)
    requires id in who
    ensures Belongs(who, Node(id, Self))
    ensures Belongs(who, Node(id, Prev)) == Belongs(who, Node(id, Next)) == who[id].shown
  {
  }

  /** A node that is not in the list need not be shifted. */
  lemma NotInList(l: AxisList, who: Spans, id: Id, s: Span, done: set<Kind>, k: Kind)
    requires id in who && Shifting(l, who, id, s, done) && !Belongs(who, Node(id, k))
    ensures Shifting(l, who, id, s, done + {k})
  {
  }

  /** One of up to three steps of a move: the node of kind k, if it is in the list. */
  method ShiftNode(l: AxisList, id: Id, k: Kind, has: bool, from: int, to: int, ghost who: Spans) returns (visited: seq<Node>)
    requires id in who && has == who[id].shown && from == who[id].at != to
    requires Shifting(l, who, id, who[id].(at := to), Foremost(to > from, k))
    modifies l
    ensures Shifting(l, who, id, who[id].(at := to), Foremost(to > from, k) + {k})
    ensures if has || k == Self then Crossings(who, id, who[id].(at := to), k, visited) else visited == []
  {
    ghost var s, done := who[id].(at := to), Foremost(to > from, k);
    RangeKnown(l, who, id, s, done);
    Nodes(who, id);
    hide Shifting;
    hide Crossings;
    hide AllClear;
    if has || k == Self {
      ForemostFirst(who, id, to, k);
      if to > from {
        visited := StepNext(l, id, k, who, s, done);
      } else {
        visited := StepPrev(l, id, k, who, s, done);
      }
    } else {
      NotInList(l, who, id, s, done, k);
      visited := [];
    }
  }

  method ShiftRight(l: AxisList, id: Id, has: bool, from: int, to: int, ghost who: Spans) returns (crossings: seq<Crossing>)
    requires id in who && has == who[id].shown && from == who[id].at && Shifting(l, who, id, who[id].(at := to), {})
    requires to > from
    modifies l
    ensures Stands(l, who[id := who[id].(at := to)]) && AllCrossings(who, id, who[id].(at := to), crossings)
  {
    RangeKnown(l, who, id, who[id].(at := to), {});
    hide Shifting;
    hide Stands;
    hide Crossings;
    hide AllCrossings;
    hide By;
    Steps(true, Next, Prev);
    hide Foremost;
    hide Belongs;
    var r1 := ShiftNode(l, id, Next, has, from, to, who);
    var r2 := ShiftNode(l, id, Self, has, from, to, who);
    var r3 := ShiftNode(l, id, Prev, has, from, to, who);
    crossings := By(Next, Next, r1) + By(Self, Next, r2) + By(Prev, Next, r3);
    Arrived(l, who, id, who[id].(at := to), Foremost(to > from, Prev) + {Prev});
    AllMoved(who, id, who[id].(at := to), Next, Prev, r1, r2, r3, crossings);
  }

  method ShiftLeft(l: AxisList, id: Id, has: bool, from: int, to: int, ghost who: Spans) returns (crossings: seq<Crossing>)
    requires id in who && has == who[id].shown && from == who[id].at && Shifting(l, who, id, who[id].(at := to), {})
    requires to < from
    modifies l
    ensures Stands(l, who[id := who[id].(at := to)]) && AllCrossings(who, id, who[id].(at := to), crossings)
  {
    RangeKnown(l, who, id, who[id].(at := to), {});
    hide Shifting;
    hide Stands;
    hide Crossings;
    hide AllCrossings;
    hide By;
    Steps(false, Prev, Next);
    hide Foremost;
    hide Belongs;
    var r1 := ShiftNode(l, id, Prev, has, from, to, who);
    var r2 := ShiftNode(l, id, Self, has, from, to, who);
    var r3 := ShiftNode(l, id, Next, has, from, to, who);
    crossings := By(Prev, Prev, r1) + By(Self, Prev, r2) + By(Next, Prev, r3);
    Arrived(l, who, id, who[id].(at := to), Foremost(to > from, Next) + {Next});
    AllMoved(who, id, who[id].(at := to), Prev, Next, r1, r2, r3, crossings);
  }

  lemma AllMoved(who: Spans, id: Id, s: Span, front: Kind, back: Kind, r1: seq<Node>, r2: seq<Node>, r3: seq<Node>, crossings: seq<Crossing>)
    requires id in who && s == who[id].(at := s.at) && Crossings(who, id, s, Self, r2)
    requires if s.at > who[id].at then front == Next && back == Prev else front == Prev && back == Next
    requires if who[id].shown then Crossings(who, id, s, front, r1) && Crossings(who, id, s, back, r3) else r1 == r3 == []
    requires crossings == By(front, front, r1) + By(Self, front, r2) + By(back, front, r3)
    ensures AllCrossings(who, id, s, crossings)
  {
    var a, b, c := By(front, front, r1), By(Self, front, r2), By(back, front, r3);
    InBy(front, front, r1);
    InBy(Self, front, r2);
    InBy(back, front, r3);
    Apart(a, b);
    Apart(a + b, c);
    forall k: Kind, n: Node
      ensures Passes(crossings, k, n) <==> (k == front && n in r1) || (k == Self && n in r2) || (k == back && n in r3)
    {
      assert forall x :: x in crossings <==> x in a || x in b || x in c;
      if k == front && n in r1 {
        assert Crossing(k, front, n) in crossings;
      } else if k == Self && n in r2 {
        assert Crossing(k, front, n) in crossings;
      } else if k == back && n in r3 {
        assert Crossing(k, front, n) in crossings;
      }
    }
  }

  lemma NothingMoved(who: Spans, id: Id)
    requires id in who
    ensures AllCrossings(who, id, who[id], [])
  {
  }

  lemma Apart(a: seq<Crossing>, b: seq<Crossing>)
    requires NoDup(a) && NoDup(b) && forall r | r in a :: r !in b
    ensures NoDup(a + b)
  {
    forall i, j | 0 <= i < j < |a + b|
      ensures (a + b)[i] != (a + b)[j]
    {
      if i < |a| <= j {
        assert (a + b)[i] in a && (a + b)[j] in b;
      }
    }
  }

  lemma InBy(k: Kind, toward: Kind, visited: seq<Node>)
    ensures forall c :: c in By(k, toward, visited) <==> c.mover == k && c.toward == toward && c.node in visited
    ensures NoDup(visited) ==> NoDup(By(k, toward, visited))
  {
    forall n | n in visited
      ensures Crossing(k, toward, n) in By(k, toward, visited)
    {
      var i :| 0 <= i < |visited| && visited[i] == n;
      assert By(k, toward, visited)[i] == Crossing(k, toward, n);
    }
  }

  /** On which side of a span p is, or within its range. */
  function Side(s: Span, p: int): int {
    if p < s.at - s.visual then -1 else if p > s.at + s.visual then 1 else 0
  }

  /** The others whom a boundary of the one that moves has passed. */
  ghost function ByRange(crossings: seq<Crossing>): set<Id> {
    set c | c in crossings && c.mover != Self && c.node.kind == Self :: c.node.id
  }

  /** The others of whom it has passed a boundary. */
  ghost function ByPlace(crossings: seq<Crossing>): set<Id> {
    set c | c in crossings && c.mover == Self && c.node.kind != Self :: c.node.id
  }

  ghost function RangeOf(c: Crossing): set<Id> { if c.mover != Self && c.node.kind == Self then {c.node.id} else {} }

  ghost function PlaceIn(c: Crossing): set<Id> { if c.mover == Self && c.node.kind != Self then {c.node.id} else {} }

  lemma NonePassed(crossings: seq<Crossing>)
    ensures ByRange(crossings[..0]) == {} == ByPlace(crossings[..0])
  {
  }

  lemma OneMorePassed(crossings: seq<Crossing>, i: nat)
    requires i < |crossings|
    ensures ByRange(crossings[..i + 1]) == ByRange(crossings[..i]) + RangeOf(crossings[i])
    ensures ByPlace(crossings[..i + 1]) == ByPlace(crossings[..i]) + PlaceIn(crossings[i])
  {
    assert crossings[..i + 1] == crossings[..i] + [crossings[i]];
    assert forall c :: c in crossings[..i + 1] <==> c in crossings[..i] || c == crossings[i];
  }

  /** The boundaries of a moving entity pass exactly those who change sides of its range. */
  lemma RangeCrosses(who: Spans, id: Id, s: Span, crossings: seq<Crossing>, o: Id)
    requires id in who && s == who[id].(at := s.at) && AllCrossings(who, id, s, crossings)
    requires s.shown ==> s.visual > 0
    ensures o in ByRange(crossings) <==> o in who && o != id && s.shown && Side(who[id], who[o].at) != Side(s, who[o].at)
  {
    var n := Node(o, Self);
    assert o in ByRange(crossings) <==> Passes(crossings, Next, n) || Passes(crossings, Prev, n);
    if o in who && o != id && s.shown {
      assert Belongs(who, n) && Belongs(who, Node(id, Next)) && Belongs(who, Node(id, Prev));
      assert Passes(crossings, Next, n) <==> Crossed(who, id, s, Next, n);
      assert Passes(crossings, Prev, n) <==> Crossed(who, id, s, Prev, n);
    }
  }

  /** A moving entity passes the boundaries of exactly those of whose range it changes sides. */
  lemma PlaceCrosses(who: Spans, id: Id, s: Span, crossings: seq<Crossing>, o: Id)
    requires id in who && s == who[id].(at := s.at) && AllCrossings(who, id, s, crossings)
    requires o in who && who[o].shown ==> who[o].visual > 0
    ensures o in ByPlace(crossings) <==> o in who && o != id && who[o].shown && Side(who[o], who[id].at) != Side(who[o], s.at)
  {
    var l, r := Node(o, Prev), Node(o, Next);
    assert o in ByPlace(crossings) <==> Passes(crossings, Self, l) || Passes(crossings, Self, r);
    if o in who && o != id && who[o].shown {
      assert Belongs(who, l) && Belongs(who, r) && Belongs(who, Node(id, Self));
      assert Passes(crossings, Self, l) <==> Crossed(who, id, s, Self, l);
      assert Passes(crossings, Self, r) <==> Crossed(who, id, s, Self, r);
    }
  }

  /** Whether p is within the range of a span. */
  predicate Covers(s: Span, p: int) { -s.visual <= s.at - p <= s.visual }

  /** A boundary that goes outwards passes those who were not in range before, one that goes inwards those who are not
      afterwards; likewise for the boundaries that the entity itself passes. */
  lemma WhoIsPassed(who: Spans, id: Id, s: Span, crossings: seq<Crossing>, c: Crossing)
    requires id in who && s == who[id].(at := s.at) && AllCrossings(who, id, s, crossings) && c in crossings
    requires forall o | o in who && who[o].shown :: who[o].visual > 0
    ensures c.node.id in who && c.node.id != id
    ensures c.mover != Self && c.node.kind == Self ==>
              !Covers(if c.toward == c.mover then who[id] else s, who[c.node.id].at)
    ensures c.mover == Self && c.node.kind != Self ==>
              !Covers(who[c.node.id], if c.toward == c.node.kind then s.at else who[id].at)
  {
    if (c.node.kind == Self) != (c.mover == Self) {
      assert Passes(crossings, c.mover, c.node);
      assert Crossed(who, id, s, c.mover, c.node);
    }
  }

  /** Exactly the entities that come into or go out of the range of id on this axis as it becomes that of s, each once,
      passed by a boundary that goes outwards if the range grows and inwards if it shrinks. */
  ghost predicate Swept(who: Spans, id: Id, s: Span, crossings: seq<Crossing>)
    requires id in who
  {
    && (forall c | c in crossings ::
          c.node.id != id && c.node.id in who && c.mover != Self && (c.toward == c.mover <==> s.visual > who[id].visual))
    && (forall c | c in crossings && c.node.kind == Self :: Covers(s, who[c.node.id].at) != Covers(who[id], who[c.node.id].at))
    && (forall o | o in who && o != id && Covers(s, who[o].at) != Covers(who[id], who[o].at) :: Meets(crossings, o))
    && forall i, j | 0 <= i < j < |crossings| && crossings[i].node == crossings[j].node :: crossings[i].node.kind != Self
  }

  ghost predicate Meets(crossings: seq<Crossing>, o: Id) { exists i | 0 <= i < |crossings| :: crossings[i].node == Node(o, Self) }

  /** shift_visual: both boundaries of an entity whose range has changed are taken to where they belong. */
  method ShiftVisual(l: AxisList, id: Id, shiftType: int, ghost who: Spans, ghost s: Span) returns (crossings: seq<Crossing>)
    requires id in who && who[id].shown && s == who[id].(visual := s.visual) && s.visual > 0
    requires shiftType == s.visual - who[id].visual && Shifting(l, who, id, s, {})
    modifies l
    ensures Stands(l, who[id := s]) && Swept(who, id, s, crossings)
  {
    RangeKnown(l, who, id, s, {});
    Nodes(who, id);
    hide Shifting;
    hide Stands;
    hide Crossings;
    hide Belongs;
    hide Swept;
    hide Sweep;
    if shiftType == 0 {
      crossings := [];
      SweptNone(who, id);
      Arrived(l, who, id, s, {});
    } else {
      assert {} + {Next} == {Next};
      var r1 := ShiftBoundary(l, id, Next, shiftType > 0, who, s, {});
      var r2 := ShiftBoundary(l, id, Prev, shiftType > 0, who, s, {Next});
      crossings := Sweep(shiftType > 0, r1, r2);
      SweptAll(who, id, s, r1, r2);
      Arrived(l, who, id, s, {Next} + {Prev});
    }
  }

  /** The crossings of both boundaries, which go outwards or inwards. */
  function Sweep(grow: bool, r1: seq<Node>, r2: seq<Node>): seq<Crossing> {
    if grow then By(Next, Next, r1) + By(Prev, Prev, r2) else By(Next, Prev, r1) + By(Prev, Next, r2)
  }

  /** One boundary goes outwards or inwards: first the right one, then the left one. */
  method ShiftBoundary(l: AxisList, id: Id, k: Kind, grow: bool, ghost who: Spans, ghost s: Span, ghost done: set<Kind>)
    returns (visited: seq<Node>)
    requires id in who && who[id].shown && who[id].visual > 0 && s == who[id].(visual := s.visual) && s.visual > 0
    requires k != Self && done == if k == Next then {} else {Next}
    requires s.visual != who[id].visual && grow == (s.visual > who[id].visual) && Shifting(l, who, id, s, done)
    modifies l
    ensures Shifting(l, who, id, s, done + {k}) && Crossings(who, id, s, k, visited)
  {
    SweptClear(who, id, s);
    Nodes(who, id);
    hide Shifting;
    hide Crossings;
    hide AllClear;
    hide Belongs;
    if (k == Next) == grow {
      visited := StepNext(l, id, k, who, s, done);
    } else {
      visited := StepPrev(l, id, k, who, s, done);
    }
  }

  lemma SweptClear(who: Spans, id: Id, s: Span)
    requires id in who && who[id].shown && who[id].visual > 0 && s == who[id].(visual := s.visual) && s.visual > 0
    ensures AllClear(who, id, s, {}, Next) && AllClear(who, id, s, {Next}, Prev)
  {
  }

  lemma SweptNone(who: Spans, id: Id)
    requires id in who
    ensures Swept(who, id, who[id], [])
  {
  }

  lemma SweptAll(who: Spans, id: Id, s: Span, r1: seq<Node>, r2: seq<Node>)
    requires id in who && who[id].shown && who[id].visual > 0 && s == who[id].(visual := s.visual) && s.visual > 0
    requires s.visual != who[id].visual && Crossings(who, id, s, Next, r1) && Crossings(who, id, s, Prev, r2)
    ensures Swept(who, id, s, Sweep(s.visual > who[id].visual, r1, r2))
  {
    var crossings := Sweep(s.visual > who[id].visual, r1, r2);
    ByNodes(s.visual > who[id].visual, r1, r2, crossings);
    hide Sweep;
    SweptMet(who, id, s, r1, r2, crossings);
    forall i | 0 <= i < |crossings|
      ensures crossings[i].node in if i < |r1| then r1 else r2
    {
    }
  }

  lemma ByNodes(grow: bool, r1: seq<Node>, r2: seq<Node>, crossings: seq<Crossing>)
    requires crossings == Sweep(grow, r1, r2)
    ensures |crossings| == |r1| + |r2|
    ensures forall i | 0 <= i < |crossings| ::
              && crossings[i].node == (if i < |r1| then r1[i] else r2[i - |r1|])
              && crossings[i].mover == (if i < |r1| then Next else Prev) && (crossings[i].toward == crossings[i].mover <==> grow)
  {
  }

  lemma SweptMet(who: Spans, id: Id, s: Span, r1: seq<Node>, r2: seq<Node>, crossings: seq<Crossing>)
    requires id in who && who[id].shown && who[id].visual > 0 && s == who[id].(visual := s.visual) && s.visual > 0
    requires Crossings(who, id, s, Next, r1) && Crossings(who, id, s, Prev, r2) && |crossings| == |r1| + |r2|
    requires forall i | 0 <= i < |crossings| :: crossings[i].node == if i < |r1| then r1[i] else r2[i - |r1|]
    ensures forall o | o in who && o != id && Covers(s, who[o].at) != Covers(who[id], who[o].at) :: Meets(crossings, o)
  {
    forall o | o in who && o != id && Covers(s, who[o].at) != Covers(who[id], who[o].at)
      ensures Meets(crossings, o)
    {
      var n := Node(o, Self);
      if n in r1 {
        var i :| 0 <= i < |r1| && r1[i] == n;
        assert crossings[i].node == n;
      } else {
        var i :| 0 <= i < |r2| && r2[i] == n;
        assert crossings[|r1| + i].node == n;
      }
    }
  }

  /** The boundary nodes of an entity that has got a view go in. Returns the nodes passed. */
  method InsertVisualList(l: AxisList, id: Id, ghost who: Spans, ghost s: Span) returns (visited: seq<Node>)
    requires id in who && !who[id].shown && Stands(l, who) && Placed(l, id, s) && s == who[id].(visual := s.visual, shown := true)
    requires s.visual > 0
    modifies l
    ensures Stands(l, who[id := s]) && NoDup(visited)
    ensures forall o :: Node(o, Self) in visited <==> o in who && o != id && -s.visual <= who[o].at - s.at <= s.visual
  {
    PlacedInOrder(l, id, who, s);
    hide Linked;
    hide Sorted;
    hide NoDup;
    hide Placed;
    ghost var order0 := l.order;
    visited := l.InsertVisual(id);
    VisualIn(l, id, who, s, order0, visited);
  }

  lemma PlacedInOrder(l: AxisList, id: Id, who: Spans, s: Span)
    requires id in who && !who[id].shown && Stands(l, who) && Placed(l, id, s) && s == who[id].(visual := s.visual, shown := true)
    requires s.visual > 0
    ensures Node(id, Self) in l.order && l.Loose(Node(id, Next)) && l.Loose(Node(id, Prev))
    ensures forall m | m in l.order :: l.Settled(m)
    ensures l.Greater(Node(id, Next), Node(id, Self)) && l.Greater(Node(id, Self), Node(id, Prev))
  {
    assert Belongs(who, Node(id, Self));
    assert !Belongs(who, Node(id, Next)) && !Belongs(who, Node(id, Prev));
  }

  lemma VisualIn(l: AxisList, id: Id, who: Spans, s: Span, order0: seq<Node>, visited: seq<Node>)
    requires id in who && !who[id].shown && s == who[id].(visual := s.visual, shown := true) && s.visual > 0 && l.Valid() && Placed(l, id, s)
    requires forall n :: n in order0 <==> Belongs(who, n)
    requires forall n :: n in l.order <==> n in order0 || n in {Node(id, Prev), Node(id, Next)}
    requires forall n: Node | n in order0 :: n.id in who && n in l.pos && l.pos[n] == PlaceOf(who[n.id], n.kind)
    requires forall n: Node | n in l.order :: l.Settled(n)
    requires forall n: Node | n.id in who && n !in l.order :: l.Loose(n)
    requires forall o | o in who && who[o].shown :: who[o].visual > 0
    requires forall m :: m in visited <==>
               m in order0 && m != Node(id, Self) && l.Greater(Node(id, Next), m) && l.Greater(m, Node(id, Prev))
    ensures Stands(l, who[id := s])
    ensures forall o :: Node(o, Self) in visited <==> o in who && o != id && -s.visual <= who[o].at - s.at <= s.visual
  {
    l.ThreeKinds(id);
    forall o
      ensures Node(o, Self) in visited <==> o in who && o != id && -s.visual <= who[o].at - s.at <= s.visual
    {
      assert Node(o, Self) in order0 <==> o in who;
    }
  }

  /** The boundary nodes of an entity that has lost its view go out. */
  method RemoveVisualList(l: AxisList, id: Id, ghost who: Spans, ghost s: Span)
    requires id in who && who[id].shown && Shifting(l, who, id, s, {}) && s == who[id].(visual := s.visual)
    modifies l
    ensures Stands(l, who[id := s.(shown := false)])
  {
    hide Linked;
    hide Sorted;
    var n, p := Node(id, Next), Node(id, Prev);
    assert Belongs(who, Node(id, Self)) && Belongs(who, n) && Belongs(who, p);
    l.TakeOut(n);
    l.TakeOut(p);
    l.ThreeKinds(id);
    ResetBoundaries(l, id, who[id := s.(shown := false)]);
  }

  /** The list is as it should be, but the boundary nodes of an entity that has no view still have links of their own. */
  ghost predicate StandsBut(l: AxisList, who: Spans, id: Id)
    reads l
  {
    && l.Valid() && id in who && !who[id].shown
    && (forall n :: n in l.order <==> Belongs(who, n))
    && (forall n | n in l.order :: l.Settled(n) && Belongs(who, n) && l.pos[n] == PlaceOf(who[n.id], n.kind))
    && (forall n: Node | n.id in who && n.id != id && n !in l.order :: l.Loose(n))
    && forall o | o in who && who[o].shown :: who[o].visual > 0
  }

  method ResetBoundaries(l: AxisList, id: Id, ghost who: Spans)
    requires StandsBut(l, who, id)
    modifies l`pos, l`next, l`prev
    ensures Stands(l, who)
  {
    hide Linked;
    hide Sorted;
    l.ThreeKinds(id);
    assert Belongs(who, Node(id, Self)) && !Belongs(who, Node(id, Next)) && !Belongs(who, Node(id, Prev));
    Reset(l, Node(id, Next));
    Reset(l, Node(id, Prev));
  }

  /** each_range_entity: the entities, other than the one in the middle, that are no further off than visual. Its own
      boundary nodes may already have a smaller range. */
  method EachRangeEntity(l: AxisList, id: Id, visual: int, ghost who: Spans, ghost s: Span) returns (visited: seq<Id>)
    requires id in who && Shifting(l, who, id, s, {}) && s.at == who[id].at && 0 <= visual && s.visual <= visual
    ensures NoDup(visited) && forall o :: o in visited <==> o in who && o != id && -visual <= who[o].at - s.at <= visual
  {
    hide Linked;
    hide Sorted;
    assert Belongs(who, Node(id, Self));
    visited := l.EachRange(id, visual);
    forall o
      ensures o in visited <==> o in who && o != id && -visual <= who[o].at - s.at <= visual
    {
      assert Node(o, Self) in l.order <==> o in who;
    }
  }

  /** Nothing is on the move when an entity is to stay as it is. */
  lemma StandsIsShifting(l: AxisList, who: Spans, id: Id)
    requires Stands(l, who) && id in who
    ensures Shifting(l, who, id, who[id], {})
  {
  }
}
