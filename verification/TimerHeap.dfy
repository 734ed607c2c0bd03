/** The array heap of timers with back-indices (the heap functions of engine/src/ev/ev.cpp), as values. */
module TimerHeaps {

  // A timer: its slot in the pending queue plus one, its received events, its heap slot (0 when not
  // active), and its schedule.
  datatype EVTimer = EVTimer(pending: nat, revents: bv8, index: nat, policy: int, at: int, repeat: int)

  type Id = int
  type Timers = map<Id, EVTimer>

  /** Slots 1..n hold active timers that know their slot. */
  ghost predicate SlotOk(h: seq<Id>, m: Timers, k: nat)
    requires k < |h|
  {
    h[k] in m && m[h[k]].index == k
  }

  /** A timer is active exactly if it sits in the slot it names. */
  ghost predicate TimerOk(h: seq<Id>, n: nat, m: Timers, id: Id)
    requires n < |h| && id in m
  {
    m[id].index <= n && (m[id].index > 0 ==> h[m[id].index] == id)
  }

  /** Exact back-indices, for all timers but those in skip. */
  ghost predicate Indexed(h: seq<Id>, n: nat, m: Timers, skip: set<Id>) {
    && n < |h|
    && (forall k | 1 <= k <= n :: SlotOk(h, m, k) && h[k] !in skip)
    && (forall id | id in m && id !in skip :: TimerOk(h, n, m, id))
  }

  ghost predicate InOrder(h: seq<Id>, m: Timers, i: nat, j: nat)
    requires i < |h| && j < |h|
  {
    h[i] in m && h[j] in m && m[h[i]].at <= m[h[j]].at
  }

  /** No timer is due before its parent. */
  ghost predicate Heap(h: seq<Id>, n: nat, m: Timers) {
    n < |h| && forall k | 2 <= k <= n :: InOrder(h, m, k / 2, k)
  }

  /** A heap but for slot k, which may be due before its parent. */
  ghost predicate HeapAbove(h: seq<Id>, n: nat, m: Timers, k: nat) {
    && n < |h|
    && (forall j | 2 <= j <= n && j != k :: InOrder(h, m, j / 2, j))
    && (forall j | 2 <= j <= n && j / 2 == k && k >= 2 :: InOrder(h, m, k / 2, j))
  }

  /** A heap but for slot k, which may be due after its children. */
  ghost predicate HeapBelow(h: seq<Id>, n: nat, m: Timers, k: nat) {
    && n < |h|
    && (forall j | 2 <= j <= n && j / 2 != k :: InOrder(h, m, j / 2, j))
    && (forall j | 2 <= j <= n && j / 2 == k && k >= 2 :: InOrder(h, m, k / 2, j))
  }

  /**
   * Only heap slots have changed, only of timers outside skip, and no timer but he has become active or
   * inactive; he may have become active.
   */
  ghost predicate Moved(m: Timers, m': Timers, skip: set<Id>, he: Id) {
    && m.Keys == m'.Keys
    && forall id | id in m :: MovedAt(m[id], m'[id], id == he) && (id in skip ==> m'[id] == m[id])
  }

  ghost predicate MovedAt(t: EVTimer, t': EVTimer, isHe: bool) {
    && t' == t.(index := t'.index)
    && (t.index > 0 ==> t'.index > 0)
    && (!isHe && t.index == 0 ==> t'.index == 0)
  }

  lemma MovedKeys(m: Timers, m': Timers, skip: set<Id>, he: Id)
    requires Moved(m, m', skip, he)
    ensures m.Keys == m'.Keys
  {
  }

  lemma NoneMoved(m: Timers, skip: set<Id>, he: Id)
    ensures Moved(m, m, skip, he)
  {
  }

  lemma PlaceMoves(m: Timers, m': Timers, skip: set<Id>, he: Id, id: Id, k: nat)
    requires Moved(m, m', skip, he) && id in m' && id !in skip && k > 0 && (id == he || m'[id].index > 0)
    ensures Moved(m, Place(m', id, k), skip, he)
  {
    var l := Place(m', id, k);
    forall d | d in m
      ensures MovedAt(m[d], l[d], d == he) && (d in skip ==> l[d] == m[d])
    {
      assert MovedAt(m[d], m'[d], d == he);
    }
  }

  /** Placing timer id into slot k. */
  function Place(m: Timers, id: Id, k: nat): Timers
    requires id in m
  {
    m[id := m[id].(index := k)]
  }

  /** Moving the entry of slot p into the hole k and the hole to p: the placed heap sees a swap. */
  lemma MoveHole(h: seq<Id>, n: nat, m: Timers, skip: set<Id>, he: Id, k: nat, p: nat)
    requires n < |h| && 1 <= k <= n && 1 <= p <= n && k != p && he in m && he !in skip
    requires Indexed(h[k := he], n, Place(m, he, k), skip)
    ensures h[p] in m && h[p] != he && h[p] !in skip && m[h[p]].index == p
    ensures Indexed(h[k := h[p]][p := he], n, Place(Place(m, h[p], k), he, p), skip)
  {
    var g, l := h[k := he], Place(m, he, k);
    assert SlotOk(g, l, p) && g[p] == h[p] && SlotOk(g, l, k);
    var g', l' := h[k := h[p]][p := he], Place(Place(m, h[p], k), he, p);
    forall j: nat | 1 <= j <= n
      ensures SlotOk(g', l', j) && g'[j] !in skip
    {
      assert SlotOk(g, l, j) && g[j] !in skip;
    }
    forall id | id in l' && id !in skip
      ensures TimerOk(g', n, l', id)
    {
      assert TimerOk(g, n, l, id);
    }
  }

  lemma MoveUp(h: seq<Id>, n: nat, m: Timers, skip: set<Id>, he: Id, k: nat)
    requires n < |h| && 2 <= k <= n && he in m && he !in skip
    requires Indexed(h[k := he], n, Place(m, he, k), skip)
    requires HeapAbove(h[k := he], n, Place(m, he, k), k)
    requires h[k / 2] in m && m[h[k / 2]].at > m[he].at
    ensures h[k / 2] != he
    ensures HeapAbove(h[k := h[k / 2]][k / 2 := he], n, Place(Place(m, h[k / 2], k), he, k / 2), k / 2)
  {
    var p := k / 2;
    MoveHole(h, n, m, skip, he, k, p);
    var g, l := h[k := he], Place(m, he, k);
    var g', l' := h[k := h[p]][p := he], Place(Place(m, h[p], k), he, p);
    assert forall id | id in m :: l[id].at == m[id].at && l'[id].at == m[id].at;
    forall j: nat | 2 <= j <= n && j != p
      ensures InOrder(g', l', j / 2, j)
    {
      if j != k {
        assert InOrder(g, l, j / 2, j);
      }
      assert SlotOk(g, l, j) && SlotOk(g, l, j / 2);
      if j / 2 == k {
        assert InOrder(g, l, p, j);
      }
    }
    forall j: nat | 2 <= j <= n && j / 2 == p && p >= 2
      ensures InOrder(g', l', p / 2, j)
    {
      assert InOrder(g, l, p / 2, p);
      assert SlotOk(g, l, j) && SlotOk(g, l, p / 2);
      if j != k {
        assert InOrder(g, l, p, j);
      }
    }
  }

  lemma MoveDown(h: seq<Id>, n: nat, m: Timers, skip: set<Id>, he: Id, k: nat, c: nat)
    requires n < |h| && 1 <= k <= n && 2 <= c <= n && c / 2 == k && he in m && he !in skip
    requires Indexed(h[k := he], n, Place(m, he, k), skip)
    requires HeapBelow(h[k := he], n, Place(m, he, k), k)
    requires h[c] in m && m[he].at > m[h[c]].at
    requires forall j | 2 <= j <= n && j / 2 == k && h[j] in m :: m[h[c]].at <= m[h[j]].at
    ensures h[c] != he
    ensures HeapBelow(h[k := h[c]][c := he], n, Place(Place(m, h[c], k), he, c), c)
  {
    MoveHole(h, n, m, skip, he, k, c);
    var g, l := h[k := he], Place(m, he, k);
    var g', l' := h[k := h[c]][c := he], Place(Place(m, h[c], k), he, c);
    assert forall id | id in m :: l[id].at == m[id].at && l'[id].at == m[id].at;
    forall j: nat | 2 <= j <= n && j / 2 != c
      ensures InOrder(g', l', j / 2, j)
    {
      assert SlotOk(g, l, j) && SlotOk(g, l, j / 2);
      if j / 2 != k {
        assert InOrder(g, l, j / 2, j);
      }
      if j == k {
        assert InOrder(g, l, k / 2, c);
      }
    }
    forall j: nat | 2 <= j <= n && j / 2 == c
      ensures InOrder(g', l', c / 2, j)
    {
      assert SlotOk(g, l, j);
      assert InOrder(g, l, c, j);
    }
  }

  lemma SlotFact(h: seq<Id>, n: nat, m: Timers, skip: set<Id>, k: nat)
    requires Indexed(h, n, m, skip) && 1 <= k <= n
    ensures k < |h| && SlotOk(h, m, k) && h[k] !in skip
  {
  }

  lemma NoneBelow(h: seq<Id>, n: nat, m: Timers, k: nat)
    requires HeapBelow(h, n, m, k) && 1 <= k <= n < 2 * k
    ensures Heap(h, n, m)
  {
  }

  lemma NoneSmallerBelow(h: seq<Id>, n: nat, m: Timers, k: nat)
    requires HeapBelow(h, n, m, k) && 1 <= k && 2 * k <= n
    requires InOrder(h, m, k, 2 * k) && (2 * k + 1 <= n ==> InOrder(h, m, k, 2 * k + 1))
    ensures Heap(h, n, m)
  {
    forall j: nat | 2 <= j <= n
      ensures InOrder(h, m, j / 2, j)
    {
      if j / 2 == k {
        assert j == 2 * k || j == 2 * k + 1;
      }
    }
  }

  /** A heap but for slot k, in either direction; its parent and its children are in order. */
  ghost predicate HeapAround(h: seq<Id>, n: nat, m: Timers, k: nat) {
    && n < |h|
    && (forall j | 2 <= j <= n && j != k && j / 2 != k :: InOrder(h, m, j / 2, j))
    && (forall j | 2 <= j <= n && j / 2 == k && k >= 2 :: InOrder(h, m, k / 2, j))
  }

  lemma AroundUp(h: seq<Id>, n: nat, m: Timers, k: nat)
    requires HeapAround(h, n, m, k) && 2 <= k <= n && InOrder(h, m, k, k / 2)
    ensures HeapAbove(h, n, m, k)
  {
    forall j: nat | 2 <= j <= n && j != k
      ensures InOrder(h, m, j / 2, j)
    {
      if j / 2 == k {
        assert InOrder(h, m, k / 2, j);
      }
    }
  }

  lemma AroundDown(h: seq<Id>, n: nat, m: Timers, k: nat)
    requires HeapAround(h, n, m, k) && 1 <= k <= n && (k >= 2 ==> InOrder(h, m, k / 2, k))
    ensures HeapBelow(h, n, m, k)
  {
  }

  /** Taking slot i's timer out: the last entry fills the slot and has to be sifted. */
  lemma FillSlot(h: seq<Id>, n: nat, m: Timers, id: Id)
    requires Indexed(h, n, m, {}) && Heap(h, n, m) && id in m && 1 <= m[id].index < n
    ensures var i, last := m[id].index, h[n];
            && last in m && last != id && m[last].index == n
            && Indexed(h[i := last], n - 1, Place(m, last, i), {id})
            && HeapAround(h[i := last], n - 1, Place(m, last, i), i)
  {
    var i, last := m[id].index, h[n];
    assert SlotOk(h, m, n) && TimerOk(h, n, m, id);
    var g, l := h[i := last], Place(m, last, i);
    forall j: nat | 1 <= j <= n - 1
      ensures SlotOk(g, l, j) && g[j] !in {id}
    {
      assert SlotOk(h, m, j);
    }
    forall d | d in l && d !in {id}
      ensures TimerOk(g, n - 1, l, d)
    {
      assert TimerOk(h, n, m, d);
    }
    forall j: nat | 2 <= j <= n - 1 && j != i && j / 2 != i
      ensures InOrder(g, l, j / 2, j)
    {
      assert InOrder(h, m, j / 2, j);
    }
    forall j: nat | 2 <= j <= n - 1 && j / 2 == i && i >= 2
      ensures InOrder(g, l, i / 2, j)
    {
      assert InOrder(h, m, i / 2, i) && InOrder(h, m, i, j);
    }
  }

  lemma DropLast(h: seq<Id>, n: nat, m: Timers, id: Id)
    requires Indexed(h, n, m, {}) && Heap(h, n, m) && id in m && 1 <= m[id].index == n
    ensures Indexed(h, n - 1, m, {id}) && Heap(h, n - 1, m)
  {
    assert TimerOk(h, n, m, id);
    forall j: nat | 1 <= j <= n - 1
      ensures SlotOk(h, m, j) && h[j] !in {id}
    {
      assert SlotOk(h, m, j);
    }
    forall d | d in m && d !in {id}
      ensures TimerOk(h, n - 1, m, d)
    {
      assert TimerOk(h, n, m, d);
    }
  }

  /** A timer outside the heap may take any value that says so. */
  lemma Inactive(h: seq<Id>, n: nat, m: Timers, id: Id, t: EVTimer)
    requires Indexed(h, n, m, {id}) && Heap(h, n, m) && t.index == 0
    ensures Indexed(h, n, m[id := t], {}) && Heap(h, n, m[id := t])
  {
    var l := m[id := t];
    forall j: nat | 1 <= j <= n
      ensures SlotOk(h, l, j)
    {
      assert SlotOk(h, m, j);
    }
    forall d | d in l
      ensures TimerOk(h, n, l, d)
    {
      if d != id {
        assert TimerOk(h, n, m, d);
      }
    }
    forall j: nat | 2 <= j <= n
      ensures InOrder(h, l, j / 2, j)
    {
      assert InOrder(h, m, j / 2, j) && SlotOk(h, m, j) && SlotOk(h, m, j / 2);
    }
  }

  /** Changing nothing but the pending state of timers disturbs no heap. */
  lemma SameSchedule(h: seq<Id>, n: nat, m: Timers, m': Timers)
    requires Indexed(h, n, m, {}) && Heap(h, n, m)
    requires m.Keys == m'.Keys && forall id | id in m :: m'[id].index == m[id].index && m'[id].at == m[id].at
    ensures Indexed(h, n, m', {}) && Heap(h, n, m')
  {
    forall j: nat | 1 <= j <= n
      ensures SlotOk(h, m', j)
    {
      var d := h[j];
      assert SlotOk(h, m, j) && m'[d].index == m[d].index;
    }
    forall d | d in m'
      ensures TimerOk(h, n, m', d)
    {
      assert TimerOk(h, n, m, d);
    }
    forall j: nat | 2 <= j <= n
      ensures InOrder(h, m', j / 2, j)
    {
      var p, d := h[j / 2], h[j];
      assert InOrder(h, m, j / 2, j) && m'[p].at == m[p].at && m'[d].at == m[d].at;
    }
  }

  /** A new timer in the next free slot, before it is sifted up. */
  lemma NextSlot(h: seq<Id>, n: nat, m: Timers, id: Id, t: EVTimer)
    requires Indexed(h, n, m, {}) && Heap(h, n, m) && id !in m && n + 1 < |h|
    ensures Indexed(h[n + 1 := id], n + 1, Place(m[id := t], id, n + 1), {})
    ensures HeapAbove(h[n + 1 := id], n + 1, Place(m[id := t], id, n + 1), n + 1)
  {
    var g, l := h[n + 1 := id], Place(m[id := t], id, n + 1);
    forall j: nat | 1 <= j <= n + 1
      ensures SlotOk(g, l, j)
    {
      if j <= n {
        assert SlotOk(h, m, j);
      }
    }
    forall d | d in l
      ensures TimerOk(g, n + 1, l, d)
    {
      if d != id {
        assert TimerOk(h, n, m, d);
      }
    }
    forall j: nat | 2 <= j <= n
      ensures InOrder(g, l, j / 2, j)
    {
      assert InOrder(h, m, j / 2, j) && SlotOk(h, m, j) && SlotOk(h, m, j / 2);
    }
  }

  /** Postponing the first timer, before it is sifted down. */
  lemma PostponeTop(h: seq<Id>, n: nat, m: Timers, t: EVTimer)
    requires Indexed(h, n, m, {}) && Heap(h, n, m) && n >= 1 && t.index == 1
    requires h[1] in m ==> t.at >= m[h[1]].at
    ensures h[1] in m && m[h[1]].index == 1
    ensures Indexed(h, n, Place(m[h[1] := t], h[1], 1), {})
    ensures HeapBelow(h, n, Place(m[h[1] := t], h[1], 1), 1)
  {
    assert SlotOk(h, m, 1);
    var l := Place(m[h[1] := t], h[1], 1);
    forall j: nat | 1 <= j <= n
      ensures SlotOk(h, l, j)
    {
      assert SlotOk(h, m, j);
    }
    forall d | d in l
      ensures TimerOk(h, n, l, d)
    {
      assert TimerOk(h, n, m, d);
    }
    forall j: nat | 2 <= j <= n && j / 2 != 1
      ensures InOrder(h, l, j / 2, j)
    {
      assert InOrder(h, m, j / 2, j) && SlotOk(h, m, j) && SlotOk(h, m, j / 2);
    }
  }

  /** The first timer is the first to be due. */
  lemma {:induction false} TopIsFirst(h: seq<Id>, n: nat, m: Timers, k: nat)
    requires Heap(h, n, m) && Indexed(h, n, m, {}) && 1 <= k <= n
    ensures InOrder(h, m, 1, k)
  {
    assert SlotOk(h, m, k);
    if k > 1 {
      assert InOrder(h, m, k / 2, k);
      TopIsFirst(h, n, m, k / 2);
    }
  }
}
