/** The timer half of the event loop (engine/src/ev/ev.cpp, engine/src/ev/ev_watcher.cpp). */
module EventTimers {
  import opened TimerHeaps
  import opened TimerPlans

  const P_ALIGN := 1
  const P_SPIN := 2

  const EV_TIMER: bv8 := 0x80

  // The first heap slot, and the growth step of the heap vector.
  const HEAP0 := 1
  const GROWTH := 1024

  /** The first of at, at + repeat, ... that is not before now: where the align loop stops. */
  function FirstNotBefore(at: int, repeat_: int, now: int): int
    requires repeat_ > 0
    decreases now - at
  {
    if at >= now then at else FirstNotBefore(at + repeat_, repeat_, now)
  }

  /** The first of at, at + repeat, ... that is after now. */
  function FirstAfter(at: int, repeat_: int, now: int): int
    requires repeat_ > 0
    decreases now - at
  {
    if at > now then at else FirstAfter(at + repeat_, repeat_, now)
  }

  /** FirstAfter is on the timer's own grid, after now, and no grid point before it is. */
  lemma {:induction false} FirstAfterIsLeast(at: int, repeat_: int, now: int) returns (k: nat)
    requires repeat_ > 0
    ensures FirstAfter(at, repeat_, now) == at + k * repeat_ > now
    ensures forall j: nat | j < k :: at + j * repeat_ <= now
    decreases now - at
  {
    if at > now {
      k := 0;
    } else {
      var k' := FirstAfterIsLeast(at + repeat_, repeat_, now);
      k := k' + 1;
      assert k * repeat_ == k' * repeat_ + repeat_;
      forall j: nat | j < k
        ensures at + j * repeat_ <= now
      {
        if j > 0 {
          assert at + repeat_ + (j - 1) * repeat_ <= now;
          assert j * repeat_ == (j - 1) * repeat_ + repeat_;
        }
      }
    }
  }

  lemma {:induction false} AlignKeepsGrid(at: int, repeat_: int, now: int)
    requires repeat_ > 0
    ensures FirstAfter(FirstNotBefore(at, repeat_, now), repeat_, now) == FirstAfter(at, repeat_, now)
    ensures FirstNotBefore(at, repeat_, now) >= at
    decreases now - at
  {
    if at < now {
      AlignKeepsGrid(at + repeat_, repeat_, now);
    }
  }

  /** When a repeating timer is next due after a pass at time now. The aligning and spinning policies keep
      to the timer's grid; the default one starts over from now if a whole period has been missed. */
  function Settled(policy: int, at: int, repeat_: int, now: int): int
    requires repeat_ > 0
  {
    if at > now then at
    else if policy == P_ALIGN || policy == P_SPIN then FirstAfter(at, repeat_, now)
    else if at + repeat_ > now then at + repeat_
    else now + repeat_
  }

  /** What one turn of the timer loop makes of a due repeating timer. */
  function Advanced(policy: int, at: int, repeat_: int, now: int): int
    requires repeat_ > 0
  {
    if at + repeat_ >= now then at + repeat_
    else if policy == P_ALIGN then FirstNotBefore(at + repeat_, repeat_, now)
    else if policy == P_SPIN then at + repeat_
    else now
  }

  lemma AdvancedSettles(policy: int, at: int, repeat_: int, now: int)
    requires repeat_ > 0 && at <= now
    ensures Advanced(policy, at, repeat_, now) > at
    ensures Settled(policy, Advanced(policy, at, repeat_, now), repeat_, now) == Settled(policy, at, repeat_, now) > now
  {
    AlignKeepsGrid(at + repeat_, repeat_, now);
    var k := FirstAfterIsLeast(at, repeat_, now);
    if policy == P_ALIGN {
      var k' := FirstAfterIsLeast(Advanced(policy, at, repeat_, now), repeat_, now);
    }
  }

  predicate Due(t: EVTimer, now: int) { t.index > 0 && t.at <= now }

  /** What timers_reify makes of a timer: t before, t' after. */
  ghost predicate Reified(t: EVTimer, t': EVTimer, now: int) {
    if !Due(t, now) then t' == t.(index := t'.index) && (t'.index > 0 <==> t.index > 0)
    else if t.repeat > 0 then
      && t' == t.(index := t'.index, pending := t'.pending, revents := t.revents | EV_TIMER,
                  at := Settled(t.policy, t.at, t.repeat, now))
      && t'.index > 0 && t'.pending > 0
    else
      && t' == t.(index := 0, pending := t'.pending, revents := ClearedTimer(t).revents | EV_TIMER, at := t.at - now)
      && t'.pending > 0
  }

  /** A timer in the middle of timers_reify: done, or still to be settled. */
  ghost predicate Reifying(t: EVTimer, t': EVTimer, now: int) {
    || Reified(t, t', now)
    || (Due(t, now) && Due(t', now) && t' == t.(index := t'.index))
    || (Due(t, now) && Due(t', now) && t.repeat > 0 && t'.pending > 0
        && t' == t.(index := t'.index, pending := t'.pending, revents := t.revents | EV_TIMER, at := t'.at)
        && Settled(t.policy, t'.at, t.repeat, now) == Settled(t.policy, t.at, t.repeat, now))
  }

  ghost predicate AllReifying(m: Timers, m': Timers, now: int) {
    m.Keys == m'.Keys && forall id | id in m :: Reifying(m[id], m'[id], now)
  }

  /** How far the active timers lie behind now, for the loop's termination. */
  ghost function Lag(ids: seq<Id>, m: Timers, now: int): nat {
    if ids == [] then 0
    else (if ids[0] in m && Due(m[ids[0]], now) then now - m[ids[0]].at + 1 else 0) + Lag(ids[1..], m, now)
  }

  lemma {:induction false} LagDrops(ids: seq<Id>, m: Timers, m': Timers, now: int, id: Id)
    requires id in m && id in m' && Due(m[id], now) && (Due(m'[id], now) ==> m'[id].at > m[id].at)
    requires forall d | d in ids && d != id :: d in m' && Due(m'[d], now) ==> d in m && Due(m[d], now) && m'[d].at >= m[d].at
    ensures Lag(ids, m', now) <= Lag(ids, m, now)
    ensures id in ids ==> Lag(ids, m', now) < Lag(ids, m, now)
  {
    if ids != [] {
      LagDrops(ids[1..], m, m', now, id);
      var d := ids[0];
      assert d in ids && id in ids <==> d == id || id in ids[1..];
      if d != id && d in m' && Due(m'[d], now) {
        assert d in m && Due(m[d], now) && m'[d].at >= m[d].at;
      }
    }
  }

  /** A pending timer sits in the queue slot it names, which has not had its turn. */
  ghost predicate PendOk(m: Timers, pendings: seq<Pending>, from: nat, id: Id)
    requires id in m
  {
    m[id].pending > 0 ==> from < m[id].pending <= |pendings| && pendings[m[id].pending - 1] == Queued(id)
  }

  ghost predicate EntryOk(m: Timers, pendings: seq<Pending>, i: nat)
    requires i < |pendings|
  {
    pendings[i].Queued? ==> pendings[i].id in m && m[pendings[i].id].pending == i + 1
  }

  ghost predicate Pended(m: Timers, pendings: seq<Pending>, from: nat) {
    && (forall id | id in m :: PendOk(m, pendings, from, id))
    && (forall i | from <= i < |pendings| :: EntryOk(m, pendings, i))
  }

  /** A change of schedules only leaves the pending queue as it is. */
  lemma SamePending(m: Timers, m': Timers, pendings: seq<Pending>, from: nat)
    requires Pended(m, pendings, from)
    requires m.Keys == m'.Keys && forall id | id in m :: m'[id].pending == m[id].pending
    ensures Pended(m', pendings, from)
  {
    forall id | id in m'
      ensures PendOk(m', pendings, from, id)
    {
      assert PendOk(m, pendings, from, id);
    }
    forall i: nat | from <= i < |pendings|
      ensures EntryOk(m', pendings, i)
    {
      assert EntryOk(m, pendings, i);
    }
  }

  /** A new timer that is not pending. */
  lemma Remember(m: Timers, m': Timers, pendings: seq<Pending>, from: nat, id: Id)
    requires Pended(m, pendings, from) && id !in m && m'.Keys == m.Keys + {id} && m'[id].pending == 0
    requires forall d | d in m :: m'[d].pending == m[d].pending
    ensures Pended(m', pendings, from)
  {
    forall d | d in m'
      ensures PendOk(m', pendings, from, d)
    {
      if d != id {
        assert PendOk(m, pendings, from, d);
      }
    }
    forall i: nat | from <= i < |pendings|
      ensures EntryOk(m', pendings, i)
    {
      assert EntryOk(m, pendings, i);
    }
  }

  /** A timer that is neither pending nor active can be forgotten. */
  lemma Forget(m: Timers, pendings: seq<Pending>, from: nat, h: seq<Id>, n: nat, id: Id)
    requires Pended(m, pendings, from) && Indexed(h, n, m, {}) && Heap(h, n, m)
    requires id in m && m[id].pending == 0 && m[id].index == 0
    ensures Pended(m - {id}, pendings, from) && Indexed(h, n, m - {id}, {}) && Heap(h, n, m - {id})
  {
    var l := m - {id};
    forall d | d in l
      ensures PendOk(l, pendings, from, d) && TimerOk(h, n, l, d)
    {
      assert PendOk(m, pendings, from, d) && TimerOk(h, n, m, d);
    }
    forall i: nat | from <= i < |pendings|
      ensures EntryOk(l, pendings, i)
    {
      assert EntryOk(m, pendings, i);
    }
    forall j: nat | 1 <= j <= n
      ensures SlotOk(h, l, j)
    {
      assert SlotOk(h, m, j);
    }
    forall j: nat | 2 <= j <= n
      ensures InOrder(h, l, j / 2, j)
    {
      assert InOrder(h, m, j / 2, j) && SlotOk(h, l, j) && SlotOk(h, l, j / 2);
    }
  }

  /** Growing the heap vector. */
  lemma Longer(h: seq<Id>, h': seq<Id>, n: nat, m: Timers)
    requires Indexed(h, n, m, {}) && Heap(h, n, m) && h <= h'
    ensures Indexed(h', n, m, {}) && Heap(h', n, m)
  {
    forall j: nat | 1 <= j <= n
      ensures SlotOk(h', m, j)
    {
      assert SlotOk(h, m, j);
    }
    forall d | d in m
      ensures TimerOk(h', n, m, d)
    {
      assert TimerOk(h, n, m, d);
    }
    forall j: nat | 2 <= j <= n
      ensures InOrder(h', m, j / 2, j)
    {
      assert InOrder(h, m, j / 2, j);
    }
  }

  ghost predicate Repeats(m: Timers) {
    forall id | id in m :: m[id].repeat >= 0
  }

  function ClearedTimer(t: EVTimer): EVTimer {
    if t.pending > 0 then t.(pending := 0, revents := 0) else t
  }

  /** What timer_stop makes of a timer. */
  function StoppedTimer(t: EVTimer, now: int): EVTimer {
    var c := ClearedTimer(t);
    if t.index > 0 then c.(index := 0, at := t.at - now) else c
  }

  /** Nothing but heap slots has changed for the other timers, and none has become active or inactive. */
  ghost predicate OthersMoved(m: Timers, m': Timers, id: Id) {
    forall d | d in m && d != id :: d in m' && MovedAt(m[d], m'[d], false)
  }

  /** What is left after a timer has been taken out of the heap and given its new value t. */
  lemma LeftHeap(h: seq<Id>, n: nat, m: Timers, m': Timers, id: Id, he: Id, t: EVTimer, pendings: seq<Pending>, from: nat)
    requires Moved(m, m', {id}, he) && id in m && he in m && m[he].index > 0
    requires Indexed(h, n, m', {id}) && Heap(h, n, m') && Pended(m, pendings, from)
    requires Repeats(m) && id in m' && t == m'[id].(at := t.at, index := 0)
    ensures m'[id] == m[id] && m'.Keys == m.Keys
    ensures OthersMoved(m, m'[id := t], id)
    ensures Indexed(h, n, m'[id := t], {}) && Heap(h, n, m'[id := t]) && Pended(m'[id := t], pendings, from)
    ensures Repeats(m'[id := t])
  {
    forall d | d in m
      ensures MovedAt(m[d], m'[d], false)
    {
      assert MovedAt(m[d], m'[d], d == he);
    }
    Inactive(h, n, m', id, t);
    SamePending(m, m'[id := t], pendings, from);
  }

  lemma NewMoved(m: Timers, w: EVTimer, m': Timers, id: Id, pendings: seq<Pending>, from: nat)
    requires id !in m && Moved(m[id := w], m', {}, id) && Pended(m, pendings, from) && w.pending == 0
    requires Repeats(m) && w.repeat >= 0
    ensures m'.Keys == m.Keys + {id} && OthersMoved(m, m', id) && m'[id] == w.(index := m'[id].index)
    ensures Pended(m', pendings, from)
    ensures Repeats(m')
  {
    var l := m[id := w];
    assert MovedAt(l[id], m'[id], true);
    forall d | d in m
      ensures MovedAt(m[d], m'[d], false)
    {
      assert MovedAt(l[d], m'[d], d == id);
    }
    Remember(m, m', pendings, from, id);
  }

  function WithoutEntry(pendings: seq<Pending>, pending: nat): seq<Pending>
    requires pending <= |pendings|
  {
    if pending > 0 then pendings[pending - 1 := Cleared] else pendings
  }

  class EV {
    var timerCnt: nat
    var timers: seq<Id>
    var timerMgr: Timers
    var pendings: seq<Pending>
    var steadyClock: int

    ghost predicate Scheduled()
      reads this
    {
      && Indexed(timers, timerCnt, timerMgr, {})
      && Heap(timers, timerCnt, timerMgr)
      && Repeats(timerMgr)
    }

    /** Between callbacks of a pending queue whose entries before `from` have had their turn. */
    ghost predicate ValidFrom(from: nat)
      reads this
    {
      Scheduled() && Pended(timerMgr, pendings, from)
    }

    ghost predicate Valid()
      reads this
    {
      ValidFrom(0)
    }

    constructor (now: int)
      ensures Valid() && timerMgr == map[] && pendings == [] && steadyClock == now
    {
      timerCnt, timers := 0, seq(GROWTH, _ => 0);
      timerMgr, pendings, steadyClock := map[], [], now;
    }

    /** Moves the entry of slot k up to where it belongs. */
    method UpHeap(k0: nat, ghost skip: set<Id>)
      requires 1 <= k0 <= timerCnt < |timers| && timers[k0] in timerMgr && timers[k0] !in skip
      requires Indexed(timers, timerCnt, Place(timerMgr, timers[k0], k0), skip)
      requires HeapAbove(timers, timerCnt, Place(timerMgr, timers[k0], k0), k0)
      modifies this`timers, this`timerMgr
      ensures Indexed(timers, timerCnt, timerMgr, skip) && Heap(timers, timerCnt, timerMgr)
      ensures Moved(old(timerMgr), timerMgr, skip, old(timers[k0])) && |timers| == |old(timers)|
      ensures old(timers[k0]) in timerMgr && timerMgr[old(timers[k0])].index > 0
    {
      hide Moved;
      var k, he := k0, timers[k0];
      NoneMoved(timerMgr, skip, he);
      assert timers[k := he] == timers;
      while true
        invariant 1 <= k <= timerCnt < |timers| && |timers| == |old(timers)| && he in timerMgr && he !in skip
        invariant Indexed(timers[k := he], timerCnt, Place(timerMgr, he, k), skip)
        invariant HeapAbove(timers[k := he], timerCnt, Place(timerMgr, he, k), k)
        invariant Moved(old(timerMgr), timerMgr, skip, he)
        decreases k
      {
        var p := k / 2;
        if p == 0 {
          break;
        }
        assert SlotOk(timers[k := he], Place(timerMgr, he, k), p);
        if timerMgr[timers[p]].at <= timerMgr[he].at {
          assert InOrder(timers[k := he], Place(timerMgr, he, k), p, k);
          break;
        }
        MoveHole(timers, timerCnt, timerMgr, skip, he, k, p);
        MoveUp(timers, timerCnt, timerMgr, skip, he, k);
        PlaceMoves(old(timerMgr), timerMgr, skip, he, timers[p], k);
        timers := timers[k := timers[p]];
        timerMgr := Place(timerMgr, timers[k], k);
        k := p;
      }
      PlaceMoves(old(timerMgr), timerMgr, skip, he, he, k);
      timers := timers[k := he];
      timerMgr := Place(timerMgr, he, k);
    }

    /** Moves the entry of slot k down to where it belongs. */
    method DownHeap(k0: nat, ghost skip: set<Id>)
      requires 1 <= k0 <= timerCnt < |timers| && timers[k0] in timerMgr && timers[k0] !in skip
      requires Indexed(timers, timerCnt, Place(timerMgr, timers[k0], k0), skip)
      requires HeapBelow(timers, timerCnt, Place(timerMgr, timers[k0], k0), k0)
      modifies this`timers, this`timerMgr
      ensures Indexed(timers, timerCnt, timerMgr, skip) && Heap(timers, timerCnt, timerMgr)
      ensures Moved(old(timerMgr), timerMgr, skip, old(timers[k0])) && |timers| == |old(timers)|
      ensures old(timers[k0]) in timerMgr && timerMgr[old(timers[k0])].index > 0
    {
      hide Indexed;
      hide Moved;
      hide HeapBelow;
      hide Heap;
      var k, he := k0, timers[k0];
      NoneMoved(timerMgr, skip, he);
      assert timers[k := he] == timers;
      while true
        invariant 1 <= k <= timerCnt < |timers| && |timers| == |old(timers)| && he in timerMgr && he !in skip
        invariant Indexed(timers[k := he], timerCnt, Place(timerMgr, he, k), skip)
        invariant HeapBelow(timers[k := he], timerCnt, Place(timerMgr, he, k), k)
        invariant Moved(old(timerMgr), timerMgr, skip, he)
        decreases timerCnt - k
      {
        ghost var g, l := timers[k := he], Place(timerMgr, he, k);
        var c := 2 * k;
        if c >= timerCnt + HEAP0 {
          NoneBelow(g, timerCnt, l, k);
          break;
        }
        SlotFact(g, timerCnt, l, skip, c);
        if c + 1 <= timerCnt {
          SlotFact(g, timerCnt, l, skip, c + 1);
        }
        if c + 1 < timerCnt + HEAP0 && timerMgr[timers[c]].at > timerMgr[timers[c + 1]].at {
          c := c + 1;
        }
        if timerMgr[he].at <= timerMgr[timers[c]].at {
          NoneSmallerBelow(g, timerCnt, l, k);
          break;
        }
        MoveHole(timers, timerCnt, timerMgr, skip, he, k, c);
        MoveDown(timers, timerCnt, timerMgr, skip, he, k, c);
        PlaceMoves(old(timerMgr), timerMgr, skip, he, timers[c], k);
        timers := timers[k := timers[c]];
        timerMgr := Place(timerMgr, timers[k], k);
        k := c;
      }
      PlaceMoves(old(timerMgr), timerMgr, skip, he, he, k);
      timers := timers[k := he];
      timerMgr := Place(timerMgr, he, k);
    }

    /** Restores the heap after slot k has been given another entry. */
    method AdjustHeap(k: nat, ghost skip: set<Id>)
      requires 1 <= k <= timerCnt < |timers| && timers[k] in timerMgr && timers[k] !in skip
      requires Indexed(timers, timerCnt, Place(timerMgr, timers[k], k), skip)
      requires HeapAround(timers, timerCnt, Place(timerMgr, timers[k], k), k)
      modifies this`timers, this`timerMgr
      ensures Indexed(timers, timerCnt, timerMgr, skip) && Heap(timers, timerCnt, timerMgr)
      ensures Moved(old(timerMgr), timerMgr, skip, old(timers[k])) && |timers| == |old(timers)|
    {
      ghost var m := Place(timerMgr, timers[k], k);
      assert SlotOk(timers, m, k) && (k >= 2 ==> SlotOk(timers, m, k / 2));
      if k > HEAP0 && timerMgr[timers[k]].at <= timerMgr[timers[k / 2]].at {
        AroundUp(timers, timerCnt, m, k);
        UpHeap(k, skip);
      } else {
        AroundDown(timers, timerCnt, m, k);
        DownHeap(k, skip);
      }
    }

    /** Adds events to a timer, queueing it if it is not queued. */
    method FeedEvent(id: Id, revents: bv8)
      requires ValidFrom(0) && id in timerMgr
      modifies this`timerMgr, this`pendings
      ensures ValidFrom(0)
      ensures id in timerMgr && timerMgr[id].pending > 0
      ensures timerMgr == old(timerMgr)[id := old(timerMgr[id]).(revents := old(timerMgr[id].revents) | revents,
                                                                  pending := timerMgr[id].pending)]
      ensures pendings == if old(timerMgr[id].pending) > 0 then old(pendings) else old(pendings) + [Queued(id)]
    {
      ghost var m := timerMgr;
      var t := timerMgr[id].(revents := timerMgr[id].revents | revents);
      assert PendOk(m, pendings, 0, id);
      if t.pending == 0 {
        pendings := pendings + [Queued(id)];
        t := t.(pending := |pendings|);
      }
      timerMgr := timerMgr[id := t];
      SameSchedule(timers, timerCnt, m, timerMgr);
      forall d | d in timerMgr
        ensures PendOk(timerMgr, pendings, 0, d)
      {
        assert PendOk(m, old(pendings), 0, d);
      }
      forall i: nat | i < |pendings|
        ensures EntryOk(timerMgr, pendings, i)
      {
        if i < |old(pendings)| {
          assert EntryOk(m, old(pendings), i);
        }
      }
    }

    /** Takes a timer out of the pending queue by emptying its slot. */
    method ClearPending(id: Id, ghost from: nat)
      requires ValidFrom(from) && id in timerMgr
      modifies this`timerMgr, this`pendings
      ensures ValidFrom(from)
      ensures timerMgr == old(timerMgr)[id := ClearedTimer(old(timerMgr[id]))]
      ensures old(timerMgr[id].pending) <= |old(pendings)|
      ensures pendings == WithoutEntry(old(pendings), old(timerMgr[id].pending))
    {
      ghost var m := timerMgr;
      assert PendOk(m, pendings, from, id);
      if timerMgr[id].pending > 0 {
        pendings := pendings[timerMgr[id].pending - 1 := Cleared];
        timerMgr := timerMgr[id := timerMgr[id].(revents := 0, pending := 0)];
        SameSchedule(timers, timerCnt, m, timerMgr);
        forall d | d in timerMgr
          ensures PendOk(timerMgr, pendings, from, d)
        {
          assert PendOk(m, old(pendings), from, d);
        }
        forall i: nat | from <= i < |pendings|
          ensures EntryOk(timerMgr, pendings, i)
        {
          assert EntryOk(m, old(pendings), i);
        }
      }
    }

    /** Closes the heap over the slot of a timer that is about to become inactive. */
    method CloseGap(id: Id) returns (ghost he: Id)
      requires Scheduled() && id in timerMgr && timerMgr[id].index > 0
      modifies this`timerCnt, this`timers, this`timerMgr
      ensures Moved(old(timerMgr), timerMgr, {id}, he) && he in old(timerMgr) && old(timerMgr[he].index) > 0
      ensures Indexed(timers, timerCnt, timerMgr, {id}) && Heap(timers, timerCnt, timerMgr)
    {
      ghost var n := timerCnt;
      var index := timerMgr[id].index;
      assert TimerOk(timers, timerCnt, timerMgr, id) && n < |timers|;
      hide Indexed;
      hide Heap;
      hide HeapAround;
      hide Moved;
      timerCnt := timerCnt - 1;
      if index < timerCnt + HEAP0 {
        FillSlot(timers, n, timerMgr, id);
        he := timers[n];
        timers := timers[index := timers[timerCnt + HEAP0]];
        AdjustHeap(index, {id});
      } else {
        he := id;
        DropLast(timers, n, timerMgr, id);
        NoneMoved(timerMgr, {id}, id);
      }
    }

    /** Takes a timer out of the heap, leaving it in the manager. */
    method LeaveHeap(id: Id, ghost from: nat)
      requires ValidFrom(from) && id in timerMgr && timerMgr[id].index > 0
      modifies this`timerCnt, this`timers, this`timerMgr
      ensures ValidFrom(from)
      ensures timerMgr.Keys == old(timerMgr.Keys) && OthersMoved(old(timerMgr), timerMgr, id)
      ensures timerMgr[id] == old(timerMgr[id]).(index := 0, at := old(timerMgr[id].at) - steadyClock)
    {
      hide Indexed;
      hide Heap;
      hide Pended;
      hide Moved;
      hide OthersMoved;
      hide Repeats;
      ghost var m := timerMgr;
      ghost var he := CloseGap(id);
      MovedKeys(m, timerMgr, {id}, he);
      var t := timerMgr[id].(at := timerMgr[id].at - steadyClock, index := 0);
      LeftHeap(timers, timerCnt, m, timerMgr, id, he, t, pendings, from);
      timerMgr := timerMgr[id := t];
    }

    /** timer_stop on a watcher: no longer pending, no longer active, still managed. */
    method StopTimer(id: Id, ghost from: nat)
      requires ValidFrom(from) && id in timerMgr
      modifies this`timerCnt, this`timers, this`timerMgr, this`pendings
      ensures ValidFrom(from)
      ensures timerMgr.Keys == old(timerMgr.Keys) && OthersMoved(old(timerMgr), timerMgr, id)
      ensures timerMgr[id] == StoppedTimer(old(timerMgr[id]), steadyClock)
      ensures old(timerMgr[id].pending) <= |old(pendings)|
      ensures pendings == WithoutEntry(old(pendings), old(timerMgr[id].pending))
    {
      ClearPending(id, from);
      if timerMgr[id].index == 0 {
        return;
      }
      LeaveHeap(id, from);
    }

    /** Stops the timer of an id and forgets it. */
    method TimerStop(id: Id, ghost from: nat) returns (ret: int)
      requires ValidFrom(from)
      modifies this`timerCnt, this`timers, this`timerMgr, this`pendings
      ensures ValidFrom(from)
      ensures ret == if id in old(timerMgr) then 0 else -1
      ensures timerMgr.Keys == old(timerMgr.Keys) - {id} && OthersMoved(old(timerMgr), timerMgr, id)
      ensures |pendings| == |old(pendings)|
      ensures forall i | 0 <= i < |pendings| :: pendings[i] == old(pendings[i]) || (pendings[i] == Cleared && old(pendings[i]) == Queued(id))
    {
      if id !in timerMgr {
        return -1;
      }
      ghost var m := timerMgr;
      assert PendOk(m, pendings, from, id);
      StopTimer(id, from);
      ghost var l := timerMgr;
      timerMgr := timerMgr - {id};
      Forget(l, pendings, from, timers, timerCnt, id);
      return 0;
    }

    /** Grows the heap vector to hold a slot. */
    method Reserve(index: nat)
      requires Scheduled() && timerCnt < index
      modifies this`timers
      ensures Scheduled() && index < |timers|
    {
      if |timers| < index + 1 {
        ghost var h := timers;
        timers := timers + seq(index + GROWTH - |timers|, _ => 0);
        Longer(h, timers, timerCnt, timerMgr);
      }
    }

    /** Starts a timer `after` from now. Returns the slot it was first put into. */
    method TimerStart(id: Id, after: int, repeat_: int, policy: int, ghost from: nat) returns (ret: int)
      requires ValidFrom(from) && repeat_ >= 0
      modifies this`timerCnt, this`timers, this`timerMgr
      ensures ValidFrom(from)
      ensures id in old(timerMgr) ==> ret == -1 && timerMgr == old(timerMgr)
      ensures id !in old(timerMgr) ==>
                && ret == timerCnt == old(timerCnt) + 1
                && timerMgr.Keys == old(timerMgr.Keys) + {id} && OthersMoved(old(timerMgr), timerMgr, id)
                && timerMgr[id] == EVTimer(0, 0, timerMgr[id].index, policy, steadyClock + after, repeat_) && timerMgr[id].index > 0
    {
      if id in timerMgr {
        return -1;
      }
      hide Indexed;
      hide Heap;
      hide HeapAbove;
      hide Pended;
      hide Moved;
      hide OthersMoved;
      hide Repeats;
      ghost var m := timerMgr;
      var w := EVTimer(0, 0, 0, policy, steadyClock + after, repeat_);
      var index := timerCnt + 1 + HEAP0 - 1;
      Reserve(index);
      NextSlot(timers, timerCnt, timerMgr, id, w);
      timerMgr := timerMgr[id := w];
      timerCnt := timerCnt + 1;
      timers := timers[index := id];
      UpHeap(index, {});
      NewMoved(m, w, timerMgr, id, pendings, from);
      return index;
    }

    /** EVTimer::reschedule: adjusts a timer that has fallen behind now. */
    method Reschedule(t: EVTimer, now: int) returns (t': EVTimer)
      requires t.repeat > 0
      ensures t' == t.(at := if t.policy == P_ALIGN then FirstNotBefore(t.at, t.repeat, now)
                             else if t.policy == P_SPIN then t.at else now)
    {
      t' := t;
      if t.policy == P_ALIGN {
        while t'.at < now
          invariant t' == t.(at := t'.at) && FirstNotBefore(t'.at, t.repeat, now) == FirstNotBefore(t.at, t.repeat, now)
        {
          t' := t'.(at := t'.at + t'.repeat);
        }
      } else if t.policy != P_SPIN {
        t' := t'.(at := now);
      }
    }

    /** One turn of the timer loop for a repeating timer at the top of the heap. */
    method AdvanceTop()
      requires Valid() && timerCnt > 0 && timers[HEAP0] in timerMgr
      requires timerMgr[timers[HEAP0]].repeat > 0 && timerMgr[timers[HEAP0]].at <= steadyClock
      modifies this`timers, this`timerMgr
      ensures Valid() && timerMgr.Keys == old(timerMgr.Keys)
      ensures OthersMoved(old(timerMgr), timerMgr, old(timers[HEAP0]))
      ensures var t, t' := old(timerMgr[timers[HEAP0]]), timerMgr[old(timers[HEAP0])];
              && t'.index > 0
              && t' == t.(index := t'.index, at := Advanced(t.policy, t.at, t.repeat, steadyClock))
    {
      ghost var m := timerMgr;
      var w := timers[HEAP0];
      assert SlotOk(timers, m, 1);
      var t := timerMgr[w].(at := timerMgr[w].at + timerMgr[w].repeat);
      if t.at < steadyClock {
        t := Reschedule(t, steadyClock);
      }
      AdvancedSettles(m[w].policy, m[w].at, m[w].repeat, steadyClock);
      hide Indexed;
      hide Heap;
      hide HeapBelow;
      hide Pended;
      hide Moved;
      hide OthersMoved;
      PostponeTop(timers, timerCnt, m, t);
      timerMgr := timerMgr[w := t];
      ghost var l := timerMgr;
      DownHeap(HEAP0, {});
      Postponed(m, l, timerMgr, w, pendings);
    }

    /** One turn of the timer loop: the first timer is advanced or stopped, and made pending. */
    method ReifyTop()
      requires Valid() && timerCnt > 0 && timers[HEAP0] in timerMgr && timerMgr[timers[HEAP0]].at <= steadyClock
      modifies this`timerCnt, this`timers, this`timerMgr, this`pendings
      ensures Valid() && TurnOf(old(timerMgr), timerMgr, old(timers[HEAP0]), steadyClock)
    {
      ghost var m := timerMgr;
      var w := timers[HEAP0];
      assert SlotOk(timers, m, 1) && Repeats(m);
      hide Indexed;
      hide Heap;
      hide Pended;
      hide OthersMoved;
      hide Repeats;
      hide TurnOf;
      hide Advanced;
      hide StoppedTimer;
      if timerMgr[w].repeat > 0 {
        AdvanceTop();
      } else {
        StopTimer(w, 0);
      }
      ghost var l := timerMgr;
      FeedEvent(w, EV_TIMER);
      FedTurn(m, l, timerMgr, w, steadyClock);
    }

    /** Makes every due timer pending and settles when it is due next. */
    method TimersReify()
      requires Valid()
      modifies this`timerCnt, this`timers, this`timerMgr, this`pendings
      ensures Valid() && timerMgr.Keys == old(timerMgr.Keys)
      ensures forall id | id in old(timerMgr) :: Reified(old(timerMgr[id]), timerMgr[id], steadyClock)
      ensures forall id | id in timerMgr && timerMgr[id].index > 0 :: timerMgr[id].at > steadyClock
    {
      ghost var m, ids := timerMgr, timers[1..timerCnt + 1];
      ActiveIn(timers, timerCnt, m, ids);
      while timerCnt > 0 && TopAt() <= steadyClock
        invariant Valid() && AllReifying(m, timerMgr, steadyClock)
        decreases Lag(ids, timerMgr, steadyClock)
      {
        ghost var before, w := timerMgr, timers[HEAP0];
        assert SlotOk(timers, before, 1);
        ReifyTop();
        TurnReifies(m, before, timerMgr, w, steadyClock);
        TurnDropsLag(m, before, timerMgr, w, steadyClock, ids);
      }
      NoneDue(timers, timerCnt, timerMgr, steadyClock);
    }

    /** A callback: any sequence of timer calls, each of which is carried out. */
    method RunCallback(ops: seq<Op>, ghost from: nat) returns (did: seq<Did>)
      requires ValidFrom(from) && from <= |pendings|
      modifies this`timerCnt, this`timers, this`timerMgr, this`pendings
      ensures ValidFrom(from) && |pendings| == |old(pendings)|
      ensures did == StopsOf(ops) && PlansOf(timerMgr) == Replay(ops, old(PlansOf(timerMgr)), steadyClock)
      ensures QueueAfter(old(pendings), pendings, old(timerMgr), timerMgr, from, did)
    {
      hide StopsOf;
      hide Replay;
      hide QueueAfter;
      did := [];
      ghost var v := PlansOf(timerMgr);
      NothingDone(timerMgr, pendings, from);
      NothingReplayed(ops, v, steadyClock);
      for i := 0 to |ops|
        invariant ValidFrom(from) && |pendings| == |old(pendings)|
        invariant did == StopsOf(ops[..i]) && PlansOf(timerMgr) == Replay(ops[..i], v, steadyClock)
        invariant QueueAfter(old(pendings), pendings, old(timerMgr), timerMgr, from, did)
      {
        ghost var m, queue := timerMgr, pendings;
        OneReplayedMore(ops, i, v, steadyClock);
        match ops[i] {
          case Start(id, after, repeat_, policy) =>
            var ret := TimerStart(id, after, repeat_, policy, from);
            StartKeepsQueue(old(pendings), pendings, old(timerMgr), m, timerMgr, from, did, id);
            StartPlanned(m, timerMgr, id, after, repeat_, policy, steadyClock);
          case Stop(id) =>
            var ret := TimerStop(id, from);
            StopKeepsQueue(old(pendings), queue, pendings, old(timerMgr), m, timerMgr, from, did, id);
            StopPlanned(m, timerMgr, id, steadyClock);
            did := did + [Stopped(id)];
        }
      }
      assert ops[..|ops|] == ops;
    }

    /** Calls back every pending watcher in queue order; scripts[i] is what the i-th callback does. The log is what has been
        called and stopped, in order. */
    method InvokePending(scripts: seq<seq<Op>>) returns (log: seq<Did>)
      requires Valid()
      modifies this`timerCnt, this`timers, this`timerMgr, this`pendings
      ensures Valid() && pendings == [] && forall id | id in timerMgr :: timerMgr[id].pending == 0
      ensures Pass(PlansOf(timerMgr), log) == Turns(old(pendings), scripts, |old(pendings)|, old(PlansOf(timerMgr)), steadyClock)
      ensures OneEntryEach(old(pendings), old(PlansOf(timerMgr)))
      ensures CallsOk(old(timerMgr), log)
      ensures forall id | id in old(timerMgr) && old(timerMgr[id].pending) > 0 ::
                Stopped(id) in log || Called(id, old(timerMgr[id].revents)) in log
    {
      log := [];
      ghost var m0, queue, v := timerMgr, pendings, PlansOf(timerMgr);
      hide Turns;
      NothingDone(timerMgr, pendings, 0);
      NoTurnsYet(queue, scripts, v, steadyClock);
      QueuedOnce(m0, queue);
      for i := 0 to |pendings|
        invariant |pendings| == |queue| && ValidFrom(i)
        invariant Pended(m0, queue, 0) && Invoking(m0, queue, timerMgr, pendings, i, log)
        invariant Pass(PlansOf(timerMgr), log) == Turns(queue, scripts, i, v, steadyClock)
      {
        log := InvokeEntry(Script(scripts, i), i, scripts, m0, queue, v, log);
      }
      AllInvoked(m0, queue, timerMgr, pendings, log);
      pendings := [];
    }

    /** One turn of the invoke loop. */
    method InvokeEntry(ops: seq<Op>, i: nat, ghost scripts: seq<seq<Op>>, ghost m0: Timers, ghost queue: seq<Pending>, ghost v: Plans,
                       log: seq<Did>) returns (log': seq<Did>)
      requires i < |pendings| == |queue| && ValidFrom(i) && ops == Script(scripts, i)
      requires Pended(m0, queue, 0) && Invoking(m0, queue, timerMgr, pendings, i, log)
      requires Pass(PlansOf(timerMgr), log) == Turns(queue, scripts, i, v, steadyClock)
      modifies this`timerCnt, this`timers, this`timerMgr, this`pendings
      ensures |pendings| == |old(pendings)| && ValidFrom(i + 1)
      ensures Invoking(m0, queue, timerMgr, pendings, i + 1, log')
      ensures Pass(PlansOf(timerMgr), log') == Turns(queue, scripts, i + 1, v, steadyClock)
    {
      hide Invoking;
      hide Replay;
      hide StopsOf;
      hide Turns;
      ghost var m, q := timerMgr, pendings;
      TurnTaken(m, q, i, timers, timerCnt);
      TurnIs(m0, queue, m, q, i, log, scripts, v, steadyClock);
      if pendings[i].Queued? && timerMgr[pendings[i].id].pending != 0 {
        var id := pendings[i].id;
        var events := timerMgr[id].revents;
        timerMgr := timerMgr[id := timerMgr[id].(pending := 0, revents := 0)];
        ghost var l := timerMgr;
        var did := RunCallback(ops, i + 1);
        log' := log + [Called(id, events)] + did;
        StopsListed(ops);
        CalledBack(m0, queue, m, q, l, timerMgr, pendings, i, log, did);
      } else {
        log' := log;
        PassedOver(m0, queue, m, q, i, log);
      }
    }

    function TopAt(): int
      requires Scheduled() && timerCnt > 0
      reads this
    {
      assert SlotOk(timers, timerMgr, HEAP0);
      timerMgr[timers[HEAP0]].at
    }
  }

  /** The effect of one turn of the timer loop on the timers. */
  ghost predicate TurnOf(m: Timers, m': Timers, w: Id, now: int) {
    && m.Keys == m'.Keys && w in m && Due(m[w], now) && m'[w].pending > 0
    && (if m[w].repeat > 0 then
          && m'[w].index > 0
          && m'[w] == m[w].(index := m'[w].index, pending := m'[w].pending, revents := m[w].revents | EV_TIMER,
                            at := Advanced(m[w].policy, m[w].at, m[w].repeat, now))
        else
          m'[w] == m[w].(index := 0, pending := m'[w].pending, revents := ClearedTimer(m[w]).revents | EV_TIMER, at := m[w].at - now))
    && OthersMoved(m, m', w)
  }

  lemma FedTurn(m: Timers, l: Timers, m': Timers, w: Id, now: int)
    requires w in m && Due(m[w], now) && m.Keys == l.Keys && OthersMoved(m, l, w)
    requires if m[w].repeat > 0 then
               l[w].index > 0
               && l[w] == m[w].(index := l[w].index, at := Advanced(m[w].policy, m[w].at, m[w].repeat, now))
             else l[w] == StoppedTimer(m[w], now)
    requires w in m' && m'[w].pending > 0
    requires m' == l[w := l[w].(revents := l[w].revents | EV_TIMER, pending := m'[w].pending)]
    ensures TurnOf(m, m', w, now)
  {
    forall d | d in m && d != w
      ensures MovedAt(m[d], m'[d], false)
    {
      assert MovedAt(m[d], l[d], false);
    }
  }

  /** Every active timer is among the heap's entries. */
  lemma ActiveIn(h: seq<Id>, n: nat, m: Timers, ids: seq<Id>)
    requires Indexed(h, n, m, {}) && ids == h[1..n + 1]
    ensures forall id | id in m && m[id].index > 0 :: id in ids
  {
    forall id | id in m && m[id].index > 0
      ensures id in ids
    {
      assert TimerOk(h, n, m, id);
      assert ids[m[id].index - 1] == id;
    }
  }

  lemma NoneDue(h: seq<Id>, n: nat, m: Timers, now: int)
    requires Indexed(h, n, m, {}) && Heap(h, n, m)
    requires n > 0 ==> h[1] in m && m[h[1]].at > now
    ensures forall id | id in m :: !Due(m[id], now)
  {
    forall id | id in m && m[id].index > 0
      ensures m[id].at > now
    {
      assert TimerOk(h, n, m, id);
      TopIsFirst(h, n, m, m[id].index);
    }
  }

  lemma TurnReifies(m: Timers, l: Timers, l': Timers, w: Id, now: int)
    requires AllReifying(m, l, now) && TurnOf(l, l', w, now)
    ensures AllReifying(m, l', now)
  {
    forall id | id in m
      ensures Reifying(m[id], l'[id], now)
    {
      assert Reifying(m[id], l[id], now);
      if id == w {
        TurnReifiesTop(m[w], l[w], l'[w], now);
      } else {
        assert MovedAt(l[id], l'[id], false);
      }
    }
  }

  lemma TurnReifiesTop(t: EVTimer, u: EVTimer, u': EVTimer, now: int)
    requires Reifying(t, u, now) && Due(u, now) && u'.pending > 0
    requires if u.repeat > 0 then
               && u'.index > 0
               && u' == u.(index := u'.index, pending := u'.pending, revents := u.revents | EV_TIMER,
                           at := Advanced(u.policy, u.at, u.repeat, now))
             else
               u' == u.(index := 0, pending := u'.pending, revents := ClearedTimer(u).revents | EV_TIMER, at := u.at - now)
    ensures Reifying(t, u', now)
  {
    if t.repeat > 0 {
      AdvancedSettles(t.policy, t.at, t.repeat, now);
      assert !Reified(t, u, now);
      AdvancedSettles(t.policy, u.at, t.repeat, now);
      assert (t.revents | EV_TIMER) | EV_TIMER == t.revents | EV_TIMER;
      assert u'.revents == t.revents | EV_TIMER;
      assert u'.at > now ==> Settled(t.policy, u'.at, t.repeat, now) == u'.at;
    }
  }

  lemma TurnDropsLag(m: Timers, l: Timers, l': Timers, w: Id, now: int, ids: seq<Id>)
    requires AllReifying(m, l, now) && TurnOf(l, l', w, now)
    requires forall id | id in m && m[id].index > 0 :: id in ids
    ensures Lag(ids, l', now) < Lag(ids, l, now)
  {
    assert Reifying(m[w], l[w], now);
    if l[w].repeat > 0 {
      AdvancedSettles(l[w].policy, l[w].at, l[w].repeat, now);
    }
    forall d | d in ids && d != w && d in l' && Due(l'[d], now)
      ensures d in l && Due(l[d], now) && l'[d].at >= l[d].at
    {
      assert MovedAt(l[d], l'[d], false);
    }
    assert w in ids;
    LagDrops(ids, l, l', now, w);
  }

  /** One entry of the pending queue across callbacks: still there with its events, or emptied by a stop. */
  ghost predicate EntryAfter(before: Pending, after: Pending, m: Timers, m': Timers, did: seq<Did>) {
    match before
    case Cleared => after == Cleared
    case Queued(id) =>
      || (after == Cleared && Stopped(id) in did)
      || (after == before && Stopped(id) !in did && id in m && id in m' && m'[id].revents == m[id].revents)
  }

  ghost predicate QueueAfter(queue: seq<Pending>, queue': seq<Pending>, m: Timers, m': Timers, from: nat, did: seq<Did>) {
    |queue| == |queue'| && forall k | from <= k < |queue| :: EntryAfter(queue[k], queue'[k], m, m', did)
  }

  lemma NothingDone(m: Timers, queue: seq<Pending>, from: nat)
    requires Pended(m, queue, from)
    ensures QueueAfter(queue, queue, m, m, from, [])
    ensures from == 0 ==> Invoking(m, queue, m, queue, 0, [])
  {
    forall k: nat | from <= k < |queue|
      ensures EntryAfter(queue[k], queue[k], m, m, [])
    {
      assert EntryOk(m, queue, k);
    }
  }

  /** Every call was of a timer pending at the start, with the events it then had, before any stop of it;
      the calls follow the order of the queue, so no timer is called twice. */
  ghost predicate CallsOk(m0: Timers, log: seq<Did>) {
    && (forall j | 0 <= j < |log| && log[j].Called? ::
          log[j].id in m0 && m0[log[j].id].pending > 0 && log[j].events == m0[log[j].id].revents
          && Stopped(log[j].id) !in log[..j])
    && (forall j, k | 0 <= j < k < |log| && log[j].Called? && log[k].Called? ::
          log[j].id in m0 && log[k].id in m0 && m0[log[j].id].pending < m0[log[k].id].pending)
  }

  /** The first i entries of the queue have had their turn; m0 and queue are what invoke_pending started with. */
  ghost predicate Invoking(m0: Timers, queue: seq<Pending>, m: Timers, q: seq<Pending>, i: nat, log: seq<Did>) {
    && QueueAfter(queue, q, m0, m, i, log)
    && CallsOk(m0, log)
    && (forall d | d in log && d.Called? :: d.id in m0 && m0[d.id].pending <= i)
    && (forall id | id in m0 && 0 < m0[id].pending <= i :: Stopped(id) in log || Called(id, m0[id].revents) in log)
  }

  /** Once entry i has had its turn it no longer makes anything pending. */
  lemma TurnTaken(m: Timers, q: seq<Pending>, i: nat, h: seq<Id>, n: nat)
    requires i < |q| && Pended(m, q, i) && Indexed(h, n, m, {}) && Heap(h, n, m)
    ensures q[i].Queued? ==> q[i].id in m && m[q[i].id].pending == i + 1
    ensures q[i] == Cleared ==> Pended(m, q, i + 1)
    ensures q[i].Queued? ==>
              var l := m[q[i].id := m[q[i].id].(pending := 0, revents := 0)];
              Pended(l, q, i + 1) && Indexed(h, n, l, {}) && Heap(h, n, l)
  {
    assert EntryOk(m, q, i);
    var l := if q[i].Queued? then m[q[i].id := m[q[i].id].(pending := 0, revents := 0)] else m;
    SameSchedule(h, n, m, l);
    forall d | d in l
      ensures PendOk(l, q, i + 1, d)
    {
      assert PendOk(m, q, i, d);
    }
    forall k: nat | i + 1 <= k < |q|
      ensures EntryOk(l, q, k)
    {
      assert EntryOk(m, q, k);
    }
  }

  lemma PassedOver(m0: Timers, queue: seq<Pending>, m: Timers, q: seq<Pending>, i: nat, log: seq<Did>)
    requires Pended(m0, queue, 0) && Invoking(m0, queue, m, q, i, log) && i < |q| && q[i] == Cleared
    ensures Invoking(m0, queue, m, q, i + 1, log)
  {
    assert EntryAfter(queue[i], q[i], m0, m, log);
    forall id | id in m0 && 0 < m0[id].pending <= i + 1
      ensures Stopped(id) in log || Called(id, m0[id].revents) in log
    {
      assert PendOk(m0, queue, 0, id);
    }
  }

  lemma CallAppended(m0: Timers, log: seq<Did>, call: Did, did: seq<Did>)
    requires CallsOk(m0, log) && call.Called? && call.id in m0 && 0 < m0[call.id].pending
    requires call.events == m0[call.id].revents && Stopped(call.id) !in log
    requires forall d | d in log && d.Called? :: d.id in m0 && m0[d.id].pending < m0[call.id].pending
    requires forall d | d in did :: d.Stopped?
    ensures CallsOk(m0, log + [call] + did)
  {
    var log' := log + [call] + did;
    forall j | |log| < j < |log'|
      ensures !log'[j].Called?
    {
      var d := did[j - |log| - 1];
      assert log'[j] == d && d in did;
    }
    forall j | 0 <= j <= |log|
      ensures log'[..j] == log[..j] && (j < |log| ==> log'[j] == log[j] && log[j] in log)
    {
    }
    assert log'[|log|] == call;
  }

  lemma CalledBack(m0: Timers, queue: seq<Pending>, m: Timers, q: seq<Pending>, l: Timers, m': Timers, q': seq<Pending>,
                   i: nat, log: seq<Did>, did: seq<Did>)
    requires Pended(m0, queue, 0) && Invoking(m0, queue, m, q, i, log) && Pended(m, q, i)
    requires i < |q| && q[i].Queued? && q[i].id in m && l == m[q[i].id := m[q[i].id].(pending := 0, revents := 0)]
    requires QueueAfter(q, q', l, m', i + 1, did) && forall d | d in did :: d.Stopped?
    ensures Invoking(m0, queue, m', q', i + 1, log + [Called(q[i].id, m[q[i].id].revents)] + did)
  {
    var id := q[i].id;
    var call := Called(id, m[id].revents);
    var log' := log + [call] + did;
    assert EntryAfter(queue[i], q[i], m0, m, log) && EntryOk(m0, queue, i) && EntryOk(m, q, i);
    CallAppended(m0, log, call, did);
    forall k: nat | i + 1 <= k < |queue|
      ensures EntryAfter(queue[k], q'[k], m0, m', log')
    {
      assert EntryAfter(queue[k], q[k], m0, m, log) && EntryOk(m, q, k);
      assert EntryAfter(q[k], q'[k], l, m', did);
    }
    forall d | d in m0 && 0 < m0[d].pending <= i + 1
      ensures Stopped(d) in log' || Called(d, m0[d].revents) in log'
    {
      assert PendOk(m0, queue, 0, d);
      if m0[d].pending <= i {
        assert Stopped(d) in log || Called(d, m0[d].revents) in log;
      }
    }
  }

  lemma AllInvoked(m0: Timers, queue: seq<Pending>, m: Timers, q: seq<Pending>, log: seq<Did>)
    requires Pended(m0, queue, 0) && Invoking(m0, queue, m, q, |q|, log) && Pended(m, q, |q|)
    ensures Pended(m, [], 0) && CallsOk(m0, log)
    ensures forall id | id in m :: m[id].pending == 0
    ensures forall id | id in m0 && m0[id].pending > 0 :: Stopped(id) in log || Called(id, m0[id].revents) in log
  {
    forall id | id in m
      ensures m[id].pending == 0
    {
      assert PendOk(m, q, |q|, id);
    }
    forall id | id in m0
      ensures m0[id].pending <= |q|
    {
      assert PendOk(m0, queue, 0, id);
    }
  }

  lemma StartKeepsQueue(queue: seq<Pending>, q: seq<Pending>, m: Timers, l: Timers, l': Timers, from: nat, did: seq<Did>, id: Id)
    requires QueueAfter(queue, q, m, l, from, did)
    requires l' == l || (id !in l && l'.Keys == l.Keys + {id} && OthersMoved(l, l', id))
    ensures QueueAfter(queue, q, m, l', from, did)
  {
    forall k | from <= k < |queue|
      ensures EntryAfter(queue[k], q[k], m, l', did)
    {
      assert EntryAfter(queue[k], q[k], m, l, did);
      if q[k].Queued? && l' != l {
        assert MovedAt(l[q[k].id], l'[q[k].id], false);
      }
    }
  }

  lemma StopKeepsQueue(queue: seq<Pending>, q: seq<Pending>, q': seq<Pending>, m: Timers, l: Timers, l': Timers,
                       from: nat, did: seq<Did>, id: Id)
    requires QueueAfter(queue, q, m, l, from, did)
    requires |q'| == |q| && forall k | 0 <= k < |q| :: q'[k] == q[k] || (q'[k] == Cleared && q[k] == Queued(id))
    requires l'.Keys == l.Keys - {id} && OthersMoved(l, l', id) && Pended(l', q', from)
    ensures QueueAfter(queue, q', m, l', from, did + [Stopped(id)])
  {
    forall k | from <= k < |queue|
      ensures EntryAfter(queue[k], q'[k], m, l', did + [Stopped(id)])
    {
      assert EntryAfter(queue[k], q[k], m, l, did);
      assert EntryOk(l', q', k);
      if q'[k].Queued? {
        assert MovedAt(l[q[k].id], l'[q[k].id], false);
      }
    }
  }

  lemma Postponed(m: Timers, l: Timers, m': Timers, w: Id, pendings: seq<Pending>)
    requires w in m && m[w].index > 0 && l.Keys == m.Keys && l == m[w := l[w]] && Moved(l, m', {}, w) && Pended(m, pendings, 0)
    requires l[w].index > 0 && l[w].pending == m[w].pending && l[w].repeat == m[w].repeat && Repeats(m)
    ensures m'.Keys == m.Keys && OthersMoved(m, m', w) && Pended(m', pendings, 0) && Repeats(m')
    ensures m'[w] == l[w].(index := m'[w].index) && m'[w].index > 0
  {
    assert MovedAt(l[w], m'[w], true);
    forall d | d in m && d != w
      ensures MovedAt(m[d], m'[d], false)
    {
      assert MovedAt(l[d], m'[d], false);
    }
    SamePending(m, m', pendings, 0);
  }

  lemma NothingReplayed(ops: seq<Op>, v: Plans, now: int)
    ensures StopsOf(ops[..0]) == [] && Replay(ops[..0], v, now) == v
  {
  }

  lemma OneReplayedMore(ops: seq<Op>, i: nat, v: Plans, now: int)
    requires i < |ops|
    ensures Replay(ops[..i + 1], v, now) == Effect(ops[i], Replay(ops[..i], v, now), now)
    ensures StopsOf(ops[..i + 1]) == StopsOf(ops[..i]) + if ops[i].Stop? then [Stopped(ops[i].id)] else []
  {
    assert ops[..i + 1][..i] == ops[..i];
    assert StopsOf(ops[..i]) + [] == StopsOf(ops[..i]);
  }

  /** What starting and stopping a timer comes to. */
  lemma StartPlanned(m: Timers, m': Timers, id: Id, after: int, repeat_: nat, policy: int, now: int)
    requires id in m ==> m' == m
    requires id !in m ==> m'.Keys == m.Keys + {id} && OthersMoved(m, m', id) && m'[id].index > 0
                          && m'[id] == EVTimer(0, 0, m'[id].index, policy, now + after, repeat_)
    ensures PlansOf(m') == Effect(Start(id, after, repeat_, policy), PlansOf(m), now)
  {
    if id !in m {
      SamePlans(m, m', id);
    }
  }

  lemma StopPlanned(m: Timers, m': Timers, id: Id, now: int)
    requires m'.Keys == m.Keys - {id} && OthersMoved(m, m', id)
    ensures PlansOf(m') == Effect(Stop(id), PlansOf(m), now)
  {
    forall d | d in m'
      ensures PlanOf(m'[d]) == PlanOf(m[d])
    {
      assert MovedAt(m[d], m'[d], false);
    }
  }

  lemma SamePlans(m: Timers, m': Timers, id: Id)
    requires OthersMoved(m, m', id)
    ensures forall d | d in m && d != id :: d in m' && PlanOf(m'[d]) == PlanOf(m[d])
  {
    forall d | d in m && d != id
      ensures d in m' && PlanOf(m'[d]) == PlanOf(m[d])
    {
      assert MovedAt(m[d], m'[d], false);
    }
  }

  lemma NoTurnsYet(queue: seq<Pending>, scripts: seq<seq<Op>>, v: Plans, now: int)
    ensures Turns(queue, scripts, 0, v, now) == Pass(v, [])
  {
  }

  lemma QueuedOnce(m: Timers, queue: seq<Pending>)
    requires Pended(m, queue, 0)
    ensures OneEntryEach(queue, PlansOf(m))
  {
    forall i | 0 <= i < |queue| && queue[i].Queued?
      ensures queue[i].id in m && m[queue[i].id].pending == i + 1
    {
      assert EntryOk(m, queue, i);
    }
  }

  /** The next turn, by what the queue has become: its entry is called if it has not been emptied. */
  lemma TurnIs(m0: Timers, queue: seq<Pending>, m: Timers, q: seq<Pending>, i: nat, log: seq<Did>, scripts: seq<seq<Op>>, v: Plans, now: int)
    requires Pended(m0, queue, 0) && Invoking(m0, queue, m, q, i, log) && Pended(m, q, i) && i < |q| == |queue|
    requires Pass(PlansOf(m), log) == Turns(queue, scripts, i, v, now) && (q[i].Queued? ==> q[i].id in m)
    ensures Turns(queue, scripts, i + 1, v, now) ==
              if q[i] == Cleared then Pass(PlansOf(m), log)
              else
                var id, ops := q[i].id, Script(scripts, i);
                Pass(Replay(ops, PlansOf(m[id := m[id].(pending := 0, revents := 0)]), now), log + [Called(id, m[id].revents)] + StopsOf(ops))
  {
    hide Replay;
    hide StopsOf;
    hide Script;
    assert EntryAfter(queue[i], q[i], m0, m, log) && EntryOk(m0, queue, i) && EntryOk(m, q, i);
    if q[i].Queued? {
      var id := q[i].id;
      assert PlansOf(m[id := m[id].(pending := 0, revents := 0)]) == PlansOf(m)[id := PlansOf(m)[id].(queued := false, events := 0)];
    } else if queue[i].Queued? {
      EmptiedNotDue(m0, queue, m, q, i, log);
    }
  }

  /** A timer whose entry has been emptied is not pending in any other. */
  lemma EmptiedNotDue(m0: Timers, queue: seq<Pending>, m: Timers, q: seq<Pending>, i: nat, log: seq<Did>)
    requires Pended(m0, queue, 0) && Invoking(m0, queue, m, q, i, log) && Pended(m, q, i) && i < |q| == |queue|
    requires queue[i].Queued? && q[i] == Cleared
    ensures !IsDue(queue[i], PlansOf(m))
  {
    hide Invoking;
    var id := queue[i].id;
    assert EntryOk(m0, queue, i);
    if id in m && m[id].pending > 0 {
      PendingWhere(m0, queue, m, q, i, log, id);
    }
  }

  lemma PendingWhere(m0: Timers, queue: seq<Pending>, m: Timers, q: seq<Pending>, i: nat, log: seq<Did>, id: Id)
    requires Pended(m0, queue, 0) && Invoking(m0, queue, m, q, i, log) && Pended(m, q, i) && |q| == |queue|
    requires id in m && m[id].pending > 0
    ensures id in m0 && i < m[id].pending == m0[id].pending <= |q| && q[m[id].pending - 1] == Queued(id)
  {
    assert PendOk(m, q, i, id);
    var k := m[id].pending - 1;
    assert EntryAfter(queue[k], q[k], m0, m, log) && EntryOk(m0, queue, k);
  }
}
