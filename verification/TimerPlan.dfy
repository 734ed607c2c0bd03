/**
 * What working off the pending queue comes to, as a caller can tell: which timers are known, when each is due, which are
 * called and what the callbacks do (EV::invoke_pending, engine/src/ev/ev.cpp). Heap slots and queue places do not matter here.
 */
module TimerPlans {
  import opened TimerHeaps

  // What a callback may do to timers, and what happened while the pending queue was worked off.
  datatype Op = Start(id: Id, after: int, repeat_: nat, policy: int) | Stop(id: Id)
  datatype Did = Called(id: Id, events: bv8) | Stopped(id: Id)

  // A pending queue entry: a watcher, or a slot that clear_pending emptied.
  datatype Pending = Cleared | Queued(id: Id)

  // What there is to know of a timer.
  datatype Plan = Plan(policy: int, at: int, repeat: int, active: bool, queued: bool, events: bv8)

  type Plans = map<Id, Plan>

  ghost function PlanOf(t: EVTimer): Plan { Plan(t.policy, t.at, t.repeat, t.index > 0, t.pending > 0, t.revents) }

  ghost function PlansOf(m: Timers): Plans { map id | id in m :: PlanOf(m[id]) }

  /** One timer call: a start of a known id is refused, a stop forgets the id. */
  ghost function Effect(op: Op, v: Plans, now: int): Plans {
    match op
    case Start(id, after, repeat_, policy) => if id in v then v else v[id := Plan(policy, now + after, repeat_, true, false, 0)]
    case Stop(id) => v - {id}
  }

  ghost function Replay(ops: seq<Op>, v: Plans, now: int): Plans {
    if ops == [] then v else Effect(ops[|ops| - 1], Replay(ops[..|ops| - 1], v, now), now)
  }

  /** The stops among some calls, in order. */
  ghost function StopsOf(ops: seq<Op>): seq<Did> {
    if ops == [] then []
    else StopsOf(ops[..|ops| - 1]) + (match ops[|ops| - 1] case Start(_, _, _, _) => [] case Stop(id) => [Stopped(id)])
  }

  function Script(scripts: seq<seq<Op>>, i: nat): seq<Op> { if i < |scripts| then scripts[i] else [] }

  ghost predicate IsDue(e: Pending, v: Plans) { e.Queued? && e.id in v && v[e.id].queued }

  // What the first turns have come to.
  datatype Pass = Pass(plans: Plans, log: seq<Did>)

  /** The first n entries of the queue have had their turn; the n-th callback makes the calls of the n-th script. */
  ghost function Turns(queue: seq<Pending>, scripts: seq<seq<Op>>, n: nat, v: Plans, now: int): Pass
    requires n <= |queue|
  {
    if n == 0 then Pass(v, [])
    else
      var p := Turns(queue, scripts, n - 1, v, now);
      if !IsDue(queue[n - 1], p.plans) then p
      else
        var id, ops := queue[n - 1].id, Script(scripts, n - 1);
        Pass(Replay(ops, p.plans[id := p.plans[id].(queued := false, events := 0)], now),
             p.log + [Called(id, p.plans[id].events)] + StopsOf(ops))
  }

  /** Entry k is called back. */
  ghost predicate CallsBack(queue: seq<Pending>, scripts: seq<seq<Op>>, k: nat, v: Plans, now: int)
    requires k < |queue|
  {
    IsDue(queue[k], Turns(queue, scripts, k, v, now).plans)
  }

  lemma {:induction false} StopsListed(ops: seq<Op>)
    ensures forall d :: d in StopsOf(ops) <==> d.Stopped? && Stop(d.id) in ops
  {
    if ops != [] {
      StopsListed(ops[..|ops| - 1]);
      assert ops == ops[..|ops| - 1] + [ops[|ops| - 1]];
    }
  }

  /** The script of one of the first n entries, which is called, stops id. */
  ghost predicate StoppedBy(queue: seq<Pending>, scripts: seq<seq<Op>>, n: nat, v: Plans, now: int, id: Id)
    requires n <= |queue|
  {
    exists k: nat :: k < n && CallsBack(queue, scripts, k, v, now) && Stop(id) in Script(scripts, k)
  }

  lemma OneTurnMore(queue: seq<Pending>, scripts: seq<seq<Op>>, n: nat, v: Plans, now: int, id: Id)
    requires n < |queue|
    ensures StoppedBy(queue, scripts, n + 1, v, now, id) <==>
              StoppedBy(queue, scripts, n, v, now, id) || (CallsBack(queue, scripts, n, v, now) && Stop(id) in Script(scripts, n))
  {
    hide CallsBack;
    hide Script;
  }

  /** A stop is in the log exactly if the script of a called entry makes it. */
  lemma {:induction false} StopsInLog(queue: seq<Pending>, scripts: seq<seq<Op>>, n: nat, v: Plans, now: int, id: Id)
    requires n <= |queue|
    ensures Stopped(id) in Turns(queue, scripts, n, v, now).log <==> StoppedBy(queue, scripts, n, v, now, id)
  {
    if n > 0 {
      StopsInLog(queue, scripts, n - 1, v, now, id);
      OneTurnMore(queue, scripts, n - 1, v, now, id);
      StopsListed(Script(scripts, n - 1));
      hide StopsOf;
      hide Replay;
      hide StoppedBy;
      hide Script;
    }
  }

  /** A call is in the log exactly if an entry is called, with the events that its timer has by then. */
  lemma {:induction false} CallsInLog(queue: seq<Pending>, scripts: seq<seq<Op>>, n: nat, v: Plans, now: int, id: Id, events: bv8)
    requires n <= |queue|
    ensures Called(id, events) in Turns(queue, scripts, n, v, now).log <==>
              exists k: nat :: k < n && CallsBack(queue, scripts, k, v, now) && queue[k] == Queued(id)
                               && Turns(queue, scripts, k, v, now).plans[id].events == events
  {
    if n > 0 {
      CallsInLog(queue, scripts, n - 1, v, now, id, events);
      StopsListed(Script(scripts, n - 1));
      hide StopsOf;
      hide Replay;
      hide Script;
      var p, q := Turns(queue, scripts, n - 1, v, now), Turns(queue, scripts, n, v, now);
      assert CallsBack(queue, scripts, n - 1, v, now) <==> IsDue(queue[n - 1], p.plans);
      assert Called(id, events) in q.log <==>
             Called(id, events) in p.log
             || (IsDue(queue[n - 1], p.plans) && queue[n - 1] == Queued(id) && p.plans[id].events == events);
    }
  }

  /** A replay never queues a timer; one that is queued stays so, with its events, exactly if it is not stopped. */
  lemma {:induction false} ReplayKeepsQueued(ops: seq<Op>, v: Plans, now: int, id: Id)
    ensures var w := Replay(ops, v, now);
            id in w && w[id].queued <==> id in v && v[id].queued && Stop(id) !in ops
    ensures var w := Replay(ops, v, now); id in w && w[id].queued ==> w[id] == v[id]
  {
    if ops != [] {
      ReplayKeepsQueued(ops[..|ops| - 1], v, now, id);
      assert ops == ops[..|ops| - 1] + [ops[|ops| - 1]];
    }
  }

  /** Every timer that is queued has one entry. */
  ghost predicate OneEntryEach(queue: seq<Pending>, v: Plans) {
    && (forall i, j | 0 <= i < j < |queue| && queue[i].Queued? :: queue[i] != queue[j])
    && forall i | 0 <= i < |queue| && queue[i].Queued? :: queue[i].id in v && v[queue[i].id].queued
  }

  lemma {:induction false} StillQueued(queue: seq<Pending>, scripts: seq<seq<Op>>, n: nat, k: nat, v: Plans, now: int)
    requires OneEntryEach(queue, v) && n <= k < |queue| && queue[k].Queued?
    ensures var w, id := Turns(queue, scripts, n, v, now).plans, queue[k].id;
            && (id in w && w[id].queued <==> !StoppedBy(queue, scripts, n, v, now, id))
            && (id in w && w[id].queued ==> w[id] == v[id])
  {
    var id := queue[k].id;
    if n > 0 {
      StillQueued(queue, scripts, n - 1, k, v, now);
      OneTurnMore(queue, scripts, n - 1, v, now, id);
      hide StoppedBy;
      hide Replay;
      hide Script;
      var p := Turns(queue, scripts, n - 1, v, now);
      assert CallsBack(queue, scripts, n - 1, v, now) <==> IsDue(queue[n - 1], p.plans);
      if IsDue(queue[n - 1], p.plans) {
        assert queue[n - 1] != queue[k];
        var d := queue[n - 1].id;
        ReplayKeepsQueued(Script(scripts, n - 1), p.plans[d := p.plans[d].(queued := false, events := 0)], now, id);
      }
    }
  }

  /** A pending timer is called back exactly if no script of an entry called before it stops it, and with the events that it
      had at the start. */
  lemma CalledExactly(queue: seq<Pending>, scripts: seq<seq<Op>>, k: nat, v: Plans, now: int)
    requires OneEntryEach(queue, v) && k < |queue| && queue[k].Queued?
    ensures CallsBack(queue, scripts, k, v, now) <==> !StoppedBy(queue, scripts, k, v, now, queue[k].id)
    ensures forall e :: Called(queue[k].id, e) in Turns(queue, scripts, |queue|, v, now).log <==>
                          CallsBack(queue, scripts, k, v, now) && e == v[queue[k].id].events
  {
    var id := queue[k].id;
    StillQueued(queue, scripts, k, k, v, now);
    hide StoppedBy;
    hide Turns;
    forall e
      ensures Called(id, e) in Turns(queue, scripts, |queue|, v, now).log <==> CallsBack(queue, scripts, k, v, now) && e == v[id].events
    {
      CallsInLog(queue, scripts, |queue|, v, now, id, e);
    }
  }

  /** With timers 1 and 2 pending in this order and a callback of 1 that stops 2, 2 is not called and is forgotten. */
  lemma StoppedBeforeItsTurn(v: Plans, now: int)
    requires v.Keys == {1, 2} && v[1].queued && v[2].queued
    ensures var p := Turns([Queued(1), Queued(2)], [[Stop(2)]], 2, v, now);
            p.log == [Called(1, v[1].events), Stopped(2)] && p.plans.Keys == {1}
  {
    var queue, scripts := [Queued(1), Queued(2)], [[Stop(2)]];
    var w := v[1 := v[1].(queued := false, events := 0)];
    assert [Stop(2)][..0] == [];
    assert Replay([], w, now) == w && StopsOf([]) == [];
    assert Replay([Stop(2)], w, now) == w - {2} && StopsOf([Stop(2)]) == [Stopped(2)];
    assert Turns(queue, scripts, 0, v, now) == Pass(v, []);
    assert Turns(queue, scripts, 1, v, now) == Pass(w - {2}, [Called(1, v[1].events), Stopped(2)]);
  }
}
