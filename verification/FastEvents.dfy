/**
 * The hand-off of I/O requests from the main thread to the I/O thread (EV::io_fast_event and
 * EVBackend::backend_once): a queue under a spin lock, woken through an eventfd counter. The protocol is
 * a state machine whose steps are the critical sections and system calls, interleaved in any order.
 */
module FastEvents {

  type Watcher = nat

  // One bit of a watcher's fast events.
  type Bit = b: int | 0 <= b < 8

  // _b_fevents; _b_fevent_index (-1 not registered yet, 0 not queued, else slot + 1); and whether
  // get_fd_watcher finds the watcher.
  datatype Record = Record(bits: set<Bit>, index: int, known: bool)

  // A queue entry. Deleting a watcher empties its slot.
  datatype Slot = Empty | Of(w: Watcher)

  // Where the I/O thread is: in epoll_wait; holding the main lock, having seen the eventfd ready or not;
  // past reading the eventfd; working through the swapped-out queue.
  datatype Backend = Waiting | Entered(saw: bool) | Drained | Dispatching(batch: seq<Slot>, next: nat)

  datatype Act = Created(w: Watcher) | Posted(w: Watcher, bits: set<Bit>) | Consumed(w: Watcher, bits: set<Bit>)

  datatype State = State(
    live: map<Watcher, Record>,
    queue: seq<Slot>,     // _io_fevents
    token: nat,           // the eventfd counter
    owed: nat,            // wake calls decided on but not made yet
    backend: Backend,
    log: seq<Act>         // what has happened so far
  )

  // The first backend_once runs before any wait.
  const START := State(map[], [], 0, 0, Entered(false), [])

  datatype Step =
    | Create(w: Watcher)
    | Post(w: Watcher, bits: set<Bit>)
    | Register(w: Watcher)
    | Delete(w: Watcher)
    | OtherWake
    | Wake
    | Return(saw: bool)
    | Drain
    | Swap
    | Take
    | Finish

  /** The critical section of io_fast_event. */
  function PostTo(s: State, w: Watcher, bits: set<Bit>): State
    requires w in s.live
  {
    var r, log := s.live[w], s.log + [Posted(w, bits)];
    if r.index == 0 then
      s.(live := s.live[w := Record(r.bits + bits, |s.queue| + 1, r.known)], queue := s.queue + [Of(w)],
         owed := s.owed + (if s.queue == [] then 1 else 0), log := log)
    else
      s.(live := s.live[w := r.(bits := r.bits + bits)], log := log)
  }

  function MarkKnown(s: State, w: Watcher): State
    requires w in s.live
  {
    s.(live := s.live[w := s.live[w].(index := 0, known := true)])
  }

  /** io_reify for a new watcher: it becomes known, and the bits posted before are posted again. */
  function RegisterIn(s: State, w: Watcher): State
    requires w in s.live
  {
    if s.live[w].bits == {} then MarkKnown(s, w) else PostTo(MarkKnown(s, w), w, s.live[w].bits)
  }

  /** io_reify for a deleted watcher: its queue slot is emptied and it is forgotten. */
  function DeleteFrom(s: State, w: Watcher): State
    requires w in s.live && s.live[w].index <= |s.queue|
  {
    var i := s.live[w].index;
    s.(queue := if i > 0 then s.queue[i - 1 := Empty] else s.queue, live := s.live - {w})
  }

  /** do_watcher_fast_event for the next slot of the batch. */
  function TakeNext(s: State): State
    requires s.backend.Dispatching? && s.backend.next < |s.backend.batch|
    requires var slot := s.backend.batch[s.backend.next]; slot.Of? ==> slot.w in s.live
  {
    var backend := s.backend.(next := s.backend.next + 1);
    match s.backend.batch[s.backend.next]
    case Empty => s.(backend := backend)
    case Of(w) => s.(backend := backend, live := s.live[w := s.live[w].(bits := {}, index := 0)],
                     log := s.log + [Consumed(w, s.live[w].bits)])
  }

  /**
   * The steps. Registering and deleting hold the main lock, so they exclude the I/O thread between
   * Return and Finish; posting does not.
   */
  ghost predicate Next(s: State, step: Step, t: State) {
    match step
    case Create(w) =>
      && w !in s.live && (forall a | a in s.log :: a.w != w)
      && t == s.(live := s.live[w := Record({}, -1, false)], log := s.log + [Created(w)])
    case Post(w, bits) => w in s.live && bits != {} && t == PostTo(s, w, bits)
    case Register(w) => s.backend.Waiting? && w in s.live && s.live[w].index == -1 && t == RegisterIn(s, w)
    case Delete(w) => s.backend.Waiting? && w in s.live && 0 <= s.live[w].index <= |s.queue| && t == DeleteFrom(s, w)
    case OtherWake => t == s.(owed := s.owed + 1)
    case Wake => s.owed > 0 && t == s.(owed := s.owed - 1, token := s.token + 1)
    case Return(saw) => s.backend.Waiting? && (saw ==> s.token > 0) && t == s.(backend := Entered(saw))
    case Drain => s.backend.Entered? && t == s.(backend := Drained, token := if s.backend.saw then 0 else s.token)
    case Swap => s.backend.Drained? && t == s.(backend := Dispatching(s.queue, 0), queue := [])
    case Take =>
      && s.backend.Dispatching? && s.backend.next < |s.backend.batch|
      && (var slot := s.backend.batch[s.backend.next]; slot.Of? ==> slot.w in s.live)
      && t == TakeNext(s)
    case Finish => s.backend.Dispatching? && s.backend.next == |s.backend.batch| && t == s.(backend := Waiting)
  }

  /** What has been posted to a watcher since its bits were last consumed. */
  function Unconsumed(log: seq<Act>, w: Watcher): set<Bit> {
    if log == [] then {}
    else
      var last, before := log[|log| - 1], log[..|log| - 1];
      if last.w != w then Unconsumed(before, w)
      else if last.Posted? then Unconsumed(before, w) + last.bits
      else {}
  }

  predicate InQueue(s: State, k: int, w: Watcher) {
    0 <= k < |s.queue| && s.queue[k] == Of(w)
  }

  /** Slot k of the swapped-out queue holds w and has not been looked at yet. */
  predicate InBatch(s: State, k: int, w: Watcher) {
    s.backend.Dispatching? && s.backend.next <= k < |s.backend.batch| && s.backend.batch[k] == Of(w)
  }

  /** A watcher has bits exactly while it is queued, and then in the one slot its index names. */
  ghost predicate WatcherOk(s: State, w: Watcher)
    requires w in s.live
  {
    var r := s.live[w];
    && r.index >= -1 && (r.known <==> r.index != -1)
    && (r.index == 0 ==> r.bits == {})
    && (r.index > 0 ==> r.bits != {} && (InQueue(s, r.index - 1, w) != InBatch(s, r.index - 1, w)))
  }

  /** Wherever a watcher is queued, its index says so. */
  ghost predicate SlotOk(s: State, k: int, w: Watcher) {
    InQueue(s, k, w) || InBatch(s, k, w) ==> w in s.live && s.live[w].index == k + 1
  }

  ghost predicate Linked(s: State) {
    && (forall w | w in s.live :: WatcherOk(s, w))
    && (forall k, w :: SlotOk(s, k, w))
    && (s.backend.Dispatching? ==> s.backend.next <= |s.backend.batch|)
  }

  /** Queued work is on its way to the I/O thread: a token in the eventfd, a writer about to put one there,
      or the I/O thread about to swap the queue out. */
  ghost predicate Woken(s: State) {
    s.queue != [] ==> s.token > 0 || s.owed > 0 || s.backend.Drained?
  }

  /** The bits of a watcher are those posted since they were last consumed; consuming took all there were. */
  ghost predicate Accounted(s: State) {
    && (forall w | w in s.live :: s.live[w].bits == Unconsumed(s.log, w))
    && (forall i | 0 <= i < |s.log| && s.log[i].Consumed? :: Exact(s.log, i))
  }

  ghost predicate Exact(log: seq<Act>, i: nat)
    requires i < |log| && log[i].Consumed?
  {
    log[i].bits == Unconsumed(log[..i], log[i].w) && log[i].bits != {}
  }

  ghost predicate Inv(s: State) {
    Linked(s) && Woken(s) && Accounted(s)
  }

  lemma StartInv()
    ensures Inv(START)
  {
  }

  /** Appending an act changes the account of its watcher only. */
  lemma LogGrows(log: seq<Act>, a: Act)
    ensures forall w :: w != a.w ==> Unconsumed(log + [a], w) == Unconsumed(log, w)
    ensures Unconsumed(log + [a], a.w) == if a.Posted? then Unconsumed(log, a.w) + a.bits else {}
    ensures forall i | 0 <= i < |log| && log[i].Consumed? && Exact(log, i) :: Exact(log + [a], i)
  {
    var after := log + [a];
    assert after[..|after| - 1] == log;
    forall i | 0 <= i < |log| && log[i].Consumed? && Exact(log, i)
      ensures Exact(after, i)
    {
      assert after[..i] == log[..i];
    }
  }

  lemma PostKeepsLinked(s: State, w: Watcher, bits: set<Bit>)
    requires Linked(s) && w in s.live && bits != {}
    ensures Linked(PostTo(s, w, bits))
  {
    var t := PostTo(s, w, bits);
    assert WatcherOk(s, w);
    forall v | v in t.live
      ensures WatcherOk(t, v)
    {
      assert WatcherOk(s, v);
      assert SlotOk(s, |s.queue|, w);
    }
    forall k, v
      ensures SlotOk(t, k, v)
    {
      assert SlotOk(s, k, v);
    }
  }

  lemma PostKeeps(s: State, w: Watcher, bits: set<Bit>)
    requires Inv(s) && w in s.live && bits != {}
    ensures Inv(PostTo(s, w, bits))
  {
    PostKeepsLinked(s, w, bits);
    LogGrows(s.log, Posted(w, bits));
    hide Linked;
  }

  lemma RegisterKeeps(s: State, w: Watcher)
    requires Inv(s) && w in s.live && s.live[w].index == -1
    ensures Inv(RegisterIn(s, w))
  {
    var t := MarkKnown(s, w);
    assert WatcherOk(s, w);
    forall v | v in t.live && v != w
      ensures WatcherOk(t, v)
    {
      assert WatcherOk(s, v);
    }
    forall k, v
      ensures SlotOk(t, k, v)
    {
      assert SlotOk(s, k, v);
    }
    if s.live[w].bits != {} {
      RegisterPosts(s, w);
    }
  }

  /** A watcher that has bits already is queued, with all of them, as it becomes known, and the I/O thread is woken if
      the queue was empty. */
  lemma RegisterPosts(s: State, w: Watcher)
    requires Inv(s) && w in s.live && s.live[w].index == -1 && s.live[w].bits != {}
    ensures Inv(RegisterIn(s, w))
    ensures var t := RegisterIn(s, w);
            && w in t.live && t.live[w].known && t.live[w].bits == s.live[w].bits && t.queue == s.queue + [Of(w)]
            && t.live[w].index == |t.queue| && t.owed == s.owed + (if s.queue == [] then 1 else 0)
            && forall v | v in s.live && v != w :: v in t.live && t.live[v] == s.live[v]
  {
    var t := RegisterIn(s, w);
    LogGrows(s.log, Posted(w, s.live[w].bits));
    forall v | v in t.live
      ensures WatcherOk(t, v)
    {
      assert WatcherOk(s, v);
      assert SlotOk(s, |s.queue|, w);
    }
    forall k, v
      ensures SlotOk(t, k, v)
    {
      assert SlotOk(s, k, v) && SlotOk(s, k, w);
    }
  }

  /** Deleting finds the watcher's own slot: the source's index assertion holds. */
  lemma DeleteKeeps(s: State, w: Watcher)
    requires Inv(s) && s.backend.Waiting? && w in s.live && s.live[w].known
    ensures 0 <= s.live[w].index <= |s.queue|
    ensures s.live[w].index > 0 ==> s.queue[s.live[w].index - 1] == Of(w)
    ensures Inv(DeleteFrom(s, w))
  {
    assert WatcherOk(s, w);
    var t := DeleteFrom(s, w);
    forall v | v in t.live
      ensures WatcherOk(t, v)
    {
      assert WatcherOk(s, v);
    }
    forall k, v
      ensures SlotOk(t, k, v)
    {
      assert SlotOk(s, k, v);
    }
  }

  /** The I/O thread finds every queued watcher known and with work to do: neither assertion there fires. */
  lemma TakeIsSafe(s: State)
    requires Linked(s) && s.backend.Dispatching? && s.backend.next < |s.backend.batch|
    ensures var slot := s.backend.batch[s.backend.next];
            slot.Of? ==> slot.w in s.live && s.live[slot.w].known && s.live[slot.w].bits != {}
  {
    var k := s.backend.next;
    if s.backend.batch[k].Of? {
      var w := s.backend.batch[k].w;
      assert InBatch(s, k, w) && SlotOk(s, k, w) && WatcherOk(s, w);
    }
  }

  lemma TakeKeeps(s: State)
    requires Inv(s) && s.backend.Dispatching? && s.backend.next < |s.backend.batch|
    requires var slot := s.backend.batch[s.backend.next]; slot.Of? ==> slot.w in s.live
    ensures Inv(TakeNext(s))
  {
    var t, i := TakeNext(s), s.backend.next;
    var slot := s.backend.batch[i];
    if slot.Of? {
      assert InBatch(s, i, slot.w);
      assert WatcherOk(s, slot.w) && SlotOk(s, i, slot.w);
      LogGrows(s.log, Consumed(slot.w, s.live[slot.w].bits));
    }
    forall v | v in t.live
      ensures WatcherOk(t, v)
    {
      assert WatcherOk(s, v);
    }
    forall k, v
      ensures SlotOk(t, k, v)
    {
      assert SlotOk(s, k, v);
    }
    if slot.Of? {
      forall j | 0 <= j < |t.log| && t.log[j].Consumed?
        ensures Exact(t.log, j)
      {
        if j < |s.log| {
          assert Exact(s.log, j);
        } else {
          assert t.log[..j] == s.log;
        }
      }
    }
  }

  lemma SwapKeeps(s: State)
    requires Inv(s) && s.backend.Drained?
    ensures Inv(s.(backend := Dispatching(s.queue, 0), queue := []))
  {
    var t := s.(backend := Dispatching(s.queue, 0), queue := []);
    forall v | v in t.live
      ensures WatcherOk(t, v)
    {
      assert WatcherOk(s, v);
    }
    forall k, v
      ensures SlotOk(t, k, v)
    {
      assert SlotOk(s, k, v);
    }
  }

  /** Steps that leave queue, batch and watchers alone. */
  lemma SameQueues(s: State, t: State)
    requires Linked(s) && t.live == s.live && t.queue == s.queue
    requires t.backend == s.backend || (!t.backend.Dispatching? && (s.backend.Dispatching? ==> s.backend.next == |s.backend.batch|))
    ensures Linked(t)
  {
    forall v | v in t.live
      ensures WatcherOk(t, v)
    {
      assert WatcherOk(s, v);
    }
    forall k, v
      ensures SlotOk(t, k, v)
    {
      assert SlotOk(s, k, v);
    }
  }

  lemma CreateKeeps(s: State, w: Watcher)
    requires Inv(s) && w !in s.live
    ensures Inv(s.(live := s.live[w := Record({}, -1, false)], log := s.log + [Created(w)]))
  {
    var t := s.(live := s.live[w := Record({}, -1, false)], log := s.log + [Created(w)]);
    LogGrows(s.log, Created(w));
    forall v | v in t.live
      ensures WatcherOk(t, v)
    {
      if v != w {
        assert WatcherOk(s, v);
      }
    }
    forall k, v
      ensures SlotOk(t, k, v)
    {
      assert SlotOk(s, k, v);
    }
  }

  /** Every step keeps the invariant. */
  lemma NextKeepsInv(s: State, step: Step, t: State)
    requires Inv(s) && Next(s, step, t)
    ensures Inv(t)
  {
    match step
    case Create(w) => CreateKeeps(s, w);
    case Post(w, bits) => PostKeeps(s, w, bits);
    case Register(w) => RegisterKeeps(s, w);
    case Delete(w) =>
      assert WatcherOk(s, w);
      DeleteKeeps(s, w);
    case Swap => SwapKeeps(s);
    case Take => TakeKeeps(s);
    case Return(_) => SameQueues(s, t);
    case Drain => SameQueues(s, t);
    case Finish => SameQueues(s, t);
    case OtherWake => SameQueues(s, t);
    case Wake => SameQueues(s, t);
  }

  /** A run: any interleaving of steps from the start. */
  ghost predicate IsRun(states: seq<State>, steps: seq<Step>) {
    && |states| == |steps| + 1 && states[0] == START
    && forall i | 0 <= i < |steps| :: Next(states[i], steps[i], states[i + 1])
  }

  lemma {:induction false} RunKeepsInv(states: seq<State>, steps: seq<Step>, i: nat)
    requires IsRun(states, steps) && i < |states|
    ensures Inv(states[i])
  {
    if i == 0 {
      StartInv();
    } else {
      RunKeepsInv(states, steps, i - 1);
      NextKeepsInv(states[i - 1], steps[i - 1], states[i]);
    }
  }

  /** No bit is lost: in every run, consuming a watcher takes exactly the bits posted since the last time,
      at least one, and bits not consumed yet are still there, queued once if the watcher is known. */
  lemma NoBitLost(states: seq<State>, steps: seq<Step>, i: nat)
    requires IsRun(states, steps) && i < |states|
    ensures var s := states[i];
            && (forall j | 0 <= j < |s.log| && s.log[j].Consumed? :: s.log[j].bits == Unconsumed(s.log[..j], s.log[j].w) != {})
            && (forall w | w in s.live && Unconsumed(s.log, w) != {} && s.live[w].known ::
                  InQueue(s, s.live[w].index - 1, w) != InBatch(s, s.live[w].index - 1, w))
            && (forall k, w | InQueue(s, k, w) || InBatch(s, k, w) :: w in s.live && k == s.live[w].index - 1)
  {
    RunKeepsInv(states, steps, i);
    var s := states[i];
    forall j | 0 <= j < |s.log| && s.log[j].Consumed?
      ensures s.log[j].bits == Unconsumed(s.log[..j], s.log[j].w) != {}
    {
      assert Exact(s.log, j);
    }
    forall w | w in s.live && Unconsumed(s.log, w) != {} && s.live[w].known
      ensures InQueue(s, s.live[w].index - 1, w) != InBatch(s, s.live[w].index - 1, w)
    {
      assert WatcherOk(s, w);
    }
    forall k, w | InQueue(s, k, w) || InBatch(s, k, w)
      ensures w in s.live && k == s.live[w].index - 1
    {
      assert SlotOk(s, k, w);
    }
  }

  /** No wake-up is lost: in every run, the I/O thread never sleeps on queued work without a token in the
      eventfd or a writer about to put one there. */
  lemma NoWakeLost(states: seq<State>, steps: seq<Step>, i: nat)
    requires IsRun(states, steps) && i < |states|
    ensures states[i].backend.Waiting? && states[i].queue != [] ==> states[i].token > 0 || states[i].owed > 0
  {
    RunKeepsInv(states, steps, i);
  }

  /** In every run the source's assertions hold whenever the I/O thread takes a slot or a watcher is deleted. */
  lemma AssertionsHold(states: seq<State>, steps: seq<Step>, i: nat)
    requires IsRun(states, steps) && i < |states|
    ensures var s := states[i];
            s.backend.Dispatching? && s.backend.next < |s.backend.batch| && s.backend.batch[s.backend.next].Of? ==>
              var w := s.backend.batch[s.backend.next].w; w in s.live && s.live[w].known && s.live[w].bits != {}
    ensures var s := states[i];
            s.backend.Waiting? ==> forall w | w in s.live && s.live[w].known ::
              0 <= s.live[w].index <= |s.queue| && (s.live[w].index > 0 ==> s.queue[s.live[w].index - 1] == Of(w))
  {
    RunKeepsInv(states, steps, i);
    var s := states[i];
    if s.backend.Dispatching? && s.backend.next < |s.backend.batch| {
      TakeIsSafe(s);
    }
    if s.backend.Waiting? {
      forall w | w in s.live && s.live[w].known
        ensures 0 <= s.live[w].index <= |s.queue| && (s.live[w].index > 0 ==> s.queue[s.live[w].index - 1] == Of(w))
      {
        DeleteKeeps(s, w);
      }
    }
  }

  /** Working off the rest of a batch, with nobody else in between. */
  ghost function RunBatch(s: State): (t: State)
    requires Inv(s) && s.backend.Dispatching?
    ensures Inv(t) && t.backend.Waiting?
    decreases |s.backend.batch| - s.backend.next
  {
    if s.backend.next == |s.backend.batch| then
      NextKeepsInv(s, Finish, s.(backend := Waiting));
      s.(backend := Waiting)
    else
      TakeIsSafe(s);
      TakeKeeps(s);
      RunBatch(TakeNext(s))
  }

  lemma {:induction false} BatchConsumes(s: State, w: Watcher)
    requires Inv(s) && s.backend.Dispatching? && w in s.live && s.live[w].bits != {} && InBatch(s, s.live[w].index - 1, w)
    ensures var t := RunBatch(s); w in t.live && t.live[w].bits == {} && Consumed(w, s.live[w].bits) in t.log
    decreases |s.backend.batch| - s.backend.next
  {
    TakeIsSafe(s);
    TakeKeeps(s);
    var k, t := s.backend.next, TakeNext(s);
    if s.backend.batch[k] == Of(w) {
      assert t.log[|t.log| - 1] == Consumed(w, s.live[w].bits);
      BatchLeavesIdle(t, w);
    } else {
      BatchConsumes(t, w);
    }
  }

  lemma {:induction false} BatchLeavesIdle(s: State, w: Watcher)
    requires Inv(s) && s.backend.Dispatching? && w in s.live && s.live[w].bits == {} && s.live[w].index == 0
    ensures var t := RunBatch(s); w in t.live && t.live[w].bits == {} && forall a | a in s.log :: a in t.log
    decreases |s.backend.batch| - s.backend.next
  {
    if s.backend.next < |s.backend.batch| {
      TakeIsSafe(s);
      TakeKeeps(s);
      assert SlotOk(s, s.backend.next, w);
      var t := TakeNext(s);
      assert forall a | a in s.log :: a in t.log;
      BatchLeavesIdle(t, w);
    }
  }

  /** One undisturbed round of backend_once delivers every bit of every known watcher. */
  lemma RoundDelivers(s: State, saw: bool, w: Watcher)
    requires Inv(s) && s.backend.Waiting? && (saw ==> s.token > 0)
    requires w in s.live && s.live[w].known && s.live[w].bits != {}
    ensures var drained := s.(backend := Drained, token := if saw then 0 else s.token);
            var swapped := drained.(backend := Dispatching(s.queue, 0), queue := []);
            && Inv(swapped)
            && var t := RunBatch(swapped);
               w in t.live && t.live[w].bits == {} && Consumed(w, s.live[w].bits) in t.log
  {
    var entered := s.(backend := Entered(saw));
    NextKeepsInv(s, Return(saw), entered);
    var drained := s.(backend := Drained, token := if saw then 0 else s.token);
    NextKeepsInv(entered, Drain, drained);
    SwapKeeps(drained);
    var swapped := drained.(backend := Dispatching(s.queue, 0), queue := []);
    assert WatcherOk(s, w);
    BatchConsumes(swapped, w);
  }

  /** A step that needs nothing new: a wake-up that is owed is made, the I/O thread returns from its wait because of one, or
      goes on with its round. */
  predicate Undisturbed(step: Step) {
    match step
    case Create(_) => false
    case Post(_, _) => false
    case Register(_) => false
    case Delete(_) => false
    case OtherWake => false
    case Return(saw) => saw
    case _ => true
  }

  /** A bound for the undisturbed steps from here on. A token that has been seen costs no round any more. */
  function Work(s: State): nat
    requires s.backend.Dispatching? ==> s.backend.next <= |s.backend.batch|
  {
    5 * s.owed + |s.queue|
    + (if s.token > 0 && s.backend != Entered(true) then 4 else 0)
    + match s.backend
      case Waiting => 0
      case Entered(_) => 3
      case Drained => 2
      case Dispatching(batch, next) => 1 + |batch| - next
  }

  lemma StepsWork(s: State, step: Step, t: State)
    requires Inv(s) && Next(s, step, t) && Undisturbed(step)
    ensures Inv(t) && Work(t) < Work(s) && t.live.Keys == s.live.Keys
    ensures forall w | w in s.live :: t.live[w].known == s.live[w].known
  {
    NextKeepsInv(s, step, t);
    hide Inv;
    hide Unconsumed;
    assert Linked(s) && Linked(t);
    hide WatcherOk;
    hide SlotOk;
  }

  ghost predicate Quiet(s: State) {
    s.backend.Waiting? && s.owed == 0 && s.token == 0
  }

  /** Unless the I/O thread waits and no wake-up is under way, there is a step to go on with. */
  lemma NotStuck(s: State) returns (step: Step, t: State)
    requires Inv(s) && !Quiet(s)
    ensures Next(s, step, t) && Undisturbed(step)
  {
    match s.backend
    case Waiting =>
      if s.owed > 0 {
        step, t := Wake, s.(owed := s.owed - 1, token := s.token + 1);
      } else {
        step, t := Return(true), s.(backend := Entered(true));
      }
    case Entered(saw) => step, t := Drain, s.(backend := Drained, token := if saw then 0 else s.token);
    case Drained => step, t := Swap, s.(backend := Dispatching(s.queue, 0), queue := []);
    case Dispatching(batch, next) =>
      if next < |batch| {
        TakeIsSafe(s);
        step, t := Take, TakeNext(s);
      } else {
        step, t := Finish, s.(backend := Waiting);
      }
  }

  ghost predicate UndisturbedRun(states: seq<State>, steps: seq<Step>) {
    && |states| == |steps| + 1
    && forall i | 0 <= i < |steps| :: Next(states[i], steps[i], states[i + 1]) && Undisturbed(steps[i])
  }

  ghost predicate CanGoOn(s: State) {
    exists step, t :: Next(s, step, t) && Undisturbed(step)
  }

  /** Nothing is queued, and every bit ever posted to a known watcher has been consumed. */
  ghost predicate AllConsumed(s: State) {
    s.queue == [] && forall w | w in s.live && s.live[w].known :: s.live[w].bits == Unconsumed(s.log, w) == {}
  }

  lemma QuietIsConsumed(s: State)
    requires Inv(s) && Quiet(s)
    ensures AllConsumed(s)
  {
    forall w | w in s.live && s.live[w].known
      ensures s.live[w].bits == Unconsumed(s.log, w) == {}
    {
      assert WatcherOk(s, w);
    }
  }

  /** With nothing new, every order of the steps comes to an end, and it is when the I/O thread waits with no wake-up under
      way that there is none left; every bit posted to a known watcher has been consumed by then. */
  lemma {:induction false} UndisturbedEnds(states: seq<State>, steps: seq<Step>)
    requires UndisturbedRun(states, steps) && Inv(states[0])
    ensures |steps| <= Work(states[0])
    ensures var s, t := states[0], states[|steps|];
            && Inv(t) && t.live.Keys == s.live.Keys && (forall w | w in s.live :: t.live[w].known == s.live[w].known)
            && (CanGoOn(t) <==> !Quiet(t)) && (Quiet(t) ==> AllConsumed(t))
    decreases |steps|
  {
    hide Unconsumed;
    hide Accounted;
    hide AllConsumed;
    hide WatcherOk;
    hide SlotOk;
    if steps == [] {
      var t := states[0];
      if Quiet(t) {
        QuietIsConsumed(t);
      } else {
        var step, t' := NotStuck(t);
      }
    } else {
      assert Next(states[0], steps[0], states[1]) && Undisturbed(steps[0]);
      StepsWork(states[0], steps[0], states[1]);
      hide Next;
      hide Inv;
      hide Undisturbed;
      assert UndisturbedRun(states[1..], steps[1..]) by {
        forall i | 0 <= i < |steps[1..]|
          ensures Next(states[1..][i], steps[1..][i], states[1..][i + 1]) && Undisturbed(steps[1..][i])
        {
          assert Next(states[i + 1], steps[i + 1], states[i + 2]);
        }
      }
      UndisturbedEnds(states[1..], steps[1..]);
    }
  }

  /** Every call of the main thread can be made as soon as the lock that it needs is free, whatever has happened before. */
  lemma CallsPossible(s: State, w: Watcher, bits: set<Bit>)
    requires Inv(s) && bits != {}
    ensures w in s.live ==> Next(s, Post(w, bits), PostTo(s, w, bits))
    ensures w in s.live && s.backend.Waiting? && !s.live[w].known ==>
              Next(s, Register(w), RegisterIn(s, w)) && RegisterIn(s, w).live[w].known && RegisterIn(s, w).live[w].bits == s.live[w].bits
    ensures w in s.live && s.backend.Waiting? && s.live[w].known ==>
              s.live[w].index <= |s.queue| && Next(s, Delete(w), DeleteFrom(s, w)) && DeleteFrom(s, w).live == s.live - {w}
  {
    if w in s.live {
      assert WatcherOk(s, w);
    }
  }
}
