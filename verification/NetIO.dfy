/**
 * The I/O thread's side of a connection (engine/src/net/io/io.cpp). The main thread works on the same buffers
 * under the same lock, so between any two buffer operations it may have appended (to the send buffer) or
 * removed (from the receive buffer) anything; scripts say what it did, and what the kernel answered.
 */
module NetIO {
  import opened Bytes
  import opened Buffers

  datatype Status = Ok | Busy | Close | Error | WantRead | WantWrite

  // What ::send answers: a number of bytes taken, where none means that the peer is gone, or an error.
  datatype Taken = Takes(n: nat) | Refuses(fatal: bool)

  // What ::recv answers. No data means that the peer is gone.
  datatype Got = Gives(data: seq<byte>) | Fails(fatal: bool)

  // A turn of the send loop: what was appended between looking and ::send, and between ::send and remove.
  datatype SendTurn = SendTurn(before: seq<seq<byte>>, taken: Taken, after: seq<seq<byte>>)

  // A turn of the receive loop: how much was removed before it.
  datatype RecvTurn = RecvTurn(removed: nat, got: Got)

  // What a turn of the send loop finds: the bytes buffered, how many of them are in the first chunk, and whether there are
  // other chunks.
  datatype Look = Look(held: seq<byte>, first: int, more: bool)

  // What it comes to: whether it is the last one and the status then, the bytes sent, and those appended meanwhile.
  datatype Outcome = Outcome(stop: bool, status: Status, data: seq<byte>, late: seq<byte>)

  /** What the kernel's answer comes to: as much of the first chunk is sent as it takes. */
  ghost function SendOutcome(l: Look, turn: SendTurn): Outcome
    requires 0 <= l.first <= |l.held|
  {
    if l.held == [] then Outcome(true, Ok, [], [])
    else
      match turn.taken
      case Refuses(fatal) => Outcome(true, if fatal then Error else WantWrite, [], Join(turn.before))
      case Takes(n) =>
        if n == 0 then Outcome(true, Close, [], Join(turn.before))
        else if n < l.first then Outcome(true, WantWrite, l.held[..n], Join(turn.before) + Join(turn.after))
        else Outcome(!l.more, Ok, l.held[..l.first], Join(turn.before) + Join(turn.after))
  }

  /** A turn of the receive loop for which there were `room` bytes reserved, none if the buffer was over its limit. */
  ghost function RecvOutcome(room: nat, got: Got): Outcome {
    if room == 0 then Outcome(true, Busy, [], [])
    else
      match got
      case Fails(fatal) => Outcome(true, if fatal then Error else WantRead, [], [])
      case Gives(data) =>
        if data == [] then Outcome(true, Close, [], [])
        else if |data| < room then Outcome(true, Ok, data, [])
        else Outcome(false, Ok, data[..room], [])
  }

  class IO {
    const recv: Buffer
    const send: Buffer

    constructor (recv: Buffer, send: Buffer)
      ensures this.recv == recv && this.send == send
    {
      this.recv, this.send := recv, send;
    }

    /** The main thread appends to the send buffer. */
    method Produce(batch: seq<seq<byte>>)
      requires send.Valid()
      modifies send, send.repr
      ensures send.Valid() && fresh(send.repr - old(send.repr)) && Keeps(old(send.First()), send.First())
      ensures old(send.front) != null ==> send.front != null
      ensures send.Contents() == old(send.Contents()) + Join(batch)
    {
      hide Buffer.Valid;
      hide Buffer.Contents;
      hide Buffer.First;
      hide Keeps;
      hide Join;
      ghost var c, p := send.Contents(), send.First();
      NothingYet(batch, p);
      var i := 0;
      while i < |batch|
        invariant i <= |batch| && send.Valid() && fresh(send.repr - old(send.repr)) && Keeps(p, send.First())
        invariant old(send.front) != null ==> send.front != null
        invariant send.Contents() == c + Join(batch[..i])
      {
        ghost var q := send.First();
        var r := send.Append(batch[i]);
        KeepsTrans(p, q, send.First());
        JoinPrefix(batch, i);
        i := i + 1;
      }
      assert batch[..i] == batch;
    }

    lemma NothingYet(batch: seq<seq<byte>>, p: Peek)
      ensures Join(batch[..0]) == [] && Keeps(p, p)
    {
    }

    lemma CutOff(c: seq<byte>, before: seq<byte>, after: seq<byte>, len: nat)
      requires len <= |c|
      ensures (c + before) + after == c + (before + after)
      ensures c[..len] + (c + (before + after))[len..] == c + (before + after)
      ensures len == |c| ==> (c + (before + after))[len..] == before + after
    {
    }

    /** The kernel takes bytes through the pointer, others are appended, and what was taken is removed. The send
        buffer held `c` and its first chunk `q` when it was looked at; `late` is what has come since. */
    method HandOver(p: Pointer, bytes: nat, len: nat, after: seq<seq<byte>>, ghost q: Peek, ghost c: seq<byte>, ghost late: seq<byte>)
      returns (data: seq<byte>)
      requires send.Valid() && len <= bytes <= |c| && send.Contents() == c + late
      requires q.Peek? && Keeps(q, send.First()) && q.from + bytes == |q.bytes| && q.bytes[q.from..] == c[..bytes]
      requires p == At(q.chunk.ctx, q.from)
      modifies send, send.repr
      ensures send.Valid() && fresh(send.repr - old(send.repr))
      ensures data == c[..len] && data + send.Contents() == c + (late + Join(after))
      ensures len == |c| ==> send.Contents() == late + Join(after)
    {
      hide Buffer.Valid;
      hide Buffer.Contents;
      hide Buffer.First;
      hide Join;
      send.StillThere(q, bytes);
      data := p.ctx[p.pos..p.pos + len];
      SlicePrefix(p.ctx, p.pos, bytes, len);
      assert c[..bytes][..len] == c[..len];
      hide Keeps;
      Produce(after);
      CutOff(c, late, Join(after), len);
      var next := send.Remove(len);
    }

    /** What the send buffer shows. */
    ghost function SendLook(): Look
      requires send.Valid()
      reads this, send, send.chunks, send.repr, send.large
    {
      Look(send.Contents(), send.FirstLength(), send.chunkSize > 1)
    }

    /** One turn of the send loop. Bytes are read through the pointer when the kernel takes them, by which time
        others have been appended. */
    method SendOnce(turn: SendTurn) returns (stop: bool, status: Status, data: seq<byte>, ghost late: seq<byte>)
      requires send.Valid()
      modifies send, send.repr
      ensures send.Valid() && fresh(send.repr - old(send.repr))
      ensures data <= old(send.Contents()) && data + send.Contents() == old(send.Contents()) + late
      ensures stop && status == Ok ==> send.Contents() == late
      ensures var l := old(SendLook());
              0 <= l.first <= |l.held| && (l.held != [] ==> l.first > 0) && Outcome(stop, status, data, late) == SendOutcome(l, turn)
    {
      hide Buffer.FirstLength;
      hide Buffer.Valid;
      hide Buffer.Contents;
      hide Buffer.First;
      hide Join;
      ghost var c := send.Contents();
      stop, status, data, late := true, Ok, [], [];
      var p, bytes, next := send.GetFrontUsed();
      if bytes == 0 {
        return;
      }
      send.FirstIs();
      ghost var q := send.First();
      Produce(turn.before);
      late := Join(turn.before);
      if turn.taken.Takes? && turn.taken.n > 0 {
        var len := Min(turn.taken.n, bytes);
        data := HandOver(p, bytes, len, turn.after, q, c, late);
        late := late + Join(turn.after);
        if len < bytes {
          status := WantWrite;
        } else if next {
          stop := false;
        }
      } else {
        status := match turn.taken case Takes(_) => Close case Refuses(fatal) => if fatal then Error else WantWrite;
      }
    }

    /** The turns of a call: each finds what the one before it has left, and is the last one if it has to be. */
    static ghost predicate SendRun(looks: seq<Look>, turns: seq<SendTurn>, start: Look, end: seq<byte>, sent: seq<byte>) {
      && |looks| <= |turns| && (forall l | l in looks :: 0 <= l.first <= |l.held| && (l.held != [] ==> l.first > 0))
      && (if looks == [] then end == start.held && sent == []
          else
            var n := |looks| - 1;
            var o := SendOutcome(looks[n], turns[n]);
            && (n > 0 ==> !SendOutcome(looks[n - 1], turns[n - 1]).stop)
            && |o.data| <= |looks[n].held| && end == looks[n].held[|o.data|..] + o.late
            && |o.data| <= |sent| && sent[|sent| - |o.data|..] == o.data
            && (n == 0 ==> looks[0] == start)
            && SendRun(looks[..n], turns, start, looks[n].held, sent[..|sent| - |o.data|]))
    }

    /** Sends what is buffered, chunk by chunk, while other bytes are being appended. However the turns go, the
        bytes sent and those still buffered make up those that were appended, in order; earlier is what came
        before the last turn, late what came during it. The status is that of the last turn; a script that ends before
        that is answered as if the kernel had asked to wait. */
    method Send(turns: seq<SendTurn>)
      returns (status: Status, sent: seq<byte>, ghost earlier: seq<byte>, ghost late: seq<byte>, ghost looks: seq<Look>)
      requires send.Valid()
      modifies send, send.repr
      ensures send.Valid() && fresh(send.repr - old(send.repr))
      ensures sent + send.Contents() == old(send.Contents()) + (earlier + late)
      ensures |looks| <= |turns| && SendRun(looks, turns, old(SendLook()), send.Contents(), sent)
      ensures forall l | l in looks :: 0 <= l.first <= |l.held|
      ensures if looks != [] && SendOutcome(looks[|looks| - 1], turns[|looks| - 1]).stop
              then status == SendOutcome(looks[|looks| - 1], turns[|looks| - 1]).status
              else |looks| == |turns| && status == WantWrite
      ensures status == Ok ==> sent == old(send.Contents()) + earlier && send.Contents() == late
    {
      hide Buffer.Valid;
      hide Buffer.Contents;
      hide Buffer.FirstLength;
      hide SendRun;
      hide SendOutcome;
      ghost var c, start := send.Contents(), SendLook();
      sent, earlier, late, looks := [], [], [], [];
      status := WantWrite;
      NoTurnsYet(turns, start);
      var i, stop := 0, false;
      while i < |turns| && !stop
        invariant forall l | l in looks :: 0 <= l.first <= |l.held|
        invariant i == |looks| <= |turns| && send.Valid() && fresh(send.repr - old(send.repr))
        invariant sent + send.Contents() == c + (earlier + late)
        invariant SendRun(looks, turns, start, send.Contents(), sent)
        invariant i == 0 ==> !stop && SendLook() == start
        invariant i > 0 ==> SendOutcome(looks[i - 1], turns[i - 1]).stop == stop
        invariant status == if stop then SendOutcome(looks[i - 1], turns[i - 1]).status else WantWrite
        invariant stop && status == Ok ==> send.Contents() == late
      {
        ghost var l, sofar := SendLook(), sent;
        var data;
        ghost var new_;
        stop, status, data, new_ := SendOnce(turns[i]);
        Regroup(c, sofar, data, earlier, late, new_, l.held, send.Contents());
        OneTurnMore(looks, turns, start, l, sofar, send.Contents());
        sent := sent + data;
        earlier, late, looks := earlier + late, new_, looks + [l];
        if !stop {
          status := WantWrite;
        }
        i := i + 1;
      }
      if stop && status == Ok {
        assert |sent| == |c + earlier|;
        assert (sent + late)[..|sent|] == (c + (earlier + late))[..|sent|];
        assert (c + (earlier + late))[..|sent|] == c + earlier;
      }
    }

    static lemma NoTurnsYet(turns: seq<SendTurn>, start: Look)
      ensures SendRun([], turns, start, start.held, [])
    {
    }

    static lemma OneTurnMore(looks: seq<Look>, turns: seq<SendTurn>, start: Look, l: Look, sent: seq<byte>, end: seq<byte>)
      requires |looks| < |turns| && SendRun(looks, turns, start, l.held, sent) && (looks == [] ==> l == start)
      requires looks != [] ==> !SendOutcome(looks[|looks| - 1], turns[|looks| - 1]).stop
      requires 0 <= l.first <= |l.held| && (l.held != [] ==> l.first > 0)
      requires var o := SendOutcome(l, turns[|looks|]); o.data <= l.held && o.data + end == l.held + o.late
      ensures SendRun(looks + [l], turns, start, end, sent + SendOutcome(l, turns[|looks|]).data)
    {
      var ls, o := looks + [l], SendOutcome(l, turns[|looks|]);
      assert ls[..|looks|] == looks;
      assert (sent + o.data)[..|sent|] == sent && (sent + o.data)[|sent|..] == o.data;
      assert end == (o.data + end)[|o.data|..] == (l.held + o.late)[|o.data|..] == l.held[|o.data|..] + o.late;
    }

    lemma Regroup(c: seq<byte>, sent: seq<byte>, data: seq<byte>, earlier: seq<byte>, late: seq<byte>, new_: seq<byte>,
                  more: seq<byte>, rest: seq<byte>)
      requires sent + more == c + (earlier + late) && data + rest == more + new_
      ensures (sent + data) + rest == c + ((earlier + late) + new_)
    {
      assert (sent + data) + rest == sent + (data + rest);
      assert sent + (more + new_) == (sent + more) + new_;
      assert (c + (earlier + late)) + new_ == c + ((earlier + late) + new_);
    }

    /** The main thread removes bytes from the receive buffer, if there are that many. */
    method Consume(n: nat) returns (ghost consumed: seq<byte>)
      requires recv.Valid()
      modifies recv, recv.repr
      ensures recv.Valid() && recv.repr == old(recv.repr) && recv.chunkMax == old(recv.chunkMax)
      ensures consumed + recv.Contents() == old(recv.Contents())
      ensures consumed == if 0 < n <= |old(recv.Contents())| then old(recv.Contents())[..n] else []
    {
      hide Buffer.Valid;
      hide Buffer.Contents;
      ghost var c := recv.Contents();
      consumed := [];
      var used := recv.GetAllUsedSize();
      if recv.front == null {
        recv.NoChunks();
      }
      if recv.front != null && 0 < n <= used {
        var next := recv.Remove(n);
        consumed := c[..n];
      }
    }

    /** The kernel writes into the reserved space, and what it wrote is committed. */
    method Accept(ts: Transaction, data: seq<byte>)
      requires recv.Valid() && recv.Held(ts) && ts.ptr.At? && 0 < |data| <= ts.len
      modifies recv, recv.repr, ts.ptr.ctx
      ensures recv.Valid() && fresh(recv.repr - old(recv.repr)) && recv.chunkMax == old(recv.chunkMax)
      ensures recv.Contents() == old(recv.Contents()) + data && (ts.internal ==> recv.chunkSize == old(recv.chunkSize))
    {
      hide Buffer.Valid;
      hide Buffer.Contents;
      hide Buffer.First;
      hide Keeps;
      recv.Fill(ts, data);
      recv.Commit(ts, |data|);
    }

    /** One turn of the receive loop; reserving, reading and committing are one step under the lock. */
    method RecvOnce(turn: RecvTurn)
      returns (stop: bool, status: Status, ghost consumed: seq<byte>, ghost data: seq<byte>, ghost room: nat)
      requires recv.Valid()
      modifies recv, recv.repr
      ensures recv.Valid() && fresh(recv.repr - old(recv.repr)) && recv.chunkMax == old(recv.chunkMax)
      ensures consumed + recv.Contents() == old(recv.Contents()) + data
      ensures Outcome(stop, status, data, []) == RecvOutcome(room, turn.got)
      ensures consumed == if 0 < turn.removed <= |old(recv.Contents())| then old(recv.Contents())[..turn.removed] else []
      ensures stop && status == Busy ==> recv.chunkSize > recv.chunkMax
      ensures if room == 0 then recv.chunkSize > recv.chunkMax else recv.chunkSize <= recv.chunkMax + 1
    {
      hide Buffer.Valid;
      hide Buffer.Contents;
      hide Buffer.First;
      hide Keeps;
      ghost var c := recv.Contents();
      stop, status, consumed, data, room := true, Busy, [], [], 0;
      consumed := Consume(turn.removed);
      ghost var rest := recv.Contents();
      var ts := recv.AnyReserve(true);
      if ts.len == 0 {
        return;
      }
      room := ts.len;
      if turn.got.Gives? && turn.got.data != [] {
        var len := Min(ts.len, |turn.got.data|);
        data := turn.got.data[..len];
        Accept(ts, turn.got.data[..len]);
        assert consumed + (rest + data) == c + data;
        stop, status := len < ts.len, Ok;
      } else {
        recv.Commit(ts, if turn.got.Gives? then 0 else -1);
        status := match turn.got case Gives(_) => Close case Fails(fatal) => if fatal then Error else WantRead;
      }
    }

    /** The turns of a call: what each has received, in order, all but the last asking for more. */
    static ghost predicate RecvRun(rooms: seq<nat>, turns: seq<RecvTurn>, received: seq<byte>) {
      && |rooms| <= |turns|
      && (if rooms == [] then received == []
          else
            var n := |rooms| - 1;
            var data := RecvOutcome(rooms[n], turns[n].got).data;
            && (n > 0 ==> !RecvOutcome(rooms[n - 1], turns[n - 1].got).stop)
            && |data| <= |received| && received[|received| - |data|..] == data
            && RecvRun(rooms[..n], turns, received[..|received| - |data|]))
    }

    /** Receives until there is no more for now, while received bytes are being removed. The bytes removed and
        those still buffered make up those that were received, in order. The status is that of the last turn; a script that
        ends before that is answered as if the kernel had asked to wait. */
    method Recv(turns: seq<RecvTurn>) returns (status: Status, ghost consumed: seq<byte>, ghost received: seq<byte>, ghost rooms: seq<nat>)
      requires recv.Valid()
      modifies recv, recv.repr
      ensures recv.Valid() && fresh(recv.repr - old(recv.repr))
      ensures consumed + recv.Contents() == old(recv.Contents()) + received
      ensures |rooms| <= |turns| && RecvRun(rooms, turns, received)
      ensures if rooms != [] && RecvOutcome(rooms[|rooms| - 1], turns[|rooms| - 1].got).stop
              then status == RecvOutcome(rooms[|rooms| - 1], turns[|rooms| - 1].got).status
              else |rooms| == |turns| && status == WantRead
      ensures status == Busy ==> recv.chunkSize > recv.chunkMax
    {
      hide Buffer.Valid;
      hide Buffer.Contents;
      ghost var c := recv.Contents();
      consumed, received, rooms := [], [], [];
      assert RecvRun(rooms, turns, received);
      hide RecvRun;
      hide RecvOutcome;
      status := WantRead;
      var i, stop := 0, false;
      while i < |turns| && !stop
        invariant i == |rooms| <= |turns| && recv.Valid() && fresh(recv.repr - old(recv.repr))
        invariant consumed + recv.Contents() == c + received && RecvRun(rooms, turns, received)
        invariant if i == 0 then !stop else RecvOutcome(rooms[i - 1], turns[i - 1].got).stop == stop
        invariant status == if stop then RecvOutcome(rooms[i - 1], turns[i - 1].got).status else WantRead
        invariant status == Busy ==> recv.chunkSize > recv.chunkMax
      {
        ghost var more, gone, data, room := recv.Contents(), consumed, [], 0;
        stop, status, gone, data, room := RecvOnce(turns[i]);
        Regroup(c, consumed, gone, received, [], data, more, recv.Contents());
        assert received + [] == received;
        OneTakenMore(rooms, turns, received, room);
        consumed, received, rooms := consumed + gone, received + data, rooms + [room];
        if !stop {
          status := WantRead;
        }
        i := i + 1;
      }
    }

    static lemma OneTakenMore(rooms: seq<nat>, turns: seq<RecvTurn>, received: seq<byte>, room: nat)
      requires |rooms| < |turns| && RecvRun(rooms, turns, received)
      requires rooms != [] ==> !RecvOutcome(rooms[|rooms| - 1], turns[|rooms| - 1].got).stop
      ensures RecvRun(rooms + [room], turns, received + RecvOutcome(room, turns[|rooms|].got).data)
    {
      var rs, data := rooms + [room], RecvOutcome(room, turns[|rooms|].got).data;
      assert rs[..|rooms|] == rooms;
      assert (received + data)[..|received|] == received && (received + data)[|received|..] == data;
    }
  }
}
