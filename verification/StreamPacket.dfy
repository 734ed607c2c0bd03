/**
 * Length-prefixed packets on a byte stream (engine/src/net/packet/stream_packet.cpp, engine/src/net/net_header.hpp)
 * and the loop that takes them off the receive buffer (Socket::command_cb).
 */
module StreamPackets {
  import opened Bytes
  import opened Buffers

  const MAX_PACKET_LEN := 65535

  // The packed headers: every one starts with the length of the whole frame and the command.
  const BASE_HEADER := 4
  const S2C_HEADER := 6
  const S2S_HEADER := 14

  const SPT_SSPK := 3
  const CT_NONE := 0

  const TWO32 := 0x1_0000_0000

  // The states of a socket, as numbered in the source: closing and opened are the same number.
  const CS_OPENED := 1
  const CS_CLOSING := 1

  type u16 = n: int | 0 <= n < TWO16
  type u32 = n: int | 0 <= n < TWO32

  datatype Kind = C2S | S2C | S2S

  // The owner field is kept as its 32-bit word.
  datatype Packet =
    | ToServer(cmd: u16, body: seq<byte>)
    | ToClient(cmd: u16, errno: u16, body: seq<byte>)
    | BetweenServers(cmd: u16, errno: u16, packet: u16, codec: u16, owner: u32, body: seq<byte>)

  function KindOf(p: Packet): Kind {
    match p case ToServer(_, _) => C2S case ToClient(_, _, _) => S2C case BetweenServers(_, _, _, _, _, _) => S2S
  }

  function HeaderSize(k: Kind): nat {
    match k case C2S => BASE_HEADER case S2C => S2C_HEADER case S2S => S2S_HEADER
  }

  function FrameLength(p: Packet): nat {
    HeaderSize(KindOf(p)) + |p.body|
  }

  predicate Fits(p: Packet) { FrameLength(p) <= MAX_PACKET_LEN }

  function HeaderRest(p: Packet): seq<byte> {
    match p
    case ToServer(_, _) => []
    case ToClient(_, errno, _) => LE(errno, 2)
    case BetweenServers(_, errno, packet, codec, owner, _) => LE(errno, 2) + LE(packet, 2) + LE(codec, 2) + LE(owner, 4)
  }

  /** A packet on the wire. */
  function Frame(p: Packet): (f: seq<byte>)
    ensures |f| == FrameLength(p)
  {
    LE(FrameLength(p), 2) + LE(p.cmd, 2) + HeaderRest(p) + p.body
  }

  function Frames(ps: seq<Packet>): seq<byte> {
    if ps == [] then [] else Frame(ps[0]) + Frames(ps[1..])
  }

  function FrameList(ps: seq<Packet>): seq<seq<byte>> {
    seq(|ps|, i requires 0 <= i < |ps| => Frame(ps[i]))
  }

  lemma {:induction false} FramesSplit(ps: seq<Packet>, k: nat)
    requires k <= |ps|
    ensures Frames(ps) == Frames(ps[..k]) + Frames(ps[k..])
  {
    if k > 0 {
      assert ps[..k][1..] == ps[1..][..k - 1] && ps[k..] == ps[1..][k - 1..];
      FramesSplit(ps[1..], k - 1);
      assert Frame(ps[0]) + (Frames(ps[1..][..k - 1]) + Frames(ps[k..])) == (Frame(ps[0]) + Frames(ps[1..][..k - 1])) + Frames(ps[k..]);
    }
  }

  /** What the receiver reads in a frame, knowing which kind of packet the connection carries. */
  function Parse(k: Kind, f: seq<byte>): Packet
    requires |f| >= HeaderSize(k)
  {
    var cmd: u16 := Field(f, 2, 2);
    match k
    case C2S => ToServer(cmd, f[4..])
    case S2C => ToClient(cmd, Field(f, 4, 2), f[6..])
    case S2S => BetweenServers(cmd, Field(f, 4, 2), Field(f, 6, 2), Field(f, 8, 2), Field(f, 10, 4), f[14..])
  }

  function Field(f: seq<byte>, at: nat, width: nat): (n: nat)
    requires at + width <= |f|
    ensures n < Pow256(width)
  {
    FromLEBound(f[at..at + width]);
    FromLE(f[at..at + width])
  }

  lemma FieldRoundTrip(f: seq<byte>, pre: seq<byte>, n: nat, width: nat, post: seq<byte>)
    requires f == pre + LE(n, width) + post && n < Pow256(width)
    ensures Field(f, |pre|, width) == n
  {
    assert f[|pre|..|pre| + width] == LE(n, width);
    LERoundTrip(n, width);
  }

  lemma HeaderRoundTrip(p: Packet)
    requires Fits(p)
    ensures Field(Frame(p), 0, 2) == FrameLength(p) && Field(Frame(p), 2, 2) == p.cmd
    ensures Frame(p)[HeaderSize(KindOf(p))..] == p.body
  {
    Widths();
    hide LE;
    hide FromLE;
    hide Pow256;
    hide Field;
    var f, rest := Frame(p), HeaderRest(p) + p.body;
    assert f == [] + LE(FrameLength(p), 2) + (LE(p.cmd, 2) + rest);
    assert f == LE(FrameLength(p), 2) + LE(p.cmd, 2) + rest;
    FieldRoundTrip(f, [], FrameLength(p), 2, LE(p.cmd, 2) + rest);
    FieldRoundTrip(f, LE(FrameLength(p), 2), p.cmd, 2, rest);
  }

  lemma ServerHeaderRoundTrip(p: Packet)
    requires Fits(p) && p.BetweenServers?
    ensures var f := Frame(p);
            Field(f, 4, 2) == p.errno && Field(f, 6, 2) == p.packet && Field(f, 8, 2) == p.codec && Field(f, 10, 4) == p.owner
  {
    Widths();
    assert Pow256(4) == TWO32;
    hide LE;
    hide FromLE;
    hide Pow256;
    hide Field;
    var front, rest := LE(FrameLength(p), 2) + LE(p.cmd, 2), HeaderRest(p);
    var f, e, t, c, o := Frame(p), LE(p.errno, 2), LE(p.packet, 2), LE(p.codec, 2), LE(p.owner, 4);
    assert f == front + rest + p.body;
    assert rest == [] + e + (t + c + o);
    assert rest == e + t + (c + o);
    assert rest == (e + t) + c + o;
    assert rest == (e + t + c) + o + [];
    hide Frame;
    hide HeaderRest;
    FieldInside(f, front, rest, p.body, [], p.errno, 2, t + c + o);
    FieldInside(f, front, rest, p.body, e, p.packet, 2, c + o);
    FieldInside(f, front, rest, p.body, e + t, p.codec, 2, o);
    FieldInside(f, front, rest, p.body, e + t + c, p.owner, 4, []);
  }

  lemma FieldInside(f: seq<byte>, front: seq<byte>, rest: seq<byte>, body: seq<byte>,
                    pre: seq<byte>, n: nat, width: nat, post: seq<byte>)
    requires f == front + rest + body && rest == pre + LE(n, width) + post && n < Pow256(width)
    ensures Field(f, |front| + |pre|, width) == n
  {
    hide LE;
    assert f == (front + pre) + LE(n, width) + (post + body);
    FieldRoundTrip(f, front + pre, n, width, post + body);
  }

  /** The receiver reads the packet that was sent. */
  lemma ParseFrame(p: Packet)
    requires Fits(p)
    ensures Parse(KindOf(p), Frame(p)) == p
  {
    Widths();
    HeaderRoundTrip(p);
    hide Field;
    hide Pow256;
    hide LE;
    if p.BetweenServers? {
      ServerHeaderRoundTrip(p);
    } else if p.ToClient? {
      var front := LE(FrameLength(p), 2) + LE(p.cmd, 2);
      assert Frame(p) == front + LE(p.errno, 2) + p.body;
      FieldRoundTrip(Frame(p), front, p.errno, 2, p.body);
    }
  }

  /** A stream can be cut into packets in one way only. */
  lemma {:induction false} FramesInjective(k: Kind, ps: seq<Packet>, qs: seq<Packet>)
    requires (forall p | p in ps :: Fits(p) && KindOf(p) == k) && (forall q | q in qs :: Fits(q) && KindOf(q) == k)
    requires Frames(ps) == Frames(qs)
    ensures ps == qs
  {
    if ps != [] && qs != [] {
      var p, q, all := ps[0], qs[0], Frames(ps);
      assert p in ps && q in qs;
      HeaderRoundTrip(p);
      HeaderRoundTrip(q);
      assert all[..2] == Frame(p)[0..2] == Frame(q)[0..2];
      assert Field(Frame(p), 0, 2) == Field(Frame(q), 0, 2);
      assert Frame(p) == all[..FrameLength(p)] == Frame(q);
      ParseFrame(p);
      ParseFrame(q);
      assert Frames(ps[1..]) == all[FrameLength(p)..] == Frames(qs[1..]);
      FramesInjective(k, ps[1..], qs[1..]);
    }
  }

  /** If a buffer holds a prefix of a stream of packets and at least its first two bytes, these tell the
      length of the first packet. */
  lemma LengthKnown(buf: seq<byte>, ps: seq<Packet>)
    requires ps != [] && Fits(ps[0]) && buf <= Frames(ps) && |buf| >= 2
    ensures FromLE(buf[..2]) == FrameLength(ps[0])
  {
    HeaderRoundTrip(ps[0]);
    assert buf[..2] == Frame(ps[0])[0..2];
  }

  lemma FirstFrame(buf: seq<byte>, ps: seq<Packet>)
    requires ps != [] && buf <= Frames(ps) && |buf| >= FrameLength(ps[0])
    ensures buf[..FrameLength(ps[0])] == Frame(ps[0]) && buf[FrameLength(ps[0])..] <= Frames(ps[1..])
    ensures buf == Frame(ps[0]) + buf[FrameLength(ps[0])..]
  {
    var n := FrameLength(ps[0]);
    assert Frames(ps)[..n] == Frame(ps[0]) && Frames(ps)[n..] == Frames(ps[1..]);
    assert buf == Frames(ps)[..|buf|];
  }

  /** The packet at the start is there in full. */
  predicate Whole(c: seq<byte>) {
    |c| >= BASE_HEADER && |c| >= FromLE(c[..2])
  }

  /** A stream of any bytes, cut into packets by their length fields. */
  function Cut(s: seq<byte>): seq<seq<byte>>
    decreases |s|
  {
    if Whole(s) && FromLE(s[..2]) > 0 then [s[..FromLE(s[..2])]] + Cut(s[FromLE(s[..2])..]) else []
  }

  /** Cutting a stream does not run into a packet of length 0, where the loop would stand still. */
  predicate Flows(s: seq<byte>)
    decreases |s|
  {
    Whole(s) ==> FromLE(s[..2]) > 0 && Flows(s[FromLE(s[..2])..])
  }

  /** Taking the packets got off the stream s leaves rest. */
  ghost predicate TakenOff(s: seq<byte>, got: seq<seq<byte>>, rest: seq<byte>) {
    s == Join(got) + rest && Cut(s) == got + Cut(rest) && Flows(rest)
  }

  lemma NoneTaken(s: seq<byte>)
    requires Flows(s)
    ensures TakenOff(s, [], s)
  {
  }

  lemma OneTaken(s: seq<byte>, got: seq<seq<byte>>, mid: seq<byte>)
    requires TakenOff(s, got, mid) && Whole(mid)
    ensures |mid| >= 2
    ensures var n := FromLE(mid[..2]);
            0 < n <= |mid| && TakenOff(s, got + [mid[..n]], mid[n..])
  {
    var n := FromLE(mid[..2]);
    JoinSnoc(got, mid[..n]);
    assert Join(got) + (mid[..n] + mid[n..]) == (Join(got) + mid[..n]) + mid[n..];
    assert mid[..n] + mid[n..] == mid;
    assert got + ([mid[..n]] + Cut(mid[n..])) == (got + [mid[..n]]) + Cut(mid[n..]);
  }

  lemma MoreTaken(s: seq<byte>, got: seq<seq<byte>>, mid: seq<byte>, more: seq<seq<byte>>, rest: seq<byte>)
    requires TakenOff(s, got, mid) && TakenOff(mid, more, rest)
    ensures TakenOff(s, got + more, rest)
  {
    hide Flows;
    hide Cut;
    JoinTake(got + more, |got|);
    assert (got + more)[..|got|] == got && (got + more)[|got|..] == more;
    hide Join;
    assert Join(got) + (Join(more) + rest) == (Join(got) + Join(more)) + rest;
    assert got + (more + Cut(rest)) == (got + more) + Cut(rest);
  }

  /** A stream of packets is cut into just these. */
  lemma {:induction false} CutFrames(ps: seq<Packet>)
    requires forall p | p in ps :: Fits(p)
    ensures Flows(Frames(ps)) && Cut(Frames(ps)) == FrameList(ps)
  {
    if ps != [] {
      var s, p := Frames(ps), ps[0];
      assert p in ps;
      LengthKnown(s, ps);
      FirstFrame(s, ps);
      CutFrames(ps[1..]);
      FrameListCons(ps);
    }
  }

  lemma FrameListCons(ps: seq<Packet>)
    requires ps != []
    ensures FrameList(ps) == [Frame(ps[0])] + FrameList(ps[1..])
  {
  }

  lemma {:induction false} JoinFrames(ps: seq<Packet>)
    ensures Join(FrameList(ps)) == Frames(ps)
  {
    if ps != [] {
      FrameListCons(ps);
      assert FrameList(ps)[1..] == FrameList(ps[1..]);
      JoinFrames(ps[1..]);
    }
  }

  /** What has been taken off a stream of packets are its first ones, and the others are left. */
  lemma PacketsTaken(ps: seq<Packet>, got: seq<seq<byte>>, rest: seq<byte>)
    requires (forall p | p in ps :: Fits(p)) && TakenOff(Frames(ps), got, rest)
    ensures |got| <= |ps| && got == FrameList(ps[..|got|]) && rest == Frames(ps[|got|..])
  {
    hide Frame;
    hide Frames;
    hide Cut;
    hide Flows;
    hide Join;
    hide FrameList;
    hide Fits;
    CutFrames(ps);
    FirstFrames(ps, got, Cut(rest));
    FramesSplit(ps, |got|);
    JoinFrames(ps[..|got|]);
    SameRest(Join(got), rest, Frames(ps[|got|..]));
  }

  lemma FirstFrames(ps: seq<Packet>, got: seq<seq<byte>>, others: seq<seq<byte>>)
    requires FrameList(ps) == got + others
    ensures |got| <= |ps| && got == FrameList(ps[..|got|])
  {
    hide Frame;
    assert |FrameList(ps)| == |ps|;
    forall i | 0 <= i < |got|
      ensures got[i] == Frame(ps[i])
    {
      assert (got + others)[i] == got[i];
    }
  }

  lemma SameRest(a: seq<byte>, b: seq<byte>, c: seq<byte>)
    requires a + b == a + c
    ensures b == c
  {
    assert b == (a + b)[|a|..] && c == (a + c)[|a|..];
  }

  /**
   * A connection's incoming side. While the main thread works on the receive buffer the I/O thread appends to
   * it: the bytes still to come are in `wire`, and `pace` says how many come at the n-th opportunity.
   */
  class Socket {
    const recv: Buffer
    var status: int
    var dispatched: seq<seq<byte>>
    var wire: seq<byte>
    var clock: nat
    const pace: nat -> nat
    // Whether the callback of the n-th packet stops the socket.
    const stops: nat -> bool

    constructor (recv: Buffer, wire: seq<byte>, pace: nat -> nat, stops: nat -> bool)
      ensures this.recv == recv && this.wire == wire && this.pace == pace && this.stops == stops
      ensures status == CS_OPENED && dispatched == [] && clock == 0
    {
      this.recv, this.stops, status, dispatched := recv, stops, CS_OPENED, [];
      this.wire, this.pace, clock := wire, pace, 0;
    }

    /** What the connection has not been read of. */
    ghost function Unread(): seq<byte>
      requires recv.Valid()
      reads this, recv, recv.chunks, recv.repr, recv.large
    {
      recv.Contents() + wire
    }

    /** The I/O thread appends what has come. */
    method Arrive()
      requires recv.Valid() && this !in recv.repr
      modifies this`wire, this`clock, recv`chunkSize, recv`chunks, recv`front, recv`back, recv`repr, recv.repr
      ensures recv.Valid() && fresh(recv.repr - old(recv.repr))
      ensures Unread() == old(Unread()) && old(recv.Contents()) <= recv.Contents()
      ensures Keeps(old(recv.First()), recv.First())
      ensures old(recv.front) != null ==> recv.front != null
    {
      hide Buffer.Valid;
      hide Buffer.Contents;
      hide Buffer.First;
      var n := Min(pace(clock), |wire|);
      clock := clock + 1;
      if n > 0 {
        Assoc(recv.Contents(), wire[..n], wire[n..]);
        var r := recv.Append(wire[..n]);
        assert wire == wire[..n] + wire[n..];
        wire := wire[n..];
      }
    }

    /** Bytes arrive while a view of the buffer is in use: it still shows what it showed. */
    method ArriveBehind(p: Pointer, len: nat)
      requires recv.Valid() && this !in recv.repr
      requires p.At? && (p.ctx == recv.large.ctx || InFirst(recv.First(), p, len))
      requires p.pos + len <= p.ctx.Length && len <= |recv.Contents()|
      requires p.ctx[p.pos..p.pos + len] == recv.Contents()[..len]
      modifies this`wire, this`clock, recv`chunkSize, recv`chunks, recv`front, recv`back, recv`repr, recv.repr
      ensures recv.Valid() && fresh(recv.repr - old(recv.repr))
      ensures Unread() == old(Unread()) && old(recv.Contents()) <= recv.Contents()
      ensures old(recv.front) != null ==> recv.front != null
      ensures p.ctx[p.pos..p.pos + len] == old(recv.Contents())[..len]
    {
      hide Buffer.Valid;
      hide Buffer.Contents;
      hide Buffer.First;
      hide Keeps;
      ghost var q, shown := recv.First(), p.ctx[p.pos..p.pos + len];
      recv.ScratchElsewhere();
      if p.ctx == recv.large.ctx {
        Arrive();
      } else {
        recv.StillShown(q, p, len) by {
          SameKept(q);
        }
        Arrive();
        recv.StillShown(q, p, len);
      }
    }

    lemma SameKept(q: Peek)
      ensures Keeps(q, q)
    {
    }

    /** Socket::stop, as a script calls it. */
    method Stop()
      modifies this`status
      ensures status == CS_CLOSING
    {
      status := CS_CLOSING;
    }

    method Dispatch(frame: seq<byte>)
      modifies this`status, this`dispatched
      ensures dispatched == old(dispatched) + [frame]
      ensures status == if stops(|old(dispatched)|) then CS_CLOSING else old(status)
    {
      dispatched := dispatched + [frame];
      if stops(|dispatched| - 1) {
        Stop();
      }
    }

    /** Takes one packet off the buffer if it is there in full, whatever its bytes are. Answers whether to try
        for another. A packet of length 0 is dispatched and leaves the buffer as it was. */
    method Unpack() returns (ret: int, ghost taken: bool)
      requires recv.Valid() && recv.front != null && this !in recv.repr
      modifies this`status, this`dispatched, this`wire, this`clock, recv`chunkSize, recv`chunks, recv`front, recv`back, recv`repr, recv.repr,
               recv.large, if recv.large.ctx == null then {} else {recv.large.ctx}
      ensures recv.Valid() && recv.front != null && fresh(recv.repr - old(recv.repr))
      ensures recv.large.ctx == old(recv.large.ctx) || fresh(recv.large.ctx)
      ensures status == CS_OPENED <== old(status) == CS_OPENED
      ensures 0 <= ret <= 1 && (Whole(old(recv.Contents())) ==> taken)
      ensures !taken ==> ret == 0 && !Whole(recv.Contents())
      ensures !taken ==> dispatched == old(dispatched) && Unread() == old(Unread())
      ensures taken ==> Whole(old(Unread())) && (ret == 0 ==> recv.Contents() == [])
      ensures taken ==> var all := old(Unread());
                        var n := FromLE(all[..2]);
                        dispatched == old(dispatched) + [all[..n]] && Unread() == all[n..]
    {
      hide Buffer.Valid;
      hide Buffer.Contents;
      hide Buffer.First;
      hide Whole;
      ret, taken := 0, false;
      recv.ScratchElsewhere();
      var known, length := ReadLength();
      if !known {
        return;
      }
      ghost var c := recv.Contents();
      var whole := recv.CheckUsedSize(length);
      WholeBy(old(recv.Contents()), c, wire, length);
      if !whole {
        return;
      }
      recv.ScratchElsewhere();
      Arrive();
      recv.ScratchElsewhere();
      ret := TakeOff(length);
      taken := true;
    }

    lemma WholeBy(before: seq<byte>, c: seq<byte>, wire: seq<byte>, length: nat)
      requires |c| >= BASE_HEADER && before <= c && length == FromLE((c + wire)[..2])
      ensures Whole(c) <==> |c| >= length
      ensures Whole(before) ==> Whole(c)
      ensures Whole(c) ==> Whole(c + wire)
    {
      assert c[..2] == (c + wire)[..2];
      assert |before| >= 2 ==> before[..2] == c[..2];
    }

    /** Reads the length of the first packet through a view of its header, if that has come. */
    method ReadLength() returns (known: bool, length: nat)
      requires recv.Valid() && recv.front != null && this !in recv.repr
      modifies this`wire, this`clock, recv`chunkSize, recv`chunks, recv`front, recv`back, recv`repr, recv.repr,
               recv.large, if recv.large.ctx == null then {} else {recv.large.ctx}
      ensures recv.Valid() && recv.front != null && fresh(recv.repr - old(recv.repr))
      ensures recv.large.ctx == old(recv.large.ctx) || fresh(recv.large.ctx)
      ensures Unread() == old(Unread()) && old(recv.Contents()) <= recv.Contents()
      ensures if known then |recv.Contents()| >= BASE_HEADER && length == FromLE(Unread()[..2])
              else !Whole(recv.Contents()) && recv.Contents() == old(recv.Contents())
    {
      hide Buffer.Valid;
      hide Buffer.Contents;
      hide Buffer.First;
      ghost var c, all := recv.Contents(), Unread();
      recv.ScratchElsewhere();
      var buf := recv.ToFlatCtx(BASE_HEADER);
      if buf == Null {
        return false, 0;
      }
      recv.ScratchElsewhere();
      ArriveBehind(buf, BASE_HEADER);
      var word := buf.ctx[buf.pos..buf.pos + 2];
      SlicePrefix(buf.ctx, buf.pos, BASE_HEADER, 2);
      SamePrefix(c, recv.Contents(), all, wire, 2);
      assert c[..BASE_HEADER][..2] == c[..2];
      return true, FromLE(word);
    }

    /** Dispatches the first bytes and removes them; more may arrive meanwhile. */
    method TakeOff(length: nat) returns (ret: int)
      requires recv.Valid() && recv.front != null && this !in recv.repr
      requires recv.Contents() != [] && length <= |recv.Contents()|
      modifies this`status, this`dispatched, this`wire, this`clock, recv`chunkSize, recv`chunks, recv`front, recv`back, recv`repr, recv.repr,
               recv.large, if recv.large.ctx == null then {} else {recv.large.ctx}
      ensures recv.Valid() && recv.front != null && fresh(recv.repr - old(recv.repr))
      ensures recv.large.ctx == old(recv.large.ctx) || fresh(recv.large.ctx)
      ensures status == CS_OPENED <== old(status) == CS_OPENED
      ensures 0 <= ret <= 1 && (ret == 0 ==> recv.Contents() == [])
      ensures dispatched == old(dispatched) + [old(Unread())[..length]] && Unread() == old(Unread())[length..]
    {
      hide Buffer.Valid;
      hide Buffer.Contents;
      hide Buffer.First;
      ghost var c, all := recv.Contents(), Unread();
      recv.ScratchElsewhere();
      var p := recv.ToFlatCtx(length);
      recv.ScratchElsewhere();
      ArriveBehind(p, length);
      SamePrefix(c, recv.Contents(), all, wire, length);
      recv.ScratchElsewhere();
      Dispatch(p.ctx[p.pos..p.pos + length]);
      CutFront(recv.Contents(), wire, length);
      var next := recv.Remove(length);
      return if next then 1 else 0;
    }

    lemma SamePrefix(c: seq<byte>, d: seq<byte>, all: seq<byte>, wire: seq<byte>, n: nat)
      requires n <= |c| && c <= d && all == d + wire
      ensures c[..n] == d[..n] == all[..n]
    {
    }

    lemma CutFront(c: seq<byte>, wire: seq<byte>, n: nat)
      requires n <= |c|
      ensures c[n..] + wire == (c + wire)[n..]
    {
    }

    lemma Assoc(a: seq<byte>, b: seq<byte>, c: seq<byte>)
      ensures a + (b + c) == (a + b) + c
    {
    }

    /** Socket::command_cb: takes packets off the buffer until there is none in full, however bytes keep coming.
        That a callback stops the socket does not end the loop, as a socket that is closing has the status of an
        open one. */
    method CommandCb() returns (ghost got: seq<seq<byte>>)
      requires recv.Valid() && recv.front != null && this !in recv.repr && status == CS_OPENED
      requires Flows(Unread())
      modifies this`status, this`dispatched, this`wire, this`clock, recv`chunkSize, recv`chunks, recv`front, recv`back, recv`repr, recv.repr,
               recv.large, if recv.large.ctx == null then {} else {recv.large.ctx}
      ensures recv.Valid() && recv.front != null && fresh(recv.repr - old(recv.repr)) && status == CS_OPENED
      ensures recv.large.ctx == old(recv.large.ctx) || fresh(recv.large.ctx)
      ensures dispatched == old(dispatched) + got && TakenOff(old(Unread()), got, Unread())
      ensures !Whole(recv.Contents())
    {
      hide Buffer.Valid;
      hide Buffer.Contents;
      hide Buffer.First;
      hide Whole;
      hide TakenOff;
      hide Flows;
      ghost var d, s := dispatched, Unread();
      got := [];
      var again := true;
      NoneTaken(s);
      while again
        invariant recv.Valid() && recv.front != null && fresh(recv.repr - old(recv.repr)) && this !in recv.repr && status == CS_OPENED
        invariant recv.large.ctx == old(recv.large.ctx) || fresh(recv.large.ctx)
        invariant dispatched == d + got && TakenOff(s, got, Unread())
        invariant !again ==> !Whole(recv.Contents())
        decreases again, |Unread()|
      {
        ghost var mid := Unread();
        recv.ScratchElsewhere();
        var ret, taken := Unpack();
        if taken {
          OneTaken(s, got, mid);
          ghost var frame := mid[..FromLE(mid[..2])];
          assert (d + got) + [frame] == d + (got + [frame]);
          got := got + [frame];
        }
        again := ret > 0 && status == CS_OPENED;
        NotWhole();
      }
    }

    lemma NotWhole()
      ensures !Whole([])
    {
    }

    /** A stream arriving in any pieces, also while the loop runs: its packets are dispatched in order, and those
        that had arrived by the last look all are. */
    method Receive(rounds: nat) returns (ghost got: seq<seq<byte>>)
      requires recv.Valid() && recv.Contents() == [] && this !in recv.repr && status == CS_OPENED && Flows(wire)
      modifies this, recv, recv.repr, recv.large, if recv.large.ctx == null then {} else {recv.large.ctx}
      ensures recv.Valid() && status == CS_OPENED
      ensures dispatched == old(dispatched) + got && TakenOff(old(wire), got, Unread())
      ensures !Whole(recv.Contents())
      ensures wire == [] ==> got == Cut(old(wire))
    {
      hide Buffer.Valid;
      hide Buffer.Contents;
      hide Buffer.First;
      hide Whole;
      hide TakenOff;
      hide Flows;
      hide Cut;
      ghost var d, s := dispatched, Unread();
      got := [];
      assert s == wire;
      NoneTaken(s);
      NotWhole();
      for i := 0 to rounds
        invariant recv.Valid() && status == CS_OPENED
        invariant fresh(recv.repr - old(recv.repr)) && this !in recv.repr
        invariant recv.large.ctx == old(recv.large.ctx) || fresh(recv.large.ctx)
        invariant dispatched == d + got && TakenOff(s, got, Unread())
        invariant !Whole(recv.Contents())
      {
        ghost var mid := Unread();
        recv.ScratchElsewhere();
        Arrive();
        if recv.front != null {
          recv.ScratchElsewhere();
          LeftFlows(s, got, mid);
          ghost var more := CommandCb();
          MoreTaken(s, got, mid, more, Unread());
          assert (d + got) + more == d + (got + more);
          got := got + more;
        } else {
          recv.NoChunks();
        }
      }
      if wire == [] {
        AllTaken(s, got, recv.Contents());
      }
    }

    lemma LeftFlows(s: seq<byte>, got: seq<seq<byte>>, rest: seq<byte>)
      requires TakenOff(s, got, rest)
      ensures Flows(rest)
    {
    }

    lemma AllTaken(s: seq<byte>, got: seq<seq<byte>>, c: seq<byte>)
      requires TakenOff(s, got, c + []) && !Whole(c)
      ensures got == Cut(s)
    {
      assert c + [] == c;
      assert got + [] == got;
    }
  }

  function ServerPacket(cmd: int, errno: u16, session: u32, ctx: seq<byte>): Packet {
    BetweenServers(cmd % TWO16, errno, SPT_SSPK, CT_NONE, session, ctx)
  }

  /** What a receiver finds in a frame for a client, field by field. */
  lemma ClientFrame(cmd: int, errno: u16, ctx: seq<byte>)
    requires |ctx| + 6 <= 65535
    ensures var f := Frame(ToClient(cmd % TWO16, errno, ctx));
            && |f| == |ctx| + 6 && Field(f, 0, 2) == |f| && Field(f, 2, 2) == cmd % 65536 && Field(f, 4, 2) == errno && f[6..] == ctx
  {
    var p := ToClient(cmd % TWO16, errno, ctx);
    HeaderRoundTrip(p);
    ParseFrame(p);
    hide Frame;
    hide Field;
  }

  /** The same in a frame for another server: the packet type is 3, the codec 0. */
  lemma ServerFrame(cmd: int, errno: u16, session: u32, ctx: seq<byte>)
    requires |ctx| + 14 <= 65535
    ensures var f := Frame(ServerPacket(cmd, errno, session, ctx));
            && |f| == |ctx| + 14 && Field(f, 0, 2) == |f| && Field(f, 2, 2) == cmd % 65536 && Field(f, 4, 2) == errno
            && Field(f, 6, 2) == 3 && Field(f, 8, 2) == 0 && Field(f, 10, 4) == session && f[14..] == ctx
  {
    var p := ServerPacket(cmd, errno, session, ctx);
    HeaderRoundTrip(p);
    ServerHeaderRoundTrip(p);
    hide Frame;
    hide Field;
  }

  /** A connection's outgoing side. */
  class StreamPacket {
    const send: Buffer

    constructor (send: Buffer)
      ensures this.send == send
    {
      this.send := send;
    }

    /** Appends a header and the body behind it. */
    method AppendPacket(header: seq<byte>, body: seq<byte>)
      requires send.Valid()
      modifies send, send.repr
      ensures send.Valid() && fresh(send.repr - old(send.repr))
      ensures send.Contents() == old(send.Contents()) + (header + body)
    {
      hide Buffer.Valid;
      hide Buffer.Contents;
      ghost var c := send.Contents();
      var r := send.Append(header);
      if |body| > 0 {
        r := send.Append(body);
      }
      assert (c + header) + body == c + (header + body);
    }

    /** raw_pack_clt: frames a packet for a client, or fails if it is too long. */
    method RawPackClt(cmd: int, errno: u16, ctx: seq<byte>) returns (ret: int)
      requires send.Valid()
      modifies send, send.repr
      ensures send.Valid() && fresh(send.repr - old(send.repr))
      ensures ret == if |ctx| + 6 <= 65535 then 0 else -1
      ensures ret == 0 ==> var f := Frame(ToClient(cmd % TWO16, errno, ctx));
                           && send.Contents() == old(send.Contents()) + f && |f| == |ctx| + 6
                           && Field(f, 0, 2) == |f| && Field(f, 2, 2) == cmd % 65536 && Field(f, 4, 2) == errno && f[6..] == ctx
      ensures ret != 0 ==> send.Contents() == old(send.Contents())
    {
      var hl := S2C_HEADER + |ctx|;
      if hl > MAX_PACKET_LEN {
        return -1;
      }
      hide Buffer.Valid;
      hide Buffer.Contents;
      AppendPacket(LE(hl, 2) + LE(cmd % TWO16, 2) + LE(errno, 2), ctx);
      ClientFrame(cmd, errno, ctx);
      hide Field;
      return 0;
    }

    /** raw_pack_ss: frames a packet for another server, or fails if it is too long. */
    method RawPackSs(cmd: int, errno: u16, session: u32, ctx: seq<byte>) returns (ret: int)
      requires send.Valid()
      modifies send, send.repr
      ensures send.Valid() && fresh(send.repr - old(send.repr))
      ensures ret == if |ctx| + 14 <= 65535 then 0 else -1
      ensures ret == 0 ==> var f := Frame(ServerPacket(cmd, errno, session, ctx));
                           && send.Contents() == old(send.Contents()) + f && |f| == |ctx| + 14
                           && Field(f, 0, 2) == |f| && Field(f, 2, 2) == cmd % 65536 && Field(f, 4, 2) == errno
                           && Field(f, 6, 2) == 3 && Field(f, 8, 2) == 0 && Field(f, 10, 4) == session && f[14..] == ctx
      ensures ret != 0 ==> send.Contents() == old(send.Contents())
    {
      var hl := S2S_HEADER + |ctx|;
      if hl > MAX_PACKET_LEN {
        return -1;
      }
      hide Buffer.Valid;
      hide Buffer.Contents;
      var rest := LE(errno, 2) + LE(SPT_SSPK, 2) + LE(CT_NONE, 2) + LE(session, 4);
      AppendPacket(LE(hl, 2) + LE(cmd % TWO16, 2) + rest, ctx);
      ServerFrame(cmd, errno, session, ctx);
      hide Field;
      return 0;
    }
  }
}
