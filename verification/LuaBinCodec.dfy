/** The binary codec for Lua values (engine/src/net/codec/luabin_codec.{hpp,cpp}). */
module LuaBinCodecs {
  import opened Bytes

  // The encode buffer's size, and the most values a call encodes plus one.
  const MAX_BUFF := 1024 * 1024
  const MAX_VARIABLE := 255

  // The longest stretch that an accepted value is written past MAX_BUFF. The model's buffer is that much
  // longer than the source's, so that such a write can be described.
  const OVERRUN := 7

  // A float is its bit pattern. A table is its entries, in the order a traversal meets them.
  // Other is any value the codec does not take: functions, threads and userdata.
  datatype LuaValue =
    | Nil
    | Boolean(b: bool)
    | Float(bits: u64)
    | Integer(i: i64)
    | String(s: seq<byte>)
    | Table(entries: seq<Entry>)
    | Other

  datatype Entry = Entry(key: LuaValue, value: LuaValue)

  const LT_NIL: byte := 0
  const LT_BOOL: byte := 1
  const LT_NUM: byte := 2
  const LT_STR: byte := 3
  const LT_TABLE: byte := 4
  const LT_INT: byte := 5

  /** A size_t as it is stored: eight bytes, the value modulo 2^64. */
  function Word(n: nat): (s: seq<byte>)
    ensures |s| == 8
  {
    LE(n % TWO64, 8)
  }

  /** The wire form of a value, checks aside. */
  function Wire(v: LuaValue): seq<byte>
    decreases v, 0
  {
    match v
    case Nil => [LT_NIL]
    case Boolean(b) => [LT_BOOL, if b then 1 else 0]
    case Float(bits) => [LT_NUM] + Word(bits)
    case Integer(i) => [LT_INT] + Word(ToUnsigned(i))
    case String(s) => [LT_STR] + Word(|s|) + s
    case Table(entries) => [LT_TABLE] + Word(|entries|) + WireEntries(entries)
    case Other => []
  }

  function WireEntries(entries: seq<Entry>): seq<byte>
    decreases entries, 1
  {
    if entries == [] then []
    else WireEntry(entries[0]) + WireEntries(entries[1..])
  }

  function WireEntry(e: Entry): seq<byte>
    decreases e, 1
  {
    Wire(e.key) + Wire(e.value)
  }

  function WireList(vs: seq<LuaValue>): seq<byte> {
    if vs == [] then [] else Wire(vs[0]) + WireList(vs[1..])
  }

  /** Whether the encoder takes a value at a given write position, by the checks it makes on the way. */
  predicate Accepts(v: LuaValue, pos: nat)
    decreases v, 0
  {
    match v
    case Other => false
    case String(s) => 1 + |s| + pos < MAX_BUFF
    case Table(entries) => 1 + 16 + pos < MAX_BUFF && AcceptsEntries(entries, pos + 9)
    case _ => 1 + 8 + pos < MAX_BUFF
  }

  predicate AcceptsEntries(entries: seq<Entry>, pos: nat)
    decreases entries, 1
  {
    entries != [] ==>
      AcceptsEntry(entries[0], pos) && AcceptsEntries(entries[1..], pos + |WireEntry(entries[0])|)
  }

  predicate AcceptsEntry(e: Entry, pos: nat)
    decreases e, 1
  {
    Accepts(e.key, pos) && Accepts(e.value, pos + |Wire(e.key)|)
  }

  predicate AcceptsList(vs: seq<LuaValue>, pos: nat) {
    vs != [] ==> Accepts(vs[0], pos) && AcceptsList(vs[1..], pos + |Wire(vs[0])|)
  }

  /** How the bytes of each kind of value begin, and which follow. */
  lemma WireBytes(b: bool, bits: u64, i: i64, s: seq<byte>, entries: seq<Entry>)
    requires |s| < TWO64 && |entries| < TWO64
    ensures Wire(Nil) == [0] && Wire(Boolean(b)) == [1, if b then 1 else 0]
    ensures |Wire(Float(bits))| == |Wire(Integer(i))| == 9 && Wire(Float(bits))[0] == 2 && Wire(Integer(i))[0] == 5
    ensures FromLE(Wire(Float(bits))[1..]) == bits && FromLE(Wire(Integer(i))[1..]) == i % TWO64
    ensures |Wire(String(s))| == |s| + 9 && Wire(String(s))[0] == 3
    ensures FromLE(Wire(String(s))[1..9]) == |s| && Wire(String(s))[9..] == s
    ensures |Wire(Table(entries))| >= 9 && Wire(Table(entries))[0] == 4
    ensures FromLE(Wire(Table(entries))[1..9]) == |entries| && Wire(Table(entries))[9..] == WireEntries(entries)
  {
    TwosComplement(i);
    WordValue(bits);
    WordValue(ToUnsigned(i));
    WordValue(|s|);
    WordValue(|entries|);
    hide Word;
    hide FromLE;
    assert Wire(Float(bits))[1..] == Word(bits) && Wire(Integer(i))[1..] == Word(ToUnsigned(i));
    assert Wire(String(s))[1..9] == Word(|s|) && Wire(Table(entries))[1..9] == Word(|entries|);
  }

  // What decoding from a position gives. Fault is a read behind the end of the buffer.
  datatype Decoding<T> = Decoded(value: T, next: nat) | Failed | Fault

  function DecodeAt(buf: seq<byte>, pos: nat): (r: Decoding<LuaValue>)
    requires |buf| < TWO64
    ensures r.Decoded? ==> pos < r.next <= |buf|
    decreases |buf| - pos, 0
  {
    if pos + 1 > |buf| then Failed
    else
      var type_, p := buf[pos], pos + 1;
      if type_ == LT_NIL then Decoded(Nil, p)
      else if type_ == LT_BOOL then
        if p + 1 > |buf| then Failed else Decoded(Boolean(buf[p] != 0), p + 1)
      else if type_ == LT_NUM then
        if p + 8 > |buf| then Failed else Decoded(Float(WordAt(buf, p)), p + 8)
      else if type_ == LT_STR then
        if p + 8 > |buf| then Fault
        else
          var len := WordAt(buf, p);
          if (p + 8 + len) % TWO64 > |buf| then Failed
          else if p + 8 + len > |buf| then Fault
          else Decoded(String(buf[p + 8..p + 8 + len]), p + 8 + len)
      else if type_ == LT_INT then
        if p + 8 > |buf| then Failed else Decoded(Integer(ToSigned(WordAt(buf, p))), p + 8)
      else if type_ == LT_TABLE then
        if p + 8 > |buf| then Failed
        else
          match DecodeEntriesAt(buf, p + 8, WordAt(buf, p), [])
          case Decoded(entries, next) => Decoded(Table(entries), next)
          case Failed => Failed
          case Fault => Fault
      else Failed
  }

  function DecodeEntriesAt(buf: seq<byte>, pos: nat, count: nat, acc: seq<Entry>)
    : (r: Decoding<seq<Entry>>)
    requires pos <= |buf| < TWO64
    ensures r.Decoded? ==> pos <= r.next <= |buf|
    decreases |buf| - pos, count + 1
  {
    if count == 0 then Decoded(acc, pos)
    else
      match DecodeAt(buf, pos)
      case Failed => Failed
      case Fault => Fault
      case Decoded(k, p1) =>
        match DecodeAt(buf, p1)
        case Failed => Failed
        case Fault => Fault
        case Decoded(v, p2) =>
          if k == Nil then Failed
          else DecodeEntriesAt(buf, p2, count - 1, RawSet(acc, k, v))
  }

  function DecodeListAt(buf: seq<byte>, pos: nat, count: nat, acc: seq<LuaValue>): (r: Decoding<seq<LuaValue>>)
    requires pos <= |buf| < TWO64
    ensures r.Decoded? ==> pos <= r.next <= |buf|
    decreases count
  {
    if count == 0 then Decoded(acc, pos)
    else
      match DecodeAt(buf, pos)
      case Failed => Failed
      case Fault => Fault
      case Decoded(v, p) => DecodeListAt(buf, p, count - 1, acc + [v])
  }

  /** The 8-byte word at a position. */
  function WordAt(buf: seq<byte>, pos: nat): u64
    requires pos + 8 <= |buf|
  {
    FromLEBound(buf[pos..pos + 8]);
    Widths();
    FromLE(buf[pos..pos + 8])
  }

  /** Lua compares table keys by identity, so a freshly decoded table equals no key already there. */
  predicate SameKey(a: LuaValue, b: LuaValue) { a == b && !a.Table? }

  /** lua_rawset on a table listed by its entries: replaces, removes or adds. */
  function RawSet(entries: seq<Entry>, k: LuaValue, v: LuaValue): seq<Entry> {
    if entries == [] then (if v == Nil then [] else [Entry(k, v)])
    else if SameKey(entries[0].key, k) then (if v == Nil then [] else [Entry(k, v)]) + entries[1..]
    else [entries[0]] + RawSet(entries[1..], k, v)
  }

  /** A value a Lua state can hold and the codec takes: keys are not nil and pairwise different, values are not nil. */
  ghost predicate WellFormed(v: LuaValue)
    decreases v, 0
  {
    match v
    case Other => false
    case String(s) => |s| < TWO64
    case Table(entries) => |entries| < TWO64 && DistinctKeys(entries) && forall e | e in entries :: WellFormedEntry(e)
    case _ => true
  }

  ghost predicate WellFormedEntry(e: Entry)
    decreases e, 1
  {
    e.key != Nil && e.value != Nil && WellFormed(e.key) && WellFormed(e.value)
  }

  ghost predicate DistinctKeys(entries: seq<Entry>) {
    forall i, j | 0 <= i < j < |entries| :: entries[i].key != entries[j].key || entries[i].key.Table?
  }

  lemma WordValue(n: nat)
    requires n < TWO64
    ensures FromLE(Word(n)) == n
  {
    Widths();
    hide Pow256;
    hide LE;
    hide FromLE;
    assert n % TWO64 == n;
    LERoundTrip(n, 8);
  }

  lemma WordRoundTrip(buf: seq<byte>, pos: nat, n: nat)
    requires n < TWO64 && HoldsAt(buf, pos, Word(n))
    ensures pos + 8 <= |buf| && WordAt(buf, pos) == n
  {
    WordValue(n);
    hide Word;
    hide FromLE;
    hide Pow256;
  }

  /** Decoding the wire form of a value gives the value back and stops right behind it. */
  lemma {:induction false} RoundTrip(buf: seq<byte>, pos: nat, v: LuaValue)
    requires |buf| < TWO64 && WellFormed(v) && HoldsAt(buf, pos, Wire(v))
    ensures DecodeAt(buf, pos) == Decoded(v, pos + |Wire(v)|)
    decreases v, 0
  {
    hide WordAt;
    hide DecodeEntriesAt;
    hide WireEntries;
    hide DistinctKeys;
    assert buf[pos] == Wire(v)[0];
    match v
    case Nil =>
    case Boolean(b) =>
      assert buf[pos + 1] == Wire(v)[1];
    case Float(bits) =>
      HoldsSplit(buf, pos, [LT_NUM], Word(bits));
      WordRoundTrip(buf, pos + 1, bits);
    case Integer(i) =>
      HoldsSplit(buf, pos, [LT_INT], Word(ToUnsigned(i)));
      WordRoundTrip(buf, pos + 1, ToUnsigned(i));
    case String(s) =>
      RoundTripString(buf, pos, s);
    case Table(entries) =>
      HeaderRoundTrip(buf, pos, LT_TABLE, |entries|, WireEntries(entries));
      assert [] + entries == entries;
      RoundTripEntries(buf, pos + 9, entries, []);
  }

  /** A type byte, a length word and what follows it. */
  lemma HeaderRoundTrip(buf: seq<byte>, pos: nat, kind: byte, n: nat, rest: seq<byte>)
    requires n < TWO64 && HoldsAt(buf, pos, [kind] + Word(n) + rest)
    ensures pos + 9 <= |buf| && buf[pos] == kind && WordAt(buf, pos + 1) == n && HoldsAt(buf, pos + 9, rest)
  {
    HoldsSplit(buf, pos, [kind] + Word(n), rest);
    HoldsSplit(buf, pos, [kind], Word(n));
    WordRoundTrip(buf, pos + 1, n);
    assert buf[pos..pos + 1][0] == kind;
  }

  lemma RoundTripString(buf: seq<byte>, pos: nat, s: seq<byte>)
    requires |buf| < TWO64 && |s| < TWO64 && HoldsAt(buf, pos, Wire(String(s)))
    ensures DecodeAt(buf, pos) == Decoded(String(s), pos + |Wire(String(s))|)
  {
    HeaderRoundTrip(buf, pos, LT_STR, |s|, s);
    hide WordAt;
    hide Word;
    hide WireEntries;
    hide DecodeEntriesAt;
    assert buf[pos + 9..pos + 9 + |s|] == s;
  }

  lemma {:induction false} RoundTripEntries(buf: seq<byte>, pos: nat, entries: seq<Entry>, acc: seq<Entry>)
    requires |buf| < TWO64 && HoldsAt(buf, pos, WireEntries(entries))
    requires DistinctKeys(acc + entries) && forall e | e in entries :: WellFormedEntry(e)
    ensures DecodeEntriesAt(buf, pos, |entries|, acc) == Decoded(acc + entries, pos + |WireEntries(entries)|)
    decreases entries, 2
  {
    hide Wire;
    hide DecodeAt;
    hide WellFormed;
    if entries == [] {
      assert acc + entries == acc;
    } else {
      var e := entries[0];
      assert e in entries;
      HoldsSplit(buf, pos, WireEntry(e), WireEntries(entries[1..]));
      HoldsSplit(buf, pos, Wire(e.key), Wire(e.value));
      RoundTripEntry(buf, pos, e);
      forall i | 0 <= i < |acc|
        ensures !SameKey(acc[i].key, e.key)
      {
        assert (acc + entries)[|acc|] == e && (acc + entries)[i] == acc[i];
      }
      RawSetAppends(acc, e.key, e.value);
      assert acc + [e] + entries[1..] == acc + entries;
      RoundTripEntries(buf, pos + |WireEntry(e)|, entries[1..], acc + [e]);
    }
  }

  lemma {:induction false} RoundTripEntry(buf: seq<byte>, pos: nat, e: Entry)
    requires |buf| < TWO64 && WellFormedEntry(e)
    requires HoldsAt(buf, pos, Wire(e.key)) && HoldsAt(buf, pos + |Wire(e.key)|, Wire(e.value))
    ensures DecodeAt(buf, pos) == Decoded(e.key, pos + |Wire(e.key)|)
    ensures DecodeAt(buf, pos + |Wire(e.key)|) == Decoded(e.value, pos + |WireEntry(e)|)
    decreases e, 1
  {
    RoundTrip(buf, pos, e.key);
    RoundTrip(buf, pos + |Wire(e.key)|, e.value);
  }

  /** A key that is not there, or is a table and so equals none, goes behind the others; a nil value adds nothing. */
  lemma {:induction false} RawSetAppends(entries: seq<Entry>, k: LuaValue, v: LuaValue)
    requires k.Table? || forall i | 0 <= i < |entries| :: entries[i].key != k
    ensures RawSet(entries, k, v) == entries + if v == Nil then [] else [Entry(k, v)]
  {
    if entries != [] {
      RawSetAppends(entries[1..], k, v);
    }
  }

  /** The entry of a key that is there gets the value in its place, or goes if that is nil. */
  lemma {:induction false} RawSetReplaces(entries: seq<Entry>, k: LuaValue, v: LuaValue, i: nat)
    requires i < |entries| && entries[i].key == k && !k.Table? && forall j | 0 <= j < i :: entries[j].key != k
    ensures RawSet(entries, k, v) == entries[..i] + (if v == Nil then [] else [Entry(k, v)]) + entries[i + 1..]
  {
    if i > 0 {
      RawSetReplaces(entries[1..], k, v, i - 1);
      assert [entries[0]] + entries[1..][..i - 1] == entries[..i];
    }
  }

  lemma {:induction false} RoundTripList(buf: seq<byte>, pos: nat, vs: seq<LuaValue>, acc: seq<LuaValue>)
    requires |buf| < TWO64 && HoldsAt(buf, pos, WireList(vs)) && forall v | v in vs :: WellFormed(v)
    ensures DecodeListAt(buf, pos, |vs|, acc) == Decoded(acc + vs, pos + |WireList(vs)|)
    decreases vs
  {
    hide Wire;
    hide DecodeAt;
    hide WellFormed;
    if vs == [] {
      assert acc + vs == acc;
    } else {
      HoldsSplit(buf, pos, Wire(vs[0]), WireList(vs[1..]));
      assert vs[0] in vs;
      RoundTrip(buf, pos, vs[0]);
      assert acc + [vs[0]] + vs[1..] == acc + vs;
      RoundTripList(buf, pos + |Wire(vs[0])|, vs[1..], acc + [vs[0]]);
    }
  }

  /** What a call puts on the wire: the number of values in one byte, then the values. */
  function Message(vs: seq<LuaValue>): seq<byte> {
    [|vs| % 256] + WireList(vs)
  }

  function DecodeMessage(buf: seq<byte>): (r: Decoding<seq<LuaValue>>)
    requires |buf| < TWO64
  {
    if |buf| < 1 then Failed else DecodeListAt(buf, 1, buf[0], [])
  }

  /** A message decodes to the values it was made from, all bytes used, as long as the count fits its byte. */
  lemma MessageRoundTrip(vs: seq<LuaValue>)
    requires |Message(vs)| < TWO64 && forall v | v in vs :: WellFormed(v)
    ensures |vs| <= MAX_VARIABLE ==> DecodeMessage(Message(vs)) == Decoded(vs, |Message(vs)|)
  {
    hide DecodeListAt;
    hide WireList;
    if |vs| <= MAX_VARIABLE {
      var buf := Message(vs);
      assert buf[1..] == WireList(vs);
      RoundTripList(buf, 1, vs, []);
      assert [] + vs == vs;
    }
  }

  /** The encoder takes up to 256 values. Exactly at 256 the count wraps to nothing and they are lost. */
  lemma MessageRoundTripExactly(vs: seq<LuaValue>)
    requires 1 <= |vs| <= 256 && AcceptsList(vs, 1) && forall v | v in vs :: WellFormed(v)
    ensures |Message(vs)| <= MAX_BUFF + OVERRUN
    ensures DecodeMessage(Message(vs)) == Decoded(vs, |Message(vs)|) <==> |vs| <= MAX_VARIABLE
  {
    ListEnd(vs, 1);
    MessageRoundTrip(vs);
    if |vs| == 256 {
      assert DecodeMessage(Message(vs)) == Decoded([], 1);
    }
  }

  /** What a decoding reads is all that it depends on: with more bytes behind, it gives the same. */
  lemma {:induction false} DecodeStable(buf: seq<byte>, longer: seq<byte>, pos: nat)
    requires buf <= longer && |longer| < TWO64 && DecodeAt(buf, pos).Decoded?
    ensures DecodeAt(longer, pos) == DecodeAt(buf, pos)
    decreases |buf| - pos, 0
  {
    hide FromLE;
    assert longer[..|buf|] == buf;
    if pos + 9 <= |buf| {
      assert longer[pos + 1..pos + 9] == buf[pos + 1..pos + 9];
      var n := WordAt(buf, pos + 1);
      if buf[pos] == LT_TABLE {
        EntriesStable(buf, longer, pos + 9, n, []);
      } else if buf[pos] == LT_STR {
        assert longer[pos + 9..pos + 9 + n] == buf[pos + 9..pos + 9 + n];
      }
    }
  }

  lemma {:induction false} EntriesStable(buf: seq<byte>, longer: seq<byte>, pos: nat, count: nat, acc: seq<Entry>)
    requires buf <= longer && |longer| < TWO64 && pos <= |buf| && DecodeEntriesAt(buf, pos, count, acc).Decoded?
    ensures DecodeEntriesAt(longer, pos, count, acc) == DecodeEntriesAt(buf, pos, count, acc)
    decreases |buf| - pos, count + 1
  {
    hide DecodeAt;
    if count > 0 {
      DecodeStable(buf, longer, pos);
      var k := DecodeAt(buf, pos);
      DecodeStable(buf, longer, k.next);
      var v := DecodeAt(buf, k.next);
      EntriesStable(buf, longer, v.next, count - 1, RawSet(acc, k.value, v.value));
    }
  }

  lemma {:induction false} ListStable(buf: seq<byte>, longer: seq<byte>, pos: nat, count: nat, acc: seq<LuaValue>)
    requires buf <= longer && |longer| < TWO64 && pos <= |buf| && DecodeListAt(buf, pos, count, acc).Decoded?
    ensures DecodeListAt(longer, pos, count, acc) == DecodeListAt(buf, pos, count, acc)
    decreases count
  {
    hide DecodeAt;
    if count > 0 {
      DecodeStable(buf, longer, pos);
      var v := DecodeAt(buf, pos);
      ListStable(buf, longer, v.next, count - 1, acc + [v.value]);
    }
  }

  /** A message that is cut off anywhere is refused, and one with more bytes behind it decodes as if they were not there. */
  lemma OnlyWholeMessages(vs: seq<LuaValue>, k: nat, more: seq<byte>)
    requires |vs| <= MAX_VARIABLE && |Message(vs)| + |more| < TWO64 && (forall v | v in vs :: WellFormed(v))
    ensures k < |Message(vs)| ==> !DecodeMessage(Message(vs)[..k]).Decoded?
    ensures DecodeMessage(Message(vs) + more) == Decoded(vs, |Message(vs)|)
  {
    var buf := Message(vs);
    MessageRoundTrip(vs);
    hide DecodeListAt;
    hide Message;
    ListStable(buf, buf + more, 1, buf[0], []);
    if k < |buf| && DecodeMessage(buf[..k]).Decoded? {
      ListStable(buf[..k], buf, 1, buf[0], []);
    }
  }

  /** What does not begin with one of the six kinds, or ends before its kind says, is refused. */
  lemma RefusedKinds(buf: seq<byte>, pos: nat)
    requires |buf| < TWO64
    ensures pos >= |buf| || buf[pos] > 5 ==> DecodeAt(buf, pos) == Failed
    ensures pos + 1 == |buf| && buf[pos] == 1 ==> DecodeAt(buf, pos) == Failed
    ensures pos < |buf| < pos + 9 && buf[pos] in [2, 4, 5] ==> DecodeAt(buf, pos) == Failed
    ensures pos < |buf| < pos + 9 && buf[pos] == 3 ==> DecodeAt(buf, pos) == Fault
    ensures pos + 1 < |buf| && buf[pos] == 1 ==> DecodeAt(buf, pos) == Decoded(Boolean(buf[pos + 1] != 0), pos + 2)
  {
  }

  /** Different value lists have different messages. */
  lemma MessageInjective(vs: seq<LuaValue>, ws: seq<LuaValue>)
    requires |vs| <= MAX_VARIABLE && |ws| <= MAX_VARIABLE && |Message(vs)| < TWO64
    requires (forall v | v in vs :: WellFormed(v)) && (forall w | w in ws :: WellFormed(w))
    requires Message(vs) == Message(ws)
    ensures vs == ws
  {
    MessageRoundTrip(vs);
    MessageRoundTrip(ws);
  }

  /** 256 nils are taken and come back as no values at all. */
  lemma TwoHundredFiftySixNils() returns (vs: seq<LuaValue>)
    ensures |vs| == 256 && AcceptsList(vs, 1) && (forall v | v in vs :: WellFormed(v))
    ensures |Message(vs)| < TWO64
    ensures DecodeMessage(Message(vs)) == Decoded([], 1)
  {
    vs := seq(256, _ => Nil);
    NilsAccepted(vs, 1);
    ListEnd(vs, 1);
  }

  lemma {:induction false} NilsAccepted(vs: seq<LuaValue>, pos: nat)
    requires (forall v | v in vs :: v == Nil) && pos + |vs| + 9 < MAX_BUFF
    ensures AcceptsList(vs, pos)
  {
    if vs != [] {
      assert vs[0] in vs && forall v | v in vs[1..] :: v in vs;
      NilsAccepted(vs[1..], pos + 1);
    }
  }

  /** The check the encoder should make on strings: the type byte, the length word and the text must fit. */
  predicate StringsFit(v: LuaValue, pos: nat)
    decreases v, 0
  {
    match v
    case String(s) => pos + 9 + |s| <= MAX_BUFF
    case Table(entries) => StringsFitEntries(entries, pos + 9)
    case _ => true
  }

  predicate StringsFitEntries(entries: seq<Entry>, pos: nat)
    decreases entries, 1
  {
    entries != [] ==>
      StringsFitEntry(entries[0], pos) && StringsFitEntries(entries[1..], pos + |WireEntry(entries[0])|)
  }

  predicate StringsFitEntry(e: Entry, pos: nat)
    decreases e, 1
  {
    StringsFit(e.key, pos) && StringsFit(e.value, pos + |Wire(e.key)|)
  }

  predicate StringsFitList(vs: seq<LuaValue>, pos: nat) {
    vs != [] ==> StringsFit(vs[0], pos) && StringsFitList(vs[1..], pos + |Wire(vs[0])|)
  }

  /** Where an accepted value ends: within the buffer exactly if its strings pass the right check. */
  lemma {:induction false} ValueEnd(v: LuaValue, pos: nat)
    requires Accepts(v, pos)
    ensures pos < pos + |Wire(v)| <= MAX_BUFF + OVERRUN
    ensures pos + |Wire(v)| <= MAX_BUFF <==> StringsFit(v, pos)
    decreases v, 0
  {
    if v.Table? {
      EntriesEnd(v.entries, pos + 9);
    }
  }

  lemma {:induction false} EntriesEnd(entries: seq<Entry>, pos: nat)
    requires AcceptsEntries(entries, pos) && pos <= MAX_BUFF + OVERRUN
    ensures pos + |WireEntries(entries)| <= MAX_BUFF + OVERRUN
    ensures pos <= MAX_BUFF ==> (pos + |WireEntries(entries)| <= MAX_BUFF <==> StringsFitEntries(entries, pos))
    decreases entries, 2
  {
    if entries != [] {
      EntryEnd(entries[0], pos);
      EntriesEnd(entries[1..], pos + |WireEntry(entries[0])|);
    }
  }

  lemma {:induction false} EntryEnd(e: Entry, pos: nat)
    requires AcceptsEntry(e, pos)
    ensures pos < pos + |WireEntry(e)| <= MAX_BUFF + OVERRUN
    ensures pos + |WireEntry(e)| <= MAX_BUFF <==> StringsFitEntry(e, pos)
    decreases e, 1
  {
    ValueEnd(e.key, pos);
    ValueEnd(e.value, pos + |Wire(e.key)|);
  }

  /** An accepted list stays inside the buffer exactly if every string in it passes the right check. */
  lemma {:induction false} ListEnd(vs: seq<LuaValue>, pos: nat)
    requires AcceptsList(vs, pos) && pos <= MAX_BUFF + OVERRUN
    ensures pos + |WireList(vs)| <= MAX_BUFF + OVERRUN
    ensures pos <= MAX_BUFF ==> (pos + |WireList(vs)| <= MAX_BUFF <==> StringsFitList(vs, pos))
  {
    if vs != [] {
      ValueEnd(vs[0], pos);
      ListEnd(vs[1..], pos + |Wire(vs[0])|);
    }
  }

  /** One string that the encoder's check lets through although it ends behind the buffer. */
  lemma AcceptedStringOverruns(s: seq<byte>)
    requires |s| == MAX_BUFF - 3
    ensures AcceptsList([String(s)], 1) && |Message([String(s)])| == MAX_BUFF + OVERRUN
  {
    assert WireList([String(s)]) == Wire(String(s));
  }

  // ---- what is taken, seen on the pieces that are written one after the other

  /** A value's pieces in the order in which they are written: a table stands for its head, its entries follow. */
  ghost function Pieces(v: LuaValue): (ps: seq<LuaValue>)
    ensures ps != []
    decreases v, 0
  {
    match v
    case Table(entries) => [v] + PiecesOfEntries(entries)
    case _ => [v]
  }

  ghost function PiecesOfEntries(entries: seq<Entry>): seq<LuaValue>
    decreases entries, 1
  {
    if entries == [] then [] else PiecesOfEntry(entries[0]) + PiecesOfEntries(entries[1..])
  }

  ghost function PiecesOfEntry(e: Entry): seq<LuaValue>
    decreases e, 1
  {
    Pieces(e.key) + Pieces(e.value)
  }

  ghost function PiecesOfList(vs: seq<LuaValue>): seq<LuaValue> {
    if vs == [] then [] else Pieces(vs[0]) + PiecesOfList(vs[1..])
  }

  /** How many bytes a piece takes up. */
  ghost function Size(p: LuaValue): nat {
    if p == Nil then 1 else if p.Boolean? then 2 else if p.String? then 9 + |p.s| else if p == Other then 0 else 9
  }

  ghost function Sizes(ps: seq<LuaValue>): nat {
    if ps == [] then 0 else Size(ps[0]) + Sizes(ps[1..])
  }

  /** How many bytes the check before a piece asks for; the buffer must have more than these left. */
  ghost function Asked(p: LuaValue): nat {
    if p.String? then 1 + |p.s| else if p.Table? then 17 else 9
  }

  /** All pieces are of kinds that the codec takes, and for each there is what its check asks for behind those before it. */
  ghost predicate Taken(ps: seq<LuaValue>, pos: nat) {
    forall k: nat | k < |ps| :: TakenAt(ps, pos, k)
  }

  ghost predicate TakenAt(ps: seq<LuaValue>, pos: nat, k: nat)
    requires k < |ps|
  {
    ps[k] != Other && pos + Sizes(ps[..k]) + Asked(ps[k]) < MAX_BUFF
  }

  lemma {:induction false} SizesSplit(ps: seq<LuaValue>, qs: seq<LuaValue>)
    ensures Sizes(ps + qs) == Sizes(ps) + Sizes(qs)
  {
    if ps == [] {
      assert ps + qs == qs;
    } else {
      assert (ps + qs)[1..] == ps[1..] + qs;
      SizesSplit(ps[1..], qs);
    }
  }

  lemma TakenSplit(ps: seq<LuaValue>, qs: seq<LuaValue>, pos: nat)
    ensures Taken(ps + qs, pos) <==> Taken(ps, pos) && Taken(qs, pos + Sizes(ps))
  {
    var all, n, end := ps + qs, |ps|, pos + Sizes(ps);
    hide TakenAt;
    if Taken(all, pos) {
      forall k: nat | k < |qs|
        ensures TakenAt(qs, end, k)
      {
        SamePiece(ps, qs, pos, n + k);
        assert TakenAt(all, pos, n + k);
      }
      forall k: nat | k < n
        ensures TakenAt(ps, pos, k)
      {
        SamePiece(ps, qs, pos, k);
        assert TakenAt(all, pos, k);
      }
    }
    if Taken(ps, pos) && Taken(qs, pos + Sizes(ps)) {
      forall k: nat | k < |all|
        ensures TakenAt(all, pos, k)
      {
        SamePiece(ps, qs, pos, k);
        if k < n {
          assert TakenAt(ps, pos, k);
        } else {
          assert TakenAt(qs, end, k - n);
        }
      }
    }
  }

  lemma SamePiece(ps: seq<LuaValue>, qs: seq<LuaValue>, pos: nat, k: nat)
    requires k < |ps + qs|
    ensures TakenAt(ps + qs, pos, k) == if k < |ps| then TakenAt(ps, pos, k) else TakenAt(qs, pos + Sizes(ps), k - |ps|)
  {
    if k < |ps| {
      assert (ps + qs)[..k] == ps[..k];
    } else {
      assert (ps + qs)[..k] == ps + qs[..k - |ps|];
      SizesSplit(ps, qs[..k - |ps|]);
    }
  }

  lemma TakenOne(v: LuaValue, pos: nat)
    ensures Taken([v], pos) <==> v != Other && pos + Asked(v) < MAX_BUFF
    ensures Sizes([v]) == Size(v) && Sizes([]) == 0
  {
    assert [v][..0] == [] && [v][1..] == [];
    assert Taken([v], pos) <==> TakenAt([v], pos, 0);
  }

  /** The encoder takes a value exactly if all its pieces are taken, and they are as long as its wire form. */
  lemma {:induction false} AcceptsExactly(v: LuaValue, pos: nat)
    ensures Accepts(v, pos) <==> Taken(Pieces(v), pos)
    ensures |Wire(v)| == Sizes(Pieces(v))
    decreases v, 0
  {
    TakenOne(v, pos);
    if v.Table? {
      AcceptsEntriesExactly(v.entries, pos + 9);
      TakenSplit([v], PiecesOfEntries(v.entries), pos);
      SizesSplit([v], PiecesOfEntries(v.entries));
    }
  }

  lemma {:induction false} AcceptsEntriesExactly(entries: seq<Entry>, pos: nat)
    ensures AcceptsEntries(entries, pos) <==> Taken(PiecesOfEntries(entries), pos)
    ensures |WireEntries(entries)| == Sizes(PiecesOfEntries(entries))
    decreases entries, 2
  {
    hide WireEntry;
    hide AcceptsEntry;
    hide PiecesOfEntry;
    if entries != [] {
      AcceptsEntryExactly(entries[0], pos);
      AcceptsEntriesExactly(entries[1..], pos + |WireEntry(entries[0])|);
      TakenSplit(PiecesOfEntry(entries[0]), PiecesOfEntries(entries[1..]), pos);
      SizesSplit(PiecesOfEntry(entries[0]), PiecesOfEntries(entries[1..]));
    }
  }

  lemma {:induction false} AcceptsEntryExactly(e: Entry, pos: nat)
    ensures AcceptsEntry(e, pos) <==> Taken(PiecesOfEntry(e), pos)
    ensures |WireEntry(e)| == Sizes(PiecesOfEntry(e))
    decreases e, 1
  {
    hide Wire;
    hide Accepts;
    hide Taken;
    hide Sizes;
    hide Pieces;
    AcceptsExactly(e.key, pos);
    AcceptsExactly(e.value, pos + |Wire(e.key)|);
    TakenSplit(Pieces(e.key), Pieces(e.value), pos);
    SizesSplit(Pieces(e.key), Pieces(e.value));
  }

  lemma {:induction false} AcceptsListExactly(vs: seq<LuaValue>, pos: nat)
    ensures AcceptsList(vs, pos) <==> Taken(PiecesOfList(vs), pos)
    ensures |WireList(vs)| == Sizes(PiecesOfList(vs))
  {
    hide Wire;
    hide Accepts;
    hide Pieces;
    if vs != [] {
      AcceptsExactly(vs[0], pos);
      AcceptsListExactly(vs[1..], pos + |Wire(vs[0])|);
      TakenSplit(Pieces(vs[0]), PiecesOfList(vs[1..]), pos);
      SizesSplit(Pieces(vs[0]), PiecesOfList(vs[1..]));
    }
  }

  /** No value of a kind that the codec does not take, at any depth. */
  ghost predicate Known(ps: seq<LuaValue>) { Other !in ps }

  lemma {:induction false} WellFormedIsKnown(v: LuaValue)
    requires WellFormed(v)
    ensures Known(Pieces(v))
    decreases v, 0
  {
    if v.Table? {
      forall e | e in v.entries
        ensures WellFormedEntry(e)
      {
      }
      EntriesAreKnown(v.entries);
    }
  }

  lemma {:induction false} EntriesAreKnown(entries: seq<Entry>)
    requires forall e | e in entries :: WellFormedEntry(e)
    ensures Known(PiecesOfEntries(entries))
    decreases entries, 2
  {
    if entries != [] {
      assert entries[0] in entries;
      EntryIsKnown(entries[0]);
      EntriesAreKnown(entries[1..]);
    }
  }

  lemma {:induction false} EntryIsKnown(e: Entry)
    requires WellFormedEntry(e)
    ensures Known(PiecesOfEntry(e))
    decreases e, 1
  {
    WellFormedIsKnown(e.key);
    WellFormedIsKnown(e.value);
  }

  lemma {:induction false} ListIsKnown(vs: seq<LuaValue>)
    requires forall v | v in vs :: WellFormed(v)
    ensures Known(PiecesOfList(vs))
  {
    if vs != [] {
      assert vs[0] in vs;
      WellFormedIsKnown(vs[0]);
      ListIsKnown(vs[1..]);
    }
  }

  /** Eight bytes to spare at the end are enough for every check on the way. */
  lemma RoomIsEnough(ps: seq<LuaValue>, pos: nat)
    requires Known(ps) && pos + Sizes(ps) + 8 < MAX_BUFF
    ensures Taken(ps, pos)
  {
    forall k: nat | k < |ps|
      ensures TakenAt(ps, pos, k)
    {
      assert ps[k] in ps;
      assert ps == ps[..k] + ps[k..];
      SizesSplit(ps[..k], ps[k..]);
      assert Sizes(ps[k..]) >= Size(ps[k]);
    }
  }

  /** Every list of values a Lua state can hold is taken if its message leaves eight bytes of the buffer. */
  lemma FittingIsAccepted(vs: seq<LuaValue>)
    requires (forall v | v in vs :: WellFormed(v)) && |Message(vs)| + 8 < MAX_BUFF
    ensures AcceptsList(vs, 1)
  {
    ListIsKnown(vs);
    AcceptsListExactly(vs, 1);
    hide WireList;
    RoomIsEnough(PiecesOfList(vs), 1);
  }

  /** A list with a value of another kind anywhere in it is refused. */
  lemma OtherIsRefused(vs: seq<LuaValue>)
    ensures AcceptsList(vs, 1) ==> Known(PiecesOfList(vs))
  {
    AcceptsListExactly(vs, 1);
    var ps := PiecesOfList(vs);
    if Taken(ps, 1) {
      forall k: nat | k < |ps|
        ensures ps[k] != Other
      {
        assert TakenAt(ps, 1, k);
      }
    }
  }

  class LuaBinCodec {
    const encodeBuff: array<byte>
    var buffLen: nat
    var buffPos: nat
    var decodeBuff: seq<byte>

    // The source's length field counts what has been written while encoding, and what there is to read
    // while decoding.
    ghost predicate Writing()
      reads this
    {
      encodeBuff.Length == MAX_BUFF + OVERRUN && buffLen <= encodeBuff.Length
    }

    ghost predicate Reading()
      reads this
    {
      buffLen == |decodeBuff| < TWO64 && buffPos <= buffLen
    }

    constructor ()
      ensures encodeBuff.Length == MAX_BUFF + OVERRUN && fresh(encodeBuff)
    {
      encodeBuff := new byte[MAX_BUFF + OVERRUN](_ => 0);
      buffLen, buffPos := 0, 0;
      decodeBuff := [];
    }

    /** Writes bytes at the cursor and moves it. */
    method Put(b: seq<byte>)
      requires Writing() && buffLen + |b| <= encodeBuff.Length
      modifies this`buffLen, encodeBuff
      ensures Writing() && encodeBuff[..buffLen] == old(encodeBuff[..buffLen]) + b
      ensures encodeBuff[buffLen..] == old(encodeBuff[..])[buffLen..]
    {
      forall i | 0 <= i < |b| {
        encodeBuff[buffLen + i] := b[i];
      }
      buffLen := buffLen + |b|;
    }

    /** Overwrites bytes that were written before. */
    method Patch(pos: nat, b: seq<byte>)
      requires Writing() && pos + |b| <= buffLen
      modifies encodeBuff
      ensures encodeBuff[..buffLen] == old(encodeBuff[..buffLen])[..pos] + b + old(encodeBuff[..buffLen])[pos + |b|..]
    {
      forall i | 0 <= i < |b| {
        encodeBuff[pos + i] := b[i];
      }
    }

    method EncodeValue(v: LuaValue) returns (ret: int)
      requires Writing()
      modifies this`buffLen, encodeBuff
      ensures Writing() && old(buffLen) <= buffLen && encodeBuff[..old(buffLen)] == old(encodeBuff[..buffLen])
      ensures ret == if Accepts(v, old(buffLen)) then 0 else -1
      ensures ret == 0 ==> encodeBuff[..buffLen] == old(encodeBuff[..buffLen]) + Wire(v)
      decreases v, 0
    {
      hide Word;
      hide WireEntries;
      hide AcceptsEntries;
      hide WireEntry;
      hide AcceptsEntry;
      hide ToUnsigned;
      match v {
      case Nil =>
        if 1 + 8 + buffLen >= MAX_BUFF { return -1; }
        Put([LT_NIL]);
      case Boolean(b) =>
        if 1 + 8 + buffLen >= MAX_BUFF { return -1; }
        Put([LT_BOOL, if b then 1 else 0]);
      case Integer(i) =>
        if 1 + 8 + buffLen >= MAX_BUFF { return -1; }
        Put([LT_INT] + Word(ToUnsigned(i)));
      case Float(bits) =>
        if 1 + 8 + buffLen >= MAX_BUFF { return -1; }
        Put([LT_NUM] + Word(bits));
      case String(s) =>
        if 1 + |s| + buffLen >= MAX_BUFF { return -1; }
        Put([LT_STR] + Word(|s|) + s);
      case Table(entries) =>
        if 1 + 16 + buffLen >= MAX_BUFF { return -1; }
        ghost var before := encodeBuff[..buffLen];
        Put([LT_TABLE]);
        ret := EncodeTable(entries);
        assert (before + [LT_TABLE]) + Word(|entries|) + WireEntries(entries)
            == before + ([LT_TABLE] + Word(|entries|) + WireEntries(entries));
        return;
      case Other =>
        return -1;
      }
      return 0;
    }

    method EncodeEntry(e: Entry) returns (ret: int)
      requires Writing()
      modifies this`buffLen, encodeBuff
      ensures Writing() && old(buffLen) <= buffLen && encodeBuff[..old(buffLen)] == old(encodeBuff[..buffLen])
      ensures ret == if AcceptsEntry(e, old(buffLen)) then 0 else -1
      ensures ret == 0 ==> encodeBuff[..buffLen] == old(encodeBuff[..buffLen]) + WireEntry(e)
      decreases e, 1
    {
      hide Wire;
      hide Accepts;
      ghost var before := encodeBuff[..buffLen];
      ret := EncodeValue(e.key);
      if ret < 0 {
        return -1;
      }
      label Key:
      ret := EncodeValue(e.value);
      assert encodeBuff[..|before|] == encodeBuff[..old@Key(buffLen)][..|before|] == before;
      if ret != 0 {
        return -1;
      }
      assert (before + Wire(e.key)) + Wire(e.value) == before + (Wire(e.key) + Wire(e.value));
    }

    /** Leaves room for the count, writes the entries, then fills the count in. */
    method EncodeTable(entries: seq<Entry>) returns (ret: int)
      requires Writing() && buffLen + 8 <= encodeBuff.Length
      modifies this`buffLen, encodeBuff
      ensures Writing() && old(buffLen) <= buffLen && encodeBuff[..old(buffLen)] == old(encodeBuff[..buffLen])
      ensures ret == if AcceptsEntries(entries, old(buffLen) + 8) then 0 else -1
      ensures ret == 0 ==> encodeBuff[..buffLen] == old(encodeBuff[..buffLen]) + Word(|entries|) + WireEntries(entries)
      decreases entries, 2
    {
      hide Word;
      hide WireEntry;
      hide WireEntries;
      hide AcceptsEntry;
      hide AcceptsEntries;
      ghost var before, done := encodeBuff[..buffLen], [];
      var pCount, count := buffLen, 0;
      Put(Word(0));
      while count < |entries|
        invariant Writing() && 0 <= count <= |entries| && buffLen == |before| + 8 + |done|
        invariant encodeBuff[..buffLen] == before + Word(0) + done
        invariant done + WireEntries(entries[count..]) == WireEntries(entries)
        invariant AcceptsEntries(entries, pCount + 8) == AcceptsEntries(entries[count..], buffLen)
      {
        ghost var written := encodeBuff[..buffLen];
        var e := entries[count];
        FirstEntry(entries[count..], buffLen);
        assert entries[count..][1..] == entries[count + 1..];
        ret := EncodeEntry(e);
        if ret < 0 {
          assert encodeBuff[..|before|] == encodeBuff[..|written|][..|before|] == before;
          return -1;
        }
        assert written + WireEntry(e) == before + Word(0) + (done + WireEntry(e));
        assert done + (WireEntry(e) + WireEntries(entries[count + 1..])) == (done + WireEntry(e)) + WireEntries(entries[count + 1..]);
        done := done + WireEntry(e);
        count := count + 1;
      }
      NoEntries(entries[count..], buffLen);
      ghost var written := before + Word(0) + done;
      Patch(pCount, Word(count));
      assert written[..pCount] == before && written[pCount + 8..] == done;
      return 0;
    }

    /** The loop over the values of a call. */
    method EncodeList(vs: seq<LuaValue>) returns (ret: int)
      requires Writing()
      modifies this`buffLen, encodeBuff
      ensures Writing() && ret == if AcceptsList(vs, old(buffLen)) then 0 else -1
      ensures ret == 0 ==> encodeBuff[..buffLen] == old(encodeBuff[..buffLen]) + WireList(vs)
    {
      hide Wire;
      hide Accepts;
      hide WireList;
      hide AcceptsList;
      ghost var head, done := encodeBuff[..buffLen], [];
      assert vs[0..] == vs;
      var i := 0;
      while i < |vs|
        invariant Writing() && 0 <= i <= |vs| && encodeBuff[..buffLen] == head + done
        invariant done + WireList(vs[i..]) == WireList(vs)
        invariant AcceptsList(vs, old(buffLen)) == AcceptsList(vs[i..], buffLen)
      {
        assert vs[i..][1..] == vs[i + 1..];
        FirstOfList(vs[i..], buffLen);
        ret := EncodeValue(vs[i]);
        if ret < 0 {
          return -1;
        }
        ghost var w := Wire(vs[i]);
        assert (head + done) + w == head + (done + w);
        assert done + (w + WireList(vs[i + 1..])) == (done + w) + WireList(vs[i + 1..]);
        done := done + w;
        i := i + 1;
      }
      NoList(vs[i..], buffLen);
      return 0;
    }

    lemma EncodedComesBack(vs: seq<LuaValue>)
      ensures AcceptsList(vs, 1) ==> Other !in PiecesOfList(vs)
      ensures |vs| <= 255 && (forall v | v in vs :: WellFormed(v)) && |Message(vs)| + 8 < MAX_BUFF ==>
                AcceptsList(vs, 1) && DecodeMessage(Message(vs)) == Decoded(vs, |Message(vs)|)
    {
      OtherIsRefused(vs);
      if |vs| <= 255 && (forall v | v in vs :: WellFormed(v)) && |Message(vs)| + 8 < MAX_BUFF {
        FittingIsAccepted(vs);
        MessageRoundTrip(vs);
      }
    }

    /** Encodes the values of a call. The count is one byte, so 256 values are announced as none. */
    method Encode(vs: seq<LuaValue>) returns (ret: int)
      requires encodeBuff.Length == MAX_BUFF + OVERRUN
      modifies this`buffLen, encodeBuff
      ensures ret >= 0 <==> 1 <= |vs| <= 256 && AcceptsList(vs, 1)
      ensures ret >= 0 ==> ret == |Message(vs)| <= encodeBuff.Length && encodeBuff[..ret] == Message(vs)
      ensures ret < 0 ==> ret == -1
      ensures ret >= 0 <==> 1 <= |vs| <= 256 && Taken(PiecesOfList(vs), 1)
      ensures Other in PiecesOfList(vs) ==> ret == -1
      ensures 1 <= |vs| <= 255 && (forall v | v in vs :: WellFormed(v)) && |Message(vs)| + 8 < MAX_BUFF ==>
                ret == |Message(vs)| && DecodeMessage(encodeBuff[..ret]) == Decoded(vs, ret)
    {
      AcceptsListExactly(vs, 1);
      hide DecodeMessage;
      hide Taken;
      hide PiecesOfList;
      hide WellFormed;
      hide WireList;
      hide AcceptsList;
      EncodedComesBack(vs);
      if |vs| == 0 || |vs| - 1 > MAX_VARIABLE {
        return -1;
      }
      buffLen := 0;
      Put([|vs| % 256]);
      ret := EncodeList(vs);
      if ret == 0 {
        ret := buffLen;
      }
    }

    /** Reads the 8-byte word at the cursor. */
    method GetWord() returns (n: u64)
      requires Reading() && buffPos + 8 <= |decodeBuff|
      modifies this`buffPos
      ensures Reading() && buffPos == old(buffPos) + 8 && n == WordAt(decodeBuff, old(buffPos))
    {
      n := WordAt(decodeBuff, buffPos);
      buffPos := buffPos + 8;
    }

    method DecodeValue() returns (r: Status, v: LuaValue)
      requires Reading()
      modifies this`buffPos
      ensures buffLen == |decodeBuff| < TWO64
      ensures Matches(DecodeAt(decodeBuff, old(buffPos)), r, v, buffPos)
      decreases buffLen - buffPos, 0
    {
      hide WordAt;
      hide DecodeEntriesAt;
      hide ToSigned;
      v := Nil;
      if buffPos + 1 > buffLen {
        return Bad, v;
      }
      var kind := decodeBuff[buffPos];
      buffPos := buffPos + 1;
      if kind == LT_NIL {
        return Done, Nil;
      } else if kind == LT_BOOL {
        if buffPos + 1 > buffLen {
          return Bad, v;
        }
        v := Boolean(decodeBuff[buffPos] != 0);
        buffPos := buffPos + 1;
        return Done, v;
      } else if kind == LT_NUM {
        if buffPos + 8 > buffLen {
          return Bad, v;
        }
        var bits := GetWord();
        return Done, Float(bits);
      } else if kind == LT_STR {
        if buffPos + 8 > |decodeBuff| {
          return Faulted, v;
        }
        var len := GetWord();
        if (buffPos + len) % TWO64 > buffLen {
          return Bad, v;
        }
        if buffPos + len > |decodeBuff| {
          return Faulted, v;
        }
        v := String(decodeBuff[buffPos..buffPos + len]);
        buffPos := buffPos + len;
        return Done, v;
      } else if kind == LT_INT {
        if buffPos + 8 > buffLen {
          return Bad, v;
        }
        var n := GetWord();
        return Done, Integer(ToSigned(n));
      } else if kind == LT_TABLE {
        if buffPos + 8 > buffLen {
          return Bad, v;
        }
        r, v := DecodeTable();
      } else {
        return Bad, v;
      }
    }

    method DecodeTable() returns (r: Status, v: LuaValue)
      requires Reading() && buffPos + 8 <= buffLen
      modifies this`buffPos
      ensures buffLen == |decodeBuff| < TWO64
      ensures r == Done ==> v.Table? && buffPos <= buffLen
      ensures Matches(DecodeEntriesAt(decodeBuff, old(buffPos) + 8, WordAt(decodeBuff, old(buffPos)), []),
                      r, if v.Table? then v.entries else [], buffPos)
      decreases buffLen - buffPos, 1
    {
      hide DecodeAt;
      hide RawSet;
      hide WordAt;
      ghost var start := buffPos;
      var count := GetWord();
      var entries := [];
      v := Nil;
      var i := 0;
      while i < count
        invariant 0 <= i <= count && Reading() && buffPos >= start + 8
        invariant DecodeEntriesAt(decodeBuff, start + 8, count, []) == DecodeEntriesAt(decodeBuff, buffPos, count - i, entries)
      {
        var k, x;
        r, k := DecodeValue();
        if r != Done {
          return;
        }
        r, x := DecodeValue();
        if r != Done {
          return;
        }
        if k == Nil {
          return Bad, v;
        }
        entries := RawSet(entries, k, x);
        i := i + 1;
      }
      return Done, Table(entries);
    }

    /** Decodes the values of a call. */
    method Decode(buffer: seq<byte>) returns (r: Status, vs: seq<LuaValue>)
      requires |buffer| < TWO64
      modifies this`buffPos, this`buffLen, this`decodeBuff
      ensures Matches(DecodeMessage(buffer), r, vs, buffPos)
    {
      buffPos, buffLen, decodeBuff := 0, |buffer|, buffer;
      vs := [];
      if |buffer| < 1 {
        return Bad, vs;
      }
      var count := decodeBuff[0];
      buffPos := 1;
      for i := 0 to count
        invariant Reading() && decodeBuff == buffer
        invariant DecodeMessage(buffer) == DecodeListAt(buffer, buffPos, count - i, vs)
      {
        var v;
        r, v := DecodeValue();
        if r != Done {
          return;
        }
        vs := vs + [v];
      }
      r := Done;
    }
  }

  // How a decoding call ended: normally, with an error return, or by reading behind the buffer.
  datatype Status = Done | Bad | Faulted

  predicate Matches<T(==)>(d: Decoding<T>, r: Status, value: T, next: nat) {
    match d
    case Decoded(x, n) => r == Done && value == x && next == n
    case Failed => r == Bad
    case Fault => r == Faulted
  }

  lemma FirstEntry(entries: seq<Entry>, pos: nat)
    requires entries != []
    ensures WireEntries(entries) == WireEntry(entries[0]) + WireEntries(entries[1..])
    ensures AcceptsEntries(entries, pos) ==
            (AcceptsEntry(entries[0], pos) && AcceptsEntries(entries[1..], pos + |WireEntry(entries[0])|))
  {
  }

  lemma FirstOfList(vs: seq<LuaValue>, pos: nat)
    requires vs != []
    ensures WireList(vs) == Wire(vs[0]) + WireList(vs[1..])
    ensures AcceptsList(vs, pos) == (Accepts(vs[0], pos) && AcceptsList(vs[1..], pos + |Wire(vs[0])|))
  {
  }

  lemma NoList(vs: seq<LuaValue>, pos: nat)
    ensures vs == [] ==> WireList(vs) == [] && AcceptsList(vs, pos)
  {
  }

  lemma NoEntries(entries: seq<Entry>, pos: nat)
    requires entries == []
    ensures WireEntries(entries) == [] && AcceptsEntries(entries, pos)
  {
  }
}
