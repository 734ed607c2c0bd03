/** The chunked network buffer (engine/src/ev/buffer.cpp, engine/src/ev/buffer.hpp). */
module Buffers {
  import opened Bytes
  import opened Sequences

  const MAX_CTX := 8192

  /** The bytes of several chunks, one after the other. */
  function Join(vs: seq<seq<byte>>): seq<byte> {
    if vs == [] then [] else vs[0] + Join(vs[1..])
  }

  lemma {:induction false} JoinSnoc(vs: seq<seq<byte>>, x: seq<byte>)
    ensures Join(vs + [x]) == Join(vs) + x
  {
    if vs == [] {
      assert [x][1..] == [];
    } else {
      assert (vs + [x])[1..] == vs[1..] + [x];
      JoinSnoc(vs[1..], x);
      assert vs[0] + (Join(vs[1..]) + x) == (vs[0] + Join(vs[1..])) + x;
    }
  }

  /** Changing the last part changes the end of the whole. */
  lemma {:induction false} JoinLast(vs: seq<seq<byte>>, ws: seq<seq<byte>>, x: seq<byte>)
    requires vs != [] && ws == vs[|vs| - 1 := vs[|vs| - 1] + x]
    ensures Join(ws) == Join(vs) + x
  {
    var init, last := vs[..|vs| - 1], vs[|vs| - 1];
    LastApart(vs, last);
    LastApart(vs, last + x);
    assert vs[|vs| - 1 := last] == vs;
    JoinSnoc(init, last);
    JoinSnoc(init, last + x);
    hide Join;
    assert Join(init) + (last + x) == (Join(init) + last) + x;
  }

  lemma LastApart(vs: seq<seq<byte>>, y: seq<byte>)
    requires vs != []
    ensures vs[|vs| - 1 := y] == vs[..|vs| - 1] + [y]
  {
  }

  /** Cutting bytes off the front part cuts them off the whole. */
  lemma JoinFront(vs: seq<seq<byte>>, n: nat)
    requires vs != [] && n <= |vs[0]|
    ensures n <= |Join(vs)| && Join(vs)[..n] == vs[0][..n]
    ensures Join(vs[0 := vs[0][n..]]) == Join(vs)[n..]
    ensures n == |vs[0]| ==> Join(vs[1..]) == Join(vs)[n..]
  {
    assert vs[0 := vs[0][n..]][1..] == vs[1..];
  }

  lemma JoinNone(vs: seq<seq<byte>>)
    ensures Join(vs[..0]) == [] && (vs == [] ==> Join(vs) == [])
  {
  }

  lemma JoinOne(vs: seq<seq<byte>>)
    ensures |vs| == 1 ==> Join(vs) == vs[0]
  {
    assert |vs| == 1 ==> vs[1..] == [];
  }

  lemma {:induction false} JoinPrefix(vs: seq<seq<byte>>, i: nat)
    requires i < |vs|
    ensures Join(vs[..i]) + vs[i] == Join(vs[..i + 1])
    ensures |Join(vs[..i + 1])| <= |Join(vs)| && Join(vs[..i + 1]) == Join(vs)[..|Join(vs[..i + 1])|]
  {
    assert vs[..i + 1] == vs[..i] + [vs[i]];
    JoinSnoc(vs[..i], vs[i]);
    JoinTake(vs, i + 1);
  }

  lemma {:induction false} JoinTake(vs: seq<seq<byte>>, i: nat)
    requires i <= |vs|
    ensures Join(vs) == Join(vs[..i]) + Join(vs[i..])
  {
    if i == 0 {
    } else {
      assert vs[..i][1..] == vs[1..][..i - 1] && vs[i..] == vs[1..][i - 1..];
      JoinTake(vs[1..], i - 1);
    }
  }

  lemma {:induction false} JoinBound(vs: seq<seq<byte>>)
    requires forall v | v in vs :: |v| <= MAX_CTX
    ensures |Join(vs)| <= |vs| * MAX_CTX
  {
    if vs != [] {
      JoinBound(vs[1..]);
    }
  }

  /** The first len bytes of the first i parts, or all of these if they are fewer. */
  ghost predicate Gathered(vs: seq<seq<byte>>, i: nat, len: nat, got: seq<byte>) {
    i <= |vs| && |got| == Min(len, |Join(vs[..i])|) && got == Join(vs[..i])[..|got|]
  }

  lemma GatherStep(vs: seq<seq<byte>>, i: nat, len: nat, got: seq<byte>)
    requires i < |vs| && Gathered(vs, i, len, got)
    ensures |got| <= len && Gathered(vs, i + 1, len, got + vs[i][..Min(len - |got|, |vs[i]|)])
  {
    JoinPrefix(vs, i);
    hide Join;
    var j, n := Join(vs[..i]), Min(len - |got|, |vs[i]|);
    var got' := got + vs[i][..n];
    assert Join(vs[..i + 1]) == j + vs[i];
    if |got| == len {
      assert n == 0 && got' == got;
      assert (j + vs[i])[..len] == j[..len];
    } else {
      assert got == j;
      assert (j + vs[i])[..|got'|] == j + vs[i][..n];
    }
  }

  lemma GatherDone(vs: seq<seq<byte>>, i: nat, len: nat, got: seq<byte>)
    requires Gathered(vs, i, len, got) && (i == |vs| || |got| == len)
    ensures |got| == Min(len, |Join(vs)|) && got == Join(vs)[..|got|]
  {
    JoinTake(vs, i);
    assert vs[|vs|..] == [];
    hide Join;
    assert |got| <= |Join(vs[..i])|;
    assert Join(vs)[..|got|] == Join(vs[..i])[..|got|];
  }

  function Min(a: nat, b: nat): nat { if a < b then a else b }

  lemma SlicePrefix(a: array<byte>, from: nat, m: nat, n: nat)
    requires from + m <= a.Length && n <= m
    ensures a[from..from + m][..n] == a[from..from + n]
  {
  }

  /** Copies size bytes between different arrays. */
  method CopyBytes(dst: array<byte>, pos: nat, src: array<byte>, from: nat, size: nat)
    requires dst != src && pos + size <= dst.Length && from + size <= src.Length
    modifies dst
    ensures dst[..pos + size] == old(dst[..pos]) + src[from..from + size]
  {
    forall j | 0 <= j < size {
      dst[pos + j] := src[from + j];
    }
  }

  class Chunk {
    const ctx: array<byte>
    var usedPos: nat
    var freePos: nat
    var next: Chunk?

    ghost predicate Valid()
      reads this
    {
      ctx.Length == MAX_CTX && usedPos <= freePos <= MAX_CTX
    }

    ghost function Used(): seq<byte>
      requires Valid()
      reads this, ctx
    {
      ctx[usedPos..freePos]
    }

    constructor ()
      ensures Valid() && usedPos == freePos == 0 && next == null && fresh(ctx)
    {
      ctx := new byte[MAX_CTX](_ => 0);
      usedPos, freePos, next := 0, 0, null;
    }

    method RemoveUsed(len: nat)
      requires Valid() && len <= freePos - usedPos
      modifies this`usedPos
      ensures Valid() && Used() == old(Used())[len..]
    {
      usedPos := usedPos + len;
    }

    method AddUsed(len: nat)
      requires Valid() && freePos + len <= MAX_CTX
      modifies this`freePos
      ensures Valid() && freePos == old(freePos) + len
      ensures Used() == old(Used()) + ctx[old(freePos)..freePos]
    {
      freePos := freePos + len;
    }

    method Append(data: seq<byte>)
      requires Valid() && freePos + |data| <= MAX_CTX
      modifies this`freePos, ctx
      ensures Valid() && freePos == old(freePos) + |data| && Used() == old(Used()) + data
      ensures ctx[..old(freePos)] == old(ctx[..freePos])
    {
      forall i | 0 <= i < |data| {
        ctx[freePos + i] := data[i];
      }
      AddUsed(|data|);
    }

    method Clear()
      requires Valid()
      modifies this`usedPos, this`freePos
      ensures Valid() && usedPos == freePos == 0
    {
      usedPos, freePos := 0, 0;
    }
  }

  /** Scratch memory for views that span chunks; it only ever grows. */
  class LargeBuffer {
    var ctx: array?<byte>
    var len: nat

    ghost predicate Valid()
      reads this
    {
      if len == 0 then true else ctx != null && ctx.Length == len
    }

    constructor ()
      ensures Valid() && ctx == null && len == 0
    {
      ctx, len := null, 0;
    }

    method Get(n: nat) returns (r: array?<byte>)
      requires Valid()
      modifies this
      ensures Valid() && r == ctx && len >= n
      ensures old(len) >= n ==> ctx == old(ctx) && len == old(len)
      ensures old(len) < n ==> fresh(ctx) && DoubledFor(if old(len) == 0 then 1048576 else old(len), n, len)
    {
      if len >= n {
        return ctx;
      }
      if len == 0 {
        len := 1024 * 1024;
      }
      ghost var first, k := len, 0;
      while len < n
        invariant len == first * Pow2(k) > 0 && (k == 0 || len < 2 * n)
      {
        len := len * 2;
        k := k + 1;
      }
      ctx := new byte[len](_ => 0);
      return ctx;
    }
  }

  // A pointer into a chunk or into the scratch memory.
  datatype Pointer = Null | At(ctx: array<byte>, pos: nat)

  datatype Transaction = Transaction(internal: bool, ptr: Pointer, len: nat)

  // The first chunk as somebody sees it who looks at its bytes without holding the lock.
  datatype Peek = Nothing | Peek(chunk: Chunk, from: nat, bytes: seq<byte>)

  /** What has been looked at has not moved or changed. */
  ghost predicate Keeps(p: Peek, q: Peek) {
    p.Peek? ==> q.Peek? && q.chunk == p.chunk && q.from == p.from && p.bytes <= q.bytes
  }

  /** The memory shown is in the first chunk, among its bytes. */
  ghost predicate InFirst(q: Peek, p: Pointer, len: nat) {
    p.At? && q.Peek? && p == At(q.chunk.ctx, q.from) && q.from + len <= |q.bytes|
  }

  lemma KeepsTrans(p: Peek, q: Peek, r: Peek)
    requires Keeps(p, q) && Keeps(q, r)
    ensures Keeps(p, r)
  {
  }

  class Buffer {
    var front: Chunk?
    var back: Chunk?
    var chunkSize: int
    var chunkMax: int
    const large: LargeBuffer
    ghost var chunks: seq<Chunk>
    ghost var repr: set<object>

    /** Chunk i is linked to the next; if it is not the last it is full up to its end and holds something. */
    ghost predicate ChunkOk(i: nat)
      requires i < |chunks|
      reads this, chunks
    {
      && chunks[i] in repr && chunks[i].ctx in repr
      && chunks[i].Valid()
      && chunks[i].next == (if i + 1 < |chunks| then chunks[i + 1] else null)
      && (chunks[i].usedPos == chunks[i].freePos ==> chunks[i].freePos == 0)
      && (i + 1 < |chunks| ==> chunks[i].freePos == MAX_CTX)
    }

    ghost predicate Linked()
      reads this, chunks
    {
      forall i | 0 <= i < |chunks| :: ChunkOk(i)
    }

    /** No two chunks share memory, and none is the scratch memory. */
    ghost predicate Apart()
      reads this, large
    {
      && (forall i, j | 0 <= i < j < |chunks| :: chunks[i] != chunks[j] && chunks[i].ctx != chunks[j].ctx)
      && this !in repr && large !in repr && (large.ctx != null ==> large.ctx !in repr)
    }

    /** The list is what the pointers say, and its length is counted. */
    ghost predicate Valid()
      reads this, repr, chunks, large
    {
      && chunkSize == |chunks|
      && front == (if chunks == [] then null else chunks[0])
      && back == (if chunks == [] then null else chunks[|chunks| - 1])
      && Linked()
      && Apart()
      && large.Valid()
    }

    /** What each chunk holds. */
    ghost function Views(): (vs: seq<seq<byte>>)
      requires Linked()
      reads this, chunks, repr
      ensures |vs| == |chunks|
    {
      seq(|chunks|, i requires 0 <= i < |chunks| && ChunkOk(i) reads this, chunks, repr => chunks[i].Used())
    }

    /** The byte queue. */
    ghost function Contents(): seq<byte>
      requires Valid()
      reads this, chunks, repr, large
    {
      Join(Views())
    }

    /** Where the first chunk's bytes are, and what they are. */
    ghost function First(): Peek
      requires Valid()
      reads this, chunks, repr, large
    {
      if chunks == [] then Nothing
      else
        assert ChunkOk(0);
        Peek(chunks[0], chunks[0].usedPos, chunks[0].ctx[..chunks[0].freePos])
    }

    /** How many bytes the first chunk holds. */
    ghost function FirstLength(): int
      reads this, chunks
    {
      if chunks == [] then 0 else chunks[0].freePos - chunks[0].usedPos
    }

    /** How much room the next bytes find in one chunk. */
    ghost function Free(): int
      reads this, back
    {
      if back != null && back.freePos < MAX_CTX then MAX_CTX - back.freePos else MAX_CTX
    }

    constructor ()
      ensures Valid() && Contents() == [] && chunkMax == 1 && fresh(large) && repr == {}
    {
      front, back, chunkSize, chunkMax, chunks, repr := null, null, 0, 1, [], {};
      large := new LargeBuffer();
    }

    lemma ChunkAt(i: nat)
      requires Linked() && i < |chunks|
      ensures ChunkOk(i) && chunks[i].Valid() && chunks[i] in repr && chunks[i].ctx in repr
      ensures Views()[i] == chunks[i].Used()
    {
    }

    lemma BackFacts()
      requires Valid() && back != null
      ensures |chunks| > 0 && ChunkOk(|chunks| - 1) && back == chunks[|chunks| - 1]
      ensures back in repr && back.Valid() && back.ctx in repr && Views()[|chunks| - 1] == back.Used()
    {
      ChunkAt(|chunks| - 1);
    }

    /** What the first chunk says about the whole. */
    lemma FrontFacts()
      requires Valid() && front != null
      ensures chunkSize == |chunks| > 0 && ChunkOk(0) && front == chunks[0] && front in repr && front.ctx in repr
      ensures front.Valid() && Views()[0] == front.Used()
      ensures front.next != null <==> chunkSize > 1
      ensures front.usedPos == front.freePos <==> Contents() == []
      ensures front.Used() <= Contents() && (chunkSize == 1 ==> Contents() == front.Used())
      ensures |Contents()| <= chunkSize * MAX_CTX
    {
      ChunkAt(0);
      JoinOne(Views());
      forall i | 0 <= i < |chunks|
        ensures |Views()[i]| <= MAX_CTX
      {
        ChunkAt(i);
      }
      JoinBound(Views());
    }

    lemma ScratchElsewhere()
      requires Valid()
      ensures this !in repr && large !in repr && (large.ctx != null ==> large.ctx !in repr)
    {
    }

    lemma NoChunks()
      requires Valid() && front == null
      ensures Contents() == [] && chunks == [] && First() == Nothing
    {
      JoinNone(Views());
    }

    /** Chunk i is as it was. */
    twostate predicate SameChunk(i: nat)
      requires i < |chunks| && i < |old(chunks)|
      reads this, chunks, repr
    {
      && ChunkOk(i) && old(ChunkOk(i)) && chunks[i] == old(chunks[i])
      && chunks[i].usedPos == old(chunks[i].usedPos) && chunks[i].freePos == old(chunks[i].freePos)
      && chunks[i].Used() == old(chunks[i].Used())
      && chunks[i].ctx[..chunks[i].freePos] == old(chunks[i].ctx[..chunks[i].freePos])
    }

    twostate lemma OthersSame(new k: nat, new i: nat)
      requires old(Valid()) && unchanged(this) && k < |chunks| && i < |chunks| && i != k
      requires forall c: Chunk | c in repr && c != chunks[k] :: unchanged(c)
      requires forall a: array<byte> | a in repr && a != chunks[k].ctx :: unchanged(a)
      ensures SameChunk(i)
    {
      assert old(ChunkOk(i));
      var c, d := chunks[i], chunks[k];
      assert old(Apart());
      assert c != d && c.ctx != d.ctx;
      var a := c.ctx;
      assert c in repr && a in repr;
    }

    /** A change of one chunk is a change of what that chunk holds. */
    twostate lemma OneChanged(new k: nat)
      requires old(Valid()) && unchanged(this) && unchanged(large) && k < |chunks| && ChunkOk(k)
      requires forall c: Chunk | c in repr && c != chunks[k] :: unchanged(c)
      requires forall a: array<byte> | a in repr && a != chunks[k].ctx :: unchanged(a)
      ensures Valid() && Views() == old(Views())[k := chunks[k].Used()]
      ensures k > 0 ==> First() == old(First())
    {
      forall i | 0 <= i < |chunks| && i != k
        ensures SameChunk(i)
      {
        OthersSame(k, i);
      }
      assert Apart();
      hide Apart;
      forall i | 0 <= i < |chunks|
        ensures ChunkOk(i)
      {
        assert i != k ==> SameChunk(i);
      }
      hide ChunkOk;
      assert Linked();
      forall i | 0 <= i < |chunks|
        ensures Views()[i] == if i == k then chunks[k].Used() else old(Views())[i]
      {
        assert i != k ==> SameChunk(i);
      }
      assert k > 0 ==> SameChunk(0);
    }

    /** Links a new chunk to the end of a list whose last chunk is full. */
    method AddChunk()
      requires Valid() && (back != null ==> back.freePos == MAX_CTX)
      modifies this`chunkSize, this`chunks, this`front, this`back, this`repr, repr
      ensures Valid() && fresh(repr - old(repr)) && chunkMax == old(chunkMax) && back != null && back.freePos == 0
      ensures Views() == old(Views()) + [[]] && Keeps(old(First()), First()) && chunkSize == old(chunkSize) + 1
    {
      hide Linked;
      hide Apart;
      hide Views;
      hide First;
      hide ChunkOk;
      var tmp := new Chunk();
      if back != null {
        BackFacts();
      }
      chunkSize := chunkSize + 1;
      if back != null {
        back.next := tmp;
        back := tmp;
      } else {
        back, front := tmp, tmp;
      }
      chunks := chunks + [tmp];
      repr := repr + {tmp, tmp.ctx};
      OneAdded(tmp);
    }

    twostate lemma OneAdded(new tmp: Chunk)
      requires old(Valid()) && unchanged(large) && chunks == old(chunks) + [tmp] && repr == old(repr) + {tmp, tmp.ctx}
      requires fresh(tmp) && fresh(tmp.ctx) && tmp.Valid() && tmp.usedPos == tmp.freePos == 0 && tmp.next == null
      requires forall c: Chunk | c in old(repr) && c != old(back) :: unchanged(c)
      requires forall a: array<byte> | a in old(repr) :: unchanged(a)
      requires old(back) != null ==>
                 old(back).next == tmp && unchanged(old(back)`usedPos) && unchanged(old(back)`freePos) && old(back).freePos == MAX_CTX
      requires chunkSize == |chunks| && front == chunks[0] && back == tmp
      ensures Valid() && Views() == old(Views()) + [[]] && Keeps(old(First()), First())
    {
      var n := |chunks| - 1;
      forall i | 0 <= i < n
        ensures SameChunk(i)
      {
        assert old(ChunkOk(i)) && (i + 1 < n ==> old(ChunkOk(n - 1)));
        assert old(Apart());
      }
      assert ChunkOk(n);
      assert Apart();
      hide Apart;
      forall i | 0 <= i < |chunks|
        ensures ChunkOk(i)
      {
        assert i < n ==> SameChunk(i);
      }
      hide ChunkOk;
      assert Linked();
      forall i | 0 <= i < |chunks|
        ensures Views()[i] == if i == n then [] else old(Views())[i]
      {
        assert i < n ==> SameChunk(i);
      }
      assert Views() == old(Views()) + [[]];
      assert n > 0 ==> SameChunk(0);
    }

    /** Makes sure that the last chunk has free space. */
    method Reserve() returns (len: nat)
      requires Valid()
      modifies this`chunkSize, this`chunks, this`front, this`back, this`repr, repr
      ensures Valid() && fresh(repr - old(repr)) && chunkMax == old(chunkMax)
      ensures front != null && back != null && back in repr && back.ctx in repr && back.ctx.Length == MAX_CTX
      ensures len == MAX_CTX - back.freePos > 0
      ensures if old(back) != null && old(back.freePos) < MAX_CTX then
                back == old(back) && back.freePos == old(back.freePos) && chunkSize == old(chunkSize)
              else
                back.freePos == 0 && chunkSize == old(chunkSize) + 1
      ensures Contents() == old(Contents()) && Keeps(old(First()), First())
    {
      hide Join;
      hide Views;
      hide First;
      hide Linked;
      hide Apart;
      JoinSnoc(Views(), []);
      len := 0;
      if back != null {
        BackFacts();
        len := MAX_CTX - back.freePos;
      }
      if back == null || len == 0 {
        AddChunk();
        BackFacts();
        len := MAX_CTX - back.freePos;
      }
    }

    /** Writes bytes into the free space of the last chunk. */
    method PutBack(data: seq<byte>)
      requires Valid() && back != null && |data| <= MAX_CTX - back.freePos
      modifies repr
      ensures Valid() && Contents() == old(Contents()) + data && unchanged(this)
      ensures Keeps(old(First()), First())
    {
      hide Join;
      hide Views;
      hide Linked;
      hide Apart;
      ghost var vs, n := Views(), |chunks| - 1;
      BackFacts();
      back.Append(data);
      OneChanged(n);
      JoinLast(vs, Views(), data);
    }

    /** Counts bytes already written into the free space of the last chunk as used. */
    method CommitBack(len: nat)
      requires Valid() && back != null && back.freePos + len <= MAX_CTX == back.ctx.Length
      modifies repr
      ensures Valid() && Contents() == old(Contents() + back.ctx[back.freePos..back.freePos + len]) && unchanged(this)
      ensures Keeps(old(First()), First())
    {
      hide Join;
      hide Views;
      hide Linked;
      hide Apart;
      ghost var vs, n := Views(), |chunks| - 1;
      ghost var data := back.ctx[back.freePos..back.freePos + len];
      BackFacts();
      back.AddUsed(len);
      OneChanged(n);
      JoinLast(vs, Views(), data);
    }

    /** One turn of the append loop. */
    method AppendSome(data: seq<byte>, done: nat) returns (done': nat)
      requires Valid() && done <= |data|
      modifies this`chunkSize, this`chunks, this`front, this`back, this`repr, repr
      ensures Valid() && fresh(repr - old(repr)) && chunkMax == old(chunkMax) && Keeps(old(First()), First()) && front != null
      ensures done <= done' <= |data| && (done < |data| ==> done < done')
      ensures Contents() == old(Contents()) + data[done..done']
    {
      hide Valid;
      hide Contents;
      hide First;
      hide Keeps;
      ghost var p := First();
      var freeSz := Reserve();
      ghost var q := First();
      var size := Min(freeSz, |data| - done);
      PutBack(data[done..done + size]);
      done' := done + size;
      KeepsTrans(p, q, First());
    }

    /** Appends bytes chunk by chunk; at least one turn is taken, so there is a chunk afterwards. */
    method AppendAll(data: seq<byte>)
      requires Valid()
      modifies this`chunkSize, this`chunks, this`front, this`back, this`repr, repr
      ensures Valid() && fresh(repr - old(repr)) && chunkMax == old(chunkMax) && Keeps(old(First()), First()) && front != null
      ensures Contents() == old(Contents()) + data
    {
      hide Valid;
      hide Contents;
      hide First;
      hide Keeps;
      ghost var c, p := Contents(), First();
      var done := AppendSome(data, 0);
      while done < |data|
        invariant Valid() && fresh(repr - old(repr)) && chunkMax == old(chunkMax) && front != null && done <= |data|
        invariant Contents() == c + data[..done] && Keeps(p, First())
      {
        ghost var q, done0 := First(), done;
        done := AppendSome(data, done);
        KeepsTrans(p, q, First());
        assert data[..done0] + data[done0..done] == data[..done];
      }
    }

    /** Buffer::append: 1 if the buffer now has more chunks than it should. */
    method Append(data: seq<byte>) returns (r: int)
      requires Valid()
      modifies this`chunkSize, this`chunks, this`front, this`back, this`repr, repr
      ensures Valid() && fresh(repr - old(repr)) && chunkMax == old(chunkMax) && Keeps(old(First()), First()) && front != null
      ensures Contents() == old(Contents()) + data
      ensures r == if chunkSize > chunkMax then 1 else 0
    {
      hide Valid;
      hide Contents;
      hide First;
      hide Keeps;
      AppendAll(data);
      return if chunkSize > chunkMax then 1 else 0;
    }

    /** What a transaction points to is free space of the last chunk, or the scratch memory. */
    ghost predicate Held(ts: Transaction)
      reads this, repr, large
    {
      if ts.internal then
        && back != null && back in repr && back.ctx in repr && ts.ptr == At(back.ctx, back.freePos) && back.ctx.Length == MAX_CTX
        && back.freePos + ts.len == MAX_CTX
      else
        ts.ptr.At? && ts.ptr.ctx == large.ctx && ts.ptr.pos == 0 && ts.len <= ts.ptr.ctx.Length
    }

    /** Reserves what the last chunk has free, unless the buffer has overflowed and that is not wanted. */
    method AnyReserve(noOverflow: bool) returns (ts: Transaction)
      requires Valid()
      modifies this`chunkSize, this`chunks, this`front, this`back, this`repr, repr
      ensures Valid() && fresh(repr - old(repr)) && chunkMax == old(chunkMax) && Contents() == old(Contents()) && Keeps(old(First()), First())
      ensures if noOverflow && old(chunkSize > chunkMax) then ts == Transaction(false, Null, 0) && unchanged(this)
              else ts.internal && Held(ts) && ts.len > 0 && front != null && chunkSize <= old(chunkSize) + 1
    {
      hide Valid;
      hide Contents;
      hide First;
      ts := Transaction(false, Null, 0);
      if !noOverflow || chunkSize <= chunkMax {
        var len := Reserve();
        ts := Transaction(true, At(back.ctx, back.freePos), len);
      }
    }

    /** Reserves len bytes in one piece: in the last chunk if it has that much free, else in scratch memory. */
    method FlatReserve(len: nat) returns (ts: Transaction)
      requires Valid()
      modifies this`chunkSize, this`chunks, this`front, this`back, this`repr, repr, large
      ensures Valid() && fresh(repr - old(repr)) && chunkMax == old(chunkMax) && Contents() == old(Contents()) && Keeps(old(First()), First())
      ensures Held(ts) && if old(Free()) >= len then ts.internal && ts.len == old(Free()) else !ts.internal && ts.len == len
    {
      hide Valid;
      hide Contents;
      hide First;
      hide Keeps;
      ghost var p := First();
      var freeSize := Reserve();
      ghost var q := First();
      if freeSize >= len {
        var size := Reserve();
        KeepsTrans(p, q, First());
        ts := Transaction(true, At(back.ctx, back.freePos), size);
      } else {
        var ctx := Scratch(len);
        ts := Transaction(false, At(ctx, 0), len);
      }
    }

    /** Scratch memory of at least the given length. */
    method Scratch(len: nat) returns (ctx: array<byte>)
      requires Valid() && len > 0
      modifies large
      ensures Valid() && Contents() == old(Contents()) && First() == old(First())
      ensures ctx == large.ctx && ctx.Length >= len && (ctx == old(large.ctx) || fresh(ctx))
    {
      hide Join;
      hide Views;
      hide First;
      ctx := large.Get(len);
      NoneChanged();
    }

    /** Changes outside of the chunks change nothing. */
    twostate lemma NoneChanged()
      requires old(Valid()) && unchanged(this) && large.Valid() && (large.ctx == old(large.ctx) || fresh(large.ctx))
      requires forall c: Chunk | c in repr :: unchanged(c)
      requires forall a: array<byte> | a in repr :: unchanged(a)
      ensures Valid() && Views() == old(Views()) && First() == old(First())
    {
      forall i | 0 <= i < |chunks|
        ensures ChunkOk(i) && old(ChunkOk(i)) && chunks[i].Used() == old(chunks[i].Used())
        ensures chunks[i].ctx[..chunks[i].freePos] == old(chunks[i].ctx[..chunks[i].freePos])
      {
        assert old(ChunkOk(i));
      }
      assert Linked();
      assert Views() == old(Views());
    }

    /** What the owner of a transaction does with it: write bytes through the pointer. */
    method Fill(ts: Transaction, data: seq<byte>)
      requires Valid() && Held(ts) && ts.ptr.At? && |data| <= ts.len
      modifies ts.ptr.ctx
      ensures Valid() && Held(ts) && Contents() == old(Contents()) && First() == old(First())
      ensures ts.ptr.pos + |data| <= ts.ptr.ctx.Length && ts.ptr.ctx[ts.ptr.pos..ts.ptr.pos + |data|] == data
    {
      hide Join;
      hide Views;
      hide First;
      hide Linked;
      hide Apart;
      var ctx, pos := ts.ptr.ctx, ts.ptr.pos;
      forall i | 0 <= i < |data| {
        ctx[pos + i] := data[i];
      }
      assert ctx[pos..pos + |data|] == data;
      assert ctx[..pos] == old(ctx[..pos]);
      if ts.internal {
        FreeSpaceOnly();
      } else {
        ScratchApart();
        NoneChanged();
      }
    }

    twostate lemma ScratchApart()
      requires old(Valid()) && unchanged(this)
      ensures old(large.ctx) != null ==> old(large.ctx) !in repr
    {
      assert old(Apart());
    }

    /** Writing into the free space of the last chunk changes no byte of the queue. */
    twostate lemma FreeSpaceOnly()
      requires old(Valid()) && old(back) != null && unchanged(this) && unchanged(large)
      requires forall c: Chunk | c in repr :: unchanged(c)
      requires forall a: array<byte> | a in repr && a != back.ctx :: unchanged(a)
      requires back in repr && unchanged(back)
      requires back.freePos <= back.ctx.Length && back.ctx[..back.freePos] == old(back.ctx[..back.freePos])
      ensures Valid() && Views() == old(Views()) && First() == old(First())
    {
      hide Join;
      hide Views;
      hide Linked;
      var n := |chunks| - 1;
      LastUnchanged();
      OneChanged(n);
      assert Views()[n] == old(Views()[n]);
    }

    twostate lemma LastUnchanged()
      requires old(Valid()) && old(back) != null && unchanged(this) && back in repr && unchanged(back)
      requires back.freePos <= back.ctx.Length && back.ctx[..back.freePos] == old(back.ctx[..back.freePos])
      ensures |chunks| > 0 && ChunkOk(|chunks| - 1) && back.Used() == old(Views()[|chunks| - 1])
      ensures |chunks| == 1 && Valid() ==> First() == old(First())
    {
      var n := |chunks| - 1;
      assert old(ChunkOk(n));
      assert back.Used() == back.ctx[..back.freePos][back.usedPos..];
      assert old(back.Used()) == old(back.ctx[..back.freePos])[back.usedPos..];
    }

    /** Appends what has been written through a transaction's pointer. A length that is not positive, such as
        the result of a failed read, appends nothing. */
    method Commit(ts: Transaction, len: int)
      requires Valid() && Held(ts) && len <= ts.len
      modifies this`chunkSize, this`chunks, this`front, this`back, this`repr, repr
      ensures Valid() && fresh(repr - old(repr)) && chunkMax == old(chunkMax) && Keeps(old(First()), First())
      ensures old(front) != null ==> front != null
      ensures ts.internal || len <= 0 ==> unchanged(this)
      ensures len <= 0 ==> Contents() == old(Contents())
      ensures len > 0 ==> Contents() == old(Contents() + ts.ptr.ctx[ts.ptr.pos..ts.ptr.pos + len])
    {
      hide Valid;
      hide Contents;
      hide First;
      if len <= 0 {
        return;
      }
      ghost var ctx, pos := ts.ptr.ctx, ts.ptr.pos;
      ghost var c, data := Contents(), ctx[pos..pos + len];
      if ts.internal {
        CommitBack(len);
        assert Contents() == c + data;
      } else {
        assert data == ctx[..len];
        hide Held;
        AppendAll(ts.ptr.ctx[..len]);
      }
    }

    /** Gives up a first chunk that has a successor. */
    method DropFront()
      requires Valid() && chunkSize > 1
      modifies this`chunkSize, this`chunks, this`front
      ensures Valid() && chunkSize == old(chunkSize) - 1 && front != null
      ensures Views() == old(Views())[1..]
    {
      assert ChunkOk(0) && ChunkOk(1);
      front := front.next;
      chunkSize := chunkSize - 1;
      chunks := chunks[1..];
      forall i | 0 <= i < |chunks|
        ensures ChunkOk(i)
      {
        assert old(ChunkOk(i + 1));
      }
    }

    /** Cuts bytes off the first chunk, but not all of them. */
    method CutFront(len: nat)
      requires Valid() && front != null && front.Valid() && len < front.freePos - front.usedPos
      modifies repr
      ensures Valid() && unchanged(this) && Contents() == old(Contents())[len..]
    {
      hide Join;
      hide Views;
      hide First;
      hide Linked;
      hide Apart;
      ghost var vs := Views();
      FrontFacts();
      front.RemoveUsed(len);
      OneChanged(0);
      JoinFront(vs, len);
    }

    /** Empties the only chunk. */
    method ResetFront()
      requires Valid() && chunkSize == 1
      modifies repr
      ensures Valid() && unchanged(this) && Contents() == []
    {
      hide Join;
      hide Views;
      hide First;
      hide Linked;
      hide Apart;
      FrontFacts();
      front.Clear();
      OneChanged(0);
      FrontFacts();
    }

    /** One turn of the remove loop. */
    method RemoveSome(len: nat) returns (nextUsed: bool, len': nat, again: bool)
      requires Valid() && front != null && len <= |Contents()|
      modifies this`chunkSize, this`chunks, this`front, repr
      ensures Valid() && repr == old(repr) && chunkMax == old(chunkMax) && front != null
      ensures again ==> chunkSize < old(chunkSize) && len' <= |Contents()| && Contents()[len'..] == old(Contents())[len..]
      ensures !again ==> Contents() == old(Contents())[len..] && (!nextUsed ==> Contents() == [])
      ensures |old(Views())| > 0 && (again <==> |old(Views())[0]| < len) && (again ==> len' > 0 && Views() == old(Views())[1..])
      ensures !again ==> (nextUsed <==> |old(Views())| > 1 || len < |old(Contents())|)
    {
      hide Join;
      hide Views;
      hide First;
      hide Linked;
      hide Apart;
      ghost var vs := Views();
      nextUsed, len', again := false, len, false;
      FrontFacts();
      var used := front.freePos - front.usedPos;
      JoinFront(vs, Min(used, len));
      if used > len {
        nextUsed := true;
        CutFront(len);
      } else if used == len {
        if front.next != null {
          nextUsed := true;
          DropFront();
        } else {
          ResetFront();
        }
      } else {
        DropFront();
        len' := len - used;
        again := len' > 0;
      }
    }

    /** Removes the first len bytes. Answers whether there may be more: there are none if not, and if so only where an empty
        chunk has been kept behind those removed. */
    method Remove(len: nat) returns (nextUsed: bool)
      requires Valid() && front != null && len <= |Contents()|
      modifies this`chunkSize, this`chunks, this`front, repr
      ensures Valid() && repr == old(repr) && chunkMax == old(chunkMax) && front != null
      ensures Contents() == old(Contents())[len..]
      ensures !nextUsed ==> Contents() == []
      ensures nextUsed <==> Contents() != [] || old(front != back && back.usedPos == back.freePos)
    {
      FrontFacts();
      BackFacts();
      OneChunk();
      hide Valid;
      hide Contents;
      hide First;
      hide Views;
      ghost var c, vs, k := Contents(), Views(), 0;
      var n: nat, again := len, true;
      nextUsed := false;
      while again
        invariant Valid() && repr == old(repr) && chunkMax == old(chunkMax) && front != null
        invariant again ==> n <= |Contents()| && Contents()[n..] == c[len..]
        invariant again ==> k < |vs| && Views() == vs[k..] && (k > 0 ==> n > 0)
        invariant !again ==> Contents() == c[len..] && (!nextUsed ==> Contents() == [])
        invariant !again ==> (nextUsed <==> len < |c| || (|vs| > 1 && vs[|vs| - 1] == []))
        decreases again, chunkSize
      {
        SizeFact();
        ghost var n0, rest := n, Contents();
        TailLength(vs, k, n0);
        nextUsed, n, again := RemoveSome(n);
        SizeFact();
        k := k + 1;
      }
    }

    lemma OneChunk()
      requires Valid() && front != null
      ensures |Views()| > 1 <==> front != back
    {
    }

    /** If all is to go and the first chunk has so much, it is the only one, or an empty one is behind it. */
    lemma TailLength(vs: seq<seq<byte>>, k: nat, n: nat)
      requires Valid() && k < |vs| && Views() == vs[k..] && n <= |Contents()| && (k > 0 ==> n > 0)
      ensures n <= |Views()[0]| ==>
                (|Views()| > 1 || n < |Contents()| <==> n < |Contents()| || (|vs| > 1 && vs[|vs| - 1] == []))
    {
      var ws, last := Views(), |Views()| - 1;
      assert ws[last] == vs[|vs| - 1];
      JoinOne(ws);
      if last > 0 {
        JoinTake(ws, 1);
        JoinOne(ws[..1]);
        JoinPrefix(ws[1..], last - 1);
        assert ws[1..][..last] == ws[1..];
      }
    }

    lemma SizeFact()
      requires Valid()
      ensures chunkSize >= 0
    {
    }

    /** What a walk over the list knows at chunk i. */
    lemma WalkStep(i: nat)
      requires Valid() && i < |chunks|
      ensures chunks[i].Valid() && chunks[i].next == (if i + 1 < |chunks| then chunks[i + 1] else null)
      ensures chunks[i].ctx in repr && |Views()| == |chunks|
      ensures chunks[i].Used() == Views()[i] && |Views()[i]| == chunks[i].freePos - chunks[i].usedPos
      ensures Join(Views()[..i]) + Views()[i] == Join(Views()[..i + 1])
      ensures Join(Views()[..i + 1]) <= Contents()
      ensures i + 1 == |chunks| ==> Join(Views()[..i + 1]) == Contents()
    {
      ChunkAt(i);
      JoinPrefix(Views(), i);
      assert i + 1 == |chunks| ==> Views()[..i + 1] == Views();
    }

    /** Whether there are at least len bytes. */
    method CheckUsedSize(len: nat) returns (r: bool)
      requires Valid()
      ensures r <==> |Contents()| >= len
    {
      hide Join;
      hide Views;
      hide First;
      hide Linked;
      hide Apart;
      var used, next := 0, front;
      ghost var i := 0;
      JoinNone(Views());
      while next != null && used < len
        invariant i <= |chunks| && next == (if i < |chunks| then chunks[i] else null)
        invariant used == |Join(Views()[..i])| <= |Contents()| && (i == |chunks| ==> used == |Contents()|)
        decreases |chunks| - i
      {
        WalkStep(i);
        used := used + (next.freePos - next.usedPos);
        next := next.next;
        i := i + 1;
      }
      return used >= len;
    }

    /** The number of bytes. */
    method GetAllUsedSize() returns (used: nat)
      requires Valid()
      ensures used == |Contents()|
    {
      hide Join;
      hide Views;
      hide First;
      hide Linked;
      hide Apart;
      used := 0;
      var next := front;
      ghost var i := 0;
      JoinNone(Views());
      while next != null
        invariant i <= |chunks| && next == (if i < |chunks| then chunks[i] else null)
        invariant used == |Join(Views()[..i])| && (i == |chunks| ==> used == |Contents()|)
        decreases |chunks| - i
      {
        WalkStep(i);
        used := used + (next.freePos - next.usedPos);
        next := next.next;
        i := i + 1;
      }
    }

    /** The bytes of the first chunk, and whether there are more chunks. */
    method GetFrontUsed() returns (p: Pointer, size: nat, next: bool)
      requires Valid()
      ensures (p == Null <==> front == null) && (p == Null ==> size == 0)
      ensures p.At? ==> p == At(front.ctx, front.usedPos) && p.pos + size == front.freePos <= p.ctx.Length
                        && size <= |Contents()| && p.ctx[p.pos..p.pos + size] == Contents()[..size]
      ensures size == 0 <==> Contents() == []
      ensures next <==> chunkSize > 1
      ensures !next ==> size == |Contents()|
      ensures size == FirstLength()
    {
      hide Join;
      hide Views;
      hide First;
      hide Linked;
      hide Apart;
      if front == null {
        NoChunks();
        return Null, 0, false;
      }
      FrontFacts();
      return At(front.ctx, front.usedPos), front.freePos - front.usedPos, chunkSize > 1;
    }

    lemma FirstIs()
      requires Valid() && front != null
      ensures front.usedPos <= front.freePos <= front.ctx.Length
      ensures First() == Peek(front, front.usedPos, front.ctx[..front.freePos])
    {
      assert ChunkOk(0);
    }

    /** The bytes that were looked at can still be read through the pointer. */
    lemma StillThere(q: Peek, size: nat)
      requires Valid() && q.Peek? && Keeps(q, First()) && q.from + size == |q.bytes|
      ensures front != null && q.from + size <= q.chunk.ctx.Length
      ensures q.chunk.ctx[q.from..q.from + size] == q.bytes[q.from..]
    {
      FirstIs();
      var n, bytes := |q.bytes|, First().bytes;
      SlicePrefix(q.chunk.ctx, 0, |bytes|, n);
      assert bytes[..n] == q.bytes && bytes == q.chunk.ctx[0..|bytes|];
      assert q.chunk.ctx[q.from..n] == q.chunk.ctx[0..n][q.from..];
    }

    /** A view of the first chunk still shows the bytes it showed. */
    lemma StillShown(q: Peek, p: Pointer, len: nat)
      requires Valid() && InFirst(q, p, len) && Keeps(q, First())
      ensures p.pos + len <= p.ctx.Length && p.ctx[p.pos..p.pos + len] == q.bytes[q.from..][..len]
    {
      StillThere(q, |q.bytes| - q.from);
      SlicePrefix(p.ctx, p.pos, |q.bytes| - q.from, len);
    }

    /** Empties the buffer, keeping one chunk. */
    method Clear()
      requires Valid()
      modifies this`chunkSize, this`chunks, this`front, repr
      ensures Valid() && repr == old(repr) && chunkMax == old(chunkMax) && Contents() == []
    {
      hide Valid;
      hide Contents;
      hide First;
      if front == null {
        NoChunks();
        return;
      }
      FrontFacts();
      while front.next != null
        invariant Valid() && repr == old(repr) && chunkMax == old(chunkMax) && front != null
        invariant chunkSize > 0 && (front.next != null <==> chunkSize > 1)
        decreases chunkSize
      {
        DropFront();
        FrontFacts();
      }
      ResetFront();
    }

    method SetChunkSize(max: int)
      requires Valid()
      modifies this`chunkMax
      ensures Valid() && chunkMax == max && Contents() == old(Contents())
    {
      chunkMax := max;
      forall i | 0 <= i < |chunks|
        ensures ChunkOk(i)
      {
        assert old(ChunkOk(i));
      }
      assert Linked();
      assert Views() == old(Views());
    }

    /** One turn of a gathering loop: copies what chunk i holds, but at most to length len in all. */
    method CopyChunk(buf: array<byte>, len: nat, copyLen: nat, c: Chunk, ghost i: nat) returns (copyLen': nat)
      requires Valid() && buf == large.ctx && len <= buf.Length && i < |chunks| && c == chunks[i]
      requires copyLen <= len && Gathered(Views(), i, len, buf[..copyLen])
      modifies buf
      ensures Valid() && Views() == old(Views()) && First() == old(First())
      ensures copyLen' <= len && Gathered(Views(), i + 1, len, buf[..copyLen'])
      ensures c.next == (if i + 1 < |chunks| then chunks[i + 1] else null)
    {
      hide Join;
      hide Views;
      hide First;
      hide Linked;
      hide Apart;
      hide Gathered;
      ghost var vs, got := Views(), buf[..copyLen];
      WalkStep(i);
      ScratchApart();
      var size := Min(len - copyLen, c.freePos - c.usedPos);
      ghost var part := c.ctx[c.usedPos..c.usedPos + size];
      SlicePrefix(c.ctx, c.usedPos, c.freePos - c.usedPos, size);
      assert part == vs[i][..size];
      CopyBytes(buf, copyLen, c.ctx, c.usedPos, size);
      assert buf[..copyLen + size] == got + part;
      hide Valid;
      NoneChanged();
      copyLen' := copyLen + size;
      GatherStep(vs, i, len, got);
    }

    /** Copies the first len bytes, or all there are, to the scratch memory. */
    method Gather(buf: array<byte>, len: nat) returns (copyLen: nat)
      requires Valid() && front != null && buf == large.ctx && buf.Length >= len
      modifies buf
      ensures Valid() && Contents() == old(Contents()) && First() == old(First())
      ensures copyLen == Min(len, |Contents()|) && buf[..copyLen] == Contents()[..copyLen]
    {
      hide Linked;
      hide Apart;
      hide First;
      hide Views;
      hide Join;
      ghost var vs, p, i := Views(), First(), 0;
      var next, again := front, true;
      copyLen := 0;
      JoinNone(vs);
      FrontFacts();
      hide Valid;
      while again
        invariant Valid() && Views() == vs && First() == p && i <= |chunks| == |vs|
        invariant next == (if i < |chunks| then chunks[i] else null)
        invariant copyLen <= len <= buf.Length && Gathered(vs, i, len, buf[..copyLen])
        invariant if again then i < |chunks| else i == |chunks| || copyLen == len
        decreases |chunks| - i
      {
        hide Gathered;
        copyLen := CopyChunk(buf, len, copyLen, next, i);
        next := next.next;
        i := i + 1;
        again := next != null && copyLen < len;
      }
      GatherDone(vs, i, len, buf[..copyLen]);
    }

    /** A view of the first len bytes in one piece, if there are that many and there is anything. */
    method ToFlatCtx(len: nat) returns (p: Pointer)
      requires Valid() && front != null
      modifies large, if large.ctx == null then {} else {large.ctx}
      ensures Valid() && Contents() == old(Contents()) && First() == old(First())
      ensures large.ctx == old(large.ctx) || fresh(large.ctx)
      ensures p == Null <==> Contents() == [] || |Contents()| < len
      ensures p.At? ==> p.pos + len <= p.ctx.Length && p.ctx[p.pos..p.pos + len] == Contents()[..len]
      ensures p.At? ==> p.ctx == large.ctx || InFirst(First(), p, len)
      ensures p.At? && len <= front.freePos - front.usedPos ==> p == At(front.ctx, front.usedPos)
    {
      hide Valid;
      hide Contents;
      hide First;
      FrontFacts();
      FirstIs();
      var used := front.freePos - front.usedPos;
      if used == 0 {
        return Null;
      }
      if used >= len {
        SlicePrefix(front.ctx, front.usedPos, used, len);
        assert front.Used()[..len] == Contents()[..len];
        return At(front.ctx, front.usedPos);
      }
      var buf := Scratch(len);
      var copyLen := Gather(buf, len);
      return if copyLen == len then At(buf, 0) else Null;
    }

    /** A view of all bytes in one piece; there is none before the first use of the buffer. */
    method AllToFlatCtx() returns (p: Pointer, len: nat)
      requires Valid()
      modifies large, if large.ctx == null then {} else {large.ctx}
      ensures Valid() && Contents() == old(Contents()) && First() == old(First())
      ensures large.ctx == old(large.ctx) || fresh(large.ctx)
      ensures len == |Contents()| && (p == Null <==> front == null)
      ensures p.At? ==> p.pos + len <= p.ctx.Length && p.ctx[p.pos..p.pos + len] == Contents()
      ensures p.At? && front.next == null ==> p == At(front.ctx, front.usedPos)
    {
      hide Valid;
      hide Contents;
      hide First;
      if front == null {
        NoChunks();
        return Null, 0;
      }
      FrontFacts();
      if front.next == null {
        return At(front.ctx, front.usedPos), front.freePos - front.usedPos;
      }
      var maxCtx: nat := chunkSize * MAX_CTX;
      var buf := Scratch(maxCtx);
      len := Gather(buf, maxCtx);
      return At(buf, 0), len;
    }
  }
}
