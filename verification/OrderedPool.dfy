/**
 * The segregated free-list allocator (engine/src/pool/ordered_pool.hpp). Addresses are numbers, 0 is null; mem holds
 * the pointer-sized word at an address, which is all the pool itself ever reads or writes.
 */
module OrderedPools {
  import opened Sequences

  const PTR := 8

  type Mem = map<int, int>

  // What the system has handed out: a header word, then cells.
  datatype Block = Block(addr: int, size: int)

  /** The list that starts at head, as linked in memory. */
  ghost predicate Chain(mem: Mem, head: int, s: seq<int>)
    decreases s
  {
    if s == [] then head == 0 else head == s[0] != 0 && head in mem && Chain(mem, mem[head], s[1..])
  }

  lemma {:induction false} ChainKept(mem: Mem, mem': Mem, head: int, s: seq<int>)
    requires Chain(mem, head, s) && forall a | a in s && a in mem :: a in mem' && mem'[a] == mem[a]
    ensures Chain(mem', head, s)
    decreases s
  {
    if s != [] {
      var a := s[0];
      assert a in s;
      ChainKept(mem, mem', mem[head], s[1..]);
    }
  }

  /** k cells linked one to the next, the last to a list that was there before. */
  lemma {:induction false} LinkedChain(mem: Mem, base: int, size: int, k: nat, head: int, tail: seq<int>)
    requires k > 0 && base > 0 && size > 0 && Chain(mem, head, tail)
    requires var s := Cells(base, size, k);
             (forall j | 0 <= j < k - 1 :: s[j] in mem && mem[s[j]] == s[j + 1]) && s[k - 1] in mem && mem[s[k - 1]] == head
    ensures Chain(mem, base, Cells(base, size, k) + tail)
    decreases k
  {
    var s := Cells(base, size, k);
    var rest := Cells(base + size, size, k - 1);
    assert s == [base] + rest;
    assert (s + tail)[1..] == rest + tail;
    if k > 1 {
      forall j | 0 <= j < k - 2
        ensures rest[j] in mem && mem[rest[j]] == rest[j + 1]
      {
        assert rest[j] == s[j + 1] && rest[j + 1] == s[j + 2];
      }
      assert rest[k - 2] == s[k - 1];
      LinkedChain(mem, base + size, size, k - 1, head, tail);
    } else {
      assert rest + tail == tail;
    }
  }

  /** Bytes [a, a + p) and [b, b + q) have none in common. */
  predicate Apart(a: int, p: int, b: int, q: int) { a + p <= b || b + q <= a }

  /** A product that proofs can leave unevaluated. */
  function Times(a: int, b: int): int { a * b }

  /** k times size, by repeated addition to spare the solver products. */
  ghost function Span(k: nat, size: int): int {
    if k == 0 then 0 else Span(k - 1, size) + size
  }

  lemma {:induction false} SpanIsProduct(k: nat, size: int)
    ensures Span(k, size) == k * size
  {
    if k > 0 {
      SpanIsProduct(k - 1, size);
      assert k * size == (k - 1) * size + size;
    }
  }

  lemma {:induction false} SpanAtLeast(k: nat, size: int)
    requires k > 0 && size >= 0
    ensures Span(k, size) >= size
  {
    if k > 1 {
      SpanAtLeast(k - 1, size);
    }
  }

  /** The start addresses of k cells of the given size, one behind the other. */
  function Cells(base: int, size: int, k: nat): (s: seq<int>)
    ensures |s| == k
    decreases k
  {
    if k == 0 then [] else [base] + Cells(base + size, size, k - 1)
  }

  lemma {:induction false} CellsInOrder(base: int, size: int, k: nat)
    requires size > 0
    ensures forall i | 0 <= i < k :: base <= Cells(base, size, k)[i] && Cells(base, size, k)[i] + size <= base + Span(k, size)
    ensures forall i, j | 0 <= i < j < k :: Cells(base, size, k)[i] + size <= Cells(base, size, k)[j]
    decreases k
  {
    if k > 0 {
      CellsInOrder(base + size, size, k - 1);
      SpanAtLeast(k, size);
    }
  }

  /** The units in a list of cells. */
  ghost function Units(cells: map<int, nat>, s: seq<int>): int
    requires forall a | a in s :: a in cells
  {
    if s == [] then 0 else
      var a := s[0];
      assert a in s;
      cells[a] + Units(cells, s[1..])
  }

  lemma {:induction false} UnitsAppend(cells: map<int, nat>, s: seq<int>, t: seq<int>)
    requires forall a | a in s + t :: a in cells
    ensures (forall a | a in s :: a in cells) && (forall a | a in t :: a in cells)
    ensures Units(cells, s + t) == Units(cells, s) + Units(cells, t)
  {
    forall a | a in s || a in t
      ensures a in s + t
    {
    }
    if s == [] {
      assert s + t == t;
    } else {
      assert (s + t)[1..] == s[1..] + t;
      UnitsAppend(cells, s[1..], t);
    }
  }

  lemma {:induction false} UnitsKept(cells: map<int, nat>, cells': map<int, nat>, s: seq<int>)
    requires forall a | a in s :: a in cells && a in cells' && cells'[a] == cells[a]
    ensures Units(cells', s) == Units(cells, s)
  {
    if s != [] {
      var a := s[0];
      assert a in s;
      UnitsKept(cells, cells', s[1..]);
    }
  }

  function Dropped(s: seq<int>, i: nat): seq<int>
    requires i < |s|
  {
    s[..i] + s[i + 1..]
  }

  lemma UnitsDropped(cells: map<int, nat>, s: seq<int>, i: nat)
    requires i < |s| && forall a | a in s :: a in cells
    ensures forall a | a in Dropped(s, i) :: a in cells
    ensures Units(cells, s) == Units(cells, Dropped(s, i)) + cells[s[i]]
  {
    assert s == s[..i] + ([s[i]] + s[i + 1..]);
    UnitsAppend(cells, s[..i], [s[i]] + s[i + 1..]);
    UnitsAppend(cells, [s[i]], s[i + 1..]);
    UnitsAppend(cells, s[..i], s[i + 1..]);
    assert Units(cells, [s[i]]) == cells[s[i]] + Units(cells, []);
  }

  /** The units in the first k free lists. */
  ghost function FreeUnits(free: seq<seq<int>>, k: nat): int
    requires k <= |free|
  {
    if k == 0 then 0 else FreeUnits(free, k - 1) + (k - 1) * |free[k - 1]|
  }

  lemma {:induction false} FreeUnitsChange(free: seq<seq<int>>, n: nat, s: seq<int>, k: nat)
    requires n < |free| && k <= |free|
    ensures FreeUnits(free[n := s], k) == FreeUnits(free, k) + if n < k then n * (|s| - |free[n]|) else 0
  {
    if k > 0 {
      FreeUnitsChange(free, n, s, k - 1);
    }
  }

  lemma {:induction false} FreeUnitsGrow(free: seq<seq<int>>, free': seq<seq<int>>, k: nat)
    requires |free| <= k <= |free'| && free'[..|free|] == free && forall i | |free| <= i < |free'| :: free'[i] == []
    ensures FreeUnits(free', k) == FreeUnits(free, |free|)
    decreases k
  {
    if k > |free| {
      FreeUnitsGrow(free, free', k - 1);
    } else {
      FreeUnitsSame(free, free', k);
    }
  }

  lemma {:induction false} FreeUnitsSame(free: seq<seq<int>>, free': seq<seq<int>>, k: nat)
    requires k <= |free| <= |free'| && free'[..|free|] == free
    ensures FreeUnits(free', k) == FreeUnits(free, k)
  {
    if k > 0 {
      FreeUnitsSame(free, free', k - 1);
      assert free'[k - 1] == free'[..|free|][k - 1];
    }
  }

  /** Memory is as it was but for the words at s. */
  ghost predicate Kept(mem: Mem, mem': Mem, s: set<int>) {
    forall a | a in mem && a !in s :: a in mem' && mem'[a] == mem[a]
  }

  ghost function Words(block: int, cs: seq<int>): set<int> { {block} + set a | a in cs }

  /** Cells of n units. */
  ghost function Sized(cs: seq<int>, n: nat): map<int, nat> { map a | a in cs :: n }

  class OrderedPool {
    const orderedSize: int
    var anpts: seq<int>
    var blockList: int
    var maxNew: int
    var maxNow: int
    var mem: Mem
    // Every cell with its number of units; those handed out; the free lists; the blocks, latest first.
    ghost var cells: map<int, nat>
    ghost var live: seq<int>
    ghost var free: seq<seq<int>>
    ghost var blocks: seq<Block>

    ghost function Size(n: nat): int { Span(n, orderedSize) }

    /** The free lists hold cells of their size. */
    ghost predicate FreeOk(n: nat)
      requires n < |free| == |anpts|
      reads this
    {
      && Chain(mem, anpts[n], free[n]) && NoDup(free[n])
      && forall a | a in free[n] :: a in cells && cells[a] == n && a !in live
    }

    /** A cell is free or handed out. */
    ghost predicate CellOk(a: int)
      requires a in cells
      reads this
    {
      && 0 < cells[a] < |free| && (a in live || a in free[cells[a]])
      && exists i :: 0 <= i < |blocks| && Inside(a, blocks[i])
    }

    ghost predicate Inside(a: int, b: Block)
      requires a in cells
      reads this
    {
      b.addr + PTR <= a && a + Size(cells[a]) <= b.addr + b.size
    }

    /** No two cells have a byte in common, nor have two blocks. */
    ghost predicate NoOverlap()
      reads this
    {
      && (forall a, b | a in cells && b in cells && a != b :: Apart(a, Size(cells[a]), b, Size(cells[b])))
      && (forall i, j | 0 <= i < j < |blocks| :: Apart(blocks[i].addr, blocks[i].size, blocks[j].addr, blocks[j].size))
    }

    ghost predicate FreeLists()
      reads this
    {
      |free| == |anpts| && forall n | 0 <= n < |free| :: FreeOk(n)
    }

    ghost predicate HandedOut()
      reads this
    {
      NoDup(live) && forall a | a in live :: a in cells
    }

    ghost predicate Partition()
      reads this
    {
      forall a | a in cells :: CellOk(a)
    }

    ghost predicate BlockList()
      reads this
    {
      && (forall i | 0 <= i < |blocks| :: blocks[i].addr > 0 && blocks[i].size >= PTR)
      && Chain(mem, blockList, Addrs(blocks))
    }

    /** The two counters: units that are free, and units in all. */
    ghost predicate Counted()
      requires HandedOut()
      reads this
    {
      maxNow == FreeUnits(free, |free|) && maxNew == maxNow + Units(cells, live)
    }

    ghost predicate Valid()
      reads this
    {
      orderedSize >= PTR && FreeLists() && HandedOut() && Partition() && NoOverlap() && BlockList() && Counted()
    }

    static ghost function Addrs(bs: seq<Block>): (s: seq<int>)
      ensures |s| == |bs| && forall i | 0 <= i < |bs| :: s[i] == bs[i].addr
    {
      if bs == [] then [] else [bs[0].addr] + Addrs(bs[1..])
    }

    constructor (orderedSize: int)
      requires orderedSize >= PTR
      ensures Valid() && live == [] && maxNew == maxNow == 0 && this.orderedSize == orderedSize
    {
      this.orderedSize := orderedSize;
      anpts, blockList, maxNew, maxNow, mem := [], 0, 0, 0, map[];
      cells, live, free, blocks := map[], [], [], [];
    }

    /** A cell is not where a block has its header word. */
    lemma NoHeader(a: int)
      requires Valid() && a in cells
      ensures a > 0 && a !in Addrs(blocks) && Size(cells[a]) >= PTR
    {
      assert CellOk(a);
      var j :| 0 <= j < |blocks| && Inside(a, blocks[j]);
      SpanAtLeast(cells[a], orderedSize);
      forall i | 0 <= i < |blocks|
        ensures blocks[i].addr != a
      {
        if i < j {
          assert Apart(blocks[i].addr, blocks[i].size, blocks[j].addr, blocks[j].size);
        } else if j < i {
          assert Apart(blocks[j].addr, blocks[j].size, blocks[i].addr, blocks[i].size);
        }
      }
    }

    lemma FreeListFacts(n: nat)
      requires FreeLists() && n < |free|
      ensures |anpts| == |free| && (free[n] == [] <==> anpts[n] == 0)
      ensures free[n] != [] ==>
                anpts[n] == free[n][0] && anpts[n] in free[n] && anpts[n] in cells && cells[anpts[n]] == n && anpts[n] in mem
    {
      assert FreeOk(n);
    }

    /** Gives a cell back: it goes to the front of the free list of its size. */
    method OrderedFree(ptr: int, n: nat)
      requires Valid() && ptr in live && cells[ptr] == n
      modifies this
      ensures Valid() && cells == old(cells) && blocks == old(blocks) && maxNew == old(maxNew)
      ensures n < |old(free)| && free == old(free)[n := [ptr] + old(free)[n]] && maxNow == old(maxNow) + n
      ensures multiset(live) == multiset(old(live)) - multiset{ptr}
      ensures ptr in mem && mem == old(mem)[ptr := mem[ptr]]
    {
      assert CellOk(ptr);
      NoHeader(ptr);
      FreeListFacts(n);
      ghost var i :| 0 <= i < |live| && live[i] == ptr;
      hide Valid;
      mem := mem[ptr := anpts[n]];
      anpts := anpts[n := ptr];
      maxNow := maxNow + n;
      live, free := Dropped(live, i), free[n := [ptr] + free[n]];
      Freed(ptr, n, i);
    }

    twostate lemma Freed(new ptr: int, new n: nat, new i: nat)
      requires old(Valid()) && ptr in cells && cells[ptr] == n < |old(free)|
      requires orderedSize >= PTR && cells == old(cells) && blocks == old(blocks) && blockList == old(blockList)
      requires i < |old(live)| && old(live)[i] == ptr && live == Dropped(old(live), i)
      requires free == old(free)[n := [ptr] + old(free)[n]] && mem == old(mem)[ptr := old(anpts)[n]] && anpts == old(anpts)[n := ptr]
      requires ptr > 0 && ptr !in Addrs(blocks) && maxNow == old(maxNow) + n && maxNew == old(maxNew)
      ensures Valid()
      ensures multiset(live) == multiset(old(live)) - multiset{ptr}
    {
      DropOne(old(live), i);
      FreeUnitsChange(old(free), n, free[n], |free|);
      UnitsDropped(cells, old(live), i);
      assert n * (|free[n]| - |old(free)[n]|) == n;
      assert Counted();
      hide Units;
      hide FreeUnits;
      hide Counted;
      forall k | 0 <= k < |free|
        ensures FreeOk(k)
      {
        assert old(FreeOk(k));
        ChainKept(old(mem), mem, old(anpts)[k], old(free)[k]);
        if k == n {
          assert free[n][1..] == old(free)[n];
        }
      }
      forall a | a in cells
        ensures CellOk(a)
      {
        assert old(CellOk(a));
        var j :| 0 <= j < |blocks| && old(Inside(a, blocks[j]));
        assert Inside(a, blocks[j]);
      }
      ChainKept(old(mem), mem, blockList, Addrs(blocks));
      assert old(NoOverlap());
    }

    /** Makes room for a free list of size n. */
    method GrowTable(n: nat)
      requires Valid()
      modifies this`anpts, this`free
      ensures Valid() && n < |free| && old(free) <= free && forall k | |old(free)| <= k < |free| :: free[k] == []
      ensures if n < |old(free)| then free == old(free) else DoubledFor(16, n + 1, |free|)
    {
      if |anpts| < n + 1 {
        var size := 16;
        ghost var k := 0;
        while size < n + 1
          invariant size == 16 * Pow2(k) >= 16 && (k == 0 || size < 2 * (n + 1))
        {
          size := size * 2;
          k := k + 1;
        }
        anpts := anpts + seq(size - |anpts|, _ => 0);
        free := free + seq(size - |free|, _ => []);
        FreeUnitsGrow(old(free), free, |free|);
        forall k | 0 <= k < |free|
          ensures FreeOk(k)
        {
          if k < |old(free)| {
            assert old(FreeOk(k));
          }
        }
        forall a | a in cells
          ensures CellOk(a)
        {
          assert old(CellOk(a));
          var j :| 0 <= j < |blocks| && old(Inside(a, blocks[j]));
          assert Inside(a, blocks[j]);
        }
        assert old(NoOverlap());
      }
    }

    /** A region the system can hand out: apart from all it has handed out. */
    ghost predicate Fresh(addr: int, size: int)
      reads this
    {
      addr > 0 && size >= PTR && forall i | 0 <= i < |blocks| :: Apart(addr, size, blocks[i].addr, blocks[i].size)
    }

    /** The first cell of a free list is handed out. */
    twostate predicate Reusing(n: nat)
      reads this
    {
      && n < |old(free)| == |old(anpts)| && old(free)[n] != [] && old(anpts)[n] in old(mem)
      && free == old(free)[n := old(free)[n][1..]] && live == old(live) + [old(anpts)[n]]
      && anpts == old(anpts)[n := old(mem)[old(anpts)[n]]] && mem == old(mem)
      && cells == old(cells) && blocks == old(blocks) && blockList == old(blockList)
    }

    twostate lemma Reused(new n: nat)
      requires old(Valid()) && Reusing(n)
      requires maxNow == old(maxNow) - n && maxNew == old(maxNew)
      ensures Valid()
      ensures old(anpts)[n] !in old(live)
    {
      ReusedLists(n);
      ReusedCounts(n);
      forall a | a in cells
        ensures CellOk(a)
      {
        assert old(CellOk(a));
        var j :| 0 <= j < |blocks| && old(Inside(a, blocks[j]));
        assert Inside(a, blocks[j]);
        assert a in old(free)[n] && a != old(anpts)[n] ==> a in free[n];
      }
      assert old(NoOverlap());
      hide FreeLists;
      hide HandedOut;
      hide Counted;
    }

    twostate lemma ReusedLists(new n: nat)
      requires old(Valid()) && Reusing(n)
      ensures FreeLists() && HandedOut() && old(anpts)[n] !in old(live) && old(anpts)[n] == old(free)[n][0]
    {
      var ptr := old(anpts)[n];
      assert old(FreeOk(n));
      assert ptr == old(free)[n][0] && ptr in old(free)[n];
      assert old(free)[n] == [ptr] + free[n];
      forall k | 0 <= k < |free|
        ensures FreeOk(k)
      {
        assert old(FreeOk(k));
        forall a | a in free[k]
          ensures a in cells && cells[a] == k && a !in live
        {
          assert a in old(free)[k];
        }
      }
    }

    twostate lemma ReusedCounts(new n: nat)
      requires old(Valid()) && Reusing(n) && HandedOut()
      requires maxNow == old(maxNow) - n && maxNew == old(maxNew)
      ensures Counted()
    {
      var ptr := old(anpts)[n];
      assert old(FreeOk(n));
      assert ptr == old(free)[n][0] && ptr in old(free)[n];
      FreeUnitsChange(old(free), n, free[n], |free|);
      UnitsAppend(cells, old(live), [ptr]);
      assert Units(cells, [ptr]) == n + Units(cells, []);
      assert n * (|free[n]| - |old(free)[n]|) == -(n as int);
    }

    /** Hands out the first cell of a free list. */
    method Reuse(n: nat) returns (ptr: int)
      requires Valid() && n < |free| && free[n] != []
      modifies this
      ensures Valid() && ptr in cells && cells[ptr] == n && ptr !in old(live) && live == old(live) + [ptr] && ptr > 0
      ensures cells == old(cells) && blocks == old(blocks) && mem == old(mem)
      ensures ptr == old(free)[n][0] && free == old(free)[n := old(free)[n][1..]]
      ensures maxNew == old(maxNew) && maxNow == old(maxNow) - n
    {
      ptr := anpts[n];
      FreeListFacts(n);
      NoHeader(ptr);
      hide Valid;
      maxNow := maxNow - n;
      anpts := anpts[n := mem[ptr]];
      free := free[n := free[n][1..]];
      live := live + [ptr];
      Reused(n);
    }

    /** Links k new cells from ptr on in front of a free list. */
    method Segregate(ptr: int, partitionSz: int, k: nat, n: nat, ghost tail: seq<int>)
      requires n < |anpts| && partitionSz > 0 && ptr > 0
      requires Chain(mem, anpts[n], tail) && forall a | a in tail :: a !in Cells(ptr, partitionSz, k)
      modifies this`mem, this`anpts
      ensures |anpts| == |old(anpts)| && anpts == old(anpts)[n := anpts[n]]
      ensures forall a | a in old(mem) && a !in Cells(ptr, partitionSz, k) :: a in mem && mem[a] == old(mem)[a]
      ensures Chain(mem, anpts[n], Cells(ptr, partitionSz, k) + tail)
    {
      ghost var cs := Cells(ptr, partitionSz, k);
      if k <= 0 {
        assert [] + tail == tail;
        return;
      }
      CellsInOrder(ptr, partitionSz, k);
      var last, i := ptr, 1;
      while i < k
        invariant 1 <= i <= k && last == cs[i - 1] && anpts == old(anpts)
        invariant forall j | 0 <= j < i - 1 :: cs[j] in mem && mem[cs[j]] == cs[j + 1]
        invariant forall a | a in old(mem) && a !in cs :: a in mem && mem[a] == old(mem)[a]
      {
        CellStep(ptr, partitionSz, k, i);
        hide Cells;
        hide Chain;
        var next := last + partitionSz;
        mem := mem[last := next];
        last := next;
        i := i + 1;
      }
      mem := mem[last := anpts[n]];
      ChainKept(old(mem), mem, old(anpts)[n], tail);
      LinkedChain(mem, ptr, partitionSz, k, old(anpts)[n], tail);
      anpts := anpts[n := ptr];
    }

    /** All cells are apart from a region that the system can hand out. */
    lemma CellsElsewhere(addr: int, size: int)
      requires Valid() && Fresh(addr, size)
      ensures forall a | a in cells :: Size(cells[a]) > 0 && Apart(a, Size(cells[a]), addr, size)
    {
      forall a | a in cells
        ensures Size(cells[a]) > 0 && Apart(a, Size(cells[a]), addr, size)
      {
        assert CellOk(a);
        var j :| 0 <= j < |blocks| && Inside(a, blocks[j]);
        SpanAtLeast(cells[a], orderedSize);
      }
    }

    /** There is room for the cells cs, of n units each, in a region that the system can hand out. */
    ghost predicate Room(n: nat, block: int, size: int, cs: seq<int>)
      reads this
    {
      && n > 0 && cs != [] && block > 0 && Fresh(block, size) && Size(n) >= PTR && size >= PTR
      && (forall i | 0 <= i < |cs| :: block + PTR <= cs[i] && cs[i] + Size(n) <= block + size)
      && (forall i, j | 0 <= i < j < |cs| :: cs[i] + Size(n) <= cs[j])
      && (forall a | a in cells :: Size(cells[a]) > 0 && Apart(a, Size(cells[a]), block, size))
    }

    /** What a new block adds: the cells cs, the first of which is handed out, the others are free. */
    twostate predicate Carving(n: nat, block: int, size: int, cs: seq<int>)
      reads this
    {
      && n < |old(free)| && cs != [] && old(Room(n, block, size, cs))
      && cells == old(cells) + Sized(cs, n)
      && blocks == [Block(block, size)] + old(blocks)
      && live == old(live) + [cs[0]]
      && free == old(free)[n := cs[1..] + old(free)[n]]
    }

    twostate lemma CarvedCells(new n: nat, new block: int, new size: int, new cs: seq<int>)
      requires old(Valid()) && Carving(n, block, size, cs)
      ensures Partition() && NoOverlap() && HandedOut()
      ensures forall a | a in old(cells) :: a !in cs && cells[a] == old(cells)[a]
      ensures NoDup(cs) && block !in cs && block !in old(cells)
    {
      CarvedNew(n, block, size, cs);
      hide Size;
      hide CellOk;
      hide NoOverlap;
      assert cs[0] in cs;
      forall a | a in cells
        ensures CellOk(a)
      {
        CarvedCell(n, block, size, cs, a);
      }
      CarvedApart(n, block, size, cs);
    }

    /** The new cells are new, and lie inside the block behind its header. */
    twostate lemma CarvedNew(new n: nat, new block: int, new size: int, new cs: seq<int>)
      requires Carving(n, block, size, cs)
      ensures forall a | a in cs :: a !in old(cells) && block + PTR <= a && a + Size(n) <= block + size
      ensures NoDup(cs) && block !in cs && block !in old(cells)
    {
      hide Size;
      forall a | a in cs
        ensures a !in old(cells) && block + PTR <= a && a + Size(n) <= block + size
      {
        var i :| 0 <= i < |cs| && cs[i] == a;
      }
    }

    twostate lemma CarvedCell(new n: nat, new block: int, new size: int, new cs: seq<int>, new a: int)
      requires old(Valid()) && Carving(n, block, size, cs) && a in cells && NoDup(cs)
      requires forall a | a in cs :: a !in old(cells) && block + PTR <= a && a + Size(n) <= block + size
      ensures CellOk(a)
    {
      hide Size;
      hide NoOverlap;
      hide BlockList;
      hide FreeLists;
      hide Counted;
      if a in cs {
        assert Inside(a, blocks[0]);
        var i :| 0 <= i < |cs| && cs[i] == a;
        assert i > 0 ==> cs[1..][i - 1] == a;
      } else {
        assert old(CellOk(a));
        var j :| 0 <= j < |old(blocks)| && old(Inside(a, blocks[j]));
        assert blocks[j + 1] == old(blocks)[j];
        assert Inside(a, blocks[j + 1]);
      }
    }

    twostate lemma CarvedApart(new n: nat, new block: int, new size: int, new cs: seq<int>)
      requires old(NoOverlap()) && Carving(n, block, size, cs)
      requires forall a | a in cs :: a !in old(cells) && block + PTR <= a && a + Size(n) <= block + size
      ensures NoOverlap()
    {
      hide Size;
      forall a, b | a in cells && b in cells && a != b
        ensures Apart(a, Size(cells[a]), b, Size(cells[b]))
      {
        if a in cs && b in cs {
          var i :| 0 <= i < |cs| && cs[i] == a;
          var j :| 0 <= j < |cs| && cs[j] == b;
          assert i != j;
        }
      }
    }

    /** The words of the pool's memory that the new block and its links leave as they were. */
    twostate predicate Linked(n: nat, block: int, cs: seq<int>)
      requires n < |free|
      reads this
    {
      && n < |old(anpts)| == |anpts| && anpts == old(anpts)[n := anpts[n]] && blockList == block
      && Chain(mem, anpts[n], free[n])
      && Kept(old(mem), mem, Words(block, cs))
      && block in mem && mem[block] == old(blockList)
    }

    twostate lemma CarvedLists(new n: nat, new block: int, new size: int, new cs: seq<int>)
      requires old(Valid()) && Carving(n, block, size, cs) && Linked(n, block, cs)
      requires (forall a | a in old(cells) :: a !in cs && cells[a] == old(cells)[a]) && NoDup(cs) && block !in old(cells)
      ensures FreeLists()
    {
      forall k | 0 <= k < |free|
        ensures FreeOk(k)
      {
        assert old(FreeOk(k));
        if k == n {
          forall a | a in cs[1..]
            ensures a in cs && a != cs[0]
          {
          }
          JoinNoDup(cs[1..], old(free)[n]);
        } else {
          ChainKept(old(mem), mem, anpts[k], free[k]);
        }
        forall a | a in free[k]
          ensures a in cells && cells[a] == k && a !in live
        {
          if k == n && a !in old(free)[n] {
            assert a in cs[1..];
            assert a !in old(cells) && a in cs;
          } else {
            assert a in old(free)[k] && a in old(cells);
            assert cs[0] in cs;
          }
        }
      }
    }

    lemma JoinNoDup(s: seq<int>, t: seq<int>)
      requires NoDup(s) && NoDup(t) && forall a | a in s :: a !in t
      ensures NoDup(s + t)
    {
      forall i, j | 0 <= i < j < |s + t|
        ensures (s + t)[i] != (s + t)[j]
      {
        if i < |s| <= j {
          assert s[i] in s && t[j - |s|] in t;
        }
      }
    }

    twostate lemma CarvedBlocks(new n: nat, new block: int, new size: int, new cs: seq<int>)
      requires old(Valid()) && Carving(n, block, size, cs) && Linked(n, block, cs) && size >= PTR
      ensures BlockList()
    {
      HeadersKept(n, block, size, cs);
      assert old(BlockList());
      hide Valid;
      hide Room;
      assert Addrs(blocks) == [block] + Addrs(old(blocks)) by {
        assert blocks[1..] == old(blocks);
      }
      assert Addrs(blocks)[1..] == Addrs(old(blocks));
    }

    /** The blocks from before are linked as they were. */
    twostate lemma HeadersKept(new n: nat, new block: int, new size: int, new cs: seq<int>)
      requires old(Valid()) && Carving(n, block, size, cs) && Linked(n, block, cs)
      ensures block > 0 && Chain(mem, old(blockList), Addrs(old(blocks)))
    {
      assert old(BlockList());
      hide Valid;
      hide Size;
      forall i | 0 <= i < |old(blocks)|
        ensures old(blocks)[i].addr != block && old(blocks)[i].addr !in cs
      {
        assert Apart(block, size, old(blocks)[i].addr, old(blocks)[i].size);
      }
      ChainKept(old(mem), mem, old(blockList), Addrs(old(blocks)));
    }

    twostate lemma CarvedCounts(new n: nat, new block: int, new size: int, new cs: seq<int>)
      requires old(Valid()) && Carving(n, block, size, cs) && HandedOut()
      requires forall a | a in old(cells) :: a !in cs && cells[a] == old(cells)[a]
      requires maxNew == old(maxNew) + n * |cs| && maxNow == old(maxNow) + n * (|cs| - 1)
      ensures Counted()
    {
      FreeUnitsChange(old(free), n, free[n], |free|);
      assert n * (|free[n]| - |old(free)[n]|) == n * (|cs| - 1);
      UnitsKept(old(cells), cells, old(live));
      assert cs[0] in cs && cells[cs[0]] == n;
      UnitsAppend(cells, old(live), [cs[0]]);
      assert Units(cells, [cs[0]]) == n + Units(cells, []);
      assert n * |cs| == n * (|cs| - 1) + n;
    }

    /** Gets a block from the system, hands out its first cell and makes the others free. */
    method NewBlock(n: nat, chunkSize: nat, block: int) returns (ptr: int)
      requires Valid() && n > 0 && chunkSize > 0 && n < |free| && free[n] == [] && Fresh(block, PTR + Span(chunkSize, Size(n)))
      modifies this
      ensures Valid() && ptr in cells && cells[ptr] == n && ptr !in old(cells) && live == old(live) + [ptr] && ptr > 0
      ensures forall a | a in old(cells) :: a in cells && cells[a] == old(cells)[a]
      ensures Divided(n, chunkSize, block) && ptr == block + PTR && free == old(free)[n := free[n]]
      ensures maxNew == old(maxNew) + n * chunkSize && maxNow == old(maxNow) + n * (chunkSize - 1)
    {
      ghost var cs, size := NewCells(n, chunkSize, block);
      FreeListFacts(n);
      hide Valid;
      hide Fresh;
      hide Room;
      hide Cells;
      hide Size;
      hide Span;
      hide Times;
      hide Carving;
      hide Linked;
      ptr := CarveBlock(n, chunkSize, block, size, cs);
      Carved(n, chunkSize, block, size, cs);
      DividedPlainly(n, chunkSize, block, size, cs);
    }

    /** A new block for chunkSize cells of n units: the cells lie one behind the other from the header word on, and all
        but the first are free, in that order. Nothing outside the block is written. */
    twostate predicate Divided(n: nat, chunkSize: nat, block: int)
      requires n < |free|
      reads this
    {
      && blocks == [Block(block, PTR + chunkSize * (n * orderedSize))] + old(blocks)
      && |free[n]| == chunkSize - 1
      && (forall i | 0 <= i < chunkSize - 1 :: free[n][i] == block + PTR + (i + 1) * (n * orderedSize))
      && (forall a :: a in cells <==> a in old(cells) || a == block + PTR || a in free[n])
      && (forall a | a in cells && a !in old(cells) :: cells[a] == n)
      && forall a | a in old(mem) && Apart(a, PTR, block, blocks[0].size) :: a in mem && mem[a] == old(mem)[a]
    }

    twostate lemma DividedPlainly(new n: nat, new chunkSize: nat, new block: int, new size: int, new cs: seq<int>)
      requires Carving(n, block, size, cs) && Linked(n, block, cs) && chunkSize > 0 && |cs| == chunkSize && old(free)[n] == []
      requires size == PTR + Span(chunkSize, Size(n)) && cs == Cells(block + PTR, Size(n), chunkSize)
      ensures Divided(n, chunkSize, block) && free == old(free)[n := free[n]] && cs[0] == block + PTR
    {
      InProducts(n, chunkSize, block, size, cs);
      OthersKept(n, block, size, cs);
      hide Room;
      hide Linked;
      hide Span;
      hide Cells;
      assert cs[1..] + [] == cs[1..];
      forall i | 0 <= i < chunkSize - 1
        ensures free[n][i] == block + PTR + (i + 1) * (n * orderedSize)
      {
        assert free[n][i] == cs[i + 1];
      }
      assert cs == [cs[0]] + free[n];
    }

    lemma InProducts(n: nat, chunkSize: nat, block: int, size: int, cs: seq<int>)
      requires size == PTR + Span(chunkSize, Size(n)) && cs == Cells(block + PTR, Size(n), chunkSize)
      ensures size == PTR + chunkSize * (n * orderedSize) && |cs| == chunkSize
      ensures forall i | 0 <= i < chunkSize :: cs[i] == block + PTR + i * (n * orderedSize)
    {
      SpanIsProduct(n, orderedSize);
      SpanIsProduct(chunkSize, Size(n));
      CellsAt(block + PTR, Size(n), chunkSize);
    }

    /** Nothing outside the new block is written. */
    twostate lemma OthersKept(new n: nat, new block: int, new size: int, new cs: seq<int>)
      requires Carving(n, block, size, cs) && Linked(n, block, cs)
      ensures forall a | a in old(mem) && Apart(a, PTR, block, size) :: a in mem && mem[a] == old(mem)[a]
    {
      hide Size;
    }

    /** The changes that a new block makes. */
    method CarveBlock(n: nat, chunkSize: nat, block: int, ghost size: int, ghost cs: seq<int>) returns (ptr: int)
      requires n < |anpts| == |free| && free[n] == [] && n > 0 && chunkSize > 0 && block > 0 && anpts[n] == 0
      requires Room(n, block, size, cs) && |cs| == chunkSize && cs[0] == block + PTR && Times(n, orderedSize) == Size(n)
      requires cs == Cells(block + PTR, Size(n), chunkSize)
      requires cs[1..] == Cells(block + PTR + Size(n), Size(n), chunkSize - 1)
      modifies this
      ensures ptr == cs[0] && Carving(n, block, size, cs) && Linked(n, block, cs)
      ensures maxNew == old(maxNew) + Times(n, chunkSize) && maxNow == old(maxNow) + Times(n, chunkSize - 1)
    {
      assert Size(n) >= PTR;
      hide Fresh;
      hide Room;
      hide Chain;
      hide Sized;
      hide Kept;
      hide Words;
      hide Cells;
      hide Size;
      hide Times;
      var partitionSz := Times(n, orderedSize);
      maxNew := maxNew + Times(n, chunkSize);
      maxNow := maxNow + Times(n, chunkSize - 1);
      ptr := LinkBlock(n, chunkSize, partitionSz, block, cs);
      cells := cells + Sized(cs, n);
      blocks := [Block(block, size)] + blocks;
      live := live + [ptr];
      free := free[n := cs[1..] + free[n]];
      assert cs[1..] + [] == cs[1..];
    }

    /** Puts a new block in front of the list of blocks, and all its cells but the first in front of a free list. */
    method LinkBlock(n: nat, chunkSize: nat, partitionSz: int, block: int, ghost cs: seq<int>) returns (ptr: int)
      requires n < |anpts| && n > 0 && chunkSize > 0 && block > 0 && anpts[n] == 0
      requires cs == Cells(block + PTR, partitionSz, chunkSize) && partitionSz >= PTR
      requires cs[1..] == Cells(block + PTR + partitionSz, partitionSz, chunkSize - 1)
      modifies this`mem, this`anpts, this`blockList
      ensures ptr == block + PTR && |anpts| == |old(anpts)| && anpts == old(anpts)[n := anpts[n]] && blockList == block
      ensures Chain(mem, anpts[n], cs[1..])
      ensures Kept(old(mem), mem, Words(block, cs))
      ensures block in mem && mem[block] == old(blockList)
    {
      hide Cells;
      RestElsewhere(block, partitionSz, chunkSize, cs);
      mem := mem[block := blockList];
      blockList := block;
      assert Chain(mem, anpts[n], []);
      hide Chain;
      ptr := block + PTR;
      Segregate(ptr + partitionSz, partitionSz, chunkSize - 1, n, []);
    }

    lemma RestElsewhere(block: int, partitionSz: int, chunkSize: nat, cs: seq<int>)
      requires chunkSize > 0 && partitionSz >= PTR && |cs| > 0
      requires cs[1..] == Cells(block + PTR + partitionSz, partitionSz, chunkSize - 1)
      ensures block !in cs[1..] && (forall a | a in cs[1..] :: a in cs) && cs[1..] + [] == cs[1..]
    {
      CellsInOrder(block + PTR + partitionSz, partitionSz, chunkSize - 1);
    }

    /** The cells of a new block, before it is made. */
    lemma NewCells(n: nat, chunkSize: nat, block: int) returns (cs: seq<int>, size: int)
      requires Valid() && n > 0 && chunkSize > 0 && Fresh(block, PTR + Span(chunkSize, Size(n)))
      ensures size == PTR + Span(chunkSize, Size(n)) && Size(n) == Times(n, orderedSize) >= PTR
      ensures cs == Cells(block + PTR, Size(n), chunkSize) && |cs| == chunkSize && cs[0] == block + PTR && block > 0
      ensures cs[1..] == Cells(block + PTR + Size(n), Size(n), chunkSize - 1)
      ensures Room(n, block, size, cs)
    {
      size := PTR + Span(chunkSize, Size(n));
      SpanIsProduct(n, orderedSize);
      SpanAtLeast(n, orderedSize);
      SpanAtLeast(chunkSize, Size(n));
      cs := Cells(block + PTR, Size(n), chunkSize);
      CellsInOrder(block + PTR, Size(n), chunkSize);
      CellsElsewhere(block, size);
    }

    twostate lemma Carved(new n: nat, new chunkSize: nat, new block: int, new size: int, new cs: seq<int>)
      requires old(Valid()) && Carving(n, block, size, cs) && Linked(n, block, cs) && size >= PTR
      requires |cs| == chunkSize && maxNew == old(maxNew) + Times(n, chunkSize) && maxNow == old(maxNow) + Times(n, chunkSize - 1)
      ensures Valid() && cs[0] in cells && cs[0] !in old(cells) && cells[cs[0]] == n
      ensures forall a | a in old(cells) :: a in cells && cells[a] == old(cells)[a]
    {
      CarvedCells(n, block, size, cs);
      CarvedLists(n, block, size, cs);
      CarvedBlocks(n, block, size, cs);
      CarvedCounts(n, block, size, cs);
      assert cs[0] in cs;
      hide FreeLists;
      hide Partition;
      hide BlockList;
      hide Counted;
      hide NoOverlap;
      hide HandedOut;
    }

    /** Whether the free list of size n has nothing to hand out. */
    ghost predicate NoneFree(n: nat)
      reads this
    {
      n >= |free| || free[n] == []
    }

    /** Hands out a cell of n units: the first free one, or else the first of chunkSize new ones in a block that the
        system has at the given address. */
    method OrderedMalloc(n: nat, chunkSize: nat, block: int) returns (ptr: int)
      requires Valid() && n > 0 && chunkSize > 0
      requires NoneFree(n) ==> Fresh(block, PTR + Span(chunkSize, Size(n)))
      modifies this
      ensures Valid() && ptr > 0 && ptr in cells && cells[ptr] == n && ptr !in old(live) && live == old(live) + [ptr]
      ensures forall a | a in old(cells) :: a in cells && cells[a] == old(cells)[a]
      ensures ptr in old(cells) <==> !old(NoneFree(n))
      ensures !old(NoneFree(n)) ==>
                && ptr == old(free)[n][0] && free == old(free)[n := old(free)[n][1..]]
                && cells == old(cells) && blocks == old(blocks) && mem == old(mem)
                && maxNew == old(maxNew) && maxNow == old(maxNow) - n
      ensures old(NoneFree(n)) ==>
                && n < |free| && Divided(n, chunkSize, block) && ptr == block + PTR
                && (forall k | 0 <= k < |free| && k != n :: free[k] == if k < |old(free)| then old(free)[k] else [])
                && maxNew == old(maxNew) + n * chunkSize && maxNow == old(maxNow) + n * (chunkSize - 1)
    {
      GrowTable(n);
      FreeListFacts(n);
      if n < |old(free)| {
        assert free[n] == old(free)[n];
      }
      ptr := anpts[n];
      if ptr != 0 {
        ptr := Reuse(n);
      } else {
        ptr := NewBlock(n, chunkSize, block);
      }
    }

    /** Whatever a user writes into a cell that it holds, pointers of the pool included, the pool is not disturbed. */
    method Scribble(ptr: int, at: int, len: nat, after: Mem)
      requires Valid() && ptr in live && ptr <= at && at + len <= ptr + Size(cells[ptr])
      requires forall a | a in mem && Apart(a, PTR, at, len) :: a in after && after[a] == mem[a]
      modifies this`mem
      ensures Valid() && mem == after
    {
      ghost var before := mem;
      assert HandedOut();
      forall a | a in cells && a != ptr && a in mem
        ensures a in after && after[a] == mem[a]
      {
        NoHeader(a);
        assert Apart(a, Size(cells[a]), ptr, Size(cells[ptr]));
      }
      forall i | 0 <= i < |blocks| && blocks[i].addr in mem
        ensures blocks[i].addr in after && after[blocks[i].addr] == mem[blocks[i].addr]
      {
        HeaderElsewhere(ptr, i);
      }
      mem := after;
      forall n | 0 <= n < |free|
        ensures FreeOk(n)
      {
        assert old(FreeOk(n));
        ChainKept(before, mem, anpts[n], free[n]);
      }
      ChainKept(before, mem, blockList, Addrs(blocks));
      Untouched();
    }

    /** A block's header word is in no cell. */
    lemma HeaderElsewhere(a: int, i: nat)
      requires Valid() && a in cells && i < |blocks|
      ensures Apart(blocks[i].addr, PTR, a, Size(cells[a]))
    {
      assert CellOk(a);
      NoHeader(a);
      var j :| 0 <= j < |blocks| && Inside(a, blocks[j]);
      if i < j {
        assert Apart(blocks[i].addr, blocks[i].size, blocks[j].addr, blocks[j].size);
      } else if j < i {
        assert Apart(blocks[j].addr, blocks[j].size, blocks[i].addr, blocks[i].size);
      }
    }

    /** What does not depend on memory. */
    twostate lemma Untouched()
      requires old(Valid()) && cells == old(cells) && live == old(live) && free == old(free) && blocks == old(blocks)
      requires maxNew == old(maxNew) && maxNow == old(maxNow)
      ensures HandedOut() && Partition() && NoOverlap() && Counted()
    {
      forall a | a in cells
        ensures CellOk(a)
      {
        assert old(CellOk(a));
        var j :| 0 <= j < |blocks| && old(Inside(a, blocks[j]));
        assert Inside(a, blocks[j]);
      }
      assert old(NoOverlap());
    }

    /** No two cells handed out have a byte in common. */
    lemma LiveApart(a: int, b: int)
      requires Valid() && a in live && b in live && a != b
      ensures a in cells && b in cells && Apart(a, Size(cells[a]), b, Size(cells[b]))
    {
    }

    /** Every cell is handed out or in the free list of its size, and not both or twice. */
    lemma LiveOrFree(a: int)
      requires Valid() && a in cells
      ensures cells[a] < |free| && ((a in live) != (a in free[cells[a]])) && NoDup(live) && NoDup(free[cells[a]])
      ensures forall n | 0 <= n < |free| && n != cells[a] :: a !in free[n]
    {
      assert CellOk(a) && FreeOk(cells[a]);
      forall n | 0 <= n < |free| && n != cells[a]
        ensures a !in free[n]
      {
        assert FreeOk(n);
      }
    }

    /** The two counters differ by the units handed out. */
    lemma CountersTell()
      requires Valid()
      ensures (forall a | a in live :: a in cells) && maxNew - maxNow == Units(cells, live)
    {
    }

    lemma BlocksDiffer()
      requires NoOverlap() && BlockList()
      ensures NoDup(Addrs(blocks))
    {
      forall i, j | 0 <= i < j < |blocks|
        ensures Addrs(blocks)[i] != Addrs(blocks)[j]
      {
        assert Apart(blocks[i].addr, blocks[i].size, blocks[j].addr, blocks[j].size);
      }
    }

    /** Gives every block back to the system, once, by the list through their header words. */
    method Clear() returns (ghost deleted: seq<int>)
      requires Valid()
      modifies this`anpts, this`blockList
      ensures deleted == Addrs(blocks) && NoDup(deleted) && anpts == [] && blockList == 0
    {
      assert BlockList();
      BlocksDiffer();
      hide Valid;
      hide BlockList;
      hide Chain;
      hide NoDup;
      anpts := [];
      deleted := [];
      ghost var all := Addrs(blocks);
      ghost var rest := all;
      while blockList != 0
        invariant Chain(mem, blockList, rest) && deleted + rest == all && anpts == []
        decreases |rest|
      {
        ChainStep(mem, blockList, rest);
        ghost var ptr := blockList;
        blockList := mem[blockList];
        MoveOver(deleted, rest);
        deleted := deleted + [ptr];
        rest := rest[1..];
      }
      ChainStep(mem, blockList, rest);
      assert deleted + [] == deleted;
    }
  }

  lemma MoveOver(s: seq<int>, t: seq<int>)
    requires t != []
    ensures (s + [t[0]]) + t[1..] == s + t
  {
  }

  lemma ChainStep(mem: Mem, head: int, s: seq<int>)
    requires Chain(mem, head, s)
    ensures head == 0 <==> s == []
    ensures head != 0 ==> head == s[0] && head in mem && Chain(mem, mem[head], s[1..])
  {
  }

  lemma {:induction false} CellsAt(base: int, size: int, k: nat)
    ensures forall i | 0 <= i < k :: Cells(base, size, k)[i] == base + i * size
    decreases k
  {
    if k > 0 {
      CellsAt(base + size, size, k - 1);
      forall i | 0 <= i < k
        ensures Cells(base, size, k)[i] == base + i * size
      {
        if i > 0 {
          assert Cells(base, size, k)[i] == Cells(base + size, size, k - 1)[i - 1];
          assert i * size == (i - 1) * size + size;
        } else {
          assert i * size == 0;
        }
      }
    }
  }

  lemma {:induction false} CellStep(base: int, size: int, k: nat, i: nat)
    requires 0 < i < k
    ensures Cells(base, size, k)[i] == Cells(base, size, k)[i - 1] + size
    decreases k
  {
    if i > 1 {
      CellStep(base + size, size, k - 1, i - 1);
    }
  }

  lemma DropOne(s: seq<int>, i: nat)
    requires i < |s| && NoDup(s)
    ensures NoDup(Dropped(s, i)) && multiset(Dropped(s, i)) == multiset(s) - multiset{s[i]}
    ensures forall a :: a in Dropped(s, i) <==> a in s && a != s[i]
  {
    var t := Dropped(s, i);
    assert s == s[..i] + [s[i]] + s[i + 1..];
    forall j | 0 <= j < |t|
      ensures t[j] == s[if j < i then j else j + 1]
    {
    }
    forall a
      ensures a in t <==> a in s && a != s[i]
    {
      if a in s && a != s[i] {
        var j :| 0 <= j < |s| && s[j] == a;
        assert t[if j < i then j else j - 1] == a;
      }
    }
  }
}
