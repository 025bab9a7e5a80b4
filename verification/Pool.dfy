/** The card-memory pool: chunk bitmaps searched, set and cleared in place. Every method is
    proved against its function in PoolSpec. */
module Pool {
  import opened PoolSpec
  import opened Words

  class PoolChunk {
    const startAddr: nat
    const span: nat
    const endAddr: nat := startAddr + span
    const bits: array<bool>

    /** A zeroed chunk, as kmalloc followed by memset leaves it. */
    constructor (addr: nat, size: nat, g: nat)
      requires g > 0
      ensures Valid(g) && fresh(bits) && View() == NewChunk(g, addr, size)
    {
      startAddr := addr;
      span := size;
      bits := new bool[size / g](_ => false);
      new;
      assert bits[..] == NewChunk(g, addr, size).bits;
    }

    predicate Valid(g: nat)
      requires g > 0
    {
      bits.Length == span / g
    }

    ghost function View(): Chunk
      reads bits
    {
      Chunk(startAddr, span, bits[..])
    }

    /** The kernel's find_next_bit (value = true) and find_next_zero_bit (value = false). */
    method FindNext(value: bool, size: nat, offset: nat) returns (r: nat)
      requires size <= bits.Length
      ensures offset >= size ==> r == size
      ensures offset < size ==> offset <= r <= size
      ensures forall k :: offset <= k < r ==> bits[k] != value
      ensures r < size ==> bits[r] == value
    {
      if offset >= size { return size; }
      r := offset;
      while r < size && bits[r] != value
        invariant offset <= r <= size
        invariant forall k :: offset <= k < r ==> bits[k] != value
      {
        r := r + 1;
      }
    }

    /** The scan of gen_pool_alloc. After a set bit inside the candidate run it goes on behind
        that bit, skipping every start before it, and still finds the lowest fitting start. */
    method Scan(nbits: nat) returns (start: int)
      requires nbits > 0
      ensures start >= 0 ==> IsFirstFit(bits[..], nbits, start)
      ensures start < 0 ==> NoFit(bits[..], nbits)
    {
      ghost var b := bits[..];
      var endBit: int := bits.Length;
      endBit := endBit - (nbits + 1);
      var bit := -1;
      while bit + 1 < endBit
        invariant -1 <= bit
        invariant forall t :: 0 <= t <= bit ==> !Fits(b, nbits, t)
        decreases endBit - bit
      {
        ghost var from := bit + 1;
        bit := FindNext(false, endBit, bit + 1);
        forall t | from <= t < bit ensures !Fits(b, nbits, t) { assert b[t]; }
        if bit >= endBit { break; }
        start := bit;
        if nbits > 1 {
          bit := FindNext(true, bit + nbits, bit + 1);
          if bit - start < nbits {
            assert b[bit];
            continue;
          }
        }
        assert Fits(b, nbits, start);
        return;
      }
      start := -1;
    }

    /** The `while (nbits--)` loops of alloc and free. */
    method SetRange(start: nat, nbits: nat, value: bool)
      requires start + nbits <= bits.Length
      modifies bits
      ensures bits[..] == Fill(old(bits[..]), start, nbits, value)
    {
      ghost var was := bits[..];
      var n, bit := nbits, start;
      while n > 0
        invariant 0 <= n <= nbits && bit == start + nbits - n
        invariant forall k :: 0 <= k < bits.Length ==>
                    bits[k] == if start <= k < bit then value else was[k]
      {
        n := n - 1;
        bits[bit] := value;
        bit := bit + 1;
      }
      assert bits[..] == Fill(was, start, nbits, value);
    }
  }

  class GenPool {
    const order: nat
    const granule: nat
    var chunks: seq<PoolChunk>

    ghost var Repr: set<array<bool>>  // the bitmaps

    ghost predicate Valid()
      reads this, Repr
    {
      && granule == Pow2(order)
      && granule > 0
      && (forall i :: 0 <= i < |chunks| ==> chunks[i].bits in Repr && chunks[i].Valid(granule))
      && (forall i, j :: 0 <= i < j < |chunks| ==> chunks[i].bits != chunks[j].bits)
    }

    ghost function View(): (v: seq<Chunk>)
      requires Valid()
      reads this, Repr
      ensures |v| == |chunks|
      ensures forall i :: 0 <= i < |v| ==> |v[i].bits| == chunks[i].bits.Length
    {
      seq(|chunks|, i requires 0 <= i < |chunks| && chunks[i].bits in Repr reads this, Repr => chunks[i].View())
    }

    constructor (minAllocOrder: nat)
      ensures Valid() && order == minAllocOrder && View() == []
    {
      order := minAllocOrder;
      granule := Pow2(minAllocOrder);
      chunks := [];
      Repr := {};
    }

    /** Sets or clears a run of one chunk's bits and leaves every other bit alone. */
    method SetIn(i: nat, start: nat, nbits: nat, value: bool)
      requires Valid() && i < |chunks| && start + nbits <= chunks[i].bits.Length
      modifies Repr
      ensures Valid() && chunks == old(chunks) && Repr == old(Repr)
      ensures View() == Mark(old(View()), i, start, nbits, value)
    {
      chunks[i].SetRange(start, nbits, value);
      assert View() == Mark(old(View()), i, start, nbits, value);
    }

    /** The kernel's list_add: the new chunk becomes the head of the list. */
    method ListAdd(chunk: PoolChunk)
      requires Valid() && chunk.Valid(granule) && chunk.bits !in Repr
      modifies this`chunks, this`Repr
      ensures Valid() && Repr == old(Repr) + {chunk.bits}
      ensures View() == [chunk.View()] + old(View())
    {
      ghost var was, list := View(), chunks;
      chunks, Repr := [chunk] + chunks, Repr + {chunk.bits};
      assert chunks[0] == chunk && forall i :: 0 < i < |chunks| ==> chunks[i] == list[i - 1];
    }

    /** gen_pool_add: 0, or -1 when kmalloc gives nothing. */
    method Add(addr: nat, size: nat, kmallocOk: bool) returns (result: int)
      requires Valid()
      modifies this`chunks, this`Repr
      ensures Valid() && fresh(Repr - old(Repr))
      ensures result == if kmallocOk then 0 else -1
      ensures View() == if kmallocOk then AddChunk(old(View()), granule, addr, size) else old(View())
    {
      if !kmallocOk {
        return -1;
      }
      var chunk := new PoolChunk(addr, size, granule);
      ListAdd(chunk);
      return 0;
    }

    /** The scan of one chunk of the list. */
    method ScanIn(i: nat, nbits: nat) returns (start: int)
      requires Valid() && i < |chunks| && nbits > 0
      ensures start >= 0 ==> IsFirstFit(View()[i].bits, nbits, start)
      ensures start < 0 ==> NoFit(View()[i].bits, nbits)
    {
      assert View()[i] == chunks[i].View();
      start := chunks[i].Scan(nbits);
    }

    /** The address of a granule. */
    method AddrOf(i: nat, start: nat) returns (addr: nat)
      requires Valid() && i < |chunks|
      ensures addr == View()[i].start + start * granule
    {
      assert View()[i] == chunks[i].View();
      addr := chunks[i].startAddr + start * granule;
    }

    /** gen_pool_alloc. */
    method Alloc(size: nat) returns (addr: nat)
      requires Valid()
      modifies Repr
      ensures Valid() && chunks == old(chunks)
      ensures (View(), addr) == PoolSpec.Alloc(old(View()), granule, size)
    {
      hide View, PoolSpec.Mark, Granules, NoFit, IsFirstFit;
      if size == 0 {
        return 0;
      }
      ghost var v := View();
      var nbits := Granules(size, granule);
      SomeGranulesIff(size, granule);
      var i := 0;
      while i < |chunks|
        invariant i <= |chunks|
        invariant View() == v
        invariant forall j :: 0 <= j < i ==> NoFit(v[j].bits, nbits)
      {
        var start := ScanIn(i, nbits);
        if start >= 0 {
          ChoiceIsUnique(v, nbits, i, start);
          addr := AddrOf(i, start);
          InBitmap(v, i, nbits, start);
          SetIn(i, start, nbits, true);
          return;
        }
        i := i + 1;
      }
      NoChoice(v, nbits);
      return 0;
    }

    /** gen_pool_free. The run to clear must lie in the bitmap of the chunk that holds addr; the
        source asks for more, namely that addr and size come from one allocation. */
    method Free(addr: nat, size: nat) returns (outcome: FreeOutcome)
      requires Valid() && RunInBitmap(View(), granule, addr, size)
      modifies Repr
      ensures Valid() && chunks == old(chunks)
      ensures (View(), outcome) == PoolSpec.Free(old(View()), granule, addr, size)
    {
      hide PoolSpec.Mark, Granules, Slot;
      var i := FindHolder(addr);
      if i < |chunks| {
        outcome := FreeIn(i, addr, size);
        return;
      }
      var nbits := Granules(size, granule);
      SomeGranulesIff(size, granule);
      return if nbits > 0 then NoChunk else Freed;
    }

    /** The walk of gen_pool_free: the first chunk whose range holds addr, or the number of chunks. */
    method FindHolder(addr: nat) returns (i: nat)
      requires Valid()
      ensures i == Holder(View(), addr)
    {
      ghost var v := View();
      i := 0;
      while i < |chunks| && !(chunks[i].startAddr <= addr < chunks[i].endAddr)
        invariant i <= |chunks|
        invariant forall j :: 0 <= j < i ==> !Holds(v[j], addr)
      {
        assert v[i] == chunks[i].View();
        i := i + 1;
      }
      if i < |chunks| { assert v[i] == chunks[i].View(); }
    }

    /** The body of gen_pool_free's loop for the chunk that holds addr. */
    method FreeIn(i: nat, addr: nat, size: nat) returns (outcome: FreeOutcome)
      requires Valid() && RunInBitmap(View(), granule, addr, size)
      requires i < |chunks| && Holder(View(), addr) == i
      modifies Repr
      ensures Valid() && chunks == old(chunks)
      ensures (View(), outcome) == PoolSpec.Free(old(View()), granule, addr, size)
    {
      assert View()[i] == chunks[i].View();
      var nbits := Granules(size, granule);
      if addr + size > chunks[i].endAddr {
        return PastEnd;
      }
      var bit: nat := (addr - chunks[i].startAddr) / granule;
      SetIn(i, bit, nbits, false);
      return Freed;
    }

    /** gen_pool_destroy: whether the BUG_ON fires. */
    method Destroy() returns (bug: bool)
      requires Valid()
      modifies this`chunks
      ensures bug <==> InUse(old(View()))
      ensures !bug ==> chunks == []
    {
      ghost var v := View();
      ghost var gone := 0;
      while chunks != []
        invariant gone + |chunks| == |v|
        invariant chunks == old(chunks)[gone..]
        invariant forall i :: 0 <= i < gone ==> true !in v[i].bits
        decreases |chunks|
      {
        var chunk := chunks[0];
        chunks := chunks[1..];
        assert chunk.endAddr - chunk.startAddr == chunk.span;
        var endBit := (chunk.endAddr - chunk.startAddr) / granule;
        var bit := chunk.FindNext(true, endBit, 0);
        assert v[gone].bits == chunk.bits[..];
        if bit < endBit {
          assert v[gone].bits[bit];
          return true;
        }
        gone := gone + 1;
      }
      return false;
    }
  }

  lemma SomeGranulesIff(size: nat, g: nat)
    requires g > 0
    ensures Granules(size, g) > 0 <==> size > 0
  {
    var q, r := (size + g - 1) / g, (size + g - 1) % g;
    assert size + g - 1 == q * g + r;
    if q == 0 { assert q * g == 0; } else { MulSign(q, g); }
  }

  lemma InBitmap(chunks: seq<Chunk>, i: nat, n: nat, s: nat)
    requires i < |chunks| && IsFirstFit(chunks[i].bits, n, s)
    ensures s + n <= |chunks[i].bits|
  {}

  lemma NoChoice(chunks: seq<Chunk>, n: nat)
    requires forall i :: 0 <= i < |chunks| ==> NoFit(chunks[i].bits, n)
    ensures Choose(chunks, n) == None
  {}

  /** What a search in list order finds is what Choose gives. */
  lemma {:induction false} ChoiceIsUnique(chunks: seq<Chunk>, n: nat, i: nat, s: nat)
    requires i < |chunks| && IsFirstFit(chunks[i].bits, n, s)
    requires forall j :: 0 <= j < i ==> NoFit(chunks[j].bits, n)
    ensures Choose(chunks, n) == Some(Place(i, s))
  {
    var p := Choose(chunks, n);
    assert Fits(chunks[i].bits, n, s);
    if p.Some? {
      var q := p.value;
      assert Fits(chunks[q.chunk].bits, n, q.slot);
    }
  }
}
