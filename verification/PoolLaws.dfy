/** What the pool guarantees its users: live memory never overlaps, nothing leaks, and a free
    undoes its allocation. */
module PoolLaws {
  import opened Lists
  import opened PoolSpec
  import opened PoolRuns

  // ---------- counting set bits ----------

  function One(b: bool): nat { if b then 1 else 0 }

  function Count(bits: seq<bool>): nat {
    if bits == [] then 0 else One(bits[0]) + Count(bits[1..])
  }

  function CountAll(chunks: seq<Chunk>): nat {
    if chunks == [] then 0 else Count(chunks[0].bits) + CountAll(chunks[1..])
  }

  /** The granules that the live extents account for. */
  function Total(live: seq<Extent>): nat {
    if live == [] then 0 else live[0].count + Total(live[1..])
  }

  lemma {:induction false} CountUpdate(bits: seq<bool>, k: nat, v: bool)
    requires k < |bits|
    ensures Count(bits[k := v]) + One(bits[k]) == Count(bits) + One(v)
  {
    if k == 0 {
      assert bits[k := v][1..] == bits[1..];
    } else {
      CountUpdate(bits[1..], k - 1, v);
      assert bits[k := v][1..] == bits[1..][k - 1 := v];
    }
  }

  /** Flipping a run of n equal bits changes the count by n. */
  lemma {:induction false} CountFill(bits: seq<bool>, s: nat, n: nat, v: bool)
    requires s + n <= |bits| && forall k :: s <= k < s + n ==> bits[k] == !v
    ensures if v then Count(Fill(bits, s, n, v)) == Count(bits) + n
            else Count(Fill(bits, s, n, v)) + n == Count(bits)
  {
    if n == 0 {
      assert Fill(bits, s, 0, v) == bits;
    } else {
      CountFill(bits, s, n - 1, v);
      CountUpdate(Fill(bits, s, n - 1, v), s + n - 1, v);
      assert Fill(bits, s, n, v) == Fill(bits, s, n - 1, v)[s + n - 1 := v];
    }
  }

  lemma {:induction false} CountMark(chunks: seq<Chunk>, i: nat, s: nat, n: nat, v: bool)
    requires i < |chunks| && s + n <= |chunks[i].bits|
    requires forall k :: s <= k < s + n ==> chunks[i].bits[k] == !v
    ensures if v then CountAll(Mark(chunks, i, s, n, v)) == CountAll(chunks) + n
            else CountAll(Mark(chunks, i, s, n, v)) + n == CountAll(chunks)
  {
    if i == 0 {
      CountFill(chunks[0].bits, s, n, v);
      assert Mark(chunks, 0, s, n, v)[1..] == chunks[1..];
    } else {
      CountMark(chunks[1..], i - 1, s, n, v);
      assert Mark(chunks, i, s, n, v)[1..] == Mark(chunks[1..], i - 1, s, n, v);
    }
  }

  lemma {:induction false} CountClear(bits: seq<bool>)
    requires true !in bits
    ensures Count(bits) == 0
  {
    if bits != [] { assert bits[0] in bits; CountClear(bits[1..]); }
  }

  lemma {:induction false} TotalAppend(live: seq<Extent>, e: Extent)
    ensures Total(live + [e]) == Total(live) + e.count
  {
    if live != [] {
      TotalAppend(live[1..], e);
      assert (live + [e])[1..] == live[1..] + [e];
    }
  }

  lemma {:induction false} TotalWithout(live: seq<Extent>, i: nat)
    requires i < |live|
    ensures Total(Without(live, i)) + live[i].count == Total(live)
  {
    if i == 0 {
      assert Without(live, 0) == live[1..];
    } else {
      TotalWithout(live[1..], i - 1);
      assert Without(live, i)[1..] == Without(live[1..], i - 1);
    }
  }

  /** No granule is lost or counted twice, whatever the run: the set bits are as many as the live
      extents' granules. */
  lemma {:induction false} RunConservesGranules(st: State, g: nat, ops: seq<Op>)
    requires g > 0 && Inv(st, g) && LegalRun(st, g, ops)
    requires CountAll(st.chunks) == Total(st.live)
    ensures CountAll(Run(st, g, ops).chunks) == Total(Run(st, g, ops).live)
    decreases |ops|
  {
    if ops != [] {
      StepKeepsInv(st, g, ops[0]);
      StepConserves(st, g, ops[0]);
      RunConservesGranules(Step(st, g, ops[0]), g, ops[1..]);
    }
  }

  /** In particular from gen_pool_create's empty pool on. */
  lemma {:induction false} EmptyPoolRuns(g: nat, ops: seq<Op>)
    requires g > 0 && LegalRun(State([], []), g, ops)
    ensures var end := Run(State([], []), g, ops); Inv(end, g) && CountAll(end.chunks) == Total(end.live)
  {
    RunKeepsInv(State([], []), g, ops);
    RunConservesGranules(State([], []), g, ops);
  }

  lemma {:induction false} StepConserves(st: State, g: nat, op: Op)
    requires g > 0 && Inv(st, g) && Legal(st, op) && CountAll(st.chunks) == Total(st.live)
    ensures CountAll(Step(st, g, op).chunks) == Total(Step(st, g, op).live)
  {
    match op {
      case Add(addr, size) => CountClear(NewChunk(g, addr, size).bits);
      case Take(size) => TakeConserves(st, g, size);
      case Give(which) => GiveConserves(st, g, which);
    }
  }

  lemma {:induction false} TakeConserves(st: State, g: nat, size: nat)
    requires g > 0 && Inv(st, g) && CountAll(st.chunks) == Total(st.live)
    ensures CountAll(Step(st, g, Take(size)).chunks) == Total(Step(st, g, Take(size)).live)
  {
    var n := Granules(size, g);
    if size == 0 || Choose(st.chunks, n).None? {
      assert st.live + [] == st.live;
    } else {
      var p := Choose(st.chunks, n).value;
      CountMark(st.chunks, p.chunk, p.slot, n, true);
      TotalAppend(st.live, Taken(st.chunks, g, size)[0]);
    }
  }

  lemma {:induction false} GiveConserves(st: State, g: nat, which: nat)
    requires g > 0 && Inv(st, g) && which < |st.live| && CountAll(st.chunks) == Total(st.live)
    ensures CountAll(Step(st, g, Give(which)).chunks) == Total(Step(st, g, Give(which)).live)
  {
    var e := st.live[which];
    var i: nat :| Inside(st.chunks, i, e);
    HolderIsBase(st.chunks, i, e, g);
    forall k | e.slot <= k < e.slot + e.count ensures st.chunks[i].bits[k] {
      assert e.Owns(st.chunks[i].start, k);
    }
    CountMark(st.chunks, i, e.slot, e.count, false);
    TotalWithout(st.live, which);
  }

  // ---------- what the invariant means for users of the memory ----------

  /** In any reachable pool each live extent's bytes lie inside its chunk with a granule to spare. */
  lemma LiveBytesInside(st: State, g: nat, i: nat)
    requires g > 0 && Inv(st, g) && i < |st.live|
    ensures exists h: nat :: h < |st.chunks| && st.chunks[h].start <= st.live[i].addr
              && st.live[i].addr + st.live[i].size + g <= st.chunks[h].start + st.chunks[h].size
  {
    var h: nat :| Inside(st.chunks, h, st.live[i]);
    BytesInside(st.chunks[h], st.live[i], g);
  }

  /** And no two live extents share a byte. */
  lemma {:induction false} LiveBytesAreApart(st: State, g: nat, i: nat, j: nat)
    requires g > 0 && Inv(st, g) && i < j < |st.live|
    ensures exists h: nat :: h < |st.chunks| && st.chunks[h].start <= st.live[i].addr
              && st.live[i].addr + st.live[i].size + g <= st.chunks[h].start + st.chunks[h].size
    ensures var a, b := st.live[i], st.live[j];
            a.addr + a.size <= b.addr || b.addr + b.size <= a.addr
  {
    var a, b := st.live[i], st.live[j];
    var h: nat :| Inside(st.chunks, h, a);
    var k: nat :| Inside(st.chunks, k, b);
    BytesInside(st.chunks[h], a, g);
    BytesInside(st.chunks[k], b, g);
    if a.base != b.base {
      if h < k {
        assert Apart(st.chunks[h], st.chunks[k].start, st.chunks[k].size);
      } else {
        assert Apart(st.chunks[k], st.chunks[h].start, st.chunks[h].size);
      }
    } else if a.slot + a.count <= b.slot {
      RunBeforeRun(a, b, g);
    } else {
      RunBeforeRun(b, a, g);
    }
  }

  lemma RunBeforeRun(a: Extent, b: Extent, g: nat)
    requires g > 0 && a.base == b.base && a.slot + a.count <= b.slot && a.AtSlot(g) && b.AtSlot(g)
    requires a.count == Granules(a.size, g)
    ensures a.addr + a.size <= b.addr
  {
    GranulesCover(a.size, g);
    MulMono(a.slot + a.count, b.slot, g);
    Distribute(a.slot, a.count, g);
  }

  /** A live extent's run of bits exists, as a free of it needs. */
  lemma LiveRunInBitmap(st: State, g: nat, which: nat)
    requires g > 0 && Inv(st, g) && which < |st.live|
    ensures RunInBitmap(st.chunks, g, st.live[which].addr, st.live[which].size)
  {
    var e := st.live[which];
    var i: nat :| Inside(st.chunks, i, e);
    HolderIsBase(st.chunks, i, e, g);
  }

  /** The last two granules of a chunk are never handed out. */
  lemma {:induction false} LastTwoStayClear(st: State, g: nat, i: nat, k: nat)
    requires g > 0 && Inv(st, g) && i < |st.chunks|
    requires |st.chunks[i].bits| <= k + 2 && k < |st.chunks[i].bits|
    ensures !st.chunks[i].bits[k]
  {
    if st.chunks[i].bits[k] {
      assert Covered(st.live, st.chunks[i].start, k);
      var j: nat :| j < |st.live| && st.live[j].Owns(st.chunks[i].start, k);
      var h: nat :| Inside(st.chunks, h, st.live[j]);
      if h != i { StartsDiffer(st.chunks, g, h, i); }
    }
  }

  // ---------- bits and bytes ----------

  /** Bytes addr to addr + size - 1 have one in common with granule k of a chunk at `start`. */
  predicate Touches(addr: nat, size: nat, start: nat, k: nat, g: nat) {
    addr < start + (k + 1) * g && start + k * g < addr + size
  }

  /** A run of granules is exactly those that the bytes asked for touch. */
  lemma {:induction false} RunIsTouched(start: nat, slot: nat, size: nat, k: nat, g: nat)
    requires g > 0 && size > 0
    ensures Touches(start + slot * g, size, start, k, g) <==> slot <= k < slot + Granules(size, g)
  {
    hide Granules;
    var n := Granules(size, g);
    GranulesCover(size, g);
    Distribute(slot, n - 1, g);
    Distribute(k, 0, g);
    if k < slot {
      MulMono(k + 1, slot, g);
    } else if k < slot + n {
      MulMono(slot, k, g);
      MulMono(k, slot + (n - 1), g);
    } else {
      MulMono(slot + n, k, g);
    }
  }

  /** In any reachable pool the set bits are exactly the granules that some live extent's bytes, at
      the address its caller was given, touch. */
  lemma {:induction false} SetBitsAreLiveBytes(st: State, g: nat, i: nat, k: nat)
    requires g > 0 && Inv(st, g) && i < |st.chunks| && k < |st.chunks[i].bits|
    ensures st.chunks[i].bits[k] <==>
            exists j :: 0 <= j < |st.live| && Touches(st.live[j].addr, st.live[j].size, st.chunks[i].start, k, g)
  {
    hide Touches, Granules;
    forall j | 0 <= j < |st.live|
      ensures st.live[j].Owns(st.chunks[i].start, k) <==>
              Touches(st.live[j].addr, st.live[j].size, st.chunks[i].start, k, g)
    {
      OwnsWhatItTouches(st, g, i, k, j);
    }
  }

  lemma {:induction false} OwnsWhatItTouches(st: State, g: nat, i: nat, k: nat, j: nat)
    requires g > 0 && Inv(st, g) && i < |st.chunks| && k < |st.chunks[i].bits| && j < |st.live|
    ensures st.live[j].Owns(st.chunks[i].start, k) <==>
            Touches(st.live[j].addr, st.live[j].size, st.chunks[i].start, k, g)
  {
    var e, c := st.live[j], st.chunks[i];
    var h: nat :| Inside(st.chunks, h, e);
    if h == i {
      RunIsTouched(c.start, e.slot, e.size, k, g);
    } else {
      StartsDiffer(st.chunks, g, h, i);
      BytesInside(st.chunks[h], e, g);
      MulMono(k + 1, |c.bits|, g);
      FloorBound(c.size, g);
      if h < i {
        assert Apart(st.chunks[h], c.start, c.size);
      } else {
        assert Apart(c, st.chunks[h].start, st.chunks[h].size);
      }
      MulMono(0, k, g);
    }
  }

  /** What an allocation of `size` bytes at addr in chunk h does: the bits it sets are exactly those
      of the granules its bytes touch, all clear before and all there; addr is where the lowest of
      them starts, and neither an earlier chunk nor a lower start would have done. */
  ghost predicate HandsOut(before: seq<Chunk>, after: seq<Chunk>, h: nat, g: nat, size: nat, addr: nat)
    requires g > 0
  {
    && h < |before| && |after| == |before|
    && (forall i :: 0 <= i < |before| && i != h ==> after[i] == before[i])
    && (var c, d := before[h], after[h];
        && d == c.(bits := d.bits) && |d.bits| == |c.bits|
        && (forall k :: 0 <= k < |c.bits| ==> d.bits[k] == (c.bits[k] || Touches(addr, size, c.start, k, g)))
        && (forall k: nat :: Touches(addr, size, c.start, k, g) ==> k < |c.bits| && !c.bits[k])
        && c.start <= addr && (addr - c.start) % g == 0
        && IsFirstFit(c.bits, Granules(size, g), (addr - c.start) / g))
    && forall i :: 0 <= i < h ==> NoFit(before[i].bits, Granules(size, g))
  }

  /** The address an allocation returns is that of the granules it marks. */
  lemma {:induction false} AddressIsTheRun(chunks: seq<Chunk>, g: nat, size: nat)
    requires g > 0 && size > 0
    requires exists i :: 0 <= i < |chunks| && !NoFit(chunks[i].bits, Granules(size, g))
    ensures var (after, addr) := Alloc(chunks, g, size); exists h: nat :: HandsOut(chunks, after, h, g, size, addr)
  {
    hide Touches, Granules, NoFit;
    var p := Choose(chunks, Granules(size, g)).value;
    var (after, addr) := Alloc(chunks, g, size);
    var start := chunks[p.chunk].start;
    forall k: nat ensures Touches(addr, size, start, k, g) <==> p.slot <= k < p.slot + Granules(size, g) {
      RunIsTouched(start, p.slot, size, k, g);
    }
    SlotOfAddr(p.slot, g);
    assert HandsOut(chunks, after, p.chunk, g, size, addr);
  }

  /** Destroying the pool trips its BUG_ON exactly when something is still allocated. */
  lemma {:induction false} DestroyTripsIffLive(st: State, g: nat)
    requires g > 0 && Inv(st, g)
    ensures InUse(st.chunks) <==> st.live != []
  {
    if st.live != [] {
      var e := st.live[0];
      var i: nat :| Inside(st.chunks, i, e);
      GranulesCover(e.size, g);
      assert e.Owns(st.chunks[i].start, e.slot);
      assert st.chunks[i].bits[e.slot];
    }
    if i :| 0 <= i < |st.chunks| && true in st.chunks[i].bits {
      var k :| 0 <= k < |st.chunks[i].bits| && st.chunks[i].bits[k];
      assert Covered(st.live, st.chunks[i].start, k);
    }
  }

  /** A returned 0 means that there was no room, except for the first granule of a chunk that
      itself starts at address 0. */
  lemma {:induction false} ZeroMeansNoRoom(chunks: seq<Chunk>, g: nat, size: nat)
    requires g > 0
    ensures Alloc(chunks, g, size).1 == 0 <==>
            || size == 0
            || (forall i :: 0 <= i < |chunks| ==> NoFit(chunks[i].bits, Granules(size, g)))
            || (var p := Choose(chunks, Granules(size, g)).value;
                chunks[p.chunk].start == 0 && p.slot == 0)
  {
    var n := Granules(size, g);
    match Choose(chunks, n) {
      case None =>
      case Some(p) =>
        assert Fits(chunks[p.chunk].bits, n, p.slot);
        if p.slot > 0 { MulMono(1, p.slot, g); }
    }
  }

  /** Memory added last is handed out first: a request that fits into a new chunk gets its start. */
  lemma {:induction false} NewestChunkFirst(chunks: seq<Chunk>, g: nat, addr: nat, size: nat, request: nat)
    requires g > 0 && request > 0 && Granules(request, g) + 1 < size / g
    ensures Alloc(AddChunk(chunks, g, addr, size), g, request).1 == addr
  {
    hide Granules, Mark;
    var all := AddChunk(chunks, g, addr, size);
    var c := NewChunk(g, addr, size);
    assert all[0] == c;
    assert Fits(c.bits, Granules(request, g), 0);
    assert FirstFrom(all[0].bits, Granules(request, g), 0) == Some(0);
  }

  // ---------- free undoes alloc ----------

  /** Allocating and freeing the same size restores every bit; so an equal request made next
      gets the same address again. */
  lemma {:induction false} FreeUndoesAlloc(chunks: seq<Chunk>, g: nat, size: nat)
    requires g > 0 && WellFormed(chunks, g) && size > 0
    requires Choose(chunks, Granules(size, g)).Some?
    ensures var (after, addr) := Alloc(chunks, g, size);
            && after != chunks
            && Free(after, g, addr, size) == (chunks, Freed)
            && Alloc(Free(after, g, addr, size).0, g, size) == (after, addr)
  {
    var n := Granules(size, g);
    var p := Choose(chunks, n).value;
    var e := Taken(chunks, g, size)[0];
    var after := Mark(chunks, p.chunk, p.slot, n, true);
    GranulesCover(size, g);
    assert Inside(after, p.chunk, e);
    HolderIsBase(after, p.chunk, e, g);
    assert after[p.chunk].bits[p.slot] && !chunks[p.chunk].bits[p.slot];
    var back := Mark(after, p.chunk, p.slot, n, false);
    assert back[p.chunk].bits == chunks[p.chunk].bits;
    assert back == chunks;
  }

  /** A free looks at the first chunk whose range holds the address, and only there. It trips over a
      range that runs past that chunk's end; else it clears exactly the granules from the one the
      address lies in, as many as the size rounds up to. */
  lemma {:induction false} FreeInFirstHolder(chunks: seq<Chunk>, g: nat, addr: nat, size: nat, i: nat)
    requires g > 0 && i < |chunks| && chunks[i].start <= addr < chunks[i].start + chunks[i].size
    requires forall j :: 0 <= j < i ==> addr < chunks[j].start || chunks[j].start + chunks[j].size <= addr
    ensures var c, (after, outcome) := chunks[i], Free(chunks, g, addr, size);
            if addr + size > c.start + c.size then outcome == PastEnd && after == chunks
            else
              && outcome == Freed && |after| == |chunks|
              && (forall j :: 0 <= j < |chunks| && j != i ==> after[j] == chunks[j])
              && after[i] == c.(bits := after[i].bits) && |after[i].bits| == |c.bits|
              && forall k :: 0 <= k < |c.bits| ==>
                   after[i].bits[k] ==
                     (c.bits[k] && !((addr - c.start) / g <= k < (addr - c.start) / g + Granules(size, g)))
  {
    hide Granules;
    assert Holder(chunks, addr) == i;
  }

  /** An address that no chunk holds is one outcome for any bytes, another for none. */
  lemma {:induction false} FreeOutside(chunks: seq<Chunk>, g: nat, addr: nat, size: nat)
    requires g > 0
    requires forall j :: 0 <= j < |chunks| ==> addr < chunks[j].start || chunks[j].start + chunks[j].size <= addr
    ensures Free(chunks, g, addr, size) == (chunks, if size > 0 then NoChunk else Freed)
  {
    assert Holder(chunks, addr) == |chunks|;
  }

  // ---------- frees in any order ----------

  function FreeAll(chunks: seq<Chunk>, g: nat, es: seq<Extent>): (seq<Chunk>, bool)
    requires g > 0
    decreases |es|
  {
    if es == [] then (chunks, true)
    else
      var (next, outcome) := Free(chunks, g, es[0].addr, es[0].size);
      var (last, ok) := FreeAll(next, g, es[1..]);
      (last, outcome == Freed && ok)
  }

  ghost predicate AllPlaced(chunks: seq<Chunk>, g: nat, es: seq<Extent>)
    requires g > 0
  {
    forall e :: e in es ==> e.count == Granules(e.size, g) && e.AtSlot(g) && Placed(chunks, e)
  }

  /** Freeing a list of extents trips no check and clears exactly their granules. */
  lemma {:induction false} FreeAllClears(chunks: seq<Chunk>, g: nat, es: seq<Extent>)
    requires g > 0 && WellFormed(chunks, g) && AllPlaced(chunks, g, es)
    ensures var (after, ok) := FreeAll(chunks, g, es);
            && ok
            && |after| == |chunks|
            && forall i :: 0 <= i < |chunks| ==>
                 && after[i].start == chunks[i].start && after[i].size == chunks[i].size
                 && |after[i].bits| == |chunks[i].bits|
                 && forall k :: 0 <= k < |chunks[i].bits| ==>
                      (after[i].bits[k] <==> chunks[i].bits[k] && !Covered(es, chunks[i].start, k))
    decreases |es|
  {
    if es != [] {
      var e := es[0];
      var i: nat :| Inside(chunks, i, e);
      HolderIsBase(chunks, i, e, g);
      var next := Mark(chunks, i, e.slot, e.count, false);
      assert es[0] in es;
      forall f | f in es[1..] ensures Placed(next, f) {
        var h: nat :| Inside(chunks, h, f);
        assert Inside(next, h, f);
      }
      FreeAllClears(next, g, es[1..]);
      forall j, k | 0 <= j < |chunks| && 0 <= k < |chunks[j].bits|
        ensures FreeAll(chunks, g, es).0[j].bits[k] <==>
                chunks[j].bits[k] && !Covered(es, chunks[j].start, k)
      {
        if j != i { StartsDiffer(chunks, g, j, i); }
        CoveredByFirst(es, chunks[j].start, k);
      }
    }
  }

  lemma CoveredByFirst(es: seq<Extent>, base: nat, k: nat)
    requires es != []
    ensures Covered(es, base, k) <==> es[0].Owns(base, k) || Covered(es[1..], base, k)
  {
    if j :| 0 <= j < |es[1..]| && es[1..][j].Owns(base, k) { assert es[j + 1].Owns(base, k); }
    if j :| 0 <= j < |es| && es[j].Owns(base, k) && j != 0 { assert es[1..][j - 1].Owns(base, k); }
  }

  /** Live extents can be freed in any order: no check fires and the pool ends the same. */
  lemma {:induction false} FreeOrderIsIrrelevant(st: State, g: nat, es: seq<Extent>, fs: seq<Extent>)
    requires g > 0 && Inv(st, g)
    requires forall e :: e in es ==> e in st.live
    requires multiset(es) == multiset(fs)
    ensures FreeAll(st.chunks, g, es).1 && FreeAll(st.chunks, g, fs) == FreeAll(st.chunks, g, es)
  {
    hide FreeAll, Covered, Granules, BitsMatch;
    forall e ensures e in es <==> e in fs {
      assert e in es <==> e in multiset(es);
      assert e in fs <==> e in multiset(fs);
    }
    FreeAllClears(st.chunks, g, es);
    FreeAllClears(st.chunks, g, fs);
    var a, b := FreeAll(st.chunks, g, es).0, FreeAll(st.chunks, g, fs).0;
    forall i, k | 0 <= i < |a| && 0 <= k < |a[i].bits| ensures a[i].bits[k] == b[i].bits[k] {
      SameCover(es, fs, st.chunks[i].start, k);
      SameCover(fs, es, st.chunks[i].start, k);
    }
    forall i | 0 <= i < |a| ensures a[i] == b[i] {
      assert a[i].bits == b[i].bits;
    }
    assert a == b;
  }

  lemma SameCover(es: seq<Extent>, fs: seq<Extent>, base: nat, k: nat)
    requires forall e :: e in es ==> e in fs
    ensures Covered(es, base, k) ==> Covered(fs, base, k)
  {
    if j :| 0 <= j < |es| && es[j].Owns(base, k) {
      assert es[j] in fs;
      var i :| 0 <= i < |fs| && fs[i] == es[j];
      assert fs[i].Owns(base, k);
    }
  }
}
