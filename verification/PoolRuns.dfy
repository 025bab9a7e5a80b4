/** Whole runs of the pool: chunks are added, extents allocated and freed in any order. */
module PoolRuns {
  import opened Lists
  import opened PoolSpec

  /** A live allocation: what the caller holds, the address it was given and the size it asked for,
      and behind that `count` granules from granule `slot` of the chunk that starts at `base`. */
  datatype Extent = Extent(base: nat, slot: nat, count: nat, addr: nat, size: nat) {
    predicate AtSlot(g: nat) { addr == base + slot * g }

    predicate Owns(chunk: nat, k: nat) { base == chunk && slot <= k < slot + count }
  }

  datatype State = State(chunks: seq<Chunk>, live: seq<Extent>)

  datatype Op = Add(addr: nat, size: nat) | Take(size: nat) | Give(which: nat)

  /** Memory is added once, and only live extents are freed. */
  predicate Legal(st: State, op: Op) {
    match op
    case Add(addr, size) => forall i :: 0 <= i < |st.chunks| ==> Apart(st.chunks[i], addr, size)
    case Take(_) => true
    case Give(which) => which < |st.live|
  }

  predicate Apart(c: Chunk, addr: nat, size: nat) {
    c.start + c.size <= addr || addr + size <= c.start
  }

  /** The extent an allocation of this size creates, at the address the caller gets. */
  function Taken(chunks: seq<Chunk>, g: nat, size: nat): seq<Extent>
    requires g > 0
  {
    var n := Granules(size, g);
    if size == 0 then []
    else
      match Choose(chunks, n)
      case None => []
      case Some(p) => [Extent(chunks[p.chunk].start, p.slot, n, Alloc(chunks, g, size).1, size)]
  }

  function Step(st: State, g: nat, op: Op): State
    requires g > 0 && Legal(st, op)
  {
    match op
    case Add(addr, size) => st.(chunks := AddChunk(st.chunks, g, addr, size))
    case Take(size) => State(Alloc(st.chunks, g, size).0, st.live + Taken(st.chunks, g, size))
    case Give(which) =>
      var e := st.live[which];
      State(Free(st.chunks, g, e.addr, e.size).0, Without(st.live, which))
  }

  predicate LegalRun(st: State, g: nat, ops: seq<Op>)
    requires g > 0
    decreases |ops|
  {
    ops == [] || (Legal(st, ops[0]) && LegalRun(Step(st, g, ops[0]), g, ops[1..]))
  }

  function Run(st: State, g: nat, ops: seq<Op>): State
    requires g > 0 && LegalRun(st, g, ops)
    decreases |ops|
  {
    if ops == [] then st else Run(Step(st, g, ops[0]), g, ops[1..])
  }

  // ---------- the invariant ----------

  predicate WellFormed(chunks: seq<Chunk>, g: nat)
    requires g > 0
  {
    && (forall i :: 0 <= i < |chunks| ==> |chunks[i].bits| == chunks[i].size / g)
    && (forall i, j :: 0 <= i < j < |chunks| ==> Apart(chunks[i], chunks[j].start, chunks[j].size))
  }

  /** Where e lives: inside a chunk, short of the chunk's last two granules. */
  predicate Inside(chunks: seq<Chunk>, i: nat, e: Extent) {
    i < |chunks| && chunks[i].start == e.base && e.slot + e.count + 1 < |chunks[i].bits|
  }

  ghost predicate Placed(chunks: seq<Chunk>, e: Extent) {
    exists i :: Inside(chunks, i, e)
  }

  predicate Disjoint(a: Extent, b: Extent) {
    a.base != b.base || a.slot + a.count <= b.slot || b.slot + b.count <= a.slot
  }

  predicate Covered(live: seq<Extent>, base: nat, k: nat) {
    exists j :: 0 <= j < |live| && live[j].Owns(base, k)
  }

  /** A chunk's set bits are exactly the granules of the live extents. */
  predicate BitsMatch(chunks: seq<Chunk>, live: seq<Extent>) {
    forall i, k :: 0 <= i < |chunks| && 0 <= k < |chunks[i].bits| ==>
      (chunks[i].bits[k] <==> Covered(live, chunks[i].start, k))
  }

  ghost predicate Inv(st: State, g: nat)
    requires g > 0
  {
    && WellFormed(st.chunks, g)
    && (forall j :: 0 <= j < |st.live| ==>
          && st.live[j].size > 0
          && st.live[j].count == Granules(st.live[j].size, g)
          && st.live[j].AtSlot(g)
          && Placed(st.chunks, st.live[j]))
    && (forall j, k :: 0 <= j < k < |st.live| ==> Disjoint(st.live[j], st.live[k]))
    && BitsMatch(st.chunks, st.live)
  }

  // ---------- arithmetic of granules ----------

  lemma GranulesCover(size: nat, g: nat)
    requires g > 0
    ensures size <= Granules(size, g) * g < size + g
    ensures size > 0 ==> Granules(size, g) > 0
  {
    var q, r := (size + g - 1) / g, (size + g - 1) % g;
    assert size + g - 1 == q * g + r;
    if q == 0 { assert q * g == 0; }
  }

  lemma MulMono(a: nat, b: nat, g: nat)
    requires a <= b
    ensures a * g <= b * g
  {}

  lemma FloorBound(size: nat, g: nat)
    requires g > 0
    ensures size / g * g <= size
  {}

  lemma Distribute(a: nat, b: nat, g: nat)
    ensures (a + b) * g == a * g + b * g
    ensures (a + b + 1) * g == a * g + b * g + g
  {}

  /** An address made from a slot falls back into that slot. */
  lemma SlotOfAddr(slot: nat, g: nat)
    requires g > 0
    ensures slot * g / g == slot
  {
    var q, r := slot * g / g, slot * g % g;
    assert (slot - q) * g == r;
    if slot > q { MulMono(1, slot - q, g); }
  }

  /** A placed extent's bytes end before its chunk does. */
  lemma BytesInside(c: Chunk, e: Extent, g: nat)
    requires g > 0 && |c.bits| == c.size / g && c.start == e.base && e.AtSlot(g)
    requires e.slot + e.count + 1 < |c.bits| && e.count == Granules(e.size, g)
    ensures c.start <= e.addr && e.addr + e.size + g <= c.start + c.size
  {
    GranulesCover(e.size, g);
    MulMono(e.slot + e.count + 1, |c.bits|, g);
    FloorBound(c.size, g);
    Distribute(e.slot, e.count, g);
  }

  /** The chunk found by address is the extent's own. */
  lemma {:induction false} HolderIsBase(chunks: seq<Chunk>, i: nat, e: Extent, g: nat)
    requires g > 0 && WellFormed(chunks, g) && Inside(chunks, i, e)
    requires e.count == Granules(e.size, g) && e.AtSlot(g)
    ensures Holder(chunks, e.addr) == i
    ensures e.addr + e.size <= chunks[i].start + chunks[i].size
    ensures Slot(chunks[i], e.addr, g) == e.slot
  {
    BytesInside(chunks[i], e, g);
    SlotOfAddr(e.slot, g);
    assert Holds(chunks[i], e.addr);
  }

  /** Chunks with a bit to their name start at different addresses. */
  lemma StartsDiffer(chunks: seq<Chunk>, g: nat, i: nat, j: nat)
    requires g > 0 && WellFormed(chunks, g) && i < |chunks| && j < |chunks| && i != j
    requires |chunks[i].bits| > 0 && |chunks[j].bits| > 0
    ensures chunks[i].start != chunks[j].start
  {
    if i < j {
      assert Apart(chunks[i], chunks[j].start, chunks[j].size);
    } else {
      assert Apart(chunks[j], chunks[i].start, chunks[i].size);
    }
  }

  // ---------- each step keeps the invariant ----------

  lemma {:induction false} AddKeepsInv(st: State, g: nat, addr: nat, size: nat)
    requires g > 0 && Inv(st, g) && Legal(st, Add(addr, size))
    ensures Inv(Step(st, g, Add(addr, size)), g)
  {
    LinkKeepsInv(st, g, NewChunk(g, addr, size));
  }

  lemma BitsNeedBytes(c: Chunk, g: nat)
    requires g > 0 && |c.bits| == c.size / g
    ensures |c.bits| > 0 ==> c.size > 0
  {}

  lemma {:induction false} LinkKeepsInv(st: State, g: nat, c: Chunk)
    requires g > 0 && Inv(st, g) && |c.bits| == c.size / g && true !in c.bits
    requires forall i :: 0 <= i < |st.chunks| ==> Apart(st.chunks[i], c.start, c.size)
    ensures Inv(st.(chunks := [c] + st.chunks), g)
  {
    var chunks := [c] + st.chunks;
    assert forall i :: 0 < i < |chunks| ==> chunks[i] == st.chunks[i - 1];
    forall j | 0 <= j < |st.live| ensures Placed(chunks, st.live[j]) {
      var i: nat :| Inside(st.chunks, i, st.live[j]);
      assert Inside(chunks, i + 1, st.live[j]);
    }
    BitsNeedBytes(c, g);
    forall j, k | 0 <= j < |st.live| && 0 <= k < |c.bits| ensures !st.live[j].Owns(c.start, k) {
      var i: nat :| Inside(st.chunks, i, st.live[j]);
      BitsNeedBytes(st.chunks[i], g);
      assert Apart(st.chunks[i], c.start, c.size);
    }
  }

  lemma {:induction false} TakeKeepsInv(st: State, g: nat, size: nat)
    requires g > 0 && Inv(st, g)
    ensures Inv(Step(st, g, Take(size)), g)
  {
    var n := Granules(size, g);
    if size == 0 || Choose(st.chunks, n).None? {
      assert st.live + [] == st.live;
    } else {
      GranulesCover(size, g);
      var p := Choose(st.chunks, n).value;
      MarkKeepsInv(st, g, p.chunk, p.slot, n, size);
    }
  }

  lemma {:induction false} MarkKeepsInv(st: State, g: nat, i: nat, s: nat, n: nat, size: nat)
    requires g > 0 && Inv(st, g) && i < |st.chunks| && Fits(st.chunks[i].bits, n, s)
    requires size > 0 && n == Granules(size, g) && n > 0
    ensures Inv(State(Mark(st.chunks, i, s, n, true),
                      st.live + [Extent(st.chunks[i].start, s, n, st.chunks[i].start + s * g, size)]), g)
  {
    var e := Extent(st.chunks[i].start, s, n, st.chunks[i].start + s * g, size);
    var chunks := Mark(st.chunks, i, s, n, true);
    var live := st.live + [e];
    forall j | 0 <= j < |live| ensures Placed(chunks, live[j]) {
      if j < |st.live| {
        var h: nat :| Inside(st.chunks, h, live[j]);
        assert Inside(chunks, h, live[j]);
      } else {
        assert Inside(chunks, i, e);
      }
    }
    forall j | 0 <= j < |st.live| ensures Disjoint(live[j], e) {
      FreeRunIsUnowned(st, g, i, s, n, j);
    }
    forall h, k | 0 <= h < |chunks| && 0 <= k < |chunks[h].bits|
      ensures chunks[h].bits[k] <==> Covered(live, chunks[h].start, k)
    {
      if h != i { StartsDiffer(st.chunks, g, h, i); }
      CoveredByMore(st.live, e, chunks[h].start, k);
    }
  }

  lemma CoveredByMore(live: seq<Extent>, e: Extent, base: nat, k: nat)
    ensures Covered(live + [e], base, k) <==> Covered(live, base, k) || e.Owns(base, k)
  {
    var more := live + [e];
    if e.Owns(base, k) { assert more[|live|].Owns(base, k); }
    if j :| 0 <= j < |live| && live[j].Owns(base, k) { assert more[j].Owns(base, k); }
  }

  /** A run of clear bits meets no live extent. */
  lemma FreeRunIsUnowned(st: State, g: nat, i: nat, s: nat, n: nat, j: nat)
    requires g > 0 && Inv(st, g) && i < |st.chunks| && Fits(st.chunks[i].bits, n, s)
    requires j < |st.live|
    ensures n == 0 || Disjoint(st.live[j], Extent(st.chunks[i].start, s, n, 0, 0))
  {
    hide BitsMatch;
    var e := st.live[j];
    GranulesCover(e.size, g);
    if n > 0 && e.base == st.chunks[i].start && e.slot < s + n && s < e.slot + e.count {
      OwnedIsSet(st, g, i, if e.slot < s then s else e.slot, j);
    }
  }

  lemma OwnedIsSet(st: State, g: nat, i: nat, k: nat, j: nat)
    requires g > 0 && Inv(st, g) && i < |st.chunks| && k < |st.chunks[i].bits|
    requires j < |st.live| && st.live[j].Owns(st.chunks[i].start, k)
    ensures st.chunks[i].bits[k]
  {
    assert Covered(st.live, st.chunks[i].start, k);
  }

  lemma {:induction false} GiveKeepsInv(st: State, g: nat, which: nat)
    requires g > 0 && Inv(st, g) && which < |st.live|
    ensures Inv(Step(st, g, Give(which)), g)
    ensures Free(st.chunks, g, st.live[which].addr, st.live[which].size).1 == Freed
  {
    var e := st.live[which];
    var i: nat :| Inside(st.chunks, i, e);
    HolderIsBase(st.chunks, i, e, g);
    UnmarkKeepsInv(st, g, which, i);
  }

  lemma {:induction false} UnmarkKeepsInv(st: State, g: nat, which: nat, i: nat)
    requires g > 0 && Inv(st, g) && which < |st.live| && Inside(st.chunks, i, st.live[which])
    ensures Inv(State(Mark(st.chunks, i, st.live[which].slot, st.live[which].count, false),
                      Without(st.live, which)), g)
  {
    var e := st.live[which];
    var chunks := Mark(st.chunks, i, e.slot, e.count, false);
    var live := Without(st.live, which);
    assert forall j :: 0 <= j < |live| ==> live[j] == st.live[if j < which then j else j + 1];
    forall j | 0 <= j < |live| ensures Placed(chunks, live[j]) {
      var h: nat :| Inside(st.chunks, h, live[j]);
      assert Inside(chunks, h, live[j]);
    }
    forall h, k | 0 <= h < |chunks| && 0 <= k < |chunks[h].bits|
      ensures chunks[h].bits[k] <==> Covered(live, chunks[h].start, k)
    {
      if h != i { StartsDiffer(st.chunks, g, h, i); }
      CoveredByRest(st.live, which, chunks[h].start, k);
    }
  }

  lemma CoveredByRest(live: seq<Extent>, which: nat, base: nat, k: nat)
    requires which < |live|
    requires forall i, j :: 0 <= i < j < |live| ==> Disjoint(live[i], live[j])
    ensures Covered(Without(live, which), base, k) <==>
            Covered(live, base, k) && !live[which].Owns(base, k)
  {
    var rest := Without(live, which);
    if j :| 0 <= j < |rest| && rest[j].Owns(base, k) {
      assert live[if j < which then j else j + 1].Owns(base, k);
    }
    if j :| 0 <= j < |live| && live[j].Owns(base, k) && j != which {
      assert rest[if j < which then j else j - 1].Owns(base, k);
    }
  }

  lemma {:induction false} StepKeepsInv(st: State, g: nat, op: Op)
    requires g > 0 && Inv(st, g) && Legal(st, op)
    ensures Inv(Step(st, g, op), g)
  {
    match op {
      case Add(addr, size) => AddKeepsInv(st, g, addr, size);
      case Take(size) => TakeKeepsInv(st, g, size);
      case Give(which) => GiveKeepsInv(st, g, which);
    }
  }

  /** Every run, from any good pool (the empty one, say), keeps the set bits equal to the live
      extents, which stay inside their chunks and apart from each other. */
  lemma {:induction false} RunKeepsInv(st: State, g: nat, ops: seq<Op>)
    requires g > 0 && Inv(st, g) && LegalRun(st, g, ops)
    ensures Inv(Run(st, g, ops), g)
    decreases |ops|
  {
    if ops != [] {
      StepKeepsInv(st, g, ops[0]);
      RunKeepsInv(Step(st, g, ops[0]), g, ops[1..]);
    }
  }
}
