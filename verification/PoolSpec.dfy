/** What the card-memory pool computes, on values: a pool is a list of chunks, a chunk a
    bitmap with one bit for every granule of 2^order bytes. */
module PoolSpec {

  datatype Option<+T> = None | Some(value: T)

  datatype Chunk = Chunk(start: nat, size: nat, bits: seq<bool>)

  /** A chunk of the list, and the first granule of a run inside it. */
  datatype Place = Place(chunk: nat, slot: nat)

  function Granules(size: nat, g: nat): nat
    requires g > 0
  {
    (size + g - 1) / g
  }

  /** The run of n granules at s is all clear, and ends before the chunk's last granule but one:
      the scan stops at total - (n + 1), so the two last granules stay out of reach. */
  predicate Fits(bits: seq<bool>, n: nat, s: nat) {
    s + n + 1 < |bits| && forall k :: s <= k < s + n ==> !bits[k]
  }

  predicate IsFirstFit(bits: seq<bool>, n: nat, s: nat) {
    Fits(bits, n, s) && forall t :: 0 <= t < s ==> !Fits(bits, n, t)
  }

  predicate NoFit(bits: seq<bool>, n: nat) {
    forall t :: 0 <= t < |bits| ==> !Fits(bits, n, t)
  }

  /** Plain first fit: try every start in turn. */
  function FirstFrom(bits: seq<bool>, n: nat, s: nat): (r: Option<nat>)
    requires s <= |bits|
    requires forall t :: 0 <= t < s ==> !Fits(bits, n, t)
    ensures r.Some? ==> IsFirstFit(bits, n, r.value)
    ensures r.None? ==> NoFit(bits, n)
    decreases |bits| - s
  {
    if s == |bits| then None
    else if Fits(bits, n, s) then Some(s)
    else FirstFrom(bits, n, s + 1)
  }

  /** The first chunk, in list order, with room, and the lowest start in it. */
  function Choose(chunks: seq<Chunk>, n: nat): (r: Option<Place>)
    ensures r.Some? ==>
              && r.value.chunk < |chunks|
              && IsFirstFit(chunks[r.value.chunk].bits, n, r.value.slot)
              && forall i :: 0 <= i < r.value.chunk ==> NoFit(chunks[i].bits, n)
    ensures r.None? ==> forall i :: 0 <= i < |chunks| ==> NoFit(chunks[i].bits, n)
  {
    if chunks == [] then None
    else
      match FirstFrom(chunks[0].bits, n, 0)
      case Some(s) => Some(Place(0, s))
      case None =>
        match Choose(chunks[1..], n)
        case Some(p) => Some(Place(p.chunk + 1, p.slot))
        case None => None
  }

  /** Bits s to s + n - 1 set to v. */
  function Fill(bits: seq<bool>, s: nat, n: nat, v: bool): (r: seq<bool>)
    ensures |r| == |bits|
    ensures forall k :: 0 <= k < |r| ==> r[k] == if s <= k < s + n then v else bits[k]
  {
    seq(|bits|, k requires 0 <= k < |bits| => if s <= k < s + n then v else bits[k])
  }

  function Mark(chunks: seq<Chunk>, i: nat, s: nat, n: nat, v: bool): seq<Chunk>
    requires i < |chunks|
  {
    chunks[i := chunks[i].(bits := Fill(chunks[i].bits, s, n, v))]
  }

  function NewChunk(g: nat, addr: nat, size: nat): Chunk
    requires g > 0
  {
    Chunk(addr, size, seq(size / g, _ => false))
  }

  /** New chunks go to the head of the list. */
  function AddChunk(chunks: seq<Chunk>, g: nat, addr: nat, size: nat): seq<Chunk>
    requires g > 0
  {
    [NewChunk(g, addr, size)] + chunks
  }

  /** The new pool and the address handed out; 0 when there is no room or nothing was asked for. */
  function Alloc(chunks: seq<Chunk>, g: nat, size: nat): (seq<Chunk>, nat)
    requires g > 0
  {
    var n := Granules(size, g);
    if size == 0 then (chunks, 0)
    else
      match Choose(chunks, n)
      case None => (chunks, 0)
      case Some(p) => (Mark(chunks, p.chunk, p.slot, n, true), chunks[p.chunk].start + p.slot * g)
  }

  predicate Holds(c: Chunk, addr: nat) {
    c.start <= addr < c.start + c.size
  }

  /** The granule of the chunk that addr lies in. */
  function Slot(c: Chunk, addr: nat, g: nat): nat
    requires g > 0 && c.start <= addr
  {
    (addr - c.start) / g
  }

  /** The first chunk whose range holds addr, or the number of chunks. */
  function Holder(chunks: seq<Chunk>, addr: nat): (i: nat)
    ensures i <= |chunks|
    ensures i < |chunks| ==> Holds(chunks[i], addr)
    ensures forall j :: 0 <= j < i ==> !Holds(chunks[j], addr)
  {
    if chunks == [] || Holds(chunks[0], addr) then 0 else 1 + Holder(chunks[1..], addr)
  }

  /** How a free ends: the two BUG_ON checks are outcomes. */
  datatype FreeOutcome = Freed | PastEnd | NoChunk

  function Free(chunks: seq<Chunk>, g: nat, addr: nat, size: nat): (seq<Chunk>, FreeOutcome)
    requires g > 0
  {
    var i := Holder(chunks, addr);
    if i == |chunks| then (chunks, if size > 0 then NoChunk else Freed)
    else if addr + size > chunks[i].start + chunks[i].size then (chunks, PastEnd)
    else (Mark(chunks, i, Slot(chunks[i], addr, g), Granules(size, g), false), Freed)
  }

  /** The run of bits a free of these arguments clears exists. */
  predicate RunInBitmap(chunks: seq<Chunk>, g: nat, addr: nat, size: nat)
    requires g > 0
  {
    var i := Holder(chunks, addr);
    i < |chunks| && addr + size <= chunks[i].start + chunks[i].size ==>
      Slot(chunks[i], addr, g) + Granules(size, g) <= |chunks[i].bits|
  }

  /** Destroying the pool trips over the first chunk with a bit still set. */
  predicate InUse(chunks: seq<Chunk>) {
    exists i :: 0 <= i < |chunks| && true in chunks[i].bits
  }
}
