/** The playback ring and the memory pool side by side: neither can reach the other's memory. */
module AlsaRuns {
  import opened AlsaSpec
  import opened CardMemory
  import PoolLaws
  import PoolRuns

  const POOL_BASE: nat := 0x100000
  const GRANULE: nat := 64

  /** Playback on the left, users of the pool on the right. */
  datatype Event =
    | Prepare(f: Format) | Start | Copy(pos: nat, src: seq<bv32>) | Silence(pos: nat, count: nat)
    | Take(size: nat) | Give(which: nat) | Store(which: nat, offset: nat, value: bv32)
  {
    predicate Playback() { Prepare? || Start? || Copy? || Silence? }
  }

  datatype System = System(mem: seq<bv32>, format: Format, pool: PoolRuns.State)

  /** The ALSA core keeps frames inside the buffer it was given; pool users keep to their extents
      and off the word just past the end of memory, which the write guard lets through. */
  predicate Legal(s: System, e: Event) {
    match e
    case Prepare(f) => f.Allowed()
    case Start => true
    case Copy(pos, src) => 4 * (pos + |src|) <= s.format.Bytes()
    case Silence(pos, count) => 4 * (pos + count) <= s.format.Bytes()
    case Take(_) => true
    case Give(which) => which < |s.pool.live|
    case Store(which, offset, value) =>
      && which < |s.pool.live| && offset % 4 == 0 && offset + 4 <= s.pool.live[which].size
      && Target(s, which, offset) != 4 * |s.mem|
  }

  function Target(s: System, which: nat, offset: nat): nat
    requires which < |s.pool.live|
  {
    s.pool.live[which].addr + offset
  }

  function Step(s: System, e: Event): System
    requires Legal(s, e)
  {
    match e
    case Prepare(f) => s.(mem := Cleared(s.mem, BASE, BASE + f.Bytes(), 0), format := f)
    case Start => s.(mem := Cleared(s.mem, BASE, BASE + s.format.Bytes(), 0))
    case Copy(pos, src) => s.(mem := Copied(s.mem, src, BASE + 4 * pos))
    case Silence(pos, count) => s.(mem := Cleared(s.mem, BASE + 4 * pos, BASE + 4 * pos + 4 * count, 0))
    case Take(size) => s.(pool := PoolRuns.Step(s.pool, GRANULE, PoolRuns.Take(size)))
    case Give(which) => s.(pool := PoolRuns.Step(s.pool, GRANULE, PoolRuns.Give(which)))
    case Store(which, offset, value) =>
      var k := Target(s, which, offset) / 4;
      s.(mem := if k < |s.mem| then s.mem[k := value] else s.mem)
  }

  predicate LegalRun(s: System, events: seq<Event>)
    decreases |events|
  {
    events == [] || (Legal(s, events[0]) && LegalRun(Step(s, events[0]), events[1..]))
  }

  function Run(s: System, events: seq<Event>): System
    requires LegalRun(s, events)
    decreases |events|
  {
    if events == [] then s else Run(Step(s, events[0]), events[1..])
  }

  // ---------- where each side lives ----------

  predicate InRing(k: nat) { BASE <= 4 * k < BASE + MAX_BUFFER }

  ghost predicate Inv(s: System) {
    && s.format.Bytes() <= MAX_BUFFER
    && PoolRuns.Inv(s.pool, GRANULE)
    && forall i :: 0 <= i < |s.pool.chunks| ==>
         s.pool.chunks[i].start >= POOL_BASE && s.pool.chunks[i].start % 4 == 0
  }

  /** The driver's own start: the pool as tl880_init_memory leaves it, and no format yet. */
  lemma InitialInv(mem: seq<bv32>, memlen: nat)
    requires memlen >= 0x11000
    ensures Inv(System(mem, Format(0, 0), PoolRuns.State(InitialPool(memlen), [])))
  {}

  lemma {:induction false} StepKeepsInv(s: System, e: Event)
    requires Inv(s) && Legal(s, e)
    ensures Inv(Step(s, e))
  {
    match e {
      case Take(size) => PoolRuns.StepKeepsInv(s.pool, GRANULE, PoolRuns.Take(size));
      case Give(which) => PoolRuns.StepKeepsInv(s.pool, GRANULE, PoolRuns.Give(which));
      case _ =>
    }
  }

  /** In every reachable state every live extent starts at or above 0x100000. */
  lemma ExtentsStartAbove(s: System, which: nat)
    requires Inv(s) && which < |s.pool.live|
    ensures s.pool.live[which].addr >= 0x100000 && s.pool.live[which].addr % 4 == 0
  {
    assert PoolRuns.Placed(s.pool.chunks, s.pool.live[which]);
    var i :| PoolRuns.Inside(s.pool.chunks, i, s.pool.live[which]);
  }

  /** Playback leaves the pool and every word outside [0x1000, 0x81000) alone; pool users leave the
      format and every word inside alone. */
  lemma StepStaysHome(s: System, e: Event, k: nat)
    requires Inv(s) && Legal(s, e) && k < |s.mem|
    ensures |Step(s, e).mem| == |s.mem|
    ensures e.Playback() ==> Step(s, e).pool == s.pool
    ensures e.Playback() && (4 * k < 0x1000 || 0x81000 <= 4 * k) ==> Step(s, e).mem[k] == s.mem[k]
    ensures !e.Playback() ==> Step(s, e).format == s.format
    ensures !e.Playback() && 0x1000 <= 4 * k < 0x81000 ==> Step(s, e).mem[k] == s.mem[k]
  {
    if e.Store? { ExtentsStartAbove(s, e.which); }
  }

  /** A store through one extent changes no word that another live extent reaches. */
  lemma StoresAreApart(s: System, e: Event, other: nat, k: nat)
    requires Inv(s) && Legal(s, e) && e.Store? && other < |s.pool.live| && other != e.which && k < |s.mem|
    requires s.pool.live[other].addr <= 4 * k < s.pool.live[other].addr + s.pool.live[other].size
    ensures Step(s, e).mem[k] == s.mem[k]
  {
    ExtentsStartAbove(s, e.which);
    if e.which < other {
      PoolLaws.LiveBytesAreApart(s.pool, GRANULE, e.which, other);
    } else {
      PoolLaws.LiveBytesAreApart(s.pool, GRANULE, other, e.which);
    }
  }

  // ---------- non-interference ----------

  /** Two systems one side cannot tell apart: its own words and its own books agree. */
  predicate Alike(playback: bool, a: System, b: System) {
    && |a.mem| == |b.mem|
    && (if playback then a.format == b.format else a.pool == b.pool)
    && forall k :: 0 <= k < |a.mem| && InRing(k) == playback ==> a.mem[k] == b.mem[k]
  }

  function Only(playback: bool, events: seq<Event>): seq<Event> {
    if events == [] then []
    else (if events[0].Playback() == playback then [events[0]] else []) + Only(playback, events[1..])
  }

  /** A step of one's own side on systems one cannot tell apart gives such systems again. */
  lemma OwnStepAgrees(playback: bool, a: System, b: System, e: Event)
    requires Inv(a) && Inv(b) && Alike(playback, a, b) && e.Playback() == playback && Legal(a, e)
    ensures Legal(b, e) && Alike(playback, Step(a, e), Step(b, e))
  {}

  lemma OtherStepIsUnseen(playback: bool, a: System, b: System, e: Event)
    requires Inv(a) && Alike(playback, a, b) && e.Playback() != playback && Legal(a, e)
    ensures Alike(playback, Step(a, e), b)
  {
    var c := Step(a, e);
    forall k | 0 <= k < |a.mem| && InRing(k) == playback ensures k < |c.mem| && c.mem[k] == b.mem[k] {
      StepStaysHome(a, e, k);
    }
  }

  /** Whatever the interleaving, each side ends with the words and books it would have if the
      other had never run. */
  lemma {:induction false} SidesDoNotInterfere(playback: bool, a: System, b: System, events: seq<Event>)
    requires Inv(a) && Inv(b) && Alike(playback, a, b) && LegalRun(a, events)
    ensures LegalRun(b, Only(playback, events))
    ensures Alike(playback, Run(a, events), Run(b, Only(playback, events)))
    decreases |events|
  {
    hide Legal, Step, Alike, Inv;
    if events != [] {
      var e, rest := events[0], events[1..];
      StepKeepsInv(a, e);
      if e.Playback() == playback {
        OwnStepAgrees(playback, a, b, e);
        StepKeepsInv(b, e);
        SidesDoNotInterfere(playback, Step(a, e), Step(b, e), rest);
        assert Only(playback, events)[1..] == Only(playback, rest);
      } else {
        OtherStepIsUnseen(playback, a, b, e);
        SidesDoNotInterfere(playback, Step(a, e), b, rest);
        assert Only(playback, events) == Only(playback, rest);
      }
    }
  }
}
