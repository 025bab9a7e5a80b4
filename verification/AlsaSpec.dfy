/** The playback ring's two positions under the polling timer. */
module AlsaSpec {
  import opened Words

  const BASE: nat := 0x1000
  const MAX_BUFFER: nat := 0x80000
  const MAX_PERIOD: nat := 0x40000

  /** Period size in bytes and number of periods. */
  datatype Format = Format(size: nat, count: nat) {
    function Bytes(): nat { size * count }

    /** The declared hardware limits, for any number of periods from two up; frames have four bytes. */
    predicate Allowed() {
      count >= 2 && size % 4 == 0 && size <= MAX_PERIOD && Bytes() <= MAX_BUFFER
    }
  }

  /** Register 0x3030, buffer_pos, and the position the timer saw last. */
  datatype Ring = Ring(interruptPos: nat, bufferPos: nat, seen: nat)

  function Prepared(f: Format, seen: nat): Ring {
    Ring(BASE + f.size, BASE, seen)
  }

  predicate Elapsed(f: Format, r: Ring, position: nat) {
    position > r.bufferPos + f.size || position < r.seen
  }

  /** One tick that finds the hardware at a position; reg3020 is the buffer start. */
  function Tick(f: Format, r: Ring, reg3020: nat, position: nat): Ring
    requires f.count >= 1
  {
    if !Elapsed(f, r, position) then r.(seen := position)
    else
      var next := r.interruptPos + f.size;
      var pos := r.bufferPos + f.size;
      Ring(if next >= reg3020 + f.Bytes() then reg3020 else next,
           if pos >= reg3020 + f.size * (f.count - 1) then reg3020 else pos,
           position)
  }

  function Ticks(f: Format, r: Ring, positions: seq<nat>): Ring
    requires f.count >= 1
    decreases |positions|
  {
    if positions == [] then r else Ticks(f, Tick(f, r, BASE, positions[0]), positions[1..])
  }

  /** How many of the ticks report an elapsed period. */
  function Reports(f: Format, r: Ring, positions: seq<nat>): nat
    requires f.count >= 1
    decreases |positions|
  {
    if positions == [] then 0
    else (if Elapsed(f, r, positions[0]) then 1 else 0) + Reports(f, Tick(f, r, BASE, positions[0]), positions[1..])
  }

  /** Where the two positions are after k reported periods. */
  predicate InStep(f: Format, r: Ring, k: nat)
    requires f.count >= 2
  {
    && r.interruptPos == BASE + (k + 1) % f.count * f.size
    && r.bufferPos == BASE + k % (f.count - 1) * f.size
  }

  lemma Wraps(k: nat, m: nat)
    requires m > 0
    ensures (k + 1) % m == if k % m + 1 == m then 0 else k % m + 1
  {
    var q, r := k / m, k % m;
    assert k == q * m + r;
    if r + 1 == m {
      assert k + 1 == (q + 1) * m + 0;
      ModUnique(k + 1, m, q + 1, 0);
    } else {
      ModUnique(k + 1, m, q, r + 1);
    }
  }

  lemma Distributes(a: nat, b: nat, s: nat)
    ensures (a + b) * s == a * s + b * s && s * (a + b) == a * s + b * s
  {}

  /** A slot of the ring moves to the next one, and from the last one back to the start. */
  lemma SlotMoves(slot: nat, m: nat, size: nat)
    requires slot < m
    ensures (slot + 1) * size == slot * size + size
    ensures slot + 1 == m ==> slot * size + size == size * m
    ensures slot + 1 < m && size > 0 ==> slot * size + size < size * m
  {
    var rest := m - slot - 1;
    Distributes(slot, 1, size);
    Distributes(slot + 1, rest, size);
    if size > 0 { MulSign(rest, size); }
  }

  lemma Around(slot: nat, m: nat, size: nat)
    requires slot < m
    ensures var next := BASE + slot * size + size;
      (if next >= BASE + size * m then BASE else next) == BASE + (if slot + 1 == m then 0 else slot + 1) * size
  {
    SlotMoves(slot, m, size);
    if size == 0 { TimesZero(if slot + 1 == m then 0 else slot + 1); }
  }

  lemma TimesZero(n: nat)
    ensures n * 0 == 0
  {}

  lemma TickMoves(f: Format, r: Ring, k: nat, position: nat)
    requires f.count >= 2 && InStep(f, r, k)
    ensures InStep(f, Tick(f, r, BASE, position), if Elapsed(f, r, position) then k + 1 else k)
  {
    hide Elapsed;
    Wraps(k + 1, f.count);
    Wraps(k, f.count - 1);
    Around((k + 1) % f.count, f.count, f.size);
    Around(k % (f.count - 1), f.count - 1, f.size);
  }

  /** Whatever positions the hardware shows, after k reported periods the interrupt position has
      gone k + 1 periods round the ring and buffer_pos k periods round a ring one period shorter. */
  lemma {:induction false} PositionsAfterReports(f: Format, r: Ring, k: nat, positions: seq<nat>)
    requires f.count >= 2 && InStep(f, r, k)
    ensures InStep(f, Ticks(f, r, positions), k + Reports(f, r, positions))
    decreases |positions|
  {
    hide InStep, Elapsed, Tick;
    if positions != [] {
      var p := positions[0];
      TickMoves(f, r, k, p);
      PositionsAfterReports(f, Tick(f, r, BASE, p), if Elapsed(f, r, p) then k + 1 else k, positions[1..]);
    }
  }

  lemma PreparedInStep(f: Format, seen: nat)
    requires f.count >= 2
    ensures InStep(f, Prepared(f, seen), 0)
  {
    assert 1 % f.count == 1 && 0 % (f.count - 1) == 0;
  }

  /** Both positions stay on period boundaries inside the buffer. */
  lemma PositionsStayInside(f: Format, r: Ring, k: nat)
    requires f.count >= 2 && InStep(f, r, k)
    ensures BASE <= r.interruptPos <= BASE + f.Bytes() && BASE <= r.bufferPos <= BASE + f.Bytes()
    ensures f.size > 0 ==> r.interruptPos < BASE + f.Bytes() && r.bufferPos + f.size < BASE + f.Bytes()
  {
    SlotMoves((k + 1) % f.count, f.count, f.size);
    SlotMoves(k % (f.count - 1), f.count - 1, f.size);
    Distributes(f.count - 1, 1, f.size);
  }

  // ---------- any number of periods ----------

  function LastSeen(seen: nat, positions: seq<nat>): nat {
    if positions == [] then seen else positions[|positions| - 1]
  }

  lemma {:induction false} SeesLast(f: Format, r: Ring, positions: seq<nat>)
    requires f.count >= 1
    ensures Ticks(f, r, positions).seen == LastSeen(r.seen, positions)
    decreases |positions|
  {
    hide Elapsed;
    if positions != [] { SeesLast(f, Tick(f, r, BASE, positions[0]), positions[1..]); }
  }

  /** With any number of periods, after any ticks since prepare, k of which reported: the next tick
      reports exactly when it finds playback beyond period k mod (count - 1), or further back than the
      tick before did. */
  lemma {:induction false} NextReportIff(f: Format, seen: nat, positions: seq<nat>, position: nat)
    requires f.count >= 2
    ensures var r := Prepared(f, seen);
            Elapsed(f, Ticks(f, r, positions), position) <==>
              || position > 0x1000 + Reports(f, r, positions) % (f.count - 1) * f.size + f.size
              || position < LastSeen(seen, positions)
  {
    hide Ticks, Reports;
    PreparedInStep(f, seen);
    PositionsAfterReports(f, Prepared(f, seen), 0, positions);
    SeesLast(f, Prepared(f, seen), positions);
  }

  /** So every tick that finds playback in the last period reports, a new period or not. */
  lemma {:induction false} LastPeriodReports(f: Format, r: Ring, k: nat, positions: seq<nat>)
    requires f.count >= 2 && InStep(f, r, k)
    requires forall i :: 0 <= i < |positions| ==> positions[i] > BASE + f.size * (f.count - 1)
    ensures Reports(f, r, positions) == |positions|
    decreases |positions|
  {
    hide InStep;
    if positions != [] {
      SlotBelow(f, r, k);
      TickMoves(f, r, k, positions[0]);
      LastPeriodReports(f, Tick(f, r, BASE, positions[0]), k + 1, positions[1..]);
    }
  }

  lemma SlotBelow(f: Format, r: Ring, k: nat)
    requires f.count >= 2 && InStep(f, r, k)
    ensures r.bufferPos + f.size <= BASE + f.size * (f.count - 1)
  {
    SlotMoves(k % (f.count - 1), f.count - 1, f.size);
  }

  // ---------- two periods ----------

  /** The tick finds playback beyond the first period. */
  predicate Second(f: Format, position: nat) {
    position > BASE + f.size
  }

  /** How many positions lie beyond the first period. */
  function Beyond(f: Format, positions: seq<nat>): nat
    decreases |positions|
  {
    if positions == [] then 0
    else (if Second(f, positions[0]) then 1 else 0) + Beyond(f, positions[1..])
  }

  /** How many positions within the first period are lower than the one before. */
  function Drops(f: Format, seen: nat, positions: seq<nat>): nat
    decreases |positions|
  {
    if positions == [] then 0
    else
      (if !Second(f, positions[0]) && positions[0] < seen then 1 else 0)
      + Drops(f, positions[0], positions[1..])
  }

  /** With two periods, the only number the driver declares, buffer_pos never leaves the start. So
      every tick that finds the hardware beyond the first period reports, whether or not a period has
      passed, and of the others exactly those that find it further back than the tick before. */
  lemma {:induction false} TwoPeriodReports(f: Format, r: Ring, k: nat, positions: seq<nat>)
    requires f.count == 2 && InStep(f, r, k)
    ensures Reports(f, r, positions) == Beyond(f, positions) + Drops(f, r.seen, positions)
    decreases |positions|
  {
    if positions != [] {
      var p := positions[0];
      TickMoves(f, r, k, p);
      TwoPeriodReports(f, Tick(f, r, BASE, p), if Elapsed(f, r, p) then k + 1 else k, positions[1..]);
    }
  }

  function Standing(position: nat, n: nat): seq<nat> {
    if n == 0 then [] else [position] + Standing(position, n - 1)
  }

  /** How many ticks find playback in the other period than the tick before: the periods that have
      elapsed as far as polling can tell. */
  function Changes(f: Format, seen: nat, positions: seq<nat>): nat
    decreases |positions|
  {
    if positions == [] then 0
    else
      (if Second(f, positions[0]) != Second(f, seen) then 1 else 0) + Changes(f, positions[0], positions[1..])
  }

  /** No two ticks running find playback in the second period, and none finds it further back within
      the first. */
  predicate Clean(f: Format, seen: nat, positions: seq<nat>)
    decreases |positions|
  {
    positions != [] ==>
      && !(Second(f, seen) && Second(f, positions[0]))
      && !(!Second(f, seen) && !Second(f, positions[0]) && positions[0] < seen)
      && Clean(f, positions[0], positions[1..])
  }

  /** With two periods no elapsed period goes unreported, and the reports are right, one for each,
      exactly on clean positions. */
  lemma {:induction false} ReportsAreRightIff(f: Format, r: Ring, k: nat, positions: seq<nat>)
    requires f.count == 2 && InStep(f, r, k)
    ensures Reports(f, r, positions) >= Changes(f, r.seen, positions)
    ensures Reports(f, r, positions) == Changes(f, r.seen, positions) <==> Clean(f, r.seen, positions)
    decreases |positions|
  {
    if positions != [] {
      var p := positions[0];
      TickMoves(f, r, k, p);
      ReportsAreRightIff(f, Tick(f, r, BASE, p), if Elapsed(f, r, p) then k + 1 else k, positions[1..]);
    }
  }

  /** In particular a position that stands still in the second period is reported at every tick. */
  lemma {:induction false} StandingStillReports(f: Format, r: Ring, k: nat, position: nat, n: nat)
    requires f.count == 2 && InStep(f, r, k) && r.seen <= position
    ensures Reports(f, r, Standing(position, n)) == if position > BASE + f.size then n else 0
  {
    hide Reports, InStep;
    TwoPeriodReports(f, r, k, Standing(position, n));
    StandingCounts(f, r.seen, position, n);
  }

  lemma {:induction false} StandingCounts(f: Format, seen: nat, position: nat, n: nat)
    requires seen <= position
    ensures Beyond(f, Standing(position, n)) == if position > BASE + f.size then n else 0
    ensures Drops(f, seen, Standing(position, n)) == 0
    decreases n
  {
    if n > 0 {
      var s := Standing(position, n);
      assert s[0] == position && s[1..] == Standing(position, n - 1);
      StandingCounts(f, position, position, n - 1);
    }
  }

  // ---------- audio bottom halves in between ----------

  /** tl880_ntsc_audio_dpc writes the interrupt position too: from the buffer's start it goes to the
      middle between register 0x3020 and register 0x3024, which is 0x20 short of the end, and from
      anywhere else back to the start. */
  function AudioTurn(f: Format, r: Ring): Ring
    requires f.Bytes() >= 0x20
  {
    r.(interruptPos := if r.interruptPos == BASE then (BASE + (BASE + f.Bytes() - 0x20)) / 2 else BASE)
  }

  datatype Happening = Poll(position: nat) | AudioBh

  function Happens(f: Format, r: Ring, hs: seq<Happening>): Ring
    requires f.count >= 1 && f.Bytes() >= 0x20
    decreases |hs|
  {
    if hs == [] then r
    else Happens(f, if hs[0].Poll? then Tick(f, r, BASE, hs[0].position) else AudioTurn(f, r), hs[1..])
  }

  function PollReports(f: Format, r: Ring, hs: seq<Happening>): nat
    requires f.count >= 1 && f.Bytes() >= 0x20
    decreases |hs|
  {
    if hs == [] then 0
    else if hs[0].Poll? then
      (if Elapsed(f, r, hs[0].position) then 1 else 0) + PollReports(f, Tick(f, r, BASE, hs[0].position), hs[1..])
    else PollReports(f, AudioTurn(f, r), hs[1..])
  }

  function Polls(hs: seq<Happening>): seq<nat> {
    if hs == [] then [] else (if hs[0].Poll? then [hs[0].position] else []) + Polls(hs[1..])
  }

  lemma TicksAlike(f: Format, a: Ring, b: Ring, p: nat)
    requires f.count >= 1 && a.bufferPos == b.bufferPos && a.seen == b.seen
    ensures Elapsed(f, a, p) == Elapsed(f, b, p)
    ensures Tick(f, a, BASE, p).bufferPos == Tick(f, b, BASE, p).bufferPos
    ensures Tick(f, a, BASE, p).seen == Tick(f, b, BASE, p).seen
  {}

  /** Audio bottom halves between the ticks change neither the reports nor buffer_pos: both are those
      of the ticks alone. */
  lemma {:induction false} AudioLeavesReports(f: Format, a: Ring, b: Ring, hs: seq<Happening>)
    requires f.count >= 1 && f.Bytes() >= 0x20 && a.bufferPos == b.bufferPos && a.seen == b.seen
    ensures PollReports(f, a, hs) == Reports(f, b, Polls(hs))
    ensures Happens(f, a, hs).bufferPos == Ticks(f, b, Polls(hs)).bufferPos
    ensures Happens(f, a, hs).seen == Ticks(f, b, Polls(hs)).seen
    decreases |hs|
  {
    hide Tick, Elapsed;
    if hs != [] {
      if hs[0].Poll? {
        var p := hs[0].position;
        TicksAlike(f, a, b, p);
        assert Polls(hs)[0] == p && Polls(hs)[1..] == Polls(hs[1..]);
        AudioLeavesReports(f, Tick(f, a, BASE, p), Tick(f, b, BASE, p), hs[1..]);
      } else {
        assert Polls(hs) == Polls(hs[1..]);
        AudioLeavesReports(f, AudioTurn(f, a), b, hs[1..]);
      }
    }
  }

  /** So buffer_pos goes its k periods round whatever comes in between. */
  lemma BufferPosAfterReports(f: Format, r: Ring, k: nat, hs: seq<Happening>)
    requires f.count >= 2 && f.Bytes() >= 0x20 && InStep(f, r, k)
    ensures Happens(f, r, hs).bufferPos == BASE + (k + PollReports(f, r, hs)) % (f.count - 1) * f.size
  {
    hide Happens, PollReports, Ticks, Reports;
    AudioLeavesReports(f, r, r, hs);
    PositionsAfterReports(f, r, k, Polls(hs));
  }

  /** The interrupt position is another matter: a bottom half always moves it, off its place in the
      ring, unless the whole buffer is shorter than 0x22 bytes. */
  lemma AudioKeepsStepIff(f: Format, r: Ring, k: nat)
    requires f.count >= 2 && f.Bytes() >= 0x20 && InStep(f, r, k)
    ensures InStep(f, AudioTurn(f, r), k) <==> r.interruptPos == BASE && f.Bytes() < 0x22
  {}

  /** Yet it never leaves the buffer. */
  lemma {:induction false} InterruptPosStaysInside(f: Format, r: Ring, hs: seq<Happening>)
    requires f.count >= 1 && f.Bytes() >= 0x20 && BASE <= r.interruptPos < BASE + f.Bytes()
    ensures BASE <= Happens(f, r, hs).interruptPos < BASE + f.Bytes()
    decreases |hs|
  {
    hide Elapsed;
    if hs != [] {
      InterruptPosStaysInside(
        f, if hs[0].Poll? then Tick(f, r, BASE, hs[0].position) else AudioTurn(f, r), hs[1..]);
    }
  }
}
