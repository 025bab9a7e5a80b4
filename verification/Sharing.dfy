/** The pool and the overlay list are handed out over the same card memory, and neither knows of the
    other. This module says exactly when they can hand out the same byte. */
module Sharing {
  import opened CardMemory
  import opened PoolSpec
  import OsdLaws
  import OsdRuns
  import PoolRuns

  const OVERLAY: nat := 0x186000  // where overlay memory starts on the card
  const GRANULE: nat := 64

  /** The driver adds memory to the pool once. */
  predicate NoAdds(ops: seq<PoolRuns.Op>) {
    forall i :: 0 <= i < |ops| ==> !ops[i].Add?
  }

  function PoolStart(memlen: nat): PoolRuns.State
    requires memlen >= 0x11000
  {
    PoolRuns.State(InitialPool(memlen), [])
  }

  function PoolGranules(memlen: nat): nat
    requires memlen >= 0x11000
  {
    (memlen - 0x11000) / GRANULE
  }

  /** Extent e and the overlay request that got list address a have a byte of card memory in common. */
  predicate Share(e: PoolRuns.Extent, virt: nat, a: nat, size: nat)
    requires virt <= a
  {
    var card := a - virt + OVERLAY;
    e.addr < card + size && card < e.addr + e.size
  }

  /** Some run of the pool and some run of the overlay list end with such a pair. */
  ghost predicate CanShare(memlen: nat, tracker: nat, virt: nat, phys: nat)
    requires memlen >= 0x11000
  {
    exists pool: seq<PoolRuns.Op>, osd: seq<OsdRuns.Op>, j: nat, a: nat ::
      ReachesShare(memlen, tracker, virt, phys, pool, osd, j, a)
  }

  ghost predicate ReachesShare(memlen: nat, tracker: nat, virt: nat, phys: nat,
                               pool: seq<PoolRuns.Op>, osd: seq<OsdRuns.Op>, j: nat, a: nat)
    requires memlen >= 0x11000
  {
    && PoolRuns.LegalRun(PoolStart(memlen), GRANULE, pool) && NoAdds(pool)
    && OsdRuns.AllLegal(osd)
    && var live := PoolRuns.Run(PoolStart(memlen), GRANULE, pool).live;
       var requests := OsdRuns.Run(OsdRuns.Start(tracker, virt, phys), osd).live;
       && j < |live| && a in requests && virt <= a && Share(live[j], virt, a, requests[a].size)
  }

  // ---------- a pool too small to reach ----------

  predicate OneChunk(st: PoolRuns.State, granules: nat) {
    |st.chunks| == 1 && st.chunks[0].start == 0x100000 && |st.chunks[0].bits| == granules
  }

  lemma {:induction false} RunKeepsChunk(st: PoolRuns.State, granules: nat, ops: seq<PoolRuns.Op>)
    requires PoolRuns.Inv(st, GRANULE) && OneChunk(st, granules)
    requires PoolRuns.LegalRun(st, GRANULE, ops) && NoAdds(ops)
    ensures PoolRuns.Inv(PoolRuns.Run(st, GRANULE, ops), GRANULE)
    ensures OneChunk(PoolRuns.Run(st, GRANULE, ops), granules)
    decreases |ops|
  {
    hide PoolRuns.Inv;
    if ops != [] {
      assert !ops[0].Add?;
      PoolRuns.StepKeepsInv(st, GRANULE, ops[0]);
      assert NoAdds(ops[1..]);
      RunKeepsChunk(PoolRuns.Step(st, GRANULE, ops[0]), granules, ops[1..]);
    }
  }

  lemma StartIsSound(memlen: nat)
    requires memlen >= 0x11000
    ensures PoolRuns.Inv(PoolStart(memlen), GRANULE) && OneChunk(PoolStart(memlen), PoolGranules(memlen))
  {}

  /** In every run the pool's extents end two granules before its range does. */
  lemma ExtentsEnd(memlen: nat, ops: seq<PoolRuns.Op>, j: nat)
    requires memlen >= 0x11000 && PoolRuns.LegalRun(PoolStart(memlen), GRANULE, ops) && NoAdds(ops)
    requires j < |PoolRuns.Run(PoolStart(memlen), GRANULE, ops).live|
    ensures var e := PoolRuns.Run(PoolStart(memlen), GRANULE, ops).live[j];
      e.addr + e.size + 2 * GRANULE <= 0x100000 + PoolGranules(memlen) * GRANULE
  {
    StartIsSound(memlen);
    RunKeepsChunk(PoolStart(memlen), PoolGranules(memlen), ops);
    var st := PoolRuns.Run(PoolStart(memlen), GRANULE, ops);
    var e := st.live[j];
    assert PoolRuns.Placed(st.chunks, e);
    var i: nat :| PoolRuns.Inside(st.chunks, i, e);
    PoolRuns.GranulesCover(e.size, GRANULE);
  }

  /** In every run overlay requests lie at or above the region's start. */
  lemma RequestsStartAbove(tracker: nat, virt: nat, phys: nat, ops: seq<OsdRuns.Op>, a: nat)
    requires virt > 0 && OsdRuns.AllLegal(ops)
    requires a in OsdRuns.Run(OsdRuns.Start(tracker, virt, phys), ops).live
    ensures virt <= a
  {
    var st := OsdRuns.Run(OsdRuns.Start(tracker, virt, phys), ops);
    OsdRuns.InitIsSound(tracker, virt, phys);
    OsdRuns.RunKeepsInv(OsdRuns.Start(tracker, virt, phys), virt, virt + OsdRuns.REGION, phys - virt, ops);
    var b :| OsdRuns.Active(st.blocks, b) && b.Addr() == a;
    var i :| 0 <= i < |st.blocks| && st.blocks[i] == b;
    OsdLaws.TilesBounds(st.blocks, virt, virt + OsdRuns.REGION, i);
  }

  // ---------- a pool large enough ----------

  /** The first allocation from the fresh pool, of any number of granules it can serve. */
  lemma FirstTake(memlen: nat, n: nat)
    requires memlen >= 0x11000 && 0 < n && n + 1 < PoolGranules(memlen)
    ensures var ops := [PoolRuns.Take(n * GRANULE)];
      && PoolRuns.LegalRun(PoolStart(memlen), GRANULE, ops) && NoAdds(ops)
      && PoolRuns.Run(PoolStart(memlen), GRANULE, ops).live ==
         [PoolRuns.Extent(0x100000, 0, n, 0x100000, n * GRANULE)]
  {
    var st := PoolStart(memlen);
    var size := n * GRANULE;
    assert Granules(size, GRANULE) == n;
    assert Fits(st.chunks[0].bits, n, 0);
    assert FirstFrom(st.chunks[0].bits, n, 0) == Some(0);
    assert PoolRuns.Taken(st.chunks, GRANULE, size) == [PoolRuns.Extent(0x100000, 0, n, 0x100000, size)];
    assert [PoolRuns.Take(size)][1..] == [];
  }

  // ---------- past the end of memory ----------

  /** Some run of the pool ends with a live extent that reaches past the end of memory. */
  ghost predicate CanRunPast(memlen: nat)
    requires memlen >= 0x11000
  {
    exists pool: seq<PoolRuns.Op>, j: nat :: ReachesPast(memlen, pool, j)
  }

  ghost predicate ReachesPast(memlen: nat, pool: seq<PoolRuns.Op>, j: nat)
    requires memlen >= 0x11000
  {
    && PoolRuns.LegalRun(PoolStart(memlen), GRANULE, pool) && NoAdds(pool)
    && var live := PoolRuns.Run(PoolStart(memlen), GRANULE, pool).live;
       j < |live| && live[j].addr + live[j].size > memlen
  }

  /** The pool's range starts at 0x100000 but is only 0x11000 bytes shorter than memory: it hands out
      bytes past the end exactly when it can hand out anything, having more than two granules. */
  lemma CanRunPastIff(memlen: nat)
    requires memlen >= 0x11000
    ensures CanRunPast(memlen) <==> PoolGranules(memlen) > 2
    ensures PoolGranules(memlen) > 2 <==> memlen >= 0x110c0
  {
    if PoolGranules(memlen) > 2 {
      var n := PoolGranules(memlen) - 2;
      FirstTake(memlen, n);
      assert ReachesPast(memlen, [PoolRuns.Take(n * GRANULE)], 0);
    } else if CanRunPast(memlen) {
      var pool: seq<PoolRuns.Op>, j: nat :| ReachesPast(memlen, pool, j);
      NothingToTake(memlen, pool, j);
    }
  }

  lemma NothingToTake(memlen: nat, ops: seq<PoolRuns.Op>, j: nat)
    requires memlen >= 0x11000 && PoolRuns.LegalRun(PoolStart(memlen), GRANULE, ops) && NoAdds(ops)
    requires j < |PoolRuns.Run(PoolStart(memlen), GRANULE, ops).live|
    ensures PoolGranules(memlen) > 2
  {
    ExtentsEnd(memlen, ops, j);
    StartIsSound(memlen);
    RunKeepsChunk(PoolStart(memlen), PoolGranules(memlen), ops);
    var st := PoolRuns.Run(PoolStart(memlen), GRANULE, ops);
    assert st.live[j].size > 0;
    assert PoolRuns.Placed(st.chunks, st.live[j]);
    var i: nat :| PoolRuns.Inside(st.chunks, i, st.live[j]);
  }

  // ---------- the two together ----------

  /** One allocation from the fresh pool that runs 64 bytes into overlay memory. */
  const REACH: nat := 0x2181

  lemma FirstRequestIsAtStart(tracker: nat, virt: nat, phys: nat)
    requires virt > 0
    ensures OsdRuns.AllLegal([OsdRuns.Request(1, 1, true)])
    ensures OsdRuns.Run(OsdRuns.Start(tracker, virt, phys), [OsdRuns.Request(1, 1, true)]).live
         == map[virt := OsdRuns.Claim(1, 1)]
  {
    var st, op := OsdRuns.Start(tracker, virt, phys), OsdRuns.Request(1, 1, true);
    assert OsdRuns.Step(st, op).live == map[virt := OsdRuns.Claim(1, 1)];
    assert [op][1..] == [];
  }

  /** Once tl880_init_osdmem has run, the two can hand out the same byte exactly when the pool has
      more than 0x2182 granules, that is on every card with at least 0x970c0 bytes of memory. */
  lemma CanShareIff(memlen: nat, tracker: nat, virt: nat, phys: nat)
    requires memlen >= 0x11000 && virt > 0
    ensures CanShare(memlen, tracker, virt, phys) <==> PoolGranules(memlen) > 0x2182
    ensures PoolGranules(memlen) > 0x2182 <==> memlen >= 0x970c0
  {
    hide Share;
    if PoolGranules(memlen) > 0x2182 {
      FirstTake(memlen, REACH);
      FirstRequestIsAtStart(tracker, virt, phys);
      SharesFirstByte(virt);
      assert ReachesShare(memlen, tracker, virt, phys,
                          [PoolRuns.Take(REACH * GRANULE)], [OsdRuns.Request(1, 1, true)], 0, virt);
    } else if CanShare(memlen, tracker, virt, phys) {
      var pool: seq<PoolRuns.Op>, osd: seq<OsdRuns.Op>, j: nat, a: nat :|
        ReachesShare(memlen, tracker, virt, phys, pool, osd, j, a);
      ExtentsEnd(memlen, pool, j);
      RequestsStartAbove(tracker, virt, phys, osd, a);
      EndsBelow(PoolRuns.Run(PoolStart(memlen), GRANULE, pool).live[j], virt, a,
                OsdRuns.Run(OsdRuns.Start(tracker, virt, phys), osd).live[a].size);
    }
  }

  lemma SharesFirstByte(virt: nat)
    ensures Share(PoolRuns.Extent(0x100000, 0, REACH, 0x100000, REACH * GRANULE), virt, virt, 1)
  {}

  lemma EndsBelow(e: PoolRuns.Extent, virt: nat, a: nat, size: nat)
    requires virt <= a && e.addr + e.size <= OVERLAY
    ensures !Share(e, virt, a, size)
  {}
}
