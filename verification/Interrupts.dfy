/** The two halves of the interrupt handler. The top half runs whenever the shared line fires, at
    any moment and for any device on it; the bottom half runs later, once it has been scheduled. */
module Interrupts {
  import opened Bits
  import opened Cast
  import opened Registers
  import Vpip

  const UNKNOWN: bv32 := 0x824

  /** Registers 0 (sources that fired) and 4 (sources enabled), the driver's fields, and whether the
      tasklet is scheduled. */
  datatype Ints = Ints(status: bv32, mask: bv32, intType: bv32, intMask: bv32, pending: bool, count: nat)

  // ---------- source words ----------

  predicate Any(sources: bv32) {
    sources != 0
  }

  predicate HasUnknown(sources: bv32) {
    sources & UNKNOWN != 0
  }

  predicate HasAudio(sources: bv32) {
    sources & 1 != 0
  }

  predicate HasBlt(sources: bv32) {
    sources & 2 != 0
  }

  /** Two words both have this bit. */
  predicate Common(a: bv32, b: bv32, bit: bv32) {
    a & b & bit != 0
  }

  /** A mask without the sources the driver has no handler for. */
  function Known(mask: bv32): bv32 {
    mask & !UNKNOWN
  }

  /** `if(x & bit) x &= ~bit`. */
  function Clear(x: bv32, bit: bv32): bv32 {
    if x & bit != 0 then x & !bit else x
  }

  /** What the sub-handlers leave for the bottom half: VPIP and DPC are always done at once, APU and
      BLT when their own registers say so. */
  function Left(fired: bv32, apu: bool, blt: bool): bv32 {
    var x := Clear(Clear(fired, 0x80), 0x8);
    var y := if apu then x else Clear(x, 0x1);
    if blt then y else Clear(y, 0x2)
  }

  lemma ClearIs(x: bv32, bit: bv32)
    ensures Clear(x, bit) == x & !bit
  {}

  lemma ClearIsExact(x: bv32, bit: bv32, mask: bv32)
    ensures Under(bit, mask) == 0 ==> Under(Clear(x, bit), mask) == Under(x, mask)
    ensures Under(Clear(x, bit), bit) == 0
    ensures Under(x, mask) == 0 ==> Under(Clear(x, bit), mask) == 0
  {
    hide Clear;
    ClearIs(x, bit);
  }

  lemma Apart()
    ensures Under(0x80, UNKNOWN) == 0 && Under(0x8, UNKNOWN) == 0
    ensures Under(0x1, UNKNOWN) == 0 && Under(0x2, UNKNOWN) == 0
  {}

  function Keep(left: bv32, mask: bv32): bv32 {
    if HasUnknown(left) then Known(mask) else mask
  }

  /** What the top half finishes itself is never an unknown source. */
  lemma KeepDependsOnFired(fired: bv32, mask: bv32, apu: bool, blt: bool)
    ensures Keep(Left(fired, apu, blt), mask) == if HasUnknown(fired) then Known(mask) else mask
    ensures HasUnknown(fired) ==> Any(Left(fired, apu, blt))
  {
    hide Clear, Under, Known;
    LeftKeepsUnknown(fired, apu, blt);
    UnknownByMask(fired);
    UnknownByMask(Left(fired, apu, blt));
  }

  lemma UnknownByMask(x: bv32)
    ensures HasUnknown(x) <==> Under(x, UNKNOWN) != 0
    ensures HasUnknown(x) ==> Any(x)
  {}

  lemma LeftKeepsUnknown(fired: bv32, apu: bool, blt: bool)
    ensures Under(Left(fired, apu, blt), UNKNOWN) == Under(fired, UNKNOWN)
  {
    hide Clear, Under;
    Apart();
    var x := Clear(Clear(fired, 0x80), 0x8);
    var y := if apu then x else Clear(x, 0x1);
    ClearIsExact(fired, 0x80, UNKNOWN);
    ClearIsExact(Clear(fired, 0x80), 0x8, UNKNOWN);
    ClearIsExact(x, 0x1, UNKNOWN);
    ClearIsExact(y, 0x2, UNKNOWN);
  }

  /** VPIP and DPC never reach the bottom half. */
  lemma LeftHasNoVideo(fired: bv32, apu: bool, blt: bool)
    ensures Under(Left(fired, apu, blt), 0x80) == 0 && Under(Left(fired, apu, blt), 0x8) == 0
  {
    hide Clear, Under;
    Apart();
    var x := Clear(Clear(fired, 0x80), 0x8);
    var y := if apu then x else Clear(x, 0x1);
    ClearIsExact(fired, 0x80, 0x80);
    ClearIsExact(Clear(fired, 0x80), 0x8, 0x80);
    ClearIsExact(x, 0x1, 0x80);
    ClearIsExact(x, 0x1, 0x8);
    ClearIsExact(y, 0x2, 0x80);
    ClearIsExact(y, 0x2, 0x8);
  }

  lemma ClearTwice(x: bv32, a: bv32, b: bv32)
    ensures Outside(Outside(x, a), b) == Outside(x, a | b)
  {}

  lemma ClearsOutside(x: bv32, bit: bv32)
    ensures Clear(x, bit) == Outside(x, bit)
  {}

  /** The bits the top half takes away. */
  function Gone(apu: bool, blt: bool): bv32 {
    0x88 | (if apu then 0 else 1) | (if blt then 0 else 2)
  }

  lemma LeftIsOutside(fired: bv32, apu: bool, blt: bool)
    ensures Left(fired, apu, blt) == Outside(fired, Gone(apu, blt))
  {
    hide Clear, Outside;
    var x := Clear(Clear(fired, 0x80), 0x8);
    var y := if apu then x else Clear(x, 0x1);
    ClearsOutside(fired, 0x80);
    ClearsOutside(Clear(fired, 0x80), 0x8);
    ClearsOutside(x, 0x1);
    ClearsOutside(y, 0x2);
    ClearTwice(fired, 0x80, 0x8);
    ClearTwice(fired, 0x88, 0x1);
    ClearTwice(fired, 0x88, 0x2);
    ClearTwice(fired, 0x89, 0x2);
  }

  /** The survivors, bit by bit: exactly VPIP's and DPC's bits are lost, APU's bit 0 and BLT's bit 1
      when their registers do not ask, and no other. */
  lemma LeftIs(fired: bv32, apu: bool, blt: bool)
    ensures Left(fired, apu, blt) == fired & !(0x88 | (if apu then 0 else 1) | (if blt then 0 else 2))
  {
    hide Left;
    LeftIsOutside(fired, apu, blt);
  }

  lemma LeftHas(status: bv32, mask: bv32, apu: bool, blt: bool)
    ensures HasAudio(Left(Under(status, mask), apu, blt)) <==> Common(status, mask, 1) && apu
    ensures HasBlt(Left(Under(status, mask), apu, blt)) <==> Common(status, mask, 2) && blt
  {
    hide Left;
    LeftIs(Under(status, mask), apu, blt);
  }

  /** And the mask: the unknown sources 0x004, 0x020 and 0x800 go exactly when one of them fired. */
  lemma KeepIs(fired: bv32, mask: bv32, apu: bool, blt: bool)
    ensures Keep(Left(fired, apu, blt), mask) == if fired & 0x824 != 0 then mask & !0x824 else mask
  {
    hide Left, Keep;
    KeepDependsOnFired(fired, mask, apu, blt);
  }

  lemma NothingMasked(status: bv32)
    ensures !Any(Under(status, 0)) && !HasUnknown(Under(status, 0))
  {}

  lemma NoneUnknown(sources: bv32)
    ensures !Any(sources) ==> !HasUnknown(sources)
  {}

  lemma KnownTwice(mask: bv32)
    ensures Known(Known(mask)) == Known(mask) && Known(0) == 0
  {}

  // ---------- the two halves ----------

  /** The enabled sources that fired. */
  function Fired(s: Ints): bv32 {
    Under(s.status, s.mask)
  }

  /** The line fired while no enabled source of this card had. */
  predicate Foreign(s: Ints) {
    !Any(Fired(s))
  }

  predicate Busy(s: Ints) {
    !Foreign(s) && Any(s.intType)
  }

  /** A card of the driver's own, its interrupts off, once `fired` has been looked at. */
  function Served(off: Ints, mask: bv32, fired: bv32, apu: bool, blt: bool): Ints {
    var left := Left(fired, apu, blt);
    var keep := Keep(left, mask);
    var on := off.(intType := left, intMask := keep, count := off.count + 1);
    if Any(left) then on.(pending := true) else on.(mask := keep)
  }

  function TopHalf(s: Ints, apu: bool, blt: bool): Ints {
    var off := s.(intMask := s.mask, mask := 0);
    if Foreign(s) then off
    else if Busy(s) then off.(intMask := 0)
    else Served(off, s.mask, Fired(s), apu, blt)
  }

  function BottomHalf(s: Ints): Ints {
    s.(intType := 0, mask := s.intMask, pending := false)
  }

  /** tl880_disable_interrupts. */
  function Disabled(s: Ints): Ints {
    s.(mask := 0, intMask := 0)
  }

  // ---------- runs ----------

  datatype Step =
    | Raise(status: bv32)            // the card's status register changes
    | Irq(apu: bool, blt: bool)      // the shared line fires
    | Tasklet                        // the scheduled bottom half runs
    | Enable(mask: bv32)             // the driver sets the mask itself
    | Disable                        // the driver turns interrupts off, on removal say

  /** The tasklet runs only when scheduled; nobody sets the mask while an interrupt is in flight.
      Turning interrupts off is allowed at any time. */
  predicate Legal(s: Ints, step: Step) {
    && (step.Tasklet? ==> s.pending)
    && (step.Enable? ==> !Any(s.intType))
  }

  function Next(s: Ints, step: Step): Ints {
    match step
    case Raise(status) => s.(status := status)
    case Irq(apu, blt) => TopHalf(s, apu, blt)
    case Tasklet => BottomHalf(s)
    case Enable(mask) => s.(mask := mask)
    case Disable => Disabled(s)
  }

  predicate LegalRun(s: Ints, steps: seq<Step>)
    decreases |steps|
  {
    steps == [] || (Legal(s, steps[0]) && LegalRun(Next(s, steps[0]), steps[1..]))
  }

  function Run(s: Ints, steps: seq<Step>): Ints
    decreases |steps|
  {
    if steps == [] then s else Run(Next(s, steps[0]), steps[1..])
  }

  /** An interrupt is in flight exactly while the tasklet is scheduled, with the card's interrupts
      off; the bottom half never has VPIP or DPC work. */
  predicate Inv(s: Ints) {
    && (Any(s.intType) <==> s.pending)
    && (Any(s.intType) ==> s.mask == 0)
    && Under(s.intType, 0x80) == 0 && Under(s.intType, 0x8) == 0
  }

  lemma StepKeepsInv(s: Ints, step: Step)
    requires Inv(s) && Legal(s, step)
    ensures Inv(Next(s, step))
  {
    hide Left, Keep;
    if step.Irq? { LeftHasNoVideo(Fired(s), step.apu, step.blt); }
  }

  /** Mutual exclusion, in every run, foreign interrupts included: when the top half finds one of
      its own sources, nothing is in flight. Its "already handling" branch is unreachable. */
  lemma {:induction false} NeverBusy(s: Ints, steps: seq<Step>)
    requires Inv(s) && LegalRun(s, steps)
    ensures Inv(Run(s, steps)) && !Busy(Run(s, steps))
    decreases |steps|
  {
    if steps != [] {
      StepKeepsInv(s, steps[0]);
      NeverBusy(Next(s, steps[0]), steps[1..]);
    }
  }

  // ---------- what becomes of the mask ----------

  /** The mask in force: the register, or while an interrupt is in flight what it will be. */
  function Effective(s: Ints): bv32 {
    if Any(s.intType) then s.intMask else s.mask
  }

  /** The steps that leave the card deaf. */
  predicate Silences(s: Ints, step: Step) {
    step.Disable? || (step.Irq? && Foreign(s))
  }

  predicate Silenced(s: Ints, steps: seq<Step>)
    decreases |steps|
  {
    steps != [] && (Silences(s, steps[0]) || Silenced(Next(s, steps[0]), steps[1..]))
  }

  /** The card's own interrupts met on the way, and whether one had an unknown source. */
  function Own(s: Ints, steps: seq<Step>): nat
    decreases |steps|
  {
    if steps == [] then 0
    else (if steps[0].Irq? && !Foreign(s) then 1 else 0) + Own(Next(s, steps[0]), steps[1..])
  }

  function UnknownSeen(s: Ints, steps: seq<Step>): bool
    decreases |steps|
  {
    steps != [] && ((steps[0].Irq? && HasUnknown(Fired(s))) || UnknownSeen(Next(s, steps[0]), steps[1..]))
  }

  predicate NobodyEnables(steps: seq<Step>) {
    forall i :: 0 <= i < |steps| ==> !steps[i].Enable?
  }

  lemma MaskStep(s: Ints, step: Step)
    requires Inv(s) && Legal(s, step) && !step.Enable?
    ensures Effective(Next(s, step)) ==
            if Silences(s, step) then 0
            else if step.Irq? && HasUnknown(Fired(s)) then Known(Effective(s))
            else Effective(s)
    ensures Next(s, step).count == if step.Irq? && !Foreign(s) then s.count + 1 else s.count
    ensures step.Irq? && Foreign(s) ==> !HasUnknown(Fired(s))
    ensures Effective(s) == 0 && step.Irq? ==> Foreign(s)
  {
    hide HasUnknown, Known, Left, Keep;
    if step.Irq? {
      KeepDependsOnFired(Fired(s), s.mask, step.apu, step.blt);
      NothingMasked(s.status);
      NoneUnknown(Fired(s));
    }
  }

  /** Once the mask in force is 0 the card stays deaf: no interrupt of its own is ever served again
      until somebody sets the mask. */
  lemma {:induction false} DeafForEver(s: Ints, steps: seq<Step>)
    requires Inv(s) && LegalRun(s, steps) && NobodyEnables(steps)
    requires Effective(s) == 0
    ensures Effective(Run(s, steps)) == 0 && Own(s, steps) == 0 && !UnknownSeen(s, steps)
    ensures Run(s, steps).count == s.count
    decreases |steps|
  {
    hide Inv, Next, Legal, Effective, Foreign, HasUnknown, Known;
    if steps != [] {
      StepKeepsInv(s, steps[0]);
      MaskStep(s, steps[0]);
      DeafForEver(Next(s, steps[0]), steps[1..]);
    }
  }

  /** Exactly what a run does to the mask as long as nobody sets it. One interrupt that was not the
      card's own, at any moment, leaves it 0 as surely as turning interrupts off does; else it loses
      the unknown sources if one of them fired, and nothing more. Each own interrupt is counted once. */
  lemma {:induction false} MaskAfterRun(s: Ints, steps: seq<Step>)
    requires Inv(s) && LegalRun(s, steps) && NobodyEnables(steps)
    ensures Effective(Run(s, steps)) ==
            if Silenced(s, steps) then 0
            else if UnknownSeen(s, steps) then Known(Effective(s))
            else Effective(s)
    ensures Run(s, steps).count == s.count + Own(s, steps)
    decreases |steps|
  {
    hide Inv, Next, Legal, Effective, Foreign, HasUnknown, Known;
    if steps != [] {
      var t := Next(s, steps[0]);
      StepKeepsInv(s, steps[0]);
      MaskStep(s, steps[0]);
      MaskAfterRun(t, steps[1..]);
      KnownTwice(Effective(s));
      if Effective(t) == 0 { DeafForEver(t, steps[1..]); }
    }
  }

  /** So register 4 is restored once nothing is in flight any more, less the unknown sources if one
      of them fired, exactly when no foreign interrupt came by and nobody turned interrupts off. */
  lemma {:induction false} MaskIsRestored(s: Ints, steps: seq<Step>)
    requires Inv(s) && LegalRun(s, steps) && NobodyEnables(steps)
    requires !Any(s.intType) && !Any(Run(s, steps).intType) && Known(s.mask) != 0
    ensures Run(s, steps).mask == (if UnknownSeen(s, steps) then Known(s.mask) else s.mask) <==>
            !Silenced(s, steps)
  {
    hide Inv, Next, Legal, Foreign, HasUnknown, Known;
    MaskAfterRun(s, steps);
    KnownTwice(s.mask);
  }

  /** In particular from a new card on, whatever its registers hold. */
  lemma NeverBusyFromStart(s: Ints, steps: seq<Step>)
    requires s.intType == 0 && !s.pending && LegalRun(s, steps)
    ensures Inv(Run(s, steps)) && !Busy(Run(s, steps))
  {
    NeverBusy(s, steps);
  }

  // ---------- the handlers ----------

  /** The register words a VPIP interrupt leaves, if VPIP is among the sources that fired. */
  function Video(w: seq<bv32>, c: Vpip.Counters, fired: bv32): (r: seq<bv32>)
    requires |w| == SPACE / 4
    ensures |r| == |w|
  {
    if fired & 0x80 != 0 then Vpip.Served(w, c) else w
  }

  function VideoCounters(w: seq<bv32>, c: Vpip.Counters, fired: bv32): Vpip.Counters
    requires |w| == SPACE / 4
  {
    if fired & 0x80 != 0 && Vpip.Asks(w) then Vpip.Count(c) else c
  }

  /** The VPIP handler runs exactly when source 0x80 fired and registers 0x7008 and 0x7004 ask for it. */
  lemma VideoAsks(w: seq<bv32>, c: Vpip.Counters, fired: bv32)
    requires |w| == SPACE / 4
    ensures var runs := fired & 0x80 != 0 && w[0x7008 / 4] & w[0x7004 / 4] & 1 != 0;
            && Video(w, c, fired) == (if runs then Vpip.Handled(w, c) else w)
            && VideoCounters(w, c, fired) == (if runs then Vpip.Count(c) else c)
  {}

  lemma OthersStay(w: seq<bv32>, c: Vpip.Counters, fired: bv32)
    requires |w| == SPACE / 4
    ensures forall k :: 0 <= k < |w| && k * 4 !in {0x7000, 0x701c, 0x702c} ==> Video(w, c, fired)[k] == w[k]
  {
    forall k | 0 <= k < |w| && k * 4 !in {0x7000, 0x701c, 0x702c} ensures Video(w, c, fired)[k] == w[k] {
      Vpip.OnlyVpipWords(w, c, k);
    }
  }

  datatype IrqReturn = IrqNone | IrqHandled

  class Card {
    const regs: RegisterFile
    var intType: bv32
    var intMask: bv32
    var oldMask: bv32
    var elseInt: bool
    var intCount: nat
    var tasklet: bool
    var vpip: Vpip.Counters  // the VPIP handler's static row_cnt and field_cnt

    /** As allocated and zeroed: nothing is in flight. */
    constructor (regs: RegisterFile)
      ensures this.regs == regs && intType == 0 && intMask == 0 && !tasklet && intCount == 0
      ensures vpip == Vpip.Counters(0, 0)
      ensures regs.Valid() ==> Inv(View())
    {
      this.regs := regs;
      intType, intMask, oldMask, elseInt, intCount, tasklet := 0, 0, 0, false, 0, false;
      vpip := Vpip.Counters(0, 0);
    }

    ghost function View(): Ints
      requires regs.Valid()
      reads this, regs.words
    {
      Ints(regs.At(0), regs.At(4), intType, intMask, tasklet, intCount)
    }

    /** tl880_irq. Besides register 4 it writes what the VPIP handler does, when a VPIP interrupt
        asks for it. An APU interrupt is left for the bottom half exactly when registers 0x3018 and
        0x3014 ask for it, a BLT interrupt when 0x4014 and 0x4010 do. The callbacks that
        tl880_apu_int runs are taken not to touch any of this. */
    method Irq() returns (r: IrqReturn)
      requires regs.Valid()
      modifies this, regs.words, regs`trace
      ensures View() == TopHalf(old(View()), old(ApuWork()), old(BltWork()))
      ensures r == IrqNone <==> Foreign(old(View()))
      ensures !Foreign(old(View())) && !Busy(old(View())) ==>
                && HasAudio(intType) == old(Common(regs.At(0), regs.At(4), 1) &&
                                            Common(regs.At(0x3018), regs.At(0x3014), 1))
                && HasBlt(intType) == old(Common(regs.At(0), regs.At(4), 2) &&
                                          Common(regs.At(0x4014), regs.At(0x4010), 0x10))
      ensures Foreign(old(View())) ==> elseInt && vpip == old(vpip) && regs.words[..] == old(regs.words[..])[1 := 0]
      ensures !Foreign(old(View())) && !Busy(old(View())) ==>
                && regs.words[..] == Video(old(regs.words[..])[1 := 0], old(vpip), Fired(old(View())))[1 := View().mask]
                && vpip == VideoCounters(old(regs.words[..])[1 := 0], old(vpip), Fired(old(View())))
    {
      hide View, ApuWork, BltWork, Any, Served, Under, Video, VideoCounters, HasAudio, HasBlt, Common, Left;
      AsksAre();
      var fired, mask, busy := TakeOff();
      if !Any(Under(fired, mask)) {
        NotOurs();
        return IrqNone;
      }
      if Any(busy) {
        AlreadyHandling();
        return IrqHandled;
      }
      Serve(Under(fired, mask));
      LeftHas(fired, mask, old(ApuWork()), old(BltWork()));
      return IrqHandled;
    }

    lemma AsksAre()
      requires regs.Valid()
      ensures View().status == regs.At(0) && View().mask == regs.At(4)
      ensures ApuWork() == Common(regs.At(0x3018), regs.At(0x3014), 1)
      ensures BltWork() == Common(regs.At(0x4014), regs.At(0x4010), 0x10)
    {}

    /** The start of tl880_irq: read the sources and the mask, and turn the card's interrupts off. */
    method TakeOff() returns (fired: bv32, mask: bv32, busy: bv32)
      requires regs.Valid()
      modifies `intMask, regs.words, regs`trace
      ensures fired == old(View()).status && mask == old(View()).mask && busy == old(View()).intType
      ensures View() == old(View()).(intMask := mask, mask := 0) && intMask == mask && regs.At(4) == 0
      ensures ApuWork() == old(ApuWork()) && BltWork() == old(BltWork())
      ensures regs.words[..] == old(regs.words[..])[1 := 0]
    {
      fired := regs.Read(0);
      mask := regs.Read(4);
      intMask := mask;
      regs.Write(4, 0);
      busy := intType;
    }

    method NotOurs()
      requires regs.Valid()
      modifies `elseInt
      ensures elseInt && View() == old(View())
    {
      elseInt := true;
    }

    /** The branch for a second interrupt on top of one in flight. */
    method AlreadyHandling()
      requires regs.Valid() && regs.At(4) == 0
      modifies `oldMask, `intMask, regs.words, regs`trace
      ensures View() == old(View()).(intMask := 0)
    {
      DisableInterrupts();
    }

    /** The rest of tl880_irq, for an interrupt of this card. */
    method Serve(fired: bv32)
      requires regs.Valid() && regs.At(4) == 0
      modifies `intType, `intMask, `intCount, `tasklet, `vpip, regs.words, regs`trace
      ensures View() == Served(old(View()), old(intMask), fired, old(ApuWork()), old(BltWork()))
      ensures regs.words[..] == Video(old(regs.words[..]), old(vpip), fired)[1 := View().mask]
      ensures vpip == VideoCounters(old(regs.words[..]), old(vpip), fired)
      ensures intType == Left(fired, old(ApuWork()), old(BltWork()))
    {
      hide Any, Left, Keep, Video, VideoCounters, ApuWork, BltWork;
      intType := fired;
      intCount := intCount + 1;
      VpipInt();
      Dispatch();
      if Any(intType) {
        tasklet := true;
        assert regs.words[..][1 := regs.At(4)] == regs.words[..];
      } else {
        regs.Write(4, intMask);
      }
    }

    /** The VPIP test of tl880_irq and tl880_vpip_int. */
    method VpipInt()
      requires regs.Valid()
      modifies `vpip, regs.words, regs`trace
      ensures regs.words[..] == Video(old(regs.words[..]), old(vpip), intType)
      ensures vpip == VideoCounters(old(regs.words[..]), old(vpip), intType)
      ensures regs.At(0) == old(regs.At(0)) && regs.At(4) == old(regs.At(4))
      ensures ApuWork() == old(ApuWork()) && BltWork() == old(BltWork())
    {
      ghost var w, c := regs.words[..], vpip;
      if intType & 0x80 != 0 {
        var a := regs.Read(0x7008);
        var b := regs.Read(0x7004);
        if a & b & 1 != 0 {
          VpipHandler();
        }
      }
      OthersStay(w, c, intType);
    }

    /** tl880_vpip_handler. */
    method VpipHandler()
      requires regs.Valid()
      modifies `vpip, regs.words, regs`trace
      ensures regs.words[..] == Vpip.Handled(old(regs.words[..]), old(vpip)) && vpip == Vpip.Count(old(vpip))
      ensures regs.trace == old(regs.trace) + Vpip.Trace(old(regs.words[..]), old(vpip))
    {
      hide SetBits, GetBits, Vpip.Row, Vpip.Flip, Vpip.RowTrace;
      if vpip.row < Vpip.ROWS {
        VpipRow();
        vpip := vpip.(row := vpip.row + 1);
      } else if vpip.field < 1 {
        VpipField();
        VpipRow();
        vpip := Vpip.Counters(1, vpip.field + 1);
      } else {
        vpip := Vpip.Counters(1, 1);
      }
    }

    method VpipRow()
      requires regs.Valid()
      modifies regs.words, regs`trace
      ensures regs.words[..] == Vpip.Row(old(regs.words[..]))
      ensures regs.trace == old(regs.trace) + Vpip.RowTrace(old(regs.words[..]))
    {
      hide SetBits;
      regs.WriteBits(0x7000, 0x15, 0x10, 0x3d);
      regs.Write(0x701c, 0x92);
    }

    /** Turns the field over and strobes 0x702c. */
    method VpipField()
      requires regs.Valid()
      modifies regs.words, regs`trace
      ensures regs.words[..] == Vpip.Flip(old(regs.words[..]))
      ensures regs.trace == old(regs.trace) +
              [RegWrite(0x7000, regs.At(0x7000)), RegWrite(0x702c, 0x80000000), RegWrite(0x702c, 0)]
    {
      hide SetBits, GetBits;
      var bitsval := SetBits(0, 0x16, 0xc, 0);
      Vpip.Strobe();
      var bit := regs.ReadBits(0x7000, 0x16, 0x16);
      if bit != 0 {
        regs.WriteBits(0x7000, 0x16, 0x16, 0);
      } else {
        regs.WriteBits(0x7000, 0x16, 0x16, 1);
      }
      regs.Write(0x702c, bitsval | 0x80000000);
      regs.Write(0x702c, bitsval);
    }

    /** The tests of tl880_irq, source by source. */
    method Dispatch()
      requires regs.Valid()
      modifies `intType, `intMask
      ensures intType == Left(old(intType), ApuWork(), BltWork())
      ensures intMask == Keep(intType, old(intMask))
    {
      hide Clear, HasUnknown, Known;
      var fired := intType;
      var left := Clear(Clear(fired, 0x80), 0x8);
      var a := regs.Read(0x3018);
      var b := regs.Read(0x3014);
      if a & b & 0x1 == 0 {
        left := Clear(left, 0x1);
      }
      a := regs.Read(0x4014);
      b := regs.Read(0x4010);
      if a & b & 0x10 == 0 {
        left := Clear(left, 0x2);
      }
      intType := left;
      if HasUnknown(left) {
        intMask := Known(intMask);
      }
    }

    /** APU and BLT registers ask for a bottom half. */
    ghost predicate ApuWork()
      requires regs.Valid()
      reads regs.words
    {
      regs.At(0x3018) & regs.At(0x3014) & 0x1 != 0
    }

    ghost predicate BltWork()
      requires regs.Valid()
      reads regs.words
    {
      regs.At(0x4014) & regs.At(0x4010) & 0x10 != 0
    }

    /** tl880_disable_interrupts. */
    method DisableInterrupts()
      requires regs.Valid()
      modifies `oldMask, `intMask, regs.words, regs`trace
      ensures oldMask == old(regs.At(4)) && View() == Disabled(old(View()))
      ensures regs.words[..] == AllOff(old(regs.words[..]))
    {
      hide AllOff;
      oldMask := regs.Read(4);
      intMask := 0;
      var _ := regs.Read(0);
      ghost var w := regs.words[..];
      WriteZeros();
      AllOffAt(w);
    }

    method WriteZeros()
      requires regs.Valid()
      modifies regs.words, regs`trace
      ensures regs.words[..] == AllOff(old(regs.words[..]))
    {
      regs.Write(4, 0);
      regs.Write(0xc, 0);
      regs.Write(0x6008, 0);
      regs.Write(0x10008, 0);
      regs.Write(0x4010, 0);
      regs.Write(0x1008, 0);
      regs.Write(0x3014, 0);
    }

    /** tl880_bh: clears its sources one by one, leaving early when none is left. */
    method Bh()
      requires regs.Valid()
      modifies this, regs.words, regs`trace
      ensures View() == BottomHalf(old(View()))
      ensures regs.words[..] == BottomWords(old(regs.words[..]), old(intType), old(intMask))
    {
      hide HasAudio;
      tasklet := false;
      intType := ClearFirst(intType);
      if HasAudio(intType) {
        NtscAudioDpc();
      }
      intType := ClearRest(intType);
      regs.Write(4, intMask);
    }

    /** The tests of tl880_bh before the audio one; once nothing is left they do nothing more. */
    static method ClearFirst(fired: bv32) returns (left: bv32)
      ensures HasAudio(left) == HasAudio(fired)
    {
      left := fired;
      if left & 0x80 != 0 { left := left & !0x80; }
      if left & 0x400 != 0 { left := left & !0x400; }
      if left & 0x40 != 0 { left := left & !0x40; }
      if left & 0x8 != 0 { left := left & !0x8; }
      if left & 0x10 != 0 { left := left & !0x10; }
    }

    /** The audio test and those after it; whatever is left then is dropped. */
    static method ClearRest(fired: bv32) returns (left: bv32)
      ensures left == 0
    {
      left := fired;
      if left & 0x1 != 0 {
        left := left & !0x1;
        if left == 0 { return; }
      }
      if left & 0x2 != 0 {
        left := left & !0x2;
        if left == 0 { return; }
      }
      if left & 0x100 != 0 {
        left := left & !0x100;
        if left == 0 { return; }
      }
      if left & 0x200 != 0 {
        left := left & !0x200;
        if left == 0 { return; }
      }
      left := 0;
    }

    /** tl880_ntsc_audio_dpc: the trigger position alternates between the buffer's start and its
        middle. */
    method NtscAudioDpc()
      requires regs.Valid()
      modifies regs.words, regs`trace
      ensures regs.words[..] == old(regs.words[..])[0x3030 / 4 := NextTrigger(old(regs.words[..]))]
    {
      var trigger := regs.Read(0x3030);
      var start := regs.Read(0x3020);
      var end := regs.Read(0x3024);
      if trigger == start {
        regs.Write(0x3030, Middle(start, end));
      } else {
        regs.Write(0x3030, start);
      }
    }
  }

  /** The register words with every interrupt mask cleared. */
  function AllOff(w: seq<bv32>): (r: seq<bv32>)
    requires |w| == SPACE / 4
    ensures |r| == |w|
  {
    w[4 / 4 := 0][0xc / 4 := 0][0x6008 / 4 := 0][0x10008 / 4 := 0][0x4010 / 4 := 0][0x1008 / 4 := 0][0x3014 / 4 := 0]
  }

  lemma AllOffAt(w: seq<bv32>)
    requires |w| == SPACE / 4
    ensures forall k :: 0 <= k < |w| ==>
      AllOff(w)[k] == if k * 4 in {4, 0xc, 0x6008, 0x10008, 0x4010, 0x1008, 0x3014} then 0 else w[k]
  {}

  /** (start + end) / 2 in unsigned 32-bit arithmetic. */
  function Middle(start: bv32, end: bv32): bv32 {
    Half(Plus(start, end))
  }

  function NextTrigger(words: seq<bv32>): bv32
    requires |words| == SPACE / 4
  {
    var trigger, start, end := words[0x3030 / 4], words[0x3020 / 4], words[0x3024 / 4];
    if trigger == start then Middle(start, end) else start
  }

  /** The register words tl880_bh leaves, for these sources and this saved mask. */
  function BottomWords(w: seq<bv32>, sources: bv32, mask: bv32): seq<bv32>
    requires |w| == SPACE / 4
  {
    (if HasAudio(sources) then w[0x3030 / 4 := NextTrigger(w)] else w)[4 / 4 := mask]
  }

  // ---------- an audio interrupt from end to end ----------

  /** What is in flight stays in flight, whatever happens, until the bottom half runs. */
  lemma {:induction false} WaitsForTasklet(s: Ints, steps: seq<Step>)
    requires Inv(s) && Any(s.intType) && LegalRun(s, steps)
    requires forall i :: 0 <= i < |steps| ==> !steps[i].Tasklet?
    ensures Run(s, steps).intType == s.intType && Run(s, steps).pending
    decreases |steps|
  {
    hide Any, Under, Served;
    if steps != [] {
      StepKeepsInv(s, steps[0]);
      NeverBusy(s, []);
      WaitsForTasklet(Next(s, steps[0]), steps[1..]);
    }
  }

  /** An own audio interrupt is left to the bottom half exactly when its registers ask for that. Then
      the bottom half, whenever it runs, moves register 0x3030 to the middle between 0x3020 and 0x3024
      if it stands at 0x3020, else back to 0x3020. If they do not ask, a bottom half that others in
      this interrupt need leaves 0x3030 alone. */
  lemma {:induction false} AudioIsServed(s: Ints, apu: bool, blt: bool, steps: seq<Step>, w: seq<bv32>)
    requires Inv(s) && Common(s.status, s.mask, 1) && |w| == SPACE / 4
    requires LegalRun(TopHalf(s, apu, blt), steps) && forall i :: 0 <= i < |steps| ==> !steps[i].Tasklet?
    ensures var late := Run(TopHalf(s, apu, blt), steps);
            if apu then
              && late.pending
              && BottomWords(w, late.intType, late.intMask)[0x3030 / 4] ==
                 if w[0x3030 / 4] == w[0x3020 / 4] then Half(Plus(w[0x3020 / 4], w[0x3024 / 4])) else w[0x3020 / 4]
            else
              Any(TopHalf(s, apu, blt).intType) ==>
                BottomWords(w, late.intType, late.intMask)[0x3030 / 4] == w[0x3030 / 4]
  {
    hide Common, Left, Keep, HasAudio, Under, Any;
    StepKeepsInv(s, Irq(apu, blt));
    AudioIsSource(s.status, s.mask);
    NeverBusy(s, []);
    LeftHas(s.status, s.mask, apu, blt);
    var t := TopHalf(s, apu, blt);
    if apu || Any(t.intType) { WaitsForTasklet(t, steps); }
  }

  lemma AudioIsSource(status: bv32, mask: bv32)
    ensures Common(status, mask, 1) ==> Any(Under(status, mask))
    ensures forall x :: HasAudio(x) ==> Any(x)
  {}
}
