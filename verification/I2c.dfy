/** The bit-banged I2C buses, six wirings over the same two GPIO registers. */
module I2c {
  import opened Registers
  import opened Lines
  import opened Gpio

  datatype Op =
    | SetScl(bus: nat, high: bool)
    | SetSda(bus: nat, high: bool)
    | GetScl(bus: nat)
    | GetSda(bus: nat)
    | SetLine(card: CardType, line: nat, state: bv8)

  function Value(high: bool): bv32 { if high then 1 else 0 }

  /** An open-drain line: the output bit stays 0, and the pin is driven only to pull it low. */
  function OpenDrain(bit: bv32, high: bool): seq<Assign> {
    [Assign(OUT, bit, 0), Assign(DIR, bit, !Value(high))]
  }

  function Driven(bit: bv32, high: bool): seq<Assign> {
    [Assign(DIR, bit, 1), Assign(OUT, bit, Value(high))]
  }

  /** tl880_i2c_set_scl; an unknown bus id counts as 0. */
  function SclWrites(bus: nat, high: bool): seq<Assign> {
    match bus
    case 1 => Driven(0x12, high)
    case 2 => OpenDrain(0x17, high)
    case 3 => Driven(3, high)
    case 4 => Driven(0x1b, high)
    case 5 => Driven(0x1a, high)
    case _ => OpenDrain(0x1a, high)
  }

  function SdaWrites(bus: nat, high: bool): seq<Assign> {
    match bus
    case 1 => [Assign(OUT, 0x11, Value(high))]
    case 2 => OpenDrain(0x16, high)
    case 3 => Driven(1, high)
    case 4 => Driven(0x1a, high)
    case 5 => Driven(0x1b, high)
    case _ => OpenDrain(0x1b, high)
  }

  function SclPin(bus: nat): bv32 {
    match bus
    case 1 => 0x12
    case 2 => 0x17
    case 3 => 3
    case 4 => 0x1b
    case 5 => 0x1a
    case _ => 0x1a
  }

  /** The pin SDA is read from; buses 1 and 3 write it on another one. */
  function SdaPin(bus: nat): bv32 {
    match bus
    case 1 => 0x10
    case 2 => 0x16
    case 3 => 0
    case 4 => 0x1a
    case 5 => 0x1b
    case _ => 0x1b
  }

  /** Reading a line first stops driving it, except where it is never driven from here. */
  function GetSclWrites(bus: nat): seq<Assign> {
    if bus == 1 then [] else [Assign(DIR, SclPin(bus), 0)]
  }

  function GetSdaWrites(bus: nat): seq<Assign> {
    if bus == 1 || bus == 3 then [] else [Assign(DIR, SdaPin(bus), 0)]
  }

  function Effect(op: Op): seq<Assign> {
    match op
    case SetScl(bus, high) => SclWrites(bus, high)
    case SetSda(bus, high) => SdaWrites(bus, high)
    case GetScl(bus) => GetSclWrites(bus)
    case GetSda(bus) => GetSdaWrites(bus)
    case SetLine(card, line, state) => GpioWrites(card, line, state)
  }

  /** The direction and output bits of a bus's pins, those it only reads included. */
  predicate Uses(bus: nat, reg: nat, bit: bv32) {
    (reg == DIR || reg == OUT) &&
    match bus
    case 1 => bit == 0x10 || bit == 0x11 || bit == 0x12
    case 2 => bit == 0x17 || bit == 0x16
    case 3 => bit == 0 || bit == 1 || bit == 3
    case _ => bit == 0x1a || bit == 0x1b
  }

  predicate OnBus(op: Op, bus: nat) {
    !op.SetLine? && op.bus == bus
  }

  /** Buses that may sit on one card: 0, 4 and 5, and unknown ids, all use pins 26 and 27. */
  predicate Separate(a: nat, b: nat) {
    a in {1, 2, 3} || b in {1, 2, 3}
  }

  predicate UsedBy(list: seq<Assign>, bus: nat) {
    AllProper(list) && forall i :: 0 <= i < |list| ==> Uses(bus, list[i].reg, list[i].bit)
  }

  lemma SetsOwnBits(bus: nat, high: bool)
    ensures UsedBy(SclWrites(bus, high), bus)
    ensures UsedBy(SdaWrites(bus, high), bus)
  {
    hide Value;
  }

  lemma GetsOwnBits(bus: nat)
    ensures UsedBy(GetSclWrites(bus), bus)
    ensures UsedBy(GetSdaWrites(bus), bus)
  {}

  /** An operation writes only bits its own bus uses, a GPIO call none that any bus uses. */
  lemma {:induction false} StaysOnBus(op: Op)
    ensures AllProper(Effect(op))
    ensures op.SetLine? ==> forall i :: 0 <= i < |Effect(op)| ==> 8 <= Effect(op)[i].bit <= 0xf
    ensures !op.SetLine? ==> UsedBy(Effect(op), op.bus)
  {
    hide GpioWrites, SclWrites, SdaWrites, GetSclWrites, GetSdaWrites, Uses;
    match op {
      case SetScl(bus, high) => SetsOwnBits(bus, high);
      case SetSda(bus, high) => SetsOwnBits(bus, high);
      case GetScl(bus) => GetsOwnBits(bus);
      case GetSda(bus) => GetsOwnBits(bus);
      case SetLine(card, line, state) => OnlyGpioBits(card, line, state);
    }
  }

  // ---------- runs ----------

  function EffectAll(ops: seq<Op>): seq<Assign> {
    if ops == [] then [] else Effect(ops[0]) + EffectAll(ops[1..])
  }

  function Own(ops: seq<Op>, bus: nat): seq<Op> {
    if ops == [] then []
    else (if OnBus(ops[0], bus) then [ops[0]] else []) + Own(ops[1..], bus)
  }

  lemma {:induction false} EffectAllIsProper(ops: seq<Op>)
    ensures AllProper(EffectAll(ops))
  {
    hide Effect;
    if ops != [] {
      StaysOnBus(ops[0]);
      EffectAllIsProper(ops[1..]);
    }
  }

  predicate OneCard(ops: seq<Op>, bus: nat) {
    forall i :: 0 <= i < |ops| ==> ops[i].SetLine? || ops[i].bus == bus || Separate(ops[i].bus, bus)
  }

  /** Non-interference. In any interleaving of operations on the buses of one card and GPIO calls,
      each bit a bus uses ends as if only that bus's own operations had happened. */
  lemma {:induction false} BusesDoNotInterfere(ops: seq<Op>, bus: nat, w: seq<bv32>, reg: nat, bit: bv32)
    requires |w| == SPACE / 4 && bus <= 5 && Uses(bus, reg, bit) && OneCard(ops, bus)
    ensures AllProper(EffectAll(ops)) && AllProper(EffectAll(Own(ops, bus))) && bit < 32
    ensures IsSet(ApplyAll(w, EffectAll(ops)), reg, bit) ==
            IsSet(ApplyAll(w, EffectAll(Own(ops, bus))), reg, bit)
  {
    hide IsSet, Effect;
    EffectAllIsProper(ops);
    EffectAllIsProper(Own(ops, bus));
    BitAfter(w, EffectAll(ops), reg, bit);
    BitAfter(w, EffectAll(Own(ops, bus)), reg, bit);
    OnlyOwnCounts(ops, bus, reg, bit, IsSet(w, reg, bit));
  }

  lemma {:induction false} OthersAreInvisible(op: Op, bus: nat, reg: nat, bit: bv32, was: bool)
    requires bus <= 5 && Uses(bus, reg, bit) && !OnBus(op, bus) && (op.SetLine? || Separate(op.bus, bus))
    ensures Last(Effect(op), reg, bit, was) == was
  {
    hide Effect, LowBit;
    StaysOnBus(op);
    Untouched(Effect(op), reg, bit, was);
  }

  lemma {:induction false} OnlyOwnCounts(ops: seq<Op>, bus: nat, reg: nat, bit: bv32, was: bool)
    requires bus <= 5 && Uses(bus, reg, bit) && OneCard(ops, bus)
    ensures Last(EffectAll(ops), reg, bit, was) == Last(EffectAll(Own(ops, bus)), reg, bit, was)
    decreases |ops|
  {
    hide Effect, Uses, LowBit;
    if ops != [] {
      var e := Effect(ops[0]);
      LastOfBoth(e, EffectAll(ops[1..]), reg, bit, was);
      if OnBus(ops[0], bus) {
        LastOfBoth(e, EffectAll(Own(ops[1..], bus)), reg, bit, was);
        assert Own(ops, bus)[1..] == Own(ops[1..], bus);
      } else {
        assert Own(ops, bus) == Own(ops[1..], bus);
        OthersAreInvisible(ops[0], bus, reg, bit, was);
      }
      OnlyOwnCounts(ops[1..], bus, reg, bit, Last(e, reg, bit, was));
    }
  }

  /** Two buses are independent, for every operation and every register contents, exactly when they
      are Separate: of different ids, only 0, 4 and 5 get in each other's way. */
  ghost predicate Independent(a: nat, b: nat) {
    forall op, reg, bit, was :: OnBus(op, a) && Uses(b, reg, bit) ==> Last(Effect(op), reg, bit, was) == was
  }

  lemma {:induction false} IndependentIff(a: nat, b: nat)
    requires a <= 5 && b <= 5 && a != b
    ensures Independent(a, b) <==> Separate(a, b)
  {
    if Separate(a, b) {
      forall op, reg, bit, was | OnBus(op, a) && Uses(b, reg, bit)
        ensures Last(Effect(op), reg, bit, was) == was
      {
        StaysOnBus(op);
        Untouched(Effect(op), reg, bit, was);
      }
    } else {
      var op := SetScl(a, false);
      assert OnBus(op, a) && Uses(b, OUT, SclPin(a)) && Uses(a, OUT, SclPin(a));
      SclPullsLow(a);
      assert Last(Effect(op), OUT, SclPin(a), true) != true;
    }
  }

  lemma SclPullsLow(bus: nat)
    ensures !Last(SclWrites(bus, false), OUT, SclPin(bus), true)
  {
    var list := SclWrites(bus, false);
    assert !LowBit(0) && !LowBit(Value(false));
    LastOfTwo(list[0], list[1], OUT, SclPin(bus), true);
  }

  // ---------- open drain ----------

  predicate DrivenHigh(w: seq<bv32>, pin: bv32)
    requires |w| == SPACE / 4 && pin < 32
  {
    IsSet(w, DIR, pin) && IsSet(w, OUT, pin)
  }

  /** What tl880_init_i2c does to the MDP-110: both lines of buses 0, 1 and 2 set low. */
  function InitOps(): seq<Op> {
    [SetScl(0, false), SetSda(0, false), SetScl(1, false), SetSda(1, false), SetScl(2, false), SetSda(2, false)]
  }

  predicate Mdp110Op(op: Op) {
    if op.SetLine? then op.card == Mdp110 else op.bus <= 2
  }

  /** No operation of that card ever sets an output bit of bus 0 or 2. */
  lemma {:induction false} OnlyClears(op: Op, bit: bv32, was: bool)
    requires Mdp110Op(op) && bit in {0x1a, 0x1b, 0x16, 0x17}
    ensures Last(Effect(op), OUT, bit, was) ==> was
  {
    hide GpioWrites, LowBit;
    var list := Effect(op);
    StaysOnBus(op);
    if forall i :: 0 <= i < |list| ==> !list[i].To(OUT, bit) {
      Untouched(list, OUT, bit, was);
    } else {
      assert !LowBit(0) by { ZeroIsLow(); }
      assert |list| == 2 && list == [list[0], list[1]];
      LastOfTwo(list[0], list[1], OUT, bit, was);
    }
  }

  lemma ZeroIsLow()
    ensures !LowBit(0)
  {}

  lemma {:induction false} RunOnlyClears(ops: seq<Op>, bit: bv32, was: bool)
    requires (forall i :: 0 <= i < |ops| ==> Mdp110Op(ops[i])) && bit in {0x1a, 0x1b, 0x16, 0x17}
    ensures Last(EffectAll(ops), OUT, bit, was) ==> was
    decreases |ops|
  {
    hide Effect;
    if ops != [] {
      LastOfBoth(Effect(ops[0]), EffectAll(ops[1..]), OUT, bit, was);
      OnlyClears(ops[0], bit, was);
      RunOnlyClears(ops[1..], bit, Last(Effect(ops[0]), OUT, bit, was));
    }
  }

  /** Initialisation clears the output bits of the open-drain lines. */
  lemma {:induction false} InitClears(bit: bv32, was: bool)
    requires bit in {0x1a, 0x1b, 0x16, 0x17}
    ensures !Last(EffectAll(InitOps()), OUT, bit, was)
  {
    hide LowBit;
    ZeroIsLow();
    var k := if bit == 0x1a then 0 else if bit == 0x1b then 1 else if bit == 0x17 then 4 else 5;
    var ops := InitOps();
    EffectAllSplits(ops[..k], ops[k..]);
    assert ops == ops[..k] + ops[k..];
    var before := Last(EffectAll(ops[..k]), OUT, bit, was);
    LastOfBoth(EffectAll(ops[..k]), EffectAll(ops[k..]), OUT, bit, was);
    LastOfBoth(Effect(ops[k]), EffectAll(ops[k + 1..]), OUT, bit, before);
    assert ops[k..][1..] == ops[k + 1..];
    LastOfTwo(Effect(ops[k])[0], Effect(ops[k])[1], OUT, bit, before);
    RunOnlyClears(ops[k + 1..], bit, false);
  }

  lemma {:induction false} EffectAllSplits(a: seq<Op>, b: seq<Op>)
    ensures EffectAll(a + b) == EffectAll(a) + EffectAll(b)
    decreases |a|
  {
    hide Effect;
    if a == [] {
      assert a + b == b;
    } else {
      EffectAllSplits(a[1..], b);
      assert (a + b)[1..] == a[1..] + b;
    }
  }

  /** Once the MDP-110's buses are initialised, no run of I2C operations and GPIO calls ever drives
      a line of bus 0 or 2 high: such a line is pulled low or left alone. */
  lemma {:induction false} NeverDrivenHigh(w: seq<bv32>, ops: seq<Op>, pin: bv32)
    requires |w| == SPACE / 4 && forall i :: 0 <= i < |ops| ==> Mdp110Op(ops[i])
    requires pin in {0x1a, 0x1b, 0x16, 0x17}
    ensures AllProper(EffectAll(InitOps() + ops))
    ensures !DrivenHigh(ApplyAll(w, EffectAll(InitOps() + ops)), pin)
  {
    hide IsSet, Effect;
    var was := IsSet(w, OUT, pin);
    EffectAllIsProper(InitOps() + ops);
    BitAfter(w, EffectAll(InitOps() + ops), OUT, pin);
    EffectAllSplits(InitOps(), ops);
    LastOfBoth(EffectAll(InitOps()), EffectAll(ops), OUT, pin, was);
    InitClears(pin, was);
    RunOnlyClears(ops, pin, Last(EffectAll(InitOps()), OUT, pin, was));
  }

  // ---------- what a line shows ----------

  lemma ValueBits(high: bool)
    ensures LowBit(1) && !LowBit(0) && LowBit(Value(high)) == high && LowBit(!Value(high)) == !high
  {}

  /** An open-drain line, once set, floats for high and is pulled low for low. */
  lemma {:induction false} OpenDrainShows(w: seq<bv32>, bit: bv32, high: bool)
    requires |w| == SPACE / 4 && bit < 32
    ensures AllProper(OpenDrain(bit, high))
    ensures LevelOf(ApplyAll(w, OpenDrain(bit, high)), bit) == if high then Floating else Low
  {
    hide IsSet, LowBit, Value;
    ValueBits(high);
    var list := OpenDrain(bit, high);
    assert AllProper(list);
    BitAfter(w, list, DIR, bit);
    BitAfter(w, list, OUT, bit);
    LastOfTwo(list[0], list[1], DIR, bit, IsSet(w, DIR, bit));
    LastOfTwo(list[0], list[1], OUT, bit, IsSet(w, OUT, bit));
  }

  lemma {:induction false} DrivenShows(w: seq<bv32>, bit: bv32, high: bool)
    requires |w| == SPACE / 4 && bit < 32
    ensures AllProper(Driven(bit, high))
    ensures LevelOf(ApplyAll(w, Driven(bit, high)), bit) == if high then High else Low
  {
    hide IsSet, LowBit, Value;
    ValueBits(high);
    var list := Driven(bit, high);
    assert AllProper(list);
    BitAfter(w, list, DIR, bit);
    BitAfter(w, list, OUT, bit);
    LastOfTwo(list[0], list[1], DIR, bit, IsSet(w, DIR, bit));
    LastOfTwo(list[0], list[1], OUT, bit, IsSet(w, OUT, bit));
  }

  lemma {:induction false} OneAssigned(w: seq<bv32>, a: Assign, reg: nat, bit: bv32)
    requires |w| == SPACE / 4 && a.Proper() && reg % 4 == 0 && reg < SPACE && bit < 32
    ensures AllProper([a])
    ensures IsSet(ApplyAll(w, [a]), reg, bit) == if a.To(reg, bit) then LowBit(a.value) else IsSet(w, reg, bit)
  {
    hide IsSet, LowBit;
    BitAfter(w, [a], reg, bit);
    LastOfTwo(a, a, reg, bit, IsSet(w, reg, bit));
  }

  /** The clock, from any register contents: low is driven low on every bus; high is left floating on
      buses 0 and 2, and driven high on the others. */
  lemma {:induction false} SclShows(w: seq<bv32>, bus: nat, high: bool)
    requires |w| == SPACE / 4
    ensures AllProper(SclWrites(bus, high))
    ensures var after := ApplyAll(w, SclWrites(bus, high));
            match bus
            case 1 => LevelOf(after, 0x12) == if high then High else Low
            case 2 => LevelOf(after, 0x17) == if high then Floating else Low
            case 3 => LevelOf(after, 3) == if high then High else Low
            case 4 => LevelOf(after, 0x1b) == if high then High else Low
            case 5 => LevelOf(after, 0x1a) == if high then High else Low
            case _ => LevelOf(after, 0x1a) == if high then Floating else Low
  {
    hide LevelOf, OpenDrain, Driven;
    match bus {
      case 1 => DrivenShows(w, 0x12, high);
      case 2 => OpenDrainShows(w, 0x17, high);
      case 3 => DrivenShows(w, 3, high);
      case 4 => DrivenShows(w, 0x1b, high);
      case 5 => DrivenShows(w, 0x1a, high);
      case _ => OpenDrainShows(w, 0x1a, high);
    }
  }

  /** The data line likewise, on the pin it is written to. Bus 1 sets only that pin's output bit: who
      drives it is decided elsewhere. */
  lemma {:induction false} SdaShows(w: seq<bv32>, bus: nat, high: bool)
    requires |w| == SPACE / 4
    ensures AllProper(SdaWrites(bus, high))
    ensures var after := ApplyAll(w, SdaWrites(bus, high));
            match bus
            case 1 => IsSet(after, OUT, 0x11) == high && IsSet(after, DIR, 0x11) == IsSet(w, DIR, 0x11)
            case 2 => LevelOf(after, 0x16) == if high then Floating else Low
            case 3 => LevelOf(after, 1) == if high then High else Low
            case 4 => LevelOf(after, 0x1a) == if high then High else Low
            case 5 => LevelOf(after, 0x1b) == if high then High else Low
            case _ => LevelOf(after, 0x1b) == if high then Floating else Low
  {
    hide LevelOf, OpenDrain, Driven, IsSet, Value;
    match bus {
      case 1 =>
        ValueBits(high);
        OneAssigned(w, Assign(OUT, 0x11, Value(high)), OUT, 0x11);
        OneAssigned(w, Assign(OUT, 0x11, Value(high)), DIR, 0x11);
      case 2 => OpenDrainShows(w, 0x16, high);
      case 3 => DrivenShows(w, 1, high);
      case 4 => DrivenShows(w, 0x1a, high);
      case 5 => DrivenShows(w, 0x1b, high);
      case _ => OpenDrainShows(w, 0x1b, high);
    }
  }

  lemma {:induction false} OnePinOnly(w: seq<bv32>, list: seq<Assign>, pin: bv32, reg: nat, bit: bv32)
    requires |w| == SPACE / 4 && AllProper(list) && forall i :: 0 <= i < |list| ==> list[i].bit == pin
    requires reg % 4 == 0 && reg < SPACE && bit < 32 && bit != pin
    ensures IsSet(ApplyAll(w, list), reg, bit) == IsSet(w, reg, bit)
  {
    hide IsSet, LowBit;
    BitAfter(w, list, reg, bit);
    Untouched(list, reg, bit, IsSet(w, reg, bit));
  }

  /** Setting the clock leaves every other pin alone, the bus's data line included. */
  lemma {:induction false} SclAlone(w: seq<bv32>, bus: nat, high: bool, reg: nat, bit: bv32)
    requires |w| == SPACE / 4 && reg % 4 == 0 && reg < SPACE && bit < 32
    requires bit != match bus case 1 => 0x12 case 2 => 0x17 case 3 => 3 case 4 => 0x1b case _ => 0x1a
    ensures AllProper(SclWrites(bus, high))
    ensures IsSet(ApplyAll(w, SclWrites(bus, high)), reg, bit) == IsSet(w, reg, bit)
  {
    hide IsSet, LowBit, Value;
    OnePinOnly(w, SclWrites(bus, high), SclPin(bus), reg, bit);
  }

  /** Setting the data line likewise; the pin it is read from counts as another where it is one. */
  lemma {:induction false} SdaAlone(w: seq<bv32>, bus: nat, high: bool, reg: nat, bit: bv32)
    requires |w| == SPACE / 4 && reg % 4 == 0 && reg < SPACE && bit < 32
    requires bit != match bus case 1 => 0x11 case 2 => 0x16 case 3 => 1 case 4 => 0x1a case _ => 0x1b
    ensures AllProper(SdaWrites(bus, high))
    ensures IsSet(ApplyAll(w, SdaWrites(bus, high)), reg, bit) == IsSet(w, reg, bit)
  {
    hide IsSet, LowBit, Value;
    var pin := if bus == 1 then 0x11 else if bus == 3 then 1 else SdaPin(bus);
    OnePinOnly(w, SdaWrites(bus, high), pin, reg, bit);
  }

  /** Reading a line leaves it floating, except where it is never driven from here: bus 1, and the
      data line of bus 3, are read as they are. */
  lemma {:induction false} GetsFloat(w: seq<bv32>, bus: nat)
    requires |w| == SPACE / 4
    ensures AllProper(GetSclWrites(bus)) && AllProper(GetSdaWrites(bus))
    ensures var after := ApplyAll(w, GetSclWrites(bus));
            match bus
            case 1 => after == w
            case 2 => LevelOf(after, 0x17) == Floating
            case 3 => LevelOf(after, 3) == Floating
            case 4 => LevelOf(after, 0x1b) == Floating
            case _ => LevelOf(after, 0x1a) == Floating
    ensures var after := ApplyAll(w, GetSdaWrites(bus));
            match bus
            case 1 => after == w
            case 2 => LevelOf(after, 0x16) == Floating
            case 3 => after == w
            case 4 => LevelOf(after, 0x1a) == Floating
            case _ => LevelOf(after, 0x1b) == Floating
  {
    hide IsSet, Apply;
    assert !LowBit(0) by { ZeroIsLow(); }
    OneAssigned(w, Assign(DIR, SclPin(bus), 0), DIR, SclPin(bus));
    OneAssigned(w, Assign(DIR, SdaPin(bus), 0), DIR, SdaPin(bus));
  }

  // ---------- the routines ----------

  class Bus {
    const pins: Pins
    const id: nat

    constructor (pins: Pins, id: nat)
      ensures this.pins == pins && this.id == id
    {
      this.pins, this.id := pins, id;
    }

    /** tl880_i2c_set_scl. */
    method SetSclLine(state: int)
      requires pins.regs.Valid()
      modifies pins.regs.words, pins.regs`trace
      ensures AllProper(SclWrites(id, state != 0))
      ensures pins.regs.words[..] == ApplyAll(old(pins.regs.words[..]), SclWrites(id, state != 0))
      ensures pins.regs.trace == old(pins.regs.trace) + Traced(old(pins.regs.words[..]), SclWrites(id, state != 0))
    {
      hide Apply, Written, ApplyAll, Traced;
      var s := Value(state != 0);
      Unroll(pins.regs.words[..], SclWrites(id, state != 0));
      match id {
        case 1 =>
          pins.PutBoth(Assign(DIR, 0x12, 1), Assign(OUT, 0x12, s));
        case 2 =>
          pins.PutBoth(Assign(OUT, 0x17, 0), Assign(DIR, 0x17, !s));
        case 3 =>
          pins.PutBoth(Assign(DIR, 3, 1), Assign(OUT, 3, s));
        case 4 =>
          pins.PutBoth(Assign(DIR, 0x1b, 1), Assign(OUT, 0x1b, s));
        case 5 =>
          pins.PutBoth(Assign(DIR, 0x1a, 1), Assign(OUT, 0x1a, s));
        case _ =>
          pins.PutBoth(Assign(OUT, 0x1a, 0), Assign(DIR, 0x1a, !s));
      }
    }

    /** tl880_i2c_set_sda. */
    method SetSdaLine(state: int)
      requires pins.regs.Valid()
      modifies pins.regs.words, pins.regs`trace
      ensures AllProper(SdaWrites(id, state != 0))
      ensures pins.regs.words[..] == ApplyAll(old(pins.regs.words[..]), SdaWrites(id, state != 0))
      ensures pins.regs.trace == old(pins.regs.trace) + Traced(old(pins.regs.words[..]), SdaWrites(id, state != 0))
    {
      hide Apply, Written, ApplyAll, Traced;
      var s := Value(state != 0);
      Unroll(pins.regs.words[..], SdaWrites(id, state != 0));
      match id {
        case 1 =>
          pins.Put(OUT, 0x11, s);
        case 2 =>
          pins.PutBoth(Assign(OUT, 0x16, 0), Assign(DIR, 0x16, !s));
        case 3 =>
          pins.PutBoth(Assign(DIR, 1, 1), Assign(OUT, 1, s));
        case 4 =>
          pins.PutBoth(Assign(DIR, 0x1a, 1), Assign(OUT, 0x1a, s));
        case 5 =>
          pins.PutBoth(Assign(DIR, 0x1b, 1), Assign(OUT, 0x1b, s));
        case _ =>
          pins.PutBoth(Assign(OUT, 0x1b, 0), Assign(DIR, 0x1b, !s));
      }
    }

    /** tl880_i2c_get_scl. */
    method GetSclLine() returns (value: int)
      requires pins.regs.Valid()
      modifies pins.regs.words, pins.regs`trace
      ensures AllProper(GetSclWrites(id))
      ensures pins.regs.words[..] == ApplyAll(old(pins.regs.words[..]), GetSclWrites(id))
      ensures pins.regs.trace == old(pins.regs.trace) + Traced(old(pins.regs.words[..]), GetSclWrites(id))
      ensures var pin: bv32 := match id case 1 => 0x12 case 2 => 0x17 case 3 => 3 case 4 => 0x1b case _ => 0x1a;
              value == if IsSet(pins.regs.words[..], 0x1019c, pin) then 1 else 0
    {
      hide Apply, Written, ApplyAll, Traced;
      Unroll(pins.regs.words[..], GetSclWrites(id));
      if id != 1 {
        pins.Put(DIR, SclPin(id), 0);
      }
      var v := pins.regs.ReadBits(INPUT, SclPin(id), SclPin(id));
      return if v != 0 then 1 else 0;
    }

    /** tl880_i2c_get_sda. */
    method GetSdaLine() returns (value: int)
      requires pins.regs.Valid()
      modifies pins.regs.words, pins.regs`trace
      ensures AllProper(GetSdaWrites(id))
      ensures pins.regs.words[..] == ApplyAll(old(pins.regs.words[..]), GetSdaWrites(id))
      ensures pins.regs.trace == old(pins.regs.trace) + Traced(old(pins.regs.words[..]), GetSdaWrites(id))
      ensures var pin: bv32 := match id case 1 => 0x10 case 2 => 0x16 case 3 => 0 case 4 => 0x1a case _ => 0x1b;
              value == if IsSet(pins.regs.words[..], 0x1019c, pin) then 1 else 0
    {
      hide Apply, Written, ApplyAll, Traced;
      Unroll(pins.regs.words[..], GetSdaWrites(id));
      if id != 1 && id != 3 {
        pins.Put(DIR, SdaPin(id), 0);
      }
      var v := pins.regs.ReadBits(INPUT, SdaPin(id), SdaPin(id));
      return if v != 0 then 1 else 0;
    }
  }
}
