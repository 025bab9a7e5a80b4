/** tl880_set_gpio and the sample-rate coding built on it. */
module Gpio {
  import opened Bits
  import opened Registers
  import opened Lines

  /** The card types whose GPIO lines hang on the card's own registers; Other stands for the types
      tl880_set_gpio has no branch for. The MDP-120 and MDP-130, whose lines hang on the VPX chip,
      are not part of this model. */
  datatype CardType = Janus | Mdp100A | Mdp100 | Mdp110 | Other

  /** What is written for ~state: the state is promoted before the complement. */
  function Not(state: bv8): bv32 {
    !(state as bv32)
  }

  function JanusWrites(line: nat, state: bv8): seq<Assign> {
    var s := state as bv32;
    match line
    case 0 => [Assign(OUT, 8, s)]
    case 1 =>
      if state == 1 then [Assign(OUT, 0xa, Not(state)), Assign(OUT, 9, s)]
      else [Assign(OUT, 9, s), Assign(OUT, 0xa, Not(state))]
    case 2 =>
      if state == 1 then [Assign(OUT, 9, Not(state)), Assign(OUT, 0xa, s)]
      else [Assign(OUT, 0xa, s), Assign(OUT, 9, Not(state))]
    case 3 =>
      if state == 1 then [Assign(OUT, 0xb, s), Assign(OUT, 0xe, Not(state))]
      else [Assign(OUT, 0xe, Not(state)), Assign(OUT, 0xb, s)]
    case 4 =>
      if state == 1 then [Assign(OUT, 0xe, s), Assign(OUT, 0xb, Not(state))]
      else [Assign(OUT, 0xb, Not(state)), Assign(OUT, 0xe, s)]
    case 8 => TriState(0xc, state)
    case 9 => TriState(0xd, state)
    case _ => []
  }

  /** A line with three states: driven low, driven high, or not driven. */
  function TriState(bit: bv32, state: bv8): seq<Assign> {
    if state == 0 then [Assign(DIR, bit, 1), Assign(OUT, bit, 0)]
    else if state == 1 then [Assign(DIR, bit, 1), Assign(OUT, bit, 1)]
    else [Assign(DIR, bit, 0)]
  }

  function Mdp100AWrites(line: nat, state: bv8): seq<Assign> {
    var s := state as bv32;
    match line
    case 0 => [Assign(OUT, 8, s)]
    case 1 =>
      if state == 1 then [Assign(OUT, 0xa, Not(state)), Assign(OUT, 9, s)]
      else [Assign(OUT, 9, s), Assign(OUT, 0xa, Not(state))]
    case 2 =>
      if state == 1 then [Assign(OUT, 9, Not(state)), Assign(OUT, 0xa, s)]
      else [Assign(OUT, 0xa, s), Assign(OUT, 9, Not(state))]
    case 3 =>
      if state != 1 then [Assign(OUT, 0xc, Not(state)), Assign(OUT, 0xb, s)]
      else [Assign(OUT, 0xb, s)]
    case 4 => Line4(state)
    case 5 => [Assign(OUT, 0xd, s)]
    case 6 => [Assign(OUT, 0xe, s)]
    case _ => []
  }

  function Line4(state: bv8): seq<Assign> {
    var s := state as bv32;
    if state == 1 then [Assign(OUT, 0xc, s), Assign(OUT, 0xd, s)]
    else [Assign(OUT, 0xb, Not(state)), Assign(OUT, 0xc, s), Assign(OUT, 0xd, s)]
  }

  function Mdp110Writes(line: nat, state: bv8): seq<Assign> {
    var s := state as bv32;
    match line
    case 0 => [Assign(OUT, 8, s)]
    case 2 => [Assign(OUT, 0xa, s)]
    case 3 =>
      if state == 0 then [Assign(OUT, 0xc, Not(state)), Assign(OUT, 0xb, s)]
      else [Assign(OUT, 0xb, s)]
    case 4 => Line4(state)
    case 5 => [Assign(OUT, 0xd, s)]
    case 6 => [Assign(DIR, 0xe, 1), Assign(OUT, 0xe, s)]
    case 8 => TriState(9, state)
    case 9 => TriState(0xf, state)
    case _ => []
  }

  function GpioWrites(card: CardType, line: nat, state: bv8): seq<Assign> {
    match card
    case Janus => JanusWrites(line, state)
    case Mdp100A => Mdp100AWrites(line, state)
    case Mdp100 => Mdp110Writes(line, state)
    case Mdp110 => Mdp110Writes(line, state)
    case Other => []
  }

  predicate GpioOnly(list: seq<Assign>) {
    && AllProper(list)
    && |list| <= 3
    && forall i :: 0 <= i < |list| ==> (list[i].reg == DIR || list[i].reg == OUT) && 8 <= list[i].bit <= 0xf
  }

  /** Whatever the card, line and state, only bits 8 to 15 of the two registers are written. */
  lemma OnlyGpioBits(card: CardType, line: nat, state: bv8)
    ensures GpioOnly(GpioWrites(card, line, state))
  {
    match card {
      case Janus => OnlyGpioBitsJanus(line, state);
      case Mdp100A => OnlyGpioBitsMdp100A(line, state);
      case Mdp100 => OnlyGpioBitsMdp110(line, state);
      case Mdp110 => OnlyGpioBitsMdp110(line, state);
      case Other =>
    }
  }

  lemma OnlyGpioBitsJanus(line: nat, state: bv8)
    ensures GpioOnly(JanusWrites(line, state))
  {
    hide Not;
  }

  lemma OnlyGpioBitsMdp100A(line: nat, state: bv8)
    ensures GpioOnly(Mdp100AWrites(line, state))
  {
    hide Not;
  }

  lemma OnlyGpioBitsMdp110(line: nat, state: bv8)
    ensures GpioOnly(Mdp110Writes(line, state))
  {
    hide Not;
  }

  class Board {
    const pins: Pins
    const card: CardType

    constructor (pins: Pins, card: CardType)
      ensures this.pins == pins && this.card == card
    {
      this.pins, this.card := pins, card;
    }

    /** tl880_set_gpio. */
    method SetGpio(line: nat, state: bv8) returns (ok: nat)
      requires pins.regs.Valid()
      modifies pins.regs.words, pins.regs`trace
      ensures AllProper(GpioWrites(card, line, state))
      ensures pins.regs.words[..] == ApplyAll(old(pins.regs.words[..]), GpioWrites(card, line, state))
      ensures pins.regs.trace == old(pins.regs.trace) + Traced(old(pins.regs.words[..]), GpioWrites(card, line, state))
      ensures ok == 1
    {
      OnlyGpioBits(card, line, state);
      Unroll(pins.regs.words[..], GpioWrites(card, line, state));
      match card {
        case Janus => SetJanus(line, state);
        case Mdp100A => SetMdp100A(line, state);
        case Mdp100 => SetMdp110(line, state);
        case Mdp110 => SetMdp110(line, state);
        case Other =>
      }
      return 1;
    }

    method SetJanus(line: nat, state: bv8)
      requires pins.regs.Valid() && card == Janus
      modifies pins.regs.words, pins.regs`trace
      ensures AllProper(JanusWrites(line, state))
      ensures pins.regs.words[..] == ApplyAll(old(pins.regs.words[..]), JanusWrites(line, state))
      ensures pins.regs.trace == old(pins.regs.trace) + Traced(old(pins.regs.words[..]), JanusWrites(line, state))
    {
      hide Apply, Written, ApplyAll, Traced, Not;
      var s := state as bv32;
      ghost var w := pins.regs.words[..];
      OnlyGpioBits(Janus, line, state);
      Unroll(w, JanusWrites(line, state));
      match line {
        case 0 =>
          pins.Put(OUT, 8, s);
        case 1 =>
          if state == 1 {
            pins.PutBoth(Assign(OUT, 0xa, Not(state)), Assign(OUT, 9, s));
          } else {
            pins.PutBoth(Assign(OUT, 9, s), Assign(OUT, 0xa, Not(state)));
          }
        case 2 =>
          if state == 1 {
            pins.PutBoth(Assign(OUT, 9, Not(state)), Assign(OUT, 0xa, s));
          } else {
            pins.PutBoth(Assign(OUT, 0xa, s), Assign(OUT, 9, Not(state)));
          }
        case 3 =>
          if state == 1 {
            pins.PutBoth(Assign(OUT, 0xb, s), Assign(OUT, 0xe, Not(state)));
          } else {
            pins.PutBoth(Assign(OUT, 0xe, Not(state)), Assign(OUT, 0xb, s));
          }
        case 4 =>
          if state == 1 {
            pins.PutBoth(Assign(OUT, 0xe, s), Assign(OUT, 0xb, Not(state)));
          } else {
            pins.PutBoth(Assign(OUT, 0xb, Not(state)), Assign(OUT, 0xe, s));
          }
        case 8 => SetTriState(0xc, state);
        case 9 => SetTriState(0xd, state);
        case _ =>
      }
    }

    method SetTriState(bit: bv32, state: bv8)
      requires pins.regs.Valid() && bit < 32
      modifies pins.regs.words, pins.regs`trace
      ensures pins.regs.words[..] == ApplyAll(old(pins.regs.words[..]), TriState(bit, state))
      ensures pins.regs.trace == old(pins.regs.trace) + Traced(old(pins.regs.words[..]), TriState(bit, state))
    {
      hide Apply, Written, ApplyAll, Traced;
      Unroll(pins.regs.words[..], TriState(bit, state));
      match state {
        case 0 =>
          pins.Put(DIR, bit, 1);
          pins.Put(OUT, bit, 0);
        case 1 =>
          pins.Put(DIR, bit, 1);
          pins.Put(OUT, bit, 1);
        case _ =>
          pins.Put(DIR, bit, 0);
      }
    }

    method SetLine4(state: bv8)
      requires pins.regs.Valid()
      modifies pins.regs.words, pins.regs`trace
      ensures AllProper(Line4(state))
      ensures pins.regs.words[..] == ApplyAll(old(pins.regs.words[..]), Line4(state))
      ensures pins.regs.trace == old(pins.regs.trace) + Traced(old(pins.regs.words[..]), Line4(state))
    {
      hide Apply, Written, ApplyAll, Traced, Not;
      var s := state as bv32;
      Unroll(pins.regs.words[..], Line4(state));
      if state == 1 {
        pins.Put(OUT, 0xc, s);
        pins.Put(OUT, 0xd, s);
      } else {
        pins.Put(OUT, 0xb, Not(state));
        pins.Put(OUT, 0xc, s);
        pins.Put(OUT, 0xd, s);
      }
    }

    method SetMdp100A(line: nat, state: bv8)
      requires pins.regs.Valid() && card == Mdp100A
      modifies pins.regs.words, pins.regs`trace
      ensures AllProper(Mdp100AWrites(line, state))
      ensures pins.regs.words[..] == ApplyAll(old(pins.regs.words[..]), Mdp100AWrites(line, state))
      ensures pins.regs.trace == old(pins.regs.trace) + Traced(old(pins.regs.words[..]), Mdp100AWrites(line, state))
    {
      hide Apply, Written, ApplyAll, Traced, Not;
      var s := state as bv32;
      ghost var w := pins.regs.words[..];
      OnlyGpioBits(Mdp100A, line, state);
      Unroll(w, Mdp100AWrites(line, state));
      match line {
        case 0 =>
          pins.Put(OUT, 8, s);
        case 1 =>
          if state == 1 {
            pins.Put(OUT, 0xa, Not(state));
            pins.Put(OUT, 9, s);
          } else {
            pins.Put(OUT, 9, s);
            pins.Put(OUT, 0xa, Not(state));
          }
        case 2 =>
          if state == 1 {
            pins.Put(OUT, 9, Not(state));
            pins.Put(OUT, 0xa, s);
          } else {
            pins.Put(OUT, 0xa, s);
            pins.Put(OUT, 9, Not(state));
          }
        case 3 =>
          if state != 1 {
            pins.Put(OUT, 0xc, Not(state));
            pins.Put(OUT, 0xb, s);
          } else {
            pins.Put(OUT, 0xb, s);
          }
        case 4 => SetLine4(state);
        case 5 =>
          pins.Put(OUT, 0xd, s);
        case 6 =>
          pins.Put(OUT, 0xe, s);
        case _ =>
      }
    }

    /** The branch for the MDP-100 and the MDP-110. */
    method SetMdp110(line: nat, state: bv8)
      requires pins.regs.Valid() && (card == Mdp100 || card == Mdp110)
      modifies pins.regs.words, pins.regs`trace
      ensures AllProper(Mdp110Writes(line, state))
      ensures pins.regs.words[..] == ApplyAll(old(pins.regs.words[..]), Mdp110Writes(line, state))
      ensures pins.regs.trace == old(pins.regs.trace) + Traced(old(pins.regs.words[..]), Mdp110Writes(line, state))
    {
      hide Apply, Written, ApplyAll, Traced, Not;
      var s := state as bv32;
      ghost var w := pins.regs.words[..];
      OnlyGpioBits(Mdp110, line, state);
      Unroll(w, Mdp110Writes(line, state));
      if line > 9 {
        return;
      }
      match line {
        case 0 =>
          pins.Put(OUT, 8, s);
        case 1 =>
        case 2 =>
          pins.Put(OUT, 0xa, s);
        case 3 =>
          if state == 0 {
            pins.Put(OUT, 0xc, Not(state));
            pins.Put(OUT, 0xb, s);
          } else {
            pins.Put(OUT, 0xb, s);
          }
        case 4 => SetLine4(state);
        case 5 =>
          pins.Put(OUT, 0xd, s);
        case 6 =>
          pins.Put(DIR, 0xe, 1);
          pins.Put(OUT, 0xe, s);
        case 7 =>
        case 8 => SetTriState(9, state);
        case 9 => SetTriState(0xf, state);
      }
    }

    /** tl880_set_samplerate: whether the rate was accepted. */
    method SetSampleRate(rate: int) returns (accepted: bool)
      requires pins.regs.Valid()
      modifies pins.regs.words, pins.regs`trace
      ensures accepted <==> rate in {22050, 32000, 44100, 48000, 64000, 72000, 88200, 96000}
      ensures AllProper(RateWrites(card, rate))
      ensures pins.regs.words[..] == ApplyAll(old(pins.regs.words[..]), RateWrites(card, rate))
      ensures pins.regs.trace == old(pins.regs.trace) + Traced(old(pins.regs.words[..]), RateWrites(card, rate))
    {
      match rate {
        case 22050 => SetPair(rate, 2, 2);
        case 32000 => SetPair(rate, 0, 0);
        case 44100 => SetPair(rate, 2, 0);
        case 48000 => SetPair(rate, 0, 2);
        case 64000 => SetPair(rate, 1, 0);
        case 72000 => SetPair(rate, 2, 1);
        case 88200 => SetPair(rate, 1, 1);
        case 96000 => SetPair(rate, 1, 2);
        case _ => return false;
      }
      return true;
    }

    method SetPair(rate: int, s8: bv8, s9: bv8)
      requires pins.regs.Valid() && rate in RATES && States(rate) == (s8, s9)
      modifies pins.regs.words, pins.regs`trace
      ensures AllProper(RateWrites(card, rate))
      ensures pins.regs.words[..] == ApplyAll(old(pins.regs.words[..]), RateWrites(card, rate))
      ensures pins.regs.trace == old(pins.regs.trace) + Traced(old(pins.regs.words[..]), RateWrites(card, rate))
    {
      hide GpioWrites, ApplyAll, Traced;
      ghost var w := pins.regs.words[..];
      var _ := SetGpio(8, s8);
      var _ := SetGpio(9, s9);
      ApplyBoth(w, GpioWrites(card, 8, s8), GpioWrites(card, 9, s9));
    }
  }

  // ---------- sample rates ----------

  const RATES: set<int> := {22050, 32000, 44100, 48000, 64000, 72000, 88200, 96000}

  /** The states of lines 8 and 9 for a rate. */
  function States(rate: int): (bv8, bv8)
    requires rate in RATES
  {
    match rate
    case 22050 => (2, 2)
    case 32000 => (0, 0)
    case 44100 => (2, 0)
    case 48000 => (0, 2)
    case 64000 => (1, 0)
    case 72000 => (2, 1)
    case 88200 => (1, 1)
    case 96000 => (1, 2)
  }

  function RateWrites(card: CardType, rate: int): seq<Assign> {
    if rate in RATES then GpioWrites(card, 8, States(rate).0) + GpioWrites(card, 9, States(rate).1) else []
  }

  /** What hangs on a pin can see: low, high or floating. The output bit of a pin that is not driven
      does not show. */
  datatype Level = Low | High | Floating

  predicate Wired(card: CardType) {
    card == Janus || card == Mdp100 || card == Mdp110
  }

  /** The pins behind lines 8 and 9. */
  function Pin(card: CardType, line: nat): bv32
    requires Wired(card) && (line == 8 || line == 9)
  {
    if card == Janus then (if line == 8 then 0xc else 0xd) else (if line == 8 then 9 else 0xf)
  }

  function LevelOf(w: seq<bv32>, pin: bv32): Level
    requires |w| == SPACE / 4 && pin < 32
  {
    if !IsSet(w, DIR, pin) then Floating else if IsSet(w, OUT, pin) then High else Low
  }

  /** Register 0x10194 says whether a pin is driven, 0x10198 to what. */
  lemma LevelIs(w: seq<bv32>, pin: bv32)
    requires |w| == SPACE / 4 && pin < 32
    ensures LevelOf(w, pin) == if GetBits(w[0x10194 / 4], pin, pin) == 0 then Floating
                               else if GetBits(w[0x10198 / 4], pin, pin) != 0 then High else Low
  {}

  /** The reading of the two pins, as the codec's rate table; the pair (high, floating) is 96 kHz,
      and (floating, low) 44.1 kHz. One pair of the nine stands for no rate. */
  function RateOf(eight: Level, nine: Level): int {
    match (eight, nine)
    case (Floating, Floating) => 22050
    case (Low, Low) => 32000
    case (Floating, Low) => 44100
    case (Low, Floating) => 48000
    case (High, Low) => 64000
    case (Floating, High) => 72000
    case (High, High) => 88200
    case (High, Floating) => 96000
    case (Low, High) => 0
  }

  function LevelFor(state: bv8): Level {
    if state == 0 then Low else if state == 1 then High else Floating
  }

  /** A three-state line shows the state it was given, whatever the registers held before. */
  lemma {:induction false} TriStateShows(w: seq<bv32>, list: seq<Assign>, rest: seq<Assign>, bit: bv32, state: bv8)
    requires |w| == SPACE / 4 && bit < 32 && AllProper(rest)
    requires forall i :: 0 <= i < |rest| ==> rest[i].bit != bit
    requires list == TriState(bit, state) + rest || list == rest + TriState(bit, state)
    ensures AllProper(list)
    ensures LevelOf(ApplyAll(w, list), bit) == if state == 0 then Low else if state == 1 then High else Floating
  {
    hide IsSet;
    var t := TriState(bit, state);
    assert AllProper(list);
    BitAfter(w, list, DIR, bit);
    BitAfter(w, list, OUT, bit);
    var d, o := IsSet(w, DIR, bit), IsSet(w, OUT, bit);
    if list == t + rest {
      LastOfBoth(t, rest, DIR, bit, d);
      LastOfBoth(t, rest, OUT, bit, o);
      Untouched(rest, DIR, bit, Last(t, DIR, bit, d));
      Untouched(rest, OUT, bit, Last(t, OUT, bit, o));
    } else {
      LastOfBoth(rest, t, DIR, bit, d);
      LastOfBoth(rest, t, OUT, bit, o);
    }
    TriStateEnds(bit, state, Last(rest, DIR, bit, d), Last(rest, OUT, bit, o));
    TriStateEnds(bit, state, d, o);
  }

  lemma TriStateEnds(bit: bv32, state: bv8, d: bool, o: bool)
    ensures Last(TriState(bit, state), DIR, bit, d) == (state == 0 || state == 1)
    ensures state == 0 ==> !Last(TriState(bit, state), OUT, bit, o)
    ensures state == 1 ==> Last(TriState(bit, state), OUT, bit, o)
  {
    assert LowBit(1) && !LowBit(0);
    var v: bv32 := if state == 1 then 1 else 0;
    LastOfTwo(Assign(DIR, bit, 1), Assign(OUT, bit, v), DIR, bit, d);
    LastOfTwo(Assign(DIR, bit, 1), Assign(OUT, bit, v), OUT, bit, o);
    LastOfTwo(Assign(DIR, bit, 0), Assign(OUT, bit, v), DIR, bit, d);
  }

  /** From any register contents, on the cards whose lines 8 and 9 are three-state pins, the pins
      show exactly the rate asked for; so all eight rates are told apart. */
  lemma {:induction false} RateShows(card: CardType, rate: int, w: seq<bv32>)
    requires |w| == SPACE / 4 && Wired(card) && rate in RATES
    ensures AllProper(RateWrites(card, rate))
    ensures var after := ApplyAll(w, RateWrites(card, rate));
            RateOf(LevelOf(after, Pin(card, 8)), LevelOf(after, Pin(card, 9))) == rate
  {
    hide RateWrites, RateOf, States, TriState, LevelOf, Pin;
    var (s8, s9) := States(rate);
    var a, b := TriState(Pin(card, 8), s8), TriState(Pin(card, 9), s9);
    RateIsPair(card, rate);
    TriStateShows(w, a + b, b, Pin(card, 8), s8);
    TriStateShows(w, a + b, a, Pin(card, 9), s9);
    StatesDecode(rate);
  }

  /** The two pins for each rate: 12 and 13 on the Janus, 9 and 15 on the MDP-100 and MDP-110. */
  lemma {:induction false} RateLevels(card: CardType, rate: int, w: seq<bv32>)
    requires |w| == SPACE / 4 && Wired(card) && rate in RATES
    ensures AllProper(RateWrites(card, rate))
    ensures var after := ApplyAll(w, RateWrites(card, rate));
            var eight := LevelOf(after, if card == Janus then 0xc else 9);
            var nine := LevelOf(after, if card == Janus then 0xd else 0xf);
            && (rate == 22050 ==> eight == Floating && nine == Floating)
            && (rate == 32000 ==> eight == Low && nine == Low)
            && (rate == 44100 ==> eight == Floating && nine == Low)
            && (rate == 48000 ==> eight == Low && nine == Floating)
            && (rate == 64000 ==> eight == High && nine == Low)
            && (rate == 72000 ==> eight == Floating && nine == High)
            && (rate == 88200 ==> eight == High && nine == High)
            && (rate == 96000 ==> eight == High && nine == Floating)
  {
    hide RateWrites, LevelOf;
    RateShows(card, rate, w);
  }

  lemma RateIsPair(card: CardType, rate: int)
    requires Wired(card) && rate in RATES
    ensures Pin(card, 8) < 32 && Pin(card, 9) < 32
    ensures var a, b := TriState(Pin(card, 8), States(rate).0), TriState(Pin(card, 9), States(rate).1);
            && RateWrites(card, rate) == a + b
            && AllProper(a) && AllProper(b)
            && (forall i :: 0 <= i < |a| ==> a[i].bit != Pin(card, 9))
            && (forall i :: 0 <= i < |b| ==> b[i].bit != Pin(card, 8))
  {}

  lemma StatesDecode(rate: int)
    requires rate in RATES
    ensures RateOf(LevelFor(States(rate).0), LevelFor(States(rate).1)) == rate
  {}

  /** On the other card types of this model an accepted rate changes nothing at all. */
  lemma RateIsLost(card: CardType, rate: int)
    ensures RateWrites(card, rate) == [] <==> !Wired(card) || rate !in RATES
  {}

  // ---------- pin pairs of the Janus, the first also of the MDP-100A ----------

  /** Lines 1 and 2 drive pins 9 and 10 as a pair, lines 3 and 4 of the Janus pins 11 and 14: the
      line's own pin, and the other one. */
  function OwnPin(line: nat): bv32
    requires 1 <= line <= 4
  {
    match line case 1 => 9 case 2 => 0xa case 3 => 0xb case 4 => 0xe
  }

  function OtherPin(line: nat): bv32
    requires 1 <= line <= 4
  {
    match line case 1 => 0xa case 2 => 9 case 3 => 0xe case 4 => 0xb
  }

  /** At no moment of the writes do both pins have this level, unless they had it before. */
  ghost predicate NeverBoth(line: nat, state: bv8, level: bool)
    requires 1 <= line <= 4
  {
    forall own, other, k :: !(own == level && other == level) && 0 <= k <= |JanusWrites(line, state)| ==>
      var done := JanusWrites(line, state)[..k];
      !(Last(done, OUT, OwnPin(line), own) == level && Last(done, OUT, OtherPin(line), other) == level)
  }

  predicate Odd(state: bv8) {
    state & 1 != 0
  }

  lemma NotFlips(state: bv8)
    ensures LowBit(Not(state)) == !Odd(state) && LowBit(state as bv32) == Odd(state)
    ensures state == 1 ==> Odd(state)
  {}

  /** However the pair is set, the line's own pin ends at the state's lowest bit and the other pin at
      its opposite. */
  lemma {:induction false} PairEndsOpposite(line: nat, state: bv8, own: bool, other: bool)
    requires 1 <= line <= 4
    ensures Last(JanusWrites(line, state), OUT, OwnPin(line), own) == Odd(state)
    ensures Last(JanusWrites(line, state), OUT, OtherPin(line), other) == !Odd(state)
    ensures line <= 2 ==> Mdp100AWrites(line, state) == JanusWrites(line, state)
  {
    hide LowBit, Not, Odd, OwnPin, OtherPin;
    Moments(line, state, own, other, 2);
    var all := JanusWrites(line, state);
    assert all[..2] == all;
  }

  /** Whether the line's own pin is written first. */
  predicate OwnFirst(line: nat, state: bv8) {
    (line <= 2) == (state != 1)
  }

  /** The two pins after the first k writes of the pair. */
  lemma Moments(line: nat, state: bv8, own: bool, other: bool, k: nat)
    requires 1 <= line <= 4 && k <= 2
    ensures var all := JanusWrites(line, state);
            && |all| == 2
            && Last(all[..k], OUT, OwnPin(line), own) ==
               (if k == 2 || (k == 1 && OwnFirst(line, state)) then Odd(state) else own)
            && Last(all[..k], OUT, OtherPin(line), other) ==
               (if k == 2 || (k == 1 && !OwnFirst(line, state)) then !Odd(state) else other)
  {
    hide LowBit, Not, Odd;
    NotFlips(state);
    var all := JanusWrites(line, state);
    LastOfTwo(all[0], all[1], OUT, OwnPin(line), own);
    LastOfTwo(all[0], all[1], OUT, OtherPin(line), other);
    assert all[..0] == [] && all[..1] == [all[0]] && all[..2] == [all[0], all[1]];
  }

  /** Both pins keep clear of a level exactly when the pin written first is taken off it. */
  lemma {:induction false} NeverBothIff(line: nat, state: bv8, level: bool)
    requires 1 <= line <= 4
    ensures NeverBoth(line, state, level) <==> ((Odd(state) == level) != OwnFirst(line, state))
  {
    hide LowBit, Not, Odd, OwnPin, OtherPin, OwnFirst, JanusWrites;
    var all := JanusWrites(line, state);
    Moments(line, state, level, level, 0);
    if (Odd(state) == level) != OwnFirst(line, state) {
      forall own, other, k | !(own == level && other == level) && 0 <= k <= |all|
        ensures !(Last(all[..k], OUT, OwnPin(line), own) == level
                  && Last(all[..k], OUT, OtherPin(line), other) == level)
      {
        Moments(line, state, own, other, k);
      }
    } else {
      var own, other := OwnFirst(line, state) != level, OwnFirst(line, state) == level;
      Moments(line, state, own, other, 1);
      assert Last(all[..1], OUT, OwnPin(line), own) == level && Last(all[..1], OUT, OtherPin(line), other) == level;
    }
  }

  /** Lines 1 and 2 break before they make for the states 0 and 1 the driver uses, and for every even
      one: their pins are never both high. An odd state above 1 takes the branch meant for 0 and turns
      its pin on first. */
  lemma {:induction false} BreaksBeforeMakesIff(line: nat, state: bv8)
    requires line == 1 || line == 2
    ensures NeverBoth(line, state, true) <==> state == 1 || !Odd(state)
  {
    hide Odd, NeverBoth;
    NotFlips(state);
    NeverBothIff(line, state, true);
  }

  /** Lines 3 and 4 do it the other way round, make before break: for those same states their pins are
      never both low. */
  lemma {:induction false} MakesBeforeBreaksIff(line: nat, state: bv8)
    requires line == 3 || line == 4
    ensures NeverBoth(line, state, false) <==> state == 1 || !Odd(state)
    ensures NeverBoth(line, state, true) <==> state != 1 && Odd(state)
  {
    hide Odd, NeverBoth;
    NotFlips(state);
    NeverBothIff(line, state, false);
    NeverBothIff(line, state, true);
  }

  // ---------- what each line does, pin by pin ----------

  lemma LastOfFew(list: seq<Assign>, reg: nat, bit: bv32, was: bool)
    requires |list| <= 3
    ensures |list| == 0 ==> Last(list, reg, bit, was) == was
    ensures |list| == 1 ==>
              Last(list, reg, bit, was) == if list[0].To(reg, bit) then LowBit(list[0].value) else was
    ensures |list| == 2 ==>
              Last(list, reg, bit, was) ==
              if list[1].To(reg, bit) then LowBit(list[1].value)
              else if list[0].To(reg, bit) then LowBit(list[0].value) else was
    ensures |list| == 3 ==>
              Last(list, reg, bit, was) ==
              if list[2].To(reg, bit) then LowBit(list[2].value)
              else if list[1].To(reg, bit) then LowBit(list[1].value)
              else if list[0].To(reg, bit) then LowBit(list[0].value) else was
  {
    hide LowBit;
    if |list| == 1 {
      LastOfTwo(list[0], list[0], reg, bit, was);
      assert list == [list[0]];
    } else if |list| == 2 {
      LastOfTwo(list[0], list[1], reg, bit, was);
      assert list == [list[0], list[1]];
    } else if |list| == 3 {
      LastOfThree(list[0], list[1], list[2], reg, bit, was);
      assert list == [list[0], list[1], list[2]];
    }
  }

  /** Every output and direction bit after a line of the Janus is set: line 0 is a single pin, lines 1
      to 4 are pairs, lines 8 and 9 three-state pins, and there are no others. */
  lemma JanusEnds(line: nat, state: bv8, bit: bv32, was: bool)
    ensures Last(GpioWrites(Janus, line, state), OUT, bit, was) ==
            match line
            case 0 => if bit == 8 then Odd(state) else was
            case 1 => if bit == 9 then Odd(state) else if bit == 0xa then !Odd(state) else was
            case 2 => if bit == 0xa then Odd(state) else if bit == 9 then !Odd(state) else was
            case 3 => if bit == 0xb then Odd(state) else if bit == 0xe then !Odd(state) else was
            case 4 => if bit == 0xe then Odd(state) else if bit == 0xb then !Odd(state) else was
            case 8 => if bit == 0xc && state < 2 then state == 1 else was
            case 9 => if bit == 0xd && state < 2 then state == 1 else was
            case _ => was
    ensures Last(GpioWrites(Janus, line, state), DIR, bit, was) ==
            if (line == 8 && bit == 0xc) || (line == 9 && bit == 0xd) then state < 2 else was
  {
    hide LowBit, Not, Odd;
    NotFlips(state);
    SmallStates(state);
    LastOfFew(GpioWrites(Janus, line, state), OUT, bit, was);
    LastOfFew(GpioWrites(Janus, line, state), DIR, bit, was);
  }

  lemma SmallStates(state: bv8)
    ensures LowBit(1) && !LowBit(0) && !Odd(0) && LowBit(Not(0))
    ensures state < 2 <==> state == 0 || state == 1
  {}

  /** The MDP-100A: no three-state pins; lines 3 and 4 share pins 11 and 12, and each turns the
      other's pin over as well unless the state is 1. */
  lemma Mdp100AEnds(line: nat, state: bv8, bit: bv32, was: bool)
    ensures Last(GpioWrites(Mdp100A, line, state), OUT, bit, was) ==
            match line
            case 0 => if bit == 8 then Odd(state) else was
            case 1 => if bit == 9 then Odd(state) else if bit == 0xa then !Odd(state) else was
            case 2 => if bit == 0xa then Odd(state) else if bit == 9 then !Odd(state) else was
            case 3 => if bit == 0xb then Odd(state) else if bit == 0xc && state != 1 then !Odd(state) else was
            case 4 => if bit in {0xc, 0xd} then Odd(state) else if bit == 0xb && state != 1 then !Odd(state) else was
            case 5 => if bit == 0xd then Odd(state) else was
            case 6 => if bit == 0xe then Odd(state) else was
            case _ => was
    ensures Last(GpioWrites(Mdp100A, line, state), DIR, bit, was) == was
  {
    hide LowBit, Not, Odd;
    NotFlips(state);
    LastOfFew(GpioWrites(Mdp100A, line, state), OUT, bit, was);
    LastOfFew(GpioWrites(Mdp100A, line, state), DIR, bit, was);
  }

  /** The MDP-100 and MDP-110: as the MDP-100A but for line 1, which is not there, line 2, now a
      single pin, line 3, which turns pin 12 on only for state 0, line 6, which drives its pin, and
      the three-state pins. */
  lemma Mdp110Ends(card: CardType, line: nat, state: bv8, bit: bv32, was: bool)
    requires card == Mdp100 || card == Mdp110
    ensures Last(GpioWrites(card, line, state), OUT, bit, was) ==
            match line
            case 0 => if bit == 8 then Odd(state) else was
            case 2 => if bit == 0xa then Odd(state) else was
            case 3 => if bit == 0xb then Odd(state) else if bit == 0xc && state == 0 then true else was
            case 4 => if bit in {0xc, 0xd} then Odd(state) else if bit == 0xb && state != 1 then !Odd(state) else was
            case 5 => if bit == 0xd then Odd(state) else was
            case 6 => if bit == 0xe then Odd(state) else was
            case 8 => if bit == 9 && state < 2 then state == 1 else was
            case 9 => if bit == 0xf && state < 2 then state == 1 else was
            case _ => was
  {
    hide LowBit, Not, Odd;
    NotFlips(state);
    SmallStates(state);
    LastOfFew(Mdp110Writes(line, state), OUT, bit, was);
  }

  /** And which pins these cards drive. */
  lemma Mdp110Drives(card: CardType, line: nat, state: bv8, bit: bv32, was: bool)
    requires card == Mdp100 || card == Mdp110
    ensures Last(GpioWrites(card, line, state), DIR, bit, was) ==
            if line == 6 && bit == 0xe then true
            else if (line == 8 && bit == 9) || (line == 9 && bit == 0xf) then state < 2 else was
  {
    hide LowBit, Not, Odd;
    NotFlips(state);
    SmallStates(state);
    LastOfFew(Mdp110Writes(line, state), DIR, bit, was);
  }
}
