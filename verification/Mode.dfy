/** tl880_set_mode: a display mode packed into six timing registers while the display is blanked. */
module Mode {
  import opened Bits
  import opened Registers
  import opened Writes

  // ---------- packing fields into a word ----------

  datatype Part = Part(hi: bv32, lo: bv32, value: bv32) {
    predicate Fits() { Field(hi, lo) && Under(value, Ones(hi - lo + 1)) == value }
  }

  predicate Fields(parts: seq<Part>) {
    forall i :: 0 <= i < |parts| ==> Field(parts[i].hi, parts[i].lo)
  }

  /** The parts' fields set one after the other in a word of zeros. */
  function Word(parts: seq<Part>): bv32
    requires Fields(parts)
  {
    if parts == [] then 0
    else
      var p := parts[|parts| - 1];
      SetBits(Word(parts[..|parts| - 1]), p.hi, p.lo, p.value)
  }

  /** Every part fits its field and lies above the part before it. */
  predicate Layout(parts: seq<Part>) {
    && (forall i :: 0 <= i < |parts| ==> parts[i].Fits())
    && (forall i :: 1 <= i < |parts| ==> parts[i - 1].hi < parts[i].lo)
  }

  lemma {:induction false} Above(parts: seq<Part>, i: nat, j: nat)
    requires Layout(parts) && i < j < |parts|
    ensures parts[i].hi < parts[j].lo
  {
    hide Under, Ones;
    if i < j - 1 { Above(parts, i, j - 1); }
  }

  /** Packing loses nothing: every field of the word reads back as the part put there. */
  lemma {:induction false} PartReadsBack(parts: seq<Part>, i: nat)
    requires Layout(parts) && i < |parts|
    ensures GetBits(Word(parts), parts[i].hi, parts[i].lo) == parts[i].value
    decreases |parts|
  {
    hide SetBits, GetBits, Ones, Under;
    var n := |parts| - 1;
    var p, rest := parts[n], parts[..n];
    if i == n {
      FieldReadsBack(Word(rest), p.hi, p.lo, p.value);
    } else {
      PartReadsBack(rest, i);
      assert rest[i] == parts[i];
      Above(parts, i, n);
      FieldsApart(Word(rest), p.hi, p.lo, p.value, parts[i].hi, parts[i].lo);
    }
  }

  method Start() returns (value: bv32, ghost done: seq<Part>)
    ensures done == [] && Fields(done) && value == Word(done)
  {
    value, done := 0, [];
  }

  /** set_bits(&value, reg, hi, lo, setvalue), as the next part of a word under construction. */
  method Add(value: bv32, hi: bv32, lo: bv32, setvalue: bv32, ghost done: seq<Part>)
    returns (r: bv32, ghost next: seq<Part>)
    requires Field(hi, lo) && Fields(done) && value == Word(done)
    ensures next == done + [Part(hi, lo, setvalue)]
    ensures Fields(next) && r == Word(next)
  {
    r := SetBits(value, hi, lo, setvalue);
    next := done + [Part(hi, lo, setvalue)];
    assert next[..|next| - 1] == done;
  }

  // ---------- the mode ----------

  /** struct tl880_mode_def, its bit-fields at their declared widths. */
  datatype ModeDef = ModeDef(
    a: bv1, b: bv1, c: bv1, progScan: bv1, e: bv10, xres: bv11, g: bv1, h: bv1, i: bv1, j: bv1,
    hBackPorch: bv9, invHsync: bv1, invVsync: bv1, hSyncLen: bv7, hFrontPorch: bv9,
    vSyncLen0: bv3, vFrontPorch0: bv8, yres0: bv11, vBackPorch0: bv4, ntscFlag: bv1,
    vSyncLen1: bv3, vFrontPorch1: bv8, yres1: bv11, vBackPorch1: bv4,
    y: bv22, z: bv1, aa: bv4,
    bb: bv12, cc: bv1,
    dd: bv32)

  function U1(x: bv1): bv32 { x as bv32 }
  function U3(x: bv3): bv32 { x as bv32 }
  function U4(x: bv4): bv32 { x as bv32 }
  function U7(x: bv7): bv32 { x as bv32 }
  function U8(x: bv8): bv32 { x as bv32 }
  function U9(x: bv9): bv32 { x as bv32 }
  function U10(x: bv10): bv32 { x as bv32 }
  function U11(x: bv11): bv32 { x as bv32 }
  function U12(x: bv12): bv32 { x as bv32 }
  function U22(x: bv22): bv32 { x as bv32 }

  function Parts14(m: ModeDef): (parts: seq<Part>)
    ensures |parts| == 10
  {
    [Part(0, 0, U1(m.a)), Part(1, 1, U1(m.b)), Part(2, 2, U1(m.c)),
     Part(3, 3, U1(m.progScan)), Part(0xf, 6, U10(m.e)), Part(0x1a, 0x10, U11(m.xres)),
     Part(0x1b, 0x1b, U1(m.g)), Part(0x1c, 0x1c, U1(m.h)), Part(0x1d, 0x1d, U1(m.i)),
     Part(0x1e, 0x1e, U1(m.j))]
  }

  function Parts18(m: ModeDef): seq<Part> {
    [Part(8, 0, U9(m.hBackPorch)), Part(9, 9, U1(m.invHsync)),
     Part(0xa, 0xa, U1(m.invVsync)), Part(0x12, 0xc, U7(m.hSyncLen)),
     Part(0x1c, 0x14, U9(m.hFrontPorch))]
  }

  function Parts1c(m: ModeDef): seq<Part> {
    [Part(2, 0, U3(m.vSyncLen0)), Part(0xb, 4, U8(m.vFrontPorch0)),
     Part(0x16, 0xc, U11(m.yres0)), Part(0x1b, 0x18, U4(m.vBackPorch0)),
     Part(0x1c, 0x1c, U1(m.ntscFlag))]
  }

  function Parts20(m: ModeDef): seq<Part> {
    [Part(2, 0, U3(m.vSyncLen1)), Part(0xb, 4, U8(m.vFrontPorch1)),
     Part(0x16, 0xc, U11(m.yres1)), Part(0x1b, 0x18, U4(m.vBackPorch1))]
  }

  function Parts28(m: ModeDef): seq<Part> {
    [Part(0xb, 0, U12(m.bb)), Part(0x18, 0x18, U1(m.cc))]
  }

  function Parts24(m: ModeDef): seq<Part> {
    [Part(0x15, 0, U22(m.y)), Part(0x18, 0x18, U1(m.z)), Part(0x1f, 0x1c, U4(m.aa))]
  }

  function Word14(m: ModeDef): bv32 { Word(Parts14(m)) }
  function Word18(m: ModeDef): bv32 { Word(Parts18(m)) }
  function Word1c(m: ModeDef): bv32 { Word(Parts1c(m)) }
  function Word20(m: ModeDef): bv32 { Word(Parts20(m)) }
  function Word28(m: ModeDef): bv32 { Word(Parts28(m)) }
  function Word24(m: ModeDef): bv32 { Word(Parts24(m)) }

  lemma Fits1(hi: bv32, x: bv1)
    requires hi < 32
    ensures Part(hi, hi, U1(x)).Fits()
  {}

  lemma Fits3(hi: bv32, lo: bv32, x: bv3)
    requires Field(hi, lo) && hi - lo == 2
    ensures Part(hi, lo, U3(x)).Fits()
  {}

  lemma Fits4(hi: bv32, lo: bv32, x: bv4)
    requires Field(hi, lo) && hi - lo == 3
    ensures Part(hi, lo, U4(x)).Fits()
  {}

  lemma Fits7(hi: bv32, lo: bv32, x: bv7)
    requires Field(hi, lo) && hi - lo == 6
    ensures Part(hi, lo, U7(x)).Fits()
  {}

  lemma Fits8(hi: bv32, lo: bv32, x: bv8)
    requires Field(hi, lo) && hi - lo == 7
    ensures Part(hi, lo, U8(x)).Fits()
  {}

  lemma Fits9(hi: bv32, lo: bv32, x: bv9)
    requires Field(hi, lo) && hi - lo == 8
    ensures Part(hi, lo, U9(x)).Fits()
  {}

  lemma Fits10(hi: bv32, lo: bv32, x: bv10)
    requires Field(hi, lo) && hi - lo == 9
    ensures Part(hi, lo, U10(x)).Fits()
  {}

  lemma Fits11(hi: bv32, lo: bv32, x: bv11)
    requires Field(hi, lo) && hi - lo == 10
    ensures Part(hi, lo, U11(x)).Fits()
  {}

  lemma Fits12(hi: bv32, lo: bv32, x: bv12)
    requires Field(hi, lo) && hi - lo == 11
    ensures Part(hi, lo, U12(x)).Fits()
  {}

  lemma Fits22(hi: bv32, lo: bv32, x: bv22)
    requires Field(hi, lo) && hi - lo == 21
    ensures Part(hi, lo, U22(x)).Fits()
  {}

  lemma Layout14(m: ModeDef)
    ensures Layout(Parts14(m))
  {
    hide Under, Ones, Field, Part.Fits, U1, U3, U4, U7, U8, U9, U10, U11, U12, U22;
    Fits1(0, m.a);
    Fits1(1, m.b);
    Fits1(2, m.c);
    Fits1(3, m.progScan);
    Fits10(0xf, 6, m.e);
    Fits11(0x1a, 0x10, m.xres);
    Fits1(0x1b, m.g);
    Fits1(0x1c, m.h);
    Fits1(0x1d, m.i);
    Fits1(0x1e, m.j);
  }

  lemma Layout18(m: ModeDef)
    ensures Layout(Parts18(m))
  {
    hide Under, Ones, Field, Part.Fits, U1, U3, U4, U7, U8, U9, U10, U11, U12, U22;
    Fits9(8, 0, m.hBackPorch);
    Fits1(9, m.invHsync);
    Fits1(0xa, m.invVsync);
    Fits7(0x12, 0xc, m.hSyncLen);
    Fits9(0x1c, 0x14, m.hFrontPorch);
  }

  lemma Layout1c(m: ModeDef)
    ensures Layout(Parts1c(m))
  {
    hide Under, Ones, Field, Part.Fits, U1, U3, U4, U7, U8, U9, U10, U11, U12, U22;
    Fits3(2, 0, m.vSyncLen0);
    Fits8(0xb, 4, m.vFrontPorch0);
    Fits11(0x16, 0xc, m.yres0);
    Fits4(0x1b, 0x18, m.vBackPorch0);
    Fits1(0x1c, m.ntscFlag);
  }

  lemma Layout20(m: ModeDef)
    ensures Layout(Parts20(m))
  {
    hide Under, Ones, Field, Part.Fits, U1, U3, U4, U7, U8, U9, U10, U11, U12, U22;
    Fits3(2, 0, m.vSyncLen1);
    Fits8(0xb, 4, m.vFrontPorch1);
    Fits11(0x16, 0xc, m.yres1);
    Fits4(0x1b, 0x18, m.vBackPorch1);
  }

  lemma Layout28(m: ModeDef)
    ensures Layout(Parts28(m))
  {
    hide Under, Ones, Field, Part.Fits, U1, U3, U4, U7, U8, U9, U10, U11, U12, U22;
    Fits12(0xb, 0, m.bb);
    Fits1(0x18, m.cc);
  }

  lemma Layout24(m: ModeDef)
    ensures Layout(Parts24(m))
  {
    hide Under, Ones, Field, Part.Fits, U1, U3, U4, U7, U8, U9, U10, U11, U12, U22;
    Fits22(0x15, 0, m.y);
    Fits1(0x18, m.z);
    Fits4(0x1f, 0x1c, m.aa);
  }

  method Pack14(m: ModeDef) returns (value: bv32)
    ensures value == Word14(m)
  {
    hide Word, Field, Fields, U1, U10, U11, Parts14;
    ghost var done: seq<Part>;
    value, done := Pack14Low(m);
    value, done := Pack14High(m, value, done);
    assert Parts14(m)[..5] + Parts14(m)[5..] == Parts14(m);
  }

  method Pack14Low(m: ModeDef) returns (value: bv32, ghost done: seq<Part>)
    ensures done == Parts14(m)[..5] && Fields(done) && value == Word(done)
  {
    hide Word, Field, Fields, U1, U10, U11;
    value, done := Start();
    value, done := Add(value, 0, 0, U1(m.a), done);
    value, done := Add(value, 1, 1, U1(m.b), done);
    value, done := Add(value, 2, 2, U1(m.c), done);
    value, done := Add(value, 3, 3, U1(m.progScan), done);
    value, done := Add(value, 0xf, 6, U10(m.e), done);
  }

  method Pack14High(m: ModeDef, before: bv32, ghost low: seq<Part>) returns (value: bv32, ghost done: seq<Part>)
    requires Fields(low) && before == Word(low)
    ensures done == low + Parts14(m)[5..] && Fields(done) && value == Word(done)
  {
    hide Word, Field, Fields, U1, U10, U11;
    value, done := before, low;
    value, done := Add(value, 0x1a, 0x10, U11(m.xres), done);
    value, done := Add(value, 0x1b, 0x1b, U1(m.g), done);
    value, done := Add(value, 0x1c, 0x1c, U1(m.h), done);
    value, done := Add(value, 0x1d, 0x1d, U1(m.i), done);
    value, done := Add(value, 0x1e, 0x1e, U1(m.j), done);
  }

  method Pack18(m: ModeDef) returns (value: bv32)
    ensures value == Word18(m)
  {
    hide Word, Field, Fields, U1, U3, U4, U7, U8, U9, U10, U11, U12, U22;
    ghost var done: seq<Part>;
    value, done := Start();
    value, done := Add(value, 8, 0, U9(m.hBackPorch), done);
    value, done := Add(value, 9, 9, U1(m.invHsync), done);
    value, done := Add(value, 0xa, 0xa, U1(m.invVsync), done);
    value, done := Add(value, 0x12, 0xc, U7(m.hSyncLen), done);
    value, done := Add(value, 0x1c, 0x14, U9(m.hFrontPorch), done);
    assert done == Parts18(m);
  }

  method Pack1c(m: ModeDef) returns (value: bv32)
    ensures value == Word1c(m)
  {
    hide Word, Field, Fields, U1, U3, U4, U7, U8, U9, U10, U11, U12, U22;
    ghost var done: seq<Part>;
    value, done := Start();
    value, done := Add(value, 2, 0, U3(m.vSyncLen0), done);
    value, done := Add(value, 0xb, 4, U8(m.vFrontPorch0), done);
    value, done := Add(value, 0x16, 0xc, U11(m.yres0), done);
    value, done := Add(value, 0x1b, 0x18, U4(m.vBackPorch0), done);
    value, done := Add(value, 0x1c, 0x1c, U1(m.ntscFlag), done);
    assert done == Parts1c(m);
  }

  method Pack20(m: ModeDef) returns (value: bv32)
    ensures value == Word20(m)
  {
    hide Word, Field, Fields, U1, U3, U4, U7, U8, U9, U10, U11, U12, U22;
    ghost var done: seq<Part>;
    value, done := Start();
    value, done := Add(value, 2, 0, U3(m.vSyncLen1), done);
    value, done := Add(value, 0xb, 4, U8(m.vFrontPorch1), done);
    value, done := Add(value, 0x16, 0xc, U11(m.yres1), done);
    value, done := Add(value, 0x1b, 0x18, U4(m.vBackPorch1), done);
    assert done == Parts20(m);
  }

  method Pack28(m: ModeDef) returns (value: bv32)
    ensures value == Word28(m)
  {
    hide Word, Field, Fields, U1, U3, U4, U7, U8, U9, U10, U11, U12, U22;
    ghost var done: seq<Part>;
    value, done := Start();
    value, done := Add(value, 0xb, 0, U12(m.bb), done);
    value, done := Add(value, 0x18, 0x18, U1(m.cc), done);
    assert done == Parts28(m);
  }

  method Pack24(m: ModeDef) returns (value: bv32)
    ensures value == Word24(m)
  {
    hide Word, Field, Fields, U1, U3, U4, U7, U8, U9, U10, U11, U12, U22;
    ghost var done: seq<Part>;
    value, done := Start();
    value, done := Add(value, 0x15, 0, U22(m.y), done);
    value, done := Add(value, 0x18, 0x18, U1(m.z), done);
    value, done := Add(value, 0x1f, 0x1c, U4(m.aa), done);
    assert done == Parts24(m);
  }

  // ---------- the writes of one mode change ----------

  const DISPLAY: nat := 0x10000

  function Timing(m: ModeDef): seq<RegWrite> {
    [RegWrite(0x10014, Word14(m)), RegWrite(0x10018, Word18(m)), RegWrite(0x1001c, Word1c(m)),
     RegWrite(0x10020, Word20(m)), RegWrite(0x10028, Word28(m)), RegWrite(0x10024, Word24(m)),
     RegWrite(0x5800, m.dd)]
  }

  /** Blank the display, write the timing, put the display back. */
  function Program(m: ModeDef, display: bv32): seq<RegWrite> {
    [RegWrite(DISPLAY, 0x80)] + Timing(m) + [RegWrite(DISPLAY, display)]
  }

  lemma Seven<T>(s: seq<T>, a: T, b: T, c: T, d: T, e: T, f: T, g: T)
    ensures s + [a] + [b] + [c] + [d] + [e] + [f] + [g] == s + [a, b, c, d, e, f, g]
  {}

  method SendTiming(regs: RegisterFile, m: ModeDef,
                    ghost before: seq<bv32>, ghost past: seq<RegWrite>, ghost sent: seq<RegWrite>)
    returns (ghost next: seq<RegWrite>)
    requires Sent(regs, before, past, sent)
    modifies regs.words, regs`trace
    ensures next == sent + Timing(m) && Sent(regs, before, past, next)
  {
    hide Sent, Word14, Word18, Word1c, Word20, Word28, Word24;
    var value := Pack14(m);
    next := Send(regs, 0x10014, value, before, past, sent);
    value := Pack18(m);
    next := Send(regs, 0x10018, value, before, past, next);
    value := Pack1c(m);
    next := Send(regs, 0x1001c, value, before, past, next);
    value := Pack20(m);
    next := Send(regs, 0x10020, value, before, past, next);
    value := Pack28(m);
    next := Send(regs, 0x10028, value, before, past, next);
    value := Pack24(m);
    next := Send(regs, 0x10024, value, before, past, next);
    next := Send(regs, 0x5800, m.dd, before, past, next);
    ghost var t := Timing(m);
    Seven(sent, t[0], t[1], t[2], t[3], t[4], t[5], t[6]);
  }

  /** tl880_set_mode. */
  method SetMode(regs: RegisterFile, mode: ModeDef)
    requires regs.Valid()
    modifies regs.words, regs`trace
    ensures Reaches(Program(mode, old(regs.At(DISPLAY))))
    ensures regs.words[..] == Applied(old(regs.words[..]), Program(mode, old(regs.At(DISPLAY))))
    ensures regs.trace == old(regs.trace) + Program(mode, old(regs.At(DISPLAY)))
  {
    hide Timing;
    ghost var before, past := regs.words[..], regs.trace;
    var savereg := regs.Read(DISPLAY);
    ghost var sent := Send(regs, DISPLAY, 0x80, before, past, []);
    sent := SendTiming(regs, mode, before, past, sent);
    sent := Send(regs, DISPLAY, savereg, before, past, sent);
    assert sent == Program(mode, savereg);
  }

  // ---------- laws ----------

  /** The registers written, in order: the display register first and last, 0x10028 before 0x10024. */
  lemma NineWrites(m: ModeDef, display: bv32)
    ensures var p := Program(m, display);
            && |p| == 9 && p[0] == RegWrite(0x10000, 0x80) && p[8] == RegWrite(0x10000, display)
            && p[1].reg == 0x10014 && p[2].reg == 0x10018 && p[3].reg == 0x1001c && p[4].reg == 0x10020
            && p[5].reg == 0x10028 && p[6].reg == 0x10024 && p[7].reg == 0x5800
  {
    hide Word14, Word18, Word1c, Word20, Word28, Word24;
  }

  lemma TimingMissesDisplay(m: ModeDef)
    ensures Reaches(Timing(m))
    ensures forall i :: 0 <= i < |Timing(m)| ==> Timing(m)[i].reg != DISPLAY
  {
    hide Word14, Word18, Word1c, Word20, Word28, Word24;
  }

  /** While any timing register is written the display register holds 0x80, and in the end its old value. */
  lemma BlankedWhileChanging(words: seq<bv32>, m: ModeDef, i: nat)
    requires |words| == SPACE / 4 && 1 <= i <= 1 + |Timing(m)|
    ensures Reaches(Program(m, words[DISPLAY / 4]))
    ensures Applied(words, Program(m, words[DISPLAY / 4])[..i])[DISPLAY / 4] == 0x80
    ensures Applied(words, Program(m, words[DISPLAY / 4]))[DISPLAY / 4] == words[DISPLAY / 4]
  {
    hide Applied, Timing;
    TimingMissesDisplay(m);
    var p := Program(m, words[DISPLAY / 4]);
    LastWriteHolds(words, p[..i], 0);
    LastWriteHolds(words, p, |p| - 1);
  }

  predicate ReadsBack(word: bv32, parts: seq<Part>) {
    Fields(parts) && forall i :: 0 <= i < |parts| ==> GetBits(word, parts[i].hi, parts[i].lo) == parts[i].value
  }

  lemma PackedReadsBack(parts: seq<Part>)
    requires Layout(parts)
    ensures Fields(parts) && ReadsBack(Word(parts), parts)
  {
    hide GetBits, Under, Ones, Word, Field;
    forall i | 0 <= i < |parts|
      ensures GetBits(Word(parts), parts[i].hi, parts[i].lo) == parts[i].value
    {
      PartReadsBack(parts, i);
    }
  }

  lemma WordsReadBack(m: ModeDef)
    ensures ReadsBack(Word14(m), Parts14(m))
    ensures ReadsBack(Word18(m), Parts18(m))
    ensures ReadsBack(Word1c(m), Parts1c(m))
    ensures ReadsBack(Word20(m), Parts20(m))
    ensures ReadsBack(Word28(m), Parts28(m))
    ensures ReadsBack(Word24(m), Parts24(m))
  {
    hide ReadsBack, Word, Layout, Fields, Parts14, Parts18, Parts1c, Parts20, Parts28, Parts24;
    Layout14(m);
    PackedReadsBack(Parts14(m));
    Layout18(m);
    PackedReadsBack(Parts18(m));
    Layout1c(m);
    PackedReadsBack(Parts1c(m));
    Layout20(m);
    PackedReadsBack(Parts20(m));
    Layout28(m);
    PackedReadsBack(Parts28(m));
    Layout24(m);
    PackedReadsBack(Parts24(m));
  }

  /** Where the timing writes of a program land. */
  lemma TimingLands(words: seq<bv32>, m: ModeDef, display: bv32, i: nat)
    requires |words| == SPACE / 4 && i < |Timing(m)|
    ensures Reaches(Program(m, display))
    ensures Timing(m)[i].reg < SPACE
    ensures Applied(words, Program(m, display))[Timing(m)[i].reg / 4] == Timing(m)[i].value
  {
    hide Applied, Word14, Word18, Word1c, Word20, Word28, Word24;
    TimingMissesDisplay(m);
    var p, t := Program(m, display), Timing(m);
    assert p[i + 1] == t[i];
    LastWriteHolds(words, p, i + 1);
  }

  lemma RegistersReadBack(words: seq<bv32>, m: ModeDef, display: bv32)
    requires |words| == SPACE / 4
    ensures Reaches(Program(m, display))
    ensures var after := Applied(words, Program(m, display));
      && ReadsBack(after[0x10014 / 4], Parts14(m))
      && ReadsBack(after[0x10018 / 4], Parts18(m))
      && ReadsBack(after[0x1001c / 4], Parts1c(m))
      && ReadsBack(after[0x10020 / 4], Parts20(m))
      && ReadsBack(after[0x10028 / 4], Parts28(m))
      && ReadsBack(after[0x10024 / 4], Parts24(m))
      && after[0x5800 / 4] == m.dd
  {
    hide ReadsBack, Applied, Program, Word14, Word18, Word1c, Word20, Word28, Word24;
    hide Parts14, Parts18, Parts1c, Parts20, Parts28, Parts24;
    WordsReadBack(m);
    TimingLands(words, m, display, 0);
    TimingLands(words, m, display, 1);
    TimingLands(words, m, display, 2);
    TimingLands(words, m, display, 3);
    TimingLands(words, m, display, 4);
    TimingLands(words, m, display, 5);
    TimingLands(words, m, display, 6);
  }

  lemma Stands14(w: bv32, m: ModeDef)
    requires ReadsBack(w, Parts14(m))
    ensures GetBits(w, 0, 0) == m.a as bv32
    ensures GetBits(w, 1, 1) == m.b as bv32
    ensures GetBits(w, 2, 2) == m.c as bv32
    ensures GetBits(w, 3, 3) == m.progScan as bv32
    ensures GetBits(w, 0xf, 6) == m.e as bv32
    ensures GetBits(w, 0x1a, 0x10) == m.xres as bv32
    ensures GetBits(w, 0x1b, 0x1b) == m.g as bv32
    ensures GetBits(w, 0x1c, 0x1c) == m.h as bv32
    ensures GetBits(w, 0x1d, 0x1d) == m.i as bv32
    ensures GetBits(w, 0x1e, 0x1e) == m.j as bv32
  {
    hide GetBits, Field;
    var p := Parts14(m);
    assert p[0] == Part(0, 0, U1(m.a));
    assert p[1] == Part(1, 1, U1(m.b));
    assert p[2] == Part(2, 2, U1(m.c));
    assert p[3] == Part(3, 3, U1(m.progScan));
    assert p[4] == Part(0xf, 6, U10(m.e));
    assert p[5] == Part(0x1a, 0x10, U11(m.xres));
    assert p[6] == Part(0x1b, 0x1b, U1(m.g));
    assert p[7] == Part(0x1c, 0x1c, U1(m.h));
    assert p[8] == Part(0x1d, 0x1d, U1(m.i));
    assert p[9] == Part(0x1e, 0x1e, U1(m.j));
  }

  lemma Stands18(w: bv32, m: ModeDef)
    requires ReadsBack(w, Parts18(m))
    ensures GetBits(w, 8, 0) == m.hBackPorch as bv32
    ensures GetBits(w, 9, 9) == m.invHsync as bv32
    ensures GetBits(w, 0xa, 0xa) == m.invVsync as bv32
    ensures GetBits(w, 0x12, 0xc) == m.hSyncLen as bv32
    ensures GetBits(w, 0x1c, 0x14) == m.hFrontPorch as bv32
  {
    hide GetBits, Field;
    var p := Parts18(m);
    assert p[0] == Part(8, 0, U9(m.hBackPorch));
    assert p[1] == Part(9, 9, U1(m.invHsync));
    assert p[2] == Part(0xa, 0xa, U1(m.invVsync));
    assert p[3] == Part(0x12, 0xc, U7(m.hSyncLen));
    assert p[4] == Part(0x1c, 0x14, U9(m.hFrontPorch));
  }

  lemma Stands1c(w: bv32, m: ModeDef)
    requires ReadsBack(w, Parts1c(m))
    ensures GetBits(w, 2, 0) == m.vSyncLen0 as bv32
    ensures GetBits(w, 0xb, 4) == m.vFrontPorch0 as bv32
    ensures GetBits(w, 0x16, 0xc) == m.yres0 as bv32
    ensures GetBits(w, 0x1b, 0x18) == m.vBackPorch0 as bv32
    ensures GetBits(w, 0x1c, 0x1c) == m.ntscFlag as bv32
  {
    hide GetBits, Field;
    var p := Parts1c(m);
    assert p[0] == Part(2, 0, U3(m.vSyncLen0));
    assert p[1] == Part(0xb, 4, U8(m.vFrontPorch0));
    assert p[2] == Part(0x16, 0xc, U11(m.yres0));
    assert p[3] == Part(0x1b, 0x18, U4(m.vBackPorch0));
    assert p[4] == Part(0x1c, 0x1c, U1(m.ntscFlag));
  }

  lemma Stands20(w: bv32, m: ModeDef)
    requires ReadsBack(w, Parts20(m))
    ensures GetBits(w, 2, 0) == m.vSyncLen1 as bv32
    ensures GetBits(w, 0xb, 4) == m.vFrontPorch1 as bv32
    ensures GetBits(w, 0x16, 0xc) == m.yres1 as bv32
    ensures GetBits(w, 0x1b, 0x18) == m.vBackPorch1 as bv32
  {
    hide GetBits, Field;
    var p := Parts20(m);
    assert p[0] == Part(2, 0, U3(m.vSyncLen1));
    assert p[1] == Part(0xb, 4, U8(m.vFrontPorch1));
    assert p[2] == Part(0x16, 0xc, U11(m.yres1));
    assert p[3] == Part(0x1b, 0x18, U4(m.vBackPorch1));
  }

  lemma Stands28(w: bv32, m: ModeDef)
    requires ReadsBack(w, Parts28(m))
    ensures GetBits(w, 0xb, 0) == m.bb as bv32
    ensures GetBits(w, 0x18, 0x18) == m.cc as bv32
  {
    hide GetBits, Field;
    var p := Parts28(m);
    assert p[0] == Part(0xb, 0, U12(m.bb));
    assert p[1] == Part(0x18, 0x18, U1(m.cc));
  }

  lemma Stands24(w: bv32, m: ModeDef)
    requires ReadsBack(w, Parts24(m))
    ensures GetBits(w, 0x15, 0) == m.y as bv32
    ensures GetBits(w, 0x18, 0x18) == m.z as bv32
    ensures GetBits(w, 0x1f, 0x1c) == m.aa as bv32
  {
    hide GetBits, Field;
    var p := Parts24(m);
    assert p[0] == Part(0x15, 0, U22(m.y));
    assert p[1] == Part(0x18, 0x18, U1(m.z));
    assert p[2] == Part(0x1f, 0x1c, U4(m.aa));
  }


  /** From any register contents, every field of the mode stands at its place in its register. */
  lemma ModeReadsBack(words: seq<bv32>, m: ModeDef, display: bv32)
    requires |words| == SPACE / 4
    ensures Reaches(Program(m, display))
    ensures var after := Applied(words, Program(m, display));
            && GetBits(after[0x10014 / 4], 0, 0) == m.a as bv32
            && GetBits(after[0x10014 / 4], 1, 1) == m.b as bv32
            && GetBits(after[0x10014 / 4], 2, 2) == m.c as bv32
            && GetBits(after[0x10014 / 4], 3, 3) == m.progScan as bv32
            && GetBits(after[0x10014 / 4], 0xf, 6) == m.e as bv32
            && GetBits(after[0x10014 / 4], 0x1a, 0x10) == m.xres as bv32
            && GetBits(after[0x10014 / 4], 0x1b, 0x1b) == m.g as bv32
            && GetBits(after[0x10014 / 4], 0x1c, 0x1c) == m.h as bv32
            && GetBits(after[0x10014 / 4], 0x1d, 0x1d) == m.i as bv32
            && GetBits(after[0x10014 / 4], 0x1e, 0x1e) == m.j as bv32
            && GetBits(after[0x10018 / 4], 8, 0) == m.hBackPorch as bv32
            && GetBits(after[0x10018 / 4], 9, 9) == m.invHsync as bv32
            && GetBits(after[0x10018 / 4], 0xa, 0xa) == m.invVsync as bv32
            && GetBits(after[0x10018 / 4], 0x12, 0xc) == m.hSyncLen as bv32
            && GetBits(after[0x10018 / 4], 0x1c, 0x14) == m.hFrontPorch as bv32
            && GetBits(after[0x1001c / 4], 2, 0) == m.vSyncLen0 as bv32
            && GetBits(after[0x1001c / 4], 0xb, 4) == m.vFrontPorch0 as bv32
            && GetBits(after[0x1001c / 4], 0x16, 0xc) == m.yres0 as bv32
            && GetBits(after[0x1001c / 4], 0x1b, 0x18) == m.vBackPorch0 as bv32
            && GetBits(after[0x1001c / 4], 0x1c, 0x1c) == m.ntscFlag as bv32
            && GetBits(after[0x10020 / 4], 2, 0) == m.vSyncLen1 as bv32
            && GetBits(after[0x10020 / 4], 0xb, 4) == m.vFrontPorch1 as bv32
            && GetBits(after[0x10020 / 4], 0x16, 0xc) == m.yres1 as bv32
            && GetBits(after[0x10020 / 4], 0x1b, 0x18) == m.vBackPorch1 as bv32
            && GetBits(after[0x10028 / 4], 0xb, 0) == m.bb as bv32
            && GetBits(after[0x10028 / 4], 0x18, 0x18) == m.cc as bv32
            && GetBits(after[0x10024 / 4], 0x15, 0) == m.y as bv32
            && GetBits(after[0x10024 / 4], 0x18, 0x18) == m.z as bv32
            && GetBits(after[0x10024 / 4], 0x1f, 0x1c) == m.aa as bv32
            && after[0x5800 / 4] == m.dd
  {
    hide ReadsBack, Applied, Program, GetBits, Parts14, Parts18, Parts1c, Parts20, Parts28, Parts24;
    RegistersReadBack(words, m, display);
    var after := Applied(words, Program(m, display));
    Stands14(after[0x10014 / 4], m);
    Stands18(after[0x10018 / 4], m);
    Stands1c(after[0x1001c / 4], m);
    Stands20(after[0x10020 / 4], m);
    Stands28(after[0x10028 / 4], m);
    Stands24(after[0x10024 / 4], m);
  }

  lemma Recover14Low(w: bv32, m: ModeDef, n: ModeDef)
    requires ReadsBack(w, Parts14(m)) && ReadsBack(w, Parts14(n))
    ensures m.a == n.a && m.b == n.b && m.c == n.c && m.progScan == n.progScan && m.e == n.e
  {
    hide GetBits, Field;
    var p, q := Parts14(m), Parts14(n);
    assert p[0].value == q[0].value;
    assert p[1].value == q[1].value;
    assert p[2].value == q[2].value;
    assert p[3].value == q[3].value;
    assert p[4].value == q[4].value;
  }

  lemma Recover14High(w: bv32, m: ModeDef, n: ModeDef)
    requires ReadsBack(w, Parts14(m)) && ReadsBack(w, Parts14(n))
    ensures m.xres == n.xres && m.g == n.g && m.h == n.h && m.i == n.i && m.j == n.j
  {
    hide GetBits, Field;
    var p, q := Parts14(m), Parts14(n);
    assert p[5].value == q[5].value;
    assert p[6].value == q[6].value;
    assert p[7].value == q[7].value;
    assert p[8].value == q[8].value;
    assert p[9].value == q[9].value;
  }

  lemma Recover18(w: bv32, m: ModeDef, n: ModeDef)
    requires ReadsBack(w, Parts18(m)) && ReadsBack(w, Parts18(n))
    ensures m.hBackPorch == n.hBackPorch && m.invHsync == n.invHsync && m.invVsync == n.invVsync
    ensures m.hSyncLen == n.hSyncLen && m.hFrontPorch == n.hFrontPorch
  {
    hide GetBits, Field;
    var p, q := Parts18(m), Parts18(n);
    assert p[0].value == q[0].value;
    assert p[1].value == q[1].value;
    assert p[2].value == q[2].value;
    assert p[3].value == q[3].value;
    assert p[4].value == q[4].value;
  }

  lemma Recover1c(w: bv32, m: ModeDef, n: ModeDef)
    requires ReadsBack(w, Parts1c(m)) && ReadsBack(w, Parts1c(n))
    ensures m.vSyncLen0 == n.vSyncLen0 && m.vFrontPorch0 == n.vFrontPorch0 && m.yres0 == n.yres0
    ensures m.vBackPorch0 == n.vBackPorch0 && m.ntscFlag == n.ntscFlag
  {
    hide GetBits, Field;
    var p, q := Parts1c(m), Parts1c(n);
    assert p[0].value == q[0].value;
    assert p[1].value == q[1].value;
    assert p[2].value == q[2].value;
    assert p[3].value == q[3].value;
    assert p[4].value == q[4].value;
  }

  lemma Recover20(w: bv32, m: ModeDef, n: ModeDef)
    requires ReadsBack(w, Parts20(m)) && ReadsBack(w, Parts20(n))
    ensures m.vSyncLen1 == n.vSyncLen1 && m.vFrontPorch1 == n.vFrontPorch1 && m.yres1 == n.yres1
    ensures m.vBackPorch1 == n.vBackPorch1
  {
    hide GetBits, Field;
    var p, q := Parts20(m), Parts20(n);
    assert p[0].value == q[0].value;
    assert p[1].value == q[1].value;
    assert p[2].value == q[2].value;
    assert p[3].value == q[3].value;
  }

  lemma Recover28(w: bv32, m: ModeDef, n: ModeDef)
    requires ReadsBack(w, Parts28(m)) && ReadsBack(w, Parts28(n))
    ensures m.bb == n.bb && m.cc == n.cc
  {
    hide GetBits, Field;
    var p, q := Parts28(m), Parts28(n);
    assert p[0].value == q[0].value;
    assert p[1].value == q[1].value;
  }

  lemma Recover24(w: bv32, m: ModeDef, n: ModeDef)
    requires ReadsBack(w, Parts24(m)) && ReadsBack(w, Parts24(n))
    ensures m.y == n.y && m.z == n.z && m.aa == n.aa
  {
    hide GetBits, Field;
    var p, q := Parts24(m), Parts24(n);
    assert p[0].value == q[0].value;
    assert p[1].value == q[1].value;
    assert p[2].value == q[2].value;
  }

  /** No two modes program the same registers: the mode can be told from what tl880_set_mode left. */
  lemma ModeIsRecoverable(words: seq<bv32>, words': seq<bv32>, m: ModeDef, m': ModeDef, d: bv32, d': bv32)
    requires |words| == |words'| == SPACE / 4
    requires Reaches(Program(m, d)) && Reaches(Program(m', d'))
    requires Applied(words, Program(m, d)) == Applied(words', Program(m', d'))
    ensures m == m'
  {
    hide ReadsBack, Applied, Program;
    hide Parts14, Parts18, Parts1c, Parts20, Parts28, Parts24;
    RegistersReadBack(words, m, d);
    RegistersReadBack(words', m', d');
    var after := Applied(words, Program(m, d));
    Recover14Low(after[0x10014 / 4], m, m');
    Recover14High(after[0x10014 / 4], m, m');
    Recover18(after[0x10018 / 4], m, m');
    Recover1c(after[0x1001c / 4], m, m');
    Recover20(after[0x10020 / 4], m, m');
    Recover28(after[0x10028 / 4], m, m');
    Recover24(after[0x10024 / 4], m, m');
  }

  /** tl880_set_mode changes eight registers at most. */
  lemma OthersUntouched(words: seq<bv32>, m: ModeDef, display: bv32, reg: nat)
    requires |words| == SPACE / 4 && reg < SPACE && reg % 4 == 0
    requires reg != DISPLAY && forall i :: 0 <= i < |Timing(m)| ==> Timing(m)[i].reg != reg
    ensures Reaches(Program(m, display)) && Applied(words, Program(m, display))[reg / 4] == words[reg / 4]
  {
    hide Applied, Timing;
    TimingMissesDisplay(m);
    UnwrittenStays(words, Program(m, display), reg);
  }
}
