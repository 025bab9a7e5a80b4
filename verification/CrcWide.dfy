/** The same table loop where unsigned long has 64 bits: which entries come out wrong. */
module CrcWide {
  import opened Crc

  const WIDE: bv64 := 0x4c11db7

  function Double(c: bv64): bv64 { c << 1 }

  function MixWide(c: bv64): bv64 { c ^ WIDE }

  /** The condition of the inner loop: input bit xor crcval >> 0x1f is not zero. */
  function FeedsWide(c: bv64, b: bool): bool {
    (if b then 1 else 0) ^ (c >> 31) != 0
  }

  /** The inner loop's step on a 64-bit crcval: nothing falls off at bit 32. */
  function StepWide(c: bv64, b: bool): bv64 {
    if FeedsWide(c, b) then MixWide(Double(c)) else Double(c)
  }

  function SerialWide(c: bv64, bits: seq<bool>): bv64
    decreases |bits|
  {
    if bits == [] then c else SerialWide(StepWide(c, bits[0]), bits[1..])
  }

  /** Storing into the table of 32-bit words. */
  function Cut(c: bv64): bv32 {
    (c & 0xFFFFFFFF) as bv32
  }

  function EntryWide(i: nat): bv32 {
    Cut(SerialWide(0, BitsOf(i, 8)))
  }

  lemma {:induction false} SerialWideOne(c: bv64, bits: seq<bool>, b: bool)
    ensures SerialWide(c, bits + [b]) == StepWide(SerialWide(c, bits), b)
    decreases |bits|
  {
    hide StepWide;
    if bits == [] {
      assert [b][1..] == [];
    } else {
      assert (bits + [b])[1..] == bits[1..] + [b];
      SerialWideOne(StepWide(c, bits[0]), bits[1..], b);
    }
  }

  /** The inner loop, with a 64-bit unsigned long. */
  method TableEntryWide(i: nat) returns (crcval: bv64)
    requires i < 256
    ensures Cut(crcval) == EntryWide(i)
  {
    hide StepWide, Cut, BitsOf, Down;
    var bit := 7;
    crcval := 0;
    NoBits(i);
    assert BitsOf(Down(i, 8), 0) == [];
    while bit >= 0
      invariant -1 <= bit <= 7
      invariant crcval == SerialWide(0, BitsOf(Down(i, bit + 1), 7 - bit))
    {
      NextBit(i, bit, 7 - bit);
      SerialWideOne(0, BitsOf(Down(i, bit + 1), 7 - bit), Down(i, bit) % 2 == 1);
      crcval := OneBitWide(crcval, Down(i, bit) % 2 == 1);
      bit := bit - 1;
    }
  }

  method OneBitWide(crcval: bv64, b: bool) returns (r: bv64)
    ensures r == StepWide(crcval, b)
  {
    hide FeedsWide, Double;
    DoubledWide(crcval);
    if FeedsWide(crcval, b) {
      r := crcval + crcval;
      r := r ^ WIDE;
    } else {
      r := Double(crcval);
    }
  }

  lemma DoubledWide(c: bv64)
    ensures c + c == Double(c)
  {}

  // ---------- while crcval fits 32 bits the low half is right ----------

  /** 2^(33 - n) */
  function Limit(n: nat): bv64
    requires n <= 6
  {
    if n == 0 then 0x200000000 else if n == 1 then 0x100000000 else if n == 2 then 0x80000000
    else if n == 3 then 0x40000000 else if n == 4 then 0x20000000 else if n == 5 then 0x10000000 else 0x8000000
  }

  predicate Within(c: bv64, n: nat) {
    n <= 6 && c < Limit(n)
  }

  lemma CutShifts(c: bv64)
    ensures Cut(c << 1) == Cut(c) << 1
  {}

  lemma CutDoubles(c: bv64)
    ensures Cut(Double(c)) == Shift(Cut(c))
  {
    hide Cut;
    CutShifts(c);
  }

  lemma CutXors(c: bv64)
    ensures Cut(c ^ 0x4c11db7) == Cut(c) ^ 0x4c11db7
  {}

  lemma CutMixes(c: bv64)
    ensures Cut(MixWide(c)) == Mix(Cut(c), POLY)
  {
    hide Cut;
    CutXors(c);
  }

  lemma NarrowFeeds(c: bv64, b: bool)
    requires c < 0x100000000
    ensures FeedsWide(c, b) <==> Msb(Cut(c)) != b
  {}

  lemma NarrowStep(c: bv64, b: bool)
    requires Within(c, 1)
    ensures Cut(StepWide(c, b)) == Step(Cut(c), b)
  {
    hide Cut, Double, MixWide, FeedsWide, Shift, Mix, Msb;
    NarrowFeeds(c, b);
    CutDoubles(c);
    CutMixes(Double(c));
    MixZero(Shift(Cut(c)));
  }

  lemma Grows(c: bv64, b: bool, n: nat)
    requires 0 < n && Within(c, n)
    ensures Within(StepWide(c, b), n - 1) && Within(c, 1)
  {
    hide FeedsWide;
    assert Double(c) < Limit(n - 1);
    assert WIDE < 0x8000000;
  }

  lemma {:induction false} RightWithinLimit(c: bv64, bits: seq<bool>)
    requires Within(c, |bits|)
    ensures Cut(SerialWide(c, bits)) == Serial(Cut(c), bits)
    decreases |bits|
  {
    hide StepWide, Step, Cut, Within;
    if bits != [] {
      Grows(c, bits[0], |bits|);
      NarrowStep(c, bits[0]);
      RightWithinLimit(StepWide(c, bits[0]), bits[1..]);
    }
  }

  // ---------- the bit that should have fallen off ----------

  /** c >> (31 - n) */
  function High(c: bv64, n: nat): bv64
    requires n <= 5
  {
    if n == 0 then c >> 31 else if n == 1 then c >> 30 else if n == 2 then c >> 29
    else if n == 3 then c >> 28 else if n == 4 then c >> 27 else c >> 26
  }

  /** The leading bits above x^32 come from the first byte bit and are out of the taps' reach. */
  predicate Carries(c: bv64, n: nat, second: bool)
    requires n <= 5
  {
    High(c, n) == if second then 3 else 2
  }

  lemma CarriesOn(c: bv64, b: bool, n: nat, second: bool)
    requires 0 < n <= 5 && Carries(c, n, second)
    ensures Carries(StepWide(c, b), n - 1, second)
  {
    hide FeedsWide;
  }

  lemma {:induction false} CarriesToTheEnd(c: bv64, bits: seq<bool>, second: bool)
    requires |bits| <= 5 && Carries(c, |bits|, second)
    ensures Carries(SerialWide(c, bits), 0, second)
    decreases |bits|
  {
    hide StepWide, Carries;
    if bits != [] {
      CarriesOn(c, bits[0], |bits|, second);
      CarriesToTheEnd(StepWide(c, bits[0]), bits[1..], second);
    }
  }

  lemma CarriesFeeds(c: bv64, b: bool, second: bool)
    requires Carries(c, 0, second)
    ensures FeedsWide(c, b) && Msb(Cut(c)) == second
  {}

  lemma MixPoly(x: bv32)
    ensures Mix(x, POLY) != x
  {}

  /** With a bit left above x^32 the loop always feeds back, right or wrong. */
  lemma LastStep(c: bv64, b: bool, second: bool)
    requires Carries(c, 0, second)
    ensures Cut(StepWide(c, b)) == Step(Cut(c), b) <==> second != b
  {
    hide Cut, Double, MixWide, FeedsWide, Shift, Mix, Msb, Carries;
    CarriesFeeds(c, b, second);
    CutDoubles(c);
    CutMixes(Double(c));
    MixZero(Shift(Cut(c)));
    MixPoly(Shift(Cut(c)));
  }

  lemma Starts(b: bool)
    ensures StepWide(0, b) == (if b then WIDE else 0) && Within(StepWide(0, b), 6)
    ensures Carries(StepWide(WIDE, b), 5, b) && Cut(WIDE) == POLY && Cut(0) == 0 && Within(0, 1)
  {}

  lemma SerialFirst(r: bv32, bits: seq<bool>)
    requires |bits| > 0
    ensures Serial(r, bits) == Serial(Step(r, bits[0]), bits[1..])
  {
    hide Step;
  }

  lemma SerialWideFirst(c: bv64, bits: seq<bool>)
    requires |bits| > 0
    ensures SerialWide(c, bits) == SerialWide(StepWide(c, bits[0]), bits[1..])
  {
    hide StepWide;
  }

  lemma ClearFirstBitIsRight(bits: seq<bool>)
    requires |bits| == 8 && !bits[0]
    ensures Cut(SerialWide(0, bits)) == Serial(0, bits)
  {
    hide SerialWide, Serial, StepWide, Step, Cut, Within, Carries;
    var rest := bits[1..];
    Starts(false);
    Starts(rest[0]);
    NarrowStep(0, false);
    NarrowStep(0, rest[0]);
    SerialFirst(0, bits);
    SerialFirst(0, rest);
    SerialWideFirst(0, bits);
    SerialWideFirst(0, rest);
    RightWithinLimit(StepWide(0, rest[0]), rest[1..]);
  }

  lemma SetFirstBitIsRightIff(bits: seq<bool>)
    requires |bits| == 8 && bits[0]
    ensures Cut(SerialWide(0, bits)) == Serial(0, bits) <==> bits[1] != bits[7]
  {
    hide SerialWide, Serial, StepWide, Step, Cut, Within, Carries;
    var mid := bits[1..7];
    Starts(true);
    Starts(bits[1]);
    NarrowStep(0, true);
    SerialFirst(0, bits);
    SerialWideFirst(0, bits);
    assert bits[1..] == mid + [bits[7]];
    SerialOne(POLY, mid, bits[7]);
    SerialWideOne(WIDE, mid, bits[7]);
    WithinWide();
    RightWithinLimit(WIDE, mid);
    SerialWideFirst(WIDE, mid);
    CarriesToTheEnd(StepWide(WIDE, bits[1]), mid[1..], bits[1]);
    LastStep(SerialWide(WIDE, mid), bits[7], bits[1]);
  }

  lemma WithinWide()
    ensures Within(WIDE, 6)
  {}

  lemma {:induction false} BitOfByte(i: nat, n: nat, j: nat)
    requires j < n
    ensures BitsOf(i, n)[n - 1 - j] == (Down(i, j) % 2 == 1)
  {
    if j > 0 {
      BitOfByte(i / 2, n - 1, j - 1);
      DownHalves(i, j - 1);
    }
  }

  lemma {:induction false} DownHalves(i: nat, k: nat)
    ensures Down(i / 2, k) == Down(i, k + 1)
  {
    if k > 0 { DownHalves(i, k - 1); }
  }

  /** With 64-bit longs a stored entry is wrong exactly when its byte has bit 7 set and bits 6 and 0 alike. */
  lemma WideIsRightIff(i: nat)
    requires i < 256
    ensures EntryWide(i) == Entry(i) <==> !(i >= 128 && Down(i, 6) % 2 == i % 2)
  {
    hide Cut, SerialWide, Serial, BitsOf;
    var bits := BitsOf(i, 8);
    BitOfByte(i, 8, 0);
    BitOfByte(i, 8, 6);
    BitOfByte(i, 8, 7);
    HighBit(i);
    if bits[0] { SetFirstBitIsRightIff(bits); } else { ClearFirstBitIsRight(bits); }
  }

  lemma HighBit(i: nat)
    requires i < 256
    ensures Down(i, 7) % 2 == 1 <==> i >= 128
    ensures Down(i, 0) == i
  {
    var a := Down(i, 4);
    assert Down(i, 1) == i / 2 && Down(i, 2) == i / 4 && Down(i, 3) == i / 8 && a == i / 16;
    assert Down(i, 5) == a / 2 && Down(i, 6) == a / 4 && Down(i, 7) == a / 8;
  }
}
