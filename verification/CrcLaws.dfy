/** What the CRC table is good for: linear, byte-wise equal to bit-serial, self-closing, burst-proof. */
module CrcLaws {
  import opened Crc
  import opened Words

  // ---------- xor-linearity ----------

  lemma ShiftLinear(x: bv32, y: bv32)
    ensures Shift(Mix(x, y)) == Mix(Shift(x), Shift(y)) && Msb(Mix(x, y)) == (Msb(x) != Msb(y))
  {}

  lemma FeedLinear(f: bool, g: bool)
    ensures Feed(f != g) == Mix(Feed(f), Feed(g))
  {}

  lemma MixAssociates(a: bv32, b: bv32, c: bv32)
    ensures Mix(Mix(a, b), c) == Mix(a, Mix(b, c)) && Mix(a, b) == Mix(b, a)
  {}

  lemma MixShuffle(a: bv32, b: bv32, c: bv32, d: bv32)
    ensures Mix(Mix(a, b), Mix(c, d)) == Mix(Mix(a, c), Mix(b, d))
  {
    hide Mix;
    MixAssociates(a, b, Mix(c, d));
    MixAssociates(b, c, d);
    MixAssociates(c, b, d);
    MixAssociates(a, c, Mix(b, d));
  }

  lemma StepLinear(x: bv32, y: bv32, b: bool, c: bool)
    ensures Step(Mix(x, y), b != c) == Mix(Step(x, b), Step(y, c))
  {
    hide Mix, Shift, Feed, Msb;
    ShiftLinear(x, y);
    FeedLinear(Msb(x) != b, Msb(y) != c);
    MixShuffle(Shift(x), Shift(y), Feed(Msb(x) != b), Feed(Msb(y) != c));
  }

  lemma {:induction false} SerialLinear(x: bv32, y: bv32, a: seq<bool>, b: seq<bool>)
    requires |a| == |b|
    ensures Serial(Mix(x, y), Xor(a, b)) == Mix(Serial(x, a), Serial(y, b))
    decreases |a|
  {
    hide Step, Mix;
    if a != [] {
      assert Xor(a, b)[1..] == Xor(a[1..], b[1..]);
      StepLinear(x, y, a[0], b[0]);
      SerialLinear(Step(x, a[0]), Step(y, b[0]), a[1..], b[1..]);
    }
  }

  /** The table is linear: the entry of the xor of two bytes is the xor of their entries. */
  lemma TableIsLinear(a: seq<bool>, b: seq<bool>)
    requires |a| == |b| == 8
    ensures Entry(Value(Xor(a, b))) == Mix(Entry(Value(a)), Entry(Value(b)))
  {
    hide Serial, BitsOf, Value, Xor, Mix;
    ValueReadsBack(a);
    ValueReadsBack(b);
    ValueReadsBack(Xor(a, b));
    SerialLinear(0, 0, a, b);
    MixZero(0);
  }

  // ---------- byte by byte ----------

  lemma StepOwn(r: bv32)
    ensures Step(r, Msb(r)) == Shift(r)
  {
    hide Shift, Msb, Mix;
    MixZero(Shift(r));
  }

  /** Fed its own leading bits, the register never feeds back. */
  lemma {:induction false} SerialOwn(r: bv32, n: nat)
    ensures Serial(r, Top(r, n)) == Rest(r, n)
    decreases n
  {
    hide Step, Shift, Msb;
    if n > 0 {
      StepOwn(r);
      assert Top(r, n)[1..] == Top(Shift(r), n - 1);
      SerialOwn(Shift(r), n - 1);
    }
  }

  /** A register and its input split into the part that feeds back and the part that only moves. */
  lemma SerialPeels(r: bv32, bits: seq<bool>)
    ensures Serial(r, bits) == Mix(Rest(r, |bits|), Serial(0, Xor(Top(r, |bits|), bits)))
  {
    hide Serial, Top, Rest, Mix;
    var top := Top(r, |bits|);
    assert Xor(top, Xor(top, bits)) == bits;
    SerialLinear(r, 0, top, Xor(top, bits));
    MixZero(r);
    SerialOwn(r, |bits|);
  }

  function Shift8(r: bv32): bv32 { r << 8 }

  lemma EightShifts(r: bv32)
    ensures Rest(r, 8) == Shift8(r)
  {
    var a, b := Shift(Shift(Shift(Shift(r)))), Rest(Shift(Shift(Shift(Shift(r)))), 4);
    assert Rest(r, 8) == Rest(Shift(r), 7) == Rest(Shift(Shift(r)), 6) == Rest(Shift(Shift(Shift(r))), 5) == Rest(a, 4);
    assert Rest(a, 4) == Rest(Shift(a), 3) == Rest(Shift(Shift(a)), 2) == Rest(Shift(Shift(Shift(a))), 1);
  }

  type Byte = i: nat | i < 256

  predicate IsTable(table: seq<bv32>) {
    |table| == 256 && forall i :: 0 <= i < 256 ==> table[i] == Entry(i)
  }

  /** One byte at a time: the table entry picked by the register's top byte xor the data byte. */
  function ByTable(table: seq<bv32>, crc: bv32, msg: seq<Byte>): bv32
    requires |table| == 256
    decreases |msg|
  {
    if msg == [] then crc
    else
      var index := Value(Xor(Top(crc, 8), BitsOf(msg[0], 8)));
      assert Pow2(8) == 256;
      ByTable(table, Mix(Shift8(crc), table[index]), msg[1..])
  }

  function AllBits(msg: seq<Byte>): seq<bool>
    decreases |msg|
  {
    if msg == [] then [] else BitsOf(msg[0], 8) + AllBits(msg[1..])
  }

  lemma ByteIsSerial(crc: bv32, byte: seq<bool>)
    requires |byte| == 8
    ensures Serial(crc, byte) == Mix(Shift8(crc), Entry(Value(Xor(Top(crc, 8), byte))))
  {
    hide Serial, BitsOf, Value, Xor, Top, Rest, Mix, Shift8;
    SerialPeels(crc, byte);
    EightShifts(crc);
    ValueReadsBack(Xor(Top(crc, 8), byte));
  }

  /** Over any message from any register, the table gives the decoder model's result. */
  lemma {:induction false} TableIsSerial(table: seq<bv32>, crc: bv32, msg: seq<Byte>)
    requires IsTable(table)
    ensures ByTable(table, crc, msg) == Serial(crc, AllBits(msg))
    decreases |msg|
  {
    hide Entry, BitsOf, Value, Xor, Top;
    if msg != [] {
      var byte := BitsOf(msg[0], 8);
      ByteIsSerial(crc, byte);
      assert Pow2(8) == 256;
      TableIsSerial(table, Serial(crc, byte), msg[1..]);
      SerialSplits(crc, byte, AllBits(msg[1..]));
    }
  }

  // ---------- closing and error detection ----------

  lemma {:induction false} RestAdds(r: bv32, m: nat, n: nat)
    ensures Rest(r, m + n) == Rest(Rest(r, m), n)
    decreases m
  {
    hide Shift;
    if m > 0 { RestAdds(Shift(r), m - 1, n); }
  }

  lemma {:induction false} RestOfNothing(n: nat)
    ensures Rest(0, n) == 0 && Top(0, n) == Zeros(n)
    decreases n
  {
    if n > 0 { RestOfNothing(n - 1); }
  }

  lemma SixteenShifts(r: bv32)
    ensures Rest(r, 16) == Shift8(Shift8(r))
  {
    hide Rest, Shift8;
    RestAdds(r, 8, 8);
    EightShifts(r);
    EightShifts(Shift8(r));
  }

  lemma AllOut(r: bv32)
    ensures Rest(r, 32) == 0
  {
    hide Rest;
    RestAdds(r, 16, 16);
    SixteenShifts(r);
    SixteenShifts(Shift8(Shift8(r)));
  }

  lemma LowBitLasts(r: bv32, n: nat)
    requires r & 1 == 1 && n < 32
    ensures Rest(r, n) != 0
  {
    hide Rest;
    if Rest(r, n) == 0 {
      RestAdds(r, n, 31 - n);
      RestOfNothing(31 - n);
      RestAdds(r, 16, 15);
      RestAdds(Rest(r, 16), 8, 7);
      SixteenShifts(r);
      EightShifts(Shift8(Shift8(r)));
      SevenShifts(Shift8(Shift8(Shift8(r))));
      BitAtTheTop(r);
    }
  }

  lemma SevenShifts(r: bv32)
    ensures Rest(r, 7) == r << 7
  {
    var a := Shift(Shift(Shift(Shift(r))));
    assert Rest(r, 7) == Rest(Shift(r), 6) == Rest(Shift(Shift(r)), 5) == Rest(Shift(Shift(Shift(r))), 4) == Rest(a, 3);
    assert Rest(a, 3) == Rest(Shift(a), 2) == Rest(Shift(Shift(a)), 1);
  }

  lemma BitAtTheTop(r: bv32)
    requires r & 1 == 1
    ensures (Shift8(Shift8(Shift8(r)))) << 7 != 0
  {}

  /** The polynomial is odd, so feedback shows in the lowest bit. */
  lemma FeedShows(r: bv32, b: bool)
    ensures Step(r, b) & 1 == 1 <==> Msb(r) != b
  {}

  /** Up to 32 bits bring the register to zero only if they are the register's own leading bits. */
  lemma {:induction false} ZeroNeedsOwnBits(r: bv32, bits: seq<bool>)
    requires |bits| <= 32 && Serial(r, bits) == 0
    ensures bits == Top(r, |bits|)
    decreases |bits|
  {
    hide Step, Shift, Msb;
    if bits != [] {
      var b, rest := bits[0], bits[1..];
      var n := |rest|;
      ZeroNeedsOwnBits(Step(r, b), rest);
      SerialOwn(Step(r, b), n);
      if Msb(r) != b {
        FeedShows(r, b);
        LowBitLasts(Step(r, b), n);
        assert false;
      }
      StepOwn(r);
    }
  }

  /** A message followed by 32 bits leaves zero exactly when they are its CRC. */
  lemma CrcCloses(crc: bv32, msg: seq<bool>, tail: seq<bool>)
    requires |tail| == 32
    ensures Serial(crc, msg + tail) == 0 <==> tail == Top(Serial(crc, msg), 32)
  {
    hide Serial, Top, Rest;
    var r := Serial(crc, msg);
    SerialSplits(crc, msg, tail);
    if tail == Top(r, 32) {
      SerialOwn(r, 32);
      AllOut(r);
    } else if Serial(r, tail) == 0 {
      ZeroNeedsOwnBits(r, tail);
    }
  }

  lemma ShiftForgetsOneBit(x: bv32, y: bv32)
    requires Shift(x) == Shift(y) && Msb(x) == Msb(y)
    ensures x == y
  {}

  lemma MixCancels(x: bv32, y: bv32, z: bv32)
    requires Mix(x, z) == Mix(y, z)
    ensures x == y
  {}

  lemma StepForgetsNothing(x: bv32, y: bv32, b: bool)
    requires Step(x, b) == Step(y, b)
    ensures x == y
  {
    hide Shift, Msb, Mix, Feed;
    FeedShows(x, b);
    FeedShows(y, b);
    MixCancels(Shift(x), Shift(y), Feed(Msb(x) != b));
    ShiftForgetsOneBit(x, y);
  }

  lemma {:induction false} SerialForgetsNothing(x: bv32, y: bv32, bits: seq<bool>)
    requires Serial(x, bits) == Serial(y, bits)
    ensures x == y
    decreases |bits|
  {
    hide Step;
    if bits != [] {
      SerialForgetsNothing(Step(x, bits[0]), Step(y, bits[0]), bits[1..]);
      StepForgetsNothing(x, y, bits[0]);
    }
  }

  /** Messages that differ only within 32 neighbouring bits have different CRCs. */
  lemma BurstsAreSeen(crc: bv32, before: seq<bool>, a: seq<bool>, b: seq<bool>, after: seq<bool>)
    requires |a| == |b| <= 32 && a != b
    ensures Serial(crc, before + a + after) != Serial(crc, before + b + after)
  {
    hide Serial, Top, Mix;
    var r := Serial(crc, before);
    SerialSplits(crc, before + a, after);
    SerialSplits(crc, before + b, after);
    SerialSplits(crc, before, a);
    SerialSplits(crc, before, b);
    if Serial(crc, before + a + after) == Serial(crc, before + b + after) {
      SerialForgetsNothing(Serial(r, a), Serial(r, b), after);
      SerialLinear(r, r, a, b);
      MixZero(r);
      MixZero(Serial(r, a));
      ZeroNeedsOwnBits(0, Xor(a, b));
      RestOfNothing(|a|);
      forall i | 0 <= i < |a| ensures a[i] == b[i] {
        assert !Xor(a, b)[i];
      }
    }
  }
}
