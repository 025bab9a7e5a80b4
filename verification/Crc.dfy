/** The CRC table of tl880_demux_init, against the decoder model of ISO/IEC 13818-1, Annex A. */
module Crc {
  import opened Words

  const POLY: bv32 := 0x4c11db7

  function Msb(r: bv32): bool { r >= 0x80000000 }

  function Shift(r: bv32): bv32 { r << 1 }

  function Feed(f: bool): bv32 { if f then POLY else 0 }

  /** Addition of polynomials over two elements. */
  function Mix(x: bv32, y: bv32): bv32 { x ^ y }

  /** One bit into the register of the decoder model: its last stage xor the input feeds the taps. */
  function Step(r: bv32, b: bool): bv32 {
    Mix(Shift(r), Feed(Msb(r) != b))
  }

  function Serial(r: bv32, bits: seq<bool>): bv32
    decreases |bits|
  {
    if bits == [] then r else Serial(Step(r, bits[0]), bits[1..])
  }

  // ---------- bits, first to last ----------

  /** The low n bits of a number, most significant first. */
  function BitsOf(i: nat, n: nat): (bits: seq<bool>)
    ensures |bits| == n
  {
    if n == 0 then [] else BitsOf(i / 2, n - 1) + [i % 2 == 1]
  }

  function Value(bits: seq<bool>): (v: nat)
    ensures v < Pow2(|bits|)
    decreases |bits|
  {
    if bits == [] then 0
    else 2 * Value(bits[..|bits| - 1]) + if bits[|bits| - 1] then 1 else 0
  }

  function Xor(a: seq<bool>, b: seq<bool>): (c: seq<bool>)
    requires |a| == |b|
    ensures |c| == |a|
  {
    seq(|a|, i requires 0 <= i < |a| => a[i] != b[i])
  }

  function Zeros(n: nat): (z: seq<bool>)
    ensures |z| == n
  {
    seq(n, _ => false)
  }

  /** The first n bits to leave a register, and what is left when they are gone. */
  function Top(r: bv32, n: nat): (bits: seq<bool>)
    ensures |bits| == n
    decreases n
  {
    if n == 0 then [] else [Msb(r)] + Top(Shift(r), n - 1)
  }

  function Rest(r: bv32, n: nat): bv32
    decreases n
  {
    if n == 0 then r else Rest(Shift(r), n - 1)
  }

  /** Entry i of the table: the byte's bits through a clear register. */
  function Entry(i: nat): bv32 {
    Serial(0, BitsOf(i, 8))
  }

  lemma {:induction false} ValueReadsBack(bits: seq<bool>)
    ensures BitsOf(Value(bits), |bits|) == bits
    decreases |bits|
  {
    if bits != [] {
      ValueReadsBack(bits[..|bits| - 1]);
    }
  }

  lemma {:induction false} SerialSplits(r: bv32, a: seq<bool>, b: seq<bool>)
    ensures Serial(r, a + b) == Serial(Serial(r, a), b)
    decreases |a|
  {
    hide Step;
    if a == [] {
      assert a + b == b;
    } else {
      assert (a + b)[1..] == a[1..] + b;
      SerialSplits(Step(r, a[0]), a[1..], b);
    }
  }

  // ---------- the table ----------

  /** i >> k */
  function Down(i: nat, k: nat): nat {
    if k == 0 then i else Down(i, k - 1) / 2
  }

  lemma Doubled(r: bv32)
    ensures r + r == Shift(r)
  {}

  lemma NextBit(i: nat, bit: nat, n: nat)
    ensures BitsOf(Down(i, bit), n + 1) == BitsOf(Down(i, bit + 1), n) + [Down(i, bit) % 2 == 1]
  {}

  lemma SerialOne(r: bv32, bits: seq<bool>, b: bool)
    ensures Serial(r, bits + [b]) == Step(Serial(r, bits), b)
  {
    hide Step;
    SerialSplits(r, bits, [b]);
  }

  /** The condition of the inner loop: input bit xor crcval >> 0x1f, as a number, is not zero. */
  function Feeds(r: bv32, b: bool): bool {
    (if b then 1 else 0) ^ (r >> 31) != 0
  }

  lemma FeedsIff(r: bv32, b: bool)
    ensures Feeds(r, b) <==> Msb(r) != b
  {}

  lemma MixZero(x: bv32)
    ensures Mix(x, 0) == x && Mix(0, x) == x && Mix(x, x) == 0
  {}

  /** The branches of the inner loop. */
  method OneBit(crcval: bv32, b: bool) returns (r: bv32)
    ensures r == Step(crcval, b)
  {
    hide Shift, Feeds, Msb;
    FeedsIff(crcval, b);
    Doubled(crcval);
    MixZero(Shift(crcval));
    if Feeds(crcval, b) {
      r := crcval + crcval;
      r := r ^ POLY;
    } else {
      r := Shift(crcval);
    }
  }

  /** The inner loop, with a 32-bit unsigned long. */
  method TableEntry(i: nat) returns (crcval: bv32)
    requires i < 256
    ensures crcval == Entry(i)
  {
    hide Serial, Step, BitsOf, Down;
    var bit := 7;
    crcval := 0;
    NoBits(i);
    while bit >= 0
      invariant -1 <= bit <= 7
      invariant crcval == Serial(0, BitsOf(Down(i, bit + 1), 7 - bit))
    {
      var b := Down(i, bit) % 2 == 1;
      NextBit(i, bit, 7 - bit);
      SerialOne(0, BitsOf(Down(i, bit + 1), 7 - bit), b);
      crcval := OneBit(crcval, b);
      bit := bit - 1;
    }
  }

  lemma NoBits(i: nat)
    ensures Serial(0, BitsOf(Down(i, 8), 0)) == 0
    ensures Down(i, 0) == i
  {}

  method BuildTable(crcTable: array<bv32>)
    requires crcTable.Length == 256
    modifies crcTable
    ensures forall i :: 0 <= i < 256 ==> crcTable[i] == Entry(i)
  {
    hide Entry;
    var i := 0;
    while i < 256
      invariant 0 <= i <= 256
      invariant forall j :: 0 <= j < i ==> crcTable[j] == Entry(j)
    {
      var crcval := TableEntry(i);
      crcTable[i] := crcval;
      i := i + 1;
    }
  }
}
