/** The handler of the video input interrupt: 16 rows, one field, and the rows again for ever. */
module Vpip {
  import opened Bits
  import opened Registers

  const ROWS: nat := 0x10

  /** The handler's two static counters. */
  datatype Counters = Counters(row: nat, field: nat)

  /** Registers 0x7008 and 0x7004 ask for the handler. */
  predicate Asks(w: seq<bv32>)
    requires |w| == SPACE / 4
  {
    w[0x7008 / 4] & w[0x7004 / 4] & 1 != 0
  }

  function Put(w: seq<bv32>, hi: bv32, lo: bv32, value: bv32): (r: seq<bv32>)
    requires |w| == SPACE / 4 && Field(hi, lo)
    ensures |r| == |w|
  {
    w[0x7000 / 4 := SetBits(w[0x7000 / 4], hi, lo, value)]
  }

  /** The writes for a row. */
  function Row(w: seq<bv32>): (r: seq<bv32>)
    requires |w| == SPACE / 4
    ensures |r| == |w|
  {
    Put(w, 0x15, 0x10, 0x3d)[0x701c / 4 := 0x92]
  }

  predicate FieldBit(w: seq<bv32>)
    requires |w| == SPACE / 4
  {
    GetBits(w[0x7000 / 4], 0x16, 0x16) != 0
  }

  /** The writes for a field, before those for its first row; 0x702c is written twice. */
  function Flip(w: seq<bv32>): (r: seq<bv32>)
    requires |w| == SPACE / 4
    ensures |r| == |w|
  {
    Put(w, 0x16, 0x16, if FieldBit(w) then 0 else 1)[0x702c / 4 := SetBits(0, 0x16, 0xc, 0)]
  }

  function Count(c: Counters): Counters {
    if c.row < ROWS then c.(row := c.row + 1)
    else if c.field < 1 then Counters(1, c.field + 1)
    else Counters(1, 1)
  }

  /** tl880_vpip_handler. */
  function Handled(w: seq<bv32>, c: Counters): (r: seq<bv32>)
    requires |w| == SPACE / 4
    ensures |r| == |w|
  {
    if c.row < ROWS then Row(w) else if c.field < 1 then Row(Flip(w)) else w
  }

  /** What tl880_vpip_int leaves. */
  function Served(w: seq<bv32>, c: Counters): (r: seq<bv32>)
    requires |w| == SPACE / 4
    ensures |r| == |w|
  {
    if Asks(w) then Handled(w, c) else w
  }

  /** The handler writes registers 0x7000, 0x701c and 0x702c, no other. */
  lemma OnlyVpipWords(w: seq<bv32>, c: Counters, k: nat)
    requires |w| == SPACE / 4 && k < |w| && k * 4 != 0x7000 && k * 4 != 0x701c && k * 4 != 0x702c
    ensures Served(w, c)[k] == w[k]
  {
    hide SetBits, Asks, FieldBit;
  }

  lemma RowMask()
    ensures Mask(0x15, 0x10) == 0x3f0000 && Ones(6) == 0x3f && Under(0x3d, 0x3f) == 0x3d
    ensures Mask(0x16, 0x16) == 0x400000
  {}

  /** A row's writes leave 0x3d in bits 21..16 of 0x7000 and 0x92 in 0x701c, and nothing else new. */
  lemma RowShows(w: seq<bv32>)
    requires |w| == SPACE / 4
    ensures GetBits(Row(w)[0x7000 / 4], 0x15, 0x10) == 0x3d
    ensures Outside(Row(w)[0x7000 / 4], 0x3f0000) == Outside(w[0x7000 / 4], 0x3f0000)
    ensures Row(w)[0x701c / 4] == 0x92
    ensures forall k :: 0 <= k < |w| && k != 0x7000 / 4 && k != 0x701c / 4 ==> Row(w)[k] == w[k]
  {
    hide SetBits, GetBits, Mask, Ones, Under, Outside;
    RowMask();
    FieldReadsBack(w[0x7000 / 4], 0x15, 0x10, 0x3d);
    SetBitsIsExact(w[0x7000 / 4], 0x15, 0x10, 0x3d);
  }

  /** A field's turn over bit 22 of 0x7000 and leave 0x702c at 0. */
  lemma FlipShows(w: seq<bv32>)
    requires |w| == SPACE / 4
    ensures GetBits(Flip(w)[0x7000 / 4], 0x16, 0x16) == 0 <==> GetBits(w[0x7000 / 4], 0x16, 0x16) != 0
    ensures Outside(Flip(w)[0x7000 / 4], 0x400000) == Outside(w[0x7000 / 4], 0x400000)
    ensures Flip(w)[0x702c / 4] == 0
    ensures forall k :: 0 <= k < |w| && k != 0x7000 / 4 && k != 0x702c / 4 ==> Flip(w)[k] == w[k]
  {
    hide SetBits, GetBits, Mask, Outside;
    RowMask();
    FlipFlips(w);
    Strobe();
    SetBitsIsExact(w[0x7000 / 4], 0x16, 0x16, if FieldBit(w) then 0 else 1);
  }

  lemma Strobe()
    ensures SetBits(0, 0x16, 0xc, 0) == 0 && SetBits(0, 0x16, 0xc, 0) | 0x80000000 == 0x80000000
  {}

  /** The register writes of one call, in order. The strobe of 0x702c, on and off, comes after the
      field has been turned over and before the row is set. */
  function Trace(w: seq<bv32>, c: Counters): seq<RegWrite>
    requires |w| == SPACE / 4
  {
    if c.row < ROWS then RowTrace(w)
    else if c.field < 1 then
      [RegWrite(0x7000, Flip(w)[0x7000 / 4]), RegWrite(0x702c, 0x80000000), RegWrite(0x702c, 0)] + RowTrace(Flip(w))
    else []
  }

  function RowTrace(w: seq<bv32>): seq<RegWrite>
    requires |w| == SPACE / 4
  {
    [RegWrite(0x7000, Row(w)[0x7000 / 4]), RegWrite(0x701c, 0x92)]
  }

  /** Which call writes what: the first sixteen rows, the field, and nothing at all in an idle call. */
  lemma CallWrites(w: seq<bv32>, c: Counters)
    requires |w| == SPACE / 4
    ensures var t := Trace(w, c);
            && (c.row < 16 ==> |t| == 2 && t[0].reg == 0x7000 && t[1] == RegWrite(0x701c, 0x92))
            && (c.row >= 16 && c.field == 0 ==>
                  && |t| == 5 && t[0].reg == 0x7000 && t[3].reg == 0x7000
                  && t[1] == RegWrite(0x702c, 0x80000000) && t[2] == RegWrite(0x702c, 0)
                  && t[4] == RegWrite(0x701c, 0x92))
            && (c.row >= 16 && c.field > 0 ==> t == [])
    ensures c.row < 16 ==> Handled(w, c) == Row(w)
    ensures c.row >= 16 && c.field == 0 ==> Handled(w, c) == Row(Flip(w))
    ensures c.row >= 16 && c.field > 0 ==> Handled(w, c) == w
  {
    hide SetBits, FieldBit, Row, Flip;
  }

  // ---------- runs ----------

  function CountersAfter(n: nat): Counters {
    if n == 0 then Counters(0, 0) else Count(CountersAfter(n - 1))
  }

  function WordsAfter(w: seq<bv32>, n: nat): (r: seq<bv32>)
    requires |w| == SPACE / 4
    ensures |r| == |w|
  {
    if n == 0 then w else Handled(WordsAfter(w, n - 1), CountersAfter(n - 1))
  }

  /** The counters after n calls: 16 rows, one field, then 15 rows and an idle call in turn. */
  function Cycle(n: nat): Counters {
    if n <= ROWS then Counters(n, 0) else Counters(1 + Phase(n - 17), 1)
  }

  function Phase(x: nat): nat { x % 16 }

  lemma NextPhase(x: nat)
    ensures Phase(x + 1) == if Phase(x) == 15 then 0 else Phase(x) + 1
    ensures Phase(x) < 16 && Phase(0) == 0
  {
    var q := x / 16;
    assert x == 16 * q + x % 16;
  }

  lemma CycleSteps(n: nat)
    ensures Count(Cycle(n)) == Cycle(n + 1)
  {
    hide Phase;
    if n > 16 { NextPhase(n - 17); } else { NextPhase(0); }
  }

  lemma {:induction false} CountersCycle(n: nat)
    ensures CountersAfter(n) == Cycle(n)
  {
    hide Count, Cycle;
    if n == 0 {
      CycleStarts();
    } else {
      CountersCycle(n - 1);
      CycleSteps(n - 1);
    }
  }

  lemma CycleStarts()
    ensures Cycle(0) == Counters(0, 0)
  {}

  lemma OneBit(value: bv32)
    ensures Under(value, Ones(1)) == if value & 1 != 0 then 1 else 0
  {}

  lemma RowKeepsFieldBit(w: seq<bv32>)
    requires |w| == SPACE / 4
    ensures FieldBit(Row(w)) == FieldBit(w)
  {
    hide SetBits, GetBits;
    FieldsApart(w[0x7000 / 4], 0x15, 0x10, 0x3d, 0x16, 0x16);
  }

  lemma FlipFlips(w: seq<bv32>)
    requires |w| == SPACE / 4
    ensures FieldBit(Flip(w)) == !FieldBit(w)
  {
    hide SetBits, GetBits, Under, Ones;
    var v: bv32 := if FieldBit(w) then 0 else 1;
    FieldReadsBack(w[0x7000 / 4], 0x16, 0x16, v);
    OneBit(v);
    assert v & 1 == v;
  }

  /** The field bit, 0x7000 bit 0x16, is turned over by the seventeenth call and by no other, ever. */
  lemma {:induction false} FieldFlipsOnce(w: seq<bv32>, n: nat)
    requires |w| == SPACE / 4
    ensures FieldBit(WordsAfter(w, n)) == (FieldBit(w) != (n > 16))
  {
    hide FieldBit, Row, Flip;
    if n > 0 {
      var v := WordsAfter(w, n - 1);
      FieldFlipsOnce(w, n - 1);
      CountersCycle(n - 1);
      RowKeepsFieldBit(v);
      RowKeepsFieldBit(Flip(v));
      FlipFlips(v);
    }
  }
}
