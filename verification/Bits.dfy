/** set_bits and its inverse, on 32-bit words: the step every register encoder is made of. */
module Bits {

  function Shl(x: bv32, k: bv32): bv32
    requires k < 32
  {
    x << k
  }

  function Shr(x: bv32, k: bv32): bv32
    requires k < 32
  {
    x >> k
  }

  /** ~(0xffffffff << width). A shift by 32 is undefined in C, so fields are at most 31 wide. */
  function Ones(width: bv32): bv32
    requires width < 32
  {
    !Shl(0xFFFFFFFF, width)
  }

  predicate Field(hi: bv32, lo: bv32) {
    lo <= hi < 32 && hi - lo < 31
  }

  function Mask(hi: bv32, lo: bv32): bv32
    requires Field(hi, lo)
  {
    Shl(Ones(hi - lo + 1), lo)
  }

  /** The bits of x under a mask, and those outside it. */
  function Under(x: bv32, mask: bv32): bv32 { x & mask }
  function Outside(x: bv32, mask: bv32): bv32 { x & !mask }

  function Merge(value: bv32, field: bv32, mask: bv32): bv32 {
    Under(field, mask) | Outside(value, mask)
  }

  /** set_bits. */
  function SetBits(value: bv32, hi: bv32, lo: bv32, setvalue: bv32): bv32
    requires Field(hi, lo)
  {
    Merge(value, Shl(setvalue, lo), Mask(hi, lo))
  }

  /** The expression of tl880_read_regbits. */
  function GetBits(value: bv32, hi: bv32, lo: bv32): bv32
    requires Field(hi, lo)
  {
    Under(Shr(value, lo), Ones(hi - lo + 1))
  }

  // ---------- shifts and masks ----------

  // One place at a time, so that no proof meets two shifts by unknown distances.

  function Up(x: bv32): bv32 { x << 1 }

  function Down(x: bv32): bv32 { x >> 1 }

  lemma ShrStep(x: bv32, lo: bv32)
    requires 0 < lo < 32
    ensures Shr(x, lo) == Down(Shr(x, lo - 1))
  {}

  lemma ShlStep(x: bv32, lo: bv32)
    requires 0 < lo < 32
    ensures Shl(x, lo) == Up(Shl(x, lo - 1))
  {}

  lemma ShiftNone(x: bv32)
    ensures Shl(x, 0) == x && Shr(x, 0) == x
  {}

  lemma StepUnder(x: bv32, y: bv32)
    ensures Down(Under(x, y)) == Under(Down(x), Down(y)) && Up(Under(x, y)) == Under(Up(x), Up(y))
  {}

  lemma {:induction false} ShrUnder(x: bv32, y: bv32, lo: bv32)
    requires lo < 32
    ensures Shr(Under(x, y), lo) == Under(Shr(x, lo), Shr(y, lo))
    decreases lo
  {
    hide Shr, Down, Up, Under;
    if lo == 0 {
      ShiftNone(x);
      ShiftNone(y);
      ShiftNone(Under(x, y));
    } else {
      ShrUnder(x, y, lo - 1);
      ShrStep(x, lo);
      ShrStep(y, lo);
      ShrStep(Under(x, y), lo);
      StepUnder(Shr(x, lo - 1), Shr(y, lo - 1));
    }
  }

  lemma {:induction false} ShlUnder(x: bv32, y: bv32, lo: bv32)
    requires lo < 32
    ensures Shl(Under(x, y), lo) == Under(Shl(x, lo), Shl(y, lo))
    decreases lo
  {
    hide Shl, Down, Up, Under;
    if lo == 0 {
      ShiftNone(x);
      ShiftNone(y);
      ShiftNone(Under(x, y));
    } else {
      ShlUnder(x, y, lo - 1);
      ShlStep(x, lo);
      ShlStep(y, lo);
      ShlStep(Under(x, y), lo);
      StepUnder(Shl(x, lo - 1), Shl(y, lo - 1));
    }
  }

  /** A value that fits the field survives being moved up and down again. */
  lemma ShiftBack(x: bv32, hi: bv32, lo: bv32)
    requires Field(hi, lo)
    ensures Shr(Shl(Under(x, Ones(hi - lo + 1)), lo), lo) == Under(x, Ones(hi - lo + 1))
  {}

  lemma OnesUnderItself(o: bv32)
    ensures Under(o, o) == o
  {}

  lemma MaskBack(hi: bv32, lo: bv32)
    requires Field(hi, lo)
    ensures Shr(Mask(hi, lo), lo) == Ones(hi - lo + 1)
  {
    hide Shl, Shr, Ones, Under;
    ShiftBack(Ones(hi - lo + 1), hi, lo);
    OnesUnderItself(Ones(hi - lo + 1));
  }

  function Grow(ones: bv32): bv32 { (ones << 1) | 1 }

  lemma OnesStep(n: bv32)
    requires n < 31
    ensures Ones(n + 1) == Grow(Ones(n))
  {}

  lemma UpStaysWithin(x: bv32, ones: bv32)
    requires Outside(x, ones) == 0
    ensures Outside(Up(x), Grow(ones)) == 0
  {}

  lemma OnesMoveUp(x: bv32, n: bv32)
    requires n < 31 && Outside(x, Ones(n)) == 0
    ensures Outside(Up(x), Ones(n + 1)) == 0
  {
    hide Ones, Outside, Up, Grow;
    OnesStep(n);
    UpStaysWithin(x, Ones(n));
  }

  lemma {:induction false} ShiftedOnesBelow(width: bv32, lo: bv32)
    requires width < 32 && lo < 32 && width + lo < 32 && width <= width + lo
    ensures Outside(Shl(Ones(width), lo), Ones(width + lo)) == 0
    decreases lo
  {
    hide Shl, Ones, Outside, Up;
    if lo == 0 {
      ShiftNone(Ones(width));
      NothingOutsideItself(Ones(width));
    } else {
      ShiftedOnesBelow(width, lo - 1);
      ShlStep(Ones(width), lo);
      OnesMoveUp(Shl(Ones(width), lo - 1), width + (lo - 1));
    }
  }

  lemma NothingOutsideItself(o: bv32)
    ensures Outside(o, o) == 0
  {}

  lemma MaskBelow(hi: bv32, lo: bv32)
    requires Field(hi, lo) && hi < 31
    ensures Outside(Mask(hi, lo), Ones(hi + 1)) == 0
  {
    hide Shl, Ones, Outside;
    ShiftedOnesBelow(hi - lo + 1, lo);
  }

  lemma MaskAbove(hi: bv32, lo: bv32)
    requires Field(hi, lo)
    ensures Under(Mask(hi, lo), Ones(lo)) == 0
  {}

  lemma OnesGrow(a: bv32, b: bv32)
    requires a <= b < 32
    ensures Outside(Ones(a), Ones(b)) == 0
  {}

  lemma Nested(m: bv32, n: bv32, a: bv32, b: bv32)
    requires Outside(m, a) == 0 && Outside(a, b) == 0 && Under(n, b) == 0
    ensures Under(m, n) == 0 && Under(n, m) == 0
  {}

  /** The masks of fields that do not meet share no bit. */
  lemma MasksApart(hi: bv32, lo: bv32, hi': bv32, lo': bv32)
    requires Field(hi, lo) && Field(hi', lo') && hi < lo'
    ensures Under(Mask(hi, lo), Mask(hi', lo')) == 0 && Under(Mask(hi', lo'), Mask(hi, lo)) == 0
  {
    hide Mask, Ones, Under, Outside;
    MaskBelow(hi, lo);
    MaskAbove(hi', lo');
    OnesGrow(hi + 1, lo');
    Nested(Mask(hi, lo), Mask(hi', lo'), Ones(hi + 1), Ones(lo'));
  }

  lemma MergeIsExact(value: bv32, field: bv32, mask: bv32)
    ensures Outside(Merge(value, field, mask), mask) == Outside(value, mask)
    ensures Under(Merge(value, field, mask), mask) == Under(field, mask)
  {}

  lemma SameUnder(x: bv32, y: bv32, m: bv32, n: bv32)
    requires Outside(x, m) == Outside(y, m) && Under(m, n) == 0
    ensures Under(x, n) == Under(y, n)
  {}

  // ---------- the laws ----------

  /** set_bits changes no bit outside its field, and there it stores the value moved up. */
  lemma SetBitsIsExact(value: bv32, hi: bv32, lo: bv32, setvalue: bv32)
    requires Field(hi, lo)
    ensures Outside(SetBits(value, hi, lo, setvalue), Mask(hi, lo)) == Outside(value, Mask(hi, lo))
    ensures Under(SetBits(value, hi, lo, setvalue), Mask(hi, lo)) == Under(Shl(setvalue, lo), Mask(hi, lo))
  {
    hide Mask, Shl, Merge, Under, Outside;
    MergeIsExact(value, Shl(setvalue, lo), Mask(hi, lo));
  }

  /** Reading a field looks at no bit outside it. */
  lemma GetBitsByMask(x: bv32, hi: bv32, lo: bv32)
    requires Field(hi, lo)
    ensures GetBits(x, hi, lo) == Shr(Under(x, Mask(hi, lo)), lo)
  {
    hide Shl, Shr, Ones, Mask, Under;
    ShrUnder(x, Mask(hi, lo), lo);
    MaskBack(hi, lo);
  }

  /** What is written to a field is what is read from it, cut to the field's width. */
  lemma FieldReadsBack(value: bv32, hi: bv32, lo: bv32, setvalue: bv32)
    requires Field(hi, lo)
    ensures GetBits(SetBits(value, hi, lo, setvalue), hi, lo) == Under(setvalue, Ones(hi - lo + 1))
  {
    hide Shl, Shr, Ones, Under, Outside, SetBits, GetBits;
    SetBitsIsExact(value, hi, lo, setvalue);
    GetBitsByMask(SetBits(value, hi, lo, setvalue), hi, lo);
    ShlUnder(setvalue, Ones(hi - lo + 1), lo);
    ShiftBack(setvalue, hi, lo);
  }

  /** Writing one field leaves every field apart from it as it was. */
  lemma FieldsApart(value: bv32, hi: bv32, lo: bv32, setvalue: bv32, hi': bv32, lo': bv32)
    requires Field(hi, lo) && Field(hi', lo') && (hi < lo' || hi' < lo)
    ensures GetBits(SetBits(value, hi, lo, setvalue), hi', lo') == GetBits(value, hi', lo')
  {
    hide Shl, Shr, Ones, Mask, Under, Outside, SetBits, GetBits;
    var r := SetBits(value, hi, lo, setvalue);
    SetBitsIsExact(value, hi, lo, setvalue);
    GetBitsByMask(r, hi', lo');
    GetBitsByMask(value, hi', lo');
    if hi < lo' { MasksApart(hi, lo, hi', lo'); } else { MasksApart(hi', lo', hi, lo); }
    SameUnder(r, value, Mask(hi, lo), Mask(hi', lo'));
  }
}
