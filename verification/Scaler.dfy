/** The auxiliary scalers: one register word holds a quotient and the two steps of an error term. */
module Scaler {
  import opened Cast
  import opened Registers
  import opened Words

  /** An int taken as u32. */
  function U32(x: int): (r: nat)
    ensures r < LIMIT
  {
    x % LIMIT
  }

  // ---------- masks and shifts on numbers ----------

  lemma ModScales(z: int, d: int, k: int)
    requires d > 0 && k > 0
    ensures d * k > 0 && (z * k) % (d * k) == z % d * k
  {
    var q, r := z / d, z % d;
    assert z * k == q * (d * k) + r * k;
    assert r * k < d * k;
    ModUnique(z * k, d * k, q, r * k);
  }

  lemma ModNests(z: int, d: int, m: int)
    requires d > 0 && m > 0
    ensures d * m > 0 && z % (d * m) % d == z % d
  {
    var q, r := z / (d * m), z % (d * m);
    assert z == (q * m + r / d) * d + r % d;
    ModUnique(z, d, q * m + r / d, r % d);
  }

  lemma TwiceOver(x: nat, p: nat)
    ensures x * (2 * p) == 2 * (x * p)
  {}

  lemma {:induction false} AndShifted(x: nat, y: nat, k: nat)
    ensures And(x * Pow2(k), y * Pow2(k)) == And(x, y) * Pow2(k)
  {
    hide And;
    if k > 0 {
      var p := Pow2(k - 1);
      AndShifted(x, y, k - 1);
      TwiceOver(x, p);
      TwiceOver(y, p);
      TwiceOver(And(x, y), p);
      AndDoubled(x * p, y * p);
    }
  }

  lemma AndDoubled(a: nat, b: nat)
    ensures And(2 * a, 2 * b) == 2 * And(a, b)
  {}

  lemma Powers()
    ensures Pow2(8) == 0x100 && Pow2(12) == 0x1000 && Pow2(20) == 0x100000 && Pow2(24) == 0x1000000
  {
    assert Pow2(4) == 16;
    assert Pow2(8) == 16 * Pow2(4);
    assert Pow2(12) == 16 * Pow2(8);
    assert Pow2(16) == 16 * Pow2(12);
    assert Pow2(20) == 16 * Pow2(16);
    assert Pow2(24) == 16 * Pow2(20);
  }

  /** (z << 8) & 0x000fff00 */
  lemma MiddleField(z: int)
    ensures And(U32(z * 0x100), 0xfff00) == z % 0x1000 * 0x100
  {
    hide And, Pow2;
    Powers();
    ModScales(z, 0x1000000, 0x100);
    var y := z % 0x1000000;
    AndShifted(y, 0xfff, 8);
    AndLowMask(y, 12);
    ModNests(z, 0x1000, 0x1000);
  }

  /** (z << 0x14) & 0xfff00000 */
  lemma TopField(z: int)
    ensures And(U32(z * 0x100000), 0xfff00000) == z % 0x1000 * 0x100000
  {
    hide And, Pow2;
    Powers();
    ModScales(z, 0x1000, 0x100000);
    var y := z % 0x1000;
    AndShifted(y, 0xfff, 20);
    AndLowMask(y, 12);
  }

  lemma LowField(z: nat)
    ensures And(z, 0xff) == z % 0x100
  {
    Powers();
    AndLowMask(z, 8);
  }

  // ---------- the word ----------

  datatype Fields = Fields(quotient: int, over: int, under: int)

  /** Bits 7..0, 19..8 and 31..20. */
  function FieldsOf(value: int): Fields {
    Fields(value % 0x100, value / 0x100 % 0x1000, value / 0x100000)
  }

  function Joined(f: Fields): int {
    f.under * 0x100000 + f.over * 0x100 + f.quotient
  }

  predicate InRange(f: Fields) {
    0 <= f.quotient < 0x100 && 0 <= f.over < 0x1000 && 0 <= f.under < 0x1000
  }

  lemma FieldsReadBack(f: Fields)
    requires InRange(f)
    ensures FieldsOf(Joined(f)) == f && 0 <= Joined(f) < LIMIT
  {
    var v := Joined(f);
    ModUnique(v, 0x100, f.under * 0x1000 + f.over, f.quotient);
    ModUnique(f.under * 0x1000 + f.over, 0x1000, f.under, f.over);
    ModUnique(v, 0x100000, f.under, f.over * 0x100 + f.quotient);
  }

  /** What the three expressions leave, for any source length and any target length. */
  function ScalerFields(width: int, a: int): (f: Fields)
    requires width > 0
    ensures InRange(f)
  {
    var q := a * 0x100 / width % 0x100;
    Fields(q, ((q + 1) * width - a * 0x100) % 0x1000, (q * width - a * 0x100) % 0x1000)
  }

  lemma Disjoint(f: Fields)
    requires InRange(f)
    ensures Or(f.under * 0x100000, f.over * 0x100) == f.under * 0x100000 + f.over * 0x100
    ensures Or(f.under * 0x100000 + f.over * 0x100, f.quotient) == Joined(f)
  {
    Powers();
    AndApart(f.under * 0x100000, f.over * 0x100, 20);
    var v := f.under * 0x100000 + f.over * 0x100;
    ModUnique(v, 0x100, f.under * 0x1000 + f.over, 0);
    AndApart(v, f.quotient, 8);
  }

  /** The error terms as computed: a * 0xf00 stands for -(a << 8), as only 12 bits are kept. */
  lemma TopTerm(q: int, width: int, a: int)
    ensures (q * width + a * 0xf00) % 0x1000 == (q * width - a * 0x100) % 0x1000
  {
    var x := q * width - a * 0x100;
    ModUnique(x + a * 0x1000, 0x1000, x / 0x1000 + a, x % 0x1000);
  }

  /** The word of set_aux_horizontal_scaler, and of set_aux_vertical_scaler with height for width. */
  method ScalerWord(width: nat, a: nat) returns (value: nat)
    requires width > 0
    ensures value == Joined(ScalerFields(width, a)) && FieldsOf(value) == ScalerFields(width, a)
  {
    hide And, Or;
    var quotient := a * 0x100 / width;
    LowField(quotient);
    var q := And(quotient, 0xff);
    ghost var f := ScalerFields(width, a);

    value := And(U32((q * width + a * 0xf00) * 0x100000), 0xfff00000);
    TopField(q * width + a * 0xf00);
    TopTerm(q, width, a);
    value := Or(value, And(U32(((q + 1) * width - a * 0x100) * 0x100), 0xfff00));
    MiddleField((q + 1) * width - a * 0x100);
    Disjoint(f);
    value := Or(value, And(quotient, 0xff));
    FieldsReadBack(f);
  }

  function Packed(width: nat, a: nat): (w: bv32)
    requires width > 0
  {
    FieldsReadBack(ScalerFields(width, a));
    ToWord(Joined(ScalerFields(width, a)))
  }

  function OnBase(w: bv32): bv32 { w | 0x75a000 }

  function OriginWord(a: nat): bv32 {
    OnBase(ToWord(U32(0x6b3 - a * 2)))
  }

  /** set_aux_horizontal_scaler */
  method SetHorizontal(regs: RegisterFile, width: nat, a: nat)
    requires regs.Valid() && width > 0
    modifies regs.words, regs`trace
    ensures regs.words[..] == old(regs.words[..])[0x100c8 / 4 := Packed(width, a)][0x100d0 / 4 := OriginWord(a)]
    ensures regs.trace == old(regs.trace) + [RegWrite(0x100c8, Packed(width, a)), RegWrite(0x100d0, OriginWord(a))]
  {
    hide ScalerFields, Joined, FieldsOf, OriginWord, ToWord;
    var value := ScalerWord(width, a);
    FieldsReadBack(ScalerFields(width, a));
    regs.Write(0x100c8, ToWord(value));
    regs.Write(0x100d0, OriginWord(a));
  }

  /** set_aux_vertical_scaler, as far as its scaler word. */
  method SetVerticalWord(regs: RegisterFile, height: nat, a: nat)
    requires regs.Valid() && height > 0
    modifies regs.words, regs`trace
    ensures regs.words[..] == old(regs.words[..])[0x100cc / 4 := Packed(height, a)]
    ensures regs.trace == old(regs.trace) + [RegWrite(0x100cc, Packed(height, a))]
  {
    hide ScalerFields, Joined, FieldsOf, OriginWord, ToWord;
    var value := ScalerWord(height, a);
    FieldsReadBack(ScalerFields(height, a));
    regs.Write(0x100cc, ToWord(value));
  }

  lemma LowWord(w: bv32)
    requires FromWord(w) <= 0x6b3
    ensures OnBase(w) == Plus(0x75a000, w)
  {
    assert w <= 0x6b3;
  }

  lemma HighWord(w: bv32)
    requires FromWord(w) >= 0x80000000
    ensures FromWord(OnBase(w)) >= 0x80000000
  {
    hide FromWord;
    if w < 0x80000000 { BelowTop(w); }
    if FromWord(OnBase(w)) < 0x80000000 { TopBitClear(OnBase(w)); }
  }

  lemma OriginBase()
    ensures FromWord(0x75a000) == 0x75a000
  {}

  /** The word of register 0x100d0 is 0x75a6b3 - 2a exactly when the source is at most 0x359 long;
      for a longer one the subtraction wraps and swamps the constant. */
  lemma OriginIsIff(a: nat)
    ensures FromWord(OriginWord(a)) == 0x75a6b3 - 2 * a <==> a <= 0x359
  {
    hide FromWord, ToWord, Plus, OnBase;
    var n := U32(0x6b3 - a * 2);
    NumberReadsBack(n);
    if a <= 0x359 {
      LowWord(ToWord(n));
      OriginBase();
      SumOfWords(0x75a000, n);
    } else if 2 * a <= 0x75a6b3 {
      HighWord(ToWord(n));
    }
  }

  // ---------- laws ----------

  /** The low byte is the whole quotient exactly when the picture is enlarged. */
  lemma QuotientKeptIff(width: nat, a: nat)
    requires width > 0
    ensures ScalerFields(width, a).quotient == a * 0x100 / width <==> a < width
  {
    hide ScalerFields;
    QuotientField(width, a);
    QuotientBelow(a * 0x100, width, 0x100);
    var q: nat := a * 0x100 / width;
    KeptBelow(q);
  }

  lemma QuotientField(width: nat, a: nat)
    requires width > 0
    ensures ScalerFields(width, a).quotient == a * 0x100 / width % 0x100
  {}

  lemma KeptBelow(q: nat)
    ensures q % 0x100 == q <==> q < 0x100
  {}

  lemma QuotientBelow(x: nat, d: nat, m: nat)
    requires d > 0
    ensures x / d < m <==> x < m * d
  {
    var q := x / d;
    assert x == q * d + x % d;
    assert (q - m) * d == q * d - m * d;
    MulSign(q - m, d);
  }

  /** Quotient, width - r and -r, with r the remainder of 256a. */
  lemma ExactFields(width: nat, a: nat)
    requires a < width < 0x1000
    ensures var q, r := a * 0x100 / width, a * 0x100 % width;
      ScalerFields(width, a) == Fields(q, width - r, (-r) % 0x1000)
  {
    var q, r := a * 0x100 / width, a * 0x100 % width;
    QuotientKeptIff(width, a);
    assert (q + 1) * width - a * 0x100 == width - r;
    assert q * width - a * 0x100 == -r;
  }

  /** So the word itself, field by field: -r modulo 4096 above bit 20, width - r above bit 8, the
      quotient below. */
  lemma WordIsExact(width: nat, a: nat)
    requires a < width < 0x1000
    ensures var q, r := a * 0x100 / width, a * 0x100 % width;
      FromWord(Packed(width, a)) == (if r == 0 then 0 else 0x1000 - r) * 0x100000 + (width - r) * 0x100 + q
  {
    hide ToWord, FromWord, ScalerFields;
    ExactFields(width, a);
    FieldsReadBack(ScalerFields(width, a));
    NumberReadsBack(Joined(ScalerFields(width, a)));
  }

  /** The source length can be told from the register word and the target length. */
  lemma SourceIsRecoverable(width: nat, a: nat)
    requires a < width < 0x1000
    ensures var f := FieldsOf(FromWord(Packed(width, a)));
      a == ((f.quotient + 1) * width - f.over) / 0x100
  {
    hide ToWord, FromWord;
    ExactFields(width, a);
    FieldsReadBack(ScalerFields(width, a));
    NumberReadsBack(Joined(ScalerFields(width, a)));
  }

  /**
   * An error accumulator driven by the three fields, in 12-bit arithmetic: taking r off must not
   * wrap, and where it would, width - r is put on and the position moves one further. That the
   * hardware uses the fields this way is inferred from their values; no source says so.
   */
  datatype Accumulator = Accumulator(pos: int, err: int)

  function Next(f: Fields, s: Accumulator): Accumulator {
    var down := (s.err + f.under) % 0x1000;
    if down <= s.err then Accumulator(s.pos + f.quotient, down)
    else Accumulator(s.pos + f.quotient + 1, s.err + f.over)
  }

  function After(f: Fields, width: nat, n: nat): Accumulator {
    if n == 0 then Accumulator(0, width - 1) else Next(f, After(f, width, n - 1))
  }

  lemma NextIsExact(width: nat, a: nat, x: nat, s: Accumulator)
    requires a < width < 0x1000
    requires s == Accumulator(x / width, width - 1 - x % width)
    ensures Next(ScalerFields(width, a), s)
      == Accumulator((x + a * 0x100) / width, width - 1 - (x + a * 0x100) % width)
  {
    hide ScalerFields;
    ExactFields(width, a);
    var q, r := a * 0x100 / width, a * 0x100 % width;
    var y, c := x / width, x % width;
    assert x + a * 0x100 == (y + q) * width + (c + r);
    DownIs(s.err, r);
    if c + r < width {
      ModUnique(x + a * 0x100, width, y + q, c + r);
    } else {
      assert (y + q + 1) * width == (y + q) * width + width;
      ModUnique(x + a * 0x100, width, y + q + 1, c + r - width);
    }
  }

  lemma DownIs(err: int, r: int)
    requires 0 <= err < 0x1000 && 0 <= r < 0x1000
    ensures (err + (-r) % 0x1000) % 0x1000 == if r <= err then err - r else err - r + 0x1000
  {}

  /** After any number of steps the position is exactly 256 a n / width, rounded down. */
  lemma {:induction false} NoDrift(width: nat, a: nat, n: nat)
    requires a < width < 0x1000
    ensures After(ScalerFields(width, a), width, n)
      == Accumulator(n * (a * 0x100) / width, width - 1 - n * (a * 0x100) % width)
  {
    hide ScalerFields, Next;
    if n > 0 {
      NoDrift(width, a, n - 1);
      assert n * (a * 0x100) == (n - 1) * (a * 0x100) + a * 0x100;
      NextIsExact(width, a, (n - 1) * (a * 0x100), After(ScalerFields(width, a), width, n - 1));
    }
  }
}
