/** 32-bit words and the numbers they stand for. */
module Cast {

  const LIMIT: nat := 0x1_0000_0000

  function ToWord(n: nat): bv32
    requires n < LIMIT
  {
    n as bv32
  }

  function FromWord(w: bv32): (n: nat)
    ensures n < LIMIT
  {
    w as nat
  }

  lemma WordReadsBack(w: bv32)
    ensures ToWord(FromWord(w)) == w
  {}

  function Twice(w: bv32, odd: bool): bv32 {
    if odd then (w << 1) | 1 else w << 1
  }

  /** The word of n, built from n's binary digits. */
  function Digits(n: nat): bv32 {
    if n == 0 then 0 else Twice(Digits(n / 2), n % 2 == 1)
  }

  lemma TopBitClear(w: bv32)
    requires FromWord(w) < 0x80000000
    ensures w < 0x80000000
  {}

  lemma ShiftDoubles(w: bv32)
    requires w < 0x80000000
    ensures (w << 1) as nat == 2 * (w as nat) && ((w << 1) | 1) as nat == 2 * (w as nat) + 1
  {}

  lemma TwiceDoubles(w: bv32, odd: bool)
    requires FromWord(w) < 0x80000000
    ensures FromWord(Twice(w, odd)) == 2 * FromWord(w) + if odd then 1 else 0
  {
    TopBitClear(w);
    ShiftDoubles(w);
  }

  lemma {:induction false} DigitsStandFor(n: nat)
    requires n < LIMIT
    ensures FromWord(Digits(n)) == n
  {
    hide FromWord, Twice;
    if n == 0 {
      ZeroIsZero();
    } else {
      DigitsStandFor(n / 2);
      TwiceDoubles(Digits(n / 2), n % 2 == 1);
    }
  }

  lemma ZeroIsZero()
    ensures FromWord(0) == 0
  {}

  lemma NumberReadsBack(n: nat)
    requires n < LIMIT
    ensures FromWord(ToWord(n)) == n
  {
    hide Digits, FromWord, ToWord;
    DigitsStandFor(n);
    WordReadsBack(Digits(n));
  }

  lemma WordsDiffer(a: bv32, b: bv32)
    ensures a == b <==> FromWord(a) == FromWord(b)
  {
    WordReadsBack(a);
    WordReadsBack(b);
  }

  // ---------- sums and halves ----------

  function Plus(a: bv32, b: bv32): bv32 { a + b }

  function Half(w: bv32): bv32 { w >> 1 }

  lemma BelowTop(w: bv32)
    requires w < 0x80000000
    ensures FromWord(w) < 0x80000000
  {
    ShiftDoubles(w);
  }

  lemma HalfAndLast(w: bv32)
    ensures w == Twice(Half(w), w & 1 == 1) && Half(w) < 0x80000000
  {}

  lemma HalfOfWord(w: bv32)
    ensures FromWord(w) == 2 * FromWord(Half(w)) + if w & 1 == 1 then 1 else 0
    ensures FromWord(Half(w)) == FromWord(w) / 2
  {
    hide FromWord, Twice, Half;
    HalfAndLast(w);
    BelowTop(Half(w));
    TwiceDoubles(Half(w), w & 1 == 1);
  }

  function Next(w: bv32): bv32 { w + 1 }

  lemma NextOfEven(h: bv32)
    ensures Next(Twice(h, false)) == Twice(h, true)
  {}

  lemma NextOfOdd(h: bv32)
    ensures Next(Twice(h, true)) == Twice(Next(h), false)
  {}

  lemma {:induction false} NextOfWord(w: bv32)
    requires FromWord(w) + 1 < LIMIT
    ensures FromWord(Next(w)) == FromWord(w) + 1
    decreases FromWord(w)
  {
    hide FromWord, Twice, Half, Next;
    var h := Half(w);
    HalfAndLast(w);
    HalfOfWord(w);
    if w & 1 == 1 {
      NextOfOdd(h);
      NextOfWord(h);
      TwiceDoubles(Next(h), false);
    } else {
      NextOfEven(h);
      TwiceDoubles(h, true);
    }
  }

  lemma Sums(a: bv32, t: bv32)
    ensures Plus(a, t) == a + t && Next(t) == t + 1 && Next(a + t) == (a + t) + 1
    ensures Plus(a, t + 1) == (a + t) + 1
  {}

  lemma PlusNext(a: bv32, t: bv32)
    ensures Plus(a, Next(t)) == Next(Plus(a, t))
  {
    hide Plus, Next;
    Sums(a, t);
  }

  lemma PlusZero(a: bv32)
    ensures Plus(a, 0) == a && FromWord(0) == 0
  {}

  lemma {:induction false} SumOfWords(a: bv32, n: nat)
    requires FromWord(a) + n < LIMIT
    ensures FromWord(Plus(a, ToWord(n))) == FromWord(a) + n
    decreases n
  {
    hide FromWord, ToWord, Plus, Next;
    if n == 0 {
      PlusZero(a);
      NumberReadsBack(0);
      WordsDiffer(ToWord(0), 0);
    } else {
      var t := ToWord(n - 1);
      SumOfWords(a, n - 1);
      PlusNext(a, t);
      NextOfWord(Plus(a, t));
      NumberReadsBack(n - 1);
      NumberReadsBack(n);
      NextOfWord(t);
      WordsDiffer(Next(t), ToWord(n));
    }
  }
}
