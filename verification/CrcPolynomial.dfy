/** The decoder model's register is the remainder of a polynomial division over two elements. */
module CrcPolynomial {
  import opened Crc
  import opened CrcLaws

  // ---------- polynomials, by their coefficients ----------

  /** The coefficient of x^k in a message, its first bit leading. */
  predicate Coefficient(m: seq<bool>, k: int) {
    0 <= k < |m| && m[|m| - 1 - k]
  }

  predicate RegBit(r: bv32, k: int) {
    0 <= k < 32 && Msb(Rest(r, 31 - k))
  }

  /** x^32 + POLY. */
  predicate Generator(k: int) {
    k == 32 || RegBit(POLY, k)
  }

  /** The coefficient of x^k in the product of q and the generator. */
  predicate Times(q: seq<bool>, k: int)
    decreases |q|
  {
    q != [] && (Times(q[..|q| - 1], k - 1) != (q[|q| - 1] && Generator(k)))
  }

  /** m x^32 is q times the generator plus r, and r has degree below 32. */
  ghost predicate Divides(m: seq<bool>, q: seq<bool>, r: bv32) {
    |q| == |m| && forall k: int :: Coefficient(m, k - 32) == (Times(q, k) != RegBit(r, k))
  }

  // ---------- the generator ----------

  /** The four leading bits of a register, and what is left behind them. */
  lemma FourOut(r: bv32)
    ensures Rest(r, 4) == r << 4
    ensures Msb(Rest(r, 0)) == (r & 0x80000000 != 0) && Msb(Rest(r, 1)) == (r & 0x40000000 != 0)
    ensures Msb(Rest(r, 2)) == (r & 0x20000000 != 0) && Msb(Rest(r, 3)) == (r & 0x10000000 != 0)
  {
    var a := Shift(r);
    var b := Shift(a);
    var c := Shift(b);
    assert Rest(r, 1) == Rest(a, 0) == a;
    assert Rest(r, 2) == Rest(a, 1) == Rest(b, 0) == b;
    assert Rest(r, 3) == Rest(a, 2) == Rest(b, 1) == Rest(c, 0) == c;
    assert Rest(r, 4) == Rest(a, 3) == Rest(b, 2) == Rest(c, 1) == Rest(Shift(c), 0);
  }

  /** POLY moved up by whole hexadecimal digits. */
  function Digit(j: nat): bv32
    requires j < 8
  {
    match j
    case 0 => 0x04c11db7 case 1 => 0x4c11db70 case 2 => 0xc11db700 case 3 => 0x11db7000
    case 4 => 0x1db70000 case 5 => 0xdb700000 case 6 => 0xb7000000 case 7 => 0x70000000
  }

  lemma {:induction false} DigitsOut(j: nat)
    requires j < 8
    ensures Rest(POLY, 4 * j) == Digit(j)
  {
    hide Rest;
    if j == 0 {
      RestUnrolls(POLY, 0);
    } else {
      DigitsOut(j - 1);
      RestAdds(POLY, 4 * (j - 1), 4);
      FourOut(Digit(j - 1));
      DigitStep(j);
    }
  }

  lemma DigitStep(j: nat)
    requires 0 < j < 8
    ensures Digit(j) == Digit(j - 1) << 4
  {}

  /** The terms of the generator polynomial, those of ISO/IEC 13818-1, Annex A. */
  lemma GeneratorTerms(k: int)
    ensures Generator(k) <==> k in {32, 26, 23, 22, 16, 12, 11, 10, 8, 7, 5, 4, 2, 1, 0}
  {
    hide Rest, Msb;
    if 0 <= k < 32 {
      var n := 31 - k;
      DigitsOut(n / 4);
      RestAdds(POLY, 4 * (n / 4), n % 4);
      FourOut(Digit(n / 4));
    }
  }

  // ---------- the register divides ----------

  lemma {:induction false} RestLinear(x: bv32, y: bv32, n: nat)
    ensures Rest(Mix(x, y), n) == Mix(Rest(x, n), Rest(y, n))
    decreases n
  {
    hide Mix, Shift, Msb;
    if n > 0 {
      ShiftLinear(x, y);
      RestLinear(Shift(x), Shift(y), n - 1);
    }
  }

  lemma RegBitLinear(x: bv32, y: bv32, k: int)
    ensures RegBit(Mix(x, y), k) == (RegBit(x, k) != RegBit(y, k))
  {
    hide Mix, Shift, Msb, Rest;
    if 0 <= k < 32 {
      RestLinear(x, y, 31 - k);
      ShiftLinear(Rest(x, 31 - k), Rest(y, 31 - k));
    }
  }

  lemma RegBitOfZero(k: int)
    ensures !RegBit(0, k)
  {
    if 0 <= k < 32 { RestOfNothing(31 - k); }
  }

  lemma RegBitOfShift(r: bv32, k: int)
    ensures RegBit(Shift(r), k) == (k < 32 && RegBit(r, k - 1))
  {
    hide Shift, Msb, Rest;
    if 0 <= k < 32 {
      RestUnrolls(r, 32 - k);
      if k == 0 {
        AllOut(r);
        RegBitOfZero(31);
        RestUnrolls(0, 0);
      }
    }
  }

  lemma RestUnrolls(r: bv32, n: nat)
    ensures Rest(r, 0) == r && (n > 0 ==> Rest(r, n) == Rest(Shift(r), n - 1))
  {
    hide Shift;
  }

  lemma RegBitOfStep(r: bv32, b: bool, k: int)
    ensures RegBit(Step(r, b), k) == ((k < 32 && RegBit(r, k - 1)) != (Msb(r) != b && RegBit(POLY, k)))
  {
    hide Shift, Msb, Rest, RegBit, Mix;
    RegBitLinear(Shift(r), Feed(Msb(r) != b), k);
    RegBitOfShift(r, k);
    RegBitOfZero(k);
  }

  /** The feedback bits. */
  function Quotient(m: seq<bool>): (q: seq<bool>)
    ensures |q| == |m|
    decreases |m|
  {
    if m == [] then []
    else
      var n := |m| - 1;
      Quotient(m[..n]) + [Msb(Serial(0, m[..n])) != m[n]]
  }

  lemma TopRegBit(r: bv32)
    ensures RegBit(r, 31) == Msb(r)
  {
    hide Msb, Shift;
  }

  /** One more message bit: one more quotient bit, and the next register. */
  lemma DivisionStep(m: seq<bool>, q: seq<bool>, r: bv32, b: bool, k: int)
    requires Divides(m, q, r)
    ensures Coefficient(m + [b], k - 32) == (Times(q + [Msb(r) != b], k) != RegBit(Step(r, b), k))
  {
    hide Msb, Step, RegBit;
    var f := Msb(r) != b;
    assert (q + [f])[..|q|] == q;
    RegBitOfStep(r, b, k);
    TopRegBit(r);
    RegBitRange(r, k - 1);
    RegBitRange(POLY, k);
    assert Coefficient(m, (k - 1) - 32) == (Times(q, k - 1) != RegBit(r, k - 1));
  }

  lemma RegBitRange(r: bv32, k: int)
    ensures RegBit(r, k) ==> 0 <= k < 32
  {}

  lemma {:induction false} RegisterDivides(m: seq<bool>)
    ensures Divides(m, Quotient(m), Serial(0, m))
    decreases |m|
  {
    hide Serial, Step, Msb, RegBit, Times, Coefficient;
    if m == [] {
      EmptyDivides();
    } else {
      var n := |m| - 1;
      var rest, b := m[..n], m[n];
      RegisterDivides(rest);
      assert rest + [b] == m;
      SerialOne(0, rest, b);
      forall k: int
        ensures Coefficient(m, k - 32) == (Times(Quotient(m), k) != RegBit(Serial(0, m), k))
      {
        DivisionStep(rest, Quotient(rest), Serial(0, rest), b, k);
      }
    }
  }

  lemma EmptyDivides()
    ensures Divides([], [], Serial(0, []))
  {
    hide RegBit;
    forall k: int ensures Coefficient([], k - 32) == (Times([], k) != RegBit(Serial(0, []), k)) {
      RegBitOfZero(k);
    }
  }

  // ---------- and nothing else does ----------

  lemma {:induction false} TimesLinear(a: seq<bool>, b: seq<bool>, k: int)
    requires |a| == |b|
    ensures Times(Xor(a, b), k) == (Times(a, k) != Times(b, k))
    decreases |a|
  {
    hide Generator;
    if a != [] {
      var n := |a| - 1;
      assert Xor(a, b)[..n] == Xor(a[..n], b[..n]);
      TimesLinear(a[..n], b[..n], k - 1);
    }
  }

  lemma {:induction false} TimesOfZeros(n: nat, k: int)
    ensures !Times(Zeros(n), k)
  {
    hide Generator;
    if n > 0 {
      assert Zeros(n)[..n - 1] == Zeros(n - 1);
      TimesOfZeros(n - 1, k - 1);
    }
  }

  /** The generator is monic: the first set bit of d shows in the product, at x^32 or above. */
  lemma {:induction false} LeadingBitShows(d: seq<bool>, i: nat)
    requires i < |d| && d[..i] == Zeros(i)
    ensures Times(d, 31 + |d| - i) == d[i]
    decreases |d|
  {
    hide Generator;
    var n := |d| - 1;
    GeneratorHigh(31 + |d| - i);
    if i == n {
      TimesOfZeros(n, 31);
    } else {
      assert d[..n][..i] == d[..i];
      LeadingBitShows(d[..n], i);
    }
  }

  lemma GeneratorHigh(k: int)
    requires k >= 32
    ensures Generator(k) <==> k == 32
  {}

  lemma {:induction false} NoHighTermsNoBits(d: seq<bool>, i: nat)
    requires i <= |d| && forall k: int :: k >= 32 ==> !Times(d, k)
    ensures d[..i] == Zeros(i)
  {
    hide Times;
    if i > 0 {
      NoHighTermsNoBits(d, i - 1);
      LeadingBitShows(d, i - 1);
      assert d[..i] == d[..i - 1] + [d[i - 1]];
    }
  }

  lemma BitsTellWordsApart(x: bv32, y: bv32)
    requires forall k: int :: RegBit(x, k) == RegBit(y, k)
    ensures x == y
  {
    hide Serial, Mix, Msb, Rest, Top;
    forall j: nat | j < 32 ensures !Top(Mix(x, y), 32)[j] {
      TopAt(Mix(x, y), 32, j);
      RegBitLinear(x, y, 31 - j);
      assert RegBit(x, 31 - j) == RegBit(y, 31 - j);
    }
    var z := Mix(x, y);
    assert Top(z, 32) == Zeros(32);
    SerialOwn(z, 32);
    AllOut(z);
    RestOfNothing(32);
    SerialOwn(0, 32);
    SerialForgetsNothing(z, 0, Zeros(32));
    MixZero(y);
    MixCancels(x, y, y);
  }

  lemma {:induction false} TopAt(r: bv32, n: nat, j: nat)
    requires j < n
    ensures Top(r, n)[j] == Msb(Rest(r, j))
    decreases n
  {
    hide Msb, Shift;
    if j > 0 { TopAt(Shift(r), n - 1, j - 1); }
  }

  lemma RemainderIsUnique(m: seq<bool>, q: seq<bool>, r: bv32, q': seq<bool>, r': bv32)
    requires Divides(m, q, r) && Divides(m, q', r')
    ensures q == q' && r == r'
  {
    hide RegBit, Times, Coefficient, Xor;
    var d := Xor(q, q');
    forall k: int | k >= 32 ensures !Times(d, k) {
      TimesLinear(q, q', k);
      RegBitRange(r, k);
      RegBitRange(r', k);
      assert Coefficient(m, k - 32) == (Times(q, k) != RegBit(r, k));
      assert Coefficient(m, k - 32) == (Times(q', k) != RegBit(r', k));
    }
    NoHighTermsNoBits(d, |d|);
    SameWhenXorIsZero(q, q');
    forall k: int ensures RegBit(r, k) == RegBit(r', k) {
      assert Coefficient(m, k - 32) == (Times(q, k) != RegBit(r, k));
      assert Coefficient(m, k - 32) == (Times(q', k) != RegBit(r', k));
    }
    BitsTellWordsApart(r, r');
  }

  lemma SameWhenXorIsZero(a: seq<bool>, b: seq<bool>)
    requires |a| == |b| && Xor(a, b)[..|a|] == Zeros(|a|)
    ensures a == b
  {
    forall i | 0 <= i < |a| ensures a[i] == b[i] {
      assert !Xor(a, b)[..|a|][i];
    }
  }

  /** The CRC of a message, from a clear register, is the remainder of m x^32 by the generator. */
  lemma CrcIsTheRemainder(m: seq<bool>, r: bv32)
    ensures r == Serial(0, m) <==> exists q :: Divides(m, q, r)
  {
    hide Serial, Divides;
    RegisterDivides(m);
    if q :| Divides(m, q, r) {
      RemainderIsUnique(m, q, r, Quotient(m), Serial(0, m));
    }
  }
}
