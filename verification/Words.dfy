/** Arithmetic of machine words, on natural numbers. */
module Words {

  function Pow2(k: nat): (r: nat)
    ensures r > 0
  {
    if k == 0 then 1 else 2 * Pow2(k - 1)
  }

  /** Bitwise and. */
  function And(x: nat, y: nat): (r: nat)
    ensures r <= x && r <= y
  {
    if x == 0 || y == 0 then 0 else 2 * And(x / 2, y / 2) + (x % 2) * (y % 2)
  }

  /** Bitwise or: the bits of both, those in common counted once. */
  function Or(x: nat, y: nat): nat {
    x + y - And(x, y)
  }

  function BothOdd(x: nat, y: nat): nat {
    if x % 2 == 1 && y % 2 == 1 then 1 else 0
  }

  lemma AndStep(x: nat, y: nat)
    ensures And(x, y) == 2 * And(x / 2, y / 2) + BothOdd(x, y)
  {
    if x != 0 && y != 0 { LastBits(x % 2, y % 2); }
  }

  lemma LastBits(b: nat, c: nat)
    requires b < 2 && c < 2
    ensures b * c == if b == 1 && c == 1 then 1 else 0
  {}

  lemma Halves(h: nat, d: nat)
    requires d < 2
    ensures (2 * h + d) / 2 == h && (2 * h + d) % 2 == d
  {}

  lemma AndOfZero(m: nat)
    ensures And(0, m) == 0 && And(m, 0) == 0
  {}

  lemma {:induction false} AndLowMask(x: nat, k: nat)
    ensures And(x, Pow2(k) - 1) == x % Pow2(k)
  {
    hide And;
    if k == 0 {
      AndOfZero(x);
    } else {
      var p := Pow2(k - 1);
      AndLowMask(x / 2, k - 1);
      Halves(p - 1, 1);
      AndStep(x, 2 * (p - 1) + 1);
      HalfMod(x, p);
    }
  }

  lemma HalfMod(x: nat, p: nat)
    requires p > 0
    ensures x % (2 * p) == 2 * (x / 2 % p) + x % 2
  {
    var q, r := x / 2 / p, x / 2 % p;
    assert x / 2 == q * p + r;
    assert x == q * (2 * p) + (2 * r + x % 2);
    ModUnique(x, 2 * p, q, 2 * r + x % 2);
  }

  lemma ModUnique(x: int, d: int, q: int, r: int)
    requires d > 0 && x == q * d + r && 0 <= r < d
    ensures x / d == q && x % d == r
  {
    var e := x / d - q;
    assert x == (x / d) * d + x % d;
    assert e * d == r - x % d;
    MulSign(e, d);
  }

  lemma MulSign(e: int, d: int)
    requires d > 0
    ensures e > 0 ==> e * d >= d
    ensures e < 0 ==> e * d <= -d
  {}

  /** A number whose low k bits are clear shares no bit with one below 2^k. */
  lemma {:induction false} AndApart(x: nat, y: nat, k: nat)
    requires x % Pow2(k) == 0 && y < Pow2(k)
    ensures And(x, y) == 0 && Or(x, y) == x + y
  {
    hide And;
    if k == 0 {
      AndOfZero(x);
    } else {
      HalfMod(x, Pow2(k - 1));
      AndApart(x / 2, y / 2, k - 1);
      AndStep(x, y);
    }
  }

  /** What is left without the bits of a mask has none of them. */
  lemma {:induction false} AndCleared(x: nat, m: nat)
    ensures And(x - And(x, m), m) == 0
  {
    hide And;
    AndStep(x, m);
    if x == 0 {
      AndOfZero(m);
    } else {
      AndCleared(x / 2, m / 2);
      var h, d := x / 2 - And(x / 2, m / 2), x % 2 - BothOdd(x, m);
      Halves(h, d);
      assert x - And(x, m) == 2 * h + d;
      AndStep(2 * h + d, m);
    }
  }
}
