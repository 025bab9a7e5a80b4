/** Single-bit register writes, as lists: what the GPIO and I2C routines do to the card is such a
    list, and what a line ends up as is the last value assigned to it. */
module Lines {
  import opened Bits
  import opened Registers
  import opened Writes

  const DIR: nat := 0x10194    // 1: the pin is driven
  const OUT: nat := 0x10198    // what a driven pin is driven to
  const INPUT: nat := 0x1019c  // what the pin reads as

  /** tl880_write_regbits(reg, bit, bit, value). */
  datatype Assign = Assign(reg: nat, bit: bv32, value: bv32) {
    predicate Proper() { reg % 4 == 0 && reg < SPACE && bit < 32 }

    predicate To(r: nat, k: bv32) { reg == r && bit == k }
  }

  predicate AllProper(list: seq<Assign>) {
    forall i :: 0 <= i < |list| ==> list[i].Proper()
  }

  predicate LowBit(value: bv32) {
    value & 1 != 0
  }

  function Apply(w: seq<bv32>, a: Assign): (r: seq<bv32>)
    requires |w| == SPACE / 4 && a.Proper()
    ensures |r| == |w|
  {
    w[a.reg / 4 := SetBits(w[a.reg / 4], a.bit, a.bit, a.value)]
  }

  function ApplyAll(w: seq<bv32>, list: seq<Assign>): (r: seq<bv32>)
    requires |w| == SPACE / 4 && AllProper(list)
    ensures |r| == |w|
    decreases |list|
  {
    if list == [] then w else ApplyAll(Apply(w, list[0]), list[1..])
  }

  /** The register write that reaches the card for one assignment. */
  function Written(w: seq<bv32>, a: Assign): RegWrite
    requires |w| == SPACE / 4 && a.Proper()
  {
    RegWrite(a.reg, Apply(w, a)[a.reg / 4])
  }

  /** And for a list of them, in order. */
  function Traced(w: seq<bv32>, list: seq<Assign>): (t: seq<RegWrite>)
    requires |w| == SPACE / 4 && AllProper(list)
    ensures |t| == |list|
    decreases |list|
  {
    if list == [] then [] else [Written(w, list[0])] + Traced(Apply(w, list[0]), list[1..])
  }

  predicate IsSet(w: seq<bv32>, reg: nat, bit: bv32)
    requires |w| == SPACE / 4 && reg < SPACE && bit < 32
  {
    GetBits(w[reg / 4], bit, bit) != 0
  }

  /** The last value a list assigns to a bit, or what it was. */
  function Last(list: seq<Assign>, reg: nat, bit: bv32, was: bool): bool
    decreases |list|
  {
    if list == [] then was
    else Last(list[1..], reg, bit, if list[0].To(reg, bit) then LowBit(list[0].value) else was)
  }

  lemma LowIsOneBit(value: bv32)
    ensures Under(value, Ones(1)) != 0 <==> LowBit(value)
  {}

  /** One assignment sets its own bit and no other. */
  lemma {:induction false} BitAfterOne(w: seq<bv32>, a: Assign, reg: nat, bit: bv32)
    requires |w| == SPACE / 4 && a.Proper() && reg % 4 == 0 && reg < SPACE && bit < 32
    ensures IsSet(Apply(w, a), reg, bit) == if a.To(reg, bit) then LowBit(a.value) else IsSet(w, reg, bit)
  {
    hide SetBits, GetBits, Ones, Under, LowBit;
    if a.reg == reg {
      var v := w[reg / 4];
      if a.bit == bit {
        FieldReadsBack(v, bit, bit, a.value);
        LowIsOneBit(a.value);
      } else {
        FieldsApart(v, a.bit, a.bit, a.value, bit, bit);
      }
    }
  }

  /** After a list of assignments each bit holds the last value assigned to it. */
  lemma {:induction false} BitAfter(w: seq<bv32>, list: seq<Assign>, reg: nat, bit: bv32)
    requires |w| == SPACE / 4 && AllProper(list) && reg % 4 == 0 && reg < SPACE && bit < 32
    ensures IsSet(ApplyAll(w, list), reg, bit) == Last(list, reg, bit, IsSet(w, reg, bit))
    decreases |list|
  {
    hide IsSet, Apply, LowBit;
    if list != [] {
      BitAfterOne(w, list[0], reg, bit);
      BitAfter(Apply(w, list[0]), list[1..], reg, bit);
    }
  }

  lemma {:induction false} LastOfBoth(a: seq<Assign>, b: seq<Assign>, reg: nat, bit: bv32, was: bool)
    ensures Last(a + b, reg, bit, was) == Last(b, reg, bit, Last(a, reg, bit, was))
    decreases |a|
  {
    if a == [] {
      assert a + b == b;
    } else {
      var first := if a[0].To(reg, bit) then LowBit(a[0].value) else was;
      LastOfBoth(a[1..], b, reg, bit, first);
      assert (a + b)[1..] == a[1..] + b;
    }
  }

  lemma {:induction false} Untouched(list: seq<Assign>, reg: nat, bit: bv32, was: bool)
    requires forall i :: 0 <= i < |list| ==> !list[i].To(reg, bit)
    ensures Last(list, reg, bit, was) == was
    decreases |list|
  {
    if list != [] { Untouched(list[1..], reg, bit, was); }
  }

  lemma LastOfTwo(a: Assign, b: Assign, reg: nat, bit: bv32, was: bool)
    ensures Last([a], reg, bit, was) == if a.To(reg, bit) then LowBit(a.value) else was
    ensures Last([a, b], reg, bit, was) ==
            if b.To(reg, bit) then LowBit(b.value) else if a.To(reg, bit) then LowBit(a.value) else was
  {
    hide LowBit;
    assert [a, b][1..] == [b] && [b][1..] == [] && [a][1..] == [];
    var first := if a.To(reg, bit) then LowBit(a.value) else was;
    assert Last([a, b], reg, bit, was) == Last([b], reg, bit, first);
    assert Last([b], reg, bit, first) == if b.To(reg, bit) then LowBit(b.value) else first;
  }

  lemma LastOfThree(a: Assign, b: Assign, c: Assign, reg: nat, bit: bv32, was: bool)
    ensures Last([a, b, c], reg, bit, was) ==
            if c.To(reg, bit) then LowBit(c.value)
            else if b.To(reg, bit) then LowBit(b.value)
            else if a.To(reg, bit) then LowBit(a.value) else was
  {
    hide LowBit;
    var first := if a.To(reg, bit) then LowBit(a.value) else was;
    assert [a, b, c][1..] == [b, c];
    assert Last([a, b, c], reg, bit, was) == Last([b, c], reg, bit, first);
    LastOfTwo(b, c, reg, bit, first);
  }

  /** What the list leaves after its first k writes is what the card sees after the first k writes of
      the trace: nothing happens in between. */
  lemma {:induction false} SeenOnTheWay(w: seq<bv32>, list: seq<Assign>, k: nat)
    requires |w| == SPACE / 4 && AllProper(list) && k <= |list|
    ensures Reaches(Traced(w, list)) && Applied(w, Traced(w, list)[..k]) == ApplyAll(w, list[..k])
    decreases |list|
  {
    hide Apply, Written, Applied;
    if list == [] {
      NothingApplied(w);
    } else {
      var v, first, rest := Apply(w, list[0]), Written(w, list[0]), list[1..];
      var t := Traced(v, rest);
      WrittenIs(w, list[0]);
      SeenOnTheWay(v, rest, if k == 0 then 0 else k - 1);
      assert Traced(w, list) == [first] + t;
      if k == 0 {
        NothingApplied(w);
      } else {
        AppliedFirst(w, first, t[..k - 1]);
        assert ([first] + t)[..k] == [first] + t[..k - 1];
        assert list[..k][1..] == rest[..k - 1];
      }
    }
  }

  lemma WrittenIs(w: seq<bv32>, a: Assign)
    requires |w| == SPACE / 4 && a.Proper()
    ensures Written(w, a).reg == a.reg && Apply(w, a) == w[a.reg / 4 := Written(w, a).value]
  {}

  lemma NothingApplied(w: seq<bv32>)
    requires |w| == SPACE / 4
    ensures Applied(w, []) == w
  {}

  /** ApplyAll and Traced for the short lists the routines perform. */
  lemma Unroll(w: seq<bv32>, list: seq<Assign>)
    requires |w| == SPACE / 4 && AllProper(list) && |list| <= 3
    ensures |list| == 0 ==> ApplyAll(w, list) == w && Traced(w, list) == []
    ensures |list| == 1 ==> ApplyAll(w, list) == Apply(w, list[0]) && Traced(w, list) == [Written(w, list[0])]
    ensures |list| == 2 ==>
              var v := Apply(w, list[0]);
              && ApplyAll(w, list) == Apply(v, list[1])
              && Traced(w, list) == [Written(w, list[0])] + [Written(v, list[1])]
    ensures |list| == 3 ==>
              var v := Apply(w, list[0]);
              var u := Apply(v, list[1]);
              && ApplyAll(w, list) == Apply(u, list[2])
              && Traced(w, list) == [Written(w, list[0])] + [Written(v, list[1])] + [Written(u, list[2])]
  {
    hide Apply, Written;
    if |list| >= 1 {
      var v := Apply(w, list[0]);
      assert ApplyAll(w, list) == ApplyAll(v, list[1..]);
      assert Traced(w, list) == [Written(w, list[0])] + Traced(v, list[1..]);
      if |list| >= 2 {
        var u := Apply(v, list[1]);
        assert ApplyAll(v, list[1..]) == ApplyAll(u, list[1..][1..]);
        assert Traced(v, list[1..]) == [Written(v, list[1])] + Traced(u, list[1..][1..]);
        if |list| == 3 {
          assert ApplyAll(u, list[1..][1..]) == ApplyAll(Apply(u, list[2]), list[1..][1..][1..]);
          assert Traced(u, list[1..][1..]) == [Written(u, list[2])];
        }
      }
    }
  }

  lemma {:induction false} ApplyBoth(w: seq<bv32>, a: seq<Assign>, b: seq<Assign>)
    requires |w| == SPACE / 4 && AllProper(a) && AllProper(b)
    ensures AllProper(a + b) && ApplyAll(w, a + b) == ApplyAll(ApplyAll(w, a), b)
    ensures Traced(w, a + b) == Traced(w, a) + Traced(ApplyAll(w, a), b)
    decreases |a|
  {
    hide Apply, Written;
    if a == [] {
      assert a + b == b;
    } else {
      var v := Apply(w, a[0]);
      ApplyBoth(v, a[1..], b);
      var all := a + b;
      assert all[1..] == a[1..] + b;
      assert Traced(w, all) == [Written(w, a[0])] + Traced(v, all[1..]);
      assert ApplyAll(w, a) == ApplyAll(v, a[1..]);
    }
  }

  /** The card a board driver talks to. */
  class Pins {
    const regs: RegisterFile

    constructor (regs: RegisterFile)
      ensures this.regs == regs
    {
      this.regs := regs;
    }

    method Put(reg: nat, bit: bv32, value: bv32)
      requires regs.Valid() && Assign(reg, bit, value).Proper()
      modifies regs.words, regs`trace
      ensures regs.words[..] == Apply(old(regs.words[..]), Assign(reg, bit, value))
      ensures regs.trace == old(regs.trace) + [Written(old(regs.words[..]), Assign(reg, bit, value))]
    {
      regs.WriteBits(reg, bit, bit, value);
    }

    /** One bit, then another. */
    method PutBoth(a: Assign, b: Assign)
      requires regs.Valid() && a.Proper() && b.Proper()
      modifies regs.words, regs`trace
      ensures AllProper([a, b])
      ensures regs.words[..] == ApplyAll(old(regs.words[..]), [a, b])
      ensures regs.trace == old(regs.trace) + Traced(old(regs.words[..]), [a, b])
    {
      hide Apply, Written, ApplyAll, Traced;
      assert AllProper([a, b]);
      Unroll(regs.words[..], [a, b]);
      Put(a.reg, a.bit, a.value);
      Put(b.reg, b.bit, b.value);
    }
  }
}
