/** A series of register writes, and what the register window holds after it. */
module Writes {
  import opened Registers

  predicate Reaches(writes: seq<RegWrite>) {
    forall i :: 0 <= i < |writes| ==> writes[i].reg < SPACE && writes[i].reg % 4 == 0
  }

  /** The register window after some writes, in order. */
  function Applied(words: seq<bv32>, writes: seq<RegWrite>): (r: seq<bv32>)
    requires |words| == SPACE / 4 && Reaches(writes)
    ensures |r| == |words|
  {
    if writes == [] then words
    else
      var n := |writes| - 1;
      Applied(words, writes[..n])[writes[n].reg / 4 := writes[n].value]
  }

  ghost predicate Sent(regs: RegisterFile, before: seq<bv32>, past: seq<RegWrite>, sent: seq<RegWrite>)
    reads regs, regs.words
  {
    && regs.Valid() && |before| == SPACE / 4 && Reaches(sent)
    && regs.words[..] == Applied(before, sent) && regs.trace == past + sent
  }

  lemma NothingSent(regs: RegisterFile)
    requires regs.Valid()
    ensures Sent(regs, regs.words[..], regs.trace, [])
  {}

  lemma AppliedNext(words: seq<bv32>, writes: seq<RegWrite>, w: RegWrite)
    requires |words| == SPACE / 4 && Reaches(writes) && w.reg < SPACE && w.reg % 4 == 0
    ensures Reaches(writes + [w]) && Applied(words, writes + [w]) == Applied(words, writes)[w.reg / 4 := w.value]
  {
    assert (writes + [w])[..|writes|] == writes;
  }

  lemma {:induction false} AppliedFirst(words: seq<bv32>, w: RegWrite, writes: seq<RegWrite>)
    requires |words| == SPACE / 4 && w.reg < SPACE && w.reg % 4 == 0 && Reaches(writes)
    ensures Reaches([w] + writes)
    ensures Applied(words, [w] + writes) == Applied(words[w.reg / 4 := w.value], writes)
  {
    var all := [w] + writes;
    if writes == [] {
      assert all == [w] && all[..0] == [];
    } else {
      var n := |writes| - 1;
      AppliedFirst(words, w, writes[..n]);
      assert all[..|all| - 1] == [w] + writes[..n];
    }
  }

  method Send(regs: RegisterFile, reg: nat, value: bv32,
              ghost before: seq<bv32>, ghost past: seq<RegWrite>, ghost sent: seq<RegWrite>)
    returns (ghost next: seq<RegWrite>)
    requires Sent(regs, before, past, sent) && reg < SPACE && reg % 4 == 0
    modifies regs.words, regs`trace
    ensures next == sent + [RegWrite(reg, value)] && Sent(regs, before, past, next)
  {
    hide Applied, Reaches;
    next := sent + [RegWrite(reg, value)];
    AppliedNext(before, sent, RegWrite(reg, value));
    regs.Write(reg, value);
  }

  // ---------- laws ----------

  /** A register holds the last value written to it, and keeps its own when none was. */
  lemma {:induction false} LastWriteHolds(words: seq<bv32>, writes: seq<RegWrite>, i: nat)
    requires |words| == SPACE / 4 && Reaches(writes) && i < |writes|
    requires forall j :: i < j < |writes| ==> writes[j].reg != writes[i].reg
    ensures Applied(words, writes)[writes[i].reg / 4] == writes[i].value
  {
    var n := |writes| - 1;
    if i < n {
      LastWriteHolds(words, writes[..n], i);
      assert writes[n].reg != writes[i].reg;
    }
  }

  lemma {:induction false} UnwrittenStays(words: seq<bv32>, writes: seq<RegWrite>, reg: nat)
    requires |words| == SPACE / 4 && Reaches(writes) && reg < SPACE && reg % 4 == 0
    requires forall j :: 0 <= j < |writes| ==> writes[j].reg != reg
    ensures Applied(words, writes)[reg / 4] == words[reg / 4]
  {
    var n := |writes| - 1;
    if writes != [] {
      UnwrittenStays(words, writes[..n], reg);
      assert writes[n].reg != reg;
    }
  }
}
