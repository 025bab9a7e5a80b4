/** The card's register window: 32-bit words at byte addresses below 0x100000. */
module Registers {
  import opened Bits

  const SPACE: nat := 0x100000

  datatype RegWrite = RegWrite(reg: nat, value: bv32)

  class RegisterFile {
    const words: array<bv32>
    ghost var trace: seq<RegWrite>  // every write that reached the card, in order

    ghost predicate Valid() {
      words.Length == SPACE / 4
    }

    constructor ()
      ensures Valid() && fresh(words) && trace == []
    {
      words := new bv32[SPACE / 4](_ => 0);
      trace := [];
    }

    ghost function At(reg: nat): bv32
      requires Valid() && reg < SPACE
      reads words
    {
      words[reg / 4]
    }

    /** tl880_write_register; a register outside the window is ignored. */
    method Write(reg: nat, value: bv32)
      requires Valid() && reg % 4 == 0
      modifies words, `trace
      ensures reg >= 0x100000 ==> words[..] == old(words[..]) && trace == old(trace)
      ensures reg < 0x100000 ==> words[..] == old(words[..])[reg / 4 := value]
      ensures reg < 0x100000 ==> trace == old(trace) + [RegWrite(reg, value)]
    {
      if reg >= SPACE {
        return;
      }
      words[reg / 4] := value;
      trace := trace + [RegWrite(reg, value)];
    }

    /** tl880_read_register; outside the window it reads as all ones. */
    method Read(reg: nat) returns (value: bv32)
      requires Valid() && reg % 4 == 0
      ensures value == if reg < 0x100000 then At(reg) else 0xFFFFFFFF
    {
      if reg >= SPACE {
        return 0xFFFFFFFF;
      }
      return words[reg / 4];
    }

    /** tl880_read_regbits; outside the window it looks at all ones. */
    method ReadBits(reg: nat, hi: bv32, lo: bv32) returns (value: bv32)
      requires Valid() && reg % 4 == 0 && Field(hi, lo)
      ensures value == GetBits(if reg < 0x100000 then At(reg) else 0xFFFFFFFF, hi, lo)
    {
      value := Read(reg);
      value := GetBits(value, hi, lo);
    }

    /** tl880_write_regbits: read, set the field, write back; outside the window it changes nothing. */
    method WriteBits(reg: nat, hi: bv32, lo: bv32, value: bv32)
      requires Valid() && reg % 4 == 0 && Field(hi, lo)
      modifies words, `trace
      ensures reg >= 0x100000 ==> words[..] == old(words[..]) && trace == old(trace)
      ensures reg < 0x100000 ==> words[..] == old(words[..])[reg / 4 := SetBits(old(At(reg)), hi, lo, value)]
      ensures reg < 0x100000 ==> trace == old(trace) + [RegWrite(reg, SetBits(old(At(reg)), hi, lo, value))]
    {
      var curval := Read(reg);
      curval := SetBits(curval, hi, lo, value);
      Write(reg, curval);
    }
  }
}
