/** The ALSA playback device: a fixed ring of card memory and the registers that walk it. */
module Alsa {
  import opened AlsaSpec
  import opened Bits
  import opened CardMemory
  import opened Cast
  import Interrupts
  import opened Registers
  import opened Writes

  datatype Command = Start | Resume | Stop | Suspend | PausePush | PauseRelease | Other

  function Regs(f: Format): (writes: seq<RegWrite>)
    requires f.Bytes() <= MAX_BUFFER && f.size <= MAX_PERIOD
    ensures Reaches(writes)
  {
    [RegWrite(0x3020, ToWord(BASE)), RegWrite(0x3024, ToWord(BASE + f.Bytes() - 0x20)), RegWrite(0x3028, 0),
     RegWrite(0x302c, ToWord(BASE)), RegWrite(0x3030, ToWord(BASE + f.size))]
  }

  /** How a command leaves the enable bit, register 0x3004 bit 0. */
  function Running(cmd: Command, was: bv32): bv32 {
    match cmd
    case Start | Resume | PauseRelease => SetBits(was, 0, 0, 1)
    case Stop | Suspend | PausePush => SetBits(was, 0, 0, 0)
    case Other => was
  }

  /** The ring's registers once prepare has written them: buffer start and end, the register it
      clears, the hardware's position and the first interrupt position, in this order. */
  lemma SetUpLands(words: seq<bv32>, f: Format)
    requires |words| == SPACE / 4 && f.Bytes() <= MAX_BUFFER && f.size <= MAX_PERIOD
    ensures Reaches(Regs(f))
    ensures FromWord(Applied(words, Regs(f))[0x3020 / 4]) == 0x1000
    ensures FromWord(Applied(words, Regs(f))[0x3024 / 4]) == 0x1000 + f.size * f.count - 0x20
    ensures Applied(words, Regs(f))[0x3028 / 4] == 0
    ensures FromWord(Applied(words, Regs(f))[0x302c / 4]) == 0x1000
    ensures FromWord(Applied(words, Regs(f))[0x3030 / 4]) == 0x1000 + f.size
    ensures |Regs(f)| == 5 && forall i :: 0 <= i < 5 ==> Regs(f)[i].reg == 0x3020 + 4 * i
  {
    hide Applied, ToWord, FromWord;
    LastWriteHolds(words, Regs(f), 0);
    LastWriteHolds(words, Regs(f), 1);
    LastWriteHolds(words, Regs(f), 2);
    LastWriteHolds(words, Regs(f), 3);
    LastWriteHolds(words, Regs(f), 4);
    NumberReadsBack(BASE);
    NumberReadsBack(BASE + f.Bytes() - 0x20);
    NumberReadsBack(BASE + f.size);
  }

  lemma Unfolded(regs: RegisterFile, before: seq<bv32>, past: seq<RegWrite>, sent: seq<RegWrite>)
    requires Sent(regs, before, past, sent)
    ensures regs.Valid() && |before| == SPACE / 4 && Reaches(sent)
    ensures regs.words[..] == Applied(before, sent) && regs.trace == past + sent
    ensures forall reg: nat :: reg < SPACE ==> regs.At(reg) == Applied(before, sent)[reg / 4]
  {}

  /** The audio bottom half, run between two ticks on the registers prepare has set, is AudioTurn. */
  lemma AudioBottomHalf(words: seq<bv32>, f: Format, r: Ring)
    requires |words| == SPACE / 4 && 0x20 <= f.Bytes() <= MAX_BUFFER
    requires FromWord(words[0x3020 / 4]) == BASE && FromWord(words[0x3024 / 4]) == BASE + f.Bytes() - 0x20
    requires FromWord(words[0x3030 / 4]) == r.interruptPos
    ensures FromWord(Interrupts.NextTrigger(words)) == AudioTurn(f, r).interruptPos
  {
    hide FromWord, ToWord, Half, Plus;
    var trigger, start, end := words[0x3030 / 4], words[0x3020 / 4], words[0x3024 / 4];
    WordsDiffer(trigger, start);
    SumOfWords(start, FromWord(end));
    WordReadsBack(end);
    HalfOfWord(Plus(start, end));
  }

  /** The register words after a command. */
  function Triggered(words: seq<bv32>, cmd: Command): (r: seq<bv32>)
    requires |words| == SPACE / 4
    ensures |r| == |words|
  {
    var w := if cmd.Start? then words[0x302c / 4 := ToWord(BASE)] else words;
    w[0x3004 / 4 := Running(cmd, w[0x3004 / 4])]
  }

  lemma EnableMask()
    ensures Mask(0, 0) == 1 && Ones(1) == 1 && Under(1, 1) == 1 && Under(0, 1) == 0
  {}

  /** Starting, resuming and releasing a pause set the enable bit, stopping, suspending and pausing
      clear it; no other bit changes, and no other register but 0x302c, which starting rewinds. */
  lemma CommandSets(words: seq<bv32>, cmd: Command)
    requires |words| == SPACE / 4
    ensures var after := Triggered(words, cmd);
            match cmd
            case Start | Resume | PauseRelease => GetBits(after[0x3004 / 4], 0, 0) == 1
            case Stop | Suspend | PausePush => GetBits(after[0x3004 / 4], 0, 0) == 0
            case Other => after == words
    ensures Outside(Triggered(words, cmd)[0x3004 / 4], 1) == Outside(words[0x3004 / 4], 1)
    ensures cmd.Start? ==> FromWord(Triggered(words, cmd)[0x302c / 4]) == 0x1000
    ensures forall k :: 0 <= k < |words| && k != 0x3004 / 4 && !(cmd.Start? && k == 0x302c / 4) ==>
              Triggered(words, cmd)[k] == words[k]
  {
    hide SetBits, GetBits, Mask, Ones, Under, Outside, ToWord, FromWord;
    var v := words[0x3004 / 4];
    EnableMask();
    NumberReadsBack(BASE);
    FieldReadsBack(v, 0, 0, 0);
    FieldReadsBack(v, 0, 0, 1);
    SetBitsIsExact(v, 0, 0, 0);
    SetBitsIsExact(v, 0, 0, 1);
  }

  class Pcm {
    const regs: RegisterFile
    const memory: CardMemory

    var format: Format      // period_size and period_count
    var bufferPos: nat
    var bufferBase: nat
    var seen: nat           // the timer function's static lastreg302c
    var timer: bool         // armed

    constructor (regs: RegisterFile, memory: CardMemory)
      ensures this.regs == regs && this.memory == memory && bufferBase == BASE && !timer && seen == 0
    {
      this.regs, this.memory := regs, memory;
      format, bufferPos, bufferBase, seen, timer := Format(0, 0), 0, BASE, 0, false;
    }

    ghost predicate Valid()
      reads this, regs
    {
      && regs.Valid() && regs.words != memory.words
      && bufferBase == BASE && format.Allowed()
    }

    ghost function View(): Ring
      requires regs.Valid()
      reads this, regs, regs.words
    {
      Ring(FromWord(regs.At(0x3030)), bufferPos, seen)
    }

    /** snd_card_tl880_pcm_prepare. */
    method Prepare(f: Format)
      requires regs.Valid() && regs.words != memory.words && f.Allowed()
      modifies this`format, this`bufferPos, this`bufferBase, regs.words, regs`trace, memory.words
      ensures Valid() && format == f && View() == Prepared(f, seen)
      ensures FromWord(regs.At(0x3020)) == BASE && FromWord(regs.At(0x302c)) == BASE
      ensures FromWord(regs.At(0x3024)) == BASE + format.Bytes() - 0x20
      ensures regs.words[..] == Applied(old(regs.words[..]), Regs(f)) && regs.trace == old(regs.trace) + Regs(f)
      ensures memory.words[..] == Cleared(old(memory.words[..]), BASE, BASE + f.Bytes(), 0)
    {
      hide Applied, ToWord, FromWord;
      format, bufferPos, bufferBase := f, 0x1000, 0x1000;
      memory.ClearSdram(bufferBase, bufferBase + format.size * format.count, 0);
      SetUp();
    }

    method SetUp()
      requires Valid() && bufferPos == BASE
      modifies regs.words, regs`trace
      ensures View() == Prepared(format, seen)
      ensures FromWord(regs.At(0x3020)) == BASE && FromWord(regs.At(0x302c)) == BASE
      ensures FromWord(regs.At(0x3024)) == BASE + format.Bytes() - 0x20
      ensures regs.words[..] == Applied(old(regs.words[..]), Regs(format))
      ensures regs.trace == old(regs.trace) + Regs(format)
    {
      hide Sent, ToWord, Applied;
      ghost var before, past := regs.words[..], regs.trace;
      ghost var sent := [];
      NothingSent(regs);
      sent := Send(regs, 0x3020, ToWord(bufferBase), before, past, sent);
      sent := Send(regs, 0x3024, ToWord(bufferBase + format.size * format.count - 0x20), before, past, sent);
      sent := Send(regs, 0x3028, 0, before, past, sent);
      sent := Send(regs, 0x302c, ToWord(bufferBase), before, past, sent);
      sent := Send(regs, 0x3030, ToWord(bufferBase + format.size), before, past, sent);
      assert sent == Regs(format);
      SetUpLands(before, format);
      Unfolded(regs, before, past, sent);
    }

    /** snd_card_tl880_pcm_trigger: starting also resumes, and an unknown command succeeds too. */
    method Trigger(cmd: Command) returns (result: int)
      requires Valid()
      modifies this`timer, regs.words, regs`trace, memory.words
      ensures Valid() && result == 0
      ensures regs.words[..] == Triggered(old(regs.words[..]), cmd)
      ensures timer == (match cmd case Start | Resume => true case Stop | Suspend => false case _ => old(timer))
      ensures cmd.Start? ==> FromWord(regs.At(0x302c)) == BASE
      ensures memory.words[..] ==
              if cmd.Start? then Cleared(old(memory.words[..]), BASE, BASE + format.Bytes(), 0)
              else old(memory.words[..])
    {
      hide SetBits, ToWord, FromWord, Cleared;
      if cmd.Start? {
        memory.ClearSdram(bufferBase, bufferBase + format.size * format.count, 0);
        Rewind();
      }
      if cmd.Start? || cmd.Resume? {
        timer := true;
        Enable(1);
      } else if cmd.Stop? || cmd.Suspend? {
        Enable(0);
        timer := false;
      } else if cmd.PausePush? {
        Enable(0);
      } else if cmd.PauseRelease? {
        Enable(1);
      }
      return 0;
    }

    method Rewind()
      requires Valid()
      modifies regs.words, regs`trace
      ensures regs.words[..] == old(regs.words[..])[0x302c / 4 := ToWord(BASE)]
      ensures FromWord(regs.At(0x302c)) == BASE
    {
      hide ToWord, FromWord;
      NumberReadsBack(bufferBase);
      regs.Write(0x302c, ToWord(bufferBase));
    }

    method Enable(on: bv32)
      requires regs.Valid()
      modifies regs.words, regs`trace
      ensures regs.words[..] == old(regs.words[..])[0x3004 / 4 := SetBits(old(regs.At(0x3004)), 0, 0, on)]
    {
      regs.WriteBits(0x3004, 0, 0, on);
    }

    /** snd_card_tl880_pcm_timer_function; position is what register 0x302c reads. */
    method TimerFunction(position: nat) returns (elapsed: bool)
      requires Valid() && position < LIMIT && FromWord(regs.At(0x3020)) == BASE
      requires bufferPos <= BASE + MAX_BUFFER && FromWord(regs.At(0x3030)) <= BASE + MAX_BUFFER
      modifies this`bufferPos, this`seen, this`timer, regs.words, regs`trace
      ensures Valid() && timer
      ensures elapsed == Elapsed(format, old(View()), position)
      ensures View() == Tick(format, old(View()), BASE, position)
      ensures forall reg: nat :: reg < SPACE && reg / 4 != 0x3030 / 4 ==> regs.At(reg) == old(regs.At(reg))
      ensures !elapsed ==> regs.words[..] == old(regs.words[..])
    {
      hide ToWord, FromWord;
      timer := true;
      var word := regs.Read(0x3020);
      var reg3020 := FromWord(word);
      word := regs.Read(0x3030);
      var reg3030 := FromWord(word);
      elapsed := position > bufferPos + format.size || position < seen;
      if elapsed {
        reg3030 := reg3030 + format.size;
        if reg3030 >= reg3020 + format.size * format.count {
          reg3030 := reg3020;
        }
        NumberReadsBack(reg3030);
        regs.Write(0x3030, ToWord(reg3030));
        bufferPos := bufferPos + format.size;
        if bufferPos >= reg3020 + format.size * (format.count - 1) {
          bufferPos := reg3020;
        }
      }
      seen := position;
    }

    /** snd_card_tl880_playback_copy of count frames of four bytes, at frame pos. */
    method Copy(channel: int, pos: nat, src: seq<bv32>) returns (result: int)
      requires Valid()
      modifies memory.words
      ensures channel >= 0 ==> result == -22 && memory.words[..] == old(memory.words[..])
      ensures channel < 0 ==> result == 0 && memory.words[..] == Copied(old(memory.words[..]), src, BASE + 4 * pos)
    {
      if channel >= 0 {
        return -EINVAL;
      }
      memory.Memcpy(src, bufferBase + 4 * pos);
      return 0;
    }

    /** snd_card_tl880_playback_silence. */
    method Silence(channel: int, pos: nat, count: nat) returns (result: int)
      requires Valid()
      modifies memory.words
      ensures channel >= 0 ==> result == -22 && memory.words[..] == old(memory.words[..])
      ensures channel < 0 ==> result == 0
      ensures channel < 0 ==>
                memory.words[..] == Cleared(old(memory.words[..]), BASE + 4 * pos, BASE + 4 * pos + 4 * count, 0)
    {
      if channel >= 0 {
        return -EINVAL;
      }
      memory.ClearSdram(bufferBase + 4 * pos, bufferBase + 4 * pos + 4 * count, 0);
      return 0;
    }
  }
}
