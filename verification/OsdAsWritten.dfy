/** The second search of tl880_allocate_osdmem exactly as it stands in the source: the loop tests
    and splits the block under its cursor, but has no statement that moves the cursor on, and none
    that returns after a split. Everything else in this project uses OsdSpec.Serve instead. */
module OsdAsWritten {
  import opened OsdSpec

  /** The list, and whether the loop has returned. Its cursor stays on the head. */
  datatype Loop = Looping(blocks: seq<Block>, tracker: nat) | Returned(blocks: seq<Block>, tracker: nat)

  function Turn(l: Loop, need: nat, kmallocOk: bool): Loop {
    if l.Returned? then l
    else if l.blocks == [] then Returned(l.blocks, l.tracker)
    else
      var b := l.blocks[0];
      if b.active || b.size <= need then l
      else if !kmallocOk then Returned(l.blocks, l.tracker)
      else
        var rest := Rest(b, need, l.tracker + 1);
        Looping([b.(size := need, active := true), rest] + l.blocks[1..], l.tracker + 1)
  }

  function Turns(l: Loop, need: nat, kmallocOk: bool, k: nat): Loop {
    if k == 0 then l else Turn(Turns(l, need, kmallocOk, k - 1), need, kmallocOk)
  }

  ghost predicate LoopReturns(s: seq<Block>, tracker: nat, need: nat, kmallocOk: bool) {
    exists k: nat :: Turns(Looping(s, tracker), need, kmallocOk, k).Returned?
  }

  /** The loop ends only on an empty list, or when the very first block is free and large enough
      but there is no memory for a list node; else it turns for ever, and no request that lacks an
      exact fit is ever served. */
  lemma {:induction false} EndsIff(s: seq<Block>, tracker: nat, need: nat, kmallocOk: bool)
    ensures LoopReturns(s, tracker, need, kmallocOk) <==>
            s == [] || (!s[0].active && s[0].size > need && !kmallocOk)
  {
    var l := Looping(s, tracker);
    if s == [] || (!s[0].active && s[0].size > need && !kmallocOk) {
      assert Turns(l, need, kmallocOk, 0) == l;
      assert Turns(l, need, kmallocOk, 1).Returned?;
    } else {
      forall k: nat ensures Turns(l, need, kmallocOk, k).Looping? { StaysInLoop(s, tracker, need, kmallocOk, k); }
    }
  }

  /** After the first turn nothing changes any more. */
  lemma {:induction false} StaysInLoop(s: seq<Block>, tracker: nat, need: nat, kmallocOk: bool, k: nat)
    requires s != [] && (s[0].active || s[0].size <= need || kmallocOk)
    ensures var l := Looping(s, tracker);
            && Turns(l, need, kmallocOk, k).Looping?
            && (k > 0 ==> Turns(l, need, kmallocOk, k) == Turn(l, need, kmallocOk))
  {
    if k > 0 { StaysInLoop(s, tracker, need, kmallocOk, k - 1); }
  }

  // ---------- the whole call ----------

  /** tl880_allocate_osdmem as written returns: from the exact-fit search, or from the loop. */
  ghost predicate CallReturns(s: seq<Block>, tracker: nat, size: nat, align: nat, kmallocOk: bool)
    requires align > 0
  {
    var c, need := Compact(s), size + (align - 1);
    Find(c, need, true) < |c| || LoopReturns(c, tracker, need, kmallocOk)
  }

  /** A call on any list returns exactly when the compacted list has an exact fit, or is empty, or
      begins with a free larger block while there is no memory for a list node. */
  lemma {:induction false} CallReturnsIff(s: seq<Block>, tracker: nat, size: nat, align: nat, kmallocOk: bool)
    requires align > 0
    ensures CallReturns(s, tracker, size, align, kmallocOk) <==>
            var c, need := Compact(s), size + (align - 1);
            || (exists i :: 0 <= i < |c| && Suits(c[i], need, true))
            || c == []
            || (!c[0].active && c[0].size > need && !kmallocOk)
  {
    hide Compact, LoopReturns;
    var c, need := Compact(s), size + (align - 1);
    EndsIff(c, tracker, need, kmallocOk);
    var f := Find(c, need, true);
    if f < |c| {
      assert Suits(c[f], need, true);
    } else {
      assert forall i :: 0 <= i < |c| ==> !Suits(c[i], need, true);
    }
  }

  /** Until tl880_init_osdmem has run every call returns. */
  lemma CallsReturnBeforeInit(tracker: nat, size: nat, align: nat, kmallocOk: bool)
    requires align > 0
    ensures CallReturns([], tracker, size, align, kmallocOk)
  {
    hide CallReturns;
    CallReturnsIff([], tracker, size, align, kmallocOk);
  }

  /** On the list as tl880_init_osdmem leaves it only a request for the whole region returns, unless
      memory for a list node is refused. */
  lemma {:induction false} FirstCallReturnsIff(tracker: nat, virt: nat, phys: nat,
                                               size: nat, align: nat, kmallocOk: bool)
    requires align > 0
    ensures CallReturns(Init(tracker, virt, phys), tracker + 1, size, align, kmallocOk) <==>
            size + (align - 1) == 0x1000000 || (size + (align - 1) < 0x1000000 && !kmallocOk)
  {
    hide CallReturns;
    var s := Init(tracker, virt, phys);
    CallReturnsIff(s, tracker + 1, size, align, kmallocOk);
    assert Compact(s) == s;
    assert size + (align - 1) == 0x1000000 ==> Suits(s[0], size + (align - 1), true);
  }

  /** So the first cursor's request after that, 0x200 bytes at 0x10, never returns. */
  lemma {:induction false} FirstCursorHangs(tracker: nat, virt: nat, phys: nat)
    ensures !CallReturns(Init(tracker, virt, phys), tracker + 1, 0x200, 0x10, true)
  {
    hide CallReturns;
    FirstCallReturnsIff(tracker, virt, phys, 0x200, 0x10, true);
  }
}
