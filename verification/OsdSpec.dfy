/** What the overlay-memory list computes, on values: the list is a sequence of blocks. */
module OsdSpec {
  import opened Lists
  import opened Words

  datatype Block = Block(field0: nat, virt: nat, phys: nat, size: nat, active: bool, id: nat) {
    function Addr(): nat { virt + field0 }
    function End(): nat { virt + size }

    /** The check (id & 0xfff00000) == 0x52300000. */
    predicate Tagged() { id / 0x100000 % 0x1000 == 0x523 }
  }

  /** (tracker & 0xfffff) | 0x52300000. */
  function NewId(tracker: nat): nat {
    0x52300000 + tracker % 0x100000
  }

  /** (virt + align - 1) & ~(align - 1). */
  function AlignUp(virt: nat, align: nat): (r: nat)
    requires align > 0
    ensures virt <= r < virt + align
  {
    virt + (align - 1) - And(virt + (align - 1), align - 1)
  }

  /** Merge neighbouring free blocks, from the head on. */
  function Compact(s: seq<Block>): seq<Block>
    decreases |s|
  {
    if |s| < 2 then s
    else if !s[0].active && !s[1].active then Compact([s[0].(size := s[0].size + s[1].size)] + s[2..])
    else [s[0]] + Compact(s[1..])
  }

  predicate Suits(b: Block, need: nat, exact: bool) {
    !b.active && if exact then b.size == need else b.size > need
  }

  /** The first free block of exactly, or of more than, the needed size; |s| if there is none. */
  function Find(s: seq<Block>, need: nat, exact: bool): (i: nat)
    ensures i <= |s|
    ensures i < |s| ==> Suits(s[i], need, exact)
    ensures forall j :: 0 <= j < i ==> !Suits(s[j], need, exact)
  {
    if s == [] || Suits(s[0], need, exact) then 0 else 1 + Find(s[1..], need, exact)
  }

  datatype Result = Result(blocks: seq<Block>, tracker: nat, addr: nat)

  function Grab(b: Block, align: nat): Block
    requires align > 0
  {
    b.(active := true, field0 := AlignUp(b.virt, align) - b.virt)
  }

  /** What is left of b behind its first `need` bytes. */
  function Rest(b: Block, need: nat, tracker: nat): Block
    requires need <= b.size
  {
    Block(0, b.virt + need, b.phys + need, b.size - need, false, NewId(tracker))
  }

  /** Block j cut after `need` bytes: the rest becomes a new free block, the front is handed out. */
  function Split(s: seq<Block>, j: nat, need: nat, align: nat, tracker: nat): seq<Block>
    requires j < |s| && align > 0 && need <= s[j].size
  {
    Insert(s, j + 1, Rest(s[j], need, tracker))[j := Grab(s[j].(size := need), align)]
  }

  /** The two searches of tl880_allocate_osdmem over a compacted list; addr 0 means failure. The
      source's second search neither moves to the next block nor returns after a split
      (driver/tl880osd.c:137-159, see module OsdAsWritten). Here it does what it is evidently for:
      it moves on when a block does not suit, and after a split hands the block out the way the
      exact-fit search does. */
  function Serve(c: seq<Block>, tracker: nat, need: nat, align: nat, kmallocOk: bool): Result
    requires align > 0
  {
    var i := Find(c, need, true);
    if i < |c| then Result(c[i := Grab(c[i], align)], tracker, AlignUp(c[i].virt, align))
    else
      var j := Find(c, need, false);
      if j == |c| || !kmallocOk then Result(c, tracker, 0)
      else Result(Split(c, j, need, align, tracker + 1), tracker + 1, AlignUp(c[j].virt, align))
  }

  /** tl880_allocate_osdmem. */
  function Allocate(s: seq<Block>, tracker: nat, size: nat, align: nat, kmallocOk: bool): Result
    requires align > 0
  {
    Serve(Compact(s), tracker, size + (align - 1), align, kmallocOk)
  }

  /** The walk of deallocate: it stops at the first block that matches or has a bad id. */
  function FindAddr(s: seq<Block>, addr: nat): (i: nat)
    ensures i <= |s|
    ensures i < |s| ==> !s[i].Tagged() || s[i].Addr() == addr
    ensures forall j :: 0 <= j < i ==> s[j].Tagged() && s[j].Addr() != addr
  {
    if s == [] || !s[0].Tagged() || s[0].Addr() == addr then 0 else 1 + FindAddr(s[1..], addr)
  }

  function Deallocate(s: seq<Block>, addr: nat): (seq<Block>, bool) {
    var i := FindAddr(s, addr);
    if i < |s| && s[i].Tagged() then (s[i := s[i].(active := false, field0 := 0)], true)
    else (s, false)
  }

  /** tl880_get_osdmem_offset: unlike deallocate it passes over free blocks; -1 if none matches. */
  function Offset(s: seq<Block>, addr: nat): int {
    if s == [] || !s[0].Tagged() then -1
    else if s[0].active && s[0].Addr() == addr then s[0].phys + s[0].field0
    else Offset(s[1..], addr)
  }

  /** tl880_init_osdmem. */
  function Init(tracker: nat, virt: nat, phys: nat): seq<Block> {
    [Block(0, virt, phys, 0x1000000, false, NewId(tracker + 1))]
  }
}
