/** Laws of the overlay-memory list: it always tiles its region, compaction is canonical, and
    allocation is complete and undone by deallocation. */
module OsdLaws {
  import opened Lists
  import opened Words
  import opened OsdSpec

  // ---------- the shape of a list ----------

  /** The blocks cover [from, to) in order, with no gap or overlap and none empty. */
  predicate Tiles(s: seq<Block>, from: nat, to: nat) {
    if s == [] then from == to
    else s[0].virt == from && s[0].size > 0 && Tiles(s[1..], from + s[0].size, to)
  }

  /** phys and virt run in parallel, free blocks carry no offset, and the address handed out for an
      active block lies inside it. */
  predicate Good(b: Block, delta: int) {
    && b.phys == b.virt + delta
    && b.Tagged()
    && (!b.active ==> b.field0 == 0)
    && b.field0 < b.size
  }

  predicate AllGood(s: seq<Block>, delta: int) {
    forall i :: 0 <= i < |s| ==> Good(s[i], delta)
  }

  predicate Osd(s: seq<Block>, from: nat, to: nat, delta: int) {
    s != [] && Tiles(s, from, to) && AllGood(s, delta)
  }

  lemma {:induction false} TilesBounds(s: seq<Block>, from: nat, to: nat, i: nat)
    requires Tiles(s, from, to) && i < |s|
    ensures from <= s[i].virt && s[i].End() <= to && s[i].size > 0
    ensures from <= to
  {
    if i > 0 {
      TilesBounds(s[1..], from + s[0].size, to, i - 1);
    } else if |s| > 1 {
      TilesBounds(s[1..], from + s[0].size, to, 0);
    }
  }

  /** Blocks further on lie higher. */
  lemma {:induction false} TilesInOrder(s: seq<Block>, from: nat, to: nat, i: nat, j: nat)
    requires Tiles(s, from, to) && i < j < |s|
    ensures s[i].End() <= s[j].virt
    ensures j == i + 1 ==> s[i].End() == s[j].virt
  {
    if i == 0 {
      TilesBounds(s[1..], from + s[0].size, to, j - 1);
    } else {
      TilesInOrder(s[1..], from + s[0].size, to, i - 1, j - 1);
    }
  }

  /** Every byte of the region is in some block. */
  lemma {:induction false} TilesCover(s: seq<Block>, from: nat, to: nat, a: nat) returns (i: nat)
    requires Tiles(s, from, to) && from <= a < to
    ensures i < |s| && s[i].virt <= a < s[i].End()
  {
    if a < from + s[0].size {
      i := 0;
    } else {
      i := TilesCover(s[1..], from + s[0].size, to, a);
      i := i + 1;
    }
  }

  /** An address inside a block names that block. */
  lemma SameBlock(s: seq<Block>, from: nat, to: nat, i: nat, j: nat, a: nat)
    requires Tiles(s, from, to) && i < |s| && j < |s|
    requires s[i].virt <= a < s[i].End() && s[j].virt <= a < s[j].End()
    ensures i == j
  {
    if i < j { TilesInOrder(s, from, to, i, j); }
    if j < i { TilesInOrder(s, from, to, j, i); }
  }

  lemma {:induction false} TilesConcat(a: seq<Block>, b: seq<Block>, from: nat, mid: nat, to: nat)
    requires Tiles(a, from, mid) && Tiles(b, mid, to)
    ensures Tiles(a + b, from, to)
  {
    if a == [] {
      assert a + b == b;
    } else {
      TilesConcat(a[1..], b, from + a[0].size, mid, to);
      assert (a + b)[1..] == a[1..] + b;
    }
  }

  lemma {:induction false} TilesCut(s: seq<Block>, from: nat, to: nat, i: nat)
    requires Tiles(s, from, to) && i < |s|
    ensures Tiles(s[..i], from, s[i].virt) && Tiles(s[i + 1..], s[i].End(), to)
  {
    if i > 0 {
      TilesCut(s[1..], from + s[0].size, to, i - 1);
      assert s[..i][1..] == s[1..][..i - 1] && s[1..][i..] == s[i + 1..];
    }
  }

  /** Putting blocks that tile block i's bytes in its place keeps the tiling. */
  lemma {:induction false} TilesReplace(s: seq<Block>, from: nat, to: nat, i: nat, mid: seq<Block>)
    requires Tiles(s, from, to) && i < |s| && Tiles(mid, s[i].virt, s[i].End())
    ensures Tiles(s[..i] + mid + s[i + 1..], from, to)
  {
    TilesCut(s, from, to, i);
    TilesConcat(s[..i], mid, from, s[i].virt, s[i].End());
    TilesConcat(s[..i] + mid, s[i + 1..], from, s[i].End(), to);
  }

  // ---------- compaction ----------

  function Actives(s: seq<Block>): seq<Block> {
    if s == [] then [] else (if s[0].active then [s[0]] else []) + Actives(s[1..])
  }

  predicate NoAdjacentFree(s: seq<Block>) {
    forall i :: 0 <= i < |s| - 1 ==> s[i].active || s[i + 1].active
  }

  /** The byte at a belongs to a free block. */
  predicate FreeAt(s: seq<Block>, a: nat) {
    exists i :: 0 <= i < |s| && !s[i].active && s[i].virt <= a < s[i].End()
  }

  /** Compaction keeps the tiling, the head block's identity and the active blocks, and merges all
      it can. */
  lemma {:induction false} CompactKeeps(s: seq<Block>, from: nat, to: nat, delta: int)
    requires Osd(s, from, to, delta)
    ensures Osd(Compact(s), from, to, delta)
    ensures Compact(s)[0].id == s[0].id && Compact(s)[0].active == s[0].active
    ensures Actives(Compact(s)) == Actives(s)
    ensures NoAdjacentFree(Compact(s))
    ensures |Compact(s)| <= |s|
    decreases |s|
  {
    hide Good;
    if |s| >= 2 {
      if !s[0].active && !s[1].active {
        MergeKeeps(s, from, to, delta);
        CompactKeeps([s[0].(size := s[0].size + s[1].size)] + s[2..], from, to, delta);
      } else {
        CompactKeeps(s[1..], from + s[0].size, to, delta);
        var c := Compact(s);
        assert c[1..] == Compact(s[1..]);
      }
    }
  }

  lemma MergeKeeps(s: seq<Block>, from: nat, to: nat, delta: int)
    requires Osd(s, from, to, delta) && |s| >= 2 && !s[0].active && !s[1].active
    ensures var t := [s[0].(size := s[0].size + s[1].size)] + s[2..];
      Osd(t, from, to, delta) && Actives(t) == Actives(s)
  {
    var t := [s[0].(size := s[0].size + s[1].size)] + s[2..];
    assert t[1..] == s[2..] && s[1..][1..] == s[2..];
    assert Tiles(s[1..], from + s[0].size, to);
    assert forall i :: 0 < i < |t| ==> t[i] == s[i + 1];
  }

  /** A list with nothing to merge stays as it is, so compacting twice is compacting once. */
  lemma {:induction false} CompactFixes(s: seq<Block>)
    requires NoAdjacentFree(s)
    ensures Compact(s) == s
  {
    if |s| >= 2 {
      assert s[0].active || s[0 + 1].active;
      CompactFixes(s[1..]);
    }
  }

  /** The free bytes are the same bytes. */
  lemma {:induction false} CompactKeepsFreeBytes(s: seq<Block>, from: nat, to: nat, a: nat)
    requires Tiles(s, from, to)
    ensures FreeAt(Compact(s), a) <==> FreeAt(s, a)
    decreases |s|
  {
    if |s| >= 2 {
      if !s[0].active && !s[1].active {
        var t := [s[0].(size := s[0].size + s[1].size)] + s[2..];
        assert t[1..] == s[2..] && s[1..][1..] == s[2..];
        CompactKeepsFreeBytes(t, from, to, a);
        FreeAtCons(t, a);
        FreeAtCons(s, a);
        FreeAtCons(s[1..], a);
      } else {
        CompactKeepsFreeBytes(s[1..], from + s[0].size, to, a);
        FreeAtCons(s, a);
        FreeAtCons(Compact(s), a);
        assert Compact(s)[1..] == Compact(s[1..]);
      }
    }
  }

  lemma FreeAtCons(s: seq<Block>, a: nat)
    requires s != []
    ensures FreeAt(s, a) <==> (!s[0].active && s[0].virt <= a < s[0].End()) || FreeAt(s[1..], a)
  {
    if i :| 0 <= i < |s| && !s[i].active && s[i].virt <= a < s[i].End() {
      if i > 0 { assert s[1..][i - 1] == s[i]; }
    }
    if i :| 0 <= i < |s[1..]| && !s[1..][i].active && s[1..][i].virt <= a < s[1..][i].End() {
      assert s[i + 1] == s[1..][i];
    }
  }

  /** A compacted list has at most one free block more than it has active ones. */
  lemma {:induction false} FewFreeBlocks(s: seq<Block>)
    requires NoAdjacentFree(s)
    ensures |s| - |Actives(s)| <= |Actives(s)| + (if s != [] && s[0].active then 0 else 1)
  {
    if s != [] {
      if |s| > 1 { assert s[0].active || s[0 + 1].active; }
      FewFreeBlocks(s[1..]);
    }
  }

  // ---------- allocation ----------

  /** (a & (align - 1)) == 0. */
  predicate Aligned(a: nat, align: nat)
    requires align > 0
  {
    And(a, align - 1) == 0
  }

  /** For a power of two that is to be a multiple of it. */
  lemma AlignedIff(a: nat, k: nat)
    ensures Aligned(a, Pow2(k)) <==> a % Pow2(k) == 0
  {
    AndLowMask(a, k);
  }

  lemma AlignUpIsAligned(virt: nat, align: nat)
    requires align > 0
    ensures Aligned(AlignUp(virt, align), align)
  {
    hide And;
    AndCleared(virt + (align - 1), align - 1);
  }

  /** Every address handed out has the alignment asked for. */
  lemma AddressIsAligned(s: seq<Block>, tracker: nat, size: nat, align: nat, kmallocOk: bool)
    requires align > 0
    ensures Aligned(Allocate(s, tracker, size, align, kmallocOk).addr, align)
  {
    hide AlignUp;
    var c, need := Compact(s), size + (align - 1);
    if Find(c, need, true) < |c| {
      AlignUpIsAligned(c[Find(c, need, true)].virt, align);
    } else if Find(c, need, false) < |c| {
      AlignUpIsAligned(c[Find(c, need, false)].virt, align);
    }
  }

  /** For a power of two, a multiple of it. */
  lemma AddressIsMultiple(s: seq<Block>, tracker: nat, size: nat, k: nat, kmallocOk: bool)
    ensures Allocate(s, tracker, size, Pow2(k), kmallocOk).addr % Pow2(k) == 0
  {
    hide Allocate;
    AddressIsAligned(s, tracker, size, Pow2(k), kmallocOk);
    AlignedIff(Allocate(s, tracker, size, Pow2(k), kmallocOk).addr, k);
  }

  lemma NewIdIsTagged(tracker: nat)
    ensures NewId(tracker) / 0x100000 % 0x1000 == 0x523
  {}

  /** A request for at least one byte keeps the list sound. */
  lemma {:induction false} AllocateKeeps(s: seq<Block>, from: nat, to: nat, delta: int,
                                         tracker: nat, size: nat, align: nat, kmallocOk: bool)
    requires Osd(s, from, to, delta) && align > 0 && size > 0
    ensures Osd(Allocate(s, tracker, size, align, kmallocOk).blocks, from, to, delta)
    ensures Allocate(s, tracker, size, align, kmallocOk).blocks[0].id == s[0].id
  {
    CompactKeeps(s, from, to, delta);
    ServeKeeps(Compact(s), from, to, delta, tracker, size + (align - 1), align, kmallocOk);
  }

  lemma {:induction false} ServeKeeps(c: seq<Block>, from: nat, to: nat, delta: int,
                                      tracker: nat, need: nat, align: nat, kmallocOk: bool)
    requires Osd(c, from, to, delta) && 0 < align <= need
    ensures Osd(Serve(c, tracker, need, align, kmallocOk).blocks, from, to, delta)
    ensures Serve(c, tracker, need, align, kmallocOk).blocks[0].id == c[0].id
  {
    var i := Find(c, need, true);
    var j := Find(c, need, false);
    if i < |c| {
      GrabKeeps(c, from, to, delta, i, align);
    } else if j < |c| && kmallocOk {
      SplitKeeps(c, from, to, delta, j, need, align, tracker + 1);
    }
  }

  lemma {:induction false} GrabKeeps(c: seq<Block>, from: nat, to: nat, delta: int, i: nat, align: nat)
    requires Osd(c, from, to, delta) && i < |c| && align > 0 && AlignUp(c[i].virt, align) < c[i].End()
    ensures Osd(c[i := Grab(c[i], align)], from, to, delta)
  {
    var b := Grab(c[i], align);
    assert c[i := b] == c[..i] + [b] + c[i + 1..];
    TilesBounds(c, from, to, i);
    TilesReplace(c, from, to, i, [b]);
  }

  lemma {:induction false} SplitKeeps(c: seq<Block>, from: nat, to: nat, delta: int,
                                      j: nat, need: nat, align: nat, tracker: nat)
    requires Osd(c, from, to, delta) && j < |c| && align > 0 && 0 < need < c[j].size
    requires AlignUp(c[j].virt, align) < c[j].virt + need
    ensures Osd(Split(c, j, need, align, tracker), from, to, delta)
  {
    var front := Grab(c[j].(size := need), align);
    var rest := Rest(c[j], need, tracker);
    NewIdIsTagged(tracker);
    assert [front, rest][1..] == [rest] && [rest][1..] == [];
    TilesReplace(c, from, to, j, [front, rest]);
    var t := Split(c, j, need, align, tracker);
    assert t == c[..j] + [front, rest] + c[j + 1..];
    forall k | 0 <= k < |t| ensures Good(t[k], delta) {
      assert k < j ==> t[k] == c[k];
      assert k > j + 1 ==> t[k] == c[k - 1];
    }
  }

  /** need bytes in a row, all free, starting at a. */
  predicate FreeRun(s: seq<Block>, a: nat, need: nat) {
    forall b :: a <= b < a + need ==> FreeAt(s, b)
  }

  ghost predicate HasFreeRun(s: seq<Block>, need: nat) {
    exists a: nat :: FreeRun(s, a, need)
  }

  /** In a compacted list a run of free bytes lies in one block. */
  lemma {:induction false} RunInOneBlock(c: seq<Block>, from: nat, to: nat, a: nat, need: nat) returns (i: nat)
    requires Tiles(c, from, to) && NoAdjacentFree(c) && need > 0 && FreeRun(c, a, need)
    ensures i < |c| && !c[i].active && c[i].size >= need
  {
    assert FreeAt(c, a);
    i :| 0 <= i < |c| && !c[i].active && c[i].virt <= a < c[i].End();
    if c[i].End() < a + need {
      var e := c[i].End();
      assert FreeAt(c, e);
      var j :| 0 <= j < |c| && !c[j].active && c[j].virt <= e < c[j].End();
      if j < i { TilesInOrder(c, from, to, j, i); }
      TilesBounds(c, from, to, i);
      if j > i + 1 {
        TilesInOrder(c, from, to, i, i + 1);
        TilesInOrder(c, from, to, i + 1, j);
        TilesBounds(c, from, to, i + 1);
      }
    }
  }

  /** Allocation is complete: when kmalloc does not fail, a request is refused exactly when the
      list has no size + align - 1 free bytes in a row, however they are spread over blocks. */
  lemma {:induction false} AllocateIsComplete(s: seq<Block>, from: nat, to: nat, delta: int,
                                              tracker: nat, size: nat, align: nat)
    requires Osd(s, from, to, delta) && from > 0 && align > 0 && size > 0
    ensures Allocate(s, tracker, size, align, true).addr == 0 <==> !HasFreeRun(s, size + (align - 1))
  {
    var c, need := Compact(s), size + (align - 1);
    CompactKeeps(s, from, to, delta);
    forall a: nat ensures FreeRun(c, a, need) <==> FreeRun(s, a, need) {
      forall b: nat ensures FreeAt(c, b) <==> FreeAt(s, b) { CompactKeepsFreeBytes(s, from, to, b); }
    }
    ServeIsComplete(c, from, to, tracker, need, align);
  }

  lemma {:induction false} ServeIsComplete(c: seq<Block>, from: nat, to: nat, tracker: nat, need: nat, align: nat)
    requires Tiles(c, from, to) && NoAdjacentFree(c) && from > 0 && 0 < align <= need
    ensures Serve(c, tracker, need, align, true).addr == 0 <==> !HasFreeRun(c, need)
  {
    var f := Find(c, need, true);
    var i := if f < |c| then f else Find(c, need, false);
    if a: nat :| FreeRun(c, a, need) {
      var k := RunInOneBlock(c, from, to, a, need);
      assert Suits(c[k], need, true) || Suits(c[k], need, false);
      TilesBounds(c, from, to, i);
    }
    if i < |c| {
      assert FreeRun(c, c[i].virt, need);
    }
  }

  /** A refused request has only compacted the list. */
  lemma {:induction false} RefusalOnlyCompacts(s: seq<Block>, from: nat, to: nat, delta: int,
                                               tracker: nat, size: nat, align: nat, kmallocOk: bool)
    requires Osd(s, from, to, delta) && from > 0 && align > 0
    requires Allocate(s, tracker, size, align, kmallocOk).addr == 0
    ensures Allocate(s, tracker, size, align, kmallocOk).blocks == Compact(s)
  {
    var c := Compact(s);
    CompactKeeps(s, from, to, delta);
    var f := Find(c, size + (align - 1), true);
    var i := if f < |c| then f else Find(c, size + (align - 1), false);
    if i < |c| { TilesBounds(c, from, to, i); }
  }

  // ---------- which block a request gets ----------

  predicate NoExact(c: seq<Block>, need: nat) {
    forall i :: 0 <= i < |c| ==> c[i].active || c[i].size != need
  }

  /** An address handed out of block b is the first aligned one in it. */
  predicate AddressIn(b: Block, addr: nat, align: nat)
    requires align > 0
  {
    b.virt <= addr < b.virt + align && Aligned(addr, align)
  }

  /** A free block of exactly the needed length is taken before a larger one is cut, with memory for
      a new node or without, and the lowest such block: no block is added, and nothing but the
      block's flag and offset changes. */
  lemma {:induction false} ExactFitFirst(s: seq<Block>, tracker: nat, size: nat, align: nat, kmallocOk: bool, i: nat)
    requires align > 0 && i < |Compact(s)|
    requires !Compact(s)[i].active && Compact(s)[i].size == size + (align - 1)
    requires forall k :: 0 <= k < i ==> Compact(s)[k].active || Compact(s)[k].size != size + (align - 1)
    ensures var c, r := Compact(s), Allocate(s, tracker, size, align, kmallocOk);
            && r.tracker == tracker && AddressIn(c[i], r.addr, align)
            && r.blocks == c[i := c[i].(active := true, field0 := r.addr - c[i].virt)]
  {
    hide AlignUp, Compact;
    var c := Compact(s);
    assert Find(c, size + (align - 1), true) == i;
    AlignUpIsAligned(c[i].virt, align);
  }

  /** Otherwise the first larger free block is cut: its front is handed out, and one block is added
      right behind it, free, for all the bytes that are left, under the next id. */
  lemma {:induction false} ElseFirstLarger(s: seq<Block>, tracker: nat, size: nat, align: nat, j: nat)
    requires align > 0 && NoExact(Compact(s), size + (align - 1)) && j < |Compact(s)|
    requires !Compact(s)[j].active && Compact(s)[j].size > size + (align - 1)
    requires forall i :: 0 <= i < j ==> Compact(s)[i].active || Compact(s)[i].size <= size + (align - 1)
    ensures var c, r := Compact(s), Allocate(s, tracker, size, align, true);
            && r.tracker == tracker + 1 && AddressIn(c[j], r.addr, align)
            && IsCut(c, r.blocks, j, size + (align - 1), r.addr - c[j].virt, 0x52300000 + (tracker + 1) % 0x100000)
  {
    hide AlignUp, Compact, Split, IsCut;
    var c, need := Compact(s), size + (align - 1);
    assert Find(c, need, true) == |c|;
    assert Find(c, need, false) == j;
    AlignUpIsAligned(c[j].virt, align);
    SplitIsCut(c, j, need, align, tracker + 1);
  }

  /** t is c with block j cut after `need` bytes: the front handed out at this offset, the rest a new
      free block with this id. */
  ghost predicate IsCut(c: seq<Block>, t: seq<Block>, j: nat, need: nat, offset: nat, id: nat)
    requires j < |c| && need <= c[j].size
  {
    && |t| == |c| + 1
    && (forall k :: 0 <= k < j ==> t[k] == c[k])
    && (forall k :: j < k < |c| ==> t[k + 1] == c[k])
    && t[j] == c[j].(size := need, active := true, field0 := offset)
    && t[j + 1] == Block(0, c[j].virt + need, c[j].phys + need, c[j].size - need, false, id)
  }

  lemma SplitIsCut(c: seq<Block>, j: nat, need: nat, align: nat, tracker: nat)
    requires j < |c| && align > 0 && need <= c[j].size
    ensures IsCut(c, Split(c, j, need, align, tracker), j, need, AlignUp(c[j].virt, align) - c[j].virt,
                  0x52300000 + tracker % 0x100000)
  {
    hide AlignUp;
    var more := InsertAt(c, j + 1, Rest(c[j], need, tracker));
  }

  /** And without one, or without memory for its node, the request is refused. */
  lemma {:induction false} ElseRefused(s: seq<Block>, tracker: nat, size: nat, align: nat, kmallocOk: bool)
    requires align > 0 && NoExact(Compact(s), size + (align - 1))
    requires kmallocOk ==> forall i :: 0 <= i < |Compact(s)| ==>
                             Compact(s)[i].active || Compact(s)[i].size <= size + (align - 1)
    ensures Allocate(s, tracker, size, align, kmallocOk) == Result(Compact(s), tracker, 0)
  {
    hide AlignUp, Compact;
    var c, need := Compact(s), size + (align - 1);
    assert Find(c, need, true) == |c|;
  }

  /** A list without active blocks compacts to one block: the whole region, under the first
      block's id. */
  lemma {:induction false} AllFreeIsOneBlock(s: seq<Block>, from: nat, len: nat, delta: int)
    requires Osd(s, from, from + len, delta) && Actives(s) == [] && from + delta >= 0
    ensures Compact(s) == [Block(0, from, from + delta, len, false, s[0].id)]
  {
    CompactKeeps(s, from, from + len, delta);
    var c := Compact(s);
    FewFreeBlocks(c);
    assert Good(c[0], delta) && c == [c[0]];
    assert c[1..] == [] && Tiles(c[1..], from + c[0].size, from + len);
  }

  /** Without memory for a new list node only a free run of exactly the needed length will do. */
  lemma {:induction false} NoNodeNoSplit(s: seq<Block>, from: nat, to: nat, delta: int,
                                         tracker: nat, size: nat, align: nat)
    requires Osd(s, from, to, delta) && from > 0 && align > 0 && size > 0
    ensures Allocate(s, tracker, size, align, false).addr != 0 <==>
            exists i :: 0 <= i < |Compact(s)| && Suits(Compact(s)[i], size + (align - 1), true)
  {
    var c := Compact(s);
    CompactKeeps(s, from, to, delta);
    var f := Find(c, size + (align - 1), true);
    if f < |c| { TilesBounds(c, from, to, f); }
  }

  // ---------- deallocation undoes allocation ----------

  /** The walk by address finds the block whose address it is. */
  lemma {:induction false} FindsOwner(s: seq<Block>, from: nat, to: nat, delta: int, i: nat)
    requires Osd(s, from, to, delta) && i < |s|
    ensures FindAddr(s, s[i].Addr()) == i
  {
    var a := s[i].Addr();
    var f := FindAddr(s, a);
    assert f <= i;
    assert Good(s[f], delta) && Good(s[i], delta);
    SameBlock(s, from, to, f, i, a);
  }

  /** Deallocating what r handed out succeeds, and compacting after that leaves c. */
  predicate GivesBack(r: Result, c: seq<Block>) {
    var (t, ok) := Deallocate(r.blocks, r.addr);
    ok && Compact(t) == c
  }

  /** Allocate, give the address back, compact: the compacted list is there again, addresses,
      sizes, flags and ids included. */
  lemma {:induction false} DeallocateUndoesAllocate(s: seq<Block>, from: nat, to: nat, delta: int,
                                                    tracker: nat, size: nat, align: nat, kmallocOk: bool)
    requires Osd(s, from, to, delta) && from > 0 && align > 0 && size > 0
    requires Allocate(s, tracker, size, align, kmallocOk).addr != 0
    ensures GivesBack(Allocate(s, tracker, size, align, kmallocOk), Compact(s))
  {
    CompactKeeps(s, from, to, delta);
    ServeUndone(Compact(s), from, to, delta, tracker, size + (align - 1), align, kmallocOk,
                Allocate(s, tracker, size, align, kmallocOk));
  }

  lemma {:induction false} ServeUndone(c: seq<Block>, from: nat, to: nat, delta: int,
                                       tracker: nat, need: nat, align: nat, kmallocOk: bool, r: Result)
    requires Osd(c, from, to, delta) && NoAdjacentFree(c) && 0 < align <= need
    requires r == Serve(c, tracker, need, align, kmallocOk) && r.addr != 0
    ensures GivesBack(r, c)
  {
    var f := Find(c, need, true);
    if f < |c| {
      UngrabRestores(c, from, to, delta, f, align);
      CompactFixes(c);
    } else {
      UnsplitRestores(c, from, to, delta, Find(c, need, false), need, align, tracker + 1);
    }
  }

  lemma {:induction false} UngrabRestores(c: seq<Block>, from: nat, to: nat, delta: int, i: nat, align: nat)
    requires Osd(c, from, to, delta) && i < |c| && 0 < align <= c[i].size && !c[i].active
    ensures Deallocate(c[i := Grab(c[i], align)], AlignUp(c[i].virt, align)) == (c, true)
  {
    GrabKeeps(c, from, to, delta, i, align);
    var s := c[i := Grab(c[i], align)];
    FindsOwner(s, from, to, delta, i);
    assert Good(c[i], delta) && Good(s[i], delta);
    assert s[i := c[i]] == c;
  }

  lemma {:induction false} UnsplitRestores(c: seq<Block>, from: nat, to: nat, delta: int,
                                           j: nat, need: nat, align: nat, tracker: nat)
    requires Osd(c, from, to, delta) && NoAdjacentFree(c)
    requires j < |c| && 0 < align <= need < c[j].size && !c[j].active
    ensures var (t, ok) := Deallocate(Split(c, j, need, align, tracker), AlignUp(c[j].virt, align));
            ok && Compact(t) == c
  {
    var s := Split(c, j, need, align, tracker);
    SplitKeeps(c, from, to, delta, j, need, align, tracker);
    FindsOwner(s, from, to, delta, j);
    assert Good(c[j], delta) && Good(s[j], delta);
    var front := c[j].(size := need);
    var rest := Rest(c[j], need, tracker);
    assert s[j].(active := false, field0 := 0) == front;
    var t := c[..j] + [front, rest] + c[j + 1..];
    assert s[j := front] == t;
    MergesBack(c, j, front, rest);
  }

  /** Cutting a free block of a compacted list in two changes nothing once compacted. */
  lemma {:induction false} MergesBack(c: seq<Block>, j: nat, front: Block, rest: Block)
    requires NoAdjacentFree(c) && j < |c| && !c[j].active
    requires front == c[j].(size := front.size) && !rest.active && front.size + rest.size == c[j].size
    ensures Compact(c[..j] + [front, rest] + c[j + 1..]) == c
  {
    var t := c[..j] + [front, rest] + c[j + 1..];
    if j == 0 {
      assert t[2..] == c[1..];
      assert [front.(size := front.size + rest.size)] + t[2..] == c;
      CompactFixes(c);
    } else {
      assert t[1..] == c[1..][..j - 1] + [front, rest] + c[1..][j..];
      MergesBack(c[1..], j - 1, front, rest);
      assert c[0].active || c[0 + 1].active;
      assert t[0] == c[0] && t[1].active == c[1].active;
    }
  }

  // ---------- before the list is set up ----------

  /** Until tl880_init_osdmem has run the list is empty: every request is refused, one for no bytes
      included, and nothing can be given back or looked up. */
  lemma NothingBeforeInit(tracker: nat, size: nat, align: nat, kmallocOk: bool, addr: nat)
    requires align > 0
    ensures Allocate([], tracker, size, align, kmallocOk) == Result([], tracker, 0)
    ensures Deallocate([], addr) == ([], false) && Offset([], addr) == -1 && Compact([]) == []
  {}
}
