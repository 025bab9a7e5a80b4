/** Hardware cursors, on values. Each listed cursor owns one block of overlay memory. */
module CursorSpec {
  import opened Lists
  import opened OsdSpec
  import opened OsdLaws
  import opened OsdRuns
  import opened Words

  /** struct _SURFACE_DESC. */
  datatype Desc = Desc(field0: nat, field4: nat, field8: nat, width: nat, height: nat,
                       field14: nat, field16: nat, field18: nat)

  /** The fields of struct SOverlaySurface that are ever set. */
  datatype Cursor = Cursor(osdAddr: nat, cardAddr: int, hsize: nat, vsize: nat, width: nat, height: nat,
                           hscale: nat, vscale: nat, handle: nat, id: nat)

  datatype World = World(cursors: seq<Cursor>, made: nat, blocks: seq<Block>, tracker: nat)

  const BYTES: nat := 0x200
  const ALIGN: nat := 0x10

  predicate Acceptable(d: Desc) {
    d.field18 == 0x1c && d.width == 32 && d.height == 32 && 0 < d.field14 < 5
  }

  function NewCursor(d: Desc, osdAddr: nat, cardAddr: int, id: nat): Cursor {
    Cursor(osdAddr, cardAddr, d.field4, d.field8, d.width, d.height,
           if d.field14 != 4 then d.field14 else 0,
           if d.field16 != 4 then d.field16 else 0, d.field0, id)
  }

  /** The overlay memory for a new cursor: the new list and counter, and the addresses on the list
      and on the card. List address 0 means failure. */
  function Claim(s: seq<Block>, tracker: nat, nodeMem: bool): (seq<Block>, nat, nat, int) {
    var r := Allocate(s, tracker, BYTES, ALIGN, nodeMem);
    if r.addr == 0 then (r.blocks, r.tracker, 0, -1)
    else
      var card := Offset(r.blocks, r.addr);
      if card == -1 then (Deallocate(r.blocks, r.addr).0, r.tracker, 0, -1)
      else (r.blocks, r.tracker, r.addr, card)
  }

  /** tl880_create_cursor for a non-null description; whether a cursor came into being. */
  function Create(w: World, d: Desc, cursorMem: bool, nodeMem: bool): (World, bool) {
    if !Acceptable(d) || !cursorMem then (w, false)
    else
      var (blocks, tracker, addr, card) := Claim(w.blocks, w.tracker, nodeMem);
      if addr == 0 then (World(w.cursors, w.made + 1, blocks, tracker), false)
      else (World([NewCursor(d, addr, card, NewId(w.made + 1))] + w.cursors, w.made + 1, blocks, tracker), true)
  }

  /** tl880_delete_cursor for the i-th listed cursor. */
  function Delete(w: World, i: nat): World
    requires i < |w.cursors|
  {
    var a := w.cursors[i].osdAddr;
    w.(cursors := Without(w.cursors, i),
       blocks := if a > 0 then Deallocate(w.blocks, a).0 else w.blocks)
  }

  /** tl880_delete_cursor_list. */
  function DeleteAll(w: World): (r: World)
    decreases |w.cursors|
  {
    if w.cursors == [] then w else DeleteAll(Delete(w, 0))
  }

  /** tl880_find_cursor: the first cursor with this handle, or the length of the list. */
  function FindCursor(cursors: seq<Cursor>, handle: nat): (i: nat)
    ensures i <= |cursors|
    ensures i < |cursors| ==> cursors[i].handle == handle
    ensures forall j :: 0 <= j < i ==> cursors[j].handle != handle
  {
    if cursors == [] || cursors[0].handle == handle then 0 else 1 + FindCursor(cursors[1..], handle)
  }

  // ---------- runs ----------

  datatype Op =
    | Make(desc: Desc, cursorMem: bool, nodeMem: bool)
    | Drop(which: nat)
    | DropAll

  function Step(w: World, op: Op): World {
    match op
    case Make(d, cursorMem, nodeMem) => Create(w, d, cursorMem, nodeMem).0
    case Drop(i) => if i < |w.cursors| then Delete(w, i) else w
    case DropAll => DeleteAll(w)
  }

  function Run(w: World, ops: seq<Op>): World
    decreases |ops|
  {
    if ops == [] then w else Run(Step(w, ops[0]), ops[1..])
  }

  // ---------- the invariant ----------

  function Addrs(cursors: seq<Cursor>): set<nat> {
    set c | c in cursors :: c.osdAddr
  }

  function Live(cursors: seq<Cursor>): map<nat, OsdRuns.Claim> {
    map a | a in Addrs(cursors) :: OsdRuns.Claim(BYTES, ALIGN)
  }

  /** The overlay memory that the listed cursors account for. */
  function Memory(w: World): OsdRuns.State {
    OsdRuns.State(w.blocks, w.tracker, Live(w.cursors))
  }

  predicate Distinct(cursors: seq<Cursor>) {
    forall i, j :: 0 <= i < j < |cursors| ==> cursors[i].osdAddr != cursors[j].osdAddr
  }

  /** The cursors, and only they, hold overlay memory; each knows its card address. */
  ghost predicate Inv(w: World, from: nat, to: nat, delta: int) {
    && OsdRuns.Inv(Memory(w), from, to, delta)
    && from + delta >= 0
    && Distinct(w.cursors)
    && forall i :: 0 <= i < |w.cursors| ==> w.cursors[i].cardAddr == w.cursors[i].osdAddr + delta
  }

  /** Listed cursors and active blocks correspond one to one. */
  lemma {:induction false} CursorsMatchBlocks(w: World, from: nat, to: nat, delta: int)
    requires Inv(w, from, to, delta)
    ensures forall c :: c in w.cursors ==>
              exists b :: Active(w.blocks, b) && b.Addr() == c.osdAddr && b.field0 + BYTES <= b.size
    ensures forall b :: Active(w.blocks, b) ==>
              exists i :: 0 <= i < |w.cursors| && w.cursors[i].osdAddr == b.Addr()
    ensures forall b, d :: Active(w.blocks, b) && Active(w.blocks, d) && b.Addr() == d.Addr() ==> b == d
    ensures forall c :: c in w.cursors ==> c.osdAddr % 0x10 == 0
  {
    forall c | c in w.cursors ensures c.osdAddr % 0x10 == 0 {
      CursorIsAligned(w, from, to, delta, c);
    }
    forall c | c in w.cursors
      ensures exists b :: Active(w.blocks, b) && b.Addr() == c.osdAddr && b.field0 + BYTES <= b.size
    {
      assert c.osdAddr in Memory(w).live;
      var b :| Active(w.blocks, b) && b.Addr() == c.osdAddr;
      assert b.field0 + BYTES <= b.size;
    }
    forall b | Active(w.blocks, b) ensures exists i :: 0 <= i < |w.cursors| && w.cursors[i].osdAddr == b.Addr() {
      assert b.Addr() in Memory(w).live;
      var c :| c in w.cursors && c.osdAddr == b.Addr();
      var i :| 0 <= i < |w.cursors| && w.cursors[i] == c;
    }
    forall b, d | Active(w.blocks, b) && Active(w.blocks, d) && b.Addr() == d.Addr() ensures b == d {
      AddrNamesBlock(w.blocks, from, to, delta, b, d);
    }
  }

  lemma CursorIsAligned(w: World, from: nat, to: nat, delta: int, c: Cursor)
    requires Inv(w, from, to, delta) && c in w.cursors
    ensures c.osdAddr % 0x10 == 0
  {
    assert c.osdAddr in Memory(w).live;
    var b :| Active(w.blocks, b) && b.Addr() == c.osdAddr;
    assert Meets(b, Memory(w).live[b.Addr()]);
    assert Pow2(4) == 0x10;
    AlignedIff(c.osdAddr, 4);
  }

  // ---------- each step keeps it ----------

  /** The address of an active block is found by get_osdmem_offset, delta further on. */
  lemma {:induction false} OffsetOfActive(s: seq<Block>, from: nat, to: nat, delta: int, i: nat)
    requires s != [] ==> Tiles(s, from, to)
    requires AllGood(s, delta) && i < |s| && s[i].active
    ensures Offset(s, s[i].Addr()) == s[i].Addr() + delta
  {
    assert Good(s[0], delta) && Good(s[i], delta);
    if i > 0 {
      TilesInOrder(s, from, to, 0, i);
      OffsetOfActive(s[1..], from + s[0].size, to, delta, i - 1);
    }
  }

  /** An address that is no active block's, one already given back included, is not found. */
  lemma {:induction false} OffsetOfNone(s: seq<Block>, addr: nat)
    requires forall i :: 0 <= i < |s| && s[i].active ==> s[i].Addr() != addr
    ensures Offset(s, addr) == -1
  {
    if s != [] {
      assert s[0].active ==> s[0].Addr() != addr;
      OffsetOfNone(s[1..], addr);
    }
  }

  /** An address handed out belongs to an active block, so its card address is found. */
  lemma {:induction false} HandedOut(m: OsdRuns.State, from: nat, to: nat, delta: int, nodeMem: bool)
    requires OsdRuns.Inv(m, from, to, delta)
    requires Allocate(m.blocks, m.tracker, BYTES, ALIGN, nodeMem).addr != 0
    ensures var r := Allocate(m.blocks, m.tracker, BYTES, ALIGN, nodeMem);
            r.addr >= from && Offset(r.blocks, r.addr) == r.addr + delta
  {
    var r := Allocate(m.blocks, m.tracker, BYTES, ALIGN, nodeMem);
    var n := OsdRuns.Step(m, Request(BYTES, ALIGN, nodeMem));
    StepKeepsInv(m, from, to, delta, Request(BYTES, ALIGN, nodeMem));
    LiveIsActive(n, from, to, delta, r.addr);
  }

  /** The block that a live address belongs to. */
  lemma OwnerOf(m: OsdRuns.State, from: nat, to: nat, delta: int, a: nat) returns (i: nat)
    requires OsdRuns.Inv(m, from, to, delta) && a in m.live
    ensures i < |m.blocks| && m.blocks[i].active && m.blocks[i].Addr() == a
    ensures from <= m.blocks[i].virt <= a < m.blocks[i].End()
  {
    var b :| Active(m.blocks, b) && b.Addr() == a;
    i :| 0 <= i < |m.blocks| && m.blocks[i] == b;
    TilesBounds(m.blocks, from, to, i);
    assert Good(m.blocks[i], delta);
  }

  lemma {:induction false} LiveIsActive(m: OsdRuns.State, from: nat, to: nat, delta: int, a: nat)
    requires OsdRuns.Inv(m, from, to, delta) && a in m.live
    ensures a >= from && Offset(m.blocks, a) == a + delta
  {
    var i := OwnerOf(m, from, to, delta, a);
    OffsetOfActive(m.blocks, from, to, delta, i);
  }

  lemma {:induction false} MakeKeeps(w: World, from: nat, to: nat, delta: int, d: Desc, cursorMem: bool, nodeMem: bool)
    requires Inv(w, from, to, delta)
    ensures Inv(Create(w, d, cursorMem, nodeMem).0, from, to, delta)
  {
    if Acceptable(d) && cursorMem {
      var op := Request(BYTES, ALIGN, nodeMem);
      StepKeepsInv(Memory(w), from, to, delta, op);
      MadeBy(w, OsdRuns.Step(Memory(w), op), from, to, delta, d, nodeMem);
    }
  }

  lemma {:induction false} MadeBy(w: World, m: OsdRuns.State, from: nat, to: nat, delta: int, d: Desc, nodeMem: bool)
    requires Inv(w, from, to, delta) && OsdRuns.Inv(m, from, to, delta) && Acceptable(d)
    requires m == OsdRuns.Step(Memory(w), Request(BYTES, ALIGN, nodeMem))
    ensures Inv(Create(w, d, true, nodeMem).0, from, to, delta)
  {
    var r := Allocate(w.blocks, w.tracker, BYTES, ALIGN, nodeMem);
    var w' := Create(w, d, true, nodeMem).0;
    if r.addr == 0 {
      assert Memory(w') == m;
    } else {
      HandedOut(Memory(w), from, to, delta, nodeMem);
      FreshAddress(w, from, to, delta, nodeMem);
      var c := NewCursor(d, r.addr, r.addr + delta, NewId(w.made + 1));
      assert w' == World([c] + w.cursors, w.made + 1, m.blocks, m.tracker);
      ListedBy(w, m, c, from, to, delta);
    }
  }

  /** Listing a cursor for a newly live address keeps the correspondence. */
  lemma {:induction false} ListedBy(w: World, m: OsdRuns.State, c: Cursor, from: nat, to: nat, delta: int)
    requires Inv(w, from, to, delta) && OsdRuns.Inv(m, from, to, delta)
    requires m.live == Memory(w).live[c.osdAddr := OsdRuns.Claim(BYTES, ALIGN)] && c.osdAddr !in Addrs(w.cursors)
    requires c.cardAddr == c.osdAddr + delta
    ensures Inv(World([c] + w.cursors, w.made + 1, m.blocks, m.tracker), from, to, delta)
  {
    var w' := World([c] + w.cursors, w.made + 1, m.blocks, m.tracker);
    forall x ensures x in Addrs(w'.cursors) <==> x in Addrs(w.cursors) || x == c.osdAddr {
      if x in Addrs(w.cursors) {
        var e :| e in w.cursors && e.osdAddr == x;
        assert e in w'.cursors;
      }
      assert c in w'.cursors;
    }
    assert Memory(w').live == m.live;
    assert forall i :: 0 < i < |w'.cursors| ==> w'.cursors[i] == w.cursors[i - 1] && w.cursors[i - 1] in w.cursors;
  }

  /** An address just handed out is no listed cursor's. */
  lemma {:induction false} FreshAddress(w: World, from: nat, to: nat, delta: int, nodeMem: bool)
    requires Inv(w, from, to, delta)
    requires Allocate(w.blocks, w.tracker, BYTES, ALIGN, nodeMem).addr != 0
    ensures Allocate(w.blocks, w.tracker, BYTES, ALIGN, nodeMem).addr !in Addrs(w.cursors)
  {
    hide AlignUp, Compact, Good;
    var c := Compact(w.blocks);
    CompactKeeps(w.blocks, from, to, delta);
    TidyKeeps(Memory(w), from, to, delta);
    var need := BYTES + (ALIGN - 1);
    var f := Find(c, need, true);
    var i := if f < |c| then f else Find(c, need, false);
    var a := AlignUp(c[i].virt, ALIGN);
    if a in Addrs(w.cursors) {
      var j := OwnerOf(Memory(w).(blocks := c), from, to, delta, a);
      SameBlock(c, from, to, i, j, a);
    }
  }

  lemma {:induction false} DropKeeps(w: World, from: nat, to: nat, delta: int, i: nat)
    requires Inv(w, from, to, delta) && i < |w.cursors|
    ensures Inv(Delete(w, i), from, to, delta)
    ensures Delete(w, i).blocks[0].id == w.blocks[0].id
  {
    var a := w.cursors[i].osdAddr;
    assert w.cursors[i] in w.cursors && a in Memory(w).live;
    LiveIsActive(Memory(w), from, to, delta, a);
    StepKeepsInv(Memory(w), from, to, delta, OsdRuns.GiveBack(a));
    var m := OsdRuns.Step(Memory(w), OsdRuns.GiveBack(a));
    var w' := Delete(w, i);
    UnlistedBy(w, m, i, from, to, delta);
    assert w' == World(Without(w.cursors, i), w.made, m.blocks, m.tracker);
  }

  lemma {:induction false} UnlistedBy(w: World, m: OsdRuns.State, i: nat, from: nat, to: nat, delta: int)
    requires Inv(w, from, to, delta) && OsdRuns.Inv(m, from, to, delta) && i < |w.cursors|
    requires m.live == Live(w.cursors) - {w.cursors[i].osdAddr}
    ensures Inv(World(Without(w.cursors, i), w.made, m.blocks, m.tracker), from, to, delta)
  {
    hide OsdRuns.Inv, Live, Without;
    var rest := RemoveAt(w.cursors, i);
    LiveWithout(w.cursors, i);
    assert Memory(World(rest, w.made, m.blocks, m.tracker)) == m;
  }

  lemma LiveWithout(cursors: seq<Cursor>, i: nat)
    requires Distinct(cursors) && i < |cursors|
    ensures Live(Without(cursors, i)) == Live(cursors) - {cursors[i].osdAddr}
  {
    hide Addrs, Distinct;
    AddrsWithout(cursors, i);
  }

  lemma AddrsWithout(cursors: seq<Cursor>, i: nat)
    requires Distinct(cursors) && i < |cursors|
    ensures Addrs(Without(cursors, i)) == Addrs(cursors) - {cursors[i].osdAddr}
  {
    var rest := Without(cursors, i);
    forall x ensures x in Addrs(rest) <==> x in Addrs(cursors) && x != cursors[i].osdAddr {
      if x in Addrs(cursors) && x != cursors[i].osdAddr {
        var j :| 0 <= j < |cursors| && cursors[j].osdAddr == x;
        assert rest[if j < i then j else j - 1] == cursors[j];
      }
      if x in Addrs(rest) {
        var j :| 0 <= j < |rest| && rest[j].osdAddr == x;
        assert cursors[if j < i then j else j + 1].osdAddr == x;
      }
    }
  }

  lemma {:induction false} DropAllKeeps(w: World, from: nat, to: nat, delta: int)
    requires Inv(w, from, to, delta)
    ensures Inv(DeleteAll(w), from, to, delta) && DeleteAll(w).cursors == []
    ensures DeleteAll(w).blocks[0].id == w.blocks[0].id
    decreases |w.cursors|
  {
    if w.cursors != [] {
      DropKeeps(w, from, to, delta, 0);
      DropAllKeeps(Delete(w, 0), from, to, delta);
    }
  }

  lemma {:induction false} StepKeepsCursors(w: World, from: nat, to: nat, delta: int, op: Op)
    requires Inv(w, from, to, delta)
    ensures Inv(Step(w, op), from, to, delta) && Step(w, op).blocks[0].id == w.blocks[0].id
  {
    match op {
      case Make(d, cursorMem, nodeMem) =>
        MakeKeeps(w, from, to, delta, d, cursorMem, nodeMem);
        ClaimKeepsHead(w, from, to, delta, nodeMem);
      case Drop(i) => if i < |w.cursors| { DropKeeps(w, from, to, delta, i); }
      case DropAll => DropAllKeeps(w, from, to, delta);
    }
  }

  lemma {:induction false} ClaimKeepsHead(w: World, from: nat, to: nat, delta: int, nodeMem: bool)
    requires Inv(w, from, to, delta)
    ensures Claim(w.blocks, w.tracker, nodeMem).0 != [] && Claim(w.blocks, w.tracker, nodeMem).0[0].id == w.blocks[0].id
  {
    AllocateKeeps(w.blocks, from, to, delta, w.tracker, BYTES, ALIGN, nodeMem);
  }

  /** With cursors as the only users of overlay memory, every run keeps cursors and active blocks
      in correspondence, and the head block's identity. */
  lemma {:induction false} RunKeepsCursors(w: World, from: nat, to: nat, delta: int, ops: seq<Op>)
    requires Inv(w, from, to, delta)
    ensures Inv(Run(w, ops), from, to, delta) && Run(w, ops).blocks[0].id == w.blocks[0].id
    decreases |ops|
  {
    if ops != [] {
      StepKeepsCursors(w, from, to, delta, ops[0]);
      RunKeepsCursors(Step(w, ops[0]), from, to, delta, ops[1..]);
    }
  }

  // ---------- what follows ----------

  /** A creation that fails leaves every cursor, every active block and every free byte as it was. */
  lemma {:induction false} FailureLeaksNothing(w: World, from: nat, to: nat, delta: int,
                                               d: Desc, cursorMem: bool, nodeMem: bool, a: nat)
    requires Inv(w, from, to, delta) && !Create(w, d, cursorMem, nodeMem).1
    ensures var w' := Create(w, d, cursorMem, nodeMem).0;
            && w'.cursors == w.cursors
            && Actives(w'.blocks) == Actives(w.blocks)
            && (FreeAt(w'.blocks, a) <==> FreeAt(w.blocks, a))
  {
    CreatesUnlessRefused(w, from, to, delta, d, cursorMem, nodeMem);
    CompactKeeps(w.blocks, from, to, delta);
    CompactKeepsFreeBytes(w.blocks, from, to, a);
    if Acceptable(d) && cursorMem {
      RefusalOnlyCompacts(w.blocks, from, to, delta, w.tracker, BYTES, ALIGN, nodeMem);
    }
  }

  /** A creation succeeds exactly when its description is acceptable and nothing it allocates is
      refused; the check on the card address never fails it. */
  lemma {:induction false} CreatesUnlessRefused(w: World, from: nat, to: nat, delta: int,
                                                d: Desc, cursorMem: bool, nodeMem: bool)
    requires Inv(w, from, to, delta)
    ensures Create(w, d, cursorMem, nodeMem).1 <==>
            Acceptable(d) && cursorMem && Allocate(w.blocks, w.tracker, BYTES, ALIGN, nodeMem).addr != 0
  {
    if Allocate(w.blocks, w.tracker, BYTES, ALIGN, nodeMem).addr != 0 {
      HandedOut(Memory(w), from, to, delta, nodeMem);
    }
  }

  /** A cursor that came into being is the head of the list, which is otherwise as before; it carries
      the description's values, a scale of 4 as 0, and is what a search for its handle finds. Its 0x200
      bytes are those of the allocation, on a multiple of 0x10, at the same place on the card. */
  lemma {:induction false} MadeAsDescribed(w: World, from: nat, to: nat, delta: int,
                                           d: Desc, cursorMem: bool, nodeMem: bool)
    requires Inv(w, from, to, delta) && Create(w, d, cursorMem, nodeMem).1
    ensures var w' := Create(w, d, cursorMem, nodeMem).0;
            && |w'.cursors| == |w.cursors| + 1 && w'.cursors[1..] == w.cursors && w'.made == w.made + 1
            && FindCursor(w'.cursors, d.field0) == 0
            && var c := w'.cursors[0];
               && c.hsize == d.field4 && c.vsize == d.field8 && c.width == 32 && c.height == 32
               && c.hscale == (if d.field14 == 4 then 0 else d.field14)
               && c.vscale == (if d.field16 == 4 then 0 else d.field16)
               && c.id == 0x52300000 + (w.made + 1) % 0x100000
               && c.osdAddr == Allocate(w.blocks, w.tracker, 0x200, 0x10, nodeMem).addr
               && c.cardAddr == c.osdAddr + delta
  {
    hide Allocate, Offset, Deallocate, OsdRuns.Inv;
    CreatesUnlessRefused(w, from, to, delta, d, cursorMem, nodeMem);
    HandedOut(Memory(w), from, to, delta, nodeMem);
  }

  /** With memory for its records, an acceptable cursor is refused exactly when overlay memory has
      no 0x20f free bytes in a row. */
  lemma {:induction false} CreatesIffRoom(w: World, from: nat, to: nat, delta: int, d: Desc)
    requires Inv(w, from, to, delta)
    ensures Create(w, d, true, true).1 <==>
              && d.field18 == 0x1c && d.width == 32 && d.height == 32 && 1 <= d.field14 <= 4
              && HasFreeRun(w.blocks, 0x20f)
  {
    CreatesUnlessRefused(w, from, to, delta, d, true, true);
    AllocateIsComplete(w.blocks, from, to, delta, w.tracker, BYTES, ALIGN);
  }

  /** Deleting the whole cursor list and compacting gives back the one free block the region
      started as, its id included. */
  lemma {:induction false} DeleteAllRestores(w: World, from: nat, len: nat, delta: int)
    requires Inv(w, from, from + len, delta)
    ensures Compact(DeleteAll(w).blocks) ==
            [Block(0, from, from + delta, len, false, w.blocks[0].id)]
  {
    DropAllKeeps(w, from, from + len, delta);
    var s := DeleteAll(w).blocks;
    if Actives(s) != [] {
      ActivesAreActive(s, Actives(s)[0]);
    }
    AllFreeIsOneBlock(s, from, len, delta);
  }

  /** No cursor yet, over the overlay list as tl880_init_osdmem leaves it. */
  function Begin(tracker: nat, virt: nat, phys: nat): World {
    World([], 0, Init(tracker, virt, phys), tracker + 1)
  }

  lemma BeginIsSound(tracker: nat, virt: nat, phys: nat)
    requires virt > 0
    ensures Inv(Begin(tracker, virt, phys), virt, virt + REGION, phys - virt)
  {
    InitIsSound(tracker, virt, phys);
    assert Memory(Begin(tracker, virt, phys)) == Start(tracker, virt, phys);
  }

  /** Whatever was created and deleted since tl880_init_osdmem ran, deleting the cursor list and
      compacting leaves overlay memory as tl880_init_osdmem made it. */
  lemma EveryRunCanBeUndone(tracker: nat, virt: nat, phys: nat, ops: seq<Op>)
    requires virt > 0
    ensures Compact(DeleteAll(Run(Begin(tracker, virt, phys), ops)).blocks) == Init(tracker, virt, phys)
  {
    hide Init, Run, DeleteAll, Compact;
    BeginIsSound(tracker, virt, phys);
    RunKeepsCursors(Begin(tracker, virt, phys), virt, virt + REGION, phys - virt, ops);
    DeleteAllRestores(Run(Begin(tracker, virt, phys), ops), virt, REGION, phys - virt);
    InitBlock(tracker, virt, phys);
  }

  lemma InitBlock(tracker: nat, virt: nat, phys: nat)
    ensures Init(tracker, virt, phys) == [Block(0, virt, phys, REGION, false, Init(tracker, virt, phys)[0].id)]
  {}

  /** Until tl880_init_osdmem has run no cursor can be made, and overlay memory stays empty. */
  lemma {:induction false} NoCursorsBeforeInit(w: World, ops: seq<Op>)
    requires w.blocks == [] && w.cursors == []
    ensures Run(w, ops).blocks == [] && Run(w, ops).cursors == [] && Run(w, ops).tracker == w.tracker
    decreases |ops|
  {
    if ops != [] {
      NothingBeforeInit(w.tracker, BYTES, ALIGN, ops[0].Make? && ops[0].nodeMem, 0);
      NoCursorsBeforeInit(Step(w, ops[0]), ops[1..]);
    }
  }
}
