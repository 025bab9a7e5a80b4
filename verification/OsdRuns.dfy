/** Whole runs of the overlay-memory list: requests never share a byte, whatever is allocated,
    given back and compacted in whatever order. */
module OsdRuns {
  import opened Words
  import opened OsdSpec
  import opened OsdLaws

  /** What was asked for. */
  datatype Claim = Claim(size: nat, align: nat)

  /** live maps each address handed out and not yet given back to the request it answers. */
  datatype State = State(blocks: seq<Block>, tracker: nat, live: map<nat, Claim>)

  datatype Op =
    | Request(size: nat, align: nat, kmallocOk: bool)
    | GiveBack(addr: nat)
    | Tidy

  predicate Legal(op: Op) {
    op.Request? ==> op.size > 0 && op.align > 0
  }

  function Step(st: State, op: Op): State
    requires Legal(op)
  {
    match op
    case Request(size, align, kmallocOk) =>
      var r := Allocate(st.blocks, st.tracker, size, align, kmallocOk);
      State(r.blocks, r.tracker, if r.addr == 0 then st.live else st.live[r.addr := Claim(size, align)])
    case GiveBack(addr) => st.(blocks := Deallocate(st.blocks, addr).0, live := st.live - {addr})
    case Tidy => st.(blocks := Compact(st.blocks))
  }

  function Run(st: State, ops: seq<Op>): State
    requires forall i :: 0 <= i < |ops| ==> Legal(ops[i])
    decreases |ops|
  {
    if ops == [] then st else Run(Step(st, ops[0]), ops[1..])
  }

  predicate Active(s: seq<Block>, b: Block) {
    b in s && b.active
  }

  /** The claim's bytes lie in the block behind its address, which is aligned as asked. */
  predicate Meets(b: Block, c: Claim) {
    0 < c.size && b.field0 + c.size <= b.size && 0 < c.align && Aligned(b.Addr(), c.align)
  }

  /** Each active block serves one live request, and each live request has its block. */
  ghost predicate Serves(s: seq<Block>, live: map<nat, Claim>) {
    && (forall b :: Active(s, b) ==> b.Addr() in live && Meets(b, live[b.Addr()]))
    && (forall a :: a in live ==> exists b :: Active(s, b) && b.Addr() == a)
  }

  ghost predicate Inv(st: State, from: nat, to: nat, delta: int) {
    Osd(st.blocks, from, to, delta) && from > 0 && Serves(st.blocks, st.live)
  }

  lemma {:induction false} ActivesAreActive(s: seq<Block>, b: Block)
    ensures Active(s, b) <==> b in Actives(s)
  {
    if s != [] { ActivesAreActive(s[1..], b); }
  }

  lemma {:induction false} CompactKeepsActive(s: seq<Block>, from: nat, to: nat, delta: int, b: Block)
    requires Osd(s, from, to, delta)
    ensures Active(Compact(s), b) <==> Active(s, b)
  {
    CompactKeeps(s, from, to, delta);
    ActivesAreActive(s, b);
    ActivesAreActive(Compact(s), b);
  }

  /** Different blocks have different addresses. */
  lemma AddrNamesBlock(s: seq<Block>, from: nat, to: nat, delta: int, b: Block, c: Block)
    requires Osd(s, from, to, delta) && b in s && c in s && b.Addr() == c.Addr()
    ensures b == c
  {
    var i :| 0 <= i < |s| && s[i] == b;
    var j :| 0 <= j < |s| && s[j] == c;
    assert Good(s[i], delta) && Good(s[j], delta);
    SameBlock(s, from, to, i, j, b.Addr());
  }

  lemma {:induction false} TidyKeeps(st: State, from: nat, to: nat, delta: int)
    requires Inv(st, from, to, delta)
    ensures Inv(st.(blocks := Compact(st.blocks)), from, to, delta)
  {
    CompactKeeps(st.blocks, from, to, delta);
    forall b ensures Active(Compact(st.blocks), b) <==> Active(st.blocks, b) {
      CompactKeepsActive(st.blocks, from, to, delta, b);
    }
  }

  /** Handing out a free block, cut to size or not, adds its address to the live ones. */
  lemma {:induction false} HandOutServes(c: seq<Block>, t: seq<Block>, from: nat, to: nat, delta: int,
                                         i: nat, g: Block, live: map<nat, Claim>, claim: Claim)
    requires Osd(t, from, to, delta) && Serves(c, live) && i < |c| && !c[i].active
    requires g in t && g.active && Meets(g, claim)
    requires forall b :: Active(t, b) <==> Active(c, b) || b == g
    ensures Serves(t, live[g.Addr() := claim])
  {
    forall b | Active(t, b) && b != g ensures b.Addr() != g.Addr() {
      if b.Addr() == g.Addr() { AddrNamesBlock(t, from, to, delta, b, g); }
    }
    var live' := live[g.Addr() := claim];
    forall a | a in live' ensures exists b :: Active(t, b) && b.Addr() == a {
      if a == g.Addr() {
        assert Active(t, g);
      } else {
        var b :| Active(c, b) && b.Addr() == a;
        assert Active(t, b);
      }
    }
  }

  lemma {:induction false} ServeKeepsServing(c: seq<Block>, from: nat, to: nat, delta: int, tracker: nat,
                                             live: map<nat, Claim>, size: nat, align: nat, kmallocOk: bool)
    requires Osd(c, from, to, delta) && from > 0 && Serves(c, live) && size > 0 && align > 0
    ensures var r := Serve(c, tracker, size + (align - 1), align, kmallocOk);
            Serves(r.blocks, if r.addr == 0 then live else live[r.addr := Claim(size, align)])
  {
    var need := size + (align - 1);
    var f := Find(c, need, true);
    var j := Find(c, need, false);
    if f < |c| {
      GrabServes(c, from, to, delta, f, live, size, align);
      TilesBounds(c, from, to, f);
    } else if j < |c| && kmallocOk {
      SplitServes(c, from, to, delta, j, tracker + 1, live, size, align);
      TilesBounds(c, from, to, j);
    }
  }

  lemma {:induction false} GrabServes(c: seq<Block>, from: nat, to: nat, delta: int, f: nat,
                                      live: map<nat, Claim>, size: nat, align: nat)
    requires Osd(c, from, to, delta) && Serves(c, live) && size > 0 && align > 0
    requires f < |c| && Suits(c[f], size + (align - 1), true)
    ensures Serves(c[f := Grab(c[f], align)], live[AlignUp(c[f].virt, align) := Claim(size, align)])
  {
    var g := Grab(c[f], align);
    var t := c[f := g];
    assert t[f] == g;
    GrabKeeps(c, from, to, delta, f, align);
    forall b ensures Active(t, b) <==> Active(c, b) || b == g { ActiveAfterUpdate(c, f, g, b); }
    AlignUpIsAligned(c[f].virt, align);
    HandOutServes(c, t, from, to, delta, f, g, live, Claim(size, align));
  }

  lemma {:induction false} SplitServes(c: seq<Block>, from: nat, to: nat, delta: int, j: nat, tracker: nat,
                                       live: map<nat, Claim>, size: nat, align: nat)
    requires Osd(c, from, to, delta) && Serves(c, live) && size > 0 && align > 0
    requires j < |c| && Suits(c[j], size + (align - 1), false)
    ensures Serves(Split(c, j, size + (align - 1), align, tracker),
                   live[AlignUp(c[j].virt, align) := Claim(size, align)])
  {
    hide AlignUp;
    var need := size + (align - 1);
    var g := Grab(c[j].(size := need), align);
    var t := Split(c, j, need, align, tracker);
    assert t[j] == g;
    SplitKeeps(c, from, to, delta, j, need, align, tracker);
    forall b ensures Active(t, b) <==> Active(c, b) || b == g {
      ActiveAfterSplit(c, j, need, align, tracker, b);
    }
    AlignUpIsAligned(c[j].virt, align);
    HandOutServes(c, t, from, to, delta, j, g, live, Claim(size, align));
  }

  lemma ActiveAfterUpdate(c: seq<Block>, i: nat, g: Block, b: Block)
    requires i < |c| && !c[i].active && g.active
    ensures Active(c[i := g], b) <==> Active(c, b) || b == g
  {
    var t := c[i := g];
    assert t[i] == g;
    if Active(c, b) {
      var k :| 0 <= k < |c| && c[k] == b;
      assert t[k] == b;
    }
  }

  lemma ActiveAfterSplit(c: seq<Block>, j: nat, need: nat, align: nat, tracker: nat, b: Block)
    requires j < |c| && !c[j].active && align > 0 && need <= c[j].size
    ensures Active(Split(c, j, need, align, tracker), b) <==>
            Active(c, b) || b == Grab(c[j].(size := need), align)
  {
    var d := c[j := Grab(c[j].(size := need), align)];
    ActiveAfterUpdate(c, j, Grab(c[j].(size := need), align), b);
    var rest := Rest(c[j], need, tracker);
    var t := Split(c, j, need, align, tracker);
    assert t == d[..j + 1] + [rest] + d[j + 1..];
    assert b in d <==> b in d[..j + 1] || b in d[j + 1..] by { assert d == d[..j + 1] + d[j + 1..]; }
  }

  lemma {:induction false} GiveBackKeeps(st: State, from: nat, to: nat, delta: int, addr: nat)
    requires Inv(st, from, to, delta)
    ensures Inv(Step(st, GiveBack(addr)), from, to, delta)
    ensures addr in st.live ==> Deallocate(st.blocks, addr).1
  {
    var s := st.blocks;
    var i := FindAddr(s, addr);
    if i < |s| {
      assert Good(s[i], delta);
      var f := s[i].(active := false, field0 := 0);
      var t := s[i := f];
      assert t == s[..i] + [f] + s[i + 1..];
      TilesBounds(s, from, to, i);
      TilesReplace(s, from, to, i, [f]);
      ReleaseServes(s, t, from, to, delta, i, st.live);
    } else {
      assert addr !in st.live;
    }
    assert addr in st.live ==> i < |s|;
  }

  lemma {:induction false} ReleaseServes(s: seq<Block>, t: seq<Block>, from: nat, to: nat, delta: int,
                                         i: nat, live: map<nat, Claim>)
    requires Osd(s, from, to, delta) && Serves(s, live) && i < |s|
    requires t == s[i := s[i].(active := false, field0 := 0)]
    ensures Serves(t, live - {s[i].Addr()})
  {
    forall b | Active(t, b) ensures Active(s, b) && b.Addr() != s[i].Addr() {
      var k :| 0 <= k < |t| && t[k] == b;
      assert s[k] == b;
      if b.Addr() == s[i].Addr() {
        assert Good(s[k], delta) && Good(s[i], delta);
        SameBlock(s, from, to, k, i, b.Addr());
      }
    }
    forall a | a in live && a != s[i].Addr() ensures exists b :: Active(t, b) && b.Addr() == a {
      var b :| Active(s, b) && b.Addr() == a;
      var k :| 0 <= k < |s| && s[k] == b;
      assert t[k] == b;
    }
  }

  lemma {:induction false} RequestKeeps(st: State, from: nat, to: nat, delta: int,
                                        size: nat, align: nat, kmallocOk: bool)
    requires Inv(st, from, to, delta) && size > 0 && align > 0
    ensures Inv(Step(st, Request(size, align, kmallocOk)), from, to, delta)
    ensures Step(st, Request(size, align, kmallocOk)).blocks[0].id == st.blocks[0].id
  {
    AllocateKeeps(st.blocks, from, to, delta, st.tracker, size, align, kmallocOk);
    CompactKeeps(st.blocks, from, to, delta);
    TidyKeeps(st, from, to, delta);
    ServeKeepsServing(Compact(st.blocks), from, to, delta, st.tracker, st.live, size, align, kmallocOk);
  }

  lemma {:induction false} StepKeepsInv(st: State, from: nat, to: nat, delta: int, op: Op)
    requires Inv(st, from, to, delta) && Legal(op)
    ensures Inv(Step(st, op), from, to, delta)
    ensures Step(st, op).blocks[0].id == st.blocks[0].id
  {
    match op {
      case Request(size, align, kmallocOk) =>
        RequestKeeps(st, from, to, delta, size, align, kmallocOk);
      case GiveBack(addr) =>
        GiveBackKeeps(st, from, to, delta, addr);
      case Tidy =>
        CompactKeeps(st.blocks, from, to, delta);
        TidyKeeps(st, from, to, delta);
    }
  }

  /** Every run keeps the list sound and every live request served. */
  lemma {:induction false} RunKeepsInv(st: State, from: nat, to: nat, delta: int, ops: seq<Op>)
    requires Inv(st, from, to, delta) && forall i :: 0 <= i < |ops| ==> Legal(ops[i])
    ensures Inv(Run(st, ops), from, to, delta)
    ensures Run(st, ops).blocks[0].id == st.blocks[0].id
    decreases |ops|
  {
    if ops != [] {
      StepKeepsInv(st, from, to, delta, ops[0]);
      RunKeepsInv(Step(st, ops[0]), from, to, delta, ops[1..]);
    }
  }

  const REGION: nat := 0x1000000

  /** The list as tl880_init_osdmem leaves it. */
  function Start(tracker: nat, virt: nat, phys: nat): State {
    State(Init(tracker, virt, phys), tracker + 1, map[])
  }

  /** It is sound, with nothing live: one free block of 16 MB at the given base, under the next id. */
  lemma InitIsSound(tracker: nat, virt: nat, phys: nat)
    requires virt > 0
    ensures Init(tracker, virt, phys) ==
            [Block(0, virt, phys, 0x1000000, false, 0x52300000 + (tracker + 1) % 0x100000)]
    ensures Inv(Start(tracker, virt, phys), virt, virt + REGION, phys - virt)
  {
    var s := Init(tracker, virt, phys);
    NewIdIsTagged(tracker + 1);
    assert Good(s[0], phys - virt);
    assert s[1..] == [] && Tiles(s[1..], virt + REGION, virt + REGION);
  }

  /** What the invariant means for the users of overlay memory: every live request's bytes lie in
      the region, aligned as asked, inside the block that answers it. */
  lemma {:induction false} LiveRequestInside(st: State, from: nat, to: nat, delta: int, a: nat) returns (i: nat)
    requires Inv(st, from, to, delta) && a in st.live
    ensures from <= a && a + st.live[a].size <= to
    ensures st.live[a].align > 0 && Aligned(a, st.live[a].align)
    ensures i < |st.blocks| && st.blocks[i].virt <= a && a + st.live[a].size <= st.blocks[i].End()
    ensures st.blocks[i].Addr() == a
  {
    var x :| Active(st.blocks, x) && x.Addr() == a;
    i :| 0 <= i < |st.blocks| && st.blocks[i] == x;
    TilesBounds(st.blocks, from, to, i);
  }

  /** And no two live requests share a byte. */
  lemma {:induction false} LiveRequestsAreApart(st: State, from: nat, to: nat, delta: int, a: nat, b: nat)
    requires Inv(st, from, to, delta) && a in st.live && b in st.live && a < b
    ensures from <= a && a + st.live[a].size <= b && b + st.live[b].size <= to
    ensures st.live[a].align > 0 && Aligned(a, st.live[a].align)
    ensures st.live[b].align > 0 && Aligned(b, st.live[b].align)
  {
    hide Aligned;
    var i := LiveRequestInside(st, from, to, delta, a);
    var j := LiveRequestInside(st, from, to, delta, b);
    if j < i { TilesInOrder(st.blocks, from, to, j, i); }
    if i < j { TilesInOrder(st.blocks, from, to, i, j); }
  }

  // ---------- requests for no bytes at all ----------

  predicate AllLegal(ops: seq<Op>) {
    forall i :: 0 <= i < |ops| ==> Legal(ops[i])
  }

  ghost predicate SoundAfter(st: State, size: nat, align: nat, virt: nat, phys: nat)
    requires align > 0
  {
    Osd(Allocate(st.blocks, st.tracker, size, align, true).blocks, virt, virt + REGION, phys - virt)
  }

  /** In every state the driver can reach with requests for at least one byte, a request of this
      size and alignment leaves a sound list. */
  ghost predicate KeepsReachable(tracker: nat, virt: nat, phys: nat, size: nat, align: nat)
    requires align > 0
  {
    forall ops: seq<Op> :: AllLegal(ops) ==> SoundAfter(Run(Start(tracker, virt, phys), ops), size, align, virt, phys)
  }

  /** A block at v would hand out the address align - 1 bytes on, where its first align - 1 bytes end. */
  predicate BadStart(virt: nat, align: nat, v: nat)
    requires align > 0
  {
    virt <= v < virt + REGION && v + (align - 1) <= virt + REGION && Aligned(v + (align - 1), align)
  }

  /** The source takes a request for 0 bytes like any other, but cuts a block of align - 1 bytes for
      it, and the address it returns can be that of the next block. So requests keep every reachable
      list sound exactly when they ask for at least one byte, or no block can lie where it matters. */
  lemma {:induction false} SoundIff(tracker: nat, virt: nat, phys: nat, size: nat, align: nat)
    requires virt > 0 && align > 0
    ensures KeepsReachable(tracker, virt, phys, size, align) <==>
            size > 0 || forall v: nat :: !BadStart(virt, align, v)
  {
    hide SoundAfter, BadStart;
    if size > 0 || forall v: nat :: !BadStart(virt, align, v) {
      forall ops: seq<Op> | AllLegal(ops)
        ensures SoundAfter(Run(Start(tracker, virt, phys), ops), size, align, virt, phys)
      {
        InitIsSound(tracker, virt, phys);
        RunKeepsInv(Start(tracker, virt, phys), virt, virt + REGION, phys - virt, ops);
        KeptUnlessBadStart(Run(Start(tracker, virt, phys), ops), virt, phys, size, align);
      }
    } else {
      var v: nat :| BadStart(virt, align, v);
      EmptyRequestBreaks(tracker, virt, phys, align, v);
    }
  }

  /** For powers of two up to 2^23 a block can always lie there: a positive size is exactly what
      soundness needs. */
  lemma {:induction false} SoundIffSizePositive(tracker: nat, virt: nat, phys: nat, size: nat, k: nat)
    requires virt > 0 && k <= 23
    ensures KeepsReachable(tracker, virt, phys, size, Pow2(k)) <==> size > 0
  {
    hide KeepsReachable;
    SoundIff(tracker, virt, phys, size, Pow2(k));
    var v := SomeBadStart(virt, k);
  }

  lemma {:induction false} Pow2Grows(j: nat, k: nat)
    requires j <= k
    ensures Pow2(j) <= Pow2(k)
  {
    if j < k { Pow2Grows(j, k - 1); }
  }

  lemma Pow2Of23()
    ensures Pow2(23) == 0x800000
  {
    assert Pow2(8) == 0x100;
    assert Pow2(16) == 0x10000;
  }

  /** The next number of the form q p + 1. */
  lemma NextAfterMultiple(x: nat, p: nat) returns (v: nat)
    requires p > 0
    ensures x <= v < x + p && (v + (p - 1)) % p == 0
  {
    var y := x + (p - 1);
    var q, r := y / p, y % p;
    var up := if r == 0 then q else q + 1;
    v := if r == 0 then x else x + (p - r);
    assert y == q * p + r && (q + 1) * p == q * p + p;
    ModUnique(v + (p - 1), p, up, 0);
  }

  lemma SomeBadStart(virt: nat, k: nat) returns (v: nat)
    requires k <= 23
    ensures BadStart(virt, Pow2(k), v)
  {
    hide Pow2, Aligned;
    Pow2Grows(k, 23);
    Pow2Of23();
    v := NextAfterMultiple(virt, Pow2(k));
    AlignedIff(v + (Pow2(k) - 1), k);
  }

  lemma {:induction false} KeptUnlessBadStart(st: State, virt: nat, phys: nat, size: nat, align: nat)
    requires Inv(st, virt, virt + REGION, phys - virt) && align > 0
    requires size > 0 || forall v: nat :: !BadStart(virt, align, v)
    ensures SoundAfter(st, size, align, virt, phys)
  {
    hide Osd, OsdSpec.Serve, OsdSpec.Compact, Serves, BadStart;
    var to, delta := virt + REGION, phys - virt;
    if size > 0 {
      AllocateKeeps(st.blocks, virt, to, delta, st.tracker, size, align, true);
    } else {
      CompactKeeps(st.blocks, virt, to, delta);
      EmptyServeKeeps(Compact(st.blocks), virt, delta, st.tracker, align);
    }
  }

  lemma NotBadMeansInside(virt: nat, align: nat, v: nat)
    requires align > 0 && virt <= v < virt + REGION && v + (align - 1) <= virt + REGION && !BadStart(virt, align, v)
    ensures align > 1 && AlignUp(v, align) < v + (align - 1)
  {}

  lemma {:induction false} EmptyServeKeeps(c: seq<Block>, virt: nat, delta: int, tracker: nat, align: nat)
    requires Osd(c, virt, virt + REGION, delta) && align > 0
    requires forall v: nat :: !BadStart(virt, align, v)
    ensures Osd(Serve(c, tracker, align - 1, align, true).blocks, virt, virt + REGION, delta)
  {
    hide AlignUp, BadStart;
    var f, j := Find(c, align - 1, true), Find(c, align - 1, false);
    var i := if f < |c| then f else j;
    if i < |c| {
      TilesBounds(c, virt, virt + REGION, i);
      NotBadMeansInside(virt, align, c[i].virt);
      if f < |c| {
        GrabKeeps(c, virt, virt + REGION, delta, f, align);
      } else {
        SplitKeeps(c, virt, virt + REGION, delta, j, align - 1, align, tracker + 1);
      }
    }
  }

  /** One request for at least one byte, or none, that leaves a free block at v and all below taken. */
  function UpTo(virt: nat, v: nat): seq<Op>
    requires virt <= v
  {
    if v == virt then [] else [Request(v - virt, 1, true)]
  }

  /** Once tl880_init_osdmem has run, UpTo and then a request for no bytes breaks the list. */
  lemma {:induction false} EmptyRequestBreaks(tracker: nat, virt: nat, phys: nat, align: nat, v: nat)
    requires align > 0 && BadStart(virt, align, v)
    ensures AllLegal(UpTo(virt, v))
    ensures !SoundAfter(Run(Start(tracker, virt, phys), UpTo(virt, v)), 0, align, virt, phys)
    ensures !KeepsReachable(tracker, virt, phys, 0, align)
  {
    var st := Start(tracker, virt, phys);
    UpToLeaves(tracker, virt, phys, align, v);
    var t := Run(st, UpTo(virt, v));
    LastFreeBreaks(t.blocks, align, t.tracker, virt, phys);
  }

  lemma UpToLeaves(tracker: nat, virt: nat, phys: nat, align: nat, v: nat)
    requires align > 0 && BadStart(virt, align, v)
    ensures AllLegal(UpTo(virt, v))
    ensures var c := Run(Start(tracker, virt, phys), UpTo(virt, v)).blocks;
      && 0 < |c| && Compact(c) == c && (forall i :: 0 <= i < |c| - 1 ==> c[i].active)
      && !c[|c| - 1].active && c[|c| - 1].virt == v && c[|c| - 1].size == virt + REGION - v
  {
    if v > virt {
      var st, op, d := Start(tracker, virt, phys), Request(v - virt, 1, true), v - virt;
      var b := st.blocks[0];
      assert Find([b], d, true) == 1 && Find([b], d, false) == 0;
      FrontAndRest(b, d, st.tracker + 1);
      assert UpTo(virt, v)[1..] == [] && Run(Step(st, op), []) == Step(st, op);
    }
  }

  /** The only block cut in two for a request without alignment. */
  lemma FrontAndRest(b: Block, need: nat, tracker: nat)
    requires need <= b.size
    ensures var c := Split([b], 0, need, 1, tracker);
      |c| == 2 && c[0].active && c[1] == Rest(b, need, tracker) && Compact(c) == c
  {
    var c := Split([b], 0, need, 1, tracker);
    assert c == [Grab(b.(size := need), 1), Rest(b, need, tracker)];
    assert c[1..] == [Rest(b, need, tracker)];
  }

  lemma OnlyLastSuits(c: seq<Block>, need: nat, exact: bool)
    requires 0 < |c| && forall i :: 0 <= i < |c| - 1 ==> c[i].active
    ensures Find(c, need, exact) == if Suits(c[|c| - 1], need, exact) then |c| - 1 else |c|
  {}

  lemma LastFreeBreaks(c: seq<Block>, align: nat, tracker: nat, virt: nat, phys: nat)
    requires align > 0 && 0 < |c| && Compact(c) == c && (forall i :: 0 <= i < |c| - 1 ==> c[i].active)
    requires var b := c[|c| - 1];
      !b.active && 0 < b.size && align - 1 <= b.size && Aligned(b.virt + (align - 1), align)
    ensures !Osd(Allocate(c, tracker, 0, align, true).blocks, virt, virt + REGION, phys - virt)
  {
    hide Find, Split, Grab, Aligned, Osd, Compact;
    var n, m := |c| - 1, align - 1;
    OnlyLastSuits(c, m, true);
    OnlyLastSuits(c, m, false);
    SplitAt(c, n, m, align, tracker + 1);
    FullOffset(c[n], align);
    FullOffset(c[n].(size := m), align);
    FullBlockBreaks(Allocate(c, tracker, 0, align, true).blocks, n, virt, virt + REGION, phys - virt);
  }

  lemma SplitAt(c: seq<Block>, n: nat, need: nat, align: nat, tracker: nat)
    requires n < |c| && align > 0 && need <= c[n].size
    ensures n < |Split(c, n, need, align, tracker)|
    ensures Split(c, n, need, align, tracker)[n] == Grab(c[n].(size := need), align)
  {}

  lemma FullOffset(b: Block, align: nat)
    requires align > 0 && Aligned(b.virt + (align - 1), align)
    ensures Grab(b, align).field0 == align - 1 && Grab(b, align).size == b.size
  {}

  lemma FullBlockBreaks(t: seq<Block>, n: nat, from: nat, to: nat, delta: int)
    requires n < |t| && t[n].field0 == t[n].size
    ensures !Osd(t, from, to, delta)
  {
    assert !Good(t[n], delta);
  }
}
