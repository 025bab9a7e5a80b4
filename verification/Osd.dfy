/** The overlay-memory list itself: nodes linked by `next`, split, merged and flagged in place.
    Every method is proved against its function in OsdSpec. */
module Osd {
  import opened Lists
  import opened OsdSpec

  class OsdNode {
    var field0: nat
    var virtAddr: nat
    var physAddr: nat
    var size: nat
    var active: bool
    var id: nat
    var next: OsdNode?

    constructor (virtAddr: nat, physAddr: nat, size: nat, id: nat, next: OsdNode?)
      ensures Value() == Block(0, virtAddr, physAddr, size, false, id) && this.next == next
    {
      this.field0, this.active := 0, false;
      this.virtAddr, this.physAddr, this.size, this.id, this.next := virtAddr, physAddr, size, id, next;
    }

    ghost function Value(): Block
      reads `field0, `virtAddr, `physAddr, `size, `active, `id
    {
      Block(field0, virtAddr, physAddr, size, active, id)
    }
  }

  class OsdMemory {
    var head: OsdNode?
    var tracker: nat
    ghost var nodes: seq<OsdNode>  // the list, in order
    ghost var Repr: set<OsdNode>   // every node it may change

    ghost predicate Valid()
      reads `head, `nodes, `Repr, Repr
    {
      && (forall i :: 0 <= i < |nodes| ==> nodes[i] in Repr)
      && (nodes == [] ==> head == null)
      && (nodes != [] ==> head == nodes[0] && nodes[|nodes| - 1].next == null)
      && (forall i {:trigger nodes[i].next} :: 0 <= i < |nodes| - 1 ==> nodes[i].next == nodes[i + 1])
      && (forall i, j :: 0 <= i < j < |nodes| ==> nodes[i] != nodes[j])
    }

    ghost function View(): (v: seq<Block>)
      requires Valid()
      reads `head, `nodes, `Repr, Repr
      ensures |v| == |nodes|
    {
      var (list, all) := (nodes, Repr);
      seq(|list|, i requires 0 <= i < |list| && list[i] in all reads all => list[i].Value())
    }

    lemma ValueAt(i: nat)
      requires Valid() && i < |nodes|
      ensures View()[i] == nodes[i].Value() && nodes[i] in Repr
    {}

    /** The walk has reached node i, or the end of the list. */
    ghost predicate At(p: OsdNode?, i: nat)
      reads this
    {
      if p == null then i == |nodes| else i < |nodes| && p == nodes[i]
    }

    constructor ()
      ensures Valid() && View() == [] && tracker == 0
    {
      head, tracker, nodes, Repr := null, 0, [], {};
    }

    /** tl880_init_osdmem; virt and phys are the card's memory window plus 0x186000. */
    method Init(virt: nat, phys: nat, kmallocOk: bool) returns (ok: bool)
      requires Valid()
      modifies this
      ensures Valid() && fresh(Repr - old(Repr))
      ensures ok == (old(View()) == [] && kmallocOk)
      ensures if ok then View() == OsdSpec.Init(old(tracker), virt, phys) && tracker == old(tracker) + 1
              else View() == old(View()) && tracker == old(tracker)
    {
      if head != null || !kmallocOk {
        return false;
      }
      tracker := tracker + 1;
      var node := new OsdNode(virt, phys, 0x1000000, 0x52300000 + tracker % 0x100000, null);
      head, nodes, Repr := node, [node], {node};
      return true;
    }

    /** tl880_compact_osdmem. */
    method Compact()
      requires Valid()
      modifies this, Repr
      ensures Valid() && Repr == old(Repr) && tracker == old(tracker)
      ensures View() == OsdSpec.Compact(old(View()))
    {
      var p := head;
      ghost var i: nat := 0;
      assert View()[0..] == View();
      while p != null && p.next != null
        invariant Valid() && Repr == old(Repr) && tracker == old(tracker) && At(p, i)
        invariant Compacting(View(), i) == OsdSpec.Compact(old(View()))
        decreases |nodes| - i
      {
        assert p in Repr;
        p, i := CompactStep(p, i);
      }
      assert View()[..i] + View()[i..] == View();
    }

    /** One turn of the loop: merge p with the next node, or move on to it. */
    method CompactStep(p: OsdNode, ghost i: nat) returns (r: OsdNode?, ghost k: nat)
      requires Valid() && At(p, i) && p.next != null
      modifies `nodes, p
      ensures Valid() && At(r, k) && |nodes| - k < old(|nodes|) - i
      ensures Compacting(View(), k) == Compacting(old(View()), i)
    {
      var q := p.next;
      assert View()[i] == p.Value() && View()[i + 1] == q.Value();
      if !p.active && !q.active {
        CompactingMerges(View(), i);
        MergeNext(p, q, i);
        return p, i;
      } else {
        CompactingMoves(View(), i);
        return q, i + 1;
      }
    }

    method MergeNext(p: OsdNode, q: OsdNode, ghost i: nat)
      requires Valid() && i + 1 < |nodes| && p == nodes[i] && q == nodes[i + 1]
      modifies `nodes, p
      ensures Valid() && tracker == old(tracker)
      ensures nodes == old(nodes[..i + 1] + nodes[i + 2..])
      ensures View() == Merged(old(View()), i)
    {
      p.size := p.size + q.size;
      p.next := q.next;
      nodes := nodes[..i + 1] + nodes[i + 2..];
    }

    /** The first free node of exactly, or of more than, the needed size. */
    method Search(need: nat, exact: bool) returns (p: OsdNode?, ghost i: nat)
      requires Valid()
      ensures i == Find(View(), need, exact) && At(p, i)
      ensures p != null ==> p in Repr
    {
      p, i := head, 0;
      while p != null && !(!p.active && if exact then p.size == need else p.size > need)
        invariant At(p, i)
        invariant forall j :: 0 <= j < i ==> !Suits(View()[j], need, exact)
        decreases |nodes| - i
      {
        assert View()[i] == nodes[i].Value();
        p := p.next;
        i := i + 1;
      }
      if i < |nodes| { assert View()[i] == nodes[i].Value(); }
    }

    /** tl880_allocate_osdmem, its second search as described at OsdSpec.Serve. */
    method Allocate(size: nat, align: nat, kmallocOk: bool) returns (addr: nat)
      requires Valid() && align > 0
      modifies this, Repr
      ensures Valid() && fresh(Repr - old(Repr))
      ensures Result(View(), tracker, addr) == OsdSpec.Allocate(old(View()), old(tracker), size, align, kmallocOk)
    {
      hide Valid, View, OsdSpec.Compact, OsdSpec.Serve;
      Compact();
      addr := Serve(size + (align - 1), align, kmallocOk);
    }

    /** The searches of tl880_allocate_osdmem: an exact fit first, then the first larger block. */
    method Serve(need: nat, align: nat, kmallocOk: bool) returns (addr: nat)
      requires Valid() && align > 0
      modifies this, Repr
      ensures Valid() && fresh(Repr - old(Repr))
      ensures Result(View(), tracker, addr) == OsdSpec.Serve(old(View()), old(tracker), need, align, kmallocOk)
    {
      hide Valid, View, Split, Grab, AlignUp;
      var p, i := Search(need, true);
      if p != null {
        addr := GrabNode(p, i, align);
        return;
      }
      p, i := Search(need, false);
      if p == null || !kmallocOk {
        return 0;
      }
      addr := SplitNode(p, i, need, align);
    }

    /** The branch for a larger block: the rest of it becomes a new free node behind it. */
    method SplitNode(p: OsdNode, ghost i: nat, need: nat, align: nat) returns (addr: nat)
      requires Valid() && i < |nodes| && p == nodes[i] && p in Repr && align > 0 && need <= View()[i].size
      modifies `tracker, `nodes, `Repr, p
      ensures Valid() && fresh(Repr - old(Repr)) && tracker == old(tracker) + 1
      ensures View() == Split(old(View()), i, need, align, tracker)
      ensures addr == AlignUp(old(View())[i].virt, align)
    {
      hide Valid, View, Grab, AlignUp, Rest;
      ValueAt(i);
      AddRest(p, i, need);
      addr := CutNode(p, i, need, align);
    }

    /** Marks a node as handed out at its first aligned address. */
    method GrabNode(p: OsdNode, ghost i: nat, align: nat) returns (addr: nat)
      requires Valid() && i < |nodes| && p == nodes[i] && align > 0
      modifies p`active, p`field0
      ensures Valid() && nodes == old(nodes) && View() == old(View())[i := Grab(old(View())[i], align)]
      ensures addr == AlignUp(old(View())[i].virt, align)
    {
      p.active := true;
      addr := AlignUp(p.virtAddr, align);
      p.field0 := addr - p.virtAddr;
      assert View() == old(View())[i := p.Value()];
    }

    /** Cuts a node down to its first `need` bytes and marks it as handed out. */
    method CutNode(p: OsdNode, ghost i: nat, need: nat, align: nat) returns (addr: nat)
      requires Valid() && i < |nodes| && p == nodes[i] && align > 0
      modifies p`size, p`active, p`field0
      ensures Valid() && View() == old(View())[i := Grab(old(View())[i].(size := need), align)]
      ensures addr == AlignUp(old(View())[i].virt, align)
    {
      p.size := need;
      p.active := true;
      addr := AlignUp(p.virtAddr, align);
      p.field0 := addr - p.virtAddr;
      assert View() == old(View())[i := p.Value()];
    }

    /** Puts a new free node behind p for all but the first `need` of p's bytes. */
    method AddRest(p: OsdNode, ghost i: nat, need: nat)
      requires Valid() && i < |nodes| && p == nodes[i] && need <= p.size
      modifies `tracker, `nodes, `Repr, p`next
      ensures Valid() && tracker == old(tracker) + 1
      ensures Repr >= old(Repr) && fresh(Repr - old(Repr))
      ensures i < |nodes| && p == nodes[i]
      ensures View() == Insert(old(View()), i + 1, Rest(old(View())[i], need, tracker))
    {
      hide Valid, View;
      ValueAt(i);
      tracker := tracker + 1;
      var rest := new OsdNode(p.virtAddr + need, p.physAddr + need, p.size - need,
                              0x52300000 + tracker % 0x100000, p.next);
      InsertAfter(p, i, rest);
    }

    method InsertAfter(p: OsdNode, ghost i: nat, rest: OsdNode)
      requires Valid() && i < |nodes| && p == nodes[i] && rest !in Repr && rest.next == p.next
      modifies `nodes, `Repr, p`next
      ensures Valid() && Repr == old(Repr) + {rest}
      ensures nodes == Insert(old(nodes), i + 1, rest)
      ensures View() == Insert(old(View()), i + 1, rest.Value())
    {
      p.next := rest;
      nodes := InsertAt(nodes, i + 1, rest);
      Repr := Repr + {rest};
    }

    /** tl880_get_osdmem_offset. */
    method GetOffset(addr: nat) returns (offset: int)
      requires Valid()
      ensures offset == Offset(View(), addr)
    {
      var p := head;
      ghost var i: nat := 0;
      while p != null
        invariant At(p, i)
        invariant Offset(View(), addr) == Offset(View()[i..], addr)
        decreases |nodes| - i
      {
        assert View()[i..][0] == p.Value() && View()[i..][1..] == View()[i + 1..];
        if p.id / 0x100000 % 0x1000 != 0x523 {
          break;
        }
        if p.active && p.virtAddr + p.field0 == addr {
          return p.physAddr + p.field0;
        }
        p := p.next;
        i := i + 1;
      }
      return -1;
    }

    method SetFree(p: OsdNode, ghost i: nat)
      requires Valid() && i < |nodes| && p == nodes[i]
      modifies p`active, p`field0
      ensures Valid() && View() == old(View())[i := old(View())[i].(active := false, field0 := 0)]
    {
      p.active := false;
      p.field0 := 0;
      assert View() == old(View())[i := p.Value()];
    }

    /** tl880_deallocate_osdmem. */
    method Deallocate(addr: nat) returns (found: bool)
      requires Valid()
      modifies Repr
      ensures Valid() && nodes == old(nodes)
      ensures (View(), found) == OsdSpec.Deallocate(old(View()), addr)
    {
      var p := head;
      ghost var i: nat, v := 0, View();
      while p != null && p.id / 0x100000 % 0x1000 == 0x523
        invariant At(p, i)
        invariant forall j :: 0 <= j < i ==> v[j].Tagged() && v[j].Addr() != addr
        invariant View() == v
        decreases |nodes| - i
      {
        assert v[i] == p.Value();
        if p.virtAddr + p.field0 == addr {
          assert FindAddr(v, addr) == i;
          SetFree(p, i);
          return true;
        }
        p := p.next;
        i := i + 1;
      }
      if i < |nodes| { assert v[i] == nodes[i].Value(); }
      return false;
    }
  }

  /** The list once the rest of the walk is done, the first i blocks being settled. */
  ghost function Compacting(v: seq<Block>, i: nat): seq<Block>
    requires i <= |v|
  {
    v[..i] + OsdSpec.Compact(v[i..])
  }

  ghost function Merged(v: seq<Block>, i: nat): seq<Block>
    requires i + 1 < |v|
  {
    v[..i] + [v[i].(size := v[i].size + v[i + 1].size)] + v[i + 2..]
  }

  lemma CompactingMerges(v: seq<Block>, i: nat)
    requires i + 1 < |v| && !v[i].active && !v[i + 1].active
    ensures Compacting(Merged(v, i), i) == Compacting(v, i)
  {
    var w, t := Merged(v, i), v[i..];
    assert w[..i] == v[..i];
    assert w[i..] == [t[0].(size := t[0].size + t[1].size)] + t[2..];
  }

  lemma CompactingMoves(v: seq<Block>, i: nat)
    requires i + 1 < |v| && (v[i].active || v[i + 1].active)
    ensures Compacting(v, i + 1) == Compacting(v, i)
  {
    assert v[i..][1..] == v[i + 1..];
    assert v[..i + 1] == v[..i] + [v[i]];
  }
}
