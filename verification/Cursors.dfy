/** The cursor list: surfaces linked and unlinked in place, each owning a block of the overlay
    memory behind it. Every method is proved against its function in CursorSpec. */
module Cursors {
  import opened Lists
  import opened OsdSpec
  import opened CursorSpec
  import opened Osd

  class Surface {
    var osdAddr: nat
    var cardAddr: int
    const hsize: nat
    const vsize: nat
    const width: nat
    const height: nat
    const hscale: nat
    const vscale: nat
    const handle: nat
    const id: nat
    var next: Surface?

    constructor (d: Desc, osdAddr: nat, cardAddr: int, id: nat)
      ensures Value() == NewCursor(d, osdAddr, cardAddr, id)
    {
      this.osdAddr, this.cardAddr, next := osdAddr, cardAddr, null;
      this.id := id;
      hsize, vsize, width, height := d.field4, d.field8, d.width, d.height;
      hscale := if d.field14 != 4 then d.field14 else 0;
      vscale := if d.field16 != 4 then d.field16 else 0;
      handle := d.field0;
    }

    ghost function Value(): Cursor
      reads `osdAddr, `cardAddr
    {
      Cursor(osdAddr, cardAddr, hsize, vsize, width, height, hscale, vscale, handle, id)
    }
  }

  class CursorList {
    const osd: OsdMemory
    var head: Surface?
    var made: nat
    ghost var nodes: seq<Surface>
    ghost var listed: seq<Cursor>  // the nodes' values
    ghost var Repr: set<Surface>

    ghost predicate Chained()
      reads `head, `nodes, `Repr, Repr
    {
      && (forall i :: 0 <= i < |nodes| ==> nodes[i] in Repr)
      && (nodes == [] ==> head == null)
      && (nodes != [] ==> head == nodes[0] && nodes[|nodes| - 1].next == null)
      && (forall i {:trigger nodes[i].next} :: 0 <= i < |nodes| - 1 ==> nodes[i].next == nodes[i + 1])
      && (forall i, j :: 0 <= i < j < |nodes| ==> nodes[i] != nodes[j])
    }

    ghost predicate Matched()
      reads `nodes, `listed, nodes
    {
      |listed| == |nodes| && forall i :: 0 <= i < |nodes| ==> listed[i] == nodes[i].Value()
    }

    ghost predicate Linked()
      reads `head, `nodes, `listed, `Repr, Repr
    {
      Chained() && Matched()
    }

    ghost predicate Valid()
      reads this, Repr, osd, osd.Repr
    {
      Linked() && osd.Valid()
    }

    ghost function View(): World
      requires Valid()
      reads this, Repr, osd, osd.Repr
    {
      World(listed, made, osd.View(), osd.tracker)
    }

    constructor (osd: OsdMemory)
      requires osd.Valid()
      ensures Valid() && this.osd == osd && fresh(Repr)
      ensures View() == World([], 0, osd.View(), osd.tracker)
    {
      this.osd, head, made, nodes, listed, Repr := osd, null, 0, [], [], {};
    }

    /** tl880_create_cursor and tl880_add_cursor. */
    method Create(d: Desc, cursorMem: bool, nodeMem: bool) returns (surface: Surface?)
      requires Valid()
      modifies this, osd, osd.Repr
      ensures Valid() && fresh(Repr - old(Repr)) && fresh(osd.Repr - old(osd.Repr))
      ensures (View(), surface != null) == CursorSpec.Create(old(View()), d, cursorMem, nodeMem)
      ensures surface != null ==> nodes == [surface] + old(nodes)
    {
      hide CursorSpec.Claim, OsdMemory.Valid, OsdMemory.View, Linked;
      if d.field18 != 0x1c || d.width != 32 || d.height != 32 || d.field14 == 0 || d.field14 >= 5 || !cursorMem {
        return null;
      }
      made := made + 1;
      var addr, card := Claim(nodeMem);
      if addr == 0 {
        return null;
      }
      surface := Enlist(d, addr, card);
    }

    method Enlist(d: Desc, addr: nat, card: int) returns (surface: Surface)
      requires Linked()
      modifies `head, `nodes, `listed, `Repr
      ensures Linked() && Repr == old(Repr) + {surface} && fresh(surface) && nodes == [surface] + old(nodes)
      ensures listed == [NewCursor(d, addr, card, NewId(made))] + old(listed)
    {
      surface := new Surface(d, addr, card, 0x52300000 + made % 0x100000);
      Add(surface);
    }

    /** The overlay memory for a new cursor: its list and card addresses, or 0. */
    method Claim(nodeMem: bool) returns (addr: nat, card: int)
      requires osd.Valid()
      modifies osd, osd.Repr
      ensures osd.Valid() && fresh(osd.Repr - old(osd.Repr))
      ensures (osd.View(), osd.tracker, addr, card) == CursorSpec.Claim(old(osd.View()), old(osd.tracker), nodeMem)
    {
      addr := osd.Allocate(0x200, 0x10, nodeMem);
      if addr == 0 {
        return 0, -1;
      }
      card := osd.GetOffset(addr);
      if card == -1 {
        var _ := osd.Deallocate(addr);
        addr := 0;
      }
    }

    /** tl880_add_cursor: the new surface becomes the head. */
    method Add(s: Surface)
      requires Linked() && s !in Repr
      modifies `head, `nodes, `listed, `Repr, s`next
      ensures Linked() && Repr == old(Repr) + {s} && nodes == [s] + old(nodes)
      ensures listed == [s.Value()] + old(listed)
    {
      s.next := head;
      head := s;
      nodes, listed, Repr := [s] + nodes, [s.Value()] + listed, Repr + {s};
    }

    /** The node before s, null if s is the head; or found is false. */
    method Before(s: Surface) returns (found: bool, p: Surface?, ghost i: nat)
      requires Linked()
      ensures found <==> s in nodes
      ensures found ==> i < |nodes| && nodes[i] == s && p == if i == 0 then null else nodes[i - 1]
      ensures found ==> s in Repr && |listed| == |nodes| && listed[i] == s.Value()
    {
      i := 0;
      if head == null {
        return false, null, 0;
      }
      if s == head {
        return true, null, 0;
      }
      p := head;
      while p != null && p.next != s
        invariant if p == null then i == |nodes| else i < |nodes| && p == nodes[i]
        invariant forall j :: 0 <= j <= i && j < |nodes| ==> nodes[j] != s
        decreases |nodes| - i
      {
        p := p.next;
        i := i + 1;
      }
      return p != null, p, i + 1;
    }

    method Unlink(p: Surface?, s: Surface, ghost i: nat)
      requires Linked() && i < |nodes| && nodes[i] == s && p == if i == 0 then null else nodes[i - 1]
      modifies `head, `nodes, `listed, Repr`next
      ensures Linked() && s !in nodes && nodes == Without(old(nodes), i)
      ensures listed == Without(old(listed), i)
    {
      if p == null {
        UnlinkHead();
      } else {
        UnlinkAfter(p, s, i);
      }
    }

    method UnlinkHead()
      requires Linked() && head != null
      modifies `head, `nodes, `listed
      ensures Linked() && old(nodes) != [] && old(nodes)[0] !in nodes
      ensures nodes == Without(old(nodes), 0) && listed == Without(old(listed), 0)
    {
      head := head.next;
      nodes, listed := nodes[1..], listed[1..];
    }

    method UnlinkAfter(p: Surface, s: Surface, ghost i: nat)
      requires Linked() && 0 < i < |nodes| && nodes[i] == s && nodes[i - 1] == p
      modifies `nodes, `listed, p`next
      ensures Linked() && s !in nodes && nodes == Without(old(nodes), i)
      ensures listed == Without(old(listed), i)
    {
      hide Chained;
      Rechain(p, s, i);
      listed := RemoveAt(listed, i);
    }

    method Rechain(p: Surface, s: Surface, ghost i: nat)
      requires Chained() && 0 < i < |nodes| && nodes[i] == s && nodes[i - 1] == p
      modifies `nodes, p`next
      ensures Chained() && s !in nodes && nodes == Without(old(nodes), i)
    {
      p.next := s.next;
      nodes := RemoveAt(nodes, i);
    }

    /** tl880_delete_cursor; a surface that is not listed is left alone. i is its place in the
        list, or the list's length. */
    method Delete(s: Surface) returns (ghost i: nat)
      requires Valid()
      modifies this, Repr, osd, osd.Repr
      ensures Valid() && Repr == old(Repr) && osd.Repr == old(osd.Repr)
      ensures i <= |old(nodes)| && (i == |old(nodes)| <==> s !in old(nodes))
      ensures i == |old(nodes)| ==> View() == old(View()) && nodes == old(nodes)
      ensures i < |old(nodes)| ==>
                && old(nodes)[i] == s && nodes == Without(old(nodes), i)
                && View() == CursorSpec.Delete(old(View()), i)
    {
      hide OsdSpec.Deallocate, OsdMemory.Valid, OsdMemory.View, Linked;
      var found, p;
      found, p, i := Before(s);
      if !found {
        i := |nodes|;
        return;
      }
      Unlink(p, s, i);
      Release(s);
    }

    /** Gives the memory of an unlisted surface back. */
    method Release(s: Surface)
      requires Valid() && s !in nodes
      modifies s`osdAddr, osd, osd.Repr
      ensures Valid() && osd.Repr == old(osd.Repr) && osd.tracker == old(osd.tracker)
      ensures osd.View() == if old(s.osdAddr) > 0 then OsdSpec.Deallocate(old(osd.View()), old(s.osdAddr)).0
                            else old(osd.View())
    {
      hide OsdSpec.Deallocate, OsdMemory.Valid, OsdMemory.View;
      if s.osdAddr != 0 {
        var _ := osd.Deallocate(s.osdAddr);
        s.osdAddr := 0;
      }
    }

    /** tl880_delete_cursor_list. */
    method DeleteAll()
      requires Valid()
      modifies this, Repr, osd, osd.Repr
      ensures Valid() && nodes == []
      ensures View() == CursorSpec.DeleteAll(old(View()))
    {
      while head != null
        invariant Valid() && Repr == old(Repr) && osd.Repr == old(osd.Repr)
        invariant CursorSpec.DeleteAll(View()) == CursorSpec.DeleteAll(old(View()))
        decreases |nodes|
      {
        assert nodes[0] == head;
        ghost var i := Delete(head);
      }
    }

    /** tl880_find_cursor. */
    method Find(handle: nat) returns (s: Surface?)
      requires Valid()
      ensures var i := FindCursor(listed, handle);
              s == if i < |nodes| then nodes[i] else null
    {
      s := head;
      ghost var i: nat := 0;
      while s != null
        invariant if s == null then i == |nodes| else i < |nodes| && s == nodes[i]
        invariant forall j :: 0 <= j < i ==> listed[j].handle != handle
        decreases |nodes| - i
      {
        if s.handle == handle {
          return;
        }
        s := s.next;
        i := i + 1;
      }
    }
  }
}
