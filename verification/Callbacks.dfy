/** The list of functions an interrupt runs: appended at the tail, removed by function. */
module Callbacks {
  import opened Lists

  /** A registration; functions are told apart by number, 0 being NULL. */
  datatype Entry = Entry(func: nat, data: nat)

  function FirstOf(s: seq<Entry>, func: nat): (i: nat)
    ensures i <= |s|
    ensures i < |s| ==> s[i].func == func
    ensures forall j :: 0 <= j < i ==> s[j].func != func
  {
    if s == [] || s[0].func == func then 0 else 1 + FirstOf(s[1..], func)
  }

  /** Only the first registration of a function goes. */
  function Removed(s: seq<Entry>, func: nat): seq<Entry> {
    var i := FirstOf(s, func);
    if i == |s| then s else Without(s, i)
  }

  class Node {
    const entry: Entry
    var next: Node?

    constructor (entry: Entry)
      ensures this.entry == entry && next == null
    {
      this.entry, next := entry, null;
    }
  }

  class CallbackList {
    var head: Node?
    ghost var nodes: seq<Node>
    ghost var Repr: set<Node>

    ghost predicate Valid()
      reads this, Repr
    {
      && (forall i :: 0 <= i < |nodes| ==> nodes[i] in Repr)
      && (nodes == [] ==> head == null)
      && (nodes != [] ==> head == nodes[0] && nodes[|nodes| - 1].next == null)
      && (forall i {:trigger nodes[i].next} :: 0 <= i < |nodes| - 1 ==> nodes[i].next == nodes[i + 1])
      && (forall i, j :: 0 <= i < j < |nodes| ==> nodes[i] != nodes[j])
    }

    ghost function View(): (v: seq<Entry>)
      reads this
      ensures |v| == |nodes|
    {
      seq(|nodes|, i requires 0 <= i < |nodes| reads this => nodes[i].entry)
    }

    constructor ()
      ensures Valid() && View() == []
    {
      head, nodes, Repr := null, [], {};
    }

    /** tl880_add_int_callback. */
    method Add(func: nat, data: nat, kmallocOk: bool) returns (result: int)
      requires Valid()
      modifies this, Repr
      ensures Valid() && fresh(Repr - old(Repr))
      ensures result == if func != 0 && kmallocOk then 0 else -1
      ensures View() == if result == 0 then old(View()) + [Entry(func, data)] else old(View())
    {
      if func == 0 || !kmallocOk {
        return -1;
      }
      var node := new Node(Entry(func, data));
      if head == null {
        head := node;
      } else {
        var p := Tail();
        p.next := node;
      }
      nodes, Repr := nodes + [node], Repr + {node};
      return 0;
    }

    method Tail() returns (p: Node)
      requires Valid() && head != null
      ensures nodes != [] && p == nodes[|nodes| - 1]
    {
      p := head;
      ghost var i: nat := 0;
      while p.next != null
        invariant i < |nodes| && p == nodes[i]
        decreases |nodes| - i
      {
        p := p.next;
        i := i + 1;
      }
    }

    method DropHead()
      requires Valid() && nodes != []
      modifies `head, `nodes
      ensures Valid() && View() == old(View())[1..]
    {
      head := head.next;
      nodes := nodes[1..];
    }

    method DropAfter(p: Node, ghost i: nat)
      requires Valid() && i + 1 < |nodes| && p == nodes[i] && p.next != null
      modifies p`next, `nodes
      ensures Valid() && View() == old(View())[..i + 1] + old(View())[i + 2..]
    {
      p.next := p.next.next;
      nodes := nodes[..i + 1] + nodes[i + 2..];
    }

    /** tl880_remove_int_callback. */
    method Remove(func: nat)
      requires Valid()
      modifies this, Repr
      ensures Valid() && Repr == old(Repr)
      ensures View() == if func == 0 then old(View()) else Removed(old(View()), func)
    {
      if func == 0 || head == null {
        return;
      }
      ghost var v := View();
      if head.entry.func == func {
        assert FirstOf(v, func) == 0;
        DropHead();
        return;
      }
      var p := head;
      ghost var i: nat := 0;
      while p.next != null && p.next.entry.func != func
        invariant i < |nodes| && p == nodes[i]
        invariant forall j :: 0 <= j <= i ==> v[j].func != func
        decreases |nodes| - i
      {
        p := p.next;
        i := i + 1;
      }
      if p.next != null {
        assert v[i + 1].func == func && FirstOf(v, func) == i + 1;
        DropAfter(p, i);
      }
    }

    /** tl880_run_callbacks: the calls made, in order. The functions themselves are taken not to
        change the list. */
    method Run() returns (calls: seq<Entry>)
      requires Valid()
      ensures calls == View()
    {
      calls := [];
      var p := head;
      ghost var i: nat := 0;
      while p != null
        invariant if p == null then i == |nodes| else i < |nodes| && p == nodes[i]
        invariant calls == View()[..i]
        decreases |nodes| - i
      {
        calls := calls + [p.entry];
        p := p.next;
        i := i + 1;
      }
    }
  }

  /** Removing a function right after adding it restores the list exactly when the function was not
      registered before, or when from its first registration on the list held nothing but the very
      same registration. */
  lemma RemoveUndoesAddIff(s: seq<Entry>, e: Entry)
    ensures Removed(s + [e], e.func) == s <==>
            forall j :: FirstOf(s, e.func) <= j < |s| ==> s[j] == e
  {
    hide FirstOf, Without;
    var i := FirstOf(s, e.func);
    FirstInLonger(s, e);
    CutInLonger(s, e, i);
    if i < |s| { CycledIff(s, i, e); }
  }

  lemma CutInLonger(s: seq<Entry>, e: Entry, i: nat)
    requires i <= |s|
    ensures Without(s + [e], i) == if i == |s| then s else Without(s, i) + [e]
  {
    var t := s + [e];
    if i == |s| { assert t[..i] + t[i + 1..] == s; } else { assert t[i + 1..] == s[i + 1..] + [e]; }
  }

  /** Dropping entry i and appending e at the tail changes nothing exactly when all from i on is e. */
  lemma CycledIff(s: seq<Entry>, i: nat, e: Entry)
    requires i < |s|
    ensures Without(s, i) + [e] == s <==> forall j :: i <= j < |s| ==> s[j] == e
  {
    var r := Without(s, i) + [e];
    assert forall j :: 0 <= j < |s| ==> r[j] == if j < i then s[j] else if j < |s| - 1 then s[j + 1] else e;
    if r == s { AllAlike(s, i, e); }
  }

  lemma FirstInLonger(s: seq<Entry>, e: Entry)
    ensures FirstOf(s + [e], e.func) == FirstOf(s, e.func)
  {
    var t := s + [e];
    var i := FirstOf(s, e.func);
    assert t[i].func == e.func;
    assert forall j :: 0 <= j < i ==> t[j] == s[j];
  }

  lemma {:induction false} AllAlike(s: seq<Entry>, i: nat, e: Entry)
    requires i < |s| && Without(s, i) + [e] == s
    ensures forall j :: i <= j < |s| ==> s[j] == e
  {
    var r := Without(s, i) + [e];
    var k := |s| - 1;
    assert r[k] == e;
    while k > i
      invariant i <= k < |s|
      invariant forall j :: k <= j < |s| ==> s[j] == e
    {
      assert r[k - 1] == s[k];
      k := k - 1;
    }
  }
}
