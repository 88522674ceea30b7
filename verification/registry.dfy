/** The registries as the C code keeps them: a singly linked list of slots, changed in place. */
module Registry {
  import opened GribErrors
  import opened SlotList

  /** `l_grib_handle` and its copies. */
  class Node {
    var id: int
    var p: Ptr
    var next: Node?

    constructor (id: int, p: Ptr, next: Node?)
      ensures this.id == id && this.p == p && this.next == next
    {
      this.id, this.p, this.next := id, p, next;
    }
  }

  class HandleSet {
    const kind: Kind
    var head: Node?
    /** The pointers passed to the library's delete function so far. */
    var deleted: seq<Ptr>
    /** The nodes from the head on. */
    ghost var nodes: seq<Node>

    ghost predicate Valid()
      reads this`head, this`nodes, nodes
    {
      && head == NodeAt(0)
      && (forall i {:trigger nodes[i].next} :: 0 <= i < |nodes| ==> nodes[i].next == NodeAt(i + 1))
      && (forall i, j :: 0 <= i < j < |nodes| ==> nodes[i] != nodes[j])
    }

    ghost function NodeAt(i: nat): Node?
      reads this`nodes
    {
      if i < |nodes| then nodes[i] else null
    }

    ghost function Slots(): (s: seq<Slot>)
      reads this`nodes, nodes
    {
      View(nodes)
    }

    static ghost function View(nodes: seq<Node>): (s: seq<Slot>)
      reads nodes
      ensures |s| == |nodes|
      ensures forall i :: 0 <= i < |s| ==> s[i] == Slot(nodes[i].id, nodes[i].p)
    {
      seq(|nodes|, i requires 0 <= i < |nodes| reads nodes => Slot(nodes[i].id, nodes[i].p))
    }

    constructor (kind: Kind)
      ensures Valid() && Slots() == [] && deleted == [] && this.kind == kind
    {
      this.kind := kind;
      head := null;
      deleted := [];
      nodes := [];
    }

    /** The old nodes are still there, and any others are new. */
    twostate predicate Grown(before: seq<Node>)
      reads this`nodes
    {
      |before| <= |nodes| && nodes[..|before|] == before && forall i :: |before| <= i < |nodes| ==> fresh(nodes[i])
    }

    /** The loop that looks for an id, shared by push, get and clear. */
    method Locate(id: int) returns (current: Node?, ghost i: nat)
      requires Valid()
      ensures i == Find(Slots(), id) && current == NodeAt(i)
    {
      current := head;
      i := 0;
      while current != null && current.id != id
        invariant i <= |nodes| && current == NodeAt(i)
        invariant FindFrom(Slots(), id, i) == Find(Slots(), id)
        decreases |nodes| - i
      {
        current := current.next;
        i := i + 1;
      }
    }

    /** The loop that looks for a freed slot, keeping the node before it and the id of the next new slot. */
    method LocateFree() returns (current: Node?, previous: Node?, myindex: int, ghost i: nat)
      requires Valid() && head != null
      ensures i == FirstFree(Slots()) && current == NodeAt(i) && myindex == kind.base + i
      ensures 0 < i ==> previous == nodes[i - 1]
    {
      current, previous, myindex, i := head, head, kind.base, 0;
      while current != null && current.id >= 0
        invariant i <= |nodes| && current == NodeAt(i) && myindex == kind.base + i
        invariant 0 < i ==> previous == nodes[i - 1]
        invariant FirstFreeFrom(Slots(), i) == FirstFree(Slots())
        decreases |nodes| - i
      {
        myindex := myindex + 1;
        previous := current;
        current := current.next;
        i := i + 1;
      }
    }

    /** Writes a slot in place. */
    method SetSlot(node: Node, ghost i: nat, slot: Slot)
      requires Valid() && i < |nodes| && node == nodes[i]
      modifies node
      ensures Valid() && Slots() == old(Slots())[i := slot]
    {
      node.id, node.p := slot.id, slot.p;
      assert Slots() == old(Slots())[i := slot];
    }

    /** Links a new node behind the last one. */
    method Append(previous: Node?, id: int, p: Ptr)
      requires Valid()
      requires previous == if nodes == [] then null else nodes[|nodes| - 1]
      modifies this`head, this`nodes, nodes
      ensures Valid() && Slots() == old(Slots()) + [Slot(id, p)]
      ensures Grown(old(nodes))
    {
      var last := new Node(id, p, null);
      if previous == null { head := last; } else { previous.next := last; }
      nodes := nodes + [last];
      assert Slots() == old(Slots()) + [Slot(id, p)];
    }

    method Reuse(current: Node, ghost i: nat, p: Ptr) returns (id: int)
      requires Valid() && i < |nodes| && current == nodes[i] && i == FirstFree(Slots())
      modifies current
      ensures Valid()
      ensures var e := SlotList.Allocate(kind, old(Slots()), p); Slots() == e.state && Id(id) == e.answer
    {
      id := -current.id;
      SetSlot(current, i, Slot(id, p));
    }

    method Extend(previous: Node?, myindex: int, p: Ptr) returns (id: int)
      requires Valid() && |nodes| == FirstFree(Slots()) && myindex == kind.base + |nodes|
      requires previous == if nodes == [] then null else nodes[|nodes| - 1]
      modifies this`head, this`nodes, nodes
      ensures Valid() && Grown(old(nodes))
      ensures var e := SlotList.Allocate(kind, old(Slots()), p); Slots() == e.state && Id(id) == e.answer
    {
      Append(previous, myindex, p);
      id := myindex;
    }

    /** The second half of `_push_handle`, and all of the pushes that never replace. */
    method Allocate(p: Ptr) returns (id: int)
      requires Valid()
      modifies this`head, this`nodes, nodes
      ensures Valid() && Grown(old(nodes))
      ensures var e := SlotList.Allocate(kind, old(Slots()), p); Slots() == e.state && Id(id) == e.answer
    {
      if head == null {
        id := Extend(null, kind.base, p);
      } else {
        var current, previous, myindex, i := LocateFree();
        if current != null {
          id := Reuse(current, i, p);
        } else {
          id := Extend(previous, myindex, p);
        }
      }
    }

    method Replace(current: Node, ghost i: nat, p: Ptr, gid: int)
      requires Valid() && i < |nodes| && current == nodes[i] && i == Find(Slots(), gid)
      requires kind.replacing && gid > 0
      modifies this`deleted, current
      ensures Valid()
      ensures var e := PushStep(kind, old(Slots()), p, gid);
              Slots() == e.state && Id(gid) == e.answer && deleted == old(deleted) + e.deleted
    {
      deleted := deleted + [current.p];
      SetSlot(current, i, Slot(gid, p));
    }

    /** `_push_handle`. */
    method Push(p: Ptr, gid: int) returns (gid': int)
      requires Valid()
      modifies this, nodes
      ensures Valid() && Grown(old(nodes))
      ensures var e := PushStep(kind, old(Slots()), p, gid);
              Slots() == e.state && Id(gid') == e.answer && deleted == old(deleted) + e.deleted
    {
      if kind.replacing && gid > 0 {
        var current, i := Locate(gid);
        if current != null {
          Replace(current, i, p, gid);
          return gid;
        }
      }
      assert PushStep(kind, Slots(), p, gid) == SlotList.Allocate(kind, Slots(), p);
      gid' := Allocate(p);
    }

    /** `_get_handle`, and `get_file` with its least id. */
    method Get(id: int) returns (p: Ptr)
      requires Valid()
      ensures Found(p) == GetStep(kind, Slots(), id).answer
    {
      if id < kind.least { return 0; }
      var current, i := Locate(id);
      p := if current != null then current.p else 0;
    }

    /** `_clear_handle` and `clear_file`. After freeing a slot that holds NULL the handle registries walk
        on to the end of the list and the file registry stops there; neither meets the id again. */
    method Clear(id: int, status: int) returns (code: int)
      requires Valid()
      modifies this, nodes
      ensures Valid() && nodes == old(nodes)
      ensures var e := ClearStep(kind, old(Slots()), id, status);
              Slots() == e.state && Code(code) == e.answer && deleted == old(deleted) + e.deleted
    {
      if kind.guarded && id < 0 { return 0; }
      var current, i := Locate(id);
      if current == null { return kind.absent; }
      var p := current.p;
      SetSlot(current, i, Slot(-id, p));
      if p == 0 { return kind.emptied; }
      deleted := deleted + [p];
      code := if kind.passing then status else GRIB_SUCCESS;
    }

    method Call(op: Op) returns (answer: Answer)
      requires Valid()
      modifies this, nodes
      ensures Valid() && Grown(old(nodes))
      ensures var e := Step(kind, old(Slots()), op);
              Slots() == e.state && answer == e.answer && deleted == old(deleted) + e.deleted
    {
      match op {
        case Push(p, gid) =>
          var id := Push(p, gid);
          answer := Id(id);
        case Get(id) =>
          var p := Get(id);
          answer := Found(p);
        case Clear(id, status) =>
          var code := Clear(id, status);
          answer := Code(code);
      }
    }
  }

  /** A client that makes any calls it likes on a fresh registry sees exactly the run of the slot list. */
  method Serve(kind: Kind, ops: seq<Op>) returns (answers: seq<Answer>, deleted: seq<Ptr>)
    ensures answers == Run(kind, [], ops).answers && deleted == Run(kind, [], ops).deleted
  {
    var registry := new HandleSet(kind);
    answers := [];
    for n := 0 to |ops|
      invariant registry.Valid() && registry.kind == kind && fresh(registry) && fresh(registry.nodes)
      invariant Run(kind, [], ops[..n]) == Trace(registry.Slots(), answers, registry.deleted)
    {
      RunOneMore(kind, [], ops, n);
      var answer := registry.Call(ops[n]);
      answers := answers + [answer];
    }
    assert ops[..|ops|] == ops;
    deleted := registry.deleted;
  }
}
