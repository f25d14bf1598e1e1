/** The gateway's mock backend: a heap-allocated linked list edited through a pointer to a pointer. */
module Backend {
  import opened Bytes
  import opened Entries

  datatype Outcome = Ok | NotFound | Failure

  type Store = map<seq<byte>, seq<byte>>

  /** Which of the allocations that a put may ask for are granted. */
  datatype Grants = Grants(replacement: bool, node: bool, key: bool)

  // ----- what each operation means for the map

  function PutOutcome(m: Store, key: seq<byte>, grants: Grants): Outcome {
    if grants.replacement && (key in m || (grants.node && grants.key)) then Ok else Failure
  }

  function PutStore(m: Store, key: seq<byte>, value: seq<byte>, grants: Grants): Store {
    if PutOutcome(m, key, grants) == Ok then m[key := value] else m
  }

  function GetOutcome(m: Store, key: seq<byte>, capacity: nat): Outcome {
    if key !in m then NotFound else if capacity < |m[key]| then Failure else Ok
  }

  // ----- memory

  /** A `struct object *` variable: the list head, or the `next` field of a list node. */
  class Cell {
    var target: StoredObject?

    constructor ()
      ensures target == null
    {
      target := null;
    }
  }

  class StoredObject {
    const next: Cell
    var keyLen: nat
    var valueLen: nat
    var key: array?<byte>
    var value: array?<byte>

    /** calloc: every field zero */
    constructor ()
      ensures fresh(next) && next.target == null
    {
      next := new Cell();
      keyLen, valueLen, key, value := 0, 0, null, null;
    }
  }

  /** malloc, calloc and free as this file uses them; `live` holds the blocks not yet freed. */
  class Allocator {
    ghost var live: set<object>

    constructor ()
      ensures live == {}
    {
      live := {};
    }

    method Malloc(size: nat, granted: bool) returns (block: array?<byte>)
      modifies this
      ensures granted <==> block != null
      ensures block == null ==> live == old(live)
      ensures block != null ==> fresh(block) && block.Length == size && live == old(live) + {block}
    {
      if granted {
        block := new byte[size];
        live := live + {block};
      } else {
        block := null;
      }
    }

    method CallocObject(granted: bool) returns (block: StoredObject?)
      modifies this
      ensures granted <==> block != null
      ensures block == null ==> live == old(live)
      ensures block != null ==>
        fresh(block) && fresh(block.next) && block.next.target == null && live == old(live) + {block}
    {
      if granted {
        block := new StoredObject();
        live := live + {block};
      } else {
        block := null;
      }
    }

    /** Freeing a block twice, or one that was never allocated, is ruled out by the precondition. */
    method Free(block: object)
      requires block in live
      modifies this
      ensures live == old(live) - {block}
    {
      live := live - {block};
    }
  }

  // ----- the list

  /** One list element: its three blocks (the node itself, the key, the value) and what they hold. */
  datatype Slot = Slot(node: StoredObject, key: array<byte>, value: array<byte>, entry: Entry)

  ghost predicate Holds(s: Slot)
    reads s.node, s.key, s.value
  {
    && s.node.key == s.key && s.node.value == s.value
    && s.node.keyLen == |s.entry.key| == s.key.Length
    && s.node.valueLen == |s.entry.value| <= s.value.Length
    && s.key[..] == s.entry.key
    && s.value[..|s.entry.value|] == s.entry.value
  }

  ghost function Parts(s: Slot): set<object> {
    {s.node, s.node.next, s.key, s.value}
  }

  ghost function Footprint(slots: seq<Slot>): set<object> {
    if slots == [] then {} else Parts(slots[0]) + Footprint(slots[1..])
  }

  /** The malloc'd blocks of a list; the `next` field is part of its node. */
  ghost function BlocksOf(slots: seq<Slot>): (blocks: set<object>)
    ensures forall block <- blocks :: !(block is Cell) && !(block is Allocator) && !(block is MockBackend)
  {
    if slots == [] then {} else {slots[0].node, slots[0].key, slots[0].value} + BlocksOf(slots[1..])
  }

  /** A node with its key copied in; when either block is refused nothing stays allocated. */
  method NewObject(heap: Allocator, key: seq<byte>, grants: Grants) returns (node: StoredObject?)
    modifies heap
    ensures node != null <==> grants.node && grants.key
    ensures node == null ==> heap.live == old(heap.live)
    ensures node != null ==>
      && fresh(node) && fresh(node.next) && node.key != null && fresh(node.key)
      && heap.live == old(heap.live) + {node, node.key}
      && node.keyLen == node.key.Length == |key| && node.key[..] == key
  {
    node := heap.CallocObject(grants.node);
    if node == null {
      return;
    }
    node.key := heap.Malloc(|key|, grants.key);
    if node.key == null {
      heap.Free(node);
      return null;
    }
    Memcpy(node.key, 0, key);
    node.keyLen := |key|;
  }

  /** The three calls of free that give back an element. */
  method FreeObject(heap: Allocator, node: StoredObject)
    requires node.key != null && node.value != null && node.key != node.value
    requires {node, node.key, node.value} <= heap.live
    modifies heap
    ensures heap.live == old(heap.live) - {node, node.key, node.value}
  {
    heap.Free(node.key);
    heap.Free(node.value);
    heap.Free(node);
  }

  /** Every node carries its own key and value blocks, filled as its entry says. */
  ghost predicate AllHold(slots: seq<Slot>)
    reads BlocksOf(slots)
  {
    slots != [] ==> Holds(slots[0]) && AllHold(slots[1..])
  }

  lemma {:induction false} HoldAt(slots: seq<Slot>, at: nat)
    requires AllHold(slots) && at < |slots|
    ensures Holds(slots[at])
    ensures slots[at].node.key == slots[at].key && slots[at].node.value == slots[at].value
    ensures {slots[at].node, slots[at].key, slots[at].value} <= BlocksOf(slots)
  {
    if at > 0 {
      HoldAt(slots[1..], at - 1);
      assert slots[1..][at - 1] == slots[at];
    }
  }

  lemma {:induction false} HoldAll(slots: seq<Slot>)
    requires forall i | 0 <= i < |slots| :: Holds(slots[i])
    ensures AllHold(slots)
  {
    if slots != [] {
      forall i | 0 <= i < |slots[1..]| ensures Holds(slots[1..][i]) {
        assert slots[1..][i] == slots[i + 1];
      }
      HoldAll(slots[1..]);
    }
  }

  /** No two elements share a block, so the list has no cycle and no aliased buffer. */
  ghost predicate Separate(slots: seq<Slot>) {
    slots != [] ==>
      && slots[0].key != slots[0].value
      && Parts(slots[0]) !! Footprint(slots[1..])
      && Separate(slots[1..])
  }

  /** The cells that lead from `cell` to the last of these elements. */
  ghost function Trail(cell: Cell, slots: seq<Slot>): (cells: set<Cell>)
    ensures cells <= {cell} + Footprint(slots)
    decreases |slots|
  {
    if slots == [] then {} else {cell} + Trail(slots[0].node.next, slots[1..])
  }

  /** The cell after the last element. */
  ghost function EndCell(cell: Cell, slots: seq<Slot>): (end: Cell)
    ensures end in {cell} + Footprint(slots)
    decreases |slots|
  {
    if slots == [] then cell else EndCell(slots[0].node.next, slots[1..])
  }

  /** Following `cell` visits exactly these elements and arrives at the end cell. */
  ghost predicate Segment(cell: Cell, slots: seq<Slot>)
    reads Trail(cell, slots)
    decreases |slots|
  {
    slots != [] ==> cell.target == slots[0].node && Segment(slots[0].node.next, slots[1..])
  }

  lemma {:induction false} Join(cell: Cell, left: seq<Slot>, right: seq<Slot>)
    requires Segment(cell, left) && Segment(EndCell(cell, left), right)
    ensures Segment(cell, left + right) && EndCell(cell, left + right) == EndCell(EndCell(cell, left), right)
    ensures Trail(cell, left + right) == Trail(cell, left) + Trail(EndCell(cell, left), right)
    decreases |left|
  {
    if left == [] {
      assert left + right == right;
    } else {
      assert (left + right)[1..] == left[1..] + right;
      Join(left[0].node.next, left[1..], right);
    }
  }

  lemma {:induction false} EndNotOnTrail(cell: Cell, slots: seq<Slot>)
    requires Separate(slots) && cell !in Footprint(slots)
    ensures EndCell(cell, slots) !in Trail(cell, slots)
    decreases |slots|
  {
    if slots != [] {
      EndNotOnTrail(slots[0].node.next, slots[1..]);
    }
  }

  /** Which nodes follow which depends on the nodes alone, not on the keys and values they carry. */
  lemma {:induction false} SameNodes(cell: Cell, slots: seq<Slot>, others: seq<Slot>)
    requires |slots| == |others| && forall i | 0 <= i < |slots| :: slots[i].node == others[i].node
    requires Segment(cell, slots)
    ensures Segment(cell, others) && EndCell(cell, others) == EndCell(cell, slots)
    decreases |slots|
  {
    if slots != [] {
      SameNodes(slots[0].node.next, slots[1..], others[1..]);
    }
  }

  ghost function EntriesOf(slots: seq<Slot>): (es: seq<Entry>)
    ensures |es| == |slots|
    ensures forall i | 0 <= i < |slots| :: es[i] == slots[i].entry
  {
    if slots == [] then [] else [slots[0].entry] + EntriesOf(slots[1..])
  }

  ghost function Dropped(slots: seq<Slot>, at: nat): seq<Slot>
    requires at < |slots|
  {
    slots[..at] + slots[at + 1..]
  }

  ghost function Revalued(slots: seq<Slot>, at: nat, block: array<byte>, value: seq<byte>): seq<Slot>
    requires at < |slots|
  {
    slots[at := slots[at].(value := block, entry := Entry(slots[at].entry.key, value))]
  }

  lemma {:induction false} PartOf(slots: seq<Slot>, at: nat)
    requires at < |slots|
    ensures Parts(slots[at]) <= Footprint(slots)
  {
    if at > 0 {
      PartOf(slots[1..], at - 1);
      assert slots[1..][at - 1] == slots[at];
    }
  }

  lemma {:induction false} DistinctNodes(slots: seq<Slot>)
    requires Separate(slots)
    ensures forall i, j | 0 <= i < j < |slots| :: Parts(slots[i]) !! Parts(slots[j])
  {
    if slots != [] {
      DistinctNodes(slots[1..]);
      forall i, j | 0 <= i < j < |slots| ensures Parts(slots[i]) !! Parts(slots[j]) {
        assert slots[1..][j - 1] == slots[j];
        if i == 0 {
          PartOf(slots[1..], j - 1);
        } else {
          assert slots[1..][i - 1] == slots[i];
        }
      }
    }
  }

  lemma {:induction false} RevaluedSeparate(slots: seq<Slot>, at: nat, block: array<byte>, value: seq<byte>)
    requires Separate(slots) && at < |slots| && block !in Footprint(slots)
    ensures Separate(Revalued(slots, at, block, value))
    ensures Footprint(Revalued(slots, at, block, value)) <= Footprint(slots) + {block}
  {
    var changed := Revalued(slots, at, block, value);
    if at == 0 {
      assert changed[1..] == slots[1..];
    } else {
      RevaluedSeparate(slots[1..], at - 1, block, value);
      assert changed[1..] == Revalued(slots[1..], at - 1, block, value);
    }
  }

  lemma {:induction false} RevaluedBlocks(slots: seq<Slot>, at: nat, block: array<byte>, value: seq<byte>)
    requires Separate(slots) && at < |slots| && block !in Footprint(slots)
    ensures BlocksOf(Revalued(slots, at, block, value)) == BlocksOf(slots) - {slots[at].value} + {block}
  {
    var changed := Revalued(slots, at, block, value);
    BlocksInFootprint(slots[1..]);
    if at == 0 {
      assert changed[1..] == slots[1..];
    } else {
      RevaluedBlocks(slots[1..], at - 1, block, value);
      assert changed[1..] == Revalued(slots[1..], at - 1, block, value);
      HoldBlocks(slots[1..], at - 1);
    }
  }

  lemma {:induction false} RevaluedSlots(slots: seq<Slot>, at: nat, block: array<byte>, value: seq<byte>)
    requires Separate(slots) && at < |slots| && block !in Footprint(slots)
    ensures Separate(Revalued(slots, at, block, value))
    ensures Footprint(Revalued(slots, at, block, value)) <= Footprint(slots) + {block}
    ensures EntriesOf(Revalued(slots, at, block, value)) ==
      EntriesOf(slots)[at := Entry(slots[at].entry.key, value)]
    ensures BlocksOf(Revalued(slots, at, block, value)) == BlocksOf(slots) - {slots[at].value} + {block}
  {
    hide Separate, Footprint, BlocksOf, EntriesOf;
    RevaluedSeparate(slots, at, block, value);
    RevaluedBlocks(slots, at, block, value);
  }

  lemma {:induction false} BlocksInFootprint(slots: seq<Slot>)
    ensures BlocksOf(slots) <= Footprint(slots)
  {
    if slots != [] {
      BlocksInFootprint(slots[1..]);
    }
  }

  lemma {:induction false} HoldBlocks(slots: seq<Slot>, at: nat)
    requires at < |slots|
    ensures {slots[at].node, slots[at].key, slots[at].value} <= BlocksOf(slots)
  {
    if at > 0 {
      HoldBlocks(slots[1..], at - 1);
      assert slots[1..][at - 1] == slots[at];
    }
  }

  lemma {:induction false} PushSlot(cell: Cell, slot: Slot, slots: seq<Slot>)
    requires Separate(slots) && DistinctKeys(EntriesOf(slots))
    requires Parts(slot) !! Footprint(slots) && slot.key != slot.value
    requires forall i | 0 <= i < |slots| :: slots[i].entry.key != slot.entry.key
    ensures Separate([slot] + slots) && Footprint([slot] + slots) == Parts(slot) + Footprint(slots)
    ensures BlocksOf([slot] + slots) == {slot.node, slot.key, slot.value} + BlocksOf(slots)
    ensures EntriesOf([slot] + slots) == [slot.entry] + EntriesOf(slots)
    ensures DistinctKeys(EntriesOf([slot] + slots))
    ensures AsMap(EntriesOf([slot] + slots)) == AsMap(EntriesOf(slots))[slot.entry.key := slot.entry.value]
    ensures Trail(cell, [slot] + slots) == {cell} + Trail(slot.node.next, slots)
    ensures EndCell(cell, [slot] + slots) == EndCell(slot.node.next, slots)
  {
    assert ([slot] + slots)[1..] == slots;
  }

  /** A segment starts at any cell that points where the original cell pointed. */
  lemma {:induction false} Unfold(cell: Cell, slots: seq<Slot>)
    requires Segment(cell, slots)
    ensures Trail(cell, slots) <= {cell} + Footprint(slots)
    ensures slots == [] ==> EndCell(cell, slots) == cell
    ensures slots != [] ==>
      && cell.target == slots[0].node
      && Segment(slots[0].node.next, slots[1..])
      && Trail(slots[0].node.next, slots[1..]) <= Footprint(slots)
      && EndCell(cell, slots) == EndCell(slots[0].node.next, slots[1..])
      && EndCell(cell, slots) in Footprint(slots)
  {
  }

  lemma {:induction false} Fold(cell: Cell, slots: seq<Slot>)
    requires slots != [] ==> cell.target == slots[0].node && Segment(slots[0].node.next, slots[1..])
    ensures Segment(cell, slots)
    ensures EndCell(cell, slots) == if slots == [] then cell else EndCell(slots[0].node.next, slots[1..])
    ensures Trail(cell, slots) <= {cell} + Footprint(slots)
  {
  }

  lemma {:induction false} Step(start: Cell, cell: Cell, slots: seq<Slot>, at: nat)
    requires at < |slots|
    requires Segment(start, slots[..at]) && EndCell(start, slots[..at]) == cell && Segment(cell, slots[at..])
    ensures Segment(start, slots[..at + 1]) && EndCell(start, slots[..at + 1]) == slots[at].node.next
    ensures Segment(slots[at].node.next, slots[at + 1..])
    ensures EndCell(slots[at].node.next, slots[at + 1..]) == EndCell(cell, slots[at..])
  {
    assert slots[..at + 1] == slots[..at] + [slots[at]];
    assert slots[at..][1..] == slots[at + 1..];
    Join(start, slots[..at], [slots[at]]);
  }

  lemma {:induction false} PushSegment(cell: Cell, slot: Slot, slots: seq<Slot>)
    requires cell.target == slot.node && Segment(slot.node.next, slots)
    requires Holds(slot) && AllHold(slots)
    ensures Segment(cell, [slot] + slots) && AllHold([slot] + slots)
  {
    assert ([slot] + slots)[1..] == slots;
  }

  lemma {:induction false} Additive(left: seq<Slot>, right: seq<Slot>)
    ensures Footprint(left + right) == Footprint(left) + Footprint(right)
    ensures BlocksOf(left + right) == BlocksOf(left) + BlocksOf(right)
    ensures EntriesOf(left + right) == EntriesOf(left) + EntriesOf(right)
  {
    if left == [] {
      assert left + right == right;
    } else {
      assert (left + right)[1..] == left[1..] + right;
      Additive(left[1..], right);
    }
  }

  lemma {:induction false} SeparateParts(left: seq<Slot>, right: seq<Slot>)
    ensures Separate(left + right) <==> Separate(left) && Separate(right) && Footprint(left) !! Footprint(right)
  {
    if left == [] {
      assert left + right == right;
    } else {
      assert (left + right)[1..] == left[1..] + right;
      Additive(left[1..], right);
      SeparateParts(left[1..], right);
    }
  }

  lemma {:induction false} DropSlot(slots: seq<Slot>, at: nat)
    requires Separate(slots) && at < |slots|
    ensures Separate(slots[..at]) && Separate(Dropped(slots, at))
    ensures Footprint(slots[..at]) !! Footprint(slots[at + 1..]) + Parts(slots[at])
    ensures Parts(slots[at]) !! Footprint(slots[at + 1..])
    ensures Footprint(Dropped(slots, at)) == Footprint(slots[..at]) + Footprint(slots[at + 1..])
    ensures Footprint(slots) == Footprint(Dropped(slots, at)) + Parts(slots[at])
  {
    hide BlocksOf, EntriesOf;
    var left, right := slots[..at], slots[at + 1..];
    assert slots == left + slots[at..] && slots[at..][1..] == right;
    SeparateParts(left, slots[at..]);
    SeparateParts(left, right);
    Additive(left, slots[at..]);
    Additive(left, right);
  }

  lemma {:induction false} DropBlocks(slots: seq<Slot>, at: nat)
    requires Separate(slots) && at < |slots|
    ensures slots[at].key != slots[at].value
    ensures BlocksOf(Dropped(slots, at)) == BlocksOf(slots) - {slots[at].node, slots[at].key, slots[at].value}
  {
    BlocksInFootprint(slots[1..]);
    if at == 0 {
      assert Dropped(slots, 0) == slots[1..];
    } else {
      assert Dropped(slots, at)[1..] == Dropped(slots[1..], at - 1);
      DropBlocks(slots[1..], at - 1);
      HoldBlocks(slots[1..], at - 1);
    }
  }

  lemma {:induction false} DropEntry(slots: seq<Slot>, at: nat)
    requires at < |slots|
    ensures EntriesOf(Dropped(slots, at)) == Without(EntriesOf(slots), at)
  {
    var left, right := slots[..at], slots[at + 1..];
    assert EntriesOf([slots[at]]) == [slots[at].entry];
    hide EntriesOf, Footprint, BlocksOf;
    CutAround(slots, at);
    Additive(left, [slots[at]] + right);
    Additive([slots[at]], right);
    Additive(left, right);
    WithoutMiddle(EntriesOf(left), slots[at].entry, EntriesOf(right));
  }

  /** The map loses exactly the dropped element's key. */
  lemma {:induction false} DropContents(slots: seq<Slot>, at: nat)
    requires at < |slots| && DistinctKeys(EntriesOf(slots))
    ensures DistinctKeys(EntriesOf(Dropped(slots, at)))
    ensures AsMap(EntriesOf(Dropped(slots, at))) == AsMap(EntriesOf(slots)) - {slots[at].entry.key}
  {
    hide EntriesOf, DistinctKeys, AsMap;
    DropEntry(slots, at);
    WithoutDistinct(EntriesOf(slots), at);
    Remove(EntriesOf(slots), at);
  }

  lemma {:induction false} DropHold(slots: seq<Slot>, at: nat)
    requires at < |slots| && AllHold(slots)
    ensures AllHold(Dropped(slots, at))
  {
    hide AllHold, Holds;
    forall i | 0 <= i < |Dropped(slots, at)| ensures Holds(Dropped(slots, at)[i]) {
      HoldAt(slots, if i < at then i else i + 1);
    }
    HoldAll(Dropped(slots, at));
  }

  lemma {:induction false} CountBlocks(slots: seq<Slot>)
    requires Separate(slots)
    ensures |BlocksOf(slots)| == 3 * |slots|
  {
    if slots != [] {
      CountBlocks(slots[1..]);
      BlocksInFootprint(slots[1..]);
      var s := slots[0];
      assert |{s.node as object, s.key, s.value}| == 3;
    }
  }

  class MockBackend {
    const head: Cell
    const heap: Allocator
    ghost var slots: seq<Slot>
    ghost var Repr: set<object>

    ghost predicate Shape()
      reads this, Repr
    {
      && Repr == {this, head, heap} + Footprint(slots)
      && {this, head, heap} !! Footprint(slots)
      && Separate(slots)
      && DistinctKeys(EntriesOf(slots))
      && BlocksOf(slots) <= Repr
      && AllHold(slots)
      && Trail(head, slots) <= Repr
      && Segment(head, slots)
      && EndCell(head, slots).target == null
    }

    /** The list is well formed and its blocks are exactly the live ones: nothing leaked, nothing dangling. */
    ghost predicate Valid()
      reads this, Repr
    {
      Shape() && heap.live == {this, head} + BlocksOf(slots)
    }

    ghost function Contents(): Store
      reads this
    {
      AsMap(EntriesOf(slots))
    }

    /** The two calloc calls of the creation function succeeded. */
    constructor (heap: Allocator)
      requires heap.live == {}
      modifies heap
      ensures Valid() && fresh(Repr - {heap}) && this.heap == heap
      ensures Contents() == map[]
    {
      this.heap := heap;
      head := new Cell();
      slots := [];
      new;
      Repr := {this, head, heap};
      heap.live := {this, head};
    }

    method FindObject(key: seq<byte>) returns (found: StoredObject?, ghost at: nat)
      requires Valid()
      ensures found == null ==> key !in Contents() && forall i | 0 <= i < |slots| :: slots[i].entry.key != key
      ensures found != null ==>
        && at < |slots| && slots[at].node == found && slots[at].entry.key == key
        && key in Contents() && Contents()[key] == slots[at].entry.value
    {
      at := 0;
      var node := head.target;
      ghost var cell := head;
      while node != null
        invariant at <= |slots| && node == cell.target
        invariant Segment(cell, slots[at..]) && EndCell(cell, slots[at..]) == EndCell(head, slots)
        invariant forall i | 0 <= i < at :: slots[i].entry.key != key
        decreases |slots| - at
      {
        HoldAt(slots, at);
        assert node == slots[at].node;
        if node.keyLen == |key| && node.key[..] == key {
          Lookup(EntriesOf(slots), at);
          return node, at;
        }
        assert slots[at..][1..] == slots[at + 1..];
        cell, at := node.next, at + 1;
        node := node.next.target;
      }
      Absent(EntriesOf(slots), key);
      found := null;
    }

    method Put(key: seq<byte>, value: seq<byte>, grants: Grants) returns (outcome: Outcome)
      requires Valid()
      modifies Repr
      ensures Valid() && fresh(Repr - old(Repr))
      ensures outcome == PutOutcome(old(Contents()), key, grants)
      ensures Contents() == PutStore(old(Contents()), key, value, grants)
    {
      hide Footprint, BlocksOf, Separate, Segment, EndCell, Trail, EntriesOf, DistinctKeys, AllHold, AsMap;
      var node, at := FindObject(key);
      var replacement := heap.Malloc(if |value| > 0 then |value| else 1, grants.replacement);
      if replacement == null {
        return Failure;
      }
      Memcpy(replacement, 0, value);
      if node == null {
        outcome := Insert(key, replacement, value, grants);
      } else {
        HoldAt(slots, at);
        heap.Free(node.value);
        SetValue(node, replacement, value, at);
        outcome := Ok;
      }
    }

    /** The branch of a put that finds no object for the key. */
    method Insert(key: seq<byte>, replacement: array<byte>, value: seq<byte>, grants: Grants)
      returns (outcome: Outcome)
      requires Shape() && replacement !in Repr
      requires heap.live == {this, head, replacement} + BlocksOf(slots)
      requires forall i | 0 <= i < |slots| :: slots[i].entry.key != key
      requires |value| <= replacement.Length && replacement[..|value|] == value
      modifies Repr
      ensures Valid() && fresh(Repr - old(Repr) - {replacement})
      ensures outcome == if grants.node && grants.key then Ok else Failure
      ensures Contents() == if outcome == Ok then old(Contents())[key := value] else old(Contents())
    {
      hide Footprint, BlocksOf, Separate, Segment, EndCell, Trail, EntriesOf, DistinctKeys, AllHold, AsMap;
      var node := NewObject(heap, key, grants);
      if node == null {
        heap.Free(replacement);
        return Failure;
      }
      PushFront(node, replacement, key, value);
      outcome := Ok;
    }

    /** The new element goes in front of the list. */
    method PushFront(node: StoredObject, replacement: array<byte>, ghost key: seq<byte>, value: seq<byte>)
      requires Shape()
      requires {node, node.next, replacement} !! Repr && node.key != null && node.key !in Repr && node.key != replacement
      requires forall i | 0 <= i < |slots| :: slots[i].entry.key != key
      requires node.keyLen == node.key.Length == |key| && node.key[..] == key
      requires |value| <= replacement.Length && replacement[..|value|] == value
      modifies this, head, node, node.next
      ensures Shape() && node.key == old(node.key)
      ensures Repr == old(Repr) + {node, node.next, node.key, replacement}
      ensures Contents() == old(Contents())[key := value]
      ensures BlocksOf(slots) == {node, node.key, replacement} + BlocksOf(old(slots))
    {
      hide Footprint, BlocksOf, Separate, Segment, EndCell, Trail, EntriesOf, DistinctKeys, AllHold, AsMap;
      ghost var rest := slots;
      ghost var slot := Slot(node, node.key, replacement, Entry(key, value));
      Unfold(head, rest);
      node.next.target := head.target;
      head.target := node;
      node.value := replacement;
      node.valueLen := |value|;
      slots := [slot] + rest;
      Repr := Repr + Parts(slot);
      PushSlot(head, slot, rest);
      Fold(node.next, rest);
      PushSegment(head, slot, rest);
    }

    method SetValue(node: StoredObject, replacement: array<byte>, value: seq<byte>, ghost at: nat)
      requires Shape() && at < |slots| && slots[at].node == node
      requires replacement !in Repr && |value| <= replacement.Length && replacement[..|value|] == value
      modifies this, node
      ensures Shape()
      ensures Repr <= old(Repr) + {replacement}
      ensures Contents() == old(Contents())[old(slots)[at].entry.key := value]
      ensures BlocksOf(slots) == BlocksOf(old(slots)) - {old(node.value)} + {replacement}
    {
      hide Footprint, BlocksOf, Separate, Segment, EndCell, Trail, EntriesOf, DistinctKeys, AllHold, AsMap;
      ghost var before := slots;
      DistinctNodes(before);
      forall i | 0 <= i < |before| ensures Holds(before[i]) && {before[i].node, before[i].key, before[i].value} <= Repr {
        HoldAt(before, i);
      }
      Unfold(head, before);
      node.value := replacement;
      node.valueLen := |value|;
      slots := Revalued(before, at, replacement, value);
      Repr := {this, head, heap} + Footprint(slots);
      RevaluedSlots(before, at, replacement, value);
      HoldAll(slots);
      BlocksInFootprint(slots);
      SameNodes(head, before, slots);
      Unfold(head, slots);
      Replace(EntriesOf(before), at, value);
    }

    method Get(key: seq<byte>, value: array<byte>, capacity: nat) returns (outcome: Outcome, length: nat)
      requires Valid() && value !in Repr && capacity <= value.Length
      modifies value
      ensures Valid()
      ensures outcome == GetOutcome(Contents(), key, capacity)
      ensures outcome == Ok ==> length == |Contents()[key]| <= capacity && value[..length] == Contents()[key]
      ensures outcome != Ok ==> length == capacity && value[..] == old(value[..])
    {
      hide Footprint, BlocksOf, Separate, Segment, EndCell, Trail, EntriesOf, DistinctKeys, AllHold, AsMap;
      length := capacity;
      var node, at := FindObject(key);
      if node == null {
        return NotFound, length;
      }
      HoldAt(slots, at);
      if capacity < node.valueLen {
        return Failure, length;
      }
      Memcpy(value, 0, node.value[..node.valueLen]);
      length := node.valueLen;
      outcome := Ok;
    }

    method Delete(key: seq<byte>) returns (outcome: Outcome)
      requires Valid()
      modifies Repr
      ensures Valid() && Repr <= old(Repr)
      ensures outcome == if key in old(Contents()) then Ok else NotFound
      ensures Contents() == old(Contents()) - {key}
    {
      hide Footprint, BlocksOf, Separate, Segment, EndCell, Trail, EntriesOf, DistinctKeys, AllHold, AsMap;
      var cursor := head;
      ghost var at := 0;
      assert slots[0..] == slots;
      Fold(head, slots[..0]);
      while cursor.target != null
        invariant at <= |slots|
        invariant cursor in Repr && Segment(head, slots[..at]) && EndCell(head, slots[..at]) == cursor
        invariant Segment(cursor, slots[at..]) && EndCell(cursor, slots[at..]) == EndCell(head, slots)
        invariant forall i | 0 <= i < at :: slots[i].entry.key != key
        decreases |slots| - at
        modifies {}
      {
        Unfold(cursor, slots[at..]);
        HoldAt(slots, at);
        var node := cursor.target;
        if node.keyLen == |key| && node.key[..] == key {
          break;
        }
        Step(head, cursor, slots, at);
        PartOf(slots, at);
        cursor, at := node.next, at + 1;
      }
      Unfold(cursor, slots[at..]);
      if cursor.target == null {
        Absent(EntriesOf(slots), key);
        return NotFound;
      }
      HoldAt(slots, at);
      Lookup(EntriesOf(slots), at);
      DropBlocks(slots, at);
      var node := cursor.target;
      Unlink(cursor, at);
      FreeObject(heap, node);
      outcome := Ok;
    }

    /** `*cursor = object->next`: exactly the element the cursor points at leaves the list. */
    method Unlink(cursor: Cell, ghost at: nat)
      requires Shape() && at < |slots| && cursor in Repr
      requires Segment(head, slots[..at]) && EndCell(head, slots[..at]) == cursor
      requires Segment(cursor, slots[at..]) && EndCell(cursor, slots[at..]) == EndCell(head, slots)
      modifies this, cursor
      ensures Shape() && Repr <= old(Repr)
      ensures Contents() == old(Contents()) - {old(slots)[at].entry.key}
      ensures BlocksOf(slots) ==
        BlocksOf(old(slots)) - {old(slots)[at].node, old(slots)[at].key, old(slots)[at].value}
    {
      hide Footprint, BlocksOf, Separate, Segment, EndCell, Trail, EntriesOf, DistinctKeys, AllHold, AsMap;
      ghost var before, left, right := slots, slots[..at], slots[at + 1..];
      ghost var node := before[at].node;
      assert slots[at..][1..] == right;
      DropSlot(before, at);
      DropBlocks(before, at);
      DropContents(before, at);
      DropHold(before, at);
      Unfold(cursor, slots[at..]);
      Unfold(node.next, right);
      Unfold(head, left);
      EndNotOnTrail(head, left);
      cursor.target := cursor.target.next.target;
      slots := Dropped(before, at);
      Repr := {this, head, heap} + Footprint(slots);
      Fold(cursor, right);
      Join(head, left, right);
      Unfold(head, slots);
      BlocksInFootprint(slots);
    }

    /** Every block goes back exactly once and none is left. */
    method Destroy()
      requires Valid()
      modifies heap
      ensures heap.live == {}
    {
      hide Footprint, BlocksOf, Separate, Segment, EndCell, Trail, EntriesOf, DistinctKeys, AllHold, Holds, AsMap;
      var node := head.target;
      ghost var cell, rest := head, slots;
      Unfold(cell, rest);
      while node != null
        invariant node == cell.target && Separate(rest) && AllHold(rest)
        invariant Segment(cell, rest) && EndCell(cell, rest) == EndCell(head, slots)
        invariant Footprint(rest) <= Repr && cell in Repr
        invariant heap.live == {this, head} + BlocksOf(rest)
        decreases |rest|
      {
        Unfold(cell, rest);
        HoldAt(rest, 0);
        DropBlocks(rest, 0);
        DropSlot(rest, 0);
        HoldRest(rest);
        assert Dropped(rest, 0) == rest[1..];
        Unfold(node.next, rest[1..]);
        var next := node.next.target;
        FreeObject(heap, node);
        cell, rest := node.next, rest[1..];
        node := next;
      }
      NoBlocks(cell, rest);
      heap.Free(head);
      heap.Free(this);
    }
  }

  lemma {:induction false} HoldRest(slots: seq<Slot>)
    requires AllHold(slots) && slots != []
    ensures AllHold(slots[1..])
  {
  }

  lemma {:induction false} NoBlocks(cell: Cell, slots: seq<Slot>)
    requires Segment(cell, slots) && cell.target == null
    ensures slots == [] && BlocksOf(slots) == {}
  {
  }

  /** Beside the two blocks of the store itself, each stored key owns three: node, key and value. */
  lemma {:induction false} ThreeBlocksPerKey(backend: MockBackend)
    requires backend.Valid()
    ensures |backend.heap.live| == 2 + 3 * |backend.Contents()|
  {
    CountBlocks(backend.slots);
    CountKeys(EntriesOf(backend.slots));
    var own: set<object> := {backend, backend.head};
    assert own !! BlocksOf(backend.slots);
    assert |own + BlocksOf(backend.slots)| == |own| + |BlocksOf(backend.slots)|;
  }

  lemma {:induction false} CountKeys(es: seq<Entry>)
    requires DistinctKeys(es)
    ensures |AsMap(es)| == |es|
  {
    if es != [] {
      CountKeys(es[1..]);
      RemoveFirst(es);
      assert AsMap(es).Keys == AsMap(es[1..]).Keys + {es[0].key};
    }
  }
}
