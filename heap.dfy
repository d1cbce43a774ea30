/** The heap arena: objects keyed by address, and the next address to hand out. */
module Heaps {
  import opened Errors
  import opened Values
  import opened Instructions

  /** What a spawned actor or supervisor is: a new VM over `bytecode`, started at `ip`.
      Its mailbox and channel ends are not part of this model. */
  datatype VmImage = VmImage(bytecode: seq<OpCode>, ip: nat)

  /** A heap object. A native function is named by its name and arity; the Rust
      function pointer it carries is not part of this model. */
  datatype HeapObject =
    | Array(elements: seq<Value>)
    | String(text: string)
    | Module(name: string, exports: map<string, Value>)
    | NativeFunction(name: string, arity: nat)
    | Actor(vm: VmImage)
    | Supervisor(vm: VmImage)

  /** `HeapObject::is_alive`, a placeholder that keeps every object. */
  predicate IsAlive(o: HeapObject) { true }

  /** The value of a heap. */
  datatype HeapState = HeapState(objects: map<nat, HeapObject>, nextAddress: nat) {
    /** Every stored address was handed out already. */
    ghost predicate Valid() {
      forall a :: a in objects ==> a < nextAddress
    }
  }

  const EmptyHeap := HeapState(map[], 0)

  datatype Allocation = Allocation(heap: HeapState, address: nat)

  /** `Heap::get`. */
  function Lookup(h: HeapState, address: nat): (r: Option<HeapObject>)
    ensures r.Some? <==> address in h.objects
    ensures r.Some? ==> r.value == h.objects[address]
  {
    if address in h.objects then Some(h.objects[address]) else None
  }

  /** `Heap::allocate`: store `o` at the next address and move the counter on. */
  function Alloc(h: HeapState, o: HeapObject): Allocation {
    Allocation(HeapState(h.objects[h.nextAddress := o], h.nextAddress + 1), h.nextAddress)
  }

  /** `Heap::collect_garbage`: keep the objects `IsAlive` accepts. */
  function Collect(h: HeapState): (r: HeapState)
    ensures r.nextAddress == h.nextAddress
    ensures forall a :: a in r.objects <==> a in h.objects && IsAlive(h.objects[a])
    ensures forall a :: a in r.objects ==> r.objects[a] == h.objects[a]
  {
    HeapState(map a | a in h.objects && IsAlive(h.objects[a]) :: h.objects[a], h.nextAddress)
  }

  /** The new heap is empty and hands out address 0 first. */
  lemma EmptyHeapValid()
    ensures EmptyHeap.Valid() && EmptyHeap.objects == map[] && Lookup(EmptyHeap, 0) == None
  {
  }

  /** `allocate` returns the old counter, bumps it by one, and the address is new. */
  lemma AllocFresh(h: HeapState, o: HeapObject)
    requires h.Valid()
    ensures Alloc(h, o).address == h.nextAddress
    ensures Alloc(h, o).address !in h.objects
    ensures Alloc(h, o).heap.nextAddress == h.nextAddress + 1
    ensures Alloc(h, o).heap.Valid()
  {
  }

  /** What was allocated can be read back at the returned address. */
  lemma AllocThenLookup(h: HeapState, o: HeapObject)
    ensures Lookup(Alloc(h, o).heap, Alloc(h, o).address) == Some(o)
  {
  }

  /** `allocate` leaves every entry that was already stored as it was. */
  lemma AllocKeepsOthers(h: HeapState, o: HeapObject, a: nat)
    requires h.Valid() && a in h.objects
    ensures Lookup(Alloc(h, o).heap, a) == Lookup(h, a)
  {
  }

  /** Two allocations in a row give strictly increasing addresses. */
  lemma AllocIncreasing(h: HeapState, o1: HeapObject, o2: HeapObject)
    ensures Alloc(h, o1).address < Alloc(Alloc(h, o1).heap, o2).address
  {
  }

  /** Collection only removes entries, and keeps the heap valid. */
  lemma CollectOnlyRemoves(h: HeapState)
    requires h.Valid()
    ensures Collect(h).Valid()
    ensures Collect(h).objects.Keys <= h.objects.Keys
  {
  }

  /** With the placeholder `is_alive`, collection changes nothing. */
  lemma CollectIsIdentity(h: HeapState)
    ensures Collect(h) == h
  {
    assert Collect(h).objects == h.objects;
  }

  /** The heap object itself: a map updated in place and a counter. */
  class Heap {
    var objects: map<nat, HeapObject>
    var nextAddress: nat

    function View(): HeapState
      reads this
    {
      HeapState(objects, nextAddress)
    }

    ghost predicate Valid()
      reads this
    {
      View().Valid()
    }

    /** `Heap::new`. */
    constructor ()
      ensures Valid() && View() == EmptyHeap
    {
      objects := map[];
      nextAddress := 0;
    }

    /** `Heap::allocate`. */
    method Allocate(o: HeapObject) returns (address: nat)
      requires Valid()
      modifies this
      ensures Valid()
      ensures Allocation(View(), address) == Alloc(old(View()), o)
      ensures address == old(nextAddress) && address !in old(objects)
    {
      address := nextAddress;
      objects := objects[address := o];
      nextAddress := nextAddress + 1;
    }

    /** `Heap::get`. */
    function Get(address: nat): (r: Option<HeapObject>)
      reads this
      ensures r.Some? <==> address in objects
      ensures r.Some? ==> r.value == objects[address]
    {
      Lookup(View(), address)
    }

    /** `Heap::get_mut`: the same lookup. The model does not hand out a mutable
        borrow; the only callers use it to call methods that change nothing. */
    method GetMut(address: nat) returns (r: Option<HeapObject>)
      ensures r == Get(address)
    {
      r := Lookup(View(), address);
    }

    /** `Heap::collect_garbage`. */
    method CollectGarbage()
      requires Valid()
      modifies this
      ensures Valid()
      ensures View() == Collect(old(View()))
    {
      objects := map a | a in objects && IsAlive(objects[a]) :: objects[a];
    }
  }
}
