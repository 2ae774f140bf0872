/**
  The map in shared memory: what one operation does under the lock, and the class whose
  methods do it. An operation is known to the arena by the allocations it makes: copies
  of key and value first, then what the container needs.
*/
module SharedMaps {
  import opened Tables
  import opened Arenas
  import opened Mutexes

  datatype Kind<V> = Insert(value: V) | InsertOrAssign(value: V) | Erase | Lookup

  /** The byte counts of the allocations made when the key is absent and when it is present. */
  datatype Call<K, V> = Call(kind: Kind<V>, key: K, absent: seq<nat>, present: seq<nat>)

  datatype Result<V> = Stored | Erased(count: nat) | Found(value: V) | KeyNotFound | OutOfMemory

  /** What a caller of an operation gets: nothing yet, an exception of the lock, or the operation's answer. */
  datatype Attempt<V> = StaysOut | LockThrows | Answers(result: Result<V>)

  /** The part of the segment that the mutex protects. */
  datatype Store<K, V> = Store(free: int, contents: map<K, V>)

  function Demand<K(==), V>(call: Call<K, V>, contents: map<K, V>): seq<nat> {
    if call.key in contents then call.present else call.absent
  }

  /** The free pointer after the allocations in order, and whether all of them succeeded. */
  function TakeAll(free: int, end: int, demand: seq<nat>): (int, bool)
    decreases |demand|
  {
    if demand == [] then (free, true)
    else if demand[0] > 0 && free + demand[0] > end then (free, false)
    else TakeAll(free + demand[0], end, demand[1..])
  }

  lemma TakeTwo(free: int, end: int, first: nat, second: nat)
    requires first > 0 && second > 0
    ensures TakeAll(free, end, [first, second])
         == if free + first > end then (free, false)
            else if free + first + second > end then (free + first, false)
            else (free + first + second, true)
  {
    assert [first, second][1..] == [second] && [second][1..] == [];
    assert TakeAll(free + first + second, end, []) == (free + first + second, true);
    assert TakeAll(free + first, end, [second])
        == if free + first + second > end then (free + first, false) else (free + first + second, true);
  }

  function Update<K(==), V>(call: Call<K, V>, contents: map<K, V>): (map<K, V>, Result<V>) {
    match call.kind
    case Insert(v) => (if call.key in contents then contents else contents[call.key := v], Stored)
    case InsertOrAssign(v) => (contents[call.key := v], Stored)
    case Erase => (contents - {call.key}, Erased(if call.key in contents then 1 else 0))
    case Lookup => (contents, if call.key in contents then Found(contents[call.key]) else KeyNotFound)
  }

  /** One operation, undisturbed: a failed allocation leaves the contents alone and keeps what was already taken. */
  function Apply<K(==), V>(s: Store<K, V>, end: int, call: Call<K, V>): (Store<K, V>, Result<V>) {
    var (free, ok) := TakeAll(s.free, end, Demand(call, s.contents));
    if !ok then (Store(free, s.contents), OutOfMemory)
    else
      var (contents, result) := Update(call, s.contents);
      (Store(free, contents), result)
  }

  function Sum(demand: seq<nat>): nat {
    if demand == [] then 0 else demand[0] + Sum(demand[1..])
  }

  /** The allocations succeed exactly when there is room for all of them; if not, what fits is taken. */
  lemma {:induction false} TakesWhatFits(free: int, end: int, demand: seq<nat>)
    ensures
      var (taken, ok) := TakeAll(free, end, demand);
      && (ok <==> Sum(demand) == 0 || free + Sum(demand) <= end)
      && (ok ==> taken == free + Sum(demand))
      && free <= taken && (free <= end ==> taken <= end)
    decreases |demand|
  {
    if demand != [] {
      TakesWhatFits(free + demand[0], end, demand[1..]);
    }
  }

  /**
    An operation fails exactly when its allocations do not fit, and then leaves the
    contents alone. Otherwise insert keeps a present value, insert_or_assign replaces it,
    erase counts what it removes and lookup finds it. None touches another key.
  */
  lemma OperationsOnAMap<K, V>(s: Store<K, V>, end: int, call: Call<K, V>)
    ensures
      var (next, r) := Apply(s, end, call);
      var present := call.key in s.contents;
      var demand := if present then call.present else call.absent;
      && (r == OutOfMemory <==> Sum(demand) > 0 && s.free + Sum(demand) > end)
      && (r != OutOfMemory ==> next.free == s.free + Sum(demand))
      && s.free <= next.free && (s.free <= end ==> next.free <= end)
      && (forall k :: k != call.key ==> (k in next.contents <==> k in s.contents)
                                        && (k in s.contents ==> next.contents[k] == s.contents[k]))
      && if r == OutOfMemory then next.contents == s.contents
         else
           match call.kind
           case Insert(value) =>
             && r == Stored && call.key in next.contents
             && next.contents[call.key] == if present then s.contents[call.key] else value
           case InsertOrAssign(value) =>
             r == Stored && call.key in next.contents && next.contents[call.key] == value
           case Erase =>
             && r == Erased(if present then 1 else 0) && call.key !in next.contents
             && |next.contents| + r.count == |s.contents|
           case Lookup =>
             && next.contents == s.contents
             && r == if present then Found(s.contents[call.key]) else KeyNotFound
  {
    TakesWhatFits(s.free, end, Demand(call, s.contents));
    if call.kind.Erase? {
      if call.key in s.contents {
        assert s.contents == (s.contents - {call.key})[call.key := s.contents[call.key]];
      } else {
        assert s.contents - {call.key} == s.contents;
      }
    }
  }

  // ---------------------------------------------------------------- the class

  class Map<K(==), V> {
    const mutex: Mutex
    const allocator: LinearAllocator
    var contents: map<K, V>

    function Protected(): Store<K, V>
      reads this, allocator.shared
    {
      Store(allocator.shared.free, contents)
    }

    constructor (mutex: Mutex, allocator: LinearAllocator)
      ensures this.mutex == mutex && this.allocator == allocator && contents == map[]
    {
      this.mutex, this.allocator := mutex, allocator;
      contents := map[];
    }

    /**
      The public constructor: room for the mutex, then for the map's header, then the
      two objects in it. Whichever step throws, what was taken is given back, which does
      not make it free again.
    */
    static method Create(
      allocator: LinearAllocator, mutexSize: nat, headerSize: nat, mutexWorks: bool, headerWorks: bool)
      returns (m: Map?<K, V>)
      requires allocator.elem == 1 && mutexSize > 0 && headerSize > 0
      requires allocator.shared.start <= allocator.shared.free
      modifies allocator.shared
      ensures allocator.shared.start == old(allocator.shared.start) && allocator.shared.end == old(allocator.shared.end)
      ensures
        var (free, fits) := TakeAll(old(allocator.shared.free), allocator.shared.end, [mutexSize, headerSize]);
        allocator.shared.free == free && (m != null <==> fits && mutexWorks && headerWorks)
      ensures m != null ==>
        && fresh(m) && fresh(m.mutex) && m.mutex.value == 1
        && m.allocator == allocator && m.contents == map[]
    {
      ghost var free, end := allocator.shared.free, allocator.shared.end;
      TakeTwo(free, end, mutexSize, headerSize);
      var mutexMemory := allocator.Allocate(mutexSize);
      if mutexMemory.BadAlloc? {
        return null;
      }
      var mapMemory := allocator.Allocate(headerSize);
      if mapMemory.BadAlloc? {
        var ok := allocator.Deallocate(Some(mutexMemory.address), mutexSize);
        return null;
      }
      if !mutexWorks || !headerWorks {
        var ok := allocator.Deallocate(Some(mapMemory.address), headerSize);
        ok := allocator.Deallocate(Some(mutexMemory.address), mutexSize);
        return null;
      }
      var mutex := new Mutex();
      m := new Map(mutex, allocator);
    }

    method TakeMemory(demand: seq<nat>) returns (ok: bool)
      requires allocator.elem == 1
      modifies allocator.shared
      ensures (allocator.shared.free, ok) == TakeAll(old(allocator.shared.free), allocator.shared.end, demand)
      ensures allocator.shared.start == old(allocator.shared.start) && allocator.shared.end == old(allocator.shared.end)
    {
      for i := 0 to |demand|
        invariant allocator.shared.start == old(allocator.shared.start)
        invariant allocator.shared.end == old(allocator.shared.end)
        invariant TakeAll(allocator.shared.free, allocator.shared.end, demand[i..])
               == TakeAll(old(allocator.shared.free), allocator.shared.end, demand)
      {
        assert demand[i..][0] == demand[i] && demand[i..][1..] == demand[i + 1..];
        var r := allocator.Allocate(demand[i]);
        if r.BadAlloc? {
          return false;
        }
      }
      assert demand[|demand|..] == [];
      return true;
    }

    /**
      Any of the operations: take the lock, allocate, update, and let the lock guard
      release on the way out, by exception or not.
    */
    method Perform(call: Call<K, V>, willing: bool) returns (r: Attempt<V>)
      requires allocator.elem == 1
      modifies this, mutex, allocator.shared
      ensures mutex.value == old(mutex.value)
      ensures r.LockThrows? <==> !willing
      ensures r.StaysOut? <==> willing && old(mutex.value) == 0
      ensures if r.Answers? then (Protected(), r.result) == Apply(old(Protected()), old(allocator.shared.end), call)
              else Protected() == old(Protected())
      ensures allocator.shared.start == old(allocator.shared.start) && allocator.shared.end == old(allocator.shared.end)
    {
      var entered := mutex.Lock(willing);
      if entered != Entered {
        return if entered == LockError then LockThrows else StaysOut;
      }
      var ok := TakeMemory(Demand(call, contents));
      var result: Result<V> := OutOfMemory;
      if ok {
        match call.kind {
          case Insert(v) =>
            if call.key !in contents {
              contents := contents[call.key := v];
            }
            result := Stored;
          case InsertOrAssign(v) =>
            contents := contents[call.key := v];
            result := Stored;
          case Erase =>
            result := Erased(if call.key in contents then 1 else 0);
            contents := contents - {call.key};
          case Lookup =>
            result := if call.key in contents then Found(contents[call.key]) else KeyNotFound;
        }
      }
      ok := mutex.Unlock(true);
      return Answers(result);
    }
  }
}
