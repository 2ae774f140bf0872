/**
  The bump allocator over a shared segment. Its state lives at the head of the segment,
  so every rebound copy and every process that maps the segment moves the same pointer.
*/
module Arenas {
  import opened Tables

  /** The size of the state at the head of the segment: three pointers. */
  const HEADER_SIZE: nat := 24

  datatype Arena = Arena(start: int, end: int, free: int)

  datatype Allocation = Null | At(address: int) | BadAlloc

  function DoAllocate(a: Arena, size: nat, elem: nat): (Arena, Allocation) {
    if size == 0 then (a, Null)
    else if a.free + size * elem > a.end then (a, BadAlloc)
    else (a.(free := a.free + size * elem), At(a.free))
  }

  /** None when the address is refused with a DeallocateError. */
  function DoDeallocate(a: Arena, ptr: Option<int>, size: nat, elem: nat): Option<Arena> {
    if ptr.None? then Some(a)
    else if ptr.value > a.end || ptr.value < a.start then None
    else if ptr.value == a.free then Some(a.(free := a.free - size * elem))
    else Some(a)
  }

  class SharedState {
    var start: int
    var end: int
    var free: int

    function Value(): Arena
      reads this
    {
      Arena(start, end, free)
    }

    constructor (start: int, end: int)
      ensures Value() == Arena(start, end, start)
    {
      this.start, this.end, free := start, end, start;
    }
  }

  class LinearAllocator {
    const shared: SharedState
    const elem: nat

    constructor (shared: SharedState, elem: nat)
      ensures this.shared == shared && this.elem == elem
    {
      this.shared, this.elem := shared, elem;
    }

    /**
      The constructor over a mapped segment; no allocator where the state does not fit and
      `std::bad_alloc` is thrown.
    */
    static method Map(address: int, size: nat, elem: nat) returns (a: LinearAllocator?)
      ensures a == null <==> HEADER_SIZE > size
      ensures a != null ==> fresh(a) && fresh(a.shared) && a.elem == elem
      ensures a != null ==>
        a.shared.Value() == Arena(address + HEADER_SIZE, address + size, address + HEADER_SIZE)
    {
      if address + HEADER_SIZE > address + size {
        return null;
      }
      var shared := new SharedState(address + HEADER_SIZE, address + size);
      a := new LinearAllocator(shared, elem);
    }

    /** A rebound copy allocates elements of another size from the same arena. */
    method Rebind(elem: nat) returns (other: LinearAllocator)
      ensures fresh(other) && other.shared == shared && other.elem == elem
    {
      other := new LinearAllocator(shared, elem);
    }

    method Allocate(size: nat) returns (r: Allocation)
      modifies shared
      ensures (shared.Value(), r) == DoAllocate(old(shared.Value()), size, elem)
    {
      if size == 0 {
        return Null;
      }
      var newFree := shared.free + size * elem;
      if newFree > shared.end {
        return BadAlloc;
      }
      var oldFree := shared.free;
      shared.free := newFree;
      return At(oldFree);
    }

    method Deallocate(ptr: Option<int>, size: nat) returns (ok: bool)
      modifies shared
      ensures ok <==> DoDeallocate(old(shared.Value()), ptr, size, elem).Some?
      ensures shared.Value()
           == if ok then DoDeallocate(old(shared.Value()), ptr, size, elem).value else old(shared.Value())
    {
      if ptr.None? {
        return true;
      }
      if ptr.value > shared.end || ptr.value < shared.start {
        return false;
      }
      if ptr.value == shared.free {
        shared.free := shared.free - size * elem;
      }
      return true;
    }
  }

  // ------------------------------------------------------------------ whole runs

  datatype Block = Block(address: int, bytes: nat)

  datatype Op = Allocate(size: nat, elem: nat) | Deallocate(ptr: Option<int>, size: nat, elem: nat)

  function TotalBytes(blocks: seq<Block>): nat {
    if blocks == [] then 0 else TotalBytes(blocks[..|blocks| - 1]) + blocks[|blocks| - 1].bytes
  }

  /** Element types have a size, and only null or an address the arena returned is given back. */
  ghost predicate Returned(blocks: seq<Block>, op: Op) {
    && op.elem > 0
    && (op.Deallocate? && op.ptr.Some? ==> exists i :: 0 <= i < |blocks| && blocks[i].address == op.ptr.value)
  }

  function DoOp(a: Arena, blocks: seq<Block>, op: Op): (Arena, seq<Block>) {
    match op
    case Allocate(size, elem) =>
      var (next, r) := DoAllocate(a, size, elem);
      (next, if r.At? then blocks + [Block(r.address, size * elem)] else blocks)
    case Deallocate(ptr, size, elem) =>
      var d := DoDeallocate(a, ptr, size, elem);
      (if d.Some? then d.value else a, blocks)
  }

  /** The blocks returned so far fill [start, free) in order, without gaps. */
  ghost predicate Tiled(a: Arena, blocks: seq<Block>) {
    && a.start <= a.free <= a.end
    && a.free == a.start + TotalBytes(blocks)
    && (forall i :: 0 <= i < |blocks| ==>
      blocks[i].bytes > 0 && blocks[i].address == a.start + TotalBytes(blocks[..i])
      && blocks[i].address + blocks[i].bytes <= a.free)
    && (forall i, j :: 0 <= i < j < |blocks| ==> blocks[i].address + blocks[i].bytes <= blocks[j].address)
  }

  lemma PositiveProduct(x: nat, y: nat)
    requires x > 0 && y > 0
    ensures x * y > 0
  {}

  lemma OpKeepsTiling(a: Arena, blocks: seq<Block>, op: Op)
    requires Tiled(a, blocks) && Returned(blocks, op)
    ensures var (next, more) := DoOp(a, blocks, op); Tiled(next, more) && blocks <= more
    ensures op.Deallocate? ==> DoOp(a, blocks, op) == (a, blocks)
  {
    hide Tiled;
    match op
    case Allocate(size, elem) =>
      if size > 0 {
        PositiveProduct(size, elem);
        if a.free + size * elem <= a.end {
          OneMoreBlock(a, blocks, size * elem);
        }
      }
    case Deallocate(ptr, _, _) =>
      if ptr.Some? {
        var i :| 0 <= i < |blocks| && blocks[i].address == ptr.value;
        ReturnedBlockStarts(a, blocks, i);
      }
  }

  lemma ReturnedBlockStarts(a: Arena, blocks: seq<Block>, i: nat)
    requires Tiled(a, blocks) && i < |blocks|
    ensures a.start <= blocks[i].address < a.free <= a.end
  {}

  lemma OneMoreTotal(blocks: seq<Block>, b: Block)
    ensures TotalBytes(blocks + [b]) == TotalBytes(blocks) + b.bytes
  {
    assert (blocks + [b])[..|blocks|] == blocks;
  }

  lemma OneMoreBlock(a: Arena, blocks: seq<Block>, bytes: nat)
    requires Tiled(a, blocks) && bytes > 0 && a.free + bytes <= a.end
    ensures Tiled(a.(free := a.free + bytes), blocks + [Block(a.free, bytes)])
  {
    hide TotalBytes;
    var more := blocks + [Block(a.free, bytes)];
    OneMoreTotal(blocks, Block(a.free, bytes));
    assert more[..|blocks|] == blocks;
    forall i | 0 <= i < |blocks| ensures more[..i] == blocks[..i] && more[i] == blocks[i] {}
  }

  ghost predicate RunReturned(a: Arena, blocks: seq<Block>, ops: seq<Op>)
    decreases |ops|
  {
    ops == [] ||
    (Returned(blocks, ops[0]) && RunReturned(DoOp(a, blocks, ops[0]).0, DoOp(a, blocks, ops[0]).1, ops[1..]))
  }

  function Run(a: Arena, blocks: seq<Block>, ops: seq<Op>): (Arena, seq<Block>)
    decreases |ops|
  {
    if ops == [] then (a, blocks)
    else
      var (next, more) := DoOp(a, blocks, ops[0]);
      Run(next, more, ops[1..])
  }

  /**
    Arena safety over every run, through any copies and element sizes, that gives back
    only addresses it got: the returned blocks lie inside the segment, are pairwise
    disjoint and fill what is used, and giving back never moves the free pointer.
  */
  lemma {:induction false} ArenaIsSafe(a: Arena, blocks: seq<Block>, ops: seq<Op>)
    requires Tiled(a, blocks) && RunReturned(a, blocks, ops)
    ensures var (last, all) := Run(a, blocks, ops); Tiled(last, all) && blocks <= all
    ensures (forall i :: 0 <= i < |ops| ==> ops[i].Deallocate?) ==> Run(a, blocks, ops) == (a, blocks)
    decreases |ops|
  {
    if ops != [] {
      OpKeepsTiling(a, blocks, ops[0]);
      var (next, more) := DoOp(a, blocks, ops[0]);
      ArenaIsSafe(next, more, ops[1..]);
    }
  }

  /**
    Exactly when giving back moves the pointer: the address is the free pointer itself, which no
    returned block starts at.
  */
  lemma OnlyTheFreePointerMoves(a: Arena, blocks: seq<Block>, ptr: int, size: nat, elem: nat)
    requires Tiled(a, blocks) && size * elem > 0
    ensures DoDeallocate(a, Some(ptr), size, elem) == Some(a) <==> a.start <= ptr <= a.end && ptr != a.free
    ensures forall i :: 0 <= i < |blocks| ==> blocks[i].address != a.free
  {}

  /** Giving back that address lets the next allocation overlap a block in use. */
  lemma ForeignAddressOverlaps()
    ensures
      var a := Arena(0, 16, 8);
      && Tiled(a, [Block(0, 8)])
      && DoDeallocate(a, Some(8), 1, 4) == Some(Arena(0, 16, 4))
      && DoAllocate(Arena(0, 16, 4), 1, 8) == (Arena(0, 16, 12), At(4))
  {
    assert TotalBytes([]) == 0;
    assert [Block(0, 8)][..0] == [];
    assert TotalBytes([Block(0, 8)]) == 8;
  }
}
