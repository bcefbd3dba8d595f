/**
 The guest's arena: one fixed buffer that the host bump-allocates into, that the guest reads through
 aliasing slices, and that is reset as a whole.
 */
module ArenaModel {
  import opened Machine

  const CAPACITY := 0x10_0000

  /** What wasmMalloc does to the offset, and the pointer it hands out, in int32 arithmetic. */
  function MallocSpec(offset: int32, address: int32, size: int32): (int32, int32) {
    if size <= 0 || Wrap32(offset + size) > CAPACITY then (offset, 0)
    else (Wrap32(offset + size), Wrap32(address + offset))
  }

  /**
   The result of wasmSlice: nil, a window into the arena that aliases it, or the run-time panic of
   slicing with an end before its start. A window remembers the generation it was taken in: the number
   of resets there had been.
   */
  datatype View = Nothing | Window(start: nat, length: nat, ghost generation: nat) | Trap

  function SliceSpec(address: int32, ptr: int32, length: int32, ghost generation: nat): View {
    if length == 0 || ptr == 0 then Nothing
    else
      var start := Wrap32(ptr - address);
      var end := Wrap32(start + length);
      if start < 0 || end > CAPACITY then Nothing
      else if end < start then Trap
      else Window(start, end - start, generation)
  }

  /** A block the host may place: small enough that the allocator's int32 sum cannot wrap. */
  type Block = b: seq<byte> | |b| <= MAX_INT32 - CAPACITY

  /** Where a block was placed since the last reset, and what the host wrote there. */
  datatype Allocation = Allocation(start: nat, data: seq<byte>) {
    function End(): nat { start + |data| }
  }

  datatype State = State(offset: int, live: seq<Allocation>)

  datatype Op = Place(block: Block) | Release

  predicate Fits(offset: int, block: Block) {
    block != [] && offset + |block| <= CAPACITY
  }

  function Step(s: State, op: Op): State {
    match op
    case Place(b) => if Fits(s.offset, b) && 0 <= s.offset then State(s.offset + |b|, s.live + [Allocation(s.offset, b)]) else s
    case Release => State(0, [])
  }

  function Run(ops: seq<Op>): State {
    if ops == [] then State(0, []) else Step(Run(ops[..|ops| - 1]), ops[|ops| - 1])
  }

  /** Allocations lie end to end from the start of the buffer up to `end`. */
  ghost predicate Tiles(live: seq<Allocation>, end: int) {
    if live == [] then end == 0
    else
      var last := live[|live| - 1];
      last.data != [] && last.End() == end && Tiles(live[..|live| - 1], last.start)
  }

  function TotalSize(live: seq<Allocation>): nat {
    if live == [] then 0 else TotalSize(live[..|live| - 1]) + |live[|live| - 1].data|
  }

  lemma {:induction false} TilesInside(live: seq<Allocation>, end: int)
    requires Tiles(live, end)
    ensures end == TotalSize(live)
    ensures forall a :: a in live ==> a.data != [] && a.End() <= end
    ensures forall i, j :: 0 <= i < j < |live| ==> live[i].End() <= live[j].start
  {
    if live != [] {
      TilesInside(live[..|live| - 1], live[|live| - 1].start);
    }
  }

  /** Malloc and reset keep the offset inside the buffer exactly as long as the int32 sum does not wrap. */
  lemma MallocStaysInBoundsIff(offset: int32, address: int32, size: int32)
    requires 0 <= offset <= CAPACITY
    ensures 0 <= MallocSpec(offset, address, size).0 <= CAPACITY <==> size <= MAX_INT32 - offset
  {
    if size > MAX_INT32 - offset {
      assert Wrap32(offset + size) == offset + size - 0x1_0000_0000;
    }
  }

  /** One request of 2^31 - 1 bytes after one byte is in use: the sum wraps and the check lets it through. */
  lemma MallocWraps(address: int32)
    ensures MallocSpec(1, address, MAX_INT32).0 == -0x8000_0000
  {
    assert Wrap32(1 + MAX_INT32) == -0x8000_0000;
  }

  ghost predicate ValidAddress(address: int32) {
    0 < address && address + CAPACITY <= MAX_INT32
  }

  /** For blocks the host may place, malloc is the allocation step, and a null pointer means "did not fit". */
  lemma MallocIsPlace(s: State, address: int32, block: Block)
    requires 0 <= s.offset <= CAPACITY && ValidAddress(address)
    ensures var (offset, ptr) := MallocSpec(s.offset, address, |block|);
      && offset == Step(s, Place(block)).offset
      && (ptr != 0 <==> Fits(s.offset, block))
      && (ptr != 0 ==> ptr == address + s.offset)
  {
  }

  /**
   In numbers: a request is granted exactly when it still fits the 1048576 bytes, right after what is in use.
   Nothing is granted, and nothing changes, for sizes that are not positive.
   */
  lemma MallocInNumbers(offset: int32, address: int32, size: int32)
    requires 0 <= offset <= 1048576 && 0 < address <= 2147483647 - 1048576 && size <= 2147483647 - 1048576
    ensures size <= 0 || offset + size > 1048576 ==> MallocSpec(offset, address, size) == (offset, 0)
    ensures size > 0 && offset + size <= 1048576 ==> MallocSpec(offset, address, size) == (offset + size, address + offset)
  {
  }

  /**
   Whatever pointer and length the guest is given, a slice names bytes of the buffer or none: those the
   pointer and the length say.
   */
  lemma SliceNamesWhatIsSaid(address: int32, ptr: int32, length: int32, generation: nat)
    requires 0 < address <= 2147483647 - 1048576
    ensures var v := SliceSpec(address, ptr, length, generation);
      && (v.Window? ==> v.start == ptr - address && v.length == length && v.start + v.length <= 1048576)
      && (address <= ptr && 0 < length && ptr + length <= address + 1048576 ==> v == Window(ptr - address, length, generation))
      && (0 <= ptr < address || length == 0 || (length > 0 && ptr >= address && address + 1048576 < ptr + length <= 2147483647) ==> v == Nothing)
  {
  }

  /** Slicing at what malloc returned names exactly the allocated region. */
  lemma SliceOfMalloc(offset: int32, address: int32, size: int32, generation: nat)
    requires 0 <= offset <= CAPACITY && ValidAddress(address)
    requires 0 < size <= MAX_INT32 - CAPACITY
    ensures var (_, ptr) := MallocSpec(offset, address, size);
      SliceSpec(address, ptr, size, generation) == if offset + size <= CAPACITY then Window(offset, size, generation) else Nothing
  {
  }

  /**
   Over every run of placements and resets: the offset is inside the buffer and is the sum of the live
   sizes; live allocations are inside the buffer and pairwise disjoint.
   */
  lemma {:induction false} EveryRunIsTiled(ops: seq<Op>)
    ensures var s := Run(ops);
      && 0 <= s.offset <= CAPACITY
      && s.offset == TotalSize(s.live)
      && Tiles(s.live, s.offset)
      && (forall a :: a in s.live ==> a.data != [] && a.End() <= s.offset)
      && (forall i, j :: 0 <= i < j < |s.live| ==> s.live[i].End() <= s.live[j].start)
  {
    var s := Run(ops);
    if ops != [] {
      var p := Run(ops[..|ops| - 1]);
      EveryRunIsTiled(ops[..|ops| - 1]);
      if s.live != [] && s != p {
        assert s.live[..|s.live| - 1] == p.live;
      }
    }
    TilesInside(s.live, s.offset);
  }

  /** The memory still contains what was written at every allocation. */
  ghost predicate Holds(memory: seq<byte>, live: seq<Allocation>) {
    forall a :: a in live ==> a.End() <= |memory| && memory[a.start..a.End()] == a.data
  }

  lemma HoldsBelow(before: seq<byte>, after: seq<byte>, live: seq<Allocation>, start: nat)
    requires start <= |before| == |after| && before[..start] == after[..start]
    requires Holds(before, live) && forall a :: a in live ==> a.End() <= start
    ensures Holds(after, live)
  {
    forall a | a in live
      ensures after[a.start..a.End()] == a.data
    {
      assert after[a.start..a.End()] == after[..start][a.start..a.End()];
      assert before[a.start..a.End()] == before[..start][a.start..a.End()];
    }
  }

  lemma OneMoreTile(memory: seq<byte>, live: seq<Allocation>, start: nat, end: nat)
    requires Tiles(live, start) && Holds(memory, live) && start < end <= |memory|
    ensures var more := live + [Allocation(start, memory[start..end])];
      Tiles(more, end) && Holds(memory, more)
  {
    var more := live + [Allocation(start, memory[start..end])];
    assert more[..|more| - 1] == live;
  }

  method Fill(memory: array<byte>, start: nat, block: seq<byte>)
    requires start + |block| <= memory.Length
    modifies memory
    ensures memory[..][..start] == old(memory[..])[..start]
    ensures memory[..][start..start + |block|] == block
  {
    for i := 0 to |block|
      invariant memory[..start] == old(memory[..start])
      invariant memory[start..start + i] == block[..i]
    {
      memory[start + i] := block[i];
    }
  }

  /** The guest's arena variables and the two functions over them that the host and the backends share. */
  class Arena {
    const memory: array<byte>
    const address: int32
    var base: int32
    var offset: int32
    ghost var live: seq<Allocation>
    ghost var generation: nat

    ghost predicate Valid()
      reads this, memory
    {
      && memory.Length == CAPACITY
      && ValidAddress(address)
      && (base == 0 || base == address)
      && 0 <= offset
      && Tiles(live, offset)
      && offset <= CAPACITY
      && Holds(memory[..], live)
    }

    ghost function Abstract(): State
      reads this
    {
      State(offset, live)
    }

    constructor (memory: array<byte>, address: int32)
      requires memory.Length == CAPACITY && ValidAddress(address)
      ensures Valid() && Abstract() == State(0, [])
      ensures this.memory == memory && this.address == address
    {
      this.memory := memory;
      this.address := address;
      base, offset, live, generation := 0, 0, [], 0;
    }

    /** wasmMalloc. A size whose sum wraps leaves the invariant, see MallocStaysInBoundsIff. */
    method Malloc(size: int32) returns (ptr: int32)
      requires Valid()
      modifies this`base, this`offset, this`live
      ensures (offset, ptr) == MallocSpec(old(offset), address, size)
      ensures size <= MAX_INT32 - old(offset) ==> Valid()
      ensures ptr == 0 ==> live == old(live)
      ensures ptr != 0 && size <= MAX_INT32 - old(offset) ==>
        live == old(live) + [Allocation(old(offset), memory[old(offset)..offset])]
    {
      if size <= 0 {
        return 0;
      }
      if base == 0 {
        base := address;
      }
      var bufOffset := offset;
      if Wrap32(bufOffset + size) > CAPACITY {
        return 0;
      }
      offset := Wrap32(offset + size);
      ptr := Wrap32(base + bufOffset);
      if size <= MAX_INT32 - bufOffset {
        OneMoreTile(memory[..], live, bufOffset, offset);
        live := live + [Allocation(bufOffset, memory[bufOffset..offset])];
      }
    }

    /** wasmResetAllocator: every window taken before is stale from now on. */
    method Reset()
      requires Valid()
      modifies this`offset, this`live, this`generation
      ensures Valid() && Abstract() == State(0, []) && generation == old(generation) + 1
    {
      offset, live, generation := 0, [], generation + 1;
    }

    /** wasmSlice. */
    method Slice(ptr: int32, length: int32) returns (v: View)
      requires Valid()
      modifies this`base
      ensures Valid()
      ensures v == SliceSpec(address, ptr, length, generation)
    {
      if length == 0 || ptr == 0 {
        return Nothing;
      }
      if base == 0 {
        base := address;
      }
      var start := Wrap32(ptr - base);
      var end := Wrap32(start + length);
      if start < 0 || end > CAPACITY {
        return Nothing;
      }
      return if end < start then Trap else Window(start, end - start, generation);
    }

    /** A pointer and length the host may report: nothing, or exactly a block placed since the last reset. */
    ghost predicate Names(ptr: int32, length: int32, data: seq<byte>)
      reads this
    {
      if data == [] then ptr == 0 || length == 0
      else length == |data| && address <= ptr && Allocation(ptr - address, data) in live
    }

    /** A window that was taken after the last reset, over a region that the host has written since. */
    ghost predicate Readable(v: View)
      reads this
    {
      v.Nothing? || (v.Window? && v.generation == generation && exists a :: a in live && a.start == v.start && |a.data| == v.length)
    }

    /** Reads through a slice. No slice that predates the last reset can be read, whatever is live by now. */
    method Load(v: View) returns (data: seq<byte>)
      requires Valid() && Readable(v)
      ensures v.Nothing? ==> data == []
      ensures forall a :: v.Window? && a in live && a.start == v.start && |a.data| == v.length ==> data == a.data
    {
      match v
      case Nothing => data := [];
      case Window(start, length, _) => data := memory[start..start + length];
    }

    /** Slice and read: what the guest sees at a reported pointer is what the host wrote there. */
    method LoadAt(ptr: int32, length: int32, ghost data: seq<byte>) returns (r: seq<byte>)
      requires Valid() && Names(ptr, length, data)
      modifies this`base
      ensures Valid() && r == data
    {
      var v := Slice(ptr, length);
      NamedSlice(ptr, length, data);
      r := Load(v);
    }

    lemma NamedSlice(ptr: int32, length: int32, data: seq<byte>)
      requires Valid() && Names(ptr, length, data)
      ensures data == [] ==> SliceSpec(address, ptr, length, generation).Nothing?
      ensures data != [] ==> SliceSpec(address, ptr, length, generation) == Window(ptr - address, |data|, generation)
    {
    }

    /** The host copies a block to where malloc told it to. */
    method HostWrite(start: nat, block: Block)
      requires Valid() && live != [] && live[|live| - 1].start == start && |live[|live| - 1].data| == |block|
      modifies memory, this`live
      ensures Valid()
      ensures live == old(live)[..|old(live)| - 1] + [Allocation(start, block)]
    {
      TilesInside(live, offset);
      Fill(memory, start, block);
      ghost var below := live[..|live| - 1];
      HoldsBelow(old(memory[..]), memory[..], below, start);
      live := below + [Allocation(start, block)];
      assert live[..|live| - 1] == below;
    }

    /** paca_malloc followed by the host's write, or nothing at all when malloc returns 0. */
    method HostPut(block: Block) returns (ptr: int32)
      requires Valid()
      modifies this, memory
      ensures Valid() && generation == old(generation)
      ensures Abstract() == Step(old(Abstract()), Place(block))
      ensures ptr != 0 <==> Fits(old(offset), block)
      ensures ptr != 0 ==> ptr == address + old(offset)
    {
      MallocIsPlace(Abstract(), address, block);
      ptr := Malloc(|block|);
      if ptr != 0 {
        HostWrite(ptr - address, block);
        assert live == old(live) + [Allocation(old(offset), block)];
      }
    }
  }
}
