/**
 * Stack-based memory management: blocks are allocated on top of a stack
 * within a budget of 1000 bytes, freed from the top, and the top block's
 * value can be overwritten. The stack tracks its block count, the bytes in
 * use and the peak usage.
 */
module MemoryManagement {
  import opened Common

  const MaxStackSize: int := 1000
  const FirstBlockId: int := 1001

  datatype BlockType = IntBlock | FloatBlock | CharBlock | StringBlock | ArrayBlock

  /** The typed contents of a block; floating-point payloads are not modelled. */
  datatype BlockValue =
    | IntData(i: int)
    | FloatData
    | CharData(c: char)
    | StringData(s: string)
    | ArrayData(bytes: seq<int>)

  datatype Block = Block(id: int, kind: BlockType, name: string, size: nat, value: BlockValue)

  /** The stack as an observer sees it; the top block is at index 0. */
  datatype Memory = Memory(blocks: seq<Block>, totalBlocks: int, used: int, maxUsed: int, nextId: int)

  /** Whether a value fits a block: the type agrees, and array data has exactly the block's size. */
  predicate Fits(v: BlockValue, kind: BlockType, size: nat) {
    match v
    case IntData(_) => kind == IntBlock
    case FloatData => kind == FloatBlock
    case CharData(_) => kind == CharBlock
    case StringData(_) => kind == StringBlock
    case ArrayData(b) => kind == ArrayBlock && |b| == size
  }

  /** A fresh block's contents: zero, the empty string, or an all-zero array. */
  function InitialValue(kind: BlockType, size: nat): (v: BlockValue)
    ensures Fits(v, kind, size)
  {
    match kind
    case IntBlock => IntData(0)
    case FloatBlock => FloatData
    case CharBlock => CharData('\0')
    case StringBlock => StringData("")
    case ArrayBlock => ArrayData(seq(size, _ => 0))
  }

  function SizeSum(bs: seq<Block>): nat {
    if bs == [] then 0 else bs[0].size + SizeSum(bs[1..])
  }

  /**
   * The stack invariant: the block count and the bytes in use agree with the
   * blocks, usage stays within the budget and below the peak, every block's
   * contents fit it, and ids are at least 1001, below the next id and
   * strictly decrease from the top down.
   */
  ghost predicate Inv(st: Memory) {
    && st.totalBlocks == |st.blocks|
    && st.used == SizeSum(st.blocks)
    && st.used <= MaxStackSize
    && st.used <= st.maxUsed
    && st.nextId >= FirstBlockId
    && (forall i :: 0 <= i < |st.blocks| ==> Fits(st.blocks[i].value, st.blocks[i].kind, st.blocks[i].size))
    && (forall i :: 0 <= i < |st.blocks| ==> FirstBlockId <= st.blocks[i].id < st.nextId)
    && (forall i, j :: 0 <= i < j < |st.blocks| ==> st.blocks[i].id > st.blocks[j].id)
  }

  // ---------------------------------------------------------------------
  // The operations on values

  /** A request beyond the budget is refused and changes nothing. */
  function Allocated(st: Memory, kind: BlockType, name: string, size: nat): Memory {
    if st.used + size > MaxStackSize then st
    else
      var used := st.used + size;
      st.(blocks := [Block(st.nextId, kind, name, size, InitialValue(kind, size))] + st.blocks,
          totalBlocks := st.totalBlocks + 1,
          used := used,
          maxUsed := if used > st.maxUsed then used else st.maxUsed,
          nextId := st.nextId + 1)
  }

  /** Frees the top block; an empty stack changes nothing. */
  function Deallocated(st: Memory): Memory {
    if st.blocks == [] then st
    else st.(blocks := st.blocks[1..], totalBlocks := st.totalBlocks - 1, used := st.used - st.blocks[0].size)
  }

  /**
   * Overwrites the top block's contents. An array block takes the first
   * `size` bytes of the given data.
   */
  function TopSet(st: Memory, v: BlockValue): Memory {
    if st.blocks == [] then st
    else
      var top := st.blocks[0];
      var stored := if v.ArrayData? && |v.bytes| >= top.size then ArrayData(v.bytes[..top.size]) else v;
      st.(blocks := st.blocks[0 := top.(value := stored)])
  }

  /** What the caller must pass: a value of the top block's type, with enough array bytes. */
  predicate Settable(st: Memory, v: BlockValue) {
    st.blocks != [] ==>
      match v
      case ArrayData(b) => st.blocks[0].kind == ArrayBlock && |b| >= st.blocks[0].size
      case _ => Fits(v, st.blocks[0].kind, st.blocks[0].size)
  }

  // ---------------------------------------------------------------------
  // Properties

  /**
   * An allocation is refused, with no change, exactly when it would exceed
   * the budget; otherwise it pushes a fresh block with the next id and the
   * type's initial value, adds its size to the usage, and raises the peak to
   * the usage if needed.
   */
  lemma AllocateKeepsInv(st: Memory, kind: BlockType, name: string, size: nat)
    requires Inv(st)
    ensures var st' := Allocated(st, kind, name, size);
      && (st.used + size > MaxStackSize <==> st' == st)
      && (st' != st ==>
          && st'.blocks == [Block(st.nextId, kind, name, size, InitialValue(kind, size))] + st.blocks
          && st'.used == st.used + size
          && st'.totalBlocks == st.totalBlocks + 1)
      && st'.maxUsed >= st.maxUsed
      && Inv(st')
  {
    var st' := Allocated(st, kind, name, size);
    if st.used + size <= MaxStackSize {
      assert st'.blocks[1..] == st.blocks;
      forall i, j | 0 <= i < j < |st'.blocks|
        ensures st'.blocks[i].id > st'.blocks[j].id
      {
        assert st'.blocks[j] == st.blocks[j - 1];
        if i > 0 {
          assert st'.blocks[i] == st.blocks[i - 1];
        }
      }
    }
  }

  /**
   * Freeing an empty stack changes nothing; otherwise the top block goes,
   * its size is given back and the peak stays.
   */
  lemma DeallocateKeepsInv(st: Memory)
    requires Inv(st)
    ensures var st' := Deallocated(st);
      && (st.blocks == [] <==> st' == st)
      && (st.blocks != [] ==> st'.blocks == st.blocks[1..] && st'.used == st.used - st.blocks[0].size)
      && st'.maxUsed == st.maxUsed
      && Inv(st')
  {
    if st.blocks != [] {
      var st' := Deallocated(st);
      assert forall i :: 0 <= i < |st'.blocks| ==> st'.blocks[i] == st.blocks[i + 1];
    }
  }

  /** Setting a value alters only the top block's contents, and keeps the invariant. */
  lemma SetTopKeepsInv(st: Memory, v: BlockValue)
    requires Inv(st) && Settable(st, v)
    ensures var st' := TopSet(st, v);
      && |st'.blocks| == |st.blocks|
      && (st.blocks == [] ==> st' == st)
      && (st.blocks != [] ==>
          && st'.blocks[1..] == st.blocks[1..]
          && st'.blocks[0] == st.blocks[0].(value := st'.blocks[0].value))
      && st'.used == st.used && st'.maxUsed == st.maxUsed && st'.nextId == st.nextId
      && Inv(st')
  {
    if st.blocks != [] {
      var st' := TopSet(st, v);
      assert st'.blocks[1..] == st.blocks[1..];
      assert st'.blocks == [st'.blocks[0]] + st.blocks[1..];
      assert st.blocks == [st.blocks[0]] + st.blocks[1..];
      assert forall i :: 0 <= i < |st.blocks| ==> st'.blocks[i].id == st.blocks[i].id;
    }
  }

  /** An allocation followed by a free restores the blocks and the usage; the peak may have risen. */
  lemma AllocateThenDeallocate(st: Memory, kind: BlockType, name: string, size: nat)
    requires Inv(st) && st.used + size <= MaxStackSize
    ensures var st' := Deallocated(Allocated(st, kind, name, size));
      && st'.blocks == st.blocks
      && st'.used == st.used
      && st'.totalBlocks == st.totalBlocks
      && st'.maxUsed >= st.maxUsed && st'.maxUsed >= st.used + size
      && st'.nextId == st.nextId + 1
  {
  }

  // ---------------------------------------------------------------------
  // The stack, updated in place

  class MemoryStack {
    var blocks: seq<Block>
    var totalBlocks: int
    var totalMemoryUsed: int
    var maxMemoryUsed: int
    var nextBlockId: int

    ghost function State(): Memory
      reads this
    {
      Memory(blocks, totalBlocks, totalMemoryUsed, maxMemoryUsed, nextBlockId)
    }

    ghost predicate Valid()
      reads this
    {
      Inv(State())
    }

    constructor ()
      ensures Valid() && State() == Memory([], 0, 0, 0, FirstBlockId)
    {
      blocks := [];
      totalBlocks := 0;
      totalMemoryUsed := 0;
      maxMemoryUsed := 0;
      nextBlockId := FirstBlockId;
    }

    /** Returns the new block's id, or 0 when the budget would be exceeded. */
    method AllocateMemory(kind: BlockType, name: string, size: nat) returns (id: int)
      requires Valid()
      modifies this
      ensures Valid()
      ensures State() == Allocated(old(State()), kind, name, size)
      ensures id == 0 <==> old(totalMemoryUsed) + size > MaxStackSize
      ensures id != 0 ==> id == old(nextBlockId) && blocks[0].id == id
    {
      AllocateKeepsInv(State(), kind, name, size);
      if totalMemoryUsed + size > MaxStackSize {
        return 0;
      }
      id := nextBlockId;
      nextBlockId := nextBlockId + 1;
      blocks := [Block(id, kind, name, size, InitialValue(kind, size))] + blocks;
      totalBlocks := totalBlocks + 1;
      totalMemoryUsed := totalMemoryUsed + size;
      if totalMemoryUsed > maxMemoryUsed {
        maxMemoryUsed := totalMemoryUsed;
      }
    }

    /** Returns whether a block was freed. */
    method DeallocateMemory() returns (freed: bool)
      requires Valid()
      modifies this
      ensures Valid()
      ensures State() == Deallocated(old(State()))
      ensures freed <==> old(blocks) != []
    {
      DeallocateKeepsInv(State());
      if blocks == [] {
        return false;
      }
      var top := blocks[0];
      blocks := blocks[1..];
      totalBlocks := totalBlocks - 1;
      totalMemoryUsed := totalMemoryUsed - top.size;
      freed := true;
    }

    method SetTopBlockValue(v: BlockValue)
      requires Valid() && Settable(State(), v)
      modifies this
      ensures Valid()
      ensures State() == TopSet(old(State()), v)
    {
      SetTopKeepsInv(State(), v);
      if blocks == [] {
        return;
      }
      var top := blocks[0];
      var stored := v;
      if v.ArrayData? && |v.bytes| >= top.size {
        stored := ArrayData(v.bytes[..top.size]);
      }
      blocks := blocks[0 := top.(value := stored)];
    }
  }
}
