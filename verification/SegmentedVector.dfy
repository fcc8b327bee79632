/** A vector that keeps its elements in blocks of equal, power-of-two size. */
module SegmentedVectors {
  import opened Options
  import opened Modular
  import opened Powers

  /** The block and the place in it that an index is shifted and masked to. */
  function Block(i: nat, bits: nat): nat {
    Quotient(i, Pow2(bits))
  }

  function Quotient(i: nat, p: nat): nat
    requires p > 0
  {
    i / p
  }

  function Slot(i: nat, bits: nat): (s: nat)
    ensures s < Pow2(bits)
  {
    i % Pow2(bits)
  }

  /** Indices and slots of blocks correspond one to one, block by block. */
  lemma SlotBijection(i: nat, bits: nat, block: nat, slot: nat)
    requires slot < Pow2(bits)
    ensures Block(i, bits) == block && Slot(i, bits) == slot <==> i == Pow2(bits) * block + slot
  {
    hide Pow2;
    DivMod(i, Pow2(bits));
    if i == Pow2(bits) * block + slot { ModUnique(i, Pow2(bits), block, slot); }
  }

  lemma BlockInRange(i: nat, bits: nat, blocks: nat)
    ensures i < Pow2(bits) * blocks <==> Block(i, bits) < blocks
  {
    hide Pow2;
    var p := Pow2(bits);
    DivMod(i, p);
    if i / p < blocks {
      MulMonotone(p, i / p + 1, blocks);
      Distribute(p, i / p, 1);
    } else {
      MulMonotone(p, blocks, i / p);
    }
  }

  function BlocksForCapacity(capacity: nat, bits: nat): nat {
    Quotient(capacity + Pow2(bits) - 1, Pow2(bits))
  }

  /** The number of blocks for a capacity is the least that is enough. */
  lemma BlocksForCapacityLeast(capacity: nat, bits: nat, blocks: nat)
    ensures capacity <= Pow2(bits) * blocks <==> BlocksForCapacity(capacity, bits) <= blocks
  {
    hide Pow2;
    var p := Pow2(bits);
    var x := capacity + p - 1;
    DivMod(x, p);
    if x / p <= blocks {
      MulMonotone(p, x / p, blocks);
    } else {
      MulMonotone(p, blocks + 1, x / p);
      Distribute(p, blocks, 1);
    }
  }

  /** The largest shift of the element size that stays within the block size, if any does. */
  method NumBitsClosest(max: nat, size: nat) returns (f: nat)
    requires size >= 1
    ensures size <= max ==> size * Pow2(f) <= max
    ensures max < size * Pow2(f + 1)
    ensures size > max ==> f == 0
  {
    f := 0;
    while size * Pow2(f + 1) <= max
      invariant size <= max ==> size * Pow2(f) <= max
      invariant size > max ==> f == 0
      decreases max - f
    {
      Pow2AtLeast(f + 1);
      MulMonotone(Pow2(f + 1), 1, size);
      Associate(size, Pow2(f + 1), 1);
      MulMonotone(size, 1, Pow2(f + 1));
      f := f + 1;
    }
  }

  lemma {:induction false} Pow2AtLeast(n: nat)
    ensures Pow2(n) > n
  {
    if n > 0 { Pow2AtLeast(n - 1); }
  }

  /** The shifts that the search for the element bits makes stay inside a word of 64 bits. */
  lemma ShiftsFit(max: nat, size: nat, f: nat)
    requires 1 <= size < 0x8000_0000_0000_0000 && max < 0x8000_0000_0000_0000
    requires f == 0 || size * Pow2(f) <= max
    ensures size * Pow2(f + 1) < 0x1_0000_0000_0000_0000
  {
    Associate(2, size, Pow2(f));
    Associate(size, 2, Pow2(f));
    if f == 0 { assert Pow2(1) == 2; }
  }

  class SegmentedVector<T(0)> {
    const bits: nat
    var blocks: seq<array<T>>
    var size: nat

    ghost predicate Valid()
      reads this, blocks
    {
      && (forall k :: 0 <= k < |blocks| ==> blocks[k].Length == Pow2(bits))
      && (forall k, l :: 0 <= k < l < |blocks| ==> blocks[k] != blocks[l])
      && size <= Capacity()
    }

    function Capacity(): nat
      reads this
    {
      Pow2(bits) * |blocks|
    }

    function At(i: nat): T
      reads this, blocks
      requires Valid() && i < size
    {
      BlockInRange(i, bits, |blocks|);
      blocks[Block(i, bits)][Slot(i, bits)]
    }

    /** The elements in order: the plain vector this one stands for. */
    ghost function Contents(): seq<T>
      reads this, blocks
      requires Valid()
    {
      seq(size, i requires 0 <= i < size && Valid() reads this, blocks => At(i))
    }

    constructor (bits: nat)
      ensures Valid() && Contents() == [] && this.bits == bits
    {
      this.bits := bits;
      blocks, size := [], 0;
    }

    method Get(i: nat) returns (x: T)
      requires Valid() && i < |Contents()|
      ensures x == Contents()[i]
    {
      x := At(i);
    }

    method IncreaseCapacity()
      requires Valid()
      modifies this`blocks
      ensures Valid() && Contents() == old(Contents()) && size == old(size)
      ensures |blocks| == |old(blocks)| + 1 && blocks[..|old(blocks)|] == old(blocks) && fresh(blocks[|old(blocks)|])
    {
      ghost var before := Contents();
      var block := new T[Pow2(bits)];
      MulMonotone(Pow2(bits), |blocks|, |blocks| + 1);
      BlocksOfElements();
      blocks := blocks + [block];
      assert forall i :: 0 <= i < size ==> At(i) == before[i];
      assert Contents() == before;
    }

    /** The block of every element is one of the vector's. */
    lemma BlocksOfElements()
      requires Valid()
      ensures forall i: nat :: i < size ==> Block(i, bits) < |blocks|
    {
      hide Pow2, Block;
      forall i: nat | i < size ensures Block(i, bits) < |blocks| {
        BlockInRange(i, bits, |blocks|);
      }
    }

    method EmplaceBack(x: T)
      requires Valid()
      modifies this, blocks
      ensures Valid() && Contents() == old(Contents()) + [x]
      ensures old(blocks) <= blocks && fresh(blocks[|old(blocks)|..])
      ensures |blocks| == |old(blocks)| + (if old(size) == old(Capacity()) then 1 else 0)
    {
      ghost var before := Contents();
      if size == Capacity() {
        IncreaseCapacity();
        Distribute(Pow2(bits), |blocks| - 1, 1);
      }
      BlockInRange(size, bits, |blocks|);
      BlocksOfElements();
      OtherSlots();
      assert Contents() == before;
      blocks[Block(size, bits)][Slot(size, bits)] := x;
      size := size + 1;
      assert Contents() == before + [x];
    }

    /** No element lies where the next one goes. */
    lemma OtherSlots()
      ensures forall i: nat :: i < size ==> Block(i, bits) != Block(size, bits) || Slot(i, bits) != Slot(size, bits)
    {
    }

    method PopBack()
      requires Valid() && Contents() != []
      modifies this`size
      ensures Valid() && Contents() == old(Contents()[..|Contents()| - 1])
    {
      size := size - 1;
    }

    method Clear()
      requires Valid()
      modifies this`size
      ensures Valid() && Contents() == []
    {
      size := 0;
    }

    method Reserve(newCapacity: nat)
      requires Valid()
      modifies this`blocks
      ensures Valid() && Contents() == old(Contents())
      ensures old(blocks) <= blocks && fresh(blocks[|old(blocks)|..])
      ensures |blocks| == if BlocksForCapacity(newCapacity, bits) <= |old(blocks)| then |old(blocks)|
                          else BlocksForCapacity(newCapacity, bits)
    {
      ghost var start := blocks;
      BlocksForCapacityLeast(newCapacity, bits, |blocks|);
      while newCapacity > Capacity()
        invariant Valid() && Contents() == old(Contents()) && size == old(size)
        invariant old(blocks) <= blocks && fresh(blocks[|old(blocks)|..])
        invariant |blocks| > |old(blocks)| ==> |blocks| <= BlocksForCapacity(newCapacity, bits)
        decreases BlocksForCapacity(newCapacity, bits) - |blocks|
      {
        BlocksForCapacityLeast(newCapacity, bits, |blocks|);
        ghost var sofar := blocks;
        IncreaseCapacity();
        assert blocks[|start|..] == sofar[|start|..] + [blocks[|sofar|]];
      }
      BlocksForCapacityLeast(newCapacity, bits, |blocks|);
    }

    /** Gives back every block without elements. */
    method ShrinkToFit()
      requires Valid()
      modifies this`blocks
      ensures Valid() && Contents() == old(Contents())
      ensures blocks <= old(blocks) && |blocks| == BlocksForCapacity(size, bits)
    {
      ghost var before := Contents();
      var required := BlocksForCapacity(size, bits);
      BlocksForCapacityLeast(size, bits, |blocks|);
      BlocksForCapacityLeast(size, bits, required);
      while |blocks| > required
        invariant required <= |blocks| && Valid() && Contents() == before
        invariant blocks <= old(blocks)
        decreases |blocks|
      {
        BlocksForCapacityLeast(size, bits, |blocks| - 1);
        DropBlock();
      }
    }

    method DropBlock()
      requires Valid() && |blocks| > 0 && size <= Pow2(bits) * (|blocks| - 1)
      modifies this`blocks
      ensures Valid() && Contents() == old(Contents()) && size == old(size)
      ensures blocks == old(blocks[..|blocks| - 1])
    {
      ghost var before := Contents();
      blocks := blocks[..|blocks| - 1];
      BlocksOfElements();
      assert forall i :: 0 <= i < size ==> At(i) == before[i];
      assert Contents() == before;
    }
  }

  // ------------------------------------------------------------------- runs

  datatype Op<T> = EmplaceBack(x: T) | PopBack | Clear | Reserve(capacity: nat) | ShrinkToFit | Get(i: nat)

  /** A plain vector and the number of blocks that hold it. */
  datatype Plain<T> = Plain(elements: seq<T>, blocks: nat)

  /** What the source leaves undefined: elements that are not there. */
  predicate Defined<T>(p: Plain<T>, op: Op<T>) {
    match op
    case PopBack => p.elements != []
    case Get(i) => i < |p.elements|
    case _ => true
  }

  /** An operation on the plain vector, and the element it gives. Blocks are added when full and kept otherwise. */
  function Step<T>(p: Plain<T>, op: Op<T>, bits: nat): (Plain<T>, Option<T>)
    requires Defined(p, op)
  {
    match op
    case EmplaceBack(x) =>
      (Plain(p.elements + [x], if |p.elements| == Pow2(bits) * p.blocks then p.blocks + 1 else p.blocks), None)
    case PopBack => (Plain(p.elements[..|p.elements| - 1], p.blocks), None)
    case Clear => (Plain([], p.blocks), None)
    case Reserve(capacity) =>
      var needed := BlocksForCapacity(capacity, bits);
      (Plain(p.elements, if needed <= p.blocks then p.blocks else needed), None)
    case ShrinkToFit => (Plain(p.elements, BlocksForCapacity(|p.elements|, bits)), None)
    case Get(i) => (p, Some(p.elements[i]))
  }

  predicate AllDefined<T>(p: Plain<T>, ops: seq<Op<T>>, bits: nat)
    decreases |ops|
  {
    ops == [] || (Defined(p, ops[0]) && AllDefined(Step(p, ops[0], bits).0, ops[1..], bits))
  }

  function Run<T>(p: Plain<T>, ops: seq<Op<T>>, bits: nat): (Plain<T>, seq<Option<T>>)
    requires AllDefined(p, ops, bits)
    decreases |ops|
  {
    if ops == [] then (p, [])
    else
      var (q, given) := Step(p, ops[0], bits);
      var (r, rest) := Run(q, ops[1..], bits);
      (r, [given] + rest)
  }

  ghost predicate Holds<T(0)>(v: SegmentedVector<T>, p: Plain<T>)
    reads v, v.blocks
  {
    v.Valid() && v.Contents() == p.elements && |v.blocks| == p.blocks
  }

  /** Every block is the one that was at its place before, or a new one. */
  twostate predicate KeptOrFresh<T(0)>(v: SegmentedVector<T>)
    reads v
  {
    forall k :: 0 <= k < |v.blocks| ==>
      (k < |old(v.blocks)| && v.blocks[k] == old(v.blocks)[k]) || fresh(v.blocks[k])
  }

  twostate lemma FreshBehind<T(0)>(v: SegmentedVector<T>)
    requires old(v.blocks) <= v.blocks && fresh(v.blocks[|old(v.blocks)|..])
    ensures KeptOrFresh(v)
  {
    forall k | |old(v.blocks)| <= k < |v.blocks| ensures fresh(v.blocks[k]) {
      assert v.blocks[k] == v.blocks[|old(v.blocks)|..][k - |old(v.blocks)|];
    }
  }

  method Perform<T(0)>(v: SegmentedVector<T>, op: Op<T>, ghost p: Plain<T>) returns (given: Option<T>)
    requires Holds(v, p) && Defined(p, op)
    modifies v, v.blocks
    ensures Holds(v, Step(p, op, v.bits).0) && given == Step(p, op, v.bits).1
    ensures KeptOrFresh(v)
  {
    hide Pow2, BlocksForCapacity;
    given := None;
    match op {
      case EmplaceBack(x) =>
        v.EmplaceBack(x);
        FreshBehind(v);
      case PopBack => v.PopBack();
      case Clear => v.Clear();
      case Reserve(capacity) =>
        v.Reserve(capacity);
        FreshBehind(v);
      case ShrinkToFit => v.ShrinkToFit();
      case Get(i) =>
        var x := v.Get(i);
        given := Some(x);
    }
  }

  /**
   Any run behaves as on a plain vector: every element given is the plain vector's, the elements
   at the end are, and never are there fewer blocks than the elements need.
   */
  method PerformAll<T(0)>(v: SegmentedVector<T>, ops: seq<Op<T>>, ghost p: Plain<T>) returns (given: seq<Option<T>>)
    requires Holds(v, p) && AllDefined(p, ops, v.bits)
    modifies v, v.blocks
    ensures Holds(v, Run(p, ops, v.bits).0) && given == Run(p, ops, v.bits).1
    ensures KeptOrFresh(v)
    ensures |v.Contents()| <= v.Capacity()
    decreases |ops|
  {
    hide Step, Defined;
    given := [];
    if ops != [] {
      var first := Perform(v, ops[0], p);
      var rest := PerformAll(v, ops[1..], Step(p, ops[0], v.bits).0);
      given := [first] + rest;
    }
  }

  /** The plain vector has room for its elements before and after every operation of a run. */
  lemma {:induction false} RunKeepsRoom<T>(p: Plain<T>, ops: seq<Op<T>>, bits: nat)
    requires AllDefined(p, ops, bits) && |p.elements| <= Pow2(bits) * p.blocks
    ensures |Run(p, ops, bits).0.elements| <= Pow2(bits) * Run(p, ops, bits).0.blocks
    decreases |ops|
  {
    if ops != [] {
      StepKeepsRoom(p, ops[0], bits);
      RunKeepsRoom(Step(p, ops[0], bits).0, ops[1..], bits);
    }
  }

  lemma StepKeepsRoom<T>(p: Plain<T>, op: Op<T>, bits: nat)
    requires Defined(p, op) && |p.elements| <= Pow2(bits) * p.blocks
    ensures |Step(p, op, bits).0.elements| <= Pow2(bits) * Step(p, op, bits).0.blocks
  {
    hide Pow2, BlocksForCapacity;
    match op
    case EmplaceBack(_) => Distribute(Pow2(bits), p.blocks, 1);
    case Reserve(capacity) =>
      BlocksForCapacityLeast(|p.elements|, bits, p.blocks);
      BlocksForCapacityLeast(|p.elements|, bits, BlocksForCapacity(capacity, bits));
    case ShrinkToFit => BlocksForCapacityLeast(|p.elements|, bits, BlocksForCapacity(|p.elements|, bits));
    case _ =>
  }
}
