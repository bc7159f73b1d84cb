/**
 Slab allocator whose freelists are threaded through the memory they manage.

 Memory is byte-addressed and shared.  A block writes 8-byte next-pointers into its free slots and
 the owner of an outstanding slot may write any byte of it; the freelists survive because slots do
 not overlap and an item is at least as large as a pointer.
 */
module Slab {
  import opened Words

  const POINTER_SIZE: nat := 8

  // ----- pointers in memory

  type Image = map<int, byte>

  function ByteAt(m: Image, a: nat): byte {
    if a in m then m[a] else 0
  }

  function BytesAt(m: Image, a: nat, n: nat): (r: Bytes)
    ensures |r| == n
    ensures forall i :: 0 <= i < n ==> r[i] == ByteAt(m, a + i)
    decreases n
  {
    if n == 0 then [] else [ByteAt(m, a)] + BytesAt(m, a + 1, n - 1)
  }

  /** `memcpy` of a pointer out of memory. */
  function ReadPointer(m: Image, a: nat): nat {
    FromLittleEndian(BytesAt(m, a, POINTER_SIZE))
  }

  /** `memcpy` of a pointer into memory. */
  function WritePointer(m: Image, a: nat, v: nat): Image {
    m + map i {:trigger ByteAt(m, i)} | a <= i < a + POINTER_SIZE :: LittleEndian(v, POINTER_SIZE)[i - a]
  }

  predicate IsPointer(v: nat) {
    v < Pow(256, POINTER_SIZE)
  }

  lemma ReadWrite(m: Image, a: nat, v: nat)
    requires IsPointer(v)
    ensures ReadPointer(WritePointer(m, a, v), a) == v
  {
    var m' := WritePointer(m, a, v);
    assert BytesAt(m', a, POINTER_SIZE) == LittleEndian(v, POINTER_SIZE);
    FromLittleEndianInverts(v, POINTER_SIZE);
  }

  /** A pointer depends only on its own bytes. */
  lemma ReadFrame(m: Image, m': Image, a: nat)
    requires forall i :: a <= i < a + POINTER_SIZE ==> ByteAt(m', i) == ByteAt(m, i)
    ensures ReadPointer(m', a) == ReadPointer(m, a)
  {
    assert BytesAt(m', a, POINTER_SIZE) == BytesAt(m, a, POINTER_SIZE);
  }

  // ----- carving a block into slots

  ghost function Elements(s: seq<nat>): set<nat>
    decreases |s|
  {
    if s == [] then {} else {s[0]} + Elements(s[1..])
  }

  ghost predicate Distinct(s: seq<nat>)
    decreases |s|
  {
    s == [] || (s[0] !in Elements(s[1..]) && Distinct(s[1..]))
  }

  lemma Cons(d: nat, s: seq<nat>)
    ensures Elements([d] + s) == {d} + Elements(s)
    ensures Distinct([d] + s) <==> d !in Elements(s) && Distinct(s)
  {
    assert ([d] + s)[1..] == s;
  }

  /** The slots that the constructor's loop carves from `[data, end)`. */
  ghost function Carved(data: nat, end: nat, item: nat): set<nat>
    requires 1 <= item
    decreases end - data
  {
    if data + item <= end then {data} + Carved(data + item, end, item) else {}
  }

  predicate Apart(a: nat, c: nat, item: nat) {
    a + item <= c || c + item <= a
  }

  /** Slots lie in `[lo, end)` and do not overlap. */
  ghost predicate Spaced(slots: set<nat>, lo: nat, end: nat, item: nat) {
    && (forall a :: a in slots ==> lo <= a && a + item <= end)
    && (forall a, c :: a in slots && c in slots && a != c ==> Apart(a, c, item))
  }

  lemma {:induction false} CarvedSpaced(data: nat, end: nat, item: nat)
    requires 1 <= item
    ensures Spaced(Carved(data, end, item), data, end, item)
    decreases end - data
  {
    if data + item <= end {
      CarvedSpaced(data + item, end, item);
    }
  }

  /** Every slot has the alignment of the first one. */
  lemma {:induction false} CarvedAligned(data: nat, end: nat, item: nat, align: nat)
    requires 1 <= item && 1 <= align && data % align == 0 && item % align == 0
    ensures forall a :: a in Carved(data, end, item) ==> a % align == 0
    decreases end - data
  {
    if data + item <= end {
      AlignedSum(data, item, align);
      CarvedAligned(data + item, end, item, align);
    }
  }

  lemma AlignedSum(a: nat, b: nat, align: nat)
    requires 1 <= align && a % align == 0 && b % align == 0
    ensures (a + b) % align == 0
  {
    var x, y := a / align, b / align;
    assert a + b == (x + y) * align + 0;
    DivModUnique(a + b, align, x + y, 0);
  }

  // ----- freelists

  /** The chain of next-pointers that starts at `head` visits exactly `free`, in order, and ends. */
  ghost predicate Chain(m: Image, head: nat, free: seq<nat>)
    decreases |free|
  {
    if free == [] then head == 0
    else head == free[0] && head != 0 && Chain(m, ReadPointer(m, head), free[1..])
  }

  lemma {:induction false} ChainFrame(m: Image, m': Image, head: nat, free: seq<nat>)
    requires Chain(m, head, free)
    requires forall a :: a in Elements(free) ==> ReadPointer(m', a) == ReadPointer(m, a)
    ensures Chain(m', head, free)
    decreases |free|
  {
    if free != [] { ChainFrame(m, m', ReadPointer(m, head), free[1..]); }
  }

  lemma WriteFrame(m: Image, slot: nat, v: nat, other: nat)
    requires Apart(other, slot, POINTER_SIZE)
    ensures ReadPointer(WritePointer(m, slot, v), other) == ReadPointer(m, other)
  {
    ReadFrame(m, WritePointer(m, slot, v), other);
  }

  /** Writing the old head into a slot apart from the chain makes that slot the new head. */
  lemma PushChain(m: Image, head: nat, free: seq<nat>, slot: nat)
    requires Chain(m, head, free) && IsPointer(head) && slot != 0
    requires forall f :: f in Elements(free) ==> Apart(f, slot, POINTER_SIZE)
    ensures Chain(WritePointer(m, slot, head), slot, [slot] + free)
  {
    var m' := WritePointer(m, slot, head);
    forall f | f in Elements(free) ensures ReadPointer(m', f) == ReadPointer(m, f) {
      WriteFrame(m, slot, head, f);
    }
    ChainFrame(m, m', head, free);
    ReadWrite(m, slot, head);
    assert ([slot] + free)[1..] == free;
  }

  /** The freelist is an acyclic chain of distinct slots; free and outstanding slots partition `slots`. */
  ghost predicate FreelistSound(m: Image, head: nat, free: seq<nat>, outstanding: set<nat>, slots: set<nat>) {
    && Chain(m, head, free)
    && Distinct(free)
    && Elements(free) !! outstanding
    && Elements(free) + outstanding == slots
  }

  /** A freelist survives any change of memory that spares the pointers in its free slots. */
  lemma SoundFrame(m: Image, m': Image, head: nat, free: seq<nat>, outstanding: set<nat>, slots: set<nat>)
    requires FreelistSound(m, head, free, outstanding, slots)
    requires forall f :: f in Elements(free) ==> ReadPointer(m', f) == ReadPointer(m, f)
    ensures FreelistSound(m', head, free, outstanding, slots)
  {
    ChainFrame(m, m', head, free);
  }

  /** Pushing an outstanding slot. */
  lemma PushSound(m: Image, head: nat, free: seq<nat>, outstanding: set<nat>, slots: set<nat>,
                  lo: nat, end: nat, item: nat, slot: nat)
    requires FreelistSound(m, head, free, outstanding, slots) && slot in outstanding
    requires Spaced(slots, lo, end, item) && POINTER_SIZE <= item && 0 < lo && IsPointer(end)
    ensures FreelistSound(WritePointer(m, slot, head), slot, [slot] + free, outstanding - {slot}, slots)
  {
    forall f | f in Elements(free) ensures Apart(f, slot, POINTER_SIZE) {
      assert f in slots && slot in slots;
      assert Apart(f, slot, item);
    }
    assert slot in slots;
    assert IsPointer(head) by { if free != [] { assert free[0] in Elements(free); } }
    PushChain(m, head, free, slot);
    Cons(slot, free);
  }

  /** Popping the head. */
  lemma PopSound(m: Image, head: nat, free: seq<nat>, outstanding: set<nat>, slots: set<nat>)
    requires FreelistSound(m, head, free, outstanding, slots) && head != 0
    ensures free != [] && head == free[0] && head in slots && head !in outstanding
    ensures FreelistSound(m, ReadPointer(m, head), free[1..], outstanding + {head}, slots)
  {
    assert free == [head] + free[1..];
    Cons(head, free[1..]);
  }

  /** Writing a pointer outside the range of another block's slots. */
  lemma ElsewhereSound(m: Image, head: nat, free: seq<nat>, outstanding: set<nat>, slots: set<nat>,
                       lo: nat, end: nat, item: nat, at: nat, v: nat)
    requires FreelistSound(m, head, free, outstanding, slots)
    requires Spaced(slots, lo, end, item) && POINTER_SIZE <= item
    requires at + POINTER_SIZE <= lo || end <= at
    ensures FreelistSound(WritePointer(m, at, v), head, free, outstanding, slots)
  {
    forall f | f in Elements(free) ensures ReadPointer(WritePointer(m, at, v), f) == ReadPointer(m, f) {
      assert f in slots;
      WriteFrame(m, at, v, f);
    }
    SoundFrame(m, WritePointer(m, at, v), head, free, outstanding, slots);
  }

  /** Only bytes of `[lo, hi)` differ. */
  ghost predicate SameOutside(m: Image, m': Image, lo: nat, hi: nat) {
    forall a: nat :: !(lo <= a < hi) ==> ByteAt(m', a) == ByteAt(m, a)
  }

  lemma WriteInside(m: Image, m': Image, lo: nat, hi: nat, a: nat, v: nat)
    requires SameOutside(m, m', lo, hi) && lo <= a && a + POINTER_SIZE <= hi
    ensures SameOutside(m, WritePointer(m', a, v), lo, hi)
  {
  }

  /** `free` are the slots below `d`; those from `d` on are still to come. */
  ghost predicate Taken(data: nat, d: nat, end: nat, item: nat, free: seq<nat>)
    requires 1 <= item
  {
    && data <= d <= end && Distinct(free)
    && (forall a :: a in Elements(free) ==> data <= a && a + item <= d)
    && Elements(free) + Carved(d, end, item) == Carved(data, end, item)
  }

  lemma TakenNext(data: nat, d: nat, end: nat, item: nat, free: seq<nat>)
    requires 1 <= item && d + item <= end && Taken(data, d, end, item, free)
    ensures Taken(data, d + item, end, item, [d] + free)
  {
    Cons(d, free);
    assert Carved(d, end, item) == {d} + Carved(d + item, end, item);
  }

  /** The slots below `d` are chained. */
  ghost predicate Carving(m: Image, data: nat, d: nat, end: nat, item: nat, head: nat, free: seq<nat>)
    requires 1 <= item
  {
    Taken(data, d, end, item, free) && Chain(m, head, free) && IsPointer(head)
  }

  lemma CarvingStarts(m: Image, data: nat, end: nat, item: nat)
    requires 1 <= item && data <= end
    ensures Carving(m, data, data, end, item, 0, [])
  {
  }

  lemma CarvingEnds(m: Image, data: nat, d: nat, end: nat, item: nat, head: nat, free: seq<nat>)
    requires 1 <= item && Carving(m, data, d, end, item, head, free) && end < d + item
    ensures FreelistSound(m, head, free, {}, Carved(data, end, item))
  {
  }

  lemma CarvingStep(m: Image, data: nat, d: nat, end: nat, item: nat, head: nat, free: seq<nat>)
    requires POINTER_SIZE <= item && 0 < data && IsPointer(end) && d + item <= end
    requires Carving(m, data, d, end, item, head, free)
    ensures Carving(WritePointer(m, d, head), data, d + item, end, item, d, [d] + free)
  {
    assert forall f :: f in Elements(free) ==> Apart(f, d, POINTER_SIZE);
    PushChain(m, head, free, d);
    TakenNext(data, d, end, item, free);
  }

  /** The body of the constructor's loop: the slot at `d` becomes the head of the chain. */
  method CarveSlot(ghost m: Image, m0: Image, data: nat, d: nat, end: nat, item: nat, head: nat, ghost free: seq<nat>)
      returns (m': Image, ghost free': seq<nat>)
    requires POINTER_SIZE <= item && 0 < data && IsPointer(end) && d + item <= end
    requires Carving(m0, data, d, end, item, head, free) && SameOutside(m, m0, data, end)
    ensures Carving(m', data, d + item, end, item, d, free') && SameOutside(m, m', data, end)
  {
    CarvingStep(m0, data, d, end, item, head, free);
    WriteInside(m, m0, data, end, d, head);
    m', free' := WritePointer(m0, d, head), [d] + free;
  }

  /** The constructor's loop: chain every slot of `[data, end)`, touching no other byte. */
  method Carve(m: Image, data: nat, end: nat, item: nat) returns (m': Image, head: nat, ghost free: seq<nat>)
    requires POINTER_SIZE <= item && 0 < data <= end && IsPointer(end)
    ensures FreelistSound(m', head, free, {}, Carved(data, end, item))
    ensures SameOutside(m, m', data, end)
  {
    m', head, free := m, 0, [];
    var d := data;
    CarvingStarts(m, data, end, item);
    while d + item <= end
      invariant Carving(m', data, d, end, item, head, free)
      invariant SameOutside(m, m', data, end)
    {
      m', free := CarveSlot(m, m', data, d, end, item, head, free);
      head := d;
      d := d + item;
    }
    CarvingEnds(m', data, d, end, item, head, free);
  }

  // ----- one block

  /** The memory image shared by all blocks; `blocks` are the blocks that exist. */
  class Memory {
    var bytes: Image
    ghost var blocks: set<SlabBlock>

    constructor ()
      ensures Valid() && blocks == {} && fresh(this)
    {
      bytes, blocks := map[], {};
    }

    /** Every block's freelist is sound and no two blocks overlap. */
    ghost predicate Valid()
      reads this, blocks
    {
      && (forall b :: b in blocks ==> b.memory == this && b.Sound(bytes))
      && (forall b, c :: b in blocks && c in blocks && b != c ==> b.p + b.size <= c.p || c.p + c.size <= b.p)
    }

    /** The owner of an outstanding slot writes one of its bytes. */
    method Write(ghost b: SlabBlock, ghost slot: nat, a: nat, v: byte)
      requires Valid() && b in blocks && slot in b.outstanding && slot <= a < slot + b.item
      modifies this`bytes
      ensures Valid() && bytes == old(bytes)[a := v]
    {
      bytes := bytes[a := v];
      forall c | c in blocks ensures c.Sound(bytes) {
        c.SlotsSpaced();
        b.SlotsSpaced();
        forall f | f in Elements(c.free)
          ensures ReadPointer(bytes, f) == ReadPointer(old(bytes), f)
        {
          assert f in c.Slots() && slot in b.Slots();
          assert c == b ==> Apart(f, slot, b.item);
          ReadFrame(old(bytes), bytes, f);
        }
        SoundFrame(old(bytes), bytes, c.l, c.free, c.outstanding, c.Slots());
      }
    }
  }

  class SlabBlock {
    const memory: Memory
    const p: nat
    const size: nat
    const item: nat
    var l: nat
    ghost var free: seq<nat>
    ghost var outstanding: set<nat>

    ghost function Slots(): set<nat>
      requires 1 <= item
    {
      Carved(p, p + size, item)
    }

    /** The freelist and the outstanding slots partition the carved slots. */
    ghost predicate Sound(m: Image)
      reads this
    {
      && POINTER_SIZE <= item && 0 < p && IsPointer(p + size)
      && FreelistSound(m, l, free, outstanding, Slots())
    }

    lemma SlotsSpaced()
      requires 1 <= item
      ensures Spaced(Slots(), p, p + size, item)
    {
      CarvedSpaced(p, p + size, item);
    }

    /** A pointer written outside this block leaves it sound. */
    lemma SoundElsewhere(m: Image, at: nat, v: nat)
      requires Sound(m) && (at + POINTER_SIZE <= p || p + size <= at)
      ensures Sound(WritePointer(m, at, v))
    {
      SlotsSpaced();
      ElsewhereSound(m, l, free, outstanding, Slots(), p, p + size, item, at, v);
    }

    /** So does any change of memory outside it. */
    lemma SoundOutside(m: Image, m': Image, lo: nat, hi: nat)
      requires Sound(m) && SameOutside(m, m', lo, hi) && (p + size <= lo || hi <= p)
      ensures Sound(m')
    {
      SlotsSpaced();
      forall f | f in Elements(free) ensures ReadPointer(m', f) == ReadPointer(m, f) {
        assert f in Slots();
        ReadFrame(m, m', f);
      }
      SoundFrame(m, m', l, free, outstanding, Slots());
    }

    /** Carve `[data, data + size)` into items and chain them all. */
    constructor (memory: Memory, data: nat, size: nat, item: nat)
      requires memory.Valid() && POINTER_SIZE <= item && 0 < data && IsPointer(data + size)
      requires forall b :: b in memory.blocks ==> b.p + b.size <= data || data + size <= b.p
      modifies memory
      ensures this.memory == memory && p == data && this.size == size && this.item == item
      ensures outstanding == {} && Elements(free) == Slots()
      ensures memory.Valid() && memory.blocks == old(memory.blocks) + {this}
    {
      this.memory, p, this.size, this.item := memory, data, size, item;
      l, free, outstanding := 0, [], {};
      new;
      var bytes, head;
      bytes, head, free := Carve(memory.bytes, data, data + size, item);
      memory.bytes, l := bytes, head;
      forall b | b in memory.blocks ensures b.Sound(memory.bytes) {
        b.SoundOutside(old(memory.bytes), memory.bytes, data, data + size);
      }
      memory.blocks := memory.blocks + {this};
    }

    predicate Own(a: nat)
    {
      p <= a < p + size
    }

    /** Pop the head of the freelist; 0 stands for the null pointer. */
    method Allocate() returns (ret: nat)
      requires memory.Valid() && this in memory.blocks
      modifies this
      ensures memory.Valid()
      ensures ret == 0 <==> old(free) == []
      ensures ret == 0 ==> unchanged(this)
      ensures ret != 0 ==> old(free) == [ret] + free && outstanding == old(outstanding) + {ret}
      ensures ret != 0 ==> 1 <= item && ret in Slots() && ret !in old(outstanding)
    {
      ret := l;
      if ret != 0 {
        PopSound(memory.bytes, l, free, outstanding, Slots());
        l := ReadPointer(memory.bytes, ret);
        outstanding := outstanding + {ret};
        free := free[1..];
      }
    }

    /** Push an outstanding slot onto the freelist. */
    method Deallocate(ptr: nat)
      requires memory.Valid() && this in memory.blocks && ptr in outstanding
      modifies this, memory`bytes
      ensures memory.Valid()
      ensures free == [ptr] + old(free) && outstanding == old(outstanding) - {ptr}
    {
      SlotsSpaced();
      assert ptr in Slots();
      forall b | b in memory.blocks && b != this
        ensures b.Sound(WritePointer(memory.bytes, ptr, l))
      {
        b.SoundElsewhere(memory.bytes, ptr, l);
      }
      PushSound(memory.bytes, l, free, outstanding, Slots(), p, p + size, item, ptr);
      memory.bytes := WritePointer(memory.bytes, ptr, l);
      l := ptr;
      free := [ptr] + free;
      outstanding := outstanding - {ptr};
    }
  }

  // ----- allocators

  /** The least multiple of `align` that is at least `x`. */
  function AlignUp(x: nat, align: nat): (r: nat)
    requires 1 <= align
    ensures x <= r < x + align && r % align == 0
  {
    var r := (x + align - 1) / align * align;
    DivModUnique(r, align, (x + align - 1) / align, 0);
    r
  }

  class SlabAllocator {
    const memory: Memory
    const header: nat         // sizeof(SlabBlock)
    const itemAlignment: nat
    const itemSize: nat
    const slabSize: nat
    var slabs: seq<SlabBlock> // newest first

    /** The slabs exist in memory and were carved for this allocator's items. */
    ghost predicate Mine()
      reads this, memory`blocks
    {
      && POINTER_SIZE <= itemSize && 1 <= itemAlignment && itemSize % itemAlignment == 0
      && forall b :: b in slabs ==> b in memory.blocks && b.item == itemSize && b.p % itemAlignment == 0
    }

    ghost predicate Valid()
      reads this, memory, memory.blocks
    {
      memory.Valid() && Mine()
    }

    /** Any slab size is admitted; one below the header leaves the allocator disabled. */
    constructor (memory: Memory, header: nat, sizeOf: nat, alignOf: nat, extra: nat, alloc: nat, align: nat)
      requires memory.Valid() && POINTER_SIZE <= sizeOf && 1 <= alignOf
      ensures Valid() && this.memory == memory && slabs == [] && this.header == header && slabSize == alloc
      ensures itemAlignment == if align != 0 then align else alignOf
      ensures itemSize == AlignUp(sizeOf + extra, itemAlignment)
    {
      this.memory, this.header, slabSize, slabs := memory, header, alloc, [];
      itemAlignment := if align != 0 then align else alignOf;
      itemSize := AlignUp(sizeOf + extra, if align != 0 then align else alignOf);
    }

    /** After its header and the padding, a slab at `buf` has room for an item. */
    predicate CanGrow(buf: nat)
    {
      buf != 0 && 1 <= itemAlignment && AlignUp(buf + header, itemAlignment) + itemSize <= buf + slabSize
    }

    /** `buf` is null or the address of `slabSize` bytes that no block uses, enough for a header. */
    ghost predicate Usable(buf: nat)
      reads memory
    {
      buf != 0 ==>
        && IsPointer(buf + slabSize) && header <= slabSize
        && forall b :: b in memory.blocks ==> b.p + b.size <= buf || buf + slabSize <= b.p
    }

    /** No slab has a free slot and no slab can be added at `buf`. */
    ghost predicate Exhausted(buf: nat)
      reads this, slabs
    {
      !CanGrow(buf) && forall b :: b in slabs ==> b.free == []
    }

    /**
     A slot from the first slab that has one, or from a new slab at `buf`, the address returned by
     the system allocator (0 when it fails); null exactly when neither is to be had.  `home` is the
     block that the slot belongs to.
     */
    method Allocate(buf: nat) returns (ret: nat, ghost home: SlabBlock?)
      requires Valid() && Usable(buf)
      modifies this`slabs, memory, memory.blocks
      ensures Valid() && fresh(memory.blocks - old(memory.blocks)) && old(memory.blocks) <= memory.blocks
      ensures ret == 0 <==> home == null
      ensures ret == 0 <==> old(Exhausted(buf))
      ensures home != null ==> home in slabs && ret in home.outstanding && ret % itemAlignment == 0
      ensures home in old(memory.blocks) ==> ret !in old(home.outstanding)
      ensures forall b :: b in memory.blocks && b != home ==>
                b.outstanding == if b in old(memory.blocks) then old(b.outstanding) else {}
      ensures home != null ==>
                home.outstanding == (if home in old(memory.blocks) then old(home.outstanding) else {}) + {ret}
    {
      ghost var at;
      ret, at := FromExisting();
      if ret != 0 { return ret, slabs[at]; }
      if buf == 0 { return 0, null; }
      var slab := NewSlab(buf);
      if slab == null { return 0, null; }
      ret := slab.Allocate();
      home := slab;
    }

    /** Every slot of a slab of this allocator is aligned. */
    lemma SlotsAligned(b: SlabBlock)
      requires Mine() && b in slabs
      ensures forall a :: a in b.Slots() ==> a % itemAlignment == 0
    {
      CarvedAligned(b.p, b.p + b.size, b.item, itemAlignment);
    }

    /** A slot from the first slab that has one, the one at index `at`. */
    method FromExisting() returns (ret: nat, ghost at: nat)
      requires Valid()
      modifies slabs
      ensures Valid() && at <= |slabs|
      ensures ret == 0 <==> at == |slabs|
      ensures forall j :: 0 <= j < at ==> old(slabs[j].free) == []
      ensures ret != 0 ==> && old(slabs[at].free) != [] && ret !in old(slabs[at].outstanding)
                           && slabs[at].outstanding == old(slabs[at].outstanding) + {ret}
                           && ret % itemAlignment == 0
      ensures forall b :: b in memory.blocks && (at < |slabs| ==> b != slabs[at]) ==> b.outstanding == old(b.outstanding)
    {
      for i := 0 to |slabs|
        invariant Valid()
        invariant forall b :: b in memory.blocks ==> b.free == old(b.free) && b.outstanding == old(b.outstanding)
        invariant forall k :: 0 <= k < i ==> old(slabs[k].free) == []
      {
        ret := slabs[i].Allocate();
        if ret != 0 {
          SlotsAligned(slabs[i]);
          return ret, i;
        }
      }
      return 0, |slabs|;
    }

    /** Carve a new slab after its header and link it in front; none exactly when not even one item fits. */
    method NewSlab(buf: nat) returns (slab: SlabBlock?)
      requires Valid() && buf != 0 && Usable(buf)
      modifies this`slabs, memory
      ensures Valid()
      ensures slab != null <==> CanGrow(buf)
      ensures slab == null ==> memory.blocks == old(memory.blocks) && slabs == old(slabs)
      ensures slab != null ==> && fresh(slab) && slabs == [slab] + old(slabs)
                               && memory.blocks == old(memory.blocks) + {slab}
                               && slab.outstanding == {} && slab.free != []
                               && forall a :: a in slab.Slots() ==> a % itemAlignment == 0
    {
      var slabData := AlignUp(buf + header, itemAlignment);
      if buf + slabSize < slabData + itemSize { return null; }
      slab := new SlabBlock(memory, slabData, buf + slabSize - slabData, itemSize);
      slabs := [slab] + slabs;
      assert slabData in slab.Slots();
      CarvedAligned(slabData, buf + slabSize, itemSize, itemAlignment);
    }

    /**
     Return `ptr` to the slab that owns it.  `home` is the block that handed it out, or null when no
     block contains it.
     */
    method Deallocate(ptr: nat, ghost home: SlabBlock?) returns (released: bool)
      requires Valid()
      requires if home == null then forall b :: b in memory.blocks ==> !b.Own(ptr)
               else home in memory.blocks && ptr in home.outstanding
      modifies memory`bytes, memory.blocks
      ensures Valid()
      ensures released <==> home in slabs
      ensures !released ==> unchanged(memory) && unchanged(memory.blocks)
      ensures forall b :: b in memory.blocks ==>
                b.outstanding == if released && b == home then old(b.outstanding) - {ptr} else old(b.outstanding)
    {
      if home != null {
        home.SlotsSpaced();
        assert ptr in home.Slots() && home.Own(ptr);
      }
      var i := 0;
      while i < |slabs|
        invariant 0 <= i <= |slabs| && Valid()
        invariant memory.blocks == old(memory.blocks) && memory.bytes == old(memory.bytes)
        invariant forall b :: b in memory.blocks ==> b.outstanding == old(b.outstanding)
        invariant forall k :: 0 <= k < i ==> slabs[k] != home
      {
        if slabs[i].Own(ptr) {
          assert slabs[i] == home;
          slabs[i].Deallocate(ptr);
          return true;
        }
        i := i + 1;
      }
      return false;
    }
  }

  /** Allocators of several item sizes over one memory. */
  class SlabAllocatorSet {
    const memory: Memory
    const allocators: seq<SlabAllocator>
    var maxSize: nat

    ghost predicate Valid()
      reads this, memory, memory.blocks, allocators
    {
      && memory.Valid()
      && (forall a :: a in allocators ==> a.memory == memory && a.Mine())
      && (forall a :: a in allocators ==> a.itemSize <= maxSize)
      && (maxSize != 0 ==> exists a :: a in allocators && a.itemSize == maxSize)
    }

    constructor (memory: Memory, allocators: seq<SlabAllocator>)
      requires memory.Valid()
      requires forall a :: a in allocators ==> a.memory == memory && a.Mine()
      ensures Valid() && this.memory == memory && this.allocators == allocators
    {
      var max := 0;
      for i := 0 to |allocators|
        invariant forall k :: 0 <= k < i ==> allocators[k].itemSize <= max
        invariant max != 0 ==> exists k :: 0 <= k < i && allocators[k].itemSize == max
      {
        if allocators[i].itemSize > max { max := allocators[i].itemSize; }
      }
      this.memory, this.allocators, maxSize := memory, allocators, max;
    }

    /** Allocator `k` is the first whose items hold `size` bytes. */
    predicate FirstFit(k: nat, size: nat)
    {
      && k < |allocators| && size <= allocators[k].itemSize
      && forall j :: 0 <= j < k ==> allocators[j].itemSize < size
    }

    /** The allocator that a request of `size` bytes goes to has nothing to give, or there is none. */
    ghost predicate Unavailable(size: nat, buf: nat)
      reads *
    {
      forall k: nat :: FirstFit(k, size) ==> allocators[k].Exhausted(buf)
    }

    /** The address is fit for a slab of the allocator that a request of `size` bytes goes to. */
    ghost predicate Usable(size: nat, buf: nat)
      reads this, memory, allocators
    {
      forall k: nat :: FirstFit(k, size) ==> allocators[k].memory == memory && allocators[k].Usable(buf)
    }

    /** `home` is a slab of the allocator that a request of `size` bytes goes to, and `ret` is aligned for it. */
    ghost predicate Served(size: nat, home: SlabBlock, ret: nat)
      reads allocators
    {
      exists k: nat :: FirstFit(k, size) && home in allocators[k].slabs
        && 1 <= allocators[k].itemAlignment && ret % allocators[k].itemAlignment == 0
    }

    lemma FitDecides(i: nat, size: nat, buf: nat)
      requires Valid() && FirstFit(i, size)
      ensures Unavailable(size, buf) <==> allocators[i].Exhausted(buf)
    {
      forall k: nat | FirstFit(k, size) ensures k == i { }
    }

    lemma NoFitDecides(size: nat, buf: nat)
      requires Valid() && forall j :: 0 <= j < |allocators| ==> allocators[j].itemSize < size
      ensures Unavailable(size, buf)
    {
    }

    /** What one allocator of the set gives. */
    method AllocateFrom(a: SlabAllocator, ghost size: nat, buf: nat) returns (ret: nat, ghost home: SlabBlock?)
      requires Valid() && a in allocators && size <= a.itemSize && a.Usable(buf)
      modifies a`slabs, memory, memory.blocks
      ensures Valid() && fresh(memory.blocks - old(memory.blocks)) && old(memory.blocks) <= memory.blocks
      ensures ret == 0 <==> home == null
      ensures ret == 0 <==> old(a.Exhausted(buf))
      ensures home != null ==> && home in a.slabs && home in memory.blocks && size <= home.item
                               && 1 <= a.itemAlignment && ret % a.itemAlignment == 0
      ensures home in old(memory.blocks) ==> ret !in old(home.outstanding)
      ensures forall b :: b in memory.blocks && b != home ==>
                b.outstanding == if b in old(memory.blocks) then old(b.outstanding) else {}
      ensures home != null ==>
                home.outstanding == (if home in old(memory.blocks) then old(home.outstanding) else {}) + {ret}
    {
      ret, home := a.Allocate(buf);
    }

    /**
     A slot of at least `sizeOf + extra` bytes from the first allocator whose items are large
     enough; null exactly when there is no such allocator or it is exhausted.
     */
    method Allocate(sizeOf: nat, extra: nat, buf: nat) returns (ret: nat, ghost home: SlabBlock?)
      requires Valid()
      requires Usable(sizeOf + extra, buf)
      modifies allocators, memory, memory.blocks
      ensures Valid() && fresh(memory.blocks - old(memory.blocks)) && old(memory.blocks) <= memory.blocks
      ensures ret == 0 <==> home == null
      ensures ret == 0 <==> old(Unavailable(sizeOf + extra, buf))
      ensures home != null ==> Served(sizeOf + extra, home, ret) && home in memory.blocks && sizeOf + extra <= home.item
      ensures home in old(memory.blocks) ==> ret !in old(home.outstanding)
      ensures forall b :: b in memory.blocks && b != home ==>
                b.outstanding == if b in old(memory.blocks) then old(b.outstanding) else {}
      ensures home != null ==>
                home.outstanding == (if home in old(memory.blocks) then old(home.outstanding) else {}) + {ret}
    {
      if sizeOf + extra <= maxSize {
        for i := 0 to |allocators|
          invariant forall j :: 0 <= j < i ==> allocators[j].itemSize < sizeOf + extra
        {
          if allocators[i].itemSize >= sizeOf + extra {
            FitDecides(i, sizeOf + extra, buf);
            ret, home := AllocateFrom(allocators[i], sizeOf + extra, buf);
            return;
          }
        }
      }
      NoFitDecides(sizeOf + extra, buf);
      return 0, null;
    }

    /** Offer `ptr` to each allocator in turn; the one whose slab handed it out takes it back. */
    method Deallocate(ptr: nat, ghost home: SlabBlock?) returns (released: bool)
      requires Valid()
      requires if home == null then forall b :: b in memory.blocks ==> !b.Own(ptr)
               else home in memory.blocks && ptr in home.outstanding
      modifies memory`bytes, memory.blocks
      ensures Valid()
      ensures released <==> exists k :: 0 <= k < |allocators| && home in allocators[k].slabs
      ensures forall b :: b in memory.blocks ==>
                b.outstanding == if released && b == home then old(b.outstanding) - {ptr} else old(b.outstanding)
    {
      for i := 0 to |allocators|
        invariant unchanged(memory) && unchanged(memory.blocks)
        invariant forall k :: 0 <= k < i ==> home !in allocators[k].slabs
      {
        var a := allocators[i];
        assert a in allocators && a.Mine();
        released := a.Deallocate(ptr, home);
        if released { return; }
      }
      return false;
    }
  }

  // ----- building a set from its configuration

  datatype SlabConfig = SlabConfig(extra: nat, alloc: nat, align: nat)

  const MAX_ALLOCATORS := 64

  predicate Ascending(cfg: seq<SlabConfig>) {
    forall i, j :: 0 <= i < j < |cfg| ==> cfg[i].extra <= cfg[j].extra
  }

  /** No two configurations ask for the same number of extra bytes. */
  predicate AllDifferent(cfg: seq<SlabConfig>) {
    forall i, j :: 0 <= i < j < |cfg| ==> cfg[i].extra != cfg[j].extra
  }

  function Extras(cfg: seq<SlabConfig>): set<nat> {
    set c | c in cfg :: c.extra
  }

  /** A sequence has no repeated value exactly when it has as many values as elements. */
  lemma {:induction false} DifferentByCount(cfg: seq<SlabConfig>)
    ensures |Extras(cfg)| <= |cfg|
    ensures AllDifferent(cfg) <==> |Extras(cfg)| == |cfg|
  {
    if cfg != [] {
      var n := |cfg| - 1;
      var front, last := cfg[..n], cfg[n].extra;
      DifferentByCount(front);
      assert cfg == front + [cfg[n]];
      assert Extras(cfg) == Extras(front) + {last};
      if last in Extras(front) {
        assert exists i :: 0 <= i < n && cfg[i].extra == last;
      } else {
        assert forall i :: 0 <= i < n ==> front[i] == cfg[i] && cfg[i].extra in Extras(front);
        assert AllDifferent(cfg) <==> AllDifferent(front);
      }
    }
  }

  /** Reordering neither adds nor removes a repetition. */
  lemma DifferentReordered(a: seq<SlabConfig>, b: seq<SlabConfig>)
    requires multiset(a) == multiset(b)
    ensures AllDifferent(a) <==> AllDifferent(b)
  {
    assert |multiset(a)| == |a| && |multiset(b)| == |b|;
    forall c: SlabConfig ensures c in a <==> c in b {
      assert c in a <==> c in multiset(a);
      assert c in b <==> c in multiset(b);
    }
    assert Extras(a) == Extras(b);
    DifferentByCount(a);
    DifferentByCount(b);
  }

  function Insert(cfg: seq<SlabConfig>, c: SlabConfig): seq<SlabConfig> {
    if cfg == [] || c.extra < cfg[0].extra then [c] + cfg else [cfg[0]] + Insert(cfg[1..], c)
  }

  lemma {:induction false} InsertPermutes(cfg: seq<SlabConfig>, c: SlabConfig)
    ensures multiset(Insert(cfg, c)) == multiset(cfg) + multiset{c}
  {
    if cfg != [] && cfg[0].extra <= c.extra {
      InsertPermutes(cfg[1..], c);
      HeadTail(cfg);
    }
  }

  lemma {:induction false} InsertAscends(cfg: seq<SlabConfig>, c: SlabConfig)
    requires Ascending(cfg)
    ensures Ascending(Insert(cfg, c))
    ensures forall d :: d in Insert(cfg, c) ==> d in cfg || d == c
  {
    if cfg != [] && cfg[0].extra <= c.extra {
      InsertAscends(cfg[1..], c);
      assert forall d :: d in cfg[1..] ==> cfg[0].extra <= d.extra;
    }
  }

  /** `std::sort` by extra bytes. */
  method SortConfigs(cfg: seq<SlabConfig>) returns (sorted: seq<SlabConfig>)
    ensures Ascending(sorted) && multiset(sorted) == multiset(cfg)
  {
    sorted := [];
    for i := 0 to |cfg|
      invariant Ascending(sorted) && multiset(sorted) == multiset(cfg[..i])
    {
      assert cfg[..i + 1] == cfg[..i] + [cfg[i]];
      InsertPermutes(sorted, cfg[i]);
      InsertAscends(sorted, cfg[i]);
      sorted := Insert(sorted, cfg[i]);
    }
    assert cfg[..|cfg|] == cfg;
  }

  /** `std::adjacent_find` on the sorted configurations. */
  method HasDuplicate(cfg: seq<SlabConfig>) returns (found: bool)
    requires Ascending(cfg)
    ensures found <==> !AllDifferent(cfg)
  {
    var i := 1;
    while i < |cfg|
      invariant 1 <= i
      invariant forall j, k :: 0 <= j < k < i && k < |cfg| ==> cfg[j].extra != cfg[k].extra
    {
      if cfg[i - 1].extra == cfg[i].extra { return true; }
      assert forall j :: 0 <= j < i ==> cfg[j].extra <= cfg[i - 1].extra;
      i := i + 1;
    }
    return false;
  }

  /** The allocator was made for the configuration and has no slab yet. */
  ghost predicate MadeFor(a: SlabAllocator, memory: Memory, sizeOf: nat, alignOf: nat, c: SlabConfig)
    reads a
  {
    && a.memory == memory && a.slabs == [] && a.slabSize == c.alloc
    && 1 <= a.itemAlignment && a.itemAlignment == (if c.align != 0 then c.align else alignOf)
    && a.itemSize == AlignUp(sizeOf + c.extra, a.itemAlignment)
  }

  /**
   The set's constructor: its allocators are those of the configurations, in the order of their extra
   bytes; it fails exactly when two configurations ask for equally many or there are too many.
   */
  method CreateSet(memory: Memory, header: nat, sizeOf: nat, alignOf: nat, cfg: seq<SlabConfig>)
      returns (r: Result<SlabAllocatorSet>, ghost sorted: seq<SlabConfig>)
    requires memory.Valid() && POINTER_SIZE <= sizeOf && 1 <= alignOf
    ensures Ascending(sorted) && multiset(sorted) == multiset(cfg)
    ensures r.Ok? <==> AllDifferent(cfg) && |cfg| <= MAX_ALLOCATORS
    ensures r.Ok? ==> && r.value.Valid() && r.value.memory == memory && |r.value.allocators| == |sorted|
                      && forall k :: 0 <= k < |sorted| ==>
                           MadeFor(r.value.allocators[k], memory, sizeOf, alignOf, sorted[k])
  {
    var ordered := SortConfigs(cfg);
    sorted := ordered;
    DifferentReordered(ordered, cfg);
    assert |multiset(ordered)| == |ordered| && |multiset(cfg)| == |cfg|;
    var duplicate := HasDuplicate(ordered);
    if duplicate { return Err("duplicate slab size"), ordered; }
    if MAX_ALLOCATORS < |ordered| { return Err("bad_alloc"), ordered; }
    var allocators: seq<SlabAllocator> := [];
    for i := 0 to |ordered|
      invariant memory.Valid() && |allocators| == i
      invariant forall k :: 0 <= k < i ==>
        allocators[k].Mine() && MadeFor(allocators[k], memory, sizeOf, alignOf, ordered[k])
    {
      var c := ordered[i];
      var a := new SlabAllocator(memory, header, sizeOf, alignOf, c.extra, c.alloc, c.align);
      allocators := allocators + [a];
    }
    var made := new SlabAllocatorSet(memory, allocators);
    return Ok(made), ordered;
  }

  // ----- the sizes that a set hands out

  /** Aligning keeps the order, and merges two sizes exactly when the larger fits the smaller one's item. */
  lemma AlignUpOrder(x: nat, y: nat, align: nat)
    requires 1 <= align && x <= y
    ensures AlignUp(x, align) <= AlignUp(y, align)
    ensures AlignUp(x, align) == AlignUp(y, align) <==> y <= AlignUp(x, align)
  {
    var a, b := AlignUp(x, align), AlignUp(y, align);
    var i, j := a / align, b / align;
    assert a == i * align && b == j * align;
    assert (i - j) * align == a - b;
    if b < a { SmallMultiple(i - j, align); }
    if y <= a && a < b {
      assert (j - i) * align == b - a;
      SmallMultiple(j - i, align);
    }
  }

  /** The item size that a configuration gives. */
  function ItemSize(sizeOf: nat, alignOf: nat, c: SlabConfig): nat
    requires 1 <= alignOf
  {
    AlignUp(sizeOf + c.extra, if c.align != 0 then c.align else alignOf)
  }

  /** All configurations ask for one alignment. */
  predicate OneAlignment(alignOf: nat, cfg: seq<SlabConfig>, align: nat) {
    1 <= align && forall k :: 0 <= k < |cfg| ==> align == if cfg[k].align != 0 then cfg[k].align else alignOf
  }

  /**
   Under one alignment the item sizes ascend with the extra bytes, and two are the same exactly when
   the larger request fits the smaller one's item.
   */
  lemma SizesAscend(sizeOf: nat, alignOf: nat, cfg: seq<SlabConfig>, align: nat, i: nat, j: nat)
    requires 1 <= alignOf && OneAlignment(alignOf, cfg, align) && Ascending(cfg) && i < j < |cfg|
    ensures ItemSize(sizeOf, alignOf, cfg[i]) <= ItemSize(sizeOf, alignOf, cfg[j])
    ensures ItemSize(sizeOf, alignOf, cfg[i]) == ItemSize(sizeOf, alignOf, cfg[j])
      <==> sizeOf + cfg[j].extra <= ItemSize(sizeOf, alignOf, cfg[i])
  {
    AlignUpOrder(sizeOf + cfg[i].extra, sizeOf + cfg[j].extra, align);
  }

  /** So in a set made from such configurations the first allocator that fits is a smallest that fits. */
  lemma FirstFitIsSmallest(
    s: SlabAllocatorSet, memory: Memory, sizeOf: nat, alignOf: nat, cfg: seq<SlabConfig>, align: nat,
    size: nat, k: nat, j: nat)
    requires 1 <= alignOf && OneAlignment(alignOf, cfg, align) && Ascending(cfg) && |s.allocators| == |cfg|
    requires forall i :: 0 <= i < |cfg| ==> MadeFor(s.allocators[i], memory, sizeOf, alignOf, cfg[i])
    requires s.FirstFit(k, size) && j < |cfg| && size <= s.allocators[j].itemSize
    ensures s.allocators[k].itemSize <= s.allocators[j].itemSize
  {
    assert MadeFor(s.allocators[k], memory, sizeOf, alignOf, cfg[k]);
    assert MadeFor(s.allocators[j], memory, sizeOf, alignOf, cfg[j]);
    if k < j { SizesAscend(sizeOf, alignOf, cfg, align, k, j); }
  }

  /** Different extra bytes, one item size: 1 and 2 bytes on top of 8, aligned to 8. */
  lemma SameSizeTwice()
    ensures var cfg := [SlabConfig(1, 0, 8), SlabConfig(2, 0, 8)];
            && Ascending(cfg) && AllDifferent(cfg)
            && ItemSize(8, 8, cfg[0]) == 16 && ItemSize(8, 8, cfg[1]) == 16
  {
  }

  /** With two alignments the sizes may descend, and a request for 16 bytes gets 64 where 16 would do. */
  lemma SizesDescend()
    ensures var cfg := [SlabConfig(0, 0, 64), SlabConfig(8, 0, 8)];
            && Ascending(cfg) && AllDifferent(cfg)
            && ItemSize(8, 8, cfg[0]) == 64 && ItemSize(8, 8, cfg[1]) == 16
  {
  }

  /** No two outstanding slots overlap, in one slab, across slabs, or across allocators. */
  lemma OutstandingDisjoint(memory: Memory, b: SlabBlock, c: SlabBlock, x: nat, y: nat)
    requires memory.Valid() && b in memory.blocks && c in memory.blocks
    requires x in b.outstanding && y in c.outstanding && (b != c || x != y)
    ensures x + b.item <= y || y + c.item <= x
  {
    b.SlotsSpaced();
    c.SlotsSpaced();
    assert x in b.Slots() && y in c.Slots();
    assert b == c ==> Apart(x, y, b.item);
  }
}
