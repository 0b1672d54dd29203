/** The block allocator for slots of one size: slots are carved from blocks and
    recycled through a free list whose links are stored inside the free slots.
    Addresses are natural numbers below 2^64, and memory maps the addresses of
    eight-byte words to their contents. */
module PoolAllocator {
  import opened Alignment
  import opened Masks

  const WORD: nat := 8

  /** sizeof(Slot_), alignof(Slot_) and BlockSize. A slot holds a pointer, so its
      alignment is a power of two and at least a word; the size of a type is a
      multiple of its alignment; the last condition is the static assertion. */
  datatype Layout = Layout(slot: nat, align: nat, block: nat) {
    ghost predicate Ok() {
      && (exists k: nat :: 3 <= k < 64 && align == Pow2(k))
      && slot > 0 && Rem(slot, align) == 0
      && block >= 2 * slot
    }
  }

  /** The fields of the allocator, and the memory they point into. */
  datatype Pool = Pool(currentBlock: nat, currentSlot: nat, lastSlot: nat, freeSlots: nat, mem: map<nat, nat>)

  /** What the clients know: the blocks obtained, newest first, the free list,
      the slots handed out, and all slots ever carved. */
  datatype View = View(blocks: seq<nat>, free: seq<nat>, live: set<nat>, carved: set<nat>)

  const EMPTY := Pool(0, 0, 0, 0, map[])
  const NOTHING := View([], [], {}, {})

  /** Client actions. `region` is what operator new would return; a client may
      write any word of a slot it holds. */
  datatype Action =
    | Allocate(region: nat)
    | Deallocate(p: nat)
    | Write(p: nat, offset: nat, value: nat)

  // ---------- The operations ----------

  function BlockAdded(l: Layout, s: Pool, region: nat): Pool
    requires l.align > 0 && region + l.block >= l.slot
  {
    var body := region + WORD;
    s.(mem := s.mem[region := s.currentBlock],
       currentBlock := region,
       currentSlot := body + PadPointer(body, l.align),
       lastSlot := region + l.block - l.slot + 1)
  }

  /** The cell of a link; a word never written reads as zero. */
  function Load(s: Pool, p: nat): nat {
    if p in s.mem then s.mem[p] else 0
  }

  function Carve(l: Layout, s: Pool): (Pool, nat) {
    (s.(currentSlot := s.currentSlot + l.slot), s.currentSlot)
  }

  function AllocateSlot(l: Layout, s: Pool, region: nat): (Pool, nat)
    requires l.align > 0 && region + l.block >= l.slot
  {
    if s.freeSlots != 0 then (s.(freeSlots := Load(s, s.freeSlots)), s.freeSlots)
    else if s.currentSlot >= s.lastSlot then Carve(l, BlockAdded(l, s, region))
    else Carve(l, s)
  }

  function DeallocateSlot(s: Pool, p: nat): Pool {
    if p != 0 then s.(mem := s.mem[p := s.freeSlots], freeSlots := p) else s
  }

  // ---------- The invariant ----------

  /** `l` is what following the links from `head` visits. */
  ghost predicate Links(mem: map<nat, nat>, head: nat, l: seq<nat>)
    decreases l
  {
    if l == [] then head == 0
    else head == l[0] && head != 0 && head in mem && Links(mem, mem[head], l[1..])
  }

  ghost predicate Apart(p: nat, q: nat, size: nat) {
    p + size <= q || q + size <= p
  }

  ghost predicate GoodBlock(l: Layout, b: nat) {
    b > 0 && Rem(b, WORD) == 0 && b + l.block < ADDRESSES
  }

  /** operator new returns an aligned region apart from the blocks so far. */
  ghost predicate FreshBlock(l: Layout, v: View, b: nat) {
    GoodBlock(l, b) && forall i | 0 <= i < |v.blocks| :: Apart(v.blocks[i], b, l.block)
  }

  ghost predicate BlocksOk(l: Layout, v: View) {
    && (forall i | 0 <= i < |v.blocks| :: GoodBlock(l, v.blocks[i]))
    && (forall i, j | 0 <= i < j < |v.blocks| :: Apart(v.blocks[i], v.blocks[j], l.block))
  }

  /** Slot p lies in block b, past its header. */
  ghost predicate Inside(l: Layout, b: nat, p: nat) {
    b + WORD <= p && p + l.slot <= b + l.block
  }

  /** Aligned, and inside one block. */
  ghost predicate Placed(l: Layout, v: View, p: nat)
    requires l.align > 0
  {
    Rem(p, l.align) == 0 && exists i :: 0 <= i < |v.blocks| && Inside(l, v.blocks[i], p)
  }

  ghost predicate SlotsOk(l: Layout, v: View)
    requires l.align > 0
  {
    && (forall p | p in v.carved :: Placed(l, v, p))
    && (forall p, q | p in v.carved && q in v.carved && p != q :: Apart(p, q, l.slot))
  }

  /** Every carved slot is either handed out or on the free list, which is free
      of repetitions. */
  ghost predicate Partition(v: View) {
    && v.live <= v.carved
    && (forall i | 0 <= i < |v.free| :: v.free[i] in v.carved && v.free[i] !in v.live)
    && (forall i, j | 0 <= i < j < |v.free| :: v.free[i] != v.free[j])
    && (forall p | p in v.carved && p !in v.live :: p in v.free)
  }

  /** Where the next slot is carved: no slot of the current block lies beyond. */
  ghost predicate Frontier(l: Layout, s: Pool, v: View)
    requires l.align > 0
  {
    if v.blocks == [] then s.currentSlot == 0 && s.lastSlot == 0
    else
      && s.lastSlot + l.slot == v.blocks[0] + l.block + 1
      && v.blocks[0] + WORD <= s.currentSlot <= v.blocks[0] + l.block
      && Rem(s.currentSlot, l.align) == 0
      && (forall p | p in v.carved && Inside(l, v.blocks[0], p) :: p + l.slot <= s.currentSlot)
  }

  ghost predicate Inv(l: Layout, s: Pool, v: View)
    requires l.align > 0
  {
    && BlocksOk(l, v)
    && SlotsOk(l, v)
    && Partition(v)
    && Frontier(l, s, v)
    && Links(s.mem, s.currentBlock, v.blocks)
    && Links(s.mem, s.freeSlots, v.free)
  }

  // ---------- Steps ----------

  ghost predicate Enabled(l: Layout, v: View, a: Action) {
    match a
    case Allocate(region) => FreshBlock(l, v, region)
    case Deallocate(p) => p == 0 || p in v.live
    case Write(p, offset, value) => p in v.live && Rem(offset, WORD) == 0 && offset + WORD <= l.slot
  }

  function Step(l: Layout, s: Pool, a: Action): Pool
    requires l.align > 0 && l.block >= l.slot
  {
    match a
    case Allocate(region) => AllocateSlot(l, s, region).0
    case Deallocate(p) => DeallocateSlot(s, p)
    case Write(p, offset, value) => s.(mem := s.mem[p + offset := value])
  }

  /** What a client sees: an allocation recycles the slot freed last, or carves a
      new one from the current block, or takes a new block when that is full. */
  function StepView(l: Layout, s: Pool, v: View, a: Action): View
    requires l.align > 0 && l.block >= l.slot
  {
    match a
    case Allocate(region) =>
      var p := AllocateSlot(l, s, region).1;
      if v.free != [] then v.(free := v.free[1..], live := v.live + {p})
      else
        v.(blocks := if s.currentSlot >= s.lastSlot then [region] + v.blocks else v.blocks,
           live := v.live + {p}, carved := v.carved + {p})
    case Deallocate(p) =>
      if p == 0 then v else v.(free := [p] + v.free, live := v.live - {p})
    case Write(p, offset, value) => v
  }

  // ---------- Links ----------

  /** A write outside a list leaves its links alone. */
  lemma {:induction false} LinksFrame(mem: map<nat, nat>, head: nat, list: seq<nat>, p: nat, value: nat)
    requires Links(mem, head, list) && p !in list
    ensures Links(mem[p := value], head, list)
    decreases list
  {
    if list != [] {
      LinksFrame(mem, mem[head], list[1..], p, value);
    }
  }

  lemma LinksPush(mem: map<nat, nat>, head: nat, list: seq<nat>, p: nat)
    requires Links(mem, head, list) && p !in list && p != 0
    ensures Links(mem[p := head], p, [p] + list)
  {
    LinksFrame(mem, head, list, p, head);
    assert ([p] + list)[1..] == list;
  }

  // ---------- Geometry ----------

  /** A slot and a block header, or a word of another slot, never overlap. */
  lemma WordOfSlot(l: Layout, v: View, p: nat, offset: nat)
    requires l.align > 0 && BlocksOk(l, v) && SlotsOk(l, v) && p in v.carved && offset + WORD <= l.slot
    ensures p + offset !in v.blocks
    ensures forall q | q in v.carved && q != p :: p + offset != q
    ensures p != 0
  {
    hide Rem;
    var i :| 0 <= i < |v.blocks| && Inside(l, v.blocks[i], p);
    forall j | 0 <= j < |v.blocks|
      ensures v.blocks[j] != p + offset
    {
      assert j != i ==> Apart(v.blocks[i], v.blocks[j], l.block) || Apart(v.blocks[j], v.blocks[i], l.block);
    }
    forall q | q in v.carved && q != p
      ensures p + offset != q
    {
      assert Apart(p, q, l.slot);
    }
  }

  lemma SlotHoldsWord(l: Layout)
    requires l.Ok()
    ensures WORD <= l.align <= l.slot && Rem(l.align, WORD) == 0
  {
    var k: nat :| 3 <= k < 64 && l.align == Pow2(k);
    assert Pow2(3) == 8;
    PowDivides(3, k);
    var n := RemParts(l.align, WORD);
    var m := RemParts(l.slot, l.align);
    MulFar(l.align, m);
    MulFar(WORD, n);
  }

  /** Header, padding and one slot fit into every block, thanks to the assertion
      that a block has room for two slots. */
  lemma BlockHasRoom(l: Layout, region: nat)
    requires l.Ok() && GoodBlock(l, region)
    ensures Rem(region + WORD + PadPointer(region + WORD, l.align), l.align) == 0
    ensures region + WORD + PadPointer(region + WORD, l.align) + l.slot <= region + l.block
  {
    SlotHoldsWord(l);
    var k: nat :| 3 <= k < 64 && l.align == Pow2(k);
    var body := region + WORD;
    hide Rem, PadPointer, Pow2;
    PadIsExact(body, k);
    var pad := PadPointer(body, l.align);
    RemUnique(WORD, WORD, 1, 0);
    AlignedSum(region, WORD, WORD);
    AlignedFactor(body + pad, l.align, WORD);
    RemShift(pad, body, WORD);
    assert Rem(pad, WORD) == 0;
    if pad + WORD > l.align {
      var e := l.align - pad;
      RemShift(e, pad, WORD);
      RemUnique(e, WORD, 0, e);
      assert false;
    }
  }

  // ---------- Every step keeps the invariant ----------

  /** A new block: the frontier moves to its first aligned address. */
  lemma BlockKeepsInv(l: Layout, s: Pool, v: View, region: nat)
    requires l.Ok() && Inv(l, s, v) && v.free == [] && FreshBlock(l, v, region)
    ensures var s', v' := BlockAdded(l, s, region), v.(blocks := [region] + v.blocks);
            Inv(l, s', v') && s'.currentSlot < s'.lastSlot
  {
    var s', v' := BlockAdded(l, s, region), v.(blocks := [region] + v.blocks);
    BlockHasRoom(l, region);
    SlotHoldsWord(l);
    hide Rem, PadPointer;
    forall i | 0 <= i < |v.blocks|
      ensures v.blocks[i] != region
    {
      assert Apart(v.blocks[i], region, l.block);
    }
    hide GoodBlock;
    LinksPush(s.mem, s.currentBlock, v.blocks, region);
    assert Links(s'.mem, s'.freeSlots, v.free);
    hide Links;
    forall p | p in v.carved
      ensures Placed(l, v', p) && !Inside(l, region, p)
    {
      var i :| 0 <= i < |v.blocks| && Inside(l, v.blocks[i], p);
      assert v'.blocks[i + 1] == v.blocks[i] && Apart(v.blocks[i], region, l.block);
    }
  }

  /** Carving the slot at the frontier; the test against lastSlot_ is exact: it
      passes if and only if one more slot fits into the current block. */
  lemma CarveKeepsInv(l: Layout, s: Pool, v: View)
    requires l.Ok() && Inv(l, s, v) && v.free == [] && v.blocks != [] && s.currentSlot < s.lastSlot
    ensures s.currentSlot + l.slot <= v.blocks[0] + l.block
    ensures s.currentSlot !in v.carved
    ensures Inv(l, Carve(l, s).0, v.(live := v.live + {s.currentSlot}, carved := v.carved + {s.currentSlot}))
  {
    var p := s.currentSlot;
    var s', v' := Carve(l, s).0, v.(live := v.live + {p}, carved := v.carved + {p});
    SlotHoldsWord(l);
    AlignedSum(p, l.slot, l.align);
    hide Rem, Links, GoodBlock;
    assert Inside(l, v.blocks[0], p);
    forall q | q in v.carved
      ensures q + l.slot <= p || p + l.slot <= q
    {
      var i :| 0 <= i < |v.blocks| && Inside(l, v.blocks[i], q);
      assert i > 0 ==> Apart(v.blocks[0], v.blocks[i], l.block);
    }
  }

  lemma AllocateKeepsInv(l: Layout, s: Pool, v: View, region: nat)
    requires l.Ok() && Inv(l, s, v) && FreshBlock(l, v, region)
    ensures Inv(l, AllocateSlot(l, s, region).0, StepView(l, s, v, Allocate(region)))
    ensures AllocateSlot(l, s, region).1 !in v.live
    ensures AllocateSlot(l, s, region).1 in StepView(l, s, v, Allocate(region)).live
    ensures v.free != [] ==> AllocateSlot(l, s, region).1 == v.free[0]
    ensures v.free == [] && v.blocks != [] ==>
      (StepView(l, s, v, Allocate(region)).blocks == v.blocks <==> s.currentSlot + l.slot <= v.blocks[0] + l.block)
  {
    if v.free != [] {
      hide Rem, GoodBlock;
      assert Load(s, s.freeSlots) == s.mem[s.freeSlots];
    } else {
      var full := s.currentSlot >= s.lastSlot;
      if full {
        BlockKeepsInv(l, s, v, region);
      }
      hide Rem, GoodBlock, PadPointer;
      var s1 := if full then BlockAdded(l, s, region) else s;
      var v1 := if full then v.(blocks := [region] + v.blocks) else v;
      CarveKeepsInv(l, s1, v1);
    }
  }

  lemma DeallocateKeepsInv(l: Layout, s: Pool, v: View, p: nat)
    requires l.Ok() && Inv(l, s, v) && p in v.live
    ensures Inv(l, DeallocateSlot(s, p), StepView(l, s, v, Deallocate(p)))
  {
    SlotHoldsWord(l);
    WordOfSlot(l, v, p, 0);
    LinksFrame(s.mem, s.currentBlock, v.blocks, p, s.freeSlots);
    LinksPush(s.mem, s.freeSlots, v.free, p);
    hide Rem, GoodBlock, Links;
  }

  lemma WriteKeepsInv(l: Layout, s: Pool, v: View, p: nat, offset: nat, value: nat)
    requires l.Ok() && Inv(l, s, v) && p in v.live && offset + WORD <= l.slot
    ensures Inv(l, s.(mem := s.mem[p + offset := value]), v)
  {
    WordOfSlot(l, v, p, offset);
    LinksFrame(s.mem, s.currentBlock, v.blocks, p + offset, value);
    LinksFrame(s.mem, s.freeSlots, v.free, p + offset, value);
    hide Rem, GoodBlock, Links;
  }

  lemma StepKeepsInv(l: Layout, s: Pool, v: View, a: Action)
    requires l.Ok() && Inv(l, s, v) && Enabled(l, v, a)
    ensures Inv(l, Step(l, s, a), StepView(l, s, v, a))
  {
    hide Inv, FreshBlock;
    match a
    case Allocate(region) => AllocateKeepsInv(l, s, v, region);
    case Deallocate(p) => if p != 0 { DeallocateKeepsInv(l, s, v, p); }
    case Write(p, offset, value) => WriteKeepsInv(l, s, v, p, offset, value);
  }

  // ---------- Runs ----------

  function Run(l: Layout, s: Pool, v: View, acts: seq<Action>): (Pool, View)
    requires l.align > 0 && l.block >= l.slot
    decreases acts
  {
    if acts == [] then (s, v) else Run(l, Step(l, s, acts[0]), StepView(l, s, v, acts[0]), acts[1..])
  }

  ghost predicate Legal(l: Layout, s: Pool, v: View, acts: seq<Action>)
    requires l.align > 0 && l.block >= l.slot
    decreases acts
  {
    acts != [] ==> Enabled(l, v, acts[0]) && Legal(l, Step(l, s, acts[0]), StepView(l, s, v, acts[0]), acts[1..])
  }

  lemma {:induction false} RunKeepsInv(l: Layout, s: Pool, v: View, acts: seq<Action>)
    requires l.Ok() && Inv(l, s, v) && Legal(l, s, v, acts)
    ensures Inv(l, Run(l, s, v, acts).0, Run(l, s, v, acts).1)
    decreases acts
  {
    hide Inv, Step, StepView, Enabled;
    if acts != [] {
      StepKeepsInv(l, s, v, acts[0]);
      RunKeepsInv(l, Step(l, s, acts[0]), StepView(l, s, v, acts[0]), acts[1..]);
    }
  }

  /** After every run of allocations, deallocations of live slots and writes into
      live slots: the slots handed out are pairwise disjoint, aligned, and inside
      one block past its header; following the free list from `freeSlots_` visits
      finitely many slots, none twice and none handed out; nothing carved is lost. */
  lemma RunsAreSafe(l: Layout, acts: seq<Action>)
    requires l.Ok() && Legal(l, EMPTY, NOTHING, acts)
    ensures var (s, v) := Run(l, EMPTY, NOTHING, acts);
      && (forall p, q | p in v.live && q in v.live && p != q :: Apart(p, q, l.slot))
      && (forall p | p in v.live :: Placed(l, v, p))
      && (forall i, j | 0 <= i < j < |v.blocks| :: Apart(v.blocks[i], v.blocks[j], l.block))
      && Links(s.mem, s.freeSlots, v.free) && Links(s.mem, s.currentBlock, v.blocks)
      && (forall i, j | 0 <= i < j < |v.free| :: v.free[i] != v.free[j])
      && (forall i, p | 0 <= i < |v.free| && p in v.live :: v.free[i] != p && Apart(v.free[i], p, l.slot))
      && v.carved == v.live + (set i | 0 <= i < |v.free| :: v.free[i])
  {
    SlotHoldsWord(l);
    assert Inv(l, EMPTY, NOTHING);
    RunKeepsInv(l, EMPTY, NOTHING, acts);
    hide Rem, GoodBlock, Links, Run;
  }

  // ---------- The allocator object ----------

  class MemoryPoolLiteAllocator {
    const layout: Layout
    var currentBlock: nat
    var currentSlot: nat
    var lastSlot: nat
    var freeSlots: nat
    var mem: map<nat, nat>
    ghost var view: View

    ghost function State(): Pool
      reads this
    {
      Pool(currentBlock, currentSlot, lastSlot, freeSlots, mem)
    }

    ghost predicate Valid()
      reads this
    {
      layout.Ok() && layout.align > 0 && Inv(layout, State(), view)
    }

    constructor (layout: Layout)
      requires layout.Ok()
      ensures Valid() && this.layout == layout && State() == EMPTY && view == NOTHING
    {
      SlotHoldsWord(layout);
      this.layout := layout;
      currentBlock, currentSlot, lastSlot, freeSlots, mem := 0, 0, 0, 0, map[];
      view := NOTHING;
    }

    method AllocateBlock(newBlock: nat)
      requires layout.align > 0 && newBlock + layout.block >= layout.slot
      modifies this
      ensures State() == BlockAdded(layout, old(State()), newBlock) && view == old(view)
    {
      mem := mem[newBlock := currentBlock];
      currentBlock := newBlock;
      var body := newBlock + WORD;
      var bodyPadding := PadPointer(body, layout.align);
      currentSlot := body + bodyPadding;
      lastSlot := newBlock + layout.block - layout.slot + 1;
    }

    /** `newBlock` is what operator new returns when it is called. */
    method Allocate(newBlock: nat) returns (result: nat)
      requires Valid() && FreshBlock(layout, view, newBlock)
      modifies this
      ensures Valid() && view == StepView(layout, old(State()), old(view), Action.Allocate(newBlock))
      ensures (State(), result) == AllocateSlot(layout, old(State()), newBlock)
      ensures result !in old(view).live && result in view.live
    {
      AllocateKeepsInv(layout, State(), view, newBlock);
      ghost var view' := StepView(layout, State(), view, Action.Allocate(newBlock));
      hide Inv, FreshBlock, PadPointer;
      if freeSlots != 0 {
        result := freeSlots;
        freeSlots := if freeSlots in mem then mem[freeSlots] else 0;
      } else {
        if currentSlot >= lastSlot {
          AllocateBlock(newBlock);
        }
        result := currentSlot;
        currentSlot := currentSlot + layout.slot;
      }
      view := view';
    }

    method Deallocate(p: nat)
      requires Valid() && (p == 0 || p in view.live)
      modifies this
      ensures Valid() && view == StepView(layout, old(State()), old(view), Action.Deallocate(p))
      ensures State() == DeallocateSlot(old(State()), p)
    {
      StepKeepsInv(layout, State(), view, Action.Deallocate(p));
      ghost var view' := StepView(layout, State(), view, Action.Deallocate(p));
      hide Inv;
      if p != 0 {
        mem := mem[p := freeSlots];
        freeSlots := p;
      }
      view := view';
    }

    /** The destructor walks the block chain and deletes every block once. */
    method Destroy() returns (deleted: seq<nat>)
      requires Valid()
      ensures deleted == view.blocks
    {
      hide Rem, GoodBlock;
      ghost var blocks := view.blocks;
      var curr := currentBlock;
      deleted := [];
      assert blocks[0..] == blocks;
      while curr != 0
        invariant |deleted| <= |blocks| && deleted == blocks[..|deleted|]
        invariant Links(mem, curr, blocks[|deleted|..])
        decreases |blocks| - |deleted|
      {
        ghost var k := |deleted|;
        assert blocks[k..][1..] == blocks[k + 1..];
        var next := mem[curr];
        deleted := deleted + [curr];
        curr := next;
      }
      assert blocks[..|deleted|] == blocks;
    }
  }
}
