/** The bump-pointer memory pool: requests are cut from the front of the current
    remainder, and a new block is obtained when it is too small. */
module BumpPool {
  const DEFAULT_BLOCK_SIZE: nat := 64 * 1024
  const POINTER_SIZE: nat := 8

  /** `memory` starts at the size of the pool object itself. */
  datatype Pool = Pool(blocks: seq<nat>, ptr: nat, left: nat, memory: nat)

  datatype Region = Region(start: nat, size: nat) {
    function End(): nat {
      start + size
    }
  }

  /** The blocks with their sizes, and every region handed out, in order. */
  datatype View = View(blocks: seq<Region>, regions: seq<Region>)

  /** A request, and the address that operator new[] returns if it is called. */
  datatype Request = Request(size: nat, address: nat)

  function Initial(base: nat): Pool {
    Pool([], 0, 0, base)
  }

  function BlockSize(size: nat): nat {
    if size > DEFAULT_BLOCK_SIZE then size else DEFAULT_BLOCK_SIZE
  }

  function WithBlock(s: Pool, size: nat, address: nat): Pool {
    var total := BlockSize(size);
    var s' := s.(blocks := s.blocks + [address], memory := s.memory + total);
    if total > size then s'.(ptr := address + size, left := total - size) else s'
  }

  /** Whether a request is served from the current remainder. */
  predicate Fits(s: Pool, size: nat) {
    s.left >= size && s.ptr != 0
  }

  function Cut(s: Pool, r: Request): (Pool, nat) {
    if Fits(s, r.size) then (s.(left := s.left - r.size, ptr := s.ptr + r.size), s.ptr)
    else if s.left >= r.size then (WithBlock(s.(left := s.left - r.size), 0, r.address), r.address)
    else (WithBlock(s, r.size, r.address), r.address)
  }

  function NewView(s: Pool, v: View, r: Request): View {
    var size := if Fits(s, r.size) || s.left < r.size then r.size else 0;
    View(if Fits(s, r.size) then v.blocks else v.blocks + [Region(r.address, BlockSize(size))],
         v.regions + [Region(Cut(s, r).1, r.size)])
  }

  // ---------- The invariant ----------

  ghost predicate Apart(a: Region, b: Region) {
    a.End() <= b.start || b.End() <= a.start
  }

  ghost predicate Within(a: Region, b: Region) {
    b.start <= a.start && a.End() <= b.End()
  }

  ghost predicate AllApart(rs: seq<Region>) {
    forall i, j | 0 <= i < j < |rs| :: Apart(rs[i], rs[j])
  }

  ghost predicate InSomeBlock(v: View, a: Region) {
    exists i :: 0 <= i < |v.blocks| && Within(a, v.blocks[i])
  }

  /** The remainder is the unused end of one block, or there is none yet. */
  ghost predicate Remainder(s: Pool, v: View) {
    if s.ptr == 0 then s.left == 0
    else
      && (exists i :: 0 <= i < |v.blocks| && v.blocks[i].start <= s.ptr && s.ptr + s.left == v.blocks[i].End())
      && (forall i | 0 <= i < |v.regions| :: Apart(v.regions[i], Region(s.ptr, s.left)))
  }

  function Sum(rs: seq<Region>): nat {
    if rs == [] then 0 else Sum(rs[..|rs| - 1]) + rs[|rs| - 1].size
  }

  ghost predicate Inv(base: nat, s: Pool, v: View) {
    && |s.blocks| == |v.blocks|
    && (forall i | 0 <= i < |v.blocks| :: s.blocks[i] == v.blocks[i].start > 0 && v.blocks[i].size >= DEFAULT_BLOCK_SIZE)
    && AllApart(v.blocks)
    && AllApart(v.regions)
    && (forall i | 0 <= i < |v.regions| :: InSomeBlock(v, v.regions[i]))
    && Remainder(s, v)
    && s.memory == base + Sum(v.blocks)
  }

  /** operator new[] returns memory apart from all blocks so far. */
  ghost predicate Fresh(v: View, r: Request) {
    r.address > 0 && forall i | 0 <= i < |v.blocks| :: Apart(v.blocks[i], Region(r.address, BlockSize(r.size)))
  }

  // ---------- Steps and runs ----------

  lemma CutKeepsInv(base: nat, s: Pool, v: View, r: Request)
    requires Inv(base, s, v) && Fits(s, r.size)
    ensures Inv(base, Cut(s, r).0, NewView(s, v, r))
  {
    var s', v' := Cut(s, r).0, NewView(s, v, r);
    var cut := Region(s.ptr, r.size);
    var i :| 0 <= i < |v.blocks| && v.blocks[i].start <= s.ptr && s.ptr + s.left == v.blocks[i].End();
    assert Within(cut, v'.blocks[i]);
    forall k | 0 <= k < |v'.regions|
      ensures InSomeBlock(v', v'.regions[k])
      ensures Apart(v'.regions[k], Region(s'.ptr, s'.left))
      ensures k < |v.regions| ==> Apart(v'.regions[k], cut)
    {
      if k < |v.regions| {
        assert InSomeBlock(v, v.regions[k]) && Apart(v.regions[k], Region(s.ptr, s.left));
      }
    }
  }

  /** A new block, and a region inside it. */
  lemma BlockAddsRegion(v: View, block: Region, region: Region)
    requires AllApart(v.blocks) && AllApart(v.regions)
    requires forall i | 0 <= i < |v.regions| :: InSomeBlock(v, v.regions[i])
    requires forall i | 0 <= i < |v.blocks| :: Apart(v.blocks[i], block)
    requires Within(region, block)
    ensures var v' := View(v.blocks + [block], v.regions + [region]);
      && AllApart(v'.blocks) && AllApart(v'.regions)
      && (forall i | 0 <= i < |v'.regions| :: InSomeBlock(v', v'.regions[i]))
      && (forall i | 0 <= i < |v.regions| :: Apart(v.regions[i], block))
  {
    var v' := View(v.blocks + [block], v.regions + [region]);
    assert Within(region, v'.blocks[|v.blocks|]);
    forall k | 0 <= k < |v.regions|
      ensures InSomeBlock(v', v.regions[k])
      ensures Apart(v.regions[k], block)
      ensures Apart(v.regions[k], region)
    {
      assert InSomeBlock(v, v.regions[k]);
      var i :| 0 <= i < |v.blocks| && Within(v.regions[k], v.blocks[i]);
      assert v'.blocks[i] == v.blocks[i] && Apart(v.blocks[i], block);
    }
  }

  lemma BlockKeepsInv(base: nat, s: Pool, v: View, r: Request)
    requires Inv(base, s, v) && !Fits(s, r.size) && Fresh(v, r)
    ensures Inv(base, Cut(s, r).0, NewView(s, v, r))
  {
    var s', v' := Cut(s, r).0, NewView(s, v, r);
    var block, region := Region(r.address, BlockSize(r.size)), Region(r.address, r.size);
    assert s.left >= r.size ==> s.ptr == 0 && r.size == 0;
    BlockAddsRegion(v, block, region);
    hide InSomeBlock, AllApart, Sum, Apart, Within, Remainder, Fresh;
    BlockRemainder(s, v, r);
    SumAppends(v.blocks, block);
    assert v' == View(v.blocks + [block], v.regions + [region]);
    assert s'.blocks == s.blocks + [r.address] && s'.memory == s.memory + block.size;
  }

  lemma SumAppends(rs: seq<Region>, r: Region)
    ensures Sum(rs + [r]) == Sum(rs) + r.size
  {
    assert (rs + [r])[..|rs|] == rs;
  }

  lemma BlockRemainder(s: Pool, v: View, r: Request)
    requires Remainder(s, v) && !Fits(s, r.size) && Fresh(v, r)
    requires forall i | 0 <= i < |v.regions| :: Apart(v.regions[i], Region(r.address, BlockSize(r.size)))
    ensures Remainder(Cut(s, r).0, NewView(s, v, r))
  {
    var s', v' := Cut(s, r).0, NewView(s, v, r);
    if r.size >= DEFAULT_BLOCK_SIZE {
      if s.ptr != 0 {
        KeepsRemainder(s, v, r);
        var i :| 0 <= i < |v.blocks| && v.blocks[i].start <= s.ptr && s.ptr + s.left == v.blocks[i].End();
        assert v'.blocks[i] == v.blocks[i];
      }
    } else {
      assert v'.blocks[|v.blocks|] == Region(r.address, BlockSize(r.size));
      forall i | 0 <= i < |v'.regions|
        ensures Apart(v'.regions[i], Region(s'.ptr, s'.left))
      {
        assert i < |v.regions| ==> Apart(v.regions[i], Region(r.address, BlockSize(r.size)));
      }
    }
  }

  /** An oversized block leaves the old remainder current, and apart from it. */
  lemma KeepsRemainder(s: Pool, v: View, r: Request)
    requires Remainder(s, v) && s.ptr != 0 && Fresh(v, r)
    ensures Apart(Region(r.address, r.size), Region(s.ptr, s.left))
  {
    var i :| 0 <= i < |v.blocks| && v.blocks[i].start <= s.ptr && s.ptr + s.left == v.blocks[i].End();
    assert Apart(v.blocks[i], Region(r.address, BlockSize(r.size)));
  }

  lemma NewKeepsInv(base: nat, s: Pool, v: View, r: Request)
    requires Inv(base, s, v) && Fresh(v, r)
    ensures Inv(base, Cut(s, r).0, NewView(s, v, r))
    ensures r.size >= DEFAULT_BLOCK_SIZE && s.left < r.size ==> Cut(s, r).0.ptr == s.ptr && Cut(s, r).0.left == s.left
  {
    if Fits(s, r.size) {
      CutKeepsInv(base, s, v, r);
    } else {
      BlockKeepsInv(base, s, v, r);
    }
  }

  /** A request that fits is cut from the front of the remainder; any other gets a
      block of its size, or of 65536 bytes if that is more, and only a block that is
      larger than the request leaves a new remainder. */
  ghost predicate Served(s: Pool, v: View, r: Request, s': Pool, v': View, p: nat) {
    if s.left >= r.size && s.ptr != 0 then
      && p == s.ptr
      && s' == Pool(s.blocks, s.ptr + r.size, s.left - r.size, s.memory)
      && v' == View(v.blocks, v.regions + [Region(p, r.size)])
    else
      var size := if r.size > 65536 then r.size else 65536;
      && p == r.address
      && s'.blocks == s.blocks + [p] && s'.memory == s.memory + size
      && (s'.ptr, s'.left) == (if r.size < 65536 then (p + r.size, 65536 - r.size) else (s.ptr, s.left))
      && v' == View(v.blocks + [Region(p, size)], v.regions + [Region(p, r.size)])
  }

  lemma ServedExactly(base: nat, s: Pool, v: View, r: Request, s': Pool, v': View, p: nat)
    requires Inv(base, s, v)
    ensures Served(s, v, r, s', v', p) <==> (s', p) == Cut(s, r) && v' == NewView(s, v, r)
  {
    assert Remainder(s, v);
    hide Inv, Remainder;
  }

  function Run(s: Pool, v: View, rs: seq<Request>): (Pool, View)
    decreases rs
  {
    if rs == [] then (s, v) else Run(Cut(s, rs[0]).0, NewView(s, v, rs[0]), rs[1..])
  }

  ghost predicate Legal(s: Pool, v: View, rs: seq<Request>)
    decreases rs
  {
    rs != [] ==> Fresh(v, rs[0]) && Legal(Cut(s, rs[0]).0, NewView(s, v, rs[0]), rs[1..])
  }

  lemma {:induction false} RunKeepsInv(base: nat, s: Pool, v: View, rs: seq<Request>)
    requires Inv(base, s, v) && Legal(s, v, rs)
    ensures var (s', v') := Run(s, v, rs);
      && Inv(base, s', v')
      && |v'.regions| == |v.regions| + |rs|
      && (forall i | 0 <= i < |rs| :: v'.regions[|v.regions| + i].size == rs[i].size)
      && v.regions <= v'.regions && v.blocks <= v'.blocks
    decreases rs
  {
    if rs != [] {
      var v1 := NewView(s, v, rs[0]);
      NewKeepsInv(base, s, v, rs[0]);
      hide Inv, Fresh, Cut;
      RunKeepsInv(base, Cut(s, rs[0]).0, v1, rs[1..]);
      var v' := Run(s, v, rs).1;
      assert v'.regions[|v.regions|] == v1.regions[|v.regions|];
      forall i | 0 <= i < |rs|
        ensures v'.regions[|v.regions| + i].size == rs[i].size
      {
        if i > 0 {
          assert v'.regions[|v1.regions| + (i - 1)].size == rs[1..][i - 1].size;
        }
      }
    }
  }

  /** Whatever sizes are requested, every region ever returned has the size asked
      for, lies in one block and overlaps no other region; and the accounting is
      the size of the pool object plus the sizes of all blocks. */
  lemma RegionsNeverOverlap(base: nat, rs: seq<Request>)
    requires Legal(Initial(base), View([], []), rs)
    ensures var (s, v) := Run(Initial(base), View([], []), rs);
      && |v.regions| == |rs|
      && (forall i | 0 <= i < |rs| :: v.regions[i].size == rs[i].size && InSomeBlock(v, v.regions[i]))
      && AllApart(v.regions) && AllApart(v.blocks)
      && |s.blocks| == |v.blocks| && s.memory == base + Sum(v.blocks)
  {
    RunKeepsInv(base, Initial(base), View([], []), rs);
    hide Run, Legal;
    var v := Run(Initial(base), View([], []), rs).1;
    assert forall i | 0 <= i < |rs| :: v.regions[0 + i].size == rs[i].size;
  }

  // ---------- The pool object ----------

  class MemoryPoolLiteImpl {
    var blocks: seq<nat>
    var ptr: nat
    var left: nat
    var memory: nat
    ghost const base: nat
    ghost var view: View

    ghost function State(): Pool
      reads this
    {
      Pool(blocks, ptr, left, memory)
    }

    ghost predicate Valid()
      reads this
    {
      Inv(base, State(), view)
    }

    constructor (size: nat)
      ensures Valid() && base == size && State() == Initial(size) && view == View([], [])
    {
      blocks, ptr, left, memory := [], 0, 0, size;
      base := size;
      view := View([], []);
    }

    method NewBlock(blockSize: nat, address: nat) returns (block: nat)
      modifies this`blocks, this`ptr, this`left, this`memory
      ensures State() == WithBlock(old(State()), blockSize, address) && block == address
    {
      var allocateSize := if blockSize > DEFAULT_BLOCK_SIZE then blockSize else DEFAULT_BLOCK_SIZE;
      block := address;
      blocks := blocks + [block];
      memory := memory + allocateSize;
      if allocateSize > blockSize {
        ptr := block + blockSize;
        left := allocateSize - blockSize;
      }
    }

    method New(size: nat, address: nat) returns (p: nat)
      requires Valid() && Fresh(view, Request(size, address))
      modifies this
      ensures Valid() && Served(old(State()), old(view), Request(size, address), State(), view, p)
      ensures (State(), p) == Cut(old(State()), Request(size, address))
    {
      assert left >= size && ptr == 0 ==> left == 0;
      hide Inv, Fresh, Served, NewView;
      ghost var r, s, v := Request(size, address), State(), view;
      NewKeepsInv(base, s, v, r);
      if left >= size {
        left := left - size;
        if ptr == 0 {
          p := NewBlock(0, address);
        } else {
          p := ptr;
          ptr := ptr + size;
        }
      } else {
        p := NewBlock(size, address);
      }
      view := NewView(s, v, r);
      ServedExactly(base, s, v, r, State(), view, p);
    }

    method PoolUsage() returns (usage: nat)
      requires Valid()
      ensures usage == base + Sum(view.blocks) + POINTER_SIZE * |view.blocks|
    {
      usage := memory + |blocks| * POINTER_SIZE;
    }
  }
}
