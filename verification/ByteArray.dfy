/** The chunked byte array: a linked chain of equal-sized memory blocks with a
    cursor, which refines one flat sequence of bytes. */
module ByteArrays {
  import opened Arith

  type byte = x: nat | x < 256

  // ---------- Flat sequences ----------

  /** Overwrite `flat` at position p with d. */
  function Splice(flat: seq<byte>, p: nat, d: seq<byte>): seq<byte>
    requires p + |d| <= |flat|
  {
    flat[..p] + d + flat[p + |d|..]
  }

  lemma SpliceTwice(flat: seq<byte>, p: nat, d: seq<byte>, e: seq<byte>)
    requires p + |d| + |e| <= |flat|
    ensures Splice(Splice(flat, p, d), p + |d|, e) == Splice(flat, p, d + e)
  {
  }

  lemma SpliceNext(flat: seq<byte>, p: nat, buf: seq<byte>, done: nat, n: nat)
    requires p + |buf| <= |flat| && done + n <= |buf|
    ensures Splice(Splice(flat, p, buf[..done]), p + done, buf[done..done + n]) == Splice(flat, p, buf[..done + n])
  {
    SpliceTwice(flat, p, buf[..done], buf[done..done + n]);
    assert buf[..done] + buf[done..done + n] == buf[..done + n];
  }

  lemma SpliceNothing(flat: seq<byte>, p: nat)
    requires p <= |flat|
    ensures Splice(flat, p, []) == flat
  {
  }

  /** The written bytes are read back and every other byte keeps its value. */
  lemma SpliceReadsBack(flat: seq<byte>, p: nat, d: seq<byte>)
    requires p + |d| <= |flat|
    ensures Splice(flat, p, d)[p..p + |d|] == d
    ensures |Splice(flat, p, d)| == |flat|
    ensures forall i | 0 <= i < |flat| && (i < p || i >= p + |d|) :: Splice(flat, p, d)[i] == flat[i]
  {
  }

  /** Chunk number k of a flat sequence of n chunks of b bytes. */
  function Chunk(flat: seq<byte>, b: nat, n: nat, k: nat): (c: seq<byte>)
    requires |flat| == Times(b, n) && k < n
    ensures |c| == b
  {
    TimesMonotone(b, k, n);
    flat[Times(b, k)..Times(b, k) + b]
  }

  lemma OneChunk(flat: seq<byte>, b: nat)
    requires |flat| == b
    ensures Times(b, 1) == b && Chunk(flat, b, 1, 0) == flat
  {
  }

  /** Writing inside chunk k of the chain is writing at b * k + o of the flat
      sequence: it changes that chunk and no other. */
  lemma SpliceInChunk(flat: seq<byte>, b: nat, n: nat, k: nat, o: nat, d: seq<byte>, j: nat)
    requires |flat| == Times(b, n) && k < n && j < n && o + |d| <= b
    ensures Times(b, k) + b <= |flat|
    ensures |Splice(flat, Times(b, k) + o, d)| == |flat|
    ensures Chunk(Splice(flat, Times(b, k) + o, d), b, n, j)
         == if j == k then Splice(Chunk(flat, b, n, k), o, d) else Chunk(flat, b, n, j)
  {
    TimesMonotone(b, k, n);
    TimesMonotone(b, j, n);
    TimesMonotone(b, j, k);
    TimesMonotone(b, k, j);
    hide Times, Splice;
    var p, q := Times(b, k) + o, Times(b, j);
    SpliceLength(flat, p, d);
    if j == k {
      SpliceInside(flat, q, b, o, d);
    } else {
      SpliceOutside(flat, p, d, q, b);
    }
  }

  lemma SpliceLength(flat: seq<byte>, p: nat, d: seq<byte>)
    requires p + |d| <= |flat|
    ensures |Splice(flat, p, d)| == |flat|
  {
  }

  lemma SpliceInside(flat: seq<byte>, q: nat, b: nat, o: nat, d: seq<byte>)
    requires o + |d| <= b && q + b <= |flat|
    ensures |Splice(flat, q + o, d)| == |flat|
    ensures Splice(flat, q + o, d)[q..q + b] == Splice(flat[q..q + b], o, d)
  {
  }

  lemma SpliceOutside(flat: seq<byte>, p: nat, d: seq<byte>, q: nat, b: nat)
    requires p + |d| <= |flat| && q + b <= |flat| && (p + |d| <= q || q + b <= p)
    ensures |Splice(flat, p, d)| == |flat| && Splice(flat, p, d)[q..q + b] == flat[q..q + b]
  {
    var s := Splice(flat, p, d);
    forall k | q <= k < q + b
      ensures s[k] == flat[k]
    {
      assert k >= p + |d| ==> s[k] == flat[p + |d|..][k - p - |d|];
    }
  }

  /** Reading inside chunk k is reading at b * k + o. */
  lemma SliceInChunk(flat: seq<byte>, b: nat, n: nat, k: nat, o: nat, m: nat)
    requires |flat| == Times(b, n) && k < n && o + m <= b
    ensures Times(b, k) + o + m <= |flat|
    ensures Chunk(flat, b, n, k)[o..o + m] == flat[Times(b, k) + o..Times(b, k) + o + m]
  {
    TimesMonotone(b, k, n);
    hide Times;
    var q := Times(b, k);
    SliceOfSlice(flat, q, b, o, m);
  }

  lemma SlicesJoin(s: seq<byte>, i: nat, j: nat, k: nat)
    requires i <= j <= k <= |s|
    ensures s[i..j] + s[j..k] == s[i..k]
  {
  }

  lemma SliceOfSlice(s: seq<byte>, q: nat, b: nat, o: nat, m: nat)
    requires q + b <= |s| && o + m <= b
    ensures s[q..q + b][o..o + m] == s[q + o..q + o + m]
  {
    var x, y := s[q..q + b][o..o + m], s[q + o..q + o + m];
    assert forall i | 0 <= i < m :: x[i] == y[i];
  }

  /** More chunks at the end leave the chunks so far alone. */
  lemma ChunkOfPrefix(flat: seq<byte>, more: seq<byte>, b: nat, n: nat, m: nat, k: nat)
    requires |flat| == Times(b, n) && |more| == Times(b, m) && k < n + m
    ensures |flat + more| == Times(b, n + m)
    ensures Chunk(flat + more, b, n + m, k) == if k < n then Chunk(flat, b, n, k) else Chunk(more, b, m, k - n)
  {
    TimesAdd(b, n, m);
    TimesMonotone(b, k, n + m);
    var q := Times(b, k);
    if k < n {
      TimesMonotone(b, k, n);
      hide Times;
      SliceOfSum(flat, more, q, b);
    } else {
      TimesAdd(b, n, k - n);
      TimesMonotone(b, k - n, m);
      hide Times;
      var p := Times(b, k - n);
      assert q == |flat| + p;
      SliceOfSum(flat, more, q, b);
    }
  }

  lemma SliceOfSum(x: seq<byte>, y: seq<byte>, q: nat, b: nat)
    requires q + b <= |x| + |y|
    ensures q + b <= |x| ==> (x + y)[q..q + b] == x[q..q + b]
    ensures |x| <= q ==> (x + y)[q..q + b] == y[q - |x|..q - |x| + b]
  {
  }

  // ---------- The chain ----------

  class Node {
    const ptr: array<byte>
    const size: nat
    var next: Node?

    constructor (s: nat)
      ensures size == s && ptr.Length == s && fresh(ptr) && next == null
    {
      ptr := new byte[s];
      size := s;
      next := null;
    }
  }

  datatype ReadResult = Bytes(data: seq<byte>) | OutOfRange | NullDereference

  class ByteArray {
    const baseSize: nat
    var position: nat
    var capacity: nat
    var size: nat
    var root: Node
    var cur: Node?
    ghost var nodes: seq<Node>            // the chain from root to its end
    ghost var arrays: set<array<byte>>    // the memory of those nodes
    ghost var flat: seq<byte>             // all bytes of the chain, used or not
    ghost var cell: nat                   // the number of the chunk under the cursor

    ghost function Following(i: int): Node?
      reads this`nodes
    {
      if -1 <= i < |nodes| - 1 then nodes[i + 1] else null
    }

    ghost predicate Chain()
      reads this`root, this`nodes, this`arrays, nodes
    {
      && nodes != [] && nodes[0] == root
      && (forall i {:trigger nodes[i].next} | 0 <= i < |nodes| :: nodes[i].next == Following(i))
      && (forall i | 0 <= i < |nodes| ::
            nodes[i].ptr.Length == nodes[i].size == baseSize && nodes[i].ptr in arrays)
      && (forall i, j | 0 <= i < j < |nodes| :: nodes[i] != nodes[j] && nodes[i].ptr != nodes[j].ptr)
    }

    ghost predicate Contents()
      reads this`nodes, this`arrays, this`flat, arrays
    {
      && |flat| == Times(baseSize, |nodes|)
      && (forall k | 0 <= k < |nodes| :: nodes[k].ptr in arrays && nodes[k].ptr[..] == Chunk(flat, baseSize, |nodes|, k))
    }

    ghost predicate Cursor()
      reads this
    {
      && baseSize > 0
      && Times(baseSize, cell) <= position < Times(baseSize, cell) + baseSize
      && cell <= |nodes|
      && cur == (if cell < |nodes| then nodes[cell] else null)
      && (cell == |nodes| ==> position == Times(baseSize, cell))
    }

    ghost predicate Valid()
      reads this, nodes, arrays
    {
      && Chain() && Contents() && Cursor()
      && position <= size <= capacity == |flat|
    }

    constructor (baseSize: nat)
      requires baseSize > 0
      ensures Valid() && position == 0 && size == 0 && capacity == baseSize && this.baseSize == baseSize
      ensures fresh(nodes) && fresh(arrays)
    {
      var first := new Node(baseSize);
      this.baseSize := baseSize;
      position, capacity, size := 0, baseSize, 0;
      root, cur := first, first;
      nodes, arrays, flat, cell := [first], {first.ptr}, first.ptr[..], 0;
    }

    /** std::memcpy into one chunk. */
    static method Memcpy(dst: array<byte>, at: nat, src: seq<byte>)
      requires at + |src| <= dst.Length
      modifies dst
      ensures dst[..] == Splice(old(dst[..]), at, src)
    {
      forall i | 0 <= i < |src| {
        dst[at + i] := src[i];
      }
    }

    /** Walk to the end of the chain. */
    method LastNode() returns (tmp: Node)
      requires Chain()
      ensures tmp == nodes[|nodes| - 1]
    {
      tmp := root;
      ghost var k := 0;
      while tmp.next != null
        invariant k < |nodes| && tmp == nodes[k]
        decreases |nodes| - k
      {
        tmp := tmp.next;
        k := k + 1;
      }
    }

    /** Hang a new node on the end of the chain. */
    method Append(tmp: Node) returns (node: Node)
      requires Chain() && Contents() && tmp == nodes[|nodes| - 1]
      modifies this`nodes, this`arrays, this`flat, tmp`next
      ensures Chain() && Contents() && fresh(node) && fresh(node.ptr)
      ensures nodes == old(nodes) + [node] && arrays == old(arrays) + {node.ptr} && old(flat) <= flat
    {
      hide Times, Chunk, Contents;
      node := new Node(baseSize);
      tmp.next := node;
      ghost var n := |nodes|;
      nodes, arrays := nodes + [node], arrays + {node.ptr};
      flat := flat + node.ptr[..];
      ContentsGrow(node);
    }

    twostate lemma ContentsGrow(new node: Node)
      requires old(Contents()) && node.ptr.Length == baseSize && node.ptr in arrays
      requires nodes == old(nodes) + [node] && old(arrays) <= arrays && flat == old(flat) + node.ptr[..]
      requires forall k | 0 <= k < |old(nodes)| :: unchanged(old(nodes)[k].ptr)
      ensures Contents()
    {
      hide Chunk, Splice;
      var n, more := |old(nodes)|, node.ptr[..];
      assert Times(baseSize, 1) == baseSize;
      hide Times;
      forall k | 0 <= k < n + 1
        ensures |flat| == Times(baseSize, n + 1)
        ensures nodes[k].ptr[..] == Chunk(flat, baseSize, n + 1, k)
      {
        ChunkOfPrefix(old(flat), more, baseSize, n, 1, k);
        if k < n {
          assert old(nodes)[k].ptr[..] == old(nodes[k].ptr[..]);
        } else {
          OneChunk(more, baseSize);
        }
      }
    }

    /** The loop of addCapacity: `count` new chunks, the first of which is returned. */
    method Grow(count: nat) returns (first: Node?)
      requires Chain() && Contents()
      modifies this`capacity, this`nodes, this`arrays, this`flat, nodes`next
      ensures Chain() && Contents() && |nodes| == |old(nodes)| + count && old(nodes) <= nodes && old(flat) <= flat
      ensures capacity == old(capacity) + Times(baseSize, count)
      ensures (forall j | |old(nodes)| <= j < |nodes| :: fresh(nodes[j])) && (forall a | a in arrays :: a in old(arrays) || fresh(a))
      ensures first == if count == 0 then null else nodes[|old(nodes)|]
    {
      hide Contents, Chunk, Following;
      assert nodes != [] && Times(baseSize, 0) == 0;
      hide Chain, Times;
      var tmp := LastNode();
      ghost var n := |nodes|;
      first := null;
      for i := 0 to count
        invariant Chain() && Contents() && |nodes| == n + i && n > 0 && old(nodes) <= nodes && old(flat) <= flat
        invariant tmp == nodes[|nodes| - 1] && (i > 0 ==> fresh(tmp))
        invariant capacity == old(capacity) + Times(baseSize, i)
        invariant (forall j | n <= j < |nodes| :: fresh(nodes[j])) && (forall a | a in arrays :: a in old(arrays) || fresh(a))
        invariant first == if i == 0 then null else nodes[n]
      {
        TimesSucc(baseSize, i);
        tmp := Append(tmp);
        if first == null {
          first := tmp;
        }
        capacity := capacity + baseSize;
      }
    }

    /** Room for `want` bytes after the cursor: new chunks at the end of the
        chain, and under the cursor when it stood at the end. */
    method AddCapacity(want: nat)
      requires Valid()
      modifies this`capacity, this`cur, this`nodes, this`arrays, this`flat, nodes`next
      ensures Valid() && old(nodes) <= nodes && old(flat) <= flat
      ensures (forall j | |old(nodes)| <= j < |nodes| :: fresh(nodes[j])) && (forall a | a in arrays :: a in old(arrays) || fresh(a))
      ensures capacity == old(capacity) + Times(baseSize, |nodes| - |old(nodes)|) && want <= capacity - position
      ensures nodes == old(nodes) || capacity - baseSize < position + want
    {
      assert Times(baseSize, 0) == 0 && capacity == Times(baseSize, |nodes|) && nodes != [];
      hide Ceil, Times, Chain, Contents, Chunk, Following;
      if want == 0 {
        return;
      }
      var oldCap := capacity - position;
      if oldCap >= want {
        return;
      }
      ghost var n := |nodes|;
      var count := Ceil(want - oldCap, baseSize);
      CeilIsLeast(want - oldCap, baseSize);
      TimesMonotone(baseSize, cell, n);
      TimesAdd(baseSize, n, count);
      TimesSucc(baseSize, if count > 0 then count - 1 else 0);
      var first := Grow(count);
      if oldCap == 0 {
        cur := first;
      }
      FlatLength();
      assert Cursor();
    }

    lemma FlatLength()
      requires Contents()
      ensures |flat| == Times(baseSize, |nodes|)
    {
    }

    /** memcpy into the current chunk, seen from the flat sequence. */
    method CopyIn(at: nat, piece: seq<byte>)
      requires Chain() && Contents() && cell < |nodes| && cur == nodes[cell] && at + |piece| <= baseSize
      modifies this`flat, cur.ptr
      ensures Chain() && Contents()
      ensures Times(baseSize, cell) + at + |piece| <= |old(flat)|
      ensures flat == Splice(old(flat), Times(baseSize, cell) + at, piece)
    {
      hide Times, Chunk, Splice, Following;
      ghost var n, was := |nodes|, flat;
      Memcpy(cur.ptr, at, piece);
      SpliceInChunk(was, baseSize, n, cell, at, piece, cell);
      flat := Splice(was, Times(baseSize, cell) + at, piece);
      forall k | 0 <= k < n
        ensures nodes[k].ptr[..] == Chunk(flat, baseSize, n, k)
      {
        SpliceInChunk(was, baseSize, n, cell, at, piece, k);
      }
    }

    /** memcpy out of the current chunk. */
    method CopyOut(at: nat, n: nat) returns (piece: seq<byte>)
      requires Chain() && Contents() && cell < |nodes| && cur == nodes[cell] && at + n <= baseSize
      ensures Times(baseSize, cell) + at + n <= |flat|
      ensures piece == flat[Times(baseSize, cell) + at..Times(baseSize, cell) + at + n]
    {
      SliceInChunk(flat, baseSize, |nodes|, cell, at, n);
      piece := cur.ptr[at..at + n];
      assert piece == cur.ptr[..][at..at + n];
    }

    /** `m_cur` is chunk number position / baseSize, null exactly when the
        position has reached the capacity. */
    lemma CursorIsQuotient()
      requires Valid()
      ensures position / baseSize == cell && position % baseSize == position - Times(baseSize, cell)
      ensures cur == (if position < capacity then nodes[position / baseSize] else null)
      ensures capacity == baseSize * |nodes|
    {
      DivModUnique(baseSize, cell, position - Times(baseSize, cell));
      TimesMonotone(baseSize, cell, |nodes|);
    }

    /** Move the cursor n bytes on inside its chunk, to the next chunk when it is full. */
    method Advance(npos: nat, n: nat)
      requires Chain() && Cursor() && cell < |nodes|
      requires position == Times(baseSize, cell) + npos && npos + n <= baseSize
      modifies this`position, this`cur, this`cell
      ensures Cursor() && position == old(position) + n
      ensures cell == if npos + n == baseSize then old(cell) + 1 else old(cell)
      ensures npos + n == baseSize ==> position == Times(baseSize, cell)
    {
      TimesSucc(baseSize, cell);
      hide Times;
      if cur.size == npos + n {
        cur := cur.next;
        cell := cell + 1;
      }
      position := position + n;
    }

    method Write(buf: seq<byte>)
      requires Valid()
      modifies this, nodes, arrays
      ensures Valid() && old(nodes) <= nodes
      ensures (forall j | |old(nodes)| <= j < |nodes| :: fresh(nodes[j])) && (forall a | a in arrays :: a in old(arrays) || fresh(a))
      ensures capacity == old(capacity) + Times(baseSize, |nodes| - |old(nodes)|)
      ensures old(position) + |buf| <= capacity
      ensures nodes == old(nodes) || capacity - baseSize < old(position) + |buf|
      ensures position == old(position) + |buf|
      ensures size == if position > old(size) then position else old(size)
      ensures old(capacity) <= capacity == |flat|
      ensures flat[old(position)..position] == buf
      ensures forall i | 0 <= i < old(capacity) && !(old(position) <= i < position) :: flat[i] == old(flat)[i]
    {
      assert Times(baseSize, 0) == 0;
      hide Times, Ceil, Chain, Contents, Splice, Cursor, Chunk;
      if |buf| == 0 {
        return;
      }
      AddCapacity(|buf|);
      ghost var was, start := flat, position;
      WriteLoop(buf);
      SpliceReadsBack(was, start, buf);
      if position > size {
        size := position;
      }
    }

    /** The loop of write, once there is room. */
    method WriteLoop(buf: seq<byte>)
      requires Valid() && 0 < |buf| && position + |buf| <= capacity
      modifies this`position, this`cur, this`cell, this`flat, arrays
      ensures Chain() && Contents() && Cursor() && position == old(position) + |buf|
      ensures old(position) + |buf| <= |old(flat)| && flat == Splice(old(flat), old(position), buf)
    {
      hide Times, Splice, Chunk, Following;
      ghost var was, start := flat, position;
      SpliceNothing(was, start);
      CursorIsQuotient();
      var npos := position % baseSize;
      var ncap := cur.size - npos;
      var bpos, left := 0, |buf|;
      hide Chain, Contents;
      assert buf[..bpos] == [];
      while left > 0
        invariant Chain() && Contents() && Cursor()
        invariant 0 <= bpos && 0 <= left && bpos + left == |buf| && position == start + bpos
        invariant left > 0 ==> cell < |nodes| && position == Times(baseSize, cell) + npos && npos + ncap == baseSize
        invariant flat == Splice(was, start, buf[..bpos])
      {
        var n := if ncap >= left then left else ncap;
        CopyIn(npos, buf[bpos..bpos + n]);
        SpliceNext(was, start, buf, bpos, n);
        Advance(npos, n);
        bpos := bpos + n;
        left := left - n;
        if left > 0 {
          ncap := cur.size;
          npos := 0;
        }
      }
      assert buf[..bpos] == buf;
    }

    /** Reading n bytes: an error beyond the written size; the null cursor is
        dereferenced when nothing is asked for at full capacity. */
    method Read(n: nat) returns (r: ReadResult)
      requires Valid()
      modifies this`position, this`cur, this`cell
      ensures Valid()
      ensures r == if n > size - old(position) then OutOfRange
                   else if old(position) == capacity then NullDereference
                   else Bytes(flat[old(position)..old(position) + n])
      ensures position == old(position) + (if r.Bytes? then n else 0)
      ensures r.NullDereference? <==> n == 0 && old(position) == size == capacity
    {
      if n > size - position {
        return OutOfRange;
      }
      CursorIsQuotient();
      if cur == null {
        return NullDereference;
      }
      var data := ReadLoop(n);
      r := Bytes(data);
    }

    /** The loop of read. */
    method ReadLoop(n: nat) returns (data: seq<byte>)
      requires Valid() && cell < |nodes| && position + n <= |flat|
      modifies this`position, this`cur, this`cell
      ensures Cursor() && position == old(position) + n
      ensures data == flat[old(position)..position]
    {
      hide Times, Chunk, Following;
      ghost var start := position;
      CursorIsQuotient();
      var npos := position % baseSize;
      var ncap := cur.size - npos;
      var left := n;
      data := [];
      hide Chain, Contents;
      while left > 0
        invariant Chain() && Contents() && Cursor()
        invariant 0 <= left <= n && position == start + n - left
        invariant left > 0 ==> cell < |nodes| && position == Times(baseSize, cell) + npos && npos + ncap == baseSize
        invariant data == flat[start..position]
      {
        var m := if ncap >= left then left else ncap;
        var piece := CopyOut(npos, m);
        SlicesJoin(flat, start, position, position + m);
        data := data + piece;
        Advance(npos, m);
        left := left - m;
        if left > 0 {
          ncap := cur.size;
          npos := 0;
        }
      }
    }

    /** The chunk of position v, by walking the chain. */
    method Seek(v: nat) returns (c: Node?, ghost k: nat)
      requires Chain() && baseSize > 0 && v <= Times(baseSize, |nodes|)
      ensures k <= |nodes| && Times(baseSize, k) <= v < Times(baseSize, k) + baseSize
      ensures c == (if k < |nodes| then nodes[k] else null)
      ensures k == |nodes| ==> v == Times(baseSize, k)
    {
      assert Times(baseSize, 0) == 0;
      hide Times;
      c, k := root, 0;
      var left := v;
      while left >= baseSize
        invariant k <= |nodes| && c == (if k < |nodes| then nodes[k] else null)
        invariant 0 <= left && v == Times(baseSize, k) + left
        decreases left
      {
        TimesSucc(baseSize, k);
        TimesMonotone(baseSize, |nodes|, k);
        assert k < |nodes| && c.next == Following(k);
        c := c.next;
        k := k + 1;
        left := left - baseSize;
      }
    }

    /** What setPosition promises: the cursor stands at v, on the chunk of v, and
        the size grows to v. Its body is not part of the repository. */
    method SetPosition(v: nat)
      requires Valid() && v <= capacity
      modifies this`position, this`cur, this`cell, this`size
      ensures Valid() && position == v
      ensures size == if v > old(size) then v else old(size)
    {
      hide Times;
      assert nodes != [];
      hide Chain;
      var c, k := Seek(v);
      cur, cell, position := c, k, v;
      if position > size {
        size := position;
      }
    }

    /** Data written and read back from the same position comes back unchanged,
        however it was split over chunks. */
    method WriteThenRead(buf: seq<byte>) returns (r: ReadResult)
      requires Valid()
      modifies this, nodes, arrays
      ensures Valid()
      ensures r == if buf == [] && old(position == capacity) then NullDereference else Bytes(buf)
      ensures position == old(position) + |buf|
      ensures old(capacity) <= |flat| && old(capacity) == |old(flat)|
      ensures forall i | 0 <= i < old(capacity) && !(old(position) <= i < position) :: flat[i] == old(flat)[i]
    {
      assert Times(baseSize, 0) == 0 && Times(baseSize, 1) == baseSize;
      hide Times, Ceil, Chain, Contents, Cursor, Chunk, Splice, Following;
      var start := position;
      Write(buf);
      TimesMonotone(baseSize, 1, |nodes| - |old(nodes)|);
      assert position <= size && position <= capacity;
      SetPosition(start);
      r := Read(|buf|);
    }
  }
}
