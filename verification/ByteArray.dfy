/** ByteArray: a chunk list with a cursor, refining a flat buffer. */
module ByteArrays {
  import opened Bytes
  import opened FlatBuffer
  import opened ChunkLists

  class ByteArray {
    const list: ChunkList
    var curr: Node?
    var position: nat
    var capacity: nat
    var size: nat

    ghost var at: nat    // the cursor as chunk number ...
    ghost var off: nat   // ... and offset in that chunk

    /** `position` and `curr` agree. */
    ghost predicate Cursor()
      reads this, list, list.Repr
    {
      && list.Valid()
      && this !in list.Repr
      && list.baseSize >= 1
      && capacity == Start(|list.nodes|, list.baseSize)
      && at <= |list.nodes|
      && curr == list.NodeAt(at)
      && (if at < |list.nodes| then off < list.baseSize else off == 0)
      && position == Start(at, list.baseSize) + off
      && position <= capacity
    }

    ghost predicate Valid()
      reads this, list, list.Repr
    {
      Cursor() && position <= size <= capacity
    }

    /** What the buffer holds, and what of it is still to be read. */
    ghost function Contents(): (s: seq<byte>)
      requires Valid()
      reads this, list, list.Repr
      ensures |s| == size
    {
      list.Mem()[..size]
    }

    ghost function Readable(): (s: seq<byte>)
      requires Valid()
      reads this, list, list.Repr
      ensures |s| == size - position
      ensures s == Contents()[position..]
    {
      list.Mem()[position..size]
    }

    lemma CurrentChunk()
      requires Cursor()
      ensures position == capacity <==> at == |list.nodes|
      ensures at < |list.nodes| ==>
                && curr == list.nodes[at]
                && curr.data.Length == list.baseSize
                && Start(at, list.baseSize) + list.baseSize <= capacity
    {
      if at < |list.nodes| {
        list.ChunkFacts(at);
        StartMonotone(at, |list.nodes|, list.baseSize);
      }
    }

    /** capacity = nodes * base; curr is chunk number position / base, null exactly at full capacity. */
    lemma CursorLaw()
      requires Valid()
      ensures capacity == |list.nodes| * list.baseSize
      ensures curr == null <==> position == capacity
      ensures curr != null ==> at < |list.nodes| && curr == list.nodes[at]
      ensures curr != null ==> at == position / list.baseSize && off == position % list.baseSize
    {
      CurrentChunk();
      StartIsProduct(|list.nodes|, list.baseSize);
      if at < |list.nodes| {
        StartDivMod(at, off, list.baseSize);
      }
    }

    constructor (n: nat)
      requires n >= 1
      ensures Valid() && fresh(list.Repr)
      ensures Contents() == [] && position == 0 && list.baseSize == n && capacity == n
    {
      list := new ChunkList(n);
      position := 0;
      capacity := n;
      size := 0;
      at, off := 0, 0;
      new;
      curr := list.head;
    }

    /** position % base_size_: the offset in the current chunk. */
    method Offset() returns (npos: nat)
      requires Cursor() && at < |list.nodes|
      ensures npos == off
    {
      npos := position % list.baseSize;
      StartDivMod(at, off, list.baseSize);
    }

    /** Make room for `need` bytes from the cursor on, in whole chunks and no more than needed. */
    method AddCapacity(need: nat)
      requires Valid()
      modifies this, list.Repr
      ensures Valid() && fresh(list.Repr - old(list.Repr))
      ensures position == old(position) && size == old(size)
      ensures Extends(list.Mem(), old(list.Mem()))
      ensures capacity - position >= need
      ensures old(capacity - position) >= need ==> capacity == old(capacity)
      ensures capacity == old(capacity) || capacity - position < need + list.baseSize
    {
      var oldCapacity := capacity - position;
      if need <= 0 || oldCapacity >= need {
        return;
      }
      Enlarge(need - oldCapacity);
    }

    /** Link as many chunks as `extra` more bytes need; a cursor at the very end moves to the first of them. */
    method Enlarge(extra: nat)
      requires Valid() && extra > 0
      modifies this, list.Repr
      ensures Valid() && fresh(list.Repr - old(list.Repr))
      ensures position == old(position) && size == old(size)
      ensures Extends(list.Mem(), old(list.Mem()))
      ensures old(capacity) + extra <= capacity < old(capacity) + extra + list.baseSize
    {
      hide Flatten, ChunkList.Valid;
      CurrentChunk();
      var count, bytes := ChunksFor(extra, list.baseSize, |list.nodes|);
      var first := list.Grow(count);
      if capacity == position {
        curr := first;
      }
      capacity := capacity + bytes;
    }

    /** Move within the current chunk, or on to the next chunk when this one is used up. */
    method Advance(npos: nat, n: nat)
      requires Cursor() && at < |list.nodes|
      requires npos == off && off + n <= list.baseSize
      modifies this`curr, this`position, this`at, this`off
      ensures Cursor() && position == old(position) + n
      ensures npos + n == list.baseSize ==> off == 0
    {
      CurrentChunk();
      list.ChunkFacts(at);
      if curr.data.Length == npos + n {
        curr := curr.next;
        at, off := at + 1, 0;
      } else {
        off := off + n;
      }
      position := position + n;
    }

    /** The first n bytes of buf are in place from address `start` on; nothing else of m changed. */
    ghost predicate Placed(m: seq<byte>, start: nat, buf: seq<byte>, n: int)
      requires list.Valid()
      reads this, list, list.Repr
    {
      0 <= n <= |buf| && Patched(list.Mem(), m, start, buf[..n])
    }

    /** memcpy the next n bytes of buf into the current chunk at the cursor, then advance. */
    method PutHere(npos: nat, buf: seq<byte>, bpos: nat, n: nat, ghost m: seq<byte>, ghost start: nat)
      requires Cursor() && at < |list.nodes|
      requires npos == off && off + n <= list.baseSize
      requires bpos + n <= |buf| && position == start + bpos && Placed(m, start, buf, bpos)
      modifies this, list.Repr
      ensures Cursor() && position == old(position) + n
      ensures Placed(m, start, buf, bpos + n)
      ensures npos + n == list.baseSize ==> off == 0
      ensures list.Repr == old(list.Repr) && size == old(size) && capacity == old(capacity)
    {
      list.Put(curr, at, npos, buf[bpos..bpos + n]);
      Advance(npos, n);
    }

    /** The copying loop of write. */
    method PutAll(buf: seq<byte>)
      requires Cursor() && |buf| > 0 && position + |buf| <= capacity
      modifies this, list.Repr
      ensures Cursor() && list.Repr == old(list.Repr) && position == old(position) + |buf|
      ensures Placed(old(list.Mem()), old(position), buf, |buf|)
      ensures size == old(size) && capacity == old(capacity)
    {
      hide Flatten, ChunkList.Valid;
      ghost var m, start := list.Mem(), position;
      CurrentChunk();
      var npos := Offset();
      var ncap := curr.data.Length - npos;
      var bpos, left := 0, |buf|;
      while left > 0
        invariant 0 <= left && 0 <= bpos && bpos + left == |buf| && position == start + bpos
        invariant Cursor() && list.Repr == old(list.Repr)
        invariant left > 0 ==> at < |list.nodes| && npos == off && ncap == list.baseSize - npos
        invariant Placed(m, start, buf, bpos)
        invariant size == old(size) && capacity == old(capacity)
      {
        CurrentChunk();
        if ncap >= left {
          PutHere(npos, buf, bpos, left, m, start);
          bpos, left := bpos + left, 0;
        } else {
          PutHere(npos, buf, bpos, ncap, m, start);
          bpos, left := bpos + ncap, left - ncap;
          CurrentChunk();
          npos := 0;
          ncap := curr.data.Length;
        }
      }
    }

    /** write(buf, size): overwrite from the cursor on, growing as needed. */
    method Write(buf: seq<byte>)
      requires Valid()
      modifies this, list.Repr
      ensures Valid() && fresh(list.Repr - old(list.Repr))
      ensures position == old(position) + |buf|
      ensures Contents() == Overwrite(old(Contents()), old(position), buf)
      ensures capacity == old(capacity) || capacity < position + list.baseSize
    {
      hide Flatten, ChunkList.Valid;
      if |buf| <= 0 {
        return;
      }
      AddCapacity(|buf|);
      ghost var m := list.Mem();
      PutAll(buf);
      if position > size {
        size := position;
      }
      assert buf[..|buf|] == buf;
      PatchIsOverwrite(old(list.Mem()), m, list.Mem(), old(size), old(position), buf);
    }

    /** read(buf, size): the next n readable bytes. The C++ code does not check n. */
    method Read(n: nat) returns (out: seq<byte>)
      requires Valid() && n <= size - position
      modifies this`curr, this`position, this`at, this`off
      ensures Valid() && position == old(position) + n
      ensures Contents() == old(Contents())
      ensures out == old(Readable())[..n] && Readable() == old(Readable())[n..]
    {
      hide Flatten, ChunkList.Valid;
      out := [];
      if n > 0 {
        out := TakeAll(n);
      }
    }

    /** The copying loop of read. */
    method TakeAll(n: nat) returns (out: seq<byte>)
      requires Cursor() && 0 < n <= capacity - position
      modifies this`curr, this`position, this`at, this`off
      ensures Cursor() && position == old(position) + n
      ensures |out| == n && list.Holds(out, old(position))
    {
      hide Flatten, ChunkList.Valid;
      CurrentChunk();
      ghost var start := position;
      out := [];
      var npos: nat := Offset();
      var ncap: nat := curr.data.Length - npos;
      var left := n;
      while left > 0
        invariant 0 <= left && |out| + left == n && position == start + |out|
        invariant Cursor() && list.Holds(out, start)
        invariant left > 0 ==> at < |list.nodes| && npos == off && ncap == list.baseSize - npos
      {
        if ncap >= left {
          out := list.Take(curr, at, npos, left, out, start);
          Advance(npos, left);
          left := 0;
        } else {
          out := list.Take(curr, at, npos, ncap, out, start);
          Advance(npos, ncap);
          left := left - ncap;
          CurrentChunk();
          npos := 0;
          ncap := curr.data.Length;
        }
      }
    }

    /** toString(): the readable bytes; the walk starts at curr and moves no cursor. */
    method ToString() returns (out: seq<byte>)
      requires Valid()
      ensures out == Readable()
    {
      hide Flatten, ChunkList.Valid;
      out := [];
      if size - position > 0 {
        out := Peek(size - position);
      }
    }

    /** read(buf, size, position_) const: as read, on a walking pointer of its own. */
    method Peek(n: nat) returns (out: seq<byte>)
      requires Valid() && 0 < n <= size - position
      ensures |out| == n && list.Holds(out, position)
    {
      hide Flatten, ChunkList.Valid;
      CurrentChunk();
      out := [];
      var node := curr;
      ghost var k: nat := at;
      var npos: nat := Offset();
      var ncap: nat := node.data.Length - npos;
      var left := n;
      while left > 0
        invariant 0 <= left && |out| + left == n && list.Holds(out, position)
        invariant left > 0 ==> k < |list.nodes| && node == list.nodes[k] && npos + ncap == list.baseSize && ncap > 0
        invariant left > 0 ==> position + |out| == Start(k, list.baseSize) + npos
        decreases left
      {
        if ncap >= left {
          out := list.Take(node, k, npos, left, out, position);
          left := 0;
        } else {
          out := list.Take(node, k, npos, ncap, out, position);
          left := left - ncap;
          list.NextStart(k);
          node := node.next;
          k := k + 1;
          npos := 0;
          ncap := node.data.Length;
        }
      }
    }

    /** The slicing loop of getReadBuffers and getWriteBuffers: the next n addresses, chunk by chunk. */
    method Slices(n: nat) returns (iovs: seq<IoVec>)
      requires Valid() && 0 < n <= capacity - position
      ensures list.Covers(iovs, position, n)
    {
      hide Flatten, ChunkList.Valid;
      CurrentChunk();
      iovs := [];
      var node := curr;
      ghost var k: nat := at;
      var npos: nat := Offset();
      var ncap: nat := node.data.Length - npos;
      var left := n;
      while left > 0
        invariant 0 <= left <= n && list.Covers(iovs, position, n - left)
        invariant left > 0 ==> k < |list.nodes| && node == list.nodes[k] && npos + ncap == list.baseSize && ncap > 0
        invariant left > 0 ==> position + n - left == Start(k, list.baseSize) + npos
        decreases left
      {
        list.ChunkFacts(k);
        if ncap >= left {
          list.CoversSnoc(iovs, position, n - left, IoVec(node, npos, left));
          iovs := iovs + [IoVec(node, npos, left)];
          left := 0;
        } else {
          list.CoversSnoc(iovs, position, n - left, IoVec(node, npos, ncap));
          iovs := iovs + [IoVec(node, npos, ncap)];
          left := left - ncap;
          list.NextStart(k);
          node := node.next;
          k := k + 1;
          npos := 0;
          ncap := node.data.Length;
        }
      }
    }

    /** getReadBuffers(buffers, len): at most what is readable, no cursor moved. */
    method GetReadBuffers(len: nat) returns (iovs: seq<IoVec>, n: nat)
      requires Valid()
      ensures n == Min(len, size - position)
      ensures list.Covers(iovs, position, n)
    {
      n := if size - position < len then size - position else len;
      iovs := [];
      if n > 0 {
        iovs := Slices(n);
      }
    }

    /** getWriteBuffers(buffers, len): room for len bytes from the cursor on. */
    method GetWriteBuffers(len: nat) returns (iovs: seq<IoVec>)
      requires Valid()
      modifies this, list.Repr
      ensures Valid() && fresh(list.Repr - old(list.Repr))
      ensures position == old(position) && size == old(size) && Extends(list.Mem(), old(list.Mem()))
      ensures list.Covers(iovs, position, len) && position + len <= capacity
    {
      hide Flatten, ChunkList.Valid;
      iovs := [];
      if len > 0 {
        AddCapacity(len);
        iovs := Slices(len);
      }
    }

    /** clear(): back to one chunk and an empty buffer. */
    method Clear()
      requires Valid()
      modifies this, list.Repr
      ensures Valid() && list.Repr == old(list.Repr)
      ensures Contents() == [] && position == 0 && capacity == list.baseSize
    {
      position, size := 0, 0;
      capacity := list.baseSize;
      list.Truncate();
      curr := list.head;
      at, off := 0, 0;
    }

    /** setPosition(v): refused above the capacity; raising the cursor past the end raises the end. */
    method SetPosition(v: nat) returns (ok: bool)
      requires Valid()
      modifies this
      ensures Valid() && capacity == old(capacity)
      ensures ok <==> v <= capacity
      ensures !ok ==> position == old(position) && size == old(size)
      ensures ok ==> position == v && size == Max(old(size), v)
      ensures list.Mem() == old(list.Mem())
    {
      hide Flatten, ChunkList.Valid;
      if v > capacity {
        return false;
      }
      position := v;
      if position > size {
        size := position;
      }
      curr, at, off := list.Locate(v);
      return true;
    }
  }

  /** ceil(extra / base): that many more chunks are enough for `extra` more bytes, one less is not. */
  method ChunksFor(extra: nat, base: nat, ghost n: nat) returns (count: nat, bytes: nat)
    requires extra > 0 && base > 0
    ensures count > 0 && extra <= bytes < extra + base
    ensures Start(n + count, base) == Start(n, base) + bytes
  {
    var x := extra + base - 1;
    count := x / base;
    bytes := count * base;
    StartIsProduct(n, base);
    StartIsProduct(n + count, base);
    assert x == base * (x / base) + x % base;
    assert (n + count) * base == n * base + count * base;
  }
}
