/** The linked list of fixed-size memory chunks inside a ByteArray. */
module ChunkLists {
  import opened Bytes
  import opened FlatBuffer

  class Node {
    const data: array<byte>
    var next: Node?
    ghost const index: nat   // place in its list

    constructor (n: nat, ghost i: nat)
      ensures fresh(data) && data.Length == n && next == null && index == i
    {
      data := new byte[n];
      next := null;
      index := i;
    }
  }

  /** memcpy into a chunk. */
  method CopyIn(a: array<byte>, off: nat, src: seq<byte>)
    requires off + |src| <= a.Length
    modifies a
    ensures Patched(a[..], old(a[..]), off, src)
  {
    forall i | 0 <= i < |src| {
      a[off + i] := src[i];
    }
  }

  /** struct iovec: a stretch of one chunk. */
  datatype IoVec = IoVec(node: Node, off: nat, len: nat)

  class ChunkList {
    var head: Node
    const baseSize: nat

    ghost var nodes: seq<Node>         // the chunks, in link order
    ghost var chunks: seq<seq<byte>>   // what they hold
    ghost var Repr: set<object>

    /** Links and memory agree with `nodes` and `chunks`. */
    ghost predicate Valid()
      reads this, Repr
    {
      && this in Repr
      && baseSize >= 1
      && |nodes| == |chunks| >= 1
      && head == nodes[0]
      && (forall i | 0 <= i < |nodes| :: nodes[i] in Repr && nodes[i].data in Repr && nodes[i].index == i)
      && (forall i, j | 0 <= i < j < |nodes| && j == i + 1 :: nodes[i].next == nodes[j])
      && nodes[|nodes| - 1].next == null
      && (forall i, j | 0 <= i < j < |nodes| :: nodes[i].data != nodes[j].data)
      && (forall i | 0 <= i < |nodes| :: nodes[i].data[..] == chunks[i])
      && Even(chunks, baseSize)
    }

    ghost function NodeAt(i: nat): Node?
      reads this
    {
      if i < |nodes| then nodes[i] else null
    }

    /** The flat memory the list stands for. */
    ghost function Mem(): (m: seq<byte>)
      requires Valid()
      reads this, Repr
      ensures |m| == Start(|nodes|, baseSize)
    {
      FlattenLength(chunks, baseSize);
      Flatten(chunks)
    }

    constructor (n: nat)
      requires n >= 1
      ensures Valid() && fresh(Repr)
      ensures baseSize == n && nodes == [head]
    {
      var node := new Node(n, 0);
      head := node;
      baseSize := n;
      nodes := [node];
      chunks := [node.data[..]];
      Repr := {this, node, node.data};
    }

    lemma ChunkFacts(k: nat)
      requires Valid() && k < |nodes|
      ensures nodes[k].data.Length == baseSize && nodes[k].data[..] == chunks[k] && nodes[k].index == k
      ensures nodes[k].next == NodeAt(k + 1)
    {
      assert k + 1 < |nodes| ==> nodes[k].next == nodes[k + 1];
    }

    /** Link one more chunk behind the last one. */
    method Append(last: Node) returns (node: Node)
      requires Valid() && last == nodes[|nodes| - 1]
      modifies Repr
      ensures Valid() && fresh(Repr - old(Repr)) && head == old(head)
      ensures nodes == old(nodes) + [node] && Extends(chunks, old(chunks))
    {
      node := new Node(baseSize, |nodes|);
      Link(last, node);
    }

    method Link(last: Node, node: Node)
      requires Valid() && last == nodes[|nodes| - 1]
      requires node !in Repr && node.data !in Repr && node.index == |nodes|
      requires node.data.Length == baseSize && node.next == null
      modifies this, last
      ensures Valid() && Repr == old(Repr) + {node, node.data} && head == old(head)
      ensures nodes == old(nodes) + [node] && chunks == old(chunks) + [node.data[..]]
    {
      last.next := node;
      nodes := nodes + [node];
      chunks := chunks + [node.data[..]];
      Repr := Repr + {node, node.data};
    }

    /** Walk to the last chunk. */
    method Last() returns (last: Node)
      requires Valid()
      ensures last == nodes[|nodes| - 1]
    {
      last := head;
      ghost var t := 0;
      ChunkFacts(0);
      while last.next != null
        invariant 0 <= t < |nodes| && last == nodes[t] && last.next == NodeAt(t + 1)
        decreases |nodes| - t
      {
        last := last.next;
        t := t + 1;
        ChunkFacts(t);
      }
    }

    /** Link `count` more chunks; returns the first of them. */
    method Grow(count: nat) returns (first: Node?)
      requires Valid() && count > 0
      modifies Repr
      ensures Valid() && fresh(Repr - old(Repr)) && head == old(head)
      ensures |nodes| == |old(nodes)| + count && Extends(nodes, old(nodes))
      ensures Extends(Mem(), old(Mem()))
      ensures first == nodes[|old(nodes)|]
    {
      var temp := Last();
      first := null;
      var i := 0;
      while i < count
        invariant 0 <= i <= count
        invariant Valid() && fresh(Repr - old(Repr)) && head == old(head)
        invariant temp == nodes[|nodes| - 1]
        invariant |nodes| == |old(nodes)| + i && Extends(nodes, old(nodes)) && Extends(chunks, old(chunks))
        invariant first == if i > 0 then nodes[|old(nodes)|] else null
      {
        var node := Append(temp);
        if first == null {
          first := node;
        }
        temp := node;
        i := i + 1;
      }
      assert chunks == old(chunks) + chunks[|old(chunks)|..];
      FlattenConcat(old(chunks), chunks[|old(chunks)|..]);
    }

    /** memcpy into chunk number k at offset npos. */
    method Put(node: Node, ghost k: nat, npos: nat, src: seq<byte>)
      requires Valid() && k < |nodes| && node == nodes[k]
      requires npos + |src| <= baseSize
      modifies node.data, this`chunks
      ensures Valid() && nodes == old(nodes)
      ensures Patched(Mem(), old(Mem()), Start(k, baseSize) + npos, src)
    {
      PutRaw(node, k, npos, src);
      FlattenPatched(old(chunks), baseSize, k, chunks[k], npos, src);
    }

    method PutRaw(node: Node, ghost k: nat, npos: nat, src: seq<byte>)
      requires Valid() && k < |nodes| && node == nodes[k]
      requires npos + |src| <= baseSize
      modifies node.data, this`chunks
      ensures Valid() && chunks == old(chunks)[k := chunks[k]]
      ensures Patched(chunks[k], old(chunks)[k], npos, src)
    {
      ChunkFacts(k);
      CopyIn(node.data, npos, src);
      chunks := chunks[k := node.data[..]];
    }

    /** Walk to the chunk that holds address v; null when v is the very end. */
    method Locate(v: nat) returns (node: Node?, ghost k: nat, ghost o: nat)
      requires Valid() && v <= Start(|nodes|, baseSize)
      ensures k <= |nodes| && node == NodeAt(k) && v == Start(k, baseSize) + o
      ensures if k < |nodes| then o < baseSize else o == 0
    {
      node := head;
      k := 0;
      var rest: nat := v;
      ChunkFacts(0);
      while rest > node.data.Length
        invariant k < |nodes| && node == nodes[k] && node.data.Length == baseSize
        invariant v == Start(k, baseSize) + rest
        decreases rest
      {
        rest := rest - node.data.Length;
        ChunkFacts(k);
        node := node.next;
        k := k + 1;
        ChunkFacts(k);
      }
      o := rest;
      if rest == node.data.Length {
        ChunkFacts(k);
        node := node.next;
        k, o := k + 1, 0;
      }
    }

    /** out is the memory from address `start` on. */
    ghost predicate Holds(out: seq<byte>, start: nat)
      requires Valid()
      reads this, Repr
    {
      start + |out| <= |Mem()| && forall j | 0 <= j < |out| :: out[j] == Mem()[start + j]
    }

    /** memcpy out of chunk number k, behind what was copied already. */
    method Take(node: Node, ghost k: nat, npos: nat, n: nat, out: seq<byte>, ghost start: nat) returns (more: seq<byte>)
      requires Valid() && k < |nodes| && node == nodes[k] && npos + n <= baseSize
      requires Holds(out, start) && start + |out| == Start(k, baseSize) + npos
      ensures |more| == |out| + n && Holds(more, start)
    {
      ChunkFacts(k);
      FlattenSlice(chunks, baseSize, k, npos, n);
      more := out + node.data[npos..npos + n];
      assert forall j | |out| <= j < |more| :: more[j] == chunks[k][npos..npos + n][j - |out|];
    }

    /** The pieces are, in order and without gap, the n addresses from p on. */
    ghost predicate Covers(iovs: seq<IoVec>, p: nat, n: nat)
      reads this
      decreases |iovs|
    {
      if iovs == [] then n == 0
      else
        var v := iovs[|iovs| - 1];
        && v.len <= n
        && v.node == NodeAt(v.node.index) && v.off + v.len <= baseSize
        && Start(v.node.index, baseSize) + v.off == p + n - v.len
        && Covers(iovs[..|iovs| - 1], p, n - v.len)
    }

    lemma CoversSnoc(iovs: seq<IoVec>, p: nat, n: nat, v: IoVec)
      requires Covers(iovs, p, n)
      requires v.node == NodeAt(v.node.index) && v.off + v.len <= baseSize
      requires Start(v.node.index, baseSize) + v.off == p + n
      ensures Covers(iovs + [v], p, n + v.len)
    {
      assert (iovs + [v])[..|iovs|] == iovs;
    }

    /** The kernel's side of a gathering send: the first m bytes of the pieces. */
    method Gather(iovs: seq<IoVec>, m: nat, ghost p: nat, ghost n: nat) returns (out: seq<byte>)
      requires Valid() && Covers(iovs, p, n) && m <= n && p <= |Mem()|
      ensures |out| == m && Holds(out, p)
      decreases |iovs|
    {
      if iovs == [] {
        return [];
      }
      var v := iovs[|iovs| - 1];
      var rest := iovs[..|iovs| - 1];
      var before := Total(rest, p, n - v.len);
      if m <= before {
        out := Gather(rest, m, p, n - v.len);
      } else {
        out := Gather(rest, before, p, n - v.len);
        out := Take(v.node, v.node.index, v.off, m - before, out, p);
      }
    }

    method Total(iovs: seq<IoVec>, ghost p: nat, ghost n: nat) returns (total: nat)
      requires Covers(iovs, p, n)
      ensures total == n
      decreases |iovs|
    {
      if iovs == [] {
        return 0;
      }
      var v := iovs[|iovs| - 1];
      total := Total(iovs[..|iovs| - 1], p, n - v.len);
      total := total + v.len;
    }

    /** The kernel's side of a scattering receive: fill the pieces from the front. */
    method Scatter(iovs: seq<IoVec>, bytes: seq<byte>, ghost p: nat, ghost n: nat)
      requires Valid() && Covers(iovs, p, n) && |bytes| <= n && p <= |Mem()|
      modifies Repr
      ensures Valid() && Repr == old(Repr) && nodes == old(nodes) && head == old(head)
      ensures Patched(Mem(), old(Mem()), p, bytes)
      decreases |iovs|
    {
      hide Flatten;
      if iovs == [] {
        return;
      }
      var v := iovs[|iovs| - 1];
      var rest := iovs[..|iovs| - 1];
      var before := Total(rest, p, n - v.len);
      if |bytes| <= before {
        Scatter(rest, bytes, p, n - v.len);
      } else {
        Scatter(rest, bytes[..before], p, n - v.len);
        Put(v.node, v.node.index, v.off, bytes[before..]);
      }
    }

    lemma NextStart(k: nat)
      requires Valid() && k < |nodes|
      ensures Start(k + 1, baseSize) == Start(k, baseSize) + baseSize
      ensures nodes[k].next == NodeAt(k + 1)
      ensures k + 1 < |nodes| ==> nodes[k + 1].data.Length == baseSize
    {
      ChunkFacts(k);
      if k + 1 < |nodes| { ChunkFacts(k + 1); }
    }

    /** Drop every chunk but the first. */
    method Truncate()
      requires Valid()
      modifies Repr
      ensures Valid() && Repr == old(Repr) && head == old(head) && nodes == [head]
    {
      head.next := null;
      nodes, chunks := nodes[..1], chunks[..1];
    }
  }
}
