/**
 * src/merkle.ts: the chunk-Merkle root. sha256 of two concatenated digests is the
 * function `h` every definition takes; nothing is assumed of it.
 */
module Merkle {
  import opened Common
  import opened Hex

  // ------------------------------------------------------- the tree, top down

  /** Nodes of a level: half of the level below, rounded up. */
  function Width(n: nat, level: nat): (w: nat)
    ensures n > 0 ==> w > 0
  {
    if level == 0 then n else (Width(n, level - 1) + 1) / 2
  }

  /** The first level that holds a single node. */
  function Height(n: nat): nat
    requires n > 0
  {
    if n == 1 then 0 else 1 + Height((n + 1) / 2)
  }

  function Min(a: nat, b: nat): nat { if a < b then a else b }

  /** The node at place `i` of a level; a missing right child is its left sibling. */
  function Node<D>(h: (D, D) -> D, leaves: seq<D>, level: nat, i: nat): D
    requires i < Width(|leaves|, level)
    decreases level
  {
    if level == 0 then leaves[i]
    else
      h(Node(h, leaves, level - 1, 2 * i),
        Node(h, leaves, level - 1, Min(2 * i + 1, Width(|leaves|, level - 1) - 1)))
  }

  lemma {:induction false} WidthStep(n: nat, level: nat)
    requires n > 0
    ensures Width(n, level + 1) == Width((n + 1) / 2, level)
  {
    if level > 0 { WidthStep(n, level - 1); }
  }

  lemma {:induction false} WidthAtHeight(n: nat)
    requires n > 0
    ensures Width(n, Height(n)) == 1
  {
    if n > 1 {
      WidthAtHeight((n + 1) / 2);
      WidthStep(n, Height((n + 1) / 2));
    }
  }

  /** The root of a leaf list; `zero` stands for the 32 zero bytes of the empty list. */
  function Root<D>(h: (D, D) -> D, zero: D, leaves: seq<D>): D {
    if leaves == [] then zero
    else
      WidthAtHeight(|leaves|);
      Node(h, leaves, Height(|leaves|), 0)
  }

  // ------------------------------------------------------- the level loop

  /** Hashes an even number of nodes in pairs. */
  method PairUp<D>(h: (D, D) -> D, nodes: seq<D>) returns (next: seq<D>)
    requires |nodes| % 2 == 0
    ensures |next| == |nodes| / 2
    ensures forall k | 0 <= k < |next| :: next[k] == h(nodes[2 * k], nodes[2 * k + 1])
  {
    next := [];
    var i := 0;
    while i < |nodes|
      invariant 0 <= i <= |nodes| && i == 2 * |next|
      invariant forall k | 0 <= k < |next| :: next[k] == h(nodes[2 * k], nodes[2 * k + 1])
    {
      next := next + [h(nodes[i], nodes[i + 1])];
      i := i + 2;
    }
  }

  /** `nodes` is a level of the tree over `leaves`. */
  ghost predicate IsLevel<D>(h: (D, D) -> D, leaves: seq<D>, level: nat, nodes: seq<D>) {
    |nodes| == Width(|leaves|, level) && forall k | 0 <= k < |nodes| :: nodes[k] == Node(h, leaves, level, k)
  }

  lemma LevelAbove<D>(h: (D, D) -> D, leaves: seq<D>, level: nat, nodes: seq<D>, evened: seq<D>, next: seq<D>)
    requires IsLevel(h, leaves, level, nodes) && nodes != []
    requires evened == if |nodes| % 2 == 1 then nodes + [nodes[|nodes| - 1]] else nodes
    requires |next| == |evened| / 2 && forall k | 0 <= k < |next| :: next[k] == h(evened[2 * k], evened[2 * k + 1])
    ensures IsLevel(h, leaves, level + 1, next)
  {
    forall k | 0 <= k < |next| ensures next[k] == Node(h, leaves, level + 1, k) {
      assert evened[2 * k + 1] == nodes[Min(2 * k + 1, |nodes| - 1)];
    }
  }

  /** The loop over levels computes the root of the tree. */
  method MerkleRoot<D>(h: (D, D) -> D, zero: D, leafHashes: seq<D>) returns (root: D)
    ensures root == Root(h, zero, leafHashes)
  {
    if |leafHashes| == 0 {
      return zero;
    }
    if |leafHashes| == 1 {
      return leafHashes[0];
    }
    var nodes := leafHashes;
    ghost var level := 0;
    while |nodes| > 1
      invariant |nodes| > 0 && IsLevel(h, leafHashes, level, nodes)
      invariant Height(|leafHashes|) == level + Height(|nodes|)
      decreases |nodes|
    {
      ghost var before := nodes;
      if |nodes| % 2 == 1 {
        nodes := nodes + [nodes[|nodes| - 1]];
      }
      var next := PairUp(h, nodes);
      LevelAbove(h, leafHashes, level, before, nodes, next);
      nodes := next;
      level := level + 1;
    }
    WidthAtHeight(|leafHashes|);
    root := nodes[0];
  }

  // ------------------------------------------------------- odd lists

  lemma {:induction false} DuplicatedLastNode<D>(h: (D, D) -> D, leaves: seq<D>, level: nat, i: nat)
    requires |leaves| % 2 == 1 && level > 0
    requires Width(|leaves|, level) == Width(|leaves| + 1, level) && i < Width(|leaves|, level)
    requires forall l | 0 < l <= level :: Width(|leaves|, l) == Width(|leaves| + 1, l)
    ensures Node(h, leaves + [leaves[|leaves| - 1]], level, i) == Node(h, leaves, level, i)
    decreases level
  {
    if level > 1 {
      assert Width(|leaves|, level - 1) == Width(|leaves| + 1, level - 1);
      DuplicatedLastNode(h, leaves, level - 1, 2 * i);
      DuplicatedLastNode(h, leaves, level - 1, Min(2 * i + 1, Width(|leaves|, level - 1) - 1));
    } else {
      assert Width(|leaves|, 0) == |leaves|;
    }
  }

  lemma {:induction false} EvenedWidth(n: nat, level: nat)
    requires n % 2 == 1 && level > 0
    ensures Width(n, level) == Width(n + 1, level)
  {
    if level > 1 { EvenedWidth(n, level - 1); }
  }

  /** Repeating the last leaf of an odd list longer than one keeps its root. */
  lemma RootKeptByDuplicate<D>(h: (D, D) -> D, zero: D, leaves: seq<D>)
    requires |leaves| % 2 == 1 && |leaves| > 1
    ensures Root(h, zero, leaves + [leaves[|leaves| - 1]]) == Root(h, zero, leaves)
  {
    var n, top := |leaves|, Height(|leaves|);
    assert (n + 1) / 2 == (n + 2) / 2;
    assert Height(n + 1) == top > 0;
    WidthAtHeight(n);
    forall l | 0 < l <= top ensures Width(n, l) == Width(n + 1, l) { EvenedWidth(n, l); }
    DuplicatedLastNode(h, leaves, top, 0);
  }

  // ------------------------------------------------------- binding

  /** Two different inputs of the pair hash with one output. */
  datatype Collision<D> = Collision(left0: D, right0: D, left1: D, right1: D)

  predicate Collides<D(==)>(h: (D, D) -> D, c: Collision<D>) {
    (c.left0, c.right0) != (c.left1, c.right1) && h(c.left0, c.right0) == h(c.left1, c.right1)
  }

  function Children<D>(h: (D, D) -> D, leaves: seq<D>, level: nat, i: nat): (c: (D, D))
    requires level > 0 && i < Width(|leaves|, level)
    ensures Node(h, leaves, level, i) == h(c.0, c.1)
  {
    (Node(h, leaves, level - 1, 2 * i), Node(h, leaves, level - 1, Min(2 * i + 1, Width(|leaves|, level - 1) - 1)))
  }

  /** Two trees of one shape have the same first `upto` nodes on a level. */
  ghost predicate Agree<D>(h: (D, D) -> D, a: seq<D>, b: seq<D>, level: nat, upto: nat)
    requires |a| == |b| && upto <= Width(|a|, level)
  {
    forall k | 0 <= k < upto :: Node(h, a, level, k) == Node(h, b, level, k)
  }

  /**
   * Searches two trees of one shape for a collision, level by level from a level on which
   * they agree. Below places already compared (`i`) the two trees agree one level down.
   */
  function Search<D(==)>(h: (D, D) -> D, a: seq<D>, b: seq<D>, level: nat, i: nat): (c: Option<Collision<D>>)
    requires |a| == |b| && i <= Width(|a|, level)
    requires Agree(h, a, b, level, Width(|a|, level))
    requires level > 0 ==> Agree(h, a, b, level - 1, Min(2 * i, Width(|a|, level - 1)))
    ensures c.Some? ==> Collides(h, c.value)
    ensures c.None? ==> a == b
    decreases level, Width(|a|, level) - i
  {
    if level == 0 then
      assert forall k | 0 <= k < |a| :: a[k] == Node(h, a, 0, k) && b[k] == Node(h, b, 0, k);
      None
    else if i == Width(|a|, level) then
      assert Width(|a|, level - 1) <= 2 * i;
      Search(h, a, b, level - 1, 0)
    else
      var x, y := Children(h, a, level, i), Children(h, b, level, i);
      if x != y then
        assert Node(h, a, level, i) == Node(h, b, level, i);
        Some(Collision(x.0, x.1, y.0, y.1))
      else Search(h, a, b, level, i + 1)
  }

  /**
   * The tree binds its leaves at a fixed count: two different lists of one length and one
   * root yield a collision of the hash.
   */
  function FindCollision<D(==)>(h: (D, D) -> D, zero: D, a: seq<D>, b: seq<D>): (c: Collision<D>)
    requires |a| == |b| && a != b && Root(h, zero, a) == Root(h, zero, b)
    ensures Collides(h, c)
  {
    WidthAtHeight(|a|);
    Search(h, a, b, Height(|a|), 0).value
  }

  // ------------------------------------------------------- manifests

  /** A manifest's chunk, as far as the root reads it. */
  datatype Chunk = Chunk(sha256: Option<string>)

  /** The digest a chunk names, as the 64 lower-case digits `Buffer.toString("hex")` prints. */
  function Digest(c: Chunk): Option<string> {
    if c.sha256.Some? && IsHex64(StripPrefix(c.sha256.value))
    then Some(Lower(StripPrefix(c.sha256.value)))
    else None
  }

  /** The root of no leaves: 32 zero bytes. */
  function ZeroRoot(): string { seq(64, _ => '0') }

  /** The root of a manifest, or the place of the first chunk that names no digest. */
  method ComputeRootHashFromChunks(h: (string, string) -> string, chunks: seq<Chunk>)
    returns (r: Result<string, nat>)
    ensures r.Ok? <==> forall i | 0 <= i < |chunks| :: Digest(chunks[i]).Some?
    ensures r.Ok? ==>
      r.value == Root(h, ZeroRoot(), 
        seq(|chunks|, i requires 0 <= i < |chunks| && Digest(chunks[i]).Some? => Digest(chunks[i]).value))
    ensures r.Err? ==> r.error < |chunks| && Digest(chunks[r.error]).None?
    ensures r.Err? ==> forall i | 0 <= i < r.error :: Digest(chunks[i]).Some?
  {
    var leaves: seq<string> := [];
    var i := 0;
    while i < |chunks|
      invariant 0 <= i <= |chunks| && |leaves| == i
      invariant forall k | 0 <= k < i :: Digest(chunks[k]) == Some(leaves[k])
    {
      if chunks[i].sha256.None? {
        return Err(i);
      }
      var hex := StripPrefix(chunks[i].sha256.value);
      if !IsHex64(hex) {
        return Err(i);
      }
      leaves := leaves + [Lower(hex)];
      i := i + 1;
    }
    var root := MerkleRoot(h, ZeroRoot(), leaves);
    assert leaves == seq(|chunks|, i requires 0 <= i < |chunks| && Digest(chunks[i]).Some? => Digest(chunks[i]).value);
    r := Ok(root);
  }
}
