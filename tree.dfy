/** Tokens, chunks and the tree vocabulary shared by the parser's analyses. */
module Tree {

  /** A tagged token `(surface, tag)` or a chunk `(label, [children])`. */
  datatype Node = Leaf(surface: string, tag: string) | Chunk(name: string, kids: seq<Node>)

  /** The leaf tokens under a node, left to right. */
  function Yield(n: Node): seq<Node>
    decreases n, 1
  {
    match n
    case Leaf(_, _) => [n]
    case Chunk(_, kids) => Yields(kids)
  }

  /** The leaf tokens of a sequence of nodes, left to right. */
  function Yields(ns: seq<Node>): seq<Node>
    decreases ns, 0
  {
    if ns == [] then [] else Yield(ns[0]) + Yields(ns[1..])
  }

  /** The number of chunk nodes in a tree. */
  function ChunkCount(n: Node): nat
    decreases n, 1
  {
    match n
    case Leaf(_, _) => 0
    case Chunk(_, kids) => 1 + ChunkCounts(kids)
  }

  function ChunkCounts(ns: seq<Node>): nat
    decreases ns, 0
  {
    if ns == [] then 0 else ChunkCount(ns[0]) + ChunkCounts(ns[1..])
  }

  predicate AllLeaves(ns: seq<Node>)
  {
    forall k :: 0 <= k < |ns| ==> ns[k].Leaf?
  }

  lemma {:induction false} YieldsAppend(a: seq<Node>, b: seq<Node>)
    ensures Yields(a + b) == Yields(a) + Yields(b)
    decreases |a|
  {
    if a == [] {
      assert a + b == b;
    } else {
      assert (a + b)[1..] == a[1..] + b;
      YieldsAppend(a[1..], b);
    }
  }

  lemma {:induction false} ChunkCountsAppend(a: seq<Node>, b: seq<Node>)
    ensures ChunkCounts(a + b) == ChunkCounts(a) + ChunkCounts(b)
    decreases |a|
  {
    if a == [] {
      assert a + b == b;
    } else {
      assert (a + b)[1..] == a[1..] + b;
      ChunkCountsAppend(a[1..], b);
    }
  }

  lemma YieldsOne(n: Node)
    ensures Yields([n]) == Yield(n)
  {
    assert Yields([n]) == Yield(n) + Yields([]);
  }

  /** A sequence of raw tokens is its own yield. */
  lemma {:induction false} YieldsOfLeaves(ns: seq<Node>)
    requires AllLeaves(ns)
    ensures Yields(ns) == ns
    decreases |ns|
  {
    if ns != [] {
      YieldsOfLeaves(ns[1..]);
    }
  }
}
