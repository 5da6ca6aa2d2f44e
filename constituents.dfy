/** The constituent extractor of the syntactic parser (`get_constituents`). */
module Constituents {
  import opened Wrappers
  import opened Tree

  /** `(label, start, end, subtree)`: a chunk, the leaf positions it spans and the subtree rebuilt from it. */
  datatype Constituent = Constituent(name: string, start: nat, end: nat, subtree: Node)

  /** The records the traversal appends for `n` when it reaches `n` with `start` leaves to its left. */
  function Records(n: Node, start: nat): seq<Constituent>
    decreases n, 1
  {
    match n
    case Leaf(_, _) => []
    case Chunk(name, kids) => KidsRecords(kids, start) + [Constituent(name, start, start + |Yields(kids)|, n)]
  }

  function KidsRecords(kids: seq<Node>, start: nat): seq<Constituent>
    decreases kids, 0
  {
    if kids == [] then []
    else Records(kids[0], start) + KidsRecords(kids[1..], start + |Yield(kids[0])|)
  }

  /** The chunk nodes of a tree in post-order: every chunk after all the chunks below it. */
  function PostOrder(n: Node): seq<Node>
    decreases n, 1
  {
    match n
    case Leaf(_, _) => []
    case Chunk(_, kids) => PostOrders(kids) + [n]
  }

  function PostOrders(ns: seq<Node>): seq<Node>
    decreases ns, 0
  {
    if ns == [] then [] else PostOrder(ns[0]) + PostOrders(ns[1..])
  }

  function Subtrees(rs: seq<Constituent>): (ts: seq<Node>)
    ensures |ts| == |rs| && forall k :: 0 <= k < |rs| ==> ts[k] == rs[k].subtree
  {
    if rs == [] then [] else [rs[0].subtree] + Subtrees(rs[1..])
  }

  /**
   * The state `traverse` shares between its recursive calls: the list of
   * records it appends to. The running position is threaded through the calls.
   */
  class Traversal {
    var constituents: seq<Constituent>

    constructor ()
      ensures constituents == []
    {
      constituents := [];
    }

    /**
     * `traverse` on a chunk `(name, kids)` reached at leaf position `pos`:
     * it returns the position after it, its leaf count and its rebuilt
     * subtree, after appending the records of its chunks in post-order.
     */
    method Traverse(name: string, kids: seq<Node>, pos: nat) returns (end: nat, total: nat, subtree: Node)
      modifies this
      ensures total == |Yields(kids)| && end == pos + total
      ensures subtree == Chunk(name, kids)
      ensures constituents == old(constituents) + Records(Chunk(name, kids), pos)
      decreases kids
    {
      var start := pos;
      var p := pos;
      total := 0;
      var collected: seq<Node> := [];
      for k := 0 to |kids|
        invariant total == |Yields(kids[..k])| && p == pos + total
        invariant collected == kids[..k]
        invariant constituents == old(constituents) + KidsRecords(kids[..k], pos)
      {
        var child := kids[k];
        ghost var before := constituents;
        ChildStep(kids, k, pos);
        match child {
          case Leaf(_, _) =>
            collected := collected + [child];
            p := p + 1;
            total := total + 1;
          case Chunk(childName, childKids) =>
            assert child in kids;
            var childEnd, childTotal, sub := Traverse(childName, childKids, p);
            total := total + childTotal;
            p := childEnd;
            collected := collected + [sub];
        }
        ChildRecords(old(constituents), before, constituents, kids, k, pos);
      }
      assert kids[..|kids|] == kids;
      end := p;
      subtree := Chunk(name, collected);
      constituents := constituents + [Constituent(name, start, end, subtree)];
    }
  }

  /** The loop's record invariant survives the visit of child `k`. */
  lemma ChildRecords(base: seq<Constituent>, before: seq<Constituent>, after: seq<Constituent>, kids: seq<Node>, k: nat, pos: nat)
    requires k < |kids|
    requires before == base + KidsRecords(kids[..k], pos)
    requires after == before + Records(kids[k], pos + |Yields(kids[..k])|)
    ensures after == base + KidsRecords(kids[..k + 1], pos)
  {
    ChildStep(kids, k, pos);
  }

  /** Moving past child `k` adds its records, at its leaf offset, and its leaves. */
  lemma ChildStep(kids: seq<Node>, k: nat, pos: nat)
    requires k < |kids|
    ensures kids[..k + 1] == kids[..k] + [kids[k]]
    ensures KidsRecords(kids[..k + 1], pos) == KidsRecords(kids[..k], pos) + Records(kids[k], pos + |Yields(kids[..k])|)
    ensures |Yields(kids[..k + 1])| == |Yields(kids[..k])| + |Yield(kids[k])|
  {
    assert kids[..k + 1] == kids[..k] + [kids[k]];
    KidsRecordsSnoc(kids[..k], kids[k], pos);
    YieldsAppend(kids[..k], [kids[k]]);
    YieldsOne(kids[k]);
  }

  /**
   * `get_constituents`: no tree gives no records and no leaves; otherwise the
   * records of every chunk in post-order, the root's record last and spanning
   * every leaf, and the leaf count of the tree.
   */
  method GetConstituents(tree: Option<(string, seq<Node>)>) returns (records: seq<Constituent>, total: nat)
    ensures tree.None? ==> records == [] && total == 0
    ensures tree.Some? ==>
      var root := Chunk(tree.value.0, tree.value.1);
      && records == Records(root, 0)
      && total == |Yield(root)|
      && records != []
      && records[|records| - 1] == Constituent(root.name, 0, total, root)
  {
    if tree.None? {
      return [], 0;
    }
    var t := new Traversal();
    var end, count, subtree := t.Traverse(tree.value.0, tree.value.1, 0);
    records := t.constituents;
    total := count;
  }

  lemma {:induction false} KidsRecordsSnoc(kids: seq<Node>, x: Node, start: nat)
    ensures KidsRecords(kids + [x], start) == KidsRecords(kids, start) + Records(x, start + |Yields(kids)|)
    decreases |kids|
  {
    if kids == [] {
      assert kids + [x] == [x];
      assert [x][1..] == [];
    } else {
      assert (kids + [x])[1..] == kids[1..] + [x];
      KidsRecordsSnoc(kids[1..], x, start + |Yield(kids[0])|);
    }
  }

  // ---------------------------------------------------------------- properties

  /** `r` spans exactly the leaves of its subtree inside `leaves`, which starts at leaf position `offset`. */
  predicate Spans(r: Constituent, leaves: seq<Node>, offset: nat)
  {
    && offset <= r.start <= r.end <= offset + |leaves|
    && leaves[r.start - offset..r.end - offset] == Yield(r.subtree)
    && r.subtree.Chunk?
    && r.subtree.name == r.name
  }

  lemma {:induction false} RecordsSpan(n: Node, start: nat)
    ensures forall k :: 0 <= k < |Records(n, start)| ==> Spans(Records(n, start)[k], Yield(n), start)
    decreases n, 1
  {
    match n
    case Leaf(_, _) =>
    case Chunk(name, kids) =>
      KidsRecordsSpan(kids, start);
      var rs := Records(n, start);
      var ks := KidsRecords(kids, start);
      forall k | 0 <= k < |rs|
        ensures Spans(rs[k], Yield(n), start)
      {
        if k < |ks| {
          assert rs[k] == ks[k];
        } else {
          assert Yield(n)[0..|Yields(kids)|] == Yield(n);
        }
      }
  }

  lemma {:induction false} KidsRecordsSpan(kids: seq<Node>, start: nat)
    ensures forall k :: 0 <= k < |KidsRecords(kids, start)| ==>
      Spans(KidsRecords(kids, start)[k], Yields(kids), start)
    decreases kids, 0
  {
    if kids != [] {
      var head := kids[0];
      var w := |Yield(head)|;
      RecordsSpan(head, start);
      KidsRecordsSpan(kids[1..], start + w);
      var a := Records(head, start);
      var b := KidsRecords(kids[1..], start + w);
      var ys := Yields(kids);
      assert ys == Yield(head) + Yields(kids[1..]);
      forall k | 0 <= k < |a + b|
        ensures Spans((a + b)[k], ys, start)
      {
        if k < |a| {
          var r := a[k];
          assert (a + b)[k] == r;
          assert ys[r.start - start..r.end - start] == Yield(head)[r.start - start..r.end - start];
        } else {
          var r := b[k - |a|];
          assert (a + b)[k] == r;
          assert ys[r.start - start..r.end - start] == Yields(kids[1..])[r.start - (start + w)..r.end - (start + w)];
        }
      }
    }
  }

  lemma {:induction false} RecordsPostOrder(n: Node, start: nat)
    ensures Subtrees(Records(n, start)) == PostOrder(n)
    decreases n, 1
  {
    match n
    case Leaf(_, _) =>
    case Chunk(name, kids) =>
      KidsRecordsPostOrder(kids, start);
      SubtreesAppend(KidsRecords(kids, start), [Constituent(name, start, start + |Yields(kids)|, n)]);
  }

  lemma {:induction false} KidsRecordsPostOrder(kids: seq<Node>, start: nat)
    ensures Subtrees(KidsRecords(kids, start)) == PostOrders(kids)
    decreases kids, 0
  {
    if kids != [] {
      RecordsPostOrder(kids[0], start);
      KidsRecordsPostOrder(kids[1..], start + |Yield(kids[0])|);
      SubtreesAppend(Records(kids[0], start), KidsRecords(kids[1..], start + |Yield(kids[0])|));
    }
  }

  lemma SubtreesAppend(a: seq<Constituent>, b: seq<Constituent>)
    ensures Subtrees(a + b) == Subtrees(a) + Subtrees(b)
  {
  }

  lemma {:induction false} PostOrderCount(n: Node)
    ensures |PostOrder(n)| == ChunkCount(n)
    decreases n, 1
  {
    match n
    case Leaf(_, _) =>
    case Chunk(_, kids) => PostOrdersCount(kids);
  }

  lemma {:induction false} PostOrdersCount(ns: seq<Node>)
    ensures |PostOrders(ns)| == ChunkCounts(ns)
    decreases ns, 0
  {
    if ns != [] {
      PostOrderCount(ns[0]);
      PostOrdersCount(ns[1..]);
    }
  }

  /**
   * What `get_constituents` promises of a tree: one record per chunk node and
   * none for a leaf, in post-order; every record spans exactly the leaves of
   * its subtree, so `end - start` is its leaf count; the last record is the
   * root's own, over `(0, total)`, with the rebuilt subtree equal to the tree.
   */
  lemma ConstituentsOfTree(name: string, kids: seq<Node>)
    ensures var root := Chunk(name, kids);
      var rs := Records(root, 0);
      && |rs| == ChunkCount(root)
      && Subtrees(rs) == PostOrder(root)
      && (forall k :: 0 <= k < |rs| ==>
            Spans(rs[k], Yield(root), 0) && rs[k].end - rs[k].start == |Yield(rs[k].subtree)|)
      && rs[|rs| - 1] == Constituent(name, 0, |Yield(root)|, root)
  {
    var root := Chunk(name, kids);
    RecordsSpan(root, 0);
    RecordsPostOrder(root, 0);
    PostOrderCount(root);
  }
}
