/** The depth annotator of the syntactic parser (`annotate_depth_and_level`). */
module Depth {
  import opened Wrappers
  import opened Tree

  /** The record emitted for one chunk: `{sentence, depth, label, parent, content}`. */
  datatype DepthRecord = DepthRecord(sentence: int, depth: int, name: string, parent: Option<string>, content: seq<Node>)

  /**
   * `annotate_depth_and_level(chunks, depth, sentence, parent)`: one record
   * per chunk, followed by the records of its children one level deeper;
   * leaves are skipped. The recursive call also advances `sentence`.
   */
  function Annotate(chunks: seq<Node>, depth: int, sentence: int, parent: Option<string>): seq<DepthRecord>
    decreases chunks, 0
  {
    if chunks == [] then []
    else Here(chunks[0], depth, sentence, parent) + Annotate(chunks[1..], depth, sentence, parent)
  }

  /** The records for one element: none for a leaf; for a chunk, its own and then its children's. */
  function Here(n: Node, depth: int, sentence: int, parent: Option<string>): seq<DepthRecord>
    decreases n, 1
  {
    match n
    case Leaf(_, _) => []
    case Chunk(name, kids) =>
      [DepthRecord(sentence, depth, name, parent, kids)] + Annotate(kids, depth + 1, sentence + 1, Some(name))
  }

  /** The chunk a record was made for. */
  function ChunkOf(r: DepthRecord): Node
  {
    Chunk(r.name, r.content)
  }

  /** The chunk nodes of a forest in pre-order: every chunk before the chunks below it. */
  function PreOrder(ns: seq<Node>): seq<Node>
    decreases ns
  {
    if ns == [] then []
    else
      var here := match ns[0]
        case Leaf(_, _) => []
        case Chunk(_, kids) => [ns[0]] + PreOrder(kids);
      here + PreOrder(ns[1..])
  }

  function Chunks(rs: seq<DepthRecord>): (ts: seq<Node>)
    ensures |ts| == |rs| && forall k :: 0 <= k < |rs| ==> ts[k] == ChunkOf(rs[k])
  {
    if rs == [] then [] else [ChunkOf(rs[0])] + Chunks(rs[1..])
  }

  lemma ChunksAppend(a: seq<DepthRecord>, b: seq<DepthRecord>)
    ensures Chunks(a + b) == Chunks(a) + Chunks(b)
  {
  }

  /** The records are the chunks of the forest in pre-order, one each; leaves have none. */
  lemma {:induction false} AnnotatePreOrder(chunks: seq<Node>, depth: int, sentence: int, parent: Option<string>)
    ensures Chunks(Annotate(chunks, depth, sentence, parent)) == PreOrder(chunks)
    ensures |Annotate(chunks, depth, sentence, parent)| == ChunkCounts(chunks)
    decreases chunks
  {
    if chunks != [] {
      var rest := Annotate(chunks[1..], depth, sentence, parent);
      AnnotatePreOrder(chunks[1..], depth, sentence, parent);
      match chunks[0]
      case Leaf(_, _) =>
        assert Annotate(chunks, depth, sentence, parent) == [] + rest;
        assert PreOrder(chunks) == [] + PreOrder(chunks[1..]);
      case Chunk(name, kids) =>
        var r := DepthRecord(sentence, depth, name, parent, kids);
        var below := Annotate(kids, depth + 1, sentence + 1, Some(name));
        AnnotatePreOrder(kids, depth + 1, sentence + 1, Some(name));
        assert Annotate(chunks, depth, sentence, parent) == [r] + below + rest;
        ChunksAppend([r] + below, rest);
        ChunksAppend([r], below);
    }
  }

  /**
   * Levels: every record lies at `depth` or deeper, and its sentence counter
   * is the initial one advanced by its depth below the start — the counter
   * follows nesting, not sentences.
   */
  lemma {:induction false} AnnotateLevels(chunks: seq<Node>, depth: int, sentence: int, parent: Option<string>)
    ensures forall r :: r in Annotate(chunks, depth, sentence, parent) ==>
      r.depth >= depth && r.sentence == sentence + (r.depth - depth)
    decreases chunks
  {
    if chunks != [] {
      AnnotateLevels(chunks[1..], depth, sentence, parent);
      match chunks[0]
      case Leaf(_, _) =>
      case Chunk(name, kids) =>
        AnnotateLevels(kids, depth + 1, sentence + 1, Some(name));
    }
  }

  /**
   * Parents: a record at the starting depth belongs to a chunk of the
   * forest and carries the given parent; a deeper record comes after the
   * record of the chunk that contains it, one level up, whose label is its parent.
   */
  predicate Nested(rs: seq<DepthRecord>, chunks: seq<Node>, depth: int, parent: Option<string>)
  {
    forall k :: 0 <= k < |rs| ==>
      && rs[k].depth >= depth
      && (rs[k].depth == depth ==> rs[k].parent == parent && ChunkOf(rs[k]) in chunks)
      && (rs[k].depth > depth ==> exists j :: 0 <= j < k && IsParentRecord(rs[j], rs[k]))
  }

  predicate IsParentRecord(up: DepthRecord, r: DepthRecord)
  {
    up.depth == r.depth - 1 && r.parent == Some(up.name) && ChunkOf(r) in up.content
  }

  lemma {:induction false} AnnotateNested(chunks: seq<Node>, depth: int, sentence: int, parent: Option<string>)
    ensures Nested(Annotate(chunks, depth, sentence, parent), chunks, depth, parent)
    decreases chunks, 0
  {
    if chunks != [] {
      var here := Here(chunks[0], depth, sentence, parent);
      var rest := Annotate(chunks[1..], depth, sentence, parent);
      AnnotateNested(chunks[1..], depth, sentence, parent);
      NestedWiden(rest, chunks[1..], chunks, depth, parent);
      HereNested(chunks[0], chunks, depth, sentence, parent);
      NestedConcat(here, rest, chunks, depth, parent);
    }
  }

  /** The records of one element of the forest: its own, then those of its children. */
  lemma {:induction false} HereNested(n: Node, chunks: seq<Node>, depth: int, sentence: int, parent: Option<string>)
    requires n in chunks
    ensures Nested(Here(n, depth, sentence, parent), chunks, depth, parent)
    decreases n, 1
  {
    match n
    case Leaf(_, _) =>
    case Chunk(name, kids) =>
      var top := DepthRecord(sentence, depth, name, parent, kids);
      AnnotateNested(kids, depth + 1, sentence + 1, Some(name));
      NestedUnder(top, Annotate(kids, depth + 1, sentence + 1, Some(name)), chunks);
  }

  /** A chunk's record followed by its children's records, nested one level below it. */
  lemma NestedUnder(top: DepthRecord, below: seq<DepthRecord>, chunks: seq<Node>)
    requires ChunkOf(top) in chunks
    requires Nested(below, top.content, top.depth + 1, Some(top.name))
    ensures Nested([top] + below, chunks, top.depth, top.parent)
  {
    var here := [top] + below;
    forall k | 0 <= k < |here| && here[k].depth > top.depth
      ensures exists j :: 0 <= j < k && IsParentRecord(here[j], here[k])
    {
      var b := below[k - 1];
      assert here[k] == b;
      if b.depth == top.depth + 1 {
        assert IsParentRecord(here[0], here[k]);
      } else {
        var j :| 0 <= j < k - 1 && IsParentRecord(below[j], b);
        assert here[j + 1] == below[j];
      }
    }
  }

  lemma NestedWiden(rs: seq<DepthRecord>, chunks: seq<Node>, more: seq<Node>, depth: int, parent: Option<string>)
    requires Nested(rs, chunks, depth, parent)
    requires forall n :: n in chunks ==> n in more
    ensures Nested(rs, more, depth, parent)
  {
  }

  lemma NestedConcat(a: seq<DepthRecord>, b: seq<DepthRecord>, chunks: seq<Node>, depth: int, parent: Option<string>)
    requires Nested(a, chunks, depth, parent) && Nested(b, chunks, depth, parent)
    ensures Nested(a + b, chunks, depth, parent)
  {
    var ab := a + b;
    forall k | 0 <= k < |ab| && ab[k].depth > depth
      ensures exists j :: 0 <= j < k && IsParentRecord(ab[j], ab[k])
    {
      if k < |a| {
        var j :| 0 <= j < k && IsParentRecord(a[j], a[k]);
        assert ab[j] == a[j];
      } else {
        var j :| 0 <= j < k - |a| && IsParentRecord(b[j], b[k - |a|]);
        assert ab[j + |a|] == b[j];
      }
    }
  }
}
