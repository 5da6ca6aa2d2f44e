/** The clause-boundary detector of the syntactic parser (`detect_clause_boundary`). */
module Clauses {
  import opened Text
  import opened Tree

  /** An element that starts a new clause: a chunk labelled VP, or a token whose tag starts with "CON-". */
  predicate OpensClause(n: Node)
  {
    match n
    case Chunk(name, _) => name == "VP"
    case Leaf(_, tag) => StartsWith(tag, "CON-")
  }

  /** No element strictly inside `(lo, hi)` starts a clause. */
  predicate NoOpenerWithin(tokens: seq<Node>, lo: int, hi: int)
    requires 0 <= lo && hi <= |tokens|
  {
    forall j :: lo < j < hi ==> !OpensClause(tokens[j])
  }

  /** Each range ends where the next one starts. */
  predicate Contiguous(bounds: seq<(int, int)>)
  {
    forall k :: 0 < k < |bounds| ==> bounds[k - 1].1 == bounds[k].0
  }

  lemma ContiguousAppend(bounds: seq<(int, int)>, r: (int, int))
    requires Contiguous(bounds)
    requires bounds != [] ==> bounds[|bounds| - 1].1 == r.0
    ensures Contiguous(bounds + [r])
  {
    var b := bounds + [r];
    forall k | 0 < k < |b|
      ensures b[k - 1].1 == b[k].0
    {
      if k < |bounds| {
        assert b[k - 1] == bounds[k - 1] && b[k] == bounds[k];
      }
    }
  }

  /**
   * `bounds` tiles `[0, end)`: non-empty ranges that start at 0, follow one
   * another without gap or overlap and stop at `end`; a range starts after 0
   * only at a clause opener and holds no opener strictly inside.
   */
  predicate Tiles(tokens: seq<Node>, bounds: seq<(int, int)>, end: int)
    requires 0 <= end <= |tokens|
  {
    && (bounds == [] ==> end == 0)
    && (bounds != [] ==> bounds[0].0 == 0 && bounds[|bounds| - 1].1 == end)
    && (forall k :: 0 <= k < |bounds| ==> 0 <= bounds[k].0 < bounds[k].1 <= end)
    && Contiguous(bounds)
    && (forall k :: 0 <= k < |bounds| && bounds[k].0 > 0 ==> OpensClause(tokens[bounds[k].0]))
    && (forall k :: 0 <= k < |bounds| ==> NoOpenerWithin(tokens, bounds[k].0, bounds[k].1))
  }

  /** Closing the open clause `[start, i)` extends the tiling to `i`. */
  lemma TilesExtend(tokens: seq<Node>, bounds: seq<(int, int)>, start: int, i: int)
    requires 0 <= start < i <= |tokens|
    requires Tiles(tokens, bounds, start)
    requires start > 0 ==> OpensClause(tokens[start])
    requires NoOpenerWithin(tokens, start, i)
    ensures Tiles(tokens, bounds + [(start, i)], i)
  {
    var b := bounds + [(start, i)];
    ContiguousAppend(bounds, (start, i));
    forall k | 0 <= k < |b|
      ensures 0 <= b[k].0 < b[k].1 <= i
      ensures b[k].0 > 0 ==> OpensClause(tokens[b[k].0])
      ensures NoOpenerWithin(tokens, b[k].0, b[k].1)
    {
      if k < |bounds| {
        assert b[k] == bounds[k];
      }
    }
  }

  /**
   * The half-open ranges are non-empty, start at 0, follow one another
   * without gap or overlap and end at the length of the input; a range
   * starts after 0 exactly where a clause opener stands.
   */
  method DetectClauseBoundary(tokens: seq<Node>) returns (bounds: seq<(int, int)>)
    ensures tokens == [] <==> bounds == []
    ensures bounds != [] ==> bounds[0].0 == 0 && bounds[|bounds| - 1].1 == |tokens|
    ensures forall k :: 0 <= k < |bounds| ==> 0 <= bounds[k].0 < bounds[k].1 <= |tokens|
    ensures Contiguous(bounds)
    ensures forall k :: 0 <= k < |bounds| && bounds[k].0 > 0 ==> OpensClause(tokens[bounds[k].0])
    ensures forall k :: 0 <= k < |bounds| ==> NoOpenerWithin(tokens, bounds[k].0, bounds[k].1)
  {
    bounds := [];
    var start := 0;
    for i := 0 to |tokens|
      invariant 0 <= start <= i && (i > 0 ==> start < i)
      invariant Tiles(tokens, bounds, start)
      invariant start > 0 ==> OpensClause(tokens[start])
      invariant NoOpenerWithin(tokens, start, i)
    {
      // a VP chunk, or a token whose tag starts with "CON-", after the open clause's first element
      if OpensClause(tokens[i]) && i > start {
        TilesExtend(tokens, bounds, start, i);
        bounds := bounds + [(start, i)];
        start := i;
      }
    }
    if start < |tokens| {
      TilesExtend(tokens, bounds, start, |tokens|);
      bounds := bounds + [(start, |tokens|)];
    }
  }
}
