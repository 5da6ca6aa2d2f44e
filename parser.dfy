/**
 * The entry point of the syntactic parser (`ZhyaniSyntacticParser.syntactic_parse`
 * and `_safe_chunking`): chunk the tokens, falling back to the raw tokens when
 * chunking raises, and return the tree `("S", chunks)`. Clause detection and
 * the two analyses run for their effects only; their results are dropped.
 */
module Parser {
  import opened Wrappers
  import opened Tree
  import opened Chunking
  import opened Clauses
  import opened Constituents
  import opened Depth

  /** `_safe_chunking`: the chunked list, or the tokens themselves when chunking raised. */
  function SafeChunks(c: Chunker, tokens: seq<Node>): seq<Node>
    requires Advances(c)
  {
    match PreParse(c, tokens)
    case Some(chunks) => chunks
    case None => tokens
  }

  /** `_safe_chunking` running the chunker. */
  method SafeChunking(c: Chunker, tokens: seq<Node>) returns (chunks: seq<Node>)
    requires Advances(c)
    ensures chunks == SafeChunks(c, tokens)
  {
    var r := PreParseChunking(c, tokens);
    if r.Some? {
      return r.value;
    }
    return tokens;
  }

  /**
   * `syntactic_parse`: the root `S` over the safely chunked tokens. Clause
   * detection is given the raw tokens, and the constituent and depth
   * analyses the tree and its chunks; none of their results reach the tree.
   */
  method SyntacticParse(c: Chunker, tokens: seq<Node>) returns (tree: Node)
    requires Advances(c)
    ensures tree == Chunk("S", SafeChunks(c, tokens))
  {
    var chunks := SafeChunking(c, tokens);
    var boundaries := DetectClauseBoundary(tokens);
    tree := Chunk("S", chunks);
    var records, total := GetConstituents(Some(("S", chunks)));
    var annotated := Annotate(chunks, 0, 1, None);
  }

  /**
   * With builders that cover what they skip, the parse keeps every token:
   * the leaves of the tree are the leaves of the input, in order. Chunking
   * succeeds exactly on an input of raw tokens.
   */
  lemma ParseKeepsTokens(c: Chunker, tokens: seq<Node>)
    requires Covers(c)
    ensures Advances(c)
    ensures PreParse(c, tokens).Some? <==> AllLeaves(tokens)
    ensures Yield(Chunk("S", SafeChunks(c, tokens))) == Yields(tokens)
  {
    PreParseCovers(c, tokens);
    if AllLeaves(tokens) {
      YieldsOfLeaves(tokens);
    }
  }

  /**
   * A pre-built chunk anywhere in the input makes the segmenter raise, so
   * the tree is `S` over the input unchanged: the assembler's pass-through
   * for chunks is never reached from the parser.
   */
  lemma ChunkInInputFallsBack(c: Chunker, tokens: seq<Node>, k: int)
    requires Advances(c)
    requires 0 <= k < |tokens| && tokens[k].Chunk?
    ensures PreParse(c, tokens) == None
    ensures SafeChunks(c, tokens) == tokens
  {
    SegmentsPartition(tokens);
  }
}
