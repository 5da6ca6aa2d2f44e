/**
 * The segmenter and chunk assembler of the syntactic parser
 * (`ZhyaniSyntacticParser.pre_parse_chunking`).
 *
 * The chunking collaborator (its `is_*_token` predicates and `build_*`
 * builders) is not part of this model; it is a parameter, a `Chunker`.
 */
module Chunking {
  import opened Wrappers
  import opened Text
  import opened Tree

  /** The six builders of the chunking collaborator, in the assembler's precedence order. */
  datatype Phrase = NP | VP | PP | AdjP | AdvP | Interrog

  /**
   * What one builder call gives back: it raised (unpacking a result that is
   * not a pair raises too), it returned nothing (a falsy result), or it
   * returned a `(chunk, new_i)` pair holding a chunk or token. A pair whose
   * first element is `None` is not represented: the assembler would append
   * that `None` to its output.
   */
  datatype BuildOutcome = Raised | NoChunk | Built(chunk: Node, next: int)

  /**
   * The chunking collaborator: four tag predicates and the builders, keyed by
   * phrase. A predicate answers Err when the collaborator's test raises.
   */
  datatype Chunker = Chunker(
    isNp: string -> Result<bool>,
    isAdjp: string -> Result<bool>,
    isAdvp: string -> Result<bool>,
    isWh: string -> Result<bool>,
    build: (Phrase, seq<Node>, nat) -> BuildOutcome)

  /** Every pair a builder returns resumes strictly after the position it was asked about. */
  ghost predicate Advances(c: Chunker)
  {
    forall p, seg, i :: 0 <= i < |seg| && c.build(p, seg, i).Built? ==> i < c.build(p, seg, i).next
  }

  /**
   * Every pair a builder returns resumes inside the segment, after the
   * position asked about, and its chunk holds exactly the tokens it skips.
   */
  ghost predicate Covers(c: Chunker)
  {
    forall p, seg, i :: 0 <= i < |seg| && c.build(p, seg, i).Built? ==>
      i < c.build(p, seg, i).next <= |seg| &&
      Yield(c.build(p, seg, i).chunk) == Yields(seg[i..c.build(p, seg, i).next])
  }

  lemma CoversAdvances(c: Chunker)
    requires Covers(c)
    ensures Advances(c)
  {
  }

  // ---------------------------------------------------------------- segmenter

  /** A tag that closes a segment: comma or period punctuation, or a connector. */
  predicate IsBoundaryTag(tag: string)
  {
    StartsWith(tag, "SYM-COM") || StartsWith(tag, "SYM-DOT") || StartsWith(tag, "CON-")
  }

  /**
   * Cuts `rest` into segments, `buf` holding the open segment. A chunk in
   * the input makes `token[1].startswith` raise: the result is then None.
   */
  function SplitFrom(rest: seq<Node>, buf: seq<Node>): Option<seq<seq<Node>>>
    decreases |rest|
  {
    if rest == [] then (if buf == [] then Some([]) else Some([buf]))
    else match rest[0]
      case Chunk(_, _) => None
      case Leaf(_, tag) =>
        if IsBoundaryTag(tag) then
          match SplitFrom(rest[1..], [])
          case None => None
          case Some(tail) => Some([buf + [rest[0]]] + tail)
        else SplitFrom(rest[1..], buf + [rest[0]])
  }

  /** The segments of a token list, or None when the segmenter raises. */
  function Segments(tokens: seq<Node>): Option<seq<seq<Node>>>
  {
    SplitFrom(tokens, [])
  }

  function Concat(segs: seq<seq<Node>>): seq<Node>
  {
    if segs == [] then [] else segs[0] + Concat(segs[1..])
  }

  /**
   * Every segment is a non-empty run of tokens; a boundary tag occurs only as
   * the last token of a segment, and every segment but the last ends with one.
   */
  predicate WellCut(segs: seq<seq<Node>>)
  {
    forall k :: 0 <= k < |segs| ==>
      && segs[k] != []
      && AllLeaves(segs[k])
      && (forall j :: 0 <= j < |segs[k]| - 1 ==> !IsBoundaryTag(segs[k][j].tag))
      && (k < |segs| - 1 ==> IsBoundaryTag(segs[k][|segs[k]| - 1].tag))
  }

  /** Closing the open segment at a boundary token in front of well-cut segments keeps them well cut. */
  lemma CloseSegment(buf: seq<Node>, t: Node, tail: seq<seq<Node>>)
    requires AllLeaves(buf) && t.Leaf? && IsBoundaryTag(t.tag)
    requires forall j :: 0 <= j < |buf| ==> !IsBoundaryTag(buf[j].tag)
    requires WellCut(tail)
    ensures Concat([buf + [t]] + tail) == buf + [t] + Concat(tail)
    ensures WellCut([buf + [t]] + tail)
  {
    var segs := [buf + [t]] + tail;
    assert segs[1..] == tail;
    forall k | 0 <= k < |segs|
      ensures segs[k] != [] && AllLeaves(segs[k])
      ensures forall j :: 0 <= j < |segs[k]| - 1 ==> !IsBoundaryTag(segs[k][j].tag)
      ensures k < |segs| - 1 ==> IsBoundaryTag(segs[k][|segs[k]| - 1].tag)
    {
      if k > 0 {
        assert segs[k] == tail[k - 1];
      }
    }
  }

  lemma {:induction false} SplitFromCuts(rest: seq<Node>, buf: seq<Node>)
    requires AllLeaves(buf)
    requires forall j :: 0 <= j < |buf| ==> !IsBoundaryTag(buf[j].tag)
    ensures SplitFrom(rest, buf).Some? <==> AllLeaves(rest)
    ensures SplitFrom(rest, buf).Some? ==>
      Concat(SplitFrom(rest, buf).value) == buf + rest && WellCut(SplitFrom(rest, buf).value)
    decreases |rest|
  {
    if rest == [] {
      assert buf + rest == buf;
      if buf != [] {
        assert Concat([buf]) == buf + Concat([]);
      }
    } else {
      var t := rest[0];
      assert rest == [t] + rest[1..];
      assert AllLeaves(rest) <==> t.Leaf? && AllLeaves(rest[1..]);
      if t.Leaf? {
        if IsBoundaryTag(t.tag) {
          SplitFromCuts(rest[1..], []);
          if SplitFrom(rest[1..], []).Some? {
            var tail := SplitFrom(rest[1..], []).value;
            assert SplitFrom(rest, buf) == Some([buf + [t]] + tail);
            assert [] + rest[1..] == rest[1..];
            CloseSegment(buf, t, tail);
            assert (buf + [t]) + rest[1..] == buf + rest;
          }
        } else {
          var buf' := buf + [t];
          assert forall j :: 0 <= j < |buf'| ==> !IsBoundaryTag(buf'[j].tag);
          SplitFromCuts(rest[1..], buf');
          assert buf' + rest[1..] == buf + rest;
        }
      }
    }
  }

  /**
   * The segmenter's promise: it fails exactly when a chunk is among the
   * tokens; otherwise its segments concatenate back to the tokens and are
   * cut exactly after the boundary tags.
   */
  lemma SegmentsPartition(tokens: seq<Node>)
    ensures Segments(tokens).Some? <==> AllLeaves(tokens)
    ensures Segments(tokens).Some? ==>
      Concat(Segments(tokens).value) == tokens && WellCut(Segments(tokens).value)
  {
    SplitFromCuts(tokens, []);
    assert [] + tokens == tokens;
  }

  // ---------------------------------------------------------------- assembler

  /** `segment[k][1].startswith(p)`; the second element of a chunk is a list, which has no `startswith`. */
  function TagStartsWith(n: Node, p: string): Result<bool>
  {
    match n
    case Leaf(_, t) => Ok(StartsWith(t, p))
    case Chunk(_, _) => Err
  }

  /**
   * The `elif` chain that picks at most one builder for the token at `i`
   * (whose tag is `tag`); Err when one of its conditions raises, the
   * collaborator's tests included. Each test runs only when the arms before
   * it failed, as Python's `elif` and `and` evaluate them.
   */
  function Dispatch(c: Chunker, seg: seq<Node>, i: nat, tag: string): Result<Option<Phrase>>
    requires i < |seg|
  {
    var np :- c.isNp(tag);
    var prevIsIn :- if np && i != 0 then TagStartsWith(seg[i - 1], "IN") else Ok(false);
    if np && (i == 0 || !prevIsIn) then Ok(Some(NP))
    else
      var nextIsVb :- if MainTag(tag) != "VB" && tag in {"MOD-TEMP", "MOD-ACT"} && i + 1 < |seg|
                      then TagStartsWith(seg[i + 1], "VB") else Ok(false);
      if MainTag(tag) == "VB" || (tag in {"MOD-TEMP", "MOD-ACT"} && i + 1 < |seg| && nextIsVb) then Ok(Some(VP))
      else if StartsWith(tag, "IN") then Ok(Some(PP))
      else
        var adjp :- c.isAdjp(tag);
        if adjp && !StartsWith(tag, "MOD") then Ok(Some(AdjP))
        else
          var advp :- c.isAdvp(tag);
          if advp then Ok(Some(AdvP))
          else
            var wh :- c.isWh(tag);
            if wh then Ok(Some(Interrog)) else Ok(None)
  }

  /** The single-token fallback: connectors, interjections and symbols are wrapped, anything else is passed on raw. */
  function Fallback(tok: Node, tag: string): (r: Node)
    ensures Yield(r) == Yield(tok)
  {
    YieldsOne(tok);
    if MainTag(tag) == "CON" then Chunk("CONJ", [tok])
    else if MainTag(tag) == "INT" then Chunk("INTJ", [tok])
    else if MainTag(tag) == "SYM" then Chunk("PUNCT", [tok])
    else tok
  }

  /** One pass of the assembler's loop at position `i`: the element it appends and the next position. */
  function Step(c: Chunker, seg: seq<Node>, i: nat): (Node, int)
    requires i < |seg|
  {
    match seg[i]
    case Chunk(_, _) => (seg[i], i + 1)
    case Leaf(_, tag) =>
      match Dispatch(c, seg, i, tag)
      case Err => (seg[i], i + 1)
      case Ok(None) => (Fallback(seg[i], tag), i + 1)
      case Ok(Some(p)) =>
        match c.build(p, seg, i)
        case Raised => (seg[i], i + 1)
        case NoChunk => (Fallback(seg[i], tag), i + 1)
        case Built(chunk, next) => (chunk, next)
  }

  /** The elements the assembler appends for `seg`, starting at position `i`. */
  function AssembleFrom(c: Chunker, seg: seq<Node>, i: int): seq<Node>
    requires Advances(c)
    requires 0 <= i
    decreases if i < |seg| then |seg| - i else 0
  {
    if i >= |seg| then []
    else
      var (n, j) := Step(c, seg, i);
      StepAdvances(c, seg, i);
      [n] + AssembleFrom(c, seg, j)
  }

  function AssembleAll(c: Chunker, segs: seq<seq<Node>>): seq<Node>
    requires Advances(c)
  {
    if segs == [] then [] else AssembleFrom(c, segs[0], 0) + AssembleAll(c, segs[1..])
  }

  /** What `pre_parse_chunking` returns, or None when it raises. */
  function PreParse(c: Chunker, tokens: seq<Node>): Option<seq<Node>>
    requires Advances(c)
  {
    match Segments(tokens)
    case None => None
    case Some(segs) => Some(AssembleAll(c, segs))
  }

  /**
   * The first half of `pre_parse_chunking`: cuts the tokens into segments.
   * None stands for the exception that `token[1].startswith` raises on a chunk.
   */
  method SplitSegments(tokens: seq<Node>) returns (r: Option<seq<seq<Node>>>)
    ensures r == Segments(tokens)
  {
    var segments: seq<seq<Node>> := [];
    var buffer: seq<Node> := [];
    assert tokens[0..] == tokens;
    assert Prepend([], SplitFrom(tokens, [])) == SplitFrom(tokens, []) by {
      if SplitFrom(tokens, []).Some? {
        assert [] + SplitFrom(tokens, []).value == SplitFrom(tokens, []).value;
      }
    }
    for k := 0 to |tokens|
      invariant Segments(tokens) == Prepend(segments, SplitFrom(tokens[k..], buffer))
    {
      var token := tokens[k];
      ghost var rest := tokens[k..];
      assert rest[0] == token && rest[1..] == tokens[k + 1..];
      ghost var open := buffer;
      buffer := buffer + [token];
      match token {
        case Chunk(_, _) =>
          assert SplitFrom(rest, open) == None;
          return None;
        case Leaf(_, tag) =>
          if IsBoundaryTag(tag) {
            PrependTwice(segments, buffer, SplitFrom(tokens[k + 1..], []));
            segments := segments + [buffer];
            buffer := [];
          }
      }
    }
    if buffer != [] {
      segments := segments + [buffer];
      assert SplitFrom([], buffer) == Some([buffer]);
    } else {
      assert SplitFrom([], buffer) == Some([]);
      assert segments + [] == segments;
    }
    r := Some(segments);
  }

  /**
   * The body of the `try` at position `i`: the element appended and the
   * position the loop resumes at.
   */
  method ChunkAt(c: Chunker, segment: seq<Node>, i: nat) returns (n: Node, next: int)
    requires i < |segment|
    ensures (n, next) == Step(c, segment, i)
  {
    match segment[i] {
      case Chunk(_, _) =>
        return segment[i], i + 1;
      case Leaf(_, tag) =>
        var main := MainTag(tag);
        ghost var d := Dispatch(c, segment, i, tag);
        var raised := false;
        var outcome := NoChunk;
        var np := c.isNp(tag);
        var prevIsIn := if np.Ok? && np.value && i != 0 then TagStartsWith(segment[i - 1], "IN") else Ok(false);
        if np.Err? || prevIsIn.Err? {
          raised := true;
          assert d.Err?;
        } else if np.value && (i == 0 || !prevIsIn.value) {
          assert d == Ok(Some(NP));
          outcome := c.build(NP, segment, i);
        } else {
          var nextIsVb := if main != "VB" && tag in {"MOD-TEMP", "MOD-ACT"} && i + 1 < |segment|
                          then TagStartsWith(segment[i + 1], "VB") else Ok(false);
          if nextIsVb.Err? {
            raised := true;
            assert d.Err?;
          } else if main == "VB" || (tag in {"MOD-TEMP", "MOD-ACT"} && i + 1 < |segment| && nextIsVb.value) {
            assert d == Ok(Some(VP));
            outcome := c.build(VP, segment, i);
          } else if StartsWith(tag, "IN") {
            assert d == Ok(Some(PP));
            outcome := c.build(PP, segment, i);
          } else {
            var adjp := c.isAdjp(tag);
            if adjp.Err? {
              raised := true;
              assert d.Err?;
            } else if adjp.value && !StartsWith(tag, "MOD") {
              assert d == Ok(Some(AdjP));
              outcome := c.build(AdjP, segment, i);
            } else {
              var advp := c.isAdvp(tag);
              if advp.Err? {
                raised := true;
                assert d.Err?;
              } else if advp.value {
                assert d == Ok(Some(AdvP));
                outcome := c.build(AdvP, segment, i);
              } else {
                var wh := c.isWh(tag);
                if wh.Err? {
                  raised := true;
                  assert d.Err?;
                } else if wh.value {
                  assert d == Ok(Some(Interrog));
                  outcome := c.build(Interrog, segment, i);
                } else {
                  assert d == Ok(None);
                }
              }
            }
          }
        }
        assert raised <==> d.Err?;
        assert !raised ==> outcome == (if d.value.Some? then c.build(d.value.value, segment, i) else NoChunk);
        if raised || outcome.Raised? {
          // the `except` branch: the raw element, one position on
          n, next := segment[i], i + 1;
        } else if outcome.Built? {
          n, next := outcome.chunk, outcome.next;
        } else if main == "CON" {
          n, next := Chunk("CONJ", [segment[i]]), i + 1;
        } else if main == "INT" {
          n, next := Chunk("INTJ", [segment[i]]), i + 1;
        } else if main == "SYM" {
          n, next := Chunk("PUNCT", [segment[i]]), i + 1;
        } else {
          n, next := segment[i], i + 1;
        }
    }
  }

  /** The `while` loop over one segment: the elements it appends. */
  method AssembleSegment(c: Chunker, segment: seq<Node>) returns (out: seq<Node>)
    requires Advances(c)
    ensures out == AssembleFrom(c, segment, 0)
  {
    out := [];
    var i: int := 0;
    while i < |segment|
      invariant 0 <= i
      invariant out + AssembleFrom(c, segment, i) == AssembleFrom(c, segment, 0)
      decreases if i < |segment| then |segment| - i else 0
    {
      var n, next := ChunkAt(c, segment, i);
      StepAdvances(c, segment, i);
      assert AssembleFrom(c, segment, i) == [n] + AssembleFrom(c, segment, next);
      out := out + [n];
      i := next;
    }
    assert out + [] == out;
  }

  /**
   * `pre_parse_chunking`: cuts the tokens into segments, then walks each
   * segment, appending one element per step. None stands for the exception
   * the segmenter raises on a chunk.
   */
  method PreParseChunking(c: Chunker, tokens: seq<Node>) returns (r: Option<seq<Node>>)
    requires Advances(c)
    ensures r == PreParse(c, tokens)
  {
    var split := SplitSegments(tokens);
    if split.None? {
      assert PreParse(c, tokens) == None;
      return None;
    }
    var segments := split.value;
    var allChunks: seq<Node> := [];
    for s := 0 to |segments|
      invariant allChunks + AssembleAll(c, segments[s..]) == AssembleAll(c, segments)
    {
      assert segments[s..][1..] == segments[s + 1..];
      var chunks := AssembleSegment(c, segments[s]);
      allChunks := allChunks + chunks;
    }
    assert segments[|segments|..] == [];
    assert segments[0..] == segments;
    assert allChunks + [] == allChunks;
    assert PreParse(c, tokens) == Some(AssembleAll(c, segments));
    r := Some(allChunks);
  }

  function Prepend(done: seq<seq<Node>>, rest: Option<seq<seq<Node>>>): Option<seq<seq<Node>>>
  {
    match rest
    case None => None
    case Some(t) => Some(done + t)
  }

  lemma PrependTwice(done: seq<seq<Node>>, seg: seq<Node>, rest: Option<seq<seq<Node>>>)
    ensures Prepend(done, Prepend([seg], rest)) == Prepend(done + [seg], rest)
  {
    if rest.Some? {
      assert done + ([seg] + rest.value) == (done + [seg]) + rest.value;
    }
  }

  // ---------------------------------------------------------------- properties of one step

  /**
   * When the builder picked by the chain gives nothing back, or no condition
   * holds, the step appends the fallback wrapping of the token and moves on
   * by exactly one.
   */
  lemma StepFallback(c: Chunker, seg: seq<Node>, i: nat)
    requires i < |seg| && seg[i].Leaf?
    requires Dispatch(c, seg, i, seg[i].tag) == Ok(None) ||
             (Dispatch(c, seg, i, seg[i].tag).Ok? && Dispatch(c, seg, i, seg[i].tag).value.Some? &&
              c.build(Dispatch(c, seg, i, seg[i].tag).value.value, seg, i).NoChunk?)
    ensures Step(c, seg, i).1 == i + 1
    ensures var tag := seg[i].tag;
      Step(c, seg, i).0 ==
        if MainTag(tag) == "CON" then Chunk("CONJ", [seg[i]])
        else if MainTag(tag) == "INT" then Chunk("INTJ", [seg[i]])
        else if MainTag(tag) == "SYM" then Chunk("PUNCT", [seg[i]])
        else seg[i]
  {
  }

  /** When the chain's conditions or the builder raise, the step appends the raw element and moves on by one. */
  lemma StepRaised(c: Chunker, seg: seq<Node>, i: nat)
    requires i < |seg| && seg[i].Leaf?
    requires Dispatch(c, seg, i, seg[i].tag).Err? ||
             (Dispatch(c, seg, i, seg[i].tag).Ok? && Dispatch(c, seg, i, seg[i].tag).value.Some? &&
              c.build(Dispatch(c, seg, i, seg[i].tag).value.value, seg, i).Raised?)
    ensures Step(c, seg, i) == (seg[i], i + 1)
  {
  }

  /**
   * The step consults one builder only: two collaborators whose predicates
   * agree on the tag and whose chosen builder agrees at `i` give the same step.
   */
  lemma StepConsultsOneBuilder(c: Chunker, d: Chunker, seg: seq<Node>, i: nat)
    requires i < |seg| && seg[i].Leaf?
    requires var t := seg[i].tag;
      c.isNp(t) == d.isNp(t) && c.isAdjp(t) == d.isAdjp(t) &&
      c.isAdvp(t) == d.isAdvp(t) && c.isWh(t) == d.isWh(t)
    requires var o := Dispatch(c, seg, i, seg[i].tag);
      o.Ok? && o.value.Some? ==> c.build(o.value.value, seg, i) == d.build(o.value.value, seg, i)
    ensures Step(c, seg, i) == Step(d, seg, i)
  {
    SameDispatch(c, d, seg, i, seg[i].tag);
  }

  lemma SameDispatch(c: Chunker, d: Chunker, seg: seq<Node>, i: nat, t: string)
    requires i < |seg|
    requires c.isNp(t) == d.isNp(t) && c.isAdjp(t) == d.isAdjp(t)
    requires c.isAdvp(t) == d.isAdvp(t) && c.isWh(t) == d.isWh(t)
    ensures Dispatch(c, seg, i, t) == Dispatch(d, seg, i, t)
  {
  }

  /** Termination: each step moves strictly forward. */
  lemma StepAdvances(c: Chunker, seg: seq<Node>, i: nat)
    requires Advances(c)
    requires i < |seg|
    ensures Step(c, seg, i).1 > i
  {
  }

  // ---------------------------------------------------------------- coverage

  /** Under the builders' covering contract, one step appends an element holding exactly the tokens it moves over. */
  lemma StepCovers(c: Chunker, seg: seq<Node>, i: nat)
    requires Covers(c)
    requires i < |seg|
    ensures i < Step(c, seg, i).1 <= |seg|
    ensures Yield(Step(c, seg, i).0) == Yields(seg[i..Step(c, seg, i).1])
  {
    var (n, j) := Step(c, seg, i);
    if j == i + 1 {
      assert seg[i..i + 1] == [seg[i]];
      YieldsOne(seg[i]);
    }
  }

  /** The assembler appends one step's element, then goes on from where the step left off. */
  lemma AssembleFromUnfold(c: Chunker, seg: seq<Node>, i: nat)
    requires Advances(c)
    requires i < |seg|
    ensures AssembleFrom(c, seg, i) == [Step(c, seg, i).0] + AssembleFrom(c, seg, Step(c, seg, i).1)
  {
  }

  /** An element holding a run of tokens, then elements holding the rest, hold the run followed by the rest. */
  lemma YieldsCons(n: Node, more: seq<Node>, run: seq<Node>, rest: seq<Node>)
    requires Yield(n) == Yields(run) && Yields(more) == Yields(rest)
    ensures Yields([n] + more) == Yields(run + rest)
  {
    YieldsAppend([n], more);
    assert Yields([n]) == Yield(n) + Yields([]);
    YieldsAppend(run, rest);
  }

  /** Under the builders' covering contract, the assembled elements of a segment hold exactly its tokens. */
  lemma {:induction false} AssembleFromCovers(c: Chunker, seg: seq<Node>, i: int)
    requires Covers(c)
    requires 0 <= i <= |seg|
    ensures Advances(c)
    ensures Yields(AssembleFrom(c, seg, i)) == Yields(seg[i..])
    decreases |seg| - i
  {
    CoversAdvances(c);
    if i < |seg| {
      var (n, j) := Step(c, seg, i);
      StepCovers(c, seg, i);
      AssembleFromUnfold(c, seg, i);
      AssembleFromCovers(c, seg, j);
      assert seg[i..] == seg[i..j] + seg[j..];
      YieldsCons(n, AssembleFrom(c, seg, j), seg[i..j], seg[j..]);
    } else {
      assert seg[i..] == [];
    }
  }

  lemma {:induction false} AssembleAllCovers(c: Chunker, segs: seq<seq<Node>>)
    requires Covers(c)
    ensures Advances(c)
    ensures Yields(AssembleAll(c, segs)) == Yields(Concat(segs))
    decreases |segs|
  {
    CoversAdvances(c);
    if segs != [] {
      AssembleFromCovers(c, segs[0], 0);
      assert segs[0][0..] == segs[0];
      AssembleAllCovers(c, segs[1..]);
      YieldsAppend(AssembleFrom(c, segs[0], 0), AssembleAll(c, segs[1..]));
      YieldsAppend(segs[0], Concat(segs[1..]));
    }
  }

  /**
   * Coverage: when the builders cover what they skip, `pre_parse_chunking`
   * either raises or returns elements whose leaves, in order, are the input
   * tokens, each exactly once.
   */
  lemma PreParseCovers(c: Chunker, tokens: seq<Node>)
    requires Covers(c)
    ensures Advances(c)
    ensures PreParse(c, tokens).Some? <==> AllLeaves(tokens)
    ensures PreParse(c, tokens).Some? ==> Yields(PreParse(c, tokens).value) == tokens
  {
    CoversAdvances(c);
    SegmentsPartition(tokens);
    if Segments(tokens).Some? {
      AssembleAllCovers(c, Segments(tokens).value);
      YieldsOfLeaves(tokens);
    }
  }
}
