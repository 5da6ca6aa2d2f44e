/**
 * The part-of-speech ambiguity pass (`Handleambiguity.handle` and
 * `handle_demonstrative_disambiguation`): one left-to-right pass that tries
 * seven lexically keyed triggers on each word, then a pass that settles the
 * demonstratives `ini`, `itu` and `tersebut`.
 */
module Disambiguation {
  import opened Wrappers
  import opened Text
  import opened Handlers

  const Demonstratives: set<string> := {"itu", "ini", "tersebut", "demikian"}
  const MassNouns: set<string> := {"air", "tepung", "gula", "beras"}
  const Subordinators: set<string> := {"sejak", "hingga", "selama", "sewaktu"}
  const Emphatics: set<string> := {"malah", "justru"}
  const Degrees: set<string> := {"sedikit", "lumayan"}
  /** The words the final pass settles; `demikian` is not among them. */
  const FinalDemonstratives: set<string> := {"ini", "itu", "tersebut"}

  /** The number of triggers tried on each word. */
  const TriggerCount := 7

  /** Trigger `k` (in the order they are tried) applies to a word lower-cased to `low` and tagged `tag`. */
  predicate Applies(k: nat, low: string, tag: string)
  {
    if k == 0 then tag == "PRP-DEM" && low in Demonstratives
    else if k == 1 then StartsWith(tag, "NN") && low in MassNouns
    else if k == 2 then low == "sama"
    else if k == 3 then low == "baik"
    else if k == 4 then low in Subordinators
    else if k == 5 then low in Emphatics
    else k == 6 && low in Degrees
  }

  /**
   * The answer of trigger `k`'s handler (None for Python's `None`) and the
   * buffer after the handler's own stores, which touch `idx` only.
   */
  function Fire(k: nat, token: string, idx: nat, buf: seq<Entry>): (r: Result<(Option<string>, seq<Entry>)>)
    requires idx < |buf|
    ensures r.Ok? ==> |r.value.1| == |buf| && forall j :: 0 <= j < |buf| && j != idx ==> r.value.1[j] == buf[j]
  {
    if k == 0 then
      var v :- PrpDem(token, idx, buf);
      Ok((Some(v.0), buf[idx := v.1]))
    else if k == 1 then
      var t :- MassVsCommon(idx, buf);
      Ok((Some(t), buf))
    else if k == 2 then
      var t :- Sama(idx, buf);
      Ok((Some(t), buf[idx := Tag(t)]))
    else if k == 3 then
      Ok((JjqualityVsConjunctions(idx, buf), buf))
    else if k == 4 then
      var t :- ConsubVsIntemp(idx, buf);
      Ok((Some(t), buf))
    else if k == 5 then
      var o :- ModemphVsModasp(idx, buf);
      Ok((o, buf))
    else
      var o :- AdvVsDtVsJj(idx, buf);
      Ok((o, buf))
  }

  /** `answer and answer != tag`: a non-empty answer different from the word's incoming tag. */
  predicate Resolves(answer: Option<string>, tag: string)
  {
    answer.Some? && answer.value != "" && answer.value != tag
  }

  /**
   * Trigger `k` on the word at `idx`: nothing when it does not apply;
   * otherwise its handler runs, and a resolving answer is stored at `idx`.
   * The result is the buffer and whether the word was resolved.
   */
  function TryTrigger(k: nat, token: string, tag: string, idx: nat, buf: seq<Entry>): (r: Result<(seq<Entry>, bool)>)
    requires idx < |buf|
    ensures r.Ok? ==> |r.value.0| == |buf| && forall j :: 0 <= j < |buf| && j != idx ==> r.value.0[j] == buf[j]
  {
    if !Applies(k, Lower(token), tag) then Ok((buf, false))
    else
      var fired :- Fire(k, token, idx, buf);
      if Resolves(fired.0, tag) then Ok((fired.1[idx := Tag(fired.0.value)], true))
      else Ok((fired.1, false))
  }

  /**
   * The triggers `k..` in order: the first that resolves the word ends the
   * visit; one that does not keeps its handler's stores and lets the later
   * ones be tried.
   */
  function TriggersFrom(token: string, tag: string, idx: nat, buf: seq<Entry>, k: nat): (r: Result<(seq<Entry>, bool)>)
    requires idx < |buf| && k <= TriggerCount
    ensures r.Ok? ==> |r.value.0| == |buf| && forall j :: 0 <= j < |buf| && j != idx ==> r.value.0[j] == buf[j]
    decreases TriggerCount - k
  {
    if k == TriggerCount then Ok((buf, false))
    else
      var t :- TryTrigger(k, token, tag, idx, buf);
      if t.1 then Ok(t) else TriggersFrom(token, tag, idx, t.0, k + 1)
  }

  /** One iteration of `handle`'s first loop on the word `(token, tag)` at `idx`. */
  function VisitOutcome(token: string, tag: string, idx: nat, buf: seq<Entry>): Result<(seq<Entry>, bool)>
    requires idx < |buf|
  {
    TriggersFrom(token, tag, idx, buf, 0)
  }

  /** The first loop of `handle` from word `idx` on. */
  function FirstPassFrom(input: seq<(string, string)>, buf: seq<Entry>, idx: nat): (r: Result<seq<Entry>>)
    requires |buf| == |input| && idx <= |input|
    ensures r.Ok? ==> |r.value| == |buf| && forall j :: 0 <= j < idx ==> r.value[j] == buf[j]
    decreases |input| - idx
  {
    if idx == |input| then Ok(buf)
    else
      var v :- VisitOutcome(input[idx].0, input[idx].1, idx, buf);
      FirstPassFrom(input, v.0, idx + 1)
  }

  function Tokens(input: seq<(string, string)>): (r: seq<string>)
    ensures |r| == |input| && forall k :: 0 <= k < |input| ==> r[k] == input[k].0
  {
    seq(|input|, k requires 0 <= k < |input| => input[k].0)
  }

  function InitialTags(input: seq<(string, string)>): (r: seq<Entry>)
    ensures |r| == |input| && forall k :: 0 <= k < |input| ==> r[k] == Tag(input[k].1)
  {
    seq(|input|, k requires 0 <= k < |input| => Tag(input[k].1))
  }

  /** The buffer after the first loop, or Err when a handler raised. */
  function FirstPass(input: seq<(string, string)>): (r: Result<seq<Entry>>)
    ensures r.Ok? ==> |r.value| == |input|
  {
    FirstPassFrom(input, InitialTags(input), 0)
  }

  /**
   * The demonstrative pass from word `i` on: a word of the final set becomes
   * `DT-DEF` when the next entry starts with `NN` or `JJ`, unless the
   * previous entry (already settled by this pass) starts with `VB` or `IN`;
   * otherwise `PRP-DEM`. Reading a pair raises.
   */
  function DemFrom(tokens: seq<string>, buf: seq<Entry>, i: nat): (r: Result<seq<Entry>>)
    requires |buf| == |tokens| && i <= |tokens|
    ensures r.Ok? ==> |r.value| == |buf| && forall j :: 0 <= j < i ==> r.value[j] == buf[j]
    decreases |tokens| - i
  {
    if i == |tokens| then Ok(buf)
    else if Lower(tokens[i]) !in FinalDemonstratives then DemFrom(tokens, buf, i + 1)
    else
      var nextDefines :-
        if i + 1 < |tokens| then
          var next := if i + 1 < |buf| then buf[i + 1] else Tag("");
          var noun :- Sw(next, "NN");
          if noun then Ok(true) else Sw(next, "JJ")
        else Ok(false);
      var prevBlocks :-
        if i > 0 then
          var verb :- Sw(buf[i - 1], "VB");
          if verb then Ok(true) else Sw(buf[i - 1], "IN")
        else Ok(false);
      var tag := if prevBlocks then "PRP-DEM" else if nextDefines then "DT-DEF" else "PRP-DEM";
      DemFrom(tokens, buf[i := Tag(tag)], i + 1)
  }

  function Zip(tokens: seq<string>, tags: seq<Entry>): (r: seq<(string, Entry)>)
    requires |tokens| == |tags|
    ensures |r| == |tokens| && forall k :: 0 <= k < |tokens| ==> r[k] == (tokens[k], tags[k])
  {
    seq(|tokens|, k requires 0 <= k < |tokens| => (tokens[k], tags[k]))
  }

  /** What `handle` returns, or Err when it raises. */
  function HandleSpec(input: seq<(string, string)>): Result<seq<(string, Entry)>>
  {
    var tags :- FirstPass(input);
    var settled :- DemFrom(Tokens(input), tags, 0);
    Ok(Zip(Tokens(input), settled))
  }

  // ------------------------------------------------------------------ methods

  /**
   * One `if` block of `handle`'s first loop: trigger `k`'s lexical test, its
   * handler, and the store of a resolving answer.
   */
  method ApplyTrigger(k: nat, token: string, tag: string, idx: nat, posTags: array<Entry>) returns (r: Result<bool>)
    requires k < TriggerCount && idx < posTags.Length
    modifies posTags
    ensures var spec := TryTrigger(k, token, tag, idx, old(posTags[..]));
      && (r.Ok? <==> spec.Ok?)
      && (r.Ok? ==> posTags[..] == spec.value.0 && r.value == spec.value.1)
  {
    if !Applies(k, Lower(token), tag) {
      return Ok(false);
    }
    var answer: Option<string>;
    if k == 0 {
      var res := HandlePrpDemVsDtDef(token, idx, posTags);
      if res.Err? {
        return Err;
      }
      answer := Some(res.value);
    } else if k == 2 {
      var res := HandleSama(idx, posTags);
      if res.Err? {
        return Err;
      }
      answer := Some(res.value);
    } else {
      // the other five handlers only read the buffer
      var res := Fire(k, token, idx, posTags[..]);
      if res.Err? {
        return Err;
      }
      answer := res.value.0;
    }
    if answer.Some? && answer.value != "" && answer.value != tag {
      posTags[idx] := Tag(answer.value);
      return Ok(true);
    }
    return Ok(false);
  }

  /**
   * The body of `handle`'s first loop for the word at `idx`: the seven
   * triggers in order, storing into the buffer; the answer says whether the
   * word was resolved.
   */
  method Visit(token: string, tag: string, idx: nat, posTags: array<Entry>) returns (r: Result<bool>)
    requires idx < posTags.Length
    modifies posTags
    ensures var spec := VisitOutcome(token, tag, idx, old(posTags[..]));
      && (r.Ok? <==> spec.Ok?)
      && (r.Ok? ==> posTags[..] == spec.value.0 && r.value == spec.value.1)
  {
    ghost var spec := VisitOutcome(token, tag, idx, posTags[..]);
    var demonstrative := ApplyTrigger(0, token, tag, idx, posTags);
    if demonstrative.Err? {
      return Err;
    }
    if demonstrative.value {
      return Ok(true);
    }
    assert spec == TriggersFrom(token, tag, idx, posTags[..], 1);
    var massNoun := ApplyTrigger(1, token, tag, idx, posTags);
    if massNoun.Err? {
      return Err;
    }
    if massNoun.value {
      return Ok(true);
    }
    assert spec == TriggersFrom(token, tag, idx, posTags[..], 2);
    var sama := ApplyTrigger(2, token, tag, idx, posTags);
    if sama.Err? {
      return Err;
    }
    if sama.value {
      return Ok(true);
    }
    assert spec == TriggersFrom(token, tag, idx, posTags[..], 3);
    var baik := ApplyTrigger(3, token, tag, idx, posTags);
    if baik.Err? {
      return Err;
    }
    if baik.value {
      return Ok(true);
    }
    assert spec == TriggersFrom(token, tag, idx, posTags[..], 4);
    var subordinator := ApplyTrigger(4, token, tag, idx, posTags);
    if subordinator.Err? {
      return Err;
    }
    if subordinator.value {
      return Ok(true);
    }
    assert spec == TriggersFrom(token, tag, idx, posTags[..], 5);
    var emphatic := ApplyTrigger(5, token, tag, idx, posTags);
    if emphatic.Err? {
      return Err;
    }
    if emphatic.value {
      return Ok(true);
    }
    assert spec == TriggersFrom(token, tag, idx, posTags[..], 6);
    var degree := ApplyTrigger(6, token, tag, idx, posTags);
    if degree.Err? {
      return Err;
    }
    if degree.value {
      return Ok(true);
    }
    assert spec == TriggersFrom(token, tag, idx, posTags[..], 7);
    return Ok(false);
  }

  /**
   * `handle_demonstrative_disambiguation` on the buffer, settling each
   * demonstrative in place; Err when it reads a pair.
   */
  method DemonstrativeDisambiguation(tokens: seq<string>, tags: array<Entry>) returns (r: Result<seq<Entry>>)
    requires tags.Length == |tokens|
    modifies tags
    ensures r == DemFrom(tokens, old(tags[..]), 0)
    ensures r.Ok? ==> tags[..] == r.value
  {
    for i := 0 to |tokens|
      invariant DemFrom(tokens, old(tags[..]), 0) == DemFrom(tokens, tags[..], i)
    {
      if Lower(tokens[i]) in FinalDemonstratives {
        var tag := "PRP-DEM";
        if i + 1 < |tokens| {
          var next := if i + 1 < tags.Length then tags[i + 1] else Tag("");
          if next.Pair? {
            return Err;
          }
          if StartsWith(next.value, "NN") || StartsWith(next.value, "JJ") {
            tag := "DT-DEF";
          }
        }
        if i > 0 {
          var prev := tags[i - 1];
          if prev.Pair? {
            return Err;
          }
          if StartsWith(prev.value, "VB") || StartsWith(prev.value, "IN") {
            tag := "PRP-DEM";
          }
        }
        tags[i] := Tag(tag);
      }
    }
    return Ok(tags[..]);
  }

  /**
   * `handle`: the first loop over the words, then the demonstrative pass,
   * then the words zipped with the buffer. A word is skipped when its index
   * is among the resolved ones, but only indices already passed ever are.
   */
  method Handle(input: seq<(string, string)>) returns (r: Result<seq<(string, Entry)>>)
    ensures r == HandleSpec(input)
  {
    var tokens := seq(|input|, k requires 0 <= k < |input| => input[k].0);
    var posTags := new Entry[|input|](k requires 0 <= k < |input| => Tag(input[k].1));
    assert posTags[..] == InitialTags(input);
    var fixedIndices: set<nat> := {};
    for idx := 0 to |input|
      invariant posTags.Length == |input|
      invariant forall j :: j in fixedIndices ==> j < idx
      invariant FirstPass(input) == FirstPassFrom(input, posTags[..], idx)
    {
      if idx in fixedIndices {
        continue;
      }
      var res := Visit(input[idx].0, input[idx].1, idx, posTags);
      if res.Err? {
        return Err;
      }
      if res.value {
        fixedIndices := fixedIndices + {idx};
      }
    }
    assert tokens == Tokens(input);
    var settled := DemonstrativeDisambiguation(tokens, posTags);
    if settled.Err? {
      return Err;
    }
    return Ok(Zip(tokens, posTags[..]));
  }
}
