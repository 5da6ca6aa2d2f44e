/** What the ambiguity pass promises, proved about its model. */
module DisambiguationFacts {
  import opened Wrappers
  import opened Text
  import opened Handlers
  import opened Disambiguation

  /** Every word some trigger is keyed on. */
  const TriggerWords: set<string> := {
    "itu", "ini", "tersebut", "demikian", "air", "tepung", "gula", "beras", "sama", "baik",
    "sejak", "hingga", "selama", "sewaktu", "malah", "justru", "sedikit", "lumayan"}

  /** The trigger words are exactly the words of the seven lexical sets. */
  lemma TriggerWordsAreLexicalSets()
    ensures TriggerWords == Demonstratives + MassNouns + {"sama", "baik"} + Subordinators + Emphatics + Degrees
  {
  }

  /** At most one trigger applies to a word: the lexical sets do not overlap. */
  lemma TriggersExclusive(low: string, tag: string, k1: nat, k2: nat)
    requires k1 < k2 < TriggerCount
    ensures !(Applies(k1, low, tag) && Applies(k2, low, tag))
  {
  }

  /** A trigger applies only to a trigger word. */
  lemma AppliesOnlyToTriggerWords(k: nat, low: string, tag: string)
    requires Applies(k, low, tag)
    ensures low in TriggerWords
  {
  }

  /** A word no trigger is keyed on leaves the buffer as it is. */
  lemma {:induction false} TriggersFromSkip(token: string, tag: string, idx: nat, buf: seq<Entry>, k: nat)
    requires idx < |buf| && k <= TriggerCount
    requires Lower(token) !in TriggerWords
    ensures TriggersFrom(token, tag, idx, buf, k) == Ok((buf, false))
    decreases TriggerCount - k
  {
    if k < TriggerCount {
      if Applies(k, Lower(token), tag) {
        AppliesOnlyToTriggerWords(k, Lower(token), tag);
      }
      TriggersFromSkip(token, tag, idx, buf, k + 1);
    }
  }

  // ---------------------------------------------------- nothing else changes

  /** The first loop changes an entry only at a trigger word. */
  lemma {:induction false} FirstPassFrame(input: seq<(string, string)>, buf: seq<Entry>, idx: nat)
    requires |buf| == |input| && idx <= |input|
    ensures var r := FirstPassFrom(input, buf, idx);
      r.Ok? ==> forall j :: idx <= j < |input| && Lower(input[j].0) !in TriggerWords ==> r.value[j] == buf[j]
    decreases |input| - idx
  {
    if idx < |input| {
      var v := VisitOutcome(input[idx].0, input[idx].1, idx, buf);
      if v.Ok? {
        FirstPassFrame(input, v.value.0, idx + 1);
        if Lower(input[idx].0) !in TriggerWords {
          TriggersFromSkip(input[idx].0, input[idx].1, idx, buf, 0);
        }
      }
    }
  }

  /** The demonstrative pass changes an entry only at `ini`, `itu` or `tersebut`. */
  lemma {:induction false} DemFromFrame(tokens: seq<string>, buf: seq<Entry>, i: nat)
    requires |buf| == |tokens| && i <= |tokens|
    ensures var r := DemFrom(tokens, buf, i);
      r.Ok? ==> forall j :: i <= j < |tokens| && Lower(tokens[j]) !in FinalDemonstratives ==> r.value[j] == buf[j]
    decreases |tokens| - i
  {
    if i < |tokens| {
      if Lower(tokens[i]) !in FinalDemonstratives {
        DemFromFrame(tokens, buf, i + 1);
      } else if DemFrom(tokens, buf, i).Ok? {
        var t := DemFrom(tokens, buf, i).value[i];
        assert t.Tag?;
        DemFromFrame(tokens, buf[i := t], i + 1);
      }
    }
  }

  /**
   * `handle` returns one pair per input pair, with the same words in the
   * same order, and changes the tag of a word only when the lower-cased word
   * is one the triggers are keyed on.
   */
  lemma HandleKeepsShape(input: seq<(string, string)>)
    ensures var r := HandleSpec(input);
      r.Ok? ==>
        && |r.value| == |input|
        && (forall k :: 0 <= k < |input| ==> r.value[k].0 == input[k].0)
        && (forall k :: 0 <= k < |input| && Lower(input[k].0) !in TriggerWords ==> r.value[k].1 == Tag(input[k].1))
  {
    var first := FirstPass(input);
    if first.Ok? {
      FirstPassFrame(input, InitialTags(input), 0);
      DemFromFrame(Tokens(input), first.value, 0);
    }
  }

  // ---------------------------------------------------- the demonstrative handler

  /**
   * The demonstrative trigger never resolves its word: the handler answers
   * `PRP-DEM`, which is the word's own tag, so the visit ends with the pair
   * `(token, "PRP-DEM")` stored at the word and no other trigger applies.
   */
  lemma VisitDemonstrative(token: string, idx: nat, buf: seq<Entry>)
    requires idx < |buf| && Lower(token) in Demonstratives && PairsArePrpDem(buf)
    ensures VisitOutcome(token, "PRP-DEM", idx, buf) ==
      if PrpDem(token, idx, buf).Ok? then Ok((buf[idx := Pair(token, "PRP-DEM")], false)) else Err
  {
    PrpDemAlwaysPrpDem(token, idx, buf);
    if PrpDem(token, idx, buf).Ok? {
      var after := buf[idx := Pair(token, "PRP-DEM")];
      assert TryTrigger(0, token, "PRP-DEM", idx, buf) == Ok((after, false));
      forall k | 1 <= k < TriggerCount
        ensures !Applies(k, Lower(token), "PRP-DEM")
      {
        TriggersExclusive(Lower(token), "PRP-DEM", 0, k);
      }
      TriggersFromNone(token, "PRP-DEM", idx, after, 1);
    }
  }

  lemma {:induction false} TriggersFromNone(token: string, tag: string, idx: nat, buf: seq<Entry>, k: nat)
    requires idx < |buf| && k <= TriggerCount
    requires forall m :: k <= m < TriggerCount ==> !Applies(m, Lower(token), tag)
    ensures TriggersFrom(token, tag, idx, buf, k) == Ok((buf, false))
    decreases TriggerCount - k
  {
    if k < TriggerCount {
      TriggersFromNone(token, tag, idx, buf, k + 1);
    }
  }

  /** A visit stores no pair other than `(token, "PRP-DEM")`. */
  lemma {:induction false} TriggersFromKeepsPairs(token: string, tag: string, idx: nat, buf: seq<Entry>, k: nat)
    requires idx < |buf| && k <= TriggerCount && PairsArePrpDem(buf)
    ensures var v := TriggersFrom(token, tag, idx, buf, k);
      v.Ok? ==> PairsArePrpDem(v.value.0)
    decreases TriggerCount - k
  {
    if k < TriggerCount {
      var t := TryTrigger(k, token, tag, idx, buf);
      if t.Ok? {
        if k == 0 && Applies(0, Lower(token), tag) {
          PrpDemAlwaysPrpDem(token, idx, buf);
        }
        assert PairsArePrpDem(t.value.0) by {
          forall j | 0 <= j < |buf| && t.value.0[j].Pair?
            ensures t.value.0[j].tag == "PRP-DEM"
          {
            if j != idx {
              assert t.value.0[j] == buf[j];
            }
          }
        }
        if !t.value.1 {
          TriggersFromKeepsPairs(token, tag, idx, t.value.0, k + 1);
        }
      }
    }
  }

  /** Every pair the first loop stores carries `PRP-DEM`. */
  lemma {:induction false} FirstPassKeepsPairs(input: seq<(string, string)>, buf: seq<Entry>, idx: nat)
    requires |buf| == |input| && idx <= |input| && PairsArePrpDem(buf)
    ensures var r := FirstPassFrom(input, buf, idx);
      r.Ok? ==> PairsArePrpDem(r.value)
    decreases |input| - idx
  {
    if idx < |input| {
      var v := VisitOutcome(input[idx].0, input[idx].1, idx, buf);
      if v.Ok? {
        TriggersFromKeepsPairs(input[idx].0, input[idx].1, idx, buf, 0);
        FirstPassKeepsPairs(input, v.value.0, idx + 1);
      }
    }
  }

  /**
   * After the first loop every demonstrative (including `demikian`) that
   * came in as `PRP-DEM` holds the pair `(token, "PRP-DEM")`.
   */
  lemma {:induction false} FirstPassLeavesPairs(input: seq<(string, string)>, buf: seq<Entry>, idx: nat)
    requires |buf| == |input| && idx <= |input| && PairsArePrpDem(buf)
    ensures var r := FirstPassFrom(input, buf, idx);
      r.Ok? ==> forall j :: idx <= j < |input| && input[j].1 == "PRP-DEM" && Lower(input[j].0) in Demonstratives ==>
        r.value[j] == Pair(input[j].0, "PRP-DEM")
    decreases |input| - idx
  {
    if idx < |input| {
      var token := input[idx].0;
      var v := VisitOutcome(token, input[idx].1, idx, buf);
      if v.Ok? {
        var after := v.value.0;
        TriggersFromKeepsPairs(token, input[idx].1, idx, buf, 0);
        FirstPassLeavesPairs(input, after, idx + 1);
        var r := FirstPassFrom(input, after, idx + 1);
        assert FirstPassFrom(input, buf, idx) == r;
        if r.Ok? && input[idx].1 == "PRP-DEM" && Lower(token) in Demonstratives {
          VisitDemonstrative(token, idx, buf);
          assert r.value[idx] == after[idx];
        }
      }
    }
  }

  /**
   * `demikian` is a demonstrative for the first loop but not for the final
   * pass, so the pair `(token, "PRP-DEM")` the handler stored for it is
   * what `handle` returns as its tag.
   */
  lemma DemikianKeepsPair(input: seq<(string, string)>, k: nat)
    requires k < |input| && input[k].1 == "PRP-DEM" && Lower(input[k].0) == "demikian"
    ensures HandleSpec(input).Ok? ==> HandleSpec(input).value[k] == (input[k].0, Pair(input[k].0, "PRP-DEM"))
  {
    var first := FirstPass(input);
    if first.Ok? {
      FirstPassLeavesPairs(input, InitialTags(input), 0);
      DemFromFrame(Tokens(input), first.value, 0);
    }
  }

  // ---------------------------------------------------- the demonstrative pass

  /** A next entry that makes a demonstrative definite: a tag starting with `NN` or `JJ`. */
  predicate Defines(e: Entry)
  {
    e.Tag? && (StartsWith(e.value, "NN") || StartsWith(e.value, "JJ"))
  }

  /** A previous entry that keeps a demonstrative pronominal: a tag starting with `VB` or `IN`. */
  predicate Blocks(e: Entry)
  {
    e.Tag? && (StartsWith(e.value, "VB") || StartsWith(e.value, "IN"))
  }

  /** The tag the final pass gives the demonstrative at `j`, from the entry after it before the pass and the one before it after. */
  function Settled(before: seq<Entry>, after: seq<Entry>, j: nat): string
    requires j < |before| && j <= |after|
  {
    if j + 1 < |before| && Defines(before[j + 1]) && !(j > 0 && Blocks(after[j - 1])) then "DT-DEF" else "PRP-DEM"
  }

  lemma {:induction false} DemFromSettles(tokens: seq<string>, buf: seq<Entry>, i: nat)
    requires |buf| == |tokens| && i <= |tokens|
    ensures var r := DemFrom(tokens, buf, i);
      r.Ok? ==> forall j :: i <= j < |tokens| && Lower(tokens[j]) in FinalDemonstratives ==>
        r.value[j] == Tag(Settled(buf, r.value, j))
    decreases |tokens| - i
  {
    if i < |tokens| {
      var r := DemFrom(tokens, buf, i);
      if Lower(tokens[i]) !in FinalDemonstratives {
        DemFromSettles(tokens, buf, i + 1);
      } else if r.Ok? {
        var t := r.value[i];
        var buf' := buf[i := t];
        assert r == DemFrom(tokens, buf', i + 1);
        DemFromSettles(tokens, buf', i + 1);
        assert t == Tag(Settled(buf, r.value, i)) by {
          if i > 0 {
            assert r.value[i - 1] == buf[i - 1];
            assert buf[i - 1].Tag?;
          }
          if i + 1 < |tokens| {
            assert buf[i + 1].Tag?;
          }
        }
        forall j | i < j < |tokens| && Lower(tokens[j]) in FinalDemonstratives
          ensures r.value[j] == Tag(Settled(buf, r.value, j))
        {
          if j + 1 < |tokens| {
            assert buf'[j + 1] == buf[j + 1];
          }
        }
      }
    }
  }

  /**
   * After `handle`, each `ini`, `itu` or `tersebut` is `PRP-DEM` or
   * `DT-DEF`: `DT-DEF` exactly when the next word's tag after the first loop
   * starts with `NN` or `JJ` and the previous word's returned tag does not
   * start with `VB` or `IN`.
   */
  lemma HandleSettlesDemonstratives(input: seq<(string, string)>)
    ensures var r := HandleSpec(input);
      r.Ok? ==> FirstPass(input).Ok? && forall j :: 0 <= j < |input| && Lower(input[j].0) in FinalDemonstratives ==>
        r.value[j].1 == Tag(
          if j + 1 < |input| && Defines(FirstPass(input).value[j + 1]) && !(j > 0 && Blocks(r.value[j - 1].1))
          then "DT-DEF" else "PRP-DEM")
  {
    var first := FirstPass(input);
    if first.Ok? {
      var tokens := Tokens(input);
      DemFromSettles(tokens, first.value, 0);
    }
  }

  // ---------------------------------------------------- examples

  /**
   * A demonstrative opening the sentence, followed by tags of two characters
   * or more: its visit stores the pair `(token, "PRP-DEM")` and goes on.
   */
  lemma FirstDemonstrativeVisit(token: string, b0: seq<Entry>)
    requires Lower(token) in Demonstratives
    requires |b0| >= 1 && b0[0] == Tag("PRP-DEM")
    requires forall j :: 0 <= j < |b0| ==> b0[j].Tag? && (j > 0 ==> |b0[j].value| >= 2)
    ensures VisitOutcome(token, "PRP-DEM", 0, b0) == Ok((b0[0 := Pair(token, "PRP-DEM")], false))
  {
    PrpDemFails(token, 0, b0);
    VisitDemonstrative(token, 0, b0);
  }

  // The words of the examples, lower-cased, and the sets they fall in.

  lemma ItuWord()
    ensures Lower("itu") == "itu" && "itu" in Demonstratives && "itu" in FinalDemonstratives
  {
    LowerOfLowercase("itu");
  }

  lemma DemikianWord()
    ensures Lower("demikian") == "demikian" && "demikian" in Demonstratives && "demikian" !in FinalDemonstratives
  {
    LowerOfLowercase("demikian");
  }

  lemma SedikitWord()
    ensures Lower("sedikit") == "sedikit" && "sedikit" in Degrees
  {
    LowerOfLowercase("sedikit");
  }

  lemma SamaWord()
    ensures Lower("sama") == "sama" && "sama" !in FinalDemonstratives
  {
    LowerOfLowercase("sama");
  }

  lemma MobilWord()
    ensures Lower("mobil") !in TriggerWords && Lower("mobil") !in FinalDemonstratives
  {
    LowerOfLowercase("mobil");
    assert "mobil" !in TriggerWords;
  }

  lemma MakanWord()
    ensures Lower("makan") !in TriggerWords && Lower("makan") !in FinalDemonstratives
  {
    LowerOfLowercase("makan");
    assert "makan" !in TriggerWords;
  }

  /** The last word of the sentence, outside every trigger set, leaves the first loop's buffer as it is. */
  lemma LastWordPlain(input: seq<(string, string)>, buf: seq<Entry>)
    requires |input| == |buf| > 0
    requires Lower(input[|input| - 1].0) !in TriggerWords
    ensures FirstPassFrom(input, buf, |input| - 1) == Ok(buf)
  {
    var idx := |input| - 1;
    TriggersFromSkip(input[idx].0, input[idx].1, idx, buf, 0);
  }

  /** With no `ini`, `itu` or `tersebut` from `i` on, the final pass changes nothing. */
  lemma {:induction false} DemFromNone(tokens: seq<string>, buf: seq<Entry>, i: nat)
    requires |buf| == |tokens| && i <= |tokens|
    requires forall j :: i <= j < |tokens| ==> Lower(tokens[j]) !in FinalDemonstratives
    ensures DemFrom(tokens, buf, i) == Ok(buf)
    decreases |tokens| - i
  {
    if i < |tokens| {
      DemFromNone(tokens, buf, i + 1);
    }
  }

  /** The first loop on a lone demonstrative stores the pair. */
  lemma LoneDemonstrativeFirstPass(d: string)
    requires Lower(d) in Demonstratives
    ensures FirstPass([(d, "PRP-DEM")]) == Ok([Pair(d, "PRP-DEM")])
  {
    var input := [(d, "PRP-DEM")];
    var b0 := InitialTags(input);
    assert b0 == [Tag("PRP-DEM")];
    FirstDemonstrativeVisit(d, b0);
    var b1 := b0[0 := Pair(d, "PRP-DEM")];
    assert input[0] == (d, "PRP-DEM");
    assert FirstPassFrom(input, b0, 0) == FirstPassFrom(input, b1, 1);
    assert b1 == [Pair(d, "PRP-DEM")];
  }

  /** The first loop on a demonstrative and a word outside the trigger sets stores the pair for the first. */
  lemma DemonstrativeThenPlainFirstPass(d: string, w: string, t: string)
    requires Lower(d) in Demonstratives && Lower(w) !in TriggerWords && |t| >= 2
    ensures FirstPass([(d, "PRP-DEM"), (w, t)]) == Ok([Pair(d, "PRP-DEM"), Tag(t)])
  {
    var input := [(d, "PRP-DEM"), (w, t)];
    var b0 := InitialTags(input);
    assert b0 == [Tag("PRP-DEM"), Tag(t)];
    FirstDemonstrativeVisit(d, b0);
    var b1 := b0[0 := Pair(d, "PRP-DEM")];
    assert FirstPassFrom(input, b0, 0) == FirstPassFrom(input, b1, 1);
    LastWordPlain(input, b1);
    assert b1 == [Pair(d, "PRP-DEM"), Tag(t)];
  }

  /** A lone word outside the final set keeps whatever the first loop gave it. */
  lemma LoneWord(w: string, t: string, e: Entry)
    requires FirstPass([(w, t)]) == Ok([e])
    requires Lower(w) !in FinalDemonstratives
    ensures HandleSpec([(w, t)]) == Ok([(w, e)])
  {
    var tokens := Tokens([(w, t)]);
    assert tokens == [w];
    DemFromNone(tokens, [e], 0);
    assert Zip(tokens, [e]) == [(w, e)];
  }

  /** Two words outside the final set keep whatever the first loop gave them. */
  lemma TwoWords(w1: string, t1: string, w2: string, t2: string, e1: Entry, e2: Entry)
    requires FirstPass([(w1, t1), (w2, t2)]) == Ok([e1, e2])
    requires Lower(w1) !in FinalDemonstratives && Lower(w2) !in FinalDemonstratives
    ensures HandleSpec([(w1, t1), (w2, t2)]) == Ok([(w1, e1), (w2, e2)])
  {
    var tokens := Tokens([(w1, t1), (w2, t2)]);
    assert tokens == [w1, w2];
    DemFromNone(tokens, [e1, e2], 0);
    assert Zip(tokens, [e1, e2]) == [(w1, e1), (w2, e2)];
  }

  /**
   * A final demonstrative first, then a word outside the final set whose tag
   * starts with `NN`: the demonstrative becomes `DT-DEF`, whatever the first
   * loop stored for it.
   */
  lemma DemonstrativeThenNoun(d: string, td: string, w: string, tw: string, e: Entry)
    requires FirstPass([(d, td), (w, tw)]) == Ok([e, Tag(tw)])
    requires Lower(d) in FinalDemonstratives && Lower(w) !in FinalDemonstratives
    requires StartsWith(tw, "NN")
    ensures HandleSpec([(d, td), (w, tw)]) == Ok([(d, Tag("DT-DEF")), (w, Tag(tw))])
  {
    var tokens := Tokens([(d, td), (w, tw)]);
    assert tokens == [d, w];
    var b1 := [e, Tag(tw)];
    var b2 := [Tag("DT-DEF"), Tag(tw)];
    assert b1[0 := Tag("DT-DEF")] == b2;
    assert DemFrom(tokens, b1, 0) == DemFrom(tokens, b2, 1);
    DemFromNone(tokens, b2, 1);
    assert Zip(tokens, b2) == [(d, Tag("DT-DEF")), (w, Tag(tw))];
  }

  /** `itu mobil`: the demonstrative before a noun becomes `DT-DEF`. */
  lemma ItuBeforeNoun()
    ensures HandleSpec([("itu", "PRP-DEM"), ("mobil", "NN-COM")]) ==
      Ok([("itu", Tag("DT-DEF")), ("mobil", Tag("NN-COM"))])
  {
    ItuWord();
    MobilWord();
    DemonstrativeThenPlainFirstPass("itu", "mobil", "NN-COM");
    assert StartsWith("NN-COM", "NN");
    DemonstrativeThenNoun("itu", "PRP-DEM", "mobil", "NN-COM", Pair("itu", "PRP-DEM"));
  }

  /** `demikian` alone: the pair the handler stored is returned as its tag. */
  lemma DemikianExample()
    ensures HandleSpec([("demikian", "PRP-DEM")]) == Ok([("demikian", Pair("demikian", "PRP-DEM"))])
  {
    DemikianWord();
    LoneDemonstrativeFirstPass("demikian");
    LoneWord("demikian", "PRP-DEM", Pair("demikian", "PRP-DEM"));
  }

  /** `itu sama`: the `sama` handler reads the pair stored for `itu`, and `handle` raises. */
  lemma ItuThenSamaFails()
    ensures HandleSpec([("itu", "PRP-DEM"), ("sama", "JJ-QUALITY")]).Err?
  {
    var input := [("itu", "PRP-DEM"), ("sama", "JJ-QUALITY")];
    var b0 := InitialTags(input);
    assert b0 == [Tag("PRP-DEM"), Tag("JJ-QUALITY")];
    ItuWord();
    FirstDemonstrativeVisit("itu", b0);
    var b1 := b0[0 := Pair("itu", "PRP-DEM")];
    assert FirstPassFrom(input, b0, 0) == FirstPassFrom(input, b1, 1);
    assert b1 == [Pair("itu", "PRP-DEM"), Tag("JJ-QUALITY")];
    SamaAfterPairVisit(b1);
  }

  /**
   * A word of the degree set whose tag is not a noun tag, with a stored pair
   * just before it: no earlier trigger applies, and its handler raises.
   */
  lemma DegreeAfterPairVisit(token: string, tag: string, idx: nat, buf: seq<Entry>)
    requires idx < |buf| && buf[idx] == Tag(tag)
    requires Lower(token) in Degrees && !StartsWith(tag, "NN")
    requires Prev(buf, idx).Pair?
    ensures VisitOutcome(token, tag, idx, buf).Err?
  {
    var low := Lower(token);
    AdvVsDtVsJjOutcome(idx, buf);
    assert TryTrigger(6, token, tag, idx, buf).Err?;
    forall k | 0 <= k < 6
      ensures TriggersFrom(token, tag, idx, buf, k) == TriggersFrom(token, tag, idx, buf, k + 1)
    {
      TriggersExclusive(low, tag, k, 6);
    }
  }

  /** A `PRP-DEM` demonstrative, then a non-noun word of the degree set: `handle` raises. */
  lemma DemonstrativeThenDegreeFails(d: string, w: string, t: string)
    requires Lower(d) in Demonstratives && Lower(w) in Degrees
    requires !StartsWith(t, "NN") && |t| >= 2
    ensures HandleSpec([(d, "PRP-DEM"), (w, t)]).Err?
  {
    var input := [(d, "PRP-DEM"), (w, t)];
    var b0 := InitialTags(input);
    assert b0 == [Tag("PRP-DEM"), Tag(t)];
    FirstDemonstrativeVisit(d, b0);
    var b1 := b0[0 := Pair(d, "PRP-DEM")];
    assert FirstPassFrom(input, b0, 0) == FirstPassFrom(input, b1, 1);
    assert b1 == [Pair(d, "PRP-DEM"), Tag(t)];
    DegreeAfterPairVisit(w, t, 1, b1);
    assert input[1] == (w, t);
  }

  /** `itu sedikit`: the degree handler calls `startswith` on the pair stored for `itu`, and `handle` raises. */
  lemma ItuThenSedikitFails()
    ensures HandleSpec([("itu", "PRP-DEM"), ("sedikit", "ADV-DEG")]).Err?
  {
    ItuWord();
    SedikitWord();
    assert "ADV-DEG"[..2][0] != "NN"[0];
    DemonstrativeThenDegreeFails("itu", "sedikit", "ADV-DEG");
  }

  /** The visit of `sama` after the stored pair raises. */
  lemma SamaAfterPairVisit(b1: seq<Entry>)
    requires b1 == [Pair("itu", "PRP-DEM"), Tag("JJ-QUALITY")]
    ensures VisitOutcome("sama", "JJ-QUALITY", 1, b1).Err?
  {
    SamaWord();
    assert Sama(1, b1).Err?;
    assert TryTrigger(2, "sama", "JJ-QUALITY", 1, b1).Err?;
    assert TriggersFrom("sama", "JJ-QUALITY", 1, b1, 1) == TriggersFrom("sama", "JJ-QUALITY", 1, b1, 2);
    assert TriggersFrom("sama", "JJ-QUALITY", 1, b1, 0) == TriggersFrom("sama", "JJ-QUALITY", 1, b1, 1);
  }

  /** The visit of `sama` after `makan`: the `sama` trigger resolves it to `IN-COM`. */
  lemma SamaAfterVerbVisit(b0: seq<Entry>)
    requires b0 == [Tag("VB-ACT"), Tag("JJ-QUALITY")]
    ensures VisitOutcome("sama", "JJ-QUALITY", 1, b0) == Ok(([Tag("VB-ACT"), Tag("IN-COM")], true))
  {
    SamaWord();
    assert StartsWith("VB-ACT", "VB");
    assert Sama(1, b0) == Ok("IN-COM");
    var b2 := [Tag("VB-ACT"), Tag("IN-COM")];
    assert b0[1 := Tag("IN-COM")] == b2;
    assert Fire(2, "sama", 1, b0) == Ok((Some("IN-COM"), b2));
    assert Applies(2, Lower("sama"), "JJ-QUALITY");
    assert Resolves(Some("IN-COM"), "JJ-QUALITY");
    assert b2[1 := Tag("IN-COM")] == b2;
    assert TryTrigger(2, "sama", "JJ-QUALITY", 1, b0) == Ok((b2, true));
    assert TriggersFrom("sama", "JJ-QUALITY", 1, b0, 1) == TriggersFrom("sama", "JJ-QUALITY", 1, b0, 2);
    assert TriggersFrom("sama", "JJ-QUALITY", 1, b0, 0) == TriggersFrom("sama", "JJ-QUALITY", 1, b0, 1);
  }

  /** The first loop on a plain word followed by one whose visit gives `b2`. */
  lemma PlainThenVisitFirstPass(w1: string, t1: string, w2: string, t2: string, b2: seq<Entry>, changed: bool)
    requires Lower(w1) !in TriggerWords
    requires VisitOutcome(w2, t2, 1, [Tag(t1), Tag(t2)]) == Ok((b2, changed))
    ensures FirstPass([(w1, t1), (w2, t2)]) == Ok(b2)
  {
    var input := [(w1, t1), (w2, t2)];
    var b0 := InitialTags(input);
    assert b0 == [Tag(t1), Tag(t2)];
    TriggersFromSkip(w1, t1, 0, b0, 0);
    assert FirstPassFrom(input, b0, 0) == FirstPassFrom(input, b0, 1);
    assert FirstPassFrom(input, b0, 1) == FirstPassFrom(input, b2, 2);
  }

  /** `makan sama`: after a verb, `sama` becomes `IN-COM`. */
  lemma SamaAfterVerb()
    ensures HandleSpec([("makan", "VB-ACT"), ("sama", "JJ-QUALITY")]) ==
      Ok([("makan", Tag("VB-ACT")), ("sama", Tag("IN-COM"))])
  {
    MakanWord();
    SamaWord();
    SamaAfterVerbVisit([Tag("VB-ACT"), Tag("JJ-QUALITY")]);
    PlainThenVisitFirstPass("makan", "VB-ACT", "sama", "JJ-QUALITY", [Tag("VB-ACT"), Tag("IN-COM")], true);
    TwoWords("makan", "VB-ACT", "sama", "JJ-QUALITY", Tag("VB-ACT"), Tag("IN-COM"));
  }
}
