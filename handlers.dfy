/**
 * The trigger handlers of the part-of-speech ambiguity pass
 * (`Handleambiguity.handle_*`). Each reads a window of the tag buffer around
 * position `idx`; two of them also write the buffer at `idx`.
 *
 * The buffer is a list of tags, but `handle_prpdem_vs_dtdef` stores
 * `(token, tag)` pairs in it, so an entry is either. Every string operation a
 * handler applies to a pair (`startswith`) raises, and the whole pass then
 * fails: that is `Err` here. Comparisons with `==` or `in` do not raise on a
 * pair; they are simply false.
 */
module Handlers {
  import opened Wrappers
  import opened Text

  /** One slot of the tag buffer: a tag, or a `(token, tag)` pair left by the demonstrative handler. */
  datatype Entry = Tag(value: string) | Pair(token: string, tag: string)

  /** Python truthiness: the empty tag is false, a pair is always true. */
  predicate Truthy(e: Entry)
  {
    match e
    case Tag(s) => s != ""
    case Pair(_, _) => true
  }

  /** `e.startswith(p)`, which raises on a pair. */
  function Sw(e: Entry, p: string): (r: Result<bool>)
    ensures r.Ok? <==> e.Tag?
    ensures r.Ok? ==> (r.value <==> StartsWith(e.value, p))
  {
    match e
    case Tag(s) => Ok(StartsWith(s, p))
    case Pair(_, _) => Err
  }

  /** `e[1]`: the second character of a tag (an index error below two characters), the tag of a pair. */
  function Second(e: Entry): (r: Result<string>)
    ensures e.Pair? ==> r == Ok(e.tag)
    ensures e.Tag? ==> (r.Ok? <==> |e.value| >= 2)
    ensures e.Tag? && r.Ok? ==> |r.value| == 1
  {
    match e
    case Tag(s) => if |s| >= 2 then Ok([s[1]]) else Err
    case Pair(_, t) => Ok(t)
  }

  /** The entries before and after `idx`, or the empty tag at the ends of the buffer. */
  function Prev(buf: seq<Entry>, idx: nat): Entry
    requires idx < |buf|
  {
    if idx > 0 then buf[idx - 1] else Tag("")
  }

  function Next(buf: seq<Entry>, idx: nat): Entry
  {
    if idx + 1 < |buf| then buf[idx + 1] else Tag("")
  }

  function NextNext(buf: seq<Entry>, idx: nat): Entry
  {
    if idx + 2 < |buf| then buf[idx + 2] else Tag("")
  }

  // ------------------------------------------------ handle_prpdem_vs_dtdef

  /**
   * `handle_prpdem_vs_dtdef` as a function: the tag it returns and the pair
   * it stores at `idx`. It reads `[1]` of its neighbours, which for a tag is
   * a single character.
   */
  function PrpDem(token: string, idx: nat, buf: seq<Entry>): Result<(string, Entry)>
    requires idx < |buf|
  {
    var prev :- if idx > 0 then Second(buf[idx - 1]) else Ok("");
    var next :- if idx + 1 < |buf| then Second(buf[idx + 1]) else Ok("");
    var nextNext :- if idx + 2 < |buf| then Second(buf[idx + 2]) else Ok("");
    if (next != "" && StartsWith(next, "NN")) || (prev != "" && StartsWith(prev, "NN")) then
      Ok(("DT-DEF", Pair(token, "DT-DEF")))
    else if idx == 0 || (next == "" && prev == "") then
      Ok(("PRP-DEM", Pair(token, "PRP-DEM")))
    else if next == "" || !StartsWith(next, "NN") then
      Ok(("PRP-DEM", Pair(token, "PRP-DEM")))
    else
      Ok(("<UNK>", Pair(token, "DT-DEF")))
  }

  /** The pairs of a buffer all carry `PRP-DEM`. */
  predicate PairsArePrpDem(buf: seq<Entry>)
  {
    forall j :: 0 <= j < |buf| && buf[j].Pair? ==> buf[j].tag == "PRP-DEM"
  }

  /**
   * A neighbour's `[1]` never starts with `NN`: a tag gives one character
   * and the only pairs in the buffer carry `PRP-DEM`. So the handler always
   * answers `PRP-DEM` and leaves the pair `(token, "PRP-DEM")` behind.
   */
  lemma PrpDemAlwaysPrpDem(token: string, idx: nat, buf: seq<Entry>)
    requires idx < |buf|
    requires PairsArePrpDem(buf)
    ensures PrpDem(token, idx, buf).Ok? ==> PrpDem(token, idx, buf).value == ("PRP-DEM", Pair(token, "PRP-DEM"))
  {
    if idx > 0 {
      OneCharNotNn(buf[idx - 1]);
    }
    if idx + 1 < |buf| {
      OneCharNotNn(buf[idx + 1]);
    }
  }

  lemma OneCharNotNn(e: Entry)
    requires e.Pair? ==> e.tag == "PRP-DEM"
    ensures Second(e).Ok? ==> !StartsWith(Second(e).value, "NN")
  {
    if e.Pair? {
      assert "PRP-DEM"[..2] != "NN" by {
        assert "PRP-DEM"[0] == 'P';
      }
    }
  }

  /** The handler fails exactly when a neighbour within two places is a tag shorter than two characters. */
  lemma PrpDemFails(token: string, idx: nat, buf: seq<Entry>)
    requires idx < |buf|
    ensures PrpDem(token, idx, buf).Err? <==>
      exists j :: idx - 1 <= j <= idx + 2 && j != idx && 0 <= j < |buf| && buf[j].Tag? && |buf[j].value| < 2
  {
    if PrpDem(token, idx, buf).Err? {
      if idx > 0 && Second(buf[idx - 1]).Err? {
        assert buf[idx - 1].Tag?;
      } else if idx + 1 < |buf| && Second(buf[idx + 1]).Err? {
        assert buf[idx + 1].Tag?;
      } else {
        assert buf[idx + 2].Tag?;
      }
    }
  }

  /**
   * `handle_prpdem_vs_dtdef` on the buffer: it returns the tag and stores the
   * pair at `idx`; when it raises, the buffer is untouched.
   */
  method HandlePrpDemVsDtDef(token: string, idx: nat, posTags: array<Entry>) returns (r: Result<string>)
    requires idx < posTags.Length
    modifies posTags
    ensures var spec := PrpDem(token, idx, old(posTags[..]));
      && (spec.Err? ==> r.Err? && posTags[..] == old(posTags[..]))
      && (spec.Ok? ==> r == Ok(spec.value.0) && posTags[..] == old(posTags[..])[idx := spec.value.1])
  {
    var prev := Ok("");
    if idx > 0 {
      prev := Second(posTags[idx - 1]);
    }
    var next := Ok("");
    if idx + 1 < posTags.Length {
      next := Second(posTags[idx + 1]);
    }
    var nextNext := Ok("");
    if idx + 2 < posTags.Length {
      nextNext := Second(posTags[idx + 2]);
    }
    if prev.Err? || next.Err? || nextNext.Err? {
      return Err;
    }
    var p, n := prev.value, next.value;
    var answer, stored;
    if (n != "" && StartsWith(n, "NN")) || (p != "" && StartsWith(p, "NN")) {
      answer, stored := "DT-DEF", Pair(token, "DT-DEF");
    } else if idx == 0 || (n == "" && p == "") {
      answer, stored := "PRP-DEM", Pair(token, "PRP-DEM");
    } else if n == "" || !StartsWith(n, "NN") {
      answer, stored := "PRP-DEM", Pair(token, "PRP-DEM");
    } else {
      answer, stored := "<UNK>", Pair(token, "DT-DEF");
    }
    posTags[idx] := stored;
    return Ok(answer);
  }

  // ------------------------------------------------ handle_mass_vs_common

  /** `handle_mass_vs_common`, evaluating its `or`/`and` conditions left to right with short circuit. */
  function MassVsCommon(idx: nat, buf: seq<Entry>): Result<string>
    requires idx < |buf|
  {
    var prev, next, nextNext := Prev(buf, idx), Next(buf, idx), NextNext(buf, idx);
    var current := buf[idx];
    var isNoun :- Sw(current, "NN");
    if !isNoun then Ok("<UNK>")
    else
      var prevVerb :- Sw(prev, "VB");
      if prevVerb then Ok("NN-MASS")
      else
        var nextAdj :- Sw(next, "JJ");
        var adjAfter :- if nextAdj then Ok(true) else Sw(nextNext, "JJ");
        if adjAfter then Ok("NN-MASS")
        else
          var nextDet :- Sw(next, "DT");
          // the second half of `and not next_next_tag.startswith('JJ')` was already found true just above
          if nextDet then Ok("NN-COM") else Ok(current.value)
  }

  /**
   * For a noun between plain tags: `NN-MASS` after a verb or before an
   * adjective (next or next but one); otherwise `NN-COM` before a
   * determiner; otherwise the tag unchanged.
   */
  lemma MassVsCommonOutcome(idx: nat, buf: seq<Entry>)
    requires idx < |buf|
    requires buf[idx].Tag? && StartsWith(buf[idx].value, "NN")
    requires Prev(buf, idx).Tag? && Next(buf, idx).Tag? && NextNext(buf, idx).Tag?
    ensures var prev, next, nextNext := Prev(buf, idx).value, Next(buf, idx).value, NextNext(buf, idx).value;
      MassVsCommon(idx, buf) == Ok(
        if StartsWith(prev, "VB") || StartsWith(next, "JJ") || StartsWith(nextNext, "JJ") then "NN-MASS"
        else if StartsWith(next, "DT") then "NN-COM"
        else buf[idx].value)
  {
  }

  /** A pair just before the noun always makes it raise: the verb test is the first to read it. */
  lemma MassVsCommonFailsOnPairBefore(idx: nat, buf: seq<Entry>)
    requires 0 < idx < |buf|
    requires buf[idx].Tag? && StartsWith(buf[idx].value, "NN") && buf[idx - 1].Pair?
    ensures MassVsCommon(idx, buf).Err?
  {
  }

  // ------------------------------------------------ handle_sama

  /** `handle_sama`'s answer; its intermediate `IN-COM` store is overwritten before it returns. */
  function Sama(idx: nat, buf: seq<Entry>): Result<string>
    requires idx < |buf|
  {
    var prev, next := Prev(buf, idx), Next(buf, idx);
    var nextMod :- if Truthy(next) then Sw(next, "MOD") else Ok(false);
    if nextMod || next in {Tag("MOD-NEG"), Tag("ADV-ATT")} then Ok("MOD-EMPH")
    else
      var prevVerb :- if Truthy(prev) then Sw(prev, "VB") else Ok(false);
      if prevVerb then Ok("IN-COM")
      else
        var nextPrp :- if Truthy(next) then Sw(next, "PRP") else Ok(false);
        var nextNoun :- if Truthy(next) && !nextPrp then Sw(next, "NN") else Ok(nextPrp);
        var prevAdj :- if Truthy(prev) then Sw(prev, "JJ") else Ok(false);
        var adj :- if prevAdj then Ok(true) else if Truthy(next) then Sw(next, "JJ") else Ok(false);
        Ok("JJ-QUALITY")
  }

  /**
   * `sama` is `MOD-EMPH` before a modal or `ADV-ATT`, else `IN-COM` after a
   * verb, else `JJ-QUALITY`: a following pronoun or noun never makes it
   * `IN-COM`. It fails only on a pair next to it that the conditions reach.
   */
  lemma SamaOutcome(idx: nat, buf: seq<Entry>)
    requires idx < |buf|
    ensures var prev, next := Prev(buf, idx), Next(buf, idx);
      && (next.Tag? ==>
           (StartsWith(next.value, "MOD") || next.value == "ADV-ATT" ==> Sama(idx, buf) == Ok("MOD-EMPH")))
      && (next.Tag? && prev.Tag? && !StartsWith(next.value, "MOD") && next.value != "ADV-ATT" ==>
           Sama(idx, buf) == Ok(if StartsWith(prev.value, "VB") then "IN-COM" else "JJ-QUALITY"))
      && (next.Pair? ==> Sama(idx, buf).Err?)
      && (prev.Pair? && next.Tag? && !StartsWith(next.value, "MOD") && next.value != "ADV-ATT" ==> Sama(idx, buf).Err?)
  {
    var next := Next(buf, idx);
    if next.Tag? && next.value == "ADV-ATT" {
      assert next in {Tag("MOD-NEG"), Tag("ADV-ATT")};
    }
    if next.Tag? && next.value == "MOD-NEG" {
      assert StartsWith(next.value, "MOD") by {
        assert "MOD-NEG"[..3] == "MOD";
      }
    }
  }

  /**
   * `handle_sama` on the buffer, with its stores in the order it makes them:
   * on success the entry at `idx` ends equal to the returned tag.
   */
  method HandleSama(idx: nat, posTags: array<Entry>) returns (r: Result<string>)
    requires idx < posTags.Length
    modifies posTags
    ensures r == Sama(idx, old(posTags[..]))
    ensures r.Ok? ==> posTags[..] == old(posTags[..])[idx := Tag(r.value)]
    ensures r.Err? ==> posTags[..] == old(posTags[..])
  {
    ghost var buf := posTags[..];
    var prev := if idx > 0 then posTags[idx - 1] else Tag("");
    var next := if idx + 1 < posTags.Length then posTags[idx + 1] else Tag("");
    assert prev == Prev(buf, idx) && next == Next(buf, idx);
    var nextMod := Ok(false);
    if Truthy(next) {
      nextMod := Sw(next, "MOD");
    }
    if nextMod.Err? {
      return Err;
    }
    if nextMod.value || next in {Tag("MOD-NEG"), Tag("ADV-ATT")} {
      posTags[idx] := Tag("MOD-EMPH");
      return Ok("MOD-EMPH");
    }
    var prevVerb := Ok(false);
    if Truthy(prev) {
      prevVerb := Sw(prev, "VB");
    }
    if prevVerb.Err? {
      return Err;
    }
    if prevVerb.value {
      posTags[idx] := Tag("IN-COM");
      return Ok("IN-COM");
    }
    // `next` and `prev` are tags or empty from here on, so no later test raises
    var nextNoun := Truthy(next) && (StartsWith(next.value, "PRP") || StartsWith(next.value, "NN"));
    if nextNoun {
      posTags[idx] := Tag("IN-COM");
    }
    var adj := (Truthy(prev) && StartsWith(prev.value, "JJ")) || (Truthy(next) && StartsWith(next.value, "JJ"));
    if adj {
      posTags[idx] := Tag("JJ-QUALITY");
      return Ok("JJ-QUALITY");
    }
    posTags[idx] := Tag("JJ-QUALITY");
    return Ok("JJ-QUALITY");
  }

  // ------------------------------------------------ handle_consub_vs_intemp

  /** The ten tag prefixes that mark a temporal reading. */
  const TemporalIndicators: set<string> :=
    {"VB-ACT", "VB-STAT", "VB-CAUS", "VB-MODL", "VB-TENSE", "MOD-TEMP", "DT-ORD", "DT-CARD", "Q-TEMP", "IN-TEMP"}

  predicate HasTemporalPrefix(s: string)
  {
    exists ind :: ind in TemporalIndicators && StartsWith(s, ind)
  }

  /** `tag and any(tag.startswith(ind) ...)` for one of the two following entries. */
  function Temporal(e: Entry): Result<bool>
  {
    if !Truthy(e) then Ok(false)
    else match e
      case Pair(_, _) => Err
      case Tag(s) => Ok(HasTemporalPrefix(s))
  }

  /** `handle_consub_vs_intemp`: the two following entries in order; the current tag is never read. */
  function ConsubVsIntemp(idx: nat, buf: seq<Entry>): Result<string>
  {
    var first :- Temporal(Next(buf, idx));
    if first then Ok("IN-TEMP")
    else
      var second :- Temporal(NextNext(buf, idx));
      if second then Ok("IN-TEMP") else Ok("CON-SUB")
  }

  /**
   * With tags after it, the answer is `IN-TEMP` exactly when one of the next
   * two starts with a temporal indicator, and `CON-SUB` otherwise, whatever
   * the word's own tag: an `IN-TEMP` without an indicator becomes `CON-SUB`.
   */
  lemma ConsubVsIntempOutcome(idx: nat, buf: seq<Entry>)
    requires Next(buf, idx).Tag? && NextNext(buf, idx).Tag?
    ensures ConsubVsIntemp(idx, buf) ==
      Ok(if HasTemporalPrefix(Next(buf, idx).value) || HasTemporalPrefix(NextNext(buf, idx).value) then "IN-TEMP" else "CON-SUB")
  {
    if HasTemporalPrefix(Next(buf, idx).value) {
      assert Truthy(Next(buf, idx)) by {
        var ind :| ind in TemporalIndicators && StartsWith(Next(buf, idx).value, ind);
      }
    }
    if HasTemporalPrefix(NextNext(buf, idx).value) {
      assert Truthy(NextNext(buf, idx)) by {
        var ind :| ind in TemporalIndicators && StartsWith(NextNext(buf, idx).value, ind);
      }
    }
  }

  /** The word's own entry is never read, so an incoming `IN-TEMP` and `CON-SUB` are treated alike. */
  lemma ConsubVsIntempIgnoresOwnTag(idx: nat, buf: seq<Entry>, e: Entry)
    requires idx < |buf|
    ensures ConsubVsIntemp(idx, buf[idx := e]) == ConsubVsIntemp(idx, buf)
  {
    assert Next(buf[idx := e], idx) == Next(buf, idx);
    assert NextNext(buf[idx := e], idx) == NextNext(buf, idx);
  }

  // ------------------------------------------------ handle_jjquality_vs_conjunctions

  /** `handle_jjquality_vs_conjunctions`: only equality tests, so it never raises. */
  function JjqualityVsConjunctions(idx: nat, buf: seq<Entry>): Option<string>
    requires idx < |buf|
  {
    var prev, next, current := Prev(buf, idx), Next(buf, idx), buf[idx];
    if current == Tag("JJ-QUALITY") && (prev == Tag("CON-COR") || next == Tag("CON-COR")) then Some("CON-COR")
    else if current == Tag("JJ-QUALITY") then Some("JJ-QUALITY")
    else None
  }

  /** It answers only for a `JJ-QUALITY` word, and `CON-COR` exactly beside a `CON-COR` tag. */
  lemma JjqualityVsConjunctionsOutcome(idx: nat, buf: seq<Entry>)
    requires idx < |buf|
    ensures JjqualityVsConjunctions(idx, buf).None? <==> buf[idx] != Tag("JJ-QUALITY")
    ensures JjqualityVsConjunctions(idx, buf) == Some("CON-COR") <==>
      buf[idx] == Tag("JJ-QUALITY") && ((idx > 0 && buf[idx - 1] == Tag("CON-COR")) || (idx + 1 < |buf| && buf[idx + 1] == Tag("CON-COR")))
  {
  }

  // ------------------------------------------------ handle_modemph_vs_modasp

  /** `handle_modemph_vs_modasp`, its tests evaluated left to right with short circuit. */
  function ModemphVsModasp(idx: nat, buf: seq<Entry>): Result<Option<string>>
    requires idx < |buf|
  {
    var prev, next, current := Prev(buf, idx), Next(buf, idx), buf[idx];
    if current == Tag("MOD-EMPH") || current == Tag("MOD-ASP") then
      var prevVerb :- Sw(prev, "VB");
      var verb :- if prevVerb then Ok(true) else Sw(next, "VB");
      if verb then Ok(Some("MOD-ASP"))
      else
        var prevMod :- Sw(prev, "MOD");
        var modal :- if prevMod then Ok(true) else Sw(next, "MOD");
        if modal then Ok(Some("MOD-EMPH"))
        else
          var prevNoun :- Sw(prev, "NN");
          var noun :- if prevNoun then Ok(true) else Sw(next, "NN");
          if noun then Ok(Some("MOD-EMPH")) else Ok(Some("MOD-EMPH"))
    else Ok(None)
  }

  /**
   * Only `MOD-EMPH` and `MOD-ASP` words get an answer: `MOD-ASP` exactly
   * beside a verb, `MOD-EMPH` otherwise. A pair before the word always raises.
   */
  lemma ModemphVsModaspOutcome(idx: nat, buf: seq<Entry>)
    requires idx < |buf|
    ensures buf[idx] != Tag("MOD-EMPH") && buf[idx] != Tag("MOD-ASP") ==> ModemphVsModasp(idx, buf) == Ok(None)
    ensures (buf[idx] == Tag("MOD-EMPH") || buf[idx] == Tag("MOD-ASP")) && Prev(buf, idx).Tag? && Next(buf, idx).Tag? ==>
      ModemphVsModasp(idx, buf) ==
        Ok(Some(if StartsWith(Prev(buf, idx).value, "VB") || StartsWith(Next(buf, idx).value, "VB") then "MOD-ASP" else "MOD-EMPH"))
    ensures (buf[idx] == Tag("MOD-EMPH") || buf[idx] == Tag("MOD-ASP")) && Prev(buf, idx).Pair? ==> ModemphVsModasp(idx, buf).Err?
  {
  }

  // ------------------------------------------------ handle_adv_vs_dt_vs_jj

  /** `handle_adv_vs_dt_vs_jj`; its last answer is the literal `AVD-ATT` as written. */
  function AdvVsDtVsJj(idx: nat, buf: seq<Entry>): Result<Option<string>>
    requires idx < |buf|
  {
    var isNoun :- Sw(buf[idx], "NN");
    if isNoun then Ok(None)
    else
      var prev, next := Prev(buf, idx), Next(buf, idx);
      var prevDet :- Sw(prev, "DT");
      var detNoun :- if prevDet then Sw(next, "NN") else Ok(false);
      if detNoun then Ok(Some("JJ-QUALITY"))
      else
        var nextAdj :- Sw(next, "JJ");
        if nextAdj then Ok(Some("ADV-ATT"))
        else
          var prevVerb :- Sw(prev, "VB");
          if prevVerb then Ok(Some("JJ-QUALITY"))
          else
            var nextNoun :- Sw(next, "NN");
            if nextNoun then Ok(Some("DT-INDEF")) else Ok(Some("AVD-ATT"))
  }

  /**
   * Between plain tags a non-noun word gets, by the first rule that applies:
   * `JJ-QUALITY` between a determiner and a noun, `ADV-ATT` before an
   * adjective, `JJ-QUALITY` after a verb, `DT-INDEF` before a noun, and
   * `AVD-ATT` otherwise. A noun gets no answer. For any other word a pair
   * before it raises at the `DT` test, and a pair after a tag raises at the
   * first test of the next entry.
   */
  lemma AdvVsDtVsJjOutcome(idx: nat, buf: seq<Entry>)
    requires idx < |buf| && buf[idx].Tag?
    ensures StartsWith(buf[idx].value, "NN") ==> AdvVsDtVsJj(idx, buf) == Ok(None)
    ensures !StartsWith(buf[idx].value, "NN") && Prev(buf, idx).Tag? && Next(buf, idx).Tag? ==>
      var prev, next := Prev(buf, idx).value, Next(buf, idx).value;
      AdvVsDtVsJj(idx, buf) == Ok(Some(
        if StartsWith(prev, "DT") && StartsWith(next, "NN") then "JJ-QUALITY"
        else if StartsWith(next, "JJ") then "ADV-ATT"
        else if StartsWith(prev, "VB") then "JJ-QUALITY"
        else if StartsWith(next, "NN") then "DT-INDEF"
        else "AVD-ATT"))
    ensures !StartsWith(buf[idx].value, "NN") && Prev(buf, idx).Pair? ==> AdvVsDtVsJj(idx, buf).Err?
    ensures !StartsWith(buf[idx].value, "NN") && Prev(buf, idx).Tag? && Next(buf, idx).Pair? ==> AdvVsDtVsJj(idx, buf).Err?
  {
  }
}
