/**
 * The two grammar-membership tests of the syntactic parser: `match_rule`,
 * which lets a nonterminal of a production stand for the first label of any
 * of its own productions, and `is_valid_structure`, which ignores
 * connectives and accepts a tag of the expected family. The grammar table is
 * a parameter: a map from a left-hand side to its productions.
 */
module Grammar {
  import opened Wrappers
  import opened Text

  type Table = map<string, seq<seq<string>>>

  // ------------------------------------------------------------------ match_rule

  /** `a` is the first label of some production of the nonterminal `nt`. */
  predicate HeadOf(g: Table, nt: string, a: string)
  {
    nt in g && exists q :: q in g[nt] && |q| > 0 && q[0] == a
  }

  /** One position passes: the very label, or a label one nonterminal step away. */
  predicate PosMatch(g: Table, e: string, a: string)
  {
    e == a || HeadOf(g, e, a)
  }

  predicate ProductionMatches(g: Table, prod: seq<string>, rhs: seq<string>)
  {
    |prod| == |rhs| && forall k :: 0 <= k < |prod| ==> PosMatch(g, prod[k], rhs[k])
  }

  /** The labels `rhs` match, position by position, some production of `lhs`. */
  predicate Derivable(g: Table, lhs: string, rhs: seq<string>)
  {
    lhs in g && exists prod :: prod in g[lhs] && ProductionMatches(g, prod, rhs)
  }

  /** Some nonterminal has an empty production, whose first label cannot be read. */
  predicate HasEmptyProduction(g: Table)
  {
    exists nt, q :: nt in g && q in g[nt] && |q| == 0
  }

  /** The first label of every production; reading it from an empty production fails. */
  function Heads(prods: seq<seq<string>>): (r: Result<seq<string>>)
    ensures r.Ok? <==> forall q :: q in prods ==> |q| > 0
    ensures r.Ok? ==> |r.value| == |prods| && forall k :: 0 <= k < |prods| ==> |prods[k]| > 0 && r.value[k] == prods[k][0]
  {
    if prods == [] then Ok([])
    else if |prods[0]| == 0 then Err
    else
      var rest :- Heads(prods[1..]);
      assert forall q :: q in prods ==> q == prods[0] || q in prods[1..];
      Ok([prods[0][0]] + rest)
  }

  /** The positions `k..` of one production of the right length, left to right, stopping at the first miss. */
  function PositionsFrom(g: Table, prod: seq<string>, rhs: seq<string>, k: nat): Result<bool>
    requires |prod| == |rhs| && k <= |prod|
    decreases |prod| - k
  {
    if k == |prod| then Ok(true)
    else if prod[k] == rhs[k] then PositionsFrom(g, prod, rhs, k + 1)
    else if prod[k] in g then
      var heads :- Heads(g[prod[k]]);
      if rhs[k] !in heads then Ok(false) else PositionsFrom(g, prod, rhs, k + 1)
    else Ok(false)
  }

  /** The productions `p..` in order: the first one that matches answers true. */
  function ProductionsFrom(g: Table, prods: seq<seq<string>>, rhs: seq<string>, p: nat): Result<bool>
    requires p <= |prods|
    decreases |prods| - p
  {
    if p == |prods| then Ok(false)
    else if |prods[p]| != |rhs| then ProductionsFrom(g, prods, rhs, p + 1)
    else
      var m :- PositionsFrom(g, prods[p], rhs, 0);
      if m then Ok(true) else ProductionsFrom(g, prods, rhs, p + 1)
  }

  /** `match_rule` as a function, failing where the source raises. */
  function MatchRuleSpec(g: Table, lhs: string, rhs: seq<string>): Result<bool>
  {
    if lhs !in g then Ok(false) else ProductionsFrom(g, g[lhs], rhs, 0)
  }

  /**
   * `match_rule`: an unknown left-hand side gives false; otherwise the answer
   * is whether some production matches, and it can only fail when a
   * production of the grammar is empty.
   */
  method MatchRule(g: Table, lhs: string, rhs: seq<string>) returns (r: Result<bool>)
    ensures r == MatchRuleSpec(g, lhs, rhs)
    ensures lhs !in g ==> r == Ok(false)
    ensures r.Ok? ==> (r.value <==> Derivable(g, lhs, rhs))
    ensures !HasEmptyProduction(g) ==> r.Ok?
  {
    MatchRuleMeaning(g, lhs, rhs);
    if lhs !in g {
      return Ok(false);
    }
    var prods := g[lhs];
    for p := 0 to |prods|
      invariant ProductionsFrom(g, prods, rhs, 0) == ProductionsFrom(g, prods, rhs, p)
    {
      var production := prods[p];
      if |production| != |rhs| {
        continue;
      }
      var matched := true;
      var k := 0;
      while k < |production|
        invariant 0 <= k <= |production|
        invariant matched
        invariant PositionsFrom(g, production, rhs, 0) == PositionsFrom(g, production, rhs, k)
      {
        var expected, actual := production[k], rhs[k];
        if expected == actual {
          k := k + 1;
        } else if expected in g {
          var heads := Heads(g[expected]);
          if heads.Err? {
            return Err;
          }
          if actual !in heads.value {
            matched := false;
            break;
          }
          k := k + 1;
        } else {
          matched := false;
          break;
        }
      }
      if matched {
        return Ok(true);
      }
    }
    return Ok(false);
  }

  lemma {:induction false} PositionsFromMeaning(g: Table, prod: seq<string>, rhs: seq<string>, k: nat)
    requires |prod| == |rhs| && k <= |prod|
    ensures PositionsFrom(g, prod, rhs, k).Ok? ==>
      (PositionsFrom(g, prod, rhs, k).value <==> forall j :: k <= j < |prod| ==> PosMatch(g, prod[j], rhs[j]))
    ensures !HasEmptyProduction(g) ==> PositionsFrom(g, prod, rhs, k).Ok?
    decreases |prod| - k
  {
    if k < |prod| {
      PositionsFromMeaning(g, prod, rhs, k + 1);
      if prod[k] != rhs[k] && prod[k] in g {
        var hs := Heads(g[prod[k]]);
        if hs.Ok? {
          if rhs[k] in hs.value {
            var i :| 0 <= i < |hs.value| && hs.value[i] == rhs[k];
            assert g[prod[k]][i] in g[prod[k]];
          }
          if HeadOf(g, prod[k], rhs[k]) {
            var q :| q in g[prod[k]] && |q| > 0 && q[0] == rhs[k];
            var i :| 0 <= i < |g[prod[k]]| && g[prod[k]][i] == q;
            assert hs.value[i] == rhs[k];
          }
        } else {
          var q :| q in g[prod[k]] && |q| == 0;
          assert HasEmptyProduction(g);
        }
      }
    }
  }

  lemma {:induction false} ProductionsFromMeaning(g: Table, prods: seq<seq<string>>, rhs: seq<string>, p: nat)
    requires p <= |prods|
    ensures ProductionsFrom(g, prods, rhs, p).Ok? ==>
      (ProductionsFrom(g, prods, rhs, p).value <==> exists j :: p <= j < |prods| && ProductionMatches(g, prods[j], rhs))
    ensures !HasEmptyProduction(g) ==> ProductionsFrom(g, prods, rhs, p).Ok?
    decreases |prods| - p
  {
    if p < |prods| {
      ProductionsFromMeaning(g, prods, rhs, p + 1);
      if |prods[p]| == |rhs| {
        PositionsFromMeaning(g, prods[p], rhs, 0);
      }
    }
  }

  /** `match_rule`'s answer, when it has one, is membership in the one-step relation. */
  lemma MatchRuleMeaning(g: Table, lhs: string, rhs: seq<string>)
    ensures MatchRuleSpec(g, lhs, rhs).Ok? ==> (MatchRuleSpec(g, lhs, rhs).value <==> Derivable(g, lhs, rhs))
    ensures !HasEmptyProduction(g) ==> MatchRuleSpec(g, lhs, rhs).Ok?
  {
    if lhs in g {
      var prods := g[lhs];
      ProductionsFromMeaning(g, prods, rhs, 0);
      if MatchRuleSpec(g, lhs, rhs) == Ok(true) {
        var j :| 0 <= j < |prods| && ProductionMatches(g, prods[j], rhs);
        assert prods[j] in prods;
      }
      if Derivable(g, lhs, rhs) {
        var prod :| prod in prods && ProductionMatches(g, prod, rhs);
        var j :| 0 <= j < |prods| && prods[j] == prod;
      }
    }
  }

  /** No production of the length of `rhs` means no match. */
  lemma MatchRuleArity(g: Table, lhs: string, rhs: seq<string>)
    requires forall prod :: lhs in g && prod in g[lhs] ==> |prod| != |rhs|
    ensures MatchRuleSpec(g, lhs, rhs) == Ok(false)
  {
    if lhs in g {
      ArityFrom(g, g[lhs], rhs, 0);
    }
  }

  lemma {:induction false} ArityFrom(g: Table, prods: seq<seq<string>>, rhs: seq<string>, p: nat)
    requires p <= |prods|
    requires forall j :: p <= j < |prods| ==> |prods[j]| != |rhs|
    ensures ProductionsFrom(g, prods, rhs, p) == Ok(false)
    decreases |prods| - p
  {
    if p < |prods| {
      ArityFrom(g, prods, rhs, p + 1);
    }
  }

  /** The generalisation reaches one nonterminal level only: a head of a head does not pass. */
  lemma MatchRuleExample()
    ensures var g: Table := map["VP" := [["VB-ACT", "NN-COM"]]];
      && Derivable(g, "VP", ["VB-ACT", "NN-COM"])
      && !Derivable(g, "VP", ["VB-ACT"])
      && MatchRuleSpec(g, "VP", ["VB-ACT", "NN-COM"]) == Ok(true)
      && MatchRuleSpec(g, "VP", ["VB-ACT"]) == Ok(false)
  {
    var g: Table := map["VP" := [["VB-ACT", "NN-COM"]]];
    assert ["VB-ACT", "NN-COM"] in g["VP"];
    assert ProductionMatches(g, ["VB-ACT", "NN-COM"], ["VB-ACT", "NN-COM"]);
    MatchRuleArity(g, "VP", ["VB-ACT"]);
    MatchRuleMeaning(g, "VP", ["VB-ACT", "NN-COM"]);
  }

  /** One level only: with NP -> N and N -> noun, a noun does not stand for an NP inside S -> NP. */
  lemma MatchRuleOneLevel()
    ensures var g: Table := map["S" := [["NP"]], "NP" := [["N"]], "N" := [["noun"]]];
      && Derivable(g, "S", ["N"])
      && !Derivable(g, "S", ["noun"])
  {
    var g: Table := map["S" := [["NP"]], "NP" := [["N"]], "N" := [["noun"]]];
    assert ["NP"] in g["S"] && ["N"] in g["NP"];
    assert HeadOf(g, "NP", "N");
    assert ProductionMatches(g, ["NP"], ["N"]);
  }

  // ---------------------------------------------------------- is_valid_structure

  /** A right-hand-side element: a bare label, or a tuple of which only the first component is read. */
  datatype Item = Label(text: string) | Tuple(first: string)

  function LabelOf(x: Item): string
  {
    match x
    case Label(t) => t
    case Tuple(f) => f
  }

  predicate IsConnective(x: Item)
  {
    StartsWith(LabelOf(x), "CON-")
  }

  /** The labels of the items that are not connectives, in order. */
  function Clean(rhs: seq<Item>): (r: seq<string>)
    ensures forall k :: 0 <= k < |r| ==> !StartsWith(r[k], "CON-")
    ensures |r| <= |rhs|
  {
    if rhs == [] then []
    else if IsConnective(rhs[|rhs| - 1]) then Clean(rhs[..|rhs| - 1])
    else Clean(rhs[..|rhs| - 1]) + [LabelOf(rhs[|rhs| - 1])]
  }

  /** `actual` is `expected` itself or a tag of its family (`expected` followed by a dash). */
  predicate FamilyMatch(expected: string, actual: string)
  {
    expected == actual || StartsWith(actual, expected + "-")
  }

  predicate FamilyMatches(prod: seq<string>, labels: seq<string>)
  {
    |prod| == |labels| && forall k :: 0 <= k < |prod| ==> FamilyMatch(prod[k], labels[k])
  }

  /** What `is_valid_structure` decides: a known lhs with a production that family-matches the cleaned labels. */
  predicate ValidStructure(g: Table, lhs: string, rhs: seq<Item>)
  {
    lhs in g && exists prod :: prod in g[lhs] && FamilyMatches(prod, Clean(rhs))
  }

  /** `is_valid_structure`: the cleaning loop, then the productions tried in order. */
  method IsValidStructure(g: Table, lhs: string, rhs: seq<Item>) returns (b: bool)
    ensures b == ValidStructure(g, lhs, rhs)
  {
    if lhs !in g {
      return false;
    }
    var clean: seq<string> := [];
    for k := 0 to |rhs|
      invariant clean == Clean(rhs[..k])
    {
      assert rhs[..k + 1][..k] == rhs[..k];
      var lab := LabelOf(rhs[k]);
      if !StartsWith(lab, "CON-") {
        clean := clean + [lab];
      }
    }
    assert rhs[..|rhs|] == rhs;
    var prods := g[lhs];
    for p := 0 to |prods|
      invariant forall j :: 0 <= j < p ==> !FamilyMatches(prods[j], clean)
    {
      var production := prods[p];
      if |production| != |clean| {
        continue;
      }
      var all := true;
      for k := 0 to |production|
        invariant all <==> forall j :: 0 <= j < k ==> FamilyMatch(production[j], clean[j])
      {
        if !FamilyMatch(production[k], clean[k]) {
          all := false;
        }
      }
      if all {
        assert production in prods;
        return true;
      }
    }
    forall prod | prod in prods
      ensures !FamilyMatches(prod, clean)
    {
      var j :| 0 <= j < |prods| && prods[j] == prod;
    }
    return false;
  }

  lemma {:induction false} CleanAppend(a: seq<Item>, b: seq<Item>)
    ensures Clean(a + b) == Clean(a) + Clean(b)
    decreases |b|
  {
    if b == [] {
      assert a + b == a;
    } else {
      var last := b[|b| - 1];
      assert (a + b)[..|a + b| - 1] == a + b[..|b| - 1];
      CleanAppend(a, b[..|b| - 1]);
    }
  }

  /** Inserting or removing a connective never changes the answer. */
  lemma ConnectiveIgnored(g: Table, lhs: string, a: seq<Item>, x: Item, b: seq<Item>)
    requires IsConnective(x)
    ensures ValidStructure(g, lhs, a + [x] + b) == ValidStructure(g, lhs, a + b)
  {
    CleanAppend(a + [x], b);
    CleanAppend(a, [x]);
    CleanAppend(a, b);
    assert Clean([x]) == [] by {
      assert [x][..0] == [];
    }
  }

  /** A tuple counts as its first component. */
  lemma TupleAsLabel(g: Table, lhs: string, a: seq<Item>, t: string, b: seq<Item>)
    ensures ValidStructure(g, lhs, a + [Tuple(t)] + b) == ValidStructure(g, lhs, a + [Label(t)] + b)
  {
    CleanAppend(a + [Tuple(t)], b);
    CleanAppend(a, [Tuple(t)]);
    CleanAppend(a + [Label(t)], b);
    CleanAppend(a, [Label(t)]);
    assert Clean([Tuple(t)]) == Clean([Label(t)]) by {
      assert [Tuple(t)][..0] == [] && [Label(t)][..0] == [];
    }
  }

  /** A family match: `NN` accepts `NN-COM` but not `NNP`; an unknown lhs is rejected. */
  lemma FamilyExample()
    ensures var g: Table := map["NP" := [["NN", "JJ"]]];
      && ValidStructure(g, "NP", [Label("NN-COM"), Label("CON-COO"), Tuple("JJ")])
      && !ValidStructure(g, "NP", [Label("NNP"), Label("JJ")])
      && !ValidStructure(g, "VP", [Label("NN"), Label("JJ")])
  {
    var g: Table := map["NP" := [["NN", "JJ"]]];
    var rhs := [Label("NN-COM"), Label("CON-COO"), Tuple("JJ")];
    assert IsConnective(Label("CON-COO")) by {
      assert "CON-COO"[..4] == "CON-";
    }
    assert !IsConnective(Label("NN-COM")) by {
      assert "NN-COM"[..4] != "CON-" by { assert "NN-COM"[0] != 'C'; }
    }
    assert !IsConnective(Tuple("JJ"));
    assert [Label("NN-COM")][..0] == [];
    assert Clean([Label("NN-COM")]) == ["NN-COM"];
    assert rhs[..2][..1] == [Label("NN-COM")];
    assert Clean(rhs[..2]) == ["NN-COM"];
    assert Clean(rhs) == ["NN-COM", "JJ"];
    assert StartsWith("NN-COM", "NN" + "-") by {
      assert "NN-COM"[..3] == "NN-";
    }
    assert FamilyMatches(["NN", "JJ"], Clean(rhs));
    assert ["NN", "JJ"] in g["NP"];
    var bad := [Label("NNP"), Label("JJ")];
    assert !IsConnective(Label("NNP")) && !IsConnective(Label("JJ"));
    assert bad[..1] == [Label("NNP")] && [Label("NNP")][..0] == [];
    assert Clean([Label("NNP")]) == ["NNP"];
    assert Clean(bad) == ["NNP", "JJ"];
    assert !FamilyMatch("NN", "NNP") by {
      assert ("NN" + "-")[2] == '-' && "NNP"[2] == 'P';
      assert |"NN"| != |"NNP"|;
    }
    assert ["NN", "JJ"][0] == "NN" && Clean(bad)[0] == "NNP";
    assert !FamilyMatches(["NN", "JJ"], Clean(bad));
    assert forall prod :: prod in g["NP"] ==> prod == ["NN", "JJ"];
  }
}
