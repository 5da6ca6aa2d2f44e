# Pavita syntactic parser and part-of-speech disambiguator, modelled in Dafny

Pavita preprocesses Indonesian text. This project models two of its
components.

**The syntactic parser.** `ZhyaniSyntacticParser` turns a tagged sentence into
a shallow tree: `('S', chunks)`. It works in three steps:

- It cuts the tokens into segments after every token whose tag starts with
  `SYM-COM`, `SYM-DOT` or `CON-`. Other symbols (`SYM-QUE`, `SYM-EXC`, …) and
  a bare `CON` tag do not close a segment.
- Inside each segment it asks a chunking collaborator for NP, VP, PP, ADJP,
  ADVP or interrogative phrases.
- It wraps lone conjunctions, interjections and symbols as `CONJ`, `INTJ` and
  `PUNCT`.

If chunking raises, the tokens themselves become the children of `S`.

Beside the parse, the parser offers:

- clause-boundary detection;
- a post-order constituent listing with token spans;
- a depth-and-level annotation of the chunks;
- two grammar checks: `match_rule`, which expands one level of non-terminals,
  and `is_valid_structure`, which ignores conjunctions and matches tag
  families.

**The disambiguator.** `Handleambiguity.handle` walks a tagged sentence once.
For each word it tries seven lexically keyed triggers in order:

1. demonstratives;
2. mass nouns;
3. `sama`;
4. `baik`;
5. subordinators;
6. emphatics;
7. degree words.

A trigger runs a context handler over the tag buffer. A trigger that resolves
the word rewrites its tag and ends the word's turn. A final pass then settles
`ini`, `itu` and `tersebut` to `PRP-DEM` or `DT-DEF`.

**How the model is organised.**

- `Tree.Node` is a parse-tree node: a `Leaf(surface, tag)` or a `Chunk(name, kids)`.
- Python's `tag.startswith`, `split("-")[0]` and ASCII `lower()` are in `Text`.
- Python exceptions become `Err` of `Wrappers.Result`. An operation that raises
  in the source returns `Err` in the model, on the same inputs.
- The chunking collaborator is a parameter: a `Chunking.Chunker` of predicates
  and a phrase builder.
- The grammar tables are `Grammar.Table` values passed in.
- The disambiguator's tag list may hold both tag strings and the
  `(token, tag)` pairs that `handle_prpdem_vs_dtdef` stores. This makes it a
  buffer of `Handlers.Entry`. Calling `startswith` on a pair raises, so it
  yields `Err`.
- Loops that update variables are methods with loop invariants. They are
  proved equal to a recursive specification function, and the properties are
  proved about that function.
- The in-place writes of the disambiguator are methods on an `array<Entry>`.

## Model

| member | source | states |
|---|---|---|
| Text.MainTag | modules/parser/syntactic/zhyanisintatic.py:190 | the main tag is the prefix of the tag before its first `-`, or the whole tag when it has none |
| Text.Lower | modules/postag/module/handle_ambiguity.py:206 | lower-casing keeps the length and maps each character on its own |
| Text.LowerOfLowercase | modules/postag/module/handle_ambiguity.py:15 | a word with no capital letter is its own lower-case form |
| Tree.YieldsOfLeaves | modules/parser/syntactic/zhyanisintatic.py:23 | a list of raw tokens yields itself as the leaves of `S` |
| Chunking.CoversAdvances | modules/parser/syntactic/zhyanisintatic.py:212-215 | builders that cover exactly the tokens they skip also move the cursor forward |
| Chunking.SplitFrom | modules/parser/syntactic/zhyanisintatic.py:171-178 | the segment loop from a given open segment on: None as soon as an input item is a chunk (its `[1]` has no `startswith`), otherwise the segments closed after each `SYM-COM`/`SYM-DOT`/`CON-` tag and the non-empty rest |
| Chunking.Segments | modules/parser/syntactic/zhyanisintatic.py:167-178 | the segments of the whole token list, or None when segmentation raises |
| Chunking.SplitFromCuts | modules/parser/syntactic/zhyanisintatic.py:171-178 | the segment loop succeeds exactly on raw tokens, and then cuts after each boundary tag and nowhere else, losing no token |
| Chunking.SegmentsPartition | modules/parser/syntactic/zhyanisintatic.py:171-178 | segmentation raises exactly when some input item is a chunk; otherwise the segments are non-empty, end at boundary tags (all but the last), and concatenate back to the input |
| Chunking.SplitSegments | modules/parser/syntactic/zhyanisintatic.py:167-178 | the buffer-and-flush loop computes the segmentation specified by `Segments` |
| Chunking.Dispatch | modules/parser/syntactic/zhyanisintatic.py:189-210 | the `elif` chain: which builder, if any, is called for the token, each test run only when the earlier arms failed; Err when a test raises, a collaborator test included |
| Chunking.Step | modules/parser/syntactic/zhyanisintatic.py:183-233 | one iteration: a chunk is passed on; otherwise the builder chosen by `Dispatch` answers the element and the new cursor, a falsy answer falls back to `Fallback`, and a raise appends the token and moves by one |
| Chunking.AssembleFrom | modules/parser/syntactic/zhyanisintatic.py:181-233 | the elements appended for one segment from cursor `i` until the cursor leaves the segment |
| Chunking.AssembleAll | modules/parser/syntactic/zhyanisintatic.py:180-233 | the elements of all segments, segment by segment, in order |
| Chunking.PreParse | modules/parser/syntactic/zhyanisintatic.py:166-235 | what `pre_parse_chunking` returns: None when segmentation raises, else the assembled elements of all segments |
| Chunking.Fallback | modules/parser/syntactic/zhyanisintatic.py:216-228 | wrapping a lone `CON`, `INT` or `SYM` token, or keeping it, preserves its leaves |
| Chunking.ChunkAt | modules/parser/syntactic/zhyanisintatic.py:183-233 | one iteration of the chunking loop: the node appended and the new cursor are those of `Step`, including the exception path |
| Chunking.AssembleSegment | modules/parser/syntactic/zhyanisintatic.py:180-233 | the while loop over one segment produces `AssembleFrom(c, segment, 0)` |
| Chunking.PreParseChunking | modules/parser/syntactic/zhyanisintatic.py:166-235 | `pre_parse_chunking` returns the specification `PreParse`: None when segmentation raises, else the concatenated chunk lists |
| Chunking.StepFallback | modules/parser/syntactic/zhyanisintatic.py:212-228 | when no builder answers, the token becomes `CONJ`/`INTJ`/`PUNCT` by its main tag or is kept, and the cursor moves by one |
| Chunking.StepRaised | modules/parser/syntactic/zhyanisintatic.py:230-233 | when the dispatch (one of the collaborator's tests included) or the builder raises, the token itself is appended and the cursor moves by one |
| Chunking.StepConsultsOneBuilder | modules/parser/syntactic/zhyanisintatic.py:194-210 | only the first phrase whose test holds is built: two chunkers that agree on that builder step alike |
| Chunking.SameDispatch | modules/parser/syntactic/zhyanisintatic.py:194-210 | the `elif` dispatch depends only on the chunker's four tests at the token's tag |
| Chunking.StepAdvances | modules/parser/syntactic/zhyanisintatic.py:182-233 | with advancing builders every iteration moves the cursor forward, so the loop ends |
| Chunking.StepCovers | modules/parser/syntactic/zhyanisintatic.py:212-228 | with covering builders one iteration appends an element holding exactly the tokens it moves over, and stays inside the segment |
| Chunking.AssembleFromCovers | modules/parser/syntactic/zhyanisintatic.py:180-233 | chunking a segment from `i` keeps exactly its leaves from `i` on, in order |
| Chunking.AssembleAllCovers | modules/parser/syntactic/zhyanisintatic.py:180-235 | chunking all segments keeps the leaves of their concatenation |
| Chunking.PreParseCovers | modules/parser/syntactic/zhyanisintatic.py:166-235 | `pre_parse_chunking` succeeds exactly on raw tokens, and its chunks yield the tokens back |
| Clauses.OpensClause | modules/parser/syntactic/zhyanisintatic.py:150-159 | an element opens a clause when it is a chunk labelled `VP` or a token whose tag starts with `CON-` |
| Clauses.ContiguousAppend | modules/parser/syntactic/zhyanisintatic.py:152-159 | appending a span that starts where the last one ended keeps the spans contiguous |
| Clauses.TilesExtend | modules/parser/syntactic/zhyanisintatic.py:152-163 | closing the open clause at a position with no opener strictly inside it extends a tiling of the tokens up to that position |
| Clauses.DetectClauseBoundary | modules/parser/syntactic/zhyanisintatic.py:145-164 | the spans are empty exactly for no tokens, tile `[0, len)` contiguously with non-empty spans, each later span opens at a `VP` chunk or `CON-` token, and no opener lies strictly inside a span |
| Constituents.Records | modules/parser/syntactic/zhyanisintatic.py:95-118 | the records `traverse` appends for a node reached with `start` leaves to its left: none for a token; for a chunk, its children's records, then its own `(label, start, end, subtree)` |
| Constituents.KidsRecords | modules/parser/syntactic/zhyanisintatic.py:105-113 | the records of a list of children, each child at the leaf offset where the loop reaches it |
| Constituents.Subtrees | modules/parser/syntactic/zhyanisintatic.py:117 | the subtree column of the records, position by position |
| Constituents.Traversal.constructor | modules/parser/syntactic/zhyanisintatic.py:90 | the constituent list starts empty |
| Constituents.Traversal.Traverse | modules/parser/syntactic/zhyanisintatic.py:95-118 | `traverse` returns the position after the node's leaves, its leaf count and the node itself, and appends the node's post-order records to the list |
| Constituents.ChildStep | modules/parser/syntactic/zhyanisintatic.py:105-113 | moving past one child adds its records at its leaf offset and its leaves to the count |
| Constituents.ChildRecords | modules/parser/syntactic/zhyanisintatic.py:105-113 | the records appended so far are those of the children visited so far, each at its leaf offset, in order |
| Constituents.GetConstituents | modules/parser/syntactic/zhyanisintatic.py:86-121 | None gives `([], 0)`; a tree gives its post-order records (spans from 0) and its leaf count |
| Constituents.RecordsSpan | modules/parser/syntactic/zhyanisintatic.py:101-117 | every record's `[start, end)` is exactly the span of its subtree's leaves within the root's leaves |
| Constituents.KidsRecordsSpan | modules/parser/syntactic/zhyanisintatic.py:105-115 | the same for the records of a list of children starting at a given offset |
| Constituents.RecordsPostOrder | modules/parser/syntactic/zhyanisintatic.py:105-117 | the records list the subtrees in post-order: children before their parent |
| Constituents.KidsRecordsPostOrder | modules/parser/syntactic/zhyanisintatic.py:105-113 | the children's records are their post-orders concatenated |
| Constituents.PostOrderCount | modules/parser/syntactic/zhyanisintatic.py:117 | one record per chunk in the tree |
| Constituents.PostOrdersCount | modules/parser/syntactic/zhyanisintatic.py:105-113 | one record per chunk in a list of children |
| Constituents.ConstituentsOfTree | modules/parser/syntactic/zhyanisintatic.py:86-121 | for a tree: as many records as chunks, the last one the root spanning all leaves, every record spanning its subtree |
| Depth.Annotate | modules/parser/syntactic/zhyanisintatic.py:237-258 | the records of a list: for each chunk its own record, then its children's one level deeper with the next sentence number and itself as parent; tokens skipped |
| Depth.Here | modules/parser/syntactic/zhyanisintatic.py:241-256 | the records of one element: none for a token, else the chunk's record followed by its children's |
| Depth.Chunks | modules/parser/syntactic/zhyanisintatic.py:245-251 | the chunk each record describes, position by position |
| Depth.AnnotatePreOrder | modules/parser/syntactic/zhyanisintatic.py:237-258 | the records describe the chunks in pre-order, one per chunk, leaves skipped |
| Depth.AnnotateLevels | modules/parser/syntactic/zhyanisintatic.py:245-253 | every record is at least as deep as the start, and its sentence number grows with its depth one for one |
| Depth.AnnotateNested | modules/parser/syntactic/zhyanisintatic.py:240-256 | each record is either a top-level chunk at the start depth with the given parent, or has an earlier record one level up that names it as a child and is its parent |
| Depth.HereNested | modules/parser/syntactic/zhyanisintatic.py:242-254 | the same nesting for the records of one chunk of the list |
| Depth.NestedUnder | modules/parser/syntactic/zhyanisintatic.py:245-254 | a chunk's record followed by its children's records, annotated one level deeper with the chunk's label as parent, is nested |
| Grammar.Heads | modules/parser/syntactic/zhyanisintatic.py:73 | the first labels of the productions, or Err exactly when a production is empty |
| Grammar.MatchRule | modules/parser/syntactic/zhyanisintatic.py:60-84 | False for an unknown left side; when it does not raise, True exactly when some production of the same length matches position by position, equal or by a head of the expected non-terminal; it never raises without an empty production |
| Grammar.PositionsFrom | modules/parser/syntactic/zhyanisintatic.py:69-79 | the inner loop over the positions of one production from `k` on: equal labels continue, a non-terminal continues when the label is a head of one of its productions, anything else stops with False; Err when a head lookup raises |
| Grammar.ProductionsFrom | modules/parser/syntactic/zhyanisintatic.py:64-83 | the outer loop over the productions from `p` on: wrong lengths are skipped, the first match answers True |
| Grammar.MatchRuleSpec | modules/parser/syntactic/zhyanisintatic.py:60-84 | `match_rule`: False for an unknown left side, else the outer loop over its productions |
| Grammar.PositionsFromMeaning | modules/parser/syntactic/zhyanisintatic.py:69-79 | the position loop answers whether every remaining position matches |
| Grammar.ProductionsFromMeaning | modules/parser/syntactic/zhyanisintatic.py:64-82 | the production loop answers whether some remaining production matches |
| Grammar.MatchRuleMeaning | modules/parser/syntactic/zhyanisintatic.py:60-84 | `match_rule` decides one-level derivability |
| Grammar.MatchRuleArity | modules/parser/syntactic/zhyanisintatic.py:65-66 | no production of the right length means False |
| Grammar.ArityFrom | modules/parser/syntactic/zhyanisintatic.py:64-66 | productions of the wrong length are skipped |
| Grammar.MatchRuleExample | modules/parser/syntactic/zhyanisintatic.py:60-84 | `VP -> VB-ACT NN-COM` accepts those two tags and rejects one alone |
| Grammar.MatchRuleOneLevel | modules/parser/syntactic/zhyanisintatic.py:72-76 | a non-terminal is expanded to the heads of its productions once, not recursively |
| Grammar.Clean | modules/parser/syntactic/zhyanisintatic.py:127-132 | no cleaned label starts with `CON-`, and cleaning never lengthens the list |
| Grammar.ValidStructure | modules/parser/syntactic/zhyanisintatic.py:123-143 | `is_valid_structure` decides: a known left side with a production of the cleaned labels' length whose every symbol equals the label or is its family prefix before a `-` |
| Grammar.IsValidStructure | modules/parser/syntactic/zhyanisintatic.py:123-143 | True exactly when the left side is known and some production of the cleaned length matches every label, equal or as a `-`-suffixed member of its family |
| Grammar.CleanAppend | modules/parser/syntactic/zhyanisintatic.py:128-132 | labels are cleaned one by one, in order |
| Grammar.ConnectiveIgnored | modules/parser/syntactic/zhyanisintatic.py:131 | inserting a `CON-` label anywhere does not change the verdict |
| Grammar.TupleAsLabel | modules/parser/syntactic/zhyanisintatic.py:129-130 | a tuple counts as its first element |
| Grammar.FamilyExample | modules/parser/syntactic/zhyanisintatic.py:137-139 | `NN-COM CON-COO JJ` is an `NP -> NN JJ`, while `NNP` is not in the `NN` family |
| Parser.SafeChunks | modules/parser/syntactic/zhyanisintatic.py:29-40 | `_safe_chunking`: the chunked list when `pre_parse_chunking` does not raise, else the tokens |
| Parser.SafeChunking | modules/parser/syntactic/zhyanisintatic.py:29-40 | the chunked list, or the tokens when chunking raised |
| Parser.SyntacticParse | modules/parser/syntactic/zhyanisintatic.py:18-27 | the tree is `S` over the safely chunked tokens |
| Parser.ParseKeepsTokens | modules/parser/syntactic/zhyanisintatic.py:18-40 | with covering builders, chunking succeeds exactly on raw tokens and the tree's leaves are the input's leaves, in order |
| Parser.ChunkInInputFallsBack | modules/parser/syntactic/zhyanisintatic.py:171-174 | a chunk anywhere in the input makes chunking raise, so `S` holds the input unchanged |
| Handlers.Sw | modules/postag/module/handle_ambiguity.py:212 | `startswith` on an entry raises exactly for a pair, and otherwise tests the prefix |
| Handlers.Second | modules/postag/module/handle_ambiguity.py:68-70 | `entry[1]` is a pair's tag, or a one-character string from a tag, raising for a tag shorter than two |
| Handlers.PrpDem | modules/postag/module/handle_ambiguity.py:67-85 | `handle_prpdem_vs_dtdef`: reads `[1]` of the entry before and of the two after (one character of a tag, the tag of a pair); answers `DT-DEF` when the next or the previous value starts with `NN`, else `PRP-DEM` at the first word, with no neighbours or with no `NN` next, else `<UNK>`; stores the pair `(token, DT-DEF or PRP-DEM)` at the word; Err when a read raises |
| Handlers.PrpDemAlwaysPrpDem | modules/postag/module/handle_ambiguity.py:67-85 | when the buffer's pairs are all `PRP-DEM`, the handler never sees an `NN` neighbour and always answers `PRP-DEM`, storing `(token, 'PRP-DEM')` |
| Handlers.PrpDemFails | modules/postag/module/handle_ambiguity.py:68-70 | the handler raises exactly when a neighbour within two places after, or the one before, is a tag shorter than two characters |
| Handlers.HandlePrpDemVsDtDef | modules/postag/module/handle_ambiguity.py:67-85 | the answer and the pair stored at the word are those of `PrpDem`; on Err the buffer is unchanged |
| Handlers.MassVsCommon | modules/postag/module/handle_ambiguity.py:87-105 | `handle_mass_vs_common`: `<UNK>` unless the word's tag starts `NN`; else `NN-MASS` after a verb, `NN-MASS` when one of the next two starts `JJ`, `NN-COM` when the next starts `DT`, and the word's own tag otherwise, tests evaluated left to right; Err when a test reads a pair |
| Handlers.MassVsCommonOutcome | modules/postag/module/handle_ambiguity.py:87-105 | between tags, a noun is `NN-MASS` after a verb or before an adjective, else `NN-COM` before a determiner, else unchanged |
| Handlers.MassVsCommonFailsOnPairBefore | modules/postag/module/handle_ambiguity.py:96 | a pair just before the noun makes the handler raise |
| Handlers.Sama | modules/postag/module/handle_ambiguity.py:107-128 | `handle_sama`: `MOD-EMPH` when the next starts `MOD` or is `MOD-NEG` or `ADV-ATT`, else `IN-COM` after a verb, else `JJ-QUALITY`; Err when a test reads a pair |
| Handlers.SamaOutcome | modules/postag/module/handle_ambiguity.py:107-128 | `MOD-EMPH` before a `MOD` tag, `ADV-ATT` or `MOD-NEG`, else `IN-COM` after a verb, else `JJ-QUALITY`; a pair next, or a pair before when no modifier follows, raises |
| Handlers.HandleSama | modules/postag/module/handle_ambiguity.py:107-128 | the answer is `Sama`'s, the word's entry ends as that answer and no other entry changes |
| Handlers.ConsubVsIntemp | modules/postag/module/handle_ambiguity.py:130-147 | `handle_consub_vs_intemp`: `IN-TEMP` when the next or the one after starts with a temporal indicator, else `CON-SUB`; Err when a pair is read |
| Handlers.ConsubVsIntempOutcome | modules/postag/module/handle_ambiguity.py:130-147 | `IN-TEMP` exactly when one of the next two tags starts with a temporal indicator, else `CON-SUB` |
| Handlers.ConsubVsIntempIgnoresOwnTag | modules/postag/module/handle_ambiguity.py:134-147 | the word's own entry does not affect the answer |
| Handlers.JjqualityVsConjunctions | modules/postag/module/handle_ambiguity.py:149-160 | `handle_jjquality_vs_conjunctions`: for a `JJ-QUALITY` word, `CON-COR` next to `CON-COR`, else `JJ-QUALITY`; no answer for any other tag |
| Handlers.JjqualityVsConjunctionsOutcome | modules/postag/module/handle_ambiguity.py:149-160 | an answer only for `JJ-QUALITY`, and `CON-COR` exactly beside a `CON-COR` tag |
| Handlers.ModemphVsModasp | modules/postag/module/handle_ambiguity.py:162-176 | `handle_modemph_vs_modasp`: for `MOD-EMPH`/`MOD-ASP`, `MOD-ASP` beside a verb, else `MOD-EMPH`; no answer for other tags; Err when a test reads a pair |
| Handlers.ModemphVsModaspOutcome | modules/postag/module/handle_ambiguity.py:162-176 | an answer only for `MOD-EMPH`/`MOD-ASP`: `MOD-ASP` exactly beside a verb, else `MOD-EMPH`; a pair before it raises |
| Handlers.AdvVsDtVsJj | modules/postag/module/handle_ambiguity.py:178-199 | `handle_adv_vs_dt_vs_jj`: no answer for a noun; else `JJ-QUALITY` between a `DT` and an `NN`, `ADV-ATT` before a `JJ`, `JJ-QUALITY` after a `VB`, `DT-INDEF` before an `NN`, and `AVD-ATT` as written otherwise; Err when a test reads a pair |
| Handlers.AdvVsDtVsJjOutcome | modules/postag/module/handle_ambiguity.py:178-199 | no answer for a noun; else the first rule of determiner-noun, adjective after, verb before, noun after, with `AVD-ATT` last; for a non-noun, a pair before it, or a pair after a tag before it, raises |
| Disambiguation.Applies | modules/postag/module/handle_ambiguity.py:15-57 | the lexical test of each of the seven `if` blocks, in source order |
| Disambiguation.Resolves | modules/postag/module/handle_ambiguity.py:17-62 | `answer and answer != tag`: a non-empty answer differing from the incoming tag |
| Disambiguation.Fire | modules/postag/module/handle_ambiguity.py:67-128 | a handler's own stores touch the word's entry only |
| Disambiguation.TryTrigger | modules/postag/module/handle_ambiguity.py:15-20 | one trigger block changes no entry but the word's |
| Disambiguation.TriggersFrom | modules/postag/module/handle_ambiguity.py:15-62 | the trigger chain changes no entry but the word's |
| Disambiguation.VisitOutcome | modules/postag/module/handle_ambiguity.py:12-62 | one iteration of the first loop: the seven blocks in order, stopping at the first that resolves the word; Err when a handler raises |
| Disambiguation.FirstPassFrom | modules/postag/module/handle_ambiguity.py:11-62 | the first loop from `idx` keeps the length and leaves the entries before `idx` as they were |
| Disambiguation.Tokens | modules/postag/module/handle_ambiguity.py:6 | the words of the input, in order |
| Disambiguation.InitialTags | modules/postag/module/handle_ambiguity.py:7 | the tags of the input, in order, as tag entries |
| Disambiguation.FirstPass | modules/postag/module/handle_ambiguity.py:5-62 | the first loop keeps the buffer's length |
| Disambiguation.DemFrom | modules/postag/module/handle_ambiguity.py:202-221 | the final pass from `i` keeps the length and the entries before `i` |
| Disambiguation.HandleSpec | modules/postag/module/handle_ambiguity.py:5-65 | what `handle` returns: the first loop over the incoming tags, then the demonstrative pass, zipped with the words; Err when either raises |
| Disambiguation.Zip | modules/postag/module/handle_ambiguity.py:65 | each word paired with its final entry |
| Disambiguation.ApplyTrigger | modules/postag/module/handle_ambiguity.py:15-62 | one `if` block on the array agrees with `TryTrigger` on the array's contents |
| Disambiguation.Visit | modules/postag/module/handle_ambiguity.py:12-62 | one iteration of the first loop agrees with `VisitOutcome`: same failure, same buffer, same resolved flag |
| Disambiguation.DemonstrativeDisambiguation | modules/postag/module/handle_ambiguity.py:202-221 | the in-place pass returns `DemFrom` of the incoming tags and leaves it in the array |
| Disambiguation.Handle | modules/postag/module/handle_ambiguity.py:5-65 | `handle` returns `HandleSpec`, or Err when a handler raises |
| DisambiguationFacts.TriggersExclusive | modules/postag/module/handle_ambiguity.py:15-62 | the seven lexical tests are mutually exclusive, so at most one handler runs per word |
| DisambiguationFacts.AppliesOnlyToTriggerWords | modules/postag/module/handle_ambiguity.py:15-57 | a trigger applies only to a word of its lexical set |
| DisambiguationFacts.TriggersFromSkip | modules/postag/module/handle_ambiguity.py:15-62 | a word outside every lexical set leaves the buffer as it is and is not resolved |
| DisambiguationFacts.TriggersFromNone | modules/postag/module/handle_ambiguity.py:15-62 | when no remaining trigger applies, the visit changes nothing |
| DisambiguationFacts.FirstPassFrame | modules/postag/module/handle_ambiguity.py:11-62 | the first loop changes an entry only at a trigger word |
| DisambiguationFacts.DemFromFrame | modules/postag/module/handle_ambiguity.py:205-220 | the final pass changes an entry only at `ini`, `itu` or `tersebut` |
| DisambiguationFacts.HandleKeepsShape | modules/postag/module/handle_ambiguity.py:5-65 | `handle` returns one pair per input pair, same words in the same order, and a word outside the trigger sets keeps its tag |
| DisambiguationFacts.VisitDemonstrative | modules/postag/module/handle_ambiguity.py:15-20 | the demonstrative trigger never resolves: its visit leaves `(token, 'PRP-DEM')` at the word, or raises |
| DisambiguationFacts.TriggersFromKeepsPairs | modules/postag/module/handle_ambiguity.py:15-85 | a visit stores no pair but `(token, 'PRP-DEM')` |
| DisambiguationFacts.FirstPassKeepsPairs | modules/postag/module/handle_ambiguity.py:11-62 | after the first loop every pair in the buffer is `PRP-DEM` |
| DisambiguationFacts.FirstPassLeavesPairs | modules/postag/module/handle_ambiguity.py:11-20 | after the first loop every incoming `PRP-DEM` demonstrative holds the pair `(token, 'PRP-DEM')` |
| DisambiguationFacts.DemikianKeepsPair | modules/postag/module/handle_ambiguity.py:15-20 | a `PRP-DEM` `demikian` is returned with the pair `(token, 'PRP-DEM')` as its tag |
| DisambiguationFacts.DemFromSettles | modules/postag/module/handle_ambiguity.py:205-220 | each `ini`/`itu`/`tersebut` ends `DT-DEF` exactly when the next entry starts `NN` or `JJ` and the already settled previous one does not start `VB` or `IN`, else `PRP-DEM` |
| DisambiguationFacts.HandleSettlesDemonstratives | modules/postag/module/handle_ambiguity.py:202-221 | the same for `handle`'s output: the next tag is read after the first loop, the previous one in the output |
| DisambiguationFacts.FirstDemonstrativeVisit | modules/postag/module/handle_ambiguity.py:15-20 | the visit of a `PRP-DEM` demonstrative at the first word stores the pair `(token, 'PRP-DEM')` and does not resolve the word |
| DisambiguationFacts.LastWordPlain | modules/postag/module/handle_ambiguity.py:11-62 | a last word outside every lexical set ends the first loop with the buffer unchanged |
| DisambiguationFacts.DemFromNone | modules/postag/module/handle_ambiguity.py:205-220 | with no `ini`, `itu` or `tersebut` left, the final pass changes nothing |
| DisambiguationFacts.LoneDemonstrativeFirstPass | modules/postag/module/handle_ambiguity.py:11-20 | on a lone `PRP-DEM` demonstrative the first loop stores the pair |
| DisambiguationFacts.DemonstrativeThenPlainFirstPass | modules/postag/module/handle_ambiguity.py:11-62 | on a `PRP-DEM` demonstrative followed by a word outside every lexical set, the first loop stores the pair for the first and leaves the second |
| DisambiguationFacts.PlainThenVisitFirstPass | modules/postag/module/handle_ambiguity.py:11-62 | after a first word outside every lexical set, the first loop ends with what the visit of the second word gives |
| DisambiguationFacts.LoneWord | modules/postag/module/handle_ambiguity.py:5-65 | a lone word other than `ini`, `itu`, `tersebut` is returned with what the first loop gave it |
| DisambiguationFacts.TwoWords | modules/postag/module/handle_ambiguity.py:5-65 | two words other than `ini`, `itu`, `tersebut` are returned with what the first loop gave them |
| DisambiguationFacts.DemonstrativeThenNoun | modules/postag/module/handle_ambiguity.py:202-221 | `ini`/`itu`/`tersebut` first, then a word whose tag starts `NN`: the first becomes `DT-DEF`, whatever the first loop stored for it |
| DisambiguationFacts.ItuBeforeNoun | modules/postag/module/handle_ambiguity.py:5-65 | `itu mobil` becomes `DT-DEF NN-COM` |
| DisambiguationFacts.DemikianExample | modules/postag/module/handle_ambiguity.py:5-65 | `demikian` alone is returned with the pair as its tag |
| DisambiguationFacts.ItuThenSamaFails | modules/postag/module/handle_ambiguity.py:107-116 | `itu sama` raises: `sama`'s handler calls `startswith` on the pair stored for `itu` |
| DisambiguationFacts.SamaAfterPairVisit | modules/postag/module/handle_ambiguity.py:107-116 | the visit of `sama` after the stored pair raises |
| DisambiguationFacts.DegreeAfterPairVisit | modules/postag/module/handle_ambiguity.py:57-62 | the visit of a non-noun `sedikit`/`lumayan` after a stored pair raises: no earlier trigger applies and the handler raises at :187 |
| DisambiguationFacts.DemonstrativeThenDegreeFails | modules/postag/module/handle_ambiguity.py:5-65 | a `PRP-DEM` demonstrative followed by a non-noun degree word makes `handle` raise |
| DisambiguationFacts.ItuThenSedikitFails | modules/postag/module/handle_ambiguity.py:178-199 | `itu sedikit` raises: the degree handler calls `startswith` on the pair stored for `itu` |
| DisambiguationFacts.SamaAfterVerbVisit | modules/postag/module/handle_ambiguity.py:29-34 | the visit of `sama` after `makan` resolves it to `IN-COM` |
| DisambiguationFacts.SamaAfterVerb | modules/postag/module/handle_ambiguity.py:5-65 | `makan sama` becomes `VB-ACT IN-COM` |

## Left out

- Logging, the `load()` call, and the `hasattr` guards in `_safe_chunking`,
  `_safe_clause_detection` and `_safe_analysis`. The guarded methods always
  exist, so the guards always pass.
- The pretty-printer `ppront.pretty_print_to_file` and the command-line driver
  `pavita.py`. Both are file and console I/O.
- The chunking collaborator (`is_np_token`, `build_np`, …). Its code is not
  part of this model. It is a parameter: four tag predicates, each answering
  a boolean or Err when it raises (which sends the token down the `except`
  path, as at :230-233), and one builder, which answers Raised, NoChunk or
  Built(chunk, next).
  - A builder returning a pair whose first element is `None`, such as
    `(None, i)`, is not represented. Every 2-tuple is true in Python, so the
    source takes it as a match: it appends `None` to `all_chunks` (:214) and
    resumes at `i` (:215). `Built` always carries a node, so the model's
    output never holds `None`.
  - Builders must move the cursor forward (`Chunking.Advances`). A builder
    that does not would loop forever in the source.
- The grammar tables `cfg` and `cfg_rules` are parameters (`Grammar.Table`).
  `match_rule` reads `self.cfg_rules`, which the class never assigns. So in
  the source every call raises `AttributeError`. The model gives it a table,
  so that the rule itself can be stated.
- Bare-string nodes in `get_constituents` (:96-97) are not represented.
  `Tree.Node` has only leaf pairs and chunks, and `syntactic_parse` never
  builds a bare string.
- The results of clause detection and of the two analyses inside
  `syntactic_parse` are computed and then dropped, as in the source.
  `Parser.SyntacticParse` models `_safe_clause_detection` and
  `_safe_analysis` by calling the analyses directly. Exceptions in them are
  out of scope, because they cannot raise on trees built from `Tree.Node`.
- Python's `lower()` is modelled on ASCII letters only. Unicode case mapping
  is not represented.
- Exceptions are modelled as a single `Err`. Which exception was raised is
  not kept.
- Disambiguation.Visit: on Err, the contents of the array are left
  unspecified. `handle` propagates the exception, so that state is never
  observed.
- Disambiguation.ApplyTrigger: the same holds on Err.
- The `fixed_indices` set in `handle` only ever holds indices already passed,
  so its `continue` never fires. `Disambiguation.Handle` keeps the set, and
  its loop invariant states that the set holds only indices below the
  current one.
- Handlers.MassVsCommon: the second test `not next_next_tag.startswith('JJ')`
  at :102 is only reached after that same call returned False at :99. The
  model reuses the earlier result instead of evaluating it again.
- Handlers.PrpDem: the final branch, which stores `(token, 'DT-DEF')` and
  returns `<UNK>`, is modelled. It is unreachable, because the first branch
  already catches a next tag starting with `NN`.
