# A verified model of the in-browser semantic parser

The repository's semantic parser is a small JavaScript system. It has five parts.

- **Grammar and parser.** A grammar holds lexical rules (a category over words) and binary rules (a category over two categories). It parses a sentence bottom-up with the CYK algorithm. Each derivation's meaning is computed from its rule's `sem` when the derivation is built.
- **Lexicon synthesis.** It extends a grammar with a cross product of tokens, target meanings and categories, and it gathers the tokens of a training set.
- **Linear model.** It scores each parse as a dot product of feature counts and weights, and ranks the parses.
- **Learner.** A structured perceptron learns the weights from examples annotated with their meaning or their denotation.
- **LispJS interpreter and evaluation.** A small Scheme interpreter executes meanings. An evaluation routine reports accuracy and oracle accuracy, by meaning and by denotation.

The demo page adds the default arithmetic grammar, two feature functions and the example sets.

The Dafny modules follow those files:

| module | models |
|---|---|
| `JsText` | `split(/[\s]+/)`, `trim`, `join`, and integer printing and reading |
| `Sems` | meanings as JavaScript values; `sem_eq` |
| `JsObject` | plain objects used as dictionaries: the names they inherit from `Object.prototype`, and the order of `for (key in o)` |
| `SemParser` | `semparser.js`: `Rule`, `Parse`, `Grammar`, and the chart as a specification |
| `ChartFacts` | what the chart holds (soundness, completeness, entry counts, meanings) |
| `Lexicon` | `cartesianProduct`, `lexicalCartesianProduct`, `generateLexicon`, `gatherTokens` |
| `Scoring` | feature dot products and the stable sort by score |
| `Perceptron` | one epoch of `learnWeights` as functions over a random stream |
| `LinearModel` | `model.js`: the `Model` class and its methods |
| `Lisp` | `lisp.js`: tokenizer, reader, printer, environments, evaluator |
| `Experiment` | `experiment.js` |
| `Demo`, `DemoParses`, `DemoCounts`, `DemoSentences`, `DemoMeanings` | `demo.js`: its feature functions, default grammar and sample sentences |

Where the code mutates state, the model does too.
- `Grammar`, `Model`, the token array the reader shifts from, and the feature dictionary are classes with `modifies` clauses.
- Each of their loops is a `while` or `for` loop proved against a function that specifies it.
- The JavaScript engine that runs a rule's `sem` function is the parameter `run: Runner`. So is every other user-supplied function: the feature function, the executor and the callable test.

## Model

| member | source | states |
|---|---|---|
| `SemParser.NewRule` | static/code/semparser/semparser.js:17-20 | keeps lhs and sem; an array rhs is kept as is; a string rhs becomes its `split(/[\s]+/)` pieces (`JsText.Split`), at least one and each whitespace-free |
| `SemParser.LexicalBinaryExclusive` | static/code/semparser/semparser.js:26-32 | a rule with a non-empty rhs is never both lexical (no `$` label) and binary (exactly two `$` labels) |
| `SemParser.Insert` | static/code/semparser/semparser.js:144-152 | `add_rule` succeeds exactly for lexical or binary rules; otherwise the error is "Cannot accept rule " + `toString()`; a lexical rule is appended under its rhs key with the binary index untouched, and a binary rule the other way round |
| `SemParser.InsertWf` | static/code/semparser/semparser.js:144-148 | filing a rule keeps the index well formed: every rule sits under its own rhs key in the right index, and the binary keys are distinct and in insertion order |
| `SemParser.InsertAllAccepts` | static/code/semparser/semparser.js:157-159 | building a grammar succeeds if and only if every rule is lexical or binary |
| `SemParser.InsertAllWf` | static/code/semparser/semparser.js:154-159 | a grammar built from rules has a well-formed index |
| `SemParser.InsertAllLexical` | static/code/semparser/semparser.js:145-146 | the lexical list under each key is exactly the lexical rules with that rhs key, in input order |
| `SemParser.InsertAllBinary` | static/code/semparser/semparser.js:147-148 | the binary list under each key is exactly the binary rules with that rhs key, in input order |
| `SemParser.InsertAllKeys` | static/code/semparser/semparser.js:188 | `Object.keys` of the binary index lists the binary rhs keys once each, in first-seen order |
| `SemParser.InsertAllFiles` | static/code/semparser/semparser.js:154-159 | all four filing facts together |
| `SemParser.InsertAllStops` | static/code/semparser/semparser.js:157-159 | once a rule is refused, later rules cannot change the error |
| `SemParser.NewGrammar` | static/code/semparser/semparser.js:143-159 | `new Grammar(rules)` throws the first refusal's message, or gives a fresh grammar holding exactly the filed rules |
| `SemParser.Grammar.constructor` | static/code/semparser/semparser.js:154-155 | a new grammar has empty indexes |
| `SemParser.Grammar.AddRule` | static/code/semparser/semparser.js:144-152 | the index becomes `Insert` of the old index; on refusal the error is returned and the index is unchanged |
| `SemParser.Rows` | static/code/semparser/semparser.js:167-170 | row `k` of the chart has one cell per start position of a span of length `k + 1` |
| `SemParser.RowsPrefix` | static/code/semparser/semparser.js:181-202 | filling longer spans never changes the rows of shorter spans |
| `SemParser.BinCellPrefix` | static/code/semparser/semparser.js:190-194 | a cell of span `l` reads only rows below `l` |
| `SemParser.ApplySplitsPrefix` | static/code/semparser/semparser.js:183-199 | the same holds for the splits up to any `p` |
| `SemParser.Grammar.LexicalCell` | static/code/semparser/semparser.js:172-177 | the loop over a token's lexical rules gives the specified span-1 cell |
| `SemParser.Grammar.LexicalPass` | static/code/semparser/semparser.js:167-178 | the lexical pass allocates a triangular chart whose first row is the specified row and whose other cells are empty |
| `SemParser.Grammar.PushPair` | static/code/semparser/semparser.js:193-195 | the inner loop appends one node per right child, in order |
| `SemParser.Grammar.CombineRule` | static/code/semparser/semparser.js:190-197 | one binary rule at one split adds every left/right pair, when both categories are present |
| `SemParser.Grammar.CombineRules` | static/code/semparser/semparser.js:189-198 | the rules under one key are applied in list order |
| `SemParser.Grammar.CombineSplit` | static/code/semparser/semparser.js:188-199 | the binary keys are applied in `Object.keys` order |
| `SemParser.Grammar.FillCell` | static/code/semparser/semparser.js:183-200 | the splits `p = 1 .. l-1` fill the specified cell |
| `SemParser.Grammar.BinaryRow` | static/code/semparser/semparser.js:181-202 | one pass of the span loop fills row `l - 1` as specified, leaving longer spans empty |
| `SemParser.Grammar.ParseInput` | static/code/semparser/semparser.js:161-203 | `parse_input` returns the specified `$E` list of the whole-input cell, or `undefined` |
| `ChartFacts.LexCellSound` | static/code/semparser/semparser.js:172-177 | every leaf of a span-1 cell is a derivation of its category over that token |
| `ChartFacts.ApplySplitsSound` | static/code/semparser/semparser.js:183-199 | combining sound cells at any number of splits yields only derivations over the span |
| `ChartFacts.RowsSound` | static/code/semparser/semparser.js:181-202 | every cell the passes fill is sound for its token span |
| `ChartFacts.CellSound` | static/code/semparser/semparser.js:167-202 | every entry of cell (l, s) under X derives X over tokens s..s+l-1, with the meanings `compute_semantics` gives |
| `ChartFacts.LeafInCell` | static/code/semparser/semparser.js:172-175 | every lexical rule filed under a token has its leaf in that token's cell |
| `ChartFacts.NodeInCell` | static/code/semparser/semparser.js:190-194 | a binary rule joining entries of two adjacent cells has that node in the cell spanning both |
| `ChartFacts.NodeInPrefix` | static/code/semparser/semparser.js:183-196 | that node lies among the entries built by splits up to `p`, which fixes chart order |
| `ChartFacts.ChartClosed` | static/code/semparser/semparser.js:167-202 | the chart lists every leaf and every node built from listed halves |
| `ChartFacts.CellComplete` | static/code/semparser/semparser.js:181-202 | every derivation of the grammar over a token span is in that span's cell |
| `ChartFacts.ParseTokensCorrect` | static/code/semparser/semparser.js:161-203 | the result is `undefined` exactly when no `$E` derivation covers the input; otherwise it is a non-empty list of such derivations containing every one of them |
| `ChartFacts.StoredMeaning` | static/code/semparser/semparser.js:127-134 | the meaning stored in a derivation is its bottom-up meaning: a leaf means its rule's `sem`, and a node applies a function `sem` to its children's meanings, left child first |
| `ChartFacts.ParseMeanings` | static/code/semparser/semparser.js:127-134 | every parse `parse_input` returns carries the bottom-up meaning of its tree |
| `ChartFacts.ProductsSize` | static/code/semparser/semparser.js:192-196 | a rule at a split contributes `|left| * |right|` nodes |
| `ChartFacts.LexCellCount` | static/code/semparser/semparser.js:172-177 | a span-1 cell has one entry per lexical rule of that lhs filed under the token |
| `ChartFacts.CellCount` | static/code/semparser/semparser.js:181-202 | the number of entries under X in a longer cell is the sum over splits and rules of the products of child counts; nothing is merged or dropped |
| `ChartFacts.SplitsCount` | static/code/semparser/semparser.js:183-199 | the same count for the splits up to `p` |
| `Lexicon.CartSize` | static/code/semparser/semparser.js:39 | `fCart(a, b)` has `|a| * |b|` pairs |
| `Lexicon.CartAt` | static/code/semparser/semparser.js:39 | pair `i * |b| + j` is `(a[i], b[j])` (row-major order) |
| `Lexicon.CartMember` | static/code/semparser/semparser.js:39 | every pair draws from `a` and `b` |
| `Lexicon.Cart3Size` | static/code/semparser/semparser.js:40 | the three-way product has `|a| * |b| * |c|` triples |
| `Lexicon.Cart3At` | static/code/semparser/semparser.js:40 | triple `(i * |b| + j) * |c| + k` is `(a[i], b[j], c[k])` |
| `Lexicon.Cart3Member` | static/code/semparser/semparser.js:40 | every triple draws from `a`, `b` and `c` |
| `Lexicon.GroupByLhs` | static/code/semparser/semparser.js:46-50 | the loop throws exactly when some lhs is an `Object.prototype` name; otherwise the keys are the distinct lexical lhs's in insertion order, each holding its rules in order |
| `Lexicon.FileOne` | static/code/semparser/semparser.js:48-49 | filing one rule under an lhs the object does not inherit keeps the map and its insertion order in step with the rules filed so far |
| `Lexicon.LexicalOnlyMember` | static/code/semparser/semparser.js:43 | `filter(is_lexical)` keeps exactly the lexical rules |
| `Lexicon.LexicalOnlyInherited` | static/code/semparser/semparser.js:43-50 | the filing loop meets an inherited lhs exactly when some lexical rule of the input has one |
| `Lexicon.LexicalCartesianProduct` | static/code/semparser/semparser.js:42-63 | it throws the `push` TypeError exactly when a lexical rule has an inherited lhs; otherwise the result is the non-lexical rules, then per lhs group, in `for (key in …)` order, every rule paired with every distinct meaning of the group |
| `JsObject.OwnKeysFacts` | static/code/semparser/semparser.js:51 | `for (key in o)` visits exactly the added keys, each as often as it was added: the array-index keys first in ascending numeric order, then the other keys in insertion order |
| `JsObject.OwnKeysPlain` | static/code/semparser/semparser.js:51 | with no array-index key the visit order is the insertion order |
| `JsObject.OwnKeysIndexFirst` | static/code/semparser/semparser.js:51 | lhs's added as "$E" then "0" are visited as "0" then "$E" |
| `Lexicon.LexExpandSize` | static/code/semparser/semparser.js:42-63 | the result size is the non-lexical count plus, per group, rules times distinct meanings |
| `Lexicon.GroupExpandAt` | static/code/semparser/semparser.js:53-58 | entry `i * m + j` of a group is rule `i` with the group's `j`-th distinct meaning |
| `Lexicon.GroupExpandMember` | static/code/semparser/semparser.js:53-58 | every expanded rule is some group rule with the `sem` of some group rule |
| `Lexicon.SplitCats` | static/code/semparser/semparser.js:71-76 | categories ending in `Op` go to `op_cats`, the rest to `tok_cats`, order kept |
| `Lexicon.SplitSems` | static/code/semparser/semparser.js:77-82 | callable meanings go to `op_sems`, the rest to `tok_sems`, order kept |
| `Lexicon.RulesOfTriples` | static/code/semparser/semparser.js:87-89 | one rule `cat -> token : sem` per triple, in order |
| `Lexicon.GenerateLexicon` | static/code/semparser/semparser.js:65-91 | the lexicon is the op triples' rules followed by the token triples' rules |
| `Lexicon.LexiconSize` | static/code/semparser/semparser.js:84-86 | its size is the sum of the two triple products |
| `Lexicon.LexiconKinds` | static/code/semparser/semparser.js:68-88 | every rule has a literal target meaning and a given category; its category ends in `Op` exactly when its meaning is callable, and exactly when it lies in the first block |
| `Lexicon.LexiconOpAt` | static/code/semparser/semparser.js:84-88 | the position of each op rule in the first block |
| `Lexicon.GatherTokens` | static/code/semparser/semparser.js:93-100 | the tokens are the split pieces of all inputs, deduplicated in first-seen order |
| `Lexicon.AddTokens` | static/code/semparser/semparser.js:97 | adding one input's pieces to the set keeps it the deduplication of everything seen |
| `Lexicon.GatherTokensFacts` | static/code/semparser/semparser.js:93-100 | the tokens are distinct and whitespace-free, every one comes from an input, and every input piece is among them |
| `JsText.Split` | static/code/semparser/semparser.js:164 | `split(/[\s]+/)` gives at least one piece; no piece holds whitespace; only the first and last can be empty |
| `JsText.SplitTrimmed` | static/code/semparser/semparser.js:19 | a string with no whitespace at either end splits into exactly its words |
| `JsText.TrimWords` | static/code/semparser/lisp.js:22 | `trim()` keeps the words and leaves no whitespace at either end |
| `JsText.SplitTrim` | static/code/semparser/lisp.js:22 | `trim().split(/[\s]+/)` gives the words, or `[""]` for a blank string |
| `JsText.IntToStringParses` | static/code/semparser/lisp.js:51-53 | an integer's decimal text parses back to it |
| `JsText.IntToStringInjective` | static/code/semparser/lisp.js:53 | distinct integers print differently |
| `Collections.DedupProps` | static/code/semparser/semparser.js:95-99 | a `Set` turned into an array has no duplicates and exactly the inserted elements |
| `Collections.DedupFirstSeen` | static/code/semparser/semparser.js:95-99 | its elements come in order of first insertion |
| `Sems.SemEqStructural` | static/code/semparser/experiment.js:5-15 | `sem_eq` holds exactly for equal meanings that contain no `null` |
| `Sems.SemEqReflexiveSymmetric` | static/code/semparser/experiment.js:5-15 | `sem_eq` is symmetric, and reflexive exactly on null-free meanings |
| `Sems.SemEqExamples` | static/code/semparser/experiment.js:5-15 | null is not `sem_eq` to itself, 1 is not "1", and argument order matters |
| `Scoring.DotRemove` | static/code/semparser/model.js:27-31 | the score adds weight times count for each feature, in any order |
| `Scoring.DotUnweighted` | static/code/semparser/model.js:29 | a missing weight counts as 0 |
| `Scoring.DotSingle` | static/code/semparser/model.js:24-33 | a single feature scores its weight times its count |
| `Scoring.DotIgnoresOtherWeights` | static/code/semparser/model.js:24-33 | only the weights of the parse's own features matter |
| `Scoring.InsertSorted` | static/code/semparser/model.js:43-45 | inserting by score keeps a list in non-increasing order |
| `Scoring.SortByScoreFacts` | static/code/semparser/model.js:43-45 | `sort((a, b) => b.score - a.score)` orders by non-increasing score, permutes, and keeps equal scores in their original order (a stable sort) |
| `Scoring.SortByScoreIdempotent` | static/code/semparser/model.js:43-45 | sorting a sorted list changes nothing |
| `Scoring.RankingFacts` | static/code/semparser/model.js:35-47 | `parse_input` succeeds exactly when the grammar parses; it returns the annotated parses sorted and stable, each scored by its dot product |
| `LinearModel.Model.constructor` | static/code/semparser/model.js:18-22 | the model stores its grammar, feature function, weights and executor |
| `LinearModel.Model.Score` | static/code/semparser/model.js:24-33 | the feature loop computes the dot product of the features and the weights |
| `LinearModel.Model.ParseInput` | static/code/semparser/model.js:35-47 | the result is the specified ranking, or the TypeError when the grammar returns `undefined` |
| `LinearModel.Draw` | static/code/semparser/model.js:73 | the rejection loop draws the specified fresh index from the random stream |
| `LinearModel.Model.TallyParses` | static/code/semparser/model.js:80-110 | the parse loop gives the specified tally; feature names are collected in the first epoch only |
| `LinearModel.Model.RankEpoch` | static/code/semparser/model.js:71-111 | the example loop visits the examples in the specified random order |
| `LinearModel.Model.ApplyUpdate` | static/code/semparser/model.js:124-133 | the weights become the specified perceptron update |
| `LinearModel.Model.UpdateEpoch` | static/code/semparser/model.js:117-134 | the update loop applies the specified update per example with a target |
| `LinearModel.Model.Epoch` | static/code/semparser/model.js:69-135 | one epoch changes the weights to the specified epoch result |
| `LinearModel.Model.EpochWith` | static/code/semparser/model.js:69-135 | the same, through the epoch step function |
| `LinearModel.Model.LearnWeights` | static/code/semparser/model.js:49-136 | `learnWeights` runs `T` epochs from the model's weights with an empty vocabulary, leaving the weights and per-epoch correct counts of the reference run `LearnFrom`, or its first error |
| `LinearModel.Model.Train` | static/code/semparser/model.js:68-136 | the epoch loop applies one epoch per iteration from the weights, vocabulary and stream position the previous one left, and stops at the first failing epoch |
| `Perceptron.FirstCorrect` | static/code/semparser/model.js:95-99 | the target is the first correct parse, or none when no parse is correct |
| `Perceptron.BestBound` | static/code/semparser/model.js:78 | the best criterion is at least the sentinel −100000, bounds every entry, and is attained unless it is the sentinel |
| `Perceptron.CollectCharacterised` | static/code/semparser/model.js:92-109 | the parse loop's tally is the first correct parse's features, the best criterion (score, plus 1 if not the target), and the parses attaining it, in order |
| `Perceptron.CandidatesExist` | static/code/semparser/model.js:103-109 | there are candidates exactly when some criterion reaches the sentinel |
| `Perceptron.TargetExists` | static/code/semparser/model.js:95-99 | there is a target exactly when some parse is correct, and it is the first correct one |
| `Perceptron.PickInRange` | static/code/semparser/model.js:121 | `Math.floor(random() * n)` lies in `0 .. n-1` |
| `Perceptron.DrawFrom` | static/code/semparser/model.js:73 | a draw gives an index not drawn before and advances the stream |
| `Perceptron.DrawInRange` | static/code/semparser/model.js:73 | a drawn index lies in range |
| `Perceptron.RankFromVisits` | static/code/semparser/model.js:71-111 | the example loop keeps its visit invariant; it fails only when the stream runs out or an input does not parse |
| `Perceptron.RankEpochFacts` | static/code/semparser/model.js:71-111 | an epoch visits each example exactly once, in a permutation of the indices, tallying each one with the same scorer; names are collected in the first epoch only |
| `Perceptron.UpdatedFacts` | static/code/semparser/model.js:124-133 | each vocabulary weight moves by eta times (target count − chosen count); a key is added only for a non-zero update; equal features leave the weights unchanged |
| `Perceptron.UpdateFromFacts` | static/code/semparser/model.js:117-134 | the update loop adds at most one correct choice per remaining target, changes nothing when no target remains, and never touches a weight outside the vocabulary |
| `Perceptron.TargetsBound` | static/code/semparser/model.js:117-119 | there is at most one target per example |
| `Perceptron.EpochAccuracy` | static/code/semparser/model.js:118-122 | the correct count of an epoch is at most the number of examples, and the vocabulary is fixed after epoch 0 |
| `Perceptron.EpochWithoutTargets` | static/code/semparser/model.js:95-117 | when every example parses but none has a correct parse, an epoch changes no weight and counts 0 correct |
| `Perceptron.EpochsAccuracy` | static/code/semparser/model.js:68-136 | the epoch loop reports at most one accuracy per epoch, exactly one per epoch unless an epoch fails, each within the per-epoch bound |
| `Perceptron.LearnAccuracy` | static/code/semparser/model.js:68-136 | `learnWeights` reports one accuracy per epoch unless the stream runs out, each at most the number of examples |
| `Experiment.MarkParses` | static/code/semparser/experiment.js:43-67 | the per-parse loop gives the specified marks |
| `Experiment.EvaluateModel` | static/code/semparser/experiment.js:17-92 | `evaluate_model` accumulates the specified totals, or throws where an example throws |
| `Experiment.MarksBounds` | static/code/semparser/experiment.js:43-59 | per example, accuracy is at most oracle accuracy, both are 0 or 1, the parse count is the number of parses, and semantic accuracy is 1 exactly when the top parse's meaning is `sem_eq` to the annotation |
| `Experiment.OracleIgnoresRanking` | static/code/semparser/experiment.js:43-59 | oracle marks do not depend on the ranking: oracle accuracy is 1 exactly when some chart parse has the annotated meaning (or denotation) |
| `Experiment.RankingPermutes` | static/code/semparser/experiment.js:29 | the ranked parses are a permutation of the annotated chart parses |
| `Experiment.EvaluateFromBounds` | static/code/semparser/experiment.js:69-73 | the running totals keep accuracy ≤ oracle ≤ examples seen, and the parse total adds the parse counts |
| `Experiment.EvaluationTotals` | static/code/semparser/experiment.js:84-90 | each reported quotient lies in [0, 1], and accuracy never exceeds oracle accuracy |
| `Experiment.Quotients` | static/code/semparser/experiment.js:86-89 | dividing ordered totals by the example count keeps them ordered within [0, 1] |
| `Experiment.ExampleThrows` | static/code/semparser/experiment.js:29-53 | an example throws exactly when its input does not parse or there is no executor while it has parses |
| `Experiment.EvaluationThrows` | static/code/semparser/experiment.js:28-83 | evaluation throws exactly when some example throws |
| `Lisp.Lex` | static/code/semparser/lisp.js:22 | every token is a parenthesis or a delimiter-free atom |
| `Lisp.WordsPad` | static/code/semparser/lisp.js:22 | padding parentheses with spaces and splitting gives the lexical tokens |
| `Lisp.TokenizeLex` | static/code/semparser/lisp.js:20-23 | `tokenize` gives the parentheses and atoms in order, or `[""]` for a blank program |
| `Lisp.Atom` | static/code/semparser/lisp.js:50-63 | a number only when its decimal text is the token itself and non-zero, a symbol of the token otherwise |
| `Lisp.AtomNumber` | static/code/semparser/lisp.js:51-54 | every non-zero integer within ±2^53 reads back from its text as a number |
| `Lisp.AtomZeros` | static/code/semparser/lisp.js:53 | "0" (falsy) and "007" (prints differently) are symbols |
| `Lisp.AtomPrintsBack` | static/code/semparser/lisp.js:53 | a token with a leading zero is a symbol |
| `Lisp.AtomExamples` | static/code/semparser/lisp.js:50-62 | "12abc" and "x" are symbols; "-12" is −12 |
| `Lisp.ReadFrom` | static/code/semparser/lisp.js:30-48 | reading consumes at least one token of a non-empty array |
| `Lisp.Reader.constructor` | static/code/semparser/lisp.js:27 | the reader starts on the given token array |
| `Lisp.Reader.Read` | static/code/semparser/lisp.js:30-48 | `read_from_tokens` returns the specified value or error and leaves the specified tokens |
| `Lisp.Parse` | static/code/semparser/lisp.js:25-28 | `lParse` reads the program's tokens from a fresh array |
| `Lisp.ReadErrors` | static/code/semparser/lisp.js:32-44 | an empty array throws "unexpected EOF"; a leading ")" throws "unexpected )" |
| `Lisp.Unclosed` | static/code/semparser/lisp.js:36-40 | a list never closed throws "unexpected EOF" |
| `Lisp.ReadTokens` | static/code/semparser/lisp.js:30-48 | the tokens of a readable value read back as that value, leaving the rest |
| `Lisp.ReadSound` | static/code/semparser/lisp.js:30-48 | a successful read consumes exactly the printed tokens of its value |
| `Lisp.ReadablePrintable` | static/code/semparser/lisp.js:119-125 | every readable value can be printed |
| `Lisp.LexPrinted` | static/code/semparser/lisp.js:119-125 | tokenizing a printed value gives its tokens |
| `Lisp.RoundTrip` | static/code/semparser/lisp.js:119-125 | `lParse(lispstr(v))` is `v` for every readable value |
| `Lisp.TrailingIgnored` | static/code/semparser/lisp.js:25-28 | `lParse` reads the first expression and ignores what follows |
| `Lisp.Find` | static/code/semparser/lisp.js:109-114 | `find` returns a frame on the chain, at or above the current one, that binds the name |
| `Lisp.Chain` | static/code/semparser/lisp.js:101-103 | the outer chain starts at the current frame and stays in the store |
| `Lisp.FindFirst` | static/code/semparser/lisp.js:109-114 | the frame found is the innermost binder on the chain |
| `Lisp.FindMissing` | static/code/semparser/lisp.js:111-112 | a name unbound on the whole chain throws "<name> not found in your Environment" |
| `Lisp.GlobalStore` | static/code/semparser/lisp.js:117 | the global environment is a well-formed one-frame store |
| `Lisp.StandardName` | static/code/semparser/lisp.js:69-96 | each standard name evaluates to its procedure |
| `Lisp.PrimApply` | static/code/semparser/lisp.js:70-95 | a standard procedure in the integer subset yields a number or a boolean |
| `Lisp.Minus` | static/code/semparser/lisp.js:71 | `-` negates one argument and subtracts two |
| `Lisp.PrimBinary` | static/code/semparser/lisp.js:70-72 | `+`, `-`, `*` on two integers give their sum, difference and product |
| `Lisp.Eval` | static/code/semparser/lisp.js:135-170 | evaluation only extends the store, keeping it well formed, and its value lives in it |
| `Lisp.EvalIf` | static/code/semparser/lisp.js:144-147 | the same for `if` |
| `Lisp.EvalDefine` | static/code/semparser/lisp.js:148-150 | the same for `define` |
| `Lisp.Assign` | static/code/semparser/lisp.js:150 | assigning a property keeps the store well formed and only grows it |
| `Lisp.EvalSet` | static/code/semparser/lisp.js:151-153 | the same for `set!` |
| `Lisp.EvalLambda` | static/code/semparser/lisp.js:154-158 | the same for `lambda` |
| `Lisp.EvalApply` | static/code/semparser/lisp.js:159-168 | the same for an application |
| `Lisp.Invoke` | static/code/semparser/lisp.js:127-133 | the same for a procedure call |
| `Lisp.EvalArgs` | static/code/semparser/lisp.js:161-167 | the operand loop yields one value per operand |
| `Lisp.SymbolLookup` | static/code/semparser/lisp.js:137-138 | a symbol evaluates to its binding in the innermost frame holding it, or throws not-found |
| `Lisp.Unevaluated` | static/code/semparser/lisp.js:139-143 | numbers evaluate to themselves; `quote` returns its operand unevaluated, or `undefined` if there is none |
| `Lisp.IfOneBranch` | static/code/semparser/lisp.js:144-147 | `if` evaluates the test, then exactly the chosen branch |
| `Lisp.IfWithoutAlternative` | static/code/semparser/lisp.js:144-147 | a false test with no alternative throws |
| `Lisp.DefineBindsCurrentFrame` | static/code/semparser/lisp.js:148-150 | `define` binds the value in the current frame and yields `undefined` |
| `Lisp.SetUnbound` | static/code/semparser/lisp.js:151-153 | `set!` of an unbound name throws before evaluating its expression |
| `Lisp.SetRebindsFoundFrame` | static/code/semparser/lisp.js:151-153 | `set!` rebinds the name in the frame where `find` finds it |
| `Lisp.LambdaWrapsParameter` | static/code/semparser/lisp.js:154-158 | a single non-list parameter is wrapped in a list, and the closure keeps the defining frame |
| `Lisp.BindDomain` | static/code/semparser/lisp.js:129-130 | the call frame binds exactly the parameter names |
| `Lisp.BindValue` | static/code/semparser/lisp.js:130 | each parameter gets the argument at its position, `undefined` if missing, and a later duplicate wins |
| `Lisp.InvokeParameter` | static/code/semparser/lisp.js:127-133 | calling a closure whose body is a parameter returns that parameter's argument |
| `Lisp.Application` | static/code/semparser/lisp.js:159-168 | a list not headed by a special form is an application |
| `Lisp.ApplicationOrder` | static/code/semparser/lisp.js:159-168 | the operator is evaluated first, then the operands left to right, then the call |
| `Lisp.ClosureExample` | static/code/semparser/lisp.js:127-133 | `((lambda x x) 7)` evaluates to 7 |
| `Lisp.ArithEval` | static/code/semparser/lisp.js:159-168 | nested `+`, `-`, `*` over integers evaluate to their arithmetic value, leaving the store unchanged |
| `Lisp.Evaluates42` | static/code/semparser/demo.js:43 | the demo's first Lisp program evaluates to 42 |
| `Lisp.Reads42` | static/code/semparser/demo.js:43 | that program prints and reads back unchanged |
| `Demo.FeatureDict.constructor` | static/code/semparser/demo.js:158 | `let features = {}` starts empty |
| `Demo.FeatureDict.Increment` | static/code/semparser/demo.js:152 | incrementing adds 1 to one feature, a missing one counting as 0 |
| `Demo.AddsTrans` | static/code/semparser/demo.js:152 | successive increments add up |
| `Demo.OpHead` | static/code/semparser/demo.js:144 | a two-element array headed `-` has head `~` (unary minus); otherwise the head is the first element |
| `Demo.CollectOpPrecedence` | static/code/semparser/demo.js:140-157 | the recursive walk leaves the specified counts, or the TypeError on a null meaning |
| `Demo.PrecedenceFeatures` | static/code/semparser/demo.js:139-161 | `precedenceFeatures` returns the specified counts from an empty dictionary |
| `Demo.PrecedenceCounts` | static/code/semparser/demo.js:140-157 | the walk succeeds exactly when it meets no null, and then adds one count per parent/child edge with different heads |
| `Demo.PrecedencePositive` | static/code/semparser/demo.js:152 | every counted feature is at least 1 |
| `Demo.PrecedenceAtoms` | static/code/semparser/demo.js:141 | an atom adds nothing; null throws |
| `Demo.CollectRuleFeatures` | static/code/semparser/demo.js:307-315 | the rule walk leaves the specified counts |
| `Demo.RuleFeaturesCounts` | static/code/semparser/demo.js:307-315 | it counts each rule node of the tree once, by `Rule.toString()` |
| `Demo.ChildrenVisited` | static/code/semparser/demo.js:310-314 | only `Parse` children are visited; a leaf's rhs array is skipped |
| `Demo.LotsaFeatures` | static/code/semparser/demo.js:306-338 | `lotsaFeatures` returns the specified counts |
| `Demo.LotsaCounts` | static/code/semparser/demo.js:306-338 | it counts the rule nodes plus the precedence edges, and throws exactly when the meaning walk meets a null |
| `Demo.TimesUnderPlus` | static/code/semparser/demo.js:130 | `["+", ["*", 2, 2], 3]` has exactly the feature `*,+` |
| `Demo.NegationFirstScores` | static/code/semparser/demo.js:126-137 | `["+", ["-", 3], 2]` has only `~,+` and scores 1 under the demo weights |
| `Demo.NegatedSumScores` | static/code/semparser/demo.js:126-137 | `["-", ["+", 3, 2]]` has only `+,~` and scores −1 |
| `Demo.ToVal` | static/code/semparser/demo.js:181 | a plain meaning is a Lisp source expression for `lEval` |
| `Demo.GoldDenotations` | static/code/semparser/demo.js:216-234 | every arithmetic example's meaning, run by `lEval`, yields its annotated denotation |
| `Demo.LexicalWord` | static/code/semparser/demo.js:55-67 | a rule over a plain word is lexical |
| `Demo.BinaryLabels` | static/code/semparser/demo.js:71-75 | a rule over two `$` labels is binary |
| `Demo.DefaultRulesAccepted` | static/code/semparser/demo.js:55-75 | `new Grammar` accepts every default rule |
| `DemoParses.DefaultIndex` | static/code/semparser/demo.js:93 | the default grammar's index is well formed |
| `DemoParses.NumeralKeys` | static/code/semparser/demo.js:55-60 | each numeral word is filed with its one rule |
| `DemoParses.OperatorKeys` | static/code/semparser/demo.js:62-67 | "minus" is filed with the unary rule, then the binary one |
| `DemoParses.CompositionalKeys` | static/code/semparser/demo.js:71-75 | each compositional rule sits under its own key |
| `DemoParses.DefaultKeys` | static/code/semparser/demo.js:71-75 | the binary keys come in rule order |
| `DemoCounts.WordKinds` | static/code/semparser/demo.js:55-67 | what each word's cell holds, by category |
| `DemoCounts.CellKinds` | static/code/semparser/semparser.js:181-202 | the per-category counts of a cell under the default rules |
| `DemoSentences.OnePlusOneKinds` | static/code/semparser/demo.js:116 | "one plus one" has exactly one `$E` parse |
| `DemoSentences.MinusKinds` | static/code/semparser/demo.js:117 | "minus three plus two" has exactly two `$E` parses |
| `DemoMeanings.SplitThree` | static/code/semparser/semparser.js:164 | a sentence of three lower-case words splits into them |
| `DemoMeanings.SplitFour` | static/code/semparser/semparser.js:164 | the same for four words |
| `DemoMeanings.OnePlusOneChart` | static/code/semparser/demo.js:116 | the default grammar's parse list for "one plus one" is exactly `[(one plus) one]` |
| `DemoMeanings.NegatedSumMember` | static/code/semparser/semparser.js:183-196 | the parse `minus ((three plus) two)` is among the `$E` entries the split after "minus" builds, so it comes first in the cell |
| `DemoMeanings.MinusThreePlusTwoChart` | static/code/semparser/demo.js:117 | the list for "minus three plus two" is exactly `[minus ((three plus) two), ((minus three) plus) two]`, in that order |
| `DemoMeanings.OnePlusOneMeaning` | static/code/semparser/demo.js:72-74 | the compositional functions give "one plus one" the meaning `["+", 1, 1]` |
| `DemoMeanings.NegatedSumMeaning` | static/code/semparser/demo.js:72-74 | the first parse of "minus three plus two" means `["-", ["+", 3, 2]]` |
| `DemoMeanings.SumOfNegatedMeaning` | static/code/semparser/demo.js:72-74 | the second means `["+", ["-", 3], 2]` |
| `DemoMeanings.OnePlusOneParses` | static/code/semparser/demo.js:80-100 | the parser terminal on "one plus one" echoes one parse, meaning `["+", 1, 1]` |
| `DemoMeanings.MinusThreePlusTwoParses` | static/code/semparser/demo.js:80-100 | on "minus three plus two" it echoes `["-", ["+", 3, 2]]`, then `["+", ["-", 3], 2]` |

## Left out

- `Lisp.PrimApply`: Lisp numbers are unbounded integers, not doubles.
  - There is no loss of precision past 2^53. `(+ 9007199254740992 1)` is 9007199254740993 here but 9007199254740992 in JavaScript.
  - There is no `Infinity`, `NaN` or exponent printing.
  - `/` and `**`, ordering comparisons on non-numbers, `=`/`eq?`/`equal?` on lists or procedures, and the list procedures (`append`, `apply`, `begin`, `car`, `cdr`, `cons`, `length`, `list`, `map`, `null?`) give `Err(OutsideSubset)`. So does any mixed-type call, which stands for what JavaScript computes: `(+ 1 (quote a))` is "1a" and `(+ 1)` is `NaN`.
- `Scoring.Dot`: scores, weights, counts and `eta` are exact reals. Floating-point rounding and the order of summation are not modelled.
- `Lisp.Eval`: the destructuring assignments of `lEval` write implicit globals (`_`, `test`, `conseq`, `alt`, `exp`, `v`, `parms`, `body`, lisp.js:142-157). A nested evaluation overwrites them in JavaScript; the model keeps them local. So `(if (if 1 2 3) 4 5)` evaluates to 4 here, while JavaScript gives 2.
- `Lisp.Eval`: `fuel` bounds the depth of nested procedure calls. `Err(StackOverflow)` stands for the JavaScript call-stack limit, whose real depth is not modelled.
- `Lisp.StandardEnv`: binds only the 26 names of the `standard_env` table. The global frame's data object is `Object.create(Math)`, so `v in this.data` at lisp.js:111 also finds `PI`, `sin`, `max` and the other `Math` members, as well as the `Object.prototype` names (`toString`, `constructor`, …). The model has none of these.
- `Lisp.Find`: for the same reason, a prototype name such as `PI` or `toString` is unbound in the model but found in JavaScript.
- `Lisp.Find`: every call frame is a plain object `dObj = {}` (lisp.js:129-131), so it too inherits the `Object.prototype` names (`JsObject.PrototypeNames`). Inside any procedure call, `v in this.data` (lisp.js:111, 113) is true in the innermost frame for `toString`, `valueOf`, `constructor` and the rest, even after `(define toString 5)` has bound the name globally. So `((lambda (x) toString) 0)` gives `Object.prototype.toString` in JavaScript and 5 here. The model's frames hold only the names bound in them.
- `Lisp.SymbolLookup`: for the same reason, it does not hold for a prototype name looked up inside a procedure call; JavaScript finds it in the call frame.
- `Lisp.SetRebindsFoundFrame`: for the same reason, `set!` of a prototype name inside a procedure call writes the call frame in JavaScript (lisp.js:153), while the model rebinds the frame that binds the name, or throws not-found.
- `SemParser.Insert`: the rule indexes are `DefaultDict` proxies over plain objects. A lexical rhs that names an `Object.prototype` property returns the inherited function, so `push` throws a TypeError at semparser.js:146; `toString` is one such rhs. The model files such a rule like any other.
- `SemParser.ComputeSemantics`: a rule's `sem` function is run by the total parameter `run`. An exception thrown inside it, or a side effect, has no counterpart. Closures are known by their source text.
- `Lexicon.GenerateLexicon`: the `executor(sem)` test is the total parameter `callable`, so the throw of `lEval` on an unbound symbol (semparser.js:78) has no error path. Target meanings must be atoms, because `fCart`'s `[].concat` would flatten an array meaning into the triple. All the demo's targets are atoms. The tokens come from `gatherTokens`, so every synthesised lexical rule has a single-word rhs.
- `Lexicon.LexicalCartesianProduct`: lexical meanings must be atoms or functions, for the same flattening reason. The `Set` at semparser.js:53 deduplicates function meanings by identity; the model deduplicates them by source text, so two distinct closures with the same text merge.
- `LinearModel.Model.Score`: the weights are a plain object. A feature whose name is in `JsObject.PrototypeNames` (such as "constructor" or "toString") and that has no weight of its own reads the inherited function at `this.weights[feat] || 0.0` (model.js:29). Its product and the score are then `NaN`, and the sort comparator at model.js:44 no longer orders the parses. The model's `Scoring.Weight` treats such a name as absent and gives 0. The demo's feature names contain "," or "Rule(" and never meet this, but `featureFn` is a free parameter.
- `LinearModel.Model.ApplyUpdate`: for the same reason, `xObj[i][name]` and `chosen_features[name]` (model.js:125-126) read the inherited function for a prototype-named feature that a dictionary lacks. The update is then `NaN`, and `this.weights[name] || 0.0` (model.js:129) starts from that function, so the `+=` at model.js:130 concatenates strings. The model's `Perceptron.Diff` and `Perceptron.Updated` count a missing feature as 0.
- `LinearModel.Model.Score`: the feature function is a total parameter returning a map. A feature function that throws has no counterpart; `precedenceFeatures` on a null meaning is one, and `Demo.CollectOpPrecedence` models that throw on its own.
- `LinearModel.Model.constructor`: takes no default arguments.
  - The default feature function `(parse) => {}` returns `undefined`. Scoring then sums nothing, but `learnWeights` throws at `Object.keys(undefined)` (model.js:87). The model stands for it by a function returning the empty map, which scores 0 and does not throw.
  - The model has no default `weights={}` or `executor=null`: callers pass them, and a missing executor is `None`.
- `LinearModel.Model.LearnWeights`: `metric`, `eta` and `T` are explicit parameters. Their defaults ("semantics", 0.1, 20) are not modelled, and neither are the `async` function nor the console output (model.js:62, 135, 138-145). The per-epoch correct counts are returned instead of the printed accuracy.
- `Perceptron.RankFrom`: the seed from `Math.random` and the `Math.sin` generator are not modelled. The learner takes the generator's outputs as a finite stream `rand` of reals in [0, 1), shared by the example draws and the tie-breaking draws. When the stream runs out, the result is `Err(Exhausted)`; the JavaScript generator never runs out.
- `SemParser.NewRule`: the default `sem=null` is not modelled; every rule passes its `sem`. `Example` takes its meaning explicitly (`Null` for the default) and its denotation as an `Option`.
- `SemParser.RuleText`: prints a rule's `sem` as `String(sem)`. A function prints as its source text, and an array prints its elements joined by commas.
- `Sems.StrictEquals`: `===` on two arrays is object identity in JavaScript. The model treats any two array meanings as distinct objects, so `sem_eq` of one array with itself is false here when the array contains `null`, but true in JavaScript. Two function meanings are `===` when their source text is equal.
- `Lisp.Atom`:
  - The `parseFloat` branch (lisp.js:56-58) is not modelled, so "1.5" is a symbol here and 1.5 in JavaScript.
  - Only non-zero integers within ±2^53 are read as numbers. JavaScript also reads larger numerals that a double prints back exactly as numbers, for example "18014398509481984" (2^54) and "9007199254740994". The model reads them as symbols.
- `Demo.DemoRun`: indexing `undefined` throws a TypeError in JavaScript, but gives `Null` here. The default grammar never does this on its own derivations.
- `Experiment.EvaluateModel`: the console report and the `verbose` listing are not modelled, and the totals are returned instead of the printed quotients.
- `evaluate_grammar` (experiment.js:1-3) is not modelled. It passes the executor in the feature-function position, because `executor=executor` is an assignment expression, so the model's executor is `null` and `evaluate_model` throws at experiment.js:53.
- `SemParser.Grammar.ParseInput`: the chart cells are plain objects. For an lhs that names an `Object.prototype` property (`JsObject.PrototypeNames`, such as "toString"), the test `rule.lhs in chart[…]` at semparser.js:174 and 192 is already true, so the `push` at semparser.js:175 or 193 throws a TypeError as soon as a rule with that lhs fires. The model files such an lhs like any other, and `parse_input` returns normally. The rhs tests are unaffected, because binary rhs labels start with `$` and no inherited name does.
- `LinearModel.Model.ParseInput`: the executor is a total, pure function `Sem -> D`. The demo passes `lEval` (demo.js:181, 252, 367), which throws on `null` (lisp.js:137), on an unbound symbol (lisp.js:111-112) and on a head that is not a procedure, and whose `define` and `set!` change the shared `global_env`. An executor that throws or has side effects at model.js:39 has no counterpart, so the model's `parse_input` cannot throw there.
- `Scoring.RankingFacts`: "succeeds exactly when the grammar parses" holds only for an executor that does not throw; see the `LinearModel.Model.ParseInput` line above.
- `Perceptron.RankFromVisits`: "fails only when the stream runs out or an input does not parse" holds only for an executor that does not throw at model.js:39, which `learnWeights` reaches through `parse_input` (model.js:76).
- `LinearModel.Model.LearnWeights`: for the same reason, an executor that throws or changes `global_env` during training has no counterpart.
- `Experiment.MarkParses`: the executor call at experiment.js:53 is total and pure here; in JavaScript `lEval` may throw on a parse's meaning or change `global_env`, which is shared by the later calls.
- `Experiment.ExampleThrows`: "exactly when" holds only for an executor that does not throw; in JavaScript an example also throws when `lEval` throws on one of its parses' meanings (model.js:39 or experiment.js:53).
- `Experiment.EvaluateModel`: for the same reason, an evaluation whose executor throws or has side effects has no counterpart.
- `LinearModel.Model.ParseInput`: JavaScript sets `denotation` and `score` on the shared `Parse` objects and sorts the array in place (model.js:36-45). The model returns fresh ranked records in the same order; the aliasing between chart entries is not modelled.
- The web page is not modelled:
  - the jQuery terminals, the editors, and the `window.eval` of editor text, whose errors are "Error loading …" (demo.js);
  - the Swahili example set (demo.js:286-304; its example at demo.js:291 pairs "mbili ongeza mbili" with `["+", 2, 3]` and 5);
  - the implicit global `weights` of the weight editor (demo.js:172-181).

  The default rules, weights and arithmetic examples are constants.
- `Parse.toString` (semparser.js:138-140), which only feeds the terminal output, is not modelled.
- `JsText.IsSpace`: a Dafny `string` is a sequence of Unicode scalar values, while a JavaScript string is a sequence of UTF-16 code units. A character outside the Basic Multilingual Plane, such as U+1F600, is one element here and two code units in JavaScript, so string lengths and indexes differ on such text, and a lone surrogate cannot be written at all. Splitting and trimming are unaffected: `\s` and `trim()` match the ECMAScript whitespace and line-terminator characters listed there, all of which lie in the Basic Multilingual Plane.
- static/code/search/train_model.py is not part of this model.
