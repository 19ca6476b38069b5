/** What the parser demo of demo.js shows for its two sample sentences under
    the default grammar: the parses `parse_input` returns, in chart order,
    and the meaning each one carries. */
module DemoMeanings {
  import opened Wrappers
  import opened JsText
  import opened Sems
  import opened SemParser
  import opened ChartFacts
  import opened Demo
  import opened DemoCounts
  import opened DemoParses
  import opened DemoSentences

  // ---------------------------------------------------------------------
  // The derivations

  function OneLeaf(run: Runner): Parse { NewLeaf(run, RuleOne) }
  function TwoLeaf(run: Runner): Parse { NewLeaf(run, RuleTwo) }
  function ThreeLeaf(run: Runner): Parse { NewLeaf(run, RuleThree) }
  function PlusLeaf(run: Runner): Parse { NewLeaf(run, RulePlus) }
  function NegateLeaf(run: Runner): Parse { NewLeaf(run, RuleNegate) }

  /** "one plus one": (one plus) one. */
  function OnePlusOneTree(run: Runner): Parse {
    NewNode(run, RuleBinary, NewNode(run, RuleOperand, OneLeaf(run), PlusLeaf(run)), OneLeaf(run))
  }

  /** "minus three plus two" split after "minus": minus ((three plus) two). */
  function NegatedSumTree(run: Runner): Parse {
    NewNode(run, RuleUnary, NegateLeaf(run),
      NewNode(run, RuleBinary, NewNode(run, RuleOperand, ThreeLeaf(run), PlusLeaf(run)), TwoLeaf(run)))
  }

  /** "minus three plus two" split before "two": ((minus three) plus) two. */
  function SumOfNegatedTree(run: Runner): Parse {
    NewNode(run, RuleBinary,
      NewNode(run, RuleOperand, NewNode(run, RuleUnary, NegateLeaf(run), ThreeLeaf(run)), PlusLeaf(run)),
      TwoLeaf(run))
  }

  // ---------------------------------------------------------------------
  // Tokens

  /** A word of lower-case letters is one piece. */
  lemma LowerWord(w: string)
    requires Lower(w)
    ensures NoSpace(w) && Words(w) == [w]
  {
    WordsOfWord(w);
  }

  /** A lower-case word, one space, and the rest. */
  lemma WordsAfterWord(w: string, t: string)
    requires Lower(w)
    ensures Words(w + " " + t) == [w] + Words(t)
  {
    LowerWord(w);
    WordsSep(w, ' ', t);
  }

  predicate Lower(w: string) {
    w != [] && forall i :: 0 <= i < |w| ==> 'a' <= w[i] <= 'z'
  }

  lemma WordsThree(a: string, b: string, c: string)
    requires Lower(a) && Lower(b) && Lower(c)
    ensures Words(a + " " + b + " " + c) == [a, b, c]
  {
    LowerWord(c);
    WordsAfterWord(b, c);
    assert a + " " + b + " " + c == a + " " + (b + " " + c);
    WordsAfterWord(a, b + " " + c);
  }

  /** Three lower-case words separated by single spaces split into those words. */
  lemma SplitThree(input: string, a: string, b: string, c: string)
    requires Lower(a) && Lower(b) && Lower(c) && input == a + " " + b + " " + c
    ensures Split(input) == [a, b, c]
  {
    WordsThree(a, b, c);
    assert input[0] == a[0] && input[|input| - 1] == c[|c| - 1];
    SplitTrimmed(input);
  }

  lemma WordsFour(a: string, b: string, c: string, d: string)
    requires Lower(a) && Lower(b) && Lower(c) && Lower(d)
    ensures Words(a + " " + b + " " + c + " " + d) == [a, b, c, d]
  {
    var rest := b + " " + c + " " + d;
    WordsThree(b, c, d);
    assert a + " " + b + " " + c + " " + d == a + " " + rest;
    WordsAfterWord(a, rest);
  }

  /** Four lower-case words separated by single spaces split into those words. */
  lemma SplitFour(input: string, a: string, b: string, c: string, d: string)
    requires Lower(a) && Lower(b) && Lower(c) && Lower(d) && input == a + " " + b + " " + c + " " + d
    ensures Split(input) == [a, b, c, d]
  {
    WordsFour(a, b, c, d);
    assert input[0] == a[0] && input[|input| - 1] == d[|d| - 1];
    SplitTrimmed(input);
  }

  // ---------------------------------------------------------------------
  // Entries of the charts

  /** A list of one entry that holds `q` is `[q]`. */
  lemma OnlyEntry(c: Cell, x: string, q: Parse)
    requires Count(c, x) == 1 && x in c && q in c[x]
    ensures c[x] == [q]
  {
  }

  /** A list of two entries whose first holds `q1` and which holds a
      different `q2` is `[q1, q2]`. */
  lemma TwoEntries(c: Cell, x: string, q1: Parse, q2: Parse)
    requires Count(c, x) == 2 && x in c && q1 in c[x][..1] && q2 in c[x] && q1 != q2
    ensures c[x] == [q1, q2]
  {
  }

  lemma OnePlusOneMembers(ix: Index, run: Runner, tokens: seq<string>)
    requires DefaultFacts(ix) && tokens == OnePlusOneTokens
    ensures "$E" in CellAt(ix, run, tokens, 3, 0) && OnePlusOneTree(run) in CellAt(ix, run, tokens, 3, 0)["$E"]
  {
    WordRules();
    PairRules();
    LeafInCell(ix, run, tokens, 0, RuleOne);
    LeafInCell(ix, run, tokens, 1, RulePlus);
    LeafInCell(ix, run, tokens, 2, RuleOne);
    NodeInCell(ix, run, tokens, 0, 1, 2, RuleOperand, OneLeaf(run), PlusLeaf(run));
    NodeInCell(ix, run, tokens, 0, 2, 3, RuleBinary, NewNode(run, RuleOperand, OneLeaf(run), PlusLeaf(run)), OneLeaf(run));
  }

  /** The full-span `$E` list of "one plus one" is its one derivation. */
  lemma OnePlusOneChart(ix: Index, run: Runner, tokens: seq<string>)
    requires DefaultFacts(ix) && tokens == OnePlusOneTokens
    ensures ParseTokens(ix, run, tokens) == Some([OnePlusOneTree(run)])
  {
    OnePlusOneMembers(ix, run, tokens);
    OnePlusOneKinds(ix, run, tokens);
    OnlyEntry(CellAt(ix, run, tokens, 3, 0), "$E", OnePlusOneTree(run));
  }

  /** The leaves of "minus three plus two". */
  lemma MinusLeafMembers(ix: Index, run: Runner, tokens: seq<string>)
    requires DefaultFacts(ix) && tokens == MinusThreePlusTwoTokens
    ensures "$UnOp" in CellAt(ix, run, tokens, 1, 0) && NegateLeaf(run) in CellAt(ix, run, tokens, 1, 0)["$UnOp"]
    ensures "$E" in CellAt(ix, run, tokens, 1, 1) && ThreeLeaf(run) in CellAt(ix, run, tokens, 1, 1)["$E"]
    ensures "$BinOp" in CellAt(ix, run, tokens, 1, 2) && PlusLeaf(run) in CellAt(ix, run, tokens, 1, 2)["$BinOp"]
    ensures "$E" in CellAt(ix, run, tokens, 1, 3) && TwoLeaf(run) in CellAt(ix, run, tokens, 1, 3)["$E"]
  {
    WordRules();
    LeafInCell(ix, run, tokens, 0, RuleNegate);
    LeafInCell(ix, run, tokens, 1, RuleThree);
    LeafInCell(ix, run, tokens, 2, RulePlus);
    LeafInCell(ix, run, tokens, 3, RuleTwo);
  }

  /** three plus lies in its cell. */
  lemma OperandMember(ix: Index, run: Runner, tokens: seq<string>)
    requires DefaultFacts(ix) && tokens == MinusThreePlusTwoTokens
    ensures "$EBO" in CellAt(ix, run, tokens, 2, 1)
    ensures NewNode(run, RuleOperand, ThreeLeaf(run), PlusLeaf(run)) in CellAt(ix, run, tokens, 2, 1)["$EBO"]
  {
    PairRules();
    MinusLeafMembers(ix, run, tokens);
    NodeInCell(ix, run, tokens, 1, 1, 2, RuleOperand, ThreeLeaf(run), PlusLeaf(run));
  }

  /** (three plus) two lies in the cell of "three plus two". */
  lemma SumMember(ix: Index, run: Runner, tokens: seq<string>)
    requires DefaultFacts(ix) && tokens == MinusThreePlusTwoTokens
    ensures "$E" in CellAt(ix, run, tokens, 3, 1)
    ensures NewNode(run, RuleBinary, NewNode(run, RuleOperand, ThreeLeaf(run), PlusLeaf(run)), TwoLeaf(run))
         in CellAt(ix, run, tokens, 3, 1)["$E"]
  {
    PairRules();
    MinusLeafMembers(ix, run, tokens);
    OperandMember(ix, run, tokens);
    NodeInCell(ix, run, tokens, 1, 2, 3, RuleBinary, NewNode(run, RuleOperand, ThreeLeaf(run), PlusLeaf(run)), TwoLeaf(run));
  }

  /** minus ((three plus) two) lies in the full-span cell, built at split 1. */
  lemma NegatedSumMember(ix: Index, run: Runner, tokens: seq<string>)
    requires DefaultFacts(ix) && tokens == MinusThreePlusTwoTokens
    ensures "$E" in CellAt(ix, run, tokens, 4, 0)
    ensures SplitCount(ix, run, tokens, 4, 0, "$E", 1) <= |CellAt(ix, run, tokens, 4, 0)["$E"]|
    ensures NegatedSumTree(run) in CellAt(ix, run, tokens, 4, 0)["$E"][..SplitCount(ix, run, tokens, 4, 0, "$E", 1)]
  {
    PairRules();
    MinusLeafMembers(ix, run, tokens);
    SumMember(ix, run, tokens);
    var sum := NewNode(run, RuleBinary, NewNode(run, RuleOperand, ThreeLeaf(run), PlusLeaf(run)), TwoLeaf(run));
    NodeInPrefix(ix, run, tokens, 0, 1, 4, RuleUnary, NegateLeaf(run), sum);
  }

  /** minus three lies in its cell. */
  lemma NegatedMember(ix: Index, run: Runner, tokens: seq<string>)
    requires DefaultFacts(ix) && tokens == MinusThreePlusTwoTokens
    ensures "$E" in CellAt(ix, run, tokens, 2, 0)
    ensures NewNode(run, RuleUnary, NegateLeaf(run), ThreeLeaf(run)) in CellAt(ix, run, tokens, 2, 0)["$E"]
  {
    PairRules();
    MinusLeafMembers(ix, run, tokens);
    NodeInCell(ix, run, tokens, 0, 1, 2, RuleUnary, NegateLeaf(run), ThreeLeaf(run));
  }

  /** (minus three) plus lies in the cell of "minus three plus". */
  lemma NegatedOperandMember(ix: Index, run: Runner, tokens: seq<string>)
    requires DefaultFacts(ix) && tokens == MinusThreePlusTwoTokens
    ensures "$EBO" in CellAt(ix, run, tokens, 3, 0)
    ensures NewNode(run, RuleOperand, NewNode(run, RuleUnary, NegateLeaf(run), ThreeLeaf(run)), PlusLeaf(run))
         in CellAt(ix, run, tokens, 3, 0)["$EBO"]
  {
    PairRules();
    MinusLeafMembers(ix, run, tokens);
    NegatedMember(ix, run, tokens);
    NodeInCell(ix, run, tokens, 0, 2, 3, RuleOperand, NewNode(run, RuleUnary, NegateLeaf(run), ThreeLeaf(run)), PlusLeaf(run));
  }

  /** ((minus three) plus) two lies in the full-span cell. */
  lemma SumOfNegatedMember(ix: Index, run: Runner, tokens: seq<string>)
    requires DefaultFacts(ix) && tokens == MinusThreePlusTwoTokens
    ensures "$E" in CellAt(ix, run, tokens, 4, 0) && SumOfNegatedTree(run) in CellAt(ix, run, tokens, 4, 0)["$E"]
  {
    PairRules();
    MinusLeafMembers(ix, run, tokens);
    NegatedOperandMember(ix, run, tokens);
    var operand := NewNode(run, RuleOperand, NewNode(run, RuleUnary, NegateLeaf(run), ThreeLeaf(run)), PlusLeaf(run));
    NodeInCell(ix, run, tokens, 0, 3, 4, RuleBinary, operand, TwoLeaf(run));
  }

  /** The arithmetic of split 1 of span 4: the unary rule gives one `$E`. */
  lemma MinusFirstSplitSum(k10: Kinds, k31: Kinds, k: Kinds)
    requires k10 == Kinds(0, 0, 1, 1) && k31 == Kinds(1, 0, 0, 0)
    requires k == Add(Kinds(0, 0, 0, 0), Combine(k10, k31))
    ensures k.e == 1
  {
  }

  /** Split 1 of the full span of "minus three plus two" builds one `$E`. */
  lemma MinusFirstSplit(ix: Index, run: Runner, tokens: seq<string>)
    requires DefaultFacts(ix) && tokens == MinusThreePlusTwoTokens
    ensures SplitCount(ix, run, tokens, 4, 0, "$E", 1) == 1
  {
    var cell := Cells(ix, run, tokens);
    MinusLeaves(ix, run, tokens);
    MinusCell31(ix, run, tokens);
    SplitKindsCounts(ix, cell, 4, 0, 1);
    MinusFirstSplitSum(KindsOf(cell(1, 0)), KindsOf(cell(3, 1)), SplitKinds(cell, 4, 0, 1));
  }

  /** The full-span `$E` list of "minus three plus two" is its two
      derivations, the one built at the first split first. */
  lemma MinusThreePlusTwoChart(ix: Index, run: Runner, tokens: seq<string>)
    requires DefaultFacts(ix) && tokens == MinusThreePlusTwoTokens
    ensures ParseTokens(ix, run, tokens) == Some([NegatedSumTree(run), SumOfNegatedTree(run)])
  {
    NegatedSumMember(ix, run, tokens);
    SumOfNegatedMember(ix, run, tokens);
    MinusFirstSplit(ix, run, tokens);
    MinusKinds(ix, run, tokens);
    assert NegatedSumTree(run).rule != SumOfNegatedTree(run).rule;
    TwoEntries(CellAt(ix, run, tokens, 4, 0), "$E", NegatedSumTree(run), SumOfNegatedTree(run));
  }

  // ---------------------------------------------------------------------
  // What the demo shows

  /** The three compositional sources are different texts. */
  lemma SourcesDistinct()
    ensures UnarySource != SwapSource && UnarySource != SpliceSource && SwapSource != SpliceSource
  {
    assert UnarySource[16] != SwapSource[16];
    assert UnarySource[18] != SpliceSource[18];
    assert SwapSource[16] != SpliceSource[16];
  }

  lemma OnePlusOneMeaning()
    ensures OnePlusOneTree(DemoRun).semantics == Arr([Str("+"), Num(1), Num(1)])
  {
    PairRules();
    SourcesDistinct();
    var operand := NewNode(DemoRun, RuleOperand, OneLeaf(DemoRun), PlusLeaf(DemoRun));
    assert operand.semantics == Arr([Str("+"), Num(1)]);
  }

  lemma NegatedSumMeaning()
    ensures NegatedSumTree(DemoRun).semantics == Arr([Str("-"), Arr([Str("+"), Num(3), Num(2)])])
  {
    PairRules();
    SourcesDistinct();
    var operand := NewNode(DemoRun, RuleOperand, ThreeLeaf(DemoRun), PlusLeaf(DemoRun));
    assert operand.semantics == Arr([Str("+"), Num(3)]);
    assert NewNode(DemoRun, RuleBinary, operand, TwoLeaf(DemoRun)).semantics == Arr([Str("+"), Num(3), Num(2)]);
  }

  lemma SumOfNegatedMeaning()
    ensures SumOfNegatedTree(DemoRun).semantics == Arr([Str("+"), Arr([Str("-"), Num(3)]), Num(2)])
  {
    PairRules();
    SourcesDistinct();
    var negated := NewNode(DemoRun, RuleUnary, NegateLeaf(DemoRun), ThreeLeaf(DemoRun));
    assert negated.semantics == Arr([Str("-"), Num(3)]);
    var operand := NewNode(DemoRun, RuleOperand, negated, PlusLeaf(DemoRun));
    assert operand.semantics == Arr([Str("+"), Arr([Str("-"), Num(3)])]);
  }

  /** `parse_input("one plus one")` returns one parse, whose meaning is
      `["+", 1, 1]`. */
  lemma OnePlusOneParses(input: string)
    requires input == "one plus one"
    ensures ParseTokens(DefaultIndex(), DemoRun, Split(input)) == Some([OnePlusOneTree(DemoRun)])
    ensures OnePlusOneTree(DemoRun).semantics == Arr([Str("+"), Num(1), Num(1)])
  {
    SplitThree(input, "one", "plus", "one");
    DefaultIndexFacts();
    OnePlusOneChart(DefaultIndex(), DemoRun, OnePlusOneTokens);
    OnePlusOneMeaning();
  }

  /** `parse_input("minus three plus two")` returns two parses, with
      meanings `["-", ["+", 3, 2]]` and `["+", ["-", 3], 2]`, in that order. */
  lemma MinusThreePlusTwoParses(input: string)
    requires input == "minus three plus two"
    ensures ParseTokens(DefaultIndex(), DemoRun, Split(input)) == Some([NegatedSumTree(DemoRun), SumOfNegatedTree(DemoRun)])
    ensures NegatedSumTree(DemoRun).semantics == Arr([Str("-"), Arr([Str("+"), Num(3), Num(2)])])
    ensures SumOfNegatedTree(DemoRun).semantics == Arr([Str("+"), Arr([Str("-"), Num(3)]), Num(2)])
  {
    SplitFour(input, "minus", "three", "plus", "two");
    DefaultIndexFacts();
    MinusThreePlusTwoChart(DefaultIndex(), DemoRun, MinusThreePlusTwoTokens);
    NegatedSumMeaning();
    SumOfNegatedMeaning();
  }
}
