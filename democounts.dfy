/** Derivation counts of the default grammar of demo.js, category by
    category, for every chart cell. */
module DemoCounts {
  import opened Sems
  import opened SemParser
  import opened ChartFacts
  import opened Collections
  import opened Demo

  /** The three compositional rules are binary, keyed by their two labels. */
  lemma PairRules()
    ensures IsBinary(RuleUnary) && !IsLexical(RuleUnary) && RhsKey(RuleUnary.rhs) == "$UnOp,$E"
    ensures IsBinary(RuleOperand) && !IsLexical(RuleOperand) && RhsKey(RuleOperand.rhs) == "$E,$BinOp"
    ensures IsBinary(RuleBinary) && !IsLexical(RuleBinary) && RhsKey(RuleBinary.rhs) == "$EBO,$E"
  {
    BinaryLabels(RuleUnary.lhs, RuleUnary.rhs[0], RuleUnary.rhs[1], RuleUnary.sem);
    BinaryLabels(RuleOperand.lhs, RuleOperand.rhs[0], RuleOperand.rhs[1], RuleOperand.sem);
    BinaryLabels(RuleBinary.lhs, RuleBinary.rhs[0], RuleBinary.rhs[1], RuleBinary.sem);
    LexicalBinaryExclusive(RuleUnary);
    LexicalBinaryExclusive(RuleOperand);
    LexicalBinaryExclusive(RuleBinary);
  }

  /** What the binary index of the default grammar holds: its three label
      pairs, in order, each with its one compositional rule. */
  ghost predicate BinaryFacts(ix: Index) {
    && WfIndex(ix)
    && ix.binaryKeys == ["$UnOp,$E", "$E,$BinOp", "$EBO,$E"]
    && MapGet(ix.binary, "$UnOp,$E") == [RuleUnary]
    && MapGet(ix.binary, "$E,$BinOp") == [RuleOperand]
    && MapGet(ix.binary, "$EBO,$E") == [RuleBinary]
  }

  /** How many derivations a chart cell holds for each category of the
      default grammar. */
  datatype Kinds = Kinds(e: int, ebo: int, unop: int, binop: int)

  function KindsOf(c: Cell): Kinds {
    Kinds(Count(c, "$E"), Count(c, "$EBO"), Count(c, "$UnOp"), Count(c, "$BinOp"))
  }

  /** The leaves a list of lexical rules puts in a span-1 cell. */
  function LexKinds(rules: seq<Rule>): Kinds {
    Kinds(LhsCount(rules, "$E"), LhsCount(rules, "$EBO"), LhsCount(rules, "$UnOp"), LhsCount(rules, "$BinOp"))
  }

  /** What the three compositional rules build from one split: `$E` from
      `$UnOp $E` and from `$EBO $E`, `$EBO` from `$E $BinOp`. */
  function Combine(l: Kinds, r: Kinds): Kinds {
    Kinds((l.unop + l.ebo) * r.e, l.e * r.binop, 0, 0)
  }

  function Add(a: Kinds, b: Kinds): Kinds {
    Kinds(a.e + b.e, a.ebo + b.ebo, a.unop + b.unop, a.binop + b.binop)
  }

  /** The counts contributed by splits 1..p of span (l, s), the cells of the
      sub-spans read from `cell`. */
  function SplitKinds(cell: (int, int) -> Cell, l: nat, s: nat, p: nat): Kinds
    decreases p
  {
    if p == 0 then Kinds(0, 0, 0, 0)
    else Add(SplitKinds(cell, l, s, p - 1), Combine(KindsOf(cell(p, s)), KindsOf(cell(l - p, s + p))))
  }

  lemma KeysCountThree(ix: Index, keys: seq<string>, x: string, left: Cell, right: Cell)
    requires WfIndex(ix) && |keys| == 3 && forall i :: 0 <= i < |keys| ==> keys[i] in ix.binary
    ensures KeysCount(ix, keys, x, left, right) ==
      RulesCount(ix.binary[keys[0]], x, left, right) + RulesCount(ix.binary[keys[1]], x, left, right)
      + RulesCount(ix.binary[keys[2]], x, left, right)
  {
    var k2, k1, k0 := keys[..2], keys[..1], keys[..0];
    assert k2[..1] == k1 && k1[..0] == k0 && k0 == [];
    assert KeysCount(ix, keys, x, left, right) == KeysCount(ix, k2, x, left, right) + RulesCount(ix.binary[keys[2]], x, left, right);
    assert KeysCount(ix, k2, x, left, right) == KeysCount(ix, k1, x, left, right) + RulesCount(ix.binary[keys[1]], x, left, right);
    assert KeysCount(ix, k1, x, left, right) == RulesCount(ix.binary[keys[0]], x, left, right);
  }

  lemma RulesCountOne(r: Rule, x: string, left: Cell, right: Cell)
    requires IsBinary(r)
    ensures RulesCount([r], x, left, right) == RuleCount(r, x, left, right)
  {
    assert [r][..0] == [];
  }

  /** One split of the default grammar: the binary keys in order, each with its one rule. */
  lemma KeysCountDefault(ix: Index, x: string, left: Cell, right: Cell)
    requires BinaryFacts(ix)
    ensures KeysCount(ix, ix.binaryKeys, x, left, right) ==
      (if x == "$E" then Count(left, "$UnOp") * Count(right, "$E") else 0)
      + (if x == "$EBO" then Count(left, "$E") * Count(right, "$BinOp") else 0)
      + (if x == "$E" then Count(left, "$EBO") * Count(right, "$E") else 0)
  {
    PairRules();
    var keys := ix.binaryKeys;
    assert keys[0] in ix.binary && keys[1] in ix.binary && keys[2] in ix.binary;
    KeysCountThree(ix, keys, x, left, right);
    RulesCountOne(RuleUnary, x, left, right);
    RulesCountOne(RuleOperand, x, left, right);
    RulesCountOne(RuleBinary, x, left, right);
  }

  /** One split, all four categories at once. */
  lemma CombineCounts(ix: Index, left: Cell, right: Cell)
    requires BinaryFacts(ix)
    ensures Combine(KindsOf(left), KindsOf(right)) ==
      Kinds(KeysCount(ix, ix.binaryKeys, "$E", left, right), KeysCount(ix, ix.binaryKeys, "$EBO", left, right),
            KeysCount(ix, ix.binaryKeys, "$UnOp", left, right), KeysCount(ix, ix.binaryKeys, "$BinOp", left, right))
  {
    KeysCountDefault(ix, "$E", left, right);
    KeysCountDefault(ix, "$EBO", left, right);
    KeysCountDefault(ix, "$UnOp", left, right);
    KeysCountDefault(ix, "$BinOp", left, right);
  }

  lemma {:induction false} SplitKindsCounts(ix: Index, cell: (int, int) -> Cell, l: nat, s: nat, p: nat)
    requires BinaryFacts(ix) && p < l
    ensures SplitKinds(cell, l, s, p) ==
      Kinds(SplitCountBy(ix, cell, l, s, "$E", p), SplitCountBy(ix, cell, l, s, "$EBO", p),
            SplitCountBy(ix, cell, l, s, "$UnOp", p), SplitCountBy(ix, cell, l, s, "$BinOp", p))
    decreases p
  {
    if p > 0 {
      SplitKindsCounts(ix, cell, l, s, p - 1);
      CombineCounts(ix, cell(p, s), cell(l - p, s + p));
    }
  }

  lemma CellKinds(ix: Index, run: Runner, tokens: seq<string>, l: nat, s: nat)
    requires BinaryFacts(ix) && 2 <= l && s + l <= |tokens|
    ensures KindsOf(CellAt(ix, run, tokens, l, s)) ==
      var cell := Cells(ix, run, tokens);
      Kinds(SplitCountBy(ix, cell, l, s, "$E", l - 1), SplitCountBy(ix, cell, l, s, "$EBO", l - 1),
            SplitCountBy(ix, cell, l, s, "$UnOp", l - 1), SplitCountBy(ix, cell, l, s, "$BinOp", l - 1))
  {
    CellCount(ix, run, tokens, l, s, "$E");
    CellCount(ix, run, tokens, l, s, "$EBO");
    CellCount(ix, run, tokens, l, s, "$UnOp");
    CellCount(ix, run, tokens, l, s, "$BinOp");
  }

  lemma SpanSplits(ix: Index, run: Runner, tokens: seq<string>, l: nat, s: nat)
    requires BinaryFacts(ix) && 2 <= l && s + l <= |tokens|
    ensures SplitKinds(Cells(ix, run, tokens), l, s, l - 1) ==
      var cell := Cells(ix, run, tokens);
      Kinds(SplitCountBy(ix, cell, l, s, "$E", l - 1), SplitCountBy(ix, cell, l, s, "$EBO", l - 1),
            SplitCountBy(ix, cell, l, s, "$UnOp", l - 1), SplitCountBy(ix, cell, l, s, "$BinOp", l - 1))
  {
    SplitKindsCounts(ix, Cells(ix, run, tokens), l, s, l - 1);
  }

  /** A cell of span 2 or more holds what its splits combine. */
  lemma SpanKinds(ix: Index, run: Runner, tokens: seq<string>, l: nat, s: nat)
    requires BinaryFacts(ix) && 2 <= l && s + l <= |tokens|
    ensures KindsOf(CellAt(ix, run, tokens, l, s)) == SplitKinds(Cells(ix, run, tokens), l, s, l - 1)
  {
    CellKinds(ix, run, tokens, l, s);
    SpanSplits(ix, run, tokens, l, s);
  }

  /** `SpanKinds`, the cell read through `Cells`. */
  lemma SpanKindsAt(ix: Index, run: Runner, tokens: seq<string>, l: nat, s: nat)
    requires BinaryFacts(ix) && 2 <= l && s + l <= |tokens|
    ensures KindsOf(Cells(ix, run, tokens)(l, s)) == SplitKinds(Cells(ix, run, tokens), l, s, l - 1)
  {
    SpanKinds(ix, run, tokens, l, s);
    CellsApply(ix, run, tokens, l, s);
  }

  /** A cell of span 1 holds one leaf per lexical rule of its token. */
  lemma LeafKinds(ix: Index, run: Runner, tokens: seq<string>, s: nat)
    requires WfIndex(ix) && s < |tokens|
    ensures KindsOf(CellAt(ix, run, tokens, 1, s)) == LexKinds(MapGet(ix.lexical, tokens[s]))
    ensures KindsOf(Cells(ix, run, tokens)(1, s)) == LexKinds(MapGet(ix.lexical, tokens[s]))
  {
    CellsApply(ix, run, tokens, 1, s);
    LexCellCount(ix, run, tokens, s, "$E");
    LexCellCount(ix, run, tokens, s, "$EBO");
    LexCellCount(ix, run, tokens, s, "$UnOp");
    LexCellCount(ix, run, tokens, s, "$BinOp");
  }

  lemma LhsCountOne(r: Rule, x: string)
    ensures LhsCount([r], x) == if r.lhs == x then 1 else 0
  {
    var rules := [r];
    assert rules[..|rules| - 1] == [];
    assert rules[|rules| - 1] == r;
  }

  lemma LhsCountTwo(a: Rule, b: Rule, x: string)
    ensures LhsCount([a, b], x) == LhsCount([a], x) + LhsCount([b], x)
  {
    var rules := [a, b];
    assert rules[..|rules| - 1] == [a];
    assert rules[|rules| - 1] == b;
    LhsCountOne(b, x);
  }

  lemma LexKindsOne(r: Rule)
    ensures LexKinds([r]) == Kinds(if r.lhs == "$E" then 1 else 0, if r.lhs == "$EBO" then 1 else 0,
                                   if r.lhs == "$UnOp" then 1 else 0, if r.lhs == "$BinOp" then 1 else 0)
  {
    LhsCountOne(r, "$E");
    LhsCountOne(r, "$EBO");
    LhsCountOne(r, "$UnOp");
    LhsCountOne(r, "$BinOp");
  }

  /** The leaves of the words of the two sentences. */
  lemma WordKinds()
    ensures LexKinds([RuleOne]) == Kinds(1, 0, 0, 0)
    ensures LexKinds([RuleTwo]) == Kinds(1, 0, 0, 0)
    ensures LexKinds([RuleThree]) == Kinds(1, 0, 0, 0)
    ensures LexKinds([RulePlus]) == Kinds(0, 0, 0, 1)
    ensures LexKinds([RuleNegate, RuleMinus]) == Kinds(0, 0, 1, 1)
  {
    LexKindsOne(RuleOne);
    LexKindsOne(RuleTwo);
    LexKindsOne(RuleThree);
    LexKindsOne(RulePlus);
    LexKindsOne(RuleNegate);
    LhsCountTwo(RuleNegate, RuleMinus, "$E");
    LhsCountTwo(RuleNegate, RuleMinus, "$EBO");
    LhsCountTwo(RuleNegate, RuleMinus, "$UnOp");
    LhsCountTwo(RuleNegate, RuleMinus, "$BinOp");
    LexKindsOne(RuleMinus);
  }
}
