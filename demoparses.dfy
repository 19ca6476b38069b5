/** The default grammar of demo.js on its sample sentences "one plus one"
    and "minus three plus two". */
module DemoParses {
  import opened Wrappers
  import opened JsText
  import opened Sems
  import opened SemParser
  import opened ChartFacts
  import opened Collections
  import opened Demo
  import opened DemoCounts

  // ---------------------------------------------------------------------
  // The rule indexes of the default grammar

  /** The indexes `new Grammar(arithmetic_rules)` builds. */
  ghost function DefaultIndex(): (ix: Index)
    ensures WfIndex(ix)
  {
    DefaultRulesAccepted();
    InsertAllFiles(DefaultRules);
    InsertAll(EmptyIndex, DefaultRules).value
  }

  lemma {:induction false} LexicalUnderAppend(a: seq<Rule>, b: seq<Rule>, k: string)
    ensures LexicalUnder(a + b, k) == LexicalUnder(a, k) + LexicalUnder(b, k)
    decreases |b|
  {
    if b == [] {
      assert a + b == a;
    } else {
      var b' := b[..|b| - 1];
      assert (a + b)[..|a + b| - 1] == a + b';
      LexicalUnderAppend(a, b', k);
    }
  }

  lemma {:induction false} BinaryUnderAppend(a: seq<Rule>, b: seq<Rule>, k: string)
    ensures BinaryUnder(a + b, k) == BinaryUnder(a, k) + BinaryUnder(b, k)
    decreases |b|
  {
    if b == [] {
      assert a + b == a;
    } else {
      var b' := b[..|b| - 1];
      assert (a + b)[..|a + b| - 1] == a + b';
      BinaryUnderAppend(a, b', k);
    }
  }

  lemma {:induction false} BinaryKeysAppend(a: seq<Rule>, b: seq<Rule>)
    ensures BinaryKeysOf(a + b) == BinaryKeysOf(a) + BinaryKeysOf(b)
    decreases |b|
  {
    if b == [] {
      assert a + b == a;
    } else {
      var b' := b[..|b| - 1];
      assert (a + b)[..|a + b| - 1] == a + b';
      BinaryKeysAppend(a, b');
    }
  }

  /** The eight word rules are lexical, keyed by their word. */
  lemma WordRules()
    ensures IsLexical(RuleOne) && RhsKey(RuleOne.rhs) == "one"
    ensures IsLexical(RuleTwo) && RhsKey(RuleTwo.rhs) == "two"
    ensures IsLexical(RuleThree) && RhsKey(RuleThree.rhs) == "three"
    ensures IsLexical(RuleFour) && RhsKey(RuleFour.rhs) == "four"
    ensures IsLexical(RuleNegate) && RhsKey(RuleNegate.rhs) == "minus"
    ensures IsLexical(RulePlus) && RhsKey(RulePlus.rhs) == "plus"
    ensures IsLexical(RuleMinus) && RhsKey(RuleMinus.rhs) == "minus"
    ensures IsLexical(RuleTimes) && RhsKey(RuleTimes.rhs) == "times"
    ensures !IsBinary(RuleOne) && !IsBinary(RuleTwo) && !IsBinary(RuleThree) && !IsBinary(RuleFour)
    ensures !IsBinary(RuleNegate) && !IsBinary(RulePlus) && !IsBinary(RuleMinus) && !IsBinary(RuleTimes)
  {
    LexicalWord(RuleOne.lhs, RuleOne.rhs[0], RuleOne.sem);
    LexicalWord(RuleTwo.lhs, RuleTwo.rhs[0], RuleTwo.sem);
    LexicalWord(RuleThree.lhs, RuleThree.rhs[0], RuleThree.sem);
    LexicalWord(RuleFour.lhs, RuleFour.rhs[0], RuleFour.sem);
    LexicalWord(RuleNegate.lhs, RuleNegate.rhs[0], RuleNegate.sem);
    LexicalWord(RulePlus.lhs, RulePlus.rhs[0], RulePlus.sem);
    LexicalWord(RuleMinus.lhs, RuleMinus.rhs[0], RuleMinus.sem);
    LexicalWord(RuleTimes.lhs, RuleTimes.rhs[0], RuleTimes.sem);
  }

  /** What the indexes hold for one rule list. */
  lemma {:induction false} SingleFiled(r: Rule, k: string)
    ensures LexicalUnder([r], k) == if IsLexical(r) && RhsKey(r.rhs) == k then [r] else []
    ensures BinaryUnder([r], k) == if IsBinary(r) && RhsKey(r.rhs) == k then [r] else []
    ensures BinaryKeysOf([r]) == if IsBinary(r) then [RhsKey(r.rhs)] else []
  {
    assert [r][..0] == [];
  }

  /** Four word rules, in order, filed under their words. */
  lemma {:induction false} WordsLexical(a: Rule, b: Rule, c: Rule, d: Rule, k: string)
    requires IsLexical(a) && IsLexical(b) && IsLexical(c) && IsLexical(d)
    ensures LexicalUnder([a, b, c, d], k) ==
      (if RhsKey(a.rhs) == k then [a] else []) + (if RhsKey(b.rhs) == k then [b] else [])
      + (if RhsKey(c.rhs) == k then [c] else []) + (if RhsKey(d.rhs) == k then [d] else [])
  {
    assert [a, b, c, d] == [a] + [b] + [c] + [d];
    LexicalUnderAppend([a] + [b] + [c], [d], k);
    LexicalUnderAppend([a] + [b], [c], k);
    LexicalUnderAppend([a], [b], k);
    SingleFiled(a, k);
    SingleFiled(b, k);
    SingleFiled(c, k);
    SingleFiled(d, k);
  }

  lemma {:induction false} WordsBinary(a: Rule, b: Rule, c: Rule, d: Rule, k: string)
    requires !IsBinary(a) && !IsBinary(b) && !IsBinary(c) && !IsBinary(d)
    ensures BinaryUnder([a, b, c, d], k) == []
  {
    assert [a, b, c, d] == [a] + [b] + [c] + [d];
    BinaryUnderAppend([a] + [b] + [c], [d], k);
    BinaryUnderAppend([a] + [b], [c], k);
    BinaryUnderAppend([a], [b], k);
    SingleFiled(a, k);
    SingleFiled(b, k);
    SingleFiled(c, k);
    SingleFiled(d, k);
  }

  lemma {:induction false} WordsKeys(a: Rule, b: Rule, c: Rule, d: Rule)
    requires !IsBinary(a) && !IsBinary(b) && !IsBinary(c) && !IsBinary(d)
    ensures BinaryKeysOf([a, b, c, d]) == []
  {
    assert [a, b, c, d] == [a] + [b] + [c] + [d];
    BinaryKeysAppend([a] + [b] + [c], [d]);
    BinaryKeysAppend([a] + [b], [c]);
    BinaryKeysAppend([a], [b]);
    SingleFiled(a, "");
    SingleFiled(b, "");
    SingleFiled(c, "");
    SingleFiled(d, "");
  }

  /** Three binary rules, in order, filed under their label pairs. */
  lemma {:induction false} PairsLexical(a: Rule, b: Rule, c: Rule, k: string)
    requires !IsLexical(a) && !IsLexical(b) && !IsLexical(c)
    ensures LexicalUnder([a, b, c], k) == []
  {
    assert [a, b, c] == [a] + [b] + [c];
    LexicalUnderAppend([a] + [b], [c], k);
    LexicalUnderAppend([a], [b], k);
    SingleFiled(a, k);
    SingleFiled(b, k);
    SingleFiled(c, k);
  }

  lemma {:induction false} PairsBinary(a: Rule, b: Rule, c: Rule, k: string)
    requires IsBinary(a) && IsBinary(b) && IsBinary(c)
    ensures BinaryUnder([a, b, c], k) ==
      (if RhsKey(a.rhs) == k then [a] else []) + (if RhsKey(b.rhs) == k then [b] else [])
      + (if RhsKey(c.rhs) == k then [c] else [])
  {
    assert [a, b, c] == [a] + [b] + [c];
    BinaryUnderAppend([a] + [b], [c], k);
    BinaryUnderAppend([a], [b], k);
    SingleFiled(a, k);
    SingleFiled(b, k);
    SingleFiled(c, k);
  }

  lemma {:induction false} PairsKeys(a: Rule, b: Rule, c: Rule)
    requires IsBinary(a) && IsBinary(b) && IsBinary(c)
    ensures BinaryKeysOf([a, b, c]) == [RhsKey(a.rhs), RhsKey(b.rhs), RhsKey(c.rhs)]
  {
    assert [a, b, c] == [a] + [b] + [c];
    BinaryKeysAppend([a] + [b], [c]);
    BinaryKeysAppend([a], [b]);
    SingleFiled(a, "");
    SingleFiled(b, "");
    SingleFiled(c, "");
  }

  lemma DefaultLexical(k: string)
    ensures MapGet(DefaultIndex().lexical, k) == LexicalUnder(NumeralRules, k) + LexicalUnder(OperatorRules, k)
  {
    DefaultRulesAccepted();
    InsertAllFiles(DefaultRules);
    LexicalUnderAppend(NumeralRules + OperatorRules, CompositionalRules, k);
    LexicalUnderAppend(NumeralRules, OperatorRules, k);
    PairRules();
    PairsLexical(RuleUnary, RuleOperand, RuleBinary, k);
  }

  lemma DefaultBinary(k: string)
    ensures MapGet(DefaultIndex().binary, k) == BinaryUnder(CompositionalRules, k)
  {
    DefaultRulesAccepted();
    InsertAllFiles(DefaultRules);
    BinaryUnderAppend(NumeralRules + OperatorRules, CompositionalRules, k);
    BinaryUnderAppend(NumeralRules, OperatorRules, k);
    WordRules();
    WordsBinary(RuleOne, RuleTwo, RuleThree, RuleFour, k);
    WordsBinary(RuleNegate, RulePlus, RuleMinus, RuleTimes, k);
  }

  lemma RulesKeys()
    ensures BinaryKeysOf(DefaultRules) == ["$UnOp,$E", "$E,$BinOp", "$EBO,$E"]
  {
    BinaryKeysAppend(NumeralRules + OperatorRules, CompositionalRules);
    BinaryKeysAppend(NumeralRules, OperatorRules);
    WordRules();
    WordsKeys(RuleOne, RuleTwo, RuleThree, RuleFour);
    WordsKeys(RuleNegate, RulePlus, RuleMinus, RuleTimes);
    PairRules();
    PairsKeys(RuleUnary, RuleOperand, RuleBinary);
  }

  lemma DedupDistinct<T>(x: T, y: T, z: T)
    requires x != y && y != z && x != z
    ensures Dedup([x, y, z]) == [x, y, z]
  {
    assert [x] == [] + [x];
    assert [x, y] == [x] + [y];
    assert [x, y, z] == [x, y] + [z];
    DedupSnoc([], x);
    DedupSnoc([x], y);
    DedupSnoc([x, y], z);
  }

  lemma DefaultKeys()
    ensures DefaultIndex().binaryKeys == ["$UnOp,$E", "$E,$BinOp", "$EBO,$E"]
  {
    DefaultRulesAccepted();
    InsertAllFiles(DefaultRules);
    RulesKeys();
    DedupDistinct("$UnOp,$E", "$E,$BinOp", "$EBO,$E");
  }

  /** The lexical list under `k`: the word rules whose word is `k`, in rule order. */
  lemma WordKey(k: string)
    ensures MapGet(DefaultIndex().lexical, k) ==
      (if k == "one" then [RuleOne] else []) + (if k == "two" then [RuleTwo] else [])
      + (if k == "three" then [RuleThree] else []) + (if k == "four" then [RuleFour] else [])
      + ((if k == "minus" then [RuleNegate] else []) + (if k == "plus" then [RulePlus] else [])
      + (if k == "minus" then [RuleMinus] else []) + (if k == "times" then [RuleTimes] else []))
  {
    WordRules();
    DefaultLexical(k);
    WordsLexical(RuleOne, RuleTwo, RuleThree, RuleFour, k);
    WordsLexical(RuleNegate, RulePlus, RuleMinus, RuleTimes, k);
  }

  /** The binary list under `k`: the compositional rules whose labels are `k`. */
  lemma PairKey(k: string)
    ensures MapGet(DefaultIndex().binary, k) ==
      (if k == "$UnOp,$E" then [RuleUnary] else []) + (if k == "$E,$BinOp" then [RuleOperand] else [])
      + (if k == "$EBO,$E" then [RuleBinary] else [])
  {
    PairRules();
    DefaultBinary(k);
    PairsBinary(RuleUnary, RuleOperand, RuleBinary, k);
  }

  /** What the default grammar's indexes hold for the words and the label
      pairs of its rules. */
  ghost predicate DefaultFacts(ix: Index) {
    && BinaryFacts(ix)
    && MapGet(ix.lexical, "one") == [RuleOne]
    && MapGet(ix.lexical, "two") == [RuleTwo]
    && MapGet(ix.lexical, "three") == [RuleThree]
    && MapGet(ix.lexical, "four") == [RuleFour]
    && MapGet(ix.lexical, "minus") == [RuleNegate, RuleMinus]
    && MapGet(ix.lexical, "plus") == [RulePlus]
    && MapGet(ix.lexical, "times") == [RuleTimes]
  }

  lemma NumeralKeys()
    ensures MapGet(DefaultIndex().lexical, "one") == [RuleOne]
    ensures MapGet(DefaultIndex().lexical, "two") == [RuleTwo]
    ensures MapGet(DefaultIndex().lexical, "three") == [RuleThree]
    ensures MapGet(DefaultIndex().lexical, "four") == [RuleFour]
  {
    WordKey("one");
    WordKey("two");
    WordKey("three");
    WordKey("four");
  }

  lemma OperatorKeys()
    ensures MapGet(DefaultIndex().lexical, "minus") == [RuleNegate, RuleMinus]
    ensures MapGet(DefaultIndex().lexical, "plus") == [RulePlus]
    ensures MapGet(DefaultIndex().lexical, "times") == [RuleTimes]
  {
    WordKey("minus");
    WordKey("plus");
    WordKey("times");
  }

  lemma CompositionalKeys()
    ensures MapGet(DefaultIndex().binary, "$UnOp,$E") == [RuleUnary]
    ensures MapGet(DefaultIndex().binary, "$E,$BinOp") == [RuleOperand]
    ensures MapGet(DefaultIndex().binary, "$EBO,$E") == [RuleBinary]
  {
    PairKey("$UnOp,$E");
    PairKey("$E,$BinOp");
    PairKey("$EBO,$E");
  }

  lemma DefaultIndexFacts()
    ensures DefaultFacts(DefaultIndex())
  {
    NumeralKeys();
    OperatorKeys();
    CompositionalKeys();
    DefaultKeys();
  }
}
