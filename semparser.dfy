/** Rules, derivations (`Parse`), the rule indexes of a `Grammar` and the
    CYK chart parser of semparser.js. */
module SemParser {
  import opened Wrappers
  import opened JsText
  import opened Sems
  import opened Collections

  // ---------------------------------------------------------------------
  // Rules

  /** A rule's `sem`: a literal value, or a function given by its source
      text (what `Rule.toString` prints for it). */
  datatype Meaning = Lit(value: Sem) | Fn(source: string)

  datatype Rule = Rule(lhs: string, rhs: seq<string>, sem: Meaning)

  /** The `rhs` argument of `new Rule`: a string, or an array of labels. */
  datatype RhsArg = Text(text: string) | Items(items: seq<string>)

  /** The JavaScript engine applying a function, given by its source text,
      to an array of meanings. It is how a combinator rule's `sem` runs. */
  type Runner = (string, seq<Sem>) -> Sem

  /** `new Rule(lhs, rhs, sem)`: a string right-hand side is split on whitespace. */
  function NewRule(lhs: string, rhs: RhsArg, sem: Meaning): (r: Rule)
    ensures r.lhs == lhs && r.sem == sem
    ensures rhs.Items? ==> r.rhs == rhs.items
    ensures rhs.Text? ==> r.rhs == Split(rhs.text)
    ensures rhs.Text? ==> |r.rhs| >= 1 && forall i :: 0 <= i < |r.rhs| ==> NoSpace(r.rhs[i])
  {
    Rule(lhs, match rhs case Text(t) => Split(t) case Items(xs) => xs, sem)
  }

  /** A label is a category iff it starts with `$`. */
  predicate IsCat(name: string) {
    StartsWith(name, "$")
  }

  predicate IsLexical(r: Rule) {
    forall i :: 0 <= i < |r.rhs| ==> !IsCat(r.rhs[i])
  }

  predicate IsBinary(r: Rule) {
    |r.rhs| == 2 && IsCat(r.rhs[0]) && IsCat(r.rhs[1])
  }

  /** A rule with a non-empty right-hand side is never both lexical and binary. */
  lemma LexicalBinaryExclusive(r: Rule)
    requires |r.rhs| > 0
    ensures !(IsLexical(r) && IsBinary(r))
  {
  }

  function MeaningText(m: Meaning): string {
    match m
    case Lit(v) => ToJsString(v)
    case Fn(src) => src
  }

  /** `Rule.toString()` */
  function RuleText(r: Rule): string {
    "Rule(" + r.lhs + ", " + Join(r.rhs, " ") + ", " + MeaningText(r.sem) + ")"
  }

  /** The property name an rhs array becomes when it indexes an object. */
  function RhsKey(rhs: seq<string>): string {
    Join(rhs, ",")
  }

  /** `new Example(input, semantics, denotation)`; a missing denotation is `None`. */
  datatype Example<D> = Example(input: string, semantics: Sem, denotation: Option<D>)

  // ---------------------------------------------------------------------
  // Derivations

  /** A `Parse`: a lexical leaf, whose only child is the rule's rhs array,
      or a binary node with two child derivations. The meaning is stored
      when the derivation is built. */
  datatype Parse =
    | Leaf(rule: Rule, tokens: seq<string>, semantics: Sem)
    | Node(rule: Rule, left: Parse, right: Parse, semantics: Sem)

  function LiteralOf(m: Meaning): Sem {
    match m
    case Lit(v) => v
    case Fn(src) => Func(src)
  }

  /** `Parse.compute_semantics`: the rule's `sem` itself when the rule is
      lexical or `sem` is not a function, otherwise `sem` applied to the
      children's meanings in child order. */
  function ComputeSemantics(run: Runner, r: Rule, children: seq<Sem>): Sem {
    if IsLexical(r) || r.sem.Lit? then LiteralOf(r.sem) else run(r.sem.source, children)
  }

  /** `new Parse(rule, [rule.rhs])`: the child is an array, whose `semantics`
      property is undefined. */
  function NewLeaf(run: Runner, r: Rule): Parse {
    Leaf(r, r.rhs, ComputeSemantics(run, r, [Null]))
  }

  /** `new Parse(rule, [rule0, rule1])` */
  function NewNode(run: Runner, r: Rule, a: Parse, b: Parse): Parse {
    Node(r, a, b, ComputeSemantics(run, r, [a.semantics, b.semantics]))
  }

  /** The lexical index keys of the leaves, left to right. */
  function Frontier(p: Parse): (f: seq<string>)
    ensures |f| >= 1
  {
    match p
    case Leaf(r, _, _) => [RhsKey(r.rhs)]
    case Node(_, a, b, _) => Frontier(a) + Frontier(b)
  }

  /** The leaf tokens, left to right. */
  function Yield(p: Parse): seq<string> {
    match p
    case Leaf(_, toks, _) => toks
    case Node(_, a, b, _) => Yield(a) + Yield(b)
  }

  // ---------------------------------------------------------------------
  // Rule indexes of a grammar

  /** The two `DefaultDict` indexes: lexical rules by their rhs key, binary
      rules by their rhs key, with the binary keys in insertion order (the
      order `Object.keys` yields for keys beginning with `$`). */
  datatype Index = Index(lexical: map<string, seq<Rule>>, binaryKeys: seq<string>, binary: map<string, seq<Rule>>)

  const EmptyIndex := Index(map[], [], map[])

  ghost predicate WfIndex(ix: Index) {
    && (forall k | k in ix.lexical :: forall i | 0 <= i < |ix.lexical[k]| ::
          IsLexical(ix.lexical[k][i]) && RhsKey(ix.lexical[k][i].rhs) == k)
    && (forall k | k in ix.binary :: forall i | 0 <= i < |ix.binary[k]| ::
          IsBinary(ix.binary[k][i]) && RhsKey(ix.binary[k][i].rhs) == k)
    && (forall k :: k in ix.binary <==> k in ix.binaryKeys)
    && NoDups(ix.binaryKeys)
  }

  /** `add_rule` on the index: lexical and binary rules are appended to the
      list under their rhs key; any other rule is refused. */
  function Insert(ix: Index, r: Rule): (res: Result<Index>)
    ensures res.Ok? <==> IsLexical(r) || IsBinary(r)
    ensures res.Err? ==> res.msg == "Cannot accept rule " + RuleText(r)
    ensures res.Ok? && IsLexical(r) ==>
      res.value.lexical == ix.lexical[RhsKey(r.rhs) := MapGet(ix.lexical, RhsKey(r.rhs)) + [r]]
      && res.value.binary == ix.binary && res.value.binaryKeys == ix.binaryKeys
    ensures res.Ok? && !IsLexical(r) ==>
      res.value.binary == ix.binary[RhsKey(r.rhs) := MapGet(ix.binary, RhsKey(r.rhs)) + [r]]
      && res.value.lexical == ix.lexical
  {
    var k := RhsKey(r.rhs);
    if IsLexical(r) then
      Ok(ix.(lexical := ix.lexical[k := MapGet(ix.lexical, k) + [r]]))
    else if IsBinary(r) then
      Ok(Index(ix.lexical,
               if k in ix.binary then ix.binaryKeys else ix.binaryKeys + [k],
               ix.binary[k := MapGet(ix.binary, k) + [r]]))
    else
      Err("Cannot accept rule " + RuleText(r))
  }

  lemma InsertWf(ix: Index, r: Rule)
    requires WfIndex(ix) && Insert(ix, r).Ok?
    ensures WfIndex(Insert(ix, r).value)
  {
    var k := RhsKey(r.rhs);
    var ix' := Insert(ix, r).value;
    if !IsLexical(r) {
      if k !in ix.binary {
        assert k !in ix.binaryKeys;
        forall i, j | 0 <= i < j < |ix'.binaryKeys| ensures ix'.binaryKeys[i] != ix'.binaryKeys[j] {
          if j == |ix.binaryKeys| {
            assert ix'.binaryKeys[i] in ix.binaryKeys;
          }
        }
      }
    }
  }

  /** `for (rule of rules) this.add_rule(rule)`: stops at the first refused rule. */
  function InsertAll(ix: Index, rules: seq<Rule>): Result<Index>
    decreases |rules|
  {
    if rules == [] then Ok(ix)
    else
      match InsertAll(ix, rules[..|rules| - 1])
      case Err(m) => Err(m)
      case Ok(ix1) => Insert(ix1, rules[|rules| - 1])
  }

  /** The rules of `rules` filed under lexical key `k`, in list order. */
  function LexicalUnder(rules: seq<Rule>, k: string): seq<Rule>
    decreases |rules|
  {
    if rules == [] then []
    else
      var r := rules[|rules| - 1];
      LexicalUnder(rules[..|rules| - 1], k) + (if IsLexical(r) && RhsKey(r.rhs) == k then [r] else [])
  }

  /** The rules of `rules` filed under binary key `k`, in list order. */
  function BinaryUnder(rules: seq<Rule>, k: string): seq<Rule>
    decreases |rules|
  {
    if rules == [] then []
    else
      var r := rules[|rules| - 1];
      BinaryUnder(rules[..|rules| - 1], k) + (if IsBinary(r) && RhsKey(r.rhs) == k then [r] else [])
  }

  /** The binary keys of `rules` in first-seen order. */
  function BinaryKeysOf(rules: seq<Rule>): seq<string>
    decreases |rules|
  {
    if rules == [] then []
    else
      var r := rules[|rules| - 1];
      BinaryKeysOf(rules[..|rules| - 1]) + (if IsBinary(r) then [RhsKey(r.rhs)] else [])
  }

  /** Building a grammar succeeds iff every rule is lexical or binary. */
  lemma {:induction false} InsertAllAccepts(rules: seq<Rule>)
    ensures InsertAll(EmptyIndex, rules).Ok? <==> forall i :: 0 <= i < |rules| ==> IsLexical(rules[i]) || IsBinary(rules[i])
    decreases |rules|
  {
    if rules != [] {
      var init := rules[..|rules| - 1];
      InsertAllAccepts(init);
      assert forall i :: 0 <= i < |init| ==> init[i] == rules[i];
    }
  }

  lemma {:induction false} InsertAllWf(rules: seq<Rule>)
    requires InsertAll(EmptyIndex, rules).Ok?
    ensures WfIndex(InsertAll(EmptyIndex, rules).value)
    decreases |rules|
  {
    if rules != [] {
      InsertAllWf(rules[..|rules| - 1]);
      InsertWf(InsertAll(EmptyIndex, rules[..|rules| - 1]).value, rules[|rules| - 1]);
    }
  }

  /** The lexical index files the rules under their key in list order. */
  lemma {:induction false} InsertAllLexical(rules: seq<Rule>, k: string)
    requires InsertAll(EmptyIndex, rules).Ok?
    ensures MapGet(InsertAll(EmptyIndex, rules).value.lexical, k) == LexicalUnder(rules, k)
    decreases |rules|
  {
    if rules != [] {
      InsertAllLexical(rules[..|rules| - 1], k);
    }
  }

  /** The binary index files the rules under their key in list order. */
  lemma {:induction false} InsertAllBinary(rules: seq<Rule>, k: string)
    requires InsertAll(EmptyIndex, rules).Ok?
    ensures MapGet(InsertAll(EmptyIndex, rules).value.binary, k) == BinaryUnder(rules, k)
    decreases |rules|
  {
    if rules != [] {
      InsertAllBinary(rules[..|rules| - 1], k);
    }
  }

  /** The binary keys are the distinct binary rhs keys in first-seen order. */
  lemma {:induction false} InsertAllKeys(rules: seq<Rule>)
    requires InsertAll(EmptyIndex, rules).Ok?
    ensures InsertAll(EmptyIndex, rules).value.binaryKeys == Dedup(BinaryKeysOf(rules))
    decreases |rules|
  {
    if rules != [] {
      var init := rules[..|rules| - 1];
      var r := rules[|rules| - 1];
      InsertAllKeys(init);
      InsertAllWf(init);
      var ix1 := InsertAll(EmptyIndex, init).value;
      if IsBinary(r) && !IsLexical(r) {
        var k := RhsKey(r.rhs);
        assert BinaryKeysOf(rules) == BinaryKeysOf(init) + [k];
        assert k in ix1.binary <==> k in ix1.binaryKeys;
      } else {
        assert BinaryKeysOf(rules) == BinaryKeysOf(init);
      }
    }
  }

  /** Summary of the indexes built from a rule list. */
  lemma InsertAllFiles(rules: seq<Rule>)
    requires InsertAll(EmptyIndex, rules).Ok?
    ensures var ix := InsertAll(EmptyIndex, rules).value;
      && WfIndex(ix)
      && (forall k :: MapGet(ix.lexical, k) == LexicalUnder(rules, k))
      && (forall k :: MapGet(ix.binary, k) == BinaryUnder(rules, k))
      && ix.binaryKeys == Dedup(BinaryKeysOf(rules))
  {
    InsertAllWf(rules);
    InsertAllKeys(rules);
    forall k ensures MapGet(InsertAll(EmptyIndex, rules).value.lexical, k) == LexicalUnder(rules, k) {
      InsertAllLexical(rules, k);
    }
    forall k ensures MapGet(InsertAll(EmptyIndex, rules).value.binary, k) == BinaryUnder(rules, k) {
      InsertAllBinary(rules, k);
    }
  }

  // ---------------------------------------------------------------------
  // The chart

  /** One chart cell: category to the derivations filed under it. */
  type Cell = map<string, seq<Parse>>

  /** The rows of a chart: row `k` holds the cells of span `k + 1`, one per start. */
  ghost predicate ChartShape(chart: seq<seq<Cell>>, n: nat, m: nat) {
    m <= n && |chart| >= m && forall k :: 0 <= k < m ==> |chart[k]| == n - k
  }

  /** The cells of `row` from position `from` on are still empty. */
  ghost predicate EmptyFrom(row: seq<Cell>, from: nat) {
    forall j :: from <= j < |row| ==> row[j] == map[]
  }

  /** Span-1 step: one leaf per lexical rule, appended under the rule's lhs. */
  function AddLeaves(run: Runner, c: Cell, rules: seq<Rule>): Cell
    decreases |rules|
  {
    if rules == [] then c
    else
      var c1 := AddLeaves(run, c, rules[..|rules| - 1]);
      var r := rules[|rules| - 1];
      c1[r.lhs := MapGet(c1, r.lhs) + [NewLeaf(run, r)]]
  }

  /** The span-1 cell of a token. */
  function LexCell(ix: Index, run: Runner, token: string): Cell {
    if token in ix.lexical then AddLeaves(run, map[], ix.lexical[token]) else map[]
  }

  /** The derivations one right child list contributes for a fixed left child. */
  function Pair(run: Runner, r: Rule, a: Parse, rs: seq<Parse>): (ps: seq<Parse>)
    ensures |ps| == |rs|
    decreases |rs|
  {
    if rs == [] then [] else Pair(run, r, a, rs[..|rs| - 1]) + [NewNode(run, r, a, rs[|rs| - 1])]
  }

  /** Every left x right combination for one binary rule, left-major. */
  function Products(run: Runner, r: Rule, ls: seq<Parse>, rs: seq<Parse>): (ps: seq<Parse>)
    decreases |ls|
  {
    if ls == [] then [] else Products(run, r, ls[..|ls| - 1], rs) + Pair(run, r, ls[|ls| - 1], rs)
  }

  /** One binary rule applied at one split. */
  function ApplyRule(run: Runner, c: Cell, r: Rule, left: Cell, right: Cell): Cell
    requires IsBinary(r)
  {
    if r.rhs[0] in left && r.rhs[1] in right
    then c[r.lhs := MapGet(c, r.lhs) + Products(run, r, left[r.rhs[0]], right[r.rhs[1]])]
    else c
  }

  function ApplyRules(run: Runner, c: Cell, rules: seq<Rule>, left: Cell, right: Cell): Cell
    requires forall i :: 0 <= i < |rules| ==> IsBinary(rules[i])
    decreases |rules|
  {
    if rules == [] then c
    else ApplyRule(run, ApplyRules(run, c, rules[..|rules| - 1], left, right), rules[|rules| - 1], left, right)
  }

  function ApplyKeys(ix: Index, run: Runner, c: Cell, keys: seq<string>, left: Cell, right: Cell): Cell
    requires WfIndex(ix) && forall i :: 0 <= i < |keys| ==> keys[i] in ix.binary
    decreases |keys|
  {
    if keys == [] then c
    else ApplyRules(run, ApplyKeys(ix, run, c, keys[..|keys| - 1], left, right), ix.binary[keys[|keys| - 1]], left, right)
  }

  /** Cell (l, s) after the splits 1..p. */
  function ApplySplits(ix: Index, run: Runner, chart: seq<seq<Cell>>, n: nat, l: nat, s: nat, p: nat): Cell
    requires WfIndex(ix) && 2 <= l && s + l <= n && p < l && ChartShape(chart, n, l - 1)
    decreases p
  {
    if p == 0 then map[]
    else ApplyKeys(ix, run, ApplySplits(ix, run, chart, n, l, s, p - 1), ix.binaryKeys, chart[p - 1][s], chart[l - p - 1][s + p])
  }

  function BinCell(ix: Index, run: Runner, chart: seq<seq<Cell>>, n: nat, l: nat, s: nat): Cell
    requires WfIndex(ix) && 2 <= l && s + l <= n && ChartShape(chart, n, l - 1)
  {
    ApplySplits(ix, run, chart, n, l, s, l - 1)
  }

  /** The rows of spans 1..m. */
  function Rows(ix: Index, run: Runner, tokens: seq<string>, m: nat): (rows: seq<seq<Cell>>)
    requires WfIndex(ix) && 1 <= m <= |tokens|
    ensures |rows| == m && ChartShape(rows, |tokens|, m)
    decreases m
  {
    var n := |tokens|;
    if m == 1 then [seq(n, i requires 0 <= i < n => LexCell(ix, run, tokens[i]))]
    else
      var prev := Rows(ix, run, tokens, m - 1);
      prev + [seq(n - m + 1, s requires 0 <= s < n - m + 1 => BinCell(ix, run, prev, n, m, s))]
  }

  /** Cell (span l, start s) of the chart of `tokens`. */
  function CellAt(ix: Index, run: Runner, tokens: seq<string>, l: nat, s: nat): Cell
    requires WfIndex(ix) && 1 <= l && s + l <= |tokens|
  {
    Rows(ix, run, tokens, l)[l - 1][s]
  }

  /** What `parse_input` returns for `tokens`: the `$E` list of the
      full-span cell, or `undefined` (`None`) when it has no `$E` entry. */
  function ParseTokens(ix: Index, run: Runner, tokens: seq<string>): Option<seq<Parse>>
    requires WfIndex(ix) && |tokens| >= 1
  {
    var top := CellAt(ix, run, tokens, |tokens|, 0);
    if "$E" in top then Some(top["$E"]) else None
  }

  lemma {:induction false} RowsPrefix(ix: Index, run: Runner, tokens: seq<string>, k: nat, m: nat)
    requires WfIndex(ix) && 1 <= k <= m <= |tokens|
    ensures Rows(ix, run, tokens, m)[..k] == Rows(ix, run, tokens, k)
    decreases m
  {
    if k < m {
      RowsPrefix(ix, run, tokens, k, m - 1);
      assert Rows(ix, run, tokens, m)[..m - 1] == Rows(ix, run, tokens, m - 1);
      assert Rows(ix, run, tokens, m)[..k] == Rows(ix, run, tokens, m)[..m - 1][..k];
    } else {
      assert Rows(ix, run, tokens, m)[..m] == Rows(ix, run, tokens, m);
    }
  }

  // ---------------------------------------------------------------------
  // The grammar object

  class Grammar {
    const run: Runner
    var lexical: map<string, seq<Rule>>
    var binaryKeys: seq<string>
    var binary: map<string, seq<Rule>>

    function Ix(): Index
      reads this
    {
      Index(lexical, binaryKeys, binary)
    }

    ghost predicate Valid()
      reads this
    {
      WfIndex(Ix())
    }

    /** A grammar with empty indexes. */
    constructor (run: Runner)
      ensures Valid() && Ix() == EmptyIndex && this.run == run
    {
      this.run := run;
      lexical, binaryKeys, binary := map[], [], map[];
    }

    /** `add_rule` */
    method AddRule(r: Rule) returns (res: Result<()>)
      requires Valid()
      modifies this
      ensures Valid()
      ensures Insert(old(Ix()), r).Ok? ==> res == Ok(()) && Ix() == Insert(old(Ix()), r).value
      ensures Insert(old(Ix()), r).Err? ==> res == Err(Insert(old(Ix()), r).msg) && Ix() == old(Ix())
    {
      var k := RhsKey(r.rhs);
      if IsLexical(r) {
        lexical := lexical[k := MapGet(lexical, k) + [r]];
      } else if IsBinary(r) {
        if k !in binary {
          binaryKeys := binaryKeys + [k];
        }
        binary := binary[k := MapGet(binary, k) + [r]];
      } else {
        return Err("Cannot accept rule " + RuleText(r));
      }
      InsertWf(old(Ix()), r);
      res := Ok(());
    }

    /** One binary rule at one split: the two nested loops that push every
        left x right combination onto the list under the rule's lhs, which
        is created empty when the cell has none. */
    method CombineRule(cell: Cell, r: Rule, left: Cell, right: Cell) returns (out: Cell)
      requires IsBinary(r)
      ensures out == ApplyRule(run, cell, r, left, right)
    {
      out := cell;
      if r.rhs[0] in left && r.rhs[1] in right {
        var list := MapGet(cell, r.lhs);
        var ls := left[r.rhs[0]];
        var rs := right[r.rhs[1]];
        ghost var before := list;
        assert before + Products(run, r, ls[..0], rs) == before;
        for a := 0 to |ls|
          invariant list == before + Products(run, r, ls[..a], rs)
        {
          assert ls[..a + 1][..a] == ls[..a];
          list := PushPair(list, r, ls[a], rs);
        }
        assert ls[..|ls|] == ls;
        out := out[r.lhs := list];
      }
    }

    /** The inner loop: one left parse with every right parse. */
    method PushPair(list0: seq<Parse>, r: Rule, a: Parse, rs: seq<Parse>) returns (list: seq<Parse>)
      ensures list == list0 + Pair(run, r, a, rs)
    {
      list := list0;
      for b := 0 to |rs|
        invariant list == list0 + Pair(run, r, a, rs[..b])
      {
        assert rs[..b + 1][..b] == rs[..b];
        list := list + [NewNode(run, r, a, rs[b])];
      }
      assert rs[..|rs|] == rs;
    }

    /** Cell (l, s): the loop over splits. */
    method FillCell(chart: seq<seq<Cell>>, n: nat, l: nat, s: nat) returns (cell: Cell)
      requires Valid() && 2 <= l && s + l <= n && ChartShape(chart, n, l - 1)
      ensures cell == BinCell(Ix(), run, chart, n, l, s)
    {
      cell := map[];
      for p := 1 to l
        invariant cell == ApplySplits(Ix(), run, chart, n, l, s, p - 1)
      {
        cell := CombineSplit(cell, chart[p - 1][s], chart[l - p - 1][s + p]);
      }
    }

    /** One split: the loops over the binary keys and their rules. */
    method CombineSplit(cell0: Cell, left: Cell, right: Cell) returns (cell: Cell)
      requires Valid()
      ensures cell == ApplyKeys(Ix(), run, cell0, binaryKeys, left, right)
    {
      cell := cell0;
      for k := 0 to |binaryKeys|
        invariant cell == ApplyKeys(Ix(), run, cell0, binaryKeys[..k], left, right)
      {
        cell := CombineRules(cell, binary[binaryKeys[k]], left, right);
        assert binaryKeys[..k + 1][..k] == binaryKeys[..k];
      }
      assert binaryKeys[..|binaryKeys|] == binaryKeys;
    }

    /** The loop over the rules filed under one binary key. */
    method CombineRules(cell0: Cell, rules: seq<Rule>, left: Cell, right: Cell) returns (cell: Cell)
      requires forall i :: 0 <= i < |rules| ==> IsBinary(rules[i])
      ensures cell == ApplyRules(run, cell0, rules, left, right)
    {
      cell := cell0;
      for j := 0 to |rules|
        invariant cell == ApplyRules(run, cell0, rules[..j], left, right)
      {
        assert rules[..j + 1][..j] == rules[..j];
        cell := CombineRule(cell, rules[j], left, right);
      }
      assert rules[..|rules|] == rules;
    }

    /** The span-1 cell of one token: a leaf per lexical rule of the token. */
    method LexicalCell(token: string) returns (cell: Cell)
      requires Valid()
      ensures cell == LexCell(Ix(), run, token)
    {
      cell := map[];
      if token in lexical {
        var rules := lexical[token];
        for j := 0 to |rules|
          invariant cell == AddLeaves(run, map[], rules[..j])
        {
          assert rules[..j + 1][..j] == rules[..j];
          var r := rules[j];
          if r.lhs !in cell {
            cell := cell[r.lhs := []];
          }
          cell := cell[r.lhs := cell[r.lhs] + [NewLeaf(run, r)]];
        }
        assert rules[..|rules|] == rules;
      }
    }

    /** The first loop of `parse_input`: one row per span, all cells empty,
        and the span-1 cells filled from the lexical index. */
    method LexicalPass(tokens: seq<string>) returns (chart: seq<seq<Cell>>)
      requires Valid() && |tokens| >= 1
      ensures ChartShape(chart, |tokens|, |tokens|) && |chart| == |tokens|
      ensures chart[..1] == Rows(Ix(), run, tokens, 1)
      ensures forall k, j :: 1 <= k < |tokens| && 0 <= j < |tokens| - k ==> chart[k][j] == map[]
    {
      var n := |tokens|;
      chart := [];
      for i := 0 to n
        invariant |chart| == i
        invariant forall k :: 0 <= k < i ==> |chart[k]| == n - k
        invariant i > 0 ==> forall j :: 0 <= j < n ==> chart[0][j] == if j < i then LexCell(Ix(), run, tokens[j]) else map[]
        invariant forall k, j :: 1 <= k < i && 0 <= j < n - k ==> chart[k][j] == map[]
      {
        chart := chart + [seq(n - i, _ => map[])];
        var cell := LexicalCell(tokens[i]);
        chart := chart[0 := chart[0][i := cell]];
      }
      ghost var ix := Ix();
      assert chart[..1] == [chart[0]];
      assert chart[0] == seq(n, i requires 0 <= i < n => LexCell(ix, run, tokens[i]));
    }

    /** Fills the row of span `l` from the rows of shorter spans. */
    method BinaryRow(tokens: seq<string>, chart0: seq<seq<Cell>>, l: nat) returns (chart: seq<seq<Cell>>)
      requires Valid() && 2 <= l <= |tokens|
      requires |chart0| == |tokens| && ChartShape(chart0, |tokens|, |tokens|)
      requires chart0[..l - 1] == Rows(Ix(), run, tokens, l - 1)
      requires forall k, j :: l - 1 <= k < |tokens| && 0 <= j < |tokens| - k ==> chart0[k][j] == map[]
      ensures |chart| == |tokens| && ChartShape(chart, |tokens|, |tokens|)
      ensures chart[..l] == Rows(Ix(), run, tokens, l)
      ensures forall k, j :: l <= k < |tokens| && 0 <= j < |tokens| - k ==> chart[k][j] == map[]
    {
      var n := |tokens|;
      chart := chart0;
      ghost var prev := chart0[..l - 1];
      for s := 0 to n - l + 1
        invariant |chart| == n && ChartShape(chart, n, n)
        invariant chart[..l - 1] == prev
        invariant forall j :: 0 <= j < s ==> chart[l - 1][j] == BinCell(Ix(), run, prev, n, l, j)
        invariant EmptyFrom(chart[l - 1], s)
        invariant forall k, j :: l <= k < n && 0 <= j < n - k ==> chart[k][j] == map[]
      {
        var cell := FillCell(chart, n, l, s);
        BinCellPrefix(Ix(), run, chart, prev, n, l, s);
        ghost var before := chart;
        chart := chart[l - 1 := chart[l - 1][s := cell]];
        assert chart[..l - 1] == before[..l - 1];
      }
      ghost var ix := Ix();
      assert chart[..l] == prev + [chart[l - 1]];
      assert chart[l - 1] == seq(n - l + 1, s requires 0 <= s < n - l + 1 => BinCell(ix, run, prev, n, l, s));
    }

    /** `parse_input`: CYK over the whitespace-split input. */
    method ParseInput(input: string) returns (result: Option<seq<Parse>>)
      requires Valid()
      ensures result == ParseTokens(Ix(), run, Split(input))
    {
      var tokens := Split(input);
      var n := |tokens|;
      ghost var ix := Ix();
      var chart := LexicalPass(tokens);
      var l := 2;
      while l <= n
        invariant 2 <= l <= n + 1
        invariant |chart| == n && ChartShape(chart, n, n)
        invariant chart[..l - 1] == Rows(ix, run, tokens, l - 1)
        invariant forall k, j :: l - 1 <= k < n && 0 <= j < n - k ==> chart[k][j] == map[]
      {
        chart := BinaryRow(tokens, chart, l);
        l := l + 1;
      }
      TopOfRows(ix, run, tokens, chart);
      var top := chart[n - 1][0];
      result := if "$E" in top then Some(top["$E"]) else None;
      assert result == ParseTokens(ix, run, tokens);
    }
  }

  /** A chart whose rows are the specified rows holds the specified
      whole-input cell. */
  lemma TopOfRows(ix: Index, run: Runner, tokens: seq<string>, chart: seq<seq<Cell>>)
    requires WfIndex(ix) && |tokens| >= 1 && |chart| == |tokens|
    requires chart[..|tokens|] == Rows(ix, run, tokens, |tokens|)
    ensures |chart[|tokens| - 1]| >= 1
    ensures var top := chart[|tokens| - 1][0];
      ParseTokens(ix, run, tokens) == if "$E" in top then Some(top["$E"]) else None
  {
    assert chart[|tokens| - 1] == chart[..|tokens|][|tokens| - 1];
  }

  /** A cell depends only on the rows of shorter spans. */
  lemma BinCellPrefix(ix: Index, run: Runner, chart: seq<seq<Cell>>, prev: seq<seq<Cell>>, n: nat, l: nat, s: nat)
    requires WfIndex(ix) && 2 <= l && s + l <= n && ChartShape(chart, n, l - 1) && chart[..l - 1] == prev
    ensures ChartShape(prev, n, l - 1)
    ensures BinCell(ix, run, chart, n, l, s) == BinCell(ix, run, prev, n, l, s)
  {
    ApplySplitsPrefix(ix, run, chart, prev, n, l, s, l - 1);
  }

  lemma {:induction false} ApplySplitsPrefix(ix: Index, run: Runner, chart: seq<seq<Cell>>, prev: seq<seq<Cell>>, n: nat, l: nat, s: nat, p: nat)
    requires WfIndex(ix) && 2 <= l && s + l <= n && p < l && ChartShape(chart, n, l - 1) && chart[..l - 1] == prev
    ensures ChartShape(prev, n, l - 1)
    ensures ApplySplits(ix, run, chart, n, l, s, p) == ApplySplits(ix, run, prev, n, l, s, p)
    decreases p
  {
    assert forall k :: 0 <= k < l - 1 ==> prev[k] == chart[k];
    if p > 0 {
      ApplySplitsPrefix(ix, run, chart, prev, n, l, s, p - 1);
    }
  }

  /** The grammar of an index, with the run function, as a `Grammar` object:
      the constructor `Grammar(rules)`. */
  method NewGrammar(run: Runner, rules: seq<Rule>) returns (res: Result<Grammar>)
    ensures InsertAll(EmptyIndex, rules).Err? ==> res == Err(InsertAll(EmptyIndex, rules).msg)
    ensures InsertAll(EmptyIndex, rules).Ok? ==>
      res.Ok? && fresh(res.value) && res.value.Valid() && res.value.run == run
      && res.value.Ix() == InsertAll(EmptyIndex, rules).value
  {
    var g := new Grammar(run);
    for i := 0 to |rules|
      invariant g.Valid() && g.run == run && fresh(g)
      invariant InsertAll(EmptyIndex, rules[..i]) == Ok(g.Ix())
    {
      assert rules[..i + 1][..i] == rules[..i];
      var r := g.AddRule(rules[i]);
      if r.Err? {
        assert InsertAll(EmptyIndex, rules[..i + 1]).Err?;
        InsertAllStops(rules, i + 1);
        return Err(r.msg);
      }
    }
    assert rules[..|rules|] == rules;
    res := Ok(g);
  }

  /** Once a prefix is refused, so is the whole list, with the same message. */
  lemma {:induction false} InsertAllStops(rules: seq<Rule>, i: nat)
    requires i <= |rules| && InsertAll(EmptyIndex, rules[..i]).Err?
    ensures InsertAll(EmptyIndex, rules) == InsertAll(EmptyIndex, rules[..i])
    decreases |rules| - i
  {
    if i < |rules| {
      assert rules[..i + 1][..i] == rules[..i];
      InsertAllStops(rules, i + 1);
    } else {
      assert rules[..i] == rules;
    }
  }
}
