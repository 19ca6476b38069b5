/** The feature functions of demo.js (`precedenceFeatures`, `lotsaFeatures`)
    and its default grammar, weights and examples. */
module Demo {
  import opened Wrappers
  import opened JsText
  import opened Sems
  import opened SemParser
  import opened Scoring
  import L = Lisp

  // ---------------------------------------------------------------------
  // The feature dictionary

  /** `features[feat] = (features[feat] || 0.0) + 1.0` */
  function Bump(f: Features, k: string): Features {
    f[k := Weight(f, k) + 1.0]
  }

  /** The `features` object the collectors increment in place. */
  class FeatureDict {
    var entries: Features

    /** `let features = {}` */
    constructor ()
      ensures entries == map[]
    {
      entries := map[];
    }

    method Increment(feat: string)
      modifies this
      ensures entries == Bump(old(entries), feat)
    {
      entries := entries[feat := Weight(entries, feat) + 1.0];
    }
  }

  /** `g` is `f` with `m[k]` added to the count of every key `k`. */
  ghost predicate Adds(f: Features, g: Features, m: multiset<string>) {
    && (forall k :: k in g <==> k in f || k in m)
    && (forall k :: Weight(g, k) == Weight(f, k) + m[k] as real)
  }

  lemma AddsNothing(f: Features)
    ensures Adds(f, f, multiset{})
  {
  }

  lemma AddsBump(f: Features, k: string)
    ensures Adds(f, Bump(f, k), multiset{k})
  {
  }

  lemma AddsTrans(f: Features, g: Features, h: Features, m1: multiset<string>, m2: multiset<string>)
    requires Adds(f, g, m1) && Adds(g, h, m2)
    ensures Adds(f, h, m1 + m2)
  {
    forall k ensures Weight(h, k) == Weight(f, k) + (m1 + m2)[k] as real {
      assert (m1 + m2)[k] == m1[k] + m2[k];
    }
  }

  /** Counts that start non-negative stay non-negative. */
  lemma AddsNonNegative(f: Features, g: Features, m: multiset<string>)
    requires Adds(f, g, m) && forall k :: k in f ==> f[k] >= 0.0
    ensures forall k :: k in g ==> g[k] >= 0.0
  {
    forall k | k in g ensures g[k] >= 0.0 {
      assert Weight(g, k) == Weight(f, k) + m[k] as real;
    }
  }

  // ---------------------------------------------------------------------
  // Operator precedence features

  /** The head `collect_op_precedence_features` gives an array meaning: `~`
      for a two-element array headed `-` (unary minus), otherwise its first
      element, `undefined` for an empty array. */
  function OpHead(items: seq<Sem>): (h: Head)
    ensures |items| == 2 && items[0] == Str("-") ==> h == HeadOf(Str("~"))
    ensures |items| != 2 && |items| > 0 ==> h == HeadOf(items[0])
  {
    if |items| == 0 then Undefined
    else if items[0] == Str("-") && |items| == 2 then HeadOf(Str("~"))
    else HeadOf(items[0])
  }

  /** The feature counted for child `child` of the array `items`: the two
      heads joined by a comma, when the child is an array whose head is not
      `===` the parent's. */
  function Edge(items: seq<Sem>, child: Sem): Option<string> {
    if child.Arr? && !HeadEquals(OpHead(child.items), OpHead(items)) then
      Some(HeadString(OpHead(child.items)) + "," + HeadString(OpHead(items)))
    else None
  }

  function AddEdge(f: Features, e: Option<string>): Features {
    if e.Some? then Bump(f, e.value) else f
  }

  /** Reading `.constructor` of `null` or `undefined`. */
  const NullMeaning := "TypeError: Cannot read properties of null (reading 'constructor')"

  /** `collect_op_precedence_features(x, f)` as a function of the counts it
      starts from: the counts it leaves, or the exception it throws. */
  function Precedence(x: Sem, f: Features): Result<Features>
    decreases x, 1, 0
  {
    match x
    case Null => Err(NullMeaning)
    case Arr(_) => PrecedenceFrom(x, 1, f)
    case _ => Ok(f)
  }

  /** The loop of `collect_op_precedence_features` from child `i` on. */
  function PrecedenceFrom(x: Sem, i: nat, f: Features): Result<Features>
    requires x.Arr?
    decreases x, 0, |x.items| - i
  {
    if i >= |x.items| then Ok(f)
    else
      match Precedence(x.items[i], f)
      case Err(m) => Err(m)
      case Ok(g) => PrecedenceFrom(x, i + 1, AddEdge(g, Edge(x.items, x.items[i])))
  }

  /** `collect_op_precedence_features`, recursing into every child from
      index 1 on and incrementing `features` in place. */
  method CollectOpPrecedence(semantics: Sem, features: FeatureDict) returns (err: Option<string>)
    modifies features
    ensures Precedence(semantics, old(features.entries)) == if err.Some? then Err(err.value) else Ok(features.entries)
    decreases semantics
  {
    if semantics.Null? {
      return Some(NullMeaning);
    }
    if semantics.Arr? {
      var items := semantics.items;
      var i := 1;
      while i < |items|
        invariant 1 <= i
        invariant PrecedenceFrom(semantics, i, features.entries) == Precedence(semantics, old(features.entries))
        decreases |items| - i
      {
        var head := OpHead(items);
        var child := items[i];
        ghost var before := features.entries;
        var e := CollectOpPrecedence(child, features);
        if e.Some? {
          return e;
        }
        ghost var after := features.entries;
        if child.Arr? {
          var childhead := OpHead(child.items);
          if !HeadEquals(childhead, head) {
            var feat := HeadString(childhead) + "," + HeadString(head);
            features.Increment(feat);
          }
        }
        assert features.entries == AddEdge(after, Edge(items, child));
        i := i + 1;
      }
    }
    err := None;
  }

  /** `precedenceFeatures(parse)` */
  method PrecedenceFeatures(parse: Parse) returns (r: Result<Features>)
    ensures r == Precedence(parse.semantics, map[])
  {
    var features := new FeatureDict();
    var e := CollectOpPrecedence(parse.semantics, features);
    r := if e.Some? then Err(e.value) else Ok(features.entries);
  }

  /** The feature names a meaning contributes, counted without regard to
      the order of the walk. */
  function Edges(x: Sem): multiset<string>
    decreases x, 1, 0
  {
    if x.Arr? then EdgesFrom(x, 1) else multiset{}
  }

  function EdgesFrom(x: Sem, i: nat): multiset<string>
    requires x.Arr?
    decreases x, 0, |x.items| - i
  {
    if i >= |x.items| then multiset{}
    else
      Edges(x.items[i]) + EdgeBag(Edge(x.items, x.items[i])) + EdgesFrom(x, i + 1)
  }

  function EdgeBag(e: Option<string>): multiset<string> {
    if e.Some? then multiset{e.value} else multiset{}
  }

  /** A meaning the walk does not throw on: not `null`, and if an array,
      its children from index 1 on are walkable (the head is never visited). */
  predicate Walkable(x: Sem)
    decreases x
  {
    && !x.Null?
    && (x.Arr? ==> forall i :: 1 <= i < |x.items| ==> Walkable(x.items[i]))
  }

  /** The walk throws exactly on a `null` it visits; otherwise it adds one
      count of `childhead,head` per array child (index at least 1) whose
      head differs from its parent's, and nothing else. */
  lemma {:induction false} PrecedenceCounts(x: Sem, f: Features)
    ensures Precedence(x, f).Ok? <==> Walkable(x)
    ensures Precedence(x, f).Ok? ==> Adds(f, Precedence(x, f).value, Edges(x))
    decreases x, 1, 0
  {
    match x
    case Null =>
    case Arr(items) =>
      PrecedenceFromCounts(x, 1, f);
    case _ =>
      AddsNothing(f);
  }

  lemma {:induction false} PrecedenceFromCounts(x: Sem, i: nat, f: Features)
    requires x.Arr?
    ensures PrecedenceFrom(x, i, f).Ok? <==> forall j :: i <= j < |x.items| ==> Walkable(x.items[j])
    ensures PrecedenceFrom(x, i, f).Ok? ==> Adds(f, PrecedenceFrom(x, i, f).value, EdgesFrom(x, i))
    decreases x, 0, |x.items| - i
  {
    if i >= |x.items| {
      AddsNothing(f);
    } else {
      var child := x.items[i];
      PrecedenceCounts(child, f);
      if Precedence(child, f).Ok? {
        var g := Precedence(child, f).value;
        var g' := AddEdge(g, Edge(x.items, child));
        PrecedenceFromCounts(x, i + 1, g');
        if PrecedenceFrom(x, i + 1, g').Ok? {
          AddsEdgeStep(f, g, PrecedenceFrom(x, i + 1, g').value, Edges(child), Edge(x.items, child), EdgesFrom(x, i + 1));
        }
        WalkableFrom(x, i);
      } else {
        assert !Walkable(x.items[i]);
      }
    }
  }

  lemma WalkableFrom(x: Sem, i: nat)
    requires x.Arr? && i < |x.items|
    ensures (forall j :: i <= j < |x.items| ==> Walkable(x.items[j])) <==>
      Walkable(x.items[i]) && forall j :: i + 1 <= j < |x.items| ==> Walkable(x.items[j])
  {
  }

  /** One step of the walk: the child's counts, the edge to it, the rest. */
  lemma AddsEdgeStep(f: Features, g: Features, h: Features, c: multiset<string>, e: Option<string>, rest: multiset<string>)
    requires Adds(f, g, c) && Adds(AddEdge(g, e), h, rest)
    ensures Adds(f, h, c + EdgeBag(e) + rest)
  {
    if e.Some? {
      AddsBump(g, e.value);
    } else {
      AddsNothing(g);
    }
    AddsTrans(f, g, AddEdge(g, e), c, EdgeBag(e));
    AddsTrans(f, AddEdge(g, e), h, c + EdgeBag(e), rest);
  }

  /** All counts `precedenceFeatures` returns are positive. */
  lemma PrecedencePositive(x: Sem)
    requires Precedence(x, map[]).Ok?
    ensures forall k :: k in Precedence(x, map[]).value ==> Precedence(x, map[]).value[k] >= 1.0
  {
    PrecedenceCounts(x, map[]);
    var g := Precedence(x, map[]).value;
    forall k | k in g ensures g[k] >= 1.0 {
      assert Weight(g, k) == Weight(map[], k) + Edges(x)[k] as real;
    }
  }

  /** Atoms contribute nothing, and `null` throws. */
  lemma PrecedenceAtoms(x: Sem, f: Features)
    requires !x.Arr?
    ensures x.Null? ==> Precedence(x, f) == Err(NullMeaning)
    ensures !x.Null? ==> Precedence(x, f) == Ok(f)
  {
  }

  // ---------------------------------------------------------------------
  // Rule features

  /** A child of a `Parse`: a sub-derivation, or the right-hand side array
      that is a lexical leaf's only child. */
  datatype Child = Sub(sub: Parse) | RhsArray(tokens: seq<string>)

  function ChildrenOf(p: Parse): (cs: seq<Child>)
    ensures forall i :: 0 <= i < |cs| && cs[i].Sub? ==> cs[i].sub < p
  {
    match p
    case Leaf(_, toks, _) => [RhsArray(toks)]
    case Node(_, a, b, _) => [Sub(a), Sub(b)]
  }

  /** `collect_rule_features(p, f)`: one count of `rule.toString()` for `p`
      and, left to right, for every `Parse` below it. */
  function RuleFeatures(p: Parse, f: Features): Features {
    match p
    case Leaf(r, _, _) => Bump(f, RuleText(r))
    case Node(r, a, b, _) => RuleFeatures(b, RuleFeatures(a, Bump(f, RuleText(r))))
  }

  /** The loop over `parse.children`: only `Parse` children are visited. */
  function AlongChildren(cs: seq<Child>, f: Features): Features
    decreases |cs|
  {
    if cs == [] then f
    else
      var last := cs[|cs| - 1];
      var g := AlongChildren(cs[..|cs| - 1], f);
      if last.Sub? then RuleFeatures(last.sub, g) else g
  }

  /** `collect_rule_features`, incrementing `features` in place. */
  method CollectRuleFeatures(parse: Parse, features: FeatureDict)
    modifies features
    ensures features.entries == RuleFeatures(parse, old(features.entries))
    decreases parse
  {
    var feat := RuleText(parse.rule);
    features.Increment(feat);
    ghost var start := features.entries;
    var children := ChildrenOf(parse);
    for i := 0 to |children|
      invariant features.entries == AlongChildren(children[..i], start)
    {
      assert children[..i + 1][..i] == children[..i];
      if children[i].Sub? {
        CollectRuleFeatures(children[i].sub, features);
      }
    }
    assert children[..|children|] == children;
    ChildrenVisited(parse, old(features.entries));
  }

  /** `lotsaFeatures(parse)`: the rule features of the derivation, then the
      precedence features of its meaning, in one dictionary. */
  function Lotsa(p: Parse): Result<Features> {
    Precedence(p.semantics, RuleFeatures(p, map[]))
  }

  method LotsaFeatures(parse: Parse) returns (r: Result<Features>)
    ensures r == Lotsa(parse)
  {
    var features := new FeatureDict();
    CollectRuleFeatures(parse, features);
    var e := CollectOpPrecedence(parse.semantics, features);
    r := if e.Some? then Err(e.value) else Ok(features.entries);
  }

  /** The rule names of the `Parse` nodes of `p`, one per node. */
  function RuleNames(p: Parse): multiset<string> {
    match p
    case Leaf(r, _, _) => multiset{RuleText(r)}
    case Node(r, a, b, _) => multiset{RuleText(r)} + RuleNames(a) + RuleNames(b)
  }

  /** The number of `Parse` nodes of `p`. */
  function Size(p: Parse): nat {
    match p
    case Leaf(_, _, _) => 1
    case Node(_, a, b, _) => 1 + Size(a) + Size(b)
  }

  lemma {:induction false} RuleFeaturesCounts(p: Parse, f: Features)
    ensures Adds(f, RuleFeatures(p, f), RuleNames(p))
    ensures |RuleNames(p)| == Size(p)
  {
    var r := p.rule;
    AddsBump(f, RuleText(r));
    match p
    case Leaf(_, _, _) =>
    case Node(_, a, b, _) =>
      var f1 := Bump(f, RuleText(r));
      RuleFeaturesCounts(a, f1);
      RuleFeaturesCounts(b, RuleFeatures(a, f1));
      AddsTrans(f, f1, RuleFeatures(a, f1), multiset{RuleText(r)}, RuleNames(a));
      AddsTrans(f, RuleFeatures(a, f1), RuleFeatures(b, RuleFeatures(a, f1)), multiset{RuleText(r)} + RuleNames(a), RuleNames(b));
  }

  lemma ChildrenVisited(p: Parse, f: Features)
    ensures AlongChildren(ChildrenOf(p), Bump(f, RuleText(p.rule))) == RuleFeatures(p, f)
  {
    var g := Bump(f, RuleText(p.rule));
    match p
    case Leaf(_, toks, _) =>
      AlongLeaf(toks, g);
    case Node(_, a, b, _) =>
      AlongPair(a, b, g);
  }

  lemma AlongLeaf(toks: seq<string>, g: Features)
    ensures AlongChildren([RhsArray(toks)], g) == g
  {
    assert [RhsArray(toks)][..0] == [];
  }

  lemma AlongPair(a: Parse, b: Parse, g: Features)
    ensures AlongChildren([Sub(a), Sub(b)], g) == RuleFeatures(b, RuleFeatures(a, g))
  {
    var cs := [Sub(a), Sub(b)];
    assert cs[..1] == [Sub(a)] && cs[..1][..0] == [];
    assert AlongChildren(cs[..1], g) == RuleFeatures(a, g);
  }

  /** `lotsaFeatures` throws exactly when `precedenceFeatures` does; its
      counts are one per `Parse` node for that node's rule, plus the
      precedence features of the meaning, so the rule counts sum to the
      number of `Parse` nodes. */
  lemma LotsaCounts(p: Parse)
    ensures Lotsa(p).Ok? <==> Walkable(p.semantics)
    ensures Lotsa(p).Ok? ==> Adds(map[], Lotsa(p).value, RuleNames(p) + Edges(p.semantics))
    ensures |RuleNames(p)| == Size(p)
  {
    var f := RuleFeatures(p, map[]);
    RuleFeaturesCounts(p, map[]);
    PrecedenceCounts(p.semantics, f);
    if Lotsa(p).Ok? {
      AddsTrans(map[], f, Lotsa(p).value, RuleNames(p), Edges(p.semantics));
    }
  }

  // ---------------------------------------------------------------------
  // The weight sandbox and its worked cases

  /** The weights of the weight sandbox: `*` under `+` or `-`, and unary
      minus under `+` or `-`, are rewarded; the reverse nestings penalised. */
  const DemoWeights: Weights := map[
    "*,+" := 1.0, "*,-" := 1.0, "~,+" := 1.0, "~,-" := 1.0,
    "+,*" := -1.0, "-,*" := -1.0, "+,~" := -1.0, "-,~" := -1.0]

  /** `[op, args...]` */
  function Op(op: string, args: seq<Sem>): Sem {
    Arr([Str(op)] + args)
  }

  /** `["+", ["*", 2, 2], 3]` has the single feature `*,+`. */
  lemma TimesUnderPlus()
    ensures Precedence(Op("+", [Op("*", [Num(2), Num(2)]), Num(3)]), map[]) == Ok(map["*,+" := 1.0])
  {
    var inner := Op("*", [Num(2), Num(2)]);
    var x := Op("+", [inner, Num(3)]);
    assert Precedence(inner, map[]) == Ok(map[]);
    assert OpHead(inner.items) == HeadOf(Str("*")) && OpHead(x.items) == HeadOf(Str("+"));
    assert HeadString(HeadOf(Str("*"))) + "," + HeadString(HeadOf(Str("+"))) == "*,+";
    assert Edge(x.items, inner) == Some("*,+");
  }

  /** With the sandbox weights, `["+", ["-", 3], 2]` (negate, then add)
      scores 1. */
  lemma NegationFirstScores()
    ensures Precedence(Op("+", [Op("-", [Num(3)]), Num(2)]), map[]) == Ok(map["~,+" := 1.0])
    ensures Dot(map["~,+" := 1.0], DemoWeights) == 1.0
  {
    var inner := Op("-", [Num(3)]);
    var x := Op("+", [inner, Num(2)]);
    assert Precedence(inner, map[]) == Ok(map[]);
    assert OpHead(inner.items) == HeadOf(Str("~")) && OpHead(x.items) == HeadOf(Str("+"));
    assert HeadString(HeadOf(Str("~"))) + "," + HeadString(HeadOf(Str("+"))) == "~,+";
    assert Edge(x.items, inner) == Some("~,+");
    DotSingle("~,+", 1.0, DemoWeights);
  }

  /** With the sandbox weights, `["-", ["+", 3, 2]]` (add, then negate)
      scores -1: the outer `-` has one operand, so it is unary minus `~`. */
  lemma NegatedSumScores()
    ensures Precedence(Op("-", [Op("+", [Num(3), Num(2)])]), map[]) == Ok(map["+,~" := 1.0])
    ensures Dot(map["+,~" := 1.0], DemoWeights) == -1.0
  {
    var inner := Op("+", [Num(3), Num(2)]);
    var x := Op("-", [inner]);
    assert Precedence(inner, map[]) == Ok(map[]);
    assert OpHead(inner.items) == HeadOf(Str("+")) && OpHead(x.items) == HeadOf(Str("~"));
    assert HeadString(HeadOf(Str("+"))) + "," + HeadString(HeadOf(Str("~"))) == "+,~";
    assert Edge(x.items, inner) == Some("+,~");
    DotSingle("+,~", 1.0, DemoWeights);
  }

  // ---------------------------------------------------------------------
  // The arithmetic examples and the Lisp executor

  /** A meaning `lEval` accepts as source: numbers, strings (symbols) and
      arrays (lists) of such. */
  predicate Plain(x: Sem)
    decreases x
  {
    match x
    case Num(_) => true
    case Str(_) => true
    case Arr(items) => forall i :: 0 <= i < |items| ==> Plain(items[i])
    case _ => false
  }

  /** The Lisp value a plain meaning is: a string is a symbol, an array a list. */
  function ToVal(x: Sem): (v: L.Val)
    requires Plain(x)
    ensures L.IsSource(v)
    decreases x
  {
    match x
    case Num(n) => L.Num(n)
    case Str(s) => L.Sym(s)
    case Arr(items) => L.List(seq(|items|, i requires 0 <= i < |items| => ToVal(items[i])))
  }

  /** `arithmetic_examples`: input, gold meaning and gold denotation. */
  const ArithmeticExamples: seq<Example<int>> := [
    Example("one plus one", Op("+", [Num(1), Num(1)]), Some(2)),
    Example("one plus two", Op("+", [Num(1), Num(2)]), Some(3)),
    Example("one plus three", Op("+", [Num(1), Num(3)]), Some(4)),
    Example("two plus two", Op("+", [Num(2), Num(2)]), Some(4)),
    Example("two plus three", Op("+", [Num(2), Num(3)]), Some(5)),
    Example("three plus one", Op("+", [Num(3), Num(1)]), Some(4)),
    Example("three plus minus two", Op("+", [Num(3), Op("-", [Num(2)])]), Some(1)),
    Example("two plus two", Op("+", [Num(2), Num(2)]), Some(4)),
    Example("three minus two", Op("-", [Num(3), Num(2)]), Some(1)),
    Example("minus three minus two", Op("-", [Op("-", [Num(3)]), Num(2)]), Some(-5)),
    Example("two times two", Op("*", [Num(2), Num(2)]), Some(4)),
    Example("two times three", Op("*", [Num(2), Num(3)]), Some(6)),
    Example("three plus three minus two", Op("-", [Op("+", [Num(3), Num(3)]), Num(2)]), Some(4)),
    Example("minus three", Op("-", [Num(3)]), Some(-3)),
    Example("three plus two", Op("+", [Num(3), Num(2)]), Some(5)),
    Example("two times two plus three", Op("+", [Op("*", [Num(2), Num(2)]), Num(3)]), Some(7)),
    Example("minus four", Op("-", [Num(4)]), Some(-4))
  ]

  /** Integer arithmetic written as a meaning: numbers, `["-", e]` and
      `[op, e, e]` for `op` among `+`, `-`, `*`. */
  predicate ArithMeaning(x: Sem)
    decreases x
  {
    match x
    case Num(_) => true
    case Arr(items) =>
      || (|items| == 2 && items[0] == Str("-") && ArithMeaning(items[1]))
      || (|items| == 3 && items[0].Str? && items[0].s in ["+", "-", "*"] && ArithMeaning(items[1]) && ArithMeaning(items[2]))
    case _ => false
  }

  function MeaningValue(x: Sem): int
    requires ArithMeaning(x)
    decreases x
  {
    match x
    case Num(n) => n
    case Arr(items) =>
      if |items| == 2 then -MeaningValue(items[1])
      else L.BinaryValue(items[0].s, MeaningValue(items[1]), MeaningValue(items[2]))
  }

  /** An arithmetic meaning is, as a Lisp value, arithmetic with the same value. */
  lemma {:induction false} ArithMeaningVal(x: Sem)
    requires ArithMeaning(x)
    ensures Plain(x) && L.IsArith(ToVal(x)) && L.ArithValue(ToVal(x)) == MeaningValue(x)
    decreases x
  {
    if x.Arr? {
      var items := x.items;
      ArithMeaningVal(items[1]);
      if |items| == 3 {
        ArithMeaningVal(items[2]);
      }
      assert Plain(items[0]) && Plain(items[1]);
      assert Plain(x);
      var v := ToVal(x);
      assert v.items[0] == ToVal(items[0]) == L.Sym(items[0].s);
      assert v.items[1] == ToVal(items[1]);
      if |items| == 3 {
        assert v.items[2] == ToVal(items[2]);
      }
    }
  }

  /** Every arithmetic example's gold meaning, run by `lEval` in the global
      environment, yields its gold denotation and defines nothing. */
  lemma GoldDenotations(fuel: nat)
    ensures forall i :: 0 <= i < |ArithmeticExamples| ==>
      var ex := ArithmeticExamples[i];
      && Plain(ex.semantics) && ex.denotation.Some?
      && L.Eval(L.GlobalStore(), 0, ToVal(ex.semantics), fuel) == L.Outcome(Ok(L.Num(ex.denotation.value)), L.GlobalStore())
  {
    forall i | 0 <= i < |ArithmeticExamples|
      ensures var ex := ArithmeticExamples[i];
        && Plain(ex.semantics) && ex.denotation.Some?
        && L.Eval(L.GlobalStore(), 0, ToVal(ex.semantics), fuel) == L.Outcome(Ok(L.Num(ex.denotation.value)), L.GlobalStore())
    {
      GoldAgree(i);
      ArithMeaningVal(ArithmeticExamples[i].semantics);
      L.ArithEval(ToVal(ArithmeticExamples[i].semantics), fuel);
    }
  }

  lemma GoldAgree(i: nat)
    requires i < |ArithmeticExamples|
    ensures Agrees(ArithmeticExamples[i])
  {
    if i < 9 {
      GoldAgreeLow(i);
    } else {
      GoldAgreeHigh(i);
    }
  }

  lemma GoldAgreeLow(i: nat)
    requires i < 9
    ensures Agrees(ArithmeticExamples[i])
  {
    if i == 0 {
      assert Agrees(ArithmeticExamples[0]);
    } else if i == 1 {
      assert Agrees(ArithmeticExamples[1]);
    } else if i == 2 {
      assert Agrees(ArithmeticExamples[2]);
    } else if i == 3 {
      assert Agrees(ArithmeticExamples[3]);
    } else if i == 4 {
      assert Agrees(ArithmeticExamples[4]);
    } else if i == 5 {
      assert Agrees(ArithmeticExamples[5]);
    } else if i == 6 {
      assert Agrees(ArithmeticExamples[6]);
    } else if i == 7 {
      assert Agrees(ArithmeticExamples[7]);
    } else {
      assert Agrees(ArithmeticExamples[8]);
    }
  }

  lemma GoldAgreeHigh(i: nat)
    requires 9 <= i < |ArithmeticExamples|
    ensures Agrees(ArithmeticExamples[i])
  {
    if i == 9 {
      assert Agrees(ArithmeticExamples[9]);
    } else if i == 10 {
      assert Agrees(ArithmeticExamples[10]);
    } else if i == 11 {
      assert Agrees(ArithmeticExamples[11]);
    } else if i == 12 {
      assert Agrees(ArithmeticExamples[12]);
    } else if i == 13 {
      assert Agrees(ArithmeticExamples[13]);
    } else if i == 14 {
      assert Agrees(ArithmeticExamples[14]);
    } else if i == 15 {
      assert Agrees(ArithmeticExamples[15]);
    } else {
      assert Agrees(ArithmeticExamples[16]);
    }
  }

  predicate Agrees(ex: Example<int>) {
    ArithMeaning(ex.semantics) && ex.denotation == Some(MeaningValue(ex.semantics))
  }

  // ---------------------------------------------------------------------
  // The default grammar

  /** The sources of the three compositional rules' `sem` functions. */
  const UnarySource := "(sems) => [sems[0], sems[1]]"
  const SwapSource := "(sems) => [sems[1], sems[0]]"
  const SpliceSource := "(sems) => [sems[0][0], sems[0][1], sems[1]]"

  /** The JavaScript engine on those three functions. Indexing past the end
      of an array is `undefined`; indexing a string gives its one-character
      substring, or `undefined` past its end; indexing a number or a function
      is `undefined`, and indexing `undefined`, which throws a TypeError,
      is `undefined` here too. */
  function DemoRun(src: string, sems: seq<Sem>): Sem {
    if src == UnarySource then Arr([Index(sems, 0), Index(sems, 1)])
    else if src == SwapSource then Arr([Index(sems, 1), Index(sems, 0)])
    else if src == SpliceSource then
      var first := Index(sems, 0);
      Arr([Member(first, 0), Member(first, 1), Index(sems, 1)])
    else Null
  }

  /** `xs[i]`, `undefined` past the end. */
  function Index(xs: seq<Sem>, i: nat): Sem {
    if i < |xs| then xs[i] else Null
  }

  /** `x[i]` for any meaning `x`. */
  function Member(x: Sem, i: nat): Sem {
    match x
    case Arr(items) => Index(items, i)
    case Str(t) => if i < |t| then Str([t[i]]) else Null
    case _ => Null
  }

  const RuleOne := Rule("$E", ["one"], Lit(Num(1)))
  const RuleTwo := Rule("$E", ["two"], Lit(Num(2)))
  const RuleThree := Rule("$E", ["three"], Lit(Num(3)))
  const RuleFour := Rule("$E", ["four"], Lit(Num(4)))
  const RuleNegate := Rule("$UnOp", ["minus"], Lit(Str("-")))
  const RulePlus := Rule("$BinOp", ["plus"], Lit(Str("+")))
  const RuleMinus := Rule("$BinOp", ["minus"], Lit(Str("-")))
  const RuleTimes := Rule("$BinOp", ["times"], Lit(Str("*")))
  /** `$E → $UnOp $E` */
  const RuleUnary := Rule("$E", ["$UnOp", "$E"], Fn(UnarySource))
  /** `$EBO → $E $BinOp` */
  const RuleOperand := Rule("$EBO", ["$E", "$BinOp"], Fn(SwapSource))
  /** `$E → $EBO $E` */
  const RuleBinary := Rule("$E", ["$EBO", "$E"], Fn(SpliceSource))

  /** `numeral_rules` */
  const NumeralRules: seq<Rule> := [RuleOne, RuleTwo, RuleThree, RuleFour]
  /** `operator_rules` */
  const OperatorRules: seq<Rule> := [RuleNegate, RulePlus, RuleMinus, RuleTimes]
  /** `compositional_rules` */
  const CompositionalRules: seq<Rule> := [RuleUnary, RuleOperand, RuleBinary]

  /** `[].concat(numeral_rules, operator_rules, compositional_rules)` */
  const DefaultRules: seq<Rule> := NumeralRules + OperatorRules + CompositionalRules

  /** A one-word right-hand side not starting with `$` is lexical. */
  lemma LexicalWord(lhs: string, w: string, sem: Meaning)
    requires w != [] && w[0] != '$'
    ensures IsLexical(Rule(lhs, [w], sem))
  {
    assert !StartsWith(w, "$") by {
      assert w[..1] != "$";
    }
  }

  /** Two labels starting with `$` make a binary right-hand side. */
  lemma BinaryLabels(lhs: string, a: string, b: string, sem: Meaning)
    requires a != [] && a[0] == '$' && b != [] && b[0] == '$'
    ensures IsBinary(Rule(lhs, [a, b], sem))
  {
    assert a[..1] == "$" && b[..1] == "$";
  }

  /** The default grammar accepts every rule: the first eight are lexical,
      the last three binary. */
  lemma DefaultRulesAccepted()
    ensures InsertAll(EmptyIndex, DefaultRules).Ok?
  {
    InsertAllAccepts(DefaultRules);
    forall i | 0 <= i < |DefaultRules| ensures IsLexical(DefaultRules[i]) || IsBinary(DefaultRules[i]) {
      if i == 0 {
        assert DefaultRules[0] == RuleOne;
        LexicalWord(RuleOne.lhs, RuleOne.rhs[0], RuleOne.sem);
      } else if i == 1 {
        assert DefaultRules[1] == RuleTwo;
        LexicalWord(RuleTwo.lhs, RuleTwo.rhs[0], RuleTwo.sem);
      } else if i == 2 {
        assert DefaultRules[2] == RuleThree;
        LexicalWord(RuleThree.lhs, RuleThree.rhs[0], RuleThree.sem);
      } else if i == 3 {
        assert DefaultRules[3] == RuleFour;
        LexicalWord(RuleFour.lhs, RuleFour.rhs[0], RuleFour.sem);
      } else if i == 4 {
        assert DefaultRules[4] == RuleNegate;
        LexicalWord(RuleNegate.lhs, RuleNegate.rhs[0], RuleNegate.sem);
      } else if i == 5 {
        assert DefaultRules[5] == RulePlus;
        LexicalWord(RulePlus.lhs, RulePlus.rhs[0], RulePlus.sem);
      } else if i == 6 {
        assert DefaultRules[6] == RuleMinus;
        LexicalWord(RuleMinus.lhs, RuleMinus.rhs[0], RuleMinus.sem);
      } else if i == 7 {
        assert DefaultRules[7] == RuleTimes;
        LexicalWord(RuleTimes.lhs, RuleTimes.rhs[0], RuleTimes.sem);
      } else if i == 8 {
        assert DefaultRules[8] == RuleUnary;
        BinaryLabels(RuleUnary.lhs, RuleUnary.rhs[0], RuleUnary.rhs[1], RuleUnary.sem);
      } else if i == 9 {
        assert DefaultRules[9] == RuleOperand;
        BinaryLabels(RuleOperand.lhs, RuleOperand.rhs[0], RuleOperand.rhs[1], RuleOperand.sem);
      } else {
        assert DefaultRules[10] == RuleBinary;
        BinaryLabels(RuleBinary.lhs, RuleBinary.rhs[0], RuleBinary.rhs[1], RuleBinary.sem);
      }
    }
  }
}
