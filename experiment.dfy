/** `evaluate_model` of experiment.js: per example, whether the top-ranked
    parse and whether any parse has the gold meaning and the gold
    denotation, summed over the examples together with the parse counts. */
module Experiment {
  import opened Wrappers
  import opened JsText
  import opened Sems
  import opened SemParser
  import opened Scoring
  import opened LinearModel
  import ChartFacts

  /** The four accuracies and the number of parses: for one example each
      accuracy is 0 or 1, for a run they are the sums over its examples. */
  datatype Counts = Counts(semAcc: nat, semOrc: nat, denAcc: nat, denOrc: nat, parses: nat)

  const Zero := Counts(0, 0, 0, 0, 0)

  function Plus(a: Counts, b: Counts): Counts {
    Counts(a.semAcc + b.semAcc, a.semOrc + b.semOrc, a.denAcc + b.denAcc, a.denOrc + b.denOrc, a.parses + b.parses)
  }

  /** Calling `model.executor` when the model was built without one. */
  const ExecutorMissing := "TypeError: model.executor is not a function"

  function Flag(b: bool): nat {
    if b then 1 else 0
  }

  /** `sem_eq(parse.semantics, example.semantics)` */
  predicate SemHit<D>(r: Ranked<D>, ex: Example<D>) {
    SemEq(r.parse.semantics, ex.semantics)
  }

  /** `model.executor(parse.semantics) === example.denotation` */
  predicate DenHit<D(==)>(exec: Sem -> D, r: Ranked<D>, ex: Example<D>) {
    Some(exec(r.parse.semantics)) == ex.denotation
  }

  /** What one example scores: accuracy from the first parse of the ranking,
      oracle accuracy from any of its parses. Without an executor the first
      parse throws. */
  function MarksOf<D(==)>(executor: Option<Sem -> D>, ranked: seq<Ranked<D>>, ex: Example<D>): Result<Counts> {
    if |ranked| == 0 then Ok(Zero)
    else if executor.None? then Err(ExecutorMissing)
    else
      var exec := executor.value;
      Ok(Counts(
        Flag(SemHit(ranked[0], ex)),
        Flag(exists k :: 0 <= k < |ranked| && SemHit(ranked[k], ex)),
        Flag(DenHit(exec, ranked[0], ex)),
        Flag(exists k :: 0 <= k < |ranked| && DenHit(exec, ranked[k], ex)),
        |ranked|))
  }

  /** One example, from `model.parse_input` (which throws when nothing parses). */
  ghost function ExampleMarks<D>(sc: Scorer<D>, ex: Example<D>): Result<Counts>
    requires WfIndex(sc.ix)
  {
    match Ranking(sc, ex.input)
    case Err(m) => Err(m)
    case Ok(ranked) => MarksOf(sc.executor, ranked, ex)
  }

  /** The totals from example `i` on, added to `acc`; the first throw ends the run. */
  ghost function EvaluateFrom<D>(sc: Scorer<D>, examples: seq<Example<D>>, i: nat, acc: Counts): Result<Counts>
    requires WfIndex(sc.ix) && i <= |examples|
    decreases |examples| - i
  {
    if i == |examples| then Ok(acc)
    else
      match ExampleMarks(sc, examples[i])
      case Err(m) => Err(m)
      case Ok(c) => EvaluateFrom(sc, examples, i + 1, Plus(acc, c))
  }

  ghost function Evaluation<D>(sc: Scorer<D>, examples: seq<Example<D>>): Result<Counts>
    requires WfIndex(sc.ix)
  {
    EvaluateFrom(sc, examples, 0, Zero)
  }

  /** The inner loop of `evaluate_model` over one example's ranked parses. */
  method MarkParses<D(==)>(executor: Option<Sem -> D>, parses: seq<Ranked<D>>, ex: Example<D>) returns (r: Result<Counts>)
    ensures r == MarksOf(executor, parses, ex)
  {
    var semAcc: nat, semOrc: nat, denAcc: nat, denOrc: nat := 0, 0, 0, 0;
    var p := 0;
    while p < |parses|
      invariant 0 <= p <= |parses|
      invariant p > 0 ==> executor.Some?
      invariant semAcc == Flag(0 < p && SemHit(parses[0], ex))
      invariant semOrc == Flag(exists k :: 0 <= k < p && SemHit(parses[k], ex))
      invariant denAcc == Flag(0 < p && DenHit(executor.value, parses[0], ex))
      invariant denOrc == Flag(exists k :: 0 <= k < p && DenHit(executor.value, parses[k], ex))
    {
      var sem := parses[p].parse.semantics;
      var markSem := SemEq(sem, ex.semantics);
      if markSem {
        semOrc := 1;
        if p == 0 {
          semAcc := 1;
        }
      }
      if executor.None? {
        return Err(ExecutorMissing);
      }
      var den := executor.value(sem);
      var markDen := Some(den) == ex.denotation;
      if markDen {
        denOrc := 1;
        if p == 0 {
          denAcc := 1;
        }
      }
      p := p + 1;
    }
    r := Ok(Counts(semAcc, semOrc, denAcc, denOrc, |parses|));
  }

  /** `evaluate_model(model, examples)`: the totals whose quotients by the
      example count are reported, or the first exception. */
  method EvaluateModel<D(==)>(model: Model<D>, examples: seq<Example<D>>) returns (r: Result<Counts>)
    requires model.grammar.Valid()
    ensures r == Evaluation(model.Env(), examples)
  {
    ghost var sc := model.Env();
    var total := Zero;
    for i := 0 to |examples|
      invariant EvaluateFrom(sc, examples, i, total) == Evaluation(sc, examples)
    {
      var parses := model.ParseInput(examples[i].input);
      if parses.Err? {
        return Err(parses.msg);
      }
      var marks := MarkParses(model.executor, parses.value, examples[i]);
      if marks.Err? {
        return marks;
      }
      total := Plus(total, marks.value);
    }
    r := Ok(total);
  }

  // ---------------------------------------------------------------------
  // Properties

  /** For one example each accuracy is 0 or 1 and never above its oracle;
      the parse count is the length of the ranking. */
  lemma MarksBounds<D>(executor: Option<Sem -> D>, ranked: seq<Ranked<D>>, ex: Example<D>)
    requires MarksOf(executor, ranked, ex).Ok?
    ensures var m := MarksOf(executor, ranked, ex).value;
      && m.semAcc <= m.semOrc <= 1 && m.denAcc <= m.denOrc <= 1 && m.parses == |ranked|
      && (m.semAcc == 1 <==> |ranked| > 0 && SemEq(ranked[0].parse.semantics, ex.semantics))
  {
    if |ranked| > 0 && SemHit(ranked[0], ex) {
      assert exists k :: 0 <= k < |ranked| && SemHit(ranked[k], ex);
    }
    if |ranked| > 0 && executor.Some? && DenHit(executor.value, ranked[0], ex) {
      assert exists k :: 0 <= k < |ranked| && DenHit(executor.value, ranked[k], ex);
    }
  }

  /** Some element of `xs` has a property iff some element of a permutation
      of it has. */
  lemma PermutedExists<T>(xs: seq<T>, ys: seq<T>, P: T -> bool)
    requires multiset(xs) == multiset(ys)
    ensures (exists k :: 0 <= k < |xs| && P(xs[k])) <==> (exists k :: 0 <= k < |ys| && P(ys[k]))
  {
    if k :| 0 <= k < |xs| && P(xs[k]) {
      assert xs[k] in multiset(ys);
      var j :| 0 <= j < |ys| && ys[j] == xs[k];
    }
    if k :| 0 <= k < |ys| && P(ys[k]) {
      assert ys[k] in multiset(xs);
      var j :| 0 <= j < |xs| && xs[j] == ys[k];
    }
  }

  /** The oracle accuracies do not depend on the ranking: the semantic oracle
      is 1 iff one of the grammar's parses has the gold meaning, and the
      denotation oracle iff one executes to the gold denotation, whatever
      the weights. */
  lemma OracleIgnoresRanking<D>(sc: Scorer<D>, ex: Example<D>)
    requires WfIndex(sc.ix) && ExampleMarks(sc, ex).Ok? && sc.executor.Some?
    ensures ParseTokens(sc.ix, sc.run, Split(ex.input)).Some?
    ensures var ps := ParseTokens(sc.ix, sc.run, Split(ex.input)).value;
      var m := ExampleMarks(sc, ex).value;
      && m.parses == |ps|
      && (m.semOrc == 1 <==> exists j :: 0 <= j < |ps| && SemEq(ps[j].semantics, ex.semantics))
      && (m.denOrc == 1 <==> exists j :: 0 <= j < |ps| && Some(sc.executor.value(ps[j].semantics)) == ex.denotation)
  {
    var ps := ParseTokens(sc.ix, sc.run, Split(ex.input)).value;
    var rs := Ranking(sc, ex.input).value;
    var a := Annotate(sc, ps);
    RankingPermutes(sc, ex.input);
    OracleOfPermuted(sc.executor.value, rs, a, ex);
    AnnotatedHits(sc, ps, ex);
  }

  lemma OracleOfPermuted<D>(exec: Sem -> D, rs: seq<Ranked<D>>, a: seq<Ranked<D>>, ex: Example<D>)
    requires multiset(rs) == multiset(a) && |rs| == |a|
    ensures var m := MarksOf(Some(exec), rs, ex).value;
      && m.parses == |a|
      && (m.semOrc == 1 <==> exists k :: 0 <= k < |a| && SemHit(a[k], ex))
      && (m.denOrc == 1 <==> exists k :: 0 <= k < |a| && DenHit(exec, a[k], ex))
  {
    PermutedExists(rs, a, (r: Ranked<D>) => SemHit(r, ex));
    PermutedExists(rs, a, (r: Ranked<D>) => DenHit(exec, r, ex));
  }

  /** A ranking is a permutation of the scored parses. */
  lemma RankingPermutes<D>(sc: Scorer<D>, input: string)
    requires WfIndex(sc.ix) && Ranking(sc, input).Ok?
    ensures ParseTokens(sc.ix, sc.run, Split(input)).Some?
    ensures var a := Annotate(sc, ParseTokens(sc.ix, sc.run, Split(input)).value); var rs := Ranking(sc, input).value;
      multiset(rs) == multiset(a) && |rs| == |a|
  {
    RankingFacts(sc, input);
    var a := Annotate(sc, ParseTokens(sc.ix, sc.run, Split(input)).value);
    var rs := Ranking(sc, input).value;
    assert |multiset(rs)| == |multiset(a)|;
  }

  /** Scoring a parse keeps its meaning and executes it. */
  lemma AnnotatedHits<D>(sc: Scorer<D>, ps: seq<Parse>, ex: Example<D>)
    requires sc.executor.Some?
    ensures var a := Annotate(sc, ps);
      && ((exists k :: 0 <= k < |a| && SemHit(a[k], ex)) <==> exists j :: 0 <= j < |ps| && SemEq(ps[j].semantics, ex.semantics))
      && ((exists k :: 0 <= k < |a| && DenHit(sc.executor.value, a[k], ex)) <==>
          exists j :: 0 <= j < |ps| && Some(sc.executor.value(ps[j].semantics)) == ex.denotation)
  {
    var a := Annotate(sc, ps);
    if exists j :: 0 <= j < |ps| && SemEq(ps[j].semantics, ex.semantics) {
      var j :| 0 <= j < |ps| && SemEq(ps[j].semantics, ex.semantics);
      assert SemHit(a[j], ex);
    }
    if exists j :: 0 <= j < |ps| && Some(sc.executor.value(ps[j].semantics)) == ex.denotation {
      var j :| 0 <= j < |ps| && Some(sc.executor.value(ps[j].semantics)) == ex.denotation;
      assert DenHit(sc.executor.value, a[j], ex);
    }
  }

  /** The number of parses of the examples from `i` on, an unparsable one
      counting nothing. */
  ghost function ParseCount<D>(sc: Scorer<D>, examples: seq<Example<D>>, i: nat): nat
    requires WfIndex(sc.ix) && i <= |examples|
    decreases |examples| - i
  {
    if i == |examples| then 0
    else
      (match Ranking(sc, examples[i].input) case Ok(rs) => |rs| case Err(_) => 0)
      + ParseCount(sc, examples, i + 1)
  }

  predicate Ordered(c: Counts, n: nat) {
    c.semAcc <= c.semOrc <= n && c.denAcc <= c.denOrc <= n
  }

  lemma {:induction false} EvaluateFromBounds<D>(sc: Scorer<D>, examples: seq<Example<D>>, i: nat, acc: Counts)
    requires WfIndex(sc.ix) && i <= |examples| && Ordered(acc, i)
    requires EvaluateFrom(sc, examples, i, acc).Ok?
    ensures Ordered(EvaluateFrom(sc, examples, i, acc).value, |examples|)
    ensures EvaluateFrom(sc, examples, i, acc).value.parses == acc.parses + ParseCount(sc, examples, i)
    decreases |examples| - i
  {
    if i < |examples| {
      var rs := Ranking(sc, examples[i].input).value;
      MarksBounds(sc.executor, rs, examples[i]);
      EvaluateFromBounds(sc, examples, i + 1, Plus(acc, ExampleMarks(sc, examples[i]).value));
    }
  }

  /** Over a run that does not throw, each accuracy is at most its oracle
      and both at most the example count, the reported fractions lie in
      [0, 1], and the parse total is the sum of the examples' parse counts. */
  lemma EvaluationTotals<D>(sc: Scorer<D>, examples: seq<Example<D>>)
    requires WfIndex(sc.ix) && Evaluation(sc, examples).Ok?
    ensures var t := Evaluation(sc, examples).value;
      && t.semAcc <= t.semOrc <= |examples|
      && t.denAcc <= t.denOrc <= |examples|
      && t.parses == ParseCount(sc, examples, 0)
    ensures var t := Evaluation(sc, examples).value; var n := |examples| as real;
      |examples| > 0 ==>
        0.0 <= t.semAcc as real / n <= t.semOrc as real / n <= 1.0
        && 0.0 <= t.denAcc as real / n <= t.denOrc as real / n <= 1.0
  {
    EvaluateFromBounds(sc, examples, 0, Zero);
    var t := Evaluation(sc, examples).value;
    if |examples| > 0 {
      var n := |examples| as real;
      Quotients(t.semAcc, t.semOrc, |examples|);
      Quotients(t.denAcc, t.denOrc, |examples|);
    }
  }

  lemma Quotients(a: nat, b: nat, n: nat)
    requires a <= b <= n && n > 0
    ensures 0.0 <= a as real / n as real <= b as real / n as real <= 1.0
  {
    var d := n as real;
    assert a as real / d <= b as real / d by {
      assert b as real / d - a as real / d == (b - a) as real / d;
    }
    assert b as real / d <= d / d;
  }

  /** An example makes the run throw when it has no parse, or when it has
      one and the model has no executor. */
  predicate Throws<D>(sc: Scorer<D>, ex: Example<D>)
    requires WfIndex(sc.ix)
  {
    ParseTokens(sc.ix, sc.run, Split(ex.input)).None? || sc.executor.None?
  }

  lemma ExampleThrows<D>(sc: Scorer<D>, ex: Example<D>)
    requires WfIndex(sc.ix)
    ensures ExampleMarks(sc, ex).Err? <==> Throws(sc, ex)
  {
    var tokens := Split(ex.input);
    if ParseTokens(sc.ix, sc.run, tokens).Some? {
      var ps := ParseTokens(sc.ix, sc.run, tokens).value;
      ChartFacts.ParseTokensCorrect(sc.ix, sc.run, tokens, Leaf(Rule("", [], Lit(Null)), [], Null));
      RankingPermutes(sc, ex.input);
    }
  }

  lemma {:induction false} EvaluateFromThrows<D>(sc: Scorer<D>, examples: seq<Example<D>>, i: nat, acc: Counts)
    requires WfIndex(sc.ix) && i <= |examples|
    ensures EvaluateFrom(sc, examples, i, acc).Err? <==> exists j :: i <= j < |examples| && Throws(sc, examples[j])
    decreases |examples| - i
  {
    if i < |examples| {
      ExampleThrows(sc, examples[i]);
      if ExampleMarks(sc, examples[i]).Ok? {
        EvaluateFromThrows(sc, examples, i + 1, Plus(acc, ExampleMarks(sc, examples[i]).value));
        if exists j :: i <= j < |examples| && Throws(sc, examples[j]) {
          var j :| i <= j < |examples| && Throws(sc, examples[j]);
          assert j != i;
        }
      }
    }
  }

  /** `evaluate_model` throws iff some example has no parse, or the model
      has no executor and some example has a parse. */
  lemma EvaluationThrows<D>(sc: Scorer<D>, examples: seq<Example<D>>)
    requires WfIndex(sc.ix)
    ensures Evaluation(sc, examples).Err? <==> exists j :: 0 <= j < |examples| && Throws(sc, examples[j])
  {
    EvaluateFromThrows(sc, examples, 0, Zero);
  }
}
