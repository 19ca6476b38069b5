/** The `Model` object: a grammar, a feature function, a weight vector
    and an optional executor, with scoring, ranking and perceptron
    training. */
module LinearModel {
  import opened Wrappers
  import opened JsText
  import opened Sems
  import opened SemParser
  import opened Scoring
  import opened Perceptron

  class Model<D(==)> {
    const grammar: Grammar
    const featureFn: Parse -> Features
    var weights: Weights
    const executor: Option<Sem -> D>

    ghost function Env(): Scorer<D>
      reads this, grammar
    {
      Scorer(grammar.Ix(), grammar.run, featureFn, executor, weights)
    }

    /** `new Model(grammar, featureFn, weights, executor)` */
    constructor (grammar: Grammar, featureFn: Parse -> Features, weights: Weights, executor: Option<Sem -> D>)
      ensures this.grammar == grammar && this.featureFn == featureFn
      ensures this.weights == weights && this.executor == executor
    {
      this.grammar := grammar;
      this.featureFn := featureFn;
      this.weights := weights;
      this.executor := executor;
    }

    /** `score`: a running sum over the parse's feature keys. */
    method Score(parse: Parse) returns (s: real)
      ensures s == Dot(featureFn(parse), weights)
    {
      var features := featureFn(parse);
      s := 0.0;
      var rest := features;
      while rest != map[]
        invariant s + Dot(rest, weights) == Dot(features, weights)
        decreases rest.Keys
      {
        var feat :| feat in rest;
        DotRemove(rest, weights, feat);
        s := s + Weight(weights, feat) * rest[feat];
        rest := rest - {feat};
      }
    }

    /** `parse_input`: score (and execute) every parse, then sort. */
    method ParseInput(input: string) returns (res: Result<seq<Ranked<D>>>)
      requires grammar.Valid()
      ensures res == Ranking(Env(), input)
    {
      var parses := grammar.ParseInput(input);
      if parses.None? {
        return Err(NotIterable);
      }
      var ps := parses.value;
      ghost var sc := Env();
      var scored: seq<Ranked<D>> := [];
      for i := 0 to |ps|
        invariant |scored| == i
        invariant forall k :: 0 <= k < i ==> scored[k] == Annotate(sc, ps)[k]
      {
        var s := Score(ps[i]);
        scored := scored + [Ranked(ps[i], s, Denote(executor, ps[i]))];
      }
      assert scored == Annotate(sc, ps);
      res := Ok(SortByScore(scored));
    }

    /** The loop over one example's ranked parses in `learnWeights`. */
    method TallyParses(ranked: seq<Ranked<D>>, ex: Example<D>, metric: Metric, first: bool, names0: set<string>)
      returns (t: Tally, names: set<string>)
      ensures t == Collect(JudgeAll(featureFn, ranked, ex, metric))
      ensures names == if first then names0 + NamesOf(JudgeAll(featureFn, ranked, ex, metric)) else names0
    {
      ghost var js := JudgeAll(featureFn, ranked, ex, metric);
      t := Tally(None, Sentinel, []);
      names := names0;
      for k := 0 to |ranked|
        invariant t == Collect(js[..k])
        invariant names == if first then names0 + NamesOf(js[..k]) else names0
      {
        assert js[..k + 1][..k] == js[..k];
        var features := featureFn(ranked[k].parse);
        if first {
          names := names + features.Keys;
        }
        var correct := Evaluate(ranked[k], ex, metric);
        var crit := ranked[k].score;
        var target := t.target;
        if target.None? && correct {
          target := Some(features);
        } else {
          crit := crit + 1.0;
        }
        var maxCrit, cands := t.maxCrit, t.cands;
        if crit >= maxCrit {
          if crit > maxCrit {
            cands := [];
          }
          maxCrit := crit;
          cands := cands + [Candidate(features, correct)];
        }
        t := Tally(target, maxCrit, cands);
      }
      assert js[..|ranked|] == js;
    }

    /** The first half of an epoch: the loop over `i` that draws, ranks
      and tallies every example with the current weights. */
    method RankEpoch(examples: seq<Example<D>>, metric: Metric, first: bool, names0: set<string>, rand: seq<real>, pos: nat)
      returns (res: Result<Visit>)
      requires grammar.Valid()
      ensures res == RankFrom(Env(), examples, metric, first, rand, 0, Visit([], {}, [], names0, pos))
    {
      ghost var sc := Env();
      ghost var goal := RankFrom(sc, examples, metric, first, rand, 0, Visit([], {}, [], names0, pos));
      var v := Visit([], {}, [], names0, pos);
      var i := 0;
      while i < |examples|
        invariant i <= |examples|
        invariant RankFrom(sc, examples, metric, first, rand, i, v) == goal
        decreases |examples| - i
      {
        var d := Draw(v.drawn, |examples|, rand, v.pos);
        if d.None? {
          return Err(Exhausted);
        }
        var (j, p) := d.value;
        if !(0 <= j < |examples|) {
          return Err(NoExample);
        }
        var ranked := ParseInput(examples[j].input);
        if ranked.Err? {
          return Err(ranked.msg);
        }
        var t, names := TallyParses(ranked.value, examples[j], metric, first, v.names);
        v := Visit(v.order + [j], v.drawn + {j}, v.tallies + [t], names, p);
        i := i + 1;
      }
      return Ok(v);
    }

    /** `featureNames.map(...)` for one example. */
    method ApplyUpdate(names: set<string>, t: Features, c: Features, eta: real)
      modifies this
      ensures weights == Updated(old(weights), names, t, c, eta)
    {
      ghost var w0 := weights;
      var rest := names;
      ghost var done: set<string> := {};
      while rest != {}
        invariant done + rest == names && done !! rest
        invariant weights == Updated(w0, done, t, c, eta)
        decreases rest
      {
        var name :| name in rest;
        UpdatedAdd(w0, done, t, c, eta, name, weights);
        var update := Diff(t, c, name);
        if update != 0.0 {
          weights := weights[name := Weight(weights, name) + eta * update];
          assert weights[name] == Moved(w0, t, c, eta, name);
        }
        rest := rest - {name};
        done := done + {name};
      }
    }

    /** The second half of an epoch: the loop over the examples that have a
      target. */
    method UpdateEpoch(names: set<string>, tallies: seq<Tally>, eta: real, rand: seq<real>, pos: nat)
      returns (correct: nat, next: nat, failure: Option<string>)
      modifies this
      ensures var u := UpdateFrom(names, tallies, eta, rand, 0, Update(old(weights), 0, pos, None));
        weights == u.weights && correct == u.correct && next == u.pos && failure == u.failure
    {
      ghost var goal := UpdateFrom(names, tallies, eta, rand, 0, Update(weights, 0, pos, None));
      correct, next, failure := 0, pos, None;
      var i := 0;
      while i < |tallies|
        invariant i <= |tallies|
        invariant UpdateFrom(names, tallies, eta, rand, i, Update(weights, correct, next, None)) == goal
        decreases |tallies| - i
      {
        var tally := tallies[i];
        if tally.target.Some? {
          if next >= |rand| {
            failure := Some(Exhausted);
            return;
          }
          var cs := tally.cands;
          var k := Pick(rand[next], |cs|);
          if !(0 <= k < |cs|) {
            next, failure := next + 1, Some(NoCandidate);
            return;
          }
          if cs[k].correct {
            correct := correct + 1;
          }
          ApplyUpdate(names, tally.target.value, cs[k].features, eta);
          next := next + 1;
        }
        i := i + 1;
      }
    }

    /** One epoch: rank everything, then update. */
    method Epoch(examples: seq<Example<D>>, metric: Metric, eta: real, first: bool, names: set<string>, rand: seq<real>, pos: nat)
      returns (r: EpochResult)
      requires grammar.Valid()
      modifies this
      ensures r == EpochFrom(old(Env()), examples, metric, eta, first, names, rand, pos)
      ensures weights == r.weights
    {
      var v := RankEpoch(examples, metric, first, names, rand, pos);
      if v.Err? {
        return EpochResult(weights, names, 0, pos, Some(v.msg));
      }
      var correct, next, failure := UpdateEpoch(v.value.names, v.value.tallies, eta, rand, v.value.pos);
      r := EpochResult(weights, v.value.names, correct, next, failure);
    }

    /** `Epoch`, stated as one application of `step`. */
    method EpochWith(ghost step: EpochFn, ghost sc: Scorer<D>, examples: seq<Example<D>>, metric: Metric, eta: real, first: bool, names: set<string>, rand: seq<real>, pos: nat)
      returns (r: EpochResult)
      requires grammar.Valid() && WfIndex(sc.ix)
      requires sc.ix == grammar.Ix() && sc.run == grammar.run && sc.featureFn == featureFn && sc.executor == executor
      requires step == EpochOf(sc, examples, metric, eta, rand)
      modifies this
      ensures r == step(old(weights), first, names, pos)
      ensures weights == r.weights
    {
      EpochOfApply(sc, examples, metric, eta, rand, weights, first, names, pos);
      r := Epoch(examples, metric, eta, first, names, rand, pos);
    }

    /** `learnWeights(examples, metric, eta, T)`, with the pseudo-random
      numbers it draws given as `rand`. */
    method LearnWeights(examples: seq<Example<D>>, metric: Metric, eta: real, epochs: nat, rand: seq<real>)
      returns (res: Learned)
      requires grammar.Valid()
      modifies this
      ensures res == LearnFrom(old(Env()), examples, metric, eta, epochs, rand)
      ensures weights == res.weights
    {
      ghost var sc := Env();
      res := Train(EpochOf(sc, examples, metric, eta, rand), sc, examples, metric, eta, epochs, rand);
    }

    /** The epoch loop of `learnWeights`, one `step` per epoch. */
    method Train(ghost step: EpochFn, ghost sc: Scorer<D>, examples: seq<Example<D>>, metric: Metric, eta: real, epochs: nat, rand: seq<real>)
      returns (res: Learned)
      requires grammar.Valid() && sc == Env()
      requires step == EpochOf(sc, examples, metric, eta, rand)
      modifies this
      ensures res == Epochs(step, old(weights), epochs, 0, {}, 0, [])
      ensures weights == res.weights
    {
      ghost var goal := Epochs(step, weights, epochs, 0, {}, 0, []);
      var names: set<string> := {};
      var pos: nat := 0;
      var acc: seq<nat> := [];
      var e: nat := 0;
      while e < epochs
        invariant e <= epochs
        invariant Epochs(step, weights, epochs, e, names, pos, acc) == goal
        decreases epochs - e
      {
        var r := EpochWith(step, sc, examples, metric, eta, e == 0, names, rand, pos);
        if r.failure.Some? {
          return Learned(weights, acc, r.failure);
        }
        names, pos, acc := r.names, r.pos, acc + [r.correct];
        e := e + 1;
      }
      res := Learned(weights, acc, None);
    }
  }

  /** The rejection loop that draws an example index not yet visited. */
  method Draw(drawn: set<int>, n: nat, rand: seq<real>, pos: nat) returns (r: Option<(int, nat)>)
    ensures r == DrawFrom(drawn, n, rand, pos)
  {
    var p := pos;
    while p < |rand| && Pick(rand[p], n) in drawn
      invariant pos <= p && DrawFrom(drawn, n, rand, p) == DrawFrom(drawn, n, rand, pos)
      decreases |rand| - p
    {
      p := p + 1;
    }
    if p >= |rand| {
      return None;
    }
    return Some((Pick(rand[p], n), p + 1));
  }
}
