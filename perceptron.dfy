/** One epoch of the loss-augmented perceptron that `learnWeights` runs,
    stated as functions of the epoch-start scorer and of the stream of
    pseudo-random numbers the learner draws from. */
module Perceptron {
  import opened Wrappers
  import opened Sems
  import opened Collections
  import opened SemParser
  import opened Scoring

  /** The `metric` argument: compare denotations, compare meanings, or any
      other string, for which `evaluate` returns `undefined`. */
  datatype Metric = Denotation | Semantics | OtherMetric

  /** `evaluate(parse, example, metric)`, a falsy result read as false. */
  predicate Evaluate<D(==)>(p: Ranked<D>, ex: Example<D>, metric: Metric) {
    match metric
    case Denotation => p.denotation == ex.denotation
    case Semantics => SemEq(p.parse.semantics, ex.semantics)
    case OtherMetric => false
  }

  /** What the learner looks at in one ranked parse: its features, its
      score and whether it is correct. */
  datatype Judged = Judged(features: Features, score: real, correct: bool)

  function JudgeAll<D(==)>(featureFn: Parse -> Features, ranked: seq<Ranked<D>>, ex: Example<D>, metric: Metric): (js: seq<Judged>)
    ensures |js| == |ranked|
  {
    seq(|ranked|, k requires 0 <= k < |ranked| => Judged(featureFn(ranked[k].parse), ranked[k].score, Evaluate(ranked[k], ex, metric)))
  }

  /** An entry `[features, match]` of `maxParses[i]`. */
  datatype Candidate = Candidate(features: Features, correct: bool)

  /** The per-example state of the loop over the ranked parses: the target
      features (`xObj[i]`, set by the first correct parse), `maxCrit` and
      `maxParses[i]`. */
  datatype Tally = Tally(target: Option<Features>, maxCrit: real, cands: seq<Candidate>)

  /** The initial `maxCrit`. */
  const Sentinel: real := -100000.0

  /** One parse of the loop: the first correct parse becomes the target and
      keeps its score; every other parse scores one more. A higher score
      restarts the candidate list, an equal one joins it. */
  function Step(t: Tally, j: Judged): Tally {
    var first := t.target.None? && j.correct;
    var crit := if first then j.score else j.score + 1.0;
    var target := if first then Some(j.features) else t.target;
    if crit > t.maxCrit then Tally(target, crit, [Candidate(j.features, j.correct)])
    else if crit == t.maxCrit then Tally(target, crit, t.cands + [Candidate(j.features, j.correct)])
    else Tally(target, t.maxCrit, t.cands)
  }

  function Collect(js: seq<Judged>): Tally
    decreases |js|
  {
    if js == [] then Tally(None, Sentinel, [])
    else Step(Collect(js[..|js| - 1]), js[|js| - 1])
  }

  // ---------------------------------------------------------------------
  // What the loop computes, stated directly

  predicate IsFirstCorrect(js: seq<Judged>, k: nat)
    requires k < |js|
  {
    js[k].correct && forall i :: 0 <= i < k ==> !js[i].correct
  }

  /** The position of the first correct parse, if any. */
  function FirstCorrect(js: seq<Judged>): (r: Option<nat>)
    ensures r.Some? ==> r.value < |js| && IsFirstCorrect(js, r.value)
    ensures r.None? ==> forall k :: 0 <= k < |js| ==> !js[k].correct
    decreases |js|
  {
    if js == [] then None
    else if js[0].correct then Some(0)
    else match FirstCorrect(js[1..])
      case None => None
      case Some(k) => assert js[1..][k] == js[k + 1]; Some(k + 1)
  }

  function TargetOf(js: seq<Judged>): Option<Features> {
    match FirstCorrect(js)
    case None => None
    case Some(k) => Some(js[k].features)
  }

  /** The loss-augmented scores: the first correct parse keeps its score,
      every other parse gets one more. */
  function Augmented(js: seq<Judged>): (a: seq<real>)
    ensures |a| == |js|
  {
    seq(|js|, k requires 0 <= k < |js| => js[k].score + (if IsFirstCorrect(js, k) then 0.0 else 1.0))
  }

  /** The largest of the sentinel and the elements of `a`. */
  function Best(a: seq<real>): real
    decreases |a|
  {
    if a == [] then Sentinel
    else
      var b := Best(a[..|a| - 1]);
      if a[|a| - 1] > b then a[|a| - 1] else b
  }

  /** The candidates at the positions where `a` equals `m`, in order. */
  function Ties(js: seq<Judged>, a: seq<real>, m: real): seq<Candidate>
    requires |a| == |js|
    decreases |js|
  {
    if js == [] then []
    else
      var x := js[|js| - 1];
      Ties(js[..|js| - 1], a[..|a| - 1], m) + (if a[|a| - 1] == m then [Candidate(x.features, x.correct)] else [])
  }

  lemma {:induction false} BestBound(a: seq<real>)
    ensures Sentinel <= Best(a)
    ensures forall k :: 0 <= k < |a| ==> a[k] <= Best(a)
    ensures Best(a) == Sentinel || exists k :: 0 <= k < |a| && a[k] == Best(a)
    decreases |a|
  {
    if a != [] {
      var init := a[..|a| - 1];
      BestBound(init);
      assert forall k :: 0 <= k < |init| ==> init[k] == a[k];
    }
  }

  lemma {:induction false} TiesNone(js: seq<Judged>, a: seq<real>, m: real)
    requires |a| == |js| && forall k :: 0 <= k < |a| ==> a[k] != m
    ensures Ties(js, a, m) == []
    decreases |js|
  {
    if js != [] {
      TiesNone(js[..|js| - 1], a[..|a| - 1], m);
    }
  }

  lemma {:induction false} TiesSome(js: seq<Judged>, a: seq<real>, m: real, k: nat)
    requires |a| == |js| && k < |a| && a[k] == m
    ensures Ties(js, a, m) != []
    decreases |js|
  {
    if k < |js| - 1 {
      TiesSome(js[..|js| - 1], a[..|a| - 1], m, k);
    }
  }

  /** Appending a parse leaves the earlier loss-augmented scores alone;
      the new one is augmented unless it is the first correct parse. */
  lemma AugmentedSnoc(js: seq<Judged>)
    requires js != []
    ensures var init, x := js[..|js| - 1], js[|js| - 1];
      && Augmented(js)[..|js| - 1] == Augmented(init)
      && Augmented(js)[|js| - 1] == x.score + (if TargetOf(init).None? && x.correct then 0.0 else 1.0)
  {
    var init, x := js[..|js| - 1], js[|js| - 1];
    var a, a0 := Augmented(js), Augmented(init);
    forall k | 0 <= k < |init|
      ensures a[k] == a0[k]
    {
      assert IsFirstCorrect(js, k) == IsFirstCorrect(init, k);
    }
    assert a[..|a| - 1] == a0;
    TargetOfSnoc(js);
  }

  /** Appending a parse makes it the target only when there was none and it
      is correct. */
  lemma TargetOfSnoc(js: seq<Judged>)
    requires js != []
    ensures var init, x := js[..|js| - 1], js[|js| - 1];
      && (IsFirstCorrect(js, |js| - 1) <==> TargetOf(init).None? && x.correct)
      && TargetOf(js) == if TargetOf(init).None? && x.correct then Some(x.features) else TargetOf(init)
  {
    var init, x := js[..|js| - 1], js[|js| - 1];
    var last := |js| - 1;
    assert IsFirstCorrect(js, last) <==> TargetOf(init).None? && x.correct;
    if FirstCorrect(init).Some? {
      assert IsFirstCorrect(js, FirstCorrect(init).value);
    }
  }

  /** The loop over the ranked parses keeps, as target, the features of the
      first correct parse, and as candidates exactly the parses whose
      loss-augmented score is the maximum (or the sentinel), in rank order. */
  lemma {:induction false} CollectCharacterised(js: seq<Judged>)
    ensures Collect(js) == Tally(TargetOf(js), Best(Augmented(js)), Ties(js, Augmented(js), Best(Augmented(js))))
    decreases |js|
  {
    if js != [] {
      var init := js[..|js| - 1];
      CollectCharacterised(init);
      AugmentedSnoc(js);
      TargetOfSnoc(js);
      var a, a0 := Augmented(js), Augmented(init);
      var b := Best(a0);
      if a[|js| - 1] > b {
        BestBound(a0);
        TiesNone(init, a0, a[|js| - 1]);
      }
    }
  }

  /** The candidate list is empty exactly when every loss-augmented score is
      below the sentinel. */
  lemma CandidatesExist(js: seq<Judged>)
    ensures Collect(js).cands != [] <==> exists k :: 0 <= k < |js| && Augmented(js)[k] >= Sentinel
  {
    CollectCharacterised(js);
    var a := Augmented(js);
    var m := Best(a);
    BestBound(a);
    if exists k :: 0 <= k < |js| && a[k] >= Sentinel {
      var k :| 0 <= k < |js| && a[k] >= Sentinel;
      if m == Sentinel {
        TiesSome(js, a, m, k);
      } else {
        var k' :| 0 <= k' < |a| && a[k'] == m;
        TiesSome(js, a, m, k');
      }
    } else {
      TiesNone(js, a, m);
    }
  }

  /** A target exists exactly when some parse is correct. */
  lemma TargetExists(js: seq<Judged>)
    ensures Collect(js).target.Some? <==> exists k :: 0 <= k < |js| && js[k].correct
    ensures Collect(js).target.Some? ==> exists k :: 0 <= k < |js| && IsFirstCorrect(js, k) && Collect(js).target.value == js[k].features
  {
    CollectCharacterised(js);
  }

  // ---------------------------------------------------------------------
  // Drawing the visiting order

  /** `Math.floor(r * n)` */
  function Pick(r: real, n: nat): int {
    (r * n as real).Floor
  }

  lemma PickInRange(r: real, n: nat)
    requires 0.0 <= r < 1.0 && n > 0
    ensures 0 <= Pick(r, n) < n
  {
    assert 0.0 <= r * n as real;
    assert r * n as real < n as real by {
      assert (1.0 - r) * n as real > 0.0;
    }
  }

  const Exhausted := "random stream exhausted"
  const NoExample := "TypeError: example is undefined"

  /** The rejection loop `while (drawn.has(j = ...))`: the first draw from
      position `pos` on that is not in `drawn`, with the position after it. */
  function DrawFrom(drawn: set<int>, n: nat, rand: seq<real>, pos: nat): (r: Option<(int, nat)>)
    ensures r.Some? ==> r.value.0 !in drawn && pos < r.value.1 <= |rand|
    decreases |rand| - pos
  {
    if pos >= |rand| then None
    else
      var j := Pick(rand[pos], n);
      if j in drawn then DrawFrom(drawn, n, rand, pos + 1) else Some((j, pos + 1))
  }

  predicate InUnit(rand: seq<real>) {
    forall k :: 0 <= k < |rand| ==> 0.0 <= rand[k] < 1.0
  }

  lemma {:induction false} DrawInRange(drawn: set<int>, n: nat, rand: seq<real>, pos: nat)
    requires InUnit(rand) && n > 0
    ensures DrawFrom(drawn, n, rand, pos).Some? ==> 0 <= DrawFrom(drawn, n, rand, pos).value.0 < n
    decreases |rand| - pos
  {
    if pos < |rand| {
      PickInRange(rand[pos], n);
      DrawInRange(drawn, n, rand, pos + 1);
    }
  }

  // ---------------------------------------------------------------------
  // The ranking half of an epoch

  /** The feature names of the judged parses. */
  function NamesOf(js: seq<Judged>): set<string>
    decreases |js|
  {
    if js == [] then {} else NamesOf(js[..|js| - 1]) + js[|js| - 1].features.Keys
  }

  /** The loop variables after some examples of an epoch: the indices drawn
      so far in visiting order, the `drawn` set, one tally per visit,
      `featureNames`, and the position in the random stream. */
  datatype Visit = Visit(order: seq<int>, drawn: set<int>, tallies: seq<Tally>, names: set<string>, pos: nat)

  /** The loop over `i`: draw an unvisited example, rank its parses with
      the epoch-start weights, tally them and, in the first epoch, collect
      their feature names. */
  ghost function RankFrom<D>(sc: Scorer<D>, examples: seq<Example<D>>, metric: Metric, first: bool, rand: seq<real>, i: nat, v: Visit): Result<Visit>
    requires WfIndex(sc.ix)
    decreases |examples| - i
  {
    if i >= |examples| then Ok(v)
    else match DrawFrom(v.drawn, |examples|, rand, v.pos)
      case None => Err(Exhausted)
      case Some((j, p)) =>
        if !(0 <= j < |examples|) then Err(NoExample)
        else match Ranking(sc, examples[j].input)
          case Err(m) => Err(m)
          case Ok(ranked) =>
            var js := JudgeAll(sc.featureFn, ranked, examples[j], metric);
            RankFrom(sc, examples, metric, first, rand, i + 1,
                     Visit(v.order + [j], v.drawn + {j}, v.tallies + [Collect(js)],
                           if first then v.names + NamesOf(js) else v.names, p))
  }

  /** The judged parses of example `j` under `sc`. */
  ghost function JudgedOf<D>(sc: Scorer<D>, ex: Example<D>, metric: Metric): seq<Judged>
    requires WfIndex(sc.ix) && Ranking(sc, ex.input).Ok?
  {
    JudgeAll(sc.featureFn, Ranking(sc, ex.input).value, ex, metric)
  }

  /** The judged parses of example `j`, or nothing when `j` is out of range
      or its parse fails. */
  ghost function Lookup<D>(sc: Scorer<D>, examples: seq<Example<D>>, metric: Metric): int -> Option<seq<Judged>>
    requires WfIndex(sc.ix)
  {
    (j: int) => if 0 <= j < |examples| && Ranking(sc, examples[j].input).Ok? then Some(JudgedOf(sc, examples[j], metric)) else None
  }

  lemma LookupApply<D>(sc: Scorer<D>, examples: seq<Example<D>>, metric: Metric, j: int)
    requires WfIndex(sc.ix)
    ensures Lookup(sc, examples, metric)(j) ==
      if 0 <= j < |examples| && Ranking(sc, examples[j].input).Ok? then Some(JudgedOf(sc, examples[j], metric)) else None
  {
  }

  /** The feature names of all parses of the examples in `order`. */
  ghost function NamesAlong(look: int -> Option<seq<Judged>>, order: seq<int>): set<string>
    requires forall k :: 0 <= k < |order| ==> look(order[k]).Some?
    decreases |order|
  {
    if order == [] then {}
    else NamesAlong(look, order[..|order| - 1]) + NamesOf(look(order[|order| - 1]).value)
  }

  /** The feature names of all parses of the visited examples. */
  ghost function VisitedNames<D>(sc: Scorer<D>, examples: seq<Example<D>>, metric: Metric, order: seq<int>): set<string>
    requires WfIndex(sc.ix)
    requires forall k :: 0 <= k < |order| ==> 0 <= order[k] < |examples| && Ranking(sc, examples[order[k]].input).Ok?
  {
    var look := Lookup(sc, examples, metric);
    assert forall k :: 0 <= k < |order| ==> look(order[k]).Some? by {
      forall k | 0 <= k < |order|
        ensures look(order[k]).Some?
      {
        LookupApply(sc, examples, metric, order[k]);
      }
    }
    NamesAlong(look, order)
  }

  /** What holds of the loop variables after `i` of `n` examples, for the
      judged parses `look` gives. */
  ghost predicate Visited(look: int -> Option<seq<Judged>>, n: nat, first: bool, names0: set<string>, i: nat, v: Visit) {
    && |v.order| == i && |v.tallies| == i && NoDups(v.order)
    && (forall k :: 0 <= k < i ==> 0 <= v.order[k] < n && look(v.order[k]).Some?)
    && (forall j :: j in v.drawn <==> j in v.order)
    && (forall k :: 0 <= k < i ==> v.tallies[k] == Collect(look(v.order[k]).value))
    && v.names == (if first then names0 + NamesAlong(look, v.order) else names0)
  }

  /** One more visit keeps the loop facts. */
  lemma VisitStep(look: int -> Option<seq<Judged>>, n: nat, first: bool, names0: set<string>, i: nat, v: Visit, j: int, p: nat)
    requires Visited(look, n, first, names0, i, v)
    requires 0 <= j < n && j !in v.drawn && look(j).Some?
    ensures var js := look(j).value;
      Visited(look, n, first, names0, i + 1,
              Visit(v.order + [j], v.drawn + {j}, v.tallies + [Collect(js)],
                    if first then v.names + NamesOf(js) else v.names, p))
  {
    var order := v.order + [j];
    assert order[..|order| - 1] == v.order;
  }

  lemma {:induction false} RankFromVisits<D>(sc: Scorer<D>, examples: seq<Example<D>>, metric: Metric, first: bool, names0: set<string>, rand: seq<real>, i: nat, v: Visit)
    requires WfIndex(sc.ix) && InUnit(rand) && i <= |examples|
    requires Visited(Lookup(sc, examples, metric), |examples|, first, names0, i, v)
    ensures var r := RankFrom(sc, examples, metric, first, rand, i, v);
      r.Ok? ==> Visited(Lookup(sc, examples, metric), |examples|, first, names0, |examples|, r.value)
    ensures var r := RankFrom(sc, examples, metric, first, rand, i, v);
      r.Err? ==> r.msg == Exhausted || exists j :: 0 <= j < |examples| && Ranking(sc, examples[j].input).Err?
    decreases |examples| - i
  {
    if i < |examples| {
      DrawInRange(v.drawn, |examples|, rand, v.pos);
      var d := DrawFrom(v.drawn, |examples|, rand, v.pos);
      if d.Some? {
        var (j, p) := d.value;
        if Ranking(sc, examples[j].input).Ok? {
          var js := JudgedOf(sc, examples[j], metric);
          LookupApply(sc, examples, metric, j);
          VisitStep(Lookup(sc, examples, metric), |examples|, first, names0, i, v, j, p);
          var w := Visit(v.order + [j], v.drawn + {j}, v.tallies + [Collect(js)],
                         if first then v.names + NamesOf(js) else v.names, p);
          assert RankFrom(sc, examples, metric, first, rand, i, v) == RankFrom(sc, examples, metric, first, rand, i + 1, w);
          RankFromVisits(sc, examples, metric, first, names0, rand, i + 1, w);
        }
      }
    }
  }

  /** The ranking half of an epoch visits every example exactly once: the
      visiting order is a permutation of the example indices, each tally
      is that of the example's parses ranked with the same scorer, and
      feature names are collected in the first epoch only. */
  lemma RankEpochFacts<D>(sc: Scorer<D>, examples: seq<Example<D>>, metric: Metric, first: bool, names0: set<string>, rand: seq<real>, pos: nat)
    requires WfIndex(sc.ix) && InUnit(rand)
    ensures var r := RankFrom(sc, examples, metric, first, rand, 0, Visit([], {}, [], names0, pos));
      r.Ok? ==>
        && |r.value.order| == |examples| && NoDups(r.value.order)
        && (forall k :: 0 <= k < |examples| ==> 0 <= r.value.order[k] < |examples|)
        && (forall j :: 0 <= j < |examples| <==> j in r.value.order)
        && |r.value.tallies| == |examples|
        && (forall k :: 0 <= k < |examples| ==>
              Ranking(sc, examples[r.value.order[k]].input).Ok?
              && r.value.tallies[k] == Collect(JudgedOf(sc, examples[r.value.order[k]], metric)))
        && r.value.names == (if first then names0 + VisitedNames(sc, examples, metric, r.value.order) else names0)
    ensures var r := RankFrom(sc, examples, metric, first, rand, 0, Visit([], {}, [], names0, pos));
      (forall j :: 0 <= j < |examples| ==> Ranking(sc, examples[j].input).Ok?) ==> r.Err? ==> r.msg == Exhausted
  {
    var v := Visit([], {}, [], names0, pos);
    var look := Lookup(sc, examples, metric);
    assert Visited(look, |examples|, first, names0, 0, v);
    RankFromVisits(sc, examples, metric, first, names0, rand, 0, v);
    var r := RankFrom(sc, examples, metric, first, rand, 0, v);
    if r.Ok? {
      var order := r.value.order;
      forall k | 0 <= k < |examples|
        ensures Ranking(sc, examples[order[k]].input).Ok?
        ensures r.value.tallies[k] == Collect(JudgedOf(sc, examples[order[k]], metric))
      {
        LookupApply(sc, examples, metric, order[k]);
      }
      forall j | j in order
        ensures 0 <= j < |examples|
      {
        var k :| 0 <= k < |order| && order[k] == j;
      }
      DistinctBelow(order, |examples|);
    }
  }

  // ---------------------------------------------------------------------
  // The update half of an epoch

  /** Target minus chosen count of one feature, a missing count being 0. */
  function Diff(t: Features, c: Features, name: string): real {
    Weight(t, name) - Weight(c, name)
  }

  /** A name whose weight an update moves. */
  predicate Touched(names: set<string>, t: Features, c: Features, k: string) {
    k in names && Diff(t, c, k) != 0.0
  }

  /** `(this.weights[name] || 0.0) + eta * update` */
  function Moved(w: Weights, t: Features, c: Features, eta: real, k: string): real {
    Weight(w, k) + eta * Diff(t, c, k)
  }

  /** `featureNames.map(...)`: every name with a non-zero difference moves
      by `eta` times that difference; no other weight is touched. */
  function Updated(w: Weights, names: set<string>, t: Features, c: Features, eta: real): Weights {
    map k | k in w.Keys + names && (k in w || Touched(names, t, c, k)) ::
      if Touched(names, t, c, k) then Moved(w, t, c, eta, k) else w[k]
  }

  /** Each weight moves by `eta` times the difference for names in the
      vocabulary and not at all otherwise; a weight is created only for a
      name whose difference is non-zero; choosing the target changes
      nothing. */
  lemma UpdatedFacts(w: Weights, names: set<string>, t: Features, c: Features, eta: real)
    ensures forall k :: Weight(Updated(w, names, t, c, eta), k) == Weight(w, k) + (if k in names then eta * Diff(t, c, k) else 0.0)
    ensures forall k :: k in Updated(w, names, t, c, eta) <==> k in w || (k in names && Diff(t, c, k) != 0.0)
    ensures forall k :: k !in names ==> (k in Updated(w, names, t, c, eta) <==> k in w)
    ensures t == c ==> Updated(w, names, t, c, eta) == w
  {
    var u := Updated(w, names, t, c, eta);
    forall k
      ensures Weight(u, k) == Weight(w, k) + (if k in names then eta * Diff(t, c, k) else 0.0)
    {
      if k in names && Diff(t, c, k) == 0.0 {
        assert eta * Diff(t, c, k) == 0.0;
      }
    }
    if t == c {
      assert forall k :: Diff(t, c, k) == 0.0;
      assert u.Keys == w.Keys;
    }
  }

  /** Adding one more name to the vocabulary of an update. */
  lemma UpdatedAdd(w: Weights, done: set<string>, t: Features, c: Features, eta: real, name: string, u: Weights)
    requires name !in done && u == Updated(w, done, t, c, eta)
    ensures Weight(u, name) == Weight(w, name)
    ensures Updated(w, done + {name}, t, c, eta) ==
      if Diff(t, c, name) != 0.0 then u[name := Moved(w, t, c, eta, name)] else u
  {
    var u2 := Updated(w, done + {name}, t, c, eta);
    var rhs := if Diff(t, c, name) != 0.0 then u[name := Moved(w, t, c, eta, name)] else u;
    forall k
      ensures k in u2 <==> k in rhs
    {
    }
    forall k | k in u2
      ensures u2[k] == rhs[k]
    {
    }
    assert u2 == rhs;
  }

  const NoCandidate := "TypeError: chosen_features is undefined"

  /** The state of the update loop over the examples that have a target:
      the weights, `num_correct`, the position in the random stream and the
      error that stopped it, if one did. */
  datatype Update = Update(weights: Weights, correct: nat, pos: nat, failure: Option<string>)

  /** The loop `for (i of keys)`: `keys` are the visits with a target, in
      increasing order. A candidate is drawn, counted if correct, and the
      weights move toward the target and away from it. */
  function UpdateFrom(names: set<string>, tallies: seq<Tally>, eta: real, rand: seq<real>, i: nat, u: Update): Update
    decreases |tallies| - i
  {
    if i >= |tallies| || u.failure.Some? then u
    else if tallies[i].target.None? then UpdateFrom(names, tallies, eta, rand, i + 1, u)
    else if u.pos >= |rand| then u.(failure := Some(Exhausted))
    else
      var cs := tallies[i].cands;
      var k := Pick(rand[u.pos], |cs|);
      if !(0 <= k < |cs|) then u.(pos := u.pos + 1, failure := Some(NoCandidate))
      else
        UpdateFrom(names, tallies, eta, rand, i + 1,
                   Update(Updated(u.weights, names, tallies[i].target.value, cs[k].features, eta),
                          u.correct + (if cs[k].correct then 1 else 0), u.pos + 1, None))
  }

  /** The visits with a target, from `i` on. */
  function Targets(tallies: seq<Tally>, i: nat): nat
    decreases |tallies| - i
  {
    if i >= |tallies| then 0
    else (if tallies[i].target.Some? then 1 else 0) + Targets(tallies, i + 1)
  }

  /** Only examples with a target are counted, each at most once; if none
      has a target, nothing changes; weights outside the vocabulary never
      change. */
  lemma {:induction false} UpdateFromFacts(names: set<string>, tallies: seq<Tally>, eta: real, rand: seq<real>, i: nat, u: Update)
    ensures var r := UpdateFrom(names, tallies, eta, rand, i, u);
      && u.correct <= r.correct <= u.correct + Targets(tallies, i)
      && (Targets(tallies, i) == 0 ==> r == u)
      && (forall k :: k !in names ==> (k in r.weights <==> k in u.weights) && Weight(r.weights, k) == Weight(u.weights, k))
    decreases |tallies| - i
  {
    if i < |tallies| && u.failure.None? {
      if tallies[i].target.None? {
        UpdateFromFacts(names, tallies, eta, rand, i + 1, u);
      } else if u.pos < |rand| {
        var cs := tallies[i].cands;
        var k := Pick(rand[u.pos], |cs|);
        if 0 <= k < |cs| {
          var t := tallies[i].target.value;
          UpdatedFacts(u.weights, names, t, cs[k].features, eta);
          var u' := Update(Updated(u.weights, names, t, cs[k].features, eta),
                           u.correct + (if cs[k].correct then 1 else 0), u.pos + 1, None);
          UpdateFromFacts(names, tallies, eta, rand, i + 1, u');
        }
      }
    }
  }

  lemma {:induction false} TargetsBound(tallies: seq<Tally>, i: nat)
    requires i <= |tallies|
    ensures Targets(tallies, i) <= |tallies| - i
    decreases |tallies| - i
  {
    if i < |tallies| {
      TargetsBound(tallies, i + 1);
    }
  }

  // ---------------------------------------------------------------------
  // Epochs

  /** The outcome of one epoch: new weights, `featureNames`, `num_correct`,
      the position in the random stream, and an error if one was thrown. */
  datatype EpochResult = EpochResult(weights: Weights, names: set<string>, correct: nat, pos: nat, failure: Option<string>)

  ghost function EpochFrom<D>(sc: Scorer<D>, examples: seq<Example<D>>, metric: Metric, eta: real, first: bool, names: set<string>, rand: seq<real>, pos: nat): EpochResult
    requires WfIndex(sc.ix)
  {
    match RankFrom(sc, examples, metric, first, rand, 0, Visit([], {}, [], names, pos))
    case Err(m) => EpochResult(sc.weights, names, 0, pos, Some(m))
    case Ok(v) =>
      var u := UpdateFrom(v.names, v.tallies, eta, rand, 0, Update(sc.weights, 0, v.pos, None));
      EpochResult(u.weights, v.names, u.correct, u.pos, u.failure)
  }

  /** The reported training accuracy of an epoch, `num_correct /
      examples.length`, is at most 1. */
  lemma EpochAccuracy<D>(sc: Scorer<D>, examples: seq<Example<D>>, metric: Metric, eta: real, first: bool, names: set<string>, rand: seq<real>, pos: nat)
    requires WfIndex(sc.ix) && InUnit(rand)
    ensures EpochFrom(sc, examples, metric, eta, first, names, rand, pos).correct <= |examples|
    ensures !first ==> EpochFrom(sc, examples, metric, eta, first, names, rand, pos).names == names
  {
    RankEpochFacts(sc, examples, metric, first, names, rand, pos);
    var r := RankFrom(sc, examples, metric, first, rand, 0, Visit([], {}, [], names, pos));
    if r.Ok? {
      UpdateFromFacts(r.value.names, r.value.tallies, eta, rand, 0, Update(sc.weights, 0, r.value.pos, None));
      TargetsBound(r.value.tallies, 0);
    }
  }

  /** No parse of example `ex` is correct. */
  ghost predicate Hopeless<D>(sc: Scorer<D>, ex: Example<D>, metric: Metric)
    requires WfIndex(sc.ix)
  {
    Ranking(sc, ex.input).Ok? &&
    forall k :: 0 <= k < |Ranking(sc, ex.input).value| ==> !Evaluate(Ranking(sc, ex.input).value[k], ex, metric)
  }

  /** An epoch in which no example has a correct parse changes no weight and
      counts nothing correct. */
  lemma EpochWithoutTargets<D>(sc: Scorer<D>, examples: seq<Example<D>>, metric: Metric, eta: real, first: bool, names: set<string>, rand: seq<real>, pos: nat)
    requires WfIndex(sc.ix) && InUnit(rand)
    requires forall j :: 0 <= j < |examples| ==> Hopeless(sc, examples[j], metric)
    ensures EpochFrom(sc, examples, metric, eta, first, names, rand, pos).weights == sc.weights
    ensures EpochFrom(sc, examples, metric, eta, first, names, rand, pos).correct == 0
  {
    RankEpochFacts(sc, examples, metric, first, names, rand, pos);
    var r := RankFrom(sc, examples, metric, first, rand, 0, Visit([], {}, [], names, pos));
    if r.Ok? {
      var ts := r.value.tallies;
      forall k | 0 <= k < |ts|
        ensures ts[k].target.None?
      {
        var ex := examples[r.value.order[k]];
        assert Hopeless(sc, ex, metric);
        TargetExists(JudgedOf(sc, ex, metric));
      }
      NoTargets(ts, 0);
      UpdateFromFacts(r.value.names, ts, eta, rand, 0, Update(sc.weights, 0, r.value.pos, None));
    }
  }

  lemma {:induction false} NoTargets(tallies: seq<Tally>, i: nat)
    requires forall k :: 0 <= k < |tallies| ==> tallies[k].target.None?
    ensures Targets(tallies, i) == 0
    decreases |tallies| - i
  {
    if i < |tallies| {
      NoTargets(tallies, i + 1);
    }
  }

  /** The outcome of `learnWeights`: the weights, the `num_correct` of each
      completed epoch, and the error that ended it early, if any. */
  datatype Learned = Learned(weights: Weights, correct: seq<nat>, failure: Option<string>)

  /** One epoch as a function of the weights it starts from, whether it is
      the first, the vocabulary so far and the stream position. */
  type EpochFn = (Weights, bool, set<string>, nat) -> EpochResult

  /** Epochs `e` to `epochs - 1`, each starting from the weights, vocabulary
      and stream position the previous one left; an epoch that fails ends the
      run with the weights it had reached. */
  ghost function Epochs(step: EpochFn, w: Weights, epochs: nat, e: nat, names: set<string>, pos: nat, acc: seq<nat>): Learned
    decreases epochs - e
  {
    if e >= epochs then Learned(w, acc, None)
    else
      var r := step(w, e == 0, names, pos);
      if r.failure.Some? then Learned(r.weights, acc, r.failure)
      else Epochs(step, r.weights, epochs, e + 1, r.names, r.pos, acc + [r.correct])
  }

  /** The epoch of `learnWeights` with everything but the weights fixed. */
  ghost function EpochOf<D>(sc: Scorer<D>, examples: seq<Example<D>>, metric: Metric, eta: real, rand: seq<real>): EpochFn
    requires WfIndex(sc.ix)
  {
    (w: Weights, first: bool, names: set<string>, pos: nat) =>
      EpochFrom(sc.(weights := w), examples, metric, eta, first, names, rand, pos)
  }

  /** `learnWeights(examples, eta, epochs, metric)` from the scorer's weights. */
  ghost function LearnFrom<D>(sc: Scorer<D>, examples: seq<Example<D>>, metric: Metric, eta: real, epochs: nat, rand: seq<real>): Learned
    requires WfIndex(sc.ix)
  {
    Epochs(EpochOf(sc, examples, metric, eta, rand), sc.weights, epochs, 0, {}, 0, [])
  }

  lemma EpochOfApply<D>(sc: Scorer<D>, examples: seq<Example<D>>, metric: Metric, eta: real, rand: seq<real>, w: Weights, first: bool, names: set<string>, pos: nat)
    requires WfIndex(sc.ix)
    ensures EpochOf(sc, examples, metric, eta, rand)(w, first, names, pos) ==
      EpochFrom(sc.(weights := w), examples, metric, eta, first, names, rand, pos)
  {
  }

  /** The run is as long as the epochs that completed, and reports each
      one's count, when every epoch counts at most `bound`. */
  lemma {:induction false} EpochsAccuracy(step: EpochFn, bound: nat, w: Weights, epochs: nat, e: nat, names: set<string>, pos: nat, acc: seq<nat>)
    requires forall w', first, names', pos' :: step(w', first, names', pos').correct <= bound
    requires e <= epochs && |acc| == e
    requires forall k :: 0 <= k < |acc| ==> acc[k] <= bound
    ensures var l := Epochs(step, w, epochs, e, names, pos, acc);
      && |l.correct| <= epochs
      && (l.failure.None? ==> |l.correct| == epochs)
      && acc <= l.correct
      && forall k :: 0 <= k < |l.correct| ==> l.correct[k] <= bound
    decreases epochs - e
  {
    if e < epochs {
      var r := step(w, e == 0, names, pos);
      if r.failure.None? {
        EpochsAccuracy(step, bound, r.weights, epochs, e + 1, r.names, r.pos, acc + [r.correct]);
      }
    }
  }

  /** Every reported accuracy is at most the number of examples, one is
      reported per epoch, and all `epochs` are reported unless one failed. */
  lemma LearnAccuracy<D>(sc: Scorer<D>, examples: seq<Example<D>>, metric: Metric, eta: real, epochs: nat, rand: seq<real>)
    requires WfIndex(sc.ix) && InUnit(rand)
    ensures var l := LearnFrom(sc, examples, metric, eta, epochs, rand);
      && |l.correct| <= epochs
      && (l.failure.None? ==> |l.correct| == epochs)
      && forall k :: 0 <= k < |l.correct| ==> l.correct[k] <= |examples|
  {
    var step := EpochOf(sc, examples, metric, eta, rand);
    forall w', first, names', pos' | true
      ensures step(w', first, names', pos').correct <= |examples|
    {
      EpochAccuracy(sc.(weights := w'), examples, metric, eta, first, names', rand, pos');
    }
    EpochsAccuracy(step, |examples|, sc.weights, epochs, 0, {}, 0, []);
  }
}
