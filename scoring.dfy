/** The linear scoring model over a grammar: a parse scores the dot product
    of its feature counts with a weight vector, and the parses of an input
    come back sorted best first. */
module Scoring {
  import opened Wrappers
  import opened JsText
  import opened Sems
  import opened Collections
  import opened SemParser

  /** What a feature function returns: feature name to count. */
  type Features = map<string, real>

  /** The weight vector `this.weights`. */
  type Weights = map<string, real>

  /** `w[name] || 0.0`: a missing weight counts as zero. */
  function Weight(w: Weights, name: string): real {
    if name in w then w[name] else 0.0
  }

  ghost function AnyKey(f: Features): (k: string)
    requires f != map[]
    ensures k in f
  {
    var k :| k in f; k
  }

  /** The sum, over the keys of `f`, of weight times count. */
  ghost function Dot(f: Features, w: Weights): real
    decreases f.Keys
  {
    if f == map[] then 0.0
    else
      var k := AnyKey(f);
      assert (f - {k}).Keys < f.Keys;
      Weight(w, k) * f[k] + Dot(f - {k}, w)
  }

  /** The sum does not depend on which key is taken first. */
  lemma {:induction false} DotRemove(f: Features, w: Weights, k: string)
    requires k in f
    ensures Dot(f, w) == Weight(w, k) * f[k] + Dot(f - {k}, w)
    decreases f.Keys
  {
    var j := AnyKey(f);
    if j != k {
      var fj, fk := f - {j}, f - {k};
      assert fj.Keys < f.Keys && fk.Keys < f.Keys;
      DotRemove(fj, w, k);
      DotRemove(fk, w, j);
      assert fj - {k} == fk - {j};
    }
  }

  /** Features with no weight contribute nothing; in particular an empty
      feature map scores 0. */
  lemma {:induction false} DotUnweighted(f: Features, w: Weights)
    requires forall k :: k in f ==> k !in w
    ensures Dot(f, w) == 0.0
    decreases f.Keys
  {
    if f != map[] {
      var k := AnyKey(f);
      assert (f - {k}).Keys < f.Keys;
      DotUnweighted(f - {k}, w);
    }
  }

  /** A single feature scores its weight times its count. */
  lemma DotSingle(name: string, count: real, w: Weights)
    ensures Dot(map[name := count], w) == Weight(w, name) * count
  {
    var f := map[name := count];
    DotRemove(f, w, name);
    assert f - {name} == map[];
  }

  /** Weights of features the parse does not have do not matter. */
  lemma {:induction false} DotIgnoresOtherWeights(f: Features, w: Weights, v: Weights)
    requires forall k :: k in f ==> Weight(w, k) == Weight(v, k)
    ensures Dot(f, w) == Dot(f, v)
    decreases f.Keys
  {
    if f != map[] {
      var k := AnyKey(f);
      assert (f - {k}).Keys < f.Keys;
      DotIgnoresOtherWeights(f - {k}, w, v);
    }
  }

  // ---------------------------------------------------------------------
  // Ranking

  /** A parse with the `score` and `denotation` that `parse_input` gives it. */
  datatype Ranked<D> = Ranked(parse: Parse, score: real, denotation: Option<D>)

  /** `executor(parse.semantics)` when there is an executor, else the
      `null` a parse starts with. */
  function Denote<D>(executor: Option<Sem -> D>, p: Parse): Option<D> {
    if executor.Some? then Some(executor.value(p.semantics)) else None
  }

  /** Everything a ranking depends on: the grammar's index and combinator
      runner, the feature function, the executor and the weights. */
  datatype Scorer<D> = Scorer(ix: Index, run: Runner, featureFn: Parse -> Features,
                              executor: Option<Sem -> D>, weights: Weights)

  ghost function Annotate<D>(sc: Scorer<D>, ps: seq<Parse>): (rs: seq<Ranked<D>>)
    ensures |rs| == |ps|
  {
    seq(|ps|, i requires 0 <= i < |ps| => Ranked(ps[i], Dot(sc.featureFn(ps[i]), sc.weights), Denote(sc.executor, ps[i])))
  }

  predicate NonIncreasing<D>(xs: seq<Ranked<D>>) {
    forall i, j :: 0 <= i < j < |xs| ==> xs[i].score >= xs[j].score
  }

  /** The elements of `xs` with score `v`, in order. */
  function WithScore<D>(xs: seq<Ranked<D>>, v: real): seq<Ranked<D>>
    decreases |xs|
  {
    if xs == [] then []
    else WithScore(xs[..|xs| - 1], v) + (if xs[|xs| - 1].score == v then [xs[|xs| - 1]] else [])
  }

  /** Places `x` after every element scoring at least as much. */
  function InsertByScore<D>(x: Ranked<D>, sorted: seq<Ranked<D>>): seq<Ranked<D>>
    decreases |sorted|
  {
    if sorted == [] then [x]
    else if sorted[0].score < x.score then [x] + sorted
    else [sorted[0]] + InsertByScore(x, sorted[1..])
  }

  /** `parses.sort((a, b) => b.score - a.score)`, a stable sort. */
  function SortByScore<D>(xs: seq<Ranked<D>>): seq<Ranked<D>>
    decreases |xs|
  {
    if xs == [] then []
    else InsertByScore(xs[|xs| - 1], SortByScore(xs[..|xs| - 1]))
  }

  lemma {:induction false} WithScoreCons<D>(x: Ranked<D>, xs: seq<Ranked<D>>, v: real)
    ensures WithScore([x] + xs, v) == (if x.score == v then [x] else []) + WithScore(xs, v)
    decreases |xs|
  {
    if xs != [] {
      var init := xs[..|xs| - 1];
      assert ([x] + xs)[..|xs|] == [x] + init;
      WithScoreCons(x, init, v);
    } else {
      assert [x] + xs == [x];
      assert [x][..0] == [];
    }
  }

  lemma {:induction false} WithScoreNone<D>(xs: seq<Ranked<D>>, v: real)
    requires forall i :: 0 <= i < |xs| ==> xs[i].score != v
    ensures WithScore(xs, v) == []
    decreases |xs|
  {
    if xs != [] {
      WithScoreNone(xs[..|xs| - 1], v);
    }
  }

  lemma {:induction false} InsertMultiset<D>(x: Ranked<D>, sorted: seq<Ranked<D>>)
    ensures multiset(InsertByScore(x, sorted)) == multiset(sorted) + multiset{x}
    decreases |sorted|
  {
    if sorted != [] && sorted[0].score >= x.score {
      InsertMultiset(x, sorted[1..]);
      assert sorted == [sorted[0]] + sorted[1..];
    }
  }

  lemma {:induction false} InsertSorted<D>(x: Ranked<D>, sorted: seq<Ranked<D>>)
    requires NonIncreasing(sorted)
    ensures NonIncreasing(InsertByScore(x, sorted))
    decreases |sorted|
  {
    if sorted != [] && sorted[0].score >= x.score {
      var y, rest := sorted[0], sorted[1..];
      InsertSorted(x, rest);
      InsertMultiset(x, rest);
      var ir := InsertByScore(x, rest);
      forall i | 0 <= i < |ir|
        ensures y.score >= ir[i].score
      {
        assert ir[i] in multiset(ir);
        assert ir[i] == x || ir[i] in rest;
      }
      assert InsertByScore(x, sorted) == [y] + ir;
    }
  }

  lemma {:induction false} InsertWithScore<D>(x: Ranked<D>, sorted: seq<Ranked<D>>, v: real)
    requires NonIncreasing(sorted)
    ensures WithScore(InsertByScore(x, sorted), v) == WithScore(sorted, v) + (if x.score == v then [x] else [])
    decreases |sorted|, 1
  {
    if sorted == [] {
      WithScoreCons(x, [], v);
      assert [x] + [] == [x];
    } else if sorted[0].score < x.score {
      InsertFirstWithScore(x, sorted, v);
    } else {
      InsertLaterWithScore(x, sorted, v);
    }
  }

  /** `x` outranks the whole list: no element of the list can share its score. */
  lemma InsertFirstWithScore<D>(x: Ranked<D>, sorted: seq<Ranked<D>>, v: real)
    requires NonIncreasing(sorted) && sorted != [] && sorted[0].score < x.score
    ensures WithScore(InsertByScore(x, sorted), v) == WithScore(sorted, v) + (if x.score == v then [x] else [])
  {
    assert InsertByScore(x, sorted) == [x] + sorted;
    WithScoreCons(x, sorted, v);
    if x.score == v {
      assert forall i :: 0 <= i < |sorted| ==> sorted[i].score <= sorted[0].score;
      WithScoreNone(sorted, v);
    }
  }

  /** The head of the list stays in front and `x` goes into the tail. */
  lemma {:induction false} InsertLaterWithScore<D>(x: Ranked<D>, sorted: seq<Ranked<D>>, v: real)
    requires NonIncreasing(sorted) && sorted != [] && sorted[0].score >= x.score
    ensures WithScore(InsertByScore(x, sorted), v) == WithScore(sorted, v) + (if x.score == v then [x] else [])
    decreases |sorted|, 0
  {
    var y, rest := sorted[0], sorted[1..];
    assert sorted == [y] + rest;
    assert NonIncreasing(rest);
    var ir := InsertByScore(x, rest);
    assert InsertByScore(x, sorted) == [y] + ir;
    InsertWithScore(x, rest, v);
    WithScoreCons(y, ir, v);
    WithScoreCons(y, rest, v);
  }

  /** The sort result is best first, a permutation of its input, and stable:
      the elements of any one score keep their input order. */
  lemma {:induction false} SortByScoreFacts<D>(xs: seq<Ranked<D>>)
    ensures NonIncreasing(SortByScore(xs))
    ensures multiset(SortByScore(xs)) == multiset(xs)
    ensures forall v :: WithScore(SortByScore(xs), v) == WithScore(xs, v)
    decreases |xs|
  {
    if xs != [] {
      var init, x := xs[..|xs| - 1], xs[|xs| - 1];
      SortByScoreFacts(init);
      InsertSorted(x, SortByScore(init));
      InsertMultiset(x, SortByScore(init));
      forall v ensures WithScore(SortByScore(xs), v) == WithScore(xs, v) {
        InsertWithScore(x, SortByScore(init), v);
      }
      assert xs == init + [x];
    }
  }

  /** A stable sort is the only best-first arrangement with these score
      classes: sorting twice changes nothing. */
  lemma {:induction false} SortByScoreIdempotent<D>(xs: seq<Ranked<D>>)
    requires NonIncreasing(xs)
    ensures SortByScore(xs) == xs
    decreases |xs|
  {
    if xs != [] {
      var init, x := xs[..|xs| - 1], xs[|xs| - 1];
      SortByScoreIdempotent(init);
      InsertAtEnd(x, init);
      assert xs == init + [x];
    }
  }

  lemma {:induction false} InsertAtEnd<D>(x: Ranked<D>, sorted: seq<Ranked<D>>)
    requires forall i :: 0 <= i < |sorted| ==> sorted[i].score >= x.score
    ensures InsertByScore(x, sorted) == sorted + [x]
    decreases |sorted|
  {
    if sorted != [] {
      InsertAtEnd(x, sorted[1..]);
      assert sorted == [sorted[0]] + sorted[1..];
    }
  }

  const NotIterable := "TypeError: parses is not iterable"

  /** What `Model.parse_input` returns for `input`: the grammar's parses,
      each annotated with its score and denotation, sorted best first; an
      input with no parse makes the loop over `undefined` throw. */
  ghost function Ranking<D>(sc: Scorer<D>, input: string): Result<seq<Ranked<D>>>
    requires WfIndex(sc.ix)
  {
    match ParseTokens(sc.ix, sc.run, Split(input))
    case None => Err(NotIterable)
    case Some(ps) => Ok(SortByScore(Annotate(sc, ps)))
  }

  /** A successful ranking holds exactly the grammar's parses, scored under
      the weights and ordered best first, ties in grammar order. */
  lemma RankingFacts<D>(sc: Scorer<D>, input: string)
    requires WfIndex(sc.ix)
    ensures Ranking(sc, input).Ok? <==> ParseTokens(sc.ix, sc.run, Split(input)).Some?
    ensures Ranking(sc, input).Ok? ==>
      var ps := ParseTokens(sc.ix, sc.run, Split(input)).value;
      var rs := Ranking(sc, input).value;
      && NonIncreasing(rs)
      && multiset(rs) == multiset(Annotate(sc, ps))
      && (forall v :: WithScore(rs, v) == WithScore(Annotate(sc, ps), v))
      && (forall i :: 0 <= i < |rs| ==> rs[i].score == Dot(sc.featureFn(rs[i].parse), sc.weights))
  {
    if Ranking(sc, input).Ok? {
      var ps := ParseTokens(sc.ix, sc.run, Split(input)).value;
      var a := Annotate(sc, ps);
      var rs := Ranking(sc, input).value;
      SortByScoreFacts(a);
      forall i | 0 <= i < |rs|
        ensures rs[i].score == Dot(sc.featureFn(rs[i].parse), sc.weights)
      {
        assert rs[i] in multiset(a);
      }
    }
  }
}
