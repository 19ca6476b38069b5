/** What the CYK chart of `parse_input` holds: cell (l, s), under category
    X, lists exactly the derivations of X over tokens s..s+l-1, each built
    once per way of building it. */
module ChartFacts {
  import opened Wrappers
  import opened JsText
  import opened Sems
  import opened Collections
  import opened SemParser

  /** `q` is a derivation of the grammar: each leaf applies one of its lexical
      rules to that rule's own rhs, each node one of its binary rules to two
      derivations of the rule's rhs categories, and every stored meaning is
      the one `compute_semantics` gives. */
  ghost predicate IsDerivation(ix: Index, run: Runner, q: Parse)
    decreases q
  {
    match q
    case Leaf(r, toks, sem) =>
      && RhsKey(r.rhs) in ix.lexical && r in ix.lexical[RhsKey(r.rhs)]
      && toks == r.rhs && sem == ComputeSemantics(run, r, [Null])
    case Node(r, a, b, sem) =>
      && RhsKey(r.rhs) in ix.binary && r in ix.binary[RhsKey(r.rhs)] && IsBinary(r)
      && a.rule.lhs == r.rhs[0] && b.rule.lhs == r.rhs[1]
      && sem == ComputeSemantics(run, r, [a.semantics, b.semantics])
      && IsDerivation(ix, run, a) && IsDerivation(ix, run, b)
  }

  /** Every entry of `ps` is a derivation of `x` with frontier `f`. */
  ghost predicate AllDerive(ix: Index, run: Runner, ps: seq<Parse>, x: string, f: seq<string>) {
    forall i :: 0 <= i < |ps| ==> ps[i].rule.lhs == x && IsDerivation(ix, run, ps[i]) && Frontier(ps[i]) == f
  }

  /** Every category present in `c` has at least one entry, and every entry
      derives that category over `f`. */
  ghost predicate SoundCell(ix: Index, run: Runner, c: Cell, f: seq<string>) {
    forall x | x in c :: c[x] != [] && AllDerive(ix, run, c[x], x, f)
  }

  /** `c'` extends every entry list of `c`. */
  ghost predicate Grows(c: Cell, c': Cell) {
    forall x | x in c :: x in c' && c[x] <= c'[x]
  }

  lemma AllDeriveConcat(ix: Index, run: Runner, ps: seq<Parse>, qs: seq<Parse>, x: string, f: seq<string>)
    requires AllDerive(ix, run, ps, x, f) && AllDerive(ix, run, qs, x, f)
    ensures AllDerive(ix, run, ps + qs, x, f)
  {
    assert forall i :: |ps| <= i < |ps + qs| ==> (ps + qs)[i] == qs[i - |ps|];
  }

  lemma GrowsTrans(c1: Cell, c2: Cell, c3: Cell)
    requires Grows(c1, c2) && Grows(c2, c3)
    ensures Grows(c1, c3)
  {
  }

  // ---------------------------------------------------------------------
  // Soundness

  lemma {:induction false} AddLeavesSound(ix: Index, run: Runner, c: Cell, rules: seq<Rule>, token: string)
    requires token in ix.lexical
    requires forall i :: 0 <= i < |rules| ==> rules[i] in ix.lexical[token] && RhsKey(rules[i].rhs) == token
    requires SoundCell(ix, run, c, [token])
    ensures SoundCell(ix, run, AddLeaves(run, c, rules), [token])
    decreases |rules|
  {
    if rules != [] {
      var init := rules[..|rules| - 1];
      var r := rules[|rules| - 1];
      AddLeavesSound(ix, run, c, init, token);
      var c1 := AddLeaves(run, c, init);
      var leaf := NewLeaf(run, r);
      assert IsDerivation(ix, run, leaf) && Frontier(leaf) == [token];
      AllDeriveConcat(ix, run, MapGet(c1, r.lhs), [leaf], r.lhs, [token]);
    }
  }

  lemma LexCellSound(ix: Index, run: Runner, token: string)
    requires WfIndex(ix)
    ensures SoundCell(ix, run, LexCell(ix, run, token), [token])
  {
    if token in ix.lexical {
      var rules := ix.lexical[token];
      AddLeavesSound(ix, run, map[], rules, token);
    }
  }

  lemma {:induction false} PairSound(ix: Index, run: Runner, r: Rule, a: Parse, rs: seq<Parse>, f1: seq<string>, f2: seq<string>)
    requires IsBinary(r) && RhsKey(r.rhs) in ix.binary && r in ix.binary[RhsKey(r.rhs)]
    requires a.rule.lhs == r.rhs[0] && IsDerivation(ix, run, a) && Frontier(a) == f1
    requires AllDerive(ix, run, rs, r.rhs[1], f2)
    ensures AllDerive(ix, run, Pair(run, r, a, rs), r.lhs, f1 + f2)
    decreases |rs|
  {
    if rs != [] {
      var init := rs[..|rs| - 1];
      PairSound(ix, run, r, a, init, f1, f2);
      var b := rs[|rs| - 1];
      assert IsDerivation(ix, run, NewNode(run, r, a, b));
      AllDeriveConcat(ix, run, Pair(run, r, a, init), [NewNode(run, r, a, b)], r.lhs, f1 + f2);
    }
  }

  lemma {:induction false} ProductsSound(ix: Index, run: Runner, r: Rule, ls: seq<Parse>, rs: seq<Parse>, f1: seq<string>, f2: seq<string>)
    requires IsBinary(r) && RhsKey(r.rhs) in ix.binary && r in ix.binary[RhsKey(r.rhs)]
    requires AllDerive(ix, run, ls, r.rhs[0], f1) && AllDerive(ix, run, rs, r.rhs[1], f2)
    ensures AllDerive(ix, run, Products(run, r, ls, rs), r.lhs, f1 + f2)
    ensures ls != [] && rs != [] ==> Products(run, r, ls, rs) != []
    decreases |ls|
  {
    if ls != [] {
      var init := ls[..|ls| - 1];
      ProductsSound(ix, run, r, init, rs, f1, f2);
      PairSound(ix, run, r, ls[|ls| - 1], rs, f1, f2);
      AllDeriveConcat(ix, run, Products(run, r, init, rs), Pair(run, r, ls[|ls| - 1], rs), r.lhs, f1 + f2);
    }
  }

  lemma ApplyRuleSound(ix: Index, run: Runner, c: Cell, r: Rule, left: Cell, right: Cell, f1: seq<string>, f2: seq<string>)
    requires IsBinary(r) && RhsKey(r.rhs) in ix.binary && r in ix.binary[RhsKey(r.rhs)]
    requires SoundCell(ix, run, c, f1 + f2) && SoundCell(ix, run, left, f1) && SoundCell(ix, run, right, f2)
    ensures SoundCell(ix, run, ApplyRule(run, c, r, left, right), f1 + f2)
  {
    if r.rhs[0] in left && r.rhs[1] in right {
      var ps := Products(run, r, left[r.rhs[0]], right[r.rhs[1]]);
      ProductsSound(ix, run, r, left[r.rhs[0]], right[r.rhs[1]], f1, f2);
      AllDeriveConcat(ix, run, MapGet(c, r.lhs), ps, r.lhs, f1 + f2);
    }
  }

  /** The rules of a list that the binary index holds under their own key. */
  ghost predicate FiledBinary(ix: Index, rules: seq<Rule>) {
    forall i :: 0 <= i < |rules| ==>
      IsBinary(rules[i]) && RhsKey(rules[i].rhs) in ix.binary && rules[i] in ix.binary[RhsKey(rules[i].rhs)]
  }

  lemma FiledUnderKey(ix: Index, k: string)
    requires WfIndex(ix) && k in ix.binary
    ensures FiledBinary(ix, ix.binary[k])
  {
  }

  lemma {:induction false} ApplyRulesSound(ix: Index, run: Runner, c: Cell, rules: seq<Rule>, left: Cell, right: Cell, f1: seq<string>, f2: seq<string>)
    requires FiledBinary(ix, rules)
    requires SoundCell(ix, run, c, f1 + f2) && SoundCell(ix, run, left, f1) && SoundCell(ix, run, right, f2)
    ensures SoundCell(ix, run, ApplyRules(run, c, rules, left, right), f1 + f2)
    decreases |rules|
  {
    if rules != [] {
      var init := rules[..|rules| - 1];
      ApplyRulesSound(ix, run, c, init, left, right, f1, f2);
      ApplyRuleSound(ix, run, ApplyRules(run, c, init, left, right), rules[|rules| - 1], left, right, f1, f2);
    }
  }

  lemma {:induction false} ApplyKeysSound(ix: Index, run: Runner, c: Cell, keys: seq<string>, left: Cell, right: Cell, f1: seq<string>, f2: seq<string>)
    requires WfIndex(ix) && forall i :: 0 <= i < |keys| ==> keys[i] in ix.binary
    requires SoundCell(ix, run, c, f1 + f2) && SoundCell(ix, run, left, f1) && SoundCell(ix, run, right, f2)
    ensures SoundCell(ix, run, ApplyKeys(ix, run, c, keys, left, right), f1 + f2)
    decreases |keys|
  {
    if keys != [] {
      var init := keys[..|keys| - 1];
      ApplyKeysSound(ix, run, c, init, left, right, f1, f2);
      FiledUnderKey(ix, keys[|keys| - 1]);
      ApplyRulesSound(ix, run, ApplyKeys(ix, run, c, init, left, right), ix.binary[keys[|keys| - 1]], left, right, f1, f2);
    }
  }

  /** The cells of spans below `l` are sound for their token spans. */
  ghost predicate SoundBelow(ix: Index, run: Runner, tokens: seq<string>, chart: seq<seq<Cell>>, l: nat) {
    1 <= l && ChartShape(chart, |tokens|, l - 1)
    && forall k, t :: 0 <= k < l - 1 && 0 <= t && t + k + 1 <= |tokens| ==> SoundCell(ix, run, chart[k][t], tokens[t..t + k + 1])
  }

  lemma {:induction false} ApplySplitsSound(ix: Index, run: Runner, tokens: seq<string>, chart: seq<seq<Cell>>, l: nat, s: nat, p: nat)
    requires WfIndex(ix) && 2 <= l && s + l <= |tokens| && p < l
    requires SoundBelow(ix, run, tokens, chart, l)
    ensures SoundCell(ix, run, ApplySplits(ix, run, chart, |tokens|, l, s, p), tokens[s..s + l])
    decreases p
  {
    if p > 0 {
      ApplySplitsSound(ix, run, tokens, chart, l, s, p - 1);
      var f1 := tokens[s..s + p];
      var f2 := tokens[s + p..s + l];
      assert f1 + f2 == tokens[s..s + l];
      assert SoundCell(ix, run, chart[p - 1][s], f1);
      assert SoundCell(ix, run, chart[l - p - 1][s + p], f2);
      ApplyKeysSound(ix, run, ApplySplits(ix, run, chart, |tokens|, l, s, p - 1), ix.binaryKeys,
                     chart[p - 1][s], chart[l - p - 1][s + p], f1, f2);
    }
  }

  lemma {:induction false} RowsSound(ix: Index, run: Runner, tokens: seq<string>, m: nat)
    requires WfIndex(ix) && 1 <= m <= |tokens|
    ensures SoundBelow(ix, run, tokens, Rows(ix, run, tokens, m), m + 1)
    decreases m
  {
    var n := |tokens|;
    var rows := Rows(ix, run, tokens, m);
    if m == 1 {
      forall t | 0 <= t < n
        ensures SoundCell(ix, run, rows[0][t], tokens[t..t + 1])
      {
        LexCellSound(ix, run, tokens[t]);
        assert tokens[t..t + 1] == [tokens[t]];
      }
    } else {
      var prev := Rows(ix, run, tokens, m - 1);
      RowsSound(ix, run, tokens, m - 1);
      forall k, t | 0 <= k < m && 0 <= t && t + k + 1 <= n
        ensures SoundCell(ix, run, rows[k][t], tokens[t..t + k + 1])
      {
        if k < m - 1 {
          assert rows[k] == prev[k];
        } else {
          ApplySplitsSound(ix, run, tokens, prev, m, t, m - 1);
        }
      }
    }
  }

  /** Soundness: every entry of cell (l, s) under `x` derives `x` over the
      tokens of that span, and no category is present with no entry. */
  lemma CellSound(ix: Index, run: Runner, tokens: seq<string>, l: nat, s: nat)
    requires WfIndex(ix) && 1 <= l && s + l <= |tokens|
    ensures SoundCell(ix, run, CellAt(ix, run, tokens, l, s), tokens[s..s + l])
  {
    RowsSound(ix, run, tokens, l);
  }

  // ---------------------------------------------------------------------
  // Completeness

  lemma {:induction false} AddLeavesHas(run: Runner, c: Cell, rules: seq<Rule>, r: Rule)
    requires r in rules
    ensures r.lhs in AddLeaves(run, c, rules) && NewLeaf(run, r) in AddLeaves(run, c, rules)[r.lhs]
    decreases |rules|
  {
    var init := rules[..|rules| - 1];
    var last := rules[|rules| - 1];
    if r != last {
      assert r in init by {
        var i :| 0 <= i < |rules| && rules[i] == r;
        assert i < |rules| - 1 && init[i] == r;
      }
      AddLeavesHas(run, c, init, r);
    }
  }

  lemma {:induction false} PairHas(run: Runner, r: Rule, a: Parse, rs: seq<Parse>, b: Parse)
    requires b in rs
    ensures NewNode(run, r, a, b) in Pair(run, r, a, rs)
    decreases |rs|
  {
    var init := rs[..|rs| - 1];
    if b != rs[|rs| - 1] {
      assert b in init by {
        var i :| 0 <= i < |rs| && rs[i] == b;
        assert i < |rs| - 1 && init[i] == b;
      }
      PairHas(run, r, a, init, b);
    }
  }

  lemma {:induction false} ProductsHas(run: Runner, r: Rule, ls: seq<Parse>, rs: seq<Parse>, a: Parse, b: Parse)
    requires a in ls && b in rs
    ensures NewNode(run, r, a, b) in Products(run, r, ls, rs)
    decreases |ls|
  {
    var init := ls[..|ls| - 1];
    if a == ls[|ls| - 1] {
      PairHas(run, r, a, rs, b);
    } else {
      assert a in init by {
        var i :| 0 <= i < |ls| && ls[i] == a;
        assert i < |ls| - 1 && init[i] == a;
      }
      ProductsHas(run, r, init, rs, a, b);
    }
  }

  lemma ApplyRuleGrows(run: Runner, c: Cell, r: Rule, left: Cell, right: Cell)
    requires IsBinary(r)
    ensures Grows(c, ApplyRule(run, c, r, left, right))
  {
  }

  lemma {:induction false} ApplyRulesGrows(run: Runner, c: Cell, rules: seq<Rule>, left: Cell, right: Cell)
    requires forall i :: 0 <= i < |rules| ==> IsBinary(rules[i])
    ensures Grows(c, ApplyRules(run, c, rules, left, right))
    decreases |rules|
  {
    if rules != [] {
      var init := rules[..|rules| - 1];
      ApplyRulesGrows(run, c, init, left, right);
      ApplyRuleGrows(run, ApplyRules(run, c, init, left, right), rules[|rules| - 1], left, right);
      GrowsTrans(c, ApplyRules(run, c, init, left, right), ApplyRules(run, c, rules, left, right));
    }
  }

  lemma {:induction false} ApplyKeysGrows(ix: Index, run: Runner, c: Cell, keys: seq<string>, left: Cell, right: Cell)
    requires WfIndex(ix) && forall i :: 0 <= i < |keys| ==> keys[i] in ix.binary
    ensures Grows(c, ApplyKeys(ix, run, c, keys, left, right))
    decreases |keys|
  {
    if keys != [] {
      var init := keys[..|keys| - 1];
      ApplyKeysGrows(ix, run, c, init, left, right);
      var c1 := ApplyKeys(ix, run, c, init, left, right);
      ApplyRulesGrows(run, c1, ix.binary[keys[|keys| - 1]], left, right);
      GrowsTrans(c, c1, ApplyKeys(ix, run, c, keys, left, right));
    }
  }

  lemma {:induction false} ApplySplitsGrows(ix: Index, run: Runner, chart: seq<seq<Cell>>, n: nat, l: nat, s: nat, p: nat, q: nat)
    requires WfIndex(ix) && 2 <= l && s + l <= n && p <= q < l && ChartShape(chart, n, l - 1)
    ensures Grows(ApplySplits(ix, run, chart, n, l, s, p), ApplySplits(ix, run, chart, n, l, s, q))
    decreases q
  {
    if p < q {
      ApplySplitsGrows(ix, run, chart, n, l, s, p, q - 1);
      var c1 := ApplySplits(ix, run, chart, n, l, s, q - 1);
      ApplyKeysGrows(ix, run, c1, ix.binaryKeys, chart[q - 1][s], chart[l - q - 1][s + q]);
      GrowsTrans(ApplySplits(ix, run, chart, n, l, s, p), c1, ApplySplits(ix, run, chart, n, l, s, q));
    }
  }

  lemma ApplyRuleHas(run: Runner, c: Cell, r: Rule, left: Cell, right: Cell, a: Parse, b: Parse)
    requires IsBinary(r)
    requires r.rhs[0] in left && a in left[r.rhs[0]] && r.rhs[1] in right && b in right[r.rhs[1]]
    ensures r.lhs in ApplyRule(run, c, r, left, right)
    ensures NewNode(run, r, a, b) in ApplyRule(run, c, r, left, right)[r.lhs]
  {
    ProductsHas(run, r, left[r.rhs[0]], right[r.rhs[1]], a, b);
  }

  lemma {:induction false} ApplyRulesHas(run: Runner, c: Cell, rules: seq<Rule>, left: Cell, right: Cell, r: Rule, a: Parse, b: Parse)
    requires forall i :: 0 <= i < |rules| ==> IsBinary(rules[i])
    requires IsBinary(r) && r in rules
    requires r.rhs[0] in left && a in left[r.rhs[0]] && r.rhs[1] in right && b in right[r.rhs[1]]
    ensures r.lhs in ApplyRules(run, c, rules, left, right)
    ensures NewNode(run, r, a, b) in ApplyRules(run, c, rules, left, right)[r.lhs]
    decreases |rules|
  {
    var init := rules[..|rules| - 1];
    var last := rules[|rules| - 1];
    var c1 := ApplyRules(run, c, init, left, right);
    if r == last {
      ApplyRuleHas(run, c1, r, left, right, a, b);
    } else {
      assert r in init by {
        var i :| 0 <= i < |rules| && rules[i] == r;
        assert i < |rules| - 1 && init[i] == r;
      }
      ApplyRulesHas(run, c, init, left, right, r, a, b);
      ApplyRuleGrows(run, c1, last, left, right);
    }
  }

  lemma {:induction false} ApplyKeysHas(ix: Index, run: Runner, c: Cell, keys: seq<string>, left: Cell, right: Cell, r: Rule, a: Parse, b: Parse)
    requires WfIndex(ix) && forall i :: 0 <= i < |keys| ==> keys[i] in ix.binary
    requires RhsKey(r.rhs) in keys && r in ix.binary[RhsKey(r.rhs)]
    requires r.rhs[0] in left && a in left[r.rhs[0]] && r.rhs[1] in right && b in right[r.rhs[1]]
    ensures r.lhs in ApplyKeys(ix, run, c, keys, left, right)
    ensures NewNode(run, r, a, b) in ApplyKeys(ix, run, c, keys, left, right)[r.lhs]
    decreases |keys|
  {
    var init := keys[..|keys| - 1];
    var last := keys[|keys| - 1];
    var c1 := ApplyKeys(ix, run, c, init, left, right);
    if RhsKey(r.rhs) == last {
      ApplyRulesHas(run, c1, ix.binary[last], left, right, r, a, b);
    } else {
      assert RhsKey(r.rhs) in init by {
        var i :| 0 <= i < |keys| && keys[i] == RhsKey(r.rhs);
        assert i < |keys| - 1 && init[i] == RhsKey(r.rhs);
      }
      ApplyKeysHas(ix, run, c, init, left, right, r, a, b);
      ApplyRulesGrows(run, c1, ix.binary[last], left, right);
    }
  }

  lemma LeafInCell(ix: Index, run: Runner, tokens: seq<string>, s: nat, r: Rule)
    requires WfIndex(ix) && s < |tokens| && tokens[s] == RhsKey(r.rhs)
    requires RhsKey(r.rhs) in ix.lexical && r in ix.lexical[RhsKey(r.rhs)]
    ensures r.lhs in CellAt(ix, run, tokens, 1, s)
    ensures NewLeaf(run, r) in CellAt(ix, run, tokens, 1, s)[r.lhs]
  {
    AddLeavesHas(run, map[], ix.lexical[tokens[s]], r);
  }

  lemma NodeInCell(ix: Index, run: Runner, tokens: seq<string>, s: nat, p: nat, l: nat, r: Rule, a: Parse, b: Parse)
    requires WfIndex(ix) && 1 <= p < l && s + l <= |tokens|
    requires IsBinary(r) && RhsKey(r.rhs) in ix.binary && r in ix.binary[RhsKey(r.rhs)]
    requires r.rhs[0] in CellAt(ix, run, tokens, p, s) && a in CellAt(ix, run, tokens, p, s)[r.rhs[0]]
    requires r.rhs[1] in CellAt(ix, run, tokens, l - p, s + p) && b in CellAt(ix, run, tokens, l - p, s + p)[r.rhs[1]]
    ensures r.lhs in CellAt(ix, run, tokens, l, s)
    ensures NewNode(run, r, a, b) in CellAt(ix, run, tokens, l, s)[r.lhs]
  {
    NodeInPrefix(ix, run, tokens, s, p, l, r, a, b);
  }

  /** The two sub-span cells of a split, read from the rows of shorter spans. */
  lemma SplitChildren(ix: Index, run: Runner, tokens: seq<string>, s: nat, p: nat, l: nat, r: Rule, a: Parse, b: Parse)
    requires WfIndex(ix) && 1 <= p < l && s + l <= |tokens| && IsBinary(r)
    requires r.rhs[0] in CellAt(ix, run, tokens, p, s) && a in CellAt(ix, run, tokens, p, s)[r.rhs[0]]
    requires r.rhs[1] in CellAt(ix, run, tokens, l - p, s + p) && b in CellAt(ix, run, tokens, l - p, s + p)[r.rhs[1]]
    ensures ChartShape(Rows(ix, run, tokens, l - 1), |tokens|, l - 1)
    ensures r.rhs[0] in Rows(ix, run, tokens, l - 1)[p - 1][s] && a in Rows(ix, run, tokens, l - 1)[p - 1][s][r.rhs[0]]
    ensures r.rhs[1] in Rows(ix, run, tokens, l - 1)[l - p - 1][s + p]
    ensures b in Rows(ix, run, tokens, l - 1)[l - p - 1][s + p][r.rhs[1]]
  {
    RowsCell(ix, run, tokens, p, l - 1, s);
    RowsCell(ix, run, tokens, l - p, l - 1, s + p);
  }

  /** A derivation built at split p is in the cell after splits 1..p, whose
      entry lists the later splits only extend. */
  lemma SplitsKeepNode(ix: Index, run: Runner, chart: seq<seq<Cell>>, n: nat, l: nat, s: nat, p: nat, r: Rule, a: Parse, b: Parse)
    requires WfIndex(ix) && 2 <= l && s + l <= n && 1 <= p < l && ChartShape(chart, n, l - 1)
    requires IsBinary(r) && RhsKey(r.rhs) in ix.binary && r in ix.binary[RhsKey(r.rhs)]
    requires r.rhs[0] in chart[p - 1][s] && a in chart[p - 1][s][r.rhs[0]]
    requires r.rhs[1] in chart[l - p - 1][s + p] && b in chart[l - p - 1][s + p][r.rhs[1]]
    ensures r.lhs in ApplySplits(ix, run, chart, n, l, s, p) && r.lhs in BinCell(ix, run, chart, n, l, s)
    ensures NewNode(run, r, a, b) in ApplySplits(ix, run, chart, n, l, s, p)[r.lhs]
    ensures ApplySplits(ix, run, chart, n, l, s, p)[r.lhs] <= BinCell(ix, run, chart, n, l, s)[r.lhs]
  {
    var c0 := ApplySplits(ix, run, chart, n, l, s, p - 1);
    ApplyKeysHas(ix, run, c0, ix.binaryKeys, chart[p - 1][s], chart[l - p - 1][s + p], r, a, b);
    ApplySplitsGrows(ix, run, chart, n, l, s, p, l - 1);
  }

  /** Order within a cell: a derivation built at split p lies among the
      first SplitCount(.., p) entries, which are those of splits 1..p. */
  lemma NodeInPrefix(ix: Index, run: Runner, tokens: seq<string>, s: nat, p: nat, l: nat, r: Rule, a: Parse, b: Parse)
    requires WfIndex(ix) && 1 <= p < l && s + l <= |tokens|
    requires IsBinary(r) && RhsKey(r.rhs) in ix.binary && r in ix.binary[RhsKey(r.rhs)]
    requires r.rhs[0] in CellAt(ix, run, tokens, p, s) && a in CellAt(ix, run, tokens, p, s)[r.rhs[0]]
    requires r.rhs[1] in CellAt(ix, run, tokens, l - p, s + p) && b in CellAt(ix, run, tokens, l - p, s + p)[r.rhs[1]]
    ensures r.lhs in CellAt(ix, run, tokens, l, s)
    ensures SplitCount(ix, run, tokens, l, s, r.lhs, p) <= |CellAt(ix, run, tokens, l, s)[r.lhs]|
    ensures NewNode(run, r, a, b) in CellAt(ix, run, tokens, l, s)[r.lhs][..SplitCount(ix, run, tokens, l, s, r.lhs, p)]
  {
    var prev := Rows(ix, run, tokens, l - 1);
    SplitChildren(ix, run, tokens, s, p, l, r, a, b);
    SplitsKeepNode(ix, run, prev, |tokens|, l, s, p, r, a, b);
    SplitsCount(ix, run, tokens, l, s, r.lhs, p);
    assert CellAt(ix, run, tokens, l, s) == BinCell(ix, run, prev, |tokens|, l, s);
  }

  /** The cell (l, s) of the chart of `tokens` after splits 1..p. */
  lemma SplitsCount(ix: Index, run: Runner, tokens: seq<string>, l: nat, s: nat, x: string, p: nat)
    requires WfIndex(ix) && 2 <= l && s + l <= |tokens| && p < l
    ensures Count(ApplySplits(ix, run, Rows(ix, run, tokens, l - 1), |tokens|, l, s, p), x) == SplitCount(ix, run, tokens, l, s, x, p)
  {
    RowsCells(ix, run, tokens, l - 1);
    ApplySplitsCount(ix, run, Cells(ix, run, tokens), |tokens|, Rows(ix, run, tokens, l - 1), l, s, x, p);
  }

  /** Membership in the chart of `tokens`: `q` is listed in cell (l, s)
      under its root category. */
  ghost function Listed(ix: Index, run: Runner, tokens: seq<string>): (int, int, Parse) -> bool
    requires WfIndex(ix)
  {
    (l: int, s: int, q: Parse) =>
      1 <= l && 0 <= s && s + l <= |tokens|
      && q.rule.lhs in CellAt(ix, run, tokens, l, s) && q in CellAt(ix, run, tokens, l, s)[q.rule.lhs]
  }

  /** `has` lists the leaf of every lexical rule for token s at (1, s). */
  ghost predicate LeavesListed(ix: Index, run: Runner, tokens: seq<string>, has: (int, int, Parse) -> bool) {
    forall s: int, r: Rule :: 0 <= s < |tokens| && RhsKey(r.rhs) == tokens[s] && RhsKey(r.rhs) in ix.lexical && r in ix.lexical[RhsKey(r.rhs)]
      ==> has(1, s, NewLeaf(run, r))
  }

  /** Whenever `has` lists the two halves of a binary rule at (p, s) and
      (m, s + p), it lists the node that joins them at (p + m, s). */
  ghost predicate NodesListed(ix: Index, run: Runner, tokens: seq<string>, has: (int, int, Parse) -> bool) {
    forall p: int, m: int, s: int, t: int, r: Rule, a: Parse, b: Parse {:trigger has(p, s, a), has(m, t, b), NewNode(run, r, a, b)} ::
      1 <= p && 1 <= m && 0 <= s && t == s + p && t + m <= |tokens|
      && IsBinary(r) && RhsKey(r.rhs) in ix.binary && r in ix.binary[RhsKey(r.rhs)]
      && a.rule.lhs == r.rhs[0] && b.rule.lhs == r.rhs[1]
      && has(p, s, a) && has(m, t, b)
      ==> has(p + m, s, NewNode(run, r, a, b))
  }

  /** The chart of `parse_input` is closed under both ways of building a
      derivation. */
  lemma ChartClosed(ix: Index, run: Runner, tokens: seq<string>)
    requires WfIndex(ix)
    ensures LeavesListed(ix, run, tokens, Listed(ix, run, tokens))
    ensures NodesListed(ix, run, tokens, Listed(ix, run, tokens))
  {
    LeavesClosed(ix, run, tokens);
    NodesClosed(ix, run, tokens);
  }

  lemma LeavesClosed(ix: Index, run: Runner, tokens: seq<string>)
    requires WfIndex(ix)
    ensures LeavesListed(ix, run, tokens, Listed(ix, run, tokens))
  {
    var has := Listed(ix, run, tokens);
    forall s: int, r: Rule | 0 <= s < |tokens| && RhsKey(r.rhs) == tokens[s] && RhsKey(r.rhs) in ix.lexical && r in ix.lexical[RhsKey(r.rhs)]
      ensures has(1, s, NewLeaf(run, r))
    {
      LeafInCell(ix, run, tokens, s, r);
    }
  }

  lemma NodesClosed(ix: Index, run: Runner, tokens: seq<string>)
    requires WfIndex(ix)
    ensures NodesListed(ix, run, tokens, Listed(ix, run, tokens))
  {
    var has := Listed(ix, run, tokens);
    forall p: int, m: int, s: int, t: int, r: Rule, a: Parse, b: Parse |
      1 <= p && 1 <= m && 0 <= s && t == s + p && t + m <= |tokens|
      && IsBinary(r) && RhsKey(r.rhs) in ix.binary && r in ix.binary[RhsKey(r.rhs)]
      && a.rule.lhs == r.rhs[0] && b.rule.lhs == r.rhs[1]
      && has(p, s, a) && has(m, t, b)
      ensures has(p + m, s, NewNode(run, r, a, b))
    {
      NodeInCell(ix, run, tokens, s, p, p + m, r, a, b);
    }
  }

  /** Completeness: a membership relation closed under both ways of
      building a derivation lists every derivation whose frontier is the
      token span s..s+l-1 at (l, s). */
  lemma {:induction false} CellComplete(ix: Index, run: Runner, tokens: seq<string>, has: (int, int, Parse) -> bool, s: nat, q: Parse)
    requires LeavesListed(ix, run, tokens, has) && NodesListed(ix, run, tokens, has)
    requires IsDerivation(ix, run, q)
    requires s + |Frontier(q)| <= |tokens| && Frontier(q) == tokens[s..s + |Frontier(q)|]
    ensures has(|Frontier(q)|, s, q)
    decreases q, 1
  {
    if q.Leaf? {
      assert tokens[s..s + 1][0] == tokens[s];
      assert q == NewLeaf(run, q.rule);
    } else {
      NodeComplete(ix, run, tokens, has, s, q);
    }
  }

  /** The step of `CellComplete`: both halves are listed, hence the node. */
  lemma {:induction false} NodeComplete(ix: Index, run: Runner, tokens: seq<string>, has: (int, int, Parse) -> bool, s: nat, q: Parse)
    requires LeavesListed(ix, run, tokens, has) && NodesListed(ix, run, tokens, has)
    requires q.Node? && IsDerivation(ix, run, q)
    requires s + |Frontier(q)| <= |tokens| && Frontier(q) == tokens[s..s + |Frontier(q)|]
    ensures has(|Frontier(q)|, s, q)
    decreases q, 0
  {
    var p := |Frontier(q.left)|;
    SliceSplit(tokens, s, Frontier(q.left), Frontier(q.right));
    CellComplete(ix, run, tokens, has, s, q.left);
    CellComplete(ix, run, tokens, has, s + p, q.right);
    JoinListed(ix, run, tokens, has, s, q);
  }

  lemma JoinListed(ix: Index, run: Runner, tokens: seq<string>, has: (int, int, Parse) -> bool, s: nat, q: Parse)
    requires NodesListed(ix, run, tokens, has)
    requires q.Node? && IsDerivation(ix, run, q) && s + |Frontier(q)| <= |tokens|
    requires has(|Frontier(q.left)|, s, q.left)
    requires has(|Frontier(q.right)|, s + |Frontier(q.left)|, q.right)
    ensures has(|Frontier(q)|, s, q)
  {
    var p, m := |Frontier(q.left)|, |Frontier(q.right)|;
    assert |Frontier(q)| == p + m;
    assert q == NewNode(run, q.rule, q.left, q.right);
    assert has(p + m, s, NewNode(run, q.rule, q.left, q.right));
  }

  lemma SliceSplit(tokens: seq<string>, s: nat, fa: seq<string>, fb: seq<string>)
    requires s + |fa| + |fb| <= |tokens| && fa + fb == tokens[s..s + |fa| + |fb|]
    ensures fa == tokens[s..s + |fa|] && fb == tokens[s + |fa|..s + |fa| + |fb|]
  {
    assert (fa + fb)[..|fa|] == fa && (fa + fb)[|fa|..] == fb;
    assert tokens[s..s + |fa| + |fb|][..|fa|] == tokens[s..s + |fa|];
    assert tokens[s..s + |fa| + |fb|][|fa|..] == tokens[s + |fa|..s + |fa| + |fb|];
  }

  /** `parse_input` returns `undefined` exactly when the input has no `$E`
      derivation; otherwise a non-empty list of `$E` derivations of the whole
      input that contains every such derivation. */
  lemma ParseTokensCorrect(ix: Index, run: Runner, tokens: seq<string>, q: Parse)
    requires WfIndex(ix) && |tokens| >= 1
    ensures ParseTokens(ix, run, tokens).Some? ==>
      ParseTokens(ix, run, tokens).value != [] && AllDerive(ix, run, ParseTokens(ix, run, tokens).value, "$E", tokens)
    ensures IsDerivation(ix, run, q) && q.rule.lhs == "$E" && Frontier(q) == tokens ==>
      ParseTokens(ix, run, tokens).Some? && q in ParseTokens(ix, run, tokens).value
  {
    CellSound(ix, run, tokens, |tokens|, 0);
    assert tokens[0..|tokens|] == tokens;
    if IsDerivation(ix, run, q) && q.rule.lhs == "$E" && Frontier(q) == tokens {
      ChartClosed(ix, run, tokens);
      CellComplete(ix, run, tokens, Listed(ix, run, tokens), 0, q);
    }
  }

  /** The meaning of a derivation read off its rules alone, bottom-up: a leaf
      means its rule's `sem`, a node whose rule carries a value means that
      value, and a node whose rule carries a function means the function
      applied to its children's meanings, left child first. */
  function TreeMeaning(run: Runner, q: Parse): Sem
    decreases q
  {
    match q
    case Leaf(r, _, _) => LiteralOf(r.sem)
    case Node(r, a, b, _) =>
      if r.sem.Lit? then r.sem.value else run(r.sem.source, [TreeMeaning(run, a), TreeMeaning(run, b)])
  }

  /** The meaning `compute_semantics` stores when a derivation is built is
      the bottom-up meaning of the whole tree: a lexical leaf never applies
      its `sem`, and a binary node applies it to its children's meanings. */
  lemma {:induction false} StoredMeaning(ix: Index, run: Runner, q: Parse)
    requires WfIndex(ix) && IsDerivation(ix, run, q)
    ensures q.semantics == TreeMeaning(run, q)
    decreases q
  {
    match q
    case Leaf(r, _, _) =>
      assert IsLexical(r);
    case Node(r, a, b, _) =>
      assert IsCat(r.rhs[0]);
      assert !IsLexical(r);
      StoredMeaning(ix, run, a);
      StoredMeaning(ix, run, b);
  }

  /** Every parse `parse_input` returns carries the bottom-up meaning of its
      tree. */
  lemma ParseMeanings(ix: Index, run: Runner, tokens: seq<string>)
    requires WfIndex(ix) && |tokens| >= 1
    ensures ParseTokens(ix, run, tokens).Some? ==>
      forall i :: 0 <= i < |ParseTokens(ix, run, tokens).value| ==>
        ParseTokens(ix, run, tokens).value[i].semantics == TreeMeaning(run, ParseTokens(ix, run, tokens).value[i])
  {
    if ParseTokens(ix, run, tokens).Some? {
      var ps := ParseTokens(ix, run, tokens).value;
      CellSound(ix, run, tokens, |tokens|, 0);
      forall i | 0 <= i < |ps|
        ensures ps[i].semantics == TreeMeaning(run, ps[i])
      {
        StoredMeaning(ix, run, ps[i]);
      }
    }
  }

  // ---------------------------------------------------------------------
  // Counting: nothing is merged or dropped

  function Count(c: Cell, x: string): nat {
    |MapGet(c, x)|
  }

  /** Entries one binary rule contributes under `x` at one split. */
  function RuleCount(r: Rule, x: string, left: Cell, right: Cell): nat
    requires IsBinary(r)
  {
    if r.lhs == x then Count(left, r.rhs[0]) * Count(right, r.rhs[1]) else 0
  }

  function RulesCount(rules: seq<Rule>, x: string, left: Cell, right: Cell): nat
    requires forall i :: 0 <= i < |rules| ==> IsBinary(rules[i])
    decreases |rules|
  {
    if rules == [] then 0
    else RulesCount(rules[..|rules| - 1], x, left, right) + RuleCount(rules[|rules| - 1], x, left, right)
  }

  function KeysCount(ix: Index, keys: seq<string>, x: string, left: Cell, right: Cell): nat
    requires WfIndex(ix) && forall i :: 0 <= i < |keys| ==> keys[i] in ix.binary
    decreases |keys|
  {
    if keys == [] then 0
    else KeysCount(ix, keys[..|keys| - 1], x, left, right) + RulesCount(ix.binary[keys[|keys| - 1]], x, left, right)
  }

  /** The chart cell of span `l` starting at `s`, as a function of both. */
  function Cells(ix: Index, run: Runner, tokens: seq<string>): (int, int) -> Cell
    requires WfIndex(ix)
  {
    (l: int, s: int) => if 1 <= l && 0 <= s && s + l <= |tokens| then CellAt(ix, run, tokens, l, s) else map[]
  }

  lemma CellsApply(ix: Index, run: Runner, tokens: seq<string>, l: nat, s: nat)
    requires WfIndex(ix) && 1 <= l && s + l <= |tokens|
    ensures Cells(ix, run, tokens)(l, s) == CellAt(ix, run, tokens, l, s)
  {
  }

  /** Entries under `x` over the splits 1..p of span (l, s), the cells of
      the sub-spans read from `cell`. */
  function SplitCountBy(ix: Index, cell: (int, int) -> Cell, l: nat, s: nat, x: string, p: nat): nat
    requires WfIndex(ix) && p < l
    decreases p
  {
    if p == 0 then 0
    else SplitCountBy(ix, cell, l, s, x, p - 1) + KeysCount(ix, ix.binaryKeys, x, cell(p, s), cell(l - p, s + p))
  }

  /** Entries under `x` over the splits 1..p of span (l, s) of the chart of `tokens`. */
  function SplitCount(ix: Index, run: Runner, tokens: seq<string>, l: nat, s: nat, x: string, p: nat): nat
    requires WfIndex(ix) && p < l
  {
    SplitCountBy(ix, Cells(ix, run, tokens), l, s, x, p)
  }

  /** Lexical rules among `rules` whose lhs is `x`. */
  function LhsCount(rules: seq<Rule>, x: string): nat
    decreases |rules|
  {
    if rules == [] then 0
    else LhsCount(rules[..|rules| - 1], x) + (if rules[|rules| - 1].lhs == x then 1 else 0)
  }

  lemma {:induction false} ProductsSize(run: Runner, r: Rule, ls: seq<Parse>, rs: seq<Parse>)
    ensures |Products(run, r, ls, rs)| == |ls| * |rs|
    decreases |ls|
  {
    if ls != [] {
      ProductsSize(run, r, ls[..|ls| - 1], rs);
      assert (|ls| - 1) * |rs| + |rs| == |ls| * |rs|;
    }
  }

  lemma ApplyRuleCount(run: Runner, c: Cell, r: Rule, left: Cell, right: Cell, x: string)
    requires IsBinary(r)
    ensures Count(ApplyRule(run, c, r, left, right), x) == Count(c, x) + RuleCount(r, x, left, right)
  {
    if r.rhs[0] in left && r.rhs[1] in right {
      ProductsSize(run, r, left[r.rhs[0]], right[r.rhs[1]]);
    }
  }

  lemma {:induction false} ApplyRulesCount(run: Runner, c: Cell, rules: seq<Rule>, left: Cell, right: Cell, x: string)
    requires forall i :: 0 <= i < |rules| ==> IsBinary(rules[i])
    ensures Count(ApplyRules(run, c, rules, left, right), x) == Count(c, x) + RulesCount(rules, x, left, right)
    decreases |rules|
  {
    if rules != [] {
      var init := rules[..|rules| - 1];
      ApplyRulesCount(run, c, init, left, right, x);
      ApplyRuleCount(run, ApplyRules(run, c, init, left, right), rules[|rules| - 1], left, right, x);
    }
  }

  lemma {:induction false} ApplyKeysCount(ix: Index, run: Runner, c: Cell, keys: seq<string>, left: Cell, right: Cell, x: string)
    requires WfIndex(ix) && forall i :: 0 <= i < |keys| ==> keys[i] in ix.binary
    ensures Count(ApplyKeys(ix, run, c, keys, left, right), x) == Count(c, x) + KeysCount(ix, keys, x, left, right)
    decreases |keys|
  {
    if keys != [] {
      var init := keys[..|keys| - 1];
      ApplyKeysCount(ix, run, c, init, left, right, x);
      ApplyRulesCount(run, ApplyKeys(ix, run, c, init, left, right), ix.binary[keys[|keys| - 1]], left, right, x);
    }
  }

  lemma {:induction false} ApplySplitsCount(ix: Index, run: Runner, cell: (int, int) -> Cell, n: nat, chart: seq<seq<Cell>>, l: nat, s: nat, x: string, p: nat)
    requires WfIndex(ix) && 2 <= l && s + l <= n && p < l && ChartShape(chart, n, l - 1)
    requires forall k, t :: 0 <= k < l - 1 && 0 <= t && t + k + 1 <= n ==> chart[k][t] == cell(k + 1, t)
    ensures Count(ApplySplits(ix, run, chart, n, l, s, p), x) == SplitCountBy(ix, cell, l, s, x, p)
    decreases p
  {
    if p > 0 {
      ApplySplitsCount(ix, run, cell, n, chart, l, s, x, p - 1);
      var c0 := ApplySplits(ix, run, chart, n, l, s, p - 1);
      ApplyKeysCount(ix, run, c0, ix.binaryKeys, chart[p - 1][s], chart[l - p - 1][s + p], x);
    }
  }

  /** The first `m` rows hold the chart cells of `tokens`. */
  lemma RowsCells(ix: Index, run: Runner, tokens: seq<string>, m: nat)
    requires WfIndex(ix) && 1 <= m <= |tokens|
    ensures forall k, t :: 0 <= k < m && 0 <= t && t + k + 1 <= |tokens| ==>
      Rows(ix, run, tokens, m)[k][t] == Cells(ix, run, tokens)(k + 1, t)
  {
    forall k, t | 0 <= k < m && 0 <= t && t + k + 1 <= |tokens|
      ensures Rows(ix, run, tokens, m)[k][t] == Cells(ix, run, tokens)(k + 1, t)
    {
      RowsCell(ix, run, tokens, k + 1, m, t);
      CellsApply(ix, run, tokens, k + 1, t);
    }
  }

  /** A row of a longer chart holds the same cells. */
  lemma RowsCell(ix: Index, run: Runner, tokens: seq<string>, k: nat, m: nat, t: nat)
    requires WfIndex(ix) && 1 <= k <= m <= |tokens| && t + k <= |tokens|
    ensures Rows(ix, run, tokens, m)[k - 1][t] == CellAt(ix, run, tokens, k, t)
  {
    RowsPrefix(ix, run, tokens, k, m);
    assert Rows(ix, run, tokens, m)[k - 1] == Rows(ix, run, tokens, m)[..k][k - 1];
  }

  lemma {:induction false} AddLeavesCount(run: Runner, c: Cell, rules: seq<Rule>, x: string)
    ensures Count(AddLeaves(run, c, rules), x) == Count(c, x) + LhsCount(rules, x)
    decreases |rules|
  {
    if rules != [] {
      AddLeavesCount(run, c, rules[..|rules| - 1], x);
    }
  }

  /** The number of entries under `x` in a span-1 cell is the number of
      lexical rules for the token with lhs `x`. */
  lemma LexCellCount(ix: Index, run: Runner, tokens: seq<string>, s: nat, x: string)
    requires WfIndex(ix) && s < |tokens|
    ensures Count(CellAt(ix, run, tokens, 1, s), x) == LhsCount(MapGet(ix.lexical, tokens[s]), x)
  {
    if tokens[s] in ix.lexical {
      AddLeavesCount(run, map[], ix.lexical[tokens[s]], x);
    }
  }

  /** The number of entries under `x` in a longer cell: over every split
      and every binary rule for `x`, the product of the entry counts of its
      two rhs categories in the two sub-spans. Equal derivations are kept
      once per way the chart builds them. */
  lemma CellCount(ix: Index, run: Runner, tokens: seq<string>, l: nat, s: nat, x: string)
    requires WfIndex(ix) && 2 <= l && s + l <= |tokens|
    ensures Count(CellAt(ix, run, tokens, l, s), x) == SplitCount(ix, run, tokens, l, s, x, l - 1)
  {
    var prev := Rows(ix, run, tokens, l - 1);
    RowsCells(ix, run, tokens, l - 1);
    assert CellAt(ix, run, tokens, l, s) == ApplySplits(ix, run, prev, |tokens|, l, s, l - 1);
    ApplySplitsCount(ix, run, Cells(ix, run, tokens), |tokens|, prev, l, s, x, l - 1);
  }
}
