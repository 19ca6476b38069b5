/** Lexicon synthesis helpers of semparser.js: cross products of rules,
    tokens, meanings and categories, and the gathering of input tokens. */
module Lexicon {
  import opened Wrappers
  import opened JsText
  import opened Sems
  import opened Collections
  import opened SemParser
  import opened JsObject

  // ---------------------------------------------------------------------
  // Cross products

  /** `fCart(a, b)` on atomic elements: every pair, left-major. */
  function Cart<A, B>(a: seq<A>, b: seq<B>): seq<(A, B)>
    decreases |a|
  {
    if a == [] then [] else Cart(a[..|a| - 1], b) + seq(|b|, j requires 0 <= j < |b| => (a[|a| - 1], b[j]))
  }

  lemma {:induction false} CartSize<A, B>(a: seq<A>, b: seq<B>)
    ensures |Cart(a, b)| == |a| * |b|
    decreases |a|
  {
    if a != [] {
      CartSize(a[..|a| - 1], b);
      assert (|a| - 1) * |b| + |b| == |a| * |b|;
    }
  }

  lemma MulMono(i: nat, m: nat, b: nat)
    requires i < m
    ensures i * b + b <= m * b
  {
    assert (m - i) * b >= b by {
      assert m - i >= 1;
    }
    assert m * b == i * b + (m - i) * b;
  }

  /** Pair (i, j) sits at position i * |b| + j. */
  lemma {:induction false} CartAt<A, B>(a: seq<A>, b: seq<B>, i: nat, j: nat)
    requires i < |a| && j < |b|
    ensures |Cart(a, b)| == |a| * |b|
    ensures i * |b| + j < |Cart(a, b)| && Cart(a, b)[i * |b| + j] == (a[i], b[j])
    decreases |a|
  {
    CartSize(a, b);
    var init := a[..|a| - 1];
    CartSize(init, b);
    if i < |a| - 1 {
      CartAt(init, b, i, j);
      MulMono(i, |a| - 1, |b|);
    }
    MulMono(i, |a|, |b|);
  }

  /** Every element of the product is a pair of elements of the factors. */
  lemma {:induction false} CartMember<A, B>(a: seq<A>, b: seq<B>, k: nat)
    requires k < |Cart(a, b)|
    ensures Cart(a, b)[k].0 in a && Cart(a, b)[k].1 in b
    decreases |a|
  {
    var init := a[..|a| - 1];
    if k < |Cart(init, b)| {
      CartMember(init, b, k);
    }
  }

  /** `cartesianProduct(a, b, c)`, which is `fCart(fCart(a, b), c)`, with
      the nested pairs flattened to triples. */
  function Cart3<A, B, C>(a: seq<A>, b: seq<B>, c: seq<C>): seq<(A, B, C)> {
    var ab := Cart(a, b);
    var abc := Cart(ab, c);
    seq(|abc|, k requires 0 <= k < |abc| => (abc[k].0.0, abc[k].0.1, abc[k].1))
  }

  lemma Cart3Size<A, B, C>(a: seq<A>, b: seq<B>, c: seq<C>)
    ensures |Cart3(a, b, c)| == |a| * |b| * |c|
  {
    CartSize(a, b);
    CartSize(Cart(a, b), c);
  }

  /** Triple (i, j, k) sits at position (i * |b| + j) * |c| + k. */
  lemma Cart3At<A, B, C>(a: seq<A>, b: seq<B>, c: seq<C>, i: nat, j: nat, k: nat)
    requires i < |a| && j < |b| && k < |c|
    ensures (i * |b| + j) * |c| + k < |Cart3(a, b, c)|
    ensures Cart3(a, b, c)[(i * |b| + j) * |c| + k] == (a[i], b[j], c[k])
  {
    CartAt(a, b, i, j);
    CartAt(Cart(a, b), c, i * |b| + j, k);
  }

  lemma Cart3Member<A, B, C>(a: seq<A>, b: seq<B>, c: seq<C>, k: nat)
    requires k < |Cart3(a, b, c)|
    ensures Cart3(a, b, c)[k].0 in a && Cart3(a, b, c)[k].1 in b && Cart3(a, b, c)[k].2 in c
  {
    var ab := Cart(a, b);
    CartMember(ab, c, k);
    var i :| 0 <= i < |ab| && ab[i] == Cart(ab, c)[k].0;
    CartMember(a, b, i);
  }

  // ---------------------------------------------------------------------
  // lexicalCartesianProduct

  /** A meaning that `[].concat` does not flatten. */
  predicate AtomicMeaning(m: Meaning) {
    m.Fn? || IsAtom(m.value)
  }

  function LexicalOnly(rules: seq<Rule>): (r: seq<Rule>)
    ensures forall i :: 0 <= i < |r| ==> IsLexical(r[i])
    decreases |rules|
  {
    if rules == [] then []
    else LexicalOnly(rules[..|rules| - 1]) + (if IsLexical(rules[|rules| - 1]) then [rules[|rules| - 1]] else [])
  }

  function NonLexicalOnly(rules: seq<Rule>): (r: seq<Rule>)
    ensures forall i :: 0 <= i < |r| ==> !IsLexical(r[i])
    decreases |rules|
  {
    if rules == [] then []
    else NonLexicalOnly(rules[..|rules| - 1]) + (if !IsLexical(rules[|rules| - 1]) then [rules[|rules| - 1]] else [])
  }

  /** The rules of `rules` with lhs `x`, in order. */
  function WithLhs(rules: seq<Rule>, x: string): (r: seq<Rule>)
    ensures forall i :: 0 <= i < |r| ==> r[i].lhs == x
    decreases |rules|
  {
    if rules == [] then []
    else WithLhs(rules[..|rules| - 1], x) + (if rules[|rules| - 1].lhs == x then [rules[|rules| - 1]] else [])
  }

  function Lhss(rules: seq<Rule>): (r: seq<string>)
    ensures |r| == |rules| && forall i :: 0 <= i < |r| ==> r[i] == rules[i].lhs
  {
    seq(|rules|, i requires 0 <= i < |rules| => rules[i].lhs)
  }

  function MeaningsOf(rules: seq<Rule>): (r: seq<Meaning>)
    ensures |r| == |rules| && forall i :: 0 <= i < |r| ==> r[i] == rules[i].sem
  {
    seq(|rules|, i requires 0 <= i < |rules| => rules[i].sem)
  }

  /** A group's rules re-issued with every distinct meaning of the group. */
  function Regroup(pairs: seq<(Rule, Meaning)>): (r: seq<Rule>)
    ensures |r| == |pairs|
    ensures forall i :: 0 <= i < |r| ==> r[i] == Rule(pairs[i].0.lhs, pairs[i].0.rhs, pairs[i].1)
  {
    seq(|pairs|, i requires 0 <= i < |pairs| => Rule(pairs[i].0.lhs, pairs[i].0.rhs, pairs[i].1))
  }

  function GroupExpand(group: seq<Rule>): seq<Rule> {
    Regroup(Cart(group, Dedup(MeaningsOf(group))))
  }

  function ExpandGroups(lexical: seq<Rule>, keys: seq<string>): seq<Rule>
    decreases |keys|
  {
    if keys == [] then []
    else ExpandGroups(lexical, keys[..|keys| - 1]) + GroupExpand(WithLhs(lexical, keys[|keys| - 1]))
  }

  /** What `lexicalCartesianProduct` returns: the non-lexical rules, then
      each group of lexical rules sharing an lhs, in the order `for (key in
      lexicalByLHS)` visits the lhs's, expanded with every distinct meaning
      of the group. */
  function LexExpand(rules: seq<Rule>): seq<Rule> {
    var lexical := LexicalOnly(rules);
    NonLexicalOnly(rules) + ExpandGroups(lexical, OwnKeys(Dedup(Lhss(lexical))))
  }

  /** Some lexical rule has an lhs that plain objects inherit. */
  predicate InheritedLhs(rules: seq<Rule>) {
    exists i :: 0 <= i < |rules| && IsLexical(rules[i]) && Inherited(rules[i].lhs)
  }

  /** What `push` on an inherited `Object.prototype` member throws. */
  const NotAnArray := "TypeError: lexicalByLHS[rule.lhs].push is not a function"

  /** The loop that files the lexical rules by lhs: `lexicalByLHS`, with its
      keys in insertion order. An lhs such as "toString" finds the inherited
      member, which has no `push`, so the loop throws. */
  method GroupByLhs(lexicalRules: seq<Rule>) returns (byLhs: map<string, seq<Rule>>, keys: seq<string>, thrown: bool)
    ensures thrown <==> exists i :: 0 <= i < |lexicalRules| && Inherited(lexicalRules[i].lhs)
    ensures !thrown ==> keys == Dedup(Lhss(lexicalRules))
    ensures !thrown ==> forall k :: k in byLhs <==> k in keys
    ensures !thrown ==> forall k :: MapGet(byLhs, k) == WithLhs(lexicalRules, k)
  {
    byLhs, keys, thrown := map[], [], false;
    for i := 0 to |lexicalRules|
      invariant forall j :: 0 <= j < i ==> !Inherited(lexicalRules[j].lhs)
      invariant keys == Dedup(Lhss(lexicalRules[..i]))
      invariant forall k :: k in byLhs <==> k in keys
      invariant forall k :: MapGet(byLhs, k) == WithLhs(lexicalRules[..i], k)
    {
      var r := lexicalRules[i];
      if Inherited(r.lhs) {
        assert Inherited(lexicalRules[i].lhs);
        thrown := true;
        return;
      }
      assert lexicalRules[..i + 1] == lexicalRules[..i] + [r];
      byLhs, keys := FileOne(lexicalRules[..i], r, byLhs, keys);
    }
    assert lexicalRules[..|lexicalRules|] == lexicalRules;
  }

  /** One pass of the filing loop: `lexicalByLHS[rule.lhs] = lexicalByLHS[rule.lhs] || []`
      and the `push`, for an lhs the object does not inherit. */
  method FileOne(ghost done: seq<Rule>, r: Rule, byLhs0: map<string, seq<Rule>>, keys0: seq<string>)
    returns (byLhs: map<string, seq<Rule>>, keys: seq<string>)
    requires keys0 == Dedup(Lhss(done))
    requires forall k :: k in byLhs0 <==> k in keys0
    requires forall k :: MapGet(byLhs0, k) == WithLhs(done, k)
    ensures keys == Dedup(Lhss(done + [r]))
    ensures forall k :: k in byLhs <==> k in keys
    ensures forall k :: MapGet(byLhs, k) == WithLhs(done + [r], k)
  {
    FileRule(done, r, byLhs0, keys0);
    keys := keys0;
    if r.lhs !in byLhs0 {
      keys := keys + [r.lhs];
    }
    byLhs := byLhs0[r.lhs := MapGet(byLhs0, r.lhs) + [r]];
  }

  /** Filing one more rule keeps the map and its key order in step with the
      rules filed so far. */
  lemma FileRule(done: seq<Rule>, r: Rule, byLhs: map<string, seq<Rule>>, keys: seq<string>)
    requires keys == Dedup(Lhss(done))
    requires forall k :: k in byLhs <==> k in keys
    requires forall k :: MapGet(byLhs, k) == WithLhs(done, k)
    ensures (if r.lhs in byLhs then keys else keys + [r.lhs]) == Dedup(Lhss(done + [r]))
    ensures forall k :: MapGet(byLhs[r.lhs := MapGet(byLhs, r.lhs) + [r]], k) == WithLhs(done + [r], k)
  {
    assert r.lhs in byLhs <==> r.lhs in keys;
    FileKey(done, r, keys);
    forall k ensures MapGet(byLhs[r.lhs := MapGet(byLhs, r.lhs) + [r]], k) == WithLhs(done + [r], k) {
      WithLhsSnoc(done, r, k);
    }
  }

  lemma FileKey(done: seq<Rule>, r: Rule, keys: seq<string>)
    requires keys == Dedup(Lhss(done))
    ensures (if r.lhs in keys then keys else keys + [r.lhs]) == Dedup(Lhss(done + [r]))
  {
    LhssSnoc(done, r);
    DedupSnoc(Lhss(done), r.lhs);
  }

  lemma LhssSnoc(done: seq<Rule>, r: Rule)
    ensures Lhss(done + [r]) == Lhss(done) + [r.lhs]
  {
    assert forall i :: 0 <= i < |done| ==> (done + [r])[i] == done[i];
  }

  lemma WithLhsSnoc(done: seq<Rule>, r: Rule, x: string)
    ensures WithLhs(done + [r], x) == WithLhs(done, x) + (if r.lhs == x then [r] else [])
  {
    assert (done + [r])[..|done|] == done;
  }

  /** The loop over the pairs of one group. */
  method PushPairs(expanded0: seq<Rule>, pairs: seq<(Rule, Meaning)>) returns (expanded: seq<Rule>)
    ensures expanded == expanded0 + Regroup(pairs)
  {
    expanded := expanded0;
    for i := 0 to |pairs|
      invariant expanded == expanded0 + Regroup(pairs[..i])
    {
      expanded := expanded + [Rule(pairs[i].0.lhs, pairs[i].0.rhs, pairs[i].1)];
    }
    assert pairs[..|pairs|] == pairs;
  }

  /** The `for (key in lexicalByLHS)` loop. */
  method ExpandAll(expanded0: seq<Rule>, lexicalRules: seq<Rule>, byLhs: map<string, seq<Rule>>, keys: seq<string>)
    returns (expanded: seq<Rule>)
    requires forall g :: 0 <= g < |keys| ==> keys[g] in byLhs && byLhs[keys[g]] == WithLhs(lexicalRules, keys[g])
    ensures expanded == expanded0 + ExpandGroups(lexicalRules, keys)
  {
    expanded := expanded0;
    for g := 0 to |keys|
      invariant expanded == expanded0 + ExpandGroups(lexicalRules, keys[..g])
    {
      var group := byLhs[keys[g]];
      var sems := Dedup(MeaningsOf(group));
      expanded := PushPairs(expanded, Cart(group, sems));
      assert keys[..g + 1][..g] == keys[..g];
    }
    assert keys[..|keys|] == keys;
  }

  /** `lexicalCartesianProduct`; `for (key in lexicalByLHS)` visits the
      keys in `OwnKeys` order. */
  method LexicalCartesianProduct(rules: seq<Rule>) returns (expanded: Result<seq<Rule>>)
    requires forall i :: 0 <= i < |rules| ==> IsLexical(rules[i]) ==> AtomicMeaning(rules[i].sem)
    ensures expanded == if InheritedLhs(rules) then Err(NotAnArray) else Ok(LexExpand(rules))
  {
    var lexicalRules := LexicalOnly(rules);
    var byLhs, keys, thrown := GroupByLhs(lexicalRules);
    LexicalOnlyInherited(rules);
    if thrown {
      return Err(NotAnArray);
    }
    var order := OwnKeys(keys);
    OwnKeysFacts(keys);
    forall g | 0 <= g < |order|
      ensures order[g] in byLhs && byLhs[order[g]] == WithLhs(lexicalRules, order[g])
    {
      assert order[g] in keys;
      assert MapGet(byLhs, order[g]) == WithLhs(lexicalRules, order[g]);
    }
    var result := ExpandAll(NonLexicalOnly(rules), lexicalRules, byLhs, order);
    return Ok(result);
  }

  lemma {:induction false} LexicalOnlyMember(rules: seq<Rule>, r: Rule)
    ensures r in LexicalOnly(rules) <==> r in rules && IsLexical(r)
    decreases |rules|
  {
    if rules != [] {
      var init := rules[..|rules| - 1];
      LexicalOnlyMember(init, r);
      assert rules == init + [rules[|rules| - 1]];
    }
  }

  /** The filing loop meets an inherited lhs exactly when some lexical rule has one. */
  lemma LexicalOnlyInherited(rules: seq<Rule>)
    ensures InheritedLhs(rules) <==>
      exists i :: 0 <= i < |LexicalOnly(rules)| && Inherited(LexicalOnly(rules)[i].lhs)
  {
    var lexical := LexicalOnly(rules);
    if InheritedLhs(rules) {
      var i :| 0 <= i < |rules| && IsLexical(rules[i]) && Inherited(rules[i].lhs);
      LexicalOnlyMember(rules, rules[i]);
      var j :| 0 <= j < |lexical| && lexical[j] == rules[i];
    }
    if exists i :: 0 <= i < |lexical| && Inherited(lexical[i].lhs) {
      var i :| 0 <= i < |lexical| && Inherited(lexical[i].lhs);
      LexicalOnlyMember(rules, lexical[i]);
      var j :| 0 <= j < |rules| && rules[j] == lexical[i];
    }
  }

  function GroupSizes(lexical: seq<Rule>, keys: seq<string>): nat
    decreases |keys|
  {
    if keys == [] then 0
    else
      GroupSizes(lexical, keys[..|keys| - 1]) + GroupSize(WithLhs(lexical, keys[|keys| - 1]))
  }

  /** Rules in a group times its distinct meanings. */
  function GroupSize(group: seq<Rule>): nat {
    var rules: nat, meanings: nat := |group|, |Dedup(MeaningsOf(group))|;
    rules * meanings
  }

  lemma {:induction false} ExpandGroupsSize(lexical: seq<Rule>, keys: seq<string>)
    ensures |ExpandGroups(lexical, keys)| == GroupSizes(lexical, keys)
    decreases |keys|
  {
    if keys != [] {
      ExpandGroupsSize(lexical, keys[..|keys| - 1]);
      var group := WithLhs(lexical, keys[|keys| - 1]);
      CartSize(group, Dedup(MeaningsOf(group)));
    }
  }

  /** The number of rules `lexicalCartesianProduct` returns: the non-lexical
      rules plus, per lhs group, group size times distinct meanings. */
  lemma LexExpandSize(rules: seq<Rule>)
    ensures var lexical := LexicalOnly(rules);
      |LexExpand(rules)| == |NonLexicalOnly(rules)| + GroupSizes(lexical, OwnKeys(Dedup(Lhss(lexical))))
  {
    var lexical := LexicalOnly(rules);
    ExpandGroupsSize(lexical, OwnKeys(Dedup(Lhss(lexical))));
  }

  lemma RegroupAt(group: seq<Rule>, sems: seq<Meaning>, i: nat, j: nat, k: nat)
    requires i < |group| && j < |sems| && k == i * |sems| + j
    ensures k < |Regroup(Cart(group, sems))|
    ensures Regroup(Cart(group, sems))[k] == Rule(group[i].lhs, group[i].rhs, sems[j])
  {
    CartAt(group, sems, i, j);
  }

  /** A group expansion pairs group rule i with distinct meaning j at
      position i * (number of distinct meanings) + j. */
  lemma GroupExpandAt(group: seq<Rule>, i: nat, j: nat, k: nat)
    requires i < |group| && j < |Dedup(MeaningsOf(group))| && k == i * |Dedup(MeaningsOf(group))| + j
    ensures k < |GroupExpand(group)|
    ensures GroupExpand(group)[k] == Rule(group[i].lhs, group[i].rhs, Dedup(MeaningsOf(group))[j])
  {
    RegroupAt(group, Dedup(MeaningsOf(group)), i, j, k);
  }

  /** Every expanded rule keeps a group rule's lhs and rhs and carries a
      meaning some rule of the group has. */
  lemma GroupExpandMember(group: seq<Rule>, k: nat)
    requires k < |GroupExpand(group)|
    ensures exists i, j ::
      0 <= i < |group| && 0 <= j < |group| && GroupExpand(group)[k] == Rule(group[i].lhs, group[i].rhs, group[j].sem)
  {
    var sems := Dedup(MeaningsOf(group));
    var pairs := Cart(group, sems);
    CartMember(group, sems, k);
    DedupProps(MeaningsOf(group));
    var i :| 0 <= i < |group| && group[i] == pairs[k].0;
    var m :| 0 <= m < |sems| && sems[m] == pairs[k].1;
    assert sems[m] in MeaningsOf(group);
    var j :| 0 <= j < |group| && MeaningsOf(group)[j] == sems[m];
    assert GroupExpand(group)[k] == Rule(group[i].lhs, group[i].rhs, group[j].sem);
  }

  // ---------------------------------------------------------------------
  // generateLexicon

  predicate IsOpCat(cat: string) {
    EndsWith(cat, "Op")
  }

  function FilterCats(cats: seq<string>, op: bool): (r: seq<string>)
    ensures forall i :: 0 <= i < |r| ==> IsOpCat(r[i]) == op
    decreases |cats|
  {
    if cats == [] then []
    else
      var c := cats[|cats| - 1];
      FilterCats(cats[..|cats| - 1], op) + (if IsOpCat(c) == op then [c] else [])
  }

  function FilterSems(sems: seq<Sem>, callable: Sem -> bool, op: bool): (r: seq<Sem>)
    ensures forall i :: 0 <= i < |r| ==> callable(r[i]) == op
    decreases |sems|
  {
    if sems == [] then []
    else
      var m := sems[|sems| - 1];
      FilterSems(sems[..|sems| - 1], callable, op) + (if callable(m) == op then [m] else [])
  }

  /** One rule per (token, meaning, category) triple: the category as lhs,
      the token as a (split) rhs string, the meaning as literal. */
  function TripleRules(triples: seq<(string, Sem, string)>): (r: seq<Rule>)
    ensures |r| == |triples|
    ensures forall i :: 0 <= i < |r| ==> r[i] == NewRule(triples[i].2, Text(triples[i].0), Lit(triples[i].1))
  {
    seq(|triples|, i requires 0 <= i < |triples| => NewRule(triples[i].2, Text(triples[i].0), Lit(triples[i].1)))
  }

  /** What `generateLexicon` returns. `callable(m)` says whether the
      executor maps `m` to a function. */
  function LexiconOf(tokens: seq<string>, sems: seq<Sem>, cats: seq<string>, callable: Sem -> bool): seq<Rule> {
    TripleRules(Cart3(tokens, FilterSems(sems, callable, true), FilterCats(cats, true))
                + Cart3(tokens, FilterSems(sems, callable, false), FilterCats(cats, false)))
  }

  lemma {:induction false} FilterCatsMember(cats: seq<string>, op: bool, k: nat)
    requires k < |FilterCats(cats, op)|
    ensures FilterCats(cats, op)[k] in cats
    decreases |cats|
  {
    var init := cats[..|cats| - 1];
    if k < |FilterCats(init, op)| {
      FilterCatsMember(init, op, k);
      assert init[FirstIndex(init, FilterCats(cats, op)[k])] in cats;
    }
  }

  lemma {:induction false} FilterSemsMember(sems: seq<Sem>, callable: Sem -> bool, op: bool, k: nat)
    requires k < |FilterSems(sems, callable, op)|
    ensures FilterSems(sems, callable, op)[k] in sems
    decreases |sems|
  {
    var init := sems[..|sems| - 1];
    if k < |FilterSems(init, callable, op)| {
      FilterSemsMember(init, callable, op, k);
      assert init[FirstIndex(init, FilterSems(sems, callable, op)[k])] in sems;
    }
  }

  /** The loop over `cats` that sorts them into op and token categories. */
  method SplitCats(cats: seq<string>) returns (opCats: seq<string>, tokCats: seq<string>)
    ensures opCats == FilterCats(cats, true) && tokCats == FilterCats(cats, false)
  {
    opCats, tokCats := [], [];
    for i := 0 to |cats|
      invariant opCats == FilterCats(cats[..i], true) && tokCats == FilterCats(cats[..i], false)
    {
      assert cats[..i + 1][..i] == cats[..i];
      if IsOpCat(cats[i]) {
        opCats := opCats + [cats[i]];
      } else {
        tokCats := tokCats + [cats[i]];
      }
    }
    assert cats[..|cats|] == cats;
  }

  /** The loop over the target meanings that sorts them by whether the
      executor makes them functions. */
  method SplitSems(sems: seq<Sem>, callable: Sem -> bool) returns (opSems: seq<Sem>, tokSems: seq<Sem>)
    ensures opSems == FilterSems(sems, callable, true) && tokSems == FilterSems(sems, callable, false)
  {
    opSems, tokSems := [], [];
    for i := 0 to |sems|
      invariant opSems == FilterSems(sems[..i], callable, true) && tokSems == FilterSems(sems[..i], callable, false)
    {
      assert sems[..i + 1][..i] == sems[..i];
      if callable(sems[i]) {
        opSems := opSems + [sems[i]];
      } else {
        tokSems := tokSems + [sems[i]];
      }
    }
    assert sems[..|sems|] == sems;
  }

  /** The loop that builds one rule per triple. */
  method RulesOfTriples(triples: seq<(string, Sem, string)>) returns (rules: seq<Rule>)
    ensures rules == TripleRules(triples)
  {
    rules := [];
    for i := 0 to |triples|
      invariant rules == TripleRules(triples[..i])
    {
      rules := rules + [NewRule(triples[i].2, Text(triples[i].0), Lit(triples[i].1))];
    }
    assert triples[..|triples|] == triples;
  }

  /** `generateLexicon` */
  method GenerateLexicon(tokens: seq<string>, sems: seq<Sem>, cats: seq<string>, callable: Sem -> bool) returns (rules: seq<Rule>)
    requires forall i :: 0 <= i < |sems| ==> IsAtom(sems[i])
    ensures rules == LexiconOf(tokens, sems, cats, callable)
  {
    var opCats, tokCats := SplitCats(cats);
    var opSems, tokSems := SplitSems(sems, callable);
    var triples := Cart3(tokens, opSems, opCats) + Cart3(tokens, tokSems, tokCats);
    rules := RulesOfTriples(triples);
  }

  /** Size of the lexicon: op triples plus token triples. */
  lemma LexiconSize(tokens: seq<string>, sems: seq<Sem>, cats: seq<string>, callable: Sem -> bool)
    ensures |LexiconOf(tokens, sems, cats, callable)| ==
      |tokens| * |FilterSems(sems, callable, true)| * |FilterCats(cats, true)|
      + |tokens| * |FilterSems(sems, callable, false)| * |FilterCats(cats, false)|
  {
    Cart3Size(tokens, FilterSems(sems, callable, true), FilterCats(cats, true));
    Cart3Size(tokens, FilterSems(sems, callable, false), FilterCats(cats, false));
  }

  /** Callable meanings go only with categories ending in `Op`, the other
      meanings only with the other categories; the op rules come first. */
  lemma LexiconKinds(tokens: seq<string>, sems: seq<Sem>, cats: seq<string>, callable: Sem -> bool, k: nat)
    requires k < |LexiconOf(tokens, sems, cats, callable)|
    ensures var r := LexiconOf(tokens, sems, cats, callable)[k];
      && r.sem.Lit? && r.sem.value in sems && r.lhs in cats
      && (IsOpCat(r.lhs) <==> callable(r.sem.value))
      && (IsOpCat(r.lhs) <==> k < |tokens| * |FilterSems(sems, callable, true)| * |FilterCats(cats, true)|)
  {
    var ops := Cart3(tokens, FilterSems(sems, callable, true), FilterCats(cats, true));
    var toks := Cart3(tokens, FilterSems(sems, callable, false), FilterCats(cats, false));
    Cart3Size(tokens, FilterSems(sems, callable, true), FilterCats(cats, true));
    if k < |ops| {
      KindStep(tokens, sems, cats, callable, true, k);
      assert (ops + toks)[k] == ops[k];
    } else {
      KindStep(tokens, sems, cats, callable, false, k - |ops|);
      assert (ops + toks)[k] == toks[k - |ops|];
    }
  }

  lemma KindStep(tokens: seq<string>, sems: seq<Sem>, cats: seq<string>, callable: Sem -> bool, op: bool, k: nat)
    requires k < |Cart3(tokens, FilterSems(sems, callable, op), FilterCats(cats, op))|
    ensures var t := Cart3(tokens, FilterSems(sems, callable, op), FilterCats(cats, op))[k];
      t.1 in sems && t.2 in cats && callable(t.1) == op && IsOpCat(t.2) == op
  {
    var ss := FilterSems(sems, callable, op);
    var cs := FilterCats(cats, op);
    Cart3Member(tokens, ss, cs, k);
    var t := Cart3(tokens, ss, cs)[k];
    var j := FirstIndex(ss, t.1);
    var c := FirstIndex(cs, t.2);
    FilterSemsMember(sems, callable, op, j);
    FilterCatsMember(cats, op, c);
  }

  /** Triple (token i, op meaning j, op category c) is rule (i * |opSems| + j) * |opCats| + c. */
  lemma TriplesAt(a: seq<string>, b: seq<Sem>, c: seq<string>, rest: seq<(string, Sem, string)>, i: nat, j: nat, m: nat, k: nat)
    requires i < |a| && j < |b| && m < |c| && k == (i * |b| + j) * |c| + m
    ensures k < |TripleRules(Cart3(a, b, c) + rest)|
    ensures TripleRules(Cart3(a, b, c) + rest)[k] == NewRule(c[m], Text(a[i]), Lit(b[j]))
  {
    Cart3At(a, b, c, i, j, m);
    assert (Cart3(a, b, c) + rest)[k] == Cart3(a, b, c)[k];
  }

  /** Token i, op meaning j and op category c make rule
      (i * |opSems| + j) * |opCats| + c. */
  lemma LexiconOpAt(tokens: seq<string>, sems: seq<Sem>, cats: seq<string>, callable: Sem -> bool, i: nat, j: nat, c: nat, k: nat)
    requires i < |tokens| && j < |FilterSems(sems, callable, true)| && c < |FilterCats(cats, true)|
    requires k == (i * |FilterSems(sems, callable, true)| + j) * |FilterCats(cats, true)| + c
    ensures k < |LexiconOf(tokens, sems, cats, callable)|
    ensures LexiconOf(tokens, sems, cats, callable)[k]
      == NewRule(FilterCats(cats, true)[c], Text(tokens[i]), Lit(FilterSems(sems, callable, true)[j]))
  {
    TriplesAt(tokens, FilterSems(sems, callable, true), FilterCats(cats, true),
              Cart3(tokens, FilterSems(sems, callable, false), FilterCats(cats, false)), i, j, c, k);
  }

  // ---------------------------------------------------------------------
  // gatherTokens

  function InputTokens<D>(examples: seq<Example<D>>): seq<string>
    decreases |examples|
  {
    if examples == [] then [] else InputTokens(examples[..|examples| - 1]) + Split(examples[|examples| - 1].input)
  }

  /** `gatherTokens`: the distinct whitespace-split tokens of the inputs,
      in first-seen order. */
  method GatherTokens<D>(examples: seq<Example<D>>) returns (tokens: seq<string>)
    ensures tokens == Dedup(InputTokens(examples))
  {
    tokens := [];
    for e := 0 to |examples|
      invariant tokens == Dedup(InputTokens(examples[..e]))
    {
      assert examples[..e + 1][..e] == examples[..e];
      tokens := AddTokens(tokens, InputTokens(examples[..e]), Split(examples[e].input));
    }
    assert examples[..|examples|] == examples;
  }

  /** The `forEach((tok) => tokens.add(tok))` of one input. */
  method AddTokens(tokens0: seq<string>, ghost seen: seq<string>, pieces: seq<string>) returns (tokens: seq<string>)
    requires tokens0 == Dedup(seen)
    ensures tokens == Dedup(seen + pieces)
  {
    tokens := tokens0;
    assert seen + pieces[..0] == seen;
    for j := 0 to |pieces|
      invariant tokens == Dedup(seen + pieces[..j])
    {
      var tok := pieces[j];
      ghost var acc := seen + pieces[..j];
      assert seen + pieces[..j + 1] == acc + [tok];
      DedupSnoc(acc, tok);
      if tok !in tokens {
        tokens := tokens + [tok];
      }
    }
    assert pieces[..|pieces|] == pieces;
  }

  /** The gathered tokens are distinct, each occurs in some input, each
      input token is gathered, and none contains whitespace. */
  lemma GatherTokensFacts<D>(examples: seq<Example<D>>)
    ensures var t := Dedup(InputTokens(examples));
      && NoDups(t)
      && (forall i :: 0 <= i < |t| ==> t[i] in InputTokens(examples) && NoSpace(t[i]))
      && (forall i :: 0 <= i < |InputTokens(examples)| ==> InputTokens(examples)[i] in t)
  {
    InputTokensNoSpace(examples);
    DedupProps(InputTokens(examples));
  }

  lemma {:induction false} InputTokensNoSpace<D>(examples: seq<Example<D>>)
    ensures forall i :: 0 <= i < |InputTokens(examples)| ==> NoSpace(InputTokens(examples)[i])
    decreases |examples|
  {
    if examples != [] {
      InputTokensNoSpace(examples[..|examples| - 1]);
      var a := InputTokens(examples[..|examples| - 1]);
      var b := Split(examples[|examples| - 1].input);
      assert forall i :: |a| <= i < |a + b| ==> (a + b)[i] == b[i - |a|];
    }
  }
}
