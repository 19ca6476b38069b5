/** The default grammar of demo.js on its two sample sentences, counted cell
    by cell: "one plus one" has exactly one `$E` parse and "minus three plus
    two" exactly two. */
module DemoSentences {
  import opened Wrappers
  import opened Sems
  import opened SemParser
  import opened ChartFacts
  import opened Collections
  import opened Demo
  import opened DemoCounts
  import opened DemoParses

  const OnePlusOneTokens: seq<string> := ["one", "plus", "one"]
  const MinusThreePlusTwoTokens: seq<string> := ["minus", "three", "plus", "two"]

  // ---------------------------------------------------------------------
  // "one plus one"

  lemma OnePlusOneLeaves(ix: Index, run: Runner, tokens: seq<string>)
    requires DefaultFacts(ix) && |tokens| == 3
    requires tokens[0] == "one" && tokens[1] == "plus" && tokens[2] == "one"
    ensures KindsOf(Cells(ix, run, tokens)(1, 0)) == Kinds(1, 0, 0, 0)
    ensures KindsOf(Cells(ix, run, tokens)(1, 1)) == Kinds(0, 0, 0, 1)
    ensures KindsOf(Cells(ix, run, tokens)(1, 2)) == Kinds(1, 0, 0, 0)
  {
    WordKinds();
    LeafKinds(ix, run, tokens, 0);
    LeafKinds(ix, run, tokens, 1);
    LeafKinds(ix, run, tokens, 2);
  }

  /** The arithmetic of span 2 at 0: numeral then operator give one `$EBO`. */
  lemma OnePlusOneSum20(k10: Kinds, k11: Kinds, k20: Kinds)
    requires k10 == Kinds(1, 0, 0, 0) && k11 == Kinds(0, 0, 0, 1)
    requires k20 == Add(Kinds(0, 0, 0, 0), Combine(k10, k11))
    ensures k20 == Kinds(0, 1, 0, 0)
  {
  }

  /** Span 2 at 1: operator then numeral build nothing. */
  lemma OnePlusOneSum21(k11: Kinds, k12: Kinds, k21: Kinds)
    requires k11 == Kinds(0, 0, 0, 1) && k12 == Kinds(1, 0, 0, 0)
    requires k21 == Add(Kinds(0, 0, 0, 0), Combine(k11, k12))
    ensures k21 == Kinds(0, 0, 0, 0)
  {
  }

  /** Span 3: only the split after `$EBO` contributes, with one `$E`. */
  lemma OnePlusOneSum30(k10: Kinds, k21: Kinds, k20: Kinds, k12: Kinds, k30: Kinds)
    requires k10 == Kinds(1, 0, 0, 0) && k21 == Kinds(0, 0, 0, 0) && k20 == Kinds(0, 1, 0, 0) && k12 == Kinds(1, 0, 0, 0)
    requires k30 == Add(Add(Kinds(0, 0, 0, 0), Combine(k10, k21)), Combine(k20, k12))
    ensures k30 == Kinds(1, 0, 0, 0)
  {
  }

  lemma OnePlusOneCell20(ix: Index, run: Runner, tokens: seq<string>)
    requires DefaultFacts(ix) && tokens == OnePlusOneTokens
    ensures KindsOf(Cells(ix, run, tokens)(2, 0)) == Kinds(0, 1, 0, 0)
  {
    var cell := Cells(ix, run, tokens);
    OnePlusOneLeaves(ix, run, tokens);
    SpanKindsAt(ix, run, tokens, 2, 0);
    OnePlusOneSum20(KindsOf(cell(1, 0)), KindsOf(cell(1, 1)), KindsOf(cell(2, 0)));
  }

  lemma OnePlusOneCell21(ix: Index, run: Runner, tokens: seq<string>)
    requires DefaultFacts(ix) && tokens == OnePlusOneTokens
    ensures KindsOf(Cells(ix, run, tokens)(2, 1)) == Kinds(0, 0, 0, 0)
  {
    var cell := Cells(ix, run, tokens);
    OnePlusOneLeaves(ix, run, tokens);
    SpanKindsAt(ix, run, tokens, 2, 1);
    OnePlusOneSum21(KindsOf(cell(1, 1)), KindsOf(cell(1, 2)), KindsOf(cell(2, 1)));
  }

  /** One `$E` over the whole sentence, and nothing else there. */
  lemma OnePlusOneKinds(ix: Index, run: Runner, tokens: seq<string>)
    requires DefaultFacts(ix) && tokens == OnePlusOneTokens
    ensures KindsOf(CellAt(ix, run, tokens, 3, 0)) == Kinds(1, 0, 0, 0)
  {
    var cell := Cells(ix, run, tokens);
    OnePlusOneLeaves(ix, run, tokens);
    OnePlusOneCell20(ix, run, tokens);
    OnePlusOneCell21(ix, run, tokens);
    SpanKindsAt(ix, run, tokens, 3, 0);
    OnePlusOneSum30(KindsOf(cell(1, 0)), KindsOf(cell(2, 1)), KindsOf(cell(2, 0)), KindsOf(cell(1, 2)), KindsOf(cell(3, 0)));
    CellsApply(ix, run, tokens, 3, 0);
  }

  // ---------------------------------------------------------------------
  // "minus three plus two"

  lemma MinusLeaves(ix: Index, run: Runner, tokens: seq<string>)
    requires DefaultFacts(ix) && |tokens| == 4
    requires tokens[0] == "minus" && tokens[1] == "three" && tokens[2] == "plus" && tokens[3] == "two"
    ensures KindsOf(Cells(ix, run, tokens)(1, 0)) == Kinds(0, 0, 1, 1)
    ensures KindsOf(Cells(ix, run, tokens)(1, 1)) == Kinds(1, 0, 0, 0)
    ensures KindsOf(Cells(ix, run, tokens)(1, 2)) == Kinds(0, 0, 0, 1)
    ensures KindsOf(Cells(ix, run, tokens)(1, 3)) == Kinds(1, 0, 0, 0)
  {
    WordKinds();
    LeafKinds(ix, run, tokens, 0);
    LeafKinds(ix, run, tokens, 1);
    LeafKinds(ix, run, tokens, 2);
    LeafKinds(ix, run, tokens, 3);
  }

  lemma MinusSum20(k10: Kinds, k11: Kinds, k20: Kinds)
    requires k10 == Kinds(0, 0, 1, 1) && k11 == Kinds(1, 0, 0, 0)
    requires k20 == Add(Kinds(0, 0, 0, 0), Combine(k10, k11))
    ensures k20 == Kinds(1, 0, 0, 0)
  {
  }

  lemma MinusSum21(k11: Kinds, k12: Kinds, k21: Kinds)
    requires k11 == Kinds(1, 0, 0, 0) && k12 == Kinds(0, 0, 0, 1)
    requires k21 == Add(Kinds(0, 0, 0, 0), Combine(k11, k12))
    ensures k21 == Kinds(0, 1, 0, 0)
  {
  }

  lemma MinusSum22(k12: Kinds, k13: Kinds, k22: Kinds)
    requires k12 == Kinds(0, 0, 0, 1) && k13 == Kinds(1, 0, 0, 0)
    requires k22 == Add(Kinds(0, 0, 0, 0), Combine(k12, k13))
    ensures k22 == Kinds(0, 0, 0, 0)
  {
  }

  lemma MinusSum30(k10: Kinds, k21: Kinds, k20: Kinds, k12: Kinds, k30: Kinds)
    requires k10 == Kinds(0, 0, 1, 1) && k21 == Kinds(0, 1, 0, 0) && k20 == Kinds(1, 0, 0, 0) && k12 == Kinds(0, 0, 0, 1)
    requires k30 == Add(Add(Kinds(0, 0, 0, 0), Combine(k10, k21)), Combine(k20, k12))
    ensures k30 == Kinds(0, 1, 0, 0)
  {
    assert Add(Kinds(0, 0, 0, 0), Combine(k10, k21)) == Kinds(0, 0, 0, 0);
  }

  lemma MinusSum31(k11: Kinds, k22: Kinds, k21: Kinds, k13: Kinds, k31: Kinds)
    requires k11 == Kinds(1, 0, 0, 0) && k22 == Kinds(0, 0, 0, 0) && k21 == Kinds(0, 1, 0, 0) && k13 == Kinds(1, 0, 0, 0)
    requires k31 == Add(Add(Kinds(0, 0, 0, 0), Combine(k11, k22)), Combine(k21, k13))
    ensures k31 == Kinds(1, 0, 0, 0)
  {
  }

  /** Span 4: the unary split and the `$EBO` split each give one `$E`. */
  lemma MinusSum40(k10: Kinds, k31: Kinds, k20: Kinds, k22: Kinds, k30: Kinds, k13: Kinds, k40: Kinds)
    requires k10 == Kinds(0, 0, 1, 1) && k31 == Kinds(1, 0, 0, 0) && k20 == Kinds(1, 0, 0, 0)
    requires k22 == Kinds(0, 0, 0, 0) && k30 == Kinds(0, 1, 0, 0) && k13 == Kinds(1, 0, 0, 0)
    requires k40 == Add(Add(Add(Kinds(0, 0, 0, 0), Combine(k10, k31)), Combine(k20, k22)), Combine(k30, k13))
    ensures k40 == Kinds(2, 0, 0, 0)
  {
  }

  lemma MinusCell20(ix: Index, run: Runner, tokens: seq<string>)
    requires DefaultFacts(ix) && tokens == MinusThreePlusTwoTokens
    ensures KindsOf(Cells(ix, run, tokens)(2, 0)) == Kinds(1, 0, 0, 0)
  {
    var cell := Cells(ix, run, tokens);
    MinusLeaves(ix, run, tokens);
    SpanKindsAt(ix, run, tokens, 2, 0);
    MinusSum20(KindsOf(cell(1, 0)), KindsOf(cell(1, 1)), KindsOf(cell(2, 0)));
  }

  lemma MinusCell21(ix: Index, run: Runner, tokens: seq<string>)
    requires DefaultFacts(ix) && tokens == MinusThreePlusTwoTokens
    ensures KindsOf(Cells(ix, run, tokens)(2, 1)) == Kinds(0, 1, 0, 0)
  {
    var cell := Cells(ix, run, tokens);
    MinusLeaves(ix, run, tokens);
    SpanKindsAt(ix, run, tokens, 2, 1);
    MinusSum21(KindsOf(cell(1, 1)), KindsOf(cell(1, 2)), KindsOf(cell(2, 1)));
  }

  lemma MinusCell22(ix: Index, run: Runner, tokens: seq<string>)
    requires DefaultFacts(ix) && tokens == MinusThreePlusTwoTokens
    ensures KindsOf(Cells(ix, run, tokens)(2, 2)) == Kinds(0, 0, 0, 0)
  {
    var cell := Cells(ix, run, tokens);
    MinusLeaves(ix, run, tokens);
    SpanKindsAt(ix, run, tokens, 2, 2);
    MinusSum22(KindsOf(cell(1, 2)), KindsOf(cell(1, 3)), KindsOf(cell(2, 2)));
  }

  lemma MinusCell30(ix: Index, run: Runner, tokens: seq<string>)
    requires DefaultFacts(ix) && tokens == MinusThreePlusTwoTokens
    ensures KindsOf(Cells(ix, run, tokens)(3, 0)) == Kinds(0, 1, 0, 0)
  {
    var cell := Cells(ix, run, tokens);
    MinusLeaves(ix, run, tokens);
    MinusCell20(ix, run, tokens);
    MinusCell21(ix, run, tokens);
    SpanKindsAt(ix, run, tokens, 3, 0);
    MinusSum30(KindsOf(cell(1, 0)), KindsOf(cell(2, 1)), KindsOf(cell(2, 0)), KindsOf(cell(1, 2)), KindsOf(cell(3, 0)));
  }

  lemma MinusCell31(ix: Index, run: Runner, tokens: seq<string>)
    requires DefaultFacts(ix) && tokens == MinusThreePlusTwoTokens
    ensures KindsOf(Cells(ix, run, tokens)(3, 1)) == Kinds(1, 0, 0, 0)
  {
    var cell := Cells(ix, run, tokens);
    MinusLeaves(ix, run, tokens);
    MinusCell21(ix, run, tokens);
    MinusCell22(ix, run, tokens);
    SpanKindsAt(ix, run, tokens, 3, 1);
    MinusSum31(KindsOf(cell(1, 1)), KindsOf(cell(2, 2)), KindsOf(cell(2, 1)), KindsOf(cell(1, 3)), KindsOf(cell(3, 1)));
  }

  lemma MinusCell40(ix: Index, run: Runner, tokens: seq<string>)
    requires DefaultFacts(ix) && tokens == MinusThreePlusTwoTokens
    ensures KindsOf(Cells(ix, run, tokens)(4, 0)) == Kinds(2, 0, 0, 0)
  {
    var cell := Cells(ix, run, tokens);
    MinusLeaves(ix, run, tokens);
    MinusCell20(ix, run, tokens);
    MinusCell22(ix, run, tokens);
    MinusCell30(ix, run, tokens);
    MinusCell31(ix, run, tokens);
    SpanKindsAt(ix, run, tokens, 4, 0);
    MinusSum40(KindsOf(cell(1, 0)), KindsOf(cell(3, 1)), KindsOf(cell(2, 0)), KindsOf(cell(2, 2)),
      KindsOf(cell(3, 0)), KindsOf(cell(1, 3)), KindsOf(cell(4, 0)));
  }

  /** Two `$E` over the whole sentence: one from the first split and one
      from the last. */
  lemma MinusKinds(ix: Index, run: Runner, tokens: seq<string>)
    requires DefaultFacts(ix) && tokens == MinusThreePlusTwoTokens
    ensures KindsOf(CellAt(ix, run, tokens, 4, 0)) == Kinds(2, 0, 0, 0)
  {
    MinusCell40(ix, run, tokens);
    CellsApply(ix, run, tokens, 4, 0);
  }
}
