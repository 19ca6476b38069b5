/** The JavaScript values that serve as meanings (semantics) of derivations:
    numbers, strings and (nested) arrays, plus `null` and function values. */
module Sems {
  import opened JsText

  /** A meaning. `Null` stands for both `null` and `undefined` wherever the
      code treats them alike (`== null`, `.constructor` throwing). `Func` is a
      JavaScript function value, known by its source text. Numbers are
      integers. */
  datatype Sem = Null | Num(n: int) | Str(s: string) | Arr(items: seq<Sem>) | Func(source: string)

  predicate IsAtom(x: Sem) {
    !x.Arr?
  }

  /** No `null` anywhere inside `x`. */
  predicate NullFree(x: Sem)
    decreases x
  {
    match x
    case Null => false
    case Arr(items) => forall i :: 0 <= i < |items| ==> NullFree(items[i])
    case _ => true
  }

  /** `String(x)`. Arrays print as their elements joined by commas, where a
      null element prints as the empty string. */
  function ToJsString(x: Sem): string
    decreases x, 0
  {
    match x
    case Null => "null"
    case Num(n) => IntToString(n)
    case Str(s) => s
    case Func(src) => src
    case Arr(items) => Join(seq(|items|, i requires 0 <= i < |items| => ElementString(items[i])), ",")
  }

  function ElementString(x: Sem): string
    decreases x, 1
  {
    if x.Null? then "" else ToJsString(x)
  }

  /** `a === b`. Two array values are taken to be distinct objects. */
  predicate StrictEquals(a: Sem, b: Sem) {
    !a.Arr? && a == b
  }

  /** The head element of an array meaning, `xs[0]`, which is `undefined` on
      an empty array. */
  datatype Head = Undefined | HeadOf(value: Sem)

  function HeadString(h: Head): string {
    match h
    case Undefined => "undefined"
    case HeadOf(v) => ToJsString(v)
  }

  predicate HeadEquals(a: Head, b: Head) {
    match (a, b)
    case (Undefined, Undefined) => true
    case (HeadOf(x), HeadOf(y)) => StrictEquals(x, y)
    case _ => false
  }

  /** `sem_eq`: false when either side is `null` or `undefined`, true when
      the two are `===`, element by element on two arrays of the same length,
      and falsy (`undefined`) in every other case. */
  predicate SemEq(a: Sem, b: Sem)
    decreases a
  {
    if a.Null? || b.Null? then false
    else if StrictEquals(a, b) then true
    else if a.Arr? && b.Arr? && |a.items| == |b.items| then
      forall i :: 0 <= i < |a.items| ==> SemEq(a.items[i], b.items[i])
    else false
  }

  /** `sem_eq` is structural equality restricted to null-free meanings. */
  lemma {:induction false} SemEqStructural(a: Sem, b: Sem)
    ensures SemEq(a, b) <==> a == b && NullFree(a)
    decreases a
  {
    if a.Arr? && b.Arr? && |a.items| == |b.items| {
      forall i | 0 <= i < |a.items| {
        SemEqStructural(a.items[i], b.items[i]);
      }
      if SemEq(a, b) {
        assert a.items == b.items;
      }
    }
  }

  /** On null-free meanings `sem_eq` is reflexive; it is symmetric everywhere. */
  lemma SemEqReflexiveSymmetric(a: Sem, b: Sem)
    ensures SemEq(a, a) <==> NullFree(a)
    ensures SemEq(a, b) ==> SemEq(b, a)
  {
    SemEqStructural(a, a);
    SemEqStructural(a, b);
    SemEqStructural(b, a);
  }

  /** `sem_eq(null, null)` is false, `sem_eq(1, "1")` is false, and argument
      order inside an array matters. */
  lemma SemEqExamples()
    ensures !SemEq(Null, Null)
    ensures !SemEq(Num(1), Str("1"))
    ensures !SemEq(Arr([Str("+"), Num(1), Num(2)]), Arr([Str("+"), Num(2), Num(1)]))
    ensures SemEq(Arr([Str("+"), Num(1), Num(2)]), Arr([Str("+"), Num(1), Num(2)]))
  {
    var a := Arr([Str("+"), Num(1), Num(2)]);
    var b := Arr([Str("+"), Num(2), Num(1)]);
    assert !SemEq(a.items[1], b.items[1]);
    assert NullFree(a) by {
      assert forall i :: 0 <= i < |a.items| ==> NullFree(a.items[i]);
    }
    SemEqStructural(a, a);
  }
}
