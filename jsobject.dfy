/** Plain JavaScript objects (`{}`) used as dictionaries: the names every
    such object inherits from `Object.prototype`, and the order in which
    `for (key in o)` lists its own keys. */
module JsObject {
  import opened JsText

  /** The properties of `Object.prototype`. `name in o` and `o[name]` find
      them on every plain object, even one that never had them assigned. */
  const PrototypeNames: set<string> := {
    "constructor", "hasOwnProperty", "isPrototypeOf", "propertyIsEnumerable",
    "toLocaleString", "toString", "valueOf", "__proto__",
    "__defineGetter__", "__defineSetter__", "__lookupGetter__", "__lookupSetter__"
  }

  predicate Inherited(name: string) {
    name in PrototypeNames
  }

  /** An array index: the canonical decimal numeral of an integer below
      2^32 - 1 ("0", "7", "42", but not "007", "-1" or "$E"). */
  predicate IsArrayIndex(k: string) {
    k != [] && AllDigits(k) && (k[0] == '0' ==> |k| == 1) && DigitsValue(k) < 0xFFFF_FFFF
  }

  function IndexValue(k: string): nat {
    if AllDigits(k) then DigitsValue(k) else 0
  }

  /** The keys of `added` that are (or are not) array indices, order kept. */
  function IndexKeys(added: seq<string>, index: bool): (r: seq<string>)
    ensures forall i :: 0 <= i < |r| ==> IsArrayIndex(r[i]) == index
    decreases |added|
  {
    if added == [] then []
    else
      var k := added[|added| - 1];
      IndexKeys(added[..|added| - 1], index) + (if IsArrayIndex(k) == index then [k] else [])
  }

  predicate Ascending(xs: seq<string>) {
    forall i, j :: 0 <= i < j < |xs| ==> IndexValue(xs[i]) <= IndexValue(xs[j])
  }

  function InsertIndex(k: string, xs: seq<string>): (r: seq<string>)
    ensures multiset(r) == multiset(xs) + multiset{k}
    decreases |xs|
  {
    if xs == [] then [k]
    else if IndexValue(k) <= IndexValue(xs[0]) then [k] + xs
    else
      assert xs == [xs[0]] + xs[1..];
      [xs[0]] + InsertIndex(k, xs[1..])
  }

  function SortIndices(xs: seq<string>): (r: seq<string>)
    ensures multiset(r) == multiset(xs)
    decreases |xs|
  {
    if xs == [] then []
    else
      assert xs == [xs[0]] + xs[1..];
      InsertIndex(xs[0], SortIndices(xs[1..]))
  }

  /** The order in which `for (key in o)` visits the own keys of a plain
      object whose keys were added in the order `added`: the array indices
      first, in ascending numeric order, then the other keys in insertion
      order (the OrdinaryOwnPropertyKeys order of ECMAScript). */
  function OwnKeys(added: seq<string>): seq<string> {
    SortIndices(IndexKeys(added, true)) + IndexKeys(added, false)
  }

  lemma {:induction false} InsertAscending(k: string, xs: seq<string>)
    requires Ascending(xs)
    ensures Ascending(InsertIndex(k, xs))
    decreases |xs|
  {
    if xs != [] && IndexValue(k) > IndexValue(xs[0]) {
      var tail := xs[1..];
      InsertAscending(k, tail);
      var t := InsertIndex(k, tail);
      forall j | 0 <= j < |t|
        ensures IndexValue(xs[0]) <= IndexValue(t[j])
      {
        assert t[j] in multiset(t);
        if t[j] != k {
          assert t[j] in multiset(tail);
          var m :| 0 <= m < |tail| && tail[m] == t[j];
          assert xs[m + 1] == t[j];
        }
      }
    }
  }

  lemma {:induction false} SortAscending(xs: seq<string>)
    ensures Ascending(SortIndices(xs))
    decreases |xs|
  {
    if xs != [] {
      SortAscending(xs[1..]);
      InsertAscending(xs[0], SortIndices(xs[1..]));
    }
  }

  lemma {:induction false} IndexKeysSplit(added: seq<string>)
    ensures multiset(IndexKeys(added, true)) + multiset(IndexKeys(added, false)) == multiset(added)
    decreases |added|
  {
    if added != [] {
      var init := added[..|added| - 1];
      IndexKeysSplit(init);
      assert added == init + [added[|added| - 1]];
    }
  }

  lemma {:induction false} IndexKeysAll(added: seq<string>)
    requires forall i :: 0 <= i < |added| ==> !IsArrayIndex(added[i])
    ensures IndexKeys(added, false) == added && IndexKeys(added, true) == []
    decreases |added|
  {
    if added != [] {
      var init := added[..|added| - 1];
      IndexKeysAll(init);
      assert added == init + [added[|added| - 1]];
    }
  }

  /** `for (key in o)` visits every own key exactly as often as it was
      added; the array indices come first, in ascending numeric order, and
      the other keys follow in insertion order. */
  lemma OwnKeysFacts(added: seq<string>)
    ensures multiset(OwnKeys(added)) == multiset(added)
    ensures forall k :: k in OwnKeys(added) <==> k in added
    ensures var r, n := OwnKeys(added), |IndexKeys(added, true)|;
      n <= |r| && Ascending(r[..n]) && r[n..] == IndexKeys(added, false) &&
      forall i :: 0 <= i < |r| ==> (IsArrayIndex(r[i]) <==> i < n)
  {
    var idx := IndexKeys(added, true);
    var sorted := SortIndices(idx);
    var r := OwnKeys(added);
    IndexKeysSplit(added);
    SortAscending(idx);
    assert |sorted| == |idx| by {
      assert |multiset(sorted)| == |multiset(idx)|;
    }
    assert r[..|idx|] == sorted;
    forall k
      ensures k in r <==> k in added
    {
      calc {
        k in r;
        k in multiset(r);
        k in multiset(added);
        k in added;
      }
    }
    forall i | 0 <= i < |r|
      ensures IsArrayIndex(r[i]) <==> i < |idx|
    {
      if i < |idx| {
        assert r[i] in multiset(sorted);
        assert r[i] in multiset(idx);
      }
    }
  }

  /** With no array-index key, `for (key in o)` keeps insertion order. */
  lemma OwnKeysPlain(added: seq<string>)
    requires forall i :: 0 <= i < |added| ==> !IsArrayIndex(added[i])
    ensures OwnKeys(added) == added
  {
    IndexKeysAll(added);
  }

  /** A key added after "$E" but spelled as an integer is visited first. */
  lemma OwnKeysIndexFirst()
    ensures OwnKeys(["$E", "0"]) == ["0", "$E"]
  {
    assert IsArrayIndex("0") by {
      assert DigitsValue("0") == DigitsValue("") * 10 + 0;
    }
    assert ["$E", "0"][..1] == ["$E"];
    assert IndexKeys(["$E"], false) == ["$E"];
  }
}
