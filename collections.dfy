/** Insertion-ordered sets and dictionary lookups with a default, as the
    JavaScript code gets them from `Set`, `Array.from` and `obj[k] || []`. */
module Collections {

  predicate NoDups<T(==)>(xs: seq<T>) {
    forall i, j :: 0 <= i < j < |xs| ==> xs[i] != xs[j]
  }

  /** Index of the first occurrence of `x` in `xs`. */
  function FirstIndex<T(==)>(xs: seq<T>, x: T): (k: nat)
    requires x in xs
    ensures k < |xs| && xs[k] == x && x !in xs[..k]
  {
    if xs[0] == x then 0 else 1 + FirstIndex(xs[1..], x)
  }

  /** `Array.from(new Set(xs))`: the distinct elements in first-seen order.
      Defined element by element from the left, as `Set.prototype.add` does. */
  function Dedup<T(==)>(xs: seq<T>): seq<T>
    decreases |xs|
  {
    if xs == [] then []
    else
      var d := Dedup(xs[..|xs| - 1]);
      var x := xs[|xs| - 1];
      if x in d then d else d + [x]
  }

  /** `Dedup` keeps each element once and loses none. */
  lemma {:induction false} DedupProps<T>(xs: seq<T>)
    ensures NoDups(Dedup(xs))
    ensures forall i :: 0 <= i < |Dedup(xs)| ==> Dedup(xs)[i] in xs
    ensures forall i :: 0 <= i < |xs| ==> xs[i] in Dedup(xs)
    decreases |xs|
  {
    if xs != [] {
      var init, x := xs[..|xs| - 1], xs[|xs| - 1];
      var d := Dedup(init);
      DedupProps(init);
      assert xs == init + [x];
      var r := Dedup(xs);
      assert r == if x in d then d else d + [x];
      forall i, j | 0 <= i < j < |r| ensures r[i] != r[j] {
        if j == |d| {
          assert r[i] == d[i] && r[j] == x;
        } else {
          assert r[i] == d[i] && r[j] == d[j];
        }
      }
      forall i | 0 <= i < |r| ensures r[i] in xs {
        if i < |d| {
          assert r[i] == d[i] && d[i] in init;
        }
      }
      forall i | 0 <= i < |xs| ensures xs[i] in r {
        if i < |init| {
          assert xs[i] == init[i];
        }
      }
    }
  }

  /** Positions in `Dedup(xs)` follow the positions of first occurrence in `xs`. */
  lemma {:induction false} DedupFirstSeen<T>(xs: seq<T>, i: nat, j: nat)
    requires i < j < |Dedup(xs)|
    ensures Dedup(xs)[i] in xs && Dedup(xs)[j] in xs
    ensures FirstIndex(xs, Dedup(xs)[i]) < FirstIndex(xs, Dedup(xs)[j])
    decreases |xs|
  {
    DedupProps(xs);
    var init := xs[..|xs| - 1];
    DedupProps(init);
    var d := Dedup(init);
    var x := xs[|xs| - 1];
    var r := Dedup(xs);
    assert xs == init + [x];
    if j < |d| {
      assert r[i] == d[i] && r[j] == d[j];
      DedupFirstSeen(init, i, j);
      FirstIndexPrefix(init, x, d[i]);
      FirstIndexPrefix(init, x, d[j]);
    } else {
      assert r == d + [x] && r[j] == x && x !in init;
      assert r[i] == d[i] && d[i] in init;
      FirstIndexPrefix(init, x, d[i]);
      FirstIndexOfLast(init, x);
    }
  }

  /** The first occurrence is the only position holding `x` with no `x` before it. */
  lemma {:induction false} FirstIndexUnique<T>(xs: seq<T>, x: T, k: nat)
    requires k < |xs| && xs[k] == x && x !in xs[..k]
    ensures FirstIndex(xs, x) == k
    decreases k
  {
    if k > 0 {
      assert xs[0] in xs[..k];
      assert xs[1..][k - 1] == x;
      assert xs[1..][..k - 1] == xs[..k][1..];
      FirstIndexUnique(xs[1..], x, k - 1);
    }
  }

  lemma {:induction false} FirstIndexPrefix<T>(init: seq<T>, x: T, y: T)
    requires y in init
    ensures FirstIndex(init + [x], y) == FirstIndex(init, y)
  {
    var k := FirstIndex(init, y);
    assert (init + [x])[..k] == init[..k];
    FirstIndexUnique(init + [x], y, k);
  }

  lemma {:induction false} FirstIndexOfLast<T>(init: seq<T>, x: T)
    requires x !in init
    ensures FirstIndex(init + [x], x) == |init|
  {
    assert (init + [x])[..|init|] == init;
    FirstIndexUnique(init + [x], x, |init|);
  }

  /** Adding one element to the input of `Dedup`. */
  lemma DedupSnoc<T>(xs: seq<T>, x: T)
    ensures Dedup(xs + [x]) == if x in Dedup(xs) then Dedup(xs) else Dedup(xs) + [x]
  {
    assert (xs + [x])[..|xs|] == xs;
  }

  function MapGet<K, V>(m: map<K, seq<V>>, k: K): seq<V> {
    if k in m then m[k] else []
  }

  lemma {:induction false} DistinctCard<T>(xs: seq<T>)
    requires NoDups(xs)
    ensures |set i | 0 <= i < |xs| :: xs[i]| == |xs|
    decreases |xs|
  {
    if xs != [] {
      var init := xs[..|xs| - 1];
      DistinctCard(init);
      var s0 := set i | 0 <= i < |init| :: init[i];
      assert (set i | 0 <= i < |xs| :: xs[i]) == s0 + {xs[|xs| - 1]};
      assert xs[|xs| - 1] !in s0;
    }
  }

  /** `n` distinct integers from `[0, n)` are all of them. */
  lemma DistinctBelow(xs: seq<int>, n: nat)
    requires NoDups(xs) && |xs| == n && forall i :: 0 <= i < |xs| ==> 0 <= xs[i] < n
    ensures forall j :: 0 <= j < n <==> j in xs
  {
    var have := set i | 0 <= i < |xs| :: xs[i];
    var ids := seq(n, j => j);
    var range := set i | 0 <= i < |ids| :: ids[i];
    DistinctCard(xs);
    DistinctCard(ids);
    assert have <= range by {
      forall i | 0 <= i < |xs|
        ensures xs[i] in range
      {
        assert ids[xs[i]] == xs[i];
      }
    }
    assert |range - have| == 0 by {
      assert range == have + (range - have);
    }
    assert range == have by {
      assert range - have == {};
    }
    forall j | 0 <= j < n
      ensures j in xs
    {
      assert ids[j] in range;
    }
  }
}
