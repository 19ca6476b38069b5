/** The JavaScript string primitives the semantic parser relies on:
    `split(/[\s]+/)`, `trim()`, `join`, `startsWith`/`endsWith`, and the
    decimal printing and reading of integers. */
module JsText {
  import opened Wrappers

  /** The characters of the ECMAScript WhiteSpace and LineTerminator
      productions, which is what both `\s` and `String.prototype.trim` match. */
  predicate IsSpace(c: char) {
    var k := c as int;
    (9 <= k <= 13) || k == 32 || k == 0xA0 || k == 0x1680 || (0x2000 <= k <= 0x200A)
    || k == 0x2028 || k == 0x2029 || k == 0x202F || k == 0x205F || k == 0x3000 || k == 0xFEFF
  }

  predicate NoSpace(s: string) {
    forall i :: 0 <= i < |s| ==> !IsSpace(s[i])
  }

  predicate AllSpace(s: string) {
    forall i :: 0 <= i < |s| ==> IsSpace(s[i])
  }

  predicate StartsWith(s: string, prefix: string) {
    |prefix| <= |s| && s[..|prefix|] == prefix
  }

  predicate EndsWith(s: string, suffix: string) {
    |suffix| <= |s| && s[|s| - |suffix|..] == suffix
  }

  /** Length of the longest whitespace-free prefix of `s`. */
  function WordLen(s: string): (n: nat)
    ensures n <= |s|
    ensures NoSpace(s[..n])
    ensures n < |s| ==> IsSpace(s[n])
  {
    if s == [] || IsSpace(s[0]) then 0 else 1 + WordLen(s[1..])
  }

  /** `s.trimStart()`: drops the leading whitespace. */
  function TrimStart(s: string): (r: string)
    ensures |r| <= |s| && r == s[|s| - |r|..]
    ensures AllSpace(s[..|s| - |r|])
    ensures r == [] || !IsSpace(r[0])
  {
    if s == [] || !IsSpace(s[0]) then s else TrimStart(s[1..])
  }

  /** `s.trimEnd()`: drops the trailing whitespace. */
  function TrimEnd(s: string): (r: string)
    ensures |r| <= |s| && r == s[..|r|]
    ensures AllSpace(s[|r|..])
    ensures r == [] || !IsSpace(r[|r| - 1])
  {
    if s == [] || !IsSpace(s[|s| - 1]) then s else TrimEnd(s[..|s| - 1])
  }

  /** `s.trim()` */
  function Trim(s: string): string {
    TrimEnd(TrimStart(s))
  }

  /** `s.split(/[\s]+/)`: the pieces between maximal whitespace runs. Only the
      first piece (leading whitespace) and the last (trailing whitespace) can
      be empty; the empty string splits into the single piece "". */
  function Split(s: string): (r: seq<string>)
    ensures |r| >= 1
    ensures forall i :: 0 <= i < |r| ==> NoSpace(r[i])
    ensures forall i :: 0 < i < |r| - 1 ==> r[i] != []
    decreases |s|
  {
    var n := WordLen(s);
    if n == |s| then [s] else [s[..n]] + Split(TrimStart(s[n..]))
  }

  /** Auxiliary scanner (not a JavaScript primitive): the non-empty
      whitespace-free words of `s`, in order. */
  function Words(s: string): (r: seq<string>)
    ensures forall i :: 0 <= i < |r| ==> r[i] != [] && NoSpace(r[i])
    decreases |s|
  {
    if s == [] then []
    else if IsSpace(s[0]) then Words(s[1..])
    else var n := WordLen(s); [s[..n]] + Words(s[n..])
  }

  /** `xs.join(sep)` */
  function Join(xs: seq<string>, sep: string): string
    decreases |xs|
  {
    if xs == [] then "" else if |xs| == 1 then xs[0] else xs[0] + sep + Join(xs[1..], sep)
  }

  lemma {:induction false} WordsAllSpace(s: string)
    requires AllSpace(s)
    ensures Words(s) == []
    decreases |s|
  {
    if s != [] {
      WordsAllSpace(s[1..]);
    }
  }

  lemma {:induction false} WordsOfWord(w: string)
    requires w != [] && NoSpace(w)
    ensures Words(w) == [w]
  {
    WordLenOfWord(w);
    assert w[|w|..] == [];
    assert w[..|w|] == w;
  }

  lemma {:induction false} WordLenOfWord(w: string)
    requires NoSpace(w)
    ensures WordLen(w) == |w|
    decreases |w|
  {
    if w != [] {
      WordLenOfWord(w[1..]);
    }
  }

  /** The word length of a string does not look past the first whitespace. */
  lemma {:induction false} WordLenPrefix(a: string, b: string)
    requires |a| > WordLen(a) || (b != [] && IsSpace(b[0]))
    ensures WordLen(a + b) == WordLen(a)
    decreases |a|
  {
    if a != [] && !IsSpace(a[0]) {
      assert (a + b)[1..] == a[1..] + b;
      WordLenPrefix(a[1..], b);
    }
  }

  /** A single whitespace character separates the words of its two sides. */
  lemma {:induction false} WordsSep(a: string, c: char, b: string)
    requires IsSpace(c)
    ensures Words(a + [c] + b) == Words(a) + Words(b)
    decreases |a|
  {
    var s := a + [c] + b;
    if a == [] {
      assert s[1..] == b;
    } else if IsSpace(a[0]) {
      assert s[1..] == a[1..] + [c] + b;
      WordsSep(a[1..], c, b);
    } else {
      var m := WordLen(a);
      WordLenPrefix(a, [c] + b);
      assert a + [c] + b == a + ([c] + b);
      assert WordLen(s) == m;
      assert s[..m] == a[..m];
      if m < |a| {
        assert s[m..] == a[m..] + [c] + b;
        WordsSep(a[m..], c, b);
      } else {
        assert s[m..] == [c] + b;
        assert ([c] + b)[1..] == b;
        assert a[m..] == [];
        assert a[..m] == a;
      }
    }
  }

  lemma {:induction false} WordsTrimStart(s: string)
    ensures Words(TrimStart(s)) == Words(s)
    decreases |s|
  {
    if s != [] && IsSpace(s[0]) {
      WordsTrimStart(s[1..]);
    }
  }

  lemma {:induction false} WordsTrimEnd(s: string)
    ensures Words(TrimEnd(s)) == Words(s)
  {
    var r := TrimEnd(s);
    if |r| < |s| {
      var tail := s[|r| + 1..];
      assert s == r + [s[|r|]] + tail;
      WordsSep(r, s[|r|], tail);
      WordsAllSpace(tail);
      assert Words(s) == Words(r) + [];
    }
  }

  /** On a string that starts and ends with a non-space character, the
      JavaScript split and the word scanner agree. */
  lemma {:induction false} SplitTrimmed(t: string)
    requires t != [] && !IsSpace(t[0]) && !IsSpace(t[|t| - 1])
    ensures Split(t) == Words(t)
    decreases |t|
  {
    var n := WordLen(t);
    if n == |t| {
      assert t[n..] == [];
      assert t[..n] == t;
    } else {
      var rest := TrimStart(t[n..]);
      assert t[n..][|t| - 1 - n] == t[|t| - 1];
      assert !AllSpace(t[n..]);
      assert rest[|rest| - 1] == t[|t| - 1];
      SplitTrimmed(rest);
      WordsTrimStart(t[n..]);
    }
  }

  lemma {:induction false} TrimAllSpace(s: string)
    ensures Trim(s) == [] <==> AllSpace(s)
  {
    var a := TrimStart(s);
    if Trim(s) == [] {
      assert a == [];
      assert s[..|s|] == s;
    }
  }

  /** `trim()` keeps the words and leaves no whitespace at either end. */
  lemma TrimWords(s: string)
    ensures Words(Trim(s)) == Words(s)
    ensures Trim(s) != [] ==> !IsSpace(Trim(s)[0]) && !IsSpace(Trim(s)[|Trim(s)| - 1])
  {
    var a := TrimStart(s);
    WordsTrimStart(s);
    WordsTrimEnd(a);
    var t := TrimEnd(a);
    if t != [] {
      assert t == a[..|t|];
      assert t[0] == a[0];
    }
  }

  /** What `trim()` followed by `split(/[\s]+/)` yields: the words of the
      string, or the single empty piece when there are none. */
  lemma SplitTrim(s: string)
    ensures Split(Trim(s)) == if Words(s) == [] then [""] else Words(s)
  {
    var t := Trim(s);
    TrimWords(s);
    if t == [] {
      assert Words(s) == [];
    } else {
      SplitTrimmed(t);
    }
  }

  // ---------------------------------------------------------------------
  // Decimal printing (`Number.prototype.toString`) and reading of integers

  predicate IsDigit(c: char) {
    '0' <= c <= '9'
  }

  predicate AllDigits(s: string) {
    forall i :: 0 <= i < |s| ==> IsDigit(s[i])
  }

  function DigitChar(d: nat): (c: char)
    requires d < 10
    ensures IsDigit(c) && c as int - '0' as int == d
  {
    ('0' as int + d) as char
  }

  /** The shortest decimal numeral of `n`. */
  function NatToString(n: nat): (s: string)
    ensures s != [] && AllDigits(s)
    ensures s[0] == '0' ==> n == 0 && s == "0"
    decreases n
  {
    if n < 10 then [DigitChar(n)] else NatToString(n / 10) + [DigitChar(n % 10)]
  }

  /** `String(i)` for an integer `i`. */
  function IntToString(i: int): string {
    if i < 0 then "-" + NatToString(-i) else NatToString(i)
  }

  function DigitsValue(s: string): nat
    requires AllDigits(s)
    decreases |s|
  {
    if s == [] then 0 else DigitsValue(s[..|s| - 1]) * 10 + (s[|s| - 1] as int - '0' as int)
  }

  /** Reads a token that is an optional minus sign followed by decimal digits. */
  function ParseDecimal(s: string): Option<int> {
    if s != [] && s[0] == '-' && |s| > 1 && AllDigits(s[1..]) then Some(0 - DigitsValue(s[1..]) as int)
    else if s != [] && AllDigits(s) then Some(DigitsValue(s))
    else None
  }

  lemma {:induction false} DigitsValueOfNat(n: nat)
    ensures DigitsValue(NatToString(n)) == n
    decreases n
  {
    var s := NatToString(n);
    if n >= 10 {
      DigitsValueOfNat(n / 10);
      assert s[..|s| - 1] == NatToString(n / 10);
    }
  }

  /** Printing an integer and reading it back gives the integer. */
  lemma IntToStringParses(i: int)
    ensures ParseDecimal(IntToString(i)) == Some(i)
  {
    if i < 0 {
      var s := IntToString(i);
      assert s[1..] == NatToString(-i);
      DigitsValueOfNat(-i);
    } else {
      DigitsValueOfNat(i);
    }
  }

  lemma IntToStringInjective(i: int, j: int)
    requires IntToString(i) == IntToString(j)
    ensures i == j
  {
    IntToStringParses(i);
    IntToStringParses(j);
  }

  lemma IntToStringNoSpace(i: int)
    ensures IntToString(i) != [] && NoSpace(IntToString(i))
  {
    var s := IntToString(i);
    if i >= 0 {
      assert forall k :: 0 <= k < |s| ==> IsDigit(s[k]);
    } else {
      assert forall k :: 1 <= k < |s| ==> s[k] == NatToString(-i)[k - 1];
    }
  }
}
