/** The Scheme-subset interpreter of lisp.js restricted to integers: the
    tokenizer, the reader over a shared token array, the printer, the
    environment chain and the evaluator. */
module Lisp {
  import opened Wrappers
  import opened JsText

  /** A value of the interpreter. The reader produces numbers, symbols
      (JavaScript strings) and lists (arrays); evaluation adds booleans,
      the standard procedures (known by name), closures and `undefined`.
      A closure remembers its parameter list, its body and the index of
      the frame it was created in. */
  datatype Val =
    | Num(n: int)
    | Sym(s: string)
    | List(items: seq<Val>)
    | Bool(b: bool)
    | Prim(name: string)
    | Proc(parms: seq<Val>, body: Val, env: nat)
    | Undef

  /** What the reader can produce. */
  predicate IsSource(v: Val)
    decreases v
  {
    match v
    case Num(_) => true
    case Sym(_) => true
    case List(items) => forall i :: 0 <= i < |items| ==> IsSource(items[i])
    case _ => false
  }

  // ---------------------------------------------------------------------
  // Tokenizer

  predicate IsParen(c: char) {
    c == '(' || c == ')'
  }

  predicate IsDelimiter(c: char) {
    IsSpace(c) || IsParen(c)
  }

  /** One character after `replace(/[(]/g, " ( ").replace(/[)]/g, " ) ")`. */
  function PadChar(c: char): string {
    if c == '(' then " ( " else if c == ')' then " ) " else [c]
  }

  function Pad(s: string): string
    decreases |s|
  {
    if s == [] then [] else PadChar(s[0]) + Pad(s[1..])
  }

  /** `tokenize(chars)` */
  function Tokenize(chars: string): seq<string> {
    Split(Trim(Pad(chars)))
  }

  /** Length of the longest prefix free of whitespace and parentheses. */
  function AtomLen(s: string): (n: nat)
    ensures n <= |s|
    ensures forall i :: 0 <= i < n ==> !IsDelimiter(s[i])
    ensures n < |s| ==> IsDelimiter(s[n])
  {
    if s == [] || IsDelimiter(s[0]) then 0 else 1 + AtomLen(s[1..])
  }

  /** A left-to-right scanner, independent of string replacement: skip
      whitespace, make each parenthesis a token, and read every other run
      up to the next whitespace or parenthesis as one token. */
  function Lex(s: string): (ts: seq<string>)
    ensures forall i :: 0 <= i < |ts| ==> ts[i] == "(" || ts[i] == ")" || IsAtomToken(ts[i])
    decreases |s|
  {
    if s == [] then []
    else if IsSpace(s[0]) then Lex(s[1..])
    else if IsParen(s[0]) then [[s[0]]] + Lex(s[1..])
    else
      var n := AtomLen(s);
      [s[..n]] + Lex(s[n..])
  }

  /** A token that is neither a parenthesis nor contains one or whitespace. */
  predicate IsAtomToken(t: string) {
    t != [] && forall i :: 0 <= i < |t| ==> !IsDelimiter(t[i])
  }

  lemma {:induction false} PadPlain(w: string)
    requires forall i :: 0 <= i < |w| ==> !IsParen(w[i])
    ensures Pad(w) == w
    decreases |w|
  {
    if w != [] {
      PadPlain(w[1..]);
      assert w == [w[0]] + w[1..];
    }
  }

  lemma {:induction false} PadConcat(a: string, b: string)
    ensures Pad(a + b) == Pad(a) + Pad(b)
    decreases |a|
  {
    if a != [] {
      assert (a + b)[1..] == a[1..] + b;
      PadConcat(a[1..], b);
    } else {
      assert a + b == b;
    }
  }

  /** After padding, a string that starts at a delimiter starts with whitespace. */
  lemma PadDelimited(t: string)
    requires t != [] && IsDelimiter(t[0])
    ensures Pad(t) != [] && IsSpace(Pad(t)[0])
    ensures Words(Pad(t)) == Words(Pad(t)[1..])
  {
  }

  /** Padding and then taking the whitespace-separated words is the scanner. */
  lemma {:induction false} WordsPad(s: string)
    ensures Words(Pad(s)) == Lex(s)
    decreases |s|
  {
    if s == [] {
    } else if IsSpace(s[0]) {
      WordsPad(s[1..]);
      assert Pad(s) == [s[0]] + Pad(s[1..]);
      assert Pad(s)[1..] == Pad(s[1..]);
    } else if IsParen(s[0]) {
      WordsPad(s[1..]);
      WordsPadParen(s);
    } else {
      WordsPad(s[AtomLen(s)..]);
      WordsPadAtom(s);
    }
  }

  lemma WordsPadParen(s: string)
    requires s != [] && IsParen(s[0]) && Words(Pad(s[1..])) == Lex(s[1..])
    ensures Words(Pad(s)) == Lex(s)
  {
    PadParen(s);
    WordsSpaced(s[0], Pad(s[1..]));
  }

  lemma PadParen(s: string)
    requires s != [] && IsParen(s[0])
    ensures Pad(s) == [' ', s[0], ' '] + Pad(s[1..])
  {
    assert PadChar(s[0]) == [' ', s[0], ' '];
  }

  /** A single-character word set off by whitespace. */
  lemma WordsSpaced(c: char, rest: string)
    requires !IsSpace(c)
    ensures Words([' ', c, ' '] + rest) == [[c]] + Words(rest)
  {
    var p := [c] + ([' '] + rest);
    assert ([' ', c, ' '] + rest)[1..] == p;
    WordsAfterWord([c], [' '] + rest);
    assert ([' '] + rest)[1..] == rest;
  }

  lemma WordsPadAtom(s: string)
    requires s != [] && !IsDelimiter(s[0]) && Words(Pad(s[AtomLen(s)..])) == Lex(s[AtomLen(s)..])
    ensures Words(Pad(s)) == Lex(s)
  {
    var n := AtomLen(s);
    var w, t := s[..n], s[n..];
    assert Lex(s) == [w] + Lex(t);
    PadAtom(s);
    if t == [] {
      assert Pad(s) == w;
      WordsOfWord(w);
    } else {
      PadDelimited(t);
      WordsAfterWord(w, Pad(t));
    }
  }

  /** Padding leaves a leading atom alone. */
  lemma PadAtom(s: string)
    requires s != [] && !IsDelimiter(s[0])
    ensures Pad(s) == s[..AtomLen(s)] + Pad(s[AtomLen(s)..])
    ensures s[..AtomLen(s)] != [] && NoSpace(s[..AtomLen(s)])
  {
    var n := AtomLen(s);
    var w, t := s[..n], s[n..];
    AtomPrefix(s);
    assert s == w + t;
    PadConcat(w, t);
    PadPlain(w);
  }

  lemma AtomPrefix(s: string)
    requires s != [] && !IsDelimiter(s[0])
    ensures var w := s[..AtomLen(s)]; w != [] && forall i :: 0 <= i < |w| ==> !IsDelimiter(w[i])
  {
    var w := s[..AtomLen(s)];
    forall i | 0 <= i < |w| ensures !IsDelimiter(w[i]) {
      assert w[i] == s[i];
    }
  }

  /** A word followed by whitespace and then anything. */
  lemma WordsAfterWord(w: string, p: string)
    requires w != [] && NoSpace(w) && p != [] && IsSpace(p[0])
    ensures Words(w + p) == [w] + Words(p[1..])
  {
    WordsSep(w, p[0], p[1..]);
    WordsOfWord(w);
    assert w + p == w + [p[0]] + p[1..];
  }

  /** `tokenize` yields the scanner's tokens, or the single token "" when
      there are none (an empty or all-whitespace program). So every
      parenthesis is a token of its own and no token holds whitespace. */
  lemma TokenizeLex(chars: string)
    ensures Tokenize(chars) == if Lex(chars) == [] then [""] else Lex(chars)
  {
    SplitTrim(Pad(chars));
    WordsPad(chars);
  }

  // ---------------------------------------------------------------------
  // Reading atoms

  /** 2^53. Every integer of at most this magnitude is an exact double, so
      `parseInt` reads its numeral exactly and `toString` prints it back. The
      model reads numbers only in this range; beyond it JavaScript still reads
      some numerals as numbers (those the nearest double prints back as,
      such as "18014398509481984"), which the model leaves as symbols. */
  const MaxSafe: int := 9007199254740992

  /** `atom(token)`: a number when `parseInt` reads a truthy (non-zero)
      value that prints back as the token, a symbol otherwise. The
      `parseFloat` branch is not part of this model. */
  function Atom(token: string): (v: Val)
    ensures v.Num? ==> v.n != 0 && IntToString(v.n) == token
    ensures v.Sym? ==> v.s == token
    ensures v.Num? || v.Sym?
  {
    match ParseDecimal(token)
    case Some(k) =>
      if k != 0 && -MaxSafe <= k <= MaxSafe && IntToString(k) == token then Num(k) else Sym(token)
    case None => Sym(token)
  }

  /** A numeral is read as a number exactly when it is the printed form
      of a non-zero integer in the exact range. */
  lemma AtomNumber(n: int)
    requires n != 0 && -MaxSafe <= n <= MaxSafe
    ensures Atom(IntToString(n)) == Num(n)
  {
    IntToStringParses(n);
  }

  /** `0` is falsy and `007` does not print back, so both stay symbols. */
  lemma AtomZeros()
    ensures Atom("0") == Sym("0")
    ensures Atom("007") == Sym("007")
  {
    assert ParseDecimal("0") == Some(0) by {
      assert DigitsValue("0") == 0 by { assert "0"[..0] == ""; }
    }
    AtomPrintsBack("007");
  }

  /** A token whose numeral reading would have to start with `0` never
      prints back as itself. */
  lemma AtomPrintsBack(t: string)
    requires t != [] && t[0] == '0' && |t| > 1
    ensures Atom(t) == Sym(t)
  {
    match ParseDecimal(t)
    case Some(k) =>
      if k != 0 {
        NoLeadingZero(k);
      }
    case None =>
  }

  /** The printed form of a non-zero integer never starts with `0`. */
  lemma NoLeadingZero(k: int)
    requires k != 0
    ensures IntToString(k)[0] != '0'
  {
  }

  /** `parseInt("12abc")` is 12, which prints as `12`: a symbol. Words
      are symbols, and negative numerals are numbers. */
  lemma AtomExamples()
    ensures Atom("12abc") == Sym("12abc")
    ensures Atom("x") == Sym("x")
    ensures Atom("-12") == Num(-12)
  {
    assert !AllDigits("12abc") by { assert !IsDigit("12abc"[2]); }
    AtomNumber(-12);
    assert IntToString(-12) == "-12" by {
      assert NatToString(12) == NatToString(1) + [DigitChar(2)];
    }
  }

  // ---------------------------------------------------------------------
  // Reader

  const UnexpectedEOF := "unexpected EOF"
  const UnexpectedClose := "unexpected )"

  /** What `read_from_tokens` returns or throws, and what is left of the
      token array it shifts from. */
  datatype Reading = Reading(result: Result<Val>, rest: seq<string>)

  function ReadFrom(ts: seq<string>): (r: Reading)
    ensures |r.rest| <= |ts| && (ts != [] ==> |r.rest| < |ts|)
    decreases |ts|, 0
  {
    if ts == [] then Reading(Err(UnexpectedEOF), [])
    else if ts[0] == "(" then ReadList(ts[1..], [])
    else if ts[0] == ")" then Reading(Err(UnexpectedClose), ts[1..])
    else Reading(Ok(Atom(ts[0])), ts[1..])
  }

  /** The loop `while (tokens[0] !== ')') L.push(read_from_tokens(tokens))`
      with `items` read so far, followed by the shift of the ")". */
  function ReadList(ts: seq<string>, items: seq<Val>): (r: Reading)
    ensures |r.rest| <= |ts|
    decreases |ts|, 1
  {
    if ts != [] && ts[0] == ")" then Reading(Ok(List(items)), ts[1..])
    else
      var x := ReadFrom(ts);
      if x.result.Err? then x else ReadList(x.rest, items + [x.result.value])
  }

  /** `lParse(program)` */
  function LParse(program: string): Result<Val> {
    ReadFrom(Tokenize(program)).result
  }

  /** The shared token array that `read_from_tokens` consumes with `shift()`. */
  class Reader {
    var tokens: seq<string>

    constructor(ts: seq<string>)
      ensures tokens == ts
    {
      tokens := ts;
    }

    /** `read_from_tokens(tokens)` */
    method Read() returns (r: Result<Val>)
      modifies this
      ensures Reading(r, tokens) == ReadFrom(old(tokens))
      decreases |tokens|
    {
      if |tokens| == 0 {
        return Err(UnexpectedEOF);
      }
      var token := tokens[0];
      tokens := tokens[1..];
      if token == "(" {
        var items: seq<Val> := [];
        ghost var start := tokens;
        while |tokens| == 0 || tokens[0] != ")"
          invariant |tokens| <= |start| < |old(tokens)|
          invariant ReadList(tokens, items) == ReadList(start, [])
          decreases |tokens|
        {
          var x := Read();
          if x.Err? {
            return x;
          }
          items := items + [x.value];
        }
        tokens := tokens[1..];
        r := Ok(List(items));
      } else if token == ")" {
        r := Err(UnexpectedClose);
      } else {
        r := Ok(Atom(token));
      }
    }
  }

  /** `lParse(program)`, reading from a fresh token array. */
  method Parse(program: string) returns (r: Result<Val>)
    ensures r == LParse(program)
  {
    var reader := new Reader(Tokenize(program));
    r := reader.Read();
  }

  // ---------------------------------------------------------------------
  // Printer and the reader/printer round trip

  /** Values `lispstr` can print: no `undefined` and no procedures. */
  predicate Printable(v: Val)
    decreases v
  {
    match v
    case Num(_) => true
    case Sym(_) => true
    case Bool(_) => true
    case List(items) => forall i :: 0 <= i < |items| ==> Printable(items[i])
    case _ => false
  }

  /** `lispstr(exp)`: a list prints as its elements' strings joined by one
      space inside parentheses, anything else as `String(exp)`. */
  function LispStr(v: Val): string
    requires Printable(v)
    decreases v
  {
    match v
    case List(items) => "(" + LispItems(items) + ")"
    case Num(n) => IntToString(n)
    case Sym(s) => s
    case Bool(b) => if b then "true" else "false"
  }

  /** `exp.map(lispstr).join(' ')` */
  function LispItems(items: seq<Val>): string
    requires forall i :: 0 <= i < |items| ==> Printable(items[i])
    decreases items
  {
    if items == [] then ""
    else if |items| == 1 then LispStr(items[0])
    else LispStr(items[0]) + " " + LispItems(items[1..])
  }

  /** The tokens of a printed value. */
  function Tokens(v: Val): seq<string>
    requires Printable(v)
    decreases v
  {
    match v
    case List(items) => ["("] + ItemTokens(items) + [")"]
    case _ => [LispStr(v)]
  }

  function ItemTokens(items: seq<Val>): seq<string>
    requires forall i :: 0 <= i < |items| ==> Printable(items[i])
    decreases items
  {
    if items == [] then [] else Tokens(items[0]) + ItemTokens(items[1..])
  }

  /** Values that read back as themselves once printed: lists of non-zero
      integers in the exact range and of non-empty symbols without
      whitespace or parentheses that do not read as numbers. */
  predicate Readable(v: Val)
    decreases v
  {
    match v
    case Num(n) => n != 0 && -MaxSafe <= n <= MaxSafe
    case Sym(s) => IsAtomToken(s) && Atom(s) == Sym(s)
    case List(items) => forall i :: 0 <= i < |items| ==> Readable(items[i])
    case _ => false
  }

  lemma {:induction false} ReadablePrintable(v: Val)
    requires Readable(v)
    ensures Printable(v)
    decreases v
  {
    if v.List? {
      forall i | 0 <= i < |v.items| {
        ReadablePrintable(v.items[i]);
      }
    }
  }

  lemma LexSpace(t: string)
    ensures Lex(" " + t) == Lex(t)
  {
    assert (" " + t)[1..] == t;
  }

  lemma LexParen(c: char, t: string)
    requires IsParen(c)
    ensures Lex([c] + t) == [[c]] + Lex(t)
  {
    assert ([c] + t)[1..] == t;
  }

  lemma {:induction false} AtomLenWord(w: string, t: string)
    requires IsAtomToken(w) && (t == [] || IsDelimiter(t[0]))
    ensures AtomLen(w + t) == |w|
    decreases |w|
  {
    if |w| > 1 {
      assert (w + t)[1..] == w[1..] + t;
      AtomLenWord(w[1..], t);
    } else {
      assert (w + t)[1..] == t;
    }
  }

  lemma LexWord(w: string, t: string)
    requires IsAtomToken(w) && (t == [] || IsDelimiter(t[0]))
    ensures Lex(w + t) == [w] + Lex(t)
  {
    AtomLenWord(w, t);
    assert (w + t)[..|w|] == w;
    assert (w + t)[|w|..] == t;
  }

  lemma NumeralToken(n: int)
    ensures IsAtomToken(IntToString(n))
  {
    var s := IntToString(n);
    IntToStringNoSpace(n);
    if n < 0 {
      assert forall k :: 1 <= k < |s| ==> s[k] == NatToString(-n)[k - 1];
    }
  }

  /** Scanning a printed readable value followed by a delimiter gives its
      tokens and then those of the rest. */
  lemma {:induction false} LexPrinted(v: Val, tail: string)
    requires Readable(v) && Printable(v) && (tail == [] || tail[0] == ' ' || tail[0] == ')')
    ensures Lex(LispStr(v) + tail) == Tokens(v) + Lex(tail)
    decreases v
  {
    match v
    case List(items) =>
      LexItems(items, [')'] + tail);
      LexList(items, tail);
    case Num(n) =>
      NumeralToken(n);
      LexWord(IntToString(n), tail);
    case Sym(s) =>
      LexWord(s, tail);
  }

  /** The list case of `LexPrinted`, given the scan of its elements. */
  lemma LexList(items: seq<Val>, tail: string)
    requires forall i :: 0 <= i < |items| ==> Printable(items[i])
    requires Lex(LispItems(items) + ([')'] + tail)) == ItemTokens(items) + Lex([')'] + tail)
    ensures Printable(List(items)) && Lex(LispStr(List(items)) + tail) == Tokens(List(items)) + Lex(tail)
  {
    assert LispStr(List(items)) == "(" + LispItems(items) + ")";
    LexBracketed(LispItems(items), tail, ItemTokens(items));
  }

  lemma LexBracketed(m: string, tail: string, inner: seq<string>)
    requires Lex(m + ([')'] + tail)) == inner + Lex([')'] + tail)
    ensures Lex("(" + m + ")" + tail) == ["("] + inner + [")"] + Lex(tail)
  {
    assert "(" + m + ")" + tail == ['('] + (m + ([')'] + tail));
    LexParen('(', m + ([')'] + tail));
    LexParen(')', tail);
  }

  lemma {:induction false} LexItems(items: seq<Val>, tail: string)
    requires forall i :: 0 <= i < |items| ==> Readable(items[i]) && Printable(items[i])
    requires tail != [] && tail[0] == ')'
    ensures Lex(LispItems(items) + tail) == ItemTokens(items) + Lex(tail)
    decreases items
  {
    if items == [] {
      assert LispItems(items) + tail == tail;
    } else if |items| == 1 {
      LexPrinted(items[0], tail);
      assert ItemTokens(items[1..]) == [];
    } else {
      var rest := LispItems(items[1..]) + tail;
      assert LispItems(items) + tail == LispStr(items[0]) + (" " + rest);
      LexPrinted(items[0], " " + rest);
      LexSpace(rest);
      LexItems(items[1..], tail);
    }
  }

  /** Reading the tokens of a readable value consumes exactly those tokens. */
  lemma {:induction false} ReadTokens(v: Val, rest: seq<string>)
    requires Readable(v) && Printable(v)
    ensures ReadFrom(Tokens(v) + rest) == Reading(Ok(v), rest)
    decreases v
  {
    match v
    case List(items) =>
      var inner := ItemTokens(items) + [")"] + rest;
      assert Tokens(v) + rest == ["("] + inner;
      assert (["("] + inner)[1..] == inner;
      ReadItems(items, [], rest);
      assert [] + items == items;
    case Num(n) =>
      AtomNumber(n);
      NumeralToken(n);
    case Sym(s) =>
  }

  lemma {:induction false} ReadItems(items: seq<Val>, acc: seq<Val>, rest: seq<string>)
    requires forall i :: 0 <= i < |items| ==> Readable(items[i]) && Printable(items[i])
    ensures ReadList(ItemTokens(items) + [")"] + rest, acc) == Reading(Ok(List(acc + items)), rest)
    decreases items
  {
    if items == [] {
      assert ItemTokens(items) + [")"] + rest == [")"] + rest;
      assert acc + items == acc;
    } else {
      var after := ItemTokens(items[1..]) + [")"] + rest;
      assert ItemTokens(items) + [")"] + rest == Tokens(items[0]) + after;
      ReadTokens(items[0], after);
      FirstToken(items[0]);
      ReadItems(items[1..], acc + [items[0]], rest);
      assert acc + [items[0]] + items[1..] == acc + items;
    }
  }

  lemma FirstToken(v: Val)
    requires Readable(v) && Printable(v)
    ensures Tokens(v) != [] && Tokens(v)[0] != ")"
  {
    if v.Num? {
      NumeralToken(v.n);
      assert Tokens(v)[0][0] != ')';
    } else if v.Sym? {
      assert Tokens(v)[0][0] != ')';
    }
  }

  /** `lParse(lispstr(e))` gives back `e` for every readable value. */
  lemma RoundTrip(v: Val)
    requires Readable(v)
    ensures Printable(v) && LParse(LispStr(v)) == Ok(v)
  {
    ReadablePrintable(v);
    TokenizeLex(LispStr(v));
    LexPrinted(v, []);
    assert LispStr(v) + [] == LispStr(v);
    assert Tokens(v) + Lex([]) == Tokens(v);
    FirstToken(v);
    ReadTokens(v, []);
    assert Tokens(v) + [] == Tokens(v);
  }

  /** Whatever follows the first expression is ignored. */
  lemma TrailingIgnored(v: Val, w: Val)
    requires Readable(v) && Readable(w)
    ensures Printable(v) && Printable(w) && LParse(LispStr(v) + " " + LispStr(w)) == Ok(v)
  {
    ReadablePrintable(v);
    ReadablePrintable(w);
    var s := LispStr(v) + " " + LispStr(w);
    assert s == LispStr(v) + (" " + LispStr(w));
    TokenizeLex(s);
    LexPrinted(v, " " + LispStr(w));
    LexSpace(LispStr(w));
    FirstToken(v);
    ReadTokens(v, Lex(LispStr(w)));
  }

  /** A successful read consumed the tokens of the value it returns. */
  lemma {:induction false} ReadSound(ts: seq<string>)
    requires ReadFrom(ts).result.Ok?
    ensures Printable(ReadFrom(ts).result.value)
    ensures ts == Tokens(ReadFrom(ts).result.value) + ReadFrom(ts).rest
    decreases |ts|, 1
  {
    if ts[0] == "(" {
      ReadOpenSound(ts);
    } else {
      ReadAtomSound(ts);
    }
  }

  lemma {:induction false} ReadOpenSound(ts: seq<string>)
    requires ts != [] && ts[0] == "(" && ReadFrom(ts).result.Ok?
    ensures Printable(ReadFrom(ts).result.value)
    ensures ts == Tokens(ReadFrom(ts).result.value) + ReadFrom(ts).rest
    decreases |ts|, 0
  {
    var r := ReadList(ts[1..], []);
    assert ReadFrom(ts) == r;
    ReadListSound(ts[1..], []);
    var v := r.result.value;
    assert v.items[0..] == v.items;
    var inner := ItemTokens(v.items);
    assert ts[1..] == inner + [")"] + r.rest;
    calc {
      ts;
      ["("] + ts[1..];
      ["("] + (inner + [")"] + r.rest);
      (["("] + inner + [")"]) + r.rest;
      Tokens(v) + r.rest;
    }
  }

  lemma ReadAtomSound(ts: seq<string>)
    requires ts != [] && ts[0] != "(" && ts[0] != ")"
    ensures ReadFrom(ts) == Reading(Ok(Atom(ts[0])), ts[1..])
    ensures Printable(Atom(ts[0])) && Tokens(Atom(ts[0])) == [ts[0]]
    ensures ts == Tokens(Atom(ts[0])) + ts[1..]
  {
    assert ts == [ts[0]] + ts[1..];
  }

  lemma {:induction false} ReadListSound(ts: seq<string>, acc: seq<Val>)
    requires ReadList(ts, acc).result.Ok?
    requires forall i :: 0 <= i < |acc| ==> Printable(acc[i])
    ensures var r := ReadList(ts, acc);
      && r.result.value.List? && |acc| <= |r.result.value.items| && r.result.value.items[..|acc|] == acc
      && Printable(r.result.value)
      && ts == ItemTokens(r.result.value.items[|acc|..]) + [")"] + r.rest
    decreases |ts|, 2
  {
    var r := ReadList(ts, acc);
    if ts != [] && ts[0] == ")" {
      assert r.result.value.items[|acc|..] == [];
      assert ts == [")"] + ts[1..];
    } else {
      var x := ReadFrom(ts);
      ReadSound(ts);
      var v := x.result.value;
      assert r == ReadList(x.rest, acc + [v]);
      ReadListSound(x.rest, acc + [v]);
      ListStep(acc, v, r.result.value.items, ts, x.rest, r.rest);
    }
  }

  /** Bookkeeping for one more element read into a list. */
  lemma ListStep(acc: seq<Val>, v: Val, all: seq<Val>, ts: seq<string>, mid: seq<string>, rest: seq<string>)
    requires Printable(v) && |acc| + 1 <= |all| && all[..|acc| + 1] == acc + [v]
    requires forall i :: 0 <= i < |all| ==> Printable(all[i])
    requires ts == Tokens(v) + mid && mid == ItemTokens(all[|acc| + 1..]) + [")"] + rest
    ensures all[..|acc|] == acc
    ensures ts == ItemTokens(all[|acc|..]) + [")"] + rest
  {
    assert all[..|acc|] == all[..|acc| + 1][..|acc|];
    var tail := all[|acc|..];
    assert tail[0] == all[..|acc| + 1][|acc|] == v;
    assert tail[1..] == all[|acc| + 1..];
    assert ItemTokens(tail) == Tokens(v) + ItemTokens(all[|acc| + 1..]);
  }

  /** A stray ")" and an empty token list are rejected, and so is a list
      whose ")" never comes. */
  lemma ReadErrors(rest: seq<string>)
    ensures ReadFrom([]).result == Err(UnexpectedEOF)
    ensures ReadFrom([")"] + rest).result == Err(UnexpectedClose)
  {
  }

  lemma {:induction false} UnclosedList(ts: seq<string>, acc: seq<Val>)
    requires forall i :: 0 <= i < |ts| ==> ts[i] != ")"
    ensures ReadList(ts, acc).result == Err(UnexpectedEOF)
    decreases |ts|
  {
    if ts != [] {
      if ts[0] == "(" {
        UnclosedList(ts[1..], []);
      } else {
        UnclosedList(ts[1..], acc + [Atom(ts[0])]);
      }
    }
  }

  lemma Unclosed(ts: seq<string>)
    requires forall i :: 0 <= i < |ts| ==> ts[i] != ")"
    ensures ReadFrom(["("] + ts).result == Err(UnexpectedEOF)
  {
    assert (["("] + ts)[1..] == ts;
    UnclosedList(ts, []);
  }

  // ---------------------------------------------------------------------
  // Environments

  /** One `Env`: its `data` object and the index of its `outer` frame. */
  datatype Frame = Frame(data: map<string, Val>, outer: Option<nat>)

  /** All environments created so far; closures and `outer` refer to
      frames by index. */
  type Store = seq<Frame>

  /** A closure refers to an existing frame and was built from source. */
  predicate ValWf(v: Val, n: nat) {
    v.Proc? ==>
      && v.env < n
      && (v.body.Undef? || IsSource(v.body))
      && forall i :: 0 <= i < |v.parms| ==> IsSource(v.parms[i])
  }

  /** Every `outer` points to an older frame and every stored closure to
      an existing one. */
  predicate StoreWf(st: Store) {
    forall k :: 0 <= k < |st| ==>
      (st[k].outer.Some? ==> st[k].outer.value < k)
      && forall key :: key in st[k].data ==> ValWf(st[k].data[key], |st|)
  }

  /** Frames are never removed and never change their `outer`. */
  predicate Grows(st: Store, st': Store) {
    |st| <= |st'| && forall k :: 0 <= k < |st| ==> st'[k].outer == st[k].outer
  }

  const NotFound := " not found in your Environment"

  /** `env.find(v)`: the innermost frame of the chain from `e` whose data
      holds `v`. */
  function Find(st: Store, e: nat, v: string): (r: Result<nat>)
    requires StoreWf(st) && e < |st|
    ensures r.Ok? ==> r.value <= e && v in st[r.value].data
    decreases e
  {
    if v !in st[e].data && st[e].outer.None? then Err(v + NotFound)
    else if v in st[e].data then Ok(e)
    else Find(st, st[e].outer.value, v)
  }

  /** The frames from `e` outwards. */
  function Chain(st: Store, e: nat): (c: seq<nat>)
    requires StoreWf(st) && e < |st|
    ensures c != [] && c[0] == e && forall i :: 0 <= i < |c| ==> c[i] < |st|
    decreases e
  {
    if st[e].outer.None? then [e] else [e] + Chain(st, st[e].outer.value)
  }

  /** `v` is in frame `c[i]` and in no frame before it on `c`. */
  predicate FirstHolder(st: Store, c: seq<nat>, v: string, i: int)
    requires forall j :: 0 <= j < |c| ==> c[j] < |st|
  {
    0 <= i < |c| && v in st[c[i]].data && forall j :: 0 <= j < i ==> v !in st[c[j]].data
  }

  /** When `find` succeeds, it returns the first frame of the chain that
      holds `v`. */
  lemma {:induction false} FindFirst(st: Store, e: nat, v: string)
    requires StoreWf(st) && e < |st| && Find(st, e, v).Ok?
    ensures exists i :: FirstHolder(st, Chain(st, e), v, i) && Chain(st, e)[i] == Find(st, e, v).value
    decreases e
  {
    var c := Chain(st, e);
    if v in st[e].data {
      assert FirstHolder(st, c, v, 0);
    } else {
      var o := st[e].outer.value;
      FindFirst(st, o, v);
      var c' := Chain(st, o);
      assert c == [e] + c';
      var i :| FirstHolder(st, c', v, i) && c'[i] == Find(st, o, v).value;
      HolderShift(st, e, c', v, i);
      assert FirstHolder(st, c, v, i + 1);
    }
  }

  /** `find` throws `<v> not found in your Environment` only when no frame
      of the chain holds `v`. */
  lemma {:induction false} FindMissing(st: Store, e: nat, v: string)
    requires StoreWf(st) && e < |st| && Find(st, e, v).Err?
    ensures Find(st, e, v).msg == v + NotFound
    ensures forall i :: 0 <= i < |Chain(st, e)| ==> v !in st[Chain(st, e)[i]].data
    decreases e
  {
    if st[e].outer.Some? {
      var o := st[e].outer.value;
      FindMissing(st, o, v);
      var c, c' := Chain(st, e), Chain(st, o);
      assert c == [e] + c';
      forall i | 0 <= i < |c|
        ensures v !in st[c[i]].data
      {
        if i > 0 {
          assert c[i] == c'[i - 1];
        }
      }
    }
  }

  /** Putting a frame without `v` in front of a chain moves its first
      holder of `v` one place back. */
  lemma HolderShift(st: Store, e: nat, c': seq<nat>, v: string, i: int)
    requires e < |st| && v !in st[e].data && forall j :: 0 <= j < |c'| ==> c'[j] < |st|
    requires FirstHolder(st, c', v, i)
    ensures FirstHolder(st, [e] + c', v, i + 1) && ([e] + c')[i + 1] == c'[i]
  {
    var c := [e] + c';
    forall j | 0 <= j < i + 1
      ensures v !in st[c[j]].data
    {
      if j > 0 {
        assert c[j] == c'[j - 1];
      }
    }
  }

  // ---------------------------------------------------------------------
  // Standard environment (the integer subset)

  const StandardNames: seq<string> := ["+", "-", "*", "**", "/", ">", "<", ">=", "<=", "=",
    "append", "apply", "begin", "car", "cdr", "cons", "eq?", "equal?", "length", "list",
    "map", "not", "null?", "number?", "procedure?", "symbol?"]

  /** The data of `standard_env()`: every standard name bound to its procedure. */
  function StandardEnv(): map<string, Val> {
    map name | name in StandardNames :: Prim(name)
  }

  /** `global_env`, the only frame before any procedure is called. */
  function GlobalStore(): (st: Store)
    ensures StoreWf(st)
  {
    [Frame(StandardEnv(), None)]
  }

  /** The result of applying a standard procedure outside the integer subset. */
  const OutsideSubset := "outside the modelled integer subset"

  /** `args[i]`, `undefined` past the end. */
  function Arg(args: seq<Val>, i: nat): Val {
    if i < |args| then args[i] else Undef
  }

  /** The standard procedures on integers. `-` with no second argument
      negates; comparisons yield booleans; `not` and the type tests work
      on any value. */
  function PrimApply(name: string, args: seq<Val>): (r: Result<Val>)
    ensures r.Ok? ==> r.value.Num? || r.value.Bool?
  {
    var x, y := Arg(args, 0), Arg(args, 1);
    if name == "-" && y.Undef? then
      (if x.Num? then Ok(Num(-x.n)) else Err(OutsideSubset))
    else if name in ["+", "-", "*", ">", "<", ">=", "<="] then
      if x.Num? && y.Num? then
        Ok(match name
           case "+" => Num(x.n + y.n)
           case "-" => Num(x.n - y.n)
           case "*" => Num(x.n * y.n)
           case ">" => Bool(x.n > y.n)
           case "<" => Bool(x.n < y.n)
           case ">=" => Bool(x.n >= y.n)
           case _ => Bool(x.n <= y.n))
      else Err(OutsideSubset)
    else if name in ["=", "eq?", "equal?"] then
      if IsAtomic(x) && IsAtomic(y) then Ok(Bool(x == y)) else Err(OutsideSubset)
    else if name == "not" then Ok(Bool(!Truthy(x)))
    else if name == "number?" then Ok(Bool(x.Num?))
    else if name == "symbol?" then Ok(Bool(x.Sym?))
    else if name == "procedure?" then Ok(Bool(x.Prim? || x.Proc?))
    else Err(OutsideSubset)
  }

  /** Values `===` compares by value. */
  predicate IsAtomic(v: Val) {
    v.Num? || v.Sym? || v.Bool? || v.Undef?
  }

  /** JavaScript truthiness: 0, "" and `undefined` are falsy, every array
      and every function truthy. */
  predicate Truthy(v: Val) {
    match v
    case Num(n) => n != 0
    case Sym(s) => s != ""
    case Bool(b) => b
    case Undef => false
    case _ => true
  }

  // ---------------------------------------------------------------------
  // Evaluator

  /** A property key: `String(v)` of a source expression or `undefined`. */
  function PropKey(v: Val): string
    requires IsSource(v) || v.Undef?
    decreases v, 1
  {
    match v
    case Num(n) => IntToString(n)
    case Sym(s) => s
    case List(items) => Join(seq(|items|, i requires 0 <= i < |items| => PropKey(items[i])), ",")
    case Undef => "undefined"
  }

  /** The `dObj` of a call: each parameter bound to the argument at its
      position (`undefined` when there is none), later duplicates winning. */
  function Bind(parms: seq<Val>, args: seq<Val>): (m: map<string, Val>)
    requires forall i :: 0 <= i < |parms| ==> IsSource(parms[i])
    decreases |parms|
  {
    if parms == [] then map[]
    else
      var init := parms[..|parms| - 1];
      Bind(init, args)[PropKey(parms[|parms| - 1]) := Arg(args, |parms| - 1)]
  }

  lemma {:induction false} BindWf(parms: seq<Val>, args: seq<Val>, n: nat)
    requires forall i :: 0 <= i < |parms| ==> IsSource(parms[i])
    requires forall i :: 0 <= i < |args| ==> ValWf(args[i], n)
    ensures forall key :: key in Bind(parms, args) ==> ValWf(Bind(parms, args)[key], n)
    decreases |parms|
  {
    if parms != [] {
      BindWf(parms[..|parms| - 1], args, n);
    }
  }

  const TypeErr := "TypeError: Cannot read properties of undefined (reading 'constructor')"
  const NotAFunction := "TypeError: proc is not a function"
  const StackOverflow := "RangeError: Maximum call stack size exceeded"

  /** What `lEval` returns or throws, and the environments after it. */
  datatype Outcome = Outcome(result: Result<Val>, store: Store)

  datatype ArgsOutcome = ArgsOutcome(result: Result<seq<Val>>, store: Store)

  /** What every evaluation keeps. */
  predicate Keeps(st: Store, o: Outcome) {
    Grows(st, o.store) && StoreWf(o.store) && (o.result.Ok? ==> ValWf(o.result.value, |o.store|))
  }

  /** `lEval(x, env)` with frame `env` current. `fuel` bounds the depth of
      nested procedure calls. */
  function Eval(st: Store, env: nat, x: Val, fuel: nat): (o: Outcome)
    requires StoreWf(st) && env < |st| && IsSource(x)
    ensures Keeps(st, o)
    decreases fuel, x, 1
  {
    match x
    case Sym(s) =>
      (match Find(st, env, s)
       case Err(m) => Outcome(Err(m), st)
       case Ok(k) => Outcome(Ok(st[k].data[s]), st))
    case Num(_) => Outcome(Ok(x), st)
    case List(items) =>
      if |items| > 0 && items[0] == Sym("quote") then
        var q := if 1 < |items| then items[1] else Undef;
        assert IsSource(q) || q.Undef?;
        Outcome(Ok(q), st)
      else if |items| > 0 && items[0] == Sym("if") then EvalIf(st, env, x, fuel)
      else if |items| > 0 && items[0] == Sym("define") then EvalDefine(st, env, x, fuel)
      else if |items| > 0 && items[0] == Sym("set!") then EvalSet(st, env, x, fuel)
      else if |items| > 0 && items[0] == Sym("lambda") then EvalLambda(st, env, x)
      else EvalApply(st, env, x, fuel)
  }

  /** `[_, test, conseq, alt] = x`: evaluate the test, then exactly one
      branch; a missing test or branch is `undefined`, whose evaluation throws. */
  function EvalIf(st: Store, env: nat, x: Val, fuel: nat): (o: Outcome)
    requires StoreWf(st) && env < |st| && IsSource(x) && x.List?
    ensures Keeps(st, o)
    decreases fuel, x, 0
  {
    var items := x.items;
    if |items| < 2 then Outcome(Err(TypeErr), st)
    else
      var t := Eval(st, env, items[1], fuel);
      if t.result.Err? then t
      else
        var k := if Truthy(t.result.value) then 2 else 3;
        if k < |items| then Eval(t.store, env, items[k], fuel) else Outcome(Err(TypeErr), t.store)
  }

  /** `env.data[v] = lEval(exp, env)`, yielding `undefined`. */
  function EvalDefine(st: Store, env: nat, x: Val, fuel: nat): (o: Outcome)
    requires StoreWf(st) && env < |st| && IsSource(x) && x.List?
    ensures Keeps(st, o)
    decreases fuel, x, 0
  {
    var items := x.items;
    if |items| < 3 then Outcome(Err(TypeErr), st)
    else
      var e := Eval(st, env, items[2], fuel);
      if e.result.Err? then e
      else Outcome(Ok(Undef), Assign(e.store, env, PropKey(items[1]), e.result.value))
  }

  /** `frame.data[key] = v` */
  function Assign(st: Store, k: nat, key: string, v: Val): (st': Store)
    requires StoreWf(st) && k < |st| && ValWf(v, |st|)
    ensures StoreWf(st') && |st'| == |st| && Grows(st, st')
  {
    st[k := Frame(st[k].data[key := v], st[k].outer)]
  }

  /** `env.find(v)[v] = lEval(exp, env)`: the frame is looked up first, so
      an unbound name throws before the expression is evaluated. */
  function EvalSet(st: Store, env: nat, x: Val, fuel: nat): (o: Outcome)
    requires StoreWf(st) && env < |st| && IsSource(x) && x.List?
    ensures Keeps(st, o)
    decreases fuel, x, 0
  {
    var items := x.items;
    var key := PropKey(if 1 < |items| then items[1] else Undef);
    match Find(st, env, key)
    case Err(m) => Outcome(Err(m), st)
    case Ok(k) =>
      if |items| < 3 then Outcome(Err(TypeErr), st)
      else
        var e := Eval(st, env, items[2], fuel);
        if e.result.Err? then e
        else Outcome(Ok(Undef), Assign(e.store, k, key, e.result.value))
  }

  /** `Procedure(parms, body, env)`, a single non-list parameter wrapped in a list. */
  function EvalLambda(st: Store, env: nat, x: Val): (o: Outcome)
    requires StoreWf(st) && env < |st| && IsSource(x) && x.List?
    ensures Keeps(st, o)
  {
    var items := x.items;
    if |items| < 2 then Outcome(Err(TypeErr), st)
    else
      var parms := if items[1].List? then items[1].items else [items[1]];
      var body := if 2 < |items| then items[2] else Undef;
      assert IsSource(items[1]);
      assert body.Undef? || IsSource(body);
      Outcome(Ok(Proc(parms, body, env)), st)
  }

  /** The operator, then the operands left to right, then the call. */
  function EvalApply(st: Store, env: nat, x: Val, fuel: nat): (o: Outcome)
    requires StoreWf(st) && env < |st| && IsSource(x) && x.List?
    ensures Keeps(st, o)
    decreases fuel, x, 0
  {
    var items := x.items;
    if |items| == 0 then Outcome(Err(TypeErr), st)
    else
      var f := Eval(st, env, items[0], fuel);
      if f.result.Err? then f
      else
        var a := EvalArgs(f.store, env, x, 1, [], fuel);
        if a.result.Err? then Outcome(Err(a.result.msg), a.store)
        else
          var proc, args := f.result.value, a.result.value;
          match proc
          case Prim(name) => Outcome(PrimApply(name, args), a.store)
          case Proc(parms, body, d) =>
            if fuel == 0 then Outcome(Err(StackOverflow), a.store)
            else Invoke(a.store, parms, body, d, args, fuel - 1)
          case _ => Outcome(Err(NotAFunction), a.store)
  }

  /** The function `Procedure` returns: bind the parameters in a fresh
      frame whose `outer` is the defining frame, then evaluate the body there. */
  function Invoke(st: Store, parms: seq<Val>, body: Val, d: nat, args: seq<Val>, fuel: nat): (o: Outcome)
    requires StoreWf(st) && d < |st| && (body.Undef? || IsSource(body))
    requires forall i :: 0 <= i < |parms| ==> IsSource(parms[i])
    requires forall i :: 0 <= i < |args| ==> ValWf(args[i], |st|)
    ensures Keeps(st, o)
    decreases fuel
  {
    WfMono(args, |st|, |st| + 1);
    BindWf(parms, args, |st| + 1);
    var st' := st + [Frame(Bind(parms, args), Some(d))];
    if body.Undef? then Outcome(Err(TypeErr), st') else Eval(st', |st|, body, fuel)
  }

  /** `exps.forEach(exp => args.push(lEval(exp, env)))` from position `i` on. */
  function EvalArgs(st: Store, env: nat, x: Val, i: nat, acc: seq<Val>, fuel: nat): (a: ArgsOutcome)
    requires StoreWf(st) && env < |st| && IsSource(x) && x.List? && i <= |x.items|
    requires forall j :: 0 <= j < |acc| ==> ValWf(acc[j], |st|)
    ensures Grows(st, a.store) && StoreWf(a.store)
    ensures a.result.Ok? ==> |a.result.value| == |acc| + |x.items| - i
    ensures a.result.Ok? ==> forall j :: 0 <= j < |a.result.value| ==> ValWf(a.result.value[j], |a.store|)
    decreases fuel, x, 0, |x.items| - i
  {
    if i == |x.items| then ArgsOutcome(Ok(acc), st)
    else
      var e := Eval(st, env, x.items[i], fuel);
      if e.result.Err? then ArgsOutcome(Err(e.result.msg), e.store)
      else
        WfMono(acc, |st|, |e.store|);
        EvalArgs(e.store, env, x, i + 1, acc + [e.result.value], fuel)
  }

  lemma WfMono(vs: seq<Val>, n: nat, m: nat)
    requires n <= m && forall i :: 0 <= i < |vs| ==> ValWf(vs[i], n)
    ensures forall i :: 0 <= i < |vs| ==> ValWf(vs[i], m)
  {
    forall i | 0 <= i < |vs|
      ensures ValWf(vs[i], m)
    {
      assert ValWf(vs[i], n);
    }
  }

  // ---------------------------------------------------------------------
  // Properties of the evaluator

  /** A symbol evaluates to its binding in the innermost frame of the chain
      holding it, and throws `<v> not found in your Environment` exactly when
      no frame of the chain holds it; nothing is changed either way. */
  lemma SymbolLookup(st: Store, env: nat, s: string, fuel: nat)
    requires StoreWf(st) && env < |st|
    ensures var o, c := Eval(st, env, Sym(s), fuel), Chain(st, env);
      && o.store == st
      && (o.result.Err? <==> forall i :: 0 <= i < |c| ==> s !in st[c[i]].data)
      && (o.result.Err? ==> o.result.msg == s + NotFound)
      && (o.result.Ok? ==> exists i :: FirstHolder(st, c, s, i) && o.result.value == st[c[i]].data[s])
  {
    if Find(st, env, s).Ok? {
      FindFirst(st, env, s);
    } else {
      FindMissing(st, env, s);
    }
  }

  /** Numbers evaluate to themselves and `quote` returns its operand
      unevaluated; neither touches an environment. */
  lemma Unevaluated(st: Store, env: nat, n: int, e: Val, fuel: nat)
    requires StoreWf(st) && env < |st| && IsSource(e)
    ensures Eval(st, env, Num(n), fuel) == Outcome(Ok(Num(n)), st)
    ensures Eval(st, env, List([Sym("quote"), e]), fuel) == Outcome(Ok(e), st)
    ensures Eval(st, env, List([Sym("quote")]), fuel) == Outcome(Ok(Undef), st)
  {
  }

  /** `if` evaluates the test and then exactly one branch: the branch not
      taken has no influence on the outcome. */
  lemma IfOneBranch(st: Store, env: nat, test: Val, c1: Val, c2: Val, a1: Val, a2: Val, fuel: nat)
    requires StoreWf(st) && env < |st|
    requires IsSource(test) && IsSource(c1) && IsSource(c2) && IsSource(a1) && IsSource(a2)
    ensures var t := Eval(st, env, test, fuel);
      var o := Eval(st, env, List([Sym("if"), test, c1, a1]), fuel);
      && (t.result.Err? ==> o == t)
      && (t.result.Ok? && Truthy(t.result.value) ==>
            o == Eval(t.store, env, c1, fuel) && o == Eval(st, env, List([Sym("if"), test, c1, a2]), fuel))
      && (t.result.Ok? && !Truthy(t.result.value) ==>
            o == Eval(t.store, env, a1, fuel) && o == Eval(st, env, List([Sym("if"), test, c2, a1]), fuel))
  {
  }

  /** An `if` without an alternative throws when its test is falsy. */
  lemma IfWithoutAlternative(st: Store, env: nat, test: Val, conseq: Val, fuel: nat)
    requires StoreWf(st) && env < |st| && IsSource(test) && IsSource(conseq)
    ensures var t := Eval(st, env, test, fuel);
      t.result.Ok? && !Truthy(t.result.value) ==>
        Eval(st, env, List([Sym("if"), test, conseq]), fuel) == Outcome(Err(TypeErr), t.store)
  {
  }

  /** `define` evaluates its expression, then binds the name in the current
      frame only: every other frame is as the expression left it, and the
      name is now found in the current frame. */
  lemma DefineBindsCurrentFrame(st: Store, env: nat, v: Val, exp: Val, fuel: nat)
    requires StoreWf(st) && env < |st| && IsSource(v) && IsSource(exp)
    ensures var e := Eval(st, env, exp, fuel);
      var o := Eval(st, env, List([Sym("define"), v, exp]), fuel);
      var key := PropKey(v);
      && (e.result.Err? ==> o == e)
      && (e.result.Ok? ==>
            && o.result == Ok(Undef)
            && |o.store| == |e.store|
            && o.store[env] == Frame(e.store[env].data[key := e.result.value], e.store[env].outer)
            && (forall k :: 0 <= k < |o.store| && k != env ==> o.store[k] == e.store[k])
            && Find(o.store, env, key) == Ok(env))
  {
  }

  /** `set!` on a name no frame of the chain holds throws before its
      expression is evaluated, and changes nothing. */
  lemma SetUnbound(st: Store, env: nat, v: Val, exp: Val, fuel: nat)
    requires StoreWf(st) && env < |st| && IsSource(v) && IsSource(exp)
    requires forall i :: 0 <= i < |Chain(st, env)| ==> PropKey(v) !in st[Chain(st, env)[i]].data
    ensures Eval(st, env, List([Sym("set!"), v, exp]), fuel) == Outcome(Err(PropKey(v) + NotFound), st)
  {
    if Find(st, env, PropKey(v)).Ok? {
      FindFirst(st, env, PropKey(v));
    }
    FindMissing(st, env, PropKey(v));
  }

  /** `set!` on a bound name rebinds it in the frame `find` chose before
      the expression was evaluated, and in no other frame. */
  lemma SetRebindsFoundFrame(st: Store, env: nat, v: Val, exp: Val, fuel: nat)
    requires StoreWf(st) && env < |st| && IsSource(v) && IsSource(exp)
    requires Find(st, env, PropKey(v)).Ok?
    ensures var key := PropKey(v);
      var k := Find(st, env, key).value;
      var e := Eval(st, env, exp, fuel);
      var o := Eval(st, env, List([Sym("set!"), v, exp]), fuel);
      && (e.result.Err? ==> o == e)
      && (e.result.Ok? ==>
            && o.result == Ok(Undef)
            && |o.store| == |e.store|
            && o.store[k] == Frame(e.store[k].data[key := e.result.value], e.store[k].outer)
            && (forall j :: 0 <= j < |o.store| && j != k ==> o.store[j] == e.store[j]))
  {
  }

  /** `lambda` closes over the current frame, wrapping a single non-list
      parameter in a list; nothing is evaluated. */
  lemma LambdaWrapsParameter(st: Store, env: nat, p: Val, body: Val, fuel: nat)
    requires StoreWf(st) && env < |st| && IsSource(p) && IsSource(body)
    ensures var o := Eval(st, env, List([Sym("lambda"), p, body]), fuel);
      && o.store == st
      && o.result == Ok(Proc(if p.List? then p.items else [p], body, env))
      && (!p.List? ==> o.result.value.parms == [p])
  {
  }

  /** The keys of `dObj` are exactly the parameters' keys. */
  lemma {:induction false} BindDomain(parms: seq<Val>, args: seq<Val>, key: string)
    requires forall i :: 0 <= i < |parms| ==> IsSource(parms[i])
    ensures key in Bind(parms, args) <==> exists i :: 0 <= i < |parms| && PropKey(parms[i]) == key
    decreases |parms|
  {
    if parms != [] {
      var init := parms[..|parms| - 1];
      BindDomain(init, args, key);
      if key in Bind(init, args) {
        var i :| 0 <= i < |init| && PropKey(init[i]) == key;
        assert parms[i] == init[i];
      }
      if exists i :: 0 <= i < |parms| && PropKey(parms[i]) == key {
        var i :| 0 <= i < |parms| && PropKey(parms[i]) == key;
        if i < |init| {
          assert parms[i] == init[i];
        }
      }
    }
  }

  /** Each parameter's key maps to the argument at the position of its
      last occurrence, `undefined` past the end of the arguments. */
  lemma {:induction false} BindValue(parms: seq<Val>, args: seq<Val>, i: nat)
    requires forall j :: 0 <= j < |parms| ==> IsSource(parms[j])
    requires i < |parms| && forall j :: i < j < |parms| ==> PropKey(parms[j]) != PropKey(parms[i])
    ensures PropKey(parms[i]) in Bind(parms, args) && Bind(parms, args)[PropKey(parms[i])] == Arg(args, i)
    decreases |parms|
  {
    if i < |parms| - 1 {
      var init := parms[..|parms| - 1];
      assert init[i] == parms[i];
      assert forall j :: i < j < |init| ==> init[j] == parms[j];
      BindValue(init, args, i);
    }
  }

  /** A call binds the parameters in a fresh frame appended to the store,
      whose `outer` is the defining frame; the defining frame and all
      older frames are untouched, and a parameter shadows every outer
      binding of its name. */
  lemma InvokeParameter(st: Store, parms: seq<Val>, d: nat, args: seq<Val>, i: nat, fuel: nat)
    requires StoreWf(st) && d < |st|
    requires forall j :: 0 <= j < |parms| ==> IsSource(parms[j])
    requires forall j :: 0 <= j < |args| ==> ValWf(args[j], |st|)
    requires i < |parms| && parms[i].Sym? && forall j :: i < j < |parms| ==> PropKey(parms[j]) != parms[i].s
    ensures var o := Invoke(st, parms, parms[i], d, args, fuel);
      && o.result == Ok(Arg(args, i))
      && o.store == st + [Frame(Bind(parms, args), Some(d))]
  {
    BindValue(parms, args, i);
  }

  /** An application evaluates the operator first (a failure there stops
      everything), then the operands, then calls the procedure: a standard
      procedure directly, a closure in a fresh frame one level deeper, and
      anything else throws. */
  lemma ApplicationOrder(st: Store, env: nat, x: Val, fuel: nat)
    requires StoreWf(st) && env < |st| && IsSource(x) && x.List? && |x.items| > 0
    requires x.items[0] !in [Sym("quote"), Sym("if"), Sym("define"), Sym("set!"), Sym("lambda")]
    ensures var f := Eval(st, env, x.items[0], fuel);
      var o := Eval(st, env, x, fuel);
      && (f.result.Err? ==> o == f)
      && (f.result.Ok? ==>
            var a := EvalArgs(f.store, env, x, 1, [], fuel);
            && (a.result.Err? ==> o == Outcome(Err(a.result.msg), a.store))
            && (a.result.Ok? ==>
                  match f.result.value
                  case Prim(name) => o == Outcome(PrimApply(name, a.result.value), a.store)
                  case Proc(parms, body, d) =>
                    o == if fuel == 0 then Outcome(Err(StackOverflow), a.store)
                         else Invoke(a.store, parms, body, d, a.result.value, fuel - 1)
                  case _ => o == Outcome(Err(NotAFunction), a.store)))
  {
    Application(st, env, x, fuel);
  }

  /** `((lambda x x) 7)` in the global environment: the single parameter
      is wrapped, the call appends a frame binding `x` to 7 whose `outer`
      is the global frame, and the global frame is left unchanged. */
  lemma ClosureExample(fuel: nat)
    requires fuel > 0
    ensures Eval(GlobalStore(), 0, List([List([Sym("lambda"), Sym("x"), Sym("x")]), Num(7)]), fuel)
         == Outcome(Ok(Num(7)), GlobalStore() + [Frame(map["x" := Num(7)], Some(0))])
  {
    var st := GlobalStore();
    var lam := List([Sym("lambda"), Sym("x"), Sym("x")]);
    var x := List([lam, Num(7)]);
    LambdaWrapsParameter(st, 0, Sym("x"), Sym("x"), fuel);
    assert EvalArgs(st, 0, x, 1, [], fuel) == ArgsOutcome(Ok([Num(7)]), st) by {
      assert EvalArgs(st, 0, x, 2, [Num(7)], fuel) == ArgsOutcome(Ok([Num(7)]), st);
      assert [] + [Num(7)] == [Num(7)];
    }
    ApplicationOrder(st, 0, x, fuel);
    InvokeParameter(st, [Sym("x")], 0, [Num(7)], 0, fuel - 1);
    assert Bind([Sym("x")], [Num(7)]) == map["x" := Num(7)];
  }

  /** `-` negates when given one argument and subtracts when given two. */
  lemma Minus(a: int, b: int)
    ensures PrimApply("-", [Num(a)]) == Ok(Num(-a))
    ensures PrimApply("-", [Num(a), Num(b)]) == Ok(Num(a - b))
  {
  }

  /** `(+ 1 (+ (* (* 4 5) 2) (- 5 4)))`, the first example of the REPL. */
  const Sum42: Val := List([Sym("+"), Num(1),
    List([Sym("+"), List([Sym("*"), List([Sym("*"), Num(4), Num(5)]), Num(2)]),
                    List([Sym("-"), Num(5), Num(4)])])])

  /** `(name a b)` where `name` denotes a standard procedure and both
      operands evaluate without changing the store. */
  lemma CallPrim(st: Store, env: nat, name: string, a: Val, b: Val, fuel: nat)
    requires StoreWf(st) && env < |st| && name in ["+", "-", "*"] && IsSource(a) && IsSource(b)
    requires Eval(st, env, Sym(name), fuel) == Outcome(Ok(Prim(name)), st)
    requires Eval(st, env, a, fuel).store == st && Eval(st, env, a, fuel).result.Ok?
    requires Eval(st, env, b, fuel).store == st && Eval(st, env, b, fuel).result.Ok?
    ensures Eval(st, env, List([Sym(name), a, b]), fuel)
         == Outcome(PrimApply(name, [Eval(st, env, a, fuel).result.value, Eval(st, env, b, fuel).result.value]), st)
  {
    var x := List([Sym(name), a, b]);
    TwoOperands(st, env, x, fuel);
    ApplyPrim(st, env, x, name, [Eval(st, env, a, fuel).result.value, Eval(st, env, b, fuel).result.value], fuel);
    Application(st, env, x, fuel);
  }

  /** Applying a standard procedure: once the operator and the operands
      are evaluated, the outcome is the procedure's. */
  lemma ApplyPrim(st: Store, env: nat, x: Val, name: string, args: seq<Val>, fuel: nat)
    requires StoreWf(st) && env < |st| && IsSource(x) && x.List? && |x.items| > 0
    requires Eval(st, env, x.items[0], fuel) == Outcome(Ok(Prim(name)), st)
    requires EvalArgs(st, env, x, 1, [], fuel) == ArgsOutcome(Ok(args), st)
    ensures EvalApply(st, env, x, fuel) == Outcome(PrimApply(name, args), st)
  {
  }

  /** In the global environment every standard name evaluates to its
      procedure. */
  lemma StandardName(name: string, fuel: nat)
    requires name in StandardNames
    ensures Eval(GlobalStore(), 0, Sym(name), fuel) == Outcome(Ok(Prim(name)), GlobalStore())
  {
    assert name in GlobalStore()[0].data;
  }

  /** Two operands evaluated left to right, each leaving the store alone. */
  lemma TwoOperands(st: Store, env: nat, x: Val, fuel: nat)
    requires StoreWf(st) && env < |st| && IsSource(x) && x.List? && |x.items| == 3
    requires Eval(st, env, x.items[1], fuel).store == st && Eval(st, env, x.items[1], fuel).result.Ok?
    requires Eval(st, env, x.items[2], fuel).store == st && Eval(st, env, x.items[2], fuel).result.Ok?
    ensures EvalArgs(st, env, x, 1, [], fuel)
         == ArgsOutcome(Ok([Eval(st, env, x.items[1], fuel).result.value, Eval(st, env, x.items[2], fuel).result.value]), st)
  {
    var va, vb := Eval(st, env, x.items[1], fuel).result.value, Eval(st, env, x.items[2], fuel).result.value;
    assert EvalArgs(st, env, x, 3, [va, vb], fuel) == ArgsOutcome(Ok([va, vb]), st);
    assert [va] + [vb] == [va, vb] && [] + [va] == [va];
    assert EvalArgs(st, env, x, 2, [va], fuel) == ArgsOutcome(Ok([va, vb]), st);
  }

  /** A list whose head is not a special-form keyword is an application. */
  lemma Application(st: Store, env: nat, x: Val, fuel: nat)
    requires StoreWf(st) && env < |st| && IsSource(x) && x.List? && |x.items| > 0
    requires x.items[0] !in [Sym("quote"), Sym("if"), Sym("define"), Sym("set!"), Sym("lambda")]
    ensures Eval(st, env, x, fuel) == EvalApply(st, env, x, fuel)
  {
  }

  /** `(name a)` where `name` denotes a standard procedure and the operand
      evaluates without changing the store. */
  lemma CallPrim1(st: Store, env: nat, name: string, a: Val, fuel: nat)
    requires StoreWf(st) && env < |st| && name in ["+", "-", "*"] && IsSource(a)
    requires Eval(st, env, Sym(name), fuel) == Outcome(Ok(Prim(name)), st)
    requires Eval(st, env, a, fuel).store == st && Eval(st, env, a, fuel).result.Ok?
    ensures Eval(st, env, List([Sym(name), a]), fuel)
         == Outcome(PrimApply(name, [Eval(st, env, a, fuel).result.value]), st)
  {
    var x := List([Sym(name), a]);
    var va := Eval(st, env, a, fuel).result.value;
    assert EvalArgs(st, env, x, 1, [], fuel) == ArgsOutcome(Ok([va]), st) by {
      assert EvalArgs(st, env, x, 2, [va], fuel) == ArgsOutcome(Ok([va]), st);
      assert [] + [va] == [va];
    }
    ApplyPrim(st, env, x, name, [va], fuel);
    Application(st, env, x, fuel);
  }

  /** Integer arithmetic in the reader's syntax: numbers, the negation
      `(- e)` and the binary `(+ e e)`, `(- e e)` and `(* e e)`. */
  predicate IsArith(v: Val)
    decreases v
  {
    match v
    case Num(_) => true
    case List(items) =>
      || (|items| == 2 && items[0] == Sym("-") && IsArith(items[1]))
      || (|items| == 3 && items[0] in [Sym("+"), Sym("-"), Sym("*")] && IsArith(items[1]) && IsArith(items[2]))
    case _ => false
  }

  /** The integer an arithmetic expression denotes. */
  function ArithValue(v: Val): int
    requires IsArith(v)
    decreases v
  {
    match v
    case Num(n) => n
    case List(items) =>
      if |items| == 2 then -ArithValue(items[1])
      else if items[0] == Sym("+") then ArithValue(items[1]) + ArithValue(items[2])
      else if items[0] == Sym("-") then ArithValue(items[1]) - ArithValue(items[2])
      else ArithValue(items[1]) * ArithValue(items[2])
  }

  /** The integer a binary arithmetic operator yields. */
  function BinaryValue(op: string, x: int, y: int): int {
    if op == "+" then x + y else if op == "-" then x - y else x * y
  }

  /** In the global environment an arithmetic expression evaluates to the
      integer it denotes, calls no procedure and changes no environment. */
  lemma {:induction false} ArithEval(v: Val, fuel: nat)
    requires IsArith(v)
    ensures IsSource(v) && Eval(GlobalStore(), 0, v, fuel) == Outcome(Ok(Num(ArithValue(v))), GlobalStore())
    decreases v
  {
    if v.List? {
      var items := v.items;
      ArithEval(items[1], fuel);
      if |items| == 2 {
        assert v == List([Sym("-"), items[1]]);
        NegationStep(items[1], ArithValue(items[1]), fuel);
      } else {
        ArithEval(items[2], fuel);
        assert v == List([items[0], items[1], items[2]]);
        BinaryStep(items[0].s, items[1], items[2], ArithValue(items[1]), ArithValue(items[2]), fuel);
        assert ArithValue(v) == BinaryValue(items[0].s, ArithValue(items[1]), ArithValue(items[2]));
      }
    }
  }

  lemma NegationStep(a: Val, x: int, fuel: nat)
    requires IsSource(a) && Eval(GlobalStore(), 0, a, fuel) == Outcome(Ok(Num(x)), GlobalStore())
    ensures Eval(GlobalStore(), 0, List([Sym("-"), a]), fuel) == Outcome(Ok(Num(-x)), GlobalStore())
  {
    StandardName("-", fuel);
    CallPrim1(GlobalStore(), 0, "-", a, fuel);
    Minus(x, 0);
  }

  lemma BinaryStep(op: string, a: Val, b: Val, x: int, y: int, fuel: nat)
    requires op in ["+", "-", "*"] && IsSource(a) && IsSource(b)
    requires Eval(GlobalStore(), 0, a, fuel) == Outcome(Ok(Num(x)), GlobalStore())
    requires Eval(GlobalStore(), 0, b, fuel) == Outcome(Ok(Num(y)), GlobalStore())
    ensures Eval(GlobalStore(), 0, List([Sym(op), a, b]), fuel) == Outcome(Ok(Num(BinaryValue(op, x, y))), GlobalStore())
  {
    StandardName(op, fuel);
    CallPrim(GlobalStore(), 0, op, a, b, fuel);
    PrimBinary(op, x, y);
  }

  /** `+`, `-` and `*` on two integers. */
  lemma PrimBinary(op: string, x: int, y: int)
    requires op in ["+", "-", "*"]
    ensures PrimApply(op, [Num(x), Num(y)]) == Ok(Num(BinaryValue(op, x, y)))
  {
    if op == "+" {
      assert PrimApply("+", [Num(x), Num(y)]) == Ok(Num(x + y));
    } else if op == "-" {
      assert PrimApply("-", [Num(x), Num(y)]) == Ok(Num(x - y));
    } else {
      assert PrimApply("*", [Num(x), Num(y)]) == Ok(Num(x * y));
    }
  }

  /** `(+ 1 (+ (* (* 4 5) 2) (- 5 4)))` evaluates to 42 in the global
      environment. */
  lemma Evaluates42(fuel: nat)
    ensures Eval(GlobalStore(), 0, Sum42, fuel) == Outcome(Ok(Num(42)), GlobalStore())
  {
    assert IsArith(Sum42) && ArithValue(Sum42) == 42;
    ArithEval(Sum42, fuel);
  }

  /** The operator symbols read back as themselves. */
  lemma OperatorsReadable()
    ensures Readable(Sym("+")) && Readable(Sym("*")) && Readable(Sym("-"))
  {
    assert Atom("+") == Sym("+");
    assert Atom("*") == Sym("*");
    assert Atom("-") == Sym("-");
  }

  /** The example is readable, so the reader gives it back from its
      printed text. */
  lemma Reads42()
    ensures Readable(Sum42) && Printable(Sum42) && LParse(LispStr(Sum42)) == Ok(Sum42)
  {
    OperatorsReadable();
    var m1 := List([Sym("*"), Num(4), Num(5)]);
    assert Readable(m1);
    var m2 := List([Sym("*"), m1, Num(2)]);
    assert Readable(m2);
    var d := List([Sym("-"), Num(5), Num(4)]);
    assert Readable(d);
    assert Readable(List([Sym("+"), m2, d]));
    RoundTrip(Sum42);
  }
}
