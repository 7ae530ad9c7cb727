/**
 JSON arrays of strings and literals (RFC 8259), on characters: what Python's json.loads makes of a
 text in which no object occurs. Strings and literals are kept as they are written.
 */
module Json {
  import opened Base
  import Decimals

  // ---------------------------------------------------------------- tokens

  datatype Token = LBracket | RBracket | Comma | Atom(text: string) | White(text: string)

  /** A list, so that what follows can be named when a part is rendered. */
  datatype Tokens = End | Then(head: Token, tail: Tokens)

  function TokenText(t: Token): string {
    match t
    case LBracket => "["
    case RBracket => "]"
    case Comma => ","
    case Atom(text) => text
    case White(text) => text
  }

  function Text(ts: Tokens): string {
    match ts case End => "" case Then(t, rest) => TokenText(t) + Text(rest)
  }

  function DropWhite(ts: Tokens): Tokens {
    match ts case End => End case Then(t, rest) => if t.White? then DropWhite(rest) else Then(t, DropWhite(rest))
  }

  // ---------------------------------------------------------------- strings and literals

  predicate IsWhite(c: char) { c == ' ' || c == '\t' || c == '\n' || c == '\r' }

  /** Characters of numbers and names. */
  predicate IsBare(c: char) {
    'a' <= c <= 'z' || 'A' <= c <= 'Z' || Decimals.IsDigit(c) || c == '_' || c == '-' || c == '+' || c == '.'
  }

  predicate IsHex(c: char) { Decimals.IsDigit(c) || 'a' <= c <= 'f' || 'A' <= c <= 'F' }

  /** Characters a string may hold unescaped. */
  predicate IsPlain(c: char) { c >= ' ' && c != '\"' && c != '\\' }

  /** Just behind the closing quote of the string whose inside continues at `i`, or 0 if there is no such string. */
  function Scan(s: string, i: nat): (j: nat)
    requires i <= |s|
    ensures j == 0 || i < j <= |s|
    decreases |s| - i
  {
    if i == |s| then 0
    else if s[i] == '\"' then i + 1
    else if IsPlain(s[i]) then Scan(s, i + 1)
    else if s[i] != '\\' || i + 1 == |s| then 0
    else if s[i + 1] in {'\"', '\\', '/', 'b', 'f', 'n', 'r', 't'} then Scan(s, i + 2)
    else if s[i + 1] == 'u' && i + 6 <= |s| && IsHex(s[i + 2]) && IsHex(s[i + 3]) && IsHex(s[i + 4]) && IsHex(s[i + 5])
    then Scan(s, i + 6)
    else 0
  }

  predicate IsString(t: string) {
    |t| >= 2 && t[0] == '\"' && Scan(t, 1) == |t|
  }

  predicate IsBareWord(t: string) {
    t != "" && forall i :: 0 <= i < |t| ==> IsBare(t[i])
  }

  /** Optional minus sign, digits without leading zero, optional fraction, optional exponent. */
  predicate IsNumber(t: string) {
    var a := if t != "" && t[0] == '-' then 1 else 0;
    var b := Span(t, a, Decimals.IsDigit);
    && a < b && (t[a] == '0' ==> b == a + 1)
    && var c := if b < |t| && t[b] == '.' then Span(t, b + 1, Decimals.IsDigit) else b;
    && c != b + 1
    && (c == |t| || (t[c] in {'e', 'E'} && IsExponent(t, c + 1)))
  }

  predicate IsExponent(t: string, i: nat)
    requires i <= |t|
  {
    var d := if i < |t| && t[i] in {'+', '-'} then i + 1 else i;
    d < |t| && Span(t, d, Decimals.IsDigit) == |t|
  }

  /** What json.loads reads as a value of its own, its three extensions for floats included. */
  predicate IsLiteral(t: string) {
    t in {"true", "false", "null", "NaN", "Infinity", "-Infinity"} || IsNumber(t)
  }

  predicate IsAtom(t: string) { IsString(t) || IsLiteral(t) }

  // ---------------------------------------------------------------- reading

  function Prepend(t: Token, ts: Option<Tokens>): Option<Tokens> {
    if ts.Some? then Some(Then(t, ts.value)) else None
  }

  /** The tokens of a text without whitespace, or None where it has a character that belongs to none. */
  function Lex(s: string): Option<Tokens>
    decreases |s|
  {
    if s == "" then Some(End)
    else if IsWhite(s[0]) then Lex(s[1..])
    else if s[0] == '[' then Prepend(LBracket, Lex(s[1..]))
    else if s[0] == ']' then Prepend(RBracket, Lex(s[1..]))
    else if s[0] == ',' then Prepend(Comma, Lex(s[1..]))
    else
      var n := if s[0] == '\"' then Scan(s, 1) else Span(s, 0, IsBare);
      if n == 0 then None else Prepend(Atom(s[..n]), Lex(s[n..]))
  }

  datatype Value = Scalar(text: string) | Array(items: seq<Value>)
  datatype Parse<T> = Fail | Parsed(value: T, rest: Tokens)

  function Length(ts: Tokens): nat {
    match ts case End => 0 case Then(_, rest) => 1 + Length(rest)
  }

  function ParseValue(ts: Tokens): (r: Parse<Value>)
    ensures r.Parsed? ==> Length(r.rest) < Length(ts)
    decreases Length(ts), 0
  {
    match ts
    case Then(Atom(text), rest) => if IsAtom(text) then Parsed(Scalar(text), rest) else Fail
    case Then(LBracket, Then(RBracket, rest)) => Parsed(Array([]), rest)
    case Then(LBracket, rest) =>
      (match ParseItems(rest)
       case Fail => Fail
       case Parsed(items, rest') => Parsed(Array(items), rest'))
    case _ => Fail
  }

  /** Items separated by commas up to and including the closing bracket. */
  function ParseItems(ts: Tokens): (r: Parse<seq<Value>>)
    ensures r.Parsed? ==> Length(r.rest) < Length(ts)
    decreases Length(ts), 1
  {
    match ParseValue(ts)
    case Parsed(v, Then(RBracket, rest)) => Parsed([v], rest)
    case Parsed(v, Then(Comma, rest)) =>
      (match ParseItems(rest)
       case Fail => Fail
       case Parsed(vs, rest') => Parsed([v] + vs, rest'))
    case _ => Fail
  }

  /** The whole of the tokens must be one value. */
  function ParseAll(ts: Tokens): Option<Value> {
    var r := ParseValue(ts);
    if r.Parsed? && r.rest == End then Some(r.value) else None
  }

  function Loads(s: string): Option<Value> {
    var ts := Lex(s);
    if ts.Some? then ParseAll(ts.value) else None
  }

  // ---------------------------------------------------------------- texts that read as the tokens they were made from

  ghost predicate AllWhite(s: string) { forall i :: 0 <= i < |s| ==> IsWhite(s[i]) }

  predicate IsMark(t: Token) { t.LBracket? || t.RBracket? || t.Comma? }

  /** Whitespace is JSON's own, and a bare word is followed by a mark that ends it. */
  ghost predicate Lexable(ts: Tokens) {
    match ts
    case End => true
    case Then(White(w), rest) => AllWhite(w) && Lexable(rest)
    case Then(Atom(t), rest) =>
      Lexable(rest) && (IsString(t) || (IsBareWord(t) && rest.Then? && IsMark(rest.head)))
    case Then(_, rest) => Lexable(rest)
  }

  lemma {:induction false} ScanInLonger(t: string, rest: string, i: nat)
    requires i <= |t| && Scan(t, i) != 0
    ensures Scan(t + rest, i) == Scan(t, i)
    decreases |t| - i
  {
    var s := t + rest;
    assert forall k :: 0 <= k < |t| ==> s[k] == t[k];
    if t[i] != '\"' {
      if IsPlain(t[i]) {
        ScanInLonger(t, rest, i + 1);
      } else if t[i + 1] in {'\"', '\\', '/', 'b', 'f', 'n', 'r', 't'} {
        ScanInLonger(t, rest, i + 2);
      } else {
        ScanInLonger(t, rest, i + 6);
      }
    }
  }

  lemma {:induction false} ScanPlain(s: string, i: nat)
    requires i < |s| && s[|s| - 1] == '\"' && forall k :: i <= k < |s| - 1 ==> IsPlain(s[k])
    ensures Scan(s, i) == |s|
    decreases |s| - i
  {
    if i < |s| - 1 {
      ScanPlain(s, i + 1);
    }
  }

  lemma {:induction false} LexWhite(w: string, s: string)
    requires AllWhite(w)
    ensures Lex(w + s) == Lex(s)
  {
    if w == "" {
      assert w + s == s;
    } else {
      assert (w + s)[1..] == w[1..] + s;
      LexWhite(w[1..], s);
    }
  }

  lemma LexAtom(t: string, s: string)
    requires IsString(t) || (IsBareWord(t) && (s == "" || !IsBare(s[0])))
    ensures Lex(t + s) == Prepend(Atom(t), Lex(s))
  {
    var all := t + s;
    assert all[..|t|] == t && all[|t|..] == s && all[0] == t[0];
    if IsString(t) {
      ScanInLonger(t, s, 1);
    } else {
      assert IsBare(t[0]);
      assert forall k :: 0 <= k < |t| ==> all[k] == t[k];
      SpanTo(all, 0, |t|, IsBare);
    }
  }

  lemma LexMark(t: Token, s: string)
    requires IsMark(t)
    ensures Lex(TokenText(t) + s) == Prepend(t, Lex(s))
  {
    assert (TokenText(t) + s)[1..] == s;
  }

  /** A text made from tokens lexes to those tokens without the whitespace. */
  lemma {:induction false} LexText(ts: Tokens)
    requires Lexable(ts)
    ensures Lex(Text(ts)) == Some(DropWhite(ts))
  {
    match ts
    case End =>
    case Then(t, rest) =>
      LexText(rest);
      match t
      case White(w) => LexWhite(w, Text(rest));
      case Atom(text) => LexAtom(text, Text(rest));
      case _ => LexMark(t, Text(rest));
  }

  // ---------------------------------------------------------------- what parsing preserves

  /** Opening brackets less closing brackets. */
  function Balance(ts: Tokens): int {
    match ts
    case End => 0
    case Then(t, rest) => (if t.LBracket? then 1 else if t.RBracket? then -1 else 0) + Balance(rest)
  }

  /** Atoms that are no values. */
  function Rejected(ts: Tokens): nat {
    match ts
    case End => 0
    case Then(t, rest) => (if t.Atom? && !IsAtom(t.text) then 1 else 0) + Rejected(rest)
  }

  lemma {:induction false} ParsedIsSound(ts: Tokens)
    ensures var r := ParseValue(ts);
            r.Parsed? ==> Balance(ts) == Balance(r.rest) && Rejected(ts) == Rejected(r.rest)
    decreases Length(ts), 0
  {
    if ts.Then? && ts.head == LBracket && ts.tail.Then? && ts.tail.head != RBracket {
      ItemsAreSound(ts.tail);
    }
  }

  lemma {:induction false} ItemsAreSound(ts: Tokens)
    ensures var r := ParseItems(ts);
            r.Parsed? ==> Balance(ts) == Balance(r.rest) - 1 && Rejected(ts) == Rejected(r.rest)
    decreases Length(ts), 1
  {
    ParsedIsSound(ts);
    var r := ParseValue(ts);
    if r.Parsed? && r.rest.Then? && r.rest.head == Comma {
      ItemsAreSound(r.rest.tail);
    }
  }

  /** Only tokens with matching brackets and no rejected atom make a value. */
  lemma ValueIsSound(ts: Tokens)
    ensures ParseAll(ts).Some? ==> Balance(ts) == 0 && Rejected(ts) == 0
  {
    ParsedIsSound(ts);
  }

  lemma {:induction ts} DropKeeps(ts: Tokens)
    ensures Balance(DropWhite(ts)) == Balance(ts) && Rejected(DropWhite(ts)) == Rejected(ts)
  {}
}
