/**
 The line-by-line rewriter of ci/travis/bazel.py that turns neatly indented textproto into JSON.
 It looks at one line at a time and remembers a single bit; the theorems below tie what it yields
 to a recursive rendering of the nested input as JSON arrays (section 5 of RFC 8259).
 */
module Textproto {
  import opened Base
  import opened Json
  import Decimals

  // ---------------------------------------------------------------- the rewriter, on characters

  predicate IsBlank(c: char) { c == ' ' || c == '\t' || c == '\U{0B}' || c == '\U{0C}' }
  predicate IsBreak(c: char) { c == '\n' || c == '\r' }
  predicate IsSpace(c: char) { IsBlank(c) || IsBreak(c) }
  predicate IsWord(c: char) { 'a' <= c <= 'z' || 'A' <= c <= 'Z' || '0' <= c <= '9' || c == '_' || c == '-' }
  predicate IsOpenWord(c: char) { IsWord(c) || c == ':' }

  predicate EndsWith(s: string, c: char) {
    |s| > 0 && s[|s| - 1] == c
  }

  function Quoted(key: string): string { "\"" + key + "\"" }

  function OpenedText(indent: string, key: string, gap: string): string {
    indent + ("[" + (Quoted(key) + ("," + (gap + "["))))
  }

  function FieldedText(indent: string, key: string, value: string): string {
    indent + ("[" + (Quoted(key) + ("," + (" " + (value + "]")))))
  }

  /** Where the groups of a pattern end in a line that matches it. */
  datatype Groups = NoMatch | Groups(a: nat, b: nat, c: nat)

  /** The pattern of a whole line `  key {`: blanks, key, blanks, brace. */
  function MatchOpen(line: string): (g: Groups)
    ensures g.Groups? ==> g.a < g.b <= g.c < |line|
  {
    var a := Span(line, 0, IsSpace);
    var b := Span(line, a, IsOpenWord);
    var c := Span(line, b, IsSpace);
    if a < b && c + 1 == |line| && line[c] == '{' then Groups(a, b, c) else NoMatch
  }

  function SubOpen(line: string): string {
    match MatchOpen(line)
    case NoMatch => line
    case Groups(a, b, c) => OpenedText(line[..a], line[a..b], line[b..c])
  }

  /** Replaces a final closing brace. */
  function SubClose(line: string): string {
    if EndsWith(line, '}') then line[..|line| - 1] + "]" else line
  }

  /** A quoted value is evaluated and encoded again by `enc`; anything else is kept as written. */
  function FormatValue(value: string, enc: string -> string): string {
    if "\"" <= value then enc(value) else value
  }

  /** The pattern of a whole line `  key: value`: blanks, key, colon and space, the rest. */
  function MatchField(line: string): (g: Groups)
    ensures g.Groups? ==> g.a < g.b <= g.c <= |line|
  {
    var a := Span(line, 0, IsSpace);
    var b := Span(line, a, IsWord);
    if a < b && b + 2 <= |line| && line[b] == ':' && line[b + 1] == ' ' then Groups(a, b, b + 2) else NoMatch
  }

  function SubField(line: string, enc: string -> string): string {
    match MatchField(line)
    case NoMatch => line
    case Groups(a, b, c) => FieldedText(line[..a], line[a..b], FormatValue(line[c..], enc))
  }

  datatype Rewriter = Rewriter(chunks: seq<string>, outputs: seq<string>, prevComma: bool, prevTail: string)

  const START := Rewriter([], [], false, "")

  function Join(parts: seq<string>): string {
    if parts == [] then "" else Join(parts[..|parts| - 1]) + parts[|parts| - 1]
  }

  function Step(s: Rewriter, fullLine: string, enc: string -> string): Rewriter {
    var cut := Span(fullLine, 0, c => !IsBreak(c));
    var line, tail := fullLine[..cut], fullLine[cut..];
    var afterOpen := SubOpen(line);
    var sep := if !s.prevComma then "" else if EndsWith(afterOpen, '}') then "]" else ",";
    var next := SubField(SubClose(afterOpen), enc);
    var outputs := s.outputs + [sep] + [s.prevTail + next];
    Rewriter(
      if line == "}" then s.chunks + [Join(outputs)] else s.chunks,
      if line == "}" then [] else outputs,
      line != "}" && (EndsWith(next, ']') || EndsWith(next, '\"')),
      tail)
  }

  function Steps(s: Rewriter, lines: seq<string>, enc: string -> string): Rewriter
    decreases |lines|
  {
    if lines == [] then s else Steps(Step(s, lines[0], enc), lines[1..], enc)
  }

  lemma {:induction false} StepsConcat(s: Rewriter, a: seq<string>, b: seq<string>, enc: string -> string)
    ensures Steps(s, a + b, enc) == Steps(Steps(s, a, enc), b, enc)
    decreases |a|
  {
    if a == [] {
      assert a + b == b;
    } else {
      assert (a + b)[1..] == a[1..] + b;
      StepsConcat(Step(s, a[0], enc), a[1..], b, enc);
    }
  }

  lemma StepsSnoc(lines: seq<string>, i: nat, enc: string -> string)
    requires i < |lines|
    ensures Steps(START, lines[..i + 1], enc) == Step(Steps(START, lines[..i], enc), lines[i], enc)
  {
    assert lines[..i + 1] == lines[..i] + [lines[i]];
    StepsConcat(START, lines[..i], [lines[i]], enc);
    assert [lines[i]][1..] == [];
  }

  function Flush(s: Rewriter): seq<string> {
    if s.outputs != [] then s.chunks + [Join(s.outputs)] else s.chunks
  }

  /** The chunks yielded for a whole input. */
  function Chunks(lines: seq<string>, enc: string -> string): seq<string> {
    Flush(Steps(START, lines, enc))
  }

  method TextprotoSplit(lines: seq<string>, enc: string -> string) returns (chunks: seq<string>)
    ensures chunks == Chunks(lines, enc)
  {
    chunks := [];
    var outputs: seq<string> := [];
    var prevComma, prevTail := false, "";
    for i := 0 to |lines|
      invariant Steps(START, lines[..i], enc) == Rewriter(chunks, outputs, prevComma, prevTail)
    {
      StepsSnoc(lines, i, enc);
      var cut := Span(lines[i], 0, c => !IsBreak(c));
      var line, tail := lines[i][..cut], lines[i][cut..];
      var next := SubOpen(line);
      outputs := outputs + [if !prevComma then "" else if EndsWith(next, '}') then "]" else ","];
      next := SubClose(next);
      next := SubField(next, enc);
      outputs := outputs + [prevTail + next];
      if line == "}" {
        chunks := chunks + [Join(outputs)];
        outputs := [];
      }
      prevComma := line != "}" && (EndsWith(next, ']') || EndsWith(next, '\"'));
      prevTail := tail;
    }
    assert lines[..|lines|] == lines;
    if outputs != [] {
      chunks := chunks + [Join(outputs)];
      outputs := [];
    }
  }

  // ---------------------------------------------------------------- lines and JSON tokens

  /** The three kinds of neatly formatted line. */
  datatype Line =
    | Open(indent: string, key: string, gap: string)
    | Field(indent: string, key: string, value: string)
    | Close(indent: string)
  {
    function Text(): string {
      match this
      case Open(indent, key, gap) => indent + key + gap + "{"
      case Field(indent, key, value) => indent + key + ": " + value
      case Close(indent) => indent + "}"
    }

    ghost predicate Ok() {
      && AllBlank(indent)
      && (Open? ==> IsOpenKey(key) && AllBlank(gap))
      && (Field? ==> IsKey(key) && IsValue(value))
    }
  }

  ghost predicate AllBlank(s: string) { forall i :: 0 <= i < |s| ==> IsBlank(s[i]) }
  ghost predicate IsKey(s: string) { s != "" && forall i :: 0 <= i < |s| ==> IsWord(s[i]) }
  ghost predicate IsOpenKey(s: string) { s != "" && forall i :: 0 <= i < |s| ==> IsOpenWord(s[i]) }

  /** The length of the escape at `i`, behind its backslash: one character, or the letter x and two hexadecimal digits. */
  function EscapeLength(s: string, i: nat): (n: nat)
    ensures n > 0 ==> i + n <= |s| && forall k :: i <= k < i + n ==> !IsBreak(s[k])
  {
    if i >= |s| || IsBreak(s[i]) || s[i] in "\0uUN" then 0
    else if s[i] != 'x' then 1
    else if i + 2 < |s| && IsHex(s[i + 1]) && IsHex(s[i + 2]) then 3
    else 0
  }

  /** From `i` on there is the rest of one string literal and nothing else: only its last quote is not escaped. */
  ghost predicate ClosesString(s: string, i: nat): (closes: bool)
    ensures closes ==> s != "" && s[|s| - 1] == '\"' && forall k :: i <= k < |s| ==> !IsBreak(s[k])
    decreases |s| - i
  {
    if i >= |s| || IsBreak(s[i]) || s[i] == '\0' then false
    else if s[i] == '\"' then i + 1 == |s|
    else if s[i] == '\\' then EscapeLength(s, i + 1) > 0 && ClosesString(s, i + 1 + EscapeLength(s, i + 1))
    else ClosesString(s, i + 1)
  }

  /** One quoted string on one line. */
  ghost predicate IsQuoted(s: string) {
    s != "" && s[0] == '\"' && ClosesString(s, 1)
  }

  /** The scalars of the textual format: quoted strings, and bare words such as numbers, booleans and the names of enumeration values. */
  ghost predicate IsValue(s: string) { IsQuoted(s) || IsBareWord(s) }

  /** Encoding a quoted string again gives a JSON string. */
  ghost predicate EncodesStrings(enc: string -> string) {
    forall v :: IsQuoted(v) ==> IsString(enc(v))
  }

  ghost predicate IsEol(s: string) {
    s != "" && forall i :: 0 <= i < |s| ==> IsBreak(s[i])
  }

  /** A line as JSON tokens, followed by `k`. */
  function LineTokens(l: Line, enc: string -> string, k: Tokens): Tokens {
    match l
    case Open(indent, key, gap) =>
      Then(White(indent), Then(LBracket, Then(Atom(Quoted(key)), Then(Comma, Then(White(gap), Then(LBracket, k))))))
    case Field(indent, key, value) =>
      Then(White(indent), Then(LBracket, Then(Atom(Quoted(key)), Then(Comma, Then(White(" "),
        Then(Atom(FormatValue(value, enc)), Then(RBracket, k)))))))
    case Close(indent) => Then(White(indent), Then(RBracket, k))
  }

  predicate EndsTop(l: Line) { l == Close("") }

  /** Whether a separator is owed after this line. */
  predicate Owes(l: Line) { !l.Open? && !EndsTop(l) }

  /** A line with the separator owed before it and the previous line's ending. */
  function Emit(owed: bool, tail: string, l: Line, enc: string -> string, k: Tokens): Tokens {
    var rest := Then(White(tail), LineTokens(l, enc, k));
    if !owed then rest else Then(if l.Close? then RBracket else Comma, rest)
  }

  function EmitAll(ls: seq<Line>, owed: bool, tail: string, eol: string, enc: string -> string, k: Tokens): Tokens {
    if ls == [] then k
    else Emit(owed, tail, ls[0], enc, EmitAll(ls[1..], Owes(ls[0]), eol, eol, enc, k))
  }

  function OwedAfter(ls: seq<Line>, owed: bool): bool {
    if ls == [] then owed else Owes(ls[|ls| - 1])
  }

  function TailAfter(ls: seq<Line>, tail: string, eol: string): string {
    if ls == [] then tail else eol
  }

  lemma {:induction false} EmitConcat(a: seq<Line>, b: seq<Line>, owed: bool, tail: string, eol: string, enc: string -> string, k: Tokens)
    ensures EmitAll(a + b, owed, tail, eol, enc, k) ==
            EmitAll(a, owed, tail, eol, enc, EmitAll(b, OwedAfter(a, owed), TailAfter(a, tail, eol), eol, enc, k))
  {
    if a == [] {
      assert a + b == b;
    } else {
      assert (a + b)[1..] == a[1..] + b;
      EmitConcat(a[1..], b, Owes(a[0]), eol, eol, enc, k);
    }
  }

  // ---------------------------------------------------------------- the rewriter, on lines

  function LineString(l: Line, enc: string -> string): string {
    match l
    case Open(indent, key, gap) => OpenedText(indent, key, gap)
    case Field(indent, key, value) => FieldedText(indent, key, FormatValue(value, enc))
    case Close(indent) => indent + "]"
  }

  lemma Regroup3(a: string, b: string, c: string, d: string)
    ensures (a + (b + c)) + d == a + (b + (c + d))
  {}

  lemma LineText(l: Line, enc: string -> string, k: Tokens)
    ensures Text(LineTokens(l, enc, k)) == LineString(l, enc) + Text(k)
  {
    var line := LineTokens(l, enc, k);
    if !l.Close? {
      var t := line.tail.tail;
      assert Text(t) == Quoted(l.key) + ("," + Text(t.tail.tail));
      assert Text(line) == l.indent + ("[" + Text(t));
    }
    match l
    case Open(indent, key, gap) =>
      var tail := "," + (gap + "[");
      Regroup3(",", gap, "[", Text(k));
      Regroup3("[", Quoted(key), tail, Text(k));
      Regroup(indent, "[" + (Quoted(key) + tail), Text(k));
    case Field(indent, key, value) =>
      var v := FormatValue(value, enc);
      assert Text(line.tail.tail.tail.tail) == " " + (v + Text(Then(RBracket, k)));
      Regroup3(" ", v, "]", Text(k));
      Regroup3(Quoted(key), ",", " " + (v + "]"), Text(k));
      Regroup3(indent, "[", Quoted(key) + ("," + (" " + (v + "]"))), Text(k));
    case Close(indent) =>
      Regroup(indent, "]", Text(k));
  }

  ghost predicate AllWord(s: string) { forall i :: 0 <= i < |s| ==> IsWord(s[i]) }
  ghost predicate AllOpenWord(s: string) { forall i :: 0 <= i < |s| ==> IsOpenWord(s[i]) }

  lemma OpenShape(s: string, n: nat, m: nat, g: nat)
    requires n < m <= g && g + 1 == |s| && s[g] == '{'
    requires AllBlank(s[..n]) && AllOpenWord(s[n..m]) && AllBlank(s[m..g])
    ensures MatchOpen(s) == Groups(n, m, g)
  {
    assert forall k :: 0 <= k < n ==> s[k] == s[..n][k];
    assert forall k :: n <= k < m ==> s[k] == s[n..m][k - n];
    assert forall k :: m <= k < g ==> s[k] == s[m..g][k - m];
    SpanTo(s, 0, n, IsSpace);
    SpanTo(s, n, m, IsOpenWord);
    SpanTo(s, m, g, IsSpace);
  }

  lemma OpenLine(indent: string, key: string, gap: string)
    requires Open(indent, key, gap).Ok()
    ensures SubOpen(indent + key + gap + "{") == OpenedText(indent, key, gap)
  {
    var s, n, m, g := indent + key + gap + "{", |indent|, |indent| + |key|, |indent| + |key| + |gap|;
    assert s[..n] == indent && s[n..m] == key && s[m..g] == gap;
    OpenShape(s, n, m, g);
  }

  lemma FieldShape(s: string, n: nat, m: nat)
    requires n < m && m + 2 < |s| && s[m] == ':' && s[m + 1] == ' '
    requires AllBlank(s[..n]) && AllWord(s[n..m])
    ensures MatchField(s) == Groups(n, m, m + 2)
  {
    assert forall k :: 0 <= k < n ==> s[k] == s[..n][k];
    assert forall k :: n <= k < m ==> s[k] == s[n..m][k - n];
    SpanTo(s, 0, n, IsSpace);
    SpanTo(s, n, m, IsWord);
  }

  lemma NotOpened(s: string)
    requires !EndsWith(s, '{')
    ensures MatchOpen(s) == NoMatch
  {}

  lemma FieldLine(indent: string, key: string, value: string, enc: string -> string)
    requires Field(indent, key, value).Ok()
    ensures var s := indent + key + ": " + value;
            SubOpen(s) == s && !EndsWith(s, '}')
            && SubField(s, enc) == FieldedText(indent, key, FormatValue(value, enc))
  {
    var s, n, m := indent + key + ": " + value, |indent|, |indent| + |key|;
    assert s[..n] == indent && s[n..m] == key && s[m + 2..] == value;
    assert s[|s| - 1] == value[|value| - 1];
    NotOpened(s);
    FieldShape(s, n, m);
  }

  /** Once a bracket or a brace follows the indentation, a line is neither a field nor an opening. */
  lemma BracketLine(s: string, n: nat)
    requires n < |s| && AllBlank(s[..n]) && s[n] in {'[', ']', '}'}
    ensures MatchField(s) == NoMatch && MatchOpen(s) == NoMatch
  {
    assert forall k :: 0 <= k < n ==> s[k] == s[..n][k];
    SpanTo(s, 0, n, IsSpace);
    SpanTo(s, n, n, IsWord);
    SpanTo(s, n, n, IsOpenWord);
  }

  lemma OpenRewritten(indent: string, key: string, gap: string, enc: string -> string)
    requires Open(indent, key, gap).Ok()
    ensures var after := SubOpen(indent + key + gap + "{");
            after == OpenedText(indent, key, gap) && !EndsWith(after, '}') && SubField(after, enc) == after
  {
    OpenLine(indent, key, gap);
    var s := OpenedText(indent, key, gap);
    assert s[..|indent|] == indent && s[|indent|] == '[';
    BracketLine(s, |indent|);
  }

  lemma CloseRewritten(indent: string, enc: string -> string)
    requires AllBlank(indent)
    ensures SubOpen(indent + "}") == indent + "}" && SubField(SubClose(indent + "}"), enc) == indent + "]"
  {
    assert (indent + "}")[..|indent|] == indent && (indent + "]")[..|indent|] == indent;
    BracketLine(indent + "}", |indent|);
    BracketLine(indent + "]", |indent|);
  }

  /** What the three substitutions make of a well-formed line. */
  lemma RewrittenText(l: Line, enc: string -> string)
    requires l.Ok()
    ensures SubField(SubClose(SubOpen(l.Text())), enc) == LineString(l, enc)
    ensures EndsWith(SubOpen(l.Text()), '}') <==> l.Close?
  {
    match l
    case Open(indent, key, gap) => OpenRewritten(indent, key, gap, enc);
    case Field(indent, key, value) => FieldLine(indent, key, value, enc);
    case Close(indent) => CloseRewritten(indent, enc);
  }

  /** The character tests on a well-formed line tell what kind of line it is. */
  lemma LineTests(l: Line, eol: string, enc: string -> string)
    requires l.Ok() && IsEol(eol)
    ensures Span(l.Text() + eol, 0, c => !IsBreak(c)) == |l.Text()|
    ensures l.Text() == "}" <==> EndsTop(l)
    ensures (EndsWith(LineString(l, enc), ']') <==> !l.Open?) && !EndsWith(LineString(l, enc), '\"')
  {
    var line, full := l.Text(), l.Text() + eol;
    assert forall i :: 0 <= i < |line| ==> !IsBreak(line[i]);
    assert forall i :: 0 <= i < |line| ==> full[i] == line[i];
    SpanTo(full, 0, |line|, c => !IsBreak(c));
    assert line == "}" ==> line[0] == '}';
    assert !l.Close? ==> |line| >= 2;
  }

  function SeparatorText(owed: bool, l: Line): string {
    if !owed then "" else if l.Close? then "]" else ","
  }

  function LineOutputs(r: Rewriter, l: Line, enc: string -> string): seq<string> {
    r.outputs + [SeparatorText(r.prevComma, l)] + [r.prevTail + LineString(l, enc)]
  }

  function LineStep(r: Rewriter, l: Line, eol: string, enc: string -> string): Rewriter {
    var outputs := LineOutputs(r, l, enc);
    if EndsTop(l) then Rewriter(r.chunks + [Join(outputs)], [], false, eol)
    else Rewriter(r.chunks, outputs, Owes(l), eol)
  }

  lemma StepOnLine(r: Rewriter, l: Line, eol: string, enc: string -> string)
    requires l.Ok() && IsEol(eol)
    ensures Step(r, l.Text() + eol, enc) == LineStep(r, l, eol, enc)
  {
    var line, full := l.Text(), l.Text() + eol;
    LineTests(l, eol, enc);
    assert full[..|line|] == line && full[|line|..] == eol;
    RewrittenText(l, enc);
  }

  lemma JoinTwo(parts: seq<string>, a: string, b: string)
    ensures Join(parts + [a] + [b]) == Join(parts) + (a + b)
  {
    assert (parts + [a] + [b])[..|parts| + 1] == parts + [a];
    assert (parts + [a])[..|parts|] == parts;
    Regroup(Join(parts), a, b);
  }

  lemma EmitText(owed: bool, tail: string, l: Line, enc: string -> string, k: Tokens)
    ensures Text(Emit(owed, tail, l, enc, k)) == SeparatorText(owed, l) + (tail + LineString(l, enc)) + Text(k)
  {
    LineText(l, enc, k);
    var line := LineString(l, enc);
    Regroup(tail, line, Text(k));
    Regroup(SeparatorText(owed, l), tail + line, Text(k));
    assert "" + (tail + line + Text(k)) == tail + line + Text(k);
  }

  /** What a line adds to the text joined so far is what its tokens read as. */
  lemma OutputsText(r: Rewriter, l: Line, enc: string -> string, k: Tokens)
    ensures Join(LineOutputs(r, l, enc)) + Text(k) == Join(r.outputs) + Text(Emit(r.prevComma, r.prevTail, l, enc, k))
  {
    var sep, body := SeparatorText(r.prevComma, l), r.prevTail + LineString(l, enc);
    JoinTwo(r.outputs, sep, body);
    EmitText(r.prevComma, r.prevTail, l, enc, k);
    Regroup(Join(r.outputs), sep + body, Text(k));
  }

  function Raw(ls: seq<Line>, eol: string): seq<string> {
    if ls == [] then [] else [ls[0].Text() + eol] + Raw(ls[1..], eol)
  }

  function LineSteps(r: Rewriter, ls: seq<Line>, eol: string, enc: string -> string): Rewriter
    decreases |ls|
  {
    if ls == [] then r else LineSteps(LineStep(r, ls[0], eol, enc), ls[1..], eol, enc)
  }

  lemma {:induction false} StepsOnLines(r: Rewriter, ls: seq<Line>, eol: string, enc: string -> string)
    requires IsEol(eol) && forall i :: 0 <= i < |ls| ==> ls[i].Ok()
    ensures Steps(r, Raw(ls, eol), enc) == LineSteps(r, ls, eol, enc)
    decreases |ls|
  {
    if ls != [] {
      StepOnLine(r, ls[0], eol, enc);
      assert Raw(ls, eol)[1..] == Raw(ls[1..], eol);
      StepsOnLines(LineStep(r, ls[0], eol, enc), ls[1..], eol, enc);
    }
  }

  lemma {:induction false} LineStepsConcat(r: Rewriter, a: seq<Line>, b: seq<Line>, eol: string, enc: string -> string)
    ensures LineSteps(r, a + b, eol, enc) == LineSteps(LineSteps(r, a, eol, enc), b, eol, enc)
    decreases |a|
  {
    if a == [] {
      assert a + b == b;
    } else {
      assert (a + b)[1..] == a[1..] + b;
      LineStepsConcat(LineStep(r, a[0], eol, enc), a[1..], b, eol, enc);
    }
  }

  /** The lines of one top-level block complete one chunk. */
  ghost predicate IsChunk(ls: seq<Line>) {
    && ls != [] && EndsTop(ls[|ls| - 1])
    && (forall i :: 0 <= i < |ls| ==> IsNeat(ls[i]))
    && (forall i :: 0 <= i < |ls| - 1 ==> !EndsTop(ls[i]))
  }

  function ChunkDone(r: Rewriter, ts: Tokens, eol: string): Rewriter {
    Rewriter(r.chunks + [Join(r.outputs) + Text(ts)], [], false, eol)
  }

  lemma {:induction false} ChunkText(r: Rewriter, ls: seq<Line>, eol: string, enc: string -> string)
    requires IsChunk(ls)
    ensures LineSteps(r, ls, eol, enc) == ChunkDone(r, EmitAll(ls, r.prevComma, r.prevTail, eol, enc, End), eol)
    decreases |ls|
  {
    var l, rest := ls[0], ls[1..];
    OutputsText(r, l, enc, EmitAll(rest, Owes(l), eol, eol, enc, End));
    if rest == [] {
      assert Join(LineOutputs(r, l, enc)) + "" == Join(LineOutputs(r, l, enc));
    } else {
      ChunkText(LineStep(r, l, eol, enc), rest, eol, enc);
    }
  }

  // ---------------------------------------------------------------- brackets after every prefix

  /** Blocks opened and not yet closed. */
  function Depth(ls: seq<Line>): int {
    if ls == [] then 0
    else (if ls[0].Open? then 1 else if ls[0].Close? then -1 else 0) + Depth(ls[1..])
  }

  /** Closing lines that come when no separator is owed: right after an opening line, for one. */
  function Bare(ls: seq<Line>, owed: bool): nat {
    if ls == [] then 0
    else (if ls[0].Close? && !owed then 1 else 0) + Bare(ls[1..], Owes(ls[0]))
  }

  lemma EmitBalance(owed: bool, tail: string, l: Line, enc: string -> string, k: Tokens)
    ensures Balance(Emit(owed, tail, l, enc, k)) ==
            (if l.Open? then 2 else if l.Close? then if owed then -2 else -1 else 0) + Balance(k)
  {
    var line := LineTokens(l, enc, k);
    if !l.Close? {
      var t := line.tail.tail;
      assert Balance(line) == 1 + Balance(t);
      assert Balance(t) == Balance(t.tail.tail);
      assert l.Open? ==> Balance(t.tail.tail) == 1 + Balance(k);
      assert l.Field? ==> Balance(t.tail.tail) == Balance(Then(RBracket, k)) == -1 + Balance(k);
    }
    assert Balance(Then(White(tail), line)) == Balance(line);
  }

  /** For any lines whatever, emitted: two brackets per open block, plus one too many per bare close. */
  lemma {:induction false} EmittedBrackets(ls: seq<Line>, owed: bool, tail: string, eol: string, enc: string -> string)
    ensures Balance(EmitAll(ls, owed, tail, eol, enc, End)) == 2 * Depth(ls) + Bare(ls, owed)
  {
    if ls != [] {
      EmittedBrackets(ls[1..], Owes(ls[0]), eol, eol, enc);
      EmitBalance(owed, tail, ls[0], enc, EmitAll(ls[1..], Owes(ls[0]), eol, eol, enc, End));
    }
  }

  /** Everything written so far: the chunks yielded and the outputs still held. */
  function Written(r: Rewriter): string {
    Join(r.chunks) + Join(r.outputs)
  }

  lemma StepWrites(r: Rewriter, l: Line, eol: string, enc: string -> string)
    ensures Written(LineStep(r, l, eol, enc)) ==
            Written(r) + (SeparatorText(r.prevComma, l) + (r.prevTail + LineString(l, enc)))
  {
    var sep, body, outputs := SeparatorText(r.prevComma, l), r.prevTail + LineString(l, enc), LineOutputs(r, l, enc);
    JoinTwo(r.outputs, sep, body);
    Regroup(Join(r.chunks), Join(r.outputs), sep + body);
    if EndsTop(l) {
      assert (r.chunks + [Join(outputs)])[..|r.chunks|] == r.chunks;
      assert Join(r.chunks + [Join(outputs)]) + "" == Join(r.chunks) + Join(outputs);
    }
  }

  /** After any lines, what is written is the text of what they emit. */
  lemma {:induction false} WrittenText(r: Rewriter, ls: seq<Line>, eol: string, enc: string -> string)
    ensures Written(LineSteps(r, ls, eol, enc)) ==
            Written(r) + Text(EmitAll(ls, r.prevComma, r.prevTail, eol, enc, End))
    decreases |ls|
  {
    if ls == [] {
      assert Written(r) + "" == Written(r);
    } else {
      var l, after := ls[0], EmitAll(ls[1..], Owes(ls[0]), eol, eol, enc, End);
      StepWrites(r, l, eol, enc);
      WrittenText(LineStep(r, l, eol, enc), ls[1..], eol, enc);
      EmitText(r.prevComma, r.prevTail, l, enc, after);
      Regroup(Written(r), SeparatorText(r.prevComma, l) + (r.prevTail + LineString(l, enc)), Text(after));
    }
  }

  // ---------------------------------------------------------------- what is written can be lexed

  /** A well-formed line laid out with spaces and tabs only. */
  ghost predicate IsNeat(l: Line) {
    l.Ok() && AllWhite(l.indent) && (l.Open? ==> AllWhite(l.gap))
  }

  lemma QuotedIsString(key: string)
    requires forall i :: 0 <= i < |key| ==> IsOpenWord(key[i])
    ensures IsString(Quoted(key))
  {
    var t := Quoted(key);
    assert forall k :: 1 <= k < |t| - 1 ==> t[k] == key[k - 1];
    ScanPlain(t, 1);
  }

  /** A quoted value is formatted as a JSON string, a bare word stays as it is. */
  lemma FormattedValue(value: string, enc: string -> string)
    requires IsValue(value) && EncodesStrings(enc)
    ensures if "\"" <= value then IsString(FormatValue(value, enc))
            else IsBareWord(value) && !IsString(value) && FormatValue(value, enc) == value
  {
    assert "\"" <= value <==> value[0] == '\"';
    if IsQuoted(value) {
      assert IsString(enc(value));
    } else {
      assert IsBare(value[0]);
    }
  }

  lemma ValueIsLexable(v: string, k: Tokens)
    requires (IsString(v) || IsBareWord(v)) && Lexable(k)
    ensures Lexable(Then(Atom(v), Then(RBracket, k)))
  {
    assert Lexable(Then(RBracket, k));
  }

  lemma LineIsLexable(l: Line, enc: string -> string, k: Tokens)
    requires IsNeat(l) && EncodesStrings(enc) && Lexable(k)
    ensures Lexable(LineTokens(l, enc, k))
  {
    var line := LineTokens(l, enc, k);
    if !l.Close? {
      QuotedIsString(l.key);
      var t := line.tail.tail;
      if l.Field? {
        var v := FormatValue(l.value, enc);
        FormattedValue(l.value, enc);
        ValueIsLexable(v, k);
      } else {
        assert Lexable(Then(LBracket, k));
      }
      assert Lexable(t.tail.tail);
      assert Lexable(t);
    }
  }

  lemma {:induction false} EmittedIsLexable(ls: seq<Line>, owed: bool, tail: string, eol: string, enc: string -> string)
    requires (forall i :: 0 <= i < |ls| ==> IsNeat(ls[i])) && EncodesStrings(enc) && AllWhite(tail) && AllWhite(eol)
    ensures Lexable(EmitAll(ls, owed, tail, eol, enc, End))
  {
    if ls != [] {
      EmittedIsLexable(ls[1..], Owes(ls[0]), eol, eol, enc);
      LineIsLexable(ls[0], enc, EmitAll(ls[1..], Owes(ls[0]), eol, eol, enc, End));
    }
  }

  /** Brackets left open in a text, or None where it cannot be lexed. */
  function OpenBrackets(text: string): Option<int> {
    var ts := Lex(text);
    if ts.Some? then Some(Balance(ts.value)) else None
  }

  lemma LexedBrackets(ts: Tokens)
    requires Lexable(ts)
    ensures OpenBrackets(Text(ts)) == Some(Balance(ts))
  {
    LexText(ts);
    DropKeeps(ts);
  }

  /** What the rewriter has written after the given input lines. */
  function WrittenAfter(lines: seq<string>, enc: string -> string): string {
    Written(Steps(START, lines, enc))
  }

  /** After any well-formed lines, whole blocks or not, everything written is the text of what they emit. */
  lemma WrittenIsEmitted(ls: seq<Line>, eol: string, enc: string -> string)
    requires IsEol(eol) && forall i :: 0 <= i < |ls| ==> ls[i].Ok()
    ensures WrittenAfter(Raw(ls, eol), enc) == Text(EmitAll(ls, false, "", eol, enc, End))
  {
    StepsOnLines(START, ls, eol, enc);
    WrittenText(START, ls, eol, enc);
    NothingWritten(Text(EmitAll(ls, false, "", eol, enc, End)));
  }

  lemma NothingWritten(t: string)
    ensures Written(START) + t == t
  {
    assert Written(START) == "";
  }

  /** For any neat lines, nested or not: everything written after them has two brackets open per open block, plus one per closing line at which nothing was owed. */
  lemma BracketLaw(ls: seq<Line>, eol: string, enc: string -> string, open: int)
    requires (forall i :: 0 <= i < |ls| ==> IsNeat(ls[i])) && EncodesStrings(enc) && IsEol(eol)
    requires open == 2 * Depth(ls) + Bare(ls, false)
    ensures OpenBrackets(WrittenAfter(Raw(ls, eol), enc)) == Some(open)
  {
    calc {
      OpenBrackets(WrittenAfter(Raw(ls, eol), enc));
      { WrittenIsEmitted(ls, eol, enc); }
      OpenBrackets(Text(EmitAll(ls, false, "", eol, enc, End)));
      { EmittedIsLexable(ls, false, "", eol, enc); LexedBrackets(EmitAll(ls, false, "", eol, enc, End)); }
      Some(Balance(EmitAll(ls, false, "", eol, enc, End)));
      { EmittedBrackets(ls, false, "", eol, enc); }
      Some(open);
    }
  }

  // ---------------------------------------------------------------- nested input

  datatype Node = Leaf(key: string, value: string) | Block(key: string, children: seq<Node>)

  ghost predicate NodeOk(n: Node) {
    && (n.Leaf? ==> IsKey(n.key) && IsValue(n.value))
    && (n.Block? ==> IsOpenKey(n.key) && forall i :: 0 <= i < |n.children| ==> NodeOk(n.children[i]))
  }

  /** Indentation per level, the blanks before an opening brace, and the line ending, all made of JSON's own whitespace. */
  datatype Layout = Layout(unit: string, gap: string, eol: string) {
    ghost predicate Ok() {
      unit != "" && AllBlank(unit) && AllWhite(unit) && AllBlank(gap) && AllWhite(gap) && IsEol(eol)
    }

    function Indent(d: nat): string {
      if d == 0 then "" else unit + Indent(d - 1)
    }
  }

  function Lines(n: Node, d: nat, lay: Layout): seq<Line>
    decreases n
  {
    match n
    case Leaf(key, value) => [Field(lay.Indent(d), key, value)]
    case Block(key, children) =>
      [Open(lay.Indent(d), key, lay.gap)] + (AllLines(children, d + 1, lay) + [Close(lay.Indent(d))])
  }

  function AllLines(ns: seq<Node>, d: nat, lay: Layout): seq<Line>
    decreases ns
  {
    if ns == [] then [] else Lines(ns[0], d, lay) + AllLines(ns[1..], d, lay)
  }

  /** Blocks with nothing between their braces. */
  function Empties(n: Node): nat
    decreases n
  {
    match n
    case Leaf(_, _) => 0
    case Block(_, children) => if children == [] then 1 else AllEmpties(children)
  }

  function AllEmpties(ns: seq<Node>): nat
    decreases ns
  {
    if ns == [] then 0 else Empties(ns[0]) + AllEmpties(ns[1..])
  }

  lemma IndentBlank(lay: Layout, d: nat)
    requires lay.Ok()
    ensures AllBlank(lay.Indent(d)) && AllWhite(lay.Indent(d)) && (lay.Indent(d) == "" <==> d == 0)
  {}

  /** Every line of a node inside a block is well formed and none ends a top-level block. */
  lemma {:induction false} InnerLines(n: Node, d: nat, lay: Layout)
    requires NodeOk(n) && lay.Ok() && d > 0
    ensures var ls := Lines(n, d, lay);
            ls != [] && Owes(ls[|ls| - 1]) && forall i :: 0 <= i < |ls| ==> IsNeat(ls[i]) && !EndsTop(ls[i])
    decreases n
  {
    IndentBlank(lay, d);
    if n.Block? {
      AllInnerLines(n.children, d + 1, lay);
    }
  }

  lemma {:induction false} AllInnerLines(ns: seq<Node>, d: nat, lay: Layout)
    requires (forall i :: 0 <= i < |ns| ==> NodeOk(ns[i])) && lay.Ok() && d > 0
    ensures var ls := AllLines(ns, d, lay);
            (ns == [] <==> ls == []) && forall i :: 0 <= i < |ls| ==> IsNeat(ls[i]) && !EndsTop(ls[i])
    decreases ns
  {
    if ns != [] {
      InnerLines(ns[0], d, lay);
      AllInnerLines(ns[1..], d, lay);
    }
  }

  lemma BlockIsChunk(b: Node, lay: Layout)
    requires NodeOk(b) && b.Block? && lay.Ok()
    ensures IsChunk(Lines(b, 0, lay))
  {
    AllInnerLines(b.children, 1, lay);
    var inner := AllLines(b.children, 1, lay);
    var ls := Lines(b, 0, lay);
    assert forall i :: 0 < i < |ls| - 1 ==> ls[i] == inner[i - 1];
    assert ls[|ls| - 1] == Close("");
  }

  /** What the stream emits for top-level block `i`; `lead` is what came before the first. */
  function ChunkTokens(ns: seq<Node>, i: nat, lead: string, lay: Layout, enc: string -> string): Tokens
    requires i < |ns|
  {
    EmitAll(Lines(ns[i], 0, lay), false, if i == 0 then lead else lay.eol, lay.eol, enc, End)
  }

  function ChunkTexts(ns: seq<Node>, lead: string, lay: Layout, enc: string -> string): (cs: seq<string>)
    ensures |cs| == |ns|
  {
    if ns == [] then []
    else [Text(ChunkTokens(ns, 0, lead, lay, enc))] + ChunkTexts(ns[1..], lay.eol, lay, enc)
  }

  lemma {:induction false} ChunkTextAt(ns: seq<Node>, i: nat, lead: string, lay: Layout, enc: string -> string)
    requires i < |ns|
    ensures ChunkTexts(ns, lead, lay, enc)[i] == Text(ChunkTokens(ns, i, lead, lay, enc))
    decreases i
  {
    if i > 0 {
      ChunkTextAt(ns[1..], i - 1, lay.eol, lay, enc);
      assert ns[1..][i - 1] == ns[i];
    }
  }

  lemma {:induction false} TopLevel(r: Rewriter, ns: seq<Node>, lay: Layout, enc: string -> string)
    requires r.outputs == [] && !r.prevComma && lay.Ok()
    requires forall i :: 0 <= i < |ns| ==> NodeOk(ns[i]) && ns[i].Block?
    ensures var r' := LineSteps(r, AllLines(ns, 0, lay), lay.eol, enc);
            r'.outputs == [] && r'.chunks == r.chunks + ChunkTexts(ns, r.prevTail, lay, enc)
    decreases ns
  {
    if ns != [] {
      var first, rest := Lines(ns[0], 0, lay), AllLines(ns[1..], 0, lay);
      var text := Text(ChunkTokens(ns, 0, r.prevTail, lay, enc));
      LineStepsConcat(r, first, rest, lay.eol, enc);
      BlockIsChunk(ns[0], lay);
      ChunkText(r, first, lay.eol, enc);
      assert "" + text == text;
      TopLevel(LineSteps(r, first, lay.eol, enc), ns[1..], lay, enc);
      Regroup(r.chunks, [text], ChunkTexts(ns[1..], lay.eol, lay, enc));
    }
  }

  /** Every list of printed top-level blocks is cut into one chunk per block, each the text of what its own lines emit. */
  lemma SplitsIntoBlocks(ns: seq<Node>, lay: Layout, enc: string -> string)
    requires lay.Ok() && forall i :: 0 <= i < |ns| ==> NodeOk(ns[i]) && ns[i].Block?
    ensures Chunks(Raw(AllLines(ns, 0, lay), lay.eol), enc) == ChunkTexts(ns, "", lay, enc)
  {
    var ls := AllLines(ns, 0, lay);
    calc {
      Flush(Steps(START, Raw(ls, lay.eol), enc));
      { TopLinesOk(ns, lay); StepsOnLines(START, ls, lay.eol, enc); }
      Flush(LineSteps(START, ls, lay.eol, enc));
      { TopLevel(START, ns, lay, enc); NothingBefore(ChunkTexts(ns, "", lay, enc)); }
      ChunkTexts(ns, "", lay, enc);
    }
  }

  lemma NothingBefore(texts: seq<string>)
    ensures START.chunks + texts == texts
  {}

  lemma {:induction false} TopLinesOk(ns: seq<Node>, lay: Layout)
    requires lay.Ok() && forall i :: 0 <= i < |ns| ==> NodeOk(ns[i]) && ns[i].Block?
    ensures forall i :: 0 <= i < |AllLines(ns, 0, lay)| ==> IsNeat(AllLines(ns, 0, lay)[i])
    decreases ns
  {
    if ns != [] {
      BlockIsChunk(ns[0], lay);
      TopLinesOk(ns[1..], lay);
    }
  }

  // ---------------------------------------------------------------- the recursive rendering as JSON

  /** A node as nested JSON arrays without whitespace, followed by `k`. */
  function Compact(n: Node, enc: string -> string, k: Tokens): Tokens
    decreases n
  {
    match n
    case Leaf(key, value) =>
      Then(LBracket, Then(Atom(Quoted(key)), Then(Comma, Then(Atom(FormatValue(value, enc)), Then(RBracket, k)))))
    case Block(key, children) =>
      Then(LBracket, Then(Atom(Quoted(key)), Then(Comma, Then(LBracket,
        AllCompact(children, enc, Then(RBracket, Then(RBracket, k)))))))
  }

  function AllCompact(ns: seq<Node>, enc: string -> string, k: Tokens): Tokens
    decreases ns
  {
    if ns == [] then k
    else Compact(ns[0], enc, if |ns| == 1 then k else Then(Comma, AllCompact(ns[1..], enc, k)))
  }

  function OwedComma(owed: bool, k: Tokens): Tokens {
    if owed then Then(Comma, k) else k
  }

  /** Up to whitespace, the lines of a node inside a block emit its rendering after the comma owed. */
  lemma {:induction false} EmitsCompact(n: Node, d: nat, owed: bool, tail: string, lay: Layout, enc: string -> string, k: Tokens)
    requires d > 0 && lay.Ok() && NodeOk(n) && Empties(n) == 0
    ensures DropWhite(EmitAll(Lines(n, d, lay), owed, tail, lay.eol, enc, k)) == OwedComma(owed, Compact(n, enc, DropWhite(k)))
    decreases n, 0
  {
    match n
    case Leaf(key, value) =>
      var l := Field(lay.Indent(d), key, value);
      assert [l][1..] == [];
      assert EmitAll([l], owed, tail, lay.eol, enc, k) == Emit(owed, tail, l, enc, k);
      DropLine(l, enc, k);
    case Block(key, children) =>
      BlockEmitsCompact(key, children, d, owed, tail, lay, enc, k);
  }

  lemma DropLine(l: Line, enc: string -> string, k: Tokens)
    ensures DropWhite(LineTokens(l, enc, k)) ==
            match l
            case Open(_, key, _) => Then(LBracket, Then(Atom(Quoted(key)), Then(Comma, Then(LBracket, DropWhite(k)))))
            case Field(_, key, value) =>
              Then(LBracket, Then(Atom(Quoted(key)), Then(Comma, Then(Atom(FormatValue(value, enc)), Then(RBracket, DropWhite(k))))))
            case Close(_) => Then(RBracket, DropWhite(k))
  {
    var line := LineTokens(l, enc, k);
    if !l.Close? {
      var t := line.tail.tail;
      assert DropWhite(t) == Then(Atom(Quoted(l.key)), Then(Comma, DropWhite(t.tail.tail)));
      assert DropWhite(line) == Then(LBracket, DropWhite(t));
      if l.Field? {
        assert DropWhite(t.tail.tail) == Then(Atom(FormatValue(l.value, enc)), DropWhite(t.tail.tail.tail.tail));
      }
    }
  }

  lemma {:induction false} BlockEmitsCompact(key: string, children: seq<Node>, d: nat, owed: bool, tail: string, lay: Layout, enc: string -> string, k: Tokens)
    requires lay.Ok() && children != [] && AllEmpties(children) == 0
    requires forall i :: 0 <= i < |children| ==> NodeOk(children[i])
    ensures DropWhite(EmitAll(Lines(Block(key, children), d, lay), owed, tail, lay.eol, enc, k)) ==
            OwedComma(owed, Compact(Block(key, children), enc, DropWhite(k)))
    decreases children, 2
  {
    var open, kids, close := Open(lay.Indent(d), key, lay.gap), AllLines(children, d + 1, lay), Close(lay.Indent(d));
    var last := EmitAll([close], true, lay.eol, lay.eol, enc, k);
    BlockSplit(key, children, d, owed, tail, lay, enc, k);
    AllEmitCompact(children, d + 1, false, lay, enc, last);
    CloseEmits(close, lay.eol, enc, k);
    DropLine(open, enc, EmitAll(kids, false, lay.eol, lay.eol, enc, last));
  }

  lemma CloseEmits(close: Line, eol: string, enc: string -> string, k: Tokens)
    requires close.Close?
    ensures DropWhite(EmitAll([close], true, eol, eol, enc, k)) == Then(RBracket, Then(RBracket, DropWhite(k)))
  {
    assert [close][1..] == [];
    assert EmitAll([close], true, eol, eol, enc, k) == Emit(true, eol, close, enc, k);
    DropLine(close, enc, k);
  }

  /** Opening line, children, closing line; a separator is owed at the close unless there are no children. */
  lemma BlockSplit(key: string, children: seq<Node>, d: nat, owed: bool, tail: string, lay: Layout, enc: string -> string, k: Tokens)
    requires lay.Ok() && forall i :: 0 <= i < |children| ==> NodeOk(children[i])
    ensures EmitAll(Lines(Block(key, children), d, lay), owed, tail, lay.eol, enc, k) ==
            Emit(owed, tail, Open(lay.Indent(d), key, lay.gap), enc,
              EmitAll(AllLines(children, d + 1, lay), false, lay.eol, lay.eol, enc,
                EmitAll([Close(lay.Indent(d))], children != [], lay.eol, lay.eol, enc, k)))
  {
    var open, kids, close := Open(lay.Indent(d), key, lay.gap), AllLines(children, d + 1, lay), Close(lay.Indent(d));
    assert ([open] + (kids + [close]))[1..] == kids + [close];
    EmitConcat(kids, [close], false, lay.eol, lay.eol, enc, k);
    OwesAfterChildren(children, d + 1, lay);
  }

  lemma {:induction false} OwesAfterChildren(ns: seq<Node>, d: nat, lay: Layout)
    requires d > 0 && lay.Ok() && forall i :: 0 <= i < |ns| ==> NodeOk(ns[i])
    ensures OwedAfter(AllLines(ns, d, lay), false) == (ns != [])
    decreases ns
  {
    if ns != [] {
      InnerLines(ns[0], d, lay);
      AllInnerLines(ns[1..], d, lay);
      OwesAfterChildren(ns[1..], d, lay);
    }
  }

  lemma {:induction false} AllEmitCompact(ns: seq<Node>, d: nat, owed: bool, lay: Layout, enc: string -> string, k: Tokens)
    requires d > 0 && lay.Ok() && AllEmpties(ns) == 0 && ns != [] && forall i :: 0 <= i < |ns| ==> NodeOk(ns[i])
    ensures DropWhite(EmitAll(AllLines(ns, d, lay), owed, lay.eol, lay.eol, enc, k)) ==
            OwedComma(owed, AllCompact(ns, enc, DropWhite(k)))
    decreases ns, 1
  {
    var first, rest := Lines(ns[0], d, lay), AllLines(ns[1..], d, lay);
    InnerLines(ns[0], d, lay);
    EmitConcat(first, rest, owed, lay.eol, lay.eol, enc, k);
    EmitsCompact(ns[0], d, owed, lay.eol, lay, enc, EmitAll(rest, true, lay.eol, lay.eol, enc, k));
    if |ns| > 1 {
      AllEmitCompact(ns[1..], d, true, lay, enc, k);
    }
  }

  // ---------------------------------------------------------------- reading the JSON back

  /** The nested lists the input stands for. */
  function ValueOf(n: Node, enc: string -> string): Value
    decreases n
  {
    match n
    case Leaf(key, value) => Array([Scalar(Quoted(key)), Scalar(FormatValue(value, enc))])
    case Block(key, children) => Array([Scalar(Quoted(key)), Array(ValuesOf(children, enc))])
  }

  function ValuesOf(ns: seq<Node>, enc: string -> string): seq<Value>
    decreases ns
  {
    if ns == [] then [] else [ValueOf(ns[0], enc)] + ValuesOf(ns[1..], enc)
  }

  predicate IsOdd(value: string) { !("\"" <= value) && !IsLiteral(value) }

  /** Leaves whose value is a bare word that JSON does not know, such as the name of an enumeration value. */
  function Odd(n: Node): nat
    decreases n
  {
    match n
    case Leaf(_, value) => if IsOdd(value) then 1 else 0
    case Block(_, children) => AllOdd(children)
  }

  function AllOdd(ns: seq<Node>): nat
    decreases ns
  {
    if ns == [] then 0 else Odd(ns[0]) + AllOdd(ns[1..])
  }

  lemma ParsesPair(key: string, body: Tokens, v: Value, rest: Tokens)
    requires IsOpenKey(key) && ParseItems(body) == Parsed([v], rest)
    ensures ParseValue(Then(LBracket, Then(Atom(Quoted(key)), Then(Comma, body)))) == Parsed(Array([Scalar(Quoted(key)), v]), rest)
  {
    var k := Scalar(Quoted(key));
    QuotedIsString(key);
    assert ParseValue(Then(Atom(Quoted(key)), Then(Comma, body))) == Parsed(k, Then(Comma, body));
    assert ParseItems(Then(Atom(Quoted(key)), Then(Comma, body))) == Parsed([k] + [v], rest);
    assert [k] + [v] == [k, v];
  }

  lemma {:induction false} ParsesCompact(n: Node, enc: string -> string, rest: Tokens)
    requires NodeOk(n) && EncodesStrings(enc) && Empties(n) == 0 && Odd(n) == 0
    ensures ParseValue(Compact(n, enc, rest)) == Parsed(ValueOf(n, enc), rest)
    decreases n, 0
  {
    match n
    case Leaf(key, value) =>
      var v := FormatValue(value, enc);
      FormattedValue(value, enc);
      assert ParseItems(Then(Atom(v), Then(RBracket, rest))) == Parsed([Scalar(v)], rest);
      ParsesPair(key, Then(Atom(v), Then(RBracket, rest)), Scalar(v), rest);
    case Block(key, children) =>
      var kids := AllCompact(children, enc, Then(RBracket, Then(RBracket, rest)));
      ParsesAllCompact(children, enc, Then(RBracket, rest));
      assert kids.Then? && kids.head == LBracket;
      assert ParseValue(Then(LBracket, kids)) == Parsed(Array(ValuesOf(children, enc)), Then(RBracket, rest));
      ParsesPair(key, Then(LBracket, kids), Array(ValuesOf(children, enc)), rest);
  }

  lemma {:induction false} ParsesAllCompact(ns: seq<Node>, enc: string -> string, rest: Tokens)
    requires ns != [] && (forall i :: 0 <= i < |ns| ==> NodeOk(ns[i])) && EncodesStrings(enc)
    requires AllEmpties(ns) == 0 && AllOdd(ns) == 0
    ensures ParseItems(AllCompact(ns, enc, Then(RBracket, rest))) == Parsed(ValuesOf(ns, enc), rest)
    decreases ns, 1
  {
    if |ns| == 1 {
      ParsesCompact(ns[0], enc, Then(RBracket, rest));
      assert ValuesOf(ns[1..], enc) == [];
      assert ValuesOf(ns, enc) == [ValueOf(ns[0], enc)] + [] == [ValueOf(ns[0], enc)];
    } else {
      ParsesCompact(ns[0], enc, Then(Comma, AllCompact(ns[1..], enc, Then(RBracket, rest))));
      ParsesAllCompact(ns[1..], enc, rest);
    }
  }

  // ---------------------------------------------------------------- counting over the lines of a tree

  lemma {:induction false} BareConcat(a: seq<Line>, b: seq<Line>, owed: bool)
    ensures Bare(a + b, owed) == Bare(a, owed) + Bare(b, OwedAfter(a, owed))
    ensures Depth(a + b) == Depth(a) + Depth(b)
    ensures OddLines(a + b) == OddLines(a) + OddLines(b)
  {
    if a == [] {
      assert a + b == b;
    } else {
      assert (a + b)[1..] == a[1..] + b;
      BareConcat(a[1..], b, Owes(a[0]));
    }
  }

  function OddLines(ls: seq<Line>): nat {
    if ls == [] then 0 else (if ls[0].Field? && IsOdd(ls[0].value) then 1 else 0) + OddLines(ls[1..])
  }

  /** A tree's lines close every block they open, and its bare closes and odd fields are its empty blocks and odd leaves. */
  lemma {:induction false} TreeCounts(n: Node, d: nat, owed: bool, lay: Layout)
    requires NodeOk(n) && lay.Ok()
    ensures var ls := Lines(n, d, lay); Depth(ls) == 0 && Bare(ls, owed) == Empties(n) && OddLines(ls) == Odd(n)
    decreases n
  {
    match n
    case Leaf(key, value) =>
      assert [Field(lay.Indent(d), key, value)][1..] == [];
    case Block(key, children) =>
      var open, kids, close := Open(lay.Indent(d), key, lay.gap), AllLines(children, d + 1, lay), Close(lay.Indent(d));
      assert ([open] + (kids + [close]))[1..] == kids + [close];
      BareConcat(kids, [close], false);
      TreesCount(children, d + 1, false, lay);
      OwesAfterChildren(children, d + 1, lay);
      assert [close][1..] == [];
  }

  lemma {:induction false} TreesCount(ns: seq<Node>, d: nat, owed: bool, lay: Layout)
    requires (forall i :: 0 <= i < |ns| ==> NodeOk(ns[i])) && lay.Ok()
    ensures var ls := AllLines(ns, d, lay); Depth(ls) == 0 && Bare(ls, owed) == AllEmpties(ns) && OddLines(ls) == AllOdd(ns)
    decreases ns
  {
    if ns != [] {
      var first, rest := Lines(ns[0], d, lay), AllLines(ns[1..], d, lay);
      BareConcat(first, rest, owed);
      TreeCounts(ns[0], d, owed, lay);
      TreesCount(ns[1..], d, OwedAfter(first, owed), lay);
    }
  }

  // ---------------------------------------------------------------- exactly when a chunk is JSON

  lemma RejectedValue(v: string, k: Tokens)
    ensures Rejected(Then(White(" "), Then(Atom(v), Then(RBracket, k)))) == (if IsAtom(v) then 0 else 1) + Rejected(k)
  {
    assert Rejected(Then(RBracket, k)) == Rejected(k);
    assert Rejected(Then(Atom(v), Then(RBracket, k))) == (if IsAtom(v) then 0 else 1) + Rejected(k);
  }

  lemma EmitRejects(owed: bool, tail: string, l: Line, enc: string -> string, k: Tokens)
    requires IsNeat(l) && EncodesStrings(enc)
    ensures Rejected(Emit(owed, tail, l, enc, k)) == (if l.Field? && IsOdd(l.value) then 1 else 0) + Rejected(k)
  {
    var line := LineTokens(l, enc, k);
    if !l.Close? {
      QuotedIsString(l.key);
      var t := line.tail.tail;
      assert Rejected(line) == Rejected(t);
      assert Rejected(t) == Rejected(t.tail.tail);
      if l.Field? {
        var v := FormatValue(l.value, enc);
        FormattedValue(l.value, enc);
        RejectedValue(v, k);
        assert IsAtom(v) <==> !IsOdd(l.value);
        assert t.tail.tail == Then(White(" "), Then(Atom(v), Then(RBracket, k)));
      } else {
        assert Rejected(t.tail.tail) == Rejected(k);
      }
    } else {
      assert Rejected(line) == Rejected(k);
    }
    assert Rejected(Then(White(tail), line)) == Rejected(line);
  }

  lemma {:induction false} EmittedRejects(ls: seq<Line>, owed: bool, tail: string, eol: string, enc: string -> string)
    requires (forall i :: 0 <= i < |ls| ==> IsNeat(ls[i])) && EncodesStrings(enc)
    ensures Rejected(EmitAll(ls, owed, tail, eol, enc, End)) == OddLines(ls)
  {
    if ls != [] {
      EmittedRejects(ls[1..], Owes(ls[0]), eol, eol, enc);
      EmitRejects(owed, tail, ls[0], enc, EmitAll(ls[1..], Owes(ls[0]), eol, eol, enc, End));
    }
  }

  /** A chunk has one bracket open per empty block and one rejected word per odd leaf, and parses as its tree exactly when it has neither. */
  lemma ChunkParsesIff(b: Node, lead: string, lay: Layout, enc: string -> string)
    requires lay.Ok() && NodeOk(b) && b.Block? && EncodesStrings(enc)
    ensures var chunk := DropWhite(EmitAll(Lines(b, 0, lay), false, lead, lay.eol, enc, End));
            && ParseAll(chunk) == Expected(b, enc)
            && Balance(chunk) == Empties(b) && Rejected(chunk) == Odd(b)
            && (Empties(b) == 0 ==> chunk == Compact(b, enc, End))
  {
    var ls := Lines(b, 0, lay);
    var emitted := EmitAll(ls, false, lead, lay.eol, enc, End);
    TreeCounts(b, 0, false, lay);
    BlockIsChunk(b, lay);
    EmittedBrackets(ls, false, lead, lay.eol, enc);
    EmittedRejects(ls, false, lead, lay.eol, enc);
    DropKeeps(emitted);
    ValueIsSound(DropWhite(emitted));
    if Empties(b) == 0 {
      BlockEmitsCompact(b.key, b.children, 0, false, lead, lay, enc, End);
      if Odd(b) == 0 {
        ParsesCompact(b, enc, End);
      }
    }
  }

  /** What a block's chunk should load as: nothing if a block is empty or a bare word is not JSON. */
  function Expected(b: Node, enc: string -> string): Option<Value> {
    if Empties(b) == 0 && Odd(b) == 0 then Some(ValueOf(b, enc)) else None
  }

  /**
   Every list of printed top-level blocks is cut into one chunk per block, and a chunk loads as JSON,
   and then as the tree it was printed from, exactly when that tree has no empty block and no bare
   word that JSON does not know.
   */
  lemma ChunkLoadsIff(ns: seq<Node>, lay: Layout, enc: string -> string, i: nat)
    requires lay.Ok() && EncodesStrings(enc) && forall j :: 0 <= j < |ns| ==> NodeOk(ns[j]) && ns[j].Block?
    requires i < |ns|
    ensures var chunks := Chunks(Raw(AllLines(ns, 0, lay), lay.eol), enc);
            |chunks| == |ns| && Loads(chunks[i]) == Expected(ns[i], enc)
  {
    SplitsIntoBlocks(ns, lay, enc);
    TextLoads(ns, lay, enc, i);
  }

  lemma TextLoads(ns: seq<Node>, lay: Layout, enc: string -> string, i: nat)
    requires lay.Ok() && EncodesStrings(enc) && i < |ns| && NodeOk(ns[i]) && ns[i].Block?
    ensures Loads(ChunkTexts(ns, "", lay, enc)[i]) == Expected(ns[i], enc)
  {
    ChunkTextAt(ns, i, "", lay, enc);
    ChunkLoads(ns[i], if i == 0 then "" else lay.eol, lay, enc);
  }

  lemma ChunkLoads(b: Node, lead: string, lay: Layout, enc: string -> string)
    requires lay.Ok() && NodeOk(b) && b.Block? && EncodesStrings(enc) && AllWhite(lead)
    ensures Loads(Text(EmitAll(Lines(b, 0, lay), false, lead, lay.eol, enc, End))) == Expected(b, enc)
  {
    BlockIsChunk(b, lay);
    EmittedIsLexable(Lines(b, 0, lay), false, lead, lay.eol, enc);
    LexText(EmitAll(Lines(b, 0, lay), false, lead, lay.eol, enc, End));
    ChunkParsesIff(b, lead, lay, enc);
  }

  const ENUM_FIELD := Block("a", [Leaf("k", "FOO")])
  const TWO_SPACES := Layout("  ", " ", "\n")

  lemma EnumIsOdd()
    ensures NodeOk(ENUM_FIELD) && TWO_SPACES.Ok() && Odd(ENUM_FIELD) == 1
  {
    var foo := "FOO";
    assert foo[0] == 'F' && foo[1] == 'O' && foo[2] == 'O';
    assert "true"[0] == 't' && "false"[0] == 'f' && "null"[0] == 'n' && "NaN"[0] == 'N' && "Infinity"[0] == 'I' && "-Infinity"[0] == '-';
    SpanTo(foo, 0, 0, Decimals.IsDigit);
    assert IsOdd(foo);
    assert ENUM_FIELD.children[1..] == [];
    assert AllOdd(ENUM_FIELD.children) == Odd(ENUM_FIELD.children[0]) + AllOdd([]);
  }

  lemma EnumLines()
    ensures Raw(AllLines([ENUM_FIELD], 0, TWO_SPACES), "\n") == ["a {\n", "  k: FOO\n", "}\n"]
  {
    var lay, b := TWO_SPACES, ENUM_FIELD;
    assert lay.Indent(0) == "" && lay.Indent(1) == "  " + "" == "  ";
    assert b.children[1..] == [] && [b][1..] == [];
    var open, field, close := Open("", "a", " "), Field("  ", "k", "FOO"), Close("");
    assert AllLines(b.children, 1, lay) == [field] + [] == [field];
    assert Lines(b, 0, lay) == [open] + ([field] + [close]) == [open, field, close];
    assert AllLines([b], 0, lay) == [open, field, close] + [] == [open, field, close];
    RawOf3(open, field, close, "\n");
    assert open.Text() + "\n" == "a {\n" && field.Text() + "\n" == "  k: FOO\n" && close.Text() + "\n" == "}\n";
  }

  lemma RawOf2(a: Line, b: Line, eol: string)
    ensures Raw([a, b], eol) == [a.Text() + eol, b.Text() + eol]
  {
    assert [a, b][1..] == [b] && [b][1..] == [];
    assert Raw([b], eol) == [b.Text() + eol];
  }

  lemma RawOf3(a: Line, b: Line, c: Line, eol: string)
    ensures Raw([a, b, c], eol) == [a.Text() + eol, b.Text() + eol, c.Text() + eol]
  {
    assert [a, b, c][1..] == [b, c];
    RawOf2(b, c, eol);
  }

  /** The name of an enumeration value is enough to make a chunk that does not load. */
  lemma EnumValueDoesNotLoad(enc: string -> string)
    requires EncodesStrings(enc)
    ensures var chunks := Chunks(["a {\n", "  k: FOO\n", "}\n"], enc); |chunks| == 1 && Loads(chunks[0]) == None
  {
    EnumIsOdd();
    EnumLines();
    ChunkLoadsIff([ENUM_FIELD], TWO_SPACES, enc, 0);
  }

  const EMPTY_BLOCK := Block("a", [])

  lemma EmptyLines()
    ensures Raw(AllLines([EMPTY_BLOCK], 0, TWO_SPACES), "\n") == ["a {\n", "}\n"]
  {
    var lay, b := TWO_SPACES, EMPTY_BLOCK;
    var open, close := Open("", "a", " "), Close("");
    assert lay.Indent(0) == "" && [b][1..] == [];
    assert Lines(b, 0, lay) == [open] + ([] + [close]) == [open, close];
    assert AllLines([b], 0, lay) == [open, close] + [] == [open, close];
    RawOf2(open, close, "\n");
    assert open.Text() + "\n" == "a {\n" && close.Text() + "\n" == "}\n";
  }

  /** A block without fields is enough as well. */
  lemma EmptyBlockDoesNotLoad(enc: string -> string)
    requires EncodesStrings(enc)
    ensures var chunks := Chunks(["a {\n", "}\n"], enc); |chunks| == 1 && Loads(chunks[0]) == None
  {
    assert NodeOk(EMPTY_BLOCK) && TWO_SPACES.Ok();
    EmptyLines();
    ChunkLoadsIff([EMPTY_BLOCK], TWO_SPACES, enc, 0);
  }

  // ---------------------------------------------------------------- brackets in every prefix of a tree

  lemma PrefixCounts(ns: seq<Node>, lay: Layout, prefix: seq<Line>)
    requires lay.Ok() && AllEmpties(ns) == 0
    requires forall i :: 0 <= i < |ns| ==> NodeOk(ns[i]) && ns[i].Block?
    requires prefix <= AllLines(ns, 0, lay)
    ensures Bare(prefix, false) == 0 && forall i :: 0 <= i < |prefix| ==> IsNeat(prefix[i])
  {
    TreesCount(ns, 0, false, lay);
    TopLinesOk(ns, lay);
    BareInPrefix(prefix, AllLines(ns, 0, lay));
  }

  lemma BareInPrefix(prefix: seq<Line>, all: seq<Line>)
    requires prefix <= all
    ensures Bare(prefix, false) <= Bare(all, false)
  {
    assert all == prefix + all[|prefix|..];
    BareConcat(prefix, all[|prefix|..], false);
  }

  /** After every prefix of the lines of trees without empty blocks, the brackets open in everything written number twice the nesting depth. */
  lemma PrefixBrackets(ns: seq<Node>, lay: Layout, enc: string -> string, prefix: seq<Line>)
    requires lay.Ok() && EncodesStrings(enc) && AllEmpties(ns) == 0
    requires forall i :: 0 <= i < |ns| ==> NodeOk(ns[i]) && ns[i].Block?
    requires prefix <= AllLines(ns, 0, lay)
    ensures OpenBrackets(WrittenAfter(Raw(prefix, lay.eol), enc)) == Some(2 * Depth(prefix))
  {
    PrefixCounts(ns, lay, prefix);
    BracketLaw(prefix, lay.eol, enc, 2 * Depth(prefix));
  }
}
