/** The header scanner's first pass: comments and literals are blanked out of C++ text without
    moving anything. */
module Stripper {

  datatype State = InCode | InLine | InBlock | InLiteral(quote: char)

  predicate IsQuote(c: char) {
    c == '"' || c == '\''
  }

  /** What a blanked character becomes: line breaks stay. */
  function Blank(c: char): char {
    if c == '\n' then '\n' else ' '
  }

  function Blanks(s: string): (r: string)
    ensures |r| == |s|
  {
    seq(|s|, i requires 0 <= i < |s| => Blank(s[i]))
  }

  /** Does s start with the two characters? */
  predicate Opens(s: string, a: char, b: char) {
    |s| >= 2 && s[0] == a && s[1] == b
  }

  // ---- The automaton as a function ----

  /** How many characters one step reads, and the state after it. */
  function Advance(s: string, state: State): (r: (nat, State))
    requires s != ""
    ensures 1 <= r.0 <= 2 && r.0 <= |s|
  {
    match state
    case InCode =>
      if Opens(s, '/', '/') then (2, InLine)
      else if Opens(s, '/', '*') then (2, InBlock)
      else if IsQuote(s[0]) then (1, InLiteral(s[0]))
      else (1, InCode)
    case InLine => (1, if s[0] == '\n' then InCode else InLine)
    case InBlock => if Opens(s, '*', '/') then (2, InCode) else (1, InBlock)
    case InLiteral(q) =>
      if s[0] == '\\' then (if |s| > 1 then 2 else 1, state)
      else (1, if s[0] == q then InCode else state)
  }

  /** A character is kept only when it is read in code and stays in code. */
  function Emit(s: string, state: State): (r: string)
    requires s != ""
  {
    var (n, next) := Advance(s, state);
    if state == InCode && next == InCode then [s[0]] else Blanks(s[..n])
  }

  function Strip(s: string, state: State): (r: string)
    decreases |s|
  {
    if s == "" then ""
    else
      var (n, next) := Advance(s, state);
      Emit(s, state) + Strip(s[n..], next)
  }

  // ---- The loop ----

  datatype Mode = Code | LineComment | BlockComment | Literal

  function StateOf(mode: Mode, quote: char): State {
    match mode
    case Code => InCode
    case LineComment => InLine
    case BlockComment => InBlock
    case Literal => InLiteral(quote)
  }

  method StripCommentsAndLiterals(source: string) returns (result: string)
    ensures result == Strip(source, InCode)
  {
    result := "";
    var index, mode, quote := 0, Code, ' ';
    StripStart(source);
    while index < |source|
      invariant 0 <= index <= |source| && (mode == Literal ==> IsQuote(quote))
      invariant StrippedTo(source, index, result, StateOf(mode, quote))
    {
      index, result, mode, quote := ReadNext(source, index, result, mode, quote);
    }
    StripEnd(source, result, StateOf(mode, quote));
  }

  function StripAll(source: string): string {
    Strip(source, InCode)
  }

  function StripFrom(source: string, index: nat, state: State): string
    requires index <= |source|
  {
    Strip(source[index..], state)
  }

  /** result is what the text before index gives, and the automaton is in this state. */
  ghost predicate StrippedTo(source: string, index: nat, result: string, state: State)
    requires index <= |source|
  {
    StripAll(source) == result + StripFrom(source, index, state)
  }

  lemma StripStart(source: string)
    ensures StrippedTo(source, 0, "", InCode)
  {
    assert source[0..] == source;
  }

  lemma StripEnd(source: string, result: string, state: State)
    requires StrippedTo(source, |source|, result, state)
    ensures result == Strip(source, InCode)
  {
    assert source[|source|..] == "" && result + "" == result;
  }

  lemma StripNext(source: string, index: nat, result: string, state: State, n: nat, emitted: string, next: State)
    requires index < |source| && n <= |source| - index && StrippedTo(source, index, result, state)
    requires (n, next) == Advance(source[index..], state) && emitted == Emit(source[index..], state)
    ensures StrippedTo(source, index + n, result + emitted, next)
  {
    StripOnce(source[index..], state, source[index + n..]);
    ConcatAssoc(result, emitted, Strip(source[index + n..], next));
  }

  lemma StripOnce(s: string, state: State, rest: string)
    requires s != "" && s[Advance(s, state).0..] == rest
    ensures Strip(s, state) == Emit(s, state) + Strip(rest, Advance(s, state).1)
  {
  }

  lemma ConcatAssoc(a: string, b: string, c: string)
    ensures a + (b + c) == (a + b) + c
  {
  }

  lemma BlanksConcat(a: string, b: string)
    ensures Blanks(a + b) == Blanks(a) + Blanks(b)
  {
  }

  /** The body of the loop: what is appended, and how far the index moves. */
  method ReadOne(source: string, index: nat, mode: Mode, quote: char)
    returns (emitted: string, n: nat, newMode: Mode, newQuote: char)
    requires index < |source| && (mode == Literal ==> IsQuote(quote))
    ensures newMode == Literal ==> IsQuote(newQuote)
    ensures 1 <= n <= |source| - index
    ensures (n, StateOf(newMode, newQuote)) == Advance(source[index..], StateOf(mode, quote))
    ensures emitted == Emit(source[index..], StateOf(mode, quote))
  {
    var c := source[index];
    var hasNext := index + 1 < |source|;
    var next := if hasNext then source[index + 1] else ' ';
    ghost var s := source[index..];
    assert s[0] == c && (hasNext ==> s[1] == next) && (hasNext <==> |s| > 1);
    assert s[..1] == [c] && Blanks([c]) == [Blank(c)];
    assert hasNext ==> s[..2] == [c, next] && Blanks([c, next]) == [Blank(c), Blank(next)];
    newMode, newQuote, n := mode, quote, 1;
    match mode
    case Code =>
      if c == '/' && hasNext && next == '/' {
        emitted, n, newMode := "  ", 2, LineComment;
      } else if c == '/' && hasNext && next == '*' {
        emitted, n, newMode := "  ", 2, BlockComment;
      } else if IsQuote(c) {
        emitted, newMode, newQuote := " ", Literal, c;
      } else {
        emitted := [c];
      }
    case LineComment =>
      if c == '\n' {
        emitted, newMode := "\n", Code;
      } else {
        emitted := " ";
      }
    case BlockComment =>
      if c == '*' && hasNext && next == '/' {
        emitted, n, newMode := "  ", 2, Code;
      } else {
        emitted := [Blank(c)];
      }
    case Literal =>
      if c == '\\' {
        emitted := " ";
        if hasNext {
          emitted, n := emitted + [Blank(next)], 2;
        }
      } else if c == quote {
        emitted, newMode := " ", Code;
      } else {
        emitted := [Blank(c)];
      }
  }

  /** One turn of the loop. */
  method ReadNext(source: string, index: nat, result: string, mode: Mode, quote: char)
    returns (newIndex: nat, newResult: string, newMode: Mode, newQuote: char)
    requires index < |source| && (mode == Literal ==> IsQuote(quote))
    requires StrippedTo(source, index, result, StateOf(mode, quote))
    ensures index < newIndex <= |source| && (newMode == Literal ==> IsQuote(newQuote))
    ensures StrippedTo(source, newIndex, newResult, StateOf(newMode, newQuote))
  {
    var emitted, n;
    emitted, n, newMode, newQuote := ReadOne(source, index, mode, quote);
    newIndex, newResult := index + n, result + emitted;
    StripNext(source, index, result, StateOf(mode, quote), n, emitted, StateOf(newMode, newQuote));
  }

  // ---- Nothing moves, nothing is left over ----

  lemma {:induction false} StripKeepsShape(s: string, state: State)
    ensures |Strip(s, state)| == |s|
    ensures forall i :: 0 <= i < |s| ==> Strip(s, state)[i] == s[i] || Strip(s, state)[i] == Blank(s[i])
    decreases |s|
  {
    if s != "" {
      var (n, next) := Advance(s, state);
      StripKeepsShape(s[n..], next);
      var e, r := Emit(s, state), Strip(s[n..], next);
      forall i | 0 <= i < |s| ensures (e + r)[i] == s[i] || (e + r)[i] == Blank(s[i]) {
        if i >= n {
          assert (e + r)[i] == r[i - n] && s[n..][i - n] == s[i];
        }
      }
    }
  }

  /** No quote, and no two characters that would open a comment. */
  predicate Clean(s: string) {
    forall i :: 0 <= i < |s| ==> !IsQuote(s[i]) && !OpensComment(s, i)
  }

  predicate OpensComment(s: string, i: nat)
    requires i < |s|
  {
    s[i] == '/' && i + 1 < |s| && (s[i + 1] == '/' || s[i + 1] == '*')
  }

  lemma {:induction false} StripIsClean(s: string, state: State)
    ensures Clean(Strip(s, state))
    decreases |s|
  {
    if s != "" {
      var (n, next) := Advance(s, state);
      StripKeepsShape(s, state);
      StripKeepsShape(s[n..], next);
      StripIsClean(s[n..], next);
      CleanConcat(Emit(s, state), Strip(s[n..], next), s);
    }
  }

  lemma CleanConcat(e: string, r: string, s: string)
    requires Clean(r) && |e| + |r| == |s| && |e| > 0
    requires (e == [s[0]] && !IsQuote(s[0]) && !Opens(s, '/', '/') && !Opens(s, '/', '*')) || e == Blanks(s[..|e|])
    requires r != "" ==> r[0] == s[|e|] || r[0] == Blank(s[|e|])
    ensures Clean(e + r)
  {
    var t := e + r;
    forall i | 0 <= i < |t| ensures !IsQuote(t[i]) && !OpensComment(t, i) {
      if i >= |e| {
        assert !IsQuote(r[i - |e|]) && !OpensComment(r, i - |e|);
      }
    }
  }

  lemma {:induction false} CleanIsKept(s: string)
    requires forall i :: 0 <= i < |s| ==> s[i] != '"' && s[i] != '\''
    requires forall i :: 0 <= i < |s| - 1 && s[i] == '/' ==> s[i + 1] != '/' && s[i + 1] != '*'
    ensures Strip(s, InCode) == s
    decreases |s|
  {
    if s != "" {
      CleanRest(s);
      CleanIsKept(s[1..]);
      assert s == [s[0]] + s[1..];
    }
  }

  lemma CleanRest(s: string)
    requires s != "" && s[0] != '"' && s[0] != '\''
    requires |s| > 1 && s[0] == '/' ==> s[1] != '/' && s[1] != '*'
    ensures Strip(s, InCode) == [s[0]] + Strip(s[1..], InCode)
  {
  }

  lemma CleanInCharacters(r: string)
    requires Clean(r)
    ensures forall i :: 0 <= i < |r| ==> r[i] != '"' && r[i] != '\''
    ensures forall i :: 0 <= i < |r| - 1 && r[i] == '/' ==> r[i + 1] != '/' && r[i + 1] != '*'
  {
    forall i | 0 <= i < |r| ensures r[i] != '"' && r[i] != '\'' {
      assert !IsQuote(r[i]);
    }
    forall i | 0 <= i < |r| - 1 && r[i] == '/' ensures r[i + 1] != '/' && r[i + 1] != '*' {
      assert !OpensComment(r, i);
    }
  }

  /** For any text: length and line breaks stay in place, every other character is kept or becomes a
      space, no quote or comment opener remains, and stripping again changes nothing. */
  lemma {:induction false} StripIsProjection(s: string)
    ensures var r := Strip(s, InCode);
      && |r| == |s|
      && (forall i :: 0 <= i < |s| ==> (r[i] == s[i] || r[i] == ' ') && (r[i] == '\n' <==> s[i] == '\n'))
      && (forall i :: 0 <= i < |r| ==> r[i] != '"' && r[i] != '\'')
      && (forall i :: 0 <= i < |r| - 1 && r[i] == '/' ==> r[i + 1] != '/' && r[i + 1] != '*')
      && Strip(r, InCode) == r
  {
    StripKeepsShape(s, InCode);
    StripIsClean(s, InCode);
    CleanInCharacters(Strip(s, InCode));
    CleanIsKept(Strip(s, InCode));
  }

  // ---- The lexical structure of C++ text ----

  /** One character of a literal, or a backslash and the character it escapes. */
  datatype LiteralText = NoMore | Char(c: char, tail: LiteralText) | Escape(c: char, tail: LiteralText)

  /** A text as code characters, comments and literals.  The last comment or literal may run to
      the end of the text unclosed, a literal even with a lone backslash at the end. */
  datatype Text =
    | End
    | CodeChar(c: char, rest: Text)
    | Line(body: string, rest: Text)
    | Block(body: string, rest: Text)
    | Quoted(quote: char, text: LiteralText, rest: Text)
    | OpenBlock(body: string)
    | OpenLiteral(quote: char, text: LiteralText, backslash: bool)

  function PrintLiteral(t: LiteralText): string {
    match t
    case NoMore => ""
    case Char(c, tail) => [c] + PrintLiteral(tail)
    case Escape(c, tail) => ['\\', c] + PrintLiteral(tail)
  }

  function Print(t: Text): string {
    match t
    case End => ""
    case CodeChar(c, rest) => [c] + Print(rest)
    case Line(body, rest) => "//" + (body + Print(rest))
    case Block(body, rest) => "/*" + (body + ("*/" + Print(rest)))
    case Quoted(q, text, rest) => [q] + (PrintLiteral(text) + ([q] + Print(rest)))
    case OpenBlock(body) => "/*" + body
    case OpenLiteral(q, text, backslash) => [q] + (PrintLiteral(text) + if backslash then "\\" else "")
  }

  /** The same text with everything that is not code blanked out. */
  function Blanked(t: Text): string {
    match t
    case End => ""
    case CodeChar(c, rest) => [c] + Blanked(rest)
    case Line(body, rest) => Blanks("//") + (Blanks(body) + Blanked(rest))
    case Block(body, rest) => Blanks("/*") + (Blanks(body) + (Blanks("*/") + Blanked(rest)))
    case Quoted(q, text, rest) => " " + (Blanks(PrintLiteral(text)) + (" " + Blanked(rest)))
    case OpenBlock(body) => Blanks("/*") + Blanks(body)
    case OpenLiteral(q, text, backslash) => " " + (Blanks(PrintLiteral(text)) + if backslash then " " else "")
  }

  predicate ValidLiteral(t: LiteralText, quote: char) {
    match t
    case NoMore => true
    case Char(c, tail) => c != quote && c != '\\' && ValidLiteral(tail, quote)
    case Escape(_, tail) => ValidLiteral(tail, quote)
  }

  predicate NoClose(body: string) {
    forall i :: 0 <= i < |body| ==> !Opens(body[i..], '*', '/')
  }

  /** Code characters open nothing; a line comment ends at a line break or the end of the text; a
      block comment at the first closing pair; a literal at its first unescaped quote. */
  predicate Valid(t: Text) {
    match t
    case End => true
    case CodeChar(c, rest) =>
      Valid(rest) && !IsQuote(c) && !Opens([c] + Print(rest), '/', '/') && !Opens([c] + Print(rest), '/', '*')
    case Line(body, rest) =>
      Valid(rest) && '\n' !in body && (rest == End || (rest.CodeChar? && rest.c == '\n'))
    case Block(body, rest) => Valid(rest) && NoClose(body)
    case Quoted(q, text, rest) => Valid(rest) && IsQuote(q) && ValidLiteral(text, q)
    case OpenBlock(body) => NoClose(body)
    case OpenLiteral(q, text, _) => IsQuote(q) && ValidLiteral(text, q)
  }

  // ---- Stripping blanks exactly the comments and literals ----

  lemma {:induction false} StripLine(body: string, rest: string)
    requires forall i :: 0 <= i < |body| ==> body[i] != '\n'
    requires rest != "" ==> rest[0] == '\n'
    ensures Strip(body + rest, InLine) == Blanks(body) + Strip(rest, InCode)
    decreases |body|
  {
    var s := body + rest;
    if body == "" {
      assert s == rest;
      if rest != "" {
        assert Emit(rest, InLine) == "\n" == Emit(rest, InCode);
      }
    } else {
      StripLine(body[1..], rest);
      LineChar(body[0], body[1..], rest, Strip(rest, InCode));
      assert body == [body[0]] + body[1..];
    }
  }

  lemma LineChar(c: char, tail: string, rest: string, end: string)
    requires c != '\n'
    requires Strip(tail + rest, InLine) == Blanks(tail) + end
    ensures Strip([c] + tail + rest, InLine) == Blanks([c] + tail) + end
  {
    var s := [c] + tail + rest;
    assert s[1..] == tail + rest && s[..1] == [c];
    StripOnce(s, InLine, tail + rest);
    BlanksConcat([c], tail);
  }

  lemma BlockChar(c: char, tail: string, rest: string, end: string)
    requires !Opens([c] + tail + rest, '*', '/')
    requires Strip(tail + rest, InBlock) == Blanks(tail) + end
    ensures Strip([c] + tail + rest, InBlock) == Blanks([c] + tail) + end
  {
    var s := [c] + tail + rest;
    assert s[1..] == tail + rest && s[..1] == [c];
    assert Advance(s, InBlock) == (1, InBlock) && Emit(s, InBlock) == Blanks([c]);
    StripOnce(s, InBlock, tail + rest);
    BlanksConcat([c], tail);
    ConcatAssoc(Blanks([c]), Blanks(tail), end);
  }

  lemma {:induction false} StripBlock(body: string, rest: string, closed: bool)
    requires NoClose(body)
    requires closed ==> Opens(rest, '*', '/')
    requires !closed ==> rest == ""
    ensures Strip(body + rest, InBlock) ==
            Blanks(body) + if closed then Blanks("*/") + Strip(rest[2..], InCode) else ""
    decreases |body|
  {
    var s := body + rest;
    if body == "" {
      assert s == rest;
      if closed {
        assert rest[..2] == "*/";
      }
    } else {
      assert !Opens(body[0..], '*', '/') && body[0..] == body;
      assert !Opens(s, '*', '/');
      forall i | 0 <= i < |body[1..]| ensures !Opens(body[1..][i..], '*', '/') {
        assert body[1..][i..] == body[i + 1..];
      }
      StripBlock(body[1..], rest, closed);
      BlockChar(body[0], body[1..], rest, if closed then Blanks("*/") + Strip(rest[2..], InCode) else "");
      assert body == [body[0]] + body[1..];
    }
  }

  lemma {:induction false} StripLiteral(t: LiteralText, quote: char, rest: string)
    requires IsQuote(quote) && ValidLiteral(t, quote)
    ensures Strip(PrintLiteral(t) + rest, InLiteral(quote)) == Blanks(PrintLiteral(t)) + Strip(rest, InLiteral(quote))
    decreases t
  {
    match t
    case NoMore => assert "" + rest == rest;
    case Char(c, tail) =>
      StripLiteral(tail, quote, rest);
      StripInLiteral([c], PrintLiteral(tail), rest, quote);
    case Escape(c, tail) =>
      StripLiteral(tail, quote, rest);
      StripInLiteral(['\\', c], PrintLiteral(tail), rest, quote);
  }

  /** One plain character or one escape in a literal. */
  lemma StripInLiteral(item: string, tail: string, rest: string, quote: char)
    requires IsQuote(quote)
    requires (|item| == 1 && item[0] != quote && item[0] != '\\') || (|item| == 2 && item[0] == '\\')
    requires Strip(tail + rest, InLiteral(quote)) == Blanks(tail) + Strip(rest, InLiteral(quote))
    ensures Strip((item + tail) + rest, InLiteral(quote)) == Blanks(item + tail) + Strip(rest, InLiteral(quote))
  {
    var s := (item + tail) + rest;
    ConcatAssoc(item, tail, rest);
    assert s[..|item|] == item && s[|item|..] == tail + rest;
    StripOnce(s, InLiteral(quote), tail + rest);
    BlanksConcat(item, tail);
    ConcatAssoc(Blanks(item), Blanks(tail), Strip(rest, InLiteral(quote)));
  }

  /** Stripping any text blanks exactly its comments and literals. */
  lemma {:induction false} StripBlanksNonCode(t: Text)
    requires Valid(t)
    ensures Strip(Print(t), InCode) == Blanked(t)
    decreases t
  {
    match t
    case End =>
    case CodeChar(c, rest) =>
      StripBlanksNonCode(rest);
      StripCodeChar(c, Print(rest));
    case Line(body, rest) =>
      StripBlanksNonCode(rest);
      StripLineComment(body, Print(rest));
    case Block(body, rest) =>
      StripBlanksNonCode(rest);
      StripBlockComment(body, Print(rest));
    case Quoted(q, text, rest) =>
      StripBlanksNonCode(rest);
      StripQuoted(q, text, Print(rest));
    case OpenBlock(body) => StripOpenBlock(body);
    case OpenLiteral(q, text, backslash) => StripOpenLiteral(q, text, backslash);
  }

  lemma StripCodeChar(c: char, rest: string)
    requires !IsQuote(c) && !Opens([c] + rest, '/', '/') && !Opens([c] + rest, '/', '*')
    ensures Strip([c] + rest, InCode) == [c] + Strip(rest, InCode)
  {
    assert ([c] + rest)[1..] == rest;
  }

  lemma StripOpenBlock(body: string)
    requires NoClose(body)
    ensures Strip("/*" + body, InCode) == Blanks("/*") + Blanks(body)
  {
    var s := "/*" + body;
    assert s[2..] == body && s[..2] == "/*" && body + "" == body;
    StripBlock(body, "", false);
    StripOnce(s, InCode, body);
  }

  lemma StripOpenLiteral(q: char, text: LiteralText, backslash: bool)
    requires IsQuote(q) && ValidLiteral(text, q)
    ensures var close := if backslash then "\\" else "";
            Strip([q] + (PrintLiteral(text) + close), InCode)
            == " " + (Blanks(PrintLiteral(text)) + if backslash then " " else "")
  {
    var close := if backslash then "\\" else "";
    StripOpening(q, PrintLiteral(text) + close);
    StripLiteral(text, q, close);
    StripBackslash(q);
  }

  lemma StripBackslash(q: char)
    ensures Strip("\\", InLiteral(q)) == " " && Strip("", InLiteral(q)) == ""
  {
    assert "\\"[1..] == "" && "\\"[..1] == "\\" && Blanks("\\") == " ";
  }

  lemma StripLineComment(body: string, rest: string)
    requires '\n' !in body && (rest != "" ==> rest[0] == '\n')
    ensures Strip("//" + (body + rest), InCode) == Blanks("//") + (Blanks(body) + Strip(rest, InCode))
  {
    var s := "//" + (body + rest);
    assert s[2..] == body + rest && s[..2] == "//";
    StripLine(body, rest);
    StripOnce(s, InCode, body + rest);
  }

  lemma StripBlockComment(body: string, rest: string)
    requires NoClose(body)
    ensures Strip("/*" + (body + ("*/" + rest)), InCode)
            == Blanks("/*") + (Blanks(body) + (Blanks("*/") + Strip(rest, InCode)))
  {
    var close := "*/" + rest;
    var s := "/*" + (body + close);
    assert s[2..] == body + close && s[..2] == "/*" && close[2..] == rest;
    StripBlock(body, close, true);
    StripOnce(s, InCode, body + close);
  }

  lemma StripOpening(q: char, rest: string)
    requires IsQuote(q)
    ensures Strip([q] + rest, InCode) == " " + Strip(rest, InLiteral(q))
  {
    var s := [q] + rest;
    assert s[1..] == rest && s[..1] == [q] && Blanks([q]) == " ";
    StripOnce(s, InCode, rest);
  }

  lemma StripQuoted(q: char, text: LiteralText, rest: string)
    requires IsQuote(q) && ValidLiteral(text, q)
    ensures Strip([q] + (PrintLiteral(text) + ([q] + rest)), InCode) ==
            " " + (Blanks(PrintLiteral(text)) + (" " + Strip(rest, InCode)))
  {
    var close := [q] + rest;
    StripOpening(q, PrintLiteral(text) + close);
    StripLiteral(text, q, close);
    assert close[1..] == rest && close[..1] == [q] && Blanks([q]) == " ";
    StripOnce(close, InLiteral(q), rest);
  }

  /** Whether position i of the text is code: not in a comment or literal, delimiters included. */
  predicate IsCodeAt(t: Text, i: nat) {
    match t
    case End => false
    case CodeChar(_, rest) => i == 0 || IsCodeAt(rest, i - 1)
    case Line(body, rest) => i >= |body| + 2 && IsCodeAt(rest, i - |body| - 2)
    case Block(body, rest) => i >= |body| + 4 && IsCodeAt(rest, i - |body| - 4)
    case Quoted(_, text, rest) =>
      i >= |PrintLiteral(text)| + 2 && IsCodeAt(rest, i - |PrintLiteral(text)| - 2)
    case OpenBlock(_) => false
    case OpenLiteral(_, _, _) => false
  }

  /** Code is kept character by character; a comment or literal becomes line breaks and spaces. */
  lemma StripAt(t: Text, i: nat)
    requires Valid(t) && i < |Print(t)|
    ensures |Strip(Print(t), InCode)| == |Print(t)|
    ensures Strip(Print(t), InCode)[i] == if IsCodeAt(t, i) || Print(t)[i] == '\n' then Print(t)[i] else ' '
  {
    StripBlanksNonCode(t);
    SameLength(t);
    BlankedAt(t, i);
  }

  /** b has a space for every character of p other than line breaks. */
  predicate BlanksOut(p: string, b: string) {
    |b| == |p| && forall i :: 0 <= i < |p| ==> b[i] == if p[i] == '\n' then '\n' else ' '
  }

  lemma BlanksOutConcat(p: string, b: string, q: string, c: string)
    requires BlanksOut(p, b) && BlanksOut(q, c)
    ensures BlanksOut(p + q, b + c)
  {
  }

  /** The comment or literal at the start of t, blanked, and the rest of the text. */
  ghost predicate IsFirstPart(t: Text, p: string, b: string, rest: Text) {
    && BlanksOut(p, b) && Print(t) == p + Print(rest) && Blanked(t) == b + Blanked(rest)
    && forall i: nat :: IsCodeAt(t, i) <==> i >= |p| && IsCodeAt(rest, i - |p|)
  }

  lemma FirstPart(t: Text) returns (p: string, b: string, rest: Text)
    requires Valid(t) && !t.End? && !t.CodeChar?
    ensures IsFirstPart(t, p, b, rest) && Valid(rest) && (rest < t || rest == End)
  {
    match t
    case Line(body, r) =>
      p, b, rest := "//" + body, Blanks("//") + Blanks(body), r;
    case Block(body, r) =>
      rest := r;
      p, b := BlockPart(body, r);
    case Quoted(q, text, r) =>
      rest := r;
      p, b := QuotedPart(q, text, r);
    case _ =>
      rest := End;
      p, b := OpenPart(t);
  }

  lemma BlockPart(body: string, rest: Text) returns (p: string, b: string)
    ensures IsFirstPart(Block(body, rest), p, b, rest)
  {
    p, b := "/*" + (body + "*/"), Blanks("/*") + (Blanks(body) + Blanks("*/"));
    BlanksOutConcat(body, Blanks(body), "*/", Blanks("*/"));
    AssocThree("/*", body, "*/", Print(rest));
    AssocThree(Blanks("/*"), Blanks(body), Blanks("*/"), Blanked(rest));
  }

  lemma QuotedPart(q: char, text: LiteralText, rest: Text) returns (p: string, b: string)
    requires IsQuote(q)
    ensures IsFirstPart(Quoted(q, text, rest), p, b, rest)
  {
    var inner := PrintLiteral(text);
    p, b := [q] + (inner + [q]), " " + (Blanks(inner) + " ");
    BlanksOutConcat(inner, Blanks(inner), [q], " ");
    BlanksOutConcat([q], " ", inner + [q], Blanks(inner) + " ");
    AssocThree([q], inner, [q], Print(rest));
    AssocThree(" ", Blanks(inner), " ", Blanked(rest));
  }

  lemma OpenPart(t: Text) returns (p: string, b: string)
    requires t.OpenBlock? || (t.OpenLiteral? && IsQuote(t.quote))
    ensures IsFirstPart(t, p, b, End)
  {
    p, b := Print(t), Blanked(t);
    assert p + "" == p && b + "" == b;
    if t.OpenLiteral? {
      var inner, close := PrintLiteral(t.text), if t.backslash then "\\" else "";
      BlanksOutConcat(inner, Blanks(inner), close, Blanks(close));
    }
  }

  lemma AssocThree(a: string, b: string, c: string, d: string)
    ensures a + (b + (c + d)) == (a + (b + c)) + d
  {
  }

  lemma {:induction false} SameLength(t: Text)
    requires Valid(t)
    ensures |Blanked(t)| == |Print(t)|
    decreases t
  {
    if t.CodeChar? {
      SameLength(t.rest);
    } else if !t.End? {
      var p, b, rest := FirstPart(t);
      if rest != End {
        SameLength(rest);
      }
    }
  }

  lemma {:induction false} BlankedAt(t: Text, i: nat)
    requires Valid(t) && i < |Print(t)| == |Blanked(t)|
    ensures Blanked(t)[i] == if IsCodeAt(t, i) || Print(t)[i] == '\n' then Print(t)[i] else ' '
    decreases t
  {
    if t.CodeChar? {
      if i > 0 {
        BlankedAt(t.rest, i - 1);
      }
    } else {
      var p, b, rest := FirstPart(t);
      if i >= |p| {
        BlankedAt(rest, i - |p|);
      }
    }
  }

  // ---- Every text has such a structure ----

  /** The line up to its break. */
  function LineLength(s: string): (n: nat)
    ensures n <= |s| && (n < |s| ==> s[n] == '\n') && forall i :: 0 <= i < n ==> s[i] != '\n'
  {
    if s == "" || s[0] == '\n' then 0 else 1 + LineLength(s[1..])
  }

  /** The block up to its first closing pair, or all of it. */
  function BlockLength(s: string): (n: nat)
    ensures n <= |s| && (n < |s| ==> Opens(s[n..], '*', '/'))
  {
    if s == "" || Opens(s, '*', '/') then 0
    else
      assert forall n :: 0 <= n <= |s[1..]| ==> s[1..][n..] == s[n + 1..];
      1 + BlockLength(s[1..])
  }

  lemma {:induction false} BlockHasNoClose(s: string)
    ensures NoClose(s[..BlockLength(s)])
    decreases |s|
  {
    var n := BlockLength(s);
    if n > 0 {
      BlockHasNoClose(s[1..]);
      var body, inner := s[..n], s[1..][..n - 1];
      forall i | 0 <= i < n ensures !Opens(body[i..], '*', '/') {
        if i == 0 {
          assert !Opens(s, '*', '/');
        } else {
          assert !Opens(inner[i - 1..], '*', '/');
          assert inner[i - 1..] == body[i..];
        }
      }
    }
  }

  /** The literal text at the start of s, and what stops it: nothing, a lone backslash or the quote. */
  lemma {:induction false} ReadLiteral(s: string, quote: char) returns (t: LiteralText, rest: string)
    ensures ValidLiteral(t, quote) && s == PrintLiteral(t) + rest
    ensures rest == "" || rest == "\\" || rest[0] == quote
    decreases |s|
  {
    if s == "" || s == "\\" || s[0] == quote {
      t, rest := NoMore, s;
    } else if s[0] == '\\' {
      var tail;
      tail, rest := ReadLiteral(s[2..], quote);
      t := Escape(s[1], tail);
      assert s == ['\\', s[1]] + s[2..];
    } else {
      var tail;
      tail, rest := ReadLiteral(s[1..], quote);
      t := Char(s[0], tail);
      assert s == [s[0]] + s[1..];
    }
  }

  /** Every text is the print of a valid structure, so the result above covers all texts. */
  lemma {:induction false} EveryTextHasStructure(s: string) returns (t: Text)
    ensures Valid(t) && Print(t) == s
    ensures s != "" && s[0] == '\n' ==> t.CodeChar? && t.c == '\n'
    decreases |s|
  {
    if s == "" {
      t := End;
    } else if Opens(s, '/', '/') {
      var n := LineLength(s[2..]);
      var rest := EveryTextHasStructure(s[2..][n..]);
      t := Line(s[2..][..n], rest);
      LineCut(s, n);
    } else if Opens(s, '/', '*') {
      t := BlockStructure(s);
    } else if IsQuote(s[0]) {
      t := LiteralStructure(s);
    } else {
      var rest := EveryTextHasStructure(s[1..]);
      t := CodeChar(s[0], rest);
      assert s == [s[0]] + s[1..];
    }
  }

  lemma LineCut(s: string, n: nat)
    requires Opens(s, '/', '/') && n <= |s| - 2
    ensures s == "//" + (s[2..][..n] + s[2..][n..])
  {
    assert s == "//" + s[2..];
  }

  lemma LiteralStructure(s: string) returns (t: Text)
    requires s != "" && IsQuote(s[0])
    ensures Valid(t) && Print(t) == s && !t.CodeChar?
    decreases |s|, 0
  {
    var text, close := ReadLiteral(s[1..], s[0]);
    assert s == [s[0]] + (PrintLiteral(text) + close);
    if close != "" && close[0] == s[0] {
      var rest := EveryTextHasStructure(close[1..]);
      t := Quoted(s[0], text, rest);
      assert close == [s[0]] + close[1..];
    } else {
      t := OpenLiteral(s[0], text, close == "\\");
    }
  }

  lemma BlockStructure(s: string) returns (t: Text)
    requires Opens(s, '/', '*')
    ensures Valid(t) && Print(t) == s && !t.CodeChar?
    decreases |s|, 0
  {
    var body, close := CutBlock(s);
    if close == "" {
      t := OpenBlock(body);
      assert body + "" == body;
    } else {
      var rest := EveryTextHasStructure(close[2..]);
      t := Block(body, rest);
      assert close == "*/" + close[2..];
    }
  }

  /** The body of a block comment and what follows it. */
  lemma CutBlock(s: string) returns (body: string, close: string)
    requires Opens(s, '/', '*')
    ensures NoClose(body) && s == "/*" + (body + close) && |close| < |s|
    ensures close == "" || Opens(close, '*', '/')
  {
    var inner := s[2..];
    var n := BlockLength(inner);
    BlockHasNoClose(inner);
    body, close := inner[..n], inner[n..];
    assert inner == body + close && s == "/*" + inner;
  }
}
