/** Which trees survive being printed and parsed again: exactly the printable ones. */
module ConfigRoundTrip {
  import opened Wrappers
  import opened ConfigTree
  import opened ConfigGrammar
  import opened ConfigLexer

  // The character classes of the configuration language.

  /** The six characters that end a word. */
  predicate EndsWord(c: char) {
    c == ';' || c == '{' || c == '}' || c == ' ' || c == '\n' || c == '\t'
  }

  /** The four characters that separate tokens; a carriage return does not end a word. */
  predicate IsGap(c: char) {
    c == '\t' || c == '\n' || c == '\r' || c == ' '
  }

  predicate IsQuote(c: char) {
    c == '"' || c == '\''
  }

  predicate StartsPlain(c: char) {
    !EndsWord(c) && c != '\r' && c != '#' && !IsQuote(c)
  }

  predicate IsPlain(w: string) {
    w != "" && StartsPlain(w[0]) && forall i :: 0 <= i < |w| ==> !EndsWord(w[i])
  }

  /** A word in quotes; whatever stands between them came out of the lexer unescaped. */
  predicate IsQuoted(w: string) {
    |w| >= 2 && IsQuote(w[0]) && w[|w| - 1] == w[0]
  }

  /** The words the lexer can produce. */
  predicate Lexable(w: string) {
    IsPlain(w) || IsQuoted(w)
  }

  /** No quote of its own kind and no backslash inside. */
  predicate IsClean(w: string) {
    IsQuoted(w) && forall i :: 1 <= i < |w| - 1 ==> w[i] != w[0] && w[i] != '\\'
  }

  predicate PrintableWord(w: string) {
    IsPlain(w) || IsClean(w)
  }

  predicate PrintableStatement(s: Statement)
    decreases s, 1
  {
    (forall w :: w in s.tokens ==> PrintableWord(w)) && (s.Block? ==> Printable(s.child))
  }

  predicate Printable(c: Config)
    decreases c, 0
  {
    c == [] || (PrintableStatement(c[0]) && Printable(c[1..]))
  }

  predicate StartsWithStop(s: string) {
    s != "" && EndsWord(s[0])
  }

  // ----- printable words lex back to themselves

  lemma {:induction false} ScanPlainTail(value: string, w: string, rest: string)
    requires forall i :: 0 <= i < |w| ==> !EndsWord(w[i])
    requires StartsWithStop(rest)
    ensures Scan(InNormal, value, w + rest) == Lexed(NormalToken, value + w, rest)
    decreases |w|
  {
    if w == "" {
      assert w + rest == rest;
      assert value + w == value;
    } else {
      assert (w + rest)[1..] == w[1..] + rest;
      ScanPlainTail(value + [w[0]], w[1..], rest);
      assert value + [w[0]] + w[1..] == value + w;
    }
  }

  function InsideQuote(q: char): LexState {
    if q == '\'' then SingleQuote else DoubleQuote
  }

  lemma {:induction false} ScanQuotedTail(q: char, value: string, body: string, rest: string)
    requires IsQuote(q) && StartsWithStop(rest)
    requires forall i :: 0 <= i < |body| ==> body[i] != q && body[i] != '\\'
    ensures Scan(InsideQuote(q), value, body + [q] + rest) == Lexed(NormalToken, value + body + [q], rest)
    decreases |body|
  {
    var text := body + [q] + rest;
    if body == "" {
      assert text[0] == q && text[1..] == rest;
      assert value + body + [q] == value + [q];
    } else {
      assert text[1..] == body[1..] + [q] + rest;
      ScanQuotedTail(q, value + [body[0]], body[1..], rest);
      assert value + [body[0]] + body[1..] == value + body;
    }
  }

  lemma NextPlain(w: string, rest: string)
    requires IsPlain(w) && StartsWithStop(rest)
    ensures NextToken(w + rest) == Lexed(NormalToken, w, rest)
  {
    assert (w + rest)[0] == w[0] && (w + rest)[1..] == w[1..] + rest;
    ScanPlainTail([w[0]], w[1..], rest);
    assert "" + [w[0]] == [w[0]] && [w[0]] + w[1..] == w;
  }

  lemma NextClean(w: string, rest: string)
    requires IsClean(w) && StartsWithStop(rest)
    ensures NextToken(w + rest) == Lexed(NormalToken, w, rest)
  {
    var q, body := w[0], w[1..|w| - 1];
    assert (w + rest)[0] == q && (w + rest)[1..] == body + [q] + rest;
    ScanQuotedTail(q, [q], body, rest);
    assert [q] + body + [q] == w;
  }

  lemma LexPrintableWord(w: string, rest: string)
    requires PrintableWord(w) && StartsWithStop(rest)
    ensures LexAll(w + rest) == Prepend([Word(w)], LexAll(rest))
  {
    if IsPlain(w) {
      NextPlain(w, rest);
    } else {
      NextClean(w, rest);
    }
  }

  // ----- layout between them is skipped

  lemma LexBlank(c: char, rest: string)
    requires IsGap(c)
    ensures LexAll([c] + rest) == LexAll(rest)
  {
    assert ([c] + rest)[1..] == rest;
    assert NextToken([c] + rest) == NextToken(rest);
  }

  lemma LexPunctuation(rest: string)
    ensures LexAll("{" + rest) == Prepend([OpenBlock], LexAll(rest))
    ensures LexAll("}" + rest) == Prepend([CloseBlock], LexAll(rest))
    ensures LexAll(";" + rest) == Prepend([EndStatement], LexAll(rest))
  {
    assert ("{" + rest)[1..] == rest && ("}" + rest)[1..] == rest && (";" + rest)[1..] == rest;
  }

  lemma {:induction false} LexIndent(depth: nat, rest: string)
    ensures LexAll(Indent(depth) + rest) == LexAll(rest)
  {
    if depth == 0 {
      assert Indent(depth) + rest == rest;
    } else {
      var tail := Indent(depth - 1) + rest;
      assert Indent(depth) + rest == " " + (" " + tail);
      LexBlank(' ', " " + tail);
      LexBlank(' ', tail);
      LexIndent(depth - 1, rest);
    }
  }

  lemma PrependTwice(a: seq<Token>, b: seq<Token>, l: Lexing)
    ensures Prepend(a, Prepend(b, l)) == Prepend(a + b, l)
  {
    assert a + (b + l.tokens) == a + b + l.tokens;
  }

  lemma {:induction false} LexJoined(tokens: seq<string>, rest: string)
    requires forall w :: w in tokens ==> PrintableWord(w)
    requires StartsWithStop(rest)
    ensures LexAll(Joined(tokens) + rest) == Prepend(Words(tokens), LexAll(rest))
    decreases |tokens|
  {
    if tokens == [] {
      assert Joined(tokens) + rest == rest;
      assert Words(tokens) + LexAll(rest).tokens == LexAll(rest).tokens;
    } else if |tokens| == 1 {
      LexPrintableWord(tokens[0], rest);
      assert Words(tokens) == [Word(tokens[0])];
    } else {
      var tail := Joined(tokens[1..]) + rest;
      assert Joined(tokens) + rest == tokens[0] + (" " + tail);
      LexPrintableWord(tokens[0], " " + tail);
      LexBlank(' ', tail);
      LexJoined(tokens[1..], rest);
      PrependTwice([Word(tokens[0])], Words(tokens[1..]), LexAll(rest));
      assert [Word(tokens[0])] + Words(tokens[1..]) == Words(tokens);
    }
  }

  /** What stands between a statement's words and the end of its line. */
  function PrintedEnd(s: Statement, depth: nat): string {
    if s.Simple? then ";\n" else " {\n" + Print(s.child, depth + 1) + Indent(depth) + "}\n"
  }

  lemma StatementLine(s: Statement, depth: nat, rest: string)
    ensures PrintStatement(s, depth) + rest == Indent(depth) + (Joined(s.tokens) + (PrintedEnd(s, depth) + rest))
  {
  }

  lemma BlockLine(s: Statement, depth: nat, rest: string)
    requires s.Block?
    ensures PrintedEnd(s, depth) + rest ==
            " " + ("{" + ("\n" + (Print(s.child, depth + 1) + (Indent(depth) + ("}" + ("\n" + rest))))))
  {
  }

  /** A block line up to its body, and from the end of its body on. */
  lemma LexBlockLine(s: Statement, depth: nat, rest: string)
    requires s.Block?
    ensures LexAll(PrintedEnd(s, depth) + rest) ==
            Prepend([OpenBlock], LexAll(Print(s.child, depth + 1) + (Indent(depth) + ("}" + ("\n" + rest)))))
    ensures LexAll(Indent(depth) + ("}" + ("\n" + rest))) == Prepend([CloseBlock], LexAll(rest))
  {
    var inner := Print(s.child, depth + 1) + (Indent(depth) + ("}" + ("\n" + rest)));
    BlockLine(s, depth, rest);
    LexBlank(' ', "{" + ("\n" + inner));
    LexPunctuation("\n" + inner);
    LexBlank('\n', inner);
    LexIndent(depth, "}" + ("\n" + rest));
    LexPunctuation("\n" + rest);
    LexBlank('\n', rest);
  }

  lemma LexSimpleLine(rest: string)
    ensures LexAll(";\n" + rest) == Prepend([EndStatement], LexAll(rest))
  {
    assert ";\n" + rest == ";" + ("\n" + rest);
    LexPunctuation("\n" + rest);
    LexBlank('\n', rest);
  }

  lemma {:induction false} LexStatement(s: Statement, depth: nat, rest: string)
    requires PrintableStatement(s)
    ensures LexAll(PrintStatement(s, depth) + rest) == Prepend(YieldStatement(s), LexAll(rest))
    decreases s, 1
  {
    var end := PrintedEnd(s, depth) + rest;
    StatementLine(s, depth, rest);
    LexIndent(depth, Joined(s.tokens) + end);
    LexJoined(s.tokens, end);
    match s
    case Simple(_) =>
      LexSimpleLine(rest);
      PrependTwice(Words(s.tokens), [EndStatement], LexAll(rest));
    case Block(_, child) =>
      LexBlockLine(s, depth, rest);
      LexPrint(child, depth + 1, Indent(depth) + ("}" + ("\n" + rest)));
      PrependTwice(Yield(child), [CloseBlock], LexAll(rest));
      PrependTwice([OpenBlock], Yield(child) + [CloseBlock], LexAll(rest));
      PrependTwice(Words(s.tokens), [OpenBlock] + (Yield(child) + [CloseBlock]), LexAll(rest));
      assert [OpenBlock] + (Yield(child) + [CloseBlock]) == [OpenBlock] + Yield(child) + [CloseBlock];
  }

  lemma {:induction false} LexPrint(c: Config, depth: nat, rest: string)
    requires Printable(c)
    ensures LexAll(Print(c, depth) + rest) == Prepend(Yield(c), LexAll(rest))
    decreases c, 0
  {
    if c == [] {
      assert Print(c, depth) + rest == rest;
    } else {
      assert Print(c, depth) + rest == PrintStatement(c[0], depth) + (Print(c[1..], depth) + rest);
      LexStatement(c[0], depth, Print(c[1..], depth) + rest);
      LexPrint(c[1..], depth, rest);
    }
  }

  // ----- a word that is not printable never lexes back to itself

  function InsideEscape(q: char): LexState {
    if q == '\'' then EscapeSingleQuote else EscapeDoubleQuote
  }

  /** The lexer drops every backslash it reads inside quotes, so what it adds to value cannot be
      a prefix of the input with backslashes put in front. */
  lemma {:induction false} BackslashesAreLost(q: char, value: string, slashes: string, input: string)
    requires IsQuote(q) && slashes != "" && forall i :: 0 <= i < |slashes| ==> slashes[i] == '\\'
    requires Scan(InsideQuote(q), value, input).kind == NormalToken
    ensures !(Scan(InsideQuote(q), value, input).value <= value + slashes + input)
    decreases |input|
  {
    var r := Scan(InsideQuote(q), value, input);
    ValueGrows(InsideQuote(q), value, input);
    var all := value + slashes + input;
    assert all[|value|] == '\\';
    if input[0] == q {
      assert r.value[|value|] == q;
    } else if input[0] != '\\' {
      ValueGrows(InsideQuote(q), value + [input[0]], input[1..]);
      assert r.value[|value|] == input[0];
    } else {
      assert r == Scan(InsideEscape(q), value, input[1..]);
      assert r == Scan(InsideQuote(q), value + [input[1]], input[1..][1..]);
      ValueGrows(InsideQuote(q), value + [input[1]], input[2..]);
      assert input[1..][1..] == input[2..];
      assert r.value[|value|] == input[1];
      if input[1] == '\\' {
        var more := slashes + "\\";
        BackslashesAreLost(q, value + "\\", more, input[2..]);
        assert value + "\\" + more + input[2..] == all by {
          assert input == "\\" + "\\" + input[2..];
          assert "\\" + slashes == slashes + "\\" by { SlashesCommute(slashes); }
        }
      }
    }
  }

  lemma SlashesCommute(slashes: string)
    requires forall i :: 0 <= i < |slashes| ==> slashes[i] == '\\'
    ensures "\\" + slashes == slashes + "\\"
  {
  }

  lemma {:induction false} ValueGrows(state: LexState, value: string, input: string)
    requires state != InitialWhitespace
    ensures value <= Scan(state, value, input).value
    ensures state !in {InComment, InNormal} && Scan(state, value, input).kind == NormalToken ==>
              |value| < |Scan(state, value, input).value|
    ensures state != InComment ==> Scan(state, value, input).kind in {NormalToken, LexError, EndOfFile}
    decreases |input|
  {
    if input != "" {
      var c, rest := input[0], input[1..];
      ValueGrows(state, value + [c], rest);
      ValueGrows(SingleQuote, value + [c], rest);
      ValueGrows(DoubleQuote, value + [c], rest);
      ValueGrows(EscapeSingleQuote, value, rest);
      ValueGrows(EscapeDoubleQuote, value, rest);
    }
  }

  /** Inside quotes, a body holding the quote or a backslash is not what the lexer returns. */
  lemma {:induction false} UncleanTail(q: char, value: string, body: string, rest: string)
    requires IsQuote(q) && (q in body || '\\' in body)
    ensures
      var r := Scan(InsideQuote(q), value, body + [q] + rest);
      r.kind == NormalToken ==> r.value != value + body + [q]
    decreases |body|
  {
    var input := body + [q] + rest;
    var r := Scan(InsideQuote(q), value, input);
    assert input[0] == body[0] && input[1..] == body[1..] + [q] + rest;
    if body[0] == '\\' {
      if r.kind == NormalToken && r.value == value + body + [q] {
        assert r == Scan(InsideEscape(q), value, input[1..]);
        assert r == Scan(InsideQuote(q), value + [input[1]], input[1..][1..]);
        assert input[1..][1..] == input[2..];
        ValueGrows(InsideQuote(q), value + [input[1]], input[2..]);
        assert r.value[|value|] == input[1] == '\\';
        assert value + "\\" + "\\" + input[2..] == value + body + [q] + rest;
        BackslashesAreLost(q, value + "\\", "\\", input[2..]);
      }
    } else if body[0] != q {
      UncleanTail(q, value + [body[0]], body[1..], rest);
      assert value + [body[0]] + body[1..] == value + body;
    }
  }

  lemma LexUncleanWord(w: string, rest: string)
    requires Lexable(w) && !PrintableWord(w)
    ensures !([Word(w)] <= LexAll(w + rest).tokens)
  {
    var q, body := w[0], w[1..|w| - 1];
    assert w == [q] + body + [q];
    assert (w + rest)[0] == q && (w + rest)[1..] == body + [q] + rest;
    var i :| 1 <= i < |w| - 1 && (w[i] == q || w[i] == '\\');
    assert body[i - 1] == w[i];
    UncleanTail(q, [q], body, rest);
    assert NextToken(w + rest) == Scan(InsideQuote(q), [q], body + [q] + rest);
    ValueGrows(InsideQuote(q), [q], body + [q] + rest);
    var ts := LexAll(w + rest).tokens;
    assert ts == [] || ts[0] != Word(w);
  }

  lemma PrefixCancel<T>(a: seq<T>, b: seq<T>, c: seq<T>)
    requires a + b <= a + c
    ensures b <= c
  {
    assert b == (a + b)[|a|..] && c == (a + c)[|a|..];
    assert a + c == (a + b) + (a + c)[|a + b|..];
  }

  predicate AllLexable(ts: seq<Token>) {
    forall t :: t in ts && t.Word? ==> Lexable(t.text)
  }

  lemma {:induction false} LexUncleanJoined(tokens: seq<string>, rest: string)
    requires forall w :: w in tokens ==> Lexable(w)
    requires exists w :: w in tokens && !PrintableWord(w)
    requires StartsWithStop(rest)
    ensures !(Words(tokens) <= LexAll(Joined(tokens) + rest).tokens)
    decreases |tokens|
  {
    var tail := if |tokens| == 1 then rest else " " + (Joined(tokens[1..]) + rest);
    assert Joined(tokens) + rest == tokens[0] + tail;
    assert Words(tokens) == [Word(tokens[0])] + Words(tokens[1..]);
    if !PrintableWord(tokens[0]) {
      LexUncleanWord(tokens[0], tail);
    } else {
      LexPrintableWord(tokens[0], tail);
      LexBlank(' ', Joined(tokens[1..]) + rest);
      LexUncleanJoined(tokens[1..], rest);
      if Words(tokens) <= LexAll(Joined(tokens) + rest).tokens {
        PrefixCancel([Word(tokens[0])], Words(tokens[1..]), LexAll(tail).tokens);
      }
    }
  }

  lemma {:induction false} LexUncleanStatement(s: Statement, depth: nat, rest: string)
    requires AllLexable(YieldStatement(s)) && !PrintableStatement(s)
    ensures !(YieldStatement(s) <= LexAll(PrintStatement(s, depth) + rest).tokens)
    decreases s, 1
  {
    var end := PrintedEnd(s, depth) + rest;
    StatementLine(s, depth, rest);
    LexIndent(depth, Joined(s.tokens) + end);
    forall w | w in s.tokens ensures Lexable(w) {
      var i :| 0 <= i < |s.tokens| && s.tokens[i] == w;
      assert YieldStatement(s)[i] == Word(w);
    }
    if exists w :: w in s.tokens && !PrintableWord(w) {
      LexUncleanJoined(s.tokens, end);
    } else {
      LexJoined(s.tokens, end);
      LexUncleanBlock(s, depth, rest);
    }
  }

  lemma {:induction false} LexUncleanBlock(s: Statement, depth: nat, rest: string)
    requires s.Block? && AllLexable(YieldStatement(s)) && !Printable(s.child)
    requires LexAll(PrintStatement(s, depth) + rest) ==
             Prepend(Words(s.tokens), LexAll(PrintedEnd(s, depth) + rest))
    ensures !(YieldStatement(s) <= LexAll(PrintStatement(s, depth) + rest).tokens)
    decreases s, 0
  {
    var close := Indent(depth) + ("}" + ("\n" + rest));
    LexBlockLine(s, depth, rest);
    LexUncleanPrint(s.child, depth + 1, close);
    var inner := LexAll(Print(s.child, depth + 1) + close).tokens;
    var body := [OpenBlock] + (Yield(s.child) + [CloseBlock]);
    assert YieldStatement(s) == Words(s.tokens) + body;
    if YieldStatement(s) <= LexAll(PrintStatement(s, depth) + rest).tokens {
      PrefixCancel(Words(s.tokens), body, [OpenBlock] + inner);
      PrefixCancel([OpenBlock], Yield(s.child) + [CloseBlock], inner);
    }
  }

  lemma {:induction false} LexUncleanPrint(c: Config, depth: nat, rest: string)
    requires AllLexable(Yield(c)) && !Printable(c)
    ensures !(Yield(c) <= LexAll(Print(c, depth) + rest).tokens)
    decreases c, 0
  {
    var tail := Print(c[1..], depth) + rest;
    assert Print(c, depth) + rest == PrintStatement(c[0], depth) + tail;
    assert Yield(c) == YieldStatement(c[0]) + Yield(c[1..]);
    if !PrintableStatement(c[0]) {
      LexUncleanStatement(c[0], depth, tail);
    } else {
      LexStatement(c[0], depth, tail);
      LexUncleanPrint(c[1..], depth, rest);
      if Yield(c) <= LexAll(Print(c, depth) + rest).tokens {
        PrefixCancel(YieldStatement(c[0]), Yield(c[1..]), LexAll(tail).tokens);
      }
    }
  }

  // ----- every word that the lexer returns is plain or quoted

  lemma {:induction false} ScanLexable(state: LexState, value: string, input: string)
    requires match state
             case InitialWhitespace => value == ""
             case InComment => true
             case InNormal => IsPlain(value)
             case _ => value != "" && value[0] == QuoteOf(state)
    ensures Scan(state, value, input).kind == NormalToken ==> Lexable(Scan(state, value, input).value)
    decreases |input|
  {
    if input != "" {
      var c, rest := input[0], input[1..];
      match state
      case InitialWhitespace =>
        if c == '#' {
          ScanLexable(InComment, "#", rest);
        } else if IsQuote(c) {
          ScanLexable(InsideQuote(c), [c], rest);
        } else if IsGap(c) {
          ScanLexable(InitialWhitespace, value, rest);
        } else if !EndsWord(c) {
          ScanLexable(InNormal, value + [c], rest);
        }
      case InComment => ScanLexable(InComment, value + [c], rest);
      case InNormal =>
        if !EndsWord(c) {
          ScanLexable(InNormal, value + [c], rest);
        }
      case EscapeSingleQuote => ScanLexable(SingleQuote, value + [c], rest);
      case EscapeDoubleQuote => ScanLexable(DoubleQuote, value + [c], rest);
      case _ =>
        if c == '\\' {
          ScanLexable(InsideEscape(QuoteOf(state)), value, rest);
        } else if c != QuoteOf(state) {
          ScanLexable(state, value + [c], rest);
        }
    }
  }

  lemma {:induction false} LexAllLexable(input: string)
    ensures AllLexable(LexAll(input).tokens)
    decreases |input|
  {
    var l := NextToken(input);
    ScanLexable(InitialWhitespace, "", input);
    if l.kind != EndOfFile && l.kind != LexError {
      LexAllLexable(l.rest);
    }
  }

  /** Printing a tree at any depth and parsing the text gives the tree back if and only if every
      statement has a word and every word is plain, or quoted without its quote or a backslash inside. */
  lemma RoundTrip(c: Config, depth: nat)
    ensures ParseText(Print(c, depth)) == Some(c) <==> WellFormed(c) && Printable(c)
  {
    var text := Print(c, depth);
    assert text + "" == text;
    GrammarEquivalence(LexAll(text).tokens, c);
    if Printable(c) {
      LexPrint(c, depth, "");
      assert LexAll("") == Lexing([], true);
    } else if ParseText(text) == Some(c) {
      LexAllLexable(text);
      LexUncleanPrint(c, depth, "");
    }
  }
}
