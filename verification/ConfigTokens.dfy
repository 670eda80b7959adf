/** The lexical rules of configuration files, written without states, and their agreement with the lexer on
    every text. */
module ConfigTokens {
  import opened Wrappers
  import opened ConfigLexer
  import opened ConfigRoundTrip
  import opened ConfigLayout
  import opened ConfigLanguage

  // ----- the rules

  predicate AllGaps(s: string) {
    forall i :: 0 <= i < |s| ==> IsGap(s[i])
  }

  /** A comment goes up to the first line end, which is swallowed. */
  predicate CommentTo(s: string, k: nat, l: Lexed) {
    && k <= |s| && (forall i :: 0 <= i < k ==> !IsLineEnd(s[i]))
    && if k < |s| then IsLineEnd(s[k]) && l == Lexed(Comment, s[..k], s[k + 1..]) else l == Lexed(EndOfFile, s, "")
  }

  /** A word goes up to the first of the six characters that end it, which stays unread. */
  predicate WordTo(s: string, k: nat, l: Lexed) {
    && k <= |s| && (forall i :: 0 <= i < k ==> !EndsWord(s[i]))
    && if k < |s| then EndsWord(s[k]) && l == Lexed(NormalToken, s[..k], s[k..]) else l == Lexed(EndOfFile, s, "")
  }

  /** What may follow the characters inside quotes: the end of the text, a last backslash, or the closing quote,
      after which any character but the six is an error. */
  predicate ClosesAt(q: char, value: string, tail: string, l: Lexed) {
    if tail == "" then l == Lexed(LexError, value, "")
    else if tail == "\\" then l == Lexed(EndOfFile, value, "")
    else
      && tail[0] == q
      && if |tail| == 1 then l == Lexed(LexError, value + [q], "")
         else if EndsWord(tail[1]) then l == Lexed(NormalToken, value + [q], tail[1..])
         else l == Lexed(LexError, value + [q], tail[2..])
  }

  ghost predicate QuotedAt(s: string, l: Lexed)
    requires s != ""
  {
    exists body, tail ::
      && ValidSpelling(InQuotes(s[0], body)) && s == [s[0]] + (SpellInner(body) + tail)
      && ClosesAt(s[0], [s[0]] + Unescaped(body), tail, l)
  }

  ghost predicate TokenAt(s: string, l: Lexed) {
    if s == "" then l == Lexed(EndOfFile, "", "")
    else if s[0] == ';' then l == Lexed(StatementEnd, ";", s[1..])
    else if s[0] == '{' then l == Lexed(StartBlock, "{", s[1..])
    else if s[0] == '}' then l == Lexed(EndBlock, "}", s[1..])
    else if s[0] == '#' then exists k: nat :: CommentTo(s, k, l)
    else if s[0] == '"' || s[0] == '\'' then QuotedAt(s, l)
    else !IsGap(s[0]) && exists k: nat :: WordTo(s, k, l)
  }

  ghost predicate FirstToken(input: string, l: Lexed) {
    exists gaps, rest :: AllGaps(gaps) && input == gaps + rest && TokenAt(rest, l)
  }

  // ----- the lexer follows them

  lemma {:induction false} SkipGaps(gaps: string, rest: string)
    requires AllGaps(gaps)
    ensures NextToken(gaps + rest) == NextToken(rest)
    decreases |gaps|
  {
    if gaps == "" {
      assert gaps + rest == rest;
    } else {
      assert IsGap(gaps[0]);
      assert (gaps + rest)[1..] == gaps[1..] + rest;
      SkipGaps(gaps[1..], rest);
    }
  }

  lemma CommentIsNext(s: string, k: nat, l: Lexed)
    requires s != "" && s[0] == '#' && CommentTo(s, k, l)
    ensures NextToken(s) == l
  {
    var text := s[1..k];
    if k < |s| {
      assert s[1..] == text + [s[k]] + s[k + 1..];
      ScanRemark("#", text, s[k], s[k + 1..]);
      assert "#" + text == s[..k];
    } else {
      assert text == s[1..];
      ScanOpenRemark("#", s[1..]);
      assert "#" + s[1..] == s;
    }
  }

  lemma WordIsNext(s: string, k: nat, l: Lexed)
    requires s != "" && !IsGap(s[0]) && StartsPlain(s[0]) && WordTo(s, k, l)
    ensures NextToken(s) == l
  {
    if k < |s| {
      assert s == s[..k] + s[k..];
      NextPlain(s[..k], s[k..]);
    } else {
      ScanUnended([s[0]], s[1..]);
      assert "" + [s[0]] == [s[0]] && [s[0]] + s[1..] == s;
    }
  }

  lemma {:induction false} ScanBody(q: char, value: string, body: seq<Inner>, tail: string)
    requires ValidSpelling(InQuotes(q, body))
    ensures Scan(InsideQuote(q), value, SpellInner(body) + tail) == Scan(InsideQuote(q), value + Unescaped(body), tail)
    decreases |body|
  {
    if body == [] {
      assert SpellInner(body) + tail == tail && value + Unescaped(body) == value;
    } else {
      assert body[0] in body;
      Assoc(SpellOne(body[0]), SpellInner(body[1..]), tail);
      ScanOne(q, value, body[0], SpellInner(body[1..]) + tail);
      ScanBody(q, value + [body[0].c], body[1..], tail);
      Assoc(value, [body[0].c], Unescaped(body[1..]));
    }
  }

  lemma ScanClose(q: char, value: string, tail: string, l: Lexed)
    requires IsQuote(q) && ClosesAt(q, value, tail, l)
    ensures Scan(InsideQuote(q), value, tail) == l
  {
    if tail == "\\" {
      assert tail[1..] == "";
    } else if |tail| >= 2 {
      assert tail[1..][1..] == tail[2..];
    }
  }

  lemma QuotedIsNext(s: string, l: Lexed)
    requires s != "" && IsQuote(s[0]) && QuotedAt(s, l)
    ensures NextToken(s) == l
  {
    var q := s[0];
    var body, tail :| ValidSpelling(InQuotes(q, body)) && s == [q] + (SpellInner(body) + tail) &&
      ClosesAt(q, [q] + Unescaped(body), tail, l);
    assert s[1..] == SpellInner(body) + tail;
    assert NextToken(s) == Scan(InsideQuote(q), [q], s[1..]);
    ScanBody(q, [q], body, tail);
    ScanClose(q, [q] + Unescaped(body), tail, l);
  }

  lemma TokenIsNext(s: string, l: Lexed)
    requires TokenAt(s, l)
    ensures NextToken(s) == l
  {
    if s != "" {
      if s[0] == '#' {
        var k: nat :| CommentTo(s, k, l);
        CommentIsNext(s, k, l);
      } else if IsQuote(s[0]) {
        QuotedIsNext(s, l);
      } else if !EndsWord(s[0]) {
        var k: nat :| WordTo(s, k, l);
        WordIsNext(s, k, l);
      }
    }
  }

  // ----- and they cover every text

  function LeadingGaps(s: string): (k: nat)
    ensures k <= |s| && (forall i :: 0 <= i < k ==> IsGap(s[i])) && (k < |s| ==> !IsGap(s[k]))
  {
    if s == "" || !IsGap(s[0]) then 0 else 1 + LeadingGaps(s[1..])
  }

  lemma {:induction false} SplitInner(q: char, s: string) returns (body: seq<Inner>, tail: string)
    requires IsQuote(q)
    ensures ValidSpelling(InQuotes(q, body)) && s == SpellInner(body) + tail
    ensures tail == "" || tail == "\\" || tail[0] == q
    decreases |s|
  {
    if s == "" || s == "\\" || s[0] == q {
      body, tail := [], s;
      assert s == "" + s;
    } else {
      var x, next := if s[0] == '\\' then Escaped(s[1]) else Bare(s[0]), if s[0] == '\\' then s[2..] else s[1..];
      assert s == SpellOne(x) + next;
      var more;
      more, tail := SplitInner(q, next);
      body := [x] + more;
      assert body[1..] == more;
      Assoc(SpellOne(x), SpellInner(more), tail);
    }
  }

  lemma QuotedExists(s: string) returns (l: Lexed)
    requires s != "" && IsQuote(s[0])
    ensures QuotedAt(s, l)
  {
    var q := s[0];
    var body, tail := SplitInner(q, s[1..]);
    var value := [q] + Unescaped(body);
    l := if tail == "" then Lexed(LexError, value, "")
         else if tail == "\\" then Lexed(EndOfFile, value, "")
         else if |tail| == 1 then Lexed(LexError, value + [q], "")
         else if EndsWord(tail[1]) then Lexed(NormalToken, value + [q], tail[1..])
         else Lexed(LexError, value + [q], tail[2..]);
    assert s == [q] + (SpellInner(body) + tail);
    assert ClosesAt(q, value, tail, l);
  }

  lemma CommentExists(s: string) returns (l: Lexed)
    ensures CommentTo(s, ToLineEnd(s), l)
  {
    var k := ToLineEnd(s);
    l := if k < |s| then Lexed(Comment, s[..k], s[k + 1..]) else Lexed(EndOfFile, s, "");
  }

  lemma WordExists(s: string) returns (l: Lexed)
    ensures WordTo(s, NonStops(s), l)
  {
    var k := NonStops(s);
    l := if k < |s| then Lexed(NormalToken, s[..k], s[k..]) else Lexed(EndOfFile, s, "");
  }

  lemma TokenExists(s: string) returns (l: Lexed)
    requires s == "" || !IsGap(s[0])
    ensures TokenAt(s, l)
  {
    if s == "" {
      l := Lexed(EndOfFile, "", "");
    } else if s[0] == ';' {
      l := Lexed(StatementEnd, ";", s[1..]);
    } else if s[0] == '{' {
      l := Lexed(StartBlock, "{", s[1..]);
    } else if s[0] == '}' {
      l := Lexed(EndBlock, "}", s[1..]);
    } else if s[0] == '#' {
      l := CommentExists(s);
    } else if IsQuote(s[0]) {
      l := QuotedExists(s);
    } else {
      l := WordExists(s);
    }
  }

  /** On every text the lexer returns the kind, the value and the unread rest that the rules give, and no other. */
  lemma LexicalRules(input: string, l: Lexed)
    ensures l == NextToken(input) <==> FirstToken(input, l)
  {
    var k := LeadingGaps(input);
    var gaps, rest := input[..k], input[k..];
    assert input == gaps + rest;
    var found := TokenExists(rest);
    SkipGaps(gaps, rest);
    TokenIsNext(rest, found);
    assert FirstToken(input, found);
    if FirstToken(input, l) {
      var g, r :| AllGaps(g) && input == g + r && TokenAt(r, l);
      SkipGaps(g, r);
      TokenIsNext(r, l);
    }
  }
}
