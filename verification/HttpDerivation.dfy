/** Every accepted text has a derivation, and what follows for folding and normal forms. */
module HttpDerivation {
  import opened Wrappers
  import opened Text
  import opened HttpParser
  import opened HttpGrammar
  import opened HttpLanguage

  function SpanLength(q: State, s: string): (k: nat)
    ensures k <= |s| && forall i :: 0 <= i < k ==> Stays(q, s[i])
    ensures k < |s| ==> !Stays(q, s[k])
  {
    if s == "" || !Stays(q, s[0]) then 0 else 1 + SpanLength(q, s[1..])
  }

  /** The next character of an accepted text moves the parser on. */
  lemma ReadChar(q: State, f: Fields, s: string) returns (n: Next, rest: string)
    requires Ready(q, f) && Accept(q, f, s).Some? && q != ExpectingNewline3
    ensures s != "" && n == Step(q, f, s[0]) && n.outcome == Indeterminate
    ensures rest == s[1..] && s == [s[0]] + rest && Accept(n.state, n.fields, rest).Some?
  {
    n, rest := Step(q, f, s[0]), s[1..];
  }

  /** The stretch over which a looping state stays where it is. */
  lemma ReadLoop(q: State, f: Fields, s: string) returns (w: string, rest: string, g: Fields)
    requires Ready(q, f) && Accept(q, f, s).Some?
    ensures s == w + rest && rest != "" && !Stays(q, rest[0])
    ensures forall i :: 0 <= i < |w| ==> Stays(q, w[i])
    ensures Ready(q, g) && Accept(q, g, rest).Some?
    ensures |g.headers| == |f.headers|
  {
    var k := SpanLength(q, s);
    w, rest, g := s[..k], s[k..], Push(q, f, s[..k]);
    assert s == w + rest;
    AcceptLoop(q, f, w, rest);
  }

  lemma ReadCrlf(q: State, f: Fields, s: string) returns (rest: string)
    requires q in {VersionMinor, HeaderLws, HeaderValue} && Ready(q, f) && Accept(q, f, s).Some? && s[0] == '\r'
    ensures s == CRLF + rest && Accept(HeaderLineStart, f, rest).Some?
  {
    var n, tail := ReadChar(q, f, s);
    var m, end := ReadChar(n.state, n.fields, tail);
    rest := end;
    assert s == ['\r'] + (['\n'] + rest);
  }

  lemma NameEnds(f: Fields, c: char)
    requires f.headers != [] && !TokenChar(c) && Step(HeaderName, f, c).outcome == Indeterminate
    ensures c == ':' && Step(HeaderName, f, c) == Go(SpaceBeforeHeaderValue, f)
  {
    ClassesAgree(c);
  }

  lemma VerbEnds(f: Fields, c: char)
    requires !TokenChar(c) && Step(Method, f, c).outcome == Indeterminate
    ensures c == ' ' && Step(Method, f, c) == Go(Uri, f)
  {
    ClassesAgree(c);
  }

  lemma ReadColon(f: Fields, s: string) returns (rest: string, g: Fields)
    requires f.headers != [] && Accept(HeaderName, f, s).Some? && !TokenChar(s[0])
    ensures s == ": " + rest && g.headers != [] && Accept(HeaderValue, g, rest).Some?
  {
    var n1, s1 := ReadChar(HeaderName, f, s);
    NameEnds(f, s[0]);
    var n2, s2 := ReadChar(n1.state, n1.fields, s1);
    rest, g := s2, n2.fields;
    assert s == [':'] + ([' '] + rest);
  }

  lemma NameStarts(f: Fields, c: char)
    requires Step(HeaderLineStart, f, c).outcome == Indeterminate
    requires c != '\r' && (f.headers == [] || !IsBlank(c))
    ensures TokenChar(c)
    ensures var n := Step(HeaderLineStart, f, c); n.state == HeaderName && n.fields.headers != []
  {
    ClassesAgree(c);
  }

  lemma ReadNameStart(f: Fields, s: string) returns (c: char, rest: string, g: Fields)
    requires Accept(HeaderLineStart, f, s).Some? && s[0] != '\r' && (f.headers == [] || !IsBlank(s[0]))
    ensures s == [c] + rest && TokenChar(c) && g.headers != [] && Accept(HeaderName, g, rest).Some?
  {
    var n, tail := ReadChar(HeaderLineStart, f, s);
    NameStarts(f, s[0]);
    c, rest, g := s[0], tail, n.fields;
  }

  lemma ReadName(f: Fields, s: string) returns (name: string, rest: string, g: Fields)
    requires Accept(HeaderLineStart, f, s).Some? && s[0] != '\r' && (f.headers == [] || !IsBlank(s[0]))
    ensures s == name + (": " + rest) && IsToken(name)
    ensures g.headers != [] && Accept(HeaderValue, g, rest).Some?
  {
    var c, s1, f1 := ReadNameStart(f, s);
    var w, s2, f2 := ReadLoop(HeaderName, f1, s1);
    rest, g := ReadColon(f2, s2);
    name := [c] + w;
    TokenFrom(HeaderName, c, w);
    Assoc([c], w, ": " + rest);
  }

  lemma TokenFrom(q: State, c: char, w: string)
    requires q in {Method, HeaderName} && TokenChar(c) && forall i :: 0 <= i < |w| ==> Stays(q, w[i])
    ensures IsToken([c] + w)
  {
  }

  lemma ReadHeaderLine(f: Fields, s: string) returns (name: string, value: string, rest: string, g: Fields)
    requires Accept(HeaderLineStart, f, s).Some? && s[0] != '\r' && (f.headers == [] || !IsBlank(s[0]))
    ensures s == name + (": " + (value + (CRLF + rest))) && IsToken(name) && IsValue(value)
    ensures g.headers != [] && Accept(HeaderLineStart, g, rest).Some?
  {
    var tail, f1;
    name, tail, f1 := ReadName(f, s);
    value, rest, g := ReadValue(f1, tail);
  }

  lemma ReadBlanks(f: Fields, s: string) returns (blanks: string, rest: string, g: Fields)
    requires Accept(HeaderLineStart, f, s).Some? && f.headers != [] && IsBlank(s[0])
    ensures s == blanks + rest && IsBlanks(blanks) && rest != "" && !IsBlank(rest[0])
    ensures g.headers != [] && Accept(HeaderLws, g, rest).Some?
  {
    var n, s1 := ReadChar(HeaderLineStart, f, s);
    var w;
    w, rest, g := ReadLoop(HeaderLws, n.fields, s1);
    blanks := [s[0]] + w;
    assert s == blanks + rest;
  }

  lemma ReadFoldText(f: Fields, s: string) returns (text: string, rest: string, g: Fields)
    requires f.headers != [] && Accept(HeaderLws, f, s).Some? && !IsBlank(s[0])
    ensures s == text + (CRLF + rest) && IsValue(text) && (text != "" ==> text[0] != ' ')
    ensures g.headers != [] && Accept(HeaderLineStart, g, rest).Some?
  {
    if s[0] == '\r' {
      text, g := "", f;
      rest := ReadCrlf(HeaderLws, f, s);
      assert s == text + s;
    } else {
      var n, s1 := ReadChar(HeaderLws, f, s);
      var w;
      w, rest, g := ReadValue(n.fields, s1);
      text := [s[0]] + w;
      Assoc([s[0]], w, CRLF + rest);
    }
  }

  /** The rest of a value and its line end. */
  lemma ReadValue(f: Fields, s: string) returns (value: string, rest: string, g: Fields)
    requires f.headers != [] && Accept(HeaderValue, f, s).Some?
    ensures s == value + (CRLF + rest) && IsValue(value)
    ensures g.headers != [] && Accept(HeaderLineStart, g, rest).Some?
  {
    var end;
    value, end, g := ReadLoop(HeaderValue, f, s);
    var n, _ := ReadChar(HeaderValue, g, end);
    rest := ReadCrlf(HeaderValue, g, end);
  }

  /** Whatever follows a header: its continuation lines, then the other headers and the blank line. */
  lemma {:induction false} ReadTail(f: Fields, s: string) returns (folds: seq<Fold>, hs: seq<HeaderText>)
    requires f.headers != [] && Accept(HeaderLineStart, f, s).Some?
    ensures ValidFolds(folds) && ValidHeaders(hs) && s == RenderFolds(folds) + (RenderHeaders(hs) + CRLF)
    decreases |s|
  {
    if s[0] == '\r' {
      folds, hs := [], [];
      ReadEnd(f, s);
      assert s == "" + ("" + CRLF);
    } else if IsBlank(s[0]) {
      var blanks, s1, f1 := ReadBlanks(f, s);
      var text, rest, g := ReadFoldText(f1, s1);
      var more;
      more, hs := ReadTail(g, rest);
      folds := [Fold(blanks, text)] + more;
      FoldsCons(Fold(blanks, text), more, RenderHeaders(hs) + CRLF);
    } else {
      var h;
      h, hs := ReadHeader(f, s);
      folds, hs := [], [h] + hs;
      assert s == "" + s;
    }
  }

  lemma {:induction false} ReadHeader(f: Fields, s: string) returns (h: HeaderText, hs: seq<HeaderText>)
    requires Accept(HeaderLineStart, f, s).Some? && s[0] != '\r' && (f.headers == [] || !IsBlank(s[0]))
    ensures ValidHeader(h) && ValidHeaders(hs) && s == RenderHeaders([h] + hs) + CRLF
    decreases |s|, 0
  {
    var name, value, rest, g := ReadHeaderLine(f, s);
    var folds;
    folds, hs := ReadTail(g, rest);
    h := HeaderText(name, value, folds);
    HeadersText([h] + hs, CRLF);
    assert ([h] + hs)[1..] == hs;
  }

  lemma ReadEnd(f: Fields, s: string)
    requires Accept(HeaderLineStart, f, s).Some? && s[0] == '\r'
    ensures s == CRLF
  {
    var n, rest := ReadChar(HeaderLineStart, f, s);
    assert rest == ['\n'];
  }

  lemma FoldsCons(d: Fold, ds: seq<Fold>, rest: string)
    ensures RenderFolds([d] + ds) + rest == d.blanks + (d.text + (CRLF + (RenderFolds(ds) + rest)))
  {
    assert ([d] + ds)[1..] == ds;
  }

  lemma ReadVerb(f: Fields, s: string) returns (verb: string, rest: string, g: Fields)
    requires Accept(MethodStart, f, s).Some?
    ensures s == verb + (" " + rest) && IsToken(verb)
    ensures |g.headers| == |f.headers| && Accept(Uri, g, rest).Some?
  {
    var n, s1 := ReadChar(MethodStart, f, s);
    var w, s2, f2 := ReadLoop(Method, n.fields, s1);
    var m, s3 := ReadChar(Method, f2, s2);
    VerbEnds(f2, s2[0]);
    TokenFrom(Method, s[0], w);
    verb, rest, g := [s[0]] + w, s3, m.fields;
    assert s == [s[0]] + (w + ([' '] + rest));
  }

  lemma ReadUri(f: Fields, s: string) returns (uri: string, rest: string, g: Fields)
    requires Accept(Uri, f, s).Some?
    ensures s == uri + (" " + rest) && IsUri(uri)
    ensures |g.headers| == |f.headers| && Accept(VersionH, g, rest).Some?
  {
    var s1, f1;
    uri, s1, f1 := ReadLoop(Uri, f, s);
    var n, s2 := ReadChar(Uri, f1, s1);
    rest, g := s2, n.fields;
  }

  lemma ReadLiteral(f: Fields, s: string) returns (rest: string, g: Fields)
    requires Accept(VersionH, f, s).Some?
    ensures s == "HTTP/" + rest && |g.headers| == |f.headers| && Accept(VersionMajorStart, g, rest).Some?
  {
    var n1, s1 := ReadChar(VersionH, f, s);
    var n2, s2 := ReadChar(VersionT1, f, s1);
    var n3, s3 := ReadChar(VersionT2, f, s2);
    var n4, s4 := ReadChar(VersionP, f, s3);
    var n5, s5 := ReadChar(VersionSlash, f, s4);
    rest, g := s5, n5.fields;
    assert s == ['H'] + (['T'] + (['T'] + (['P'] + (['/'] + rest))));
  }

  lemma ReadNumber(q: State, f: Fields, s: string) returns (digits: string, rest: string, g: Fields)
    requires q in {VersionMajorStart, VersionMinorStart} && Accept(q, f, s).Some?
    ensures s == digits + rest && IsVersion(digits) && rest != "" && !IsDigit(rest[0])
    ensures |g.headers| == |f.headers|
    ensures Accept(if q == VersionMajorStart then VersionMajor else VersionMinor, g, rest).Some?
  {
    var n, s1 := ReadChar(q, f, s);
    var w;
    w, rest, g := ReadLoop(n.state, n.fields, s1);
    digits := [s[0]] + w;
    assert s == digits + rest;
  }

  lemma ReadVersion(f: Fields, s: string) returns (major: string, minor: string, rest: string, g: Fields)
    requires Accept(VersionMajorStart, f, s).Some?
    ensures s == major + ("." + (minor + (CRLF + rest))) && IsVersion(major) && IsVersion(minor)
    ensures |g.headers| == |f.headers| && Accept(HeaderLineStart, g, rest).Some?
  {
    var s1, f1, s3;
    major, s1, f1 := ReadNumber(VersionMajorStart, f, s);
    var n, s2 := ReadChar(VersionMajor, f1, s1);
    minor, s3, g := ReadNumber(VersionMinorStart, n.fields, s2);
    var m, _ := ReadChar(VersionMinor, g, s3);
    rest := ReadCrlf(VersionMinor, g, s3);
  }

  lemma ReadHeaders(f: Fields, s: string) returns (hs: seq<HeaderText>)
    requires f.headers == [] && Accept(HeaderLineStart, f, s).Some?
    ensures ValidHeaders(hs) && s == RenderHeaders(hs) + CRLF
  {
    if s[0] == '\r' {
      ReadEnd(f, s);
      hs := [];
      assert s == "" + CRLF;
    } else {
      var h, more := ReadHeader(f, s);
      hs := [h] + more;
    }
  }

  /** A derivation of an accepted text. */
  lemma Derive(s: string) returns (t: RequestText)
    requires AcceptRequest(s).Some?
    ensures ValidRequest(t) && Render(t) == s
  {
    var verb, s1, f1 := ReadVerb(BLANK, s);
    var uri, s2, f2 := ReadUri(f1, s1);
    var s3, f3 := ReadLiteral(f2, s2);
    var major, minor, s4, f4 := ReadVersion(f3, s3);
    var hs := ReadHeaders(f4, s4);
    t := RequestText(verb, uri, major, minor, hs);
    assert " " + ("HTTP/" + s3) == " HTTP/" + s3;
  }

  /** From the start state the parser accepts a text, using all of it, exactly when the text is a request
      line, headers with their continuation lines, and a blank line. */
  lemma AcceptanceIsDerivability(s: string)
    ensures
      var p := Run(MethodStart, BLANK, s);
      p.outcome == Good && p.consumed == |s| <==> exists t :: ValidRequest(t) && Render(t) == s
  {
    AcceptIsRun(MethodStart, BLANK, s);
    if AcceptRequest(s).Some? {
      var t := Derive(s);
      assert ValidRequest(t) && Render(t) == s;
    }
    if exists t :: ValidRequest(t) && Render(t) == s {
      var t :| ValidRequest(t) && Render(t) == s;
      AcceptsGrammar(t);
    }
  }

  // ----- folding

  function Unfold(hs: seq<HeaderText>): seq<HeaderText> {
    if hs == [] then [] else [HeaderText(hs[0].name, hs[0].first + Joined(hs[0].folds), [])] + Unfold(hs[1..])
  }

  lemma {:induction false} JoinedIsValue(ds: seq<Fold>)
    requires ValidFolds(ds)
    ensures IsValue(Joined(ds))
  {
    if ds != [] {
      JoinedIsValue(ds[1..]);
    }
  }

  lemma {:induction false} UnfoldKeeps(hs: seq<HeaderText>)
    requires ValidHeaders(hs)
    ensures ValidHeaders(Unfold(hs)) && HeadersOf(Unfold(hs)) == HeadersOf(hs)
  {
    if hs != [] {
      var v := hs[0].first + Joined(hs[0].folds);
      JoinedIsValue(hs[0].folds);
      UnfoldKeeps(hs[1..]);
      assert Unfold(hs)[1..] == Unfold(hs[1..]);
      assert v + Joined([]) == v;
    }
  }

  /** A request with folded headers parses to the same fields as the same request unfolded. */
  lemma FoldingInvariance(t: RequestText)
    requires ValidRequest(t)
    ensures
      var flat := t.(headers := Unfold(t.headers));
      ValidRequest(flat) && AcceptRequest(Render(t)).Some? && AcceptRequest(Render(flat)) == AcceptRequest(Render(t))
  {
    UnfoldKeeps(t.headers);
    AcceptsGrammar(t);
    AcceptsGrammar(t.(headers := Unfold(t.headers)));
  }

  lemma {:induction false} RenderHeadersAppend(a: seq<HeaderText>, b: seq<HeaderText>)
    ensures RenderHeaders(a + b) == RenderHeaders(a) + RenderHeaders(b)
    decreases |a|
  {
    if a == [] {
      assert a + b == b;
      assert "" + RenderHeaders(b) == RenderHeaders(b);
    } else {
      RenderHeadersAppend(a[1..], b);
      assert (a + b)[0] == a[0] && (a + b)[1..] == a[1..] + b;
      HeadersText(a, RenderHeaders(b));
    }
  }

  lemma {:induction false} HeadersOfAppend(a: seq<HeaderText>, b: seq<HeaderText>)
    ensures HeadersOf(a + b) == HeadersOf(a) + HeadersOf(b)
    decreases |a|
  {
    if a == [] {
      assert a + b == b;
    } else {
      HeadersOfAppend(a[1..], b);
      assert (a + b)[1..] == a[1..] + b;
    }
  }

  /** Header h of a request, its value folded before position k. */
  function FoldAt(name: string, value: string, k: nat, blanks: string): HeaderText
    requires k <= |value|
  {
    HeaderText(name, value[..k], [Fold(blanks, value[k..])])
  }

  function LeadingSpaces(s: string): (n: nat)
    ensures n <= |s| && (forall i :: 0 <= i < n ==> s[i] == ' ') && (n < |s| ==> s[n] != ' ')
  {
    if s == "" || s[0] != ' ' then 0 else 1 + LeadingSpaces(s[1..])
  }

  lemma SpacesFold(blanks: string, spaces: string, text: string)
    ensures RenderFolds([Fold(blanks + spaces, text)]) == RenderFolds([Fold(blanks, spaces + text)])
  {
    var c, d := Fold(blanks + spaces, text), Fold(blanks, spaces + text);
    assert [c][1..] == [] && [d][1..] == [];
    assert blanks + spaces + (text + (CRLF + "")) == blanks + (spaces + text + (CRLF + ""));
  }

  lemma RenderOne(h: HeaderText)
    ensures RenderHeaders([h]) == h.name + (": " + (h.first + (CRLF + RenderFolds(h.folds))))
  {
    assert [h][1..] == [];
    assert RenderFolds(h.folds) + "" == RenderFolds(h.folds);
  }

  /** Spaces that open a continuation line belong to its blanks. */
  lemma SpacesJoinBlanks(name: string, value: string, k: nat, blanks: string)
    requires IsToken(name) && IsValue(value) && k <= |value| && IsBlanks(blanks)
    ensures
      var n := LeadingSpaces(value[k..]);
      var h := HeaderText(name, value[..k], [Fold(blanks + value[k..][..n], value[k..][n..])]);
      ValidHeader(h) && RenderHeaders([h]) == RenderHeaders([FoldAt(name, value, k, blanks)])
  {
    var tail := value[k..];
    var n := LeadingSpaces(tail);
    SpacesFold(blanks, tail[..n], tail[n..]);
    assert tail == tail[..n] + tail[n..];
    RenderOne(HeaderText(name, value[..k], [Fold(blanks + tail[..n], tail[n..])]));
    RenderOne(FoldAt(name, value, k, blanks));
  }

  /** Folding any one header value before position k keeps the parsed fields exactly when the rest of the
      value does not start with a space. */
  lemma FoldPoint(t: RequestText, before: seq<HeaderText>, name: string, value: string, after: seq<HeaderText>,
                  k: nat, blanks: string)
    requires ValidRequest(t) && k <= |value| && IsBlanks(blanks)
    requires t.headers == before + ([HeaderText(name, value, [])] + after)
    ensures
      var folded := t.(headers := before + ([FoldAt(name, value, k, blanks)] + after));
      AcceptRequest(Render(folded)) == AcceptRequest(Render(t)) <==> k == |value| || value[k] != ' '
  {
    var flat, raw := HeaderText(name, value, []), FoldAt(name, value, k, blanks);
    assert t.headers[|before|] == flat;
    var n, tail := LeadingSpaces(value[k..]), value[k..];
    var h := HeaderText(name, value[..k], [Fold(blanks + tail[..n], tail[n..])]);
    SpacesJoinBlanks(name, value, k, blanks);
    var trimmed := t.(headers := before + ([h] + after));
    RenderHeadersAppend(before, [h] + after);
    RenderHeadersAppend(before, [raw] + after);
    RenderHeadersAppend([h], after);
    RenderHeadersAppend([raw], after);
    assert Render(trimmed) == Render(t.(headers := before + ([raw] + after)));
    AcceptsGrammar(t);
    ReplaceValid(t, before, flat, h, after);
    AcceptsGrammar(trimmed);
    FoldedValue(name, value, k, blanks);
    HeadersOfAppend(before, [flat] + after);
    HeadersOfAppend(before, [h] + after);
    HeadersOfAppend([flat], after);
    HeadersOfAppend([h], after);
    assert FieldsOf(t).headers == HeadersOf(before) + (HeadersOf([flat]) + HeadersOf(after));
    assert FieldsOf(trimmed).headers == HeadersOf(before) + (HeadersOf([h]) + HeadersOf(after));
    if n > 0 {
      assert FieldsOf(t).headers[|HeadersOf(before)|] == HeadersOf([flat])[0];
      assert FieldsOf(trimmed).headers[|HeadersOf(before)|] == HeadersOf([h])[0];
    }
  }

  lemma ReplaceValid(t: RequestText, before: seq<HeaderText>, flat: HeaderText, h: HeaderText, after: seq<HeaderText>)
    requires ValidRequest(t) && t.headers == before + ([flat] + after) && ValidHeader(h)
    ensures ValidRequest(t.(headers := before + ([h] + after)))
  {
    var hs := before + ([h] + after);
    forall i | 0 <= i < |hs| ensures ValidHeader(hs[i]) {
      assert i != |before| ==> hs[i] == t.headers[i];
    }
  }

  lemma FoldedValue(name: string, value: string, k: nat, blanks: string)
    requires k <= |value|
    ensures
      var n := LeadingSpaces(value[k..]);
      var h := HeaderText(name, value[..k], [Fold(blanks + value[k..][..n], value[k..][n..])]);
      |HeadersOf([h])| == 1 && HeadersOf([h])[0].name == name &&
      HeadersOf([HeaderText(name, value, [])]) == [Header(name, value)] &&
      (HeadersOf([h])[0].value == value <==> n == 0)
  {
    var tail := value[k..];
    var n := LeadingSpaces(tail);
    var ds := [Fold(blanks + tail[..n], tail[n..])];
    assert Joined(ds) == tail[n..] + Joined(ds[1..]) && Joined(ds[1..]) == "";
    assert Joined(ds) == tail[n..];
    assert value[..k] + tail == value;
    assert value + Joined([]) == value;
    assert HeadersOf([]) == [];
    if n == 0 {
      assert tail[n..] == tail;
    } else {
      assert |value[..k] + tail[n..]| < |value|;
    }
  }

  // ----- normal form

  function Canonical(hs: seq<Header>): seq<HeaderText> {
    if hs == [] then [] else [HeaderText(hs[0].name, hs[0].value, [])] + Canonical(hs[1..])
  }

  /** The fields written out again: plain numerals, one line per header. */
  function Rerender(f: Fields): string
    requires f.major >= 0 && f.minor >= 0
  {
    Render(RequestText(f.verb, f.uri, Digits(f.major), Digits(f.minor), Canonical(f.headers)))
  }

  lemma {:induction false} CanonicalOf(hs: seq<HeaderText>)
    ensures Canonical(HeadersOf(hs)) == Unfold(hs)
  {
    if hs != [] {
      assert HeadersOf(hs)[1..] == HeadersOf(hs[1..]);
      CanonicalOf(hs[1..]);
    }
  }

  /** Re-rendering the fields of an accepted text gives a text that is accepted with the same fields. */
  lemma Normalise(s: string)
    requires AcceptRequest(s).Some?
    ensures
      var f := AcceptRequest(s).value;
      f.major >= 0 && f.minor >= 0 && AcceptRequest(Rerender(f)) == Some(f)
  {
    var t := Derive(s);
    AcceptsGrammar(t);
    var f := FieldsOf(t);
    UnfoldKeeps(t.headers);
    CanonicalOf(t.headers);
    var c := RequestText(f.verb, f.uri, Digits(f.major), Digits(f.minor), Canonical(f.headers));
    ValueOfDigits(f.major);
    ValueOfDigits(f.minor);
    AcceptsGrammar(c);
  }
}
