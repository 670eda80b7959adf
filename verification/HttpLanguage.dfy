/** The parser accepts exactly the grammar; folding and re-rendering keep the fields. */
module HttpLanguage {
  import opened Wrappers
  import opened Text
  import opened HttpParser
  import opened HttpGrammar

  // ----- everything the grammar derives is accepted, with the fields of the derivation

  lemma AcceptCrlf(q: State, f: Fields, rest: string)
    requires q in {VersionMinor, HeaderLws, HeaderValue} && Ready(q, f)
    ensures Accept(q, f, CRLF + rest) == Accept(HeaderLineStart, f, rest)
  {
    assert CRLF + rest == ['\r'] + (['\n'] + rest);
    AcceptStep(q, f, '\r', ['\n'] + rest);
    AcceptStep(Step(q, f, '\r').state, f, '\n', rest);
  }

  lemma AcceptEnd(f: Fields)
    ensures Accept(HeaderLineStart, f, CRLF) == Some(f)
  {
    assert CRLF == ['\r'] + ['\n'];
    AcceptStep(HeaderLineStart, f, '\r', ['\n']);
  }

  /** A first character that enters a looping state, and the characters that keep it there. */
  lemma AcceptWord(q: State, f: Fields, w: string, rest: string)
    requires Ready(q, f) && w != "" && Step(q, f, w[0]).outcome == Indeterminate
    requires forall i :: 1 <= i < |w| ==> Stays(Step(q, f, w[0]).state, w[i])
    ensures
      var n := Step(q, f, w[0]);
      Accept(q, f, w + rest) == Accept(n.state, Push(n.state, n.fields, w[1..]), rest)
  {
    var n := Step(q, f, w[0]);
    assert w + rest == [w[0]] + (w[1..] + rest);
    AcceptStep(q, f, w[0], w[1..] + rest);
    StaysOnTail(n.state, w);
    AcceptLoop(n.state, n.fields, w[1..], rest);
  }

  lemma StaysOnTail(q: State, w: string)
    requires w != "" && forall i :: 1 <= i < |w| ==> Stays(q, w[i])
    ensures forall i :: 0 <= i < |w[1..]| ==> Stays(q, w[1..][i])
  {
  }

  lemma AcceptFoldText(f: Fields, w: string, rest: string)
    requires f.headers != [] && IsValue(w) && (w != "" ==> w[0] != ' ')
    ensures Accept(HeaderLws, f, w + (CRLF + rest)) == Accept(HeaderLineStart, AddValue(f, w), rest)
  {
    if w == "" {
      assert w + (CRLF + rest) == CRLF + rest;
      AcceptCrlf(HeaderLws, f, rest);
      PushEmpty(HeaderValue, f);
    } else {
      assert !IsCtl(w[0]);
      AcceptWord(HeaderLws, f, w, CRLF + rest);
      PushTwice(HeaderValue, f, w[0], w[1..]);
      assert [w[0]] + w[1..] == w;
      AcceptCrlf(HeaderValue, AddValue(f, w), rest);
    }
  }

  /** One continuation line appends its text to the last header. */
  lemma AcceptFold(f: Fields, d: Fold, rest: string)
    requires f.headers != [] && ValidFold(d)
    ensures Accept(HeaderLineStart, f, d.blanks + (d.text + (CRLF + rest))) ==
            Accept(HeaderLineStart, AddValue(f, d.text), rest)
  {
    AcceptWord(HeaderLineStart, f, d.blanks, d.text + (CRLF + rest));
    AcceptFoldText(f, d.text, rest);
  }

  lemma AddValueTwice(f: Fields, a: string, b: string)
    requires f.headers != []
    ensures AddValue(AddValue(f, a), b) == AddValue(f, a + b)
  {
    assert Last(f).value + a + b == Last(f).value + (a + b);
    assert AddValue(f, a).headers[..|f.headers| - 1] == f.headers[..|f.headers| - 1];
  }

  lemma {:induction false} AcceptFolds(f: Fields, ds: seq<Fold>, rest: string)
    requires f.headers != [] && ValidFolds(ds)
    ensures Accept(HeaderLineStart, f, RenderFolds(ds) + rest) ==
            Accept(HeaderLineStart, AddValue(f, Joined(ds)), rest)
    decreases |ds|
  {
    if ds == [] {
      PushEmpty(HeaderValue, f);
      assert RenderFolds(ds) + rest == rest;
    } else {
      var d, tail := ds[0], RenderFolds(ds[1..]) + rest;
      assert RenderFolds(ds) + rest == d.blanks + (d.text + (CRLF + tail));
      AcceptFold(f, d, tail);
      AcceptFolds(AddValue(f, d.text), ds[1..], rest);
      AddValueTwice(f, d.text, Joined(ds[1..]));
    }
  }

  function WithHeader(f: Fields, name: string, value: string): (r: Fields)
    ensures r.headers != []
  {
    f.(headers := f.headers + [Header(name, value)])
  }

  lemma AddToHeader(f: Fields, name: string, value: string, w: string)
    ensures AddName(WithHeader(f, name, value), w) == WithHeader(f, name + w, value)
    ensures AddValue(WithHeader(f, name, value), w) == WithHeader(f, name, value + w)
  {
    assert (f.headers + [Header(name, value)])[..|f.headers|] == f.headers;
  }

  lemma NameWord(f: Fields, name: string)
    requires IsToken(name)
    ensures
      var n := Step(HeaderLineStart, f, name[0]);
      n.outcome == Indeterminate && n.state == HeaderName &&
      Push(n.state, n.fields, name[1..]) == WithHeader(f, name, "")
  {
    assert Step(HeaderLineStart, f, name[0]).fields == WithHeader(f, [name[0]], "");
    AddToHeader(f, [name[0]], "", name[1..]);
    assert [name[0]] + name[1..] == name;
  }

  lemma AcceptColon(f: Fields, rest: string)
    requires f.headers != []
    ensures Accept(HeaderName, f, ": " + rest) == Accept(HeaderValue, f, rest)
  {
    assert ": " + rest == [':'] + ([' '] + rest);
    AcceptStep(HeaderName, f, ':', [' '] + rest);
    AcceptStep(SpaceBeforeHeaderValue, f, ' ', rest);
  }

  lemma AcceptName(f: Fields, name: string, rest: string)
    requires IsToken(name)
    ensures Accept(HeaderLineStart, f, name + (": " + rest)) == Accept(HeaderValue, WithHeader(f, name, ""), rest)
  {
    NameWord(f, name);
    AcceptWord(HeaderLineStart, f, name, ": " + rest);
    AcceptColon(WithHeader(f, name, ""), rest);
  }

  /** A header line starts a new header. */
  lemma AcceptHeaderLine(f: Fields, name: string, value: string, rest: string)
    requires IsToken(name) && IsValue(value)
    ensures Accept(HeaderLineStart, f, name + (": " + (value + (CRLF + rest)))) ==
            Accept(HeaderLineStart, WithHeader(f, name, value), rest)
  {
    AcceptName(f, name, value + (CRLF + rest));
    AcceptLoop(HeaderValue, WithHeader(f, name, ""), value, CRLF + rest);
    AddToHeader(f, name, "", value);
    assert "" + value == value;
    AcceptCrlf(HeaderValue, WithHeader(f, name, value), rest);
  }

  /** A header line with its continuation lines. */
  lemma AcceptHeader(f: Fields, h: HeaderText, rest: string)
    requires ValidHeader(h)
    ensures Accept(HeaderLineStart, f, h.name + (": " + (h.first + (CRLF + (RenderFolds(h.folds) + rest))))) ==
            Accept(HeaderLineStart, WithHeader(f, h.name, h.first + Joined(h.folds)), rest)
  {
    AcceptHeaderLine(f, h.name, h.first, RenderFolds(h.folds) + rest);
    AcceptFolds(WithHeader(f, h.name, h.first), h.folds, rest);
    AddToHeader(f, h.name, h.first, Joined(h.folds));
  }

  lemma HeadersText(hs: seq<HeaderText>, rest: string)
    requires hs != []
    ensures
      var h, tail := hs[0], RenderHeaders(hs[1..]) + rest;
      RenderHeaders(hs) + rest == h.name + (": " + (h.first + (CRLF + (RenderFolds(h.folds) + tail))))
  {
  }

  function WithHeaders(f: Fields, hs: seq<HeaderText>): Fields
    decreases |hs|
  {
    if hs == [] then f
    else WithHeaders(WithHeader(f, hs[0].name, hs[0].first + Joined(hs[0].folds)), hs[1..])
  }

  lemma {:induction false} WithHeadersIs(f: Fields, hs: seq<HeaderText>)
    ensures WithHeaders(f, hs) == f.(headers := f.headers + HeadersOf(hs))
    decreases |hs|
  {
    if hs == [] {
      assert f.headers + [] == f.headers;
    } else {
      var h := hs[0];
      var next := WithHeader(f, h.name, h.first + Joined(h.folds));
      WithHeadersIs(next, hs[1..]);
      assert next.headers + HeadersOf(hs[1..]) == f.headers + HeadersOf(hs);
    }
  }

  lemma {:induction false} AcceptHeaders(f: Fields, hs: seq<HeaderText>)
    requires ValidHeaders(hs)
    ensures Accept(HeaderLineStart, f, RenderHeaders(hs) + CRLF) == Some(WithHeaders(f, hs))
    decreases |hs|
  {
    if hs == [] {
      assert RenderHeaders(hs) + CRLF == CRLF;
      AcceptEnd(f);
    } else {
      HeadersText(hs, CRLF);
      AcceptHeader(f, hs[0], RenderHeaders(hs[1..]) + CRLF);
      AcceptHeaders(WithHeader(f, hs[0].name, hs[0].first + Joined(hs[0].folds)), hs[1..]);
    }
  }

  lemma VerbWord(f: Fields, verb: string)
    requires IsToken(verb)
    ensures
      var n := Step(MethodStart, f, verb[0]);
      n.outcome == Indeterminate && n.state == Method &&
      Push(n.state, n.fields, verb[1..]) == f.(verb := f.verb + verb)
  {
    assert f.verb + [verb[0]] + verb[1..] == f.verb + verb;
  }

  lemma AcceptVerb(f: Fields, verb: string, rest: string)
    requires IsToken(verb)
    ensures Accept(MethodStart, f, verb + (" " + rest)) == Accept(Method, f.(verb := f.verb + verb), " " + rest)
  {
    VerbWord(f, verb);
    AcceptWord(MethodStart, f, verb, " " + rest);
  }

  lemma AcceptRequestLine(f: Fields, verb: string, uri: string, rest: string)
    requires IsToken(verb) && IsUri(uri)
    ensures Accept(MethodStart, f, verb + (" " + (uri + (" HTTP/" + rest)))) ==
            Accept(VersionMajorStart, f.(verb := f.verb + verb, uri := f.uri + uri, major := 0, minor := 0), rest)
  {
    var f1 := f.(verb := f.verb + verb);
    AcceptVerb(f, verb, uri + (" HTTP/" + rest));
    AcceptStep(Method, f1, ' ', uri + (" HTTP/" + rest));
    AcceptLoop(Uri, f1, uri, " HTTP/" + rest);
    AcceptLiteral(f1.(uri := f.uri + uri), rest);
  }

  lemma AcceptLiteral(f: Fields, rest: string)
    ensures Accept(Uri, f, " HTTP/" + rest) == Accept(VersionMajorStart, f.(major := 0, minor := 0), rest)
  {
    assert " HTTP/" + rest == [' '] + (['H'] + (['T'] + (['T'] + (['P'] + (['/'] + rest)))));
    AcceptStep(Uri, f, ' ', ['H'] + (['T'] + (['T'] + (['P'] + (['/'] + rest)))));
    AcceptStep(VersionH, f, 'H', ['T'] + (['T'] + (['P'] + (['/'] + rest))));
    AcceptStep(VersionT1, f, 'T', ['T'] + (['P'] + (['/'] + rest)));
    AcceptStep(VersionT2, f, 'T', ['P'] + (['/'] + rest));
    AcceptStep(VersionP, f, 'P', ['/'] + rest);
    AcceptStep(VersionSlash, f, '/', rest);
  }

  lemma AcceptNumber(q: State, f: Fields, digits: string, rest: string)
    requires q in {VersionMajorStart, VersionMinorStart} && IsVersion(digits)
    requires q == VersionMajorStart ==> f.major == 0
    requires q == VersionMinorStart ==> f.minor == 0
    ensures Accept(q, f, digits + rest) ==
            if q == VersionMajorStart then Accept(VersionMajor, f.(major := Value(digits)), rest)
            else Accept(VersionMinor, f.(minor := Value(digits)), rest)
  {
    var loop := if q == VersionMajorStart then VersionMajor else VersionMinor;
    assert digits + rest == [digits[0]] + (digits[1..] + rest);
    AcceptStep(q, f, digits[0], digits[1..] + rest);
    assert Step(q, f, digits[0]) == Go(loop, Push(loop, f, [digits[0]])) by { PushStep(loop, f, digits[0]); }
    AcceptLoop(loop, Push(loop, f, [digits[0]]), digits[1..], rest);
    PushTwice(loop, f, digits[0], digits[1..]);
    assert [digits[0]] + digits[1..] == digits;
    AccumulateIsValue("", digits);
    assert "" + digits == digits;
  }

  lemma AcceptDot(f: Fields, rest: string)
    ensures Accept(VersionMajor, f, "." + rest) == Accept(VersionMinorStart, f, rest)
  {
    AcceptStep(VersionMajor, f, '.', rest);
  }

  lemma AcceptVersion(f: Fields, major: string, minor: string, rest: string)
    requires IsVersion(major) && IsVersion(minor) && f.major == f.minor == 0
    ensures Accept(VersionMajorStart, f, major + ("." + (minor + (CRLF + rest)))) ==
            Accept(HeaderLineStart, f.(major := Value(major), minor := Value(minor)), rest)
  {
    var f1 := f.(major := Value(major));
    AcceptNumber(VersionMajorStart, f, major, "." + (minor + (CRLF + rest)));
    AcceptDot(f1, minor + (CRLF + rest));
    AcceptNumber(VersionMinorStart, f1, minor, CRLF + rest);
    AcceptCrlf(VersionMinor, f1.(minor := Value(minor)), rest);
  }

  /** The version fields of a new request are not initialised, and do not matter. */
  lemma {:induction false} StartVersionIsIrrelevant(q: State, f: Fields, major: int, minor: int, s: string)
    requires q in {MethodStart, Method, Uri, VersionH, VersionT1, VersionT2, VersionP, VersionSlash}
    ensures Accept(q, f, s) == Accept(q, f.(major := major, minor := minor), s)
    decreases |s|
  {
    if s != "" {
      var n := Step(q, f, s[0]);
      if n.outcome == Indeterminate && q != VersionSlash {
        StartVersionIsIrrelevant(n.state, n.fields, major, minor, s[1..]);
      }
    }
  }

  /** A derivable text is accepted to its last byte with the fields of its derivation. */
  lemma AcceptsGrammar(t: RequestText)
    requires ValidRequest(t)
    ensures AcceptRequest(Render(t)) == Some(FieldsOf(t))
  {
    var rest := RenderHeaders(t.headers) + CRLF;
    AcceptRequestLine(BLANK, t.verb, t.uri, t.major + ("." + (t.minor + (CRLF + rest))));
    var f := Fields(t.verb, t.uri, 0, 0, []);
    assert "" + t.verb == t.verb && "" + t.uri == t.uri;
    AcceptVersion(f, t.major, t.minor, rest);
    AcceptHeaders(f.(major := Value(t.major), minor := Value(t.minor)), t.headers);
    WithHeadersIs(f.(major := Value(t.major), minor := Value(t.minor)), t.headers);
    assert [] + HeadersOf(t.headers) == HeadersOf(t.headers);
  }
}
