/** The language of the request parser: a request line, headers that may be folded, and a blank line. */
module HttpGrammar {
  import opened Wrappers
  import opened Text
  import opened HttpParser

  // ----- the grammar: derivation trees, their well-formedness and the text they stand for

  /** A continuation line: blanks, then text that does not start with one. */
  datatype Fold = Fold(blanks: string, text: string)

  datatype HeaderText = HeaderText(name: string, first: string, folds: seq<Fold>)

  datatype RequestText = RequestText(verb: string, uri: string, major: string, minor: string, headers: seq<HeaderText>)

  // The character classes by code, after section 2.2 of RFC 2616; a byte above 127 is in none of them.

  predicate TokenChar(c: char) {
    || c == '!' || '#' <= c <= '\'' || c == '*' || c == '+' || c == '-' || c == '.'
    || '0' <= c <= '9' || 'A' <= c <= 'Z' || '^' <= c <= 'z' || c == '|' || c == '~'
  }

  predicate ControlChar(c: char) {
    c as int < 32 || c as int == 127
  }

  predicate IsToken(s: string) {
    s != "" && forall i :: 0 <= i < |s| ==> TokenChar(s[i])
  }

  predicate IsUri(s: string) {
    forall i :: 0 <= i < |s| ==> !ControlChar(s[i]) && s[i] != ' '
  }

  predicate IsValue(s: string) {
    forall i :: 0 <= i < |s| ==> !ControlChar(s[i])
  }

  predicate IsBlanks(s: string) {
    s != "" && forall i :: 0 <= i < |s| ==> s[i] == ' ' || s[i] == '\t'
  }

  predicate IsVersion(s: string) {
    s != "" && forall i :: 0 <= i < |s| ==> '0' <= s[i] <= '9'
  }

  /** The tests of the parser are these classes. */
  lemma ClassesAgree(c: char)
    ensures IsTokenChar(c) <==> TokenChar(c)
    ensures IsCtl(c) <==> ControlChar(c)
    ensures IsBlank(c) <==> c == ' ' || c == '\t'
    ensures IsDigit(c) <==> '0' <= c <= '9'
  {
  }

  predicate ValidFold(d: Fold) {
    IsBlanks(d.blanks) && IsValue(d.text) && (d.text != "" ==> d.text[0] != ' ')
  }

  predicate ValidFolds(ds: seq<Fold>) {
    forall i :: 0 <= i < |ds| ==> ValidFold(ds[i])
  }

  predicate ValidHeader(h: HeaderText) {
    IsToken(h.name) && IsValue(h.first) && ValidFolds(h.folds)
  }

  predicate ValidHeaders(hs: seq<HeaderText>) {
    forall i :: 0 <= i < |hs| ==> ValidHeader(hs[i])
  }

  predicate ValidRequest(t: RequestText) {
    IsToken(t.verb) && IsUri(t.uri) && IsVersion(t.major) && IsVersion(t.minor) && ValidHeaders(t.headers)
  }

  const CRLF := "\r\n"

  function RenderFolds(ds: seq<Fold>): string {
    if ds == [] then "" else ds[0].blanks + (ds[0].text + (CRLF + RenderFolds(ds[1..])))
  }

  function RenderHeaders(hs: seq<HeaderText>): string {
    if hs == [] then ""
    else hs[0].name + (": " + (hs[0].first + (CRLF + (RenderFolds(hs[0].folds) + RenderHeaders(hs[1..])))))
  }

  function Render(t: RequestText): string {
    t.verb + (" " + (t.uri + (" HTTP/" + (t.major + ("." + (t.minor + (CRLF + (RenderHeaders(t.headers) + CRLF))))))))
  }

  function Joined(ds: seq<Fold>): string {
    if ds == [] then "" else ds[0].text + Joined(ds[1..])
  }

  /** Folded pieces are joined with nothing between them. */
  function HeadersOf(hs: seq<HeaderText>): seq<Header> {
    if hs == [] then [] else [Header(hs[0].name, hs[0].first + Joined(hs[0].folds))] + HeadersOf(hs[1..])
  }

  function FieldsOf(t: RequestText): Fields
    requires ValidRequest(t)
  {
    Fields(t.verb, t.uri, Value(t.major), Value(t.minor), HeadersOf(t.headers))
  }

  // ----- acceptance

  /** The fields when s is a whole request with nothing left over. */
  function Accept(q: State, f: Fields, s: string): Option<Fields>
    requires Ready(q, f)
    decreases |s|
  {
    if s == "" then None
    else
      var n := Step(q, f, s[0]);
      match n.outcome
      case Bad => None
      case Good => if |s| == 1 then Some(n.fields) else None
      case Indeterminate => Accept(n.state, n.fields, s[1..])
  }

  lemma {:induction false} AcceptIsRun(q: State, f: Fields, s: string)
    requires Ready(q, f)
    ensures Accept(q, f, s) ==
            var p := Run(q, f, s); if p.outcome == Good && p.consumed == |s| then Some(p.fields) else None
    decreases |s|
  {
    if s != "" {
      var n := Step(q, f, s[0]);
      if n.outcome == Indeterminate {
        AcceptIsRun(n.state, n.fields, s[1..]);
      }
    }
  }

  const BLANK := Fields("", "", 0, 0, [])

  function AcceptRequest(s: string): Option<Fields> {
    Accept(MethodStart, BLANK, s)
  }

  lemma AcceptStep(q: State, f: Fields, c: char, rest: string)
    requires Ready(q, f) && Step(q, f, c).outcome == Indeterminate
    ensures Accept(q, f, [c] + rest) == Accept(Step(q, f, c).state, Step(q, f, c).fields, rest)
  {
    assert ([c] + rest)[1..] == rest;
  }

  // ----- the seven states that loop

  predicate Stays(q: State, c: char) {
    match q
    case Method => TokenChar(c)
    case Uri => !ControlChar(c) && c != ' '
    case VersionMajor => '0' <= c <= '9'
    case VersionMinor => '0' <= c <= '9'
    case HeaderLws => c == ' ' || c == '\t'
    case HeaderName => TokenChar(c)
    case HeaderValue => !ControlChar(c)
    case _ => false
  }

  function AccumulateAll(n: int, w: string): int
    decreases |w|
  {
    if w == "" then n else AccumulateAll(Accumulate(n, w[0]), w[1..])
  }

  /** What a looping state does with a stretch of characters. */
  function Push(q: State, f: Fields, w: string): (r: Fields)
    requires Ready(q, f)
    ensures Ready(q, r)
  {
    match q
    case Method => f.(verb := f.verb + w)
    case Uri => f.(uri := f.uri + w)
    case VersionMajor => f.(major := AccumulateAll(f.major, w))
    case VersionMinor => f.(minor := AccumulateAll(f.minor, w))
    case HeaderName => AddName(f, w)
    case HeaderValue => AddValue(f, w)
    case _ => f
  }

  lemma PushStep(q: State, f: Fields, c: char)
    requires Ready(q, f) && Stays(q, c)
    ensures Step(q, f, c) == Go(q, Push(q, f, [c]))
  {
    assert AccumulateAll(Accumulate(f.major, c), [c][1..]) == Accumulate(f.major, c);
    assert AccumulateAll(Accumulate(f.minor, c), [c][1..]) == Accumulate(f.minor, c);
  }

  lemma PushEmpty(q: State, f: Fields)
    requires Ready(q, f)
    ensures Push(q, f, "") == f
  {
    assert f.verb + "" == f.verb && f.uri + "" == f.uri;
    if f.headers != [] {
      assert Last(f).name + "" == Last(f).name && Last(f).value + "" == Last(f).value;
      assert WithLast(f, Last(f)).headers == f.headers;
    }
  }

  lemma PushTwice(q: State, f: Fields, c: char, w: string)
    requires Ready(q, f)
    ensures Push(q, Push(q, f, [c]), w) == Push(q, f, [c] + w)
  {
    assert ([c] + w)[1..] == w;
    assert AccumulateAll(Accumulate(f.major, c), [c][1..]) == Accumulate(f.major, c);
    assert AccumulateAll(Accumulate(f.minor, c), [c][1..]) == Accumulate(f.minor, c);
    assert f.verb + [c] + w == f.verb + ([c] + w);
    assert f.uri + [c] + w == f.uri + ([c] + w);
    if f.headers != [] {
      var h := Last(f);
      assert h.name + [c] + w == h.name + ([c] + w);
      assert h.value + [c] + w == h.value + ([c] + w);
      assert AddName(f, [c]).headers[..|f.headers| - 1] == f.headers[..|f.headers| - 1];
      assert AddValue(f, [c]).headers[..|f.headers| - 1] == f.headers[..|f.headers| - 1];
    }
  }

  lemma {:induction false} AcceptLoop(q: State, f: Fields, w: string, rest: string)
    requires Ready(q, f) && forall i :: 0 <= i < |w| ==> Stays(q, w[i])
    ensures Accept(q, f, w + rest) == Accept(q, Push(q, f, w), rest)
    decreases |w|
  {
    if w == "" {
      PushEmpty(q, f);
      assert w + rest == rest;
    } else {
      PushStep(q, f, w[0]);
      assert w + rest == [w[0]] + (w[1..] + rest);
      AcceptStep(q, f, w[0], w[1..] + rest);
      AcceptLoop(q, Push(q, f, [w[0]]), w[1..], rest);
      PushTwice(q, f, w[0], w[1..]);
      assert [w[0]] + w[1..] == w;
    }
  }

  lemma {:induction false} AccumulateIsValue(done: string, w: string)
    requires AllDigits(done) && AllDigits(w)
    ensures AllDigits(done + w) && AccumulateAll(Value(done), w) == Value(done + w)
    decreases |w|
  {
    if w == "" {
      assert done + w == done;
    } else {
      ValueAppend(done, w[0]);
      AccumulateIsValue(done + [w[0]], w[1..]);
      assert done + [w[0]] + w[1..] == done + w;
    }
  }
}
