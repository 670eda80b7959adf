/** The incremental HTTP request parser: one byte at a time through twenty states. */
module HttpParser {
  import opened Wrappers
  import opened Text

  datatype State =
    | MethodStart
    | Method
    | Uri
    | VersionH
    | VersionT1
    | VersionT2
    | VersionP
    | VersionSlash
    | VersionMajorStart
    | VersionMajor
    | VersionMinorStart
    | VersionMinor
    | ExpectingNewline1
    | HeaderLineStart
    | HeaderLws
    | HeaderName
    | SpaceBeforeHeaderValue
    | HeaderValue
    | ExpectingNewline2
    | ExpectingNewline3

  datatype Outcome = Good | Bad | Indeterminate

  datatype Header = Header(name: string, value: string)

  /** The parsed part of a request. */
  datatype Fields = Fields(verb: string, uri: string, major: int, minor: int, headers: seq<Header>)

  // The character classes; a byte above 127 is neither a control nor an HTTP character.

  predicate IsChar(c: char) {
    c as int <= 127
  }

  predicate IsCtl(c: char) {
    c as int <= 31 || c as int == 127
  }

  predicate IsTspecial(c: char) {
    || c == '(' || c == ')' || c == '<' || c == '>' || c == '@' || c == ',' || c == ';' || c == ':'
    || c == '\\' || c == '"' || c == '/' || c == '[' || c == ']' || c == '?' || c == '=' || c == '{'
    || c == '}' || c == ' ' || c == '\t'
  }

  predicate IsTokenChar(c: char) {
    IsChar(c) && !IsCtl(c) && !IsTspecial(c)
  }

  predicate IsBlank(c: char) {
    c == ' ' || c == '\t'
  }

  /** States in which the last header is being written to. */
  predicate InHeader(q: State) {
    q in {HeaderLws, HeaderName, SpaceBeforeHeaderValue, HeaderValue}
  }

  predicate Ready(q: State, f: Fields) {
    InHeader(q) ==> f.headers != []
  }

  function Last(f: Fields): Header
    requires f.headers != []
  {
    f.headers[|f.headers| - 1]
  }

  function WithLast(f: Fields, h: Header): (r: Fields)
    requires f.headers != []
    ensures r.headers != [] && Last(r) == h
  {
    f.(headers := f.headers[..|f.headers| - 1] + [h])
  }

  function AddName(f: Fields, w: string): Fields
    requires f.headers != []
  {
    WithLast(f, Last(f).(name := Last(f).name + w))
  }

  function AddValue(f: Fields, w: string): Fields
    requires f.headers != []
  {
    WithLast(f, Last(f).(value := Last(f).value + w))
  }

  function Accumulate(n: int, c: char): int {
    n * 10 + c as int - '0' as int
  }

  datatype Next = Next(state: State, fields: Fields, outcome: Outcome)

  /** One byte: the next state, the fields and whether the request is finished or malformed. */
  function Step(q: State, f: Fields, c: char): (n: Next)
    requires Ready(q, f)
    ensures Ready(n.state, n.fields)
  {
    match q
    case MethodStart => if IsTokenChar(c) then Go(Method, f.(verb := f.verb + [c])) else Fail(q, f)
    case Method =>
      if c == ' ' then Go(Uri, f)
      else if IsTokenChar(c) then Go(Method, f.(verb := f.verb + [c]))
      else Fail(q, f)
    case Uri =>
      if c == ' ' then Go(VersionH, f)
      else if IsCtl(c) then Fail(q, f)
      else Go(Uri, f.(uri := f.uri + [c]))
    case VersionH => if c == 'H' then Go(VersionT1, f) else Fail(q, f)
    case VersionT1 => if c == 'T' then Go(VersionT2, f) else Fail(q, f)
    case VersionT2 => if c == 'T' then Go(VersionP, f) else Fail(q, f)
    case VersionP => if c == 'P' then Go(VersionSlash, f) else Fail(q, f)
    case VersionSlash => if c == '/' then Go(VersionMajorStart, f.(major := 0, minor := 0)) else Fail(q, f)
    case VersionMajorStart =>
      if IsDigit(c) then Go(VersionMajor, f.(major := Accumulate(f.major, c))) else Fail(q, f)
    case VersionMajor =>
      if c == '.' then Go(VersionMinorStart, f)
      else if IsDigit(c) then Go(VersionMajor, f.(major := Accumulate(f.major, c)))
      else Fail(q, f)
    case VersionMinorStart =>
      if IsDigit(c) then Go(VersionMinor, f.(minor := Accumulate(f.minor, c))) else Fail(q, f)
    case VersionMinor =>
      if c == '\r' then Go(ExpectingNewline1, f)
      else if IsDigit(c) then Go(VersionMinor, f.(minor := Accumulate(f.minor, c)))
      else Fail(q, f)
    case ExpectingNewline1 => if c == '\n' then Go(HeaderLineStart, f) else Fail(q, f)
    case HeaderLineStart =>
      if c == '\r' then Go(ExpectingNewline3, f)
      else if f.headers != [] && IsBlank(c) then Go(HeaderLws, f)
      else if IsTokenChar(c) then Go(HeaderName, f.(headers := f.headers + [Header([c], "")]))
      else Fail(q, f)
    case HeaderLws =>
      if c == '\r' then Go(ExpectingNewline2, f)
      else if IsBlank(c) then Go(HeaderLws, f)
      else if IsCtl(c) then Fail(q, f)
      else Go(HeaderValue, AddValue(f, [c]))
    case HeaderName =>
      if c == ':' then Go(SpaceBeforeHeaderValue, f)
      else if IsTokenChar(c) then Go(HeaderName, AddName(f, [c]))
      else Fail(q, f)
    case SpaceBeforeHeaderValue => if c == ' ' then Go(HeaderValue, f) else Fail(q, f)
    case HeaderValue =>
      if c == '\r' then Go(ExpectingNewline2, f)
      else if IsCtl(c) then Fail(q, f)
      else Go(HeaderValue, AddValue(f, [c]))
    case ExpectingNewline2 => if c == '\n' then Go(HeaderLineStart, f) else Fail(q, f)
    case ExpectingNewline3 => if c == '\n' then Next(q, f, Good) else Fail(q, f)
  }

  function Go(q: State, f: Fields): Next {
    Next(q, f, Indeterminate)
  }

  function Fail(q: State, f: Fields): Next {
    Next(q, f, Bad)
  }

  /** Where a whole chunk takes the parser, and how many bytes it used. */
  datatype Parsed = Parsed(state: State, fields: Fields, outcome: Outcome, consumed: nat)

  function Run(q: State, f: Fields, s: string): (p: Parsed)
    requires Ready(q, f)
    ensures p.consumed <= |s| && Ready(p.state, p.fields)
    ensures p.outcome == Indeterminate ==> p.consumed == |s|
    decreases |s|
  {
    if s == "" then Parsed(q, f, Indeterminate, 0)
    else
      var n := Step(q, f, s[0]);
      if n.outcome != Indeterminate then Parsed(n.state, n.fields, n.outcome, 1)
      else var p := Run(n.state, n.fields, s[1..]); p.(consumed := p.consumed + 1)
  }

  // ----- the objects

  class Request {
    var originalReq: string
    var verb: string
    var uri: string
    var versionMajor: int
    var versionMinor: int
    var headers: seq<Header>

    constructor ()
      ensures originalReq == "" && verb == "" && uri == "" && headers == []
    {
      originalReq, verb, uri, headers := "", "", "", [];
    }

    ghost function View(): Fields
      reads this
    {
      Fields(verb, uri, versionMajor, versionMinor, headers)
    }
  }

  class RequestParser {
    var state: State

    constructor ()
      ensures state == MethodStart
    {
      state := MethodStart;
    }

    method Reset()
      modifies this
      ensures state == MethodStart
    {
      state := MethodStart;
    }

    /** Handles one byte; the request keeps a copy of every byte it was given. */
    method Consume(req: Request, input: char) returns (outcome: Outcome)
      requires Ready(state, req.View())
      modifies this, req
      ensures Next(state, req.View(), outcome) == Step(old(state), old(req.View()), input)
      ensures req.originalReq == old(req.originalReq) + [input]
    {
      req.originalReq := req.originalReq + [input];
      outcome := Indeterminate;
      match state
      case MethodStart =>
        if !IsChar(input) || IsCtl(input) || IsTspecial(input) {
          return Bad;
        }
        state, req.verb := Method, req.verb + [input];
      case Method =>
        if input == ' ' {
          state := Uri;
        } else if !IsChar(input) || IsCtl(input) || IsTspecial(input) {
          return Bad;
        } else {
          req.verb := req.verb + [input];
        }
      case Uri =>
        if input == ' ' {
          state := VersionH;
        } else if IsCtl(input) {
          return Bad;
        } else {
          req.uri := req.uri + [input];
        }
      case VersionH =>
        if input != 'H' {
          return Bad;
        }
        state := VersionT1;
      case VersionT1 =>
        if input != 'T' {
          return Bad;
        }
        state := VersionT2;
      case VersionT2 =>
        if input != 'T' {
          return Bad;
        }
        state := VersionP;
      case VersionP =>
        if input != 'P' {
          return Bad;
        }
        state := VersionSlash;
      case VersionSlash =>
        if input != '/' {
          return Bad;
        }
        req.versionMajor, req.versionMinor := 0, 0;
        state := VersionMajorStart;
      case VersionMajorStart =>
        if !IsDigit(input) {
          return Bad;
        }
        req.versionMajor := req.versionMajor * 10 + input as int - '0' as int;
        state := VersionMajor;
      case VersionMajor =>
        if input == '.' {
          state := VersionMinorStart;
        } else if IsDigit(input) {
          req.versionMajor := req.versionMajor * 10 + input as int - '0' as int;
        } else {
          return Bad;
        }
      case VersionMinorStart =>
        if !IsDigit(input) {
          return Bad;
        }
        req.versionMinor := req.versionMinor * 10 + input as int - '0' as int;
        state := VersionMinor;
      case VersionMinor =>
        if input == '\r' {
          state := ExpectingNewline1;
        } else if IsDigit(input) {
          req.versionMinor := req.versionMinor * 10 + input as int - '0' as int;
        } else {
          return Bad;
        }
      case ExpectingNewline1 =>
        if input != '\n' {
          return Bad;
        }
        state := HeaderLineStart;
      case HeaderLineStart =>
        if input == '\r' {
          state := ExpectingNewline3;
        } else if |req.headers| > 0 && (input == ' ' || input == '\t') {
          state := HeaderLws;
        } else if !IsChar(input) || IsCtl(input) || IsTspecial(input) {
          return Bad;
        } else {
          req.headers := req.headers + [Header([input], "")];
          state := HeaderName;
        }
      case HeaderLws =>
        if input == '\r' {
          state := ExpectingNewline2;
        } else if input == ' ' || input == '\t' {
        } else if IsCtl(input) {
          return Bad;
        } else {
          state := HeaderValue;
          PushToValue(req, input);
        }
      case HeaderName =>
        if input == ':' {
          state := SpaceBeforeHeaderValue;
        } else if !IsChar(input) || IsCtl(input) || IsTspecial(input) {
          return Bad;
        } else {
          var back := req.headers[|req.headers| - 1];
          req.headers := req.headers[..|req.headers| - 1] + [back.(name := back.name + [input])];
        }
      case SpaceBeforeHeaderValue =>
        if input != ' ' {
          return Bad;
        }
        state := HeaderValue;
      case HeaderValue =>
        if input == '\r' {
          state := ExpectingNewline2;
        } else if IsCtl(input) {
          return Bad;
        } else {
          PushToValue(req, input);
        }
      case ExpectingNewline2 =>
        if input != '\n' {
          return Bad;
        }
        state := HeaderLineStart;
      case ExpectingNewline3 =>
        outcome := if input == '\n' then Good else Bad;
    }

    method PushToValue(req: Request, input: char)
      requires req.headers != []
      modifies req`headers
      ensures req.View() == AddValue(old(req.View()), [input])
    {
      var back := req.headers[|req.headers| - 1];
      req.headers := req.headers[..|req.headers| - 1] + [back.(value := back.value + [input])];
    }

    /** Feeds a chunk until it is used up or the outcome is decided. */
    method Parse(req: Request, input: string) returns (outcome: Outcome, consumed: nat)
      requires Ready(state, req.View())
      modifies this, req
      ensures Parsed(state, req.View(), outcome, consumed) == Run(old(state), old(req.View()), input)
      ensures req.originalReq == old(req.originalReq) + input[..consumed]
    {
      consumed := 0;
      ghost var whole := Run(state, req.View(), input);
      while consumed != |input|
        invariant consumed <= |input| && Ready(state, req.View())
        invariant req.originalReq == old(req.originalReq) + input[..consumed]
        invariant
          var p := Run(state, req.View(), input[consumed..]);
          whole == p.(consumed := p.consumed + consumed)
        decreases |input| - consumed
      {
        outcome := Consume(req, input[consumed]);
        assert input[consumed..][1..] == input[consumed + 1..];
        assert input[..consumed + 1] == input[..consumed] + [input[consumed]];
        consumed := consumed + 1;
        if outcome != Indeterminate {
          return;
        }
      }
      outcome := Indeterminate;
    }

    /** Feeds chunk after chunk, as they arrive, until the outcome is decided. */
    method ParseChunks(req: Request, chunks: seq<string>) returns (outcome: Outcome, consumed: nat)
      requires Ready(state, req.View())
      modifies this, req
      ensures Parsed(state, req.View(), outcome, consumed) == Run(old(state), old(req.View()), Concat(chunks))
      ensures req.originalReq == old(req.originalReq) + Concat(chunks)[..consumed]
    {
      outcome, consumed := Indeterminate, 0;
      ghost var whole, text := Feed(state, req.View(), chunks), Concat(chunks);
      ChunkIndependence(state, req.View(), chunks);
      for i := 0 to |chunks|
        invariant Ready(state, req.View()) && outcome == Indeterminate
        invariant consumed <= |text| && text[consumed..] == Concat(chunks[i..])
        invariant req.originalReq == old(req.originalReq) + text[..consumed]
        invariant
          var p := Feed(state, req.View(), chunks[i..]);
          whole == p.(consumed := p.consumed + consumed)
      {
        var used: nat;
        ghost var rest := chunks[i..];
        assert rest[0] == chunks[i] && rest[1..] == chunks[i + 1..];
        outcome, used := Parse(req, chunks[i]);
        CopyGrows(text, consumed, chunks[i], Concat(chunks[i + 1..]), used);
        Assoc(old(req.originalReq), text[..consumed], chunks[i][..used]);
        consumed := consumed + used;
        if outcome != Indeterminate {
          return;
        }
      }
    }
  }

  lemma CopyGrows(text: string, n: nat, chunk: string, rest: string, used: nat)
    requires n <= |text| && text[n..] == chunk + rest && used <= |chunk|
    ensures n + used <= |text| && text[..n + used] == text[..n] + chunk[..used]
    ensures used == |chunk| ==> text[n + used..] == rest
  {
    assert |text| == n + |chunk| + |rest|;
    assert text[n..][..used] == chunk[..used];
    assert text[n..][|chunk|..] == rest;
  }

  // ----- feeding in pieces

  function Concat(chunks: seq<string>): string {
    if chunks == [] then "" else chunks[0] + Concat(chunks[1..])
  }

  /** Chunk after chunk, as long as the outcome is open. */
  function Feed(q: State, f: Fields, chunks: seq<string>): Parsed
    requires Ready(q, f)
    decreases |chunks|
  {
    if chunks == [] then Parsed(q, f, Indeterminate, 0)
    else
      var p := Run(q, f, chunks[0]);
      if p.outcome != Indeterminate then p
      else
        var rest := Feed(p.state, p.fields, chunks[1..]);
        rest.(consumed := p.consumed + rest.consumed)
  }

  lemma {:induction false} RunConcat(q: State, f: Fields, a: string, b: string)
    requires Ready(q, f)
    ensures
      var p := Run(q, f, a);
      Run(q, f, a + b) ==
      if p.outcome != Indeterminate then p
      else var rest := Run(p.state, p.fields, b); rest.(consumed := p.consumed + rest.consumed)
    decreases |a|
  {
    if a == "" {
      assert a + b == b;
    } else {
      assert (a + b)[1..] == a[1..] + b;
      var n := Step(q, f, a[0]);
      if n.outcome == Indeterminate {
        RunConcat(n.state, n.fields, a[1..], b);
      }
    }
  }

  /** However a byte string is cut into chunks, the parser ends in the same place with the same result. */
  lemma {:induction false} ChunkIndependence(q: State, f: Fields, chunks: seq<string>)
    requires Ready(q, f)
    ensures Feed(q, f, chunks) == Run(q, f, Concat(chunks))
    decreases |chunks|
  {
    if chunks != [] {
      RunConcat(q, f, chunks[0], Concat(chunks[1..]));
      var p := Run(q, f, chunks[0]);
      if p.outcome == Indeterminate {
        ChunkIndependence(p.state, p.fields, chunks[1..]);
      }
    }
  }
}
