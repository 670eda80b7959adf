/** The parser decides as early as it can: after every byte the outcome says whether a request has been read,
    can still be completed, or cannot. */
module HttpVerdict {
  import opened HttpParser
  import opened HttpGrammar
  import opened HttpLanguage
  import opened HttpDerivation

  // ----- every state can still be led to the end of a request

  /** A byte that takes a state closer to the end, and the state it leads to. */
  function Onward(q: State): (char, State) {
    match q
    case MethodStart => ('A', Method)
    case Method => (' ', Uri)
    case Uri => (' ', VersionH)
    case VersionH => ('H', VersionT1)
    case VersionT1 => ('T', VersionT2)
    case VersionT2 => ('T', VersionP)
    case VersionP => ('P', VersionSlash)
    case VersionSlash => ('/', VersionMajorStart)
    case VersionMajorStart => ('1', VersionMajor)
    case VersionMajor => ('.', VersionMinorStart)
    case VersionMinorStart => ('1', VersionMinor)
    case VersionMinor => ('\r', ExpectingNewline1)
    case ExpectingNewline1 => ('\n', HeaderLineStart)
    case HeaderName => (':', SpaceBeforeHeaderValue)
    case SpaceBeforeHeaderValue => (' ', HeaderValue)
    case HeaderValue => ('\r', ExpectingNewline2)
    case HeaderLws => ('\r', ExpectingNewline2)
    case ExpectingNewline2 => ('\n', HeaderLineStart)
    case HeaderLineStart => ('\r', ExpectingNewline3)
    case ExpectingNewline3 => ('\n', ExpectingNewline3)
  }

  function Distance(q: State): nat {
    match q
    case MethodStart => 15
    case Method => 14
    case Uri => 13
    case VersionH => 12
    case VersionT1 => 11
    case VersionT2 => 10
    case VersionP => 9
    case VersionSlash => 8
    case VersionMajorStart => 7
    case VersionMajor => 6
    case VersionMinorStart => 5
    case VersionMinor => 4
    case ExpectingNewline1 => 3
    case HeaderName => 6
    case SpaceBeforeHeaderValue => 5
    case HeaderValue => 4
    case HeaderLws => 4
    case ExpectingNewline2 => 3
    case HeaderLineStart => 2
    case ExpectingNewline3 => 1
  }

  lemma OnwardStep(q: State, f: Fields)
    requires Ready(q, f)
    ensures
      var n := Step(q, f, Onward(q).0);
      if q == ExpectingNewline3 then n.outcome == Good
      else n.outcome == Indeterminate && n.state == Onward(q).1 && Distance(n.state) < Distance(q)
  {
  }

  lemma {:induction false} Completion(q: State, f: Fields) returns (w: string)
    requires Ready(q, f)
    ensures w != "" && Accept(q, f, w).Some?
    decreases Distance(q)
  {
    var c := Onward(q).0;
    OnwardStep(q, f);
    var n := Step(q, f, c);
    if n.outcome == Good {
      w := [c];
    } else {
      var more := Completion(n.state, n.fields);
      w := [c] + more;
      AcceptStep(q, f, c, more);
    }
  }

  // ----- the outcome on a part of the input

  lemma {:induction false} DecidedPrefix(q: State, f: Fields, s: string)
    requires Ready(q, f)
    ensures Run(q, f, s[..Run(q, f, s).consumed]) == Run(q, f, s)
    decreases |s|
  {
    var p := Run(q, f, s);
    if s == "" {
      assert s[..p.consumed] == s;
    } else {
      var n := Step(q, f, s[0]);
      assert s[..p.consumed][0] == s[0];
      if n.outcome == Indeterminate {
        DecidedPrefix(n.state, n.fields, s[1..]);
        assert s[..p.consumed][1..] == s[1..][..p.consumed - 1];
      }
    }
  }

  lemma OpenBefore(q: State, f: Fields, s: string, k: nat)
    requires Ready(q, f) && k <= |s| && k < Run(q, f, s).consumed
    ensures Run(q, f, s[..k]).outcome == Indeterminate
  {
    RunConcat(q, f, s[..k], s[k..]);
    assert s[..k] + s[k..] == s;
  }

  lemma DecidedStays(q: State, f: Fields, a: string, s: string)
    requires Ready(q, f) && a <= s && Run(q, f, a).outcome != Indeterminate
    ensures Run(q, f, s) == Run(q, f, a)
  {
    RunConcat(q, f, a, s[|a|..]);
    assert a + s[|a|..] == s;
  }

  // ----- the verdict

  function RunRequest(s: string): Parsed {
    Run(MethodStart, BLANK, s)
  }

  /** Some request starts with s and goes on. */
  ghost predicate CanGoOn(s: string) {
    exists t :: ValidRequest(t) && s <= Render(t) && s != Render(t)
  }

  /** s starts with a whole request, of n bytes. */
  ghost predicate HoldsRequest(s: string, n: nat) {
    exists t :: ValidRequest(t) && Render(t) <= s && |Render(t)| == n
  }

  lemma OpenMeansCompletable(s: string)
    requires RunRequest(s).outcome == Indeterminate
    ensures CanGoOn(s)
  {
    var p := RunRequest(s);
    var w := Completion(p.state, p.fields);
    AcceptIsRun(p.state, p.fields, w);
    RunConcat(MethodStart, BLANK, s, w);
    AcceptIsRun(MethodStart, BLANK, s + w);
    var t := Derive(s + w);
    assert Render(t) == s + w && s <= s + w && s != s + w;
  }

  lemma CompletableMeansOpen(s: string)
    requires CanGoOn(s)
    ensures RunRequest(s).outcome == Indeterminate
  {
    var t :| ValidRequest(t) && s <= Render(t) && s != Render(t);
    AcceptsGrammar(t);
    AcceptIsRun(MethodStart, BLANK, Render(t));
    OpenBefore(MethodStart, BLANK, Render(t), |s|);
    assert Render(t)[..|s|] == s;
  }

  lemma GoodMeansRequest(s: string)
    requires RunRequest(s).outcome == Good
    ensures HoldsRequest(s, RunRequest(s).consumed)
  {
    var n := RunRequest(s).consumed;
    DecidedPrefix(MethodStart, BLANK, s);
    AcceptIsRun(MethodStart, BLANK, s[..n]);
    var t := Derive(s[..n]);
    assert Render(t) == s[..n] && Render(t) <= s;
  }

  lemma RequestMeansGood(s: string, n: nat)
    requires HoldsRequest(s, n)
    ensures RunRequest(s).outcome == Good && RunRequest(s).consumed == n
  {
    var t :| ValidRequest(t) && Render(t) <= s && |Render(t)| == n;
    AcceptsGrammar(t);
    AcceptIsRun(MethodStart, BLANK, Render(t));
    DecidedStays(MethodStart, BLANK, Render(t), s);
  }

  /** On every byte string: good after exactly n bytes if and only if these are a whole request; undecided if and
      only if some request starts with all of it and goes on; bad otherwise, and then at the first byte that rules
      out every request. */
  lemma Verdict(s: string)
    ensures
      var p := RunRequest(s);
      && (forall n :: p.outcome == Good && p.consumed == n <==> n >= 0 && HoldsRequest(s, n))
      && (p.outcome == Indeterminate <==> CanGoOn(s))
      && (p.outcome == Bad ==>
            1 <= p.consumed && CanGoOn(s[..p.consumed - 1]) && !CanGoOn(s[..p.consumed])
            && !HoldsRequest(s[..p.consumed], p.consumed))
  {
    var p := RunRequest(s);
    match p.outcome {
      case Good => GoodMeansRequest(s);
      case Indeterminate => OpenMeansCompletable(s);
      case Bad => BadVerdict(s);
    }
    if CanGoOn(s) {
      CompletableMeansOpen(s);
    }
    forall n: nat | HoldsRequest(s, n) ensures p.outcome == Good && p.consumed == n {
      RequestMeansGood(s, n);
    }
  }

  lemma BadVerdict(s: string)
    requires RunRequest(s).outcome == Bad
    ensures
      var n := RunRequest(s).consumed;
      1 <= n && CanGoOn(s[..n - 1]) && !CanGoOn(s[..n]) && !HoldsRequest(s[..n], n)
  {
    var n := RunRequest(s).consumed;
    DecidedPrefix(MethodStart, BLANK, s);
    OpenBefore(MethodStart, BLANK, s, n - 1);
    OpenMeansCompletable(s[..n - 1]);
    if CanGoOn(s[..n]) {
      CompletableMeansOpen(s[..n]);
    }
    if HoldsRequest(s[..n], n) {
      RequestMeansGood(s[..n], n);
    }
  }

  /** A byte that is refused leaves state and fields as they were. */
  lemma RefusedByteIsIdle(q: State, f: Fields, c: char)
    requires Ready(q, f) && Step(q, f, c).outcome != Indeterminate
    ensures Step(q, f, c).state == q && Step(q, f, c).fields == f
  {
  }
}
