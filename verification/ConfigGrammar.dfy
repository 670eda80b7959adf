/** The stack machine that turns tokens into a tree, and its agreement with the grammar. */
module ConfigGrammar {
  import opened Wrappers
  import opened ConfigTree

  /** What the last token was; comments leave it alone. */
  datatype Last = AtStart | AfterWord | AfterOpen | AfterClose | AfterEnd

  /** One entry of the block stack: the statements already complete, and the words of the statement
      under construction, which is still waiting for its ';', its '{' or its '}'. */
  datatype Frame = Frame(done: Config, words: seq<string>)

  /** The enclosing blocks, outermost first, and the innermost open block. */
  datatype Machine = Machine(outer: seq<Frame>, top: Frame, last: Last)

  const INITIAL := Machine([], Frame([], []), AtStart)

  predicate Valid(m: Machine) {
    && (forall f :: f in m.outer ==> f.words != [] && WellFormed(f.done))
    && WellFormed(m.top.done)
    && (m.top.words != [] <==> m.last == AfterWord)
  }

  function Step(m: Machine, t: Token): (r: Option<Machine>)
    requires Valid(m)
    ensures r.Some? ==> Valid(r.value)
  {
    match t
    case Word(w) =>
      Some(m.(top := Frame(m.top.done, m.top.words + [w]), last := AfterWord))
    case EndStatement =>
      if m.last != AfterWord then None
      else
        WellFormedAppend(m.top.done, Simple(m.top.words));
        Some(m.(top := Frame(m.top.done + [Simple(m.top.words)], []), last := AfterEnd))
    case OpenBlock =>
      if m.last != AfterWord then None
      else Some(Machine(m.outer + [m.top], Frame([], []), AfterOpen))
    case CloseBlock =>
      if m.last == AfterWord || m.last == AtStart then None
      else if m.outer == [] then None // the root itself would be popped
      else
        var owner := m.outer[|m.outer| - 1];
        WellFormedAppend(owner.done, Block(owner.words, m.top.done));
        Some(Machine(m.outer[..|m.outer| - 1], Frame(owner.done + [Block(owner.words, m.top.done)], []), AfterClose))
  }

  /** End of file: only the root block may be open, with no statement under construction. */
  function Finish(m: Machine): Option<Config>
    requires Valid(m)
  {
    if m.last in {AfterEnd, AfterClose, AtStart} && m.outer == [] then Some(m.top.done) else None
  }

  function Resume(m: Machine, ts: seq<Token>): Option<Config>
    requires Valid(m)
    decreases |ts|
  {
    if ts == [] then Finish(m)
    else match Step(m, ts[0])
      case None => None
      case Some(next) => Resume(next, ts[1..])
  }

  /** The tree built from a whole token stream, or None when the stream is rejected. */
  function ParseTokens(ts: seq<Token>): Option<Config> {
    Resume(INITIAL, ts)
  }

  // ----- the machine only accepts what the grammar derives

  /** The tokens a frame stands for. */
  function Read(f: Frame): seq<Token> {
    Yield(f.done) + Words(f.words)
  }

  function ReadOuter(outer: seq<Frame>): seq<Token> {
    if outer == [] then []
    else ReadOuter(outer[..|outer| - 1]) + Read(outer[|outer| - 1]) + [OpenBlock]
  }

  /** The tokens read so far, recovered from the machine alone. */
  function Consumed(m: Machine): seq<Token> {
    ReadOuter(m.outer) + Read(m.top)
  }

  lemma WordConsumes(f: Frame, w: string)
    ensures Read(Frame(f.done, f.words + [w])) == Read(f) + [Word(w)]
  {
    assert Words(f.words + [w]) == Words(f.words) + [Word(w)];
  }

  lemma StatementConsumes(f: Frame, s: Statement, tail: seq<Token>)
    requires YieldStatement(s) == Words(f.words) + tail
    ensures Read(Frame(f.done + [s], [])) == Read(f) + tail
  {
    YieldAppend(f.done, s);
    assert Read(Frame(f.done + [s], [])) == Yield(f.done) + YieldStatement(s);
  }

  lemma StepConsumes(m: Machine, t: Token)
    requires Valid(m) && Step(m, t).Some?
    ensures Consumed(Step(m, t).value) == Consumed(m) + [t]
  {
    match t
    case Word(w) =>
      WordConsumes(m.top, w);
    case EndStatement =>
      StatementConsumes(m.top, Simple(m.top.words), [EndStatement]);
    case OpenBlock =>
      assert (m.outer + [m.top])[..|m.outer|] == m.outer;
      assert Read(Frame([], [])) == [];
    case CloseBlock =>
      var owner, body := m.outer[|m.outer| - 1], Yield(m.top.done);
      assert Words(owner.words) + ([OpenBlock] + body + [CloseBlock]) == YieldStatement(Block(owner.words, m.top.done));
      StatementConsumes(owner, Block(owner.words, m.top.done), [OpenBlock] + body + [CloseBlock]);
      assert Read(m.top) == body;
  }

  lemma {:induction false} ResumeSound(m: Machine, ts: seq<Token>)
    requires Valid(m) && Resume(m, ts).Some?
    ensures WellFormed(Resume(m, ts).value)
    ensures Yield(Resume(m, ts).value) == Consumed(m) + ts
    decreases |ts|
  {
    if ts == [] {
      assert Consumed(m) + ts == Yield(m.top.done);
    } else {
      StepConsumes(m, ts[0]);
      ResumeSound(Step(m, ts[0]).value, ts[1..]);
      assert Consumed(m) + ts == Consumed(m) + [ts[0]] + ts[1..];
    }
  }

  // ----- and it accepts everything the grammar derives

  lemma {:induction false} ResumeWords(m: Machine, ws: seq<string>, rest: seq<Token>)
    requires Valid(m) && ws != []
    ensures
      var next := m.(top := Frame(m.top.done, m.top.words + ws), last := AfterWord);
      Valid(next) && Resume(m, Words(ws) + rest) == Resume(next, rest)
    decreases |ws|
  {
    var next := Step(m, Word(ws[0])).value;
    assert (Words(ws) + rest)[1..] == Words(ws[1..]) + rest;
    if |ws| == 1 {
      assert [ws[0]] == ws;
      assert Words(ws[1..]) + rest == rest;
    } else {
      ResumeWords(next, ws[1..], rest);
      assert m.top.words + [ws[0]] + ws[1..] == m.top.words + ws;
    }
  }

  function After(s: Statement): Last {
    if s.Simple? then AfterEnd else AfterClose
  }

  lemma YieldTail(s: Statement, rest: seq<Token>)
    ensures YieldStatement(s) + rest ==
            Words(s.tokens) +
            (if s.Simple? then [EndStatement] + rest else [OpenBlock] + (Yield(s.child) + ([CloseBlock] + rest)))
  {
  }

  lemma {:induction false} ResumeStatement(m: Machine, s: Statement, rest: seq<Token>)
    requires Valid(m) && m.last != AfterWord && WellFormedStatement(s)
    ensures
      var next := m.(top := Frame(m.top.done + [s], []), last := After(s));
      Valid(next) && Resume(m, YieldStatement(s) + rest) == Resume(next, rest)
    decreases s, 1
  {
    WellFormedAppend(m.top.done, s);
    assert m.top.words + s.tokens == s.tokens;
    var worded := m.(top := Frame(m.top.done, s.tokens), last := AfterWord);
    YieldTail(s, rest);
    match s
    case Simple(ws) =>
      ResumeWords(m, ws, [EndStatement] + rest);
      assert ([EndStatement] + rest)[1..] == rest;
    case Block(ws, child) =>
      var tail := Yield(child) + ([CloseBlock] + rest);
      ResumeWords(m, ws, [OpenBlock] + tail);
      assert ([OpenBlock] + tail)[1..] == tail;
      ResumeBlock(m, worded, s, rest);
  }

  lemma {:induction false} ResumeBlock(m: Machine, worded: Machine, s: Statement, rest: seq<Token>)
    requires Valid(m) && m.last != AfterWord && WellFormedStatement(s) && s.Block?
    requires worded == m.(top := Frame(m.top.done, s.tokens), last := AfterWord) && Valid(worded)
    ensures
      var next := m.(top := Frame(m.top.done + [s], []), last := After(s));
      Valid(next) &&
      Resume(Step(worded, OpenBlock).value, Yield(s.child) + ([CloseBlock] + rest)) == Resume(next, rest)
    decreases s, 0
  {
    WellFormedAppend(m.top.done, s);
    var nested := Step(worded, OpenBlock).value;
    ResumeConfig(nested, s.child, [CloseBlock] + rest);
    assert [] + s.child == s.child;
    assert (m.outer + [worded.top])[..|m.outer|] == m.outer;
    assert ([CloseBlock] + rest)[1..] == rest;
  }

  lemma {:induction false} ResumeConfig(m: Machine, c: Config, rest: seq<Token>)
    requires Valid(m) && m.last != AfterWord && WellFormed(c)
    ensures
      var next := m.(top := Frame(m.top.done + c, []), last := if c == [] then m.last else After(c[|c| - 1]));
      Valid(next) && Resume(m, Yield(c) + rest) == Resume(next, rest)
    decreases c, 0
  {
    if c == [] {
      assert m.top.done + c == m.top.done;
      assert Yield(c) + rest == rest;
    } else {
      assert Yield(c) + rest == YieldStatement(c[0]) + (Yield(c[1..]) + rest);
      ResumeStatement(m, c[0], Yield(c[1..]) + rest);
      ResumeConfig(m.(top := Frame(m.top.done + [c[0]], []), last := After(c[0])), c[1..], rest);
      assert m.top.done + [c[0]] + c[1..] == m.top.done + c;
    }
  }

  /** The machine accepts a token stream with tree c exactly when c derives that stream. */
  lemma GrammarEquivalence(ts: seq<Token>, c: Config)
    ensures ParseTokens(ts) == Some(c) <==> WellFormed(c) && Yield(c) == ts
  {
    if ParseTokens(ts) == Some(c) {
      ResumeSound(INITIAL, ts);
      assert Consumed(INITIAL) == [];
      assert Consumed(INITIAL) + ts == ts;
    }
    if WellFormed(c) && Yield(c) == ts {
      ResumeConfig(INITIAL, c, []);
      assert Yield(c) + [] == ts;
      assert [] + c == c;
    }
  }

  /** Rejection is exactly underivability. */
  lemma RejectsUnderivable(ts: seq<Token>)
    ensures ParseTokens(ts) == None <==> !exists c :: WellFormed(c) && Yield(c) == ts
  {
    if ParseTokens(ts).Some? {
      GrammarEquivalence(ts, ParseTokens(ts).value);
    } else {
      forall c ensures !(WellFormed(c) && Yield(c) == ts) {
        GrammarEquivalence(ts, c);
      }
    }
  }
}
