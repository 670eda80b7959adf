/** The printed form of a tree is its token string laid out by a flat rule that only counts braces. */
module ConfigPretty {
  import opened Wrappers
  import opened ConfigTree

  /** Two blanks per level. */
  function Margin(depth: nat): (s: string)
    ensures |s| == 2 * depth && forall i :: 0 <= i < |s| ==> s[i] == ' '
  {
    seq(2 * depth, _ => ' ')
  }

  /** Whatever opens a line stands after the margin; a word within a line stands after one blank; each line ends
      with ';', " {" or '}'. */
  function Pretty(ts: seq<Token>, depth: nat, atStart: bool): string
    decreases |ts|
  {
    if ts == [] then ""
    else
      var margin := if atStart then Margin(depth) else "";
      match ts[0]
      case Word(w) => (if atStart then margin else " ") + (w + Pretty(ts[1..], depth, false))
      case EndStatement => margin + (";\n" + Pretty(ts[1..], depth, true))
      case OpenBlock => margin + (" {\n" + Pretty(ts[1..], depth + 1, true))
      case CloseBlock =>
        var outer := if depth == 0 then 0 else depth - 1;
        Margin(outer) + ("}\n" + Pretty(ts[1..], outer, true))
  }

  lemma {:induction false} IndentIs(depth: nat)
    ensures Indent(depth) == Margin(depth)
  {
    if depth > 0 {
      IndentIs(depth - 1);
      assert Margin(depth) == "  " + Margin(depth - 1);
    }
  }

  lemma PrettyCons(t: Token, ts: seq<Token>, depth: nat, atStart: bool)
    ensures
      var margin := if atStart then Margin(depth) else "";
      var outer := if depth == 0 then 0 else depth - 1;
      Pretty([t] + ts, depth, atStart) ==
      match t
      case Word(w) => (if atStart then margin else " ") + (w + Pretty(ts, depth, false))
      case EndStatement => margin + (";\n" + Pretty(ts, depth, true))
      case OpenBlock => margin + (" {\n" + Pretty(ts, depth + 1, true))
      case CloseBlock => Margin(outer) + ("}\n" + Pretty(ts, outer, true))
  {
    assert ([t] + ts)[1..] == ts;
  }

  lemma WordsCons(ws: seq<string>, rest: seq<Token>)
    requires ws != []
    ensures Words(ws) + rest == [Word(ws[0])] + (Words(ws[1..]) + rest)
  {
    assert Words(ws) == [Word(ws[0])] + Words(ws[1..]);
    Assoc([Word(ws[0])], Words(ws[1..]), rest);
  }

  lemma {:induction false} PrettyWords(ws: seq<string>, depth: nat, atStart: bool, rest: seq<Token>)
    requires ws != []
    ensures Pretty(Words(ws) + rest, depth, atStart) ==
            (if atStart then Margin(depth) else " ") + (Joined(ws) + Pretty(rest, depth, false))
    decreases |ws|
  {
    WordsCons(ws, rest);
    PrettyCons(Word(ws[0]), Words(ws[1..]) + rest, depth, atStart);
    if |ws| == 1 {
      assert Words(ws[1..]) + rest == rest;
    } else {
      PrettyWords(ws[1..], depth, false, rest);
      Assoc(ws[0], " ", Joined(ws[1..]) + Pretty(rest, depth, false));
      Assoc(ws[0] + " ", Joined(ws[1..]), Pretty(rest, depth, false));
    }
  }

  /** The words of a statement and the ';' or '{' after them. */
  lemma PrettyHead(ws: seq<string>, depth: nat, end: Token, rest: seq<Token>)
    requires end == EndStatement || end == OpenBlock
    ensures Pretty(Words(ws) + ([end] + rest), depth, true) ==
            Indent(depth) + (Joined(ws) +
            (if end == EndStatement then ";\n" + Pretty(rest, depth, true) else " {\n" + Pretty(rest, depth + 1, true)))
  {
    IndentIs(depth);
    PrettyCons(end, rest, depth, ws == []);
    var tail := if end == EndStatement then ";\n" + Pretty(rest, depth, true) else " {\n" + Pretty(rest, depth + 1, true);
    assert "" + tail == tail;
    if ws == [] {
      assert Words(ws) + ([end] + rest) == [end] + rest;
    } else {
      PrettyWords(ws, depth, true, [end] + rest);
    }
  }

  lemma SimpleText(s: Statement, depth: nat, rest: string)
    requires s.Simple?
    ensures PrintStatement(s, depth) + rest == Indent(depth) + (Joined(s.tokens) + (";\n" + rest))
  {
    assert PrintStatement(s, depth) == Indent(depth) + Joined(s.tokens) + ";" + "\n";
  }

  lemma BlockText(s: Statement, depth: nat, rest: string)
    requires s.Block?
    ensures PrintStatement(s, depth) + rest ==
            Indent(depth) + (Joined(s.tokens) + (" {\n" + (Print(s.child, depth + 1) + (Indent(depth) + ("}\n" + rest)))))
  {
    var margin, words, block := Indent(depth), Joined(s.tokens), Print(s.child, depth + 1);
    var inner := " {\n" + block + margin + "}";
    Assoc(margin + words + inner, "\n", rest);
    Assoc(margin + words, inner, "\n" + rest);
    Assoc(margin, words, inner + ("\n" + rest));
    Assoc(" {\n" + block + margin, "}", "\n" + rest);
    assert "}" + ("\n" + rest) == "}\n" + rest;
    Assoc(" {\n" + block, margin, "}\n" + rest);
    Assoc(" {\n", block, margin + ("}\n" + rest));
  }

  lemma {:induction false} PrettyStatement(s: Statement, depth: nat, rest: seq<Token>)
    ensures Pretty(YieldStatement(s) + rest, depth, true) == PrintStatement(s, depth) + Pretty(rest, depth, true)
    decreases s, 1
  {
    match s
    case Simple(ws) =>
      Assoc(Words(ws), [EndStatement], rest);
      PrettyHead(ws, depth, EndStatement, rest);
      SimpleText(s, depth, Pretty(rest, depth, true));
    case Block(ws, child) =>
      var tail := [CloseBlock] + rest;
      BlockTokens(s, rest);
      PrettyHead(ws, depth, OpenBlock, Yield(child) + tail);
      PrettyConfig(child, depth + 1, tail);
      PrettyCons(CloseBlock, rest, depth + 1, true);
      IndentIs(depth);
      BlockText(s, depth, Pretty(rest, depth, true));
  }

  lemma BlockTokens(s: Statement, rest: seq<Token>)
    requires s.Block?
    ensures YieldStatement(s) + rest == Words(s.tokens) + ([OpenBlock] + (Yield(s.child) + ([CloseBlock] + rest)))
  {
    Assoc(Words(s.tokens), [OpenBlock] + Yield(s.child) + [CloseBlock], rest);
    Assoc([OpenBlock] + Yield(s.child), [CloseBlock], rest);
    Assoc([OpenBlock], Yield(s.child), [CloseBlock] + rest);
  }

  lemma {:induction false} PrettyConfig(c: Config, depth: nat, rest: seq<Token>)
    ensures Pretty(Yield(c) + rest, depth, true) == Print(c, depth) + Pretty(rest, depth, true)
    decreases c, 0
  {
    if c == [] {
      assert Yield(c) + rest == rest;
      assert Print(c, depth) + Pretty(rest, depth, true) == Pretty(rest, depth, true);
    } else {
      Assoc(YieldStatement(c[0]), Yield(c[1..]), rest);
      PrettyStatement(c[0], depth, Yield(c[1..]) + rest);
      PrettyConfig(c[1..], depth, rest);
      Assoc(PrintStatement(c[0], depth), Print(c[1..], depth), Pretty(rest, depth, true));
    }
  }

  /** Printing a tree, of any shape and at any depth, is laying out the tokens it derives. */
  lemma PrintIsPretty(c: Config, depth: nat)
    ensures Print(c, depth) == Pretty(Yield(c), depth, true)
  {
    PrettyConfig(c, depth, []);
    assert Yield(c) + [] == Yield(c);
    assert Print(c, depth) + "" == Print(c, depth);
  }
}
