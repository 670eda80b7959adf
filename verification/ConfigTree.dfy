/** The configuration tree, its token-level grammar and its printed form. */
module ConfigTree {
  /** One statement: its words and, when it opened a block, the statements of its child block. */
  datatype Statement =
    | Simple(tokens: seq<string>)
    | Block(tokens: seq<string>, child: seq<Statement>)

  type Config = seq<Statement>

  /** The terminals of the configuration grammar. */
  datatype Token = Word(text: string) | OpenBlock | CloseBlock | EndStatement

  function Words(ws: seq<string>): seq<Token> {
    seq(|ws|, i requires 0 <= i < |ws| => Word(ws[i]))
  }

  // The grammar  statement := word+ (';' | '{' statement* '}'),  read as: a tree derives the
  // token string it yields, provided that every statement of the tree has a word.

  function YieldStatement(s: Statement): seq<Token>
    decreases s, 1
  {
    Words(s.tokens) +
    (match s
     case Simple(_) => [EndStatement]
     case Block(_, child) => [OpenBlock] + Yield(child) + [CloseBlock])
  }

  function Yield(c: Config): seq<Token>
    decreases c, 0
  {
    if c == [] then [] else YieldStatement(c[0]) + Yield(c[1..])
  }

  predicate WellFormedStatement(s: Statement)
    decreases s, 1
  {
    s.tokens != [] && (s.Block? ==> WellFormed(s.child))
  }

  predicate WellFormed(c: Config)
    decreases c, 0
  {
    c == [] || (WellFormedStatement(c[0]) && WellFormed(c[1..]))
  }

  lemma {:induction false} YieldAppend(c: Config, s: Statement)
    ensures Yield(c + [s]) == Yield(c) + YieldStatement(s)
  {
    if c == [] {
      assert [s][1..] == [];
    } else {
      assert (c + [s])[1..] == c[1..] + [s];
      YieldAppend(c[1..], s);
    }
  }

  lemma {:induction false} WellFormedAppend(c: Config, s: Statement)
    ensures WellFormed(c + [s]) <==> WellFormed(c) && WellFormedStatement(s)
  {
    if c == [] {
      assert [s][1..] == [];
    } else {
      assert (c + [s])[1..] == c[1..] + [s];
      WellFormedAppend(c[1..], s);
    }
  }

  // The printed form.

  function Indent(depth: nat): string {
    if depth == 0 then "" else "  " + Indent(depth - 1)
  }

  function Joined(tokens: seq<string>): string {
    if tokens == [] then ""
    else if |tokens| == 1 then tokens[0]
    else tokens[0] + " " + Joined(tokens[1..])
  }

  function PrintStatement(s: Statement, depth: nat): string
    decreases s, 1
  {
    Indent(depth) + Joined(s.tokens) +
    (match s
     case Simple(_) => ";"
     case Block(_, child) => " {\n" + Print(child, depth + 1) + Indent(depth) + "}") +
    "\n"
  }

  function Print(c: Config, depth: nat): string
    decreases c, 0
  {
    if c == [] then "" else PrintStatement(c[0], depth) + Print(c[1..], depth)
  }

  lemma {:induction false} IndentAppend(depth: nat)
    ensures Indent(depth) + "  " == Indent(depth + 1)
  {
    if depth > 0 {
      IndentAppend(depth - 1);
      assert Indent(depth) + "  " == "  " + (Indent(depth - 1) + "  ");
    }
  }

  lemma {:induction false} JoinedAppend(tokens: seq<string>, w: string)
    requires tokens != []
    ensures Joined(tokens + [w]) == Joined(tokens) + " " + w
  {
    if |tokens| == 1 {
      assert (tokens + [w])[1..] == [w];
    } else {
      assert (tokens + [w])[1..] == tokens[1..] + [w];
      JoinedAppend(tokens[1..], w);
      assert tokens[0] + " " + (Joined(tokens[1..]) + " " + w) == (tokens[0] + " " + Joined(tokens[1..])) + " " + w;
    }
  }

  lemma {:induction false} PrintAppend(c: Config, s: Statement, depth: nat)
    ensures Print(c + [s], depth) == Print(c, depth) + PrintStatement(s, depth)
  {
    if c == [] {
      assert [s][1..] == [];
    } else {
      assert (c + [s])[1..] == c[1..] + [s];
      PrintAppend(c[1..], s, depth);
    }
  }

  /** Serialises a configuration by appending its statements one after the other. */
  method ToString(c: Config, depth: nat) returns (text: string)
    ensures text == Print(c, depth)
    decreases c, 0
  {
    text := "";
    for i := 0 to |c|
      invariant text == Print(c[..i], depth)
    {
      var piece := StatementToString(c[i], depth);
      PrintAppend(c[..i], c[i], depth);
      assert c[..i + 1] == c[..i] + [c[i]];
      text := text + piece;
    }
    assert c[..|c|] == c;
  }

  /** The indentation loop that opens a statement's line and its closing brace's line. */
  method Indentation(depth: nat) returns (text: string)
    ensures text == Indent(depth)
  {
    text := "";
    for i := 0 to depth
      invariant text == Indent(i)
    {
      IndentAppend(i);
      text := text + "  ";
    }
  }

  /** The loop that appends a statement's words, a blank before every word but the first. */
  method JoinTokens(tokens: seq<string>) returns (text: string)
    ensures text == Joined(tokens)
  {
    text := "";
    for i := 0 to |tokens|
      invariant text == Joined(tokens[..i])
    {
      assert tokens[..i + 1] == tokens[..i] + [tokens[i]];
      if i != 0 {
        text := text + " ";
        JoinedAppend(tokens[..i], tokens[i]);
      }
      text := text + tokens[i];
    }
    assert tokens[..|tokens|] == tokens;
  }

  /** Serialises one statement: indentation, words, block or semicolon, newline. */
  method StatementToString(s: Statement, depth: nat) returns (text: string)
    ensures text == PrintStatement(s, depth)
    decreases s, 1
  {
    var margin := Indentation(depth);
    var words := JoinTokens(s.tokens);
    text := margin + words;
    if s.Block? {
      var block := ToString(s.child, depth + 1);
      text := text + (" {\n" + block + margin + "}");
    } else {
      text := text + ";";
    }
    text := text + "\n";
  }
}
