/** The seven-state character lexer with one character of pushback, and the parser above it. */
module ConfigLexer {
  import opened Wrappers
  import opened ConfigTree
  import opened ConfigGrammar

  datatype TokenType = NormalToken | StartBlock | EndBlock | Comment | StatementEnd | EndOfFile | LexError

  datatype LexState =
    | InitialWhitespace
    | SingleQuote
    | DoubleQuote
    | InComment
    | InNormal
    | EscapeSingleQuote
    | EscapeDoubleQuote

  /** The outcome of one call of the lexer: token type, token text and unread input. */
  datatype Lexed = Lexed(kind: TokenType, value: string, rest: string)

  predicate IsBlank(c: char) {
    c == ' ' || c == '\t' || c == '\n' || c == '\r'
  }

  /** The characters that may directly follow a plain or quoted token; '\r' is not among them. */
  predicate IsStop(c: char) {
    c == ' ' || c == '\t' || c == '\n' || c == ';' || c == '{' || c == '}'
  }

  function QuoteOf(state: LexState): char {
    if state == SingleQuote || state == EscapeSingleQuote then '\'' else '"'
  }

  /** What the lexer returns when it is in the given state, has collected value and sees input. */
  function Scan(state: LexState, value: string, input: string): (r: Lexed)
    ensures |r.rest| <= |input|
    ensures state == InitialWhitespace && r.kind != EndOfFile && r.kind != LexError ==> |r.rest| < |input|
    decreases |input|
  {
    if input == "" then
      Lexed(if state == SingleQuote || state == DoubleQuote then LexError else EndOfFile, value, "")
    else
      var c, rest := input[0], input[1..];
      match state
      case InitialWhitespace =>
        if c == '{' then Lexed(StartBlock, "{", rest)
        else if c == '}' then Lexed(EndBlock, "}", rest)
        else if c == ';' then Lexed(StatementEnd, ";", rest)
        else if c == '#' then Scan(InComment, "#", rest)
        else if c == '"' then Scan(DoubleQuote, "\"", rest)
        else if c == '\'' then Scan(SingleQuote, "'", rest)
        else if IsBlank(c) then Scan(InitialWhitespace, value, rest)
        else Scan(InNormal, value + [c], rest)
      case InComment =>
        if c == '\n' || c == '\r' then Lexed(Comment, value, rest) else Scan(InComment, value + [c], rest)
      case InNormal =>
        if IsStop(c) then Lexed(NormalToken, value, input) else Scan(InNormal, value + [c], rest)
      case EscapeSingleQuote => Scan(SingleQuote, value + [c], rest)
      case EscapeDoubleQuote => Scan(DoubleQuote, value + [c], rest)
      case _ =>
        if c == QuoteOf(state) then
          if rest != "" && IsStop(rest[0]) then Lexed(NormalToken, value + [c], rest)
          else Lexed(LexError, value + [c], if rest == "" then "" else rest[1..])
        else if c == '\\' then
          Scan(if state == SingleQuote then EscapeSingleQuote else EscapeDoubleQuote, value, rest)
        else Scan(state, value + [c], rest)
  }

  function NextToken(input: string): (r: Lexed)
    ensures r.kind != EndOfFile && r.kind != LexError ==> |r.rest| < |input|
  {
    Scan(InitialWhitespace, "", input)
  }

  /** The tokens of a text without its comments; clean says that no lexical error ended them. */
  datatype Lexing = Lexing(tokens: seq<Token>, clean: bool)

  function Prepend(ts: seq<Token>, l: Lexing): Lexing {
    Lexing(ts + l.tokens, l.clean)
  }

  function AsToken(l: Lexed): Token
    requires l.kind in {NormalToken, StartBlock, EndBlock, StatementEnd}
  {
    match l.kind
    case NormalToken => Word(l.value)
    case StartBlock => OpenBlock
    case EndBlock => CloseBlock
    case _ => EndStatement
  }

  function LexAll(input: string): Lexing
    decreases |input|
  {
    var l := NextToken(input);
    match l.kind
    case EndOfFile => Lexing([], true)
    case LexError => Lexing([], false)
    case Comment => LexAll(l.rest)
    case _ => Prepend([AsToken(l)], LexAll(l.rest))
  }

  /** The parser's answer from a given machine on the input that is left. */
  function ResumeText(m: Machine, input: string): Option<Config>
    requires Valid(m)
  {
    if LexAll(input).clean then Resume(m, LexAll(input).tokens) else None
  }

  /** The tree parsed from a text, or None when the text is rejected. */
  function ParseText(input: string): Option<Config> {
    ResumeText(INITIAL, input)
  }

  /** A character stream as the lexer uses it. */
  class InputStream {
    const text: string
    var pos: nat
    var good: bool

    constructor (text: string)
      ensures this.text == text && Valid() && good && Unread() == text
    {
      this.text, pos, good := text, 0, true;
    }

    ghost predicate Valid()
      reads this
    {
      pos <= |text|
    }

    ghost function Unread(): string
      requires Valid()
      reads this
    {
      text[pos..]
    }

    /** Reads one character; at the end of the text it reads nothing and the stream turns bad. */
    method Get() returns (c: Option<char>)
      requires Valid() && good
      modifies this
      ensures Valid()
      ensures if old(Unread()) == "" then c == None && !good && pos == old(pos)
              else c == Some(old(Unread())[0]) && good && pos == old(pos) + 1
    {
      if pos == |text| {
        good := false;
        return None;
      }
      c := Some(text[pos]);
      pos := pos + 1;
    }

    /** Pushes the character just read back. */
    method Unget()
      requires Valid() && good && pos > 0
      modifies this
      ensures Valid() && good && pos == old(pos) - 1
    {
      pos := pos - 1;
    }
  }

  /** The lookahead after a closing quote: a stop character is pushed back, anything else is an error. */
  method AfterQuote(input: InputStream) returns (kind: TokenType)
    requires input.Valid() && input.good
    modifies input
    ensures input.Valid()
    ensures
      var rest := old(input.Unread());
      if rest != "" && IsStop(rest[0]) then kind == NormalToken && input.Unread() == rest && input.good
      else kind == LexError && input.Unread() == if rest == "" then "" else rest[1..]
  {
    var next := input.Get();
    if next.Some? && IsStop(next.value) {
      input.Unget();
      return NormalToken;
    }
    kind := LexError;
  }

  /** One call of the lexer on the stream. */
  method ParseToken(input: InputStream) returns (kind: TokenType, value: string)
    requires input.Valid() && input.good
    modifies input
    ensures input.Valid()
    ensures Lexed(kind, value, input.Unread()) == NextToken(old(input.Unread()))
    ensures kind != EndOfFile && kind != LexError ==> input.good
  {
    ghost var whole := input.Unread();
    var state := InitialWhitespace;
    value := "";
    while input.good
      invariant input.Valid()
      invariant NextToken(whole) == Scan(state, value, input.Unread())
      invariant !input.good ==> input.Unread() == ""
      decreases |input.text| - input.pos, input.good
    {
      ghost var before := input.Unread();
      var read := input.Get();
      if read == None {
        break;
      }
      var c := read.value;
      assert input.Unread() == before[1..];
      match state
      case InitialWhitespace =>
        if c == '{' {
          return StartBlock, "{";
        } else if c == '}' {
          return EndBlock, "}";
        } else if c == '#' {
          value, state := "#", InComment;
        } else if c == '"' {
          value, state := "\"", DoubleQuote;
        } else if c == '\'' {
          value, state := "'", SingleQuote;
        } else if c == ';' {
          return StatementEnd, ";";
        } else if !IsBlank(c) {
          value, state := value + [c], InNormal;
        }
      case InComment =>
        if c == '\n' || c == '\r' {
          return Comment, value;
        }
        value := value + [c];
      case InNormal =>
        if IsStop(c) {
          input.Unget();
          assert input.Unread() == before;
          return NormalToken, value;
        }
        value := value + [c];
      case EscapeSingleQuote =>
        value, state := value + [c], SingleQuote;
      case EscapeDoubleQuote =>
        value, state := value + [c], DoubleQuote;
      case _ =>
        if c == QuoteOf(state) {
          kind := AfterQuote(input);
          return kind, value + [c];
        } else if c == '\\' {
          state := if state == SingleQuote then EscapeSingleQuote else EscapeDoubleQuote;
        } else {
          value := value + [c];
        }
    }
    kind := if state == SingleQuote || state == DoubleQuote then LexError else EndOfFile;
  }

  /** Parses a stream, token by token, with the block stack held in the machine. */
  method Parse(input: InputStream) returns (result: Option<Config>)
    requires input.Valid() && input.good
    modifies input
    ensures result == ParseText(old(input.Unread()))
  {
    ghost var whole := input.Unread();
    var machine := INITIAL;
    while true
      invariant input.Valid() && input.good && Valid(machine)
      invariant ParseText(whole) == ResumeText(machine, input.Unread())
      decreases |input.Unread()|
    {
      var kind, value := ParseToken(input);
      match kind
      case LexError => return None;
      case EndOfFile => return Finish(machine);
      case Comment =>
      case _ =>
        var step := Step(machine, AsToken(Lexed(kind, value, "")));
        if step == None {
          return None;
        }
        machine := step.value;
    }
  }
}
