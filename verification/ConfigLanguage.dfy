/** Exactly which texts the configuration parser accepts: a layout of a derivable token string, with at
    most one unfinished token at its end. */
module ConfigLanguage {
  import opened Wrappers
  import opened ConfigTree
  import opened ConfigGrammar
  import opened ConfigLexer
  import opened ConfigRoundTrip
  import opened ConfigLayout

  /** What the end of the file may cut off without an error: a plain word, a comment, or a quoted word
      just after a backslash. */
  ghost predicate IsUnfinished(t: string) {
    || t == ""
    || IsPlain(t)
    || (t[0] == '#' && forall c :: c in t ==> !IsLineEnd(c))
    || (IsQuote(t[0]) && exists body ::
          ValidSpelling(InQuotes(t[0], body)) && t == [t[0]] + (SpellInner(body) + "\\"))
  }

  ghost predicate IsLayout(s: string, lead: seq<Gap>, items: seq<Item>, tail: string) {
    && ValidGaps(lead) && ValidItems(items) && IsUnfinished(tail)
    && s == SpellGaps(lead) + (SpellItems(items) + tail)
  }

  // ----- unfinished ends are dropped

  lemma {:induction false} ScanUnended(value: string, w: string)
    requires forall i :: 0 <= i < |w| ==> !EndsWord(w[i])
    ensures Scan(InNormal, value, w) == Lexed(EndOfFile, value + w, "")
    decreases |w|
  {
    if w == "" {
      assert value + w == value;
    } else {
      ScanUnended(value + [w[0]], w[1..]);
      assert value + [w[0]] + w[1..] == value + w;
    }
  }

  lemma {:induction false} ScanOpenRemark(value: string, text: string)
    requires forall c :: c in text ==> !IsLineEnd(c)
    ensures Scan(InComment, value, text) == Lexed(EndOfFile, value + text, "")
    decreases |text|
  {
    if text == "" {
      assert value + text == value;
    } else {
      assert text[0] in text;
      ScanOpenRemark(value + [text[0]], text[1..]);
      assert value + [text[0]] + text[1..] == value + text;
    }
  }

  lemma {:induction false} ScanOpenQuote(q: char, value: string, body: seq<Inner>)
    requires ValidSpelling(InQuotes(q, body))
    ensures Scan(InsideQuote(q), value, SpellInner(body) + "\\").kind == EndOfFile
    decreases |body|
  {
    if body == [] {
      assert SpellInner(body) + "\\" == "\\";
      assert "\\"[1..] == "";
    } else {
      assert body[0] in body;
      Assoc(SpellOne(body[0]), SpellInner(body[1..]), "\\");
      ScanOne(q, value, body[0], SpellInner(body[1..]) + "\\");
      ScanOpenQuote(q, value + [body[0].c], body[1..]);
    }
  }

  lemma UnfinishedIsDropped(t: string)
    requires IsUnfinished(t)
    ensures LexAll(t) == Lexing([], true)
  {
    if t != "" {
      if IsPlain(t) {
        ScanUnended([t[0]], t[1..]);
        assert "" + [t[0]] == [t[0]];
      } else if t[0] == '#' {
        ScanOpenRemark("#", t[1..]);
      } else {
        var body :| ValidSpelling(InQuotes(t[0], body)) && t == [t[0]] + (SpellInner(body) + "\\");
        ScanOpenQuote(t[0], [t[0]], body);
        assert t[1..] == SpellInner(body) + "\\";
        assert NextToken(t) == Scan(InsideQuote(t[0]), [t[0]], t[1..]);
      }
    }
  }

  // ----- every text that lexes cleanly is a layout of its tokens

  function NonStops(s: string): (k: nat)
    ensures k <= |s| && (forall i :: 0 <= i < k ==> !EndsWord(s[i])) && (k < |s| ==> EndsWord(s[k]))
  {
    if s == "" || EndsWord(s[0]) then 0 else 1 + NonStops(s[1..])
  }

  function ToLineEnd(s: string): (k: nat)
    ensures k <= |s| && (forall i :: 0 <= i < k ==> !IsLineEnd(s[i])) && (k < |s| ==> IsLineEnd(s[k]))
  {
    if s == "" || IsLineEnd(s[0]) then 0 else 1 + ToLineEnd(s[1..])
  }

  /** Text after an opening quote that lexes without error: up to the closing quote, or to a last backslash. */
  lemma {:induction false} ReadInner(q: char, value: string, s: string) returns (body: seq<Inner>, closed: bool, rest: string)
    requires IsQuote(q) && Scan(InsideQuote(q), value, s).kind != LexError
    ensures ValidSpelling(InQuotes(q, body))
    ensures if closed then s == SpellInner(body) + ([q] + rest) && StartsWithStop(rest)
            else s == SpellInner(body) + "\\"
    decreases |s|
  {
    if s[0] == q {
      body, closed, rest := [], true, s[1..];
      assert s == "" + ([q] + rest);
    } else if s == "\\" {
      body, closed, rest := [], false, "";
      assert s == "" + s;
    } else {
      var x, next := if s[0] == '\\' then Escaped(s[1]) else Bare(s[0]), if s[0] == '\\' then s[2..] else s[1..];
      assert s == SpellOne(x) + next;
      ScanOne(q, value, x, next);
      var more;
      more, closed, rest := ReadInner(q, value + [x.c], next);
      body := [x] + more;
      assert body[1..] == more;
      Assoc(SpellOne(x), SpellInner(more), if closed then [q] + rest else "\\");
    }
  }

  /** A blank at the start opens the lead; punctuation at the start is the first item. */
  ghost predicate Opens(s: string, lead: seq<Gap>, items: seq<Item>) {
    && (s != "" && IsGap(s[0]) ==> lead != [] && lead[0] == Blank(s[0]))
    && (s != "" && EndsWord(s[0]) && !IsGap(s[0]) ==>
          lead == [] && items != [] && items[0].spelling == Punctuation(s[0]))
  }

  lemma PutGap(g: Gap, text: string, rest: string, lead: seq<Gap>, items: seq<Item>, tail: string)
    requires ValidGap(g) && SpellGaps([g]) == text && IsLayout(rest, lead, items, tail)
    ensures IsLayout(text + rest, [g] + lead, items, tail)
  {
    var all := [g] + lead;
    assert all[1..] == lead && [g][1..] == [];
    assert SpellGaps([g]) + SpellGaps(lead) == SpellGaps(all);
    Assoc(text, SpellGaps(lead), SpellItems(items) + tail);
  }

  lemma StopSeparates(sp: Spelling, rest: string, lead: seq<Gap>, items: seq<Item>)
    requires Opens(rest, lead, items) && (sp.Punctuation? || StartsWithStop(rest))
    ensures Separated(Item(sp, lead), items)
  {
  }

  lemma PutItem(sp: Spelling, rest: string, lead: seq<Gap>, items: seq<Item>, tail: string)
    requires ValidSpelling(sp) && IsLayout(rest, lead, items, tail) && Opens(rest, lead, items)
    requires sp.Punctuation? || StartsWithStop(rest)
    ensures IsLayout(Spell(sp) + rest, [], [Item(sp, lead)] + items, tail)
    ensures Meanings([Item(sp, lead)] + items) == [Meaning(sp)] + Meanings(items)
  {
    var all := [Item(sp, lead)] + items;
    assert all[1..] == items;
    StopSeparates(sp, rest, lead, items);
    assert ValidItems(all);
    MeaningsCons(Item(sp, lead), items);
    ItemsCons(all, tail);
    EmptyLead(Spell(sp) + rest);
  }

  lemma EmptyLead(text: string)
    ensures SpellGaps([]) + text == text
  {
  }

  /** An unfinished token is a layout of no tokens. */
  lemma OnlyTail(s: string)
    requires IsUnfinished(s)
    ensures IsLayout(s, [], [], s) && LexAll(s) == Lexing([], true)
  {
    UnfinishedIsDropped(s);
    assert s == "" + ("" + s);
  }

  lemma {:induction false} Decompose(s: string) returns (lead: seq<Gap>, items: seq<Item>, tail: string)
    requires LexAll(s).clean
    ensures IsLayout(s, lead, items, tail) && Opens(s, lead, items)
    ensures Meanings(items) == LexAll(s).tokens
    decreases |s|, 1
  {
    if s == "" {
      OnlyTail(s);
      lead, items, tail := [], [], s;
    } else if IsGap(s[0]) {
      assert s == [s[0]] + s[1..];
      LexBlank(s[0], s[1..]);
      lead, items, tail := Decompose(s[1..]);
      assert SpellGaps([Blank(s[0])]) == [s[0]];
      PutGap(Blank(s[0]), [s[0]], s[1..], lead, items, tail);
      lead := [Blank(s[0])] + lead;
    } else if s[0] == '#' {
      lead, items, tail := DecomposeRemark(s);
    } else if EndsWord(s[0]) {
      assert s == [s[0]] + s[1..];
      LexPunctuation(s[1..]);
      lead, items, tail := Decompose(s[1..]);
      PutItem(Punctuation(s[0]), s[1..], lead, items, tail);
      lead, items := [], [Item(Punctuation(s[0]), lead)] + items;
    } else if IsQuote(s[0]) {
      lead, items, tail := DecomposeQuoted(s);
    } else {
      lead, items, tail := DecomposePlain(s);
    }
  }

  lemma {:induction false} DecomposeRemark(s: string) returns (lead: seq<Gap>, items: seq<Item>, tail: string)
    requires LexAll(s).clean && s != "" && s[0] == '#'
    ensures IsLayout(s, lead, items, tail) && Opens(s, lead, items)
    ensures Meanings(items) == LexAll(s).tokens
    decreases |s|, 0
  {
    var k := ToLineEnd(s);
    if k == |s| {
      OnlyTail(s);
      lead, items, tail := [], [], s;
    } else {
      var g, rest := Remark(s[1..k], s[k]), s[k + 1..];
      RemarkText(s, k);
      LexGaps([g], rest);
      lead, items, tail := Decompose(rest);
      PutGap(g, SpellGaps([g]), rest, lead, items, tail);
      lead := [g] + lead;
    }
  }

  lemma RemarkText(s: string, k: nat)
    requires 1 <= k < |s| && s[0] == '#' && IsLineEnd(s[k]) && forall i :: 0 <= i < k ==> !IsLineEnd(s[i])
    ensures ValidGap(Remark(s[1..k], s[k])) && s == SpellGaps([Remark(s[1..k], s[k])]) + s[k + 1..]
  {
    var g := Remark(s[1..k], s[k]);
    assert [g][1..] == [];
    assert SpellGaps([g]) == "#" + s[1..k] + [s[k]];
  }

  lemma {:induction false} DecomposeQuoted(s: string) returns (lead: seq<Gap>, items: seq<Item>, tail: string)
    requires LexAll(s).clean && s != "" && IsQuote(s[0])
    ensures IsLayout(s, lead, items, tail) && Opens(s, lead, items)
    ensures Meanings(items) == LexAll(s).tokens
    decreases |s|, 0
  {
    var q := s[0];
    assert !IsGap(q) && !EndsWord(q);
    assert NextToken(s) == Scan(InsideQuote(q), [q], s[1..]);
    var body, closed, rest := ReadInner(q, [q], s[1..]);
    assert s == [q] + s[1..];
    if closed {
      var sp := InQuotes(q, body);
      QuotedText(q, body, rest);
      LexSpelling(sp, rest);
      lead, items, tail := Decompose(rest);
      PutItem(sp, rest, lead, items, tail);
      lead, items := [], [Item(sp, lead)] + items;
    } else {
      OnlyTail(s);
      lead, items, tail := [], [], s;
    }
  }

  lemma QuotedText(q: char, body: seq<Inner>, rest: string)
    ensures [q] + (SpellInner(body) + ([q] + rest)) == Spell(InQuotes(q, body)) + rest
  {
    Assoc([q] + SpellInner(body), [q], rest);
    Assoc([q], SpellInner(body), [q] + rest);
  }

  lemma {:induction false} DecomposePlain(s: string) returns (lead: seq<Gap>, items: seq<Item>, tail: string)
    requires LexAll(s).clean && s != "" && StartsPlain(s[0])
    ensures IsLayout(s, lead, items, tail) && Opens(s, lead, items)
    ensures Meanings(items) == LexAll(s).tokens
    decreases |s|, 0
  {
    var k := NonStops(s);
    assert !IsGap(s[0]) && !EndsWord(s[0]);
    if k == |s| {
      OnlyTail(s);
      lead, items, tail := [], [], s;
    } else {
      var w, rest := s[..k], s[k..];
      assert s == w + rest;
      LexPrintableWord(w, rest);
      lead, items, tail := Decompose(rest);
      PutItem(Plain(w), rest, lead, items, tail);
      lead, items := [], [Item(Plain(w), lead)] + items;
    }
  }

  lemma LayoutTokens(s: string, lead: seq<Gap>, items: seq<Item>, tail: string)
    requires IsLayout(s, lead, items, tail)
    ensures LexAll(s) == Lexing(Meanings(items), true)
  {
    LexGaps(lead, SpellItems(items) + tail);
    LexItems(items, tail);
    UnfinishedIsDropped(tail);
    assert Meanings(items) + [] == Meanings(items);
  }

  /** A text parses to c exactly when it is a layout of the tokens that c derives, possibly followed by an
      unfinished token. */
  lemma AcceptedTexts(s: string, c: Config)
    ensures ParseText(s) == Some(c) <==>
            WellFormed(c) && exists lead, items, tail :: IsLayout(s, lead, items, tail) && Meanings(items) == Yield(c)
  {
    if ParseText(s) == Some(c) {
      GrammarEquivalence(LexAll(s).tokens, c);
      var lead, items, tail := Decompose(s);
      assert IsLayout(s, lead, items, tail) && Meanings(items) == Yield(c);
    }
    if WellFormed(c) && exists lead, items, tail :: IsLayout(s, lead, items, tail) && Meanings(items) == Yield(c) {
      var lead, items, tail :| IsLayout(s, lead, items, tail) && Meanings(items) == Yield(c);
      LayoutTokens(s, lead, items, tail);
      GrammarEquivalence(Meanings(items), c);
    }
  }
}
