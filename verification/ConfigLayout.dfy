/** Blanks, comments and the spelling of quoted words do not matter to the parsed tree. */
module ConfigLayout {
  import opened Wrappers
  import opened ConfigTree
  import opened ConfigLexer
  import opened ConfigRoundTrip

  /** A piece of separation: one blank character, or a whole comment with its line end. */
  datatype Gap = Blank(c: char) | Remark(text: string, eol: char)

  /** A character between quotes, written as itself or after a backslash. */
  datatype Inner = Bare(c: char) | Escaped(c: char)

  datatype Spelling =
    | Plain(word: string)
    | InQuotes(quote: char, body: seq<Inner>)
    | Punctuation(mark: char)

  datatype Item = Item(spelling: Spelling, gaps: seq<Gap>)

  predicate IsLineEnd(c: char) {
    c == '\n' || c == '\r'
  }

  predicate ValidGap(g: Gap) {
    match g
    case Blank(c) => IsGap(c)
    case Remark(text, eol) => IsLineEnd(eol) && forall c :: c in text ==> !IsLineEnd(c)
  }

  predicate ValidSpelling(s: Spelling) {
    match s
    case Plain(w) => IsPlain(w)
    case InQuotes(q, body) => IsQuote(q) && forall x :: x in body && x.Bare? ==> x.c != q && x.c != '\\'
    case Punctuation(mark) => mark in {';', '{', '}'}
  }

  /** After a word comes a blank that ends it, or the next punctuation mark at once. */
  predicate Separated(item: Item, rest: seq<Item>) {
    || item.spelling.Punctuation?
    || (item.gaps != [] && item.gaps[0].Blank? && EndsWord(item.gaps[0].c))
    || (item.gaps == [] && rest != [] && rest[0].spelling.Punctuation?)
  }

  predicate ValidItems(items: seq<Item>) {
    items == [] ||
    (&& ValidSpelling(items[0].spelling)
     && (forall g :: g in items[0].gaps ==> ValidGap(g))
     && Separated(items[0], items[1..])
     && ValidItems(items[1..]))
  }

  function Spell(s: Spelling): string {
    match s
    case Plain(w) => w
    case InQuotes(q, body) => [q] + SpellInner(body) + [q]
    case Punctuation(mark) => [mark]
  }

  function SpellInner(body: seq<Inner>): string {
    if body == [] then ""
    else SpellOne(body[0]) + SpellInner(body[1..])
  }

  function SpellOne(x: Inner): string {
    if x.Bare? then [x.c] else ['\\', x.c]
  }

  function Unescaped(body: seq<Inner>): string {
    if body == [] then "" else [body[0].c] + Unescaped(body[1..])
  }

  function SpellGaps(gaps: seq<Gap>): string {
    if gaps == [] then ""
    else (match gaps[0]
          case Blank(c) => [c]
          case Remark(text, eol) => "#" + text + [eol]) + SpellGaps(gaps[1..])
  }

  function SpellItems(items: seq<Item>): string {
    if items == [] then ""
    else Spell(items[0].spelling) + (SpellGaps(items[0].gaps) + SpellItems(items[1..]))
  }

  /** The token a spelling stands for: an escaped character stands for itself. */
  function Meaning(s: Spelling): Token {
    match s
    case Plain(w) => Word(w)
    case InQuotes(q, body) => Word([q] + Unescaped(body) + [q])
    case Punctuation(mark) => if mark == ';' then EndStatement else if mark == '{' then OpenBlock else CloseBlock
  }

  function Meanings(items: seq<Item>): seq<Token> {
    seq(|items|, i requires 0 <= i < |items| => Meaning(items[i].spelling))
  }

  lemma {:induction false} ScanRemark(value: string, text: string, eol: char, rest: string)
    requires IsLineEnd(eol) && forall c :: c in text ==> !IsLineEnd(c)
    ensures Scan(InComment, value, text + [eol] + rest) == Lexed(Comment, value + text, rest)
    decreases |text|
  {
    var input := text + [eol] + rest;
    if text == "" {
      assert input[0] == eol && input[1..] == rest;
      assert value + text == value;
    } else {
      assert text[0] in text;
      assert input[0] == text[0] && input[1..] == text[1..] + [eol] + rest;
      ScanRemark(value + [text[0]], text[1..], eol, rest);
      assert value + [text[0]] + text[1..] == value + text;
    }
  }

  lemma {:induction false} LexGaps(gaps: seq<Gap>, rest: string)
    requires forall g :: g in gaps ==> ValidGap(g)
    ensures LexAll(SpellGaps(gaps) + rest) == LexAll(rest)
    decreases |gaps|
  {
    if gaps == [] {
      assert SpellGaps(gaps) + rest == rest;
    } else {
      var tail := SpellGaps(gaps[1..]) + rest;
      LexGaps(gaps[1..], rest);
      assert ValidGap(gaps[0]);
      match gaps[0]
      case Blank(c) =>
        assert SpellGaps(gaps) + rest == [c] + tail;
        LexBlank(c, tail);
      case Remark(text, eol) =>
        assert SpellGaps(gaps) + rest == "#" + (text + [eol] + tail);
        assert ("#" + (text + [eol] + tail))[1..] == text + [eol] + tail;
        ScanRemark("#", text, eol, tail);
    }
  }

  lemma {:induction false} ScanInner(q: char, value: string, body: seq<Inner>, rest: string)
    requires IsQuote(q) && StartsWithStop(rest)
    requires forall x :: x in body && x.Bare? ==> x.c != q && x.c != '\\'
    ensures Scan(InsideQuote(q), value, SpellInner(body) + ([q] + rest)) ==
            Lexed(NormalToken, value + (Unescaped(body) + [q]), rest)
    decreases |body|
  {
    if body == [] {
      assert ([q] + rest)[1..] == rest;
      assert SpellInner(body) + ([q] + rest) == [q] + rest;
      assert value + (Unescaped(body) + [q]) == value + [q];
    } else {
      var tail := SpellInner(body[1..]) + ([q] + rest);
      assert body[0] in body;
      InnerCons(value, body, [q], rest);
      ScanInner(q, value + [body[0].c], body[1..], rest);
      ScanOne(q, value, body[0], tail);
    }
  }

  lemma InnerCons(value: string, body: seq<Inner>, close: string, rest: string)
    requires body != []
    ensures SpellInner(body) + (close + rest) == SpellOne(body[0]) + (SpellInner(body[1..]) + (close + rest))
    ensures value + [body[0].c] + (Unescaped(body[1..]) + close) == value + (Unescaped(body) + close)
  {
    Assoc(SpellOne(body[0]), SpellInner(body[1..]), close + rest);
    Assoc([body[0].c], Unescaped(body[1..]), close);
    Assoc(value, [body[0].c], Unescaped(body[1..]) + close);
  }

  lemma ScanOne(q: char, value: string, x: Inner, tail: string)
    requires IsQuote(q) && (x.Bare? ==> x.c != q && x.c != '\\')
    ensures Scan(InsideQuote(q), value, SpellOne(x) + tail) == Scan(InsideQuote(q), value + [x.c], tail)
  {
    var input := SpellOne(x) + tail;
    if x.Bare? {
      assert input[0] == x.c && input[1..] == tail;
    } else {
      assert input[0] == '\\' && input[1..] == [x.c] + tail;
      assert ([x.c] + tail)[1..] == tail;
      assert Scan(InsideQuote(q), value, input) == Scan(InsideEscape(q), value, [x.c] + tail);
    }
  }

  lemma NextQuoted(q: char, body: seq<Inner>, rest: string)
    requires ValidSpelling(InQuotes(q, body)) && StartsWithStop(rest)
    ensures NextToken([q] + (SpellInner(body) + ([q] + rest))) == Lexed(NormalToken, [q] + (Unescaped(body) + [q]), rest)
  {
    var tail := SpellInner(body) + ([q] + rest);
    assert ([q] + tail)[0] == q && ([q] + tail)[1..] == tail;
    ScanInner(q, [q], body, rest);
    assert NextToken([q] + tail) == Scan(InsideQuote(q), [q], tail);
  }

  lemma LexSpelling(s: Spelling, rest: string)
    requires ValidSpelling(s) && (s.Punctuation? || StartsWithStop(rest))
    ensures LexAll(Spell(s) + rest) == Prepend([Meaning(s)], LexAll(rest))
  {
    match s
    case Plain(w) => LexPrintableWord(w, rest);
    case InQuotes(q, body) =>
      NextQuoted(q, body, rest);
      Assoc([q] + SpellInner(body), [q], rest);
      Assoc([q], SpellInner(body), [q] + rest);
      Assoc([q], Unescaped(body), [q]);
    case Punctuation(mark) => LexPunctuation(rest);
  }

  lemma SeparatedStops(item: Item, rest: seq<Item>, tail: string)
    requires Separated(item, rest) && !item.spelling.Punctuation? && ValidItems(rest)
    ensures StartsWithStop(SpellGaps(item.gaps) + (SpellItems(rest) + tail))
  {
  }

  lemma LexItem(item: Item, rest: seq<Item>, tail: string)
    requires ValidItems([item] + rest)
    ensures LexAll(Spell(item.spelling) + (SpellGaps(item.gaps) + (SpellItems(rest) + tail))) ==
            Prepend([Meaning(item.spelling)], LexAll(SpellItems(rest) + tail))
  {
    assert ([item] + rest)[1..] == rest;
    if !item.spelling.Punctuation? {
      SeparatedStops(item, rest, tail);
    }
    LexSpelling(item.spelling, SpellGaps(item.gaps) + (SpellItems(rest) + tail));
    LexGaps(item.gaps, SpellItems(rest) + tail);
  }

  lemma MeaningsCons(item: Item, rest: seq<Item>)
    ensures Meanings([item] + rest) == [Meaning(item.spelling)] + Meanings(rest)
  {
  }

  lemma {:induction false} LexItems(items: seq<Item>, tail: string)
    requires ValidItems(items)
    ensures LexAll(SpellItems(items) + tail) == Prepend(Meanings(items), LexAll(tail))
    decreases |items|
  {
    if items == [] {
      assert SpellItems(items) + tail == tail;
      assert Meanings(items) + LexAll(tail).tokens == LexAll(tail).tokens;
    } else {
      var item, rest := items[0], items[1..];
      assert items == [item] + rest;
      ItemsCons(items, tail);
      LexItem(item, rest, tail);
      LexItems(rest, tail);
      MeaningsCons(item, rest);
      PrependTwice([Meaning(item.spelling)], Meanings(rest), LexAll(tail));
    }
  }

  lemma ItemsCons(items: seq<Item>, tail: string)
    requires items != []
    ensures SpellItems(items) + tail ==
            Spell(items[0].spelling) + (SpellGaps(items[0].gaps) + (SpellItems(items[1..]) + tail))
  {
    Assoc(Spell(items[0].spelling), SpellGaps(items[0].gaps) + SpellItems(items[1..]), tail);
    Assoc(SpellGaps(items[0].gaps), SpellItems(items[1..]), tail);
  }

  predicate ValidGaps(gaps: seq<Gap>) {
    forall i :: 0 <= i < |gaps| ==> ValidGap(gaps[i])
  }

  /** Two texts with the same tokens, whatever separates and spells them, lex and parse alike. */
  lemma LayoutIndependence(lead1: seq<Gap>, items1: seq<Item>, lead2: seq<Gap>, items2: seq<Item>)
    requires ValidItems(items1) && ValidItems(items2) && Meanings(items1) == Meanings(items2)
    requires ValidGaps(lead1) && ValidGaps(lead2)
    ensures
      var text1, text2 := SpellGaps(lead1) + SpellItems(items1), SpellGaps(lead2) + SpellItems(items2);
      LexAll(text1) == LexAll(text2) && ParseText(text1) == ParseText(text2)
  {
    LexGaps(lead1, SpellItems(items1));
    LexGaps(lead2, SpellItems(items2));
    LexItems(items1, "");
    LexItems(items2, "");
    assert SpellItems(items1) + "" == SpellItems(items1) && SpellItems(items2) + "" == SpellItems(items2);
  }
}
