/** Which texts survive being parsed and printed: exactly those whose quoted words need no escape. */
module ConfigReprint {
  import opened Wrappers
  import opened ConfigTree
  import opened ConfigGrammar
  import opened ConfigLexer
  import opened ConfigRoundTrip
  import opened ConfigLayout
  import opened ConfigLanguage

  // ----- printability, read off the tokens

  predicate PrintableToken(t: Token) {
    t.Word? ==> PrintableWord(t.text)
  }

  predicate PrintableTokens(ts: seq<Token>) {
    forall i :: 0 <= i < |ts| ==> PrintableToken(ts[i])
  }

  lemma PrintableConcat(a: seq<Token>, b: seq<Token>)
    ensures PrintableTokens(a + b) <==> PrintableTokens(a) && PrintableTokens(b)
  {
    if PrintableTokens(a + b) {
      assert forall i :: 0 <= i < |a| ==> (a + b)[i] == a[i];
      forall i | 0 <= i < |b| ensures PrintableToken(b[i]) {
        assert (a + b)[|a| + i] == b[i];
      }
    }
  }

  lemma PrintableWords(ws: seq<string>)
    ensures PrintableTokens(Words(ws)) <==> forall w :: w in ws ==> PrintableWord(w)
  {
    if PrintableTokens(Words(ws)) {
      forall w | w in ws ensures PrintableWord(w) {
        var i :| 0 <= i < |ws| && ws[i] == w;
        assert PrintableToken(Words(ws)[i]);
      }
    }
  }

  lemma {:induction false} StatementPrintable(s: Statement)
    ensures PrintableStatement(s) <==> PrintableTokens(YieldStatement(s))
    decreases s, 1
  {
    PrintableWords(s.tokens);
    match s
    case Simple(_) => PrintableConcat(Words(s.tokens), [EndStatement]);
    case Block(_, child) =>
      ConfigPrintable(child);
      PrintableConcat([OpenBlock], Yield(child));
      PrintableConcat([OpenBlock] + Yield(child), [CloseBlock]);
      PrintableConcat(Words(s.tokens), [OpenBlock] + Yield(child) + [CloseBlock]);
  }

  lemma {:induction false} ConfigPrintable(c: Config)
    ensures Printable(c) <==> PrintableTokens(Yield(c))
    decreases c, 0
  {
    if c != [] {
      StatementPrintable(c[0]);
      ConfigPrintable(c[1..]);
      PrintableConcat(YieldStatement(c[0]), Yield(c[1..]));
    }
  }

  // ----- and off the layout

  /** No character of a quoted word is its own quote or a backslash, the two that only an escape can spell. */
  predicate NeedsNoEscape(sp: Spelling) {
    sp.InQuotes? ==> forall x :: x in sp.body ==> x.c != sp.quote && x.c != '\\'
  }

  lemma {:induction false} UnescapedAt(body: seq<Inner>)
    ensures |Unescaped(body)| == |body| && forall i :: 0 <= i < |body| ==> Unescaped(body)[i] == body[i].c
  {
    if body != [] {
      UnescapedAt(body[1..]);
    }
  }

  lemma QuotedIsClean(q: char, text: string)
    requires IsQuote(q)
    ensures PrintableWord([q] + text + [q]) <==> forall i :: 0 <= i < |text| ==> text[i] != q && text[i] != '\\'
  {
    var w := [q] + text + [q];
    if IsClean(w) {
      forall i | 0 <= i < |text| ensures text[i] != q && text[i] != '\\' {
        assert w[i + 1] == text[i];
      }
    }
  }

  lemma SpellingPrintable(sp: Spelling)
    requires ValidSpelling(sp)
    ensures PrintableToken(Meaning(sp)) <==> NeedsNoEscape(sp)
  {
    if sp.InQuotes? {
      UnescapedAt(sp.body);
      QuotedIsClean(sp.quote, Unescaped(sp.body));
      if PrintableToken(Meaning(sp)) {
        forall x | x in sp.body ensures x.c != sp.quote && x.c != '\\' {
          var i :| 0 <= i < |sp.body| && sp.body[i] == x;
          assert Unescaped(sp.body)[i] == x.c;
        }
      } else {
        var i :| 0 <= i < |sp.body| && (Unescaped(sp.body)[i] == sp.quote || Unescaped(sp.body)[i] == '\\');
        assert sp.body[i] in sp.body;
      }
    }
  }

  lemma {:induction false} ItemAt(items: seq<Item>, i: nat)
    requires ValidItems(items) && i < |items|
    ensures ValidSpelling(items[i].spelling)
    decreases |items|
  {
    if i > 0 {
      ItemAt(items[1..], i - 1);
    }
  }

  /** An accepted text can be parsed, printed at any depth and parsed to the same tree if and only if none of its
      quoted words contains its own quote or a backslash. */
  lemma ReprintIsFaithful(s: string, lead: seq<Gap>, items: seq<Item>, tail: string, c: Config, depth: nat)
    requires IsLayout(s, lead, items, tail) && ParseText(s) == Some(c)
    ensures ParseText(Print(c, depth)) == Some(c) <==>
            forall i :: 0 <= i < |items| ==> NeedsNoEscape(items[i].spelling)
  {
    LayoutTokens(s, lead, items, tail);
    GrammarEquivalence(LexAll(s).tokens, c);
    RoundTrip(c, depth);
    ConfigPrintable(c);
    forall i | 0 <= i < |items|
      ensures PrintableToken(Meanings(items)[i]) <==> NeedsNoEscape(items[i].spelling)
    {
      ItemAt(items, i);
      SpellingPrintable(items[i].spelling);
    }
  }

  /** The text '\''; has a tree that does not come back, at any depth. */
  lemma EscapedQuoteIsLost(depth: nat)
    ensures
      var text, c := "'\\'';", [Simple(["'''"])];
      ParseText(text) == Some(c) && ParseText(Print(c, depth)) != Some(c)
  {
    var text, c := "'\\'';", [Simple(["'''"])];
    var items := [Item(InQuotes('\'', [Escaped('\'')]), []), Item(Punctuation(';'), [])];
    WitnessLayout(items);
    assert [Simple(["'''"])][1..] == [];
    assert Words(["'''"]) == [Word("'''")];
    assert Yield(c) == [Word("'''"), EndStatement];
    AcceptedTexts(text, c);
    ReprintIsFaithful(text, [], items, "", c, depth);
    assert Escaped('\'') in items[0].spelling.body && !NeedsNoEscape(items[0].spelling);
  }

  lemma WitnessLayout(items: seq<Item>)
    requires items == [Item(InQuotes('\'', [Escaped('\'')]), []), Item(Punctuation(';'), [])]
    ensures IsLayout("'\\'';", [], items, "") && Meanings(items) == [Word("'''"), EndStatement]
  {
    var quoted, mark := items[0], items[1];
    assert items[1..] == [mark] && [mark][1..] == [] && [Escaped('\'')][1..] == [];
    assert ValidItems([mark]) && ValidItems(items);
    assert SpellInner([Escaped('\'')]) == "\\'" + SpellInner([]);
    assert Spell(quoted.spelling) == "'\\''";
    assert SpellItems([mark]) == ";" + ("" + SpellItems([]));
    assert SpellItems(items) == "'\\''" + ("" + SpellItems([mark]));
    assert Unescaped([Escaped('\'')]) == "'" + Unescaped([]);
    assert Meaning(quoted.spelling) == Word("'''");
  }
}
