/** Queries of the program's own tests, and what they expect. */
module KnownQueries {
  import opened CStrings
  import opened Tokenizer
  import opened Search
  import opened Clauses
  import opened LimitRewrite
  import opened CharacterCodes
  import opened Sentences

  function W(text: string, gap: string): Word {
    Word(Codes(text), Codes(gap))
  }

  /** A text without blanks, commas and semicolons that does not begin with a quote, or one such sign. */
  predicate PlainText(text: string) {
    && text != "" && text[0] !in {'\'', '"', ' '} && (forall i :: 0 <= i < |text| ==> 32 <= text[i] as int < 128)
    && forall i :: 1 <= i < |text| ==> text[i] !in {' ', ',', ';'}
  }

  lemma PlainWord(text: string, gap: string, more: seq<Word>)
    requires PlainText(text) && (gap == " " || (gap == "" && (more == [] || SignFirst(more[0]))))
    ensures ProperWord(W(text, gap), more)
  {
    var t := Codes(text);
    assert forall i :: 0 <= i < |text| ==> t[i] == text[i] as int;
  }

  predicate SignFirst(w: Word) {
    w.text == Codes(",") || w.text == Codes(";")
  }

  lemma {:induction false} ProperFrom(ws: seq<Word>)
    requires forall i :: 0 <= i < |ws| ==> ProperWord(ws[i], ws[i + 1..])
    ensures Proper(ws)
    decreases |ws|
  {
    if ws == [] {
    } else {
      forall i | 0 <= i < |ws[1..]| ensures ProperWord(ws[1..][i], ws[1..][i + 1..]) {
        assert ws[1..][i + 1..] == ws[i + 2..];
      }
      ProperFrom(ws[1..]);
    }
  }

  // ----- the LIMIT test -----

  /** The parts of the query: SELECT, the columns, FROM, WHERE, and LIMIT. */
  const COLUMNS: string := "option_name, option_value "
  const FROM_PART: string := "FROM wp_options "
  const WHERE_PART: string := "WHERE autoload = 'yes' "

  const LIMIT_TEST: seq<Word> :=
    [W("SELECT", " "), W("option_name", ""), W(",", " "), W("option_value", " "), W("FROM", " "), W("wp_options", " "),
     W("WHERE", " "), W("autoload", " "), W("=", " "), W("'yes'", " "), W("LIMIT", " "), W("100", ""), W(";", "")]

  lemma YesQuoted(more: seq<Word>)
    ensures ProperWord(W("'yes'", " "), more)
  {
    var t := Codes("'yes'");
    assert |t| == 5 && t[0] == t[4] == 39 && t[1] == 121 && t[2] == 101 && t[3] == 115;
  }

  lemma PlainKeywords()
    ensures PlainText("SELECT") && PlainText("FROM") && PlainText("WHERE") && PlainText("LIMIT")
  {
  }

  lemma PlainColumns()
    ensures PlainText("option_name") && PlainText("option_value")
    ensures PlainText("wp_options") && PlainText("autoload")
  {
  }

  lemma PlainSigns()
    ensures PlainText(",") && PlainText("=") && PlainText("100") && PlainText(";")
  {
  }

  lemma LimitTestProper()
    ensures Proper(LIMIT_TEST)
  {
    var ws := LIMIT_TEST;
    hide PlainText, ProperWord, Codes;
    PlainKeywords();
    PlainColumns();
    PlainSigns();
    PlainWord("SELECT", " ", ws[1..]);
    PlainWord("option_name", "", ws[2..]);
    PlainWord(",", " ", ws[3..]);
    PlainWord("option_value", " ", ws[4..]);
    PlainWord("FROM", " ", ws[5..]);
    PlainWord("wp_options", " ", ws[6..]);
    PlainWord("WHERE", " ", ws[7..]);
    PlainWord("autoload", " ", ws[8..]);
    PlainWord("=", " ", ws[9..]);
    YesQuoted(ws[10..]);
    PlainWord("LIMIT", " ", ws[11..]);
    PlainWord("100", "", ws[12..]);
    PlainWord(";", "", ws[13..]);
    ProperFrom(ws);
  }

  /** One word more in front, in the sentence and in the text. */
  lemma OneMore(text: string, gap: string, more: seq<Word>, rest: string)
    requires Sentence(more) == Codes(rest)
    ensures Sentence([W(text, gap)] + more) == Codes(text + gap + rest)
  {
    assert ([W(text, gap)] + more)[1..] == more;
    assert Sentence([W(text, gap)] + more) == Codes(text) + (Codes(gap) + Codes(rest));
    CodesAppend(text + gap, rest);
    CodesAppend(text, gap);
  }

  lemma WhereText()
    ensures Sentence([W("WHERE", " "), W("autoload", " "), W("=", " "), W("'yes'", " ")]) == Codes(WHERE_PART)
  {
    hide Codes;
    EmptySentence();
    OneMore("'yes'", " ", [], "");
    OneMore("=", " ", [W("'yes'", " ")], "'yes'" + " " + "");
    var ws := [W("=", " ")] + [W("'yes'", " ")];
    OneMore("autoload", " ", ws, "=" + " " + ("'yes'" + " " + ""));
    OneMore("WHERE", " ", [W("autoload", " ")] + ws, "autoload" + " " + ("=" + " " + ("'yes'" + " " + "")));
    assert [W("WHERE", " ")] + ([W("autoload", " ")] + ws) ==
           [W("WHERE", " "), W("autoload", " "), W("=", " "), W("'yes'", " ")];
    assert "WHERE" + " " + ("autoload" + " " + ("=" + " " + ("'yes'" + " " + ""))) == WHERE_PART;
  }

  lemma FromText(more: seq<Word>, rest: string)
    requires Sentence(more) == Codes(rest)
    ensures Sentence([W("FROM", " "), W("wp_options", " ")] + more) == Codes(FROM_PART + rest)
  {
    hide Codes;
    OneMore("wp_options", " ", more, rest);
    OneMore("FROM", " ", [W("wp_options", " ")] + more, "wp_options" + " " + rest);
    assert [W("FROM", " ")] + ([W("wp_options", " ")] + more) == [W("FROM", " "), W("wp_options", " ")] + more;
    assert "FROM" + " " + ("wp_options" + " " + rest) == FROM_PART + rest;
  }

  lemma ColumnsText(more: seq<Word>, rest: string)
    requires Sentence(more) == Codes(rest)
    ensures Sentence([W("option_name", ""), W(",", " "), W("option_value", " ")] + more) == Codes(COLUMNS + rest)
  {
    hide Codes, Sentence, W;
    var c := [W("option_value", " ")] + more;
    OneMore("option_value", " ", more, rest);
    OneMore(",", " ", c, "option_value" + " " + rest);
    OneMore("option_name", "", [W(",", " ")] + c, "," + " " + ("option_value" + " " + rest));
    Three(W("option_name", ""), W(",", " "), W("option_value", " "), more);
    ColumnsString(rest);
  }

  lemma Three(a: Word, b: Word, c: Word, more: seq<Word>)
    ensures [a] + ([b] + ([c] + more)) == [a, b, c] + more
  {
  }

  lemma ColumnsString(rest: string)
    ensures "option_name" + "" + ("," + " " + ("option_value" + " " + rest)) == COLUMNS + rest
  {
    assert "option_name" + "" + ("," + " " + ("option_value" + " ")) == COLUMNS;
  }

  /** The text between SELECT and LIMIT. */
  lemma MiddleText()
    ensures Sentence(LIMIT_TEST[1..10]) == Codes(COLUMNS + (FROM_PART + WHERE_PART))
  {
    hide Codes, Sentence;
    var where := [W("WHERE", " "), W("autoload", " "), W("=", " "), W("'yes'", " ")];
    WhereText();
    FromText(where, WHERE_PART);
    ColumnsText([W("FROM", " "), W("wp_options", " ")] + where, FROM_PART + WHERE_PART);
    assert LIMIT_TEST[1..10] ==
           [W("option_name", ""), W(",", " "), W("option_value", " ")] +
           ([W("FROM", " "), W("wp_options", " ")] + where);
  }

  const LIMIT_QUERY: string := "SELECT " + (COLUMNS + (FROM_PART + WHERE_PART)) + "LIMIT 100;"
  const LIMIT_EXPECTED: string := "SELECT TOP  100 " + (COLUMNS + (FROM_PART + WHERE_PART)) + ";"

  lemma LimitTail()
    ensures Sentence(LIMIT_TEST[12..]) == Codes(";") && LIMIT_TEST[10].text + LIMIT_TEST[10].gap == Codes("LIMIT ")
  {
    assert LIMIT_TEST[12..] == [W(";", "")];
    OneWord(W(";", ""));
    CodesAppend("LIMIT", " ");
  }

  lemma LimitTestIsSentence()
    ensures LimitSentence(LIMIT_TEST, 10)
  {
    LimitTestProper();
    hide Proper;
    assert forall i :: 0 <= i < 10 ==> Lower(LIMIT_TEST[i].text[0]) != Lower(LIMIT[0]);
  }

  lemma SelectText()
    ensures LIMIT_TEST[0].text + LIMIT_TEST[0].gap == Codes("SELECT ")
  {
    CodesAppend("SELECT", " ");
  }

  /** The query of the test is the sentence. */
  lemma LimitTestText()
    ensures Codes(LIMIT_QUERY) == Sentence(LIMIT_TEST)
  {
    hide Sentence, LimitSentence;
    LimitTestIsSentence();
    SentenceParts(LIMIT_TEST, 10);
    SelectText();
    MiddleText();
    LimitTail();
    var ws := LIMIT_TEST;
    assert ws[11].text + (ws[11].gap + Sentence(ws[12..])) == Codes("100;");
    hide Codes;
    JoinCodes("SELECT ", COLUMNS + (FROM_PART + WHERE_PART), "LIMIT ", "100;");
    LimitWords();
  }

  lemma JoinCodes(a: string, b: string, c: string, d: string)
    ensures Codes(a + b + (c + d)) == Codes(a) + Codes(b) + Codes(c) + Codes(d)
  {
    CodesAppend(a + b, c + d);
    CodesAppend(a, b);
    CodesAppend(c, d);
  }

  lemma LimitWords()
    ensures "LIMIT " + "100;" == "LIMIT 100;"
  {
  }

  /** The test's query becomes what the test expects, to the character, inside its own length. */
  lemma LimitTestPasses()
    ensures var s := Codes(LIMIT_QUERY);
            PlanOf(s).Move? && WellPlaced(s, PlanOf(s)) && Rewritten(s, PlanOf(s)) == Codes(LIMIT_EXPECTED)
  {
    hide Sentence, LimitSentence, Rewritten, WellPlaced, PlanOf;
    LimitTestText();
    LimitTestIsSentence();
    LimitMovedInSentence(LIMIT_TEST, 10);
    SelectText();
    MiddleText();
    LimitTail();
    var ws, middle := LIMIT_TEST, COLUMNS + (FROM_PART + WHERE_PART);
    assert ws[11].gap + Sentence(ws[12..]) == Codes(";") && ws[11].text == Codes("100");
    hide Codes;
    ExpectedCodes("SELECT ", "TOP  ", "100", " ", middle, ";");
    ExpectedWords(middle);
  }

  lemma ExpectedCodes(a: string, b: string, c: string, d: string, e: string, f: string)
    ensures Codes(a + (b + (c + (d + (e + f))))) ==
            Codes(a) + (Codes(b) + (Codes(c) + (Codes(d) + (Codes(e) + Codes(f)))))
  {
    hide Codes;
    CodesAppend(a, b + (c + (d + (e + f))));
    CodesAppend(b, c + (d + (e + f)));
    CodesAppend(c, d + (e + f));
    CodesAppend(d, e + f);
    CodesAppend(e, f);
  }

  lemma ExpectedWords(middle: string)
    ensures "SELECT " + ("TOP  " + ("100" + (" " + (middle + ";")))) == "SELECT TOP  100 " + middle + ";"
  {
    assert "SELECT " + ("TOP  " + ("100" + " ")) == "SELECT TOP  100 ";
  }

  /** Its tokens are the words the tests expect. */
  lemma LimitTestTokens()
    ensures |Tokens(Codes(LIMIT_QUERY))| == |LIMIT_TEST| == 13
    ensures forall i :: 0 <= i < 13 ==> Tokens(Codes(LIMIT_QUERY))[i] == LIMIT_TEST[i].text
  {
    hide Proper, Sentence, Tokens, Codes, W;
    LimitTestText();
    LimitTestProper();
    TokensOfSentence(LIMIT_TEST);
    TextsAt(LIMIT_TEST);
  }

  // ----- the backslash test -----

  const QUOTE_TEST: seq<Word> := [W("baz", " "), W("=", " "), W("'hello how are you\\' today'", "")]

  /** A quote behind a backslash does not close. */
  lemma BackslashQuote()
    ensures ProperWord(W("'hello how are you\\' today'", ""), [])
  {
    var t := Codes("'hello how are you\\' today'");
    assert |t| == 27 && t[0] == t[19] == t[26] == 39 && t[18] == 92 && t[25] == 121;
    assert forall i :: 0 < i < 26 && t[i] == 39 ==> i == 19;
  }

  lemma QuoteTestTokens()
    ensures Tokens(Codes("baz = " + "'hello how are you\\' today'")) ==
            [Codes("baz"), Codes("="), Codes("'hello how are you\\' today'")]
  {
    var ws := QUOTE_TEST;
    hide Codes, ProperWord, Tokens, Sentence;
    BackslashQuote();
    PlainSigns();
    PlainWord("=", " ", ws[2..]);
    assert PlainText("baz");
    PlainWord("baz", " ", ws[1..]);
    ProperFrom(ws);
    TokensOfSentence(ws);
    TextsAt(ws);
    QuoteTestText();
  }

  lemma QuoteTestText()
    ensures Sentence(QUOTE_TEST) == Codes("baz = " + "'hello how are you\\' today'")
  {
    hide Codes, Sentence, W;
    EmptySentence();
    var q := "'hello how are you\\' today'";
    OneMore(q, "", [], "");
    OneMore("=", " ", [W(q, "")] + [], q + "" + "");
    OneMore("baz", " ", [W("=", " ")] + ([W(q, "")] + []), "=" + " " + (q + "" + ""));
    Three(W("baz", " "), W("=", " "), W(q, ""), []);
    assert [W("baz", " "), W("=", " "), W(q, "")] + [] == QUOTE_TEST;
    assert "baz" + " " + ("=" + " " + (q + "" + "")) == "baz = " + q;
  }
}
