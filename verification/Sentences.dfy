/** Text put together from words: the tokenizer takes it apart again, and the rewrite moves the words. */
module Sentences {
  import opened CStrings
  import opened Tokenizer
  import opened Search
  import opened Clauses
  import opened LimitRewrite
  import opened CharacterCodes

  /** A word and the blanks behind it. */
  datatype Word = Word(text: seq<WChar>, gap: seq<WChar>)

  function Sentence(ws: seq<Word>): seq<WChar> {
    if ws == [] then [] else ws[0].text + (ws[0].gap + Sentence(ws[1..]))
  }

  function Texts(ws: seq<Word>): seq<seq<WChar>> {
    if ws == [] then [] else [ws[0].text] + Texts(ws[1..])
  }

  /** Where the words stand, from a position on. */
  function Places(ws: seq<Word>, at: nat): seq<Span> {
    if ws == [] then []
    else [Span(at, at + |ws[0].text|)] + Places(ws[1..], at + |ws[0].text| + |ws[0].gap|)
  }

  predicate Quoted(text: seq<WChar>) {
    text != [] && (text[0] == 34 || text[0] == 39)
  }

  /** A quoted word is closed if anything follows it; an unquoted one is followed by a blank, a comma or a semicolon. */
  predicate Apart(w: Word, more: seq<Word>)
    requires w.text != []
  {
    if Quoted(w.text) then
      (w.gap == [] && more == []) || (1 < |w.text| && LiveQuoteCode(w.text, |w.text| - 1, w.text[0]))
    else
      w.gap != [] || more == [] || (more[0].text != [] && EndCode(more[0].text[0]))
  }

  ghost predicate ProperWord(w: Word, more: seq<Word>) {
    TokenCodes(w.text, 0, |w.text|) && (forall k :: 0 <= k < |w.gap| ==> BlankCode(w.gap[k])) && Apart(w, more)
  }

  ghost predicate Proper(ws: seq<Word>) {
    ws == [] || (ProperWord(ws[0], ws[1..]) && Proper(ws[1..]))
  }

  /** What follows the word in the text. */
  lemma Behind(w: Word, more: seq<Word>)
    requires ProperWord(w, more)
    ensures var rest := w.gap + Sentence(more);
            rest != [] ==>
              if Quoted(w.text) then 1 < |w.text| && LiveQuoteCode(w.text, |w.text| - 1, w.text[0])
              else EndCode(rest[0])
  {
    if w.gap == [] && more != [] {
      assert w.gap + Sentence(more) == more[0].text + (more[0].gap + Sentence(more[1..]));
    }
  }

  /** A word stands in the text as one token. */
  lemma WordIsToken(a: seq<WChar>, w: Word, more: seq<Word>)
    requires ProperWord(w, more)
    ensures MaximalToken(a + (w.text + (w.gap + Sentence(more))), Span(|a|, |a| + |w.text|))
  {
    var rest := w.gap + Sentence(more);
    var s, e := a + (w.text + rest), |a| + |w.text|;
    Behind(w, more);
    assert forall k :: 0 <= k < |w.text| ==> s[|a| + k] == w.text[k];
    assert rest != [] ==> s[e] == rest[0];
    TokenByCode(s, Span(|a|, e));
    forall k | |a| < k < e ensures LiveQuoteCode(s, k, w.text[0]) <==> LiveQuoteCode(w.text, k - |a|, w.text[0]) {
      assert s[k] == w.text[k - |a|] && s[k - 1] == w.text[k - 1 - |a|];
    }
    forall k | |a| < k < e ensures EndCode(s[k]) <==> EndCode(w.text[k - |a|]) {
      assert s[k] == w.text[k - |a|];
    }
  }

  lemma TailParts(s: seq<WChar>, at: nat, t: seq<WChar>, g: seq<WChar>, r: seq<WChar>)
    requires at <= |s| && s[at..] == t + (g + r)
    ensures at + |t| + |g| <= |s| && s == s[..at] + (t + (g + r))
    ensures s[at..at + |t|] == t && s[at + |t| + |g|..] == r
    ensures forall k :: at + |t| <= k < at + |t| + |g| ==> s[k] == g[k - at - |t|]
  {
    var tail := t + (g + r);
    assert forall k :: at <= k < |s| ==> s[k] == tail[k - at];
  }

  /** One word taken off the front of the text from a position on. */
  lemma WordStep(s: seq<WChar>, at: nat, w: Word, more: seq<Word>)
    requires ProperWord(w, more) && at <= |s| && s[at..] == w.text + (w.gap + Sentence(more))
    ensures var e := at + |w.text|;
            && e + |w.gap| <= |s| && MaximalToken(s, Span(at, e)) && Blank(s, e, e + |w.gap|)
            && s[at..e] == w.text && s[e + |w.gap|..] == Sentence(more)
  {
    hide Sentence, MaximalToken, TokenCodes, Apart;
    TailParts(s, at, w.text, w.gap, Sentence(more));
    WordIsToken(s[..at], w, more);
  }

  lemma TokenHere(s: seq<WChar>, p: nat, e: nat)
    requires MaximalToken(s, Span(p, e))
    ensures Lex(s, p) == [s[p..e]] + Lex(s, e) && Spans(s, p) == [Span(p, e)] + Spans(s, e)
  {
    hide Lex, Spans;
    MaximalTokenEnd(s, Span(p, e));
    SpaceEndIs(s, p, p);
    Next(s, p, p, e);
  }

  lemma ProperStarts(ws: seq<Word>)
    requires Proper(ws)
    ensures ws == [] || (ProperWord(ws[0], ws[1..]) && Proper(ws[1..]))
  {
  }

  lemma SentenceStarts(ws: seq<Word>)
    ensures Sentence(ws) == if ws == [] then [] else ws[0].text + (ws[0].gap + Sentence(ws[1..]))
  {
  }

  /** Behind the first word the tokens are those of the other words. */
  lemma WordFirst(s: seq<WChar>, at: nat, w: Word, more: seq<Word>)
    requires ProperWord(w, more) && at <= |s| && s[at..] == w.text + (w.gap + Sentence(more))
    ensures var e := at + |w.text|;
            var next := e + |w.gap|;
            && next <= |s| && s[next..] == Sentence(more)
            && Lex(s, at) == [w.text] + Lex(s, next) && Spans(s, at) == [Span(at, e)] + Spans(s, next)
  {
    hide Lex, Spans, Sentence, ProperWord, Blank, MaximalToken;
    WordStep(s, at, w, more);
    TokenHere(s, at, at + |w.text|);
    SameNext(s, at + |w.text|, at + |w.text| + |w.gap|);
  }

  /** The words are the tokens, and stand where they were put. */
  lemma {:induction false} WordsAreTokens(s: seq<WChar>, at: nat, ws: seq<Word>)
    requires Proper(ws) && at <= |s| && s[at..] == Sentence(ws)
    ensures Lex(s, at) == Texts(ws) && Spans(s, at) == Places(ws, at)
    decreases |ws|
  {
    hide Lex, Spans, Sentence, Proper, ProperWord;
    SentenceStarts(ws);
    ProperStarts(ws);
    if ws == [] {
      NoMore(s, at);
    } else {
      WordFirst(s, at, ws[0], ws[1..]);
      WordsAreTokens(s, at + |ws[0].text| + |ws[0].gap|, ws[1..]);
    }
  }

  /** Putting words together and taking them apart again. */
  lemma TokensOfSentence(ws: seq<Word>)
    requires Proper(ws)
    ensures Tokens(Sentence(ws)) == Texts(ws) && Spans(Sentence(ws), 0) == Places(ws, 0)
  {
    WordsAreTokens(Sentence(ws), 0, ws);
  }

  // ----- moving LIMIT in a sentence -----

  lemma {:induction false} SentenceSplit(ws: seq<Word>, k: nat)
    requires k <= |ws|
    ensures Sentence(ws) == Sentence(ws[..k]) + Sentence(ws[k..])
    decreases k
  {
    if k == 0 {
      assert ws[..0] == [] && ws[0..] == ws;
    } else {
      var w := ws[0];
      SentenceSplit(ws[1..], k - 1);
      assert ws[1..][..k - 1] == ws[..k][1..] && ws[1..][k - 1..] == ws[k..];
      assert Sentence(ws[..k]) == w.text + (w.gap + Sentence(ws[..k][1..]));
    }
  }

  lemma {:induction false} PlaceAt(ws: seq<Word>, at: nat, k: nat)
    requires k < |ws|
    ensures |Places(ws, at)| == |Texts(ws)| == |ws| && Texts(ws)[k] == ws[k].text
    ensures Places(ws, at)[k] == Span(at + |Sentence(ws[..k])|, at + |Sentence(ws[..k])| + |ws[k].text|)
    decreases |ws|
  {
    var next := at + |ws[0].text| + |ws[0].gap|;
    if k == 0 {
      assert ws[..0] == [];
      if 1 < |ws| {
        PlaceAt(ws[1..], next, 0);
      }
    } else {
      PlaceAt(ws[1..], next, k - 1);
      assert ws[1..][..k - 1] == ws[..k][1..];
      assert Sentence(ws[..k]) == ws[0].text + (ws[0].gap + Sentence(ws[..k][1..]));
    }
  }

  /** A query of words with LIMIT at place k and the number behind it, and SELECT at the front. */
  ghost predicate LimitSentence(ws: seq<Word>, k: nat) {
    && Proper(ws) && 1 < k && k + 1 < |ws|
    && Keyword(ws[0].text, SELECT) && ws[0].gap != [] && Keyword(ws[k].text, LIMIT) && |ws[k].gap| == 1
    && (forall i :: 0 <= i < k ==> !Abbreviates(ws[i].text, LIMIT))
    && (Quoted(ws[k + 1].text) ==>
          1 < |ws[k + 1].text| && LiveQuoteCode(ws[k + 1].text, |ws[k + 1].text| - 1, ws[k + 1].text[0]))
  }

  lemma TextsAt(ws: seq<Word>)
    ensures |Texts(ws)| == |ws| && forall k :: 0 <= k < |ws| ==> Texts(ws)[k] == ws[k].text
  {
    forall k | 0 <= k < |ws| ensures |Texts(ws)| == |ws| && Texts(ws)[k] == ws[k].text {
      PlaceAt(ws, 0, k);
    }
    if ws == [] {
    } else {
      PlaceAt(ws, 0, 0);
    }
  }

  /** The tokens taken for SELECT and LIMIT are the first word and word k. */
  lemma KeywordPlaces(ws: seq<Word>, k: nat)
    requires LimitSentence(ws, k)
    ensures var ts := Texts(ws); |ts| == |ws| && SelectAt(ts) == 0 && LimitAt(ts) == k
  {
    var ts := Texts(ws);
    TextsAt(ws);
    hide Proper, Texts, Abbreviates;
    assert ts[..k][0] == ts[0];
  }

  lemma SentencePlan(ws: seq<Word>, k: nat)
    requires LimitSentence(ws, k)
    ensures var p, q := |Sentence(ws[..k])|, |Sentence(ws[..k + 1])|;
            PlanOf(Sentence(ws)) ==
            Move(|ws[0].text|, |Sentence(ws[..1])|, p, p + |ws[k].text|, q, q + |ws[k + 1].text|)
  {
    hide Sentence, Places, Texts, Proper, Tokens, Spans, SelectAt, LimitAt, Abbreviates, PlanOf;
    KeywordPlaces(ws, k);
    TokensOfSentence(ws);
    assert ws[..0] == [];
    EmptySentence();
    PlaceAt(ws, 0, 0);
    PlaceAt(ws, 0, 1);
    PlaceAt(ws, 0, k);
    PlaceAt(ws, 0, k + 1);
    hide MoveOf;
    PlanOfPlaces(Sentence(ws), k);
    MoveOfPlaces(Places(ws, 0), k);
  }

  lemma PlanOfPlaces(s: seq<WChar>, k: nat)
    requires SelectAt(Tokens(s)) == 0 && LimitAt(Tokens(s)) == k && 0 < k && k + 1 < |Tokens(s)| == |Spans(s, 0)|
    ensures PlanOf(s) == MoveOf(Spans(s, 0), 0, k)
  {
  }

  lemma MoveOfPlaces(ts: seq<Span>, k: nat)
    requires 0 < k && k + 1 < |ts|
    ensures MoveOf(ts, 0, k) == Move(ts[0].end, ts[1].start, ts[k].start, ts[k].end, ts[k + 1].start, ts[k + 1].end)
  {
  }

  lemma EmptySentence()
    ensures Sentence([]) == [] == Codes("")
  {
  }

  /** The parts of such a sentence. */
  lemma SentenceParts(ws: seq<Word>, k: nat)
    requires LimitSentence(ws, k)
    ensures Sentence(ws[..1]) == ws[0].text + ws[0].gap
    ensures Sentence(ws[..k]) == Sentence(ws[..1]) + Sentence(ws[1..k])
    ensures Sentence(ws[..k + 1]) == Sentence(ws[..k]) + (ws[k].text + ws[k].gap)
    ensures Sentence(ws) == Sentence(ws[..k + 1]) + (ws[k + 1].text + (ws[k + 1].gap + Sentence(ws[k + 2..])))
  {
    hide Proper;
    SentenceSplit(ws[..k], 1);
    assert ws[..k][..1] == ws[..1] && ws[..k][1..] == ws[1..k];
    SentenceSplit(ws[..k + 1], k);
    assert ws[..k + 1][..k] == ws[..k] && ws[..k + 1][k..] == [ws[k]];
    SentenceSplit(ws, k + 1);
    assert ws[k + 1..][1..] == ws[k + 2..];
    assert ws[..1] == [ws[0]];
    OneWord(ws[0]);
    OneWord(ws[k]);
  }

  lemma OneWord(w: Word)
    ensures Sentence([w]) == w.text + w.gap
  {
    assert [w][1..] == [] && Sentence([w]) == w.text + (w.gap + []);
    assert w.gap + [] == w.gap;
  }

  lemma LimitWord(ws: seq<Word>, k: nat)
    requires LimitSentence(ws, k)
    ensures 1 < k && k + 1 < |ws| && |ws[k].text| == 5 && |ws[k].gap| == 1
  {
  }

  lemma TopCodes()
    ensures Codes("TOP  ") == TOP_SPACES && Codes(" ") == [SPACE]
  {
  }

  /** SELECT words LIMIT n rest becomes SELECT TOP  n words rest, to the character. */
  lemma LimitMovedInSentence(ws: seq<Word>, k: nat)
    requires LimitSentence(ws, k)
    ensures var s := Sentence(ws);
            && PlanOf(s).Move? && WellPlaced(s, PlanOf(s))
            && Rewritten(s, PlanOf(s)) ==
               (ws[0].text + ws[0].gap) +
               (Codes("TOP  ") + (ws[k + 1].text + (Codes(" ") +
               (Sentence(ws[1..k]) + (ws[k + 1].gap + Sentence(ws[k + 2..]))))))
  {
    hide LimitSentence, Sentence, PlanOf, Codes, Rewritten;
    LimitWord(ws, k);
    TopCodes();
    SentencePlan(ws, k);
    SentenceParts(ws, k);
    var s, m := Sentence(ws), PlanOf(Sentence(ws));
    PartsOf(s, m, ws[0].text + ws[0].gap, Sentence(ws[1..k]), ws[k].text + ws[k].gap, ws[k + 1].text,
            ws[k + 1].gap + Sentence(ws[k + 2..]));
  }

  lemma PartsOf(s: seq<WChar>, m: Plan, a: seq<WChar>, b: seq<WChar>, c: seq<WChar>,
                number: seq<WChar>, rest: seq<WChar>)
    requires s == (a + b) + c + (number + rest) && |c| == 6 && m.Move? && m.next == |a| && m.limit == |a| + |b|
    requires m.limitEnd == m.limit + 5 && m.num == m.limit + 6 && m.numEnd == m.num + |number|
    ensures WellPlaced(s, m)
    ensures Rewritten(s, m) == a + (TOP_SPACES + (number + ([SPACE] + (b + rest))))
  {
    hide Rewritten;
    RewriteIsExact(s, m);
    assert s[..m.next] == a && s[m.next..m.limit] == b;
    assert s[m.num..m.numEnd] == number && s[m.numEnd..] == rest;
  }
}
