/** Concrete queries on which the rewrite or its gate do not do what they are meant to. */
module Counterexamples {
  import opened CStrings
  import opened Tokenizer
  import opened Search
  import opened Clauses
  import opened LimitRewrite
  import opened Query
  import opened QueryFacts

  const A: WChar := 'a' as int
  const L: WChar := 'L' as int

  /** "S abcd L 5": both keywords abbreviated. */
  const SHORT_QUERY: seq<WChar> := ['S' as int, SPACE, A, A, A, A, SPACE, L, SPACE, '5' as int]

  lemma ShortQuerySpans()
    ensures Spans(SHORT_QUERY, 0) == [Span(0, 1), Span(2, 6), Span(7, 8), Span(9, 10)]
  {
    var s := SHORT_QUERY;
    var ts := [Span(0, 1), Span(2, 6), Span(7, 8), Span(9, 10)];
    assert ts[1..] == [Span(2, 6), Span(7, 8), Span(9, 10)];
    assert ts[1..][1..] == [Span(7, 8), Span(9, 10)];
    assert ts[1..][1..][1..] == [Span(9, 10)];
    assert Cuts(s, 0, ts);
    TokenizationIsTheOnlyCut(s, 0, ts);
  }

  lemma ShortQueryTokens()
    ensures Tokens(SHORT_QUERY) == [['S' as int], [A, A, A, A], [L], ['5' as int]]
  {
    var s := SHORT_QUERY;
    ShortQuerySpans();
    LexIsSpanText(s, 0);
    assert s[0..1] == ['S' as int] && s[2..6] == [A, A, A, A] && s[7..8] == [L] && s[9..10] == ['5' as int];
  }

  lemma FirstMatchAt(ts: seq<seq<WChar>>, k: nat, kw: seq<WChar>)
    requires k < |ts| && Abbreviates(ts[k], kw) && forall i :: 0 <= i < k ==> !Abbreviates(ts[i], kw)
    ensures FirstMatch(ts, kw) == k
  {
  }

  lemma ShortQueryPlan()
    ensures PlanOf(SHORT_QUERY) == Move(1, 2, 7, 8, 9, 10)
  {
    var ts := Tokens(SHORT_QUERY);
    ShortQuerySpans();
    ShortQueryTokens();
    assert Lower(ts[0][0]) != Lower(LIMIT[0]) && Lower(ts[1][0]) != Lower(LIMIT[0]);
    FirstMatchAt(ts, 2, LIMIT);
    assert ts[..2][0] == ['S' as int];
    FirstMatchAt(ts[..2], 0, SELECT);
  }

  /** With LIMIT abbreviated, "TOP  n " is longer than the clause it replaces: the rewrite eats the column list. */
  lemma AbbreviatedLimitLosesText()
    ensures PlanOf(SHORT_QUERY).Move? && WellPlaced(SHORT_QUERY, PlanOf(SHORT_QUERY))
    ensures Tokens(Rewritten(SHORT_QUERY, PlanOf(SHORT_QUERY))) != LimitMoved(Tokens(SHORT_QUERY))
  {
    var s, m := SHORT_QUERY, PlanOf(SHORT_QUERY);
    ShortQueryPlan();
    assert Lost(m) == 4 && LeftBehind(s, m) == [] && Kept(s, m)[0] == s[2] == A;
    assert Displaced(s, m)[0] == Kept(s, m)[..4][0];
    RewriteMovesLimit(s);
  }

  /** "SELECT a LIMIT<tab>5": a textbook query, but the gate looks for a space behind LIMIT. */
  const TAB_QUERY: seq<WChar> := SELECT + [SPACE, A, SPACE] + LIMIT + [9, '5' as int]

  lemma TabQuerySpans()
    ensures Spans(TAB_QUERY, 0) == [Span(0, 6), Span(7, 8), Span(9, 14), Span(15, 16)]
  {
    var s := TAB_QUERY;
    var ts := [Span(0, 6), Span(7, 8), Span(9, 14), Span(15, 16)];
    assert ts[1..] == [Span(7, 8), Span(9, 14), Span(15, 16)];
    assert ts[1..][1..] == [Span(9, 14), Span(15, 16)];
    assert ts[1..][1..][1..] == [Span(15, 16)];
    assert Cuts(s, 0, ts);
    TokenizationIsTheOnlyCut(s, 0, ts);
  }

  lemma TabQueryTokens()
    ensures Tokens(TAB_QUERY) == [SELECT, [A], LIMIT, ['5' as int]]
  {
    var s := TAB_QUERY;
    TabQuerySpans();
    LexIsSpanText(s, 0);
    hide Lex, Spans;
    assert s[0..6] == SELECT && s[7..8] == [A] && s[9..14] == LIMIT && s[15..16] == ['5' as int];
  }

  lemma TabQueryPlan()
    ensures PlanOf(TAB_QUERY) == Move(6, 7, 9, 14, 15, 16) && Textbook(TAB_QUERY, PlanOf(TAB_QUERY))
  {
    var ts := Tokens(TAB_QUERY);
    TabQuerySpans();
    TabQueryTokens();
    assert Lower(ts[0][0]) != Lower(LIMIT[0]) && Lower(ts[1][0]) != Lower(LIMIT[0]);
    FirstMatchAt(ts, 2, LIMIT);
    assert ts[..2][0] == SELECT;
    FirstMatchAt(ts[..2], 0, SELECT);
  }

  /** The first three characters of a place where a text matches. */
  lemma MatchStarts(s: seq<WChar>, kw: seq<WChar>, at: nat)
    requires 3 <= |kw| && MatchesAt(s, kw, at)
    ensures at + |kw| <= |s| && Lower(s[at]) == Lower(kw[0])
    ensures Lower(s[at + 1]) == Lower(kw[1]) && Lower(s[at + 2]) == Lower(kw[2])
  {
    assert s[at + 0] == s[at];
  }

  /** No other branch takes a text without D in which no S is followed by H, or by E and T. */
  lemma NoOtherBranch(s: seq<WChar>)
    requires forall i :: 0 <= i < |s| ==> Lower(s[i]) != 'd' as int
    requires forall i :: 0 <= i < |s| - 2 && Lower(s[i]) == 's' as int ==>
               Lower(s[i + 1]) != 'h' as int && (Lower(s[i + 1]) == 'e' as int ==> Lower(s[i + 2]) != 't' as int)
    ensures Plain(s)
  {
    hide MatchesAt;
    forall at: nat | MatchesAt(s, SET_NAMES, at) ensures false {
      MatchStarts(s, SET_NAMES, at);
    }
    forall at: nat | MatchesAt(s, SHOW_TABLES, at) ensures false {
      MatchStarts(s, SHOW_TABLES, at);
    }
    forall at: nat | MatchesAt(s, DESCRIBE, at) ensures false {
      MatchStarts(s, DESCRIBE, at);
    }
  }

  /** The gate does not see the LIMIT in front of the tab. */
  lemma TabQueryUnseen()
    ensures !Contains(TAB_QUERY, LIMIT_SPACE)
  {
    var s := TAB_QUERY;
    forall at: nat ensures !MatchesAt(s, LIMIT_SPACE, at) {
      assert MatchesAt(s, LIMIT_SPACE, at) ==> at == 9 && Lower(s[at + 5]) == Lower(LIMIT_SPACE[5]) by {
        assert MatchesAt(s, LIMIT_SPACE, at) ==> Lower(s[at + 0]) == Lower(LIMIT_SPACE[0]);
        assert MatchesAt(s, LIMIT_SPACE, at) ==> Lower(s[at + 1]) == Lower(LIMIT_SPACE[1]);
      }
    }
  }

  /** Such a query goes to the server with its LIMIT in place. */
  lemma TabSeparatorSlipsThrough()
    ensures PlanOf(TAB_QUERY).Move? && Textbook(TAB_QUERY, PlanOf(TAB_QUERY))
    ensures forall spare :: Judge(TAB_QUERY, spare) == Executes(TAB_QUERY)
  {
    hide MatchesAt, Textbook, PlanOf;
    TabQueryPlan();
    TabQueryUnseen();
    NoOtherBranch(TAB_QUERY);
  }

  /** "aLIMIT 5": the gate sees "LIMIT " inside another word. */
  const WORD_QUERY: seq<WChar> := [A] + LIMIT + [SPACE, '5' as int]

  lemma WordQueryTokens()
    ensures Tokens(WORD_QUERY) == [[A] + LIMIT, ['5' as int]]
  {
    var s := WORD_QUERY;
    var ts := [Span(0, 6), Span(7, 8)];
    assert ts[1..] == [Span(7, 8)];
    assert Cuts(s, 0, ts);
    TokenizationIsTheOnlyCut(s, 0, ts);
    LexIsSpanText(s, 0);
    assert s[0..6] == [A] + LIMIT && s[7..8] == ['5' as int];
  }

  /** A query that has no LIMIT clause at all is refused. */
  lemma LimitInsideAWordIsRefused()
    ensures forall t :: t in Tokens(WORD_QUERY) ==> !Abbreviates(t, LIMIT)
    ensures forall spare :: Judge(WORD_QUERY, spare) == Refused
  {
    var s := WORD_QUERY;
    WordQueryTokens();
    NoOtherBranch(s);
    hide Tokens;
    assert ([A] + LIMIT)[0] == A && Lower(A) != Lower(LIMIT[0]);
    forall spare ensures Judge(s, spare) == Refused {
      WordQueryRefused(s, spare);
    }
  }

  lemma WordQueryRefused(s: seq<WChar>, spare: seq<WChar>)
    requires s == WORD_QUERY && Plain(s) && forall t :: t in Tokens(s) ==> !Abbreviates(t, LIMIT)
    ensures Judge(s, spare) == Refused
  {
    hide Judge, Plain, Tokens, Abbreviates;
    assert MatchesAt(s, LIMIT_SPACE, 1);
    RefusedIff(s, spare);
  }

  /** "into s SELECT a LIMIT 5": a table called s in front of SELECT, as in an INSERT from a SELECT. */
  const INTO_QUERY: seq<WChar> :=
    ['i' as int, 'n' as int, 't' as int, 'o' as int, SPACE, S, SPACE,
     'S' as int, 'E' as int, 'L' as int, 'E' as int, 'C' as int, 'T' as int, SPACE, A, SPACE,
     'L' as int, 'I' as int, 'M' as int, 'I' as int, 'T' as int, SPACE, '5' as int]
  const INTO: seq<WChar> := ['i' as int, 'n' as int, 't' as int, 'o' as int]
  const S: WChar := 's' as int

  /** One token more in front of a cut. */
  lemma CutMore(s: seq<WChar>, i: nat, t: Span, more: seq<Span>)
    requires MaximalToken(s, t) && Blank(s, i, t.start) && Cuts(s, t.end, more)
    ensures Cuts(s, i, [t] + more)
  {
  }

  lemma IntoQueryBehindA()
    ensures Cuts(INTO_QUERY, 15, [Span(16, 21)] + [Span(22, 23)])
  {
    CutMore(INTO_QUERY, 21, Span(22, 23), []);
    hide Cuts;
    CutMore(INTO_QUERY, 15, Span(16, 21), [Span(22, 23)]);
  }

  lemma IntoQueryBehindS()
    ensures Cuts(INTO_QUERY, 6, [Span(7, 13)] + ([Span(14, 15)] + ([Span(16, 21)] + [Span(22, 23)])))
  {
    hide Cuts;
    IntoQueryBehindA();
    CutMore(INTO_QUERY, 13, Span(14, 15), [Span(16, 21)] + [Span(22, 23)]);
    CutMore(INTO_QUERY, 6, Span(7, 13), [Span(14, 15)] + ([Span(16, 21)] + [Span(22, 23)]));
  }

  lemma IntoQuerySpans()
    ensures Spans(INTO_QUERY, 0) == [Span(0, 4), Span(5, 6), Span(7, 13), Span(14, 15), Span(16, 21), Span(22, 23)]
  {
    hide Cuts;
    var more := [Span(7, 13)] + ([Span(14, 15)] + ([Span(16, 21)] + [Span(22, 23)]));
    IntoQueryBehindS();
    CutMore(INTO_QUERY, 4, Span(5, 6), more);
    CutMore(INTO_QUERY, 0, Span(0, 4), [Span(5, 6)] + more);
    TokenizationIsTheOnlyCut(INTO_QUERY, 0, [Span(0, 4)] + ([Span(5, 6)] + more));
  }

  lemma IntoQueryTokens()
    ensures Tokens(INTO_QUERY) == [INTO, [S], SELECT, [A], LIMIT, ['5' as int]]
  {
    IntoQuerySpans();
    LexIsSpanText(INTO_QUERY, 0);
    hide Lex, Spans;
    IntoQueryWords(INTO_QUERY);
  }

  lemma IntoQueryWords(s: seq<WChar>)
    requires s == INTO_QUERY
    ensures s[0..4] == INTO && s[5..6] == [S] && s[7..13] == SELECT && s[14..15] == [A]
    ensures s[16..21] == LIMIT && s[22..23] == ['5' as int]
  {
    assert s[5] == S && s[14] == A && s[22] == '5' as int;
    assert s[7..13] == SELECT && s[16..21] == LIMIT;
  }

  lemma IntoQueryPlaces()
    ensures var ts := Tokens(INTO_QUERY); SelectAt(ts) == 1 && LimitAt(ts) == ClauseAt(ts) == 4 && QueryAt(ts) == 2
  {
    var ts := Tokens(INTO_QUERY);
    IntoQueryTokens();
    hide Tokens;
    assert Lower(INTO[0]) != Lower(LIMIT[0]) && Lower(S) != Lower(LIMIT[0]);
    assert Lower(SELECT[0]) != Lower(LIMIT[0]) && Lower(A) != Lower(LIMIT[0]);
    FirstMatchAt(ts, 4, LIMIT);
    assert ts[..4] == [INTO, [S], SELECT, [A]];
    assert Lower(INTO[0]) != Lower(SELECT[0]);
    FirstMatchAt(ts[..4], 1, SELECT);
    FirstKeywordAt(ts, 4, LIMIT);
    FirstKeywordAt(ts[..4], 2, SELECT);
  }

  lemma FirstKeywordAt(ts: seq<seq<WChar>>, k: nat, kw: seq<WChar>)
    requires k < |ts| && Keyword(ts[k], kw) && forall i :: 0 <= i < k ==> !Keyword(ts[i], kw)
    ensures FirstKeyword(ts, kw) == k
  {
  }

  lemma IntoQueryPlan()
    ensures PlanOf(INTO_QUERY) == Move(6, 7, 16, 21, 22, 23)
    ensures var ts := Tokens(INTO_QUERY); Movable(ts) && LimitMoved(ts) == [INTO, [S], TOP, ['5' as int], SELECT, [A]]
    ensures !ClauseFound(Tokens(INTO_QUERY)) && HasClause(Tokens(INTO_QUERY))
  {
    var ts := Tokens(INTO_QUERY);
    IntoQuerySpans();
    IntoQueryTokens();
    IntoQueryPlaces();
    hide Tokens, Spans, SelectAt, LimitAt, QueryAt, ClauseAt;
    assert ts[..2] == [INTO, [S]] && ts[2..4] == [SELECT, [A]] && ts[6..] == [];
  }

  lemma IntoQueryPlain()
    ensures Plain(INTO_QUERY)
  {
    hide Plain;
    NoOtherBranch(INTO_QUERY);
  }

  lemma IntoQueryHasNoZero()
    ensures 0 !in INTO_QUERY
  {
  }

  lemma IntoQueryExecuted(spare: seq<WChar>)
    ensures Movable(Tokens(INTO_QUERY)) && Judge(INTO_QUERY, spare).Executes?
    ensures Tokens(Judge(INTO_QUERY, spare).sql) == LimitMoved(Tokens(INTO_QUERY))
  {
    IntoQueryPlan();
    IntoQueryPlain();
    IntoQueryHasNoZero();
    IntoQuerySeen();
    IntoQueryRoom(spare);
    hide *;
    JudgeIsExact(INTO_QUERY, spare);
  }

  /** TOP ends up behind the table, and this is what is executed. */
  lemma TableTakenForSelect(spare: seq<WChar>)
    ensures Judge(INTO_QUERY, spare).Executes? && HasClause(Tokens(INTO_QUERY))
    ensures Tokens(Judge(INTO_QUERY, spare).sql) == [INTO, [S], TOP, ['5' as int], SELECT, [A]]
    ensures Tokens(Judge(INTO_QUERY, spare).sql) != ClauseMoved(Tokens(INTO_QUERY))
  {
    IntoQueryPlan();
    IntoQueryExecuted(spare);
    hide Judge, Tokens, LimitMoved, ClauseMoved, ClauseFound;
    MovesTheClause(Tokens(INTO_QUERY));
  }

  lemma IntoQuerySeen()
    ensures Contains(INTO_QUERY, LIMIT_SPACE)
  {
    assert MatchesAt(INTO_QUERY, LIMIT_SPACE, 16);
  }

  lemma IntoQueryRoom(spare: seq<WChar>)
    ensures Ordered(INTO_QUERY, PlanOf(INTO_QUERY)) && RoomForMove(INTO_QUERY, PlanOf(INTO_QUERY), spare)
  {
    var s, m := INTO_QUERY, PlanOf(INTO_QUERY);
    IntoQueryPlan();
    hide PlanOf, Tokens;
    assert WellPlaced(s, m) && LeftBehind(s, m) == [] && Lost(m) == 0;
    assert Displaced(s, m) == [];
  }

  /** "S TOP ' SELECT  TOP ' SELECT LIMIT ' SELECT ": the number is an unclosed quote, and S is taken for SELECT. */
  const OPEN_QUERY: seq<WChar> := OPEN_FRONT + OPEN_BACK
  const OPEN_FRONT: seq<WChar> :=
    ['S' as int, SPACE, 'T' as int, 'O' as int, 'P' as int, SPACE, SINGLE_QUOTE, SPACE, 'S' as int, 'E' as int,
     'L' as int, 'E' as int, 'C' as int, 'T' as int, SPACE, SPACE, 'T' as int, 'O' as int, 'P' as int, SPACE,
     SINGLE_QUOTE, SPACE]
  const OPEN_BACK: seq<WChar> :=
    ['S' as int, 'E' as int, 'L' as int, 'E' as int, 'C' as int, 'T' as int, SPACE, 'L' as int, 'I' as int,
     'M' as int, 'I' as int, 'T' as int, SPACE, SINGLE_QUOTE, SPACE, 'S' as int, 'E' as int, 'L' as int, 'E' as int,
     'C' as int, 'T' as int, SPACE]

  /** "S TOP  ' SELECT  TOP ' SELECT  TOP ' SELECT " */
  const OPEN_RESULT: seq<WChar> := RESULT_FRONT + RESULT_BACK
  const RESULT_FRONT: seq<WChar> :=
    ['S' as int, SPACE, 'T' as int, 'O' as int, 'P' as int, SPACE, SPACE, SINGLE_QUOTE, SPACE, 'S' as int,
     'E' as int, 'L' as int, 'E' as int, 'C' as int, 'T' as int, SPACE, SPACE, 'T' as int, 'O' as int, 'P' as int,
     SPACE, SINGLE_QUOTE, SPACE]
  const RESULT_BACK: seq<WChar> :=
    ['S' as int, 'E' as int, 'L' as int, 'E' as int, 'C' as int, 'T' as int, SPACE, SPACE, 'T' as int, 'O' as int,
     'P' as int, SPACE, SINGLE_QUOTE, SPACE, 'S' as int, 'E' as int, 'L' as int, 'E' as int, 'C' as int, 'T' as int,
     SPACE]

  const QUOTED: seq<WChar> :=
    [SINGLE_QUOTE, SPACE, 'S' as int, 'E' as int, 'L' as int, 'E' as int, 'C' as int, 'T' as int, SPACE, SPACE,
     'T' as int, 'O' as int, 'P' as int, SPACE, SINGLE_QUOTE]
  const OPEN: seq<WChar> :=
    [SINGLE_QUOTE, SPACE, 'S' as int, 'E' as int, 'L' as int, 'E' as int, 'C' as int, 'T' as int, SPACE]

  lemma OpenQueryBehindSelect()
    ensures Cuts(OPEN_QUERY, 28, [Span(29, 34)] + [Span(35, 44)])
  {
    CutMore(OPEN_QUERY, 34, Span(35, 44), []);
    hide Cuts;
    CutMore(OPEN_QUERY, 28, Span(29, 34), [Span(35, 44)]);
  }

  lemma OpenQueryQuote()
    ensures MaximalToken(OPEN_QUERY, Span(6, 21)) && Blank(OPEN_QUERY, 5, 6)
  {
  }

  lemma OpenQueryBehindTop()
    ensures Cuts(OPEN_QUERY, 5, [Span(6, 21)] + ([Span(22, 28)] + ([Span(29, 34)] + [Span(35, 44)])))
  {
    hide Cuts;
    OpenQueryBehindSelect();
    CutMore(OPEN_QUERY, 21, Span(22, 28), [Span(29, 34)] + [Span(35, 44)]);
    OpenQueryQuote();
    hide MaximalToken, Blank;
    CutMore(OPEN_QUERY, 5, Span(6, 21), [Span(22, 28)] + ([Span(29, 34)] + [Span(35, 44)]));
  }

  lemma OpenQuerySpans()
    ensures Spans(OPEN_QUERY, 0) == [Span(0, 1), Span(2, 5), Span(6, 21), Span(22, 28), Span(29, 34), Span(35, 44)]
  {
    hide Cuts;
    var more := [Span(6, 21)] + ([Span(22, 28)] + ([Span(29, 34)] + [Span(35, 44)]));
    OpenQueryBehindTop();
    CutMore(OPEN_QUERY, 1, Span(2, 5), more);
    CutMore(OPEN_QUERY, 0, Span(0, 1), [Span(2, 5)] + more);
    TokenizationIsTheOnlyCut(OPEN_QUERY, 0, [Span(0, 1)] + ([Span(2, 5)] + more));
  }

  lemma OpenResultBehindSelect()
    ensures Cuts(OPEN_RESULT, 29, [Span(31, 34)] + [Span(35, 44)])
  {
    CutMore(OPEN_RESULT, 34, Span(35, 44), []);
    hide Cuts;
    CutMore(OPEN_RESULT, 29, Span(31, 34), [Span(35, 44)]);
  }

  lemma OpenResultQuote()
    ensures MaximalToken(OPEN_RESULT, Span(7, 22)) && Blank(OPEN_RESULT, 5, 7)
  {
  }

  lemma OpenResultBehindTop()
    ensures Cuts(OPEN_RESULT, 5, [Span(7, 22)] + ([Span(23, 29)] + ([Span(31, 34)] + [Span(35, 44)])))
  {
    hide Cuts;
    OpenResultBehindSelect();
    CutMore(OPEN_RESULT, 22, Span(23, 29), [Span(31, 34)] + [Span(35, 44)]);
    OpenResultQuote();
    hide MaximalToken, Blank;
    CutMore(OPEN_RESULT, 5, Span(7, 22), [Span(23, 29)] + ([Span(31, 34)] + [Span(35, 44)]));
  }

  lemma OpenResultSpans()
    ensures Spans(OPEN_RESULT, 0) == [Span(0, 1), Span(2, 5), Span(7, 22), Span(23, 29), Span(31, 34), Span(35, 44)]
  {
    hide Cuts;
    var more := [Span(7, 22)] + ([Span(23, 29)] + ([Span(31, 34)] + [Span(35, 44)]));
    OpenResultBehindTop();
    CutMore(OPEN_RESULT, 1, Span(2, 5), more);
    CutMore(OPEN_RESULT, 0, Span(0, 1), [Span(2, 5)] + more);
    TokenizationIsTheOnlyCut(OPEN_RESULT, 0, [Span(0, 1)] + ([Span(2, 5)] + more));
  }

  lemma OpenQueryWords(s: seq<WChar>)
    requires s == OPEN_QUERY
    ensures s[0..1] == ['S' as int] && s[2..5] == TOP && s[6..21] == QUOTED
    ensures s[22..28] == SELECT && s[29..34] == LIMIT && s[35..44] == OPEN
  {
    var a, b := OPEN_FRONT, OPEN_BACK;
    assert a[0] == 'S' as int && a[2] == 'T' as int && a[3] == 'O' as int && a[4] == 'P' as int;
    assert a[0..1] == ['S' as int] && a[2..5] == TOP && a[6..21] == QUOTED;
    assert b[0..6] == SELECT && b[7..12] == LIMIT && b[13..22] == OPEN;
    SlicePrefix(a, b, 0, 1);
    SlicePrefix(a, b, 2, 5);
    SlicePrefix(a, b, 6, 21);
    SliceShift(a, b, 0, 6);
    SliceShift(a, b, 7, 12);
    SliceShift(a, b, 13, 22);
  }

  lemma OpenResultWords(s: seq<WChar>)
    requires s == OPEN_RESULT
    ensures s[0..1] == ['S' as int] && s[2..5] == TOP && s[7..22] == QUOTED
    ensures s[23..29] == SELECT && s[31..34] == TOP && s[35..44] == OPEN
  {
    var a, b := RESULT_FRONT, RESULT_BACK;
    assert a[0] == 'S' as int && a[2] == 'T' as int && a[3] == 'O' as int && a[4] == 'P' as int;
    assert a[0..1] == ['S' as int] && a[2..5] == TOP && a[7..22] == QUOTED;
    assert b[8] == 'T' as int && b[9] == 'O' as int && b[10] == 'P' as int;
    assert b[0..6] == SELECT && b[8..11] == TOP && b[12..21] == OPEN;
    SlicePrefix(a, b, 0, 1);
    SlicePrefix(a, b, 2, 5);
    SlicePrefix(a, b, 7, 22);
    SliceShift(a, b, 0, 6);
    SliceShift(a, b, 8, 11);
    SliceShift(a, b, 12, 21);
  }

  lemma OpenQueryTokens()
    ensures Tokens(OPEN_QUERY) == [['S' as int], TOP, QUOTED, SELECT, LIMIT, OPEN]
  {
    OpenQuerySpans();
    LexIsSpanText(OPEN_QUERY, 0);
    hide Lex, Spans;
    OpenQueryWords(OPEN_QUERY);
  }

  lemma OpenResultTokens()
    ensures Tokens(OPEN_RESULT) == [['S' as int], TOP, QUOTED, SELECT, TOP, OPEN]
  {
    OpenResultSpans();
    LexIsSpanText(OPEN_RESULT, 0);
    hide Lex, Spans;
    OpenResultWords(OPEN_RESULT);
  }

  lemma OpenQueryPlaces()
    ensures var ts := Tokens(OPEN_QUERY); SelectAt(ts) == 0 && LimitAt(ts) == ClauseAt(ts) == 4 && QueryAt(ts) == 3
  {
    var ts := Tokens(OPEN_QUERY);
    OpenQueryTokens();
    hide Tokens;
    assert Lower(TOP[0]) != Lower(LIMIT[0]) && Lower(QUOTED[0]) != Lower(LIMIT[0]);
    assert Lower(SELECT[0]) != Lower(LIMIT[0]) && Lower('S' as int) != Lower(LIMIT[0]);
    FirstMatchAt(ts, 4, LIMIT);
    assert ts[..4] == [['S' as int], TOP, QUOTED, SELECT];
    FirstMatchAt(ts[..4], 0, SELECT);
    FirstKeywordAt(ts, 4, LIMIT);
    FirstKeywordAt(ts[..4], 3, SELECT);
  }

  lemma OpenQueryPlan()
    ensures PlanOf(OPEN_QUERY) == Move(1, 2, 29, 34, 35, 44) && !Understood(OPEN_QUERY)
    ensures Meant(Tokens(OPEN_QUERY)) == [['S' as int], TOP, QUOTED, SELECT, TOP, OPEN]
  {
    var ts := Tokens(OPEN_QUERY);
    OpenQuerySpans();
    OpenQueryTokens();
    OpenQueryPlaces();
    hide Tokens, Spans, SelectAt, LimitAt, QueryAt, ClauseAt;
    assert ts[..4] == [['S' as int], TOP, QUOTED, SELECT] && ts[4..4] == [] && ts[6..] == [];
  }

  lemma OpenQueryRewritten()
    ensures WellPlaced(OPEN_QUERY, PlanOf(OPEN_QUERY)) && Rewritten(OPEN_QUERY, PlanOf(OPEN_QUERY)) == OPEN_RESULT
  {
    OpenQueryPlan();
    var s, m := OPEN_QUERY, PlanOf(OPEN_QUERY);
    RewriteIsExact(s, m);
    OpenQueryWords(s);
    assert s[..2] == ['S' as int, SPACE] && Kept(s, m) == s[2..29];
    OpenQueryMoved(s);
  }

  lemma OpenQueryParts(s: seq<WChar>)
    requires s == OPEN_QUERY
    ensures s[..2] == ['S' as int, SPACE] && s[2..29] == OPEN_FRONT[2..8] + RESULT_BACK
    ensures OPEN_FRONT[2..8] == TOP + [SPACE, SINGLE_QUOTE, SPACE]
  {
    assert OPEN_FRONT[8..] + OPEN_BACK[..7] == RESULT_BACK;
    assert s[2..29] == OPEN_FRONT[2..8] + (OPEN_FRONT[8..] + OPEN_BACK[..7]);
  }

  lemma ResultFront(x: seq<WChar>)
    requires x == TOP + [SPACE, SINGLE_QUOTE, SPACE]
    ensures ['S' as int, SPACE] + (TOP_SPACES + (OPEN + ([SPACE] + x))) == RESULT_FRONT
  {
  }

  lemma Regrouped(a: seq<WChar>, b: seq<WChar>, c: seq<WChar>, d: seq<WChar>, e: seq<WChar>, f: seq<WChar>)
    ensures a + (b + (c + (d + (e + f)))) == (a + (b + (c + (d + e)))) + f
  {
  }

  lemma OpenQueryMoved(s: seq<WChar>)
    requires s == OPEN_QUERY
    ensures s[..2] + (TOP_SPACES + (s[35..44] + ([SPACE] + s[2..29]))) == OPEN_RESULT
  {
    var x := OPEN_FRONT[2..8];
    OpenQueryWords(s);
    OpenQueryParts(s);
    ResultFront(x);
    Regrouped(s[..2], TOP_SPACES, OPEN, [SPACE], x, RESULT_BACK);
  }

  /** A text that ends in a blank and has no D, and no S but before a blank, or before E and L. */
  predicate Calm(s: seq<WChar>) {
    s != [] && s[|s| - 1] == SPACE && NoD(s) && NoOtherS(s)
  }

  predicate NoD(s: seq<WChar>) {
    forall i :: 0 <= i < |s| ==> Lower(s[i]) != 'd' as int
  }

  predicate NoOtherS(s: seq<WChar>) {
    forall i :: 0 <= i < |s| - 1 && Lower(s[i]) == 's' as int ==>
      s[i + 1] == SPACE || (i < |s| - 2 && Lower(s[i + 1]) == 'e' as int && Lower(s[i + 2]) == 'l' as int)
  }

  lemma CalmIsPlain(a: seq<WChar>, b: seq<WChar>)
    requires Calm(a) && Calm(b)
    ensures Plain(a + b)
  {
    hide Plain;
    var s := a + b;
    forall i | 0 <= i < |s| - 2 && Lower(s[i]) == 's' as int
      ensures Lower(s[i + 1]) != 'h' as int && (Lower(s[i + 1]) == 'e' as int ==> Lower(s[i + 2]) != 't' as int)
    {
      var x, k := if i < |a| then a else b, if i < |a| then i else i - |a|;
      assert s[i] == x[k];
      assert k + 1 < |x| ==> s[i + 1] == x[k + 1];
      assert k + 2 < |x| ==> s[i + 2] == x[k + 2];
    }
    NoOtherBranch(s);
  }

  lemma OpenFrontNoD()
    ensures NoD(OPEN_FRONT)
  {
  }

  lemma OpenFrontNoOtherS()
    ensures NoOtherS(OPEN_FRONT)
  {
    var s := OPEN_FRONT;
    assert forall i :: 0 <= i < |s| && Lower(s[i]) == 's' as int ==> i == 0 || i == 8;
    assert s[1] == SPACE && Lower(s[9]) == 'e' as int && Lower(s[10]) == 'l' as int;
  }

  lemma OpenFrontCalm()
    ensures Calm(OPEN_FRONT)
  {
    assert |OPEN_FRONT| == 22 && OPEN_FRONT[21] == SPACE;
    hide NoD, NoOtherS;
    OpenFrontNoD();
    OpenFrontNoOtherS();
  }

  lemma OpenBackNoD()
    ensures NoD(OPEN_BACK)
  {
  }

  lemma OpenBackNoOtherS()
    ensures NoOtherS(OPEN_BACK)
  {
    var s := OPEN_BACK;
    assert forall i :: 0 <= i < |s| && Lower(s[i]) == 's' as int ==> i == 0 || i == 15;
    assert Lower(s[1]) == Lower(s[16]) == 'e' as int && Lower(s[2]) == Lower(s[17]) == 'l' as int;
  }

  lemma OpenBackCalm()
    ensures Calm(OPEN_BACK)
  {
    assert |OPEN_BACK| == 22 && OPEN_BACK[21] == SPACE;
    hide NoD, NoOtherS;
    OpenBackNoD();
    OpenBackNoOtherS();
  }

  lemma OpenQueryPlain()
    ensures Plain(OPEN_QUERY)
  {
    hide Calm, Plain;
    OpenFrontCalm();
    OpenBackCalm();
    CalmIsPlain(OPEN_FRONT, OPEN_BACK);
  }

  lemma OpenQuerySeen()
    ensures Contains(OPEN_QUERY, LIMIT_SPACE)
  {
    assert MatchesAt(OPEN_QUERY, LIMIT_SPACE, 29);
  }

  lemma OpenQueryHasNoZero()
    ensures 0 !in OPEN_QUERY
  {
    assert 0 !in OPEN_FRONT && 0 !in OPEN_BACK;
  }

  lemma OpenQueryHasNoRoom(spare: seq<WChar>)
    ensures !Fitting(OPEN_QUERY, spare)
  {
    OpenQueryPlan();
    hide PlanOf, Tokens;
    assert TokenEnd(OPEN_QUERY, 35) == 44 by {
      MaximalTokenEnd(OPEN_QUERY, Span(35, 44));
    }
  }

  /** Two errors make up for each other: what is executed is what is meant, with neither room nor the right keywords. */
  lemma ErrorsMakeUp(spare: seq<WChar>)
    ensures Plain(OPEN_QUERY) && !Fitting(OPEN_QUERY, spare) && !Understood(OPEN_QUERY)
    ensures Judge(OPEN_QUERY, spare) == Executes(OPEN_RESULT)
    ensures Tokens(OPEN_RESULT) == Meant(Tokens(OPEN_QUERY))
  {
    OpenQueryPlan();
    OpenQueryPlain();
    OpenQuerySeen();
    OpenQueryHasNoZero();
    OpenQueryHasNoRoom(spare);
    OpenQueryRewritten();
    OpenResultTokens();
    hide Tokens, PlanOf, Rewritten, Contains, Limited, Meant, Fitting, Understood;
    LimitedInside(OPEN_QUERY, spare);
  }
}
