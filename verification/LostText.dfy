/**
 * Why two errors of the rewrite do not make up for each other: when it takes a wrong token for LIMIT, it loses text,
 * and what is then left is never the query with its clause moved.
 */
module LostText {
  import opened CStrings
  import opened Tokenizer
  import opened Search
  import opened Clauses
  import opened LimitRewrite

  // ----- text cut off at the front -----

  /** Stands in an unquoted token and begins one. */
  predicate WordChar(c: WChar) {
    !IsQuote(c) && !IsDelimiter(c)
  }

  /** A text whose first d characters are blanks and word characters. */
  predicate Cuttable(x: seq<WChar>, d: nat) {
    d <= |x| && forall k :: 0 <= k < d ==> IsSpace(x[k]) || WordChar(x[k])
  }

  predicate QuoteAt(x: seq<WChar>, d: nat) {
    d < |x| && IsQuote(x[d])
  }

  /** Entered in its middle, an unquoted token ends where it ends. */
  lemma WordRest(x: seq<WChar>, p: nat, d: nat)
    requires p < d < |x| && !IsQuote(x[p]) && d < TokenEnd(x, p) && !IsQuote(x[d])
    ensures SpaceEnd(x, d) == d && TokenEnd(x, d) == TokenEnd(x, p)
    ensures Lex(x, d) == [x[d..TokenEnd(x, p)]] + Lex(x, TokenEnd(x, p))
  {
    hide Lex, WordEnd, QuoteEnd;
    WordEndIs(x, p + 1, TokenEnd(x, p));
    WordEndIs(x, d + 1, TokenEnd(x, p));
    Next(x, d, d, TokenEnd(x, p));
  }

  /** Cutting off word characters and blanks gives no more tokens, unless a quote comes to stand in front. */
  lemma {:induction false} NoMoreTokens(x: seq<WChar>, a: nat, d: nat)
    requires a <= d && Cuttable(x, d) && !QuoteAt(x, d)
    ensures |Lex(x, d)| <= |Lex(x, a)|
    decreases d - a
  {
    var p := SpaceEnd(x, a);
    if d <= p {
      SpaceEndIs(x, a, p);
      SameNext(x, a, d);
    } else {
      var e := TokenEnd(x, p);
      Next(x, a, p, e);
      if e <= d {
        NoMoreTokens(x, e, d);
      } else {
        WordRest(x, p, d);
      }
    }
  }

  /** What cutting off a visible character does to the first token, and to the others. */
  lemma Cut(x: seq<WChar>, d: nat) returns (p: nat, e: nat)
    requires Cuttable(x, d) && !Blank(x, 0, d)
    ensures p < d && p < e <= |x| && WordChar(x[p]) && Tokens(x) == [x[p..e]] + Lex(x, e)
    ensures QuoteAt(x, d) ==> Lex(x, d) != [] && Lex(x, d)[0] != [] && IsQuote(Lex(x, d)[0][0])
    ensures !QuoteAt(x, d) && d < e ==> Lex(x, d) == [x[d..e]] + Lex(x, e)
    ensures !QuoteAt(x, d) && e <= d ==> |Lex(x, d)| < |Tokens(x)|
    ensures forall k :: p <= k < e ==> !IsSpace(x[k])
  {
    hide Lex, WordEnd, QuoteEnd;
    p := SpaceEnd(x, 0);
    SpaceEndIs(x, 0, p);
    e := TokenEnd(x, p);
    WordEndIs(x, p + 1, e);
    Next(x, 0, p, e);
    if QuoteAt(x, d) {
      Next(x, d, d, TokenEnd(x, d));
    } else if d < e {
      WordRest(x, p, d);
    } else {
      NoMoreTokens(x, e, d);
    }
  }

  // ----- the letters of LIMIT without its first -----

  predicate Imt(c: WChar) {
    Lower(c) in {'i' as int, 'm' as int, 't' as int}
  }

  /**
   * What is left of a token list when letters are lost at its front: something beginning with a quote, or fewer
   * tokens, or the same with the first one cut.
   */
  predicate Shortened(kept: seq<seq<WChar>>, rest: seq<seq<WChar>>) {
    && kept != [] && kept[0] != [] && Imt(kept[0][0])
    && (|rest| < |kept| || FirstCut(kept, rest) ||
        (rest != [] && rest[0] != [] && IsQuote(rest[0][0]) && kept[0] != TOP))
  }

  predicate FirstCut(kept: seq<seq<WChar>>, rest: seq<seq<WChar>>)
    requires kept != []
  {
    && rest != [] && rest[1..] == kept[1..] && 0 < |rest[0]| < |kept[0]|
    && rest[0] == kept[0][|kept[0]| - |rest[0]|..]
    && forall q :: 0 <= q < |kept[0]| - |rest[0]| ==> Imt(kept[0][q])
  }

  lemma LostLetters(x: seq<WChar>, d: nat)
    requires d <= |x| && !Blank(x, 0, d) && forall k :: 0 <= k < d ==> IsSpace(x[k]) || Imt(x[k])
    ensures Shortened(Tokens(x), Lex(x, d))
  {
    hide Tokens, Lex;
    var p, e := Cut(x, d);
    var first := x[p..e];
    assert first[0] == x[p];
    assert Tokens(x)[1..] == Lex(x, e);
    assert TOP[1] == 'O' as int && TOP[2] == 'P' as int;
    assert forall q :: 0 <= q < e - p ==> first[q] == x[p + q];
    if !QuoteAt(x, d) && d < e {
      assert x[d..e] == first[d - p..] && |x[d..e]| == e - d;
      assert Lex(x, d)[1..] == Lex(x, e);
    }
  }

  // ----- a shortened list is not the meant one -----

  /** The tokens that are kept: those between SELECT and LIMIT and those behind the number. */
  function Others(ts: seq<seq<WChar>>): seq<seq<WChar>>
    requires Movable(ts)
  {
    ts[SelectAt(ts) + 1..LimitAt(ts)] + ts[LimitAt(ts) + 2..]
  }

  /** What the rewrite makes of a token list when its kept text has the tokens `rest`. */
  function RewrittenAs(ts: seq<seq<WChar>>, rest: seq<seq<WChar>>): seq<seq<WChar>>
    requires Movable(ts)
  {
    ts[..SelectAt(ts) + 1] + ([TOP, ts[LimitAt(ts) + 1]] + rest)
  }

  /** Token q of a moved list. */
  lemma MovedAt(ts: seq<seq<WChar>>, j: nat, k: nat, q: nat)
    requires j < k && k + 1 < |ts| && q < |ts|
    ensures |Moved(ts, j, k)| == |ts|
    ensures Moved(ts, j, k)[q] ==
            if q <= j then ts[q] else if q == j + 1 then TOP else if q == j + 2 then ts[k + 1]
            else if q < k + 2 then ts[q - 2] else ts[q]
  {
  }

  /** The tokens of a rewritten list from TOP to the first kept one. */
  lemma RewrittenFront(ts: seq<seq<WChar>>, rest: seq<seq<WChar>>)
    requires Movable(ts)
    ensures var i, was := SelectAt(ts), RewrittenAs(ts, rest);
            && |was| == i + 3 + |rest| && was[i + 1] == TOP && was[i + 2] == ts[LimitAt(ts) + 1]
            && (rest != [] ==> was[i + 3] == rest[0])
  {
  }

  /** Token q of a rewritten list, from the second kept one on. */
  lemma RewrittenBehind(ts: seq<seq<WChar>>, rest: seq<seq<WChar>>, q: nat)
    requires Movable(ts) && SelectAt(ts) + 4 <= q < |ts| && |rest| == |Others(ts)| && rest[1..] == Others(ts)[1..]
    ensures |RewrittenAs(ts, rest)| == |ts|
    ensures RewrittenAs(ts, rest)[q] == if q < LimitAt(ts) + 2 then ts[q - 2] else ts[q]
  {
    var t := q - SelectAt(ts) - 3;
    assert rest[t] == rest[1..][t - 1] == Others(ts)[1..][t - 1] == Others(ts)[t];
  }

  /** The tokens taken for the keywords stand first. */
  lemma TakenStandFirst(ts: seq<seq<WChar>>)
    requires Movable(ts)
    ensures Abbreviates(ts[LimitAt(ts)], LIMIT) && Lower(ts[LimitAt(ts)][0]) == 'l' as int
    ensures forall q :: 0 <= q < LimitAt(ts) ==> ts[q] != ts[LimitAt(ts)]
  {
    assert Lower(LIMIT[0]) == 'l' as int;
  }

  lemma ClauseStandsFirst(ts: seq<seq<WChar>>)
    requires HasClause(ts)
    ensures Keyword(ts[ClauseAt(ts)], LIMIT) && Lower(ts[ClauseAt(ts)][0]) == 'l' as int
    ensures forall q :: 0 <= q < ClauseAt(ts) ==> ts[q] != ts[ClauseAt(ts)]
    ensures Keyword(ts[QueryAt(ts)], SELECT) && forall q :: 0 <= q < QueryAt(ts) ==> ts[q] != ts[QueryAt(ts)]
  {
    assert Lower(LIMIT[0]) == 'l' as int;
    SelectStandsFirst(ts);
    forall q | 0 <= q < QueryAt(ts) ensures ts[q] != ts[QueryAt(ts)] {
      assert ts[q] == ts[..QueryAt(ts)][q];
    }
  }

  /** The first kept token would have to be the one behind SELECT, and that be the one taken for LIMIT. */
  lemma EarlyStarts(ts: seq<seq<WChar>>, rest: seq<seq<WChar>>)
    requires Movable(ts) && HasClause(ts) && SelectAt(ts) == QueryAt(ts) && LimitAt(ts) < ClauseAt(ts)
    requires Shortened(Others(ts), rest) && RewrittenAs(ts, rest) == ClauseMoved(ts)
    ensures SelectAt(ts) + 1 == LimitAt(ts) && FirstCut(Others(ts), rest) && |rest| == |Others(ts)|
    ensures ts[LimitAt(ts) + 1] == ts[ClauseAt(ts) + 1] && Others(ts)[0] == ts[LimitAt(ts) + 2]
  {
    TakenStandFirst(ts);
    RewrittenFront(ts, rest);
    hide LimitAt, SelectAt, ClauseAt, QueryAt, Abbreviates, Moved, RewrittenAs;
    var i, l := SelectAt(ts), ClauseAt(ts);
    MovedAt(ts, i, l, i + 2);
    MovedAt(ts, i, l, i + 3);
  }

  /** With the right SELECT and a LIMIT taken too early. */
  lemma EarlyLimit(ts: seq<seq<WChar>>, rest: seq<seq<WChar>>)
    requires Movable(ts) && HasClause(ts) && SelectAt(ts) == QueryAt(ts) && LimitAt(ts) < ClauseAt(ts)
    requires Shortened(Others(ts), rest)
    ensures RewrittenAs(ts, rest) != ClauseMoved(ts)
  {
    ClauseStandsFirst(ts);
    hide LimitAt, SelectAt, ClauseAt, QueryAt, Abbreviates, Keyword, Moved, RewrittenAs, Others;
    if RewrittenAs(ts, rest) == ClauseMoved(ts) {
      EarlyStarts(ts, rest);
      if LimitAt(ts) + 3 <= ClauseAt(ts) {
        RewrittenBehind(ts, rest, ClauseAt(ts));
        MovedAt(ts, SelectAt(ts), ClauseAt(ts), ClauseAt(ts));
      }
      assert false;
    }
  }

  /** With a SELECT taken too early, TOP stands behind it, and the T of it is what is lost. */
  lemma EarlySelect(ts: seq<seq<WChar>>, rest: seq<seq<WChar>>)
    requires Movable(ts) && HasClause(ts) && SelectAt(ts) < QueryAt(ts) && LimitAt(ts) < ClauseAt(ts)
    requires Shortened(Others(ts), rest)
    ensures RewrittenAs(ts, rest) != ClauseMoved(ts)
  {
    hide LimitAt, SelectAt, ClauseAt, QueryAt, Moved, Shortened, Abbreviates;
    var i, k, j, l := SelectAt(ts), LimitAt(ts), QueryAt(ts), ClauseAt(ts);
    TopIsNoKeyword(ts);
    MovedAt(ts, j, l, i + 1);
    if RewrittenAs(ts, rest) == ClauseMoved(ts) {
      assert ts[i + 1] == RewrittenAs(ts, rest)[i + 1] == TOP;
      assert k != i + 1 && Others(ts)[0] == TOP;
      CutTop(Others(ts), rest);
      CutBehindSelect(ts, rest);
    }
  }

  lemma TopIsNoKeyword(ts: seq<seq<WChar>>)
    requires Movable(ts) && HasClause(ts)
    ensures ts[LimitAt(ts)] != TOP && ts[QueryAt(ts)] != TOP
  {
    TakenStandFirst(ts);
    ClauseStandsFirst(ts);
  }

  lemma TakenAreFirst(ts: seq<seq<WChar>>)
    requires Movable(ts) && HasClause(ts)
    ensures Abbreviates(ts[LimitAt(ts)], LIMIT) && Keyword(ts[QueryAt(ts)], SELECT)
  {
    TakenStandFirst(ts);
    ClauseStandsFirst(ts);
  }

  /** The O and P then stand where TOP was: SELECT is further back, and so is what was taken for LIMIT, if before it. */
  lemma CutStandsThird(ts: seq<seq<WChar>>, rest: seq<seq<WChar>>)
    requires Movable(ts) && HasClause(ts) && SelectAt(ts) + 1 < LimitAt(ts) && SelectAt(ts) < QueryAt(ts)
    requires rest != [] && rest[0] != TOP && !Abbreviates(rest[0], LIMIT) && !Keyword(rest[0], SELECT)
    requires ts[SelectAt(ts) + 1] == TOP && RewrittenAs(ts, rest) == ClauseMoved(ts)
    ensures SelectAt(ts) + 4 <= QueryAt(ts) && (SelectAt(ts) + 4 <= LimitAt(ts) || QueryAt(ts) < LimitAt(ts) + 2)
  {
    TakenAreFirst(ts);
    TopIsNoKeyword(ts);
    RewrittenFront(ts, rest);
    hide LimitAt, SelectAt, ClauseAt, QueryAt, Moved, Abbreviates, Keyword, RewrittenAs;
    var i, k, j := SelectAt(ts), LimitAt(ts), QueryAt(ts);
    MovedAt(ts, j, ClauseAt(ts), i + 2);
    MovedAt(ts, j, ClauseAt(ts), i + 3);
  }

  lemma CutBehindSelect(ts: seq<seq<WChar>>, rest: seq<seq<WChar>>)
    requires Movable(ts) && HasClause(ts) && SelectAt(ts) < QueryAt(ts) && LimitAt(ts) < ClauseAt(ts)
    requires SelectAt(ts) + 1 < LimitAt(ts) && ts[SelectAt(ts) + 1] == TOP && |rest| == |Others(ts)|
    requires FirstCut(Others(ts), rest) && rest[0] != TOP && !Abbreviates(rest[0], LIMIT) && !Keyword(rest[0], SELECT)
    ensures RewrittenAs(ts, rest) != ClauseMoved(ts)
  {
    TakenStandFirst(ts);
    ClauseStandsFirst(ts);
    hide LimitAt, SelectAt, ClauseAt, QueryAt, Moved, Abbreviates, Keyword, RewrittenAs;
    var k, j := LimitAt(ts), QueryAt(ts);
    if RewrittenAs(ts, rest) == ClauseMoved(ts) {
      CutStandsThird(ts, rest);
      var q := if j < k + 2 then j else k;
      RewrittenBehind(ts, rest, q);
      MovedAt(ts, j, ClauseAt(ts), q);
    }
  }

  /** Only the T can go. */
  lemma CutTop(kept: seq<seq<WChar>>, rest: seq<seq<WChar>>)
    requires Shortened(kept, rest) && |rest| == |kept| && kept[0] == TOP
    ensures FirstCut(kept, rest) && rest[0] != TOP
    ensures !Abbreviates(rest[0], LIMIT) && !Keyword(rest[0], SELECT)
  {
    assert kept[0][1] == 'O' as int && !Imt('O' as int);
    assert |rest[0]| == 2 && rest[0] == kept[0][1..] == TOP[1..];
    assert Lower(TOP[1..][0]) != Lower(LIMIT[0]);
  }

  // ----- counting characters -----

  lemma {:induction false} InkOfAllAppend(a: seq<seq<WChar>>, b: seq<seq<WChar>>)
    ensures InkOfAll(a + b) == InkOfAll(a) + InkOfAll(b)
  {
    if a == [] {
      assert a + b == b;
    } else {
      InkOfAllAppend(a[1..], b);
      assert (a + b)[0] == a[0] && (a + b)[1..] == a[1..] + b;
      Associate(Ink(a[0]), InkOfAll(a[1..]), InkOfAll(b));
    }
  }

  lemma {:induction false} InkOfWord(t: seq<WChar>)
    requires forall q :: 0 <= q < |t| ==> !IsSpace(t[q])
    ensures Ink(t) == t
  {
    if t == [] {
    } else {
      InkOfWord(t[1..]);
      assert t == [t[0]] + t[1..];
    }
  }

  lemma KeywordInk(t: seq<WChar>)
    requires Abbreviates(t, LIMIT)
    ensures Ink(t) == t
  {
    InkOfWord(t);
  }

  /** The characters of a token list, however often each occurs. */
  function Chars(ts: seq<seq<WChar>>): multiset<WChar> {
    multiset(InkOfAll(ts))
  }

  lemma CharsAppend(a: seq<seq<WChar>>, b: seq<seq<WChar>>)
    ensures Chars(a + b) == Chars(a) + Chars(b)
  {
    InkOfAllAppend(a, b);
  }

  lemma CharsOfTwo(a: seq<WChar>, b: seq<WChar>)
    ensures Chars([a, b]) == multiset(Ink(a)) + multiset(Ink(b))
  {
    assert [a, b][1..] == [b] && [b][1..] == [];
    assert InkOfAll([b]) == Ink(b) && InkOfAll([a, b]) == Ink(a) + Ink(b);
  }

  /** A list with a pair x, y behind a part, and one with x, y and a second part before the third. */
  lemma CharsOfParts(a: seq<seq<WChar>>, x: seq<WChar>, y: seq<WChar>, b: seq<seq<WChar>>, c: seq<seq<WChar>>)
    ensures Chars(a + ([x, y] + (b + c))) == Chars(a) + multiset(Ink(x)) + multiset(Ink(y)) + Chars(b + c)
    ensures Chars(a + (b + ([x, y] + c))) == Chars(a) + multiset(Ink(x)) + multiset(Ink(y)) + Chars(b + c)
  {
    hide Chars;
    CharsOfTwo(x, y);
    CharsAppend(a, [x, y] + (b + c));
    CharsAppend([x, y], b + c);
    CharsAppend(a, b + ([x, y] + c));
    CharsAppend(b, [x, y] + c);
    CharsAppend([x, y], c);
    CharsAppend(b, c);
  }

  lemma CharsOfMoved(ts: seq<seq<WChar>>, j: nat, k: nat)
    requires j < k && k + 1 < |ts|
    ensures Chars(Moved(ts, j, k)) + multiset(Ink(ts[k])) == Chars(ts) + multiset(Ink(TOP))
  {
    hide Chars, Ink;
    var a, b, c := ts[..j + 1], ts[j + 1..k], ts[k + 2..];
    CharsOfParts(a, TOP, ts[k + 1], b, c);
    CharsOfParts(a, ts[k], ts[k + 1], b, c);
    assert ts == a + (b + ([ts[k], ts[k + 1]] + c));
  }

  lemma CharsOfRewritten(ts: seq<seq<WChar>>, rest: seq<seq<WChar>>)
    requires Movable(ts)
    ensures Chars(RewrittenAs(ts, rest)) + Chars(Others(ts)) + multiset(Ink(ts[LimitAt(ts)])) ==
            Chars(ts) + multiset(Ink(TOP)) + Chars(rest)
  {
    hide Chars, Ink, LimitAt, SelectAt;
    var i, k := SelectAt(ts), LimitAt(ts);
    var a, b, c := ts[..i + 1], ts[i + 1..k], ts[k + 2..];
    CharsOfParts(a, TOP, ts[k + 1], rest, []);
    assert rest + [] == rest;
    CharsOfParts(a, ts[k], ts[k + 1], b, c);
    assert ts == a + (b + ([ts[k], ts[k + 1]] + c));
  }

  lemma CancelChars(x: multiset<WChar>, a: multiset<WChar>, b: multiset<WChar>)
    requires a + x == b + x
    ensures a == b
  {
    forall c ensures a[c] == b[c] {
      assert (a + x)[c] == (b + x)[c];
    }
  }

  // ----- characters in the right place, lost, and left in the wrong place -----

  lemma TokenChars(x: seq<WChar>)
    ensures Chars(Tokens(x)) == multiset(Ink(x))
  {
    LexKeepsInk(x, 0);
    assert x[0..] == x;
  }

  /** Text put in front and text cut off account for the characters. */
  lemma CharsOfCut(left: seq<WChar>, kept: seq<WChar>, lost: nat)
    requires lost <= |kept|
    ensures Chars(Tokens(left + kept[lost..])) + multiset(Ink(kept[..lost])) ==
            Chars(Tokens(kept)) + multiset(Ink(left))
  {
    hide Tokens, Ink, Chars;
    assert kept == kept[..lost] + kept[lost..];
    InkAppend(kept[..lost], kept[lost..]);
    InkAppend(left, kept[lost..]);
    TokenChars(kept);
    TokenChars(left + kept[lost..]);
  }

  /**
   * A rewrite of the tokens ts keeps the text `kept`, but for `lost` characters at its front that are written over, or
   * puts `left` in front of it.
   */
  predicate Keeps(ts: seq<seq<WChar>>, left: seq<WChar>, kept: seq<WChar>, lost: nat) {
    Movable(ts) && lost <= |kept| && Tokens(kept) == Others(ts) && (left == [] || lost == 0)
  }

  /** What is executed then has the meant tokens. */
  predicate ComesOutRight(ts: seq<seq<WChar>>, left: seq<WChar>, kept: seq<WChar>, lost: nat)
    requires Keeps(ts, left, kept, lost)
  {
    RewrittenAs(ts, Tokens(left + kept[lost..])) == Meant(ts)
  }

  /** Then the characters balance. */
  lemma CharsBalance(ts: seq<seq<WChar>>, left: seq<WChar>, kept: seq<WChar>, lost: nat, gone: seq<WChar>)
    requires Keeps(ts, left, kept, lost) && ComesOutRight(ts, left, kept, lost)
    requires gone == if HasClause(ts) then ts[ClauseAt(ts)] else TOP
    ensures multiset(Ink(left)) + multiset(Ink(gone)) == multiset(Ink(kept[..lost])) + multiset(Ink(ts[LimitAt(ts)]))
  {
    hide Tokens, LimitAt, SelectAt, ClauseAt, QueryAt, Chars, Ink, Moved, Others, RewrittenAs;
    var rest := Tokens(left + kept[lost..]);
    CharsOfCut(left, kept, lost);
    CharsOfRewritten(ts, rest);
    if HasClause(ts) {
      CharsOfMoved(ts, QueryAt(ts), ClauseAt(ts));
    }
    BalanceOf(Chars(Meant(ts)), Chars(Others(ts)), multiset(Ink(ts[LimitAt(ts)])), Chars(ts), multiset(Ink(TOP)),
              Chars(rest), multiset(Ink(gone)), multiset(Ink(left)), multiset(Ink(kept[..lost])));
  }

  lemma BalanceOf(was: multiset<WChar>, others: multiset<WChar>, taken: multiset<WChar>, all: multiset<WChar>,
                  top: multiset<WChar>, rest: multiset<WChar>, gone: multiset<WChar>,
                  left: multiset<WChar>, lost: multiset<WChar>)
    requires was + others + taken == all + top + rest && was + gone == all + top && rest + lost == others + left
    ensures left + gone == lost + taken
  {
    forall c ensures (left + gone)[c] == (lost + taken)[c] {
      assert (was + others + taken)[c] == (all + top + rest)[c];
      assert (was + gone)[c] == (all + top)[c] && (rest + lost)[c] == (others + left)[c];
    }
  }

  lemma {:induction false} InkHas(s: seq<WChar>, q: nat)
    requires q < |s| && !IsSpace(s[q])
    ensures s[q] in Ink(s)
  {
    if q == 0 {
    } else {
      InkHas(s[1..], q - 1);
    }
  }

  /** What LIMIT has more than a beginning of it is none of its first letter. */
  lemma LettersLost(taken: seq<WChar>, kw: seq<WChar>, lost: seq<WChar>)
    requires Abbreviates(taken, LIMIT) && Keyword(kw, LIMIT)
    requires multiset(kw) == multiset(lost) + multiset(taken)
    ensures forall c :: c in lost ==> Imt(c)
  {
    var first := kw[0];
    assert kw == [first] + kw[1..];
    assert Lower(kw[1]) == 'i' as int && Lower(kw[2]) == 'm' as int && Lower(kw[3]) == 'i' as int;
    assert Lower(kw[4]) == 't' as int && Lower(first) == 'l' as int == Lower(taken[0]);
    assert kw[1..] == [kw[1], kw[2], kw[3], kw[4]];
    assert taken[0] in multiset(kw) && taken[0] == first;
    assert multiset(kw)[first] == 1;
    forall c | c in lost ensures Imt(c) {
      assert c in multiset(kw);
      assert (multiset(lost) + multiset(taken))[first] == 1;
      assert first !in multiset(lost);
    }
  }

  lemma SizesBalance(left: seq<WChar>, kw: seq<WChar>, lost: seq<WChar>, taken: seq<WChar>)
    requires multiset(Ink(left)) + multiset(kw) == multiset(Ink(lost)) + multiset(taken) && |taken| < |kw|
    ensures Ink(lost) != []
  {
    assert |multiset(Ink(left)) + multiset(kw)| == |Ink(left)| + |kw|;
    assert |multiset(Ink(lost)) + multiset(taken)| == |Ink(lost)| + |taken|;
  }

  lemma LettersCut(kept: seq<WChar>, lost: nat, taken: seq<WChar>, kw: seq<WChar>)
    requires lost <= |kept| && Ink(kept[..lost]) != [] && Abbreviates(taken, LIMIT) && Keyword(kw, LIMIT)
    requires multiset(kw) == multiset(Ink(kept[..lost])) + multiset(taken)
    ensures Shortened(Tokens(kept), Tokens(kept[lost..]))
  {
    var front := kept[..lost];
    LettersLost(taken, kw, Ink(front));
    NoInkIsBlank(front);
    assert kept == front + kept[lost..];
    LexShift(front, kept[lost..], 0);
    hide Tokens, Lex, Ink, Shortened, Abbreviates;
    forall k | 0 <= k < lost ensures IsSpace(kept[k]) || Imt(kept[k]) {
      assert kept[k] == front[k];
      if !IsSpace(front[k]) {
        InkHas(front, k);
      }
    }
    assert !Blank(kept, 0, lost) by {
      assert forall k :: 0 <= k < lost ==> kept[k] == front[k];
    }
    LostLetters(kept, lost);
  }

  // ----- the outcome -----

  lemma BlankDisplaced(left: seq<WChar>, lost: seq<WChar>)
    requires multiset(Ink(left)) == multiset(Ink(lost)) && (left == [] || lost == [])
    ensures Blank(left + lost, 0, |left + lost|)
  {
    assert |multiset(Ink(left))| == |Ink(left)| && |multiset(Ink(lost))| == |Ink(lost)|;
    NoInkIsBlank(left);
    NoInkIsBlank(lost);
    assert left + lost == if left == [] then lost else left;
  }

  /** TOP is not made up for by what is lost: its O is not in LIMIT, and the L of LIMIT is not in it. */
  lemma NotTop(left: seq<WChar>, lost: seq<WChar>, taken: seq<WChar>)
    requires Abbreviates(taken, LIMIT) && (left == [] || lost == [])
    ensures multiset(left) + multiset(TOP) != multiset(lost) + multiset(taken)
  {
    var o := TOP[1];
    assert o in multiset(left) + multiset(TOP) && Lower(taken[0]) == Lower(LIMIT[0]);
    if lost == [] {
      assert forall c :: c in taken ==> Lower(c) != Lower(o);
      assert o !in multiset(lost) + multiset(taken);
    } else {
      assert forall c :: c in TOP ==> Lower(c) != Lower(LIMIT[0]);
      assert taken[0] in multiset(lost) + multiset(taken) && taken[0] !in multiset(left) + multiset(TOP);
    }
  }

  lemma TopInk()
    ensures Ink(TOP) == TOP && Ink([]) == []
  {
    InkOfWord(TOP);
  }

  /** Only in a query that has a clause does it come out right. */
  lemma RightHasClause(ts: seq<seq<WChar>>, left: seq<WChar>, kept: seq<WChar>, lost: nat)
    requires Keeps(ts, left, kept, lost) && ComesOutRight(ts, left, kept, lost)
    ensures HasClause(ts)
  {
    if !HasClause(ts) {
      TakenStandFirst(ts);
      TopInk();
      hide Tokens, SelectAt, LimitAt, ClauseAt, QueryAt, ComesOutRight, Others, Ink, Abbreviates, Moved, Meant;
      CharsBalance(ts, left, kept, lost, TOP);
      KeywordInk(ts[LimitAt(ts)]);
      NotTop(Ink(left), Ink(kept[..lost]), ts[LimitAt(ts)]);
    }
  }

  lemma RightBalance(ts: seq<seq<WChar>>, left: seq<WChar>, kept: seq<WChar>, lost: nat)
    requires Keeps(ts, left, kept, lost) && ComesOutRight(ts, left, kept, lost)
    ensures HasClause(ts)
    ensures multiset(Ink(left)) + multiset(ts[ClauseAt(ts)]) == multiset(Ink(kept[..lost])) + multiset(ts[LimitAt(ts)])
  {
    RightHasClause(ts, left, kept, lost);
    TakenStandFirst(ts);
    ClauseStandsFirst(ts);
    hide Tokens, LimitAt, SelectAt, ClauseAt, QueryAt, ComesOutRight, Others, Ink;
    KeywordInk(ts[LimitAt(ts)]);
    KeywordInk(ts[ClauseAt(ts)]);
    CharsBalance(ts, left, kept, lost, ts[ClauseAt(ts)]);
  }

  /** A LIMIT taken too early loses letters of LIMIT at the front of the kept text. */
  lemma EarlyLoss(ts: seq<seq<WChar>>, left: seq<WChar>, kept: seq<WChar>, lost: nat)
    requires Keeps(ts, left, kept, lost) && HasClause(ts) && LimitAt(ts) < ClauseAt(ts)
    requires multiset(Ink(left)) + multiset(ts[ClauseAt(ts)]) == multiset(Ink(kept[..lost])) + multiset(ts[LimitAt(ts)])
    ensures Shortened(Others(ts), Tokens(left + kept[lost..]))
  {
    TakenStandFirst(ts);
    ClauseStandsFirst(ts);
    assert !Keyword(ts[LimitAt(ts)], LIMIT);
    hide Tokens, LimitAt, SelectAt, ClauseAt, QueryAt, Others, Ink, Shortened;
    var taken, kw := ts[LimitAt(ts)], ts[ClauseAt(ts)];
    SizesBalance(left, kw, kept[..lost], taken);
    assert left == [] && left + kept[lost..] == kept[lost..];
    TopInk();
    assert multiset(kw) == multiset(Ink(kept[..lost])) + multiset(taken);
    LettersCut(kept, lost, taken, kw);
  }

  /** With a LIMIT taken too early it does not come out right. */
  lemma RightTakesLimit(ts: seq<seq<WChar>>, left: seq<WChar>, kept: seq<WChar>, lost: nat)
    requires Keeps(ts, left, kept, lost) && ComesOutRight(ts, left, kept, lost)
    ensures HasClause(ts) && LimitAt(ts) == ClauseAt(ts)
  {
    RightBalance(ts, left, kept, lost);
    TakenIsBefore(ts);
    hide Tokens, LimitAt, SelectAt, ClauseAt, QueryAt, Others, Ink, Shortened, RewrittenAs, Moved;
    if LimitAt(ts) < ClauseAt(ts) {
      EarlyLoss(ts, left, kept, lost);
      if SelectAt(ts) == QueryAt(ts) {
        EarlyLimit(ts, Tokens(left + kept[lost..]));
      } else {
        EarlySelect(ts, Tokens(left + kept[lost..]));
      }
    }
  }

  /** With the right LIMIT, what is displaced is blank. */
  lemma RightDisplacesBlank(ts: seq<seq<WChar>>, left: seq<WChar>, kept: seq<WChar>, lost: nat)
    requires Keeps(ts, left, kept, lost) && ComesOutRight(ts, left, kept, lost)
    ensures Blank(left + kept[..lost], 0, |left + kept[..lost]|)
  {
    RightTakesLimit(ts, left, kept, lost);
    RightBalance(ts, left, kept, lost);
    hide Tokens, LimitAt, SelectAt, ClauseAt, QueryAt, Others, Ink, ComesOutRight, Blank;
    var taken := ts[LimitAt(ts)];
    CancelChars(multiset(taken), multiset(Ink(left)), multiset(Ink(kept[..lost])));
    BlankDisplaced(left, kept[..lost]);
  }

  // ----- the rewritten text -----

  /** The tokens of the rewritten text, told from the text behind the number. */
  lemma RewrittenList(s: seq<WChar>)
    requires PlanOf(s).Move? && WellPlaced(s, PlanOf(s))
    ensures Ordered(s, PlanOf(s)) && Movable(Tokens(s))
    ensures var m := PlanOf(s);
            TokenKind(s, m.num) != InOpenQuote && m.selectEnd < m.next ==>
              Tokens(Rewritten(s, m)) ==
              RewrittenAs(Tokens(s), Tokens(LeftBehind(s, m) + Kept(s, m)[Lost(m)..]))
    ensures PlanOf(s).selectEnd == PlanOf(s).next ==>
              !(Tokens(s)[..SelectAt(Tokens(s)) + 1] <= Tokens(Rewritten(s, PlanOf(s))))
  {
    var m, ts := PlanOf(s), Tokens(s);
    SelectPart(s);
    NumberPart(s);
    hide Tokens, TokenKind, EndingFrom, PlanOf, LimitAt, SelectAt, LeftBehind, Kept, Lost;
    var number, rest := s[m.num..m.numEnd], LeftBehind(s, m) + Kept(s, m)[Lost(m)..];
    var x := TOP_SPACES + (number + ([SPACE] + rest));
    TopAndNumber(number, rest, Tokens(rest));
    SelectInFront(s[..m.next], x, [TOP, number] + Tokens(rest));
    TokensCompose(s[..m.next], x);
  }

  lemma ListStartsLike(ts: seq<seq<WChar>>)
    requires Movable(ts)
    ensures ts[..SelectAt(ts) + 1] <= Meant(ts)
  {
    if HasClause(ts) {
      TakenIsBefore(ts);
    }
  }

  lemma RewriteKeeps(s: seq<WChar>)
    requires PlanOf(s).Move? && WellPlaced(s, PlanOf(s))
    ensures var m := PlanOf(s); Keeps(Tokens(s), LeftBehind(s, m), Kept(s, m), Lost(m))
  {
    KeptPart(s);
  }

  /** A rewrite with a number that ends comes out as meant only if it is harmless. */
  lemma MeantIsHarmless(s: seq<WChar>)
    requires PlanOf(s).Move? && WellPlaced(s, PlanOf(s))
    ensures Ordered(s, PlanOf(s))
    ensures TokenKind(s, PlanOf(s).num) != InOpenQuote && Tokens(Rewritten(s, PlanOf(s))) == Meant(Tokens(s)) ==>
              Harmless(s, PlanOf(s))
  {
    var m, ts := PlanOf(s), Tokens(s);
    RewrittenList(s);
    ListStartsLike(ts);
    RewriteKeeps(s);
    if TokenKind(s, m.num) != InOpenQuote && Tokens(Rewritten(s, m)) == Meant(ts) {
      hide Tokens, PlanOf, Rewritten, TokenKind, Blank, Meant, LeftBehind, Kept, Lost, Keeps, RewrittenAs, SelectAt;
      RightDisplacesBlank(ts, LeftBehind(s, m), Kept(s, m), Lost(m));
    }
  }
}
