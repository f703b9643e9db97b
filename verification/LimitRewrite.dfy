/**
 * fxmy_rearrange_limit: SELECT xs LIMIT n is turned into SELECT TOP n xs inside the query's own buffer.
 * The plan says what the token scan finds, `Rewritten` what the three block moves leave behind.
 */
module LimitRewrite {
  import opened CStrings
  import opened Tokenizer
  import opened Search
  import opened Clauses

  const TOP_SPACES: seq<WChar> := TOP + [SPACE, SPACE]

  // ----- the plan -----

  /**
   * `Move` holds the end of SELECT, the start of the token after it, and the bounds of the LIMIT and number tokens.
   * `Wild` is a LIMIT with no token after SELECT before it or no token behind it: the C code then moves memory
   * at a null pointer.
   */
  datatype Plan = NoLimit | Wild | Move(selectEnd: nat, next: nat, limit: nat, limitEnd: nat, num: nat, numEnd: nat)

  function MoveOf(spans: seq<Span>, j: nat, k: nat): (m: Plan)
    requires j < k && k + 1 < |spans|
    ensures m.Move?
  {
    Move(spans[j].end, spans[j + 1].start, spans[k].start, spans[k].end, spans[k + 1].start, spans[k + 1].end)
  }

  function PlanOf(s: seq<WChar>): Plan {
    var ts := Tokens(s);
    SameCount(s, 0);
    if LimitAt(ts) == |ts| then NoLimit
    else if !Movable(ts) then Wild
    else MoveOf(Spans(s, 0), SelectAt(ts), LimitAt(ts))
  }

  predicate Ordered(s: seq<WChar>, m: Plan) {
    m.Move? && m.selectEnd <= m.next <= m.limit < m.limitEnd <= m.num < m.numEnd <= |s|
  }

  lemma MoveIsOrdered(s: seq<WChar>, ts: seq<Span>, j: nat, k: nat)
    requires j < k && k + 1 < |ts|
    requires ts[j].end <= ts[j + 1].start <= ts[k].start < ts[k].end <= ts[k + 1].start < ts[k + 1].end <= |s|
    ensures Ordered(s, MoveOf(ts, j, k))
  {
  }

  lemma MoveOfSpans(s: seq<WChar>, j: nat, k: nat)
    requires j < k && k + 1 < |Spans(s, 0)|
    ensures Ordered(s, MoveOf(Spans(s, 0), j, k))
  {
    SpansAscend(s, 0, j, j + 1);
    SpansAscend(s, 0, j + 1, k);
    SpansAscend(s, 0, k, k + 1);
    MoveIsOrdered(s, Spans(s, 0), j, k);
  }

  lemma PlanIsOrdered(s: seq<WChar>)
    requires PlanOf(s).Move?
    ensures Ordered(s, PlanOf(s))
  {
    SameCount(s, 0);
    MoveOfSpans(s, SelectAt(Tokens(s)), LimitAt(Tokens(s)));
  }

  lemma SpansAscend(s: seq<WChar>, i: nat, j: nat, k: nat)
    requires i <= |s| && j <= k < |Spans(s, i)|
    ensures Spans(s, i)[j].start <= Spans(s, i)[k].start
    ensures j < k ==> Spans(s, i)[j].end <= Spans(s, i)[k].start
  {
    FromToken(s, i, j);
    var t := Spans(s, i)[j];
    if j < k {
      assert Spans(s, i)[k] == Spans(s, t.end)[k - (j + 1)];
    }
  }

  // ----- what is left in the buffer -----

  /** The number of characters written over by "TOP  n ". */
  function Written(m: Plan): nat
    requires m.Move? && m.num <= m.numEnd
  {
    6 + (m.numEnd - m.num)
  }

  predicate WellPlaced(b: seq<WChar>, m: Plan) {
    m.Move? && m.next <= m.limit <= m.limitEnd <= m.num <= m.numEnd <= |b| && m.next + Written(m) <= |b|
  }

  /** What stands between SELECT and LIMIT, and everything behind the number. */
  function Kept(b: seq<WChar>, m: Plan): seq<WChar>
    requires WellPlaced(b, m)
  {
    b[m.next..m.limit] + b[m.numEnd..]
  }

  /** Old text that stays between the number and the shifted part because the LIMIT clause was longer than "TOP  n ". */
  function LeftBehind(b: seq<WChar>, m: Plan): seq<WChar>
    requires WellPlaced(b, m)
  {
    if Written(m) <= m.numEnd - m.limit then b[m.next + Written(m)..m.next + (m.numEnd - m.limit)] else []
  }

  /** How many characters of the kept text are written over because the LIMIT clause was shorter than "TOP  n ". */
  function Lost(m: Plan): nat
    requires m.Move? && m.limit <= m.numEnd && m.num <= m.numEnd
  {
    if Written(m) <= m.numEnd - m.limit then 0 else Written(m) - (m.numEnd - m.limit)
  }

  /** The buffer afterwards: SELECT, "TOP  ", the number, a space, and the kept text behind what was left or lost. */
  function Rewritten(b: seq<WChar>, m: Plan): (r: seq<WChar>)
    requires WellPlaced(b, m)
    ensures |r| == |b|
  {
    b[..m.next] + (TOP_SPACES + (b[m.num..m.numEnd] + ([SPACE] + (LeftBehind(b, m) + Kept(b, m)[Lost(m)..]))))
  }

  // ----- the block moves compute it -----

  /** The three moves of the C code, one after the other. */
  function MovesApplied(b: seq<WChar>, m: Plan): seq<WChar>
    requires WellPlaced(b, m)
  {
    var shifted := Overlay(b, m.next + (m.numEnd - m.limit), b[m.next..m.limit]);
    Overlay(Overlay(shifted, m.next, TOP_SPACES), m.next + 5, b[m.num..m.numEnd] + [SPACE])
  }

  lemma OverlayTwice(b: seq<WChar>, at: nat, u: seq<WChar>, v: seq<WChar>)
    requires at + |u| + |v| <= |b|
    ensures Overlay(Overlay(b, at, u), at + |u|, v) == b[..at] + (u + (v + b[at + |u| + |v|..]))
  {
  }

  lemma ShiftLeavesKept(b: seq<WChar>, m: Plan)
    requires WellPlaced(b, m)
    ensures Overlay(b, m.next + (m.numEnd - m.limit), b[m.next..m.limit]) ==
            b[..m.next + (m.numEnd - m.limit)] + Kept(b, m)
  {
  }

  lemma DropOf(p: seq<WChar>, q: seq<WChar>, at: nat)
    requires at <= |p| + |q|
    ensures (p + q)[at..] == if at <= |p| then p[at..] + q else q[at - |p|..]
  {
  }

  lemma TailOfShifted(b: seq<WChar>, m: Plan, head: seq<WChar>)
    requires WellPlaced(b, m) && head == b[..m.next + (m.numEnd - m.limit)]
    ensures |head| == m.next + (m.numEnd - m.limit)
    ensures (head + Kept(b, m))[m.next + Written(m)..] == LeftBehind(b, m) + Kept(b, m)[Lost(m)..]
  {
    DropOf(head, Kept(b, m), m.next + Written(m));
    if Lost(m) == 0 {
      assert head[m.next + Written(m)..] == LeftBehind(b, m);
    }
  }

  lemma WriteBehind(b: seq<WChar>, at: nat, number: seq<WChar>, behind: nat)
    requires at + 6 + |number| == behind <= |b|
    ensures Overlay(Overlay(b, at, TOP_SPACES), at + 5, number + [SPACE]) ==
            b[..at] + (TOP_SPACES + (number + ([SPACE] + b[behind..])))
  {
    OverlayTwice(b, at, TOP_SPACES, number + [SPACE]);
    Associate(number, [SPACE], b[behind..]);
  }

  lemma HeadOfShifted(b: seq<WChar>, cut: nat, at: nat, tail: seq<WChar>)
    requires at <= cut <= |b|
    ensures (b[..cut] + tail)[..at] == b[..at]
  {
  }

  lemma MovesAreTheRewrite(b: seq<WChar>, m: Plan)
    requires WellPlaced(b, m)
    ensures MovesApplied(b, m) == Rewritten(b, m)
  {
    var cut := m.next + (m.numEnd - m.limit);
    ShiftLeavesKept(b, m);
    TailOfShifted(b, m, b[..cut]);
    HeadOfShifted(b, cut, m.next, Kept(b, m));
    WriteBehind(b[..cut] + Kept(b, m), m.next, b[m.num..m.numEnd], m.next + Written(m));
  }

  // ----- what the rewrite does to the tokens -----

  /** The query up to the token after SELECT: its tokens, and how it ends. */
  lemma SelectPart(s: seq<WChar>)
    requires PlanOf(s).Move?
    ensures Ordered(s, PlanOf(s))
    ensures var m := PlanOf(s);
            && Tokens(s[..m.next]) == Tokens(s)[..SelectAt(Tokens(s)) + 1]
            && EndingFrom(s[..m.next], 0) == if m.selectEnd < m.next then InBlank else InWord
  {
    PlanIsOrdered(s);
    var j, m := SelectAt(Tokens(s)), PlanOf(s);
    SameCount(s, 0);
    TruncatedText(s, 0, j + 1);
    EndingBefore(s, 0, j + 1);
    KeywordStart(s, j, SELECT);
  }

  /** A token that abbreviates a keyword starts with the keyword's first letter. */
  lemma KeywordStart(s: seq<WChar>, k: nat, kw: seq<WChar>)
    requires k < |Spans(s, 0)| == |Tokens(s)| && Abbreviates(Tokens(s)[k], kw)
    ensures Lower(s[Spans(s, 0)[k].start]) == Lower(kw[0])
  {
    var t := Spans(s, 0)[k];
    FromTokenText(s, 0, k);
    assert Tokens(s)[k][0] == s[t.start];
  }

  /** The text between SELECT and LIMIT: its tokens, and that anything may follow it. */
  lemma MiddlePart(s: seq<WChar>)
    requires PlanOf(s).Move?
    ensures Ordered(s, PlanOf(s))
    ensures var m, ts := PlanOf(s), Tokens(s);
            && Tokens(s[m.next..m.limit]) == ts[SelectAt(ts) + 1..LimitAt(ts)]
            && EndingFrom(s[m.next..m.limit], 0) in {InBlank, InClosedQuote}
  {
    PlanIsOrdered(s);
    SameCount(s, 0);
    MiddleFrom(s, SelectAt(Tokens(s)) + 1, LimitAt(Tokens(s)), PlanOf(s).next, PlanOf(s).limit);
  }

  lemma MiddleFrom(s: seq<WChar>, from: nat, k: nat, lo: nat, hi: nat)
    requires from <= k < |Spans(s, 0)| == |Tokens(s)| && lo == Spans(s, 0)[from].start <= hi == Spans(s, 0)[k].start
    requires Abbreviates(Tokens(s)[k], LIMIT)
    ensures Tokens(s[lo..hi]) == Tokens(s)[from..k] && EndingFrom(s[lo..hi], 0) in {InBlank, InClosedQuote}
  {
    TokensBetween(s, from, k, lo, hi);
    if from < k {
      EndingBetween(s, from, k, lo, hi);
      KeywordStart(s, k, LIMIT);
    } else {
      assert s[lo..hi] == [];
    }
  }

  /** The number and the text behind it. */
  lemma NumberPart(s: seq<WChar>)
    requires PlanOf(s).Move?
    ensures Ordered(s, PlanOf(s))
    ensures var m, ts := PlanOf(s), Tokens(s);
            && s[m.num..m.numEnd] == ts[LimitAt(ts) + 1] && Tokens(s[m.num..m.numEnd]) == [s[m.num..m.numEnd]]
            && EndingFrom(s[m.num..m.numEnd], 0) == TokenKind(s, m.num)
            && Tokens(s[m.numEnd..]) == ts[LimitAt(ts) + 2..]
  {
    PlanIsOrdered(s);
    var k, m := LimitAt(Tokens(s)), PlanOf(s);
    SameCount(s, 0);
    FromToken(s, 0, k + 1);
    FromTokenText(s, 0, k + 1);
    TokenAlone(s, m.num);
    Suffix(s, m.numEnd);
  }

  /** The kept text has the tokens between SELECT and LIMIT and those behind the number. */
  lemma KeptPart(s: seq<WChar>)
    requires PlanOf(s).Move? && WellPlaced(s, PlanOf(s))
    ensures var ts := Tokens(s);
            Tokens(Kept(s, PlanOf(s))) == ts[SelectAt(ts) + 1..LimitAt(ts)] + ts[LimitAt(ts) + 2..]
  {
    var m := PlanOf(s);
    MiddlePart(s);
    NumberPart(s);
    TokensCompose(s[m.next..m.limit], s[m.numEnd..]);
  }

  /** The old text that the rewrite leaves in the wrong place or writes over. */
  function Displaced(s: seq<WChar>, m: Plan): seq<WChar>
    requires WellPlaced(s, m)
  {
    LeftBehind(s, m) + Kept(s, m)[..Lost(m)]
  }

  /** What a caller can read off the query: blank behind SELECT, no unclosed quote as number, only blanks displaced. */
  predicate Harmless(s: seq<WChar>, m: Plan)
    requires WellPlaced(s, m) && m.num < |s|
  {
    m.selectEnd < m.next && TokenKind(s, m.num) != InOpenQuote && Blank(Displaced(s, m), 0, |Displaced(s, m)|)
  }

  lemma DisplacedIsSeen(s: seq<WChar>, m: Plan)
    requires WellPlaced(s, m)
    ensures Tokens(LeftBehind(s, m) + Kept(s, m)[Lost(m)..]) == Tokens(Kept(s, m)) <==>
            Blank(Displaced(s, m), 0, |Displaced(s, m)|)
  {
    hide Tokens, Blank;
    var left, kept, lost := LeftBehind(s, m), Kept(s, m), Lost(m);
    if lost == 0 {
      assert kept[..0] == [] && kept[0..] == kept;
      assert left + [] == left;
      PrefixUnseen(left, kept);
    } else {
      assert left == [] && left + kept[..lost] == kept[..lost] && left + kept[lost..] == kept[lost..];
      assert kept[..lost] + kept[lost..] == kept;
      PrefixUnseen(kept[..lost], kept[lost..]);
    }
  }

  lemma TopAlone()
    ensures Tokens(TOP) == [TOP] && EndingFrom(TOP, 0) == InWord
  {
    assert MaximalToken(TOP, Span(0, 3));
    MaximalTokenEnd(TOP, Span(0, 3));
    SpaceEndIs(TOP, 0, 0);
    Next(TOP, 0, 0, 3);
    assert TOP[0..3] == TOP;
  }

  /** "TOP  " in front of anything is one token more. */
  lemma TopInFront(y: seq<WChar>)
    ensures Tokens(TOP_SPACES + y) == [TOP] + Tokens(y)
  {
    var gap: seq<WChar> := [SPACE, SPACE];
    assert TOP_SPACES + y == TOP + (gap + y);
    TopAlone();
    assert Boundary(TOP, gap + y);
    TokensCompose(TOP, gap + y);
    PrefixUnseen(gap, y);
  }

  /** The number with a space behind it is one token, unless it swallows what follows. */
  lemma NumberInFront(number: seq<WChar>, rest: seq<WChar>)
    requires Tokens(number) == [number]
    ensures EndingFrom(number, 0) != InOpenQuote ==> Tokens(number + ([SPACE] + rest)) == [number] + Tokens(rest)
    ensures EndingFrom(number, 0) == InOpenQuote ==> !([number] <= Tokens(number + ([SPACE] + rest)))
  {
    var gap: seq<WChar> := [SPACE];
    assert (gap + rest)[0] == SPACE;
    assert Boundary(number, gap + rest) <==> EndingFrom(number, 0) != InOpenQuote;
    TokensCompose(number, gap + rest);
    PrefixUnseen(gap, rest);
  }

  lemma CancelPrefix<T>(p: seq<T>, x: seq<T>, y: seq<T>)
    ensures p + x == p + y <==> x == y
  {
    if p + x == p + y {
      assert x == (p + x)[|p|..] == (p + y)[|p|..] == y;
    }
  }

  lemma TopAndNumber(number: seq<WChar>, rest: seq<WChar>, goal: seq<seq<WChar>>)
    requires Tokens(number) == [number]
    ensures Tokens(TOP_SPACES + (number + ([SPACE] + rest))) == [TOP, number] + goal <==>
            EndingFrom(number, 0) != InOpenQuote && Tokens(rest) == goal
  {
    var y := number + ([SPACE] + rest);
    TopInFront(y);
    NumberInFront(number, rest);
    Associate([TOP], [number], goal);
    CancelPrefix([TOP], Tokens(y), [number] + goal);
    CancelPrefix([number], Tokens(rest), goal);
  }

  /** SELECT and what is before it stay as they are exactly when a blank follows SELECT. */
  lemma SelectInFront(p: seq<WChar>, x: seq<WChar>, goal: seq<seq<WChar>>)
    requires EndingFrom(p, 0) in {InBlank, InWord} && x != [] && !IsDelimiter(x[0])
    ensures Tokens(p + x) == Tokens(p) + goal <==> EndingFrom(p, 0) == InBlank && Tokens(x) == goal
  {
    TokensCompose(p, x);
    CancelPrefix(Tokens(p), Tokens(x), goal);
  }

  lemma RewriteTokens(s: seq<WChar>, m: Plan, goal: seq<seq<WChar>>)
    requires WellPlaced(s, m) && m.num < |s|
    requires EndingFrom(s[..m.next], 0) == if m.selectEnd < m.next then InBlank else InWord
    requires Tokens(s[m.num..m.numEnd]) == [s[m.num..m.numEnd]]
    requires EndingFrom(s[m.num..m.numEnd], 0) == TokenKind(s, m.num)
    requires Tokens(Kept(s, m)) == goal
    ensures Tokens(Rewritten(s, m)) == Tokens(s[..m.next]) + ([TOP, s[m.num..m.numEnd]] + goal) <==> Harmless(s, m)
  {
    var number, rest := s[m.num..m.numEnd], LeftBehind(s, m) + Kept(s, m)[Lost(m)..];
    DisplacedIsSeen(s, m);
    TopAndNumber(number, rest, goal);
    SelectInFront(s[..m.next], TOP_SPACES + (number + ([SPACE] + rest)), [TOP, number] + goal);
  }

  /**
   * The rewrite moves what it takes for LIMIT n behind what it takes for SELECT, and changes nothing else about the
   * query's tokens, exactly for the harmless queries.
   */
  lemma RewriteMovesLimit(s: seq<WChar>)
    requires PlanOf(s).Move? && WellPlaced(s, PlanOf(s))
    ensures PlanOf(s).num < |s|
    ensures Tokens(Rewritten(s, PlanOf(s))) == LimitMoved(Tokens(s)) <==> Harmless(s, PlanOf(s))
  {
    hide Tokens, Rewritten, Harmless, TokenKind, EndingFrom, LimitAt, SelectAt, Kept;
    var m, ts := PlanOf(s), Tokens(s);
    SelectPart(s);
    NumberPart(s);
    KeptPart(s);
    RewriteTokens(s, m, ts[SelectAt(ts) + 1..LimitAt(ts)] + ts[LimitAt(ts) + 2..]);
  }

  /** The text itself is the intended one exactly when LIMIT and the gap behind it take six characters together. */
  lemma RewriteIsExact(s: seq<WChar>, m: Plan)
    requires WellPlaced(s, m)
    ensures Rewritten(s, m) == s[..m.next] + (TOP_SPACES + (s[m.num..m.numEnd] + ([SPACE] + Kept(s, m)))) <==>
            m.num - m.limit == 6
  {
    if m.num - m.limit == 6 {
      assert LeftBehind(s, m) == [] && [] + Kept(s, m)[0..] == Kept(s, m);
    }
  }

  /**
   * SELECT and LIMIT in full, one character behind LIMIT, then the number, and a blank behind SELECT: what the function
   * was written for.
   */
  predicate Textbook(s: seq<WChar>, m: Plan) {
    var ts := Tokens(s);
    && Ordered(s, m) && m.limitEnd == m.limit + 5 && m.num == m.limitEnd + 1
    && m.selectEnd < m.next && TokenKind(s, m.num) != InOpenQuote
    && SelectAt(ts) < |ts| && Keyword(ts[SelectAt(ts)], SELECT)
  }

  /** Spelled in full, the tokens taken for the keywords are the keywords. */
  lemma SpelledInFull(ts: seq<seq<WChar>>)
    requires Movable(ts) && Keyword(ts[LimitAt(ts)], LIMIT) && Keyword(ts[SelectAt(ts)], SELECT)
    ensures ClauseFound(ts) && LimitAt(ts) == ClauseAt(ts) && SelectAt(ts) == QueryAt(ts)
  {
    assert ClauseAt(ts) <= LimitAt(ts);
    var front := ts[..LimitAt(ts)];
    assert front[SelectAt(ts)] == ts[SelectAt(ts)];
    assert forall i :: 0 <= i < SelectAt(ts) ==> !Abbreviates(front[i], SELECT);
  }

  lemma TextbookClause(s: seq<WChar>)
    requires PlanOf(s).Move? && Textbook(s, PlanOf(s))
    ensures ClauseFound(Tokens(s)) && LimitMoved(Tokens(s)) == ClauseMoved(Tokens(s)) == Meant(Tokens(s))
  {
    var ts := Tokens(s);
    LexIsSpanText(s, 0);
    SpelledInFull(ts);
    MovesTheClause(ts);
  }

  /** Every textbook query is rewritten as intended, inside its own length. */
  lemma TextbookQueryIsMoved(s: seq<WChar>)
    requires PlanOf(s).Move? && Textbook(s, PlanOf(s))
    ensures WellPlaced(s, PlanOf(s)) && HasClause(Tokens(s))
    ensures Tokens(Rewritten(s, PlanOf(s))) == ClauseMoved(Tokens(s))
  {
    hide Rewritten, Tokens, LimitMoved, ClauseMoved, ClauseFound;
    TextbookClause(s);
    RewriteMovesLimit(s);
  }

  /** Nothing is found exactly when no token is a nonempty prefix of LIMIT in either case. */
  lemma NoLimitMeansNoToken(s: seq<WChar>)
    ensures PlanOf(s) == NoLimit <==> forall t :: t in Tokens(s) ==> !Abbreviates(t, LIMIT)
  {
    LexIsSpanText(s, 0);
    var ts := Tokens(s);
    if LimitAt(ts) < |ts| {
      assert ts[LimitAt(ts)] in ts;
    }
  }

  // ----- the same in a buffer with its terminator -----

  lemma OverlayInFront(s: seq<WChar>, tail: seq<WChar>, at: nat, data: seq<WChar>)
    requires at + |data| <= |s|
    ensures Overlay(s + tail, at, data) == Overlay(s, at, data) + tail
  {
  }

  lemma OverlayHasNoZero(s: seq<WChar>, at: nat, data: seq<WChar>)
    requires at + |data| <= |s| && 0 !in s && 0 !in data
    ensures 0 !in Overlay(s, at, data)
  {
  }

  lemma MovesInBuffer(s: seq<WChar>, tail: seq<WChar>, m: Plan)
    requires WellPlaced(s, m)
    ensures WellPlaced(s + tail, m) && MovesApplied(s + tail, m) == MovesApplied(s, m) + tail
  {
    var at, kept, number := m.next + (m.numEnd - m.limit), s[m.next..m.limit], s[m.num..m.numEnd] + [SPACE];
    SlicePrefix(s, tail, m.next, m.limit);
    SlicePrefix(s, tail, m.num, m.numEnd);
    var shifted := Overlay(s, at, kept);
    OverlayInFront(s, tail, at, kept);
    OverlayInFront(shifted, tail, m.next, TOP_SPACES);
    OverlayInFront(Overlay(shifted, m.next, TOP_SPACES), tail, m.next + 5, number);
  }

  /** A rewrite that fits in the string leaves its terminator, and everything behind it, in place. */
  lemma RewrittenInBuffer(s: seq<WChar>, tail: seq<WChar>, m: Plan)
    requires WellPlaced(s, m)
    ensures WellPlaced(s + tail, m) && Rewritten(s + tail, m) == Rewritten(s, m) + tail
  {
    MovesInBuffer(s, tail, m);
    MovesAreTheRewrite(s, m);
    MovesAreTheRewrite(s + tail, m);
  }

  lemma RewriteHasNoZero(s: seq<WChar>, m: Plan)
    requires WellPlaced(s, m) && 0 !in s
    ensures 0 !in Rewritten(s, m)
  {
    hide Overlay, Rewritten;
    var shifted := Overlay(s, m.next + (m.numEnd - m.limit), s[m.next..m.limit]);
    OverlayHasNoZero(s, m.next + (m.numEnd - m.limit), s[m.next..m.limit]);
    OverlayHasNoZero(shifted, m.next, TOP_SPACES);
    OverlayHasNoZero(Overlay(shifted, m.next, TOP_SPACES), m.next + 5, s[m.num..m.numEnd] + [SPACE]);
    MovesAreTheRewrite(s, m);
  }

  /** The string keeps its terminator exactly when the write stays inside it. */
  lemma TerminatorKept(b: seq<WChar>, n: nat, m: Plan)
    requires n < |b| && b[n] == 0 && WellPlaced(b, m) && m.numEnd <= n && (forall k :: 0 <= k < n ==> b[k] != 0)
    ensures Rewritten(b, m)[n] == 0 <==> m.next + Written(m) <= n
  {
    MovesAreTheRewrite(b, m);
  }

  /** The written part on its own: SELECT side and everything from the end of the number on are untouched. */
  lemma OnlyTheClauseChanges(b: seq<WChar>, m: Plan)
    requires WellPlaced(b, m) && Written(m) == m.numEnd - m.limit
    ensures Rewritten(b, m)[..m.next] == b[..m.next] && Rewritten(b, m)[m.numEnd..] == b[m.numEnd..]
  {
    MovesAreTheRewrite(b, m);
  }

  // ----- the function -----

  /** Return value 1, return value 0, and a move through a null pointer or past the end of the buffer. */
  datatype Outcome = NotFound | Done | Fault

  lemma FirstMatchSnoc(ts: seq<seq<WChar>>, k: nat, kw: seq<WChar>)
    requires k < |ts|
    ensures var j := FirstMatch(ts[..k], kw);
            FirstMatch(ts[..k + 1], kw) == if j < k || Abbreviates(ts[k], kw) then j else k + 1
  {
    var j, j' := FirstMatch(ts[..k], kw), FirstMatch(ts[..k + 1], kw);
    assert forall i :: 0 <= i < k ==> ts[..k + 1][i] == ts[..k][i];
    assert ts[..k + 1][k] == ts[k];
  }

  lemma FirstMatchIs(ts: seq<seq<WChar>>, k: nat, kw: seq<WChar>)
    requires k <= |ts| && FirstMatch(ts[..k], kw) == k && (k < |ts| ==> Abbreviates(ts[k], kw))
    ensures FirstMatch(ts, kw) == k
  {
    assert forall i :: 0 <= i < k ==> ts[..k][i] == ts[i];
  }

  /** What the scan knows of SELECT when it has passed k tokens. */
  ghost predicate SelectSeen(ts: seq<seq<WChar>>, spans: seq<Span>, k: nat, select: Option<nat>, next: Option<nat>) {
    k <= |ts| == |spans| &&
    var j := FirstMatch(ts[..k], SELECT);
    if j == k then select == None && next == None
    else select == Some(spans[j].start) && next == if j + 1 < k then Some(spans[j + 1].start) else None
  }

  lemma SelectStep(ts: seq<seq<WChar>>, spans: seq<Span>, k: nat, select: Option<nat>, next: Option<nat>,
                   select': Option<nat>, next': Option<nat>)
    requires k < |ts| && SelectSeen(ts, spans, k, select, next)
    requires select' == if select.None? && Abbreviates(ts[k], SELECT) then Some(spans[k].start) else select
    requires next' == if next.None? && select.Some? then Some(spans[k].start) else next
    ensures SelectSeen(ts, spans, k + 1, select', next')
  {
    FirstMatchSnoc(ts, k, SELECT);
  }

  lemma LimitReached(ts: seq<seq<WChar>>, spans: seq<Span>, k: nat, select: Option<nat>, next: Option<nat>)
    requires k < |ts| && SelectSeen(ts, spans, k, select, next)
    requires FirstMatch(ts[..k], LIMIT) == k && Abbreviates(ts[k], LIMIT)
    ensures LimitAt(ts) == k
    ensures (if next.None? && select.Some? then Some(spans[k].start) else next) ==
            if SelectAt(ts) < k then Some(spans[SelectAt(ts) + 1].start) else None
  {
    FirstMatchIs(ts, k, LIMIT);
  }

  /** The scan stands behind token k - 1, none of the tokens so far being LIMIT. */
  ghost predicate Scanned(s: seq<WChar>, at: nat, k: nat, select: Option<nat>, next: Option<nat>) {
    && at <= |s| && k <= |Tokens(s)| == |Spans(s, 0)|
    && Spans(s, at) == Spans(s, 0)[k..] && Lex(s, at) == Tokens(s)[k..]
    && FirstMatch(Tokens(s)[..k], LIMIT) == k
    && SelectSeen(Tokens(s), Spans(s, 0), k, select, next)
  }

  /** The scan's answer: the bounds of the LIMIT token and the start of the token after SELECT, as far as they exist. */
  ghost predicate Found(s: seq<WChar>, limit: Option<nat>, limitEnd: Option<nat>, next: Option<nat>) {
    var spans, ts := Spans(s, 0), Tokens(s);
    && |spans| == |ts|
    && if LimitAt(ts) == |ts| then limit == None
       else
         && limit == Some(spans[LimitAt(ts)].start) && limitEnd == Some(spans[LimitAt(ts)].end)
         && next == if SelectAt(ts) < LimitAt(ts) then Some(spans[SelectAt(ts) + 1].start) else None
  }

  lemma ScanStarts(s: seq<WChar>)
    ensures Scanned(s, 0, 0, None, None)
  {
    LexIsSpanText(s, 0);
  }

  lemma ScanEnds(s: seq<WChar>, at: nat, k: nat, select: Option<nat>, next: Option<nat>)
    requires Scanned(s, at, k, select, next) && SpaceEnd(s, at) == |s|
    ensures forall limitEnd, next' :: Found(s, None, limitEnd, next')
  {
    assert Lex(s, at) == [];
    FirstMatchIs(Tokens(s), k, LIMIT);
  }

  lemma TokenStep(s: seq<WChar>, at: nat, k: nat, p: nat, e: nat)
    requires at <= |s| && k <= |Spans(s, 0)| == |Tokens(s)| && p == SpaceEnd(s, at) < |s| && e == TokenEnd(s, p)
    requires Spans(s, at) == Spans(s, 0)[k..] && Lex(s, at) == Tokens(s)[k..]
    ensures k < |Tokens(s)| && Spans(s, 0)[k] == Span(p, e) && Tokens(s)[k] == s[p..e]
    ensures Spans(s, e) == Spans(s, 0)[k + 1..] && Lex(s, e) == Tokens(s)[k + 1..]
  {
    Next(s, at, p, e);
    assert Spans(s, at)[0] == Spans(s, 0)[k] && Lex(s, at)[0] == Tokens(s)[k];
    assert Spans(s, at)[1..] == Spans(s, 0)[k + 1..] && Lex(s, at)[1..] == Tokens(s)[k + 1..];
  }

  lemma ScanFinds(s: seq<WChar>, at: nat, k: nat, select: Option<nat>, next: Option<nat>, p: nat, e: nat)
    requires Scanned(s, at, k, select, next) && p == SpaceEnd(s, at) < |s| && e == TokenEnd(s, p)
    requires Abbreviates(s[p..e], LIMIT)
    ensures Found(s, Some(p), Some(e), if next.None? && select.Some? then Some(p) else next)
  {
    TokenStep(s, at, k, p, e);
    LimitReached(Tokens(s), Spans(s, 0), k, select, next);
  }

  lemma ScanStep(s: seq<WChar>, at: nat, k: nat, select: Option<nat>, next: Option<nat>,
                 p: nat, e: nat, select': Option<nat>, next': Option<nat>)
    requires Scanned(s, at, k, select, next) && p == SpaceEnd(s, at) < |s| && e == TokenEnd(s, p)
    requires select' == if select.None? && Abbreviates(s[p..e], SELECT) then Some(p) else select
    requires next' == if next.None? && select.Some? then Some(p) else next
    requires !Abbreviates(s[p..e], LIMIT)
    ensures Scanned(s, e, k + 1, select', next')
  {
    TokenStep(s, at, k, p, e);
    SelectStep(Tokens(s), Spans(s, 0), k, select, next, select', next');
    FirstMatchSnoc(Tokens(s), k, LIMIT);
  }

  /** The token loop: finds the LIMIT token and, on the way, the token after SELECT. */
  method FindLimit(query: array<WChar>, ghost s: seq<WChar>)
    returns (limit: Option<nat>, limitEnd: Option<nat>, next: Option<nat>)
    requires Holds(query, s)
    ensures Found(s, limit, limitEnd, next)
  {
    ScanStarts(s);
    ghost var k := 0;
    var select: Option<nat> := None;
    next := None;
    var at := 0;
    while true
      invariant Scanned(s, at, k, select, next)
      decreases |s| - at
    {
      limit, limitEnd := NextToken(query, Some(at), s);
      if limit.None? {
        // the null token compares equal over its zero characters
        ScanEnds(s, at, k, select, next);
        return;
      }
      ghost var select0, next0 := select, next;
      if select.None? {
        var isSelect := MatchesKeyword(query, limit.value, limitEnd.value, SELECT, s);
        if isSelect {
          select := limit;
        }
      } else if next.None? {
        next := limit;
      }
      var isLimit := MatchesKeyword(query, limit.value, limitEnd.value, LIMIT, s);
      if isLimit {
        ScanFinds(s, at, k, select0, next0, limit.value, limitEnd.value);
        return;
      }
      ScanStep(s, at, k, select0, next0, limit.value, limitEnd.value, select, next);
      at := limitEnd.value;
      k := k + 1;
    }
  }

  /** A token is compared with a keyword over the token's own length. */
  method MatchesKeyword(query: array<WChar>, start: nat, end: nat, kw: seq<WChar>, ghost s: seq<WChar>)
    returns (r: bool)
    requires Holds(query, s) && start < end <= |s|
    requires forall i :: 0 <= i < |kw| ==> kw[i] != 0
    ensures r <==> Abbreviates(s[start..end], kw)
  {
    assert forall i :: start <= i < end ==> query[i] == s[i];
    assert query[start..end] == s[start..end];
    var d := Strnicmp(query, start, kw + [0], end - start, kw);
    r := d == 0;
  }

  /** The token behind token k, as the tokenizer finds it from the end of token k. */
  lemma TokenBehind(s: seq<WChar>, k: nat)
    requires k < |Spans(s, 0)|
    ensures var end := Spans(s, 0)[k].end;
            && end <= |s| && (SpaceEnd(s, end) == |s| <==> k + 1 == |Spans(s, 0)|)
            && (k + 1 < |Spans(s, 0)| ==>
                  Spans(s, 0)[k + 1] == Span(SpaceEnd(s, end), TokenEnd(s, SpaceEnd(s, end))))
  {
    FromToken(s, 0, k);
    var end := Spans(s, 0)[k].end;
    var rest := Spans(s, end);
    assert rest == Spans(s, 0)[k + 1..];
    if SpaceEnd(s, end) < |s| {
      Next(s, end, SpaceEnd(s, end), TokenEnd(s, SpaceEnd(s, end)));
      assert rest[0] == Spans(s, 0)[k + 1];
    }
  }

  /** The bounds found by the scan, and the token behind LIMIT, make up the plan. */
  lemma PlanFromScan(s: seq<WChar>, limit: nat, limitEnd: nat, next: Option<nat>)
    requires Found(s, Some(limit), Some(limitEnd), next)
    ensures limitEnd <= |s| && PlanOf(s) != NoLimit
    ensures PlanOf(s) == Wild <==> next.None? || SpaceEnd(s, limitEnd) == |s|
    ensures PlanOf(s).Move? ==>
              var num := SpaceEnd(s, limitEnd);
              next.Some? && num < |s| &&
              PlanOf(s) == Move(PlanOf(s).selectEnd, next.value, limit, limitEnd, num, TokenEnd(s, num))
  {
    TokenBehind(s, LimitAt(Tokens(s)));
  }

  /** A buffer holding s before a rewrite that fits in s holds the rewritten string after it. */
  lemma RewrittenIsHeld(b: seq<WChar>, s: seq<WChar>, m: Plan)
    requires |s| < |b| && b[..|s|] == s && b[|s|] == 0 && (forall k :: 0 <= k < |s| ==> s[k] != 0)
    requires WellPlaced(s, m)
    ensures WellPlaced(b, m)
    ensures Rewritten(b, m)[..|s|] == Rewritten(s, m) && Rewritten(b, m)[|s|..] == b[|s|..]
    ensures forall k :: 0 <= k < |s| ==> Rewritten(s, m)[k] != 0
  {
    assert b == s + b[|s|..];
    RewrittenInBuffer(s, b[|s|..], m);
    RewriteHasNoZero(s, m);
    var r := Rewritten(s, m);
    forall k | 0 <= k < |s| ensures r[k] != 0 {
      assert r[k] in r;
    }
  }

  /** The contents of the temporary copy of the number, with a space behind it. */
  method StoreNumber(query: array<WChar>, num: nat, numEnd: nat) returns (number: seq<WChar>)
    requires num <= numEnd <= query.Length
    ensures number == query[..][num..numEnd] + [SPACE]
  {
    var length := numEnd - num;
    var storage := new WChar[length + 2](_ => 0);
    forall i | 0 <= i < length {
      storage[i] := query[num + i];
    }
    storage[length] := SPACE;
    number := storage[..length + 1];
  }

  /** The three block moves: the text in [at, upTo) goes to `dest`, then keyword and number are written at `at`. */
  method MoveBlocks(query: array<WChar>, at: nat, upTo: nat, dest: nat,
                    keyword: seq<WChar>, behind: nat, number: seq<WChar>)
    requires at <= upTo && dest + (upTo - at) <= query.Length && upTo <= query.Length
    requires behind == at + |keyword| && behind + |number| <= query.Length
    modifies query
    ensures var b := old(query[..]);
            query[..] == Overlay(Overlay(Overlay(b, dest, b[at..upTo]), at, keyword), behind, number)
  {
    Memmove(query, dest, at, upTo);
    CopyIn(query, at, keyword);
    CopyIn(query, behind, number);
  }

  /** The number goes through a temporary copy, as the shift may write over it. */
  method ApplyPlan(query: array<WChar>, next: nat, limit: nat, num: nat, numEnd: nat)
    requires next <= limit <= numEnd <= query.Length && num <= numEnd && next + 6 + (numEnd - num) <= query.Length
    modifies query
    ensures var b := old(query[..]);
            query[..] == Overlay(Overlay(Overlay(b, next + (numEnd - limit), b[next..limit]), next, TOP_SPACES),
                                 next + 5, b[num..numEnd] + [SPACE])
  {
    var number := StoreNumber(query, num, numEnd);
    MoveBlocks(query, next, limit, next + (numEnd - limit), TOP_SPACES, next + 5, number);
  }

  /** The pointers the rewrite works with, or the reason it does not come to that. */
  method Locate(query: array<WChar>, ghost s: seq<WChar>)
    returns (outcome: Outcome, next: nat, limit: nat, num: nat, numEnd: nat)
    requires Holds(query, s)
    ensures outcome == NotFound <==> PlanOf(s) == NoLimit
    ensures outcome == Fault <==> PlanOf(s) == Wild
    ensures outcome == Done ==>
              var m := PlanOf(s);
              Ordered(s, m) && m.next == next && m.limit == limit && m.num == num && m.numEnd == numEnd
  {
    next, limit, num, numEnd := 0, 0, 0, 0;
    var limitBegin, limitEnd, afterSelect := FindLimit(query, s);
    if limitBegin.None? {
      return NotFound, 0, 0, 0, 0;
    }
    PlanFromScan(s, limitBegin.value, limitEnd.value, afterSelect);
    var numBegin, numStop := NextToken(query, limitEnd, s);
    if numBegin.None? || afterSelect.None? {
      return Fault, 0, 0, 0, 0;
    }
    PlanIsOrdered(s);
    return Done, afterSelect.value, limitBegin.value, numBegin.value, numStop.value;
  }

  /** What the call does to a buffer b that holds s. */
  ghost predicate Effect(b: seq<WChar>, s: seq<WChar>, outcome: Outcome, after: seq<WChar>) {
    var m := PlanOf(s);
    match outcome
    case NotFound => m == NoLimit && after == b
    case Done => WellPlaced(b, m) && after == Rewritten(b, m)
    case Fault => m != NoLimit && !WellPlaced(b, m) && after == b
  }

  lemma EffectOfMoves(b: seq<WChar>, s: seq<WChar>, next: nat, limit: nat, num: nat, numEnd: nat)
    requires Ordered(s, PlanOf(s)) && |s| <= |b|
    requires var m := PlanOf(s); m.next == next && m.limit == limit && m.num == num && m.numEnd == numEnd
    ensures next + 6 + (numEnd - num) > |b| ==> Effect(b, s, Fault, b)
    ensures next + 6 + (numEnd - num) <= |b| ==>
              Effect(b, s, Done, Overlay(Overlay(Overlay(b, next + (numEnd - limit), b[next..limit]), next, TOP_SPACES),
                                         next + 5, b[num..numEnd] + [SPACE]))
  {
    hide Overlay, Rewritten, PlanOf;
    if next + 6 + (numEnd - num) <= |b| {
      MovesAreTheRewrite(b, PlanOf(s));
    }
  }

  /**
   * The rewrite in place. `Fault` stands for the calls that C leaves undefined; the model stops before the
   * first bad move.
   */
  method RearrangeLimit(query: array<WChar>, ghost s: seq<WChar>) returns (outcome: Outcome)
    requires Holds(query, s)
    modifies query
    ensures Effect(old(query[..]), s, outcome, query[..])
  {
    var next, limit, num, numEnd;
    outcome, next, limit, num, numEnd := Locate(query, s);
    if outcome == Done {
      EffectOfMoves(query[..], s, next, limit, num, numEnd);
      if next + 6 + (numEnd - num) > query.Length {
        return Fault;
      }
      ApplyPlan(query, next, limit, num, numEnd);
    }
  }

  /**
   * The call on a buffer with a textbook query: it succeeds, the buffer still holds a string of the same length with
   * the same terminator, its tokens are those of the query with LIMIT n moved, and no cell outside
   * [token after SELECT, end of number) has changed.
   */
  lemma TextbookCall(b: seq<WChar>, s: seq<WChar>, outcome: Outcome, after: seq<WChar>)
    requires |s| < |b| && b[..|s|] == s && b[|s|] == 0 && (forall k :: 0 <= k < |s| ==> s[k] != 0)
    requires PlanOf(s).Move? && Textbook(s, PlanOf(s)) && Effect(b, s, outcome, after)
    ensures outcome == Done && |after| == |b| && IsCString(after, |s|)
    ensures HasClause(Tokens(s)) && Tokens(after[..|s|]) == ClauseMoved(Tokens(s))
    ensures after[..PlanOf(s).next] == b[..PlanOf(s).next] && after[PlanOf(s).numEnd..] == b[PlanOf(s).numEnd..]
  {
    TextbookQueryIsMoved(s);
    RewrittenIsHeld(b, s, PlanOf(s));
    OnlyTheClauseChanges(b, PlanOf(s));
    TextbookIsHeld(b, s, after);
  }

  lemma TextbookIsHeld(b: seq<WChar>, s: seq<WChar>, after: seq<WChar>)
    requires |s| < |b| == |after| && b[|s|] == 0 && after[|s|..] == b[|s|..]
    requires forall k :: 0 <= k < |s| ==> after[..|s|][k] != 0
    ensures IsCString(after, |s|)
  {
    assert after[|s|] == after[|s|..][0] == b[|s|..][0] == b[|s|];
    assert forall k :: 0 <= k < |s| ==> after[k] == after[..|s|][k];
  }
}
