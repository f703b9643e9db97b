/** For which queries the branch chain does what it is for, exactly. */
module QueryFacts {
  import opened CStrings
  import opened Tokenizer
  import opened Search
  import opened Clauses
  import opened LimitRewrite
  import opened LostText
  import opened Query

  // ----- the rewrite in a buffer with room behind the string -----

  predicate AllZero(spare: seq<WChar>) {
    forall k :: 0 <= k < |spare| ==> spare[k] == 0
  }

  /** What stands behind the written part when the write runs over the terminator. */
  function Beyond(s: seq<WChar>, spare: seq<WChar>, m: Plan): seq<WChar>
    requires Ordered(s, m) && |s| < m.next + Written(m) <= |s| + 1 + |spare|
  {
    spare[m.next + Written(m) - |s| - 1..]
  }

  /**
   * What a caller can read off a query and the buffer behind its terminator. A write over the terminator is right
   * only if the old text behind it, up to a zero, happens to have the tokens that were to be kept.
   */
  predicate RoomForMove(s: seq<WChar>, m: Plan, spare: seq<WChar>)
    requires Ordered(s, m)
  {
    if WellPlaced(s, m) then Harmless(s, m)
    else
      && m.next + Written(m) <= |s| + 1 + |spare|
      && m.selectEnd < m.next && TokenKind(s, m.num) != InOpenQuote
      && StrLen(Beyond(s, spare, m)) < |Beyond(s, spare, m)|
      && Tokens(Beyond(s, spare, m)[..StrLen(Beyond(s, spare, m))]) ==
         Tokens(s[m.next..m.limit]) + Tokens(s[m.numEnd..])
  }

  /** SELECT, the keyword, the number, and a rest. */
  function CutOff(s: seq<WChar>, m: Plan, rest: seq<WChar>): seq<WChar>
    requires Ordered(s, m)
  {
    s[..m.next] + (TOP_SPACES + (s[m.num..m.numEnd] + ([SPACE] + rest)))
  }

  lemma CutOffTokens(s: seq<WChar>, rest: seq<WChar>)
    requires PlanOf(s).Move?
    ensures Ordered(s, PlanOf(s))
    ensures var m := PlanOf(s);
            Tokens(CutOff(s, m, rest)) == LimitMoved(Tokens(s)) <==>
            m.selectEnd < m.next && TokenKind(s, m.num) != InOpenQuote &&
            Tokens(rest) == Tokens(s[m.next..m.limit]) + Tokens(s[m.numEnd..])
  {
    hide Tokens, Blank, TokenKind, EndingFrom, LimitAt, SelectAt;
    var m, ts := PlanOf(s), Tokens(s);
    var goal := ts[SelectAt(ts) + 1..LimitAt(ts)] + ts[LimitAt(ts) + 2..];
    SelectPart(s);
    MiddlePart(s);
    NumberPart(s);
    TopAndNumber(s[m.num..m.numEnd], rest, goal);
    SelectInFront(s[..m.next], TOP_SPACES + (s[m.num..m.numEnd] + ([SPACE] + rest)), [TOP, s[m.num..m.numEnd]] + goal);
  }

  /** What is in the buffer after a write over the terminator. */
  lemma OverTheEnd(s: seq<WChar>, spare: seq<WChar>, m: Plan)
    requires Ordered(s, m) && !WellPlaced(s, m) && WellPlaced(s + [0] + spare, m)
    ensures Rewritten(s + [0] + spare, m) == CutOff(s, m, Beyond(s, spare, m))
  {
    var b := s + [0] + spare;
    assert b[..m.next] == s[..m.next] && b[m.num..m.numEnd] == s[m.num..m.numEnd];
    assert b[m.numEnd..] == s[m.numEnd..] + [0] + spare;
    assert LeftBehind(b, m) == [];
    assert Kept(b, m)[Lost(m)..] == Beyond(s, spare, m);
    assert [] + Beyond(s, spare, m) == Beyond(s, spare, m);
  }

  lemma TextBefore(text: seq<WChar>, rest: seq<WChar>)
    requires 0 !in text
    ensures StrLen(text + rest) == |text| + StrLen(rest)
  {
    var b := text + rest;
    forall k | 0 <= k < |text| + StrLen(rest) ensures b[k] != 0 {
      if k < |text| {
        assert b[k] == text[k] && text[k] in text;
      } else {
        assert b[k] == rest[k - |text|];
      }
    }
    assert StrLen(rest) < |rest| ==> b[|text| + StrLen(rest)] == rest[StrLen(rest)];
  }

  lemma CutOffText(s: seq<WChar>, m: Plan, rest: seq<WChar>)
    requires Ordered(s, m) && 0 !in s
    ensures var r := CutOff(s, m, rest);
            && (StrLen(r) == |r| <==> StrLen(rest) == |rest|)
            && r[..StrLen(r)] == CutOff(s, m, rest[..StrLen(rest)])
  {
    hide StrLen;
    var n := StrLen(rest);
    assert CutOff(s, m, rest) == CutOff(s, m, []) + rest;
    assert CutOff(s, m, rest[..n]) == CutOff(s, m, []) + rest[..n];
    TextBefore(CutOff(s, m, []), rest);
  }

  /** A write that stays in the string leaves the rewritten string. */
  lemma LimitedInside(s: seq<WChar>, spare: seq<WChar>)
    requires 0 !in s && PlanOf(s).Move? && WellPlaced(s, PlanOf(s))
    ensures Limited(s, s + [0] + spare) == Executes(Rewritten(s, PlanOf(s)))
  {
    hide Rewritten, PlanOf;
    var b, m := s + [0] + spare, PlanOf(s);
    assert b[..|s|] == s;
    RewrittenIsHeld(b, s, m);
    HeldText(Rewritten(b, m), Rewritten(s, m));
  }

  /** A write over the terminator leaves the text up to the next zero if there is one, and is undefined otherwise. */
  lemma LimitedOutside(s: seq<WChar>, spare: seq<WChar>)
    requires 0 !in s && PlanOf(s).Move? && Ordered(s, PlanOf(s)) && !WellPlaced(s, PlanOf(s))
    ensures var m, v := PlanOf(s), Limited(s, s + [0] + spare);
            if m.next + Written(m) <= |s| + 1 + |spare| && StrLen(Beyond(s, spare, m)) < |Beyond(s, spare, m)| then
              v == Executes(CutOff(s, m, Beyond(s, spare, m)[..StrLen(Beyond(s, spare, m))]))
            else v == Faults
  {
    hide Rewritten, PlanOf, StrLen, CutOff;
    var b, m := s + [0] + spare, PlanOf(s);
    if WellPlaced(b, m) {
      OverTheEnd(s, spare, m);
      CutOffText(s, m, Beyond(s, spare, m));
    }
  }

  /**
   * A query with tokens taken for LIMIT and, before it, SELECT, in any buffer: what is executed has these moved, and
   * its other tokens as they were, exactly if there is room for the move.
   */
  lemma LimitedIsExact(s: seq<WChar>, spare: seq<WChar>)
    requires 0 !in s && PlanOf(s).Move?
    ensures Ordered(s, PlanOf(s))
    ensures var v := Limited(s, s + [0] + spare);
            v.Executes? && Tokens(v.sql) == LimitMoved(Tokens(s)) <==> RoomForMove(s, PlanOf(s), spare)
  {
    hide Limited, Harmless, Rewritten, CutOff, StrLen, Beyond;
    PlanIsOrdered(s);
    var m := PlanOf(s);
    if WellPlaced(s, m) {
      LimitedInside(s, spare);
      RewriteMovesLimit(s);
    } else {
      LimitedOutside(s, spare);
      if m.next + Written(m) <= |s| + 1 + |spare| {
        CutOffTokens(s, Beyond(s, spare, m)[..StrLen(Beyond(s, spare, m))]);
      }
    }
  }

  lemma BlankBehind(s: seq<WChar>, from: nat)
    requires from <= |s|
    ensures Tokens(s[from..]) == [] <==> Blank(s, from, |s|)
  {
    var x := s[from..];
    assert x + [] == x;
    PrefixUnseen(x, []);
    assert forall k :: from <= k < |s| ==> s[k] == x[k - from];
  }

  /** No token between SELECT and LIMIT, and none behind the number. */
  lemma NothingKept(s: seq<WChar>)
    requires PlanOf(s).Move?
    ensures Ordered(s, PlanOf(s))
    ensures var m := PlanOf(s);
            Tokens(s[m.next..m.limit]) + Tokens(s[m.numEnd..]) == [] <==> m.next == m.limit && Blank(s, m.numEnd, |s|)
  {
    var m, ts := PlanOf(s), Tokens(s);
    var j, k := SelectAt(ts), LimitAt(ts);
    MiddlePart(s);
    BlankBehind(s, m.numEnd);
    SameCount(s, 0);
    hide Lex, Blank;
    if j + 1 < k {
      StartsApart(s, j + 1, k);
    }
  }

  lemma StartsApart(s: seq<WChar>, a: nat, b: nat)
    requires a < b < |Spans(s, 0)|
    ensures Spans(s, 0)[a].start < Spans(s, 0)[b].start
  {
    SpansAscend(s, 0, a, b);
  }

  lemma ZerosEmpty(zeros: seq<WChar>)
    requires AllZero(zeros)
    ensures StrLen(zeros) == 0
  {
  }

  lemma NoTokens()
    ensures Tokens([]) == []
  {
  }

  /** With zeros behind the string, a write over the terminator is right only for a query that has nothing to keep. */
  lemma RoomInZeros(s: seq<WChar>, spare: seq<WChar>)
    requires AllZero(spare) && PlanOf(s).Move? && !WellPlaced(s, PlanOf(s))
    ensures Ordered(s, PlanOf(s))
    ensures var m := PlanOf(s);
            RoomForMove(s, m, spare) <==>
            && m.next + Written(m) <= |s| + |spare| && m.selectEnd < m.next && TokenKind(s, m.num) != InOpenQuote
            && m.next == m.limit && Blank(s, m.numEnd, |s|)
  {
    hide PlanOf, Tokens, Blank, TokenKind, StrLen;
    var m := PlanOf(s);
    PlanIsOrdered(s);
    NothingKept(s);
    NoTokens();
    if m.next + Written(m) <= |s| + 1 + |spare| {
      ZerosEmpty(Beyond(s, spare, m));
      assert Beyond(s, spare, m)[..0] == [];
    }
  }

  // ----- the gate in front of it -----

  /**
   * A query with a LIMIT to move reaches the driver with it moved exactly if no other branch takes it, the gate sees
   * it, and there is room for the move.
   */
  lemma JudgeIsExact(s: seq<WChar>, spare: seq<WChar>)
    requires 0 !in s && PlanOf(s).Move?
    ensures Ordered(s, PlanOf(s))
    ensures var v := Judge(s, spare);
            v.Executes? && Tokens(v.sql) == LimitMoved(Tokens(s)) <==>
            Plain(s) && Contains(s, LIMIT_SPACE) && RoomForMove(s, PlanOf(s), spare)
  {
    hide Limited, Contains, RoomForMove, Ordered;
    LimitedIsExact(s, spare);
    MovedIsDifferent(Tokens(s), SelectAt(Tokens(s)), LimitAt(Tokens(s)));
  }

  /** A query with a LIMIT to move for which there is room. */
  predicate Fitting(s: seq<WChar>, spare: seq<WChar>) {
    PlanOf(s).Move? && Ordered(s, PlanOf(s)) && RoomForMove(s, PlanOf(s), spare)
  }

  /** A query in which the program takes the right tokens for the keywords. */
  predicate Understood(s: seq<WChar>) {
    Movable(Tokens(s)) && ClauseFound(Tokens(s))
  }

  /** The number is not an unclosed quote, and a write over the terminator finds only zeros behind it. */
  predicate Settled(s: seq<WChar>, spare: seq<WChar>) {
    var m := PlanOf(s);
    Ordered(s, m) && TokenKind(s, m.num) != InOpenQuote && (WellPlaced(s, m) || AllZero(spare))
  }

  /** Inside the string, the meant outcome takes room. */
  lemma MeantInside(s: seq<WChar>, spare: seq<WChar>)
    requires 0 !in s && PlanOf(s).Move? && WellPlaced(s, PlanOf(s)) && Settled(s, spare)
    ensures var v := Limited(s, s + [0] + spare);
            v.Executes? && Tokens(v.sql) == Meant(Tokens(s)) ==> Fitting(s, spare)
  {
    hide PlanOf, Tokens, Limited, Rewritten, Meant, TokenKind, Harmless;
    LimitedInside(s, spare);
    MeantIsHarmless(s);
  }

  /** A rewritten list with nothing behind the number is the meant one only if nothing was to be kept. */
  lemma NothingBehind(ts: seq<seq<WChar>>)
    requires Movable(ts)
    ensures RewrittenAs(ts, []) == Meant(ts) ==> RewrittenAs(ts, []) == LimitMoved(ts)
  {
    RewrittenFront(ts, []);
    hide SelectAt, LimitAt, QueryAt, ClauseAt;
    if RewrittenAs(ts, []) == Meant(ts) {
      assert |Meant(ts)| == |ts|;
      assert ts[SelectAt(ts) + 1..LimitAt(ts)] == [] && ts[LimitAt(ts) + 2..] == [];
    }
  }

  /** The tokens when nothing is left behind a number that ends. */
  lemma CutOffList(s: seq<WChar>)
    requires PlanOf(s).Move? && Ordered(s, PlanOf(s)) && TokenKind(s, PlanOf(s).num) != InOpenQuote
    ensures Tokens(CutOff(s, PlanOf(s), [])) == Meant(Tokens(s)) ==>
              Tokens(CutOff(s, PlanOf(s), [])) == LimitMoved(Tokens(s))
  {
    var m, ts := PlanOf(s), Tokens(s);
    SelectPart(s);
    NumberPart(s);
    NothingBehind(ts);
    ListStartsLike(ts);
    NoTokens();
    hide Tokens, PlanOf, Meant, LimitMoved, TokenKind, EndingFrom, SelectAt, LimitAt;
    var number := s[m.num..m.numEnd];
    var x := TOP_SPACES + (number + ([SPACE] + []));
    TopAndNumber(number, [], []);
    SelectInFront(s[..m.next], x, [TOP, number] + []);
    TokensCompose(s[..m.next], x);
  }

  /** So does it when the write runs over the terminator into zeros. */
  lemma MeantOutside(s: seq<WChar>, spare: seq<WChar>)
    requires 0 !in s && PlanOf(s).Move? && !WellPlaced(s, PlanOf(s)) && Settled(s, spare)
    ensures var v := Limited(s, s + [0] + spare);
            v.Executes? && Tokens(v.sql) == Meant(Tokens(s)) ==> Fitting(s, spare)
  {
    LimitedOutside(s, spare);
    LimitedIsExact(s, spare);
    CutOffList(s);
    hide PlanOf, Tokens, Limited, Meant, TokenKind, RoomForMove, CutOff, StrLen, LimitMoved;
    var m := PlanOf(s);
    if m.next + Written(m) <= |s| + 1 + |spare| {
      ZerosEmpty(Beyond(s, spare, m));
      assert Beyond(s, spare, m)[..0] == [];
    }
  }

  /**
   * A rewrite does what is meant exactly if there is room and the keywords are understood. This holds of every query
   * whose number is not an unclosed quote, and of the others if there is room or the keywords are understood.
   */
  lemma LimitedDoesWhatIsMeant(s: seq<WChar>, spare: seq<WChar>)
    requires 0 !in s && PlanOf(s).Move?
    ensures Settled(s, spare) || Fitting(s, spare) || Understood(s) ==>
              var v := Limited(s, s + [0] + spare);
              (v.Executes? && Tokens(v.sql) == Meant(Tokens(s)) <==> Fitting(s, spare) && Understood(s))
  {
    LimitedIsExact(s, spare);
    MovesTheClause(Tokens(s));
    hide Limited, RoomForMove, Ordered, Tokens, Meant, LimitMoved, ClauseFound, Settled, WellPlaced;
    if Settled(s, spare) {
      if WellPlaced(s, PlanOf(s)) {
        MeantInside(s, spare);
      } else {
        MeantOutside(s, spare);
      }
    }
  }

  /** A query the gate sees goes out as meant exactly if the rewrite is right, another exactly if it has no clause. */
  lemma JudgeDoesWhatIsMeant(s: seq<WChar>, spare: seq<WChar>)
    requires 0 !in s && Plain(s)
    ensures (PlanOf(s).Move? && Contains(s, LIMIT_SPACE) ==>
               Settled(s, spare) || Fitting(s, spare) || Understood(s)) ==>
              var v := Judge(s, spare);
              (v.Executes? && Tokens(v.sql) == Meant(Tokens(s)) <==>
               if Contains(s, LIMIT_SPACE) then Fitting(s, spare) && Understood(s) else !HasClause(Tokens(s)))
  {
    hide Limited, Contains, Fitting, Understood, Tokens, HasClause, Moved, Settled;
    if Contains(s, LIMIT_SPACE) {
      BadPlans(s, spare);
      if PlanOf(s).Move? {
        LimitedDoesWhatIsMeant(s, spare);
      }
    } else if HasClause(Tokens(s)) {
      ClauseIsMoved(Tokens(s));
    }
  }

  lemma ClauseIsMoved(ts: seq<seq<WChar>>)
    requires HasClause(ts)
    ensures ClauseMoved(ts) != ts
  {
    hide Moved;
    MovedIsDifferent(ts, QueryAt(ts), ClauseAt(ts));
  }

  lemma BadPlans(s: seq<WChar>, spare: seq<WChar>)
    ensures !PlanOf(s).Move? ==> !Limited(s, s + [0] + spare).Executes? && !Fitting(s, spare)
  {
  }

  // ----- when the call is undefined -----

  /** The rewrite is undefined exactly without a SELECT or a number, or when the write finds no zero left behind it. */
  lemma LimitedFaults(s: seq<WChar>, spare: seq<WChar>)
    requires 0 !in s
    ensures PlanOf(s).Move? ==> Ordered(s, PlanOf(s))
    ensures var m := PlanOf(s);
            Limited(s, s + [0] + spare) == Faults <==>
            m == Wild || (m.Move? && m.next + Written(m) > |s| &&
                          (m.next + Written(m) > |s| + 1 + |spare| ||
                           StrLen(Beyond(s, spare, m)) == |Beyond(s, spare, m)|))
  {
    if PlanOf(s).Move? {
      PlanIsOrdered(s);
      hide PlanOf, Limited, StrLen, Rewritten, CutOff, Beyond;
      if WellPlaced(s, PlanOf(s)) {
        LimitedInside(s, spare);
      } else {
        LimitedOutside(s, spare);
      }
    }
  }

  /** With zeros behind the string, when the write reaches the end of the buffer. */
  lemma FaultsInZeros(s: seq<WChar>, spare: seq<WChar>)
    requires 0 !in s && AllZero(spare)
    ensures PlanOf(s).Move? ==> Ordered(s, PlanOf(s))
    ensures var m := PlanOf(s);
            Limited(s, s + [0] + spare) == Faults <==>
            m == Wild || (m.Move? && m.next + Written(m) > |s| + |spare|)
  {
    LimitedFaults(s, spare);
    hide PlanOf, Limited, StrLen;
    var m := PlanOf(s);
    if m.Move? && |s| < m.next + Written(m) <= |s| + 1 + |spare| {
      ZerosEmpty(Beyond(s, spare, m));
    }
  }

  // ----- the gate and the textbook -----

  /**
   * A textbook query is executed whenever no other branch takes it, in as many characters as it has, and with its LIMIT
   * moved exactly if the gate sees it.
   */
  lemma GateDecides(s: seq<WChar>, spare: seq<WChar>)
    requires 0 !in s && PlanOf(s).Move? && Textbook(s, PlanOf(s))
    ensures HasClause(Tokens(s))
    ensures Judge(s, spare) !in {Refused, Faults} && (Judge(s, spare).Executes? <==> Plain(s))
    ensures Plain(s) ==>
              var sql := Judge(s, spare).sql;
              |sql| == |s| && (Tokens(sql) == ClauseMoved(Tokens(s)) <==> Contains(s, LIMIT_SPACE))
  {
    hide Limited, Contains;
    var b := s + [0] + spare;
    assert b[..|s|] == s;
    LimitedTextbook(s, b);
    MovedIsDifferent(Tokens(s), QueryAt(Tokens(s)), ClauseAt(Tokens(s)));
  }

  /** A query is refused exactly if "LIMIT " occurs in it but no token is LIMIT or a beginning of it. */
  lemma RefusedIff(s: seq<WChar>, spare: seq<WChar>)
    ensures Judge(s, spare) == Refused <==>
            Plain(s) && Contains(s, LIMIT_SPACE) && forall t :: t in Tokens(s) ==> !Abbreviates(t, LIMIT)
  {
    hide Contains, Rewritten, WellPlaced;
    NoLimitMeansNoToken(s);
  }
}
