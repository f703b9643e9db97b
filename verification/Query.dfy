/** The text side of fxmy_handle_query: which branch a query takes, and what text is executed. */
module Query {
  import opened CStrings
  import opened Tokenizer
  import opened Search
  import opened Clauses
  import opened LimitRewrite

  const SET_NAMES: seq<WChar> :=
    ['S' as int, 'E' as int, 'T' as int, SPACE, 'N' as int, 'A' as int, 'M' as int, 'E' as int, 'S' as int]
  const UTF8: seq<WChar> := ['u' as int, 't' as int, 'f' as int, '8' as int]
  const DESCRIBE: seq<WChar> :=
    ['D' as int, 'E' as int, 'S' as int, 'C' as int, 'R' as int, 'I' as int, 'B' as int, 'E' as int]
  const SHOW_TABLES: seq<WChar> :=
    ['S' as int, 'H' as int, 'O' as int, 'W' as int, SPACE,
     'T' as int, 'A' as int, 'B' as int, 'L' as int, 'E' as int, 'S' as int]
  const LIMIT_SPACE: seq<WChar> := LIMIT + [SPACE]

  /** `Aborts` is the failed VERIFY on a character set; `Faults` a call C leaves undefined. */
  datatype Verdict = Acknowledged | Aborts | Describes | ShowsTables | Refused | Faults | Executes(sql: seq<WChar>)

  /** What the query s in a buffer with `spare` behind its terminator comes to. */
  ghost function Judge(s: seq<WChar>, spare: seq<WChar>): Verdict {
    if Contains(s, SET_NAMES) then if Contains(s, UTF8) then Acknowledged else Aborts
    else if Contains(s, DESCRIBE) then Describes
    else if Contains(s, SHOW_TABLES) then ShowsTables
    else if !Contains(s, LIMIT_SPACE) then Executes(s)
    else Limited(s, s + [0] + spare)
  }

  /** The same for a query that passes the LIMIT gate: the text executed runs to the first zero left in the buffer. */
  ghost function Limited(s: seq<WChar>, b: seq<WChar>): Verdict {
    var m := PlanOf(s);
    if m == NoLimit then Refused
    else if !WellPlaced(b, m) then Faults
    else
      var after := Rewritten(b, m);
      if StrLen(after) == |after| then Faults else Executes(after[..StrLen(after)])
  }

  /** A C string literal. */
  method Literal(text: seq<WChar>) returns (a: array<WChar>)
    requires forall i :: 0 <= i < |text| ==> text[i] != 0
    ensures fresh(a) && Holds(a, text)
  {
    a := new WChar[|text| + 1](i => 0);
    CopyIn(a, 0, text);
    assert a[..|text|] == text;
    assert a[..][|text|] == 0;
  }

  method Mentions(wide: array<WChar>, text: seq<WChar>, ghost s: seq<WChar>) returns (r: bool)
    requires Holds(wide, s) && forall i :: 0 <= i < |text| ==> text[i] != 0
    ensures r <==> Contains(s, text)
  {
    var needle := Literal(text);
    var at := Stristr(wide, needle, s, text);
    r := at.Some?;
  }

  /** The text up to the terminator, as the ODBC driver reads it. */
  method ReadText(wide: array<WChar>) returns (r: Option<seq<WChar>>)
    ensures r == if StrLen(wide[..]) == wide.Length then None else Some(wide[..][..StrLen(wide[..])])
  {
    var n := 0;
    while n < wide.Length && wide[n] != 0
      invariant n <= wide.Length && n <= StrLen(wide[..])
    {
      assert wide[..][n] == wide[n];
      n := n + 1;
    }
    assert n < wide.Length ==> wide[..][n] == wide[n];
    r := if n == wide.Length then None else Some(wide[..n]);
    assert wide[..n] == wide[..][..n];
  }

  /** The branch chain of the handler, up to the text handed to the driver. */
  method JudgeQuery(wide: array<WChar>, ghost s: seq<WChar>) returns (v: Verdict)
    requires Holds(wide, s)
    modifies wide
    ensures v == Judge(s, old(wide[..])[|s| + 1..])
  {
    var yes := Mentions(wide, SET_NAMES, s);
    if yes {
      yes := Mentions(wide, UTF8, s);
      return if yes then Acknowledged else Aborts;
    }
    yes := Mentions(wide, DESCRIBE, s);
    if yes {
      return Describes;
    }
    yes := Mentions(wide, SHOW_TABLES, s);
    if yes {
      return ShowsTables;
    }
    yes := Mentions(wide, LIMIT_SPACE, s);
    if !yes {
      var text := ReadText(wide);
      HeldText(wide[..], s);
      return Executes(text.value);
    }
    v := RunLimited(wide, s);
  }

  lemma HeldText(b: seq<WChar>, s: seq<WChar>)
    requires |s| < |b| && b[..|s|] == s && b[|s|] == 0 && (forall k :: 0 <= k < |s| ==> s[k] != 0)
    ensures StrLen(b) == |s| && b == s + [0] + b[|s| + 1..]
  {
    assert forall k :: 0 <= k < |s| ==> b[k] == s[k];
  }

  method RunLimited(wide: array<WChar>, ghost s: seq<WChar>) returns (v: Verdict)
    requires Holds(wide, s)
    modifies wide
    ensures v == Limited(s, s + [0] + old(wide[..])[|s| + 1..])
  {
    HeldText(wide[..], s);
    var outcome := RearrangeLimit(wide, s);
    match outcome {
      case NotFound => v := Refused;
      case Fault => v := Faults;
      case Done =>
        var text := ReadText(wide);
        v := if text.None? then Faults else Executes(text.value);
    }
  }

  /** The text in [start, end) is a beginning of kw, up to case. */
  predicate Spells(s: seq<WChar>, start: nat, end: nat, kw: seq<WChar>) {
    start < end <= |s| && end - start <= |kw| &&
    forall i :: 0 <= i < end - start ==> Lower(s[start + i]) == Lower(kw[i])
  }

  lemma KeywordText(s: seq<WChar>, k: nat, start: nat, end: nat, kw: seq<WChar>)
    requires k < |Spans(s, 0)| == |Tokens(s)| && Abbreviates(Tokens(s)[k], kw) && Spans(s, 0)[k] == Span(start, end)
    ensures Spells(s, start, end, kw)
  {
    hide Lex, Spans;
    FromTokenText(s, 0, k);
    var t := s[start..end];
    assert Tokens(s)[k] == t;
    assert forall i :: 0 <= i < end - start ==> t[i] == s[start + i];
  }

  lemma LimitText(s: seq<WChar>)
    requires PlanOf(s).Move?
    ensures Spells(s, PlanOf(s).limit, PlanOf(s).limitEnd, LIMIT)
  {
    SameCount(s, 0);
    KeywordText(s, LimitAt(Tokens(s)), PlanOf(s).limit, PlanOf(s).limitEnd, LIMIT);
  }

  lemma SpelledWithSpace(s: seq<WChar>, start: nat, end: nat)
    requires Spells(s, start, end, LIMIT) && end == start + 5 < |s| && s[end] == SPACE
    ensures MatchesAt(s, LIMIT_SPACE, start)
  {
    forall i | 0 <= i < 6 ensures Lower(s[start + i]) == Lower(LIMIT_SPACE[i]) {
      if i < 5 {
        assert LIMIT_SPACE[i] == LIMIT[i];
      }
    }
  }

  /** A textbook query with a space behind LIMIT passes the gate. */
  lemma GateSeesTextbook(s: seq<WChar>)
    requires PlanOf(s).Move? && Textbook(s, PlanOf(s)) && s[PlanOf(s).limitEnd] == SPACE
    ensures Contains(s, LIMIT_SPACE)
  {
    LimitText(s);
    SpelledWithSpace(s, PlanOf(s).limit, PlanOf(s).limitEnd);
  }

  /** A textbook query that passes the gate leaves its moved form to be executed. */
  lemma LimitedTextbook(s: seq<WChar>, b: seq<WChar>)
    requires |s| < |b| && b[..|s|] == s && b[|s|] == 0 && (forall k :: 0 <= k < |s| ==> s[k] != 0)
    requires PlanOf(s).Move? && Textbook(s, PlanOf(s))
    ensures Limited(s, b).Executes? && |Limited(s, b).sql| == |s|
    ensures HasClause(Tokens(s)) && Tokens(Limited(s, b).sql) == ClauseMoved(Tokens(s))
  {
    var m := PlanOf(s);
    TextbookQueryIsMoved(s);
    RewrittenIsHeld(b, s, m);
    TextbookCall(b, s, Done, Rewritten(b, m));
    assert StrLen(Rewritten(b, m)) == |s|;
  }

  /** No other branch of the handler claims the query. */
  ghost predicate Plain(s: seq<WChar>) {
    !Contains(s, SET_NAMES) && !Contains(s, DESCRIBE) && !Contains(s, SHOW_TABLES)
  }
}
