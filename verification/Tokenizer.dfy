/**
 * The tokenizer of fxmy_string.c. The functions describe it on a whole string `s` and positions in it;
 * the methods are the pointer loops, proved to compute those functions on a zero-terminated buffer.
 */
module Tokenizer {
  import opened CStrings

  // ----- what a token is -----

  datatype Span = Span(start: nat, end: nat)

  /** The text between two positions is pure whitespace. */
  predicate Blank(s: seq<WChar>, lo: nat, hi: nat) {
    lo <= hi <= |s| && forall k :: lo <= k < hi ==> IsSpace(s[k])
  }

  /** Position k holds the quote q and no backslash stands right before it. */
  predicate ClosesAt(s: seq<WChar>, k: nat, q: int)
    requires 0 < k < |s|
  {
    s[k] == q && s[k - 1] != BACKSLASH
  }

  /** The first position from i on that is not whitespace. */
  function SpaceEnd(s: seq<WChar>, i: nat): (e: nat)
    requires i <= |s|
    ensures i <= e <= |s| && (e < |s| ==> !IsSpace(s[e]))
    decreases |s| - i
  {
    if i < |s| && IsSpace(s[i]) then SpaceEnd(s, i + 1) else i
  }

  /** The first delimiter from i on. */
  function WordEnd(s: seq<WChar>, i: nat): (e: nat)
    requires i <= |s|
    ensures i <= e <= |s| && (e < |s| ==> IsDelimiter(s[e]))
    decreases |s| - i
  {
    if i < |s| && !IsDelimiter(s[i]) then WordEnd(s, i + 1) else i
  }

  /** The position behind the first quote from i on that closes, or the end. */
  function QuoteEnd(s: seq<WChar>, i: nat, q: int): (e: nat)
    requires 0 < i <= |s|
    ensures i <= e <= |s| && (e < |s| ==> i < e && ClosesAt(s, e - 1, q))
    decreases |s| - i
  {
    if i == |s| then i else if ClosesAt(s, i, q) then i + 1 else QuoteEnd(s, i + 1, q)
  }

  /** The end of the token that starts at p. Its first character never ends it. */
  function TokenEnd(s: seq<WChar>, p: nat): (e: nat)
    requires p < |s|
    ensures p < e <= |s|
  {
    if IsQuote(s[p]) then QuoteEnd(s, p + 1, s[p]) else WordEnd(s, p + 1)
  }

  lemma {:induction false} SpaceEndIs(s: seq<WChar>, i: nat, e: nat)
    requires i <= |s|
    ensures e == SpaceEnd(s, i) <==> Blank(s, i, e) && (e < |s| ==> !IsSpace(s[e]))
    decreases |s| - i
  {
    if i < |s| && IsSpace(s[i]) {
      SpaceEndIs(s, i + 1, e);
    }
  }

  lemma {:induction false} WordEndIs(s: seq<WChar>, i: nat, e: nat)
    requires i <= |s|
    ensures e == WordEnd(s, i) <==>
            i <= e <= |s| && (forall k :: i <= k < e ==> !IsDelimiter(s[k])) && (e < |s| ==> IsDelimiter(s[e]))
    decreases |s| - i
  {
    if i < |s| && !IsDelimiter(s[i]) {
      WordEndIs(s, i + 1, e);
    }
  }

  lemma {:induction false} QuoteEndIs(s: seq<WChar>, i: nat, q: int, e: nat)
    requires 0 < i <= |s|
    ensures e == QuoteEnd(s, i, q) <==>
            && i <= e <= |s| && (forall k :: i <= k < e - 1 ==> !ClosesAt(s, k, q))
            && (e < |s| ==> i < e && ClosesAt(s, e - 1, q))
    decreases |s| - i
  {
    if i < |s| && !ClosesAt(s, i, q) {
      QuoteEndIs(s, i + 1, q, e);
    }
  }

  /** Repeated tokenization from position i. */
  function Spans(s: seq<WChar>, i: nat): (ts: seq<Span>)
    requires i <= |s|
    ensures forall k :: 0 <= k < |ts| ==> i <= ts[k].start < ts[k].end <= |s|
    decreases |s| - i
  {
    var p := SpaceEnd(s, i);
    if p == |s| then [] else [Span(p, TokenEnd(s, p))] + Spans(s, TokenEnd(s, p))
  }

  /** The token texts from position i. */
  function Lex(s: seq<WChar>, i: nat): (ts: seq<seq<WChar>>)
    requires i <= |s|
    decreases |s| - i
  {
    var p := SpaceEnd(s, i);
    if p == |s| then [] else [s[p..TokenEnd(s, p)]] + Lex(s, TokenEnd(s, p))
  }

  function Tokens(s: seq<WChar>): seq<seq<WChar>> {
    Lex(s, 0)
  }

  /** One step of the tokenization. */
  lemma Next(s: seq<WChar>, i: nat, p: nat, e: nat)
    requires i <= p < |s| && SpaceEnd(s, i) == p && TokenEnd(s, p) == e
    ensures Lex(s, i) == [s[p..e]] + Lex(s, e) && Spans(s, i) == [Span(p, e)] + Spans(s, e)
  {
  }

  /** The blank before a token may be entered anywhere. */
  lemma SameNext(s: seq<WChar>, i: nat, j: nat)
    requires i <= j <= |s| && Blank(s, i, j)
    ensures SpaceEnd(s, i) == SpaceEnd(s, j) && Lex(s, i) == Lex(s, j) && Spans(s, i) == Spans(s, j)
  {
    SpaceEndIs(s, j, SpaceEnd(s, j));
    SpaceEndIs(s, i, SpaceEnd(s, j));
  }

  // ----- the tokenization is the only one of its kind -----

  /** A maximal token: an unquoted one runs to a delimiter or the end, a quoted one to its first live closing quote. */
  ghost predicate MaximalToken(s: seq<WChar>, t: Span) {
    t.start < t.end <= |s| && !IsSpace(s[t.start]) &&
    if IsQuote(s[t.start]) then
      && (forall k :: t.start < k < t.end - 1 ==> !ClosesAt(s, k, s[t.start]))
      && (t.end < |s| ==> t.start + 1 < t.end && ClosesAt(s, t.end - 1, s[t.start]))
    else
      && (forall k :: t.start < k < t.end ==> !IsDelimiter(s[k]))
      && (t.end < |s| ==> IsDelimiter(s[t.end]))
  }

  /** A token ends where it does because it is maximal. */
  lemma MaximalTokenEnd(s: seq<WChar>, t: Span)
    requires t.start < |s| && !IsSpace(s[t.start])
    ensures MaximalToken(s, t) <==> t.end == TokenEnd(s, t.start)
  {
    var p := t.start;
    if IsQuote(s[p]) {
      QuoteEndIs(s, p + 1, s[p], t.end);
    } else {
      WordEndIs(s, p + 1, t.end);
    }
  }

  /** ts cuts s from position i into maximal tokens with only whitespace before, between and after them. */
  ghost predicate Cuts(s: seq<WChar>, i: nat, ts: seq<Span>)
    decreases |ts|
  {
    if ts == [] then Blank(s, i, |s|)
    else MaximalToken(s, ts[0]) && Blank(s, i, ts[0].start) && Cuts(s, ts[0].end, ts[1..])
  }

  /** Tokenizing is lossless and deterministic: it yields the one and only cut of s into maximal tokens and blanks. */
  lemma {:induction false} TokenizationIsTheOnlyCut(s: seq<WChar>, i: nat, ts: seq<Span>)
    requires i <= |s|
    ensures Cuts(s, i, ts) <==> ts == Spans(s, i)
    decreases |ts|
  {
    var p := SpaceEnd(s, i);
    SpaceEndIs(s, i, if ts == [] then |s| else ts[0].start);
    if ts != [] && p < |s| {
      MaximalTokenEnd(s, Span(p, ts[0].end));
      Next(s, i, p, TokenEnd(s, p));
      if MaximalToken(s, ts[0]) && p == ts[0].start {
        TokenizationIsTheOnlyCut(s, ts[0].end, ts[1..]);
        assert ts == [ts[0]] + ts[1..];
      } else {
        MaximalTokenEnd(s, Span(p, TokenEnd(s, p)));
      }
    }
  }

  lemma {:induction false} SameCount(s: seq<WChar>, i: nat)
    requires i <= |s|
    ensures |Lex(s, i)| == |Spans(s, i)|
    decreases |s| - i
  {
    if SpaceEnd(s, i) == |s| {
    } else {
      SameCount(s, TokenEnd(s, SpaceEnd(s, i)));
    }
  }

  lemma {:induction false} LexIsSpanText(s: seq<WChar>, i: nat)
    requires i <= |s|
    ensures |Lex(s, i)| == |Spans(s, i)|
    ensures forall k :: 0 <= k < |Lex(s, i)| ==> Lex(s, i)[k] == s[Spans(s, i)[k].start..Spans(s, i)[k].end]
    decreases |s| - i
  {
    var p := SpaceEnd(s, i);
    if p == |s| {
    } else {
      LexIsSpanText(s, TokenEnd(s, p));
    }
  }

  // ----- tokenization composes -----

  /** How a string ends: in no token, or in an unquoted, a closed quoted or an unclosed quoted one. */
  datatype Ending = InBlank | InWord | InClosedQuote | InOpenQuote

  function TokenKind(s: seq<WChar>, p: nat): Ending
    requires p < |s|
  {
    var e := TokenEnd(s, p);
    if !IsQuote(s[p]) then InWord
    else if p + 1 < e && ClosesAt(s, e - 1, s[p]) then InClosedQuote
    else InOpenQuote
  }

  function EndingFrom(s: seq<WChar>, i: nat): Ending
    requires i <= |s|
    decreases |s| - i
  {
    var p := SpaceEnd(s, i);
    if p == |s| then InBlank
    else if TokenEnd(s, p) == |s| then TokenKind(s, p)
    else EndingFrom(s, TokenEnd(s, p))
  }

  /** Gluing b behind text that ends in the given way does not disturb the last token. */
  predicate Separates(ending: Ending, b: seq<WChar>) {
    match ending
    case InBlank => true
    case InClosedQuote => true
    case InWord => b == [] || IsDelimiter(b[0])
    case InOpenQuote => b == []
  }

  predicate Boundary(a: seq<WChar>, b: seq<WChar>) {
    Separates(EndingFrom(a, 0), b)
  }

  lemma SpaceEndShift(a: seq<WChar>, b: seq<WChar>, j: nat)
    requires j <= |b|
    ensures SpaceEnd(a + b, |a| + j) == |a| + SpaceEnd(b, j)
  {
    var s, e := a + b, SpaceEnd(b, j);
    SpaceEndIs(b, j, e);
    assert forall k :: |a| <= k < |s| ==> s[k] == b[k - |a|];
    SpaceEndIs(s, |a| + j, |a| + e);
  }

  lemma TokenEndShift(a: seq<WChar>, b: seq<WChar>, p: nat)
    requires p < |b| && !IsSpace(b[p])
    ensures TokenEnd(a + b, |a| + p) == |a| + TokenEnd(b, p)
  {
    var s, e := a + b, TokenEnd(b, p);
    assert forall k :: |a| <= k < |s| ==> s[k] == b[k - |a|];
    forall k | |a| + p < k < |s| ensures ClosesAt(s, k, b[p]) == ClosesAt(b, k - |a|, b[p]) {}
    MaximalTokenEnd(b, Span(p, e));
    assert MaximalToken(s, Span(|a| + p, |a| + e));
    MaximalTokenEnd(s, Span(|a| + p, |a| + e));
  }

  /** One token of b is found again, unchanged, when a is put in front. */
  lemma ShiftStep(a: seq<WChar>, b: seq<WChar>, j: nat, p: nat, e: nat)
    requires j <= |b| && p == SpaceEnd(b, j) < |b| && e == TokenEnd(b, p)
    ensures Lex(b, j) == [b[p..e]] + Lex(b, e)
    ensures Lex(a + b, |a| + j) == [b[p..e]] + Lex(a + b, |a| + e)
  {
    SpaceEndShift(a, b, j);
    TokenEndShift(a, b, p);
    SliceShift(a, b, p, e);
    Next(b, j, p, e);
    Next(a + b, |a| + j, |a| + p, |a| + e);
  }

  lemma ShiftCons(a: seq<WChar>, b: seq<WChar>, j: nat, p: nat, e: nat)
    requires j <= |b| && p == SpaceEnd(b, j) < |b| && e == TokenEnd(b, p)
    requires Lex(a + b, |a| + e) == Lex(b, e)
    ensures Lex(a + b, |a| + j) == Lex(b, j)
  {
    ShiftStep(a, b, j, p, e);
  }

  lemma ShiftEnd(a: seq<WChar>, b: seq<WChar>, j: nat)
    requires j <= |b| && SpaceEnd(b, j) == |b|
    ensures Lex(b, j) == [] && Lex(a + b, |a| + j) == []
  {
    SpaceEndShift(a, b, j);
  }

  /** Tokenizing from inside b does not see what stands before b. */
  lemma {:induction false} LexShift(a: seq<WChar>, b: seq<WChar>, j: nat)
    requires j <= |b|
    ensures Lex(a + b, |a| + j) == Lex(b, j)
    decreases |b| - j
  {
    var p := SpaceEnd(b, j);
    if p < |b| {
      LexShift(a, b, TokenEnd(b, p));
      ShiftCons(a, b, j, p, TokenEnd(b, p));
    } else {
      ShiftEnd(a, b, j);
    }
  }

  /** Leading whitespace is skipped. */
  lemma SkipBlank(a: seq<WChar>, b: seq<WChar>, i: nat)
    requires i <= |a| && Blank(a, i, |a|)
    ensures Lex(a + b, i) == Lex(b, 0)
  {
    assert forall k :: i <= k < |a| ==> (a + b)[k] == a[k];
    SameNext(a + b, i, |a|);
    LexShift(a, b, 0);
  }

  lemma SpaceEndPrefix(a: seq<WChar>, b: seq<WChar>, i: nat)
    requires i <= |a| && SpaceEnd(a, i) < |a|
    ensures SpaceEnd(a + b, i) == SpaceEnd(a, i)
  {
    SpaceEndIs(a, i, SpaceEnd(a, i));
    assert forall k :: 0 <= k < |a| ==> (a + b)[k] == a[k];
    SpaceEndIs(a + b, i, SpaceEnd(a, i));
  }

  lemma TokenEndPrefix(a: seq<WChar>, b: seq<WChar>, p: nat)
    requires p < |a| && !IsSpace(a[p])
    requires TokenEnd(a, p) == |a| ==> Separates(TokenKind(a, p), b)
    ensures TokenEnd(a + b, p) == TokenEnd(a, p)
  {
    var s, e := a + b, TokenEnd(a, p);
    MaximalTokenEnd(a, Span(p, e));
    assert forall k :: 0 <= k < |a| ==> s[k] == a[k];
    forall k | p < k < |a| ensures ClosesAt(s, k, a[p]) == ClosesAt(a, k, a[p]) {}
    if e == |a| && b != [] {
      assert s[e] == b[0];
    } else if b == [] {
      assert s == a;
    }
    assert MaximalToken(s, Span(p, e));
    MaximalTokenEnd(s, Span(p, e));
  }

  lemma TokenEndSwallows(a: seq<WChar>, b: seq<WChar>, p: nat)
    requires p < |a| && !IsSpace(a[p])
    requires TokenEnd(a, p) == |a| && !Separates(TokenKind(a, p), b)
    ensures TokenEnd(a + b, p) > |a|
  {
    var s := a + b;
    assert forall k :: 0 <= k < |a| ==> s[k] == a[k];
    assert s[|a|] == b[0];
    forall k | p < k < |a| ensures ClosesAt(s, k, a[p]) == ClosesAt(a, k, a[p]) {}
    MaximalTokenEnd(a, Span(p, |a|));
    MaximalTokenEnd(s, Span(p, TokenEnd(s, p)));
  }

  /** One token of `a` is found again, unchanged, when b is glued behind. */
  lemma AppendStep(a: seq<WChar>, b: seq<WChar>, i: nat, p: nat, e: nat)
    requires i <= |a| && p == SpaceEnd(a, i) < |a| && e == TokenEnd(a, p)
    requires e == |a| ==> Separates(TokenKind(a, p), b)
    ensures Lex(a, i) == [a[p..e]] + Lex(a, e)
    ensures Lex(a + b, i) == [a[p..e]] + Lex(a + b, e)
  {
    SpaceEndPrefix(a, b, i);
    TokenEndPrefix(a, b, p);
    SlicePrefix(a, b, p, e);
    Next(a, i, p, e);
    Next(a + b, i, p, e);
  }

  lemma NoMore(s: seq<WChar>, i: nat)
    requires i <= |s| && SpaceEnd(s, i) == |s|
    ensures Lex(s, i) == [] && Spans(s, i) == []
  {
  }

  lemma {:induction false} LexAppend(a: seq<WChar>, b: seq<WChar>, i: nat)
    requires i <= |a| && Separates(EndingFrom(a, i), b)
    ensures Lex(a + b, i) == Lex(a, i) + Lex(b, 0)
    decreases |a| - i
  {
    hide Lex;
    var p := SpaceEnd(a, i);
    if p == |a| {
      SpaceEndIs(a, i, p);
      NoMore(a, i);
      SkipBlank(a, b, i);
    } else {
      var e := TokenEnd(a, p);
      AppendStep(a, b, i, p, e);
      if e == |a| {
        NoMore(a, e);
        LexShift(a, b, 0);
        SkipBlank(a, b, e);
      } else {
        LexAppend(a, b, e);
      }
      Associate([a[p..e]], Lex(a, e), Lex(b, 0));
    }
  }

  lemma PrefixTail(t: seq<WChar>, x: seq<seq<WChar>>, y: seq<seq<WChar>>)
    ensures [t] + x <= [t] + y ==> x <= y
  {
    if [t] + x <= [t] + y {
      assert ([t] + x)[1..] == x && ([t] + y)[1..] == y;
      assert x == y[..|x|];
    }
  }

  lemma {:induction false} LexSwallows(a: seq<WChar>, b: seq<WChar>, i: nat)
    requires i <= |a| && !Separates(EndingFrom(a, i), b)
    ensures !(Lex(a, i) <= Lex(a + b, i))
    decreases |a| - i
  {
    var p := SpaceEnd(a, i);
    var e := TokenEnd(a, p);
    if e == |a| {
      SpaceEndPrefix(a, b, i);
      TokenEndSwallows(a, b, p);
      Next(a, i, p, e);
      Next(a + b, i, p, TokenEnd(a + b, p));
      assert |Lex(a + b, i)[0]| > |Lex(a, i)[0]|;
    } else {
      AppendStep(a, b, i, p, e);
      LexSwallows(a, b, e);
      PrefixTail(a[p..e], Lex(a, e), Lex(a + b, e));
    }
  }

  /** Tokenization distributes over gluing exactly at token boundaries. */
  lemma TokensCompose(a: seq<WChar>, b: seq<WChar>)
    ensures Tokens(a + b) == Tokens(a) + Tokens(b) <==> Boundary(a, b)
    ensures Tokens(a) <= Tokens(a + b) <==> Boundary(a, b)
  {
    if Boundary(a, b) {
      LexAppend(a, b, 0);
    } else {
      LexSwallows(a, b, 0);
    }
  }

  /** A token taken out of its string tokenizes to itself. */
  lemma TokenAlone(s: seq<WChar>, p: nat)
    requires p < |s| && !IsSpace(s[p])
    ensures Tokens(s[p..TokenEnd(s, p)]) == [s[p..TokenEnd(s, p)]]
    ensures EndingFrom(s[p..TokenEnd(s, p)], 0) == TokenKind(s, p)
  {
    var e := TokenEnd(s, p);
    var t := s[p..e];
    assert forall k :: 0 <= k < |t| ==> t[k] == s[p + k];
    forall k | 0 < k < |t| ensures ClosesAt(t, k, t[0]) == ClosesAt(s, p + k, s[p]) {}
    MaximalTokenEnd(s, Span(p, e));
    assert MaximalToken(t, Span(0, |t|));
    MaximalTokenEnd(t, Span(0, |t|));
    assert t[0..|t|] == t;
    SpaceEndIs(t, 0, 0);
    Next(t, 0, 0, |t|);
  }

  lemma {:induction false} EveryTokenAlone(s: seq<WChar>, i: nat)
    requires i <= |s|
    ensures forall t :: t in Lex(s, i) ==> Tokens(t) == [t]
    decreases |s| - i
  {
    var p := SpaceEnd(s, i);
    if p == |s| {
    } else {
      TokenAlone(s, p);
      EveryTokenAlone(s, TokenEnd(s, p));
    }
  }

  lemma EndingNext(s: seq<WChar>, i: nat, p: nat, e: nat)
    requires i <= |s| && p == SpaceEnd(s, i) < |s| && e == TokenEnd(s, p)
    ensures EndingFrom(s, i) == if e == |s| then TokenKind(s, p) else EndingFrom(s, e)
  {
  }

  lemma TokenKindShift(a: seq<WChar>, b: seq<WChar>, p: nat)
    requires p < |b| && !IsSpace(b[p])
    ensures TokenEnd(a + b, |a| + p) == |a| + TokenEnd(b, p)
    ensures TokenKind(a + b, |a| + p) == TokenKind(b, p)
  {
    TokenEndShift(a, b, p);
    var e := TokenEnd(b, p);
    assert (a + b)[|a| + p] == b[p];
    if p + 1 < e {
      assert (a + b)[|a| + e - 1] == b[e - 1] && (a + b)[|a| + e - 2] == b[e - 2];
    }
  }

  lemma EndingStep(a: seq<WChar>, b: seq<WChar>, j: nat, p: nat, e: nat)
    requires j <= |b| && p == SpaceEnd(b, j) < |b| && e == TokenEnd(b, p)
    ensures EndingFrom(b, j) == if e == |b| then TokenKind(b, p) else EndingFrom(b, e)
    ensures EndingFrom(a + b, |a| + j) == if e == |b| then TokenKind(b, p) else EndingFrom(a + b, |a| + e)
  {
    SpaceEndShift(a, b, j);
    TokenKindShift(a, b, p);
    EndingNext(a + b, |a| + j, |a| + p, |a| + e);
  }

  lemma {:induction false} EndingShift(a: seq<WChar>, b: seq<WChar>, j: nat)
    requires j <= |b|
    ensures EndingFrom(a + b, |a| + j) == EndingFrom(b, j)
    decreases |b| - j
  {
    var p := SpaceEnd(b, j);
    if p < |b| {
      EndingStep(a, b, j, p, TokenEnd(b, p));
      if TokenEnd(b, p) < |b| {
        EndingShift(a, b, TokenEnd(b, p));
      }
    } else {
      SpaceEndShift(a, b, j);
    }
  }

  /** Tokenizing from position i is tokenizing the rest of the string. */
  lemma Suffix(s: seq<WChar>, i: nat)
    requires i <= |s|
    ensures Lex(s, i) == Tokens(s[i..]) && EndingFrom(s, i) == EndingFrom(s[i..], 0)
  {
    assert s[..i] + s[i..] == s;
    LexShift(s[..i], s[i..], 0);
    EndingShift(s[..i], s[i..], 0);
  }

  lemma Infix(s: seq<WChar>, lo: nat, hi: nat)
    requires lo <= hi <= |s|
    ensures Lex(s[..hi], lo) == Tokens(s[lo..hi]) && EndingFrom(s[..hi], lo) == EndingFrom(s[lo..hi], 0)
  {
    assert s[..hi][lo..] == s[lo..hi];
    Suffix(s[..hi], lo);
  }

  lemma InfixEnding(s: seq<WChar>, lo: nat, hi: nat)
    requires lo <= hi <= |s|
    ensures EndingFrom(s[..hi], lo) == EndingFrom(s[lo..hi], 0)
  {
    Infix(s, lo, hi);
  }

  /** The ending of a string is decided by its last token alone. */
  lemma {:induction false} EndingByLast(s: seq<WChar>, i: nat)
    requires i <= |s|
    ensures var ts := Spans(s, i);
            EndingFrom(s, i) ==
            if ts == [] || ts[|ts| - 1].end < |s| then InBlank else TokenKind(s, ts[|ts| - 1].start)
    decreases |s| - i
  {
    var p := SpaceEnd(s, i);
    if p == |s| {
    } else {
      var e := TokenEnd(s, p);
      EndingByLast(s, e);
      Next(s, i, p, e);
      if Spans(s, e) == [] {
        assert Spans(s, i) == [Span(p, e)];
      }
    }
  }

  // ----- cutting a string at one of its tokens -----

  /** Tokenizing from token k on gives the tokens from k on. */
  lemma {:induction false} FromToken(s: seq<WChar>, i: nat, k: nat)
    requires i <= |s| && k < |Spans(s, i)|
    ensures var t := Spans(s, i)[k];
            && Spans(s, t.start) == Spans(s, i)[k..] && Spans(s, t.end) == Spans(s, i)[k + 1..]
            && !IsSpace(s[t.start]) && t.end == TokenEnd(s, t.start)
    decreases k
  {
    var p := SpaceEnd(s, i);
    var e := TokenEnd(s, p);
    Next(s, i, p, e);
    if k == 0 {
      SpaceEndIs(s, p, p);
      Next(s, p, p, e);
    } else {
      FromToken(s, e, k - 1);
    }
  }

  lemma TokenEndTruncated(s: seq<WChar>, p: nat, q: nat)
    requires p < |s| && !IsSpace(s[p]) && TokenEnd(s, p) <= q <= |s|
    ensures TokenEnd(s[..q], p) == TokenEnd(s, p)
  {
    var e := TokenEnd(s, p);
    forall k | p < k < q ensures ClosesAt(s[..q], k, s[p]) == ClosesAt(s, k, s[p]) {}
    MaximalTokenEnd(s, Span(p, e));
    assert MaximalToken(s[..q], Span(p, e));
    MaximalTokenEnd(s[..q], Span(p, e));
  }

  /** Cutting the string off right before token k leaves the tokens before k. */
  lemma {:induction false} Truncated(s: seq<WChar>, i: nat, k: nat)
    requires i <= |s| && k < |Spans(s, i)|
    ensures Spans(s[..Spans(s, i)[k].start], i) == Spans(s, i)[..k]
    decreases k
  {
    var p := SpaceEnd(s, i);
    var e := TokenEnd(s, p);
    Next(s, i, p, e);
    var q := Spans(s, i)[k].start;
    SpaceEndIs(s, i, p);
    SpaceEndIs(s[..q], i, p);
    if k == 0 {
    } else {
      Truncated(s, e, k - 1);
      TokenEndTruncated(s, p, q);
      Next(s[..q], i, p, e);
    }
  }

  lemma {:induction false} FromTokenText(s: seq<WChar>, i: nat, k: nat)
    requires i <= |s| && k < |Spans(s, i)| == |Lex(s, i)|
    ensures var t := Spans(s, i)[k];
            && Lex(s, t.start) == Lex(s, i)[k..] && Lex(s, t.end) == Lex(s, i)[k + 1..]
            && Lex(s, i)[k] == s[t.start..t.end]
    decreases k
  {
    var p := SpaceEnd(s, i);
    var e := TokenEnd(s, p);
    Next(s, i, p, e);
    if k == 0 {
      SpaceEndIs(s, p, p);
      Next(s, p, p, e);
    } else {
      FromTokenText(s, e, k - 1);
    }
  }

  lemma {:induction false} TruncatedText(s: seq<WChar>, i: nat, k: nat)
    requires i <= |s| && k < |Spans(s, i)| == |Lex(s, i)|
    ensures Lex(s[..Spans(s, i)[k].start], i) == Lex(s, i)[..k]
    decreases k
  {
    var q := Spans(s, i)[k].start;
    Truncated(s, i, k);
    LexIsSpanText(s, i);
    LexIsSpanText(s[..q], i);
    forall n | 0 <= n < k ensures Lex(s[..q], i)[n] == Lex(s, i)[n] {
      var t := Spans(s[..q], i)[n];
      assert s[..q][t.start..t.end] == s[t.start..t.end];
    }
  }

  /** The tokens of the text from the start of one token up to the start of a later one. */
  lemma TokensBetween(s: seq<WChar>, from: nat, k: nat, lo: nat, hi: nat)
    requires from <= k < |Spans(s, 0)| == |Tokens(s)| && lo == Spans(s, 0)[from].start <= hi == Spans(s, 0)[k].start
    ensures Tokens(s[lo..hi]) == Tokens(s)[from..k]
  {
    StartsAgain(s, from, k, lo);
    TruncatedText(s, lo, k - from);
    SliceOfTail(Tokens(s), from, k);
    Infix(s, lo, hi);
  }

  /** Seen from the start of token `from`, token k is token k - from. */
  lemma StartsAgain(s: seq<WChar>, from: nat, k: nat, lo: nat)
    requires from <= k < |Spans(s, 0)| == |Tokens(s)| && lo == Spans(s, 0)[from].start
    ensures |Spans(s, lo)| == |Lex(s, lo)| == |Tokens(s)| - from
    ensures Lex(s, lo) == Tokens(s)[from..] && Spans(s, lo)[k - from] == Spans(s, 0)[k]
  {
    FromToken(s, 0, from);
    FromTokenText(s, 0, from);
  }

  /** How that text ends. */
  lemma EndingBetween(s: seq<WChar>, from: nat, k: nat, lo: nat, hi: nat)
    requires from < k < |Spans(s, 0)| == |Tokens(s)| && lo == Spans(s, 0)[from].start <= hi == Spans(s, 0)[k].start
    ensures EndingFrom(s[lo..hi], 0) in {InBlank, InClosedQuote, InWord}
    ensures EndingFrom(s[lo..hi], 0) == InWord ==> IsDelimiter(s[hi])
  {
    hide Lex, Spans, EndingFrom;
    StartsAgain(s, from, k, lo);
    EndingBefore(s, lo, k - from);
    InfixEnding(s, lo, hi);
  }

  /** A token that another one follows is a finished one. */
  lemma FinishedKind(s: seq<WChar>, p: nat, q: nat)
    requires p < |s| && !IsSpace(s[p]) && TokenEnd(s, p) == q < |s|
    ensures TokenKind(s[..q], p) == if IsQuote(s[p]) then InClosedQuote else InWord
    ensures !IsQuote(s[p]) ==> IsDelimiter(s[q])
  {
    TokenEndTruncated(s, p, q);
    MaximalTokenEnd(s, Span(p, q));
  }

  /** How the text before token k ends. */
  lemma EndingBefore(s: seq<WChar>, i: nat, k: nat)
    requires i <= |s| && 0 < k < |Spans(s, i)|
    ensures var t, q := Spans(s, i)[k - 1], Spans(s, i)[k].start;
            && EndingFrom(s[..q], i) ==
                (if t.end < q then InBlank else if IsQuote(s[t.start]) then InClosedQuote else InWord)
            && (EndingFrom(s[..q], i) == InWord ==> IsDelimiter(s[q]))
  {
    var t, q := Spans(s, i)[k - 1], Spans(s, i)[k].start;
    Truncated(s, i, k);
    EndingByLast(s[..q], i);
    FromToken(s, i, k - 1);
    assert Spans(s[..q], i)[k - 1] == t;
    if t.end == q {
      FinishedKind(s, t.start, q);
    }
  }

  // ----- comments -----

  const DASH: WChar := '-' as int

  /** Two dashes, which begin a comment to the end of the line. */
  predicate CommentAt(s: seq<WChar>, p: nat) {
    p + 1 < |s| && s[p] == s[p + 1] == DASH
  }

  function LineEnd(s: seq<WChar>, p: nat): (e: nat)
    requires p <= |s|
    ensures p <= e <= |s| && (CommentAt(s, p) ==> p < e)
    decreases |s| - p
  {
    if p < |s| && s[p] != '\n' as int then LineEnd(s, p + 1) else p
  }

  /** The tokens from position i with comments skipped like whitespace, as the discarded scan has it in mind. */
  function Uncommented(s: seq<WChar>, i: nat): seq<seq<WChar>>
    requires i <= |s|
    decreases |s| - i
  {
    var p := SpaceEnd(s, i);
    if p == |s| then []
    else if CommentAt(s, p) then Uncommented(s, LineEnd(s, p))
    else [s[p..TokenEnd(s, p)]] + Uncommented(s, TokenEnd(s, p))
  }

  predicate Dashed(t: seq<WChar>) {
    2 <= |t| && t[0] == t[1] == DASH
  }

  /** A token begins with two dashes exactly if a comment begins where it begins. */
  lemma DashedToken(s: seq<WChar>, p: nat)
    requires p < |s|
    ensures Dashed(s[p..TokenEnd(s, p)]) <==> CommentAt(s, p)
  {
    assert CommentAt(s, p) ==> TokenEnd(s, p) != p + 1;
  }

  lemma {:induction false} UncommentedHasNoDashes(s: seq<WChar>, i: nat)
    requires i <= |s|
    ensures forall t :: t in Uncommented(s, i) ==> !Dashed(t)
    decreases |s| - i
  {
    var p := SpaceEnd(s, i);
    if p == |s| {
    } else if CommentAt(s, p) {
      UncommentedHasNoDashes(s, LineEnd(s, p));
    } else {
      DashedToken(s, p);
      UncommentedHasNoDashes(s, TokenEnd(s, p));
    }
  }

  lemma {:induction false} NothingToSkip(s: seq<WChar>, i: nat)
    requires i <= |s| && forall t :: t in Lex(s, i) ==> !Dashed(t)
    ensures Uncommented(s, i) == Lex(s, i)
    decreases |s| - i
  {
    var p := SpaceEnd(s, i);
    if p == |s| {
    } else {
      var e := TokenEnd(s, p);
      Next(s, i, p, e);
      assert Lex(s, i)[0] == s[p..e];
      DashedToken(s, p);
      assert forall t :: t in Lex(s, e) ==> t in Lex(s, i);
      NothingToSkip(s, e);
    }
  }

  /** Comments are not skipped: the tokens are what they would be without comments exactly if none begins with --. */
  lemma CommentsAreKept(s: seq<WChar>, i: nat)
    requires i <= |s|
    ensures Uncommented(s, i) == Lex(s, i) <==> forall t :: t in Lex(s, i) ==> !Dashed(t)
  {
    hide Lex, Uncommented;
    UncommentedHasNoDashes(s, i);
    if forall t :: t in Lex(s, i) ==> !Dashed(t) {
      NothingToSkip(s, i);
    }
  }

  // ----- nothing visible is lost or made up -----

  /** The characters that are not whitespace, in order. */
  function Ink(s: seq<WChar>): seq<WChar> {
    if s == [] then [] else (if IsSpace(s[0]) then [] else [s[0]]) + Ink(s[1..])
  }

  function InkOfAll(ts: seq<seq<WChar>>): seq<WChar> {
    if ts == [] then [] else Ink(ts[0]) + InkOfAll(ts[1..])
  }

  lemma {:induction false} InkAppend(a: seq<WChar>, b: seq<WChar>)
    ensures Ink(a + b) == Ink(a) + Ink(b)
  {
    if a == [] {
      assert a + b == b;
    } else {
      InkAppend(a[1..], b);
      assert (a + b)[0] == a[0] && (a + b)[1..] == a[1..] + b;
      Associate(if IsSpace(a[0]) then [] else [a[0]], Ink(a[1..]), Ink(b));
    }
  }

  lemma {:induction false} NoInkIsBlank(s: seq<WChar>)
    ensures Ink(s) == [] <==> Blank(s, 0, |s|)
  {
    if s == [] {
    } else {
      NoInkIsBlank(s[1..]);
      assert forall k :: 0 < k < |s| ==> s[k] == s[1..][k - 1];
    }
  }

  lemma InkOfRest(s: seq<WChar>, i: nat, j: nat)
    requires i <= j <= |s|
    ensures Ink(s[i..]) == Ink(s[i..j]) + Ink(s[j..])
  {
    InkAppend(s[i..j], s[j..]);
    assert s[i..] == s[i..j] + s[j..];
  }

  lemma InkOfBlank(s: seq<WChar>, i: nat)
    requires i <= |s|
    ensures Ink(s[i..]) == Ink(s[SpaceEnd(s, i)..])
  {
    var p := SpaceEnd(s, i);
    SpaceEndIs(s, i, p);
    InkOfRest(s, i, p);
    NoInkIsBlank(s[i..p]);
  }

  lemma {:induction false} LexKeepsInk(s: seq<WChar>, i: nat)
    requires i <= |s|
    ensures InkOfAll(Lex(s, i)) == Ink(s[i..])
    decreases |s| - i
  {
    var p := SpaceEnd(s, i);
    InkOfBlank(s, i);
    if p == |s| {
    } else {
      var e := TokenEnd(s, p);
      InkOfRest(s, p, e);
      LexKeepsInk(s, e);
      Next(s, i, p, e);
    }
  }

  /** Text put in front changes the tokens exactly when it has a visible character. */
  lemma PrefixUnseen(a: seq<WChar>, b: seq<WChar>)
    ensures Tokens(a + b) == Tokens(b) <==> Blank(a, 0, |a|)
  {
    if Blank(a, 0, |a|) {
      SkipBlank(a, b, 0);
    } else {
      LexKeepsInk(a + b, 0);
      LexKeepsInk(b, 0);
      assert (a + b)[0..] == a + b && b[0..] == b;
      InkAppend(a, b);
      NoInkIsBlank(a);
    }
  }

  // ----- the pointer loops -----

  /** Buffer a holds the C string s, and whatever follows its terminator. */
  ghost predicate Holds(a: array<WChar>, s: seq<WChar>)
    reads a
  {
    |s| < a.Length && a[..|s|] == s && a[|s|] == 0 && forall k :: 0 <= k < |s| ==> s[k] != 0
  }

  method ConsumeWhitespace(a: array<WChar>, ptr: nat, ghost s: seq<WChar>) returns (r: nat)
    requires Holds(a, s) && ptr <= |s|
    ensures r == SpaceEnd(s, ptr)
  {
    r := ptr;
    if a[r] == 0 {
      return;
    }
    while IsSpace(a[r])
      invariant ptr <= r <= |s| && SpaceEnd(s, ptr) == SpaceEnd(s, r)
      decreases |s| - r
    {
      assert s[r] == a[r];
      r := r + 1;
    }
    assert r < |s| ==> s[r] == a[r];
  }

  method FindEndOfString(a: array<WChar>, start: nat, stringChar: WChar, ghost s: seq<WChar>) returns (r: nat)
    requires Holds(a, s) && start < |s| && stringChar != 0
    ensures r == QuoteEnd(s, start + 1, stringChar)
  {
    r := start;
    var prev := a[r];
    r := r + 1;
    var c := a[r];
    while c != 0
      invariant start < r <= |s| && c == a[r] && prev == s[r - 1]
      invariant QuoteEnd(s, start + 1, stringChar) == QuoteEnd(s, r, stringChar)
      decreases |s| - r
    {
      assert s[r] == a[r];
      if c == stringChar && prev != BACKSLASH {
        r := r + 1;
        return;
      }
      prev := c;
      r := r + 1;
      c := a[r];
    }
  }

  /**
   * The position and end of the next token, or two null pointers. The scan over a `--` comment is kept
   * although its result is discarded: the token is looked for from `str` again.
   */
  method NextToken(a: array<WChar>, str: Option<nat>, ghost s: seq<WChar>)
    returns (start: Option<nat>, end: Option<nat>)
    requires Holds(a, s) && (str.Some? ==> str.value <= |s|)
    ensures str.None? || SpaceEnd(s, str.value) == |s| ==> start == None && end == None
    ensures str.Some? && SpaceEnd(s, str.value) < |s| ==>
              && start == Some(SpaceEnd(s, str.value))
              && end == Some(TokenEnd(s, SpaceEnd(s, str.value)))
  {
    if str.None? {
      return None, None;
    }
    var p := ConsumeWhitespace(a, str.value, s);
    if a[p] == '-' as int && a[p + 1] == '-' as int {
      while a[p] != 0 && a[p] != '\n' as int
        invariant p <= |s|
        decreases |s| - p
      {
        p := p + 1;
      }
    }
    p := ConsumeWhitespace(a, str.value, s);
    var e := p;
    var c := a[p];
    if c == 0 {
      return None, None;
    }
    assert s[p] == a[p];
    if IsQuote(c) {
      e := FindEndOfString(a, p, c, s);
      return Some(p), Some(e);
    }
    e := e + 1;
    c := a[e];
    while !(IsDelimiter(c) || c == 0)
      invariant p < e <= |s| && c == a[e] && WordEnd(s, p + 1) == WordEnd(s, e)
      decreases |s| - e
    {
      assert s[e] == a[e];
      e := e + 1;
      c := a[e];
    }
    assert e < |s| ==> s[e] == a[e];
    return Some(p), Some(e);
  }
}
