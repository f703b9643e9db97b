/** What the text layer does, told in character codes and plain texts. */
module CharacterCodes {
  import opened CStrings
  import opened Tokenizer
  import opened Search
  import opened Query

  /** A text as character codes. */
  function Codes(text: string): seq<WChar> {
    seq(|text|, i requires 0 <= i < |text| => if text[i] as int < 0x1_0000 then text[i] as int else 0)
  }

  lemma CodesAppend(a: string, b: string)
    ensures Codes(a + b) == Codes(a) + Codes(b)
  {
  }

  // ----- tokens -----

  predicate BlankCode(c: WChar) {
    c == 9 || c == 10 || c == 11 || c == 12 || c == 13 || c == 32
  }

  /** Comma and semicolon end a token like a blank does. */
  predicate EndCode(c: WChar) {
    BlankCode(c) || c == 44 || c == 59
  }

  /** A quote code with no backslash right before it. */
  predicate LiveQuoteCode(s: seq<WChar>, k: nat, quote: WChar)
    requires 0 < k < |s|
  {
    s[k] == quote && s[k - 1] != 92
  }

  /**
   * One token, at [start, end). It does not begin with a blank. If it begins with a single or double quote, it ends
   * behind the first live quote of the same kind, and otherwise in front of the first blank, comma or semicolon behind
   * its first character; or at the end of the string.
   */
  ghost predicate TokenCodes(s: seq<WChar>, start: nat, end: nat) {
    && start < end <= |s| && !BlankCode(s[start])
    && if s[start] == 34 || s[start] == 39 then
         && (forall k :: start < k < end - 1 ==> !LiveQuoteCode(s, k, s[start]))
         && (end < |s| ==> start + 1 < end && LiveQuoteCode(s, end - 1, s[start]))
       else
         && (forall k :: start < k < end ==> !EndCode(s[k]))
         && (end < |s| ==> EndCode(s[end]))
  }

  lemma TokenByCode(s: seq<WChar>, t: Span)
    ensures MaximalToken(s, t) <==> TokenCodes(s, t.start, t.end)
  {
    if t.start < t.end <= |s| {
      forall k | 0 < k < |s| ensures ClosesAt(s, k, s[t.start]) <==> LiveQuoteCode(s, k, s[t.start]) {
      }
      forall k | 0 <= k < |s| ensures IsDelimiter(s[k]) <==> EndCode(s[k]) {
      }
    }
  }

  /** From position i on, the text is these tokens with blanks before, between and behind them. */
  ghost predicate CutCodes(s: seq<WChar>, i: nat, ts: seq<Span>)
    decreases |ts|
  {
    if ts == [] then i <= |s| && forall k :: i <= k < |s| ==> BlankCode(s[k])
    else
      && i <= ts[0].start && TokenCodes(s, ts[0].start, ts[0].end)
      && (forall k :: i <= k < ts[0].start ==> BlankCode(s[k]))
      && CutCodes(s, ts[0].end, ts[1..])
  }

  lemma {:induction false} CutByCode(s: seq<WChar>, i: nat, ts: seq<Span>)
    ensures Cuts(s, i, ts) <==> CutCodes(s, i, ts)
    decreases |ts|
  {
    if ts == [] {
    } else {
      TokenByCode(s, ts[0]);
      hide MaximalToken, TokenCodes;
      CutByCode(s, ts[0].end, ts[1..]);
    }
  }

  /** The tokenizer's cut of a string, told in character codes: there is no other. */
  lemma TokensByCode(s: seq<WChar>, ts: seq<Span>)
    ensures CutCodes(s, 0, ts) <==> ts == Spans(s, 0)
  {
    CutByCode(s, 0, ts);
    TokenizationIsTheOnlyCut(s, 0, ts);
  }

  // ----- searching -----

  /** The same letter in either case, or the same character. */
  predicate SameLetter(x: WChar, y: WChar) {
    x == y || (65 <= x <= 90 && y == x + 32) || (65 <= y <= 90 && x == y + 32)
  }

  lemma SameLetterByCode(x: WChar, y: WChar)
    ensures Lower(x) == Lower(y) <==> SameLetter(x, y)
  {
  }

  /** The text occurs, up to case. */
  ghost predicate Occurs(hay: seq<WChar>, text: string) {
    exists at: nat :: at + |text| <= |hay| && OccursAt(hay, text, at)
  }

  ghost predicate OccursAt(hay: seq<WChar>, text: string, at: nat)
    requires at + |text| <= |hay|
  {
    forall i :: 0 <= i < |text| ==> SameLetter(hay[at + i], Codes(text)[i])
  }

  lemma OccursByCode(hay: seq<WChar>, text: string)
    ensures Contains(hay, Codes(text)) <==> Occurs(hay, text)
  {
    forall at: nat ensures MatchesAt(hay, Codes(text), at) <==> at + |text| <= |hay| && OccursAt(hay, text, at) {
      if at + |text| <= |hay| {
        forall i | 0 <= i < |text|
          ensures Lower(hay[at + i]) == Lower(Codes(text)[i]) <==> SameLetter(hay[at + i], Codes(text)[i])
        {
          SameLetterByCode(hay[at + i], Codes(text)[i]);
        }
      }
    }
  }

  // ----- the branches of the query handler -----

  lemma BranchTexts()
    ensures SET_NAMES == Codes("SET NAMES") && UTF8 == Codes("utf8") && DESCRIBE == Codes("DESCRIBE")
    ensures SHOW_TABLES == Codes("SHOW TABLES") && LIMIT_SPACE == Codes("LIMIT ")
  {
  }

  /** Which branch takes a query, in their order. */
  lemma BranchesByText(s: seq<WChar>, spare: seq<WChar>)
    ensures Judge(s, spare) == Acknowledged <==> Occurs(s, "SET NAMES") && Occurs(s, "utf8")
    ensures Judge(s, spare) == Aborts <==> Occurs(s, "SET NAMES") && !Occurs(s, "utf8")
    ensures Judge(s, spare) == Describes <==> !Occurs(s, "SET NAMES") && Occurs(s, "DESCRIBE")
    ensures Judge(s, spare) == ShowsTables <==>
            !Occurs(s, "SET NAMES") && !Occurs(s, "DESCRIBE") && Occurs(s, "SHOW TABLES")
    ensures !Occurs(s, "SET NAMES") && !Occurs(s, "DESCRIBE") && !Occurs(s, "SHOW TABLES") && !Occurs(s, "LIMIT ") ==>
              Judge(s, spare) == Executes(s)
  {
    BranchTexts();
    OccursByCode(s, "SET NAMES");
    OccursByCode(s, "utf8");
    OccursByCode(s, "DESCRIBE");
    OccursByCode(s, "SHOW TABLES");
    OccursByCode(s, "LIMIT ");
    hide Contains, Occurs, Codes;
  }
}
