/**
 * Where the LIMIT clause of a token list is, where the program takes it to be, and what moving it means.
 * The program takes any beginning of a keyword for the keyword.
 */
module Clauses {
  import opened CStrings
  import opened Search

  const SELECT: seq<WChar> := ['S' as int, 'E' as int, 'L' as int, 'E' as int, 'C' as int, 'T' as int]
  const LIMIT: seq<WChar> := ['L' as int, 'I' as int, 'M' as int, 'I' as int, 'T' as int]
  const TOP: seq<WChar> := ['T' as int, 'O' as int, 'P' as int]

  /** The token list with LIMIT n at place k taken out and TOP n put in right behind the SELECT at place j. */
  function Moved(ts: seq<seq<WChar>>, j: nat, k: nat): seq<seq<WChar>>
    requires j < k && k + 1 < |ts|
  {
    ts[..j + 1] + ([TOP, ts[k + 1]] + (ts[j + 1..k] + ts[k + 2..]))
  }

  // ----- what the program takes for the clause -----

  /** The first token that abbreviates kw, or |ts|. */
  function FirstMatch(ts: seq<seq<WChar>>, kw: seq<WChar>): (k: nat)
    ensures k <= |ts| && (forall i :: 0 <= i < k ==> !Abbreviates(ts[i], kw)) && (k < |ts| ==> Abbreviates(ts[k], kw))
  {
    if ts == [] || Abbreviates(ts[0], kw) then 0 else 1 + FirstMatch(ts[1..], kw)
  }

  /** The position of the token taken for LIMIT, and of the one before it taken for SELECT. */
  function LimitAt(ts: seq<seq<WChar>>): (k: nat)
    ensures k <= |ts|
  {
    FirstMatch(ts, LIMIT)
  }

  function SelectAt(ts: seq<seq<WChar>>): (j: nat)
    ensures j <= LimitAt(ts)
  {
    FirstMatch(ts[..LimitAt(ts)], SELECT)
  }

  predicate Movable(ts: seq<seq<WChar>>) {
    SelectAt(ts) < LimitAt(ts) && LimitAt(ts) + 1 < |ts|
  }

  /** The move with these two tokens. */
  function LimitMoved(ts: seq<seq<WChar>>): seq<seq<WChar>>
    requires Movable(ts)
  {
    Moved(ts, SelectAt(ts), LimitAt(ts))
  }

  // ----- what the clause is -----

  /** The whole keyword, in either case. */
  predicate Keyword(t: seq<WChar>, kw: seq<WChar>) {
    |t| == |kw| && Abbreviates(t, kw)
  }

  /** The first token that is the keyword kw, or |ts|. */
  function FirstKeyword(ts: seq<seq<WChar>>, kw: seq<WChar>): (k: nat)
    ensures k <= |ts| && (forall i :: 0 <= i < k ==> !Keyword(ts[i], kw)) && (k < |ts| ==> Keyword(ts[k], kw))
  {
    if ts == [] || Keyword(ts[0], kw) then 0 else 1 + FirstKeyword(ts[1..], kw)
  }

  function ClauseAt(ts: seq<seq<WChar>>): (k: nat)
    ensures k <= |ts|
  {
    FirstKeyword(ts, LIMIT)
  }

  function QueryAt(ts: seq<seq<WChar>>): (j: nat)
    ensures j <= ClauseAt(ts)
  {
    FirstKeyword(ts[..ClauseAt(ts)], SELECT)
  }

  /** There is a LIMIT with something behind it, and a SELECT before it. */
  predicate HasClause(ts: seq<seq<WChar>>) {
    QueryAt(ts) < ClauseAt(ts) && ClauseAt(ts) + 1 < |ts|
  }

  /** The move that is meant. */
  function ClauseMoved(ts: seq<seq<WChar>>): seq<seq<WChar>>
    requires HasClause(ts)
  {
    Moved(ts, QueryAt(ts), ClauseAt(ts))
  }

  /** What a query is meant to become: the clause is moved if there is one. */
  function Meant(ts: seq<seq<WChar>>): seq<seq<WChar>> {
    if HasClause(ts) then ClauseMoved(ts) else ts
  }

  // ----- when both are the same -----

  /** One LIMIT less, one TOP more. */
  lemma MovedTokens(ts: seq<seq<WChar>>, j: nat, k: nat)
    requires j < k && k + 1 < |ts|
    ensures multiset(Moved(ts, j, k)) + multiset{ts[k]} == multiset(ts) + multiset{TOP}
  {
    assert ts == ts[..j + 1] + (ts[j + 1..k] + ([ts[k], ts[k + 1]] + ts[k + 2..]));
  }

  /** So a move always changes something. */
  lemma MovedIsDifferent(ts: seq<seq<WChar>>, j: nat, k: nat)
    requires j < k && k + 1 < |ts| && Abbreviates(ts[k], LIMIT)
    ensures Moved(ts, j, k) != ts
  {
    MovedTokens(ts, j, k);
    assert Lower(ts[k][0]) != Lower(TOP[0]);
    assert (multiset(ts) + multiset{TOP})[TOP] == multiset(ts)[TOP] + 1;
  }

  /** Equal moves take out the same token. */
  lemma SameTokenTaken(ts: seq<seq<WChar>>, i: nat, j: nat, k: nat, l: nat)
    requires i < k && k + 1 < |ts| && j < l && l + 1 < |ts| && Moved(ts, i, k) == Moved(ts, j, l)
    ensures ts[k] == ts[l]
  {
    MovedTokens(ts, i, k);
    MovedTokens(ts, j, l);
    var m := multiset(Moved(ts, i, k));
    assert (m + multiset{ts[k]})[ts[k]] == m[ts[k]] + 1;
  }

  /**
   * TOP n put in behind i or behind a later j, where a token stands that does not stand before: the lists differ,
   * but for one odd case.
   */
  lemma SamePlace(ts: seq<seq<WChar>>, i: nat, j: nat, k: nat)
    requires i < j < k && k + 1 < |ts| && ts[j] != TOP && ts[j] !in ts[..j]
    ensures Moved(ts, i, k) == Moved(ts, j, k) <==> j == i + 2 && ts[i + 1] == TOP && ts[k + 1] == ts[j]
  {
    var a, b := Moved(ts, i, k), Moved(ts, j, k);
    assert b[j] == ts[j] && a[i + 1] == TOP && a[i + 2] == ts[k + 1] && b[i + 1] == ts[i + 1];
    if j > i + 2 {
      assert a[j] == ts[j - 2] && ts[j - 2] in ts[..j];
    } else if j == i + 2 && ts[i + 1] == TOP && ts[k + 1] == ts[j] {
      assert ts[i + 1..k] == [ts[i + 1], ts[j]] + ts[j + 1..k];
      assert ts[..j + 1] == ts[..i + 1] + [ts[i + 1], ts[j]];
    }
  }

  /**
   * The program takes the right tokens for LIMIT and SELECT. The one other case in which its move is right is
   * a beginning of SELECT, TOP, SELECT, and a second SELECT in the place of the number.
   */
  predicate ClauseFound(ts: seq<seq<WChar>>)
    requires Movable(ts)
  {
    && HasClause(ts) && LimitAt(ts) == ClauseAt(ts)
    && (SelectAt(ts) == QueryAt(ts) ||
        (SelectAt(ts) + 2 == QueryAt(ts) && ts[SelectAt(ts) + 1] == TOP && ts[LimitAt(ts) + 1] == ts[QueryAt(ts)]))
  }

  lemma SelectStandsFirst(ts: seq<seq<WChar>>)
    requires HasClause(ts)
    ensures var j := QueryAt(ts); Keyword(ts[j], SELECT) && ts[j] != TOP && ts[j] !in ts[..j]
  {
    var j, front := QueryAt(ts), ts[..ClauseAt(ts)];
    assert Keyword(front[j], SELECT) && front[j] == ts[j];
    forall i | 0 <= i < j ensures ts[..j][i] != ts[j] {
      assert !Keyword(front[i], SELECT) && front[i] == ts[i];
    }
  }

  lemma TakenIsBefore(ts: seq<seq<WChar>>)
    requires HasClause(ts)
    ensures LimitAt(ts) <= ClauseAt(ts) && SelectAt(ts) <= QueryAt(ts)
  {
    SelectStandsFirst(ts);
    if QueryAt(ts) < LimitAt(ts) {
      assert ts[..LimitAt(ts)][QueryAt(ts)] == ts[QueryAt(ts)];
    }
  }

  /** The program's move is the meant one exactly if it takes the right tokens for the keywords. */
  lemma MovesTheClause(ts: seq<seq<WChar>>)
    requires Movable(ts)
    ensures LimitMoved(ts) == Meant(ts) <==> ClauseFound(ts)
  {
    hide Moved, Abbreviates;
    MovedIsDifferent(ts, SelectAt(ts), LimitAt(ts));
    if HasClause(ts) {
      var i, k, j, l := SelectAt(ts), LimitAt(ts), QueryAt(ts), ClauseAt(ts);
      TakenIsBefore(ts);
      SelectStandsFirst(ts);
      if Moved(ts, i, k) == Moved(ts, j, l) {
        SameTokenTaken(ts, i, j, k, l);
        assert Keyword(ts[k], LIMIT);
      }
      if k == l && i < j {
        SamePlace(ts, i, j, k);
      }
    }
  }
}
