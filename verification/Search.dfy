/** Case-insensitive comparison and search. */
module Search {
  import opened CStrings
  import opened Tokenizer

  /** t, folded to lower case, is a nonempty prefix of kw: what the keyword tests accept. */
  predicate Abbreviates(t: seq<WChar>, kw: seq<WChar>) {
    0 < |t| <= |kw| && forall i :: 0 <= i < |t| ==> Lower(t[i]) == Lower(kw[i])
  }

  /** needle stands in hay at position at, up to case. */
  predicate MatchesAt(hay: seq<WChar>, needle: seq<WChar>, at: nat) {
    at + |needle| <= |hay| && forall i :: 0 <= i < |needle| ==> Lower(hay[at + i]) == Lower(needle[i])
  }

  ghost predicate Contains(hay: seq<WChar>, needle: seq<WChar>) {
    exists at: nat :: MatchesAt(hay, needle, at)
  }

  /**
   * Compares `length` characters of the string at lhs[at..] with those of the zero-terminated rhs. The scan
   * stops at the first difference, so it never leaves rhs as long as the counted part of lhs has no zero.
   */
  method Strnicmp(lhs: array<WChar>, at: nat, rhs: seq<WChar>, length: nat, ghost kw: seq<WChar>) returns (r: int)
    requires at + length <= lhs.Length && (forall i :: at <= i < at + length ==> lhs[i] != 0)
    requires rhs == kw + [0] && (forall i :: 0 <= i < |kw| ==> kw[i] != 0)
    ensures r == 0 <==> length == 0 || Abbreviates(lhs[at..at + length], kw)
    ensures r != 0 ==> exists i :: 0 <= i < length && i < |rhs| && r == Lower(lhs[at + i]) - Lower(rhs[i]) &&
                                   forall j :: 0 <= j < i ==> Lower(lhs[at + j]) == Lower(rhs[j])
  {
    ghost var t := lhs[at..at + length];
    for i := 0 to length
      invariant i <= |kw|
      invariant forall j :: 0 <= j < i ==> Lower(lhs[at + j]) == Lower(rhs[j])
    {
      var a, b := Lower(lhs[at + i]), Lower(rhs[i]);
      if a != b {
        assert t[i] == lhs[at + i];
        return a - b;
      }
    }
    assert forall j :: 0 <= j < |t| ==> t[j] == lhs[at + j] && rhs[j] == kw[j];
    return 0;
  }

  /** The first position of needle in haystack up to case, or the null pointer. */
  method Stristr(haystack: array?<WChar>, needle: array?<WChar>, ghost h: seq<WChar>, ghost n: seq<WChar>)
    returns (r: Option<nat>)
    requires haystack != null ==> Holds(haystack, h)
    requires needle != null ==> Holds(needle, n)
    ensures haystack == null || needle == null ==> r == None
    ensures haystack != null && needle != null ==> (r.None? <==> !Contains(h, n))
    ensures r.Some? ==> MatchesAt(h, n, r.value) && forall at: nat :: at < r.value ==> !MatchesAt(h, n, at)
  {
    if haystack == null || needle == null {
      return None;
    }
    var at := 0;
    while true
      invariant at <= |h|
      invariant forall k: nat :: k < at ==> !MatchesAt(h, n, k)
      decreases |h| - at
    {
      var matched := MatchPrefix(haystack, needle, at, h, n);
      if matched {
        return Some(at);
      }
      if haystack[at] == 0 {
        return None;
      }
      at := at + 1;
    }
  }

  /** The inner comparison loop of the search, tried at one position. */
  method MatchPrefix(haystack: array<WChar>, needle: array<WChar>, at: nat, ghost h: seq<WChar>, ghost n: seq<WChar>)
    returns (matched: bool)
    requires Holds(haystack, h) && Holds(needle, n) && at <= |h|
    ensures matched <==> MatchesAt(h, n, at)
  {
    var i, j := at, 0;
    var x, y := haystack[i], needle[j];
    while Lower(x) == Lower(y)
      invariant i == at + j <= |h| && j <= |n| && x == haystack[i] && y == needle[j]
      invariant forall k :: 0 <= k < j ==> Lower(h[at + k]) == Lower(n[k])
      decreases |h| - i
    {
      assert i < |h| ==> h[i] == x;
      assert j < |n| ==> n[j] == y;
      if x == 0 {
        break;
      }
      i, j := i + 1, j + 1;
      x, y := haystack[i], needle[j];
    }
    matched := needle[j] == 0;
    assert i < |h| ==> h[i] == x;
    assert j < |n| ==> n[j] == y;
  }
}
