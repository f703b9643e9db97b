/** Character codes, zero-terminated strings and the few character classes the text layer asks about. */
module CStrings {

  /** What a pointer-returning routine hands back: a position, or the null pointer. */
  datatype Option<+T> = None | Some(value: T)

  type Byte = b: int | 0 <= b < 0x100

  /** The 16-bit `fxmy_char` of the Windows build. */
  type WChar = c: int | 0 <= c < 0x1_0000

  /** A C string of bytes, without its terminator. */
  type CText = s: seq<Byte> | 0 !in s

  const BACKSLASH: WChar := '\\' as int
  const SINGLE_QUOTE: WChar := '\'' as int
  const DOUBLE_QUOTE: WChar := '"' as int
  const SEMICOLON: WChar := ';' as int
  const COMMA: WChar := ',' as int
  const SPACE: WChar := ' ' as int

  /** The buffer b holds a C string of length n: its first zero is at index n. */
  predicate IsCString(b: seq<int>, n: nat) {
    n < |b| && b[n] == 0 && forall i :: 0 <= i < n ==> b[i] != 0
  }

  /** The index of the first zero of b, or |b| when there is none. */
  function StrLen(b: seq<int>): (n: nat)
    ensures n <= |b| && (forall i :: 0 <= i < n ==> b[i] != 0) && (n < |b| ==> b[n] == 0)
  {
    if b == [] || b[0] == 0 then 0 else 1 + StrLen(b[1..])
  }

  /** The bytes `text` stand at position `at` of b. */
  predicate Stands(b: seq<Byte>, at: nat, text: seq<Byte>) {
    at + |text| <= |b| && forall k :: 0 <= k < |text| ==> b[at + k] == text[k]
  }

  lemma StandsSplit(b: seq<Byte>, at: nat, x: seq<Byte>, y: seq<Byte>)
    requires Stands(b, at, x + y)
    ensures Stands(b, at, x) && Stands(b, at + |x|, y)
  {
    assert forall k :: 0 <= k < |x| ==> (x + y)[k] == x[k];
    forall k | 0 <= k < |y| ensures b[at + |x| + k] == y[k] {
      assert (x + y)[|x| + k] == y[k] && b[at + (|x| + k)] == (x + y)[|x| + k];
    }
  }

  /** `isspace` in the C locale. */
  predicate IsSpace(c: int) {
    c == SPACE || 9 <= c <= 13
  }

  predicate IsQuote(c: int) {
    c == SINGLE_QUOTE || c == DOUBLE_QUOTE
  }

  /** The characters that end an unquoted token. */
  predicate IsDelimiter(c: int) {
    IsSpace(c) || c == SEMICOLON || c == COMMA
  }

  /** `tolower` in the C locale. */
  function Lower(c: int): int {
    if 'A' as int <= c <= 'Z' as int then c + 32 else c
  }

  /** `buffer` with `data` written over it at `at`. */
  function Overlay<T>(buffer: seq<T>, at: nat, data: seq<T>): (r: seq<T>)
    requires at + |data| <= |buffer|
    ensures |r| == |buffer|
  {
    buffer[..at] + data + buffer[at + |data|..]
  }

  /**
   * The C library's memmove of the stretch [from, upTo) inside one array: overlapping stretches behave as if copied
   * through a temporary.
   */
  method Memmove<T>(a: array<T>, dest: nat, from: nat, upTo: nat)
    requires from <= upTo <= a.Length && dest + (upTo - from) <= a.Length
    modifies a
    ensures a[..] == Overlay(old(a[..]), dest, old(a[..])[from..upTo])
  {
    forall i | 0 <= i < upTo - from {
      a[dest + i] := a[from + i];
    }
  }

  /** memmove from a value into an array. */
  method CopyIn<T>(a: array<T>, dest: nat, data: seq<T>)
    requires dest + |data| <= a.Length
    modifies a
    ensures a[..] == Overlay(old(a[..]), dest, data)
  {
    forall i | 0 <= i < |data| {
      a[dest + i] := data[i];
    }
  }

  // ----- sequences -----

  lemma SliceShift<T>(a: seq<T>, b: seq<T>, p: nat, e: nat)
    requires p <= e <= |b|
    ensures (a + b)[|a| + p..|a| + e] == b[p..e]
    ensures e < |b| ==> (a + b)[|a| + e] == b[e]
  {
  }

  lemma SlicePrefix<T>(a: seq<T>, b: seq<T>, p: nat, e: nat)
    requires p <= e <= |a|
    ensures (a + b)[p..e] == a[p..e]
    ensures forall k :: 0 <= k < |a| ==> (a + b)[k] == a[k]
  {
  }

  lemma Associate<T>(x: seq<T>, y: seq<T>, z: seq<T>)
    ensures x + (y + z) == (x + y) + z
  {
  }

  lemma SliceOfTail<T>(x: seq<T>, lo: nat, hi: nat)
    requires lo <= hi <= |x|
    ensures x[lo..][..hi - lo] == x[lo..hi]
  {
  }
}
