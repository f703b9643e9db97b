/** The conversion of byte strings to wide strings in fxmy_string.c, with its assertions switched on. */
module Utf8 {
  import opened CStrings

  /** One decoding step: a code unit and its width, a failed assertion, or a byte the input pointer does not pass. */
  datatype Step = Unit(code: WChar, width: nat) | Abort | Fault

  /** The six payload bits of a continuation byte. */
  function Low(c: int): int {
    c % 0x40
  }

  /**
   * The decoder at position i of the memory b. A zero byte is returned without moving on, so the loops around the
   * decoder never get past it; reading outside b faults as well.
   */
  function Decode(b: seq<Byte>, i: nat): (r: Step)
    requires i < |b|
    ensures r.Unit? ==> 1 <= r.width <= 3
  {
    var c: int := b[i];
    if c == 0 then Fault
    else if c < 0x80 then Unit(c, 1)
    else if 0xE0 <= c then
      if i + 2 >= |b| then Fault
      else if b[i + 1] == 0 && b[i + 2] == 0 then Abort
      else Unit(c % 0x10 * 0x1000 + Low(b[i + 1]) * 0x40 + Low(b[i + 2]), 3)
    else if 0xC0 <= c then
      if i + 1 >= |b| then Fault
      else if b[i + 1] == 0 then Abort
      else Unit(c % 0x20 * 0x40 + Low(b[i + 1]), 2)
    else Abort
  }

  datatype Conversion = Done(codes: seq<WChar>) | Aborted | Faulted

  function Prepend(codes: seq<WChar>, rest: Conversion): Conversion {
    match rest
    case Done(more) => Done(codes + more)
    case other => other
  }

  /** The code units of the bytes from `at` to `end`. The last sequence may reach over `end`. */
  function Convert(b: seq<Byte>, at: nat, end: nat): (r: Conversion)
    requires end <= |b|
    ensures r.Done? && at <= end ==> |r.codes| <= end - at
    decreases end - at
  {
    if at >= end then Done([])
    else
      match Decode(b, at)
      case Abort => Aborted
      case Fault => Faulted
      case Unit(code, width) =>
        Prepend([code], Convert(b, at + width, end))
  }

  // ----- the encoding it is meant to undo -----

  /** Any number the patterns of RFC 3629 can hold, the surrogates included, which the RFC itself leaves out. */
  type CodePoint = c: int | 0 <= c < 0x11_0000

  /** Section 3 of RFC 3629. */
  function EncodeOne(c: CodePoint): (r: seq<Byte>)
    ensures 1 <= |r| <= 4
  {
    if c < 0x80 then [c]
    else if c < 0x800 then [0xC0 + c / 0x40, 0x80 + c % 0x40]
    else if c < 0x1_0000 then [0xE0 + c / 0x1000, 0x80 + c / 0x40 % 0x40, 0x80 + c % 0x40]
    else [0xF0 + c / 0x4_0000, 0x80 + c / 0x1000 % 0x40, 0x80 + c / 0x40 % 0x40, 0x80 + c % 0x40]
  }

  function Encode(cs: seq<CodePoint>): seq<Byte> {
    if cs == [] then [] else EncodeOne(cs[0]) + Encode(cs[1..])
  }

  /** Fits one wide character and is not the terminator. */
  predicate Representable(c: CodePoint) {
    0 < c < 0x1_0000
  }

  predicate AllRepresentable(cs: seq<CodePoint>) {
    cs == [] || (Representable(cs[0]) && AllRepresentable(cs[1..]))
  }

  lemma SplitBase64(c: int)
    requires 0 <= c
    ensures c == c / 0x40 * 0x40 + c % 0x40 == c / 0x1000 * 0x1000 + c / 0x40 % 0x40 * 0x40 + c % 0x40
  {
  }

  lemma DecodeRepresentable(b: seq<Byte>, at: nat, c: CodePoint)
    requires Representable(c) && Stands(b, at, EncodeOne(c))
    ensures Decode(b, at) == Unit(c, |EncodeOne(c)|)
  {
    var e := EncodeOne(c);
    assert b[at + 0] == e[0];
    SplitBase64(c);
    if c < 0x80 {
    } else if c < 0x800 {
      assert b[at + 1] == e[1];
    } else {
      assert b[at + 1] == e[1] && b[at + 2] == e[2];
    }
  }

  /** A four-byte sequence is taken for a three-byte one, and its fourth byte stops the program. */
  lemma DecodeSupplementary(b: seq<Byte>, at: nat, end: nat, c: CodePoint)
    requires 0x1_0000 <= c && at + 4 <= end <= |b| && Stands(b, at, EncodeOne(c))
    ensures Convert(b, at, end) == Aborted
  {
    var e := EncodeOne(c);
    assert b[at + 0] == e[0] && b[at + 1] == e[1] && b[at + 3] == e[3];
    assert Convert(b, at + 3, end) == Aborted;
  }

  lemma ConvertHead(b: seq<Byte>, at: nat, end: nat, c: CodePoint)
    requires Stands(b, at, EncodeOne(c)) && at + |EncodeOne(c)| <= end <= |b|
    ensures Representable(c) ==> Convert(b, at, end) == Prepend([c], Convert(b, at + |EncodeOne(c)|, end))
    ensures !Representable(c) ==> !Convert(b, at, end).Done?
  {
    if Representable(c) {
      DecodeRepresentable(b, at, c);
    } else if 0 < c {
      DecodeSupplementary(b, at, end, c);
    } else {
      assert EncodeOne(c)[0] == 0 && b[at + 0] == EncodeOne(c)[0];
    }
  }

  lemma ConvertStep(b: seq<Byte>, at: nat, cs: seq<CodePoint>) returns (next: nat)
    requires cs != [] && Stands(b, at, Encode(cs))
    ensures Stands(b, next, Encode(cs[1..])) && next + |Encode(cs[1..])| == at + |Encode(cs)|
    ensures var end := at + |Encode(cs)|;
            if Representable(cs[0]) then Convert(b, at, end) == Prepend([cs[0]], Convert(b, next, end))
            else !Convert(b, at, end).Done?
  {
    hide Convert, EncodeOne, Stands, Representable;
    next := at + |EncodeOne(cs[0])|;
    StandsSplit(b, at, EncodeOne(cs[0]), Encode(cs[1..]));
    ConvertHead(b, at, at + |Encode(cs)|, cs[0]);
  }

  /** The conversion undoes the encoding exactly for text of nonzero code points of up to sixteen bits. */
  lemma {:induction false} ConvertInvertsEncode(b: seq<Byte>, at: nat, cs: seq<CodePoint>)
    requires Stands(b, at, Encode(cs))
    ensures var r := Convert(b, at, at + |Encode(cs)|);
            if AllRepresentable(cs) then r.Done? && r.codes == cs else !r.Done?
    decreases |cs|
  {
    if cs == [] {
    } else {
      var next := ConvertStep(b, at, cs);
      ConvertInvertsEncode(b, next, cs[1..]);
      if AllRepresentable(cs) {
        assert cs == [cs[0]] + cs[1..];
      }
    }
  }

  // ----- a conversion that takes in its terminator -----

  /** Decoding from position i comes to position t. */
  predicate Lands(b: seq<Byte>, i: nat, t: nat)
    requires t < |b|
    decreases t - i
  {
    i == t || (i < t && Decode(b, i).Unit? && Lands(b, i + Decode(b, i).width, t))
  }

  /** The three-byte sequence that decoding comes to at t reaches over the zero at z. */
  predicate SwallowedAt(b: seq<Byte>, i: nat, z: nat, t: nat) {
    && t < z < t + 3 <= |b| && Lands(b, i, t)
    && 0xE0 <= b[t] && (b[t + 1] != 0 || b[t + 2] != 0)
  }

  ghost predicate Swallowed(b: seq<Byte>, i: nat, z: nat) {
    exists t :: SwallowedAt(b, i, z, t)
  }

  lemma SwallowedStep(b: seq<Byte>, i: nat, z: nat)
    requires i < z < |b| && Decode(b, i).Unit? && i + Decode(b, i).width <= z
    ensures Swallowed(b, i + Decode(b, i).width, z) <==> Swallowed(b, i, z)
  {
    var next := i + Decode(b, i).width;
    forall t | i < t < z && t + 3 <= |b| ensures SwallowedAt(b, next, z, t) <==> SwallowedAt(b, i, z, t) {
    }
    assert !SwallowedAt(b, i, z, i);
  }

  /** A conversion up to and with the first zero comes to an end exactly if the sequence before it swallows the zero. */
  lemma {:induction false} ConvertOverZero(b: seq<Byte>, i: nat, z: nat)
    requires i <= z < |b| && b[z] == 0 && forall k :: i <= k < z ==> b[k] != 0
    ensures Convert(b, i, z + 1).Done? <==> Swallowed(b, i, z)
    decreases z - i
  {
    if i == z {
    } else if Decode(b, i).Unit? {
      var next := i + Decode(b, i).width;
      if next <= z {
        ConvertOverZero(b, next, z);
        SwallowedStep(b, i, z);
      } else {
        assert Lands(b, i, i) && SwallowedAt(b, i, z, i);
      }
    } else {
      assert forall t :: i < t < z && t + 3 <= |b| ==> !Lands(b, i, t);
      assert !SwallowedAt(b, i, z, i);
    }
  }

  // ----- the loops -----

  lemma PrependNone(rest: Conversion)
    ensures Prepend([], rest) == rest
  {
    if rest.Done? {
      assert [] + rest.codes == rest.codes;
    }
  }

  lemma PrependOne(codes: seq<WChar>, code: WChar, rest: Conversion)
    ensures Prepend(codes + [code], rest) == Prepend(codes, Prepend([code], rest))
  {
    if rest.Done? {
      assert codes + [code] + rest.codes == codes + ([code] + rest.codes);
    }
  }

  /** Done says how far the loop came; the destination is zeroed first. */
  method StrFromChar(dest: array<WChar>, src: seq<Byte>, from: nat, size: nat) returns (r: Conversion)
    requires size <= dest.Length && from + size <= |src|
    modifies dest
    ensures r == Convert(src, from, from + size)
    ensures r.Done? ==> dest[..|r.codes|] == r.codes && (forall k :: |r.codes| <= k < size ==> dest[k] == 0)
    ensures forall k :: size <= k < dest.Length ==> dest[k] == old(dest[k])
  {
    var end := from + size;
    forall k | 0 <= k < size {
      dest[k] := 0;
    }
    var at, i := from, 0;
    PrependNone(Convert(src, from, end));
    assert dest[..0] == [];
    while at < end
      invariant from <= at && i <= size && (at < end ==> i <= at - from)
      invariant forall k :: i <= k < size ==> dest[k] == 0
      invariant forall k :: size <= k < dest.Length ==> dest[k] == old(dest[k])
      invariant Convert(src, from, end) == Prepend(dest[..i], Convert(src, at, end))
      decreases end - at
    {
      var step := Decode(src, at);
      match step {
        case Abort => return Aborted;
        case Fault => return Faulted;
        case Unit(code, width) =>
          PrependOne(dest[..i], code, Convert(src, at + width, end));
          dest[i] := code;
          assert dest[..i + 1] == dest[..i] + [code];
          at, i := at + width, i + 1;
      }
    }
    assert dest[..i] + [] == dest[..i];
    r := Done(dest[..i]);
  }

  /** The number of code units the conversion would write; none when it does not come to an end. */
  method StrLenFromChar(src: seq<Byte>, from: nat, size: nat) returns (r: Option<nat>)
    requires from + size <= |src|
    ensures r == match Convert(src, from, from + size) case Done(codes) => Some(|codes|) case _ => None
    ensures r.Some? ==> r.value <= size
  {
    ghost var codes: seq<WChar> := [];
    var end := from + size;
    var at, count := from, 0;
    PrependNone(Convert(src, from, end));
    while at < end
      invariant from <= at && count == |codes|
      invariant Convert(src, from, end) == Prepend(codes, Convert(src, at, end))
      decreases end - at
    {
      var step := Decode(src, at);
      match step {
        case Abort => return None;
        case Fault => return None;
        case Unit(code, width) =>
          PrependOne(codes, code, Convert(src, at + width, end));
          codes := codes + [code];
          at, count := at + width, count + 1;
      }
    }
    r := Some(count);
  }
}
