/** The byte encodings of the MySQL wire protocol: little-endian integers, length-coded integers, result payloads. */
module Encoding {
  import opened CStrings

  type U16 = v: int | 0 <= v < 0x1_0000
  type U32 = v: int | 0 <= v < 0x1_0000_0000
  type U64 = v: int | 0 <= v < 0x1_0000_0000_0000_0000

  /** The n low bytes of v, lowest first. */
  function Le(v: nat, n: nat): (r: seq<Byte>)
    ensures |r| == n
  {
    if n == 0 then [] else [v % 0x100] + Le(v / 0x100, n - 1)
  }

  function FromLe(b: seq<Byte>): nat {
    if b == [] then 0 else b[0] + 0x100 * FromLe(b[1..])
  }

  function Power256(n: nat): nat {
    if n == 0 then 1 else 0x100 * Power256(n - 1)
  }

  lemma {:induction false} LeRoundTrip(v: nat, n: nat)
    requires v < Power256(n)
    ensures FromLe(Le(v, n)) == v
    decreases n
  {
    if n == 0 {
    } else {
      assert v / 0x100 < Power256(n - 1);
      LeRoundTrip(v / 0x100, n - 1);
      assert Le(v, n)[1..] == Le(v / 0x100, n - 1);
    }
  }

  lemma PowersOf256()
    ensures Power256(2) == 0x1_0000 && Power256(3) == 0x100_0000 && Power256(4) == 0x1_0000_0000
    ensures Power256(8) == 0x1_0000_0000_0000_0000
  {
    assert Power256(1) == 0x100;
    assert Power256(5) == 0x100 * Power256(4) && Power256(6) == 0x100 * Power256(5);
    assert Power256(7) == 0x100 * Power256(6);
  }

  /** The bytes as the C code shifts them out. */
  lemma LeBytes(v: nat)
    ensures Le(v, 2) == [v % 0x100, v / 0x100 % 0x100]
    ensures Le(v, 3) == [v % 0x100, v / 0x100 % 0x100, v / 0x1_0000 % 0x100]
    ensures Le(v, 4) == [v % 0x100, v / 0x100 % 0x100, v / 0x1_0000 % 0x100, v / 0x100_0000 % 0x100]
  {
    var v1 := v / 0x100;
    var v2 := v1 / 0x100;
    var v3 := v2 / 0x100;
    assert v2 == v / 0x1_0000 && v3 == v / 0x100_0000;
    assert Le(v3, 1) == [v3 % 0x100] && Le(v2, 1) == [v2 % 0x100] && Le(v1, 1) == [v1 % 0x100];
    assert Le(v2, 2) == [v2 % 0x100, v3 % 0x100] && Le(v1, 2) == [v1 % 0x100, v2 % 0x100];
    assert Le(v1, 3) == [v1 % 0x100, v2 % 0x100, v3 % 0x100];
  }

  lemma LeBytes8(v: nat)
    ensures Le(v, 8) ==
            [v % 0x100, v / 0x100 % 0x100, v / 0x1_0000 % 0x100, v / 0x100_0000 % 0x100,
             v / 0x1_0000_0000 % 0x100, v / 0x100_0000_0000 % 0x100, v / 0x1_0000_0000_0000 % 0x100,
             v / 0x100_0000_0000_0000 % 0x100]
  {
    var v1 := v / 0x100;
    var v2 := v1 / 0x100;
    var v3 := v2 / 0x100;
    var w := v3 / 0x100;
    assert v2 == v / 0x1_0000 && v3 == v / 0x100_0000 && w == v / 0x1_0000_0000;
    assert w / 0x100 == v / 0x100_0000_0000 && w / 0x1_0000 == v / 0x1_0000_0000_0000;
    assert w / 0x100_0000 == v / 0x100_0000_0000_0000;
    LeBytes(w);
    assert Le(v3, 5) == [v3 % 0x100] + Le(w, 4) && Le(v2, 6) == [v2 % 0x100] + Le(v3, 5);
    assert Le(v1, 7) == [v1 % 0x100] + Le(v2, 6) && Le(v, 8) == [v % 0x100] + Le(v1, 7);
  }

  // ----- length-coded integers -----

  /** Protocol::LengthEncodedInteger of the MySQL client/server protocol. */
  function Lcb(v: U64): (r: seq<Byte>)
    ensures 1 <= |r| <= 9
  {
    if v <= 250 then [v]
    else if v < 0x1_0000 then [252] + Le(v, 2)
    else if v < 0x100_0000 then [253] + Le(v, 3)
    else [254] + Le(v, 8)
  }

  /** The number of bytes behind the first one. */
  function LcbWidth(first: Byte): nat {
    if first == 252 then 2 else if first == 253 then 3 else if first == 254 then 8 else 0
  }

  /** The protocol's reader: the value and the rest. */
  function ReadLcb(b: seq<Byte>): Option<(nat, seq<Byte>)> {
    if b == [] || b[0] == 251 || b[0] == 255 || |b| < 1 + LcbWidth(b[0]) then None
    else
      var n := LcbWidth(b[0]);
      Some((if n == 0 then b[0] as nat else FromLe(b[1..1 + n]), b[1 + n..]))
  }

  /** Every 64-bit value is read back, and the reader stops exactly where the writer did. */
  lemma LcbRoundTrip(v: U64, rest: seq<Byte>)
    ensures ReadLcb(Lcb(v) + rest) == Some((v, rest))
  {
    var e, b := Lcb(v), Lcb(v) + rest;
    var n := LcbWidth(e[0]);
    PowersOf256();
    assert b[0] == e[0] && |e| == 1 + n && b[1 + n..] == rest;
    if 0 < n {
      assert b[1..1 + n] == Le(v, n);
      LeRoundTrip(v, n);
    }
  }

  /** No encoding is the beginning of another: two byte strings that start with one can only agree altogether. */
  lemma LcbIsSelfDelimiting(v: U64, rest: seq<Byte>, w: U64, more: seq<Byte>)
    requires Lcb(v) + rest == Lcb(w) + more
    ensures v == w && rest == more
  {
    LcbRoundTrip(v, rest);
    LcbRoundTrip(w, more);
  }

  /** What a reader found: a value and where it stands now, a failed VERIFY, or a read outside the memory. */
  datatype Got<+T> = Value(value: T, cursor: nat) | Aborted | Faulted {
    predicate IsFailure() {
      !Value?
    }

    function PropagateFailure<U>(): Got<U>
      requires !Value?
    {
      if Aborted? then Got.Aborted else Got.Faulted
    }

    function Extract(): (T, nat)
      requires Value?
    {
      (value, cursor)
    }
  }

  /** How far the fall-through switch of fxmy_read_lcb advances. */
  function FallThroughWidth(first: Byte): nat {
    if first == 254 then 9 + 4 + 3 + 1 else if first == 253 then 4 + 3 + 1 else if first == 252 then 3 + 1 else 1
  }

  /** fxmy_read_lcb as written: every case falls through to the last, which overwrites the value with the first byte. */
  function ReadLcbFallingThrough(memory: seq<Byte>, size: nat, cursor: nat): Got<nat> {
    if cursor >= |memory| || cursor + 1 + LcbWidth(memory[cursor]) > |memory| then Faulted
    else
      var first := memory[cursor];
      if cursor + FallThroughWidth(first) > size then Aborted
      else Value(first, cursor + FallThroughWidth(first))
  }

  /** The written reader agrees with the writer exactly for one-byte encodings. */
  lemma FallThroughAgreesIff(memory: seq<Byte>, size: nat, cursor: nat, v: U64)
    requires cursor + |Lcb(v)| <= size <= |memory| && memory[cursor..cursor + |Lcb(v)|] == Lcb(v)
    ensures ReadLcbFallingThrough(memory, size, cursor) == Value(v, cursor + |Lcb(v)|) <==> v <= 250
  {
    assert memory[cursor] == memory[cursor..cursor + |Lcb(v)|][0];
  }

  // ----- result payloads -----

  /** The payload of an OK packet: header, two counters, status and warning words, message. */
  function OkPayload(header: Byte, rows: U64, id: U64, message: seq<Byte>): seq<Byte> {
    [header] + (Lcb(rows) + (Lcb(id) + (Le(0, 2) + (Le(0, 2) + message))))
  }

  /** The payload of an ERR packet. */
  function ErrPayload(header: Byte, code: U16, state: seq<Byte>, message: seq<Byte>): seq<Byte> {
    [header] + (Le(code, 2) + (['#' as int] + (state + message)))
  }

  /** The protocol's reader of an OK payload. */
  function ReadOk(b: seq<Byte>): Option<(Byte, nat, nat, seq<Byte>)> {
    if b == [] then None
    else
      match ReadLcb(b[1..])
      case None => None
      case Some((rows, b1)) =>
        match ReadLcb(b1)
        case None => None
        case Some((id, b2)) => if |b2| < 4 then None else Some((b[0], rows, id, b2[4..]))
  }

  lemma ReadOkParts(b: seq<Byte>, rows: nat, b1: seq<Byte>, id: nat, b2: seq<Byte>)
    requires b != [] && ReadLcb(b[1..]) == Some((rows, b1)) && ReadLcb(b1) == Some((id, b2)) && 4 <= |b2|
    ensures ReadOk(b) == Some((b[0], rows, id, b2[4..]))
  {
  }

  /** All fields of an OK payload can be told from its bytes. */
  lemma OkRoundTrip(header: Byte, rows: U64, id: U64, message: seq<Byte>)
    ensures ReadOk(OkPayload(header, rows, id, message)) == Some((header, rows, id, message))
  {
    var words := Le(0, 2) + (Le(0, 2) + message);
    LcbRoundTrip(rows, Lcb(id) + words);
    LcbRoundTrip(id, words);
    var b := OkPayload(header, rows, id, message);
    assert b[1..] == Lcb(rows) + (Lcb(id) + words);
    ReadOkParts(b, rows, Lcb(id) + words, id, words);
    assert words[4..] == message;
  }
}
