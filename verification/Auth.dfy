/** The cursor walk over the client's authentication packet. */
module Auth {
  import opened CStrings
  import opened Encoding
  import opened XferBuffers

  datatype AuthFields = AuthFields(clientFlags: nat, maxPacketSize: nat, charset: Byte)

  const PADDING: nat := 23

  /** Two 32-bit words and a byte are read, the padding, the user name and the scramble skipped. */
  function AuthWalk(m: seq<Byte>, size: nat): Got<AuthFields>
    requires size <= |m|
  {
    var (flags, c1) :- ReadU32At(m, size, 0);
    var (maxSize, c2) :- ReadU32At(m, size, c1);
    var (charset, c3) :- ReadU8At(m, size, c2);
    var (_, c4) :- SkipStringAt(m, c3 + PADDING);
    var (_, c5) :- SkipLcsAt(m, size, c4);
    Value(AuthFields(flags, maxSize, charset), c5)
  }

  method ParseAuth(buffer: XferBuffer) returns (r: Got<AuthFields>)
    requires buffer.Readable()
    modifies buffer`cursor
    ensures r == AuthWalk(buffer.memory[..], buffer.size)
    ensures r.Value? ==> buffer.cursor == r.cursor
  {
    buffer.cursor := 0;
    var flags := buffer.ReadU32();
    if !flags.Value? {
      return flags.PropagateFailure();
    }
    var maxSize := buffer.ReadU32();
    if !maxSize.Value? {
      return maxSize.PropagateFailure();
    }
    var charset := buffer.ReadU8();
    if !charset.Value? {
      return charset.PropagateFailure();
    }
    buffer.cursor := buffer.cursor + PADDING;
    var name := buffer.SkipString();
    if !name.Value? {
      return name.PropagateFailure();
    }
    var scramble := buffer.SkipLcs();
    if !scramble.Value? {
      return scramble.PropagateFailure();
    }
    r := Value(AuthFields(flags.value, maxSize.value, charset.value), buffer.cursor);
  }

  // ----- on packets as clients build them -----

  function ScrambleOnwards(scramble: seq<Byte>, tail: seq<Byte>): seq<Byte>
    requires |scramble| < 0x1_0000_0000_0000_0000
  {
    Lcb(|scramble|) + (scramble + tail)
  }

  /** The packet body; tail is whatever follows the scramble, such as a database name. */
  function AuthPacket(fields: AuthFields, padding: seq<Byte>, name: seq<Byte>, scramble: seq<Byte>,
                      tail: seq<Byte>): seq<Byte>
    requires |scramble| < 0x1_0000_0000_0000_0000
  {
    Le(fields.clientFlags, 4) + (Le(fields.maxPacketSize, 4) + ([fields.charset] +
    (padding + (name + ([0] + ScrambleOnwards(scramble, tail))))))
  }

  /** The lengths for which the reader that falls through still lands behind the scramble. */
  predicate Survives(length: nat) {
    length <= 250 || length == 253
  }

  lemma ScrambleSkipped(m: seq<Byte>, size: nat, at: nat, scramble: seq<Byte>, tail: seq<Byte>)
    requires |scramble| < 0x1_0000_0000_0000_0000
    requires size < |m| && at + |ScrambleOnwards(scramble, tail)| == size
    requires Stands(m, at, ScrambleOnwards(scramble, tail))
    ensures SkipLcsAt(m, size, at) == Value((), size - |tail|) <==> Survives(|scramble|)
  {
    var e := Lcb(|scramble|);
    StandsSplit(m, at, e, scramble + tail);
    assert m[at + 0] == e[0];
  }

  lemma WordRead(m: seq<Byte>, size: nat, at: nat, v: U32)
    requires Stands(m, at, Le(v, 4)) && at + 4 <= size <= |m|
    ensures ReadU32At(m, size, at) == Value(v, at + 4)
  {
    PowersOf256();
    LeRoundTrip(v, 4);
    assert m[at..at + 4] == Le(v, 4);
  }

  lemma NameSkipped(m: seq<Byte>, at: nat, name: seq<Byte>)
    requires 0 !in name && Stands(m, at, name) && at + |name| < |m| && m[at + |name|] == 0
    ensures SkipStringAt(m, at) == Value((), at + |name| + 1)
  {
    var rest := m[at..];
    assert rest[|name|] == 0;
    forall k | 0 <= k < |name| ensures rest[k] != 0 {
      assert rest[k] == m[at + k] == name[k] && name[k] in name;
    }
  }

  lemma FixedPart(m: seq<Byte>, size: nat, fields: AuthFields, padding: seq<Byte>, rest: seq<Byte>)
    requires fields.clientFlags < 0x1_0000_0000 && fields.maxPacketSize < 0x1_0000_0000 && |padding| == PADDING
    requires 32 + |rest| == size < |m|
    requires Stands(m, 0, Le(fields.clientFlags, 4) +
                          (Le(fields.maxPacketSize, 4) + ([fields.charset] + (padding + rest))))
    ensures ReadU32At(m, size, 0) == Value(fields.clientFlags, 4)
    ensures ReadU32At(m, size, 4) == Value(fields.maxPacketSize, 8)
    ensures ReadU8At(m, size, 8) == Value(fields.charset, 9) && Stands(m, 32, rest)
  {
    var p2 := [fields.charset] + (padding + rest);
    StandsSplit(m, 0, Le(fields.clientFlags, 4), Le(fields.maxPacketSize, 4) + p2);
    StandsSplit(m, 4, Le(fields.maxPacketSize, 4), p2);
    StandsSplit(m, 8, [fields.charset], padding + rest);
    StandsSplit(m, 9, padding, rest);
    WordRead(m, size, 0, fields.clientFlags);
    WordRead(m, size, 4, fields.maxPacketSize);
    var one: seq<Byte> := [fields.charset];
    assert m[8 + 0] == one[0];
  }

  lemma NamePart(m: seq<Byte>, at: nat, name: seq<Byte>, rest: seq<Byte>)
    requires 0 !in name && Stands(m, at, name + ([0] + rest))
    ensures SkipStringAt(m, at) == Value((), at + |name| + 1) && Stands(m, at + |name| + 1, rest)
  {
    StandsSplit(m, at, name, [0] + rest);
    StandsSplit(m, at + |name|, [0], rest);
    var zero: seq<Byte> := [0];
    assert m[at + |name| + 0] == zero[0];
    NameSkipped(m, at, name);
  }

  lemma WalkEnds(m: seq<Byte>, size: nat, fields: AuthFields, at: nat, end: nat)
    requires size <= |m|
    requires ReadU32At(m, size, 0) == Value(fields.clientFlags, 4)
    requires ReadU32At(m, size, 4) == Value(fields.maxPacketSize, 8)
    requires ReadU8At(m, size, 8) == Value(fields.charset, 9) && SkipStringAt(m, 32) == Value((), at)
    ensures AuthWalk(m, size) == Value(fields, end) <==> SkipLcsAt(m, size, at) == Value((), end)
  {
  }

  lemma Terminated(p: seq<Byte>)
    ensures Stands(p + [0], 0, p)
  {
  }

  /** Parsing recovers the numbers, and ends right behind the scramble exactly for the surviving lengths. */
  lemma AuthRoundTrip(fields: AuthFields, padding: seq<Byte>, name: seq<Byte>, scramble: seq<Byte>, tail: seq<Byte>)
    requires fields.clientFlags < 0x1_0000_0000 && fields.maxPacketSize < 0x1_0000_0000
    requires |padding| == PADDING && 0 !in name && |scramble| < 0x1_0000_0000_0000_0000
    ensures var p := AuthPacket(fields, padding, name, scramble, tail);
            AuthWalk(p + [0], |p|) == Value(fields, |p| - |tail|) <==> Survives(|scramble|)
  {
    var p := AuthPacket(fields, padding, name, scramble, tail);
    var rest := name + ([0] + ScrambleOnwards(scramble, tail));
    Terminated(p);
    FixedPart(p + [0], |p|, fields, padding, rest);
    NamePart(p + [0], 32, name, ScrambleOnwards(scramble, tail));
    WalkEnds(p + [0], |p|, fields, 33 + |name|, |p| - |tail|);
    ScrambleSkipped(p + [0], |p|, 33 + |name|, scramble, tail);
  }
}
