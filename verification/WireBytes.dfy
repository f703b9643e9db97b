/** What goes over the wire, told in byte values. */
module WireBytes {
  import opened CStrings
  import opened Encoding
  import opened XferBuffers
  import opened Framing
  import opened Connections
  import opened Auth
  import opened Utf8

  // ----- packets -----

  /** A payload that fits one packet goes out behind three bytes of length, lowest first, and the packet number. */
  lemma FrameBytes(payload: seq<Byte>, number: nat)
    requires 0 < |payload| <= 16777215
    ensures Frame(payload, number) ==
            [|payload| % 256, |payload| / 256 % 256, |payload| / 65536, number % 256] + payload
  {
    LeBytes(|payload|);
    assert payload[..|payload|] == payload && payload[|payload|..] == [];
    assert payload + [] == payload;
  }

  /** A longer one is preceded by a full packet. */
  lemma LongFrameBytes(payload: seq<Byte>, number: nat)
    requires 16777215 < |payload|
    ensures Frame(payload, number) ==
            [255, 255, 255, number % 256] + payload[..16777215] + Frame(payload[16777215..], number)
  {
    FullHeader(number);
    hide Header, Frame;
    assert Frame(payload, number) ==
           Header(16777215, number) + (payload[..16777215] + Frame(payload[16777215..], number)) by {
      LongFrame(payload, number);
    }
    Associate(Header(16777215, number), payload[..16777215], Frame(payload[16777215..], number));
  }

  lemma LongFrame(payload: seq<Byte>, number: nat)
    requires 16777215 < |payload|
    ensures Frame(payload, number) ==
            Header(16777215, number) + (payload[..16777215] + Frame(payload[16777215..], number))
  {
    hide Header;
  }

  lemma FullHeader(number: nat)
    ensures Header(16777215, number) == [255, 255, 255, number % 256]
  {
    LeBytes(16777215);
  }

  // ----- integers -----

  /** A length-coded integer. */
  lemma LcbByValue(v: U64)
    ensures v <= 250 ==> Lcb(v) == [v]
    ensures 250 < v < 65536 ==> Lcb(v) == [252, v % 256, v / 256]
    ensures 65536 <= v < 16777216 ==> Lcb(v) == [253, v % 256, v / 256 % 256, v / 65536]
    ensures 16777216 <= v ==>
              Lcb(v) == [254, v % 256, v / 256 % 256, v / 65536 % 256, v / 16777216 % 256, v / 4294967296 % 256,
                         v / 1099511627776 % 256, v / 281474976710656 % 256, v / 72057594037927936]
  {
    hide Le;
    if v <= 250 {
    } else if v < 16777216 {
      LeBytes(v);
    } else {
      LeBytes8(v);
    }
  }

  /** How far the reader without breaks goes, and what it makes of the first byte. */
  lemma FallThroughByValue(memory: seq<Byte>, size: nat, cursor: nat)
    requires cursor + 17 <= size <= |memory|
    ensures var first := memory[cursor];
            ReadLcbFallingThrough(memory, size, cursor) ==
            Value(first,
                  cursor + if first == 254 then 17 else if first == 253 then 8 else if first == 252 then 4 else 1)
  {
  }

  /** The output buffer grows by whole pages. */
  lemma PagesByValue(n: nat)
    ensures PageRound(n) == (n + 4095) / 4096 * 4096
  {
  }

  // ----- payloads -----

  lemma OkBytes(status: Status)
    ensures OkOf(status, 0, 0) ==
            [status.header, 0, 0, 0, 0, 0, 0] + if status.message.Some? then status.message.value else []
  {
    LeBytes(0);
  }

  lemma ErrBytes(status: Status)
    ensures ErrOf(status) ==
            [status.header, status.code % 256, status.code / 256, 35] +
            ((if status.sqlState.Some? then status.sqlState.value else []) +
             (if status.message.Some? then status.message.value else []))
  {
    LeBytes(status.code);
  }

  // ----- text -----

  /** A, e with acute, the euro sign, and a face. */
  lemma EncodingsByValue()
    ensures EncodeOne(0x41) == [0x41] && EncodeOne(0xE9) == [0xC3, 0xA9]
    ensures EncodeOne(0x20AC) == [0xE2, 0x82, 0xAC] && EncodeOne(0x1F600) == [0xF0, 0x9F, 0x98, 0x80]
  {
  }

  /** What the decoder makes of a first byte: which sequences go wrong, and how. */
  lemma DecodeByValue(b: seq<Byte>, i: nat)
    requires i + 3 <= |b|
    ensures Decode(b, i) == Fault <==> b[i] == 0
    ensures Decode(b, i) == Abort <==>
            || 128 <= b[i] < 192 || (192 <= b[i] < 224 && b[i + 1] == 0)
            || (224 <= b[i] && b[i + 1] == 0 && b[i + 2] == 0)
    ensures Decode(b, i).Unit? ==> Decode(b, i).width == if b[i] < 128 then 1 else if b[i] < 224 then 2 else 3
  {
  }

  // ----- the login packet -----

  /** The login packet of the 4.1 protocol, byte by byte. */
  function LoginBytes(flags: U32, maxSize: U32, charset: Byte, padding: seq<Byte>, name: seq<Byte>,
                      scramble: seq<Byte>, tail: seq<Byte>): seq<Byte>
    requires |padding| == 23 && |scramble| <= 250
  {
    [flags % 256, flags / 256 % 256, flags / 65536 % 256, flags / 16777216,
     maxSize % 256, maxSize / 256 % 256, maxSize / 65536 % 256, maxSize / 16777216, charset] +
    padding + name + [0, |scramble|] + scramble + tail
  }

  lemma LoginByValue(flags: U32, maxSize: U32, charset: Byte, padding: seq<Byte>, name: seq<Byte>,
                     scramble: seq<Byte>, tail: seq<Byte>)
    requires |padding| == 23 && |scramble| <= 250
    ensures LoginBytes(flags, maxSize, charset, padding, name, scramble, tail) ==
            AuthPacket(AuthFields(flags, maxSize, charset), padding, name, scramble, tail)
  {
    LoginHead(flags, maxSize, charset);
    assert Lcb(|scramble|) == [|scramble|];
    hide Le, Lcb;
    LoginParts(Le(flags, 4), Le(maxSize, 4), [charset], padding, name, [|scramble|], scramble, tail);
  }

  lemma LoginHead(flags: U32, maxSize: U32, charset: Byte)
    ensures Le(flags, 4) + Le(maxSize, 4) + [charset] ==
            [flags % 256, flags / 256 % 256, flags / 65536 % 256, flags / 16777216,
             maxSize % 256, maxSize / 256 % 256, maxSize / 65536 % 256, maxSize / 16777216, charset]
  {
    FourBytes(flags);
    FourBytes(maxSize);
    hide Le;
  }

  lemma FourBytes(v: U32)
    ensures Le(v, 4) == [v % 256, v / 256 % 256, v / 65536 % 256, v / 16777216]
  {
    LeBytes(v);
  }

  lemma LoginParts(a: seq<Byte>, b: seq<Byte>, c: seq<Byte>, d: seq<Byte>, e: seq<Byte>, f: seq<Byte>, g: seq<Byte>,
                   h: seq<Byte>)
    ensures a + (b + (c + (d + (e + ([0] + (f + (g + h))))))) == (a + b + c) + d + e + ([0] + f) + g + h
  {
  }

  /** The walk over it finds the three numbers, and ends in front of what follows the scramble. */
  lemma LoginIsRead(flags: U32, maxSize: U32, charset: Byte, padding: seq<Byte>, name: seq<Byte>,
                    scramble: seq<Byte>, tail: seq<Byte>)
    requires |padding| == 23 && |scramble| <= 250 && 0 !in name
    ensures var p := LoginBytes(flags, maxSize, charset, padding, name, scramble, tail);
            AuthWalk(p + [0], |p|) == Value(AuthFields(flags, maxSize, charset), |p| - |tail|)
  {
    hide AuthPacket, LoginBytes, AuthWalk;
    LoginByValue(flags, maxSize, charset, padding, name, scramble, tail);
    AuthRoundTrip(AuthFields(flags, maxSize, charset), padding, name, scramble, tail);
  }
}
