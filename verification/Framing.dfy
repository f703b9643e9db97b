/** The packet format of fxmy_conn.c: payloads cut into chunks, each behind a four-byte header. */
module Framing {
  import opened CStrings
  import opened Encoding

  const MAX_CHUNK: nat := 0xFF_FFFF

  /** Size in three bytes, lowest first, then the packet number. */
  function Header(size: nat, number: nat): (r: seq<Byte>)
    ensures |r| == 4
  {
    Le(size, 3) + [number % 0x100]
  }

  function ChunkLength(size: nat): nat {
    if size < MAX_CHUNK then size else MAX_CHUNK
  }

  /** The chunks of a payload. */
  function Chunks(data: seq<Byte>): seq<seq<Byte>> {
    if data == [] then [] else [data[..ChunkLength(|data|)]] + Chunks(data[ChunkLength(|data|)..])
  }

  /** The bytes on the wire. All packets of one payload carry the same number. */
  function Frame(data: seq<Byte>, number: nat): seq<Byte> {
    if data == [] then []
    else
      var n := ChunkLength(|data|);
      Header(n, number) + (data[..n] + Frame(data[n..], number))
  }

  function PacketCount(size: nat): nat {
    (size + MAX_CHUNK - 1) / MAX_CHUNK
  }

  lemma {:induction false} FrameLength(data: seq<Byte>, number: nat)
    ensures |Frame(data, number)| == |data| + 4 * PacketCount(|data|)
    ensures |Chunks(data)| == PacketCount(|data|)
  {
    if data == [] {
    } else {
      FrameLength(data[ChunkLength(|data|)..], number);
    }
  }

  // ----- receiving -----

  /** One packet off the front of the wire. */
  datatype Packet = Packet(number: Byte, payload: seq<Byte>)

  function SizeOf(header: seq<Byte>): nat
    requires |header| >= 4
  {
    FromLe(header[..3])
  }

  function TakePacket(wire: seq<Byte>): (r: Option<(Packet, seq<Byte>)>)
    ensures r.Some? ==> |r.value.1| + 4 <= |wire|
  {
    if |wire| < 4 || |wire| < 4 + SizeOf(wire) then None
    else Some((Packet(wire[3], wire[4..4 + SizeOf(wire)]), wire[4 + SizeOf(wire)..]))
  }

  /** All packets on the wire, if it holds nothing but whole packets. */
  function Unframe(wire: seq<Byte>): Option<seq<Packet>>
    decreases |wire|
  {
    if wire == [] then Some([])
    else
      match TakePacket(wire)
      case None => None
      case Some((p, rest)) =>
        match Unframe(rest)
        case None => None
        case Some(ps) => Some([p] + ps)
  }

  function Packets(chunks: seq<seq<Byte>>, number: Byte): seq<Packet> {
    if chunks == [] then [] else [Packet(number, chunks[0])] + Packets(chunks[1..], number)
  }

  function Concat(chunks: seq<seq<Byte>>): seq<Byte> {
    if chunks == [] then [] else chunks[0] + Concat(chunks[1..])
  }

  /** A header is decoded to the chunk length it was made from. */
  lemma HeaderRoundTrip(size: nat, number: nat, rest: seq<Byte>)
    requires size <= MAX_CHUNK
    ensures SizeOf(Header(size, number) + rest) == size && (Header(size, number) + rest)[3] == number % 0x100
  {
    PowersOf256();
    LeRoundTrip(size, 3);
    assert (Header(size, number) + rest)[..3] == Le(size, 3);
  }

  lemma TakeFramed(chunk: seq<Byte>, number: nat, rest: seq<Byte>)
    requires |chunk| <= MAX_CHUNK
    ensures TakePacket(Header(|chunk|, number) + (chunk + rest)) == Some((Packet(number % 0x100, chunk), rest))
  {
    HeaderRoundTrip(|chunk|, number, chunk + rest);
    var wire := Header(|chunk|, number) + (chunk + rest);
    assert wire[4..4 + |chunk|] == chunk && wire[4 + |chunk|..] == rest;
  }

  /** Receiving what was framed gives the chunks, in order, under the number they were sent with. */
  lemma {:induction false} FramingRoundTrip(data: seq<Byte>, number: nat)
    ensures Unframe(Frame(data, number)) == Some(Packets(Chunks(data), number % 0x100))
  {
    if data == [] {
    } else {
      var n := ChunkLength(|data|);
      TakeFramed(data[..n], number, Frame(data[n..], number));
      FramingRoundTrip(data[n..], number);
    }
  }

  /** The chunks make up the payload, none is empty or too long, and all but the last are full. */
  lemma {:induction false} ChunksMakeUpPayload(data: seq<Byte>)
    ensures Concat(Chunks(data)) == data
    ensures forall k :: 0 <= k < |Chunks(data)| ==> 0 < |Chunks(data)[k]| <= MAX_CHUNK
    ensures forall k :: 0 <= k < |Chunks(data)| - 1 ==> |Chunks(data)[k]| == MAX_CHUNK
  {
    if data == [] {
    } else {
      var n := ChunkLength(|data|);
      ChunksMakeUpPayload(data[n..]);
      assert data == data[..n] + data[n..];
      assert Chunks(data)[1..] == Chunks(data[n..]);
      assert n < MAX_CHUNK ==> Chunks(data[n..]) == [];
    }
  }

  /** One receive takes a whole payload off the wire exactly when the payload fits one packet. */
  lemma OneReceive(data: seq<Byte>, number: nat)
    requires data != []
    ensures TakePacket(Frame(data, number)) == Some((Packet(number % 0x100, data), [])) <==> |data| <= MAX_CHUNK
  {
    var n := ChunkLength(|data|);
    TakeFramed(data[..n], number, Frame(data[n..], number));
    if |data| <= MAX_CHUNK {
      assert data[..n] == data && data[n..] == [];
    } else {
      assert |data[..n]| < |data|;
    }
  }
}
