/** struct fxmy_connection_t and its sending and receiving. The socket is the bytes still to come and the bytes sent. */
module Connections {
  import opened CStrings
  import opened Encoding
  import opened XferBuffers
  import opened Framing

  /** A row of the error table. */
  datatype Status = Status(header: Byte, code: U16, sqlState: Option<CText>, message: Option<CText>)

  const OK_STATUS := Status(0, 0, Some([]), Some(['O' as int, 'K' as int]))

  /** The 64-bit -1 that stands for an error result. */
  const FXMY_ERROR: U64 := 0xFFFF_FFFF_FFFF_FFFF

  function OrEmpty(text: Option<CText>): CText {
    if text.None? then [] else text.value
  }

  /** The payload of an OK-style response for a status. */
  function OkOf(status: Status, rows: U64, id: U64): seq<Byte> {
    OkPayload(status.header, rows, id, OrEmpty(status.message))
  }

  function ErrOf(status: Status): seq<Byte> {
    ErrPayload(status.header, status.code, OrEmpty(status.sqlState), OrEmpty(status.message))
  }

  class Connection {
    const xfer: XferBuffer
    var packetNumber: U32
    var clientFlags: nat
    var maxPacketSize: nat
    var charset: Byte
    var database: Option<seq<WChar>>
    var multiStatementsOff: nat
    var columnCountErrorCode: U64
    var affectedRows: U64
    var insertId: U64
    var status: Option<Status>
    var done: bool

    /** The socket. */
    var incoming: seq<Byte>
    var outgoing: seq<Byte>

    /** How often a send was skipped or a receive overwrote a buffer because one was still in use. */
    ghost var clobbers: nat

    /** A connection as calloc leaves it, on a socket with the given input. */
    constructor (input: seq<Byte>)
      ensures fresh(xfer) && xfer.Empty() && packetNumber == 0 && incoming == input && outgoing == [] && clobbers == 0
      ensures columnCountErrorCode == affectedRows == insertId == 0 && status == None && database == None && !done
    {
      xfer := new XferBuffer();
      packetNumber, clientFlags, maxPacketSize, charset, multiStatementsOff := 0, 0, 0, 0, 0;
      columnCountErrorCode, affectedRows, insertId, status, database := 0, 0, 0, None, None;
      done, incoming, outgoing, clobbers := false, input, [], 0;
    }

    /** The transient fields are in the state they have between commands. */
    ghost predicate AtRest()
      reads this, xfer
    {
      xfer.Empty() && columnCountErrorCode == affectedRows == insertId == 0 && status == Some(OK_STATUS)
    }

    /** Splits a payload into packets in the transfer buffer; false is the failed check on their number. */
    method BeginSend(data: seq<Byte>) returns (ok: bool)
      modifies this`packetNumber, this`clobbers, xfer
      ensures packetNumber == (old(packetNumber) + 1) % 0x1_0000_0000
      ensures old(xfer.memory) != null ==> ok && unchanged(xfer) && clobbers == old(clobbers) + 1
      ensures old(xfer.memory) == null ==> clobbers == old(clobbers) && (ok <==> PacketCount(|data|) <= 256)
      ensures old(xfer.memory) == null && ok ==>
                && fresh(xfer.memory) && xfer.memory[..] == Frame(data, old(packetNumber))
                && xfer.size == xfer.memory.Length == |data| + 4 * PacketCount(|data|) && xfer.cursor == 0
    {
      var number := packetNumber;
      packetNumber := (packetNumber + 1) % 0x1_0000_0000;
      if xfer.memory != null {
        clobbers := clobbers + 1;
        return true;
      }
      var count := CountPackets(|data|);
      if count > 256 {
        return false;
      }
      var dest := new Byte[|data| + 4 * count](_ => 0);
      xfer.memory, xfer.size, xfer.cursor := dest, dest.Length, 0;
      FillPackets(dest, data, number, count);
      return true;
    }

    /** The sizing loop. */
    static method CountPackets(size: nat) returns (count: nat)
      ensures count == PacketCount(size)
    {
      var i := 0;
      count := 0;
      while i < size
        invariant i == count * MAX_CHUNK && i < size + MAX_CHUNK
      {
        i := i + MAX_CHUNK;
        count := count + 1;
      }
    }

    /** The copying loop: each packet takes the next chunk behind a header. */
    static method FillPackets(dest: array<Byte>, data: seq<Byte>, number: nat, count: nat)
      requires count == PacketCount(|data|) && dest.Length == |data| + 4 * count
      modifies dest
      ensures dest[..] == Frame(data, number)
    {
      hide Header, Frame, Overlay;
      var at, src, i := 0, 0, 0;
      FrameLength(data, number);
      assert data[0..] == data && dest[..0] == [];
      while i < count
        invariant 0 <= i <= count && 0 <= src <= |data| && at == src + 4 * i <= dest.Length
        invariant count - i == PacketCount(|data| - src)
        invariant dest[..at] + Frame(data[src..], number) == Frame(data, number)
      {
        var n := ChunkLength(|data| - src);
        var packet := [n % 0x100, n / 0x100 % 0x100, n / 0x1_0000 % 0x100, number % 0x100] + data[src..src + n];
        HeaderBytes(n, number);
        FrameStep(data, src, n, number, dest[..at]);
        OverlayFront(dest[..], at, packet);
        CopyIn(dest, at, packet);
        at, src, i := at + n + 4, src + n, i + 1;
      }
      NothingFramed(number);
      assert data[src..] == [] && dest[..at] == dest[..] && dest[..] + [] == dest[..];
    }

    /** Sends a payload; true when all its bytes are out and the buffer is free again. */
    method Send(data: seq<Byte>) returns (ok: bool)
      requires xfer.memory != null ==> xfer.size <= xfer.memory.Length
      modifies this`packetNumber, this`clobbers, this`outgoing, xfer
      ensures ok ==> packetNumber == (old(packetNumber) + 1) % 0x1_0000_0000 && xfer.Empty()
      ensures old(xfer.memory) == null ==> clobbers == old(clobbers) && (ok <==> PacketCount(|data|) <= 256)
      ensures old(xfer.memory) == null && ok ==> outgoing == old(outgoing) + Frame(data, old(packetNumber))
      ensures !ok ==> outgoing == old(outgoing)
      ensures old(xfer.memory) != null ==>
                clobbers == old(clobbers) + 1 && ok && outgoing == old(outgoing) + old(xfer.memory[..xfer.size])
    {
      ok := BeginSend(data);
      if ok {
        outgoing := outgoing + xfer.memory[..xfer.size];
        xfer.Reset();
      }
    }

    /** Receives one packet into a new buffer with a zero byte behind it; false is a connection that broke off. */
    method Recv() returns (ok: bool)
      modifies this`packetNumber, this`clobbers, this`incoming, xfer
      ensures ok <==> TakePacket(old(incoming)).Some?
      ensures clobbers == old(clobbers) + if old(xfer.memory) == null then 0 else 1
      ensures ok ==>
                var (packet, rest) := TakePacket(old(incoming)).value;
                && packetNumber == packet.number as int + 1 && incoming == rest && fresh(xfer.memory)
                && xfer.Readable() && xfer.memory[..] == packet.payload + [0] && xfer.size == |packet.payload|
                && xfer.cursor == old(xfer.cursor)
    {
      clobbers := clobbers + if xfer.memory == null then 0 else 1;
      if |incoming| < 4 {
        return false;
      }
      var header := incoming[..4];
      assert header[..3] == incoming[..3];
      var size: int := header[0] as int + header[1] as int * 0x100 + header[2] as int * 0x1_0000;
      HeaderSize(incoming);
      packetNumber := header[3] as int + 1;
      var memory := new Byte[size + 1](_ => 0);
      xfer.memory, xfer.size := memory, size;
      if |incoming| < 4 + size {
        return false;
      }
      CopyIn(memory, 0, incoming[4..4 + size]);
      memory[size] := 0;
      incoming := incoming[4 + size..];
      return true;
    }
  }

  lemma HeaderSize(wire: seq<Byte>)
    requires |wire| >= 4
    ensures SizeOf(wire) == wire[0] as int + wire[1] as int * 0x100 + wire[2] as int * 0x1_0000
  {
    var x := wire[..3];
    assert x[1..][1..][1..] == [];
    assert FromLe(x[1..][1..]) == x[2];
    assert FromLe(x[1..]) == x[1] as int + 0x100 * x[2] as int;
  }

  /** The header as the C code shifts it out. */
  lemma HeaderBytes(size: nat, number: nat)
    ensures Header(size, number) == [size % 0x100, size / 0x100 % 0x100, size / 0x1_0000 % 0x100, number % 0x100]
  {
    LeBytes(size);
  }

  lemma OverlayFront(b: seq<Byte>, at: nat, data: seq<Byte>)
    requires at + |data| <= |b|
    ensures Overlay(b, at, data)[..at + |data|] == b[..at] + data
  {
  }

  lemma NothingFramed(number: nat)
    ensures Frame([], number) == []
  {
  }

  lemma FrameStep(data: seq<Byte>, src: nat, n: nat, number: nat, sent: seq<Byte>)
    requires src < |data| && n == ChunkLength(|data| - src)
    ensures PacketCount(|data| - src - n) == PacketCount(|data| - src) - 1
    ensures sent + Frame(data[src..], number) ==
            (sent + (Header(n, number) + data[src..src + n])) + Frame(data[src + n..], number)
  {
    var rest := data[src..];
    assert rest[..n] == data[src..src + n] && rest[n..] == data[src + n..];
  }
}
