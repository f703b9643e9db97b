/** The transfer buffer: the growing write side of fxmy_write.c and the cursor walk of fxmy_read.c. */
module XferBuffers {
  import opened CStrings
  import opened Encoding

  const PAGE: nat := 4096

  /** (n + 4095) & ~4095 */
  function PageRound(n: nat): (r: nat)
    ensures r % PAGE == 0 && n <= r <= n + 4095
  {
    (n + 4095) / PAGE * PAGE
  }

  class XferBuffer {
    var memory: array?<Byte>
    var size: nat
    var cursor: nat

    /** The largest room asked for since the buffer was last empty. */
    ghost var peak: nat

    ghost predicate Empty()
      reads this
    {
      memory == null && size == 0 && cursor == 0
    }

    /** A buffer that serializers fill. */
    ghost predicate Writable()
      reads this
    {
      && (if memory == null then size == 0 else memory.Length == size)
      && cursor <= size && size % PAGE == 0
      && size <= cursor + 2 * peak + 4095
    }

    /** What has been written so far. */
    ghost function Contents(): seq<Byte>
      requires Writable()
      reads this, memory
    {
      if memory == null then [] else memory[..cursor]
    }

    constructor ()
      ensures Empty() && Writable() && Contents() == [] && peak == 0
    {
      memory, size, cursor, peak := null, 0, 0, 0;
    }

    method Reset()
      modifies this
      ensures Empty() && Writable() && peak == 0
    {
      memory, size, cursor, peak := null, 0, 0, 0;
    }

    /** fxmy_ensure_buffer_room: afterwards `room` bytes can be written at the cursor, and nothing written is lost. */
    method EnsureRoom(room: nat)
      requires Writable()
      modifies this
      ensures Writable() && memory != null && cursor + room <= size
      ensures memory == old(memory) || fresh(memory)
      ensures Contents() == old(Contents())
      ensures size == if room < old(size) - cursor then old(size) else PageRound(old(size) + room)
      ensures peak == if room <= old(peak) then old(peak) else room
    {
      var oldSize := size;
      var headroom := oldSize - cursor;
      var newSize := PageRound(oldSize + room);
      peak := if room <= peak then peak else room;
      if room < headroom {
        return;
      }
      Realloc(newSize);
    }

    /** The C library's realloc: the old bytes are copied, the others are whatever they are. */
    method Realloc(newSize: nat)
      requires (if memory == null then size == 0 else memory.Length == size) && size <= newSize
      modifies this`memory, this`size
      ensures fresh(memory) && memory.Length == newSize == size
      ensures old(memory) != null ==> memory[..old(size)] == old(memory[..])
    {
      var grown := new Byte[newSize](_ => 0);
      if memory != null {
        forall i | 0 <= i < size {
          grown[i] := memory[i];
        }
      }
      memory, size := grown, newSize;
    }

    /** Stores bytes at the cursor and moves it behind them. */
    method Store(bytes: seq<Byte>)
      requires Writable() && memory != null && cursor + |bytes| <= size
      modifies this`cursor, memory
      ensures Writable() && memory == old(memory) && size == old(size)
      ensures Contents() == old(Contents()) + bytes
    {
      forall i | 0 <= i < |bytes| {
        memory[cursor + i] := bytes[i];
      }
      cursor := cursor + |bytes|;
    }

    // ----- serializers -----

    method SerializeLcb(value: U64)
      requires Writable()
      modifies this, memory
      ensures Writable() && (memory == old(memory) || fresh(memory))
      ensures Contents() == old(Contents()) + Lcb(value)
      ensures peak == if old(peak) < 9 then 9 else old(peak)
    {
      EnsureRoom(9);
      var bytes := LcbBytes(value);
      Store(bytes);
    }

    /** The bytes shifted out one by one, as many as the value's range asks for. */
    static method LcbBytes(value: U64) returns (bytes: seq<Byte>)
      ensures bytes == Lcb(value)
    {
      if value <= 250 {
        return [value];
      } else if value <= 0xFFFF {
        LeBytes(value);
        return [252, value % 0x100, value / 0x100 % 0x100];
      } else if value <= 0xFF_FFFF {
        LeBytes(value);
        return [253, value % 0x100, value / 0x100 % 0x100, value / 0x1_0000 % 0x100];
      } else {
        LeBytes8(value);
        return [254, value % 0x100, value / 0x100 % 0x100, value / 0x1_0000 % 0x100, value / 0x100_0000 % 0x100,
                value / 0x1_0000_0000 % 0x100, value / 0x100_0000_0000 % 0x100,
                value / 0x1_0000_0000_0000 % 0x100, value / 0x100_0000_0000_0000 % 0x100];
      }
    }

    method SerializeU16(value: U16)
      requires Writable()
      modifies this, memory
      ensures Writable() && (memory == old(memory) || fresh(memory))
      ensures Contents() == old(Contents()) + Le(value, 2)
      ensures peak == if old(peak) < 2 then 2 else old(peak)
    {
      EnsureRoom(2);
      LeBytes(value);
      Store([value % 0x100, value / 0x100 % 0x100]);
    }

    method SerializeU8(value: Byte)
      requires Writable()
      modifies this, memory
      ensures Writable() && (memory == old(memory) || fresh(memory))
      ensures Contents() == old(Contents()) + [value]
      ensures peak == if old(peak) < 1 then 1 else old(peak)
    {
      EnsureRoom(1);
      Store([value]);
    }

    /** The text up to and with its terminator; nothing for a null pointer. */
    method SerializeTerminatedString(value: Option<CText>)
      requires Writable()
      modifies this, memory
      ensures Writable() && (memory == old(memory) || fresh(memory))
      ensures Contents() == old(Contents()) + if value.None? then [] else value.value + [0]
      ensures peak == if value.Some? && old(peak) < |value.value| + 1 then |value.value| + 1 else old(peak)
    {
      if value.Some? {
        EnsureRoom(|value.value| + 1);
        Store(value.value + [0]);
      }
    }

    method SerializeString(value: Option<CText>)
      requires Writable()
      modifies this, memory
      ensures Writable() && (memory == old(memory) || fresh(memory))
      ensures Contents() == old(Contents()) + if value.None? then [] else value.value
      ensures peak == if value.Some? && old(peak) < |value.value| then |value.value| else old(peak)
    {
      if value.Some? {
        EnsureRoom(|value.value|);
        Store(value.value);
      }
    }

    // ----- readers -----

    /** A buffer as fxmy_recv leaves it: one zero byte is allocated behind the packet. */
    ghost predicate Readable()
      reads this, memory
    {
      memory != null && memory.Length == size + 1 && memory[size] == 0
    }

    method ReadU8() returns (r: Got<Byte>)
      requires Readable()
      modifies this`cursor
      ensures r == ReadU8At(memory[..], size, old(cursor)) && (r.Value? ==> cursor == r.cursor)
    {
      var at := cursor;
      cursor := cursor + 1;
      if cursor > size {
        return Aborted;
      }
      return Value(memory[at], cursor);
    }

    method ReadU32() returns (r: Got<nat>)
      requires Readable()
      modifies this`cursor
      ensures r == ReadU32At(memory[..], size, old(cursor)) && (r.Value? ==> cursor == r.cursor)
    {
      var at := cursor;
      if at + 4 > memory.Length {
        return Faulted;
      }
      var b0: int, b1: int, b2: int, b3: int := memory[at], memory[at + 1], memory[at + 2], memory[at + 3];
      var value := b0 + b1 * 0x100 + b2 * 0x1_0000 + b3 * 0x100_0000;
      FromLe4(memory[..], at);
      cursor := cursor + 4;
      return if cursor > size then Aborted else Value(value, cursor);
    }

    /** The switch without breaks: each case also runs the cases behind it. */
    method ReadLcb() returns (r: Got<nat>)
      requires Readable()
      modifies this`cursor
      ensures r == ReadLcbFallingThrough(memory[..], size, old(cursor)) && (r.Value? ==> cursor == r.cursor)
    {
      var at := cursor;
      if at >= memory.Length {
        return Faulted;
      }
      var first := memory[at];
      if at + 1 + LcbWidth(first) > memory.Length {
        return Faulted;
      }
      if first == 254 {
        cursor := cursor + 9;
      }
      if 253 <= first <= 254 {
        cursor := cursor + 4;
      }
      if 252 <= first <= 254 {
        cursor := cursor + 3;
      }
      cursor := cursor + 1;
      return if cursor > size then Aborted else Value(first, cursor);
    }

    method SkipString() returns (r: Got<()>)
      requires Readable()
      modifies this`cursor
      ensures r == SkipStringAt(memory[..], old(cursor)) && (r.Value? ==> cursor == r.cursor)
    {
      if cursor >= memory.Length {
        return Faulted;
      }
      var n := 0;
      ghost var rest := memory[cursor..];
      while memory[cursor + n] != 0
        invariant cursor + n < memory.Length && n <= StrLen(rest)
        decreases memory.Length - n
      {
        assert rest[n] == memory[cursor + n];
        assert cursor + n != size;
        n := n + 1;
      }
      assert rest[n] == memory[cursor + n];
      assert memory[..][cursor..] == rest;
      cursor := cursor + n + 1;
      return Value((), cursor);
    }

    method SkipLcs() returns (r: Got<()>)
      requires Readable()
      modifies this`cursor
      ensures r == SkipLcsAt(memory[..], size, old(cursor)) && (r.Value? ==> cursor == r.cursor)
    {
      var n := ReadLcb();
      match n {
        case Value(count, _) =>
          cursor := cursor + count;
          r := Value((), cursor);
        case Aborted => r := Aborted;
        case Faulted => r := Faulted;
      }
    }
  }

  // ----- what the readers find -----

  function ReadU8At(m: seq<Byte>, size: nat, cursor: nat): Got<Byte>
    requires size <= |m|
  {
    if cursor + 1 > size then Aborted else Value(m[cursor], cursor + 1)
  }

  function ReadU32At(m: seq<Byte>, size: nat, cursor: nat): Got<nat> {
    if cursor + 4 > |m| then Faulted
    else if cursor + 4 > size then Aborted
    else Value(FromLe(m[cursor..cursor + 4]), cursor + 4)
  }

  function SkipStringAt(m: seq<Byte>, cursor: nat): Got<()> {
    if cursor >= |m| || StrLen(m[cursor..]) == |m| - cursor then Faulted
    else Value((), cursor + StrLen(m[cursor..]) + 1)
  }

  function SkipLcsAt(m: seq<Byte>, size: nat, cursor: nat): Got<()> {
    match ReadLcbFallingThrough(m, size, cursor)
    case Value(n, next) => Value((), next + n)
    case Aborted => Aborted
    case Faulted => Faulted
  }

  lemma FromLe4(m: seq<Byte>, at: nat)
    requires at + 4 <= |m|
    ensures FromLe(m[at..at + 4]) ==
            m[at] as int + m[at + 1] as int * 0x100 + m[at + 2] as int * 0x1_0000 + m[at + 3] as int * 0x100_0000
  {
    var x := m[at..at + 4];
    assert x[1..][1..][1..][1..] == [];
    assert FromLe(x[1..][1..][1..]) == x[3];
    assert FromLe(x[1..][1..]) == x[2] as int + 0x100 * x[3] as int;
  }
}
