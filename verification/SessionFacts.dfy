/** What holds of every session. */
module SessionFacts {
  import opened CStrings
  import opened Encoding
  import opened Framing
  import opened Connections
  import opened Session
  import opened Traces
  import opened XferBuffers
  import opened Auth
  import opened Utf8
  import opened Tokenizer
  import opened Search
  import opened Clauses
  import opened LimitRewrite
  import opened Query
  import opened QueryFacts

  // ----- responses -----

  /** A client reads every response as an OK packet: the status header, no rows, no id, the message. */
  lemma ResponsesReadAsOk(trace: seq<Event>, handshake: seq<Byte>, i: nat)
    requires Conforms(trace, handshake) && 0 < i < |trace| && trace[i].Sent?
    ensures trace[i - 1].Received? && trace[i - 1].reaction.Replies?
    ensures var status := trace[i - 1].reaction.status;
            ReadOk(trace[i].payload) == Some((status.header, 0, 0, OrEmpty(status.message)))
  {
    assert InPlace(trace, i, handshake);
    var status := trace[i - 1].reaction.status;
    OkRoundTrip(status.header, 0, 0, OrEmpty(status.message));
  }

  /** So no error packet is ever sent, whatever status a command ends with. */
  lemma NoErrorPackets(trace: seq<Event>, handshake: seq<Byte>, i: nat, status: Status)
    requires Conforms(trace, handshake) && 0 < i < |trace| && trace[i].Sent?
    ensures trace[i].payload != ErrOf(status)
  {
    assert InPlace(trace, i, handshake);
    var sent := trace[i - 1].reaction.status;
    assert OkOf(sent, 0, 0)[3] == 0 by {
      LeBytes(0);
    }
    assert ErrOf(status)[3] == '#' as int;
  }

  // ----- the client's view of the socket -----

  function SentPackets(trace: seq<Event>): seq<Packet> {
    if trace == [] then []
    else
      var e := trace[|trace| - 1];
      SentPackets(trace[..|trace| - 1]) + if e.Sent? then Packets(Chunks(e.payload), e.number) else []
  }

  lemma TakeInFront(a: seq<Byte>, b: seq<Byte>)
    requires TakePacket(a).Some?
    ensures TakePacket(a + b) == Some((TakePacket(a).value.0, TakePacket(a).value.1 + b))
  {
    assert (a + b)[..3] == a[..3];
    var n := 4 + SizeOf(a);
    assert (a + b)[4..n] == a[4..n] && (a + b)[n..] == a[n..] + b;
  }

  lemma UnframeStep(wire: seq<Byte>, p: Packet, rest: seq<Byte>)
    requires TakePacket(wire) == Some((p, rest))
    ensures Unframe(wire) == match Unframe(rest) case None => None case Some(ps) => Some([p] + ps)
  {
  }

  lemma {:induction false} UnframeAppend(a: seq<Byte>, b: seq<Byte>)
    requires Unframe(a).Some? && Unframe(b).Some?
    ensures Unframe(a + b) == Some(Unframe(a).value + Unframe(b).value)
    decreases |a|
  {
    if a == [] {
      assert a + b == b;
      assert [] + Unframe(b).value == Unframe(b).value;
    } else {
      var (p, rest) := TakePacket(a).value;
      TakeInFront(a, b);
      UnframeStep(a, p, rest);
      UnframeAppend(rest, b);
      UnframeStep(a + b, p, rest + b);
      Associate([p], Unframe(rest).value, Unframe(b).value);
    }
  }

  lemma UnframeBoth(a: seq<Byte>, x: seq<Packet>, b: seq<Byte>, y: seq<Packet>)
    requires Unframe(a) == Some(x) && Unframe(b) == Some(y)
    ensures Unframe(a + b) == Some(x + y)
  {
    UnframeAppend(a, b);
  }

  /** Reading everything that was sent gives back the packets of the trace, in order. */
  lemma {:induction false} ClientSeesTheTrace(trace: seq<Event>)
    ensures Unframe(Output(trace)) == Some(SentPackets(trace))
    decreases |trace|
  {
    if trace == [] {
    } else {
      var e, before := trace[|trace| - 1], trace[..|trace| - 1];
      ClientSeesTheTrace(before);
      if e.Sent? {
        FramingRoundTrip(e.payload, e.number);
        UnframeBoth(Output(before), SentPackets(before),
                    Frame(e.payload, e.number), Packets(Chunks(e.payload), e.number));
      } else {
        assert Output(before) + [] == Output(before) && SentPackets(before) + [] == SentPackets(before);
      }
    }
  }

  // ----- the socket, from both sides -----

  /** The whole packets an input begins with. */
  function Arrived(wire: seq<Byte>): seq<Packet>
    decreases |wire|
  {
    match TakePacket(wire)
    case None => []
    case Some((packet, rest)) => [packet] + Arrived(rest)
  }

  /** The packets that go back for the commands that came, up to the first that gets no response. */
  ghost function Responses(commands: seq<Packet>, turn: nat, driver: Driver): seq<Packet> {
    if commands == [] then []
    else
      match Answerable(React(commands[0].payload, turn, driver))
      case Replies(status) =>
        Packets(Chunks(OkOf(status, 0, 0)), Reply(commands[0].number)) + Responses(commands[1..], turn + 1, driver)
      case _ => []
  }

  /** The packets that go back for all that came, the handshake included. */
  ghost function Conversation(handshake: seq<Byte>, arrived: seq<Packet>, driver: Driver): seq<Packet> {
    if !Fits(handshake) then []
    else
      Packets(Chunks(handshake), 0) +
      if arrived == [] || !AuthAccepted(arrived[0].payload) then []
      else Packets(Chunks(OkOf(OK_STATUS, 0, 0)), Reply(arrived[0].number)) + Responses(arrived[1..], 0, driver)
  }

  lemma {:induction false} CommandsOnTheSocket(wire: seq<Byte>, turn: nat, driver: Driver)
    ensures Unframe(Commands(wire, turn, driver).output) == Some(Responses(Arrived(wire), turn, driver))
    decreases |wire|
  {
    hide React, Packets, Chunks, Frame;
    if Served(wire, turn, driver).Replies? {
      var (packet, rest) := TakePacket(wire).value;
      var payload := OkOf(Served(wire, turn, driver).status, 0, 0);
      var more := Commands(rest, turn + 1, driver).output;
      FramingRoundTrip(payload, packet.number as int + 1);
      CommandsOnTheSocket(rest, turn + 1, driver);
      assert Arrived(wire)[1..] == Arrived(rest);
      UnframeBoth(Frame(payload, packet.number as int + 1), Packets(Chunks(payload), Reply(packet.number)),
                  more, Responses(Arrived(rest), turn + 1, driver));
    }
  }

  /** The packets a client reads off the socket are fixed by the packets it sent, whatever more is on the wire. */
  lemma SocketToSocket(handshake: seq<Byte>, input: seq<Byte>, driver: Driver)
    ensures Unframe(RunOf(handshake, input, driver).output) == Some(Conversation(handshake, Arrived(input), driver))
  {
    hide AuthAccepted, Packets, Chunks, Frame, Unframe, Commands, Responses, OkOf;
    NothingOnTheSocket();
    if Fits(handshake) {
      FramingRoundTrip(handshake, 0);
      var sent, seen := Frame(handshake, 0), Packets(Chunks(handshake), 0);
      if LoginTaken(input) {
        var (packet, rest) := TakePacket(input).value;
        var payload := OkOf(OK_STATUS, 0, 0);
        var ok, okSeen := Frame(payload, packet.number as int + 1), Packets(Chunks(payload), Reply(packet.number));
        FramingRoundTrip(payload, packet.number as int + 1);
        CommandsOnTheSocket(rest, 0, driver);
        assert Arrived(input)[1..] == Arrived(rest);
        var more, moreSeen := Commands(rest, 0, driver).output, Responses(Arrived(rest), 0, driver);
        UnframeBoth(ok, okSeen, more, moreSeen);
        UnframeBoth(sent, seen, ok + more, okSeen + moreSeen);
      } else {
        UnframeBoth(sent, seen, [], []);
      }
    }
  }

  lemma NothingOnTheSocket()
    ensures Unframe([]) == Some([])
  {
  }

  /** Every command that is answered is answered in one packet. */
  ghost predicate Terse(commands: seq<Packet>, turn: nat, driver: Driver) {
    forall k :: 0 <= k < |commands| ==>
      var reaction := React(commands[k].payload, turn + k, driver);
      reaction.Replies? ==> |OkOf(reaction.status, 0, 0)| <= MAX_CHUNK
  }

  lemma OnePacket(payload: seq<Byte>, number: Byte)
    requires 0 < |payload| <= MAX_CHUNK
    ensures Packets(Chunks(payload), number) == [Packet(number, payload)]
  {
    assert payload[..|payload|] == payload && payload[|payload|..] == [];
  }

  /**
   * Packet by packet: the kth response answers the kth command under its number plus one, and all are answered up to
   * one that gets no response.
   */
  lemma {:induction false} ResponseToEach(commands: seq<Packet>, turn: nat, driver: Driver, k: nat)
    requires Terse(commands, turn, driver) && k <= |Responses(commands, turn, driver)|
    ensures k <= |commands|
    ensures k < |commands| ==>
              (k < |Responses(commands, turn, driver)| <==> React(commands[k].payload, turn + k, driver).Replies?)
    ensures k < |Responses(commands, turn, driver)| ==>
              && k < |commands|
              && Responses(commands, turn, driver)[k] ==
                 Packet(Reply(commands[k].number), OkOf(React(commands[k].payload, turn + k, driver).status, 0, 0))
  {
    hide React, Chunks, Packets;
    if commands == [] {
    } else {
      var reaction := React(commands[0].payload, turn, driver);
      assert React(commands[0].payload, turn + 0, driver) == reaction;
      if reaction.Replies? {
        OnePacket(OkOf(reaction.status, 0, 0), Reply(commands[0].number));
        if 0 < k {
          TerseRest(commands, turn, driver);
          ResponseToEach(commands[1..], turn + 1, driver, k - 1);
          assert turn + 1 + (k - 1) == turn + k;
        }
      }
    }
  }

  lemma TerseRest(commands: seq<Packet>, turn: nat, driver: Driver)
    requires commands != [] && Terse(commands, turn, driver)
    ensures Terse(commands[1..], turn + 1, driver)
  {
    hide React, OkOf;
    forall k | 0 <= k < |commands| - 1
      ensures commands[1..][k] == commands[k + 1] && turn + (k + 1) == turn + 1 + k {
    }
  }

  // ----- a database name in the login -----

  lemma {:induction false} ZeroBehind(cs: seq<CodePoint>)
    ensures Encode(cs + [0]) == Encode(cs) + [0] && !AllRepresentable(cs + [0])
  {
    if cs == [] {
      assert Encode([0]) == EncodeOne(0) + [];
    } else {
      assert (cs + [0])[1..] == cs[1..] + [0];
      ZeroBehind(cs[1..]);
      Associate(EncodeOne(cs[0]), Encode(cs[1..]), [0]);
    }
  }

  lemma TerminatorStops(m: seq<Byte>, cs: seq<CodePoint>)
    requires StrLen(m) == |Encode(cs)| < |m| && Stands(m, 0, Encode(cs))
    ensures !Convert(m, 0, StrLen(m) + 1).Done?
  {
    hide Encode, EncodeOne, Convert, StrLen, AllRepresentable;
    ZeroBehind(cs);
    assert Stands(m, 0, Encode(cs + [0]));
    ConvertInvertsEncode(m, 0, cs + [0]);
  }

  /** A login whose packet begins with valid text is never taken when it asks for a database. */
  lemma ValidNameIsRefused(payload: seq<Byte>, cs: seq<CodePoint>, fields: AuthFields, end: nat)
    requires StrLen(payload + [0]) == |Encode(cs)| && Stands(payload + [0], 0, Encode(cs))
    requires AuthWalk(payload + [0], |payload|) == Value(fields, end)
    requires fields.clientFlags / CLIENT_CONNECT_WITH_DB % 2 == 1
    ensures !AuthAccepted(payload)
  {
    hide AuthWalk, Convert, Encode, StrLen;
    TextIsShorter(payload);
    TerminatorStops(payload + [0], cs);
  }

  lemma TextIsShorter(payload: seq<Byte>)
    ensures StrLen(payload + [0]) <= |payload|
  {
    assert (payload + [0])[|payload|] == 0;
  }

  /**
   * A login that asks for a database is taken exactly if the text its packet begins with stops inside a three-byte
   * sequence: after two of its bytes, or after one with a nonzero byte behind the terminator.
   */
  lemma DatabaseLoginTaken(payload: seq<Byte>, fields: AuthFields, end: nat)
    requires AuthWalk(payload + [0], |payload|) == Value(fields, end)
    requires fields.clientFlags / CLIENT_CONNECT_WITH_DB % 2 == 1
    ensures AuthAccepted(payload) <==> Swallowed(payload + [0], 0, StrLen(payload + [0]))
  {
    hide AuthWalk, Convert, StrLen, Swallowed;
    TextIsShorter(payload);
    ConvertOverZero(payload + [0], 0, StrLen(payload + [0]));
  }

  // ----- a query, from the wire to the driver -----

  /** A zeroed buffer holds exactly the text put into it. */
  lemma WidenedText(s: seq<WChar>, length: nat)
    requires 0 !in s && |s| < length
    ensures var wide := Widened(s, length);
            StrLen(wide) == |s| && wide[..|s|] == s && |wide| == length
  {
    var wide := Widened(s, length);
    assert wide[|s|] == 0;
    forall i | 0 <= i < |s| ensures wide[i] != 0 {
      assert wide[i] == s[i] && s[i] in s;
    }
  }

  lemma {:induction false} NonzeroIsRepresentable(s: seq<WChar>)
    requires 0 !in s
    ensures AllRepresentable(s) && |s| <= |Encode(s)|
  {
    if s == [] {
    } else {
      assert s[0] in s;
      assert forall c :: c in s[1..] ==> c in s;
      NonzeroIsRepresentable(s[1..]);
    }
  }

  lemma BytesDecoded(s: seq<WChar>, m: seq<Byte>)
    requires 0 !in s && |m| == |Encode(s)| + 2 && Stands(m, 1, Encode(s))
    ensures Convert(m, 1, |m| - 1) == Conversion.Done(s) && |s| < |m| - 1
  {
    NonzeroIsRepresentable(s);
    ConvertInvertsEncode(m, 1, s);
  }

  lemma ReactToDecoded(s: seq<WChar>, m: seq<Byte>, turn: nat, driver: Driver) returns (spare: seq<WChar>)
    requires 0 !in s && 2 <= |m| && Convert(m, 1, |m| - 1) == Conversion.Done(s) && |s| < |m| - 1
    ensures AllZero(spare) && |s| + |spare| == |m| - 2
    ensures ReactToQuery(m, turn, driver) == AnswerTo(Judge(s, spare), s, turn, driver)
  {
    WidenedText(s, |m| - 1);
    spare := Widened(s, |m| - 1)[|s| + 1..];
  }

  /** A UTF-8 query command reaches the branch chain as the text that was encoded. */
  lemma QueryDecoded(s: seq<WChar>, turn: nat, driver: Driver) returns (spare: seq<WChar>)
    requires 0 !in s
    ensures AllZero(spare) && |s| + |spare| == |Encode(s)|
    ensures React([COM_QUERY] + Encode(s), turn, driver) == AnswerTo(Judge(s, spare), s, turn, driver)
  {
    var code: seq<Byte> := [COM_QUERY];
    var m := code + Encode(s) + [0];
    assert Stands(m, 1, Encode(s));
    BytesDecoded(s, m);
    spare := ReactToDecoded(s, m, turn, driver);
  }

  /** What a client sends for a query. */
  function QueryPayload(s: seq<WChar>): seq<Byte> {
    [COM_QUERY] + Encode(s)
  }

  /** A sent payload arrives whole exactly if it fits one packet; otherwise its first part arrives as if it were all. */
  lemma ArrivesWhole(payload: seq<Byte>, number: nat, rest: seq<Byte>)
    requires payload != []
    ensures var n := ChunkLength(|payload|);
            TakePacket(Frame(payload, number) + rest) ==
            Some((Packet(number % 0x100, payload[..n]), Frame(payload[n..], number) + rest))
    ensures TakePacket(Frame(payload, number) + rest) == Some((Packet(number % 0x100, payload), rest)) <==>
            |payload| <= MAX_CHUNK
  {
    hide Header, TakePacket;
    var n := ChunkLength(|payload|);
    var more := Frame(payload[n..], number);
    TakeFramed(payload[..n], number, more);
    TakeInFront(Frame(payload, number), rest);
    if n == |payload| {
      assert payload[..n] == payload && payload[n..] == [] && [] + rest == rest;
    } else {
      assert |payload[..n]| != |payload|;
    }
  }

  /** The packets of a payload of any length arrive one after the other, each as a command of its own. */
  lemma {:induction false} ArrivesInChunks(payload: seq<Byte>, number: nat, rest: seq<Byte>)
    ensures Arrived(Frame(payload, number) + rest) == Packets(Chunks(payload), number % 0x100) + Arrived(rest)
    decreases |payload|
  {
    if payload == [] {
      assert [] + rest == rest;
    } else {
      var n := ChunkLength(|payload|);
      ArrivesWhole(payload, number, rest);
      ArrivesInChunks(payload[n..], number, rest);
      assert Chunks(payload)[1..] == Chunks(payload[n..]);
      hide Frame, TakePacket, Chunks;
      Associate([Packet(number % 0x100, payload[..n])], Packets(Chunks(payload[n..]), number % 0x100), Arrived(rest));
    }
  }

  /** A query command on the wire is served as the query that was sent, if it fits one packet. */
  lemma QueryServed(s: seq<WChar>, number: nat, rest: seq<Byte>, turn: nat, driver: Driver) returns (spare: seq<WChar>)
    requires 0 !in s && |Encode(s)| < MAX_CHUNK
    ensures AllZero(spare) && |s| + |spare| == |Encode(s)|
    ensures Served(Frame(QueryPayload(s), number) + rest, turn, driver) ==
            Answerable(AnswerTo(Judge(s, spare), s, turn, driver))
  {
    hide React, Judge, AnswerTo, Frame, TakePacket, Answerable, Encode;
    ArrivesWhole(QueryPayload(s), number, rest);
    spare := QueryDecoded(s, turn, driver);
  }

  /** A longer one is served as a shorter query, and the rest of it as the command after that. */
  lemma LongQueryIsCut(s: seq<WChar>, number: nat, rest: seq<Byte>, turn: nat, driver: Driver)
    requires MAX_CHUNK <= |Encode(s)|
    ensures var p, wire := QueryPayload(s), Frame(QueryPayload(s), number) + rest;
            && Served(wire, turn, driver) == Answerable(React(p[..MAX_CHUNK], turn, driver))
            && TakePacket(wire) ==
               Some((Packet(number % 0x100, p[..MAX_CHUNK]), Frame(p[MAX_CHUNK..], number) + rest))
            && p[MAX_CHUNK..] != []
  {
    hide React, Frame, TakePacket, Answerable, Encode;
    ArrivesWhole(QueryPayload(s), number, rest);
  }

  /** The token behind the one taken for LIMIT is not an unclosed quote. */
  predicate NumberEnds(s: seq<WChar>) {
    Ordered(s, PlanOf(s)) && TokenKind(s, PlanOf(s).num) != InOpenQuote
  }

  /**
   * A query sent as UTF-8 in one packet is judged in a zeroed buffer with one cell per byte, so it reaches the driver
   * with its LIMIT n moved exactly if no other branch takes it, the gate sees it, and that is room enough. Unless its
   * number is an unclosed quote, it reaches the driver as meant exactly if its keywords are understood as well.
   */
  lemma QueryOverTheWire(s: seq<WChar>, number: nat, rest: seq<Byte>, turn: nat, driver: Driver)
    returns (v: Verdict, spare: seq<WChar>)
    requires 0 !in s && PlanOf(s).Move? && |Encode(s)| < MAX_CHUNK
    ensures AllZero(spare) && |s| + |spare| == |Encode(s)| && v == Judge(s, spare)
    ensures Served(Frame(QueryPayload(s), number) + rest, turn, driver) == Answerable(AnswerTo(v, s, turn, driver))
    ensures v.Executes? && Tokens(v.sql) == LimitMoved(Tokens(s)) <==>
            Plain(s) && Contains(s, LIMIT_SPACE) && Fitting(s, spare)
    ensures Plain(s) && Contains(s, LIMIT_SPACE) && (NumberEnds(s) || Fitting(s, spare) || Understood(s)) ==>
              (v.Executes? && Tokens(v.sql) == Meant(Tokens(s)) <==> Fitting(s, spare) && Understood(s))
  {
    spare := QueryServed(s, number, rest, turn, driver);
    v := Judge(s, spare);
    JudgeIsExact(s, spare);
    assert NumberEnds(s) ==> Settled(s, spare);
    hide Served, Judge, RoomForMove, AnswerTo, Plain, Contains, Understood, Encode, Tokens, Meant, Settled, NumberEnds;
    if Plain(s) && (NumberEnds(s) || Fitting(s, spare) || Understood(s)) {
      JudgeDoesWhatIsMeant(s, spare);
    }
  }

  /**
   * A textbook SELECT with LIMIT n that no other branch takes, sent in one packet, is put to the driver as a statement
   * of the same length, whose tokens have LIMIT n moved behind SELECT exactly if the gate sees it; the driver's failure
   * is what the client is told, and its success stops the program.
   */
  lemma TextbookOverTheWire(s: seq<WChar>, number: nat, rest: seq<Byte>, turn: nat, driver: Driver)
    returns (sql: seq<WChar>)
    requires 0 !in s && PlanOf(s).Move? && Textbook(s, PlanOf(s)) && Plain(s) && |Encode(s)| < MAX_CHUNK
    ensures HasClause(Tokens(s)) && |sql| == |s|
    ensures Tokens(sql) == ClauseMoved(Tokens(s)) <==> Contains(s, LIMIT_SPACE)
    ensures var a := driver(turn, sql).status;
            Served(Frame(QueryPayload(s), number) + rest, turn, driver) ==
            if a.header == 0 || !Fits(OkOf(a, 0, 0)) then Stops else Replies(a)
  {
    hide Served, Judge, Contains, Encode, OkOf, Fits;
    var spare := QueryServed(s, number, rest, turn, driver);
    GateDecides(s, spare);
    sql := Judge(s, spare).sql;
  }
}
