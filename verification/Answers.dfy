/** What a client gets back, packet by packet, told in byte values, plain texts and the driver's answers. */
module Answers {
  import opened CStrings
  import opened Encoding
  import opened XferBuffers
  import opened Framing
  import opened Connections
  import opened Auth
  import opened Utf8
  import opened Search
  import opened Query
  import opened QueryFacts
  import opened Session
  import opened SessionFacts
  import opened CharacterCodes
  import opened WireBytes

  /** The texts of a status, and whether its response is at most 256 full packets. */
  function Text(status: Status): seq<Byte> {
    if status.message.Some? then status.message.value else []
  }

  predicate Sendable(status: Status) {
    7 + |Text(status)| <= 256 * 16777215
  }

  /** A command sent in one packet, with more behind it. */
  function Wire(payload: seq<Byte>, number: nat, rest: seq<Byte>): seq<Byte> {
    Frame(payload, number) + rest
  }

  lemma StatusLength(status: Status)
    ensures |OkOf(status, 0, 0)| == 7 + |Text(status)|
  {
    OkBytes(status);
  }

  /** The payload for the result code 0, and for the 64-bit -1. */
  lemma ResultBytes(status: Status)
    ensures FXMY_ERROR == 18446744073709551615
    ensures ResultPayload(0, status, 0, 0) == [status.header, 0, 0, 0, 0, 0, 0] + Text(status)
    ensures ResultPayload(18446744073709551615, status, 0, 0) ==
            [status.header, status.code % 256, status.code / 256, 35] +
            ((if status.sqlState.Some? then status.sqlState.value else []) + Text(status))
  {
    hide OkOf, ErrOf;
    OkBytes(status);
    ErrBytes(status);
  }

  /** The reaction to a command sent in one packet is what its bytes call for, unless the response does not fit. */
  lemma CommandServed(payload: seq<Byte>, number: nat, rest: seq<Byte>, turn: nat, driver: Driver)
    requires 0 < |payload| <= 16777215
    ensures TakePacket(Wire(payload, number, rest)) == Some((Packet(number % 256, payload), rest))
    ensures var reaction := React(payload, turn, driver);
            Served(Wire(payload, number, rest), turn, driver) ==
            if reaction.Replies? && !Sendable(reaction.status) then Stops else reaction
  {
    hide React, Frame, TakePacket, OkOf;
    ArrivesWhole(payload, number, rest);
    var reaction := React(payload, turn, driver);
    if reaction.Replies? {
      StatusLength(reaction.status);
    }
  }

  /** A response goes out before anything else does: as one packet if its text is not too long. */
  lemma ResponsePacket(payload: seq<Byte>, number: nat, rest: seq<Byte>, turn: nat, driver: Driver, status: Status)
    requires 0 < |payload| <= 16777215 && Served(Wire(payload, number, rest), turn, driver) == Replies(status)
    requires 7 + |Text(status)| <= 16777215
    ensures TakePacket(Commands(Wire(payload, number, rest), turn, driver).output) ==
            Some((Packet((number % 256 + 1) % 256, [status.header, 0, 0, 0, 0, 0, 0] + Text(status)),
                  Commands(rest, turn + 1, driver).output))
  {
    OkBytes(status);
    hide React, Frame, TakePacket, OkOf, Served, Commands;
    ArrivesWhole(payload, number, rest);
    ResponseFirst(Wire(payload, number, rest), turn, driver, Packet(number % 256, payload), rest, status);
    ArrivesWhole(OkOf(status, 0, 0), number % 256 + 1, Commands(rest, turn + 1, driver).output);
  }

  lemma ResponseFirst(wire: seq<Byte>, turn: nat, driver: Driver, packet: Packet, rest: seq<Byte>, status: Status)
    requires TakePacket(wire) == Some((packet, rest)) && Served(wire, turn, driver) == Replies(status)
    ensures Commands(wire, turn, driver).output ==
            Frame(OkOf(status, 0, 0), packet.number as int + 1) + Commands(rest, turn + 1, driver).output
  {
    hide React, Frame, TakePacket, OkOf, Served;
  }

  // ----- commands by their number -----

  /** A name sent with command 2 is put to the driver, and its status is what the client is told. */
  lemma DatabaseCommand(name: seq<WChar>, turn: nat, driver: Driver)
    requires 0 !in name
    ensures React([2] + Encode(name), turn, driver) == Replies(driver(turn, name).status)
  {
    NameDecoded(name);
    hide Encode, Convert;
  }

  lemma NameDecoded(name: seq<WChar>)
    requires 0 !in name
    ensures var p: seq<Byte> := [2] + Encode(name);
            |name| + 1 <= |p| && Convert(p + [0], 1, |p|) == Conversion.Done(name)
  {
    hide Encode, Convert;
    BehindFirst(2, Encode(name));
    hide Stands;
    BytesDecoded(name, [2] + Encode(name) + [0]);
  }

  lemma BehindFirst(first: Byte, text: seq<Byte>)
    ensures Stands([first] + text + [0], 1, text)
  {
  }

  /** It is kept as the database: the name, and zeros behind it up to the length of the packet. */
  lemma DatabaseKept(name: seq<WChar>, before: Option<seq<WChar>>)
    requires 0 !in name
    ensures var kept := DatabaseAfter([2] + Encode(name), before);
            && kept.Some? && |name| < |kept.value| == 1 + |Encode(name)| && kept.value[..|name|] == name
            && forall k :: |name| <= k < |kept.value| ==> kept.value[k] == 0
  {
    NameDecoded(name);
    hide Encode, Convert;
  }

  /** Command 27 sets the option word and replies OK. */
  lemma OptionCommand(low: Byte, high: Byte, more: seq<Byte>, before: nat, turn: nat, driver: Driver)
    ensures React([27, low, high] + more, turn, driver) == Replies(Status(0, 0, Some([]), Some([79, 75])))
    ensures OptionAfter([27, low, high] + more, before) == low as int + 256 * high as int
  {
    var m: seq<Byte> := [27, low, high] + more + [0];
    var word: seq<Byte> := [low, high];
    assert m[1..3] == word && word[1..] == [high] && word[1..][1..] == [];
    assert FromLe(word[1..]) == high as int && FromLe(word) == low as int + 256 * high as int;
  }

  /** With one byte behind it, the terminator is the high byte; with none, the program stops. */
  lemma ShortOptionCommand(low: Byte, before: nat, turn: nat, driver: Driver)
    ensures React([27, low], turn, driver) == Replies(Status(0, 0, Some([]), Some([79, 75])))
    ensures OptionAfter([27, low], before) == low as int
    ensures React([27], turn, driver) == Stops && OptionAfter([27], before) == before
  {
    var word: seq<Byte> := [low, 0];
    assert ([27, low] + [0])[1..3] == word && word[1..] == [0] && word[1..][1..] == [];
    assert FromLe(word[1..]) == 0 && FromLe(word) == low as int;
  }

  /** Any other command but a query ends the session, with number 1, or stops the program. */
  lemma OtherCommands(payload: seq<Byte>, before: Option<seq<WChar>>, option: nat, turn: nat, driver: Driver)
    requires payload == [] || payload[0] !in {2, 3, 27}
    ensures React(payload, turn, driver) == if payload != [] && payload[0] == 1 then Quits else Stops
    ensures DatabaseAfter(payload, before) == before && OptionAfter(payload, option) == option
  {
  }

  // ----- queries -----

  /** What each verdict on a query comes to. */
  lemma VerdictAnswered(v: Verdict, text: seq<WChar>, turn: nat, driver: Driver)
    ensures v == Acknowledged ==> AnswerTo(v, text, turn, driver) == Replies(Status(0, 0, Some([]), Some([79, 75])))
    ensures v == Aborts || v == Faults ==> AnswerTo(v, text, turn, driver) == Stops
    ensures v == Refused ==>
              AnswerTo(v, text, turn, driver) ==
              Replies(Status(255, 1146, Some([52, 50, 83, 48, 50]), Some([69, 82, 82, 79, 82])))
    ensures v == Describes ==>
              var a := driver(turn, text);
              AnswerTo(v, text, turn, driver) == if a.status.header == 0 && a.rows then Stops else Replies(a.status)
    ensures v == ShowsTables ==>
              var a := driver(turn, text);
              AnswerTo(v, text, turn, driver) ==
              if a.status.header == 0 && a.rows then Stops else Replies(Status(0, 0, Some([]), Some([79, 75])))
    ensures v.Executes? ==>
              var a := driver(turn, v.sql).status;
              AnswerTo(v, text, turn, driver) == if a.header == 0 then Stops else Replies(a)
  {
  }

  /** The answer to a query on the wire, from its text, the gate's outcome and the driver alone. */
  lemma QueryAnswered(s: seq<WChar>, number: nat, rest: seq<Byte>, turn: nat, driver: Driver)
    returns (v: Verdict, spare: seq<WChar>)
    requires 0 !in s && |Encode(s)| < 16777215
    ensures v == Judge(s, spare) && AllZero(spare) && |s| + |spare| == |Encode(s)|
    ensures var r, a := Served(Wire([3] + Encode(s), number, rest), turn, driver), driver(turn, s);
            && (Occurs(s, "SET NAMES") && Occurs(s, "utf8") ==> r == Replies(Status(0, 0, Some([]), Some([79, 75]))))
            && (Occurs(s, "SET NAMES") && !Occurs(s, "utf8") ==> r == Stops)
            && (!Occurs(s, "SET NAMES") && Occurs(s, "DESCRIBE") ==>
                  r == if (a.status.header == 0 && a.rows) || !Sendable(a.status) then Stops else Replies(a.status))
            && (!Occurs(s, "SET NAMES") && !Occurs(s, "DESCRIBE") && Occurs(s, "SHOW TABLES") ==>
                  r == if a.status.header == 0 && a.rows then Stops
                       else Replies(Status(0, 0, Some([]), Some([79, 75]))))
    ensures var r := Served(Wire([3] + Encode(s), number, rest), turn, driver);
            && (v == Refused ==>
                  r == Replies(Status(255, 1146, Some([52, 50, 83, 48, 50]), Some([69, 82, 82, 79, 82]))))
            && (v == Faults ==> r == Stops)
            && (v.Executes? ==>
                  var a := driver(turn, v.sql).status;
                  r == if a.header == 0 || !Sendable(a) then Stops else Replies(a))
  {
    spare := QueryDecoded(s, turn, driver);
    v := Judge(s, spare);
    BranchesByText(s, spare);
    VerdictAnswered(v, s, turn, driver);
    hide Judge, Occurs, React, Encode, AnswerTo, Served;
    CommandServed([3] + Encode(s), number, rest, turn, driver);
  }

  // ----- the login -----

  /** A login without the flag of value 8 is taken. */
  lemma OrdinaryLogin(flags: U32, maxSize: U32, charset: Byte, padding: seq<Byte>, name: seq<Byte>,
                      scramble: seq<Byte>, tail: seq<Byte>)
    requires |padding| == 23 && |scramble| <= 250 && 0 !in name && flags / 8 % 2 == 0
    ensures AuthAccepted(LoginBytes(flags, maxSize, charset, padding, name, scramble, tail))
  {
    LoginIsRead(flags, maxSize, charset, padding, name, scramble, tail);
    hide AuthWalk, LoginBytes;
  }

  /** Nine bytes under a packet number: header 0, no rows, no id, two empty words, and the text OK. */
  function OkReply(number: Byte): seq<Byte> {
    [9, 0, 0, number, 0, 0, 0, 0, 0, 0, 0, 79, 75]
  }

  lemma OkFrame(number: nat)
    ensures Frame(OkOf(OK_STATUS, 0, 0), number) == OkReply(number % 256)
  {
    hide *;
    OkText();
    FrameBytes(OkOf(OK_STATUS, 0, 0), number);
    NineBytes(number % 256, OkOf(OK_STATUS, 0, 0));
  }

  lemma NineBytes(number: Byte, text: seq<Byte>)
    requires text == [0, 0, 0, 0, 0, 0, 0, 79, 75]
    ensures [|text| % 256, |text| / 256 % 256, |text| / 65536, number] + text == OkReply(number)
  {
  }

  lemma OkText()
    ensures OkOf(OK_STATUS, 0, 0) == [0, 0, 0, 0, 0, 0, 0, 79, 75]
  {
    hide OkOf;
    OkBytes(OK_STATUS);
  }

  lemma FitsByLength(payload: seq<Byte>)
    ensures Fits(payload) <==> |payload| <= 256 * 16777215
  {
  }

  lemma LoginIsTaken(login: seq<Byte>, number: nat, rest: seq<Byte>)
    requires 0 < |login| <= 16777215 && AuthAccepted(login)
    ensures TakePacket(Wire(login, number, rest)) == Some((Packet(number % 256, login), rest))
    ensures LoginTaken(Wire(login, number, rest))
  {
    hide AuthAccepted, TakePacket, Frame;
    ArrivesWhole(login, number, rest);
  }

  /** It is answered with OK under the next number, and the commands behind it are served. */
  lemma LoginAnswered(handshake: seq<Byte>, login: seq<Byte>, number: nat, rest: seq<Byte>, driver: Driver)
    requires |handshake| <= 256 * 16777215 && 0 < |login| <= 16777215 && AuthAccepted(login)
    ensures var run, more := RunOf(handshake, Wire(login, number, rest), driver), Commands(rest, 0, driver);
            && run.output == Frame(handshake, 0) + OkReply((number + 1) % 256) + more.output
            && (run.quits <==> more.quits) && run.rest == more.rest
  {
    hide *;
    FitsByLength(handshake);
    LoginIsTaken(login, number, rest);
    OkFrame(number % 256 + 1);
    assert (number % 256 + 1) % 256 == (number + 1) % 256;
    RunStarts(handshake, Wire(login, number, rest), driver);
  }

  /** The whole of it for a login without the flag. */
  lemma OrdinaryLoginAnswered(handshake: seq<Byte>, flags: U32, maxSize: U32, charset: Byte, padding: seq<Byte>,
                              name: seq<Byte>, scramble: seq<Byte>, tail: seq<Byte>,
                              number: nat, rest: seq<Byte>, driver: Driver)
    requires |handshake| <= 256 * 16777215
    requires |padding| == 23 && |scramble| <= 250 && 0 !in name && flags / 8 % 2 == 0
    requires |LoginBytes(flags, maxSize, charset, padding, name, scramble, tail)| <= 16777215
    ensures var login := LoginBytes(flags, maxSize, charset, padding, name, scramble, tail);
            var run, more := RunOf(handshake, Wire(login, number, rest), driver), Commands(rest, 0, driver);
            && run.output == Frame(handshake, 0) + OkReply((number + 1) % 256) + more.output
            && (run.quits <==> more.quits) && run.rest == more.rest
  {
    assert LoginBytes(flags, maxSize, charset, padding, name, scramble, tail) != [];
    hide *;
    OrdinaryLogin(flags, maxSize, charset, padding, name, scramble, tail);
    LoginAnswered(handshake, LoginBytes(flags, maxSize, charset, padding, name, scramble, tail), number, rest, driver);
  }

  // ----- the packets that come back -----

  /** The packet of a response: the next number, the status header, no rows, no id, and the text. */
  function ResponseTo(number: nat, status: Status): Packet {
    Packet((number % 256 + 1) % 256, [status.header, 0, 0, 0, 0, 0, 0] + Text(status))
  }

  predicate OnePacketLong(status: Status) {
    7 + |Text(status)| <= 16777215
  }

  /** A change of database is answered with the driver's status, and then the next command is served. */
  lemma DatabaseAnswered(name: seq<WChar>, number: nat, rest: seq<Byte>, turn: nat, driver: Driver)
    requires 0 !in name && |Encode(name)| < 16777215 && OnePacketLong(driver(turn, name).status)
    ensures TakePacket(Commands(Wire([2] + Encode(name), number, rest), turn, driver).output) ==
            Some((ResponseTo(number, driver(turn, name).status), Commands(rest, turn + 1, driver).output))
  {
    var p: seq<Byte> := [2] + Encode(name);
    hide React, Served, Commands, Encode, Wire, TakePacket;
    DatabaseCommand(name, turn, driver);
    CommandServed(p, number, rest, turn, driver);
    ResponsePacket(p, number, rest, turn, driver, driver(turn, name).status);
  }

  lemma OptionAnswered(low: Byte, high: Byte, more: seq<Byte>, number: nat, rest: seq<Byte>, turn: nat, driver: Driver)
    requires 3 + |more| <= 16777215
    ensures TakePacket(Commands(Wire([27, low, high] + more, number, rest), turn, driver).output) ==
            Some((ResponseTo(number, Status(0, 0, Some([]), Some([79, 75]))), Commands(rest, turn + 1, driver).output))
  {
    var p: seq<Byte> := [27, low, high] + more;
    hide React, Served, Commands, Wire, TakePacket;
    OptionCommand(low, high, more, 0, turn, driver);
    CommandServed(p, number, rest, turn, driver);
    ResponsePacket(p, number, rest, turn, driver, Status(0, 0, Some([]), Some([79, 75])));
  }

  /** A query that fails at the driver is answered with the driver's status. */
  lemma FailureAnswered(s: seq<WChar>, number: nat, rest: seq<Byte>, turn: nat, driver: Driver) returns (v: Verdict)
    requires 0 !in s && |Encode(s)| < 16777215
    ensures v.Executes? && driver(turn, v.sql).status.header != 0 && OnePacketLong(driver(turn, v.sql).status) ==>
              TakePacket(Commands(Wire([3] + Encode(s), number, rest), turn, driver).output) ==
              Some((ResponseTo(number, driver(turn, v.sql).status), Commands(rest, turn + 1, driver).output))
    ensures !Occurs(s, "SET NAMES") && !Occurs(s, "DESCRIBE") && !Occurs(s, "SHOW TABLES") && !Occurs(s, "LIMIT ") ==>
              v == Executes(s)
  {
    var p: seq<Byte> := [3] + Encode(s);
    hide React, Served, Commands, Wire, TakePacket, Encode, Occurs, Judge;
    var spare;
    v, spare := QueryAnswered(s, number, rest, turn, driver);
    BranchesByText(s, spare);
    if v.Executes? && driver(turn, v.sql).status.header != 0 && OnePacketLong(driver(turn, v.sql).status) {
      ResponsePacket(p, number, rest, turn, driver, driver(turn, v.sql).status);
    }
  }

  /** Command 1 ends the session without a response; what is behind it is left unread. */
  lemma QuitEnds(more: seq<Byte>, number: nat, rest: seq<Byte>, turn: nat, driver: Driver)
    requires 1 + |more| <= 16777215
    ensures var run := Commands(Wire([1] + more, number, rest), turn, driver);
            run.quits && run.output == [] && run.rest == rest
  {
    var p: seq<Byte> := [1] + more;
    OtherCommands(p, None, 0, turn, driver);
    hide React, Wire, TakePacket;
    CommandServed(p, number, rest, turn, driver);
  }

  // ----- a client's first words -----

  lemma {:induction false} AsciiEncode(s: seq<WChar>)
    requires forall k :: 0 <= k < |s| ==> 0 < s[k] < 128
    ensures Encode(s) == s
  {
    if s == [] {
    } else {
      AsciiEncode(s[1..]);
      assert s == [s[0]] + s[1..];
    }
  }

  const SET_NAMES_UTF8: string := "SET NAMES utf8"

  /** The command that sends it. */
  const SET_NAMES_COMMAND: seq<Byte> := [3, 83, 69, 84, 32, 78, 65, 77, 69, 83, 32, 117, 116, 102, 56]

  lemma SetNamesOccurs()
    ensures Occurs(Codes(SET_NAMES_UTF8), "SET NAMES") && Occurs(Codes(SET_NAMES_UTF8), "utf8")
    ensures 0 !in Codes(SET_NAMES_UTF8)
  {
    assert OccursAt(Codes(SET_NAMES_UTF8), "SET NAMES", 0);
    assert OccursAt(Codes(SET_NAMES_UTF8), "utf8", 10);
  }

  lemma SetNamesCodes()
    ensures Codes(SET_NAMES_UTF8) == SET_NAMES_COMMAND[1..]
  {
  }

  lemma SetNamesEncoded()
    ensures [3] + Encode(Codes(SET_NAMES_UTF8)) == SET_NAMES_COMMAND && |Encode(Codes(SET_NAMES_UTF8))| == 14
  {
    hide Encode;
    SetNamesCodes();
    AsciiEncode(SET_NAMES_COMMAND[1..]);
  }

  /** SET NAMES utf8, as a client sends it on connecting, is answered with OK. */
  lemma SetNamesAnswered(number: nat, rest: seq<Byte>, turn: nat, driver: Driver)
    ensures Served(Wire(SET_NAMES_COMMAND, number, rest), turn, driver) == Replies(OK_STATUS)
    ensures var run, more := Commands(Wire(SET_NAMES_COMMAND, number, rest), turn, driver),
                             Commands(rest, turn + 1, driver);
            run.output == OkReply((number + 1) % 256) + more.output && run.quits == more.quits && run.rest == more.rest
  {
    hide Served, Occurs, Codes, Encode, Judge, Commands, Wire, OkReply;
    SetNamesOccurs();
    SetNamesEncoded();
    var v, spare := QueryAnswered(Codes(SET_NAMES_UTF8), number, rest, turn, driver);
    OkFirst(SET_NAMES_COMMAND, number, rest, turn, driver);
  }

  lemma OkFirst(payload: seq<Byte>, number: nat, rest: seq<Byte>, turn: nat, driver: Driver)
    requires 0 < |payload| <= 16777215 && Served(Wire(payload, number, rest), turn, driver) == Replies(OK_STATUS)
    ensures var run, more := Commands(Wire(payload, number, rest), turn, driver), Commands(rest, turn + 1, driver);
            run.output == OkReply((number + 1) % 256) + more.output && run.quits == more.quits && run.rest == more.rest
  {
    hide React, Frame, TakePacket, OkOf, Served, OkReply;
    ArrivesWhole(payload, number, rest);
    OkFrame(number % 256 + 1);
    assert (number % 256 + 1) % 256 == (number + 1) % 256;
  }

  /** A login as root with an empty scramble. */
  const LOGIN: seq<Byte> :=
    [0, 2, 0, 0, 0, 0, 0, 1, 33] + seq(23, _ => 0) + [114, 111, 111, 116] + [0, 0]

  lemma LoginIsOrdinary()
    ensures LOGIN == LoginBytes(512, 16777216, 33, seq(23, _ => 0), [114, 111, 111, 116], [], []) && |LOGIN| == 38
  {
  }

  /** What a client that logs in, sets its character set and quits has got back: the handshake and two OKs. */
  lemma ShortSession(handshake: seq<Byte>, driver: Driver)
    requires |handshake| <= 256 * 16777215
    ensures var input := Wire(LOGIN, 1, Wire(SET_NAMES_COMMAND, 0, Wire([1], 0, [])));
            var run := RunOf(handshake, input, driver);
            run.quits && run.rest == [] && run.output == Frame(handshake, 0) + OkReply(2) + OkReply(1)
  {
    hide *;
    var quit := Wire([1], 0, []);
    var commands := Wire(SET_NAMES_COMMAND, 0, quit);
    LoginIsOrdinary();
    OrdinaryLoginAnswered(handshake, 512, 16777216, 33, seq(23, _ => 0), [114, 111, 111, 116], [], [],
                          1, commands, driver);
    SetNamesAnswered(0, quit, 0, driver);
    QuitEnds([], 0, [], 1, driver);
    assert [1] + [] == [1 as Byte];
    assert OkReply(1) + [] == OkReply(1);
    assert Frame(handshake, 0) + OkReply(2) + (OkReply(1) + []) == Frame(handshake, 0) + OkReply(2) + OkReply(1);
  }
}
