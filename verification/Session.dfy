/** fxmy_worker: one connection from the handshake to the quit command. */
module Session {
  import opened CStrings
  import opened Encoding
  import opened XferBuffers
  import opened Framing
  import opened Connections
  import opened Utf8
  import opened Query
  import opened Auth

  // ----- the outside world -----

  /** The driver's answer to a request: a status, and whether a result set with rows came with it. */
  datatype Answer = Answer(status: Status, rows: bool)

  /** The driver, asked for the nth time with a text: a database name, or a statement. */
  type Driver = (nat, seq<WChar>) -> Answer

  const DEFAULT_ERROR := Status(0xFF, 1146, Some(['4' as int, '2' as int, 'S' as int, '0' as int, '2' as int]),
                                Some(['E' as int, 'R' as int, 'R' as int, 'O' as int, 'R' as int]))

  const COM_QUIT: nat := 1
  const COM_INIT_DB: nat := 2
  const COM_QUERY: nat := 3
  const COM_SET_OPTION: nat := 27
  const CLIENT_CONNECT_WITH_DB: nat := 8

  // ----- what a command comes to -----

  datatype Reaction = Quits | Stops | Replies(status: Status)

  /** A zeroed wide buffer after the conversion into it. */
  function Widened(codes: seq<WChar>, length: nat): seq<WChar>
    requires |codes| <= length
  {
    codes + seq(length - |codes|, _ => 0)
  }

  /** The statement succeeded and its result set is not empty, for which the program has no code. */
  predicate Fetches(answer: Answer) {
    answer.status.header == 0 && answer.rows
  }

  /** A failed statement is reported; the program has no code for one that succeeds. */
  function Told(status: Status): Reaction {
    if status.header == 0 then Stops else Replies(status)
  }

  /**
   * The status a judged query leaves behind. A failure to list the tables is not reported; a failure to describe one
   * is.
   */
  function AnswerTo(verdict: Verdict, text: seq<WChar>, turn: nat, driver: Driver): Reaction {
    match verdict
    case Acknowledged => Replies(OK_STATUS)
    case Aborts => Stops
    case Faults => Stops
    case Refused => Replies(DEFAULT_ERROR)
    case Describes => if Fetches(driver(turn, text)) then Stops else Replies(driver(turn, text).status)
    case ShowsTables => if Fetches(driver(turn, text)) then Stops else Replies(OK_STATUS)
    case Executes(sql) => Told(driver(turn, sql).status)
  }

  ghost function ReactToQuery(m: seq<Byte>, turn: nat, driver: Driver): Reaction
    requires 2 <= |m|
  {
    match Convert(m, 1, |m| - 1)
    case Aborted => Stops
    case Faulted => Stops
    case Done(codes) =>
      var wide := Widened(codes, |m| - 1);
      var n := StrLen(wide);
      if n == |wide| then Stops else AnswerTo(Judge(wide[..n], wide[n + 1..]), wide[..n], turn, driver)
  }

  /** A command packet: its first byte selects what is done with the rest. An empty one reads its terminator. */
  ghost function React(payload: seq<Byte>, turn: nat, driver: Driver): Reaction {
    var m := payload + [0];
    if payload == [] then Stops
    else if m[0] == COM_QUIT then Quits
    else if m[0] == COM_INIT_DB then
      match Convert(m, 1, |payload|)
      case Done(codes) => Replies(driver(turn, codes).status)
      case _ => Stops
    else if m[0] == COM_QUERY then ReactToQuery(m, turn, driver)
    else if m[0] == COM_SET_OPTION && |m| >= 3 then Replies(OK_STATUS)
    else Stops
  }

  /** The database name and the option word after a command. */
  function DatabaseAfter(payload: seq<Byte>, before: Option<seq<WChar>>): Option<seq<WChar>> {
    if payload != [] && payload[0] == COM_INIT_DB && Convert(payload + [0], 1, |payload|).Done? then
      Some(Widened(Convert(payload + [0], 1, |payload|).codes, |payload|))
    else before
  }

  function OptionAfter(payload: seq<Byte>, before: nat): nat {
    if payload != [] && payload[0] == COM_SET_OPTION && |payload| >= 2 then FromLe((payload + [0])[1..3]) else before
  }

  /** Whether the login is taken. With a database name in it, the name must convert up to and with its terminator. */
  predicate AuthAccepted(payload: seq<Byte>) {
    var m := payload + [0];
    match AuthWalk(m, |payload|)
    case Value(fields, _) =>
      fields.clientFlags / CLIENT_CONNECT_WITH_DB % 2 == 1 ==>
        StrLen(m) + 1 <= |m| && Convert(m, 0, StrLen(m) + 1).Done?
    case _ => false
  }

  // ----- the course of a session -----

  /** A payload that went out, or a packet that came in and what the program made of it. */
  datatype Event =
    | Sent(number: Byte, payload: seq<Byte>)
    | Received(number: Byte, payload: seq<Byte>, reaction: Reaction)

  /** The number of the response to a packet. */
  function Reply(number: Byte): Byte {
    (number as int + 1) % 0x100
  }

  /** The payload goes out in at most 256 packets. */
  predicate Fits(payload: seq<Byte>) {
    PacketCount(|payload|) <= 256
  }

  /** A turn of the command loop on a wire: the next packet's reaction, if there is one and it can be answered. */
  ghost function Served(wire: seq<Byte>, turn: nat, driver: Driver): (r: Reaction)
    ensures r != Stops ==> TakePacket(wire).Some?
  {
    match TakePacket(wire)
    case None => Stops
    case Some((packet, _)) => Answerable(React(packet.payload, turn, driver))
  }

  function Answerable(reaction: Reaction): Reaction {
    if reaction.Replies? && !Fits(OkOf(reaction.status, 0, 0)) then Stops else reaction
  }

  /**
   * A run: its events, the bytes it sends, the input behind the packets of its events, and whether it ends by itself. A
   * packet that stops the program is not among the events.
   */
  datatype Run = Run(events: seq<Event>, output: seq<Byte>, rest: seq<Byte>, quits: bool)

  /** The events of a packet and its response. */
  function Round(packet: Packet, status: Status): seq<Event> {
    [Received(packet.number, packet.payload, Replies(status)), Sent(Reply(packet.number), OkOf(status, 0, 0))]
  }

  /** A packet and its response, then more. */
  function Then(packet: Packet, status: Status, more: Run): Run {
    more.(events := Round(packet, status) + more.events,
          output := Frame(OkOf(status, 0, 0), packet.number as int + 1) + more.output)
  }

  /** The run of the command loop on a wire. */
  ghost function Commands(wire: seq<Byte>, turn: nat, driver: Driver): Run
    decreases |wire|
  {
    match Served(wire, turn, driver)
    case Stops => Run([], [], wire, false)
    case Quits =>
      var (packet, rest) := TakePacket(wire).value;
      Run([Received(packet.number, packet.payload, Quits)], [], rest, true)
    case Replies(status) =>
      var (packet, rest) := TakePacket(wire).value;
      Then(packet, status, Commands(rest, turn + 1, driver))
  }

  /** The input begins with a login that is taken. */
  predicate LoginTaken(input: seq<Byte>) {
    TakePacket(input).Some? && AuthAccepted(TakePacket(input).value.0.payload)
  }

  /** The run of a whole session: handshake, login, commands. */
  ghost function RunOf(handshake: seq<Byte>, input: seq<Byte>, driver: Driver): Run {
    if !Fits(handshake) then Run([], [], input, false)
    else
      var more := if LoginTaken(input) then
                    var (packet, rest) := TakePacket(input).value;
                    Then(packet, OK_STATUS, Commands(rest, 0, driver))
                  else Run([], [], input, false);
      more.(events := [Sent(0, handshake)] + more.events, output := Frame(handshake, 0) + more.output)
  }

  // ----- the program -----

  /** The payload of the response to the result fields. */
  function ResultPayload(code: U64, status: Status, rows: U64, id: U64): seq<Byte> {
    if code == 0 then OkOf(status, rows, id) else ErrOf(status)
  }

  /** fxmy_send_result: the response for the connection's result fields, in a buffer of its own. */
  method SendResult(conn: Connection) returns (ok: bool)
    requires conn.status.Some?
    modifies conn`packetNumber, conn`clobbers, conn`outgoing, conn.xfer
    ensures var payload :=
              ResultPayload(conn.columnCountErrorCode, conn.status.value, conn.affectedRows, conn.insertId);
            && (ok <==> conn.columnCountErrorCode in {0, FXMY_ERROR} && Fits(payload))
            && conn.outgoing == old(conn.outgoing) + if ok then Frame(payload, old(conn.packetNumber)) else []
    ensures ok ==> conn.packetNumber == (old(conn.packetNumber) + 1) % 0x1_0000_0000 && conn.xfer.Empty()
    ensures conn.clobbers == old(conn.clobbers)
  {
    conn.xfer.Reset();
    var status := conn.status.value;
    var payload: seq<Byte>;
    if conn.columnCountErrorCode == 0 {
      payload := SerializeOk(status, conn.affectedRows, conn.insertId);
    } else if conn.columnCountErrorCode == FXMY_ERROR {
      payload := SerializeErr(status);
    } else {
      assert conn.outgoing + [] == conn.outgoing;
      return false;
    }
    ok := conn.Send(payload);
    assert conn.outgoing + [] == conn.outgoing;
  }

  /** Pieces written one behind the other. */
  lemma Regroup<T>(a: seq<T>, b: seq<T>, c: seq<T>, d: seq<T>, e: seq<T>, f: seq<T>)
    ensures [] + a + b + c + d + e + f == a + (b + (c + (d + (e + f))))
  {
  }

  method SerializeOk(status: Status, rows: U64, id: U64) returns (payload: seq<Byte>)
    ensures payload == OkOf(status, rows, id)
  {
    var temp := new XferBuffer();
    temp.SerializeU8(status.header);
    temp.SerializeLcb(rows);
    temp.SerializeLcb(id);
    temp.SerializeU16(0);
    temp.SerializeU16(0);
    temp.SerializeString(status.message);
    payload := temp.memory[..temp.cursor];
    Regroup([status.header], Lcb(rows), Lcb(id), Le(0, 2), Le(0, 2), OrEmpty(status.message));
  }

  method SerializeErr(status: Status) returns (payload: seq<Byte>)
    ensures payload == ErrOf(status)
  {
    var temp := new XferBuffer();
    temp.SerializeU8(status.header);
    temp.SerializeU16(status.code);
    temp.SerializeString(Some(['#' as int]));
    temp.SerializeString(status.sqlState);
    temp.SerializeString(status.message);
    payload := temp.memory[..temp.cursor];
    Regroup([status.header], Le(status.code, 2), ['#' as int], OrEmpty(status.sqlState), OrEmpty(status.message), []);
    assert payload + [] == payload && OrEmpty(status.message) + [] == OrEmpty(status.message);
  }

  /** fxmy_handle_query on the bytes behind the command byte; the last byte of m is the terminator. */
  method HandleQuery(conn: Connection, m: seq<Byte>, turn: nat, driver: Driver) returns (ok: bool)
    requires 2 <= |m|
    modifies conn`status
    ensures match ReactToQuery(m, turn, driver)
            case Replies(status) => ok && conn.status == Some(status)
            case _ => !ok
  {
    hide ReactToQuery, Convert, Widened, Judge, AnswerTo;
    QueryReaction(m, turn, driver);
    var converted, wide := Widen(m);
    if !converted {
      return false;
    }
    var text := ReadText(wide);
    assert wide[..][|m| - 2] == 0;
    var verdict := JudgeQuery(wide, text.value);
    var reaction := AnswerTo(verdict, text.value, turn, driver);
    if !reaction.Replies? {
      return false;
    }
    conn.status := Some(reaction.status);
    return true;
  }

  lemma QueryReaction(m: seq<Byte>, turn: nat, driver: Driver)
    requires 2 <= |m|
    ensures match Convert(m, 1, |m| - 1)
            case Done(codes) =>
              var wide := Widened(codes, |m| - 1);
              var n := StrLen(wide);
              n < |wide| ==>
                ReactToQuery(m, turn, driver) == AnswerTo(Judge(wide[..n], wide[n + 1..]), wide[..n], turn, driver)
            case _ => ReactToQuery(m, turn, driver) == Stops
  {
    hide AnswerTo, Judge;
  }

  /** The query's bytes converted into a zeroed wide buffer, with a terminator behind them. */
  method Widen(m: seq<Byte>) returns (ok: bool, wide: array<WChar>)
    requires 2 <= |m|
    ensures ok <==> Convert(m, 1, |m| - 1).Done?
    ensures fresh(wide) && wide.Length == |m| - 1
    ensures ok ==> wide[..] == Widened(Convert(m, 1, |m| - 1).codes, |m| - 1) && wide[|m| - 2] == 0
  {
    var n := |m| - 2;
    wide := new WChar[n + 1](_ => 0);
    var converted := StrFromChar(wide, m, 1, n);
    if !converted.Done? {
      return false, wide;
    }
    wide[n] := 0;
    WidenedBuffer(wide[..], converted.codes, n + 1);
    return true, wide;
  }

  lemma WidenedBuffer(b: seq<WChar>, codes: seq<WChar>, length: nat)
    requires |codes| <= length == |b| && b[..|codes|] == codes && forall k :: |codes| <= k < length ==> b[k] == 0
    ensures b == Widened(codes, length)
  {
    assert b == b[..|codes|] + b[|codes|..];
  }

  /** fxmy_handle_command_packet: receives a command and carries it out. */
  method HandleCommand(conn: Connection, turn: nat, driver: Driver) returns (reaction: Reaction)
    requires conn.status == Some(OK_STATUS)
    modifies conn`packetNumber, conn`clobbers, conn`incoming, conn`status, conn`database, conn`multiStatementsOff
    modifies conn.xfer
    ensures TakePacket(old(conn.incoming)).None? ==> reaction == Stops
    ensures TakePacket(old(conn.incoming)).Some? ==>
              var (packet, rest) := TakePacket(old(conn.incoming)).value;
              && reaction == React(packet.payload, turn, driver)
              && (reaction != Stops ==>
                    && conn.incoming == rest && conn.packetNumber == packet.number as int + 1
                    && conn.database == DatabaseAfter(packet.payload, old(conn.database))
                    && conn.multiStatementsOff == OptionAfter(packet.payload, old(conn.multiStatementsOff)))
    ensures reaction.Replies? ==> conn.status == Some(reaction.status)
    ensures old(conn.xfer.memory) == null ==> conn.clobbers == old(conn.clobbers)
  {
    var ok := conn.Recv();
    if !ok {
      return Stops;
    }
    var m := conn.xfer.memory[..];
    var size := conn.xfer.size;
    ghost var payload := TakePacket(old(conn.incoming)).value.0.payload;
    assert m == payload + [0] && |m| == size + 1;
    var command := m[0];
    if size == 0 {
      return Stops;
    }
    assert command == payload[0];
    if command == COM_QUIT {
      return Quits;
    } else if command == COM_INIT_DB {
      var database := new WChar[size](_ => 0);
      var converted := StrFromChar(database, m, 1, size - 1);
      if !converted.Done? {
        return Stops;
      }
      WidenedBuffer(database[..], converted.codes, size);
      conn.database := Some(database[..]);
      conn.status := Some(driver(turn, converted.codes).status);
      return Replies(conn.status.value);
    } else if command == COM_QUERY {
      ok := HandleQuery(conn, m, turn, driver);
      return if ok then Replies(conn.status.value) else Stops;
    } else if command == COM_SET_OPTION && size >= 2 {
      conn.multiStatementsOff := FromLe(m[1..3]);
      return Replies(conn.status.value);
    }
    return Stops;
  }

  /** fxmy_recv_auth_packet: receives the login and takes it apart. */
  method RecvAuth(conn: Connection, driver: Driver) returns (ok: bool)
    modifies conn`packetNumber, conn`clobbers, conn`incoming, conn`status, conn`database
    modifies conn`clientFlags, conn`maxPacketSize, conn`charset, conn.xfer
    ensures ok ==> TakePacket(old(conn.incoming)).Some?
    ensures TakePacket(old(conn.incoming)).Some? ==>
              var (packet, rest) := TakePacket(old(conn.incoming)).value;
              && (ok <==> AuthAccepted(packet.payload))
              && (ok ==>
                    && conn.incoming == rest && conn.packetNumber == packet.number as int + 1
                    && AuthWalk(packet.payload + [0], |packet.payload|).value ==
                       AuthFields(conn.clientFlags, conn.maxPacketSize, conn.charset))
    ensures old(conn.xfer.memory) == null ==> conn.clobbers == old(conn.clobbers)
  {
    ok := conn.Recv();
    if !ok {
      return;
    }
    var m := conn.xfer.memory[..];
    ghost var payload := TakePacket(old(conn.incoming)).value.0.payload;
    assert m == payload + [0];
    var parsed := ParseAuth(conn.xfer);
    if !parsed.Value? {
      return false;
    }
    conn.clientFlags, conn.maxPacketSize, conn.charset :=
      parsed.value.clientFlags, parsed.value.maxPacketSize, parsed.value.charset;
    if conn.clientFlags / CLIENT_CONNECT_WITH_DB % 2 == 1 {
      ok := ConnectWithDatabase(conn, m, driver);
    }
  }

  /** The database branch of the login: the name is converted up to and with its terminator. */
  method ConnectWithDatabase(conn: Connection, m: seq<Byte>, driver: Driver) returns (ok: bool)
    requires m != [] && m[|m| - 1] == 0
    modifies conn`status, conn`database
    ensures ok <==> StrLen(m) + 1 <= |m| && Convert(m, 0, StrLen(m) + 1).Done?
  {
    var size := StrLen(m) + 1;
    assert StrLen(m) < |m|;
    var database := new WChar[size](_ => 0);
    var converted := StrFromChar(database, m, 0, size);
    if !converted.Done? {
      return false;
    }
    conn.database := Some(database[..]);
    conn.status := Some(driver(0, converted.codes).status);
    return true;
  }

  /** The login behind the handshake, and the OK. */
  method AnswerLogin(conn: Connection, driver: Driver) returns (ok: bool)
    requires conn.xfer.Empty() && conn.columnCountErrorCode == conn.affectedRows == conn.insertId == 0
    modifies conn, conn.xfer
    ensures ok <==> LoginTaken(old(conn.incoming))
    ensures !ok ==> conn.outgoing == old(conn.outgoing)
    ensures ok ==>
              var (packet, rest) := TakePacket(old(conn.incoming)).value;
              && conn.incoming == rest && conn.AtRest()
              && conn.outgoing == old(conn.outgoing) + Frame(OkOf(OK_STATUS, 0, 0), packet.number as int + 1)
    ensures conn.clobbers == old(conn.clobbers)
  {
    ok := RecvAuth(conn, driver);
    if !ok {
      return;
    }
    OkFits();
    ok := SendOk(conn);
  }

  lemma OkFits()
    ensures Fits(OkOf(OK_STATUS, 0, 0))
  {
  }

  /** The response that ends the login. */
  method SendOk(conn: Connection) returns (ok: bool)
    requires conn.columnCountErrorCode == conn.affectedRows == conn.insertId == 0
    modifies conn`status, conn`packetNumber, conn`clobbers, conn`outgoing, conn.xfer
    ensures ok <==> Fits(OkOf(OK_STATUS, 0, 0))
    ensures ok ==>
              && conn.AtRest()
              && conn.outgoing == old(conn.outgoing) + Frame(OkOf(OK_STATUS, 0, 0), old(conn.packetNumber))
    ensures conn.clobbers == old(conn.clobbers)
  {
    conn.status := Some(OK_STATUS);
    ok := SendResult(conn);
  }

  /** Handshake, login and the OK behind it. */
  method Login(conn: Connection, handshake: seq<Byte>, driver: Driver) returns (ok: bool)
    requires conn.xfer.Empty() && conn.packetNumber == 0
    requires conn.columnCountErrorCode == conn.affectedRows == conn.insertId == 0
    modifies conn, conn.xfer
    ensures ok <==> Fits(handshake) && LoginTaken(old(conn.incoming))
    ensures !Fits(handshake) ==> conn.outgoing == old(conn.outgoing)
    ensures Fits(handshake) && !ok ==> conn.outgoing == old(conn.outgoing) + Frame(handshake, 0)
    ensures ok ==>
              var (packet, rest) := TakePacket(old(conn.incoming)).value;
              && conn.incoming == rest && conn.AtRest()
              && conn.outgoing == old(conn.outgoing) + Frame(handshake, 0) +
                                  Frame(OkOf(OK_STATUS, 0, 0), packet.number as int + 1)
    ensures conn.clobbers == old(conn.clobbers)
  {
    hide LoginTaken, TakePacket, OkOf, Frame;
    ok := conn.Send(handshake);
    if ok {
      ok := AnswerLogin(conn, driver);
    }
  }

  /** fxmy_reset_transient_state */
  method ResetTransientState(conn: Connection)
    modifies conn`columnCountErrorCode, conn`affectedRows, conn`insertId, conn`status
    ensures conn.columnCountErrorCode == conn.affectedRows == conn.insertId == 0 && conn.status == Some(OK_STATUS)
  {
    conn.columnCountErrorCode, conn.affectedRows, conn.insertId := 0, 0, 0;
    conn.status := Some(OK_STATUS);
  }

  /** One round of the command loop: a command, and its response if it has one. */
  method Serve(conn: Connection, driver: Driver, turn: nat) returns (reaction: Reaction)
    requires conn.AtRest()
    modifies conn, conn.xfer
    ensures reaction == Served(old(conn.incoming), turn, driver)
    ensures reaction != Stops ==> conn.incoming == TakePacket(old(conn.incoming)).value.1
    ensures !reaction.Replies? ==> conn.outgoing == old(conn.outgoing)
    ensures reaction.Replies? ==>
              && conn.AtRest()
              && conn.outgoing == old(conn.outgoing) +
                   Frame(OkOf(reaction.status, 0, 0), TakePacket(old(conn.incoming)).value.0.number as int + 1)
    ensures conn.clobbers == old(conn.clobbers)
  {
    reaction := HandleCommand(conn, turn, driver);
    if reaction.Replies? {
      var ok := SendResult(conn);
      if !ok {
        return Stops;
      }
      ResetTransientState(conn);
    }
  }

  /** Commands and responses until a quit command or the end of the program. */
  method CommandLoop(conn: Connection, driver: Driver) returns (quit: bool)
    requires conn.AtRest()
    modifies conn, conn.xfer
    ensures var run := Commands(old(conn.incoming), 0, driver);
            && (quit <==> run.quits) && conn.outgoing == old(conn.outgoing) + run.output
            && (quit ==> conn.incoming == run.rest)
    ensures conn.clobbers == old(conn.clobbers)
  {
    hide Served, Commands, Ahead;
    ghost var run := Commands(conn.incoming, 0, driver);
    AllAhead(run, conn.outgoing);
    var turn := 0;
    while true
      invariant conn.AtRest() && conn.clobbers == old(conn.clobbers)
      invariant Ahead(run, old(conn.outgoing), conn.outgoing, Commands(conn.incoming, turn, driver))
      decreases |conn.incoming|
    {
      ghost var wire, sent := conn.incoming, conn.outgoing;
      var reaction := Serve(conn, driver, turn);
      CommandStep(wire, turn, driver, run, old(conn.outgoing), sent);
      if !reaction.Replies? {
        return reaction == Quits;
      }
      turn := turn + 1;
    }
  }

  /** What is ahead and what has been sent since `before` make up the run. */
  ghost predicate Ahead(run: Run, before: seq<Byte>, sent: seq<Byte>, ahead: Run) {
    run.quits == ahead.quits && run.rest == ahead.rest && before + run.output == sent + ahead.output
  }

  lemma AllAhead(run: Run, before: seq<Byte>)
    ensures Ahead(run, before, before, run)
  {
  }

  /** One turn of the loop is one step of the run. */
  lemma CommandStep(wire: seq<Byte>, turn: nat, driver: Driver, run: Run, before: seq<Byte>, sent: seq<Byte>)
    requires Ahead(run, before, sent, Commands(wire, turn, driver))
    ensures match Served(wire, turn, driver)
            case Stops => !run.quits && before + run.output == sent
            case Quits => run.quits && run.rest == TakePacket(wire).value.1 && before + run.output == sent
            case Replies(status) =>
              var (packet, rest) := TakePacket(wire).value;
              Ahead(run, before, sent + Frame(OkOf(status, 0, 0), packet.number as int + 1),
                    Commands(rest, turn + 1, driver))
  {
    assert sent + [] == sent;
    match Served(wire, turn, driver)
    case Replies(status) =>
      var (packet, rest) := TakePacket(wire).value;
      Associate(sent, Frame(OkOf(status, 0, 0), packet.number as int + 1), Commands(rest, turn + 1, driver).output);
    case _ =>
  }

  /**
   * The whole life of a connection: whatever the client sends and the driver answers, it quits exactly when its run
   * does, has then sent exactly the run's bytes and left the run's rest of the input, and in no run is a send skipped
   * or a buffer in use overwritten.
   */
  method Worker(conn: Connection, handshake: seq<Byte>, driver: Driver) returns (quit: bool)
    requires conn.xfer.Empty() && conn.packetNumber == 0 && conn.outgoing == []
    requires conn.columnCountErrorCode == conn.affectedRows == conn.insertId == 0
    modifies conn, conn.xfer
    ensures var run := RunOf(handshake, old(conn.incoming), driver);
            (quit <==> run.quits) && conn.outgoing == run.output && (quit ==> conn.incoming == run.rest && conn.done)
    ensures conn.clobbers == old(conn.clobbers)
  {
    hide *;
    RunStarts(handshake, conn.incoming, driver);
    quit := Login(conn, handshake, driver);
    if quit {
      quit := CommandLoop(conn, driver);
      conn.done := quit;
    }
  }

  /** The three ways a run starts. */
  lemma RunStarts(handshake: seq<Byte>, input: seq<Byte>, driver: Driver)
    ensures var run := RunOf(handshake, input, driver);
            if !Fits(handshake) then !run.quits && run.output == []
            else if !LoginTaken(input) then !run.quits && run.output == Frame(handshake, 0)
            else
              var (packet, rest) := TakePacket(input).value;
              var more := Commands(rest, 0, driver);
              && run.quits == more.quits && run.rest == more.rest
              && run.output ==
                 Frame(handshake, 0) + Frame(OkOf(OK_STATUS, 0, 0), packet.number as int + 1) + more.output
  {
    hide AuthAccepted, Commands, Frame, OkOf;
    if Fits(handshake) {
      if LoginTaken(input) {
        var (packet, rest) := TakePacket(input).value;
        var ok := Frame(OkOf(OK_STATUS, 0, 0), packet.number as int + 1);
        Associate(Frame(handshake, 0), ok, Commands(rest, 0, driver).output);
      } else {
        assert Frame(handshake, 0) + [] == Frame(handshake, 0);
      }
    }
  }
}
