/** The session told as a trace: which traces are in order, true and complete, and that one is the program's run. */
module Traces {
  import opened CStrings
  import opened Encoding
  import opened Framing
  import opened Connections
  import opened Session

  // ----- traces -----

  /** Event i is what the protocol has at that place: the handshake, then packets and their responses in turn. */
  ghost predicate InPlace(trace: seq<Event>, i: nat, handshake: seq<Byte>)
    requires i < |trace|
  {
    if i == 0 then trace[0] == Sent(0, handshake)
    else if i % 2 == 1 then trace[i].Received?
    else
      && trace[i - 1].Received? && trace[i - 1].reaction.Replies?
      && trace[i] == Sent(Reply(trace[i - 1].number), OkOf(trace[i - 1].reaction.status, 0, 0))
  }

  ghost predicate Conforms(trace: seq<Event>, handshake: seq<Byte>) {
    forall i :: 0 <= i < |trace| ==> InPlace(trace, i, handshake)
  }

  /** The reaction noted for a packet is the one its place and its bytes call for. */
  ghost predicate TruthfulAt(e: Event, i: nat, driver: Driver) {
    match e
    case Sent(_, _) => true
    case Received(_, payload, reaction) =>
      if i <= 1 then reaction == Replies(OK_STATUS) && AuthAccepted(payload)
      else reaction == React(payload, i / 2 - 1, driver)
  }

  ghost predicate Truthful(trace: seq<Event>, driver: Driver) {
    forall i :: 0 <= i < |trace| ==> TruthfulAt(trace[i], i, driver)
  }

  /** The bytes sent in a trace. */
  function Output(trace: seq<Event>): seq<Byte> {
    if trace == [] then []
    else
      var e := trace[|trace| - 1];
      Output(trace[..|trace| - 1]) + if e.Sent? then Frame(e.payload, e.number) else []
  }

  /** What is left of the input after the packets received in a trace, if these are the packets it begins with. */
  function Unread(input: seq<Byte>, trace: seq<Event>): Option<seq<Byte>> {
    if trace == [] then Some(input)
    else After(Unread(input, trace[..|trace| - 1]), trace[|trace| - 1])
  }

  function After(wire: Option<seq<Byte>>, e: Event): Option<seq<Byte>> {
    if wire.None? || e.Sent? then wire
    else
      match TakePacket(wire.value)
      case None => None
      case Some((p, rest)) => if p == Packet(e.number, e.payload) then Some(rest) else None
  }

  lemma OneMoreEvent(trace: seq<Event>, e: Event, handshake: seq<Byte>, input: seq<Byte>)
    requires Conforms(trace, handshake) && InPlace(trace + [e], |trace|, handshake)
    ensures Conforms(trace + [e], handshake)
    ensures Output(trace + [e]) == Output(trace) + if e.Sent? then Frame(e.payload, e.number) else []
    ensures Unread(input, trace + [e]) == After(Unread(input, trace), e)
  {
    var t := trace + [e];
    assert t[..|t| - 1] == trace;
    forall i | 0 <= i < |t| ensures InPlace(t, i, handshake) {
      if i < |trace| {
        assert InPlace(trace, i, handshake);
      }
    }
  }

  lemma {:induction false} FrameNumber(data: seq<Byte>, number: nat)
    ensures Frame(data, number) == Frame(data, number % 0x100)
  {
    if data == [] {
    } else {
      FrameNumber(data[ChunkLength(|data|)..], number);
    }
  }

  /** The trace is in order and accounts for the bytes received and sent. */
  ghost predicate Accounts(trace: seq<Event>, handshake: seq<Byte>, input: seq<Byte>,
                           incoming: seq<Byte>, outgoing: seq<Byte>) {
    Conforms(trace, handshake) && Unread(input, trace) == Some(incoming) && Output(trace) == outgoing
  }

  /** The trace is in order and its packets are the first ones of the input. */
  ghost predicate Begun(trace: seq<Event>, handshake: seq<Byte>, input: seq<Byte>) {
    Conforms(trace, handshake) && Unread(input, trace).Some?
  }

  lemma SendAccounted(trace: seq<Event>, handshake: seq<Byte>, input: seq<Byte>,
                      incoming: seq<Byte>, outgoing: seq<Byte>, number: nat, payload: seq<Byte>)
    requires Accounts(trace, handshake, input, incoming, outgoing)
    requires InPlace(trace + [Sent(number % 0x100, payload)], |trace|, handshake)
    ensures Accounts(trace + [Sent(number % 0x100, payload)], handshake, input, incoming,
                     outgoing + Frame(payload, number))
  {
    FrameNumber(payload, number);
    OneMoreEvent(trace, Sent(number % 0x100, payload), handshake, input);
  }

  lemma ReceiveAccounted(trace: seq<Event>, handshake: seq<Byte>, input: seq<Byte>, incoming: seq<Byte>,
                         outgoing: seq<Byte>, packet: Packet, rest: seq<Byte>, reaction: Reaction)
    requires Accounts(trace, handshake, input, incoming, outgoing)
    requires |trace| % 2 == 1 && TakePacket(incoming) == Some((packet, rest))
    ensures Accounts(trace + [Received(packet.number, packet.payload, reaction)], handshake, input, rest, outgoing)
  {
    OneMoreEvent(trace, Received(packet.number, packet.payload, reaction), handshake, input);
    assert outgoing + [] == outgoing;
  }

  lemma RespondAccounted(trace: seq<Event>, handshake: seq<Byte>, input: seq<Byte>, incoming: seq<Byte>,
                         outgoing: seq<Byte>, packet: Packet, status: Status)
    requires Accounts(trace, handshake, input, incoming, outgoing) && |trace| > 0 && |trace| % 2 == 0
    requires trace[|trace| - 1] == Received(packet.number, packet.payload, Replies(status))
    ensures Accounts(trace + [Sent(Reply(packet.number), OkOf(status, 0, 0))], handshake, input, incoming,
                     outgoing + Frame(OkOf(status, 0, 0), packet.number as int + 1))
  {
    SendAccounted(trace, handshake, input, incoming, outgoing, packet.number as int + 1, OkOf(status, 0, 0));
  }

  /** A packet and its response are the next two events. */
  lemma RoundAccounted(trace: seq<Event>, handshake: seq<Byte>, input: seq<Byte>, incoming: seq<Byte>,
                       outgoing: seq<Byte>, packet: Packet, rest: seq<Byte>, status: Status)
    requires Accounts(trace, handshake, input, incoming, outgoing) && |trace| % 2 == 1
    requires TakePacket(incoming) == Some((packet, rest))
    ensures Accounts(trace + Round(packet, status), handshake, input, rest,
                     outgoing + Frame(OkOf(status, 0, 0), packet.number as int + 1))
  {
    hide Accounts;
    ReceiveAccounted(trace, handshake, input, incoming, outgoing, packet, rest, Replies(status));
    var t := trace + [Received(packet.number, packet.payload, Replies(status))];
    RespondAccounted(t, handshake, input, rest, outgoing, packet, status);
    assert t + [Sent(Reply(packet.number), OkOf(status, 0, 0))] == trace + Round(packet, status);
  }

  lemma TruthfulRound(trace: seq<Event>, packet: Packet, status: Status, driver: Driver)
    requires Truthful(trace, driver)
    requires TruthfulAt(Received(packet.number, packet.payload, Replies(status)), |trace|, driver)
    ensures Truthful(trace + Round(packet, status), driver)
  {
    hide React, AuthAccepted, OkOf;
    var e := Received(packet.number, packet.payload, Replies(status));
    assert forall i :: 0 <= i < |trace| ==> (trace + Round(packet, status))[i] == trace[i];
    assert (trace + Round(packet, status))[|trace|] == e;
  }

  lemma TruthfulEvent(trace: seq<Event>, e: Event, driver: Driver)
    requires Truthful(trace, driver) && TruthfulAt(e, |trace|, driver)
    ensures Truthful(trace + [e], driver)
  {
    assert forall i :: 0 <= i < |trace| ==> (trace + [e])[i] == trace[i];
  }

  // ----- the run of the program -----

  /** The last event is a command that quits. */
  ghost predicate Finished(trace: seq<Event>) {
    trace != [] && trace[|trace| - 1].Received? && trace[|trace| - 1].reaction == Quits
  }

  /** Everything sent went out. */
  ghost predicate AllFit(trace: seq<Event>) {
    forall e :: e in trace && e.Sent? ==> Fits(e.payload)
  }

  /** Whatever the runs from here on add, the session stays in order, true and accounted for. */
  ghost predicate Faithful(trace: seq<Event>, handshake: seq<Byte>, input: seq<Byte>,
                           incoming: seq<Byte>, outgoing: seq<Byte>, driver: Driver) {
    Accounts(trace, handshake, input, incoming, outgoing) && Truthful(trace, driver) && AllFit(trace)
  }

  lemma FaithfulQuit(before: seq<Event>, handshake: seq<Byte>, input: seq<Byte>, wire: seq<Byte>, sent: seq<Byte>,
                     turn: nat, packet: Packet, rest: seq<Byte>, driver: Driver)
    requires Faithful(before, handshake, input, wire, sent, driver) && |before| == 2 * turn + 3
    requires TakePacket(wire) == Some((packet, rest)) && React(packet.payload, turn, driver) == Quits
    ensures Faithful(before + [Received(packet.number, packet.payload, Quits)], handshake, input, rest, sent, driver)
  {
    hide React, Accounts, Truthful;
    ReceiveAccounted(before, handshake, input, wire, sent, packet, rest, Quits);
    TruthfulEvent(before, Received(packet.number, packet.payload, Quits), driver);
  }

  /** A packet whose reaction is the one its place calls for, and a response that fits. */
  lemma FaithfulRound(before: seq<Event>, handshake: seq<Byte>, input: seq<Byte>, wire: seq<Byte>, sent: seq<Byte>,
                      packet: Packet, rest: seq<Byte>, status: Status, driver: Driver)
    requires Faithful(before, handshake, input, wire, sent, driver) && |before| % 2 == 1
    requires TakePacket(wire) == Some((packet, rest)) && Fits(OkOf(status, 0, 0))
    requires TruthfulAt(Received(packet.number, packet.payload, Replies(status)), |before|, driver)
    ensures Faithful(before + Round(packet, status), handshake, input, rest,
                     sent + Frame(OkOf(status, 0, 0), packet.number as int + 1), driver)
  {
    hide Accounts, Truthful, TruthfulAt;
    RoundAccounted(before, handshake, input, wire, sent, packet, rest, status);
    TruthfulRound(before, packet, status, driver);
  }

  /** The run of the command loop carries a session on in order, truly, and up to the byte. */
  lemma {:induction false} CommandsAreFaithful(before: seq<Event>, handshake: seq<Byte>, input: seq<Byte>,
                                               wire: seq<Byte>, sent: seq<Byte>, turn: nat, driver: Driver)
    requires Faithful(before, handshake, input, wire, sent, driver) && |before| == 2 * turn + 3
    ensures var run := Commands(wire, turn, driver);
            Faithful(before + run.events, handshake, input, run.rest, sent + run.output, driver)
    decreases |wire|
  {
    hide React, Faithful, OkOf, Frame;
    match Served(wire, turn, driver)
    case Stops =>
      assert before + [] == before && sent + [] == sent;
    case Quits =>
      var (packet, rest) := TakePacket(wire).value;
      FaithfulQuit(before, handshake, input, wire, sent, turn, packet, rest, driver);
      assert sent + [] == sent;
    case Replies(status) =>
      var (packet, rest) := TakePacket(wire).value;
      var response := Frame(OkOf(status, 0, 0), packet.number as int + 1);
      FaithfulRound(before, handshake, input, wire, sent, packet, rest, status, driver);
      CommandsAreFaithful(before + Round(packet, status), handshake, input, rest, sent + response, turn + 1, driver);
      var more := Commands(rest, turn + 1, driver);
      Associate(before, Round(packet, status), more.events);
      Associate(sent, response, more.output);
  }

  /** A run of the command loop quits exactly when its last event is a quit command. */
  lemma {:induction false} QuitsAtTheEnd(wire: seq<Byte>, turn: nat, driver: Driver)
    ensures var run := Commands(wire, turn, driver); run.quits <==> Finished(run.events)
    decreases |wire|
  {
    hide React;
    match Served(wire, turn, driver)
    case Replies(status) =>
      var (packet, rest) := TakePacket(wire).value;
      QuitsAtTheEnd(rest, turn + 1, driver);
    case _ =>
  }

  /** The run of a whole session is in order, true and accounted for, and quits exactly when its trace does. */
  lemma RunIsFaithful(handshake: seq<Byte>, input: seq<Byte>, driver: Driver)
    ensures var run := RunOf(handshake, input, driver);
            && Faithful(run.events, handshake, input, run.rest, run.output, driver)
            && (run.quits <==> Finished(run.events))
  {
    hide AuthAccepted, Faithful, Commands;
    if Fits(handshake) {
      var opening := [Sent(0, handshake)];
      OpeningIsFaithful(handshake, input, driver);
      if LoginTaken(input) {
        var (packet, rest) := TakePacket(input).value;
        var more := Commands(rest, 0, driver);
        var response := Frame(OkOf(OK_STATUS, 0, 0), packet.number as int + 1);
        LoginIsFaithful(handshake, input, packet, rest, driver);
        CommandsAreFaithful(opening + Round(packet, OK_STATUS), handshake, input, rest,
                            Frame(handshake, 0) + response, 0, driver);
        Associate(opening, Round(packet, OK_STATUS), more.events);
        Associate(Frame(handshake, 0), response, more.output);
        QuitsAtTheEnd(rest, 0, driver);
      } else {
        assert opening + [] == opening && Frame(handshake, 0) + [] == Frame(handshake, 0);
      }
    } else {
      NothingIsFaithful(handshake, input, driver);
    }
  }

  lemma NothingIsFaithful(handshake: seq<Byte>, input: seq<Byte>, driver: Driver)
    ensures Faithful([], handshake, input, input, [], driver)
  {
  }

  lemma OpeningIsFaithful(handshake: seq<Byte>, input: seq<Byte>, driver: Driver)
    requires Fits(handshake)
    ensures Faithful([Sent(0, handshake)], handshake, input, input, Frame(handshake, 0), driver)
  {
    hide Accounts, Frame, AuthAccepted, React;
    NothingIsFaithful(handshake, input, driver);
    SendAccounted([], handshake, input, input, [], 0, handshake);
    assert [] + [Sent(0, handshake)] == [Sent(0, handshake)] && [] + Frame(handshake, 0) == Frame(handshake, 0);
  }

  lemma LoginIsFaithful(handshake: seq<Byte>, input: seq<Byte>, packet: Packet, rest: seq<Byte>, driver: Driver)
    requires Fits(handshake) && TakePacket(input) == Some((packet, rest)) && AuthAccepted(packet.payload)
    ensures Faithful([Sent(0, handshake)] + Round(packet, OK_STATUS), handshake, input, rest,
                     Frame(handshake, 0) + Frame(OkOf(OK_STATUS, 0, 0), packet.number as int + 1), driver)
  {
    hide AuthAccepted, React, Faithful;
    OpeningIsFaithful(handshake, input, driver);
    OkFits();
    FaithfulRound([Sent(0, handshake)], handshake, input, input, Frame(handshake, 0), packet, rest, OK_STATUS, driver);
  }

  // ----- one input, one session -----

  lemma {:induction false} BegunPrefix(trace: seq<Event>, k: nat, handshake: seq<Byte>, input: seq<Byte>)
    requires Begun(trace, handshake, input) && k <= |trace|
    ensures Begun(trace[..k], handshake, input)
    decreases |trace|
  {
    if k < |trace| {
      var before := trace[..|trace| - 1];
      forall i | 0 <= i < |before| ensures InPlace(before, i, handshake) {
        assert InPlace(trace, i, handshake);
      }
      BegunPrefix(before, k, handshake, input);
      assert before[..k] == trace[..k];
    } else {
      assert trace[..k] == trace;
    }
  }

  /** The event at k is settled by the events before it, the input and the driver. */
  lemma NextEventAgrees(t: seq<Event>, u: seq<Event>, k: nat, handshake: seq<Byte>, input: seq<Byte>, driver: Driver)
    requires Begun(t, handshake, input) && Begun(u, handshake, input) && Truthful(t, driver) && Truthful(u, driver)
    requires k < |t| && k < |u| && t[..k] == u[..k]
    ensures t[k] == u[k]
  {
    hide React, AuthAccepted, OkOf, TakePacket;
    assert InPlace(t, k, handshake) && InPlace(u, k, handshake);
    if k % 2 == 1 {
      BegunPrefix(t, k + 1, handshake, input);
      BegunPrefix(u, k + 1, handshake, input);
      assert t[..k + 1][..k] == t[..k] && u[..k + 1][..k] == u[..k];
      assert TruthfulAt(t[k], k, driver) && TruthfulAt(u[k], k, driver);
    } else if 0 < k {
      assert t[k - 1] == t[..k][k - 1] == u[..k][k - 1] == u[k - 1];
    }
  }

  lemma {:induction false} TracesAgree(t: seq<Event>, u: seq<Event>, k: nat,
                                       handshake: seq<Byte>, input: seq<Byte>, driver: Driver)
    requires Begun(t, handshake, input) && Begun(u, handshake, input) && Truthful(t, driver) && Truthful(u, driver)
    requires k <= |t| && k <= |u|
    ensures t[..k] == u[..k]
    decreases k
  {
    if k == 0 {
    } else {
      TracesAgree(t, u, k - 1, handshake, input, driver);
      NextEventAgrees(t, u, k - 1, handshake, input, driver);
      assert t[..k] == t[..k - 1] + [t[k - 1]] && u[..k] == u[..k - 1] + [u[k - 1]];
    }
  }

  lemma NextNeedsReply(trace: seq<Event>, handshake: seq<Byte>, i: nat)
    requires Conforms(trace, handshake) && i % 2 == 1 && i + 1 < |trace|
    ensures trace[i].Received? && trace[i].reaction.Replies?
  {
    assert InPlace(trace, i + 1, handshake);
  }

  /** Nothing follows a command that quits. */
  lemma QuitIsLast(trace: seq<Event>, handshake: seq<Byte>, i: nat)
    requires Conforms(trace, handshake) && i < |trace| && trace[i].Received? && trace[i].reaction == Quits
    ensures i == |trace| - 1
  {
    assert InPlace(trace, i, handshake);
    if i + 1 < |trace| {
      NextNeedsReply(trace, handshake, i);
    }
  }

  /** The client's bytes and the driver's answers leave room for one finished session only. */
  lemma SessionIsDetermined(t: seq<Event>, u: seq<Event>, handshake: seq<Byte>, input: seq<Byte>, driver: Driver)
    requires Begun(t, handshake, input) && Truthful(t, driver) && Finished(t)
    requires Begun(u, handshake, input) && Truthful(u, driver) && Finished(u)
    ensures t == u
  {
    hide Truthful, InPlace, Unread;
    var k := if |t| <= |u| then |t| else |u|;
    TracesAgree(t, u, k, handshake, input, driver);
    assert t[..k][k - 1] == t[k - 1] && u[..k][k - 1] == u[k - 1];
    if k == |t| {
      QuitIsLast(u, handshake, k - 1);
    } else {
      QuitIsLast(t, handshake, k - 1);
    }
    assert t[..|t|] == t && u[..|u|] == u;
  }

  // ----- no session but the program's -----

  /** The packet at an odd place is the next one of the input. */
  lemma PacketIsNext(trace: seq<Event>, i: nat, handshake: seq<Byte>, input: seq<Byte>, wire: seq<Byte>)
    requires Begun(trace, handshake, input) && i % 2 == 1 && i < |trace| && Unread(input, trace[..i]) == Some(wire)
    ensures trace[i].Received? && TakePacket(wire).Some?
    ensures TakePacket(wire).value.0 == Packet(trace[i].number, trace[i].payload)
    ensures Unread(input, trace[..i + 1]) == Some(TakePacket(wire).value.1)
  {
    assert InPlace(trace, i, handshake);
    BegunPrefix(trace, i + 1, handshake, input);
    assert trace[..i + 1][..i] == trace[..i];
  }

  /** A response leaves the input as it is, and answers the packet before it. */
  lemma ResponseIsNext(trace: seq<Event>, i: nat, handshake: seq<Byte>, input: seq<Byte>)
    requires Conforms(trace, handshake) && 0 < i < |trace| && i % 2 == 0
    ensures trace[i - 1].Received? && trace[i - 1].reaction.Replies?
    ensures trace[i].Sent? && trace[i].payload == OkOf(trace[i - 1].reaction.status, 0, 0)
    ensures Unread(input, trace[..i + 1]) == Unread(input, trace[..i])
  {
    assert InPlace(trace, i, handshake);
    assert trace[..i + 1][..i] == trace[..i];
  }

  /** The command loop follows a finished session to its end. */
  lemma {:induction false} LoopFollows(trace: seq<Event>, turn: nat, handshake: seq<Byte>, input: seq<Byte>,
                                       wire: seq<Byte>, driver: Driver)
    requires Begun(trace, handshake, input) && Truthful(trace, driver) && Finished(trace) && AllFit(trace)
    requires 2 * turn + 3 < |trace| && Unread(input, trace[..2 * turn + 3]) == Some(wire)
    ensures Commands(wire, turn, driver).quits
    decreases |trace| - turn
  {
    hide React, Begun, InPlace, Unread, AuthAccepted, OkOf, TakePacket;
    var i := 2 * turn + 3;
    PacketIsNext(trace, i, handshake, input, wire);
    assert TruthfulAt(trace[i], i, driver);
    if i + 1 < |trace| {
      BegunConforms(trace, handshake, input);
      ResponseIsNext(trace, i + 1, handshake, input);
      assert trace[i + 1] in trace;
      LoopFollows(trace, turn + 1, handshake, input, TakePacket(wire).value.1, driver);
    }
  }

  lemma BegunConforms(trace: seq<Event>, handshake: seq<Byte>, input: seq<Byte>)
    requires Begun(trace, handshake, input)
    ensures Conforms(trace, handshake)
  {
  }

  lemma ProgramFollows(trace: seq<Event>, handshake: seq<Byte>, input: seq<Byte>, driver: Driver)
    requires Begun(trace, handshake, input) && Truthful(trace, driver) && Finished(trace) && AllFit(trace)
    ensures RunOf(handshake, input, driver).quits
  {
    hide React, AuthAccepted, Commands;
    assert InPlace(trace, 0, handshake) && trace[0] in trace;
    assert trace[..1] == [Sent(0, handshake)];
    assert Unread(input, trace[..1]) == Some(input);
    PacketIsNext(trace, 1, handshake, input, input);
    assert TruthfulAt(trace[1], 1, driver);
    ResponseIsNext(trace, 2, handshake, input);
    LoopFollows(trace, 0, handshake, input, TakePacket(input).value.1, driver);
  }

  /**
   * The program's run is the one session there is: a trace is in order on the input, true to the bytes and the driver,
   * ends in a quit command and has no payload too long to send, exactly if the run quits and its events are this trace.
   */
  lemma RunIsTheSession(trace: seq<Event>, handshake: seq<Byte>, input: seq<Byte>, driver: Driver)
    ensures Begun(trace, handshake, input) && Truthful(trace, driver) && Finished(trace) && AllFit(trace) <==>
            RunOf(handshake, input, driver).quits && RunOf(handshake, input, driver).events == trace
  {
    hide RunOf, Truthful, AllFit, Conforms, Unread;
    RunIsFaithful(handshake, input, driver);
    if Begun(trace, handshake, input) && Truthful(trace, driver) && Finished(trace) && AllFit(trace) {
      ProgramFollows(trace, handshake, input, driver);
      SessionIsDetermined(trace, RunOf(handshake, input, driver).events, handshake, input, driver);
    }
  }
}
