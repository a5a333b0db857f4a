/** A connection step by step, in whatever state the harts and the debug modules are. */
module Serving {
  import opened Numbers
  import opened Hex
  import opened ExpansionBar
  import opened Framing
  import opened Dispatch
  import opened Session
  import opened Stubs

  /** What one event comes to; the connection ends after a detach, and Fatal is the end of the stub. */
  datatype Meeting = Met(stub: Stub, sent: Sent, last: bool) | Fatal

  /** The acknowledgement goes out before the packet is handled. */
  function Meet(s: Stub, keys: seq<Key>, event: Event): Meeting
    requires s.Valid()
  {
    match event
    case Bad => Met(s, Sent(AckFor(s.disableAck, event), []), false)
    case Packet(payload) =>
      match AnswerPacket(s, keys, payload)
      case Replied(s1, reply) =>
        Met(s1, Sent(AckFor(s.disableAck, event), ReplyBytes(reply)), reply == Some(Ascii("detach")))
      case Died => Fatal
  }

  lemma MeetKeepsValid(s: Stub, keys: seq<Key>, event: Event)
    requires s.Valid()
    ensures Meet(s, keys, event).Met? ==> Meet(s, keys, event).stub.Valid()
  {
    if event.Packet? && Meet(s, keys, event).Met? { PacketKeeps(s, keys, event.payload); }
  }

  // ------------------------------------------------------------------- step by step

  /** One event of a connection: the server that met it and what that server sent. */
  datatype Turn = Turn(before: Stub, event: Event, sent: Sent)

  /** A connection step by step; at its end the server, unless the stub dies.  The last step of a stub that
      dies is the packet it dies of: acknowledged, and not answered. */
  datatype Course = Course(steps: seq<Turn>, end: Option<Stub>)

  function Following(steps: seq<Turn>, c: Course): Course { Course(steps + c.steps, c.end) }

  function ServeSteps(s: Stub, keys: seq<Key>, events: seq<Event>): Course
    requires s.Valid()
    decreases |events|
  {
    if events == [] then Course([], Some(s))
    else
      MeetKeepsValid(s, keys, events[0]);
      match Meet(s, keys, events[0])
      case Fatal => Course([Turn(s, events[0], Sent(AckFor(s.disableAck, events[0]), []))], None)
      case Met(s1, sent, last) =>
        var step := [Turn(s, events[0], sent)];
        if last then Course(step, Some(s1)) else Following(step, ServeSteps(s1, keys, events[1..]))
  }

  function SentsOf(steps: seq<Turn>): (sents: seq<Sent>)
    ensures |sents| == |steps| && forall i :: 0 <= i < |steps| ==> sents[i] == steps[i].sent
  {
    seq(|steps|, i requires 0 <= i < |steps| => steps[i].sent)
  }

  /** The first event of a stream that is not yet closed. */
  lemma NextEvent(input: Bytes)
    ensures match ParseOnce(input)
      case Accepted(payload, rest) => Events(input) == [Packet(payload)] + Events(rest)
      case Rejected(rest) => Events(input) == [Bad] + Events(rest)
      case Closed => Events(input) == []
  {
  }

  /** The first event and then the others. */
  lemma StepsCons(s: Stub, keys: seq<Key>, event: Event, events: seq<Event>)
    requires s.Valid()
    ensures var round, all := Meet(s, keys, event), ServeSteps(s, keys, [event] + events);
      && (round.Fatal? ==> all == Course([Turn(s, event, Sent(AckFor(s.disableAck, event), []))], None))
      && (round.Met? ==> round.stub.Valid())
      && (round.Met? ==> all == if round.last then Course([Turn(s, event, round.sent)], Some(round.stub))
            else Following([Turn(s, event, round.sent)], ServeSteps(round.stub, keys, events)))
  {
    MeetKeepsValid(s, keys, event);
    assert ([event] + events)[1..] == events;
  }

  /** After `steps`, going on from (s', input') or stopping there serves all of the input. */
  ghost predicate Continues(s: Stub, keys: seq<Key>, input: Bytes, steps: seq<Turn>, s': Stub, input': Bytes,
                            more: bool)
  {
    && s.Valid() && s'.Valid()
    && ServeSteps(s, keys, Events(input))
       == if more then Following(steps, ServeSteps(s', keys, Events(input'))) else Course(steps, Some(s'))
  }

  lemma AckThenReply(before: Bytes, sent: Sent)
    ensures before + sent.ack + sent.reply == before + sent.Bytes()
  {
  }

  /** A round can go through: the packet, if there is one, is handled. */
  predicate Servable(s: Stub, keys: seq<Key>, parsed: Parsed)
    requires s.Valid()
  {
    parsed.Accepted? ==> Meet(s, keys, Packet(parsed.payload)).Met?
  }

  /** What a round adds. */
  function Contribution(s: Stub, keys: seq<Key>, parsed: Parsed): seq<Turn>
    requires s.Valid() && Servable(s, keys, parsed)
  {
    match parsed
    case Closed => []
    case Rejected(_) => [Turn(s, Bad, Sent(AckFor(s.disableAck, Bad), []))]
    case Accepted(payload, _) => [Turn(s, Packet(payload), Meet(s, keys, Packet(payload)).sent)]
  }

  /** The server, the unread bytes and whether to go on after a round; the failed read at the end
      of the stream is answered like a rejected packet. */
  function RoundEnd(s: Stub, keys: seq<Key>, parsed: Parsed): (Stub, Bytes, bool)
    requires s.Valid() && Servable(s, keys, parsed)
  {
    match parsed
    case Closed => (s, [], true)
    case Rejected(rest) => (s, rest, true)
    case Accepted(payload, rest) =>
      var round := Meet(s, keys, Packet(payload));
      (round.stub, rest, !round.last)
  }

  function RoundOut(s: Stub, keys: seq<Key>, parsed: Parsed): Bytes
    requires s.Valid() && Servable(s, keys, parsed)
  {
    if parsed.Accepted? then Meet(s, keys, Packet(parsed.payload)).sent.Bytes() else AckFor(s.disableAck, Bad)
  }

  /** What is sent for bytes left over after the last packet: they are answered like a rejected one. */
  function Closing(s: Stub, keys: seq<Key>, input: Bytes): Bytes
    requires s.Valid()
    decreases |input|
  {
    ParseConsumes(input);
    if input == [] then []
    else match ParseOnce(input)
      case Closed => AckFor(s.disableAck, Bad)
      case Rejected(rest) => Closing(s, keys, rest)
      case Accepted(payload, rest) =>
        MeetKeepsValid(s, keys, Packet(payload));
        match Meet(s, keys, Packet(payload))
        case Fatal => []
        case Met(s1, _, last) => if last then [] else Closing(s1, keys, rest)
  }

  /** What one parse and its round contribute. */
  lemma RoundContinues(s: Stub, keys: seq<Key>, input: Bytes)
    requires s.Valid() && Servable(s, keys, ParseOnce(input))
    ensures var parsed := ParseOnce(input); var (s', input', more) := RoundEnd(s, keys, parsed);
      Continues(s, keys, input, Contribution(s, keys, parsed), s', input', more)
  {
    NextEvent(input);
    match ParseOnce(input) {
      case Accepted(payload, rest) => StepsCons(s, keys, Packet(payload), Events(rest));
      case Rejected(rest) => StepsCons(s, keys, Bad, Events(rest));
      case Closed => NothingLeft(s, keys);
    }
  }

  /** Bytes sent so far, by the steps taken and the input left. */
  predicate SentBy(out0: Bytes, steps: seq<Turn>, closing: Bytes, left: Bytes, out: Bytes)
  {
    out == out0 + Flatten(SentsOf(steps)) + if left == [] then closing else []
  }

  /** A round sends the contribution, and what closes the stream when nothing is left; if something is left
      the closing is still to come. */
  lemma RoundSends(s: Stub, keys: seq<Key>, input: Bytes, before: Bytes)
    requires s.Valid() && input != [] && Servable(s, keys, ParseOnce(input))
    ensures var parsed := ParseOnce(input); var (s', input', more) := RoundEnd(s, keys, parsed);
      var left := if more then input' else [];
      && s'.Valid()
      && SentBy(before, Contribution(s, keys, parsed), Closing(s, keys, input), left,
                before + RoundOut(s, keys, parsed))
      && (left != [] ==> Closing(s', keys, input') == Closing(s, keys, input))
  {
    var parsed := ParseOnce(input);
    if parsed.Accepted? { MeetKeepsValid(s, keys, Packet(parsed.payload)); }
    var c := Contribution(s, keys, parsed);
    if c != [] {
      assert SentsOf(c) == [c[0].sent];
      FlattenOne(c[0].sent);
    }
  }

  lemma SendsTwice(out0: Bytes, a: seq<Turn>, out1: Bytes, b: seq<Turn>, closing: Bytes, left: Bytes, out2: Bytes)
    requires out1 == out0 + Flatten(SentsOf(a)) && SentBy(out1, b, closing, left, out2)
    ensures SentBy(out0, a + b, closing, left, out2)
  {
    assert SentsOf(a + b) == SentsOf(a) + SentsOf(b);
    FlattenAppend(SentsOf(a), SentsOf(b));
    Associative(out0, Flatten(SentsOf(a)), Flatten(SentsOf(b)));
  }

  lemma NothingLeft(s: Stub, keys: seq<Key>)
    requires s.Valid()
    ensures Events([]) == [] && ServeSteps(s, keys, Events([])) == Course([], Some(s))
  {
  }

  lemma ContinuesFromStart(s: Stub, keys: seq<Key>, input: Bytes)
    requires s.Valid()
    ensures Continues(s, keys, input, [], s, input, true)
  {
    var c := ServeSteps(s, keys, Events(input));
    assert [] + c.steps == c.steps;
  }

  lemma ContinuesToEnd(s: Stub, keys: seq<Key>, input: Bytes, steps: seq<Turn>, s': Stub, input': Bytes,
                       more: bool)
    requires Continues(s, keys, input, steps, s', input', more) && (!more || input' == [])
    ensures ServeSteps(s, keys, Events(input)) == Course(steps, Some(s'))
  {
    NothingLeft(s', keys);
    assert steps + [] == steps;
  }

  lemma ContinuesTwice(s: Stub, keys: seq<Key>, input: Bytes, a: seq<Turn>, s1: Stub, input1: Bytes,
                       b: seq<Turn>, s2: Stub, input2: Bytes, more: bool)
    requires Continues(s, keys, input, a, s1, input1, true) && Continues(s1, keys, input1, b, s2, input2, more)
    ensures Continues(s, keys, input, a + b, s2, input2, more)
  {
    if more { Associative(a, b, ServeSteps(s2, keys, Events(input2)).steps); }
  }

  // ----------------------------------------------------------------- where it may stop

  /** The packet goes to the CTM. */
  predicate ReachesCtm(s: Stub, r: Reaction) { r.Replied? && r.stub.chip.log != s.chip.log }

  /** A panic has an excuse: the packet kills the stub, the hardware is waited for in vain, or the packet
      goes to the CTM and the window does not reach there. */
  predicate Excused(s: Stub, r: Reaction, why: Failure, waiting: bool)
  {
    r.Died? || waiting || (OffWindow(why) && ReachesCtm(s, r))
  }

  /** A connection that stopped with a panic at step i: everything before was sent, and the acknowledgement
      of packet i, which is the panic's excuse. */
  ghost predicate StopsAt(steps: seq<Turn>, i: nat, keys: seq<Key>, out0: Bytes, out: Bytes, why: Failure,
                          waiting: bool)
  {
    && i < |steps| && steps[i].event.Packet? && steps[i].before.Valid()
    && out == out0 + Flatten(SentsOf(steps[..i])) + steps[i].sent.ack
    && Excused(steps[i].before, AnswerPacket(steps[i].before, keys, steps[i].event.payload), why, waiting)
  }

  /** A panic in the round for a packet. */
  lemma StopsHere(s: Stub, keys: seq<Key>, input: Bytes, out0: Bytes, out: Bytes, why: Failure, waiting: bool)
    requires s.Valid() && ParseOnce(input).Accepted?
    requires var packet := Packet(ParseOnce(input).payload);
      out == out0 + AckFor(s.disableAck, packet) && Excused(s, AnswerPacket(s, keys, packet.payload), why, waiting)
    ensures StopsAt(ServeSteps(s, keys, Events(input)).steps, 0, keys, out0, out, why, waiting)
  {
    hide AnswerPacket;
    NextEvent(input);
    var parsed := ParseOnce(input);
    StepsCons(s, keys, Packet(parsed.payload), Events(parsed.rest));
    var steps := ServeSteps(s, keys, Events(input)).steps;
    assert steps[0].before == s && steps[0].event == Packet(parsed.payload);
    assert steps[0].sent.ack == AckFor(s.disableAck, Packet(parsed.payload));
    assert SentsOf(steps[..0]) == [] && out0 + [] == out0;
  }

  /** The same seen from the start of the connection. */
  lemma StopsLater(s0: Stub, keys: seq<Key>, in0: Bytes, done: seq<Turn>, s: Stub, input: Bytes, i: nat,
                   out0: Bytes, out1: Bytes, out: Bytes, why: Failure, waiting: bool)
    requires Continues(s0, keys, in0, done, s, input, true) && out1 == out0 + Flatten(SentsOf(done))
    requires StopsAt(ServeSteps(s, keys, Events(input)).steps, i, keys, out1, out, why, waiting)
    ensures StopsAt(ServeSteps(s0, keys, Events(in0)).steps, |done| + i, keys, out0, out, why, waiting)
  {
    hide AnswerPacket, ServeSteps;
    var rest := ServeSteps(s, keys, Events(input)).steps;
    var all := ServeSteps(s0, keys, Events(in0)).steps;
    assert all == done + rest && all[|done| + i] == rest[i];
    assert SentsOf(all[..|done| + i]) == SentsOf(done) + SentsOf(rest[..i]);
    FlattenAppend(SentsOf(done), SentsOf(rest[..i]));
    Associative(out0, Flatten(SentsOf(done)), Flatten(SentsOf(rest[..i])));
  }

  lemma EventGrowsLog(s: Stub, keys: seq<Key>, event: Event)
    requires s.Valid() && Meet(s, keys, event).Met?
    ensures s.chip.log <= Meet(s, keys, event).stub.chip.log
  {
    if event.Packet? { PacketKeeps(s, keys, event.payload); }
  }

  lemma {:induction false} LogGrows(s: Stub, keys: seq<Key>, events: seq<Event>)
    requires s.Valid() && ServeSteps(s, keys, events).end.Some?
    ensures s.chip.log <= ServeSteps(s, keys, events).end.value.chip.log
    decreases |events|
  {
    hide AnswerPacket;
    if events != [] {
      MeetKeepsValid(s, keys, events[0]);
      EventGrowsLog(s, keys, events[0]);
      var round := Meet(s, keys, events[0]);
      if !round.last { LogGrows(round.stub, keys, events[1..]); }
    }
  }

  /** A connection that comes to its end without any bus transaction leaves a panic only one excuse. */
  lemma {:induction false} OnlyWaitingExcuses(s: Stub, keys: seq<Key>, events: seq<Event>, i: nat)
    requires s.Valid() && ServeSteps(s, keys, events).end.Some?
    requires ServeSteps(s, keys, events).end.value.chip.log == s.chip.log
    requires i < |ServeSteps(s, keys, events).steps|
    ensures var step := ServeSteps(s, keys, events).steps[i];
      && step.before.Valid()
      && (step.event.Packet? ==>
            var x := AnswerPacket(step.before, keys, step.event.payload); x.Replied? && !ReachesCtm(step.before, x))
    decreases |events|
  {
    hide AnswerPacket;
    MeetKeepsValid(s, keys, events[0]);
    EventGrowsLog(s, keys, events[0]);
    var round := Meet(s, keys, events[0]);
    if !round.last {
      LogGrows(round.stub, keys, events[1..]);
      if i > 0 { OnlyWaitingExcuses(round.stub, keys, events[1..], i - 1); }
    }
    if i == 0 { FirstStep(s, keys, events); }
  }

  lemma FirstStep(s: Stub, keys: seq<Key>, events: seq<Event>)
    requires s.Valid() && events != []
    ensures var steps := ServeSteps(s, keys, events).steps;
      && steps != [] && steps[0].before == s && steps[0].event == events[0]
      && steps[0].sent.ack == AckFor(s.disableAck, events[0])
  {
    hide AnswerPacket;
    StepsCons(s, keys, events[0], events[1..]);
    assert events == [events[0]] + events[1..];
  }

  lemma ClosingAfterFrame(s: Stub, keys: seq<Key>, noise: Bytes, p: Bytes, rest: Bytes)
    requires s.Valid() && Free(noise, DOLLAR)
    ensures var round := Meet(s, keys, Packet(p));
      && (round.Met? ==> round.stub.Valid())
      && Closing(s, keys, noise + Frame(p) + rest)
         == if round.Fatal? || round.last then [] else Closing(round.stub, keys, rest)
  {
    hide AnswerPacket;
    FrameRoundTrip(noise, p, rest);
    MeetKeepsValid(s, keys, Packet(p));
    assert noise + Frame(p) + rest != [] by { assert |Frame(p)| > 0; }
  }

  /** Nothing is left over after whole packets. */
  lemma {:induction false} NothingToClose(s: Stub, keys: seq<Key>, noises: seq<Bytes>, payloads: seq<Bytes>)
    requires s.Valid() && |noises| == |payloads| && forall n :: n in noises ==> Free(n, DOLLAR)
    ensures Closing(s, keys, Transmitted(noises, payloads)) == []
    decreases |payloads|
  {
    hide AnswerPacket;
    if payloads != [] {
      assert noises[0] in noises;
      ClosingAfterFrame(s, keys, noises[0], payloads[0], Transmitted(noises[1..], payloads[1..]));
      var round := Meet(s, keys, Packet(payloads[0]));
      if round.Met? { NothingToClose(round.stub, keys, noises[1..], payloads[1..]); }
    }
  }

  // ------------------------------------------------------------------------- acks

  /** "QStartNoAckMode" */
  const NO_ACK: Bytes := [0x51, 0x53, 0x74, 0x61, 0x72, 0x74, 0x4E, 0x6F, 0x41, 0x63, 0x6B, 0x4D, 0x6F, 0x64, 0x65]

  /** The packet is QStartNoAckMode, or begins with it. */
  predicate TurnsAcksOff(event: Event)
  {
    event.Packet? && NO_ACK <= Command(event.payload)
  }

  lemma ToggleIff(keys: seq<Key>, command: Bytes)
    requires Order(keys)
    ensures Lookup(keys, command) == Run(ToggleAck) <==> NO_ACK <= command
  {
    TextOfToggle();
    if NO_ACK <= command {
      if Text(VContQuestion) <= command {
        KeysOfOneCommand(QStartNoAckMode, VContQuestion, command);
        assert false;
      }
      KeyIsFound(keys, QStartNoAckMode, command);
    }
    FirstKeyFinds(keys, Equals(command));
    FirstKeyFinds(keys, Begins(command));
    OnlyToggleToggles();
  }

  lemma OnlyToggleToggles()
    ensures forall k: Key :: EntryOf(k) == Run(ToggleAck) ==> k == QStartNoAckMode
  {
  }

  /** Acknowledgements are switched off by QStartNoAckMode and by nothing else, and never back on. */
  lemma AckModeStep(s: Stub, keys: seq<Key>, event: Event)
    requires s.Valid() && Order(keys) && Meet(s, keys, event).Met?
    ensures Meet(s, keys, event).stub.disableAck == (s.disableAck || TurnsAcksOff(event))
  {
    if event.Packet? {
      ToggleIff(keys, Command(event.payload));
      PacketKeeps(s, keys, event.payload);
    }
  }

  /** Before event i acks are off: they were off from the start, or an earlier event turned them off. */
  ghost predicate AcksOff(s: Stub, events: seq<Event>, i: nat)
    requires i <= |events|
  {
    s.disableAck || exists j :: 0 <= j < i && TurnsAcksOff(events[j])
  }

  /** Over a whole connection, survived or not: '+' for every packet and '-' for every rejected one
      (including the packet that turns acks off and the one the stub dies of) while acks are on, and no
      acknowledgement ever after. */
  lemma {:induction false} AcksOverRun(s: Stub, keys: seq<Key>, events: seq<Event>, i: nat)
    requires s.Valid() && Order(keys) && i < |ServeSteps(s, keys, events).steps|
    ensures |ServeSteps(s, keys, events).steps| <= |events|
    ensures var step := ServeSteps(s, keys, events).steps[i];
      && step.event == events[i]
      && step.sent.ack == if AcksOff(s, events, i) then [] else if events[i].Packet? then [0x2B] else [0x2D]
    decreases |events|
  {
    hide AnswerPacket, TurnsAcksOff, Meet;
    FirstStep(s, keys, events);
    var round := Meet(s, keys, events[0]);
    if round.Met? && !round.last && |ServeSteps(s, keys, events).steps| > 1 {
      MeetKeepsValid(s, keys, events[0]);
      AckModeStep(s, keys, events[0]);
      if i == 0 {
        AcksOverRun(round.stub, keys, events[1..], 0);
      } else {
        AcksOverRun(round.stub, keys, events[1..], i - 1);
        ShiftAcksOff(s, round.stub, events, i);
      }
    }
  }

  lemma ShiftAcksOff(s: Stub, s1: Stub, events: seq<Event>, i: nat)
    requires 0 < i <= |events| && s1.disableAck == (s.disableAck || TurnsAcksOff(events[0]))
    ensures AcksOff(s1, events[1..], i - 1) <==> AcksOff(s, events, i)
  {
    if j :| 0 <= j < i && TurnsAcksOff(events[j]) {
      assert j > 0 ==> TurnsAcksOff(events[1..][j - 1]);
    }
    if j :| 0 <= j < i - 1 && TurnsAcksOff(events[1..][j]) {
      assert TurnsAcksOff(events[j + 1]);
    }
  }
}
