/** Whole connections served by the server object: what the lemmas about packets come to for the program. */
module Connections {
  import opened Numbers
  import opened Hex
  import opened DebugModule
  import opened RfpcCores
  import opened Commands
  import opened Framing
  import opened Dispatch
  import opened Handlers
  import opened Session
  import opened Stubs
  import opened Serving
  import opened Refinement
  import opened Packets
  import opened EndToEnd
  import opened Registers
  import opened Breakpoints
  import opened BreakpointPackets
  import opened Transparency
  import opened Outages
  import opened ClientView
  import opened RspServer

  /** The server as Handlers sees it. */
  ghost function Now(server: RspServer): Server
    reads server, server.bar
  {
    Seen(server.Abs())
  }

  /** Ready to serve, with no debug module in error. */
  ghost predicate Fit(server: RspServer)
    reads server, server.bar
  {
    server.Valid() && Tidy(server.Abs())
  }

  /** The connection went as foretold: the server is s', and exactly `sents` was sent. */
  twostate predicate WentTo(server: RspServer, stream: Stream, s': Server, sents: seq<Sent>)
    reads server, server.bar, stream
  {
    Fit(server) && Now(server) == s' && stream.output == old(stream.output) + Flatten(sents)
  }

  /** The connection was cut short while the server waited for a command or a hart, with all sent up to an
      acknowledgement. */
  twostate predicate CutShort(server: RspServer, stream: Stream, sents: seq<Sent>, at: nat, why: Failure)
    reads server, server.bar, stream
  {
    && server.Interrupted(why) && at < |sents|
    && stream.output == old(stream.output) + Flatten(sents[..at]) + sents[at].ack
  }

  /** The acknowledgement in force. */
  function Plus(s: Server): Bytes { Ack(s, Packet([])) }

  /** A connection that is known to come to its end, off the CTM, and leaves no bytes over. */
  method ServeTo(server: RspServer, stream: Stream, ghost s': Server, ghost sents: seq<Sent>)
    returns (o: Outcome<()>, ghost at: nat)
    requires Fit(server) && ServeAll(Now(server), server.keys, Events(stream.input)) == Some((s', sents))
    requires s'.machine.log == Now(server).machine.log && Closing(server.Abs(), server.keys, stream.input) == []
    modifies server, server.bar, stream
    ensures o.Ok? ==> WentTo(server, stream, s', sents)
    ensures o.Panic? ==> CutShort(server, stream, sents, at, o.why)
  {
    hide ServeAll, ServeSteps, AnswerPacket;
    ghost var s, events := server.Abs(), Events(stream.input);
    RefinesRun(s, server.keys, events);
    o, at := server.Serve(stream);
    if o.Ok? {
      assert stream.output == old(stream.output) + Flatten(sents) + [];
    } else {
      ghost var steps := ServeSteps(s, server.keys, events).steps;
      OnlyWaitingExcuses(s, server.keys, events, at);
      assert SentsOf(steps[..at]) == sents[..at];
    }
  }

  lemma OneFrameCloses(s: Stub, keys: seq<Key>, noise: Bytes, p: Bytes)
    requires s.Valid() && Free(noise, DOLLAR)
    ensures Closing(s, keys, noise + Frame(p)) == []
  {
    hide AnswerPacket;
    assert noise + Frame(p) + [] == noise + Frame(p);
    ClosingAfterFrame(s, keys, noise, p, []);
  }

  /** What a reply to a packet puts on the stream. */
  function SentFor(s: Stub, reply: Option<Bytes>): Sent
  {
    Sent(AckFor(s.disableAck, Packet([])), ReplyBytes(reply))
  }

  lemma OneStep(s: Stub, keys: seq<Key>, p: Bytes, noise: Bytes)
    requires s.Valid() && Free(noise, DOLLAR) && AnswerPacket(s, keys, p).Replied?
    ensures var x := AnswerPacket(s, keys, p);
      ServeSteps(s, keys, Events(noise + Frame(p))) == Course([Turn(s, Packet(p), SentFor(s, x.reply))], Some(x.stub))
  {
    hide AnswerPacket;
    assert noise + Frame(p) + [] == noise + Frame(p);
    FrameIsAnEvent(noise, p, []);
    assert Events([]) == [] && [Packet(p)] + [] == [Packet(p)];
    StepsCons(s, keys, Packet(p), []);
    assert ServeSteps(AnswerPacket(s, keys, p).stub, keys, []).steps == [] by { MeetKeepsValid(s, keys, Packet(p)); }
    var step := [Turn(s, Packet(p), SentFor(s, AnswerPacket(s, keys, p).reply))];
    assert step + [] == step;
  }

  /** One packet that is answered off the CTM, in whatever state harts and debug modules are. */
  method Converse(server: RspServer, stream: Stream, ghost p: Bytes, ghost noise: Bytes)
    returns (o: Outcome<()>, ghost at: nat)
    requires server.Valid() && Free(noise, DOLLAR) && stream.input == noise + Frame(p)
    requires var x := AnswerPacket(server.Abs(), server.keys, p); x.Replied? && x.stub.chip.log == server.Abs().chip.log
    modifies server, server.bar, stream
    ensures var s := old(server.Abs()); var x := AnswerPacket(s, server.keys, p);
      && (o.Ok? ==> server.Valid() && server.Abs() == x.stub)
      && (o.Ok? ==> stream.output == old(stream.output) + SentFor(s, x.reply).Bytes())
      && (o.Panic? ==> CutShort(server, stream, [SentFor(s, x.reply)], at, o.why))
  {
    hide ServeSteps, AnswerPacket, Events, Closing;
    ghost var s := server.Abs();
    ghost var sent := SentFor(s, AnswerPacket(s, server.keys, p).reply);
    ghost var steps := [Turn(s, Packet(p), sent)];
    OneStep(s, server.keys, p, noise);
    OneFrameCloses(s, server.keys, noise, p);
    FlattenOne(sent);
    o, at := server.Serve(stream);
    assert SentsOf(steps) == [sent];
    if o.Ok? {
      assert stream.output == old(stream.output) + Flatten([sent]) + [];
    } else {
      assert SentsOf(steps[..0]) == [sent][..0];
    }
  }

  /** One packet that Handlers handles off the CTM. */
  method Exchange(server: RspServer, stream: Stream, ghost p: Bytes, ghost noise: Bytes)
    returns (o: Outcome<()>, ghost at: nat)
    requires Fit(server) && Free(noise, DOLLAR) && stream.input == noise + Frame(p)
    requires Handle(Now(server), server.keys, p).Done?
    requires Handle(Now(server), server.keys, p).server.machine.log == Now(server).machine.log
    modifies server, server.bar, stream
    ensures var s := old(Now(server)); var r := Handle(s, server.keys, p);
      var sents := [Sent(Plus(s), ReplyBytes(r.reply))];
      && (o.Ok? ==> WentTo(server, stream, r.server, sents))
      && (o.Panic? ==> CutShort(server, stream, sents, at, o.why))
  {
    hide Handle, AnswerPacket;
    ghost var s := server.Abs();
    RefinesPacket(s, server.keys, p);
    FlattenOne(SentFor(s, AnswerPacket(s, server.keys, p).reply));
    o, at := Converse(server, stream, p, noise);
  }

  /** `g` while the selected hart runs, or its module has an error: 58 copies of the one value the data
      registers hold, with no hart touched; it fails only while waiting for the hardware. */
  method ReadAllOfMute(server: RspServer, stream: Stream, ghost noise: Bytes) returns (o: Outcome<()>, ghost at: nat)
    requires server.Valid() && Mute(server.Abs()) && Free(noise, DOLLAR)
    requires stream.input == noise + Frame([0x67])
    modifies server, server.bar, stream
    ensures var s := old(server.Abs()); var sent := SentFor(s, Some(Copies(HexSwapped(Data(s.Module())), 58)));
      && (o.Ok? ==> server.Valid() && Unheard(s, server.Abs(), Data(s.Module())))
      && (o.Ok? ==> stream.output == old(stream.output) + sent.Bytes())
      && (o.Panic? ==> CutShort(server, stream, [sent], at, o.why))
  {
    hide AnswerPacket, Copies;
    GAnswered(server.Abs(), server.keys);
    o, at := Converse(server, stream, [0x67], noise);
  }

  // ------------------------------------------------------------------------ memory

  lemma FlattenTwo(a: Sent, b: Sent)
    ensures Flatten([a, b]) == a.ack + a.reply + (b.ack + b.reply)
  {
    assert [a, b] == [a] + [b];
    FlattenAppend([a], [b]);
    FlattenOne(a);
    FlattenOne(b);
  }

  /** What the client gets for two packets answered with OK and with `reply`. */
  function OkThen(s: Server, reply: Bytes): seq<Sent>
  {
    [Sent(Plus(s), Enclose(Ascii("OK"))), Sent(Plus(s), Enclose(reply))]
  }

  /** For all data: with an escaped `X` packet and then an `m` packet on the stream the server ends up with
      exactly the data in the hart's memory, at the low 32 bits of the address (and its zero fill), has answered
      OK and then the hex of exactly the data, and has changed nothing else; it fails only while waiting for the
      hardware. */
  method WriteAndReadMemory(server: RspServer, stream: Stream, ghost a: Number, ghost n: Number, ghost data: Bytes,
                            ghost noise1: Bytes, ghost noise2: Bytes)
    returns (o: Outcome<()>, ghost at: nat)
    requires Fit(server) && Now(server).Halted() && a.Valid() && n.Valid() && n.value == |data|
    requires a.value / 0x1_0000_0000_0000 % 16 != 1 && a.value % 0x1_0000_0000 + |data| + 8 <= 0x1_0000_0000_0000_0000
    requires Free(noise1, DOLLAR) && Free(noise2, DOLLAR)
    requires stream.input == noise1 + Frame(XPacket(a, n, data)) + (noise2 + Frame(MPacket(a, n)))
    modifies server, server.bar, stream
    ensures o.Ok? ==> Fit(server) && var s := old(Now(server));
      Now(server) == WithMemory(s, Poke(s.Hart().mem, a.value % 0x1_0000_0000, ZeroFilled(data)))
    ensures o.Ok? ==> var plus := Plus(old(Now(server)));
      stream.output == old(stream.output) + (plus + Enclose(Ascii("OK")) + (plus + Enclose(HexBytes(data))))
    ensures o.Panic? ==> CutShort(server, stream, OkThen(old(Now(server)), HexBytes(data)), at, o.why)
  {
    hide ServeAll, Closing, Events;
    ghost var s := Now(server);
    ZeroFill(data);
    MemoryRoundTrip(s, server.keys, a, n, data, noise1, noise2);
    TwoTransmitted(noise1, XPacket(a, n, data), noise2, MPacket(a, n));
    NothingToClose(server.Abs(), server.keys, [noise1, noise2], [XPacket(a, n, data), MPacket(a, n)]);
    FlattenTwo(OkThen(s, HexBytes(data))[0], OkThen(s, HexBytes(data))[1]);
    o, at := ServeTo(server, stream, Stored(s, a.value, Padded(data, |data|)), OkThen(s, HexBytes(data)));
  }

  // --------------------------------------------------------------------- registers

  /** For any two registers: with `P n=v` and then `p m` on the stream the server ends up with v in register n
      and has answered OK and then register m as it is now; it fails only while waiting for the hardware. */
  method WriteAndReadRegister(server: RspServer, stream: Stream, ghost n: Number, ghost v: U64, ghost m: Number,
                              ghost noise1: Bytes, ghost noise2: Bytes)
    returns (o: Outcome<()>, ghost at: nat)
    requires Fit(server) && Now(server).Halted() && n.Valid() && n.value < 58 && m.Valid() && m.value < 58
    requires var reg := RegisterAddr(n.value).value; reg < X0 ==> !Now(server).Traps(reg)
    requires Free(noise1, DOLLAR) && Free(noise2, DOLLAR)
    requires stream.input == noise1 + Frame(PWrite(n, v)) + (noise2 + Frame(PRead(m)))
    modifies server, server.bar, stream
    ensures o.Ok? ==> Fit(server)
    ensures o.Ok? ==> var s := old(Now(server));
      Now(server) == s.WithHart(Written(s.Hart(), RegisterAddr(n.value).value, v))
    ensures o.Ok? ==> var s, plus := old(Now(server)), Plus(old(Now(server)));
      var digits := HexBytes(LE(ReadBack(s, n.value, v, m.value), 8));
      stream.output == old(stream.output) + (plus + Enclose(Ascii("OK")) + (plus + Enclose(digits)))
    ensures o.Panic? ==> var s := old(Now(server));
      CutShort(server, stream, OkThen(s, HexBytes(LE(ReadBack(s, n.value, v, m.value), 8))), at, o.why)
  {
    hide ServeAll, Closing, Events;
    ghost var s := Now(server);
    ghost var digits := HexBytes(LE(ReadBack(s, n.value, v, m.value), 8));
    WriteThenRead(s, server.keys, n, v, m, noise1, noise2);
    TwoTransmitted(noise1, PWrite(n, v), noise2, PRead(m));
    NothingToClose(server.Abs(), server.keys, [noise1, noise2], [PWrite(n, v), PRead(m)]);
    FlattenTwo(OkThen(s, digits)[0], OkThen(s, digits)[1]);
    o, at := ServeTo(server, stream, s.WithHart(Written(s.Hart(), RegisterAddr(n.value).value, v)), OkThen(s, digits));
  }

  // ------------------------------------------------------------------- breakpoints

  /** Z0 and z0 packets for addresses at least 8 bytes apart, in any order, until none is set: the whole server
      is as it was, and every packet is answered with OK; it fails only while waiting for the hardware. */
  method SetAndClearAll(server: RspServer, stream: Stream, ghost rs: seq<Request>, ghost noises: seq<Bytes>)
    returns (o: Outcome<()>, ghost at: nat)
    requires Fit(server) && Now(server).Halted() && Now(server).breakpoints == map[]
    requires forall r :: r in rs ==> r.Valid() && !IsCtm(r.op.address)
    requires |noises| == |rs| && forall n :: n in noises ==> Free(n, DOLLAR)
    requires Spaced({}, OpsOf(rs)) && ClearsWhatIsSet({}, OpsOf(rs)) && SetInTheEnd({}, OpsOf(rs)) == {}
    requires stream.input == Transmitted(noises, PacketsOf(rs))
    modifies server, server.bar, stream
    ensures o.Ok? ==> WentTo(server, stream, old(Now(server)), Oks(old(Now(server)), |rs|))
    ensures o.Panic? ==> CutShort(server, stream, Oks(old(Now(server)), |rs|), at, o.why)
  {
    hide ServeAll, Closing, Events, RunOps;
    ghost var s := Now(server);
    OpsAreNotCtm(rs);
    assert s.breakpoints.Keys == {};
    AllClearedInTheEnd(s, OpsOf(rs));
    WireRestores(s, server.keys, rs, noises);
    NothingToClose(server.Abs(), server.keys, noises, PacketsOf(rs));
    o, at := ServeTo(server, stream, s, Oks(s, |rs|));
  }

  /** The same for a nested script, however its 8-byte windows overlap. */
  method SetAndClearNested(server: RspServer, stream: Stream, ghost nest: Nest, ghost rs: seq<Request>,
                           ghost noises: seq<Bytes>)
    returns (o: Outcome<()>, ghost at: nat)
    requires Fit(server) && Now(server).Halted()
    requires nest.Distinct(Now(server).breakpoints.Keys) && OpsOf(rs) == nest.Ops()
    requires forall r :: r in rs ==> r.Valid() && !IsCtm(r.op.address)
    requires |noises| == |rs| && forall n :: n in noises ==> Free(n, DOLLAR)
    requires stream.input == Transmitted(noises, PacketsOf(rs))
    modifies server, server.bar, stream
    ensures o.Ok? ==> WentTo(server, stream, old(Now(server)), Oks(old(Now(server)), |rs|))
    ensures o.Panic? ==> CutShort(server, stream, Oks(old(Now(server)), |rs|), at, o.why)
  {
    hide ServeAll, Closing, Events;
    ghost var s := Now(server);
    WireRestoresNested(s, server.keys, nest, rs, noises);
    NothingToClose(server.Abs(), server.keys, noises, PacketsOf(rs));
    o, at := ServeTo(server, stream, s, Oks(s, |rs|));
  }

  /** Everything a client does among its breakpoints: the server object ends as the same packets without Z0 and
      z0 would leave it, and sends the same but for an OK to each of those; it fails only while waiting for the
      hardware. */
  method AskAll(server: RspServer, stream: Stream, ghost asks: seq<Ask>, ghost noises: seq<Bytes>)
    returns (o: Outcome<()>, ghost at: nat)
    requires Fit(server) && Now(server).Halted() && Now(server).breakpoints == map[]
    requires AllCareful({}, Now(server).Core().env.traps, asks) && AfterAll({}, asks) == {}
    requires |noises| == |asks| && forall n :: n in noises ==> Free(n, DOLLAR)
    requires stream.input == Transmitted(noises, AskPackets(asks))
    modifies server, server.bar, stream
    ensures var s := old(Now(server)); var plain := ServeAll(s, server.keys, AskEvents(Plain(asks)));
      && plain.Some?
      && (o.Ok? ==> WentTo(server, stream, plain.value.0, Woven(asks, plain.value.1, OkSent(s))))
      && (o.Panic? ==> CutShort(server, stream, Woven(asks, plain.value.1, OkSent(s)), at, o.why))
  {
    hide ServeAll, Closing, Events, AskEvents, AllCareful;
    ghost var s := Now(server);
    BreakpointsAreTransparent(s, server.keys, asks);
    AsksArrive(asks, noises);
    NothingToClose(server.Abs(), server.keys, noises, AskPackets(asks));
    ghost var plain := ServeAll(s, server.keys, AskEvents(Plain(asks))).value;
    o, at := ServeTo(server, stream, plain.0, Woven(asks, plain.1, OkSent(s)));
  }
}
