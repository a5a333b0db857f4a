/** A connection seen from outside: what the server sends for the bytes it receives. */
module Session {
  import opened Numbers
  import opened Hex
  import opened Framing
  import opened Dispatch
  import opened Handlers
  import opened RfpcCores
  import opened RunControl

  /** What one packet makes the server send. */
  datatype Sent = Sent(ack: Bytes, reply: Bytes) {
    function Bytes(): Bytes { ack + reply }
  }

  /** One round of the serving loop; the connection ends after a detach. */
  datatype Round = Served(server: Server, sent: Sent, last: bool) | Lost

  /** The acknowledgement of an event, with acknowledgements off or on. */
  function AckFor(off: bool, event: Event): Bytes
  {
    if off then [] else if event.Packet? then [Code('+')] else [Code('-')]
  }

  function Ack(s: Server, event: Event): Bytes { AckFor(s.disableAck, event) }

  /** The bytes that carry a reply; "detach" is answered with OK. */
  function ReplyBytes(reply: Option<Bytes>): Bytes
  {
    match reply
    case None => []
    case Some(r) => if r == Ascii("detach") then Enclose(Ascii("OK")) else Enclose(r)
  }

  /** The acknowledgement goes out before the packet is handled. */
  function ServeEvent(s: Server, keys: seq<Key>, event: Event): Round
    requires s.Valid()
  {
    match event
    case Bad => Served(s, Sent(Ack(s, event), []), false)
    case Packet(payload) =>
      match Handle(s, keys, payload)
      case Done(s1, reply) => Served(s1, Sent(Ack(s, event), ReplyBytes(reply)), reply == Some(Ascii("detach")))
      case _ => Lost
  }

  /** The server stays fit to serve, its acknowledgement mode stays, and the bus forgets nothing. */
  predicate Keeps(s: Server, r: Result)
  {
    r.Done? ==>
      r.server.Valid() && r.server.disableAck == s.disableAck && s.machine.log <= r.server.machine.log
  }

  lemma RegistersKeep(s: Server, packet: Bytes)
    requires s.Valid()
    ensures Keeps(s, ReadRegResult(s, packet)) && Keeps(s, WriteRegResult(s, packet)) && Keeps(s, ReadGprsResult(s))
  {
  }

  lemma MemoryKeeps(s: Server, packet: Bytes)
    requires s.Valid()
    ensures Keeps(s, MemoryReadResult(s, packet)) && Keeps(s, MemoryWriteResult(s, packet))
  {
  }

  lemma BreakpointsKeep(s: Server, packet: Bytes)
    requires s.Valid()
    ensures Keeps(s, SetBreakpointResult(s, packet)) && Keeps(s, ClearBreakpointResult(s, packet))
  {
  }

  lemma RunsKeep(s: Server, go: Go, packet: Bytes)
    requires s.Valid()
    ensures Keeps(s, GoResult(s, go)) && Keeps(s, GoFromResult(s, go, packet))
  {
  }

  lemma ActKeeps(s: Server, a: Action)
    requires s.Valid() && a.thread < 32
    ensures Keeps(s, ActResult(s, a))
  {
    ActKeepsValid(s, a);
    ThreadsAreHarts(a.thread, ThreadCore(a.thread));
    RunsKeep(s.(rfpc := ThreadCore(a.thread)), Step, []);
    RunsKeep(s.(rfpc := ThreadCore(a.thread)), Continue, []);
  }

  lemma {:induction false} ActionsKeep(s: Server, items: seq<Bytes>)
    requires s.Valid()
    ensures Keeps(s, ActionsResult(s, items))
    decreases |items|
  {
    if items != [] {
      var a := ParseAction(items[0]);
      if a.Some? {
        ActKeeps(s, a.value);
        if ActResult(s, a.value).Done? { ActionsKeep(ActResult(s, a.value).server, items[1..]); }
      }
    }
  }

  lemma HandlerKeeps(s: Server, h: Handler, packet: Bytes)
    requires s.Valid()
    ensures h != ToggleAck ==> Keeps(s, RunHandler(s, h, packet))
    ensures h == ToggleAck ==> RunHandler(s, h, packet) == Says(s.(disableAck := true), "OK")
  {
    match h {
      case ReadGprs | ReadReg | WriteReg => RegistersKeep(s, packet);
      case MemoryRead | MemoryWrite => MemoryKeeps(s, packet);
      case SetBreakpoint | ClearBreakpoint => BreakpointsKeep(s, packet);
      case SingleStep | SingleStepSig => RunsKeep(s, Step, packet);
      case Cont | ContWithSig => RunsKeep(s, Continue, packet);
      case MulticoreActions => if |packet| >= 6 { ActionsKeep(s, SplitOn(packet[6..], Code(';'))); }
      case _ =>
    }
  }

  lemma HandleKeeps(s: Server, keys: seq<Key>, packet: Bytes)
    requires s.Valid() && Handle(s, keys, packet).Done?
    ensures Handle(s, keys, packet).server.Valid()
    ensures Handle(s, keys, packet).server.disableAck
         == (s.disableAck || Lookup(keys, Command(packet)) == Run(ToggleAck))
    ensures s.machine.log <= Handle(s, keys, packet).server.machine.log
  {
    match Lookup(keys, Command(packet)) {
      case Run(h) => HandlerKeeps(s, h, packet);
      case _ =>
    }
  }

  lemma ServeKeepsValid(s: Server, keys: seq<Key>, event: Event)
    requires s.Valid()
    ensures ServeEvent(s, keys, event).Served? ==> ServeEvent(s, keys, event).server.Valid()
  {
    if event.Packet? && ServeEvent(s, keys, event).Served? { HandleKeeps(s, keys, event.payload); }
  }

  /** What was sent first, and then the rest of a run, if there is one. */
  function Prepend(sent: seq<Sent>, run: Option<(Server, seq<Sent>)>): Option<(Server, seq<Sent>)>
  {
    if run.None? then None else Some((run.value.0, sent + run.value.1))
  }

  /** A whole connection, event after event, until the events are over or the client detaches; None when
      the stub does not survive it. */
  function ServeAll(s: Server, keys: seq<Key>, events: seq<Event>): Option<(Server, seq<Sent>)>
    requires s.Valid()
    decreases |events|
  {
    if events == [] then Some((s, []))
    else
      ServeKeepsValid(s, keys, events[0]);
      match ServeEvent(s, keys, events[0])
      case Lost => None
      case Served(s1, sent, last) =>
        if last then Some((s1, [sent])) else Prepend([sent], ServeAll(s1, keys, events[1..]))
  }

  function Flatten(sents: seq<Sent>): Bytes
  {
    if sents == [] then [] else Flatten(sents[..|sents| - 1]) + sents[|sents| - 1].Bytes()
  }

  lemma FlattenOne(sent: Sent)
    ensures Flatten([sent]) == sent.ack + sent.reply
  {
    assert [sent][..0] == [];
  }

  lemma {:induction false} FlattenAppend(a: seq<Sent>, b: seq<Sent>)
    ensures Flatten(a + b) == Flatten(a) + Flatten(b)
  {
    if b == [] {
      assert a + b == a;
    } else {
      var front, last := b[..|b| - 1], b[|b| - 1];
      FlattenAppend(a, front);
      assert (a + b)[..|a + b| - 1] == a + front && (a + b)[|a + b| - 1] == last;
      Associative(Flatten(a), Flatten(front), last.Bytes());
    }
  }

  // ------------------------------------------------------------------- exchanges

  /** A packet that is handled and not answered with detach, and then the rest. */
  lemma ServeOne(s: Server, keys: seq<Key>, p: Bytes, rest: seq<Event>)
    requires s.Valid() && Handle(s, keys, p).Done? && Handle(s, keys, p).server.Valid()
    requires Handle(s, keys, p).reply != Some(Ascii("detach"))
    requires ServeAll(Handle(s, keys, p).server, keys, rest).Some?
    ensures var r := Handle(s, keys, p); var (s', sents) := ServeAll(r.server, keys, rest).value;
      ServeAll(s, keys, [Packet(p)] + rest) == Some((s', [Sent(Ack(s, Packet([])), ReplyBytes(r.reply))] + sents))
  {
    assert ([Packet(p)] + rest)[1..] == rest;
  }

  /** Two packets, neither answered with detach. */
  lemma ServeTwo(s: Server, keys: seq<Key>, p1: Bytes, p2: Bytes)
    requires s.Valid() && Handle(s, keys, p1).Done? && Handle(s, keys, p1).server.Valid()
    requires Handle(Handle(s, keys, p1).server, keys, p2).Done?
    requires Handle(s, keys, p1).reply != Some(Ascii("detach"))
    requires Handle(Handle(s, keys, p1).server, keys, p2).reply != Some(Ascii("detach"))
    ensures var r1 := Handle(s, keys, p1); var r2 := Handle(r1.server, keys, p2);
      ServeAll(s, keys, [Packet(p1), Packet(p2)]) == Some((r2.server, [
        Sent(Ack(s, Packet([])), ReplyBytes(r1.reply)), Sent(Ack(r1.server, Packet([])), ReplyBytes(r2.reply))]))
  {
    var r1 := Handle(s, keys, p1);
    var r2 := Handle(r1.server, keys, p2);
    HandleKeeps(r1.server, keys, p2);
    ServeOne(r1.server, keys, p2, []);
    assert [Packet(p2)] + [] == [Packet(p2)];
    ServeOne(s, keys, p1, [Packet(p2)]);
    assert [Packet(p1)] + [Packet(p2)] == [Packet(p1), Packet(p2)];
    var a, b := Sent(Ack(s, Packet([])), ReplyBytes(r1.reply)), Sent(Ack(r1.server, Packet([])), ReplyBytes(r2.reply));
    assert [b] + [] == [b] && [a] + [b] == [a, b];
  }

  lemma TwoFrames(noise1: Bytes, p1: Bytes, noise2: Bytes, p2: Bytes)
    requires Free(noise1, DOLLAR) && Free(noise2, DOLLAR)
    ensures Events(noise1 + Frame(p1) + (noise2 + Frame(p2))) == [Packet(p1), Packet(p2)]
  {
    FrameIsAnEvent(noise1, p1, noise2 + Frame(p2));
    FrameIsAnEvent(noise2, p2, []);
    assert noise2 + Frame(p2) + [] == noise2 + Frame(p2);
    assert Events([]) == [];
  }

  lemma TwoTransmitted(noise1: Bytes, p1: Bytes, noise2: Bytes, p2: Bytes)
    ensures Transmitted([noise1, noise2], [p1, p2]) == noise1 + Frame(p1) + (noise2 + Frame(p2))
  {
    assert [noise1, noise2][1..] == [noise2] && [p1, p2][1..] == [p2];
    assert [noise2][1..] == [] && [p2][1..] == [];
    assert Transmitted([noise2], [p2]) == noise2 + Frame(p2) + Transmitted([], []);
    assert noise2 + Frame(p2) + [] == noise2 + Frame(p2);
  }
}
