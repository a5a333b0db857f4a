/** Breakpoints under everything else a client does with a halted hart between setting and clearing them. */
module Transparency {
  import opened Numbers
  import opened Hex
  import opened DebugModule
  import opened RfpcCores
  import opened Commands
  import opened Debugger
  import opened RunControl
  import opened Framing
  import opened Dispatch
  import opened Handlers
  import opened Session
  import opened Replies
  import opened Packets
  import opened EndToEnd
  import opened Registers
  import opened Breakpoints
  import opened BreakpointPackets

  /** A packet of the client's: `Z0` or `z0`, `X`, `P`, `p`, `g`, `m`. */
  datatype Ask =
    | Break(request: Request)
    | Store(a: Number, n: Number, data: Bytes)
    | Put(n: Number, value: U64)
    | Get(n: Number)
    | GetAll
    | Look(a: Number, n: Number)
  {
    /** Away from the CTM, with numbers that fit and an honest length. */
    ghost predicate Valid() {
      match this
      case Break(r) => r.Valid() && !IsCtm(r.op.address)
      case Store(a, n, data) =>
        a.Valid() && n.Valid() && !IsCtm(a.value) && n.value == |data| && Fits(Masked(a.value), |data| + 8)
      case Put(n, _) => n.Valid() && n.value < 58
      case Get(n) => n.Valid() && n.value < 58
      case GetAll => true
      case Look(a, n) => a.Valid() && n.Valid() && !IsCtm(a.value) && Fits(Masked(a.value), n.value + 8)
    }

    function Packet(): Bytes {
      match this
      case Break(r) => r.Packet()
      case Store(a, n, data) => XPacket(a, n, data)
      case Put(n, v) => PWrite(n, v)
      case Get(n) => PRead(n)
      case GetAll => [0x67]
      case Look(a, n) => MPacket(a, n)
    }

    /** With these breakpoints set: a new one is 8 bytes from all, a cleared one is set, a write keeps clear of
        the saved windows, zero fill included, a read of the ebreaks, and no CSR write traps. */
    ghost predicate Careful(breaks: set<U64>, traps: set<nat>)
      requires Valid()
    {
      match this
      case Break(r) =>
        if r.op.Set? then forall b :: b in breaks ==> Apart(r.op.address, b) else r.op.address in breaks
      case Store(a, n, data) =>
        forall b :: b in breaks ==> Misses(Masked(a.value), |Padded(data, |data|)|, Masked(b), 8)
      case Put(n, _) => var reg := RegisterAddr(n.value).value; reg < X0 ==> reg !in traps
      case Look(a, n) => forall b :: b in breaks ==> Misses(Masked(a.value), n.value, Masked(b), 4)
      case _ => true
    }

    /** The breakpoints set afterwards. */
    function After(breaks: set<U64>): set<U64> {
      if !Break? then breaks
      else if request.op.Set? then breaks + {request.op.address}
      else breaks - {request.op.address}
    }
  }

  /** n bytes at m and k bytes at w have none in common. */
  predicate Misses(m: nat, n: nat, w: nat, k: nat) { m + n <= w || w + k <= m }

  ghost predicate AllCareful(breaks: set<U64>, traps: set<nat>, asks: seq<Ask>)
    decreases |asks|
  {
    asks == [] ||
    (asks[0].Valid() && asks[0].Careful(breaks, traps) && AllCareful(asks[0].After(breaks), traps, asks[1..]))
  }

  /** The breakpoints set in the end. */
  function AfterAll(breaks: set<U64>, asks: seq<Ask>): set<U64>
    decreases |asks|
  {
    if asks == [] then breaks else AfterAll(asks[0].After(breaks), asks[1..])
  }

  /** The same packets without those that set or clear a breakpoint. */
  function Plain(asks: seq<Ask>): seq<Ask>
  {
    if asks == [] then [] else if asks[0].Break? then Plain(asks[1..]) else [asks[0]] + Plain(asks[1..])
  }

  function AskPackets(asks: seq<Ask>): (ps: seq<Bytes>)
    ensures |ps| == |asks| && forall i :: 0 <= i < |asks| ==> ps[i] == asks[i].Packet()
  {
    seq(|asks|, i requires 0 <= i < |asks| => asks[i].Packet())
  }

  function AskEvents(asks: seq<Ask>): seq<Event> { PacketEvents(AskPackets(asks)) }

  /** What was sent for the other packets, with `ok` for every one that sets or clears a breakpoint. */
  function Woven(asks: seq<Ask>, sents: seq<Sent>, ok: Sent): seq<Sent>
    decreases |asks|
  {
    if asks == [] then sents
    else if asks[0].Break? then [ok] + Woven(asks[1..], sents, ok)
    else if sents == [] then []
    else [sents[0]] + Woven(asks[1..], sents[1..], ok)
  }

  // --------------------------------------------------------------- hidden breakpoints

  /** The server s is s0 but for breakpoints: its memory is that of s0 with ebreak at the table's addresses,
      and the table holds the windows of s0. */
  ghost predicate Hidden(s: Server, s0: Server)
  {
    && s.Valid() && s0.Valid() && s.Halted() && s0 == WithMem(s, map[], s0.Hart().mem)
    && Overlaid(s0.Hart().mem, s.breakpoints, s.Hart().mem)
  }

  lemma HiddenParts(s: Server, s0: Server)
    requires Hidden(s, s0)
    ensures s0.Halted() && s0.Hart() == s.Hart().(mem := s0.Hart().mem) && s0.Core().env == s.Core().env
    ensures s0.disableAck == s.disableAck && s0.checks == s.checks && s0.breakpoints == map[]
  {
  }

  lemma NothingHidden(s: Server)
    requires s.Valid() && s.Halted() && s.breakpoints == map[]
    ensures Hidden(s, s)
  {
    WithMemTwice(s, map[], s.Hart().mem, map[], s.Hart().mem);
  }

  lemma AllShown(s: Server, s0: Server)
    requires Hidden(s, s0) && s.breakpoints == map[]
    ensures s == s0
  {
    var mem, orig := s.Hart().mem, s0.Hart().mem;
    forall x | 0 <= x < |mem| ensures mem[x] == orig[x] { assert !Covered(s.breakpoints, x); }
    assert mem == orig;
    WithMemTwice(s, map[], mem, map[], mem);
  }

  // -------------------------------------------------------------------- one packet

  /** Reply and state, on both servers, of a packet that is not about breakpoints. */
  ghost predicate Alike(s: Server, s0: Server, r: Result, r0: Result)
  {
    && r.Done? && r0.Done? && r.reply == r0.reply && r.reply.Some? && r.reply != Some(Ascii("detach"))
    && Hidden(r.server, r0.server) && Steady(s, r.server) && r.server.breakpoints == s.breakpoints
  }

  /** Neither the acknowledgement mode, nor the bus, nor the environment of the selected core has changed. */
  ghost predicate Steady(s: Server, s': Server)
  {
    && s.Valid() && s'.Valid() && s'.disableAck == s.disableAck && s'.machine.log == s.machine.log
    && s'.Core().env == s.Core().env
  }

  lemma OneOpHidden(orig: Memory, t: Table, mem: Memory, op: Op)
    requires Overlaid(orig, t, mem)
    requires if op.Set? then forall b :: b in t ==> Apart(op.address, b) else op.address in t
    ensures ApplyMem(t, mem, op).Some? && var (t', mem') := ApplyMem(t, mem, op).value;
      Overlaid(orig, t', mem') && t'.Keys == if op.Set? then t.Keys + {op.address} else t.Keys - {op.address}
  {
    hide Overlaid;
    if op.Set? { SetKeepsOverlay(orig, t, mem, op.address); } else { ClearKeepsOverlay(orig, t, mem, op.address); }
  }

  lemma BreakHidden(s: Server, s0: Server, keys: seq<Key>, r: Request)
    requires Hidden(s, s0) && Order(keys) && Break(r).Valid()
    requires Break(r).Careful(s.breakpoints.Keys, s.Core().env.traps)
    ensures var x := Handle(s, keys, r.Packet());
      && x.Done? && x.reply == Some(Ascii("OK")) && Steady(s, x.server) && Hidden(x.server, s0)
      && x.server.breakpoints.Keys == Break(r).After(s.breakpoints.Keys)
  {
    hide Handle, Apply, Overlaid, ApplyMem;
    var orig, t, mem := s0.Hart().mem, s.breakpoints, s.Hart().mem;
    RequestHandled(s, keys, r);
    ApplyIsApplyMem(s, r.op);
    OneOpHidden(orig, t, mem, r.op);
    var (t', mem') := ApplyMem(t, mem, r.op).value;
    WithMemTwice(s, t', mem', map[], orig);
  }

  /** A write beside the windows, to the memory with breakpoints and to the one without. */
  lemma StoreKeepsOverlay(orig: Memory, t: Table, mem: Memory, m: nat, bs: Bytes)
    requires Overlaid(orig, t, mem) && Fits(m, |bs|) && forall b :: b in t ==> Misses(m, |bs|, Masked(b), 8)
    ensures Overlaid(Poke(orig, m, bs), t, Poke(mem, m, bs))
  {
    var orig', mem' := Poke(orig, m, bs), Poke(mem, m, bs);
    forall a | a in t ensures t[a] == WordOf(Peek(orig', Masked(a), 8)) {
      assert Peek(orig', Masked(a), 8) == Peek(orig, Masked(a), 8);
    }
    forall a, i | a in t && 0 <= i < 4 ensures mem'[Masked(a) + i] == EbreakByte(i) {
      assert mem'[Masked(a) + i] == mem[Masked(a) + i];
    }
  }

  lemma StoreHidden(s: Server, s0: Server, keys: seq<Key>, ask: Ask)
    requires Hidden(s, s0) && Order(keys) && ask.Store? && ask.Valid()
    requires ask.Careful(s.breakpoints.Keys, s.Core().env.traps)
    ensures Alike(s, s0, Handle(s, keys, ask.Packet()), Handle(s0, keys, ask.Packet()))
  {
    hide Handle, Overlaid;
    var a, all := ask.a.value, Padded(ask.data, |ask.data|);
    var orig, mem := s0.Hart().mem, s.Hart().mem;
    HiddenParts(s, s0);
    PaddedLength(ask.data, |ask.data|);
    EndToEnd.WriteData(s, keys, ask.a, ask.n, ask.data);
    EndToEnd.WriteData(s0, keys, ask.a, ask.n, ask.data);
    OkIsNotDetach();
    StoreKeepsOverlay(orig, s.breakpoints, mem, Masked(a), all);
    WithMemTwice(s, map[], orig, map[], Poke(orig, Masked(a), all));
    WithMemTwice(s, s.breakpoints, Poke(mem, Masked(a), all), map[], Poke(orig, Masked(a), all));
  }

  lemma RegisterBeside(s: Server, mem: Memory, reg: nat, v: U64)
    requires s.Valid() && reg < REGISTERS
    ensures var s0 := WithMem(s, map[], mem);
      s0.WithHart(Written(s0.Hart(), reg, v)) == WithMem(s.WithHart(Written(s.Hart(), reg, v)), map[], mem)
  {
    var h, h0, id := s.Hart(), s.Hart().(mem := mem), DmIdOf(s.rfpc);
    var w, w0 := Written(h, reg, v), Written(h0, reg, v);
    assert w0 == w.(mem := mem);
    TwiceAt(s.Core(), s.Index(), h0, w0);
    TwiceAt(s.Core(), s.Index(), w, w0);
    var c0, c := WithHartAt(s.Core(), s.Index(), h0), WithHartAt(s.Core(), s.Index(), w);
    var c1 := WithHartAt(s.Core(), s.Index(), w0);
    assert s.machine.cores[id := c0][id := c1] == s.machine.cores[id := c][id := c1];
  }

  lemma PutHidden(s: Server, s0: Server, keys: seq<Key>, ask: Ask)
    requires Hidden(s, s0) && Order(keys) && ask.Put? && ask.Valid()
    requires ask.Careful(s.breakpoints.Keys, s.Core().env.traps)
    ensures Alike(s, s0, Handle(s, keys, ask.Packet()), Handle(s0, keys, ask.Packet()))
  {
    hide Handle, Overlaid;
    var reg := RegisterAddr(ask.n.value).value;
    HiddenParts(s, s0);
    CapPHandled(s, keys, ask.n, ask.value);
    CapPHandled(s0, keys, ask.n, ask.value);
    OkIsNotDetach();
    WrittenRegisters(s.Hart(), reg, ask.value, 0);
    WrittenRegisters(s0.Hart(), reg, ask.value, 0);
    RegisterBeside(s, s0.Hart().mem, reg, ask.value);
  }

  lemma GprsAreNotDetach(regs: seq<U64>)
    requires |regs| == REGISTERS
    ensures AllRegisters(regs) != Ascii("detach")
  {
    hide HexRange, FirstRegisters;
    assert |AllRegisters(regs)| >= 16 && |Ascii("detach")| == 6;
  }

  /** What is read past the ebreaks is what is there without them. */
  lemma LookBeside(orig: Memory, t: Table, mem: Memory, m: nat, n: nat)
    requires Overlaid(orig, t, mem) && Fits(m, n) && forall b :: b in t ==> Misses(m, n, Masked(b), 4)
    ensures Peek(mem, m, n) == Peek(orig, m, n)
  {
    forall i | 0 <= i < n ensures Peek(mem, m, n)[i] == Peek(orig, m, n)[i] {
      assert !Covered(t, m + i);
    }
  }

  lemma ReadsHidden(s: Server, s0: Server, keys: seq<Key>, ask: Ask)
    requires Hidden(s, s0) && Order(keys) && (ask.Get? || ask.GetAll? || ask.Look?) && ask.Valid()
    requires ask.Careful(s.breakpoints.Keys, s.Core().env.traps)
    ensures Alike(s, s0, Handle(s, keys, ask.Packet()), Handle(s0, keys, ask.Packet()))
  {
    hide Handle, AllRegisters, HexBytes, LE;
    HiddenParts(s, s0);
    match ask
    case Get(n) =>
      PHandled(s, keys, n);
      PHandled(s0, keys, n);
      HexIsNotDetach(LE(s.Hart().regs[RegisterAddr(n.value).value], 8));
    case GetAll =>
      GHandled(s, keys);
      GHandled(s0, keys);
      GprsAreNotDetach(s.Hart().regs);
    case Look(a, n) =>
      ReadHandled(s, keys, a, n);
      ReadHandled(s0, keys, a, n);
      LookBeside(s0.Hart().mem, s.breakpoints, s.Hart().mem, Masked(a.value), n.value);
      HexIsNotDetach(Peek(s.Hart().mem, Masked(a.value), n.value));
  }

  lemma AskHidden(s: Server, s0: Server, keys: seq<Key>, ask: Ask)
    requires Hidden(s, s0) && Order(keys) && ask.Valid() && ask.Careful(s.breakpoints.Keys, s.Core().env.traps)
    requires !ask.Break?
    ensures Alike(s, s0, Handle(s, keys, ask.Packet()), Handle(s0, keys, ask.Packet()))
  {
    hide Handle, Alike;
    match ask
    case Store(_, _, _) => StoreHidden(s, s0, keys, ask);
    case Put(_, _) => PutHidden(s, s0, keys, ask);
    case Get(_) | GetAll | Look(_, _) => ReadsHidden(s, s0, keys, ask);
  }

  // --------------------------------------------------------------- whole connections

  lemma FirstAsk(ask: Ask, asks: seq<Ask>)
    ensures AskEvents([ask] + asks) == [Packet(ask.Packet())] + AskEvents(asks)
  {
    assert AskPackets([ask] + asks)[1..] == AskPackets(asks);
  }

  lemma NoAsks(s: Server, keys: seq<Key>)
    requires s.Valid()
    ensures ServeAll(s, keys, AskEvents([])) == Some((s, []))
  {
  }

  function OkSent(s: Server): Sent { Sent(Ack(s, Packet([])), Enclose(Ascii("OK"))) }

  /** A connection with breakpoints and the same one without them, side by side: every other packet is answered
      alike, every breakpoint packet with OK, and the two servers differ at the end only by the breakpoints
      then set. */
  lemma {:induction false} RunsAlike(s: Server, s0: Server, keys: seq<Key>, asks: seq<Ask>)
    requires Hidden(s, s0) && Order(keys) && AllCareful(s.breakpoints.Keys, s.Core().env.traps, asks)
    ensures var run, run0 := ServeAll(s, keys, AskEvents(asks)), ServeAll(s0, keys, AskEvents(Plain(asks)));
      && run.Some? && run0.Some? && run.value.1 == Woven(asks, run0.value.1, OkSent(s))
      && Hidden(run.value.0, run0.value.0) && run.value.0.breakpoints.Keys == AfterAll(s.breakpoints.Keys, asks)
      && run.value.0.machine.log == s.machine.log
    decreases |asks|
  {
    hide Handle, AskEvents, Overlaid, ServeAll, Ask.Careful, Ask.Valid;
    if asks == [] {
      NoAsks(s, keys);
      NoAsks(s0, keys);
    } else {
      var ask, rest := asks[0], asks[1..];
      assert asks == [ask] + rest;
      FirstAsk(ask, rest);
      var x := Handle(s, keys, ask.Packet());
      if ask.Break? {
        BreakHidden(s, s0, keys, ask.request);
        RunsAlike(x.server, s0, keys, rest);
        OkIsNotDetach();
        ServeOne(s, keys, ask.Packet(), AskEvents(rest));
      } else {
        var x0 := Handle(s0, keys, ask.Packet());
        AskHidden(s, s0, keys, ask);
        RunsAlike(x.server, x0.server, keys, rest);
        FirstAsk(ask, Plain(rest));
        HiddenParts(s, s0);
        ServeOne(s, keys, ask.Packet(), AskEvents(rest));
        ServeOne(s0, keys, ask.Packet(), AskEvents(Plain(rest)));
      }
    }
  }

  /** Breakpoints are transparent: a connection that sets and clears them, 8 bytes apart and in any order, among
      reads and writes of registers and memory, and has cleared them all at the end, leaves the server exactly
      as the same connection without them, and is answered the same but for an OK to every breakpoint packet. */
  lemma BreakpointsAreTransparent(s: Server, keys: seq<Key>, asks: seq<Ask>)
    requires s.Valid() && s.Halted() && s.breakpoints == map[] && Order(keys)
    requires AllCareful({}, s.Core().env.traps, asks) && AfterAll({}, asks) == {}
    ensures var run0 := ServeAll(s, keys, AskEvents(Plain(asks)));
      && run0.Some? && run0.value.0.machine.log == s.machine.log
      && ServeAll(s, keys, AskEvents(asks)) == Some((run0.value.0, Woven(asks, run0.value.1, OkSent(s))))
  {
    hide ServeAll, AskEvents, Overlaid;
    NothingHidden(s);
    assert s.breakpoints.Keys == {};
    RunsAlike(s, s, keys, asks);
    var run, run0 := ServeAll(s, keys, AskEvents(asks)), ServeAll(s, keys, AskEvents(Plain(asks)));
    assert run.value.0.breakpoints == map[];
    AllShown(run.value.0, run0.value.0);
  }

  lemma AsksArrive(asks: seq<Ask>, noises: seq<Bytes>)
    requires |noises| == |asks| && forall n :: n in noises ==> Free(n, DOLLAR)
    ensures Events(Transmitted(noises, AskPackets(asks))) == AskEvents(asks)
  {
    PayloadsArriveInOrder(noises, AskPackets(asks), []);
    assert Transmitted(noises, AskPackets(asks)) + [] == Transmitted(noises, AskPackets(asks));
  }

  // ------------------------------------------------ any packets, and firmware in between

  /** The packet left the selected core, the table and the saved windows as they were. */
  ghost predicate Undisturbed(s: Server, s': Server)
  {
    && s.Valid() && s'.Valid() && s'.rfpc == s.rfpc && s'.breakpoints == s.breakpoints
    && forall a :: a in s.breakpoints ==> Peek(s'.Hart().mem, Masked(a), 8) == Peek(s.Hart().mem, Masked(a), 8)
  }

  ghost predicate InWindow(t: Table, x: nat)
  {
    exists a :: a in t && Masked(a) <= x < Masked(a) + 8
  }

  /** Memory as it would be without breakpoints: what was saved inside the windows, what is there outside. */
  ghost function Shadow(orig: Memory, t: Table, mem: Memory): (r: Memory)
    ensures forall x :: 0 <= x < |r| ==> r[x] == if InWindow(t, x) then orig[x] else mem[x]
  {
    seq(|orig|, x requires 0 <= x < |orig| => if InWindow(t, x) then orig[x] else mem[x])
  }

  lemma SamePeek(mem: Memory, mem': Memory, m: nat, n: nat)
    requires Fits(m, n)
    ensures Peek(mem', m, n) == Peek(mem, m, n) <==> forall x: nat :: m <= x < m + n ==> mem'[x] == mem[x]
  {
    if Peek(mem', m, n) == Peek(mem, m, n) {
      forall x: nat | m <= x < m + n ensures mem'[x] == mem[x] {
        assert Peek(mem', m, n)[x - m] == Peek(mem, m, n)[x - m];
      }
    }
  }

  lemma ShadowHolds(orig: Memory, t: Table, mem: Memory, mem': Memory)
    requires Overlaid(orig, t, mem) && forall a :: a in t ==> Peek(mem', Masked(a), 8) == Peek(mem, Masked(a), 8)
    ensures Overlaid(Shadow(orig, t, mem'), t, mem')
  {
    hide Peek, WordOf, EbreakByte, Apart, Shadow;
    var r := Shadow(orig, t, mem');
    forall a | a in t
      ensures Peek(r, Masked(a), 8) == Peek(orig, Masked(a), 8)
      ensures forall x: nat :: Masked(a) <= x < Masked(a) + 8 ==> mem'[x] == mem[x]
    {
      SamePeek(mem, mem', Masked(a), 8);
      assert forall x: nat :: Masked(a) <= x < Masked(a) + 8 ==> InWindow(t, x);
      SamePeek(orig, r, Masked(a), 8);
    }
    forall x | 0 <= x < |mem'| && !Covered(t, x) ensures mem'[x] == r[x] {
      if InWindow(t, x) {
        var a :| a in t && Masked(a) <= x < Masked(a) + 8;
        assert mem'[x] == mem[x] == orig[x];
      }
    }
  }

  /** The hart's memory is `orig` with ebreak at the table's addresses, and the table holds its windows. */
  ghost predicate Laid(orig: Memory, s: Server) { s.Valid() && Overlaid(orig, s.breakpoints, s.Hart().mem) }

  /** The packet sets or clears a breakpoint with care. */
  ghost predicate Requests(s: Server, p: Bytes, r: Request)
    requires s.Valid()
  {
    p == r.Packet() && Break(r).Valid() && Break(r).Careful(s.breakpoints.Keys, s.Core().env.traps)
  }

  ghost predicate IsRequest(s: Server, p: Bytes)
    requires s.Valid()
  {
    exists r :: Requests(s, p, r)
  }

  /** Every packet is handled with the hart halted, and either is a breakpoint request made with care or leaves
      everything as it was about the breakpoints. */
  ghost predicate AllKeep(s: Server, keys: seq<Key>, ps: seq<Bytes>)
    decreases |ps|
  {
    && s.Valid() && s.Halted()
    && (ps == [] ||
        var x := Handle(s, keys, ps[0]);
        && x.Done? && x.reply != Some(Ascii("detach"))
        && (IsRequest(s, ps[0]) || Undisturbed(s, x.server))
        && AllKeep(x.server, keys, ps[1..]))
  }

  /** The memory without breakpoints after a packet. */
  ghost function ShadowStep(orig: Memory, s: Server, s': Server): Memory
  {
    if Undisturbed(s, s') then Shadow(orig, s.breakpoints, s'.Hart().mem) else orig
  }

  /** The memory without breakpoints, carried through the packets. */
  ghost function ShadowAfter(orig: Memory, s: Server, keys: seq<Key>, ps: seq<Bytes>): Memory
    requires AllKeep(s, keys, ps)
    decreases |ps|
  {
    if ps == [] then orig
    else
      var s1 := Handle(s, keys, ps[0]).server;
      ShadowAfter(ShadowStep(orig, s, s1), s1, keys, ps[1..])
  }

  lemma OnePacketKeeps(orig: Memory, s: Server, keys: seq<Key>, p: Bytes)
    requires s.Valid() && s.Halted() && Order(keys) && Handle(s, keys, p).Done?
    requires Laid(orig, s)
    requires IsRequest(s, p) || Undisturbed(s, Handle(s, keys, p).server)
    ensures var s1 := Handle(s, keys, p).server; Laid(ShadowStep(orig, s, s1), s1)
  {
    hide Handle, Overlaid, Apply, ApplyMem;
    var s1 := Handle(s, keys, p).server;
    if Undisturbed(s, s1) {
      ShadowHolds(orig, s.breakpoints, s.Hart().mem, s1.Hart().mem);
    } else {
      var r :| Requests(s, p, r);
      RequestHandled(s, keys, r);
      ApplyIsApplyMem(s, r.op);
      OneOpHidden(orig, s.breakpoints, s.Hart().mem, r.op);
    }
  }

  /** With any packets in between, steps and continues among them, as long as they and the firmware leave the
      saved windows alone: memory is always what it would be without breakpoints, with ebreak at exactly the
      table's addresses. */
  lemma {:induction false} OverlayThrough(orig: Memory, s: Server, keys: seq<Key>, ps: seq<Bytes>)
    requires AllKeep(s, keys, ps) && Order(keys) && Laid(orig, s)
    ensures var run := ServeAll(s, keys, PacketEvents(ps));
      run.Some? && Laid(ShadowAfter(orig, s, keys, ps), run.value.0)
    decreases |ps|
  {
    hide Handle, Overlaid, Undisturbed, IsRequest, ShadowStep, ServeAll;
    if ps == [] {
      NoAsks(s, keys);
      assert AskEvents([]) == PacketEvents([]);
    } else {
      var s1 := Handle(s, keys, ps[0]).server;
      OnePacketKeeps(orig, s, keys, ps[0]);
      OverlayThrough(ShadowStep(orig, s, s1), s1, keys, ps[1..]);
      ServeOne(s, keys, ps[0], PacketEvents(ps[1..]));
    }
  }

  /** A step or continue leaves everything about the breakpoints alone when the firmware does. */
  lemma GoUndisturbed(s: Server, go: Go)
    requires s.Valid() && GoResult(s, go).Done?
    requires var left := HaltedHart(go, s.Core(), s.Index()).mem;
      forall a :: a in s.breakpoints ==> Peek(left, Masked(a), 8) == Peek(s.Hart().mem, Masked(a), 8)
    ensures Undisturbed(s, GoResult(s, go).server) && GoResult(s, go).server.Halted()
  {
    GoLeaves(go, s.Core(), s.Index());
  }
}
