/** The server object: its handlers drive the debug modules and keep the breakpoint table. */
module RspServer {
  import opened Numbers
  import opened Hex
  import opened DebugModule
  import opened RfpcCores
  import opened Chip
  import opened ExpansionBar
  import opened Buses
  import opened Commands
  import opened Debugger
  import opened RunControl
  import opened Framing
  import opened Dispatch
  import opened Handlers
  import opened Session
  import opened Stubs
  import opened Serving

  lemma SameModule(s: Stub)
    requires s.Valid()
    ensures s.WithModule(s.Module()) == s
  {
    assert s.chip.dms[DmIdOf(s.rfpc) := s.Module()] == s.chip.dms;
  }

  lemma ModuleTwice(s: Stub, d1: Dm, d2: Dm)
    requires s.Valid() && Orderly(d1) && Orderly(d2)
    ensures s.WithModule(d1).Module() == d1 && s.WithModule(d1).WithModule(d2) == s.WithModule(d2)
  {
    assert s.chip.dms[DmIdOf(s.rfpc) := d1][DmIdOf(s.rfpc) := d2] == s.chip.dms[DmIdOf(s.rfpc) := d2];
  }

  /** An action list by its first action. */
  lemma FirstAction(s: Stub, item: Bytes, rest: seq<Bytes>)
    requires s.Valid()
    ensures ParseAction(item).None? ==> AnswerActions(s, [item] + rest) == Died
    ensures ParseAction(item).Some? ==> var x := AnswerAct(s, ParseAction(item).value);
      && (x.Died? ==> AnswerActions(s, [item] + rest) == Died)
      && (x.Replied? ==> x.stub.Valid() && !ReachesCtm(s, x)
                         && AnswerActions(s, [item] + rest) == AnswerActions(x.stub, rest))
  {
    hide AnswerAct, ParseAction;
    assert ([item] + rest)[1..] == rest;
    if ParseAction(item).Some? { ActStaysValid(s, ParseAction(item).value); }
  }

  lemma AreRangesAll()
    ensures AreRanges(RANGES)
  {
  }

  /** The registers of one more range. */
  lemma NextRange(dm: Dm, h: nat, k: nat)
    requires dm.pending.Idle? && h < HARTS && k < |RANGES| && AreRanges(RANGES)
    ensures AreRanges(RANGES[..k]) && AreRanges(RANGES[..k + 1]) && RANGES[k].0 <= RANGES[k].1 <= REGISTERS
    ensures var (d, text) := RangesSteps(dm, h, RANGES[..k]);
      var (d', more) := RangeSteps(d, h, RANGES[k].0, RANGES[k].1);
      RangesSteps(dm, h, RANGES[..k + 1]) == (d', text + more)
  {
    hide RangeSteps, RANGES;
    assert RANGES[..k + 1][..k] == RANGES[..k] && RANGES[k] in RANGES;
  }

  class RspServer {
    const bar: ExpansionBar
    const keys: seq<Key>                 // the command table's iteration order
    var breakpoints: map<U64, U64>
    var threadMap: map<nat, Rfpc>
    var disableAck: bool
    var rfpc: Rfpc

    ghost function Abs(): Stub
      reads this, bar
    {
      Stub(bar.chip, breakpoints, rfpc, disableAck, bar.checks)
    }

    ghost predicate Valid()
      reads this, bar
    {
      && bar.Valid() && Abs().Valid() && Order(keys)
      && (forall t: nat :: t in threadMap <==> t < 32)
      && (forall t: nat :: t < 32 ==> t in threadMap && threadMap[t] == ThreadCore(t))
    }

    /** RspServer::new; the first core comes from the command line. */
    constructor (bar: ExpansionBar, keys: seq<Key>, r: Rfpc)
      requires bar.Valid() && Order(keys) && forall id :: id in bar.chip.dms ==> Orderly(bar.chip.dms[id])
      requires r.Valid() && DmIdOf(r) in bar.chip.dms && DmIdOf(ThreadCore(0)) in bar.chip.dms
      ensures Valid() && this.bar == bar && this.keys == keys
      ensures Abs() == Stub(bar.chip, map[], r, false, bar.checks)
    {
      this.bar, this.keys, rfpc := bar, keys, r;
      breakpoints, disableAck := map[], false;
      var threads: map<nat, Rfpc>, index: nat := map[], 0;
      for group := 0 to 4
        invariant index == 8 * group
        invariant forall t: nat :: t in threads <==> t < index
        invariant forall t: nat :: t < index && t < 32 ==> t in threads && threads[t] == ThreadCore(t)
      {
        for core := 0 to 8
          invariant index == 8 * group + core
          invariant forall t: nat :: t in threads <==> t < index
          invariant forall t: nat :: t < index && t < 32 ==> t in threads && threads[t] == ThreadCore(t)
        {
          threads := threads[index := Rfpc(RfpcCores.Rfpc0, 0, group, core)];
          index := index + 1;
        }
      }
      threadMap := threads;
    }

    // --------------------------------------------- the driver, on the selected core

    twostate lemma ModuleChanged()
      requires old(Valid()) && rfpc == old(rfpc) && breakpoints == old(breakpoints) && disableAck == old(disableAck)
      requires threadMap == old(threadMap) && Attached(bar, rfpc) && OnlyDm(old(bar.chip), bar.chip, rfpc)
      requires Orderly(DmOf(bar, rfpc))
      ensures Valid() && Abs() == old(Abs()).WithModule(DmOf(bar, rfpc))
    {
    }

    method ReadRegister(reg: nat) returns (o: Outcome<U64>)
      requires Valid() && reg < REGISTERS
      modifies bar
      ensures o.Panic? ==> Interrupted(o.why)
      ensures o.Ok? ==> var s := old(Abs()); var (d, v) := ReadSteps(s.Module(), s.Index(), reg);
        Valid() && Abs() == s.WithModule(d) && o.value == v
    {
      hide ReadSteps;
      AlongAtFirst(bar, rfpc);
      o := Debugger.ReadRegister(bar, rfpc, reg, bar.chip);
      if o.Ok? { ModuleChanged(); }
    }

    method WriteRegister(reg: nat, v: U64) returns (o: Outcome<()>)
      requires Valid() && reg < REGISTERS
      modifies bar
      ensures o.Panic? ==> Interrupted(o.why)
      ensures o.Ok? ==> var s := old(Abs());
        Valid() && Abs() == s.WithModule(WriteSteps(s.Module(), s.Index(), reg, v))
    {
      hide WriteSteps;
      AlongAtFirst(bar, rfpc);
      o := Debugger.WriteRegister(bar, rfpc, reg, v, bar.chip);
      if o.Ok? { ModuleChanged(); }
    }

    method ReadMemory(address: U64, length: nat) returns (o: Outcome<seq<U64>>)
      requires Valid() && Fits(address, 8 * length)
      modifies bar
      ensures o.Panic? ==> Interrupted(o.why)
      ensures o.Ok? ==> var s := old(Abs()); var (d, words) := ReadMemorySteps(s.Module(), s.Index(), address, length);
        Valid() && Abs() == s.WithModule(d) && o.value == words
    {
      hide ReadMemorySteps;
      AlongAtFirst(bar, rfpc);
      o := LoadMemory(bar, rfpc, address, length, bar.chip);
      if o.Ok? { ModuleChanged(); }
    }

    method WriteMemory(address: U64, data: seq<U64>) returns (o: Outcome<()>)
      requires Valid() && Fits(address, 8 * |data|)
      modifies bar
      ensures o.Panic? ==> Interrupted(o.why)
      ensures o.Ok? ==> var s := old(Abs());
        Valid() && Abs() == s.WithModule(WriteMemorySteps(s.Module(), s.Index(), address, data))
    {
      hide WriteMemorySteps;
      AlongAtFirst(bar, rfpc);
      o := StoreMemory(bar, rfpc, address, data, bar.chip);
      if o.Ok? { ModuleChanged(); }
    }

    /** Single step or continue. */
    method Run(go: Go) returns (o: Outcome<()>)
      requires Valid()
      modifies bar
      ensures o.Panic? ==> Interrupted(o.why) || !GoSteps(go, old(Abs()).Module(), old(Abs()).Index()).1
      ensures o.Ok? ==> var s := old(Abs()); var (d, fine) := GoSteps(go, s.Module(), s.Index());
        Valid() && Abs() == s.WithModule(d) && fine
    {
      hide GoSteps;
      AlongAtFirst(bar, rfpc);
      o := GoAnyhow(bar, rfpc, go, bar.chip);
      if o.Ok? { ModuleChanged(); }
    }

    method Stop() returns (o: Outcome<()>)
      requires Valid()
      modifies bar
      ensures o.Panic? ==> Interrupted(o.why)
      ensures o.Ok? ==> var s := old(Abs());
        Valid() && Abs() == s.WithModule(HaltSteps(s.Module(), s.Index()))
    {
      o := RfpcDbgHalt(bar, rfpc);
      if o.Ok? { ModuleChanged(); }
    }

    method ReadCtm(engine: Engine, address: U32, n: nat) returns (o: Outcome<seq<U32>>)
      requires Valid()
      modifies bar
      ensures o.Panic? ==> OffWindow(o.why)
      ensures o.Ok? ==> Valid() && Abs() == old(Abs()).WithTransaction(CtmTxn(engine, address, ReadOf(n)))
      ensures o.Ok? ==> o.value == CtmWords(View(old(bar.chip)), n)
    {
      ghost var w := bar.State();
      CtmFailures(w, bar.size, bar.checks, engine, address, ReadOf(n));
      o := MemRead(bar, RfpcCores.Rfpc0, Ctm, engine, address, n);
      if o.Ok? {
        CallIsDirect(w, bar.size, bar.checks, CtmCall(engine, address, ReadOf(n)));
        CtmIsLogged(w.chip, engine, address, ReadOf(n));
      }
    }

    method WriteCtm(engine: Engine, address: U32, words: seq<U32>) returns (o: Outcome<()>)
      requires Valid()
      modifies bar
      ensures o.Panic? ==> OffWindow(o.why)
      ensures o.Ok? ==> Valid() && Abs() == old(Abs()).WithTransaction(CtmTxn(engine, address, WriteOf(words)))
    {
      ghost var w := bar.State();
      CtmFailures(w, bar.size, bar.checks, engine, address, WriteOf(words));
      o := MemWrite(bar, RfpcCores.Rfpc0, Ctm, engine, address, words);
      if o.Ok? {
        CallIsDirect(w, bar.size, bar.checks, CtmCall(engine, address, WriteOf(words)));
        CtmIsLogged(w.chip, engine, address, WriteOf(words));
      }
    }

    // -------------------------------------------------------------------- handlers

    /** In a window of sensible size: the clock ran out on a command in flight or a running hart. */
    ghost predicate Interrupted(why: Failure)
      reads this, bar
    {
      Roomy(bar) ==> why == Timeout && rfpc.Hart() < HARTS && DmIdOf(rfpc) in bar.chip.dms && Waiting(bar, rfpc)
    }

    /** The outcome is the one its specification gives for the state s; it is a panic only where the
        specification has one, where the hardware is waited for in vain, or where a CTM address is out of
        the window's reach. */
    ghost predicate Follows(s: Stub, o: Outcome<Bytes>, x: Reaction)
      reads this, bar
    {
      && (o.Ok? ==> Valid() && x == Replied(Abs(), Some(o.value)))
      && (x.Died? ==> o.Panic?)
      && (o.Panic? ==> Excused(s, x, o.why, Interrupted(o.why)))
    }

    method ReadReg(packet: Bytes) returns (o: Outcome<Bytes>)
      requires Valid()
      modifies bar
      ensures Follows(old(Abs()), o, AnswerReadReg(old(Abs()), packet))
    {
      if packet == [] { return Panic(BadPacket); }
      var address := ParseU64(packet[1..]);
      if address == None { return Panic(BadPacket); }
      var reg := RegisterAddr(address.value);
      if reg == None { return Panic(UnknownRegister); }
      var v :- ReadRegister(reg.value);
      return Ok(HexSwapped(v));
    }

    method WriteReg(packet: Bytes) returns (o: Outcome<Bytes>)
      requires Valid()
      modifies bar
      ensures Follows(old(Abs()), o, AnswerWriteReg(old(Abs()), packet))
    {
      hide WriteSteps, SwapBytes, ParseU64, RegisterAddr, Position;
      var eq := Position(packet, Code('='));
      if eq == None || eq.value == 0 || eq.value >= |packet| { return Panic(BadPacket); }
      var address := ParseU64(packet[1..eq.value]);
      var value := ParseU64(packet[eq.value + 1..]);
      if address == None || value == None { return Panic(BadPacket); }
      var reg := RegisterAddr(address.value);
      if reg == None { return Panic(UnknownRegister); }
      var _ :- WriteRegister(reg.value, SwapBytes(value.value));
      return Ok(Ascii("OK"));
    }

    /** Appends the hex of registers lo to hi - 1. */
    method PushRange(gprs: Bytes, lo: nat, hi: nat) returns (o: Outcome<Bytes>)
      requires Valid() && lo <= hi <= REGISTERS
      modifies bar
      ensures o.Panic? ==> Interrupted(o.why)
      ensures o.Ok? ==> var s := old(Abs()); var (d, text) := RangeSteps(s.Module(), s.Index(), lo, hi);
        Valid() && Abs() == s.WithModule(d) && o.value == gprs + text
    {
      hide ReadSteps, HexSwapped;
      var text := gprs;
      ghost var s := Abs();
      SameModule(s);
      for reg := lo to hi
        invariant Valid() && Abs() == s.WithModule(RangeSteps(s.Module(), s.Index(), lo, reg).0)
        invariant text == gprs + RangeSteps(s.Module(), s.Index(), lo, reg).1
      {
        ghost var (d, done) := RangeSteps(s.Module(), s.Index(), lo, reg);
        var v :- ReadRegister(reg);
        ModuleTwice(s, d, ReadSteps(d, s.Index(), reg).0);
        Associative(gprs, done, HexSwapped(v));
        text := text + HexSwapped(v);
      }
      return Ok(text);
    }

    /** Since s the first k ranges have been read. */
    ghost predicate Pushed(s: Stub, k: nat, gprs: Bytes)
      reads this, bar
    {
      && Valid() && s.Valid() && k <= |RANGES| && AreRanges(RANGES[..k])
      && (Abs(), gprs) == var (d, text) := RangesSteps(s.Module(), s.Index(), RANGES[..k]); (s.WithModule(d), text)
    }

    lemma NothingPushed()
      requires Valid()
      ensures Pushed(Abs(), 0, [])
    {
      SameModule(Abs());
    }

    lemma AllPushed(s: Stub, gprs: Bytes)
      requires Pushed(s, |RANGES|, gprs)
      ensures Valid() && AnswerReadGprs(s) == Replied(Abs(), Some(gprs))
    {
      hide RangesSteps;
      assert RANGES[..|RANGES|] == RANGES;
    }

    /** Appends the hex of the registers of the next range. */
    method PushNext(gprs: Bytes, lo: nat, hi: nat, ghost s: Stub, ghost k: nat) returns (o: Outcome<Bytes>)
      requires Pushed(s, k, gprs) && k < |RANGES| && RANGES[k] == (lo, hi) && AreRanges(RANGES)
      modifies bar
      ensures o.Panic? ==> Interrupted(o.why)
      ensures o.Ok? ==> Pushed(s, k + 1, o.value)
    {
      hide RangesSteps, RangeSteps, RANGES;
      NextRange(s.Module(), s.Index(), k);
      ghost var d := RangesSteps(s.Module(), s.Index(), RANGES[..k]).0;
      o := PushRange(gprs, lo, hi);
      ModuleTwice(s, d, RangeSteps(d, s.Index(), lo, hi).0);
    }

    /** The ranges one after the other. */
    method PushAll(ghost s: Stub) returns (o: Outcome<Bytes>)
      requires Pushed(s, 0, [])
      modifies bar
      ensures o.Panic? ==> Interrupted(o.why)
      ensures o.Ok? ==> Pushed(s, |RANGES|, o.value)
    {
      hide RangesSteps, RangeSteps, Pushed, Interrupted, AreRanges;
      AreRangesAll();
      var gprs :- PushNext([], 0x1000, 0x1020, s, 0);
      gprs :- PushNext(gprs, 0x300, 0x306, s, 1);
      gprs :- PushNext(gprs, 0x340, 0x345, s, 2);
      gprs :- PushNext(gprs, 0x7b0, 0x7b4, s, 3);
      gprs :- PushNext(gprs, 0x7c0, 0x7c2, s, 4);
      gprs :- PushNext(gprs, 0xb00, 0xb01, s, 5);
      gprs :- PushNext(gprs, 0xb02, 0xb03, s, 6);
      gprs :- PushNext(gprs, 0xc00, 0xc03, s, 7);
      o := PushNext(gprs, 0xf11, 0xf15, s, 8);
    }

    method ReadGprs() returns (o: Outcome<Bytes>)
      requires Valid()
      modifies bar
      ensures Follows(old(Abs()), o, AnswerReadGprs(old(Abs())))
    {
      hide Pushed, AnswerReadGprs;
      ghost var s := Abs();
      NothingPushed();
      var gprs :- PushAll(s);
      AllPushed(s, gprs);
      return Ok(gprs);
    }

    method MemoryRead(packet: Bytes) returns (o: Outcome<Bytes>)
      requires Valid()
      modifies bar
      ensures Follows(old(Abs()), o, AnswerMemoryRead(old(Abs()), packet))
    {
      hide ReadMemorySteps, HexBytes, BigEndianBytes, BytesOfWords, ParsePair, SplitComma, WordCount;
      var (address, length) := SplitComma(packet);
      if address == [] { return Panic(BadPacket); }
      var pair := ParsePair(address[1..], length);
      if pair == None { return Panic(BadPacket); }
      var (a, n) := pair.value;
      var bytes: Bytes;
      if IsCtm(a) {
        var count := WordCount(n, 4, bar.checks);
        if count == None { return Panic(Overflow); }
        var words :- ReadCtm(Bulk32, Masked(a), count.value);
        bytes := BigEndianBytes(words);
      } else {
        var count := WordCount(n, 8, bar.checks);
        if count == None { return Panic(Overflow); }
        if !Fits(Masked(a), 8 * count.value) { return Panic(Overflow); }   // the vector's capacity
        var words :- ReadMemory(Masked(a), count.value);
        bytes := BytesOfWords(words);
      }
      bytes := Take(bytes, n);                     // truncate
      var text := PushHex(bytes);
      return Ok(text);
    }

    method MemoryWrite(packet: Bytes) returns (o: Outcome<Bytes>)
      requires Valid()
      modifies bar
      ensures Follows(old(Abs()), o, AnswerMemoryWrite(old(Abs()), packet))
    {
      hide StoreAt, ParseWrite;
      var parts :- TakeWriteApart(packet);
      var (a, n, data) := parts;
      if n == 0 { return Ok(Ascii("OK")); }
      var remainder := n % 8;
      if remainder != 0 {
        data := data + Zeros(8 - remainder);
      }
      o := StoreBytes(a, data);
    }

    /** The second half of memory_write: to the CTM over the bus, elsewhere through the hart. */
    method StoreBytes(a: U64, data: Bytes) returns (o: Outcome<Bytes>)
      requires Valid()
      modifies bar
      ensures Follows(old(Abs()), o, StoreAt(old(Abs()), a, data))
    {
      hide WriteMemorySteps, WordsOfBytes, Words32OfBytes;
      if IsCtm(a) {
        if |data| % 4 != 0 { return Panic(BadPacket); }
        var _ :- WriteCtm(Bulk32, Masked(a), Words32OfBytes(data));
        return Ok(Ascii("OK"));
      }
      if |data| % 8 != 0 { return Panic(BadPacket); }
      if !Fits(Masked(a), |data|) { return Panic(Overflow); }              // no vector is that long
      var _ :- WriteMemory(Masked(a), WordsOfBytes(data));
      return Ok(Ascii("OK"));
    }

    method SetBreakpoint(packet: Bytes) returns (o: Outcome<Bytes>)
      requires Valid()
      modifies this`breakpoints, bar
      ensures Follows(old(Abs()), o, AnswerSetBreakpoint(old(Abs()), packet))
    {
      hide SetAt;
      if |packet| < 3 { return Panic(BadPacket); }
      var address := ParseU64(Before(packet[3..], Code(',')));
      if address == None { return Panic(BadPacket); }
      var a := address.value;
      o := Arm(a);
    }

    /** The second half of set_breakpoint: the instruction there is remembered and replaced by ebreak. */
    method Arm(a: U64) returns (o: Outcome<Bytes>)
      requires Valid()
      modifies this`breakpoints, bar
      ensures Follows(old(Abs()), o, SetAt(old(Abs()), a))
    {
      hide ReadMemorySteps, WriteMemorySteps, WithEbreak, CtmWords;
      if IsCtm(a) {
        var instr :- ReadCtm(Atomic32, Masked(a), 1);
        breakpoints := breakpoints[a := instr[0]];
        var _ :- WriteCtm(Atomic32, Masked(a), [0x0010_0073]);
      } else {
        var instr :- ReadMemory(Masked(a), 1);
        breakpoints := breakpoints[a := instr[0]];
        var _ :- WriteMemory(Masked(a), [WithEbreak(instr[0])]);
      }
      return Ok(Ascii("OK"));
    }

    method ClearBreakpoint(packet: Bytes) returns (o: Outcome<Bytes>)
      requires Valid()
      modifies this`breakpoints, bar
      ensures Follows(old(Abs()), o, AnswerClearBreakpoint(old(Abs()), packet))
    {
      hide WriteMemorySteps;
      if |packet| < 3 { return Panic(BadPacket); }
      var address := ParseU64(Before(packet[3..], Code(',')));
      if address == None { return Panic(BadPacket); }
      var a := address.value;
      if a !in breakpoints { return Panic(UnknownBreakpoint); }
      var instr := breakpoints[a];
      breakpoints := breakpoints - {a};
      if IsCtm(a) {
        var _ :- WriteCtm(Atomic32, Masked(a), [Lo(instr)]);
      } else {
        var _ :- WriteMemory(Masked(a), [instr]);
      }
      return Ok(Ascii("OK"));
    }

    method GoHandler(go: Go) returns (o: Outcome<Bytes>)
      requires Valid()
      modifies bar
      ensures Follows(old(Abs()), o, AnswerGo(old(Abs()), go))
    {
      var _ :- Run(go);
      return Ok(Ascii("S05"));
    }

    /** `s` and `c`. */
    method GoFrom(go: Go, packet: Bytes) returns (o: Outcome<Bytes>)
      requires Valid()
      modifies bar
      ensures Follows(old(Abs()), o, AnswerGoFrom(old(Abs()), go, packet))
    {
      if |packet| > 1 {
        var address := ParseU64(packet[1..]);
        if address == None { return Panic(BadPacket); }
        var _ :- WriteRegister(DPC, address.value);
      }
      o := GoHandler(go);
    }

    method MulticoreActions(packet: Bytes) returns (o: Outcome<Bytes>)
      requires Valid()
      modifies this`rfpc, bar
      ensures Follows(old(Abs()), o, AnswerMulticore(old(Abs()), packet))
    {
      hide AnswerAct, ParseAction, SplitOn, ReachesCtm;
      if |packet| < 6 { return Panic(BadPacket); }
      var items := SplitOn(packet[6..], Code(';'));
      ghost var s0 := Abs();
      for i := 0 to |items|
        invariant Valid() && AnswerActions(s0, items) == AnswerActions(Abs(), items[i..])
      {
        assert items[i..] == [items[i]] + items[i + 1..];
        FirstAction(Abs(), items[i], items[i + 1..]);
        var action := ParseAction(items[i]);
        if action == None { return Panic(UnknownThread); }
        var _ :- Act(action.value);
      }
      return Ok(Ascii("S05"));
    }

    /** One vCont action. */
    method Act(a: Action) returns (o: Outcome<Bytes>)
      requires Valid() && a.thread < 32
      modifies this`rfpc, bar
      ensures Follows(old(Abs()), o, AnswerAct(old(Abs()), a))
    {
      ThreadsAreHarts(a.thread, ThreadCore(a.thread));
      rfpc := threadMap[a.thread];
      if a.verb == [0x63] {
        o := GoHandler(Continue);
      } else if a.verb == [0x73] {
        o := GoHandler(Step);
      } else if a.verb == [0x74] {
        var _ :- Stop();
        return Ok(Ascii("S05"));
      } else {
        return Panic(BadPacket);
      }
    }

    method ToggleAck() returns (o: Outcome<Bytes>)
      requires Valid()
      modifies this`disableAck
      ensures Follows(old(Abs()), o, AnswerHandler(old(Abs()), Handler.ToggleAck, [])) && o.Ok?
    {
      if !disableAck {
        disableAck := true;
      }
      return Ok(Ascii("OK"));
    }

    /** Runs a handler of the table. */
    method RunHandlerOf(h: Handler, packet: Bytes) returns (o: Outcome<Bytes>)
      requires Valid()
      modifies this, bar
      ensures Follows(old(Abs()), o, AnswerHandler(old(Abs()), h, packet))
    {
      match h
      case CmdNotSupported => return Ok(Ascii(""));
      case ToggleAck => o := ToggleAck();
      case LoadOffsets => return Ok(Ascii("Text=000;Data=000;Bss=000"));
      case SupportedFeatures =>
        if Position(packet, Code(':')) == None { return Panic(BadPacket); }
        return Ok(JoinParts([Ascii("PacketSize=100000"), Ascii("qMemoryRead+"), Ascii("swbreak+")]));
      case ReadGprs => o := ReadGprs();
      case ReadReg => o := ReadReg(packet);
      case WriteReg => o := WriteReg(packet);
      case MemoryRead => o := MemoryRead(packet);
      case MemoryWrite => o := MemoryWrite(packet);
      case SetCore => return Ok(Ascii("OK"));
      case SingleStep => o := GoFrom(Step, packet);
      case SingleStepSig => o := GoHandler(Step);
      case Cont => o := GoFrom(Continue, packet);
      case ContWithSig => o := GoHandler(Continue);
      case SetBreakpoint => o := SetBreakpoint(packet);
      case ClearBreakpoint => o := ClearBreakpoint(packet);
      case SupportedActions => return Ok(Ascii("vCont;c;s;t"));
      case MulticoreActions => o := MulticoreActions(packet);
    }

    /** The entry for a command: the key itself, or else a scan for a prefix. */
    method FindEntry(command: Bytes) returns (entry: Entry)
      ensures entry == Lookup(keys, command)
    {
      var exact := FirstKey(keys, Equals(command)); // the hash map's own lookup
      if exact.Some? {
        return EntryOf(exact.value);
      }
      for i := 0 to |keys|
        invariant FirstKey(keys, Begins(command)) == FirstKey(keys[i..], Begins(command))
      {
        assert keys[i..][0] == keys[i] && keys[i..][1..] == keys[i + 1..];
        if Text(keys[i]) <= command {
          return EntryOf(keys[i]);
        }
      }
      return Entry.Run(CmdNotSupported);
    }

    method HandlePacket(packet: Bytes) returns (o: Outcome<Option<Bytes>>)
      requires Valid()
      modifies this, bar
      ensures o.Ok? ==> Valid() && AnswerPacket(old(Abs()), keys, packet) == Replied(Abs(), o.value)
      ensures AnswerPacket(old(Abs()), keys, packet).Died? ==> o.Panic?
      ensures o.Panic? ==> Excused(old(Abs()), AnswerPacket(old(Abs()), keys, packet), o.why, Interrupted(o.why))
    {
      var entry := FindEntry(Command(packet));
      match entry
      case Answer(reply) => return Ok(Some(reply));
      case Silent => return Ok(None);
      case Run(h) =>
        var reply :- RunHandlerOf(h, packet);
        return Ok(Some(reply));
    }

    /** Frames and sends a reply; false after the reply to a detach. */
    method SendReply(stream: Stream, reply: Option<Bytes>) returns (more: bool)
      modifies stream
      ensures stream.output == old(stream.output) + ReplyBytes(reply) && stream.input == old(stream.input)
      ensures more == (reply != Some(Ascii("detach")))
    {
      if reply == None {
        return true;
      }
      more := reply.value != Ascii("detach");
      var text := FormatRspPacket(if more then reply.value else Ascii("OK"));
      stream.WriteAll(text);
    }

    /** Handles an accepted packet and sends the reply; dies of it when the handler does. */
    method Respond(stream: Stream, payload: Bytes) returns (o: Outcome<bool>)
      requires Valid()
      modifies this, bar, stream
      ensures o.Ok? ==> Valid() && stream.input == old(stream.input)
      ensures o.Ok? ==> Meet(old(Abs()), keys, Packet(payload)).Met?
      ensures o.Ok? ==> var round := Meet(old(Abs()), keys, Packet(payload));
        Abs() == round.stub && stream.output == old(stream.output) + round.sent.reply && o.value == !round.last
      ensures o.Panic? ==> stream.output == old(stream.output)
      ensures o.Panic? ==> Excused(old(Abs()), AnswerPacket(old(Abs()), keys, payload), o.why, Interrupted(o.why))
    {
      var reply :- HandlePacket(payload);
      var more := SendReply(stream, reply);
      return Ok(more);
    }

    /** One round of the serving loop: a packet in, an acknowledgement and a reply out. */
    method ServeRound(stream: Stream) returns (o: Outcome<bool>)
      requires Valid()
      modifies this, bar, stream
      ensures o.Ok? ==> Valid() && Servable(old(Abs()), keys, ParseOnce(old(stream.input)))
      ensures o.Ok? ==> (Abs(), stream.input, o.value) == RoundEnd(old(Abs()), keys, ParseOnce(old(stream.input)))
      ensures o.Ok? ==> stream.output == old(stream.output) + RoundOut(old(Abs()), keys, ParseOnce(old(stream.input)))
      ensures o.Panic? ==> ParseOnce(old(stream.input)).Accepted?
      ensures o.Panic? ==> var payload := ParseOnce(old(stream.input)).payload;
        && stream.output == old(stream.output) + AckFor(old(disableAck), Packet(payload))
        && Excused(old(Abs()), AnswerPacket(old(Abs()), keys, payload), o.why, Interrupted(o.why))
    {
      hide AnswerPacket;
      ghost var out0, s0 := stream.output, Abs();
      var packet := ParseRspPacket(stream, disableAck);
      if packet == None {
        if !disableAck {
          stream.WriteAll([Code('-')]);
        }
        assert stream.output == out0 + AckFor(s0.disableAck, Bad);
        return Ok(true);
      }
      assert stream.output == out0 + AckFor(s0.disableAck, Packet(packet.value));
      o := Respond(stream, packet.value);
      if o.Ok? {
        AckThenReply(out0, Meet(s0, keys, Packet(packet.value)).sent);
      }
    }

    /** A round in terms of the events still to come. */
    method ServeNext(stream: Stream) returns (o: Outcome<bool>, ghost steps: seq<Turn>)
      requires Valid() && stream.input != []
      modifies this, bar, stream
      ensures o.Ok? ==> Valid() && |stream.input| < |old(stream.input)|
      ensures o.Ok? ==> Continues(old(Abs()), keys, old(stream.input), steps, Abs(), stream.input, o.value)
      ensures o.Ok? ==> var closing := Closing(old(Abs()), keys, old(stream.input));
        var left := if o.value then stream.input else [];
        && SentBy(old(stream.output), steps, closing, left, stream.output)
        && (left != [] ==> Closing(Abs(), keys, stream.input) == closing)
      ensures o.Panic? ==> StopsAt(ServeSteps(old(Abs()), keys, Events(old(stream.input))).steps, 0, keys,
                                   old(stream.output), stream.output, o.why, Interrupted(o.why))
    {
      ghost var s0, in0, out0 := Abs(), stream.input, stream.output;
      ParseConsumes(in0);
      o := ServeRound(stream);
      steps := [];
      if o.Ok? {
        RoundContinues(s0, keys, in0);
        RoundSends(s0, keys, in0, out0);
        steps := Contribution(s0, keys, ParseOnce(in0));
      } else {
        StopsHere(s0, keys, in0, out0, stream.output, o.why, Interrupted(o.why));
      }
    }

    /** Serves a connection until the client detaches or has closed it: the acknowledgements and replies of
        the events, and what closes the stream.  If it panics, then at a packet that excuses it, with all
        that came before and that packet's acknowledgement sent. */
    method Serve(stream: Stream) returns (o: Outcome<()>, ghost at: nat)
      requires Valid()
      modifies this, bar, stream
      ensures o.Ok? ==> var course := ServeSteps(old(Abs()), keys, Events(old(stream.input)));
        && Valid() && course.end == Some(Abs())
        && stream.output == old(stream.output) + Flatten(SentsOf(course.steps))
                            + Closing(old(Abs()), keys, old(stream.input))
      ensures o.Panic? ==> StopsAt(ServeSteps(old(Abs()), keys, Events(old(stream.input))).steps, at, keys,
                                   old(stream.output), stream.output, o.why, Interrupted(o.why))
    {
      ghost var s0, in0, out0 := Abs(), stream.input, stream.output;
      ghost var closing := Closing(s0, keys, in0);
      ghost var done: seq<Turn> := [];
      var more := true;
      at := 0;
      ContinuesFromStart(s0, keys, in0);
      assert stream.output == out0 + Flatten(SentsOf([]));
      while more && stream.input != []
        invariant Valid() && Continues(s0, keys, in0, done, Abs(), stream.input, more)
        invariant SentBy(out0, done, closing, if more then stream.input else [], stream.output)
        invariant more && stream.input != [] ==> Closing(Abs(), keys, stream.input) == closing
        decreases |stream.input|
      {
        ghost var s, input, out1 := Abs(), stream.input, stream.output;
        assert out1 == out0 + Flatten(SentsOf(done));
        var r, steps := ServeNext(stream);
        if r.Panic? {
          StopsLater(s0, keys, in0, done, s, input, 0, out0, out1, stream.output, r.why, Interrupted(r.why));
          return Panic(r.why), |done|;
        }
        more := r.value;
        ContinuesTwice(s0, keys, in0, done, s, input, steps, Abs(), stream.input, more);
        SendsTwice(out0, done, out1, steps, closing, if more then stream.input else [], stream.output);
        done := done + steps;
      }
      ContinuesToEnd(s0, keys, in0, done, Abs(), stream.input, more);
      o := Ok(());
    }
  }

  /** The first half of memory_write: the address, the length and the data. */
  method TakeWriteApart(packet: Bytes) returns (o: Outcome<(U64, U64, Bytes)>)
    ensures match ParseWrite(packet)
      case Some(parts) => o == Ok(parts)
      case None => o.Panic?
  {
    var colon := Position(packet, Code(':'));
    if colon == None || colon.value == 0 || colon.value >= |packet| { return Panic(BadPacket); }
    var (address, length) := SplitComma(packet[1..colon.value]);
    var pair := ParsePair(address, length);
    if pair == None { return Panic(BadPacket); }
    return Ok((pair.value.0, pair.value.1, packet[colon.value + 1..]));
  }

  /** The hex of the bytes, pushed one byte at a time. */
  method PushHex(bytes: Bytes) returns (text: Bytes)
    ensures text == HexBytes(bytes)
  {
    text := [];
    for i := 0 to |bytes|
      invariant text == HexBytes(bytes[..i])
    {
      assert bytes[..i + 1][..i] == bytes[..i];
      text := text + HexByte(bytes[i]);
    }
    assert bytes[..|bytes|] == bytes;
  }

  lemma CtmFailures(w: Window, size: nat, checks: bool, engine: Engine, address: U32, kind: Kind)
    requires 0 < size
    ensures var r := ThroughWindow(w, size, checks, CtmCall(engine, address, kind)); r.Panic? ==> OffWindow(r.why)
  {
    var c := CtmCall(engine, address, kind);
    AccessFailures(w.(map_ := CallMap(c)), size, checks, CallRequest(c));
  }

  lemma CtmIsLogged(c: Chip, engine: Engine, address: U32, kind: Kind)
    ensures var r := Directly(c, CtmCall(engine, address, kind));
      && r.0.dms == c.dms && r.0.reply == c.reply && r.0.log == c.log + [CtmTxn(engine, address, kind)]
      && View(r.0) == View(c).(log := View(c).log + [CtmTxn(engine, address, kind)])
      && r.1 == if kind.ReadOf? then CtmWords(View(c), kind.length) else []
  {
    assert !IsXpb(CtmTxn(engine, address, kind));
  }
}
