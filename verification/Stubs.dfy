/** What each packet does and answers in whatever state the harts and the debug modules are: a hart that
    runs, a module with an error nobody looks at, a CSR write that traps. */
module Stubs {
  import opened Numbers
  import opened Hex
  import opened DebugModule
  import opened RfpcCores
  import opened Chip
  import opened Buses
  import opened Commands
  import opened Debugger
  import opened RunControl
  import opened Dispatch
  import opened Handlers

  /** No command in flight, and never a register touched during one. */
  predicate Orderly(dm: Dm) { dm.pending.Idle? && !dm.misused }

  /** The server with the chip behind it, scratch registers and errors of the debug modules included. */
  datatype Stub = Stub(chip: Chip, breakpoints: map<U64, U64>, rfpc: Rfpc, disableAck: bool, checks: bool) {
    /** The core being debugged and the cores of the thread map exist, and all modules are orderly. */
    ghost predicate Valid() {
      && rfpc.Valid() && DmIdOf(rfpc) in chip.dms && DmIdOf(ThreadCore(0)) in chip.dms
      && forall id :: id in chip.dms ==> Orderly(chip.dms[id])
    }

    function Module(): Dm
      requires DmIdOf(rfpc) in chip.dms
    {
      chip.dms[DmIdOf(rfpc)]
    }

    function Index(): (h: nat)
      requires rfpc.Valid()
      ensures h < HARTS
    {
      rfpc.Hart()
    }

    function WithModule(d: Dm): (s: Stub)
      requires Valid() && Orderly(d)
      ensures s.Valid()
    {
      this.(chip := PutDm(chip, rfpc, d))
    }

    function WithTransaction(t: Txn): (s: Stub)
      requires Valid()
      ensures s.Valid()
    {
      this.(chip := chip.(log := chip.log + [t]))
    }
  }

  /** Replied: the new state and the reply, if any.  Died: the stub panics. */
  datatype Reaction = Replied(stub: Stub, reply: Option<Bytes>) | Died

  function Saying(s: Stub, text: string): Reaction { Replied(s, Some(Ascii(text))) }

  // --------------------------------------------------------------------- registers

  function AnswerReadReg(s: Stub, packet: Bytes): Reaction
    requires s.Valid()
  {
    if packet == [] then Died
    else match ParseU64(packet[1..])
      case None => Died
      case Some(n) =>
        match RegisterAddr(n)
        case None => Died
        case Some(reg) =>
          var (d, v) := ReadSteps(s.Module(), s.Index(), reg);
          Replied(s.WithModule(d), Some(HexSwapped(v)))
  }

  /** Register number and value of a register write. */
  function ParseRegWrite(packet: Bytes): (r: Option<(nat, U64)>)
    ensures r.Some? ==> r.value.0 < REGISTERS
  {
    match Position(packet, Code('='))
    case None => None
    case Some(eq) =>
      if eq == 0 || eq >= |packet| then None
      else match (ParseU64(packet[1..eq]), ParseU64(packet[eq + 1..]))
        case (Some(n), Some(v)) =>
          (match RegisterAddr(n)
           case None => None
           case Some(reg) => Some((reg, SwapBytes(v))))
        case _ => None
  }

  function AnswerWriteReg(s: Stub, packet: Bytes): Reaction
    requires s.Valid()
  {
    match ParseRegWrite(packet)
    case None => Died
    case Some((reg, v)) => Saying(s.WithModule(WriteSteps(s.Module(), s.Index(), reg, v)), "OK")
  }

  /** The reads of registers lo to hi - 1, and their digits. */
  function RangeSteps(dm: Dm, h: nat, lo: nat, hi: nat): (r: (Dm, Bytes))
    requires dm.pending.Idle? && h < HARTS && lo <= hi <= REGISTERS
    ensures r.0.pending.Idle? && r.0.misused == dm.misused
    decreases hi - lo
  {
    if lo == hi then (dm, [])
    else
      var (d, text) := RangeSteps(dm, h, lo, hi - 1);
      var (d', v) := ReadSteps(d, h, hi - 1);
      (d', text + HexSwapped(v))
  }

  /** The ranges of registers of read_gprs: general registers, then the CSRs. */
  const RANGES: seq<(nat, nat)> := [
    (0x1000, 0x1020), (0x300, 0x306), (0x340, 0x345), (0x7b0, 0x7b4), (0x7c0, 0x7c2),
    (0xb00, 0xb01), (0xb02, 0xb03), (0xc00, 0xc03), (0xf11, 0xf15)]

  predicate AreRanges(rs: seq<(nat, nat)>) { forall r :: r in rs ==> r.0 <= r.1 <= REGISTERS }

  function RangesSteps(dm: Dm, h: nat, rs: seq<(nat, nat)>): (r: (Dm, Bytes))
    requires dm.pending.Idle? && h < HARTS && AreRanges(rs)
    ensures r.0.pending.Idle? && r.0.misused == dm.misused
    decreases |rs|
  {
    if rs == [] then (dm, [])
    else
      var n := |rs| - 1;
      assert rs[n] in rs;
      var (d, text) := RangesSteps(dm, h, rs[..n]);
      var (d', more) := RangeSteps(d, h, rs[n].0, rs[n].1);
      (d', text + more)
  }

  function AnswerReadGprs(s: Stub): Reaction
    requires s.Valid()
  {
    var (d, text) := RangesSteps(s.Module(), s.Index(), RANGES);
    Replied(s.WithModule(d), Some(text))
  }

  // ------------------------------------------------------------------------ memory

  function AnswerMemoryRead(s: Stub, packet: Bytes): Reaction
    requires s.Valid()
  {
    var (address, length) := SplitComma(packet);
    if address == [] then Died
    else match ParsePair(address[1..], length)
      case None => Died
      case Some((a, n)) => ReadAt(s, a, n)
  }

  /** A vector of 2^61 words or more, which no machine holds, ends the stub. */
  function ReadAt(s: Stub, a: U64, n: U64): Reaction
    requires s.Valid()
  {
    if IsCtm(a) then
      match WordCount(n, 4, s.checks)
      case None => Died
      case Some(count) =>
        Replied(s.WithTransaction(CtmTxn(Bulk32, Masked(a), ReadOf(count))),
                Some(HexBytes(Take(BigEndianBytes(CtmWords(View(s.chip), count)), n))))
    else
      match WordCount(n, 8, s.checks)
      case None => Died
      case Some(count) =>
        if !Fits(Masked(a), 8 * count) then Died
        else
          var (d, words) := ReadMemorySteps(s.Module(), s.Index(), Masked(a), count);
          Replied(s.WithModule(d), Some(HexBytes(Take(BytesOfWords(words), n))))
  }

  function AnswerMemoryWrite(s: Stub, packet: Bytes): Reaction
    requires s.Valid()
  {
    match ParseWrite(packet)
    case None => Died
    case Some((a, n, data)) => if n == 0 then Saying(s, "OK") else StoreAt(s, a, Padded(data, n))
  }

  function StoreAt(s: Stub, a: U64, data: Bytes): Reaction
    requires s.Valid()
  {
    if IsCtm(a) then
      if |data| % 4 != 0 then Died
      else Saying(s.WithTransaction(CtmTxn(Bulk32, Masked(a), WriteOf(Words32OfBytes(data)))), "OK")
    else if |data| % 8 != 0 then Died
    else if !Fits(Masked(a), |data|) then Died
    else Saying(s.WithModule(WriteMemorySteps(s.Module(), s.Index(), Masked(a), WordsOfBytes(data))), "OK")
  }

  // -------------------------------------------------------------------- breakpoints

  function AnswerSetBreakpoint(s: Stub, packet: Bytes): Reaction
    requires s.Valid()
  {
    match BreakpointAddress(packet)
    case None => Died
    case Some(a) => SetAt(s, a)
  }

  function SetAt(s: Stub, a: U64): Reaction
    requires s.Valid()
  {
    if IsCtm(a) then
      var saved := CtmWords(View(s.chip), 1)[0];
      var read := s.WithTransaction(CtmTxn(Atomic32, Masked(a), ReadOf(1)));
      Saying(read.(breakpoints := s.breakpoints[a := saved])
               .WithTransaction(CtmTxn(Atomic32, Masked(a), WriteOf([0x0010_0073]))), "OK")
    else
      var (d, words) := ReadMemorySteps(s.Module(), s.Index(), Masked(a), 1);
      var d' := WriteMemorySteps(d, s.Index(), Masked(a), [WithEbreak(words[0])]);
      Saying(s.(breakpoints := s.breakpoints[a := words[0]]).WithModule(d'), "OK")
  }

  function AnswerClearBreakpoint(s: Stub, packet: Bytes): Reaction
    requires s.Valid()
  {
    match BreakpointAddress(packet)
    case None => Died
    case Some(a) => ClearAt(s, a)
  }

  function ClearAt(s: Stub, a: U64): Reaction
    requires s.Valid()
  {
    if a !in s.breakpoints then Died
    else
      var saved := s.breakpoints[a];
      var s1 := s.(breakpoints := s.breakpoints - {a});
      if IsCtm(a) then
        Saying(s1.WithTransaction(CtmTxn(Atomic32, Masked(a), WriteOf([Lo(saved)]))), "OK")
      else Saying(s1.WithModule(WriteMemorySteps(s.Module(), s.Index(), Masked(a), [saved])), "OK")
  }

  // -------------------------------------------------------------------- run control

  function AnswerGo(s: Stub, go: Go): Reaction
    requires s.Valid()
  {
    var (d, ok) := GoSteps(go, s.Module(), s.Index());
    if ok then Saying(s.WithModule(d), "S05") else Died
  }

  function AnswerGoFrom(s: Stub, go: Go, packet: Bytes): Reaction
    requires s.Valid()
  {
    if |packet| <= 1 then AnswerGo(s, go)
    else match ParseU64(packet[1..])
      case None => Died
      case Some(a) => AnswerGo(s.WithModule(WriteSteps(s.Module(), s.Index(), DPC, a)), go)
  }

  /** The server with thread t selected. */
  function OnThread(s: Stub, t: nat): (s': Stub)
    requires s.Valid() && t < 32
    ensures s'.Valid()
  {
    ThreadsAreHarts(t, ThreadCore(t));
    s.(rfpc := ThreadCore(t))
  }

  function AnswerAct(s: Stub, a: Action): Reaction
    requires s.Valid() && a.thread < 32
  {
    var s1 := OnThread(s, a.thread);
    if a.verb == [0x63] then AnswerGo(s1, Continue)
    else if a.verb == [0x73] then AnswerGo(s1, Step)
    else if a.verb == [0x74] then Saying(s1.WithModule(HaltSteps(s1.Module(), s1.Index())), "S05")
    else Died
  }

  lemma ActStaysValid(s: Stub, a: Action)
    requires s.Valid() && a.thread < 32
    ensures AnswerAct(s, a).Replied? ==> AnswerAct(s, a).stub.Valid() && AnswerAct(s, a).stub.chip.log == s.chip.log
  {
  }

  function AnswerActions(s: Stub, items: seq<Bytes>): Reaction
    requires s.Valid()
    decreases |items|
  {
    if items == [] then Saying(s, "S05")
    else match ParseAction(items[0])
      case None => Died
      case Some(a) =>
        match AnswerAct(s, a)
        case Replied(s1, _) => (ActStaysValid(s, a); AnswerActions(s1, items[1..]))
        case other => other
  }

  function AnswerMulticore(s: Stub, packet: Bytes): Reaction
    requires s.Valid()
  {
    if |packet| < 6 then Died else AnswerActions(s, SplitOn(packet[6..], Code(';')))
  }

  // ------------------------------------------------------------------------ packets

  function AnswerHandler(s: Stub, h: Handler, packet: Bytes): Reaction
    requires s.Valid()
  {
    match h
    case CmdNotSupported => Saying(s, "")
    case ToggleAck => Saying(s.(disableAck := true), "OK")
    case LoadOffsets => Saying(s, "Text=000;Data=000;Bss=000")
    case SupportedFeatures =>
      if Position(packet, Code(':')) == None then Died
      else Replied(s, Some(JoinParts([Ascii("PacketSize=100000"), Ascii("qMemoryRead+"), Ascii("swbreak+")])))
    case ReadGprs => AnswerReadGprs(s)
    case ReadReg => AnswerReadReg(s, packet)
    case WriteReg => AnswerWriteReg(s, packet)
    case MemoryRead => AnswerMemoryRead(s, packet)
    case MemoryWrite => AnswerMemoryWrite(s, packet)
    case SetCore => Saying(s, "OK")
    case SingleStep => AnswerGoFrom(s, Step, packet)
    case SingleStepSig => AnswerGo(s, Step)
    case Cont => AnswerGoFrom(s, Continue, packet)
    case ContWithSig => AnswerGo(s, Continue)
    case SetBreakpoint => AnswerSetBreakpoint(s, packet)
    case ClearBreakpoint => AnswerClearBreakpoint(s, packet)
    case SupportedActions => Saying(s, "vCont;c;s;t")
    case MulticoreActions => AnswerMulticore(s, packet)
  }

  /** What a packet does, for a given iteration order of the command table. */
  function AnswerPacket(s: Stub, keys: seq<Key>, packet: Bytes): Reaction
    requires s.Valid()
  {
    match Lookup(keys, Command(packet))
    case Answer(reply) => Replied(s, Some(reply))
    case Silent => Replied(s, None)
    case Run(h) => AnswerHandler(s, h, packet)
  }

  // --------------------------------------------------------------- what every packet keeps

  /** The server stays fit to serve, with no register of a module ever touched during a command; its
      acknowledgement mode stays, and the bus forgets nothing. */
  ghost predicate Keeps(s: Stub, x: Reaction)
  {
    x.Replied? ==> x.stub.Valid() && x.stub.disableAck == s.disableAck && s.chip.log <= x.stub.chip.log
  }

  lemma RegistersKeep(s: Stub, packet: Bytes)
    requires s.Valid()
    ensures Keeps(s, AnswerReadReg(s, packet)) && Keeps(s, AnswerWriteReg(s, packet)) && Keeps(s, AnswerReadGprs(s))
  {
    hide ReadSteps, WriteSteps, RangesSteps;
  }

  lemma MemoryKeeps(s: Stub, packet: Bytes)
    requires s.Valid()
    ensures Keeps(s, AnswerMemoryRead(s, packet)) && Keeps(s, AnswerMemoryWrite(s, packet))
  {
    hide ReadMemorySteps, WriteMemorySteps;
  }

  lemma BreakpointsKeep(s: Stub, packet: Bytes)
    requires s.Valid()
    ensures Keeps(s, AnswerSetBreakpoint(s, packet)) && Keeps(s, AnswerClearBreakpoint(s, packet))
  {
    hide ReadMemorySteps, WriteMemorySteps;
  }

  lemma RunsKeep(s: Stub, go: Go, packet: Bytes)
    requires s.Valid()
    ensures Keeps(s, AnswerGo(s, go)) && Keeps(s, AnswerGoFrom(s, go, packet))
  {
    hide GoSteps, WriteSteps;
  }

  lemma ActKeeps(s: Stub, a: Action)
    requires s.Valid() && a.thread < 32
    ensures Keeps(s, AnswerAct(s, a))
  {
    hide GoSteps, HaltSteps;
    ActStaysValid(s, a);
    RunsKeep(OnThread(s, a.thread), Step, []);
    RunsKeep(OnThread(s, a.thread), Continue, []);
  }

  lemma {:induction false} ActionsKeep(s: Stub, items: seq<Bytes>)
    requires s.Valid()
    ensures Keeps(s, AnswerActions(s, items))
    decreases |items|
  {
    hide AnswerAct, ParseAction;
    if items != [] && ParseAction(items[0]).Some? {
      var x := AnswerAct(s, ParseAction(items[0]).value);
      ActKeeps(s, ParseAction(items[0]).value);
      if x.Replied? { ActionsKeep(x.stub, items[1..]); }
    }
  }

  lemma HandlerKeeps(s: Stub, h: Handler, packet: Bytes)
    requires s.Valid()
    ensures h != ToggleAck ==> Keeps(s, AnswerHandler(s, h, packet))
    ensures h == ToggleAck ==> AnswerHandler(s, h, packet) == Saying(s.(disableAck := true), "OK")
  {
    hide AnswerReadReg, AnswerWriteReg, AnswerReadGprs, AnswerMemoryRead, AnswerMemoryWrite, AnswerSetBreakpoint,
         AnswerClearBreakpoint, AnswerGo, AnswerGoFrom, AnswerActions;
    match h {
      case ReadGprs | ReadReg | WriteReg => RegistersKeep(s, packet);
      case MemoryRead | MemoryWrite => MemoryKeeps(s, packet);
      case SetBreakpoint | ClearBreakpoint => BreakpointsKeep(s, packet);
      case SingleStep | SingleStepSig => RunsKeep(s, Step, packet);
      case Cont | ContWithSig => RunsKeep(s, Continue, packet);
      case MulticoreActions => if |packet| >= 6 { ActionsKeep(s, SplitOn(packet[6..], Code(';'))); }
      case _ =>
    }
  }

  lemma PacketKeeps(s: Stub, keys: seq<Key>, packet: Bytes)
    requires s.Valid() && AnswerPacket(s, keys, packet).Replied?
    ensures AnswerPacket(s, keys, packet).stub.Valid()
    ensures AnswerPacket(s, keys, packet).stub.disableAck
         == (s.disableAck || Lookup(keys, Command(packet)) == Run(ToggleAck))
    ensures s.chip.log <= AnswerPacket(s, keys, packet).stub.chip.log
  {
    hide AnswerHandler;
    match Lookup(keys, Command(packet)) {
      case Run(h) => HandlerKeeps(s, h, packet);
      case _ =>
    }
  }
}
