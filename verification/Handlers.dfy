/** What each packet of rsp_server_stub.rs does to the harts, and what it answers. */
module Handlers {
  import opened Numbers
  import opened Hex
  import opened DebugModule
  import opened RfpcCores
  import opened Chip
  import opened ExpansionBar
  import opened Buses
  import opened Commands
  import opened Debugger
  import opened RunControl
  import opened Framing
  import opened Dispatch

  /** The chip without the debug modules' scratch registers: harts, CPP log, and what the log's
      reads return. */
  datatype Machine = Machine(cores: map<DmId, Core>, log: seq<Txn>, reply: (nat, nat) -> U32)

  function View(c: Chip): Machine
  {
    Machine(map id | id in c.dms :: c.dms[id].core, c.log, c.reply)
  }

  datatype Server = Server(machine: Machine, breakpoints: map<U64, U64>, rfpc: Rfpc, disableAck: bool, checks: bool) {
    /** The core being debugged and the cores of the thread map exist. */
    predicate Valid() {
      rfpc.Valid() && DmIdOf(rfpc) in machine.cores && DmIdOf(ThreadCore(0)) in machine.cores
    }

    function Core(): Core
      requires Valid()
    {
      machine.cores[DmIdOf(rfpc)]
    }

    /** The number of the hart being debugged. */
    function Index(): (h: nat)
      requires Valid()
      ensures h < 32
    {
      rfpc.Hart()
    }

    function Hart(): Hart
      requires Valid()
    {
      Core().harts[Index()]
    }

    predicate Halted()
      requires Valid()
    {
      Hart().run.Halted?
    }

    predicate Traps(csr: nat)
      requires Valid()
    {
      csr in Core().env.traps
    }

    function WithCore(c: Core): (s: Server)
      requires Valid()
      ensures s.Valid()
    {
      this.(machine := machine.(cores := machine.cores[DmIdOf(rfpc) := c]))
    }

    function WithHart(h: Hart): (s: Server)
      requires Valid()
      ensures s.Valid()
    {
      WithCore(WithHartAt(Core(), Index(), h))
    }
  }

  lemma SameHart(s: Server)
    requires s.Valid()
    ensures s.WithHart(s.Hart()) == s
  {
    Unchanged(s.Core(), s.rfpc.Hart());
    assert s.machine.cores[DmIdOf(s.rfpc) := s.Core()] == s.machine.cores;
  }

  /** Done: the new state and the reply, if any.  Dies: the stub panics.  Stuck: the stub drives a debug module
      that then answers with an error (a hart that runs, a CSR write that traps) or asks for a vector of 2^61
      words; what it does then depends on the scratch registers, and is left to Stubs. */
  datatype Result = Done(server: Server, reply: Option<Bytes>) | Dies | Stuck

  function Says(s: Server, text: string): Result { Done(s, Some(Ascii(text))) }

  // --------------------------------------------------------------------- registers

  function ReadRegResult(s: Server, packet: Bytes): Result
    requires s.Valid()
  {
    if packet == [] then Dies
    else match ParseU64(packet[1..])
      case None => Dies
      case Some(n) =>
        match RegisterAddr(n)
        case None => Dies
        case Some(reg) => if !s.Halted() then Stuck else Done(s, Some(HexSwapped(s.Hart().regs[reg])))
  }

  function WriteRegResult(s: Server, packet: Bytes): Result
    requires s.Valid()
  {
    match Position(packet, Code('='))
    case None => Dies
    case Some(eq) =>
      if eq == 0 || eq >= |packet| then Dies
      else match (ParseU64(packet[1..eq]), ParseU64(packet[eq + 1..]))
        case (Some(n), Some(v)) =>
          (match RegisterAddr(n)
           case None => Dies
           case Some(reg) =>
             if !s.Halted() || (reg < X0 && s.Traps(reg)) then Stuck
             else Says(s.WithHart(Written(s.Hart(), reg, SwapBytes(v))), "OK"))
        case _ => Dies
  }

  /** The hex of registers lo to hi - 1. */
  function HexRange(regs: seq<U64>, lo: nat, hi: nat): Bytes
    requires |regs| == 0x1020 && lo <= hi <= 0x1020
    decreases |regs|, hi - lo
  {
    if lo == hi then [] else HexRange(regs, lo, hi - 1) + HexSwapped(regs[hi - 1])
  }

  /** The ranges read_gprs runs over, one after the other: up to mafstatus, and the rest. */
  function FirstRegisters(regs: seq<U64>): Bytes
    requires |regs| == 0x1020
  {
    HexRange(regs, 0x1000, 0x1020) + HexRange(regs, 0x300, 0x306) + HexRange(regs, 0x340, 0x345)
    + HexRange(regs, 0x7b0, 0x7b4) + HexRange(regs, 0x7c0, 0x7c2)
  }

  function AllRegisters(regs: seq<U64>): Bytes
    requires |regs| == 0x1020
  {
    FirstRegisters(regs) + HexSwapped(regs[0xb00]) + HexSwapped(regs[0xb02])
    + HexRange(regs, 0xc00, 0xc03) + HexRange(regs, 0xf11, 0xf15)
  }

  function ReadGprsResult(s: Server): Result
    requires s.Valid()
  {
    if !s.Halted() then Stuck else Done(s, Some(AllRegisters(s.Hart().regs)))
  }

  // ------------------------------------------------------------------------ memory

  predicate IsCtm(address: U64) { address / 0x1_0000_0000_0000 % 16 == 1 }

  function Masked(address: U64): U32 { address % 0x1_0000_0000 }

  /** `splitn(2, ",")`: what precedes the first comma, and what follows it, if there is one. */
  function SplitComma(s: Bytes): (Bytes, Option<Bytes>)
  {
    (Before(s, Code(',')), if Code(',') in s then Some(After(s, Code(','))) else None)
  }

  /** The address and the length around the comma. */
  function ParsePair(address: Bytes, length: Option<Bytes>): Option<(U64, U64)>
  {
    if length == None then None
    else match (ParseU64(address), ParseU64(length.value))
      case (Some(a), Some(n)) => Some((a, n))
      case _ => None
  }

  /** A call of mem_read or mem_write on the CTM of island Rfpc0. */
  function CtmCall(engine: Engine, address: U32, kind: Kind): Call
  {
    MemCall(RfpcCores.Rfpc0, Ctm, engine, address, kind)
  }

  function CtmTxn(engine: Engine, address: U32, kind: Kind): Txn
  {
    Requested(MapType.Fixed, CallRequest(CtmCall(engine, address, kind)))
  }

  /** The words a CTM read returns. */
  function CtmWords(m: Machine, n: nat): (ws: seq<U32>)
    ensures |ws| == n
  {
    var word: nat -> U32 := (i: nat) => m.reply(|m.log|, i);
    seq(n, i requires 0 <= i => word(i))
  }

  function WithTxn(s: Server, t: Txn): (s': Server)
    requires s.Valid()
    ensures s'.Valid()
  {
    s.(machine := s.machine.(log := s.machine.log + [t]))
  }

  /** The bytes of 32-bit words after swap_bytes: most significant first. */
  function BigEndianBytes(ws: seq<U32>): (bs: Bytes)
    ensures |bs| == 4 * |ws|
  {
    if ws == [] then [] else BigEndianBytes(ws[..|ws| - 1]) + Reverse(LE(ws[|ws| - 1], 4))
  }

  /** `cast_slice::<u8, u32>` on a little-endian machine. */
  function Words32OfBytes(bs: Bytes): (ws: seq<U32>)
    requires |bs| % 4 == 0
    ensures |ws| == |bs| / 4
  {
    if bs == [] then []
    else
      var last := bs[|bs| - 4..];
      FromLEBound(last);
      Pow256Of8();
      Words32OfBytes(bs[..|bs| - 4]) + [FromLE(last)]
  }

  function Take(bs: Bytes, n: nat): Bytes { if n < |bs| then bs[..n] else bs }

  /** `(length + size - 1) / size` on u64: past the top it panics or wraps. */
  function WordCount(length: U64, size: nat, checks: bool): Option<nat>
    requires size in {4, 8}
  {
    var sum := length + size - 1;
    if sum < 0x1_0000_0000_0000_0000 then Some(sum / size)
    else if checks then None
    else Some((sum - 0x1_0000_0000_0000_0000) / size)
  }

  function MemoryReadResult(s: Server, packet: Bytes): Result
    requires s.Valid()
  {
    var (address, length) := SplitComma(packet);
    if address == [] then Dies
    else match ParsePair(address[1..], length)
      case None => Dies
      case Some((a, n)) =>
        if IsCtm(a) then
          match WordCount(n, 4, s.checks)
          case None => Dies
          case Some(count) =>
            Done(WithTxn(s, CtmTxn(Bulk32, Masked(a), ReadOf(count))),
                 Some(HexBytes(Take(BigEndianBytes(CtmWords(s.machine, count)), n))))
        else
          match WordCount(n, 8, s.checks)
          case None => Dies
          case Some(count) =>
            if !s.Halted() || !Fits(Masked(a), 8 * count) then Stuck
            else Done(s, Some(HexBytes(Take(Peek(s.Hart().mem, Masked(a), 8 * count), n))))
  }

  function Zeros(n: nat): (bs: Bytes)
    ensures |bs| == n
  {
    seq(n, _ => 0)
  }

  /** The data as it is written: zero-filled by what the declared length lacks to a multiple of 8. */
  function Padded(data: Bytes, length: nat): Bytes
  {
    if length % 8 == 0 then data else data + Zeros(8 - length % 8)
  }

  /** Address, length and data of a memory write. */
  function ParseWrite(packet: Bytes): Option<(U64, U64, Bytes)>
  {
    match Position(packet, Code(':'))
    case None => None
    case Some(colon) =>
      if colon == 0 || colon >= |packet| then None
      else
        var (address, length) := SplitComma(packet[1..colon]);
        match ParsePair(address, length)
        case None => None
        case Some((a, n)) => Some((a, n, packet[colon + 1..]))
  }

  function MemoryWriteResult(s: Server, packet: Bytes): Result
    requires s.Valid()
  {
    match ParseWrite(packet)
    case None => Dies
    case Some((a, n, data)) => if n == 0 then Says(s, "OK") else StoreResult(s, a, Padded(data, n))
  }

  function StoreResult(s: Server, a: U64, data: Bytes): Result
    requires s.Valid()
  {
    if IsCtm(a) then
      if |data| % 4 != 0 then Dies
      else Says(WithTxn(s, CtmTxn(Bulk32, Masked(a), WriteOf(Words32OfBytes(data)))), "OK")
    else if |data| % 8 != 0 then Dies
    else if !s.Halted() || !Fits(Masked(a), |data|) then Stuck
    else Says(s.WithHart(s.Hart().(mem := Poke(s.Hart().mem, Masked(a), data))), "OK")
  }

  // -------------------------------------------------------------------- breakpoints

  /** The word with its low half replaced by ebreak. */
  function WithEbreak(word: U64): U64 { Join(Hi(word), 0x0010_0073) }

  function BreakpointAddress(packet: Bytes): Option<U64>
  {
    if |packet| < 3 then None else ParseU64(Before(packet[3..], Code(',')))
  }

  function SetBreakpointResult(s: Server, packet: Bytes): Result
    requires s.Valid()
  {
    match BreakpointAddress(packet)
    case None => Dies
    case Some(a) => SetResult(s, a)
  }

  function SetResult(s: Server, a: U64): Result
    requires s.Valid()
  {
    if IsCtm(a) then
      var saved := CtmWords(s.machine, 1)[0];
      var read := WithTxn(s, CtmTxn(Atomic32, Masked(a), ReadOf(1))).(breakpoints := s.breakpoints[a := saved]);
      Says(WithTxn(read, CtmTxn(Atomic32, Masked(a), WriteOf([0x0010_0073]))), "OK")
    else if !s.Halted() then Stuck
    else
      var saved := WordOf(Peek(s.Hart().mem, Masked(a), 8));
      var mem := Poke(s.Hart().mem, Masked(a), LE(WithEbreak(saved), 8));
      Says(s.(breakpoints := s.breakpoints[a := saved]).WithHart(s.Hart().(mem := mem)), "OK")
  }

  function ClearBreakpointResult(s: Server, packet: Bytes): Result
    requires s.Valid()
  {
    match BreakpointAddress(packet)
    case None => Dies
    case Some(a) => ClearResult(s, a)
  }

  function ClearResult(s: Server, a: U64): Result
    requires s.Valid()
  {
    if a !in s.breakpoints then Dies
    else
      var saved := s.breakpoints[a];
      var s1 := s.(breakpoints := s.breakpoints - {a});
      if IsCtm(a) then
        Says(WithTxn(s1, CtmTxn(Atomic32, Masked(a), WriteOf([Lo(saved)]))), "OK")
      else if !s.Halted() then Stuck
      else Says(s1.WithHart(s.Hart().(mem := Poke(s.Hart().mem, Masked(a), LE(saved, 8)))), "OK")
  }

  // -------------------------------------------------------------------- run control

  function GoResult(s: Server, go: Go): Result
    requires s.Valid()
  {
    if !s.Halted() || s.Traps(DCSR) then Stuck
    else match Go1(go, s.Core(), s.Index())
      case None => Dies
      case Some(c) => Says(s.WithCore(c), "S05")
  }

  /** `s` and `c`, with or without an address to resume at. */
  function GoFromResult(s: Server, go: Go, packet: Bytes): Result
    requires s.Valid()
  {
    if |packet| <= 1 then GoResult(s, go)
    else match ParseU64(packet[1..])
      case None => Dies
      case Some(a) =>
        if !s.Halted() || s.Traps(DPC) then Stuck
        else GoResult(s.WithHart(Written(s.Hart(), DPC, a)), go)
  }

  /** The pieces between the separators; there is always at least one. */
  function SplitOn(s: Bytes, b: U8): (parts: seq<Bytes>)
    ensures parts != []
    decreases |s|
  {
    AfterIsShorter(s, b);
    if b !in s then [s] else [Before(s, b)] + SplitOn(After(s, b), b)
  }

  datatype Action = Action(verb: Bytes, thread: nat)

  /** `action:thread-id`, the id in decimal and known to the thread map. */
  function ParseAction(item: Bytes): (a: Option<Action>)
    ensures a.Some? ==> a.value.thread < 32
  {
    if Code(':') !in item then None
    else match FromStrRadix(Before(After(item, Code(':')), Code(':')), 10, 0x1_0000)
      case Some(t) => if t < 32 then Some(Action(Before(item, Code(':')), t)) else None
      case None => None
  }

  /** One vCont action, on the core of its thread, which stays selected. */
  function ActResult(s: Server, a: Action): Result
    requires s.Valid() && a.thread < 32
  {
    var s1 := s.(rfpc := ThreadCore(a.thread));
    ThreadsAreHarts(a.thread, ThreadCore(a.thread));
    if a.verb == [0x63] then GoResult(s1, Continue)
    else if a.verb == [0x73] then GoResult(s1, Step)
    else if a.verb == [0x74] then Says(s1.WithCore(Stopped(s1.Core(), a.thread)), "S05")
    else Dies
  }

  function ActionsResult(s: Server, items: seq<Bytes>): Result
    requires s.Valid()
    decreases |items|
  {
    if items == [] then Says(s, "S05")
    else match ParseAction(items[0])
      case None => Dies
      case Some(a) =>
        match ActResult(s, a)
        case Done(s1, _) => (ActKeepsValid(s, a); ActionsResult(s1, items[1..]))
        case other => other
  }

  lemma ActKeepsValid(s: Server, a: Action)
    requires s.Valid() && a.thread < 32
    ensures ActResult(s, a).Done? ==> ActResult(s, a).server.Valid()
  {
    ThreadsAreHarts(a.thread, ThreadCore(a.thread));
  }

  function MulticoreResult(s: Server, packet: Bytes): Result
    requires s.Valid()
  {
    if |packet| < 6 then Dies else ActionsResult(s, SplitOn(packet[6..], Code(';')))
  }

  // ------------------------------------------------------------------------ packets

  /** The parts with semicolons between them. */
  function JoinParts(parts: seq<Bytes>): Bytes
  {
    if parts == [] then [] else if |parts| == 1 then parts[0] else parts[0] + [Code(';')] + JoinParts(parts[1..])
  }

  function RunHandler(s: Server, h: Handler, packet: Bytes): Result
    requires s.Valid()
  {
    match h
    case CmdNotSupported => Says(s, "")
    case ToggleAck => Says(s.(disableAck := true), "OK")
    case LoadOffsets => Says(s, "Text=000;Data=000;Bss=000")
    case SupportedFeatures =>
      if Position(packet, Code(':')) == None then Dies
      else Done(s, Some(JoinParts([Ascii("PacketSize=100000"), Ascii("qMemoryRead+"), Ascii("swbreak+")])))
    case ReadGprs => ReadGprsResult(s)
    case ReadReg => ReadRegResult(s, packet)
    case WriteReg => WriteRegResult(s, packet)
    case MemoryRead => MemoryReadResult(s, packet)
    case MemoryWrite => MemoryWriteResult(s, packet)
    case SetCore => Says(s, "OK")
    case SingleStep => GoFromResult(s, Step, packet)
    case SingleStepSig => GoResult(s, Step)
    case Cont => GoFromResult(s, Continue, packet)
    case ContWithSig => GoResult(s, Continue)
    case SetBreakpoint => SetBreakpointResult(s, packet)
    case ClearBreakpoint => ClearBreakpointResult(s, packet)
    case SupportedActions => Says(s, "vCont;c;s;t")
    case MulticoreActions => MulticoreResult(s, packet)
  }

  /** What a packet does, for a given iteration order of the command table. */
  function Handle(s: Server, keys: seq<Key>, packet: Bytes): Result
    requires s.Valid()
  {
    match Lookup(keys, Command(packet))
    case Answer(reply) => Done(s, Some(reply))
    case Silent => Done(s, None)
    case Run(h) => RunHandler(s, h, packet)
  }
}
