/** The packets in the client's own terms: its letters, its addresses, the bytes of memory and the fields of bus
    transactions, as numbers. */
module ClientView {
  import opened Numbers
  import opened Hex
  import opened DebugModule
  import opened RfpcCores
  import opened Chip
  import opened Buses
  import opened RunControl
  import opened Framing
  import opened Dispatch
  import opened Handlers
  import opened Session
  import opened Packets
  import opened EndToEnd
  import opened Registers
  import opened Breakpoints
  import opened BreakpointPackets
  import opened Resuming

  // ------------------------------------------------------------------------ memory

  /** Bits 51:48 of an address are 1 for the CTM and for nothing else; only bits 31:0 go any further. */
  lemma AddressFieldsOf(a: U64)
    ensures IsCtm(a) <==> a / 0x1_0000_0000_0000 % 16 == 1
    ensures Masked(a) == a % 0x1_0000_0000
  {
  }

  /** The server with a hart's memory replaced. */
  function WithMemory(s: Server, mem: Memory): (s': Server)
    requires s.Valid()
    ensures s'.Valid() && s'.Hart() == s.Hart().(mem := mem)
  {
    s.WithHart(s.Hart().(mem := mem))
  }

  /** The bytes and zeros up to the next multiple of 8. */
  function ZeroFilled(bs: Bytes): (r: Bytes)
    ensures |bs| <= |r| < |bs| + 8
  {
    if |bs| % 8 == 0 then bs else bs + seq(8 - |bs| % 8, _ => 0)
  }

  lemma ZeroFill(data: Bytes)
    ensures Padded(data, |data|) == ZeroFilled(data) && |ZeroFilled(data)| % 4 == 0
  {
    PaddedLength(data, |data|);
    MultipleOf8(|Padded(data, |data|)|);
  }

  lemma MultipleOf8(n: nat)
    requires n % 8 == 0
    ensures n % 4 == 0
  {
  }

  /** `Xaddr,len:data` stores the data at the address's low 32 bits, and zeros up to the next multiple of 8. */
  lemma XStores(s: Server, keys: seq<Key>, a: Number, n: Number, data: Bytes)
    requires s.Valid() && s.Halted() && Order(keys) && a.Valid() && n.Valid() && n.value == |data|
    requires a.value / 0x1_0000_0000_0000 % 16 != 1 && a.value % 0x1_0000_0000 + |data| + 8 <= 0x1_0000_0000_0000_0000
    ensures var mem := Poke(s.Hart().mem, a.value % 0x1_0000_0000, ZeroFilled(data));
      Handle(s, keys, [0x58] + a.Text() + [0x2C] + n.Text() + [0x3A] + data) == Says(WithMemory(s, mem), "OK")
  {
    hide Handle;
    XPacketText(a, n, data);
    ZeroFill(data);
    EndToEnd.WriteData(s, keys, a, n, data);
  }

  /** `maddr,len` answers the hex of the bytes at the address's low 32 bits. */
  lemma MReads(s: Server, keys: seq<Key>, a: Number, n: Number)
    requires s.Valid() && s.Halted() && Order(keys) && a.Valid() && n.Valid()
    requires a.value / 0x1_0000_0000_0000 % 16 != 1 && a.value % 0x1_0000_0000 + n.value + 8 <= 0x1_0000_0000_0000_0000
    ensures var m := a.value % 0x1_0000_0000;
      Handle(s, keys, [0x6D] + a.Text() + [0x2C] + n.Text()) == Done(s, Some(HexBytes(s.Hart().mem[m..m + n.value])))
  {
    hide Handle;
    MPacketText(a, n);
    ReadHandled(s, keys, a, n);
  }

  /** `Z0,addr,kind` puts ebreak at the address's low 32 bits, and remembers the eight bytes there. */
  lemma Z0Plants(s: Server, keys: seq<Key>, a: Number, kind: Bytes)
    requires s.Valid() && s.Halted() && Order(keys) && a.Valid() && Free(kind, 0x3A)
    requires a.value / 0x1_0000_0000_0000 % 16 != 1
    ensures var m, mem := a.value % 0x1_0000_0000, s.Hart().mem;
      Handle(s, keys, [0x5A, 0x30, 0x2C] + a.Text() + [0x2C] + kind)
      == Says(WithMem(s, s.breakpoints[a.value := WordOf(mem[m..m + 8])],
                      mem[..m] + [0x73, 0x00, 0x10, 0x00] + mem[m + 4..]), "OK")
  {
    hide Handle, Apply;
    var r := Request(Set(a.value), a.digits, kind);
    RequestText(a, kind);
    RequestHandled(s, keys, r);
    ApplyIsApplyMem(s, r.op);
  }

  /** `z0,addr,kind` puts those eight bytes back, or kills the stub when the address was never set. */
  lemma Z0PutsBack(s: Server, keys: seq<Key>, a: Number, kind: Bytes)
    requires s.Valid() && s.Halted() && Order(keys) && a.Valid() && Free(kind, 0x3A)
    requires a.value / 0x1_0000_0000_0000 % 16 != 1
    ensures var m, mem := a.value % 0x1_0000_0000, s.Hart().mem;
      Handle(s, keys, [0x7A, 0x30, 0x2C] + a.Text() + [0x2C] + kind)
      == if a.value !in s.breakpoints then Dies
         else Says(WithMem(s, s.breakpoints - {a.value}, mem[..m] + LE(s.breakpoints[a.value], 8) + mem[m + 8..]), "OK")
  {
    hide Handle, Apply;
    var r := Request(Clear(a.value), a.digits, kind);
    RequestText(a, kind);
    RequestHandled(s, keys, r);
    ApplyIsApplyMem(s, r.op);
  }

  /** The upper half of an address makes no difference to `X` and `m` unless it names the CTM. */
  lemma UpperHalfIgnored(s: Server, keys: seq<Key>, a: Number, low: Number, n: Number, data: Bytes)
    requires s.Valid() && s.Halted() && Order(keys) && a.Valid() && low.Valid() && n.Valid() && n.value == |data|
    requires a.value / 0x1_0000_0000_0000 % 16 != 1 && low.value == a.value % 0x1_0000_0000
    requires low.value + |data| + 8 <= 0x1_0000_0000_0000_0000
    ensures Handle(s, keys, [0x58] + a.Text() + [0x2C] + n.Text() + [0x3A] + data)
         == Handle(s, keys, [0x58] + low.Text() + [0x2C] + n.Text() + [0x3A] + data)
    ensures Handle(s, keys, [0x6D] + a.Text() + [0x2C] + n.Text())
         == Handle(s, keys, [0x6D] + low.Text() + [0x2C] + n.Text())
  {
    hide Handle, Poke, HexBytes, WithMemory, Number.Text, ZeroFilled;
    XStores(s, keys, a, n, data);
    XStores(s, keys, low, n, data);
    MReads(s, keys, a, n);
    MReads(s, keys, low, n);
  }

  /** The words a length rounds up to: past the top of 64 bits the sum overflows, which panics with overflow
      checks and else leaves no word at all. */
  lemma WordCounts(length: U64, size: nat, checks: bool)
    requires size in {4, 8}
    ensures WordCount(length, size, checks) ==
      if length <= 0x1_0000_0000_0000_0000 - size then Some(if length == 0 then 0 else (length - 1) / size + 1)
      else if checks then None else Some(0)
  {
  }

  /** `m` for more than 2^64 - 8 bytes: the stub dies, or answers with nothing in a build without checks. */
  lemma MOverflows(s: Server, keys: seq<Key>, a: Number, n: Number)
    requires s.Valid() && s.Halted() && Order(keys) && a.Valid() && n.Valid()
    requires a.value / 0x1_0000_0000_0000 % 16 != 1 && n.value > 0xFFFF_FFFF_FFFF_FFF8
    ensures Handle(s, keys, [0x6D] + a.Text() + [0x2C] + n.Text()) == if s.checks then Dies else Done(s, Some([]))
  {
    hide Handle, MPacket, SplitComma, ParsePair, WordCount, Number.Text;
    MPacketText(a, n);
    MPacketDispatch(keys, a, n);
    HandlerRuns(s, keys, MPacket(a, n), MemoryRead);
    RunsMemoryRead(s, MPacket(a, n));
    MPacketTakenApart(a, n);
    WordCounts(n.value, 8, s.checks);
  }

  // ------------------------------------------------------------------------ the CTM

  /** A transaction with the CTM of island 9: target 7, token 0, length 0. */
  function CtmAccess(action: nat, address: nat, kind: Kind): Txn
  {
    Txn(9, Some(7), Some(0), Some(action), 0, address, kind)
  }

  lemma CtmFields(engine: Engine, a: U64, kind: Kind)
    requires engine != Bulk64
    ensures CtmTxn(engine, Masked(a), kind) == CtmAccess(MemAction(Ctm, engine, kind), a % 0x1_0000_0000, kind)
  {
    MemTransaction(RfpcCores.Rfpc0, Ctm, engine, Masked(a), kind);
    IslandIds();
  }

  /** The server with more bus transactions. */
  function WithLog(s: Server, txns: seq<Txn>): Server
  {
    s.(machine := s.machine.(log := s.machine.log + txns))
  }

  /** A 32-bit word from its bytes, least significant first. */
  function Word32(b0: nat, b1: nat, b2: nat, b3: nat): nat
  {
    b0 + 0x100 * b1 + 0x1_0000 * b2 + 0x100_0000 * b3
  }

  /** The words of the bytes, in order. */
  function WordsFrom(bs: Bytes): (ws: seq<U32>)
    requires |bs| % 4 == 0
    ensures |ws| == |bs| / 4
  {
    seq(|bs| / 4, i requires 0 <= i < |bs| / 4 => Word32(bs[4 * i], bs[4 * i + 1], bs[4 * i + 2], bs[4 * i + 3]))
  }

  lemma FourBytes(bs: Bytes)
    requires |bs| == 4
    ensures FromLE(bs) == Word32(bs[0], bs[1], bs[2], bs[3])
  {
    assert FromLE(bs[1..]) == bs[1] + 256 * FromLE(bs[1..][1..]);
    assert bs[1..][1..] == bs[2..] && bs[2..][1..] == bs[3..] && bs[3..][1..] == [];
    assert FromLE(bs[2..]) == bs[2] + 256 * FromLE(bs[3..]);
    assert FromLE(bs[3..]) == bs[3] + 256 * FromLE([]);
  }

  /** Word i of what a write to the CTM puts on the bus is made of bytes 4i to 4i + 3. */
  lemma {:induction false} CastKeepsOrder(bs: Bytes)
    requires |bs| % 4 == 0
    ensures Words32OfBytes(bs) == WordsFrom(bs)
  {
    hide FromLE, Word32;
    if bs != [] {
      var front, last := bs[..|bs| - 4], bs[|bs| - 4..];
      CastKeepsOrder(front);
      FourBytes(last);
      assert WordsFrom(bs) == WordsFrom(front) + [Word32(last[0], last[1], last[2], last[3])];
    }
  }

  /** `m` for the CTM: one read with action 28; of each word the bytes are sent most significant first, and of
      the last one as many as were asked for. */
  lemma CtmMReads(s: Server, keys: seq<Key>, a: Number, n: Number)
    requires s.Valid() && Order(keys) && a.Valid() && n.Valid() && n.value + 3 < 0x1_0000_0000_0000_0000
    requires a.value / 0x1_0000_0000_0000 % 16 == 1
    ensures var count := (n.value + 3) / 4; var words := CtmWords(s.machine, count);
      Handle(s, keys, [0x6D] + a.Text() + [0x2C] + n.Text())
      == Done(WithLog(s, [CtmAccess(28, a.value % 0x1_0000_0000, ReadOf(count))]),
              Some(HexBytes(BigEndianBytes(words)[..n.value])))
  {
    hide Handle, MPacket, SplitComma, ParsePair, BigEndianBytes, HexBytes, CtmTxn, CtmAccess, Number.Text;
    MPacketText(a, n);
    MPacketDispatch(keys, a, n);
    HandlerRuns(s, keys, MPacket(a, n), MemoryRead);
    RunsMemoryRead(s, MPacket(a, n));
    MPacketTakenApart(a, n);
    var count := (n.value + 3) / 4;
    assert WordCount(n.value, 4, s.checks) == Some(count);
    CtmFields(Bulk32, a.value, ReadOf(count));
    var bytes := BigEndianBytes(CtmWords(s.machine, count));
    assert Take(bytes, n.value) == bytes[..n.value];
  }

  lemma MPacketText(a: Number, n: Number)
    ensures [0x6D] + a.Text() + [0x2C] + n.Text() == MPacket(a, n)
  {
  }

  lemma XPacketText(a: Number, n: Number, data: Bytes)
    ensures [0x58] + a.Text() + [0x2C] + n.Text() + [0x3A] + data == XPacket(a, n, data)
  {
    assert [0x58] + a.Text() + [0x2C] + n.Text() == [0x58] + Pair(a, n);
  }

  lemma RequestText(a: Number, kind: Bytes)
    ensures [0x5A, 0x30, 0x2C] + a.Text() + [0x2C] + kind == Request(Set(a.value), a.digits, kind).Packet()
    ensures [0x7A, 0x30, 0x2C] + a.Text() + [0x2C] + kind == Request(Clear(a.value), a.digits, kind).Packet()
  {
    assert a == Number(a.value, a.digits);
  }

  /** Byte 4i + j of what a read answers is byte 3 - j of word i. */
  lemma {:induction false} BigEndianAt(ws: seq<U32>, i: nat)
    requires i < |ws|
    ensures var w, bs := ws[i], BigEndianBytes(ws);
      bs[4 * i..4 * i + 4] == [w / 0x100_0000, w / 0x1_0000 % 0x100, w / 0x100 % 0x100, w % 0x100]
    decreases |ws|
  {
    var last, front := ws[|ws| - 1], ws[..|ws| - 1];
    if i < |ws| - 1 {
      BigEndianAt(front, i);
    } else {
      BytesOfWord(last);
    }
  }

  lemma BytesOfWord(w: U32)
    ensures Reverse(LE(w, 4)) == [w / 0x100_0000, w / 0x1_0000 % 0x100, w / 0x100 % 0x100, w % 0x100]
  {
    assert w / 0x100 / 0x100 == w / 0x1_0000 && w / 0x1_0000 / 0x100 == w / 0x100_0000;
    assert LE(w, 4) == [w % 0x100] + LE(w / 0x100, 3);
    assert LE(w / 0x100, 3) == [w / 0x100 % 0x100] + LE(w / 0x1_0000, 2);
    assert LE(w / 0x1_0000, 2) == [w / 0x1_0000 % 0x100] + LE(w / 0x100_0000, 1);
    assert LE(w / 0x100_0000, 1) == [w / 0x100_0000] + LE(w / 0x1_0000_0000, 0);
  }

  lemma CtmStores(s: Server, a: U64, bs: Bytes)
    requires s.Valid() && IsCtm(a) && |bs| % 4 == 0
    ensures StoreResult(s, a, bs)
         == Says(WithLog(s, [CtmAccess(31, a % 0x1_0000_0000, WriteOf(WordsFrom(bs)))]), "OK")
  {
    hide CtmTxn, CtmAccess, WordsFrom, Words32OfBytes;
    CastKeepsOrder(bs);
    CtmFields(Bulk32, a, WriteOf(WordsFrom(bs)));
  }

  /** `X` for the CTM: one write with action 31 of the words of the data and its zero fill. */
  lemma CtmXWrites(s: Server, keys: seq<Key>, a: Number, n: Number, data: Bytes)
    requires s.Valid() && Order(keys) && a.Valid() && n.Valid() && n.value == |data| > 0
    requires a.value / 0x1_0000_0000_0000 % 16 == 1
    ensures |ZeroFilled(data)| % 4 == 0 && var words := WordsFrom(ZeroFilled(data));
      Handle(s, keys, [0x58] + a.Text() + [0x2C] + n.Text() + [0x3A] + data)
      == Says(WithLog(s, [CtmAccess(31, a.value % 0x1_0000_0000, WriteOf(words))]), "OK")
  {
    hide Handle, ParseWrite, CtmAccess, Number.Text, XPacket, WordsFrom, StoreResult, Padded, ZeroFilled;
    XPacketText(a, n, data);
    XHandled(s, keys, a, n, data);
    XPacketTakenApart(a, n, data);
    ZeroFill(data);
    CtmStores(s, a.value, Padded(data, |data|));
  }

  /** `Z0` for the CTM: a read with action 34 and then a write of ebreak with action 4; the word is remembered. */
  lemma CtmZ0Plants(s: Server, keys: seq<Key>, a: Number, kind: Bytes)
    requires s.Valid() && Order(keys) && a.Valid() && Free(kind, 0x3A) && a.value / 0x1_0000_0000_0000 % 16 == 1
    ensures var m, saved := a.value % 0x1_0000_0000, s.machine.reply(|s.machine.log|, 0);
      Handle(s, keys, [0x5A, 0x30, 0x2C] + a.Text() + [0x2C] + kind)
      == Says(WithLog(s.(breakpoints := s.breakpoints[a.value := saved]),
                      [CtmAccess(34, m, ReadOf(1)), CtmAccess(4, m, WriteOf([0x0010_0073]))]), "OK")
  {
    hide Handle, CtmTxn, CtmAccess, Number.Text, Request.Packet;
    var r := Request(Set(a.value), a.digits, kind);
    RequestText(a, kind);
    RequestHandled(s, keys, r);
    CtmSet(s, a.value);
    CtmFields(Atomic32, a.value, ReadOf(1));
    CtmFields(Atomic32, a.value, WriteOf([0x0010_0073]));
  }

  /** `z0` for the CTM: a write of the remembered word with action 4. */
  lemma CtmZ0PutsBack(s: Server, keys: seq<Key>, a: Number, kind: Bytes)
    requires s.Valid() && Order(keys) && a.Valid() && Free(kind, 0x3A) && a.value / 0x1_0000_0000_0000 % 16 == 1
    requires a.value in s.breakpoints
    ensures var m, saved := a.value % 0x1_0000_0000, s.breakpoints[a.value] % 0x1_0000_0000;
      Handle(s, keys, [0x7A, 0x30, 0x2C] + a.Text() + [0x2C] + kind)
      == Says(WithLog(s.(breakpoints := s.breakpoints - {a.value}), [CtmAccess(4, m, WriteOf([saved]))]), "OK")
  {
    hide Handle, CtmTxn, CtmAccess, Number.Text, Request.Packet;
    var r := Request(Clear(a.value), a.digits, kind);
    RequestText(a, kind);
    RequestHandled(s, keys, r);
    CtmClear(s, a.value);
    CtmFields(Atomic32, a.value, WriteOf([Lo(s.breakpoints[a.value])]));
  }

  // -------------------------------------------------------- registers and run control

  /** The register behind GDB's number n. */
  function RegisterOf(n: nat): nat
    requires n < 58
  {
    if n < 32 then 0x1000 + n else CSR_ADDRESSES[n - 32]
  }

  /** `pn`, the registers numbered as GDB does. */
  lemma PReads(s: Server, keys: seq<Key>, n: Number)
    requires s.Valid() && s.Halted() && Order(keys) && n.Valid() && n.value < 58
    ensures RegisterOf(n.value) < 0x1020
    ensures Handle(s, keys, [0x70] + n.Text()) == Done(s, Some(HexBytes(LE(s.Hart().regs[RegisterOf(n.value)], 8))))
  {
    hide Handle, HexBytes, LE;
    RegisterNumbers(n.value);
    PHandled(s, keys, n);
  }

  /** The general registers are written alone, x0 not at all, and a CSR together with x11. */
  lemma PWrites(s: Server, keys: seq<Key>, n: Number, v: U64)
    requires s.Valid() && s.Halted() && Order(keys) && n.Valid() && n.value < 58
    requires n.value < 32 || RegisterOf(n.value) !in s.Core().env.traps
    ensures var hart, reg := s.Hart(), RegisterOf(n.value);
      && reg < 0x1020
      && Handle(s, keys, [0x50] + n.Text() + [0x3D] + HexBytes(LE(v, 8)))
         == Says(s.WithHart(if n.value == 0 then hart
                            else if n.value < 32 then hart.(regs := hart.regs[reg := v])
                            else hart.(regs := hart.regs[0x100B := v][reg := v])), "OK")
  {
    hide Handle, HexBytes, LE;
    RegisterNumbers(n.value);
    HexSwappedIsLittleEndian(v);
    CapPHandled(s, keys, n, v);
  }

  /** `s` is a single step and `c` a continue, with or without an address. */
  lemma RunPackets(s: Server, keys: seq<Key>)
    requires s.Valid() && s.Halted() && Order(keys) && 0x7b0 !in s.Core().env.traps
    ensures Handle(s, keys, [0x73]) == match Go1(Step, s.Core(), s.Index())
      case None => Dies
      case Some(c) => Says(s.WithCore(c), "S05")
    ensures Handle(s, keys, [0x63]) == match Go1(Continue, s.Core(), s.Index())
      case None => Dies
      case Some(c) => Says(s.WithCore(c), "S05")
  {
    hide Handle, Go1;
    GoHandled(s, keys, Step, [0x73]);
    GoHandled(s, keys, Continue, [0x63]);
  }

  // ------------------------------------------------------------------- other packets

  /** The packets whose answer does not depend on the hart, as GDB sends them. */
  lemma FixedReplies(s: Server, keys: seq<Key>, rest: Bytes)
    requires s.Valid() && Order(keys) && Free(rest, 0x3A)
    ensures Handle(s, keys, [0x3F] + rest) == Says(s, "S12")
    ensures Handle(s, keys, [0x71, 0x43] + rest) == Says(s, "-1")
    ensures Handle(s, keys, [0x48] + rest) == Says(s, "OK")
    ensures Handle(s, keys, [0x21] + rest) == Says(s, "")
    ensures Handle(s, keys, [0x6B] + rest) == Done(s, None) && Handle(s, keys, [3] + rest) == Done(s, None)
    ensures Handle(s, keys, [0x44] + rest) == Says(s, "detach")
  {
    hide Handle, Lookup;
    FixedTexts();
    FixedCommands(keys, rest);
    OtherCommands(keys, rest);
    HandledByCommand(s, keys, [0x3F] + rest);
    HandledByCommand(s, keys, [0x71, 0x43] + rest);
    HandledByCommand(s, keys, [0x48] + rest);
    HandledByCommand(s, keys, [0x21] + rest);
    HandledByCommand(s, keys, [0x6B] + rest);
    HandledByCommand(s, keys, [3] + rest);
    HandledByCommand(s, keys, [0x44] + rest);
  }

  lemma FixedTexts()
    ensures Ascii("S12") == [0x53, 0x31, 0x32] && Ascii("-1") == [0x2D, 0x31] && Ascii("1") == [0x31]
    ensures Ascii("detach") == [0x64, 0x65, 0x74, 0x61, 0x63, 0x68]
  {
  }

  lemma HandledByCommand(s: Server, keys: seq<Key>, packet: Bytes)
    requires s.Valid() && Free(packet, 0x3A)
    ensures match Lookup(keys, packet)
      case Answer(reply) => Handle(s, keys, packet) == Done(s, Some(reply))
      case Silent => Handle(s, keys, packet) == Done(s, None)
      case Run(h) => Handle(s, keys, packet) == RunHandler(s, h, packet)
  {
    CommandWhole(packet);
  }

  /** `qSupported:` and what the client supports. */
  lemma FeaturesReply(s: Server, keys: seq<Key>, rest: Bytes)
    requires s.Valid() && Order(keys)
    ensures var packet := [0x71, 0x53, 0x75, 0x70, 0x70, 0x6F, 0x72, 0x74, 0x65, 0x64, 0x3A] + rest;
      Handle(s, keys, packet) == Says(s, "PacketSize=100000;qMemoryRead+;swbreak+")
  {
    hide Handle, Lookup;
    var name := [0x71, 0x53, 0x75, 0x70, 0x70, 0x6F, 0x72, 0x74, 0x65, 0x64];
    var packet := [0x71, 0x53, 0x75, 0x70, 0x70, 0x6F, 0x72, 0x74, 0x65, 0x64, 0x3A] + rest;
    assert packet == name + [0x3A] + rest && name + [] == name;
    CommandBefore(name, rest);
    PositionAt(name, 0x3A, rest);
    OtherCommands(keys, []);
    HandlerRuns(s, keys, packet, SupportedFeatures);
    Codes();
    Features();
  }

  lemma Features()
    ensures JoinParts([Ascii("PacketSize=100000"), Ascii("qMemoryRead+"), Ascii("swbreak+")])
         == Ascii("PacketSize=100000;qMemoryRead+;swbreak+")
  {
    var a, b, c := Ascii("PacketSize=100000"), Ascii("qMemoryRead+"), Ascii("swbreak+");
    assert [a, b, c][1..] == [b, c] && [b, c][1..] == [c];
    assert JoinParts([b, c]) == b + [Code(';')] + c;
    assert JoinParts([a, b, c]) == a + [Code(';')] + (b + [Code(';')] + c);
  }

  /** A detach is answered with the bytes of "$OK#9a". */
  lemma DetachReply()
    ensures ReplyBytes(Some(Ascii("detach"))) == [0x24, 0x4F, 0x4B, 0x23, 0x39, 0x61]
  {
    ChecksumIsSum(Ascii("OK"));
    assert Ascii("OK") == [0x4F, 0x4B] && [0x4F, 0x4B][1..] == [0x4B] && [0x4B][1..] == [];
    assert Sum([0x4F, 0x4B]) == 0x4F + Sum([0x4B]) && Sum([0x4B]) == 0x4B + Sum([]);
  }
}
