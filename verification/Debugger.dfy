/** The driver of rfpc_debugger.rs: registers and memory of a hart, reached only by writing debug-module
    registers over XPB and polling for completion. */
module Debugger {
  import opened Numbers
  import opened DebugModule
  import opened RfpcCores
  import opened Chip
  import opened ExpansionBar
  import opened Buses
  import opened Commands

  // ------------------------------------------------------- one debug module of the chip

  function DmIdOf(r: Rfpc): DmId { (r.island.Id(), r.cluster) }

  /** Everything but the one debug module is as before. */
  ghost predicate OnlyDm(c: Chip, c': Chip, r: Rfpc)
  {
    DmIdOf(r) in c'.dms && c'.log == c.log && c'.reply == c.reply &&
    c'.dms == c.dms[DmIdOf(r) := c'.dms[DmIdOf(r)]]
  }

  function PutDm(c: Chip, r: Rfpc, dm: Dm): Chip
  {
    c.(dms := c.dms[DmIdOf(r) := dm])
  }

  lemma RegisterAddress(r: Rfpc, reg: nat)
    requires r.Valid() && reg < DM_SPAN
    ensures var a := r.DmXpbBase() + reg;
      && a < 0x100_0000 && Locate(r.island.Id(), a) == Some((DmIdOf(r), reg))
      && XpbAddress(r.island, a, true) / 0x8000_0000 == 1
      && XpbAddress(r.island, a, true) / 0x100_0000 % 128 == r.island.Id()
      && XpbAddress(r.island, a, true) % 0x100_0000 == a
  {
    var a := r.DmXpbBase() + reg;
    assert r.DmXpbBase() == 0x240000 + 0xE0000 * r.cluster;
    AddressFields(r.island.Id(), a);
  }

  lemma AddressFields(id: nat, a: nat)
    requires id < 16 && a < 0x100_0000
    ensures var x := a + id * 0x100_0000 + 0x8000_0000;
      x / 0x8000_0000 == 1 && x / 0x100_0000 % 128 == id && x % 0x100_0000 == a
  {
    assert (a + id * 0x100_0000 + 0x8000_0000) / 0x100_0000 == 128 + id;
  }

  lemma OneWord(c: Chip, t: Txn, island: nat, local: nat, v: U32)
    ensures WriteWords(c, t, island, local, [v]) == XpbWord(c, t, island, local, Some(v)).0
    ensures ReadWords(c, t, island, local, 1)
         == (XpbWord(c, t, island, local, None).0, [XpbWord(c, t, island, local, None).1])
  {
    assert [v][1..] == [];
    var c1 := XpbWord(c, t, island, local, Some(v)).0;
    assert WriteWords(c1, t, island, local + 4, []) == c1;
    var (c2, w) := XpbWord(c, t, island, local, None);
    assert ReadWords(c2, t, island, local + 4, 0) == (c2, []);
    assert [w] + [] == [w];
  }

  /** What a one-word access to a debug-module register through the master does. */
  lemma DmTransaction(c: Chip, r: Rfpc, reg: nat, v: U32)
    requires r.Valid() && reg < DM_SPAN && DmIdOf(r) in c.dms
    ensures Directly(c, XpbCall(r.island, r.DmXpbBase() + reg, true, WriteOf([v])))
         == (PutDm(c, r, DmWrite(c.dms[DmIdOf(r)], reg, v)), [])
    ensures var (dm, w) := DmRead(c.dms[DmIdOf(r)], reg);
      Directly(c, XpbCall(r.island, r.DmXpbBase() + reg, true, ReadOf(1))) == (PutDm(c, r, dm), [w])
  {
    RegisterAddress(r, reg);
    var call := XpbCall(r.island, r.DmXpbBase() + reg, true, WriteOf([v]));
    OneWord(c, Requested(Bulk, CallRequest(call)), r.island.Id(), r.DmXpbBase() + reg, v);
    var call' := XpbCall(r.island, r.DmXpbBase() + reg, true, ReadOf(1));
    OneWord(c, Requested(Bulk, CallRequest(call')), r.island.Id(), r.DmXpbBase() + reg, v);
  }

  /** The numbers: word addresses 0x04, 0x05, 0x10, 0x11, 0x16, 0x17 and 0x20 of the debug module, and the bits of
      dmcontrol and abstractcs the driver uses. */
  lemma RegisterMap()
    ensures DATA0 == 0x10 && DATA1 == 0x14 && DMCONTROL == 0x40 && DMSTATUS == 0x44
    ensures ABSTRACTCS == 0x58 && COMMAND == 0x5C && PROGBUF0 == 0x80
    ensures HALTREQ == 0x8000_0000 && RESUMEREQ == 0x4000_0000 && DMACTIVE == 1 && BUSY == 0x1000
    ensures X0 == 0x1000 && A0 == 0x100A && A1 == 0x100B && REGISTERS == 0x1020 && HARTS == 32
  {
  }

  /** An access of the driver, field by field: island 1, target 14, and the address with the global bit, the island,
      and the cluster's and the register's place in the island. */
  lemma OnTheBus(r: Rfpc, reg: nat, kind: Kind)
    requires r.Valid() && reg < 0x104
    ensures XpbTxn(r.island, r.DmXpbBase() + reg, true, kind)
         == Txn(1, Some(14), Some(0), None, 0,
                0x8000_0000 + r.island.Id() * 0x100_0000 + 0x24_0000 + 0xE_0000 * r.cluster + reg, kind)
  {
    RegisterAddress(r, reg);
    assert r.DmXpbBase() == 0x240000 + 0xE0000 * r.cluster;
  }

  // ------------------------------------------------------------- access to one register

  ghost predicate Attached(bar: ExpansionBar, r: Rfpc)
    reads bar
  {
    bar.Valid() && r.Valid() && DmIdOf(r) in bar.chip.dms
  }

  /** The debug module of a core. */
  function DmOf(bar: ExpansionBar, r: Rfpc): Dm
    requires DmIdOf(r) in bar.chip.dms
    reads bar
  {
    bar.chip.dms[DmIdOf(r)]
  }

  /** A window in which single words of the XPB bus are always in reach. */
  predicate Roomy(bar: ExpansionBar) { 0x400 <= bar.size && (bar.checks ==> bar.size <= 0x8000_0000) }

  lemma RegisterInReach(w: Window, size: nat, checks: bool, r: Rfpc, reg: nat, kind: Kind)
    requires r.Valid() && reg < DM_SPAN && reg % 4 == 0 && kind.Words() == 1
    requires 0x400 <= size && (checks ==> size <= 0x8000_0000)
    ensures r.DmXpbBase() + reg < 0x1_0000_0000
    ensures ThroughWindow(w, size, checks, XpbCall(r.island, r.DmXpbBase() + reg, true, kind)).Ok?
  {
    assert r.DmXpbBase() % 4 == 0;
    XpbWordNeverPanics(w, size, checks, XpbCall(r.island, r.DmXpbBase() + reg, true, kind));
  }

  /** `xpb_write(exp_bar, &rfpc.island, rfpc.dm_xpb_base() + reg, vec![v], true)`; base is the chip
      at the start of a chain of such accesses. */
  method WriteDm(bar: ExpansionBar, r: Rfpc, reg: nat, v: U32, ghost base: Chip) returns (o: Outcome<()>)
    requires Attached(bar, r) && reg < DM_SPAN && reg % 4 == 0 && OnlyDm(base, bar.chip, r)
    modifies bar
    ensures Roomy(bar) ==> o.Ok?
    ensures o.Ok? ==> Attached(bar, r) && OnlyDm(base, bar.chip, r)
    ensures o.Ok? ==> DmOf(bar, r) == DmWrite(old(DmOf(bar, r)), reg, v)
  {
    hide ThroughWindow, Directly, DmWrite, DmRead, XpbAddress;
    RegisterAddress(r, reg);
    ghost var w := bar.State();
    if Roomy(bar) { RegisterInReach(w, bar.size, bar.checks, r, reg, WriteOf([v])); }
    o := XpbWrite(bar, r.island, r.DmXpbBase() + reg, [v], true);
    if o.Ok? {
      CallIsDirect(w, bar.size, bar.checks, XpbCall(r.island, r.DmXpbBase() + reg, true, WriteOf([v])));
      DmTransaction(w.chip, r, reg, v);
    }
  }

  /** `xpb_read(exp_bar, &rfpc.island, rfpc.dm_xpb_base() + reg, 1, true)[0]` */
  method ReadDm(bar: ExpansionBar, r: Rfpc, reg: nat, ghost base: Chip) returns (o: Outcome<U32>)
    requires Attached(bar, r) && reg < DM_SPAN && reg % 4 == 0 && OnlyDm(base, bar.chip, r)
    modifies bar
    ensures Roomy(bar) ==> o.Ok?
    ensures o.Ok? ==> Attached(bar, r) && OnlyDm(base, bar.chip, r)
    ensures o.Ok? ==> (DmOf(bar, r), o.value) == DmRead(old(DmOf(bar, r)), reg)
  {
    hide ThroughWindow, Directly, DmWrite, DmRead, XpbAddress;
    RegisterAddress(r, reg);
    ghost var w := bar.State();
    if Roomy(bar) { RegisterInReach(w, bar.size, bar.checks, r, reg, ReadOf(1)); }
    var words := XpbRead(bar, r.island, r.DmXpbBase() + reg, 1, true);
    if words.Panic? {
      return Panic(words.why);
    }
    CallIsDirect(w, bar.size, bar.checks, XpbCall(r.island, r.DmXpbBase() + reg, true, ReadOf(1)));
    DmTransaction(w.chip, r, reg, 0);
    return Ok(words.value[0]);
  }

  // ------------------------------------------------------------------- the driver

  /** What every driver function needs: an idle, error-free module and a halted hart. */
  ghost predicate Ready(bar: ExpansionBar, r: Rfpc)
    reads bar
  {
    Attached(bar, r) && Quiet(DmOf(bar, r)) && r.Hart() < HARTS && DmOf(bar, r).core.harts[r.Hart()].run.Halted?
  }

  /** The core's hart. */
  ghost function HartOf(bar: ExpansionBar, r: Rfpc): Hart
    requires DmIdOf(r) in bar.chip.dms && r.Hart() < HARTS
    reads bar
  {
    DmOf(bar, r).core.harts[r.Hart()]
  }

  /** Since `base` no other module, no other hart and no bus device was touched, no hart was resumed, and no
      debug register was touched during a command. */
  ghost predicate Along(bar: ExpansionBar, r: Rfpc, base: Chip)
    reads bar
  {
    && Attached(bar, r) && r.Hart() < HARTS && DmIdOf(r) in base.dms && OnlyDm(base, bar.chip, r)
    && DmOf(bar, r).misused == base.dms[DmIdOf(r)].misused
    && DmOf(bar, r).core == WithHartAt(base.dms[DmIdOf(r)].core, r.Hart(), HartOf(bar, r))
  }

  /** Along, and between commands. */
  ghost predicate AtRest(bar: ExpansionBar, r: Rfpc, base: Chip)
    reads bar
  {
    Along(bar, r, base) && DmOf(bar, r).pending.Idle?
  }

  /** The driver panics for nothing but a command that is still in flight when the clock runs out, and even
      then it has kept to its own hart and to the rules. */
  ghost predicate OnlyTimesOut<T>(bar: ExpansionBar, r: Rfpc, base: Chip, o: Outcome<T>)
    reads bar
  {
    o.Panic? && Roomy(bar) ==> o.why == Timeout && Along(bar, r, base) && DmOf(bar, r).pending.Busy?
  }

  lemma AlongAtFirst(bar: ExpansionBar, r: Rfpc)
    requires Attached(bar, r)
    ensures Along(bar, r, bar.chip)
  {
    Unchanged(DmOf(bar, r).core, r.Hart());
    assert bar.chip.dms[DmIdOf(r) := DmOf(bar, r)] == bar.chip.dms;
  }

  /** From one idle, error-free state to another in which the core's hart has become `hart`: no other
      hart, module or bus device changed, nothing was resumed, and no register was touched during a
      command. */
  twostate predicate Became(bar: ExpansionBar, r: Rfpc, hart: Hart)
    requires old(DmIdOf(r) in bar.chip.dms) && r.Hart() < HARTS
    reads bar
  {
    && Attached(bar, r) && OnlyDm(old(bar.chip), bar.chip, r)
    && Reached(old(DmOf(bar, r)), DmOf(bar, r), r.Hart(), hart)
  }

  lemma BusyBit(dm: Dm)
    ensures Has(AbstractCs(dm), 0x1000) <==> dm.pending.Busy?
  {
    var b, e := if dm.pending.Busy? then 1 else 0, dm.cmderr % 8;
    assert AbstractCs(dm) / 0x1000 == 0x1000 + b;
  }

  method AbstractCmdBusyWait(bar: ExpansionBar, r: Rfpc, ghost base: Chip) returns (o: Outcome<()>)
    requires Along(bar, r, base) && DmOf(bar, r).hartsel == r.Hart()
    modifies bar
    ensures OnlyTimesOut(bar, r, base, o)
    ensures o.Ok? ==> AtRest(bar, r, base) && DmOf(bar, r) == Finish(old(DmOf(bar, r)))
  {
    ghost var dm := DmOf(bar, r);
    FinishIsIdle(dm);
    FinishTouchesOne(dm);
    TwiceAt(base.dms[DmIdOf(r)].core, r.Hart(), HartOf(bar, r), Finish(dm).core.harts[r.Hart()]);
    var budget: nat :| 1 <= budget;                // polls until the clock runs out
    for polls := 0 to budget
      invariant Along(bar, r, base) && Finish(DmOf(bar, r)) == Finish(dm)
      invariant DmOf(bar, r) == dm.(pending := DmOf(bar, r).pending)
      invariant polls > 0 ==> DmOf(bar, r).pending.Busy?
    {
      ghost var before := DmOf(bar, r);
      var abstractcs :- ReadDm(bar, r, ABSTRACTCS, base);
      BusyBit(before); BusyBit(DmOf(bar, r));
      if !Has(abstractcs, 0x1000) {
        return Ok(());
      }
    }
    return Panic(Timeout);
  }

  /** Writes COMMAND and waits. */
  method RunCommand(bar: ExpansionBar, r: Rfpc, command: U32, ghost base: Chip) returns (o: Outcome<()>)
    requires AtRest(bar, r, base) && DmOf(bar, r).hartsel == r.Hart()
    modifies bar
    ensures OnlyTimesOut(bar, r, base, o)
    ensures o.Ok? ==> AtRest(bar, r, base) && DmOf(bar, r).hartsel == r.Hart()
    ensures o.Ok? ==> DmOf(bar, r) == Commanded(old(DmOf(bar, r)), command)
  {
    ghost var dm := DmOf(bar, r);
    CommandedTouchesOne(dm, command);
    var _ :- WriteDm(bar, r, COMMAND, command, base);
    o := AbstractCmdBusyWait(bar, r, base);
  }

  /** Writes dmcontrol to select the core's hart. */
  method SelectHart(bar: ExpansionBar, r: Rfpc, ghost base: Chip) returns (o: Outcome<()>)
    requires AtRest(bar, r, base)
    modifies bar
    ensures Roomy(bar) ==> o.Ok?
    ensures o.Ok? ==> AtRest(bar, r, base) && DmOf(bar, r) == old(DmOf(bar, r)).(hartsel := r.Hart())
  {
    var (hartsello, _) := r.DmHartsel();
    Selects(DmOf(bar, r), hartsello);
    o := WriteDm(bar, r, DMCONTROL, DmControl(hartsello, 0), base);
  }

  method ReadData(bar: ExpansionBar, r: Rfpc, ghost base: Chip) returns (o: Outcome<U64>)
    requires AtRest(bar, r, base)
    modifies bar
    ensures Roomy(bar) ==> o.Ok?
    ensures o.Ok? ==> AtRest(bar, r, base) && DmOf(bar, r) == old(DmOf(bar, r)) && o.value == Data(DmOf(bar, r))
  {
    var lo :- ReadDm(bar, r, DATA0, base);
    var hi :- ReadDm(bar, r, DATA1, base);
    return Ok(Join(hi, lo));
  }

  method WriteData(bar: ExpansionBar, r: Rfpc, v: U64, ghost base: Chip) returns (o: Outcome<()>)
    requires AtRest(bar, r, base)
    modifies bar
    ensures Roomy(bar) ==> o.Ok?
    ensures o.Ok? ==> AtRest(bar, r, base) && DmOf(bar, r) == PutData(old(DmOf(bar, r)), v)
  {
    var _ :- WriteDm(bar, r, DATA0, Lo(v), base);
    var _ :- WriteDm(bar, r, DATA1, Hi(v), base);
    return Ok(());
  }

  method WriteProgbuf(bar: ExpansionBar, r: Rfpc, w: U32, ghost base: Chip) returns (o: Outcome<()>)
    requires AtRest(bar, r, base)
    modifies bar
    ensures Roomy(bar) ==> o.Ok?
    ensures o.Ok? ==> AtRest(bar, r, base) && DmOf(bar, r) == old(DmOf(bar, r)).(progbuf0 := w)
  {
    o := WriteDm(bar, r, PROGBUF0, w, base);
  }

  // ---------------------------------------- the driver, whatever state hart and module are in

  method ReadRegister(bar: ExpansionBar, r: Rfpc, reg: nat, ghost base: Chip) returns (o: Outcome<U64>)
    requires AtRest(bar, r, base) && reg < REGISTERS
    modifies bar
    ensures OnlyTimesOut(bar, r, base, o)
    ensures o.Ok? ==> AtRest(bar, r, base) && DmOf(bar, r).hartsel == r.Hart()
    ensures o.Ok? ==> (DmOf(bar, r), o.value) == ReadSteps(old(DmOf(bar, r)), r.Hart(), reg)
  {
    hide Commanded;
    assert reg % 0x1_0000 == reg;
    var _ :- SelectHart(bar, r, base);
    var _ :- RunCommand(bar, r, 0x32_0000 + reg % 0x1_0000, base);
    o := ReadData(bar, r, base);
  }

  method WriteRegister(bar: ExpansionBar, r: Rfpc, reg: nat, v: U64, ghost base: Chip) returns (o: Outcome<()>)
    requires AtRest(bar, r, base) && reg < REGISTERS
    modifies bar
    ensures OnlyTimesOut(bar, r, base, o)
    ensures o.Ok? ==> AtRest(bar, r, base) && DmOf(bar, r).hartsel == r.Hart()
    ensures o.Ok? ==> DmOf(bar, r) == WriteSteps(old(DmOf(bar, r)), r.Hart(), reg, v)
  {
    hide Commanded;
    var _ :- SelectHart(bar, r, base);
    var _ :- WriteData(bar, r, v, base);
    if reg / 0x1000 % 0x10 == 1 {
      o := RunCommand(bar, r, 0x33_0000 + reg, base);
      return;
    }
    assert reg % 0x1000 == reg;
    var _ :- RunCommand(bar, r, 0x33_100B, base);
    var _ :- WriteProgbuf(bar, r, 0x59073 + reg % 0x1000 * 0x10_0000, base);
    o := RunCommand(bar, r, 0x36_0000, base);
  }

  /** One word of memory, through a0. */
  method LoadOne(bar: ExpansionBar, r: Rfpc, a: U64, ghost base: Chip) returns (o: Outcome<U64>)
    requires AtRest(bar, r, base) && DmOf(bar, r).hartsel == r.Hart()
    modifies bar
    ensures OnlyTimesOut(bar, r, base, o)
    ensures o.Ok? ==> AtRest(bar, r, base) && DmOf(bar, r).hartsel == r.Hart()
    ensures o.Ok? ==> DmOf(bar, r) == LoadWord(old(DmOf(bar, r)), a) && o.value == Data(DmOf(bar, r))
  {
    hide Commanded;
    var _ :- WriteData(bar, r, a, base);
    var _ :- WriteProgbuf(bar, r, 0x53503, base);
    var _ :- RunCommand(bar, r, 0x37_100A, base);
    var _ :- RunCommand(bar, r, 0x32_100A, base);
    o := ReadData(bar, r, base);
  }

  method LoadAll(bar: ExpansionBar, r: Rfpc, address: U64, length: nat, ghost base: Chip) returns (o: Outcome<seq<U64>>)
    requires AtRest(bar, r, base) && DmOf(bar, r).hartsel == r.Hart() && Fits(address, 8 * length)
    modifies bar
    ensures OnlyTimesOut(bar, r, base, o)
    ensures o.Ok? ==> AtRest(bar, r, base) && (DmOf(bar, r), o.value) == LoadSteps(old(DmOf(bar, r)), address, length)
  {
    hide LoadWord;
    ghost var dm := DmOf(bar, r);
    var words: seq<U64> := [];
    for idx := 0 to length
      invariant AtRest(bar, r, base) && DmOf(bar, r).hartsel == r.Hart()
      invariant (DmOf(bar, r), words) == LoadSteps(dm, address, idx)
    {
      var word :- LoadOne(bar, r, address + 8 * idx, base);
      words := words + [word];
    }
    return Ok(words);
  }

  method LoadMemory(bar: ExpansionBar, r: Rfpc, address: U64, length: nat, ghost base: Chip)
    returns (o: Outcome<seq<U64>>)
    requires AtRest(bar, r, base) && Fits(address, 8 * length)
    modifies bar
    ensures OnlyTimesOut(bar, r, base, o)
    ensures o.Ok? ==> AtRest(bar, r, base)
    ensures o.Ok? ==> (DmOf(bar, r), o.value) == ReadMemorySteps(old(DmOf(bar, r)), r.Hart(), address, length)
  {
    hide Commanded, LoadSteps, WriteSteps;
    var _ :- SelectHart(bar, r, base);
    var tempA0 :- ReadRegister(bar, r, 0x100A, base);
    var words :- LoadAll(bar, r, address, length, base);
    var _ :- WriteRegister(bar, r, 0x100A, tempA0, base);
    return Ok(words);
  }

  /** One word of memory, through a1, at an address put in a0. */
  method StoreOne(bar: ExpansionBar, r: Rfpc, a: U64, word: U64, ghost base: Chip) returns (o: Outcome<()>)
    requires AtRest(bar, r, base) && DmOf(bar, r).hartsel == r.Hart()
    modifies bar
    ensures OnlyTimesOut(bar, r, base, o)
    ensures o.Ok? ==> AtRest(bar, r, base) && DmOf(bar, r).hartsel == r.Hart()
    ensures o.Ok? ==> DmOf(bar, r) == StoreWord(old(DmOf(bar, r)), a, word)
  {
    hide Commanded;
    var _ :- WriteData(bar, r, word, base);
    var _ :- RunCommand(bar, r, 0x33_100B, base);
    var _ :- WriteData(bar, r, a, base);
    var _ :- WriteProgbuf(bar, r, 0xB5_3023, base);
    o := RunCommand(bar, r, 0x37_100A, base);
  }

  method StoreAll(bar: ExpansionBar, r: Rfpc, address: U64, data: seq<U64>, ghost base: Chip) returns (o: Outcome<()>)
    requires AtRest(bar, r, base) && DmOf(bar, r).hartsel == r.Hart() && Fits(address, 8 * |data|)
    modifies bar
    ensures OnlyTimesOut(bar, r, base, o)
    ensures o.Ok? ==> AtRest(bar, r, base) && DmOf(bar, r) == StoreSteps(old(DmOf(bar, r)), address, data)
  {
    hide StoreWord;
    ghost var dm := DmOf(bar, r);
    for idx := 0 to |data|
      invariant AtRest(bar, r, base) && DmOf(bar, r).hartsel == r.Hart()
      invariant DmOf(bar, r) == StoreSteps(dm, address, data[..idx])
    {
      assert data[..idx + 1][..idx] == data[..idx];
      var _ :- StoreOne(bar, r, address + 8 * idx, data[idx], base);
    }
    assert data[..|data|] == data;
    return Ok(());
  }

  method StoreMemory(bar: ExpansionBar, r: Rfpc, address: U64, data: seq<U64>, ghost base: Chip)
    returns (o: Outcome<()>)
    requires AtRest(bar, r, base) && Fits(address, 8 * |data|)
    modifies bar
    ensures OnlyTimesOut(bar, r, base, o)
    ensures o.Ok? ==> AtRest(bar, r, base)
    ensures o.Ok? ==> DmOf(bar, r) == WriteMemorySteps(old(DmOf(bar, r)), r.Hart(), address, data)
  {
    hide Commanded, StoreSteps, WriteSteps;
    var _ :- SelectHart(bar, r, base);
    var tempA0 :- ReadRegister(bar, r, 0x100A, base);
    var tempA1 :- ReadRegister(bar, r, 0x100B, base);
    var _ :- StoreAll(bar, r, address, data, base);
    var _ :- WriteRegister(bar, r, 0x100A, tempA0, base);
    o := WriteRegister(bar, r, 0x100B, tempA1, base);
  }

  // ----------------------------------------------------- the driver, on a hart that is ready

  method RfpcDbgReadReg(bar: ExpansionBar, r: Rfpc, reg: nat) returns (o: Outcome<U64>)
    requires Ready(bar, r) && reg < REGISTERS
    modifies bar
    ensures OnlyTimesOut(bar, r, old(bar.chip), o)
    ensures o.Ok? ==> Became(bar, r, old(HartOf(bar, r))) && o.value == old(HartOf(bar, r)).regs[reg]
  {
    hide ReadSteps;
    AlongAtFirst(bar, r);
    ReadOfReady(DmOf(bar, r), r.Hart(), reg);
    o := ReadRegister(bar, r, reg, bar.chip);
  }

  method RfpcDbgWriteReg(bar: ExpansionBar, r: Rfpc, reg: nat, v: U64) returns (o: Outcome<()>)
    requires Ready(bar, r) && reg < REGISTERS
    modifies bar
    ensures OnlyTimesOut(bar, r, old(bar.chip), o)
    ensures o.Ok? && (reg < X0 ==> reg !in old(DmOf(bar, r)).core.env.traps) ==>
      Became(bar, r, Written(old(HartOf(bar, r)), reg, v))
    ensures o.Ok? && reg < X0 && reg in old(DmOf(bar, r)).core.env.traps ==>
      Along(bar, r, old(bar.chip)) && DmOf(bar, r).pending.Idle? && DmOf(bar, r).cmderr == 3 &&
      Data(DmOf(bar, r)) == old(HartOf(bar, r)).regs[0] && HartOf(bar, r) == SetReg(old(HartOf(bar, r)), A1, v)
  {
    hide WriteSteps;
    AlongAtFirst(bar, r);
    ghost var dm := DmOf(bar, r);
    if Writable(dm, r.Hart(), reg) {
      WriteOfReady(dm, r.Hart(), reg, v);
    } else {
      WriteOfTrapping(dm, r.Hart(), reg, v);
    }
    o := WriteRegister(bar, r, reg, v, bar.chip);
  }

  /** The length words from an address on; a0, which each load overwrites, is put back. */
  method RfpcDbgReadMemory(bar: ExpansionBar, r: Rfpc, address: U64, length: nat) returns (o: Outcome<seq<U64>>)
    requires Ready(bar, r) && Fits(address, 8 * length)
    modifies bar
    ensures OnlyTimesOut(bar, r, old(bar.chip), o)
    ensures o.Ok? ==> Became(bar, r, old(HartOf(bar, r)))
    ensures o.Ok? ==> |o.value| == length && BytesOfWords(o.value) == Peek(old(HartOf(bar, r)).mem, address, 8 * length)
    ensures o.Ok? ==> forall i :: 0 <= i < length ==>
      o.value[i] == WordOf(Peek(old(HartOf(bar, r)).mem, address + 8 * i, 8))
  {
    hide ReadMemorySteps;
    AlongAtFirst(bar, r);
    ReadMemoryOfReady(DmOf(bar, r), r.Hart(), address, length);
    o := LoadMemory(bar, r, address, length, bar.chip);
  }

  /** Stores the words from an address on; a0 and a1, which each store overwrites, are put back. */
  method RfpcDbgWriteMemory(bar: ExpansionBar, r: Rfpc, address: U64, data: seq<U64>) returns (o: Outcome<()>)
    requires Ready(bar, r) && Fits(address, 8 * |data|)
    modifies bar
    ensures OnlyTimesOut(bar, r, old(bar.chip), o)
    ensures o.Ok? ==>
      Became(bar, r, old(HartOf(bar, r)).(mem := Poke(old(HartOf(bar, r)).mem, address, BytesOfWords(data))))
  {
    hide WriteMemorySteps;
    AlongAtFirst(bar, r);
    WriteMemoryOfReady(DmOf(bar, r), r.Hart(), address, data);
    o := StoreMemory(bar, r, address, data, bar.chip);
  }
}
