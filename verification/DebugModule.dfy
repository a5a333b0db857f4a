/** The device the driver talks to: a debug module in front of 32 harts, after sections 3.5,
    3.6.1.1, 3.7, 3.12 and 4.8.1 of "RISC-V External Debug Support" 0.13.2.  Everything the
    standard leaves open (how long a command takes, what the firmware does once resumed, which
    CSR writes trap) is an arbitrary function held in Env. */
module DebugModule {
  import opened Numbers

  // ------------------------------------------------------ debug-module registers

  const DATA0: nat := 0x10
  const DATA1: nat := 0x14
  const DMCONTROL: nat := 0x40
  const DMSTATUS: nat := 0x44
  const ABSTRACTCS: nat := 0x58
  const COMMAND: nat := 0x5c
  const PROGBUF0: nat := 0x80

  /** Byte addresses of debug-module registers are below this. */
  const DM_SPAN: nat := 0x104

  const HALTREQ: nat := 0x8000_0000
  const RESUMEREQ: nat := 0x4000_0000
  const DMACTIVE: nat := 1
  const BUSY: nat := 0x1000

  const HARTS: nat := 32

  // --------------------------------------------------------------------- harts

  /** Abstract register numbers: CSRs from 0, the 32 general registers from 0x1000. */
  const X0: nat := 0x1000
  const A0: nat := 0x100A
  const A1: nat := 0x100B
  const REGISTERS: nat := 0x1020

  /** Byte-addressed memory over the whole 64-bit space. */
  type Memory = m: seq<U8> | |m| == 0x1_0000_0000_0000_0000
    ghost witness seq(0x1_0000_0000_0000_0000, _ => 0)

  datatype RunState = Halted | Running(left: nat)

  /** What a debugger can see of one hart. */
  datatype HartState = HartState(regs: seq<U64>, mem: Memory, run: RunState)

  type Hart = h: HartState | |h.regs| == 0x1020 && h.regs[0x1000] == 0
    ghost witness BLANK_HART

  ghost const BLANK_HART :=
    HartState(seq(0x1020, _ => 0), seq(0x1_0000_0000_0000_0000, _ => 0), Halted)

  predicate Fits(a: nat, n: nat) { a + n <= 0x1_0000_0000_0000_0000 }

  /** The n bytes at a. */
  function Peek(mem: Memory, a: nat, n: nat): (bs: Bytes)
    requires Fits(a, n)
    ensures |bs| == n
  {
    mem[a..a + n]
  }

  /** Memory with the bytes bs stored from a on. */
  function Poke(mem: Memory, a: nat, bs: Bytes): (m: Memory)
    requires Fits(a, |bs|)
    ensures forall x :: 0 <= x < |m| ==> m[x] == if a <= x < a + |bs| then bs[x - a] else mem[x]
  {
    mem[..a] + bs + mem[a + |bs|..]
  }

  /** A register write; x0 stays zero. */
  function SetReg(h: Hart, r: nat, v: U64): Hart
    requires r < REGISTERS
  {
    if r == X0 then h else h.(regs := h.regs[r := v])
  }

  // ---------------------------------------------------------------- the module

  datatype Env = Env(
    latency: nat -> nat,              // polls the n-th command stays busy
    runLength: nat -> nat,            // polls until the hart resumed as number n halts again
    firmware: (nat, Hart, nat) -> Hart, // what hart h, resumed as number n, looks like when it halts
    traps: set<nat>)                  // CSRs whose write raises an exception

  /** The state a debugger cares about: the harts, and how often one was resumed. */
  datatype CoreState = CoreState(harts: seq<Hart>, resumes: nat, env: Env)

  type Core = c: CoreState | |c.harts| == 32
    ghost witness CoreState(seq(32, _ => BLANK_HART), 0, Env(_ => 0, _ => 0, (_, h, _) => h, {}))

  datatype Pending = Idle | Busy(command: U32, left: nat)

  /** misused records an access the standard forbids: a debug register touched during a command. */
  datatype Dm = Dm(core: Core, hartsel: nat, data0: U32, data1: U32, progbuf0: U32,
                   pending: Pending, cmderr: nat, misused: bool, issued: nat)

  /** No command in flight, no error recorded, never misused. */
  predicate Quiet(dm: Dm)
  {
    dm.pending.Idle? && dm.cmderr == 0 && !dm.misused
  }

  function WithHart(dm: Dm, h: Hart): Dm
    requires dm.hartsel < HARTS
  {
    dm.(core := dm.core.(harts := dm.core.harts[dm.hartsel := h]))
  }

  // ---------------------------------------------------- program-buffer instructions

  function Signed12(imm: nat): int { if imm >= 2048 then imm - 4096 else imm }

  datatype Instr =
    | Ld(rd: nat, rs1: nat, imm: int)
    | Sd(rs2: nat, rs1: nat, imm: int)
    | Csrrw(rd: nat, csr: nat, rs1: nat)
    | Ebreak
    | Illegal
  {
    predicate Valid() {
      match this
      case Ld(rd, rs1, _) => rd < 32 && rs1 < 32
      case Sd(rs2, rs1, _) => rs2 < 32 && rs1 < 32
      case Csrrw(rd, csr, rs1) => rd < 32 && csr < 0x1000 && rs1 < 32
      case _ => true
    }
  }

  function Decode(i: U32): (d: Instr)
    ensures d.Valid()
  {
    var opcode, funct3 := i % 128, i / 0x1000 % 8;
    var rd, rs1, rs2 := i / 0x80 % 32, i / 0x8000 % 32, i / 0x10_0000 % 32;
    if opcode == 0x03 && funct3 == 3 then Ld(rd, rs1, Signed12(i / 0x10_0000))
    else if opcode == 0x23 && funct3 == 3 then Sd(rs2, rs1, Signed12(i / 0x200_0000 * 32 + rd))
    else if opcode == 0x73 && funct3 == 1 then Csrrw(rd, i / 0x10_0000, rs1)
    else if i == 0x0010_0073 then Ebreak
    else Illegal
  }

  function EffectiveAddress(h: Hart, rs1: nat, imm: int): U64
    requires rs1 < 32
  {
    (h.regs[X0 + rs1] + imm) % 0x1_0000_0000_0000_0000
  }

  /** One instruction of the program buffer, followed by the implicit ebreak; None is an exception. */
  function Execute(h: Hart, instr: Instr, traps: set<nat>): Option<Hart>
    requires instr.Valid()
  {
    match instr
    case Ld(rd, rs1, imm) =>
      var a := EffectiveAddress(h, rs1, imm);
      if Fits(a, 8) then Some(SetReg(h, X0 + rd, WordOf(Peek(h.mem, a, 8)))) else None
    case Sd(rs2, rs1, imm) =>
      var a := EffectiveAddress(h, rs1, imm);
      if Fits(a, 8) then Some(h.(mem := Poke(h.mem, a, LE(h.regs[X0 + rs2], 8)))) else None
    case Csrrw(rd, csr, rs1) =>
      if csr in traps then None
      else
        var h1 := h.(regs := h.regs[csr := h.regs[X0 + rs1]]);
        Some(SetReg(h1, X0 + rd, h.regs[csr]))
    case Ebreak => Some(h)
    case Illegal => None
  }

  // ------------------------------------------------------------- abstract commands

  /** The register transfer of an Access Register command. */
  function Transfer(dm: Dm, write: bool, regno: nat): Dm
    requires dm.hartsel < HARTS
  {
    var h := dm.core.harts[dm.hartsel];
    if regno >= REGISTERS || (write && regno < X0) then dm.(cmderr := 2)
    else if write then WithHart(dm, SetReg(h, regno, Join(dm.data1, dm.data0)))
    else dm.(data0 := Lo(h.regs[regno]), data1 := Hi(h.regs[regno]))
  }

  function RunProgram(dm: Dm): Dm
    requires dm.hartsel < HARTS
  {
    match Execute(dm.core.harts[dm.hartsel], Decode(dm.progbuf0), dm.core.env.traps)
    case Some(h) => WithHart(dm, h)
    case None => dm.(cmderr := 3)
  }

  /** An Access Register command: transfer regno (write: into the hart), then run the program buffer. */
  datatype Access = Access(transfer: bool, write: bool, postexec: bool, regno: nat)

  /** None for what this module does not support: another command type, another register size,
      register post-increment. */
  function DecodeCommand(c: U32): Option<Access>
  {
    var transfer := Has(c, 0x2_0000);
    if c / 0x100_0000 != 0 || Has(c, 0x8_0000) || (transfer && c / 0x10_0000 % 8 != 3) then None
    else Some(Access(transfer, Has(c, 0x1_0000), Has(c, 0x4_0000), c % 0x1_0000))
  }

  /** The whole effect of an abstract command on an idle module. */
  function Perform(dm: Dm, command: U32): Dm
  {
    match DecodeCommand(command)
    case None => dm.(cmderr := 2)
    case Some(a) =>
      if dm.hartsel >= HARTS || dm.core.harts[dm.hartsel].run.Running? then dm.(cmderr := 4)
      else
        var moved := if a.transfer then Transfer(dm, a.write, a.regno) else dm;
        if moved.cmderr == 0 && a.postexec then RunProgram(moved) else moved
  }

  /** The module once the command in flight, if any, is done. */
  function Finish(dm: Dm): Dm
  {
    if dm.pending.Busy? then Perform(dm.(pending := Idle), dm.pending.command) else dm
  }

  // ------------------------------------------------------------------ run control

  function WithRun(c: Core, h: nat, run: RunState): Core
    requires h < HARTS
  {
    c.(harts := c.harts[h := c.harts[h].(run := run)])
  }

  /** Hart h has executed firmware since it was resumed and is now in debug mode. */
  function Settled(c: Core, h: nat): Core
    requires h < HARTS
  {
    c.(harts := c.harts[h := c.env.firmware(h, c.harts[h].(run := Halted), c.resumes).(run := Halted)])
  }

  function Control(dm: Dm, w: U32): Dm
  {
    if !Has(w, DMACTIVE) then dm.(misused := true)
    else
      var sel := w / 0x1_0000 % 0x400 + w / 0x40 % 0x400 * 0x400;
      var d := dm.(hartsel := sel);
      if sel >= HARTS then d
      else if Has(w, HALTREQ) then
        if dm.core.harts[sel].run.Halted? then d
        else d.(core := WithRun(dm.core, sel, Running(dm.core.env.runLength(dm.core.resumes))))
      else if Has(w, RESUMEREQ) && dm.core.harts[sel].run.Halted? then
        var c := dm.core.(resumes := dm.core.resumes + 1);
        d.(core := WithRun(c, sel, Running(dm.core.env.runLength(c.resumes))))
      else d
  }

  // --------------------------------------------------------------- register access

  function DmWrite(dm: Dm, reg: nat, w: U32): Dm
  {
    if dm.pending.Busy? then
      if reg == DMCONTROL then dm.(misused := true)
      else if reg in {DATA0, DATA1, PROGBUF0, COMMAND} then
        dm.(misused := true, cmderr := if dm.cmderr == 0 then 1 else dm.cmderr)
      else dm
    else if reg == DATA0 then dm.(data0 := w)
    else if reg == DATA1 then dm.(data1 := w)
    else if reg == PROGBUF0 then dm.(progbuf0 := w)
    else if reg == COMMAND then
      if dm.cmderr != 0 then dm
      else dm.(pending := Busy(w, dm.core.env.latency(dm.issued)), issued := dm.issued + 1)
    else if reg == DMCONTROL then Control(dm, w)
    else dm
  }

  /** A register read; polling a status register lets time pass. */
  function DmRead(dm: Dm, reg: nat): (Dm, U32)
  {
    if reg == ABSTRACTCS then
      match dm.pending
      case Busy(command, left) =>
        if left == 0 then (Finish(dm), AbstractCs(Finish(dm)))
        else (dm.(pending := Busy(command, left - 1)), AbstractCs(dm))
      case Idle => (dm, AbstractCs(dm))
    else if reg == DMSTATUS then
      if dm.hartsel >= HARTS then (dm, 0xC082)
      else match dm.core.harts[dm.hartsel].run
        case Halted => (dm, 0x0382)
        case Running(left) =>
          if left == 0 then (dm.(core := Settled(dm.core, dm.hartsel)), 0x0382)
          else (dm.(core := WithRun(dm.core, dm.hartsel, Running(left - 1))), 0x0C82)
    else if reg == DATA0 || reg == DATA1 then
      if dm.pending.Busy? then
        (dm.(misused := true, cmderr := if dm.cmderr == 0 then 1 else dm.cmderr), 0)
      else (dm, if reg == DATA0 then dm.data0 else dm.data1)
    else (dm, 0)
  }

  function AbstractCs(dm: Dm): U32
  {
    0x0100_0002 + (if dm.pending.Busy? then BUSY else 0) + dm.cmderr % 8 * 0x100
  }
}
