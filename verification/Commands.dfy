/** What the driver's abstract commands do to a debug module, one by one and put together as register and
    memory accesses, in whatever state the module and the hart are. */
module Commands {
  import opened Numbers
  import opened DebugModule

  // --------------------------------------------------------------- single commands

  /** `(hartsello << 16) | DMACTIVE`, with or without a request bit. */
  function DmControl(h: nat, request: nat): nat { h * 0x1_0000 + request + DMACTIVE }

  lemma ControlBits(h: nat, request: nat)
    requires h < HARTS && request in {0, 0x4000_0000, 0x8000_0000}
    ensures var w := h * 0x1_0000 + request + 1;
      && w / 1 % 2 == 1 && w / 0x1_0000 % 0x400 == h && w / 0x40 % 0x400 == 0
      && w / 0x4000_0000 == request / 0x4000_0000 && w / 0x8000_0000 == request / 0x8000_0000
  {
    var w := h * 0x1_0000 + request + 1;
    assert w / 0x1_0000 == h + request / 0x1_0000;
    assert w / 0x40 == h * 0x400 + request / 0x40;
  }

  lemma Selects(dm: Dm, h: nat)
    requires dm.pending.Idle? && h < HARTS
    ensures DmWrite(dm, DMCONTROL, DmControl(h, 0)) == dm.(hartsel := h)
  {
    ControlBits(h, 0);
  }

  /** The command words the driver writes. */
  lemma CommandWords(r: nat)
    requires r < 0x1_0000
    ensures DecodeCommand(0x32_0000 + r) == Some(Access.Access(true, false, false, r))
    ensures DecodeCommand(0x33_0000 + r) == Some(Access.Access(true, true, false, r))
    ensures DecodeCommand(0x36_0000) == Some(Access.Access(true, false, true, 0))
    ensures DecodeCommand(0x37_100A) == Some(Access.Access(true, true, true, A0))
  {
    CommandBits(0x32, r);
    CommandBits(0x33, r);
    CommandBits(0x36, 0);
    CommandBits(0x37, 0x100A);
  }

  lemma CommandBits(high: nat, r: nat)
    requires high < 0x100 && r < 0x1_0000
    ensures var c := high * 0x1_0000 + r;
      && c / 0x1_0000 == high && c % 0x1_0000 == r && c / 0x2_0000 == high / 2 && c / 0x4_0000 == high / 4
      && c / 0x8_0000 == high / 8 && c / 0x10_0000 == high / 16 && c / 0x100_0000 == 0
  {
    assert (high * 0x1_0000 + r) / 0x1_0000 == high;
  }

  lemma ReadCommand(dm: Dm, r: nat)
    requires CanAccess(dm) && r < REGISTERS
    ensures Perform(dm, 0x32_0000 + r)
         == dm.(data0 := Lo(Selected(dm).regs[r]), data1 := Hi(Selected(dm).regs[r]))
  {
    CommandWords(r);
  }

  predicate CanAccess(dm: Dm)
  {
    Quiet(dm) && dm.hartsel < HARTS && Selected(dm).run.Halted?
  }

  function Selected(dm: Dm): Hart
    requires dm.hartsel < HARTS
  {
    dm.core.harts[dm.hartsel]
  }

  lemma WriteCommand(dm: Dm, r: nat)
    requires CanAccess(dm) && X0 <= r < REGISTERS
    ensures Perform(dm, 0x33_0000 + r) == WithHart(dm, SetReg(Selected(dm), r, Join(dm.data1, dm.data0)))
  {
    CommandWords(r);
  }

  /** The three instructions the driver injects. */
  lemma Injected(csr: nat)
    requires csr < 0x1000
    ensures Decode(0x53503) == Ld(10, 10, 0) && Decode(0xB5_3023) == Sd(11, 10, 0)
    ensures Decode(0x59073 + csr * 0x10_0000) == Csrrw(0, csr, 11)
  {
    CsrwFields(csr);
  }

  lemma CsrwFields(csr: nat)
    ensures var i := 0x59073 + csr * 0x10_0000;
      && i / 0x10_0000 == csr && i % 128 == 0x73 && i / 0x1000 % 8 == 1 && i / 0x80 % 32 == 0 && i / 0x8000 % 32 == 11
  {
    var i := 0x59073 + csr * 0x10_0000;
    assert i / 0x80 == 0xB20 + csr * 0x2000;
    assert i / 0x1000 == 0x59 + csr * 0x100;
    assert i / 0x8000 == 0xB + csr * 0x20;
  }

  lemma ExecuteLoad(h: Hart, traps: set<nat>)
    requires Fits(h.regs[A0], 8)
    ensures Execute(h, Ld(10, 10, 0), traps) == Some(SetReg(h, A0, WordOf(Peek(h.mem, h.regs[A0], 8))))
  {
    assert EffectiveAddress(h, 10, 0) == h.regs[A0];
  }

  lemma ExecuteStore(h: Hart, traps: set<nat>)
    requires Fits(h.regs[A0], 8)
    ensures Execute(h, Sd(11, 10, 0), traps) == Some(h.(mem := Poke(h.mem, h.regs[A0], LE(h.regs[A1], 8))))
  {
    assert EffectiveAddress(h, 10, 0) == h.regs[A0];
  }

  lemma WithHartTwice(dm: Dm, h1: Hart, h2: Hart)
    requires dm.hartsel < HARTS
    ensures WithHart(WithHart(dm, h1), h2) == WithHart(dm, h2)
    ensures Selected(WithHart(dm, h1)) == h1
  {
    assert dm.core.harts[dm.hartsel := h1][dm.hartsel := h2] == dm.core.harts[dm.hartsel := h2];
  }

  /** 0x37100A: transfer data0/1 into a0, then run the program buffer. */
  lemma TransferThenRun(dm: Dm)
    requires CanAccess(dm)
    ensures Perform(dm, 0x37_100A)
         == RunProgram(WithHart(dm, SetReg(Selected(dm), A0, Join(dm.data1, dm.data0))))
  {
    CommandWords(0);
  }

  lemma ProgramCommand(dm: Dm, h': Hart)
    requires CanAccess(dm)
    requires var h := SetReg(Selected(dm), A0, Join(dm.data1, dm.data0));
      Execute(h, Decode(dm.progbuf0), dm.core.env.traps) == Some(h')
    ensures Perform(dm, 0x37_100A) == WithHart(dm, h')
  {
    TransferThenRun(dm);
    WithHartTwice(dm, SetReg(Selected(dm), A0, Join(dm.data1, dm.data0)), h');
  }

  /** `ld a0, 0(a0)` with the address in data0/1. */
  lemma LoadCommand(dm: Dm)
    requires CanAccess(dm) && dm.progbuf0 == 0x53503 && Fits(Join(dm.data1, dm.data0), 8)
    ensures var h := Selected(dm);
      Perform(dm, 0x37_100A)
      == WithHart(dm, SetReg(h, A0, WordOf(Peek(h.mem, Join(dm.data1, dm.data0), 8))))
  {
    var h, a := Selected(dm), Join(dm.data1, dm.data0);
    var v := WordOf(Peek(h.mem, a, 8));
    Injected(0);
    ExecuteLoad(SetReg(h, A0, a), dm.core.env.traps);
    assert h.regs[A0 := a][A0 := v] == h.regs[A0 := v];
    ProgramCommand(dm, SetReg(h, A0, v));
  }

  /** `sd a1, 0(a0)` with the address in data0/1. */
  lemma StoreCommand(dm: Dm)
    requires CanAccess(dm) && dm.progbuf0 == 0xB5_3023 && Fits(Join(dm.data1, dm.data0), 8)
    ensures var a, h := Join(dm.data1, dm.data0), Selected(dm);
      Perform(dm, 0x37_100A)
      == WithHart(dm, SetReg(h, A0, a).(mem := Poke(h.mem, a, LE(h.regs[A1], 8))))
  {
    var h, a := Selected(dm), Join(dm.data1, dm.data0);
    var h1 := SetReg(h, A0, a);
    Injected(0);
    ExecuteStore(h1, dm.core.env.traps);
    ProgramCommand(dm, h1.(mem := Poke(h.mem, a, LE(h.regs[A1], 8))));
  }

  /** Transfer CSR 0 into data0/1, then `csrrw x0, csr, a1`. */
  lemma CsrWriteCommand(dm: Dm, csr: nat)
    requires CanAccess(dm) && csr < 0x1000 && dm.progbuf0 == 0x59073 + csr * 0x10_0000
    ensures var h := Selected(dm);
      var moved := dm.(data0 := Lo(h.regs[0]), data1 := Hi(h.regs[0]));
      Perform(dm, 0x36_0000)
      == if csr in dm.core.env.traps then moved.(cmderr := 3)
         else WithHart(moved, SetReg(h, csr, h.regs[A1]))
  {
    CommandWords(0);
    Injected(csr);
  }

  // ------------------------------------------------------------------ one hart of many

  function WithHartAt(c: Core, h: nat, hart: Hart): Core
    requires h < HARTS
  {
    c.(harts := c.harts[h := hart])
  }

  lemma Unchanged(c: Core, h: nat)
    requires h < HARTS
    ensures WithHartAt(c, h, c.harts[h]) == c
  {
    assert c.harts[h := c.harts[h]] == c.harts;
  }

  lemma TwiceAt(c: Core, h: nat, h1: Hart, h2: Hart)
    requires h < HARTS
    ensures WithHartAt(WithHartAt(c, h, h1), h, h2) == WithHartAt(c, h, h2)
  {
    assert c.harts[h := h1][h := h2] == c.harts[h := h2];
  }

  /** From dm to d: the module is quiet, hart h is selected and has become `hart`, and no other changed. */
  ghost predicate Reached(dm: Dm, d: Dm, h: nat, hart: Hart)
    requires h < HARTS
  {
    Quiet(d) && d.hartsel == h && d.core == WithHartAt(dm.core, h, hart)
  }

  lemma ReachedTwice(dm: Dm, d1: Dm, d2: Dm, h: nat, h1: Hart, h2: Hart)
    requires h < HARTS && Reached(dm, d1, h, h1) && Reached(d1, d2, h, h2)
    ensures Reached(dm, d2, h, h2)
  {
    TwiceAt(dm.core, h, h1, h2);
  }

  // ---------------------------------------------------------------- a command, awaited

  lemma FinishIsIdle(dm: Dm)
    ensures Finish(dm).pending.Idle? && Finish(dm).misused == dm.misused
  {
  }

  /** A command touches the selected hart only, and never counts as misuse. */
  lemma FinishTouchesOne(dm: Dm)
    requires dm.hartsel < HARTS
    ensures var d := Finish(dm);
      && d.hartsel == dm.hartsel && d.misused == dm.misused
      && d.core == WithHartAt(dm.core, dm.hartsel, d.core.harts[dm.hartsel])
  {
    Unchanged(dm.core, dm.hartsel);
    if dm.pending.Busy? { PerformTouchesOne(dm.(pending := Idle), dm.pending.command); }
  }

  lemma PerformTouchesOne(dm: Dm, command: U32)
    requires dm.hartsel < HARTS
    ensures var d := Perform(dm, command);
      && d.hartsel == dm.hartsel && d.misused == dm.misused
      && d.core == WithHartAt(dm.core, dm.hartsel, d.core.harts[dm.hartsel])
  {
    Unchanged(dm.core, dm.hartsel);
    var a := DecodeCommand(command);
    if a.Some? && dm.core.harts[dm.hartsel].run.Halted? {
      var moved := if a.value.transfer then Transfer(dm, a.value.write, a.value.regno) else dm;
      assert moved.core == WithHartAt(dm.core, dm.hartsel, moved.core.harts[dm.hartsel]);
      var ran := RunProgram(moved);
      TwiceAt(dm.core, dm.hartsel, moved.core.harts[dm.hartsel], ran.core.harts[dm.hartsel]);
      assert ran.core == WithHartAt(moved.core, dm.hartsel, ran.core.harts[dm.hartsel]) by {
        Unchanged(moved.core, dm.hartsel);
      }
    }
  }

  /** The module after a command was written and is no longer in flight. */
  function Commanded(dm: Dm, command: U32): (dm': Dm)
    requires dm.pending.Idle?
    ensures dm'.pending.Idle? && dm'.misused == dm.misused
  {
    FinishIsIdle(DmWrite(dm, COMMAND, command));
    Finish(DmWrite(dm, COMMAND, command))
  }

  lemma CommandedTouchesOne(dm: Dm, command: U32)
    requires dm.pending.Idle? && dm.hartsel < HARTS
    ensures var d := Commanded(dm, command);
      && d.hartsel == dm.hartsel && d.misused == dm.misused
      && d.core == WithHartAt(dm.core, dm.hartsel, d.core.harts[dm.hartsel])
  {
    FinishTouchesOne(DmWrite(dm, COMMAND, command));
  }

  lemma QuietCommand(dm: Dm, command: U32)
    requires Quiet(dm)
    ensures Commanded(dm, command) == Perform(dm.(issued := dm.issued + 1), command)
  {
    assert DmWrite(dm, COMMAND, command).(pending := Idle) == dm.(issued := dm.issued + 1);
  }

  /** A module with an error takes no command. */
  lemma CommandIgnored(dm: Dm, command: U32)
    requires dm.pending.Idle? && dm.cmderr != 0
    ensures Commanded(dm, command) == dm
  {
  }

  /** A command to a running hart does nothing but record an error. */
  lemma CommandRefused(dm: Dm, command: U32)
    requires Quiet(dm) && dm.hartsel < HARTS && Selected(dm).run.Running? && DecodeCommand(command).Some?
    ensures Commanded(dm, command) == dm.(issued := dm.issued + 1, cmderr := 4)
  {
    QuietCommand(dm, command);
  }

  // ------------------------------------------------------------------- register access

  /** The value in data0 and data1. */
  function Data(dm: Dm): U64 { Join(dm.data1, dm.data0) }

  function PutData(dm: Dm, v: U64): (d: Dm)
    ensures Data(d) == v
  {
    dm.(data0 := Lo(v), data1 := Hi(v))
  }

  /** A register read: select, command, data. */
  function ReadSteps(dm: Dm, h: nat, reg: nat): (r: (Dm, U64))
    requires dm.pending.Idle? && h < HARTS && reg < REGISTERS
    ensures r.0.pending.Idle? && r.0.misused == dm.misused
  {
    var d := Commanded(dm.(hartsel := h), 0x32_0000 + reg);
    (d, Data(d))
  }

  /** A read gives the register exactly of a halted hart behind a module without an error; otherwise
      the two data registers as they were, with an error that stays. */
  lemma ReadStepsGive(dm: Dm, h: nat, reg: nat)
    requires dm.pending.Idle? && h < HARTS && reg < REGISTERS
    ensures var (d, v) := ReadSteps(dm, h, reg);
      var fine := dm.cmderr == 0 && dm.core.harts[h].run.Halted?;
      && d.core == dm.core && d.hartsel == h && d.misused == dm.misused && d.pending.Idle?
      && v == (if fine then dm.core.harts[h].regs[reg] else Data(dm))
      && d.cmderr == (if dm.cmderr != 0 then dm.cmderr else if fine then 0 else 4)
      && (!fine ==> d.data0 == dm.data0 && d.data1 == dm.data1)
  {
    CommandWords(reg);
  }

  /** The read of a register that is there to be read. */
  lemma ReadOfReady(dm: Dm, h: nat, reg: nat)
    requires Quiet(dm) && h < HARTS && dm.core.harts[h].run.Halted? && reg < REGISTERS
    ensures var (d, v) := ReadSteps(dm, h, reg);
      Reached(dm, d, h, dm.core.harts[h]) && v == dm.core.harts[h].regs[reg]
  {
    ReadStepsGive(dm, h, reg);
    Unchanged(dm.core, h);
  }

  /** `csrrw x0, csr, a1` */
  function CsrwWord(csr: nat): U32
    requires csr < X0
  {
    0x59073 + csr * 0x10_0000
  }

  /** A register write: a general register by a transfer, a CSR through a1 and an injected csrrw. */
  function WriteSteps(dm: Dm, h: nat, reg: nat, v: U64): (d: Dm)
    requires dm.pending.Idle? && h < HARTS && reg < REGISTERS
    ensures d.pending.Idle? && d.misused == dm.misused
  {
    var d := PutData(dm.(hartsel := h), v);
    if reg >= X0 then Commanded(d, 0x33_0000 + reg)
    else Commanded(Commanded(d, 0x33_100B).(progbuf0 := CsrwWord(reg)), 0x36_0000)
  }

  /** A register write as it leaves the hart: a CSR is written from a1, which keeps the value. */
  function Written(h: Hart, reg: nat, v: U64): Hart
    requires reg < REGISTERS
  {
    if reg >= X0 then SetReg(h, reg, v) else SetReg(SetReg(h, A1, v), reg, v)
  }

  /** The hart can be commanded, and writing the register does not trap. */
  predicate Writable(dm: Dm, h: nat, reg: nat)
    requires h < HARTS
  {
    dm.cmderr == 0 && dm.core.harts[h].run.Halted? && (reg < X0 ==> reg !in dm.core.env.traps)
  }

  lemma WriteGprGives(dm: Dm, reg: nat, v: U64)
    requires CanAccess(dm) && X0 <= reg < REGISTERS && Data(dm) == v
    ensures var d := Commanded(dm, 0x33_0000 + reg);
      Reached(dm, d, dm.hartsel, SetReg(Selected(dm), reg, v)) && Data(d) == v
  {
    QuietCommand(dm, 0x33_0000 + reg);
    WriteCommand(dm.(issued := dm.issued + 1), reg);
  }

  lemma WriteCsrGives(dm: Dm, csr: nat)
    requires CanAccess(dm) && csr < X0 && dm.progbuf0 == CsrwWord(csr)
    ensures var d, h := Commanded(dm, 0x36_0000), Selected(dm);
      && Data(d) == h.regs[0] && d.hartsel == dm.hartsel && d.misused == dm.misused
      && (csr !in dm.core.env.traps ==> Reached(dm, d, dm.hartsel, SetReg(h, csr, h.regs[A1])))
      && (csr in dm.core.env.traps ==> d.cmderr == 3 && d.core == dm.core)
  {
    QuietCommand(dm, 0x36_0000);
    CsrWriteCommand(dm.(issued := dm.issued + 1), csr);
  }

  /** A writable register is written. */
  lemma WriteOfReady(dm: Dm, h: nat, reg: nat, v: U64)
    requires Quiet(dm) && h < HARTS && reg < REGISTERS && Writable(dm, h, reg)
    ensures Reached(dm, WriteSteps(dm, h, reg, v), h, Written(dm.core.harts[h], reg, v))
  {
    hide Commanded;
    var d, hart := PutData(dm.(hartsel := h), v), dm.core.harts[h];
    if reg >= X0 {
      WriteGprGives(d, reg, v);
    } else {
      WriteGprGives(d, A1, v);
      var d1 := Commanded(d, 0x33_100B).(progbuf0 := CsrwWord(reg));
      assert Reached(dm, d1, h, SetReg(hart, A1, v));
      WriteCsrGives(d1, reg);
      ReachedTwice(dm, d1, Commanded(d1, 0x36_0000), h, SetReg(hart, A1, v), Written(hart, reg, v));
    }
  }

  /** A CSR write that traps: x11 is overwritten, the error is recorded, CSR 0 is left in data0/1. */
  lemma WriteOfTrapping(dm: Dm, h: nat, csr: nat, v: U64)
    requires Quiet(dm) && h < HARTS && csr < X0 && dm.core.harts[h].run.Halted? && csr in dm.core.env.traps
    ensures var d := WriteSteps(dm, h, csr, v);
      && d.cmderr == 3 && !d.misused && d.hartsel == h && Data(d) == dm.core.harts[h].regs[0]
      && d.core == WithHartAt(dm.core, h, SetReg(dm.core.harts[h], A1, v))
  {
    hide Commanded;
    var d := PutData(dm.(hartsel := h), v);
    WriteGprGives(d, A1, v);
    WriteCsrGives(Commanded(d, 0x33_100B).(progbuf0 := CsrwWord(csr)), csr);
  }

  lemma WriteToDead(dm: Dm, h: nat, reg: nat, v: U64)
    requires dm.pending.Idle? && dm.cmderr != 0 && h < HARTS && reg < REGISTERS
    ensures var d := WriteSteps(dm, h, reg, v);
      d.core == dm.core && d.cmderr == dm.cmderr && d.misused == dm.misused && Data(d) == v
  {
    hide Commanded;
    var d := PutData(dm.(hartsel := h), v);
    if reg >= X0 {
      CommandIgnored(d, 0x33_0000 + reg);
    } else {
      CommandIgnored(d, 0x33_100B);
      CommandIgnored(d.(progbuf0 := CsrwWord(reg)), 0x36_0000);
    }
  }

  lemma WriteToRunning(dm: Dm, h: nat, reg: nat, v: U64)
    requires Quiet(dm) && h < HARTS && reg < REGISTERS && dm.core.harts[h].run.Running?
    ensures var d := WriteSteps(dm, h, reg, v);
      d.core == dm.core && d.cmderr == 4 && d.misused == dm.misused && Data(d) == v
  {
    hide Commanded;
    var d := PutData(dm.(hartsel := h), v);
    CommandWords(if reg >= X0 then reg else A1);
    if reg >= X0 {
      CommandRefused(d, 0x33_0000 + reg);
    } else {
      CommandRefused(d, 0x33_100B);
      CommandIgnored(d.(issued := d.issued + 1, cmderr := 4, progbuf0 := CsrwWord(reg)), 0x36_0000);
    }
  }

  /** A register write takes effect, and leaves no error, exactly when the module had none, the hart is
      halted and, for a CSR, the write does not trap; otherwise the register keeps its value, and nothing
      of any hart changes but x11 when a CSR write traps. */
  lemma WriteTakesEffectIff(dm: Dm, h: nat, reg: nat, v: U64)
    requires dm.pending.Idle? && !dm.misused && h < HARTS && reg < REGISTERS
    ensures var d, hart := WriteSteps(dm, h, reg, v), dm.core.harts[h];
      && (d.cmderr == 0 <==> Writable(dm, h, reg))
      && d.core == (if Writable(dm, h, reg) then WithHartAt(dm.core, h, Written(hart, reg, v))
                    else if dm.cmderr == 0 && hart.run.Halted? then WithHartAt(dm.core, h, SetReg(hart, A1, v))
                    else dm.core)
  {
    hide WriteSteps;
    if dm.cmderr != 0 {
      WriteToDead(dm, h, reg, v);
    } else if dm.core.harts[h].run.Running? {
      WriteToRunning(dm, h, reg, v);
    } else if Writable(dm, h, reg) {
      WriteOfReady(dm, h, reg, v);
    } else {
      WriteOfTrapping(dm, h, reg, v);
    }
  }

  // --------------------------------------------------------------------- memory access

  /** One word through a0: load it, and read a0. */
  function LoadWord(dm: Dm, a: U64): (d: Dm)
    requires dm.pending.Idle?
    ensures d.pending.Idle? && d.misused == dm.misused
  {
    Commanded(Commanded(PutData(dm, a).(progbuf0 := 0x53503), 0x37_100A), 0x32_100A)
  }

  function LoadSteps(dm: Dm, address: nat, n: nat): (r: (Dm, seq<U64>))
    requires dm.pending.Idle? && Fits(address, 8 * n)
    ensures r.0.pending.Idle? && r.0.misused == dm.misused && |r.1| == n
    decreases n
  {
    if n == 0 then (dm, [])
    else
      var (d, words) := LoadSteps(dm, address, n - 1);
      var d' := LoadWord(d, address + 8 * (n - 1));
      (d', words + [Data(d')])
  }

  /** A memory read: save a0, load the words, restore a0. */
  function ReadMemorySteps(dm: Dm, h: nat, address: nat, n: nat): (r: (Dm, seq<U64>))
    requires dm.pending.Idle? && h < HARTS && Fits(address, 8 * n)
    ensures r.0.pending.Idle? && r.0.misused == dm.misused && |r.1| == n
  {
    var (d1, a0) := ReadSteps(dm, h, A0);
    var (d2, words) := LoadSteps(d1, address, n);
    (WriteSteps(d2, h, A0, a0), words)
  }

  lemma LoadWordGives(dm: Dm, a: U64)
    requires CanAccess(dm) && Fits(a, 8)
    ensures var d, w := LoadWord(dm, a), WordOf(Peek(Selected(dm).mem, a, 8));
      Reached(dm, d, dm.hartsel, SetReg(Selected(dm), A0, w)) && Data(d) == w
  {
    var h, d := Selected(dm), PutData(dm, a).(progbuf0 := 0x53503);
    var w := WordOf(Peek(h.mem, a, 8));
    QuietCommand(d, 0x37_100A);
    LoadCommand(d.(issued := d.issued + 1));
    var d1 := Commanded(d, 0x37_100A);
    assert Reached(dm, d1, dm.hartsel, SetReg(h, A0, w));
    QuietCommand(d1, 0x32_100A);
    ReadCommand(d1.(issued := d1.issued + 1), A0);
  }

  lemma PeekOn(mem: Memory, a: nat, n: nat)
    requires Fits(a, n + 8)
    ensures Peek(mem, a, n + 8) == Peek(mem, a, n) + Peek(mem, a + n, 8)
  {
  }

  lemma AppendWord(mem: Memory, address: nat, n: nat, words: seq<U64>, word: U64)
    requires Fits(address, 8 * n + 8) && |words| == n && BytesOfWords(words) == Peek(mem, address, 8 * n)
    requires word == WordOf(Peek(mem, address + 8 * n, 8))
    ensures BytesOfWords(words + [word]) == Peek(mem, address, 8 * (n + 1))
  {
    hide Peek, WordOf, LE;
    BytesRoundTrip(Peek(mem, address + 8 * n, 8));
    assert (words + [word])[..n] == words;
    PeekOn(mem, address, 8 * n);
  }

  /** One more word, whatever a0 holds by now. */
  lemma LoadMore(dm: Dm, d: Dm, h: Hart, a0: U64, a: U64)
    requires dm.hartsel < HARTS && Reached(dm, d, dm.hartsel, SetReg(h, A0, a0)) && h.run.Halted? && Fits(a, 8)
    ensures var w := WordOf(Peek(h.mem, a, 8));
      Reached(dm, LoadWord(d, a), dm.hartsel, SetReg(h, A0, w)) && Data(LoadWord(d, a)) == w
  {
    hide LoadWord, Peek, WordOf;
    var w := WordOf(Peek(h.mem, a, 8));
    LoadWordGives(d, a);
    assert h.regs[A0 := a0][A0 := w] == h.regs[A0 := w];
    ReachedTwice(dm, d, LoadWord(d, a), dm.hartsel, SetReg(h, A0, a0), SetReg(h, A0, w));
  }

  /** What the loads leave in a0. */
  function LastLoaded(h: Hart, words: seq<U64>): U64 { if words == [] then h.regs[A0] else words[|words| - 1] }

  predicate WordsAt(mem: Memory, address: nat, words: seq<U64>)
    requires Fits(address, 8 * |words|)
  {
    forall i :: 0 <= i < |words| ==> words[i] == WordOf(Peek(mem, address + 8 * i, 8))
  }

  lemma OneMoreAt(mem: Memory, address: nat, words: seq<U64>, word: U64)
    requires Fits(address, 8 * |words| + 8) && WordsAt(mem, address, words)
    requires word == WordOf(Peek(mem, address + 8 * |words|, 8))
    ensures WordsAt(mem, address, words + [word])
  {
  }

  lemma {:induction false} LoadStepsGive(dm: Dm, address: nat, n: nat)
    requires CanAccess(dm) && Fits(address, 8 * n)
    ensures var (d, words) := LoadSteps(dm, address, n); var h := Selected(dm);
      && Reached(dm, d, dm.hartsel, SetReg(h, A0, LastLoaded(h, words)))
      && BytesOfWords(words) == Peek(h.mem, address, 8 * n) && WordsAt(h.mem, address, words)
    decreases n
  {
    var h := Selected(dm);
    if n == 0 {
      assert h.regs[A0 := h.regs[A0]] == h.regs;
      Unchanged(dm.core, dm.hartsel);
    } else {
      hide LoadWord, Peek, WordOf, Reached, SetReg, BytesOfWords, WordsAt;
      LoadStepsGive(dm, address, n - 1);
      var (d, words) := LoadSteps(dm, address, n - 1);
      var word := WordOf(Peek(h.mem, address + 8 * (n - 1), 8));
      LoadMore(dm, d, h, LastLoaded(h, words), address + 8 * (n - 1));
      AppendWord(h.mem, address, n - 1, words, word);
      OneMoreAt(h.mem, address, words, word);
      assert LoadSteps(dm, address, n) == (LoadWord(d, address + 8 * (n - 1)), words + [word]);
    }
  }

  lemma ReachedAtFirst(dm: Dm, h: nat)
    requires Quiet(dm) && h < HARTS
    ensures Reached(dm, dm.(hartsel := h), h, dm.core.harts[h])
  {
    Unchanged(dm.core, h);
  }

  /** A read, or a write of a general register, in the middle of a longer access. */
  lemma ReadAlong(dm: Dm, d: Dm, h: nat, hart: Hart, reg: nat)
    requires h < HARTS && Reached(dm, d, h, hart) && hart.run.Halted? && reg < REGISTERS
    ensures var (d', v) := ReadSteps(d, h, reg); Reached(dm, d', h, hart) && v == hart.regs[reg]
  {
    hide ReadSteps;
    ReadOfReady(d, h, reg);
    ReachedTwice(dm, d, ReadSteps(d, h, reg).0, h, hart, hart);
  }

  lemma WriteAlong(dm: Dm, d: Dm, h: nat, hart: Hart, reg: nat, v: U64)
    requires h < HARTS && Reached(dm, d, h, hart) && hart.run.Halted? && X0 <= reg < REGISTERS
    ensures Reached(dm, WriteSteps(d, h, reg, v), h, SetReg(hart, reg, v))
  {
    hide WriteSteps;
    WriteOfReady(d, h, reg, v);
    ReachedTwice(dm, d, WriteSteps(d, h, reg, v), h, hart, SetReg(hart, reg, v));
  }

  lemma LoadsAlong(dm: Dm, d: Dm, h: nat, hart: Hart, address: nat, n: nat)
    requires h < HARTS && Reached(dm, d, h, hart) && hart.run.Halted? && Fits(address, 8 * n)
    ensures var (d', words) := LoadSteps(d, address, n);
      && Reached(dm, d', h, SetReg(hart, A0, LastLoaded(hart, words)))
      && BytesOfWords(words) == Peek(hart.mem, address, 8 * n) && WordsAt(hart.mem, address, words)
  {
    hide LoadSteps;
    LoadStepsGive(d, address, n);
    var (d', words) := LoadSteps(d, address, n);
    ReachedTwice(dm, d, d', h, hart, SetReg(hart, A0, LastLoaded(hart, words)));
  }

  lemma Reselected(dm: Dm, h: nat, reg: nat)
    requires dm.pending.Idle? && h < HARTS && reg < REGISTERS
    ensures ReadSteps(dm.(hartsel := h), h, reg) == ReadSteps(dm, h, reg)
  {
  }

  /** Exactly the words from the address on, and the hart as it was. */
  lemma ReadMemoryOfReady(dm: Dm, h: nat, address: nat, n: nat)
    requires Quiet(dm) && h < HARTS && dm.core.harts[h].run.Halted? && Fits(address, 8 * n)
    ensures var (d, words) := ReadMemorySteps(dm, h, address, n); var hart := dm.core.harts[h];
      && Reached(dm, d, h, hart) && BytesOfWords(words) == Peek(hart.mem, address, 8 * n)
      && WordsAt(hart.mem, address, words)
  {
    hide LoadSteps, WriteSteps, ReadSteps, Peek, BytesOfWords, WordsAt, Reached;
    var hart := dm.core.harts[h];
    ReachedAtFirst(dm, h);
    Reselected(dm, h, A0);
    ReadAlong(dm, dm.(hartsel := h), h, hart, A0);
    var (d1, a0) := ReadSteps(dm, h, A0);
    LoadsAlong(dm, d1, h, hart, address, n);
    var (d2, words) := LoadSteps(d1, address, n);
    var left := SetReg(hart, A0, LastLoaded(hart, words));
    WriteAlong(dm, d2, h, left, A0, a0);
    assert left.regs[A0 := a0] == hart.regs;
  }

  /** One word through a1, at an address put in a0. */
  function StoreWord(dm: Dm, a: U64, w: U64): (d: Dm)
    requires dm.pending.Idle?
    ensures d.pending.Idle? && d.misused == dm.misused
  {
    Commanded(PutData(Commanded(PutData(dm, w), 0x33_100B), a).(progbuf0 := 0xB5_3023), 0x37_100A)
  }

  function StoreSteps(dm: Dm, address: nat, data: seq<U64>): (d: Dm)
    requires dm.pending.Idle? && Fits(address, 8 * |data|)
    ensures d.pending.Idle? && d.misused == dm.misused
    decreases |data|
  {
    if data == [] then dm
    else
      var n := |data| - 1;
      StoreWord(StoreSteps(dm, address, data[..n]), address + 8 * n, data[n])
  }

  /** A memory write: save a0 and a1, store the words, restore both. */
  function WriteMemorySteps(dm: Dm, h: nat, address: nat, data: seq<U64>): (d: Dm)
    requires dm.pending.Idle? && h < HARTS && Fits(address, 8 * |data|)
    ensures d.pending.Idle? && d.misused == dm.misused
  {
    var (d1, a0) := ReadSteps(dm, h, A0);
    var (d2, a1) := ReadSteps(d1, h, A1);
    WriteSteps(WriteSteps(StoreSteps(d2, address, data), h, A0, a0), h, A1, a1)
  }

  lemma PokeTwice(mem: Memory, a: nat, x: Bytes, y: Bytes)
    requires Fits(a, |x| + |y|)
    ensures Poke(Poke(mem, a, x), a + |x|, y) == Poke(mem, a, x + y)
  {
  }

  /** The hart with two general registers and the memory replaced. */
  function Borrowed(h: Hart, a0: U64, a1: U64, mem: Memory): Hart
  {
    SetReg(SetReg(h, A1, a1), A0, a0).(mem := mem)
  }

  lemma BorrowAgain(h: Hart, a0: U64, a1: U64, mem: Memory, a: U64, word: U64)
    requires Fits(a, 8)
    ensures var h1 := SetReg(Borrowed(h, a0, a1, mem), A1, word);
      SetReg(h1, A0, a).(mem := Poke(h1.mem, a, LE(h1.regs[A1], 8)))
      == Borrowed(h, a, word, Poke(mem, a, LE(word, 8)))
  {
    assert h.regs[A1 := a1][A0 := a0][A1 := word][A0 := a] == h.regs[A1 := word][A0 := a];
  }

  lemma StoreWordGives(dm: Dm, a: U64, w: U64)
    requires CanAccess(dm) && Fits(a, 8)
    ensures var h := SetReg(Selected(dm), A1, w);
      Reached(dm, StoreWord(dm, a, w), dm.hartsel, SetReg(h, A0, a).(mem := Poke(h.mem, a, LE(w, 8))))
  {
    hide Commanded, Poke, LE;
    var h := SetReg(Selected(dm), A1, w);
    WriteGprGives(PutData(dm, w), A1, w);
    var d1 := Commanded(PutData(dm, w), 0x33_100B);
    assert Reached(dm, d1, dm.hartsel, h);
    var d := PutData(d1, a).(progbuf0 := 0xB5_3023);
    StoreGives(d, a);
    var h' := SetReg(h, A0, a).(mem := Poke(h.mem, a, LE(w, 8)));
    ReachedTwice(dm, d, Commanded(d, 0x37_100A), dm.hartsel, h, h');
  }

  lemma StoreGives(dm: Dm, a: U64)
    requires CanAccess(dm) && Fits(a, 8) && dm.progbuf0 == 0xB5_3023 && Data(dm) == a
    ensures var h := Selected(dm);
      Reached(dm, Commanded(dm, 0x37_100A), dm.hartsel, SetReg(h, A0, a).(mem := Poke(h.mem, a, LE(h.regs[A1], 8))))
  {
    QuietCommand(dm, 0x37_100A);
    StoreCommand(dm.(issued := dm.issued + 1));
  }

  /** What the stores leave in a0 and a1. */
  function LastAddress(h: Hart, address: nat, data: seq<U64>): U64
    requires Fits(address, 8 * |data|)
  {
    if data == [] then h.regs[A0] else address + 8 * (|data| - 1)
  }

  function LastWord(h: Hart, data: seq<U64>): U64 { if data == [] then h.regs[A1] else data[|data| - 1] }

  lemma {:induction false} StoreStepsGive(dm: Dm, address: nat, data: seq<U64>)
    requires CanAccess(dm) && Fits(address, 8 * |data|)
    ensures var h := Selected(dm);
      Reached(dm, StoreSteps(dm, address, data), dm.hartsel,
              Borrowed(h, LastAddress(h, address, data), LastWord(h, data), Poke(h.mem, address, BytesOfWords(data))))
    decreases |data|
  {
    hide StoreWord, Poke, LE;
    var h, s := Selected(dm), dm.hartsel;
    if data == [] {
      assert h.regs[A1 := h.regs[A1]][A0 := h.regs[A0]] == h.regs;
      PokeNothing(h.mem, address);
      Unchanged(dm.core, s);
    } else {
      var n := |data| - 1;
      var front, a, w := data[..n], address + 8 * n, data[n];
      StoreStepsGive(dm, address, front);
      var d, a0, a1 := StoreSteps(dm, address, front), LastAddress(h, address, front), LastWord(h, front);
      var mem := Poke(h.mem, address, BytesOfWords(front));
      StoreWordGives(d, a, w);
      BorrowAgain(h, a0, a1, mem, a, w);
      PokeTwice(h.mem, address, BytesOfWords(front), LE(w, 8));
      ReachedTwice(dm, d, StoreWord(d, a, w), s, Borrowed(h, a0, a1, mem), Borrowed(h, a, w, Poke(mem, a, LE(w, 8))));
    }
  }

  lemma PokeNothing(mem: Memory, a: nat)
    requires Fits(a, 0)
    ensures Poke(mem, a, []) == mem && BytesOfWords([]) == []
  {
  }

  lemma StoresAlong(dm: Dm, d: Dm, h: nat, hart: Hart, address: nat, data: seq<U64>)
    requires h < HARTS && Reached(dm, d, h, hart) && hart.run.Halted? && Fits(address, 8 * |data|)
    ensures Reached(dm, StoreSteps(d, address, data), h,
                    Borrowed(hart, LastAddress(hart, address, data), LastWord(hart, data),
                             Poke(hart.mem, address, BytesOfWords(data))))
  {
    hide StoreSteps, Poke, BytesOfWords;
    StoreStepsGive(d, address, data);
    var a0, a1 := LastAddress(hart, address, data), LastWord(hart, data);
    var mem := Poke(hart.mem, address, BytesOfWords(data));
    ReachedTwice(dm, d, StoreSteps(d, address, data), h, hart, Borrowed(hart, a0, a1, mem));
  }

  lemma GivenBack(h: Hart, a0: U64, a1: U64, mem: Memory)
    ensures var left := SetReg(Borrowed(h, a0, a1, mem), A0, h.regs[A0]);
      SetReg(left, A1, h.regs[A1]) == h.(mem := mem)
  {
    assert h.regs[A1 := a1][A0 := a0][A0 := h.regs[A0]][A1 := h.regs[A1]] == h.regs;
  }

  /** Word i's bytes end at address + 8i, and nothing else of the hart changes. */
  lemma WriteMemoryOfReady(dm: Dm, h: nat, address: nat, data: seq<U64>)
    requires Quiet(dm) && h < HARTS && dm.core.harts[h].run.Halted? && Fits(address, 8 * |data|)
    ensures var hart := dm.core.harts[h];
      Reached(dm, WriteMemorySteps(dm, h, address, data), h,
              hart.(mem := Poke(hart.mem, address, BytesOfWords(data))))
  {
    hide StoreSteps, WriteSteps, ReadSteps, Poke, BytesOfWords, Reached;
    var hart := dm.core.harts[h];
    ReachedAtFirst(dm, h);
    Reselected(dm, h, A0);
    ReadAlong(dm, dm.(hartsel := h), h, hart, A0);
    var (d1, a0) := ReadSteps(dm, h, A0);
    ReadAlong(dm, d1, h, hart, A1);
    var (d2, a1) := ReadSteps(d1, h, A1);
    StoresAlong(dm, d2, h, hart, address, data);
    var d3, mem := StoreSteps(d2, address, data), Poke(hart.mem, address, BytesOfWords(data));
    var left := Borrowed(hart, LastAddress(hart, address, data), LastWord(hart, data), mem);
    WriteAlong(dm, d3, h, left, A0, a0);
    WriteAlong(dm, WriteSteps(d3, h, A0, a0), h, SetReg(left, A0, a0), A1, a1);
    GivenBack(hart, LastAddress(hart, address, data), LastWord(hart, data), mem);
  }
}
