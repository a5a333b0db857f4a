/** Halt, resume, single step and continue. */
module RunControl {
  import opened Numbers
  import opened Bits
  import opened DebugModule
  import opened RfpcCores
  import opened Chip
  import opened ExpansionBar
  import opened Commands
  import opened Debugger

  // ------------------------------------------------------------- what is to happen

  /** The hart, once it has halted if it was running. */
  function Stopped(c: Core, h: nat): Core
    requires h < HARTS
  {
    if c.harts[h].run.Running? then Settled(c, h) else c
  }

  /** The core after hart h was resumed once and has halted again. */
  function Ran(c: Core, h: nat): Core
    requires h < HARTS
  {
    Settled(c.(resumes := c.resumes + 1), h)
  }

  datatype Go = Step | Continue {
    /** dcsr with the bits that make the hart come back set: step, or ebreakm and ebreaku. */
    function Arm(dcsr: U64): U64 {
      if this == Step then ArmBit(dcsr, 4) else ArmBit(ArmBit(dcsr, 0x8000), 0x1000)
    }

    /** The same bits cleared by `&= !BITS as u64`, which also clears the upper half. */
    function Disarm(dcsr: U64): U64 {
      if this == Step then ClearBit(dcsr % 0x1_0000_0000, 4)
      else ClearBit(ClearBit(dcsr % 0x1_0000_0000, 0x8000), 0x1000)
    }

    /** The halt cause that is accepted. */
    function Cause(): nat { if this == Step then 4 else 1 }

    function Refusal(): Failure { if this == Step then NotStepped else NoBreakpointHit }
  }

  /** Setting one of the low 16 bits stays within 64 bits. */
  function ArmBit(v: U64, m: nat): (r: U64)
    requires m in {4, 0x1000, 0x8000}
    ensures r == SetBit(v, m)
  {
    SetBit(v, m)
  }

  /** From v to d bit 2 of dcsr (single step), or bits 15 and 12 (continue), are set, and no other bit changes. */
  predicate BitsArmed(go: Go, v: U64, d: U64)
  {
    if go == Step then d / 4 % 2 == 1 && d % 4 == v % 4 && d / 8 == v / 8
    else && d / 0x8000 % 2 == 1 && d / 0x1000 % 2 == 1 && d % 0x1000 == v % 0x1000
         && d / 0x2000 % 4 == v / 0x2000 % 4 && d / 0x1_0000 == v / 0x1_0000
  }

  lemma ArmSetsBits(go: Go, v: U64)
    ensures BitsArmed(go, v, go.Arm(v))
  {
    if go == Step { StepArmed(v); } else { ContinueArmed(v); }
  }

  lemma StepArmed(v: U64)
    ensures var d := SetBit(v, 4); d / 4 % 2 == 1 && d % 4 == v % 4 && d / 8 == v / 8
  {
    var d, hi, lo := SetBit(v, 4), v / 8, v % 4;
    assert v / 8 == v / 4 / 2 && d == hi * 8 + 4 + lo;
    QuotientIs(d, 8, hi, 4 + lo);
    QuotientIs(d, 4, hi * 2 + 1, lo);
    QuotientIs(hi * 2 + 1, 2, hi, 1);
  }

  lemma ContinueArmed(v: U64)
    ensures var d := SetBit(SetBit(v, 0x8000), 0x1000);
      && d / 0x8000 % 2 == 1 && d / 0x1000 % 2 == 1 && d % 0x1000 == v % 0x1000
      && d / 0x2000 % 4 == v / 0x2000 % 4 && d / 0x1_0000 == v / 0x1_0000
  {
    var hi, b15, m, b12, lo := v / 0x1_0000, v / 0x8000 % 2, v / 0x2000 % 4, v / 0x1000 % 2, v % 0x1000;
    Split(v);
    Fields(hi, b15, m, b12, lo);
    Fields(hi, 1, m, b12, lo);
    Fields(hi, 1, m, 1, lo);
    var e := hi * 0x1_0000 + 1 * 0x8000 + m * 0x2000 + b12 * 0x1000 + lo;
    var d := hi * 0x1_0000 + 1 * 0x8000 + m * 0x2000 + 1 * 0x1000 + lo;
    assert SetBit(v, 0x8000) == e;
    assert SetBit(e, 0x1000) == d;
  }

  function HaltCause(dcsr: U64): nat { dcsr % 0x1_0000_0000 / 0x40 % 8 }

  /** The core with hart h armed. */
  function Armed(go: Go, c: Core, h: nat): Core
    requires h < HARTS
  {
    WithHartAt(c, h, Written(c.harts[h], DCSR, go.Arm(c.harts[h].regs[DCSR])))
  }

  /** Arm dcsr, resume once, and when the hart has come back for the right reason disarm dcsr;
      None when it came back for another reason.  Both writes of dcsr go through a1. */
  function Go1(go: Go, c: Core, h: nat): Option<Core>
    requires h < HARTS
  {
    var back := Ran(Armed(go, c, h), h);
    var dcsr := back.harts[h].regs[DCSR];
    if HaltCause(dcsr) != go.Cause() then None
    else Some(WithHartAt(back, h, Written(back.harts[h], DCSR, go.Disarm(dcsr))))
  }

  // ----------------------------------------------------------------- requests and polls

  lemma RunsOn(c: Core, h: nat, run: RunState)
    requires h < HARTS && c.harts[h].run.Running? && run.Running?
    ensures Stopped(WithRun(c, h, run), h) == Stopped(c, h)
  {
    var halted := c.harts[h].(run := Halted);
    assert c.harts[h].(run := run).(run := Halted) == halted;
    var back: Hart := c.env.firmware(h, halted, c.resumes).(run := Halted);
    assert c.harts[h := c.harts[h].(run := run)][h := back] == c.harts[h := back];
  }

  /** A resume request to a halted hart. */
  lemma Resumes(dm: Dm, h: nat)
    requires dm.pending.Idle? && h < HARTS && dm.core.harts[h].run.Halted?
    ensures var dm' := DmWrite(dm, DMCONTROL, DmControl(h, RESUMEREQ));
      && dm' == dm.(hartsel := h, core := dm'.core) && dm'.core.harts[h].run.Running?
      && dm'.core == WithRun(dm.core.(resumes := dm.core.resumes + 1), h, dm'.core.harts[h].run)
  {
    ControlBits(h, RESUMEREQ);
  }

  lemma RanAfterResume(c: Core, c': Core, h: nat)
    requires h < HARTS && c'.harts[h].run.Running?
    requires c' == WithRun(c.(resumes := c.resumes + 1), h, c'.harts[h].run)
    ensures Stopped(c', h) == Ran(c, h)
  {
    var c1 := c.(resumes := c.resumes + 1);
    var halted := c.harts[h].(run := Halted);
    assert c'.harts[h].(run := Halted) == halted;
    var back: Hart := c.env.firmware(h, halted, c1.resumes).(run := Halted);
    assert c.harts[h := c'.harts[h]][h := back] == c.harts[h := back];
  }

  /** A halt request never changes what the hart will have done by the time it halts. */
  lemma HaltRequested(dm: Dm, h: nat)
    requires dm.pending.Idle? && h < HARTS
    ensures var dm' := DmWrite(dm, DMCONTROL, DmControl(h, HALTREQ));
      dm' == dm.(hartsel := h, core := dm'.core) && Stopped(dm'.core, h) == Stopped(dm.core, h)
  {
    ControlBits(h, HALTREQ);
    if dm.core.harts[h].run.Running? {
      RunsOn(dm.core, h, Running(dm.core.env.runLength(dm.core.resumes)));
    }
  }

  /** A poll of dmstatus reports ALLHALTED exactly when the hart is halted by then. */
  lemma Polled(dm: Dm)
    requires dm.hartsel < HARTS
    ensures var (dm', w) := DmRead(dm, DMSTATUS);
      && dm' == dm.(core := dm'.core) && Stopped(dm'.core, dm.hartsel) == Stopped(dm.core, dm.hartsel)
      && (Has(w, 0x200) <==> dm'.core.harts[dm.hartsel].run.Halted?)
      && (Has(w, 0x800) ==> dm'.core.harts[dm.hartsel].run.Running?)
      && (Has(w, 0x800) ==> dm'.core == WithRun(dm.core, dm.hartsel, dm'.core.harts[dm.hartsel].run))
      && (dm.core.harts[dm.hartsel].run.Halted? ==> dm' == dm)
      && dm'.core == WithHartAt(dm.core, dm.hartsel, dm'.core.harts[dm.hartsel])
  {
    Unchanged(dm.core, dm.hartsel);
    var run := dm.core.harts[dm.hartsel].run;
    if run.Running? && run.left > 0 {
      RunsOn(dm.core, dm.hartsel, Running(run.left - 1));
    }
  }

  lemma WithRunTwice(c: Core, h: nat, a: RunState, b: RunState)
    requires h < HARTS
    ensures WithRun(WithRun(c, h, a), h, b) == WithRun(c, h, b)
  {
    assert c.harts[h := c.harts[h].(run := a)][h := c.harts[h].(run := b)] == c.harts[h := c.harts[h].(run := b)];
  }

  /** From chip to chip nothing but the core's hart, how often a hart was resumed, and the scratch registers
      of its debug module has changed, and no debug register was touched during a command. */
  ghost predicate SameElse(base: Chip, c: Chip, r: Rfpc)
  {
    && DmIdOf(r) in base.dms && r.Hart() < HARTS && OnlyDm(base, c, r)
    && c.dms[DmIdOf(r)].misused == base.dms[DmIdOf(r)].misused
    && OneHart(base.dms[DmIdOf(r)].core, c.dms[DmIdOf(r)].core, r.Hart())
  }

  ghost predicate OneHart(c: Core, c': Core, h: nat)
    requires h < HARTS
  {
    c' == WithHartAt(c.(resumes := c'.resumes), h, c'.harts[h])
  }

  lemma OneHartTwice(c: Core, c1: Core, c2: Core, h: nat)
    requires h < HARTS && OneHart(c, c1, h) && OneHart(c1, c2, h)
    ensures OneHart(c, c2, h)
  {
    assert c.harts[h := c1.harts[h]][h := c2.harts[h]] == c.harts[h := c2.harts[h]];
  }

  lemma SameElseTwice(base: Chip, mid: Chip, c: Chip, r: Rfpc)
    requires SameElse(base, mid, r) && SameElse(mid, c, r)
    ensures SameElse(base, c, r)
  {
    OneHartTwice(base.dms[DmIdOf(r)].core, mid.dms[DmIdOf(r)].core, c.dms[DmIdOf(r)].core, r.Hart());
  }

  lemma SameElseAtFirst(c: Chip, r: Rfpc)
    requires DmIdOf(r) in c.dms && r.Hart() < HARTS
    ensures SameElse(c, c, r)
  {
    Unchanged(c.dms[DmIdOf(r)].core, r.Hart());
    assert c.dms[DmIdOf(r) := c.dms[DmIdOf(r)]] == c.dms;
  }

  /** The driver panics for nothing but a command in flight, or a hart that has not come back, when the
      clock runs out, and even then it has kept to its own hart and to the rules. */
  ghost predicate OnlyWaits<T>(bar: ExpansionBar, r: Rfpc, base: Chip, o: Outcome<T>)
    reads bar
  {
    o.Panic? && Roomy(bar) ==> o.why == Timeout && SameElse(base, bar.chip, r) && Waiting(bar, r)
  }

  ghost predicate Waiting(bar: ExpansionBar, r: Rfpc)
    requires r.Hart() < HARTS && DmIdOf(r) in bar.chip.dms
    reads bar
  {
    DmOf(bar, r).pending.Busy? || HartOf(bar, r).run.Running?
  }

  /** Polls dmstatus until the selected hart is halted. */
  method AwaitHalt(bar: ExpansionBar, r: Rfpc, ghost base: Chip) returns (o: Outcome<()>)
    requires Attached(bar, r) && SameElse(base, bar.chip, r) && DmOf(bar, r).hartsel == r.Hart()
    modifies bar
    ensures OnlyWaits(bar, r, base, o)
    ensures o.Ok? ==> Attached(bar, r) && SameElse(base, bar.chip, r) && HartOf(bar, r).run.Halted?
    ensures o.Ok? ==> DmOf(bar, r) == old(DmOf(bar, r)).(core := Stopped(old(DmOf(bar, r)).core, r.Hart()))
  {
    var budget: nat :| 1 <= budget;                // polls until the clock runs out
    for polls := 0 to budget
      invariant Attached(bar, r) && SameElse(base, bar.chip, r)
      invariant DmOf(bar, r) == old(DmOf(bar, r)).(core := DmOf(bar, r).core)
      invariant polls > 0 ==> HartOf(bar, r).run.Running?
      invariant Stopped(DmOf(bar, r).core, r.Hart()) == Stopped(old(DmOf(bar, r)).core, r.Hart())
    {
      ghost var core := DmOf(bar, r).core;
      Polled(DmOf(bar, r));
      var dmstatus :- ReadDm(bar, r, DMSTATUS, base);
      OneHartTwice(base.dms[DmIdOf(r)].core, core, DmOf(bar, r).core, r.Hart());
      if Has(dmstatus, 0x200) {
        return Ok(());
      }
    }
    return Panic(Timeout);
  }

  // ---------------------------------------------------------------------- operations

  /** A halt, whatever state hart and module are in. */
  function HaltSteps(dm: Dm, h: nat): Dm
    requires h < HARTS
  {
    dm.(hartsel := h, core := Stopped(dm.core, h))
  }

  method RfpcDbgHalt(bar: ExpansionBar, r: Rfpc) returns (o: Outcome<()>)
    requires Attached(bar, r) && DmOf(bar, r).pending.Idle? && r.Hart() < HARTS
    modifies bar
    ensures OnlyWaits(bar, r, old(bar.chip), o)
    ensures o.Ok? ==> Attached(bar, r) && SameElse(old(bar.chip), bar.chip, r) && HartOf(bar, r).run.Halted?
    ensures o.Ok? ==> DmOf(bar, r) == HaltSteps(old(DmOf(bar, r)), r.Hart())
  {
    ghost var base, dm := bar.chip, DmOf(bar, r);
    SameElseAtFirst(base, r);
    HaltRequested(dm, r.Hart());
    var _ :- WriteDm(bar, r, DMCONTROL, DmControl(r.Hart(), 0x8000_0000), base);
    o := AwaitHalt(bar, r, base);
  }

  method RfpcDbgResume(bar: ExpansionBar, r: Rfpc) returns (o: Outcome<()>)
    requires Ready(bar, r)
    modifies bar
    ensures o.Panic? && Roomy(bar) ==>
      o.why == Timeout && SameElse(old(bar.chip), bar.chip, r) && HartOf(bar, r).run.Halted?
    ensures o.Ok? ==> Attached(bar, r) && SameElse(old(bar.chip), bar.chip, r) && HartOf(bar, r).run.Running?
    ensures o.Ok? ==> var core := old(DmOf(bar, r)).core;
      && Quiet(DmOf(bar, r)) && DmOf(bar, r).hartsel == r.Hart()
      && DmOf(bar, r).core == WithRun(core.(resumes := core.resumes + 1), r.Hart(), HartOf(bar, r).run)
  {
    ghost var base, dm := bar.chip, DmOf(bar, r);
    Resumes(dm, r.Hart());
    var _ :- WriteDm(bar, r, DMCONTROL, DmControl(r.Hart(), 0x4000_0000), base);
    ghost var dm1 := DmOf(bar, r);
    assert SameElse(base, bar.chip, r);
    var budget: nat :| 1 <= budget;                // polls until the clock runs out
    for polls := 0 to budget
      invariant Attached(bar, r) && SameElse(base, bar.chip, r)
      invariant polls == 0 ==> DmOf(bar, r) == dm1
      invariant polls > 0 ==> DmOf(bar, r).hartsel == r.Hart() && HartOf(bar, r).run.Halted?
    {
      ghost var core := DmOf(bar, r).core;
      Polled(DmOf(bar, r));
      var dmstatus :- ReadDm(bar, r, DMSTATUS, base);
      OneHartTwice(base.dms[DmIdOf(r)].core, core, DmOf(bar, r).core, r.Hart());
      if Has(dmstatus, 0x800) {
        WithRunTwice(dm.core.(resumes := dm.core.resumes + 1), r.Hart(), dm1.core.harts[r.Hart()].run,
                     HartOf(bar, r).run);
        return Ok(());
      }
    }
    return Panic(Timeout);
  }

  /** The harts after a resume request for hart h, once it is halted: a running hart takes no notice. */
  function Back(c: Core, h: nat): Core
    requires h < HARTS
  {
    if c.harts[h].run.Halted? then Ran(c, h) else Stopped(c, h)
  }

  /** Resumes the hart and polls until it has halted again. */
  method RunOnce(bar: ExpansionBar, r: Rfpc, ghost base: Chip) returns (o: Outcome<()>)
    requires Attached(bar, r) && SameElse(base, bar.chip, r) && DmOf(bar, r).pending.Idle?
    modifies bar
    ensures OnlyWaits(bar, r, base, o)
    ensures o.Ok? ==> Attached(bar, r) && SameElse(base, bar.chip, r) && HartOf(bar, r).run.Halted?
    ensures o.Ok? ==> var dm := old(DmOf(bar, r));
      DmOf(bar, r) == dm.(hartsel := r.Hart(), core := Back(dm.core, r.Hart()))
  {
    ghost var dm := DmOf(bar, r);
    if dm.core.harts[r.Hart()].run.Halted? { Resumes(dm, r.Hart()); } else { ResumeIgnored(dm, r.Hart()); }
    var _ :- WriteDm(bar, r, DMCONTROL, DmControl(r.Hart(), 0x4000_0000), base);
    OneHartTwice(base.dms[DmIdOf(r)].core, dm.core, DmOf(bar, r).core, r.Hart());
    if dm.core.harts[r.Hart()].run.Halted? { RanAfterResume(dm.core, DmOf(bar, r).core, r.Hart()); }
    o := AwaitHalt(bar, r, base);
  }

  lemma ResumeIgnored(dm: Dm, h: nat)
    requires dm.pending.Idle? && h < HARTS && dm.core.harts[h].run.Running?
    ensures DmWrite(dm, DMCONTROL, DmControl(h, RESUMEREQ)) == dm.(hartsel := h)
    ensures OneHart(dm.core, dm.core, h)
  {
    ControlBits(h, RESUMEREQ);
    Unchanged(dm.core, h);
  }

  /** Single step and continue, whatever state hart and module are in: the module afterwards, and whether
      the halt cause was the accepted one. */
  function GoSteps(go: Go, dm: Dm, h: nat): (r: (Dm, bool))
    requires dm.pending.Idle? && h < HARTS
    ensures r.0.pending.Idle? && r.0.misused == dm.misused
  {
    var (d1, dcsr) := ReadSteps(dm, h, DCSR);
    var d2 := WriteSteps(d1, h, DCSR, go.Arm(dcsr));
    var (d3, dcsr') := ReadSteps(d2.(hartsel := h, core := Back(d2.core, h)), h, DCSR);
    if HaltCause(dcsr') != go.Cause() then (d3, false) else (WriteSteps(d3, h, DCSR, go.Disarm(dcsr')), true)
  }

  lemma AlongIsSameElse(bar: ExpansionBar, r: Rfpc, base: Chip)
    requires Along(bar, r, base)
    ensures SameElse(base, bar.chip, r)
  {
  }

  /** The core has been armed by way of x11: nothing else of hart h has changed, and no other hart. */
  ghost predicate ArmedFrom(go: Go, c: Core, armed: Core, h: nat)
    requires h < HARTS
  {
    var hart, hart' := c.harts[h], armed.harts[h];
    && armed == WithHartAt(c, h, hart') && BitsArmed(go, hart.regs[0x7b0], hart'.regs[0x7b0])
    && hart' == hart.(regs := hart.regs[0x100B := hart'.regs[0x7b0]][0x7b0 := hart'.regs[0x7b0]])
  }

  /** On a hart that is ready the first two steps arm it. */
  lemma ArmingOfReady(go: Go, dm: Dm, h: nat)
    requires Quiet(dm) && h < HARTS && dm.core.harts[h].run.Halted? && DCSR !in dm.core.env.traps
    ensures var (d1, dcsr) := ReadSteps(dm, h, DCSR);
      ArmedFrom(go, dm.core, WriteSteps(d1, h, DCSR, go.Arm(dcsr)).core, h)
  {
    hide ReadSteps, WriteSteps, BitsArmed;
    var (d1, dcsr) := ReadSteps(dm, h, DCSR);
    ReadOfReady(dm, h, DCSR);
    Unchanged(dm.core, h);
    WriteOfReady(d1, h, DCSR, go.Arm(dcsr));
    ArmSetsBits(go, dcsr);
  }

  /** Arms dcsr, resumes, and waits for the hart to come back; `armed` is the core when it was resumed. */
  method ArmAndRun(bar: ExpansionBar, r: Rfpc, go: Go, ghost base: Chip) returns (o: Outcome<()>, ghost armed: Core)
    requires AtRest(bar, r, base)
    modifies bar
    ensures OnlyWaits(bar, r, base, o)
    ensures o.Ok? ==> Attached(bar, r) && SameElse(base, bar.chip, r) && HartOf(bar, r).run.Halted?
    ensures o.Ok? ==> var dm, h := old(DmOf(bar, r)), r.Hart(); var (d1, dcsr) := ReadSteps(dm, h, DCSR);
      var d2 := WriteSteps(d1, h, DCSR, go.Arm(dcsr));
      armed == d2.core && DmOf(bar, r) == d2.(hartsel := h, core := Back(armed, h))
    ensures o.Ok? && old(Ready(bar, r)) && DCSR !in old(DmOf(bar, r)).core.env.traps ==>
      ArmedFrom(go, old(DmOf(bar, r)).core, armed, r.Hart()) && DmOf(bar, r).core == Ran(armed, r.Hart())
  {
    hide ReadSteps, WriteSteps;
    ghost var dm := DmOf(bar, r);
    armed := dm.core;
    if Ready(bar, r) && DCSR !in dm.core.env.traps { ArmingOfReady(go, dm, r.Hart()); }
    var dcsr := ReadRegister(bar, r, DCSR, base);
    if dcsr.Panic? { return Panic(dcsr.why), armed; }
    o := WriteRegister(bar, r, DCSR, go.Arm(dcsr.value), base);
    if o.Panic? { return; }
    AlongIsSameElse(bar, r, base);
    armed := DmOf(bar, r).core;
    o := RunOnce(bar, r, base);
  }

  /** The common body of single step and continue. */
  method GoAnyhow(bar: ExpansionBar, r: Rfpc, go: Go, ghost base: Chip) returns (o: Outcome<()>)
    requires AtRest(bar, r, base)
    modifies bar
    ensures OnlyWaits(bar, r, base, o) || (o == Panic(go.Refusal()) && !GoSteps(go, old(DmOf(bar, r)), r.Hart()).1)
    ensures o.Ok? ==> Attached(bar, r) && SameElse(base, bar.chip, r)
    ensures o.Ok? ==> (DmOf(bar, r), true) == GoSteps(go, old(DmOf(bar, r)), r.Hart())
  {
    hide ReadSteps, WriteSteps, Back;
    var ran, _ := ArmAndRun(bar, r, go, base);
    if ran.Panic? { return ran; }
    ghost var mid := bar.chip;
    AlongAtFirst(bar, r);
    var dcsr := ReadRegister(bar, r, DCSR, mid);
    if dcsr.Panic? {
      if Roomy(bar) { SameElseTwice(base, mid, bar.chip, r); }
      return Panic(dcsr.why);
    }
    if HaltCause(dcsr.value) != go.Cause() {
      return Panic(go.Refusal());
    }
    o := WriteRegister(bar, r, DCSR, go.Disarm(dcsr.value), mid);
    if o.Ok? || Roomy(bar) { SameElseTwice(base, mid, bar.chip, r); }
  }

  /** On a hart that is ready these are the steps of Go1. */
  lemma GoOfReady(go: Go, dm: Dm, h: nat)
    requires Quiet(dm) && h < HARTS && dm.core.harts[h].run.Halted? && DCSR !in dm.core.env.traps
    ensures var (d, ok) := GoSteps(go, dm, h);
      && (ok <==> Go1(go, dm.core, h).Some?)
      && (ok ==> Quiet(d) && d.hartsel == h && d.core == Go1(go, dm.core, h).value && d.core.harts[h].run.Halted?)
  {
    hide ReadSteps, WriteSteps;
    var (d1, dcsr) := ReadSteps(dm, h, DCSR);
    ReadOfReady(dm, h, DCSR);
    Unchanged(dm.core, h);
    var d2 := WriteSteps(d1, h, DCSR, go.Arm(dcsr));
    WriteOfReady(d1, h, DCSR, go.Arm(dcsr));
    assert d2.core == Armed(go, dm.core, h);
    var back := d2.(hartsel := h, core := Back(d2.core, h));
    var (d3, dcsr') := ReadSteps(back, h, DCSR);
    ReadOfReady(back, h, DCSR);
    Unchanged(back.core, h);
    if HaltCause(dcsr') == go.Cause() { WriteOfReady(d3, h, DCSR, go.Disarm(dcsr')); }
  }

  method RfpcDbgSingleStep(bar: ExpansionBar, r: Rfpc) returns (o: Outcome<()>)
    requires Ready(bar, r) && DCSR !in DmOf(bar, r).core.env.traps
    modifies bar
    ensures OnlyWaits(bar, r, old(bar.chip), o)
         || (o == Panic(NotStepped) && Go1(Step, old(DmOf(bar, r)).core, r.Hart()).None?)
    ensures match Go1(Step, old(DmOf(bar, r)).core, r.Hart())
      case Some(core) => o.Ok? ==> Left(bar, r, core) && HartOf(bar, r).run.Halted?
      case None => o.Panic?
  {
    hide GoSteps, Go1;
    GoOfReady(Step, DmOf(bar, r), r.Hart());
    AlongAtFirst(bar, r);
    o := GoAnyhow(bar, r, Step, bar.chip);
  }

  method RfpcDbgContinue(bar: ExpansionBar, r: Rfpc) returns (o: Outcome<()>)
    requires Ready(bar, r) && DCSR !in DmOf(bar, r).core.env.traps
    modifies bar
    ensures OnlyWaits(bar, r, old(bar.chip), o)
         || (o == Panic(NoBreakpointHit) && Go1(Continue, old(DmOf(bar, r)).core, r.Hart()).None?)
    ensures match Go1(Continue, old(DmOf(bar, r)).core, r.Hart())
      case Some(core) => o.Ok? ==> Left(bar, r, core) && HartOf(bar, r).run.Halted?
      case None => o.Panic?
  {
    hide GoSteps, Go1;
    GoOfReady(Continue, DmOf(bar, r), r.Hart());
    AlongAtFirst(bar, r);
    o := GoAnyhow(bar, r, Continue, bar.chip);
  }

  /** The module is quiet, with the core's hart selected, and its harts are as given. */
  twostate predicate Left(bar: ExpansionBar, r: Rfpc, core: Core)
    reads bar
  {
    && Attached(bar, r) && OnlyDm(old(bar.chip), bar.chip, r)
    && Quiet(DmOf(bar, r)) && DmOf(bar, r).hartsel == r.Hart() && DmOf(bar, r).core == core
  }

  // -------------------------------------------------- what stepping leaves behind

  /** How the firmware left the hart when it halted. */
  function HaltedHart(go: Go, c: Core, h: nat): Hart
    requires h < HARTS
  {
    Ran(Armed(go, c, h), h).harts[h]
  }

  /** One resume, the accepted cause, the arming bits clear and every other low bit of dcsr as the
      halt left it; beyond that only a1 differs from what the firmware left, and no other hart is
      touched. */
  lemma GoLeaves(go: Go, c: Core, h: nat)
    requires h < HARTS && Go1(go, c, h).Some?
    ensures var c', left := Go1(go, c, h).value, HaltedHart(go, c, h);
      var d, d' := left.regs[0x7b0] % 0x1_0000_0000, c'.harts[h].regs[0x7b0];
      && c'.resumes == c.resumes + 1 && c'.harts[h].run.Halted? && c'.harts[h].mem == left.mem
      && c'.harts[h].regs == left.regs[0x100B := d'][0x7b0 := d']
      && d' / 0x40 % 8 == (if go == Step then 4 else 1)
      && (go == Step ==> !Has(d', 4) && d' % 4 == d % 4 && d' / 8 == d / 8)
      && (go == Continue ==> !Has(d', 0x8000) && !Has(d', 0x1000) && d' % 0x1000 == d % 0x1000
                             && d' / 0x2000 % 4 == d / 0x2000 % 4 && d' / 0x1_0000 == d / 0x1_0000)
      && forall k :: 0 <= k < HARTS && k != h ==> c'.harts[k] == c.harts[k]
  {
    var left := HaltedHart(go, c, h);
    Disarmed(go, left.regs[DCSR]);
    assert go.Disarm(left.regs[DCSR]) < 0x1_0000_0000;
    CauseOf(go.Disarm(left.regs[DCSR]));
  }

  /** Disarming keeps the halt cause and every bit of the low half but the arming bits. */
  lemma Disarmed(go: Go, v: U64)
    ensures var d, d' := v % 0x1_0000_0000, go.Disarm(v);
      && HaltCause(d') == HaltCause(v)
      && (go == Step ==> !Has(d', 4) && d' % 4 == d % 4 && d' / 8 == d / 8)
      && (go == Continue ==> !Has(d', 0x8000) && !Has(d', 0x1000) && d' % 0x1000 == d % 0x1000
                             && d' / 0x2000 % 4 == d / 0x2000 % 4 && d' / 0x1_0000 == d / 0x1_0000)
  {
    var d, d' := v % 0x1_0000_0000, go.Disarm(v);
    assert d' <= d;
    if go == Step {
      StepCleared(d);
      assert d' / 0x40 == d / 0x40;
    } else {
      ContinueCleared(d);
    }
    CauseOf(d);
    CauseOf(d');
  }

  lemma CauseOf(d: U64)
    requires d < 0x1_0000_0000
    ensures HaltCause(d) == d / 0x40 % 8
  {
  }

  lemma ContinueCleared(d: nat)
    ensures var r := ClearBit(ClearBit(d, 0x8000), 0x1000);
      && !Has(r, 0x8000) && !Has(r, 0x1000) && r % 0x1000 == d % 0x1000
      && r / 0x2000 % 4 == d / 0x2000 % 4 && r / 0x1_0000 == d / 0x1_0000 && r / 0x40 % 8 == d / 0x40 % 8
  {
    var hi, b15, m, b12, lo := d / 0x1_0000, d / 0x8000 % 2, d / 0x2000 % 4, d / 0x1000 % 2, d % 0x1000;
    Split(d);
    Fields(hi, b15, m, b12, lo);
    Fields(hi, 0, m, b12, lo);
    Fields(hi, 0, m, 0, lo);
    var e := hi * 0x1_0000 + 0 * 0x8000 + m * 0x2000 + b12 * 0x1000 + lo;
    var r := hi * 0x1_0000 + 0 * 0x8000 + m * 0x2000 + 0 * 0x1000 + lo;
    assert ClearBit(d, 0x8000) == e;
    assert ClearBit(e, 0x1000) == r;
  }

  lemma StepCleared(d: nat)
    ensures var r := ClearBit(d, 4);
      !Has(r, 4) && r % 4 == d % 4 && r / 8 == d / 8 && r / 0x40 == d / 0x40
  {
    var r, hi, b, lo := ClearBit(d, 4), d / 8, d / 4 % 2, d % 4;
    assert d / 8 == d / 4 / 2 && d == hi * 8 + b * 4 + lo && r == hi * 8 + lo;
    QuotientIs(r, 8, hi, lo);
    QuotientIs(r, 4, hi * 2, lo);
    QuotientIs(hi * 2, 2, hi, 0);
    assert r / 0x40 == r / 8 / 8 && d / 0x40 == d / 8 / 8;
  }

  lemma Split(d: nat)
    ensures d == d / 0x1_0000 * 0x1_0000 + d / 0x8000 % 2 * 0x8000 + d / 0x2000 % 4 * 0x2000
                 + d / 0x1000 % 2 * 0x1000 + d % 0x1000
  {
    assert d / 0x2000 == d / 0x1000 / 2 && d / 0x8000 == d / 0x2000 / 4 && d / 0x1_0000 == d / 0x8000 / 2;
  }

  lemma Fields(hi: nat, b15: nat, m: nat, b12: nat, lo: nat)
    requires b15 < 2 && m < 4 && b12 < 2 && lo < 0x1000
    ensures var d := hi * 0x1_0000 + b15 * 0x8000 + m * 0x2000 + b12 * 0x1000 + lo;
      && d / 0x1_0000 == hi && d / 0x8000 % 2 == b15 && d / 0x2000 % 4 == m && d / 0x1000 % 2 == b12
      && d % 0x1000 == lo && d / 0x40 % 8 == lo / 0x40 % 8
  {
    var d := hi * 0x1_0000 + b15 * 0x8000 + m * 0x2000 + b12 * 0x1000 + lo;
    var d12 := hi * 16 + b15 * 8 + m * 2 + b12;
    QuotientIs(d, 0x1000, d12, lo);
    QuotientIs(d12, 2, hi * 8 + b15 * 4 + m, b12);
    QuotientIs(d, 0x2000, hi * 8 + b15 * 4 + m, b12 * 0x1000 + lo);
    QuotientIs(hi * 8 + b15 * 4 + m, 4, hi * 2 + b15, m);
    QuotientIs(d, 0x8000, hi * 2 + b15, m * 0x2000 + b12 * 0x1000 + lo);
    QuotientIs(hi * 2 + b15, 2, hi, b15);
    QuotientIs(d, 0x1_0000, hi, b15 * 0x8000 + m * 0x2000 + b12 * 0x1000 + lo);
    QuotientIs(d, 0x40, d12 * 0x40 + lo / 0x40, lo % 0x40);
    QuotientIs(d12 * 0x40 + lo / 0x40, 8, d12 * 8 + lo / 0x40 / 8, lo / 0x40 % 8);
  }

  /** What the firmware sees when it is resumed. */
  function Seen(go: Go, c: Core, h: nat): Hart
    requires h < HARTS
  {
    Armed(go, c, h).harts[h].(run := Halted)
  }

  /** The firmware starts from its own state, except that in dcsr (register 0x7b0) the bits that make the hart
      come back are set, and that x11 already holds dcsr's new value. */
  lemma GoStarts(go: Go, c: Core, h: nat)
    requires h < HARTS
    ensures HaltedHart(go, c, h) == c.env.firmware(h, Seen(go, c, h), c.resumes + 1).(run := Halted)
    ensures var hart, seen := c.harts[h], Seen(go, c, h);
      && BitsArmed(go, hart.regs[0x7b0], seen.regs[0x7b0]) && seen.regs[0x100B] == seen.regs[0x7b0]
      && seen.regs == hart.regs[0x100B := seen.regs[0x7b0]][0x7b0 := seen.regs[0x7b0]]
      && seen.mem == hart.mem && seen.run == Halted
  {
    ArmSetsBits(go, c.harts[h].regs[DCSR]);
  }

  /** The step or continue goes through exactly when the cause in bits 8:6 of dcsr, as the firmware left it, is
      4 (a step) or 1 (ebreak). */
  lemma GoesThroughIff(go: Go, c: Core, h: nat)
    requires h < HARTS
    ensures Go1(go, c, h).Some? <==>
      HaltedHart(go, c, h).regs[0x7b0] % 0x1_0000_0000 / 0x40 % 8 == if go == Step then 4 else 1
  {
  }
}
