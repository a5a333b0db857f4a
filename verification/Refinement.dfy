/** As long as no debug module has an error and the harts asked for are halted, the scratch registers of the
    modules do not show: the server does what Handlers says. */
module Refinement {
  import opened Numbers
  import opened Hex
  import opened DebugModule
  import opened RfpcCores
  import opened Chip
  import opened Buses
  import opened Commands
  import opened Debugger
  import opened RunControl
  import opened Framing
  import opened Dispatch
  import opened Handlers
  import opened Stubs
  import opened Session
  import opened Serving

  /** No debug module has an error. */
  ghost predicate Tidy(s: Stub) { s.Valid() && forall id :: id in s.chip.dms ==> Quiet(s.chip.dms[id]) }

  /** The server without the scratch registers of the debug modules. */
  function Seen(s: Stub): Server
  {
    Server(View(s.chip), s.breakpoints, s.rfpc, s.disableAck, s.checks)
  }

  /** The packet does what it is to do. */
  ghost predicate Refines(r: Result, x: Reaction)
  {
    && (r.Done? ==> x.Replied? && Tidy(x.stub) && Seen(x.stub) == r.server && x.reply == r.reply)
    && (r.Dies? ==> x.Died?)
  }

  lemma TidyWithCore(s: Stub, d: Dm)
    requires Tidy(s) && Quiet(d)
    ensures Tidy(s.WithModule(d)) && Seen(s.WithModule(d)) == Seen(s).WithCore(d.core)
  {
    assert View(PutDm(s.chip, s.rfpc, d)).cores == View(s.chip).cores[DmIdOf(s.rfpc) := d.core];
  }

  lemma TidyWithHart(s: Stub, d: Dm, hart: Hart)
    requires Tidy(s) && Reached(s.Module(), d, s.Index(), hart)
    ensures Tidy(s.WithModule(d)) && Seen(s.WithModule(d)) == Seen(s).WithHart(hart)
  {
    TidyWithCore(s, d);
  }

  lemma TidyWithTransaction(s: Stub, t: Txn)
    requires Tidy(s)
    ensures Tidy(s.WithTransaction(t)) && Seen(s.WithTransaction(t)) == WithTxn(Seen(s), t)
  {
  }

  // --------------------------------------------------------------------- registers

  lemma RefinesReadReg(s: Stub, packet: Bytes)
    requires Tidy(s)
    ensures Refines(ReadRegResult(Seen(s), packet), AnswerReadReg(s, packet))
  {
    hide ReadSteps;
    if packet != [] && ParseU64(packet[1..]).Some? && Seen(s).Halted() {
      var reg := RegisterAddr(ParseU64(packet[1..]).value);
      if reg.Some? {
        ReadOfReady(s.Module(), s.Index(), reg.value);
        TidyWithHart(s, ReadSteps(s.Module(), s.Index(), reg.value).0, Seen(s).Hart());
        SameHart(Seen(s));
      }
    }
  }

  /** The abstract register write by its parsed packet. */
  lemma WriteRegParsed(s: Server, packet: Bytes)
    requires s.Valid()
    ensures WriteRegResult(s, packet) ==
      match ParseRegWrite(packet)
      case None => Dies
      case Some((reg, v)) =>
        if !s.Halted() || (reg < X0 && s.Traps(reg)) then Stuck else Says(s.WithHart(Written(s.Hart(), reg, v)), "OK")
  {
    hide Written;
  }

  lemma RefinesWriteReg(s: Stub, packet: Bytes)
    requires Tidy(s)
    ensures Refines(WriteRegResult(Seen(s), packet), AnswerWriteReg(s, packet))
  {
    hide WriteSteps, Written, WriteRegResult, ParseRegWrite;
    WriteRegParsed(Seen(s), packet);
    match ParseRegWrite(packet)
    case None =>
    case Some((reg, v)) =>
      if Writable(s.Module(), s.Index(), reg) {
        WriteOfReady(s.Module(), s.Index(), reg, v);
        TidyWithHart(s, WriteSteps(s.Module(), s.Index(), reg, v), Written(Seen(s).Hart(), reg, v));
      }
  }

  /** Reads of a ready hart's registers leave all harts alone. */
  lemma {:induction false} RangeOfReady(dm: Dm, h: nat, lo: nat, hi: nat)
    requires Quiet(dm) && h < HARTS && dm.core.harts[h].run.Halted? && lo <= hi <= REGISTERS
    ensures var (d, text) := RangeSteps(dm, h, lo, hi);
      Quiet(d) && d.core == dm.core && text == HexRange(dm.core.harts[h].regs, lo, hi)
    decreases hi - lo
  {
    hide ReadSteps, HexSwapped;
    if lo != hi {
      RangeOfReady(dm, h, lo, hi - 1);
      ReadStepsGive(RangeSteps(dm, h, lo, hi - 1).0, h, hi - 1);
    }
  }

  /** The digits of several ranges. */
  function RangesText(regs: seq<U64>, rs: seq<(nat, nat)>): Bytes
    requires |regs| == REGISTERS && AreRanges(rs)
    decreases |regs|, |rs|
  {
    if rs == [] then []
    else
      var n := |rs| - 1;
      assert rs[n] in rs;
      RangesText(regs, rs[..n]) + HexRange(regs, rs[n].0, rs[n].1)
  }

  lemma {:induction false} RangesOfReady(dm: Dm, h: nat, rs: seq<(nat, nat)>)
    requires Quiet(dm) && h < HARTS && dm.core.harts[h].run.Halted? && AreRanges(rs)
    ensures var (d, text) := RangesSteps(dm, h, rs);
      Quiet(d) && d.core == dm.core && text == RangesText(dm.core.harts[h].regs, rs)
    decreases |rs|
  {
    hide RangeSteps, HexRange;
    if rs != [] {
      var n := |rs| - 1;
      assert rs[n] in rs;
      RangesOfReady(dm, h, rs[..n]);
      RangeOfReady(RangesSteps(dm, h, rs[..n]).0, h, rs[n].0, rs[n].1);
    }
  }

  lemma RangesSnoc(regs: seq<U64>, rs: seq<(nat, nat)>, r: (nat, nat))
    requires |regs| == REGISTERS && AreRanges(rs) && r.0 <= r.1 <= REGISTERS
    ensures AreRanges(rs + [r]) && RangesText(regs, rs + [r]) == RangesText(regs, rs) + HexRange(regs, r.0, r.1)
  {
    hide HexRange;
    assert (rs + [r])[..|rs|] == rs;
  }

  lemma FirstRanges(regs: seq<U64>)
    requires |regs| == REGISTERS
    ensures AreRanges(RANGES[..5]) && RangesText(regs, RANGES[..5]) == FirstRegisters(regs)
  {
    hide HexRange;
    RangesSnoc(regs, [], RANGES[0]);
    assert RANGES[..1] == [] + [RANGES[0]];
    RangesSnoc(regs, RANGES[..1], RANGES[1]);
    assert RANGES[..2] == RANGES[..1] + [RANGES[1]];
    RangesSnoc(regs, RANGES[..2], RANGES[2]);
    assert RANGES[..3] == RANGES[..2] + [RANGES[2]];
    RangesSnoc(regs, RANGES[..3], RANGES[3]);
    assert RANGES[..4] == RANGES[..3] + [RANGES[3]];
    RangesSnoc(regs, RANGES[..4], RANGES[4]);
    assert RANGES[..5] == RANGES[..4] + [RANGES[4]];
    var first := HexRange(regs, 0x1000, 0x1020);
    assert RangesText(regs, []) + first == first;
  }

  lemma OneRegister(regs: seq<U64>, r: nat)
    requires |regs| == REGISTERS && r < REGISTERS
    ensures HexRange(regs, r, r + 1) == HexSwapped(regs[r])
  {
    assert HexRange(regs, r, r) == [];
  }

  lemma AllRanges(regs: seq<U64>)
    requires |regs| == REGISTERS
    ensures RangesText(regs, RANGES) == AllRegisters(regs)
  {
    hide HexRange, FirstRegisters, HexSwapped;
    FirstRanges(regs);
    RangesSnoc(regs, RANGES[..5], RANGES[5]);
    assert RANGES[..6] == RANGES[..5] + [RANGES[5]];
    RangesSnoc(regs, RANGES[..6], RANGES[6]);
    assert RANGES[..7] == RANGES[..6] + [RANGES[6]];
    RangesSnoc(regs, RANGES[..7], RANGES[7]);
    assert RANGES[..8] == RANGES[..7] + [RANGES[7]];
    RangesSnoc(regs, RANGES[..8], RANGES[8]);
    assert RANGES == RANGES[..8] + [RANGES[8]];
    OneRegister(regs, 0xb00);
    OneRegister(regs, 0xb02);
  }

  lemma AreAllRanges()
    ensures AreRanges(RANGES)
  {
  }

  lemma RefinesReadGprs(s: Stub)
    requires Tidy(s)
    ensures Refines(ReadGprsResult(Seen(s)), AnswerReadGprs(s))
  {
    hide RangesSteps, RangesText, AllRegisters, AreRanges;
    AreAllRanges();
    if Seen(s).Halted() {
      RangesOfReady(s.Module(), s.Index(), RANGES);
      AllRanges(Seen(s).Hart().regs);
      TidyWithCore(s, RangesSteps(s.Module(), s.Index(), RANGES).0);
      SameHart(Seen(s));
    }
  }

  // ------------------------------------------------------------------------ memory

  /** A read of a ready hart's memory. */
  lemma MemoryReadOnce(s: Stub, m: nat, n: nat)
    requires Tidy(s) && Seen(s).Halted() && Fits(m, 8 * n)
    ensures var (d, words) := ReadMemorySteps(s.Module(), s.Index(), m, n);
      && Quiet(d) && Tidy(s.WithModule(d)) && Seen(s.WithModule(d)) == Seen(s)
      && BytesOfWords(words) == Peek(Seen(s).Hart().mem, m, 8 * n)
      && (n == 1 ==> words[0] == WordOf(Peek(Seen(s).Hart().mem, m, 8)))
  {
    hide ReadMemorySteps, Peek, BytesOfWords, WordOf;
    ReadMemoryOfReady(s.Module(), s.Index(), m, n);
    TidyWithHart(s, ReadMemorySteps(s.Module(), s.Index(), m, n).0, Seen(s).Hart());
    SameHart(Seen(s));
  }

  lemma RefinesMemoryRead(s: Stub, packet: Bytes)
    requires Tidy(s)
    ensures Refines(MemoryReadResult(Seen(s), packet), AnswerMemoryRead(s, packet))
  {
    hide SplitComma, ParsePair, ReadAt, BytesOfWords;
    var (address, length) := SplitComma(packet);
    if address != [] && ParsePair(address[1..], length).Some? {
      var (a, n) := ParsePair(address[1..], length).value;
      RefinesReadAt(s, a, n);
    }
  }

  /** What the abstract read answers once the packet is parsed. */
  function ReadAtResult(s: Server, a: U64, n: U64): Result
    requires s.Valid()
  {
    if IsCtm(a) then
      match WordCount(n, 4, s.checks)
      case None => Dies
      case Some(count) =>
        Done(WithTxn(s, CtmTxn(Bulk32, Masked(a), ReadOf(count))),
             Some(HexBytes(Take(BigEndianBytes(CtmWords(s.machine, count)), n))))
    else
      match WordCount(n, 8, s.checks)
      case None => Dies
      case Some(count) =>
        if !s.Halted() || !Fits(Masked(a), 8 * count) then Stuck
        else Done(s, Some(HexBytes(Take(Peek(s.Hart().mem, Masked(a), 8 * count), n))))
  }

  lemma RefinesReadAt(s: Stub, a: U64, n: U64)
    requires Tidy(s)
    ensures Refines(ReadAtResult(Seen(s), a, n), ReadAt(s, a, n))
  {
    hide ReadMemorySteps, HexBytes, BigEndianBytes, Peek, BytesOfWords;
    if IsCtm(a) {
      var count := WordCount(n, 4, s.checks);
      if count.Some? { TidyWithTransaction(s, CtmTxn(Bulk32, Masked(a), ReadOf(count.value))); }
    } else {
      var count := WordCount(n, 8, s.checks);
      if count.Some? && Seen(s).Halted() && Fits(Masked(a), 8 * count.value) {
        MemoryReadOnce(s, Masked(a), count.value);
      }
    }
  }

  /** A write to a ready hart's memory. */
  lemma MemoryWrittenOnce(s: Stub, m: nat, data: seq<U64>)
    requires Tidy(s) && Seen(s).Halted() && Fits(m, 8 * |data|)
    ensures var d, h := WriteMemorySteps(s.Module(), s.Index(), m, data), Seen(s).Hart();
      && Quiet(d) && Tidy(s.WithModule(d))
      && Seen(s.WithModule(d)) == Seen(s).WithHart(h.(mem := Poke(h.mem, m, BytesOfWords(data))))
  {
    hide WriteMemorySteps, Poke, BytesOfWords;
    var h := Seen(s).Hart();
    WriteMemoryOfReady(s.Module(), s.Index(), m, data);
    TidyWithHart(s, WriteMemorySteps(s.Module(), s.Index(), m, data), h.(mem := Poke(h.mem, m, BytesOfWords(data))));
  }

  lemma RefinesStoreAt(s: Stub, a: U64, data: Bytes)
    requires Tidy(s)
    ensures Refines(StoreResult(Seen(s), a, data), StoreAt(s, a, data))
  {
    hide WriteMemorySteps, Poke, BytesOfWords, WordsOfBytes, Words32OfBytes;
    if IsCtm(a) {
      if |data| % 4 == 0 {
        TidyWithTransaction(s, CtmTxn(Bulk32, Masked(a), WriteOf(Words32OfBytes(data))));
      }
    } else if |data| % 8 == 0 && Seen(s).Halted() && Fits(Masked(a), |data|) {
      CastRoundTrip(data);
      MemoryWrittenOnce(s, Masked(a), WordsOfBytes(data));
    }
  }

  lemma RefinesMemoryWrite(s: Stub, packet: Bytes)
    requires Tidy(s)
    ensures Refines(MemoryWriteResult(Seen(s), packet), AnswerMemoryWrite(s, packet))
  {
    hide ParseWrite, StoreResult, StoreAt, Padded;
    if ParseWrite(packet).Some? {
      var (a, n, data) := ParseWrite(packet).value;
      RefinesStoreAt(s, a, Padded(data, n));
    }
  }

  // -------------------------------------------------------------------- breakpoints

  lemma TidyWithTable(s: Stub, t: map<U64, U64>)
    requires Tidy(s)
    ensures Tidy(s.(breakpoints := t)) && Seen(s.(breakpoints := t)) == Seen(s).(breakpoints := t)
  {
  }

  lemma OneWordAgain(word: U64)
    ensures BytesOfWords([word]) == LE(word, 8)
  {
    assert [word][..0] == [];
  }

  lemma RefinesSetAt(s: Stub, a: U64)
    requires Tidy(s)
    ensures Refines(SetResult(Seen(s), a), SetAt(s, a))
  {
    hide ReadMemorySteps, WriteMemorySteps, Poke, Peek, BytesOfWords, WordOf, LE;
    var m := Masked(a);
    if IsCtm(a) {
      var read, saved := s.WithTransaction(CtmTxn(Atomic32, m, ReadOf(1))), CtmWords(View(s.chip), 1)[0];
      TidyWithTransaction(s, CtmTxn(Atomic32, m, ReadOf(1)));
      TidyWithTable(read, s.breakpoints[a := saved]);
      TidyWithTransaction(read.(breakpoints := s.breakpoints[a := saved]),
                          CtmTxn(Atomic32, m, WriteOf([0x0010_0073])));
    } else if Seen(s).Halted() {
      SetOnHart(s, a);
    }
  }

  lemma SetOnHart(s: Stub, a: U64)
    requires Tidy(s) && !IsCtm(a) && Seen(s).Halted()
    ensures Refines(SetResult(Seen(s), a), SetAt(s, a))
  {
    hide ReadMemorySteps, WriteMemorySteps, Poke, Peek, BytesOfWords, WordOf, LE;
    var m := Masked(a);
    var (d, words) := ReadMemorySteps(s.Module(), s.Index(), m, 1);
    MemoryReadOnce(s, m, 1);
    var s1, patched := s.WithModule(d), [WithEbreak(words[0])];
    TidyWithTable(s1, s.breakpoints[a := words[0]]);
    var s2 := s1.(breakpoints := s.breakpoints[a := words[0]]);
    MemoryWrittenOnce(s2, m, patched);
    OneWordAgain(WithEbreak(words[0]));
    var d' := WriteMemorySteps(d, s.Index(), m, patched);
    assert s.(breakpoints := s.breakpoints[a := words[0]]).WithModule(d') == s2.WithModule(d') by {
      assert s.chip.dms[DmIdOf(s.rfpc) := d][DmIdOf(s.rfpc) := d'] == s.chip.dms[DmIdOf(s.rfpc) := d'];
    }
  }

  lemma RefinesClearAt(s: Stub, a: U64)
    requires Tidy(s)
    ensures Refines(ClearResult(Seen(s), a), ClearAt(s, a))
  {
    hide WriteMemorySteps, Poke, BytesOfWords, LE;
    if a in s.breakpoints {
      var s1, saved := s.(breakpoints := s.breakpoints - {a}), s.breakpoints[a];
      TidyWithTable(s, s.breakpoints - {a});
      if IsCtm(a) {
        TidyWithTransaction(s1, CtmTxn(Atomic32, Masked(a), WriteOf([Lo(saved)])));
      } else if Seen(s).Halted() {
        MemoryWrittenOnce(s1, Masked(a), [saved]);
        OneWordAgain(saved);
      }
    }
  }

  // -------------------------------------------------------------------- run control

  lemma RefinesGo(s: Stub, go: Go)
    requires Tidy(s)
    ensures Refines(GoResult(Seen(s), go), AnswerGo(s, go))
  {
    hide GoSteps, Go1;
    if Seen(s).Halted() && !Seen(s).Traps(DCSR) {
      GoOfReady(go, s.Module(), s.Index());
      var (d, ok) := GoSteps(go, s.Module(), s.Index());
      if ok { TidyWithCore(s, d); }
    }
  }

  lemma RefinesGoFrom(s: Stub, go: Go, packet: Bytes)
    requires Tidy(s)
    ensures Refines(GoFromResult(Seen(s), go, packet), AnswerGoFrom(s, go, packet))
  {
    hide WriteSteps, Written, GoResult, AnswerGo, ParseU64;
    if |packet| <= 1 {
      RefinesGo(s, go);
    } else if ParseU64(packet[1..]).Some? && Seen(s).Halted() && !Seen(s).Traps(DPC) {
      var a := ParseU64(packet[1..]).value;
      var d := WriteSteps(s.Module(), s.Index(), DPC, a);
      WriteOfReady(s.Module(), s.Index(), DPC, a);
      TidyWithHart(s, d, Written(Seen(s).Hart(), DPC, a));
      RefinesGo(s.WithModule(d), go);
    }
  }

  lemma RefinesAct(s: Stub, a: Action)
    requires Tidy(s) && a.thread < 32
    ensures Refines(ActResult(Seen(s), a), AnswerAct(s, a))
  {
    hide GoResult, AnswerGo;
    ThreadsAreHarts(a.thread, ThreadCore(a.thread));
    var s1 := OnThread(s, a.thread);
    RefinesGo(s1, Continue);
    RefinesGo(s1, Step);
    TidyWithCore(s1, HaltSteps(s1.Module(), s1.Index()));
  }

  lemma {:induction false} RefinesActions(s: Stub, items: seq<Bytes>)
    requires Tidy(s)
    ensures Refines(ActionsResult(Seen(s), items), AnswerActions(s, items))
    decreases |items|
  {
    hide ActResult, AnswerAct, ParseAction;
    if items != [] && ParseAction(items[0]).Some? {
      var a := ParseAction(items[0]).value;
      RefinesAct(s, a);
      ActKeepsValid(Seen(s), a);
      if ActResult(Seen(s), a).Done? { RefinesActions(AnswerAct(s, a).stub, items[1..]); }
    }
  }

  // ------------------------------------------------------------------------ packets

  lemma RefinesBreakpoints(s: Stub, packet: Bytes)
    requires Tidy(s)
    ensures Refines(SetBreakpointResult(Seen(s), packet), AnswerSetBreakpoint(s, packet))
    ensures Refines(ClearBreakpointResult(Seen(s), packet), AnswerClearBreakpoint(s, packet))
  {
    hide BreakpointAddress, SetResult, ClearResult, SetAt, ClearAt;
    if BreakpointAddress(packet).Some? {
      RefinesSetAt(s, BreakpointAddress(packet).value);
      RefinesClearAt(s, BreakpointAddress(packet).value);
    }
  }

  lemma RefinesHandler(s: Stub, h: Handler, packet: Bytes)
    requires Tidy(s)
    ensures Refines(RunHandler(Seen(s), h, packet), AnswerHandler(s, h, packet))
  {
    hide ReadRegResult, AnswerReadReg, WriteRegResult, AnswerWriteReg, ReadGprsResult, AnswerReadGprs, GoFromResult,
         AnswerGoFrom, MemoryReadResult, AnswerMemoryRead, MemoryWriteResult, AnswerMemoryWrite, SetBreakpointResult,
         AnswerSetBreakpoint, ClearBreakpointResult, AnswerClearBreakpoint, GoResult, AnswerGo, ActionsResult,
         AnswerActions;
    match h {
      case ReadGprs => RefinesReadGprs(s);
      case ReadReg => RefinesReadReg(s, packet);
      case WriteReg => RefinesWriteReg(s, packet);
      case MemoryRead => RefinesMemoryRead(s, packet);
      case MemoryWrite => RefinesMemoryWrite(s, packet);
      case SetBreakpoint | ClearBreakpoint => RefinesBreakpoints(s, packet);
      case SingleStep => RefinesGoFrom(s, Step, packet);
      case SingleStepSig => RefinesGo(s, Step);
      case Cont => RefinesGoFrom(s, Continue, packet);
      case ContWithSig => RefinesGo(s, Continue);
      case MulticoreActions => if |packet| >= 6 { RefinesActions(s, SplitOn(packet[6..], Code(';'))); }
      case _ =>
    }
  }

  /** While no module has an error, every packet has the effect and the answer that Handlers gives it, unless
      that says nothing of it. */
  lemma RefinesPacket(s: Stub, keys: seq<Key>, packet: Bytes)
    requires Tidy(s)
    ensures Refines(Handle(Seen(s), keys, packet), AnswerPacket(s, keys, packet))
  {
    hide RunHandler, AnswerHandler;
    match Lookup(keys, Command(packet)) {
      case Run(h) => RefinesHandler(s, h, packet);
      case _ =>
    }
  }

  // ---------------------------------------------------------------------- connections

  lemma RefinesEvent(s: Stub, keys: seq<Key>, event: Event)
    requires Tidy(s) && ServeEvent(Seen(s), keys, event).Served?
    ensures var round, meeting := ServeEvent(Seen(s), keys, event), Meet(s, keys, event);
      && meeting.Met? && Tidy(meeting.stub) && Seen(meeting.stub) == round.server
      && meeting.sent == round.sent && meeting.last == round.last
  {
    hide Handle, AnswerPacket;
    if event.Packet? { RefinesPacket(s, keys, event.payload); }
  }

  /** A whole connection that Handlers brings to its end: the server gets there too, with the same state but
      for scratch registers, and sends the same. */
  lemma {:induction false} RefinesRun(s: Stub, keys: seq<Key>, events: seq<Event>)
    requires Tidy(s) && ServeAll(Seen(s), keys, events).Some?
    ensures var (s', sents), course := ServeAll(Seen(s), keys, events).value, ServeSteps(s, keys, events);
      && course.end.Some? && Tidy(course.end.value) && Seen(course.end.value) == s'
      && SentsOf(course.steps) == sents
    decreases |events|
  {
    hide ServeEvent, Meet;
    if events == [] {
      assert SentsOf([]) == [];
    } else {
      ServeKeepsValid(Seen(s), keys, events[0]);
      RefinesEvent(s, keys, events[0]);
      var meeting := Meet(s, keys, events[0]);
      StepsCons(s, keys, events[0], events[1..]);
      assert [events[0]] + events[1..] == events;
      var steps := ServeSteps(s, keys, events).steps;
      if meeting.last {
        assert SentsOf(steps) == [meeting.sent];
      } else {
        RefinesRun(meeting.stub, keys, events[1..]);
        assert SentsOf(steps) == [meeting.sent] + SentsOf(ServeSteps(meeting.stub, keys, events[1..]).steps);
      }
    }
  }
}
