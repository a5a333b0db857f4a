/** What a client is told about a hart that cannot be commanded, because it runs or because its debug module has
    an error: the server never halts a hart by itself, and never looks at an error. */
module Outages {
  import opened Numbers
  import opened Hex
  import opened DebugModule
  import opened RfpcCores
  import opened Commands
  import opened Debugger
  import opened RunControl
  import opened Framing
  import opened Dispatch
  import opened Handlers
  import opened Packets
  import opened EndToEnd
  import opened Faults
  import opened Stubs
  import opened Serving

  /** No command reaches the hart. */
  predicate Deaf(dm: Dm, h: nat)
    requires h < HARTS
  {
    Orderly(dm) && (dm.cmderr != 0 || dm.core.harts[h].run.Running?)
  }

  /** The selected hart cannot be commanded. */
  ghost predicate Mute(s: Stub) { s.Valid() && Deaf(s.Module(), s.Index()) }

  /** Nothing but the scratch registers of the selected module has changed, which now has an error and holds
      the cell in its data registers. */
  ghost predicate Unheard(s: Stub, s': Stub, cell: U64)
  {
    && Mute(s) && Mute(s') && s' == s.WithModule(s'.Module())
    && s'.Module().core == s.Module().core && Dead(s'.Module(), cell)
  }

  lemma UnheardWith(s: Stub, d: Dm, cell: U64)
    requires Mute(s) && Orderly(d) && Dead(d, cell) && d.core == s.Module().core
    ensures Unheard(s, s.WithModule(d), cell)
  {
  }

  // ------------------------------------------------------------------ the driver's steps

  lemma ReadOfDeaf(dm: Dm, h: nat, reg: nat)
    requires h < HARTS && Deaf(dm, h) && reg < REGISTERS
    ensures var (d, v) := ReadSteps(dm, h, reg);
      v == Data(dm) && Dead(d, v) && d.core == dm.core && d.hartsel == h && Deaf(d, h)
  {
    ReadStepsGive(dm, h, reg);
  }

  lemma WriteToDeaf(dm: Dm, h: nat, reg: nat, v: U64)
    requires h < HARTS && Deaf(dm, h) && reg < REGISTERS
    ensures var d := WriteSteps(dm, h, reg, v); Dead(d, v) && d.core == dm.core && Deaf(d, h)
  {
    hide WriteSteps;
    if dm.cmderr != 0 { WriteToDead(dm, h, reg, v); } else { WriteToRunning(dm, h, reg, v); }
  }

  /** A second read of a module with an error finds it as the first one left it. */
  lemma ReadAgain(dm: Dm, h: nat, reg: nat)
    requires h < HARTS && dm.pending.Idle? && dm.cmderr != 0 && dm.hartsel == h && reg < REGISTERS
    ensures ReadSteps(dm, h, reg) == (dm, Data(dm))
  {
    CommandIgnored(dm, 0x32_0000 + reg);
  }

  lemma MemoryOfDeaf(dm: Dm, h: nat, address: nat, n: nat, data: seq<U64>)
    requires h < HARTS && Deaf(dm, h) && Fits(address, 8 * n) && Fits(address, 8 * |data|)
    ensures var (d, words) := ReadMemorySteps(dm, h, address, n);
      Dead(d, Data(dm)) && words == Addresses(address, n) && d.core == dm.core
    ensures var d := WriteMemorySteps(dm, h, address, data); Dead(d, Data(dm)) && d.core == dm.core
  {
    hide ReadSteps, WriteSteps, LoadSteps, StoreSteps;
    var d := ReadSteps(dm, h, A0).0;
    ReadOfDeaf(dm, h, A0);
    ReadAgain(d, h, A0);
    assert ReadMemorySteps(dm, h, address, n) == ReadMemorySteps(d, h, address, n);
    assert WriteMemorySteps(dm, h, address, data) == WriteMemorySteps(d, h, address, data);
    MemoryOfDead(d, h, address, n, data, Data(dm));
  }

  // ------------------------------------------------------------------------- registers

  /** `p n` answers with the data registers as they are. */
  lemma PAnswered(s: Stub, keys: seq<Key>, n: Number)
    requires Mute(s) && Order(keys) && n.Valid() && n.value < 58
    ensures var x, cell := AnswerPacket(s, keys, PRead(n)), Data(s.Module());
      x.Replied? && x.reply == Some(HexBytes(LE(cell, 8))) && Unheard(s, x.stub, cell)
  {
    hide ReadSteps, HexBytes, LE, HexSwapped, ParseU64;
    PReadDispatch(keys, n);
    NumberParses(n);
    assert PRead(n)[1..] == n.Text();
    var reg := RegisterAddr(n.value).value;
    ReadOfDeaf(s.Module(), s.Index(), reg);
    HexSwappedIsLittleEndian(Data(s.Module()));
    UnheardWith(s, ReadSteps(s.Module(), s.Index(), reg).0, Data(s.Module()));
  }

  lemma WriteParsed(n: Number, v: U64)
    requires n.Valid() && n.value < 58
    ensures ParseRegWrite(PWrite(n, v)) == Some((RegisterAddr(n.value).value, v))
  {
    Codes();
    PWriteParts(n, v);
    NumberParses(n);
    ValueParses(v);
    SwapTwice(v);
  }

  /** `P n=v` is answered with OK whatever the state, and takes effect exactly when the module has no error, the
      hart is halted and a CSR write does not trap; if it does not, the module has an error from then on, and
      of the hart nothing has changed but x11 when a CSR write traps. */
  lemma CapPTakesEffectIff(s: Stub, keys: seq<Key>, n: Number, v: U64)
    requires s.Valid() && Order(keys) && n.Valid() && n.value < 58
    ensures var x, dm, h := AnswerPacket(s, keys, PWrite(n, v)), s.Module(), s.Index();
      var reg := RegisterAddr(n.value).value;
      && x.Replied? && x.reply == Some(Ascii("OK")) && x.stub.Valid() && x.stub == s.WithModule(x.stub.Module())
      && (x.stub.Module().cmderr == 0 <==> Writable(dm, h, reg))
      && x.stub.Module().core == (if Writable(dm, h, reg) then WithHartAt(dm.core, h, Written(dm.core.harts[h], reg, v))
                                  else if Deaf(dm, h) then dm.core
                                  else WithHartAt(dm.core, h, SetReg(dm.core.harts[h], A1, v)))
  {
    hide WriteSteps, ParseRegWrite, Written;
    PWriteDispatch(keys, n, v);
    WriteParsed(n, v);
    WriteTakesEffectIff(s.Module(), s.Index(), RegisterAddr(n.value).value, v);
  }

  lemma CapPUnheard(s: Stub, keys: seq<Key>, n: Number, v: U64)
    requires Mute(s) && Order(keys) && n.Valid() && n.value < 58
    ensures var x := AnswerPacket(s, keys, PWrite(n, v));
      x.Replied? && x.reply == Some(Ascii("OK")) && Unheard(s, x.stub, v)
  {
    hide WriteSteps, ParseRegWrite;
    PWriteDispatch(keys, n, v);
    WriteParsed(n, v);
    var reg := RegisterAddr(n.value).value;
    WriteToDeaf(s.Module(), s.Index(), reg, v);
    UnheardWith(s, WriteSteps(s.Module(), s.Index(), reg, v), v);
  }

  /** The client sees its write succeed and reads the value back, from whatever register it asks for, with no
      register of any hart changed. */
  lemma WriteIsEchoed(s: Stub, keys: seq<Key>, n: Number, v: U64, m: Number)
    requires Mute(s) && Order(keys) && n.Valid() && n.value < 58 && m.Valid() && m.value < 58
    ensures var x := AnswerPacket(s, keys, PWrite(n, v));
      && x.Replied? && x.reply == Some(Ascii("OK")) && Unheard(s, x.stub, v)
      && var y := AnswerPacket(x.stub, keys, PRead(m));
         y.Replied? && y.reply == Some(HexBytes(LE(v, 8))) && Unheard(x.stub, y.stub, v)
  {
    hide AnswerPacket;
    CapPUnheard(s, keys, n, v);
    PAnswered(AnswerPacket(s, keys, PWrite(n, v)).stub, keys, m);
  }

  function Copies(text: Bytes, n: nat): Bytes { if n == 0 then [] else Copies(text, n - 1) + text }

  lemma {:induction false} CopiesAppend(text: Bytes, m: nat, n: nat)
    ensures Copies(text, m + n) == Copies(text, m) + Copies(text, n)
  {
    if n == 0 {
      assert Copies(text, m) + [] == Copies(text, m);
    } else {
      CopiesAppend(text, m, n - 1);
      Associative(Copies(text, m), Copies(text, n - 1), text);
    }
  }

  lemma {:induction false} RangeOfDeaf(dm: Dm, h: nat, lo: nat, hi: nat)
    requires h < HARTS && Deaf(dm, h) && lo <= hi <= REGISTERS
    ensures var (d, text) := RangeSteps(dm, h, lo, hi);
      && text == Copies(HexSwapped(Data(dm)), hi - lo) && d.core == dm.core && Data(d) == Data(dm) && Deaf(d, h)
      && (lo < hi || dm.cmderr != 0 ==> Dead(d, Data(dm)))
    decreases hi - lo
  {
    hide ReadSteps, HexSwapped;
    if lo != hi {
      RangeOfDeaf(dm, h, lo, hi - 1);
      ReadOfDeaf(RangeSteps(dm, h, lo, hi - 1).0, h, hi - 1);
    }
  }

  /** How many registers the ranges have. */
  function Count(rs: seq<(nat, nat)>): nat
    requires AreRanges(rs)
  {
    if rs == [] then 0
    else
      var n := |rs| - 1;
      assert rs[n] in rs;
      Count(rs[..n]) + (rs[n].1 - rs[n].0)
  }

  lemma {:induction false} RangesOfDeaf(dm: Dm, h: nat, rs: seq<(nat, nat)>)
    requires h < HARTS && Deaf(dm, h) && AreRanges(rs)
    ensures var (d, text) := RangesSteps(dm, h, rs);
      && text == Copies(HexSwapped(Data(dm)), Count(rs)) && d.core == dm.core && Data(d) == Data(dm) && Deaf(d, h)
      && (Count(rs) > 0 ==> Dead(d, Data(dm)))
    decreases |rs|
  {
    hide RangeSteps, HexSwapped;
    if rs != [] {
      var n := |rs| - 1;
      assert rs[n] in rs;
      RangesOfDeaf(dm, h, rs[..n]);
      RangeOfDeaf(RangesSteps(dm, h, rs[..n]).0, h, rs[n].0, rs[n].1);
      CopiesAppend(HexSwapped(Data(dm)), Count(rs[..n]), rs[n].1 - rs[n].0);
    }
  }

  lemma CountOn(k: nat)
    requires k < |RANGES| && AreRanges(RANGES)
    ensures AreRanges(RANGES[..k]) && AreRanges(RANGES[..k + 1]) && RANGES[k].0 <= RANGES[k].1
    ensures Count(RANGES[..k + 1]) == Count(RANGES[..k]) + (RANGES[k].1 - RANGES[k].0)
  {
    hide RANGES;
    assert RANGES[..k + 1][..k] == RANGES[..k] && RANGES[k] in RANGES;
  }

  lemma RangesAscend()
    ensures AreRanges(RANGES)
  {
  }

  lemma CountNone()
    ensures AreRanges([]) && Count([]) == 0
  {
  }

  lemma FirstCount()
    ensures AreRanges(RANGES[..5]) && Count(RANGES[..5]) == 49
  {
    hide Count, AreRanges;
    RangesAscend();
    CountOn(0); CountOn(1); CountOn(2); CountOn(3); CountOn(4);
    assert RANGES[..0] == [];
    CountNone();
  }

  lemma CountIs58()
    ensures AreRanges(RANGES) && Count(RANGES) == 58
  {
    hide Count, AreRanges;
    RangesAscend();
    FirstCount();
    CountOn(5); CountOn(6); CountOn(7); CountOn(8);
    assert RANGES[..9] == RANGES;
  }

  lemma GDispatched(s: Stub, keys: seq<Key>)
    requires s.Valid() && Order(keys)
    ensures AnswerPacket(s, keys, [0x67]) == AnswerReadGprs(s)
  {
    hide AnswerReadGprs;
    CommandWhole([0x67]);
    LetterIsFound(keys, LowG, [0x67]);
  }

  /** `g` answers with 58 copies of the one value the data registers hold. */
  lemma GAnswered(s: Stub, keys: seq<Key>)
    requires Mute(s) && Order(keys)
    ensures var x, cell := AnswerPacket(s, keys, [0x67]), Data(s.Module());
      x.Replied? && x.reply == Some(Copies(HexSwapped(cell), 58)) && Unheard(s, x.stub, cell)
  {
    hide RangesSteps, HexSwapped, Copies, RANGES, Count, AnswerPacket;
    GDispatched(s, keys);
    CountIs58();
    RangesOfDeaf(s.Module(), s.Index(), RANGES);
    UnheardWith(s, RangesSteps(s.Module(), s.Index(), RANGES).0, Data(s.Module()));
  }

  // ---------------------------------------------------------------------------- memory

  lemma MDispatched(s: Stub, keys: seq<Key>, a: Number, n: Number)
    requires s.Valid() && Order(keys) && a.Valid() && n.Valid()
    ensures AnswerPacket(s, keys, MPacket(a, n)) == ReadAt(s, a.value, n.value)
  {
    hide ReadAt, MPacket, SplitComma, ParsePair;
    MPacketDispatch(keys, a, n);
    MPacketTakenApart(a, n);
  }

  lemma XDispatched(s: Stub, keys: seq<Key>, a: Number, n: Number, data: Bytes)
    requires s.Valid() && Order(keys) && a.Valid() && n.Valid() && n.value != 0
    ensures AnswerPacket(s, keys, XPacket(a, n, data)) == StoreAt(s, a.value, Padded(data, n.value))
  {
    hide StoreAt, XPacket, ParseWrite, Padded;
    XPacketDispatch(keys, a, n, data);
    XPacketTakenApart(a, n, data);
  }

  /** `m` answers with the addresses of the words asked for. */
  lemma MAnswered(s: Stub, keys: seq<Key>, a: Number, n: Number)
    requires Mute(s) && Order(keys) && a.Valid() && n.Valid() && !IsCtm(a.value)
    requires Fits(Masked(a.value), n.value + 8)
    ensures var x, count := AnswerPacket(s, keys, MPacket(a, n)), (n.value + 7) / 8;
      && x.Replied? && Unheard(s, x.stub, Data(s.Module()))
      && x.reply == Some(HexBytes(Take(BytesOfWords(Addresses(Masked(a.value), count)), n.value)))
  {
    hide AnswerPacket, ReadMemorySteps, Addresses, BytesOfWords, HexBytes;
    MDispatched(s, keys, a, n);
    var count, m := (n.value + 7) / 8, Masked(a.value);
    assert WordCount(n.value, 8, s.checks) == Some(count);
    MemoryOfDeaf(s.Module(), s.Index(), m, count, []);
    UnheardWith(s, ReadMemorySteps(s.Module(), s.Index(), m, count).0, Data(s.Module()));
  }

  /** `X` is answered with OK, and stores nothing. */
  lemma XUnheard(s: Stub, keys: seq<Key>, a: Number, n: Number, data: Bytes)
    requires Mute(s) && Order(keys) && a.Valid() && n.Valid() && !IsCtm(a.value)
    requires n.value == |data| > 0 && Fits(Masked(a.value), |data| + 8)
    ensures var x := AnswerPacket(s, keys, XPacket(a, n, data));
      x.Replied? && x.reply == Some(Ascii("OK")) && Unheard(s, x.stub, Data(s.Module()))
  {
    hide AnswerPacket, WriteMemorySteps, WordsOfBytes, XPacket, Padded;
    XDispatched(s, keys, a, n, data);
    PaddedLength(data, |data|);
    var words, m := WordsOfBytes(Padded(data, |data|)), Masked(a.value);
    MemoryOfDeaf(s.Module(), s.Index(), m, 0, words);
    UnheardWith(s, WriteMemorySteps(s.Module(), s.Index(), m, words), Data(s.Module()));
  }

  // --------------------------------------------------------------- whole connections

  /** The core has changed by stops and resumes alone. */
  ghost predicate GoneOn(c: Core, c': Core)
  {
    exists ops :: OnlyGoes(ops) && c' == AllOnCore(c, ops)
  }

  predicate OnlyGoes(ops: seq<Op>) { Faults.Valid(ops) && forall op :: op in ops ==> op.Halt? || op.GoOn? }

  lemma {:induction false} AllOnCoreAppend(c: Core, a: seq<Op>, b: seq<Op>)
    requires Faults.Valid(a) && Faults.Valid(b)
    ensures Faults.Valid(a + b) && AllOnCore(c, a + b) == AllOnCore(AllOnCore(c, a), b)
    decreases |b|
  {
    hide OnCore;
    if b == [] {
      assert a + b == a;
    } else {
      var n := |b| - 1;
      assert b[n] in b;
      AllOnCoreAppend(c, a, b[..n]);
      assert (a + b)[..|a + b| - 1] == a + b[..n] && (a + b)[|a + b| - 1] == b[n];
    }
  }

  lemma GoneOnTwice(c: Core, c1: Core, c2: Core)
    requires GoneOn(c, c1) && GoneOn(c1, c2)
    ensures GoneOn(c, c2)
  {
    hide AllOnCore;
    var a :| OnlyGoes(a) && c1 == AllOnCore(c, a);
    var b :| OnlyGoes(b) && c2 == AllOnCore(c1, b);
    AllOnCoreAppend(c, a, b);
    assert OnlyGoes(a + b);
  }

  lemma NotGone(c: Core)
    ensures GoneOn(c, c)
  {
    assert OnlyGoes([]) && AllOnCore(c, []) == c;
  }

  lemma GoneOnce(c: Core, op: Op)
    requires op.Valid() && (op.Halt? || op.GoOn?)
    ensures GoneOn(c, OnCore(c, op))
  {
    assert [op][..0] == [];
    assert OnlyGoes([op]) && AllOnCore(c, [op]) == OnCore(AllOnCore(c, []), op);
  }

  lemma StaysPut(c: Core, op: Op)
    requires op.Valid() && !op.Halt? && !op.GoOn?
    ensures GoneOn(c, OnCore(c, op))
  {
    NotGone(c);
  }

  /** An error that was there stays, and then the harts have changed by stops and resumes alone. */
  ghost predicate Lasting(dm: Dm, d: Dm) { dm.cmderr != 0 ==> d.cmderr == dm.cmderr && GoneOn(dm.core, d.core) }

  lemma LastingTwice(dm: Dm, d1: Dm, d2: Dm)
    requires Lasting(dm, d1) && Lasting(d1, d2)
    ensures Lasting(dm, d2)
  {
    if dm.cmderr != 0 { GoneOnTwice(dm.core, d1.core, d2.core); }
  }

  lemma NothingLasts(dm: Dm)
    ensures Lasting(dm, dm)
  {
    NotGone(dm.core);
  }

  lemma CallLasts(dm: Dm, op: Op)
    requires dm.pending.Idle? && op.Valid()
    ensures Lasting(dm, Do(dm, op).0)
  {
    hide Do, OnCore, GoneOn;
    if dm.cmderr != 0 {
      DoOnDead(dm, op, Data(dm));
      if op.Halt? || op.GoOn? { GoneOnce(dm.core, op); } else { StaysPut(dm.core, op); }
    }
  }

  lemma {:induction false} RangeLasts(dm: Dm, h: nat, lo: nat, hi: nat)
    requires dm.pending.Idle? && h < HARTS && lo <= hi <= REGISTERS
    ensures Lasting(dm, RangeSteps(dm, h, lo, hi).0)
    decreases hi - lo
  {
    hide ReadSteps, Lasting;
    if lo == hi {
      NothingLasts(dm);
    } else {
      var d := RangeSteps(dm, h, lo, hi - 1).0;
      RangeLasts(dm, h, lo, hi - 1);
      CallLasts(d, Op.ReadReg(h, hi - 1));
      LastingTwice(dm, d, RangeSteps(dm, h, lo, hi).0);
    }
  }

  lemma {:induction false} RangesLast(dm: Dm, h: nat, rs: seq<(nat, nat)>)
    requires dm.pending.Idle? && h < HARTS && AreRanges(rs)
    ensures Lasting(dm, RangesSteps(dm, h, rs).0)
    decreases |rs|
  {
    hide RangeSteps, Lasting;
    if rs == [] {
      NothingLasts(dm);
    } else {
      var n := |rs| - 1;
      assert rs[n] in rs;
      var d := RangesSteps(dm, h, rs[..n]).0;
      RangesLast(dm, h, rs[..n]);
      RangeLasts(d, h, rs[n].0, rs[n].1);
      LastingTwice(dm, d, RangesSteps(dm, h, rs).0);
    }
  }

  /** The same of every debug module of the chip. */
  ghost predicate AllLast(s: Stub, s': Stub)
  {
    forall id :: id in s.chip.dms ==> id in s'.chip.dms && Lasting(s.chip.dms[id], s'.chip.dms[id])
  }

  lemma AllLastTwice(s: Stub, s1: Stub, s2: Stub)
    requires AllLast(s, s1) && AllLast(s1, s2)
    ensures AllLast(s, s2)
  {
    hide Lasting;
    forall id | id in s.chip.dms ensures id in s2.chip.dms && Lasting(s.chip.dms[id], s2.chip.dms[id]) {
      LastingTwice(s.chip.dms[id], s1.chip.dms[id], s2.chip.dms[id]);
    }
  }

  lemma SameLasts(s: Stub, s': Stub)
    requires s'.chip.dms == s.chip.dms
    ensures AllLast(s, s')
  {
    hide GoneOn;
    forall id | id in s.chip.dms ensures Lasting(s.chip.dms[id], s.chip.dms[id]) { NothingLasts(s.chip.dms[id]); }
  }

  /** Only the selected module has changed. */
  lemma OneLasts(s: Stub, s': Stub, d: Dm)
    requires s.Valid() && Lasting(s.Module(), d) && s'.chip.dms == s.chip.dms[DmIdOf(s.rfpc) := d]
    ensures AllLast(s, s')
  {
    hide GoneOn;
    forall id | id in s.chip.dms ensures Lasting(s.chip.dms[id], s'.chip.dms[id]) { NothingLasts(s.chip.dms[id]); }
  }

  ghost predicate Lasts(s: Stub, x: Reaction) { x.Replied? ==> AllLast(s, x.stub) }

  lemma ReadRegLasts(s: Stub, packet: Bytes)
    requires s.Valid()
    ensures Lasts(s, AnswerReadReg(s, packet))
  {
    hide ReadSteps, Lasting, AllLast;
    var x := AnswerReadReg(s, packet);
    if x.Replied? {
      var reg := RegisterAddr(ParseU64(packet[1..]).value).value;
      CallLasts(s.Module(), Op.ReadReg(s.Index(), reg));
      OneLasts(s, x.stub, ReadSteps(s.Module(), s.Index(), reg).0);
    }
  }

  lemma WriteRegLasts(s: Stub, packet: Bytes)
    requires s.Valid()
    ensures Lasts(s, AnswerWriteReg(s, packet))
  {
    hide WriteSteps, Lasting, AllLast, ParseRegWrite;
    if ParseRegWrite(packet).Some? {
      var (reg, v) := ParseRegWrite(packet).value;
      CallLasts(s.Module(), Op.WriteReg(s.Index(), reg, v));
      OneLasts(s, AnswerWriteReg(s, packet).stub, WriteSteps(s.Module(), s.Index(), reg, v));
    }
  }

  lemma ReadGprsLasts(s: Stub)
    requires s.Valid()
    ensures Lasts(s, AnswerReadGprs(s))
  {
    hide RangesSteps, Lasting, AllLast;
    RangesLast(s.Module(), s.Index(), RANGES);
    OneLasts(s, AnswerReadGprs(s).stub, RangesSteps(s.Module(), s.Index(), RANGES).0);
  }

  lemma ReadAtLasts(s: Stub, a: U64, n: U64)
    requires s.Valid()
    ensures Lasts(s, ReadAt(s, a, n))
  {
    hide ReadMemorySteps, Lasting, AllLast;
    var x := ReadAt(s, a, n);
    if x.Replied? {
      if IsCtm(a) {
        SameLasts(s, x.stub);
      } else {
        var count := WordCount(n, 8, s.checks).value;
        CallLasts(s.Module(), ReadMem(s.Index(), Masked(a), count));
        OneLasts(s, x.stub, ReadMemorySteps(s.Module(), s.Index(), Masked(a), count).0);
      }
    }
  }

  lemma StoreAtLasts(s: Stub, a: U64, data: Bytes)
    requires s.Valid()
    ensures Lasts(s, StoreAt(s, a, data))
  {
    hide WriteMemorySteps, Lasting, AllLast, WordsOfBytes, Words32OfBytes;
    var x := StoreAt(s, a, data);
    if x.Replied? {
      if IsCtm(a) {
        SameLasts(s, x.stub);
      } else {
        CallLasts(s.Module(), WriteMem(s.Index(), Masked(a), WordsOfBytes(data)));
        OneLasts(s, x.stub, WriteMemorySteps(s.Module(), s.Index(), Masked(a), WordsOfBytes(data)));
      }
    }
  }

  lemma MemoryLasts(s: Stub, packet: Bytes)
    requires s.Valid()
    ensures Lasts(s, AnswerMemoryRead(s, packet)) && Lasts(s, AnswerMemoryWrite(s, packet))
  {
    hide ReadAt, StoreAt, AllLast, ParseWrite, ParsePair, SplitComma;
    var (address, length) := SplitComma(packet);
    if address != [] && ParsePair(address[1..], length).Some? {
      var (a, n) := ParsePair(address[1..], length).value;
      ReadAtLasts(s, a, n);
    }
    if ParseWrite(packet).Some? {
      var (a, n, data) := ParseWrite(packet).value;
      StoreAtLasts(s, a, Padded(data, n));
      SameLasts(s, s);
    }
  }

  lemma SetAtLasts(s: Stub, a: U64)
    requires s.Valid()
    ensures Lasts(s, SetAt(s, a))
  {
    hide ReadMemorySteps, WriteMemorySteps, Lasting, AllLast;
    var x := SetAt(s, a);
    if IsCtm(a) {
      SameLasts(s, x.stub);
    } else {
      var dm, h, m := s.Module(), s.Index(), Masked(a);
      var (d, words) := ReadMemorySteps(dm, h, m, 1);
      var patched := [WithEbreak(words[0])];
      CallLasts(dm, ReadMem(h, m, 1));
      CallLasts(d, WriteMem(h, m, patched));
      LastingTwice(dm, d, WriteMemorySteps(d, h, m, patched));
      OneLasts(s, x.stub, WriteMemorySteps(d, h, m, patched));
    }
  }

  lemma ClearAtLasts(s: Stub, a: U64)
    requires s.Valid()
    ensures Lasts(s, ClearAt(s, a))
  {
    hide WriteMemorySteps, Lasting, AllLast;
    var x := ClearAt(s, a);
    if x.Replied? {
      if IsCtm(a) {
        SameLasts(s, x.stub);
      } else {
        CallLasts(s.Module(), WriteMem(s.Index(), Masked(a), [s.breakpoints[a]]));
        OneLasts(s, x.stub, WriteMemorySteps(s.Module(), s.Index(), Masked(a), [s.breakpoints[a]]));
      }
    }
  }

  lemma BreakpointsLast(s: Stub, packet: Bytes)
    requires s.Valid()
    ensures Lasts(s, AnswerSetBreakpoint(s, packet)) && Lasts(s, AnswerClearBreakpoint(s, packet))
  {
    hide SetAt, ClearAt, AllLast;
    if BreakpointAddress(packet).Some? {
      SetAtLasts(s, BreakpointAddress(packet).value);
      ClearAtLasts(s, BreakpointAddress(packet).value);
    }
  }

  lemma GoLasts(s: Stub, go: Go)
    requires s.Valid()
    ensures Lasts(s, AnswerGo(s, go))
  {
    hide GoSteps, Lasting, AllLast;
    if AnswerGo(s, go).Replied? {
      CallLasts(s.Module(), Op.GoOn(s.Index(), go));
      OneLasts(s, AnswerGo(s, go).stub, GoSteps(go, s.Module(), s.Index()).0);
    }
  }

  lemma GoFromLasts(s: Stub, go: Go, packet: Bytes)
    requires s.Valid()
    ensures Lasts(s, AnswerGoFrom(s, go, packet))
  {
    hide WriteSteps, AnswerGo, Lasting, AllLast;
    if |packet| <= 1 {
      GoLasts(s, go);
    } else if ParseU64(packet[1..]).Some? {
      var v := ParseU64(packet[1..]).value;
      var d := WriteSteps(s.Module(), s.Index(), DPC, v);
      CallLasts(s.Module(), Op.WriteReg(s.Index(), DPC, v));
      OneLasts(s, s.WithModule(d), d);
      GoLasts(s.WithModule(d), go);
      if AnswerGo(s.WithModule(d), go).Replied? {
        AllLastTwice(s, s.WithModule(d), AnswerGo(s.WithModule(d), go).stub);
      }
    }
  }

  lemma ActLasts(s: Stub, a: Action)
    requires s.Valid() && a.thread < 32
    ensures Lasts(s, AnswerAct(s, a))
  {
    hide AnswerGo, HaltSteps, Lasting, AllLast;
    var s1 := OnThread(s, a.thread);
    SameLasts(s, s1);
    GoLasts(s1, Step);
    GoLasts(s1, Continue);
    var d := HaltSteps(s1.Module(), s1.Index());
    CallLasts(s1.Module(), Halt(s1.Index()));
    var x := AnswerAct(s, a);
    if x.Replied? {
      if a.verb == [0x74] { OneLasts(s1, x.stub, d); }
      AllLastTwice(s, s1, x.stub);
    }
  }

  lemma {:induction false} ActionsLast(s: Stub, items: seq<Bytes>)
    requires s.Valid()
    ensures Lasts(s, AnswerActions(s, items))
    decreases |items|
  {
    hide AnswerAct, ParseAction, AllLast;
    SameLasts(s, s);
    if items != [] && ParseAction(items[0]).Some? {
      var x := AnswerAct(s, ParseAction(items[0]).value);
      ActLasts(s, ParseAction(items[0]).value);
      ActStaysValid(s, ParseAction(items[0]).value);
      if x.Replied? {
        ActionsLast(x.stub, items[1..]);
        var y := AnswerActions(x.stub, items[1..]);
        if y.Replied? { AllLastTwice(s, x.stub, y.stub); }
      }
    }
  }

  lemma HandlerLasts(s: Stub, h: Handler, packet: Bytes)
    requires s.Valid()
    ensures Lasts(s, AnswerHandler(s, h, packet))
  {
    hide AnswerReadReg, AnswerWriteReg, AnswerReadGprs, AnswerMemoryRead, AnswerMemoryWrite, AnswerSetBreakpoint,
         AnswerClearBreakpoint, AnswerGo, AnswerGoFrom, AnswerActions, AllLast;
    match h {
      case ReadGprs => ReadGprsLasts(s);
      case ReadReg => ReadRegLasts(s, packet);
      case WriteReg => WriteRegLasts(s, packet);
      case MemoryRead | MemoryWrite => MemoryLasts(s, packet);
      case SetBreakpoint | ClearBreakpoint => BreakpointsLast(s, packet);
      case SingleStep | SingleStepSig => GoFromLasts(s, Step, packet); GoLasts(s, Step);
      case Cont | ContWithSig => GoFromLasts(s, Continue, packet); GoLasts(s, Continue);
      case MulticoreActions => if |packet| >= 6 { ActionsLast(s, SplitOn(packet[6..], Code(';'))); }
      case ToggleAck => SameLasts(s, s.(disableAck := true));
      case _ => SameLasts(s, s);
    }
  }

  lemma PacketLasts(s: Stub, keys: seq<Key>, packet: Bytes)
    requires s.Valid()
    ensures Lasts(s, AnswerPacket(s, keys, packet))
  {
    hide AnswerHandler, AllLast;
    match Lookup(keys, Command(packet)) {
      case Run(h) => HandlerLasts(s, h, packet);
      case _ => SameLasts(s, s);
    }
  }

  /** All through every connection, whatever the packets: a debug module that has an error keeps it, and its
      harts change by stops and resumes alone; nothing is ever written to them. */
  lemma {:induction false} ErrorsLast(s: Stub, keys: seq<Key>, events: seq<Event>)
    requires s.Valid()
    ensures var course := ServeSteps(s, keys, events);
      && (forall i :: 0 <= i < |course.steps| ==> AllLast(s, course.steps[i].before))
      && (course.end.Some? ==> AllLast(s, course.end.value))
    decreases |events|
  {
    hide AnswerPacket, AllLast;
    SameLasts(s, s);
    if events != [] {
      MeetKeepsValid(s, keys, events[0]);
      var meeting := Meet(s, keys, events[0]);
      if events[0].Packet? { PacketLasts(s, keys, events[0].payload); }
      if meeting.Met? && !meeting.last {
        ErrorsLast(meeting.stub, keys, events[1..]);
        var rest := ServeSteps(meeting.stub, keys, events[1..]);
        forall i | 0 <= i < |rest.steps| ensures AllLast(s, rest.steps[i].before) {
          AllLastTwice(s, meeting.stub, rest.steps[i].before);
        }
        if rest.end.Some? { AllLastTwice(s, meeting.stub, rest.end.value); }
      }
    }
  }
}
