/** The `s` and `c` packets, with or without an address to resume at. */
module Resuming {
  import opened Numbers
  import opened Hex
  import opened DebugModule
  import opened RfpcCores
  import opened Commands
  import opened Debugger
  import opened RunControl
  import opened Framing
  import opened Dispatch
  import opened Handlers
  import opened Packets

  function KeyOf(go: Go): Key { if go == Step then LowS else LowC }

  function Letter(go: Go): U8 { if go == Step then 0x73 else 0x63 }

  /** `s` or `c`, with an address. */
  function GoPacket(go: Go, a: Number): Bytes { [Letter(go)] + a.Text() }

  lemma GoDispatch(keys: seq<Key>, go: Go, p: Bytes)
    requires Order(keys) && p != [] && p[0] == Letter(go) && Free(p, COLON)
    ensures Lookup(keys, Command(p)) == EntryOf(KeyOf(go))
  {
    CommandWhole(p);
    LetterIsFound(keys, KeyOf(go), p);
  }

  lemma RunsSingleStep(s: Server, packet: Bytes)
    requires s.Valid()
    ensures RunHandler(s, SingleStep, packet) == GoFromResult(s, Step, packet)
  {
  }

  lemma RunsCont(s: Server, packet: Bytes)
    requires s.Valid()
    ensures RunHandler(s, Cont, packet) == GoFromResult(s, Continue, packet)
  {
  }

  lemma GoHandled(s: Server, keys: seq<Key>, go: Go, p: Bytes)
    requires s.Valid() && Order(keys) && p != [] && p[0] == Letter(go) && Free(p, COLON)
    ensures Handle(s, keys, p) == GoFromResult(s, go, p)
  {
    hide Handle, GoFromResult;
    GoDispatch(keys, go, p);
    if go == Step {
      HandlerRuns(s, keys, p, SingleStep);
      RunsSingleStep(s, p);
    } else {
      HandlerRuns(s, keys, p, Cont);
      RunsCont(s, p);
    }
  }

  /** The core with the selected hart's dpc set, by way of x11. */
  function Aimed(s: Server, a: U64): Core
    requires s.Valid()
  {
    WithHartAt(s.Core(), s.Index(), Written(s.Hart(), DPC, a))
  }

  lemma AimedServer(s: Server, a: U64, c: Core)
    requires s.Valid()
    ensures var s1 := s.WithHart(Written(s.Hart(), DPC, a));
      && s1.Core() == Aimed(s, a) && s1.Index() == s.Index() && s1.WithCore(c) == s.WithCore(c)
  {
    var id := DmIdOf(s.rfpc);
    assert s.machine.cores[id := Aimed(s, a)][id := c] == s.machine.cores[id := c];
  }

  lemma GoFromAddress(s: Server, go: Go, p: Bytes, a: U64)
    requires s.Valid() && s.Halted() && !s.Traps(DPC) && !s.Traps(DCSR)
    requires |p| > 1 && ParseU64(p[1..]) == Some(a)
    ensures var after := Go1(go, Aimed(s, a), s.Index());
      GoFromResult(s, go, p) == if after.None? then Dies else Says(s.WithCore(after.value), "S05")
  {
    var after := Go1(go, Aimed(s, a), s.Index());
    AimedServer(s, a, if after.Some? then after.value else s.Core());
  }

  /** `s addr` and `c addr`: the stub answers S05 exactly when the hart came back for the right reason, and
      otherwise dies. */
  lemma ResumesAt(s: Server, keys: seq<Key>, go: Go, a: Number)
    requires s.Valid() && s.Halted() && Order(keys) && a.Valid() && !s.Traps(DPC) && !s.Traps(DCSR)
    ensures var after := Go1(go, Aimed(s, a.value), s.Index());
      Handle(s, keys, GoPacket(go, a)) == if after.None? then Dies else Says(s.WithCore(after.value), "S05")
    ensures Go1(go, Aimed(s, a.value), s.Index()).None? <==>
      HaltedHart(go, Aimed(s, a.value), s.Index()).regs[0x7b0] % 0x1_0000_0000 / 0x40 % 8 != if go == Step then 4 else 1
  {
    hide Handle, GoFromResult;
    NumberParses(a);
    NumberIsFree(a);
    var p := GoPacket(go, a);
    assert p[1..] == a.Text();
    GoHandled(s, keys, go, p);
    GoFromAddress(s, go, p, a.value);
    GoesThroughIff(go, Aimed(s, a.value), s.Index());
  }

  /** Meanwhile the hart was resumed once, and its firmware started with dpc (0x7b1) holding the address, with
      the bits of dcsr (0x7b0) set that make it come back, x11 holding the same, and everything else its own. */
  lemma FirmwareStartsThere(s: Server, go: Go, a: U64)
    requires s.Valid()
    ensures var seen, h := Seen(go, Aimed(s, a), s.Index()), s.Index();
      && HaltedHart(go, Aimed(s, a), h) == s.Core().env.firmware(h, seen, s.Core().resumes + 1).(run := Halted)
      && seen.regs[0x7b1] == a && seen.mem == s.Hart().mem
      && BitsArmed(go, s.Hart().regs[0x7b0], seen.regs[0x7b0]) && seen.regs[0x100B] == seen.regs[0x7b0]
      && forall k :: 0 <= k < 0x1020 && k != 0x7b1 && k != 0x7b0 && k != 0x100B ==> seen.regs[k] == s.Hart().regs[k]
  {
    hide BitsArmed;
    GoStarts(go, Aimed(s, a), s.Index());
  }
}
