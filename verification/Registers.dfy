/** The register packets: `g`, `p` and `P`. */
module Registers {
  import opened Numbers
  import opened Hex
  import opened DebugModule
  import opened RfpcCores
  import opened Commands
  import opened Framing
  import opened Dispatch
  import opened Handlers
  import opened Session
  import opened Replies
  import opened Packets

  // ------------------------------------------------------------- single packets

  lemma RunsReadReg(s: Server, packet: Bytes)
    requires s.Valid()
    ensures RunHandler(s, ReadReg, packet) == ReadRegResult(s, packet)
  {
  }

  lemma RunsWriteReg(s: Server, packet: Bytes)
    requires s.Valid()
    ensures RunHandler(s, WriteReg, packet) == WriteRegResult(s, packet)
  {
  }

  lemma RunsReadGprs(s: Server, packet: Bytes)
    requires s.Valid()
    ensures RunHandler(s, ReadGprs, packet) == ReadGprsResult(s)
  {
  }

  lemma ReadRegOf(s: Server, n: Number)
    requires s.Valid() && s.Halted() && n.Valid() && n.value < 58
    ensures ReadRegResult(s, PRead(n)) == Done(s, Some(HexSwapped(s.Hart().regs[RegisterAddr(n.value).value])))
  {
    NumberParses(n);
    assert PRead(n)[1..] == n.Text();
  }

  /** `p n` answers the register's little-endian bytes in hex, and changes nothing. */
  lemma PHandled(s: Server, keys: seq<Key>, n: Number)
    requires s.Valid() && s.Halted() && Order(keys) && n.Valid() && n.value < 58
    ensures var v := s.Hart().regs[RegisterAddr(n.value).value];
      Handle(s, keys, PRead(n)) == Done(s, Some(HexBytes(LE(v, 8))))
  {
    PReadDispatch(keys, n);
    HandlerRuns(s, keys, PRead(n), ReadReg);
    RunsReadReg(s, PRead(n));
    ReadRegOf(s, n);
    HexSwappedIsLittleEndian(s.Hart().regs[RegisterAddr(n.value).value]);
  }

  /** `P n=v` as the client writes it, with v's little-endian bytes in hex. */
  lemma WriteRegOf(s: Server, n: Number, v: U64)
    requires s.Valid() && s.Halted() && n.Valid() && n.value < 58
    requires var reg := RegisterAddr(n.value).value; reg < X0 ==> !s.Traps(reg)
    ensures WriteRegResult(s, PWrite(n, v))
         == Says(s.WithHart(Written(s.Hart(), RegisterAddr(n.value).value, v)), "OK")
  {
    Codes();
    PWriteParts(n, v);
    NumberParses(n);
    ValueParses(v);
    SwapTwice(v);
  }

  /** `P n=v` stores v in that register; on the way a CSR leaves it in x11 as well. */
  lemma CapPHandled(s: Server, keys: seq<Key>, n: Number, v: U64)
    requires s.Valid() && s.Halted() && Order(keys) && n.Valid() && n.value < 58
    requires var reg := RegisterAddr(n.value).value; reg < X0 ==> !s.Traps(reg)
    ensures Handle(s, keys, PWrite(n, v))
         == Says(s.WithHart(Written(s.Hart(), RegisterAddr(n.value).value, v)), "OK")
  {
    PWriteDispatch(keys, n, v);
    HandlerRuns(s, keys, PWrite(n, v), WriteReg);
    RunsWriteReg(s, PWrite(n, v));
    WriteRegOf(s, n, v);
  }

  // ---------------------------------------------------------- write, then read back

  /** A register write changes that register, if it is not x0, and for a CSR also x11. */
  lemma WrittenRegisters(h: Hart, reg: nat, v: U64, k: nat)
    requires reg < REGISTERS && k < REGISTERS
    ensures Written(h, reg, v).mem == h.mem && Written(h, reg, v).run == h.run
    ensures Written(h, reg, v).regs[k] ==
      if k == reg then (if k == X0 then 0 else v) else if k == A1 && reg < X0 then v else h.regs[k]
  {
  }

  /** What `p m` answers after `P n=v`. */
  function ReadBack(s: Server, n: nat, v: U64, m: nat): U64
    requires s.Valid() && n < 58 && m < 58
  {
    if m == n then (if n == 0 then 0 else v)
    else if m == 11 && n >= 32 then v
    else s.Hart().regs[RegisterAddr(m).value]
  }

  lemma ReadBackIsRight(s: Server, n: nat, v: U64, m: nat)
    requires s.Valid() && n < 58 && m < 58
    ensures Written(s.Hart(), RegisterAddr(n).value, v).regs[RegisterAddr(m).value] == ReadBack(s, n, v, m)
  {
    if m < n { RegistersDiffer(m, n); } else if n < m { RegistersDiffer(n, m); }
    WrittenRegisters(s.Hart(), RegisterAddr(n).value, v, RegisterAddr(m).value);
  }

  /** `P n=v` and then `p m`, over the wire, for any two of the 58 registers: register n reads as v
      (x0 as zero), and every other one as before, except that a CSR write also sets x11. */
  lemma WriteThenRead(s: Server, keys: seq<Key>, n: Number, v: U64, m: Number, noise1: Bytes, noise2: Bytes)
    requires s.Valid() && s.Halted() && Order(keys) && n.Valid() && n.value < 58 && m.Valid() && m.value < 58
    requires var reg := RegisterAddr(n.value).value; reg < X0 ==> !s.Traps(reg)
    requires Free(noise1, DOLLAR) && Free(noise2, DOLLAR)
    ensures var input := noise1 + Frame(PWrite(n, v)) + (noise2 + Frame(PRead(m)));
      ServeAll(s, keys, Events(input)) == Some((s.WithHart(Written(s.Hart(), RegisterAddr(n.value).value, v)), [
        Sent(Ack(s, Packet([])), Enclose(Ascii("OK"))),
        Sent(Ack(s, Packet([])), Enclose(HexBytes(LE(ReadBack(s, n.value, v, m.value), 8))))]))
  {
    var s1 := s.WithHart(Written(s.Hart(), RegisterAddr(n.value).value, v));
    WrittenRegisters(s.Hart(), RegisterAddr(n.value).value, v, 0);
    CapPHandled(s, keys, n, v);
    PHandled(s1, keys, m);
    ReadBackIsRight(s, n.value, v, m.value);
    TwoFrames(noise1, PWrite(n, v), noise2, PRead(m));
    OkIsNotDetach();
    HexIsNotDetach(LE(ReadBack(s, n.value, v, m.value), 8));
    ServeTwo(s, keys, PWrite(n, v), PRead(m));
  }

  /** The 16 digits of `P n=v` are those of the reply to `p n` unless something else than zero was
      written to x0. */
  lemma SameDigitsIff(s: Server, n: Number, v: U64)
    requires s.Valid() && n.Valid() && n.value < 58
    ensures HexBytes(LE(ReadBack(s, n.value, v, n.value), 8)) == HexSwapped(v) <==> n.value != 0 || v == 0
  {
    HexSwappedIsLittleEndian(v);
    if n.value == 0 && v != 0 {
      if HexBytes(LE(0, 8)) == HexBytes(LE(v, 8)) {
        HexDetermines(LE(0, 8), LE(v, 8));
        WordRoundTrip(0);
        WordRoundTrip(v);
      }
    }
  }

  // --------------------------------------------------------------- all at once: `g`

  lemma GHandled(s: Server, keys: seq<Key>)
    requires s.Valid() && s.Halted() && Order(keys)
    ensures Handle(s, keys, [0x67]) == Done(s, Some(AllRegisters(s.Hart().regs)))
  {
    CommandWhole([0x67]);
    LetterIsFound(keys, LowG, [0x67]);
    HandlerRuns(s, keys, [0x67], ReadGprs);
    RunsReadGprs(s, [0x67]);
  }

  function ReplyOf(r: Result): Bytes
  {
    if r.Done? && r.reply.Some? then r.reply.value else []
  }

  /** The replies to `p 0`, `p 1`, ..., `p (n - 1)`, one after the other, with register i written in
      digits(i) hex digits. */
  function JoinedReplies(s: Server, keys: seq<Key>, n: nat, digits: nat -> nat): Bytes
    requires s.Valid() && n <= 58
  {
    if n == 0 then []
    else JoinedReplies(s, keys, n - 1, digits) + ReplyOf(Handle(s, keys, PRead(Number(n - 1, digits(n - 1)))))
  }

  /** The first n of the 58 registers in hex. */
  function InOrder(regs: seq<U64>, n: nat): Bytes
    requires |regs| == REGISTERS && n <= 58
    decreases |regs|, n
  {
    if n == 0 then [] else InOrder(regs, n - 1) + HexSwapped(regs[RegisterAddr(n - 1).value])
  }

  lemma {:induction false} RepliesInOrder(s: Server, keys: seq<Key>, n: nat, digits: nat -> nat)
    requires s.Valid() && s.Halted() && Order(keys) && n <= 58
    requires forall i :: 0 <= i < n ==> Number(i, digits(i)).Valid()
    ensures JoinedReplies(s, keys, n, digits) == InOrder(s.Hart().regs, n)
  {
    if n != 0 {
      RepliesInOrder(s, keys, n - 1, digits);
      PHandled(s, keys, Number(n - 1, digits(n - 1)));
      HexSwappedIsLittleEndian(s.Hart().regs[RegisterAddr(n - 1).value]);
    }
  }

  /** One range loop of the `g` reply covers the register numbers from n on. */
  lemma {:induction false} Range(regs: seq<U64>, n: nat, lo: nat, len: nat)
    requires |regs| == REGISTERS && n + len <= 58 && lo + len <= REGISTERS
    requires forall k :: n <= k < n + len ==> RegisterAddr(k) == Some(lo + (k - n))
    ensures InOrder(regs, n + len) == InOrder(regs, n) + HexRange(regs, lo, lo + len)
  {
    if len == 0 {
      assert HexRange(regs, lo, lo) == [];
    } else {
      Range(regs, n, lo, len - 1);
      assert RegisterAddr(n + len - 1) == Some(lo + len - 1);
    }
  }

  lemma CsrAddr(k: nat)
    requires 32 <= k < 58
    ensures RegisterAddr(k) == Some(NthCsr(k - 32))
  {
    CsrsAscend(k - 32);
  }

  /** The range of CSRs from number 32 + n on. */
  lemma CsrRange(regs: seq<U64>, n: nat, lo: nat, len: nat)
    requires |regs| == REGISTERS && n + len <= 26 && lo + len <= REGISTERS
    requires forall k :: n <= k < n + len ==> NthCsr(k) == lo + (k - n)
    ensures InOrder(regs, 32 + n + len) == InOrder(regs, 32 + n) + HexRange(regs, lo, lo + len)
  {
    hide RegisterAddr, NthCsr, InOrder, HexRange;
    forall k | 32 + n <= k < 32 + n + len
      ensures RegisterAddr(k) == Some(lo + (k - (32 + n)))
    {
      CsrAddr(k);
      assert NthCsr(k - 32) == lo + (k - 32 - n);
    }
    Range(regs, 32 + n, lo, len);
  }

  lemma OneInRange(regs: seq<U64>, r: nat)
    requires |regs| == REGISTERS && r < REGISTERS
    ensures HexRange(regs, r, r + 1) == HexSwapped(regs[r])
  {
    assert HexRange(regs, r, r) == [];
  }

  lemma GeneralInOrder(regs: seq<U64>)
    requires |regs| == REGISTERS
    ensures InOrder(regs, 32) == HexRange(regs, 0x1000, 0x1020)
  {
    Range(regs, 0, 0x1000, 32);
  }

  lemma TrapsInOrder(regs: seq<U64>)
    requires |regs| == REGISTERS
    ensures InOrder(regs, 43) == InOrder(regs, 32) + HexRange(regs, 0x300, 0x306) + HexRange(regs, 0x340, 0x345)
  {
    hide InOrder, HexRange, HexSwapped;
    CsrRange(regs, 0, 0x300, 6);
    CsrRange(regs, 6, 0x340, 5);
  }

  lemma DebugInOrder(regs: seq<U64>)
    requires |regs| == REGISTERS
    ensures InOrder(regs, 49) == InOrder(regs, 43) + HexRange(regs, 0x7b0, 0x7b4) + HexRange(regs, 0x7c0, 0x7c2)
  {
    hide InOrder, HexRange, HexSwapped;
    CsrRange(regs, 11, 0x7b0, 4);
    CsrRange(regs, 15, 0x7c0, 2);
  }

  lemma FirstInOrder(regs: seq<U64>)
    requires |regs| == REGISTERS
    ensures FirstRegisters(regs) == InOrder(regs, 49)
  {
    hide InOrder, HexRange;
    GeneralInOrder(regs);
    TrapsInOrder(regs);
    DebugInOrder(regs);
  }

  lemma CountersInOrder(regs: seq<U64>)
    requires |regs| == REGISTERS
    ensures InOrder(regs, 51) == InOrder(regs, 49) + HexSwapped(regs[0xb00]) + HexSwapped(regs[0xb02])
  {
    hide InOrder, HexRange, HexSwapped;
    CsrRange(regs, 17, 0xb00, 1);
    CsrRange(regs, 18, 0xb02, 1);
    OneInRange(regs, 0xb00);
    OneInRange(regs, 0xb02);
  }

  lemma LastInOrder(regs: seq<U64>)
    requires |regs| == REGISTERS
    ensures InOrder(regs, 58) == InOrder(regs, 51) + HexRange(regs, 0xc00, 0xc03) + HexRange(regs, 0xf11, 0xf15)
  {
    hide InOrder, HexRange, HexSwapped;
    CsrRange(regs, 19, 0xc00, 3);
    CsrRange(regs, 22, 0xf11, 4);
  }

  lemma AllInOrder(regs: seq<U64>)
    requires |regs| == REGISTERS
    ensures AllRegisters(regs) == InOrder(regs, 58)
  {
    hide InOrder, HexRange, HexSwapped, FirstRegisters;
    FirstInOrder(regs);
    CountersInOrder(regs);
    LastInOrder(regs);
  }

  /** The reply to `g` is the replies to `p 0` ... `p 57` joined, and neither changes anything. */
  lemma GIsAllP(s: Server, keys: seq<Key>, digits: nat -> nat)
    requires s.Valid() && s.Halted() && Order(keys)
    requires forall i :: 0 <= i < 58 ==> Number(i, digits(i)).Valid()
    ensures Handle(s, keys, [0x67]) == Done(s, Some(JoinedReplies(s, keys, 58, digits)))
  {
    GHandled(s, keys);
    AllInOrder(s.Hart().regs);
    RepliesInOrder(s, keys, 58, digits);
  }
}
