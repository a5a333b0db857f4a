/** Memory over the wire, in terms of what a connection is to do: escaped bytes in, through parsing, dispatch
    and packing into a hart's memory, and back out as hex. */
module EndToEnd {
  import opened Numbers
  import opened Hex
  import opened DebugModule
  import opened Chip
  import opened Buses
  import opened Framing
  import opened Dispatch
  import opened Handlers
  import opened Session
  import opened Replies
  import opened Packets

  /** The server after bs has been stored at a. */
  function Stored(s: Server, a: U64, bs: Bytes): (s': Server)
    requires s.Valid() && Fits(Masked(a), |bs|)
    ensures s'.Valid()
  {
    s.WithHart(s.Hart().(mem := Poke(s.Hart().mem, Masked(a), bs)))
  }

  lemma StoredNothing(s: Server, a: U64)
    requires s.Valid()
    ensures Stored(s, a, []) == s
  {
    assert Poke(s.Hart().mem, Masked(a), []) == s.Hart().mem;
    SameHart(s);
  }

  /** What is stored can be read back, and no register, no run state and no other byte changes. */
  lemma StoredBytes(s: Server, a: U64, bs: Bytes)
    requires s.Valid() && Fits(Masked(a), |bs|)
    ensures var s' := Stored(s, a, bs);
      && Peek(s'.Hart().mem, Masked(a), |bs|) == bs
      && s'.Hart().regs == s.Hart().regs && s'.Hart().run == s.Hart().run
      && s'.machine.log == s.machine.log && s'.breakpoints == s.breakpoints
      && forall x :: 0 <= x < |s.Hart().mem| && !(Masked(a) <= x < Masked(a) + |bs|) ==>
           s'.Hart().mem[x] == s.Hart().mem[x]
  {
  }

  lemma PaddedLength(data: Bytes, n: nat)
    ensures |Padded(data, n)| % 8 == (|data| - n) % 8 && |data| <= |Padded(data, n)| < |data| + 8
  {
  }

  // ---------------------------------------------------------------- single packets

  lemma RunsMemoryWrite(s: Server, packet: Bytes)
    requires s.Valid()
    ensures RunHandler(s, MemoryWrite, packet) == MemoryWriteResult(s, packet)
  {
  }

  lemma RunsMemoryRead(s: Server, packet: Bytes)
    requires s.Valid()
    ensures RunHandler(s, MemoryRead, packet) == MemoryReadResult(s, packet)
  {
  }

  lemma XHandled(s: Server, keys: seq<Key>, a: Number, n: Number, data: Bytes)
    requires s.Valid() && Order(keys) && a.Valid() && n.Valid()
    ensures Handle(s, keys, XPacket(a, n, data)) == MemoryWriteResult(s, XPacket(a, n, data))
  {
    XPacketDispatch(keys, a, n, data);
    HandlerRuns(s, keys, XPacket(a, n, data), MemoryWrite);
    RunsMemoryWrite(s, XPacket(a, n, data));
  }

  lemma XPacketTakenApart(a: Number, n: Number, data: Bytes)
    requires a.Valid() && n.Valid()
    ensures ParseWrite(XPacket(a, n, data)) == Some((a.value, n.value, data))
  {
    Codes();
    XPacketParts(a, n, data);
    PairParses(a, n);
  }

  lemma StoredAway(s: Server, a: U64, bs: Bytes)
    requires s.Valid() && s.Halted() && !IsCtm(a) && Fits(Masked(a), |bs|)
    ensures StoreResult(s, a, bs) == if |bs| % 8 != 0 then Dies else Says(Stored(s, a, bs), "OK")
  {
  }

  lemma WriteResult(s: Server, packet: Bytes, a: U64, n: U64, data: Bytes)
    requires s.Valid() && s.Halted() && ParseWrite(packet) == Some((a, n, data)) && !IsCtm(a)
    requires Fits(Masked(a), |Padded(data, n)|)
    ensures MemoryWriteResult(s, packet)
         == if n == 0 then Says(s, "OK")
            else if (|data| - n) % 8 != 0 then Dies
            else Says(Stored(s, a, Padded(data, n)), "OK")
  {
    PaddedLength(data, n);
    StoredAway(s, a, Padded(data, n));
  }

  /** `X` with whatever data: a zero length stores nothing; otherwise the stub dies exactly when the
      declared and the real length differ modulo 8, and else stores all the data and then zeros for what
      the declared length lacks to a multiple of 8. */
  lemma WriteHandled(s: Server, keys: seq<Key>, a: Number, n: Number, data: Bytes)
    requires s.Valid() && s.Halted() && Order(keys) && a.Valid() && n.Valid() && !IsCtm(a.value)
    requires Fits(Masked(a.value), |Padded(data, n.value)|)
    ensures Handle(s, keys, XPacket(a, n, data))
         == if n.value == 0 then Says(s, "OK")
            else if (|data| - n.value) % 8 != 0 then Dies
            else Says(Stored(s, a.value, Padded(data, n.value)), "OK")
  {
    hide Handle, MemoryWriteResult, ParseWrite, XPacket;
    XHandled(s, keys, a, n, data);
    XPacketTakenApart(a, n, data);
    WriteResult(s, XPacket(a, n, data), a.value, n.value, data);
  }

  predicate AllZero(mem: Memory, lo: nat, hi: nat)
    requires hi <= |mem|
  {
    forall x :: lo <= x < hi ==> mem[x] == 0
  }

  lemma PokesAgreeIff(mem: Memory, m: nat, data: Bytes, k: nat)
    requires Fits(m, |data| + k)
    ensures Poke(mem, m, data + Zeros(k)) == Poke(mem, m, data) <==> AllZero(mem, m + |data|, m + |data| + k)
  {
    var padded, exact := Poke(mem, m, data + Zeros(k)), Poke(mem, m, data);
    assert forall x :: m + |data| <= x < m + |data| + k ==> padded[x] == 0 && exact[x] == mem[x];
    assert forall x :: 0 <= x < |padded| && !(m + |data| <= x < m + |data| + k) ==> padded[x] == exact[x];
    if AllZero(mem, m + |data|, m + |data| + k) {
      assert padded == exact;
    }
  }

  /** `X` changes the addressed bytes and no others exactly when the bytes up to the next multiple of 8
      were zero already, as they trivially are when there are none. */
  lemma WriteIsExactIff(s: Server, a: U64, data: Bytes)
    requires s.Valid() && Fits(Masked(a), |Padded(data, |data|)|)
    ensures Stored(s, a, Padded(data, |data|)) == Stored(s, a, data) <==>
      AllZero(s.Hart().mem, Masked(a) + |data|, Masked(a) + |Padded(data, |data|)|)
  {
    var all := Padded(data, |data|);
    assert all == data + Zeros(|all| - |data|);
    PokesAgreeIff(s.Hart().mem, Masked(a), data, |all| - |data|);
    assert Stored(s, a, all).Hart().mem == Poke(s.Hart().mem, Masked(a), all);
    assert Stored(s, a, data).Hart().mem == Poke(s.Hart().mem, Masked(a), data);
  }

  lemma TakePeek(mem: Memory, m: nat, n: nat, k: nat)
    requires n <= k && Fits(m, k)
    ensures Take(Peek(mem, m, k), n) == Peek(mem, m, n)
  {
  }

  lemma MPacketTakenApart(a: Number, n: Number)
    requires a.Valid() && n.Valid()
    ensures var (address, length) := SplitComma(MPacket(a, n));
      address != [] && ParsePair(address[1..], length) == Some((a.value, n.value))
  {
    Codes();
    MPacketParts(a, n);
    PairParses(a, n);
  }

  lemma ReadResult(s: Server, a: Number, n: Number)
    requires s.Valid() && s.Halted() && a.Valid() && n.Valid() && !IsCtm(a.value)
    requires Fits(Masked(a.value), n.value + 8)
    ensures MemoryReadResult(s, MPacket(a, n)) == Done(s, Some(HexBytes(Peek(s.Hart().mem, Masked(a.value), n.value))))
  {
    MPacketTakenApart(a, n);
    var count, m := (n.value + 7) / 8, Masked(a.value);
    assert WordCount(n.value, 8, s.checks) == Some(count);
    TakePeek(s.Hart().mem, m, n.value, 8 * count);
  }

  /** `m` answers the hex of exactly the bytes there, and changes nothing. */
  lemma ReadHandled(s: Server, keys: seq<Key>, a: Number, n: Number)
    requires s.Valid() && s.Halted() && Order(keys) && a.Valid() && n.Valid() && !IsCtm(a.value)
    requires Fits(Masked(a.value), n.value + 8)
    ensures Handle(s, keys, MPacket(a, n)) == Done(s, Some(HexBytes(Peek(s.Hart().mem, Masked(a.value), n.value))))
  {
    MPacketDispatch(keys, a, n);
    HandlerRuns(s, keys, MPacket(a, n), MemoryRead);
    RunsMemoryRead(s, MPacket(a, n));
    ReadResult(s, a, n);
  }

  // ------------------------------------------------------------------- the CTM

  /** 32-bit words as numbers of eight digits. */
  function WordsText(ws: seq<U32>): Bytes
  {
    if ws == [] then [] else WordsText(ws[..|ws| - 1]) + HexNumber(ws[|ws| - 1], 8)
  }

  lemma {:induction false} HexAppend(a: Bytes, b: Bytes)
    ensures HexBytes(a + b) == HexBytes(a) + HexBytes(b)
  {
    if b == [] {
      assert a + b == a;
    } else {
      var front := b[..|b| - 1];
      HexAppend(a, front);
      assert (a + b)[..|a + b| - 1] == a + front;
      Associative(HexBytes(a), HexBytes(front), HexByte(b[|b| - 1]));
    }
  }

  lemma {:induction false} SwappedWordsAreNumbers(ws: seq<U32>)
    ensures HexBytes(BigEndianBytes(ws)) == WordsText(ws)
  {
    if ws != [] {
      var last := ws[|ws| - 1];
      SwappedWordsAreNumbers(ws[..|ws| - 1]);
      HexNumberIsBigEndian(last, 4);
      HexAppend(BigEndianBytes(ws[..|ws| - 1]), Reverse(LE(last, 4)));
    }
  }

  lemma CtmReadResult(s: Server, a: Number, n: Number)
    requires s.Valid() && a.Valid() && n.Valid() && IsCtm(a.value) && n.value % 4 == 0
    ensures var count := n.value / 4;
      MemoryReadResult(s, MPacket(a, n)) == Done(WithTxn(s, CtmTxn(Bulk32, Masked(a.value), ReadOf(count))),
                                                 Some(WordsText(CtmWords(s.machine, count))))
  {
    hide MPacket, SplitComma, ParsePair;
    MPacketTakenApart(a, n);
    var count := n.value / 4;
    assert WordCount(n.value, 4, s.checks) == Some(count);
    SwappedWordsAreNumbers(CtmWords(s.machine, count));
    assert Take(BigEndianBytes(CtmWords(s.machine, count)), n.value) == BigEndianBytes(CtmWords(s.machine, count));
  }

  /** `m` of whole words in the CTM: one read of the bus, no hart involved, and each word printed as a
      number. */
  lemma CtmReadHandled(s: Server, keys: seq<Key>, a: Number, n: Number)
    requires s.Valid() && Order(keys) && a.Valid() && n.Valid() && IsCtm(a.value) && n.value % 4 == 0
    ensures var count := n.value / 4;
      Handle(s, keys, MPacket(a, n)) == Done(WithTxn(s, CtmTxn(Bulk32, Masked(a.value), ReadOf(count))),
                                             Some(WordsText(CtmWords(s.machine, count))))
  {
    hide Handle, MemoryReadResult;
    MPacketDispatch(keys, a, n);
    HandlerRuns(s, keys, MPacket(a, n), MemoryRead);
    RunsMemoryRead(s, MPacket(a, n));
    CtmReadResult(s, a, n);
  }

  // ----------------------------------------------------------------- end to end

  lemma WriteData(s: Server, keys: seq<Key>, a: Number, n: Number, data: Bytes)
    requires s.Valid() && s.Halted() && Order(keys) && a.Valid() && n.Valid() && !IsCtm(a.value)
    requires n.value == |data| && Fits(Masked(a.value), |Padded(data, |data|)|)
    ensures Handle(s, keys, XPacket(a, n, data)) == Says(Stored(s, a.value, Padded(data, |data|)), "OK")
  {
    WriteHandled(s, keys, a, n, data);
    if data == [] { StoredNothing(s, a.value); }
  }

  /** Any bytes written by an escaped, framed `X` packet come back, as hex, in the reply to `m`; the
      server is left with those bytes in the hart's memory and nothing else changed but the zero fill. */
  lemma MemoryRoundTrip(s: Server, keys: seq<Key>, a: Number, n: Number, data: Bytes, noise1: Bytes, noise2: Bytes)
    requires s.Valid() && s.Halted() && Order(keys) && a.Valid() && n.Valid() && !IsCtm(a.value)
    requires n.value == |data| && Fits(Masked(a.value), |data| + 8)
    requires Free(noise1, DOLLAR) && Free(noise2, DOLLAR)
    ensures var input := noise1 + Frame(XPacket(a, n, data)) + (noise2 + Frame(MPacket(a, n)));
      ServeAll(s, keys, Events(input)) == Some((Stored(s, a.value, Padded(data, |data|)), [
        Sent(Ack(s, Packet([])), Enclose(Ascii("OK"))), Sent(Ack(s, Packet([])), Enclose(HexBytes(data)))]))
  {
    hide Handle, Events, ServeAll, XPacket, MPacket;
    PaddedLength(data, |data|);
    var all := Padded(data, |data|);
    var s1 := Stored(s, a.value, all);
    WriteData(s, keys, a, n, data);
    StoredBytes(s, a.value, all);
    assert Peek(s1.Hart().mem, Masked(a.value), |data|) == all[..|data|] == data;
    ReadHandled(s1, keys, a, n);
    TwoFrames(noise1, XPacket(a, n, data), noise2, MPacket(a, n));
    OkIsNotDetach();
    HexIsNotDetach(data);
    ServeTwo(s, keys, XPacket(a, n, data), MPacket(a, n));
  }

  /** The reply to `m` as the client's parser takes it from the stream, after a '+' or without it: no
      other bytes have that hex. */
  lemma ClientReadsBack(ack: Bytes, data: Bytes, rest: Bytes)
    requires Free(ack, DOLLAR)
    ensures ParseOnce(ack + Enclose(HexBytes(data)) + rest) == Accepted(HexBytes(data), rest)
    ensures forall other: Bytes :: HexBytes(other) == HexBytes(data) ==> other == data
  {
    HexIsClean(data);
    ReplyRoundTrip(ack, HexBytes(data), rest);
    forall other: Bytes | HexBytes(other) == HexBytes(data) ensures other == data {
      HexDetermines(other, data);
    }
  }
}
