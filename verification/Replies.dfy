/** No reply holds a framing character, so replies need no escaping. */
module Replies {
  import opened Numbers
  import opened Hex
  import opened Framing
  import opened Dispatch
  import opened DebugModule
  import opened RfpcCores
  import opened Commands
  import opened RunControl
  import opened Handlers
  import opened Stubs

  /** A reply character: anything but '#', '$' and '}'. */
  predicate Plain(b: U8) { b != HASH && b != DOLLAR && b != ESCAPE }

  lemma CleanIsPlain(bs: Bytes)
    requires forall i :: 0 <= i < |bs| ==> Plain(bs[i])
    ensures Clean(bs)
  {
  }

  lemma LiteralIsClean(s: string)
    requires forall i :: 0 <= i < |s| ==> Plain(Code(s[i]))
    ensures Clean(Ascii(s))
  {
    CleanIsPlain(Ascii(s));
  }

  lemma OkIsClean()
    ensures Clean(Ascii("OK"))
  {
    LiteralIsClean("OK");
  }

  lemma StopIsClean()
    ensures Clean(Ascii("S05"))
  {
    LiteralIsClean("S05");
  }

  lemma StatusIsClean()
    ensures Clean(Ascii("S12"))
  {
    LiteralIsClean("S12");
  }

  lemma ThreadIsClean()
    ensures Clean(Ascii("-1"))
  {
    LiteralIsClean("-1");
  }

  lemma AttachedIsClean()
    ensures Clean(Ascii("1"))
  {
    LiteralIsClean("1");
  }

  lemma DetachIsClean()
    ensures Clean(Ascii("detach"))
  {
    LiteralIsClean("detach");
  }

  lemma ActionsAreClean()
    ensures Clean(Ascii("vCont;c;s;t"))
  {
    LiteralIsClean("vCont;c;s;t");
  }

  lemma OffsetsAreClean()
    ensures Clean(Ascii("Text=000;Data=000;Bss=000"))
  {
    LiteralIsClean("Text=000;Data=000;Bss=000");
  }

  lemma {:induction false} JoinIsClean(parts: seq<Bytes>)
    requires forall p :: p in parts ==> Clean(p)
    ensures Clean(JoinParts(parts))
  {
    if |parts| > 1 {
      assert parts[0] in parts;
      JoinIsClean(parts[1..]);
      AppendIsClean(parts[0], [Code(';')]);
      AppendIsClean(parts[0] + [Code(';')], JoinParts(parts[1..]));
    } else if |parts| == 1 {
      assert parts[0] in parts;
    }
  }

  lemma FeaturesAreClean()
    ensures Clean(JoinParts([Ascii("PacketSize=100000"), Ascii("qMemoryRead+"), Ascii("swbreak+")]))
  {
    LiteralIsClean("PacketSize=100000");
    LiteralIsClean("qMemoryRead+");
    LiteralIsClean("swbreak+");
    JoinIsClean([Ascii("PacketSize=100000"), Ascii("qMemoryRead+"), Ascii("swbreak+")]);
  }

  lemma AppendIsClean(a: Bytes, b: Bytes)
    requires Clean(a) && Clean(b)
    ensures Clean(a + b)
  {
  }

  lemma DigitIsPlain(n: Nibble)
    ensures Plain(Digit(n))
  {
  }

  lemma {:induction false} HexIsClean(bs: Bytes)
    ensures Clean(HexBytes(bs))
  {
    if bs != [] {
      var b := bs[|bs| - 1];
      HexIsClean(bs[..|bs| - 1]);
      DigitIsPlain(b / 16);
      DigitIsPlain(b % 16);
      AppendIsClean(HexBytes(bs[..|bs| - 1]), HexByte(b));
    }
  }

  lemma RegisterIsClean(v: U64)
    ensures Clean(HexSwapped(v))
  {
    HexSwappedIsLittleEndian(v);
    HexIsClean(LE(v, 8));
  }

  lemma {:induction false} RangeIsClean(dm: Dm, h: nat, lo: nat, hi: nat)
    requires dm.pending.Idle? && h < HARTS && lo <= hi <= REGISTERS
    ensures Clean(RangeSteps(dm, h, lo, hi).1)
    decreases hi - lo
  {
    hide ReadSteps, HexSwapped, Clean;
    if lo == hi {
      NothingIsClean();
    } else {
      var (d, text) := RangeSteps(dm, h, lo, hi - 1);
      var v := ReadSteps(d, h, hi - 1).1;
      RangeIsClean(dm, h, lo, hi - 1);
      RegisterIsClean(v);
      AppendIsClean(text, HexSwapped(v));
    }
  }

  lemma NothingIsClean()
    ensures Clean([])
  {
  }

  lemma {:induction false} RangesAreClean(dm: Dm, h: nat, rs: seq<(nat, nat)>)
    requires dm.pending.Idle? && h < HARTS && AreRanges(rs)
    ensures Clean(RangesSteps(dm, h, rs).1)
    decreases |rs|
  {
    hide RangeSteps, Clean;
    if rs == [] {
      NothingIsClean();
    } else {
      var n := |rs| - 1;
      assert rs[n] in rs;
      var (d, text) := RangesSteps(dm, h, rs[..n]);
      RangesAreClean(dm, h, rs[..n]);
      RangeIsClean(d, h, rs[n].0, rs[n].1);
      AppendIsClean(text, RangeSteps(d, h, rs[n].0, rs[n].1).1);
    }
  }

  /** A reaction whose reply, if there is one, is clean. */
  predicate CleanReply(x: Reaction) { x.Replied? && x.reply.Some? ==> Clean(x.reply.value) }

  lemma {:induction false} ActionsReplyOk(s: Stub, items: seq<Bytes>)
    requires s.Valid()
    ensures CleanReply(AnswerActions(s, items))
    decreases |items|
  {
    StopIsClean();
    if items != [] && ParseAction(items[0]).Some? {
      var a := ParseAction(items[0]).value;
      ActStaysValid(s, a);
      if AnswerAct(s, a).Replied? { ActionsReplyOk(AnswerAct(s, a).stub, items[1..]); }
    }
  }

  lemma MemoryRepliesClean(s: Stub, packet: Bytes)
    requires s.Valid()
    ensures CleanReply(AnswerMemoryRead(s, packet)) && CleanReply(AnswerMemoryWrite(s, packet))
    ensures CleanReply(AnswerSetBreakpoint(s, packet)) && CleanReply(AnswerClearBreakpoint(s, packet))
  {
    OkIsClean();
    var x := AnswerMemoryRead(s, packet);
    if x.Replied? {
      var bs: Bytes :| x.reply == Some(HexBytes(bs));
      HexIsClean(bs);
    }
  }

  lemma ReadRegReplyClean(s: Stub, packet: Bytes)
    requires s.Valid()
    ensures CleanReply(AnswerReadReg(s, packet))
  {
    if AnswerReadReg(s, packet).Replied? {
      var reg := RegisterAddr(ParseU64(packet[1..]).value).value;
      RegisterIsClean(ReadSteps(s.Module(), s.Index(), reg).1);
    }
  }

  lemma WriteRegReplyClean(s: Stub, packet: Bytes)
    requires s.Valid()
    ensures CleanReply(AnswerWriteReg(s, packet))
  {
    OkIsClean();
  }

  lemma ReadGprsReplyClean(s: Stub)
    requires s.Valid()
    ensures CleanReply(AnswerReadGprs(s))
  {
    hide RangesSteps;
    RangesAreClean(s.Module(), s.Index(), RANGES);
  }

  lemma RunRepliesClean(s: Stub, go: Go, packet: Bytes)
    requires s.Valid()
    ensures CleanReply(AnswerGo(s, go)) && CleanReply(AnswerGoFrom(s, go, packet))
  {
    StopIsClean();
  }

  lemma SayingClean(s: Stub, text: string)
    requires Clean(Ascii(text))
    ensures CleanReply(Saying(s, text))
  {
  }

  lemma OffsetsReplyClean(s: Stub, packet: Bytes)
    requires s.Valid()
    ensures CleanReply(AnswerHandler(s, LoadOffsets, packet))
  {
    OffsetsAreClean();
    SayingClean(s, "Text=000;Data=000;Bss=000");
  }

  lemma FeaturesReplyClean(s: Stub, packet: Bytes)
    requires s.Valid()
    ensures CleanReply(AnswerHandler(s, SupportedFeatures, packet))
  {
    FeaturesAreClean();
  }

  lemma FixedRepliesClean(s: Stub, h: Handler, packet: Bytes)
    requires s.Valid() && h in {CmdNotSupported, ToggleAck, SetCore, SupportedActions}
    ensures CleanReply(AnswerHandler(s, h, packet))
  {
    OkIsClean();
    ActionsAreClean();
  }

  lemma HandlerRepliesClean(s: Stub, h: Handler, packet: Bytes)
    requires s.Valid()
    ensures CleanReply(AnswerHandler(s, h, packet))
  {
    hide AnswerReadReg, AnswerWriteReg, AnswerReadGprs, AnswerMemoryRead, AnswerMemoryWrite, AnswerSetBreakpoint,
         AnswerClearBreakpoint, AnswerGo, AnswerGoFrom, AnswerActions;
    match h {
      case ReadGprs => ReadGprsReplyClean(s);
      case ReadReg => ReadRegReplyClean(s, packet);
      case WriteReg => WriteRegReplyClean(s, packet);
      case MemoryRead | MemoryWrite | SetBreakpoint | ClearBreakpoint => MemoryRepliesClean(s, packet);
      case SingleStep | SingleStepSig => RunRepliesClean(s, Step, packet);
      case Cont | ContWithSig => RunRepliesClean(s, Continue, packet);
      case MulticoreActions => if |packet| >= 6 { ActionsReplyOk(s, SplitOn(packet[6..], Code(';'))); }
      case LoadOffsets => OffsetsReplyClean(s, packet);
      case SupportedFeatures => FeaturesReplyClean(s, packet);
      case _ => FixedRepliesClean(s, h, packet);
    }
  }

  /** Every reply the table or a handler produces. */
  lemma RepliesAreClean(s: Stub, keys: seq<Key>, packet: Bytes)
    requires s.Valid()
    ensures CleanReply(AnswerPacket(s, keys, packet))
  {
    match Lookup(keys, Command(packet)) {
      case Answer(reply) => AnswersAreClean(keys, Command(packet));
      case Silent =>
      case Run(h) => HandlerRepliesClean(s, h, packet);
    }
  }

  lemma AnswersAreClean(keys: seq<Key>, command: Bytes)
    ensures Lookup(keys, command).Answer? ==> Clean(Lookup(keys, command).reply)
  {
    StatusIsClean(); DetachIsClean(); ThreadIsClean(); AttachedIsClean();
    var k := FirstKey(keys, Equals(command));
    var k' := if k.Some? then k else FirstKey(keys, Begins(command));
    if k'.Some? { EntryIsClean(k'.value); }
  }

  lemma EntryIsClean(k: Key)
    ensures EntryOf(k).Answer? ==> Clean(EntryOf(k).reply)
  {
    StatusIsClean(); DetachIsClean(); ThreadIsClean(); AttachedIsClean();
  }

  lemma OkIsNotDetach()
    ensures Ascii("OK") != Ascii("detach")
  {
    assert |Ascii("OK")| == 2 && |Ascii("detach")| == 6;
  }

  lemma LastDigit(bs: Bytes)
    ensures HexBytes(bs) != [] ==> HexBytes(bs)[|HexBytes(bs)| - 1] <= 0x66
  {
  }

  lemma HexIsNotDetach(bs: Bytes)
    ensures HexBytes(bs) != Ascii("detach")
  {
    LastDigit(bs);
    assert Ascii("detach")[5] == 0x68;
  }
}
