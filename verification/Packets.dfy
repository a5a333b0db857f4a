/** The packets a client builds, and how the stub takes them apart. */
module Packets {
  import opened Numbers
  import opened Hex
  import opened Framing
  import opened Dispatch
  import opened Handlers

  const COMMA: U8 := 0x2C
  const COLON: U8 := 0x3A
  const EQUALS: U8 := 0x3D

  lemma Codes()
    ensures Code(',') == 0x2C && Code(':') == 0x3A && Code('=') == 0x3D && Code('+') == 0x2B
  {
  }

  /** A number in hex, with any number of leading zeros: value and digit count. */
  datatype Number = Number(value: U64, digits: nat) {
    ghost predicate Valid() { 0 < digits && value < Pow16(digits) }

    function Text(): Bytes { HexNumber(value, digits) }
  }

  lemma NumberParses(n: Number)
    requires n.Valid()
    ensures ParseU64(n.Text()) == Some(n.value) && n.Text() != []
  {
    ParseHexNumber(n.value, n.digits);
  }

  /** A number holds no separator. */
  lemma NumberIsFree(n: Number)
    requires n.Valid()
    ensures Free(n.Text(), 0x2C) && Free(n.Text(), 0x3A) && Free(n.Text(), 0x3D)
  {
    HexNumberIsDigits(n.value, n.digits);
    var t := n.Text();
    forall i | 0 <= i < |t| ensures t[i] != 0x2C && t[i] != 0x3A && t[i] != 0x3D {
      assert exists d: Nibble :: t[i] == Digit(d);
    }
  }

  lemma {:induction false} PositionAt(pre: Bytes, b: U8, post: Bytes)
    requires Free(pre, b)
    ensures Position(pre + [b] + post, b) == Some(|pre|)
  {
    var s := pre + [b] + post;
    if pre != [] {
      assert s[0] == pre[0] && pre[0] in pre;
      PositionAt(pre[1..], b, post);
      assert s[1..] == pre[1..] + [b] + post;
    }
  }

  lemma {:induction false} CommandBefore(pre: Bytes, post: Bytes)
    requires Free(pre, 0x3A)
    ensures Command(pre + [0x3A] + post) == pre
  {
    var s := pre + [0x3A] + post;
    if pre != [] {
      assert s[0] == pre[0] && pre[0] in pre;
      CommandBefore(pre[1..], post);
      assert s[1..] == pre[1..] + [0x3A] + post;
    }
  }

  lemma {:induction false} CommandWhole(s: Bytes)
    requires Free(s, 0x3A)
    ensures Command(s) == s
  {
    if s != [] {
      assert s[0] in s;
      CommandWhole(s[1..]);
    }
  }

  /** Two numbers around a comma. */
  function Pair(a: Number, n: Number): Bytes { a.Text() + [COMMA] + n.Text() }

  lemma PairParses(a: Number, n: Number)
    requires a.Valid() && n.Valid()
    ensures SplitComma(Pair(a, n)) == (a.Text(), Some(n.Text()))
    ensures ParsePair(a.Text(), Some(n.Text())) == Some((a.value, n.value))
  {
    NumberParses(a);
    NumberParses(n);
    NumberIsFree(a);
    SplitAtFirst(a.Text(), 0x2C, n.Text());
    assert Pair(a, n)[|a.Text()|] == 0x2C;
  }

  lemma PairIsFree(a: Number, n: Number)
    requires a.Valid() && n.Valid()
    ensures Free(Pair(a, n), 0x3A)
  {
    NumberIsFree(a);
    NumberIsFree(n);
  }

  /** A one-letter key is found. */
  lemma LetterIsFound(keys: seq<Key>, k: Key, command: Bytes)
    requires Order(keys) && Second(k) == 0 && command != [] && command[0] == First(k)
    ensures Lookup(keys, command) == EntryOf(k)
  {
    assert Text(k) == [First(k)] <= command;
    if Text(VContQuestion) <= command && k != VContQuestion {
      KeysOfOneCommand(k, VContQuestion, command);
    }
    KeyIsFound(keys, k, command);
  }

  // --------------------------------------------------------------- memory packets

  /** `Xaddr,len:data` */
  function XPacket(a: Number, n: Number, data: Bytes): Bytes { [0x58] + Pair(a, n) + [COLON] + data }

  /** `maddr,len` */
  function MPacket(a: Number, n: Number): Bytes { [0x6D] + Pair(a, n) }

  lemma XPacketDispatch(keys: seq<Key>, a: Number, n: Number, data: Bytes)
    requires Order(keys) && a.Valid() && n.Valid()
    ensures Lookup(keys, Command(XPacket(a, n, data))) == Run(MemoryWrite)
  {
    PairIsFree(a, n);
    CommandBefore([0x58] + Pair(a, n), data);
    LetterIsFound(keys, CapX, [0x58] + Pair(a, n));
  }

  lemma MPacketDispatch(keys: seq<Key>, a: Number, n: Number)
    requires Order(keys) && a.Valid() && n.Valid()
    ensures Lookup(keys, Command(MPacket(a, n))) == Run(MemoryRead)
  {
    PairIsFree(a, n);
    CommandWhole(MPacket(a, n));
    LetterIsFound(keys, LowM, MPacket(a, n));
  }

  lemma XPacketParts(a: Number, n: Number, data: Bytes)
    requires a.Valid() && n.Valid()
    ensures var p := XPacket(a, n, data); var colon := 1 + |Pair(a, n)|;
      Position(p, 0x3A) == Some(colon) && p[1..colon] == Pair(a, n) && p[colon + 1..] == data
  {
    PairIsFree(a, n);
    PositionAt([0x58] + Pair(a, n), 0x3A, data);
  }

  lemma MPacketParts(a: Number, n: Number)
    requires a.Valid() && n.Valid()
    ensures SplitComma(MPacket(a, n)) == ([0x6D] + a.Text(), Some(n.Text()))
    ensures ([0x6D] + a.Text())[1..] == a.Text()
  {
    NumberIsFree(a);
    var pre := [0x6D] + a.Text();
    SplitAtFirst(pre, 0x2C, n.Text());
    assert MPacket(a, n) == pre + [0x2C] + n.Text();
    assert MPacket(a, n)[|pre|] == 0x2C;
  }

  // ------------------------------------------------------------- register packets

  /** `pn` */
  function PRead(n: Number): Bytes { [0x70] + n.Text() }

  /** `Pn=v` with the register's bytes in hex, least significant first. */
  function PWrite(n: Number, v: U64): Bytes { [0x50] + n.Text() + [EQUALS] + HexSwapped(v) }

  lemma PReadDispatch(keys: seq<Key>, n: Number)
    requires Order(keys) && n.Valid()
    ensures Lookup(keys, Command(PRead(n))) == Run(ReadReg)
  {
    NumberIsFree(n);
    CommandWhole(PRead(n));
    LetterIsFound(keys, LowP, PRead(n));
  }

  /** The value digits parse to the byte-swapped value. */
  lemma ValueParses(v: U64)
    ensures ParseU64(HexSwapped(v)) == Some(SwapBytes(v))
    ensures Free(HexSwapped(v), 0x3A)
  {
    assert Pow16(16) == 0x1_0000_0000_0000_0000 by { Pow16Of16(); }
    ParseHexNumber(SwapBytes(v), 16);
    NumberIsFree(Number(SwapBytes(v), 16));
  }

  lemma Pow16Of16()
    ensures Pow16(16) == 0x1_0000_0000_0000_0000
  {
    assert Pow16(4) == 0x1_0000;
    assert Pow16(8) == 0x1_0000 * Pow16(4);
    assert Pow16(12) == 0x1_0000 * Pow16(8);
    assert Pow16(16) == 0x1_0000 * Pow16(12);
  }

  lemma PWriteDispatch(keys: seq<Key>, n: Number, v: U64)
    requires Order(keys) && n.Valid()
    ensures Lookup(keys, Command(PWrite(n, v))) == Run(WriteReg)
  {
    NumberIsFree(n);
    ValueParses(v);
    CommandWhole(PWrite(n, v));
    LetterIsFound(keys, CapP, PWrite(n, v));
  }

  lemma PWriteParts(n: Number, v: U64)
    requires n.Valid()
    ensures var p := PWrite(n, v); var eq := 1 + |n.Text()|;
      Position(p, 0x3D) == Some(eq) && p[1..eq] == n.Text() && p[eq + 1..] == HexSwapped(v)
  {
    NumberIsFree(n);
    PositionAt([0x50] + n.Text(), 0x3D, HexSwapped(v));
  }

  lemma HandlerRuns(s: Server, keys: seq<Key>, packet: Bytes, h: Handler)
    requires s.Valid() && Lookup(keys, Command(packet)) == Run(h)
    ensures Handle(s, keys, packet) == RunHandler(s, h, packet)
  {
  }
}
