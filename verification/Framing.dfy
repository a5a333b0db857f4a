/** Packets of the GDB remote serial protocol (GDB manual, appendix E, section E.1 "Overview"):
    `$` body `#` and two checksum digits, with 0x7d escaping inside the body. */
module Framing {
  import opened Numbers
  import opened Hex

  const DOLLAR: U8 := 0x24
  const HASH: U8 := 0x23
  const ESCAPE: U8 := 0x7D

  // -------------------------------------------------------------------- checksums

  /** The sum of the bytes, wrapping at 256. */
  function Checksum(bs: Bytes): U8
  {
    if bs == [] then 0 else (Checksum(bs[..|bs| - 1]) + bs[|bs| - 1]) % 256
  }

  function Sum(bs: Bytes): nat { if bs == [] then 0 else bs[0] + Sum(bs[1..]) }

  lemma {:induction false} SumSnoc(bs: Bytes, b: U8)
    ensures Sum(bs + [b]) == Sum(bs) + b
  {
    if bs == [] {
      assert [b][1..] == [];
    } else {
      SumSnoc(bs[1..], b);
      assert (bs + [b])[1..] == bs[1..] + [b];
    }
  }

  lemma WrapOnce(x: nat, b: U8)
    ensures (x % 256 + b) % 256 == (x + b) % 256
  {
  }

  /** The running total, wrapped after every byte, is the whole sum modulo 256. */
  lemma {:induction false} ChecksumIsSum(bs: Bytes)
    ensures Checksum(bs) == Sum(bs) % 256
  {
    if bs != [] {
      var front, b := bs[..|bs| - 1], bs[|bs| - 1];
      ChecksumIsSum(front);
      SumSnoc(front, b);
      WrapOnce(Sum(front), b);
      assert bs == front + [b];
    }
  }

  method CalculateRspChecksum(data: Bytes) returns (acc: U8)
    ensures acc == Checksum(data) == Sum(data) % 256
  {
    ChecksumIsSum(data);
    acc := 0;
    for i := 0 to |data|
      invariant acc == Checksum(data[..i])
    {
      assert data[..i + 1][..i] == data[..i];
      acc := (acc + data[i]) % 256;
    }
    assert data[..|data|] == data;
  }

  /** The checksum digits: two hex digits, a '+' and one hex digit, or anything else for zero. */
  function ReceivedChecksum(c1: U8, c2: U8): U8
  {
    match FromStrRadix([c1, c2], 16, 0x100)
    case Some(v) => v
    case None => 0
  }

  /** Two digits, a plus sign and one digit, or zero for anything else. */
  lemma ReceivedAs(c1: U8, c2: U8)
    ensures var d1, d2 := DigitValue(c1, 16), DigitValue(c2, 16);
      ReceivedChecksum(c1, c2) ==
        if c1 == 0x2B then (if d2.Some? then d2.value else 0)
        else if d1.Some? && d2.Some? then 16 * d1.value + d2.value else 0
  {
    DigitsSnoc([], c1, 16);
    DigitsSnoc([], c2, 16);
    DigitsSnoc([c1], c2, 16);
    assert [] + [c1] == [c1] && [] + [c2] == [c2] && [c1] + [c2] == [c1, c2] && [c1, c2][1..] == [c2];
    assert Digits([], 16) == Some(0);
  }

  lemma ReceivedHexByte(b: U8)
    ensures ReceivedChecksum(HexByte(b)[0], HexByte(b)[1]) == b
  {
    var c1, c2 := Digit(b / 16), Digit(b % 16);
    DigitRoundTrip(b / 16);
    DigitRoundTrip(b % 16);
    assert [c1, c2][..1] == [c1] && [c1][..0] == [];
    assert Digits([], 16) == Some(0);
    assert Digits([c1], 16) == Some(b / 16);
    assert Digits([c1, c2], 16) == Some(b);
  }

  // --------------------------------------------------------------------- escaping

  /** `b ^ 0x20` */
  function Flip(b: U8): U8 { if b / 32 % 2 == 1 then b - 32 else b + 32 }

  predicate MustEscape(b: U8) { b == HASH || b == DOLLAR || b == ESCAPE }

  function EscapeByte(b: U8): Bytes { if MustEscape(b) then [ESCAPE, Flip(b)] else [b] }

  /** What a client sends for a payload. */
  function Escape(payload: Bytes): Bytes
  {
    if payload == [] then []
    else Escape(payload[..|payload| - 1]) + EscapeByte(payload[|payload| - 1])
  }

  /** What the parser makes of the bytes of a body, and whether an escape is still open. */
  function Unescape(body: Bytes): (Bytes, bool)
  {
    if body == [] then ([], false)
    else
      var (out, escaped) := Unescape(body[..|body| - 1]);
      var b := body[|body| - 1];
      if escaped then (out + [Flip(b)], false)
      else if b == ESCAPE then (out, true)
      else (out + [b], false)
  }

  predicate Free(bs: Bytes, b: U8) { b !in bs }

  lemma UnescapeSnoc(body: Bytes, b: U8)
    ensures var (out, escaped) := Unescape(body);
      Unescape(body + [b]) == if escaped then (out + [Flip(b)], false)
                              else if b == ESCAPE then (out, true) else (out + [b], false)
  {
    assert (body + [b])[..|body|] == body;
  }

  lemma FlipTwice(b: U8)
    requires MustEscape(b)
    ensures Flip(Flip(b)) == b && Flip(b) != HASH && Flip(b) != DOLLAR
  {
  }

  lemma EscapedByte(body: Bytes, b: U8)
    requires !Unescape(body).1
    ensures Unescape(body + EscapeByte(b)) == (Unescape(body).0 + [b], false)
  {
    if MustEscape(b) {
      FlipTwice(b);
      UnescapeSnoc(body, ESCAPE);
      UnescapeSnoc(body + [ESCAPE], Flip(b));
      assert body + EscapeByte(b) == body + [ESCAPE] + [Flip(b)];
    } else {
      UnescapeSnoc(body, b);
    }
  }

  lemma {:induction false} EscapeRoundTrip(payload: Bytes)
    ensures Unescape(Escape(payload)) == (payload, false)
  {
    if payload != [] {
      var front, b := payload[..|payload| - 1], payload[|payload| - 1];
      assert payload == front + [b];
      EscapeRoundTrip(front);
      EscapedByte(Escape(front), b);
      assert Escape(payload) == Escape(front) + EscapeByte(b);
    }
  }

  /** From c to r bit 5 is inverted, and no other bit changes. */
  predicate Bit5Inverted(c: U8, r: U8)
  {
    r % 32 == c % 32 && r / 64 == c / 64 && r / 32 % 2 != c / 32 % 2
  }

  lemma FlipInverts(c: U8)
    ensures Bit5Inverted(c, Flip(c))
  {
    var high, b, low := c / 64, c / 32 % 2, c % 32;
    assert c == 64 * high + 32 * b + low;
    if b == 1 {
      assert Flip(c) == 64 * high + low;
    } else {
      assert Flip(c) == 64 * high + 32 + low;
    }
  }

  lemma PairUnescapes(body: Bytes, c: U8)
    requires !Unescape(body).1
    ensures Unescape(body + [0x7D, c]) == (Unescape(body).0 + [Flip(c)], false)
  {
    hide Flip;
    UnescapeSnoc(body, 0x7D);
    UnescapeSnoc(body + [0x7D], c);
    assert body + [0x7D] + [c] == body + [0x7D, c];
  }

  /** Whatever byte follows 0x7d, the parser takes it for the one with bit 5 inverted. */
  lemma EscapedIsInverted(body: Bytes, c: U8)
    requires !Unescape(body).1
    ensures var (out, open), n := Unescape(body + [0x7D, c]), |Unescape(body).0|;
      !open && |out| == n + 1 && out[..n] == Unescape(body).0 && Bit5Inverted(c, out[n])
  {
    hide Flip, Bit5Inverted, Unescape;
    FlipInverts(c);
    PairUnescapes(body, c);
  }

  /** Only the three framing characters are escaped, and as 7d 03, 7d 04 and 7d 5d. */
  lemma EscapeSnoc(payload: Bytes, b: U8)
    ensures Escape(payload + [b]) == Escape(payload) +
      if b == 0x23 then [0x7D, 0x03] else if b == 0x24 then [0x7D, 0x04] else if b == 0x7D then [0x7D, 0x5D] else [b]
  {
    assert (payload + [b])[..|payload|] == payload;
  }

  /** Those three pairs give back the three characters. */
  lemma FramingCharactersArrive(body: Bytes)
    requires !Unescape(body).1
    ensures Unescape(body + [0x7D, 0x03]) == (Unescape(body).0 + [0x23], false)
    ensures Unescape(body + [0x7D, 0x04]) == (Unescape(body).0 + [0x24], false)
    ensures Unescape(body + [0x7D, 0x5D]) == (Unescape(body).0 + [0x7D], false)
  {
    hide Unescape;
    PairUnescapes(body, 0x03);
    PairUnescapes(body, 0x04);
    PairUnescapes(body, 0x5D);
  }

  lemma {:induction false} EscapedIsFree(payload: Bytes)
    ensures Free(Escape(payload), HASH) && Free(Escape(payload), DOLLAR)
  {
    if payload != [] {
      var b := payload[|payload| - 1];
      EscapedIsFree(payload[..|payload| - 1]);
      if MustEscape(b) { FlipTwice(b); }
    }
  }

  /** No framing character inside. */
  predicate Clean(bs: Bytes) { Free(bs, HASH) && Free(bs, DOLLAR) && Free(bs, ESCAPE) }

  lemma {:induction false} CleanIsItself(bs: Bytes)
    requires Free(bs, ESCAPE)
    ensures Unescape(bs) == (bs, false)
  {
    if bs != [] {
      CleanIsItself(bs[..|bs| - 1]);
      assert bs == bs[..|bs| - 1] + [bs[|bs| - 1]];
    }
  }

  // ------------------------------------------------------------------ one packet

  function Enclose(body: Bytes): Bytes
  {
    [DOLLAR] + body + [HASH] + HexByte(Checksum(body))
  }

  /** The packet a client sends for a payload. */
  function Frame(payload: Bytes): Bytes { Enclose(Escape(payload)) }

  method FormatRspPacket(response: Bytes) returns (packet: Bytes)
    ensures packet == Enclose(response)
  {
    packet := [DOLLAR] + response;
    packet := packet + [HASH];
    var checksum := CalculateRspChecksum(response);
    packet := packet + HexByte(checksum);
  }

  /** What follows the first b; nothing when there is none. */
  function After(s: Bytes, b: U8): Bytes
  {
    if s == [] then [] else if s[0] == b then s[1..] else After(s[1..], b)
  }

  /** What precedes the first b; everything when there is none. */
  function Before(s: Bytes, b: U8): Bytes
  {
    if s == [] || s[0] == b then [] else [s[0]] + Before(s[1..], b)
  }

  lemma {:induction false} SplitAtFirst(pre: Bytes, b: U8, post: Bytes)
    requires Free(pre, b)
    ensures After(pre + [b] + post, b) == post && Before(pre + [b] + post, b) == pre
  {
    var s := pre + [b] + post;
    if pre == [] {
      assert s[1..] == post;
    } else {
      assert s[0] == pre[0] && pre[0] in pre;
      SplitAtFirst(pre[1..], b, post);
      assert s[1..] == pre[1..] + [b] + post;
    }
  }

  lemma {:induction false} NothingAfter(s: Bytes, b: U8)
    requires Free(s, b)
    ensures After(s, b) == []
  {
    if s != [] {
      assert s[0] in s;
      NothingAfter(s[1..], b);
    }
  }

  lemma {:induction false} AfterIsShorter(s: Bytes, b: U8)
    ensures |After(s, b)| < |s| || After(s, b) == []
  {
    if s != [] {
      AfterIsShorter(s[1..], b);
    }
  }

  datatype Parsed = Accepted(payload: Bytes, rest: Bytes) | Rejected(rest: Bytes) | Closed

  /** One call of the parser on what the stream still holds. */
  function ParseOnce(input: Bytes): Parsed
  {
    var packet := After(input, DOLLAR);
    var body, tail := Before(packet, HASH), After(packet, HASH);
    if |tail| < 2 then Closed
    else if Checksum(body) == ReceivedChecksum(tail[0], tail[1]) then
      Accepted(Unescape(body).0, tail[2..])
    else Rejected(tail[2..])
  }

  /** Noise without '$', then any '#'-free body between '$' and '#', then two checksum bytes. */
  datatype Wire = Wire(noise: Bytes, body: Bytes, c1: U8, c2: U8) {
    predicate Valid() { Free(noise, DOLLAR) && Free(body, HASH) }

    function Bytes(): Bytes { noise + [DOLLAR] + body + [HASH] + [c1, c2] }

    function Verdict(rest: Bytes): Parsed {
      if Checksum(body) == ReceivedChecksum(c1, c2) then Accepted(Unescape(body).0, rest) else Rejected(rest)
    }
  }

  lemma ParseWire(w: Wire, rest: Bytes)
    requires w.Valid()
    ensures ParseOnce(w.Bytes() + rest) == w.Verdict(rest)
  {
    var post := w.body + [HASH] + ([w.c1, w.c2] + rest);
    SplitAtFirst(w.noise, DOLLAR, post);
    assert w.Bytes() + rest == w.noise + [DOLLAR] + post;
    SplitAtFirst(w.body, HASH, [w.c1, w.c2] + rest);
    assert ([w.c1, w.c2] + rest)[2..] == rest;
  }

  /** A body with a checksum in two hex digits, as a wire. */
  function WireOf(noise: Bytes, body: Bytes, sum: U8): Wire
  {
    Wire(noise, body, Digit(sum / 16), Digit(sum % 16))
  }

  lemma WireOfBytes(noise: Bytes, body: Bytes, sum: U8)
    ensures WireOf(noise, body, sum).Bytes() == noise + [DOLLAR] + body + [HASH] + HexByte(sum)
    ensures ReceivedChecksum(WireOf(noise, body, sum).c1, WireOf(noise, body, sum).c2) == sum
  {
    ReceivedHexByte(sum);
  }

  lemma EncloseRoundTrip(noise: Bytes, body: Bytes, rest: Bytes)
    requires Free(noise, DOLLAR) && Free(body, HASH)
    ensures ParseOnce(noise + Enclose(body) + rest) == Accepted(Unescape(body).0, rest)
  {
    var w := WireOf(noise, body, Checksum(body));
    WireOfBytes(noise, body, Checksum(body));
    assert w.Bytes() == noise + Enclose(body);
    ParseWire(w, rest);
  }

  /** Every payload survives escaping, framing and parsing, whatever noise precedes it. */
  lemma FrameRoundTrip(noise: Bytes, payload: Bytes, rest: Bytes)
    requires Free(noise, DOLLAR)
    ensures ParseOnce(noise + Frame(payload) + rest) == Accepted(payload, rest)
  {
    EscapeRoundTrip(payload);
    EscapedIsFree(payload);
    EncloseRoundTrip(noise, Escape(payload), rest);
  }

  /** An unescaped reply parses back when it holds no framing character. */
  lemma ReplyRoundTrip(noise: Bytes, reply: Bytes, rest: Bytes)
    requires Free(noise, DOLLAR) && Clean(reply)
    ensures ParseOnce(noise + Enclose(reply) + rest) == Accepted(reply, rest)
  {
    CleanIsItself(reply);
    EncloseRoundTrip(noise, reply, rest);
  }

  lemma FreeAppend(a: Bytes, b: Bytes, c: U8)
    requires Free(a, c) && Free(b, c)
    ensures Free(a + b, c)
  {
  }

  /** From the stream to the payload: between '$' and '#' a body that ends in 7d 03, 7d 04 or 7d 5d is taken for
      one that ends in '#', '$' or '}'. */
  lemma EscapedArrives(noise: Bytes, body: Bytes, c: U8, rest: Bytes)
    requires Free(noise, 0x24) && Free(body, 0x23) && !Unescape(body).1 && c in {0x03, 0x04, 0x5D}
    ensures var escaped := body + [0x7D, c];
      ParseOnce(noise + [0x24] + escaped + [0x23] + HexByte(Checksum(escaped)) + rest)
      == Accepted(Unescape(body).0 + [if c == 0x03 then 0x23 else if c == 0x04 then 0x24 else 0x7D], rest)
  {
    hide Unescape, ParseOnce;
    var escaped := body + [0x7D, c];
    FreeAppend(body, [0x7D, c], 0x23);
    FramingCharactersArrive(body);
    EncloseRoundTrip(noise, escaped, rest);
    assert noise + [0x24] + escaped + [0x23] + HexByte(Checksum(escaped)) + rest == noise + Enclose(escaped) + rest;
  }

  // ----------------------------------------------------------------- many packets

  datatype Event = Packet(payload: Bytes) | Bad

  lemma ParseConsumes(input: Bytes)
    ensures ParseOnce(input).Accepted? || ParseOnce(input).Rejected? ==> |ParseOnce(input).rest| < |input|
  {
    AfterIsShorter(input, DOLLAR);
    AfterIsShorter(After(input, DOLLAR), HASH);
  }

  /** What the parser reports, call after call, until the stream is closed. */
  function Events(input: Bytes): seq<Event>
    decreases |input|
  {
    ParseConsumes(input);
    match ParseOnce(input)
    case Accepted(payload, rest) => [Packet(payload)] + Events(rest)
    case Rejected(rest) => [Bad] + Events(rest)
    case Closed => []
  }

  function WireBytes(ws: seq<Wire>): Bytes
  {
    if ws == [] then [] else ws[0].Bytes() + WireBytes(ws[1..])
  }

  function EventOf(w: Wire): Event
  {
    if Checksum(w.body) == ReceivedChecksum(w.c1, w.c2) then Packet(Unescape(w.body).0) else Bad
  }

  lemma WireIsAnEvent(w: Wire, rest: Bytes)
    requires w.Valid()
    ensures Events(w.Bytes() + rest) == [EventOf(w)] + Events(rest)
  {
    ParseWire(w, rest);
  }

  lemma FrameIsAnEvent(noise: Bytes, payload: Bytes, rest: Bytes)
    requires Free(noise, DOLLAR)
    ensures Events(noise + Frame(payload) + rest) == [Packet(payload)] + Events(rest)
  {
    FrameRoundTrip(noise, payload, rest);
  }

  function Verdicts(ws: seq<Wire>): seq<Event>
  {
    if ws == [] then [] else [EventOf(ws[0])] + Verdicts(ws[1..])
  }

  lemma ThenMore(w: Wire, rest: Bytes, tail: Bytes, es: seq<Event>)
    requires w.Valid() && Events(rest + tail) == es + Events(tail)
    ensures Events(w.Bytes() + rest + tail) == [EventOf(w)] + es + Events(tail)
  {
    Associative(w.Bytes(), rest, tail);
    WireIsAnEvent(w, rest + tail);
    Associative([EventOf(w)], es, Events(tail));
  }

  /** Each packet is judged alone: a rejected one leaves the stream where the next one begins. */
  lemma {:induction false} PacketsAreIndependent(ws: seq<Wire>, tail: Bytes)
    requires forall w :: w in ws ==> w.Valid()
    ensures Events(WireBytes(ws) + tail) == Verdicts(ws) + Events(tail)
  {
    if ws == [] {
      assert WireBytes(ws) + tail == tail;
    } else {
      assert ws[0] in ws;
      PacketsAreIndependent(ws[1..], tail);
      ThenMore(ws[0], WireBytes(ws[1..]), tail, Verdicts(ws[1..]));
    }
  }

  /** Client packets with arbitrary '$'-free noise before each of them. */
  function Transmitted(noises: seq<Bytes>, payloads: seq<Bytes>): Bytes
    requires |noises| == |payloads|
  {
    if payloads == [] then [] else noises[0] + Frame(payloads[0]) + Transmitted(noises[1..], payloads[1..])
  }

  function PacketEvents(payloads: seq<Bytes>): (es: seq<Event>)
    ensures |es| == |payloads| && forall i :: 0 <= i < |es| ==> es[i] == Packet(payloads[i])
  {
    if payloads == [] then [] else [Packet(payloads[0])] + PacketEvents(payloads[1..])
  }

  /** Exactly the payloads come out, in order. */
  lemma {:induction false} PayloadsArriveInOrder(noises: seq<Bytes>, payloads: seq<Bytes>, tail: Bytes)
    requires |noises| == |payloads| && Free(tail, DOLLAR)
    requires forall n :: n in noises ==> Free(n, DOLLAR)
    ensures Events(Transmitted(noises, payloads) + tail) == PacketEvents(payloads)
  {
    if payloads == [] {
      assert Transmitted(noises, payloads) + tail == tail;
      NothingAfter(tail, DOLLAR);
    } else {
      assert noises[0] in noises;
      var sent := Transmitted(noises[1..], payloads[1..]);
      PayloadsArriveInOrder(noises[1..], payloads[1..], tail);
      FrameIsAnEvent(noises[0], payloads[0], sent + tail);
      Associative(noises[0] + Frame(payloads[0]), sent, tail);
    }
  }

  /** With two hex digits for a checksum a body is accepted exactly when they are the right ones;
      by PacketsAreIndependent a wrong pair costs that packet only. */
  lemma ChecksumDecides(noise: Bytes, body: Bytes, sum: U8)
    ensures WireOf(noise, body, sum).Bytes() == noise + [DOLLAR] + body + [HASH] + HexByte(sum)
    ensures EventOf(WireOf(noise, body, sum)) == if sum == Checksum(body) then Packet(Unescape(body).0) else Bad
  {
    WireOfBytes(noise, body, sum);
  }

  // -------------------------------------------------------------- the parser itself

  /** A connection: what the client has sent and not yet been read, and what was sent to it. */
  class Stream {
    var input: Bytes
    var output: Bytes

    constructor (input: Bytes)
      ensures this.input == input && output == []
    {
      this.input, output := input, [];
    }

    /** Reads one byte; none when the client has closed the connection. */
    method Read() returns (n: nat, b: U8)
      modifies this`input
      ensures old(input) == [] ==> n == 0 && input == []
      ensures old(input) != [] ==> n == 1 && b == old(input)[0] && input == old(input)[1..]
    {
      if input == [] {
        return 0, 0;
      }
      n, b, input := 1, input[0], input[1..];
    }

    method WriteAll(bs: Bytes)
      modifies this`output
      ensures output == old(output) + bs
    {
      output := output + bs;
    }

    /** Reads up to the first occurrence of b. */
    method SkipPast(b: U8)
      modifies this`input
      ensures input == After(old(input), b)
    {
      ghost var left := input;                     // from the byte just read on
      var n: nat, byte: U8 := Read();
      while n > 0
        invariant n == (if left == [] then 0 else 1) && After(left, b) == After(old(input), b)
        invariant if n > 0 then byte == left[0] && input == left[1..] else input == []
        decreases |left|
      {
        if byte == b {
          return;
        }
        left := input;
        n, byte := Read();
      }
    }

    /** The body up to '#', unescaped on the fly: the bytes as they came, and the payload. */
    method ReadBody() returns (original: Bytes, buffer: Bytes)
      modifies this`input
      ensures original == Before(old(input), HASH) && input == After(old(input), HASH)
      ensures buffer == Unescape(original).0
    {
      original, buffer := [], [];
      var escaped := false;
      ghost var left := input;                     // from the byte just read on
      var n: nat, byte: U8 := Read();
      while n > 0 && byte != HASH
        invariant n == (if left == [] then 0 else 1) && After(left, HASH) == After(old(input), HASH)
        invariant if n > 0 then byte == left[0] && input == left[1..] else input == []
        invariant original + Before(left, HASH) == Before(old(input), HASH)
        invariant (buffer, escaped) == Unescape(original)
        decreases |left|
      {
        UnescapeSnoc(original, byte);
        assert original + Before(left, HASH) == original + [byte] + Before(left[1..], HASH);
        original := original + [byte];
        if escaped {
          buffer := buffer + [Flip(byte)];
          escaped := false;
        } else if byte == ESCAPE {
          escaped := true;
        } else {
          buffer := buffer + [byte];
        }
        left := input;
        n, byte := Read();
      }
    }
  }

  /** One packet from the stream; None is the error the caller answers with '-'. */
  method ParseRspPacket(stream: Stream, disableAck: bool) returns (packet: Option<Bytes>)
    modifies stream
    ensures match ParseOnce(old(stream.input))
      case Accepted(payload, rest) =>
        packet == Some(payload) && stream.input == rest &&
        stream.output == old(stream.output) + (if disableAck then [] else [Code('+')])
      case Rejected(rest) => packet == None && stream.input == rest && stream.output == old(stream.output)
      case Closed => packet == None && stream.input == [] && stream.output == old(stream.output)
  {
    stream.SkipPast(DOLLAR);
    var original, buffer := stream.ReadBody();
    var n1, c1 := stream.Read();
    var n2, c2 := stream.Read();
    if n1 + n2 < 2 {
      return None;
    }
    var expected := CalculateRspChecksum(original);
    if expected == ReceivedChecksum(c1, c2) {
      if !disableAck {
        stream.WriteAll([Code('+')]);
      }
      return Some(buffer);
    }
    return None;
  }

  /** The parser itself, on a stream whose first packet ends in an escaped '#'. */
  method ParseEscaped(stream: Stream, ghost noise: Bytes, ghost body: Bytes, ghost rest: Bytes)
    returns (packet: Option<Bytes>)
    requires Free(noise, 0x24) && Free(body, 0x23) && !Unescape(body).1
    requires var escaped := body + [0x7D, 0x03];
      stream.input == noise + [0x24] + escaped + [0x23] + HexByte(Checksum(escaped)) + rest
    modifies stream
    ensures packet == Some(Unescape(body).0 + [0x23]) && stream.input == rest
    ensures stream.output == old(stream.output) + [0x2B]
  {
    EscapedArrives(noise, body, 0x03, rest);
    packet := ParseRspPacket(stream, false);
  }
}
