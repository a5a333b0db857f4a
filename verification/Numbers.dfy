/** Machine integers and their little-endian byte forms. */
module Numbers {

  type U8 = x: int | 0 <= x < 0x100
  type U32 = x: int | 0 <= x < 0x1_0000_0000
  type U64 = x: int | 0 <= x < 0x1_0000_0000_0000_0000
  type Bytes = seq<U8>

  /** How a run of the program ends early: the Rust code panics. */
  datatype Failure =
    | Timeout
    | BaseTooLong
    | Truncated
    | Overflow
    | OutOfWindow
    | NotStepped
    | NoBreakpointHit
    | BadPacket
    | UnknownRegister
    | UnknownThread
    | UnknownBreakpoint

  datatype Outcome<+T> = Ok(value: T) | Panic(why: Failure) {
    predicate IsFailure() { Panic? }

    function PropagateFailure<U>(): Outcome<U>
      requires Panic?
    {
      Panic(why)
    }

    function Extract(): T
      requires Ok?
    {
      value
    }
  }

  datatype Option<+T> = None | Some(value: T)

  lemma Associative<T>(a: seq<T>, b: seq<T>, c: seq<T>)
    ensures a + b + c == a + (b + c)
  {
  }

  // ---------------------------------------------------------------- halves

  function Lo(v: U64): U32 { v % 0x1_0000_0000 }

  function Hi(v: U64): U32 { v / 0x1_0000_0000 }

  function Join(hi: U32, lo: U32): (v: U64)
    ensures Lo(v) == lo && Hi(v) == hi
  {
    hi * 0x1_0000_0000 + lo
  }

  // ---------------------------------------------------------- single bits

  /** Whether the bit with weight m is set in v. */
  predicate Has(v: nat, m: nat)
    requires m > 0
  {
    v / m % 2 == 1
  }

  /** `v | m` for a single-bit mask m. */
  function SetBit(v: nat, m: nat): nat
    requires m > 0
  {
    if Has(v, m) then v else v + m
  }

  /** `v & !m` for a single-bit mask m. */
  function ClearBit(v: nat, m: nat): (r: nat)
    requires m > 0
    ensures r <= v
  {
    if Has(v, m) then v - m else v
  }

  // --------------------------------------------------- little-endian bytes

  function Pow256(n: nat): nat { if n == 0 then 1 else 256 * Pow256(n - 1) }

  /** The n low-order bytes of v, least significant first. */
  function LE(v: nat, n: nat): (bs: Bytes)
    ensures |bs| == n
  {
    if n == 0 then [] else [v % 256] + LE(v / 256, n - 1)
  }

  function FromLE(bs: Bytes): nat
  {
    if bs == [] then 0 else bs[0] + 256 * FromLE(bs[1..])
  }

  lemma {:induction false} FromLEBound(bs: Bytes)
    ensures FromLE(bs) < Pow256(|bs|)
  {
    if bs != [] {
      FromLEBound(bs[1..]);
    }
  }

  lemma {:induction false} FromLEOfLE(v: nat, n: nat)
    requires v < Pow256(n)
    ensures FromLE(LE(v, n)) == v
  {
    if n != 0 {
      FromLEOfLE(v / 256, n - 1);
      assert LE(v, n)[1..] == LE(v / 256, n - 1);
    }
  }

  lemma {:induction false} LEOfFromLE(bs: Bytes)
    ensures LE(FromLE(bs), |bs|) == bs
  {
    if bs != [] {
      LEOfFromLE(bs[1..]);
      assert FromLE(bs) % 256 == bs[0] && FromLE(bs) / 256 == FromLE(bs[1..]);
    }
  }

  lemma Pow256Of8()
    ensures Pow256(8) == 0x1_0000_0000_0000_0000 && Pow256(4) == 0x1_0000_0000
  {
    assert Pow256(2) == 65536;
    assert Pow256(4) == 65536 * Pow256(2);
    assert Pow256(6) == 65536 * Pow256(4);
    assert Pow256(8) == 65536 * Pow256(6);
  }

  /** The value of eight little-endian bytes. */
  function WordOf(bs: Bytes): U64
    requires |bs| == 8
  {
    FromLEBound(bs);
    Pow256Of8();
    FromLE(bs)
  }

  lemma WordRoundTrip(v: U64)
    ensures WordOf(LE(v, 8)) == v
  {
    Pow256Of8();
    FromLEOfLE(v, 8);
  }

  lemma BytesRoundTrip(bs: Bytes)
    requires |bs| == 8
    ensures LE(WordOf(bs), 8) == bs
  {
    LEOfFromLE(bs);
  }

  // ------------------------------------------- slices of bytes as u64 words

  /** `cast_slice::<u64, u8>` on a little-endian machine. */
  function BytesOfWords(ws: seq<U64>): (bs: Bytes)
    ensures |bs| == 8 * |ws|
  {
    if ws == [] then [] else BytesOfWords(ws[..|ws| - 1]) + LE(ws[|ws| - 1], 8)
  }

  /** `cast_slice::<u8, u64>` on a little-endian machine; it panics on a ragged tail. */
  function WordsOfBytes(bs: Bytes): (ws: seq<U64>)
    requires |bs| % 8 == 0
    ensures |ws| == |bs| / 8
  {
    if bs == [] then [] else WordsOfBytes(bs[..|bs| - 8]) + [WordOf(bs[|bs| - 8..])]
  }

  lemma {:induction false} CastRoundTrip(bs: Bytes)
    requires |bs| % 8 == 0
    ensures BytesOfWords(WordsOfBytes(bs)) == bs
  {
    if bs != [] {
      var front, back := bs[..|bs| - 8], bs[|bs| - 8..];
      CastRoundTrip(front);
      BytesRoundTrip(back);
      var ws := WordsOfBytes(bs);
      assert ws[..|ws| - 1] == WordsOfBytes(front) && ws[|ws| - 1] == WordOf(back);
      assert bs == front + back;
    }
  }

  // ------------------------------------------------------------ byte order

  function Reverse(bs: Bytes): (r: Bytes)
    ensures |r| == |bs|
    ensures forall i :: 0 <= i < |bs| ==> r[i] == bs[|bs| - 1 - i]
  {
    if bs == [] then [] else Reverse(bs[1..]) + [bs[0]]
  }

  lemma ReverseTwice(bs: Bytes)
    ensures Reverse(Reverse(bs)) == bs
  {
    forall i | 0 <= i < |bs|
      ensures Reverse(Reverse(bs))[i] == bs[i]
    {
    }
  }

  /** `u64::swap_bytes`. */
  function SwapBytes(v: U64): U64 { WordOf(Reverse(LE(v, 8))) }

  lemma SwapTwice(v: U64)
    ensures SwapBytes(SwapBytes(v)) == v
  {
    BytesRoundTrip(Reverse(LE(v, 8)));
    ReverseTwice(LE(v, 8));
    WordRoundTrip(v);
  }
}
