/** Hexadecimal and decimal text, as the stub prints and parses it. */
module Hex {
  import opened Numbers

  /** The ASCII code of a character of a literal. */
  function Code(c: char): U8
  {
    if c as int < 0x80 then c as int else '?' as int
  }

  /** The bytes of an ASCII literal. */
  function Ascii(s: string): (bs: Bytes)
    ensures |bs| == |s|
  {
    seq(|s|, i requires 0 <= i < |s| => Code(s[i]))
  }

  // ------------------------------------------------------------- printing

  type Nibble = x: int | 0 <= x < 16

  /** The lower-case digit of one nibble. */
  function Digit(n: Nibble): U8
  {
    if n < 10 then 0x30 + n else 0x61 + (n - 10)
  }

  /** `{:02x}` of a byte. */
  function HexByte(b: U8): (h: Bytes)
    ensures |h| == 2
  {
    [Digit(b / 16), Digit(b % 16)]
  }

  /** `{:02x}` of every byte, in order. */
  function HexBytes(bs: Bytes): (h: Bytes)
    ensures |h| == 2 * |bs|
  {
    if bs == [] then [] else HexBytes(bs[..|bs| - 1]) + HexByte(bs[|bs| - 1])
  }

  lemma DigitCodes(n: Nibble)
    ensures Digit(n) == "0123456789abcdef"[n] as int
  {
  }

  lemma {:induction false} HexAt(bs: Bytes, i: nat)
    requires i < |bs|
    ensures HexBytes(bs)[2 * i] == Digit(bs[i] / 16) && HexBytes(bs)[2 * i + 1] == Digit(bs[i] % 16)
  {
    if i < |bs| - 1 { HexAt(bs[..|bs| - 1], i); }
  }

  /** Two lower-case digits for every byte, the high one first. */
  lemma HexText(bs: Bytes, i: nat)
    requires i < |bs|
    ensures var digits := "0123456789abcdef";
      HexBytes(bs)[2 * i] == digits[bs[i] / 16] as int && HexBytes(bs)[2 * i + 1] == digits[bs[i] % 16] as int
  {
    HexAt(bs, i);
    DigitCodes(bs[i] / 16);
    DigitCodes(bs[i] % 16);
  }

  /** Different bytes have different hex. */
  lemma {:induction false} HexDetermines(a: Bytes, b: Bytes)
    requires HexBytes(a) == HexBytes(b)
    ensures a == b
  {
    if a != [] {
      var n := |a| - 1;
      var h := HexBytes(a);
      assert h[..2 * n] == HexBytes(a[..n]) && h[..2 * n] == HexBytes(b[..n]);
      assert h[2 * n..] == HexByte(a[n]) && h[2 * n..] == HexByte(b[n]);
      assert h[2 * n] == Digit(a[n] / 16) == Digit(b[n] / 16);
      assert h[2 * n + 1] == Digit(a[n] % 16) == Digit(b[n] % 16);
      HexDetermines(a[..n], b[..n]);
      assert a == a[..n] + [a[n]] && b == b[..n] + [b[n]];
    }
  }

  /** The n low-order hex digits of v: `{:0nx}` when v fits in n digits. */
  function HexNumber(v: nat, n: nat): (h: Bytes)
    ensures |h| == n
  {
    if n == 0 then [] else HexNumber(v / 16, n - 1) + [Digit(v % 16)]
  }

  lemma Nibbles(v: nat)
    ensures v / 16 / 16 == v / 256 && v % 256 / 16 == v / 16 % 16 && v % 256 % 16 == v % 16
  {
  }

  lemma LastTwoDigits(v: nat, n: nat)
    ensures HexNumber(v, n + 2) == HexNumber(v / 256, n) + HexByte(v % 256)
  {
    Nibbles(v);
    assert HexNumber(v, n + 2) == HexNumber(v / 16, n + 1) + [Digit(v % 16)];
    assert HexNumber(v / 16, n + 1) == HexNumber(v / 16 / 16, n) + [Digit(v / 16 % 16)];
  }

  lemma LastByte(v: nat, n: nat)
    requires n > 0
    ensures Reverse(LE(v, n)) == Reverse(LE(v / 256, n - 1)) + [v % 256]
  {
    assert LE(v, n)[1..] == LE(v / 256, n - 1);
  }

  lemma HexSnoc(bs: Bytes, b: U8)
    ensures HexBytes(bs + [b]) == HexBytes(bs) + HexByte(b)
  {
    assert (bs + [b])[..|bs|] == bs;
  }

  /** Hex digits of v are the hex of its bytes, most significant byte first. */
  lemma {:induction false} HexNumberIsBigEndian(v: nat, n: nat)
    ensures HexNumber(v, 2 * n) == HexBytes(Reverse(LE(v, n)))
  {
    if n != 0 {
      HexNumberIsBigEndian(v / 256, n - 1);
      LastByte(v, n);
      HexSnoc(Reverse(LE(v / 256, n - 1)), v % 256);
      LastTwoDigits(v, 2 * (n - 1));
    }
  }

  /** `format!("{:016x}", v.swap_bytes())`. */
  function HexSwapped(v: U64): (h: Bytes)
    ensures |h| == 16
  {
    HexNumber(SwapBytes(v), 16)
  }

  /** The stub's register format is the hex of the register's little-endian bytes. */
  lemma HexSwappedIsLittleEndian(v: U64)
    ensures HexSwapped(v) == HexBytes(LE(v, 8))
  {
    HexNumberIsBigEndian(SwapBytes(v), 8);
    BytesRoundTrip(Reverse(LE(v, 8)));
    ReverseTwice(LE(v, 8));
  }

  // -------------------------------------------------------------- parsing

  /** The value of a digit below the radix, in either letter case. */
  function DigitValue(c: U8, radix: nat): Option<nat>
  {
    var v: int :=
      if 0x30 <= c <= 0x39 then c - 0x30
      else if 0x61 <= c <= 0x7A then c - 0x61 + 10
      else if 0x41 <= c <= 0x5A then c - 0x41 + 10
      else radix;
    if 0 <= v < radix then Some(v) else None
  }

  function Digits(s: Bytes, radix: nat): Option<nat>
  {
    if s == [] then Some(0)
    else match (Digits(s[..|s| - 1], radix), DigitValue(s[|s| - 1], radix))
      case (Some(v), Some(d)) => Some(v * radix + d)
      case _ => None
  }

  /** Rust's `from_str_radix` on an unsigned type with the given number of values:
      one optional '+', at least one digit, and the result must fit. */
  function FromStrRadix(s: Bytes, radix: nat, values: nat): (r: Option<nat>)
    ensures r.Some? ==> r.value < values
  {
    var digits := if s != [] && s[0] == Code('+') then s[1..] else s;
    if digits == [] then None
    else match Digits(digits, radix)
      case Some(v) => if v < values then Some(v) else None
      case None => None
  }

  function ParseU64(s: Bytes): (r: Option<U64>) {
    match FromStrRadix(s, 16, 0x1_0000_0000_0000_0000)
    case Some(v) => Some(v)
    case None => None
  }

  // ---------------------------------------------------------- round trips

  lemma DigitRoundTrip(n: Nibble)
    ensures DigitValue(Digit(n), 16) == Some(n)
    ensures Digit(n) != Code('+') && Digit(n) != Code(',') && Digit(n) != Code(':') && Digit(n) != Code('=')
    ensures Digit(n) != Code('#') && Digit(n) != Code('$') && Digit(n) != Code('}')
  {
  }

  function Pow16(n: nat): nat { if n == 0 then 1 else 16 * Pow16(n - 1) }

  lemma {:induction false} DigitsOfHexNumber(v: nat, n: nat)
    requires v < Pow16(n)
    ensures Digits(HexNumber(v, n), 16) == Some(v)
  {
    if n != 0 {
      DigitsOfHexNumber(v / 16, n - 1);
      DigitRoundTrip(v % 16);
      var h := HexNumber(v, n);
      assert h[..n - 1] == HexNumber(v / 16, n - 1) && h[n - 1] == Digit(v % 16);
    }
  }

  /** Printing in n hex digits and parsing gives the number back. */
  lemma ParseHexNumber(v: U64, n: nat)
    requires 0 < n && v < Pow16(n)
    ensures ParseU64(HexNumber(v, n)) == Some(v)
  {
    DigitsOfHexNumber(v, n);
    var h := HexNumber(v, n);
    HexNumberIsDigits(v, n);
    assert h[0] != Code('+');
  }

  lemma HexNumberIsDigits(v: nat, n: nat)
    requires 0 < n
    ensures forall i :: 0 <= i < n ==> exists d: Nibble :: HexNumber(v, n)[i] == Digit(d)
  {
    if n > 1 {
      HexNumberIsDigits(v / 16, n - 1);
    }
    forall i | 0 <= i < n
      ensures exists d: Nibble :: HexNumber(v, n)[i] == Digit(d)
    {
      var h := HexNumber(v, n);
      assert h == HexNumber(v / 16, n - 1) + [Digit(v % 16)];
      if i == n - 1 {
        assert h[i] == Digit(v % 16);
      } else {
        assert h[i] == HexNumber(v / 16, n - 1)[i];
      }
    }
  }

  /** What a number may look like: digits of the radix in either letter case, a '+' in front or not, and nothing
      else. */
  lemma NumberTexts(s: Bytes, c: U8, radix: nat, values: nat)
    requires radix in {10, 16} && s != [] && s[0] != 0x2B
    ensures FromStrRadix([0x2B] + s, radix, values) == FromStrRadix(s, radix, values)
    ensures FromStrRadix([], radix, values) == FromStrRadix([0x2B], radix, values) == None
    ensures DigitValue(c, radix) ==
      if 0x30 <= c <= 0x39 then Some(c - 0x30)
      else if radix == 16 && 0x61 <= c <= 0x66 then Some(c - 0x57)
      else if radix == 16 && 0x41 <= c <= 0x46 then Some(c - 0x37)
      else None
  {
    assert ([0x2B] + s)[1..] == s;
  }

  /** Most significant digit first. */
  lemma DigitsSnoc(s: Bytes, c: U8, radix: nat)
    ensures var v, d := Digits(s, radix), DigitValue(c, radix);
      Digits(s + [c], radix) == if v.Some? && d.Some? then Some(v.value * radix + d.value) else None
  {
    assert (s + [c])[..|s|] == s;
  }
}
