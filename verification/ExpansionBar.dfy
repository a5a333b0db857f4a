/** The expansion BAR: a movable window on the CPP bus, set up by two configuration CSRs whose
    writes are skipped when a cached copy says they would change nothing. */
module ExpansionBar {
  import opened Numbers
  import opened Bits
  import opened Chip

  datatype MapType = Fixed | Bulk | Target | General | Explicit {
    function Code(): nat {
      match this
      case Fixed => 0 case Bulk => 1 case Target => 2 case General => 3 case Explicit => 4
    }

    /** How many bits of the base address the mapping keeps. */
    function BaseWidth(): nat {
      match this
      case Fixed => 32 case Bulk => 38 case Target => 40 case General => 44 case Explicit => 32
    }

    /** 2 to the power 48 - BaseWidth(): what a representable base is a multiple of. */
    function Granule(): nat {
      match this
      case Fixed => 0x1_0000 case Bulk => 0x400 case Target => 0x100 case General => 0x10 case Explicit => 0x1_0000
    }
  }

  /** The arguments of one access: `island, target, action, token, cpp_len, address` and the data. */
  datatype Request = Request(island: U8, target: U8, action: U8, token: U8, len: U8, address: U64, kind: Kind)

  /** The fields fit their places in the CSRs. */
  predicate Encodable(r: Request)
  {
    r.island < 128 && r.target < 16 && r.action < 64 && r.token < 4 && r.len < 4
  }

  type Csrs = (U32, U32)

  // --------------------------------------------------------- the two CSR formats

  /** The CSR pair for a mapping: what the driver packs. */
  function Encode(map_: MapType, island: U8, target: U8, action: U8, token: U8, base: U64, len: U8): Csrs
  {
    var head := 0x8000_0000 + map_.Code() * 0x10_0000;
    var common := head + len % 4 * 0x1_0000 + island % 128 * 0x100_0000;
    match map_
    case Fixed =>
      (common + target % 16 * 0x1000 + token % 4 * 0x100 + action % 64, base / 0x1_0000 % 0x1_0000_0000)
    case Bulk =>
      (common + target % 16 * 0x1000 + token % 4 * 0x100 + base / 0x400_0000_0000 % 64,
       base / 0x400 % 0x1_0000_0000)
    case Target =>
      (common + target % 16 * 0x1000 + base / 0x4000_0000_0000 % 4 * 0x100 + base / 0x100_0000_0000 % 64,
       base / 0x100 % 0x1_0000_0000)
    case General =>
      (common + base / 0x1000_0000_0000 % 16 * 0x1000 + base / 0x400_0000_0000 % 4 * 0x100
       + base / 0x10_0000_0000 % 64,
       base / 0x10 % 0x1_0000_0000)
    case Explicit => (head, 0)
  }

  /** Bit 31 enables the mapping, bits 22:20 tell which; the explicit one carries nothing else. */
  lemma MapNumbers(island: U8, target: U8, action: U8, token: U8, base: U64, len: U8)
    ensures Fixed.Code() == 0 && Bulk.Code() == 1 && Target.Code() == 2 && General.Code() == 3 && Explicit.Code() == 4
    ensures Encode(Explicit, island, target, action, token, base, len) == (0x8040_0000, 0)
    ensures Fixed.BaseWidth() == 32 && Bulk.BaseWidth() == 38 && Target.BaseWidth() == 40 && General.BaseWidth() == 44
    ensures Explicit.BaseWidth() == 32
  {
  }

  /** What the hardware takes from the CSR pair: the transaction for an offset in the window. */
  function HardwareTxn(csr: Csrs, offset: nat, kind: Kind): Option<Txn>
  {
    var island, len := csr.0 / 0x100_0000 % 128, csr.0 / 0x1_0000 % 4;
    var target, token, action := csr.0 / 0x1000 % 16, csr.0 / 0x100 % 4, csr.0 % 64;
    if csr.0 / 0x8000_0000 == 0 then None
    else match csr.0 / 0x10_0000 % 8
      case 0 =>
        Some(Txn(island, Some(target), Some(token), Some(action), len, csr.1 * 0x1_0000 + offset, kind))
      case 1 =>
        Some(Txn(island, Some(target), Some(token), None, len,
                 action * 0x400_0000_0000 + csr.1 * 0x400 + offset, kind))
      case 2 =>
        Some(Txn(island, Some(target), None, None, len,
                 token * 0x4000_0000_0000 + action * 0x100_0000_0000 + csr.1 * 0x100 + offset, kind))
      case 3 =>
        Some(Txn(island, None, None, None, len,
                 target * 0x1000_0000_0000 + token * 0x400_0000_0000 + action * 0x10_0000_0000 + csr.1 * 0x10 + offset,
                 kind))
      case _ => None
  }

  /** The transaction a request asks for, without the fields its mapping does not carry. */
  function Requested(map_: MapType, r: Request): Txn
  {
    Txn(r.island,
        if map_.General? then None else Some(r.target),
        if map_.Fixed? || map_.Bulk? then Some(r.token) else None,
        if map_.Fixed? then Some(r.action) else None,
        r.len, r.address, r.kind)
  }

  lemma FieldAt8(c: nat, above: nat, f: nat, below: nat)
    requires c == above * 0x400 + f * 0x100 + below && f < 4 && below < 0x100
    ensures c / 0x100 % 4 == f
  {
    assert c / 0x100 == above * 4 + f;
  }

  lemma FieldAt12(c: nat, above: nat, f: nat, below: nat)
    requires c == above * 0x1_0000 + f * 0x1000 + below && f < 16 && below < 0x1000
    ensures c / 0x1000 % 16 == f
  {
    assert c / 0x1000 == above * 16 + f;
  }

  lemma FieldAt16(c: nat, above: nat, f: nat, below: nat)
    requires c == above * 0x4_0000 + f * 0x1_0000 + below && f < 4 && below < 0x1_0000
    ensures c / 0x1_0000 % 4 == f
  {
    assert c / 0x1_0000 == above * 4 + f;
  }

  lemma FieldAt20(c: nat, above: nat, f: nat, below: nat)
    requires c == above * 0x80_0000 + f * 0x10_0000 + below && f < 8 && below < 0x10_0000
    ensures c / 0x10_0000 % 8 == f
  {
    assert c / 0x10_0000 == above * 8 + f;
  }

  lemma FieldAt24(c: nat, f: nat, below: nat)
    requires c == 0x8000_0000 + f * 0x100_0000 + below && f < 128 && below < 0x100_0000
    ensures c / 0x100_0000 % 128 == f && c / 0x8000_0000 == 1
  {
    assert c / 0x100_0000 == 128 + f;
  }

  /** The fields of the first CSR do not overlap, so or-ing them together keeps each one. */
  lemma PackedFields(c: nat, m: nat, island: nat, len: nat, t: nat, k: nat, a: nat)
    requires m < 8 && island < 128 && len < 4 && t < 16 && k < 4 && a < 64
    requires c == 0x8000_0000 + m * 0x10_0000 + len * 0x1_0000 + island * 0x100_0000 + t * 0x1000 + k * 0x100 + a
    ensures c / 0x8000_0000 == 1 && c / 0x10_0000 % 8 == m && c / 0x100_0000 % 128 == island
    ensures c / 0x1_0000 % 4 == len && c / 0x1000 % 16 == t && c / 0x100 % 4 == k && c % 64 == a
  {
    FieldAt8(c, 0x20_0000 + m * 0x400 + len * 0x40 + island * 0x4000 + t * 4, k, a);
    FieldAt12(c, 0x8000 + m * 0x10 + len + island * 0x100, t, k * 0x100 + a);
    FieldAt16(c, 0x2000 + m * 4 + island * 0x40, len, t * 0x1000 + k * 0x100 + a);
    FieldAt20(c, 0x100 + island * 2, m, len * 0x1_0000 + t * 0x1000 + k * 0x100 + a);
    FieldAt24(c, island, m * 0x10_0000 + len * 0x1_0000 + t * 0x1000 + k * 0x100 + a);
    assert c == 64 * (0x200_0000 + m * 0x4000 + len * 0x400 + island * 0x4_0000 + t * 0x40 + k * 4) + a;
  }

  lemma DecodeFixed(r: Request, base: U64, offset: nat)
    requires Encodable(r) && base < 0x1_0000_0000_0000
    ensures HardwareTxn(Encode(Fixed, r.island, r.target, r.action, r.token, base, r.len), offset, r.kind)
         == Some(Requested(Fixed, r).(address := base - base % Fixed.Granule() + offset))
  {
    var c := Encode(Fixed, r.island, r.target, r.action, r.token, base, r.len).0;
    PackedFields(c, 0, r.island, r.len, r.target, r.token, r.action);
  }

  lemma DecodeBulk(r: Request, base: U64, offset: nat)
    requires Encodable(r) && base < 0x1_0000_0000_0000
    ensures HardwareTxn(Encode(Bulk, r.island, r.target, r.action, r.token, base, r.len), offset, r.kind)
         == Some(Requested(Bulk, r).(address := base - base % Bulk.Granule() + offset))
  {
    var c := Encode(Bulk, r.island, r.target, r.action, r.token, base, r.len).0;
    PackedFields(c, 1, r.island, r.len, r.target, r.token, base / 0x400_0000_0000);
    SplitBulk(base);
  }

  lemma DecodeTarget(r: Request, base: U64, offset: nat)
    requires Encodable(r) && base < 0x1_0000_0000_0000
    ensures HardwareTxn(Encode(Target, r.island, r.target, r.action, r.token, base, r.len), offset, r.kind)
         == Some(Requested(Target, r).(address := base - base % Target.Granule() + offset))
  {
    var c := Encode(Target, r.island, r.target, r.action, r.token, base, r.len).0;
    PackedFields(c, 2, r.island, r.len, r.target, base / 0x4000_0000_0000,
                 base / 0x100_0000_0000 % 64);
    SplitTarget(base);
  }

  lemma DecodeGeneral(r: Request, base: U64, offset: nat)
    requires Encodable(r) && base < 0x1_0000_0000_0000
    ensures HardwareTxn(Encode(General, r.island, r.target, r.action, r.token, base, r.len), offset, r.kind)
         == Some(Requested(General, r).(address := base - base % General.Granule() + offset))
  {
    var c := Encode(General, r.island, r.target, r.action, r.token, base, r.len).0;
    PackedFields(c, 3, r.island, r.len, base / 0x1000_0000_0000,
                 base / 0x400_0000_0000 % 4, base / 0x10_0000_0000 % 64);
    SplitGeneral(base);
  }

  /** The hardware recovers every carried field, and the base up to its granule. */
  lemma DecodeEncode(map_: MapType, r: Request, base: U64, offset: nat)
    requires !map_.Explicit? && Encodable(r) && base < 0x1_0000_0000_0000
    ensures HardwareTxn(Encode(map_, r.island, r.target, r.action, r.token, base, r.len), offset, r.kind)
         == Some(Requested(map_, r).(address := base - base % map_.Granule() + offset))
  {
    match map_
    case Fixed => DecodeFixed(r, base, offset);
    case Bulk => DecodeBulk(r, base, offset);
    case Target => DecodeTarget(r, base, offset);
    case General => DecodeGeneral(r, base, offset);
  }

  lemma SplitBulk(base: nat)
    ensures base - base % 0x400 == base / 0x400_0000_0000 * 0x400_0000_0000 + base / 0x400 % 0x1_0000_0000 * 0x400
  {
    assert base / 0x400 / 0x1_0000_0000 == base / 0x400_0000_0000;
  }

  lemma SplitTarget(base: nat)
    ensures base - base % 0x100 == base / 0x4000_0000_0000 * 0x4000_0000_0000
                                   + base / 0x100_0000_0000 % 64 * 0x100_0000_0000
                                   + base / 0x100 % 0x1_0000_0000 * 0x100
  {
    assert base / 0x100 / 0x1_0000_0000 == base / 0x100_0000_0000;
    assert base / 0x100_0000_0000 / 64 == base / 0x4000_0000_0000;
  }

  lemma SplitGeneral(base: nat)
    ensures base - base % 0x10 == base / 0x1000_0000_0000 * 0x1000_0000_0000
                                  + base / 0x400_0000_0000 % 4 * 0x400_0000_0000
                                  + base / 0x10_0000_0000 % 64 * 0x10_0000_0000
                                  + base / 0x10 % 0x1_0000_0000 * 0x10
  {
    assert base / 0x10 / 0x1_0000_0000 == base / 0x10_0000_0000;
    assert base / 0x10_0000_0000 / 64 == base / 0x400_0000_0000;
    assert base / 0x400_0000_0000 / 4 == base / 0x1000_0000_0000;
  }

  // -------------------------------------------------------------- configuration

  /** Why a configuration is refused; a zero base underflows a u32 subtraction, which panics
      exactly in builds with overflow checks. */
  function CfgFailure(map_: MapType, base: U64, checks: bool): Option<Failure>
  {
    if map_.Explicit? then None
    else if base >= 0x1_0000_0000_0000 then Some(BaseTooLong)
    else if base == 0 then (if checks then Some(Overflow) else None)
    else if base % map_.Granule() != 0 then Some(Truncated)
    else None
  }

  /** The window's whole state: driver fields, CSRs in the device, and the chip behind it. */
  datatype Window = Window(map_: MapType, cached: Csrs, csr: Csrs, chip: Chip)

  /** The CSR write and its cache. */
  function Configured(w: Window, cfg: Csrs): Window
  {
    if cfg != w.cached then w.(cached := cfg, csr := cfg) else w
  }

  /** Nothing was ever configured, or the cache tells what the device holds. */
  predicate Coherent(w: Window)
  {
    w.cached == (0, 0) || w.cached == w.csr
  }

  /** A load or store in the mapped region. */
  function Touch(w: Window, offset: nat, kind: Kind): (r: (Window, seq<U32>))
    ensures |r.1| == if kind.ReadOf? then kind.length else 0
  {
    match HardwareTxn(w.csr, offset, kind)
    case Some(t) =>
      var (chip, words) := Transact(w.chip, t);
      (w.(chip := chip), words)
    case None => (w, if kind.ReadOf? then seq(kind.length, _ => 0xFFFF_FFFF) else [])
  }

  /** The base of the window that covers an address: `address & (2^48 - 2^k)`. */
  function BaseOf(address: U64, size: nat): (base: U64)
    requires 0 < size
    ensures base <= address && base < 0x1_0000_0000_0000
  {
    address % 0x1_0000_0000_0000 - address % 0x1_0000_0000_0000 % FloorPow2(size)
  }

  /** One access through the window: configure, check the bounds, touch the mapped region. */
  function Access(w: Window, size: nat, checks: bool, r: Request): Outcome<(Window, seq<U32>)>
    requires 0 < size
  {
    var base := BaseOf(r.address, size);
    match CfgFailure(w.map_, base, checks)
    case Some(f) => Panic(f)
    case None =>
      var cfg := Encode(w.map_, r.island, r.target, r.action, r.token, base, r.len);
      if r.address - base + 4 * r.kind.Words() > size then Panic(OutOfWindow)
      else Ok(Touch(Configured(w, cfg), r.address - base, r.kind))
  }

  /** What an access can panic of: the base cannot be represented, or the window is left. */
  predicate OffWindow(why: Failure) { why in {BaseTooLong, Overflow, Truncated, OutOfWindow} }

  lemma AccessFailures(w: Window, size: nat, checks: bool, r: Request)
    requires 0 < size
    ensures Access(w, size, checks, r).Panic? ==> OffWindow(Access(w, size, checks, r).why)
  {
  }

  /** The window refines the bus: whatever was configured before, an access that does not panic is
      exactly the requested transaction, and the cache stays truthful. */
  lemma AccessIsDirect(w: Window, size: nat, checks: bool, r: Request)
    requires 0 < size && Coherent(w) && !w.map_.Explicit? && Encodable(r)
    ensures Access(w, size, checks, r).Ok? ==>
      var (w', words) := Access(w, size, checks, r).value;
      && Coherent(w') && w'.map_ == w.map_
      && (w'.chip, words) == Transact(w.chip, Requested(w.map_, r))
  {
    hide Encode, HardwareTxn, Transact, BaseOf;
    if Access(w, size, checks, r).Ok? {
      var base := BaseOf(r.address, size);
      var cfg := Encode(w.map_, r.island, r.target, r.action, r.token, base, r.len);
      assert cfg != (0, 0) by { Enabled(w.map_, r, base); }
      assert Configured(w, cfg).csr == cfg;
      DecodeEncode(w.map_, r, base, r.address - base);
      assert base % w.map_.Granule() == 0;
    }
  }

  lemma Enabled(map_: MapType, r: Request, base: U64)
    ensures Encode(map_, r.island, r.target, r.action, r.token, base, r.len).0 >= 0x8000_0000
  {
  }

  class ExpansionBar {
    const size: nat
    const checks: bool   // built with overflow checks
    var map_: MapType
    var cached0: U32
    var cached1: U32
    var baseAddr: U64
    var csr0: U32        // the CSRs in the device
    var csr1: U32
    var chip: Chip

    ghost function State(): Window
      reads this
    {
      Window(map_, (cached0, cached1), (csr0, csr1), chip)
    }

    ghost predicate Valid()
      reads this
    {
      0 < size < 0x2_0000_0000_0000 && Coherent(State())
    }

    /** The CSRs hold whatever an earlier user left there. */
    constructor (size: nat, checks: bool, chip: Chip, csr0: U32, csr1: U32)
      requires 0 < size < 0x2_0000_0000_0000
      ensures Valid() && this.size == size && this.checks == checks
      ensures State() == Window(Fixed, (0, 0), (csr0, csr1), chip) && baseAddr == 0
    {
      this.size, this.checks := size, checks;
      map_, cached0, cached1, baseAddr := Fixed, 0, 0, 0;
      this.csr0, this.csr1, this.chip := csr0, csr1, chip;
    }

    /** The CSR pair goes to the device only when it differs from the cached one. */
    method WriteIfChanged(cfg0: U32, cfg1: U32)
      modifies this`cached0, this`cached1, this`csr0, this`csr1
      ensures State() == Configured(old(State()), (cfg0, cfg1))
    {
      if cfg0 != cached0 || cfg1 != cached1 {
        csr0, csr1 := cfg0, cfg1;
        cached0, cached1 := cfg0, cfg1;
      }
    }

    method ExpansionBarCfg(island: U8, target: U8, action: U8, token: U8, base: U64, len: U8)
      returns (o: Outcome<()>)
      modifies this`cached0, this`cached1, this`csr0, this`csr1
      ensures match CfgFailure(map_, base, checks)
        case Some(f) => o == Panic(f) && State() == old(State())
        case None => (o == Ok(()) &&
          State() == Configured(old(State()), Encode(map_, island, target, action, token, base, len)))
    {
      var cfg0: nat, cfg1: nat := 0, 0;
      cfg0 := cfg0 + 0x8000_0000;                  // enable bit
      cfg0 := cfg0 + map_.Code() * 0x10_0000;      // map type
      if map_ == Explicit {
        WriteIfChanged(cfg0, cfg1);
        return Ok(());
      }

      BitLengthBound(base, 48);
      Pow2UpTo48();
      if BitLength(base) > 48 {
        return Panic(BaseTooLong);
      }

      var width := map_.BaseWidth();
      var lowest := LowestBit(base);
      var bitLength := BitLength(lowest);
      LowBitsCheck(base, map_);
      if bitLength == 0 && checks {
        return Panic(Overflow);                    // bit_length - 1 on a u32
      }
      // Without overflow checks bit_length - 1 wraps to 2^32 - 1, which is in no range below.
      if bitLength != 0 && 0 <= bitLength - 1 < 48 - width {
        return Panic(Truncated);
      }

      cfg0, cfg1 := PackFields(cfg0, island, target, action, token, base, len);
      WriteIfChanged(cfg0, cfg1);
      return Ok(());
    }

    /** The field-packing half of the configuration, from the mode head on. */
    method PackFields(head: U32, island: U8, target: U8, action: U8, token: U8, base: U64, len: U8)
      returns (cfg0: nat, cfg1: nat)
      requires !map_.Explicit? && head == 0x8000_0000 + map_.Code() * 0x10_0000
      ensures (cfg0, cfg1) == Encode(map_, island, target, action, token, base, len)
    {
      cfg0 := head;
      PackedIsEncoded(map_, base);
      var idx := 48;                               // position in the base address
      cfg0 := cfg0 + len % 4 * 0x1_0000;
      cfg0 := cfg0 + island % 128 * 0x100_0000;

      // target, or base bits 47:44
      if map_ == General {
        cfg0 := cfg0 + Shr(base, idx - 4) % 16 * 0x1000;
        idx := idx - 4;
      } else {
        cfg0 := cfg0 + target % 16 * 0x1000;
      }

      // token, or the next two base bits
      if map_ == Fixed || map_ == Bulk {
        cfg0 := cfg0 + token % 4 * 0x100;
      } else {
        cfg0 := cfg0 + Shr(base, idx - 2) % 4 * 0x100;
        idx := idx - 2;
      }

      // action, or the next six base bits
      if map_ == Fixed {
        cfg0 := cfg0 + action % 64;
      } else {
        cfg0 := cfg0 + Shr(base, idx - 6) % 64;
        idx := idx - 6;
      }

      cfg1 := Shr(base, idx - 32) % 0x1_0000_0000;
    }

    method Read(offset: nat, length: nat) returns (o: Outcome<seq<U32>>)
      modifies this`chip
      ensures if offset + 4 * length > size then o == Panic(OutOfWindow) && State() == old(State())
              else o.Ok? && (State(), o.value) == Touch(old(State()), offset, ReadOf(length))
    {
      if offset + 4 * length > size {
        return Panic(OutOfWindow);
      }
      match HardwareTxn((csr0, csr1), offset, ReadOf(length))
      case Some(t) =>
        var r := Transact(chip, t);
        chip := r.0;
        return Ok(r.1);
      case None =>
        return Ok(seq(length, _ => 0xFFFF_FFFF));
    }

    method Write(words: seq<U32>, offset: nat) returns (o: Outcome<()>)
      modifies this`chip
      ensures if offset + 4 * |words| > size then o == Panic(OutOfWindow) && State() == old(State())
              else o == Ok(()) && State() == Touch(old(State()), offset, WriteOf(words)).0
    {
      if offset + 4 * |words| > size {
        return Panic(OutOfWindow);
      }
      match HardwareTxn((csr0, csr1), offset, WriteOf(words)) {
        case Some(t) => chip := Transact(chip, t).0;
        case None =>
      }
      return Ok(());
    }
  }

  /** The lowest-set-bit test refuses exactly the bases that are not a multiple of the granule. */
  lemma LowBitsCheck(base: U64, map_: MapType)
    requires !map_.Explicit?
    ensures base == 0 <==> BitLength(LowestBit(base)) == 0
    ensures base != 0 ==>
      (BitLength(LowestBit(base)) - 1 < 48 - map_.BaseWidth() <==> base % map_.Granule() != 0)
  {
    if base != 0 {
      TrailingZeros(base, 48 - map_.BaseWidth());
      Pow2UpTo16();
    }
  }

  /** The shifts of the packing code, as divisions. */
  lemma PackedIsEncoded(map_: MapType, base: U64)
    ensures map_.Fixed? ==> Shr(base, 16) == base / 0x1_0000
    ensures map_.Bulk? ==> Shr(base, 42) == base / 0x400_0000_0000 && Shr(base, 10) == base / 0x400
    ensures map_.Target? ==> Shr(base, 46) == base / 0x4000_0000_0000 && Shr(base, 40) == base / 0x100_0000_0000
                             && Shr(base, 8) == base / 0x100
    ensures map_.General? ==> Shr(base, 44) == base / 0x1000_0000_0000 && Shr(base, 42) == base / 0x400_0000_0000
                              && Shr(base, 36) == base / 0x10_0000_0000 && Shr(base, 4) == base / 0x10
  {
    Pow2UpTo16();
    Pow2UpTo48();
    ShrDivides(base, 4); ShrDivides(base, 8); ShrDivides(base, 10); ShrDivides(base, 16); ShrDivides(base, 36);
    ShrDivides(base, 40); ShrDivides(base, 42); ShrDivides(base, 44); ShrDivides(base, 46);
  }
}
