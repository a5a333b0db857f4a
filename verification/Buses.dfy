/** The CPP, XPB and memory-unit accessors, all sharing one expansion BAR. */
module Buses {
  import opened Numbers
  import opened Bits
  import opened RfpcCores
  import opened Chip
  import opened ExpansionBar

  // --------------------------------------------------------------------- CPP bus

  datatype CppTarget = Nbi | Mem | Pcie | Arm | Ct | Cls {
    function Id(): U8 {
      match this
      case Nbi => 1 case Mem => 7 case Pcie => 9 case Arm => 10 case Ct => 14 case Cls => 15
    }
  }

  datatype CppLength = Len32 | Len64 | NoLen {
    function Id(): U8 {
      match this
      case Len32 => 0 case Len64 => 1 case NoLen => 3
    }
  }

  lemma TargetIds()
    ensures Nbi.Id() == 1 && CppTarget.Mem.Id() == 7 && Pcie.Id() == 9 && Arm.Id() == 10
    ensures CppTarget.Ct.Id() == 14 && CppTarget.Cls.Id() == 15
    ensures Len32.Id() == 0 && Len64.Id() == 1 && NoLen.Id() == 3
  {
  }

  function MakeRequest(island: Island, target: CppTarget, action: U8, token: U8, len: CppLength,
                       address: U64, kind: Kind): (r: Request)
    ensures r.kind == kind
  {
    Request(island.Id(), target.Id(), action, token, len.Id(), address, kind)
  }

  /** Moves the window over an address; the result is the offset inside it. */
  method ConfigureExpBar(bar: ExpansionBar, r: Request) returns (o: Outcome<U64>)
    requires bar.Valid()
    modifies bar
    ensures var base := BaseOf(r.address, bar.size);
      match CfgFailure(old(bar.map_), base, bar.checks)
      case Some(f) => o == Panic(f)
      case None => (o == Ok(r.address - base) && bar.baseAddr == base &&
        bar.State() == Configured(old(bar.State()),
          Encode(old(bar.map_), r.island, r.target, r.action, r.token, base, r.len)))
  {
    bar.baseAddr := BaseOf(r.address, bar.size);
    var c := bar.ExpansionBarCfg(r.island, r.target, r.action, r.token, bar.baseAddr, r.len);
    if c.Panic? {
      return Panic(c.why);
    }
    return Ok(r.address - bar.baseAddr);
  }

  method CppRead(bar: ExpansionBar, r: Request) returns (o: Outcome<seq<U32>>)
    requires bar.Valid() && r.kind.ReadOf?
    modifies bar
    ensures match Access(old(bar.State()), bar.size, bar.checks, r)
      case Ok(result) => o == Ok(result.1) && bar.State() == result.0
      case Panic(f) => o == Panic(f)
  {
    hide Encode, BaseOf, CfgFailure;
    var offset := ConfigureExpBar(bar, r);
    if offset.Panic? {
      return Panic(offset.why);
    }
    o := bar.Read(offset.value, r.kind.length);
  }

  method CppWrite(bar: ExpansionBar, r: Request) returns (o: Outcome<()>)
    requires bar.Valid() && r.kind.WriteOf?
    modifies bar
    ensures match Access(old(bar.State()), bar.size, bar.checks, r)
      case Ok(result) => o == Ok(()) && bar.State() == result.0
      case Panic(f) => o == Panic(f)
  {
    hide Encode, BaseOf, CfgFailure;
    var offset := ConfigureExpBar(bar, r);
    if offset.Panic? {
      return Panic(offset.why);
    }
    o := bar.Write(r.kind.words, offset.value);
  }

  // ------------------------------------------------------- XPB and memory accesses

  datatype MemoryType = Emem | Ctm | ClsMem

  datatype Engine = Atomic32 | Bulk32 | Bulk64 {
    function ReadCommand(): (U8, U8) {
      match this
      case Atomic32 => (34, 0) case Bulk32 => (28, 0) case Bulk64 => (0, 0)
    }

    function WriteCommand(): (U8, U8) {
      match this
      case Atomic32 => (4, 0) case Bulk32 => (31, 0) case Bulk64 => (1, 0)
    }

    function Length(): CppLength { if this == Bulk64 then Len64 else Len32 }
  }

  /** One call of xpb_read, xpb_write, mem_read or mem_write. */
  datatype Call =
    | XpbCall(island: Island, address: U32, xpbm: bool, kind: Kind)
    | MemCall(island: Island, mem: MemoryType, engine: Engine, address64: U64, kind: Kind)

  /** The XPB address: island in bits 30:24, the global bit when going through the master. */
  function XpbAddress(island: Island, address: U32, xpbm: bool): U32
  {
    address % 0x100_0000 + island.Id() % 128 * 0x100_0000 + if xpbm then 0x8000_0000 else 0
  }

  function CallMap(c: Call): MapType { if c.XpbCall? then Bulk else Fixed }

  function CallRequest(c: Call): Request
  {
    match c
    case XpbCall(island, address, xpbm, kind) =>
      MakeRequest(if xpbm then ChipExec else island, CppTarget.Ct, 0, 0, Len32,
                  XpbAddress(island, address, xpbm), kind)
    case MemCall(island, mem, engine, address, kind) =>
      if mem.ClsMem? then
        MakeRequest(island, CppTarget.Cls, if kind.ReadOf? then 0 else 1, 0, Len32, address, kind)
      else
        var command := if kind.ReadOf? then engine.ReadCommand() else engine.WriteCommand();
        MakeRequest(island, CppTarget.Mem, command.0, command.1, engine.Length(), address, kind)
  }

  /** A call through the window. */
  function ThroughWindow(w: Window, size: nat, checks: bool, c: Call): Outcome<(Window, seq<U32>)>
    requires 0 < size
  {
    Access(w.(map_ := CallMap(c)), size, checks, CallRequest(c))
  }

  /** The same call as one bus transaction. */
  function Directly(chip: Chip, c: Call): (Chip, seq<U32>)
  {
    Transact(chip, Requested(CallMap(c), CallRequest(c)))
  }

  /** The action of a memory-unit read or write, engine by engine. */
  function MemAction(mem: MemoryType, engine: Engine, kind: Kind): nat
  {
    if mem.ClsMem? then (if kind.ReadOf? then 0 else 1)
    else if engine == Atomic32 then (if kind.ReadOf? then 34 else 4)
    else if engine == Bulk32 then (if kind.ReadOf? then 28 else 31)
    else (if kind.ReadOf? then 0 else 1)
  }

  /** The transaction of mem_read and mem_write, field by field: target 7, or 15 for the cluster's scratch
      memory; token 0; length 1 for 64-bit engines only; the address as it is. */
  function MemTxn(island: Island, mem: MemoryType, engine: Engine, address: U64, kind: Kind): (t: Txn)
    ensures t.kind == kind
  {
    Txn(island.Id(), Some(if mem.ClsMem? then 15 else 7), Some(0), Some(MemAction(mem, engine, kind)),
        if engine == Bulk64 && !mem.ClsMem? then 1 else 0, address, kind)
  }

  lemma MemTransaction(island: Island, mem: MemoryType, engine: Engine, address: U64, kind: Kind)
    ensures Requested(Fixed, CallRequest(MemCall(island, mem, engine, address, kind)))
         == MemTxn(island, mem, engine, address, kind)
  {
  }

  /** It reaches the bus as it is, and is no business of the debug modules. */
  lemma MemCallIsLogged(c: Chip, island: Island, mem: MemoryType, engine: Engine, address: U64, kind: Kind)
    ensures Directly(c, MemCall(island, mem, engine, address, kind))
         == Logged(c, MemTxn(island, mem, engine, address, kind))
  {
    MemTransaction(island, mem, engine, address, kind);
  }

  /** The transaction of xpb_read and xpb_write, field by field: target 14, token 0, no action, length 0;
      the low 24 bits of the address with the island in bits 30:24, and through the master bit 31 and island 1. */
  function XpbTxn(island: Island, address: U32, xpbm: bool, kind: Kind): (t: Txn)
    ensures t.kind == kind
  {
    Txn(if xpbm then 1 else island.Id(), Some(14), Some(0), None, 0,
        address % 0x100_0000 + island.Id() * 0x100_0000 + (if xpbm then 0x8000_0000 else 0), kind)
  }

  lemma XpbTransaction(island: Island, address: U32, xpbm: bool, kind: Kind)
    ensures Requested(Bulk, CallRequest(XpbCall(island, address, xpbm, kind))) == XpbTxn(island, address, xpbm, kind)
  {
    hide Island.Id;
    IslandIds();
    assert island.Id() < 128 by { IslandIdBound(island); }
  }

  lemma IslandIdBound(island: Island)
    ensures island.Id() < 16
  {
  }

  lemma XpbThroughWindow(w: Window, size: nat, checks: bool, island: Island, address: U32, xpbm: bool, kind: Kind)
    requires 0 < size && Coherent(w)
    ensures var r := ThroughWindow(w, size, checks, XpbCall(island, address, xpbm, kind));
      r.Ok? ==> (r.value.0.chip, r.value.1) == Transact(w.chip, XpbTxn(island, address, xpbm, kind))
  {
    hide ThroughWindow, Transact, XpbTxn, CallRequest;
    XpbTransaction(island, address, xpbm, kind);
    CallIsDirect(w, size, checks, XpbCall(island, address, xpbm, kind));
  }

  /** The request behind an XPB call. */
  lemma XpbUnfolds(w: Window, size: nat, checks: bool, island: Island, address: U32, xpbm: bool, kind: Kind)
    requires 0 < size
    ensures ThroughWindow(w, size, checks, XpbCall(island, address, xpbm, kind))
         == Access(w.(map_ := Bulk), size, checks,
                   MakeRequest(if xpbm then ChipExec else island, CppTarget.Ct, 0, 0, Len32,
                               XpbAddress(island, address, xpbm), kind))
  {
    hide Access, MakeRequest;
  }

  /** The request behind a memory-unit call. */
  lemma MemUnfolds(w: Window, size: nat, checks: bool, island: Island, mem: MemoryType, engine: Engine, address: U64,
                   kind: Kind)
    requires 0 < size
    ensures var command := if kind.ReadOf? then engine.ReadCommand() else engine.WriteCommand();
      var request := if mem.ClsMem? then MakeRequest(island, CppTarget.Cls, if kind.ReadOf? then 0 else 1, 0, Len32,
                                                     address, kind)
                     else MakeRequest(island, CppTarget.Mem, command.0, command.1, engine.Length(), address, kind);
      ThroughWindow(w, size, checks, MemCall(island, mem, engine, address, kind))
      == Access(w.(map_ := Fixed), size, checks, request)
  {
    hide Access, MakeRequest;
  }

  lemma MemThroughWindow(w: Window, size: nat, checks: bool, island: Island, mem: MemoryType, engine: Engine,
                         address: U64, kind: Kind)
    requires 0 < size && Coherent(w)
    ensures var r := ThroughWindow(w, size, checks, MemCall(island, mem, engine, address, kind));
      r.Ok? ==> (r.value.0.chip, r.value.1) == Logged(w.chip, MemTxn(island, mem, engine, address, kind))
  {
    hide ThroughWindow, Directly, Logged, MemTxn;
    CallIsDirect(w, size, checks, MemCall(island, mem, engine, address, kind));
    MemCallIsLogged(w.chip, island, mem, engine, address, kind);
  }

  method XpbRead(bar: ExpansionBar, island: Island, address: U32, length: nat, xpbm: bool)
    returns (o: Outcome<seq<U32>>)
    requires bar.Valid()
    modifies bar
    ensures match ThroughWindow(old(bar.State()), bar.size, bar.checks, XpbCall(island, address, xpbm, ReadOf(length)))
      case Ok(r) => o == Ok(r.1) && bar.State() == r.0
      case Panic(f) => o == Panic(f)
    ensures o.Ok? ==> (bar.chip, o.value) == Transact(old(bar.chip), XpbTxn(island, address, xpbm, ReadOf(length)))
  {
    hide Transact, XpbTxn, Access, ThroughWindow, MakeRequest;
    XpbThroughWindow(bar.State(), bar.size, bar.checks, island, address, xpbm, ReadOf(length));
    XpbUnfolds(bar.State(), bar.size, bar.checks, island, address, xpbm, ReadOf(length));
    if bar.map_ != Bulk {
      bar.map_ := Bulk;
    }
    var xpbAddr, target := address % 0x100_0000, island;
    xpbAddr := xpbAddr + island.Id() % 128 * 0x100_0000;
    if xpbm {
      xpbAddr := xpbAddr + 0x8000_0000;
      target := ChipExec;
    }
    assert bar.State() == old(bar.State()).(map_ := Bulk) && xpbAddr == XpbAddress(island, address, xpbm);
    o := CppRead(bar, MakeRequest(target, CppTarget.Ct, 0, 0, Len32, xpbAddr, ReadOf(length)));
  }

  method XpbWrite(bar: ExpansionBar, island: Island, address: U32, words: seq<U32>, xpbm: bool)
    returns (o: Outcome<()>)
    requires bar.Valid()
    modifies bar
    ensures match ThroughWindow(old(bar.State()), bar.size, bar.checks, XpbCall(island, address, xpbm, WriteOf(words)))
      case Ok(r) => o == Ok(()) && bar.State() == r.0
      case Panic(f) => o == Panic(f)
    ensures o.Ok? ==> bar.chip == Transact(old(bar.chip), XpbTxn(island, address, xpbm, WriteOf(words))).0
  {
    hide Transact, XpbTxn, Access, ThroughWindow, MakeRequest;
    XpbThroughWindow(bar.State(), bar.size, bar.checks, island, address, xpbm, WriteOf(words));
    XpbUnfolds(bar.State(), bar.size, bar.checks, island, address, xpbm, WriteOf(words));
    if bar.map_ != Bulk {
      bar.map_ := Bulk;
    }
    var xpbAddr, target := address % 0x100_0000, island;
    xpbAddr := xpbAddr + island.Id() % 128 * 0x100_0000;
    if xpbm {
      xpbAddr := xpbAddr + 0x8000_0000;
      target := ChipExec;
    }
    assert bar.State() == old(bar.State()).(map_ := Bulk) && xpbAddr == XpbAddress(island, address, xpbm);
    o := CppWrite(bar, MakeRequest(target, CppTarget.Ct, 0, 0, Len32, xpbAddr, WriteOf(words)));
  }

  method MemRead(bar: ExpansionBar, island: Island, mem: MemoryType, engine: Engine, address: U64, length: nat)
    returns (o: Outcome<seq<U32>>)
    requires bar.Valid()
    modifies bar
    ensures match ThroughWindow(old(bar.State()), bar.size, bar.checks,
                                MemCall(island, mem, engine, address, ReadOf(length)))
      case Ok(r) => o == Ok(r.1) && bar.State() == r.0
      case Panic(f) => o == Panic(f)
    ensures o.Ok? ==>
      (bar.chip, o.value) == Logged(old(bar.chip), MemTxn(island, mem, engine, address, ReadOf(length)))
  {
    hide Logged, MemTxn, Access, ThroughWindow, MakeRequest, Engine.ReadCommand, Engine.WriteCommand;
    MemThroughWindow(bar.State(), bar.size, bar.checks, island, mem, engine, address, ReadOf(length));
    MemUnfolds(bar.State(), bar.size, bar.checks, island, mem, engine, address, ReadOf(length));
    if bar.map_ != Fixed {
      bar.map_ := Fixed;
    }
    match mem
    case Emem | Ctm =>
      var command := engine.ReadCommand();
      o := CppRead(bar, MakeRequest(island, CppTarget.Mem, command.0, command.1, engine.Length(), address,
                                    ReadOf(length)));
    case ClsMem =>
      o := CppRead(bar, MakeRequest(island, CppTarget.Cls, 0, 0, Len32, address, ReadOf(length)));
  }

  method MemWrite(bar: ExpansionBar, island: Island, mem: MemoryType, engine: Engine, address: U64, values: seq<U32>)
    returns (o: Outcome<()>)
    requires bar.Valid()
    modifies bar
    ensures match ThroughWindow(old(bar.State()), bar.size, bar.checks,
                                MemCall(island, mem, engine, address, WriteOf(values)))
      case Ok(r) => o == Ok(()) && bar.State() == r.0
      case Panic(f) => o == Panic(f)
    ensures o.Ok? ==>
      bar.chip == Logged(old(bar.chip), MemTxn(island, mem, engine, address, WriteOf(values))).0
  {
    hide Logged, MemTxn, Access, ThroughWindow, MakeRequest, Engine.ReadCommand, Engine.WriteCommand;
    MemThroughWindow(bar.State(), bar.size, bar.checks, island, mem, engine, address, WriteOf(values));
    MemUnfolds(bar.State(), bar.size, bar.checks, island, mem, engine, address, WriteOf(values));
    if bar.map_ != Fixed {
      bar.map_ := Fixed;
    }
    match mem
    case Emem | Ctm =>
      var command := engine.WriteCommand();
      o := CppWrite(bar, MakeRequest(island, CppTarget.Mem, command.0, command.1, engine.Length(), address,
                                     WriteOf(values)));
    case ClsMem =>
      o := CppWrite(bar, MakeRequest(island, CppTarget.Cls, 1, 0, Len32, address, WriteOf(values)));
  }

  // ------------------------------------------------------------ refinement of the bus

  lemma CallIsDirect(w: Window, size: nat, checks: bool, c: Call)
    requires 0 < size && Coherent(w)
    ensures ThroughWindow(w, size, checks, c).Ok? ==>
      var (w', words) := ThroughWindow(w, size, checks, c).value;
      && Coherent(w') && w'.map_ == CallMap(c) && (w'.chip, words) == Directly(w.chip, c)
  {
    AccessIsDirect(w.(map_ := CallMap(c)), size, checks, CallRequest(c));
  }

  /** A run of calls through the one window: the final window and what each call read. */
  function RunWindow(w: Window, size: nat, checks: bool, calls: seq<Call>): Outcome<(Window, seq<seq<U32>>)>
    requires 0 < size
    decreases |calls|
  {
    if calls == [] then Ok((w, []))
    else
      var first :- ThroughWindow(w, size, checks, calls[0]);
      var rest :- RunWindow(first.0, size, checks, calls[1..]);
      Ok((rest.0, [first.1] + rest.1))
  }

  function RunDirectly(chip: Chip, calls: seq<Call>): (Chip, seq<seq<U32>>)
    decreases |calls|
  {
    if calls == [] then (chip, [])
    else
      var first := Directly(chip, calls[0]);
      var rest := RunDirectly(first.0, calls[1..]);
      (rest.0, [first.1] + rest.1)
  }

  /** Any run of the four accessors over one BAR, whatever CSR contents it found, is the same
      run of direct bus transactions. */
  lemma {:induction false} WindowRefinesBus(w: Window, size: nat, checks: bool, calls: seq<Call>)
    requires 0 < size && Coherent(w)
    ensures RunWindow(w, size, checks, calls).Ok? ==>
      var (w', words) := RunWindow(w, size, checks, calls).value;
      Coherent(w') && (w'.chip, words) == RunDirectly(w.chip, calls)
    decreases |calls|
  {
    if calls != [] {
      CallIsDirect(w, size, checks, calls[0]);
      var first := ThroughWindow(w, size, checks, calls[0]);
      if first.Ok? { WindowRefinesBus(first.value.0, size, checks, calls[1..]); }
    }
  }

  /** The base survives the CSRs exactly when the truncation check lets it through. */
  lemma LosslessIff(map_: MapType, r: Request, base: U64)
    requires !map_.Explicit? && Encodable(r) && base < 0x1_0000_0000_0000
    ensures HardwareTxn(Encode(map_, r.island, r.target, r.action, r.token, base, r.len), 0, r.kind)
         == Some(Requested(map_, r).(address := base))
       <==> base % map_.Granule() == 0
    ensures base != 0 ==>
      (CfgFailure(map_, base, true) == None <==> base % map_.Granule() == 0)
  {
    DecodeEncode(map_, r, base, 0);
  }

  // --------------------------------------------------------- when an access panics

  lemma FloorPow2By4(n: nat)
    requires n >= 4
    ensures FloorPow2(n) == 4 * FloorPow2(n / 4)
  {
    assert FloorPow2(n) == 2 * FloorPow2(n / 2) == 4 * FloorPow2(n / 2 / 2);
  }

  lemma FloorPow2By1024(n: nat)
    requires n >= 0x400
    ensures FloorPow2(n) == 0x400 * FloorPow2(n / 0x400)
  {
    FloorPow2By4(n); FloorPow2By4(n / 4); FloorPow2By4(n / 0x10); FloorPow2By4(n / 0x40); FloorPow2By4(n / 0x100);
    assert n / 4 / 4 == n / 0x10 && n / 0x10 / 4 == n / 0x40 && n / 0x40 / 4 == n / 0x100 && n / 0x100 / 4 == n / 0x400;
  }

  lemma FloorPow2By64K(n: nat)
    requires n >= 0x1_0000
    ensures FloorPow2(n) == 0x1_0000 * FloorPow2(n / 0x1_0000)
  {
    FloorPow2By1024(n);
    var m := n / 0x400;
    FloorPow2By4(m); FloorPow2By4(m / 4); FloorPow2By4(m / 0x10);
    assert m / 4 / 4 == m / 0x10 && m / 0x10 / 4 == n / 0x1_0000;
  }

  /** Rounding down to a multiple of k * t leaves a multiple of k. */
  lemma RoundedDown(x: nat, k: nat, t: nat, p: nat)
    requires k > 0 && p == t * k && p > 0
    ensures p % k == 0 && (x - x % p) % k == 0
  {
    var d := x / p;
    QuotientIs(p, k, t, 0);
    assert x - x % p == d * p == d * t * k by { assert d * (t * k) == d * t * k; }
    QuotientIs(x - x % p, k, d * t, 0);
  }

  lemma BaseWithin48(a: U64, size: nat)
    requires 0 < size && a < 0x1_0000_0000_0000
    ensures BaseOf(a, size) == a - a % FloorPow2(size)
  {
    assert a % 0x1_0000_0000_0000 == a;
  }

  /** Inside a window of at least 1 KiB a 48-bit address splits into a base the Bulk mapping
      can represent and an offset below the largest power of two. */
  lemma BulkBase(a: U64, size: nat)
    requires 0x400 <= size && a < 0x1_0000_0000_0000
    ensures var p, base := FloorPow2(size), BaseOf(a, size);
      && p % 0x400 == 0 && base % 0x400 == 0 && base == a - a % p && a % p < p
  {
    FloorPow2By1024(size);
    BaseWithin48(a, size);
    RoundedDown(a, 0x400, FloorPow2(size / 0x400), FloorPow2(size));
  }

  lemma FixedBase(a: U64, size: nat)
    requires 0x1_0000 <= size && a < 0x1_0000_0000_0000
    ensures var p, base := FloorPow2(size), BaseOf(a, size);
      base % 0x1_0000 == 0 && base == a - a % p && (base == 0 <==> a < p)
  {
    hide FloorPow2, BaseOf;
    FloorPow2By64K(size);
    BaseWithin48(a, size);
    RoundedTo64K(a, FloorPow2(size / 0x1_0000), FloorPow2(size));
  }

  lemma RoundedTo64K(a: nat, t: nat, p: nat)
    requires p == 0x1_0000 * t && p > 0
    ensures (a - a % p) % 0x1_0000 == 0 && (a - a % p == 0 <==> a < p)
  {
    RoundedDown(a, 0x1_0000, t, p);
    SmallIsItsRemainder(a, p);
  }

  lemma SmallIsItsRemainder(a: nat, p: nat)
    requires p > 0
    ensures a - a % p == 0 <==> a < p
  {
    if a < p {
      assert a % p == a;
    }
  }

  /** A one-word, word-aligned XPB access through the master never panics when the window has at
      least 1 KiB, and at most 2 GiB in a build with overflow checks. */
  lemma XpbWordNeverPanics(w: Window, size: nat, checks: bool, c: Call)
    requires c.XpbCall? && c.xpbm && c.kind.Words() == 1 && c.address % 4 == 0
    requires 0x400 <= size && (checks ==> size <= 0x8000_0000)
    ensures ThroughWindow(w, size, checks, c).Ok?
  {
    var a := CallRequest(c).address;
    assert a >= 0x8000_0000 && a % 4 == 0;
    BulkBase(a, size);
    var p := FloorPow2(size);
    assert checks ==> BaseOf(a, size) > 0 by {
      if checks { SmallIsItsRemainder(a, p); }
    }
    WordOffset(a, BaseOf(a, size), p, size);
  }

  lemma WordOffset(a: nat, base: nat, p: nat, size: nat)
    requires a % 4 == 0 && base % 0x400 == 0 && p % 0x400 == 0 && base <= a < base + p && p <= size
    ensures a - base + 4 <= size
  {
  }

  /** A memory-unit access inside a window of at least 64 KiB panics exactly when its last byte is
      past the window, or its address lies in the first block and overflow checks are on. */
  lemma MemPanicsIff(w: Window, size: nat, checks: bool, c: Call)
    requires c.MemCall? && c.address64 < 0x1_0000_0000_0000 && 0x1_0000 <= size
    ensures ThroughWindow(w, size, checks, c).Panic? <==>
      (checks && c.address64 < FloorPow2(size)) || c.address64 % FloorPow2(size) + 4 * c.kind.Words() > size
  {
    FixedBase(c.address64, size);
  }
}
