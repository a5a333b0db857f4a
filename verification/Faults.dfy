/** What the driver does once a debug module has recorded an error, which it never looks at nor clears. */
module Faults {
  import opened Numbers
  import opened DebugModule
  import opened RfpcCores
  import opened Commands
  import opened RunControl

  /** One call of the driver, for any hart of the module. */
  datatype Op =
    | ReadReg(h: nat, reg: nat)
    | WriteReg(h: nat, reg: nat, value: U64)
    | ReadMem(h: nat, address: nat, n: nat)
    | WriteMem(h: nat, address: nat, data: seq<U64>)
    | Halt(h: nat)
    | GoOn(h: nat, go: Go)
  {
    predicate Valid() {
      h < HARTS &&
      match this
      case ReadReg(_, reg) => reg < REGISTERS
      case WriteReg(_, reg, _) => reg < REGISTERS
      case ReadMem(_, address, n) => Fits(address, 8 * n)
      case WriteMem(_, address, data) => Fits(address, 8 * |data|)
      case _ => true
    }
  }

  /** What a call returns; Refused is the panic of a step or continue that met the wrong halt cause. */
  datatype Answer = Value(v: U64) | Words(words: seq<U64>) | Nothing | Refused

  /** A call of the driver, by its steps. */
  function Do(dm: Dm, op: Op): (r: (Dm, Answer))
    requires dm.pending.Idle? && op.Valid()
    ensures r.0.pending.Idle?
  {
    match op
    case ReadReg(h, reg) => var (d, v) := ReadSteps(dm, h, reg); (d, Value(v))
    case WriteReg(h, reg, v) => (WriteSteps(dm, h, reg, v), Nothing)
    case ReadMem(h, address, n) => var (d, ws) := ReadMemorySteps(dm, h, address, n); (d, Words(ws))
    case WriteMem(h, address, data) => (WriteMemorySteps(dm, h, address, data), Nothing)
    case Halt(h) => (HaltSteps(dm, h), Nothing)
    case GoOn(h, go) => var (d, ok) := GoSteps(go, dm, h); (d, if ok then Nothing else Refused)
  }

  predicate Valid(ops: seq<Op>) { forall op :: op in ops ==> op.Valid() }

  /** A run of calls, up to the first panic. */
  function DoAll(dm: Dm, ops: seq<Op>): (Dm, seq<Answer>)
    requires dm.pending.Idle? && Valid(ops)
    decreases |ops|
  {
    if ops == [] then (dm, [])
    else
      assert ops[0] in ops;
      var (d, a) := Do(dm, ops[0]);
      if a.Refused? then (d, [a])
      else
        var (d', rest) := DoAll(d, ops[1..]);
        (d', [a] + rest)
  }

  // ------------------------------------------------------------- a single 64-bit cell

  function Addresses(address: nat, n: nat): (ws: seq<U64>)
    requires Fits(address, 8 * n)
    ensures |ws| == n
  {
    seq(n, i requires 0 <= i < n => address + 8 * i)
  }

  /** The same call on a device that is nothing but one cell: every register, of every hart, is the cell, a
      memory read returns the addresses asked for, a memory write does nothing, and a step or continue sees
      in the cell the very dcsr it has written there. */
  function OnCell(cell: U64, op: Op): (U64, Answer)
    requires op.Valid()
  {
    match op
    case ReadReg(_, _) => (cell, Value(cell))
    case WriteReg(_, _, v) => (v, Nothing)
    case ReadMem(_, address, n) => (cell, Words(Addresses(address, n)))
    case WriteMem(_, _, _) => (cell, Nothing)
    case Halt(_) => (cell, Nothing)
    case GoOn(_, go) =>
      if HaltCause(go.Arm(cell)) != go.Cause() then (go.Arm(cell), Refused)
      else (go.Disarm(go.Arm(cell)), Nothing)
  }

  /** All that reaches the harts: a stop, and a resume with dcsr as it is. */
  function OnCore(c: Core, op: Op): Core
    requires op.Valid()
  {
    match op
    case Halt(h) => Stopped(c, h)
    case GoOn(h, _) => Back(c, h)
    case _ => c
  }

  function AllOnCell(cell: U64, ops: seq<Op>): seq<Answer>
    requires Valid(ops)
    decreases |ops|
  {
    if ops == [] then []
    else
      assert ops[0] in ops;
      var (cell', a) := OnCell(cell, ops[0]);
      if a.Refused? then [a] else [a] + AllOnCell(cell', ops[1..])
  }

  function AllOnCore(c: Core, ops: seq<Op>): Core
    requires Valid(ops)
  {
    if ops == [] then c
    else
      assert ops[|ops| - 1] in ops;
      OnCore(AllOnCore(c, ops[..|ops| - 1]), ops[|ops| - 1])
  }

  /** The module with an error, its data registers holding the cell. */
  ghost predicate Dead(dm: Dm, cell: U64) { dm.pending.Idle? && dm.cmderr != 0 && Data(dm) == cell }

  lemma ReadOfDead(dm: Dm, h: nat, reg: nat, cell: U64)
    requires Dead(dm, cell) && h < HARTS && reg < REGISTERS
    ensures var (d, v) := ReadSteps(dm, h, reg);
      Dead(d, cell) && v == cell && d.core == dm.core && d.cmderr == dm.cmderr && d.misused == dm.misused
  {
    ReadStepsGive(dm, h, reg);
  }

  lemma LoadOfDead(dm: Dm, a: U64)
    requires dm.pending.Idle? && dm.cmderr != 0
    ensures var d := LoadWord(dm, a);
      Dead(d, a) && d.core == dm.core && d.cmderr == dm.cmderr && d.misused == dm.misused
  {
    hide Commanded;
    var d := PutData(dm, a).(progbuf0 := 0x53503);
    CommandIgnored(d, 0x37_100A);
    CommandIgnored(d, 0x32_100A);
  }

  lemma {:induction false} LoadsOfDead(dm: Dm, address: nat, n: nat)
    requires dm.pending.Idle? && dm.cmderr != 0 && Fits(address, 8 * n)
    ensures var (d, words) := LoadSteps(dm, address, n);
      && d.cmderr == dm.cmderr && d.core == dm.core && d.misused == dm.misused && words == Addresses(address, n)
    decreases n
  {
    hide LoadWord;
    if n != 0 {
      LoadsOfDead(dm, address, n - 1);
      LoadOfDead(LoadSteps(dm, address, n - 1).0, address + 8 * (n - 1));
      assert Addresses(address, n) == Addresses(address, n - 1) + [address + 8 * (n - 1)];
    }
  }

  lemma StoreOfDead(dm: Dm, a: U64, w: U64)
    requires dm.pending.Idle? && dm.cmderr != 0
    ensures var d := StoreWord(dm, a, w); d.core == dm.core && d.cmderr == dm.cmderr && d.misused == dm.misused
  {
    hide Commanded;
    CommandIgnored(PutData(dm, w), 0x33_100B);
    CommandIgnored(PutData(PutData(dm, w), a).(progbuf0 := 0xB5_3023), 0x37_100A);
  }

  lemma {:induction false} StoresOfDead(dm: Dm, address: nat, data: seq<U64>)
    requires dm.pending.Idle? && dm.cmderr != 0 && Fits(address, 8 * |data|)
    ensures var d := StoreSteps(dm, address, data);
      d.core == dm.core && d.cmderr == dm.cmderr && d.misused == dm.misused
    decreases |data|
  {
    hide StoreWord;
    if data != [] {
      var n := |data| - 1;
      StoresOfDead(dm, address, data[..n]);
      StoreOfDead(StoreSteps(dm, address, data[..n]), address + 8 * n, data[n]);
    }
  }

  lemma MemoryOfDead(dm: Dm, h: nat, address: nat, n: nat, data: seq<U64>, cell: U64)
    requires Dead(dm, cell) && h < HARTS && Fits(address, 8 * n) && Fits(address, 8 * |data|)
    ensures var (d, words) := ReadMemorySteps(dm, h, address, n);
      && Dead(d, cell) && words == Addresses(address, n)
      && d.core == dm.core && d.cmderr == dm.cmderr && d.misused == dm.misused
    ensures var d := WriteMemorySteps(dm, h, address, data);
      Dead(d, cell) && d.core == dm.core && d.cmderr == dm.cmderr && d.misused == dm.misused
  {
    hide ReadSteps, WriteSteps, LoadSteps, StoreSteps;
    var d1 := ReadSteps(dm, h, A0).0;
    ReadOfDead(dm, h, A0, cell);
    LoadsOfDead(d1, address, n);
    WriteToDead(LoadSteps(d1, address, n).0, h, A0, cell);
    var d2 := ReadSteps(d1, h, A1).0;
    ReadOfDead(d1, h, A1, cell);
    StoresOfDead(d2, address, data);
    var d3 := StoreSteps(d2, address, data);
    WriteToDead(d3, h, A0, cell);
    WriteToDead(WriteSteps(d3, h, A0, cell), h, A1, cell);
  }

  lemma GoOfDead(dm: Dm, h: nat, go: Go, cell: U64)
    requires Dead(dm, cell) && h < HARTS
    ensures var (d, ok) := GoSteps(go, dm, h); var (cell', a) := OnCell(cell, GoOn(h, go));
      && Dead(d, cell') && (ok <==> a == Nothing) && d.core == Back(dm.core, h)
      && d.cmderr == dm.cmderr && d.misused == dm.misused
  {
    hide ReadSteps, WriteSteps, Back;
    var d1 := ReadSteps(dm, h, DCSR).0;
    ReadOfDead(dm, h, DCSR, cell);
    var d2 := WriteSteps(d1, h, DCSR, go.Arm(cell));
    WriteToDead(d1, h, DCSR, go.Arm(cell));
    var back := d2.(hartsel := h, core := Back(d2.core, h));
    ReadOfDead(back, h, DCSR, go.Arm(cell));
    WriteToDead(ReadSteps(back, h, DCSR).0, h, DCSR, go.Disarm(go.Arm(cell)));
  }

  lemma DoOnDead(dm: Dm, op: Op, cell: U64)
    requires Dead(dm, cell) && op.Valid()
    ensures var (d, a) := Do(dm, op); var (cell', a') := OnCell(cell, op);
      && Dead(d, cell') && a == a' && d.core == OnCore(dm.core, op)
      && d.cmderr == dm.cmderr && d.misused == dm.misused
  {
    hide ReadSteps, WriteSteps, ReadMemorySteps, WriteMemorySteps, GoSteps;
    match op
    case ReadReg(h, reg) => ReadOfDead(dm, h, reg, cell);
    case WriteReg(h, reg, v) => WriteToDead(dm, h, reg, v);
    case ReadMem(h, address, n) => MemoryOfDead(dm, h, address, n, [], cell);
    case WriteMem(h, address, data) => MemoryOfDead(dm, h, address, 0, data, cell);
    case Halt(h) =>
    case GoOn(h, go) => GoOfDead(dm, h, go, cell);
  }

  /** Once a command has failed the whole module is one cell to the driver: over every run of its calls, for
      whatever harts, a register read returns the last value written to any register, or the data registers
      as they were if there was none, and nothing is ever stored; only stops and resumes reach the harts,
      with dcsr unarmed; and the error stays. */
  lemma {:induction false} DeadModuleIsACell(dm: Dm, ops: seq<Op>, cell: U64)
    requires Dead(dm, cell) && Valid(ops)
    ensures var (d, answers) := DoAll(dm, ops);
      && answers == AllOnCell(cell, ops) && |answers| <= |ops|
      && d.core == AllOnCore(dm.core, ops[..|answers|]) && d.cmderr == dm.cmderr && d.misused == dm.misused
    decreases |ops|
  {
    hide Do, OnCell, OnCore;
    if ops != [] {
      assert ops[0] in ops;
      DoOnDead(dm, ops[0], cell);
      var (d, a) := Do(dm, ops[0]);
      var rest := ops[1..];
      if a.Refused? {
        FirstOnCore(dm.core, ops[0], []);
        assert [ops[0]] + [] == ops[..1];
      } else {
        DeadModuleIsACell(d, rest, OnCell(cell, ops[0]).0);
        var n := |DoAll(d, rest).1|;
        FirstOnCore(dm.core, ops[0], rest[..n]);
        assert [ops[0]] + rest[..n] == ops[..n + 1];
      }
    }
  }

  lemma {:induction false} FirstOnCore(c: Core, op: Op, ops: seq<Op>)
    requires op.Valid() && Valid(ops)
    ensures Valid([op] + ops) && AllOnCore(c, [op] + ops) == AllOnCore(OnCore(c, op), ops)
  {
    var all := [op] + ops;
    if ops == [] {
      assert all[..0] == [];
    } else {
      var n := |ops| - 1;
      FirstOnCore(c, op, ops[..n]);
      assert all[..n + 1] == [op] + ops[..n] && all[n + 1] == ops[n];
    }
  }

  /** In particular nothing a client writes is stored, and yet the next read of any register of any hart
      answers with it. */
  lemma WriteSeemsToSucceed(dm: Dm, h: nat, reg: nat, v: U64, h': nat, reg': nat)
    requires dm.pending.Idle? && dm.cmderr != 0 && h < HARTS && reg < REGISTERS && h' < HARTS && reg' < REGISTERS
    ensures var d := WriteSteps(dm, h, reg, v); d.core == dm.core && ReadSteps(d, h', reg').1 == v
  {
    WriteToDead(dm, h, reg, v);
    ReadOfDead(WriteSteps(dm, h, reg, v), h', reg', v);
  }
}
