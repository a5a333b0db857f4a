/** What runs of Z0 and z0 do to memory, away from the CTM. */
module Breakpoints {
  import opened Numbers
  import opened DebugModule
  import opened Commands
  import opened Debugger
  import opened Chip
  import opened Buses
  import opened Handlers

  // -------------------------------------------------------------- one breakpoint

  /** The bytes of ebreak. */
  function EbreakByte(i: nat): U8
    requires i < 4
  {
    if i == 0 then 0x73 else if i == 2 then 0x10 else 0
  }

  /** Memory with ebreak at m. */
  function Plant(mem: Memory, m: U32): (r: Memory)
    ensures forall x :: 0 <= x < |r| ==> r[x] == if m <= x < m + 4 then EbreakByte(x - m) else mem[x]
  {
    mem[..m] + [0x73, 0, 0x10, 0] + mem[m + 4..]
  }

  lemma {:induction false} LESum(hi: nat, lo: nat, m: nat, n: nat, p: nat)
    requires p == Pow256(m) && lo < p
    ensures LE(hi * p + lo, m + n) == LE(lo, m) + LE(hi, n)
  {
    if m != 0 {
      var q := Pow256(m - 1);
      assert hi * p == 256 * (hi * q);
      var v := 256 * (hi * q) + lo;
      assert v % 256 == lo % 256 && v / 256 == hi * q + lo / 256;
      LESum(hi, lo / 256, m - 1, n, q);
    }
  }

  lemma LEHalves(hi: nat, lo: nat, n: nat)
    requires n == 4 && lo < 0x1_0000_0000
    ensures LE(hi * 0x1_0000_0000 + lo, n + n) == LE(lo, n) + LE(hi, n)
  {
    assert Pow256(4) == 0x1_0000_0000;
    LESum(hi, lo, n, n, 0x1_0000_0000);
  }

  lemma LEJoin(hi: U32, lo: U32)
    ensures LE(Join(hi, lo), 8) == LE(lo, 4) + LE(hi, 4)
  {
    LEHalves(hi, lo, 4);
  }

  lemma EbreakBytes()
    ensures LE(0x0010_0073, 4) == [0x73, 0, 0x10, 0]
  {
    assert LE(0x0010_0073, 4) == [0x73] + LE(0x1000, 3);
    assert LE(0x1000, 3) == [0] + LE(0x10, 2);
    assert LE(0x10, 2) == [0x10] + LE(0, 1);
    assert LE(0, 1) == [0] + LE(0, 0);
  }

  lemma PatchedBytes(word: U64)
    ensures LE(WithEbreak(word), 8) == [0x73, 0, 0x10, 0] + LE(word, 8)[4..]
  {
    assert word == Join(Hi(word), Lo(word));
    LEJoin(Hi(word), Lo(word));
    LEJoin(Hi(word), 0x0010_0073);
    EbreakBytes();
  }

  /** Storing the patched word changes the four bytes of the instruction and nothing else. */
  lemma PatchIsPlant(mem: Memory, m: U32)
    ensures Poke(mem, m, LE(WithEbreak(WordOf(Peek(mem, m, 8))), 8)) == Plant(mem, m)
  {
    var window := Peek(mem, m, 8);
    PatchedBytes(WordOf(window));
    BytesRoundTrip(window);
    StoreIsPlant(mem, m, [0x73, 0, 0x10, 0] + window[4..]);
  }

  lemma StoreIsPlant(mem: Memory, m: U32, bs: Bytes)
    requires bs == [0x73, 0, 0x10, 0] + Peek(mem, m, 8)[4..]
    ensures Poke(mem, m, bs) == Plant(mem, m)
  {
  }

  /** Writing back a window saved from orig. */
  lemma WriteBack(orig: Memory, m: U32, mem: Memory)
    ensures var r := Poke(mem, m, LE(WordOf(Peek(orig, m, 8)), 8));
      forall x :: 0 <= x < |r| ==> r[x] == if m <= x < m + 8 then orig[x] else mem[x]
  {
    BytesRoundTrip(Peek(orig, m, 8));
  }

  // ------------------------------------------------------------ runs of Z0 and z0

  datatype Op = Set(address: U64) | Clear(address: U64)

  type Table = map<U64, U64>

  function Apply(s: Server, op: Op): Result
    requires s.Valid()
  {
    match op
    case Set(a) => SetResult(s, a)
    case Clear(a) => ClearResult(s, a)
  }

  function RunOps(s: Server, ops: seq<Op>): Result
    requires s.Valid()
    decreases |ops|
  {
    if ops == [] then Done(s, None)
    else match Apply(s, ops[0])
      case Done(s1, _) => RunOps(s1, ops[1..])
      case other => other
  }

  /** The table and the memory are all that a breakpoint away from the CTM changes; None: the stub
      dies for lack of a table entry. */
  function ApplyMem(t: Table, mem: Memory, op: Op): Option<(Table, Memory)>
  {
    var m := Masked(op.address);
    match op
    case Set(a) => Some((t[a := WordOf(Peek(mem, m, 8))], Plant(mem, m)))
    case Clear(a) => if a in t then Some((t - {a}, Poke(mem, m, LE(t[a], 8)))) else None
  }

  function RunMem(t: Table, mem: Memory, ops: seq<Op>): Option<(Table, Memory)>
    decreases |ops|
  {
    if ops == [] then Some((t, mem))
    else match ApplyMem(t, mem, ops[0])
      case None => None
      case Some((t1, mem1)) => RunMem(t1, mem1, ops[1..])
  }

  function WithMem(s: Server, t: Table, mem: Memory): (s': Server)
    requires s.Valid()
    ensures s'.Valid() && s'.breakpoints == t && s'.Hart() == s.Hart().(mem := mem)
  {
    s.(breakpoints := t).WithHart(s.Hart().(mem := mem))
  }

  lemma WithMemTwice(s: Server, t: Table, mem: Memory, t': Table, mem': Memory)
    requires s.Valid()
    ensures WithMem(WithMem(s, t, mem), t', mem') == WithMem(s, t', mem')
    ensures WithMem(s, s.breakpoints, s.Hart().mem) == s
  {
    var h, h' := s.Hart().(mem := mem), s.Hart().(mem := mem');
    TwiceAt(s.Core(), s.Index(), h, h');
    var c, c' := WithHartAt(s.Core(), s.Index(), h), WithHartAt(s.Core(), s.Index(), h');
    assert s.machine.cores[DmIdOf(s.rfpc) := c][DmIdOf(s.rfpc) := c'] == s.machine.cores[DmIdOf(s.rfpc) := c'];
    Unchanged(s.Core(), s.Index());
    assert s.machine.cores[DmIdOf(s.rfpc) := s.Core()] == s.machine.cores;
  }

  lemma ApplyIsApplyMem(s: Server, op: Op)
    requires s.Valid() && s.Halted() && !IsCtm(op.address)
    ensures match ApplyMem(s.breakpoints, s.Hart().mem, op)
      case None => Apply(s, op) == Dies
      case Some((t, mem)) => Apply(s, op) == Says(WithMem(s, t, mem), "OK")
  {
    PatchIsPlant(s.Hart().mem, Masked(op.address));
  }

  /** A run of Z0 and z0 on one core changes its memory and the table as RunMem says, and nothing
      else: no register, no other hart, no bus transaction. */
  lemma {:induction false} RunOpsIsRunMem(s: Server, ops: seq<Op>)
    requires s.Valid() && s.Halted() && forall op :: op in ops ==> !IsCtm(op.address)
    ensures RunMem(s.breakpoints, s.Hart().mem, ops).None? ==> RunOps(s, ops) == Dies
    ensures RunMem(s.breakpoints, s.Hart().mem, ops).Some? ==>
      var (t, mem) := RunMem(s.breakpoints, s.Hart().mem, ops).value;
      RunOps(s, ops).Done? && RunOps(s, ops).server == WithMem(s, t, mem)
    decreases |ops|
  {
    if ops == [] {
      WithMemTwice(s, s.breakpoints, s.Hart().mem, s.breakpoints, s.Hart().mem);
    } else {
      assert ops[0] in ops;
      ApplyIsApplyMem(s, ops[0]);
      var first := ApplyMem(s.breakpoints, s.Hart().mem, ops[0]);
      if first.Some? {
        var (t1, mem1) := first.value;
        RunOpsIsRunMem(WithMem(s, t1, mem1), ops[1..]);
        var last := RunMem(t1, mem1, ops[1..]);
        if last.Some? { WithMemTwice(s, t1, mem1, last.value.0, last.value.1); }
      }
    }
  }

  // ------------------------------------------------- breakpoints 8 bytes apart, any order

  /** The saved windows of two addresses do not touch. */
  predicate Apart(a: U64, b: U64)
  {
    Masked(a) + 8 <= Masked(b) || Masked(b) + 8 <= Masked(a)
  }

  /** The byte x is one of the eight from m on. */
  predicate InWindowOf(m: U32, x: nat) { m <= x < m + 8 }

  lemma ApartIff(a: U64, b: U64)
    ensures Apart(a, b) <==> forall x :: InWindowOf(Masked(a), x) ==> !InWindowOf(Masked(b), x)
  {
    if !Apart(a, b) {
      var x: nat := if Masked(a) < Masked(b) then Masked(b) else Masked(a);
      assert InWindowOf(Masked(a), x) && InWindowOf(Masked(b), x);
    }
  }

  /** Every address set is 8 bytes from all those set at the time (so none is set twice). */
  ghost predicate Spaced(keys: set<U64>, ops: seq<Op>)
    decreases |ops|
  {
    ops == [] ||
    match ops[0]
    case Set(a) => (forall b :: b in keys ==> Apart(a, b)) && Spaced(keys + {a}, ops[1..])
    case Clear(a) => Spaced(keys - {a}, ops[1..])
  }

  ghost predicate Covered(t: Table, x: nat)
  {
    exists a :: a in t && Masked(a) <= x < Masked(a) + 4
  }

  /** Memory is the original with ebreak at exactly the table's addresses, and the table holds the
      original windows. */
  ghost predicate Overlaid(orig: Memory, t: Table, mem: Memory)
  {
    && (forall a, b :: a in t && b in t && a != b ==> Apart(a, b))
    && (forall a :: a in t ==> t[a] == WordOf(Peek(orig, Masked(a), 8)))
    && (forall a, i :: a in t && 0 <= i < 4 ==> mem[Masked(a) + i] == EbreakByte(i))
    && (forall x :: 0 <= x < |mem| && !Covered(t, x) ==> mem[x] == orig[x])
  }

  lemma SetKeepsOverlay(orig: Memory, t: Table, mem: Memory, a: U64)
    requires Overlaid(orig, t, mem) && forall b :: b in t ==> Apart(a, b)
    ensures var (t', mem') := ApplyMem(t, mem, Set(a)).value; Overlaid(orig, t', mem')
  {
    var m := Masked(a);
    var (t', mem') := ApplyMem(t, mem, Set(a)).value;
    forall i: int | m <= i < m + 8 ensures !Covered(t, i) {}
    assert Peek(mem, m, 8) == Peek(orig, m, 8);
    forall x | 0 <= x < |mem'| && !Covered(t', x)
      ensures mem'[x] == orig[x]
    {
      assert a in t';
      assert forall b :: b in t ==> b in t';
      assert !Covered(t, x);
    }
  }

  lemma ClearKeepsOverlay(orig: Memory, t: Table, mem: Memory, a: U64)
    requires Overlaid(orig, t, mem) && a in t
    ensures var (t', mem') := ApplyMem(t, mem, Clear(a)).value; Overlaid(orig, t', mem')
  {
    var m := Masked(a);
    var t', mem' := t - {a}, Poke(mem, m, LE(t[a], 8));
    WriteBack(orig, m, mem);
    forall b, i | b in t' && 0 <= i < 4
      ensures mem'[Masked(b) + i] == EbreakByte(i)
    {
      assert b in t && b != a && Apart(a, b);
      assert mem'[Masked(b) + i] == mem[Masked(b) + i];
    }
    forall x | 0 <= x < |mem'| && !Covered(t', x)
      ensures mem'[x] == orig[x]
    {
      if !(m <= x < m + 8) { UncoveredBefore(t, a, x); }
    }
  }

  lemma UncoveredBefore(t: Table, a: U64, x: nat)
    requires !Covered(t - {a}, x) && !(Masked(a) <= x < Masked(a) + 8)
    ensures !Covered(t, x)
  {
    assert forall b :: b in t && b != a ==> b in t - {a};
  }

  /** Whatever the order of setting and clearing, memory is always the original with ebreak at
      exactly the table's addresses. */
  lemma {:induction false} OverlayHolds(orig: Memory, t: Table, mem: Memory, ops: seq<Op>)
    requires Overlaid(orig, t, mem) && Spaced(t.Keys, ops) && RunMem(t, mem, ops).Some?
    ensures var (t', mem') := RunMem(t, mem, ops).value; Overlaid(orig, t', mem')
    decreases |ops|
  {
    if ops != [] {
      match ops[0] {
        case Set(a) => SetKeepsOverlay(orig, t, mem, a);
        case Clear(a) => ClearKeepsOverlay(orig, t, mem, a);
      }
      var (t1, mem1) := ApplyMem(t, mem, ops[0]).value;
      assert t1.Keys == match ops[0] case Set(a) => t.Keys + {a} case Clear(a) => t.Keys - {a};
      OverlayHolds(orig, t1, mem1, ops[1..]);
    }
  }

  /** Once every breakpoint is cleared, memory is byte for byte what it was. */
  lemma AllClearedRestores(mem: Memory, ops: seq<Op>)
    requires Spaced({}, ops) && RunMem(map[], mem, ops).Some? && RunMem(map[], mem, ops).value.0 == map[]
    ensures RunMem(map[], mem, ops).value.1 == mem
  {
    var none: Table := map[];
    assert none.Keys == {};
    OverlayHolds(mem, none, mem, ops);
    var mem' := RunMem(none, mem, ops).value.1;
    forall x | 0 <= x < |mem| ensures mem'[x] == mem[x] { assert !Covered(none, x); }
  }

  /** Every address cleared is set at the time. */
  ghost predicate ClearsWhatIsSet(keys: set<U64>, ops: seq<Op>)
    decreases |ops|
  {
    ops == [] ||
    match ops[0]
    case Set(a) => ClearsWhatIsSet(keys + {a}, ops[1..])
    case Clear(a) => a in keys && ClearsWhatIsSet(keys - {a}, ops[1..])
  }

  /** The addresses set in the end. */
  ghost function SetInTheEnd(keys: set<U64>, ops: seq<Op>): set<U64>
    decreases |ops|
  {
    if ops == [] then keys
    else match ops[0]
      case Set(a) => SetInTheEnd(keys + {a}, ops[1..])
      case Clear(a) => SetInTheEnd(keys - {a}, ops[1..])
  }

  /** The stub survives a run exactly when it clears nothing that is not set. */
  lemma {:induction false} SurvivesIff(t: Table, mem: Memory, ops: seq<Op>)
    ensures RunMem(t, mem, ops).Some? <==> ClearsWhatIsSet(t.Keys, ops)
    ensures RunMem(t, mem, ops).Some? ==> RunMem(t, mem, ops).value.0.Keys == SetInTheEnd(t.Keys, ops)
    decreases |ops|
  {
    if ops != [] {
      var first := ApplyMem(t, mem, ops[0]);
      if first.Some? {
        var (t1, mem1) := first.value;
        assert t1.Keys == match ops[0] case Set(a) => t.Keys + {a} case Clear(a) => t.Keys - {a};
        SurvivesIff(t1, mem1, ops[1..]);
      }
    }
  }

  // ----------------------------------------------------- last set, first cleared

  /** A properly nested script: set, the scripts in between, clear, and what follows. */
  datatype Nest = Empty | Around(address: U64, inner: Nest, next: Nest) {
    function Ops(): seq<Op> {
      match this
      case Empty => []
      case Around(a, inner, next) => [Set(a)] + inner.Ops() + [Clear(a)] + next.Ops()
    }

    /** No address is set while it is set. */
    ghost predicate Distinct(keys: set<U64>) {
      match this
      case Empty => true
      case Around(a, inner, next) => a !in keys && inner.Distinct(keys + {a}) && next.Distinct(keys)
    }
  }

  lemma {:induction false} RunMemAppend(t: Table, mem: Memory, a: seq<Op>, b: seq<Op>)
    ensures RunMem(t, mem, a + b) ==
      match RunMem(t, mem, a)
      case None => None
      case Some((t1, mem1)) => RunMem(t1, mem1, b)
    decreases |a|
  {
    if a == [] {
      assert a + b == b;
    } else {
      assert (a + b)[0] == a[0] && (a + b)[1..] == a[1..] + b;
      var first := ApplyMem(t, mem, a[0]);
      if first.Some? { RunMemAppend(first.value.0, first.value.1, a[1..], b); }
    }
  }

  lemma RunMemOne(t: Table, mem: Memory, op: Op)
    ensures RunMem(t, mem, [op]) == ApplyMem(t, mem, op)
  {
    assert [op][1..] == [];
  }

  lemma PutBack(t: Table, mem: Memory, a: U64)
    requires a !in t
    ensures var (t1, mem1) := ApplyMem(t, mem, Set(a)).value; ApplyMem(t1, mem1, Clear(a)) == Some((t, mem))
  {
    var m := Masked(a);
    var (t1, mem1) := ApplyMem(t, mem, Set(a)).value;
    WriteBack(mem, m, mem1);
    assert t1 - {a} == t;
    assert Poke(mem1, m, LE(t1[a], 8)) == mem;
  }

  /** A nested script restores memory and table byte for byte, however its 8-byte windows overlap. */
  lemma {:induction false} NestedRestores(t: Table, mem: Memory, n: Nest)
    requires n.Distinct(t.Keys)
    ensures RunMem(t, mem, n.Ops()) == Some((t, mem))
    decreases n
  {
    match n
    case Empty =>
    case Around(a, inner, next) =>
      var (t1, mem1) := ApplyMem(t, mem, Set(a)).value;
      assert t1.Keys == t.Keys + {a};
      NestedRestores(t1, mem1, inner);
      NestedRestores(t, mem, next);
      PutBack(t, mem, a);
      RunMemOne(t, mem, Set(a));
      RunMemOne(t1, mem1, Clear(a));
      RunMemAppend(t, mem, [Set(a)], inner.Ops());
      RunMemAppend(t, mem, [Set(a)] + inner.Ops(), [Clear(a)]);
      RunMemAppend(t, mem, [Set(a)] + inner.Ops() + [Clear(a)], next.Ops());
  }

  // ----------------------------------------------------------- when it goes wrong

  /** First set, first cleared. */
  function Fifo(a: U64, b: U64): seq<Op> { [Set(a), Set(b), Clear(a), Clear(b)] }

  lemma FifoMemory(t: Table, mem: Memory, a: U64, b: U64)
    requires a != b && a !in t && b !in t
    ensures RunMem(t, mem, Fifo(a, b)).Some?
    ensures var (t', r) := RunMem(t, mem, Fifo(a, b)).value;
      && t' == t
      && forall x :: 0 <= x < |r| ==>
           r[x] == if Masked(b) <= x < Masked(b) + 8 then Plant(mem, Masked(a))[x] else mem[x]
  {
    var (t1, mem1) := ApplyMem(t, mem, Set(a)).value;
    var (t2, mem2) := ApplyMem(t1, mem1, Set(b)).value;
    var (t3, mem3) := ApplyMem(t2, mem2, Clear(a)).value;
    WriteBack(mem, Masked(a), mem2);
    WriteBack(mem1, Masked(b), mem3);
    var (t4, mem4) := ApplyMem(t3, mem3, Clear(b)).value;
    assert t4 == t;
    RunFour(t, mem, Set(a), Set(b), Clear(a), Clear(b));
  }

  lemma RunFour(t: Table, mem: Memory, o1: Op, o2: Op, o3: Op, o4: Op)
    requires ApplyMem(t, mem, o1).Some?
    requires var r1 := ApplyMem(t, mem, o1).value; ApplyMem(r1.0, r1.1, o2).Some?
    requires var r1 := ApplyMem(t, mem, o1).value; var r2 := ApplyMem(r1.0, r1.1, o2).value;
      ApplyMem(r2.0, r2.1, o3).Some?
    ensures var r1 := ApplyMem(t, mem, o1).value; var r2 := ApplyMem(r1.0, r1.1, o2).value;
      var r3 := ApplyMem(r2.0, r2.1, o3).value; RunMem(t, mem, [o1, o2, o3, o4]) == ApplyMem(r3.0, r3.1, o4)
  {
    var r1 := ApplyMem(t, mem, o1).value;
    var r2 := ApplyMem(r1.0, r1.1, o2).value;
    var r3 := ApplyMem(r2.0, r2.1, o3).value;
    assert [o1, o2, o3, o4][1..] == [o2, o3, o4] && [o2, o3, o4][1..] == [o3, o4] && [o3, o4][1..] == [o4];
    assert RunMem(t, mem, [o1, o2, o3, o4]) == RunMem(r1.0, r1.1, [o2, o3, o4]);
    assert RunMem(r1.0, r1.1, [o2, o3, o4]) == RunMem(r2.0, r2.1, [o3, o4]);
    assert RunMem(r2.0, r2.1, [o3, o4]) == RunMem(r3.0, r3.1, [o4]);
    RunMemOne(r3.0, r3.1, o4);
  }

  /** Two breakpoints cleared in the order they were set leave memory as it was exactly when the
      second window takes in nothing of the first ebreak that differs from the original. */
  lemma FifoRestoresIff(t: Table, mem: Memory, a: U64, b: U64)
    requires a != b && a !in t && b !in t
    ensures RunMem(t, mem, Fifo(a, b)) == Some((t, mem)) <==>
      forall i :: 0 <= i < 4 && Masked(b) <= Masked(a) + i < Masked(b) + 8 ==> mem[Masked(a) + i] == EbreakByte(i)
  {
    FifoMemory(t, mem, a, b);
    var r := RunMem(t, mem, Fifo(a, b)).value.1;
    if forall i :: 0 <= i < 4 && Masked(b) <= Masked(a) + i < Masked(b) + 8 ==> mem[Masked(a) + i] == EbreakByte(i) {
      forall x | 0 <= x < |r| ensures r[x] == mem[x] {
        if Masked(b) <= x < Masked(b) + 8 && Masked(a) <= x < Masked(a) + 4 {
          var i := x - Masked(a);
          assert mem[Masked(a) + i] == EbreakByte(i);
        }
      }
      assert r == mem;
    } else {
      var i :| 0 <= i < 4 && Masked(b) <= Masked(a) + i < Masked(b) + 8 && mem[Masked(a) + i] != EbreakByte(i);
      assert r[Masked(a) + i] == EbreakByte(i) != mem[Masked(a) + i];
    }
  }

  /** ebreak stands at m. */
  predicate Planted(mem: Memory, m: U32) { forall i: nat :: i < 4 ==> mem[m + i] == EbreakByte(i) }

  /** The first of two breakpoints is cleared while the second is set. */
  function FirstGoes(a: U64, b: U64): seq<Op> { [Set(a), Set(b), Clear(a)] }

  /** The second is then still in the table and in memory. */
  predicate SecondStays(t: Table, mem: Memory, a: U64, b: U64)
  {
    var run := RunMem(t, mem, FirstGoes(a, b));
    run.Some? && b in run.value.0 && Planted(run.value.1, Masked(b))
  }

  lemma FirstGoesMemory(t: Table, mem: Memory, a: U64, b: U64)
    requires a != b && a !in t && b !in t
    ensures RunMem(t, mem, FirstGoes(a, b)).Some?
    ensures var (t', r) := RunMem(t, mem, FirstGoes(a, b)).value;
      && t'.Keys == t.Keys + {b}
      && forall x :: 0 <= x < |r| ==>
           r[x] == if Masked(a) <= x < Masked(a) + 8 then mem[x] else Plant(mem, Masked(b))[x]
  {
    var (t1, mem1) := ApplyMem(t, mem, Set(a)).value;
    var (t2, mem2) := ApplyMem(t1, mem1, Set(b)).value;
    var (t3, mem3) := ApplyMem(t2, mem2, Clear(a)).value;
    WriteBack(mem, Masked(a), mem2);
    assert [Set(a), Set(b), Clear(a)][1..] == [Set(b), Clear(a)] && [Set(b), Clear(a)][1..] == [Clear(a)];
    assert RunMem(t, mem, FirstGoes(a, b)) == RunMem(t1, mem1, [Set(b), Clear(a)]);
    assert RunMem(t1, mem1, [Set(b), Clear(a)]) == RunMem(t2, mem2, [Clear(a)]);
    RunMemOne(t2, mem2, Clear(a));
  }

  /** When the first of two breakpoints is cleared the second stays in the table; it is still in memory
      exactly when the first one's saved window holds no byte of it that differed. */
  lemma SecondStaysIff(t: Table, mem: Memory, a: U64, b: U64)
    requires a != b && a !in t && b !in t
    ensures RunMem(t, mem, FirstGoes(a, b)).Some? && b in RunMem(t, mem, FirstGoes(a, b)).value.0
    ensures SecondStays(t, mem, a, b) <==>
      forall i: nat :: i < 4 && Masked(a) <= Masked(b) + i < Masked(a) + 8 ==> mem[Masked(b) + i] == EbreakByte(i)
  {
    FirstGoesMemory(t, mem, a, b);
    var r := RunMem(t, mem, FirstGoes(a, b)).value.1;
    forall i: nat | i < 4
      ensures r[Masked(b) + i]
           == if Masked(a) <= Masked(b) + i < Masked(a) + 8 then mem[Masked(b) + i] else EbreakByte(i)
    {
      assert Plant(mem, Masked(b))[Masked(b) + i] == EbreakByte(i);
    }
  }

  /** For every memory at once, an armed breakpoint survives the clearing of an earlier one exactly when it
      keeps clear of that one's 8-byte window; the next instruction, 4 bytes on, does not. */
  lemma SecondSafeIff(a: U64, b: U64)
    requires a != b
    ensures (forall mem: Memory :: SecondStays(map[], mem, a, b)) <==>
      (Masked(a) + 8 <= Masked(b) || Masked(b) + 4 <= Masked(a))
  {
    var none: Table := map[];
    if Masked(a) + 8 <= Masked(b) || Masked(b) + 4 <= Masked(a) {
      forall mem: Memory ensures SecondStays(none, mem, a, b) {
        SecondStaysIff(none, mem, a, b);
      }
    } else {
      var mem: Memory := seq(0x1_0000_0000_0000_0000, _ => 0xFF);
      SecondStaysIff(none, mem, a, b);
      var i: nat := if Masked(a) > Masked(b) then Masked(a) - Masked(b) else 0;
      assert mem[Masked(b) + i] == 0xFF != EbreakByte(i);
    }
  }

  /** Setting one address twice and clearing it leaves ebreak there: memory is restored exactly when
      ebreak was there to begin with. */
  lemma SetTwiceIff(t: Table, mem: Memory, a: U64)
    requires a !in t
    ensures RunMem(t, mem, [Set(a), Set(a), Clear(a)]) == Some((t, mem)) <==> Plant(mem, Masked(a)) == mem
    ensures RunMem(t, mem, [Set(a), Set(a), Clear(a)]) == Some((t, Plant(mem, Masked(a))))
  {
    var m := Masked(a);
    var (t1, mem1) := ApplyMem(t, mem, Set(a)).value;
    var (t2, mem2) := ApplyMem(t1, mem1, Set(a)).value;
    var (t3, mem3) := ApplyMem(t2, mem2, Clear(a)).value;
    WriteBack(mem1, m, mem2);
    assert mem3 == mem1 && t3 == t;
    RunMemOne(t2, mem2, Clear(a));
    assert [Set(a), Set(a), Clear(a)][1..] == [Set(a), Clear(a)] && [Set(a), Clear(a)][1..] == [Clear(a)];
  }

  /** What a debugger can check beforehand: for every memory at once, clearing in the order of setting
      restores exactly when the second 8-byte window keeps clear of the first instruction. */
  lemma FifoSafeIff(a: U64, b: U64)
    requires a != b
    ensures (forall mem: Memory :: RunMem(map[], mem, Fifo(a, b)) == Some((map[], mem))) <==>
      (Masked(b) + 8 <= Masked(a) || Masked(a) + 4 <= Masked(b))
  {
    var none: Table := map[];
    if Masked(b) + 8 <= Masked(a) || Masked(a) + 4 <= Masked(b) {
      forall mem: Memory ensures RunMem(none, mem, Fifo(a, b)) == Some((none, mem)) {
        FifoRestoresIff(none, mem, a, b);
      }
    } else {
      var mem: Memory := seq(0x1_0000_0000_0000_0000, _ => 0xFF);
      FifoRestoresIff(none, mem, a, b);
      var i := if Masked(b) > Masked(a) then Masked(b) - Masked(a) else 0;
      assert mem[Masked(a) + i] == 0xFF != EbreakByte(i);
    }
  }

  // ------------------------------------------------------------------- in the CTM

  /** The server with another table and more bus transactions. */
  function WithTxns(s: Server, t: Table, txns: seq<Txn>): (s': Server)
    requires s.Valid()
    ensures s'.Valid() && s'.breakpoints == t && s'.machine.reply == s.machine.reply
  {
    s.(breakpoints := t, machine := s.machine.(log := s.machine.log + txns))
  }

  lemma CtmSet(s: Server, a: U64)
    requires s.Valid() && IsCtm(a)
    ensures var m, saved := Masked(a), s.machine.reply(|s.machine.log|, 0);
      SetResult(s, a) == Says(WithTxns(s, s.breakpoints[a := saved],
        [CtmTxn(Atomic32, m, ReadOf(1)), CtmTxn(Atomic32, m, WriteOf([0x0010_0073]))]), "OK")
  {
    var look, plant := CtmTxn(Atomic32, Masked(a), ReadOf(1)), CtmTxn(Atomic32, Masked(a), WriteOf([0x0010_0073]));
    assert s.machine.log + [look] + [plant] == s.machine.log + [look, plant];
  }

  lemma CtmClear(s: Server, a: U64)
    requires s.Valid() && IsCtm(a) && a in s.breakpoints
    ensures ClearResult(s, a) == Says(WithTxns(s, s.breakpoints - {a},
              [CtmTxn(Atomic32, Masked(a), WriteOf([Lo(s.breakpoints[a])]))]), "OK")
  {
  }

  /** Setting and clearing a breakpoint in the CTM costs one read, a write of ebreak and a write of the very
      word that was read, all at the one address; no hart is involved, and the table is as before. */
  lemma CtmPutsBack(s: Server, a: U64)
    requires s.Valid() && IsCtm(a) && a !in s.breakpoints
    ensures var m, saved := Masked(a), s.machine.reply(|s.machine.log|, 0);
      RunOps(s, [Set(a), Clear(a)]) == Done(WithTxns(s, s.breakpoints,
        [CtmTxn(Atomic32, m, ReadOf(1)), CtmTxn(Atomic32, m, WriteOf([0x0010_0073])),
         CtmTxn(Atomic32, m, WriteOf([saved]))]), None)
  {
    hide SetResult, ClearResult;
    var m, saved := Masked(a), s.machine.reply(|s.machine.log|, 0);
    var first, last := [CtmTxn(Atomic32, m, ReadOf(1)), CtmTxn(Atomic32, m, WriteOf([0x0010_0073]))],
                       [CtmTxn(Atomic32, m, WriteOf([saved]))];
    var s1 := WithTxns(s, s.breakpoints[a := saved], first);
    CtmSet(s, a);
    CtmClear(s1, a);
    assert s1.breakpoints - {a} == s.breakpoints;
    Associative(s.machine.log, first, last);
    RunTwoOps(s, Set(a), Clear(a), s1, WithTxns(s, s.breakpoints, first + last));
  }

  lemma RunTwoOps(s: Server, op1: Op, op2: Op, s1: Server, s2: Server)
    requires s.Valid() && s1.Valid() && s2.Valid()
    requires Apply(s, op1) == Says(s1, "OK") && Apply(s1, op2) == Says(s2, "OK")
    ensures RunOps(s, [op1, op2]) == Done(s2, None)
  {
    hide Apply;
    assert [op1, op2][1..] == [op2] && [op2][1..] == [];
    assert RunOps(s2, []) == Done(s2, None);
    assert RunOps(s1, [op2]) == RunOps(s2, []);
  }

  // ------------------------------------------------------------- the whole server

  /** Breakpoints 8 bytes apart, set and cleared in any order: when the table is empty again the whole
      server state, hart and bus included, is what it was. */
  lemma ServerRestored(s: Server, ops: seq<Op>)
    requires s.Valid() && s.Halted() && s.breakpoints == map[] && Spaced({}, ops)
    requires forall op :: op in ops ==> !IsCtm(op.address)
    ensures RunOps(s, ops).Done? && RunOps(s, ops).server.breakpoints == map[] ==> RunOps(s, ops).server == s
  {
    RunOpsIsRunMem(s, ops);
    var run := RunMem(s.breakpoints, s.Hart().mem, ops);
    if run.Some? && run.value.0 == map[] { AllClearedRestores(s.Hart().mem, ops); }
    WithMemTwice(s, s.breakpoints, s.Hart().mem, s.breakpoints, s.Hart().mem);
  }

  /** On the server: a run away from the CTM that clears only what is set, and in the end all of it, is
      survived and leaves no entry. */
  lemma AllClearedInTheEnd(s: Server, ops: seq<Op>)
    requires s.Valid() && s.Halted() && (forall op :: op in ops ==> !IsCtm(op.address))
    requires ClearsWhatIsSet(s.breakpoints.Keys, ops) && SetInTheEnd(s.breakpoints.Keys, ops) == {}
    ensures RunOps(s, ops).Done? && RunOps(s, ops).server.breakpoints == map[]
  {
    hide RunOps;
    SurvivesIff(s.breakpoints, s.Hart().mem, ops);
    RunOpsIsRunMem(s, ops);
    var t := RunMem(s.breakpoints, s.Hart().mem, ops).value.0;
    assert t.Keys == {};
    assert t == map[];
  }

  /** A nested script never dies and restores the whole server state. */
  lemma ServerRestoredByNest(s: Server, n: Nest)
    requires s.Valid() && s.Halted() && n.Distinct(s.breakpoints.Keys)
    requires forall op :: op in n.Ops() ==> !IsCtm(op.address)
    ensures RunOps(s, n.Ops()).Done? && RunOps(s, n.Ops()).server == s
  {
    RunOpsIsRunMem(s, n.Ops());
    NestedRestores(s.breakpoints, s.Hart().mem, n);
    WithMemTwice(s, s.breakpoints, s.Hart().mem, s.breakpoints, s.Hart().mem);
  }
}
