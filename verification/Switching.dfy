/** One breakpoint table for all cores: a breakpoint set on one core and cleared on another. */
module Switching {
  import opened Numbers
  import opened Hex
  import opened DebugModule
  import opened RfpcCores
  import opened Commands
  import opened Debugger
  import opened RunControl
  import opened Dispatch
  import opened Handlers
  import opened Breakpoints
  import opened BreakpointPackets
  import opened Threads

  /** The hart of a core. */
  function HartAt(s: Server, r: Rfpc): Hart
    requires r.Valid() && DmIdOf(r) in s.machine.cores
  {
    s.machine.cores[DmIdOf(r)].harts[r.Hart()]
  }

  /** The server with another memory behind a core. */
  function Rewritten(s: Server, r: Rfpc, mem: Memory): (s': Server)
    requires s.Valid() && r.Valid() && DmIdOf(r) in s.machine.cores
    ensures s'.Valid() && s'.machine.cores.Keys == s.machine.cores.Keys
  {
    var c := s.machine.cores[DmIdOf(r)];
    s.(machine := s.machine.(cores :=
      s.machine.cores[DmIdOf(r) := WithHartAt(c, r.Hart(), c.harts[r.Hart()].(mem := mem))]))
  }

  /** After `vCont;t` for a thread: its hart is halted, and its core selected. */
  function Chosen(s: Server, t: nat): (s': Server)
    requires s.Valid() && t < HARTS
    ensures s'.Valid() && s'.rfpc == ThreadCore(t) && s'.Halted() && s'.breakpoints == s.breakpoints
    ensures ActResult(s, Action([0x74], t)) == Says(s', "S05")
  {
    ThreadsAreHarts(t, ThreadCore(t));
    var s1 := s.(rfpc := ThreadCore(t));
    s1.WithCore(Stopped(s1.Core(), t))
  }

  /** A breakpoint is set, thread t is chosen, the breakpoint is cleared. */
  function SetChooseClear(s: Server, a: U64, t: nat): Result
    requires s.Valid() && s.Halted() && !IsCtm(a) && t < HARTS
  {
    ClearResult(Chosen(SetResult(s, a).server, t), a)
  }

  lemma SameIsland(i: Island, j: Island)
    requires i.Id() == j.Id()
    ensures i == j
  {
    hide Island.Id, Island.FromId;
    IslandIdRoundTrip(i, 0);
    IslandIdRoundTrip(j, 0);
  }

  lemma CoresAreHarts(r: Rfpc, r': Rfpc)
    requires r.Valid() && r'.Valid()
    ensures r == r' <==> DmIdOf(r) == DmIdOf(r') && r.Hart() == r'.Hart()
    ensures r.Hart() < HARTS
  {
    hide Island.Id;
    assert r.Hart() == 8 * r.group + r.core && r'.Hart() == 8 * r'.group + r'.core;
    if DmIdOf(r) == DmIdOf(r') { SameIsland(r.island, r'.island); }
  }

  /** A stop of one hart has nothing to do with the memory of another. */
  lemma StopsBeside(c: Core, h: nat, k: nat, hart: Hart)
    requires h < HARTS && k < HARTS && h != k
    ensures Stopped(WithHartAt(c, h, hart), k) == WithHartAt(Stopped(c, k), h, hart)
    ensures Stopped(c, k).harts[h] == c.harts[h]
  {
    if c.harts[k].run.Running? {
      var back: Hart := c.env.firmware(k, c.harts[k].(run := Halted), c.resumes).(run := Halted);
      assert c.harts[h := hart][k := back] == c.harts[k := back][h := hart];
    }
  }

  /** The choice of another core, with and without a change to the memory of the one selected. */
  lemma ChosenBeside(s: Server, mem: Memory, t: nat)
    requires s.Valid() && t < HARTS && s.rfpc != ThreadCore(t)
    ensures Chosen(Rewritten(s, s.rfpc, mem), t) == Rewritten(Chosen(s, t), s.rfpc, mem)
    ensures HartAt(Chosen(s, t), s.rfpc) == s.Hart()
  {
    var r, id, id' := s.rfpc, DmIdOf(s.rfpc), DmIdOf(ThreadCore(t));
    CoresAreHarts(r, ThreadCore(t));
    ThreadsAreHarts(t, ThreadCore(t));
    var hart := s.Hart().(mem := mem);
    if id == id' {
      StopsBeside(s.Core(), r.Hart(), t, hart);
      var c, d := WithHartAt(s.Core(), r.Hart(), hart), Stopped(s.Core(), t);
      assert s.machine.cores[id := c][id := Stopped(c, t)] == s.machine.cores[id := d][id := Stopped(c, t)];
    } else {
      var c, d := WithHartAt(s.Core(), r.Hart(), hart), Stopped(s.machine.cores[id'], t);
      assert s.machine.cores[id := c][id' := d] == s.machine.cores[id' := d][id := c];
    }
  }

  /** On another core the clearing takes the entry out of the table, but puts the saved bytes into that core's
      memory: the first core keeps its ebreak, the other one has eight bytes overwritten with the first one's. */
  lemma ClearedElsewhere(s: Server, a: U64, t: nat)
    requires s.Valid() && s.Halted() && !IsCtm(a) && a !in s.breakpoints && t < HARTS && s.rfpc != ThreadCore(t)
    ensures var m, mem, chosen := Masked(a), s.Hart().mem, Chosen(s, t);
      var planted := Rewritten(chosen, s.rfpc, Plant(mem, m));
      && HartAt(planted, ThreadCore(t)) == chosen.Hart()
      && SetChooseClear(s, a, t)
         == Says(Rewritten(planted, ThreadCore(t), Poke(chosen.Hart().mem, m, Peek(mem, m, 8))), "OK")
  {
    hide Chosen, Peek, Poke, Plant, LE, WordOf, SetResult;
    var m, mem := Masked(a), s.Hart().mem;
    var saved := WordOf(Peek(mem, m, 8));
    ApplyIsApplyMem(s, Set(a));
    var set_ := s.(breakpoints := s.breakpoints[a := saved]);
    var armed := Rewritten(set_, s.rfpc, Plant(mem, m));
    assert SetResult(s, a) == Says(armed, "OK");
    ChosenBeside(set_, Plant(mem, m), t);
    var chosen := Chosen(armed, t);
    CoresAreHarts(s.rfpc, ThreadCore(t));
    ThreadsAreHarts(t, ThreadCore(t));
    assert chosen.Hart() == Chosen(s, t).Hart();
    BytesRoundTrip(Peek(mem, m, 8));
    assert chosen.breakpoints - {a} == s.breakpoints;
  }

  /** On the same core it is the choice of the thread alone that is left. */
  lemma ClearedThere(s: Server, a: U64, t: nat)
    requires s.Valid() && s.Halted() && !IsCtm(a) && a !in s.breakpoints && t < HARTS && s.rfpc == ThreadCore(t)
    ensures SetChooseClear(s, a, t) == Says(Chosen(s, t), "OK")
  {
    var m, mem := Masked(a), s.Hart().mem;
    ThreadsAreHarts(t, ThreadCore(t));
    ApplyIsApplyMem(s, Set(a));
    PutBack(s.breakpoints, mem, a);
    var (t1, mem1) := ApplyMem(s.breakpoints, mem, Set(a)).value;
    var s1 := WithMem(s, t1, mem1);
    assert SetResult(s, a).server == s1;
    assert s1.WithCore(s1.Core()) == s1 by {
      assert s1.machine.cores[DmIdOf(s1.rfpc) := s1.Core()] == s1.machine.cores;
    }
    assert Chosen(s1, t) == s1;
    ApplyIsApplyMem(s1, Clear(a));
    WithMemTwice(s, t1, mem1, s.breakpoints, mem);
    assert s.WithCore(s.Core()) == s by { assert s.machine.cores[DmIdOf(s.rfpc) := s.Core()] == s.machine.cores; }
  }

  lemma RewrittenAt(s: Server, r: Rfpc, mem: Memory, r': Rfpc)
    requires s.Valid() && r.Valid() && DmIdOf(r) in s.machine.cores
    requires r'.Valid() && DmIdOf(r') in s.machine.cores
    ensures HartAt(Rewritten(s, r, mem), r') == if r == r' then HartAt(s, r).(mem := mem) else HartAt(s, r')
    ensures Rewritten(s, r, HartAt(s, r).mem) == s
  {
    CoresAreHarts(r, r');
    Unchanged(s.machine.cores[DmIdOf(r)], r.Hart());
    assert s.machine.cores[DmIdOf(r) := s.machine.cores[DmIdOf(r)]] == s.machine.cores;
  }

  lemma PlantSame(mem: Memory, m: U32)
    ensures Plant(mem, m) == mem <==> Planted(mem, m)
  {
    if Planted(mem, m) {
      forall x | 0 <= x < |mem| ensures Plant(mem, m)[x] == mem[x] {
        if m <= x < m + 4 { assert mem[m + (x - m)] == EbreakByte(x - m); }
      }
    } else {
      var i: nat :| i < 4 && mem[m + i] != EbreakByte(i);
      assert Plant(mem, m)[m + i] == EbreakByte(i);
    }
  }

  lemma PokeSame(mem: Memory, m: nat, bs: Bytes)
    requires Fits(m, |bs|)
    ensures Poke(mem, m, bs) == mem <==> Peek(mem, m, |bs|) == bs
  {
    if Poke(mem, m, bs) == mem {
      forall i | 0 <= i < |bs| ensures Peek(mem, m, |bs|)[i] == bs[i] { assert Poke(mem, m, bs)[m + i] == bs[i]; }
    } else {
      var x: nat :| x < |mem| && Poke(mem, m, bs)[x] != mem[x];
      assert Peek(mem, m, |bs|)[x - m] == mem[x];
    }
  }

  /** All that is left is what the choice of the thread leaves. */
  ghost predicate Restores(s: Server, a: U64, t: nat)
    requires s.Valid() && s.Halted() && !IsCtm(a) && t < HARTS
  {
    SetChooseClear(s, a, t) == Says(Chosen(s, t), "OK")
  }

  /** Setting a breakpoint, choosing a thread and clearing the breakpoint leaves what the choice alone leaves
      exactly when the core is the same one, or when ebreak was there already and the other core has the same
      eight bytes at the address. */
  lemma RestoresIff(s: Server, a: U64, t: nat)
    requires s.Valid() && s.Halted() && !IsCtm(a) && a !in s.breakpoints && t < HARTS
    ensures Restores(s, a, t) <==>
      || s.rfpc == ThreadCore(t)
      || (Planted(s.Hart().mem, Masked(a))
          && Peek(Chosen(s, t).Hart().mem, Masked(a), 8) == Peek(s.Hart().mem, Masked(a), 8))
  {
    hide Chosen, Rewritten, SetChooseClear, Plant, Poke, Peek, Planted;
    if s.rfpc == ThreadCore(t) {
      ClearedThere(s, a, t);
    } else {
      var m, mem, chosen, r := Masked(a), s.Hart().mem, Chosen(s, t), ThreadCore(t);
      var window := Peek(mem, m, 8);
      ChosenBeside(s, mem, t);
      ClearedElsewhere(s, a, t);
      PlantSame(mem, m);
      PokeSame(chosen.Hart().mem, m, window);
      var planted := Rewritten(chosen, s.rfpc, Plant(mem, m));
      RewrittenAt(chosen, s.rfpc, Plant(mem, m), s.rfpc);
      RewrittenAt(planted, r, Poke(chosen.Hart().mem, m, window), s.rfpc);
      RewrittenAt(planted, r, Poke(chosen.Hart().mem, m, window), r);
    }
  }

  /** For every memory at once: exactly when the core chosen is the one the breakpoint was set on. */
  lemma SwitchSafeIff(s: Server, a: U64, t: nat)
    requires s.Valid() && s.Halted() && !IsCtm(a) && a !in s.breakpoints && t < HARTS
    ensures (forall mem: Memory :: Restores(WithMem(s, s.breakpoints, mem), a, t)) <==> s.rfpc == ThreadCore(t)
  {
    hide Restores;
    if s.rfpc == ThreadCore(t) {
      forall mem: Memory ensures Restores(WithMem(s, s.breakpoints, mem), a, t) {
        RestoresIff(WithMem(s, s.breakpoints, mem), a, t);
      }
    } else {
      var mem: Memory := seq(0x1_0000_0000_0000_0000, _ => 0xFF);
      RestoresIff(WithMem(s, s.breakpoints, mem), a, t);
      assert mem[Masked(a) + 0] == 0xFF != EbreakByte(0);
    }
  }

  // ------------------------------------------------------------------- on the wire

  function ChoosePacket(t: nat): Bytes
    requires t < HARTS
  {
    VContPacket([Action([0x74], t)])
  }

  lemma ChooseHandled(s: Server, keys: seq<Key>, t: nat)
    requires s.Valid() && Order(keys) && t < HARTS
    ensures Handle(s, keys, ChoosePacket(t)) == Says(Chosen(s, t), "S05")
  {
    hide Handle;
    var a := Action([0x74], t);
    assert Code(';') == 0x3B;
    VContHandled(s, keys, [a]);
    ThreadsAreHarts(t, ThreadCore(t));
    assert [a][1..] == [];
    assert ActAll(Cluster(s), [a]) == Went(Stopped(Cluster(s), t));
  }

  /** The three packets: `Z0` and `z0` for the address, `vCont;t` for the thread in between. */
  lemma SwitchHandled(s: Server, keys: seq<Key>, first: Request, t: nat, last: Request)
    requires s.Valid() && s.Halted() && Order(keys) && first.Valid() && last.Valid() && t < HARTS
    requires first.op.Set? && last.op == Clear(first.op.address) && !IsCtm(first.op.address)
    ensures var a := first.op.address; var s1 := SetResult(s, a).server; var s2 := Chosen(s1, t);
      && Handle(s, keys, first.Packet()) == Says(s1, "OK")
      && Handle(s1, keys, ChoosePacket(t)) == Says(s2, "S05")
      && Handle(s2, keys, last.Packet()) == SetChooseClear(s, a, t)
  {
    hide Handle, Chosen, Poke, Peek, LE, WordOf;
    var s1 := SetResult(s, first.op.address).server;
    RequestHandled(s, keys, first);
    ChooseHandled(s1, keys, t);
    RequestHandled(Chosen(s1, t), keys, last);
  }
}
