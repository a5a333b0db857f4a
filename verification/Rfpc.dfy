/** RFPC cores: islands, register numbers, debug-module addresses and hart selection. */
module RfpcCores {
  import opened Numbers

  datatype Island =
    | Local | ChipExec | Pcie0 | Pcie1 | Nbi0 | Nbi1 | Nbi2 | Nbi3
    | Emu0 | Rfpc0 | Rfpc1 | Rfpc2 | Rfpc3 | Rfpc4 | Rfpc5 | Rfpc6
  {
    function Id(): U8 {
      match this
      case Local => 0 case ChipExec => 1 case Pcie0 => 2 case Pcie1 => 3
      case Nbi0 => 4 case Nbi1 => 5 case Nbi2 => 6 case Nbi3 => 7
      case Emu0 => 8 case Rfpc0 => 9 case Rfpc1 => 10 case Rfpc2 => 11
      case Rfpc3 => 12 case Rfpc4 => 13 case Rfpc5 => 14 case Rfpc6 => 15
    }

    static function FromId(id: U8): Option<Island> {
      match id
      case 0 => Some(Local) case 1 => Some(ChipExec) case 2 => Some(Pcie0) case 3 => Some(Pcie1)
      case 4 => Some(Nbi0) case 5 => Some(Nbi1) case 6 => Some(Nbi2) case 7 => Some(Nbi3)
      case 8 => Some(Emu0) case 9 => Some(Rfpc0) case 10 => Some(Rfpc1) case 11 => Some(Rfpc2)
      case 12 => Some(Rfpc3) case 13 => Some(Rfpc4) case 14 => Some(Rfpc5) case 15 => Some(Rfpc6)
      case _ => None
    }
  }

  // ------------------------------------------------------------- register numbers

  datatype Csr =
    | Mstatus | Misa | Medeleg | Mideleg | Mie | Mtvec
    | Mscratch | Mepc | Mcause | Mtval | Mip
    | Dcsr | Dpc | Dscratch0 | Dscratch1
    | Mlmemprot | Mafstatus | Mcycle | Minstret
    | Cycle | Time | Instret
    | Mvendorid | Marchid | Mimpid | Mhartid
  {
    function RegAddr(): nat {
      match this
      case Mstatus => 0x300 case Misa => 0x301 case Medeleg => 0x302
      case Mideleg => 0x303 case Mie => 0x304 case Mtvec => 0x305
      case Mscratch => 0x340 case Mepc => 0x341 case Mcause => 0x342
      case Mtval => 0x343 case Mip => 0x344
      case Dcsr => 0x7b0 case Dpc => 0x7b1 case Dscratch0 => 0x7b2 case Dscratch1 => 0x7b3
      case Mlmemprot => 0x7c0 case Mafstatus => 0x7c1
      case Mcycle => 0xb00 case Minstret => 0xb02
      case Cycle => 0xc00 case Time => 0xc01 case Instret => 0xc02
      case Mvendorid => 0xf11 case Marchid => 0xf12 case Mimpid => 0xf13 case Mhartid => 0xf14
    }
  }

  const DCSR: nat := 0x7b0
  const DPC: nat := 0x7b1

  function GprAddr(n: nat): nat { 0x1000 + n }

  /** The CSRs in the order of GDB's register numbers 32, 33, .... */
  const CSR_ORDER: seq<Csr> := [
    Mstatus, Misa, Medeleg, Mideleg, Mie, Mtvec,
    Mscratch, Mepc, Mcause, Mtval, Mip,
    Dcsr, Dpc, Dscratch0, Dscratch1,
    Mlmemprot, Mafstatus, Mcycle, Minstret,
    Cycle, Time, Instret,
    Mvendorid, Marchid, Mimpid, Mhartid]

  /** The register behind GDB's register number n; there are 58. */
  function RegisterAddr(n: nat): (r: Option<nat>)
    ensures r.Some? <==> n < 58
    ensures r.Some? ==> r.value < 0x1020 && (r.value < 0x1000 || r.value == 0x1000 + n)
  {
    assert |CSR_ORDER| == 26;
    if n < 32 then Some(GprAddr(n))
    else if n < 32 + |CSR_ORDER| then Some(CSR_ORDER[n - 32].RegAddr())
    else None
  }

  /** Different register numbers name different registers. */
  lemma RegistersDiffer(m: nat, n: nat)
    requires m < n < 58
    ensures RegisterAddr(m) != RegisterAddr(n)
  {
    if n >= 32 {
      CsrsAscend(n - 32);
      if m >= 32 { CsrsAscend(m - 32); }
    }
  }

  /** The n-th CSR address, read off the table as one ascending list. */
  function NthCsr(n: nat): nat
    requires n < 26
  {
    if n < 6 then 0x300 + n
    else if n < 11 then 0x340 + (n - 6)
    else if n < 15 then 0x7b0 + (n - 11)
    else if n < 17 then 0x7c0 + (n - 15)
    else if n < 19 then 0xb00 + 2 * (n - 17)
    else if n < 22 then 0xc00 + (n - 19)
    else 0xf11 + (n - 22)
  }

  lemma CsrsAscend(n: nat)
    requires n < 26
    ensures CSR_ORDER[n].RegAddr() == NthCsr(n)
  {
    if n < 13 {
      if n < 6 {} else {}
    } else {
      if n < 19 {} else {}
    }
  }

  // ------------------------------------------------------------------------ cores

  datatype Rfpc = Rfpc(island: Island, cluster: U8, group: U8, core: U8) {
    /** The ranges Rfpc::new checks. */
    predicate Valid() { cluster <= 2 && group <= 3 && core <= 7 }

    function DmXpbBase(): nat
      requires cluster <= 2
    {
      match cluster
      case 0 => 0x240000
      case 1 => 0x320000
      case _ => 0x400000
    }

    /** (hartsello, hartselhi) */
    function DmHartsel(): (nat, nat) {
      var hartsel := 8 * group + core;
      (hartsel % 0x400, hartsel / 0x400 % 0x400)
    }

    function Hart(): nat { DmHartsel().0 }
  }

  /** The core behind a thread id: the 32 cores of cluster 0 of island Rfpc0. */
  function ThreadCore(t: nat): Rfpc
    requires t < 32
  {
    Rfpc(Rfpc0, 0, t / 8, t % 8)
  }

  /** Thread ids number the cores of the cluster, one to one, and are the harts' own numbers. */
  lemma ThreadsAreHarts(t: nat, c: Rfpc)
    requires t < 32 && c.Valid() && c.island == Rfpc0 && c.cluster == 0
    ensures ThreadCore(t).Valid() && ThreadCore(t).DmHartsel() == (t, 0)
    ensures c.Hart() < 32 && ThreadCore(c.Hart()) == c
    ensures ThreadCore(t) == c <==> t == c.Hart()
  {
  }

  lemma IslandIdRoundTrip(i: Island, id: U8)
    ensures Island.FromId(i.Id()) == Some(i)
    ensures Island.FromId(id).Some? <==> id < 16
    ensures id < 16 ==> Island.FromId(id).value.Id() == id
  {
  }

  /** The ids of the islands. */
  lemma IslandIds()
    ensures Local.Id() == 0 && ChipExec.Id() == 1 && Pcie0.Id() == 2 && Pcie1.Id() == 3
    ensures Nbi0.Id() == 4 && Nbi1.Id() == 5 && Nbi2.Id() == 6 && Nbi3.Id() == 7
    ensures Emu0.Id() == 8 && Rfpc0.Id() == 9 && Rfpc1.Id() == 10 && Rfpc2.Id() == 11
    ensures Rfpc3.Id() == 12 && Rfpc4.Id() == 13 && Rfpc5.Id() == 14 && Rfpc6.Id() == 15
  {
  }

  /** The register addresses of GDB's numbers 32 to 57, one by one. */
  const CSR_ADDRESSES: seq<nat> := [
    0x300, 0x301, 0x302, 0x303, 0x304, 0x305, 0x340, 0x341, 0x342, 0x343, 0x344, 0x7b0, 0x7b1, 0x7b2, 0x7b3,
    0x7c0, 0x7c1, 0xb00, 0xb02, 0xc00, 0xc01, 0xc02, 0xf11, 0xf12, 0xf13, 0xf14]

  lemma RegisterNumbers(n: nat)
    requires n < 58
    ensures RegisterAddr(n) == Some(if n < 32 then 0x1000 + n else CSR_ADDRESSES[n - 32])
    ensures Csr.Dcsr.RegAddr() == DCSR == 0x7b0 && Csr.Dpc.RegAddr() == DPC == 0x7b1
  {
    if n >= 32 {
      CsrsAscend(n - 32);
      AddressesAscend(n - 32);
    }
  }

  lemma AddressesAscend(n: nat)
    requires n < 26
    ensures CSR_ADDRESSES[n] == NthCsr(n)
  {
    if n < 13 {
      if n < 6 {} else {}
    } else {
      if n < 19 {} else {}
    }
  }
}
