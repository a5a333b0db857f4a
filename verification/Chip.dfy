/** The chip behind the PCIe window: CPP transactions, and the XPB bus with its debug modules. */
module Chip {
  import opened Numbers
  import opened DebugModule

  datatype Kind = ReadOf(length: nat) | WriteOf(words: seq<U32>) {
    function Words(): nat {
      match this
      case ReadOf(n) => n
      case WriteOf(ws) => |ws|
    }
  }

  /** One CPP transaction; a field is None when the BAR mapping in use does not carry it. */
  datatype Txn = Txn(island: nat, target: Option<nat>, token: Option<nat>, action: Option<nat>,
                     len: nat, address: nat, kind: Kind)

  /** A debug module is found by island id and cluster. */
  type DmId = (nat, nat)

  /** Transactions that reach no debug module are logged; what they read is arbitrary:
      word i of the n-th logged transaction is reply(n, i). */
  datatype Chip = Chip(dms: map<DmId, Dm>, log: seq<Txn>, reply: (nat, nat) -> U32)

  /** The debug module and register at an XPB address of an island. */
  function Locate(island: nat, local: nat): Option<(DmId, nat)>
  {
    if local < 0x240000 then None
    else
      var d := local - 0x240000;
      if d / 0xE0000 <= 2 && d % 0xE0000 < DM_SPAN then Some(((island, d / 0xE0000), d % 0xE0000))
      else None
  }

  function Logged(c: Chip, t: Txn): (r: (Chip, seq<U32>))
    ensures |r.1| == if t.kind.ReadOf? then t.kind.length else 0
  {
    (c.(log := c.log + [t]),
     if t.kind.ReadOf? then seq(t.kind.length, i requires 0 <= i => c.reply(|c.log|, i)) else [])
  }

  /** One word of an XPB access. */
  function XpbWord(c: Chip, t: Txn, island: nat, local: nat, write: Option<U32>): (Chip, U32)
  {
    match Locate(island, local)
    case Some((id, reg)) =>
      if id !in c.dms then (Logged(c, t).0, 0)
      else if write.Some? then (c.(dms := c.dms[id := DmWrite(c.dms[id], reg, write.value)]), 0)
      else
        var (dm, w) := DmRead(c.dms[id], reg);
        (c.(dms := c.dms[id := dm]), w)
    case None => (Logged(c, t).0, 0)
  }

  function ReadWords(c: Chip, t: Txn, island: nat, local: nat, n: nat): (r: (Chip, seq<U32>))
    ensures |r.1| == n
    decreases n
  {
    if n == 0 then (c, [])
    else
      var (c1, w) := XpbWord(c, t, island, local, None);
      var (c2, ws) := ReadWords(c1, t, island, local + 4, n - 1);
      (c2, [w] + ws)
  }

  function WriteWords(c: Chip, t: Txn, island: nat, local: nat, ws: seq<U32>): Chip
    decreases |ws|
  {
    if ws == [] then c
    else WriteWords(XpbWord(c, t, island, local, Some(ws[0])).0, t, island, local + 4, ws[1..])
  }

  const CHIP_EXEC: nat := 1
  const CT: nat := 14

  /** XPB accesses go to the CT target through ChipExec, with the global bit 31 set. */
  predicate IsXpb(t: Txn)
  {
    t.island == CHIP_EXEC && t.target == Some(CT) && t.address / 0x8000_0000 == 1
  }

  /** What a transaction does, and the words it reads. */
  function Transact(c: Chip, t: Txn): (r: (Chip, seq<U32>))
    ensures |r.1| == if t.kind.ReadOf? then t.kind.length else 0
  {
    if IsXpb(t) then
      var island, local := t.address / 0x100_0000 % 128, t.address % 0x100_0000;
      match t.kind
      case ReadOf(n) => ReadWords(c, t, island, local, n)
      case WriteOf(ws) => (WriteWords(c, t, island, local, ws), [])
    else Logged(c, t)
  }
}
