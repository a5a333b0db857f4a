/** `Z0` and `z0` packets over a connection, down to the hart's memory. */
module BreakpointPackets {
  import opened Numbers
  import opened Hex
  import opened Framing
  import opened Dispatch
  import opened Handlers
  import opened Session
  import opened Replies
  import opened Packets
  import opened Breakpoints

  function KeyOf(op: Op): Key { if op.Set? then CapZ0 else LowZ0 }

  /** `Z0,addr,kind` or `z0,addr,kind`, the address in so many digits. */
  datatype Request = Request(op: Op, digits: nat, kind: Bytes) {
    ghost predicate Valid() { Number(op.address, digits).Valid() && Free(kind, COLON) }

    function Packet(): Bytes {
      [if op.Set? then 0x5A else 0x7A, 0x30, COMMA] + (Number(op.address, digits).Text() + [COMMA] + kind)
    }
  }

  lemma RequestDispatch(keys: seq<Key>, r: Request)
    requires Order(keys) && r.Valid()
    ensures Lookup(keys, Command(r.Packet())) == EntryOf(KeyOf(r.op))
  {
    NumberIsFree(Number(r.op.address, r.digits));
    CommandWhole(r.Packet());
    var k := KeyOf(r.op);
    assert Text(k) == [First(k)] + ([0x30] + Rest(k)) && Rest(k) == [];
    assert Text(k) == r.Packet()[..2];
    assert Text(VContQuestion)[0] == 0x76;
    KeyIsFound(keys, k, r.Packet());
  }

  lemma RequestAddress(r: Request)
    requires r.Valid()
    ensures BreakpointAddress(r.Packet()) == Some(r.op.address)
  {
    var n := Number(r.op.address, r.digits);
    Codes();
    NumberIsFree(n);
    NumberParses(n);
    SplitAtFirst(n.Text(), COMMA, r.kind);
    assert r.Packet()[3..] == n.Text() + [COMMA] + r.kind;
  }

  lemma SetHandled(s: Server, keys: seq<Key>, p: Bytes, a: U64)
    requires s.Valid() && Lookup(keys, Command(p)) == Run(SetBreakpoint) && BreakpointAddress(p) == Some(a)
    ensures Handle(s, keys, p) == Apply(s, Set(a))
  {
    HandlerRuns(s, keys, p, SetBreakpoint);
    assert RunHandler(s, SetBreakpoint, p) == SetBreakpointResult(s, p);
  }

  lemma ClearHandled(s: Server, keys: seq<Key>, p: Bytes, a: U64)
    requires s.Valid() && Lookup(keys, Command(p)) == Run(ClearBreakpoint) && BreakpointAddress(p) == Some(a)
    ensures Handle(s, keys, p) == Apply(s, Clear(a))
  {
    HandlerRuns(s, keys, p, ClearBreakpoint);
    assert RunHandler(s, ClearBreakpoint, p) == ClearBreakpointResult(s, p);
  }

  /** The packet sets or clears the breakpoint at its address. */
  lemma RequestHandled(s: Server, keys: seq<Key>, r: Request)
    requires s.Valid() && Order(keys) && r.Valid()
    ensures Handle(s, keys, r.Packet()) == Apply(s, r.op)
  {
    hide Handle, Apply, Lookup, BreakpointAddress;
    RequestDispatch(keys, r);
    RequestAddress(r);
    var p, a := r.Packet(), r.op.address;
    if r.op.Set? {
      SetHandled(s, keys, p, a);
      assert r.op == Set(a);
    } else {
      ClearHandled(s, keys, p, a);
      assert r.op == Clear(a);
    }
  }

  function OpsOf(rs: seq<Request>): (ops: seq<Op>)
    ensures |ops| == |rs| && forall i :: 0 <= i < |rs| ==> ops[i] == rs[i].op
  {
    seq(|rs|, i requires 0 <= i < |rs| => rs[i].op)
  }

  function PacketsOf(rs: seq<Request>): (ps: seq<Bytes>)
    ensures |ps| == |rs| && forall i :: 0 <= i < |rs| ==> ps[i] == rs[i].Packet()
  {
    seq(|rs|, i requires 0 <= i < |rs| => rs[i].Packet())
  }

  lemma ApplySaysOk(s: Server, op: Op)
    requires s.Valid() && Apply(s, op).Done?
    ensures Apply(s, op).server.Valid() && Apply(s, op).reply == Some(Ascii("OK"))
    ensures Apply(s, op).server.disableAck == s.disableAck
  {
  }

  /** The acknowledgements and replies of n packets all answered with OK. */
  function Oks(s: Server, n: nat): seq<Sent>
  {
    seq(n, _ => Sent(Ack(s, Packet([])), Enclose(Ascii("OK"))))
  }

  lemma FirstOp(rs: seq<Request>)
    requires rs != []
    ensures OpsOf(rs) == [rs[0].op] + OpsOf(rs[1..])
    ensures PacketEvents(PacketsOf(rs)) == [Packet(rs[0].Packet())] + PacketEvents(PacketsOf(rs[1..]))
  {
    assert PacketsOf(rs)[1..] == PacketsOf(rs[1..]);
  }

  lemma FirstApplied(s: Server, op: Op, ops: seq<Op>)
    requires s.Valid() && RunOps(s, [op] + ops).Done?
    ensures Apply(s, op).Done? && Apply(s, op).server.Valid()
    ensures RunOps(s, [op] + ops) == RunOps(Apply(s, op).server, ops)
  {
    assert ([op] + ops)[1..] == ops;
    if Apply(s, op).Done? { ApplySaysOk(s, op); }
  }

  lemma FirstRequestServed(s: Server, keys: seq<Key>, r: Request, rest: seq<Event>)
    requires s.Valid() && Order(keys) && r.Valid() && Apply(s, r.op).Done? && Apply(s, r.op).server.Valid()
    requires ServeAll(Apply(s, r.op).server, keys, rest).Some?
    ensures var (s', sents) := ServeAll(Apply(s, r.op).server, keys, rest).value;
      ServeAll(s, keys, [Packet(r.Packet())] + rest) == Some((s', Oks(s, 1) + sents))
  {
    RequestHandled(s, keys, r);
    ApplySaysOk(s, r.op);
    OkIsNotDetach();
    ServeOne(s, keys, r.Packet(), rest);
    assert Oks(s, 1) == [Sent(Ack(s, Packet([])), Enclose(Ascii("OK")))];
  }

  /** A connection that carries breakpoint packets does to the server what the run of breakpoints does,
      and answers each of them with OK. */
  lemma {:induction false} RequestsServed(s: Server, keys: seq<Key>, rs: seq<Request>)
    requires s.Valid() && Order(keys) && (forall r :: r in rs ==> r.Valid()) && RunOps(s, OpsOf(rs)).Done?
    ensures ServeAll(s, keys, PacketEvents(PacketsOf(rs))) == Some((RunOps(s, OpsOf(rs)).server, Oks(s, |rs|)))
    decreases |rs|
  {
    hide Apply;
    if rs != [] {
      var r := rs[0];
      assert r in rs;
      FirstOp(rs);
      FirstApplied(s, r.op, OpsOf(rs[1..]));
      ApplySaysOk(s, r.op);
      var s1 := Apply(s, r.op).server;
      RequestsServed(s1, keys, rs[1..]);
      FirstRequestServed(s, keys, r, PacketEvents(PacketsOf(rs[1..])));
      assert Oks(s1, |rs| - 1) == Oks(s, |rs| - 1);
      assert Oks(s, |rs|) == Oks(s, 1) + Oks(s, |rs| - 1);
    }
  }

  lemma OpsAreNotCtm(rs: seq<Request>)
    requires forall r :: r in rs ==> !IsCtm(r.op.address)
    ensures forall op :: op in OpsOf(rs) ==> !IsCtm(op.address)
  {
    forall op | op in OpsOf(rs) ensures !IsCtm(op.address) {
      var i :| 0 <= i < |rs| && OpsOf(rs)[i] == op;
      assert rs[i] in rs;
    }
  }

  /** The packets on the wire, with '$'-free noise before every one of them. */
  lemma WireRuns(s: Server, keys: seq<Key>, rs: seq<Request>, noises: seq<Bytes>)
    requires s.Valid() && Order(keys) && (forall r :: r in rs ==> r.Valid()) && RunOps(s, OpsOf(rs)).Done?
    requires |noises| == |rs| && forall n :: n in noises ==> Free(n, DOLLAR)
    ensures ServeAll(s, keys, Events(Transmitted(noises, PacketsOf(rs))))
         == Some((RunOps(s, OpsOf(rs)).server, Oks(s, |rs|)))
  {
    PayloadsArriveInOrder(noises, PacketsOf(rs), []);
    assert Transmitted(noises, PacketsOf(rs)) + [] == Transmitted(noises, PacketsOf(rs));
    RequestsServed(s, keys, rs);
  }

  /** Over the wire: breakpoints at least 8 bytes apart, set and cleared in any order until none is left,
      leave the whole server as it was. */
  lemma WireRestores(s: Server, keys: seq<Key>, rs: seq<Request>, noises: seq<Bytes>)
    requires s.Valid() && s.Halted() && s.breakpoints == map[] && Order(keys)
    requires forall r :: r in rs ==> r.Valid() && !IsCtm(r.op.address)
    requires |noises| == |rs| && forall n :: n in noises ==> Free(n, DOLLAR)
    requires Spaced({}, OpsOf(rs))
    ensures var run := RunOps(s, OpsOf(rs)); run.Done? && run.server.breakpoints == map[] ==>
      ServeAll(s, keys, Events(Transmitted(noises, PacketsOf(rs)))) == Some((s, Oks(s, |rs|)))
  {
    OpsAreNotCtm(rs);
    ServerRestored(s, OpsOf(rs));
    if RunOps(s, OpsOf(rs)).Done? { WireRuns(s, keys, rs, noises); }
  }

  /** Over the wire: a nested script of breakpoints always goes through and leaves the whole server as it
      was, however the saved windows overlap. */
  lemma WireRestoresNested(s: Server, keys: seq<Key>, nest: Nest, rs: seq<Request>, noises: seq<Bytes>)
    requires s.Valid() && s.Halted() && Order(keys) && nest.Distinct(s.breakpoints.Keys) && OpsOf(rs) == nest.Ops()
    requires forall r :: r in rs ==> r.Valid() && !IsCtm(r.op.address)
    requires |noises| == |rs| && forall n :: n in noises ==> Free(n, DOLLAR)
    ensures ServeAll(s, keys, Events(Transmitted(noises, PacketsOf(rs)))) == Some((s, Oks(s, |rs|)))
  {
    OpsAreNotCtm(rs);
    ServerRestoredByNest(s, nest);
    WireRuns(s, keys, rs, noises);
  }
}
