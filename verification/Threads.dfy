/** `vCont`: actions on named threads, and what they leave alone. */
module Threads {
  import opened Numbers
  import opened Hex
  import opened DebugModule
  import opened RfpcCores
  import opened Debugger
  import opened RunControl
  import opened Framing
  import opened Dispatch
  import opened Handlers
  import opened Packets

  // ----------------------------------------------------------- actions on one cluster

  /** How a list of actions ends: the harts afterwards, a refusal (the stub dies), or a hart that cannot
      be driven because it runs or its dcsr cannot be written. */
  datatype Acted = Went(core: Core) | Refused | Undriven

  function GoOn(go: Go, c: Core, h: nat): Acted
    requires h < HARTS
  {
    if c.harts[h].run.Running? || DCSR in c.env.traps then Undriven
    else match Go1(go, c, h)
      case Some(c') => Went(c')
      case None => Refused
  }

  function ActOn(c: Core, a: Action): Acted
    requires a.thread < HARTS
  {
    if a.verb == [0x63] then GoOn(Continue, c, a.thread)
    else if a.verb == [0x73] then GoOn(Step, c, a.thread)
    else if a.verb == [0x74] then Went(Stopped(c, a.thread))
    else Refused
  }

  predicate Known(acts: seq<Action>) { forall a :: a in acts ==> a.thread < HARTS }

  /** The actions one after the other. */
  function ActAll(c: Core, acts: seq<Action>): Acted
    requires Known(acts)
    decreases |acts|
  {
    if acts == [] then Went(c)
    else
      assert acts[0] in acts;
      match ActOn(c, acts[0])
      case Went(c1) => ActAll(c1, acts[1..])
      case other => other
  }

  /** Every hart that no action names is untouched. */
  lemma {:induction false} OthersUntouched(c: Core, acts: seq<Action>, h: nat)
    requires Known(acts) && h < HARTS && ActAll(c, acts).Went?
    requires forall a :: a in acts ==> a.thread != h
    ensures ActAll(c, acts).core.harts[h] == c.harts[h]
    decreases |acts|
  {
    if acts != [] {
      assert acts[0] in acts;
      OthersUntouched(ActOn(c, acts[0]).core, acts[1..], h);
    }
  }

  lemma OneHalts(c: Core, a: Action)
    requires a.thread < HARTS && ActOn(c, a).Went?
    ensures var c' := ActOn(c, a).core;
      && c'.harts[a.thread].run.Halted? && c'.env == c.env
      && c'.resumes == c.resumes + (if a.verb == [0x74] then 0 else 1)
      && forall k :: 0 <= k < HARTS && k != a.thread ==> c'.harts[k] == c.harts[k]
  {
    if a.verb == [0x63] { GoLeaves(Continue, c, a.thread); }
    if a.verb == [0x73] { GoLeaves(Step, c, a.thread); }
  }

  /** Every hart that is named ends up halted. */
  lemma {:induction false} NamedAreHalted(c: Core, acts: seq<Action>, h: nat)
    requires Known(acts) && h < HARTS && ActAll(c, acts).Went?
    requires c.harts[h].run.Halted? || exists a :: a in acts && a.thread == h
    ensures ActAll(c, acts).core.harts[h].run.Halted?
    decreases |acts|
  {
    if acts != [] {
      assert acts[0] in acts;
      OneHalts(c, acts[0]);
      assert forall a :: a in acts ==> a == acts[0] || a in acts[1..];
      NamedAreHalted(ActOn(c, acts[0]).core, acts[1..], h);
    }
  }

  /** The steps and continues among the actions. */
  function Goes(acts: seq<Action>): nat
  {
    if acts == [] then 0 else (if acts[0].verb == [0x74] then 0 else 1) + Goes(acts[1..])
  }

  /** One resume for every step or continue, and none for a stop. */
  lemma {:induction false} ResumedOncePerGo(c: Core, acts: seq<Action>)
    requires Known(acts) && ActAll(c, acts).Went?
    ensures ActAll(c, acts).core.resumes == c.resumes + Goes(acts)
    decreases |acts|
  {
    if acts != [] {
      assert acts[0] in acts;
      OneHalts(c, acts[0]);
      ResumedOncePerGo(ActOn(c, acts[0]).core, acts[1..]);
    }
  }

  // ------------------------------------------------------------------ on the server

  /** The server with thread t selected and the harts of the thread map's cluster replaced. */
  function Selected(s: Server, t: nat, c: Core): (s': Server)
    requires s.Valid() && t < HARTS
    ensures s'.Valid() && s'.Index() == t && s'.Core() == c
  {
    ThreadsAreHarts(t, ThreadCore(t));
    s.(rfpc := ThreadCore(t)).WithCore(c)
  }

  /** The harts the thread map is about. */
  function Cluster(s: Server): Core
    requires s.Valid()
  {
    s.machine.cores[DmIdOf(ThreadCore(0))]
  }

  /** The whole outcome: apart from the harts of the one cluster and the selected thread the server is
      as before. */
  function VContResult(s: Server, acts: seq<Action>): Result
    requires s.Valid() && Known(acts) && acts != []
  {
    match ActAll(Cluster(s), acts)
    case Went(c) => assert acts[|acts| - 1] in acts; Says(Selected(s, acts[|acts| - 1].thread, c), "S05")
    case Refused => Dies
    case Undriven => Stuck
  }

  lemma SelectedTwice(s: Server, t: nat, c: Core, t': nat, c': Core)
    requires s.Valid() && t < HARTS && t' < HARTS
    ensures Selected(Selected(s, t, c), t', c') == Selected(s, t', c')
    ensures Cluster(Selected(s, t, c)) == c
  {
    var id := DmIdOf(ThreadCore(0));
    ThreadsAreHarts(t, ThreadCore(t));
    ThreadsAreHarts(t', ThreadCore(t'));
    assert s.machine.cores[id := c][id := c'] == s.machine.cores[id := c'];
  }

  lemma ActIsActOn(s: Server, a: Action)
    requires s.Valid() && a.thread < HARTS
    ensures match ActOn(Cluster(s), a)
      case Went(c) => ActResult(s, a) == Says(Selected(s, a.thread, c), "S05")
      case Refused => ActResult(s, a) == Dies
      case Undriven => ActResult(s, a) == Stuck
  {
    ThreadsAreHarts(a.thread, ThreadCore(a.thread));
  }

  lemma {:induction false} ActionsAreActAll(s: Server, items: seq<Bytes>, acts: seq<Action>)
    requires s.Valid() && |items| == |acts| > 0 && Known(acts)
    requires forall i :: 0 <= i < |items| ==> ParseAction(items[i]) == Some(acts[i])
    ensures ActionsResult(s, items) == VContResult(s, acts)
    decreases |items|
  {
    var a := acts[0];
    assert a in acts;
    ActIsActOn(s, a);
    if ActOn(Cluster(s), a).Went? {
      var c1 := ActOn(Cluster(s), a).core;
      var s1 := Selected(s, a.thread, c1);
      SelectedTwice(s, a.thread, c1, a.thread, c1);
      if |items| > 1 {
        ActionsAreActAll(s1, items[1..], acts[1..]);
        assert acts[1..][|acts| - 2] == acts[|acts| - 1] && acts[|acts| - 1] in acts;
        var last := ActAll(c1, acts[1..]);
        if last.Went? { SelectedTwice(s, a.thread, c1, acts[|acts| - 1].thread, last.core); }
      } else {
        assert acts[1..] == [] && items[1..] == [];
        assert ActionsResult(s1, items[1..]) == Says(s1, "S05");
        assert ActAll(c1, acts[1..]) == Went(c1) == ActAll(Cluster(s), acts);
        assert acts[|acts| - 1] == a;
        assert ParseAction(items[0]) == Some(a);
        assert ActionsResult(s, items) == ActionsResult(s1, items[1..]);
      }
    }
  }

  // ------------------------------------------------------------------- on the wire

  function Decimal(t: nat): Bytes
    requires t < HARTS
  {
    if t < 10 then [0x30 + t] else [0x30 + t / 10, 0x30 + t % 10]
  }

  /** `action:thread-id` */
  function ActionText(a: Action): Bytes
    requires a.thread < HARTS
  {
    a.verb + [COLON] + Decimal(a.thread)
  }

  function ActionTexts(acts: seq<Action>): (items: seq<Bytes>)
    requires Known(acts)
    ensures |items| == |acts| && forall i :: 0 <= i < |acts| ==> acts[i] in acts && items[i] == ActionText(acts[i])
  {
    seq(|acts|, i requires 0 <= i < |acts| => assert acts[i] in acts; ActionText(acts[i]))
  }

  /** `vCont;action:thread-id;...` */
  function VContPacket(acts: seq<Action>): Bytes
    requires Known(acts)
  {
    [0x76, 0x43, 0x6F, 0x6E, 0x74, 0x3B] + JoinParts(ActionTexts(acts))
  }

  lemma DecimalParses(t: nat)
    requires t < HARTS
    ensures FromStrRadix(Decimal(t), 10, 0x1_0000) == Some(t) && Free(Decimal(t), COLON) && Free(Decimal(t), Code(';'))
  {
    var d := Decimal(t);
    assert Digits([], 10) == Some(0);
    if t < 10 {
      assert d[..0] == [];
    } else {
      assert d[..1] == [0x30 + t / 10] && d[..1][..0] == [];
      assert Digits(d[..1], 10) == Some(t / 10);
    }
  }

  lemma {:induction false} AllBefore(s: Bytes, b: U8)
    requires Free(s, b)
    ensures Before(s, b) == s
  {
    if s != [] {
      assert s[0] in s;
      AllBefore(s[1..], b);
    }
  }

  lemma ActionParses(a: Action)
    requires a.thread < HARTS && Free(a.verb, COLON)
    ensures ParseAction(ActionText(a)) == Some(a)
  {
    Codes();
    DecimalParses(a.thread);
    SplitAtFirst(a.verb, COLON, Decimal(a.thread));
    AllBefore(Decimal(a.thread), COLON);
    assert ActionText(a)[|a.verb|] == COLON;
  }

  /** Splitting undoes joining. */
  lemma {:induction false} SplitJoined(parts: seq<Bytes>)
    requires parts != [] && forall p :: p in parts ==> Free(p, Code(';'))
    ensures SplitOn(JoinParts(parts), Code(';')) == parts
  {
    var semi := Code(';');
    assert parts[0] in parts;
    if |parts| > 1 {
      SplitJoined(parts[1..]);
      SplitAtFirst(parts[0], semi, JoinParts(parts[1..]));
      assert JoinParts(parts)[|parts[0]|] == semi;
    }
  }

  /** The verbs a client may send. */
  predicate Sendable(acts: seq<Action>)
  {
    forall a :: a in acts ==> Free(a.verb, COLON) && Free(a.verb, Code(';'))
  }

  /** The packet up to its first colon, and what follows. */
  lemma VContHead(acts: seq<Action>) returns (rest: Bytes)
    requires acts != [] && Known(acts)
    ensures VContPacket(acts) == (Text(VCont) + [0x3B] + acts[0].verb) + [COLON] + rest
  {
    var a, items := acts[0], ActionTexts(acts);
    assert a in acts && Code(';') == 0x3B;
    var head, joined := a.verb + [COLON], JoinParts(items);
    assert head <= items[0] <= joined;
    rest := joined[|head|..];
    assert joined == head + rest;
    assert (Text(VCont) + [0x3B]) + (a.verb + [COLON] + rest) == (Text(VCont) + [0x3B] + a.verb) + [COLON] + rest;
  }

  lemma VContCommand(acts: seq<Action>)
    requires acts != [] && Known(acts) && Sendable(acts)
    ensures var command := Command(VContPacket(acts));
      Text(VCont) <= command && !(Text(VContQuestion) <= command)
  {
    assert acts[0] in acts;
    var rest := VContHead(acts);
    var pre := Text(VCont) + [0x3B] + acts[0].verb;
    CommandBefore(pre, rest);
    VContTexts();
    assert pre[5] == 0x3B && Text(VContQuestion)[5] == 0x3F;
  }

  lemma VContDispatch(keys: seq<Key>, acts: seq<Action>)
    requires Order(keys) && acts != [] && Known(acts) && Sendable(acts)
    ensures Lookup(keys, Command(VContPacket(acts))) == Run(MulticoreActions)
  {
    VContCommand(acts);
    KeyIsFound(keys, VCont, Command(VContPacket(acts)));
  }

  lemma RunsActions(s: Server, packet: Bytes)
    requires s.Valid()
    ensures RunHandler(s, MulticoreActions, packet) == MulticoreResult(s, packet)
  {
  }

  lemma MulticoreOf(s: Server, acts: seq<Action>)
    requires s.Valid() && acts != [] && Known(acts) && Sendable(acts)
    ensures MulticoreResult(s, VContPacket(acts)) == VContResult(s, acts)
  {
    var items := ActionTexts(acts);
    assert VContPacket(acts)[6..] == JoinParts(items);
    Codes();
    forall i | 0 <= i < |items|
      ensures ParseAction(items[i]) == Some(acts[i]) && Free(items[i], Code(';'))
    {
      assert acts[i] in acts;
      ActionParses(acts[i]);
      DecimalParses(acts[i].thread);
    }
    SplitJoined(items);
    ActionsAreActAll(s, items, acts);
  }

  /** A vCont packet does exactly its actions, in order, to the harts they name. */
  lemma VContHandled(s: Server, keys: seq<Key>, acts: seq<Action>)
    requires s.Valid() && Order(keys) && acts != [] && Known(acts) && Sendable(acts)
    ensures Handle(s, keys, VContPacket(acts)) == VContResult(s, acts)
  {
    VContDispatch(keys, acts);
    HandlerRuns(s, keys, VContPacket(acts), MulticoreActions);
    RunsActions(s, VContPacket(acts));
    MulticoreOf(s, acts);
  }
}
