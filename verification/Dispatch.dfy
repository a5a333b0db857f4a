/** The command table and how a packet finds its handler. */
module Dispatch {
  import opened Numbers
  import opened Hex

  datatype Handler =
    | CmdNotSupported | ToggleAck | LoadOffsets | SupportedFeatures
    | ReadGprs | ReadReg | WriteReg | MemoryRead | MemoryWrite
    | SetCore | SingleStep | SingleStepSig | Cont | ContWithSig
    | SetBreakpoint | ClearBreakpoint | SupportedActions | MulticoreActions

  /** A fixed reply, a handler, or no reply at all. */
  datatype Entry = Answer(reply: Bytes) | Run(handler: Handler) | Silent

  /** The keys of the table. */
  datatype Key =
    | Bang | Question | LowC | CapD | QStartNoAckMode | QC | QOffsets | QSupported | QAttached
    | CapH | LowG | LowP | CapP | LowM | CapM | LowS | CapS | CapZ0 | LowZ0 | CtrlC | LowK | CapC
    | VMustReplyEmpty | CapX | VContQuestion | VCont

  function Text(k: Key): Bytes
  {
    [First(k)] + if Second(k) == 0 then [] else [Second(k)] + Rest(k)
  }

  function First(k: Key): U8
  {
    match k
    case Bang => 0x21 case Question => 0x3F case LowC => 0x63 case CapD => 0x44
    case QStartNoAckMode => 0x51 case QC => 0x71 case QOffsets => 0x71 case QSupported => 0x71
    case QAttached => 0x71 case CapH => 0x48 case LowG => 0x67 case LowP => 0x70 case CapP => 0x50
    case LowM => 0x6D case CapM => 0x4D case LowS => 0x73 case CapS => 0x53 case CapZ0 => 0x5A
    case LowZ0 => 0x7A case CtrlC => 3 case LowK => 0x6B case CapC => 0x43
    case VMustReplyEmpty => 0x76 case CapX => 0x58 case VContQuestion => 0x76 case VCont => 0x76
  }

  /** The second character, zero when there is none. */
  function Second(k: Key): U8
  {
    match k
    case QStartNoAckMode => 0x53 case QC => 0x43 case QOffsets => 0x4F case QSupported => 0x53 case QAttached => 0x41
    case CapZ0 => 0x30 case LowZ0 => 0x30
    case VMustReplyEmpty => 0x4D case VCont => 0x43 case VContQuestion => 0x43
    case _ => 0
  }

  /** The key after its second character. */
  function Rest(k: Key): Bytes
  {
    match k
    case QStartNoAckMode => Ascii("tartNoAckMode")
    case QOffsets => Ascii("ffsets")
    case QSupported => Ascii("upported")
    case QAttached => Ascii("ttached")
    case VMustReplyEmpty => Ascii("ustReplyEmpty")
    case VCont => [0x6F, 0x6E, 0x74]
    case VContQuestion => [0x6F, 0x6E, 0x74, 0x3F]
    case _ => []
  }

  /** The entry inserted last for each key ("c", "D" and "H" are inserted twice). */
  function EntryOf(k: Key): Entry
  {
    match k
    case Bang => Run(CmdNotSupported)
    case Question => Answer(Ascii("S12"))
    case LowC => Run(Cont)
    case CapD => Answer(Ascii("detach"))
    case QStartNoAckMode => Run(ToggleAck)
    case QC => Answer(Ascii("-1"))
    case QOffsets => Run(LoadOffsets)
    case QSupported => Run(SupportedFeatures)
    case QAttached => Answer(Ascii("1"))
    case CapH => Run(SetCore)
    case LowG => Run(ReadGprs)
    case LowP => Run(ReadReg)
    case CapP => Run(WriteReg)
    case LowM => Run(MemoryRead)
    case CapM => Run(MemoryWrite)
    case LowS => Run(SingleStep)
    case CapS => Run(SingleStepSig)
    case CapZ0 => Run(SetBreakpoint)
    case LowZ0 => Run(ClearBreakpoint)
    case CtrlC => Silent
    case LowK => Silent
    case CapC => Run(ContWithSig)
    case VMustReplyEmpty => Run(CmdNotSupported)
    case CapX => Run(MemoryWrite)
    case VContQuestion => Run(SupportedActions)
    case VCont => Run(MulticoreActions)
  }

  // ---------------------------------------------------------------------- lookup

  /** An iteration order of the hash map. */
  ghost predicate Order(keys: seq<Key>) { forall k: Key :: k in keys }

  function Position(packet: Bytes, b: U8): Option<nat>
  {
    if packet == [] then None
    else if packet[0] == b then Some(0)
    else match Position(packet[1..], b)
      case Some(i) => Some(i + 1)
      case None => None
  }

  /** The part of a packet up to its first colon. */
  function Command(packet: Bytes): Bytes
  {
    if packet == [] || packet[0] == Code(':') then [] else [packet[0]] + Command(packet[1..])
  }

  /** The first key in iteration order with a property. */
  function FirstKey(keys: seq<Key>, p: Key -> bool): Option<Key>
  {
    if keys == [] then None else if p(keys[0]) then Some(keys[0]) else FirstKey(keys[1..], p)
  }

  function Equals(command: Bytes): Key -> bool { (k: Key) => Text(k) == command }

  function Begins(command: Bytes): Key -> bool { (k: Key) => Text(k) <= command }

  /** The full command if it is a key, else the first key in iteration order that is a prefix of it. */
  function Lookup(keys: seq<Key>, command: Bytes): Entry
  {
    match FirstKey(keys, Equals(command))
    case Some(k) => EntryOf(k)
    case None =>
      match FirstKey(keys, Begins(command))
      case Some(k) => EntryOf(k)
      case None => Run(CmdNotSupported)
  }

  // ------------------------------------------------------- which keys can be confused

  predicate IsQuery(k: Key) { k in {QC, QOffsets, QSupported, QAttached} }

  predicate IsV(k: Key) { k in {VMustReplyEmpty, VContQuestion, VCont} }

  /** The key found by the first byte, up to the two families that share it. */
  function ByFirst(b: U8): Key
  {
    match b
    case 0x21 => Bang case 0x3F => Question case 0x63 => LowC case 0x44 => CapD case 0x51 => QStartNoAckMode
    case 0x71 => QC case 0x48 => CapH case 0x67 => LowG case 0x70 => LowP case 0x50 => CapP case 0x6D => LowM
    case 0x4D => CapM case 0x73 => LowS case 0x53 => CapS case 0x5A => CapZ0 case 0x7A => LowZ0 case 3 => CtrlC
    case 0x6B => LowK case 0x43 => CapC case 0x58 => CapX case _ => VCont
  }

  lemma FirstByteDecides(k: Key)
    ensures ByFirst(First(k)) == if IsQuery(k) then QC else if IsV(k) then VCont else k
  {
  }

  predicate Confusable(k1: Key, k2: Key)
  {
    (k1 == VCont && k2 == VContQuestion) || (k1 == VContQuestion && k2 == VCont)
  }

  /** Keys that share their first byte have a second one, which tells all but two of them apart. */
  lemma FamiliesDiffer(k1: Key, k2: Key)
    requires First(k1) == First(k2) && k1 != k2
    ensures Second(k1) != 0 && Second(k2) != 0
    ensures Second(k1) == Second(k2) ==> Confusable(k1, k2)
  {
    FirstByteDecides(k1);
    FirstByteDecides(k2);
  }

  lemma Heads(first: U8, second: U8, rest: Bytes, command: Bytes)
    requires [first] + (if second == 0 then [] else [second] + rest) <= command
    ensures command != [] && command[0] == first
    ensures second != 0 ==> |command| > 1 && command[1] == second
  {
    var t := [first] + if second == 0 then [] else [second] + rest;
    assert t[0] == command[0];
    if second != 0 { assert t[1] == command[1]; }
  }

  lemma KeyHeads(k: Key, command: Bytes)
    requires Text(k) <= command
    ensures command != [] && command[0] == First(k)
    ensures Second(k) != 0 ==> |command| > 1 && command[1] == Second(k)
  {
    Heads(First(k), Second(k), Rest(k), command);
  }

  /** No key begins another, except "vCont" and "vCont?". */
  lemma KeysOfOneCommand(k1: Key, k2: Key, command: Bytes)
    requires k1 != k2 && Text(k1) <= command && Text(k2) <= command
    ensures Confusable(k1, k2)
  {
    KeyHeads(k1, command);
    KeyHeads(k2, command);
    FamiliesDiffer(k1, k2);
  }

  lemma {:induction false} FirstKeyFinds(keys: seq<Key>, p: Key -> bool)
    ensures match FirstKey(keys, p)
      case Some(k) => k in keys && p(k)
      case None => forall k :: k in keys ==> !p(k)
  {
    if keys != [] { FirstKeyFinds(keys[1..], p); }
  }

  /** When at most one key has the property the order does not matter. */
  lemma OnlyOneKey(keys1: seq<Key>, keys2: seq<Key>, p: Key -> bool)
    requires Order(keys1) && Order(keys2)
    requires forall k1, k2 :: p(k1) && p(k2) ==> k1 == k2
    ensures FirstKey(keys1, p) == FirstKey(keys2, p)
  {
    FirstKeyFinds(keys1, p);
    FirstKeyFinds(keys2, p);
  }

  lemma VContTexts()
    ensures Text(VContQuestion) == Text(VCont) + [0x3F]
    ensures Text(VCont) != Text(VContQuestion)
  {
  }

  /** A command that starts with "vCont?" and goes on. */
  predicate Ambiguous(command: Bytes)
  {
    Text(VContQuestion) <= command && command != Text(VContQuestion)
  }

  lemma OneExactKey(command: Bytes)
    ensures forall k1, k2 :: Equals(command)(k1) && Equals(command)(k2) ==> k1 == k2
  {
    forall k1, k2 | Equals(command)(k1) && Equals(command)(k2)
      ensures k1 == k2
    {
      if k1 != k2 {
        KeysOfOneCommand(k1, k2, command);
        VContTexts();
      }
    }
  }

  lemma OnePrefixKey(command: Bytes)
    requires !(Text(VContQuestion) <= command)
    ensures forall k1, k2 :: Begins(command)(k1) && Begins(command)(k2) ==> k1 == k2
  {
    forall k1, k2 | Begins(command)(k1) && Begins(command)(k2)
      ensures k1 == k2
    {
      if k1 != k2 {
        KeysOfOneCommand(k1, k2, command);
      }
    }
  }

  /** The handler does not depend on the hash map's iteration order. */
  lemma OrderDoesNotMatter(keys1: seq<Key>, keys2: seq<Key>, command: Bytes)
    requires Order(keys1) && Order(keys2) && !Ambiguous(command)
    ensures Lookup(keys1, command) == Lookup(keys2, command)
  {
    OneExactKey(command);
    OnlyOneKey(keys1, keys2, Equals(command));
    if Text(VContQuestion) <= command {
      FirstKeyFinds(keys1, Equals(command));
      assert Equals(command)(VContQuestion) && VContQuestion in keys1;
    } else {
      OnePrefixKey(command);
      OnlyOneKey(keys1, keys2, Begins(command));
    }
  }

  lemma FirstComesFirst(k: Key, keys: seq<Key>, p: Key -> bool)
    requires p(k)
    ensures FirstKey([k] + keys, p) == Some(k)
  {
  }

  /** An ambiguous command goes to whichever of its two keys comes first. */
  lemma AmbiguousPicks(k: Key, keys: seq<Key>, command: Bytes)
    requires Ambiguous(command) && (k == VCont || k == VContQuestion)
    ensures Lookup([k] + keys, command) == EntryOf(k)
  {
    NoExactKey(command);
    FirstKeyFinds([k] + keys, Equals(command));
    VContTexts();
    FirstComesFirst(k, keys, Begins(command));
  }

  lemma OrderWithFirst(k: Key)
    ensures Order([k] + ALL_KEYS)
  {
    AllKeysListed();
    forall k': Key ensures k' in [k] + ALL_KEYS { assert k' in ALL_KEYS; }
  }

  /** For an ambiguous command, and only then, the iteration order decides which of the two
      handlers runs. */
  lemma AmbiguousIffOrderMatters(command: Bytes)
    ensures Ambiguous(command) <==>
      exists keys1, keys2 :: Order(keys1) && Order(keys2) && Lookup(keys1, command) != Lookup(keys2, command)
  {
    if Ambiguous(command) {
      OrderWithFirst(VCont);
      OrderWithFirst(VContQuestion);
      AmbiguousPicks(VCont, ALL_KEYS, command);
      AmbiguousPicks(VContQuestion, ALL_KEYS, command);
    } else {
      forall keys1, keys2 | Order(keys1) && Order(keys2)
        ensures Lookup(keys1, command) == Lookup(keys2, command)
      {
        OrderDoesNotMatter(keys1, keys2, command);
      }
    }
  }

  lemma NoExactKey(command: Bytes)
    requires Ambiguous(command)
    ensures forall k :: !Equals(command)(k)
  {
    forall k ensures !Equals(command)(k) {
      if Text(k) == command && k != VContQuestion {
        KeysOfOneCommand(k, VContQuestion, command);
        VContTexts();
      }
    }
  }

  const ALL_KEYS: seq<Key> := [
    Bang, Question, LowC, CapD, QStartNoAckMode, QC, QOffsets, QSupported, QAttached,
    CapH, LowG, LowP, CapP, LowM, CapM, LowS, CapS, CapZ0, LowZ0, CtrlC, LowK, CapC,
    VMustReplyEmpty, CapX, VContQuestion, VCont]

  lemma AllKeysListed()
    ensures Order(ALL_KEYS)
  {
    forall k: Key ensures k in ALL_KEYS {
      match k
      case Bang => assert ALL_KEYS[0] == k; case Question => assert ALL_KEYS[1] == k;
      case LowC => assert ALL_KEYS[2] == k; case CapD => assert ALL_KEYS[3] == k;
      case QStartNoAckMode => assert ALL_KEYS[4] == k; case QC => assert ALL_KEYS[5] == k;
      case QOffsets => assert ALL_KEYS[6] == k; case QSupported => assert ALL_KEYS[7] == k;
      case QAttached => assert ALL_KEYS[8] == k; case CapH => assert ALL_KEYS[9] == k;
      case LowG => assert ALL_KEYS[10] == k; case LowP => assert ALL_KEYS[11] == k;
      case CapP => assert ALL_KEYS[12] == k; case LowM => assert ALL_KEYS[13] == k;
      case CapM => assert ALL_KEYS[14] == k; case LowS => assert ALL_KEYS[15] == k;
      case CapS => assert ALL_KEYS[16] == k; case CapZ0 => assert ALL_KEYS[17] == k;
      case LowZ0 => assert ALL_KEYS[18] == k; case CtrlC => assert ALL_KEYS[19] == k;
      case LowK => assert ALL_KEYS[20] == k; case CapC => assert ALL_KEYS[21] == k;
      case VMustReplyEmpty => assert ALL_KEYS[22] == k; case CapX => assert ALL_KEYS[23] == k;
      case VContQuestion => assert ALL_KEYS[24] == k; case VCont => assert ALL_KEYS[25] == k;
    }
  }

  /** A key that begins a command is the one found, unless the command begins with "vCont?". */
  lemma KeyIsFound(keys: seq<Key>, k: Key, command: Bytes)
    requires Order(keys) && Text(k) <= command && !(Text(VContQuestion) <= command)
    ensures Lookup(keys, command) == EntryOf(k)
  {
    OnePrefixKey(command);
    FirstKeyFinds(keys, Equals(command));
    FirstKeyFinds(keys, Begins(command));
    assert k in keys && Begins(command)(k);
    var e := FirstKey(keys, Equals(command));
    assert e.Some? ==> Begins(command)(e.value);
  }

  // ------------------------------------------------------- the commands a client types

  lemma TextOfQueries()
    ensures Text(QC) == [0x71, 0x43]
    ensures Text(QOffsets) == [0x71, 0x4F, 0x66, 0x66, 0x73, 0x65, 0x74, 0x73]
  {
  }

  lemma TextOfMoreQueries()
    ensures Text(QSupported) == [0x71, 0x53, 0x75, 0x70, 0x70, 0x6F, 0x72, 0x74, 0x65, 0x64]
    ensures Text(QAttached) == [0x71, 0x41, 0x74, 0x74, 0x61, 0x63, 0x68, 0x65, 0x64]
  {
  }

  lemma TextOfToggle()
    ensures Text(QStartNoAckMode)
         == [0x51, 0x53, 0x74, 0x61, 0x72, 0x74, 0x4E, 0x6F, 0x41, 0x63, 0x6B, 0x4D, 0x6F, 0x64, 0x65]
  {
  }

  lemma TextOfVCont()
    ensures Text(VCont) == [0x76, 0x43, 0x6F, 0x6E, 0x74]
    ensures Text(VContQuestion) == [0x76, 0x43, 0x6F, 0x6E, 0x74, 0x3F]
  {
  }

  lemma TextOfMust()
    ensures Text(VMustReplyEmpty)
         == [0x76, 0x4D, 0x75, 0x73, 0x74, 0x52, 0x65, 0x70, 0x6C, 0x79, 0x45, 0x6D, 0x70, 0x74, 0x79]
  {
  }

  lemma GoesOn(keys: seq<Key>, k: Key, text: Bytes, rest: Bytes)
    requires Order(keys) && k != VCont && k != VContQuestion && Text(k) == text
    ensures Lookup(keys, text + rest) == EntryOf(k)
  {
    if Text(VContQuestion) <= Text(k) + rest { KeysOfOneCommand(k, VContQuestion, Text(k) + rest); }
    KeyIsFound(keys, k, Text(k) + rest);
  }

  lemma LetterGoesOn(keys: seq<Key>, k: Key, rest: Bytes)
    requires Order(keys) && Second(k) == 0
    ensures Lookup(keys, [First(k)] + rest) == EntryOf(k)
  {
    GoesOn(keys, k, [First(k)], rest);
  }

  lemma TextOfBreakpoints()
    ensures Text(CapZ0) == [0x5A, 0x30] && Text(LowZ0) == [0x7A, 0x30]
  {
  }

  /** `g`, `p`, `P`, `m`, `M`, `X`, `Z0` and `z0`, whatever follows. */
  lemma AccessCommands(keys: seq<Key>, rest: Bytes)
    requires Order(keys)
    ensures Lookup(keys, [0x67] + rest) == Run(ReadGprs)
    ensures Lookup(keys, [0x70] + rest) == Run(ReadReg)
    ensures Lookup(keys, [0x50] + rest) == Run(WriteReg)
    ensures Lookup(keys, [0x6D] + rest) == Run(MemoryRead)
    ensures Lookup(keys, [0x4D] + rest) == Run(MemoryWrite)
    ensures Lookup(keys, [0x58] + rest) == Run(MemoryWrite)
    ensures Lookup(keys, [0x5A, 0x30] + rest) == Run(SetBreakpoint)
    ensures Lookup(keys, [0x7A, 0x30] + rest) == Run(ClearBreakpoint)
  {
    hide Lookup, Text;
    TextOfBreakpoints();
    LetterGoesOn(keys, LowG, rest);
    LetterGoesOn(keys, LowP, rest);
    LetterGoesOn(keys, CapP, rest);
    LetterGoesOn(keys, LowM, rest);
    LetterGoesOn(keys, CapM, rest);
    LetterGoesOn(keys, CapX, rest);
    GoesOn(keys, CapZ0, [0x5A, 0x30], rest);
    GoesOn(keys, LowZ0, [0x7A, 0x30], rest);
  }

  /** `s`, `S`, `c`, `C` and `vCont`, with no '?' after the last. */
  lemma RunCommands(keys: seq<Key>, rest: Bytes)
    requires Order(keys)
    ensures Lookup(keys, [0x73] + rest) == Run(SingleStep)
    ensures Lookup(keys, [0x53] + rest) == Run(SingleStepSig)
    ensures Lookup(keys, [0x63] + rest) == Run(Cont)
    ensures Lookup(keys, [0x43] + rest) == Run(ContWithSig)
    ensures rest == [] || rest[0] != 0x3F ==>
      Lookup(keys, [0x76, 0x43, 0x6F, 0x6E, 0x74] + rest) == Run(MulticoreActions)
    ensures Lookup(keys, [0x76, 0x43, 0x6F, 0x6E, 0x74, 0x3F]) == Run(SupportedActions)
  {
    hide Lookup, Text;
    LetterGoesOn(keys, LowS, rest);
    LetterGoesOn(keys, CapS, rest);
    LetterGoesOn(keys, LowC, rest);
    LetterGoesOn(keys, CapC, rest);
    TextOfVCont();
    if rest == [] || rest[0] != 0x3F {
      var command := Text(VCont) + rest;
      assert |command| > 5 ==> command[5] == rest[0];
      KeyIsFound(keys, VCont, command);
    }
    WholeKey(keys, VContQuestion);
  }

  lemma WholeKey(keys: seq<Key>, k: Key)
    requires Order(keys)
    ensures Lookup(keys, Text(k)) == EntryOf(k)
  {
    FirstKeyFinds(keys, Equals(Text(k)));
    OneExactKey(Text(k));
    assert k in keys && Equals(Text(k))(k);
  }

  lemma Answers()
    ensures EntryOf(Question) == Answer([0x53, 0x31, 0x32]) && EntryOf(QC) == Answer([0x2D, 0x31])
    ensures EntryOf(QAttached) == Answer([0x31]) && EntryOf(CapD) == Answer([0x64, 0x65, 0x74, 0x61, 0x63, 0x68])
  {
  }

  /** `?`, `D`, `qC`, `qAttached`, `k` and ctrl-C, which have their answer, or none, in the table itself. */
  lemma FixedCommands(keys: seq<Key>, rest: Bytes)
    requires Order(keys)
    ensures Lookup(keys, [0x3F] + rest) == Answer([0x53, 0x31, 0x32])
    ensures Lookup(keys, [0x44] + rest) == Answer([0x64, 0x65, 0x74, 0x61, 0x63, 0x68])
    ensures Lookup(keys, [0x71, 0x43] + rest) == Answer([0x2D, 0x31])
    ensures Lookup(keys, [0x71, 0x41, 0x74, 0x74, 0x61, 0x63, 0x68, 0x65, 0x64] + rest) == Answer([0x31])
    ensures Lookup(keys, [0x6B] + rest) == Silent && Lookup(keys, [3] + rest) == Silent
  {
    hide Lookup, Text;
    TextOfQueries();
    TextOfMoreQueries();
    Answers();
    LetterGoesOn(keys, Question, rest);
    LetterGoesOn(keys, CapD, rest);
    GoesOn(keys, QC, [0x71, 0x43], rest);
    GoesOn(keys, QAttached, Text(QAttached), rest);
    LetterGoesOn(keys, LowK, rest);
    LetterGoesOn(keys, CtrlC, rest);
  }

  /** `H`, `!`, `vMustReplyEmpty`, `qOffsets`, `qSupported` and `QStartNoAckMode`. */
  lemma OtherCommands(keys: seq<Key>, rest: Bytes)
    requires Order(keys)
    ensures Lookup(keys, [0x48] + rest) == Run(SetCore)
    ensures Lookup(keys, [0x21] + rest) == Run(CmdNotSupported)
    ensures Lookup(keys,
      [0x76, 0x4D, 0x75, 0x73, 0x74, 0x52, 0x65, 0x70, 0x6C, 0x79, 0x45, 0x6D, 0x70, 0x74, 0x79] + rest)
         == Run(CmdNotSupported)
    ensures Lookup(keys, [0x71, 0x4F, 0x66, 0x66, 0x73, 0x65, 0x74, 0x73] + rest) == Run(LoadOffsets)
    ensures Lookup(keys, [0x71, 0x53, 0x75, 0x70, 0x70, 0x6F, 0x72, 0x74, 0x65, 0x64] + rest) == Run(SupportedFeatures)
    ensures Lookup(keys,
      [0x51, 0x53, 0x74, 0x61, 0x72, 0x74, 0x4E, 0x6F, 0x41, 0x63, 0x6B, 0x4D, 0x6F, 0x64, 0x65] + rest)
         == Run(ToggleAck)
  {
    hide Lookup, Text;
    TextOfQueries();
    TextOfMoreQueries();
    TextOfToggle();
    TextOfMust();
    LetterGoesOn(keys, CapH, rest);
    LetterGoesOn(keys, Bang, rest);
    GoesOn(keys, VMustReplyEmpty, Text(VMustReplyEmpty), rest);
    GoesOn(keys, QOffsets, Text(QOffsets), rest);
    GoesOn(keys, QSupported, Text(QSupported), rest);
    GoesOn(keys, QStartNoAckMode, Text(QStartNoAckMode), rest);
  }

  /** The first bytes of the table's commands. */
  const STARTS: set<U8> := {0x21, 0x3F, 0x63, 0x44, 0x51, 0x71, 0x48, 0x67, 0x70, 0x50, 0x6D, 0x4D, 0x73, 0x53, 0x5A,
                            0x7A, 3, 0x6B, 0x43, 0x76, 0x58}

  lemma StartsListed(k: Key)
    ensures First(k) in STARTS && (First(k) in {0x5A, 0x7A} ==> Second(k) == 0x30)
  {
  }

  /** Anything else is not supported: no letter of the table's, or one of its letters that goes on otherwise. */
  lemma UnknownCommands(keys: seq<Key>, command: Bytes)
    requires Order(keys)
    requires command == [] || command[0] !in STARTS ||
      (command[0] in {0x5A, 0x7A} && |command| > 1 && command[1] != 0x30)
    ensures Lookup(keys, command) == Run(CmdNotSupported)
  {
    hide Text, First, Second, STARTS;
    FirstKeyFinds(keys, Equals(command));
    FirstKeyFinds(keys, Begins(command));
    forall k: Key | Text(k) <= command ensures false {
      KeyHeads(k, command);
      StartsListed(k);
    }
  }
}
