# A verified model of the NFP RSP stub

The repository is a GDB server for the RISC-V cores (RFPC) of an NFP network card.  A client's packets
arrive over a byte stream; the server turns them into reads and writes of hart registers and memory, which
it can only reach by writing the registers of a RISC-V debug module over an on-chip bus, which in turn it
can only reach through a movable window in a PCIe BAR.  This project models that tower from the wire down
to the hart and proves what each layer promises the one above it.

`dafny verify dfyconfig.toml` checks everything.

| file | what it holds |
|---|---|
| Numbers, Hex, Bits | machine words and their bytes, hexadecimal text, shifts and lowest bits |
| DebugModule, Chip | the device: 32 harts behind a debug module ("RISC-V External Debug Support" 0.13.2, sections 3.5, 3.6.1.1, 3.7, 3.12, 4.8.1), and the bus that leads to it |
| Rfpc | islands, register numbers, debug-module addresses, hart selection (`rfpc.rs`, ids of `cpp_bus.rs`) |
| ExpansionBar, Buses | the BAR window with its cached configuration, and the CPP, XPB and memory-unit accessors |
| Commands, Debugger, RunControl, Faults | the driver (`rfpc_debugger.rs`): what its commands do to a module, the calls themselves, run control, and a module with an error |
| Framing | the packet parser and formatter (GDB manual, appendix E, section E.1 "Overview") |
| Dispatch, Handlers, Session | the command table, what each packet is to do to the harts and answer, and connections in these terms |
| Stubs, Serving | what each packet does and answers in any state of harts and debug modules, and connections step by step |
| Refinement | the second is the first as long as no debug module has an error |
| RspServer | the server object (`rsp_server_stub.rs`) |
| Replies, Packets | replies that need no escaping, the packets a client builds |
| EndToEnd, Registers, Breakpoints, BreakpointPackets, Transparency, Switching, Resuming, Threads | what packets come to, from the wire to the hart |
| ClientView | the same in the client's own numbers: its letters, addresses, bytes and bus transactions |
| Outages | what packets come to when the hart runs or its module has an error |
| Connections | the same for the server object and its stream |

How the pieces fit: every method of the classes `ExpansionBar`, `Stream` and `RspServer` and of the driver
is proved against a specification function, and most results are lemmas about those functions.
`RspServer.RspServer.Serve` is the link at the top: from any state whatever, a connection served by the
object is `Serving.ServeSteps` of the events on its stream, scratch registers of the debug modules and their
errors included.  `Refinement.RefinesRun` hides those: while no module has an error and the harts asked for
are halted, the same connection is `Session.ServeAll` over the harts alone, which is what most lemmas about
packets speak of.  The methods of `Connections` cross both links: they take a server object, with its parser,
its driver and the injected instructions, and a stream that holds the packets, and ensure the state it is left
in and every byte it has sent.  A panic of the Rust code is
`Outcome.Panic` (of a handler: `Dies` or `Died`); how many times a busy module is polled, how long a resumed hart
runs, what its firmware does meanwhile, which CSR writes trap, what the BAR's CSRs held before and in which
order the hash map is iterated are arbitrary, and all results hold for every choice.  A panic needs an
excuse as well: in a window of sensible size the driver gives up only while a command is still in flight or
a hart still running, having kept to its own hart and to the debug module's rules; and the server only at a
packet its specification dies of, or where the driver gives up, or at a packet that goes to the CTM and
finds the window's end.

Main results:

* `Connections.WriteAndReadMemory`: the server object, given an escaped `X` packet with arbitrary bytes and
  then `m`, stores exactly those bytes, answers OK and their hex, and changes nothing else but the zero fill;
  `EndToEnd.WriteIsExactIff` says exactly when the zero fill does no harm.
* `ClientView.XStores`, `MReads`, `Z0Plants`, `CtmXWrites` and its other packets, spelled out byte by byte: at which
  address, with which bus transaction, to which register they go.
* `Connections.WriteAndReadRegister`: `P` then `p` for any two registers, including the x11 that a CSR write
  leaves overwritten; `Registers.GIsAllP`: `g` is all the `p` replies joined.
* `Breakpoints.OverlayHolds`, `NestedRestores`, `FifoSafeIff`, `SecondSafeIff`: memory under breakpoints, and
  exactly when overlapping ones go wrong; on the server object `Connections.SetAndClearAll` and
  `SetAndClearNested`.
* `Transparency.BreakpointsAreTransparent`, and `Connections.AskAll` for the object: set and cleared among reads
  and writes of registers and memory, breakpoints leave the server, and the answers to everything else, exactly
  as the same packets without them; `OverlayThrough` carries the overlay through steps and continues as well.
* `Switching.RestoresIff`, `SwitchSafeIff`: the one table for all cores, when another core is chosen between
  setting and clearing: the first core keeps its ebreak and the other one is overwritten.
* `Outages.WriteIsEchoed`, `GAnswered`, `ErrorsLast`: what a client is told of a hart that runs or a module with
  an error, and that no packet ever mends it.
* `Threads.VContHandled`, `OthersUntouched`: a `vCont` packet touches exactly the harts it names, in order.
* `Buses.WindowRefinesBus`: the cached, moving window is the bus itself.
* `Debugger.RfpcDbgReadMemory`, `RfpcDbgWriteMemory`: word-exact memory access through two borrowed
  registers that are put back, never touching the module while it is busy.
* `Commands.WriteTakesEffectIff`, `Faults.DeadModuleIsACell`: exactly when a register write takes effect, and
  what the driver sees once a command has failed: it never clears the error, so nothing is stored any more,
  and yet every register read answers with whatever was written last.
* `RunControl.GoStarts`, `GoLeaves`, `GoesThroughIff`: which bits of dcsr the firmware starts with, what a step or
  continue leaves behind, and exactly when it goes through.
* `Framing.PacketsAreIndependent`, `PayloadsArriveInOrder`, `Replies.RepliesAreClean`,
  `Serving.AcksOverRun`, `Dispatch.AmbiguousIffOrderMatters`: the protocol.

## Model

| member | source | states |
|---|---|---|
| Numbers.CastRoundTrip | src/libs/rsp_server_stub.rs:819-821 | casting a byte slice to u64 words loses nothing: the words' little-endian bytes are the slice |
| Numbers.SwapTwice | src/libs/rsp_server_stub.rs:476-478 | the byte swap of register values is its own inverse |
| Hex.HexSwappedIsLittleEndian | src/libs/rsp_server_stub.rs:456 | a swapped value printed in 16 digits is the hex of the register's little-endian bytes |
| Hex.HexDetermines | src/libs/rsp_server_stub.rs:898-900 | different bytes never print the same hex |
| Hex.ParseHexNumber | src/libs/rsp_server_stub.rs:369-370 | a number in enough hex digits, leading zeros included, parses to itself |
| Hex.HexText | src/libs/rsp_server_stub.rs:898-900 | byte i is printed as digits 2i and 2i + 1, lower case, the high one first |
| Hex.NumberTexts | src/libs/rsp_server_stub.rs:369-370 | a number is digits of the radix in either letter case after at most one plus sign, and nothing else |
| Bits.TrailingZeros | src/libs/expansion_bar.rs:278-281 | the lowest-set-bit position is below n exactly when the value is not a multiple of 2 to the n |
| Bits.BitLengthBound | src/libs/expansion_bar.rs:265-268 | 64 minus the leading zeros is at most n exactly when the value is below 2 to the n |
| RfpcCores.ThreadsAreHarts | src/libs/rfpc.rs:287-292 | thread ids 0 to 31 and the cores of the cluster correspond one to one, and the id is the hart number |
| RfpcCores.RegistersDiffer | src/libs/rfpc.rs:155-186 | no two of the 58 register numbers name the same register |
| RfpcCores.CsrsAscend | src/libs/rfpc.rs:155-186 | the CSR table, in GDB's order, is the ascending list of the ranges the g loops run over |
| RfpcCores.RegisterNumbers | src/libs/rfpc.rs:155-186 | the address behind each of the 58 register numbers, dcsr 0x7b0 and dpc 0x7b1 among them |
| RfpcCores.IslandIdRoundTrip | src/libs/cpp_bus.rs:29-72 | from_id inverts id, and accepts exactly the ids below 16 |
| RfpcCores.IslandIds | src/libs/cpp_bus.rs:10-72 | the sixteen ids |
| ExpansionBar.DecodeEncode | src/libs/expansion_bar.rs:250-333 | the hardware's reading of the two packed CSRs recovers the mapping, every field it carries, and the base up to its granule |
| ExpansionBar.MapNumbers | src/libs/expansion_bar.rs:250-276 | the codes and base widths of the five mappings, and the whole CSR pair of the explicit one |
| ExpansionBar.AccessIsDirect | src/libs/cpp_bus.rs:177-230 | an access through the window that does not panic is exactly the requested transaction, whatever the CSRs held, and the cache stays truthful |
| ExpansionBar.LowBitsCheck | src/libs/expansion_bar.rs:278-289 | the truncation test refuses exactly the non-zero bases that are not a multiple of the granule, and underflows exactly for base zero |
| ExpansionBar.ExpansionBar.constructor | src/libs/expansion_bar.rs:120-132 | a fresh window has an empty cache and takes the device's CSRs as they are |
| ExpansionBar.ExpansionBar.WriteIfChanged | src/libs/expansion_bar.rs:335-340 | afterwards device and cache hold the pair, except that nothing is written when the cache already had it |
| ExpansionBar.ExpansionBar.ExpansionBarCfg | src/libs/expansion_bar.rs:241-341 | the panics, and their order, are those of CfgFailure with the state untouched; otherwise the window is configured with the encoding |
| ExpansionBar.ExpansionBar.PackFields | src/libs/expansion_bar.rs:291-333 | the running bit index puts every base bit where the map type's layout wants it |
| ExpansionBar.ExpansionBar.Read | src/libs/expansion_bar.rs:343-354 | panics exactly when the region is left, else performs the transaction the CSRs stand for |
| ExpansionBar.ExpansionBar.Write | src/libs/expansion_bar.rs:356-368 | panics exactly when the region is left, else performs the transaction the CSRs stand for |
| Buses.ConfigureExpBar | src/libs/cpp_bus.rs:177-198 | the window covers the address and the result is the offset inside it |
| Buses.CppRead | src/libs/cpp_bus.rs:200-215 | is one access through the window, panic for panic |
| Buses.CppWrite | src/libs/cpp_bus.rs:217-230 | is one access through the window, panic for panic |
| Buses.XpbRead | src/libs/xpb_bus.rs:8-42 | switches the shared BAR to Bulk and reads at the composed address of the island or the master; when it returns, exactly the transaction XpbTxn has taken place |
| Buses.XpbWrite | src/libs/xpb_bus.rs:44-76 | switches the shared BAR to Bulk and writes at the composed address of the island or the master; when it returns, exactly the transaction XpbTxn has taken place |
| Buses.MemRead | src/libs/mem_access.rs:83-122 | switches the shared BAR to Fixed; when it returns, exactly the transaction MemTxn is on the bus and the words are what it read |
| Buses.MemWrite | src/libs/mem_access.rs:124-163 | switches the shared BAR to Fixed; when it returns, exactly the transaction MemTxn is on the bus |
| Buses.MemTransaction | src/libs/mem_access.rs:17-163 | field by field, for all memories and engines: target 7 or 15, token 0, the engine's read or write action (34 and 4, 28 and 31, 0 and 1), its length, and the address as it is |
| Buses.TargetIds | src/libs/cpp_bus.rs:98-150 | the ids of targets and lengths |
| Buses.XpbTransaction | src/libs/xpb_bus.rs:8-76 | field by field: target 14, token 0, length 0, the low 24 bits of the address with the island above them, and through the master island 1 and bit 31 |
| Buses.CallIsDirect | src/libs/xpb_bus.rs:8-76 | each of the four accessors reaches exactly the island, target and 48-bit address it was asked for |
| Buses.WindowRefinesBus | src/libs/expansion_bar.rs:241-341 | any run of the four accessors over one BAR, from any CSR contents, equals the same run of direct bus transactions, values read included |
| Buses.LosslessIff | src/libs/expansion_bar.rs:270-289 | the base survives the CSRs exactly when its low 48 minus width bits are zero, which for a non-zero base is exactly when the check passes |
| Buses.XpbWordNeverPanics | src/libs/xpb_bus.rs:8-76 | a one-word access to a debug module never panics in a window of at least 1 KiB (at most 2 GiB with overflow checks) |
| Buses.MemPanicsIff | src/libs/mem_access.rs:83-163 | a memory access panics exactly when its end passes the window, or its base is zero and overflow checks are on |
| Commands.CommandWords | src/libs/rfpc_debugger.rs:348-455 | the command words 0x32, 0x33, 0x36 and 0x37 decode to the transfers meant, 0x360000 reading CSR 0 as well |
| Commands.Injected | src/libs/rfpc_debugger.rs:440-632 | the three injected words decode to ld a0,0(a0), sd a1,0(a0) and csrrw x0,csr,a1 |
| Commands.LoadCommand | src/libs/rfpc_debugger.rs:500-519 | the load command leaves the little-endian word at the address in a0 and changes nothing else |
| Commands.StoreCommand | src/libs/rfpc_debugger.rs:609-642 | the store command leaves the address in a0 and a1's bytes at the address |
| Commands.CsrWriteCommand | src/libs/rfpc_debugger.rs:439-458 | the CSR command moves a1 into the CSR and CSR 0 into data0/1, or records an exception when the CSR traps |
| Debugger.DmTransaction | src/libs/rfpc_debugger.rs:340-355 | an XPB access at the module's base plus a register offset reaches that register of that module and no other device |
| Debugger.OnTheBus | src/libs/rfpc_debugger.rs:340-355 | the transaction behind an access to a debug-module register of any core, field by field |
| Debugger.RegisterMap | src/libs/rfpc_debugger.rs:17-43 | the addresses of the seven debug-module registers the driver uses |
| Debugger.AbstractCmdBusyWait | src/libs/rfpc_debugger.rs:312-332 | when it returns the command in flight has had its whole effect, however often it was polled; it gives up only while the command is in flight |
| Commands.ReadStepsGive | src/libs/rfpc_debugger.rs:334-379 | a read yields the register exactly of a halted hart behind a module without an error, and otherwise the data registers' old contents with the error kept |
| Commands.WriteTakesEffectIff | src/libs/rfpc_debugger.rs:381-459 | a register write leaves no error and reaches the hart exactly when the module had none, the hart is halted and a CSR write does not trap; else nothing changes but x11 when a CSR write traps |
| Commands.ReadMemoryOfReady | src/libs/rfpc_debugger.rs:461-557 | the steps of a memory read yield the words and leave the hart as it was, a0 included |
| Commands.WriteMemoryOfReady | src/libs/rfpc_debugger.rs:559-648 | the steps of a memory write leave the words' bytes in memory and everything else as it was, a0 and a1 included |
| Debugger.ReadRegister | src/libs/rfpc_debugger.rs:334-379 | reading a register is those steps, in any state of hart and module |
| Debugger.WriteRegister | src/libs/rfpc_debugger.rs:381-459 | writing a register is those steps, in any state of hart and module |
| Debugger.LoadMemory | src/libs/rfpc_debugger.rs:461-557 | reading memory is those steps, in any state of hart and module |
| Debugger.StoreMemory | src/libs/rfpc_debugger.rs:559-648 | writing memory is those steps, in any state of hart and module |
| Faults.DeadModuleIsACell | src/libs/rfpc_debugger.rs:141-648 | once a command has failed, over every run of register and memory accesses, halts, steps and continues of any harts, a register read returns the last value written to any register (or the data registers as they were), a memory read returns the addresses asked for, and nothing reaches a hart but stops and resumes with dcsr unarmed |
| Faults.WriteSeemsToSucceed | src/libs/rfpc_debugger.rs:334-459 | after an error a register write stores nothing, and the next read of any register of any hart answers with it |
| Faults.GoOfDead | src/libs/rfpc_debugger.rs:216-310 | after an error a step or continue resumes the hart with dcsr as it is, and judges the halt cause by the value it has itself written |
| Debugger.RfpcDbgReadReg | src/libs/rfpc_debugger.rs:334-379 | the register's value; harts, other modules and bus as before, module quiet and never touched while busy; panics only while a command is in flight, with no other hart or module touched and no rule broken |
| Debugger.RfpcDbgWriteReg | src/libs/rfpc_debugger.rs:381-459 | a general register alone is changed, a CSR together with x11; a trapping CSR write leaves cmderr 3, x11 overwritten and CSR 0 in the data registers |
| Debugger.RfpcDbgReadMemory | src/libs/rfpc_debugger.rs:461-557 | exactly the little-endian words from the address on, and the hart left as it was, a0 included |
| Debugger.RfpcDbgWriteMemory | src/libs/rfpc_debugger.rs:559-648 | word i's bytes end at address plus 8i, and no other byte, register or hart differs, a0 and a1 included |
| RunControl.RfpcDbgHalt | src/libs/rfpc_debugger.rs:141-177 | the hart is halted, as its firmware left it, and was not resumed |
| RunControl.RfpcDbgResume | src/libs/rfpc_debugger.rs:179-214 | the hart runs, with exactly one resume issued and nothing else changed |
| RunControl.RfpcDbgSingleStep | src/libs/rfpc_debugger.rs:216-262 | returns only after a halt with cause 4, in the state Go1 gives; panics for any other cause, and else only while waiting for the hart or a command |
| RunControl.RfpcDbgContinue | src/libs/rfpc_debugger.rs:264-310 | returns only after a halt with cause 1, in the state Go1 gives; panics for any other cause, and else only while waiting for the hart or a command |
| RunControl.GoAnyhow | src/libs/rfpc_debugger.rs:216-310 | a step or continue is the steps of GoSteps in any state of hart and module, and panics for the wrong cause or while waiting, with no other hart or module touched |
| RunControl.GoOfReady | src/libs/rfpc_debugger.rs:216-310 | on a halted hart behind a module without an error those steps are Go1: arm, resume once, check, disarm |
| RunControl.GoLeaves | src/libs/rfpc_debugger.rs:216-310 | one resume; afterwards the arming bits are clear, the halt cause and all other low dcsr bits as the halt left them, x11 holds dcsr, and no memory, other register or other hart differs from what the firmware left |
| RunControl.GoStarts | src/libs/rfpc_debugger.rs:216-232 | the firmware resumes with its own state except that bit 2 of dcsr (single step), or its bits 15 and 12 (continue), are set and no other bit of it has changed, and that x11 holds the same value |
| RunControl.ArmAndRun | src/libs/rfpc_debugger.rs:216-232 | on a ready hart the core is armed in exactly those bits, by way of x11, and then resumed once; in any other state the steps of ReadSteps and WriteSteps are taken |
| RunControl.GoesThroughIff | src/libs/rfpc_debugger.rs:241-256 | a step goes through exactly when bits 8:6 of dcsr are 4 after the halt, a continue exactly when they are 1 |
| RunControl.Disarmed | src/libs/rfpc_debugger.rs:260-308 | disarming keeps the cause and every other bit of the low half of dcsr |
| Framing.CalculateRspChecksum | src/libs/rsp_server_stub.rs:1032-1034 | the sum of all bytes modulo 256 |
| Framing.ChecksumIsSum | src/libs/rsp_server_stub.rs:1032-1034 | wrapping after every byte gives the whole sum modulo 256 |
| Framing.ReceivedAs | src/libs/rsp_server_stub.rs:1087-1092 | the two checksum bytes are read as two hex digits, or a plus sign and one, and as zero when they are neither |
| Framing.EscapeRoundTrip | src/libs/rsp_server_stub.rs:1065-1081 | what the parser unescapes from an escaped payload is the payload |
| Framing.EscapedIsInverted | src/libs/rsp_server_stub.rs:1071-1074 | in any body, whatever byte follows 0x7d is taken for the one with bit 5 inverted and every other bit kept |
| Framing.EscapeSnoc | src/libs/rsp_server_stub.rs:1065-1081 | a client escapes 0x23, 0x24 and 0x7d as 7d 03, 7d 04 and 7d 5d, and nothing else |
| Framing.EscapedArrives | src/libs/rsp_server_stub.rs:1053-1104 | on the stream, a body that ends in one of those pairs parses to one that ends in '#', '$' or '}' |
| Framing.ParseEscaped | src/libs/rsp_server_stub.rs:1053-1104 | the parser itself on such a stream |
| Framing.FrameRoundTrip | src/libs/rsp_server_stub.rs:1053-1104 | every payload survives escaping, framing and parsing, whatever '$'-free noise precedes it, and the rest of the stream is left unread |
| Framing.ReplyRoundTrip | src/libs/rsp_server_stub.rs:1119-1133 | an unescaped reply without framing characters parses back to itself |
| Framing.PacketsAreIndependent | src/libs/rsp_server_stub.rs:1053-1104 | in a stream of packets each is accepted or rejected on its own, and a rejected one leaves the stream where the next begins |
| Framing.PayloadsArriveInOrder | src/libs/rsp_server_stub.rs:1053-1104 | n framed payloads with '$'-free noise between them come out as exactly those payloads, in order |
| Framing.ChecksumDecides | src/libs/rsp_server_stub.rs:1087-1103 | with two hex digits for a checksum a body is accepted exactly when they are right |
| Framing.Stream.SkipPast | src/libs/rsp_server_stub.rs:1058-1063 | the stream is left behind the first '$', or exhausted |
| Framing.Stream.ReadBody | src/libs/rsp_server_stub.rs:1065-1081 | the raw body up to '#' and its unescaped form, with the stream left behind the '#' |
| Framing.ParseRspPacket | src/libs/rsp_server_stub.rs:1053-1104 | the packet, the unread rest and the '+' are those of the specification ParseOnce, rejections and a closed stream included |
| Framing.FormatRspPacket | src/libs/rsp_server_stub.rs:1119-1133 | the response between '$' and '#' followed by its checksum in two digits |
| Dispatch.KeysOfOneCommand | src/libs/rsp_server_stub.rs:61-152 | two different keys begin the same command only if they are vCont and vCont? |
| Dispatch.OrderDoesNotMatter | src/libs/rsp_server_stub.rs:983-1017 | unless the command goes on after vCont? every iteration order of the table finds the same entry |
| Dispatch.AmbiguousIffOrderMatters | src/libs/rsp_server_stub.rs:1002-1012 | two iteration orders find different entries exactly for the commands that go on after vCont? |
| Dispatch.AmbiguousPicks | src/libs/rsp_server_stub.rs:1002-1012 | such a command goes to whichever of its two keys comes first |
| Dispatch.KeyIsFound | src/libs/rsp_server_stub.rs:1002-1012 | a key that begins a command is the one found, whatever the order |
| Dispatch.AccessCommands | src/libs/rsp_server_stub.rs:91-150 | for every iteration order and whatever follows: g, p, P, m, M, X, Z0 and z0, as bytes, find their handlers |
| Dispatch.RunCommands | src/libs/rsp_server_stub.rs:111-150 | the same of s, S, c, C, vCont and vCont? |
| Dispatch.FixedCommands | src/libs/rsp_server_stub.rs:66-118 | the same of ?, D, qC, qAttached, k and ctrl-C, with their replies as bytes |
| Dispatch.OtherCommands | src/libs/rsp_server_stub.rs:61-138 | the same of H, !, vMustReplyEmpty, qOffsets, qSupported and QStartNoAckMode |
| Dispatch.UnknownCommands | src/libs/rsp_server_stub.rs:1002-1016 | a command that starts with no letter of the table, or with Z or z and not 0, is not supported |
| RspServer.RspServer.constructor | src/libs/rsp_server_stub.rs:168-204 | the thread map holds exactly the 32 cores of the cluster, no breakpoints, acknowledgements on, and the harts left as they are, running or not |
| RspServer.RspServer.ReadGprs | src/libs/rsp_server_stub.rs:223-269 | the reads of all registers in the order of the range loops, from any state of hart and module, and their digits joined |
| RspServer.RspServer.ReadReg | src/libs/rsp_server_stub.rs:366-457 | the read of one register from any state of hart and module, and its digits; malformed packets and unknown numbers panic |
| RspServer.RspServer.WriteReg | src/libs/rsp_server_stub.rs:468-567 | the write of one register from any state of hart and module, answered OK whether it takes effect or not; malformed packets panic |
| RspServer.RspServer.MulticoreActions | src/libs/rsp_server_stub.rs:574-622 | the actions one after the other, selecting each thread's core, whatever state its hart is in |
| RspServer.RspServer.Act | src/libs/rsp_server_stub.rs:593-617 | one action on the core of its thread, whatever state its hart is in |
| RspServer.RspServer.GoFrom | src/libs/rsp_server_stub.rs:628-655 | the optional address goes to dpc (through x11) before the run, whatever state the hart is in; panics when the halt cause read back is the wrong one |
| RspServer.RspServer.SetBreakpoint | src/libs/rsp_server_stub.rs:662-713 | the word read is saved under the full address and written back with ebreak at the masked one, in the CTM over the bus or through the hart, whatever state that is in |
| RspServer.RspServer.ClearBreakpoint | src/libs/rsp_server_stub.rs:715-754 | the saved word is written back and the entry goes, whatever state the hart is in; an unknown address panics |
| RspServer.RspServer.MemoryWrite | src/libs/rsp_server_stub.rs:765-825 | the padded data is written word by word, in the CTM over the bus or through the hart in any state; every malformed packet panics |
| RspServer.RspServer.MemoryRead | src/libs/rsp_server_stub.rs:839-904 | the words read, in the CTM over the bus or through the hart in any state, truncated and in hex; every malformed packet panics |
| RspServer.RspServer.ToggleAck | src/libs/rsp_server_stub.rs:966-971 | acknowledgements are off afterwards, and nothing else changes |
| RspServer.RspServer.FindEntry | src/libs/rsp_server_stub.rs:983-1017 | the exact key's entry, else that of the first key in iteration order that is a prefix |
| RspServer.RspServer.HandlePacket | src/libs/rsp_server_stub.rs:983-1017 | for every packet in every state: new state and reply are those of AnswerPacket, and the object panics when the packet kills the stub, while waiting for the hardware, or for a CTM packet past the window's end, and never else |
| RspServer.RspServer.ServeRound | src/libs/rsp_server_stub.rs:1161-1191 | one turn of the loop: state, unread bytes, bytes sent and whether to go on; a panic has its excuse in the packet, whose acknowledgement is out |
| RspServer.RspServer.Serve | src/libs/rsp_server_stub.rs:1161-1192 | every connection from every state: one that comes through leaves the state and has sent exactly the bytes of ServeSteps over the stream's events and a '-' for an unfinished packet at its end; one that panics did so at a packet that kills the stub, waits for the hardware or goes to the CTM past the window's end, with everything before it and its acknowledgement sent |
| Stubs.PacketKeeps | src/libs/rsp_server_stub.rs:983-1017 | whatever a packet does, in whatever state, the server can serve the next one, no debug module has a command in flight or was ever touched during one, the bus log only grows, and only QStartNoAckMode touches the acknowledgement mode |
| Session.HandleKeeps | src/libs/rsp_server_stub.rs:983-1017 | the same of what Handlers specifies |
| Refinement.RefinesPacket | src/libs/rsp_server_stub.rs:983-1017 | while no module has an error, every packet does to the harts and answers what Handlers specifies, and leaves no module with an error, unless that says nothing of it |
| Refinement.RefinesRun | src/libs/rsp_server_stub.rs:1161-1191 | a connection that Handlers brings to its end takes the server there too, with the same bytes sent |
| Serving.ToggleIff | src/libs/rsp_server_stub.rs:72-75 | a command turns acknowledgements off exactly when it begins with QStartNoAckMode |
| Serving.AckModeStep | src/libs/rsp_server_stub.rs:966-971 | the mode is switched off by that packet and by nothing else, and never back on |
| Serving.AcksOverRun | src/libs/rsp_server_stub.rs:1092-1187 | over a whole connection, survived or not, '+' per accepted and '-' per rejected packet, up to and including the one that turns them off or that the stub dies of, and none after acks are off |
| Serving.RoundContinues | src/libs/rsp_server_stub.rs:1161-1191 | serving one packet and then the rest of the stream is serving the stream |
| Serving.OnlyWaitingExcuses | src/libs/rsp_server_stub.rs:1161-1191 | a connection that comes to its end without bus transactions leaves a panic no excuse but waiting for the hardware |
| Connections.Exchange | src/libs/rsp_server_stub.rs:1161-1191 | the object, for any single packet Handlers answers off the CTM: the state and every byte sent, and no panic but while waiting |
| Connections.Converse | src/libs/rsp_server_stub.rs:1161-1191 | the same in any state of harts and debug modules, errors and running harts included |
| Connections.ReadAllOfMute | src/libs/rsp_server_stub.rs:223-269 | the object, g while the selected hart runs or its module has an error: 58 copies of the one value in the data registers are sent and no hart is touched |
| Connections.WriteAndReadMemory | src/libs/rsp_server_stub.rs:765-1191 | the object, for all data: after X and m on the stream exactly the data is in the hart's memory at the low 32 bits of the address, and OK and its hex have been sent, nothing else changed but the zero fill; no panic but while waiting |
| Connections.WriteAndReadRegister | src/libs/rsp_server_stub.rs:366-1191 | the object, for any two registers: after P n=v and p m the register holds v, and OK and register m's digits have been sent; no panic but while waiting |
| Connections.SetAndClearAll | src/libs/rsp_server_stub.rs:662-1191 | the object, for breakpoints 8 bytes apart set and cleared in any order: its whole state is as before and every packet answered OK; no panic but while waiting |
| Connections.SetAndClearNested | src/libs/rsp_server_stub.rs:662-1191 | the same for nested breakpoints however they overlap |
| Connections.AskAll | src/libs/rsp_server_stub.rs:223-1191 | the object, for breakpoints set and cleared among g, p, P, m and X: its state is what the same packets without Z0 and z0 lead to, and the bytes sent are theirs with an OK for each of those; no panic but while waiting |
| Replies.RepliesAreClean | src/libs/rsp_server_stub.rs:983-1017 | no reply of any packet in any state holds '#', '$' or '}' |
| Packets.XPacketParts | src/libs/rsp_server_stub.rs:766-782 | the first colon of an X packet ends its header even when the data holds colons and commas |
| EndToEnd.WriteHandled | src/libs/rsp_server_stub.rs:765-825 | an X packet with any declared length: nothing for zero, a panic exactly when declared and real length differ modulo 8, else all the data and the zero fill |
| EndToEnd.WriteIsExactIff | src/libs/rsp_server_stub.rs:797-802 | the zero fill leaves the neighbouring bytes alone exactly when they were zero |
| EndToEnd.ReadHandled | src/libs/rsp_server_stub.rs:839-904 | an m packet answers the hex of exactly the bytes there and changes nothing |
| EndToEnd.CtmReadHandled | src/libs/rsp_server_stub.rs:862-888 | an m packet for whole words of the CTM is one bus read, and each word is printed as a number of eight digits |
| EndToEnd.StoredBytes | src/libs/rsp_server_stub.rs:817-822 | the state a memory write is specified to leave differs from the one before in exactly the addressed bytes of one hart |
| EndToEnd.MemoryRoundTrip | src/libs/rsp_server_stub.rs:765-904 | the specified course of a connection, for all data: escaped X then m is answered with OK and then the hex of exactly the data, and leaves nothing else changed but the zero fill |
| EndToEnd.ClientReadsBack | src/libs/rsp_server_stub.rs:1119-1133 | the client's parser takes exactly that hex from the reply stream, and no other data has it |
| ClientView.AddressFieldsOf | src/libs/rsp_server_stub.rs:675-676 | bits 51:48 of an address are 1 for the CTM and nothing else, and bits 31:0 go on to the hart or the bus |
| ClientView.XStores | src/libs/rsp_server_stub.rs:765-825 | X, spelled out: the data and zeros up to a multiple of 8 are at the low 32 bits of the address, and nothing else has changed |
| ClientView.MReads | src/libs/rsp_server_stub.rs:839-904 | m, spelled out: the hex of the bytes at the low 32 bits of the address |
| ClientView.Z0Plants | src/libs/rsp_server_stub.rs:662-713 | Z0, spelled out: 73 00 10 00 at the low 32 bits of the address, and the eight bytes from there in the table under the whole address |
| ClientView.Z0PutsBack | src/libs/rsp_server_stub.rs:715-754 | z0, spelled out: the eight bytes of the table at the low 32 bits of the address, or a panic without an entry |
| ClientView.UpperHalfIgnored | src/libs/rsp_server_stub.rs:792-858 | off the CTM X and m do the same whatever the upper half of the address |
| ClientView.WordCounts | src/libs/rsp_server_stub.rs:862-890 | the number of words a length rounds up to, or an overflow at the top of 64 bits: a panic with overflow checks, no words without |
| ClientView.MOverflows | src/libs/rsp_server_stub.rs:889-900 | m for that many bytes kills the stub with overflow checks, and is answered with nothing without |
| ClientView.CtmMReads | src/libs/rsp_server_stub.rs:862-888 | m for the CTM: one read with island 9, target 7, action 28, token 0, length 0 of the words needed, and the hex of the bytes asked for |
| ClientView.BigEndianAt | src/libs/rsp_server_stub.rs:875-888 | the bytes of each CTM word are printed most significant first |
| ClientView.CtmXWrites | src/libs/rsp_server_stub.rs:803-815 | X for the CTM: one write with island 9, target 7, action 31, token 0, length 0 of the data and its zero fill |
| ClientView.CastKeepsOrder | src/libs/rsp_server_stub.rs:803-815 | word i of it is made of bytes 4i to 4i + 3, least significant first |
| ClientView.CtmZ0Plants | src/libs/rsp_server_stub.rs:677-700 | Z0 for the CTM: a read with action 34, then a write of ebreak with action 4 |
| ClientView.CtmZ0PutsBack | src/libs/rsp_server_stub.rs:737-747 | z0 for the CTM: a write of the word with action 4 |
| ClientView.PReads | src/libs/rsp_server_stub.rs:366-457 | p, spelled out, for all 58 numbers and register addresses |
| ClientView.PWrites | src/libs/rsp_server_stub.rs:468-567 | P, spelled out: the register, with x11 for a CSR and nothing for x0 |
| ClientView.RunPackets | src/libs/rsp_server_stub.rs:628-655 | s is a single step and c a continue |
| ClientView.FixedReplies | src/libs/rsp_server_stub.rs:61-152 | ?, qC, H, !, k, ctrl-C and D as bytes, with their replies |
| ClientView.FeaturesReply | src/libs/rsp_server_stub.rs:905-956 | qSupported is answered with PacketSize=100000;qMemoryRead+;swbreak+ |
| ClientView.DetachReply | src/libs/rsp_server_stub.rs:1175-1187 | a detach is answered with $OK#9a |
| Registers.PHandled | src/libs/rsp_server_stub.rs:366-457 | p n answers the hex of the register's little-endian bytes for all 58 registers, in any number of leading zeros |
| Registers.CapPHandled | src/libs/rsp_server_stub.rs:468-567 | P n=v stores v as the client means it |
| Registers.WrittenRegisters | src/libs/rfpc_debugger.rs:381-459 | a register write changes that register (never x0), a CSR write x11 as well, and no memory |
| Registers.WriteThenRead | src/libs/rsp_server_stub.rs:366-567 | the specified course of a connection for P n=v then p m, for any two registers: v for n = m, v for x11 after a CSR, the old value otherwise |
| Registers.SameDigitsIff | src/libs/rsp_server_stub.rs:366-567 | the 16 digits written come back exactly unless something other than zero is written to x0 |
| Registers.AllInOrder | src/libs/rsp_server_stub.rs:223-269 | the range loops visit the registers in the order of the lookup table |
| Registers.GIsAllP | src/libs/rsp_server_stub.rs:223-457 | the reply to g is the replies to p 0 to p 57 joined |
| Breakpoints.PatchIsPlant | src/libs/rsp_server_stub.rs:703-709 | saving 8 bytes and storing the patched word changes the 4 bytes of one instruction to ebreak |
| Breakpoints.ApartIff | src/libs/rsp_server_stub.rs:662-754 | two addresses are apart exactly when their saved windows have no byte in common |
| Breakpoints.RunOpsIsRunMem | src/libs/rsp_server_stub.rs:662-754 | a run of Z0 and z0 changes the table and one hart's memory and nothing else |
| Breakpoints.OverlayHolds | src/libs/rsp_server_stub.rs:662-754 | with addresses 8 bytes apart, memory is always the original with ebreak at exactly the table's addresses, in any order of setting and clearing |
| Breakpoints.SurvivesIff | src/libs/rsp_server_stub.rs:724-732 | a run of Z0 and z0 is survived exactly when it clears nothing that is not set at the time, and leaves exactly the addresses not cleared in the table |
| Breakpoints.AllClearedRestores | src/libs/rsp_server_stub.rs:715-754 | once all are cleared memory is byte for byte what it was |
| Breakpoints.NestedRestores | src/libs/rsp_server_stub.rs:701-751 | a nested script restores memory and table however its 8-byte windows overlap |
| Breakpoints.FifoRestoresIff | src/libs/rsp_server_stub.rs:701-751 | clearing two breakpoints in the order they were set restores memory exactly when the second window holds no changed byte of the first ebreak |
| Breakpoints.FifoSafeIff | src/libs/rsp_server_stub.rs:701-751 | it does so for every memory exactly when the second window keeps clear of the first instruction |
| Breakpoints.SecondStaysIff | src/libs/rsp_server_stub.rs:701-751 | when the first of two breakpoints is cleared the second stays in the table, and in memory exactly when the first window held no byte of it that differed |
| Breakpoints.SecondSafeIff | src/libs/rsp_server_stub.rs:701-751 | it stays for every memory exactly when it keeps clear of the first one's 8-byte window, which the next instruction does not |
| Breakpoints.SetTwiceIff | src/libs/rsp_server_stub.rs:701-751 | setting an address twice and clearing it restores memory exactly when ebreak was there before |
| Breakpoints.CtmPutsBack | src/libs/rsp_server_stub.rs:677-747 | in the CTM, setting and clearing is one read, a write of ebreak and a write of the very word read, at one address; no hart is touched |
| Breakpoints.ServerRestored | src/libs/rsp_server_stub.rs:662-754 | with addresses 8 bytes apart the whole server state is restored once the table is empty |
| Breakpoints.ServerRestoredByNest | src/libs/rsp_server_stub.rs:662-754 | a nested script never kills the stub and restores the whole server state |
| BreakpointPackets.RequestHandled | src/libs/rsp_server_stub.rs:662-754 | a Z0 or z0 packet sets or clears at its address, whatever kind follows |
| BreakpointPackets.RequestsServed | src/libs/rsp_server_stub.rs:1161-1191 | the specified course of a connection of such packets has the effect of the run and answers OK to each |
| BreakpointPackets.WireRestores | src/libs/rsp_server_stub.rs:662-754 | the specified course for breakpoints 8 bytes apart, framed on a noisy stream, leaves the whole server as it was once all are cleared |
| BreakpointPackets.WireRestoresNested | src/libs/rsp_server_stub.rs:662-754 | the specified course for a nested script, framed on a noisy stream, always comes to its end and leaves the whole server as it was |
| Transparency.AskHidden | src/libs/rsp_server_stub.rs:223-904 | any p, P, g, m or X that keeps clear of the saved windows is answered the same with breakpoints set as without, and has the same effect |
| Transparency.RunsAlike | src/libs/rsp_server_stub.rs:223-904 | two servers that differ only by hidden breakpoints, one served the packets and the other those that are not Z0 or z0, go on differing only by the breakpoints then set, and answer alike |
| Transparency.BreakpointsAreTransparent | src/libs/rsp_server_stub.rs:223-904 | once all are cleared the whole server is what the same packets without Z0 and z0 leave, and every answer but the OKs to those is the same |
| Transparency.OverlayThrough | src/libs/rsp_server_stub.rs:628-754 | through any packets, steps and continues among them, that leave the saved windows alone, memory is what it would be without breakpoints, with ebreak at exactly the table's addresses |
| Transparency.GoUndisturbed | src/libs/rsp_server_stub.rs:628-655 | a step or continue leaves table, core and windows alone when the firmware leaves the windows alone |
| Switching.ClearedElsewhere | src/libs/rsp_server_stub.rs:587-754 | a breakpoint cleared while another core is selected leaves the table, but the first core keeps its ebreak and the other one gets eight bytes of the first |
| Switching.RestoresIff | src/libs/rsp_server_stub.rs:587-754 | setting, choosing a thread and clearing leaves what the choice alone leaves exactly when it is the same core, or ebreak was there before and both cores have the same eight bytes |
| Switching.SwitchSafeIff | src/libs/rsp_server_stub.rs:587-754 | it does so for every memory exactly when the core chosen is the one the breakpoint was set on |
| Switching.SwitchHandled | src/libs/rsp_server_stub.rs:574-754 | the packets Z0, vCont;t and z0 do exactly that |
| Outages.CapPTakesEffectIff | src/libs/rsp_server_stub.rs:468-567 | P is answered OK in every state, and takes effect and leaves no error exactly when the module had none, the hart is halted and a CSR write does not trap; else nothing of the hart changes but x11 when it traps |
| Outages.WriteIsEchoed | src/libs/rsp_server_stub.rs:366-567 | P to a running hart or a module with an error is answered OK, and p of any register then answers with the value written, with no hart changed |
| Outages.GAnswered | src/libs/rsp_server_stub.rs:223-269 | g then answers with 58 copies of the data registers' value |
| Outages.MAnswered | src/libs/rsp_server_stub.rs:839-904 | m then answers with the addresses of the words asked for |
| Outages.XUnheard | src/libs/rsp_server_stub.rs:765-825 | X then is answered OK and stores nothing |
| Outages.ErrorsLast | src/libs/rsp_server_stub.rs:1161-1191 | all through every connection a debug module that has an error keeps it, and its harts change by stops and resumes alone |
| Resuming.ResumesAt | src/libs/rsp_server_stub.rs:628-655 | s addr and c addr answer S05 exactly when the hart comes back for the right reason, and otherwise kill the stub |
| Resuming.FirmwareStartsThere | src/libs/rsp_server_stub.rs:628-655 | the firmware is resumed once, starting with dpc at the address, dcsr armed in the bits of GoStarts, x11 holding the same, and all else its own |
| Threads.VContHandled | src/libs/rsp_server_stub.rs:574-622 | a vCont packet has exactly the effect of its actions in order on the cluster's harts, the last thread staying selected |
| Threads.OthersUntouched | src/libs/rsp_server_stub.rs:574-622 | a hart no action names is untouched: registers, memory and run state |
| Threads.NamedAreHalted | src/libs/rsp_server_stub.rs:604-613 | every hart that is named ends up halted |
| Threads.ResumedOncePerGo | src/libs/rsp_server_stub.rs:604-613 | exactly one resume is issued per step or continue, and none for a stop |
| Threads.SplitJoined | src/libs/rsp_server_stub.rs:575-578 | splitting at semicolons undoes joining |

## Where the code and its comments differ

The model follows the code.

* src/libs/rsp_server_stub.rs:1051 promises `Ok(None)` for a stream closed by the client; the code reports
  an error, which the loop answers with '-' for as long as it is called again.
* src/libs/rsp_server_stub.rs:103-106 sends `M` to the binary writer, so `M`'s hex digits would be stored
  as characters; only `X` has a round trip.
* src/libs/rfpc_debugger.rs:449 says the command executes the program buffer; its word also transfers
  CSR 0 into the data registers first.
* src/libs/rfpc_debugger.rs:260 and 308 clear bits with a mask extended from 32 bits, so bits 63:32 of dcsr
  are cleared as well; the results about dcsr speak of its low half.
* src/libs/rfpc_debugger.rs:634 says the command writes the data word to a1; it writes the address to a0 and
  runs the store.
* src/libs/rsp_server_stub.rs:836-838 names a malformed packet as what makes a memory read panic; rounding the
  length up (lines 862 and 889) also overflows near 2 to the 64: a panic with overflow checks, a wrapped word
  count without.

## Left out

- Debugger.RfpcDbgReadMemory: addresses beyond the 64-bit space and loads that fault are not modelled; all of a hart's memory can be read and written.
- Debugger.RfpcDbgWriteMemory: as for reading; harts share no memory in the model.
- Debugger.RfpcDbgWriteReg: needs a halted hart and an idle module without an error; the other states are those of Debugger.WriteRegister and Faults.
- RunControl.RfpcDbgResume: the resume takes effect with the write of dmcontrol; that it is never acknowledged by resumeack is not modelled, because the code does not look.
- Session.HandleKeeps: Handlers, which it and the lemmas about packets speak of, says nothing once a packet asks for a hart that is running, for a CSR write that traps, or for a vector of 2^61 words (`Stuck`); Stubs, Outages and the server object do.
- Transparency.BreakpointsAreTransparent: not with steps and continues in between, because firmware may read the ebreaks it runs past; OverlayThrough says what holds then.
- Registers.WriteThenRead: a CSR is storage that keeps what it is given unless writing it traps; read-only, masked and counting CSRs are not modelled.
- EndToEnd.MemoryRoundTrip: not for the CTM, whose engines' byte order is unseen; declared lengths other than the real one are left to EndToEnd.WriteHandled.
- RspServer.RspServer.MemoryRead: what a CTM read returns is arbitrary, so nothing relates it to what was written there; whether the byte swaps of reading match writing depends on the hardware's engines.
- RspServer.RspServer.MemoryWrite: a vector of 2^61 words or more, which no machine holds, is a panic before the first word is read or written; shorter ones are served as if memory sufficed.
- RspServer.RspServer.MulticoreActions: text is bytes, so the lossy UTF-8 conversion of malformed packets is not modelled, here and in the other handlers.
- Buses.ConfigureExpBar: the floating-point log2 is exact here, which it is for the sizes a BAR can have.
- ExpansionBar.ExpansionBar.Read: the mapped region is read as 32-bit words; the byte slice in between, its cast and its alignment panics are not modelled.
- Framing.ParseRspPacket: I/O errors other than the end of the stream are not modelled.
- TCP, the accept loop, the run flag, ctrl-C, sleeps, the wall clock (a timeout may strike after any poll), lock files, sysfs, memory mapping, PCIe configuration, the command line.
- After a client closes the connection the loop goes on failing to read, and with acknowledgements on it panics once its '-' can no longer be written; the model stops at the close.
- read_rfpc_reg and write_rfpc_reg: halt, one register access, resume; not used by the server.
- write_gprs: not in the command table.
- The client's feature tables filled by qSupported: nothing reads them.
- The explicit BAR, the performance analyzer and the trace reader: not used by the server.
- Reset of the debug module through dmactive: the driver never clears it.
