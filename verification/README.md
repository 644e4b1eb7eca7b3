# adv_jtag_bridge: a verified model

This project models the debug bridge under `hardware/cores/adv_debug_sys/Software/adv_jtag_bridge`:
the program between GDB and an OpenRISC processor behind a JTAG cable. It follows the C code layer by
layer and proves what each layer promises to the one above it.

Conventions:

- A 32-bit word is a sequence of 32 bits, least significant first, which is also the order on the
  wire (`Bits`). C shifts, masks, casts and truncations are written out; numbers that C keeps in
  wider types are numbers.
- C functions that change state are methods on arrays and class fields, proved against functions on
  values. The lemmas about those functions, and the methods' postconditions, are the results.
- What the far end does is modelled from the Verilog of the debug unit and the TAP where the code
  depends on it: the chain of devices (`Tap`), the Wishbone module with its error register
  (`WishboneLink`), the unit's selectors (`DebugUnit`). The far ends of the cables are the MPSSE
  command set (`Mpsse`) and the CPLD shift request (`Cpld`) as the drivers' comments describe them.
- `ADBG_OPT_HISPEED` is off and `NUM_SOFT_RETRIES` is 0, as in the sources. Calls on cables and
  pipes succeed unless a property says otherwise.

## The parts

| files | source | main results |
|---|---|---|
| `Crc`, `LegacyCrc` | `adv_dbg_commands.c`, `legacy_dbg_commands.c` | bursts of up to 32 bits detected, sharply; both generators are one code |
| `WishboneLink`, `BurstResume`, `ReadRuns`, `WriteRuns`, `BurstTransfer` | `adv_dbg_commands.c` | burst reads and writes under bus errors, refused words and line noise: exactly when they are right, with a bound on bursts |
| `MonitorProtocol`, `HardwareMonitor`, `GdbServer` | `hardware_monitor.c`, `rsp-server.c` | safety of the stall and run protocol under every interleaving, exactly when all stop reports are true, an answer in every fair run, to a break too |
| `Tap`, `ChainScan`, `IrPacking`, `ChainCommands`, `ChainConfig`, `ChainDiscovery` | `chain_commands.c`, `adv_jtag_bridge.c` | scans reach the target in chains of any length; discovery inverts capture |
| `SelectCache` (modules `DebugUnit`, `CachedUnit`, `SelectCache`) | `adv_dbg_commands.c` | the selection cache refines the operations without it; exactly when it can be noticed |
| `RspPacket`, `RspIo` | `rsp-server.c` | framing, resynchronisation, round trip |
| `MatchTable`, `Matchpoints`, `Watchpoints`, `MatchpointServer` | `rsp-server.c`, `hwp_server.c` | the hash table is a finite map; breakpoints overlay memory; watchpoints are owned and watch what was asked for |
| `JtagPins`, `Mpsse`, `Ft2232` | `cable_ft2232.c` | the driver preserves streams of every length in both directions |
| `Xpc` | `cable_xpc_dlc9.c` | the same, with the exact limit for captured bits |
| `JspRing` | `jsp_server.c` | the rings are lossless queues, with the exact limit for the unchecked one |

Several promises hold only under a condition. There the lemma is an equivalence, the condition is one
that can be looked at before the call, and failing inputs are given where they are instructive:

| condition | property | failing input |
|---|---|---|
| error register clear, or in the first word's cell | `ReadRuns.ReadExact` | `StaleReadFails`, `StaleInside` |
| the same, and nothing above the match and status bits | `WriteRuns.WriteExact` | `StaleWriteFails`, `DirtyStatusFails`, `DirtyMatchFails` |
| instruction within one word, or lost bits are ones | `IrPacking.PackingExact`, `ChainConfig.WholeChainIr` | `InstructionLost` |
| length fits 16 bits | `ChainConfig.BurstCommandDecodes`, `CommandDelivered` | |
| few enough devices, no false end marker, nothing above the manufacturer code (or the rare chains where that does no harm) | `ChainDiscovery.LeftoverExact`, `DiscoveryExact` | `DirtyNeverEnds` |
| the unit listens, or the register was selected anyway | `CachedUnit.SelectionExact`, `TransparentExact` | `SelectedWhileDeaf` |
| escaped body fits the buffer | `RspPacket.FrameReceived` | |
| no second breakpoint in a word | `Matchpoints.OverlayExact` | `CrowdedWordStaysPatched` |
| no duplicate was granted a watchpoint | `Watchpoints.PoolRestored` | |
| CPU stalled when the client connects | `MonitorProtocol.HonestExact` | `EarlyQueryLies` |
| at most 8191 bits | `Xpc.ReadBackExact` | |
| room in the ring | `JspRing.PushExact` | |

Where code and comments disagree the model follows the code:

- The comment at `adv_dbg_commands.c:336-337` says that only the last burst of a retried read is
  protected by the CRC. With no soft retries granted every burst is checked before its error register
  is looked at, so the result is stronger.
- `status`, `crc_match`, `temp_manuf_code` and `temp_rest_code` are declared without a value, and the
  FT2232 driver stores into their lowest bits only. What they held before is a parameter of the model.
- `legacy_dbg_commands.c:54-55` writes the all-ones mask with seven digits. The missing bits are not
  bits of the polynomial, so nothing is lost.
- The comment at `hwp_server.c:1014-1019` says that a watchpoint is returned as soon as the processor
  stops; the code returns it when its z packet arrives.

## Model

| member | source | states |
|---|---|---|
| `Crc.ComputeCrc` | hardware/cores/adv_debug_sys/Software/adv_jtag_bridge/adv_dbg_commands.c:61-75 | the bitwise loop folds exactly the low `length_bits` bits of the data word, least significant first, into the state |
| `Crc.PolyValue` | hardware/cores/adv_debug_sys/Software/adv_jtag_bridge/adv_dbg_commands.h:20 | the taps of the generator are the bits of 0xedb88320 |
| `Crc.FoldConcat` | hardware/cores/adv_debug_sys/Software/adv_jtag_bridge/adv_dbg_commands.c:61-75 | folding a message in pieces, each starting from the last result, is folding it whole |
| `Crc.FoldLinear` | hardware/cores/adv_debug_sys/Software/adv_jtag_bridge/adv_dbg_commands.c:61-75 | the difference of two runs is the run of the differences of states and messages |
| `Crc.FoldInjective` | hardware/cores/adv_debug_sys/Software/adv_jtag_bridge/adv_dbg_commands.c:61-75 | no input makes two different states equal |
| `Crc.ReachesZero` | hardware/cores/adv_debug_sys/Software/adv_jtag_bridge/adv_dbg_commands.c:61-75 | k <= 32 bits drive a state to zero if and only if the state fits in k bits and the input is those bits |
| `Crc.BurstDetected` | hardware/cores/adv_debug_sys/Software/adv_jtag_bridge/adv_dbg_commands.c:61-75 | two messages of equal length that differ, and only inside one 32-bit window, have different CRCs from any start state |
| `Crc.Burst33Missed` | hardware/cores/adv_debug_sys/Software/adv_jtag_bridge/adv_dbg_commands.c:61-75 | 32 is the limit: the 33-bit pattern of the generator goes unnoticed in every message at every place |
| `Crc.OwnCrc` | hardware/cores/adv_debug_sys/Software/adv_jtag_bridge/adv_dbg_commands.c:61-75 | a 32-bit trailer brings the state to zero if and only if it is the message's own CRC |
| `Crc.ByteWise` | hardware/cores/adv_debug_sys/Software/adv_jtag_bridge/adv_dbg_commands.c:459-461 | folding a 32-bit word equals folding its four bytes, low byte first |
| `LegacyCrc.StepReversed` | hardware/cores/adv_debug_sys/Software/adv_jtag_bridge/legacy_dbg_commands.c:53-58 | one step of the legacy generator, with its 28-bit mask and the widening of int to unsigned long, is the mirror image of one step of the advanced generator |
| `LegacyCrc.PolyValue` | hardware/cores/adv_debug_sys/Software/adv_jtag_bridge/legacy_dbg_commands.c:42 | the taps of the legacy generator are the bits of 0x04c11db7 |
| `LegacyCrc.FoldReversed` | hardware/cores/adv_debug_sys/Software/adv_jtag_bridge/legacy_dbg_commands.c:53-104 | the same for every message |
| `LegacyCrc.ReverseLow` | hardware/cores/adv_debug_sys/Software/adv_jtag_bridge/legacy_dbg_commands.c:68-74 | the shift loop leaves the low `len` bits turned around and nothing else |
| `LegacyCrc.FoldMsbFirst` | hardware/cores/adv_debug_sys/Software/adv_jtag_bridge/legacy_dbg_commands.c:98-102 | the CRC loop runs over the word from bit len-1 to bit 0 |
| `LegacyCrc.Port.WriteStream` | hardware/cores/adv_debug_sys/Software/adv_jtag_bridge/legacy_dbg_commands.c:61-104 | the wire carries the bits most significant first and the write accumulator is the CRC of the wire bits |
| `LegacyCrc.Port.ReadStream` | hardware/cores/adv_debug_sys/Software/adv_jtag_bridge/legacy_dbg_commands.c:107-162 | the result holds the received bits, first bit highest; the read accumulator folds them in wire order; the write accumulator folds the word sent, highest bit first |
| `LegacyCrc.ReadKeepsWire` | hardware/cores/adv_debug_sys/Software/adv_jtag_bridge/legacy_dbg_commands.c:107-162 | during a read the write accumulator ends as the CRC of the bits on the wire if and only if the word sent reads the same both ways, as the zero word the callers pass does |
| `LegacyCrc.FoldDetects` | hardware/cores/adv_debug_sys/Software/adv_jtag_bridge/legacy_dbg_commands.c:53-58 | two inputs of at most 32 bits that drive an accumulator to the same value are equal |
| `LegacyCrc.OneCode` | hardware/cores/adv_debug_sys/Software/adv_jtag_bridge/legacy_dbg_commands.c:53-104 | after any sequence of writes from 0xffffffff the accumulator is the CRC of all wire bits and the bit reversal of the advanced CRC of those bits |
| `LegacyCrc.OwnCrcClears` | hardware/cores/adv_debug_sys/Software/adv_jtag_bridge/legacy_dbg_commands.c:53-104 | sending the accumulator after any sequence of writes leaves the generator at zero |
| `WishboneLink.SealedMeansClean` | hardware/cores/adv_debug_sys/Software/adv_jtag_bridge/adv_dbg_commands.c:513-528 | if the words and the CRC sent and the words and the CRC heard both match, and the line changed bits inside one 32-bit window at most, nothing was changed |
| `WishboneLink.MismatchMeansNoise` | hardware/cores/adv_debug_sys/Software/adv_jtag_bridge/adv_dbg_commands.c:520-527 | a CRC that matches what was sent but not what was heard shows that the line changed something |
| `WishboneLink.Link.Access` | hardware/cores/adv_debug_sys/Hardware/adv_dbg_if/rtl/verilog/adbg_wb_module.v:297-315 | every access records its address and whether it failed, until one fails; then the register keeps that address until the bit is cleared |
| `WishboneLink.CellAt` | hardware/cores/adv_debug_sys/Hardware/adv_dbg_if/rtl/verilog/adbg_wb_biu.v:175-218 | whether the memory goes by the byte selects alone or by all address bits, the words of a burst lie in consecutive cells |
| `WishboneLink.Link.ReadCommand` | hardware/cores/adv_debug_sys/Software/adv_jtag_bridge/adv_dbg_commands.c:402-410 | a burst read presents every word up to the first failing address as memory has it, followed by the CRC of what is presented |
| `WishboneLink.Link.WriteWord` | hardware/cores/adv_debug_sys/Software/adv_jtag_bridge/adv_dbg_commands.c:659-676 | a word is stored as heard through the line, unless the access fails, which latches its address, or the bus was not ready for it |
| `Bits.TestExact` | hardware/cores/adv_debug_sys/Software/adv_jtag_bridge/adv_dbg_commands.c:674-675 | testing a variable of which only the lowest bit was read gives that bit, whatever it is, if and only if nothing was left in the bits above |
| `BurstResume.StaleLatch` | hardware/cores/adv_debug_sys/Software/adv_jtag_bridge/adv_dbg_commands.c:536-538 | by the 64-bit arithmetic of the code the resume index lies inside the block if and only if the latched address does, and then it is the index of the word holding that address |
| `BurstResume.TurnForward` | hardware/cores/adv_debug_sys/Software/adv_jtag_bridge/adv_dbg_commands.c:531-549 | from a clear error register a burst ends the call if and only if no word of it failed, and otherwise the next one begins at the first word that failed: never earlier, always inside the block |
| `BurstResume.TurnBack` | hardware/cores/adv_debug_sys/Software/adv_jtag_bridge/adv_dbg_commands.c:531-549 | an error left over in the first word's cell is reported whatever this burst does, and costs one retry of the whole block, from the latched address |
| `ReadRuns.ReadExact` | hardware/cores/adv_debug_sys/Software/adv_jtag_bridge/adv_dbg_commands.c:339-554 | for every memory, of either kind of addressing, and every run of bursts with any failing addresses, a burst read stays inside its block and ends without error only with every word equal to memory: if and only if the error register at entry is clear, or holds an address from the first word on that the memory takes for the first word's cell: the first address itself or, where the memory goes by whole words, any later byte of that word |
| `ReadRuns.StaleReadFails` | hardware/cores/adv_debug_sys/Software/adv_jtag_bridge/adv_dbg_commands.c:531-549 | for every other error register: a memory and a run of one or two bursts that leave the block or end without error and with a wrong first word |
| `ReadRuns.StaleInside` | hardware/cores/adv_debug_sys/Software/adv_jtag_bridge/adv_dbg_commands.c:531-549 | the failing run in the open: an error left over anywhere inside a later word of the block, the first word failing now and nothing failing afterwards; the call ends without error and the first word is what the failed access brought |
| `ReadRuns.ReadsForward` | hardware/cores/adv_debug_sys/Software/adv_jtag_bridge/adv_dbg_commands.c:531-549 | in a run from such a register a burst never begins before a word where an earlier one began |
| `ReadRuns.ReadBounded` | hardware/cores/adv_debug_sys/Software/adv_jtag_bridge/adv_dbg_commands.c:541-545 | in every run the bus errors met are the bursts that did not end it, and there are at most MAX_BUS_ERRORS + 1 |
| `WriteRuns.WriteExact` | hardware/cores/adv_debug_sys/Software/adv_jtag_bridge/adv_dbg_commands.c:557-766 | for every memory, source and run of bursts, with failing addresses, refused words and noise, a burst write changes only its block and ends without error only with every source word in memory: if and only if the error register meets the same condition and neither `crc_match` nor `status` holds anything above its lowest bit |
| `WriteRuns.StaleWriteFails` | hardware/cores/adv_debug_sys/Software/adv_jtag_bridge/adv_dbg_commands.c:743-762 | for every other error register: a run of one or two bursts that leave the block or end without error and with the first word unwritten |
| `WriteRuns.DirtyStatusFails` | hardware/cores/adv_debug_sys/Software/adv_jtag_bridge/adv_dbg_commands.c:673-675 | with bits left above the status bit: a run in which a word the bus refused passes for written |
| `WriteRuns.DirtyMatchFails` | hardware/cores/adv_debug_sys/Software/adv_jtag_bridge/adv_dbg_commands.c:728-739 | with bits left above the match bit: a run in which a word changed on the line passes for written |
| `WriteRuns.AbortedRun` | hardware/cores/adv_debug_sys/Software/adv_jtag_bridge/adv_dbg_commands.c:674-739 | a call that gives up the process has met a refused word or a changed line in its last burst |
| `WriteRuns.WriteBounded` | hardware/cores/adv_debug_sys/Software/adv_jtag_bridge/adv_dbg_commands.c:753-757 | the same bound for writes, the last burst counted when it ends the call or the process |
| `BurstTransfer.ErrorAddressDecodes` | hardware/cores/adv_debug_sys/Software/adv_jtag_bridge/adv_dbg_commands.c:534-538 | the 33 bits read, status bit first, decode to the latched address across two words |
| `BurstTransfer.ReadErrorRegister` | hardware/cores/adv_debug_sys/Software/adv_jtag_bridge/adv_dbg_commands.c:534-537 | the error bit and the address bits as they arrive, the second word keeping its old upper bits |
| `BurstTransfer.WaitReady` | hardware/cores/adv_debug_sys/Software/adv_jtag_bridge/adv_dbg_commands.c:468-484 | true only when the module has offered the word, after at most MAX_READ_STATUS_WAIT polls; otherwise exactly one poll more was made for this word |
| `BurstTransfer.ReadNext` | hardware/cores/adv_debug_sys/Software/adv_jtag_bridge/adv_dbg_commands.c:463-508 | a word is taken from the line only after the module has offered it, joins the words before it and the running CRC, and no bit of it is taken for a status bit |
| `BurstTransfer.ReadPass` | hardware/cores/adv_debug_sys/Software/adv_jtag_bridge/adv_dbg_commands.c:402-528 | one read burst from any index and any error register: without a CRC error every word that did not fail equals memory, the register has latched the first failure unless it was set already, and nothing outside the rest of the block is touched |
| `BurstTransfer.ReadAttempt` | hardware/cores/adv_debug_sys/Software/adv_jtag_bridge/adv_dbg_commands.c:402-528 | whatever the error register holds, a burst is a possible step of a run, with the words it brought and the register it left |
| `BurstTransfer.CheckErrors` | hardware/cores/adv_debug_sys/Software/adv_jtag_bridge/adv_dbg_commands.c:531-549 | the look at the error register stops or resumes the call exactly as the step of the run does, register included |
| `BurstTransfer.ReadBursts` | hardware/cores/adv_debug_sys/Software/adv_jtag_bridge/adv_dbg_commands.c:398-552 | from any error register the call follows a possible run: array, register, number of bursts and outcome are the run's |
| `BurstTransfer.BurstRead` | hardware/cores/adv_debug_sys/Software/adv_jtag_bridge/adv_dbg_commands.c:339-554 | the same for the whole function; from a register as ReadExact asks: whatever addresses fail and whatever happens to words and CRC inside one noise window a burst, success means every word equals memory; from any register: at most MAX_BUS_ERRORS + 1 bursts are sent, memory is unchanged, and every error code has its cause, eleven faulty bursts, a changed line or a slow module |
| `BurstTransfer.WritePass` | hardware/cores/adv_debug_sys/Software/adv_jtag_bridge/adv_dbg_commands.c:622-741 | one write burst is a possible step of a run for any bits left over in the variables it looks at: memory, register and whether the burst is accepted are those of the step |
| `BurstTransfer.WriteBursts` | hardware/cores/adv_debug_sys/Software/adv_jtag_bridge/adv_dbg_commands.c:617-764 | from any error register and with any leftover bits the call follows a possible run: memory, register, number of bursts and outcome are the run's |
| `BurstTransfer.BurstWrite` | hardware/cores/adv_debug_sys/Software/adv_jtag_bridge/adv_dbg_commands.c:557-766 | the same for the whole function; from a register as ReadExact asks and with clean variables, success means every addressed word equals its source word, and on every outcome only the block changes; from any register the same bound on bursts, and every way of failing has its cause |
| `MonitorProtocol.Safety` | hardware/cores/adv_debug_sys/Software/adv_jtag_bridge/hardware_monitor.c:172-289 | under every interleaving: target_is_running = 0 only while the CPU is stalled; a notified server agrees with the monitor once it has read its pipe; every stop report is sent while the CPU is stalled, except a `?` answered before the first notification |
| `MonitorProtocol.ExecKeepsInv` | hardware/cores/adv_debug_sys/Software/adv_jtag_bridge/hardware_monitor.c:172-327 | every run of steps keeps the invariant that locates a run command in exactly one place |
| `MonitorProtocol.HonestExact` | hardware/cores/adv_debug_sys/Software/adv_jtag_bridge/hardware_monitor.c:172-327 | all stop reports of all runs after a client has connected are sent while the CPU is stalled, if and only if the CPU is stalled when the client connects |
| `MonitorProtocol.EarlyQueryLies` | hardware/cores/adv_debug_sys/Software/adv_jtag_bridge/rsp-server.c:740-771 | the failing run: a `?` read before the first stall command takes effect reports a stop, whatever the CPU does |
| `MonitorProtocol.RunningWhenConnected` | hardware/cores/adv_debug_sys/Software/adv_jtag_bridge/rsp-server.c:687-703 | a client can connect while the CPU runs, so the wrong report does happen |
| `MonitorProtocol.NoLostStop` | hardware/cores/adv_debug_sys/Software/adv_jtag_bridge/hardware_monitor.c:264-281 | while a client waits with nothing in flight, the monitor still polls |
| `MonitorProtocol.StopReported` | hardware/cores/adv_debug_sys/Software/adv_jtag_bridge/hardware_monitor.c:264-281 | from there, once the CPU is stalled, one poll and one pipe event send exactly one true stop report, end the wait and leave nothing in flight |
| `MonitorProtocol.AlwaysAnswered` | hardware/cores/adv_debug_sys/Software/adv_jtag_bridge/rsp-server.c:483-532 | no deadlock: from every state in which a client waits, steps of the server, the monitor and a CPU that stops lead to one in which it has been answered, truthfully |
| `MonitorProtocol.FairlyAnswered` | hardware/cores/adv_debug_sys/Software/adv_jtag_bridge/hardware_monitor.c:172-327 | every endless run from a state in which the client waits answers it, truthfully, if the event pipe, the packets and the command pipe are read and the target polled again and again, and a CPU that runs stops again |
| `MonitorProtocol.StoppedIsAnswered` | hardware/cores/adv_debug_sys/Software/adv_jtag_bridge/hardware_monitor.c:172-327 | in particular every such run from a stalled CPU with no run command in flight, without any help of the CPU |
| `MonitorProtocol.CommandKeepsInv` | hardware/cores/adv_debug_sys/Software/adv_jtag_bridge/hardware_monitor.c:224-254 | taking a stall or unstall command keeps the invariant |
| `MonitorProtocol.CommandObeyed` | hardware/cores/adv_debug_sys/Software/adv_jtag_bridge/hardware_monitor.c:224-254 | a command taken leaves the CPU and the monitor's knowledge as it says (stalled, or running), announces it once to every server, and takes nothing else from any pipe |
| `MonitorProtocol.UnstallRuns` | hardware/cores/adv_debug_sys/Software/adv_jtag_bridge/hardware_monitor.c:242-247 | an unstall command makes a stopped CPU run |
| `MonitorProtocol.RunStarts` | hardware/cores/adv_debug_sys/Software/adv_jtag_bridge/rsp-server.c:740-800 | from a stopped target with nothing in flight: a run packet, its handling and the command read lead to a running CPU, a waiting client and a pending running event |
| `MonitorProtocol.BreakPassedOn` | hardware/cores/adv_debug_sys/Software/adv_jtag_bridge/rsp-server.c:740-765 | a break is passed on to the monitor if and only if the server believes that the target runs |
| `MonitorProtocol.BreakStops` | hardware/cores/adv_debug_sys/Software/adv_jtag_bridge/rsp-server.c:740-747 | a break stops a CPU that would never stop by itself: packet, command and event end in one true stop report |
| `MonitorProtocol.BreakAnswered` | hardware/cores/adv_debug_sys/Software/adv_jtag_bridge/rsp-server.c:740-747 | every fair endless run answers a waiting client, truthfully, once the CPU is stalled, a stall command is in the pipe, or a break waits at a server that believes the target runs; no CPU has to stop by itself |
| `MonitorProtocol.RemoveKeeps` | hardware/cores/adv_debug_sys/Software/adv_jtag_bridge/hardware_monitor.c:115-158 | removing a connection keeps every other one, each once |
| `MonitorProtocol.PollKeepsInv` | hardware/cores/adv_debug_sys/Software/adv_jtag_bridge/hardware_monitor.c:264-281 | the quarter-second poll keeps the invariant |
| `MonitorProtocol.EventKeepsInv` | hardware/cores/adv_debug_sys/Software/adv_jtag_bridge/rsp-server.c:483-532 | handling a pipe event, duplicates included, keeps the invariant |
| `MonitorProtocol.PacketKeepsInv` | hardware/cores/adv_debug_sys/Software/adv_jtag_bridge/rsp-server.c:740-795 | handling a break, a run command or a query keeps the invariant |
| `HardwareMonitor.MonitorThread.NotifyListeners` | hardware/cores/adv_debug_sys/Software/adv_jtag_bridge/hardware_monitor.c:312-327 | every registered server gets the event, in table order |
| `HardwareMonitor.MonitorThread.StallCpuNow` | hardware/cores/adv_debug_sys/Software/adv_jtag_bridge/hardware_monitor.c:296-309 | the stall bit is written and remembered as the step of the protocol says |
| `HardwareMonitor.MonitorThread.HandleCommand` | hardware/cores/adv_debug_sys/Software/adv_jtag_bridge/hardware_monitor.c:230-248 | one command byte has the effect of the protocol's step |
| `HardwareMonitor.MonitorThread.HandleReady` | hardware/cores/adv_debug_sys/Software/adv_jtag_bridge/hardware_monitor.c:224-255 | one pass over the ready pipes takes their commands in table order |
| `HardwareMonitor.PassIsRun` | hardware/cores/adv_debug_sys/Software/adv_jtag_bridge/hardware_monitor.c:224-255 | such a pass is the run of the protocol that takes one command of each ready connection in that order, and nobody else's commands are touched |
| `HardwareMonitor.MonitorThread.PollHardware` | hardware/cores/adv_debug_sys/Software/adv_jtag_bridge/hardware_monitor.c:264-281 | the poll has the effect of the protocol's step |
| `HardwareMonitor.MonitorThread.Register` | hardware/cores/adv_debug_sys/Software/adv_jtag_bridge/hardware_monitor.c:82-113 | registration appends a connection, or refuses when the table is full |
| `HardwareMonitor.MonitorThread.Unregister` | hardware/cores/adv_debug_sys/Software/adv_jtag_bridge/hardware_monitor.c:115-158 | removal moves the last connection into the free slot and keeps all others |
| `GdbServer.RspServer.constructor` | hardware/cores/adv_debug_sys/Software/adv_jtag_bridge/rsp-server.c:687-703 | a new client starts with a stall command in the pipe and the target taken as stopped |
| `GdbServer.RspServer.HandlePipe` | hardware/cores/adv_debug_sys/Software/adv_jtag_bridge/rsp-server.c:483-532 | the pipe branch of the event loop takes the protocol's event step |
| `GdbServer.RspServer.ClientRequest` | hardware/cores/adv_debug_sys/Software/adv_jtag_bridge/rsp-server.c:740-795 | a break, run command or query takes the protocol's packet step |
| `GdbServer.RspServer.ContinueGeneric` | hardware/cores/adv_debug_sys/Software/adv_jtag_bridge/rsp-server.c:1748-1776 | continuing sends one unstall command and marks the client as waiting |
| `GdbServer.RspServer.StepGeneric` | hardware/cores/adv_debug_sys/Software/adv_jtag_bridge/rsp-server.c:2481-2516 | stepping sends one unstall command and marks the client as waiting |
| `Tap.ResetReachesIdle` | hardware/cores/adv_debug_sys/Software/adv_jtag_bridge/chain_commands.c:122-144 | the clocks of tap_reset bring every device of every chain, from any states, through Test-Logic-Reset to Run-Test/Idle |
| `Tap.RunConcat` | hardware/cores/adv_debug_sys/Hardware/jtag/tap/rtl/verilog/tap_top.v:184-300 | clock sequences compose |
| `Tap.ShiftRun` | hardware/cores/adv_debug_sys/Software/adv_jtag_bridge/chain_commands.c:276-330 | shifting a stream through any chain is shifting one line made of all selected registers, and TDO shows that line in order |
| `Tap.RegSlice` | hardware/cores/adv_debug_sys/Software/adv_jtag_bridge/chain_commands.c:276-330 | each device's register is the slice of the line at its offset |
| `ChainScan.EnterShiftIr` | hardware/cores/adv_debug_sys/Software/adv_jtag_bridge/chain_commands.c:214-218 | four clocks bring every device from idle to Shift-IR with its capture value |
| `ChainScan.EnterShiftDr` | hardware/cores/adv_debug_sys/Software/adv_jtag_bridge/chain_commands.c:233-242 | three clocks bring every device from idle to Shift-DR with its selected register captured |
| `ChainScan.LeaveToIdle` | hardware/cores/adv_debug_sys/Software/adv_jtag_bridge/chain_commands.c:246-254 | two clocks update every device's register and bring it to idle |
| `ChainScan.IrScan` | hardware/cores/adv_debug_sys/Software/adv_jtag_bridge/chain_commands.c:181-229 | a scan as long as all instruction registers leaves in each the slice at its offset |
| `ChainScan.DrWrite` | hardware/cores/adv_debug_sys/Software/adv_jtag_bridge/chain_commands.c:276-295 | a TMS-terminated write of n >= L bits leaves the last L in the target's register for any number of bypassed devices around it |
| `IrPacking.CountIrBits` | hardware/cores/adv_debug_sys/Software/adv_jtag_bridge/adv_jtag_bridge.c:193-207 | the accumulating loop yields the instruction bits in front of and behind the target |
| `ChainCommands.Jtag.Configure` | hardware/cores/adv_debug_sys/Software/adv_jtag_bridge/adv_jtag_bridge.c:190-213 | the instruction register's size, the instruction bits and the numbers of devices on either side of the target |
| `IrPacking.PackIr` | hardware/cores/adv_debug_sys/Software/adv_jtag_bridge/chain_commands.c:188-210 | the packing code leaves the instruction among ones, statement by statement with the machine's shift counts |
| `IrPacking.PackedBit` | hardware/cores/adv_debug_sys/Software/adv_jtag_bridge/chain_commands.c:188-210 | every bit of every packed word |
| `IrPacking.PackingExact` | hardware/cores/adv_debug_sys/Software/adv_jtag_bridge/chain_commands.c:188-210 | the packed scan is the instruction at its place and ones elsewhere if and only if the instruction does not cross a word, or the bits that the overlong shift destroys were ones |
| `ChainConfig.Totals` | hardware/cores/adv_debug_sys/Software/adv_jtag_bridge/adv_jtag_bridge.c:193-207 | prefix, instruction and postfix cover the chain's instruction bits and place the target |
| `ChainConfig.WholeChainIr` | hardware/cores/adv_debug_sys/Software/adv_jtag_bridge/chain_commands.c:181-229 | for any number of devices and words: the target holds the instruction, every other device BYPASS and nothing else changed, if and only if (postfix mod 32) + IR_size < 32 or the bits that the overlong shift destroys were ones |
| `ChainConfig.InstructionLost` | hardware/cores/adv_debug_sys/Software/adv_jtag_bridge/chain_commands.c:199-210 | a failing input: behind 28 instruction bits a target with a 4-bit register never receives the instruction 8, in any chain |
| `ChainConfig.SelectedCapture` | hardware/cores/adv_debug_sys/Software/adv_jtag_bridge/chain_commands.c:233-242 | after that scan every other device shows a one-bit register and none of their data is selected |
| `ChainConfig.WholeChainWrite` | hardware/cores/adv_debug_sys/Software/adv_jtag_bridge/chain_commands.c:276-295 | a complete register write changes the target's data register to the last bits sent, and nobody else's |
| `ChainConfig.WholeChainRead` | hardware/cores/adv_debug_sys/Software/adv_jtag_bridge/chain_commands.c:300-330 | a read with `adjust` returns the target's captured bits, lowest first |
| `ChainConfig.IdcodeSanity` | hardware/cores/adv_debug_sys/Software/adv_jtag_bridge/adv_jtag_bridge.c:247-261 | reading under the IDCODE instruction returns the target's own code, wherever it sits, when the scan gets the instruction there |
| `ChainConfig.ConfigureFor` | hardware/cores/adv_debug_sys/Software/adv_jtag_bridge/adv_jtag_bridge.c:190-213 | configuring for a target of any chain establishes what the whole-chain results ask of the host: bits and devices on either side of that target |
| `ChainConfig.IdcodeLeavesIdle` | hardware/cores/adv_debug_sys/Software/adv_jtag_bridge/chain_commands.c:432-452 | selecting an instruction and reading leave every controller of the chain idle |
| `ChainConfig.BurstCommandDecodes` | hardware/cores/adv_debug_sys/Software/adv_jtag_bridge/adv_dbg_commands.c:305-323 | the 53 bits decode to (0, opcode, address, length) if and only if the length fits 16 bits, for every address below 2^32 |
| `ChainConfig.CommandDelivered` | hardware/cores/adv_debug_sys/Software/adv_jtag_bridge/adv_dbg_commands.c:305-330 | those bits written through any chain leave the target with a register that decodes to the command, if and only if the length fits, and nobody else's data register changes |
| `ChainCommands.Jtag.TapReset` | hardware/cores/adv_debug_sys/Software/adv_jtag_bridge/chain_commands.c:122-144 | sends the reset clocks and forgets the selected module |
| `ChainCommands.Jtag.TapSetIr` | hardware/cores/adv_debug_sys/Software/adv_jtag_bridge/chain_commands.c:181-229 | packs and scans the instruction, and forgets the selected module |
| `ChainCommands.Jtag.WriteStream` | hardware/cores/adv_debug_sys/Software/adv_jtag_bridge/chain_commands.c:276-295 | sends the data and, when TMS ends it behind other devices, the zeros that carry it past them |
| `ChainCommands.Jtag.ReadWriteStream` | hardware/cores/adv_debug_sys/Software/adv_jtag_bridge/chain_commands.c:300-330 | with `adjust` first shifts out the bits of the devices in front, then returns what comes out during the data |
| `ChainCommands.Jtag.CableStream` | hardware/cores/adv_debug_sys/Software/adv_jtag_bridge/chain_commands.c:276-330 | a cable transfer clocks its bits in order and returns TDO at each |
| `ChainCommands.Jtag.GetIdcode` | hardware/cores/adv_debug_sys/Software/adv_jtag_bridge/chain_commands.c:432-452 | selects the instruction, reads 32 bits behind those of the devices in front, and leaves the shift state |
| `ChainDiscovery.DiscoveryExact` | hardware/cores/adv_debug_sys/Software/adv_jtag_bridge/chain_commands.c:343-428 | with clean variables the list is exactly the chain's codes if and only if the chain has at most MAX_DEVICES devices and no device's code looks like the end marker |
| `ChainDiscovery.LeftoverExact` | hardware/cores/adv_debug_sys/Software/adv_jtag_bridge/chain_commands.c:343-428 | for every chain, and whatever `temp_manuf_code` and `temp_rest_code` held, the list is exactly the chain's codes if and only if: with nothing left above the manufacturer code, at most MAX_DEVICES devices and no false end marker; otherwise, exactly MAX_DEVICES devices and a one in every code wherever a bit was left over |
| `ChainDiscovery.RestLeftoverHarmless` | hardware/cores/adv_debug_sys/Software/adv_jtag_bridge/chain_commands.c:396-398 | what `temp_rest_code` holds above its twenty bits never matters |
| `ChainDiscovery.DirtyNeverEnds` | hardware/cores/adv_debug_sys/Software/adv_jtag_bridge/chain_commands.c:372-414 | with bits left above the manufacturer code the end is never recognised and the loop runs to its limit |
| `ChainDiscovery.EnumerateChain` | hardware/cores/adv_debug_sys/Software/adv_jtag_bridge/chain_commands.c:343-428 | on a reset chain of any length, whatever the two variables held: the result is what the algorithm makes of the bits, every array access is in bounds, and the TAP ends in Run-Test/Idle; it is the chain's list of codes exactly under the condition of LeftoverExact; with bits left over the loop always runs to its limit |
| `ChainDiscovery.ReadDevice` | hardware/cores/adv_debug_sys/Software/adv_jtag_bridge/chain_commands.c:373-414 | one pass reads a bypass bit, or a code assembled from both fields with their leftover bits, or recognises the end by comparing all 32 bits |
| `ChainDiscovery.Collect` | hardware/cores/adv_debug_sys/Software/adv_jtag_bridge/chain_commands.c:372-414 | the loop keeps the codes found so far through every growth of the array, with any leftover bits |
| `ChainDiscovery.MakeRoom` | hardware/cores/adv_debug_sys/Software/adv_jtag_bridge/chain_commands.c:378-384 | growing the array keeps its contents and makes room for the next code |
| `DebugUnit.SelectDecodes` | hardware/cores/adv_debug_sys/Software/adv_jtag_bridge/adv_dbg_commands.c:93-99 | the three bits of a module selection reach the selector of a unit that listens, and leave any other alone |
| `DebugUnit.RegDecodes` | hardware/cores/adv_debug_sys/Software/adv_jtag_bridge/adv_dbg_commands.c:154-164 | the six bits built from opcode and index, behind any data, make the selected module of a listening unit obey that opcode on that register, and leave any other unit alone |
| `DebugUnit.WriteReadBack` | hardware/cores/adv_debug_sys/Software/adv_jtag_bridge/adv_dbg_commands.c:187-296 | a register write is read back whatever is selected in between, as long as nothing changes that register |
| `SelectCache.Bridge.SelectModule` | hardware/cores/adv_debug_sys/Software/adv_jtag_bridge/adv_dbg_commands.c:82-112 | the variables and the unit become those of the function Select; a scan is sent if and only if the cache does not already name the module |
| `SelectCache.Bridge.SelectCtrlReg` | hardware/cores/adv_debug_sys/Software/adv_jtag_bridge/adv_dbg_commands.c:119-175 | a cached selection is believed and nothing sent, any other is sent and remembered, from any state of the cache and whether the unit listens or not; error 1 for the serial port module |
| `SelectCache.Bridge.CtrlWrite` | hardware/cores/adv_debug_sys/Software/adv_jtag_bridge/adv_dbg_commands.c:187-237 | the data goes to the register of the module the unit has selected, and the register is remembered, from any state of the cache |
| `SelectCache.Bridge.CtrlRead` | hardware/cores/adv_debug_sys/Software/adv_jtag_bridge/adv_dbg_commands.c:243-296 | returns the asked number of bits of the register the unit has selected, or of what the chain shows instead when it does not listen, from any state of the cache |
| `CachedUnit.SelectedWhileDeaf` | hardware/cores/adv_debug_sys/Software/adv_jtag_bridge/adv_dbg_commands.c:131-169 | the failing run: a register selected while the unit does not listen, then read when it does; the bits returned are those of the other register |
| `DebugUnit.PlainDeafRun` | hardware/cores/adv_debug_sys/Software/adv_jtag_bridge/adv_dbg_commands.c:243-296 | without the cache the same run reads the right register |
| `SelectCache.Bridge.BurstCommand` | hardware/cores/adv_debug_sys/Software/adv_jtag_bridge/adv_dbg_commands.c:305-332 | selects the desired module if the cache does not name it, then sends exactly the 53 bits of CommandRegister; every register selection stays |
| `SelectCache.Bridge.TapReset` | hardware/cores/adv_debug_sys/Software/adv_jtag_bridge/chain_commands.c:136-141 | forgets everything, so whatever the unit comes up with is no contradiction |
| `SelectCache.Bridge.TapSetIr` | hardware/cores/adv_debug_sys/Software/adv_jtag_bridge/chain_commands.c:181-229 | forgets the module but keeps the register selections, which stay true |
| `SelectCache.Bridge.Run` | hardware/cores/adv_debug_sys/Software/adv_jtag_bridge/adv_dbg_commands.c:82-332 | every run of operations, resets, instruction changes and spontaneous register changes is the run of the functions; from a right cache, as long as every register selection reaches the unit or changes nothing, it gives the results and leaves the unit in the state of a bridge that selects every time |
| `CachedUnit.StepRefines` | hardware/cores/adv_debug_sys/Software/adv_jtag_bridge/adv_dbg_commands.c:82-332 | with a right cache every operation has the effect and the result it would have without one, and the cache stays right if and only if its register selection reaches the unit or changes nothing |
| `CachedUnit.RunRefines` | hardware/cores/adv_debug_sys/Software/adv_jtag_bridge/adv_dbg_commands.c:82-332 | the same for whole runs |
| `CachedUnit.TransparentExact` | hardware/cores/adv_debug_sys/Software/adv_jtag_bridge/adv_dbg_commands.c:82-332 | no continuation whose selections reach the unit can tell from its results that there is a cache, if and only if every entry is unknown or what the unit has selected |
| `CachedUnit.SelectionExact` | hardware/cores/adv_debug_sys/Software/adv_jtag_bridge/adv_dbg_commands.c:119-175 | a register selection from a right cache goes unnoticed by everything that follows, if and only if the unit listens, has that register selected already, or the module is the serial port |
| `CachedUnit.ModuleStaysRight` | hardware/cores/adv_debug_sys/Software/adv_jtag_bridge/chain_commands.c:136-141 | the cached module is right after every operation, since resets and instruction changes forget it |
| `RspPacket.AcceptedIsFramed` | hardware/cores/adv_debug_sys/Software/adv_jtag_bridge/rsp-server.c:1099-1214 | on any stream, an accepted body that is not a break has no '$' or '#', fits the buffer and stood between '$' and a matching checksum |
| `RspPacket.ChecksumIsSum` | hardware/cores/adv_debug_sys/Software/adv_jtag_bridge/rsp-server.c:1005-1041 | the checksum is the sum of the characters modulo 256 |
| `RspPacket.TrailerIsNumber` | hardware/cores/adv_debug_sys/Software/adv_jtag_bridge/rsp-server.c:1036-1041 | the trailer is the hash character and that number in two lower-case hexadecimal digits, high digit first |
| `RspPacket.HexDigits` | hardware/cores/adv_debug_sys/Software/adv_jtag_bridge/rsp-server.c:1036-1041 | the digits are the sixteen characters 0123456789abcdef |
| `RspPacket.Xor20IsXor` | hardware/cores/adv_debug_sys/Software/adv_jtag_bridge/rsp-server.c:1022-1031 | the escaping operation turns the bit worth 0x20 around and keeps all others |
| `RspPacket.SpecialsEscaped` | hardware/cores/adv_debug_sys/Software/adv_jtag_bridge/rsp-server.c:1022-1031 | exactly the four special characters travel as the escape character and their own xor value |
| `RspPacket.BodyHasNoSpecials` | hardware/cores/adv_debug_sys/Software/adv_jtag_bridge/rsp-server.c:1022-1031 | no dollar, hash or asterisk stands in a body |
| `RspPacket.WrongChecksumRefused` | hardware/cores/adv_debug_sys/Software/adv_jtag_bridge/rsp-server.c:1172-1207 | a body with other digits than those of its checksum is answered with a minus, and the wait goes on behind it |
| `RspPacket.BreakReceived` | hardware/cores/adv_debug_sys/Software/adv_jtag_bridge/rsp-server.c:1110-1128 | a break character outside a frame is received at once and not acknowledged |
| `RspPacket.CutIsClosed` | hardware/cores/adv_debug_sys/Software/adv_jtag_bridge/rsp-server.c:1110-1190 | a stream that ends before, inside or right behind a body yields nothing and no answer |
| `RspPacket.TrailingEscape` | hardware/cores/adv_debug_sys/Software/adv_jtag_bridge/rsp-server.c:1326-1351 | an escape character at the very end takes the byte behind the data with it |
| `RspPacket.NoiseSkipped` | hardware/cores/adv_debug_sys/Software/adv_jtag_bridge/rsp-server.c:1110-1167 | junk without '$' or 0x03, and any number of abandoned frames, are as if never sent |
| `RspPacket.FrameReceived` | hardware/cores/adv_debug_sys/Software/adv_jtag_bridge/rsp-server.c:1099-1214 | after any such noise a sender's frame is accepted as sent if and only if its escaped body has at most GDB_BUF_MAX - 2 bytes |
| `RspPacket.UnescapeEscape` | hardware/cores/adv_debug_sys/Software/adv_jtag_bridge/rsp-server.c:1326-1351 | unescaping undoes escaping for every payload |
| `RspPacket.RoundTrip` | hardware/cores/adv_debug_sys/Software/adv_jtag_bridge/rsp-server.c:1001-1051 | send, noise, receive and unescape return the payload and leave the rest of the stream untouched |
| `RspPacket.UnescapeInPlace` | hardware/cores/adv_debug_sys/Software/adv_jtag_bridge/rsp-server.c:1326-1351 | the in-place loop leaves the unescaped bytes at the start and touches nothing outside; a trailing escape consumes the byte behind |
| `RspIo.SendFrame` | hardware/cores/adv_debug_sys/Software/adv_jtag_bridge/rsp-server.c:1011-1041 | one transmission is exactly the frame: start, escaped body, end, checksum of the escaped body |
| `RspIo.PutPacket` | hardware/cores/adv_debug_sys/Software/adv_jtag_bridge/rsp-server.c:1001-1051 | the frame is repeated once per character read until '+' or the end of the stream |
| `RspIo.DeliverMeans` | hardware/cores/adv_debug_sys/Software/adv_jtag_bridge/rsp-server.c:1009-1050 | one copy of the frame, and another for each character read that is not a plus; what is left to read is the input behind the first plus |
| `RspIo.CollectBody` | hardware/cores/adv_debug_sys/Software/adv_jtag_bridge/rsp-server.c:1131-1166 | the buffer and checksum follow the body, starting over at '$', ending at '#' or when the buffer is full |
| `RspIo.CheckBody` | hardware/cores/adv_debug_sys/Software/adv_jtag_bridge/rsp-server.c:1172-1207 | '+' if and only if the two digits give the computed checksum, otherwise '-' |
| `RspIo.GetPacket` | hardware/cores/adv_debug_sys/Software/adv_jtag_bridge/rsp-server.c:1099-1214 | the returned packet, the answers sent and the input left are those of the receiver's state machine, on every stream; the packet is terminated by a zero byte |
| `MatchTable.WithoutUnbinds` | hardware/cores/adv_debug_sys/Software/adv_jtag_bridge/rsp-server.c:1465-1497 | taking one node out of a chain removes its key and no other binding |
| `MatchTable.DeleteNodes` | hardware/cores/adv_debug_sys/Software/adv_jtag_bridge/rsp-server.c:1465-1497 | exactly one node leaves the table |
| `MatchTable.Table.Init` | hardware/cores/adv_debug_sys/Software/adv_jtag_bridge/rsp-server.c:1361-1369 | clearing the buckets leaves the empty map |
| `MatchTable.Table.Add` | hardware/cores/adv_debug_sys/Software/adv_jtag_bridge/rsp-server.c:1385-1411 | adds a binding, or keeps the table as it is when the key is present; every node stays in bucket addr % 1021, keys stay unique, chains acyclic and disjoint |
| `MatchTable.Table.Lookup` | hardware/cores/adv_debug_sys/Software/adv_jtag_bridge/rsp-server.c:1425-1443 | finds the entry with that type and address if and only if the map has it |
| `MatchTable.Table.Delete` | hardware/cores/adv_debug_sys/Software/adv_jtag_bridge/rsp-server.c:1465-1497 | unlinks exactly the entry with that key, at the head or inside its chain, and returns it |
| `Matchpoints.OverlayExact` | hardware/cores/adv_debug_sys/Software/adv_jtag_bridge/rsp-server.c:2811-2820 | over every run of Z and z packets, duplicates and watchpoints included: memory is the original with traps at the table's addresses, and entries keep the originals, after every packet if and only if no insertion puts a second breakpoint into a word |
| `Matchpoints.AlignedUncrowded` | hardware/cores/adv_debug_sys/Software/adv_jtag_bridge/rsp-server.c:2811-2820 | runs of word-aligned breakpoints always meet that condition |
| `Matchpoints.RemovingAllRestores` | hardware/cores/adv_debug_sys/Software/adv_jtag_bridge/rsp-server.c:2707-2723 | after any such run, removing every breakpoint restores the original memory |
| `Matchpoints.CrowdedWordStaysPatched` | hardware/cores/adv_debug_sys/Software/adv_jtag_bridge/rsp-server.c:2707-2723 | two breakpoints in one word, removed in the order they were set, leave a trap behind with an empty table |
| `Matchpoints.SetEntries` | hardware/cores/adv_debug_sys/Software/adv_jtag_bridge/rsp-server.c:2811-2820 | an insertion records the original word, also when repeated |
| `Matchpoints.ClearKeepsOverlay` | hardware/cores/adv_debug_sys/Software/adv_jtag_bridge/rsp-server.c:2707-2723 | a removal puts the original back and keeps the overlay elsewhere |
| `Matchpoints.FirstFree` | hardware/cores/adv_debug_sys/Software/adv_jtag_bridge/hwp_server.c:1020-1037 | the lowest free watchpoint, or -1 if and only if there is none |
| `Watchpoints.ArmWatches` | hardware/cores/adv_debug_sys/Software/adv_jtag_bridge/rsp-server.c:2834-2852 | arming makes the watchpoint enabled and unchained and its compare registers look at the accesses the kind is about, and leaves all others as they were |
| `Watchpoints.CodeMeans` | hardware/cores/adv_debug_sys/Software/adv_jtag_bridge/rsp-server.c:2822-2940 | the code of each kind, decoded as the processor does (present, equal, unsigned, compare-to field), looks at fetches, stores, loads or both exactly as the kind asks |
| `Watchpoints.WatchesHits` | hardware/cores/adv_debug_sys/Software/adv_jtag_bridge/spr-defs.h:380-405 | such a watchpoint stops the processor exactly at those accesses to that address |
| `Watchpoints.RequestWatched` | hardware/cores/adv_debug_sys/Software/adv_jtag_bridge/rsp-server.c:2822-2940 | after a granted Z1 to Z4 packet the first free watchpoint stops the processor exactly at fetches, stores, loads, or loads and stores of the address named |
| `Watchpoints.RequestRefused` | hardware/cores/adv_debug_sys/Software/adv_jtag_bridge/rsp-server.c:2822-2940 | such a packet is answered as unsupported, and changes nothing, if and only if the pool is exhausted; otherwise OK |
| `Watchpoints.Replies` | hardware/cores/adv_debug_sys/Software/adv_jtag_bridge/rsp-server.c:2680-2957 | E01 answers exactly the packets that are not understood, which change nothing; every other removal is answered OK, and so is every breakpoint |
| `Watchpoints.DisarmedIsBlind` | hardware/cores/adv_debug_sys/Software/adv_jtag_bridge/rsp-server.c:2731-2746 | a removed watchpoint stops the processor at nothing, and looks at nothing should it be enabled again |
| `Watchpoints.StepKeeps` | hardware/cores/adv_debug_sys/Software/adv_jtag_bridge/rsp-server.c:2822-2947 | every packet keeps the account of the eight watchpoints: taken before, held by one entry, lost, or free |
| `Watchpoints.OwnershipSafe` | hardware/cores/adv_debug_sys/Software/adv_jtag_bridge/rsp-server.c:2725-2947 | over every run live entries hold pairwise distinct watchpoints, each in use, enabled and programmed for its entry, and no other bit of DMR2 changes |
| `Watchpoints.PoolRestored` | hardware/cores/adv_debug_sys/Software/adv_jtag_bridge/rsp-server.c:2725-2759 | once a run has removed its entries the pool is as before if and only if no duplicate insertion was granted a watchpoint; then no new enable bit is set |
| `MatchpointServer.Pool.GetAvailable` | hardware/cores/adv_debug_sys/Software/adv_jtag_bridge/hwp_server.c:1020-1037 | grants the first free watchpoint and marks it, or returns -1 and changes nothing |
| `MatchpointServer.Pool.Return` | hardware/cores/adv_debug_sys/Software/adv_jtag_bridge/hwp_server.c:1043-1059 | marks the watchpoint free; a number out of range changes nothing |
| `MatchpointServer.Target.ArmWatchpoint` | hardware/cores/adv_debug_sys/Software/adv_jtag_bridge/rsp-server.c:2834-2852 | the register accesses of an insertion, in order |
| `MatchpointServer.Server.InsertMatchpoint` | hardware/cores/adv_debug_sys/Software/adv_jtag_bridge/rsp-server.c:2783-2957 | table, memory, registers, pool and reply are those of the packet's meaning, errors included |
| `MatchpointServer.Server.RemoveMatchpoint` | hardware/cores/adv_debug_sys/Software/adv_jtag_bridge/rsp-server.c:2680-2768 | the same for removal; removing what is not there answers OK and changes nothing |
| `Mpsse.InterpretAppend` | hardware/cores/adv_debug_sys/Software/adv_jtag_bridge/cable_ft2232.c:352-397 | commands buffered behind complete ones are obeyed in order, wherever the buffer is flushed |
| `Mpsse.UsbConn.Flush` | hardware/cores/adv_debug_sys/Software/adv_jtag_bridge/cable_ft2232.c:263-311 | sends what is buffered and collects every scheduled byte |
| `Mpsse.UsbConn.Write` | hardware/cores/adv_debug_sys/Software/adv_jtag_bridge/cable_ft2232.c:352-397 | the pulses and responses of a command come behind those of all earlier ones, whether it triggers a flush or not; it does exactly when too many bytes would be scheduled to come back, or enough are buffered and none is |
| `Mpsse.UsbConn.Read` | hardware/cores/adv_debug_sys/Software/adv_jtag_bridge/cable_ft2232.c:313-350 | returns the next scheduled bytes in order |
| `Ft2232.BytesCommandMeans` | hardware/cores/adv_debug_sys/Software/adv_jtag_bridge/cable_ft2232.c:580-607 | the command of a chunk of up to 65536 bytes clocks their bits and brings back as many bytes |
| `Ft2232.TmsCommandMeans` | hardware/cores/adv_debug_sys/Software/adv_jtag_bridge/cable_ft2232.c:645-672 | the TMS command clocks its one bit with TMS high |
| `Ft2232.StreamSplit` | hardware/cores/adv_debug_sys/Software/adv_jtag_bridge/cable_ft2232.c:751-775 | whole bytes, remaining bits and last bit together are the stream, for every length |
| `JtagPins.PulsesAreClocks` | hardware/cores/adv_debug_sys/Software/adv_jtag_bridge/cable_ft2232.c:751-775 | the pulses of a stream are the clocks that ShiftRun takes a chain through |
| `Ft2232.Driver.WriteBytes` | hardware/cores/adv_debug_sys/Software/adv_jtag_bridge/cable_ft2232.c:566-621 | chunking does not show |
| `Ft2232.Driver.WriteStream` | hardware/cores/adv_debug_sys/Software/adv_jtag_bridge/cable_ft2232.c:751-775 | exactly the first len bits are clocked, least significant first, with TMS high on the last one only and only on request |
| `Ft2232.MaskInIsUpdate` | hardware/cores/adv_debug_sys/Software/adv_jtag_bridge/cable_ft2232.c:723-736 | the mask and shift expression sets one bit and keeps the other seven |
| `Ft2232.MoveBit` | hardware/cores/adv_debug_sys/Software/adv_jtag_bridge/cable_ft2232.c:722-737 | one turn of the loop; the branch that would shift right is never taken |
| `Ft2232.Driver.ReadBits` | hardware/cores/adv_debug_sys/Software/adv_jtag_bridge/cable_ft2232.c:694-749 | fewer than eight bits are moved down and masked into their byte |
| `Ft2232.Driver.ReadStream` | hardware/cores/adv_debug_sys/Software/adv_jtag_bridge/cable_ft2232.c:777-798 | the first len bits of the buffer are the captured bits in order, all later bits are untouched, and exactly the scheduled bytes are consumed |
| `Ft2232.Driver.ReadWriteStream` | hardware/cores/adv_debug_sys/Software/adv_jtag_bridge/cable_ft2232.c:905-913 | both together, for every length; nothing is left unread |
| `Ft2232.Driver.WriteOnly` | hardware/cores/adv_debug_sys/Software/adv_jtag_bridge/cable_ft2232.c:894-903 | a write has reached the pins when the call returns |
| `Cpld.Device.Shift` | hardware/cores/adv_debug_sys/Software/adv_jtag_bridge/cable_xpc_dlc9.c:235-284 | what every transfer must satisfy: at most 8191 changes, never a multiple of 4, buffers long enough |
| `Xpc.PutHolds` | hardware/cores/adv_debug_sys/Software/adv_jtag_bridge/cable_xpc_dlc9.c:307-333 | adding a change packs its four flags into the right nibbles and keeps all earlier ones |
| `Xpc.Transfer.AddBit` | hardware/cores/adv_debug_sys/Software/adv_jtag_bridge/cable_xpc_dlc9.c:307-333 | the buffer holds the changes added so far, in bounds up to 8191 |
| `Xpc.LaidAt` | hardware/cores/adv_debug_sys/Software/adv_jtag_bridge/cable_xpc_dlc9.c:335-348 | bit i of a transfer is found at i, or behind the gap when it belongs to the last 16 or 32 bits |
| `Xpc.CopyRest` | hardware/cores/adv_debug_sys/Software/adv_jtag_bridge/cable_xpc_dlc9.c:385-404 | the tail is moved down by the gap, with zeros above it |
| `Xpc.Transfer.DoTransfer` | hardware/cores/adv_debug_sys/Software/adv_jtag_bridge/cable_xpc_dlc9.c:349-411 | pulses the changes and stores what was sampled from the first word on, zero-filled to a whole word |
| `Xpc.DrivenMeans` | hardware/cores/adv_debug_sys/Software/adv_jtag_bridge/cable_xpc_dlc9.c:587-607 | the changes of a stream pulse exactly its levels and sample once per pulse |
| `Xpc.Driver.ReadWriteStream` | hardware/cores/adv_debug_sys/Software/adv_jtag_bridge/cable_xpc_dlc9.c:557-629 | for every length the clocked levels are the stream; the input words are those of transfer after transfer stored from the first word on |
| `Xpc.ReadBackExact` | hardware/cores/adv_debug_sys/Software/adv_jtag_bridge/cable_xpc_dlc9.c:557-629 | the captured bits come back in order, whatever they are, if and only if there are at most 8191 of them |
| `JspRing.FillAhead` | hardware/cores/adv_debug_sys/Software/adv_jtag_bridge/jsp_server.c:406-453 | a linear write at the write index of no more than the free bytes touches no unread byte |
| `JspRing.Ring.SpaceAvailable` | hardware/cores/adv_debug_sys/Software/adv_jtag_bridge/jsp_server.c:415-417 | the free bytes that can be written linearly |
| `JspRing.Ring.Fill` | hardware/cores/adv_debug_sys/Software/adv_jtag_bridge/jsp_server.c:419-429 | received bytes come behind the unread ones; wr = (rd + count) mod 256 is kept |
| `JspRing.Ring.Peek` | hardware/cores/adv_debug_sys/Software/adv_jtag_bridge/jsp_server.c:515-524 | the bytes offered to the hardware are the oldest ones, and stay |
| `JspRing.Ring.Drop` | hardware/cores/adv_debug_sys/Software/adv_jtag_bridge/jsp_server.c:537-538 | only what was sent is given up |
| `JspRing.Ring.Push` | hardware/cores/adv_debug_sys/Software/adv_jtag_bridge/jsp_server.c:541-546 | bytes are stored one after the other without looking for space, and the count always grows; when they fit the contents are the old ones followed by the new |
| `JspRing.PushExact` | hardware/cores/adv_debug_sys/Software/adv_jtag_bridge/jsp_server.c:541-546 | bytes from the hardware survive next to the unread ones, whatever they are, if and only if they fit in 256 places |
| `JspServer.Server.QueueDataFromClient` | hardware/cores/adv_debug_sys/Software/adv_jtag_bridge/jsp_server.c:406-453 | received from the client = consumed by the hardware followed by the ring's contents, after two receptions of any size or failures; a client that gives all it is asked for fills the ring |
| `JspServer.Server.HardwareTransact` | hardware/cores/adv_debug_sys/Software/adv_jtag_bridge/jsp_server.c:504-550 | from any state of the rings: the oldest bytes, at most eight, are offered and only those sent are given up, so received = consumed followed by the ring's contents, also when the transaction is partial or fails; the other direction is kept if and only if the bytes that came back fit |
| `JspServer.Server.SendDataToClient` | hardware/cores/adv_debug_sys/Software/adv_jtag_bridge/jsp_server.c:455-501 | produced by the hardware = delivered followed by the ring's contents, after up to two partial sends; a client that takes all it is offered empties the ring |

## Left out

- BurstTransfer.BurstRead: correctness needs the register at entry to be clear or in the first word's cell, which ReadRuns.ReadExact shows to be necessary: a call that ends with MAX_BUS_ERR leaves the register set for the next one. A resume index outside the block ends the call in the model; the code goes on outside its array. Word counts are below 2^16, the range of the length field, and the block lies in the 32-bit address space.
- BurstTransfer.BurstWrite: the same condition, and clean variables, both necessary by WriteRuns.WriteExact; a single-device chain, where each word is followed by its ready bit; the process ends where the code calls exit(1).
- BurstTransfer.ReadPass: word sizes are 1, 2 and 4; elements of `data` are bit sequences of the word's width, so the width of `unsigned long` does not matter.
- WishboneLink.Link.ReadCommand: noise covers the words and the CRC of a burst. The status bits, the match bit, the burst command and the error register accesses, which no CRC protects, arrive as sent.
- WishboneLink.Cell: a memory goes by the byte selects for the size of the burst or by all address bits; devices that do something else with an unaligned address are left out.
- ChainConfig.WholeChainIr: shift counts of 32 and more, undefined in C, are reduced as x86 does.
- ChainDiscovery.EnumerateChain: allocation succeeds.
- SelectCache.Bridge.Run: register indices are the one bit the hardware has; failing transfers, after which the cache is updated all the same, are left out.
- Ft2232.Driver.WriteBits: one command, up to eight bits or one bit with TMS; its loop over more chunks is never needed by its callers. Data commands are taken to clock with TMS low.
- Xpc.Driver.ReadWriteStream: a little-endian host; two different buffers, as every caller passes; a failed USB transfer ends the process and is left out.
- JspServer.Server.HardwareTransact: a transaction that fails is taken to have had no effect.
- GdbServer.RspServer.HandlePipe: the register accesses behind a stop (reason, NPC, PPC) are left out; what is kept is which events are handled and what is reported.
- GdbServer.RspServer.ClientRequest: break, run and query only; the other packets neither stall nor run the CPU.
- GdbServer.RspServer.ContinueGeneric: the debug register writes in front of the command are left out.
- GdbServer.RspServer.StepGeneric: the same.
- MonitorProtocol.FairlyAnswered: the client sends no break while it waits.
- MonitorProtocol.BreakPassedOn: a break that finds a server which takes the target as stopped is dropped, as in the code, also while a run command is still on its way.
- WishboneLink.Link.StatusBit: when the module answers ready is left open.
- MonitorProtocol.Safety: a client sends one run command per stop reply and asks nothing in between; detaching and closing the client connection are left out.
- Matchpoints.OverlayExact: packets that write memory or debug registers directly, and other clients of the hardware watchpoint server, are left out; memory and register accesses succeed; the parsing of the packet text is a parameter.
- HardwareMonitor.MonitorThread.Unregister: the pipes themselves are left out; only which connections are served is modelled.
- RspPacket.RoundTrip: the truncation of long strings in put_str_packet is left out.
- The `ADBG_OPT_HISPEED` branches: other loops for the same transfers.
- The detour for Xilinx BSCAN devices: it reloads the instruction and skips the error check.
- The status words of burst writes in chains of several devices: the code itself notes that one of them is not looked at.
- retry_do and its TAP reset: never reached while NUM_SOFT_RETRIES is 0.
- The byte loops of the bit-bang drivers in cable_common.c and the USB Blaster and FT245 drivers: one shift each, or the idea of the FT2232 driver again.
- The legacy debug unit's commands: only its two stream functions and their CRC are modelled.
- Reason registers, exception signals, NPC and PPC handling and the register packets of the GDB server: accesses without an invariant of their own.
- Sockets, USB libraries, BSDL parsing, command lines, printing: only the bytes and bits that cross them appear.
- The Java front end, the attack demonstrations, the patches and the Verilog bus fabric.
