# pi86-rp2350 in Dafny

An RP2350 supervises a physical 8086-family processor: it steps its clock, serves every bus cycle it issues,
raises its timer interrupt, loads workloads into its memory, stores files on NOR flash, and answers records that a
Host program sends over USB. This project models that firmware together with the Host code on the other end of
the link, and proves what the two promise.

| file | what it models |
|---|---|
| `Supervisor.dfy`, `SupervisorRuns.dfy`, `SupervisorWitnesses.dfy` | the product of executor, workload manager, bus pins and Host records as one state machine; safety over all of its runs; runs that show its exceptions to be real |
| `ServiceVerdicts.dfy`, `RecordVerdicts.dfy` | what a service call makes of every bus event and how every Host record is answered, over the runs of that machine, on pins, port numbers, bytes, ids and states |
| `ResetVector.dfy` | the sixteen bytes at the reset vector, and what an 8086 does with them |
| `WorkloadExecutor.dfy` | the executor itself, an object over the bus, the workload manager, the memory service and the bus controller, proved against that machine step by step and run by run |
| `PeriodicTick.dfy` | the 100 Hz tick: generation, coalescing, INTR, the two INTA cycles, EOI, fences, recovery gates |
| `ProcessorBus.dfy` | RESET, clock, INTR and AD lines: reset sequence, safe halt, clock mode |
| `LaneBus.dfy`, `BusController.dfy` | byte lanes, pin wiring and the clock-stepped service of one bus cycle |
| `Backing.dfy`, `MemoryService.dfy` | backing store, memory service, write-window policy, shared mailbox, Host record builders |
| `WorkloadManager.dfy`, `WorkloadLoader.dfy` | manifest, upload protocol and lifecycle, Host and firmware side |
| `HostReplies.dfy`, `NativeOutput.dfy` | timeout and diagnostics replies against the Host's decoders; native output and its PASS test |
| `FlashDisk.dfy`, `FlashService.dfy` | the one-block write-back NOR cache; file transfer over a map of files |
| `SpscRing.dfy`, `Telemetry.dfy`, `EvidenceQueue.dfy` | the two-party ring, the seqlock telemetry block, the evidence byte queue |
| `Crc32.dfy`, `Protocol.dfy`, `Words.dfy` | CRC-32 in its three forms, record layout, machine words |

Code that updates a structure in place is a class whose methods state their whole new state as a function of the
old one; the theorems are about those functions and their runs, and the ones about verdicts and answers are stated
on pins, bytes and numbers rather than on the tests the code makes. Counters are `u32` words with explicit
wrap-around. What the hardware answers (bus events, clock and switch acknowledgements, flash outcomes, file-system
statuses, the time that passes between two readings) is an input of each step, so every statement holds for every
behaviour of the hardware.

Some properties turned out false of the code. Each is stated with the exact condition under which it holds, and
with a run or an input at which it fails:

| property | condition | failing case |
|---|---|---|
| leaving execution leaves a safe bus | `SupervisorRuns.ExitsSafeExactly` | `SupervisorWitnesses.HandOverReachable` |
| 64 cycles pass between a fence and INTR | `PeriodicTick.TickDelivery` | firmware/runtime/workload_executor.c:141-152 | for every run, on the log and not on the gate words: after a poll INTR is up if and only if a tick is pending, nothing is between its INTAs or in service, and it was up already or 10 ms have passed since the last EOI and the signed 32-bit distance to 65 cycles past the last fence is not negative, which for 2^31 cycles means that 65 have completed since; which periods become pending and which are delayed |
| `PeriodicTick.TickArrives` | firmware/runtime/workload_executor.c:141-152 | no pending tick is lost: from every reachable state with one and nothing in service, less than 2^31 cycles after the last fence, 65 further cycles and a poll 10 ms later raise INTR |
| `PeriodicTick.GateExactly` | `PeriodicTick.GateMissing` |
| a put file is there | `FlashService.PutStores` | `FlashService.AliasedPutLost` |
| Host and firmware accept the same manifests | `WorkloadManager.ValidatorsAgree`, `WorkloadManager.HostAcceptedExactly` | `WorkloadManager.ValidatorsDiffer`, `WorkloadManager.PackedButRefused` |
| PASS means the pass line was printed | `NativeOutput.PassExactly` | `NativeOutput.PassWithTail` |
| an accepted commit finds what was sent | `SupervisorRuns.AcceptedCommitExactly` | `SupervisorWitnesses.DisturbedCommit` |
| an accepted telemetry copy is coherent | `Telemetry.CoherentExactly` | `Telemetry.BoundIsTight` |

`dafny verify dfyconfig.toml` checks the whole project.

## Model

| member | source | states |
|---|---|---|
| `SupervisorRuns.LifecycleInStep` | firmware/runtime/canonical_runtime.c:1346-1451 | over every run of uploads, controls, memory and timeout records and service calls: an active executor has a RUNNING or COMPLETED manager with a non-zero workload id, idle holds exactly when active and COMPLETED, COMPLETED implies active, and a call serves the bus exactly while active and RUNNING |
| `ServiceVerdicts.ServiceVerdict` | firmware/runtime/workload_executor.c:471-575 | in every reachable executing state whose limit is not seen, from the levels of the pins, the port numbers, the idle flag and the tick: a completed cycle goes on; after IDLE_PREPARE, no strobe, no lane or an unbacked address completes the workload, idle, NATIVE_HLT; otherwise no strobe waits until 100000 us after the first silent call and then gives TIMED_OUT, NO_BUS_CYCLE on a safe bus; anything else, and always a lost clock, differing pads or a refused INTA, gives FAULTED, BUS_FAULT on a safe bus |
| `ServiceVerdicts.SilenceEnds` | firmware/runtime/workload_executor.c:539-555 | from every such state where nothing starves yet, any sequence of silent calls: the execution goes on exactly while first and last call are less than 100 ms apart, and has timed out on a safe bus from then on |
| `ServiceVerdicts.CompletionNeverRejected` | firmware/runtime/workload_executor.c:506-531 | in every reachable state the manager accepts a completion, so the rejection branch is dead and an armed halt, told from the pins, always completes |
| `ServiceVerdicts.ServiceMemory` | firmware/runtime/clock_stepped_bus_controller.c:65-176 | in every reachable executing state a call leaves the processor the flat memory of 256 KiB RAM and reset vector that the pins ask for, drives its bytes on a read, and keeps the last cycle and the count of each kind by the levels of the pins |
| `ServiceVerdicts.ServiceEffects` | firmware/runtime/workload_executor.c:220-302 | in every reachable executing state, by literal port number: a completed write to 0xE9 prints its byte, 0x20 to port 0x20 ends and fences, 1 to 0xE6 prepares idle and stops the tick, an acknowledge moves the tick on, and every other completed cycle leaves tick, console, gates and idle flag alone |
| `ServiceVerdicts.AcknowledgePair` | firmware/runtime/workload_executor.c:155-185 | from every reachable state with INTR up: the first INTA lowers it and drives nothing, the second drives 0x21 and puts the tick into service |
| `ServiceVerdicts.TickDelivered` | firmware/runtime/workload_executor.c:141-152 | in every reachable executing state, on the log: exactly when the poll of a call leaves INTR up |
| `ResetVector.HandoffEnters` | firmware/runtime/workload_executor.c:30-57 | for every manifest, an interpreter of the 8086 forms used, run from FFFF:0000 over the sixteen bytes, ends at the declared entry, with the declared stack and interrupts off if one is declared, and otherwise with stack and flag untouched |
| `ResetVector.ResetEnters` | firmware/runtime/workload_executor.c:30-57 | in every reachable executing state a processor leaving RESET, on the memory it sees, so arrives inside the staged image |
| `ResetVector.FetchesHandoff` | firmware/runtime/workload_executor.c:351-424 | in every reachable executing state each word read at 0xFFFF0 and up drives the bytes of that vector, and ends the execution exactly if the pins do not show them |
| `SupervisorRuns.ExitsSafeExactly` | firmware/runtime/workload_executor.c:444-469 | in every reachable executing state, a control record leaves RESET held, clock stopped, INTR low and AD released for every answer of the hardware, if and only if it is not an accepted RESTART, without a limit, of an image that now is the calculator's |
| `SupervisorRuns.ExitsAreSafe` | firmware/runtime/workload_executor.c:444-469 | for every step out of execution, of whatever kind: the bus is safe exactly unless that RESTART ended with a live calculator |
| `SupervisorWitnesses.HandOverReachable` | firmware/runtime/canonical_runtime.c:1425-1438 | from every initial state a run (upload, RUN, one store of the processor) reaches such a RESTART, and it leaves RESET released |
| `SupervisorRuns.ControlAnswers` | firmware/runtime/canonical_runtime.c:1390-1441 | in every reachable state: RUN or RESTART answered OK has a processor at work, STOP answered OK leaves what RUN takes again, a refused record changes nothing, a failed start leaves a fault and no execution, and no record changes the workload |
| `RecordVerdicts.ControlAccepted` | firmware/runtime/canonical_runtime.c:1390-1441 | in every reachable state, written out: STOP is OK exactly if the id names a workload that is RUNNING or COMPLETED; RUN and RESTART get past the manager exactly if it is STAGED or STOPPED, respectively also RUNNING or COMPLETED, and not the calculator under a limit; from there, without the free-running flag, they are OK exactly if the clock switch and all twenty reset clocks are answered, whatever the limit; the status of every other case, and that a refusal changes nothing |
| `RecordVerdicts.FreshExecution` | firmware/runtime/workload_executor.c:351-424 | such a start leaves no trace of the last execution, arms tick and limit from the clock it reads, counts a new boot id, and resets the mailbox page to the bytes of a Host-owned empty header, and no other byte |
| `RecordVerdicts.ControlLeaves` | firmware/runtime/workload_executor.c:444-469 | in every reachable state STOP of an execution leaves a safe bus and STOP_REQUESTED, or NATIVE_HLT if the workload had halted; a start that fails past the manager leaves FAULTED and START_FAILURE |
| `RecordVerdicts.UploadAnswers` | firmware/runtime/canonical_runtime.c:1355-1389 | after any run, on the bytes of the record: exactly when BEGIN, DATA and COMMIT are taken, against the payloads accepted so far, the status otherwise, and the whole state each leaves |
| `RecordVerdicts.WriteAnswers` | firmware/runtime/host_service_dispatch.c:29-62 | in every reachable state a memory write is applied exactly inside the 256 KiB and, while the workload runs, on a mailbox page whose first ten bytes give it to the Host; otherwise it is refused and changes nothing |
| `SupervisorRuns.DeadlineArmed` | firmware/runtime/workload_executor.c:412-417 | in every reachable state the deadline is non-zero exactly while active, not idle and limited, and then equals start plus 1000 times the limit |
| `SupervisorRuns.DeadlineExact` | firmware/runtime/workload_executor.c:478-488 | a service call that sees the deadline begins no bus cycle, changes no memory or counter and ends TIMED_OUT on a safe bus; any other call never reports it |
| `SupervisorRuns.DeadlineOnlyHere` | firmware/runtime/canonical_runtime.c:1390-1441 | no upload, control, memory or timeout record ever reports an execution deadline |
| `SupervisorRuns.TicksInEveryRun` | firmware/runtime/workload_executor.c:104-185 | in every reachable state of the whole supervisor, stopped or not, each gap of the tick account is 0 or 1; while enabled it is exact, INTR is the request flag, a raised INTR has both recoveries behind it, count and next period agree, and the cycle counters balance |
| `SupervisorRuns.TicksFollowTheClock` | firmware/runtime/workload_executor.c:104-114 | after any service call of any run the count is the number of whole 10 ms periods from the start to that call's poll, and the next period is the next multiple |
| `SupervisorRuns.AcceptedCommitExactly` | firmware/runtime/workload_manager.c:90-143 | after any run of the supervisor, with earlier uploads, executions, refused records and Host memory writes: an accepted commit has checked exactly the payloads accepted since the last BEGIN, and finds in the load range those bytes with the accepted memory writes applied in turn; so it finds what was sent if and only if the two agree, which the Host can work out beforehand; and it is clear of the mailbox page |
| `SupervisorRuns.AcceptedCommitSound` | firmware/runtime/workload_manager.c:90-143 | it finds exactly what was sent if no memory write was applied to bytes already received |
| `SupervisorWitnesses.DisturbedCommit` | firmware/runtime/host_service_dispatch.c:29-62 | from every initial state there is a run with such a write after which the commit is accepted and finds something other than what was sent |
| `SupervisorRuns.StartKeepsImage` | firmware/runtime/workload_executor.c:351-424 | in every reachable state a start, successful or not, leaves the bytes of the image unchanged |
| `SupervisorRuns.RunKeeps` | firmware/runtime/workload_executor.c:471-575 | the product invariant holds along every run |
| `Supervisor.ServiceKeeps` | firmware/runtime/workload_executor.c:471-575 | one service call, whatever the bus does, keeps the invariant, and leaves a safe bus if it ends execution |
| `Supervisor.ControlKeeps` | firmware/runtime/canonical_runtime.c:1390-1441 | RUN, STOP, RESTART and STATUS, accepted or refused, keep the invariant; leaving execution is safe exactly if nothing is handed over |
| `Supervisor.StartKeeps` | firmware/runtime/workload_executor.c:351-424 | a start launches with a clean account, or leaves the executor at rest and a safe bus safe, on each of its failure paths |
| `Supervisor.StopRests` | firmware/runtime/workload_executor.c:444-469 | stopping, however the halt sequence goes, leaves the executor at rest on a safe bus with the tick gaps preserved |
| `Supervisor.UploadKeeps` | firmware/runtime/canonical_runtime.c:1355-1389 | upload records keep the invariant, and none changes anything while the executor is active |
| `Supervisor.TimeoutKeeps` | firmware/runtime/workload_executor.c:585-636 | a timeout request, refused or applied, keeps the invariant, deadline included |
| `Supervisor.CycleKeeps` | firmware/runtime/workload_executor.c:490-504 | one bus cycle with its callback keeps the invariant and moves neither manager nor deadline |
| `WorkloadExecutor.GeneralExecutor.Drive` | firmware/runtime/workload_executor.c:329-575 | the firmware's objects, wired together and driven through any run of records and service calls, are in the state the machine is in |
| `WorkloadExecutor.GeneralExecutor.Take` | firmware/runtime/canonical_runtime.c:1346-1451 | the same for one step of any kind, keeping the wiring and the invariant |
| `WorkloadExecutor.GeneralExecutor.constructor` | firmware/runtime/workload_executor.c:329-349 | new objects over one backing are wired and in an initial state of the machine |
| `WorkloadExecutor.GeneralExecutor.ServiceOnce` | firmware/runtime/workload_executor.c:471-575 | the in-place service call is the machine's service step, whose verdicts, memory and effects are the ones above, in every state that meets the invariant |
| `WorkloadExecutor.GeneralExecutor.UpdatePeriodicTick` | firmware/runtime/workload_executor.c:104-153 | the in-place poll of the tick source is the poll step, INTR line included, whose delivery is that of `ServiceVerdicts.TickDelivered` |
| `WorkloadExecutor.GeneralExecutor.InterruptAcknowledge` | firmware/runtime/workload_executor.c:155-185 | INTA #1 accepts and INTA #2 carries vector and service, and anything else is refused unchanged |
| `WorkloadExecutor.GeneralExecutor.EndOfInterrupt` | firmware/runtime/workload_executor.c:246-281 | the EOI command is the fence of the tick model, with both gates and the INTR retraction |
| `WorkloadExecutor.GeneralExecutor.IoWrite` | firmware/runtime/workload_executor.c:220-302 | which ports take a word, and what each does to tick, console, idle flag and INTR |
| `WorkloadExecutor.GeneralExecutor.Start` | firmware/runtime/workload_executor.c:351-424 | attempt, prepared bus, tick reset, reset vector, mailbox reset and reset sequence, on the real objects, are the machine's start on every path, whose outcome and bytes are the ones above |
| `WorkloadExecutor.GeneralExecutor.Stop` | firmware/runtime/workload_executor.c:444-469 | the stop, with the halt sequence of the bus, is the machine's stop |
| `HostReplies.StagedIsClean` | firmware/runtime/workload_executor.c:426-442 | in every reachable state an accepted commit leaves no trace of the last execution: no diagnostics for any request, no output, no PASS, no cycle |
| `WorkloadExecutor.GeneralExecutor.TimeoutRequest` | firmware/runtime/workload_executor.c:585-636 | the setting, the deadline and the reply of a timeout request |
| `WorkloadExecutor.GeneralExecutor.Prepare` | firmware/runtime/canonical_runtime.c:1261-1298 | retiring the prepared responder and switching the clock, and what a switch that fails in either half leaves |
| `WorkloadExecutor.GeneralExecutor.HandleControl` | firmware/runtime/canonical_runtime.c:1390-1441 | the handler, over the manager, the backing and the bus, is the machine's control step, whose status is that of `RecordVerdicts.ControlAccepted` |
| `WorkloadExecutor.GeneralExecutor.HandleUploadRecord` | firmware/runtime/canonical_runtime.c:1355-1389 | the manager's own handler on the shared backing, and what it retires or stages, is the machine's upload step, and leaves the reset vector of an execution valid |
| `WorkloadExecutor.GeneralExecutor.HandleMemory` | firmware/runtime/host_service_dispatch.c:29-62 | the memory service on the shared backing is the machine's memory step, reply included |
| `WorkloadExecutor.GeneralExecutor.BusCycle` | firmware/runtime/clock_stepped_bus_controller.c:65-176 | callback and controller, on the shared backing, are the machine's bus cycle |
| `WorkloadExecutor.GeneralExecutor.CalculatorStaged` | firmware/runtime/canonical_runtime.c:329-344 | whether the workload is the calculator, read from the backing |
| `HostReplies.TimeoutReplyAccepted` | host/rp86/workload_timeout.py:51-73 | in every reachable state, for every request: an OK reply passes every test of the Host's decoder and decodes to limit, ids, armed flag and the time left, rounded up to whole milliseconds and 0 exactly if none is left |
| `HostReplies.DiagnosticsReplyAccepted` | host/rp86/diagnostics.py:43-72 | in every reachable state: an OK diagnostics reply passes every test of the Host's decoder, carries the executor's own words, and describes an executor that is not executing |
| `HostReplies.DiagnosticsMean` | firmware/runtime/workload_executor.c:676-700 | in every reachable state, by the numbers of the protocol header: the words the Host decodes are the lifecycle (4 to 7), the reason (0 to 6), the ids, the cycle count, the last address, data, kind (0 to 5) and lanes, and the eight flag bits of the executor |
| `HostReplies.DiagnosticsAfterwards` | firmware/runtime/workload_executor.c:638-675 | whatever step takes a reachable machine out of an execution or completes it, a request for that workload is then answered OK |
| `HostReplies.TimeoutAnswers` | firmware/runtime/workload_executor.c:585-636 | the status of every timeout request and what it changes: GET nothing, SET the limit and the deadline from the start of the execution |
| `HostReplies.RemainingBounded` | firmware/runtime/workload_executor.c:611-636 | the remaining time covers what is left with less than a millisecond to spare, never exceeds the limit and fits its word |
| `PeriodicTick.TicksConserved` | firmware/runtime/workload_executor.c:104-185 | for every run of polls, INTAs, EOIs and other cycles, modulo 2^32: generated = delivered + coalesced + [pending], delivered = acknowledged + [between INTAs], acknowledged = ended + [in service]; INTR up implies pending and nothing in progress |
| `PeriodicTick.SourceNeverDrifts` | firmware/runtime/workload_executor.c:104-114 | for every polling schedule, after a poll at `now` the count is the number of whole 10 ms periods since the start and the next period is the next multiple |
| `PeriodicTick.GatesHold` | firmware/runtime/workload_executor.c:141-152 | whenever INTR is up, 10 ms have passed since the last real EOI and 64 further cycles after the fence cycle have completed, if the stored deadline is not the word zero |
| `PeriodicTick.GateExactly` | firmware/runtime/workload_executor.c:100-102 | the progress gate never opens early, at any later count, if and only if fence + 65 is not 0 modulo 2^32 |
| `PeriodicTick.GateOpens` | firmware/runtime/workload_executor.c:100-102 | the gate is open at 64 further cycles and for 2^31 cycles from there |
| `PeriodicTick.GateMissing` | firmware/runtime/workload_executor.c:274-281 | a run in which INTR rises one cycle after a fence: the zero word reads as no gate |
| `PeriodicTick.YieldFence` | firmware/runtime/workload_executor.c:246-281 | a fence without service takes back an unaccepted INTR, keeps the tick pending, and moves neither the wall-clock gate, the source nor any counter |
| `PeriodicTick.GenerateConserves` | firmware/runtime/workload_executor.c:104-140 | batched generation keeps the account whatever the state of the slot |
| `PeriodicTick.AcknowledgeConserves` | firmware/runtime/workload_executor.c:155-185 | each INTA cycle moves one tick on and keeps the account |
| `PeriodicTick.FenceConserves` | firmware/runtime/workload_executor.c:246-281 | an EOI or a mere fence keeps the account |
| `PeriodicTick.RunInv` | firmware/runtime/workload_executor.c:104-185 | account, gates and phase lock hold along every run |
| `ProcessorBus.Bus.ResetSequence` | firmware/bus/processor_bus.c:186-197 | RESET is released exactly if every reset clock was answered, else the bus is parked and faulted |
| `ProcessorBus.Bus.SafeHalt` | firmware/bus/processor_bus.c:315-331 | however the clock behaves the bus ends parked, and the fault flag is set exactly if a switch or a clock went unanswered |
| `ProcessorBus.Bus.ForceSafeState` | firmware/bus/processor_bus.c:124-133 | the parked state, from any state |
| `ProcessorBus.Bus.Step` | firmware/bus/processor_bus.c:135-152 | an unanswered step, or a step in another mode, parks the bus and sets the fault |
| `ProcessorBus.Bus.SetClockMode` | firmware/runtime/execution_clock_controller.c:132-148 | exactly which switches succeed, and the mode after each that fails: the old one, or stopped if only the new program could not be prepared |
| `LaneBus.RunRefines` | firmware/runtime/clock_stepped_bus_controller.c:65-176 | over every run of bus cycles the RAM/ROM backend is a flat byte memory that decides every cycle from the levels of A0, BHE#, IOM, DTR and INTA# alone; ROM and layout never change; each counter is the number of completed cycles of its kind, and the total their sum, modulo 2^32 |
| `LaneBus.ServeRefines` | firmware/runtime/clock_stepped_bus_controller.c:65-176 | one cycle comes out as the flat memory says, and the flags report exactly that; a failed one changes no memory, a completed read put exactly the bytes selected by A0 and BHE# on the pins, a completed write stored exactly those |
| `LaneBus.ServeObserves` | firmware/runtime/clock_stepped_bus_controller.c:65-176 | address, kind, lanes and data kept of the last cycle, by the levels of its pins |
| `LaneBus.PinsDecode` | firmware/bus/processor_bus.c:57-81 | the decoders against the levels: the even byte is selected exactly if A0 is low, the odd one exactly if BHE# is low, and the kind follows from INTA#, IOM and DTR |
| `LaneBus.ServeCounts` | firmware/runtime/clock_stepped_bus_controller.c:160-176 | a cycle is counted, under its own type, exactly if it completes |
| `LaneBus.ReadsAreFlat` | firmware/runtime/clock_stepped_bus_controller.c:5-23 | a lane read succeeds exactly if every selected address is mapped, gives their bytes, and puts nothing on an unselected lane |
| `LaneBus.WritesAreFlat` | firmware/runtime/clock_stepped_bus_controller.c:25-36 | a lane write succeeds exactly if every selected address is RAM and changes exactly those bytes |
| `LaneBus.DriveReadsBack` | firmware/bus/processor_bus.c:236-260 | through the pin wiring and the look-up tables, an undisturbed drive reads back as itself whatever the other pins do, and the pins of an unselected lane are not driven |
| `LaneBus.LaneReadsBack` | firmware/bus/processor_bus.c:38-55 | the table of a lane and the decoder of the AD pins are inverse for every byte |
| `BusController.Controller.ServiceCycle` | firmware/runtime/clock_stepped_bus_controller.c:65-176 | the in-place service of a cycle is the specification's, memory, statistics and completion together |
| `BusController.Controller.ReadLanes` | firmware/runtime/clock_stepped_bus_controller.c:5-23 | the in-place lane read |
| `BusController.Controller.WriteLanes` | firmware/runtime/clock_stepped_bus_controller.c:25-36 | the in-place lane write, all or nothing |
| `BusController.Controller.CompleteRead` | firmware/runtime/clock_stepped_bus_controller.c:48-63 | both data clocks must read back the driven lanes |
| `BusController.Controller.WriteWord` | firmware/memory/memory.c:57-67 | a word write stores two RAM bytes or none |
| `BusController.Controller.ReadWord` | firmware/memory/memory.c:46-55 | a word read takes both bytes, each from RAM or ROM |
| `Backing.Storage.WriteRange` | firmware/memory/backing.c:66-74 | a write inside the range is applied whole, any other changes nothing |
| `Backing.Storage.ReadRange` | firmware/memory/backing.c:56-64 | the bytes of a valid range, nothing of an invalid one |
| `Backing.Storage.FillRange` | firmware/memory/backing.c:76-84 | a fill is the write of a repeated byte |
| `Backing.ReadExtended` | firmware/memory/backing.c:46-74 | writing right behind a range extends what it reads, and keeps the range valid |
| `Backing.ReadElsewhere` | firmware/memory/backing.c:46-74 | a range that a write does not overlap reads as before |
| `MemoryService.CommitAmongStores` | host/rp86/mailbox.py:53-73 | from a Host-owned page, with any stores of the processor outside the page in between: every record of a commit is accepted, every proper prefix leaves the Host the owner, and the whole sequence publishes exactly header and data and leaves the rest to the processor |
| `MemoryService.Interleaves` | firmware/runtime/host_service_dispatch.c:29-62 | for any records and any stores outside the page: memory is the processor's own with the page as the records alone make it, and every record is answered as if alone |
| `MemoryService.CommitPublishes` | host/rp86/mailbox.py:53-73 | the records of a commit by themselves, after every prefix |
| `MemoryService.LockedOut` | firmware/runtime/host_service_dispatch.c:29-62 | while the processor runs and owns the page no Host record of any shape changes a byte and every non-empty write is refused |
| `MemoryService.ProcessorAlone` | firmware/runtime/host_service_dispatch.c:29-62 | over any interleaving, until the processor hands the page back, memory is what the processor alone makes of it |
| `MemoryService.PageOnly` | firmware/memory/memory_service.c:19-25 | a Host record sent while the processor runs never changes a byte outside the mailbox page |
| `MemoryService.BodyApplied` | host/rp86/memory.py:41-58 | the chunked data records are one write, and ownership is the Host's after each of them |
| `MemoryService.HandOver` | firmware/memory/shared_mailbox.c:22-32 | header, then owner word: ownership changes at the last record and nowhere else |
| `MemoryService.WriteHandled` | firmware/memory/memory_service.c:42-107 | a well-formed write inside the window is applied and acknowledged under its own sequence |
| `MemoryService.MemoryWriteRecords` | host/rp86/memory.py:41-58 | the record loop yields the chunk records, and refuses exactly empty or out-of-range data |
| `MemoryService.MailboxCommitRecords` | host/rp86/mailbox.py:53-73 | the commit builder yields data, header and owner records, and refuses exactly data that is empty or larger than the page |
| `MemoryService.ReadMemory` | host/rp86/service_client.py:93-112 | the Host's read loop over the service returns exactly the bytes of the range, or fails exactly if the range is invalid |
| `MemoryService.MemoryPort.HandleRequest` | firmware/memory/memory_service.c:42-107 | the in-place request handler, reply included |
| `MemoryService.MemoryPort.DispatchMemory` | firmware/runtime/host_service_dispatch.c:29-62 | the window the policy opens, then the request |
| `MemoryService.MemoryPort.MailboxHostOwned` | firmware/memory/shared_mailbox.c:22-32 | ownership as the header tells it |
| `MemoryService.MemoryPort.InitializeMailbox` | firmware/memory/shared_mailbox.c:5-20 | the page is reset whole, or left alone if it is not backed |
| `WorkloadManager.UploadStages` | host/rp86/workload.py:207-235 | from any state but RUNNING and COMPLETED, replaying the Host's upload of any image with a manifest the firmware accepts: every record is accepted, the image is STAGED at its load address under a new id, and no other byte changes |
| `WorkloadManager.CommitFinds` | firmware/runtime/workload_manager.c:125-143 | an accepted commit stages a workload whose declared size and checksum are those of what was sent, and whose load range is what is held |
| `WorkloadManager.ValidatorsAgree` | firmware/runtime/workload_manager.c:17-81 | a manifest the firmware accepts is one the Host accepts if and only if an absent shared range has base 0; its sums do not wrap and it is clear of the mailbox |
| `WorkloadManager.ValidatorsDiffer` | firmware/runtime/workload_manager.c:17-81 | for every checksum there is a manifest the firmware accepts and the Host does not |
| `WorkloadManager.HostAcceptedExactly` | host/rp86/workload.py:126-159 | a manifest the Host accepts is one the firmware accepts if and only if it is tagged, and image, stack and shared range are backed and clear of the mailbox page |
| `WorkloadManager.PackedButRefused` | firmware/runtime/workload_manager.c:17-81 | for every backing and checksum there is a manifest the Host packs and the firmware refuses |
| `WorkloadManager.DecodeOfEncode` | host/rp86/workload.py:161-177 | the packed manifest, at any offset, unpacks to itself |
| `WorkloadManager.BuildUpload` | host/rp86/workload.py:207-235 | the Host's loop builds exactly the upload records, and refuses exactly what it cannot pack |
| `WorkloadManager.HandleUploadInv` | firmware/runtime/canonical_runtime.c:1355-1389 | every upload record, accepted or refused, keeps: while receiving, count and checksum are those of the payloads accepted since BEGIN, and the load range is the account of what it holds |
| `WorkloadManager.PokeInv` | firmware/memory/memory_service.c:87-103 | a memory write in the middle of a transfer patches exactly the bytes it meets, and neither count nor checksum notice |
| `WorkloadManager.MailboxResetKeepsImage` | firmware/memory/shared_mailbox.c:5-20 | the mailbox reset of a start touches no byte of an accepted image |
| `WorkloadLoader.Loader.BeginTransfer` | firmware/runtime/workload_manager.c:90-106 | the in-place BEGIN: when it is accepted and the state it leaves |
| `WorkloadLoader.Loader.WriteChunk` | firmware/runtime/workload_manager.c:108-123 | the in-place DATA: in order, within the image, into the backing |
| `WorkloadLoader.Loader.CommitTransfer` | firmware/runtime/workload_manager.c:125-143 | the in-place COMMIT: staged on a match, faulted on a mismatch |
| `WorkloadLoader.Loader.HandleUploadRecord` | firmware/runtime/canonical_runtime.c:1355-1389 | the in-place record handler, status included, keeping received within the image |
| `NativeOutput.ResultOfText` | firmware/runtime/workload_executor.c:187-206 | for every text printed a character at a time: the retained output is the last ended line, cut, and PASS is reported exactly if that line as a C string is the pass text |
| `NativeOutput.PassExactly` | firmware/runtime/workload_executor.c:187-206 | after any text, before or after the stop that flushes the open line: PASS is reported exactly when the judged line is the pass text, if and only if that line does not begin with the pass text and a zero byte |
| `NativeOutput.PassWithTail` | firmware/runtime/workload_executor.c:187-206 | the pass text, a zero byte and any further bytes of the line are reported as PASS, ended by a line feed or by a stop |
| `FlashDisk.Driver.Perform` | firmware/storage/flash_disk.c:97-170 | over any sequence of reads, writes and controls, on a device that may fail at any erase and leave any contents: the disk is the replay of exactly what the answers admit to, every read delivers the sectors of that replay at its point, the erases are at most one for each erase block a write touches and one for each sync, and the firmware region is untouched |
| `FlashDisk.LastWriteWins` | firmware/storage/flash_disk.c:108-145 | in such a replay a sector holds what the last transfer that covered it put there |
| `FlashDisk.UntouchedSector` | firmware/storage/flash_disk.c:128-145 | in such a replay a sector no transfer covered is as it was |
| `FlashDisk.Driver.DiskWrite` | firmware/storage/flash_disk.c:128-145 | Ok applies all sectors and an error exactly a proper prefix; at most one erase per erase block touched; the firmware region is unchanged |
| `FlashDisk.Driver.DiskRead` | firmware/storage/flash_disk.c:108-126 | the buffer holds the logical sectors and is otherwise unchanged; bad drives, ranges and states are refused |
| `FlashDisk.Driver.DiskIoctl` | firmware/storage/flash_disk.c:147-170 | a successful sync makes the device equal the logical disk; a failed one loses nothing; a sync erases at most once and nothing else erases; the geometry answers |
| `FlashDisk.Driver.Flush` | firmware/storage/flash_disk.c:55-80 | the logical disk never changes; success exactly if nothing was dirty, nothing differed, or the device took the block; one erase at most |
| `FlashDisk.Driver.ProgramEraseBlock` | firmware/storage/flash_disk.c:47-53 | whatever the device leaves in the block, the logical disk is unchanged, because the block is cached |
| `FlashDisk.Driver.SelectCacheBlock` | firmware/storage/flash_disk.c:82-91 | switching blocks keeps the logical disk; a failure keeps the old block cached and dirty |
| `FlashDisk.Driver.Initialize` | firmware/storage/flash_disk.c:97-101 | only drive 0 becomes ready |
| `FlashDisk.Geometry` | firmware/storage/flash_layout.h:6-24 | every sector lies in one erase block, inside the volume, above the firmware |
| `FlashService.EveryFileAccounted` | firmware/storage/flash_service.c:240-347 | over any session of records, with file-system failures anywhere: every file but the temporary is as it was, or some commit onto it had the whole transfer with the declared checksum, and what is there now is gone or has that checksum and length |
| `FlashService.PutStores` | host/rp86/filesystem.py:104-132 | replaying the Host's put of any data under any accepted path: the target holds the data and the commit is answered OK if and only if the path does not name the temporary, and no other file changes |
| `FlashService.AliasedPutLost` | firmware/storage/flash_service.c:306-347 | on a volume that ignores case, putting anything under the temporary's name in lower case is accepted record by record, answered NOT_FOUND at the end, and the data are gone |
| `FlashService.PutThenRead` | host/rp86/service_client.py:149-180 | putting and then reading with the Host's loops is the identity |
| `FlashService.ReadFile` | host/rp86/service_client.py:149-180 | the Host's loop terminates and returns the whole file, or fails exactly if the volume, the path, the file or a file-system call fails |
| `FlashService.DataInSequence` | firmware/storage/flash_service.c:271-304 | after any session, with failures anywhere: a DATA record is taken exactly if a transfer is open, it is of that transfer, begins where the temporary ends and stays within the declared size, and then extends the temporary; any other is answered BAD_STATE and changes nothing |
| `FlashService.OnlyCheckedCommits` | firmware/storage/flash_service.c:358-397 | one record, whatever fails: only the temporary changes, unless the checksum has passed, and then only the target besides |
| `FlashService.CommitKeeps` | firmware/storage/flash_service.c:306-347 | an acknowledged commit has moved the temporary, with the declared checksum and length, to the target |
| `FlashService.ReadHandled` | firmware/storage/flash_service.c:200-238 | a READ, through the reply the Host parses, gives exactly the chunk, the size and the end mark |
| `FlashService.ValidFlashPath` | firmware/storage/flash_service.c:59-80 | exactly the paths accepted, and the C string each becomes |
| `FlashService.SegmentsValid` | firmware/storage/flash_service.c:59-80 | the segment scan decides: no control character and no segment `.` or `..` |
| `FlashService.WriteRecords` | host/rp86/filesystem.py:104-132 | the Host's loop builds exactly the put records, and refuses exactly an unusable path |
| `FlashService.FileService.constructor` | firmware/storage/flash_service.c:349-356 | initialisation of a mounted volume removes a left-over temporary |
| `FlashService.AbortKeeps` | firmware/storage/flash_service.c:92-100 | after an abort, even one that cannot remove the temporary, no DATA or COMMIT record is expected, and no file but the temporary has changed |
| `FlashService.FileService.HandleBegin` | firmware/storage/flash_service.c:240-269 | the in-place BEGIN, reply included |
| `FlashService.FileService.HandleData` | firmware/storage/flash_service.c:271-304 | the in-place DATA, reply included |
| `FlashService.FileService.HandleCommit` | firmware/storage/flash_service.c:306-347 | the in-place COMMIT, reply included |
| `FlashService.FileService.HandleRead` | firmware/storage/flash_service.c:200-238 | the READ, reply included |
| `FlashService.FileService.HandleRequest` | firmware/storage/flash_service.c:358-397 | the dispatch of one record: unavailable volume, operation, length, unknown operation |
| `SpscRing.EveryInterleaving` | firmware/runtime/spsc_u32_ring.h:31-59 | for every interleaving of the steps of producer and consumer, with both indices wrapping: the popped values are a prefix of the pushed ones, the index distance is the number in flight and at most 64, and the drop counter is exact modulo 2^32 |
| `SpscRing.StoreHitsFreeCell` | firmware/runtime/spsc_u32_ring.h:31-45 | acting on a stale read index, the producer never overwrites an unread value |
| `SpscRing.RefusalsAreExact` | firmware/runtime/spsc_u32_ring.h:31-59 | a push is refused exactly if the ring was full at its load, a pop is empty exactly if the ring was empty at its load |
| `SpscRing.SharedRing.TryPush` | firmware/runtime/spsc_u32_ring.h:31-45 | the in-place push is the four producer steps |
| `SpscRing.SharedRing.TryPop` | firmware/runtime/spsc_u32_ring.h:47-59 | the in-place pop is the four consumer steps |
| `Telemetry.CoherentExactly` | host/rp86/freertos_system.py:172-194 | for every interleaving of word stores and word loads with k sequence stores inside the attempt, every accepted copy is the block after a whole number of critical sections, if and only if k is 0 or not a multiple of 2^16 |
| `Telemetry.AcceptedIsCommitted` | host/rp86/freertos_system.py:172-194 | below 2^16 an accepted attempt has no store of any kind inside it |
| `Telemetry.BoundIsTight` | host/rp86/freertos_system.py:172-194 | for every positive multiple of 2^16 there is a run of the writer and an attempt in which the Host accepts a block that was never in memory |
| `Telemetry.ReadStable` | host/rp86/freertos_system.py:172-194 | the retry loop returns the first acceptable attempt, gives up exactly if there is none, and refuses to make no attempt at all |
| `Telemetry.Writer.BeginUpdate` | processor/workloads/validation/freertos_system/main.c:69-73 | the odd store that opens a critical section |
| `Telemetry.Writer.CommitEvent` | processor/workloads/validation/freertos_system/main.c:75-81 | event, argument, then the even store, in that order |
| `Telemetry.Writer.PublishBootStage` | processor/workloads/validation/freertos_system/main.c:89-93 | store by store, the writer keeps the discipline and commits one boot update |
| `Telemetry.Writer.PublishBlink` | processor/workloads/validation/freertos_system/main.c:130-148 | the same for one blink of the LED task |
| `Telemetry.Writer.PublishSent` | processor/workloads/validation/freertos_system/main.c:150-173 | the same for one send of the producer task |
| `Telemetry.Writer.PublishReceived` | processor/workloads/validation/freertos_system/main.c:175-204 | the same for one receive of the consumer task |
| `Telemetry.Writer.PublishFailure` | processor/workloads/validation/freertos_system/main.c:110-123 | the same for a failure |
| `EvidenceQueue.RunConserves` | firmware/runtime/evidence_queue.c:9-46 | for every run: bytes taken followed by bytes queued are the bytes accepted, in order; the drop counter is the number of refused pushes modulo 2^32 |
| `EvidenceQueue.UnrolledPush` | firmware/runtime/evidence_queue.c:9-28 | copying in two pieces around the wrap appends |
| `EvidenceQueue.UnrolledConsume` | firmware/runtime/evidence_queue.c:39-46 | advancing the read offset drops exactly the front |
| `EvidenceQueue.Queue.TryPush` | firmware/runtime/evidence_queue.c:9-28 | the circular buffer accepts a push whole or not at all, and is a FIFO |
| `EvidenceQueue.Queue.Peek` | firmware/runtime/evidence_queue.c:30-37 | the contiguous piece is a prefix of the queue, empty exactly if the queue is |
| `EvidenceQueue.Queue.ConsumeFront` | firmware/runtime/evidence_queue.c:39-46 | consuming takes at most what is there, from the front |
| `Crc32.ChunkingIrrelevant` | firmware/runtime/workload_manager.c:7-15 | however bytes are cut into records, the manager's checksum (complemented at every call) and the flash service's (complemented once) are the table-driven CRC-32 of section 8 of RFC 1952 over the whole |
| `Crc32.ByteStep` | firmware/storage/flash_service.c:32-40 | eight shifts with feedback are one table look-up |
| `Crc32.ChecksumExtends` | firmware/runtime/workload_manager.c:108-123 | the running checksum of a prefix extends to the next chunk |
| `Crc32.RawUpdate` | firmware/storage/flash_service.c:32-40 | the firmware's nested loop over a raw register |
| `Crc32.ComplementedUpdate` | firmware/runtime/workload_manager.c:7-15 | the firmware's loop that complements on entry and on exit |

## Left out

- FlashService.FileService.HandleRequest: the replies to directory listing and disk-free records (LIST, DF, `read_directory`) are inputs; they change no file.
- PIO programs, DMA and the prepared exact-match streams: the prepared calculator appears only as the outcome of a start (refused, parked after a failure, or live).
- Runtime reboot, bootloader entry, the watchdog and `rp86_workload_discard`: they are not steps of the machine.
- FatFs internals, formatting and mounting: the volume is a map from canonical path to bytes; canonicalisation is an arbitrary function and each call's status is an input.
- Divider validity and clock frequencies: floating-point arithmetic of the board, with no effect on the modes.
- ServiceVerdicts.SilenceEnds: assumes that the clock does not read zero at the first silent call, because the firmware stores zero for no silence.
- ResetVector.HandoffEnters: only the instruction forms of the reset vector are interpreted; prefetching is not modelled, the fetches are whatever cycles the processor issues.
- Microsecond times are unbounded; the 64-bit counter of the firmware does not wrap in any run of interest.
- The trace ring, emitted text, evidence documents, USB transport, sessions, servers and command line: formatting and plumbing.
- Electrical behaviour: what the pins sample is an input of each bus event, and the clock mode is the mode variable, which reads stopped even if a free-running clock did not acknowledge the stop.
- WorkloadExecutor.GeneralExecutor.Start: the scalar members of the executor structure are one record field of the class, and the statistics are copied into the controller for a cycle and back, where the firmware lets the controller update them directly.
- WorkloadExecutor.GeneralExecutor.BusCycle: a callback runs before the controller serves its cycle, where the firmware calls it from inside; the controller asks each callback at most once per cycle and the statistics the callback reads are not yet changed then.
- WorkloadExecutor.GeneralExecutor.HandleControl: a CONTROL record is taken already unpacked; the STATUS snapshot payload is not modelled.
- WorkloadManager.UploadStages: the Host does not wrap its sequence numbers, so first sequence and record count must fit in 32 bits.
- WorkloadManager.BuildUpload: the same bound on sequence numbers.
- WorkloadLoader.Loader.WriteChunk: relies on received being within the image, which every record handler keeps.
- FlashDisk.Driver.DiskRead: a null buffer is not representable.
- FlashService.PutStores: assumes that every file-system call succeeds and that the data fit the volume; failures are covered by FlashService.EveryFileAccounted.
- FlashService.CommitKeeps: removing the target before the rename means that a late failure loses the old file; the statement allows that.
- Where the telemetry documentation promises one coherent snapshot without a bound, the code misses it when a positive multiple of 2^16 sequence stores falls inside an attempt.
- Where the executor's comments promise 64 recovery cycles after every fence, the code misses them at one cycle count in 2^32.
