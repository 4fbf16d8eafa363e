# pciemu: a verified model

pciemu is an emulated PCIe device with a DMA engine, a Linux driver for it, and a small
protocol that forwards device-memory accesses over a socket. This project models the parts of
it that have to be right under concurrency and over whole runs, in Dafny 4.11, and proves them.
`dafny verify dfyconfig.toml` checks everything.

## What is modelled

**The DMA transaction** (`Transaction*.dfy`, `RoundTrip.dfy`). Any number of ioctl callers, the
DMA engine and the interrupt handler are one transition system. A register write is performed
inside the caller's own `iowrite32`, so the engine's doorbell routine runs in the thread that
rang; the handler runs on any CPU from the moment the interrupt is notified, which is before the
engine is back in IDLE (`HandlerOvertakes`). Every access to shared state is a step of its own:
the fields of the driver's structure, the mutex, the completion, the mapping, the status read and
the store of each configuration write, the compare-and-swap, the copy, the flag, the notification,
the store of IDLE, and the four actions of the handler. The page field is written outside the
mutex, as in the driver. An inductive invariant ties the holder's program counter to everything
else, and the theorems follow from it: every configuration write takes effect, the engine executes
exactly the holder's descriptor, no copy leaves the device buffer or touches an unmapped address,
a caller is released only by its own transfer, unmap matches map, the whole system is linearisable
(memory and buffer are those of the logged transfers done one after the other), pins are
conserved, and nothing gets stuck. `TransactionBytes.dfy` says of every byte of memory and buffer
who wrote it last. Every run of the example program, by one caller or two in turn and without
failures, carries the int at one address to another. `TransactionDevice.dfy` shows that the
engine's part of these steps is that of the device below: configuration writes, the doorbell from
its compare-and-swap to the store of IDLE, and the handler's acknowledgement, each undisturbed,
are one register write.

**The engine without the mutex** (`Race.dfy`). Any number of threads write configuration registers
and ring the doorbell of one engine. Execution is exclusive, and the descriptor of an execution is
frozen if and only if no store based on an older IDLE read is pending. Each register holds the
last value stored after an IDLE read.

**The device** (`EngineModel.dfy`, `Device.dfy`, `DeviceIrq.dfy`, `DeviceRuns.dfy`,
`AuroraDevice.dfy`). Register decode, the engine and its byte copies, as a class whose methods are
proved against value-level functions. A bus copy may write registers of the device it serves; a
register access therefore carries the accesses its copy makes in turn. `DeviceRuns.dfy` states, by
addresses and values alone, what registers, bytes and completion interrupt hold after any run of
writes. A window beyond the buffer, which C leaves undefined, is reported as an overrun rather
than excluded.

**Interrupt state** (`Irq.dfy`, `IrqBlock.dfy`). MSI-X, MSI and pin state are members of one C
union; they are modelled as the bytes they share. The limits of 32 and 2048 vectors are those of
section 6.8 of the PCI Local Bus Specification 3.0.

**Device memory over a socket** (`Socket.dfy`). Client calls send a record and receive one, on one
connection, with nothing to match the two but the address. Sends and receives of the calls and
receives of the server may fail; before its first receive the server's record is not initialised.

`Bits.dfy`, `Bytes.dfy`, `Hw.dfy` and `IoctlArgs.dfy` hold the bitwise and address arithmetic.

## Assumptions about the environment

- Memory accesses are sequentially consistent.
- MSI or MSI-X is enabled, and each notification reaches the handler once.
- Only the driver writes the DMA and interrupt registers of a bound device; programs that map the
  register window touch the four scratch registers.
- A DMA mapping stands for consecutive bytes of one page at bus addresses below 2^32; a bus access
  reaches memory only through an outstanding mapping of the same direction.
- A bus copy either succeeds or reports an error, and then any bytes may be in a prefix of its
  target; a page may fail to be pinned or mapped at any time.
- A socket receive yields a whole record or fails; what the server sends arrives.

## Findings

- The shared page field makes page identity a race: whenever two callers can pin different pages
  there is a run without failures that sends one caller's transfer to the other's page and puts
  that page twice (`CrossedPages`). A call's transfer is of its own page exactly when no other page
  was the last pinned before the call read the field (`TransferPageIff`), and the handler puts the
  call's own page exactly when none was until then (`PutPageIff`); with one call at a time both
  always hold (`SequentialPins`).
- A call whose mapping fails never puts its page: `LostPage` gives the run from every state with a
  free mutex, and once no call is in progress as many pages were put as were taken if and only if
  no mapping failed (`PinsConserved`).
- The boundary test of the engine looks at the start address only, so a transfer can overrun the
  buffer: one byte for the address just behind it is enough, from every idle state
  (`OverrunReachable`), and a run of register writes overruns the buffer if and only if some
  doorbell is rung with registers that describe a window beyond it (`OverrunIff`). The driver's
  never do (`CopiesAreContained`).
- Without the driver's mutex a descriptor can change during its own execution
  (`StaleStoreReachable`).
- A reset in pin mode leaves the completion flag of the vectors as it was; a device reset leaves no
  vector flag set if and only if MSI-X or MSI is enabled or that flag was not set
  (`ResetLeavesNothingIff`). An interrupt raised with MSI-X enabled, and the pin in use at the
  reset, keep it set, from every cleared state (`PinResetKeepsFlag`).
- Every failed receive of a socket call leaves an answer that is never made good
  (`RequestsConserved`): with calls one at a time, k failures put every later call off by k places,
  and one more if the server answered its uninitialised record. A call for an address that no
  earlier record was for succeeds if and only if neither happened (`AloneGetsOwnIff`,
  `OneAtATime`). `FailedReceiveShifts` is the run: one failed receive, and the next call, for
  another address, fails with the answer to the request before it.
- If the server's first receive fails and its uninitialised record holds a command, that record is
  answered, and every call is off by one from the start (`PhantomAnswered`). The order of requests is
  kept in every run if and only if the record does not hold a command (`FirstInFirstOutIff`).

## Model

| member | source | states |
|---|---|---|
| IoctlArgs.WindowInsidePage | driver/kernel/pciemu_module.c:52-56 | for every address and every page size of at least 4, the masked offset is the address modulo the page size, and the length is what lies in that page of the four bytes there: the smaller of 4 and the rest of the page, so 4 exactly when the int does not straddle two pages |
| IoctlArgs.AlignedIntIsWhole | driver/kernel/pciemu_module.c:53-56 | an aligned int is always transferred whole |
| Bits.AndLowMask | src/pciemu/aurora_backend/dma/dma.h:10 | masking with the low n bits is the remainder by 2^n, for every n |
| EngineModel.MaskIsLow32 | src/pciemu/aurora_backend/dma/dma.c:18-28 | the device's mask and the driver's 32-bit conversion agree on all addresses and are the identity below 2^32 |
| TransactionProof.StepInv | driver/kernel/pciemu_dma.c:6-78 | every step of every caller, the engine and the handler keeps the global invariant |
| TransactionProof.RunInv | driver/kernel/pciemu_dma.c:15-78 | the invariant holds after every run |
| TransactionProof.DescriptorAccepted | driver/kernel/pciemu_dma.c:32-39 | the driver's registers always pass the device's command and boundary tests and describe the caller's window at offset 0 of the buffer |
| TransactionProof.CopyReachable | src/pciemu/aurora_backend/dma/dma.c:55-58 | after masking, the copy goes through the one outstanding mapping, which is the caller's |
| TransactionProof.CopyRefines | src/pciemu/aurora_backend/dma/dma.c:36-84 | the copy made from the descriptor, through mask and mapping, is the transfer that the caller asked for, good or bad, in both directions |
| TransactionSafety.ConfigWritesFindIdle | src/pciemu/aurora_backend/dma/dma.c:86-112 | in every reachable state each configuration write and doorbell of a driver finds the engine IDLE, so none is dropped |
| TransactionSafety.ExecutesOwnDescriptor | driver/kernel/pciemu_dma.c:20-42 | the executed descriptor and command are the four values of the current holder and its mapping is the only one, never a mix of two callers |
| TransactionSafety.CopiesAreContained | src/pciemu/aurora_backend/dma/dma.c:30-34 | every driver copy stays in the device buffer and in mapped memory, although the device tests only the start address |
| TransactionSafety.OneTransactionAtATime | src/pciemu/aurora_backend/dma/dma.c:114-128 | at most one caller is past the mutex, at most one interrupt is in flight or handled, at most one mapping exists, EXECUTING holds exactly while the holder is in its doorbell, and a free mutex means IDLE, no interrupt, flag lowered, nothing mapped |
| TransactionSafety.NoEarlyRelease | driver/kernel/pciemu_dma.c:40-42 | a wait ends only after the copy attempt of this very call, counted one beyond the calls its caller returned from, with every transfer signalled, its page unmapped, its interrupt acknowledged and nothing in flight |
| TransactionSafety.HandlerOvertakes | src/pciemu/aurora_backend/dma/dma.c:83-127 | the interrupt of a transfer may be handled to its end, unmapping, putting and completing, while the engine still executes |
| TransactionSafety.UnmapsItsMapping | driver/kernel/pciemu_irq.c:14-15 | each unmap uses the handle, length and direction of the one outstanding mapping and leaves none |
| TransactionSafety.RunsLinearise | driver/kernel/pciemu_dma.c:15-78 | for every interleaving, memory and buffer are those of the logged transfers done one after the other, each an atomic copy of its caller's window |
| TransactionBytes.PageByteStep | src/pciemu/aurora_backend/dma/dma.c:65-82 | of all bytes of user memory a step changes only those in the window of a copy from the device, to the bytes at the front of the buffer, or to any for the part that a failing copy moved |
| TransactionBytes.BufferByteStep | src/pciemu/aurora_backend/dma/dma.c:42-62 | of the device buffer a step changes only the bytes at its front that a copy to the device moves, to those of the caller's window |
| TransactionBytes.PagesByLastWriter | driver/kernel/pciemu_dma.c:15-78 | over every run each byte of every user page is the one stored by the last copy that covered it, or what it was |
| TransactionBytes.BufferByLastWriter | driver/kernel/pciemu_dma.c:15-78 | over every run each byte of the device buffer is the one brought by the last copy that covered it, or what it was |
| TransactionSafety.OneTransferPerCall | src/pciemu/aurora_backend/dma/dma.c:59-83 | in every reachable state each call that came back made exactly one transfer, other calls made none, and every transfer, failed or not, raised exactly one interrupt, but for one whose caller is just about to raise it |
| TransactionPins.PinsConserved | driver/kernel/pciemu_module.c:59-77 | in every reachable state pages taken are pages put, plus one for each mapping that failed, plus calls whose page the handler has still to put; with no call in progress as many were put as taken if and only if no mapping failed |
| TransactionPins.PageFieldIsLastPinned | driver/kernel/pciemu_module.c:61-66 | the shared page field holds the page of whichever caller pinned last |
| TransactionPins.TransferPageIff | driver/kernel/pciemu_module.c:61-75 | the transfer of a call is of the last page that any caller pinned before the call read the shared field, so of its own if and only if that was the last one |
| TransactionPins.PutPageIff | driver/kernel/pciemu_irq.c:17 | the page put for a call is the last that any caller pinned until then, so its own if and only if that was the last one |
| TransactionPins.SequentialPins | driver/kernel/pciemu_module.c:59-77 | with calls one at a time every transfer uses its caller's page, and at rest the pages put are the pages taken, as multisets, if and only if no mapping failed |
| TransactionProgress.NeverStuck | driver/kernel/pciemu_dma.c:40-42 | while the mutex is held, the holder or the handler can take a step |
| TransactionProgress.RankStep | src/pciemu/aurora_backend/dma/dma.c:122-127 | each step of holder or handler lowers a rank or releases the mutex; steps of other callers change neither |
| TransactionProgress.HoldIsBounded | driver/kernel/pciemu_dma.c:20-42 | however the others are scheduled, holder and handler take at most 30 steps before the release |
| TransactionProgress.EveryFinish | driver/kernel/pciemu_dma.c:15-45 | every run of holder and handler alone in which nothing fails and the holder returns ends with the mutex free, one transfer made, the page put and every other caller where it was |
| TransactionProgress.CanFinish | driver/kernel/pciemu_dma.c:15-45 | from every state there is such a run |
| RoundTrip.RunRoundTrip | driver/kernel/pciemu_dma.c:15-78 | over every run, concurrent or not: a good write to the device, then only reads of it, then a good read delivers the bytes, up to the shorter window |
| RoundTrip.FullCall | driver/kernel/pciemu_module.c:47-82 | every run of one ioctl alone without failures, from its start to its return, makes exactly one transfer, of the window of its address in the page it pinned, and puts that page |
| RoundTrip.CanCall | driver/kernel/pciemu_module.c:47-82 | such a run exists from every state with a free mutex, for every address, page and direction |
| RoundTrip.FailedPinHasNoEffect | driver/kernel/pciemu_module.c:61-79 | a call whose page cannot be pinned returns at once and changes nothing but its own arguments |
| RoundTrip.ExampleProgram | driver/userspace/pciemu_example.c:128-159 | every run in which one caller sends the int at one address and then the same or another caller reads it back at another address delivers its bytes, all four exactly when neither int straddles a page, fills a longer window from the buffer as it was, changes no other byte of memory and returns every page reference |
| RoundTrip.LostPage | driver/kernel/pciemu_dma.c:25-28 | from every state with a free mutex there is a run in which the mapping fails, the call returns and its page is never put |
| RoundTrip.CrossedPages | driver/kernel/pciemu_module.c:61-66 | whenever two callers can pin different pages, a run without failures puts one page twice and the other never |
| Race.MutualExclusion | src/pciemu/aurora_backend/dma/dma.c:114-128 | with any number of unsynchronised threads the status is EXECUTING exactly while one thread is between its compare-and-swap and its IDLE store, and never two are |
| Race.OnlyStaleWrites | src/pciemu/aurora_backend/dma/dma.c:86-112 | during an execution a register changes only by a store whose IDLE read preceded the winning compare-and-swap; writes that read during it are dropped |
| Race.StoreIff | src/pciemu/aurora_backend/dma/dma.c:86-112 | a configuration write whose status read saw IDLE stores its value to its register alone, any other is dropped, and nothing else changes a register |
| Race.RegistersHoldLastStored | src/pciemu/aurora_backend/dma/dma.c:86-112 | in every interleaving each register holds the value of the last store whose status read saw IDLE |
| Race.WriteAgrees | src/pciemu/aurora_backend/dma/dma.c:86-112 | with nothing in between a configuration write is that of the device, in every state of the engine |
| Race.FrozenIff | src/pciemu/aurora_backend/dma/dma.c:86-128 | the descriptor stays fixed over all continuations of an execution if and only if no stale store of a different value is pending |
| Race.StaleStoreReachable | src/pciemu/aurora_backend/dma/dma.c:86-128 | from any initial state with two threads an execution whose descriptor is not frozen can be reached |
| Device.WritesDuringExecution | src/pciemu/aurora_backend/aurora.c:24-55 | while the engine executes, no sequence of nested register writes changes descriptor, status, buffer or memory or starts a transfer |
| Device.DoorbellTransfers | src/pciemu/aurora_backend/dma/dma.c:114-128 | a winning doorbell with an accepted descriptor makes one transfer, of the descriptor as it was, whatever the copy writes back |
| Device.Reentrancy | src/pciemu/aurora_backend/dma/dma.c:114-158 | with any nested writes at most one execution begins, none nests, the result for engine, memory and transfer is that without them, and the engine ends IDLE |
| DeviceIrq.InterruptIffAccepted | src/pciemu/aurora_backend/dma/dma.c:39-83 | a doorbell signals completion if and only if its descriptor is accepted; whatever its copy wrote to the device, the completion flag is then set, there is one notification besides those the copy asked for, and no other vector changes; rejected, it has no effect at all |
| Device.DescriptorIsLastWritten | src/pciemu/aurora_backend/dma/dma.c:86-112 | over any run of register writes each descriptor register holds the last value written to it, nothing that bus copies write on the side |
| Device.OverrunIff | src/pciemu/aurora_backend/dma/dma.c:30-34 | a run of register writes overruns the buffer if and only if some doorbell is rung when the last written registers describe a window that starts in the device area, its end included, and ends beyond |
| Device.OverrunReachable | src/pciemu/aurora_backend/dma/dma.c:30-34 | from every idle state a transfer of one byte or more to the address just behind the buffer overruns it |
| Device.RunsStayIdle | src/pciemu/aurora_backend/dma/dma.c:134-158 | over any run of register writes: one execution for each doorbell, depth at most one, IDLE at the end, the mask of init |
| Device.LastWriter | src/pciemu/aurora_backend/dma/dma.c:36-84 | after any run whose transfers fit, each byte of buffer and memory is that of the latest transfer covering it |
| Device.LastWriterSinceReset | src/pciemu/aurora_backend/dma/dma.c:160-180 | since a reset, a buffer byte that no transfer covered is zero, and the mask is unchanged |
| DeviceRuns.ScratchHoldsLastWritten | src/pciemu/aurora_backend/aurora.c:24-55 | over any run of register writes the scratch register at address 8 * i holds the last value written there, by the run or by a transfer's copy in the middle of it, and no other write changes it |
| DeviceRuns.OtherAddressesIgnored | src/pciemu/aurora_backend/aurora.c:24-55 | a write to any address but the eleven registers, inside the window or beyond, has no effect |
| DeviceRuns.SignalIsLast | src/pciemu/aurora_backend/dma/dma.c:83 | over any run of register writes the completion interrupt is up exactly when the last write to signal it raised it or started a transfer, and was notified once for each of these, nested ones included |
| DeviceRuns.DoorbellBytes | src/pciemu/aurora_backend/dma/dma.c:42-82 | a doorbell on registers whose window fits moves exactly the bytes they describe, none if the window is not all on the bus, and a part of them if the bus fails |
| DeviceRuns.TransferKeepsOutside | src/pciemu/aurora_backend/dma/dma.c:42-82 | a transfer, fitting or not, good or failed, changes no byte outside its window |
| DeviceRuns.ResetIsBlank | src/pciemu/aurora_backend/dma/dma.c:160-180 | a reset leaves status IDLE, every engine register and every buffer byte zero and all else as it was; so is a new engine, with a 32-bit mask |
| DeviceRuns.BlankDoorbell | src/pciemu/aurora_backend/dma/dma.c:36-41 | until a register of a new engine is written its doorbells do nothing at all |
| DeviceRuns.DoorbellAfterReset | src/pciemu/aurora_backend/dma/dma.c:160-171 | the same after a reset, whatever the device had done before |
| Device.GoodTransfer | src/pciemu/aurora_backend/dma/dma.c:42-82 | programming four registers and ringing performs exactly the described copy, in either direction, with the bus address cut to 32 bits, whatever the copy writes back |
| Device.DeviceMove | src/pciemu/aurora_backend/dma/dma.c:36-84 | to the device and back through one window is an overlap-safe move of memory between the low 32 bits of any two addresses, and leaves all other bytes of memory and buffer alone |
| TransactionDevice.ConfigStepsAgree | src/pciemu/aurora_backend/dma/dma.c:86-112 | a status read and a store of the protocol, undisturbed, are one configuration write of the device, in every state of the engine |
| TransactionDevice.CopyAgrees | src/pciemu/aurora_backend/dma/dma.c:55-82 | the copy of the protocol, through pages and mappings, and the copy of the device, on a bus that shows the mapped window, give the same buffer and the same window |
| TransactionDevice.DoorbellAgrees | src/pciemu/aurora_backend/dma/dma.c:114-128 | the protocol's steps from compare-and-swap to the store of IDLE, undisturbed, are one doorbell write of the device: same engine, flag and window, and one interrupt in both |
| TransactionDevice.AckAgrees | driver/kernel/pciemu_irq.c:18-19 | the handler's acknowledgement is the device's lower-register write: the flag is cleared in both, engine and notifications are as they were |
| AuroraDevices.AuroraDevice.constructor | src/pciemu/aurora_backend/aurora.c:91-102 | a new device is idle with zero descriptor and buffer and a 32-bit mask |
| AuroraDevices.AuroraDevice.Reset | src/pciemu/aurora_backend/dma/dma.c:160-171 | the status is IDLE, the four registers and the buffer are zero; mask, scratch registers, interrupt state and memory are untouched |
| AuroraDevices.AuroraDevice.Configure | src/pciemu/aurora_backend/dma/dma.c:86-112 | a configuration register is stored if and only if the engine is IDLE |
| AuroraDevices.AuroraDevice.CopyIn | src/pciemu/aurora_backend/dma/dma.c:57-58 | the byte-by-byte copy into the buffer is the slice of memory laid over it, with the rest unchanged |
| AuroraDevices.AuroraDevice.CopyOut | src/pciemu/aurora_backend/dma/dma.c:77-78 | the byte-by-byte copy out of the buffer is the slice of the buffer laid over memory, with the rest unchanged |
| AuroraDevices.AuroraDevice.Transfer | src/pciemu/aurora_backend/dma/dma.c:42-82 | direction, mask, offset and bus error give the specified transfer |
| AuroraDevices.AuroraDevice.Execute | src/pciemu/aurora_backend/dma/dma.c:36-84 | the routine, with the bus calling back into the device, refines its value-level form |
| AuroraDevices.AuroraDevice.RingDoorbell | src/pciemu/aurora_backend/dma/dma.c:114-128 | compare-and-swap, execution and IDLE store refine the value-level doorbell |
| AuroraDevices.AuroraDevice.WriteDmaReg | src/pciemu/aurora_backend/dma/dma.c:134-158 | the DMA register switch refines the value-level write, unaligned addresses included |
| AuroraDevices.AuroraDevice.WriteReg | src/pciemu/aurora_backend/aurora.c:24-55 | the register switch refines the value-level write and fails exactly above 0x8000000 |
| AuroraDevices.AuroraDevice.ReadReg | src/pciemu/aurora_backend/aurora.c:57-84 | addresses 0, 8, 16 and 24 give the scratch registers, others up to 0x8000000 leave the result as it was, and those above give 0xdeadbeef and -1 |
| Irq.LastOperationDecides | src/pciemu/front_end/irq.c:49-163 | over any sequence of raises, lowers, resets and mode switches each vector flag is the effect of the last operation that reached it, the pin and its line likewise, no other byte of the union changes, and the vectors notified are those raised within the limit, in order |
| Irq.MsiAndMsixShareFlags | src/pciemu/front_end/irq.h:13-37 | MSI flag i and MSI-X flag i are one byte for i below 32, distinct from the pin's, and raising one and lowering the other touches no other vector |
| Irq.CompletionVector | src/pciemu/front_end/irq.c:55-99 | in MSI-X or MSI mode a raise of the completion vector flags and notifies it once, a lower clears it, and no other vector changes |
| Irq.ResetExact | src/pciemu/front_end/irq.c:144-158 | a reset by vectors clears exactly vectors 0 to 127, or 0 alone, and nothing else; no flag remains if and only if none was set above |
| Irq.OthersStayLow | src/pciemu/front_end/irq.c:55-99 | where only the completion vector is raised, no other vector is flagged after any sequence of operations |
| DeviceIrq.WriteOps | src/pciemu/aurora_backend/aurora.c:24-55 | what a register write does to interrupt state, writes nested in its copy included, is a sequence of interrupt operations that raise the completion vector alone |
| DeviceIrq.ResetLeavesNothingIff | src/pciemu/front_end/pciemu.c:14-21 | after any run of register writes, mode switches and resets from cleared state no vector but completion is flagged, and a device reset leaves no vector flag if and only if MSI-X or MSI is enabled or the completion flag was not set |
| DeviceIrq.PinResetKeepsFlag | src/pciemu/front_end/irq.c:144-163 | from every cleared state, raising with MSI-X enabled and resetting with the pin in use leaves the completion flag set |
| IrqBlocks.IrqBlock.RaiseMsix | src/pciemu/front_end/irq.c:65-73 | the flag is set and the vector notified, out-of-range vectors have no effect |
| IrqBlocks.IrqBlock.RaiseMsi | src/pciemu/front_end/irq.c:55-63 | the same with the MSI limit |
| IrqBlocks.IrqBlock.LowerMsix | src/pciemu/front_end/irq.c:91-99 | the flag is clear afterwards, out-of-range vectors have no effect |
| IrqBlocks.IrqBlock.LowerMsi | src/pciemu/front_end/irq.c:81-89 | the same with the MSI limit |
| IrqBlocks.IrqBlock.Raise | src/pciemu/front_end/irq.c:106-123 | dispatch by mode, MSI-X before MSI before the pin, refines the union-level raise |
| IrqBlocks.IrqBlock.Lower | src/pciemu/front_end/irq.c:125-142 | dispatch by mode refines the union-level lower |
| IrqBlocks.IrqBlock.Reset | src/pciemu/front_end/irq.c:144-163 | the loops over vectors refine the union-level reset |
| Socket.Serve | utils/tcp_server/tcp_server.c:62-76 | the server answers exactly the requests received, in order; a failed receive is answered only if it is the first and the uninitialised record holds a command |
| Socket.ServerIsLoop | utils/tcp_server/tcp_server.c:62-76 | in every run the records sent to the calls are those of the server's loop for the receives it made, good and failed |
| Socket.FirstInFirstOut | src/pciemu/aurora_backend/common/tcp_client.c:113-157 | in every interleaving, with receives failing on both sides, the n-th record received answers the n-th request, counting the uninitialised record as the first if the server's first receive failed and it holds a command; the rest are on their way |
| Socket.FirstInFirstOutIff | utils/tcp_server/tcp_server.c:62-76 | every run answers the requests sent, in order and nothing else, if and only if the server's uninitialised record holds no command |
| Socket.FailuresReported | src/pciemu/aurora_backend/common/tcp_client.c:123-127 | a call whose send or receive fails returns -1 and stores no value, and what was on its way stays there |
| Socket.PhantomAnswered | utils/tcp_server/tcp_server.c:62-76 | where it does, a run gives its answer to the first call, which then succeeds only if the addresses happen to agree |
| Socket.RequestsConserved | src/pciemu/aurora_backend/common/tcp_client.c:126-127 | in every interleaving requests sent are records received, plus calls that wait, plus receives that failed |
| Socket.ReceivesInTurn | src/pciemu/aurora_backend/common/tcp_client.c:126-136 | a call succeeds if and only if the record whose answer is next in line was for its address; a successful read returns what the server sent for that address, a failed one 0xdeadbeef, a write nothing |
| Socket.NeverStarved | src/pciemu/aurora_backend/common/tcp_client.c:89-111 | a waiting call always has an answer there or a server step to produce one |
| Socket.AloneGetsOwnIff | src/pciemu/aurora_backend/common/tcp_client.c:113-157 | after any run, a call that waits alone receives the answer to the record as many places before its own as receives have failed, and one more if the server answered its uninitialised record; where no earlier record was for its address it succeeds if and only if neither happened |
| Socket.OneAtATime | src/pciemu/aurora_backend/common/tcp_client.c:113-157 | in every run with calls one at a time each call is off by the number of failed receives so far, and one more if the server answered its uninitialised record; where no earlier record was for its address it succeeds if and only if it is off by none |
| Socket.FailedReceiveShifts | src/pciemu/aurora_backend/common/tcp_client.c:126-136 | from every initial state, after one failed receive the next call gets the answer to the request before it and succeeds only if the addresses agree |

## Left out

- The driver routines, the handler and the socket client are transition systems over values rather than classes, because what matters about them is how their steps interleave.
- Probe, remove, BAR mapping, the character device and interrupt vector allocation: a ladder of kernel calls with easy properties only.
- `msix_notify`, `msi_notify`, `pci_set_irq`, `pci_dma_read`, `pci_dma_write`, `dma_map_page` and `get_user_pages_fast` are steps of the environment.
- User programs storing to a page while it is being transferred; a copy is one step in the concurrent model and a loop in the device class.
- Register values are natural numbers without an upper bound; the device does no arithmetic on them that could wrap before its tests, and what a bus copy does at the top of the 64-bit address space is the bus's affair.
- The engine's OFF state after fini: the backend is freed straight afterwards.
- Reset during an execution: it stores IDLE unconditionally, and is modelled only when the engine is quiescent.
- The pin as interrupt of the transaction protocol: with MSI and MSI-X both disabled the driver requests no vector.
- A socket send of the server that fails: the answer would be lost and its call left waiting.
- Connection set-up, the client's lock helpers and environment parsing; no property rests on that lock.
- The forwarding layers `glue.c`, `regbar.c`, `membar.c`, `internal_bar.c` and `pciemu.c`, the example program's argument parsing, scripts and build files.
