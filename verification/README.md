# Verified model of the ESP32-P4 Linux hypervisor and its tools

The repository runs an unmodified NOMMU Linux as a guest on one core of an ESP32-P4 and keeps the host on
the other. This project models five parts of it in Dafny 4.11 and proves what they are for.

* **The block device on two cores** (`VirtioProtocol`, `VirtioBlk`). The driver and the device's registers
  run on core 1, the service task on core 0; they share two flags and the rings. `VirtioProtocol` is a
  transition system with one step for each shared access, interleaved freely under sequential
  consistency; no request and no completion is lost or stranded, and the used ring is the avail ring in
  order.
  `VirtioBlk` is the walk of a descriptor chain and the bounce-buffer transfer: what is written comes
  back, however either request is cut into segments. The `len` that `VirtioProtocol` leaves open at
  core 0's `Serve` step is what `VirtioBlk.Server.DoRequest` returns.
* **The trap-and-emulate monitor** (`Bits`, `Plic`, `Uart`, `Clint`, `BlkRegs`, `Board`, `Hart`, `Decode`,
  `Emulator`, `EmulatorProofs`, `Architecture`, `Nesting`, `Monitor`). The devices and the shadow CSR bank as
  one state machine whose steps are traps. The emulator does what the RISC-V instructions say; a trap resumes the
  guest exactly once; level interrupts are not lost; a blocking wfi with its timer set ends by its deadline;
  trap handlers, nested to any depth, come back to where they were entered from.
* **The romfs writer and its reader** (`RomfsFormat`, `RomfsTree`, `RomfsLayout`, `RomfsWriter`,
  `RomfsReader`, `RomfsImage`). Reading back the image of a tree returns the tree.
* **The on-board linker** (`Relocations`, `Linker`, `LinkerLayout`). A relocated instruction reaches its
  symbol at any load address, and sections are placed without overlap.
* **The terminal and the probe filter** (`Screen`, `Feeding`, `Sequences`, `Transcript`,
  `TerminalCode`, `Probes`).
  Bytes in, grid out: when the way the bytes are cut into reads does not matter, and exactly when it does;
  what an application on the alternate screen leaves alone; line numbers that survive scrolling.

Code that changes state in place is modelled by classes and loops (`VirtioBlk.Server`, `Plic.Device`,
`Uart.Device`, `Board.Devices`, `Monitor.Hypervisor`, `Linker.Patcher`, `TerminalCode.Vt`,
`Probes.Splitter`), each method tied by its `ensures` to a function of the old state; the properties are
proved about those functions. `dafny verify dfyconfig.toml` checks everything.

Where the code differs from what a reader or its documentation would expect, the model follows the code
and says exactly when the two agree:

* `feed` calls itself safe at any split point (tools/hypvt.py:214). It is exactly when the data does not
  end inside a character, or holds no complete character beyond ASCII, and no byte of it raises
  (`Feeding.FeedExact`); `Feeding.SplitAfterCharacter` is a read that loses a character.
* A cursor address or scrolling region with a third parameter is an exception (tools/hypvt.py:464, 523) that
  nothing on the way out of the serial thread catches (tools/hypmon.py:551): `Screen.ByteRaises` says
  which bytes raise, `Feeding.ThirdParameter` is the sequence ESC[1;2;3H.
* `lbu` and `lhu` from a device window put the device's answer in the register without cutting it down
  (main/hyp_mmio.c:83-84); the upper bits are clear, as they should be, exactly when the device answers by
  the byte or its register at that offset is small enough (`EmulatorProofs.NarrowLoadExact`);
  `EmulatorProofs.EnableByteIsWord` is a trap where they are not.
* Interrupts are gated by mstatus.MIE at every privilege level (main/hyp_intr.c:35), where the privileged
  architecture has the gate count in machine mode alone: `Hart.StandardExactly` says when the two agree,
  `Hart.UserTimerWaits` is a guest for which they do not.
* A block request whose data segment fails is never answered: the status codes other than OK are never
  written (`VirtioBlk.AnsweredExactly`), and an unknown request type without data is answered OK
  (`VirtioBlk.OtherKinds`).
* A branch or jal whose distance is odd passes the linker's range check and then does not reach its target
  (`Linker.BranchReachesSymbol`). Nothing checks a call whose target is odd either; jalr clears bit 0, so the
  pair reaches its symbol exactly when base plus symbol plus addend is even (`Linker.CallReachesSymbol`,
  `PairReachesSymbol`). A lui pair reaches its target only at load address 0
  (`Linker.AbsolutePairNeedsBaseZero`, `AbsoluteJumpNeedsBaseZero`).
* The transcript's numbers (tools/hypvt.py:775-787) are stable under scrolling for the whole screen, and for
  no other region a guest can set: `Transcript.StableRegions` gives the exact condition, `ScrollLine` what
  happens to each line, `UnstableRegion` screens that show it. A full clear keeps every number exactly when no
  blank row stands above a row with text (`Transcript.ClearKeepsNumbers`, `ClearRenumbers`).

A trap handler is asked one thing only: that mstatus is as it found it when it executes its mret
(`Nesting.Allowed`). Within that it may do anything, nested traps included, and return where it likes;
`Nesting.ReadyToLeave` is how it gets there uninterrupted, and `Nesting.PcFirstIsLost` how it may not.

The romfs round trip asks of the tree what the format asks: names are ASCII without NUL or slash, distinct
among siblings, and none is "." or ".."; the volume name is ASCII without NUL, as the script sizes names by
their characters. An image of 2^32 bytes or more is refused by `RomfsImage.Build`, as packing its size is
by the script; an image of a tree with more than 40 directories inside one another, the root included, is
written and then refused by the reader.
The block protocol asks that the queue size divides 65536, that the driver keeps at most that many requests
outstanding, and that it neither resets nor re-programs a queue that core 0 is serving.

## Model

| member | source | states |
|---|---|---|
| VirtioProtocol.InvKept | main/hyp_virtio_blk.c:322-374 | every step of the driver, of core 1 and of core 0, in any interleaving, keeps the whole protocol invariant |
| VirtioProtocol.AlwaysInv | main/hyp_virtio_blk.c:322-374 | the invariant holds in every state of every execution from set-up |
| VirtioProtocol.NoRequestLost | main/hyp_virtio_blk.c:355-374 | in every execution, a request the driver has notified of and core 0 has not completed means s_kick is set or core 0 has yet to make its last read of avail.idx |
| VirtioProtocol.NoCompletionLost | main/hyp_virtio_blk.c:493-503 | in every execution, an exposed entry the driver has not taken is announced by core 0 about to set s_irq, s_irq, a poll under way, the status bit, or the driver's own walk; the status bit implies source 11 pending or in service, pending implies the bit, and the handler never reads a clear status |
| VirtioProtocol.UsedIsAvail | main/hyp_virtio_blk.c:333-346 | the k-th completion answers the k-th published head, the driver receives exactly a prefix of the completions, at most queue_num are outstanding, and used.idx equals last_avail between requests, across wraps of the 16-bit indices |
| VirtioProtocol.ExposedIsWritten | main/hyp_virtio_blk.c:337-343 | an entry below used.idx is complete in memory, id and length, for as long as the driver has not taken it |
| VirtioProtocol.RestMeansDone | main/hyp_virtio_blk.c:348-374 | when both cores are at rest and nothing is signalled, every notified request has been completed and taken |
| VirtioProtocol.NothingIsStranded | main/hyp_virtio_blk.c:323-374 | from every reachable state and under every schedule of the two cores' steps, with whatever lengths the requests report: they come to rest within a bounded number of steps, a step can always be taken until both rest, and then every notified request is completed and every completion taken |
| VirtioProtocol.ServiceProgress | main/hyp_virtio_blk.c:323-374 | every effective step of either core, in any interleaving, brings both nearer to rest and keeps the invariant |
| VirtioProtocol.SlotOfWrapped | main/hyp_virtio_blk.c:334-338 | with a ring size dividing 65536, the wrapped index finds the slot of the unbounded count |
| VirtioProtocol.SlotsDiffer | main/hyp_virtio_blk.c:334-338 | two positions fewer than queue_num apart never share a ring slot |
| VirtioBlk.MovedAll | main/hyp_virtio_blk.c:192-218 | the 32 KiB bounces do not show: all bytes move exactly when the card serves the whole stretch |
| VirtioBlk.SegmentWhole | main/hyp_virtio_blk.c:258-278 | one IN or OUT segment as a single move, and exactly when it succeeds |
| VirtioBlk.TransferSucceeds | main/hyp_virtio_blk.c:245-307 | a read or write of any segmentation succeeds exactly when every segment is whole sectors and the card serves them all, and is answered exactly then |
| VirtioBlk.WriteEffect | main/hyp_virtio_blk.c:270-278 | a write leaves on the card the concatenation of its segments at consecutive sectors, changes only the status byte in memory, and reports 1 |
| VirtioBlk.ReadFills | main/hyp_virtio_blk.c:259-268 | a read of disjoint segments fills them, concatenated, with consecutive sectors |
| VirtioBlk.ReadFrame | main/hyp_virtio_blk.c:259-268 | a read leaves every buffer disjoint from its segments as it was |
| VirtioBlk.ReadReports | main/hyp_virtio_blk.c:259-320 | a read leaves the card alone, writes status OK, and reports its segments' bytes and the status byte, modulo 2^32 |
| VirtioBlk.RoundTrip | main/hyp_virtio_blk.c:192-320 | an OUT request and then an IN request of the same sectors, types and sectors read from the headers in guest memory, each with its own segmentation, return the bytes written, with status OK and the exact used length both times |
| VirtioBlk.AnsweredExactly | main/hyp_virtio_blk.c:222-320 | a request gets its status byte, always OK, exactly when its header is long enough, its chain has a last descriptor and what the type in its header asks for can be done; a short header changes nothing and reports 0 |
| VirtioBlk.HeaderSays | main/hyp_virtio_blk.c:226-234 | with a header in memory as the virtio specification encodes it (32-bit type, reserved word, 64-bit sector, little-endian), the device takes that type and the sector modulo 2^32 |
| VirtioBlk.ReadRequest | main/hyp_virtio_blk.c:192-320 | an IN request so encoded fills its segments with the card's bytes from 512 times its sector on, reports them and the status byte, and leaves the card alone |
| VirtioBlk.WriteRequest | main/hyp_virtio_blk.c:192-320 | an OUT request so encoded puts its segments on the card from 512 times its sector on; nothing else there or in memory changes but the status byte |
| VirtioBlk.IdRequest | main/hyp_virtio_blk.c:280-288 | a GET_ID request so encoded leaves the name esp32p4-sd in ASCII, cut or followed by zeroes, and the status byte |
| VirtioBlk.TransferAnswered | main/hyp_virtio_blk.c:192-320 | an IN or OUT request is answered exactly when its segments are whole sectors that the card has and does not fail on |
| VirtioBlk.FlushRequest | main/hyp_virtio_blk.c:290-295 | FLUSH changes the status byte alone, whatever its segments |
| VirtioBlk.EmptyRequest | main/hyp_virtio_blk.c:290-320 | a request without data, whatever its type, changes the status byte alone |
| VirtioBlk.MovedStops | main/hyp_virtio_blk.c:192-218 | a transfer that fails stops after the whole 32 KiB pieces that the card served, at the first it does not |
| VirtioBlk.FailedRequest | main/hyp_virtio_blk.c:245-320 | a request whose first segment fails is not answered; a read has filled the segment up to there and reports all of it, a write has put that much on the card |
| VirtioBlk.ThreeDescriptors | main/hyp_virtio_blk.c:222-256 | header, data and status as their next indices link them |
| VirtioBlk.OtherKinds | main/hyp_virtio_blk.c:280-300 | GET_ID and FLUSH always succeed; an unknown type succeeds exactly when it carries no data; none of them touches the card |
| VirtioBlk.GoingOn | main/hyp_virtio_blk.c:197-216 | one turn of the bounce loop moves the next piece of the segment and nothing else |
| VirtioBlk.Server.Move | main/hyp_virtio_blk.c:201-211 | one piece goes through the bounce buffer, or nothing changes |
| VirtioBlk.Server.Transfer | main/hyp_virtio_blk.c:192-218 | the loop over bounces does what one segment means, and fails exactly when it does |
| VirtioBlk.Server.Identify | main/hyp_virtio_blk.c:280-288 | the serial and its terminator, cut or zero-padded to the buffer |
| VirtioBlk.Server.DoSegment | main/hyp_virtio_blk.c:258-300 | the switch on the request type |
| VirtioBlk.Server.DoRequest | main/hyp_virtio_blk.c:222-320 | the descriptor walk equals the request as specified: the short header, the early exit on failure, the status byte |
| VirtioBlk.ServedInOrder | main/hyp_virtio_blk.c:333-346 | the k-th used entry holds the k-th head and the length that request reported |
| VirtioBlk.HeadsAre | main/hyp_virtio_blk.c:333-335 | the heads stand in the avail ring at the 16-bit index modulo the queue size, up to avail.idx |
| VirtioBlk.Server.Service | main/hyp_virtio_blk.c:323-346 | draining the avail ring serves its requests one after another, in order, up to avail.idx, across index wrap |
| Bits.HasPut | main/hyp_plic.c:58-65 | setting or clearing a source's bit changes that bit and no other |
| Plic.PeekIsBest | main/hyp_plic.c:36-51 | the scan returns the one claimable source of highest priority above the threshold, the lowest id among equals, and 0 exactly when there is none |
| Plic.ClaimTakesOne | main/hyp_plic.c:88-95 | a claim takes the returned source out of the claimable ones and no other |
| Plic.InServiceIsSafe | main/hyp_plic.c:30-51 | a source in service is not returned again and stays in service |
| Plic.WriteKeepsService | main/hyp_plic.c:104-141 | no register write but its own completion ends the service of a source |
| Plic.CompleteUndoesClaim | main/hyp_plic.c:127-137 | writing back the claimed id ends the service of that source and of no other |
| Plic.ClaimCounts | main/hyp_plic.c:88-95 | each claim that returns a source leaves one claimable source fewer |
| Plic.Drain | main/hyp_plic.c:88-97 | reading claim until 0 returns every claimable source once, in order of priority and id, and stops after as many reads as there are |
| Plic.ReadsBack | main/hyp_plic.c:108-125 | priorities, enable bits and threshold read back as written, and a write to one changes no other |
| Plic.RegisterMap | main/hyp_plic.c:67-125 | priority of source n at 4n, pending bits at 0x1000, enable bits at 0x2000, threshold at 0x200000: each reads back as written, and together they decide what can be claimed |
| Plic.ReadsClaim | main/hyp_plic.c:67-100 | reading 0x200004 claims and gives the id; any other read changes nothing |
| Plic.OtherOffsets | main/hyp_plic.c:67-141 | every other offset reads 0 and takes no write, nor do the pending bits |
| Plic.Device.PlicPeek | main/hyp_plic.c:36-51 | the loop with a running maximum equals the scan |
| Plic.Device.PlicSetPending | main/hyp_plic.c:58-65 | exactly one pending bit changes |
| Plic.Device.PlicRead | main/hyp_plic.c:67-100 | every register read, the claim included |
| Plic.Device.PlicWrite | main/hyp_plic.c:104-141 | every register write, completion included, and whether the console's level must be asked again |
| Uart.PushAppends | main/hyp_uart.c:82-91 | the receive ring is a queue: a byte is appended, or dropped when 511 wait |
| Uart.PopTakesFirst | main/hyp_uart.c:93-101 | a read takes the oldest byte and leaves the rest in order |
| Uart.LineStatusMeans | main/hyp_uart.c:150-153 | the line status reports a byte exactly when one waits |
| Uart.LoopbackEchoes | main/hyp_uart.c:178-180 | in loopback a written byte comes back after those waiting |
| Uart.IdentifiesLevel | main/hyp_uart.c:132-145 | the identification register reports no interrupt exactly when the line is down |
| Uart.IdentifiesCause | main/hyp_uart.c:132-145 | the identification register reports received data first, then the empty transmitter, then none, and its top bits whether the FIFOs are on |
| Uart.ModemStatus | main/hyp_uart.c:154-162 | in loopback the modem inputs follow the outputs bit by bit, otherwise the line is up |
| Uart.ReadsByte | main/hyp_uart.c:123-127 | reading the data register takes the oldest byte waiting |
| Uart.ReadsBack | main/hyp_uart.c:117-218 | the latches, interrupt enable, modem control and scratch registers read back as written, and a write to one changes no other |
| Uart.LineControl | main/hyp_uart.c:117-122 | the line control register reads back, and its top bit turns the first two registers into the latches |
| Uart.AsksAgain | main/hyp_uart.c:117-218 | exactly which accesses have the line computed again, and which offsets take no write |
| Uart.QuietWrite | main/hyp_uart.c:170-218 | register writes that do not recompute the line do not move its level |
| Uart.Device.RxPush | main/hyp_uart.c:82-91 | the ring in place equals the queue operation |
| Uart.Device.RxPop | main/hyp_uart.c:93-101 | the same for taking a byte |
| Uart.Device.ReadReg | main/hyp_uart.c:117-168 | every register read, divisor latches and loopback modem status included |
| Uart.Device.WriteReg | main/hyp_uart.c:170-218 | every register write, loopback included |
| Clint.WriteCovered | main/hyp_clint.c:38-53 | after any half-word write a timer that is off has its alarm off and one that is on has the alarm at exactly its deadline, or is pending |
| Clint.SleepIsSafe | main/hyp_clint.c:63-66 | an armed timer is pending or has the hardware alarm at its deadline |
| Clint.HalvesMake | main/hyp_clint.c:84-101 | two half writes in either order set the 64-bit deadline and read back |
| Clint.TimeReads | main/hyp_clint.c:66-82 | the time and the deadline are read in two halves; the time cannot be written |
| Clint.OtherOffsets | main/hyp_clint.c:38-101 | a new deadline sets the alarm for itself unless it means never; no other offset is a register |
| Clint.AlarmMeans | main/hyp_intr.c:101-110 | the alarm goes off exactly when it is on and its target has come, and the poll then turns it off |
| BlkRegs.ConfigByte | main/hyp_virtio_blk.c:384-418 | config space is byte-addressable: one-byte reads give the bytes of the capacity |
| BlkRegs.Identity | main/hyp_virtio_blk.c:420-440 | the device identifies itself and its queue length |
| BlkRegs.OtherReads | main/hyp_virtio_blk.c:384-440 | config space starts at 0x100 and is the capacity; every other offset reads 0 |
| BlkRegs.SetupWrites | main/hyp_virtio_blk.c:446-453 | what the driver sets up is kept where it belongs; any other write changes nothing |
| BlkRegs.QueueUp | main/hyp_virtio_blk.c:446-463 | the queue works exactly when page number, size and page size are set and there is a card |
| BlkRegs.NotifyKicks | main/hyp_virtio_blk.c:465-469 | a notification sets the flag core 0 polls and nothing else |
| BlkRegs.AckClears | main/hyp_virtio_blk.c:471-476 | an acknowledgement clears the bits it names and drops the line when none is left |
| BlkRegs.StatusResets | main/hyp_virtio_blk.c:478-486 | status 0 takes the queue down, clears what is signalled and drops the line; any other is stored |
| BlkRegs.PollRaises | main/hyp_virtio_blk.c:496-503 | a completion of core 0 sets bit 0 of the interrupt status, once |
| Board.MmioFind | main/hyp_mmio.c:36-45 | the table scan finds the only window an address lies in, so the windows are disjoint and the order does not matter |
| Board.PollMeans | main/hyp_intr.c:101-132 | a poll puts the bytes that came in, but Ctrl-^, behind those waiting as long as there is room, signals a completion, services the alarm and computes the console's line last |
| Board.LanesRead | main/hyp_uart.c:220-227 | byte i of a wide console read is the register at offset + i |
| Board.LanesWritten | main/hyp_uart.c:229-234 | of a halfword stored at the console the low byte goes to the first register, the high one to the second |
| Board.PlicWriteLines | main/hyp_plic.c:127-136 | a completion of the console's source recomputes its line, so both lines stay as they must be |
| Board.InvKept | main/hyp_intr.c:101-132 | every access of any width, poll, tick and completion keeps the devices' invariant |
| Board.LinesOverRuns | main/hyp_intr.c:101-132 | from power-on, after any run: unless it is in service the console's source is pending exactly when (IER bit 0 and bytes wait) or IER bit 1; the block source is pending only with a nonzero status; an armed timer is pending or has its alarm at the deadline |
| Board.Devices.V16550Reeval | main/hyp_uart.c:110-115 | the line recomputed in place |
| Board.Devices.ReadUart | main/hyp_uart.c:220-227 | the width loop of a read, byte registers in their lanes |
| Board.Devices.WriteUart | main/hyp_uart.c:229-234 | the width loop of a write |
| Board.Devices.ReadDevice | main/hyp_mmio.c:19-25 | the read column of the device table |
| Board.Devices.WriteDevice | main/hyp_mmio.c:19-25 | the write column of the device table |
| Board.Devices.PollHostDevices | main/hyp_intr.c:101-132 | the poll in place: alarm, input bytes without the statistics key, completion flag, console line |
| Hart.MretUndoesInject | main/hyp_intr.c:52-68 | if the handler puts back mstatus and mepc, mret restores pc, gate and privilege and changes no mstatus bit but MIE, MPIE and MPP, MPP being U and MPIE 1 afterwards |
| Hart.TrapBits | main/hyp_intr.c:52-60 | mstatus after a trap, bit by bit: MPIE is the old MIE, MIE clear, MPP the old level, nothing else changed |
| Hart.ReturnBits | main/hyp_csr.c:177-190 | mstatus after mret: MIE is the old MPIE, MPIE set, MPP user mode, nothing else changed |
| Hart.MretMeans | main/hyp_csr.c:177-198 | mret goes to mepc at the level in MPP and fails exactly when mepc is 0 |
| Nesting.InvKept | main/hyp_core.c:54-122 | along any run of traps, guest steps and device events: handlers run in machine mode, the wires of mip are never stored, and the devices' lines and alarm are as they must be |
| Nesting.DevicesOverRuns | main/hyp_core.c:54-122 | at every boundary of every run of traps from power-on: unless it is in service the console's source is pending exactly when its line is up, the block source only with a nonzero status, and an armed timer is pending or has its alarm at the deadline |
| Nesting.WfiEndsInRun | main/hyp_csr.c:251-278 | a wfi anywhere in such a run, with the timer enabled and set, is answered within the latency of its deadline |
| Nesting.StillKeeps | main/hyp_core.c:115-122 | a handler with its gate shut is not interrupted by any trap it takes, and mstatus and mepc change only by the instructions that name them |
| Nesting.ReadyToLeave | main/hyp_core.c:115-122 | a handler that has mstatus as it found it and a mepc of its choice, put there in either order and by any instructions with its gate shut from the first on, may return, uninterrupted until then |
| Nesting.PutBackIsStill | main/hyp_core.c:105-122 | the trap of the csrrw that puts mstatus back, or mepc with the gate shut, injects nothing and leaves the value there |
| Nesting.HandlerReturns | main/hyp_core.c:54-122 | a handler entered by a trap, with whatever happens in it and however deep handlers nest inside it or follow it on the spot: when the run comes out of it, the guest has its level and its gate, is at the mepc of the last return, and the handlers around it are as they were; if the returns went back to where their handlers were entered from, that is the pc the trap had to go on from |
| Nesting.HandlerEntered | main/hyp_intr.c:52-87 | a trap that injects leaves in mstatus and mepc what the handler has to put back, and saves the pc the guest has to go on from |
| Nesting.TrapEnters | main/hyp_core.c:54-122 | a trap injects once or not at all, only mret moves the level of the guest it interrupts |
| Nesting.LeaveRestores | main/hyp_csr.c:177-198 | the mret of a handler that has mstatus as it found it goes to mepc with the level and the gate of where it was entered from, or is interrupted again exactly there |
| Nesting.PcFirstIsLost | main/hyp_intr.c:80-87 | why mstatus goes back first: with the gate open and an interrupt waiting, the trap that puts mepc back overwrites it |
| Nesting.AlwaysSound | main/hyp_intr.c:21-29 | along every run of traps from outside any handler, mip bits 7 and 11 are never stored and handlers run in machine mode |
| Hart.MipBits | main/hyp_intr.c:23-29 | a read of mip shows the two wires as they are now and the rest as stored |
| Hart.DeliverAgrees | main/hyp_intr.c:33-42 | the interrupt chosen is the first of 11, 3 and 7 that is set in both mip, as the guest reads it, and mie |
| Hart.StandardExactly | main/hyp_intr.c:31-87 | delivery is that of section 3.1.9 of the privileged architecture exactly when the guest is in machine mode, or its gate is open, or nothing is wanted, or it has no vector |
| Hart.UserTimerWaits | main/hyp_intr.c:31-38 | a guest in user mode with its gate shut whose timer interrupt should be taken and is not |
| Hart.LoadStore | main/hyp_csr.c:63-83 | a CSR write is read back in that CSR and changes no other |
| Hart.SlotsDistinct | main/hyp_csr.c:63-83 | different CSR numbers name different slots |
| Hart.CsrNumbers | main/hyp_csr.c:63-83 | which number is mstatus, mie, mtvec, mscratch, mepc, mcause, mtval and each pmp register |
| Architecture.Decoded | main/hyp_csr.c:280-366 | each of the six CSR instructions, by the number it names: the CSR gets the swapped, set or cleared value exactly when the instruction writes |
| Architecture.OthersKept | main/hyp_csr.c:280-366 | ... rd gets what the CSR held, and every other CSR and register, the pc and the level stay |
| Architecture.OtherCsrs | main/hyp_csr.c:280-366 | the read-only zero CSRs read as 0 and take no write; any other number is refused with nothing changed |
| Architecture.UpdatedBits | main/hyp_csr.c:313-329 | csrrs sets and csrrc clears exactly the bits set in the source, bit by bit |
| Architecture.HandlerReads | main/hyp_intr.c:61-63 | csrr of mcause, mtval and mepc in a handler gives why it was entered and where |
| Architecture.SystemEncodings | main/hyp_csr.c:287-309 | the encodings of mret and wfi |
| Architecture.AccessKinds | main/hyp_mmio.c:71-95 | which funct3 is which load or store, its width and its extension |
| Architecture.MretAnswered | main/hyp_csr.c:177-198 | the trap of an mret, its level, pc and refusal |
| Architecture.UnknownCause | main/hyp_core.c:10-52 | a trap of another cause is refused with nothing changed |
| Architecture.HostInterrupt | main/hyp_core.c:68-87 | a host interrupt polls the devices and then runs the tail |
| Architecture.ChosenMeans | main/hyp_intr.c:31-42 | the interrupt chosen: external while a source can be claimed, software while its bit is set, timer from the deadline on, each enabled in mie, in that order |
| Architecture.WfiMeans | main/hyp_csr.c:251-278 | a wfi waits exactly when the timer is enabled and set or external interrupts are enabled, and ends at the first moment one is chosen |
| Architecture.MemoryMap | main/hyp_mmio.c:19-45 | the four windows and everything outside them |
| Architecture.ConsoleAccess | main/hyp_uart.c:220-234 | a byte access of the console window reads or writes the register at that offset and leaves the other devices alone |
| Architecture.TimerAccess | main/hyp_clint.c:66-101 | a timer access reads or writes its register |
| Architecture.ControllerWrite | main/hyp_plic.c:104-141 | a write to the interrupt controller, with the console asked again after its completion |
| Architecture.BlockWrite | main/hyp_virtio_blk.c:442-491 | a write to the block device, with source 11 dropped when nothing is left signalled |
| Architecture.AdvanceLength | main/hyp_core.c:105-113 | an emulated instruction is two or four bytes long |
| Architecture.NextInstruction | main/hyp_core.c:105-113 | the guest goes on that much further |
| Decode.CsrFields | main/hyp_csr.c:287-309 | the fields taken out of a CSR instruction are the ones it encodes |
| Decode.LoadFields | main/hyp_mmio.c:58-76 | the same for loads |
| Decode.StoreFields | main/hyp_mmio.c:58-76 | the same for stores |
| Decode.ExpandLoad | main/hyp_decode.c:84-98 | c.lw expands to the lw it stands for, for every register and offset |
| Decode.ExpandStore | main/hyp_decode.c:99-101 | c.sw expands to the sw it stands for |
| Decode.OnlyAccessesExpand | main/hyp_decode.c:84-105 | nothing else is expanded |
| Decode.FetchLoad | main/hyp_decode.c:51-67 | two halfword reads put a 32-bit load together, with length 4 |
| Decode.FetchExactly | main/hyp_decode.c:122-148 | the word in memory is decoded unless its low five bits are all ones; of the compressed instructions exactly c.lw and c.sw are |
| Decode.FetchCLw | main/hyp_decode.c:122-148 | a compressed load is decoded as its expansion with length 2 |
| EmulatorProofs.CsrDecoded | main/hyp_csr.c:280-314 | every encoding of the six CSR instructions is carried out as the instruction it encodes |
| EmulatorProofs.CsrMeaning | main/hyp_csr.c:330-366 | rd gets the old value, the CSR the swapped, set or cleared one exactly when the instruction writes; no other register or CSR changes, x0 and the pc included |
| EmulatorProofs.MipMeaning | main/hyp_csr.c:316-329 | the same for mip, whose two wires are read as they are and never written |
| EmulatorProofs.LoadEmulated | main/hyp_mmio.c:47-84 | lb, lh, lw, lbu, lhu and c.lw in a device window: one device read of that width, the register extended, no other register, x0 or pc changed, and the right length |
| EmulatorProofs.StoreEmulated | main/hyp_mmio.c:86-94 | sb, sh, sw and c.sw: one device write of the register's value and no register changed |
| EmulatorProofs.SignExtendMeaning | main/hyp_mmio.c:77-81 | the signed loads keep the low part and fill the rest with its top bit |
| EmulatorProofs.NarrowLoadExact | main/hyp_mmio.c:81-84 | lbu and lhu leave the register with its upper bits clear exactly when the device answers by the byte (console, block config space) or the 32-bit register at that offset is below 2^8, 2^16 |
| EmulatorProofs.AnswerFits | main/hyp_mmio.c:19-25 | a one- or two-byte read of each device answers in that many bytes exactly then: a stored priority, enable, pending or threshold word, a claim, a timer half or a block register that is small enough, or a device that answers by the byte |
| EmulatorProofs.ConsoleFits | main/hyp_uart.c:220-227 | the console's one- and two-byte reads always fit |
| EmulatorProofs.ClaimFits | main/hyp_plic.c:88-97 | so does a claim |
| EmulatorProofs.EnableByteIsWord | main/hyp_plic.c:67-86 | a trap of lbu on the enable register with source 10 enabled: the register gets 0x400, where the byte is 0 |
| EmulatorProofs.ResumesOnce | main/hyp_core.c:54-122 | one trap resumes the guest exactly once: if it is the guest's own exception or leaves an interrupt to be taken, exactly one handler is entered with the right pc, cause and tval; otherwise the guest runs on at the right pc and nothing more changes |
| EmulatorProofs.ExceptionAnswered | main/hyp_core.c:10-52 | an ecall enters the handler with (8, 0), a breakpoint with (3, pc), an access outside the windows with its cause and address; without a vector the trap is refused |
| EmulatorProofs.InjectMeans | main/hyp_intr.c:52-68 | an injection changes mstatus, mepc, mcause, mtval, the level and the pc as a trap does, and nothing else |
| EmulatorProofs.AdvanceKeepsPc | main/hyp_core.c:105-113 | an emulated instruction leaves the pc to the caller and injects nothing |
| EmulatorProofs.ResumeMeans | main/hyp_core.c:10-52 | an answer without advance is an mret or one injected exception |
| EmulatorProofs.DeliverOnce | main/hyp_intr.c:70-87 | the tail takes an interrupt exactly when the gate is open, one is chosen and there is a vector; mcause is then 0x80000000 plus its number and mtval 0 |
| EmulatorProofs.WfiEnds | main/hyp_csr.c:251-278 | with the timer enabled and set, and a host that wakes the core within a latency of an alarm's target, the trap of a wfi is answered within that latency of the deadline, and the guest goes on after its wfi or is interrupted there |
| EmulatorProofs.StillAsleep | main/hyp_csr.c:251-272 | however many wake-ups the wait has slept through, the host alarm is on, set for exactly the deadline, and the deadline is still to come |
| EmulatorProofs.WaitEnds | main/hyp_csr.c:251-272 | whatever the alarm does, the wait ends no later than the first wake-up at or past the deadline |
| EmulatorProofs.SleepEnds | main/hyp_clint.c:38-53 | the wait loop ends by the deadline plus the latency, from the alarm alone |
| EmulatorProofs.WfiInjects | main/hyp_csr.c:265-276 | with the gate open and a vector set, the trap that slept injects what woke it, with the pc after the wfi saved |
| EmulatorProofs.TrapKeepsDevices | main/hyp_core.c:54-122 | every trap keeps the devices' invariant and the clock's order |
| Monitor.Hypervisor.Inject | main/hyp_intr.c:52-68 | the injection in place |
| Monitor.Hypervisor.Pick | main/hyp_intr.c:33-42 | the tests on wires and stored bits choose the first of 11, 3 and 7 set in mip, as the guest reads it, and in mie |
| Monitor.Hypervisor.DeliverPending | main/hyp_intr.c:80-87 | delivery in place |
| Monitor.Hypervisor.Mret | main/hyp_csr.c:177-198 | mret in place, its failure with mepc 0 included |
| Monitor.Hypervisor.DoWfi | main/hyp_csr.c:251-278 | the blocking test and the wait, in place |
| Monitor.Hypervisor.WaitLoop | main/hyp_csr.c:265-272 | the wait loop, poll by poll |
| Monitor.Hypervisor.AccessCsr | main/hyp_csr.c:313-366 | the CSR access in place, unknown CSRs refused unchanged |
| Monitor.Hypervisor.HypervisorCsr | main/hyp_csr.c:280-367 | the whole illegal-instruction handler |
| Monitor.Hypervisor.HypervisorMmio | main/hyp_mmio.c:47-95 | the whole load/store decoder |
| Monitor.Hypervisor.HypervisorTrap | main/hyp_core.c:10-52 | the dispatch on the cause |
| Monitor.Hypervisor.OnTrap | main/hyp_core.c:54-122 | the entry point, from the trap to the delivery at its tail |
| RomfsFormat.Be32RoundTrip | buildroot/board-esp32p4/mkromfs.py:134-145 | a big-endian word reads back |
| RomfsFormat.WordIsBig | buildroot/board-esp32p4/mkromfs.py:134-145 | a word is written as four bytes, big end first |
| RomfsFormat.ChecksumZeroes | buildroot/board-esp32p4/mkromfs.py:141-144 | storing the checksum makes the words sum to zero modulo 2^32 |
| RomfsFormat.HeaderFields | buildroot/board-esp32p4/mkromfs.py:134-145 | a header holds the link word, spec, size, checksum and padded name it was made from |
| RomfsFormat.HeaderReadsBack | buildroot/board-esp32p4/checkromfs.py:27-30 | the reader's header fields are the writer's |
| RomfsFormat.ExtentReadsBack | buildroot/board-esp32p4/checkromfs.py:41-44 | so are name and data, from an image that holds the extent |
| RomfsTree.ContentsMeaning | buildroot/board-esp32p4/checkromfs.py:47-68 | the map is exactly the tree: its keys are the paths that names lead to, each with the kind and content of the node there |
| RomfsTree.PathSpelled | buildroot/board-esp32p4/checkromfs.py:47-68 | a path is its names with a slash, byte 47, in front of each |
| RomfsTree.KindNumbers | buildroot/board-esp32p4/mkromfs.py:33-34 | which kind number is a directory, a link, a file |
| RomfsTree.PathsArePresent | buildroot/board-esp32p4/checkromfs.py:57-67 | no path of the tree is missing or overwritten |
| RomfsTree.NothingElseIsPresent | buildroot/board-esp32p4/checkromfs.py:57-67 | nothing else is in the map |
| RomfsTree.UnderIsUnique | buildroot/board-esp32p4/checkromfs.py:58 | slash-free sibling names keep their subtrees' paths apart |
| RomfsLayout.ChainedInOrder | buildroot/board-esp32p4/mkromfs.py:113-123 | entries placed one after another, page gaps included, are aligned, increasing and disjoint |
| RomfsLayout.PlaceRun | buildroot/board-esp32p4/mkromfs.py:113-123 | the placing loop of a directory, the data of a large executable on a page boundary |
| RomfsLayout.LinkRun | buildroot/board-esp32p4/mkromfs.py:124-125 | each entry links to the next, the last to none |
| RomfsWriter.QueueSubdirectories | buildroot/board-esp32p4/mkromfs.py:128-130 | exactly the subdirectories are queued, with their parent |
| RomfsWriter.LayoutDirectory | buildroot/board-esp32p4/mkromfs.py:107-127 | one directory: dot entries, children, gaps, links, spec at its first entry |
| RomfsWriter.DirectoryLaidOut | buildroot/board-esp32p4/mkromfs.py:107-130 | laying one directory out keeps every earlier one and the queue exact |
| RomfsWriter.DirAtKept | buildroot/board-esp32p4/mkromfs.py:107-130 | a directory already laid out is not disturbed by later ones |
| RomfsWriter.Layout | buildroot/board-esp32p4/mkromfs.py:96-131 | the breadth-first layout: the list is the root and then, directory by directory in line, the dot entries and the children; every directory is laid out, in order, each entry where the padding rule puts it |
| RomfsReader.Resolve | buildroot/board-esp32p4/checkromfs.py:33-38 | the loop over hard links |
| RomfsReader.Walk | buildroot/board-esp32p4/checkromfs.py:50-68 | the recursive walk over sibling links |
| RomfsReader.LinkIsSkipped | buildroot/board-esp32p4/checkromfs.py:54-57 | the dot entries add nothing, though they lead back up |
| RomfsReader.WalkFindsChildren | buildroot/board-esp32p4/checkromfs.py:50-68 | walking a directory of a written image finds its subtree, or fails exactly when that is nested too deep for the reader |
| RomfsReader.WalkFindsSiblings | buildroot/board-esp32p4/checkromfs.py:53-68 | following the links finds the remaining siblings and what is below them |
| RomfsImage.Emit | buildroot/board-esp32p4/mkromfs.py:134-149 | one node's header and data written in place, the rest of the buffer kept |
| RomfsImage.EmitAll | buildroot/board-esp32p4/mkromfs.py:164-165 | all nodes written without disturbing one another |
| RomfsImage.InodeRepresents | buildroot/board-esp32p4/mkromfs.py:96-149 | the bytes at a node's offset represent the node and its subtree |
| RomfsImage.WrittenOnDisk | buildroot/board-esp32p4/mkromfs.py:134-149 | every inode byte for byte: next and kind, the device number of a device and otherwise the spec, the size, the padded name, the padded data, and executables of a page or more on a page |
| RomfsImage.LayoutPacked | buildroot/board-esp32p4/mkromfs.py:96-131 | each entry stands right behind the one before, or less than a page further when its data has to start on a page; the image ends with the last |
| RomfsImage.WrittenGeometry | buildroot/board-esp32p4/mkromfs.py:96-149 | extents are 16-aligned, disjoint, increasing in emission order and inside the image; every inode header sums to zero; a directory's spec is its first entry |
| RomfsImage.SuperSummed | buildroot/board-esp32p4/mkromfs.py:167-169 | the superblock checksum makes the first min(size, 512) bytes sum to zero and disturbs nothing |
| RomfsImage.SuperChecked | buildroot/board-esp32p4/checkromfs.py:16-24 | exactly which images pass the superblock checks |
| RomfsImage.RootFound | buildroot/board-esp32p4/checkromfs.py:23-24 | the root inode stands behind the end of the volume name |
| RomfsImage.SuperReads | buildroot/board-esp32p4/checkromfs.py:16-24 | the reader's superblock checks pass and find the root inode |
| RomfsImage.RoundTrip | buildroot/board-esp32p4/checkromfs.py:16-71 | the walk of a written image ends and returns exactly the tree's map, or refuses it, exactly when more than 40 directories stand inside one another |
| RomfsImage.Build | buildroot/board-esp32p4/mkromfs.py:152-169 | the whole program: for every good tree and ASCII volume name whose image stays below 2^32, superblock and inodes are there byte for byte, breadth first and packed, and the image reads back as the tree, or is refused by the reader for a tree over 40 directories deep; it fails exactly otherwise |
| Relocations.SplitAddsUp | buildroot/board-esp32p4/mkflt.lua:416-418 | the rounded high part and the sign-extended low part add up to every value |
| Relocations.LowPartIsSmall | buildroot/board-esp32p4/mkflt.lua:489 | the low part is between -2048 and 2047 |
| Relocations.PairAddsUpI | buildroot/board-esp32p4/mkflt.lua:390-395 | what patched auipc and load, addi or jalr compute together |
| Relocations.PairAddsUpS | buildroot/board-esp32p4/mkflt.lua:390-400 | the same with a store |
| Relocations.BranchReaches | buildroot/board-esp32p4/mkflt.lua:401-407 | the 13-bit check accepts exactly the distances a branch field can hold |
| Relocations.JumpReaches | buildroot/board-esp32p4/mkflt.lua:408-414 | the 21-bit check accepts exactly the distances a jal field can hold |
| Relocations.ReadWritten | buildroot/board-esp32p4/mkflt.lua:326-335 | a word written to the image reads back |
| Relocations.LittleEndian | buildroot/board-esp32p4/mkflt.lua:326-335 | words stand in the image little end first |
| Linker.AppliedUnlessRefused | buildroot/board-esp32p4/mkflt.lua:420-548 | one relocation is refused exactly when its site leaves the image, its symbol is undefined, its kind is a refused one, its LO12 has no HI20 before it, or its branch or jal distance is outside -4096..4095 or -2^20..2^20-1 |
| Linker.AllUnlessRefused | buildroot/board-esp32p4/mkflt.lua:429-552 | the list goes through exactly when none of it is refused |
| Linker.Patcher.Apply | buildroot/board-esp32p4/mkflt.lua:446-548 | one relocation in place, and exactly when it is refused |
| Linker.Patcher.ApplyAll | buildroot/board-esp32p4/mkflt.lua:429-552 | the loop: every relocation in order, failing exactly when one is refused |
| Linker.FinalAtSite | buildroot/board-esp32p4/mkflt.lua:429-552 | a site no other relocation touches ends with its own value in place |
| Linker.BranchReachesSymbol | buildroot/board-esp32p4/mkflt.lua:506-514 | a relocated branch or jal, at any load address, reaches symbol plus addend exactly when the distance is even |
| Linker.CallReachesSymbol | buildroot/board-esp32p4/mkflt.lua:516-520 | a relocated auipc+jalr pair computes symbol plus addend at any load address, and jumps there exactly when that is even |
| Linker.TableOrigin | buildroot/board-esp32p4/mkflt.lua:466-475 | every entry of the table of high parts comes from a HI20 at that offset |
| Linker.PairReachesSymbol | buildroot/board-esp32p4/mkflt.lua:477-494 | a HI20 and the LO12 that names its label address the HI20's symbol plus addend; a jalr there jumps to it exactly when it is even |
| Linker.StoredDistance | buildroot/board-esp32p4/mkflt.lua:463-464 | a stored pc-relative word leads from its own address to the symbol plus addend |
| Linker.AbsolutePairNeedsBaseZero | buildroot/board-esp32p4/mkflt.lua:496-504 | a lui pair, with a load or with a store, reaches the loaded symbol exactly when the load address is 0 |
| Linker.AbsoluteJumpNeedsBaseZero | buildroot/board-esp32p4/mkflt.lua:496-504 | a lui+jalr pair jumps to the loaded symbol exactly when the load address is 0 and the symbol plus addend is even, an odd one needing the load address 2^32 - 1 |
| Linker.LabelDifference | buildroot/board-esp32p4/mkflt.lua:525-533 | an ADD32 and a SUB32 on one site, in either order, add to the word there the distance between the two loaded labels, at any load address |
| Linker.StoredWord | buildroot/board-esp32p4/mkflt.lua:525-533 | what ADD32, SUB32 and SET32 each leave at their site |
| Linker.InstructionKept | buildroot/board-esp32p4/mkflt.lua:390-414 | no bit outside the immediate changes |
| Linker.OtherWordsKept | buildroot/board-esp32p4/mkflt.lua:429-552 | a word no relocation touches does not change |
| LinkerLayout.Place | buildroot/board-esp32p4/mkflt.lua:265-279 | one pass places exactly the wanted sections in order, each at the first multiple of its alignment behind those before it |
| LinkerLayout.LayOut | buildroot/board-esp32p4/mkflt.lua:281-287 | both passes, contents first, each section in its exact place, and failure exactly when nothing is loadable |
| LinkerLayout.MappedDisjoint | buildroot/board-esp32p4/mkflt.lua:262-285 | no two sections overlap, and zero-filled ones come last |
| LinkerLayout.Load | buildroot/board-esp32p4/mkflt.lua:300-323 | the image holds every section's bytes and zeroes elsewhere; failure exactly on a size mismatch |
| LinkerLayout.TailIsZero | buildroot/board-esp32p4/mkflt.lua:283-301 | everything from the end of the stored sections on is zero |
| LinkerLayout.Link | buildroot/board-esp32p4/mkflt.lua:262-552 | the whole program fails exactly when no section has contents, a section has not the bytes its header says, or a relocation is refused; otherwise the image is the loaded sections with every relocation applied in order |
| Feeding.HeldExactly | tools/hypvt.py:227-237 | exactly when the last k bytes are held back, for every data |
| Feeding.HeldIsTail | tools/hypvt.py:227-237 | feed holds back exactly the beginning of the character the data ends in |
| Feeding.CleanRun | tools/hypvt.py:242-320 | from a clean start a stream none of whose bytes raises is decoded as its characters, each once |
| Feeding.AsciiRun | tools/hypvt.py:306-309 | 7-bit bytes, none of which raises, never touch the undecoded ones |
| Feeding.NothingHeld | tools/hypvt.py:236-240 | a complete character processed over a held-back beginning destroys it |
| Feeding.FeedExact | tools/hypvt.py:213-240 | one call of feed does what the bytes mean exactly when no byte raises and the data does not end inside a character or holds no complete one beyond ASCII; it raises exactly when a byte does |
| Screen.ByteRaises | tools/hypvt.py:443-527 | a byte raises exactly when it is the H, f or r of a sequence with more than two parameters, which the parser state and the byte alone decide; nothing but the parser has changed by then |
| Feeding.ThirdParameter | tools/hypvt.py:463-467 | ESC[1;2;3H, whatever follows it in the same read: the call fails and the rest of the read is lost |
| Feeding.RestIsLost | tools/hypvt.py:239-240 | after a byte that raises, whatever follows it in the read has no effect |
| Feeding.SplitAfterCharacter | tools/hypvt.py:213-240 | a concrete read for which it does not: a character is lost |
| Feeding.ByteAtATime | tools/hypvt.py:213-240 | fed one byte at a time every stream none of whose bytes raises is decoded as its characters, and every other stream fails |
| Feeding.ChunksMatch | tools/hypvt.py:213-240 | every cutting in which no read both completes a character beyond ASCII and ends inside another gives what byte by byte gives, if no byte raises; if one does, both fail |
| Feeding.ByteStepParser | tools/hypvt.py:242-261 | which state the parser is in depends on the bytes alone, never on the screen |
| Screen.ByteStep | tools/hypvt.py:242-261 | every byte in every state, whether it is taken or raises, keeps the shape of grid, cursor, region and scrollback |
| Sequences.PutMeans | tools/hypvt.py:322-343 | a character, cell by cell: it is in the cell at the cursor; every other cell is as before, or with insert mode the cells behind the cursor have moved one to the right; the cursor moves on or the wrap is pending |
| Sequences.PutWraps | tools/hypvt.py:322-343 | with the wrap pending and autowrap on it lands in the first column of the next line, or of the region's last line once that has scrolled |
| Sequences.LineFeedMeans | tools/hypvt.py:350-369 | a line feed goes down, or scrolls the region on its last line, row by row |
| Sequences.ScrollKeepsLine | tools/hypvt.py:357-369 | the line that leaves the top of the primary screen goes to the scrollback and is counted, the oldest going beyond the limit |
| Sequences.SpacesAre | tools/hypvt.py:376-378 | what counts as white space there, code point by code point |
| Sequences.TextMeans | tools/hypvt.py:376-378 | a row's text is the row up to its last character that is not white space |
| Sequences.TextMeans7 | tools/hypvt.py:294-320 | which 7-bit byte puts which character, in ASCII and in the line-drawing set |
| Sequences.Controls | tools/hypvt.py:262-296 | carriage return, line feeds, backspace and the shifts |
| Sequences.TabMeans | tools/hypvt.py:345-348 | a tab goes to the next multiple of eight or the last column |
| Sequences.Escapes | tools/hypvt.py:380-415 | what each byte after ESC does |
| Sequences.OtherEscapes | tools/hypvt.py:242-260 | character sets, ESC #, and the bytes after ESC that do nothing |
| Sequences.ReverseIndexMeans | tools/hypvt.py:402-406 | reverse index, row by row |
| Sequences.SaveRestores | tools/hypvt.py:586-599 | restoring gives back the saved cursor and character set |
| Sequences.RestoreClamps | tools/hypvt.py:590-599 | on a smaller screen the cursor is brought back onto it, and with nothing saved it goes home |
| Sequences.EnterAlternate | tools/hypvt.py:573-584 | entering and leaving the alternate screen |
| Sequences.ResetMeans | tools/hypvt.py:734-746 | a reset, cell by cell |
| Sequences.FreshMeans | tools/hypvt.py:128-172 | a new screen |
| Sequences.OscMeans | tools/hypvt.py:417-430 | an operating-system command touches nothing but the parser, and how it ends |
| Sequences.StripMeans | tools/hypvt.py:443-445 | the parameters stand behind the private marks <, =, > and ? |
| Sequences.ParmsRead | tools/hypvt.py:443-449 | numbers written in decimal between semicolons are read back; what is left out is the default |
| Sequences.SequenceRuns | tools/hypvt.py:432-451 | from the bytes: a control sequence does nothing before its last byte and then what it stands for, with its parameters as sent |
| Sequences.CursorAddress | tools/hypvt.py:463-467 | from the bytes: ESC [ row ; col H puts the cursor there, brought onto the screen |
| Sequences.Addressed | tools/hypvt.py:463-467 | H and f with one, two and more parameters |
| Sequences.Moves | tools/hypvt.py:468-479 | A, B, C, D inside the region and the line |
| Sequences.MovesLines | tools/hypvt.py:480-485 | E and F |
| Sequences.MovesTo | tools/hypvt.py:486-491 | G, ` and d |
| Sequences.ErasesPart | tools/hypvt.py:601-611 | J 0 and 1, cell by cell |
| Sequences.ErasesAll | tools/hypvt.py:612-628 | J 2 and above: a blank screen, its text in the scrollback |
| Sequences.ErasesLine | tools/hypvt.py:630-640 | K, cell by cell |
| Sequences.ErasesCells | tools/hypvt.py:514-516 | X, cell by cell |
| Sequences.ShiftsCells | tools/hypvt.py:658-669 | @ and P, cell by cell |
| Sequences.ShiftsLines | tools/hypvt.py:642-656 | L and M, row by row |
| Sequences.Scrolls | tools/hypvt.py:357-374 | S and T, row by row |
| Sequences.Repeats | tools/hypvt.py:504-513 | b: the last character again, at most a screenful |
| Sequences.SetsRegion | tools/hypvt.py:522-528 | r: the region, its defaults, what is ignored, and what raises |
| Sequences.OtherSequences | tools/hypvt.py:529-540 | s and u, and the last bytes that do nothing |
| Sequences.AnsiModes | tools/hypvt.py:547-560 | insert mode |
| Sequences.PrivateModes | tools/hypvt.py:562-571 | private modes, one after another |
| Sequences.ModesInTurn | tools/hypvt.py:562-571 | autowrap, the alternate screen, the saved cursor |
| Sequences.DecodesUtf8 | tools/hypvt.py:310-320 | every character is decoded from its UTF-8 |
| Sequences.DecodedIsUtf8 | tools/hypvt.py:310-320 | nothing else is decoded |
| Sequences.HighByte | tools/hypvt.py:310-320 | bytes beyond ASCII are kept until they are a character; four that are none are replaced |
| Sequences.BeginningsArePartial | tools/hypvt.py:227-237 | what is held back is exactly the beginning of a character |
| Screen.Put | tools/hypvt.py:322-343 | a character keeps the shape of the screen, wrap and insert mode included |
| Screen.Resize | tools/hypvt.py:181-210 | so does every resize |
| Screen.ResizeMeaning | tools/hypvt.py:181-210 | a resize keeps the cells at the top left of both buffers, blanks new ones, and keeps the scrollback |
| Screen.ResizeCursor | tools/hypvt.py:181-210 | a resize brings the cursor onto the screen and resets the region; at the same size nothing happens |
| Screen.MoveRowMeaning | tools/hypvt.py:357-374 | scrolling, inserting and deleting lines move the rows between and bring in a blank one |
| Screen.InsertCellsMeaning | tools/hypvt.py:658-662 | inserted blanks shift the rest of the line right |
| Screen.DeleteCellsMeaning | tools/hypvt.py:664-668 | deleted cells shift the rest of the line left |
| Transcript.GivesBackScreen | tools/hypvt.py:573-584 | entering the alternate screen, any bytes there, and leaving give back the screen, scrollback and count as they were |
| Transcript.AlternateIsTransparent | tools/hypvt.py:573-584 | while the alternate buffer stays active, no byte sequence changes the parked screen, the scrollback, the count or any numbered line |
| Transcript.SetModesParked | tools/hypvt.py:562-584 | a list of modes that ends on the alternate screen never left it |
| Transcript.ScrollLine | tools/hypvt.py:357-369 | one scroll of any region, line by line: from the top, lines of the region keep their number until evicted, a blank one comes in, and lines below the region move up by one number; further down, lines inside the region move down by one and the others keep theirs |
| Transcript.StableRegions | tools/hypvt.py:357-369 | a scroll keeps every surviving line's number on every screen exactly when the region is the whole screen, or one row below the top |
| Transcript.UnstableRegion | tools/hypvt.py:357-369 | for every other region, a screen on which a line changes its number |
| Transcript.ClearLine | tools/hypvt.py:612-628 | a full clear keeps every line of text, numbered by the rows with text above it |
| Transcript.ClearKeepsNumbers | tools/hypvt.py:612-628 | that is the number it had, for every line, exactly when no blank row stands above a row with text |
| Transcript.ClearRenumbers | tools/hypvt.py:612-628 | text, a blank row, text: the second line takes the blank row's number |
| Transcript.ScrollKeepsEntries | tools/hypvt.py:357-369 | a scroll of the whole primary screen shows exactly the surviving lines with their numbers; only an all-blank screen gains the blank line that left |
| Transcript.ScrollsKeepEntries | tools/hypvt.py:772-794 | the same over any number of scrolls |
| Transcript.ShownIsListed | tools/hypvt.py:772-794 | all_lines_with_ids lists exactly the lines not evicted and not trailing blank, each with its number |
| TerminalCode.HeldBack | tools/hypvt.py:227-237 | the search from the end of the data |
| TerminalCode.DepthOf | tools/hypvt.py:791-792 | the loop that drops blank rows |
| TerminalCode.Vt.DoScrollUp | tools/hypvt.py:357-369 | scrolling in place |
| TerminalCode.Vt.DoPut | tools/hypvt.py:322-343 | a character in place |
| TerminalCode.Vt.DoEraseDisplay | tools/hypvt.py:601-628 | erasing in place, cell by cell; a full clear keeps the departing lines |
| TerminalCode.Vt.DoEraseLine | tools/hypvt.py:630-640 | erasing a line in place, cell by cell |
| TerminalCode.Vt.DoAddress | tools/hypvt.py:463-467 | the cursor address, which raises on a third parameter and otherwise clamps both coordinates |
| TerminalCode.Vt.DoRegion | tools/hypvt.py:522-528 | the scrolling region, which raises on a third parameter and is otherwise taken only when it has two rows on the screen |
| TerminalCode.Vt.DoMove | tools/hypvt.py:468-491 | the cursor movements in place |
| TerminalCode.Vt.DoAltScreen | tools/hypvt.py:573-584 | entering and leaving the alternate screen in place |
| TerminalCode.Vt.DoResize | tools/hypvt.py:181-210 | resize in place |
| TerminalCode.Vt.DoDispatch | tools/hypvt.py:451-540 | every control sequence in place, by its own code; those that unpack two parameters raise on a third before they change anything |
| TerminalCode.Vt.DoByte | tools/hypvt.py:242-261 | one byte in place, and whether it raised |
| TerminalCode.Vt.DoFeed | tools/hypvt.py:213-240 | feed in place, up to the first byte that raises |
| TerminalCode.Vt.AllLinesWithIds | tools/hypvt.py:772-794 | the listing loop |
| Probes.ScanAppend | tools/hypmon.py:424-458 | resuming with the held-back bytes gives what one call on everything gives, output, held-back bytes and count |
| Probes.StreamWithoutProbes | tools/hypmon.py:424-458 | output and held-back bytes are the stream without its occurrences of the two probes, and the count is how many there were |
| Probes.OccurrencesApart | tools/hypmon.py:420-422 | no two occurrences overlap |
| Probes.CarryIsUnfinished | tools/hypmon.py:451-453 | only the beginning of a probe is ever held back |
| Probes.ProbesAre | tools/hypmon.py:420-422 | the two probes as text, and what the beginning of one is |
| Probes.Splitter.Filter | tools/hypmon.py:424-458 | the loop equals the transducer |
| Probes.Splitter.SplitProbes | tools/hypmon.py:424-458 | over any sequence of calls, what was forwarded, held back and counted is what one pass over the whole stream gives |

## Left out

- VirtioProtocol.InvKept: no weak memory ordering; the barriers of the code are taken to give sequential consistency. Driver reset and queue set-up that race core 0 are excluded, as the code has no handshake for them.
- VirtioBlk.Server.DoRequest: descriptors and rings are typed tables rather than bytes of guest memory, so data buffers that overlap the rings are not modelled, nor are the ring addresses derived from the queue's page frame number. Chains have an end, because the code's loop has no other bound, and buffers lie in guest memory, because the code checks neither.
- VirtioBlk.Server.Service: avail.idx is read once, where the code reads it again on every turn; the re-reading, interleaved with the driver, is in `VirtioProtocol`.
- VirtioBlk.Server.SdWrite: a write the card refuses leaves the card as it was; what a real card holds after a failed multi-sector write is not known.
- EmulatorProofs.WfiEnds: time is a count that only grows and is read once for each trap and each wake-up; the 52-bit wrap of the host counter and re-reading it within one trap are not modelled.
- Board.Devices.PollHostDevices: the host's receive FIFO is the sequence of bytes a poll takes out of it; the monitor's statistics key is filtered out and what it asks for is not modelled. Bytes the guest sends to the wire are dropped.
- Uart.Device.ReadReg: the receive ring is one array, changed in place; the device's other registers are a record, as are those of the timer and of the block device.
- Nesting.HandlerReturns: a handler that returns with another mstatus than the one it was entered with, as a switch to a task at another level does, is outside the runs considered.
- Monitor.Hypervisor.OnTrap: the check that the guest is running, the cache synchronisation on mret, the trace and the statistics are not modelled.
- RomfsReader.Walk: the loops of the script have no bound; the model gives them a budget of steps and returns nothing when it runs out. `RomfsImage.RoundTrip` holds for every budget from the cost of the tree up. A node is a value and its offset, spec and link are fields of a separate record for each emission.
- RomfsWriter.Layout: scanning the host's directories is not modelled; the tree is the input. `next | kind` is written as a sum, which is the same for links that are multiples of 16.
- Linker.Patcher.Apply: integers are the 32-bit ones of the board's Lua. A site outside the image is a failure, where the script would stop on a nil byte or, for stored words, extend its table.
- LinkerLayout.Link: parsing the object file, running objcopy, the symbol table and writing the flat header are not modelled; sections, their bytes and symbol addresses are the input.
- Feeding.ChunksMatch: characters beyond ASCII arrive in the ground state; malformed UTF-8 is modelled in `Feeding.DecodeByte` but nothing is claimed about how it is cut.
- Screen.ByteRaises: Python's own limit on the digits of a number (4300 by default, from 3.11 on) is not modelled; a longer parameter would raise there.
- Screen.ByteStep: cells are their characters; colours, attributes, window titles, the bell and the record of unknown sequences are not modelled.
- The flag for a pending wrap is not tied to the cursor column: several sequences move the cursor to column 0 without clearing it.
- main/hyp_sd.c, main/main.c, main/hyp_boot.c, main/hyp_vectors.S and everything under native/: foreign calls, assembly and bring-up.
- main/hyp_kbd.c: not in the build, and its ring is an easier version of the ones here.
- main/hyp_trace.c and the counters: reporting only.
- The rest of tools/hypmon.py and tools/boottime.py: user interface and serial input and output.
