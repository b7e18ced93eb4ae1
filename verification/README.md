# An RV64 full-system emulator, modelled and proved

This project models the hard core of a single-hart RV64 emulator and proves properties of it: paged memory, the VirtIO
block and entropy devices, the processor with its traps, interrupts, compressed and standard instructions, and the
interrupt controller with the serial port. Every stateful part is written twice: as functions on values, about which
the laws are proved, and as methods with loops on mutable fields, proved to compute those functions.

Machine words that are addresses or page-table entries are bounded integers; registers and CSRs are 64-bit vectors. The
two meet at the calls into paging, where a vector becomes the number it denotes.

## Parts

**Paged memory** (`Words`, `Memory`, `MemoryMeaning`, `Bus`, `PageTable`, `Mmu`, `PagingLaws`, `PagingMeaning`,
`PagingShapes`, `VirtualAccess`, `VirtualRoundTrip`, `FastPath`, `StoreOutcomes`). One walk over physical memory
specifies the three hand-copied walkers, and `PagingMeaning` says on the raw bits which accesses it accepts. The laws:
erasure of A and D bits, non-interference of translations, frame and idempotence, nesting of roots, superpage
splitting, and the round trip of stores and loads through paging, including page crossings and aliased frames, and the
outcome of every store, refused ones included.

**VirtIO** (`GuestMemory`, `BlockDevice`, `VirtioBlock`, `BlockLaws`, `RequestMeaning`, `RegisterMeaning`, `RingLaws`,
`RingProtocol`, `Batching`, and for the entropy device `EntropyDevice`, `EntropyLaws`, `EntropyMeaning`). Descriptor
chains, scatter and gather, the split virtqueue of VirtIO 1.0 sections 2.4 and 5.2 in its legacy layout. The laws: what
a notification does to disk and buffers, read off guest memory; round trip of OUT and IN through two notifications,
publication of the used ring, independence of notification batching; the ring laws also for the entropy device, the
second user of the ring.

**Processor** (`Csr`, `CsrLaws`, `CsrMeaning`, `Hart`, `Traps`, `TrapLaws`, `TrapMeaning`, `InterruptLaws`,
`InterruptNumbers`, `BitManipulation`, `Standard`, `ImmediateDecoding`, `Run`, `RunInvariant`, `StepMeaning`, `LrSc`,
`LabelLaws`, and the objects in `Cpu`, `Execution`, `StandardExecution`). One step of the main loop as a function, the
same step as a method, and what every run keeps. The laws: where a trap goes and what it records, trap entry and return
as a stack, selection against delivery of interrupts, the CSR invariant, the supervisor timer comparator, the clock,
load-reserved and store-conditional over whole runs, and which register-immediate words mean what the manual assigns.

**Instructions in integers** (`WordNumbers`, `WordBits`, `ArithmeticMeaning`, `Immediates`, `InstructionMeaning`,
`ControlMeaning`, `BitCounts`, `CarryLessBits`, `AccessMeaning`, `AtomicMeaning`, `FloatMeaning`, `SystemMeaning`,
`FetchMeaning`, `RefusedWords`). A word is the number of its bits or its two's complement; each lemma takes an
assembled word by the bits that are not its operands and states the registers, the pc and the memory after it in
integers, single bits and bytes, without the functions that compute them.

**Compressed instructions** (`Expansion`, `Compressed`, `CompressedRuns`, `CompressedMeaning`, `CompressedDecoding`,
`CompressedExecution`, `CompressedNumbers`). The expansion of chapter 16 of the unprivileged ISA, written bit by bit as
the manual lists the fields, and the emulator's own decoder proved to refine it; the effect of every form from the
single bits of its encoding. C.JR and C.JALR differ from their expansion; the exact condition is proved.

**Carry-less multiply** (`CarryLess`, `CarryLessLaws`). The three loops as windows of one product over GF(2), which
commutes; the reversed form.

**Interrupt controller and serial port** (`Plic`, `PlicLaws`, `PlicMeaning`, `Uart`, `UartMeaning`, `PanicWindow`,
`SerialLine`, `SerialInterrupt`). Arbitration and draining, the registers over whole runs, the bounded window against
the unbounded stream, the level-triggered line over whole runs, and the way from the port to the interrupt the
processor takes.

## Where the code departs from its comments or from the standard

The model follows the code. The lemmas named give the exact conditions and the inputs.

- With SIE set in S mode, supervisor-level interrupts are tested before machine-level ones (src/cpu.rs:2849-2881), and
  in U and S mode machine-level interrupts ignore MIE; `InterruptLaws.SelectIsBest`, `SupervisorBeforeMachine`.
- Bits 3, 7 and 11 of MIDELEG are writable, so a machine-level interrupt can be delegated and is then delivered through
  STVEC below M mode (src/csr.rs:435-447); `InterruptLaws.SelectionAgreesWithDelivery`, `MachineTimerDelegated`.
- C.JALR writes x1 before it reads its target and both register jumps keep bit 0 (src/cpu.rs:2697-2713):
  `CompressedRuns.RegisterJumpIff`, `JumpToOddDiffers`, `LinkThroughItselfDiffers`.
- A faulting store across pages leaves the bytes already written (src/cpu.rs:141-148): `StoreOutcomes.RefusedStore`,
  `RefusedHalfway`.
- cbo.zero leaves a reservation in place (src/cpu.rs:1093-1109): `LrSc.ExecuteReservation`,
  `ZeroBlockKeepsReservation`.
- SENVCFG is stored where no read looks (src/csr.rs:326-329): `CsrLaws.SenvcfgWriteInvisible`.
- A read request that the disk refuses still reports all its buffers as written (src/virtio.rs:391-394):
  `RingProtocol.ServeSlotLength`, `BlockLaws.RefusedReadReportsAll`.
- XORI with immediate 0x287 is taken for a zero extension, and single-bit and rotate immediates by 32 or more are taken
  for shifts, because seven bits are compared where the code has six: with bit 25 set BCLRI, BINVI and BSETI run as
  SLLI, BEXTI and RORI as SRAI (src/cpu.rs:557-678): `ImmediateDecoding.OpImmAgreesIff`, `OpImmIsBaseIff`,
  `XoriWritesZero`, `LargeClearDiffers`, `LargeRotateDiffers`. Reserved OP-IMM words are executed and not refused:
  `NeverRefused`.
- SLLI.UW by 32 or more runs as SLLIW, RORIW runs as SRAIW and is refused for the amounts 4 and 5 (src/cpu.rs:868-941):
  `ImmediateDecoding.OpImmWAgreesIff`, `WordAmountsDiffer`. ZEXT.H is refused (src/cpu.rs:944-1053):
  `ZeroExtendHalfRefused`.

## Model

| member | source | states |
|---|---|---|
| Memory.Dram.Read64 | src/dram.rs:63-71 | A doubleword read is the little-endian number in eight bytes, and fails exactly past the end. |
| Memory.Dram.Write64 | src/dram.rs:73-82 | A doubleword write replaces exactly its eight bytes, and fails exactly past the end. |
| Memory.Dram.ReadBytes | src/dram.rs:63-135 | The decoding loop computes the little-endian number of its slice. |
| Memory.Dram.WriteBytes | src/dram.rs:73-145 | The encoding loop stores the low bytes of the value, least significant first, and touches nothing else. |
| Memory.PeekPoke | src/dram.rs:63-82 | What was stored at an offset is read back there modulo its width. |
| Memory.PeekFrame | src/dram.rs:63-82 | A read that misses every written byte is unaffected. |
| Words.ToFromBytes | src/dram.rs:63-82 | Encoding what was decoded gives the bytes back. |
| BusRouting.Bus.Read64 | src/bus.rs:185-198 | Of the memories: a doubleword read goes to the boot ROM or to DRAM by address. |
| BusRouting.Bus.Write64 | src/bus.rs:301-311 | Of the memories: a doubleword write reaches DRAM only; the boot ROM and unmapped addresses refuse it. |
| BusRouting.Bus.Write8 | src/bus.rs:831-836 | Byte writes to the boot ROM and to unmapped addresses are accepted and dropped, unlike doubleword writes. |
| Mmu.TranslateSv39 | src/mmu.rs:123-244 | The Sv39 loop returns the result, and leaves the memory, of the one generic walk with three levels. |
| Mmu.TranslateSv48 | src/mmu.rs:247-369 | The Sv48 loop is the same walk with four levels. |
| Mmu.TranslateSv57 | src/mmu.rs:372-503 | The Sv57 loop is the same walk with five levels. |
| Mmu.TranslateAddress | src/mmu.rs:61-120 | Effective mode (MPRV), bare mode and walker selection compute the generic translation. |
| Mmu.UpdateAD | src/mmu.rs:206-234 | Write-back sets A, and D on a store, writes only when something changed, and fails only when the write is refused. |
| Mmu.LeafAddressSv57 | src/mmu.rs:439-466 | The five unrolled superpage cases check the alignment and form the address of the one general formula. |
| PageTable.DescendLocal | src/mmu.rs:151-240 | A descent depends only on the words it visits, and not on their A and D bits. |
| PageTable.LeafNotRevisited | src/mmu.rs:151-240 | The leaf entry of a walk is its last word and aliases no pointer visited before it, even in recursive tables. |
| PagingLaws.TranslateErasure | src/mmu.rs:61-244 | Memories that agree but for A and D bits translate every address alike and still agree that way afterwards. |
| PagingLaws.TranslationsDoNotInterfere | src/mmu.rs:61-244 | No sequence of translations, in any modes and by any roots, changes the outcome of any other translation. |
| PagingLaws.TranslateFrame | src/mmu.rs:151-244 | A refusal is the page fault of its access and changes nothing; an acceptance changes at most the last entry of its walk, by setting A and on a store D. |
| PagingLaws.TranslateIdempotent | src/mmu.rs:206-234 | Repeating an accepted translation gives the same address and writes nothing. |
| PagingLaws.StoreImpliesLoad | src/mmu.rs:172-234 | An address that can be stored to can be loaded from, at the same physical address. |
| PagingShapes.NestedRootTranslatesAlike | src/mmu.rs:247-503 | An Sv48 root whose entries 0 and 511 lead to an Sv39 root translates every Sv39 address exactly as that root does; likewise Sv48 inside Sv57. |
| PagingShapes.SuperpageSplitPreservesTranslation | src/mmu.rs:184-203 | Replacing an aligned superpage by a fresh table of its parts changes no translation result. |
| VirtualAccess.LoadVirtual | src/cpu.rs:89-119 | The fast path and the byte loop together compute the load function, with the fault tagged by the address asked for. |
| VirtualAccess.LoadByteByByte | src/cpu.rs:105-118 | The byte loop translates and reads byte by byte and assembles the value, stopping at the first fault. |
| VirtualAccess.StoreVirtual | src/cpu.rs:122-151 | The fast path and the byte loop together compute the store function, bytes already written staying written on a fault. |
| VirtualAccess.StoreByteByByte | src/cpu.rs:141-150 | The byte loop writes one translated byte after the other. |
| FastPath.FastLoadIsByteLoad | src/cpu.rs:94-119 | Within a page, translating once and reading n bytes gives the value, fault and memory of translating each byte. |
| FastPath.FastStoreIsByteStore | src/cpu.rs:127-151 | Within a page, translating once and writing n bytes equals translating and writing each byte, when the bytes miss the walk. |
| FastPath.StoreThenLoad | src/cpu.rs:89-151 | An accepted store is read back modulo its width by a load of the same address and width, across pages or not, and that load changes nothing. |
| StoreOutcomes.StoreOutcome | src/cpu.rs:122-151 | Every store: accepted if and only if every page it touches takes it; otherwise the fault of the first page that does not. Memory is the old one with the bytes before that page in place, as the translations asked for leave it. |
| StoreOutcomes.RefusedStore | src/cpu.rs:141-150 | A refused store within a page, or refused by its first page, changes A and D bits only; any other leaves exactly the bytes of the first page written, so it is as if only translated if and only if those bytes were there before. |
| StoreOutcomes.PatchedByte | src/cpu.rs:141-150 | The bytes put in place are those of the value at the addresses their own translations give, and every other byte is the old one. |
| StoreOutcomes.RefusedHalfway | src/cpu.rs:141-150 | A store that is not all-or-nothing: a two-byte store across the end of a mapped gigapage faults and leaves its first byte. |
| StoreOutcomes.WriteCommutesAll | src/mmu.rs:206-234 | Byte writes outside the walks commute with any sequence of translations. |
| VirtioBlockDevice.ReadChain | src/virtio.rs:355-374 | The chain loop returns the descriptors from the head to the first without a successor, and fails past 256. |
| VirtioBlockDevice.GatherBuffers | src/virtio.rs:521-528 | The gather loop concatenates the buffers in order. |
| VirtioBlockDevice.VirtioBlock.HandleReadRequestSg | src/virtio.rs:450-501 | IN scatters the sector bytes over the buffers in order, or answers an I/O error beyond the capacity. |
| VirtioBlockDevice.VirtioBlock.HandleWriteRequestSg | src/virtio.rs:504-546 | OUT gathers all buffers and writes the disk once, or answers an I/O error beyond the capacity. |
| VirtioBlockDevice.VirtioBlock.HandleGetIdRequest | src/virtio.rs:559-582 | The two loops write the serial number cut or zero-padded to the buffer. |
| VirtioBlockDevice.VirtioBlock.ServeOne | src/virtio.rs:350-427 | One turn of the queue loop serves one available entry, from its chain to its used element. |
| VirtioBlockDevice.VirtioBlock.ServeOutstanding | src/virtio.rs:346-427 | The loop on 16-bit wrapping indices serves exactly the outstanding requests and terminates. |
| VirtioBlockDevice.VirtioBlock.ProcessQueue | src/virtio.rs:314-447 | A notification serves what is outstanding, publishes the used index only on success, and interrupts unless suppressed. |
| VirtioBlockDevice.VirtioBlock.Write32 | src/virtio.rs:218-310 | The whole effect of a register write: feature negotiation, queue setup, acknowledgement, and reset by a zero status; the disk is untouched. |
| VirtioBlockDevice.ResetUntilConfigured | src/virtio.rs:253-310 | A zero status write at any point of any sequence of register writes restores every register, and the device then has no queue until a page number is written. |
| BlockLaws.OutEffect | src/virtio.rs:504-546 | An accepted OUT stores the gathered bytes at its sector, changes no other disk byte and never extends the disk; a refused one changes nothing; the status is 2 exactly beyond the capacity. |
| BlockLaws.OutThenIn | src/virtio.rs:450-546 | Reading back at the same sector into any disjoint segmentation of the same total length returns the byte string written. |
| BlockLaws.ProcessKeepsSize | src/virtio.rs:314-447 | A notification never changes the size of the image or of memory. |
| RingProtocol.ServeSlotFixed | src/virtio.rs:350-427 | Serving a request leaves descriptors and available ring as the driver wrote them. |
| RingProtocol.ServeSlotLength | src/virtio.rs:391-425 | The used element of a served request gives as its length, modulo 2^32, all data buffers of a read plus one, the first buffer of a serial-number query plus one, and one for anything else. |
| BlockLaws.RefusedReadReportsAll | src/virtio.rs:391-395 | A read beyond the capacity changes nothing, answers an I/O error and still reports all its buffers as written. |
| Batching.UsedRingNamesHeads | src/virtio.rs:419-425 | Entry k of the used ring names the head in entry k of the available ring, for every outstanding request, each once and in order. |
| Batching.UsedRingTellsLengths | src/virtio.rs:391-425 | Entry k of the used ring keeps, to the end of the notification, the length that request k reports when its turn comes. |
| Batching.ProcessPublishes | src/virtio.rs:314-447 | On success used.idx equals avail.idx and every head is listed once, in order, with its length; on failure used.idx keeps its value; the driver side of the ring is untouched. |
| Batching.BatchingDoesNotMatter | src/virtio.rs:314-447 | One notification for n + k requests and two, for n and then k, succeed together with the same disk, guest memory, used ring and interrupt. |
| EntropyDevice.VirtioRng.FillBuffers | src/virtio_rng.rs:323-354 | The chain loop fills every writable buffer from the source, reading each descriptor when it is reached, and cuts a chain after 64 descriptors. |
| EntropyDevice.VirtioRng.ServeOne | src/virtio_rng.rs:318-362 | One turn of the queue loop fills the chain of one available entry and writes its used element. |
| EntropyDevice.VirtioRng.ServeOutstanding | src/virtio_rng.rs:317-363 | The loop on 16-bit wrapping indices serves exactly the outstanding requests and terminates. |
| EntropyDevice.VirtioRng.ProcessQueue | src/virtio_rng.rs:286-381 | A notification serves what is outstanding, publishes the used index only on success, interrupts unless suppressed, and does nothing without a queue. |
| EntropyLaws.FillReportsDrawn | src/virtio_rng.rs:323-354 | Filling a chain leaves descriptors, available ring and indices alone, and counts exactly the bytes drawn from the source. |
| EntropyLaws.SlotReported | src/virtio_rng.rs:318-360 | The used element of a served request holds its head and the number of random bytes drawn for it, modulo 2^32. |
| EntropyLaws.UsedRingReports | src/virtio_rng.rs:317-363 | Entry k of the used ring names the head in entry k of the available ring and the number of bytes drawn for that request. |
| EntropyLaws.NotifyReports | src/virtio_rng.rs:286-381 | A notification that succeeds lists every outstanding head once, in order, with the bytes drawn for it. |
| EntropyLaws.NotifyPublishes | src/virtio_rng.rs:286-381 | On success used.idx equals avail.idx; on failure it keeps its value; avail.idx is untouched; an interrupt is raised exactly after a served and unsuppressed success. |
| EntropyLaws.NotificationsAgree | src/virtio_rng.rs:286-381 | One notification for n + k requests and two, for n and then k, succeed together with the same guest memory, the same random bytes drawn and the same interrupt. |
| CsrFile.Csr.WriteReg | src/csr.rs:368-486 | The write match updates exactly the storage of the register, masked, forced or dropped as specified. |
| CsrFile.Csr.Csrrs | src/csr.rs:496-503 | Read, then set bits unless the mask is empty. |
| CsrFile.Csr.Csrrc | src/csr.rs:506-513 | Read, then clear bits unless the mask is empty. |
| CsrFile.Csr.constructor | src/csr.rs:103-177 | The reset routine is its sequence of writes. |
| CsrLaws.WriteKeepsInv | src/csr.rs:368-486 | Every write keeps: MIP within 0x222, MIDELEG with its forced bits and width, TSELECT below 2, a supported SATP mode, SD never stored. |
| CsrLaws.ReachableInv | src/csr.rs:103-513 | After reset and any sequence of accesses the invariant holds and MIDELEG reads between 0x1444 and 0xFFFF. |
| CsrLaws.WriteFrame | src/csr.rs:263-486 | A write is seen only through registers that share its storage. |
| CsrLaws.SenvcfgWriteInvisible | src/csr.rs:326-329 | SENVCFG shows MENVCFG but is stored apart, so no write to it can ever be read. |
| CsrLaws.SstatusWrite | src/csr.rs:382-391 | An SSTATUS write changes no MSTATUS bit outside the view and reads back inside it, except the forced UXL and the derived SD. |
| CsrLaws.SieWrite | src/csr.rs:407-412 | SIE is exactly the supervisor bits of MIE. |
| CsrLaws.SipWrite | src/csr.rs:414-421 | Through SIP only SSIP can be written. |
| CsrLaws.FflagsWrite | src/csr.rs:395-400 | FFLAGS reads back and leaves FRM and the rest of FCSR alone. |
| CsrLaws.FrmWrite | src/csr.rs:401-405 | FRM reads back and leaves FFLAGS and the rest of FCSR alone. |
| Processor.Cpu.TakeTrap | src/cpu.rs:306-329 | The M-level entry leaves the processor in the state of the entry function. |
| Processor.Cpu.TakeSTrap | src/cpu.rs:280-303 | The S-level entry leaves the processor in the state of the entry function. |
| Processor.Cpu.HandleTrap | src/cpu.rs:203-277 | Delegation and privilege choose the entry; the reservation is dropped. |
| Processor.Cpu.ReturnM | src/cpu.rs:1485-1508 | MRET leaves the state of the return function. |
| Processor.Cpu.ReturnS | src/cpu.rs:1509-1527 | SRET leaves the state of the return function. |
| Processor.Cpu.CheckInterrupt | src/cpu.rs:2759-2902 | Sampling the five lines into MIP and the tests in their order choose as the selection function does. |
| TrapLaws.TakeTrapReads | src/cpu.rs:306-329 | What every CSR shows after an M-level entry: MPIE, MIE and MPP pushed, MEPC, MCAUSE and MTVAL recorded, all others as before. |
| TrapLaws.TakeSTrapReads | src/cpu.rs:280-303 | What every CSR shows after an S-level entry. |
| TrapLaws.TrapThenMret | src/cpu.rs:306-329 | MRET after an M-level entry gives back pc, mode and MIE and everything but MPIE, MPP, the three trap registers and the reservation. |
| TrapLaws.STrapThenSret | src/cpu.rs:280-303 | SRET after an S-level entry gives back pc and SIE always, and the mode exactly when it was U or S. |
| TrapLaws.MPairInvisible | src/cpu.rs:306-329 | An M-level entry and return change no register but MSTATUS, MEPC, MCAUSE and MTVAL; SSTATUS reads the same. |
| TrapLaws.ExcursionReturns | src/cpu.rs:1485-1508 | An M-level handler with any body that keeps its own stack returns to the interrupted S-level handler with its stack intact. |
| TrapLaws.NestedTrapsReturn | src/cpu.rs:280-329 | Whatever an S-level handler does in between, any number of M-level traps included, its SRET resumes the interrupted code with its SIE. |
| InterruptLaws.SelectIsBest | src/cpu.rs:2818-2901 | The interrupt chosen is the eligible one of highest rank, and none is chosen exactly when none is eligible. |
| InterruptLaws.SupervisorBeforeMachine | src/cpu.rs:2849-2881 | In S mode with SIE set a supervisor external interrupt is taken before a pending machine external one. |
| InterruptLaws.MachineTimerDelegated | src/csr.rs:435-447 | With bit 7 of MIDELEG written, a machine timer interrupt in S mode starts in S mode at the base of STVEC, and in vectored mode 28 bytes further. |
| InterruptLaws.SilentIff | src/cpu.rs:2831-2881 | Nothing can interrupt exactly in M mode with MIE clear. |
| InterruptLaws.SupervisorSilentIff | src/cpu.rs:2847-2899 | No supervisor-level interrupt can be chosen exactly in M and H mode and in S mode with SIE clear. |
| InterruptLaws.MEntrySilences | src/cpu.rs:306-329 | After an M-level entry no interrupt is chosen until MIE or the mode changes. |
| InterruptLaws.SEntrySilences | src/cpu.rs:280-303 | After an S-level entry no supervisor-level interrupt is chosen until SIE or the mode changes. |
| InterruptLaws.SelectionAgreesWithDelivery | src/cpu.rs:251-276 | A supervisor-level choice arises only in U or S mode with its delegation bit set and always starts in S mode at the pc STVEC gives; a machine-level one starts in M mode at the pc MTVEC gives exactly in M mode or undelegated. |
| InterruptLaws.SampleStores | src/cpu.rs:2775-2815 | Sampling stores SEIP and STIP as the lines are, keeps SSIP, and never stores the machine-level bits. |
| Execution.LoadRegister | src/cpu.rs:467-484 | Load, extend, write the register, advance; on a fault only memory may have changed. |
| Execution.StoreValue | src/cpu.rs:515-530 | Store, drop the reservation, advance; on a fault the reservation stays. |
| StandardExecution.ExecuteWord | src/cpu.rs:380-1782 | The opcode dispatch on the processor object has the effect of the instruction function on its value. |
| StandardExecution.ExecuteAtomic | src/cpu.rs:1131-1443 | Translation first, then LR, SC, the nine read-modify-write operations or a refusal. |
| StandardExecution.AccessCsr | src/cpu.rs:1547-1778 | One CSR access, with STIMECMP kept equal on the bus and TIME read from the timer. |
| StandardExecution.ZeroBlock | src/cpu.rs:1089-1115 | The eight-doubleword loop of cbo.zero clears the block and leaves the reservation. |
| StandardExecution.ComputeOp | src/cpu.rs:685-865 | Register operations of the base set, M, Zba, Zbb, Zbc and Zbs, with the three carry-less products computed by their loops. |
| BitManipulation.OrCombine | src/cpu.rs:638-648 | The ORC.B loop over the bytes computes the byte-wise function. |
| BitManipulation.TruncatedDivision | src/cpu.rs:725-760 | Signed division truncates toward zero: quotient and remainder recompose the dividend, the remainder has its sign and is smaller than the divisor, and only the one overflow leaves the range. |
| ImmediateDecoding.OpImmIsBaseIff | src/cpu.rs:557-678 | An OP-IMM word has its RV64I value for every operand if and only if its fields are none of the Zbb and Zbs codes the decoder looks for. |
| ImmediateDecoding.OpImmAgreesIff | src/cpu.rs:557-678 | An OP-IMM word assigned by RV64I, Zbb or Zbs has the assigned value for every operand if and only if it is not XORI 0x287 nor a single-bit or rotate immediate with bit 25 set, that is, by 32 or more. |
| ImmediateDecoding.OpImmWAgreesIff | src/cpu.rs:868-941 | An OP-IMM-32 word assigned by RV64I, Zba or Zbb has the assigned value for every operand if and only if it is not SLLI.UW by 32 or more nor RORIW by anything but 0. |
| ImmediateDecoding.XoriWritesZero | src/cpu.rs:624-633 | XORI with immediate 0x287 and operand 0 writes 0 instead of 0x287. |
| ImmediateDecoding.LargeClearDiffers | src/cpu.rs:590-607 | BCLRI by 32 on operand 1 shifts it left by 32. |
| ImmediateDecoding.LargeRotateDiffers | src/cpu.rs:654-672 | RORI by 32 on operand 1 gives 0. |
| ImmediateDecoding.WordAmountsDiffer | src/cpu.rs:873-936 | SLLI.UW by 32 and RORIW by 1 on operand 1 give 1 and 0, and RORIW by 4 is refused. |
| ImmediateDecoding.NeverRefused | src/cpu.rs:557-678 | No OP-IMM word is refused: a reserved one writes the value of what it is taken for. |
| ImmediateDecoding.ZeroExtendHalfRefused | src/cpu.rs:944-1053 | ZEXT.H in its RV64 encoding is an illegal instruction. |
| StandardExecution.FetchInstruction | src/cpu.rs:333-376 | Fetch, with the second half of a word that crosses a page translated on its own. |
| StandardExecution.StepOnce | src/cpu.rs:171-200 | One turn of the main loop on the object is one step of the value model: interrupt check, fetch, execute, trap. |
| Compressed.DecodesJump | src/cpu.rs:2558-2570 | The eleven scattered bits of a C.J offset, sign-extended by the decoder, are those of the JAL it abbreviates. |
| Compressed.DecodesBranch | src/cpu.rs:2572-2605 | The scattered branch offset of C.BEQZ and C.BNEZ is that of the branch it abbreviates. |
| Compressed.DecodesAddi16sp | src/cpu.rs:2460-2470 | The scattered immediate of C.ADDI16SP is that of the ADDI it abbreviates. |
| Compressed.DecodesAddi4spn | src/cpu.rs:2323-2336 | The scattered offset of C.ADDI4SPN is that of the ADDI it abbreviates. |
| Compressed.DecodesLui | src/cpu.rs:2471-2477 | The immediate of C.LUI is that of the LUI it abbreviates. |
| Expansion.BValue | src/cpu.rs:402-406 | The branch immediate decoded from a word is the one it was assembled from. |
| Expansion.JValue | src/cpu.rs:409-413 | The jump immediate decoded from a word is the one it was assembled from. |
| CompressedMeaning.Lw | src/cpu.rs:2356-2368 | C.LW: its expansion loads the word its own decoder addresses. |
| CompressedMeaning.Sd | src/cpu.rs:2410-2421 | C.SD: its expansion stores what its own decoder stores. |
| CompressedMeaning.Srai | src/cpu.rs:2493-2499 | C.SRAI: its expansion is not taken for a Zbb or Zbs instruction and shifts by the six bits the decoder finds. |
| CompressedMeaning.Addi16sp | src/cpu.rs:2460-2470 | C.ADDI16SP adds its scattered immediate to the stack pointer. |
| CompressedMeaning.RefusedIff | src/cpu.rs:2323-2738 | The encodings the decoder refuses are exactly those without an expansion. |
| CompressedRuns.RunSrai | src/cpu.rs:624-669 | An arithmetic right shift with a six-bit amount is told from the other instructions that share its funct3. |
| CompressedRuns.RegisterJumpIff | src/cpu.rs:2697-2713 | C.JR and C.JALR do what their expansion does exactly when the target is even, or for C.JALR through x1 when the link value is the even target. |
| CompressedRuns.JumpToOddDiffers | src/cpu.rs:2697-2700 | C.JR to an odd address keeps the low bit that its expansion drops. |
| CompressedRuns.LinkThroughItselfDiffers | src/cpu.rs:2706-2713 | C.JALR through x1 jumps to its own link value. |
| CompressedDecoding.DecoderIsExpansionIff | src/cpu.rs:2312-2745 | The decoder, written out branch by branch with its own immediates, has for every encoding the effect of the 32-bit expansion with length two, if and only if it is not a register jump with a differing target; encodings without an expansion are refused. |
| CompressedExecution.ExecuteCompressed | src/cpu.rs:2312-2745 | The hand-written decoder leaves registers, memory, CSRs, reservation and trap as the execution of the expansion does; reserved encodings trap with the instruction as value. |
| LrSc.ExecuteReservation | src/cpu.rs:1155-1180 | What each completed instruction does to the reservation: LR sets it, stores, atomics, SC, MRET and SRET clear it, all others keep it. |
| LrSc.ZeroBlockKeepsReservation | src/cpu.rs:1093-1109 | cbo.zero keeps the reservation whatever block it clears. |
| LrSc.StepReservation | src/cpu.rs:171-249 | What each step does to the reservation; interrupts, fetch faults and traps clear it. |
| LrSc.RunReservation | src/cpu.rs:63-82 | After any run from a state without a reservation, an address is reserved exactly when some step completed a load-reserved in its aligned doubleword and every later step kept the reservation. |
| LrSc.GranuleIff | src/cpu.rs:69-79 | Two addresses share a reservation exactly when they lie in the same aligned doubleword. |
| LrSc.ScOutcome | src/cpu.rs:1165-1180 | An SC that does not trap answers 0 exactly when it holds the reservation and has then written its operand at its width; otherwise memory is as its translation left it. |
| LrSc.ScSucceedsIff | src/cpu.rs:1306-1331 | Over any run: SC answers 0 exactly when some earlier step completed a load-reserved at an address a with a / 8 equal to its own and every later step kept the reservation; it then writes its operand, and a failing one changes only A and D bits. |
| LabelLaws.StepLabelIgnoresReservation | src/cpu.rs:63-82 | What a step does to the reservation is decided without looking at it. |
| RunInvariant.AccessGood | src/cpu.rs:1547-1778 | Every CSR instruction keeps the register-file invariant and the comparator equal to the STIMECMP register. |
| RunInvariant.StepGood | src/cpu.rs:171-200 | Every step keeps both. |
| RunInvariant.ReachableGood | src/cpu.rs:1547-1778 | From reset, after any run: the CSR invariant holds and the comparator on the bus equals STIMECMP. |
| RunInvariant.FallbackUnreachable | src/mmu.rs:114-119 | In no reachable state does translation meet a paging mode it does not implement. |
| CarryLess.Clmul | src/cpu.rs:829-838 | The loop returns the low 64 bits of the product over GF(2). |
| CarryLess.Clmulh | src/cpu.rs:839-848 | The loop returns bits 127 to 64 of the product. |
| CarryLess.Clmulr | src/cpu.rs:849-859 | The loop returns bits 126 to 63 of the product. |
| CarryLessLaws.ProductCommutes | src/cpu.rs:829-859 | The product, and with it all three operations, commutes. |
| CarryLessLaws.MiddleIsReversedLow | src/cpu.rs:849-859 | CLMULR is CLMUL with operands and result bit-reversed. |
| CarryLessLaws.ReverseBit | src/cpu.rs:849-859 | The reversal used to say so moves bit n to bit 63 - n. |
| PlicDevice.Plic.HasPendingInterrupt | src/plic.rs:63-99 | The nested search finds something exactly when some real interrupt is pending, enabled and above the threshold. |
| PlicDevice.Plic.FindBest | src/plic.rs:108-144 | The nested search returns the running maximum over all interrupt numbers. |
| PlicDevice.Plic.ClaimInterrupt | src/plic.rs:108-151 | A claim returns the best choice and clears its pending bit. |
| PlicDevice.Plic.Read32 | src/plic.rs:190-246 | Register reads show their contents; reading a claim register claims. |
| PlicDevice.Plic.Write32 | src/plic.rs:249-317 | The whole effect of a register write. |
| PlicDevice.BestExists | src/plic.rs:63-99 | The search finds something exactly when there is something to find. |
| PlicLaws.ClaimIsBest | src/plic.rs:108-151 | A claim is the eligible interrupt of highest priority, the lowest number among equals, and 0 exactly when the controller reports nothing pending. |
| PlicLaws.ClaimClearsOne | src/plic.rs:143-151 | A claim clears exactly the claimed pending bit and changes nothing else. |
| PlicLaws.DrainInOrder | src/plic.rs:108-151 | Repeated claims return exactly the eligible interrupts, each once, by falling priority and rising number. |
| PlicLaws.DrainEnds | src/plic.rs:108-151 | After that many claims the next one returns 0. |
| PlicLaws.WriteKeepsThreeBits | src/plic.rs:249-317 | Every register access keeps priorities and thresholds three bits wide. |
| UartDevice.Uart.Read8 | src/uart.rs:93-163 | The value and the whole effect of a register read, with the transmit-empty cause cleared by reading it. |
| UartDevice.Uart.Write8 | src/uart.rs:166-229 | The whole effect of a register write, panic window included. |
| PanicWindow.PanicIffInStream | src/uart.rs:176-190 | From reset, after any accesses, the panic flag is set exactly when a keyword occurs in everything transmitted, though the buffer is cut to its last 1025 letters. |
| PanicWindow.DetectsAlike | src/uart.rs:176-190 | Adding a letter completes a keyword in the window exactly when it completes one in the stream. |
| SerialLine.UpdateUartIrq | src/bus.rs:168-182 | The level of the line becomes pending bit 10. |
| SerialLine.InStepIff | src/bus.rs:168-182 | Over any run of accesses, claims, arriving bytes and other sources: bit 10 tells the level of the line if and only if the two have parted and met evenly since the bus last drove the one from the other. |
| SerialLine.NeverLostSince | src/bus.rs:543-551 | From a check or any other sync on, the bit tells the level until a claim of number 10, a byte that raises the line, or a change of the bit from elsewhere. |
| SerialInterrupt.Devices.ReadDevice | src/bus.rs:435-440 | A read in the windows of the port and the controller, of any width the source routes, with the line driven after it. |
| SerialInterrupt.Devices.WriteDevice | src/bus.rs:543-559 | A write in those windows, with the line driven after it. |
| SerialInterrupt.Devices.Deliver | src/main.rs:156-161 | The input thread queues a byte and raises number 10. |
| SerialInterrupt.Devices.CheckInterrupts | src/cpu.rs:2759-2902 | The whole check on the objects: sync of the line, the queries to both contexts of the controller, sampling and choice. |
| SerialInterrupt.SupervisorAsserted | src/bus.rs:902-905 | After the sync the supervisor context is asserted exactly when the port has an interrupt and is enabled above the threshold, or another source is. |
| SerialInterrupt.ExternalChosenIff | src/cpu.rs:2847-2852 | In S mode with SIE set the supervisor external interrupt is chosen exactly when enabled, delegated and its line high. |
| SerialInterrupt.SerialReachesSupervisor | src/cpu.rs:2759-2902 | From the port to the processor: a listening supervisor is interrupted exactly when the port has an interrupt and is routed, or another source has, and then starts in S mode at the base of STVEC, plus 36 when its bit 0 is set. |
| SerialLine.StatusTellsLine | src/uart.rs:105-135 | The status register shows an interrupt exactly when the line was high; reading the transmit-empty cause takes the line down. |
| SerialLine.TransmitCauseReturns | src/uart.rs:191-206 | The transmit-empty cause comes back only by a transmission or by enabling it anew. |
| MemoryMeaning.ReadsBytes | src/bus.rs:185-198 | A read answers exactly inside boot ROM or DRAM, with the number whose byte k lies k addresses further. |
| MemoryMeaning.WritesBytes | src/bus.rs:301-311 | A write inside DRAM replaces its bytes, least significant first, and no other; outside, one of eight bytes is refused and a narrower one dropped. |
| MemoryMeaning.InsidePage | src/cpu.rs:89-140 | An access inside one page is one translation and one bus access, with the page fault of the one or the access fault of the other. |
| MemoryMeaning.LoadAcross | src/cpu.rs:105-118 | A load across the end of a page is its byte loads in order, each in the memory the one before has left: byte k of the value is the k-th, and the first that faults gives the fault. |
| MemoryMeaning.StoreAcross | src/cpu.rs:141-150 | A store across the end of a page is its byte stores in order, least significant first; the first that faults gives the fault and leaves those before it. |
| PagingMeaning.TranslationIff | src/mmu.rs:61-120 | Every translation, on the raw bits: off for M privilege and SATP mode 0; modes 8, 9 and 10 accept exactly when the address is sign-extended, the path from the root exists, and the entry at its end has its frame aligned to its level, can take its A and D bits, and allows the access; the address is that frame with the low bits of the virtual address. |
| PagingMeaning.PermissionsAre | src/mmu.rs:506-566 | What an entry allows, by bit numbers: bit 4 for User, bit 4 clear or bit 18 of MSTATUS and no fetch for Supervisor, then bit 3 for a fetch, bit 1 or bits 19 and 3 for a load, bit 2 for a store. |
| PagingMeaning.SupervisorPageRefusesUser | src/mmu.rs:506-566 | No User access is accepted through an entry with bit 4 clear, and none from M mode under MPRV with MPP User: each is the page fault of its access. |
| PagingMeaning.PathIsDescent | src/mmu.rs:151-240 | A path of pointer entries that ends in a leaf, by the bits of the entries and the nine-bit groups of the address, is the walk. |
| PagingMeaning.OnePath | src/mmu.rs:151-240 | From one root an address has at most one path. |
| PagingMeaning.LeafIsMarked | src/mmu.rs:206-234 | An accepted access leaves its leaf entry with bit 6 set, with bit 7 too after a store, and otherwise as it was. |
| RequestMeaning.SlotServed | src/virtio.rs:350-427 | A slot served without failure names a request: a chain of 2 to 256 descriptors, its kind and sector in the header, its buffers and its status byte. |
| RequestMeaning.SlotDoes | src/virtio.rs:350-427 | Whatever request a slot names is done: kind 1 within capacity puts the bytes of the buffers at 512 times the sector and changes no other disk byte, kind 0 fills the buffers from there, kind 8 with the serial number, and no other kind changes disk or buffers; the status byte is 2 exactly for a transfer past the capacity, an identification without a buffer or an unknown kind, and 0 otherwise; the used element lists head and length. |
| RequestMeaning.NotificationDoes | src/virtio.rs:314-447 | A successful notification does every request between the used and the available index, in order, each in the world the previous one left, publishes the available index, and interrupts exactly when bit 0 of the flags is clear and something was outstanding. |
| RequestMeaning.WriteThenRead | src/virtio.rs:314-447 | A notification that writes and a later one that reads the same sectors, whatever happens to guest memory in between: the buffers of the read hold the bytes the buffers of the write held. |
| RequestMeaning.WalksChain | src/virtio.rs:355-374 | The chain the device follows is the path of descriptors linked by bit 0 of their flags and their next field. |
| RequestMeaning.UsedRingUnique | src/virtio.rs:329-335 | The used ring starts at the one multiple of the alignment that follows the available ring. |
| EntropyMeaning.ChainFilled | src/virtio_rng.rs:323-354 | A filled chain: of its first 64 descriptors exactly the writable ones are filled, with the next bytes of the source in order, when they are disjoint; no other byte changes, and the count is the sum of their lengths. |
| EntropyMeaning.SlotFilled | src/virtio_rng.rs:318-360 | A request that succeeds fills the chain whose head the available ring names and lists that head and the bytes drawn, modulo 2^32. |
| RegisterMeaning.QueueIsLastWritten | src/virtio.rs:218-310 | Without a reset and with queue 0 selected, page, size and alignment of the queue and the status are the values last written, whatever else is written in whatever order. |
| RegisterMeaning.AcknowledgeClears | src/virtio.rs:277-280 | Acknowledging clears exactly the interrupt flags set in the value. |
| RegisterMeaning.FeatureHalves | src/virtio.rs:225-232 | A feature word replaces exactly the half that its selector names. |
| CsrMeaning.AfterWrite | src/csr.rs:263-486 | One write seen from every register, in numerals: which registers share storage, through which masks, with which bits forced, derived or placed, and which values are refused. |
| TrapMeaning.TrapEntry | src/cpu.rs:203-329 | Trap entry, in numbers: to M mode through 0x305 from M mode or undelegated, else to S mode through 0x105; the handler starts at that register with its low two bits clear, plus four times the cause number exactly for an interrupt with bit 0 set; pc, cause and value are recorded and the status bits stacked. |
| TrapMeaning.CodeNumber | src/trap.rs:65-71 | The cause numbers, with bit 63 for an interrupt. |
| TrapMeaning.MachineReturn | src/cpu.rs:1485-1508 | MRET goes to 0x341 in the mode of bits 12 and 11 of MSTATUS; bit 3 takes bit 7, bit 7 is set, bits 12 and 11 cleared, no other bit changes. |
| TrapMeaning.SupervisorReturn | src/cpu.rs:1509-1527 | SRET goes to 0x141, to S mode exactly when bit 8 of SSTATUS is set; bit 1 takes bit 5, bit 5 is set, bit 8 cleared, no other bit changes. |
| InterruptNumbers.SelectionByNumbers | src/cpu.rs:2818-2901 | The check chooses the first number that is wanting and accepted, in the order 11, 3, 7, 9, 1, 5, with the supervisor numbers first in S mode under SIE. |
| InterruptNumbers.TimerLines | src/bus.rs:907-945 | The timer lines against their comparators as numbers, and the software line. |
| ArithmeticMeaning.LessIff | src/cpu.rs:447-455 | The signed comparison of words is that of their two's-complement integers. |
| ArithmeticMeaning.SignedIs | src/cpu.rs:447-455 | That integer is congruent to the word modulo 2^64 and lies between -2^63 and 2^63 - 1. |
| Immediates.ImmediateB | src/cpu.rs:402-406 | The branch offset is the two's complement of the thirteen bits the word scatters. |
| Immediates.ImmediateJ | src/cpu.rs:409-413 | The jump offset is the two's complement of the twenty-one bits the word scatters. |
| ControlMeaning.BranchOperations | src/cpu.rs:445-464 | The six branches by their integer comparisons: pc plus the signed offset when taken, behind the word when not, and no register changes; the two unassigned kinds are illegal. |
| ControlMeaning.Jumps | src/cpu.rs:432-442 | JAL and JALR: the link in the destination, and the target modulo 2^64, even for JALR. |
| ControlMeaning.UpperImmediates | src/cpu.rs:420-429 | LUI and AUIPC in integers. |
| ControlMeaning.ImmediateOperations | src/cpu.rs:557-623 | ADDI, SLTI, SLTIU and ADDIW in integers. |
| ControlMeaning.ImmediateShifts | src/cpu.rs:563-678 | The shifts by an immediate as products and quotients by powers of two, on 64 and on 32 bits. |
| ControlMeaning.ImmediateLogic | src/cpu.rs:624-683 | ANDI, ORI and XORI bit by bit, XORI with 0x287 apart. |
| InstructionMeaning.BaseOperations | src/cpu.rs:685-710 | ADD, SUB, SLL, SLT, SLTU, SRL and SRA in integers, from the register and pc before the word to those after it. |
| InstructionMeaning.BitwiseOperations | src/cpu.rs:685-865 | The bitwise and single-bit operations, bit by bit. |
| InstructionMeaning.BitManipulationOperations | src/cpu.rs:759-865 | Minimum and maximum in both orders, scaled sums, rotations and bit extraction in integers. |
| InstructionMeaning.Multiplications | src/cpu.rs:711-757 | The eight operations of the M extension in integers: the low or high half of the exact product, quotients rounded toward zero, and the results for divisor 0. |
| InstructionMeaning.WordOperations | src/cpu.rs:944-1053 | The operations on 32-bit words in integers, their results sign-extended. |
| InstructionMeaning.UnsignedWordOperations | src/cpu.rs:944-1053 | Sums with a zero-extended and scaled word. |
| BitCounts.CountOperations | src/cpu.rs:567-577 | CLZ, CTZ and CPOP, and their word forms: the number of clear bits above the highest one set, below the lowest one set, and of bits set. |
| BitCounts.ByteOperations | src/cpu.rs:638-652 | REV8 leaves the bytes in the opposite order; ORC.B replaces every byte but zero by 0xFF. |
| BitCounts.ExtensionOperations | src/cpu.rs:579-587 | SEXT.B and SEXT.H leave the two's complement of the lowest bits. |
| BitCounts.SingleBitImmediates | src/cpu.rs:589-607 | BCLRI, BINVI and BSETI by less than 32 change one bit and keep the others. |
| BitCounts.OtherImmediates | src/cpu.rs:654-663 | RORI, BEXTI and SLLI.UW by less than 32 in integers. |
| CarryLessBits.ProductCoefficient | src/cpu.rs:829-859 | Coefficient n of the product over GF(2) is the parity of the pairs of set bits whose positions add up to n. |
| CarryLessBits.CarryLessOperations | src/cpu.rs:829-859 | CLMUL, CLMULR and CLMULH leave these coefficients from 0, 63 and 64 on. |
| AccessMeaning.Loads | src/cpu.rs:467-484 | The seven loads: the address modulo 2^64, the number of the bytes read or its two's complement in the register, and the fault with its address. |
| AccessMeaning.Stores | src/cpu.rs:515-530 | The four stores: address, bytes written, reservation dropped; on a fault the reservation stays and the address is reported. |
| AtomicMeaning.AtomicOperations | src/cpu.rs:1183-1443 | The nine atomic operations on words and doublewords: translated as a store, the old number sign-extended in the destination, the sum, swap, bitwise result, minimum or maximum of the integers in memory; every refusal leaves only the marks of the translation. |
| AtomicMeaning.LoadReservedOperation | src/cpu.rs:1155-1164 | LR leaves the number it reads in two's complement and reserves its address. |
| FloatMeaning.FloatLoads | src/cpu.rs:487-512 | FLW and FLD by bytes: a single boxed in ones, the unit marked dirty. |
| FloatMeaning.FloatStores | src/cpu.rs:534-554 | FSW and FSD store the low four or all eight bytes. |
| FloatMeaning.FloatingOperations | src/cpu.rs:1784-1800 | Floating-point computation is illegal while bits 14 and 13 of MSTATUS are clear; otherwise the answer of the unit lands in the register it names. |
| FloatMeaning.OrderingOperations | src/cpu.rs:1056-1128 | The fences go on; CBO.ZERO translates the start of the 64-byte block as a store and zeroes exactly its bytes in DRAM; other words are illegal. |
| SystemMeaning.CsrOperations | src/cpu.rs:1547-1778 | The six CSR instructions by the bits of the word: illegal exactly for a register that does not exist, a mode below bits 29 and 28, or a write to one with bits 31 and 30 set; otherwise what was shown lands in the destination and the operand, or the shown value with its bits set or cleared, is written. |
| SystemMeaning.PrivilegedOperations | src/cpu.rs:1450-1546 | ECALL with the number of its mode, EBREAK with its own address, the two returns, the fences and waits, and all other words illegal. |
| RefusedWords.ComputationRefusedIff | src/cpu.rs:685-1053 | A register word, or an immediate one on 32 bits, is illegal exactly when its code is not in the list of assigned ones, and otherwise completes. |
| RefusedWords.GapsRefused | src/cpu.rs:415-1782 | The unassigned kinds of loads and stores and every word of an unknown opcode are illegal. |
| FetchMeaning.FetchIs | src/cpu.rs:333-376 | Fetching: an odd address is misaligned; the halfword at the address is the instruction unless its low two bits are set; then the next halfword is the upper half, from the next virtual address translated on its own exactly across the end of a page. |
| StepMeaning.StepIs | src/cpu.rs:171-249 | A step that is interrupted traps with value 0, one that cannot fetch traps with its pc, any other runs its instruction and takes its trap; then the clock advances. |
| StepMeaning.ClockOverRuns | src/cpu.rs:171-200 | No instruction, trap or interrupt moves the clock: over every run it advances by the ticks given, modulo 2^64. |
| CompressedNumbers.ImmediateForms | src/cpu.rs:2323-2480 | C.ADDI4SPN, C.ADDI, C.ADDIW, C.LI, C.ADDI16SP and C.LUI from the single bits of their encodings. |
| CompressedNumbers.ShiftForms | src/cpu.rs:2481-2616 | C.SLLI, C.SRLI and C.SRAI by all six bits of the amount. |
| CompressedNumbers.RegisterForms | src/cpu.rs:2512-2724 | C.MV, C.ADD, C.SUB, C.SUBW and C.ADDW in integers. |
| CompressedNumbers.BitwiseForms | src/cpu.rs:2500-2539 | C.ANDI, C.XOR, C.OR and C.AND bit by bit. |
| CompressedNumbers.Transfers | src/cpu.rs:2558-2605 | C.J, C.BEQZ and C.BNEZ: the offset is the weighted sum of the scattered bits. |
| CompressedNumbers.RegisterTransfers | src/cpu.rs:2697-2713 | C.JR and C.JALR: the link is written before the target is read, and bit 0 is kept. |
| CompressedNumbers.LoadForms | src/cpu.rs:2356-2667 | C.LW, C.LD, C.LWSP and C.LDSP from the single bits. |
| CompressedNumbers.StoreForms | src/cpu.rs:2395-2738 | C.SW, C.SD, C.SWSP and C.SDSP from the single bits. |
| CompressedNumbers.FloatLoadForms | src/cpu.rs:2338-2635 | C.FLD and C.FLDSP from the single bits. |
| CompressedNumbers.FloatStoreForms | src/cpu.rs:2382-2691 | C.FSD and C.FSDSP from the single bits. |
| CompressedNumbers.IllegalIff | src/cpu.rs:2323-2738 | Exactly the reserved encodings, told by their bits, are illegal. |
| PlicMeaning.ClaimByNumbers | src/plic.rs:108-151 | Reading a claim register returns the pending and enabled number above the threshold that is first by priority and then by number, 0 exactly when there is none, and clears its pending digit and nothing else. |
| PlicMeaning.LineByNumbers | src/plic.rs:63-99 | The line to a context is high exactly when some number wants to be taken there. |
| PlicMeaning.PendingWrites | src/plic.rs:262-270 | A write of a pending word clears the digits set in the value. |
| PlicMeaning.ConfigurationOverRuns | src/plic.rs:190-317 | After any accesses priorities and thresholds are the values last written, modulo 8, and the enable words the last written; claims and completions change none. |
| UartMeaning.PortOverRuns | src/uart.rs:93-229 | After any accesses: bytes are handed out in the order of arrival, each once; the other registers show what was last written; status, cause and line follow from what has arrived, been taken, sent and enabled. |
| UartMeaning.LineIs | src/uart.rs:239-254 | The line by bits 0 and 1 of the enable register. |
| UartMeaning.WindowOverRuns | src/uart.rs:166-190 | After any accesses the panic window holds the last letters transmitted, all of the first 2048 and then between 1025 and 2048, and the flag is set exactly when one of the three texts stands somewhere among all of them. |
| UartMeaning.Windows | src/bus.rs:435-440 | Exactly at 0x1000_0000 to 0x1000_00FF, and for words at 0x0C00_0000 to 0x0C5F_FFFF, does an access reach a device. |
| UartMeaning.DrivesTen | src/bus.rs:168-182 | Driving the line sets digit 10 of the pending bank to its level and keeps the others. |

## Left out

- MMIO: page walks and data accesses of the processor to device regions, the CLINT window, flash and PCI are treated as unmapped. Device registers are modelled in their own modules, the windows of the serial port and the interrupt controller in `SerialInterrupt`, and the timer registers as fields of the bus.
- BusRouting.Bus.Read64: the device windows that the source answers (src/bus.rs:200-300) are failures here.
- BusRouting.Bus.Write64: the device windows that the source accepts (src/bus.rs:313-400) are refused here.
- BusRouting.Bus.Write8: byte writes to the serial port and to flash are dropped here.
- The address of a doubleword past 2^64, and u32 and u64 overflow in the sums of the VirtIO device, are computed without wrap-around.
- Processor.Cpu.CheckInterrupt: takes the two external-interrupt answers of the interrupt controller as arguments; `SerialInterrupt.Devices.CheckInterrupts` composes it with the devices.
- StandardExecution.StepOnce: takes those answers as arguments too, and does not count instructions.
- StandardExecution.ExecuteWord: the results of floating-point arithmetic are an arbitrary input.
- Floating-point arithmetic: the results of opcode 0x53 and the fused multiply-adds, and which of their encodings are refused, are an arbitrary input; floating-point loads and stores are modelled.
- Hypervisor mode: it occurs as a value of MPP and MPRV only; there is no guest translation.
- VirtioBlockDevice.VirtioBlock.ProcessQueue: assumes a ring size and an alignment above zero once a queue is set; the host panics on a division by zero otherwise.
- Batching.BatchingDoesNotMatter: assumes that the driver keeps its side of the protocol: chains inside the table, buffers off the ring, readable index registers.
- Batching.ProcessPublishes: assumes a ring size that divides 2^16 and at most that many requests outstanding.
- FastPath.StoreThenLoad: assumes that the bytes written lie in DRAM whose size is a whole number of pages and miss the page-table words of their own walks.
- StoreOutcomes.StoreOutcome: the same assumption on where the bytes of the store lie.
- PagingShapes.SuperpageSplitPreservesTranslation: speaks of addresses whose walk does not run through the fresh table, and of tables in DRAM.
- EntropyDevice.VirtioRng.ProcessQueue: the random source is an arbitrary infinite byte stream; a length sum past 2^32 is cut only when it is written, where a debug build panics.
- EntropyLaws.NotificationsAgree: assumes the driver's side of the protocol as for the block device: chains inside the table, writable buffers off the ring, readable index registers.
- EntropyMeaning.ChainFilled: assumes the driver's side of the protocol, and speaks of chains that are filled without a failure.
- EntropyMeaning.SlotFilled: the same assumptions.
- RequestMeaning.SlotDoes: speaks of requests served without a failure of guest memory, on a disk of at least its capacity; after a failure part of the buffers may be written.
- RequestMeaning.NotificationDoes: the same; on a failure `Batching.ProcessPublishes` says what stays.
- RequestMeaning.WriteThenRead: assumes one request outstanding at each of the two notifications, and that the buffers of the read are disjoint and clear of its status byte and ring entry.
- RegisterMeaning.QueueIsLastWritten: assumes that queue 0 stays selected, the only queue the device has.
- ControlMeaning.ImmediateLogic: XORI with 0x287 is in `ImmediateDecoding.XoriWritesZero`.
- BitCounts.SingleBitImmediates: amounts from 32 on, which run as shifts, are in `ImmediateDecoding.OpImmAgreesIff`.
- BitCounts.OtherImmediates: the same for RORI and BEXTI, and for SLLI.UW in `OpImmWAgreesIff`.
- AtomicMeaning.LoadReservedOperation: which addresses share the reservation is in `LrSc.GranuleIff`.
- PlicMeaning.ClaimByNumbers: speaks of the two contexts that exist.
- The register file of the entropy device (src/virtio_rng.rs:156-281): easier than the one of the block device, which is modelled.
- VirtIO register reads, configuration space and the interrupt callback into the controller: constants and plumbing.
- UartDevice.Uart.Write8: standard output and the two debug counters are not modelled, nor is the reset of the panic flag.
- The input thread is two environment steps, a byte queued and number 10 raised, in any interleaving.
- Flash, RTC, device tree, file loading, the main program and logging.
- Error strings: a failed bus or device operation is just a failure.
- Host-level panics: indexing and arithmetic that would abort the emulator in a debug build.
