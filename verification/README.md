# Boot-time kernel logic, verified

A Dafny model of the parts of a bare-metal AArch64 kernel that carry its hard
correctness arguments, with proofs about all inputs, all trees and all runs.

- **Device tree** (`Bytes`, `DeviceTable`, `Fdt`, `FdtTree`, `TableMaps`,
  `FdtEncoding`, `FdtWriter`, `Lookup`, `ParsedTree`, `PhandleTable`). The token-driven parser
  over a byte blob, with its static tables, depth stack and phandle table, in
  the format of chapter 5 of the Devicetree Specification. The class
  `Fdt.DeviceTree` updates the tables in place and is proved equal to a
  specification function; the round trip over arbitrary trees, the invariants of
  arbitrary blobs and the exact meaning of the recorded property count are
  proved about that function.
- **Device initialisation** (`Readers`, `Compatible`, `Cells`, `Probe`, `Setup`,
  `Decoding`, `Initialisation`). Lookups by phandle and up the tree, string-list matching,
  address cells, the order of driver setups, and what the setups leave in the
  interrupt controller, end to end from the blob.
- **Interrupt controller** (`Bits`, `Gic`, `GicDriver`). GICv3 registers as
  packed fields of 32-bit words, decoded by the architecture's layout, against a
  map from interrupt to configuration.
- **Lock and receive buffer** (`RingBuffer`, `IrqMutex`). A step system of any
  number of CPUs, each with a main context and interrupt handlers, in which
  reading DAIF, masking, each compare-exchange and each buffer access are
  separate steps.
- **Exception entry and exit** (`ExceptionFrame`). An interpreter for the
  instructions of the vector code. It is what justifies the single `Eret` step
  of `IrqMutex`: the interrupted context resumes with its registers and mask.
- **Page tables** (`PageTable`, `Mair`). Descriptors OR-ed together in place,
  against an independent walk for the 4 KiB granule (section D8.3 of the Arm
  Architecture Reference Manual), composed with MAIR_EL1.

## Reading the model

- `Outcome` has three cases. `Ok` is normal completion. `Panic` is a Rust panic:
  an explicit one, an index out of bounds, or an arithmetic overflow, which the
  kernel's build (the dev profile) checks. `Fault` is a raw-pointer read outside
  the blob the parser was given; the original reads whatever lies there.
- A parent pointer is the index it points to, None for null. A value pointer is
  an offset into the blob; `FdtEncoding.Deref` follows it.
- `Forest` is a list of nodes, each with its properties before its subnodes, as
  the specification orders them. A blob may hold any such list.
- A `Gicv3` value is the pair of base addresses. `hw` is where the hardware is;
  the driver's own copy may differ, and the refinement theorems say when it
  does not matter and when it does.

## Where code and documentation differ

- src/kernel/device.rs:77 calls `prop_count` the number of valid properties. The
  parser does not save its running count across subnodes (src/kernel/dtb.rs:159,
  src/kernel/dtb.rs:195), so an interior node gets the count of the last node
  begun inside it. The model follows the code: `Lookup.CountMeaning` says what
  the count is, `Lookup.LookupMeaning` and `ParsedTree.ParsedLookup` say exactly
  which lookups still agree with the tree, and `Lookup.InteriorPropertyLost`
  gives a tree on which one does not.

## Model

| member | source | states |
|---|---|---|
| Bytes.BigEndianRoundTrip | src/utilities/convert.rs:19-24 | A value that fits in n bytes, written most significant byte first, is read back exactly. |
| Bytes.StringLengthIsFirstNul | src/kernel/dtb.rs:120-132 | The length of a name is the distance to the first NUL; there is none exactly when no NUL lies between the name and the end of the blob. |
| Bytes.ScanString | src/kernel/dtb.rs:168-174 | The byte-by-byte scan finds exactly that length. |
| Bytes.CellIsBigEndian | src/utilities/convert.rs:19-24 | A 32-bit read weighs its four bytes 2^24, 2^16, 2^8 and 1, in address order. |
| DeviceTable.TextIsCharacters | src/kernel/dtb.rs:213 | A byte string is a given text exactly when the lengths and all characters agree. |
| DeviceTable.ApplyKeepsInv | src/kernel/dtb.rs:156-235 | Every token, well placed or not, either stops the parser or keeps: parent links point to smaller indices, counts stay within the property array, phandle entries name existing devices, the stack is strictly increasing and each stacked node's parent is the entry beneath it. |
| DeviceTable.ApplyAllConcat | src/kernel/dtb.rs:153-236 | Parsing one stream and then another from the state it left is parsing their concatenation; a stop in the first is a stop of the whole. |
| Fdt.Lex | src/kernel/dtb.rs:154-184 | Whatever the bytes, reading a token consumes at least four bytes and from an aligned offset leaves an aligned offset. |
| Fdt.LoopHeadInv | src/kernel/dtb.rs:153-236 | For every blob and every number of iterations: the offset is a multiple of 4, has grown by at least 4 per iteration, and the table, stack and phandle invariant holds. |
| Fdt.ParsedTablesAreSafe | src/kernel/dtb.rs:141-238 | Whatever the blob, a parse that completes leaves backward parent links and property values (with the cell at their start) that lie inside the blob, so later reads stay inside it. |
| Fdt.ReadToken | src/kernel/dtb.rs:154-224 | The imperative token reader returns the specified token, next offset or failure for every blob and offset. |
| Fdt.WrongMagicPanics | src/kernel/dtb.rs:143-145 | A blob whose first cell is not 0xd00dfeed is refused. |
| Fdt.TokenMeaning | src/kernel/dtb.rs:154-234 | At any position and depth: token 9 ends the parse, 4 is skipped, 2 outside every node and every token other than 1, 2, 3, 4 and 9 panic. |
| Fdt.NoRoomPanics | src/kernel/dtb.rs:185-221 | A node in a full table of 256 or ten levels deep, a property outside every node, a 33rd phandle and a 17th property panic. |
| Fdt.DeviceTree.BeginNode | src/kernel/dtb.rs:157-191 | FDT_BEGIN_NODE on the arrays in place: appends a device whose parent is the stack top and pushes it, or panics when the table or the stack is full. |
| Fdt.DeviceTree.EndNode | src/kernel/dtb.rs:192-198 | FDT_END_NODE in place: stores the running property count in the node on top and pops it, or panics on an empty stack. |
| Fdt.DeviceTree.AddProperty | src/kernel/dtb.rs:199-225 | FDT_PROP in place: fills the next slot and the phandle table, with the panics of a full array or an empty stack. |
| Fdt.DeviceTree.Parse | src/kernel/dtb.rs:141-236 | The whole parser loop over the static arrays, with its offset, stack and counts, does to the tables exactly what the specification function says, including every panic and every read outside the blob. |
| FdtTree.RunForest | src/kernel/dtb.rs:153-236 | On the tokens of any tree the parser appends the tree's preorder listing and its phandles when devices, depth, slots and phandles fit, and panics exactly when they do not. |
| TableMaps.ApplyCommutes | src/kernel/dtb.rs:208-219 | A token acts the same on stored pointers as on the bytes they point to. |
| FdtEncoding.RoundTrip | src/kernel/dtb.rs:141-238 | For every tree, every flattened form of it with any FDT_NOPs and any placement of names, and any earlier table contents: if the tree fits, the parser stops just past FDT_END and the tables, with pointers followed, are the earlier ones with the tree's preorder listing appended; if not, it panics. |
| FdtWriter.WriteIsBlob | src/kernel/dtb.rs:62-73 | A writer following chapter 5 of the Devicetree Specification produces, for every addressable tree, a blob the round trip applies to. |
| FdtWriter.WriteParseRoundTrip | src/kernel/dtb.rs:141-238 | Parsing what was written from boot-time tables succeeds exactly when the tree fits, and then lists exactly the tree and its phandles. |
| Lookup.CountMeaning | src/kernel/dtb.rs:192-198 | Entry i of the listing has node i's name and slots, and as its count the number of properties of the last node, in preorder, of node i's own subtree. |
| Lookup.FindProperty | src/kernel/device.rs:93-100 | The loop returns the first of the counted slots with that name, or None if no counted slot has it. |
| Lookup.LookupMeaning | src/kernel/device.rs:93-100 | Against the tree: find_property agrees on a property exactly when its slot is below the count of the last node of the subtree, on absence unless default slots show the empty name, and always for a leaf. |
| Lookup.InteriorPropertyLost | src/kernel/dtb.rs:159-221 | A concrete two-node tree whose root property the parsed table does not show. |
| Lookup.ParentIsNearest | src/kernel/dtb.rs:160-165 | A parent link is the nearest node whose subtree contains the node, or none for an outermost node. |
| ParsedTree.ParsedLookup | src/kernel/device.rs:93-100 | On the tables parsed from any encoding of a tree, find_property returns the bytes of the node's first property of that name when its slot is below the last subtree node's count, and nothing otherwise. |
| ParsedTree.ParsedDriver | src/kernel/dtb.rs:309-341 | The driver selected for a device of an encoded tree is the first match of its node's "compatible" value, if that property is visible. |
| PhandleTable.PhandlesInPreorder | src/kernel/dtb.rs:211-218 | The tree's phandle entries are, node after node in preorder and property after property, the first cells of the properties named by the seven bytes of "phandle". |
| PhandleTable.ParsedPhandles | src/kernel/dtb.rs:211-218 | After an encoded tree is parsed the registered entries are exactly those pairs of cell and node index. |
| PhandleTable.ParsedPhandleLookup | src/kernel/dtb.rs:241-251 | On an encoded tree find_device_by_phandle returns the first node in preorder with that phandle, and None exactly when no node has it. |
| Readers.FindDeviceByPhandle | src/kernel/dtb.rs:241-251 | The loop returns the device of the first registered entry with that value, and None exactly when no registered entry has it. |
| Readers.DeviceByPhandleMeaning | src/kernel/dtb.rs:241-251 | The same of the specification function, for every valid table and value. |
| Readers.PathFollowsLinks | src/kernel/dtb.rs:259-271 | The ancestor path follows parent links through strictly decreasing indices and ends at a root. |
| Readers.FindInterruptParent | src/kernel/dtb.rs:255-274 | The walk over parent links terminates and returns what the specification of the walk says. |
| Readers.InterruptParentMeaning | src/kernel/dtb.rs:255-274 | On every parsed table the walk stays in the blob, stops at the nearest ancestor whose counted properties include "interrupt-parent", and returns the device of the first registered entry with its cell; None when no ancestor has it. |
| Readers.InterruptParentIs | src/kernel/dtb.rs:255-274 | That description determines the result. |
| Compatible.CompatibleMatches | src/kernel/dtb.rs:278-301 | For arbitrary bytes the nested loops terminate, and the result is true exactly when some maximal NUL-free segment starting inside the value equals the target. |
| Compatible.MatchesIsMembership | src/kernel/dtb.rs:276-301 | On a list of NUL-free strings, each followed by a NUL, matching is membership in the list. |
| Compatible.MatchesUnterminated | src/kernel/dtb.rs:280-300 | On arbitrary bytes, split at the NULs, the bytes after the last NUL count as a string too, unless there are none. |
| Compatible.MatchesIsIn | src/kernel/dtb.rs:276-301 | The same for a list of character strings: the target is one of them. |
| Probe.SelectDriver | src/kernel/dtb.rs:331-336 | The loop over the match table picks the first entry whose string matches. |
| Probe.DriverStrings | src/kernel/device.rs:151-164 | Which strings select which driver, and in what precedence. |
| Probe.ProbeDevice | src/kernel/dtb.rs:312-339 | Whether a device is set up in a pass, and by which driver. |
| Probe.TraceMeaning | src/kernel/dtb.rs:309-341 | The setup calls are all GIC-compatible devices in table order with the GIC driver, then all other matching devices in table order, each exactly once with its first matching driver, and no unmatched device. |
| Cells.GetParentCells | src/kernel/device.rs:104-129 | The loop returns both cell counts of the parent, with the defaults 2 and 1. |
| Cells.LastCellMeaning | src/kernel/device.rs:112-128 | On parsed tables a cell count is the cell of the last visible slot of that name, and the default exactly when there is none. |
| Cells.ParentCellsMeaning | src/kernel/device.rs:104-129 | On parsed tables the counts are the parent's last visible "#address-cells" cell, else 2, and its last visible "#size-cells" cell, else 1. |
| Cells.ReadCells | src/drivers/gic/gicv3.rs:411-413 | The shift-and-or loop computes the big-endian value of the cells modulo 2^64, for any number of cells. |
| Cells.EntryDecodes | src/drivers/gic/gicv3.rs:409-422 | An address written as any number of cells is decoded modulo 2^64. |
| Cells.AddressRoundTrip | src/drivers/uart/pl011.rs:326-333 | One- and two-cell addresses are decoded exactly. |
| Gic.LayoutIsArchitectural | src/drivers/gic/gicv3.rs:107-278 | The addresses and shifts that the driver computes are those of the architecture's layout, given in numbers. |
| Gic.SetRefines | src/drivers/gic/gicv3.rs:107-278 | Read in the architecture's layout, each setter changes the decoded configuration of its own interrupt as the abstract setting says and of no other interrupt. |
| Gic.SettingCell | src/drivers/gic/gicv3.rs:107-278 | A priority, trigger or group setter changes one register and no other. |
| Gic.EnableCell | src/drivers/gic/gicv3.rs:137-212 | With write-one-to-set ISENABLER registers, enabling sets one bit of one register and nothing else, whether the bit is written alone or read and written back. |
| Gic.SetAllRefines | src/drivers/gic/gicv3.rs:107-278 | After any sequence of setter calls over valid ids, decoding the registers gives the map obtained by applying the calls abstractly. |
| GicDriver.Driver.SetMmioBits32 | src/utilities/mmio.rs:33-39 | Read, OR, write back: one store of the old value with the bits set. |
| GicDriver.Driver.ClearMmioBits32 | src/utilities/mmio.rs:44-50 | Read, mask, write back: one store of the old value with the bits cleared. |
| GicDriver.Driver.SetPriority | src/drivers/gic/gicv3.rs:107-161 | The byte of the id in its priority register is replaced, in one read-modify-write. |
| GicDriver.Driver.SetTriggerLevel | src/drivers/gic/gicv3.rs:166-179 | The two bits of the id are cleared, which stores the level encoding. |
| GicDriver.Driver.SetTriggerEdge | src/drivers/gic/gicv3.rs:184-198 | The two bits of the id are set to the edge encoding. |
| GicDriver.Driver.SetPpiGroup | src/drivers/gic/gicv3.rs:127-132 | Sets the group bit, and fails exactly for ids from 32 up, where the shift overflows. |
| GicDriver.Driver.EnablePpi | src/drivers/gic/gicv3.rs:137-142 | Sets the enable bit, and fails exactly for ids from 32 up. |
| GicDriver.Driver.SetSpiRouting | src/drivers/gic/gicv3.rs:218-225 | Two word writes of zero at offset 0x6100 + 8 * id of the distributor. |
| GicDriver.Driver.InitGic | src/drivers/gic/gicv3.rs:285-292 | Stores the base addresses, sets the group-enable bits and clears the sleep bit of the waker register. |
| GicDriver.InitWritesAre | src/drivers/gic/gicv3.rs:85-102 | init_gic sets bits 1 and 2 of the distributor's register 0x000, clears bit 1 of the redistributor's register 0x014, in that order, and changes nothing else. |
| GicDriver.RouteKeeps | src/drivers/gic/gicv3.rs:218-225 | The routing writes touch no field of any interrupt's configuration. |
| GicDriver.SpiConfigured | src/drivers/uart/pl011.rs:352-365 | The calls for one SPI leave it, in the architecture's layout, in group 1, priority 0, enabled, with trigger bits 0b10 or 0b00, and every other interrupt unchanged. |
| GicDriver.SpiWritesAre | src/drivers/uart/pl011.rs:352-365 | The registers an SPI's setup writes, in order and in numbers: trigger, priority, group, both words of routing register 0x6100 + 8 * id with zero, enable. |
| GicDriver.PpiWritesAre | src/drivers/timer/arch_timer.rs:187-199 | The registers a PPI's setup writes, in order and in numbers. |
| GicDriver.PpiConfigured | src/drivers/timer/arch_timer.rs:187-199 | The same for the calls for one PPI. |
| Setup.Board.ReadGicBases | src/drivers/gic/gicv3.rs:405-422 | Decodes both addresses, with None for a missing "reg" and a panic when the cell counts overflow. |
| Setup.Board.ReadInfo | src/drivers/uart/pl011.rs:345-347 | The loop fills the first cells of the four-entry array and leaves zeros after them. |
| Setup.Board.ReadSpecifier | src/drivers/timer/arch_timer.rs:164-182 | The specifier, or None without "interrupts" or without an interrupt parent. |
| Setup.Board.SetupUartDevice | src/drivers/uart/pl011.rs:321-376 | The UART setup's base address, clock and GIC writes, with its panics. |
| Setup.Board.SetupTimerDevice | src/drivers/timer/arch_timer.rs:164-202 | The timer setup's GIC writes, with its panics. |
| Setup.Board.InitDevices | src/kernel/dtb.rs:309-341 | The two loops run exactly the setups of the trace, in order, and stop where one stops. |
| Decoding.GicBasesDecode | src/drivers/gic/gicv3.rs:405-422 | For all cell counts whose sum does not overflow and every "reg" of at least two entries, the bases are the first and second entry addresses modulo 2^64. |
| Decoding.GicWithoutReg | src/drivers/gic/gicv3.rs:405-425 | A GIC without a visible "reg" is left alone. |
| Decoding.GicCellsOverflow | src/drivers/gic/gicv3.rs:415 | Cell counts whose sum overflows 32 bits stop the kernel after the first address. |
| Decoding.SpecifierReadsBack | src/drivers/uart/pl011.rs:336-348 | The specifier written in "interrupts" for the interrupt parent found up the tree, with cells by its "#interrupt-cells" or three, is the one read, first or second. |
| Decoding.UartTarget | src/drivers/uart/pl011.rs:352-365 | A specifier of type 0 configures interrupt 32 + number, edge exactly when a flag bit 0 or 1 is set; an overflow stops the kernel; any other type configures nothing. |
| Decoding.TimerTarget | src/drivers/timer/arch_timer.rs:187-199 | A second specifier of type 1 configures interrupt 16 + number in the same way; a number from 16 up stops the kernel; any other type configures nothing. |
| Decoding.NoTarget | src/drivers/uart/pl011.rs:336-337 | Without a visible "interrupts" or without an interrupt parent nothing is configured. |
| Decoding.UartSetUp | src/drivers/uart/pl011.rs:321-379 | A UART setup that completes leaves as base the address that "reg" starts with, of any number of cells, modulo 2^64, and as clock the "clock-frequency" cell of the device that "clocks" names; 0 where there is none. |
| Decoding.UartAfterSetups | src/kernel/dtb.rs:327-339 | After any sequence of setups the base and clock are those of the last UART set up, or as before when there is none. |
| Initialisation.FirstPassIsTheGic | src/kernel/dtb.rs:312-324 | With one GIC device the first pass is one call, of the GIC setup. |
| Initialisation.WritesUseDecodedBases | src/kernel/dtb.rs:312-339 | With one GIC whose "reg" is visible, every GIC register write of the UART and timer setups is in the frames of the decoded base addresses, wherever the hardware is. |
| Initialisation.InitConfigures | src/kernel/dtb.rs:309-341 | When the decoded addresses are the hardware's and ids are valid, an interrupt reached by a setup ends in group 1, priority 0, enabled, with the trigger of the last such setup; every other keeps its configuration. |
| Initialisation.ConfiguredMeaning | src/kernel/dtb.rs:327-339 | Folding the setup calls over one interrupt gives what the last call that targets it says, or the old value when none does. |
| Initialisation.ParseDtb | src/kernel/dtb.rs:141-238 | parse_dtb with its call of init_devices: tables parsed from the blob, all setups run in trace order, every promise above about the UART's base and clock, the writes and the final configurations. |
| RingBuffer.Occupancy | src/drivers/uart/pl011.rs:62-87 | The full test holds exactly at 255 bytes, the empty test exactly at none, and the slot at the tail is the oldest byte. |
| RingBuffer.AdvanceHead | src/drivers/uart/pl011.rs:62-73 | Moving the head over the written slot appends that byte. |
| RingBuffer.AdvanceTail | src/drivers/uart/pl011.rs:75-87 | Moving the tail removes the oldest byte. |
| RingBuffer.UartBuffer.Push | src/drivers/uart/pl011.rs:62-73 | Appends the byte, refusing exactly when 255 bytes are held and then changing nothing. |
| RingBuffer.UartBuffer.Pop | src/drivers/uart/pl011.rs:75-87 | Returns and removes the oldest byte, None exactly when there is none. |
| IrqMutex.StepKeepsInv | src/ipc/irq_safe_mutex.rs:72-91 | Every step of every context on every CPU, and every interrupt entry and return, keeps the lock, mask and buffer invariant. |
| IrqMutex.RunsAreSafe | src/ipc/irq_safe_mutex.rs:72-91 | In every run of any number of CPUs at most one context is in the critical section, it is the running context of its CPU, a spinning context's holder is running on a different CPU, at most one handler is stacked per CPU, and the log of operations is one of a FIFO of at most 255 bytes whose contents are the buffer's. |
| IrqMutex.CompareExchangeMeaning | src/ipc/irq_safe_mutex.rs:73-79 | On a free lock the compare-exchange takes it, makes the context critical and changes nothing else; on a taken lock it changes nothing. |
| IrqMutex.BodyMeaning | src/drivers/uart/pl011.rs:62-87 | Every step in the closure is enabled until the result is there, touches only its own context and the buffer, and logs the operation with its result exactly once. |
| IrqMutex.CallCompletes | src/ipc/irq_safe_mutex.rs:86-91 | From every reachable state with the lock free, a CPU with an idle top context can, by its own steps alone, complete a call with any operation: it is logged once, the call returns the result that the 255-byte FIFO gives, the buffer holds what the FIFO then holds, and locks, masks and contexts are as before. |
| IrqMutex.SpinnerCanProceed | src/ipc/irq_safe_mutex.rs:72-79 | No deadlock: from every reachable state a trying context gets the lock after steps of its own and of the holder's CPU. |
| IrqMutex.InterruptReturns | src/asm/vectors.S:41-44 | An interrupt is taken exactly where IRQs are unmasked, with everything masked in the handler, and returning restores the interrupted context and its mask. |
| IrqMutex.SpinnerWaitsForAnotherCpu | src/ipc/irq_safe_mutex.rs:72-79 | In every run, a context whose compare-exchange fails waits for the running context of another CPU. |
| IrqMutex.SingleCpuNeverSpins | src/ipc/irq_safe_mutex.rs:72-79 | On one CPU the compare-exchange never fails. |
| IrqMutex.CallReturnsWithCallersMask | src/ipc/irq_safe_mutex.rs:14-31 | Whatever happens in between, including an interrupt between reading DAIF and masking, a lock_irqsafe call returns with the DAIF value its caller had. |
| IrqMutex.HolderAdvances | src/ipc/irq_safe_mutex.rs:80-82 | The holder cannot be interrupted, is never blocked, and each of its steps brings it closer to the unlock. |
| IrqMutex.LockIsHeldBriefly | src/ipc/irq_safe_mutex.rs:72-83 | However the CPUs interleave, the lock is held for at most four further steps of its holder's CPU. |
| IrqMutex.AcceptedIsPoppedThenHeld | src/drivers/uart/pl011.rs:62-87 | In every FIFO log the accepted bytes are the popped bytes followed by the bytes held. |
| IrqMutex.FifoInEveryRun | src/kernel/irq.rs:199-206 | In every run mixing pushes and pops on any CPUs and in any contexts, the accepted bytes are the popped bytes followed by the buffer's contents. |
| ExceptionFrame.PushesBuildFrame | include/asm/macro.h:11-27 | A sequence of pair pushes builds the frame that the reversed pairs describe and leaves registers and memory above it alone. |
| ExceptionFrame.PopsRestoreFrame | include/asm/macro.h:31-66 | A sequence of pair pops loads every listed register from such a frame, discarding what is loaded into the zero register. |
| ExceptionFrame.EnterSaves | src/asm/vectors.S:100-110 | Entry leaves the whole frame of registers, ESR, ELR and SPSR 288 bytes below the interrupted stack pointer. |
| ExceptionFrame.FrameLayout | src/asm/vectors.S:100-110 | Where each register lies in the frame, in numbers. |
| ExceptionFrame.IrqReturnsIdentity | src/asm/vectors.S:84-98 | For every register file, memory and handler that returns with its stack pointer and the memory above it intact, the IRQ path restores x0-x30, SP, ELR_EL1 and SPSR_EL1. |
| ExceptionFrame.SyscallReturnsResult | src/asm/vectors.S:61-82 | The syscall path restores all of them except x0, which is the handler's result. |
| ExceptionFrame.SyscallNumberIsX8 | src/asm/vectors.S:67-68 | The word at offset 104 of the frame is the caller's x8. |
| PageTable.TableBitsOver | src/kernel/mm/identity.rs:33-39 | The level 0 entry, OR-ed into without being cleared, ends as the table descriptor exactly when it had no other bit before. |
| PageTable.BuildEntry | src/kernel/mm/identity.rs:45-65 | One iteration: the entry, whatever it held, becomes the block descriptor for its GiB. |
| PageTable.SetupIdentityMapping | src/kernel/mm/identity.rs:29-69 | The loop builds max(2, pages) entries in place and changes no other entry. |
| PageTable.BlockWalk | src/kernel/mm/pgtable.rs:16-54 | All OR-ed fields are disjoint: the level 1 walk reads back the address and every attribute. |
| PageTable.IdentityTranslation | src/kernel/mm/identity.rs:29-69 | The independent two-level walk maps every address below n GiB to itself with the access flag set, whatever the other entries held, and with zeroed tables faults on every other 48-bit address. |
| Mair.SystemRegister.SetupMairRanges | src/kernel/mm/mair.rs:24-31 | The three read-OR-write updates of MAIR_EL1. |
| Mair.SlotsConfigured | src/kernel/mm/mair.rs:9-31 | Slot 2 is always write-back; slots 0 and 1 are right exactly when they had no other bit set before; the other slots are unchanged. |
| Mair.EffectiveUse | src/kernel/mm/identity.rs:35-65 | Every mapped address below 1 GiB is Device-nGnRnE and never executable, every other mapped address is inner-shareable write-back memory executable at EL1 only, and EL0 can neither access nor execute anything. |

## Left out

- Printing, panic output, `UartWriter`, `putchar` and the UART's `configure`: device output and polling on status bits.
- `unimplemented_sync` and the `Regs` dump of src/kernel/irq.rs: diagnostics; the pushed frame does not follow the field order of `Regs`, so the frame model is based on the assembly alone.
- The exception-class test of `sync_handler` (src/asm/vectors.S:63-66): both outcomes join the same exit path, and `ExceptionFrame.SyscallReturnsResult` holds for either handler.
- `set_spi_routing` against the architecture's numbering of IROUTER: base 0x6100 is indexed by the full id, so the model claims only where the writes go and that they touch no modelled field.
- Redistributor wake polling, barriers, TLB maintenance, TCR_EL1 and SCTLR_EL1, PMR and IGRPEN1: hardware behaviour that this code does not decide.
- Weak memory: the lock is modelled with sequentially consistent steps.
- Timer arithmetic and the baud divisor: single formulas.
- The linker script and build: the page alignment of the level 1 table is a precondition (`PageTable.PageAddress`), and so is that at most 512 GiB are mapped.
- The size computation at src/kernel/mm/identity.rs:24-29: its result `pages` is a parameter.
- Wrap-around of 64-bit machine addresses: offsets into the blob are unbounded naturals, and device register addresses are pairs of a 64 KiB frame base and an offset.
- Contents of memory outside the blob: a read there ends the model's run as `Fault`, where the original goes on with whatever it finds.
- The state after a panic or a fault: the kernel does not continue, so nothing is stated about it.
- Initialisation.ParseDtb: says what holds when the kernel gets through; it does not characterise the blobs on which a setup panics or reads past a short value.
- FdtEncoding.RoundTrip: a property named "phandle" is taken to have at least four bytes, as the specification requires; the parser reads four bytes whatever its length says, and would read the padding or the next token.
- Initialisation.InitConfigures: interrupt ids from 1020 up, which the architecture does not have as SPIs, are excluded; the setters do not check them and would reach other registers.
- GicDriver.Driver.SetPriority: `set_ppi_priority` and `set_spi_priority` are one method with the frame as a parameter; so are the two level and the two edge setters.
- Gic.SetAllRefines: the distributor and the redistributor's SGI frame are taken to be different frames, and enable bits only ever get set, as no setter clears one.
- IrqMutex.LockIsHeldBriefly: bounds how long the lock is held; with several CPUs contending, which of them gets the lock next is not decided by the code and no fairness is claimed.
- GicDriver.Driver.SetSpiRouting: the 64-bit store to a routing register is two 32-bit stores in the model.
- The UART RX interrupt's register read and acknowledge (src/kernel/irq.rs:200-205): the byte pushed is a parameter of the step.
