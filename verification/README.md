# friscy, modelled and verified in Dafny

friscy runs 64-bit RISC-V Linux programs in a browser. This project models its four hard parts and proves what they keep:

- **The rv2wasm compiler.** A code section is swept into instructions, cut into basic blocks, grouped into functions, and each block becomes a WebAssembly function body. A dispatch loop maps a pc to a block. The source semantics is the RISC-V Unprivileged ISA 20191213 (chapters 2, 5, 7 and 16). The target semantics is section 4.4 of the WebAssembly Core Specification 1.0. Machine words are integers with wrap-around written out.
- **Process emulation.** Up to eight threads share one CPU by saved contexts. Fork is a snapshot and a rollback. mmap, brk and execve share one arena.
- **The file system and the initial stack.** A file tree is saved to and loaded from a ustar archive with GNU LongLink names. Paths are resolved in two ways. Directories are listed in pages. The process stack is encoded for the dynamic linker.
- **The worker protocols.** The worker and the main thread exchange requests and responses through shared memory, and the worker's output goes through a lock-free ring. Both are modelled one memory access at a time.

Files that belong together: `Words`, `Memory`, `Wasm`, `RiscV`, `Opcodes`, `Arithmetic`, `Manual` (machine words and the two semantics); `Translate`, `Numerics`, `TranslateProof`, `Terminators` (blocks); `Cfg`, `Fetch`, `Functions` (control flow graph); `Dispatch`, `DispatchProof`, `DispatchLoop` (dispatch); `Optimize`, `Sections`, `Overlap`, `Compile`, `Isa`, `Runs`, `Program`, `Spin`, `Counter`, `Hop` (whole programs); `Paths`, `Tree`, `Octal`, `TarHeader`, `Tar`, `TarProof`, `Ustar`, `RoundTrip`, `Kept`, `Resolve`, `Getdents` (file system); `Sched`, `Kernel`, `SchedProof`, `SchedRefine`, `SchedRuns`, `SchedCalls` (threads); `Ram`, `Fork`, `AddressSpace`, `InitialStack`, `InitialStackProof` (process memory); `NetRpc`, `NetRpcProof`, `NetRpcCall` (RPC); `StdoutRing` (output).

`dafny verify dfyconfig.toml` checks everything.

## What holds and what does not

Some intended properties are false of the code. Each has its exact condition:

- A translated instruction has RISC-V's effect if and only if it is `Faithful`: division does not meet the operands on which Wasm traps, and a high multiply, which is emitted as the constant 0, has a product between 0 and 2^64 - 1.
- A block returns RISC-V's next pc if and only if `NextPcCondition` holds. No conditional branch between even addresses other than 0 modulo 2^32 meets it, because `select` takes the fall-through address as its condition. JALR whose link register is also its base meets it if and only if that register already held the link address, modulo 2^32 and up to the bit that is cleared. C.JR meets it for even addresses.
- The branch table picks the same block as the chain of tests if and only if the pc is not strictly inside a block's slot.
- The dense dispatch loop calls every block if and only if block k starts in the k-th word. Its guard admits other layouts.
- `nanosleep` records its result if and only if it does not switch threads.
- Over any run of mmap, brk and execve the ranges mmap gives out, each as long as it was asked for, are inside the arena, on pages and disjoint if and only if no served request runs past the last page of the 64-bit address space: a single one that does is longer than the arena. Lengths below 2^63 never do. A request for 2^64 - 1 bytes is served with nothing.
- The regions execve lays out (program, interpreter, break window, stack) are disjoint and below the mappings to come if and only if there is room for the stack and the addresses of program and interpreter are clear of it, of the window and of each other (`LayoutExact`). A program that can be moved is, when the stack fits and it does not reach the interpreter. The break follows the end the program would have at 0x40000, or the interpreter's if that is higher, so a static program that cannot be moved is clear when it is linked at or below 0x40000, and one linked at 0x400000 lies in its own break window. After a static first program the fallback place of the stack wraps to the top of the address space, and an interpreter is loaded at its own addresses.
- A fork leaves a snapshot behind in the parent if and only if it throws, because the stack pointer is above the stack top, after saving a region.
- A directory listing, read in pages of any sizes, decodes to the names it was written from if and only if those have no NUL and their record lengths are below 65536. A name of 65516 bytes hides itself and the rest of its page.
- The record of a file in an archive reads back as that file if and only if it fits: no socket, no link target over 100 bytes or with a NUL, no number wider than its octal field, no size other than its content's.
- Several code sections are joined before blocks are cut, and a later block replaces an earlier one with its start. The map of blocks is that of the sections one by one, later ones winning, if and only if every section that does not start on a boundary goes on with a block whose start is an address from there on (`SectionsExact`). For sections without a common address that is: if and only if each starts on a boundary. A `.text` section that is a slice of its segment changes no block if and only if it reaches the segment's end and a block starts in it, or blocks start at both its ends. Otherwise a block can lose its return.
- A saved tree comes back as what the archive keeps of it, and unchanged if and only if every entry fits its record. A directory named "." at the root is skipped.
- The initial stack is laid out as intended if and only if strings and tables fit below the stack top.
- A network read keeps the byte stream if and only if it takes at most 65472 bytes.
- A write to the output ring is complete if and only if it fits when the writer looks at the tail.

Where a comment and the code disagree the model follows the code. `is_terminator` does not list C.EBREAK although `compute_successors` does. The comment on the large-hint rule of mmap says 4 MB and the code tests 32 MB.

## Model

| member | source | states |
|---|---|---|
| TranslateProof.InstructionCorrect | aot/src/translate.rs:339-881 | For every integer instruction, running its code leaves exactly RISC-V's registers and RAM, an unchanged operand stack and a zero x0 slot, if and only if the instruction is Faithful in that state |
| TranslateProof.RegRegCorrect | aot/src/translate.rs:339-790 | Register and word register operations: agreement with the ISA, or a trap exactly on the operands where Wasm division traps |
| TranslateProof.MulHighCorrect | aot/src/translate.rs:1639-1663 | The high-multiply family agrees with the ISA if and only if the exact product lies between 0 and 2^64 - 1 or the destination is x0 |
| Numerics.HighZeroExact | aot/src/translate.rs:1639-1663 | A high product is 0 if and only if the exact product, signed as the opcode says, lies between 0 and 2^64 - 1 |
| TranslateProof.ImmCorrect | aot/src/translate.rs:465-564 | Immediate operations, including shifts and the word forms, agree with the ISA for every immediate |
| TranslateProof.LoadSteps | aot/src/translate.rs:589-680 | A load of any width and sign reads guest RAM as the ISA does, below 2^32 and outside the register file |
| TranslateProof.StoreSteps | aot/src/translate.rs:683-727 | A store changes guest RAM as the ISA does and no register |
| Manual.StepIsManual | aot/src/translate.rs:339-881 | The instruction step the code is compared with is the ISA manual's, opcode by opcode, loads and stores written out on bytes |
| Manual.TransferIsManual | aot/src/translate.rs:2219-2446 | The control transfer it is compared with is the manual's: next pc and link register of every branch and jump |
| Arithmetic.RegisterOps | aot/src/translate.rs:339-790 | What every register instruction computes, in products, quotients and powers of two, and bit by bit for the logic ones |
| Arithmetic.ImmediateOps | aot/src/translate.rs:465-564 | The same for every immediate instruction |
| Manual.CodeIsManual | aot/src/translate.rs:339-881 | The emitted code of an instruction that does not fault has the manual's effect if and only if it is Faithful |
| Manual.LoadIsManual | aot/src/translate.rs:589-680 | The code of every load, compressed or not, puts the signed or unsigned value of its 1, 2, 4 or 8 bytes in the register |
| Manual.StoreIsManual | aot/src/translate.rs:683-727 | The code of every store changes its 1, 2, 4 or 8 bytes to those of the register and nothing else |
| Manual.ByteLoads | aot/src/translate.rs:602-610 | lbu of the byte 0x80 gives 0x80, lb gives it sign-extended |
| TranslateProof.BodyCorrect | aot/src/translate.rs:280-321 | Any list of instructions whose steps are faithful gives RISC-V's registers and RAM and restores the operand stack |
| Translate.EmitInstructions | aot/src/translate.rs:280-321 | The emitting loop appends the codes of the instructions in order |
| Translate.EmitGuards | aot/src/translate.rs:2328-2339 | The loop over cached targets emits one guard per target, in order |
| Translate.TranslateBlock | aot/src/translate.rs:280-321 | The body is the instruction codes followed by the code of the last instruction's return |
| Translate.EmitTerminator | aot/src/translate.rs:2219-2384 | The pushes of every arm give exactly the code whose returned pc TerminatorReturns and NextPcExact are about |
| Terminators.GuardsExec | aot/src/translate.rs:2314-2346 | For every list of cached targets, the guard chain returns the computed target unchanged |
| Terminators.JalrReturns | aot/src/translate.rs:2287-2346 | JALR and C.JALR write the link first and return the even target computed from the registers after that |
| Terminators.BranchReturns | aot/src/translate.rs:2386-2446 | What an emitted conditional branch returns |
| Terminators.TerminatorReturns | aot/src/translate.rs:2219-2384 | Every terminator returns ReturnValue and leaves the linked registers, for any cached targets |
| Terminators.NextPcExact | aot/src/translate.rs:2219-2446 | The returned value is RISC-V's next pc if and only if NextPcCondition holds; the link register always is RISC-V's |
| Terminators.BranchNeverCorrect | aot/src/translate.rs:2398-2440 | Between even addresses other than 0 no conditional branch returns RISC-V's next pc |
| Terminators.LinkIsBaseFails | aot/src/translate.rs:2289-2300 | JALR ra, 0(ra) returns to the instruction after it instead of jumping |
| Terminators.EcallFlagged | aot/src/translate.rs:2356-2363 | ECALL returns its address with the syscall flag if and only if the address is below 2^31 |
| Terminators.BreakFlagged | aot/src/translate.rs:2365-2371 | EBREAK returns its address with both flag bits if and only if the address is below 2^30 |
| Terminators.EmptyBlock | aot/src/translate.rs:304-313 | A block without instructions returns its end address and changes nothing |
| Terminators.BlockCorrect | aot/src/translate.rs:280-321 | A whole block function, from entry to the returned pc |
| Terminators.BlockNextPc | aot/src/translate.rs:280-321 | Registers, RAM and next pc are RISC-V's for every block whose last instruction meets NextPcCondition |
| Dispatch.GcdSpec | aot/src/wasm_builder.rs:343-345 | Euclid's algorithm gives a common divisor that every common divisor divides |
| Dispatch.ComputeAddrAlignment | aot/src/wasm_builder.rs:331-341 | The greatest number dividing every offset from the first address, positive and at most the first offset |
| Dispatch.EmitBrTableDispatch | aot/src/wasm_builder.rs:366-437 | Block nesting, table targets and case handlers, from three loops |
| Dispatch.EmitIfElseDispatch | aot/src/wasm_builder.rs:440-459 | One test per address, then the halting default |
| Dispatch.EmitSparseDispatch | aot/src/wasm_builder.rs:300-329 | A branch table over the computed alignment when it has at most 65536 slots, else the chain of tests |
| Dispatch.SparseExact | aot/src/wasm_builder.rs:300-329 | A branch table if and only if the slots from the first address to the last are at most 65536; alignment 2 for one address |
| Dispatch.ShiftsExactly | aot/src/wasm_builder.rs:391-402 | The index is shifted if and only if the alignment is a power of two other than 1, by its exponent |
| DispatchProof.BrTableExec | aot/src/wasm_builder.rs:366-437 | For every sorted set of addresses below 2^31 and every pc below 2^31, the nested blocks reach exactly the handler of the pc's slot, or the halting default, with every branch depth and 32-bit wrap-around |
| DispatchProof.IfElseExec | aot/src/wasm_builder.rs:440-459 | The chain of tests calls the block at the pc and goes round the loop, or halts |
| DispatchProof.SameCase | aot/src/wasm_builder.rs:331-459 | Both forms choose the same block if and only if the pc is not strictly inside a block's slot |
| DispatchProof.SameCaseAligned | aot/src/wasm_builder.rs:331-459 | In particular for every pc below the base or a multiple of the alignment above it |
| DispatchLoop.IterationExec | aot/src/wasm_builder.rs:208-240 | One iteration halts on -1, hands a flagged pc to the syscall import, and dispatches otherwise |
| DispatchLoop.SparseIteration | aot/src/wasm_builder.rs:300-329 | At the start of a block either sparse form calls that block and goes round with its result |
| DispatchLoop.DenseIteration | aot/src/wasm_builder.rs:248-268 | The dense form calls table entry (pc - base) / 4 |
| DispatchLoop.DenseExact | aot/src/wasm_builder.rs:248-268 | At the start of block k the dense loop body calls block k, whatever the table holds, if and only if that block starts in the k-th word |
| DispatchLoop.DenseTraps | aot/src/wasm_builder.rs:285-297 | Two blocks eight bytes apart pass the density test and dispatching to the second traps |
| DispatchLoop.EmptyDispatch | aot/src/wasm_builder.rs:244-248 | The dispatch of a program without blocks returns 0 |
| DispatchLoop.BuildDispatch | aot/src/wasm_builder.rs:208-283 | Which of the forms the dispatch function uses |
| DispatchLoop.DispatchExact | aot/src/wasm_builder.rs:208-297 | At the start of block k the dispatch function calls that block, whatever the table holds, if and only if there are two or more blocks that span more than twice as many words, or block k starts in the k-th word |
| DispatchLoop.ThreeFarApart | aot/src/wasm_builder.rs:285-297 | Three blocks sixteen bytes apart go through the branch table |
| DispatchLoop.DispatchIteration | aot/src/wasm_builder.rs:208-283 | At the start of a block the dispatch function of any form calls that block and goes round |
| Optimize.StripExec | aot/src/translate.rs:2478-2485 | Any code, with any branches and calls, means the same without its comments |
| Optimize.OptimizeFunction | aot/src/translate.rs:2478-2485 | The kept instructions are the code without its comments |
| Compile.InAddressOrder | aot/src/translate.rs:257-261 | The block map is gone through once, in rising address order |
| Compile.TranslateAll | aot/src/translate.rs:235-276 | One function per block in address order, with inline caches over all blocks and no comments from level 2 on |
| Compile.SectionBlocks | aot/src/cfg.rs:47-63 | The blocks of a section below 2^31 are a partition of it and fit the dispatch function |
| Compile.CompileSection | aot/src/lib.rs:44-66 | From the bytes of a section: the decoded stream, the functions of its blocks, and the dispatch loop over them |
| Sections.SweepAll | aot/src/lib.rs:51-56 | The instructions of all sections, each swept as Disassemble does, in order |
| Sections.CutKeeps | aot/src/cfg.rs:106-143 | Cutting any stream with any boundaries keeps exactly the instructions from the first boundary on, in order |
| Sections.JoinCut | aot/src/cfg.rs:106-143 | A stream after another is cut as if it stood alone, except that one that does not start on a boundary loses its first instructions to the last block before it |
| Sections.SectionsExact | aot/src/cfg.rs:106-163 | For any sections, overlapping or not, and any boundaries: create_blocks gives the blocks of each section, a later section's replacing an earlier one's, if and only if every section that does not start on a boundary goes on with a block whose start recurs |
| Sections.LaterWins | aot/src/cfg.rs:114-118 | The blocks of one more section are added to the map and replace those with their starts |
| Sections.ApartExact | aot/src/cfg.rs:106-163 | For sections without a common address: if and only if every section that has instructions starts on a boundary; then no block is lost |
| Sections.SectionsMerge | aot/src/cfg.rs:106-143 | The end of a section at 0x1004 and the start of one at 0x2000 become one block |
| Overlap.TextIsSlice | aot/src/disasm.rs:282-321 | A section inside a segment that starts at one of its instructions is swept to a slice of the segment's instructions |
| Overlap.TextExact | aot/src/cfg.rs:106-163 | A slice of a segment swept after it leaves the map of blocks as it is if and only if it reaches the end and a block starts in it, or blocks start where it begins and where it ends |
| Overlap.TextLosesReturn | aot/src/elf.rs:112-137 | A `.text` of one instruction inside a block replaces the segment's block by one without its return, although both sections start on boundaries |
| Overlap.TextHarmless | aot/src/elf.rs:112-137 | A `.text` that does not start on a boundary but reaches the segment's end changes no block |
| Compile.CompileSections | aot/src/lib.rs:44-66 | From the bytes of any number of sections below 2^31: the joined streams, their boundaries, the functions of the blocks of the map in address order, and the dispatch loop over them |
| Compile.TwoSections | aot/src/elf.rs:97-137 | For a segment and a `.text` inside it: the joined stream is the segment's and a slice of it, with the segment's boundaries |
| Compile.SegmentWithText | aot/src/lib.rs:44-66 | compile makes the blocks of the segment alone if and only if TextExact's condition holds |
| Isa.TailRuns | aot/src/cfg.rs:106-163 | As many single instructions as a block has left run exactly the rest of the block |
| Isa.BlockLands | aot/src/cfg.rs:65-103 | After a block control is at the start of a block or outside the section: direct targets and fall-through by the boundaries |
| Isa.InsideBlock | aot/src/cfg.rs:106-143 | Fewer instructions end inside the block, at an address that starts none |
| Runs.SimulationRun | aot/src/wasm_builder.rs:208-283 | A machine matched stop by stop is matched over runs of any length, in at most twice the steps |
| Program.ThroughBlock | aot/src/wasm_builder.rs:208-283 | A block is one iteration of the dispatch loop, or two when it ends in a system call |
| Program.CodeCorrect | aot/src/lib.rs:44-66 | For every section, conditional branches included: whenever its instructions, run one at a time with the control transfers of their emitted code, stand at a block or outside after n steps, the dispatch loop (the dense one if block k is in the k-th word) reaches the same pc, registers and RAM in at most 2n iterations, system calls included |
| Isa.IsaIsCode | aot/src/translate.rs:2219-2446 | A RISC-V instruction that translates is one step of the emitted code |
| Isa.BranchGoesLow | aot/src/translate.rs:2386-2446 | The emitted conditional branch between addresses other than 0 modulo 2^32 goes to address 0 or 1 |
| Program.ProgramCorrect | aot/src/lib.rs:44-66 | The same against RISC-V: whenever the machine that executes the section has run n instructions that translate and stands at a block or outside, the dispatch loop reaches its pc, registers and RAM in at most 2n iterations |
| Program.CodeCorrectWithText | aot/src/lib.rs:44-66 | CodeCorrect for a segment and its `.text` under TextExact's condition |
| Program.ProgramCorrectWithText | aot/src/lib.rs:44-66 | ProgramCorrect for a segment and its `.text` under TextExact's condition |
| Spin.Builds | aot/src/lib.rs:44-66 | Every section whose dense form, if chosen, has block k in the k-th word, with a table compiled from it and a handler that serves its system calls, has a dispatch loop that meets the premises of CodeCorrect |
| Spin.Instance | aot/src/lib.rs:44-66 | A section that jumps to itself meets all of them, for any number of steps |
| Counter.Counts | aot/src/lib.rs:44-66 | The dispatch loop of a section with an addition and an answered system call counts any number of rounds in x1, modulo 2^64, with the answer in a0 |
| Hop.HopsOn | aot/src/lib.rs:44-66 | The dispatch loop of a section of two blocks, which uses the branch table, runs any number of rounds through both and counts three times as many in x1, modulo 2^64 |
| Cfg.Disassemble | aot/src/disasm.rs:276-321 | A contiguous stream from the section start to its first cut-off instruction, each decoded from the bytes at its address |
| Fetch.FetchedBits | aot/src/disasm.rs:286-318 | The bits an instruction is decoded from are the halfword or word a load from its address would read |
| Cfg.FindBlockBoundaries | aot/src/cfg.rs:65-103 | An address is a boundary if and only if it is the entry, the first instruction, the successor of a terminator or a direct target |
| Cfg.CutBlocks | aot/src/cfg.rs:106-143 | The first loop of create_blocks, for any stream and boundaries |
| Cfg.AddFallThrough | aot/src/cfg.rs:145-160 | A block without successors gets its end address if a block starts there; nothing else changes |
| Cfg.CreateBlocks | aot/src/cfg.rs:106-163 | The block map is the index of BlockList |
| Cfg.BlocksPartition | aot/src/cfg.rs:106-163 | Concatenating the blocks in address order gives the stream; each is contiguous, starts on a boundary, holds no other and has a terminator only last |
| Cfg.IndexAt | aot/src/cfg.rs:106-163 | Each block is found in the map under its start address |
| Cfg.TargetsStartBlocks | aot/src/cfg.rs:84-100 | Every direct branch or jump to an instruction of the stream leads to the start of a block |
| Cfg.SuccessorsExact | aot/src/cfg.rs:145-223 | A block's successors are its terminator's, or the next block when there are none, returns included |
| Cfg.SuccessorsSound | aot/src/cfg.rs:165-223 | Where a direct branch or jump goes, for every register contents, is among its successors |
| Cfg.SuccessorList | aot/src/cfg.rs:165-223 | The successors of every kind of instruction, in order |
| Functions.CollectFunction | aot/src/cfg.rs:250-274 | The worklist search terminates and lists, without repeats, exactly the blocks reachable without entering another call target |
| Functions.IdentifyFunctions | aot/src/cfg.rs:227-288 | One function per call target that is a block, in address order; none is skipped as already seen |
| Paths.SplitPath | runtime/vfs.hpp:214-223 | The splitting loop gives the non-empty pieces between slashes |
| Paths.SplitJoin | runtime/vfs.hpp:883-890 | Splitting undoes joining, for every list of names |
| Paths.SortNames | runtime/vfs.hpp:1070-1077 | The names in byte order |
| Paths.SortedOrdered | runtime/vfs.hpp:62-75 | That list is strictly increasing and has one entry per name |
| Tree.VirtualFS.InsertEntry | runtime/vfs.hpp:859-909 | Insertion stores the entry at the path's components, making missing directories, and does nothing for a path of slashes |
| Tree.Rebuild | runtime/vfs.hpp:1064-1090 | Storing a tree's entries parents first rebuilds its children |
| Octal.WriteOctal | runtime/vfs.hpp:913-923 | Digits from the right and a terminator, written in place |
| Octal.ParseOctal | runtime/vfs.hpp:809-815 | The value of the leading octal digits |
| Octal.ParseStops | runtime/vfs.hpp:809-815 | A number ends before the first byte other than '0' to '7' and has the value of the digits before it |
| Octal.FieldRoundTrip | runtime/vfs.hpp:809-923 | A number reads back if and only if it fits the field's digits |
| TarHeader.ComputeChecksum | runtime/vfs.hpp:925-936 | The sum of the bytes with the checksum field as spaces |
| TarHeader.BuildHeader | runtime/vfs.hpp:983-1048 | The 512-byte block with every field in its place |
| TarHeader.ChecksumStored | runtime/vfs.hpp:1040-1044 | The stored checksum is the checksum of the finished block |
| Tar.EmitLongName | runtime/vfs.hpp:938-980 | A LongLink block and the padded name |
| Tar.EmitTarHeader | runtime/vfs.hpp:982-1061 | The record of one entry: long name if needed, header, padded content |
| Tar.SaveRecursive | runtime/vfs.hpp:1064-1090 | All records below a directory, names in order, parents first |
| Tar.SaveTar | runtime/vfs.hpp:773-780 | The archive of the root and its two end blocks |
| Tar.LoadRecords | runtime/vfs.hpp:89-206 | The load loop, for any way of reading a record |
| Tar.LoadTar | runtime/vfs.hpp:89-206 | The tree is what Load makes of the archive |
| Ustar.HeaderWritten | runtime/vfs.hpp:982-1048 | The header of an entry byte by byte: octal digits, type flag, link, magic and owner |
| Ustar.RecordLaid | runtime/vfs.hpp:982-1061 | The record of an entry under any path: LongLink header and name for a name over 100 bytes, ustar header, content in whole blocks; directory names end in a slash |
| Ustar.ChecksumWritten | runtime/vfs.hpp:925-936 | Every header carries, as six octal digits, a NUL and a space, the sum of its bytes with this field counted as spaces |
| Ustar.LongHeaderWritten | runtime/vfs.hpp:938-968 | The header of a long name byte by byte |
| Ustar.KindRead | runtime/vfs.hpp:150-172 | The type load_tar gives an entry for every value of byte 156 |
| Ustar.PrefixRead | runtime/vfs.hpp:119-126 | The name prefix of a ustar header |
| Ustar.LongLinkRead | runtime/vfs.hpp:106-118 | A block that starts with "././@LongLink" names the entry after its data |
| Ustar.DigitsAre | runtime/vfs.hpp:913-923 | Digit k of a number field is the k-th octal digit |
| TarProof.ParseRecordOf | runtime/vfs.hpp:108-200 | Reading a written record gives its path and its entry and consumes exactly the record, through LongLink for paths over 100 bytes |
| TarProof.RecordExact | runtime/vfs.hpp:108-200 | Under a plain path of any length the record of an entry reads back as that entry if and only if LeafFits holds of it |
| RoundTrip.SaveLoad | runtime/vfs.hpp:89-206 | Loading a saved tree into an empty file system gives the same files, for every savable tree |
| Kept.LoadKept | runtime/vfs.hpp:89-206 | Saving and loading any storable tree gives what is kept of it: sockets as empty files, low octal digits, links cut to 100 bytes |
| Kept.SaveLoadExact | runtime/vfs.hpp:89-206 | The tree comes back unchanged if and only if every entry fits its record |
| Kept.SameArchive | runtime/vfs.hpp:773-780 | A tree and what is kept of it have the same archive, byte for byte |
| Kept.DotIsLost | runtime/vfs.hpp:128-135 | A root that holds nothing but an empty directory named "." comes back empty |
| Resolve.ResolveNoSymlink | runtime/vfs.hpp:824-857 | The stack of entries walks as Follow does |
| Resolve.Resolve | runtime/vfs.hpp:209-277 | The string-keeping resolver terminates by (depth left, components left) and walks as FollowLinks does |
| Resolve.FollowString | runtime/vfs.hpp:239-246 | Re-resolving the string of a walk gives the entry it stands at |
| Resolve.ResolversAgree | runtime/vfs.hpp:209-277 | On every tree without links, or with no depth left, both resolvers give the same entry for every path |
| Resolve.PathMeans | runtime/vfs.hpp:817-822 | A path names its own components after the working directory's, or only its own when it starts with a slash |
| Resolve.DotSteps | runtime/vfs.hpp:843-850 | "." stays in a directory, a name followed by ".." leads back, ".." stays at the root |
| Resolve.PutFound | runtime/vfs.hpp:859-909 | What is inserted at a path is found there |
| Resolve.PutMakes | runtime/vfs.hpp:883-900 | A missing directory on the way is made with mode 0755, owner 0 and only the next name in it |
| Resolve.PutElsewhere | runtime/vfs.hpp:859-909 | Every path that does not begin with the inserted one leads to the same entry as before |
| Resolve.LinkFollowed | runtime/vfs.hpp:256-273 | A link anywhere in a path: resolving goes on from the root with the link's directory, the link's components and the rest of the path, or without the directory for an absolute link |
| Resolve.SelfLink | runtime/vfs.hpp:256-273 | A link to itself resolves to the link at every depth |
| Getdents.DirHandle.Getdents64 | runtime/vfs.hpp:415-472 | The buffer holds the records from the old index to the new one and is otherwise unchanged; the new index is as far as the space allows |
| Getdents.ListingAligned | runtime/vfs.hpp:439-442 | Every page is a whole number of eight-byte units |
| Getdents.DecodeListing | runtime/vfs.hpp:444-468 | A page decodes to the names it was made from if and only if those have no NUL and record lengths below 65536 |
| Getdents.LongNameHides | runtime/vfs.hpp:440-448 | A page that starts with a name of 65516 bytes decodes to nothing |
| Getdents.TypeByte | runtime/vfs.hpp:450-461 | The type byte of a record for every kind of file |
| Getdents.RecordNumbers | runtime/vfs.hpp:446-447 | Inode and offset of a record are its position from 1 |
| Getdents.DirHandle.ReadPages | runtime/vfs.hpp:415-472 | A reader that calls with any buffer sizes gets the pages from its old position to its new one |
| Getdents.PagesDecode | runtime/vfs.hpp:434-471 | Decoding the pages of any calls one after the other gives a gapless run of the names if and only if those written have no NUL and record lengths below 65536; every page is a whole number of eight-byte units |
| Getdents.PagesComplete | runtime/vfs.hpp:434-471 | With room for each next record the pages decode to the whole directory, under the same if-and-only-if |
| Getdents.ReadsAll | runtime/vfs.hpp:434-471 | With room for each next record they reach the end |
| Kernel.Machine.FindRunnable | runtime/syscalls.hpp:174-181 | The first runnable slot other than the skipped one |
| Kernel.Machine.WakeThreads | runtime/syscalls.hpp:184-193 | Waiters released in slot order up to the limit |
| Kernel.Machine.AddThread | runtime/syscalls.hpp:158-171 | The first free slot filled and counted, or -1 and no change |
| Kernel.Machine.SwitchTo | runtime/syscalls.hpp:221-232 | The current context saved, the target's restored, its budget reset |
| Kernel.Machine.MaybePreempt | runtime/syscalls.hpp:236-255 | One unit of budget used, or a switch when none is left |
| Kernel.Machine.SchedYield | runtime/syscalls.hpp:3571-3580 | Result 0, then a switch if another thread can run |
| Kernel.Machine.Futex | runtime/syscalls.hpp:2981-3071 | The whole futex call, with the deadlock break and the last-resort write; WakeReleases and WaitExact say what it does to every slot |
| Kernel.Machine.CloneThread | runtime/syscalls.hpp:607-684 | The thread form of clone, the full-slots case included |
| Kernel.Machine.Exit | runtime/syscalls.hpp:489-520 | Thread exit: clear-tid word, wake, removal, next thread or stop |
| Kernel.Machine.ExitGroup | runtime/syscalls.hpp:466-487 | All slots cleared and the machine stopped |
| SchedProof.WaiterExists | runtime/syscalls.hpp:3003-3054 | When the only runnable thread starts to wait, the deadlock break finds another waiter |
| SchedProof.StepInv | runtime/syscalls.hpp:150-205 | Every step keeps: count is the number of active slots, slot 0 is active, the current slot is active and not waiting |
| SchedRuns.InitialInv | runtime/syscalls.hpp:145-156 | The invariant holds before any thread is created |
| SchedRuns.RunInv | runtime/syscalls.hpp:145-255 | The invariant holds in every state of every run |
| SchedRuns.LastResortUnreachable | runtime/syscalls.hpp:3035-3054 | In no state of any run does a futex call write guest memory: a thread to switch to is always found |
| SchedRefine.StepRefines | runtime/syscalls.hpp:145-255 | Every step is a step of a machine in which each thread owns its registers |
| SchedRefine.NanosleepRefines | runtime/syscalls.hpp:3209-3216 | nanosleep records its result if and only if it does not switch |
| SchedRuns.StepFrame | runtime/syscalls.hpp:208-232 | No step changes the registers of a thread that is not running |
| SchedRuns.ResumesAsSuspended | runtime/syscalls.hpp:208-232 | Over every run a suspended thread resumes with exactly the registers and pc it was suspended with |
| SchedRuns.ResumesWithResult | runtime/syscalls.hpp:648-672 | A thread that yields, waits or clones resumes with its call's result in a0 and all else as it was |
| SchedRuns.WakeExact | runtime/syscalls.hpp:184-193 | A wake frees exactly min(max(0, limit), waiters) threads on its address and changes no other |
| SchedRuns.WaitsOnlyWhenEqual | runtime/syscalls.hpp:2993-3010 | A thread starts to wait only by its own call on a word that holds what it expects |
| SchedRuns.ReleasedOnlyBy | runtime/syscalls.hpp:3018-3067 | A waiter is released only by a wake on its address, a thread exit that clears that address, or a deadlock break |
| SchedCalls.YieldExact | runtime/syscalls.hpp:3571-3580 | sched_yield: every slot, register and word after it |
| SchedCalls.NanosleepExact | runtime/syscalls.hpp:3201-3216 | nanosleep: the thread is suspended without a result, or goes on with 0 |
| SchedCalls.PreemptExact | runtime/syscalls.hpp:236-255 | A unit of the budget of 50000, or a switch to the first thread that can run |
| SchedCalls.WakeReleases | runtime/syscalls.hpp:3056-3067 | A wake call releases min(limit, waiters) threads on its address, gives their number in a0 and changes nothing else |
| SchedCalls.LowestFirst | runtime/syscalls.hpp:184-193 | A waiter that a wake leaves behind keeps every waiter in a higher slot waiting |
| SchedCalls.SoleWaiterRuns | runtime/syscalls.hpp:3056-3067 | The only thread that waits on the address can run after a wake with a limit of at least 1 |
| SchedCalls.WaitExact | runtime/syscalls.hpp:2993-3054 | A wait on a word with the expected value blocks the caller and the first thread that can run, or else the first that waits, goes on; any other wait gives -EAGAIN |
| SchedCalls.OtherFutex | runtime/syscalls.hpp:3068-3071 | Other futex commands give -ENOSYS and change nothing |
| SchedCalls.ThreadCloneExact | runtime/syscalls.hpp:607-616 | Which flags make a thread |
| SchedCalls.ChildRegisters | runtime/syscalls.hpp:648-672 | Every register of the new thread: stack, thread pointer if asked for, 0 in a0, the rest its parent's |
| SchedCalls.CloneExact | runtime/syscalls.hpp:607-684 | The whole state after a thread is made, the full-slots case included |
| SchedCalls.ExitExact | runtime/syscalls.hpp:489-520 | The exit of a thread: clear-tid word 0, the first thread that waits on it released, the slot freed, the first thread that can run goes on |
| SchedCalls.MainExits | runtime/syscalls.hpp:489-520 | The exit of the main thread stops the machine with its status |
| SchedCalls.GroupExits | runtime/syscalls.hpp:466-487 | exit_group frees every slot and stops the machine with its status |
| SchedCalls.SetTidExact | runtime/syscalls.hpp:1730-1739 | The clear-tid address of the caller, and its tid |
| Fork.Host.Clone | runtime/syscalls.hpp:692-782 | The four snapshots, the descriptors and the registers of the parent; -EAGAIN in a child; the partial record of a fork that throws |
| Fork.Host.Exit | runtime/syscalls.hpp:522-597 | Rollback of memory, descriptors and registers; the exit argument is kept for the parent's wait |
| Fork.Host.Wait | runtime/syscalls.hpp:788-805 | Status and pid once, then -ECHILD |
| Fork.ParentRestored | runtime/syscalls.hpp:522-597 | After any child run and its exit: the parent's pc and x1..x31 with a0 the child's pid, saved memory as at the fork even where snapshots overlap, no descriptor the parent did not have, nothing left saved |
| Fork.StatusReaped | runtime/syscalls.hpp:522-597 | Over any run of the child up to its exit: the parent's next wait gives the child's pid and, in the status word, the low byte of the exit argument times 256, if the child did not wait itself; otherwise -ECHILD |
| Fork.ChildWaits | runtime/syscalls.hpp:788-805 | A child that waits reaps its own pid with status 0 |
| Fork.ForkReturnsZero | runtime/syscalls.hpp:692-782 | After a fork the child has 0 in a0 and the parent's pc, other registers, memory and descriptors |
| Fork.ForkThrowsExact | runtime/syscalls.hpp:702-768 | A fork throws if and only if the process is no child and its stack pointer is above the stack top; in a child it gives -EAGAIN |
| Fork.SavedExactly | runtime/syscalls.hpp:702-768 | Which addresses a fork saves, as an if-and-only-if |
| Fork.NestedForksInvisible | runtime/syscalls.hpp:686-690 | Any run of a child with forks in it is the run without them, up to the result register |
| Fork.NothingLeftOver | runtime/syscalls.hpp:566-577 | In every state of every run in which no fork throws, a fork finds no snapshot of an earlier one |
| Fork.LeftOverExact | runtime/syscalls.hpp:708-755 | A fork leaves a snapshot in the parent if and only if it throws after saving a region |
| Fork.ThreadForkLeavesSnapshot | runtime/syscalls.hpp:708-755 | A thread on a mapped stack at 0x20000000 leaves its fork's data snapshot behind |
| Fork.ReapedOnce | runtime/syscalls.hpp:788-805 | The first wait gives pid and encoded status, every later one -ECHILD |
| AddressSpace.Arena.MmapAnonymous | runtime/syscalls.hpp:1800-1897 | The anonymous half of mmap with its own bump pointer |
| AddressSpace.Arena.MmapFile | runtime/syscalls.hpp:1912-1953 | The file half without a preferred address |
| AddressSpace.Arena.ResetLayout | runtime/syscalls.hpp:994-1175 | -ENOMEM and no change for a program whose computed end reaches the arena's; otherwise break base, mapping frontier and stack top after execve |
| AddressSpace.Arena.SysBrk | runtime/syscalls.hpp:3700-3749 | The break before and after the first execve |
| AddressSpace.RunLaid | runtime/syscalls.hpp:1800-1953 | Over any run of mmap, munmap, brk and execve without wrap-around the frontier only rises, all ranges given out are page-aligned, inside the arena and pairwise disjoint, and the break stays in its window below the frontier |
| AddressSpace.RunLaidExact | runtime/syscalls.hpp:1800-1953 | The ranges of a run are on pages, inside the arena and pairwise disjoint if and only if no served request wraps |
| AddressSpace.LayoutInStep | runtime/syscalls.hpp:1112-1175 | execve keeps both pointers on pages and in step, never lowers the frontier, and puts the break window below it |
| AddressSpace.ShortRunLaid | runtime/syscalls.hpp:1800-1953 | Lengths below 2^63 never wrap |
| AddressSpace.LongestServedTwice | runtime/syscalls.hpp:1815-1880 | A request for 2^64 - 1 bytes is served and the next one gets the same address |
| AddressSpace.BumpGoesDown | runtime/syscalls.hpp:1815-1880 | A request for 2^64 - 8192 bytes moves the handler's pointer down |
| AddressSpace.LayoutExact | runtime/syscalls.hpp:996-1175 | For movable and fixed programs and interpreters: program, interpreter, break window and stack are disjoint and below the frontier if and only if there is room for the stack and the loaded addresses are clear |
| AddressSpace.MovedExact | runtime/syscalls.hpp:1041-1056 | When program and interpreter can be moved: if and only if they do not overlap and the stack fits the arena or its fallback place is clear |
| AddressSpace.FixedExact | runtime/syscalls.hpp:1057-1062 | A fixed program whose stack fits is separate if and only if it ends below the break, lies between break window and stack, or lies in the page above the stack |
| AddressSpace.FixedStatic | runtime/syscalls.hpp:1057-1062 | A static fixed program is separate when linked at or below 0x40000, and not when linked from 0x41000 up to the end of the break window |
| AddressSpace.FixedOverlaps | runtime/syscalls.hpp:1057-1062 | A static program at 0x400000 to 0x500000 lies in its break window, which starts at 0x140000 |
| AddressSpace.InterpreterOverlaps | runtime/elf_loader.hpp:371-378 | After a static first program an interpreter linked at 0 is loaded over a program at its base |
| AddressSpace.LaterMappings | runtime/syscalls.hpp:1112-1175 | After an execve that keeps the regions separate, every later mapping that does not wrap, also after further brk and execve calls, is clear of all of them |
| AddressSpace.FallbackOverlaps | runtime/syscalls.hpp:1159-1165 | A program that reaches up to the interpreter at 0x18000000 gets its stack on top of itself |
| AddressSpace.FallbackWraps | runtime/syscalls.hpp:1159-1165 | After a static first program a stack that does not fit goes to the top of the 64-bit address space |
| AddressSpace.AnonymousExact | runtime/syscalls.hpp:1815-1880 | A free anonymous request is served, at the frontier, if and only if it has a length, is not a large one hinted past the arena, and its 64-bit end is in the arena; both pointers then move to its end if and only if it does not wrap |
| AddressSpace.FixedMapped | runtime/syscalls.hpp:1815-1880 | A fixed request gets its address unless it is empty or ends past 2^31, and moves no frontier |
| AddressSpace.FileMapped | runtime/syscalls.hpp:1912-1953 | A file request gets the frontier and moves it to its end, if that is below 2^31 |
| AddressSpace.SyncedIsMax | runtime/syscalls.hpp:1815-1830 | The handler's pointer catches up to the higher of the two |
| AddressSpace.OtherRequests | runtime/syscalls.hpp:994-1040 | munmap does nothing; execve fails exactly for a program whose computed end is not below 2^31 |
| AddressSpace.BreakFollows | runtime/syscalls.hpp:3700-3749 | After any calls a request inside the window is the new break, zero or one below changes nothing, one above is cut to the window's end or, before the first execve, changes nothing |
| AddressSpace.BreakInWindow | runtime/syscalls.hpp:3700-3749 | Over any sequence of brk calls the break stays in its 16 MB window |
| InitialStack.Guest.SetupDynamicStack | runtime/elf_loader.hpp:541-691 | The stack pointer and the whole memory after the builder's loops, in 64-bit addresses |
| InitialStack.FitsExact | runtime/elf_loader.hpp:541-691 | The 64-bit result is the intended layout if and only if everything fits below the stack top |
| InitialStack.PlacesOrdered | runtime/elf_loader.hpp:549-658 | Tables, argument strings, environment strings, name, random bytes and platform follow one another without overlap, on a 16-byte boundary |
| InitialStack.PointerRange | runtime/elf_loader.hpp:578-590 | Each string ends where the one before it starts |
| InitialStackProof.DecodesBack | runtime/elf_loader.hpp:541-691 | Walking from the stack pointer as argc, argv, NULL, envp, NULL, pairs up to AT_NULL recovers exactly the arguments, environment and auxiliary vector |
| InitialStackProof.AuxStrings | runtime/elf_loader.hpp:555-575 | The executable name and the platform string read back |
| InitialStackProof.AuxValues | runtime/elf_loader.hpp:600-644 | The value of every tag in the auxiliary vector, and that it has no other tags |
| InitialStackProof.AuxEntries | runtime/elf_loader.hpp:633-641 | The auxiliary vector points to them |
| NetRpcProof.StepInv | friscy-bundle/worker.js:168-211 | Every single memory access of either side keeps the ownership invariant |
| NetRpcProof.OneOwner | friscy-bundle/worker.js:168-211 | In every reachable state the cells have one owner |
| NetRpcProof.AnsweredOnce | friscy-bundle/network_rpc_host.js:70-215 | Each request is answered once and each response read belongs to the request just sent |
| NetRpcProof.HandlesWhatWasSent | friscy-bundle/network_rpc_host.js:84-99 | The host handles exactly the request the worker waits on, read unchanged |
| NetRpcProof.RequestLaid | friscy-bundle/worker.js:168-211 | In which words of the shared memory the host finds operation, descriptor, arguments, length and data of the request, over every run |
| NetRpcProof.ResponseLaid | friscy-bundle/network_rpc_host.js:203-215 | In which words the worker finds result, length and data of the response to its request |
| NetRpcProof.HandleExact | friscy-bundle/network_rpc_host.js:84-197 | Response and sockets for every operation number |
| NetRpcProof.AcceptExact | friscy-bundle/network_bridge.js:503-539 | An accepted connection gets the first free descriptor from 100 on and an empty buffer |
| NetRpcCall.CallCompletes | friscy-bundle/worker.js:168-211 | A call that is not disturbed gives the worker exactly the handler's answer to its request and leaves the sockets as the handler does: the protocol is a direct call |
| NetRpcProof.RecvExact | friscy-bundle/network_rpc_host.js:155-168 | A read conserves the stream if and only if what it takes fits the payload |
| NetRpcProof.RecvFront | friscy-bundle/network_rpc_host.js:155-168 | A read returns up to the asked number of bytes from the front of the buffer |
| NetRpcProof.StepLogs | friscy-bundle/network_rpc_host.js:155-168 | What a socket has handed out is the data of the responses on its descriptor since it was opened, accepted connections included |
| NetRpcProof.StreamConserved | friscy-bundle/network_rpc_host.js:70-215 | Over every interleaving with reads of at most 65472 bytes, the data of the responses followed by the buffer is what was delivered, in order; between calls those are the responses the worker read |
| StdoutRing.StepInv | friscy-bundle/worker.js:93-121 | Every single memory access of writer or reader keeps: the reader has a prefix of what was published and the ring holds the rest |
| StdoutRing.Fifo | friscy-bundle/index.html:513-541 | Under every interleaving the terminal gets a prefix of the published bytes, in order, and the rest is in the ring, never more than 65527 bytes |
| StdoutRing.AcceptsExactly | friscy-bundle/worker.js:96-108 | A write publishes as many bytes as the ring has room for when it looks at the tail, all of them if and only if they fit then |
| StdoutRing.WritePublishes | friscy-bundle/worker.js:93-121 | A write that is not disturbed publishes the first min(length, room) bytes and no others |
| StdoutRing.DrainTakesAll | friscy-bundle/index.html:513-541 | A drain that is not disturbed takes everything published |

## Left out

- Atomics and AMO instructions, floating point and FENCE ordering: heavy modelling of their own, with several arms marked as approximations in the source.
- Immediate and opcode decoders: finite tables; the sweep takes them as parameters.
- WebAssembly validation: locals are untyped, because local 1 is declared i64 and holds an i32 in the inline-cache code.
- Program.CodeCorrect: one code section below 2^31, or a segment and its `.text` (CodeCorrectWithText); a run ends at a breakpoint and at a transfer into the middle of a block; what the system-call handler does is a parameter.
- Program.ProgramCorrect: in addition transfers that fail NextPcCondition, nearly all conditional branches, are not instructions that translate, because the code does not go where RISC-V does.
- Compile.CompileSection: one code section. CompileSections is about several, without the facts that need one contiguous stream.
- translate_jit, debug comments and the binary encoder: the same loops again and byte emission.
- Tar.LoadTar: a LongLink entry whose name or header is cut off reads out of bounds in the source and ends the load in the model.
- Kept.SaveLoadExact: names with slashes or NULs, links with NULs and files of 8 GiB and more are outside the statement; of roots with a directory named "." only DotIsLost speaks.
- Tree.VirtualFS.InsertEntry: the tree is a value, so entries shared by hard links and open handles are not modelled.
- Kernel.Machine.CloneThread: the current slot is taken to be active once threads exist, which SchedProof.StepInv shows.
- Fork combined with live threads, page attributes, decoder caches and the retry after a protection fault.
- AddressSpace.LayoutExact: files without loaded segments or with one that wraps, and interpreters whose length does not fit the arena from their base, are not described.
- AddressSpace.RunLaid: fixed mappings and file mappings at a chosen address are not in the list of ranges, because they may overlap by request.
- InitialStackProof.DecodesBack: assumes that strings and tables fit below the stack top, which InitialStack.FitsExact shows to be needed.
- NetRpc.Handle: what the network bridge answers to connect, bind, listen, accept and send is a parameter; connection numbers are not modelled, so a proxy number equal to a local one is not.
- StdoutRing.Fifo: bytes, not the text they are decoded to.
- The stdin request, the JIT manager, the service worker, the proxy and the generated glue: I/O plumbing.
- File creation through symlinked parents, reads past the end of a file, and the stat, ioctl and uname stubs: easy members.
