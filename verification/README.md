# Verified models of OG: consensus, compiler, kernel, storage, version store, network

This project models the parts of the repository whose correctness is hardest to see and proves
what they promise, over every input, every run or every reachable state. Each part follows the
form of its source: objects that update fields are classes whose methods are proved against
pure functions or invariants; recursion and expressions are functions and lemmas.

**Raft leader election** (`Codec`, `Rpc`, `WireFormats`, `RaftNode`, `RaftSafety`, `RaftProgress`). A cluster is a state machine
whose network is the set of all packets ever sent, so loss, duplication, delay and reordering
are free. At most one node is ever leader of a term, although a heartbeat of the same term
clears a candidate's vote, and although heartbeat acknowledgements and votes have the same
bytes. What those two facts break, and exactly when, is proved too. So is that elections can be
won: any majority of voters elects a node nobody is ahead of, and not one voter fewer.

**OGLang** (`IR`, `Lowering`, `Scoping`, `LoweringProof`, `OnceDeclared`, `RegAlloc`, `ArrayAccess`, `Codegen`,
`CodegenProof`, `Stretching`, `Compiler`, `LoopRanges`, `ModuleOrder`). Lowering structured code to
labelled jumps, linear live ranges, the interference graph, colouring, and two-address emission
with spills each preserve meaning; together they give an end-to-end theorem from source function
to machine program. Array elements lie where the index arithmetic looks for them. The import
graph is searched for cycles and ordered.

**Kernel** (`Frames`, `Paging`, `Loading`, `Elf`, `ElfFormat`, `ElfLoading`, `TaskImages`, `Kernel`, `Scheduling`,
`SchedulingLaws`, `Heap`, `HeapObject`). Every taken frame has exactly one owner, no frame is reachable from two tasks, a
failed creation changes nothing, an accepted ELF image reads as its file says, the scheduler
neither starves nor resurrects, and the heap stays tiled and coalesced.

**Storage** (`Crc`, `Wal`, `KeyValue`). A key/value store over a write-ahead log, cut or damaged at
any byte, reopens as a prefix of its history.

**OGGit** (`GitCodec`, `Git`, `GitTrees`, `GitBuild`, `GitHistory`, `GitMerge`, `GitDiff`). Ancestors, merge
bases, three-way merge, tree building and diff are exact. An object id is modelled as the
content it is the hash of, so equal ids mean equal content.

**NetLab** (`NetLab`). MAC learning delivers exactly as flooding does, and replies go back the way
the frame came.

Where the code does less than one might expect it is kept as it is, with a concrete witness and
the condition that excludes it: a `let` whose initialiser is a bare variable is an alias
(`RenamingLetIsAnAlias`), and a name declared again inside a branch is lost behind it
(`RedeclaredNameIsLost`); live ranges are not extended over back edges, so the compiler turns a
function that returns 14 into a program that returns 2 (`MiscompiledLoop`); an empty ELF segment
later in the table hides the first page of a segment at its address (`HidingImageAccepted`); a
torn record shorter than its length field can make later bytes be read as a record
(`ShortTornTailMisread`); changes beside a directory that the store has lost are not reported
(`LostDirectoryHidesChange`); the byte offset of an array element wraps from index 2^28 on
(`ElementAddressExactly`). The comment on `DiffEntry` promises one removed and one added
entry at the same path when a file becomes a directory; the code reports the directory's files
under their own paths, and the model follows the code. A `kmalloc` larger than a page fails but
keeps the page it took (`KernelHeap.Heap.KMalloc`).

## Model

| member | source | states |
|---|---|---|
| Codec.BytesRoundTripExactly | 07-distributed-systems/rpc/serialization.cpp:22-90 | A length-prefixed string reads back as itself if and only if it is shorter than 2^32 bytes, because the length is cast to 32 bits. |
| Codec.NatRoundTrip | 07-distributed-systems/rpc/serialization.cpp:5-72 | A big-endian number of any width reads back, leaving the bytes after it. |
| Codec.ValueInjective | 07-distributed-systems/rpc/serialization.cpp:48-72 | Two byte strings of one length that decode to the same number are equal. |
| WireFormats.BigEndianDigit | 07-distributed-systems/rpc/serialization.cpp:5-20 | Byte i of a number is its digit of that weight, most significant first. |
| WireFormats.BytesCanonical | 07-distributed-systems/rpc/serialization.cpp:74-90 | A string is read if and only if its length and its bytes stand there. |
| Codec.Encoder.WriteU64 | 07-distributed-systems/rpc/serialization.cpp:16-20 | The shifting loop appends exactly the eight big-endian bytes. |
| Codec.Encoder.WriteBytes | 07-distributed-systems/rpc/serialization.cpp:22-25 | Appends the wrapped length and the bytes. |
| Codec.Decoder.ReadU64 | 07-distributed-systems/rpc/serialization.cpp:61-72 | Reads the number and advances eight bytes, or fails for good when fewer are left. |
| Codec.Decoder.ReadBytes | 07-distributed-systems/rpc/serialization.cpp:74-90 | Reads the length and that many bytes, or fails for good. |
| Rpc.RequestRoundTrip | 07-distributed-systems/rpc/rpc.cpp:5-19 | A serialized request parses back to itself. |
| Rpc.ResponseRoundTrip | 07-distributed-systems/rpc/rpc.cpp:21-45 | A serialized response parses back to itself. |
| WireFormats.RequestParsesExactly | 07-distributed-systems/rpc/rpc.cpp:5-19 | A byte string parses as a request if and only if it is that request's serialization. |
| WireFormats.RequestLayout | 07-distributed-systems/rpc/rpc.cpp:5-11 | The offset of every field of a request. |
| WireFormats.ResponseLayout | 07-distributed-systems/rpc/rpc.cpp:21-30 | The offset of every field of a response. |
| RaftServer.RaftNode.StepDown | 07-distributed-systems/raft/raft.cpp:93-98 | Becoming a follower takes the term over and clears the vote and the votes received. |
| RaftServer.RaftNode.AnswerVoteRequest | 07-distributed-systems/raft/raft.cpp:109-134 | New state and answer bytes of a vote request, malformed payloads included; when it is granted is `VoteGrantedExactly`. |
| RaftServer.RaftNode.AnswerHeartbeat | 07-distributed-systems/raft/raft.cpp:136-161 | New state and answer bytes of a heartbeat, with the same-term reset of a candidate. |
| RaftServer.RaftNode.Campaign | 07-distributed-systems/raft/raft.cpp:163-187 | Term, self-vote and requests of an election, and immediate leadership of a cluster of one. |
| RaftServer.RaftNode.ReceiveResponse | 07-distributed-systems/raft/raft.cpp:208-241 | Which responses are counted, which depose, and when a majority makes a leader. |
| RaftServer.RaftNode.Tick | 07-distributed-systems/raft/raft.cpp:243-261 | Timers, heartbeats of a leader and elections of the others. |
| RaftServer.AnswerRoundTrip | 07-distributed-systems/raft/raft.cpp:19-51 | Votes and acknowledgements decode to what was encoded. |
| WireFormats.TermAndIdExactly | 07-distributed-systems/raft/raft.cpp:7-17 | A payload decodes as a request if and only if it is eight bytes of term and four of sender. |
| WireFormats.AnswerExactly | 07-distributed-systems/raft/raft.cpp:19-51 | A payload decodes as an answer if and only if it is eight bytes of term and one flag, any but zero meaning yes. |
| RaftSafety.EventStep | 07-distributed-systems/raft/raft.cpp:93-311 | Every step of any node with any packet ever sent keeps the election invariant. |
| RaftSafety.RunHistories | 07-distributed-systems/raft/raft.cpp:263-311 | Every state of every run satisfies the election invariant. |
| RaftSafety.ElectionSafety | 07-distributed-systems/raft/raft.cpp:93-241 | Over every run, two leaders of one term, at whatever times, are the same node. |
| RaftSafety.VotesAreGenuine | 07-distributed-systems/raft/raft.cpp:208-241 | Every member of a candidate's or leader's votes really voted for it in that term at some earlier state of the run. |
| RaftSafety.TermsNeverDecrease | 07-distributed-systems/raft/raft.cpp:93-187 | No node's term decreases along a run. |
| RaftSafety.OneWinner | 07-distributed-systems/raft/raft.cpp:163-241 | Two majorities of granted votes in one term belong to one candidate, though votes can be forgotten. |
| RaftSafety.AckLooksLikeVote | 07-distributed-systems/raft/raft.cpp:19-51 | A packet is an acknowledgement if and only if it is a vote with the same fields. |
| RaftSafety.AckNeverCounted | 07-distributed-systems/raft/raft.cpp:208-241 | Whoever can still count an accepted acknowledgement of its term as a vote is already leader. |
| RaftSafety.NoRivalLeader | 07-distributed-systems/raft/raft.cpp:136-161 | A heartbeat never reaches a leader of its own term, so the same-term reset only hits a candidate. |
| RaftSafety.VoteForgottenExactly | 07-distributed-systems/raft/raft.cpp:93-98 | Within a term a vote changes if and only if a candidate serves a heartbeat of that term. |
| RaftSafety.TwoVotesInOneTerm | 07-distributed-systems/raft/raft.cpp:155-157 | A concrete run in which one node votes for two candidates in one term. |
| RaftProgress.VoteGrantedExactly | 07-distributed-systems/raft/raft.cpp:109-134 | A vote is granted if and only if the request is newer, or of the node's term and nobody else has its vote; granting restarts the timer, refusing changes nothing. |
| RaftProgress.AskedAgain | 07-distributed-systems/raft/raft.cpp:119-131 | A duplicated vote request gets the same answer and changes nothing but the timer. |
| RaftProgress.BeatAcceptedExactly | 07-distributed-systems/raft/raft.cpp:136-161 | A heartbeat is accepted if and only if it is not stale, and restarts the election timer exactly then. |
| RaftProgress.UnknownRefused | 07-distributed-systems/rpc/rpc.cpp:161-174 | An unparsable request or one for another method changes nothing and is answered with a failure under its id. |
| RaftProgress.RequestIdTells | 07-distributed-systems/raft/raft.cpp:172-176 | Request ids tell terms and senders apart while node ids are below a million, and not from there on. |
| RaftProgress.AnswerCountsExactly | 07-distributed-systems/raft/raft.cpp:208-241 | A newer answer deposes; a yes of the candidate's term counts once and makes it leader if and only if more than half the cluster has said yes; nothing else changes anything. |
| RaftProgress.WaitsForTimeout | 07-distributed-systems/raft/raft.cpp:254-257 | Until its timer runs out a node that is not leader sends nothing and changes nothing else. |
| RaftProgress.CampaignsAtTimeout | 07-distributed-systems/raft/raft.cpp:163-187 | At the tick that brings the timer to zero it campaigns in the next term with its own vote and a request to every peer. |
| RaftProgress.BeatsEveryThird | 07-distributed-systems/raft/raft.cpp:243-252 | A leader beats at every third tick and at no other. |
| RaftProgress.BeatSuppressesElection | 07-distributed-systems/raft/raft.cpp:136-161 | After an accepted heartbeat a follower starts no election before the timeout drawn. |
| RaftProgress.ElectionCompletes | 07-distributed-systems/raft/raft.cpp:163-241 | From every state, a node nobody is ahead of whose timer runs out is elected by any half of the others, after exactly one request and answer for each and not before, and tells every other node. |
| Lowering.IRLowerer.Expression | 03-compiler/oglang/ir/lower.cpp:367-582 | The instructions appended and the value returned are those of the lowering function; when it succeeds is `LowersExactly`. |
| Lowering.IRLowerer.Statement | 03-compiler/oglang/ir/lower.cpp:155-365 | The same for statements, with labels and variables updated in place. |
| Lowering.LowerFunction | 03-compiler/oglang/ir/lower.cpp:9-48 | The whole function, parameters first. |
| IR.ApplyMeans | 03-compiler/oglang/codegen/x86_64.cpp:167-190 | Arithmetic is two's complement modulo 2^32, a quotient is rounded toward zero and missing exactly where none fits, comparisons give 1 or 0. |
| Scoping.LowersExactly | 03-compiler/oglang/ir/lower.cpp:155-582 | Lowering succeeds if and only if every name read or assigned is a parameter or was declared earlier in the text. |
| Scoping.DividesExactly | 03-compiler/oglang/ir/lower.cpp:367-582 | The code divides if and only if the source does. |
| LoweringProof.StmtShape | 03-compiler/oglang/ir/lower.cpp:155-365 | Lowering only appends, with values and labels from the counters, each label marked once. |
| LoweringProof.SimStmt | 03-compiler/oglang/ir/lower.cpp:155-365 | Running a statement's code does what the statement does, whatever code surrounds it, and leaves every name that was followed in its cell. |
| LoweringProof.LoweringPreservesMeaning | 03-compiler/oglang/ir/lower.cpp:9-365 | For every function in which each name read is followed to the cell lowering reads (renaming lets, redeclared names and repeated parameters included): the code returns v if and only if the source does, faults if and only if it faults, runs off the end if and only if it does. |
| LoweringProof.TracedIsTraceable | 03-compiler/oglang/ir/lower.cpp:155-365 | A computable test that follows names through branches, early returns and loops to a fixed point decides that a function is one of these. |
| OnceDeclared.WellDeclaredIsTraceable | 03-compiler/oglang/ir/lower.cpp:159-163 | So is every function that declares each name once with an initialiser that is not a bare name, even one that reads names that may have no value. |
| LoweringProof.NeverDone | 03-compiler/oglang/types/type_checker.cpp:506-526 | A block accepted as always returning never completes without a return or a fault. |
| LoweringProof.AcceptedExactly | 03-compiler/oglang/types/type_checker.cpp:506-526 | The check accepts exactly the bodies all of whose tail statements are returns. |
| LoweringProof.NeverRunsOff | 03-compiler/oglang/types/type_checker.cpp:506-526 | The code of such a function never runs off its end. |
| LoweringProof.RenamingLetIsAnAlias | 03-compiler/oglang/ir/lower.cpp:159-163 | With a bare-variable let the source returns its argument and the code returns 5. |
| LoweringProof.RedeclaredNameIsLost | 03-compiler/oglang/ir/lower.cpp:159-163 | With a name declared again in a branch not taken the source returns 1 and the code reads a cell never written. |
| RegAlloc.Analyze | 03-compiler/oglang/analysis/liveness.cpp:8-37 | Each value's range runs from its first to its last mention. |
| RegAlloc.BuildGraph | 03-compiler/oglang/analysis/interference.cpp:8-25 | Two values are joined if and only if their ranges overlap. |
| RegAlloc.Simplify | 03-compiler/oglang/codegen/register_allocator.cpp:67-105 | Every value is stacked once; one with fewer than four remaining neighbours is stacked as such whenever the graph allows it. |
| RegAlloc.Select | 03-compiler/oglang/codegen/register_allocator.cpp:107-143 | Colours the stack so that interfering values never share a register and each has the first register its neighbours leave free, and gives the others distinct slots. |
| RegAlloc.PlaceGroups | 03-compiler/oglang/codegen/register_allocator.cpp:39-49 | Array elements get consecutive slots in index order. |
| RegAlloc.Allocate | 03-compiler/oglang/codegen/register_allocator.cpp:6-146 | Proper first-free colouring, exactly one home for every value, distinct slots, contiguous arrays, and no spill beyond the forced ones when the graph can be simplified away. |
| ArrayAccess.ElementAddressExactly | 03-compiler/oglang/ir/lower.cpp:50-92 | The code of an index traps outside the bounds; inside them it computes the address of that element's slot if and only if the index is below 2^28, where eight times it still fits 32 bits. |
| ArrayAccess.ArrayElements | 03-compiler/oglang/codegen/x86_64.cpp:65-80 | Element i lies exactly 8*i below element 0, and the cells of different elements, of one array or two, do not overlap. |
| Codegen.Generate | 03-compiler/oglang/codegen/x86_64.cpp:206-710 | The loop over instructions emits the prologue and one block for each instruction. |
| CodegenProof.ArithmeticEffect | 03-compiler/oglang/codegen/x86_64.cpp:167-190 | The two-address sequence computes the operation, also when the destination is the right operand. |
| CodegenProof.ComparisonEffect | 03-compiler/oglang/codegen/x86_64.cpp:447-478 | Compare, set byte and mask give 0 or 1 as the operator says. |
| CodegenProof.PrologueEffect | 03-compiler/oglang/codegen/x86_64.cpp:234-252 | Pushing and popping puts every register parameter in its home, even when a home is another's source register. |
| CodegenProof.StepSim | 03-compiler/oglang/codegen/x86_64.cpp:254-710 | One instruction's block does to the homes of live values what the instruction does to values. |
| CodegenProof.AllocationPreservesMeaning | 03-compiler/oglang/codegen/x86_64.cpp:206-710 | For any windows over the values that are closed over jumps and in which nothing writes a value's home for another, the machine program returns what one cell for each value returns. |
| CodegenProof.MachineResultIsMeant | 03-compiler/oglang/codegen/x86_64.cpp:206-710 | Conversely a result of the machine program is the code's result unless the code faults or runs off. |
| Stretching.StretchIsLeast | 03-compiler/oglang/analysis/liveness.cpp:8-37 | A range stretched over the loops it meets is the smallest range that no back jump leaves. |
| Stretching.KeptIsCompilable | 03-compiler/oglang/analysis/interference.cpp:8-25 | A colouring in which nothing writes a value's home between its last mention and the end of its loops is all that emission needs. |
| Stretching.QuietIsKept | 03-compiler/oglang/analysis/interference.cpp:8-25 | Every proper colouring is such a one when the instructions in those gaps write only values that interfere anyway. |
| Compiler.FirstMentionDefines | 03-compiler/oglang/analysis/liveness.cpp:8-37 | In code whose uses are defined, the first mention of a value writes it. |
| Compiler.LoopFreeIsForward | 03-compiler/oglang/ir/lower.cpp:331-365 | Code lowered from a body without loops only jumps forward. |
| Compiler.LoopFreeIsInScope | 03-compiler/oglang/ir/lower.cpp:331-365 | Every such function is in the scope of the whole-compiler theorem. |
| Compiler.QuietLoopsAreKept | 03-compiler/oglang/analysis/liveness.cpp:8-37 | Whatever the allocator does, it holds every value over its loops when the gaps are quiet: a condition on the code alone. |
| Compiler.LoweredIsCompilable | 03-compiler/oglang/ir/lower.cpp:9-365 | Lowered code with any allocation the allocator makes meets every hypothesis of the allocation theorem. |
| Compiler.CompilerIsCorrect | 03-compiler/oglang/codegen/x86_64.cpp:206-710 | From source to machine: the source returns v if and only if the program does, as long as the source neither faults nor runs off. |
| Compiler.Compile | 03-compiler/oglang/codegen/register_allocator.cpp:6-146 | The composed passes succeed exactly for the functions whose names are known where they are mentioned and that do not divide; the program is what the passes give and is right on every function in scope. |
| LoopRanges.LoweredCode | 03-compiler/oglang/ir/lower.cpp:284-365 | The witness function lowers to the witness code. |
| LoopRanges.EveryCompilationReturns2 | 03-compiler/oglang/codegen/register_allocator.cpp:67-143 | Whatever ranges, graph and allocation the passes come to for it, the machine program returns 2 for the argument 2. |
| LoopRanges.OnlyKeepingMissing | 03-compiler/oglang/analysis/liveness.cpp:10-35 | Every other hypothesis of the correctness theorem holds of it. |
| LoopRanges.MiscompiledLoop | 03-compiler/oglang/analysis/liveness.cpp:10-35 | The compiler, run on this function, gives a program that returns 2 where the source returns 14. |
| ModuleOrder.CycleSearch.Dfs | 03-compiler/oglang/main.cpp:399-433 | A visit either finds a real cycle or blackens the module after everything it imports. |
| ModuleOrder.CycleSearch.Search | 03-compiler/oglang/main.cpp:394-444 | The search reports a cycle if and only if the imports have one. |
| ModuleOrder.OrderedIsAcyclic | 03-compiler/oglang/main.cpp:446-451 | An order with dependencies first excludes every cycle. |
| ModuleOrder.SomeReady | 03-compiler/oglang/main.cpp:475-476 | On an acyclic graph some module is ready in every round. |
| ModuleOrder.Kahn | 03-compiler/oglang/main.cpp:452-483 | The order names each module once, dependencies first, always the lowest ready module, even with repeated imports. |
| ModuleOrder.CompileOrder | 03-compiler/oglang/main.cpp:388-483 | An order exists, and is complete, if and only if there is no cycle. |
| Frames.Reserved | 22-os/memory/memory.cpp:58-71 | Exactly the frames that hold a byte of the first mebibyte or of the kernel are reserved. |
| Frames.FrameAllocator.constructor | 22-os/memory/memory.cpp:41-80 | At boot exactly those frames are taken. |
| Frames.FrameAllocator.AllocPage | 22-os/memory/memory.cpp:82-98 | Takes the lowest free frame, never one of the first mebibyte or of the kernel's image, or answers 0 exactly when none is free. |
| Frames.FrameAllocator.FreePage | 22-os/memory/memory.cpp:100-128 | Frees a taken frame and ignores zero, out-of-range, free and reserved ones. |
| Frames.BitmapDetermined | 22-os/memory/memory.cpp:11-37 | Equal sets of taken frames mean equal bitmaps. |
| AddressSpaces.Paging.CreateSpace | 22-os/paging/paging.cpp:70-95 | A directory with the kernel's tables and nothing else, or nothing changed. |
| AddressSpaces.Paging.MapUserPage | 22-os/paging/paging.cpp:97-143 | The page translates to the frame, every other address translates as before, the frames taken are exactly a missing table; refused for misaligned or kernel addresses or when a needed table finds no frame, with nothing changed. |
| AddressSpaces.Paging.DestroySpace | 22-os/paging/paging.cpp:149-165 | Gives back exactly the directory and its private tables, never the kernel's space. |
| PageTables.SpaceDistinct | 22-os/paging/paging.cpp:97-143 | In a space whose frames are taken once, tables are distinct and none is the directory. |
| PageTables.AddressSplit | 22-os/paging/paging.cpp:25-26 | The two indices and the offset make up the address, ten, ten and twelve bits. |
| PageTables.WaySamePage | 22-os/paging/paging.cpp:25-26 | Two addresses lead to one entry if and only if they are on one page. |
| Loading.BuildFlat | 22-os/scheduler/scheduler.cpp:264-310 | Fails exactly with fewer than four free frames, then with every frame as it was; otherwise exactly the code and the stack page are mapped, holding the code padded with zeros and zeros. |
| TaskImages.FlatImageReads | 22-os/scheduler/scheduler.cpp:264-310 | A flat task reads its code from 0x1000000 on, then zeros, a page of zeros behind it, both writable, and nothing else is mapped. |
| Elf.ValidateAndPlan | 22-os/elf/elf.cpp:62-267 | Accepts exactly the images with a supported header whose load segments lie in the file and the window, do not overlap, fit eight pages and contain the entry point; never reads outside the image. |
| Elf.CheckSegment | 22-os/elf/elf.cpp:140-239 | A further segment passes if and only if all of them together still fit. |
| Elf.DisjointMeans | 22-os/elf/elf.cpp:200-212 | Two segments pass the overlap test if and only if the bytes of one end before the other begins. |
| ElfFormat.PlanReadsBack | 22-os/elf/elf.cpp:62-190 | Every plan written as an ELF32 file in the layout of the System V ABI is read back as that plan. |
| ElfFormat.ValidateWritten | 22-os/elf/elf.cpp:62-267 | Such a file is accepted if and only if its plan is good, and for that plan. |
| ElfFormat.ForeignRefused | 22-os/elf/elf.cpp:62-130 | An accepted header starts with the ELF identification and names a 80386 executable. |
| ElfLoading.BuildElf | 22-os/scheduler/scheduler.cpp:345-441 | Fails exactly when frames are short, with every frame as it was; otherwise every planned page and the stack are mapped and filled. |
| ElfLoading.ElfImageLoaded | 22-os/scheduler/scheduler.cpp:365-422 | For every accepted plan and every non-empty segment: all its addresses read as the file says, zeros after the file's bytes, if and only if no later empty segment has its address or the file's bytes of its first page are zero. |
| TaskImages.ElfByteReads | 22-os/scheduler/scheduler.cpp:386-418 | Every byte of a segment that nothing hides reads as the file's, or as zero behind the file's bytes. |
| TaskImages.ElfPageProtected | 22-os/scheduler/scheduler.cpp:413-418 | A page nothing hides reads as the file says and may be written if and only if its segment may. |
| TaskImages.ElfStackReads | 22-os/scheduler/scheduler.cpp:424-441 | The stack page reads as zeros and may be written. |
| TaskImages.ElfNothingElse | 22-os/scheduler/scheduler.cpp:365-422 | No other private address is mapped. |
| ElfLoading.HidingImageAccepted | 22-os/elf/elf.cpp:62-267 | A concrete 116-byte image with such an empty segment is accepted with the plan below. |
| ElfLoading.EmptySegmentHides | 22-os/elf/elf.cpp:200-230 | With the plan of that image the first byte reads 0 where the file has 0x7F. |
| Ownership.ClaimsSame | 22-os/scheduler/scheduler.cpp:185-204 | Tasks whose frames are untouched own what they owned. |
| Ownership.NoSharedFrame | 22-os/paging/paging.cpp:97-143 | No frame is reachable from the private addresses of two tasks, nor a heap page from any. |
| KernelTasks.Kernel.ReclaimSlot | 22-os/scheduler/scheduler.cpp:185-204 | Gives back exactly what the slot's last task owned and leaves every other task's memory alone. |
| KernelTasks.Kernel.CreateTask | 22-os/scheduler/scheduler.cpp:239-253 | Takes a slot and a pid, or changes nothing when there is no slot. |
| KernelTasks.Kernel.CreateUserTask | 22-os/scheduler/scheduler.cpp:255-332 | Refused exactly for large code, no slot or fewer than four frames, with table and bitmap unchanged; ownership is kept and the task's memory is as built. |
| KernelTasks.Kernel.CreateElfTask | 22-os/scheduler/scheduler.cpp:334-463 | The same for an ELF image: refused exactly for an invalid image, no slot or too few frames, with table and bitmap unchanged. |
| KernelTasks.Kernel.Isolation | 22-os/scheduler/scheduler.cpp:42-48 | In every valid kernel two user tasks share no frame. |
| KernelTasks.Kernel.HeapPage | 22-os/heap/heap.cpp:90-95 | The heap takes a frame of its own, ownership kept; none exactly when none is free. |
| KernelTasks.Kernel.OnTick | 22-os/scheduler/scheduler.cpp:473-486 | The table, current task and states after a tick. |
| KernelTasks.Kernel.LeaveProcessor | 22-os/scheduler/scheduler.cpp:465-516 | Exit, termination and blocking of the current task, ownership kept. |
| KernelTasks.Kernel.UnblockTask | 22-os/scheduler/scheduler.cpp:518-525 | Wakes the task if its pid is blocked; the law over runs is `WokenIsPicked`. |
| Scheduling.NextIsNearest | 22-os/scheduler/scheduler.cpp:143-154 | The pick is the nearest runnable slot going round. |
| Scheduling.AtMostOneRunning | 22-os/scheduler/scheduler.cpp:156-178 | Over every run a task is Running if and only if it is the current one. |
| Scheduling.ReadyIsPicked | 22-os/scheduler/scheduler.cpp:143-178 | A Ready task becomes current within as many picks as it is slots away, always fewer than ten, whatever the others do. |
| Scheduling.DeadForever | 22-os/scheduler/scheduler.cpp:206-216 | A pid once dead is never current or runnable again and cannot be unblocked, even after its slot is reused. |
| SchedulingLaws.StepExactly | 22-os/scheduler/scheduler.cpp:143-178 | What every event does to every slot: the nearest runnable slot gets the processor, the one that leaves is Ready, Blocked or Dead as the event says, a woken slot is Ready, a new task is Ready in its slot, and nothing else changes. |
| SchedulingLaws.RunStepExactly | 22-os/scheduler/scheduler.cpp:465-525 | The same at every state of every run from boot. |
| SchedulingLaws.SlotForNewExactly | 22-os/scheduler/scheduler.cpp:239-245 | A creation finds a slot if and only if one is unused or dead, the first unused one before the first dead one. |
| SchedulingLaws.WokenIsPicked | 22-os/scheduler/scheduler.cpp:518-525 | In every run a blocked task that is woken becomes current within fewer than ten picks. |
| HeapLayout.AlignUpHolds | 22-os/heap/heap.cpp:41-43 | The rounded size holds the request if and only if the request is at most 2^32 - 8. |
| HeapLayout.AllocatedChain | 22-os/heap/heap.cpp:57-84 | Allocation keeps the tiling, leaves no free neighbours and makes exactly the block taken live. |
| HeapLayout.FreedChain | 22-os/heap/heap.cpp:193-215 | Freeing keeps the tiling, leaves no free neighbours and takes out exactly the freed payload. |
| HeapLayout.FreeUndoesAlloc | 22-os/heap/heap.cpp:57-215 | Freeing what was just allocated restores the blocks exactly. |
| HeapLayout.LivePayloadsDisjoint | 22-os/heap/heap.cpp:140-174 | Live payloads are 8-aligned, inside a page, and at least a header apart. |
| HeapLayout.EmptyHeapIsWhole | 22-os/heap/heap.cpp:196-215 | A heap with nothing live is one whole free block a page. |
| HeapLayout.CounterFits | 22-os/heap/heap.cpp:171-194 | The 32-bit counter of allocated bytes never wraps. |
| HeapMemory.Redraw | 22-os/heap/heap.cpp:73-83 | Replacing a run of blocks by one filling the same bytes keeps all links agreeing. |
| KernelHeap.Heap.SplitIfWorthwhile | 22-os/heap/heap.cpp:62-84 | The headers and links after a split, or no change. |
| KernelHeap.Heap.FindFreeBlock | 22-os/heap/heap.cpp:115-131 | First fit: everything before the block found is used or too small. |
| KernelHeap.Heap.GrowHeap | 22-os/heap/heap.cpp:90-113 | A fresh page becomes one free block at the head of the list. |
| KernelHeap.Heap.KMalloc | 22-os/heap/heap.cpp:140-174 | Null exactly for zero, or when nothing fits and no page helps; otherwise exactly one new live payload, at least the request up to 2^32 - 8 and less than a header and 8 bytes more than it rounded up, the invariant kept. |
| KernelHeap.Heap.KFree | 22-os/heap/heap.cpp:176-216 | Takes exactly that payload out of the live ones and out of the counter, or changes nothing for null and free blocks. |
| KernelHeap.LiveIsBlock | 22-os/heap/heap.cpp:176-191 | Every live payload may be freed. |
| Crc.ShiftsLinear | 08-storage/wal/crc32.cpp:13-15 | Shifting bits distributes over exclusive or. |
| Crc.TableStep | 08-storage/wal/crc32.cpp:29-31 | One look-up does the work of eight bit steps. |
| Crc.InitTable | 08-storage/wal/crc32.cpp:10-19 | The table holds the eight-step image of every byte. |
| Crc.Crc32 | 08-storage/wal/crc32.cpp:23-33 | The table-driven checksum is the bit-at-a-time one of section 8 of RFC 1952 on every input. |
| Crc.CheckValue | 08-storage/wal/crc32.cpp:23-33 | The checksum of the ASCII digits 1 to 9 is 0xCBF43926, the check value of this CRC. |
| Crc.UpdateInjective | 08-storage/wal/crc32.cpp:29-31 | The update is injective in the running value and in the byte. |
| Crc.OneByteChangesChecksum | 08-storage/wal/crc32.cpp:23-33 | Changing any one byte changes the checksum. |
| Wal.WriteAheadLog.Append | 08-storage/wal/wal.cpp:43-58 | The file grows by the frame, or by the part of it that reached the disk. |
| Wal.WriteAheadLog.RecoverRecords | 08-storage/wal/wal.cpp:60-101 | The records read are those up to the first incomplete or damaged frame. |
| Wal.CutRecovers | 08-storage/wal/wal.cpp:60-101 | A log cut at any byte recovers exactly the records wholly before the cut. |
| Wal.WholeIsLongest | 08-storage/wal/wal.cpp:68-86 | Those are the longest prefix of records that fits in the bytes left. |
| Wal.CorruptionStops | 08-storage/wal/wal.cpp:88-95 | Changing any one byte of record j's checksum or payload recovers exactly the records before j. |
| Wal.TornTailHidesLaterRecords | 08-storage/wal/wal.cpp:43-58 | Whatever is appended behind a torn frame without filling it is not recovered. |
| Wal.TailHiddenExactly | 08-storage/wal/wal.cpp:60-101 | Whatever bytes follow a whole log, of any length, exactly its records are recovered if and only if the bytes do not begin like a frame with a right checksum. |
| Wal.ShortTornTailMisread | 08-storage/wal/wal.cpp:60-86 | A record torn after one byte and a later empty record together do begin like one. |
| WireFormats.FrameReadsExactly | 08-storage/wal/wal.cpp:60-101 | A frame is read if and only if a length, the checksum and the payload stand there in this order. |
| KeyValue.EncodedApplies | 08-storage/kv/kv_store.cpp:12-62 | Applying an encoded operation does what the operation means. |
| WireFormats.RecordAppliesExactly | 08-storage/kv/kv_store.cpp:39-62 | A record changes the map as the operation it encodes says, and a record that encodes none changes nothing. |
| WireFormats.RecordKinds | 08-storage/kv/kv_store.cpp:12-27 | A put starts with the byte 0, a deletion with 1. |
| KeyValue.CrashRefinement | 08-storage/kv/kv_store.cpp:33-79 | For every run and every cut of the file, reopening gives the map after the operations wholly on disk. |
| KeyValue.DurableIsLongest | 08-storage/kv/kv_store.cpp:65-79 | Those operations are the longest prefix on disk. |
| KeyValue.CorruptionKeepsEarlierOps | 08-storage/kv/kv_store.cpp:33-37 | A damaged checksum or payload loses that operation and all later ones, and nothing before it. |
| KeyValue.KVStore.constructor | 08-storage/kv/kv_store.cpp:29-37 | Opening replays the file; after a whole log the store goes on as if never closed. |
| KeyValue.KVStore.PutKey | 08-storage/kv/kv_store.cpp:65-71 | Logged before applied; on failure the map is unchanged and the file holds a part of the frame. |
| KeyValue.KVStore.Remove | 08-storage/kv/kv_store.cpp:73-79 | The same for removal. |
| GitCodec.TreeRoundTrip | 13-developer-ecosystem/oggit/object_store.cpp:253-292 | A serialized tree parses back to its entries sorted by name, all of them, names and ids of any bytes. |
| GitCodec.TreeInjective | 13-developer-ecosystem/oggit/object_store.cpp:253-267 | Equal serialized bytes mean the same entries in whatever order, so hashing them identifies the tree. |
| GitCodec.ReadTree | 13-developer-ecosystem/oggit/object_store.cpp:269-292 | The parsing loop accepts exactly a count, that many entries and nothing after. |
| GitCodec.BeforeMeans | 13-developer-ecosystem/oggit/object_store.cpp:255-257 | Names are ordered by their first different byte, a prefix first. |
| WireFormats.EntryParsesExactly | 13-developer-ecosystem/oggit/object_store.cpp:277-289 | An entry is read if and only if its name, a flag and its id stand there, any flag but zero meaning a directory. |
| GitCodec.CommitRoundTrip | 13-developer-ecosystem/oggit/object_store.cpp:294-326 | A serialized commit parses back, every parent in order. |
| WireFormats.CommitLayout | 13-developer-ecosystem/oggit/object_store.cpp:294-304 | The offset of the tree, the parents and the texts of a commit. |
| GitObjects.SplitPath | 13-developer-ecosystem/oggit/tree_builder.cpp:15-32 | The loop gives the names between slashes, empty ones skipped. |
| GitObjects.SplitJoin | 13-developer-ecosystem/oggit/tree_builder.cpp:15-32 | Splitting undoes joining on every well-formed path. |
| GitObjects.SplitAtSlash | 13-developer-ecosystem/oggit/tree_builder.cpp:15-32 | On every string a slash separates: the names of a/b are those of a and those of b; with `SplitPlain` this says what splitting is. |
| GitTrees.FlattenTree | 13-developer-ecosystem/oggit/merge.cpp:57-77 | Succeeds if and only if every tree below is readable, and then the map holds exactly the tree's files. |
| GitBuild.InsertAt | 13-developer-ecosystem/oggit/tree_builder.cpp:34-49 | What one insertion changes at every path, directories winning over files. |
| GitBuild.WriteTrie | 13-developer-ecosystem/oggit/tree_builder.cpp:51-63 | The tree written holds the trie's files, is readable and canonical. |
| GitBuild.BuildTree | 13-developer-ecosystem/oggit/tree_builder.cpp:67-75 | For every file map the tree holds exactly the files under which no other file lies. |
| GitBuild.NothingDropped | 13-developer-ecosystem/oggit/tree_builder.cpp:37-47 | On files none of which lies under another, the tree flattens to the map. |
| GitBuild.SameTree | 13-developer-ecosystem/oggit/object_store.cpp:253-267 | Two built trees with the same files are the same tree. |
| GitBuild.LessMeans | 13-developer-ecosystem/oggit/diff.cpp:100-102 | The order of paths is by the first different character, a prefix first. |
| GitHistory.AllAncestors | 13-developer-ecosystem/oggit/merge.cpp:31-55 | Exactly the commits reachable over all parents, each with its shortest distance. |
| GitHistory.LowestExists | 13-developer-ecosystem/oggit/merge.cpp:130-151 | Whenever histories meet there is a common ancestor from which no other common ancestor descends. |
| GitHistory.ChooseBase | 13-developer-ecosystem/oggit/merge.cpp:121-160 | None if and only if nothing is common; otherwise the least undominated common ancestor. |
| GitHistory.BaseUnique | 13-developer-ecosystem/oggit/merge.cpp:153-160 | The base does not depend on the order of the arguments. |
| GitMerge.SlashPrefix | 13-developer-ecosystem/oggit/merge.cpp:79-86 | A path's string with a slash begins another's if and only if the other lies below it. |
| GitMerge.LowerBoundFinds | 13-developer-ecosystem/oggit/merge.cpp:81-86 | The lower bound of a prefix has the prefix if and only if any key has. |
| GitMerge.ThreeWayMeans | 13-developer-ecosystem/oggit/merge.cpp:204-241 | A path clashes if and only if both sides changed it differently; every other change is kept, and the conflict shows both sides and their kind. |
| GitMerge.MergePath | 13-developer-ecosystem/oggit/merge.cpp:186-242 | The branches come to the three-way rule, with file/directory conflicts first. |
| GitMerge.MergeFiles | 13-developer-ecosystem/oggit/merge.cpp:178-242 | Merged files and conflicts at every path of the three maps. |
| GitMerge.OutcomeSymmetric | 13-developer-ecosystem/oggit/merge.cpp:195-241 | Swapping the sides gives the same files, or the same conflicts with sides swapped. |
| GitMerge.MergedPrefixFree | 13-developer-ecosystem/oggit/merge.cpp:190-202 | Without conflicts no merged file lies under another, so the builder drops none. |
| GitMerge.MergeCommits | 13-developer-ecosystem/oggit/merge.cpp:90-255 | Each outcome if and only if its condition on the three trees holds, so there is exactly one right result: a missing commit, no common history, up to date, fast-forward, an unreadable tree, exactly the conflicting paths with their sides, or the tree that holds at every path what the three-way rule says. |
| GitMerge.MergeSymmetric | 13-developer-ecosystem/oggit/merge.cpp:90-255 | Merging diverged commits the other way round gives the same tree, the same failure, or the same conflicts with the sides swapped. |
| GitMerge.ContainedSymmetric | 13-developer-ecosystem/oggit/merge.cpp:107-119 | When one commit contains the other, up to date one way is fast-forward the other way. |
| GitDiff.EmitAll | 13-developer-ecosystem/oggit/diff.cpp:19-43 | Reports every file below an entry once, except below directories that cannot be loaded. |
| GitDiff.DiffRecursive | 13-developer-ecosystem/oggit/diff.cpp:45-88 | Reports each changed path below two trees once, skipping equal subtrees without loss and everything below a pair of directories of which one cannot be loaded. |
| GitDiff.DiffTrees | 13-developer-ecosystem/oggit/diff.cpp:92-104 | The list is sorted by path and names exactly the changed paths, with what happened to them, that lie below no unreadable directory. |
| GitDiff.PatchGivesNew | 13-developer-ecosystem/oggit/diff.cpp:92-104 | Applying the diff to the old files gives the new files if and only if no changed path lay below an unreadable directory, in particular for readable trees. |
| GitDiff.LostDirectoryHidesChange | 13-developer-ecosystem/oggit/diff.cpp:45-50 | A new file in a readable tree that is not reported because the old directory beside it is lost. |
| NetLab.Topology.EnterSwitch | 24-network-simulator/netlab/topology.cpp:127-149 | The source is learned and the next hops are those of the updated table. |
| NetLab.KnownIsNext | 24-network-simulator/netlab/topology.cpp:131-137 | On the way to the owner of an address, a learned port is the next hop. |
| NetLab.LearningChangesNothing | 24-network-simulator/netlab/topology.cpp:127-149 | For every accepting node, the switches carry the frame there if and only if flooding would. |
| NetLab.SpreadComplete | 24-network-simulator/netlab/topology.cpp:88-150 | The search enters every node the frame reaches, from the neighbour it reaches it by. |
| NetLab.Topology.DeliverFrom | 24-network-simulator/netlab/topology.cpp:75-153 | After any history the frame is taken by exactly the hosts it is for that flooding would reach, and on exactly the router interfaces it is for that first face the neighbour it comes from; every switch it came to has learned that neighbour and nothing else, and table entries still point toward their owners. |
| NetLab.ReplyRetraces | 24-network-simulator/netlab/topology.cpp:127-149 | At every switch on the way a frame took, a reply to its source goes back the way it came and nowhere else. |
| NetLab.Topology.SendFrame | 24-network-simulator/netlab/topology.cpp:155-162 | The same from any host or router on all its links; nothing from a switch or an unknown node. |
| NetLab.Topology.SendFrameFromInterface | 24-network-simulator/netlab/topology.cpp:164-181 | The same from one link of a router; nothing if it is not linked. |

## Left out

- RaftSafety.ElectionSafety: assumes fewer than 2^64 events and at most 2^30 nodes, because the term is a 64-bit number that would wrap and node ids share their space with response ports.
- The pseudo-random timeouts, fault rates and partitions of the simulated network: timeouts and the choice of packets are arbitrary in the model. Raft liveness is not claimed.
- LoweringProof.LoweringPreservesMeaning: states nothing for functions that read a name which some path leaves in another cell, even if that path is never taken; which paths are taken is undecidable. `RenamingLetIsAnAlias` and `RedeclaredNameIsLost` show both ways it fails.
- CodegenProof.AllocationPreservesMeaning: needs every value's home left alone up to the end of the loops the value is used in; that this fails in general is `MiscompiledLoop`. Paths never taken count, as above.
- Compiler.CompilerIsCorrect: is stated for code without division, because division loads its divisor into ecx, a register of the allocator's pool, without saving it and before it reads the left operand (03-compiler/oglang/codegen/x86_64.cpp:419-420).
- Emission of 64-bit pointers, structs, calls and inline assembly, and the assembler text: the machine model runs one block of instructions for each IR instruction. Array indexing is modelled up to the address (`ArrayAccess`).
- The lexer, the parser and the rest of the type checker: there is no printer or second definition of the grammar to hold them against, and the types they check carry no run-time meaning in this model.
- Contents of zeroed directories and identity tables, CR3 loads, invlpg, the TSS and interrupt frames: only the state change they stand for is modelled. Copying and zeroing a page byte by byte is one assignment.
- Frames.Reserved: takes the kernel's end as a natural number; within a page of 2^32 the source's rounding would wrap.
- The page bitmap's packing into bytes: one bit is one element of an array.
- Scheduling.DeadForever: assumes fewer than 2^32 pids are handed out, because pids wrap.
- Scheduling.ReadyIsPicked: assumes that the idle task never exits or blocks.
- Which of several errors an invalid ELF image is rejected with.
- KernelHeap.Heap.KFree: takes null or a pointer to a block still in the heap's lists; the header of a block that was merged away stays in memory, and freeing it again is undefined in the source.
- KernelHeap.Heap.KMalloc: the page the frame allocator would hand out is a parameter, assumed not to be a heap page already.
- Wal.CorruptionStops: says nothing of damage to a length field, which can make a later frame be read out of step.
- KeyValue.CrashRefinement: assumes every encoded operation is shorter than 2^32 bytes, as the lengths are cast to 32 bits.
- Wal.TornTailHidesLaterRecords: covers torn tails whose length field is whole; what any other tail does is `TailHiddenExactly`.
- File streams, directories, checkout, refs, the index and the forge server: I/O plumbing.
- SHA-256: an id is its content, which is the hash's injectivity on top of `TreeInjective` and `CommitRoundTrip`; trees are required to be well-formed.
- Paths are sequences of names; `SplitJoin`, `SlashPrefix` and `LowerBoundFinds` tie them to the strings. The trie is a value, not updated in place, and maps are walked in any order instead of sorted order; the order of the reported conflicts is not modelled.
- GitMerge.MergeCommits: requires the trees of stored commits to be well-formed (names distinct, non-empty and without slashes) and takes the order of hexadecimal ids as a parameter.
- GitDiff.DiffTrees: requires distinct well-formed names in the trees it reads; with repeated names the source keeps the last entry of each.
- NetLab.Topology.DeliverFrom: needs a network in which there is at most one way between two nodes through switches (routers may close loops), unique addresses and honest sources; the received lists are sets.
- NetLab.Topology.SendFrame: has the same hypotheses, as has `NetLab.Topology.SendFrameFromInterface`.
- The blockchain, graphics, numeric and teaching parts of the repository: conservation laws or floating point only.
