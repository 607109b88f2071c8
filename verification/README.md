# Models of the SPU test suite and its allocator

This project models four parts of the repository in Dafny and proves what they are for.

**talloc** (`lib/talloc/talloc.c`). `TallocLinks.Memory` holds the struct fields of all allocated chunks, one map a
field, and a ghost `Heap` that these fields represent: the forest of chunks, the reference handles of each chunk, the
destructors, and the chunks that are being freed. An address is in the domain of every field exactly while its chunk is
allocated, so that every field access of the model is proved to read live memory. Each C function is a method that makes
the same assignments in the same order, and its contract says what becomes of the `Heap`. What talloc promises is then
proved of heaps: what exactly a free removes, where what is left ends up, what an unlink takes away, that realloc renames
a chunk, that totals are conserved, and that every run of calls keeps the heap good.

**The SPE protocols** (`benchmarks/04-gang-sched/01-dual-ring.c`, `tests/20-scheduler/sched_multiple.c`,
`tests/09-mailbox/02-mbox-multiple.c` and `03-mbox-multiple+sched.c`, `tests/07-lsmap/04-ppe-running.c`). `Spu` decodes
and executes the instructions that the machine programs in these files use, from the machine words on. Each protocol is
a transition system in which the SPEs execute single instructions, and the host, the memory flow controllers and the
scheduler take their own steps, in any interleaving. For each there is an invariant, a measure or a distance to the end,
and a theorem about every run from the start.

**The core dump parser** (`tests/11-coredump/parse-core.c`): the note format with a writer that it inverts, the checks of
single notes, the loop over a note section, the program headers of both ELF classes, and the whole way from the bytes of
a file to the answer.

**The test runner** (`bin/run-tests.c`, `bin/test.c`): the worklist that finds tests against the recursive walk over
the directory tree, and the cursor that moves over a configuration buffer against what the lines of the file say. The
buffer is one on the stack: it holds old bytes behind those of the file, the capabilities of a test are pointers into
it, and it is gone when `test_read_config` returns.

## Hypotheses

- A destructor is a fixed verdict: none, accept, refuse, or the destructor of a reference handle.
- `null_context` is NULL. `malloc` and `realloc` answer NULL or an address that is not in use (`realloc` perhaps the old
  one).
- The theorems about references need an owner graph (parent to child, holder to target) without a cycle. `Good` says so,
  `StealGoodIff` and `ReferenceGoodIff` say exactly which calls keep it, and only references to the freed chunk itself
  may make a cycle in `FreePtr`.
- `LeftOk`: the chunk that is freed keeps pointing to its left neighbour while its children are freed. If that neighbour
  is a reference handle it may be freed on the way. `talloc_free` is proved for all heaps in which the neighbour is no
  handle, or refers to nothing below the freed chunk, or in which below that chunk no destructor refuses and no
  reference leads from below to below, or in which the free does not get as far as the children. `TallocLeftNeighbour`
  shows heaps outside this condition in which the code reads freed memory, others in which it does not, and calls that
  lead to both.

## Where the code does not do what it is for

- `bin/test.c:79` keeps the pointer that `handle_testconf_token` passes, which leads into `buf`, a local array of
  `test_read_config` (line 219). `run_test` (`bin/run-tests.c:225-226`) calls `test_should_run` after that call has
  returned. As long as the buffer lives, each pointer leads to its word, also after all that `strtok` has written
  (`ReadConfig`). After the return the settings can be read exactly when no word of the lines for the test begins with
  `cap_` or `!cap_`; with such a word, and unless the test is disabled, the code reads the dead buffer, whatever
  capabilities there are (`StartTest`). `RootTest` shows it for the line `02-root: cap_root` of
  `tests/00-testsuite/tests.conf`. So that a test runs exactly when the capabilities it asks for are there holds of
  `ShouldRun` for live buffers, and of the program only for tests that are disabled or ask for none.
- `bin/test.c:238` does not use the length that `read` returns to end the text, and `buf` is not initialised. After a
  file of any length the loop goes on with what the bytes behind it held before. The result is that of the file when the
  file holds a NUL or the byte behind it is one (`FileAlone`). Otherwise it is that of the file exactly when the old
  bytes up to the next NUL add nothing to its last line and the lines behind it (`StaleIff`, and `StaleLinesIff` for
  files of whole lines). `StaleExample` is a file with a comment only, before old bytes that ignore the test.
- When neither the file nor the old bytes behind it hold a NUL, as with every text file of 4096 bytes or more (the
  comment in `bin/test.c:237`), the loop runs off the end of the buffer, and only then (`ReadConfig`).

## Where the code and its comments disagree

- `01-dual-ring.c:64-65`: the comments call the first word of the address the low half and the second the high half; the
  host (lines 244-245) and the channel writes (lines 87-88) have it the other way round, and so has the model.
- `02-mbox-multiple.c:81` and `03-mbox-multiple+sched.c:77`: the comment gives 0xc as the branch target, the word encodes
  0x8, which is where the message is read.
- `01-dual-ring.c:226` checks `threads[1].lsmap` in every round instead of that of the round; without failing maps this
  makes no difference.

## Model

| member | source | states |
|---|---|---|
| TallocSteps.ListRemove | lib/talloc/talloc.c:144-154 | the macro in terms of the next and prev fields, for a first, middle or last element |
| TallocSteps.ListAdd | lib/talloc/talloc.c:130-141 | the new element is the head, and the old head points back to it |
| TallocSteps.Detach | lib/talloc/talloc.c:375-383 | unlinking takes the chunk out of its parent's children, makes the next one first if it was first, and leaves its own old neighbours behind as the code does |
| TallocSteps.Steal | lib/talloc/talloc.c:418-468 | the chunk becomes the first child of the new parent or a root; nothing moves when the two are one chunk or it is the first child already |
| TallocWalks.ParentChunk | lib/talloc/talloc.c:160-172 | the walk over prev ends at the first sibling and yields the parent; all that it reads is live |
| TallocWalks.IsParent | lib/talloc/talloc.c:1502-1519 | 1 exactly when ptr is the chunk or lies above it, in every heap in which nothing above is adrift |
| TallocAlloc.Talloc | lib/talloc/talloc.c:192-232 | a new first child or root of the size asked for, without children, references and destructor, and no other chunk changed but for the child list of its parent; NULL, and nothing changed, for 0x10000000 bytes or more or when malloc fails |
| TallocAlloc.Reference | lib/talloc/talloc.c:305-324 | a new handle of 24 bytes is the first child of the context and the newest reference to ptr, and nothing else has changed |
| TallocAlloc.ReleaseReference | lib/talloc/talloc.c:262-267 | the handle leaves the list of its target |
| TallocEffects.StolenMoves | lib/talloc/talloc.c:418-468 | after a steal the chunk is the first child of its new parent, also when it was a later child of it; the others keep their order; nothing else has changed |
| TallocEffects.DropHandleGone | lib/talloc/talloc.c:262-267 | when a handle is freed its target and its holder lose it, and nothing else has changed |
| TallocFreeSteps.RunDestructor | lib/talloc/talloc.c:362-373 | a refusal puts the destructor back and changes nothing else; an acceptance removes it, and for a handle also the reference |
| TallocFree.Free | lib/talloc/talloc.c:330-411 | terminates, never reads a freed chunk, and satisfies FreeSpec: the newest reference goes first, a reference from below the chunk lets it start again, and otherwise the chunk is gone and the rest swept |
| TallocFree.FreeChildren | lib/talloc/talloc.c:387-406 | the loop empties the chunk: each child is freed, promoted to the holder of its newest reference, or given to what lies above |
| TallocFreeTheorems.FreePtr | lib/talloc/talloc.c:330-411 | talloc_free answers 0 exactly when no reference from elsewhere and no refusal stands in its way, and has then removed exactly what does not survive; else it answers -1 and has taken away just the references that it met |
| TallocFreeTheorems.FreedIsExact | lib/talloc/talloc.c:385-410 | of the ordinary chunks exactly those are left that a root or a refusing chunk reaches over parents and references without passing the freed one, and the owners of each of them are conserved |
| TallocFreeTheorems.FreeSpecMeans | lib/talloc/talloc.c:340-355 | when the answer is 0 and when it is -1, by induction over the references that are cut |
| TallocFreeCases.SurvivesWithoutReferences | lib/talloc/talloc.c:387-406 | without references exactly the chunks below the freed one go that have no refusing chunk at or above them |
| TallocFreeCases.WhereSurvivorsAre | lib/talloc/talloc.c:399-405 | without references a survivor keeps a surviving parent, and a topmost refusing chunk ends up below the former parent of the freed one, with its children |
| TallocFreeCases.CountDownAll | lib/talloc/talloc.c:340-355 | a chunk with n references answers -1 to n frees, which take them away from the newest to the oldest; only then can it be freed |
| TallocFreeCases.FreeChildrenPtr | lib/talloc/talloc.c:677-707 | the chunk stays where it is without children, and of the other chunks exactly the survivors are left |
| TallocZones.ReferenceRooted | lib/talloc/talloc.c:340-352 | under LeftOk, finding out whether a reference is held from below never reads freed memory |
| TallocZones.NothingAdrift | lib/talloc/talloc.c:400-403 | under LeftOk, as long as something below may refuse, the old neighbours of all chunks being freed are live |
| TallocLeftNeighbour.ReadsFreedMemory | lib/talloc/talloc.c:387-406 | in every heap where the only reference to the first child stands left of the freed chunk and the second child refuses, the second round asks for the parent of a chunk whose prev is freed |
| TallocLeftNeighbour.ReadsLiveMemory | lib/talloc/talloc.c:387-406 | in every such heap with these two children in the other order all walks of the free read live memory, although LeftOk does not hold |
| TallocLeftNeighbour.BuildUnharmed | lib/talloc/talloc.c:305-324 | six allowed calls lead to one of these |
| TallocLeftNeighbour.AdriftReads | lib/talloc/talloc.c:168-171 | the walk over prev from such a chunk reads a field of a chunk that has none |
| TallocLeftNeighbour.Build | lib/talloc/talloc.c:305-324 | six allowed calls lead to such a heap |
| TallocForest.AllocatedGood | lib/talloc/talloc.c:192-232 | a new chunk keeps a good heap good |
| TallocForest.StealGoodIff | lib/talloc/talloc.c:418-468 | a steal keeps a heap good exactly when the new parent is NULL, the chunk itself, or not owned by the chunk over any number of steps |
| TallocForest.StealForestIff | lib/talloc/talloc.c:449-451 | a steal keeps a forest a forest exactly when the new parent is not inside the subtree that is moved |
| TallocForest.ReferenceGoodIff | lib/talloc/talloc.c:305-324 | a reference keeps a heap good exactly when the holder is not owned by what it is to hold |
| TallocUnlink.Unreference | lib/talloc/talloc.c:477-499 | frees the newest handle that the context holds, or answers -1 and changes nothing |
| TallocUnlink.Unlink | lib/talloc/talloc.c:505-552 | the newest handle goes that the context holds; without one, a parent that goes is replaced by the holder of the newest reference; without a reference the chunk is freed or refuses; all other fields of all chunks stay; a good heap stays good |
| TallocUnlink.UnlinkRemovesOneOwner | lib/talloc/talloc.c:505-552 | the context disappears once from the multiset of owners of ptr and nobody else loses an owner; no owner, no effect; the last owner frees; a parent that goes is replaced by the holder of the newest reference |
| TallocUnlink.UnlinkFields | lib/talloc/talloc.c:505-552 | which handle leaves, and that every chunk left keeps its size, destructor, target and flag, its parent but for the chunk itself, and its child list but for the handle and the chunk |
| TallocRealloc.Realloc | lib/talloc/talloc.c:754-818 | free for size 0, a new chunk of that size for NULL, no effect for referenced chunks and failures, and else the chunk has its new address and size in the whole heap and nothing else has changed |
| TallocRealloc.PatchedRepresents | lib/talloc/talloc.c:800-814 | writing the four neighbouring fields renames the chunk in every link of the forest |
| TallocRealloc.RenamedContains | lib/talloc/talloc.c:754-818 | the new chunk lies above and below exactly what the old one lay above and below |
| TallocRealloc.RenamedGood | lib/talloc/talloc.c:754-818 | a moved chunk leaves a good heap good |
| TallocSize.TotalSize | lib/talloc/talloc.c:835-863 | the sum of the sizes of the chunk and all below it, as a size_t, with all flags as they were |
| TallocSize.TotalBlocks | lib/talloc/talloc.c:868-887 | the number of chunks at and below the chunk, as a size_t, with all flags as they were |
| TallocSize.NewChunkTotals | lib/talloc/talloc.c:192-232 | a new chunk adds its size and one block to the totals of exactly the chunks at and above its parent; its own total is its size |
| TallocSize.StealMovesTotal | lib/talloc/talloc.c:418-468 | a steal takes exactly the total of the moved subtree from the chunks above its old place only, adds it to those above its new place only, and leaves all other totals alone |
| TallocRuns.SetDestructor | lib/talloc/talloc.c:240-244 | only that destructor changes, and the heap stays good |
| TallocRuns.DereferencedCuts | lib/talloc/talloc.c:340-352 | a free that answers -1 has taken away some of the newest handles, one at least if there is one, and changed nothing else |
| TallocRuns.EffectChanges | lib/talloc/talloc.c:192-818 | what each of the eight calls changes, field by field |
| TallocRuns.Perform | lib/talloc/talloc.c:192-818 | each allowed call has its effect, changes just the fields that EffectChanges names, and keeps a good heap good |
| TallocRuns.PerformAll | lib/talloc/talloc.c:192-818 | every run of allowed calls, whatever malloc answers, leaves a good heap to which the effects of its calls lead |
| Spu.SplatBytes | benchmarks/04-gang-sched/01-dual-ring.c:82 | with the pattern 00010203, shufb copies word 0 to all words |
| Spu.ShiftWord | benchmarks/04-gang-sched/01-dual-ring.c:65 | shlqbyi by 4 moves every word one place up |
| Spu.MaskTopWord | tests/20-scheduler/sched_multiple.c:118-119 | fsmbi with f000 makes a quadword of ones and three zero words |
| Spu.RestoreSave | tests/09-mailbox/03-mbox-multiple+sched.c:123-130 | a context that is saved and restored is the same machine |
| SpuVectors.Il | benchmarks/04-gang-sched/01-dual-ring.c:126 | il r6,4 sets all four words of register 6 to 4 |
| SpuVectors.Ila | benchmarks/04-gang-sched/01-dual-ring.c:130 | ila r11,0x10203 sets all four words of register 11 |
| SpuVectors.Ai | benchmarks/04-gang-sched/01-dual-ring.c:145 | ai r3,r3,-1 takes one from each word, modulo 2^32 |
| SpuVectors.Lqa | benchmarks/04-gang-sched/01-dual-ring.c:123 | lqa loads the quadword at address 0x10 |
| SpuVectors.Stqa | benchmarks/04-gang-sched/01-dual-ring.c:135 | stqa stores the four words from address 0x20 on, and nothing else |
| SpuVectors.Shlqbyi | benchmarks/04-gang-sched/01-dual-ring.c:122 | shlqbyi r2,r1,4 moves every word one place up |
| SpuVectors.Shufb | benchmarks/04-gang-sched/01-dual-ring.c:134 | shufb with that pattern copies word 0 to all words |
| SpuVectors.Brnz | benchmarks/04-gang-sched/01-dual-ring.c:146 | brnz goes 14 words back exactly when word 0 of register 3 is not zero |
| SpuVectors.WrchAndStop | benchmarks/04-gang-sched/01-dual-ring.c:136-147 | wrch and stop change the program counter only |
| SpuVectors.Ceq | tests/09-mailbox/02-mbox-multiple.c:73 | ceq compares word by word |
| SpuVectors.Brz | tests/09-mailbox/02-mbox-multiple.c:74 | brz goes two words on exactly when word 0 of register 3 is zero |
| SpuVectors.Fsmbi | tests/20-scheduler/sched_multiple.c:119 | fsmbi r5,0xf000 sets the first word and clears the others |
| SpuVectors.Rdch | tests/20-scheduler/sched_multiple.c:122 | rdch delivers the message in word 0 and zeros in the others |
| SpuRing.Decoded | benchmarks/04-gang-sched/01-dual-ring.c:120-148 | every machine word of the program is the instruction of the listing |
| SpuRing.FillStore | benchmarks/04-gang-sched/01-dual-ring.c:235-249 | word 0 is the high half of the next address and word 1 the low half, word 4 the number of iterations, the code stands from word 12 on, and all else is zero |
| SpuRing.CreateGang | benchmarks/04-gang-sched/01-dual-ring.c:176-264 | a gang of any size is set up so that words 0 and 1 of each SPE are the address of the signal register of the next, and of the first for the last |
| SpuRing.ChannelsMean | benchmarks/04-gang-sched/01-dual-ring.c:86-92 | which channel sets which parameter of a command, and which one starts it |
| SpuRing.DmaMeans | benchmarks/04-gang-sched/01-dual-ring.c:86-92 | a command sends the word at its local address to the signal register whose address is high half times 2^32 plus low half, and leaves all other SPEs alone |
| SpuRing.StepInv | benchmarks/04-gang-sched/01-dual-ring.c:76-102 | every step of every interleaving keeps at most one token, in order, with the right number |
| SpuRing.NoDeadlock | benchmarks/04-gang-sched/01-dual-ring.c:76-102 | as long as not all SPEs have stopped, somebody can make a step |
| SpuRing.StepMeasure | benchmarks/04-gang-sched/01-dual-ring.c:98-102 | every step makes a measure smaller, so no run goes on for ever |
| SpuRing.EndMeans | benchmarks/04-gang-sched/01-dual-ring.c:98-102 | at the end all SPEs have stopped with 0x1337 after exactly their iterations, and iterations times n is pending at the first |
| SpuRing.EveryRun | benchmarks/04-gang-sched/01-dual-ring.c:163-269 | every run of a gang of any size has bounded length, overwrites no signal, delivers k n + j with the k-th read of SPE j, and ends as EndMeans says |
| SpuFanout.StepInv | tests/20-scheduler/sched_multiple.c:192-227 | every step of every interleaving keeps what each SPE has read and still has to read the messages sent to it, and its counter right |
| SpuFanout.StuckAt | tests/20-scheduler/sched_multiple.c:204-216 | a run can get stuck only in the join of an SPE that was sent nothing but the stop message and has taken that for its number |
| SpuFanout.EndsWellIff | tests/20-scheduler/sched_multiple.c:192-227 | a run ends with success exactly when every number occurs in the pattern |
| SpuFanout.SuccessMeans | tests/20-scheduler/sched_multiple.c:204-227 | then every SPE has stopped with 0x1337 and holds in word 0 exactly the host's count of its writes |
| SpuFanout.NeverStops | tests/20-scheduler/sched_multiple.c:121-125 | an SPE whose number never occurs never stops, in any run |
| SpuFanout.StepMeasure | tests/20-scheduler/sched_multiple.c:192-227 | every step makes a measure smaller |
| SpuFanout.EveryRun | tests/20-scheduler/sched_multiple.c:92-227 | the four results for every run over every pattern |
| SpuChecker.StepInv | tests/09-mailbox/03-mbox-multiple+sched.c:58-146 | every step keeps the invariant, and a save or a restore is no step at all of the system seen on a chip |
| SpuChecker.StoppedVerdict | tests/09-mailbox/02-mbox-multiple.c:62-83 | a program that has stopped has reached the verdict on the whole stream: 0x1337 at the first stop message after 0, 1, .., n - 1, and 0 at the first message out of order |
| SpuChecker.EndVerdict | tests/09-mailbox/02-mbox-multiple.c:62-83 | so has a run that can go no further |
| SpuChecker.StepMeasure | tests/09-mailbox/03-mbox-multiple+sched.c:111-146 | steps of the SPE and of the host make a measure smaller; saves and restores leave it alone |
| SpuChecker.HostMessages | tests/09-mailbox/02-mbox-multiple.c:112-127 | the loop sends 0, 1, .., and then the stop message |
| SpuChecker.HostSucceeds | tests/09-mailbox/03-mbox-multiple+sched.c:111-152 | with these messages the program stops with 0x1337, not before it has read them all |
| SpuChecker.EveryRun | tests/09-mailbox/03-mbox-multiple+sched.c:58-146 | the verdict for every run over every stream, however often the context is scheduled out |
| SpuHandshake.StepInv | tests/07-lsmap/04-ppe-running.c:47-71 | every step of the two threads keeps the invariant, in whatever order the four words are read and cleared |
| SpuHandshake.Ordered | tests/07-lsmap/04-ppe-running.c:54-58 | the host leaves its loop only after the store of ones, the SPE stops only after word 0 has been cleared, and in the end the quadword is zero |
| SpuHandshake.Nearer | tests/07-lsmap/04-ppe-running.c:47-71 | until both have finished some thread can make a step that brings the end nearer |
| SpuHandshake.FairRunEnds | tests/07-lsmap/04-ppe-running.c:47-71 | every endless run in which each thread goes on making steps until it has finished comes to the end, with the quadword zero, in whatever order the steps interleave |
| SpuHandshake.EveryRun | tests/07-lsmap/04-ppe-running.c:47-112 | every run keeps the order, and from where it has got to it can be brought to the end |
| CoreNotes.Pad | tests/11-coredump/parse-core.c:64-68 | the next multiple of four |
| CoreNotes.RoundTrip | tests/11-coredump/parse-core.c:216-252 | every list of notes that has been written with padding is read back exactly, and nothing else is found |
| CoreNotes.ExampleWritten | tests/11-coredump/parse-core.c:216-252 | the 28 bytes of one note |
| CoreNotes.HeaderWords | tests/11-coredump/parse-core.c:216-252 | the size of the name, the size of the descriptor and the type are the first three words, most significant byte first |
| CoreNotes.NoteBytes | tests/11-coredump/parse-core.c:64-78 | name and descriptor begin at multiples of four bytes behind the header, and so does the next note |
| CoreParser.CheckHexNote | tests/11-coredump/parse-core.c:80-113 | exactly 0x, sixteen hexadecimal digits and one byte more |
| CoreParser.CheckFile | tests/11-coredump/parse-core.c:160-177 | the first entry of the table for that file decides; files that are not in it pass |
| CoreTable.FileTable | tests/11-coredump/parse-core.c:115-136 | the 19 files by name, with the sizes of ten and the hexadecimal form of nine |
| CoreTable.HexText | tests/11-coredump/parse-core.c:80-113 | a hexadecimal note is 0x and sixteen of the characters 0-9, A-F and a-f, with one byte behind them |
| CoreTable.SelectedBytes | tests/11-coredump/parse-core.c:243-252 | an SPU note is one of type 1 whose name has five bytes or more and begins with SPU/ |
| CoreParser.CheckNote | tests/11-coredump/parse-core.c:138-178 | the name is the prefix, perhaps a number and a slash, and a file whose contents are as they have to be |
| CoreParser.CheckFdNote | tests/11-coredump/parse-core.c:181-214 | the part between the first two slashes is the given number |
| CoreParser.ParseNotes | tests/11-coredump/parse-core.c:216-282 | terminates and answers from exactly the notes of the section, up to one that extends past its end |
| CoreParser.ListMeans | tests/11-coredump/parse-core.c:254-256 | lists the size and the name of exactly the SPU notes, in order |
| CoreParser.CheckMeans | tests/11-coredump/parse-core.c:257-259 | 0 exactly when all SPU notes pass |
| CoreParser.CheckFdMeans | tests/11-coredump/parse-core.c:260-262 | 0 exactly when all SPU notes belong to that context |
| CoreParser.DumpMeans | tests/11-coredump/parse-core.c:264-279 | writes the descriptor of the first note of that name, with or without the prefix, and fails when there is none |
| CoreTable.NamedIff | tests/11-coredump/parse-core.c:264-267 | a dump finds a note by its C string, or by what is behind SPU/ in it |
| CoreTable.MemNamed | tests/11-coredump/parse-core.c:264-267 | the note SPU/mem is found as mem and as SPU/mem |
| CoreParser.ParseWritten | tests/11-coredump/parse-core.c:216-282 | the parser on notes that have been written answers for exactly these |
| CoreElf.HeaderInFile | tests/11-coredump/parse-core.c:334-343 | every program header that is read lies inside the file |
| CoreElf.IdentBytes | tests/11-coredump/parse-core.c:433-465 | the bytes of the identification that are accepted |
| CoreElf.TableBytes32 | tests/11-coredump/parse-core.c:309-343 | where a 32-bit ELF header has the machine, the offset of the table, the size and the number of its entries, and what they have to be |
| CoreElf.TableBytes64 | tests/11-coredump/parse-core.c:371-405 | the same for 64 bits |
| CoreElf.HeaderBytes32 | tests/11-coredump/parse-core.c:342-360 | type, offset and file size are the words at 0, 4 and 16 of a 32-bit program header |
| CoreElf.HeaderBytes64 | tests/11-coredump/parse-core.c:404-422 | the type is the word at 0, offset and file size are the doublewords at 8 and 32 of a 64-bit program header |
| CoreElf.AcceptedBytes | tests/11-coredump/parse-core.c:345-357 | the two checks of a program header, with sums of 32 or of 64 bits |
| CoreElf.ParseTable | tests/11-coredump/parse-core.c:309-431 | both parsers return and hand on what Scan says |
| CoreElf.ParseElf | tests/11-coredump/parse-core.c:433-465 | a segment that is handed on lies inside the file exactly when the sum of its offset and its size does not wrap around, and its size then fits a signed int |
| CoreElf.InsideIff | tests/11-coredump/parse-core.c:345-357 | the same of one program header that has passed the two checks |
| CoreElf.WrapAround | tests/11-coredump/parse-core.c:352-360 | for each class the bytes of a file that passes every check and whose segment is handed on although it is not inside the file |
| CoreDump.ParseSection | tests/11-coredump/parse-core.c:291-307 | which segments end the search and with what answer; FindExecutable says in bytes what that is for --find-exec |
| CoreDump.FindExecutable | tests/11-coredump/parse-core.c:291-299 | --find-exec: 0 exactly when the four bytes at the offset of the first segment of type PT_LOAD are 7f 45 4c 46, else -1; 0 when there is no such segment |
| CoreDump.ParseCore | tests/11-coredump/parse-core.c:433-465 | the answer of the program for the bytes of a whole file |
| CoreDump.WalkAnswers | tests/11-coredump/parse-core.c:342-369 | the walk over segments that hold written notes is answered from exactly these |
| CoreDump.ParseDump | tests/11-coredump/parse-core.c:433-465 | a core file whose note segments hold written notes is answered from exactly these |
| CoreDump.OneList | tests/11-coredump/parse-core.c:301-306 | with one note segment that is the answer of parse_notes, every failure being -1 |
| FindTests.FindTests | bin/run-tests.c:67-136 | NULL exactly when some directory cannot be opened; otherwise the paths of the regular executable files whose names begin with two digits, below directories whose names begin with no dot, each as often as the walk finds it, in the order of strcmp |
| FindTests.LeqIff | bin/run-tests.c:54-58 | of two paths the one comes first that is a beginning of the other, or has the lesser character at the first difference |
| FindTests.OrderUnique | bin/run-tests.c:54-58 | in this order a list is determined by what is in it |
| FindTests.TestsIff | bin/run-tests.c:60-126 | the walk finds a path exactly when the names in it lead to such a file |
| FindTests.TestsOnce | bin/run-tests.c:83-126 | the walk finds each test once when the names in each directory are distinct |
| TestConfig.Test.constructor | bin/test.c:39-70 | a timeout of 10 seconds, of 60 for a benchmark, no flag and no capability |
| TestConfig.Test.AddCap | bin/test.c:72-81 | the pointer is appended, and not the name |
| TestConfig.Test.HandleToken | bin/test.c:167-213 | what one word of a line changes: behind timeout=, expected_rc= and signal= the decimal digits of n set n; a capability points four or five characters behind the beginning of its word |
| TestConfig.ShowsToken | bin/test.c:167-213 | so the fields of the test change as the word says, and what has been stored for a capability leads to its name in the buffer |
| TestConfig.ParamValue | bin/test.c:151-165 | the text behind the name and an equals sign, if the word begins with these |
| ConfigText.AtoiShown | bin/test.c:183-197 | atoi reads back every number that has been written in decimal, after white space, with or without a sign, up to the first other character |
| ConfigText.NumberWord | bin/test.c:183-200 | the three words that set a number set that number |
| ConfigText.WordsAre | bin/test.c:272-281 | the words of a line are what stands between spaces and tabs |
| ConfigText.OwnLine | bin/test.c:259-262 | a line for one test gives it the words behind the name of its file and a colon |
| ConfigText.CommonLine | bin/test.c:264-267 | a line that begins with an asterisk and a colon gives its words to all tests |
| ConfigText.OtherLine | bin/test.c:256-269 | comments and other lines give nothing |
| ConfigText.LinesAre | bin/test.c:254-286 | lines are what stands before newlines and behind the last one |
| ConfigText.SchedulerConf | tests/20-scheduler/tests.conf:1 | this file sets a timeout of 20 |
| ConfigMeaning.SpaceStep | bin/test.c:250-252 | white space before a line does not matter, even where it ends lines |
| ConfigStale.ApplyAllMeans | bin/test.c:167-213 | after any list of words a flag is set exactly when its word occurs, a number is that of the last word that sets it, and the capabilities are all there in order |
| TestConfig.NextWord | bin/test.c:279-280 | strtok finds the next word and ends it with a NUL in place, and writes nothing else |
| TestConfig.ReadConfig | bin/test.c:242-287 | the cursor loop terminates, stays inside the buffer exactly when that holds a NUL, and then leaves the settings that the lines for this test, or for all tests, make when their words are applied in order; each new capability points to its word in the buffer as strtok has left it |
| ConfigStale.FileAlone | bin/test.c:238-246 | the result is that of the file when the file holds a NUL or the byte behind it is one |
| ConfigStale.StaleIff | bin/test.c:238-246 | for a file without a NUL it is that of the file exactly when the old bytes add nothing to the effect of its last line and the lines behind it, field by field |
| ConfigStale.StaleLinesIff | bin/test.c:238-246 | for a file of whole lines: exactly when the words among the old bytes change nothing of what the file has set |
| ConfigStale.StaleExample | bin/test.c:219 | a file with a comment only, before old bytes that make the test ignored |
| TestConfig.TestReadConfig | bin/test.c:215-288 | nothing for a path without a slash or a directory without tests.conf; else the settings of ReadConfig for the bytes of the file before the old ones, with all new capabilities pointing into a buffer that is gone |
| TestConfig.ConfigBeside | bin/test.c:221-229 | the file is tests.conf in the directory of the test, and the name of the test is what is behind the last slash |
| TestConfig.ShouldRun | bin/test.c:290-312 | while the buffers live, a test runs exactly when it is not disabled and every capability it asks for is there, or is missing as it asks; a dead buffer is read exactly when all capabilities before are granted |
| TestConfig.StartTest | bin/run-tests.c:223-228 | after test_read_config the settings can be read exactly when no word for this test asks for a capability; otherwise, unless the test is disabled, test_should_run reads the dead buffer |
| TestConfig.RootTest | tests/00-testsuite/tests.conf:3 | with this line it does, whatever capabilities there are |

## Left out

- FreePtr: the left neighbour condition `LeftOk` is sufficient and not necessary: outside it the code reads freed memory in some orders of the children (`ReadsFreedMemory`) and not in others (`ReadsLiveMemory`).
- FreePtr: destructors that call talloc themselves are not modelled, nor references whose holder is NULL.
- Realloc: the contents of the payload are not modelled, so that they are copied is not stated.
- RunDestructor: the destructor does not see the field `destructor` while it runs.
- TotalSize: a `size_t` of other than 64 bits is not modelled.
- Memory is one map a field and not one struct a chunk; padding, the magic numbers and the checks on them are not modelled.
- names, reports, the string and array helpers, autofree and `null_context` tracking of talloc.
- The kernel side of spufs (contexts, scheduling, DMA faults) is not part of this model; a scheduled-out context is one whose machine is found only in the saved image.
- Instructions of the SPU that the modelled programs do not use; a machine that comes to one makes no step.
- SpuRing.EveryRun: what the tag status channel delivers is arbitrary, since the program does not look at it; the two gangs of the benchmark do not interact and are one gang here.
- SpuFanout.EveryRun: the host trusts that the pattern names existing SPEs, and so does the model; the printed lines are left out.
- SpuHandshake.EveryRun: a host that only spins and is always the next to make a step keeps the SPE from finishing, so that the end is promised for fair runs (`FairRunEnds`) and can be reached from everywhere.
- ParseNotes: sections that end in less than a header, sizes at which `pad` overflows, and names that are read on past their field are outside the preconditions `Readable` and `NamesEnd`.
- ParseCore: files under 64 bytes or from 2^31 bytes on, and segments that the walk comes to and that are not inside the file, are outside the precondition; `WrapAround` shows that the latter are handed on.
- The options of parse-core, its messages, and the mapping of the file.
- FindTests.FindTests: links between directories are not modelled, so that the tree is finite.
- ReadConfig: a test whose file name has a newline in it, numbers that `atoi` cannot hold, and what happens when the loop runs off the buffer.
- TestReadConfig: a read that fails is that of a file without bytes.
- ShouldRun: what is found in a dead buffer is not modelled; the verdict `ReadsDeadBuffer` ends the model there.
- The running of tests (fork, pipes, timeouts), the probing of capabilities, slowfs, the shell scripts, and the tests that consist of a single call.
