# kcov in Dafny

kcov measures coverage without recompiling: it plants breakpoints, counts which of them are reached, keeps the
counts from run to run and merges what several runs have found. This project models the parts of it where a
mistake would silently lose or invent coverage, and proves that they do not, or says exactly when they do.

Where kcov changes things step by step the model is a class with the same fields, or a method over an array, and
each method is tied to a function of the old state. What matters about that function is then proved as lemmas.
Integer widths are written out. Both byte orders of the host are covered (`little`).

## What is proved, part by part

**System mode.** Forked tracers set bits in shared memory with a compare-and-swap loop and then bump a dirty
counter, while a thread of the daemon tests, cleans, copies and writes. `HitProtocol` takes every load, swap, add
and store as one step and lets the steps of any number of tracers interleave. At every moment a set bit is in the
last file, still to be caught by the copy under way, announced by the counters, or owned by a tracer about to
announce it (`NoHitIsLost`). When all is quiet and clean the file is exact (`QuietCleanFileIsExact`). The 32-bit
counters can wrap, and `TrustedIff` says for how many tracers and words that matters. The output thread can be told
to exit; what is lost then is what `LostAreUncleaned` says, and lost for good (`StoppedForGood`).
`SystemModeMemory` is the object with those operations on real 32-bit words, `SystemModeFormat` the file it is
written to, `SystemModeFile` the instrumented binary with its trailer. `SystemModePipeline` joins the three
programs: what the report replays is what the traced processes hit (`RecordRunReport`). `Layouts` has the bytes of these
two files and of the two below at their offsets, told without the readers and writers.

**Breakpoints.** `PtraceWords` patches one byte through an aligned 8-byte word; `PtraceEngine` is the engine over
any number of forked and cloned tracees. Each code byte is always the program's own or an int3 at a registered
address, and clearing restores exactly one byte although the saved word may hold neighbours' int3. `Transparency`
runs an arbitrary instruction set under the engine: the traced program is a stuttering copy of the untraced one,
and each armed address is reported once, before it first executes. `ForkTransparency` has the same for a program whose
processes fork: for each process, from its fork on, in any interleaving. `PtraceTurns` follows signals, exits and
children over any run of turns, in the numbers waitpid gives: which signals are passed on, and what is reported.

**Debug link checksum.** `Crc32` takes kcov's table, proves all 256 constants, and proves the table loop equal to
CRC-32 bit by bit (section 8 of RFC 1952), that it can be continued, and that damage inside four bytes is noticed.

**Merging.** `MergeFile` and `MergeFileBuffer` write and read a metadata file in place, alignment and hit bit
included. `MergeParser` takes lines, hits and metadata in any order, hits before their lines too, and ends up with
the union of the inputs, provided they are what `Clean` asks; merging output that was merged before is the same as
merging all the parts. `MergeCounts` drops the conditions and says for any inputs in any order what is counted for each
address, and what 32-bit counters make of it. `MergeOrder` says, again for any inputs, which lines and hits are there in
every order of them and which in some, and gives for each condition of `Clean` inputs in which only that one fails.
`HitsMakeTheirLines` says without line ids which lines a hit makes executed.

**Reporter.** `ReporterState` has the cross-linked indexes, `ReporterInvariants` and `ReporterRuns` what every step
and every run keeps, `ReporterDatabase` and `ReporterObject` the over-allocated image and the object.
`ReporterCounts` follows the counters step by step, and `ReporterAccumulation` concludes that a line's count is what
was stored plus what was hit no matter when the database is read. `ReporterTwoRuns` takes the file one run has written,
padding and all, into the next and adds up both. `ReporterSingleShot` says when a line stays within its possible hits,
`ReporterOrder` which lines have an order and in which order they are numbered, `ReporterFiles` which lines a file has,
which of them are left out, and which are found at an address.

**Instructions and blocks.** `Disassembler` decodes sections on demand and still answers as the eager sweep would.
Its basic blocks are consecutive runs of the instructions with one leader each, at the head, and the leaders are told by
the branch targets the decoder gives.

**Kernel probes.** `Kprobe` moves probes between the deferred, pending and hit lists as modules come and go. `KprobeLife`
says where each probe is by what happened alone, and that what was caught is read out, in order.

**Filters, paths, scripts.** `Filter` gives the clamped exclude counter a closed form, `CommonPath` says what the
shared directory prefix is, `BashParser` relates the full line classifier to the basic one. `BashLines` says by the texts
alone which lines of a script are reported, `BashTexts` which of the basic parser's are not, and what a comment is.

## Where the code differs from what one would expect

- Rows of a database restored by index ignore the single-shot limit, so a line can exceed its possible hits
  (`DatabaseHitsAreNotCapped`, src/reporter.cc:512-519); it does exactly when the rows added since each of its
  addresses was last hit come to more (`WithinPossibleIff`).
- `isDirty` compares 32-bit counters: a multiple of 2^32 bumps between two cleanings goes unseen
  (`CleanMeansMultiple`). A quiet, clean state can be trusted in all runs of r tracers over n words if and only if
  32nr is below 2^32 (`TrustedIff`).
- The exit test in front of the output loop can lose hits for good (`ShutdownCanLoseAHit`), at most as many as there
  are uncleaned bumps (`LostAreUncleaned`).
- `n_entries` is 16 bits wide: with 65536 addresses or more a processed binary loses some (`AllSurvivesIff`).
- A terminator meant for the file name is stored in the options block (src/system-mode/file-data.cc:259). It falls
  behind the buffer exactly for names as much longer than all that follows them as `StrayStoreOutsideIff` says
  (`StrayStoreCanBeOutside`).
- The size check of the processed file adds the trailer on the wrong side and wraps in 32 bits
  (src/system-mode/file-data.cc:151); which sizes it lets through though they do not fit is `AcceptedOutsideIff`, with
  a trailer for which it does (`AcceptedCanBeOutside`).
- The result of a merge depends on the order of its inputs when metadata is stale, files of the same contents are
  announced under the same addresses, or file names hash alike. `LineInEveryOrderIff` says for which lines,
  `OrderMattersIff` for which hits, whatever the inputs are (`OnlyMetadataStale`, `OnlyAddressesShared`,
  `OnlyHashesCollide`).
- With the parser's 32-bit counters the result is the union if and only if no address is hit a positive multiple of 2^32
  times (`UnionIn32BitsIff`, `WrapsToNothing`).
- A signal that kills a tracee is passed on to the process continued next while the first one is traced
  (`NextContinuesWith`).
- Asking for the block of the only instruction of a program, or of a branch target that is no instruction, follows a
  null pointer (`GetBasicBlock`, `OneInstructionCrashes`, `OutsideTargetCrashes`).
- The comment on the lists of the kernel module holds, but with its name table full all further modules share the
  index -1 (`FullTableConfusesModules`, `TableCanBeFull`).
- The common path is a string prefix, not a directory prefix. It depends on which file comes first exactly if the
  longest common prefix of the names ends a directory or a name for some of them but not for all (`FirstMattersIff`,
  `DependsOnTheFirst`).

## Model

| member | source | states |
|---|---|---|
| Bytes.SwapEndian | src/include/swap-endian.hh:7-22 | the union copied byte by byte is the value whose bytes are those of the argument reversed, for every width |
| Bytes.ToBeStoresBigEndian | src/include/swap-endian.hh:33-40 | storing `to_be(u)` puts u in memory most significant byte first, on either kind of host |
| Bytes.BeToHostInverts | src/include/swap-endian.hh:51-58 | `be_to_host(to_be(u))` is u on either kind of host |
| Bytes.BeToHostReads | src/include/swap-endian.hh:51-58 | `be_to_host` of a word loaded from big-endian bytes is their value |
| HitWords.WithBitAdds | src/engines/system-mode-file-format.cc:106-112 | or-ing `1 << bit` into a word adds that bit to its set of bits and no other |
| HitWords.WordsEqualIffBits | src/engines/system-mode-file-format.cc:112-112 | a compare-and-swap on words succeeds exactly if the sets of bits agree |
| HitWords.OneBit | src/engines/system-mode-file-format.cc:80-81 | bit b of a word is the one of weight 2^b |
| HitWords.WithHitSets | src/engines/system-mode-file-format.cc:89-112 | an update sets one index and keeps every other, even in the same word |
| HitProtocol.NextKeepsInv | src/engines/system-mode-file-format.cc:89-125 | each atomic step of a tracer or of the output thread keeps the invariant: what each of them has seen so far is still true, and every set bit is reported and accounted for |
| HitProtocol.RunKeepsInv | src/main-system-daemon.cc:283-321 | so does every finite interleaving of such steps |
| HitProtocol.NoHitIsLost | src/engines/system-mode-file-format.cc:89-125 | in every reachable state a set bit was reported, and is in the last file, still to be copied, covered by uncleaned bumps, or owned by a tracer between its swap and its add |
| HitProtocol.QuietCleanFileIsExact | src/main-system-daemon.cc:289-320 | all calls returned, writer asleep, counters equal and fewer than 2^32 bumps uncleaned: the file holds exactly the reported in-range indices |
| HitProtocol.CleanMeansMultiple | src/engines/system-mode-file-format.cc:117-120 | `isDirty` is false if and only if the bumps since the last cleaning are a multiple of 2^32 |
| HitProtocol.BumpsAreBounded | src/engines/system-mode-file-format.cc:102-114 | in every run of r tracers over n words the counter is bumped at most 32nr times |
| HitProtocol.FewTracersFileIsExact | src/engines/system-mode-file-format.cc:117-125 | with 32nr below 2^32, quiet and clean alone make the file exact |
| HitProtocol.BumpsCanBeHad | src/engines/system-mode-file-format.cc:89-115 | every number of bumps up to 32nr is reached by a run of r tracers without a cleaning in between |
| HitProtocol.TrustedIff | src/engines/system-mode-file-format.cc:117-125 | quiet and clean makes the file exact in every run of r tracers over n words if and only if 32nr is below 2^32 |
| HitProtocol.OnePassIsEnough | src/main-system-daemon.cc:289-320 | once the tracers have stopped, with fewer than 2^32 bumps uncleaned and the output thread between two turns, one undisturbed turn leaves memory clean and the file exact |
| HitProtocol.UndisturbedReport | src/engines/system-mode-file-format.cc:89-115 | a `reportIndex` run alone sets its bit and dirties the memory unless the index is out of range or already hit, and then changes nothing |
| HitProtocol.StoppedForGood | src/main-system-daemon.cc:262-270 | once the output thread has left its loop, no further steps of anyone change the file |
| HitProtocol.LostAreUncleaned | src/main-system-daemon.cc:262-320 | in every quiet state, stopped or not, the file is exact if and only if it has every index whose bump came after the value last marked clean; no more can be lost than there are such bumps |
| HitProtocol.ShutdownCanLoseAHit | src/main-system-daemon.cc:262-270 | a hit reported before the exit signal, one bump uncleaned, is in no file whatever steps follow |
| SystemModeFormat.FileRoundTrip | src/engines/system-mode-file-format.cc:5-58 | every written image passes the checks of `fileToMemory` and gives back both NUL-free strings and every word |
| Layouts.MemoryFileIs | src/engines/system-mode-file-format.cc:5-24 | at fixed offsets, in the host's order: the magic and version as numbers, the word count, a 0, both string offsets, the words; then the strings, each with its NUL |
| SystemModeMemory.MemoryRoundTrip | src/engines/system-mode-file-format.cc:5-58 | the same for the 32-bit words tracers set bits in |
| SystemModeMemory.Memory.IndexIsHit | src/engines/system-mode-file-format.cc:76-87 | the masked test answers whether the index is in the bitmap, false beyond its end |
| SystemModeMemory.Memory.CompareAndSwap | src/engines/system-mode-file-format.cc:112-112 | swaps exactly if the bits are the expected ones, else leaves memory alone |
| SystemModeMemory.Memory.ReportIndex | src/engines/system-mode-file-format.cc:89-115 | the loop, run alone, does to bitmap and dirty counter what the protocol's five steps do |
| SystemModeMemory.Memory.IsDirty | src/engines/system-mode-file-format.cc:117-120 | true exactly if the counters differ, which is when the protocol's writer would go on to clean |
| SystemModeMemory.Memory.MarkClean | src/engines/system-mode-file-format.cc:122-125 | afterwards the protocol's writer would find memory clean |
| SystemModeMemory.Memory.MemoryToFile | src/engines/system-mode-file-format.cc:5-24 | every store is inside the computed size and the buffer is the image FileRoundTrip reads back |
| SystemModeMemory.FileToMemory | src/engines/system-mode-file-format.cc:26-58 | null exactly if the words at 0 and 4 are not magic and version, or an offset is wrong; else strings and words as stored in the image, counters zero |
| SystemModeFile.ProcessedRoundTrip | src/system-mode/file-data.cc:114-280 | a processed file begins with the original bytes, is 8-byte aligned, is accepted by `parse`, and gives back id, name, options and the addresses cut to the 16-bit count |
| Layouts.ProcessedTexts | src/system-mode/file-data.cc:114-280 | the original bytes, the name and the options lie one after the other, each with zeros up to the next multiple of eight |
| Layouts.ProcessedNumbers | src/include/system-mode/file-data.hh:11-23 | then 8 bytes for each address; the last 32 bytes hold magic, version, the size of the table twice, the id, both string sizes and the 16-bit count, each at its offset |
| SystemModeFile.AllSurvivesIff | src/include/system-mode/file-data.hh:21-21 | everything comes back if and only if there are fewer than 65536 addresses |
| SystemModeFile.BodyReads | src/system-mode/file-data.cc:151-186 | from aligned blocks and a table in front of an accepted trailer, `parse` finds the two strings, the id and the addresses |
| SystemModeFile.AddedInOrder | src/system-mode/file-data.cc:189-197 | adding addresses at consecutive indexes leaves exactly those addresses, in order |
| SystemModeFile.File.AddEntry | src/system-mode/file-data.cc:189-197 | the table is grown with zeros up to a new index and holds the value there, all else unchanged |
| SystemModeFile.File.AddEntries | src/engines/system-mode-engine.cc:118-124 | the recording loop leaves exactly the registered addresses in the file |
| SystemModeFile.File.GetProcessedData | src/system-mode/file-data.cc:219-280 | with no entries a copy of the bytes; else the result is byte for byte the file ProcessedRoundTrip parses, every store being inside the buffer, unless the stray terminator is behind it |
| SystemModeFile.StrayStoreOutsideIff | src/system-mode/file-data.cc:244-262 | the terminator of the name is stored behind the buffer if and only if the name takes more 8-byte words than options, entries and trailer together leave |
| SystemModeFile.StrayStoreCanBeOutside | src/system-mode/file-data.cc:259-259 | any options and entries have a name for which it is |
| SystemModeFile.AcceptedOutsideIff | src/system-mode/file-data.cc:143-155 | a trailer is accepted though its blocks do not fit if and only if the aligned sizes exceed what there is by at most two trailers, or their sum wraps to as little |
| SystemModeFile.AcceptedCanBeOutside | src/system-mode/file-data.cc:151-151 | every file size has such a trailer |
| SystemModeFile.FromRawFile | src/system-mode/file-data.cc:79-97 | refuses exactly the empty file, and keeps bytes, id and strings with no addresses |
| SystemModeFile.FromProcessedFile | src/system-mode/file-data.cc:99-187 | with the tests in their order, up to the first that fails or the first access outside file and buffer: null exactly when a test fails; else the whole file is kept and id, strings and addresses are those parsed; `outside` exactly when such an access comes first |
| SystemModePipeline.SystemModeEngine.RegisterBreakpoint | src/engines/system-mode-engine.cc:45-51 | the index returned is the place of the address in the list |
| SystemModePipeline.SystemModeEngine.HandleReadFile | src/engines/system-mode-engine.cc:157-177 | the loop reports the addresses of the hit indices; ReplayedInOrder says which and in which order |
| SystemModePipeline.ReplayedInOrder | src/engines/system-mode-engine.cc:157-177 | that is each hit index once, in ascending order, with the address registered at it |
| SystemModePipeline.ProcessHandler.Attach | src/main-system-daemon.cc:72-85 | each listed address, and no other, maps to the place of its last occurrence in the list |
| SystemModePipeline.ProcessHandler.OnEvent | src/main-system-daemon.cc:113-125 | a breakpoint at a registered address does to bitmap and dirty counter what a report of its index does, one anywhere else changes neither |
| SystemModePipeline.ReportReplaysTheHits | src/engines/system-mode-engine.cc:157-177 | after any interleaving of traced processes and output thread that has come to rest clean, the replayed addresses are exactly the registered addresses some process stopped at, duplicates in the list included |
| SystemModePipeline.RecordRunReport | src/engines/system-mode-engine.cc:118-177 | record, run and report with both file formats in between: list and bitmap survive, and the replay is exactly the hits, for lists of up to 65535 addresses |
| PtraceWords.MaskByte | src/engines/ptrace.cc:33-42 | the shift-and-mask expression replaces one byte of the word and keeps the other seven |
| PtraceWords.PeekedByte | src/engines/ptrace.cc:140-142 | the word saved at registration holds the byte at its address |
| PtraceWords.PokeSetup | src/engines/ptrace.cc:341-346 | peek, mask, poke turns exactly one byte of memory into int3 |
| PtraceWords.PokeClear | src/engines/ptrace.cc:74-83 | peek, mask, poke puts exactly that byte of the saved word back, whatever else it or the current word holds |
| PtraceEngine.NextKeepsInv | src/engines/ptrace.cc:129-169 | registering, arming, clearing, forking, cloning or switching tracee keeps: every byte is original or an int3 at a registered address that is not pending, and each saved word has the original byte at its address |
| PtraceEngine.RunKeepsInv | src/engines/ptrace.cc:129-350 | so does every run of such steps |
| PtraceEngine.CodeIsOriginalOrInt3 | src/engines/ptrace.cc:28-169 | after any run from a fresh process each byte of each address space is the program's own, or int3 at a registered address |
| PtraceEngine.ClearRestoresItsByte | src/engines/ptrace.cc:150-169 | after any run, clearing a registered address restores that original byte in the active process and changes nothing else anywhere |
| PtraceEngine.Ptrace.RegisterBreakpoint | src/engines/ptrace.cc:129-148 | -1 for address 0 and 0 for a known one, nothing changed; else the word is saved and the address made pending, last and once |
| PtraceEngine.Ptrace.SetupAllBreakpoints | src/engines/ptrace.cc:337-350 | arms every pending address even where they share words, and leaves none pending |
| PtraceEngine.Ptrace.ClearBreakpoint | src/engines/ptrace.cc:150-169 | false and no change for an unregistered address; else the clear ClearRestoresItsByte is about |
| PtraceEngine.Ptrace.WaitEvent | src/engines/ptrace.cc:171-294 | the event with its address for every status; the stopped tracee made active and known, one that ended forgotten; its program counter stepped back exactly if it trapped at a registered address, and the first such stop waits for the solib data |
| PtraceEngine.Ptrace.ContinueExecution | src/engines/ptrace.cc:299-326 | one turn: arm, continue or forget the child that cannot be, wait, clear on a breakpoint; event, children and signal are those the lemmas of PtraceTurns tell |
| PtraceTurns.ControlIs | src/engines/ptrace.cc:171-326 | after any turns the active process is the one that stopped or ended last, and those known are the ones that have stopped and have neither ended nor failed to be continued since |
| PtraceTurns.NextContinuesWith | src/engines/ptrace.cc:299-318 | the next turn continues that process with what stopped it, unless that was SIGTRAP, forks included, SIGSTOP or SIGSYS; or with what killed one while the first is traced |
| PtraceTurns.SignalsArePassedOn | src/engines/ptrace.cc:299-326 | over any run of turns in which none is killed, the signals passed on are those other signals that stopped tracees, to the same tracees, in order |
| PtraceTurns.EventsAre | src/engines/ptrace.cc:171-294 | kind, number and address of the event of every status, in numbers: stops one byte back, an exit told apart for the first process with its code, a killed process ending the run exactly if the first is gone |
| Transparency.TracingIsTransparent | src/engines/ptrace.cc:299-326 | for every instruction set, program, schedule of new registrations and number of steps: program counter and data are those of the untraced run after as many instructions; every other step is a report; each registered address is reported at most once, at the untraced program counter, before it executes, and never executes unreported while armed |
| Transparency.ReportIsTheFirstVisit | src/engines/ptrace.cc:223-248 | between the arming of an address and its report the program has not executed it |
| Transparency.StepSound | src/engines/ptrace.cc:299-326 | one step of the traced run is one instruction of the untraced run or one report, and keeps engine and log consistent |
| Transparency.TrapIsClear | src/engines/ptrace_linux.cc:38-76 | the `- 1` of the reported program counter and the step back cancel the int3's step forward: apart from the report, a trap only clears |
| Transparency.InstructionIntact | src/engines/ptrace.cc:74-83 | an instruction whose first byte is no int3 has all its own bytes, so it executes as in the untraced program |
| ForkTransparency.FamiliesAreTransparent | src/engines/ptrace.cc:299-326 | for every program, schedule of forks, interleaving and registrations: each process is where the untraced one is that starts as it did at its fork; its other steps are reports; each address armed in its memory is reported at most once there, before it executes there; and what is armed in it is what was armed there and not yet reported |
| ForkTransparency.ChildTakesOver | src/engines/ptrace.cc:205-235 | a forked child starts where its parent stood, with the breakpoints armed in the parent's memory and not reported there, and with none the parent has reported |
| ForkTransparency.TurnIsItsOwn | src/engines/ptrace.cc:183-190 | whichever process was active before, a turn at a breakpoint is that of the process that stopped |
| ForkTransparency.StillOk | src/engines/ptrace.cc:337-350 | lines registered while another process is active are not armed in this one, whose memory stays in order |
| ForkTransparency.FirstStop | src/engines/ptrace.cc:217-234 | the stop of a new child is never taken for a registered breakpoint, since no instruction starts at the last byte of one that forks |
| Crc32.TableOk | src/parsers/elf-parser.cc:460-489 | each of the 256 constants is eight polynomial division steps of its index |
| Crc32.EightIsBits | src/parsers/elf-parser.cc:494-494 | eight steps on the register with a byte added to it are the eight message bits entering one by one |
| Crc32.FedIsEight | src/parsers/elf-parser.cc:494-494 | the table entry of the low byte, xor the register shifted, is eight steps of the whole register |
| Crc32.Update | src/parsers/elf-parser.cc:493-494 | with a correct table the loop leaves the register after all bits of the buffer |
| Crc32.DebugLinkCrc32 | src/parsers/elf-parser.cc:458-497 | for every start value and buffer the result is the bit-at-a-time reflected CRC-32 |
| Crc32.CheckValue | src/parsers/elf-parser.cc:458-497 | the checksum of the letter a is the published one, so register and result are complemented |
| Crc32.CrcContinues | src/parsers/elf-parser.cc:458-497 | continuing from the result of one buffer with the next is one pass over both |
| Crc32.BurstIsDetected | src/parsers/elf-parser.cc:421-429 | files that differ only within four adjacent bytes have different checksums, whatever surrounds them |
| MergeFile.ImageDecodes | src/merge-file-parser.cc:434-542 | a file image is accepted, its parts lie inside it, and it decodes to exactly the rows, tagged addresses and name stored |
| Layouts.MetadataEnds | src/merge-file-parser.cc:434-472 | big-endian, at fixed offsets: magic, version, size, checksum, time, number of rows, where the table and the name start; the name is last |
| Layouts.MetadataTables | src/merge-file-parser.cc:474-494 | row i is twelve bytes at 36 + 12i: line, how many addresses come before its own, how many it has; in the table each has its own, the top bit set if hit |
| MergeFile.SliceOfRow | src/merge-file-parser.cc:479-491 | `address_start` and `n_addresses` of a row cut its own addresses out of the shared table |
| MergeFile.SaysWhatItIs | src/merge-file-parser.cc:485-486 | the records of a file are exactly its lines' addresses, marked hit if and only if they are |
| MergeParser.SessionsStayBelow | src/merge-file-parser.cc:177-177 | whatever arrives in whatever order, every address a session keeps is below 2^63, so the hit bit is free |
| MergeParser.WrittenFilesSayWhatTheyAre | src/merge-file-parser.cc:434-505 | the records of a file any session writes are exactly the session's lines and hits of that file |
| MergeFile.RoundTrip | src/merge-file-parser.cc:403-542 | whatever order the maps are walked in, an image read back has exactly the file's records, its name and its checksum |
| MergeFileBuffer.StoreAddrs | src/merge-file-parser.cc:481-491 | the inner loop writes each address with its hit bit, big-endian, and nothing outside its slice |
| MergeFileBuffer.StoreRows | src/merge-file-parser.cc:474-494 | the two nested loops fill rows and table without touching each other or the header |
| MergeFileBuffer.CountAddrs | src/merge-file-parser.cc:441-445 | the count used for the size is the length of the table |
| MergeFileBuffer.MarshalFile | src/merge-file-parser.cc:434-505 | wherever the buffer is allocated, every store lies inside the size computed beforehand and the result is an image with an 8-aligned table |
| MergeFileBuffer.SwapWord | src/merge-file-parser.cc:509-516 | turning a field to the host's order in place changes that field only |
| MergeFileBuffer.SwapTable | src/merge-file-parser.cc:536-539 | the loop over the table turns every address and nothing outside the table |
| MergeFileBuffer.UnMarshalFile | src/merge-file-parser.cc:507-542 | true exactly for the right magic and version; then everything reads in the host's order as it stood big-endian on disk |
| MergeParser.MergeIsUnion | src/merge-file-parser.cc:133-202 | for every order of lines, hits and current metadata with an address for each line and a file for each id, known lines and hit addresses are the union of the inputs, and the indexes agree with them |
| MergeParser.OrderDoesNotMatter | src/merge-file-parser.cc:377-432 | two sessions with the same set of inputs, in any order and number, know the same lines and hits |
| MergeParser.HitLands | src/merge-file-parser.cc:141-148 | a hit is counted for just the line and file that lie at its address |
| MergeParser.LineEffect | src/merge-file-parser.cc:156-202 | a line adds its own id, and one hit address exactly if a hit was waiting |
| MergeParser.IdIs | src/merge-file-parser.cc:278-284 | the id of a line is its file's hash plus 2^32 times the line, without bit 63 |
| MergeParser.IdsAgreeIff | src/merge-file-parser.cc:278-284 | two ids are equal if and only if the hashes are and the lines agree modulo 2^31 |
| MergeParser.HitsMakeTheirLines | src/merge-file-parser.cc:133-202 | told without ids: a line is executed if and only if it was announced and a hit came at an address of it, or of a line of its file a multiple of 2^31 away, in every order |
| MergeParser.CountersAreCongruent | src/merge-file-parser.cc:569-577 | a session with 32-bit counters is one with unbounded counters modulo 2^32, and otherwise identical |
| MergeParser.MergeWith32Bits | src/merge-file-parser.cc:485-486 | with 32-bit counters the lines are still the union, and a hit is lost if and only if its count is a multiple of 2^32 |
| MergeCounts.CountsAre | src/merge-file-parser.cc:133-432 | for any inputs in any order: an address of a file is counted the hits that came while its id had claimed the address last and the file the id, or the latest that waited for the claim, and once for each mark in metadata accepted when it came |
| MergeCounts.CountsIn32Bits | src/merge-file-parser.cc:569-577 | the program's counters are those counts modulo 2^32 |
| MergeCounts.UnionIn32BitsIff | src/merge-file-parser.cc:569-577 | the result with 32-bit counters is the union of the inputs if and only if no address is counted a positive multiple of 2^32 hits |
| MergeCounts.WrapsToNothing | src/merge-file-parser.cc:569-577 | a line hit n times is hit in the result if and only if n is no multiple of 2^32 |
| MergeParser.StaleMetadataDependsOnOrder | src/merge-file-parser.cc:389-401 | metadata with another checksum adds its lines if it comes before the file is known, and not after |
| MergeOrder.LinesAre | src/merge-file-parser.cc:156-432 | for any inputs in any order, the lines are those announced and those of metadata that had the file's checksum or came before the file was known |
| MergeOrder.LineInEveryOrderIff | src/merge-file-parser.cc:389-401 | a line is there in every order of the inputs if and only if an announcement or current metadata tells it, or all inputs that make the file known do; in some order if and only if any input tells it |
| MergeOrder.HitInEveryOrderIff | src/merge-file-parser.cc:141-432 | for any inputs: an address is hit in every order of them if and only if current metadata says so, or all that makes the file known is metadata that says so, or a hit lies at an address only this id claims, and only this file claims the id |
| MergeOrder.HitInSomeOrderIff | src/merge-file-parser.cc:141-432 | and in some order if and only if any metadata says so, or the file claims the id and a hit lies at an address the id is claimed for |
| MergeOrder.OrderMattersIff | src/merge-file-parser.cc:133-432 | so the order decides whether it is hit if and only if the second holds and the first does not |
| MergeOrder.OnlyMetadataStale | src/merge-file-parser.cc:389-401 | metadata of two versions of one file, both with a hit: the old line and the old hit are there in one order and not in the other |
| MergeOrder.OnlyAddressesShared | src/merge-file-parser.cc:177-183 | two files of the same contents announced at the same line, so at one address, and a hit there: the line of either file is hit in one order and not in another |
| MergeOrder.OnlyHashesCollide | src/merge-file-parser.cc:256-262 | two file names hashing alike: whether a hit counts for one file or for the other depends on the order, for both |
| MergeOrder.LocalIff | src/merge-file-parser.cc:231-238 | outside merge mode a session writes a file if and only if an accepted line announced it |
| MergeParser.SharedAddressDependsOnOrder | src/merge-file-parser.cc:177-183 | for two files of the same contents, a hit between the two announcements counts for the first file, and a hit after both does not |
| MergeParser.ReadBackIsOutput | src/merge-file-parser.cc:377-505 | the bytes written for a file, read again, are the input a later session gets |
| MergeParser.MergingMergedIsMergingAll | src/merge-file-parser.cc:377-505 | merging a session's output with more metadata knows and has hit exactly what merging all the parts does |
| MergeCounts.MergingMergedIn32Bits | src/merge-file-parser.cc:377-577 | the same with the 32-bit counters of the program in all three sessions, as long as none wraps to 0 |
| MergeParser.MergeParser.OnAddress | src/merge-file-parser.cc:133-153 | the hit is counted for the line at the address, or waits if there is none: the step MergeIsUnion is about |
| MergeParser.MergeParser.OnLineReporter | src/merge-file-parser.cc:156-202 | an accepted line of an existing file is linked and takes the waiting hit: the step MergeIsUnion is about |
| MergeParser.MergeParser.ParseFileData | src/merge-file-parser.cc:377-432 | the loops over rows and slots note exactly the records of the file, unless it is gone or another version is known |
| ReporterRuns.RunKeepsInv | src/reporter.cc:283-384 | in every run a line's addresses are distinct, every line indexed under an address holds it and ids there do not repeat, ids lead to their line, files count their reachable lines, and the orders given are 1 to m_order-1 once each |
| ReporterInvariants.LineReplaced | src/reporter.cc:477-519 | counting a hit on a line disturbs none of this |
| ReporterInvariants.Ordered | src/reporter.cc:436-440 | numbering a line hit for the first time keeps the orders gapless and unrepeated |
| ReporterInvariants.IdsAgreeIff | src/reporter.cc:461-461 | two line ids are equal if and only if hashes and lines agree modulo 2^32 |
| ReporterOrder.OrderedIffHit | src/reporter.cc:418-444 | in every run a line has an order if and only if a hit, or a row with hits, came at an address it was then found under |
| ReporterOrder.FirstHitFirst | src/reporter.cc:436-440 | of two lines hit, the one hit first has the smaller order |
| ReporterOrder.FirstListedFirst | src/reporter.cc:427-440 | of two hit first by the same hit, the one found earlier under its address has |
| ReporterFiles.LinesAre | src/reporter.cc:315-342 | in every run a file has the lines announced and those its first announcement leaves out, and just the latter are unreachable |
| ReporterFiles.NumberOfLines | src/reporter.cc:315-342 | it counts as lines those announced and not left out |
| ReporterFiles.FoundAre | src/reporter.cc:344-361 | in every run the lines found at an address are all those announced there, told by hash and line number |
| ReporterRuns.ExecutedWithinLines | src/reporter.cc:689-713 | no file ever has more executed lines than lines |
| ReporterRuns.HitsWithinPossible | src/reporter.cc:537-543 | single-shot, without a database: a line's hits never exceed its addresses |
| ReporterSingleShot.WithinPossibleIff | src/reporter.cc:477-543 | single-shot with databases, lines of any number of addresses, shared or not: a line's hits stay within its addresses if and only if, slot by slot, the rows added since the slot's last hit plus that hit come to no more in 32 bits |
| ReporterSingleShot.NothingAdded | src/reporter.cc:512-519 | where no row names the line, each slot contributes at most one |
| ReporterRuns.DatabaseHitsAreNotCapped | src/reporter.cc:512-519 | with a database they can, for any stored count above one |
| ReporterAccumulation.CountIsStoredPlusLive | src/reporter.cc:335-380 | for lines with one address and distinct ids, unlimited hits: after every run an announced line counts, in 32 bits, what was stored for it plus what was hit since its announcement |
| ReporterAccumulation.DatabaseMayBeReadAnyTime | src/reporter.cc:161-223 | moving the reading of a database earlier or later in a run changes no line's count |
| ReporterCounts.RowById | src/reporter.cc:207-213 | a row whose line is known under another address is counted once, for that line |
| ReporterCounts.RowWaits | src/reporter.cc:202-206 | a row whose line is not known waits under its id, and nothing else moves |
| ReporterCounts.FirstTime | src/reporter.cc:363-380 | announcing a new line delivers exactly what was waiting for its id |
| ReporterCounts.KnownAgain | src/reporter.cc:335-361 | announcing a line again changes nothing |
| ReporterDatabase.RowsOfLine | src/reporter.cc:550-572 | a line writes one row for each address hit, with address, id, place in the line and count, in order |
| ReporterDatabase.RowsOfAll | src/reporter.cc:136-159 | and the rows of a file are those of all lines of all files walked |
| ReporterDatabase.ExtensionIsSigned | src/reporter.cc:568-568 | the count is the same number as signed 32 and signed 64 bits |
| ReporterDatabase.ExtensionKeepsLowBits | src/reporter.cc:568-568 | an int counter stored as 64 bits with its sign adds the same amount when read back |
| ReporterDatabase.DatabaseReads | src/reporter.cc:161-184 | an image is accepted and gives its rows in order, then only rows without hits from the 31 times as many zero bytes behind them |
| Layouts.DatabaseIs | src/reporter.cc:136-159 | big-endian: magic, version, checksum; from 16 on, 32 bytes a row: address, id, index, hits; then zeros |
| ReporterDatabase.PaddingIsSkipped | src/reporter.cc:183-184 | rows without hits change nothing |
| ReporterDatabase.DatabaseRestores | src/reporter.cc:161-223 | reading a written database restores exactly the rows marshalled |
| ReporterObject.Reporter.OnLine | src/reporter.cc:283-384 | filter, file, unreachable lines, line, indexes and pending hits: the step the invariants and counts are proved about |
| ReporterObject.Reporter.IsDuplicate | src/reporter.cc:347-356 | true exactly if a line with this id is already listed at the address |
| ReporterObject.Reporter.OnAddressHit | src/reporter.cc:418-444 | every line at the address is hit and, if it is its first hit, numbered in turn |
| ReporterObject.Reporter.Restore | src/reporter.cc:181-220 | a row goes to the lines at its address, else to the line with its id, else it waits |
| ReporterObject.Reporter.UnMarshal | src/reporter.cc:161-223 | false and no change exactly if magic, version or checksum differ; else every row of the buffer is restored |
| ReporterObject.Reporter.Marshal | src/reporter.cc:136-159 | every store is inside the over-allocated buffer and the result is the image DatabaseReads reads |
| ReporterObject.Reporter.MarshalSize | src/reporter.cc:242-253 | the summed sizes are 32 bytes for each row the marshalling will write |
| ReporterObject.MarshalLine | src/reporter.cc:550-572 | one row for each address with hits, in order, leaving the rest of the buffer zero |
| ReporterObject.HeaderMatches | src/reporter.cc:266-280 | the three checks on a big-endian header, on either kind of host |
| ReporterAccumulation.StoredIsTheCount | src/reporter.cc:136-159 | what the database of a finished run holds for a line is its stored plus live hits in 32 bits, in whatever order files are walked |
| ReporterAccumulation.CountGoesOn | src/reporter.cc:161-223 | a run that has stored for a line some count, in 32 bits, counts that plus its own live hits |
| ReporterTwoRuns.CountsCarryOver | src/reporter.cc:136-223 | a first run writes its database and a second reads the padded file at any time: each line then counts what was stored for it and hit in the first run plus what was hit in the second, in 32 bits, and the file is accepted |
| ReporterAccumulation.RunUnique | src/reporter.cc:632-641 | in every run each line stands in one slot of one file, so that it is marshalled once |
| Disassembler.BfdDisassembler.AddSection | src/parsers/bfd-disassembler.cc:107-114 | a new base adds a section not yet disassembled; a known one changes nothing |
| Disassembler.BfdDisassembler.LookupSection | src/parsers/bfd-disassembler.cc:301-337 | finds the section that contains the address if and only if there is one, for addresses not below the first section |
| Disassembler.BfdDisassembler.Disassemble | src/parsers/bfd-disassembler.cc:236-264 | the instructions known become exactly the stops of the sweeps of all sections disassembled so far, each with the target the decoder gives in its own section |
| Disassembler.BfdDisassembler.Verify | src/parsers/bfd-disassembler.cc:116-128 | after any questions before, true for an address exactly if it is in no section or the eager sweep of its section stops there |
| Disassembler.OnlyOne | src/parsers/bfd-disassembler.cc:236-264 | inside a disassembled section, known instructions are the stops of its own sweep, never of another's |
| Disassembler.SweepInside | src/parsers/bfd-disassembler.cc:250-263 | every stop of a sweep lies inside its section, at or after the offset it started from |
| Disassembler.StopsAre | src/parsers/bfd-disassembler.cc:236-264 | a sweep stops exactly where a path of instruction lengths from the start of the section leads, inside it, if the decoder knows what is there |
| Disassembler.BfdDisassembler.MarkLeaders | src/parsers/bfd-disassembler.cc:355-371 | the flags say: first instruction, after a branch, or target of a branch that is not last; code is unchanged |
| Disassembler.BfdDisassembler.PlaceBlocks | src/parsers/bfd-disassembler.cc:373-391 | the blocks joined are the ordered instructions, each block's only leader is its head, and each instruction points to the block it is in |
| Disassembler.BfdDisassembler.SetupBasicBlocks | src/parsers/bfd-disassembler.cc:339-392 | all sections swept, and blocks as above, the leaders being those of the decoder's targets, for two or more instructions, none for fewer; what is inserted besides are exactly the targets of branches that are not last |
| Disassembler.BfdDisassembler.GetBasicBlock | src/parsers/bfd-disassembler.cc:130-139 | a null block is followed if and only if the address is the only instruction of all sections, or is no instruction and the decoder's target of a branch that is not last; else it is the block that contains the address, or empty for no instruction |
| Disassembler.BranchesMakeBlocks | src/parsers/bfd-disassembler.cc:355-391 | where the decoder finds a branch that is not last, the next instruction heads a block, and so does the target if it is an instruction |
| Disassembler.HeadsAreLeaders | src/parsers/bfd-disassembler.cc:377-391 | and nothing else does but the first instruction |
| Disassembler.OneBlockWithoutBranches | src/parsers/bfd-disassembler.cc:355-391 | without branches everything is one block |
| Disassembler.OneInstructionCrashes | src/parsers/bfd-disassembler.cc:345-353 | a section with one instruction: its address is the case GetBasicBlock names |
| Disassembler.OutsideTargetCrashes | src/parsers/bfd-disassembler.cc:363-371 | two instructions, the first branching out of the code: so is its target |
| Disassembler.BlockInOrder | src/parsers/bfd-disassembler.cc:377-391 | each block is a consecutive run of the ordered instructions |
| Kprobe.IndexIsModule | src/kernel/kprobe-coverage.c:58-96 | an index of the name table stands for one module only |
| Kprobe.ModuleCame | src/kernel/kprobe-coverage.c:423-448 | a module coming leaves none of its own probes deferred and every list and address in order |
| Kprobe.ModuleWent | src/kernel/kprobe-coverage.c:450-472 | a module going leaves none of its own probes pending |
| Kprobe.RunKeepsInv | src/kernel/kprobe-coverage.c:109-472 | in every run each live entry is on exactly one list once; its address less its base is the offset asked for; deferred entries belong to unloaded modules, pending ones to loaded modules or the kernel; what was read was added |
| Kprobe.ReadShows | src/kernel/kprobe-coverage.c:269-328 | the first hit entry is printed with the module and offset it was added with, and is gone |
| Kprobe.ReadOnce | src/kernel/kprobe-coverage.c:269-328 | over a whole run each probe is read at most once, with its own module and offset |
| KprobeLife.PlacesAre | src/kernel/kprobe-coverage.c:109-472 | over any run, told by the events alone: which probes wait for their module, are armed, or were caught and are still to be read or were |
| KprobeLife.CaughtIsRead | src/kernel/kprobe-coverage.c:109-127 | what was caught and not cleared since is read out by as many reads as there are hits |
| KprobeLife.ReadsTake | src/kernel/kprobe-coverage.c:269-328 | so many reads print the hit list from its head, in order |
| KprobeLife.HitsInOrder | src/kernel/kprobe-coverage.c:119-121 | hits are listed in the order in which they were last triggered |
| KprobeLife.NamesAre | src/kernel/kprobe-coverage.c:58-96 | the table has the kernel and the modules asked for since it was last cleared |
| KprobeLife.ShownStays | src/kernel/kprobe-coverage.c:243-267 | nothing takes back what was read, clearing included |
| Kprobe.WrappedSum | src/kernel/kprobe-coverage.c:441-442 | a deferred address raised by the module base is the address a direct registration would have had, in 64 bits |
| Kprobe.FullTableConfusesModules | src/kernel/kprobe-coverage.c:86-94 | in every state with a full name table, whatever else is deferred, a module nobody named enables a probe meant for another |
| Kprobe.TableCanBeFull | src/kernel/kprobe-coverage.c:77-96 | for any two modules a run reaches a state whose full table has neither |
| Kprobe.KprobeCoverage.AllocateModuleNameIndex | src/kernel/kprobe-coverage.c:77-96 | the index of a known name, the next free one for a new name, -1 and no change when full |
| Kprobe.KprobeCoverage.AddProbe | src/kernel/kprobe-coverage.c:185-220 | deferred, pending or freed as module and kernel decide: the step RunKeepsInv is about |
| Kprobe.KprobeCoverage.ProbeWork | src/kernel/kprobe-coverage.c:109-127 | a triggered entry moves from whatever list it is on to the end of the hit list: the step PlacesAre and HitsInOrder are about |
| Kprobe.KprobeCoverage.ShowNext | src/kernel/kprobe-coverage.c:269-328 | prints and frees the first hit entry as it was added, if there is one |
| Kprobe.KprobeCoverage.ClearProbes | src/kernel/kprobe-coverage.c:243-267 | all three lists are emptied and freed, only the kernel keeps its name, and what was read stays |
| Kprobe.KprobeCoverage.HandleComingModule | src/kernel/kprobe-coverage.c:423-448 | the loop over the deferred list rebases and enables the entries of this module: the step ModuleCame is about |
| Kprobe.KprobeCoverage.HandleGoingModule | src/kernel/kprobe-coverage.c:450-472 | the loop over the pending list frees the entries of this module: the step ModuleWent is about |
| Filter.DepthIsLargestNet | src/filter.cc:91-142 | in one pass through a file the depth after k lines is the largest net of starts less stops over any stretch that ends there, the empty one included |
| Filter.DroppedIff | src/filter.cc:91-142 | a line is dropped if and only if it has a single-line mark, a begin mark, or some stretch just before it has more lines with begin marks than with end marks |
| Filter.FileLineHandler.Match | src/filter.cc:91-142 | answer and counter are those the two lemmas are about, whatever was matched before |
| Filter.IncludeByPattern | src/filter.cc:231-260 | a file is in if and only if an include pattern occurs in it or there is none, and no exclude pattern does |
| Filter.IncludeByPath | src/filter.cc:291-334 | a real path is in if and only if it is an include path, continues one with a slash, or there is none, and so for no exclude path |
| CommonPath.WriterBase.Shorten | src/writers/writer-base.cc:152-165 | terminates with the longest truncation at a slash that the name starts with, if there is one |
| CommonPath.WriterBase.SetupCommonPaths | src/writers/writer-base.cc:143-167 | for absolute names the path is the longest slash-truncation of the first name, or of an earlier result, that every name starts with |
| CommonPath.LongestChains | src/writers/writer-base.cc:145-166 | shortening file by file is shortening towards all of them |
| CommonPath.LongestIsUnique | src/writers/writer-base.cc:145-166 | from one first path the result does not depend on order or repetition of the files |
| CommonPath.AlwaysSome | src/writers/writer-base.cc:158-160 | an absolute path always has a truncation that fits, be it the empty one |
| CommonPath.StartingFrom | src/writers/writer-base.cc:143-167 | from each name the result is the longest common prefix of all if that ends the name or a directory of it, else that prefix cut at its last slash |
| CommonPath.FirstMattersIff | src/writers/writer-base.cc:149-150 | for absolute names the result is the same whichever comes first if and only if their longest common prefix is followed by a slash or nothing in all of them or in none |
| CommonPath.DependsOnTheFirst | src/writers/writer-base.cc:149-150 | a file beside a directory whose name its own name starts with is such a case |
| CommonPath.RepeatedCallsChangeNothing | src/writers/writer-base.cc:143-167 | a further call on the same files, in any order, leaves the path as it is |
| BashParser.ParseFileBasic | src/engines/bash-engine.cc:591-641 | the loop reports the numbers of the lines the basic classification calls code |
| BashParser.ParseFileFull | src/engines/bash-engine.cc:643-845 | the loop reports the numbers of the lines the state machine calls code; ReportedIffCode says which |
| BashParser.Line | src/engines/bash-engine.cc:686-843 | the nest of tests of one turn decides state and verdict as the machine does |
| BashParser.FullWithinBasic | src/engines/bash-engine.cc:591-845 | for every script the full parser reports only lines the basic one reports |
| BashLines.ReportedIffCode | src/engines/bash-engine.cc:643-845 | told by the texts of this and earlier lines, not by the machine: which lines of a script the full parser reports |
| BashTexts.BasicReports | src/engines/bash-engine.cc:591-641 | the basic parser reports every line but empty ones, the six keywords, lone brackets and what starts with `function` |
| BashTexts.BasicIsReportedUnless | src/engines/bash-engine.cc:643-845 | the full parser reports these too, unless the line starts with `;;` or defines a function, is swallowed by what an earlier line opened, opens a string, is `done <<`, is in arithmetic left open, or is a case switch |
| BashTexts.CommentsAreNotReported | src/engines/bash-engine.cc:660-684 | neither parser reports a line of blanks and a comment |
| BashTexts.CodeIsKept | src/engines/bash-engine.cc:660-684 | what stands before a comment is kept as it is |
| BashTexts.HashStays | src/engines/bash-engine.cc:664-679 | a # behind a $, in ${ and }, or behind a quotation mark starts none |
| BashTexts.TrimIs | src/utils.cc:558-574 | trimming takes the blanks off both ends and nothing else |
| BashTexts.MarkerIs | src/engines/bash-engine.cc:768-802 | the marker of a here document is the word behind << or <<-, without its quotation marks |
| BashParser.DocumentIsSwallowed | src/engines/bash-engine.cc:743-751 | a here document swallows every line up to and including its marker, and no further |
| BashParser.ContinuationIsSwallowed | src/engines/bash-engine.cc:726-732 | a continued line swallows the lines up to the first that is not continued itself |

## Left out

- The operating system: ptrace, waitpid, FIFOs, mmap, threads, signals and files are inputs of the steps that use
  them; their error returns are modelled only for waiting and continuing, not for a failed poke or a file that cannot
  be written.
- A tracer killed between its compare-and-swap and its add, and a memcpy that sees half a word.
- How hit memory and its counters are laid out in the shared mapping, and the map of output files.
- Breakpoints on processors other than x86-64: clearing there writes back the whole saved word
  (src/engines/ptrace.cc:84-86), so the property of single bytes is not theirs.
- `skipInstruction` and following new children do nothing on x86-64 Linux. That waiting for solib data blocks is an
  out-parameter.
- The instruction set in `Transparency` is any function of memory and processor. Code that reads or writes itself,
  threads running at once in one memory and other signals are outside the simulations, not outside `PtraceEngine`.
  Forks happen behind instructions of more than one byte, as system calls are.
- PtraceEngine.Ptrace.ContinueExecution: the listener gets the event returned, between the wait and the clear, and does
  not register breakpoints itself; in `Transparency` new ones are registered at the end of a turn.
- Listeners: the calls of `onLine`, `onAddressHit`, `onAddress` and `onLineReporter` to others, and `reportAddress`.
- The walk over the directories of metadata, `parseOne`, the summaries and what is written besides the coverage.
- File existence, real paths, mangled paths, checksums and hashes are fixed functions; the order in which hash maps
  are walked is a parameter (`rows`, `names`) over which everything is quantified.
- The counts in the lines of a metadata file (`m_lines[..][..]++`), of which nothing but the keys is used.
- What comes of reading metadata, hit memories, processed binaries and databases that pass their checks but whose offsets
  point outside: the source trusts them, and so do the preconditions `Inside`, `Ranged` and `InBounds`.
- SystemModeFile.FromProcessedFile: says of a file that is not `Readable` only that memory outside it, or outside the buffer
  of the table, is touched.
- SystemModeFile.File.GetProcessedData: says nothing of the result once the stray terminator is behind the buffer.
- Line filters are run with the number of the line announced (src/reporter.cc:324); no filter looks at it.
- The decoder is a function from section and offset to length and target; parsing its text is left out. A verify
  after the blocks are built, a second `getBasicBlock`, and an address below the lowest section, where the source
  steps before the first element of a map, are not modelled.
- HitProtocol.QuietCleanFileIsExact: needs fewer than 2^32 uncleaned bumps, for the reason CleanMeansMultiple gives;
  TrustedIff is the condition on tracers and words.
- SystemModePipeline.ReportReplaysTheHits: needs the list of addresses to be the same at record and report.
- ReporterAccumulation.CountIsStoredPlusLive: is about lines with one address and unlimited hits. A waiting hit for an index
  its line does not have yet is dropped by the source (src/reporter.cc:515-516), so no such law holds for others.
- MergeParser.MergeIsUnion: excludes two lines with one address, two files with one line id and stale checksums;
  `MergeCounts` and `MergeOrder` do not.
- Kprobe.RunKeepsInv: needs room in the name table, as FullTableConfusesModules shows. Each operation is one step: a
  clear or another reader between unlinking an entry and printing it is not modelled, nor are the control file and
  the wait queue.
- CommonPath.WriterBase.SetupCommonPaths: says nothing for relative names, where the path left over need not fit.
- Options, configuration, the parsing of exclude markers, regular expressions, report text, the Mach engine, the Python
  engine and the vendored JavaScript.
