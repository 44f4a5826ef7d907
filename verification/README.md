# Memory management and instruction restart of the emulated 680x0

This project models the memory management units of the CPU emulation (68030, 68040 and 68060),
the machinery with which a faulted 68030 instruction is restarted, and two pieces of bit and
decimal arithmetic, and proves what they are for. `dafny verify dfyconfig.toml` checks all of it.

The main results:

* **68030 translation.** In every run of accesses, access probes, PLOAD, PFLUSH and flushing PMOVE,
  the MMU with its 22-line ATC, its two 256-entry page caches and its instruction page cache gives
  an operation the outcome of an MMU that searches the tables every time, up to the first write
  through a page-type root pointer, and except exactly for probes of protected pages that have no
  line (`Trace030.RunsDiffer`, `Trace030.RunsAgree`, `Machine030.RunProgram`). The search itself is
  proved, for all table contents and all places where descriptors cannot be read or written, against
  a recursive specification (`Search030.TableWalk`), whose path is pinned on raw longwords and
  address bits (`Path030.WalkPath`), and its effects on descriptor memory are exactly bounded
  (`WalkLaws030.WalkEffect`, `Rom030.JammedExactly`).
* **68030 restart.** An instruction is any deterministic program of logged accesses and indexed
  address calculations, each with the registers as they are at that point, that may end in a
  last write. Whatever bus cycles fault, however often, with the whole CPU state destroyed by the
  handler except for the stack frame, it ends with the memory, program counter, result and
  sequence of bus cycles of a run without faults (`Core030.Core.Execute`). This covers split
  misaligned accesses faulting at any cycle, and the short frame of a last write, which RTE
  retries without running the instruction again. The addresses are those of the 68020 addressing
  modes (`Ea020.EaMeans`). FMOVEM has its own counterpart (`Fmovem030.ExecuteStore`,
  `Fmovem030.ExecuteLoad`), and what it saves it restores (`Rows030.SaveAndRestore`).
* **68040/68060 translation.** The set-associative ATC and the shortcut caches behind transparent
  translation and the enable bit of TC: in every run each operation has the outcome of an MMU that
  searches each time, if and only if it is not a locked read of a write-protected page that sits in
  the read cache (`Trace040.RunsDiffer`, `Trace040.RunsAgree`, `Machine040.RunProgram`). The way
  search with its jump back after a refill searches the tables at most once
  (`Mmu040.Mmu040.TranslateAddr`). The search is that on raw longwords (`Path040.WalkIs`).
* **Bit fields and packed decimals.** The lens laws for every offset, width and value over all
  five byte spans, and the round trip of packed decimal digits.

## How the model is laid out

| files | content |
|---|---|
| `Words`, `Bits` | 32-bit words, descriptor longwords, descriptor memory and its layout; numbers bit by bit |
| `Walk030`, `WalkLaws030`, `Stable030`, `Settle030`, `Rom030`, `Path030`, `Fresh030` | the 68030 table search as a recursive function, its laws and its path on raw longwords |
| `Search030`, `Tc030` | the search loop and the TC decoder as the program runs them |
| `Atc030`, `State030`, `Run030`, `Refine030`, `Trace030`, `Reach030` | the 68030 MMU as a state, its invariant, agreement with the plain search, whole runs |
| `Match030`, `Reference030` | transparent translation, the reference machine and the cache keys of the 68030 on raw bits |
| `Exits030`, `Witness030` | what the flushes forget, where the 68030 MMU falls short and inputs on which it does |
| `Mmu030`, `Machine030` | the MMU object with its arrays, and a driver |
| `Gate040` | transparent translation registers and the enable bit of the 68040 and 68060 |
| `Path040`, `Reference040` | the 68040/68060 search, reference machine, tags and keys on raw longwords and address bits |
| `Walk040`, `Settle040`, `Rom040`, `State040`, `Run040`, `Refine040`, `Trace040`, `Reach040`, `Witness040`, `Mmu040`, `Machine040` | the search, the MMU, its runs and its object for the 68040 and 68060 |
| `Bus030`, `Access030` | byte memory, split accesses and their continuation |
| `Program030`, `Ea020`, `Restart030`, `Core030` | instructions as programs, indexed addressing, the log, memo, frame, RTE and rerun |
| `Fmovem030`, `Rows030` | FMOVEM under the 68030 MMU; its masks and addresses, saving and restoring |
| `Bitfield060`, `Packed` | bit-field read-modify-write, packed decimal digits |

Conventions. A descriptor longword is a record of the bit fields the walkers look at (`Words.Word`).
Masks and shifts by whole bit positions are division and remainder by powers of two, and an OR of
disjoint bits is an addition; where an AND is the point (the TC masks) it is the bitwise function
`Words.And`, and the bit-field module works on strings of bits. Descriptor memory is a map from
addresses to longwords; an absent address answers with a bus error, and so does a write to an
address of the set `rom`. The table walkers are proved for arbitrary contents and sets. The run
theorems assume a layout in which descriptor longwords do not overlap and can be written, and whose
descriptors only the walker changes between reconfigurations. Reading the ATC at index -1 is
undefined in C; the model reads a line of arbitrary contents there (`stray`) and goes on with it as
the program does, and the reference machine says `Wild` of such a write. Functions that both a
specification and a program use are tied to literal bits of the registers and longwords they read by
laws of their own (`Path030`, `Path040`, `Match030`, `Gate040`, `Reference030`, `Reference040`, `Tc030`,
`Ea020`, `Rows030`).

Where the program does less than one would expect, the model keeps what it does, the exact
condition is proved, and a lemma gives an input on the failing side:

| exact condition | where it fails | input |
|---|---|---|
| `Exits030.LookupAfterSearch`, `Exits030.WildExact` | a write through a page-type root pointer reads the ATC at index -1, and what it finds there goes into the write cache | `Witness030.LookupWitness`, `Witness030.WildWitness` |
| `Exits030.CheckFcExact` | the probe of the data cache forgets write protection after a miss | `Witness030.CheckFcWitness` |
| `Exits030.TranslateMisses` | the address translator for writes misses pages not marked modified | `Witness030.TranslateWitness` |
| `Refine040.LockedReadExact` | a locked read that the read cache answers needs no write permission | `Witness040.LockedReadWitness` |
| `Rom030.JammedExactly`, `Rom040.HaltsExactly` | a search that has to mark a descriptor it cannot write ends in a bus error, and the ATC then refuses reads too | `Witness030.RomWitness` |
| `Bitfield060.WrittenExact` | the write function taken alone: values wider than the field spill over bits before it (the bit-field instructions pass only values that fit) | `Bitfield060.WiderWitness` |
| `Packed.RoundTrip` | exponents of four digits lose the first one | `Packed.FourDigitsWitness` |

## Model

| member | source | states |
|---|---|---|
| Tc030.DecodeTc | src/cpu/cpummu030.c:866-937 | TC is accepted if and only if bits 23-20 are at least 8 and bits 23-20, 19-16 and the nibbles 15-12, 11-8, 7-4 and 3-0 before the first zero one sum to 32, although `shift` is an 8-bit variable that wraps; the decoded masks and shifts are the address bands of these nibbles in order |
| Tc030.BuildMask | src/cpu/cpummu030.c:908-911 | the bit-by-bit loop yields the band of `bits` bits above `shift` |
| Tc030.AcceptsMeans | src/cpu/cpummu030.c:877-936 | acceptance on the nibbles of the register |
| Tc030.DecodesMeans | src/cpu/cpummu030.c:896-914 | masks, shifts and number of levels on the nibbles of the register |
| Tc030.ThreeLevels | src/cpu/cpummu030.c:896-937 | 0x80c07760 decodes to three levels with literal masks; 0x80c0a0a0, which has a gap, is rejected |
| Tc030.IndexMeans | src/cpu/cpummu030.c:1379 | a table index is the address below the top bit of its field, shifted down |
| Tc030.UnusedMeans | src/cpu/cpummu030.c:1559-1564 | the bits an early termination adds to the page are the address bits of its own and all lower tables |
| Tc030.MasksDisjoint | src/cpu/cpummu030.c:889-914 | no address bit belongs to two table indices |
| Tc030.OffsetDisjoint | src/cpu/cpummu030.c:889-914 | no address bit belongs to an index and the page offset, for each level of any number of levels |
| Tc030.IndicesAndOffsetRebuild | src/cpu/cpummu030.c:889-914 | the table indices and the offset add up to the address below the initial shift |
| Search030.TableWalk | src/cpu/cpummu030.c:1211-1593 | for all table contents, and bus errors on reading or writing descriptors, the search loop with its goto exits and its CATCH branch gives the page, limit faults, protection, status and descriptor memory of the recursive specification, and every index into the seven-entry descriptor array is in range |
| Path030.WalkPath | src/cpu/cpummu030.c:1240-1579 | on raw longwords: the root pointer of the privilege; each descriptor at the pointer before it with its low 4 bits clear plus 4 or 8 times the function code or the address bits of the level, or at an indirect pointer with its low 2 bits clear; the search goes on over table types whose limit allows it, and stops at the first page, violated limit, invalid type, unreadable address or requested level; the page is the pointer with its low 8 bits clear plus the unused index bits |
| Path030.LimitExactly | src/cpu/cpummu030.c:1386-1401 | a search stops on a limit if and only if its last descriptor is long and the next index exceeds bits 30-16 with bit 31 clear, or is below them with bit 31 set |
| Path030.LimitMeans | src/cpu/cpummu030.c:1386-1401 | the limit test on the raw longword |
| Path030.ProtectionMeans | src/cpu/cpummu030.c:1350-1357 | write protection is bit 2 of a table or page descriptor of the path, supervisor protection bit 8 of a long one |
| Search030.UpperTables | src/cpu/cpummu030.c:1348-1449 | the do/while over the table levels against the recursion |
| Search030.Descend | src/cpu/cpummu030.c:1371-1449 | one round after its marking: level and limit checks, next descriptor, and where it leads |
| Search030.HandlePage | src/cpu/cpummu030.c:1491-1576 | the page descriptor exit: U and M bits, limit of an early termination, page address with its unused index bits |
| Search030.HandleIndirect | src/cpu/cpummu030.c:1452-1489 | indirect descriptors of both sizes |
| Words.RawFields | src/cpu/cpummu030.c:1112-1123 | a descriptor longword is its fields, and the address masks take the fields they name |
| WalkLaws030.WalkEffect | src/cpu/cpummu030.c:1348-1519 | a search only sets U and M bits in descriptors on its path, M only in the final page descriptor of a write that nothing forbids; a PTEST search changes no memory and reports at most its level; no search fetches more than six descriptors |
| WalkLaws030.WalkEndsLive | src/cpu/cpummu030.c:1493-1530 | a search that finds a page ends at a descriptor it fetched, unless the root pointer is of page type; then the page is never reported modified |
| Stable030.WalkAlike | src/cpu/cpummu030.c:1211-1579 | searches of a page from memories that differ in U and M bits only agree, for reading or writing |
| Settle030.WalkSettles | src/cpu/cpummu030.c:1348-1519 | after a search that completes, every descriptor on its path is marked as that search asks |
| Settle030.WalkQuiet | src/cpu/cpummu030.c:1348-1519 | a search of a path already marked changes nothing |
| Rom030.JammedExactly | src/cpu/cpummu030.c:1360-1592 | a search ends in a bus error on a descriptor write if and only if the same search with all memory writable would change a descriptor that cannot be written; any other search is the same as with all memory writable |
| Rom030.LaidNeverJams | src/cpu/cpummu030.c:1348-1519 | no search over a layout that can be written ends that way |
| Fresh030.WalkLocal | src/cpu/cpummu030.c:1211-1579 | a search depends on the page of its address only |
| Fresh030.KeyFacts | src/cpu/cpummu030.c:1918-1942 | page-cache and instruction-cache keys name one page and function code each, the page flush finds exactly the keys of its page, and no key is an empty-slot value |
| Fresh030.AfterSearch | src/cpu/cpummu030.c:1211-1593 | after a search a fresh search of the page finds the same, and changes nothing |
| Fresh030.Later | src/cpu/cpummu030.c:1211-1579 | what a search found stays true while descriptors only gain U and M bits |
| Atc030.FindUnique | src/cpu/cpummu030.c:2064-2096 | with at most one line per page and function code, a lookup by content finds that line |
| Atc030.TouchLeavesOld | src/cpu/cpummu030.c:1035-1052 | after the history update some history bit is clear |
| Atc030.VictimExists | src/cpu/cpummu030.c:1614-1638 | over every run of touches a replaceable line exists, and in a full ATC it is not the line touched last: the "entry not found" exit cannot be reached |
| Run030.LookupKeeps | src/cpu/cpummu030.c:2064-2096 | a lookup keeps the invariant, returns only a line of the page that can serve the access, and after a miss no line of the page is left |
| Run030.InstallKeeps | src/cpu/cpummu030.c:1614-1654 | a new line keeps at most one line per key and the agreement of all three caches with the tables |
| Run030.ResolveKeeps | src/cpu/cpummu030.c:2113-2137 | lookup, search and second lookup give a line that answers the access, or none only for a write to an unmodifiable page |
| Run030.UseLineKeeps | src/cpu/cpummu030.c:1944-2016 | using a line gives the outcome of a fresh search and fills the page caches only with pages a fresh search finds accessible, for writing also writable and marked modified |
| Run030.SlotsLater | src/cpu/cpummu030.c:1918-2016 | cache entries stay right while other searches set U and M bits |
| Refine030.HitAgrees | src/cpu/cpummu030.c:2113-2336 | a hit in the read, write or instruction page cache is the translation a fresh search gives |
| Refine030.AccessAgrees | src/cpu/cpummu030.c:2113-2447 | every kind of access, hit or miss, translated or transparent, agrees with a plain search and keeps the invariant, unless it is a write for which the plain search has no outcome |
| Reference030.AccessMeans | src/cpu/cpummu030.c:1944-2060 | the reference on raw bits: which kinds search for writing, when an access faults and with which direction, and the physical address bit for bit |
| Reference030.KeysMean | src/cpu/cpummu030.c:1918-1942 | page-cache key, instruction key and hint slot as the masks and shifts of the source compute them |
| Match030.MatchMeans | src/cpu/cpummu030.c:679-721 | a transparent translation register answers if and only if it is on, agrees with the address and function code in every bit its masks leave, and RWM is set or RW is the direction of the access; locked cycles need RWM |
| Match030.RegisterMeans | src/cpu/cpummu030.c:628-703 | the same on the bits of the register |
| Match030.UntranslatedMeans | src/cpu/cpummu030.c:2113-2366 | an access goes untranslated if and only if translation is off, its function code is 7, or one of the two registers answers for its kind |
| Match030.FcCoveredMeans | src/cpu/cpummu030.c:244-258 | PFLUSH covers a function code if and only if it agrees with the base in every bit of the mask |
| Refine030.FlushesKeep | src/cpu/cpummu030.c:222-302 | every flush keeps the invariant |
| Trace030.StepMatched | src/cpu/cpummu030.c:339-626 | one operation has the same outcome on both machines if and only if it is neither a loose probe nor a write through a page-type root pointer, and keeps the machines matched unless it is the latter |
| Trace030.RunsDiffer | src/cpu/cpummu030.c:2113-2468 | in every run, up to and including the first write through a page-type root pointer, each operation has the outcome that an MMU without caches gives it, if and only if it is neither that write nor a probe of a protected page without a line |
| Trace030.RunsAgree | src/cpu/cpummu030.c:2113-2468 | a run of accesses, probes, PLOAD, PFLUSH, flushing PMOVE, guest stores outside the tables and rebuilt tables has the outcomes of an MMU without caches, if and only if it has no such write and no such probe |
| Trace030.RunsFromReset | src/cpu/cpummu030.c:2683-2705 | the same for every run from reset, which turns translation off and empties the instruction page cache but leaves lines, history bits and data page caches as they were |
| Reach030.LookupExact | src/cpu/cpummu030.c:2064-2096 | a lookup succeeds if and only if the page has a line that can serve the access |
| Reach030.RunsKeep | src/cpu/cpummu030.c:2113-2447 | after every run without a write through a page-type root pointer the invariant holds and descriptor memory is that of the machine without caches, but for U and M bits |
| Reach030.ReachableCaches | src/cpu/cpummu030.c:1918-2016 | in every state reachable from reset, warm or cold, by a run without a write through a page-type root pointer, at most one line answers for a key, a line can be replaced, each hit in the read, write or instruction page cache is the address of a fresh search, and the write cache holds only writable pages marked modified |
| Exits030.FlushAllForgets | src/cpu/cpummu030.c:293-302 | after PFLUSHA no line and no page-cache entry answers for any key |
| Exits030.FlushFcForgets | src/cpu/cpummu030.c:244-258 | PFLUSH by function code: every covered key is forgotten, every other line stays |
| Exits030.FlushPageFcForgets | src/cpu/cpummu030.c:260-275 | PFLUSH by function code and page: covered keys of the page are forgotten in every cache, other lines stay |
| Exits030.FlushPageForgets | src/cpu/cpummu030.c:277-291 | the page flush used by searches forgets all function codes of a page |
| Exits030.LookupAfterSearch | src/cpu/cpummu030.c:2126-2132 | after a miss and a search the lookup gives -1 if and only if the access is a write to a valid page through a page-type root pointer |
| Exits030.WildExact | src/cpu/cpummu030.c:1944-1963 | the reference has no outcome for an access if and only if it is a translated write to a page found through a page-type root pointer |
| Exits030.CheckFcExact | src/cpu/cpummu030.c:2449-2468 | the access probe has the verdict of the access it stands for, address or fault, except exactly for a write to a protected page that has no line, when it reports an address; either way it keeps the invariant |
| Exits030.TranslateMisses | src/cpu/cpummu030.c:2666-2681 | the debugger's translation of a write ends without a line exactly for writable pages not yet marked modified |
| Exits030.FaultStays | src/cpu/cpummu030.c:1614-1654 | the line that a failed search for writing leaves refuses reads of the page too |
| Witness030.OneLevelIsDecoded | src/cpu/cpummu030.c:866-937 | the translation parameters of the three inputs below are those of an accepted TC |
| Witness030.LookupWitness | src/cpu/cpummu030.c:2126-2132 | a page-type root pointer and a write: line index -1 |
| Witness030.WildWitness | src/cpu/cpummu030.c:1944-1963 | such a write with zeroes in front of the ATC: the next write to the page goes to address 0, from the write cache, while a search gives another address |
| Witness030.CheckFcWitness | src/cpu/cpummu030.c:2449-2468 | one write-protected page and an empty ATC: the probe for writing reports no fault, the write faults |
| Witness030.TranslateWitness | src/cpu/cpummu030.c:2666-2681 | one page in order with its M bit clear: the translator for writes ends without a line |
| Witness030.RomWitness | src/cpu/cpummu030.c:1614-1654 | one page descriptor that cannot be written and has M clear: after a write the ATC refuses reads of the page, while a search finds it |
| Mmu030.Mmu030.HandleHistoryBit | src/cpu/cpummu030.c:1035-1052 | history bits in place, against the specification |
| Mmu030.Mmu030.LogicalIsInAtc | src/cpu/cpummu030.c:2064-2096 | the rotating scan from any hint visits all 22 lines once: it returns the line of the page exactly when there is one, updates the hint and drops an unusable line |
| Mmu030.Mmu030.FindVictim | src/cpu/cpummu030.c:1616-1638 | the replacement loops find the first invalid or first unrecent line |
| Mmu030.Mmu030.TableSearch | src/cpu/cpummu030.c:1614-1654 | a level-0 search with its page flush and new line |
| Mmu030.Mmu030.PTest | src/cpu/cpummu030.c:1605-1612 | PTEST at level 1 to 7 leaves memory, ATC and page caches alone and reports at most as many levels |
| Mmu030.Mmu030.FlushCachePage | src/cpu/cpummu030.c:222-241 | the page-cache flush loop |
| Mmu030.Mmu030.FlushCacheAll | src/cpu/cpummu030.c:222-241 | the page-cache flush loop for the address that means everything |
| Mmu030.Mmu030.FlushAtcAll | src/cpu/cpummu030.c:293-302 | whole new state after PFLUSHA |
| Mmu030.Mmu030.FlushAtcFc | src/cpu/cpummu030.c:244-258 | whole new state after a flush by function code |
| Mmu030.Mmu030.FlushAtcPageFc | src/cpu/cpummu030.c:260-275 | whole new state after a flush by function code and page |
| Mmu030.Mmu030.FlushAtcPage | src/cpu/cpummu030.c:277-291 | whole new state after a flush of a page |
| Mmu030.Mmu030.UseAtc | src/cpu/cpummu030.c:1944-2060 | fault or physical address from a line, and the page-cache entry it leaves; at index -1 from whatever lies there |
| Mmu030.Mmu030.Get | src/cpu/cpummu030.c:2192-2272 | data reads with their page-cache path |
| Mmu030.Mmu030.Put | src/cpu/cpummu030.c:2113-2190 | data writes with their page-cache path |
| Mmu030.Mmu030.GetIns | src/cpu/cpummu030.c:2274-2336 | instruction fetches with the one-entry cache |
| Mmu030.Mmu030.Generic | src/cpu/cpummu030.c:2340-2447 | the generic and locked accessors |
| Mmu030.Mmu030.CheckAccess | src/cpu/cpummu030.c:2449-2468 | the access probe with its check of write protection on a hit only |
| Mmu030.Mmu030.Load | src/cpu/cpummu030.c:513-533 | PLOAD flushes the page, then searches |
| Mmu030.Mmu030.MoveTc | src/cpu/cpummu030.c:391-401 | PMOVE to TC: enable, SRE and FCL are bits 31, 25 and 24; accepted exactly when translation is off or the decoder accepts, then everything is flushed; a rejected value leaves lines, data page caches and memory as they were, translation on, and masks and shifts open |
| Reference030.TcMeans | src/cpu/cpummu030.c:818-822 | enable, SRE and FCL are bits 31, 25 and 24 of TC |
| Machine030.RunProgram | src/cpu/cpummu030.c:2113-2468 | a whole run on the object with its arrays: the same index by index |
| Walk040.WalkAlike4 | src/cpu/cpummu.c:664-827 | searches from memories that differ in U and M bits only agree |
| Settle040.WalkSets | src/cpu/cpummu.c:695-762 | a search only sets U and M bits, only in the at most three descriptors of its path (root entry, pointer entry, page descriptor after any indirection), M only in the last one, by a write that neither protection nor privilege forbids; a page found is the last descriptor as left in memory |
| Settle040.WalkSettles4 | src/cpu/cpummu.c:695-762 | after a search that finds a page its whole path is marked used |
| Settle040.UsedIsQuiet | src/cpu/cpummu.c:695-762 | searching a marked page again changes nothing |
| Rom040.HaltsExactly | src/cpu/cpummu.c:695-827 | a search is the same as with all memory writable if and only if that one would change no descriptor that cannot be written; otherwise it ends in a bus error |
| State040.KeyFacts4 | src/cpu/cpummu.c:911-916 | tag and set index, and each shortcut key, name one page and privilege for both page sizes, and no empty value is a key |
| Gate040.MatchMeans | src/cpu/cpummu.c:554-582 | a transparent translation register answers exactly when it is on, its base and the address agree in every bit its mask leaves, and it accepts the privilege; it refuses writes exactly when write protected |
| Gate040.RegisterMeans | src/cpu/cpummu.c:554-582 | the same on the bits of the register |
| Gate040.PairMeans | src/cpu/cpummu.c:584-612 | data accesses ask DTT0 then DTT1, instruction accesses ITT0 then ITT1 |
| Reference040.RegistersMean | src/cpu/newcpu_common.c:153-156 | MOVEC to registers 4 to 7 loads ITT0, ITT1, DTT0 and DTT1 |
| Run040.SlotsLater | src/cpu/cpummu.c:829-859 | cached entries stay right while other searches set U and M bits |
| Refine040.FillKeeps | src/cpu/cpummu.c:664-827 | filling a way keeps at most one way of a set per tag and the agreement of every cache with the tables |
| Refine040.RefillAgrees | src/cpu/cpummu.c:971-985 | one refill settles an access: address or bus error as a plain search says |
| Refine040.TranslateAgrees | src/cpu/cpummu.c:906-986 | `mmu_translate` gives the outcome of a plain search |
| Reference040.AccessMeans | src/cpu/cpummu.c:906-986 | the reference on raw bits: bus error or the page of the descriptor joined with the low 12 or 13 address bits |
| Reference040.LineMeans | src/cpu/cpummu.c:776-785 | the line a search leaves has the bits of the descriptor |
| Reference040.TagMeans | src/cpu/cpummu.c:911 | the tag as the source computes it |
| Reference040.SetMeans | src/cpu/cpummu.c:913-916 | the set index as the source computes it |
| Reference040.KeysMean | src/cpu/cpummu.c:829-859 | the shortcut keys as the source computes them |
| Reference040.SlotMeans | src/cpu/cpummu.c:911-923 | where the lines of a type and set stand |
| Refine040.FetchAgrees | src/cpu/cpummu.h:270-317 | a translated instruction fetch, from the shortcut or not, is a plain search |
| Refine040.ReadAgrees | src/cpu/cpummu.h:319-557 | a translated read is a plain read; so is a locked read that the read cache answers, which is a plain write search otherwise |
| Refine040.LockedReadExact | src/cpu/cpummu.h:475-557 | the read of a locked cycle has the outcome of a search for writing, if and only if it is not a read-cache hit on a write-protected page |
| Witness040.ReadFills | src/cpu/cpummu.c:829-859 | a data read that completes leaves its page in the read cache, unless the page belongs to the unused last slot |
| Witness040.LockedReadWitness | src/cpu/cpummu.h:475-557 | a write-protected page that was read before, from any state of the caches: the locked read is let through, a search for writing refuses |
| Refine040.WriteAgrees | src/cpu/cpummu.h:397-641 | a translated write, from the write shortcut or not, is a plain write search |
| Trace040.FlushPageForgets | src/cpu/cpummu.c:1486-1508 | the global form forgets the page, the other keeps exactly its global lines, lines of other pages stay, no shortcut of the page is left |
| Trace040.FlushAllForgets | src/cpu/cpummu.c:1510-1525 | everything is forgotten but, in the non-global form, exactly the global lines |
| Trace040.PTestKeeps | src/cpu/cpummu.c:1429-1453 | PTEST, which fills a line itself unless a transparent translation register answers, keeps the invariant |
| Trace040.StepMatched | src/cpu/cpummu.c:906-986 | one operation, translated, transparent or refused, gives the cached machine and the machine without caches the same outcome if and only if it is not a locked read of a protected page in the read cache, and keeps them matched in any case |
| Trace040.RunsDiffer | src/cpu/cpummu.c:906-986 | in every run, each operation has the outcome that an MMU without caches gives it, if and only if it is not such a locked read |
| Trace040.RunsAgree | src/cpu/cpummu.c:906-986 | a run has the outcomes of an MMU that searches each time and knows nothing of the caches, if and only if it has no such locked read |
| Trace040.RunsAfterSetup | src/cpu/cpummu.c:1567-1603 | the same from any state of the caches once TC is loaded, with translation on or off |
| Reach040.ReachableCaches | src/cpu/cpummu.h:270-641 | in every state reachable after TC is loaded at most one way of a set carries a tag and, while translation is on, each shortcut hit is the address of a fresh search and the write shortcuts hold only writable pages marked modified |
| Reach040.OneSearch | src/cpu/cpummu.c:906-986 | one translation leaves descriptor memory as no search or one search leaves it, and ends in an address or a fault |
| Mmu040.SearchTables | src/cpu/cpummu.c:664-827 | the three-level search descriptor by descriptor, for all table contents and bus errors on reading or writing descriptors, against the specification |
| Path040.WalkIs | src/cpu/cpummu.c:664-827 | the search equals one written on raw longwords: SRP for supervisor and URP for user searches, table addresses masked and indexed by literal address bits for both page sizes, validity, protection, use, modification and privilege by literal bits |
| Path040.OwnRoot | src/cpu/cpummu.c:676-680 | a user search does not depend on SRP, a supervisor search not on URP |
| Path040.RefusedMeans | src/cpu/cpummu.c:769-774 | what a search refuses, on the bits of the descriptor |
| Mmu040.SearchPage | src/cpu/cpummu.c:716-762 | its last level: indirection, the three marking cases and their bus errors |
| Mmu040.Mmu040.FlushShortcutCache | src/cpu/cpummu.c:359-378 | the shortcut flush loop |
| Mmu040.Mmu040.FillAtc | src/cpu/cpummu.c:664-827 | whole new state after filling a way; the 68060 keeps only lines for pages it found |
| Mmu040.Mmu040.AddToCache | src/cpu/cpummu.c:829-859 | the shortcut entry a translation leaves |
| Mmu040.Mmu040.ScanWays | src/cpu/cpummu.c:917-970 | the scan from the way used last finds the tagged way if there is one, else leaves the way the specification gives up |
| Mmu040.Mmu040.TranslateAddr | src/cpu/cpummu.c:906-986 | the loop with its jump back ends after at most one search, by a counter of searches, on both CPUs, with the state and outcome of the specification |
| Mmu040.Mmu040.TestTtr | src/cpu/cpummu.c:584-645 | the tests in front of a data access: refused, untranslated or translated as the registers, the enable bit and the default write protection say |
| Mmu040.Mmu040.GetIns | src/cpu/cpummu.h:270-317 | instruction fetch path: transparent translation and enable bit, shortcut, translation |
| Mmu040.Mmu040.Get | src/cpu/cpummu.h:319-557 | data read path: transparent translation, enable bit and refusal of locked reads, read shortcut, translation |
| Mmu040.Mmu040.Put | src/cpu/cpummu.h:397-641 | data write path: transparent translation, enable bit and refusal, write shortcut, translation |
| Mmu040.Mmu040.LoadAddress | src/cpu/cpummu.c:1458-1476 | PLPA: refused, the address itself or the translated address, with the ATC lines and shortcuts it leaves |
| Mmu040.Mmu040.FlushAtc | src/cpu/cpummu.c:1486-1508 | the page flush loops over both types and four ways |
| Mmu040.Mmu040.FlushAtcAll | src/cpu/cpummu.c:1510-1525 | the flush of everything |
| Mmu040.Mmu040.PTestSearch | src/cpu/cpummu.c:1429-1453 | flush, transparent match, choice of way and fill of PTEST |
| Mmu040.Mmu040.TestSearch | src/cpu/cpummu.c:1437-1449 | the first invalid way, else a random one, filled by a search |
| Mmu040.Mmu040.SetTc | src/cpu/cpummu.c:1567-1603 | enable bit, page size and default write protection from bits 15, 14 and 5, everything flushed |
| Machine040.RunProgram | src/cpu/cpummu.c:906-986 | a whole run on the object gives the outcomes of the machine without caches, if and only if it has no locked read of a protected page in the read cache |
| Bus030.LoadStore | src/cpu/cpummu030.c:2363-2447 | big-endian memory: the low bytes written are read back |
| Bus030.StoreOther | src/cpu/cpummu030.c:2363-2390 | a write changes no other byte |
| Bus030.TouchesCover | src/cpu/cpummu030.c:2564-2618 | the cycles of an access are aligned and cover its bytes once, from left to right |
| Access030.ReadingStep | src/cpu/cpummu030.c:2738-2815 | each cycle of a split read extends the bytes at the top of the data buffer, whatever the buffer held below |
| Access030.WritingStep | src/cpu/cpummu030.c:2818-2890 | each cycle of a split write puts the next bytes of the value |
| Access030.Bus.GetWordUnaligned | src/cpu/cpummu030.c:2564-2572 | value, or fault with the progress recorded |
| Access030.Bus.GetLongEven | src/cpu/cpummu030.c:2576-2580 | value, or fault with the progress recorded |
| Access030.Bus.GetLongOdd | src/cpu/cpummu030.c:2581-2588 | value, or fault with the progress recorded |
| Access030.Bus.PutWordUnaligned | src/cpu/cpummu030.c:2611-2618 | memory, or fault with the progress recorded |
| Access030.Bus.PutLongUnaligned | src/cpu/cpummu030.c:2593-2609 | memory, or fault with the progress recorded |
| Access030.Bus.UnalignedReadContinue | src/cpu/cpummu030.c:2738-2815 | goes on from the recorded progress to the value, or records more progress |
| Access030.Bus.UnalignedWriteContinue | src/cpu/cpummu030.c:2818-2890 | goes on from the recorded progress to the final memory, or records more progress |
| Access030.Bus.ReadThrough | src/cpu/cpummu030.c:2564-2591 | a read faulted at any cycles any number of times yields the big-endian value, touching each byte once |
| Access030.Bus.WriteThrough | src/cpu/cpummu030.c:2593-2618 | a write faulted at any cycles any number of times leaves the memory of the fault-free write, touching each byte once |
| Program030.AddsIsAdvance | src/cpu/cpummu030.c:3181-3230 | the counted extension words are those fetched, at most five, so they fit their four bits |
| Ea020.EaMeans | src/cpu/cpummu030.c:3184-3226 | the calculation yields, over signed integers and literal bits of the extension words, the address of the 68020 addressing mode (indexed, and memory indirect before or after indexing, with word or long index, scale, displacements and suppressed operands), and moves past its extension words |
| Ea020.WordIndex | src/cpu/cpummu030.c:3185-3189 | (0,A0,D1.W) takes the low word of D1 only |
| Restart030.SoundStep | src/cpu/cpummu030.h:284-318 | finishing the request it stands at moves an instruction to its next position with one more log entry, still on the way to the fault-free result |
| Restart030.SoundClose | src/cpu/cpummu030.c:3229-3235 | a finished address calculation is replaced by its memo, its log entries forgotten, with the same program counter |
| Restart030.LogPrefix | src/cpu/cpummu030.h:284-303 | the steps behind a rerun account for a prefix of the log |
| Core030.MemoGrows | src/cpu/cpummu030.c:3229-3231 | both memos and their word counts share their fields without disturbing each other |
| Core030.Core.GetState | src/cpu/cpummu030.h:482-530 | a logged read: replayed from the log with no bus cycle, or done and logged, or faulted |
| Core030.Core.PutState | src/cpu/cpummu030.h:445-480 | a logged write: skipped, or done and logged, or faulted |
| Core030.Core.NextState | src/cpu/cpummu030.h:559-578 | a logged extension word or longword with the same advance of the program counter when replayed |
| Core030.Core.PeekState | src/cpu/cpummu030.h:532-557 | a logged fetch ahead of the program counter |
| Core030.Core.StoreState | src/cpu/cpummu030.h:310-318 | a value kept in the log |
| Core030.Core.EaDisplacements | src/cpu/cpummu030.c:3190-3212 | displacements of the full extension word, from log or bus |
| Core030.Core.EaIndirect | src/cpu/cpummu030.c:3214-3223 | indexing and memory indirection, from log or bus |
| Core030.Core.EaClose | src/cpu/cpummu030.c:3229-3235 | the log has the length it had on entry, the memo holds address and words |
| Core030.Core.Repeat | src/cpu/cpummu030.c:3176-3179 | a finished step repeated: same value, same advance, no bus cycle |
| Core030.Core.GetDispEa | src/cpu/cpummu030.c:3164-3236 | the address calculation with the registers of that point of the instruction, first time, repeated or resumed inside, wherever its accesses fault |
| Core030.Core.RunOnce | src/cpu/newcpu.c:6550-6590 | one run of an instruction, replaying what is done, ends at the fault-free result, at the next fault with nothing lost, or at a fault of the last write with everything else done |
| Core030.Core.LastWrite | src/cpu/gencpu.c:2525-2542 | the last write of an instruction: the program counter is already that of the next one; done, or faulted with its progress |
| Core030.Core.BuildFrame | src/cpu/newcpu_common.c:1503-1545 | what the long fault frame holds |
| Core030.Core.Restore | src/cpu/cpummu030.c:2952-3045 | what RTE restores from it |
| Core030.Core.ComeBack | src/cpu/cpummu030.c:2952-3045 | the state restored from a long frame is that of the fault |
| Core030.Core.RteShort | src/cpu/cpummu030.c:2916-2950 | RTE from a short frame: the write completes in memory, each byte once, or faults again with more progress |
| Core030.Core.FinishLast | src/cpu/cpummu030.c:3111-3145 | a last write faulted any number of times is written once and nothing is run again: memory, program counter and bus cycles of the fault-free run |
| Core030.Core.Retry | src/cpu/cpummu030.c:3066-3133 | the retry of a faulted access: done and logged (or marked for MOVEM), or faulted again with its progress |
| Core030.Core.RetryStep | src/cpu/cpummu030.c:3066-3133 | the retried access puts the instruction one position further, or leaves it at the same fault |
| Core030.Core.TakeFault | src/cpu/newcpu_common.c:1503-1612 | whatever the handler does to the CPU state, the frame is enough to go on |
| Core030.Core.Rte | src/cpu/cpummu030.c:2952-3145 | RTE from a long frame puts the instruction one access further, or back at the same fault |
| Core030.Core.Execute | src/cpu/cpummu030.c:2892-3145 | an instruction with any faults, last write included, ends with the registers, memory, program counter and bus cycles of a fault-free run, each cycle done once and in order |
| Fmovem030.ItemAt | src/cpu/fpp.c:2826-2850 | the longword a row and part of the mask stand for, with register, order and address |
| Fmovem030.Fmovem2Mem | src/cpu/fpp.c:2819-2854 | one run of the restartable store loop |
| Fmovem030.Fmovem2Fpp | src/cpu/fpp.c:2885-2922 | one run of the restartable load loop |
| Fmovem030.Interrupted | src/cpu/newcpu_common.c:1512-1538 | counter, log, memo and half-read register survive the frame |
| Fmovem030.ExecuteStore | src/cpu/fpp.c:2815-2879 | for any mask, direction and faults each longword is stored once, in order, with the memory and final address of the plain loop |
| Fmovem030.ExecuteLoad | src/cpu/fpp.c:2881-2943 | for any mask, direction and faults each longword is loaded once, in order, with the registers and final address of the plain loop |
| Fmovem030.PlainFmovem2Mem | src/cpu/fpp.c:2855-2877 | the plain store loop, for every direction: memory, bus cycles and final address; the order of the restartable loop for the directions of the 6888x, each register's longwords reversed for the others |
| Fmovem030.PlainFmovem2Fpp | src/cpu/fpp.c:2923-2941 | the plain load loop |
| Rows030.SelectedMeans | src/cpu/fpp.c:2826-2850 | row r of the loop is bit 7 - r of the mask |
| Rows030.FinalAddress | src/cpu/fpp.c:2832-2846 | the loop returns its address plus or minus 12 times the number of set bits in the low byte of the mask, or the address itself |
| Rows030.ItemsMean | src/cpu/fpp.c:2824-2850 | bit b moves register b or 7 - b by direction, its three longwords follow each other, and the registers lie side by side above or below the address |
| Rows030.SaveRestore | src/cpu/fpp.c:2815-2943 | a predecrement store and a postincrement load with the mirrored mask restore every selected register and the address, and leave the others |
| Rows030.SaveAndRestore | src/cpu/fpp.c:2815-2943 | the same for the two instructions with any faults |
| Bitfield060.LensLaws | src/cpu/cpummu.c:1732-1804 | get after put, put after get, put after put, and bits outside the field |
| Bitfield060.GetRmwBitfield | src/cpu/cpummu.c:1732-1777 | in all five byte spans the result holds the field at its top and `bdata` the rest of the bytes with the field cleared |
| Bitfield060.PutRmwBitfield | src/cpu/cpummu.c:1779-1804 | in all five byte spans, for every value: its bits are ORed into the bytes next to what was kept; a value that fits replaces the field and nothing else; no other byte is touched |
| Bitfield060.WrittenExact | src/cpu/cpummu.c:1779-1804 | what is written is the field replaced, if and only if no bit of the value beyond the width falls on a clear bit before the field |
| Bitfield060.WiderWitness | src/cpu/cpummu.c:1779-1804 | the function taken alone: a value wider than its field changes a bit before the field |
| Bitfield060.WriteThenRead | src/cpu/cpummu.c:1732-1804 | reading after writing returns the value |
| Bitfield060.WriteBack | src/cpu/cpummu.c:1732-1804 | writing back what was read changes no byte of memory |
| Packed.ToDecimal | src/cpu/fpp_softfloat.c:627-687 | decoding any 96-bit input: the digits read in base ten, mantissa below 2^63, exponent below 2^14, special cases passed on |
| Packed.FromDecimal | src/cpu/fpp_softfloat.c:690-747 | encoding lays the decimal digits left-justified into the words, signs and exponent digits in their fields |
| Packed.FromPack | src/cpu/fpp_softfloat.c:690-747 | what is handed over for infinities and NaNs comes back word for word; numbers are encoded as above |
| Packed.RoundTrip | src/cpu/fpp_softfloat.c:648-747 | signs, significand times 10^(17-len) and exponent minus 16 come back; the exponent exactly when it is at most 999 |
| Packed.FourDigitsWitness | src/cpu/fpp_softfloat.c:648-747 | a number with exponent 1000 comes back from encoding and decoding with the exponent of a number whose exponent is 0 |
| Packed.TenBound | src/cpu/fpp_softfloat.c:654-681 | digits up to fifteen stay within five thirds of a power of ten |
| Packed.DigitAt | src/cpu/fpp_softfloat.c:656-676 | the digit a shift and mask takes is the digit at that place |

## Left out

- Cache-inhibit state carried with translations, and the data caches themselves: only addresses, protection and faults are modelled.
- Data payloads in the MMU modules: an access there is a translation; byte transfers are modelled in the restart modules.
- Runs over tables that cannot be written: the searches are covered, the run theorems are not true there (Witness030.RomWitness) and ask for writable descriptors.
- PMOVE with FD set, PMOVE values the decoders reject (which replace part of the translation parameters before the exception) and PLOAD with translation off: the run theorem does not cover them.
- PTEST level 0 of the 68030 and the MMUSR bits of the 68040: reports only.
- PTEST and PLPA of the 68040/68060 with translation off, the EC models without an MMU, the cache modes in TC and in the transparent translation registers, and MOVE16.
- Loading root pointers on the 68040/68060 without a flush: `Rewrite` flushes, as the documentation of the CPUs demands.
- The fake prefetch after TC is switched on, and the debugger paths (`mmu_debugger`).
- Undefined C behaviour: mask building with shifts of 32 or more (such TC values are rejected anyway), the contents of memory in front of the ATC array, which the model leaves arbitrary, and overflow of the `way_random` counter, which is unbounded here.
- Locked read-modify-write restart and faults completed by software (DF or RB cleared): they do not fit the exactly-once statement.
- Prefetch and pipeline refill (the variants whose names end in `mmu030c`).
- The fault handler's own bus cycles and stores: it may destroy all CPU state, but not the memory the instruction works on.
- Condition codes, and register fix-ups as such: an instruction starts over with the registers it began with, as the fix-ups restore them, and every address calculation names the registers of its point in the instruction.
- Core030.Core.BuildFrame: opcode, register fix-up bytes and pipeline words of the frame are not modelled; the program and its registers stand for them.
- Core030.Core.Restore: the same words on the way back, and the paths for cleared DF or RB.
- The short frame holds program counter, fault, data and progress only: its pipeline words are not modelled, as for the long frame.
- Runs after the first write through a page-type root pointer on the 68030: what the program does then depends on foreign memory.
- Core030.Core.Execute: instruction fetches that fault are fetched again as a whole; each counts as one bus cycle, when it completes.
- Packed.FromDecimal: states finite numbers; infinities and NaNs, whose words are copied, are the subject of Packed.FromPack.
- Conversions between binary and extended or decimal floating point: a floating-point register is its three longwords, a packed decimal its digits.
- FPU opcodes, tables of constants, FSAVE and FRESTORE, the debugger, the disassembler, the code generator, the API wrappers and the try stack.
