# Verification of the boot loader's allocator, environment, shell and flash code, and of Kconfig's logic

This project models the parts of the repository whose correctness is hardest to see from the code
and proves what they promise. All files are verified together: `dafny verify dfyconfig.toml`.
Nothing was executed.

## What is modelled

**The allocator** (`dlmalloc.c`; files `Heap*.dfy` and `Dlmalloc.dfy`). One memory of words is shared by the
allocator and its clients. `HeapShape` says what a heap is without its bytes: chunks that tile the
arena, the bins and who is on them. `HeapMemory` says how bytes represent it: size words with
PREV_INUSE, feet, circular lists and the one-word index `binblocks`. The class `Dlmalloc.Heap` has
the source's variables and functions, written as they are in the source, each proved to keep the
invariant and to do to the live chunks and their data what it promises. `HeapClient` puts them
together: any run of calls and client stores behaves like independent arrays. Words are four bytes,
alignment eight, MINSIZE sixteen, pages 4096 bytes, mmap off; `MORECORE` is a contiguous sbrk that
may refuse at any time. Sizes are computed and compared in 32 bits as the source does. Addresses are
counted from the start of the segment, 0x80000000, that the board's memory is in; memory and the padding of
top stay below 2^31.

**Kconfig's three-valued logic** (`expr.c`, `symbol.c`, `menu.c`, `confdata.c`; files `Kconfig*.dfy`). The
rewriter's functions on expressions, what the menu tree makes of written conditions with them, the
memoising calculation of symbol values against a direct recursive definition and the laws that this
obeys, the search for recursive dependencies, and the string escaper with its reader.
Booleans are n or y, tristates n, m or y; AND is minimum, OR maximum, NOT 2 - x.

**The environment** (`env_flash.c`, `cmd_nvedit.c`, `crc32.c`; files `Env*.dfy`, `Crc32.dfy`). The
redundant save protocol as a state machine with power loss and failed writes between and inside any
two flash operations, those of the repair at the next start included, the code that runs it, the
packed buffer that `setenv` edits in place, and the checksum of section 8 of RFC 1952 that guards both.

**The shell's list interpreter** (`hush.c`; `Hush*.dfy`) against structured commands, and **flash
ranges and writes** (`cmd_flash.c`, `flash.c`; `FlashRanges.dfy`, `FlashWrite.dfy`).

## What turned out not to hold

Where the code does less than one would expect, the model keeps the code as it is:

- Requests in the last eleven bytes below 2^31 pass malloc's sign test and get a 16-byte chunk
  (`HeapSizes.Request2SizeHoldsRequest` says exactly when, `Request2SizeCollapses` shows one).
- The sum that memalign asks malloc for can collapse in the same way, or wrap (`HeapSizes.SpotExactly`); then
  memalign frees more than it was given (`SpotCollapses`).
- realloc compares with nb + MINSIZE as a long, which wraps for sixteen request sizes (`RoomPassesExactly`,
  `RoomWraps`); if the chunk borders top, top is then set beyond all memory (`Dlmalloc.Heap.OverrunsWrites`).
- malloc_trim subtracts its pad as an unsigned number; large pads make it give back more than top
  (`HeapSizes.TrimExactly`, `TrimTakesMore`). `HeapClient` leaves out the requests and pads of these four.
- `malloc.h` expects -1 from an sbrk that refuses and the board's returns null. That is noticed except at the
  first extension, where an arena would start at null (`Dlmalloc.Heap.RefusalNoticed`); the model's sbrk
  follows `malloc.h`.
- `expr_eliminate_dups` can turn m into n (`KconfigDups.SecondPassSettlesMod`); it keeps every definite
  value, is exact where no symbol is m, and `EliminatedExactly` says when it changes m.
- So a prompt can be hidden that its written conditions would show (`KconfigVisibility.PromptHidden`);
  `VisibilityUnchanged` has the exact condition.
- Setting a tristate to the value it already has is accepted even when that value exceeds its
  visibility; recalculation then lowers it (`KconfigValue.SameChoiceCanLose`, with the exact condition
  in `SetTristateValue`).
- Setting a text that is kept but does not count, as after `conf_read`, clears no calculated value, so that
  what is stored goes stale (`KconfigValue.KeptTextComesAlive`, with the exact condition in `SetStringValue`).
- The top-level call of `sym_check_deps` always returns null without choices, so the parser prints the
  message about a recursive dependency but never counts it as an error (`KconfigDeps.CheckAll`).
- `env_init` has a combination of flags for which it assigns no address (`EnvFlash.UnsetExactlyWhen`);
  `CrashSafe` proves that no run reaches it.
- The results of the repair's two flag writes are ignored. If the first fails and the second does not, the copy
  chosen can be the other one from then on (`EnvFlash.RepairKeepsChoice` says exactly when, `RepairGoesBack`
  shows it), and the next save can be preferred only once the old copy is marked (`NewOnceChecksummed`).
- `saveenv` returns zero when restoring the rest of the sector fails, without swapping the slots, and
  the next save erases the environment just saved (`EnvFlash.RestoreFailureForgets`).
- `setenv` deletes the old definition on overflow and does not bring the checksum up to date.
- In the shell `exit` with a code other than zero leaves 0 in `$?` if it stands inside a group
  (`HushRun.ExitCodes`, `ExitInBranch`).
- With an empty branch before `elif` the chain ends there if it is the first arm's, and otherwise goes on as if
  the next condition belonged to the same `elif` (`HushRun.EmptyBranches`, `FirstBranchEmpty`,
  `EmptyElifGoesOn`). Mixed `&&` and `||` lists stop at the first decided operator
  (`HushRun.MixedListSkipsAll`). An `if` that takes no branch, and a loop that ends, return the code of the last
  condition and not zero.
- `flash_sect_erase` reports success for a range that starts with a sector and runs past the end of flash
  (`FlashRanges.SectErase`, `PastEndExample`).
- `flash_write` reports success for a range that wraps around the address space although it has not written
  all of it, or none of it, and does not see that the last sector of the address space is protected
  (`FlashWrite.Write`, `SeenExactly`, `WrapExamples`).

## Model

| member | source | states |
|---|---|---|
| `HeapClient.Client.Run` | pepe2k_uboot/u-boot/common/dlmalloc.c:2133-3027 | Any sequence of malloc, free, realloc, memalign, trim and client stores, with requests and pads that no 32-bit computation carries past its limits, keeps the heap well formed; the live chunks are exactly those behind the client's pointers, one each; they hold what independent arrays would hold, given the same pointers; and as long as sbrk does not refuse, no request gets null |
| `HeapClient.Client.Do` | pepe2k_uboot/u-boot/common/dlmalloc.c:2133-3027 | One such call keeps the heap, its live chunks and the client's own record in step, and is met unless sbrk refuses |
| `HeapClient.Client.Load` | pepe2k_uboot/u-boot/common/dlmalloc.c:1176-1199 | Reading a word behind a live pointer gives the word last stored there, whatever was called in between |
| `Dlmalloc.Heap.constructor` | pepe2k_uboot/u-boot/common/dlmalloc.c:1474-1492 | The initial state: empty bins, no arena, no live chunk; the memory and the padding of top together below 2^31 |
| `Dlmalloc.Heap.Morecore` | pepe2k_uboot/u-boot/common/dlmalloc.c:1986-1991 | A contiguous sbrk hands out the old break and moves it, or refuses and changes nothing |
| `Dlmalloc.Heap.Malloc` | pepe2k_uboot/u-boot/common/dlmalloc.c:2133-2366 | A non-null result is 8-aligned, of size in [nb, nb + MINSIZE), a new live chunk with all others and their data as before; from a bin it is a best fit, the last remainder is used only without an exact fit, top only if nothing binned fits; null exactly when nothing binned fits, top is too small and MORECORE refused, or the request is negative as a long; a refusal changes no client data; the break moves only if nothing else fits, and by what is needed |
| `Dlmalloc.Heap.Free` | pepe2k_uboot/u-boot/common/dlmalloc.c:2394-2483 | Exactly the freed chunk leaves the live ones, all other data is untouched; the chunk and its free neighbours become one chunk, binned or top, and only a top that reaches the trim threshold is trimmed; a null pointer changes nothing |
| `Dlmalloc.Heap.Realloc` | pepe2k_uboot/u-boot/common/dlmalloc.c:2526-2720 | Along every path the data up to the smaller size moves with the chunk and other live chunks keep theirs; the pointer stays exactly where the chunk is large enough or there is room behind it, else moves to the free chunk before where that gives room; null only without room around, in bins and in top and with sbrk refusing, everything left as it was; asked for only where the comparison with nb + MINSIZE does not wrap or the chunk does not border top |
| `Dlmalloc.Heap.Memalign` | pepe2k_uboot/u-boot/common/dlmalloc.c:2745-2839 | A non-null result is a multiple of the alignment, of size in [nb, nb + MINSIZE), a new live chunk with leader and tail given back and all other data untouched; alignments up to 8 are malloc's; null exactly where malloc has none for the padded sum |
| `Dlmalloc.Heap.Trim` | pepe2k_uboot/u-boot/common/dlmalloc.c:2974-3027 | For every pad that does not wrap: releases exactly if top has more than pad, a minimum chunk and a page, and sbrk agrees; then whole pages go and at most a page more than pad + MINSIZE stays; bins and live data are left alone, everything else too when nothing is released |
| `Dlmalloc.Heap.ExtendTop` | pepe2k_uboot/u-boot/common/dlmalloc.c:1959-2063 | Computed in 32 bits: without a refusal top then holds the request and a remainder, and the break has moved by what is needed up to page ends; with one nothing has changed that clients or bins could see; the heap stays well formed |
| `Dlmalloc.Heap.FirstExtend` | pepe2k_uboot/u-boot/common/dlmalloc.c:2000-2030 | The first extension aligns the arena's start and its end, or leaves no arena if the second sbrk refuses |
| `HeapSizes.SbrkAgrees` | pepe2k_uboot/u-boot/lib_mips/board.c:79-88 | Computed in 32 bits the board's sbrk refuses, of all increments that the allocator asks for, exactly those beyond the limit, those included that are negative as a ptrdiff_t |
| `Dlmalloc.Heap.RefusalNoticed` | pepe2k_uboot/u-boot/common/dlmalloc.c:1986-1991 | A refusal that is signalled by another value than -1 below all memory, as the board's null, is noticed if and only if there is a top; before, no chunk at that place would be legal |
| `Dlmalloc.Heap.Unlink` | pepe2k_uboot/u-boot/common/dlmalloc.c:1798-1803 | The chunk leaves its circular list, every other list and all user data as before |
| `Dlmalloc.Heap.Frontlink` | pepe2k_uboot/u-boot/common/dlmalloc.c:1766-1794 | A loose chunk enters the bin of its size at the front of its equals, its group marked in binblocks |
| `Dlmalloc.Heap.FrontlinkPlace` | pepe2k_uboot/u-boot/common/dlmalloc.c:1772-1787 | The place found keeps the bin in decreasing size order |
| `Dlmalloc.Heap.FreeIntoTop` | pepe2k_uboot/u-boot/common/dlmalloc.c:2430-2447 | A chunk before top, with a free chunk before it, becomes the start of top |
| `Dlmalloc.Heap.FreeBelowTop` | pepe2k_uboot/u-boot/common/dlmalloc.c:2449-2483 | The freed chunk and its free neighbours become one free chunk on exactly one list, the last remainder's if one of them was there |
| `Dlmalloc.Heap.Gather` | pepe2k_uboot/u-boot/common/dlmalloc.c:2453-2481 | Backward and forward consolidation together: where the run starts, its size, and whether the last remainder is part of it |
| `Dlmalloc.Heap.TryExact` | pepe2k_uboot/u-boot/common/dlmalloc.c:2157-2213 | An exact fit from the request's own bin, or the next for small ones, is a best fit; otherwise these hold none, and no bin below the index the scan starts at can serve the request |
| `Dlmalloc.Heap.TryRemainder` | pepe2k_uboot/u-boot/common/dlmalloc.c:2215-2245 | The last remainder is split, used up or filed in the bin of its size; what the scan may skip stays so |
| `Dlmalloc.Heap.SearchBins` | pepe2k_uboot/u-boot/common/dlmalloc.c:2247-2337 | The binblocks-guided scan finds a best fit, or no binned chunk fits; partial blocks are cleared only if all four bins are empty |
| `Dlmalloc.Heap.ClearGroup` | pepe2k_uboot/u-boot/common/dlmalloc.c:2311-2322 | Backtracking clears a group's bit only when all of its bins are empty |
| `Dlmalloc.Heap.TakeTop` | pepe2k_uboot/u-boot/common/dlmalloc.c:2340-2365 | Top is cut only if a remainder of MINSIZE stays; null means sbrk refused |
| `Dlmalloc.Heap.Copy` | pepe2k_uboot/u-boot/common/dlmalloc.c:2644-2644 | Ascending word copy that may overlap downward delivers the source's words |
| `Dlmalloc.Heap.TryForward` | pepe2k_uboot/u-boot/common/dlmalloc.c:2587-2622 | Realloc into top or into the free chunk behind, with the data in place, exactly where these give room, the sizes compared as longs of 32 bits |
| `Dlmalloc.Heap.TryBackward` | pepe2k_uboot/u-boot/common/dlmalloc.c:2624-2675 | Realloc into the chunk before, alone, with top, or with the chunk behind, the data shifted down, exactly where these give room, the sizes compared as longs of 32 bits |
| `Dlmalloc.Heap.MergeBehind` | pepe2k_uboot/u-boot/common/dlmalloc.c:2684-2692 | A chunk sbrked right behind the old one is joined with it without copying |
| `Dlmalloc.Heap.MoveChunk` | pepe2k_uboot/u-boot/common/dlmalloc.c:2677-2698 | Allocate, copy, free: the data arrives, the old chunk goes, the rest stays; null changes nothing |
| `Dlmalloc.Heap.FinishSplit` | pepe2k_uboot/u-boot/common/dlmalloc.c:2701-2716 | What exceeds the request is given back and the data kept |
| `Dlmalloc.Heap.OverrunsWrites` | pepe2k_uboot/u-boot/common/dlmalloc.c:2597-2603 | Where realloc's comparison wraps for a chunk that borders top it succeeds without the room, and the new top lies beyond all memory |
| `HeapSizes.RoomPassesExactly` | pepe2k_uboot/u-boot/common/dlmalloc.c:2597-2597 | The comparison with nb + MINSIZE means what it is for if and only if nb + MINSIZE is below 2^31; beyond, it always succeeds |
| `HeapSizes.RoomWraps` | pepe2k_uboot/u-boot/common/dlmalloc.c:2638-2638 | That fails for exactly the requests from 0x7FFFFFE5 to 0x7FFFFFF4 |
| `HeapSizes.TrimExactly` | pepe2k_uboot/u-boot/common/dlmalloc.c:2989-2992 | malloc_trim releases when it is meant to, and as much, if and only if the pad does not wrap; a pad that does, and is not of the last page, makes it take at least all of top |
| `HeapSizes.TrimTakesMore` | pepe2k_uboot/u-boot/common/dlmalloc.c:2989-2992 | With 0x8000 bytes of top a pad of 0xFFFF0000 makes it give back 0x17000 |
| `HeapSizes.SpotExactly` | pepe2k_uboot/u-boot/common/dlmalloc.c:2767-2776 | What memalign asks malloc for is refused as negative, or padded to hold the aligned spot, if and only if it is refused or the sum itself is below the last eleven numbers under 2^31 |
| `HeapSizes.SpotCollapses` | pepe2k_uboot/u-boot/common/dlmalloc.c:2767-2811 | memalign of 0x7FFFFFD4 bytes at 16 gets the smallest chunk and, if that is not aligned, gives back a leader no smaller than all of it |
| `HeapSizes.Request2SizeHoldsRequest` | pepe2k_uboot/u-boot/common/dlmalloc.c:1299-1302 | The padded size holds the request and its overhead if and only if padding stays below the largest signed long; the last eleven requests below 2^31 collapse |
| `HeapSizes.Request2SizeCollapses` | pepe2k_uboot/u-boot/common/dlmalloc.c:1299-1302 | The concrete request 0x7FFFFFF5 is padded to 16 bytes |
| `HeapSizes.Request2SizeMonotone` | pepe2k_uboot/u-boot/common/dlmalloc.c:1299-1302 | Larger requests never get smaller padded sizes, where padding fits |
| `HeapSizes.BinIndexMonotone` | pepe2k_uboot/u-boot/common/dlmalloc.c:1515-1522 | Larger chunks never go to lower bins, despite the uneven bin widths |
| `HeapSizes.SmallBinsHoldOneSize` | pepe2k_uboot/u-boot/common/dlmalloc.c:1524-1538 | Bins below 64 are exactly the chunks under 512 bytes, one size each |
| `HeapSizes.BlockCompare` | pepe2k_uboot/u-boot/common/dlmalloc.c:2252-2263 | The word comparison of a group's bit with binblocks decides whether any group from there up is marked |
| `HeapSizes.NextBlockBit` | pepe2k_uboot/u-boot/common/dlmalloc.c:2326-2335 | The shifted bit is the next group's, and zero after the last |
| `HeapSizes.MarkGroup` | pepe2k_uboot/u-boot/common/dlmalloc.c:1546-1560 | Marking or clearing one group leaves the other groups' marks |
| `HeapSizes.AlignedSpotFits` | pepe2k_uboot/u-boot/common/dlmalloc.c:2787-2811 | The spot is aligned, and leaves either no leader or one of at least MINSIZE and at most the alignment and eight bytes |
| `HeapShape.SplitKeepsTiling` | pepe2k_uboot/u-boot/common/dlmalloc.c:1161-1283 | Cutting a chunk keeps the arena tiled exactly |
| `HeapShape.FuseKeepsTiling` | pepe2k_uboot/u-boot/common/dlmalloc.c:1161-1283 | Joining neighbours keeps the arena tiled exactly |
| `HeapShape.BinKeepsPlacing` | pepe2k_uboot/u-boot/common/dlmalloc.c:1424-1474 | Inserting at a fitting place keeps every free chunk on one sorted list |
| `HeapMemory.UnlinkCore` | pepe2k_uboot/u-boot/common/dlmalloc.c:1798-1803 | The four pointer operations of unlink keep tags, feet, rings and marks consistent |
| `HeapMemory.LinkCore` | pepe2k_uboot/u-boot/common/dlmalloc.c:1766-1812 | So do those of frontlink and link_last_remainder |
| `HeapMemory.CarveCore` | pepe2k_uboot/u-boot/common/dlmalloc.c:2359-2362 | The two size words written when a front is handed out keep them too |
| `HeapMemory.FuseCore` | pepe2k_uboot/u-boot/common/dlmalloc.c:2479-2480 | So do those that join two chunks |
| `HeapTake.NewArena` | pepe2k_uboot/u-boot/common/dlmalloc.c:2028-2030 | The first arena is one top chunk and is well formed |
| `HeapSearch.FoundBest` | pepe2k_uboot/u-boot/common/dlmalloc.c:2280-2303 | The first fitting chunk met walking a bin from its small end is a smallest fitting one of all bins |
| `HeapSearch.HigherBinFits` | pepe2k_uboot/u-boot/common/dlmalloc.c:1515-1522 | A chunk in a higher bin than the request's holds the request |
| `HeapSearch.SkipGroup` | pepe2k_uboot/u-boot/common/dlmalloc.c:2257-2267 | An unmarked group may be skipped: no fitting chunk is missed |
| `HeapSearch.SearchExhausted` | pepe2k_uboot/u-boot/common/dlmalloc.c:2326-2336 | When no higher group is marked, nothing binned fits |
| `HeapResize.ClientWrites` | pepe2k_uboot/u-boot/common/dlmalloc.c:1176-1199 | Whatever a client stores in its own chunk, the heap stays well formed and other chunks' data untouched |
| `HeapResize.ForwardExtends` | pepe2k_uboot/u-boot/common/dlmalloc.c:2610-2616 | A chunk joined with the free chunk behind keeps its data and the invariant |
| `HeapResize.AbsorbExtends` | pepe2k_uboot/u-boot/common/dlmalloc.c:2665-2674 | A chunk joined with the free chunk before it does |
| `HeapResize.BothExtends` | pepe2k_uboot/u-boot/common/dlmalloc.c:2652-2662 | Joined on both sides it does |
| `HeapResize.MergeExtends` | pepe2k_uboot/u-boot/common/dlmalloc.c:2684-2692 | Joined with a chunk just allocated behind it does |
| `HeapResize.IntoTopResizes` | pepe2k_uboot/u-boot/common/dlmalloc.c:2597-2608 | Grown over the front of top it does |
| `HeapResize.BackTopResizes` | pepe2k_uboot/u-boot/common/dlmalloc.c:2635-2650 | Moved down and grown over top it does |
| `HeapResize.CutUsed` | pepe2k_uboot/u-boot/common/dlmalloc.c:2703-2710 | One chunk in use becomes two, each with its part of the data |
| `HeapResize.CopyStep` | pepe2k_uboot/u-boot/common/dlmalloc.c:2644-2644 | One more word copied upward keeps the words still to be copied intact |
| `HeapArena.ArenaIsItsChunks` | pepe2k_uboot/u-boot/common/dlmalloc.c:1161-1200 | Walking the sizes from the base meets every chunk, and their sizes add up to the arena |
| `HeapArena.AddressHasChunk` | pepe2k_uboot/u-boot/common/dlmalloc.c:1161-1200 | Every address of the arena is in exactly one chunk |
| `HeapArena.FreeChunksInOrder` | pepe2k_uboot/u-boot/common/dlmalloc.c:1640-1674 | Between calls a free chunk is on exactly one list, once; its size word and foot agree; both neighbours are in use and it does not border top |
| `KconfigLogic.EqSound` | scripts/config/expr.c:189-229 | Trees that expr_eq calls equal have equal values under every valuation |
| `KconfigOrder.EqExactly` | scripts/config/expr.c:189-229 | On trees without y and n expr_eq holds if and only if the trees are the same but for the order and the grouping of operands |
| `KconfigOrder.CancelTakes` | scripts/config/expr.c:130-162 | __expr_eliminate_eq takes out of both sides exactly what their operands have in common, each as often as both have it |
| `KconfigLogic.EliminateEqSplits` | scripts/config/expr.c:130-187 | Residues of expr_eliminate_eq combined with one common part per phase give back both values |
| `KconfigLogic.CancelSplits` | scripts/config/expr.c:130-162 | The same for one chain of operands |
| `KconfigLogic.EliminateYnPreserves` | scripts/config/expr.c:231-312 | Folding y and n never changes a value |
| `KconfigLogic.EliminateYnComplete` | scripts/config/expr.c:231-312 | No AND or OR with a constant operand is left |
| `KconfigTransform.TransformPreserves` | scripts/config/expr.c:636-771 | expr_transform never changes a value |
| `KconfigTransform.TransformNormalises` | scripts/config/expr.c:636-771 | Its result has NOT only over non-constant symbols and no boolean compared with y, m or n |
| `KconfigTransform.NormalIsFixed` | scripts/config/expr.c:636-771 | Trees of that form are left as they are |
| `KconfigTransform.TransBoolKeepsNo` | scripts/config/expr.c:317-341 | On that form expr_trans_bool keeps whether the value is no |
| `KconfigTransform.TransBoolComplete` | scripts/config/expr.c:317-341 | It leaves no tristate compared with n by !=, and trees without these as they are |
| `KconfigTransform.TransBoolNeedsNormalForm` | scripts/config/expr.c:317-341 | A concrete tree not of that form on which the rewrite turns no into m |
| `KconfigVisibility.NormalThroughout` | scripts/config/menu.c:295-311 | Every condition that menu_finalize computes is of that form, given that the one above it is |
| `KconfigVisibility.UnderExactly` | scripts/config/menu.c:296-308 | The condition transformed, joined with the one above and rid of duplicates has a definite value t if and only if both together have it, or are m and a contradiction the second pass finds makes them t |
| `KconfigVisibility.VisibilityUnchanged` | scripts/config/menu.c:306-311 | After expr_trans_bool too, the rounded visibility is that of both written conditions, if and only if they are not m with a contradiction that makes them n |
| `KconfigVisibility.DefiniteVisibilityUnchanged` | scripts/config/menu.c:306-311 | In particular where the two conditions together are n or y |
| `KconfigVisibility.PromptHidden` | scripts/config/menu.c:306-311 | A boolean that depends on A or B, with a prompt if neither: with A and B both m the written conditions would show the prompt, and it is hidden |
| `KconfigTransform.JoinExact` | scripts/config/expr.c:346-502 | Whatever expr_join_or and expr_join_and replace a pair of operands by has exactly the pair's value |
| `KconfigDups.Dups1Exact` | scripts/config/expr.c:504-554 | The first pass never changes the value under any tristate valuation |
| `KconfigDups.Dups1Shrinks` | scripts/config/expr.c:504-554 | It adds no leaf, leaves a constant operand for every counted change, and without one changes nothing |
| `KconfigDups.ExtractEqSplits` | scripts/config/expr.c:826-875 | What expr_extract_eq takes out, combined with what it leaves, gives back each side |
| `KconfigDups.Dups2Settles` | scripts/config/expr.c:556-610 | The second pass never changes a definite value |
| `KconfigDups.ZeroAtSettles` | scripts/config/expr.c:568-610 | Replacing an operand that another contradicts keeps the chain's value if and only if that is not m |
| `KconfigDups.Dups2HereExactly` | scripts/config/expr.c:568-610 | At one pair of operands: what going over the first leaves, and that a contradiction found then makes it n (y), which is a change exactly if it was m |
| `KconfigDups.SettlesAtExactly` | scripts/config/expr.c:556-610 | A value of m becomes t in the second pass if and only if, in the order of its steps, going over an operand settles it as t or a contradiction is found first |
| `KconfigDups.SecondPassSettlesMod` | scripts/config/expr.c:556-634 | For any two symbols that are m, (A or B) and (not A and not B) is m, what the second pass leaves of it is n, and what the whole elimination leaves is the constant n |
| `KconfigDups.EliminateDups` | scripts/config/expr.c:612-634 | expr_eliminate_dups ends, leaves nothing more to eliminate, never adds leaves, and keeps every definite value |
| `KconfigReduced.NoneRedundant` | scripts/config/expr.c:346-634 | In the result no chain of AND or OR, on any level, holds two operands that are the same literal, the same tree up to order and grouping, or two literals of one symbol that make one |
| `KconfigReduced.RedundantIsJoined` | scripts/config/expr.c:346-502 | Every such pair is joined |
| `KconfigReduced.TwinsMerge` | scripts/config/expr.c:612-634 | A && A and A or A become A |
| `KconfigClashes.NoneContradicted` | scripts/config/expr.c:556-634 | Nor does it hold an operand whose negation's operands are all in another part of its chain or in the whole of it |
| `KconfigClashes.ContradictsExactly` | scripts/config/expr.c:568-610 | The second pass takes a part to contradict an operand if and only if all operands of the operand's negation are among its operands |
| `KconfigDups.EliminatedExactly` | scripts/config/expr.c:612-634 | What comes out has a definite value t if and only if what went in has it, or is m and the second pass of some round makes it t |
| `KconfigDups.SettledIsExact` | scripts/config/expr.c:612-634 | So it is exact on two-valued valuations |
| `KconfigValue.Calculator.CalcValue` | scripts/config/symbol.c:292-440 | Whatever was calculated before, the stored value, text, visibility and selection of the symbol are those of the direct recursive definition, and nothing valid changes |
| `KconfigValue.Calculator.CalcTri` | scripts/config/symbol.c:335-381 | What the user chose, limited by visibility, or the default; at least what others select |
| `KconfigValue.Calculator.CalcText` | scripts/config/symbol.c:383-396 | The user's text while the symbol is visible, or the default's |
| `KconfigValue.Calculator.CalcDefaultText` | scripts/config/symbol.c:390-396 | The text of the symbol that the first applicable default names; nothing if it is not a plain symbol |
| `KconfigValue.Calculator.CalcVisibility` | scripts/config/symbol.c:188-226 | Visibility and selection by the definition, while other calculations are under way |
| `KconfigValue.Calculator.CalcExpr` | scripts/config/expr.c:938-977 | An expression's value with its symbols calculated on the way |
| `KconfigValue.Calculator.CalcDefault` | scripts/config/symbol.c:115-126 | The first default whose condition is not no, limited by that condition |
| `KconfigLaws.ChoiceCounts` | scripts/config/symbol.c:337-374 | With a prompt, the value is the user's choice up to what the best prompt offers, or what others select if that is more, rounded for booleans; conditions are evaluated under all symbols' values |
| `KconfigLaws.DefaultCounts` | scripts/config/symbol.c:350-374 | Without a choice or a prompt it is the AND of the first applicable default and its condition, or what others select |
| `KconfigLaws.SelectCounts` | scripts/config/symbol.c:350-374 | With no default either it is what others select |
| `KconfigLaws.DependencyLimits` | scripts/config/symbol.c:188-226 | A symbol whose prompts and defaults hold no more than its direct dependency is no more than that, unless others select it |
| `KconfigLaws.FooIsMod` | scripts/config/symbol.c:350-356 | A tristate that is y by default if BAR is m when BAR is |
| `KconfigLaws.TextChoiceCounts` | scripts/config/symbol.c:380-384 | With a prompt a string is what the user chose |
| `KconfigLaws.TextDefaultCounts` | scripts/config/symbol.c:386-394 | Without a choice or a prompt it is the text of the symbol or constant that the first applicable default is |
| `KconfigLaws.TextIsEmpty` | scripts/config/symbol.c:380-396 | With no default either it is empty |
| `KconfigValue.Calculator.SetTristateValue` | scripts/config/symbol.c:462-515 | A change is accepted if and only if it would come back as the value and more is visible than selected, and it comes back when calculated again; a set to the current value leaves what is stored right if and only if the symbol is invisible or the value does not exceed what is visible or equals what is selected |
| `KconfigValue.ChoiceComesBack` | scripts/config/symbol.c:462-479 | On a visible symbol a choice comes back if and only if it is within what is visible or equals what is selected |
| `KconfigValue.ChangeComesBack` | scripts/config/symbol.c:462-479 | Where more is visible than selected a choice comes back if and only if it is within both, and m only for tristates |
| `KconfigValue.SameChoiceKeeps` | scripts/config/symbol.c:481-515 | The same for a set to the current value |
| `KconfigValue.SameChoiceCanLose` | scripts/config/symbol.c:481-515 | A concrete tristate whose value y becomes m when y is chosen |
| `KconfigValue.Calculator.SetStringValue` | scripts/config/symbol.c:643-672 | Accepted exactly if valid for the type; what is kept, with 0x put before bare hex digits, comes back if and only if the symbol is visible or would have that text anyway; a text that was kept already clears nothing, and then what is stored stays right, for a symbol calculated before, if and only if that text counted, the symbol is invisible or it has the text anyway |
| `KconfigValue.CountsSame` | scripts/config/symbol.c:651-668 | Counting a kept text leaves the symbol's value alone if and only if it is invisible or has the text anyway |
| `KconfigValue.KeptTextComesAlive` | scripts/config/symbol.c:651-668 | A visible symbol whose value that changes |
| `KconfigValue.TextComesBack` | scripts/config/symbol.c:383-396 | A chosen text comes back if and only if the symbol is visible or would have it anyway |
| `KconfigValue.StoredStays` | scripts/config/symbol.c:540-672 | A text that was kept is valid, and setting it again keeps it as it is |
| `KconfigLaws.IntTexts` | scripts/config/symbol.c:547-560 | An int symbol accepts exactly the decimal numbers as they are printed, with or without a minus |
| `KconfigValue.SameKept` | scripts/config/symbol.c:292-440 | A choice changes no symbol that does not look at the chosen one, and none at all if that keeps its value |
| `KconfigValue.ExprAgrees` | scripts/config/expr.c:938-977 | Calculated expressions mean what they mean to the rewriter |
| `KconfigValue.CheckWorld` | scripts/config/symbol.c:1192-1224 | A graph for which the dependency check prints nothing can be calculated, direct dependencies included: its symbols can be ranked |
| `KconfigDeps.CheckAll` | scripts/config/zconf.y:529-532 | A message is printed if and only if the graph has a cycle, no SYMBOL_CHECK flag stays set, and the count the caller exits on stays zero |
| `KconfigDeps.Checker.CheckDeps` | scripts/config/symbol.c:1192-1224 | From any state of the search: flags and stack as before, and a hit is a symbol still on the stack and on a cycle |
| `KconfigDeps.Checker.CheckSymDeps` | scripts/config/symbol.c:1120-1153 | The same over one symbol's properties |
| `KconfigDeps.Checker.PrintRecursive` | scripts/config/symbol.c:1018-1088 | The symbol reported is always found on the stack |
| `KconfigDeps.SortedHasNoCycle` | scripts/config/symbol.c:1192-1224 | A graph whose symbols can be listed after their dependencies has no cycle |
| `KconfigText.Escape` | scripts/config/symbol.c:903-944 | The quoted text with a backslash before every quote and backslash, and a buffer length that is exactly what is written |
| `KconfigText.Line.SetString` | scripts/config/confdata.c:152-172 | From any line the in-place reader stores exactly what stands before the first quote without a backslash, backslashes taken out, and finds the line invalid if there is none |
| `KconfigText.UnquotedEscaped` | scripts/config/confdata.c:152-172 | Reading what the escaper wrote gives back the text, whatever follows it on the line |
| `EnvFlash.UnsetExactlyWhen` | pepe2k_uboot/u-boot/common/env_flash.c:92-132 | env_init assigns no address if and only if both checksums match and the flags differ without being ACTIVE and OBSOLETE and without an erased one |
| `EnvFlash.NextOk` | pepe2k_uboot/u-boot/common/env_flash.c:135-215 | Every step, failed write and loss of power, in saving and in the repair, keeps the invariant of the two slots |
| `EnvFlash.CrashSafe` | pepe2k_uboot/u-boot/common/env_flash.c:92-220 | In every run, in every state, a restart finds all of the previous environment, all of the new one, or one that a failed repair left behind, the default only if none was ever in flash |
| `EnvFlash.HomeIsTaken` | pepe2k_uboot/u-boot/common/env_flash.c:92-132 | While the other slot offers a valid image a restart takes the slot in use if and only if the flags are alike and it is the first, or its flag is the only erased one |
| `EnvFlash.NewOnceChecksummed` | pepe2k_uboot/u-boot/common/env_flash.c:179-185 | From the moment its checksum is written the new environment is the one found, if and only if the old one is not the first slot's with a flag that a failed repair left erased; then from the moment the old one is marked OBSOLETE |
| `EnvFlash.ErasedFindsSaved` | pepe2k_uboot/u-boot/common/env_flash.c:170-178 | While a slot is being rewritten a restart finds what was saved before |
| `EnvFlash.SavedIsLoaded` | pepe2k_uboot/u-boot/common/env_flash.c:198-207 | After the swap what was saved is what is found until the next erase, also after restarts whose repairs succeed |
| `EnvFlash.RepairKeepsChoice` | pepe2k_uboot/u-boot/common/env_flash.c:304-346 | The repair, interrupted or with failing writes, changes no image, and changes the copy chosen if and only if the other's mark failed, the chosen one's erased flag was made ACTIVE, and it is the second slot or the other's flag is erased |
| `EnvFlash.RepairGoesBack` | pepe2k_uboot/u-boot/common/env_flash.c:304-346 | A run of the repair that loads the newer environment and makes later restarts load the older one |
| `EnvFlash.RestoreFailureForgets` | pepe2k_uboot/u-boot/common/env_flash.c:189-207 | A save that reports success although the rest of the sector could not be restored is lost when the next save erases its slot |
| `EnvDriver.Driver.Saveenv` | pepe2k_uboot/u-boot/common/env_flash.c:135-220 | Every flash operation saveenv makes, refused, half done, or done with an error reported, is a step of the protocol; without a failure it returns zero, the slots have swapped, and they hold the image and what was in use before, marked OBSOLETE; zero means a restart finds the image; after a failure the slots keep their roles and a restart finds the image, what the slot in use holds, or what it would have found before |
| `EnvDriver.Driver.Start` | pepe2k_uboot/u-boot/common/env_flash.c:304-346 | env_init and the relocation load what the flash holds, from the slot chosen; without a failure both flags are then right; else the repairs leave that or, if the other slot could not be marked, that slot's image for later restarts |
| `EnvDriver.Driver.InitAddress` | pepe2k_uboot/u-boot/common/env_flash.c:92-132 | The branches of env_init compute the choice of the protocol |
| `EnvDriver.Driver.RepairSecond` | pepe2k_uboot/u-boot/common/env_flash.c:318-326 | The stale copy is marked OBSOLETE unless that fails; a restart finds the same |
| `EnvDriver.Driver.RepairFirst` | pepe2k_uboot/u-boot/common/env_flash.c:328-343 | The chosen copy is marked ACTIVE where that only clears bits, unless that fails, and is read; a restart finds the same unless the repair is undone |
| `EnvDriver.PowerLossAnywhere` | pepe2k_uboot/u-boot/common/env_flash.c:137-220 | Power lost at any moment of what a driver has done, in the middle of a write too, leaves a safe state |
| `EnvBuffer.Environment.Setenv` | pepe2k_uboot/u-boot/common/cmd_nvedit.c:162-328 | Returning 0 the buffer holds the other variables in order and the new one last, its value the arguments joined by spaces, with the checksum right; without arguments the variable is gone; on overflow only the deletion has happened and the checksum is the old one |
| `EnvBuffer.Environment.Getenv` | pepe2k_uboot/u-boot/common/cmd_nvedit.c:508-526 | The place of the value of the variable, or nothing if there is none |
| `EnvBuffer.EnvMatch` | pepe2k_uboot/u-boot/common/cmd_nvedit.c:578-591 | The value's place if and only if the names are equal |
| `EnvBuffer.Environment.Find` | pepe2k_uboot/u-boot/common/cmd_nvedit.c:182-188 | The first string of that name, or the end of all strings |
| `EnvBuffer.Environment.Delete` | pepe2k_uboot/u-boot/common/cmd_nvedit.c:252-269 | Closing the gap leaves exactly the other strings, packed |
| `EnvBuffer.Environment.Shift` | pepe2k_uboot/u-boot/common/cmd_nvedit.c:259-267 | The copying loop stops at the true end: two zero bytes occur nowhere else |
| `EnvBuffer.Environment.Append` | pepe2k_uboot/u-boot/common/cmd_nvedit.c:289-328 | The entry follows the last string if it fits in the buffer with its double zero; otherwise nothing is written |
| `EnvBuffer.Environment.UpdateCrc` | pepe2k_uboot/u-boot/common/env_common.c:136-138 | The checksum of the whole data area |
| `EnvBuffer.NoEarlyEnd` | pepe2k_uboot/u-boot/common/cmd_nvedit.c:292-296 | Two zero bytes in a row mark the end of the strings and nothing else |
| `EnvBuffer.WithoutUnique` | pepe2k_uboot/u-boot/common/cmd_nvedit.c:190-270 | Deletion removes every trace of the name and keeps names unique |
| `EnvBuffer.OthersKept` | pepe2k_uboot/u-boot/common/cmd_nvedit.c:162-328 | Every variable of another name, and their order, is what it was |
| `EnvBuffer.WordsOfJoined` | pepe2k_uboot/u-boot/common/cmd_nvedit.c:317-325 | The words of a value made of arguments without blanks are the arguments |
| `EnvBuffer.PackedInBytes` | pepe2k_uboot/u-boot/common/cmd_nvedit.c:162-328 | The bytes of a packed environment of two variables, and of an empty one |
| `Crc32.Crc32` | pepe2k_uboot/crc32/src/crc32.c:154-173 | The unrolled table-driven loop equals the bit-at-a-time reflected CRC-32 for every buffer, length and seed |
| `Crc32.MakeCrcTable` | pepe2k_uboot/crc32/src/crc32.c:65-71 | The loop fills in exactly the table that is compiled in |
| `Crc32.TableOk` | pepe2k_uboot/crc32/src/crc32.c:78-131 | Every compiled-in entry is the register after eight steps from its index |
| `Crc32.Do1IsFeed` | pepe2k_uboot/crc32/src/crc32.c:148-148 | One table step is eight bit steps with the byte's bits |
| `Crc32.CrcConcat` | pepe2k_uboot/crc32/src/crc32.c:154-173 | The CRC of two pieces in turn is that of both together |
| `Crc32.CheckValue` | pepe2k_uboot/crc32/src/crc32.c:154-173 | The CRC of the nine digits is 0xCBF43926 |
| `Crc32.StepInverse` | pepe2k_uboot/crc32/src/crc32.c:69-69 | The register step is a bijection |
| `Crc32.FeedIsWord` | pepe2k_uboot/crc32/src/crc32.c:148-173 | Up to four bytes act as one word combined into the register |
| `Crc32.BurstDetected` | pepe2k_uboot/crc32/src/crc32.c:154-173 | Messages of one length that differ only inside four consecutive bytes never have the same CRC |
| `HushRun.RunList` | pepe2k_uboot/u-boot/common/hush.c:625-744 | The flag-driven loop is the interpreter defined on pipes, groups nested to any depth |
| `HushRun.Visit` | pepe2k_uboot/u-boot/common/hush.c:652-724 | One pass through the loop's body |
| `HushRun.Perform` | pepe2k_uboot/u-boot/common/hush.c:725-741 | What a pipe's return code decides |
| `HushRun.CommandRuns` | pepe2k_uboot/u-boot/common/hush.c:625-744 | The pipes of an if/elif/else chain or a while/until loop, nested, with and-lists, or-lists and exit, run the same commands with the same result as the structured command, an exit code being seen as from outside |
| `HushRun.ScriptRuns` | pepe2k_uboot/u-boot/common/hush.c:625-744 | The same for whole inputs, for every allowance of loop rounds, so also for loops that never end |
| `HushRun.ArmsRun` | pepe2k_uboot/u-boot/common/hush.c:676-683 | Conditions in order until one succeeds, then exactly that branch, else the else branch |
| `HushRun.LoopRuns` | pepe2k_uboot/u-boot/common/hush.c:653-722 | The body exactly as long as the condition demands |
| `HushRun.RunScript` | pepe2k_uboot/u-boot/common/hush.c:800-808 | The interpreter on what the parser makes of a well-formed script shows what the structured script shows |
| `HushRun.ExitCodes` | pepe2k_uboot/u-boot/common/hush.c:725-730 | The same builtins always run, and the last return code is that of the structured script, if and only if no exit from inside a group had a code other than zero |
| `HushRun.ExitInBranch` | pepe2k_uboot/u-boot/common/hush.c:725-730 | An exit from a branch with any code: the shell ends with 0 |
| `HushRun.CommandMore` | pepe2k_uboot/u-boot/common/hush.c:625-744 | A command that ends does the same under any larger allowance |
| `HushLaws.ListRuns` | pepe2k_uboot/u-boot/common/hush.c:669-741 | A list of builtins joined by && runs up to the first that fails, by or-else up to the first that succeeds, whose code it returns |
| `HushLaws.ChainRuns` | pepe2k_uboot/u-boot/common/hush.c:676-683 | Of a chain of builtins the conditions run up to the first that succeeds, then its branch, or the last branch |
| `HushLaws.LoopTurns` | pepe2k_uboot/u-boot/common/hush.c:653-741 | A while or until loop of builtins runs its body exactly as often as its condition demands |
| `HushRun.EmptyBranches` | pepe2k_uboot/u-boot/common/hush.c:652-724 | Any if whose branches may be empty runs like an if that has none: cut behind a first arm with an empty branch, and with the condition behind any later empty branch joined to the one before |
| `HushRun.FirstBranchEmpty` | pepe2k_uboot/u-boot/common/hush.c:676-683 | With nothing between the first then and elif no elif, branch or else is run, whatever the first condition returns |
| `HushRun.EmptyElifGoesOn` | pepe2k_uboot/u-boot/common/hush.c:676-683 | With nothing between a later then and elif the next elif is tried although the condition before has succeeded, and its branch taken |
| `HushRun.MixedListSkipsAll` | pepe2k_uboot/u-boot/common/hush.c:669-675 | In a list of a, or-else b, and-then c, a success of a skips c too, unlike section 2.9.3 of POSIX XCU |
| `FlashRanges.FillSectRanges` | pepe2k_uboot/u-boot/common/cmd_flash.c:192-270 | Unless it refuses, the sectors selected are exactly the addresses from the start up to a point where no sector starts or the end, and the count is their number; it covers the whole range if and only if the range starts and ends with sectors and lies in flash |
| `FlashRanges.SelectInBank` | pepe2k_uboot/u-boot/common/cmd_flash.c:213-266 | One bank's part: the sectors from the one that starts the range to the one that ends it, or to the bank's end |
| `FlashRanges.SectErase` | pepe2k_uboot/u-boot/common/cmd_flash.c:360-384 | No sector outside the range is ever asked to be erased; requests end with the first that the driver does not grant, whose code is the result, and zero means that all were granted; a success has asked for every address of the range if and only if the range starts and ends with sectors and lies in flash; such a range is not refused, and neither is one from the start of a sector past the end of the flash |
| `FlashRanges.AskedExactly` | pepe2k_uboot/u-boot/common/cmd_flash.c:366-376 | Asked sector by sector, a plan leaves nothing of the range if and only if it reaches its end |
| `FlashRanges.ReportedGrants` | pepe2k_uboot/u-boot/common/cmd_flash.c:368-382 | The result is zero if and only if there was a request and all were granted |
| `FlashRanges.PastEndExample` | pepe2k_uboot/u-boot/common/cmd_flash.c:192-270 | A bank and a range past its end that is not refused |
| `FlashRanges.RoundUp` | pepe2k_uboot/u-boot/common/cmd_flash.c:154-185 | A length is rounded up to the end of the sector of its last byte, if that is in flash |
| `FlashRanges.RoundedIsAligned` | pepe2k_uboot/u-boot/common/cmd_flash.c:141-152 | From the start of a sector such a rounded range is aligned |
| `FlashRanges.EraseLength` | pepe2k_uboot/u-boot/common/cmd_flash.c:338-357 | erase start +length asks for every sector with a byte of the range, when all of it is flash, up to the first that the driver does not grant, and returns that one's code |
| `FlashRanges.CoversMore` | pepe2k_uboot/u-boot/common/cmd_flash.c:255-257 | The next bank's sectors extend what is covered without gap or overlap |
| `FlashWrite.Write` | pepe2k_uboot/u-boot/common/flash.c:66-109 | Outside flash, or with a protection in the range that is seen, nothing is written; otherwise consecutive pieces of the source in order, each inside its bank where the range has no gap, up to the first that fails, whose code is returned; a success has written everything if and only if the addresses do not wrap around; a range that ends in an earlier bank than it starts in succeeds with nothing written |
| `FlashWrite.WriteBanks` | pepe2k_uboot/u-boot/common/flash.c:94-107 | The loop over banks splits the source without loss or reordering |
| `FlashWrite.AnyProtected` | pepe2k_uboot/u-boot/common/flash.c:82-92 | Exactly whether a protected sector of these banks that is seen meets the range |
| `FlashWrite.SeenExactly` | pepe2k_uboot/u-boot/common/flash.c:82-92 | What is seen is what meets the range, but for the last sector of the address space |
| `FlashWrite.WrapExamples` | pepe2k_uboot/u-boot/common/flash.c:66-109 | Banks and ranges for both: one that wraps around, one with a protected last sector |
| `FlashWrite.BankOf` | pepe2k_uboot/u-boot/common/flash.c:39-52 | The bank that holds an address, if there is one |

## Left out

- mmap and mremap, the fencepost branch for a foreign sbrk, statistics, mallopt, calloc, valloc, pvalloc and malloc_usable_size.
- An sbrk that refuses with null instead of -1 is not followed into the arena that would start there, and memory that crosses 2^31 from its segment's start is not modelled.
- MALLOC_COPY is the ascending word copy of `malloc.h`; for more than nine words it calls memcpy, taken to copy upward as well, which the backward paths of realloc rely on.
- Dlmalloc.Heap.Realloc: requires that the chunk does not border top where the comparison wraps; the source does not check.
- Dlmalloc.Heap.Memalign: requires for alignments above 8 that the sum does not wrap or collapse; the source does not check.
- Dlmalloc.Heap.Trim: requires that the pad does not wrap; the source does not check.
- HeapClient.Client.Run: leaves out such requests and pads and those whose padding collapses, and counts a store outside what was asked for as not made.
- The rewriter of `expr.c` updates trees in place through pointers; the model returns new trees, with paths for the two positions the elimination passes work on, and does not capture sharing of nodes or freeing.
- KconfigLogic.EqSound: E_LIST and E_RANGE nodes and null expressions are not modelled.
- expr_trans_compare and expr_simplify_unmet_dep, the printers, and of menu.c all but the conditions of entries and properties.
- KconfigValue.Calculator.CalcValue: choices, the ranges of int and hex symbols, SYMBOL_WRITE and SYMBOL_CHANGED, the warning about unmet dependencies and a change of modules_val on the way are not modelled; flags are sets and fields are sequences indexed by symbol; acyclicity is given as a ranking.
- KconfigValue.Calculator.SetStringValue: the range check of int and hex symbols is not modelled; a graph's kept texts are given.
- KconfigDeps.CheckAll: choices are not modelled; select and choice properties are skipped as in the source.
- KconfigText.Line.SetString: is for symbols of type string, whose final check accepts every text.
- EnvFlash.CrashSafe: assumes that an erase is atomic, that flag bytes are written whole or not at all, that no torn image has the checksum 0xFFFFFFFF, and that the checksum saved is that of the image saved.
- The variants of env_flash.c without a second slot, and the sector's other contents.
- EnvBuffer.Environment.Setenv: names with an equals sign, console and baud rate variables and the side effects on Ethernet, boot address and IP settings are not modelled.
- Crc32.MakeCrcTable: the polynomial is a constant; its assembly from the list of exponents is not modelled.
- HushRun.CommandRuns: tokens, quoting, variables, `for` lists and Ctrl-C are not modelled; what a builtin returns is any function of what ran before; an `if` with a condition without commands is excluded.
- HushRun.MixedListSkipsAll: lists that mix && and || are covered only by this example.
- FlashRanges.FillSectRanges: banks in descending order, overlapping or wrapping around are excluded; the driver's erase is a return code per bank.
- FlashWrite.Write: banks are all known and ascending; the driver's write is a return code per bank, and what a failed write leaves in its piece is not modelled.
- Parsing of address arguments, the abbreviated bank and sector form, protection commands, chip drivers, LZMA, boot and network commands, memory tests.
- Kconfig's front ends, the menu tree, regular expressions and the other utilities of the repository.
