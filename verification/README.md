# Proofs about an early KVM

This project models the hardest parts of the Kernel-based Virtual Machine as it stood on 2 November 2006,
and two functions of the later out-of-tree build kit, and proves what they are for.

**The shadow MMU** (`mmu.c`, `paging_tmpl.h`) is the core. The processor never sees the guest's page
tables: it walks a tree of 512-entry tables which KVM cuts from a pool of 256 pages and fills on page
faults. The model keeps the pool lists, the page headers with their back pointers, the table contents, the
guest's registers and tables, and the memory slots with their dirty bitmaps. Five results stand out.

- In every run of faults, `invlpg`, CR3 loads, dirty-log reads and context resets, the 256 headers split
  into free and active, free pages are zero, and the active pages form a tree in which each page but the
  root is pointed to by exactly one present entry, the one its header names (`MmuRuns.PoolIsTree`).
- Whenever the shadow agrees with the guest's tables at an address, an access there is decided after at most
  two faults, and is granted, refused or emulated exactly as the guest's own tables say. The processor ANDs
  the rights of every level of the shadow tables; the guest's tables are read by an independent definition of
  the three walks, sections 4.3 to 4.5 of volume 3A of the Intel SDM (`MmuExact.AccessExact`,
  `GuestWalk.WalkMeetsManual`).
- In every run the shadow agrees with the guest's tables wherever the guest has followed each change of a
  mapped translation by `invlpg`, or by a CR3 load if the translation was not global, so that is all a guest
  need do (`MmuCoherence.CleanInEveryRun`). What becomes of an access then follows from the operations alone:
  the last CR3 loaded, the memory as written (`GuestSide.AccessAsTold`, `GuestSide.NewRootServes`).
- In every run, even with stale entries, an access reaches the frame behind the translation that the guest's
  tables gave for that page when the entry was filled, with no more than its rights
  (`MmuRuns.RightsInEveryRun`), and only memory of the guest's own slots (`MmuRuns.OnlyOwnMemory`).
- Every frame the guest has written since the last log is in the next dirty log, provided the guest
  keeps that rule where it writes and its entries name the right frame (`MmuCoherence.DisciplinedLog`,
  `MmuRuns.LogComplete`), which 4KB entries do (`MmuLog.SmallPagesNameFrame`). Large pages need not: a run
  from initialisation loses a write (`MmuEscape.LargePageEscapesLog`). `MmuLog.FaultInStepExactly` and
  `MmuLog.WriteFixLogsExactly` give the exact conditions. Nor does the log report more than it should
  (`MmuLogExact.LogReportsNoMore`, `MmuLogExact.LogExactly`).

**Around it**: the memory-region protocol with any interleaving of ioctls (`SlotProtocol`), VMCS ownership
over many CPUs (`VmcsOwnership`), the CR0/CR4/EFER machine (`ModeMachine`), page-chunked guest copies
(`GuestCopy`), pending interrupts (`IrqQueue`), the string emulator with MMIO restart (`StringEmulator`), the
string I/O loop of the user-space library (`IoLoop`), the test guest's page-table builder (`PageTables`), the
cross-CPU call barrier (`SmpCall`) and the truncated 64-bit division (`Div64`).

## How it is built

The modules of the shadow MMU are, from the bottom: `Entries`, `ShadowPool`, `ShadowTree` (the page pool and
the tree), `GuestMemory`, `GuestWalk` (slots and walks), `ShadowMmu` (each entry point as a function on one
state), `ShadowWalk` (the processor's walk), `MmuInvariant`, `FetchProof`, `FetchRoutes`, `MmuSteps`,
`MmuFlush`, `MmuExact`, `MmuLog`, `MmuSurvival` (what each keeps and delivers), `MmuRuns`, `MmuEscape`,
`MmuCoherence`, `GuestSide` and `MmuLogExact` (runs). `MmuCode` is the code itself: a class over arrays,
lists and header fields, whose methods are loops and in-place writes, each proved equal to its function of
`ShadowMmu`. `PageTables`, `ModeMachine`, `GuestCopy`, `IrqQueue`, `IoLoop`, `StringEmulator` and `Div64`
likewise hold methods proved against specifications, with the properties proved about the specifications. The
protocols (`SlotProtocol`, `VmcsOwnership`, `SmpCall`) are state machines whose actions are the pieces of code
that run without interruption. `ModeManual`, `StringMeaning`, `IoMeaning`, `SlotRequests` and `PageBudget` state
what the modules they are named after should do in terms of their own, the manual's or the request's, and prove
it.

Conventions. Page-table entries are records of their bits and frame number. A machine word that is only
masked is the set of its one bits. A shadow page is the index of its header in `page_header_buf`. Ghost `lev`
gives the level at which each page hangs in the tree. In `MmuInvariant.Inv` the flag `log` adds the dirty-log
clause, which needs the condition on write faults named above.

## Where the code and expectations differ

- `fix_write_pf` marks the frame in the guest entry, for a large page its first frame
  (`paging_tmpl.h`, line 247): `MmuEscape.LargePageEscapesLog`.
- `invlpg` on an address of a 4MB guest page drops the 2MB of one shadow directory entry and leaves the other
  half (`mmu.c`, lines 534 to 543): `MmuFlush.InvlpgExactly` and `MmuRuns.InvlpgDropsLarge` say which addresses
  lose their entries, `MmuEscape.HalfSurvives` is a run.
- `fetch` sets the accessed bit of a guest directory only while it links or fills below it, so a bit that the
  guest clears stays clear while the shadow directory entry lives; `invlpg` on a 4KB page leaves that in place
  (`paging_tmpl.h`, lines 149 to 168): `FetchRoutes.StepAccesses`.
- The overlap check of `set_memory_region` counts empty slots, so a legal region can be refused
  (`kvm_main.c`, line 1450): `SlotProtocol.OverlapCheckExactly`, `SlotProtocol.EmptySlotRefuses`.
- `set_cr4` injects #GP for bad PDPTEs and goes on to take the value (`kvm_main.c`, lines 997 to 1001):
  `ModeMachine.FaultsYetTakes`, `ModeMachine.FaultsYetTakesAt`. Its VMXE test cannot be reached with VMXE set,
  as the reserved mask covers it.
- `enter_pmode` takes CR4.VME from the shadow of CR0 instead of CR4 (`kvm_main.c`, line 700), so the bit is
  lost from the hardware register until the next write to CR4; what the guest reads is right.
  `ModeMachine.Vcpu.Execute` gives the exact condition over any sequence of writes, `ModeMachine.LoseVme` a
  sequence from set-up.
- `div64_u64` can be one too large, never more and never too small: `Div64.DivU64` says for which pairs,
  `Div64.ExactForAll` for which divisors, `Div64.OffByOne` gives a pair for every other divisor,
  `Div64.OffByOnePair` an instance.
- A 32-bit IN keeps the upper half of RAX, which 64-bit mode clears (`kvmctl.c`, lines 223 to 228):
  `IoMeaning.WideInExactly`, `IoMeaning.KeepsUpperHalf`.

## Model

| member | source | states |
|---|---|---|
| ShadowPool.FreePageEffect | src/2006-11-02/kvm-module/mmu.c:163-170 | Freeing moves exactly that page from active to free; the lists still split the 256 headers |
| ShadowPool.AllocPageEffect | src/2006-11-02/kvm-module/mmu.c:183-198 | Allocation fails iff the free list is empty; otherwise its first page becomes active with a fresh header, global and without slots, that names the given parent entry; no contents change |
| ShadowPool.ReleaseFromEffect | src/2006-11-02/kvm-module/mmu.c:248-260 | From entry i on: everything below the later entries is freed, those entries are zero, the earlier ones and all pages outside the branch are untouched |
| ShadowPool.ReleaseEffect | src/2006-11-02/kvm-module/mmu.c:239-265 | Recursive release frees exactly the pages below and including p, leaves them all zero, and leaves the contents, list and header of every other page as they were |
| ShadowTree.OnePointer | src/2006-11-02/kvm-module/kvm.h:85-93 | In the tree a present entry of a non-leaf table points to page x iff it is the one `parent_pte` of x names, and that table is one level above x |
| ShadowTree.Rooted | src/2006-11-02/kvm-module/mmu.c:239-265 | Every active page is below the root, at a smaller level |
| ShadowTree.ReleaseRoot | src/2006-11-02/kvm-module/mmu.c:310-324 | Releasing the root returns all 256 pages to the free list, zeroed |
| ShadowTree.FreshRoot | src/2006-11-02/kvm-module/mmu.c:183-198 | With all pages free, allocating a root gives a one-page tree of zeroes and leaves 255 free pages |
| ShadowTree.LinkTree | src/2006-11-02/kvm-module/paging_tmpl.h:184-200 | Writing an entry to a newly allocated page into an empty entry keeps the tree |
| ShadowTree.PruneEffect | src/2006-11-02/kvm-module/mmu.c:391-407 | Zeroing the entry that points to a leaf table and freeing the table changes that entry and that page only |
| ShadowTree.PruneTree | src/2006-11-02/kvm-module/mmu.c:391-407 | Freeing a leaf table and zeroing the entry that points to it keeps the tree |
| GuestMemory.SlotFromFinds | src/2006-11-02/kvm-module/kvm_main.c:1598-1610 | The lookup returns the first slot covering the frame, and none iff none covers it |
| GuestMemory.MarkDirtyEffect | src/2006-11-02/kvm-module/kvm_main.c:1612-1626 | Marking sets exactly the bit of the frame in the slot that covers it, if that slot is logged, and no other bit |
| GuestWalk.WalkMeetsManual | src/2006-11-02/kvm-module/paging_tmpl.h:99-130 | The level-by-level walk and `gva_to_gpa` give what the 2-, 3- and 4-level walks of the manual give, rights ANDed along the way, global, accessed and dirty bits and memory type from the last entry, for 4KB, 2MB, 4MB and PSE36 pages; no translation iff some entry is absent |
| GuestWalk.WalkInStages | src/2006-11-02/kvm-module/paging_tmpl.h:155-161 | Walking to a level and on to a lower one is the same as walking straight there: `fetch` may keep one walker for all rounds |
| GuestWalk.WalkIgnoresAccessedDirty | src/2006-11-02/kvm-module/paging_tmpl.h:164-166 | Accessed and dirty bits, anywhere in guest memory, change no walk, so marking entries of self-mapped tables is harmless |
| GuestWalk.TranslationIgnoresAccessedDirty | src/2006-11-02/kvm-module/paging_tmpl.h:337-365 | Accessed and dirty bits change no translation: `gva_to_gpa` gives the same address |
| FetchProof.FillEffect | src/2006-11-02/kvm-module/paging_tmpl.h:67-97 | Filling a leaf from a guest entry keeps the MMU invariant |
| FetchProof.FillServes | src/2006-11-02/kvm-module/paging_tmpl.h:77-97 | The filled leaf holds the host frame of the address inside the 4KB or large page with the walk's rights, accessed and dirty bits and memory type, or is a non-present I/O mark with the guest frame exactly when no slot covers it; it is global iff a 4KB entry is, so never for a large page |
| FetchProof.FillIsFresh | src/2006-11-02/kvm-module/paging_tmpl.h:67-97 | A leaf filled at the end of the walk is what the manual's walk of the guest's tables calls for, also after the fill has set accessed bits, and the guest's last entry is then accessed |
| FetchProof.AbsentIsUnmapped | src/2006-11-02/kvm-module/paging_tmpl.h:164-165 | `fetch` gives up early only for addresses the guest does not map |
| FetchProof.FetchKeeps | src/2006-11-02/kvm-module/paging_tmpl.h:132-205 | From any table on the way down `fetch` keeps the invariant, takes at most one page a level, keeps the shadowed rights and the frame of every other leaf, and ends on the leaf the processor will reach, the old one or a fresh one, or reports an unmapped address, or no memory with the pool empty |
| FetchRoutes.FetchReroutes | src/2006-11-02/kvm-module/paging_tmpl.h:132-205 | `fetch` reroutes no address that had an entry, leaves every other leaf as it was bit for bit, and a leaf filled from a large page has PT_SHADOW_PS_MARK above it |
| FetchRoutes.StepAccesses | src/2006-11-02/kvm-module/paging_tmpl.h:146-168 | A round sets the accessed bit of the guest entry at its level iff there is no shadow entry there yet and it is not a PAE directory pointer; so a directory's bit that the guest has cleared stays clear below a shadow directory entry, which `invlpg` leaves in place |
| ShadowWalk.OnePath | src/2006-11-02/kvm-module/mmu.c:239-265 | In the tree, addresses that reach one table came through the same entries |
| ShadowWalk.TogetherIsPage | src/2006-11-02/kvm-module/mmu.c:96-104 | Sharing the path down to an entry is lying in one 4KB or 2MB page |
| FetchProof.FetchFromRoot | src/2006-11-02/kvm-module/paging_tmpl.h:132-205 | `fetch` from the root keeps the invariant and delivers the same, with at most `shadow_root_level - 1` pages taken |
| MmuSteps.InitEstablishes | src/2006-11-02/kvm-module/mmu.c:609-622 | Picking a root from a full pool establishes the invariant |
| MmuSteps.ResetKeeps | src/2006-11-02/kvm-module/mmu.c:624-637 | A context reset into any mode keeps the invariant and leaves 255 free pages and all entries zero |
| MmuSteps.FlushKeeps | src/2006-11-02/kvm-module/mmu.c:310-324 | A flush keeps the invariant and leaves 255 free pages and all entries zero |
| MmuSteps.FixWriteKeeps | src/2006-11-02/kvm-module/paging_tmpl.h:207-265 | The write fix keeps the invariant, with the assertion that shadow-writable user bits agree, and alters one leaf and only accessed or dirty bits of guest entries |
| MmuSteps.FixReadKeeps | src/2006-11-02/kvm-module/mmu.c:483-498 | The read fix keeps the invariant and alters one leaf |
| MmuSteps.FetchTwice | src/2006-11-02/kvm-module/paging_tmpl.h:281-290 | The fault loop ends after at most two rounds: it never runs out of memory twice, an existing leaf is returned untouched, a new one is fresh |
| MmuSteps.PageFaultKeeps | src/2006-11-02/kvm-module/paging_tmpl.h:268-335 | The whole fault handler keeps the invariant; the guest's tables change in accessed and dirty bits only |
| MmuSteps.MapKeeps | src/2006-11-02/kvm-module/mmu.c:271-308 | `nonpaging_map` from any table on the way down keeps the invariant and ends with the identity leaf, or out of memory with the pool empty |
| MmuSteps.NonpagingFaultKeeps | src/2006-11-02/kvm-module/mmu.c:331-356 | The non-paging fault always ends: it emulates exactly outside the slots, else the leaf the processor reaches maps the frame with all rights, after at most one flush |
| MmuFlush.InvlpgKeeps | src/2006-11-02/kvm-module/mmu.c:513-545 | `invlpg` keeps the invariant, grants nothing new, reroutes no entry that stays, and leaves no translation of the address |
| MmuFlush.InvlpgExactly | src/2006-11-02/kvm-module/mmu.c:513-545 | After `invlpg` exactly those addresses still have an entry that had one and do not lie in the same 4KB page or, under a marked directory entry, in the same 2MB |
| MmuFlush.PruneRoutes | src/2006-11-02/kvm-module/mmu.c:391-407 | Dropping a leaf table unmaps exactly the addresses it served |
| MmuFlush.FlushListKeeps | src/2006-11-02/kvm-module/mmu.c:391-407 | The walk over the active list, freeing as it goes, keeps the invariant; what is left of the walked pages is marked global, and nothing else is lost |
| MmuFlush.LoadCr3Keeps | src/2006-11-02/kvm-module/kvm_main.c:1014-1041 | A CR3 load loads CR3 and changes nothing else of the guest; every surviving leaf entry is empty or has the G bit, and the invariant holds |
| MmuSurvival.LoadCr3Exactly | src/2006-11-02/kvm-module/mmu.c:391-412 | After a CR3 load exactly those addresses still have an entry, and the same one, that had one in a table marked global |
| MmuSurvival.StepMarksTables | src/2006-11-02/kvm-module/mmu.c:414-440 | A table is marked global and names no slot when it is taken from the pool; a round of `fetch` unmarks it exactly by filling a leaf without the G bit in it, and adds to its slots exactly that of the page it fills a leaf for |
| MmuSurvival.FetchMarksTables | src/2006-11-02/kvm-module/mmu.c:414-440 | The same for a whole `fetch`, for every table |
| MmuSurvival.MapStaysGlobal | src/2006-11-02/kvm-module/mmu.c:271-308 | The identity mapping unmarks no table, and every table it takes from the pool stays marked global |
| MmuSurvival.ReadLogTouches | src/2006-11-02/kvm-module/mmu.c:703-721 | Reading a log takes write access from exactly the entries of the tables that name the slot, nothing else of them and nothing when no bit is set |
| MmuSurvival.UnmappedIsInjected | src/2006-11-02/kvm-module/paging_tmpl.h:293-300 | A fault at an address the guest does not map and the shadow has no entry for is given to the guest with the present bit it came with |
| MmuSurvival.WriteFaultDrops | src/2006-11-02/kvm-module/paging_tmpl.h:219-245 | A write fault on an entry drops it exactly when the guest no longer maps the address, the entry was not writable and its shadowed rights let the handler look; otherwise it stays |
| MmuSurvival.LinkCarries | src/2006-11-02/kvm-module/paging_tmpl.h:184-198 | A table is linked with the memory type, accessed and dirty bits and NX of the guest's directory entry, a PAE directory pointer with the memory type alone |
| MmuFlush.GetDirtyLogKeeps | src/2006-11-02/kvm-module/kvm_main.c:1539-1596 | Reading the log of a logged slot returns its bitmap, clears it and leaves no shadow entry that could write to the slot unseen, even though protection is skipped when the bitmap is empty; it grants nothing new |
| MmuFlush.EmptyLogProtected | src/2006-11-02/kvm-module/kvm_main.c:1559-1566 | With no bit set there is nothing to protect |
| MmuExact.FaultDecides | src/2006-11-02/kvm-module/paging_tmpl.h:268-335 | A fault resumes, injects or emulates exactly as the guest's rights, U, W and CR0.WP say, and resuming leaves an entry that allows the access |
| MmuExact.AccessExact | src/2006-11-02/kvm-module/paging_tmpl.h:268-335 | Any access, at an address where the shadow agrees with the guest's tables, is decided by the second try at the latest, exactly as the guest's tables decide it: granted with the frame, emulated, or a page fault with the right present bit in its error code; the processor checks rights at every level of its own walk |
| MmuInvariant.HwLeafIs | src/2006-11-02/kvm-module/paging_tmpl.h:187-198 | The rights the processor finds over its whole walk are those of the leaf: directory entries restrict nothing, in every mode |
| MmuExact.TryOnce | src/2006-11-02/kvm-module/paging_tmpl.h:268-335 | One try either gives that verdict or leaves a present entry which will |
| MmuExact.FaultRecords | src/2006-11-02/kvm-module/paging_tmpl.h:146-265 | A fault leaves the guest's last entry accessed if the shadow has an entry, and dirty if that entry lets writes through |
| MmuExact.TryRecords | src/2006-11-02/kvm-module/paging_tmpl.h:146-265 | So an access that is let through finds the guest's last entry accessed, and a write finds it dirty |
| MmuRuns.PoolIsTree | src/2006-11-02/kvm-module/mmu.c:163-265 | In every run the free and active lists split the 256 pages, free pages are zero, and the active pages are a tree of the mode's height, each but the root pointed to by exactly one present entry, the one its header names, one level up |
| MmuRuns.DirectoriesInEveryRun | src/2006-11-02/kvm-module/paging_tmpl.h:186-198 | In every run the processor can walk each present directory entry: it points to a table, grants what the leaf will, and a PAE directory pointer has no reserved bit set |
| MmuRuns.RightsInEveryRun | src/2006-11-02/kvm-module/paging_tmpl.h:207-253 | In every run, whatever the guest does to its tables, an access the processor lets through reaches the frame behind the translation that was read for the same page when the entry was filled, within the rights of that walk; a supervisor may also write read-only pages while CR0.WP is 0 |
| MmuRuns.OnlyOwnMemory | src/2006-11-02/kvm-module/mmu.c:215-227 | In every run and mode, what an access reaches is memory of the guest's own slots |
| MmuRuns.InvlpgDropsLarge | src/2006-11-02/kvm-module/mmu.c:527-543 | In every run, `invlpg` anywhere in the 2MB of an entry that came from a large page, also where there is no entry, removes exactly the entries of that 2MB, so of a 4MB page the other half stays |
| MmuRuns.EnabledFromInit | src/2006-11-02/kvm-module/mmu.c:609-637 | Operations that are enabled can always be run: the MMU never loses its root |
| MmuRuns.LogMissesNothing | src/2006-11-02/kvm-module/mmu.c:419-449 | In every run whose write faults are in step, each frame the guest wrote since the last log is set in the next one |
| MmuRuns.LogComplete | src/2006-11-02/kvm-module/mmu.c:419-449 | The same where write faults meet entries that agree with the guest's tables and the guest entry names the frame, as every 4KB entry does; such runs can always go on |
| MmuLogExact.FillMarks | src/2006-11-02/kvm-module/mmu.c:428-432 | A fill sets no dirty bit but that of the page it makes writable |
| MmuLogExact.FaultMarks | src/2006-11-02/kvm-module/paging_tmpl.h:268-335 | Every bit a fault sets is that of a page the guest can write without a fault afterwards, or of the frame that a repaired write fault names |
| MmuLogExact.LogReportsNoMore | src/2006-11-02/kvm-module/kvm_main.c:1539-1596 | In every run, whatever the guest does, a page the log reports is one which since the log was last read the guest could write without a fault, or which a repaired write fault named, or whose bit was set when its slot was installed |
| MmuLogExact.LogExactly | src/2006-11-02/kvm-module/kvm_main.c:1539-1596 | In runs whose write faults meet entries that agree with the guest's tables and name their frames, the log reports exactly those pages |
| MmuRuns.ExecKeeps | src/2006-11-02/kvm-module/mmu.c:163-449 | Each operation keeps the invariant, the record of granted rights and the record of written frames |
| MmuRuns.FromInit | src/2006-11-02/kvm-module/mmu.c:677-693 | Every run from initialisation keeps the invariant, the granted rights and the written frames on record |
| MmuLog.MarkExactly | src/2006-11-02/kvm-module/kvm_main.c:1612-1626 | After marking frame number n a host frame is logged iff it was or it is the one n maps to |
| MmuLog.WriteFixLogsExactly | src/2006-11-02/kvm-module/paging_tmpl.h:240-253 | After a successful write fix the page that became writable is logged iff the frame in the guest entry maps to it or it was logged before |
| MmuLog.FaultInStepExactly | src/2006-11-02/kvm-module/paging_tmpl.h:240-253 | Where the shadow agrees with the guest's tables, a write fault is in step iff the guest entry names the frame the address maps to |
| MmuLog.SmallPagesNameFrame | src/2006-11-02/kvm-module/paging_tmpl.h:240-253 | Every 4KB entry does |
| MmuEscape.LargePageEscapesLog | src/2006-11-02/kvm-module/paging_tmpl.h:247 | A run from initialisation: a user reads and then writes the second frame of a large page, and the log shows the first alone |
| MmuEscape.HalfSurvives | src/2006-11-02/kvm-module/mmu.c:534-543 | A run from initialisation: two reads in the halves of one 4MB page, then `invlpg` on the first address, after which the second still has its entry |
| MmuCoherence.SamePage | src/2006-11-02/kvm-module/paging_tmpl.h:99-130 | All addresses of a 4KB page, by the shadow's indices, have one translation in the guest's tables, in all three modes |
| MmuCoherence.ExecAges | src/2006-11-02/kvm-module/mmu.c:391-545 | Each operation keeps every shadow entry as the guest's tables say, but for addresses whose translation was changed and not invalidated since; CR3 loads settle those that were not global, `invlpg` its page, or its 2MB if only large pages were changed |
| MmuCoherence.CleanInEveryRun | src/2006-11-02/kvm-module/mmu.c:391-545 | In every run, wherever the guest has followed each change of a mapped translation by `invlpg`, or by a CR3 load if it was not global, the shadow agrees with the guest's tables, whatever else it did in between |
| MmuCoherence.AccessInEveryRun | src/2006-11-02/kvm-module/paging_tmpl.h:268-335 | So in every run an access at such an address is decided by the second try at the latest, exactly as the guest's tables say |
| GuestSide.ExecTold | src/2006-11-02/kvm-module/kvm_main.c:1014-1041 | After every operation the guest has the registers and tables that the operation gave it, CR3 among them, but for accessed and dirty bits |
| GuestSide.AccessAsTold | src/2006-11-02/kvm-module/paging_tmpl.h:268-335 | In every run an access is decided, by the second try, as the tables say which the operations gave the guest, at every address for which the operations leave no invalidation owing: nothing is read off the resulting state |
| GuestSide.NewRootServes | src/2006-11-02/kvm-module/kvm_main.c:1014-1041 | After a CR3 load, until the next, accesses at such addresses are decided by the tables at the root that was loaded |
| MmuCoherence.DisciplinedLog | src/2006-11-02/kvm-module/mmu.c:419-449 | In every run of a guest whose writes that fault are at such addresses, through entries that name their frames, the next log reports every frame written; a condition on the guest alone |
| MmuCode.Vcpu.FreePage | src/2006-11-02/kvm-module/mmu.c:163-170 | In place: list removal, insertion at the head and zeroing are the pool's free operation |
| MmuCode.Vcpu.AllocPage | src/2006-11-02/kvm-module/mmu.c:183-198 | In place: takes the head of the free list, resets its header |
| MmuCode.Vcpu.Release | src/2006-11-02/kvm-module/mmu.c:239-265 | The recursive loop over 512 entries equals the specified release |
| MmuCode.Vcpu.MarkPageDirty | src/2006-11-02/kvm-module/kvm_main.c:1612-1626 | The loop over the slots sets the one bit |
| MmuCode.Vcpu.WalkGuest | src/2006-11-02/kvm-module/paging_tmpl.h:99-130 | The loop over levels with ANDed rights equals the recursive walk |
| MmuCode.Vcpu.SetPteCommon | src/2006-11-02/kvm-module/mmu.c:419-449 | The leaf write in place, with the table's global mark and slot bitmap, the dirty log and the I/O mark |
| MmuCode.Vcpu.FetchRound | src/2006-11-02/kvm-module/paging_tmpl.h:145-201 | One iteration of the `fetch` loop: stop at an existing leaf, fail on an absent guest entry, fill, mark a large page, or link a new table |
| MmuCode.Vcpu.FetchEntry | src/2006-11-02/kvm-module/paging_tmpl.h:132-205 | The whole loop of `fetch`, from the root to the leaf or to one of its two failures |
| MmuCode.Vcpu.FlushAll | src/2006-11-02/kvm-module/mmu.c:310-324 | Releasing the tree and picking a new root, in place |
| MmuCode.Vcpu.ResetContext | src/2006-11-02/kvm-module/mmu.c:624-637 | Releasing the tree, changing mode and picking a new root, in place |
| MmuCode.Vcpu.FixWritePf | src/2006-11-02/kvm-module/paging_tmpl.h:207-265 | Its branches, the assertion, guest dirty bit and log |
| MmuCode.Vcpu.PageFault | src/2006-11-02/kvm-module/paging_tmpl.h:268-335 | The retry loop, proved to stop after two rounds, then the fixes and the verdict |
| MmuCode.Vcpu.MapPage | src/2006-11-02/kvm-module/mmu.c:271-308 | The descending loop in place |
| MmuCode.Vcpu.InvalAddress | src/2006-11-02/kvm-module/mmu.c:513-545 | The descending loop, which stops at a non-leaf entry without a table or frees the leaf table of a large page |
| MmuCode.Vcpu.FlushTlb | src/2006-11-02/kvm-module/mmu.c:391-407 | The walk over the active list while pages are removed from it: the saved next pointer stays valid |
| MmuCode.Vcpu.RemoveWriteAccess | src/2006-11-02/kvm-module/mmu.c:703-722 | The loop over active leaf tables naming the slot |
| MmuCode.SuccessorInPlace | src/2006-11-02/kvm-module/mmu.c:395-401 | The element after the current one in a list without repeats is the head of the rest: what `list_for_each_safe` saves |
| MmuCode.WalkStep | src/2006-11-02/kvm-module/mmu.c:395-401 | Removing the current element leaves the rest of the walk as it was |
| SlotProtocol.NextKeeps | src/2006-11-02/kvm-module/kvm_main.c:1399-1534 | Every locked section, allocation, vCPU reset, fault and release keeps the invariant: disjoint slots, busy count, bitmaps and page arrays where they belong, one owner for each block; and each block a vCPU maps belongs to a slot or to a request that has still to reset that vCPU |
| SlotProtocol.EveryInterleaving | src/2006-11-02/kvm-module/kvm_main.c:1399-1534 | In every interleaving non-empty slots are pairwise disjoint, every live block has exactly one owner (a slot or a request), `busy` counts the readers, slots beyond `nmemslots` are empty, and every page array a vCPU maps pages of is live |
| SlotProtocol.LookupExact | src/2006-11-02/kvm-module/kvm_main.c:1598-1610 | `gfn_to_memslot` finds a slot iff one covers the frame, and it is the only one |
| SlotProtocol.ReaderIsSafe | src/2006-11-02/kvm-module/kvm_main.c:1539-1596 | While a reader is between its locked sections no action commits or frees anything a slot holds |
| SlotProtocol.FreedOnce | src/2006-11-02/kvm-module/kvm_main.c:565-594 | A step frees only live blocks, each once, frees nothing that stays live, and loses none |
| SlotProtocol.FreedUnmapped | src/2006-11-02/kvm-module/kvm_main.c:1515-1525 | No step frees a page array that the shadow tables of some vCPU still map pages of: the resets between commit and release see to that |
| SlotProtocol.OverlapCheckExactly | src/2006-11-02/kvm-module/kvm_main.c:1447-1453 | The overlap check passes iff the region meets no other slot's frames and no empty slot's base lies strictly inside it |
| SlotProtocol.EmptySlotRefuses | src/2006-11-02/kvm-module/kvm_main.c:1450 | A run in which a legal region is refused although all slots are empty, because one of them was given a base |
| SlotRequests.CommittedAsAsked | src/2006-11-02/kvm-module/kvm_main.c:1419-1513 | In every interleaving an action leaves all slots alone or is the commit of a request, which sets its slot to exactly the bytes asked for, logged if that was asked, and keeps the pages and the bitmap that were there |
| SlotRequests.OkWasSet | src/2006-11-02/kvm-module/kvm_main.c:1495-1528 | A request answered 0 has had its slot set as it asked, by its own commit earlier in the run |
| SlotRequests.CheckAnswers | src/2006-11-02/kvm-module/kvm_main.c:1411-1453 | The first section answers -EINVAL iff the region is malformed, -EEXIST iff it is not and meets the bytes of another slot, and lets it pass otherwise |
| SlotRequests.AllocateAnswers | src/2006-11-02/kvm-module/kvm_main.c:1461-1493 | Allocation answers -ENOMEM iff the page array of a new slot or a new bitmap could not be had |
| SlotRequests.CommitAnswers | src/2006-11-02/kvm-module/kvm_main.c:1495-1513 | The second section starts over iff the slots have changed, answers -EAGAIN iff they have not and someone reads a dirty log, and commits otherwise |
| SlotRequests.RequestEnds | src/2006-11-02/kvm-module/kvm_main.c:1399-1534 | From every reachable state a request that goes on is answered after finitely many steps of its own |
| SlotRequests.ReadersMove | src/2006-11-02/kvm-module/kvm_main.c:1547-1594 | A reader can always come in and go out, and `busy` counts those inside |
| SlotRequests.MapsMove | src/2006-11-02/kvm-module/kvm_main.c:1515-1523 | Resetting a vCPU leaves it with nothing mapped and goes on to the next; a fault maps a page of its slot |
| VmcsOwnership.NextKeeps | src/2006-11-02/kvm-module/kvm_main.c:376-436 | Every load, cross-CPU clear, entry and put keeps the ownership invariant |
| VmcsOwnership.ClearKeeps | src/2006-11-02/kvm-module/kvm_main.c:384-393 | `__vcpu_clear` on any CPU, while the load waits, keeps the ownership invariant |
| VmcsOwnership.OneCpuEach | src/2006-11-02/kvm-module/kvm_main.c:376-436 | In every run a VMCS is current and active on at most one CPU, then `vcpu->cpu`; it is active where it is current, and the per-CPU `current_vmcs` is what the processor has loaded |
| VmcsOwnership.EntryIsRight | src/2006-11-02/kvm-module/kvm_main.c:2670-2781 | At every VM entry the right VMCS is loaded and `launched` is its launch state, so VMLAUNCH or VMRESUME is chosen rightly |
| VmcsOwnership.LoadedAfterCleared | src/2006-11-02/kvm-module/kvm_main.c:403-421 | VMPTRLD runs only when the VMCS is active on no other CPU |
| VmcsOwnership.LoadStarts | src/2006-11-02/kvm-module/kvm_main.c:396-421 | A load on a free CPU is taken up: done at once where the vCPU last ran, else it waits for a clear on every other CPU |
| VmcsOwnership.ClearCounts | src/2006-11-02/kvm-module/kvm_main.c:384-393 | A clear can always be done on a CPU that is waited for, and takes it off |
| VmcsOwnership.LoadEnds | src/2006-11-02/kvm-module/kvm_main.c:396-421 | From every reachable state one clear for each CPU still waited for, and then the load, leave the vCPU loaded where it was to be, not launched |
| VmcsOwnership.OthersWait | src/2006-11-02/kvm-module/kvm_main.c:376-436 | Actions on other vCPUs leave a load where it stands |
| VmcsOwnership.EnterAndPut | src/2006-11-02/kvm-module/kvm_main.c:2670-2781 | A successful entry launches, a failed one changes nothing, a put frees the CPU |
| ModeMachine.EveryRunCoherent | src/2006-11-02/kvm-module/kvm_main.c:903-1012 | Over every sequence of CR0, CR4, EFER and LMSW writes: PG implies PE, LMA is LME and PG, long mode implies PAE |
| ModeMachine.ReadsLastAccepted | src/2006-11-02/kvm-module/kvm.h:311-331 | `guest_cr0` and `guest_cr4` read as the last accepted write left them, EFER as last written but for LMA |
| ModeMachine.FaultsYetTakes | src/2006-11-02/kvm-module/kvm_main.c:997-1010 | Exactly when `set_cr4` raises #GP and still takes the value |
| ModeMachine.FaultsYetTakesAt | src/2006-11-02/kvm-module/kvm_main.c:997-1010 | It happens: under 32-bit paging, a write that sets PAE while the PDPTEs are bad |
| ModeMachine.Vcpu.constructor | src/2006-11-02/kvm-module/kvm_main.c:1303-1309 | Set-up reaches real mode with CR0 0x60000010 and the invariant, whatever the VMCS held |
| ModeMachine.Vcpu.EnterPmode | src/2006-11-02/kvm-module/kvm_main.c:684-726 | Protected mode keeps the guest's view of CR4 and loses VME from the real one |
| ModeMachine.Vcpu.WriteCr0 | src/2006-11-02/kvm-module/kvm_main.c:855-874 | `__set_cr0`: real-mode emulation follows PE, LMA and the IA-32e control follow PG under LME |
| ModeMachine.Vcpu.SetCr0 | src/2006-11-02/kvm-module/kvm_main.c:903-958 | Accepts, refuses and changes the visible registers as specified, and keeps: emulation iff PE is 0, IA-32e control iff LMA, MMU levels of the mode, host bits always on; leaving real mode loses VME from the real CR4, and without a change of mode the real VME stays |
| ModeMachine.Vcpu.Lmsw | src/2006-11-02/kvm-module/kvm_main.c:960-973 | PE can be set and not cleared, MP, EM and TS are taken, the MMU levels stay right without a reset; setting PE loses VME from the real CR4 |
| ModeMachine.Vcpu.SetCr4 | src/2006-11-02/kvm-module/kvm_main.c:982-1012 | Takes or refuses a CR4 value as specified, raises #GP as specified, resets the MMU to the right levels, and keeps the invariant; the real VME is right again |
| ModeMachine.Vcpu.SetEfer | src/2006-11-02/kvm-module/kvm_main.c:2283-2311 | Takes or refuses an EFER value as specified; LME cannot change under paging, LMA not at all; the MMU levels stay right without a reset |
| ModeMachine.Vcpu.Execute | src/2006-11-02/kvm-module/kvm_main.c:684-1012 | Any sequence of writes, those without an exit included, refines the visible machine; in protected mode the hardware has VME iff the guest has it and a CR4 write was accepted since it last left real mode |
| ModeMachine.LoseVme | src/2006-11-02/kvm-module/kvm_main.c:700 | From set-up: CR4.VME and then CR0.PE leave VME set for the guest and clear in the hardware |
| ModeManual.Cr0Exactly | src/2006-11-02/kvm-module/kvm_main.c:903-958 | A CR0 write raises #GP iff the manual says so: a reserved bit, NW without CD, PG without PE, paging started with LME and PAE clear or CS.L set, or with PAE alone and bad PDPTEs; then nothing changes, else CR0 reads back and LMA is LME and PG |
| ModeManual.Cr4Exactly | src/2006-11-02/kvm-module/kvm_main.c:982-1012 | A CR4 write raises #GP iff the manual says so; it reads back unless it sets a reserved bit or clears PAE in long mode |
| ModeManual.EferExactly | src/2006-11-02/kvm-module/kvm_main.c:2283-2300 | An EFER write raises #GP iff it sets a reserved bit or changes LME under paging; else it reads back but for LMA |
| ModeManual.LmswExactly | src/2006-11-02/kvm-module/kvm_main.c:960-973 | LMSW takes bits 1 to 3, sets and never clears bit 0, leaves the rest and never faults |
| ModeManual.DirectExactly | src/2006-11-02/kvm-module/kvm.h:33-38 | Without an exit the guest writes CR0 and CR4 as it likes if it keeps bits 0, 5, 16, 31 and 0, 4, 5, 7, 13 |
| ModeManual.LongModeEntered | src/2006-11-02/kvm-module/kvm_main.c:931-945 | Only a CR0 write turns LMA on, with CS.L clear and PAE and LME set |
| ModeManual.EnterLongMode | src/2006-11-02/kvm-module/kvm_main.c:903-1012 | From set-up, PAE, LME, then PE and PG reach long mode without a fault, with the VM-entry control and four levels |
| ModeManual.WhatRuns | src/2006-11-02/kvm-module/kvm.h:33-40 | The processor always runs with PE, NE, WP and PG, PAE and VMXE; the IA-32e control is LMA; the MMU has the levels of the mode |
| GuestCopy.ReadGuest | src/2006-11-02/kvm-module/kvm_main.c:287-318 | The chunked copy equals a byte-by-byte one, returns the number of bytes before the first unmapped one, and leaves the rest of the buffer alone |
| GuestCopy.WriteGuest | src/2006-11-02/kvm-module/kvm_main.c:320-352 | The chunked write equals storing byte by byte up to the first unmapped one, also when two guest pages share a host page, and returns how many were stored |
| GuestCopy.Reach | src/2006-11-02/kvm-module/kvm_main.c:296-302 | Its result is the first unmapped byte, or the size |
| GuestCopy.StoreChunk | src/2006-11-02/kvm-module/kvm_main.c:335-346 | A chunk within a page stored at once equals its bytes stored one by one |
| GuestCopy.WriteThenRead | src/2006-11-02/kvm-module/kvm_main.c:287-352 | What was written reads back up to the first unmapped byte when the touched bytes lie apart |
| GuestCopy.PagesApart | src/2006-11-02/kvm-module/kvm_main.c:287-352 | The touched bytes lie apart when the touched pages map to distinct host pages and the copy does not wrap onto itself |
| GuestCopy.RoundTripExactly | src/2006-11-02/kvm-module/kvm_main.c:287-352 | The round trip holds for all data iff the bytes lie apart |
| IrqQueue.Queue.Enqueue | src/2006-11-02/kvm-module/kvm_main.c:3064-3065 | Adds exactly the vector; a summary bit is set iff its word is not zero |
| IrqQueue.Queue.Inject | src/2006-11-02/kvm-module/kvm_main.c:2499-2515 | Removes exactly the smallest pending vector and keeps the summary |
| IrqQueue.Queue.SummaryTells | src/2006-11-02/kvm-module/kvm_main.c:2616-2618 | The summary is non-zero iff a vector is pending |
| IrqQueue.FirstSet | src/2006-11-02/kvm-module/kvm_main.c:2501-2502 | The lowest set bit |
| StringEmulator.Vcpu.ReadEmulated | src/2006-11-02/kvm-module/kvm_main.c:1702-1727 | Uses and consumes a completed read, else memory, else asks for MMIO, or reports a fault |
| StringEmulator.Vcpu.MemOp | src/2006-11-02/kvm-module/x86_emulate.c:1065-1128 | The code on its register copy, with its early exits, does all of an element or none of it |
| StringEmulator.Vcpu.EmulateInstruction | src/2006-11-02/kvm-module/kvm_main.c:1796-1858 | Around the emulator: reports done or MMIO as the element asked for it; failure without an MMIO request cannot happen |
| StringEmulator.AllOrNothing | src/2006-11-02/kvm-module/x86_emulate.c:1065-1080 | A call that faults or waits for a read changes no register; otherwise exactly one element is committed |
| StringEmulator.ElementRounds | src/2006-11-02/kvm-module/kvm_main.c:1702-1727 | An element takes one round of fault, emulation and completion, or two when a device must be read, and reads the device once; registers move only in the last round |
| StringEmulator.RepDoesAll | src/2006-11-02/kvm-module/x86_emulate.c:1079-1088 | REP does exactly the number of elements the manual counts, CX, ECX or RCX by address size, in at most two rounds each, and RIP moves one round later and not before; the rest of RCX is left as it was |
| StringEmulator.CompletesOnce | src/2006-11-02/kvm-module/x86_emulate.c:1079-1088 | The number of elements done when RIP first moves is the manual's count and no other |
| StringEmulator.PointersEnd | src/2006-11-02/kvm-module/x86_emulate.c:412-421 | After n elements each index register the instruction uses is n steps on modulo the address width, its upper bits kept; the other is untouched |
| StringEmulator.StosFills | src/2006-11-02/kvm-module/x86_emulate.c:1105-1112 | A STOS hands the device RAX at each of the n places in order |
| StringMeaning.ElementsMean | src/2006-11-02/kvm-module/x86_emulate.c:1079-1128 | After n elements everything is as the manual has it: pointers n elements up or down after DF within the address size, AL, AX, EAX or RAX loaded with the last element, each element read from memory or the device and written where it belongs, in order |
| StringMeaning.RepMeans | src/2006-11-02/kvm-module/x86_emulate.c:1079-1088 | For a whole REP this holds with the manual's count, then RIP is at the next instruction and RCX less by the count |
| StringMeaning.SingleMeans | src/2006-11-02/kvm-module/x86_emulate.c:1079-1128 | Without REP it holds for one element, RCX stays and RIP moves on |
| StringMeaning.Asks | src/2006-11-02/kvm-module/kvm_main.c:1702-1747 | A call that leaves for user space says so and asks for the element's own bytes: to write its value where it goes, or to read where it comes from, and only if nothing was read for it yet |
| StringMeaning.EmptyRep | src/2006-11-02/kvm-module/x86_emulate.c:1082-1086 | Entered with the count at zero the emulator moves RIP on and does nothing else |
| IoLoop.Session.Translate | src/2006-11-02/libkvm/kvmctl.c:32-53 | The cache answers as a fresh translation would |
| IoLoop.Session.Transfer | src/2006-11-02/libkvm/kvmctl.c:208-268 | The body of the loop does one element |
| IoLoop.Session.HandleIo | src/2006-11-02/libkvm/kvmctl.c:177-279 | The loop does all elements, or stops after the callback that failed, or exits before one it cannot translate; registers are saved with exactly the elements done |
| IoLoop.ElementsMove | src/2006-11-02/libkvm/kvmctl.c:258-268 | After k elements the pointer has moved k times delta in step with the address, and under REP RCX and the count have dropped by k |
| IoLoop.RestartDoesTheRest | src/2006-11-02/libkvm/kvmctl.c:258-278 | A REP cut short by an error and entered again does each element exactly once |
| IoLoop.OutputInOrder | src/2006-11-02/libkvm/kvmctl.c:235-253 | Output hands the device the bytes at the successive addresses and changes no memory |
| IoLoop.InputLands | src/2006-11-02/libkvm/kvmctl.c:209-234 | Input leaves each answer at its address unless a later element overlaps it |
| IoLoop.Compose | src/2006-11-02/libkvm/kvmctl.c:192-274 | k elements and then m are k + m elements |
| IoMeaning.StringEnds | src/2006-11-02/libkvm/kvmctl.c:258-268 | After n elements of a string RDI or RSI and the address are n sizes up or down after DF, RCX and the count n less under REP, RAX and the other pointer as they were |
| IoMeaning.SpotIs | src/2006-11-02/libkvm/kvmctl.c:32-53 | The k-th element lies k sizes on, in the page its guest page is mapped to |
| IoMeaning.RegisterIo | src/2006-11-02/libkvm/kvmctl.c:192-253 | IN and OUT of a register take one callback: IN puts the answer in the low bytes of RAX, OUT hands them over, and nothing else changes |
| IoMeaning.WideInExactly | src/2006-11-02/libkvm/kvmctl.c:223-228 | A 32-bit IN leaves RAX as 64-bit mode has it, zero-extended, iff its upper half was zero |
| IoMeaning.KeepsUpperHalf | src/2006-11-02/libkvm/kvmctl.c:223-228 | There is an IN that does not |
| PageTables.InstallGet | src/2006-11-02/libkvm/test/vm.c:64-104 | Reading back gives the new entry at the addresses it covers and what was there before elsewhere |
| PageTables.InstallElsewhere | src/2006-11-02/libkvm/test/vm.c:64-84 | Nothing reachable from another table of the level changes |
| PageTables.InstallKeeps | src/2006-11-02/libkvm/test/vm.c:64-84 | Tables stay a tree apart from the free list |
| PageTables.LinkKeeps | src/2006-11-02/libkvm/test/vm.c:74-79 | A table taken from the free list is zeroed and linked, and both structures survive |
| PageTables.SetupIsIdentity | src/2006-11-02/libkvm/test/vm.c:182-199 | `setup_mmu` maps every whole page below `len` to itself, with large pages first |
| PageTables.FreeRangeChains | src/2006-11-02/libkvm/test/vm.c:28-36 | `free_memory` adds exactly its pages to the free list |
| PageTables.Machine.FreeMemory | src/2006-11-02/libkvm/test/vm.c:28-36 | The loop in place, page by page, equals the specified list insertion |
| PageTables.Machine.AllocPage | src/2006-11-02/libkvm/test/vm.c:38-49 | Takes the head of the intrusive list |
| PageTables.Machine.InstallPte | src/2006-11-02/libkvm/test/vm.c:64-84 | The descending loop, which takes missing tables from the free list, equals the specification; it fails only when the list is empty |
| PageTables.Machine.GetPte | src/2006-11-02/libkvm/test/vm.c:86-104 | The descending loop in place |
| PageTables.Machine.MapRange | src/2006-11-02/libkvm/test/vm.c:188-193 | Each loop of `setup_mmu` equals its specification |
| PageTables.Machine.SetupMmu | src/2006-11-02/libkvm/test/vm.c:182-199 | The whole of `setup_mmu` in place, from the free list to the root it loads |
| PageBudget.InstallTakes | src/2006-11-02/libkvm/test/vm.c:64-84 | `install_pte` succeeds iff the free list has a page for each missing table, and takes just those |
| PageBudget.LoopTakes | src/2006-11-02/libkvm/test/vm.c:188-195 | Each loop of `setup_mmu` succeeds iff the list has a page for each table it has yet to begin |
| PageBudget.SetupTakes | src/2006-11-02/libkvm/test/vm.c:182-199 | `setup_mmu` succeeds iff the free list holds one page for the root, one for each 512GB and each GB begun, and one if the last 2MB are not whole; it takes exactly those |
| SmpCall.NextKeeps | src/linux-2.6.30-kvm-kmod/kvm-kmod-2.6.30-rc6/external-module-compat.c:150-224 | Every access of the caller and of every handler keeps the counters equal to the handlers that have passed them |
| SmpCall.RecordOutlivesHandlers | src/linux-2.6.30-kvm-kmod/kvm-kmod-2.6.30-rc6/external-module-compat.c:158-224 | Once the caller has returned no handler will touch its record |
| SmpCall.EveryTargetOnce | src/linux-2.6.30-kvm-kmod/kvm-kmod-2.6.30-rc6/external-module-compat.c:158-224 | On return every target has acknowledged the call and has run the function with its argument, or runs it next; with `wait` it has run it already; it runs at most once on each target, and nowhere else |
| SmpCall.AllInterrupted | src/linux-2.6.30-kvm-kmod/kvm-kmod-2.6.30-rc6/external-module-compat.c:205-206 | In every run, once the caller is past the CPUs, every target has been interrupted |
| SmpCall.StepCounts | src/linux-2.6.30-kvm-kmod/kvm-kmod-2.6.30-rc6/external-module-compat.c:150-224 | Every step that does something leaves one fewer: no run goes on for ever |
| SmpCall.LoopsEnd | src/linux-2.6.30-kvm-kmod/kvm-kmod-2.6.30-rc6/external-module-compat.c:208-219 | From every state of every run, in whatever order the CPUs go on: only finitely many steps do anything, and when none can, the caller has returned and every target has run the function once |
| SmpCall.CallerReturns | src/linux-2.6.30-kvm-kmod/kvm-kmod-2.6.30-rc6/external-module-compat.c:208-219 | From every state of every run some such order ends with the caller returned |
| Div64.DivU64 | src/linux-2.6.30-kvm-kmod/kvm-kmod-2.6.30-rc6/external-module-compat.c:118-134 | The result is the quotient or one more, and is the quotient iff (quotient + 1) times the dropped bits of the divisor is less than the divisor minus the remainder |
| Div64.ExactForAll | src/linux-2.6.30-kvm-kmod/kvm-kmod-2.6.30-rc6/external-module-compat.c:118-134 | A divisor divides every dividend rightly iff it is below 2^32 or its dropped bits are zero |
| Div64.CutFits | src/linux-2.6.30-kvm-kmod/kvm-kmod-2.6.30-rc6/external-module-compat.c:122-127 | The shifted divisor is not zero and fits 32 bits, with the top bit set |
| Div64.Close | src/linux-2.6.30-kvm-kmod/kvm-kmod-2.6.30-rc6/external-module-compat.c:123-131 | The bound and the exact condition, for all dividends and divisors |
| Div64.OffByOne | src/linux-2.6.30-kvm-kmod/kvm-kmod-2.6.30-rc6/external-module-compat.c:118-134 | For every other divisor the divisor without its dropped bits, as a dividend, gives 1 in place of 0 |
| Div64.OffByOnePair | src/linux-2.6.30-kvm-kmod/kvm-kmod-2.6.30-rc6/external-module-compat.c:118-134 | One pair: 2^33 - 2 divided by 2^33 - 1 gives 1 |

## Left out

- MmuExact.AccessExact: is stated for addresses where the shadow leaf, if any, agrees with the guest's tables, which `MmuCoherence.CleanInEveryRun` derives from what the guest does; after the guest edits its tables without `invlpg` or a CR3 load, stale entries may serve it, as on hardware.
- MmuExact.TryRecords: starts from an address whose shadow entry is recorded in the guest's accessed and dirty bits; a guest that clears those bits without `invlpg` may not see them set again, as on hardware.
- MmuRuns.LogMissesNothing: covers runs whose write faults resolve on mappings in step with the guest's entry; `MmuCoherence.DisciplinedLog` states this as a condition on the guest alone, and it is false for large pages. KVM's own writes of accessed and dirty bits into guest tables are not logged, in the code or here.
- MmuFlush.GetDirtyLogKeeps: takes `get_dirty_log` as one step between guest runs; the code copies, protects and clears in separate unlocked pieces. Whether any bit is set is decided on the bitmap itself; the loop of the code steps through words with a bound in bytes.
- MmuSteps.FetchTwice: is about the loop cut after two rounds; its result shows that the cut is never reached.
- MmuCode.Vcpu.FetchEntry: indices of shadow pages stand for host addresses and pointers, so the arithmetic of `page_header` and of entry masks is not modelled.
- GuestWalk.WalkMeetsManual: reads guest tables outside every slot as absent entries, where the code falls back to one fixed bad page; addresses beyond 32 bits in 32-bit modes, which the code excludes by assertion, use their low index bits. The code has no checks of instruction fetches and no 1GB pages.
- GuestCopy.WriteGuest: translations do not change during one call, so a guest that copies over its own page tables is not covered.
- IoLoop.Session.HandleIo: assumes REP only with string I/O (the code would loop for ever), translations that do not change during the call, and no element that crosses a page. The device is a function from call number to answer.
- StringEmulator.Vcpu.MemOp: starts from a decoded instruction and takes `cr2` to be the address of the element that faulted, as the page-fault exit gives it for STOS and LODS.
- StringEmulator.ElementRounds: assumes that nothing runs between a completed device read and the return to the instruction; the code may inject an interrupt first (`kvm_main.c`, lines 2587 to 2618), and a device read in its handler takes the stored answer.
- StringEmulator.RepDoesAll: reads memory in slots as unchanged during the instruction; all writes of the emulator leave as MMIO requests.
- SlotProtocol.NextKeeps: a page allocation that fails in the middle of the page loop, after which the code hands null entries to `__free_page`, is not modelled (failures of the two `vmalloc` calls are), nor the wrap of `memory_config_version`. A fault is one locked step; pages the emulator touches without the lock are not followed.
- ModeMachine.Vcpu.WriteCr0: the saved copy of EFER in the MSR area is not part of the model; `exit_lmode` does not update it.
- VmcsOwnership.NextKeeps: VMPTRLD and VMCLEAR never fail, and vCPUs are not destroyed.
- SmpCall.NextKeeps: memory barriers are taken to do their work, so each CPU's accesses happen in program order.
- Bits of page-table entries as masks on 64-bit words: entries are records.
- The double-fault branch of `inject_page_fault` and the other exception paths.
- The tests of `set_cr3` on the value of CR3, before the load that is modelled; CR8.
- `KVM_SET_SREGS`, which sets registers without the guest-visible checks.
- CR4.PGE: `kvm_mmu_flush_tlb` ignores it and so does the model.
- Several vCPUs in one VM in the MMU model (`KVM_MAX_VCPUS` is 1), and faults while another runs.
- `vmalloc` and `vfree` of the test guest, which only move a pointer and call the page functions.
- The emulator's other instructions, its decoder and its arithmetic; segment caches, TSS and real-mode segment rewriting.
- Inline assembly, FPU state, MSR access, ioctl argument copying, device registration, debug files and the rest of the build kit.
