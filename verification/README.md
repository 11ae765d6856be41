# PRoot runtime: a verified model

PRoot gives a process a root directory, bindings and system calls of its own, without privileges, by
tracing it with ptrace.  This project models the parts of its native runtime
(`core/proot/src/main/cpp`) that carry state, and proves what they promise.  Each imperative part of
the runtime is a method or a class with the fields it updates in place; it is proved equal to a
specification on plain values, and the promises are lemmas about that specification, over all inputs
or over whole runs.

| modules | what they model |
|---|---|
| `Forests`, `ForestSteps`, `ForestFree`, `ForestSafe`, `ForestCycles`, `ForestExact`, `ForestHolders`, `ForestRuns`, `ForestLoss` | the hierarchy of talloc as an abstract forest: parents, ordered children, references, destructors that may refuse, chunks that are being freed; what a free does, when it closes a cycle, and a run that does |
| `ChunkLists`, `Talloc`, `TallocHierarchy`, `TallocHolders` | the same hierarchy as linked chunks: sibling lists in which only the first sibling points to the parent, reference handles that are chunks, recursive free; every method refines a step of the forest |
| `TallocPool` | the bump-pointer pool with its object count, tail reclaim and realloc in place |
| `Paths`, `Bindings`, `BindingTable`, `Pivot`, `PivotLaws`, `Translate` | comparison and substitution of paths, the two ordered lists of bindings, mount, umount and pivot_root on them, and the way from guest to host paths and back |
| `Resolution`, `ResolutionLaws`, `Canon` | pathname resolution (section 4.13 of the XBD of POSIX.1-2017) on component lists, what links mean and how many are followed, and `canonicalize` on text buffers |
| `Seccomp`, `SeccompFilter` | syscall lists with flags, a classic BPF machine, and the compiler of filter programs |
| `ElfLoad`, `LoadScript`, `ScriptBuffer`, `LoadImage` | program headers to page mappings, mappings to a load script, the script in the stack of the tracee, the loader that interprets it, and the memory image it leaves |
| `Stage`, `Chain`, `Brk` | the stages of a syscall under both kernel orders of stops, injected syscalls with their register banks, and brk emulated by mmap and mremap |
| `TraceeMemory`, `Argv`, `Words` | word-wise access to the memory of a tracee, argv[] arrays that are edited and pushed, nested scripts |
| `NetlinkMessages`, `NetlinkReply`, `NetlinkLaws` | bounded building of netlink replies (section 2.3.2 of RFC 3549 for the header), how their receiver walks them, and what it reads |

`Wrappers` holds the result types and errno values, `Collections` facts about sets and sequences.

## What the environment is here

- The filesystem is a function from canonical host paths to directory, file, link or error, with `/`
  a directory; the links of `/proc` and the descriptors of other processes are ordinary entries of it.
- The kernel is a parameter: answers to mmap and mremap, contents of the recv(2) chunks of a route
  dump, getifaddrs(3) and its ioctls, whether malloc works, what a translation does to a stage.
- The tables of syscall numbers are injective maps; a destructor of talloc is absent, agrees or refuses.
- Being in the enter stage of a syscall is `status == 0`.
- The first syscall that is traced is the execve of the program (`tracee/event.c:78-134`); the stop for
  a new child comes only from a syscall that makes one, and those ask for no exit stage
  (`syscall/seccomp.c:343-344`, `syscall/enter.c:1967-1995`).

## Where the code and its documentation differ

The code is modelled as it is.  In each case a lemma says exactly when the promise holds.

- `chop_finality` removes a final "/" or "/." as its comment says unless the last component itself
  ends with a dot: "/mnt/v1." loses two characters (`Paths.ChopRemovesFinality`).
- `pivot_root(".", ".")` is said to expose the old root nowhere; it binds it to "/."
  (`Pivot.SameDirectoryPutOld`).  A put_old with a final separator gives aliases that no canonical
  path reaches (`Pivot.AliasReachesItsLocation`).
- A link to the directory that holds it, like "foo" to ".", is refused with ELOOP, as a comment in
  `canonicalize` wants, where section 4.13 of POSIX resolves it (`ResolutionLaws.LinkToItsDirectory`).
- umount does not bring back a binding that the mount replaced (`Bindings.UmountUndoesMount`).
- In `insort_binding` the insertion before the deepest container never happens, because its variable
  starts at the first binding; such a binding goes to the head of the list (`BindingTable.FindPlace`).
- A host path that reaches PATH_MAX is reported as substituted although it is unchanged
  (`Translate.TooLongIsSilent`).
- The length of a seccomp program has 16 bits: a program of 65536 statements or more is cut
  (`SeccompFilter.InstalledMeaning`).
- `clear` of the loader writes outside of its range when both ends lie inside of one word; the ends
  computed by `add_mapping` exclude this (`ElfLoad.ClearIsExact`, `ElfLoad.ClearOfMappingIsExact`).
  It faults when the part to clear lies on a page that is not writable or past the end of the file
  (`ElfLoad.SegmentsLoad`, `ElfLoad.ReadOnlyTailFaults`).
- A chunk that cannot be freed goes to its grandparent only when the freed chunk was a first sibling
  (`ForestRuns.AbandonedToParentOnlyByFirst`).
- A child that its freed parent gives away can end below itself, on a cycle that nothing owns any more.
  This happens in a turn of the loop over the children exactly when the child's most recent reference
  is held from below it while another one is held from elsewhere or its destructor refuses
  (`ForestFree.TurnKeepsIff`), and in a whole free exactly when one of its turns does it
  (`ForestCycles.FreeKeepsIff`); six operations and a free are enough (`ForestLoss.EntangledIsReached`).
  A steal does it exactly when the new owner is below the chunk (`ForestRuns.MoveKeepsIff`), an unlink
  by the parent exactly when the new owner is (`ForestRuns.TakeOverIff`).
- A dump of links names an interface once unless the host has more than 64 interfaces
  (`NetlinkReply.DumpListsEachOnce`).

## Model

| member | source | states |
|---|---|---|
| `ChunkLists.ListRemove` | core/proot/src/main/cpp/talloc/talloc.c:556-566 | removing a chunk leaves a properly doubly linked list of the other siblings, in order, and clears both links of the chunk |
| `ChunkLists.ListAdd` | core/proot/src/main/cpp/talloc/talloc.c:542-553 | the chunk becomes the head of a properly linked list of itself and the former siblings |
| `ChunkLists.RefListRemove` | core/proot/src/main/cpp/talloc/talloc.c:556-566 | the same macro on the list of references of a chunk |
| `ChunkLists.RefListAdd` | core/proot/src/main/cpp/talloc/talloc.c:542-553 | the same macro on the list of references of a chunk |
| `Forests.MoveKeepsGroundedIff` | core/proot/src/main/cpp/talloc/talloc.c:1260-1335 | giving a chunk another parent creates no cycle if and only if the new parent is not the chunk or one of its descendants |
| `ForestSteps.StealKeeps` | core/proot/src/main/cpp/talloc/talloc.c:1260-1335 | a steal keeps lists, references and the chunks being freed in order, whoever the new owner is; it changes only that parent, and the chunk becomes the first child of its new owner |
| `ForestSteps.StealKeepsIff` | core/proot/src/main/cpp/talloc/talloc.c:1260-1335 | in a hierarchy without cycles a steal closes one if and only if the new owner lies strictly below the chunk |
| `ForestSteps.AllocKeeps` | core/proot/src/main/cpp/talloc/talloc.c:739-819 | a new chunk, first child of the context or root, without children and references and with its destructor, keeps the hierarchy well formed |
| `ForestSteps.CiteKeeps` | core/proot/src/main/cpp/talloc/talloc.c:1001-1021 | making a childless chunk a reference handle adds it to exactly the references of its target, and keeps the hierarchy well formed |
| `ForestSteps.UnciteKeeps` | core/proot/src/main/cpp/talloc/talloc.c:957-962 | the destructor of a handle takes it from the references of its target, which stay exactly the live handles of the target |
| `ForestSteps.FreeHandleKeeps` | core/proot/src/main/cpp/talloc/talloc.c:957-962 | freeing a handle removes that chunk only and keeps the hierarchy well formed |
| `ForestSteps.BeginKeeps` | core/proot/src/main/cpp/talloc/talloc.c:1170-1182 | a chunk that starts to be freed leaves its parent and is marked; the hierarchy stays well formed |
| `ForestSteps.ReleaseKeeps` | core/proot/src/main/cpp/talloc/talloc.c:1184-1224 | releasing a chunk without children and references keeps the hierarchy well formed |
| `ForestFree.Free` | core/proot/src/main/cpp/talloc/talloc.c:1110-1224 | for every chunk that is on no cycle, in any well-formed hierarchy: the result is well formed; the free succeeds, and the chunk is gone, if and only if all its references are found below it, no more than 10000 levels deep, and its destructor does not refuse, else the chunk stays where it is; no reference or doom appears anew; it terminates although chunks can move to other owners |
| `ForestFree.FreeKids` | core/proot/src/main/cpp/talloc/talloc.c:1653-1684 | all children leave: freed, or given to the holder of their most recent reference, or to the kept parent; the result is well formed, also where a child was given to its own descendant; it terminates |
| `ForestFree.TurnKeepsIff` | core/proot/src/main/cpp/talloc/talloc.c:1653-1684 | one turn of the loop over the children, decided on the state before it: in a hierarchy without cycles, giving the child that was not freed away closes one if and only if its most recent reference is held from below it while another one is not, or its destructor refuses |
| `ForestCycles.FreeKeepsIff` | core/proot/src/main/cpp/talloc/talloc.c:1110-1224 | a whole free leaves a hierarchy without cycles if and only if there was none before and no turn gave a chunk to an owner below itself; each such chunk is on a cycle afterwards |
| `ForestCycles.FreeCloses` | core/proot/src/main/cpp/talloc/talloc.c:1110-1224 | at any depth of the recursion no cycle is ever broken |
| `ForestCycles.AbandonedGoesTo` | core/proot/src/main/cpp/talloc/talloc.c:1653-1684 | a child that its freed parent cannot free goes to the holder of its most recent reference, or to the parent pointer that was kept |
| `ForestCycles.DestructorFirst` | core/proot/src/main/cpp/talloc/talloc.c:1110-1224 | the destructor of an unreferenced chunk is called first; a refusal leaves everything as it was |
| `Forests.AboveIsSeen` | core/proot/src/main/cpp/talloc/talloc.c:2908-2937 | in a hierarchy of up to 10000 chunks the bounded walk upwards finds every ancestor |
| `ForestSafe.OrderlyIsSafe` | core/proot/src/main/cpp/talloc/talloc.c:1110-1224 | no chunk is given to an owner below itself when each chunk that goes with the freed one has only references from elsewhere, or at most one reference and no refusal in a hierarchy of up to 10000 chunks |
| `ForestExact.FreeEmpties` | core/proot/src/main/cpp/talloc/talloc.c:1110-1224 | at any depth of the recursion: when references to what goes are held by what goes, nothing refuses and nothing is lost, all others stay where they were and exactly the destructors of what is gone are called, once each |
| `ForestExact.FreeKidsEmpties` | core/proot/src/main/cpp/talloc/talloc.c:1653-1684 | the same for the children of a chunk that is being freed |
| `ForestExact.FreesExactly` | core/proot/src/main/cpp/talloc/talloc.c:1110-1224 | when references into the subtree are held inside of it, no destructor there refuses and nothing is lost, the free of an undisputed root succeeds, removes exactly the subtree, calls each destructor there exactly once, and leaves every other parent unchanged |
| `ForestExact.UnreferencedFreesExactly` | core/proot/src/main/cpp/talloc/talloc.c:1110-1224 | without references into the subtree the same holds unconditionally |
| `ForestHolders.UnlinkOne` | core/proot/src/main/cpp/talloc/talloc.c:1444-1490 | an unlink by one of several holders that are not below the chunk succeeds and takes exactly that holder away; the chunk lives; nothing is asked of its descendants |
| `ForestHolders.UnlinkFreesReference` | core/proot/src/main/cpp/talloc/talloc.c:1414-1490 | an unlink by a context that holds a reference frees exactly the handle of its most recent one |
| `ForestHolders.UnlinkByStranger` | core/proot/src/main/cpp/talloc/talloc.c:1444-1490 | an unlink by a context that holds nothing fails and changes nothing |
| `ForestHolders.UnlinkLast` | core/proot/src/main/cpp/talloc/talloc.c:1444-1490 | an unlink by the only holder is the free of the chunk: it succeeds and destroys the chunk if and only if its destructor does not refuse |
| `ForestHolders.DestroyedByTheLast` | core/proot/src/main/cpp/talloc/talloc.c:1414-1490 | a chunk with n holders, none of them below it, lives through any n - 1 unlinks by its holders, in any order, without a loss, and is gone after the n-th |
| `ForestRuns.DoKeeps` | core/proot/src/main/cpp/talloc/talloc.c:739-819 | every allocation, steal, reparent, reference, unlink and free keeps the hierarchy well formed, with no chunk left in the middle of being freed; where there was no cycle it closes one if and only if it gives a chunk to an owner below that chunk |
| `ForestRuns.RunKeeps` | core/proot/src/main/cpp/talloc/talloc.c:1229-1490 | every run keeps the hierarchy well formed, cycles or not, and free of cycles as long as no chunk is given to an owner below itself |
| `ForestRuns.ReferKeeps` | core/proot/src/main/cpp/talloc/talloc.c:1001-1021 | a reference adds its context to the holders of the target, as a new handle in front of its references; well-formedness is kept |
| `ForestRuns.RehomeMeans` | core/proot/src/main/cpp/talloc/talloc.c:1382-1407 | talloc_reparent takes the given holder away and adds the new one: when it is the parent, the chunk alone changes its parent; otherwise its most recent handle alone does; one that is no holder changes nothing and fails |
| `ForestRuns.MoveKeepsIff` | core/proot/src/main/cpp/talloc/talloc.c:1260-1335 | a steal is well formed always and closes a cycle if and only if the new owner lies strictly below the chunk |
| `ForestRuns.TakeOverIff` | core/proot/src/main/cpp/talloc/talloc.c:1444-1490 | when the parent unlinks, the holder of the most recent reference takes over and its handle goes; a cycle is closed if and only if that holder lies strictly below the chunk |
| `ForestRuns.FreeOfReferenced` | core/proot/src/main/cpp/talloc/talloc.c:1762-1793 | talloc_free of a chunk with references fails and changes nothing, unless the chunk is a root with a single reference, whose holder then becomes its parent |
| `ForestRuns.AbandonedToParentOnlyByFirst` | core/proot/src/main/cpp/talloc/talloc.c:1653-1684 | an only child whose destructor refuses goes to the grandparent exactly when the freed chunk was its first child, and to nobody otherwise |
| `ForestLoss.LostBelowItself` | core/proot/src/main/cpp/talloc/talloc.c:1110-1224 | talloc_free succeeds in a well-formed hierarchy without cycles and without refusing destructors in which a child is referenced from below itself and from elsewhere, and leaves that child on a cycle |
| `ForestLoss.EntangledIsReached` | core/proot/src/main/cpp/talloc/talloc.c:1653-1684 | six allocations and references from nothing lead to that hierarchy |
| `Talloc.ParentChunk` | core/proot/src/main/cpp/talloc/talloc.c:572-584 | walking back to the first sibling finds the parent, although no other sibling points to it |
| `Talloc.Leave` | core/proot/src/main/cpp/talloc/talloc.c:1260-1335 | a chunk that leaves its siblings: the pointers represent the hierarchy without it, whether it was the first sibling or not |
| `Talloc.Enter` | core/proot/src/main/cpp/talloc/talloc.c:1260-1335 | a chunk that becomes the first child takes the parent pointer over from the former first child |
| `TallocHierarchy.Steal` | core/proot/src/main/cpp/talloc/talloc.c:1260-1335 | the pointer operations refine the abstract steal |
| `TallocHierarchy.IsParent` | core/proot/src/main/cpp/talloc/talloc.c:2908-2937 | it answers whether the first chunk is met within 10000 steps upwards from the second, also on a cycle |
| `TallocHierarchy.ReferenceDestructor` | core/proot/src/main/cpp/talloc/talloc.c:957-962 | the pointer operations refine the removal of a handle from the references of its target |
| `TallocHierarchy.FreeReference` | core/proot/src/main/cpp/talloc/talloc.c:1110-1224 | freeing a handle, in pointers, is the abstract step |
| `TallocHierarchy.FreeInternal` | core/proot/src/main/cpp/talloc/talloc.c:1110-1224 | the recursive pointer algorithm refines the abstract free, also where it closes a cycle: same result, same hierarchy, same destructor calls in the same order |
| `TallocHierarchy.FreeChildren` | core/proot/src/main/cpp/talloc/talloc.c:1653-1684 | the loop over the children refines its abstract form |
| `TallocHierarchy.FreeFirstChild` | core/proot/src/main/cpp/talloc/talloc.c:1653-1684 | one turn of that loop |
| `TallocHierarchy.GiveAway` | core/proot/src/main/cpp/talloc/talloc.c:1653-1684 | a child that could not be freed gets the abstract heir |
| `TallocHolders.FindReference` | core/proot/src/main/cpp/talloc/talloc.c:1414-1436 | the loop finds the most recent reference that the context holds, if there is one |
| `TallocHolders.Unreference` | core/proot/src/main/cpp/talloc/talloc.c:1414-1436 | in pointers: the most recent reference held by the context is freed, else nothing changes |
| `TallocHolders.Unlink` | core/proot/src/main/cpp/talloc/talloc.c:1444-1490 | the pointer algorithm refines the abstract unlink |
| `TallocHolders.TallocFree` | core/proot/src/main/cpp/talloc/talloc.c:1762-1793 | the pointer algorithm refines the abstract talloc_free |
| `TallocHolders.Allocate` | core/proot/src/main/cpp/talloc/talloc.c:739-819 | in pointers: a fresh chunk is linked as first child of the context |
| `TallocHolders.Reference` | core/proot/src/main/cpp/talloc/talloc.c:1001-1021 | in pointers: a fresh handle is linked below the context and into the references of the target |
| `TallocHolders.Reparent` | core/proot/src/main/cpp/talloc/talloc.c:1382-1407 | it succeeds if and only if the old parent is a holder, and then that holder is replaced |
| `TallocPool.Pool.Alloc` | core/proot/src/main/cpp/talloc/talloc.c:682-734 | fails exactly when the aligned size does not fit; otherwise a new aligned member at the bump pointer, disjoint from all others; the object count stays exact |
| `TallocPool.Pool.FreeMember` | core/proot/src/main/cpp/talloc/talloc.c:1025-1099 | the other members stay; the bump pointer falls back exactly when the member was the last in memory or only the pool is left; the memory is released exactly when pool and members are gone |
| `TallocPool.Pool.FreePool` | core/proot/src/main/cpp/talloc/talloc.c:1188-1217 | the pool object gives up its count; memory is released exactly when no member is left |
| `TallocPool.Pool.Shrink` | core/proot/src/main/cpp/talloc/talloc.c:1842-1854 | a member gets smaller in place, and the last one in memory gives its tail back |
| `TallocPool.Pool.MoveToStart` | core/proot/src/main/cpp/talloc/talloc.c:1907-1960 | the only member moves to the start of the pool with its bytes, also when old and new place overlap |
| `TallocPool.Pool.MoveElsewhere` | core/proot/src/main/cpp/talloc/talloc.c:1986-2018 | the member moves to the bump pointer or to malloc; it fails only when neither has room |
| `TallocPool.Pool.Realloc` | core/proot/src/main/cpp/talloc/talloc.c:1837-2018 | the first min(old, new) bytes are kept wherever the member ends up, and no other member moves or changes; malloc is asked only when neither the place of the member, nor its padding, nor the end of the pool, nor for a sole member the whole pool is large enough, and it fails only then |
| `TallocPool.ShrunkTailIsRegrown` | core/proot/src/main/cpp/talloc/talloc.c:1842-2018 | the last of several members that got smaller gets back to its size in place, without malloc |
| `Paths.ComparePaths` | core/proot/src/main/cpp/path/path.c:536-587 | the four answers on C strings mean equal location, strict ancestor, strict descendant, or neither |
| `Paths.CoversIsComponentPrefix` | core/proot/src/main/cpp/path/path.c:536-587 | on canonical texts the comparison by characters is the prefix order of component lists |
| `Paths.JoinPaths` | core/proot/src/main/cpp/path/path.c:51-111 | the loop over the parts computes the join whose components `Resolution.JoinedComponents` describes |
| `Paths.SubstituteComponents` | core/proot/src/main/cpp/path/path.c:679-738 | on canonical texts the substitution of a prefix replaces the leading components, unless the result reaches PATH_MAX, when the path stays as it is |
| `Paths.ChopRemovesFinality` | core/proot/src/main/cpp/path/path.c:264-281 | the finality is removed if and only if the path does not end normally in a component that itself ends with a dot |
| `Paths.ChopCanReachTheRoot` | core/proot/src/main/cpp/path/path.c:264-281 | "/x." is cut down to "/" |
| `Bindings.GuestPosition` | core/proot/src/main/cpp/path/binding.c:297-376 | the place found for a new guest location keeps the guest order: no path precedes one it covers |
| `Bindings.HostPosition` | core/proot/src/main/cpp/path/binding.c:297-376 | the place found on the host side keeps the host order: no path precedes one it strictly covers |
| `Bindings.ReplaceInPlace` | core/proot/src/main/cpp/path/binding.c:297-376 | inserting after the binding of the same location and removing that one is a replacement in place |
| `Bindings.Insort2Keeps` | core/proot/src/main/cpp/path/binding.c:381-388 | both lists stay ordered and hold the same bindings; the binding of the same guest location is replaced and no other is lost |
| `Bindings.Insort3Keeps` | core/proot/src/main/cpp/path/binding.c:396-415 | the same for a binding made from two paths |
| `Bindings.FirstHitIsDeepest` | core/proot/src/main/cpp/path/binding.c:120-165 | the first hit on the guest side is the unique deepest binding whose location holds the path; no hit means that none holds it |
| `Bindings.RootAlwaysHit` | core/proot/src/main/cpp/path/binding.c:199-225 | every absolute path is hit, and "/" by the last guest binding, so the root is always defined |
| `Bindings.ExactLookup` | core/proot/src/main/cpp/path/binding.c:120-165 | looking up the location of a binding finds that binding |
| `Bindings.UmountKeeps` | core/proot/src/main/cpp/syscall/enter.c:360-383 | both lists stay well formed; exactly the binding at exactly that location disappears, never the one for "/" |
| `Bindings.UmountUndoesMount` | core/proot/src/main/cpp/syscall/enter.c:169-208 | umount gives both lists back as they were before mount if and only if nothing was bound to that location before |
| `BindingTable.FindPlace` | core/proot/src/main/cpp/path/binding.c:297-376 | the loop finds the binding to replace, or the place after the last covered one, or the head of the list |
| `BindingTable.BindingLists.GetBinding` | core/proot/src/main/cpp/path/binding.c:120-165 | the loop returns the first hit; on the host side nothing for a path inside a guest rootfs other than "/" |
| `BindingTable.BindingLists.InsortBinding` | core/proot/src/main/cpp/path/binding.c:297-376 | the in-place insertion refines the abstract one |
| `BindingTable.BindingLists.InsortBinding2` | core/proot/src/main/cpp/path/binding.c:381-388 | refines the insertion in both lists |
| `BindingTable.BindingLists.InsortBinding3` | core/proot/src/main/cpp/path/binding.c:396-415 | refines the insertion of a fresh binding |
| `BindingTable.BindingLists.RemoveBindingFromAllLists` | core/proot/src/main/cpp/path/binding.c:277-287 | the binding disappears from both lists |
| `BindingTable.BindingLists.EmulateMount` | core/proot/src/main/cpp/syscall/enter.c:169-208 | refines the abstract mount and keeps both lists well formed |
| `BindingTable.BindingLists.EmulateUmount` | core/proot/src/main/cpp/syscall/enter.c:360-383 | refines the abstract umount and keeps both lists well formed |
| `BindingTable.BindingLists.EmulatePivotRoot` | core/proot/src/main/cpp/syscall/enter.c:217-350 | the loop over the snapshot refines the abstract pivot while it inserts into and removes from the lists, and keeps them well formed |
| `BindingTable.BindingLists.InitializeBindings` | core/proot/src/main/cpp/path/binding.c:679-735 | the pending bindings are inserted last to first, and the lists end up well formed |
| `PivotLaws.FirstPendingWins` | core/proot/src/main/cpp/path/binding.c:679-735 | each location has the first pending binding for it, and there are no other bindings |
| `Pivot.PivotExposes` | core/proot/src/main/cpp/syscall/enter.c:217-350 | with a usable put_old: "/" maps to the new root, put_old to the old root, and every binding that the pivot exposes anew is found at exactly its new guest path with its host path |
| `Pivot.PivotRebases` | core/proot/src/main/cpp/syscall/enter.c:300-329 | a binding strictly under the new root is found at exactly its rebased guest path |
| `Pivot.PivotAddsNothingElse` | core/proot/src/main/cpp/syscall/enter.c:217-350 | nothing else is bound afterwards, and no location that stays outside of the new root is lost |
| `PivotLaws.PutOldIsRelative` | core/proot/src/main/cpp/syscall/enter.c:258-273 | in components: the old root is exposed at the rest of put_old below the new root, if it lies below, or is the new root with a final "/." |
| `PivotLaws.PivotRootView` | core/proot/src/main/cpp/syscall/enter.c:217-350 | for canonical paths: what is found where after pivot_root, in terms of covered locations (the new root, the old root, each binding under the new root at its rest, each other one also below put_old), and every binding afterwards comes from one of these or was there before |
| `Pivot.AliasReachesItsLocation` | core/proot/src/main/cpp/syscall/enter.c:331-347 | the alias "put_old + path" is the location of that path below put_old if and only if put_old has no final "/" or "/." |
| `Pivot.SameDirectoryPutOld` | core/proot/src/main/cpp/syscall/enter.c:258-271 | with put_old the same directory as new_root the old root is exposed nowhere if and only if put_old does not end in "/."; pivot_root(".", ".") binds it to "/." |
| `Pivot.StepKeeps` | core/proot/src/main/cpp/syscall/enter.c:169-383 | any mount, umount or pivot_root keeps both lists well formed |
| `Pivot.RunKeeps` | core/proot/src/main/cpp/syscall/enter.c:169-383 | over every run: both lists hold the same bindings, stay ordered, bind no guest location twice, and the last guest binding is the one for "/" |
| `Pivot.RunFromInitialization` | core/proot/src/main/cpp/path/binding.c:679-735 | the same from the initialization on |
| `Translate.GuestToHost` | core/proot/src/main/cpp/path/binding.c:239-272 | the substitution of the binding that is hit replaces its guest components by its host components |
| `Translate.EveryGuestPathHasAHostPath` | core/proot/src/main/cpp/path/path.c:374-382 | every canonical guest path translates |
| `Translate.TooLongIsSilent` | core/proot/src/main/cpp/path/binding.c:239-272 | a host path beyond PATH_MAX is reported as substituted although it is still the guest path |
| `Translate.TooLongExactly` | core/proot/src/main/cpp/path/path.c:679-739 | a substitution is given up exactly when its result, or the bare root with one more character, would reach PATH_MAX; no result reaches it |
| `Translate.DetranslateText` | core/proot/src/main/cpp/path/path.c:402-515 | the answer for any host path covered by a binding |
| `Translate.OnlyBoundPathsComeBack` | core/proot/src/main/cpp/path/path.c:402-515 | an absolute host path has a guest path if and only if a binding covers it, and else the answer is EPERM |
| `Translate.RootIsStripped` | core/proot/src/main/cpp/path/path.c:485-513 | a host path inside the guest rootfs loses the components of the root |
| `Translate.RoundTripExactly` | core/proot/src/main/cpp/path/path.c:402-515 | the way to the host and back gives the guest path again if and only if the deciding binding maps the host path of the used one to its guest path |
| `Translate.RoundTrip` | core/proot/src/main/cpp/path/path.c:402-515 | when no host path of a binding covers that of another, every canonical guest path that join_paths can make survives the way to the host and back, unless its own host path reaches PATH_MAX |
| `Resolution.JoinedComponents` | core/proot/src/main/cpp/path/path.c:51-111 | the components of a join are those of its parts in order, and it is shorter than PATH_MAX - 1; the only error is ENAMETOOLONG |
| `Resolution.ResolveArrives` | core/proot/src/main/cpp/path/canon.c:199-411 | from a base that is reached through directories, every successful resolution ends at a path that goes through directories only, and not at a link that was to be followed |
| `Resolution.ResolveNames` | core/proot/src/main/cpp/path/canon.c:199-411 | on any filesystem, and from any canonical base even if it no longer exists, the result has no empty component, no "." and no ".." |
| `Resolution.Idempotent` | core/proot/src/main/cpp/path/canon.c:199-411 | resolving the text of a resolution from anywhere gives the same text again |
| `ResolutionLaws.WalkIsLexical` | core/proot/src/main/cpp/path/canon.c:232-302 | without links to follow: a success is the lexical normal form of the path from where it starts, a failure is the errno of the first component that is too long, missing, no directory or unreachable, and it fails exactly if there is one |
| `ResolutionLaws.ResolveIsLexical` | core/proot/src/main/cpp/path/canon.c:199-302 | the same for the text of a path, from the root or from the base |
| `ResolutionLaws.WalkEnds` | core/proot/src/main/cpp/path/canon.c:382-408 | through whatever links, a resolution ends as its path asks for it |
| `ResolutionLaws.DeeperIsSame` | core/proot/src/main/cpp/path/canon.c:208-210 | deeper in the recursion or after more links the result is the same, or ELOOP |
| `ResolutionLaws.LinkStandsForItsTarget` | core/proot/src/main/cpp/path/canon.c:353-372 | replacing a followed link in the text of a path by its target, after what comes before it or from the root for an absolute one, leads to the same place or the same errno, unless one of the two meets too many links |
| `ResolutionLaws.LastLinkLoopsIff` | core/proot/src/main/cpp/path/canon.c:353-372 | a link at the end gives ELOOP if and only if it is too deep, its target gives ELOOP, or its target is the directory that holds it |
| `ResolutionLaws.LinkToItsDirectory` | core/proot/src/main/cpp/path/canon.c:363-368 | a link to the directory that holds it is never followed, wherever it stands in the path |
| `ResolutionLaws.NestedLinks` | core/proot/src/main/cpp/path/canon.c:208-361 | n nested links need n levels: they are followed if these are left, and else give ELOOP |
| `ResolutionLaws.LinksAddUp` | core/proot/src/main/cpp/path/canon.c:208-361 | n links one after the other in a path need n levels as well |
| `ResolutionLaws.CircleLoops` | core/proot/src/main/cpp/path/canon.c:208-361 | links in a circle give ELOOP |
| `Canon.PopComponent` | core/proot/src/main/cpp/path/canon.c:44-71 | the last component is removed whatever separators follow it, and never the root |
| `Canon.NextComponent` | core/proot/src/main/cpp/path/canon.c:87-127 | the next component, the cursor of the rest and the finality agree with the split of the path into components; ENAMETOOLONG for a long one |
| `Canon.KeepFinality` | core/proot/src/main/cpp/path/canon.c:382-408 | the final "/" or "/." is put back |
| `Canon.Step` | core/proot/src/main/cpp/path/canon.c:232-380 | one turn of the loop is one step of the resolver on component lists |
| `Canon.Follow` | core/proot/src/main/cpp/path/canon.c:353-380 | following a link, with its recursion, is that of the resolver |
| `Canon.Canonicalize` | core/proot/src/main/cpp/path/canon.c:199-411 | the loop over text buffers ends on every filesystem, its result, errors included, is the text of the resolver on component lists, and it is a canonical text when the base is one or not used |
| `Canon.ResultIsCanonical` | core/proot/src/main/cpp/path/canon.c:199-411 | that text: no empty component, no "." and no "..", but for the final "/" or "/." of the outermost level |
| `Canon.EndIsKept` | core/proot/src/main/cpp/path/canon.c:382-408 | the text ends in "/." if the path of the user has a last component ".", in "/" if that is ".." or a separator follows it, and else in a name, links or not |
| `Seccomp.DetranslateSysnum` | core/proot/src/main/cpp/syscall/sysnum.c:104-123 | the loop finds the number of a neutral syscall in an ABI, or the avoider |
| `Seccomp.NumberRoundTrip` | core/proot/src/main/cpp/syscall/sysnum.c:81-123 | a neutral number that the ABI has comes back from its number |
| `Seccomp.MergeOneKeeps` | core/proot/src/main/cpp/syscall/seccomp.c:442-482 | merging one entry keeps the list free of duplicates, lists exactly that value in addition, and adds its flags bit by bit |
| `Seccomp.MergeFilteredSysnums` | core/proot/src/main/cpp/syscall/seccomp.c:442-482 | the merged list holds exactly the values of both lists, once each, with the OR of all their flags |
| `SeccompFilter.TraceCodeAnswers` | core/proot/src/main/cpp/syscall/seccomp.c:97-122 | executing the statements of a list of syscalls gives the answer of the list for any number |
| `SeccompFilter.SectionHandles` | core/proot/src/main/cpp/syscall/seccomp.c:97-204 | a section answers for its architecture |
| `SeccompFilter.SectionSkips` | core/proot/src/main/cpp/syscall/seccomp.c:159-204 | its computed jump skips the whole section for any other architecture |
| `SeccompFilter.ProgramMeaning` | core/proot/src/main/cpp/syscall/seccomp.c:253-309 | the program reaches a return for every architecture and number: TRACE with the OR of the flags if the syscall is listed, ALLOW if it is not, KILL for other architectures |
| `SeccompFilter.TraceIsRead` | core/proot/src/main/cpp/syscall/seccomp.c:112-112 | the tracer reads the action and the flags back from the value if and only if the flags fit in 16 bits |
| `SeccompFilter.TracerLearnsFlags` | core/proot/src/main/cpp/tracee/event.c:608-621 | on a handled architecture the tracer is notified of exactly the listed syscalls, and learns the merged flags of each |
| `SeccompFilter.InstalledMeaning` | core/proot/src/main/cpp/syscall/seccomp.c:211-229 | a program whose length fits in 16 bits is installed as emitted; a longer one is cut and then, on any architecture, answers like the emitted one or runs off its end; foreign architectures are killed if and only if the length fits |
| `SeccompFilter.Program.AddTraceSyscall` | core/proot/src/main/cpp/syscall/seccomp.c:97-122 | appends the test and the return, or fails for a number that does not fit |
| `SeccompFilter.Program.StartArchSection` | core/proot/src/main/cpp/syscall/seccomp.c:159-204 | appends the architecture test with the jump over a section of that many syscalls |
| `SeccompFilter.Program.EndArchSection` | core/proot/src/main/cpp/syscall/seccomp.c:130-151 | appends ALLOW and checks the length of the section |
| `SeccompFilter.Program.Finalize` | core/proot/src/main/cpp/syscall/seccomp.c:211-229 | appends KILL |
| `SeccompFilter.LenCheck` | core/proot/src/main/cpp/syscall/seccomp.c:130-151 | the length check is exact if and only if the section starts below 65536 |
| `SeccompFilter.SetSeccompFilters` | core/proot/src/main/cpp/syscall/seccomp.c:253-309 | the nested loops emit exactly the specified program, or fail with ERANGE exactly when some number or length does not fit |
| `ElfLoad.LoadInfo.AddMapping` | core/proot/src/main/cpp/execve/enter.c:56-124 | one segment becomes the mappings of its file pages, the bytes to clear, and its anonymous pages, with the protection of its flags |
| `ElfLoad.LoadInfo.AddLoadBase` | core/proot/src/main/cpp/execve/enter.c:311-324 | all mappings are shifted in place |
| `ElfLoad.LoadBaseShifts` | core/proot/src/main/cpp/execve/enter.c:311-357 | a page-aligned base shifts the mappings of a segment like shifting the segment |
| `ElfLoad.SegmentLoads` | core/proot/src/main/cpp/loader/loader.c:144-170 | the mappings of one segment give its gABI image with its protection, or fault exactly when there is something to clear and the segment is not writable or the part to clear starts on a page past the end of the file |
| `ElfLoad.ReadOnlyTailFaults` | core/proot/src/main/cpp/loader/loader.c:144-155 | a read-only segment with one byte in the file and one to clear faults, and with write permission does not |
| `ElfLoad.SegmentsLoad` | core/proot/src/main/cpp/loader/loader.c:144-170 | for every ascending list of page-disjoint segments, whatever was mapped: byte k is the file byte for k < filesz and 0 up to memsz, with the protection of the segment, for all segments, if and only if no clearing faults |
| `ElfLoad.ClearIsExact` | core/proot/src/main/cpp/loader/loader.c:56-85 | clear(start, end) zeroes exactly [start, end) if and only if start is aligned or the next word boundary is not beyond end |
| `ElfLoad.ClearOfMappingIsExact` | core/proot/src/main/cpp/execve/enter.c:56-124 | with the end that add_mapping computes the clearing is exact |
| `ElfLoad.AddressSpace.Clear` | core/proot/src/main/cpp/loader/loader.c:56-85 | the three loops zero that range, or fault exactly when a byte of it is missing or not writable |
| `ElfLoad.AddressSpace.LoadMapping` | core/proot/src/main/cpp/loader/loader.c:144-170 | executing one mapping statement, with its protection, is the abstract step |
| `LoadScript.RunLoader` | core/proot/src/main/cpp/loader/loader.c:111-255 | the loop with its cursor and at_base makes the system calls of the abstract interpreter, in order |
| `LoadScript.InterpretScript` | core/proot/src/main/cpp/loader/loader.c:111-255 | interpreting the encoding of any list of statements has the effects of these statements in order, whatever words follow |
| `LoadScript.LoaderRunsTheRequest` | core/proot/src/main/cpp/execve/exit.c:225-363 | the loader opens and maps the program, then closes it, opens and maps its interpreter, in order, sets at_base to the first file mapping of the last opened object, and starts at the entry of the interpreter if there is one |
| `LoadScript.LoaderLeaves` | core/proot/src/main/cpp/execve/exit.c:225-363 | whatever the request: the branch of the loader carries its stack pointer, the entry of the interpreter to jump to, the entry, headers and base of the program for the auxiliary vector, and the address of the path; the page of the stack is made executable exactly if asked for |
| `LoadScript.ScriptSize` | core/proot/src/main/cpp/execve/exit.c:218-266 | the computed size is the number of words that are written |
| `LoadScript.StringsBelowStack` | core/proot/src/main/cpp/execve/exit.c:218-266 | the strings start below the stack pointer, aligned like it |
| `ScriptBuffer.Buffer.TranscriptMappings` | core/proot/src/main/cpp/execve/exit.c:144-168 | the words of the mappings are appended to the buffer |
| `ScriptBuffer.Buffer.Narrow` | core/proot/src/main/cpp/execve/exit.c:331-336 | the in-place loop leaves the low half of every word, in order, at the start of the buffer |
| `ScriptBuffer.NarrowingKeeps` | core/proot/src/main/cpp/execve/exit.c:331-336 | narrowing keeps the sequence of words if and only if all of them fit in 32 bits |
| `ScriptBuffer.StringAddresses` | core/proot/src/main/cpp/execve/exit.c:218-266 | each string address of the script points at its own string |
| `ScriptBuffer.TransferLoadScript` | core/proot/src/main/cpp/execve/exit.c:174-363 | the buffer holds the script, the strings and the padding; the stack pointer is lowered by exactly their size, so that the strings are where the script says |
| `ScriptBuffer.ExecfnIsThePath` | core/proot/src/main/cpp/execve/exit.c:225-363 | the string at the address given as AT_EXECFN is the path as the tracee wrote it, or the one of the program |
| `ScriptBuffer.TransferredScriptRuns` | core/proot/src/main/cpp/execve/exit.c:174-363 | a 64-bit loader that reads the transferred script runs the request |
| `ScriptBuffer.NarrowedScriptRuns` | core/proot/src/main/cpp/execve/exit.c:331-336 | a 32-bit loader that reads the narrowed script runs the request, in spite of the left-over upper half |
| `ScriptBuffer.StackPointerAligned` | core/proot/src/main/cpp/execve/exit.c:218-266 | the new stack pointer keeps its alignment |
| `LoadImage.RequestIsLoaded` | core/proot/src/main/cpp/loader/loader.c:111-255 | playing the system calls of a request against one address space and one open file: whatever was mapped before, every segment of the program and of its interpreter gets its gABI image with its protection, unless a clearing faults, which is exactly when the calls fail |
| `LoadImage.HeadersAreThere` | core/proot/src/main/cpp/execve/exit.c:315-325 | the memory at the address given as AT_PHDR shows the file from its program header table on |
| `LoadImage.TransferredScriptLoads` | core/proot/src/main/cpp/execve/exit.c:174-363 | from the words in the stack of the tracee: what the 64-bit loader does with them leaves these images |
| `Stage.StepKeeps` | core/proot/src/main/cpp/tracee/event.c:501-649 | every stop, with either kernel order, keeps the invariant between stage, planned restart and kernel phase |
| `Stage.RunKeepsPromises` | core/proot/src/main/cpp/tracee/event.c:501-649 | over every run, with either kernel order of stops: a syscall is stopped if and only if all stops were asked for or the filter reports it; its enter is then translated exactly once, and its exit exactly once if all stops or this exit were asked for, and else never |
| `Stage.InitialKeepsPromises` | core/proot/src/main/cpp/tracee/event.c:389-420 | the same from the first stop on |
| `Stage.ExitEffects` | core/proot/src/main/cpp/syscall/syscall.c:173-223 | an exit takes the first queued syscall and keeps all stops until the queue has run dry; a request to disable seccomp takes effect with it, unless a chain is under way |
| `Stage.RunStaysOff` | core/proot/src/main/cpp/tracee/event.c:501-649 | once disabled, seccomp stays so over every run, and every later syscall is translated at its enter and at its exit |
| `Stage.AssertionsNeverFail` | core/proot/src/main/cpp/tracee/event.c:501-577 | the assertions of the handler cannot fail |
| `Stage.HandledEnterIsOld` | core/proot/src/main/cpp/tracee/event.c:579-649 | an enter is handled early only with the old kernel order |
| `Stage.ForkKeepsExitIff` | core/proot/src/main/cpp/tracee/event.c:501-577 | were a syscall that makes a child to ask for its exit, its promise would be kept if and only if the stage was translated at the enter stop or the tracee still waits for that exit |
| `Stage.ForkStopsAreSafe` | core/proot/src/main/cpp/tracee/event.c:501-577 | in every run each stop for a new child comes where no planned exit can be missed by it |
| `Stage.Tracee.TranslateSyscall` | core/proot/src/main/cpp/syscall/syscall.c:103-274 | the stage part of the translation refines the abstract one |
| `Stage.Tracee.HandleTrap` | core/proot/src/main/cpp/tracee/event.c:501-577 | the SIGTRAP cases refine the abstract trap |
| `Stage.Tracee.HandleSeccomp` | core/proot/src/main/cpp/tracee/event.c:579-649 | the seccomp case refines the abstract stop |
| `Stage.Tracee.Restart` | core/proot/src/main/cpp/tracee/event.c:760-780 | the restart uses the chosen way once |
| `Chain.ChainedRuns` | core/proot/src/main/cpp/syscall/chain.c:103-153 | the next chained syscall is the first of the queue; it is requested with its own number and arguments, the instruction pointer is that of the request, and ORIGINAL is untouched |
| `Chain.ExecutedInOrder` | core/proot/src/main/cpp/syscall/chain.c:43-77 | over any exit stages the chained syscalls are executed in the order of their registration, after those queued before |
| `Chain.LastStage` | core/proot/src/main/cpp/syscall/syscall.c:181-223 | in the last stage the registers of the request are back and the result is the forced one if set |
| `Chain.ExitsGiveBack` | core/proot/src/main/cpp/syscall/chain.c:103-163 | when the exit stages are over, number, arguments other than one in the result register, stack and instruction pointer are those of the request |
| `Chain.ChainGivesResult` | core/proot/src/main/cpp/syscall/chain.c:103-163 | after chained syscalls the result is the last forced one if there is one, else that of the last chained syscall, and nothing is forced any more |
| `Chain.UnchainedResult` | core/proot/src/main/cpp/syscall/syscall.c:173-223 | a request that chains nothing gets the result of the kernel, unless the translation of its exit pokes another one |
| `Chain.EnterShowsPokes` | core/proot/src/main/cpp/syscall/syscall.c:112-171 | the kernel executes the request with the registers that the translation of its enter poked, and no others |
| `Chain.RequestIsGivenBack` | core/proot/src/main/cpp/syscall/syscall.c:135-223 | all three from the enter stage of any request on, whatever its translation poked |
| `Chain.Tracee.PokeReg` | core/proot/src/main/cpp/tracee/reg.c:217-229 | refines the abstract poke |
| `Chain.Tracee.SaveOriginalRegs` | core/proot/src/main/cpp/tracee/reg.c:256-264 | the current bank is copied and the change flag reset |
| `Chain.Tracee.RestoreRegs` | core/proot/src/main/cpp/tracee/reg.c:291-328 | exactly the registers to restore are taken from ORIGINAL |
| `Chain.Tracee.PushSpecificRegs` | core/proot/src/main/cpp/tracee/reg.c:291-373 | refines the abstract push with its restore |
| `Chain.Tracee.RegisterChainedSyscall` | core/proot/src/main/cpp/syscall/chain.c:43-77 | the syscall goes to the end of the queue |
| `Chain.Tracee.ChainNextSyscall` | core/proot/src/main/cpp/syscall/chain.c:103-153 | refines the abstract step: the first of the queue is taken and forged, or the chain ends |
| `Chain.Tracee.ForceChainFinalResult` | core/proot/src/main/cpp/syscall/chain.c:159-163 | the result is kept for the end of the chain |
| `Brk.TruncatedTestIff` | core/proot/src/main/cpp/syscall/heap.c:150-213 | what exactly the test on the truncated result catches |
| `Brk.TruncatedTestIsExact` | core/proot/src/main/cpp/syscall/heap.c:150-213 | on page addresses and errno results the truncated test tells exactly which is which |
| `Brk.StepKeeps` | core/proot/src/main/cpp/syscall/heap.c:54-213 | any brk with any admissible kernel answer keeps base and size in bounds, and a base once set |
| `Brk.BreakMoves` | core/proot/src/main/cpp/syscall/heap.c:54-213 | the result is always base + size; size changes to what was asked exactly when the kernel kept the mapping in place, else nothing changes and the old break is returned |
| `Brk.LeftAlone` | core/proot/src/main/cpp/syscall/heap.c:54-213 | a call that is none of the emulation's business gets the answer of the kernel, and disables the emulation exactly when the kernel grants what was asked |
| `Brk.FirstBreak` | core/proot/src/main/cpp/syscall/heap.c:54-110 | the first call sets the base behind the discarded page, or fails with a null break |
| `Brk.HeapIsMapped` | core/proot/src/main/cpp/syscall/heap.c:54-213 | over every sequence of calls and answers, the kernel has mapped exactly the discarded page and the bytes from base to the break |
| `Brk.AsksForTheHeap` | core/proot/src/main/cpp/syscall/heap.c:54-145 | over every run: the first call maps one page at the end of the bss, and later ones resize exactly the mapping that the kernel has for the heap so that it ends at the break asked for; a break below the heap asks for nothing |
| `Brk.BssEndsBehind` | core/proot/src/main/cpp/syscall/heap.c:90-95 | the end of the bss is the first page boundary after the memory of the last segment, behind all segments |
| `Brk.Heap.TranslateBrkEnter` | core/proot/src/main/cpp/syscall/heap.c:54-145 | the call that is made instead of brk |
| `Brk.Heap.TranslateBrkExit` | core/proot/src/main/cpp/syscall/heap.c:150-213 | the new fields and the result |
| `Argv.ArrayOfXPointers.Resize` | core/proot/src/main/cpp/execve/aoxp.c:256-296 | the entries around the index keep their order and values; new ones are null |
| `Argv.ArrayOfXPointers.Write` | core/proot/src/main/cpp/execve/aoxp.c:229-249 | exactly the entries in range get their new values |
| `Argv.PrependedMeans` | core/proot/src/main/cpp/execve/shebang.c:231-304 | one turn makes argv stand for "interpreter [argument] filename arg...", also when it was empty |
| `Argv.ExpandShebang` | core/proot/src/main/cpp/execve/shebang.c:208-307 | after any number of nested scripts the program, the error and the meaning of argv are those of the recursive rule; ELOOP after 20 |
| `Argv.ScriptsAreExpanded` | core/proot/src/main/cpp/execve/shebang.c:208-307 | a chain of up to the allowed number of scripts is expanded to the last interpreter, each interpreter followed by its argument and the file that named it, and the path of the user right before the original arguments |
| `Argv.ExpansionFollowsScripts` | core/proot/src/main/cpp/execve/shebang.c:208-307 | every successful expansion is that of such a chain, and tells whether there was a script at all |
| `Argv.TooManyScripts` | core/proot/src/main/cpp/execve/shebang.c:208-307 | one script more gives ELOOP |
| `Argv.ChainBreaks` | core/proot/src/main/cpp/execve/shebang.c:208-307 | a script that cannot be read or whose interpreter may not be executed gives that errno |
| `Argv.Fetch` | core/proot/src/main/cpp/execve/aoxp.c:305-346 | the loop returns the entries up to the null pointer if and only if such a table is accessible |
| `Argv.StringInBlock` | core/proot/src/main/cpp/execve/aoxp.c:353-439 | every new string has its bytes and terminator at its offset of the block |
| `Argv.StringsApart` | core/proot/src/main/cpp/execve/aoxp.c:353-439 | the bytes of different new strings do not overlap |
| `Argv.Push` | core/proot/src/main/cpp/execve/aoxp.c:353-439 | the block is written at the address of alloc_mem, below the stack pointer, accessible, and nowhere else; nothing happens exactly when no entry is new; the errors are E2BIG when there is no room for the block, and EFAULT only when it is not all accessible |
| `Argv.PushedIsFetched` | core/proot/src/main/cpp/execve/aoxp.c:305-439 | fetching the pushed address gives an array of exactly the same strings, new ones and those that stayed where they were |
| `Argv.PushThenFetch` | core/proot/src/main/cpp/execve/aoxp.c:305-439 | whenever a push succeeds, fetching the array it left in memory gives the same strings; all that is asked before is that strings which stay are not where the block goes |
| `Argv.AllocMem` | core/proot/src/main/cpp/tracee/mem.c:644-680 | the block ends right at the stack pointer, and at the first allocation right below the red zone; it fails exactly when there is no room for it above address 0 |
| `TraceeMemory.WriteThenRead` | core/proot/src/main/cpp/tracee/mem.c:219-293 | reading back gives what was written, and all other bytes are unchanged |
| `TraceeMemory.Tracee.WriteData` | core/proot/src/main/cpp/tracee/mem.c:219-293 | the word loop and the partial last word change exactly the range; it succeeds exactly when every word involved is accessible |
| `TraceeMemory.Tracee.WritevData` | core/proot/src/main/cpp/tracee/mem.c:301-334 | the concatenation of the buffers is written; on success all of it was accessible |
| `TraceeMemory.Tracee.ReadData` | core/proot/src/main/cpp/tracee/mem.c:341-407 | the bytes of the range, exactly when every word involved is accessible |
| `TraceeMemory.Tracee.ReadString` | core/proot/src/main/cpp/tracee/mem.c:416-541 | the length of the unique string at the address if it ends before the limit; limit + 1 when there is no terminator; an error exactly when a needed word is not accessible |
| `NetlinkMessages.WalkJoined` | core/proot/src/main/cpp/syscall/enter.c:1119-1121 | messages put one after the other with their padding are what a receiver finds that walks by aligned lengths, and nothing else |
| `NetlinkMessages.MessageIsRead` | core/proot/src/main/cpp/syscall/enter.c:605-612 | the length, type, sequence number and port of a built message are read back from its header |
| `NetlinkMessages.AddAttr` | core/proot/src/main/cpp/syscall/enter.c:543-560 | an attribute with its padding is appended, or dropped when it does not fit; the bytes before stay |
| `NetlinkMessages.AllAttributes` | core/proot/src/main/cpp/syscall/enter.c:543-560 | with room for all, the attributes are read back in order |
| `NetlinkMessages.BuildLink` | core/proot/src/main/cpp/syscall/enter.c:567-613 | a link message with the attributes that fit is appended |
| `NetlinkMessages.BuildAddress` | core/proot/src/main/cpp/syscall/enter.c:620-658 | an address message with the attributes that fit is appended |
| `NetlinkMessages.BuildDone` | core/proot/src/main/cpp/syscall/enter.c:663-681 | the end of a dump, or nothing when it does not fit |
| `NetlinkMessages.BuildError` | core/proot/src/main/cpp/syscall/enter.c:689-712 | an error or acknowledgement, or nothing when it does not fit |
| `NetlinkMessages.LinkIsWhole` | core/proot/src/main/cpp/syscall/enter.c:567-613 | in 256 bytes every link of the host has all its attributes, which the receiver reads back |
| `NetlinkMessages.AddressIsWhole` | core/proot/src/main/cpp/syscall/enter.c:620-658 | the same for every address |
| `NetlinkLaws.LinkIsRead` | core/proot/src/main/cpp/syscall/enter.c:567-613 | a receiver reads from a link message everything that it was built from, with IFF_LOWER_UP for a running link; taken as a request it asks for that link |
| `NetlinkLaws.AddressIsRead` | core/proot/src/main/cpp/syscall/enter.c:620-658 | a receiver reads from an address message everything that it was built from |
| `NetlinkLaws.ErrorCode` | core/proot/src/main/cpp/syscall/enter.c:689-712 | the receiver of an error reads the negative errno, that of an acknowledgement 0 |
| `NetlinkReply.RequestedLink` | core/proot/src/main/cpp/syscall/enter.c:864-893 | index and name asked for are those of the attributes of the request, the last name winning |
| `NetlinkReply.BuildHostLinks` | core/proot/src/main/cpp/syscall/enter.c:900-999 | the loop over the interfaces builds exactly the chosen links and always leaves room for the end of the dump |
| `NetlinkReply.DumpListsEachOnce` | core/proot/src/main/cpp/syscall/enter.c:900-999 | for every host: a dump holds the links of the host in order up to where less than 256 bytes remain, and is complete if and only if they remain for the last one; with room for all, a name is listed twice if and only if it comes twice and is none of the first 64 |
| `NetlinkLaws.SingleLink` | core/proot/src/main/cpp/syscall/enter.c:963-970 | a request for one link gets the first link of the host with the name or the index asked for; exactly when the host has none, the loopback interface if it is meant, and else ENODEV |
| `NetlinkLaws.NamedLink` | core/proot/src/main/cpp/syscall/enter.c:963-970 | a name is unknown exactly when no interface of the host has it |
| `NetlinkLaws.HostIsAsked` | core/proot/src/main/cpp/syscall/enter.c:935-982 | where the description of a link comes from when its entry has no link-layer address |
| `NetlinkLaws.LinkLayerSpeaks` | core/proot/src/main/cpp/syscall/enter.c:935-982 | an entry with a link-layer address speaks for itself |
| `NetlinkReply.BuildHostAddresses` | core/proot/src/main/cpp/syscall/enter.c:1004-1061 | the loop builds exactly the listed addresses and always leaves room for the end of the dump |
| `NetlinkLaws.MatchingAreAll` | core/proot/src/main/cpp/syscall/enter.c:1004-1061 | the addresses to list are exactly those of the host in the family asked for, or in both |
| `NetlinkLaws.ListedAreFirst` | core/proot/src/main/cpp/syscall/enter.c:1004-1061 | a reply holds the first of them, and all exactly when 256 bytes remain for the last one |
| `NetlinkReply.RestampedIsRead` | core/proot/src/main/cpp/syscall/enter.c:1130-1134 | a relayed message keeps length and type and carries the sequence number and port of the request |
| `NetlinkReply.RelayRouteDump` | core/proot/src/main/cpp/syscall/enter.c:1072-1154 | the nested loops copy the messages of the kernel up to its end of dump or the limit, and add a missing end |
| `NetlinkLaws.RoutesAreRelayed` | core/proot/src/main/cpp/syscall/enter.c:1072-1154 | the tracee gets the routes of a kernel that answers with whole messages, changed in nothing but their stamp, up to its end of dump if they leave 64 bytes free, and else the first of them; there is always an end |
| `NetlinkReply.BuildReply` | core/proot/src/main/cpp/syscall/enter.c:1170-1263 | the reply fits its buffer and is the specified list of messages; there is none when the request cannot be read |
| `NetlinkReply.ReplyIsReadable` | core/proot/src/main/cpp/syscall/enter.c:1170-1263 | for every request and host: the reply walks by aligned lengths to exactly its end, each message carries sequence number and port of the request, and a dump ends with its only NLMSG_DONE |
| `NetlinkLaws.AnswerIsAsked` | core/proot/src/main/cpp/syscall/enter.c:1170-1263 | each request gets its own kind of answer: one link, all links, the addresses of a family, or the routes; other dumps are empty, and anything else is acknowledged; a dump needs both of its bits |

## Left out

- ForestRuns.DoKeeps: no free of a chunk that is already on a cycle. Such a chunk can be the child of its own descendant, and would then keep a pointer to a parent that goes before it.
- TallocHierarchy.FreeInternal: destructors do not change the hierarchy, so that the early return for a chunk that is already being freed is never taken; resetting the destructor field is not modelled.
- TallocHolders.TallocFree: the null context is NULL, as nothing in the program tracks it.
- TallocPool.Pool.Realloc: without memory limits, fill patterns, pools inside of pools, and chunks outside of a pool.
- BindingTable.BindingLists.InsortBinding: the circular lists are sequences with one address per binding; the lifetime of the memory of a binding is not modelled.
- BindingTable.BindingLists.InitializeBindings: without the bindings that add_induced_bindings adds when a running PRoot is reconfigured.
- Translate.RoundTrip: without the referrer that detranslate_path takes for links below /proc.
- Canon.Canonicalize: an empty user path and empty link targets are excluded; glue directories and extension callbacks do nothing.
- Stage.RunKeepsPromises: the very first seccomp stop under the old kernel order decides about the exit by itself, so its syscall does not count as one with all stops asked for. Without the SIGSYS path that restarts a syscall, suppressed signals, and the workaround for kernels that cannot change a syscall number.
- Stage.ForkStopsAreSafe: the new child itself is not part of the run.
- Chain.RequestIsGivenBack: syscalls are registered in exit stages or while the request runs, not in its enter stage; register pushes succeed.
- LoadImage.RequestIsLoaded: the interpreter lies above the program, as the load bases of the code put it.
- LoadScript.LoaderRunsTheRequest: the adjustment of the auxiliary vector and the fatal errors of the loader are not modelled; its mmap calls succeed.
- SeccompFilter.InstalledMeaning: the kernel's own limit of 4096 statements is not modelled.
- Argv.ExpandShebang: how the first line of a script is parsed is a parameter.
- Argv.Push: 64-bit tracees only; so are the brk and memory modules.
- Argv.PushThenFetch: strings that stay are not below the stack pointer where the block goes; there they would be overwritten.
- TraceeMemory.Tracee.WriteData: the ptrace path only, without process_vm_writev and the POKEDATA stub.
- NetlinkReply.BuildHostAddresses: prefix lengths and scopes are given with the addresses.
- NetlinkReply.RelayRouteDump: chunks of the kernel have lengths that are multiples of 4, as the kernel sends them; with others the loop would leave its buffer.
- NetlinkReply.ReplyIsReadable: interface names have at most 15 characters and hardware addresses at most 8 bytes, which the kernel guarantees and the code does not check.
- Strings and byte buffers of path.c and canon.c are values that are reassigned, not arrays.
- ptrace emulation, sockaddr rewriting, LD_LIBRARY_PATH, rlimit, user-area offsets: no hard property of their own.
- The Android application, command-line parsing, QEMU launching and the build: user interface and plumbing.
