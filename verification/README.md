# A virtual file system's namespace, verified

A Dafny model of the name-space engine of a libc-level virtual file system: an in-memory tree of nodes, a root
that resolves paths, dispatches to mounts and tracks descriptors, a resumable directory-record encoder, and a
left-biased overlay of layers. Operations are sequential and atomic.

The model has two levels that meet.

* **Values.** `Namespace.State` is a snapshot of every node ever allocated, whether or not the id map still holds
  it. Every operation is a function on such snapshots (`Operations`, `Handles`), a run is a sequence of them
  (`Runs`), and the theorems are about those functions, over all states or all runs.
* **Objects.** `MemoryFS`, `OverlayFS`, `RootVFS` and `Hooks` are classes whose methods update nodes, maps,
  parent pointers and descriptor tables in place, with the branches of the source. Each method is proved to
  change its object's value exactly as the value-level function says and to keep the tree.

The kernel's choices are parameters: `memfd(id)` is whether the backing file of the node drawn with id `id` can
be made (an id is drawn once, so this covers every pattern of success and failure), `backing` is the descriptor
the kernel returns for an open. A path argument is the sequence of components that the standard library's
`components()` yields; the virtual file system's own normalisation is modelled and proved.

## What is proved

* **Tree.** In every state that path and handle operations reach, each entry points to a mapped node whose parent
  is that directory, each mapped node but the root is named exactly once, and parent pointers climb to the root or
  to a removed directory. The cycle guard is a lexical prefix test: on normalised paths it is the true ancestor
  test; on component paths that keep a `..` it is not, and the renames that break the tree are characterised by
  lookups before the call, together with a run that contains one.
* **Rename** moves one subtree and nothing else, succeeds under one exact condition on all paths, and never drops an
  ancestor of its source.
* **Flat map.** Over any run on normalised paths, return codes and lookups are those of a prefix-closed map from
  paths to (id, kind, mode).
* **Handles.** After any run, opening and creating through a directory handle act at the path the directory has
  now, for relative paths of `..`s followed by names, whatever path is tracked for the descriptor; for other orders
  handle and path only agree one way. Removal and rename go by the tracked path; when that is still right is exact.
* **Enumeration.** A reader whose buffers have room for the next record gets `.`, `..` and every child once in name
  order, whatever happens elsewhere in between, and a call answers with nothing exactly when everything has been
  read. When entries change in between, which children are skipped or read twice is characterised. A buffer decodes
  back to its records exactly when their names are NUL-free and their fields fit. A method that calls until the
  answer is 0 is proved to collect the encoding of the whole listing.
* **Overlay.** Listings agree with lookups. Writes touch only the top, and change what a path is served with exactly
  where the top takes it over: the path written and its missing ancestors. That can hide a file of a lower layer
  behind a directory; when it does is characterised, with a concrete case. Making a directory and opening for writing
  succeed each under one exact condition, backing files that cannot be made included, and what each leaves, modes
  included, is stated for every path of the top.
* **Resolution.** What a path argument means is stated in lookups: relative paths below the working directory or a
  tracked path, one longest mount point for each path, and the rest of the path asked of the system mounted there.
* **Descriptors.** The tracked table is the kernel's table restricted to descriptors the library opened, after any
  call but one: a close that reports an error after releasing its descriptor. A copy of a descriptor starts at the
  original's offset, and reading through one leaves the other.

Where code and documentation differ, the code is followed. `docs/memory-fs-architecture.md` describes handle
resolution as making `..` work after renames; the code does so, but `name/..` through a handle fails where the
path form succeeds (`NamesThenUpsDiffer`). Other facts of the code the model keeps: resolution skips `..` and `.`;
`rename(p, p)` answers 0 for a missing `p`; an open can answer -1 after it has created its node; a removed
directory that is still open takes new children; a duplicate descriptor gets a copy of the directory offset; a read
whose offset is past a shrunken listing has no answer (the source's slice panics); and an overlay open for writing
without the create flag makes the parents of a lower file in the top layer although the open then fails.

## Model

| member | source | states |
|---|---|---|
| Paths.NormalizeAbsolute | src/root_vfs.rs:81-97 | the loop computes the normal form of an absolute path, with `..` at the root staying there |
| Paths.NormaliseIdempotentAndJoins | src/root_vfs.rs:58-97 | normalising twice, or normalising the base before joining, gives the same names as normalising once |
| Paths.NormFromConcat | src/root_vfs.rs:67-79 | normalising a joined path is normalising the second part from where the first one leads |
| Paths.NormFromNames | src/root_vfs.rs:81-97 | names alone are appended unchanged |
| Paths.StartsWithOnNames | src/impls/memory.rs:385-387 | on normalised paths the component-wise prefix test is the prefix test on names |
| Namespace.InitialIsTree | src/impls/memory.rs:154-174 | a fresh file system is a tree in which only the root resolves |
| Namespace.WalkConcat | src/impls/memory.rs:238-253 | resolving a concatenation resolves the rest from where the first part leads |
| Namespace.WalkPrefix | src/impls/memory.rs:238-253 | every prefix of a path that resolves resolves, proper ones to directories |
| Namespace.LookupInjective | src/impls/memory.rs:187-202 | in a tree no node is reached by two paths |
| Namespace.AddressUnique | src/impls/memory.rs:460-484 | nor by two walks from any starting places, removed directories included |
| Namespace.NamedExactlyOnce | src/impls/memory.rs:267-307 | each mapped node but the root is named by exactly one entry, which lies in its parent |
| Namespace.UpRetracesWalk | src/impls/memory.rs:476-479 | following parent pointers retraces the walk that reached a node |
| Namespace.ParentsClimbToATop | src/impls/memory.rs:345-448 | parent pointers are acyclic and end at the root or at a removed node |
| Namespace.LexicalGuardIsAncestorTest | src/impls/memory.rs:417-419 | for existing paths the lexical prefix test holds exactly when the first node is an ancestor of, or is, the second |
| Operations.CreateInBySteps | src/impls/memory.rs:297-306 | a creation is the insertion in the id map followed by the one in the directory |
| Operations.CreateWalk | src/impls/memory.rs:267-307 | after a creation every walk but the one to the new name is as before, and that one finds the new node |
| Operations.CreateKeepsTree | src/impls/memory.rs:267-307 | creation keeps the tree, also in a removed directory |
| Operations.UnlinkedWalk | src/impls/memory.rs:338-342 | after a removal nothing resolves at or under the removed path and every other walk is as before |
| Operations.RemoveIsUnlinked | src/impls/memory.rs:309-343 | a successful removal is of an existing node, empty if a directory, and its parent is a directory |
| Operations.RemoveSucceedsExactlyWhen | src/impls/memory.rs:309-343 | for all absolute paths: the exact condition on lookups for a removal to succeed, and that a failure changes nothing |
| Operations.RemoveKeepsTree | src/impls/memory.rs:309-343 | removal keeps the tree, and the removed node becomes a place walks can start from |
| Operations.OnlyNodeUnderEmpty | src/impls/memory.rs:331-336 | nothing but itself resolves under a node without entries |
| Operations.RelinkWithin | src/impls/memory.rs:391-404 | the same-directory updates of a rename, in their order, are the simultaneous relinking |
| Operations.RelinkAcross | src/impls/memory.rs:437-447 | so are the cross-directory updates |
| Operations.RenameAtByParents | src/impls/memory.rs:355-375 | a rename by whole paths is one between the directories its two parents resolve to |
| Operations.ChmodKeepsTree | src/impls/memory.rs:661-672 | changing a mode keeps the tree |
| Operations.ChmodKeepsWalks | src/impls/memory.rs:661-672 | and every walk |
| Operations.OpenWithoutCreating | src/impls/memory.rs:503-533 | an open without the create flag changes nothing and does not depend on what creating would do |
| Renaming.SuccessSeparatesPaths | src/impls/memory.rs:377-448 | when a rename of two distinct paths succeeds, neither is a prefix of the other |
| Renaming.MovedWalk | src/impls/memory.rs:437-447 | every walk after a move, from the root or a removed directory, in terms of the walks before it |
| Renaming.RenameMovesOneSubtree | src/impls/memory.rs:345-448 | for all absolute paths: a rename that succeeds and does not go below its own source makes `new + s` what `old + s` was for every `s`, empties `old`, leaves all other paths, ids, kinds and modes; between paths that name one place it changes nothing |
| Renaming.RenameSucceedsExactlyWhen | src/impls/memory.rs:345-458 | for all absolute paths, equal ones, the root and ones that keep a `..` included: the exact condition on lookups before the call for a rename to return 0, and that a failure changes nothing |
| Renaming.ReplacedIsNotAnAncestor | src/impls/memory.rs:421-445 | a rename drops at most the node its target named, and that node is no ancestor of the source |
| Renaming.TargetIsNotAbove | src/impls/memory.rs:450-458 | a replaceable target is not above the source: the empty-directory rule is the second cycle guard |
| Renaming.UnguardedMoveBreaksTree | src/impls/memory.rs:385-387 | without the prefix guard a directory moved below itself leaves a cycle that no walk reaches |
| Renaming.RenameKeepsTreeExactlyWhen | src/impls/memory.rs:345-448 | for all absolute paths: a rename breaks the tree if and only if the source's names properly prefix the target's, the prefix test on components does not show it, and the target's parent is a directory with the target absent or an empty directory |
| Renaming.RenameKeepsTree | src/impls/memory.rs:345-448 | on normalised paths every rename keeps the tree |
| Renaming.EmptyMeansNoChildPath | src/impls/memory.rs:453-455 | a directory is empty exactly when no path one name below it resolves |
| Handles.RelStepIsPathStep | src/impls/memory.rs:466-482 | one component through a handle agrees with one component of the path |
| Handles.RelWalkAgreesWithPaths | src/impls/memory.rs:460-484 | a relative walk succeeds exactly when every normalised prefix of the joined path resolves, and then ends at the same node |
| Handles.ParentStepIsExact | src/impls/memory.rs:476-479 | `..` leads from a node to the directory that names it unless that was removed, from the root to itself, and from a removed node nowhere |
| Handles.CreateFromIsExact | src/impls/memory.rs:486-501 | for any relative path from any node, removed ones included: when creating through it succeeds, and that it adds one entry and one node and changes no other |
| Handles.OpenFromIsExact | src/impls/memory.rs:503-552 | for any relative path from any node: when opening through it gives a node, which one, what descriptor, and when a file is made |
| Handles.UpsThenNamesIsExact | src/impls/memory.rs:460-484 | with all `..`s first, handle and path resolution are equal, failures included, the root's self-parent matching `..` at `/` |
| Handles.CreateFromActsAtCurrentPath | src/impls/memory.rs:486-501 | creating through a handle is creating at the handle's present path, and both refuse a path of dots alone |
| Handles.OpenFromActsAtCurrentPath | src/impls/memory.rs:535-552 | opening through a handle is opening at the handle's present path |
| Handles.NamesThenUpsDiffer | src/impls/memory.rs:476-479 | a concrete input on which handle and path resolution differ when a name precedes `..` |
| Runs.StepIsSound | src/impls/memory.rs:613-685 | every operation keeps the tree, node identity and fresh ids |
| Runs.EveryRunIsATree | src/impls/memory.rs:267-458 | every run of path and handle operations from a fresh file system ends in a tree |
| Runs.CreationHasOneForm | src/impls/memory.rs:209-223 | each of the four creating operations changes nothing or adds one entry to one directory |
| Runs.UnnormalisedRenameBreaksTree | src/impls/memory.rs:191-194 | a two-step run with a `..` in a rename target that leaves no tree |
| Runs.NodeLifeCycle | src/impls/memory.rs:283-306 | for every node in every run: zero links, no parent and no mapping come together, ids are never reused, kinds never change, dropped nodes stay dropped |
| Runs.RunKeepsLinked | src/impls/memory.rs:338-341 | a linked node that stays mapped stays reachable from the root |
| Runs.HandleActsAtCurrentPath | src/impls/memory.rs:460-552 | after any run that does not remove the directory, open and mkdir through its handle equal the path operations at its current path |
| Descriptors.StaleTrackedPathIsIgnored | src/root_vfs.rs:155-191 | for a descriptor with a handle, whatever its tracked path: the routed open and mkdir are the path operations at the directory's present path |
| Descriptors.OpenBelow | src/root_vfs.rs:350-361 | so an `openat` through it answers, changes the file system and tracks its result as that open does |
| Descriptors.MkdirBelow | src/root_vfs.rs:193-204 | and a `mkdirat` through it as that mkdir does |
| Handles.StaleBaseAgreesExactlyWhen | src/root_vfs.rs:67-79 | two base paths come to the same for dots then names exactly when they agree above the dots |
| Descriptors.RemovalGoesByTrackedPath | src/root_vfs.rs:206-240 | below a handle, removal and rename still go by the tracked path, and so act at the directory's present path exactly when the two agree above the dots |
| Descriptors.RenamedDirectoryMisleadsRemoval | src/root_vfs.rs:206-217 | where they differ: after a rename of the directory, removing its file by the tracked path fails and by the present path would succeed |
| Runs.RemovedDirectoryTakesChildren | src/impls/memory.rs:267-307 | creating in a removed open directory succeeds and makes a mapped node no path reaches |
| FlatNamespace.CreateRefines | src/impls/memory.rs:209-212 | creation is adding one path to the flat map, with the same answers |
| FlatNamespace.OpenRefines | src/impls/memory.rs:503-533 | opening gives the flat map's descriptor, node and new map, failures after creation included |
| FlatNamespace.RemoveRefines | src/impls/memory.rs:309-343 | removal deletes one childless path of the right kind, or nothing |
| FlatNamespace.RenameRefines | src/impls/memory.rs:345-448 | rename re-keys one prefix in the flat map, or nothing; `rename(p, p)` succeeds |
| FlatNamespace.ChmodRefines | src/impls/memory.rs:661-672 | chmod changes the mode of one path |
| FlatNamespace.StepRefines | src/impls/memory.rs:613-685 | every operation on normalised paths commutes with the view as a flat map |
| FlatNamespace.MemoryFSRefinesFlatMap | src/impls/memory.rs:187-223 | over every run, all return codes, returned nodes and later lookups are the flat map's, which stays prefix-closed |
| Links.LinkCountCountsSubdirectories | src/impls/memory.rs:570-588 | a mapped directory's reported link count is 2 plus the directories whose parent pointer is it |
| Links.LinkCountIsExact | src/impls/memory.rs:570-588 | 0 for a removed node, 1 for a file, and for a directory 2 plus the directories whose parent pointer is it |
| Links.LinkCountsAreConserved | src/impls/memory.rs:570-588 | over the directories reachable from the root, link counts less 2 sum to their number less 1 |
| Listing.OrderedKeys | src/impls/memory.rs:598-610 | iterating the ordered map yields its keys sorted |
| Listing.LessIsStrictTotalOrder | src/impls/memory.rs:48-48 | byte-wise name order is a strict total order |
| Listing.LessIsLexicographic | src/impls/memory.rs:47-47 | a name precedes another exactly when it is a proper prefix of it or smaller in the first byte that differs |
| Listing.SortedIsAscendingAndComplete | src/impls/memory.rs:598-610 | the sorted keys are strictly ascending and are all the keys |
| Listing.SortedRank | src/impls/memory.rs:598-610 | a name's place in the listing is the number of names before it |
| Listing.ListingIsExact | src/impls/memory.rs:593-611 | a listing holds each child once, ascending, with the kind and inode lookup finds |
| Dirents.AndNotMask | src/linux_dirents.rs:118-121 | and-ing bit by bit with the complement of `2^k - 1` subtracts the remainder by `2^k` |
| Dirents.AlignToIsLeastMultiple | src/linux_dirents.rs:118-121 | the masked sum is the least multiple of a power of two that is not smaller |
| Dirents.RecLenIsAligned | src/linux_dirents.rs:118-121 | the closed form used for record lengths is the source's masked rounding |
| Dirents.LERoundTrip | src/linux_dirents.rs:48-107 | a number that fits its field reads back from its bytes |
| Dirents.LEBytes | src/linux_dirents.rs:79-81 | the `i`-th byte of a number field is the number divided by `256^i`, modulo 256 |
| Dirents.LayoutIsExact | src/linux_dirents.rs:79-89 | every byte of a record: inode, offset, length and type at their positions, the name, and zeros to the end |
| Dirents.RecordsOfEntries | src/linux_dirents.rs:74-82 | what a record holds: the entry's name, its place, type 4 or 8 by kind, and its inode, or without one the hash of the path it names, with `.` and `..` resolved |
| Dirents.DecodeRoundTrip | src/linux_dirents.rs:48-107 | decoding by record lengths recovers exactly the encoded records |
| Dirents.DecodesBackExactlyWhen | src/linux_dirents.rs:48-107 | a buffer of records reads back as those records if and only if every name is NUL-free and every length, inode and offset fits |
| Dirents.FitIsLongest | src/linux_dirents.rs:48-107 | the consumed prefix is the longest whose records fit the buffer |
| Dirents.WriteRecord | src/linux_dirents.rs:48-107 | writing one record puts its encoding at the write position and touches nothing else past it or before it |
| Dirents.WriteDirents64 | src/linux_dirents.rs:48-107 | the loop returns the bytes written and entries consumed, the buffer holds exactly the records of the consumed prefix, bytes past them are untouched, -1 for unusable buffers or a first record that does not fit |
| Dirents.WrittenBytesDecode | src/linux_dirents.rs:48-107 | the written bytes are 8-aligned, within the count and as many as fit, and decode to the consumed entries with consecutive offsets if and only if those fit their fields |
| Enumeration.StreamIsASlice | src/root_vfs.rs:266-299 | the records of successive calls are one contiguous slice of the listing's records |
| Enumeration.ListingPersists | src/root_vfs.rs:273-280 | any run that leaves a directory's own entries leaves its listing, renames of it or its ancestors included |
| Enumeration.EnumerationIsExact | src/root_vfs.rs:266-299 | any number of interleaved calls whose buffers have room return a prefix of the records, each once and in order; a call takes nothing if and only if all has been read, so a reader that stops there has the whole listing, and it gets there |
| Enumeration.TakesNothingExactlyAtEnd | src/root_vfs.rs:282-290 | a call whose buffer has room takes nothing exactly at the end |
| Enumeration.TakeIsLongest | src/root_vfs.rs:282-296 | a call takes the most records whose encoding fits its buffer |
| Enumeration.QuietDirectoryIsReadWhole | src/root_vfs.rs:266-299 | an undisturbed directory is read whole by the time a call takes nothing, in buffers of any sizes that hold any one record |
| Enumeration.FullListingIsExact | src/linux_dirents.rs:22-35 | the listing is `.`, `..` and then every child once, strictly ascending, with its inode |
| Enumeration.RecordsDescribe | src/linux_dirents.rs:22-35 | the records of a directory in numbers: `.` and `..` with type 4 and the hashes of the tracked path and of its parent, then every child once, ascending, with the inode and the type lookup finds, numbered from 1 |
| Enumeration.OffsetSkipsOrRepeatsExactlyWhen | src/root_vfs.rs:282-296 | between two calls a child that stays is skipped, or read again, exactly when its place in the order crosses the offset |
| Enumeration.RemovalsSkipExactlyWhen | src/root_vfs.rs:282-296 | while entries are only removed no child is read twice, and one that stays is skipped exactly when more names before it go than there are records left before it |
| Enumeration.RemovalShortensListing | src/root_vfs.rs:285-285 | a removal shortens the listing by one, so a reader at its end is past it |
| Enumeration.EveryCallDecodes | src/root_vfs.rs:282-290 | each call's bytes decode to the records it stands for if and only if their names are NUL-free and their lengths fit |
| Overlay.VisibleIsFirst | src/impls/overlay.rs:44-54 | the serving layer has a path exactly when some layer has it |
| Overlay.VisibleLayerIs | src/impls/overlay.rs:44-54 | the serving layer is the first that has the path, or the last one |
| Overlay.MergeFinds | src/impls/overlay.rs:181-188 | merging keeps the first layer's entry for a name |
| Overlay.MergeKeepsOrder | src/impls/overlay.rs:181-188 | merging only appends, in the order entries are listed |
| Overlay.MergeAnswersExactlyWhen | src/impls/overlay.rs:176-191 | there is a merged listing, an empty one perhaps, exactly when some layer has a directory at the path |
| Overlay.ListingAgreesWithLookup | src/impls/overlay.rs:164-192 | a merged listing has no duplicates and names `n` exactly when lookup of `n` below the path succeeds, with the serving layer's kind and inode |
| Overlay.WritesKeepVisibility | src/impls/overlay.rs:100-129 | mkdir and open for writing leave the node, kind and mode every path is served with, but for the written path and its ancestors where the top has none; nothing visible vanishes, and what they make is served by the top |
| Overlay.TopTakesOverExactlyWhen | src/impls/overlay.rs:63-129 | which absent paths the top comes to have, with what kind and mode, in terms of lookups and of the backing files that can be made |
| Overlay.ServedChangesExactlyWhen | src/impls/overlay.rs:100-129 | what a path is served with changes if and only if the top takes it over |
| Overlay.LowerFileBecomesDirectoryExactlyWhen | src/impls/overlay.rs:72-82 | a file served by a lower layer is hidden by a directory if and only if the top takes its path over other than by opening it |
| Overlay.MkdirHidesLowerFile | src/impls/overlay.rs:124-129 | a concrete case: mkdir below a lower file answers 0 and the file's path is a directory |
| Overlay.MaterialiseReaches | src/impls/overlay.rs:72-82 | with no file in the way the loop makes an ancestor, a directory with mode 0o755, if and only if backing files can be made for all that is missing up to it |
| Overlay.MaterialiseStopsAt | src/impls/overlay.rs:72-82 | below a file or a gap the loop leaves the top unchanged |
| Overlay.MkdirSucceedsExactlyWhen | src/impls/overlay.rs:124-129 | the exact condition for an overlay mkdir to return 0, backing files that cannot be made included; with the parent out of reach the top is unchanged |
| Overlay.OpenForWritingSucceedsExactlyWhen | src/impls/overlay.rs:100-118 | the exact condition for an overlay open for writing to give a handle, and that the handle is then on the node at the path |
| Overlay.MkdirLeaves | src/impls/overlay.rs:63-129 | after an overlay mkdir, failed ones included, every path the top had keeps node, kind and mode; a path it gained is the one made, with the caller's mode, or an ancestor, a directory with mode 0o755; on success the path is a new directory |
| Overlay.OpenForWritingLeaves | src/impls/overlay.rs:63-108 | so for an open for writing, whose new file has the caller's mode |
| Overlay.FailedOpenMakesParents | src/impls/overlay.rs:100-108 | a concrete case: writing to a lower file without the create flag fails after its parent is made in the top |
| MemoryFileSystem.MemoryFS.constructor | src/impls/memory.rs:154-174 | a new file system is the initial tree, and one id is drawn |
| MemoryFileSystem.MemoryFS.Resolve | src/impls/memory.rs:187-202 | the loop finds the node lookup finds, or nothing |
| MemoryFileSystem.MemoryFS.ResolveRelative | src/impls/memory.rs:460-484 | the loop finds the node the relative walk ends at, or nothing |
| MemoryFileSystem.MemoryFS.CreateNodeInDir | src/impls/memory.rs:267-307 | the heap changes as a creation does and the tree is kept; an id is drawn even when the backing file fails |
| MemoryFileSystem.MemoryFS.CreateNode | src/impls/memory.rs:204-212 | so does creation by path |
| MemoryFileSystem.MemoryFS.CreateRelativeNode | src/impls/memory.rs:486-501 | so does creation through a handle |
| MemoryFileSystem.MemoryFS.RemoveNodeAt | src/impls/memory.rs:309-343 | the heap changes as a removal does and the tree is kept |
| MemoryFileSystem.MemoryFS.RenameNodeAt | src/impls/memory.rs:345-448 | the heap changes as a rename does, for all component paths; on normalised ones the tree is kept |
| MemoryFileSystem.MemoryFS.RenameWithin | src/impls/memory.rs:391-404 | the same-directory branch relinks source and target, dropping a replaced node first |
| MemoryFileSystem.MemoryFS.RenameAcross | src/impls/memory.rs:437-447 | the cross-directory branch relinks and sets the parent pointer, dropping a replaced node last |
| MemoryFileSystem.MemoryFS.Chmod | src/impls/memory.rs:661-672 | the mode's low twelve bits are stored in the node the path resolves to |
| MemoryFileSystem.MemoryFS.StatNode | src/impls/memory.rs:558-591 | the reported inode, kind, mode and link count |
| MemoryFileSystem.MemoryFS.Access | src/impls/memory.rs:618-620 | 0 exactly when the path resolves |
| MemoryFileSystem.MemoryFS.ReadNodeDir | src/impls/memory.rs:593-611 | the directory's listing, or nothing for a file |
| MemoryFileSystem.MemoryFS.ReadDir | src/impls/memory.rs:681-684 | the listing of the directory a path resolves to |
| MemoryFileSystem.MemoryFS.OpenNode | src/impls/memory.rs:214-222 | descriptor, handle and state of an open by path |
| MemoryFileSystem.MemoryFS.OpenNodeRelative | src/impls/memory.rs:535-552 | descriptor, handle and state of an open through a handle |
| MemoryFileSystem.MemoryFS.FinishOpen | src/impls/memory.rs:524-532 | what an open answers once its node is known |
| MemoryFileSystem.MemoryFS.Mkdir | src/impls/memory.rs:644-647 | one step of a run, with node and allocation kept |
| MemoryFileSystem.MemoryFS.MkdirChild | src/impls/memory.rs:76-85 | one step of a run through a handle |
| MemoryFileSystem.MemoryFS.OpenWithHandle | src/impls/memory.rs:626-637 | one step of a run, and the handle is the opened node |
| MemoryFileSystem.MemoryFS.OpenChild | src/impls/memory.rs:63-74 | one step of a run through a handle, and the new handle is the opened node |
| MemoryFileSystem.MemoryFS.Unlink | src/impls/memory.rs:649-651 | one step of a run |
| MemoryFileSystem.MemoryFS.Rmdir | src/impls/memory.rs:653-655 | one step of a run |
| MemoryFileSystem.MemoryFS.Rename | src/impls/memory.rs:657-659 | one step of a run |
| OverlayFileSystem.OverlayFS.VisibleLayer | src/impls/overlay.rs:44-54 | the top if it has the path, else the middle if that has it, else the base |
| OverlayFileSystem.OverlayFS.Access | src/impls/overlay.rs:91-98 | 0 exactly when some layer has the path |
| OverlayFileSystem.OverlayFS.PathExistsBelowTop | src/impls/overlay.rs:56-61 | whether the middle or the base has the path |
| OverlayFileSystem.OverlayFS.EnsureTopParentDirs | src/impls/overlay.rs:63-83 | the top changes as materialising does and the layers below do not |
| OverlayFileSystem.OverlayFS.Mkdir | src/impls/overlay.rs:124-129 | answer and top after a mkdir, with middle and base unchanged |
| OverlayFileSystem.OverlayFS.Open | src/impls/overlay.rs:100-108 | answer and top after an open, to the top for writing and to the serving layer otherwise, with middle and base unchanged |
| OverlayFileSystem.OverlayFS.ReadDir | src/impls/overlay.rs:164-192 | the merged listing of two or three layers, given exactly when one of them has a directory there |
| OverlayFileSystem.AddLayer | src/impls/overlay.rs:181-188 | one layer's entries with new names are appended in order |
| OverlayFileSystem.MakeChain | src/impls/overlay.rs:72-82 | the loop makes the missing ancestors, shortest first |
| Mounts.AbsolutePathToFs | src/root_vfs.rs:105-119 | the search finds the dispatch target and the rest of the path |
| Mounts.DispatchIsExact | src/root_vfs.rs:105-119 | dispatch picks the longest mounted prefix, and mount point and rest rebuild the path |
| Mounts.LongestMountIsLongest | src/root_vfs.rs:107-117 | no longer mounted prefix is passed over |
| Mounts.DispatchIsInjective | src/root_vfs.rs:105-119 | with separate file systems, distinct virtual paths never share a file system and path there |
| RootVirtualFS.RootVFS.SetCwd | src/root_vfs.rs:49-56 | the working directory becomes the normal form of an absolute path |
| RootVirtualFS.RootVFS.ResolvePath | src/root_vfs.rs:58-65 | a path resolved against the root or the working directory |
| RootVirtualFS.RootVFS.ResolveOpenatPath | src/root_vfs.rs:67-79 | a path resolved against the root, the working directory or a tracked path, or nothing for an unknown descriptor |
| RootPaths.ResolvedIsExact | src/root_vfs.rs:58-65 | a relative path goes up from the working directory by its `..`s and down by its names; an absolute one starts at `/` |
| RootPaths.ResolvedAtIsExact | src/root_vfs.rs:67-79 | the same beside a descriptor: -100 stands for the working directory, a tracked descriptor for its path, an unknown one for nothing |
| RootPaths.RouteIsExact | src/root_vfs.rs:155-191 | when a call goes through a handle, at which path otherwise, and when nowhere |
| RootPaths.MountServes | src/root_vfs.rs:105-119 | below the longest mount point the file system mounted there is asked, for the rest of the path |
| RootPaths.EveryPathHasAMount | src/root_vfs.rs:105-119 | each path has exactly one longest mount point, the root counted |
| RootPaths.PathsStayApart | src/root_vfs.rs:105-119 | with separate file systems no two paths are asked of one system as one path |
| RootPaths.CallsAtMount | src/root_vfs.rs:193-217 | what open, mkdir, unlink and rmdir at a path ask the mounted system to do, and what path an open records |
| RootPaths.RemovalGoesByFlag | src/root_vfs.rs:206-217 | without the directory flag a removal answers 0 exactly on a file, with it exactly on an empty directory that is no mounted root, and -1 otherwise |
| RootPaths.RenameWithinOneMount | src/root_vfs.rs:219-240 | a rename has a file system to go to exactly when both arguments resolve below one mount point |
| RootPaths.ListsIsExact | src/root_vfs.rs:272-280 | a descriptor lists its handle's directory, and without a handle the directory at its tracked path or nothing |
| RootVirtualFS.RootVFS.FindRoute | src/root_vfs.rs:155-191 | a relative path below a descriptor with a handle goes through the handle, any other by path |
| RootVirtualFS.RootVFS.TrackOpen | src/root_vfs.rs:121-133 | a non-negative descriptor is recorded with offset 0 |
| RootVirtualFS.RootVFS.ForgetFd | src/root_vfs.rs:135-137 | the descriptor's entry goes |
| RootVirtualFS.RootVFS.CloneFd | src/root_vfs.rs:139-149 | the entry is copied, offset included, or the new number is cleared |
| RootVirtualFS.RootVFS.Open | src/root_vfs.rs:312-319 | one step of the file system dispatch picks, and the table gains the descriptor with the opened node |
| RootPaths.OpenBelowCwd | src/root_vfs.rs:312-319 | opening a relative path: the system mounted longest above it opens the rest, and the descriptor is recorded under the whole path at offset 0 |
| RootVirtualFS.RootVFS.OpenAt | src/root_vfs.rs:350-361 | the same by handle or by path, and an unknown descriptor answers -1 and changes nothing |
| RootVirtualFS.RootVFS.MkdirAt | src/root_vfs.rs:193-204 | one step through the handle or at the resolved path |
| RootVirtualFS.RootVFS.UnlinkAt | src/root_vfs.rs:206-217 | one removal at the resolved path |
| RootVirtualFS.RootVFS.RenameAt | src/root_vfs.rs:219-240 | one rename in the common file system; across two, -1 and nothing changes |
| RootVirtualFS.RootVFS.GetDents64 | src/root_vfs.rs:266-299 | the records from the descriptor's offset on, as many as fit, the offset moved past them; failures move nothing |
| RootVirtualFS.RootVFS.ListFor | src/root_vfs.rs:273-280 | a descriptor lists its handle's directory, or else the one at its tracked path |
| RootVirtualFS.RootVFS.StepKeepsSystems | src/root_vfs.rs:23-28 | a step of one mounted file system leaves all of them good and separate |
| RootInvariant.Open | src/root_vfs.rs:312-319 | an open leaves every mounted file system good and separate, and every tracked handle on a node of one of them |
| RootInvariant.OpenAt | src/root_vfs.rs:350-361 | so does an `openat` |
| RootInvariant.MkdirAt | src/root_vfs.rs:193-204 | so does a `mkdirat` |
| RootInvariant.UnlinkAt | src/root_vfs.rs:206-217 | so does an `unlinkat` |
| RootInvariant.RenameAt | src/root_vfs.rs:219-240 | so does a `renameat`, across file systems too |
| Descriptors.ReadOnce | src/root_vfs.rs:266-299 | one call through a handle answers for its directory, which goes on listing the same |
| Descriptors.ReadDirectory | src/root_vfs.rs:266-299 | calling until the answer is 0 or an error collects the encoding of the records from the offset on, all of them or all up to the first that does not fit, and is the stream of the enumeration theory; the records are described by lookups in the directory, and the bytes decode to them exactly when they fit their fields |
| Descriptors.AnswerTook | src/root_vfs.rs:282-298 | an answer in the words of the encoder: 0 exactly at the end, -1 exactly where the next record does not fit |
| Descriptors.OtherAnswers | src/root_vfs.rs:266-299 | an unusable buffer answers -1, an unknown or unlistable descriptor is left to the kernel, and neither they nor an offset past the listing change anything |
| Descriptors.CopyReadsOn | src/root_vfs.rs:139-149 | reading through a duplicated descriptor goes on at the original's offset and leaves the original's entry as it was |
| FdTable.SyncKeptExactlyWhen | src/libc_hooks.rs:163-198 | a call keeps the tracked table equal to the kernel's VFS-opened descriptors if and only if it is not a close that errs after releasing a tracked descriptor |
| FdTable.CopyIsExact | src/root_vfs.rs:139-149 | after a successful `dup`, `dup2` or `dup3` the new number has the original's path, offset and handle, or is untracked if that was, and every other entry is as before |
| FdTable.OpenAndCloseAreExact | src/root_vfs.rs:121-137 | an open is tracked under its path at offset 0, a close removes the entry, and every other entry is as before |
| FdTable.FailuresChangeNothing | src/libc_hooks.rs:172-198 | a call that fails leaves both tables |
| FdTable.RunStaysInSync | src/libc_hooks.rs:163-198 | so does every run without such a close, descriptor reuse included |
| FdTable.ErrorOnCloseLeavesStaleHandle | src/libc_hooks.rs:164-170 | after such a close a foreign file with the reused number is answered for by the closed handle |
| LibcHooks.Hooks.Close | src/libc_hooks.rs:163-171 | both tables after the hook, and its answer |
| LibcHooks.Hooks.Dup | src/libc_hooks.rs:172-180 | both tables after `dup`, or `fcntl` with `F_DUPFD` and `F_DUPFD_CLOEXEC` |
| LibcHooks.Hooks.Dup2 | src/libc_hooks.rs:181-189 | both tables after `dup2`, equal numbers included |
| LibcHooks.Hooks.Dup3 | src/libc_hooks.rs:190-198 | both tables after `dup3` |
| LibcHooks.Hooks.Open | src/libc_hooks.rs:381-388 | both tables after an open: the tracked handle is the node the file system opened |
| LibcHooks.OpenAnswersWithItsBacking | src/impls/memory.rs:528-532 | an open answers with the kernel's descriptor and a node exactly when that is not negative, or with -1 and none |

## Left out

- File contents, sizes, timestamps, `fchmod` and the closing of backing files: kernel state; only success or failure of making and reopening a backing file is kept.
- Interleaving inside an operation: the cross-directory rename reads, checks and writes under separate locks, so the tree is only claimed for atomic operations.
- The 64-bit wrap of the id counter and of directory offsets: ids and offsets are unbounded here.
- Splitting a path string into components: done by the standard library, so paths arrive as components.
- Repairs of dangling entries in removal and rename: under the invariant no entry dangles, so those branches are not modelled.
- A root node whose backing file cannot be made: the source ignores that failure too.
- Byte order: records are written little-endian, where the source uses the machine's order.
- The path hash behind synthetic inode numbers: an uninterpreted function.
- Permission checks: `access` ignores its mode in a memory file system.
- Overlay unlink, rmdir, rename and chmod: they have no whiteouts or copy-up and fall through to lower layers.
- `BindFS` and file systems other than memory ones under the root or an overlay: joins of prefixes and libc calls.
- Overlays mounted under the root: `RootVFS` is modelled over memory file systems, where handles have a meaning beyond one layer.
- `fstat`, `stat`, `chmod`, `access` and `read_dir` by path at the root: a dispatch and one call each.
- `opendir` materialisation, `fdopendir` and `closedir`: they depend on which of two libc entry points is interposed.
- Symbol lookup, variadic wrappers, environment parsing and file writing: plumbing.
- EnumerationIsExact: needs buffers with room for the next record and a listing unchanged between calls; `OffsetSkipsOrRepeatsExactlyWhen` says what a changed one costs.
- ReadDirectory: reads with nothing in between its calls and through a handle; interleaving is in `EnumerationIsExact`.
