# A verified model of fskit

fskit is an in-memory file system library: directories are red-black trees of names, inodes are reference counted, paths
are resolved with lock coupling, and directories are read in pages. This project models those parts in Dafny, in the
form the library has them, and proves what they keep and what they change.

| Module | What it models |
|---|---|
| `Names`, `Listing`, `Powers` | strcmp order, the sorted listing of a set of names, powers of two |
| `RbTree`, `RbHeap` | sglib's red-black tree as values, and the same operations on nodes that are relinked in place |
| `RbIterator`, `RbTraverse` | the two traversals with fixed 128-slot arrays |
| `EntrySet` | directory entry sets and extended attribute sets over the tree, as maps |
| `FsGraph`, `Fs` | the inode graph, and the API calls as steps over inodes, counts and handles |
| `FsInvariant`, `FsCalls`, `FsRemove`, `FsRename`, `FsDetach` | what each call keeps, exactly when, and what it changes |
| `FsAnswers` | every answer of every call, and the whole state after it, from the state before |
| `FsRun`, `FsCore` | runs of calls; the same calls on inode objects, step by step, each equal to its step in `Fs` |
| `FsDefects` | inputs on which the library departs from what it means to do |
| `FsGarbage` | a name from detach_all over its reuse to the last close |
| `Paths`, `PathStrings`, `Resolve`, `PathIterator` | strtok-style components, the string routines, the resolver, the resumable iterator |
| `Deadlock` | threads that resolve paths with lock coupling |
| `Readdir`, `ListXattr` | paged directory reading over a changing directory; the packed list of attribute names |
| `Random`, `Quicksort` | the multiply-with-carry generator; sglib's array quicksort |

An API call is one step. It begins where its paths are resolved; permissions and callbacks are parameters that say yes,
no, or which error. `Inv` is what holds between calls: link counts are the numbers of names, the root one more; open
counts are the numbers of handles plus references that were left behind; every directory that has a name has one, its
`..` is the directory that holds it, and following `..` comes nearer to the root; nothing refers to an inode that is
gone; an inode that is neither named nor open is gone; an unlinked or garbage directory is empty; num_children is at
most the number of names.

## Model

| member | source | states |
|---|---|---|
| Names.LessWhere | include/fskit/entry.h:31 | one name is less than another if and only if it is a proper prefix of it, or has the smaller byte where they first differ |
| RbTree.AddCorrect | include/fskit/sglib.h:1445-1482 | adding a record with a new address to any valid tree gives a valid tree whose in-order listing gains that record at its place by name and address, and nothing else |
| RbTree.DeleteRecBalanced | include/fskit/sglib.h:1667-1710 | deleting from any balanced tree gives a balanced tree, and the flag that comes back is set exactly when the black height fell by one |
| RbTree.DeleteCorrect | include/fskit/sglib.h:1484-1601 | deleting any member of any valid tree gives a valid tree that lists the other records in the same order |
| RbTree.FindCorrect | include/fskit/sglib.h:783-794 | searching by name finds a record of that name exactly when the tree holds one |
| RbTree.HeightFitsPath | include/fskit/sglib.h:2056-2058 | a valid tree with fewer than 2^64 - 1 records is at most 126 high, below the 128 slots that the traversals have |
| RbHeap.AddNode | include/fskit/sglib.h:1712-1717 | the in-place insertion, rotations and recolouring included, leaves nodes that are shaped as the value-level insertion says, and touches no other node |
| RbHeap.DeleteNode | include/fskit/sglib.h:1718-1722 | the in-place deletion, with its fixers and the splice of the rightmost leaf, leaves nodes shaped as the value-level deletion says, without the deleted node, and touches no other node; no assertion of the fixers fails |
| RbHeap.FindMember | include/fskit/sglib.h:1723-1728 | the search loop over nodes returns what the value-level search finds |
| RbIterator.Iterator.constructor | include/fskit/sglib.h:1811-1840 | after initialisation the iterator stands at the first record of the listing for its order, with the rest of it still to come |
| RbIterator.Iterator.Next | include/fskit/sglib.h:1769-1810 | each call returns the next record of the pre-, in- or post-order listing and leaves exactly the rest, without an index outside the 128 slots |
| RbIterator.Iterator.ReadsAheadOnly | libfskit/entry.c:90-111 | in-order, an iterator that has moved on will never again read a record before its current one |
| RbIterator.Walk | include/fskit/sglib.h:1841-1862 | for any valid tree with fewer than 2^64 - 1 records and each of the three orders, the loop over the iterator lists exactly the listing for that order |
| RbIterator.FreeAll | libfskit/entry.c:90-111 | the loop that frees each record once its successor is known frees every record once, in order, and reads none that is freed |
| RbTraverse.MapOnElements | include/fskit/sglib.h:727-769 | the explicit-stack traversal visits the listing for its order, within its arrays |
| RbTraverse.Len | include/fskit/sglib.h:1761-1768 | the element count is the number of records, for any valid tree with fewer than 2^64 - 1 of them |
| EntrySet.EntrySet.Insert | libfskit/entry.c:147-171 | inserting a new name binds it in the map that the tree stands for, and changes no other name |
| EntrySet.EntrySet.FindName | libfskit/entry.c:176-200 | finding a name answers what the map says |
| EntrySet.EntrySet.RemoveEntry | libfskit/entry.c:205-233 | removing a name succeeds exactly when it is there and is neither "." nor "..", and removes that name alone |
| EntrySet.EntrySet.InsertXattr | libfskit/entry.c:1761-1830 | setting an attribute binds it, unless the create or replace flag objects; on an empty set neither does |
| EntrySet.EntrySet.Count | libfskit/entry.c:262-264 | the count is the number of names |
| EntrySet.EntrySet.ListNames | libfskit/entry.c:77-85 | iterating a set lists its names in strcmp order |
| EntrySet.EntrySet.FreeSet | libfskit/entry.c:90-111 | freeing a set frees each record once |
| FsCalls.GarbageCollectKeeps | libfskit/entry.c:1295-1353 | collecting the name of a garbage inode frees the name, and destroys the inode exactly when that was its last link and it is not open; otherwise EEXIST and no change |
| FsCalls.MkdirKeeps | libfskit/mkdir.c:178-246 | mkdir keeps the invariant, and succeeds exactly when the parent is a writable directory, nothing but garbage holds the name, and the callback agrees |
| FsCalls.MkdirBinds | libfskit/mkdir.c:70-170 | mkdir binds a fresh, empty, once-linked directory to a vacant name |
| FsAnswers.MkdirAnswers | libfskit/mkdir.c:178-246 | mkdir: which error in which case, and the exact state after it: unchanged, or the name freed, or the fresh directory entered under the freed name |
| FsCalls.OpenKeeps | libfskit/open.c:200-388 | open keeps the invariant for every combination of flags and answers, with the references counted that are left behind when the truncation of a created file fails |
| FsAnswers.OpenAnswers | libfskit/open.c:136-194 | open without O_CREAT succeeds if and only if the flags are fine, the parent is a searchable directory, the name leads to a live non-directory, permission is given and the callbacks agree; then exactly one handle on that inode and one reference are added, and else nothing changes; which error in which case |
| FsAnswers.CreateAnswers | libfskit/open.c:264-353 | open with O_CREAT: which error in which case, and the exact state after it, with the fresh file, its one reference and its handle |
| FsCalls.CreateBinds | libfskit/create.c:75-150 | open with O_CREAT binds a fresh file to a vacant name, and the new handle is its only reference |
| FsCalls.OpendirKeeps | libfskit/opendir.c:58-127 | opendir keeps the invariant, whatever the callback says |
| FsAnswers.OpendirAnswers | libfskit/opendir.c:58-127 | opendir succeeds if and only if it is given a directory and the callback agrees; then exactly one handle and one reference are added, and else nothing changes |
| FsCalls.CloseKeeps | libfskit/close.c:87-154 | close keeps the invariant, and destroys the inode exactly when the handle held the last reference and no name is left |
| FsAnswers.CloseAnswers | libfskit/close.c:87-154 | close: EBADF, the callback's error, or exactly the handle and one reference less, and the inode gone exactly when nothing else held it |
| FsCalls.LinkKeeps | libfskit/link.c:64-155 | link keeps the invariant; it succeeds if and only if it is given no directory, the parent is a writable directory, the name is free and the callback agrees; and else it undoes everything it did |
| FsAnswers.LinkAnswers | libfskit/link.c:64-155 | link: which error in which case, and after success exactly one name and one link more |
| FsRemove.UnlinkKeeps | libfskit/unlink.c:32-136 | unlink keeps the invariant if and only if it does not remove a directory that has entries but counts at most two |
| FsRemove.UnlinkRemoves | libfskit/entry.c:338-384 | unlink takes away one name and one link, destroys the inode exactly when that was its last link and it is not open, and changes nothing else; ENOTEMPTY changes nothing |
| FsAnswers.UnlinkAnswers | libfskit/unlink.c:68-136 | unlink: which error in which case, and the exact state after it; a dot name never goes |
| FsRemove.RmdirKeeps | libfskit/rmdir.c:37-155 | rmdir keeps the invariant, and succeeds on empty directories and on nothing else, which lose their name, and go with it unless they are open |
| FsAnswers.RmdirAnswers | libfskit/rmdir.c:75-150 | rmdir: which error in which case, and the exact state after it |
| FsRename.RenameKeeps | libfskit/rename.c:225-522 | between any two live parents, with any names, rename keeps the invariant if and only if it is refused, has nothing to do, or is safe: neither name is a dot name, the new parent is a directory, a directory that moves counts at most two children and is not above the new parent, and a directory that is replaced is empty |
| FsAnswers.RenameAnswers | libfskit/rename.c:307-450 | rename answers 0 if and only if it is permitted, the old name is there, and either both names lead to one inode, or the callback agrees and the new name is free or its inode may be replaced; a nonzero answer, or two names of one inode, change nothing |
| FsAnswers.RenameErrors | libfskit/rename.c:307-450 | which error rename answers in which case |
| FsAnswers.RenameCounts | libfskit/entry.c:309-384 | a safe rename moves one from the old parent's count of children to the new one's, or takes one off when there is a target |
| FsRename.RenameMoves | libfskit/rename.c:452-511 | a safe rename changes exactly the two names and the ".." of a moved directory, takes one link off the target, and destroys the target exactly when that was its last link and it is not open |
| FsDetach.DetachAllEnds | libfskit/entry.c:763-811 | detach_all of any live directory, the root too: exactly the unopened inodes whose every name lay below it are gone; the others have lost exactly those names, and one link for each; exactly the directories at or below it have become garbage, without entries; kinds, other flags, other entries, open counts and handles stay |
| FsDetach.DetachFileTags | libfskit/entry.c:1590-1592 | detach_all of anything but a directory tags it and changes nothing else |
| FsDetach.DetachAllKeeps | libfskit/entry.c:1562-1595 | detach_all of a directory keeps the invariant if and only if it is not the root |
| FsDetach.QueueCounts | libfskit/entry.c:630-710 | at every turn of the loop a link count is the number of entries that name the inode plus its occurrences in the queue, the root one more |
| FsDetach.TurnFalls | libfskit/entry.c:611-712 | the entries that are left plus the length of the queue fall by one at every turn |
| FsRun.StepKeeps | libfskit/entry.c:309-384 | for every API call, the invariant is kept if and only if the call is guarded: all are, except unlink of a directory with entries, an unsafe rename, and detach_all of the root |
| FsRun.StepDoes | libfskit/entry.c:309-384 | every API call does what it is for when its checks and callbacks, spelled out for each, let it through; else it changes nothing, but for what mkdir and open with O_CREAT may have begun |
| FsRun.AlwaysSound | libfskit/entry.c:1224-1279 | after any run of guarded calls from an empty file system, failing calls included, the invariant holds, with the references that calls left behind counted |
| FsRun.CountsMean | libfskit/entry.c:1224-1245 | under the invariant a link count is the number of names and an open count the number of handles and left-behind references, at least one of them positive, so that the exits over negative counts are never taken; no entry and no handle leads to an inode that is gone |
| FsRun.UpToRoot | libfskit/entry.c:309-329 | under the invariant, following ".." from any directory that has a name reaches the root |
| FsCalls.OneHolder | libfskit/entry.c:323-327 | under the invariant a directory that has a name has exactly one, and its ".." is the linked directory that holds it |
| FsCore.Core.constructor | libfskit/entry.c:424-455 | a new core is the empty file system that runs start from |
| FsCore.Core.AttachLowlevel | libfskit/entry.c:309-329 | the assignments to the two inodes amount to the attach step |
| FsCore.Core.DetachLowlevel | libfskit/entry.c:338-384 | the checks, the removal and the assignments amount to the detach step, return code included |
| FsCore.Core.TryGarbageCollect | libfskit/entry.c:1295-1353 | the method on objects has the result and the new state of the collect step |
| FsCore.Core.MakeDirectory | libfskit/mkdir.c:178-246 | the method on objects has the result and the new state of the mkdir step |
| FsCore.Core.OpenFile | libfskit/open.c:200-388 | the method on objects has the result and the new state of the open step |
| FsCore.Core.OpenDirectory | libfskit/opendir.c:58-127 | the method on objects has the result and the new state of the opendir step |
| FsCore.Core.CloseHandle | libfskit/closedir.c:53-122 | the method on objects has the result and the new state of the close step |
| FsCore.Core.LinkFile | libfskit/link.c:64-155 | the method on objects, with its undo, has the result and the new state of the link step |
| FsCore.Core.UnlinkName | libfskit/unlink.c:32-136 | the method on objects has the result and the new state of the unlink step |
| FsCore.Core.RemoveDirectory | libfskit/rmdir.c:37-155 | the method on objects has the result and the new state of the rmdir step |
| FsCore.Core.RenameEntry | libfskit/rename.c:225-522 | the method on objects, with checks, detach steps whose failure is ignored, attach and destruction, has the result and the new state of the rename step |
| FsCore.Core.CollectWay | libfskit/rename.c:72-116 | walking to the new parent accumulates the set of inode numbers, member by member |
| FsCore.Core.DetachAllEx | libfskit/entry.c:611-712 | the breadth-first queue loop ends, with exactly the state that the outcome of detach_all describes |
| FsCore.Core.DetachEverything | libfskit/entry.c:763-811 | detach_all on objects, of the root too, ends in the described state |
| FsCore.Core.PerformAll | libfskit/entry.c:1224-1279 | performing any guarded calls on the objects goes through the run of the states, and ends under the invariant |
| FsGarbage.LeavesGarbage | libfskit/entry.c:1562-1595 | after detach_all of a directory that has a name, the name is still there in an untouched parent, and leads to garbage |
| FsGarbage.NameIsFree | libfskit/mkdir.c:77-109 | every path through a garbage name ends in ENOENT, readdir does not show it, and mkdir on it binds a fresh directory; the garbage is destroyed with the name exactly when it is not open |
| FsGarbage.DetachReuseClose | libfskit/close.c:120-150 | detach_all, mkdir on the name, and close of the one handle that is left: the inode lives until the close and is gone after it |
| FsDefects.UnlinkOrphans | libfskit/entry.c:352-356 | unlink of a directory with one entry succeeds, and leaves an inode whose link no entry accounts for |
| FsDefects.UnlinkDotDot | libfskit/unlink.c:89-133 | unlink of "/d/.." answers 0 and changes nothing |
| FsDefects.RenameIntoItself | libfskit/rename.c:387-395 | renaming a directory below itself is not refused, in a state that calls reach |
| FsDefects.RenameDotDot | libfskit/rename.c:472-483 | rename of "/d/.." puts the root below its own descendant, because the failed detach is ignored |
| FsDefects.RenameDot | libfskit/rename.c:472-483 | rename of "/d/." leaves a directory with two names |
| FsDefects.RenameBelowFile | libfskit/rename.c:308-340 | rename below a regular file is not refused, and gives the file an entry |
| FsDefects.RenameFull | libfskit/rename.c:461-468 | rename of a directory with three entries leaves it with two names |
| FsDefects.RenameOverFull | libfskit/rename.c:379-384 | rename over a directory with an entry succeeds when its count has fallen to 0, in a state that calls reach |
| FsDefects.CollectMiscounts | libfskit/entry.c:1325-1334 | collecting garbage that is destroyed takes two off num_children for one name |
| FsDefects.AccumulatedWhen | libfskit/rename.c:72-116 | the set on the way holds inode number 0 and nothing else, and the program exits exactly when an inode behind the first has number 0 |
| FsDefects.RenameOverWhen | libfskit/rename.c:369-395 | rename over a different existing inode succeeds if and only if both parents are the same, the kinds agree, a directory target counts no children, and permissions and callback agree |
| FsDefects.RenameAcrossRefused | libfskit/rename.c:51-65 | rename over an empty directory in another directory is refused with EINVAL |
| FsDefects.LeakStays | libfskit/open.c:346-353 | an inode whose reference was left behind is there after any calls that follow |
| FsDefects.Leaks | libfskit/open.c:346-353 | one open call leaves such a reference |
| Resolve.ResolvesIffReaches | libfskit/path.c:293-495 | resolving answers an inode exactly when a walk along the names, through live searchable directories, leads to it |
| Resolve.FailsWhere | libfskit/path.c:354-463 | resolving answers an error if and only if a way along the names fails with it: ENOTDIR at a non-directory with names left, EACCES at a directory that may not be searched, ENOENT at a name without a live inode |
| Resolve.DownWhere | libfskit/path.c:411-463 | a step fails exactly at a name that is not there, or leads to what is unlinked or garbage |
| Resolve.ResolvePath | libfskit/path.c:293-495 | the resolving loop answers the outcome for the components of the path without "."; on success exactly the answer is locked, in the mode asked for, on failure nothing; never more than two locks are held |
| Resolve.ResolvedIsLive | libfskit/path.c:451-462 | what resolving answers is linked and not garbage |
| Resolve.GarbageHides | libfskit/path.c:411-419 | every path through a name that leads to garbage answers ENOENT |
| PathIterator.Iterator.constructor | libfskit/path.c:506-551 | the iterator begins at the root, locked, with no name consumed |
| PathIterator.Iterator.Next | libfskit/path.c:581-713 | a step consumes one component other than ".", enters what it leads to, keeps exactly the entry and its parent locked, and reports the end, ENOTDIR or ENOENT exactly as the path says |
| PathIterator.Iterator.PrefixPath | libfskit/path.c:764-778 | the components of the prefix that is reported are the names consumed so far |
| PathIterator.Iterator.Release | libfskit/path.c:742-760 | releasing unlocks both entries |
| PathIterator.Iterate | libfskit/path.c:555-575 | the loop over the iterator ends, visits exactly the inodes of the resolver's walk if there is one, and else stops with the resolver's error or at the garbage the resolver answers ENOENT for |
| PathIterator.ChainFollowsWalk | libfskit/path.c:581-713 | what the iterator has visited at any point is the beginning of the resolver's walk |
| Paths.NextName | libfskit/path.c:309-318 | stepping through a path skips empty components and "." |
| PathStrings.Fullpath | libfskit/path.c:51-82 | joining puts exactly one separator between two parts, as the specification has it |
| PathStrings.JoinHasOneSlash | libfskit/path.c:51-82 | a joined path has exactly one slash at the joint, whether the parts have none, one or two there |
| PathStrings.JoinHasBoth | libfskit/path.c:51-82 | a joined path has the components of both parts |
| PathStrings.DirnameIs | libfskit/path.c:87-119 | the directory name has all components of the path but the last, or all of them if the path ends in a slash |
| PathStrings.BasenameIs | libfskit/path.c:123-165 | the base name is what follows the last slash before the end of the path, a slash at the end included; of a path shorter than two characters it is empty, except for "/" |
| PathStrings.DirnameInto | libfskit/path.c:87-119 | dirname into the caller's buffer is the directory name exactly when the byte behind it was NUL before; otherwise that byte follows |
| PathStrings.DirnameGarbled | libfskit/path.c:115-118 | a buffer full of x turns the directory of "/d/e" into "/dx" |
| PathStrings.Basename | libfskit/path.c:152-165 | the base name is the last component, a trailing slash with it |
| PathStrings.JoinSplit | libfskit/path.c:51-165 | a path is its directory name joined with its base name if and only if it is "/", or has two characters or more, no slash at its end and no "//" before its last part |
| PathStrings.SplitJoin | libfskit/path.c:87-165 | for a name without a slash, dirname and basename undo the join with a directory if and only if the directory is "/", or ends in no slash and is not empty, or is empty and the name has two characters |
| PathStrings.DepthCounts | libfskit/path.c:173-193 | the depth of an absolute path without "//" is its number of components, with or without a slash at its end |
| PathStrings.PathSplit | libfskit/path.c:200-256 | the two passes agree: the path is cut at every slash, and every slot points at its NUL-terminated component |
| Deadlock.NeverDeadlocks | libfskit/path.c:390-465 | any number of reading and writing threads that walk down a sound graph: after every schedule of steps no writer shares a lock, some thread can step unless all have finished, and no schedule is longer than the work there was; also when waiting writers go first |
| Deadlock.ThreadWalks | libfskit/path.c:390-465 | a thread takes the locks of its plan in order, holds one or two of them at any time, and none at the end |
| Deadlock.WalkIsPlanned | libfskit/path.c:322-340 | the resolver's walks are such plans |
| Readdir.DirHandle.FindStart | libfskit/readdir.c:114-158 | the search ends at the cursor's name, or at the first name behind it |
| Readdir.DirHandle.ReadPage | libfskit/readdir.c:319-390 | one call returns the page and leaves the cursor that the specification says |
| Readdir.OutputOrdered | libfskit/readdir.c:164-285 | over any calls and any changes in between, names come in strictly increasing order, so that none comes twice |
| Readdir.PageMisses | libfskit/readdir.c:119-155 | a page has a name that is shown behind the cursor, or ends before it, if and only if the cursor's name is still there or another name lies between the two |
| Readdir.ReadsEverything | libfskit/readdir.c:319-390 | over a whole reading, a name that is shown at every call is returned if and only if it is never the first name behind a cursor whose name has been removed, and then once |
| Readdir.KeptCursorsMissNothing | libfskit/readdir.c:319-390 | when the last-returned name is always still there, every name shown throughout is returned |
| Readdir.RemovedNameCostsNext | libfskit/readdir.c:354-361 | two calls, and a removal between them, that never return a name that is shown all the time |
| Readdir.UnchangedListing | libfskit/readdir.c:319-390 | an unchanged directory gives its shown names in order, as many as were asked for, and then nothing |
| Readdir.KeptIs | libfskit/readdir.c:481-523 | what compactifying keeps are exactly the entries that are not omitted, in their order |
| Readdir.Compactify | libfskit/readdir.c:481-523 | the list without the omitted entries, in order; the same list if none is |
| ListXattr.FListXattr | libfskit/listxattr.c:119-145 | without a buffer the answer is the size of the packed list; a short buffer gives ERANGE and is not written; else the buffer begins with the packed list and is otherwise as before |
| ListXattr.UnpackedPacked | libfskit/listxattr.c:96-115 | splitting the packed list at its NULs gives the names back, in order |
| Random.Generator.Next | libfskit/random.c:56-80 | from every state that a run reaches, the step made of a shift, additions and a comparison divides a * q + c by 2^32 - 1, stores and returns the complement of the digit in place of the oldest word, and keeps the carry at most 18782 |
| Random.DigitDivides | libfskit/random.c:60-75 | for all words the 64-bit product does not overflow, a * q + c is the new carry times 2^32 - 1 plus the digit, and both are 32-bit words |
| Random.CarriesBounded | libfskit/random.c:56-80 | on any run the carry stays at most 18782 after the first step |
| Quicksort.QuickSort | include/fskit/sglib.h:89-154 | for any element type and total preorder the loop leaves a sorted permutation, never uses more slots than log2 of the length, and so never leaves the 64 slots |

## Where the library departs from what it means to do

Those of the file system are proved on a state that a run of guarded calls from the empty file system reaches.

- libfskit/entry.c:352-356, `FsDefects.UnlinkOrphans`: num_children does not count the dot entries but is compared with
  2. After mkdir /d and mkdir /d/e, unlink /d succeeds and orphans /d/e. Exactly when: `FsRemove.UnlinkKeeps`.
- libfskit/unlink.c:94, `FsDefects.UnlinkDotDot`: the ENOENT of a refused removal is ignored. After mkdir /d, unlink
  /d/.. answers 0. Exactly when: `FsAnswers.UnlinkAnswers`.
- libfskit/rename.c:387-395, `FsDefects.RenameIntoItself`: the loop check looks at the target, not at what moves. After
  mkdir /d and mkdir /d/e, rename /d to /d/e/x takes both out of the tree. Exactly when: `FsRename.RenameKeeps`, for
  this and for the next five.
- libfskit/rename.c:461, 475, `FsDefects.RenameDotDot`, `FsDefects.RenameDot`: the last component may be a dot name,
  whose detach fails and is ignored. rename /d/.. to /d/e/x; rename /d/. to /x.
- libfskit/rename.c:308-340, `FsDefects.RenameBelowFile`: nothing checks that the new parent is a directory. With a file
  /f, rename /d to /f/x.
- libfskit/rename.c:461, 475, `FsDefects.RenameFull`: a directory that counts three children is not detached. With /d/e,
  /d/x and /d/y, rename /d to /x leaves both names.
- libfskit/rename.c:379-384, `FsDefects.RenameOverFull`: a target is empty when its count says so. mkdir /d, mkdir /d/e,
  detach_all /d/e, mkdir /d/e, mkdir /x, rename /x to /d.
- libfskit/rename.c:54-57, 88-114, `FsDefects.RenameAcrossRefused`: numbers are never stored in the set on the way, and 0
  is looked up. After mkdir /d, /d/e and /x, rename /x to /d/e is refused. Exactly when: `FsDefects.RenameOverWhen`.
- libfskit/entry.c:1309 and 1333, `FsDefects.CollectMiscounts`: collecting takes two off the count of children.
- libfskit/open.c:346-353, `FsDefects.Leaks`: open of /f with O_CREAT and O_TRUNC whose truncation fails.
- libfskit/readdir.c:354-361, `Readdir.RemovedNameCostsNext`: a directory with a and b, read three entries at a time; a
  is removed after it was returned. Exactly when: `Readdir.PageMisses`, `Readdir.ReadsEverything`.
- libfskit/path.c:116-117, `PathStrings.DirnameGarbled`: the terminator is written one byte too far. Exactly when:
  `PathStrings.DirnameInto`.
- libfskit/entry.c:779-780, `FsDetach.DetachAllKeeps`: detach_all of "/", as it is called at fuse/fskit_fuse.c:1117,
  marks the root as garbage, and no call can begin after it. `FsDetach.DetachAllEnds` describes its outcome all the same.

## Left out

- Interleaving of API calls: each call is one step. Only path resolution is modelled thread by thread, in `Deadlock`.
- Deadlock of rename and readdir, which lock upwards or twice. With a dot name as the last component, mkdir, open, rmdir
  and rename lock an inode that they hold; the model goes on as the code does when the lock call returns an error.
- Two spellings of the same parent in one rename, which is locked twice; parents that are the same are taken as one.
- ".." inside a path that is resolved, and resolving after detach_all of the root.
- Callbacks other than by their answers: what a callback does to the file system itself, and routes and their patterns.
- Failing allocation, names and paths that are too long, timestamps, owners and modes; permissions are booleans or sets.
- FsCore.Core.AttachLowlevel: a dot name as rename's new name makes the set of children hold two records of the name; the map has the later one. No result depends on which of them is found.
- The entry set replacement of ".." by libfskit/entry.c:238-257 is a map update in `Fs`; it is not proved at the tree.
- EntrySet.EntrySet.Insert: requires that the name is not in the set, which the library leaves to its callers.
- FsCore keeps the children of an inode as a map and not as an `EntrySet` object; the two meet in the map that an `EntrySet` stands for.
- FsCore.Core.DetachAllEx: the queue as a sequence, without the retry after a failed allocation, the failing-callback flag, and the removal of directory names from the detached set (libfskit/entry.c:587-593), which has no effect on the outcome.
- fskit_close and fskit_closedir are one operation; handle objects are numbers.
- mknod, symlink, trunc, stat, utime and the data plane: the same count transitions, or none.
- readdir with UINT64_MAX as the number of entries; seekdir, telldir and rewinddir; what readdir says of an entry apart from its name.
- fskit_entry_rename_in_directory, removexattr without routes, and removal of all attributes.
- 32-bit counts: links, references and children are unbounded integers; the words of `Random` are 32 bits wide.
- PathStrings.Dirname: its buffer has room for the result; the size of the library's own allocation is not modelled.
- Quicksort.QuickSort: indexes are unbounded integers, for lengths up to the 2^64 elements that the source names.
- The bindings for FUSE, the demo, the shell for tests, and sglib's lists, queues, heaps and hash tables.
