# GlusterFS client library and bundled utilities: a Dafny model

This project models five pieces of GlusterFS and proves what they keep, in every run or for every input.

**A. The graph switch of libgfapi** (`Graph*.dfy`). A client works on an active volume graph. A newer graph can
arrive at any moment through `graph_setup`, which takes the bare mutex. The next operation switches to it, and
while it migrates the root, the cwd and every open fd it drops the mutex again and again. `GraphModel` is a step
system: any number of threads with a program counter inside `glfs_active_subvol`, `glfs_subvol_done`,
`glfs_resolve_fd`, the cwd calls, `glfs_resolve_inode`, `glfs_fd_bind` and `glfs_fd_destroy`, and the notify calls
as steps of their own. A run is any sequence of enabled steps from the initial state. The remote calls made while
the mutex is dropped succeed or fail as they please. `GraphLock`, `GraphWinds`, `GraphFds`, `GraphFiles`,
`GraphSwitch` and `GraphRuns` hold the invariants; `GraphTheorems` and `GraphRevival` state the results. `GraphCalls`,
`GraphAnswers` and `GraphMigrations` follow a call from the moment it is made to the end of its section and say what it
hands back, whatever the other threads do meanwhile. `GraphWaits` adds the threads asleep on the condition variable
and the broadcasts that wake them.

**B. Path resolution with an inode cache** (`Path*.dfy`). `PathTable` has the code: a class with the cached
dentries and the loops of `glfs_resolve_component` and `priv_glfs_resolve_at`. `PathCache` says what forced lookups do
to a cache, and which answers it refuses; `PathCycles` that the cached dentries never form a cycle. `PathWalk` has the
same walk on the server's namespace, and an independent reference that replaces a symbolic link by the components of
its target. `PathRefine` proves the two equal; `PathQuirks` says exactly where the code departs from the reference.

**C. The directory cursor** (`DirCursor.dfy`): `readdir`, `telldir` and `seekdir` over a cached batch, against a
plain listing positioned by cookie.

**D. argp** (`Argp*.dfy`): the parse loop with its in-place permutation of argv (`ArgpParser`, proved through
`ArgpState` against the meaning of a command line in `ArgpMeaning` and its partition in `ArgpScan`), what each form of
an option stands for (`ArgpLines`), the two option searches, the flattening of a tree of parsers, the list of short
options for help, and the odometer that prints the usage patterns.

**E. Mount options and dirname** (`MountOptions.dfy`, `Memrchr.dfy`, `Dirname.dfy`): splitting, unescaping and
folding the option string of a FUSE mount; the search for the last byte a word at a time; cutting a path down to
its directory in place.

Where the code does less than one would expect, the model follows the code, and the exact condition is proved:

- A graph that is replaced in the next slot before any operation picked it up is never marked as switched, so a
  CHILD_UP can put it back into the next slot while it is about to be torn down (`RevivedIffNeverSwitched`).
- `glfs_resolve_inode` refreshes to the active graph whatever graph is asked for (`ResolvedObject`,
  `ResolvedElsewhere`).
- `priv_glfs_init_done` does not broadcast when there is a callback, so a thread that waits for the initialisation can
  sleep on when nobody else is inside (`NeverStuckIffNoCallback`).
- The inode table (`__inode_link` in `libglusterfs/src/inode.c`) refuses a dentry that would close a cycle of cached
  dentries, so a resolution with forced lookups is independent of the cache exactly when the table refuses none of the
  answers on its way (`ResolveAt`, `SwappedDirectories`).
- A link target without a component, other than exactly "/", cannot be walked through (`AgreesIffNoBareLinks`).
- `priv_glfs_resolve_at` can return 0 without an inode (`FaithfulIffNoLinkToDirectory`,
  `FaithfulIffNoneReachesDirectory`).
- With ARGP_IN_ORDER, which glusterfsd uses, the error of a short option that its own parser does not know can
  pass for the end of the arguments (`ErrorsShowIffNotInOrder`, `SuppressedWhen`).
- An OPTION_DOC entry with a printable key can take the key of a listed short option (`AgreeIffDocsHarmless`).
- An empty last mount option does not survive joining and splitting (`SplitInvertsJoin`), and a last one that ends in
  a lone backslash joins with what is written after it (`TextSplitsBack`).
- With 8-byte words the word search looks at half of every word (`MemRChr`, `EightMisses`), so `dirname_r` can lose the
  directory part (`DirNameIffRunSeen`, `LostDirectory`); with 8-byte big-endian words its test can also miss the bytes
  127 and 255 (`BigMisses`).

## Model

| member | source | states |
|---|---|---|
| GraphLock.LockStep | api/src/glfs-internal.h:173-192 | every step keeps: one owner of the mutex, the migration flag is set exactly while a thread is inside a drop, one thread inside a `glfs_lock` section |
| GraphWinds.SlotStep | api/src/glfs-resolve.c:777-829 | every step keeps: the old slot is filled only between the swap and the end of the section, and the slots match the switch in progress |
| GraphWinds.WindsStep | api/src/glfs-resolve.c:832-881 | every step changes `winds` of every graph exactly as it changes the references to it |
| GraphFds.FdRefsStep | api/src/glfs-resolve.c:695-774 | every step changes the count of every fd exactly as it changes the glfds on it and the references handed out |
| GraphFiles.FilesStep | api/src/glfs.c:488-520 | every step keeps: a glfd's fd is what the glfd was opened as, the openfds list has no duplicates, no glfd is closed while it is used |
| GraphSwitch.SwitchStep | api/src/glfs-resolve.c:752-829 | every step, of the switching thread or any other, keeps what the walk over the openfds list has settled so far |
| GraphSwitch.CaptureStep | api/src/glfs-master.c:46-77 | every step keeps: the captured graph is in its slot, or the release that would drop it waits for the section to end |
| GraphRuns.RunInv | api/src/glfs-resolve.c:777-881 | all invariants hold in every state of every run; what each call hands back over a run is stated by the members of GraphCalls, GraphAnswers and GraphMigrations below |
| GraphTheorems.WindsConserved | api/src/glfs-resolve.c:832-881 | in every reachable state `winds` is the slots naming the graph, plus the operations holding it, plus the pending releases |
| GraphTheorems.FdRefsConserved | api/src/glfs-resolve.c:695-774 | in every reachable state an fd's count is the glfds on it plus the references handed out, and a live glfd keeps its fd alive |
| GraphTheorems.OneInside | api/src/glfs-internal.h:173-192 | although the mutex is dropped inside sections, no two threads are ever inside `glfs_lock` sections at once |
| GraphTheorems.SectionIsStable | api/src/glfs-resolve.c:752-774 | while a thread is inside a section, a step of any other thread leaves the openfds list, the fds of its members, the cwd and the active graph alone |
| GraphTheorems.ZeroIsUnreferenced | api/src/glfs-resolve.c:861-881 | a count of 0 means no slot, no holder, no pending release and no switch to the graph |
| GraphTheorems.TeardownIsSafe | api/src/glfs-resolve.c:861-881 | teardown of a graph is decided by one decrement, which leaves it unreferenced |
| GraphTheorems.AssertionHolds | api/src/glfs-resolve.c:870-880 | the assertion before PARENT_DOWN never fails |
| GraphTheorems.RetiredForGood | api/src/glfs-resolve.c:842-881 | a graph switched away from, in no slot and not being switched to stays so for the rest of every run; its count never rises and teardown is decided at most once |
| GraphTheorems.SwitchCompletes | api/src/glfs-resolve.c:777-829 | when a switch ends, every bound fd was visited once and lies in the captured graph, has a null gfid or failed to migrate, as FailedMeansLost says when; if no graph arrived meanwhile the captured graph is active and the cwd lies in it with its gfid |
| GraphTheorems.CapturedStaysAlive | api/src/glfs-resolve.c:786-829 | the graph being switched to keeps a reference from its capture to the end of the section |
| GraphTheorems.OriginKept | api/src/glfs-resolve.c:588-692 | over any part of a run, what a glfd was opened as and what an fd is never change |
| GraphTheorems.ResolvedFd | api/src/glfs-resolve.c:716-749 | an fd handed out lies in the requested graph with the gfid, flags and kind the glfd had at any earlier time, and is referenced |
| GraphTheorems.ReopensAreSafe | api/src/glfs-resolve.c:649-654 | no open sent during a migration carries O_TRUNC, O_EXCL or O_CREAT, and no other flag is lost |
| GraphTheorems.ResolvedObject | api/src/glfs-resolve.c:952-971 | the inode handed out keeps its gfid, and lies in the requested graph exactly if the object did or the graph is active |
| GraphTheorems.AlwaysDefined | api/src/glfs-resolve.c:716-829 | no step of a thread inside the library follows a null pointer or a bad index |
| GraphTheorems.NoDeadlock | api/src/glfs-internal.h:173-192 | once initialised, if any thread is inside the library then neither the mutex nor the migration flag is in the way of some thread's next step |
| GraphCalls.OpenBinds | api/src/glfs.c:488-500 | over any run: when the section of a successful open or dup ends, its glfd is the last of the openfds list, with the gfid, kind and flags it was opened with, and nothing else in the list changed |
| GraphCalls.CloseUnlinks | api/src/glfs.c:502-520 | over any run: when the section of a close or a failed open ends, its glfd is out of the list and the others keep their order |
| GraphCalls.CloseFrees | api/src/glfs.c:502-520 | back in the caller, the closed glfd has no fd |
| GraphCalls.SetupInstalls | api/src/glfs-master.c:46-77 | over any run: the graph announced by `graph_setup` is in the next slot with one more wind and the displaced one about to be released, unless it was switched away from, is active or next already, or could not be set up; then nothing changes |
| GraphCalls.DoneReleases | api/src/glfs-resolve.c:861-881 | over any run: giving a graph back takes one from its `winds` and from no other graph's, and teardown is decided exactly at 0 |
| GraphCalls.InitOpens | api/src/glfs.c:654-683 | over any run: the initialisation opens the lock, and the slots stay as they are |
| GraphAnswers.ActiveAnswers | api/src/glfs-resolve.c:777-856 | over any run: a call that enters its section with no next graph leaves it holding exactly the active graph once more, counted once more; with a next graph it holds that one, and the displaced graph is marked as switched and about to be released; it leaves empty-handed exactly when there is no such graph, the first lookup failed, or the refresh of a cwd of another graph failed |
| GraphAnswers.GetCwdAnswers | api/src/glfs-resolve.c:920-950 | over any run: the cwd is handed out as an inode of the active graph, and nothing exactly when there is none or its refresh failed |
| GraphAnswers.SetCwdAnswers | api/src/glfs-resolve.c:885-917 | over any run: the inode becomes the cwd, in the active graph, or the cwd stays exactly when the refresh failed |
| GraphAnswers.ResolveObjectAnswers | api/src/glfs-resolve.c:952-987 | over any run: the object's own inode if it lies in the wanted graph, else the object in the active graph; nothing exactly when it lies in neither and the refresh failed |
| GraphMigrations.FailedMeansLost | api/src/glfs-resolve.c:752-774 | over any run: a switch leaves a glfd behind exactly when a call of its migration to a graph it was not in failed |
| GraphMigrations.SwitchMigrates | api/src/glfs-resolve.c:752-774 | over any run: after a switch every open file whose migration met no error is in the graph switched to, unless it has no gfid yet |
| GraphMigrations.SwitchMovesCwd | api/src/glfs-resolve.c:800-825 | over any run: after a switch the cwd has kept its gfid and lies in the active graph, unless a newer graph took the slot and refused it |
| GraphMigrations.ResolveFdAnswers | api/src/glfs-resolve.c:716-749 | over any run: the thread is handed an fd of the wanted graph on what the glfd was opened on and as it was opened, and nothing exactly when a call to that graph failed; for the active graph the glfd is on that fd from then on |
| GraphWaits.WaitRunInv | api/src/glfs-internal.h:173-186 | in every run with sleeping threads, a sleeper waits to enter and, without a callback, what it waits for is still to come: no wake-up is lost |
| GraphWaits.NeverStuckIffNoCallback | api/src/glfs.c:654-683 | with the broadcasts as they are, in every state of every run some thread that is awake can go on if any is inside, exactly when no callback was given for the initialisation |
| GraphRevival.RevivedIffNeverSwitched | api/src/glfs-master.c:46-77 | in any reachable state with a teardown of `g` decided, a CHILD_UP puts `g` into the next slot exactly if `g` was never switched away from |
| GraphRevival.TornDownWhileNext | api/src/glfs-master.c:46-77 | such a state is reachable: a graph in the next slot whose teardown is decided |
| GraphRevival.ResolvedElsewhere | api/src/glfs-resolve.c:952-971 | a run in which an object is resolved for graph 1 and the inode handed out lies in graph 2 |
| PathTokens.ComponentsConcat | api/src/glfs-resolve.c:379-382 | components do not depend on how many slashes separate them, nor on leading or trailing ones |
| PathTokens.ComponentsOfJoin | api/src/glfs-resolve.c:379-382 | splitting gives back any names without slashes that were joined |
| PathTokens.StrtokR | api/src/glfs-resolve.c:379-382 | each call returns the next component and leaves the rest of the components |
| PathWalk.ExpandMonotone | api/src/glfs-resolve.c:346-487 | the reference resolver's answer does not depend on its step bound |
| PathWalk.ExpandCompose | api/src/glfs-resolve.c:388-453 | resolving one path and then another from there is resolving their concatenation |
| PathWalk.ExpandSplit | api/src/glfs-resolve.c:388-453 | resolving a concatenation passes through the place its first part resolves to |
| PathWalk.LinkFollowed | api/src/glfs-resolve.c:367-373 | a link on the way leads where its target leads: from the root if the target begins with a slash, else from the directory that holds the link |
| PathRefine.WalkSound | api/src/glfs-resolve.c:388-453 | what the nested resolver finds at any depth allowance, the reference finds |
| PathRefine.WalkComplete | api/src/glfs-resolve.c:388-453 | what the reference finds in n steps, the nested resolver finds within n levels |
| PathRefine.WalkParent | api/src/glfs-resolve.c:455-470 | `loc.parent` is set exactly when all components but the last resolve to a directory, and is that directory |
| PathRefine.ResolverRefines | api/src/glfs-resolve.c:346-487 | for every path with a component, in a namespace within the nesting limit, `loc.inode` and `loc.parent` are set exactly when the reference succeeds, from the given directory for a path that does not begin with a slash and else from the root, and are its answers |
| PathQuirks.FewLinksFit | api/src/glfs-internal.h:17 | a namespace never needs more levels of nesting than it has symbolic links |
| PathQuirks.CycleNeverResolves | api/src/glfs-resolve.c:400-438 | a path from any start whose first components lead to a link of a cycle that it has to follow never yields an inode, at any depth allowance |
| PathQuirks.AgreesIffNoBareLinks | api/src/glfs-resolve.c:370-378 | code and reference agree on every path exactly when no link target lacks a component other than "/" |
| PathQuirks.FaithfulIffNoLinkToDirectory | api/src/glfs-resolve.c:397-453 | return value 0 means an inode was found, on every path, exactly when no symbolic link, followed by the code, leads to a directory |
| PathQuirks.FaithfulIffNoneReachesDirectory | api/src/glfs-resolve.c:397-453 | without bare targets and within the nesting limit, that is exactly when the reference follows no symbolic link to a directory |
| PathCache.RankedNeverRefuses | api/src/glfs-resolve.c:327-330 | a cache whose directories are ordered like the server's never refuses the server's answer, and stays so ordered |
| PathCache.RankedPathNeverRefuses | api/src/glfs-resolve.c:346-487 | nor does it refuse an answer anywhere on the way of a whole path |
| PathCache.SwappedDirectories | api/src/glfs-resolve.c:283-330 | two directories swapped on the server: resolving b/a with forced lookups, a stale cache refuses an answer although the server has one |
| PathCycles.AncestorsAre | api/src/glfs-resolve.c:330 | what a new dentry is checked against: exactly the directories from which cached dentries lead down to its own |
| PathCycles.LinkKeepsCycleFree | api/src/glfs-resolve.c:330 | a dentry that is not refused closes no cycle |
| PathCycles.LookKeepsCycleFree | api/src/glfs-resolve.c:283-330 | whatever the server answers, a forced lookup leaves the cached dentries free of cycles if they were |
| PathTable.InodeTable.InodeLink | api/src/glfs-resolve.c:330 | the dentry is linked unless it would close a cycle; nothing else changes |
| PathTable.InodeTable.ResolveComponent | api/src/glfs-resolve.c:225-343 | whatever is cached, a forced lookup answers what the server has unless the table refuses it, and leaves the cache as stated; a coherent cache answers the same without asking; coherence and freedom from cycles are kept |
| PathTable.InodeTable.AskServer | api/src/glfs-resolve.c:283-343 | the answer and the new cache when the server is asked: the server's answer unless it is refused |
| PathTable.InodeTable.ResolveStep | api/src/glfs-resolve.c:388-453 | one component with its links followed equals the walk on the server: with forced lookups for any cache that refuses nothing on the way, else for a coherent cache; a refusal makes it a component that cannot be walked through |
| PathTable.InodeTable.ResolveRest | api/src/glfs-resolve.c:379-453 | the loop over the components ends as the walk on the server and its trace through the cache say |
| PathTable.InodeTable.ResolveAt | api/src/glfs-resolve.c:346-487 | terminates for every symlink graph with at most 2049 nested calls; with forced lookups, from any cache whatever, the inode is that of the walk on the server exactly when the table refuses no answer on the way or there is nothing to find, and so for the parent; from a coherent cache all results are those of the walk; a path without components leads to where it starts; when the parent is set, `loc.name` is the last component; no cycle of dentries comes about |
| PathTable.ResolvePath | api/src/glfs-resolve.c:492-535 | end to end: inode and parent are the reference's answers, from the cwd for a path whose first character is not a slash if there is a cwd and else from the root, for any path with a component, from any coherent cache, and with forced lookups from any cache that refuses no answer on the way; after a refusal no inode is found; `loc.name` is the last component |
| DirCursor.DirFd.Refresh | api/src/glfs-fops.c:2066-2127 | a successful refresh caches the entries after the offset; a failed one changes nothing |
| DirCursor.DirFd.EntryNext | api/src/glfs-fops.c:2130-2154 | the answer and the new offset are those of the plain listing unless the refresh failed |
| DirCursor.DirFd.Seekdir | api/src/glfs-fops.c:1945-1970 | afterwards reading goes on after the given offset, cached or not |
| DirCursor.Run | api/src/glfs-fops.c:1936-2154 | any run of calls with any batch sizes and failures gets the replies of a plain listing positioned by cookie; only a failed request is an error, and it does not move the position |
| DirCursor.ReadAll | api/src/glfs-fops.c:2066-2154 | reading to the end lists exactly the entries after the start, in order, each once: all of them from offset 0, those after entry i from its cookie |
| DirCursor.Relist | api/src/glfs-fops.c:1936-2154 | a directory just opened lists all entries; after seekdir to 0 again all of them; after seekdir to the cookie of entry i exactly those after it |
| DirCursor.TellSeekResumes | api/src/glfs-fops.c:1936-1970 | after any calls, seeking to a told position resumes at the entry that would have come next |
| ArgpOptions.FirstKeyIsFirst | contrib/argp-standalone/argp-parse.c:318-338 | the option found for a key has it and no option before it does; none is found only if none has it |
| ArgpOptions.FindShortOption | contrib/argp-standalone/argp-parse.c:318-338 | the search over all groups finds that option |
| ArgpOptions.MatchOption | contrib/argp-standalone/argp-parse.c:349-371 | exact, proper abbreviation or no match, by the text before any '=' |
| ArgpOptions.LongOptionMeans | contrib/argp-standalone/argp-parse.c:374-416 | the option found for a long argument is the first exact match; without any, the one option that is abbreviated; none is found only if neither exists |
| ArgpOptions.FindLongOption | contrib/argp-standalone/argp-parse.c:374-416 | the search over all groups finds the first exact match if there is one, else the only abbreviation, else nothing |
| ArgpExchange.Exchange | contrib/argp-standalone/argp-parse.c:812-863 | the in-place loop swaps exactly the two adjacent stretches of argv, each kept in order |
| ArgpScan.ArrangedKeepsAll | contrib/argp-standalone/argp-parse.c:935-1200 | the rearranged command line has the same elements as the one given |
| ArgpMeaning.MeaningFollowsScan | contrib/argp-standalone/argp-parse.c:935-1200 | unless arguments are parsed in order, the calls are those of all options first, then those of the plain arguments in order; a malformed option stops the parse |
| ArgpState.InitInv | contrib/argp-standalone/argp-parse.c:601-615 | the loop invariant holds at the start, for any table, parsers and command line |
| ArgpState.PlainMore | contrib/argp-standalone/argp-parse.c:1058-1077 | skipping a further argument after an exchange keeps the invariant: meaning, partition and places in argv |
| ArgpState.QuoteSkipped | contrib/argp-standalone/argp-parse.c:1091-1113 | `--` with skipped arguments leaves argv rearranged and the arguments in order |
| ArgpState.EndSkipped | contrib/argp-standalone/argp-parse.c:1027-1043 | the end of the line with skipped arguments leaves argv rearranged and the arguments in order |
| ArgpParser.Parser.ParseArg | contrib/argp-standalone/argp-parse.c:755-801 | an argument is offered to the groups in order, alone and then with all that follow, until one takes it; `next` moves by what was taken |
| ArgpParser.Parser.ParseShort | contrib/argp-standalone/argp-parse.c:952-1012 | the short option branch keeps the invariant and shortens the cluster, or ends as the meaning says |
| ArgpParser.Parser.ParseLong | contrib/argp-standalone/argp-parse.c:1115-1189 | the long option branch keeps the invariant and advances, or ends as the meaning says |
| ArgpParser.Parser.ParseNext | contrib/argp-standalone/argp-parse.c:935-1200 | a step keeps the invariant and decreases (options left, argv left, cluster left), or ends as the meaning says; the assertions of the code hold |
| ArgpParser.Parser.Parse | contrib/argp-standalone/argp-parse.c:1244-1250 | the loop ends, in all three orderings |
| ArgpParser.ArgpParse | contrib/argp-standalone/argp-parse.c:1207-1254 | calls, error, suppression and remaining arguments are the meaning of the command line; argv keeps its elements, is untouched when parsed in order, and else holds the options with their values, `--`, the skipped arguments and the rest |
| ArgpLines.LongWithValue | contrib/argp-standalone/argp-parse.c:1115-1189 | `--name=v` calls the option of that name, or the only one it abbreviates, with all of v, if it takes a value, and else is an error; so does `-name=v` with ARGP_LONG_ONLY |
| ArgpLines.LongAlone | contrib/argp-standalone/argp-parse.c:1139-1189 | `--name` calls it without a value if it takes none or need not have one, else with the next element as its value; without a next element it is an error |
| ArgpLines.LongUnknown | contrib/argp-standalone/argp-parse.c:1123-1134 | a name that is no option's and abbreviates none, or several, is an error, with or without a value |
| ArgpLines.ShortWithValue | contrib/argp-standalone/argp-parse.c:952-1012 | `-cv` calls the first option with key c with the value v, if it takes one |
| ArgpLines.ShortAlone | contrib/argp-standalone/argp-parse.c:952-1012 | `-c` calls it without a value if it takes none or need not have one, else with the next element; without a next element it is an error |
| ArgpLines.ShortCluster | contrib/argp-standalone/argp-parse.c:952-1012 | `-cmore` with an option that takes no value is `-c` and then `-more` |
| ArgpLines.ShortUnknown | contrib/argp-standalone/argp-parse.c:952-1012 | a character that is no option's key is an error, and one outside ASCII fails an assertion |
| ArgpLines.PlainOrQuote | contrib/argp-standalone/argp-parse.c:1058-1113 | "-" and what does not begin with a dash are plain arguments, put aside, offered or ending the options as the ordering says; `--` ends the options |
| ArgpTheorems.ScanIsStable | contrib/argp-standalone/argp-parse.c:812-867 | the line is an interleaving of its options and its plain arguments, each in order, followed by the untouched rest |
| ArgpTheorems.RearrangingKeepsMeaning | contrib/argp-standalone/argp-parse.c:935-1200 | parsing the rearranged line again makes the same calls and ends the same way |
| ArgpTheorems.ErrorsShowIffNotInOrder | contrib/argp-standalone/argp-parse.c:952-1012 | an option's error is reported for every table, parser and line exactly when arguments are not parsed in order |
| ArgpTheorems.SuppressedWhen | contrib/argp-standalone/argp-parse.c:952-1189 | when they are, for every line that stops: its error is suppressed exactly when the option is short, its parser does not know it, and a plain argument came before it with no long option in between |
| ArgpConvert.CalcSizes | contrib/argp-standalone/argp-parse.c:525-548 | counts the groups and the child inputs of a tree |
| ArgpConvert.SizesAgree | contrib/argp-standalone/argp-parse.c:436-548 | the groups filled are exactly as many as were counted, for every tree |
| ArgpConvert.InputsFit | contrib/argp-standalone/argp-parse.c:436-548 | the child inputs used fit those counted, and use them up exactly when no parser without a group has children |
| ArgpConvert.InputsDisjoint | contrib/argp-standalone/argp-parse.c:464-474 | the child inputs of different groups do not overlap |
| ArgpConvert.ParentsLinked | contrib/argp-standalone/argp-parse.c:456-479 | a parent link points to an earlier group that has the parser as the child with that index |
| ArgpConvert.GroupsAre | contrib/argp-standalone/argp-parse.c:436-485 | the groups are, in pre-order, exactly the parsers of the tree that have options or a parser function |
| ArgpConvert.ChildrenAreLinked | contrib/argp-standalone/argp-parse.c:456-485 | every child with a group of a parser with a group is linked to that group under its number among the children |
| ArgpConvert.ConvertOptions | contrib/argp-standalone/argp-parse.c:436-485 | fills the group array in pre-order from the given place, and nothing else |
| ArgpConvert.ParserConvert | contrib/argp-standalone/argp-parse.c:492-512 | end to end for every tree: the groups are its parsers with options or a parser function in pre-order; a group has child inputs exactly when its parser has children, within the counted slots; parents come before children, and every child is linked to its parent's group |
| ArgpHol.NextIsFirst | contrib/argp-standalone/argp-help.c:551-574 | comparing with the next listed short option recognises exactly the first option with a key |
| ArgpHol.MakeHol | contrib/argp-standalone/argp-help.c:437-503 | one entry per option with its aliases, every short option once, entries where their short options start |
| ArgpHol.HolAppend | contrib/argp-standalone/argp-help.c:834-919 | the list of both, in which the options of the first shadow those of the second |
| ArgpHol.ArgpHol | contrib/argp-standalone/argp-help.c:1365-1384 | the list of a whole tree holds its options in pre-order and every short option once |
| ArgpHol.ShortIterate | contrib/argp-standalone/argp-help.c:551-574 | the listed options of an entry are exactly those that are the first with their key; the callback gets the visible ones, each with the option it stands for |
| ArgpHol.AgreeIffDocsHarmless | contrib/argp-standalone/argp-help.c:834-919 | the parser dispatches every listed key to the option it is listed for exactly when no OPTION_DOC entry with that key comes first |
| ArgpHol.HelpAgreesWithParser | contrib/argp-standalone/argp-help.c:1365-1384 | for every tree: the listed short options are exactly the printable keys of options that are no mere documentation, none twice; the listed options are those of the parser's groups, and without printable OPTION_DOC keys help and parser agree |
| ArgpUsage.ArgsLevels | contrib/argp-standalone/argp-help.c:1388-1403 | the number of counters is the number of parsers with several alternatives |
| ArgpUsage.LinesMakeUp | contrib/argp-standalone/argp-help.c:1419-1432 | the alternatives of a documentation string make it up, and none has a newline |
| ArgpUsage.RankUnique | contrib/argp-standalone/argp-help.c:1409-1462 | different combinations have different places in the order of printing |
| ArgpUsage.TurnCounts | contrib/argp-standalone/argp-help.c:1443-1461 | turning the counters goes to the next place, or from the last back to the first with a carry |
| ArgpUsage.ArgsUsage | contrib/argp-standalone/argp-help.c:1409-1462 | prints the pattern of the current combination, turns exactly the counters of this tree and reports whether more follow |
| ArgpUsage.UsagePatterns | contrib/argp-standalone/argp-help.c:1599-1648 | prints every combination of alternatives exactly once and stops after their product |
| MountOptions.UnescapeEscape | contrib/fuse-util/fusermount.c:686-690 | unescaping undoes escaping commas and backslashes |
| MountOptions.SplitInvertsJoin | contrib/fuse-util/fusermount.c:722-727 | splitting gives back escaped and joined options exactly when the last is not empty |
| MountOptions.PrefixWithin | contrib/fuse-util/fusermount.c:556-562 | a prefix found at an option lies within it, so the length left is never negative |
| MountOptions.FindMountFlag | contrib/fuse-util/fusermount.c:571-607 | the flag of each of the thirteen names and whether it is set or cleared; suid and dev have no effect unless root gives them |
| MountOptions.RefusedIff | contrib/fuse-util/fusermount.c:734-768 | the options are refused exactly when one of them needs a privilege the user lacks |
| MountOptions.LastMentionWins | contrib/fuse-util/fusermount.c:769-774 | a flag is set as its last effective mention says, else only nosuid and nodev are set |
| MountOptions.FlagsByName | contrib/fuse-util/fusermount.c:571-607 | for every option list, by name: read-only exactly when the last of ro and rw is ro; so for noexec and exec, sync and async, noatime and atime; dirsync exactly when it is given; for root nosuid and nodev unless the last of suid and nosuid, dev and nodev clears them, and for others always |
| MountOptions.UsersStaySafe | contrib/fuse-util/fusermount.c:588-607 | without root, nosuid and nodev are set whatever the options |
| MountOptions.NamesAre | contrib/fuse-util/fusermount.c:728-733 | fsname and subtype are the unescaped values of their last options |
| MountOptions.SwitchesAre | contrib/fuse-util/fusermount.c:734-743 | the two switches are set exactly when their option is there |
| MountOptions.TextSplitsBack | contrib/fuse-util/fusermount.c:775-779 | splitting the copied text gives exactly the options passed on, in order, exactly when the last of them does not end in a lone backslash |
| MountOptions.FsnameRoundTrip | contrib/fuse-util/fusermount.c:669-693 | any file system name comes through escaping, joining, splitting and folding unchanged |
| MountOptions.OptionLength | contrib/fuse-util/fusermount.c:722-727 | the inner loop finds the end of the option |
| MountOptions.GetStringOpt | contrib/fuse-util/fusermount.c:669-693 | the value is the unescaped text after the prefix |
| MountOptions.ParseOption | contrib/fuse-util/fusermount.c:728-781 | each branch changes the settings as the option says or refuses it |
| MountOptions.ParseOptions | contrib/fuse-util/fusermount.c:712-786 | the loop folds the split options; the copied text is at most one longer than the string; every flag is as FlagsByName says for the options the string splits into |
| Memrchr.Found32 | contrib/libgen/dirname_r.c:120-131 | the magic-bits test fires for every 4-byte word that has the byte |
| Memrchr.Found64 | contrib/libgen/dirname_r.c:120-131 | for 8-byte words it fires when the low half, which the mask covers, has the byte |
| Memrchr.FiresIfFound | contrib/libgen/dirname_r.c:120-146 | for words of either size and either byte order, a word that does not fire does not have the byte among its first four, except for 127 and 255 in 8-byte big-endian words |
| Memrchr.BigMisses | contrib/libgen/dirname_r.c:120-131 | words that show the exception for both bytes |
| Memrchr.LastOfIsLast | contrib/libgen/dirname_r.c:35-39 | what the last occurrence is |
| Memrchr.SearchWord | contrib/libgen/dirname_r.c:120-148 | one word finds the last occurrence among its first four bytes or passes on |
| Memrchr.MemRChr | contrib/libgen/dirname_r.c:35-160 | for every alignment, length and byte order: with 4-byte words the last occurrence; with words of either size exactly when that occurrence is looked at |
| Memrchr.EightMisses | contrib/libgen/dirname_r.c:136-146 | an aligned string whose only slash 8-byte words miss |
| Dirname.DirNameSplits | contrib/libgen/dirname_r.c:186-242 | a path made of directory, slashes, name and slashes has that directory part, "/" or "//" if it is empty |
| Dirname.SplitOf | contrib/libgen/dirname_r.c:186-242 | every other path with a directory part can be taken apart so |
| Dirname.DirNameOfRoot | contrib/libgen/dirname_r.c:218-229 | a path of slashes only is "/", or "//" if there are two |
| Dirname.DotIffNoSlash | contrib/libgen/dirname_r.c:235-239 | the answer is "." exactly when no slash comes before the last name |
| Dirname.DirNameIffRunSeen | contrib/libgen/dirname_r.c:195-207 | with words of either size the answer is the directory part exactly when the search looks at some slash of the last run before the name, or is not needed |
| Dirname.LostDirectory | contrib/libgen/dirname_r.c:195-207 | with 8-byte words the directory part of "aaaa/bbb/" at an aligned address is lost: the answer is "." |
| Dirname.DirnameR | contrib/libgen/dirname_r.c:186-242 | either "." and the string untouched, or the string cut off and untouched elsewhere; what is left is the directory part always with 4-byte words, and with words of either size exactly when the last run of slashes is looked at |

## Left out

- The graph switch is a state machine on values: update in place and aliasing of `struct glfs` are not modelled; each step between two points where the mutex changes hands is atomic.
- Inode reference counts, which the early exits of `glfs_migrate_fd_safe` and `priv_glfs_resolve_at` do not balance.
- Lock-state transfer in `glfs_migrate_fd_locks_safe`, an exchange of opaque attributes.
- A null gfid that becomes known while a switch is in progress.
- NoDeadlock: takes a thread asleep on the condition variable as able to step; NeverStuckIffNoCallback is the statement with sleeping threads. Fairness, that a thread able to step does step, is not modelled.
- The explicit PARENT_DOWN of `glfs_fini`, and the out-of-memory exits.
- `ESTALE_RETRY` and the retry of `pub_glfs_link`, whose counter is not a bound.
- Truncation of link targets at 4096 bytes, `loc_touchup`, and errno.
- Changes on the server during one resolution; a lookup with a stale gfid is assumed to fail.
- PathTable.InodeTable.ResolveAt: without forced lookups, equality with the server's walk is stated for a coherent cache of a namespace whose directory entries form no cycle, as those of a file system do.
- Directory entries with cookie 0, and entries added or removed while a directory is read.
- User parsers of argp that move `next` or change argv; the guards against that are proved never to fire.
- A parser of argp without an option table, whose null table both option searches follow.
- The INIT calls of `parser_init` and the NO_ARGS, END, ERROR, SUCCESS and FINI calls of `parser_finalize`: they come before and after the parse loop and do not touch argv or `next`.
- The size of the short option string in `calc_sizes`, which counts differently from `convert_options`.
- Clusters and the sorting of the help list: `hol_entry_cmp` is not a total order.
- A callback of `hol_entry_short_iterate` that stops the iteration early.
- MemRChr: with 8-byte big-endian words and the bytes 127 and 255, which the test can miss (BigMisses), only states that what is found is an occurrence.
- Usage counters are unbounded; the code keeps them in a char.
- Line wrapping in `argp-fmtstream.c`, message texts, and translation.
- Building the mtab string in `get_mnt_opts`, and the mount call itself.
- The kernel version test behind `large_read` is a parameter.
- `api/src/glfs-mgmt.c`, the POSIX wrappers of `glfs-fops.c` and `glfs-handleops.c`, the CLI and all translators.
