# Verified models of the Bsd command-line tools

This project models, in Dafny, the parts of the Bsd tools that decide something and are easy to get wrong, and
proves what users rely on. Every model follows the C++ code branch by branch; where the code does not meet what its
documentation says, the code is modelled as it is, an input or a run that shows it is given, and the exact condition
under which it does meet it is proved.

`dafny verify dfyconfig.toml` checks everything.

## What is proved

* **Versions and upgrades** (`Versions`, `Packages`, `Selection`, `Upgrade`). The version comparison is a total
  preorder on all strings, including versions with digit runs too large for an `int`, and it is the first differing
  component that decides. The search for a replacement is "filter, then the earliest best by priority and version";
  in all four modes a second upgrade changes nothing.
* **Selectors** (`Selectors`, `Filter`). One match per package name, the earliest best by system, priority and
  version; a filter returns exactly the elements asked for, none twice, and fails exactly for an unmatched selector.
* **Profile transactions** (`EnvOperations`, `ProfileTransactions`, `ProfileSerialisation`, `ProfileExactness`,
  `ProfileRuns`). Any number of processes that install, upgrade, uninstall and set flags on one profile, with
  generations being deleted and switched, processes stopping at any point, processes that go on without the lock
  after a signal, and other commands that change the profile without looking at the lock. In all these runs a commit
  is its operation applied to what the profile shows at that instant if its elements were read where the link is and
  nothing has been done to that generation since; for operations that put packages of their own in front, such as
  concurrent installations, if and only if. From any point on after which this holds of all commits, the profile shows
  the sequential composition of the operations committed since. While the lock is honoured it holds of every commit
  with no backward switch since its token was read. Runs are given in which it fails: a switch back after the elements
  were read elsewhere, a generation that is deleted and made again under the same number, and a signal. Each process
  commits at most once, and a restart means that somebody else got through. Installing twice is installing once
  exactly if no new element would survive its own installation.
* **The lock file** (`LockFile`, `LockFileExact`). It is removed by the process that leaves and made again by the next
  one, with a mark for those who wait for the removed file. A step is harmful if a signal ends the waiting for a file
  that is not marked while another process lives, or if a process dies between removing and marking its file while one
  process has opened that file and another one lives that has not. After any run without harmful steps, the next step
  can lead to two processes inside, with no harmful steps after it, if and only if it is harmful. Signals that end the
  waiting for a marked file are harmless.
* **Build hooks** (`LockNames`, `MachineChoice`, `BuildHook`, `HookProtocol`, `HookLoads`). Any number of hooks, with
  signals and crashes: slots are exclusive, a machine never gets more than `maxJobs` hooks, the loads counted by a
  hook that probes alone are never underestimates, the chosen machine is the earliest best one for any way of
  computing quotients, hooks only connect to enabled machines of the right type, every request gets one answer, and
  disabled machines stay disabled. The blocking lock call returns without the lock when a signal arrives, and the hook
  does not look at its result; exclusiveness and capacity are proved for that case too, and a run is given in which
  the count is wrong because of it. Machines whose URIs differ only in `/` against `_` share slots; a run is given in
  which a hook then counts the slot it keeps itself.
* **why-depends** (`Distances`, `PopOrders`, `FinalDistances`, `AddressOrders`, `Printing`, `WhyDepends`,
  `PrintedPaths`, `LongerPath`). The comment in the code says Dijkstra, but nodes are popped in the order of their
  addresses and pushed only once. In every order a distance is shortest if and only if the node is the dependency or
  some reference on its shortest walks was popped at its own shortest distance. All orders by address pop every node
  at its shortest distance if and only if no node has a detour around the references on its shortest walks; all
  distances end up shortest already if no node that others refer to has one. Every order is the one of some addresses.
  References are printed by distance and then by store path, so one path is printed; it is a shortest one if and only
  if at every node on it a reference on the shortest walks comes first. The documentation promises a shortest path: a
  closure and addresses are given for which a longer one is printed. With `--all` exactly the edges on walks to the
  dependency are printed.
* **Interactive evaluator** (`ReplScope`, `Completion`). The append-only slots and the sorted index stand for a map in
  which the last binding wins, after any commands, and what was resolved before keeps its value.
* **Templates** (`Templates`, `TemplatePlaces`, `TemplateLandings`, `TemplateLinks`). Copying changes nothing that
  exists. A symbolic link that leads to a directory is followed, so that a copy may write where the template has
  nothing; shown for any such link and any name that is free behind it. For all destinations, what is written are
  exactly the places that the nodes of the template go to. Where that does not depend on the order of the copy, it can
  be told from the destination before the copy, and so can exactly whether the copy stays within the paths of the
  template. If no such link stands where the template has a directory, these are the paths of the template, every node
  is treated exactly as it should be, and the copy fails exactly if something is in the way. A second run writes
  nothing, but it lists every subdirectory as written, because the code lists subdirectories whether or not they were
  there.
* **Smaller parsers and decisions**: `ShellWords` (quotes and escapes of a `#!` line), `Trust` (signature quorum with
  early exit), `Channels` and `ChannelRoundTrip` (the channel file), `ProfileManifest` (naming and JSON),
  `ManifestDiff` (what has changed between two manifests).

## Model

| member | source | states |
|---|---|---|
| Versions.ParseDrvName | src/libstore/names.cc:27-38 | a name splits at the first dash not followed by a letter |
| Versions.NextComponent | src/libstore/names.cc:59-78 | reads exactly the next component: separators skipped, then a maximal run of digits or of other characters |
| Versions.ComponentsLTIsKeyOrder | src/libstore/names.cc:81-94 | the branches amount to one order: `pre`, then end of version, then text, then numbers |
| Versions.CompareVersions | src/libstore/names.cc:97-110 | the loop compares component by component, the shorter version continued with empty components |
| Versions.CompareFlips | src/libstore/names.cc:97-110 | comparing the other way round gives the opposite answer, for all strings |
| Versions.CompareTransitive | src/libstore/names.cc:97-110 | "not newer than" is transitive for all strings, strictly if one step is strict |
| Versions.CompareMeaning | src/libstore/names.cc:97-110 | a tie exactly if all components mean the same; otherwise the first difference decides, both directions |
| Packages.PreferenceIsOrder | src/bsd-env/bsd-env.cc:214-217 | priority, then version, is a total preorder on packages |
| Selection.Choose | src/bsd-env/bsd-env.cc:644-668 | keeping the best so far yields the earliest greatest suitable element, or none if none suits |
| Selection.BestStays | src/bsd-env/bsd-env.cc:644-668 | a chosen element is only ever replaced by itself |
| Upgrade.TryCandidate | src/bsd-env/bsd-env.cc:647-666 | one candidate displaces the best so far exactly if it is admissible, usable and strictly preferred |
| Upgrade.FindReplacement | src/bsd-env/bsd-env.cc:644-668 | the loop finds the earliest best of the admissible, usable candidates |
| Upgrade.UpgradeDerivations | src/bsd-env/bsd-env.cc:626-685 | every installed element is replaced or kept as specified, in order |
| Upgrade.UpgradeKeeps | src/bsd-env/bsd-env.cc:626-685 | length, order and names stay, kept elements are untouched, priority never drops, versions never go down under `--lt` and `--leq`, replacements are the earliest best |
| Upgrade.UpgradeIdempotent | src/bsd-env/bsd-env.cc:606-694 | in all four modes a second upgrade with the same available elements changes nothing |
| Selectors.CompareMatches | src/bsd-env/bsd-env.cc:291-298 | the comparison is: built for this system, then priority, then version |
| Selectors.NewestOrderIsOrder | src/bsd-env/bsd-env.cc:268-274 | that comparison is a total preorder |
| Selectors.ScanNewest | src/bsd-env/bsd-env.cc:280-308 | the map holds for every name seen so far the earliest best match |
| Selectors.PickNewestOnly | src/bsd-env/bsd-env.cc:275-320 | exactly one match per package name, the earliest best, in name order |
| Filter.NewestOfExact | src/bsd-env/bsd-env.cc:310-319 | a match is in that result exactly if it is the earliest best of its name |
| Filter.FilterBySelector | src/bsd-env/bsd-env.cc:324-370 | fails exactly if a selector other than `*` matches nothing, naming the first; otherwise the contributions of the selectors without repetitions |
| Filter.FilterExact | src/bsd-env/bsd-env.cc:344-352 | the result holds no element twice and exactly the elements that some selector asks for |
| EnvOperations.InstallDerivations | src/bsd-env/bsd-env.cc:528-563 | new elements first, then the installed ones that survive |
| EnvOperations.InstallIdempotentIff | src/bsd-env/bsd-env.cc:545-567 | installing twice is installing once exactly with `--remove-all`, or if nothing is preserved and no new element is marked `keep` |
| EnvOperations.SetFlag | src/bsd-env/bsd-env.cc:731-743 | exactly the matched elements get the flag; a selector counts a hit exactly if it is the first to match some element |
| EnvOperations.UninstallDerivations | src/bsd-env/bsd-env.cc:804-832 | exactly the elements that nothing removes are left, each as often as before |
| ProfileTransactions.StepKeepsValid | src/bsd-env/user-env.cc:157-172 | every step of every process, with or without the lock, and every deletion, switch and change by others keeps what plans and checks say: what was read is still there unless something was done to it, the link is the token unless it was moved since the check, and the new generation is in place unless somebody else touched it |
| ProfileTransactions.CommitsAreCurrent | src/bsd-env/user-env.cc:157-170 | in all runs, for every commit by itself: it is its operation applied to what the profile shows at that instant if its elements were read where the link is and nothing has been done to that generation since; the link is its token if nothing moved it between the check and the commit; and its result is shown if nobody else touched its generation |
| ProfileSerialisation.HonouredIsOrderly | src/libstore/profiles.cc:121-300 | in every run that honours the lock, the link is the token at every commit, nobody interferes with its generation, and making and deleting generations changes nothing that is shown |
| ProfileSerialisation.Serialisation | src/bsd-env/bsd-env.cc:545-575 | in all runs, from any event on after which every commit was read from what it replaces and nothing else changed what is shown, the profile shows the sequential composition of the operations committed since, in commit order |
| ProfileSerialisation.ForwardReadsShown | src/bsd-env/user-env.cc:157-170 | in every run that honours the lock, with any deletions and switches, a commit with no backward switch since its token was read was read from what it replaces |
| ProfileSerialisation.ForwardSerialisation | src/bsd-env/bsd-env.cc:545-575 | in every run that honours the lock and has no switches, with any deletions, the profile shows the sequential composition of all committed operations |
| ProfileSerialisation.ExactlyOnce | src/bsd-env/bsd-env.cc:691-693 | in all runs the finished processes are exactly the committed ones, each committed once |
| ProfileSerialisation.RestartMeansProgress | src/bsd-env/user-env.cc:161-165 | in all runs a process finds its token changed only if a commit, a switch or a change by others happened since it read it |
| ProfileExactness.CurrentIffReadsShown | src/bsd-env/user-env.cc:157-170 | in all runs without changes by others, with any switches, deletions and signals: if every process puts a package of its own in front and the first generations differ, a commit is its operation applied to what is shown, if anything is, exactly if its elements were read where the link is and nothing has been done to that generation since |
| ProfileRuns.InstallsPutInFront | src/bsd-env/bsd-env.cc:545-563 | concurrent installations of different packages, nothing of what is there being replaced, are such operations |
| ProfileRuns.ReadElsewhere | src/libstore/profiles.cc:266-294 | for any two packages, a run that honours the lock, in which the elements are read before a switch back to the token: the commit is not its operation applied to what is shown |
| ProfileRuns.ReadBeforeRemade | src/libstore/profiles.cc:76-119 | for any two packages, a run that honours the lock, in which the generation that was read is deleted and its number is used again before the commit, which is stale although the link is its token |
| ProfileRuns.InterruptionLosesCommit | src/libstore/ubsd/pathlocks.cc:96-106 | for any two packages, a run in which a signal lets a process go on without the lock and the other's commit is lost |
| LockFile.StepKeepsValid | src/libstore/ubsd/pathlocks.cc:71-148 | every orderly step of every process, with signals that end the waiting for a marked file, keeps the invariant that ties the file that has the name, the marks and the locks to where the processes are |
| LockFile.MutualExclusion | src/libstore/ubsd/pathlocks.cc:71-148 | in all runs in which nobody dies between removing and marking a file that others have opened and signals end waiting for marked files only, at most one process is between locking and unlocking, and it holds the lock of the file that has the name |
| LockFileExact.CrashLetsTwoIn | src/libstore/ubsd/pathlocks.cc:29-40 | in every state that the invariant allows: wherever a process dies after removing the file and before marking it, while one waits for it and another one lives that has not opened it, two can get inside, without further signals or crashes |
| LockFileExact.SignalLetsTwoIn | src/libstore/ubsd/pathlocks.cc:50-57 | in every state that the invariant allows: wherever a signal ends the waiting for a file that is not marked, while another process lives, two can get inside, without further signals or crashes |
| LockFileExact.HarmlessExcludes | src/libstore/ubsd/pathlocks.cc:71-148 | in all runs without harmful steps at most one process is inside |
| LockFileExact.TwoInsideIff | src/libstore/ubsd/pathlocks.cc:29-148 | after any run without harmful steps, the next step can lead to two processes inside, with no harmful steps after it, exactly if it is harmful: a signal while waiting for an unmarked file with another process alive, or a death before marking a file with one process that has opened it and one alive that has not |
| LockFileExact.HarmfulIffDisorderly | src/libstore/ubsd/pathlocks.cc:29-148 | while another process is outside, the harmful steps of an orderly run are exactly those that are not orderly |
| LockNames.SlotLockNames | src/build-remote/build-remote.cc:32-43 | two slots share a lock file exactly if number and escaped URI agree; none shares the main lock |
| MachineChoice.BeatsIsLess | src/build-remote/build-remote.cc:163-176 | for any way of computing the quotients, rounded or not, the nested tests are one lexicographic comparison: load for speed, then speed, then load |
| MachineChoice.ThirdNeverDecides | src/build-remote/build-remote.cc:171-175 | with exact quotients the third tie-break never decides |
| MachineChoice.ProbeMachine | src/build-remote/build-remote.cc:148-159 | counts the slots held and keeps the first free one |
| MachineChoice.HeldCountMeaning | src/build-remote/build-remote.cc:149-159 | the load is the number of slots that could not be locked |
| MachineChoice.ChooseMachine | src/build-remote/build-remote.cc:135-183 | the nested loops find the earliest best machine, and whether any enabled machine is of the right type |
| MachineChoice.BestGrows | src/build-remote/build-remote.cc:163-181 | the best machine so far is displaced exactly by an available one that beats it |
| BuildHook.Hook.HandleTry | src/build-remote/build-remote.cc:130-254 | one answer per request, at most one failed connection per enabled machine, each of which disables exactly the machine chosen |
| BuildHook.Hook.Serve | src/build-remote/build-remote.cc:98-254 | requests are answered one by one until one is accepted; machines are only ever disabled; without machines the answer is permanent |
| BuildHook.PostponeMeans | src/build-remote/build-remote.cc:185-187 | postponed only if a local build is not possible now and every slot of every enabled machine of the right type was held, of which there is one |
| BuildHook.AcceptMeans | src/build-remote/build-remote.cc:142-183 | the machine accepted is the earliest lexicographic best among those enabled, of the right type, with a free slot, for any way of computing the quotients |
| BuildHook.DisabledForGood | src/build-remote/build-remote.cc:243-250 | once all machines are disabled every later request is declined |
| HookProtocol.StepKeepsHook | src/build-remote/build-remote.cc:130-252 | every step acquires only free locks, releases only its own, and keeps the hook's variables consistent with what was probed |
| HookProtocol.RunKeepsValid | src/build-remote/build-remote.cc:130-254 | in every interleaving, with signals and crashes, lock table and variables agree |
| HookProtocol.SlotsAreExclusive | src/build-remote/build-remote.cc:150-183 | no two hooks hold the same slot; a hook past selection holds exactly its slot |
| HookProtocol.OnlyEligibleMachines | src/build-remote/build-remote.cc:142-181 | in every run, a hook connects to and builds on machines only that are enabled and of the right type for its request |
| HookProtocol.EnabledOnlyShrink | src/build-remote/build-remote.cc:243-250 | in every run, a failed connection leaves its hook one enabled machine less, and no other step changes which are enabled |
| HookProtocol.Capacity | src/build-remote/build-remote.cc:150-159 | at most `maxJobs` hooks are connecting to or building on a machine, whether or not the main lock was honoured |
| HookLoads.HonouredNotCrowded | src/build-remote/build-remote.cc:132-134 | while the main lock is honoured every hook probes alone |
| HookLoads.LoadsAreUpperBounds | src/build-remote/build-remote.cc:132-159 | in all runs, for a hook that has probed alone since it began, the slots others hold are among those counted |
| HookLoads.WhatIsCounted | src/build-remote/build-remote.cc:150-158 | in all runs, a slot counted as load is held by a hook past selection, by another hook that is probing at that moment, or by the prober itself as its best slot so far, and exactly which; if the prober has probed alone, no other hook is probing |
| HookLoads.CountedSlotsAreCommitted | src/build-remote/build-remote.cc:150-158 | in all runs, with distinct escaped URIs every counted slot is held by another hook, which is past selection exactly if it is not probing at that moment, as it is not if the prober has probed alone |
| HookLoads.OwnSlotCounted | src/build-remote/build-remote.cc:32-43 | for any two machines with the same escaped URI, a run of one hook that counts the slot it keeps itself |
| HookLoads.DecisionIsBest | src/build-remote/build-remote.cc:160-187 | the machine kept is the earliest best by the counted loads; if none is kept, all slots of all candidates were found held |
| HookLoads.InterruptionMiscounts | src/libstore/ubsd/pathlocks.cc:50-57 | a run in which a signal lets a second prober in, who counts a slot held by a prober only |
| Distances.PopsAreDistinct | src/bsd/why-depends.cc:143-164 | in every order no node is popped twice, so the search ends |
| Distances.AnyOrder | src/bsd/why-depends.cc:141-164 | in every order exactly the paths that reach the dependency get a distance; it is the length of a walk and at least the shortest; `prev` descends strictly |
| Distances.NearestFirstIsShortest | src/bsd/why-depends.cc:141-164 | if the nearest node is popped first all distances are shortest |
| FinalDistances.ShortestIff | src/bsd/why-depends.cc:141-164 | in every order and at any time, a distance is shortest exactly if the node is the dependency or some reference on its shortest walks was popped at its own shortest distance |
| FinalDistances.NoSharedDetoursShortest | src/bsd/why-depends.cc:141-164 | if only nodes that no other node refers to have a detour, every order ends with shortest distances |
| AddressOrders.DetourPopsInexactly | src/bsd/why-depends.cc:143-148 | for every node with a detour there are addresses for which the greatest-address order pops it too early |
| AddressOrders.PopsExactIff | src/bsd/why-depends.cc:143-148 | all addresses pop every node at its shortest distance exactly if no node has a walk around the references on its own shortest walks |
| AddressOrders.OrderIffByAddress | src/bsd/why-depends.cc:143-148 | an order of pops is possible exactly if there are distinct addresses for which the greatest one in the queue is always popped |
| WhyDepends.Transpose | src/bsd/why-depends.cc:136-139 | the reverse references are exactly the referrers |
| WhyDepends.Command.PopNode | src/bsd/why-depends.cc:148-163 | one pop improves exactly the referrers it brings nearer and pushes those not pushed before |
| WhyDepends.Command.ComputeDistances | src/bsd/why-depends.cc:143-164 | the loop performs some order of pops until the queue is empty |
| WhyDepends.SortByDistance | src/bsd/why-depends.cc:193-204 | the references to print, each once, nearest first, and of equally near ones the least store path first |
| WhyDepends.Command.PrintNode | src/bsd/why-depends.cc:174-289 | either bails out at the dependency having printed a path of nearest references, or prints every edge below the newly visited nodes once |
| WhyDepends.Command.Run | src/bsd/why-depends.cc:127-297 | with `--all` exactly the edges on walks from package to dependency, each once, apart from self references; otherwise a path of nearest references |
| Printing.PrintsEdgesOnWalks | src/bsd/why-depends.cc:166-170 | an edge is printed exactly if it lies on some walk from the package to the dependency |
| Printing.GreedyDecreases | src/bsd/why-depends.cc:186-205 | along the printed path distances strictly decrease, so it ends after at most the package's distance |
| PrintedPaths.PrintedPathQuality | src/bsd/why-depends.cc:186-288 | in every order of pops no other path can be printed; it is a walk to the dependency no longer than the computed distance; it is a shortest one exactly if at every node on it a reference on the shortest walks of that node comes before all others that are not, and so if a reference on the shortest walks of the package was popped exactly, if nearest first, or without shared detours |
| PrintedPaths.OnePath | src/bsd/why-depends.cc:193-204 | in every order of pops exactly one path can be printed from any node that reaches the dependency |
| LongerPath.PrintedPathNotShortest | src/bsd/why-depends.cc:143-163 | a closure and distinct addresses, popped greatest first, for which a path of 5 references is printed although there is a walk of 4 |
| ReplScope.StableSort | src/libexpr/include/bsd/expr/bsdexpr.hh:499-503 | sorted by name, the entries of every name in their old order |
| ReplScope.Deduplicate | src/libexpr/include/bsd/expr/bsdexpr.hh:505-514 | names become unique, each keeping its last entry |
| ReplScope.Find | src/libexpr/include/bsd/expr/bsdexpr.hh:516-522 | finds a name exactly if it is in the index |
| ReplScope.Rebind | src/libcmd/repl.cc:855-858 | the index stays unique, the name denotes the new value and all others what they did |
| ReplScope.Repl.AddVarToScope | src/libcmd/repl.cc:851-861 | refused exactly when all slots are used; otherwise binds the name, and no used slot changes |
| ReplScope.Repl.AddAttrsToScope | src/libcmd/repl.cc:813-828 | refused exactly when no slot would stay unused; otherwise binds all attributes, and no used slot changes |
| ReplScope.Repl.InitEnv | src/libcmd/repl.cc:752-762 | a fresh empty environment; the old one is not touched |
| ReplScope.Repl.RunCommands | src/libcmd/repl.cc:784-861 | after any commands the scope stands for the map in which the last binding wins, and slots used before keep their values |
| ReplScope.Repl.Resolve | src/libcmd/repl.cc:864-867 | a name resolves exactly if it is bound, to a slot that holds its value |
| Completion.CompleteVariable | src/libcmd/repl.cc:255-262 | exactly the names with the prefix, in order |
| ShellWords.ShellWords | src/bsd-build/bsd-build.cc:41-94 | the slices between two positions compute what a machine computes that reads one character at a time |
| ShellWords.ParseInvertsRender | src/bsd-build/bsd-build.cc:38-40 | any nonempty list of words, each in single quotes, in double quotes or escaped, with any white space between them, is read back unchanged |
| Trust.DoSigs | src/bsd/verify.cc:131-137 | adds exactly the valid signatures not seen before, up to the bound |
| Trust.CheckTrust | src/bsd/verify.cc:120-157 | trusted exactly if ultimate with no quorum asked, content-addressed in some responding store, or enough distinct valid signatures in all of them |
| Trust.OrderIrrelevant | src/bsd/verify.cc:143-153 | the order of the substituters does not matter |
| Channels.Tokenize | src/libutil/include/bsd/util/strings-inline.hh:8-20 | the positions found cut out exactly the pieces between separators |
| Channels.ReadChannels | src/bsd-channel/bsd-channel.cc:27-41 | the loop loads what the lines say, a later line for a name winning |
| Channels.WriteChannels | src/bsd-channel/bsd-channel.cc:44-51 | one line for every channel, in the order of the names |
| Channels.AddChannel | src/bsd-channel/bsd-channel.cc:53-63 | which error comes when; otherwise the file for the old channels with the new one |
| ChannelRoundTrip.FitReadsBackIff | src/bsd-channel/bsd-channel.cc:27-51 | for channels whose names fit on a line, the file reads back with trailing slashes removed exactly if no URL has a space or newline in it, none is empty and no line looks like a comment |
| ChannelRoundTrip.ReadsBackIff | src/bsd-channel/bsd-channel.cc:53-63 | for all channels that can be added, the file reads back with trailing slashes removed exactly if no URL has a space or newline in it |
| ChannelRoundTrip.AddedReadsBackIff | src/bsd-channel/bsd-channel.cc:27-63 | after adding to any file that can be read, exactly the old channels and the new one are read, if and only if the new URL has no space or newline, no other URL is empty and no other line looks like a comment |
| ChannelRoundTrip.SecondRoundTrip | src/bsd-channel/bsd-channel.cc:27-51 | after that, writing and reading is the identity |
| Templates.CopyExtends | src/bsd/flake.cc:906-949 | whatever happens, nothing that existed is changed |
| TemplatePlaces.CopyReportsOnlyTemplate | src/bsd/flake.cc:906-949 | for all destinations, only paths of the template are reported, even if the copy fails |
| TemplatePlaces.CopyWritesAtPlaces | src/bsd/flake.cc:906-949 | for all destinations, what is written is written where a node of the template goes, links being followed, even if the copy fails |
| TemplatePlaces.CopyWritesPlaces | src/libutil/file-system.cc:551-558 | for all destinations, a copy without errors writes exactly the places of the template that were free |
| TemplateLandings.WritesWhatLands | src/libutil/file-system.cc:551-558 | told from the destination before the copy, if links in the place of directories lead nowhere or to directories already there and no link of the template lands where a directory does: what is written lands there, as what it is, even if the copy fails; and without errors everything that lands on a free place is written |
| TemplateLandings.StaysInsideIff | src/libutil/file-system.cc:551-558 | for the same destinations, a copy without errors writes at paths of the template only, exactly if everything that lands on a free place of the destination before the copy lands on one |
| TemplateLandings.LinkIsFollowed | src/libutil/file-system.cc:551-558 | any destination with a link to a directory in the place of a template directory: the copy of a file in it succeeds and writes in the other directory, where the template has nothing |
| TemplateLinks.CopyTouchesOnlyTemplate | src/bsd/flake.cc:906-949 | if no link leads anywhere where the template has a directory: where the template has nothing, nothing is written or reported, even if the copy fails |
| TemplatePlaces.CopyIsExact | src/bsd/flake.cc:906-949 | for all destinations, a node that goes to a place of its own is written exactly if that was free, listed as written exactly if it was free or the node is a subdirectory, and a conflict exactly if something else was there, link targets being compared as paths |
| TemplateLinks.PathsAreExact | src/bsd/flake.cc:906-949 | the same for every node of the template at its own path, if no link leads anywhere where the template has a directory |
| TemplateLinks.CopySucceedsIff | src/bsd/flake.cc:908-946 | if no link leads anywhere where the template has a directory, the copy fails exactly if something in the destination is in the way, or the template has a special file |
| Templates.CopyCovers | src/bsd/flake.cc:906-949 | for all destinations, without errors every directory exists or is a link to one, and every leaf is equal or listed as a conflict |
| Templates.SecondRun | src/bsd/flake.cc:906-952 | for all destinations, a second run writes nothing, reports the same conflicts, and lists all subdirectories as written |
| Templates.SecondRunIsSilentIff | src/bsd/flake.cc:917-948 | a second run lists nothing as written exactly if the template has no subdirectory |
| Templates.Installer.CopyDir | src/bsd/flake.cc:906-949 | the recursion in place, which goes on through links to directories, does what the specification says, up to the first error |
| ProfileManifest.FreshName | src/bsd/profile.cc:194-198 | ends, with the first candidate that is not in use |
| ProfileManifest.FreshIsUnique | src/bsd/profile.cc:194-198 | the name wanted and the names in use determine that candidate |
| ProfileManifest.Manifest.AddElement | src/bsd/profile.cc:194-201 | adds exactly one element and overwrites none |
| ProfileManifest.Manifest.ToJson | src/bsd/profile.cc:209-234 | a version 3 document in which every element is written under its name |
| ProfileManifest.Manifest.Load | src/bsd/profile.cc:125-176 | fails exactly for an unknown version or an element that lacks a key it needs, missing outputs being the default ones; otherwise what the document says, by the key names of its version |
| ProfileManifest.Manifest.LoadObject | src/bsd/profile.cc:149-176 | elements kept in an object keep their names |
| ProfileManifest.Manifest.LoadArray | src/bsd/profile.cc:149-176 | of elements kept in an array none is lost, each under the first candidate not used before it |
| ProfileManifest.ManifestRoundTripIff | src/bsd/profile.cc:156-166 | what was written can be loaded, and gives the same manifest exactly if no source is locked to an empty URL |
| ManifestDiff.PrintDiff | src/bsd/profile.cc:283-316 | the merge lists exactly the names that are new, gone or have other versions, in order, with what they were and are; no changes are reported exactly if nothing is listed |

## Left out

- MachineChoice.ThirdNeverDecides: only for exact quotients; for rounded ones the third tie-break may decide, and all other statements allow for that.
- HookProtocol.Capacity: a slot's lock file is one lock for ever; slot lock files that are removed while they are locked are not modelled.
- LockFile.MutualExclusion: removing the file is assumed to succeed, and nobody but the processes removes or marks it.
- FinalDistances.NoSharedDetoursShortest: a sufficient condition on the closure; the exact conditions are about an order of pops or about all nodes when they are popped.
- EnvOperations.UninstallDerivations: the order of the elements that are left is not fixed, because the partition used does not fix it.
- ProfileTransactions.CommitsAreCurrent: reading the installed elements is one step, the profile lock is one lock, and equal lists of elements are taken to have equal output paths and different lists different ones.
- ProfileExactness.CurrentIffReadsShown: the direction from the effect to the reading is false of operations in general, since reading an old generation with the same elements, or an operation that ignores them, has the same effect; it is stated for operations that tell what they were applied to, and for a profile that shows something.
- ProfileSerialisation.RestartMeansProgress: a failing operation may stop at any point; the exact error of `--set-flag` for unused selectors, whose hits survive a restart, is not modelled.
- ProfileManifest.ManifestRoundTripIff: printing and parsing of store paths and flake references are assumed to be inverse to each other; keys with values of the wrong type are not modelled.
- Templates.CopyCovers: where a symbolic link of the destination leads, and what is read through it, does not change during the copy.
- TemplatePlaces.CopyIsExact: where links let two nodes of the template go to one place, the later one meets what the earlier one has written; nothing is said of the two beyond where they write.
- TemplateLandings.StaysInsideIff: not for destinations where links lead to directories that the copy itself makes, or where a link of the template lands in the place of a directory; for these, what is written depends on the order of the copy, as `TemplatePlaces.CopyWritesPlaces` says.
- TemplateLinks.CopySucceedsIff: with links that lead somewhere, what is in the way may have been written by the copy itself; for these destinations the exact condition is not given.
- Trust.CheckTrust: the count is of distinct signatures; the help text speaks of different keys.
- ManifestDiff.PrintDiff: lines are given by name; the identifier under which an element is printed is not modelled, and its versions are a parameter.
- `bsd-env --set` and `bsd profile` switch the link without looking at a token; in the transactions they are changes by others.
- The upload lock of a build hook, which is given up after a timeout, and everything after it: copying and building.
- Regular expressions in selectors are a parameter; a selector that is not a valid one is not modelled, nor are the suggestions printed for it.
- The `multiple` warning of the newest-only choice, which is entered under full names and looked up under short ones.
- What `bsd why-depends --precise` prints about files, and the drawing of the tree.
- Evaluation, the store, the network, downloads and the file system: only their results appear, as parameters.
- Argument parsing, help, query output, pagers and logging.
- The queries that compare versions against a set: they would only add easy members.
