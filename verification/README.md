# Verified model of the package server's dependency, service and binding logic

The server keeps a database of installed packages. Each package holds a map of errors about
its dependencies and a list of the packages that depend on it; a manager drives each service
towards the status stored in the database; config specs describe and rewrite configs; and a
network controller hands out DNS, mDNS and virtual-host bindings. This project models that
logic in Dafny and proves what it keeps over whole runs and what it computes.

The database is modelled as in-memory maps, and every committed transaction is one atomic
step. Version ranges, config actions, config checks, regular expressions and the following of
config pointers are deterministic functions passed in as parameters. Whether docker, avahi or
a socket bind succeeds is a parameter or a free choice of the step. Loops over maps pick the
next key arbitrarily, so their contracts hold for every order of iteration.

| file | contents |
|---|---|
| `dependency_error.dfy` | dependency errors, their priority and their merge |
| `error_graph.dfy`, `break_spec.dfy`, `heal_spec.dfy` | the error table over the dependents graph; what a break and a heal do to it, stated without an order of visits |
| `try_heal.dfy`, `ladder.dfy` | the healing ladder; what it finds, read off the world rung by rung |
| `dependency_theorems.dfy`, `round_trip.dfy` | closure, soundness, exactness, determinism; stop followed by start |
| `package_db.dfy` | the database object with the break, heal, stop, start and restart procedures |
| `reverse_index.dfy`, `index_effects.dfy`, `index_db.dfy` | `current_dependents` as an index over `current_dependencies`; what each step records and lists; the loops that maintain and rebuild it |
| `manager.dfy` | thread loop, synchronizer, exit and user commands as interleaved steps; safety and convergence |
| `charset.dfy`, `charset_language.dfy` | the character-set scanner, printer and sampler; the texts it accepts and the sets they denote |
| `config_spec.dfy`, `config_theorems.dfy`, `config_filled.dfy` | config specs: matching, validation, update, pointers, requirements; what an update writes |
| `reachable_stops.dfy` | the graph that breaks follow, in the databases that can be reached |
| `bindings.dfy` | the weak-reference binding tables and the services that own handles |
| `cleanup_folder.dfy` | pruning of a package's volumes |

The main results:

- A break, on any finite graph and from any table, has an effect that does not depend on the
  order of visits. It fails exactly when it comes to a dependent that is not installed, and it
  reports exactly the packages it hits harder. From a closed table, reachability alone decides
  which edges gain an error.
- A heal, on any finite graph, ends in the largest table that satisfies an equation on itself,
  so two heals of one table agree, whatever their order. Whether it fails is decided by the
  table it starts from.
- The ladder returns the fault of the highest rung that does not pass, with the faults of the six
  rungs defined from the packages, statuses, configs and errors alone.
- Closure and soundness hold throughout every run of breaks and heals that starts with them.
- On any graph, from a closed settled table, stop followed by start succeeds and leaves a table
  that is known entry by entry. It is the table before exactly when the service did not lead to
  a cycle with no error on it.
- In every reachable database, the dependents lists invert the dependencies, and the rebuild
  at boot changes nothing but the dependents that are being removed. There a break fails only
  on a package that is being removed.
- In every interleaving, a manager that says Stopped is not running main. With a well-behaved
  docker and no timeout, every step that changes anything lowers a rank, until the stored status
  and the manager agree, also when a stop ends its wait early.
- For every validated spec, an update of a matching config fails only on a dereference, keeps
  every union's tag, and matches exactly when in no list of the config before two members were
  to become alike. Its result is the config with every pointer followed, and there is one exactly
  when every pointer met can be.

Three things the code might be expected to do it does not always do. Each has an instance and
an exact condition:

- Stop followed by start leaves errors behind when the service leads to a cycle of dependents
  with no error on it: there the errors of the stop hold each other up
  (`RoundTrip.MutualDependentsStayBroken`, `RoundTrip.StartAfterStop`).
- The update of a matching config can leave one that no longer matches, when the unique-by of a
  list names a field whose value the update changes, at any depth: by following a pointer, or
  by writing null for a nullable field that is absent (`ConfigTheorems.UniqueByCanBreak`, `ConfigTheorems.AbsentKeyCanBreak`,
  `ConfigTheorems.UpdateOfMatch`).
- A stop can end its wait while main is running, although nothing failed and nothing timed out,
  because the wait ends on the first status sent and main sends one when it comes up. This
  can happen exactly when the wait begins with main running and not yet up (`Convergence.StopCanEndEarly`,
  `ServiceManager.WaitEndsDown`).

## Model

| member | source | states |
|---|---|---|
| `DependencyErrors.CmpPriorityComparesRanks` | backend/src/dependencies.rs:136-158 | the arm-by-arm comparison is the comparison of six ranks, hence a total preorder |
| `DependencyErrors.MergeIsMonoid` | backend/src/dependencies.rs:159-193 | merging is associative and `Transitive` is its identity on both sides |
| `DependencyErrors.MergeRankIsMax` | backend/src/dependencies.rs:159-193 | the rank of a merge is the larger of the two ranks |
| `DependencyErrors.MergeKeeps` | backend/src/dependencies.rs:159-193 | between kinds the error of higher rank stays as it is; of two rounds of failed checks all results stay, the newer where both have one; of two config errors both texts, the older first; otherwise the older error |
| `TryHealing.TableMattersLast` | backend/src/dependencies.rs:195-384 | the error table is read on the last rung only: either the outcome is the same in all tables and not `Transitive`, or it is `Transitive` exactly when the dependency has errors |
| `TryHealing.HealAbsorbs` | backend/src/dependencies.rs:195-384 | re-examining an outcome gives what re-examining the original would give, in any table; outcomes are fixed points |
| `TryHealing.LowRungsIgnoreConfig` | backend/src/dependencies.rs:295-384 | from `NotRunning` down, the dependency's config does not matter |
| `TryHealing.OtherStatusIgnored` | backend/src/dependencies.rs:195-384 | the status of a package is read only when it is the dependency examined |
| `Ladder.LadderDiagnoses` | backend/src/dependencies.rs:195-384 | whatever is re-examined, the outcome is the fault of the highest rung at or below its own that does not pass, with version, text or failed checks as the world has them; nothing exactly when all pass; a failure exactly when the highest rung that does not pass cannot be examined |
| `Ladder.DiagnosisIsUnique` | backend/src/dependencies.rs:195-384 | at most one outcome fits that description |
| `Ladder.FailuresAreExact` | backend/src/dependencies.rs:317-340 | the failed checks charged are exactly those without success that the dependent relies on |
| `Ladder.RehealDiagnoses` | backend/src/dependencies.rs:1027-1036 | re-examining a stored entry is such an examination, and fails without a manifest entry for the dependency |
| `BreakSteps.AllBroken` | backend/src/dependencies.rs:864-990 | after a completed break every entry of the table is determined: direct edges are merged with the error, other entries stay, an empty edge gains `Transitive` exactly when its source was newly broken; and nothing missing was reached |
| `BreakSteps.BreakOneMore` | backend/src/dependencies.rs:870-881 | visiting one more dependent extends the effect, also when the recursion came round a cycle to an unvisited one |
| `BreakSteps.BreakThrough` | backend/src/dependencies.rs:942-977 | recording an error that is news and breaking all dependents with `Transitive` has the effect of a break on that edge |
| `BreakSteps.NothingMissing` | backend/src/dependencies.rs:936-977 | a break of one edge that completes reached no dependent that is not installed |
| `BreakSteps.SaturationSpreads` | backend/src/dependencies.rs:956-977 | along edges that had no error, a package that has passed its error on makes every later one do so |
| `HealSpec.HealOneMore` | backend/src/dependencies.rs:1004-1006 | healing one more dependent extends the effect of the heal |
| `HealSpec.HealGoes` | backend/src/dependencies.rs:1025-1043 | removing an entry found gone and healing the holder's dependents is a heal of that edge |
| `HealSpec.HealStays` | backend/src/dependencies.rs:1033-1038 | an entry that survives re-examination is stored as what the ladder makes of it |
| `HealSpec.HealedOneMore` | backend/src/dependencies.rs:1004-1006 | the same together with what no heal may remove, and with no failure met |
| `HealSpec.HealedGoes` | backend/src/dependencies.rs:1039-1042 | the same for an entry that goes |
| `HealSpec.MetThrough` | backend/src/dependencies.rs:1039-1042 | a failure of the recursive heal is a failure on an entry this heal looks at |
| `HealSpec.FailureIsForced` | backend/src/dependencies.rs:993-1048 | whether a heal fails is decided by the table before: it does exactly when some entry that cannot be re-examined is looked at in every consistent table, whatever the order of visits |
| `HealSpec.BlockedCannotHeal` | backend/src/dependencies.rs:1027-1036 | such an entry lies on an edge of the graph |
| `HealSpec.FloorGoes` | backend/src/dependencies.rs:1039-1042 | every table consistent with the heal has already lost the entry, and is consistent with the recursive heal |
| `DependencyTheorems.BreakFromClosed` | backend/src/dependencies.rs:864-882 | from a closed table: direct edges merged, other edges leaving a package reachable from the stopped one keep their entry or gain `Transitive`, nothing else changes |
| `DependencyTheorems.BreakOneKeepsClosed` | backend/src/dependencies.rs:926-990 | a break of one edge keeps the table closed, round every cycle |
| `DependencyTheorems.BreakKeepsClosed` | backend/src/dependencies.rs:864-882 | a break of all dependents keeps the table closed |
| `DependencyTheorems.BreakOneKeepsSound` | backend/src/dependencies.rs:926-990 | a break of one edge leaves no `Transitive` without a cause, unless it is started with one |
| `DependencyTheorems.BreakKeepsSound` | backend/src/dependencies.rs:864-882 | the same for a break of all dependents |
| `DependencyTheorems.BreakKeepsOnEdges` | backend/src/dependencies.rs:870-881 | breaks record errors on graph edges only |
| `DependencyTheorems.HitIsPassedOn` | backend/src/dependencies.rs:956-977 | every dependent of a package hit harder ends with an entry for it |
| `DependencyTheorems.LaterChecksPrevail` | backend/src/dependencies.rs:942-955 | after two rounds of failed health checks on an edge, the entry has every check of either round, with the result of the last round it failed in |
| `DependencyTheorems.WorseErrorStays` | backend/src/dependencies.rs:942-955 | an error of higher rank on the edge is left as it is |
| `DependencyTheorems.HealKeepsClosed` | backend/src/dependencies.rs:993-1048 | a heal keeps the table closed |
| `DependencyTheorems.HealKeepsSound` | backend/src/dependencies.rs:993-1048 | a heal leaves no `Transitive` without a cause and creates no entry |
| `DependencyTheorems.HealSettles` | backend/src/dependencies.rs:1004-1043 | if every entry but those of the dependents being healed was a fixed point of the ladder, all are afterwards |
| `DependencyTheorems.HealIsDeterministic` | backend/src/dependencies.rs:993-1048 | two heals of one table end in the same table on any graph, whatever their order of visits |
| `DependencyTheorems.PropagationKeeps` | backend/src/dependencies.rs:864-1048 | every break and every heal keeps closure, soundness and errors on edges together |
| `DependencyTheorems.RunsStayClosedAndSound` | backend/src/dependencies.rs:864-1048 | so does every run of them, with statuses, versions and configs changing in between |
| `PackageDatabase.PackageDb.BreakAllDependents` | backend/src/dependencies.rs:864-882 | terminates on every graph; fails exactly when it comes to a dependent that is not installed; otherwise has the effect that `AllBroken` shows to be exact, and adds to the report exactly the packages that gained an entry or had one rise |
| `PackageDatabase.PackageDb.BreakTransitive` | backend/src/dependencies.rs:926-990 | the same for a single edge |
| `PackageDatabase.PackageDb.HealAllDependents` | backend/src/dependencies.rs:993-1008 | terminates on every graph; fails exactly when it looks at an entry that cannot be re-examined or whose holder is not installed; otherwise entries looked at become what the ladder makes of the originals in the final table and the others stay; in either case nothing is removed that a consistent table could keep |
| `PackageDatabase.PackageDb.HealTransitive` | backend/src/dependencies.rs:1011-1048 | the same for a single edge |
| `PackageDatabase.PackageDb.InitErrors` | backend/src/dependencies.rs:825-848 | the initial errors are what the ladder finds from its top rung for each dependency the manifest knows; fails exactly when one of them cannot be examined |
| `PackageDatabase.InitialIsSettled` | backend/src/dependencies.rs:472-500 | the initial errors of a package are fixed points of the ladder once stored |
| `PackageDatabase.InitialIsDiagnosis` | backend/src/dependencies.rs:825-848 | the initial errors are what the world says of each dependency, from the top rung, and none where all rungs pass |
| `PackageDatabase.PackageDb.StopCommon` | backend/src/control.rs:124-145 | the status becomes `Stopping`, the former one is returned, dependents are broken with `NotRunning` and reported |
| `PackageDatabase.PackageDb.Stop` | backend/src/control.rs:174-183 | all of that or, on failure, nothing |
| `PackageDatabase.PackageDb.StopDry` | backend/src/control.rs:158-171 | changes nothing and lists exactly the packages a stop would newly break |
| `PackageDatabase.PackageDb.Start` | backend/src/control.rs:65-87 | the status becomes `Starting` and dependents are healed, or nothing changes; fails exactly when the package is not installed or the table before blocks the heal |
| `PackageDatabase.PackageDb.Restart` | backend/src/control.rs:186-208 | succeeds exactly on a running service and touches only its status |
| `PackageDatabase.PackageDb.StopThenStart` | backend/src/control.rs:65-183 | on any graph, from a closed settled table with no entry against the service, both commands succeed; every entry afterwards is determined by the table before, and all error maps are as before exactly when the service did not lead to a cycle with no error on it |
| `PackageDatabase.StartRestores` | backend/src/control.rs:65-183 | the same as a statement about the tables before, between and after |
| `PackageDatabase.StartNeverFails` | backend/src/control.rs:70-74 | after a stop from such a table, nothing blocks the heal of the start |
| `PackageDatabase.HitIsNewlyBroken` | backend/src/dependencies.rs:943-963 | the packages hit harder by a break are exactly those reached from a dependent for which the error is news, along edges without an error |
| `PackageDatabase.RecordedReport` | backend/src/dependencies.rs:942-963 | recording one error raises at most that edge, and reports it exactly if it does |
| `RoundTrip.StartAfterStop` | backend/src/dependencies.rs:864-1048 | break with `NotRunning`, then heal with the service starting, on any graph: every entry that was there is as it was, and `Transitive` is added exactly on the edges without an error from packages behind a cycle without errors |
| `RoundTrip.StartUndoesStop` | backend/src/dependencies.rs:864-1048 | the original table comes back, diamonds included, exactly when the service did not lead to a cycle with no error on it; on acyclic graphs always |
| `RoundTrip.NoLeftover` | backend/src/dependencies.rs:1025-1043 | an entry left over from the break would rest on another one before it on a path without errors, which allows it only behind a cycle without errors |
| `RoundTrip.ReachedIsBroken` | backend/src/dependencies.rs:926-990 | every edge that is reached without meeting an error has one after the break |
| `RoundTrip.CyclesAreFloor` | backend/src/dependencies.rs:1033-1041 | the original table with the errors behind cycles is one no heal goes below |
| `RoundTrip.AcyclicIsUntangled` | backend/src/dependencies.rs:864-882 | an acyclic graph has no such cycle |
| `RoundTrip.MutualDependentsTangle` | backend/src/dependencies.rs:864-1048 | two packages that depend on each other, one of them on the service, no errors: both are behind a cycle |
| `RoundTrip.MutualDependentsStayBroken` | backend/src/dependencies.rs:864-1048 | there every stop and start leaves the two holding `Transitive` against each other |
| `RoundTrip.StartingClears` | backend/src/dependencies.rs:295-384 | once the service is starting, a `NotRunning` against it comes down to the `Transitive` rung |
| `ReverseIndex.StruckAt` | backend/src/install/cleanup.rs:276-292 | striking a package from some lists changes those entries and no other, and no dependencies |
| `ReverseIndex.AddedTo` | backend/src/dependencies.rs:791-811 | adding a package to the lists of its installed dependencies changes those entries and no other |
| `ReverseIndex.ConfigureKeepsIndex` | backend/src/config/mod.rs:640-664 | configuring keeps the index, whatever the new dependencies and also for dependencies not installed |
| `ReverseIndex.FreshInstallKeepsIndex` | backend/src/install/mod.rs:1158-1218 | a fresh install or a restore keeps the index |
| `ReverseIndex.UpdateKeepsIndex` | backend/src/install/mod.rs:1283-1351 | an update keeps the index, whether or not the migrated package is configured at once |
| `ReverseIndex.UninstallKeepsIndex` | backend/src/install/cleanup.rs:363-386 | an uninstall keeps the index, including the reconfiguration of dependents while the entry is already gone |
| `ReverseIndex.StepKeepsIndex` | backend/src/install/mod.rs:1158-1432 | every step keeps the index |
| `ReverseIndex.RunIsIndexed` | backend/src/install/mod.rs:1158-1432 | every reachable database is indexed |
| `ReverseIndex.DependentsInvertDependencies` | backend/src/db/model.rs:258-276 | in every run, for distinct installed packages, one lists the other exactly when the other needs it, with the same information |
| `ReverseIndex.ListedIsInstalledOrRemoving` | backend/src/install/cleanup.rs:276-292 | a dependent that is listed is installed or being removed |
| `ReverseIndex.RebuildIndexes` | backend/src/context/rpc.rs:291-329 | from any database, reachable or not, the rebuild yields exactly the inverse of the dependencies of installed packages |
| `ReverseIndex.RebuildAgrees` | backend/src/context/rpc.rs:291-329 | from a reachable database the rebuild drops the dependents being removed and, off the diagonal, nothing else |
| `IndexEffects.ConfiguredExactly` | backend/src/config/mod.rs:640-664 | a configured package records exactly its new dependencies, itself apart, is listed with the same information by exactly those installed, and nothing of another package changes |
| `IndexEffects.FreshlyInstalledExactly` | backend/src/install/mod.rs:1158-1218 | a fresh install or restore records and links exactly what is required, with the default information, and its list is read off the others |
| `IndexEffects.UpdatedExactly` | backend/src/install/mod.rs:1283-1351 | an update records and links the links it was configured with at once, or what is required, and drops the old ones |
| `IndexEffects.ConfiguredAllExactly` | backend/src/dependencies.rs:1050-1082 | after several are configured, each records what it was configured with last, and the others what they did |
| `IndexEffects.UninstalledExactly` | backend/src/install/cleanup.rs:363-386 | an uninstalled package is gone, from every list too, and the others record what they were reconfigured with, or what they did |
| `IndexEffects.StatusStepsForgetNothing` | backend/src/install/mod.rs:273-299 | the steps that only change the kind of an entry forget nothing on record, and only a removal takes a package out of service |
| `IndexEffects.StatusStepsTakeEffect` | backend/src/install/cleanup.rs:245-270 | installing over an installed package updates it, a failed install leaves nothing in progress, and entries in progress are otherwise left alone |
| `ReachableStops.MissingIsRemoving` | backend/src/dependencies.rs:936-940 | in every reachable database a listed dependent that has no error map is one that is being removed |
| `ReachableStops.BreaksFailOnRemovals` | backend/src/dependencies.rs:864-940 | there a break, and so a stop, fails exactly when it comes to a package that is being removed, and never while there is none |
| `IndexDatabase.CollectDependencies` | backend/src/config/mod.rs:566-638 | the dependencies collected are those required, pointed to or asked for, cut down to what the manifest mentions unless dry; each has its pointers in order and its health checks |
| `IndexDatabase.CollectPointers` | backend/src/config/mod.rs:566-598 | the loop over pointers |
| `IndexDatabase.CollectChecks` | backend/src/config/mod.rs:608-620 | the loop over what the config action asks for |
| `IndexDatabase.IndexDb.RemoveFromCurrentDependentsLists` | backend/src/install/cleanup.rs:276-292 | the loop strikes the package from the lists of all given dependencies and its own |
| `IndexDatabase.IndexDb.AddDependentToCurrentDependentsLists` | backend/src/dependencies.rs:791-811 | the loop adds it to the lists of all given dependencies that are installed |
| `IndexDatabase.IndexDb.FindDependents` | backend/src/install/mod.rs:1172-1218 | the search over all packages yields the inverse of the dependencies at one package |
| `IndexDatabase.IndexDb.Configure` | backend/src/config/mod.rs:640-664 | is the configure step, and fails exactly when the package is not installed |
| `IndexDatabase.IndexDb.FinishInstall` | backend/src/install/mod.rs:1158-1432 | is the install, restore or update step, with the reconfiguration of dependents at its end |
| `IndexDatabase.IndexDb.ConfigureAll` | backend/src/dependencies.rs:1050-1082 | the loop over dependents to reconfigure performs their configure steps in order |
| `IndexDatabase.IndexDb.Uninstall` | backend/src/install/cleanup.rs:360-386 | is the uninstall step, and fails exactly when the package is not being removed |
| `IndexDatabase.IndexDb.Rebuild` | backend/src/context/rpc.rs:307-329 | stores the recomputed list in every installed or removing package |
| `IndexDatabase.InvertDependencies` | backend/src/context/rpc.rs:291-306 | the nested loop inverts the dependencies, also at packages that are not there |
| `ServiceManager.RunIsSafe` | backend/src/manager/mod.rs:351-382 | every state of every interleaving satisfies the safety invariant, with every docker call free to fail |
| `ServiceManager.StepKeepsSafe` | backend/src/manager/mod.rs:733-798 | every step of loop, synchronizer, exit and user keeps it |
| `ServiceManager.StoppedMeansNotInMain` | backend/src/manager/mod.rs:365-382 | while the manager says Stopped, the loop is not in main |
| `ServiceManager.StoredStopIsTrue` | backend/src/manager/sync.rs:25-31 | the synchronizer stores Stopped only over Stopping and while main is not running |
| `ServiceManager.SavesAreDecided` | backend/src/manager/sync.rs:25-79 | in every run, what a save writes is decided by the two statuses when its round began, to the last field: the restarting flag, the start time and the health |
| `ServiceManager.CallsByPair` | backend/src/manager/sync.rs:26-78 | which pairs of manager and stored status make a round start, stop, pause or resume the service |
| `ServiceManager.CrashCools` | backend/src/manager/mod.rs:420-421 | after a crash main is not entered until the wait is over |
| `ServiceManager.ExitIsFinal` | backend/src/manager/mod.rs:276-280 | after exit no step leaves Exit, Shutdown is terminal, and main is entered again only by a loop that had read Restart before |
| `ServiceManager.ExitTakesHold` | backend/src/manager/mod.rs:280-280 | a call of exit takes hold at once and for good |
| `ServiceManager.ExitIsNoticed` | backend/src/manager/mod.rs:359-371 | no call of exit is slept through |
| `ServiceManager.ExitShutsDown` | backend/src/manager/mod.rs:353-377 | after exit the loop's next arrival at the top reads Exit, it stays there until it acts on it, and from then on the manager is shut down |
| `ServiceManager.RunIsWaitSafe` | backend/src/manager/mod.rs:733-754 | in every run, during a stop the loop does not enter main, and who sent the last status tells whether the service is down |
| `ServiceManager.EarlyEndIsMainUp` | backend/src/manager/mod.rs:710-720 | without a timeout, the wait inside stop ends before the service is down exactly when main woke it by coming up |
| `ServiceManager.WaitEndsDown` | backend/src/manager/mod.rs:710-754 | a wait that begins with main up or not running ends, but for a timeout, only when the service is down; one that begins before main has come up can end with main running, in two steps |
| `Convergence.CreatedIsCoherent` | backend/src/manager/mod.rs:237-269 | a new manager is coherent, whatever is stored |
| `Convergence.GoodStepKeepsCoherent` | backend/src/manager/sync.rs:25-79 | good steps and user commands keep a manager coherent |
| `Convergence.GoodStepLowersRank` | backend/src/manager/sync.rs:26-78 | every good step that changes anything lowers the rank, the early end of a stop's wait included |
| `Convergence.UnsettledMoves` | backend/src/manager/sync.rs:26-78 | unless the pair is settled, some good step changes something |
| `Convergence.GoodRunsSettle` | backend/src/manager/sync.rs:83-113 | in every good run the number of changing steps is bounded by the first rank, and a last state that admits no change is settled |
| `Convergence.FairRunsSettle` | backend/src/manager/sync.rs:83-113 | a good run of more blocks than the first rank, each of which changes the state or takes the step there was to take, ends settled |
| `Convergence.SettledStays` | backend/src/manager/sync.rs:26-78 | a settled pair stays settled under good steps |
| `Convergence.StopCanEndEarly` | backend/src/manager/mod.rs:526-532 | a run of good steps and user commands to a stop whose wait can end, without a timeout, with main running |
| `CharSets.Parse` | backend/src/config/util.rs:47-126 | the character loop computes the scanner function, and what it accepts is well formed |
| `CharSets.ParsedIsWellFormed` | backend/src/config/util.rs:53-126 | every range read is a single character or an ASCII span with its size, and the stored total is the sum of the sizes |
| `CharSets.PrintThenParse` | backend/src/config/util.rs:129-147 | parsing the printed form of any well-formed set gives it back, commas and dashes as members and bounds included |
| `CharSets.ParseThenPrint` | backend/src/config/util.rs:129-147 | printing what was parsed denotes the same set |
| `CharSets.Gen` | backend/src/config/util.rs:18-35 | the walk never runs off the end, lands in the range the draw falls in, and returns a contained character |
| `CharSets.DefaultIsWellFormed` | backend/src/config/util.rs:37-41 | the default set is what its own notation denotes |
| `CharSetLanguage.ParsedExactly` | backend/src/config/util.rs:47-126 | a text is read as a set exactly when it denotes it, and refused exactly when it denotes none: items that are single characters or ascending spans ending in ASCII, each followed by a comma, and a last one that may be missing or unfinished |
| `CharSetLanguage.TrailingSeparator` | backend/src/config/util.rs:107-124 | a trailing comma adds nothing |
| `CharSetLanguage.UnfinishedSpan` | backend/src/config/util.rs:107-124 | a span without its end is its first character |
| `CharSetLanguage.TwoInARow` | backend/src/config/util.rs:96-104 | two characters in a row are refused |
| `ConfigTheorems.UpdateOfMatch` | backend/src/config/spec.rs:655-721 | for every validated spec, updating a matching value never fails to match on the way, keeps union tags, and matches afterwards exactly when in no list of the value before two members were to become alike |
| `ConfigTheorems.FieldsOfMatch` | backend/src/config/spec.rs:1079-1140 | the same for a whole config, with the condition on the config before, and no field outside the spec changes |
| `ConfigTheorems.UpdateKeepsMatch` | backend/src/config/spec.rs:995-1026 | with the default unique-by the result always matches |
| `ConfigFilled.UpdateIsFilling` | backend/src/config/spec.rs:1757-1770 | an update gives a value exactly when it is the value before with each pointer's place holding what is fetched for it, scalars as they were, lists, objects and the chosen variant filled through, and other keys untouched |
| `ConfigFilled.ConfigUpdateIsFilling` | backend/src/config/spec.rs:1111-1140 | the same for a whole config |
| `ConfigFilled.UpdateSucceeds` | backend/src/config/spec.rs:1700-1718 | the update of a matching value succeeds exactly when every pointer met can be fetched and no Tor key is another package's, and otherwise a dereference fails |
| `ConfigFilled.ValidatedRequirements` | backend/src/config/spec.rs:1745-1756 | a validated spec requires only the package itself and what its manifest declares |
| `ConfigFilled.RequiresExactly` | backend/src/config/spec.rs:725-731 | a package is required exactly when a pointer to it is met in the live part of the value, lists and absent fields included |
| `ConfigFilled.NumbersAccepted` | backend/src/config/spec.rs:917-940 | null exactly where nullable, otherwise numbers within the bounds, included or excluded, and whole if so asked |
| `ConfigFilled.TextAccepted` | backend/src/config/spec.rs:1263-1285 | strings with the pattern, names of an enum, booleans, and null only where nullable |
| `ConfigFilled.ListsAccepted` | backend/src/config/spec.rs:655-689 | sizes within the bounds, members that match, no two alike |
| `ConfigFilled.ScalarsAlike` | backend/src/config/spec.rs:961-966 | matching scalars are alike exactly when they are the same and not null |
| `ConfigTheorems.UniqueByCanBreak` | backend/src/config/spec.rs:664-680 | with another unique-by it need not: two members told apart by a pointer field |
| `ConfigTheorems.AbsentKeyCanBreak` | backend/src/config/spec.rs:1121-1126 | nor without any pointer: a member that lacks a nullable key and one that has it as null |
| `ConfigTheorems.KeyIsForeseen` | backend/src/config/spec.rs:1120-1138 | after an update each key holds what its own field makes of it, or, without a field, what it held |
| `ConfigTheorems.AlikeIsForeseen` | backend/src/config/util.rs:319-328 | two updated configs are alike under a unique-by exactly when the keys it names foretell it before the update |
| `ConfigTheorems.ItemsAreForeseen` | backend/src/config/spec.rs:664-680 | the members of an updated list are told apart exactly when that is foretold of the members before |
| `ConfigTheorems.PointersAreRequired` | backend/src/config/spec.rs:1534-1572 | a reported pointer to a package implies that the package is required, for all specs and values |
| `ConfigTheorems.PointersInAreRequired` | backend/src/config/spec.rs:1142-1161 | the same for a whole config |
| `ConfigTheorems.UpdateCompletes` | backend/src/config/spec.rs:1120-1138 | a successful update leaves every field of the spec present, at every level outside lists |
| `ConfigTheorems.RequirementsAfterUpdate` | backend/src/config/spec.rs:1142-1161 | after a successful update a package is required exactly when a pointer to it is reported or a member of a list requires it |
| `ConfigTheorems.ListFreeRequirements` | backend/src/config/spec.rs:1666-1676 | without lists: exactly when a pointer to it is reported |
| `ConfigTheorems.UpdateConfig` | backend/src/config/spec.rs:1111-1140 | the loop over the fields computes the update function |
| `ConfigTheorems.UpdateValue` | backend/src/config/spec.rs:693-721 | the loop over list members, and the other specs, compute the update function |
| `Bindings.Bind` | backend/src/net/vhost.rs:335-346 | storing a handle changes the binding of its key and no other |
| `Bindings.SweepDns` | backend/src/net/dns.rs:212-222 | the sweep of one address drops its entry exactly if it is dead, and leaves no empty row |
| `Bindings.SweepMdns` | backend/src/net/mdns.rs:93-96 | the same for an alias |
| `Bindings.SweepHost` | backend/src/net/vhost.rs:66-75 | the sweep of a host drops exactly its dead targets, and leaves no empty host and no empty server |
| `Bindings.InForceDecides` | backend/src/net/vhost.rs:159-181 | lookups, live address sets and announced aliases depend only on the bindings in force |
| `Bindings.SweepChangesNoAnswer` | backend/src/net/vhost.rs:354-365 | sweeping dead entries changes no binding in force, no lookup, no live address set |
| `Bindings.LookUpExactly` | backend/src/net/vhost.rs:159-181 | a connection is answered by a target exactly when it is the first in force under the name given, or, with none there and no name or an address, the first in force under no name |
| `Bindings.ResolveExactly` | backend/src/net/dns.rs:34-68 | an address is given for a package exactly when it is in force |
| `Bindings.BoundIsAnswered` | backend/src/net/vhost.rs:159-165 | under a name with a target in force, a connection is answered by it or one before it |
| `Bindings.OneLiveHandle` | backend/src/net/dns.rs:192-203 | each key has at most one live handle |
| `Bindings.LiveHandleIsBound` | backend/src/net/vhost.rs:39-75 | a live handle's binding is in its table, and its port has a server |
| `Bindings.BindKeepsConsistent` | backend/src/net/dns.rs:194-203 | adding keeps the tables and the handles consistent |
| `Bindings.SweepKeepsConsistent` | backend/src/net/dns.rs:212-222 | so does sweeping |
| `Bindings.NetController.CloneHandle` | backend/src/net/dns.rs:192-203 | another hold on a live handle keeps the tables consistent |
| `Bindings.NetController.DropHandles` | backend/src/net/net_controller.rs:205-206 | giving up holds keeps the tables consistent, whichever handles die |
| `Bindings.NetController.AddDns` | backend/src/net/dns.rs:192-203 | returns the live handle or a new one, and binds it |
| `Bindings.NetController.GcDns` | backend/src/net/dns.rs:212-222 | afterwards the entry is live or gone and no row is empty; nothing in force changes |
| `Bindings.NetController.AddMdns` | backend/src/net/mdns.rs:82-92 | binds and announces the alias; on failure holds and bindings in force are as before |
| `Bindings.NetController.GcMdns` | backend/src/net/mdns.rs:93-99 | as for DNS, and the live aliases are announced |
| `Bindings.NetController.AddVHost` | backend/src/net/vhost.rs:39-65 | binds the target; fails exactly when a new server is needed and its port cannot be bound |
| `Bindings.NetController.GcVHost` | backend/src/net/vhost.rs:66-75 | afterwards every target of the host is live and no server is empty; nothing in force changes |
| `NetServices.CreateService` | backend/src/net/net_controller.rs:149-165 | the service's name is in force and owned by it |
| `NetServices.AddLanBindings` | backend/src/net/net_controller.rs:182-203 | host and alias are in force under the handles returned, a connection naming the host is answered by the target added or one before it, all that was in force still is; on failure no hold remains and what is in force is what was |
| `NetServices.RemoveLanBindings` | backend/src/net/net_controller.rs:205-209 | the handles are given up; if the announcer restarts, those that died with it have lost their entries, and if not, the host is not swept and only its dead entries remain |
| `NetServices.AddLan` | backend/src/net/net_controller.rs:261-291 | the handles are added to what is on file for the interface and port; on failure what was on file is given up and in force is what has another holder; the service owns what it lists either way |
| `NetServices.RemoveLan` | backend/src/net/net_controller.rs:292-298 | the entry leaves the file and its handles are given up, with or without a restart of the announcer |
| `NetServices.GivenUpExactly` | backend/src/net/net_controller.rs:205-209 | after handles are given up, in force is exactly what was in force and has another holder, and if nothing failed the rest has lost its entry |
| `NetServices.RemoveAllLan` | backend/src/net/net_controller.rs:328-330 | the loop gives up every LAN entry, going on after a failure, and says whether there was one |
| `NetServices.RemoveAll` | backend/src/net/net_controller.rs:325-338 | everything else in force still is, whatever fails; if nothing fails, bindings the service alone held are gone from the tables |
| `FolderCleanup.FileTree.CleanupFolder` | backend/src/install/cleanup.rs:420-456 | at and below the path exactly the directories that are protected paths or ancestors of them stay; nothing elsewhere changes |
| `FolderCleanup.PruningKeepsTree` | backend/src/install/cleanup.rs:436-454 | what stays is still a tree |
| `FolderCleanup.PrunedExactly` | backend/src/install/cleanup.rs:436-439 | what is left below the path: directories that a protected path equals or goes through; elsewhere everything |

## Left out

- Closure as an invariant of the whole database: installs, uninstalls and configuring write errors without propagating them (backend/src/install/cleanup.rs:66-98, backend/src/config/mod.rs:672-680), so closure is proved for breaks and heals.
- Reports: the report names the packages hit, and for each an error that its entry has come to outrank; it does not name the error of highest priority, because a later `Transitive` replaces an earlier entry in the code too.
- StopCommon: the nested transaction of the code is one step here; the clause on a failed stop is in Stop and StopDry.
- Start: the code looks the manager up after the commit (backend/src/control.rs:79-84) and can return an error there with the database already changed; Start ends at the commit.
- ServiceManager: the shared watch channels are fields of one state value changed by a step function, not objects, because the property is about interleavings; health checks, process groups and the killer notification are not in the state.
- Convergence.FairRunsSettle: assumes that no stop times out.
- ConfigTheorems.UpdateConfig: the source updates the value in place; the model returns the new value, and the texts and paths of mismatch errors are one outcome.
- ConfigTheorems.UpdateValue: the same.
- Numbers in configs are reals, not floating point; `NumRange` parsing, generated defaults and entropy are not modelled.
- IndexDatabase.CollectDependencies: the set of pointers arrives as a list in the order of the loop; the pointer to a config is an opaque string.
- The recursion of `configure_rec` through dependents with live pointers, which need not terminate on cyclic pointers: an install and an uninstall take the sequence of reconfigurations as an arbitrary input.
- NetServices: a service is a value that the methods consume and return, so that giving it up can be seen to use its handles once; Tor bindings, the upgrade of the weak controller reference, and the ends of the DNS and virtual-host threads are not modelled.
- CleanupFolder: every filesystem call succeeds.
- The per-package loop after the rebuild at boot, the check of LAN ports, database locks, sessions, HTTP serving, logs, metrics, disks and backups.
