# A formal model of the environment reconciler

`hmd neuronsphere up` keeps a local environment equal to what its manifest, plugins and
built-in bill of materials declare. This project models the code that decides and carries
that out, and four smaller parts that hold state of their own, in Dafny:

| module | models |
|--------|--------|
| `Bom`, `TopoSort`, `ChangeSet` | the desired-state compiler: merging sources, repointing roles, keep-first de-duplication, the stable topological sort, stamping and digesting |
| `DeploymentGraph` | reading per-environment statuses out of the shared deployment graph |
| `Reconcile` | the drift snapshot and the three-way plan |
| `Destroy`, `Environments` | the cascade guard, and a reconcile run as a state machine: prune, graph, rest |
| `EnvironmentLaws`, `Convergence`, `DeploymentOrder`, `Outcomes` | what runs and histories of runs guarantee |
| `Runner` | the workflow runner and its tracking buffer |
| `EnvRegistry` | environment slots, accounts, the default environment and host ports |
| `PgUpgrade` | the PostgreSQL volume migration, with a failure possible at every command |
| `ApiGatewayGhosts` | pruning unusable API Gateway records over several stores |
| `NginxFragments` | splicing marked route blocks into configuration text |
| `ArtifactIndex` | version ordering and the bundled-artifact index |
| `Common` | options, Python's string and tuple order, number formatting |

Code that changes things step by step is a class or a method with loops, proved equal to a
function of its inputs or its old state; the lemmas say what that function means. What the
code cannot decide (whether a request lands, what a container does, what the cluster lists)
is an oracle: a record of outcomes over which every statement is quantified. ms-deployment is
the state its documented effects act on: a destroy takes the transitive dependents of the
named instances in reverse dependency order, a changeset's nodes are instances it seeded, and
a status update may be lost.

`dafny verify dfyconfig.toml` checks the project.

## Where the code falls short of its intent

Each condition is proved for all inputs; the lemmas named in brackets state it, and give an
input that meets it where it is not plain that one exists.

- A graph that fails to deploy is forgotten. With nothing else pending the run rewrites the
  snapshot without the graph; if the graph still reads DEPLOYED, the next plan has no digest
  to compare and calls it unchanged (`RetryKept`,
  `NoLostRetry`, `GraphRetryIsLost`). Entries recorded by a merge do not have this problem.
- The first bootstrap does not record a graph deployed by the graph's own run, because only
  the last run's successes are read; its later drift goes unseen (`BootstrapRecords`,
  `UnrecordedDriftUnseen`).
- Pending entries are additions followed by redeploys, so an addition that needs an entry due
  for redeployment is seeded before it, and a graph before anything it needs
  (`SeedOrderSafety`). The addition's dependency is deployed already, so it still resolves
  (`SeedOrderResolves`).
- Recording the bootstrap of an environment that was removed meanwhile puts it back with its
  old slot and account, which another may hold by then (`BootstrapKeepsInv`,
  `StaleBootstrapCollides`).
- An edge to a missing deployment row is read by every environment (`UnresolvedEdge`).
- A retried migration overwrites its own backup if a failed wipe left `PG_VERSION`, or if the
  old image was started on the wiped volume in between (`RetryKeepsBackup`,
  `TornWipeLosesData`, `GoingBackLosesData`).
- Ghost pruning is meant never to fail `up`; a usable API record whose id is a list or an
  object raises (`PruneApigatewayGhosts`).
- A digest leaves `deployment_id` out as not part of what was declared, yet the built-in graph
  entry carries the environment's container name and ext-secrets entries its account. A rename
  that leaves those two as persisted changes no digest; otherwise exactly these entries can
  differ (`DigestsAgree`, `RenameKeepsHashes`, `GraphContainerChangesHashes`).
- A migration reports success whether or not the restore took in the whole dump
  (`DataSurvives`).

## Model

| member | source | states |
|---|---|---|
| `TopoSort.TopoSort` | src/python/hmd_cli_neuronsphere/bom_seeder.py:2031-2080 | Kahn's algorithm over the by-name dictionary, indegrees, dependent lists and the re-sorted ready list computes exactly the specified sort: the greedy order when that places every entry, the input when it does not |
| `TopoSort.CountEntry` | src/python/hmd_cli_neuronsphere/bom_seeder.py:2052-2056 | one entry's roles are counted edge by edge, in whatever order they come: a role naming a BOM entry other than the entry itself adds one dependent and one indegree, so two roles with one target are two edges |
| `TopoSort.CountEdges` | src/python/hmd_cli_neuronsphere/bom_seeder.py:2049-2056 | after the counting pass every indegree is the number of edges recorded in the dependent lists, and those lists are exactly the inverse of the non-self dependency relation |
| `TopoSort.CountOffDependents` | src/python/hmd_cli_neuronsphere/bom_seeder.py:2068-2071 | placing an entry takes each of its edges off once and appends a dependent to the ready list exactly when its last edge goes |
| `TopoSort.PlaceReady` | src/python/hmd_cli_neuronsphere/bom_seeder.py:2062-2071 | the main loop places what repeatedly taking the earliest ready entry places, and ends |
| `TopoSort.GreedyOrder` | src/python/hmd_cli_neuronsphere/bom_seeder.py:2058-2080 | the order is complete if and only if the non-self edges have no cycle; it is then topological and lexicographically least by input position among all topological orders, which is what the promised stability amounts to |
| `TopoSort.StuckHasCycle` | src/python/hmd_cli_neuronsphere/bom_seeder.py:2073-2078 | entries each waiting for another of them form a cycle: the sort is only ever stuck on a real one |
| `TopoSort.CycleBlocks` | src/python/hmd_cli_neuronsphere/bom_seeder.py:2073-2078 | no list that leaves a cycle unplaced can ever be completed, whatever order is tried |
| `TopoSort.TopoSortedMeans` | src/python/hmd_cli_neuronsphere/bom_seeder.py:2031-2080 | for a distinctly named BOM: with a cycle the input comes back; without, a permutation of it with every in-BOM dependency first and least among all such orders; names stay distinct and no entry is lost or invented either way |
| `TopoSort.FallbackOnlyOnCycle` | src/python/hmd_cli_neuronsphere/bom_seeder.py:2073-2078 | a BOM that has any topological order is never handed back unsorted |
| `TopoSort.PrefixKept` | src/python/hmd_cli_neuronsphere/bom_seeder.py:2058-2080 | leading entries that depend on nothing later stay exactly where they are, whatever follows and even when the fallback fires |
| `TopoSort.SortFixedPoint` | src/python/hmd_cli_neuronsphere/bom_seeder.py:2058-2080 | a BOM already in dependency order is returned unchanged |
| `TopoSort.SortIdempotent` | src/python/hmd_cli_neuronsphere/bom_seeder.py:2031-2080 | sorting twice is sorting once, cycles included |
| `TopoSort.SortNamed` | src/python/hmd_cli_neuronsphere/bom_seeder.py:2049-2080 | with nameless entries present the result is the sorted named entries, or the whole input on a cycle |
| `TopoSort.ByNameKeepsLast` | src/python/hmd_cli_neuronsphere/bom_seeder.py:2044-2046 | of the entries under one name the dictionary holds the last, and it holds no nameless one |
| `TopoSort.ByNameKeepsPlaces` | src/python/hmd_cli_neuronsphere/bom_seeder.py:2044-2047 | and it stands where the first of that name stood |
| `TopoSort.SortMembers` | src/python/hmd_cli_neuronsphere/bom_seeder.py:2049-2080 | sorting a distinctly named BOM invents no entry, loses no named one, keeps names distinct and orders dependencies when acyclic |
| `TopoSort.LeadingKept` | src/python/hmd_cli_neuronsphere/bom_seeder.py:2049-2080 | the leading-entries result for BOMs that may also hold nameless entries |
| `ChangeSet.DedupeBom` | src/python/hmd_cli_neuronsphere/bom_seeder.py:2018-2028 | the loop over seen names computes the keep-first selection |
| `ChangeSet.DedupedKeepsFirst` | src/python/hmd_cli_neuronsphere/bom_seeder.py:2018-2028 | afterwards names are distinct, every kept entry is the first of its name, and the first entry of every name is kept |
| `ChangeSet.DedupedPrefix` | src/python/hmd_cli_neuronsphere/bom_seeder.py:2018-2028 | a distinctly named start survives de-duplication untouched, so nothing later can override it |
| `ChangeSet.DedupedInOrder` | src/python/hmd_cli_neuronsphere/bom_seeder.py:2018-2028 | the entries kept stay in their order |
| `ChangeSet.RepointEntry` | src/python/hmd_cli_neuronsphere/bom_seeder.py:1939-1947 | the per-role loop points an entry's roles at the target exactly where they map to the core instance |
| `ChangeSet.RepointRoles` | src/python/hmd_cli_neuronsphere/bom_seeder.py:1927-2015 | a repointing pass rewrites the assembled list in place, entry by entry, to the repointed list |
| `ChangeSet.RepointCommutes` | src/python/hmd_cli_neuronsphere/bom_seeder.py:1927-2015 | passes over disjoint roles may run in either order and repeating one changes nothing |
| `ChangeSet.GraphIsLazy` | src/python/hmd_cli_neuronsphere/bom_seeder.py:1879-1885 | the full definition holds a graph instance if and only if one of the five sources contributes one, or the graph is enabled and some contributed entry has one of the three graph roles |
| `DeploymentGraph.RepoInstanceStatus` | src/python/hmd_cli_neuronsphere/bom_seeder.py:1627-1672 | every known instance name gets a status: that of the newest edge that concerns it in this environment, None when there is none |
| `DeploymentGraph.FoldIsLatest` | src/python/hmd_cli_neuronsphere/bom_seeder.py:1653-1663 | the per-name fold yields the status at the newest matching edge by creation stamp, the later row on ties, and nothing exactly when no edge matches |
| `DeploymentGraph.OwnStatus` | src/python/hmd_cli_neuronsphere/bom_seeder.py:1517-1532 | an environment reads its own deployments: if the newest edge starting at an instance of a name, other environments' aside, leads to a row with this environment's id or none, the status is that row's |
| `DeploymentGraph.ScopedIsUnscoped` | src/python/hmd_cli_neuronsphere/bom_seeder.py:1517-1532 | on a graph whose rows all carry this environment's id or none, the scoped and the unscoped statuses agree |
| `DeploymentGraph.NonInterference` | src/python/hmd_cli_neuronsphere/bom_seeder.py:1648-1663 | adding or removing other environments' instances, edges and deployments, interleaved anywhere in the rows, changes no status this environment reads |
| `DeploymentGraph.UnresolvedEdge` | src/python/hmd_cli_neuronsphere/bom_seeder.py:1654-1663 | the condition that rests on, shown necessary: an edge with no deployment row is read by every environment and blanks the status unless a newer edge exists |
| `DeploymentGraph.RelevantWithout` | src/python/hmd_cli_neuronsphere/bom_seeder.py:1517-1532 | an edge to another environment's deployment never concerns this one; every other edge concerns it exactly as before |
| `DeploymentOrder.PlanIgnoresOtherEnvironments` | src/python/hmd_cli_neuronsphere/bom_seeder.py:1627-1672 | the whole reconcile plan, not only each status, is independent of other environments' rows |
| `Destroy.ClosureIsReachability` | src/python/hmd_cli_neuronsphere/bom_seeder.py:2640-2648 | what a destroy takes: an instance is in the closure if and only if a chain of dependencies leads from it to a named instance |
| `Destroy.ClosureLeast` | src/python/hmd_cli_neuronsphere/bom_seeder.py:2640-2648 | the closure is the least set holding the named instances and everything depending on a member |
| `Destroy.PrepareMeans` | src/python/hmd_cli_neuronsphere/bom_seeder.py:2689-2709 | what the guard decides: nothing to destroy when no instance is really named; refused exactly when a chain of dependencies leads from an instance that must survive to a named one, with exactly those instances as collateral; prepared over the closure otherwise |
| `Destroy.NoDanglingSurvivor` | src/python/hmd_cli_neuronsphere/bom_seeder.py:2667-2734 | however far a destroy run gets before it stops, nothing left standing depends on something torn down |
| `Destroy.GuardSpares` | src/python/hmd_cli_neuronsphere/bom_seeder.py:2695-2709 | when the cascade guard lets a destroy through, no instance that must survive is torn down |
| `ChangeSet.BuildDefinition` | src/python/hmd_cli_neuronsphere/change_set_builder.py:121-238 | the step-by-step assembly (merge, lazy graph, three in-place passes, normalise, de-duplicate, sort, stamp) computes the specified definition |
| `ChangeSet.BuildFullDefinition` | src/python/hmd_cli_neuronsphere/change_set_builder.py:241-262 | core entries ahead of the rest, de-duplicated, sorted and stamped again |
| `ChangeSet.RepointedEntryRole` | src/python/hmd_cli_neuronsphere/change_set_builder.py:197-201 | the three passes together: a split-out role pointing at the core instance points at its producer afterwards, any other role is untouched |
| `ChangeSet.DefinitionOrigin` | src/python/hmd_cli_neuronsphere/change_set_builder.py:157-238 | every compiled entry comes from a merged source entry with its name, class and repointed dependencies |
| `ChangeSet.FullOrigin` | src/python/hmd_cli_neuronsphere/change_set_builder.py:241-262 | every entry of the full definition comes from the core BOM or from a merged source entry |
| `ChangeSet.CompiledName` | src/python/hmd_cli_neuronsphere/change_set_builder.py:241-262 | no named entry of the core BOM or of any source is lost, by name, on the way to the full definition |
| `ChangeSet.RepointingClosed` | src/python/hmd_cli_neuronsphere/change_set_builder.py:197-201 | no entry of the full definition maps a split-out role at the core instance, and that role's producer is in the definition (for graph roles, when the graph is not switched off) |
| `ChangeSet.CorePrefix` | src/python/hmd_cli_neuronsphere/change_set_builder.py:241-262 | the full definition starts with exactly the core entries in declared order, and nothing a manifest, BOM file or plugin contributes shares a core name, even when a cycle makes the sort fall back |
| `ChangeSet.DefinitionsOrdered` | src/python/hmd_cli_neuronsphere/change_set_builder.py:234-262 | without a cycle of its own the Phase B definition, and likewise the full one, has every entry after all its in-definition dependencies |
| `ChangeSet.FullEntry` | src/python/hmd_cli_neuronsphere/change_set_builder.py:157-238 | every entry of the full definition is compiled from the first entry under its name: its class, the version resolved from what it declares, its configuration (for an ext-secrets entry injected for this environment's account), the stamp, and its dependencies, repointed unless it is a core entry |
| `ChangeSet.DefinitionNames` | src/python/hmd_cli_neuronsphere/change_set_builder.py:157-262 | no source is skipped: a name is in the full definition if and only if it is a core one, some entry of the manifest, the BOM file, the built-ins, ext-secrets or the plugins has it, or it is the graph's, enabled and asked for |
| `ChangeSet.Precedence` | src/python/hmd_cli_neuronsphere/change_set_builder.py:132-182 | the documented precedence over those five lists: outside the core an entry is compiled from the first declared under its name, in the order manifest, BOM file, built-ins, ext-secrets, plugins; the one entry none of them declares is the built-in graph, addressed by the environment's graph container |
| `ChangeSet.DefinitionsLineUp` | src/python/hmd_cli_neuronsphere/change_set_builder.py:121-262 | definitions compiled from the same sources for two environments have the same length and, position by position, the same name, class, version and dependencies |
| `ChangeSet.DigestsAgree` | src/python/hmd_cli_neuronsphere/change_set_builder.py:197-275 | which digests two environments share: the one at a position agrees if and only if that entry is neither the built-in graph with differing hosts nor an ext-secrets entry the two accounts configure differently |
| `ChangeSet.RenameKeepsHashes` | src/python/hmd_cli_neuronsphere/change_set_builder.py:265-275 | what a rename leaves alone: with the persisted graph container and account unchanged no digest changes, whatever the deployment_id |
| `ChangeSet.DigestTells` | src/python/hmd_cli_neuronsphere/change_set_builder.py:265-275 | two digests agree if and only if name, class, version, configuration and dependencies all do |
| `ChangeSet.GraphContainerChangesHashes` | src/python/hmd_cli_neuronsphere/change_set_builder.py:197-198 | with a built-in graph in the definition, another graph container does change a digest |
| `ChangeSet.SortMapped` | src/python/hmd_cli_neuronsphere/change_set_builder.py:234-262 | whatever rewrites entries without touching names and dependencies, as stamping and injecting do, commutes with sorting |
| `Reconcile.MergeRecords` | src/python/hmd_cli_neuronsphere/env_reconcile.py:264-280 | the merge loop writes this run's digest and release for what was applied, the recorded ones for the rest of the definition, nothing for what has neither |
| `Reconcile.SnapshotStore.MergeSnapshot` | src/python/hmd_cli_neuronsphere/env_reconcile.py:242-280 | an empty apply writes nothing, a failed write leaves the file alone, otherwise the file is the merged one |
| `Reconcile.MergedReadsBack` | src/python/hmd_cli_neuronsphere/env_reconcile.py:242-280 | loading a merged snapshot returns, for every name, the new digest and release if applied, the recorded ones if not, and none outside the definition |
| `Reconcile.WrittenReadsBack` | src/python/hmd_cli_neuronsphere/env_reconcile.py:221-239 | loading a written snapshot returns the current digest of every entry and the release it was given |
| `Reconcile.WrittenIsMerged` | src/python/hmd_cli_neuronsphere/env_reconcile.py:221-280 | writing the whole definition is merging with all of it applied |
| `Reconcile.RecordsDescribe` | src/python/hmd_cli_neuronsphere/env_reconcile.py:264-280 | every record in a merged snapshot describes an entry of the definition as declared now, and is either of an applied entry or carries the digest recorded before |
| `Reconcile.SortOut` | src/python/hmd_cli_neuronsphere/env_reconcile.py:340-365 | the loop sorts the desired entries into additions, changes and settled ones by status, missing release and digest, in that priority |
| `Reconcile.SortNames` | src/python/hmd_cli_neuronsphere/env_reconcile.py:368-372 | removals come out strictly ascending with exactly the given members |
| `Reconcile.ComputePlan` | src/python/hmd_cli_neuronsphere/env_reconcile.py:314-373 | an unreadable deployment graph gives a degraded plan that proposes nothing; otherwise the plan is the one the facts determine |
| `Reconcile.PlanPartition` | src/python/hmd_cli_neuronsphere/env_reconcile.py:314-373 | additions, changes and settled entries partition the desired list, each in its order; an instance is removed if and only if it reads DEPLOYED, is not declared and is not one of the four the CLI owns; without a readable snapshot nothing is a change, and an unreadable cluster demotes nothing |
| `Reconcile.ProtectedAre` | src/python/hmd_cli_neuronsphere/env_reconcile.py:106-121 | the instances the CLI owns are the three core ones and the database owner |
| `Reconcile.NoSnapshotNothingKnown` | src/python/hmd_cli_neuronsphere/env_reconcile.py:144-196 | a missing or unreadable snapshot is no information, neither of a digest nor of a release |
| `Reconcile.PickInOrder` | src/python/hmd_cli_neuronsphere/env_reconcile.py:345-365 | each part of a plan keeps the order of the desired list and has distinct names |
| `Reconcile.PlanReadsDeployed` | src/python/hmd_cli_neuronsphere/env_reconcile.py:345-372 | two status maps that agree on which names are DEPLOYED give the same plan |
| `Outcomes.DriftAfterMerge` | src/python/hmd_cli_neuronsphere/env_reconcile.py:340-365 | drift, end to end: after a merge recorded an entry, and while it reads DEPLOYED with no release missing, a redeclaration of that name is proposed as a change if and only if its class, version, configuration or dependencies differ, and is settled otherwise, whatever its deployment_id |
| `Outcomes.DriftAfterWrite` | src/python/hmd_cli_neuronsphere/env_reconcile.py:340-365 | the same after the whole definition was written |
| `Environments.Environment.Prune` | src/python/hmd_cli_neuronsphere/environments.py:1321-1347 | removals are gated by the flag, refused whole by the cascade guard without failing the run, and a failed destroy run stops everything |
| `Environments.Environment.DeployGraph` | src/python/hmd_cli_neuronsphere/environments.py:1356-1383 | the graph changeset runs regardless of the upgrade flag and is merged into the snapshot only when its run succeeded |
| `Environments.Environment.DeployRest` | src/python/hmd_cli_neuronsphere/environments.py:1385-1430 | with nothing pending the definition is rewritten (without an unsettled graph); otherwise, gated by the flag, one changeset runs and exactly what settled is merged |
| `Environments.Environment.Reconcile` | src/python/hmd_cli_neuronsphere/environments.py:1267-1430 | one whole run: plan, prune, graph, rest, with its early exits and its combined success value, as a function of the starting world and the outcomes |
| `Environments.Environment.RunNodes` | src/python/hmd_cli_neuronsphere/environments.py:1342-1345 | a run's statuses land in order unless lost, and what it settles becomes or stops being present |
| `EnvironmentLaws.LandCases` | src/python/hmd_cli_neuronsphere/environments.py:1342-1345 | after a run a status is what it was or what one of its nodes landed |
| `EnvironmentLaws.RunSettles` | src/python/hmd_cli_neuronsphere/environments.py:1408-1430 | what a run settles reads the success status, unless its update was lost |
| `EnvironmentLaws.PruneRuns` | src/python/hmd_cli_neuronsphere/environments.py:1326-1347 | when the destroy phase does anything it is a run the cascade guard let through, over no declared or protected instance |
| `EnvironmentLaws.RunDeploys` | src/python/hmd_cli_neuronsphere/environments.py:1342-1345 | a name reads DEPLOYED after a run only if it did before or the run settled its deployment |
| `EnvironmentLaws.SeedReads` | src/python/hmd_cli_neuronsphere/environments.py:1366-1368 | seeding a changeset stops exactly the entries it resets reading DEPLOYED and changes no other status, no snapshot and nothing deployed |
| `EnvironmentLaws.SeedRegisters` | src/python/hmd_cli_neuronsphere/environments.py:1366-1368 | seeding registers each of its entries with what it depends on, only those it reset if it raised, and leaves every other instance's edges alone |
| `EnvironmentLaws.PruneSpares` | src/python/hmd_cli_neuronsphere/environments.py:1326-1347 | the destroy phase leaves the presence and status of every declared or protected instance as they were, registers nothing and touches no snapshot |
| `EnvironmentLaws.PruneLeavesNoDangling` | src/python/hmd_cli_neuronsphere/environments.py:1326-1347 | however far the destroy phase gets, an instance left present keeps every present instance it depends on |
| `EnvironmentLaws.MergeReads` | src/python/hmd_cli_neuronsphere/environments.py:1376-1383 | what a merge leaves recorded for each entry: current digest and observed release if applied, the earlier reading otherwise |
| `EnvironmentLaws.GraphPhaseReads` | src/python/hmd_cli_neuronsphere/environments.py:1362-1383 | the graph phase changes no reading of any other entry, and none of the graph's own records unless it settled |
| `EnvironmentLaws.RestPhaseReads` | src/python/hmd_cli_neuronsphere/environments.py:1408-1430 | the last changeset records exactly what it settled and leaves every other reading alone |
| `EnvironmentLaws.WritePhaseReads` | src/python/hmd_cli_neuronsphere/environments.py:1386-1401 | with nothing pending every entry is recorded with its release carried forward, except an unsettled graph, whose record is dropped |
| `EnvironmentLaws.UnsettledReads` | src/python/hmd_cli_neuronsphere/environments.py:1318-1430 | a pending entry that a run does not settle keeps what was recorded of it, unless it is a graph dropped by the rewrite |
| `EnvironmentLaws.UnsettledStatus` | src/python/hmd_cli_neuronsphere/environments.py:1318-1430 | such an entry reads DEPLOYED afterwards if and only if it did before, its changeset did not reset it and no failure of its own landed |
| `EnvironmentLaws.RetryKept` | src/python/hmd_cli_neuronsphere/environments.py:1385-1430 | what becomes of a retry, by the run's inputs: a pending entry that is not settled is called unchanged by the next plan if and only if it is the graph, nothing else is pending, its changeset failed, the snapshot is rewritten and nothing took its DEPLOYED status; or only its release was missing, the next cluster listing has it back and it stayed deployed |
| `EnvironmentLaws.NoLostRetry` | src/python/hmd_cli_neuronsphere/environments.py:1385-1430 | no lost retry: while the next cluster listing does not settle it by itself (a missing release stays missing), an entry that was pending and not settled is pending again, whatever failed and whichever updates were lost, if and only if it is not a graph forgotten in that way |
| `EnvironmentLaws.GraphRetryIsLost` | src/python/hmd_cli_neuronsphere/environments.py:1387-1401 | that branch is reached: a deployed graph with a changed configuration whose changeset cannot be seeded is pending before the run and unchanged after it |
| `Outcomes.ReportsSuccess` | src/python/hmd_cli_neuronsphere/environments.py:1267-1430 | when a run reports success, exactly, by its inputs: the desired state compiles, and either the graph of deployments is unreadable or a destroy that is called for is prepared and breaks at no node, a pending graph is seeded and none of its nodes fails, and so with upgrade for whatever else is pending; a refused destroy and what the flags hold back do not count |
| `Outcomes.SuccessSettles` | src/python/hmd_cli_neuronsphere/environments.py:1349-1430 | success with upgrade settles every pending entry the changesets have a node for |
| `Outcomes.PruneEnds` | src/python/hmd_cli_neuronsphere/environments.py:1321-1347 | the destroy phase reports failure exactly when the destroy cannot be prepared or its run breaks, and ends the whole run exactly in the second case |
| `Outcomes.NothingKnownNothingDone` | src/python/hmd_cli_neuronsphere/environments.py:1295-1316 | a run that cannot compile its desired state or read the deployments does nothing; only the first is a failure |
| `Outcomes.MatchingIsInert` | src/python/hmd_cli_neuronsphere/environments.py:1307-1309 | a run whose environment matches its declared state changes nothing, the snapshot included, and reports success |
| `Outcomes.RunPresence` | src/python/hmd_cli_neuronsphere/environments.py:1326-1430 | which instances are there after a run, exactly: what the destroy's nodes took before one failed is gone, then what the graph's and, with upgrade, the last changeset's nodes deployed before one failed is there, unless the destroy broke |
| `Outcomes.RunReads` | src/python/hmd_cli_neuronsphere/environments.py:1342-1345 | what a run's nodes read when their updates land: the success status before the first failing node, FAILED at it, what they read before after it |
| `Outcomes.VanishedReleaseReturns` | src/python/hmd_cli_neuronsphere/environments.py:1408-1430 | a release that was on the cluster after its deployment and is gone from a later listing brings its instance back although it reads DEPLOYED; one never seen, or a cluster that cannot be listed, does not |
| `Outcomes.ReleaseObserved` | src/python/hmd_cli_neuronsphere/environments.py:1236-1264 | an applied entry has a release recorded if and only if the cluster was listed and shows the one named after it and its environment |
| `EnvironmentLaws.SeedTargets` | src/python/hmd_cli_neuronsphere/environments.py:1366-1368 | an entry is registered with the instances its roles map to |
| `Convergence.UnchangedReads` | src/python/hmd_cli_neuronsphere/environments.py:1318-1430 | an entry that was not pending keeps its status and release, and its digest is the earlier or the current one |
| `Convergence.SettledReads` | src/python/hmd_cli_neuronsphere/environments.py:1372-1430 | everything a run settled has its current digest recorded |
| `Convergence.Progress` | src/python/hmd_cli_neuronsphere/environments.py:1267-1430 | any run, also one that a failed destroy stops, takes exactly what it settled off the pending set: nothing else leaves it and nothing new enters it |
| `Convergence.ProductiveShrinks` | src/python/hmd_cli_neuronsphere/environments.py:1267-1430 | a productive run makes the number of pending entries strictly smaller |
| `Convergence.RunsDrain` | src/python/hmd_cli_neuronsphere/environments.py:1267-1430 | over any history of productive runs the pending set drains: after n runs it is empty or n smaller |
| `Convergence.Converges` | src/python/hmd_cli_neuronsphere/environments.py:1267-1430 | when a run with upgrade and prune succeeds at every step and the recorded releases stay on the cluster, it reports success and the next plan for the same desired state is empty |
| `Convergence.AllSettle` | src/python/hmd_cli_neuronsphere/environments.py:1349-1430 | a run that succeeds settles exactly what was pending |
| `Convergence.SettledDeployed` | src/python/hmd_cli_neuronsphere/environments.py:1349-1430 | and each of those reads DEPLOYED afterwards |
| `Convergence.PruneDestroysAll` | src/python/hmd_cli_neuronsphere/environments.py:1326-1347 | a destroy phase that succeeds leaves no removable instance reading DEPLOYED |
| `Convergence.NothingRemovable` | src/python/hmd_cli_neuronsphere/environments.py:1326-1430 | after a run that succeeds with prune nothing is left to remove |
| `Convergence.AdditionConverges` | src/python/hmd_cli_neuronsphere/environments.py:1267-1430 | its conditions can be met: any entry declared in an empty environment whose deployment succeeds is pending before the run and settled after it |
| `Convergence.OutsideUntouched` | src/python/hmd_cli_neuronsphere/environments.py:1349-1430 | after the destroy phase no name outside the definition changes status |
| `Convergence.FailedDestroySeedsNothing` | src/python/hmd_cli_neuronsphere/environments.py:1342-1347 | after a destroy run that fails nothing is seeded, no snapshot is written, nothing becomes deployed and the run reports failure |
| `Convergence.GatedRunIsInert` | src/python/hmd_cli_neuronsphere/environments.py:1321-1325 | without upgrade and prune, and with no graph pending, a run leaves statuses, dependency edges and deployed instances as they were |
| `Convergence.RunSpares` | src/python/hmd_cli_neuronsphere/environments.py:1267-1430 | no run takes a declared or protected instance down, whatever fails in it |
| `Convergence.HistorySpares` | src/python/hmd_cli_neuronsphere/environments.py:1267-1430 | over any history of runs, with any declarations, flags and failures, a protected instance or one every run declares is never destroyed |
| `DeploymentOrder.SeededBefore` | src/python/hmd_cli_neuronsphere/environments.py:1356-1412 | a pending dependency that is not inverted is seeded before the entry that needs it |
| `DeploymentOrder.InvertedIsUnsafe` | src/python/hmd_cli_neuronsphere/environments.py:1356-1360 | an addition that needs an entry due for redeployment, or a graph that needs anything pending, is seeded before what it needs |
| `DeploymentOrder.SeedOrderSafety` | src/python/hmd_cli_neuronsphere/environments.py:1356-1412 | in a definition in dependency order, every in-definition dependency of a seeded entry is settled or seeded earlier if and only if no pair is inverted in that sense |
| `DeploymentOrder.SeedOrderResolves` | src/python/hmd_cli_neuronsphere/environments.py:1356-1412 | what always holds: a dependency of a non-graph entry is deployed already or seeded earlier, so it can be resolved |
| `DeploymentOrder.RecordBootstrap` | src/python/hmd_cli_neuronsphere/environments.py:1640-1678 | the first bootstrap runs the graph if there is one, then the rest, and records the entries Phase A and the last run settled; a changeset that cannot be seeded ends it with nothing recorded |
| `DeploymentOrder.BootstrapRecords` | src/python/hmd_cli_neuronsphere/environments.py:1651-1668 | whatever was recorded before, an entry Phase A or the last run settled has its current digest after the bootstrap and any other the digest it had, so a graph deployed by its own run gets none |
| `DeploymentOrder.UnrecordedDriftUnseen` | src/python/hmd_cli_neuronsphere/environments.py:1651-1668 | the consequence: such an entry is called unchanged however its declaration changes, for as long as it reads DEPLOYED |
| `Runner.LocalWorkflowRunner.Issue` | src/python/hmd_cli_neuronsphere/local_workflow_runner.py:1270-1300 | a status or resource call goes on the wire at once when tracking and into the buffer otherwise, never both |
| `Runner.LocalWorkflowRunner.ExecuteNode` | src/python/hmd_cli_neuronsphere/local_workflow_runner.py:474-506 | a node succeeds unless its handler fails outside a dry run or its script fails, and only a successful real deployment with an id and rendered resources submits them |
| `Runner.LocalWorkflowRunner.RunNode` | src/python/hmd_cli_neuronsphere/local_workflow_runner.py:436-469 | one node issues what it produced and then its single status |
| `Runner.LocalWorkflowRunner.Run` | src/python/hmd_cli_neuronsphere/local_workflow_runner.py:390-472 | the result is true exactly when no node fails, last_succeeded is the longest succeeding prefix (empty on a dry run), and the calls issued are exactly the run's trace |
| `Runner.RunCompletes` | src/python/hmd_cli_neuronsphere/local_workflow_runner.py:436-472 | a run completes if and only if every non-core node's script succeeds and, unless it is a dry run, every non-core node's handler does; core nodes and nodes without a script always count |
| `Runner.FirstFailure` | src/python/hmd_cli_neuronsphere/local_workflow_runner.py:455-469 | the first failing node is where a run stops: it gets the one FAILED status, those before it their success status, those after it none, the changeset's second status is FAILED, and exactly the nodes before it count as settled |
| `Runner.ResourcesSubmitted` | src/python/hmd_cli_neuronsphere/local_workflow_runner.py:1073-1117 | resources are submitted exactly by a settled node of a real deployment with an id and rendered resources: those, once |
| `Runner.StatusesInOrder` | src/python/hmd_cli_neuronsphere/local_workflow_runner.py:436-469 | node statuses come in the order of the nodes, one each, up to where the run stops |
| `Runner.LocalWorkflowRunner.ReplayInto` | src/python/hmd_cli_neuronsphere/local_workflow_runner.py:1233-1268 | the buffer is issued in order, emptied, tracking is on afterwards, and the count is of the calls that landed |
| `Runner.LandedMeans` | src/python/hmd_cli_neuronsphere/local_workflow_runner.py:1233-1268 | the count a replay returns is the number of flushed requests that land |
| `Runner.RunAll` | src/python/hmd_cli_neuronsphere/local_workflow_runner.py:390-472 | several runs on one runner issue their traces one after another |
| `Runner.ReplayMatchesLive` | src/python/hmd_cli_neuronsphere/local_workflow_runner.py:1233-1300 | buffering any runs and replaying puts on the wire exactly the requests live tracking would have, each once and in order, and a second replay puts nothing |
| `Runner.ChangesetTrace` | src/python/hmd_cli_neuronsphere/local_workflow_runner.py:424-472 | the changeset is STARTED first and then gets exactly one more status, last of all: FAILED when some node fails, else DESTROYED, PLANNED or COMPLETED by the run's mode |
| `Runner.NodeStatusTrace` | src/python/hmd_cli_neuronsphere/local_workflow_runner.py:436-469 | every reached node gets exactly one status, DESTROYED, PLANNED or DEPLOYED before the stop and FAILED at it; a node not reached gets none |
| `Runner.ResourcesThenStatus` | src/python/hmd_cli_neuronsphere/local_workflow_runner.py:1111-1117 | a resource submission is always directly followed by the DEPLOYED status of the same deployment, and never happens in a destroy or a dry run |
| `EnvRegistry.SlugifyFixes` | src/python/hmd_cli_neuronsphere/env_registry.py:304-328 | a valid slug is its own normal form |
| `EnvRegistry.SlugMeans` | src/python/hmd_cli_neuronsphere/env_registry.py:304-328 | a name becomes its letters in lower case without surrounding white space, and is refused exactly when that is empty or longer than sixteen, holds or starts with anything not allowed, or is reserved |
| `EnvRegistry.FormatParses` | src/python/hmd_cli_neuronsphere/env_registry.py:369-375 | a twelve-digit id holds the number it was made from |
| `EnvRegistry.Format12Injective` | src/python/hmd_cli_neuronsphere/env_registry.py:369-375 | distinct numbers give distinct account ids, which is why the account search ends |
| `EnvRegistry.SlotForMeans` | src/python/hmd_cli_neuronsphere/env_registry.py:346-366 | allocation fails exactly when sixteen slots are taken, so the final error is unreachable; otherwise the slot is free and in range, the hash's own if free and else the least free one |
| `EnvRegistry.FirstFreeAccountMeans` | src/python/hmd_cli_neuronsphere/env_registry.py:369-375 | the account is the least number from one on whose id is unused |
| `EnvRegistry.AccountForMeans` | src/python/hmd_cli_neuronsphere/env_registry.py:369-375 | an environment's account is the first of 000000000001, 000000000002 and so on that no environment has |
| `EnvRegistry.Registry.AllocatePortSlot` | src/python/hmd_cli_neuronsphere/env_registry.py:346-366 | the slot search computes that slot |
| `EnvRegistry.Registry.AllocateAccountId` | src/python/hmd_cli_neuronsphere/env_registry.py:369-375 | the account search terminates, by counting the used ids it passes, with that account |
| `EnvRegistry.Registry.CreateEnv` | src/python/hmd_cli_neuronsphere/env_registry.py:599-610 | an invalid or taken name or a full registry changes nothing; otherwise the new environment is added with its slot and account |
| `EnvRegistry.CreatedMeans` | src/python/hmd_cli_neuronsphere/env_registry.py:599-610 | a creation succeeds if and only if the name is valid, not registered and a slot is left; the environment then comes last under its slug and nothing else changes |
| `EnvRegistry.Registry.RemoveEnv` | src/python/hmd_cli_neuronsphere/env_registry.py:613-623 | the environment goes and the default, if it was the default, moves to the first one left |
| `EnvRegistry.RemovedMeans` | src/python/hmd_cli_neuronsphere/env_registry.py:613-623 | a removal takes that environment alone, leaves the others in their order, and changes the default only if it was that one, to the first left or local |
| `EnvRegistry.UnknownNotRemoved` | src/python/hmd_cli_neuronsphere/env_registry.py:613-619 | an unknown or invalid name removes nothing |
| `EnvRegistry.Registry.SetDefault` | src/python/hmd_cli_neuronsphere/env_registry.py:631-640 | it succeeds if and only if some registered environment has the normalised name, which then is the default; the environments never change, nor the default on failure |
| `EnvRegistry.Registry.EnsureDefaultEnv` | src/python/hmd_cli_neuronsphere/env_registry.py:586-596 | the default environment is found or built under its own name |
| `EnvRegistry.EnsuredMeans` | src/python/hmd_cli_neuronsphere/env_registry.py:586-596 | afterwards the default environment is registered unless its name is invalid or no slot is left; if it was registered nothing changes |
| `EnvRegistry.Registry.constructor` | src/python/hmd_cli_neuronsphere/env_registry.py:467-501 | a fresh registry is empty, or holds the migrated legacy environment alone |
| `EnvRegistry.BuiltKeepsInv` | src/python/hmd_cli_neuronsphere/env_registry.py:394-415 | a built environment's slot and account are different from all others and within bounds |
| `EnvRegistry.RegistryInvariant` | src/python/hmd_cli_neuronsphere/env_registry.py:586-640 | over any history of creations, removals and default changes from an empty or migrated registry: slots are distinct and below sixteen, accounts distinct twelve-digit ids, and only the legacy environment has the control plane's |
| `EnvRegistry.RemovedIsNotDefault` | src/python/hmd_cli_neuronsphere/env_registry.py:613-623 | a removed environment is gone and is no longer the default unless none is left |
| `EnvRegistry.BootstrapKeepsInv` | src/python/hmd_cli_neuronsphere/env_registry.py:643-652 | recording a bootstrap keeps that invariant if and only if the environment is still registered or nothing took its slot or account meanwhile |
| `EnvRegistry.StaleBootstrapCollides` | src/python/hmd_cli_neuronsphere/env_registry.py:643-652 | it can be violated: bootstrapping a removed environment after another took its account leaves two on one account |
| `EnvRegistry.PortsDisjoint` | src/python/hmd_cli_neuronsphere/env_registry.py:136-192 | no two ports collide, within one environment or across environments, and all lie in the published range |
| `EnvRegistry.PortLayout` | src/python/hmd_cli_neuronsphere/env_registry.py:136-192 | an environment's four ports follow one another, its cluster port lies above every slot's, the published range ends with the last of those, and slot 0's spare is 19003 |
| `PgUpgrade.BackupNames` | src/python/hmd_cli_neuronsphere/pg_upgrade.py:346-355 | a backup is never taken for an instance's volume, and backups share a name only for the same volume and major version |
| `PgUpgrade.Docker.UpgradeVolume` | src/python/hmd_cli_neuronsphere/pg_upgrade.py:369-526 | the migration of one volume, with every early exit, as a function of the volumes and each command's outcome |
| `PgUpgrade.AnswerMeans` | src/python/hmd_cli_neuronsphere/pg_upgrade.py:369-526 | a migration's answer is decided by the first command that does not succeed: it raises if that one raises, is false if it fails and true if there is none |
| `PgUpgrade.Docker.FindMismatches` | src/python/hmd_cli_neuronsphere/pg_upgrade.py:256-288 | mismatches are the live, readable volumes with another version, in listing order; an unknown image version gives none |
| `PgUpgrade.Docker.UpgradeAll` | src/python/hmd_cli_neuronsphere/pg_upgrade.py:556-566 | every mismatch is migrated in turn, the count is of those that returned true, and one that raises ends the loop |
| `PgUpgrade.TotalMeans` | src/python/hmd_cli_neuronsphere/pg_upgrade.py:556-566 | without an exception the count is of the migrations that returned true, whatever the others did; one exception aborts the run |
| `PgUpgrade.RaiseStops` | src/python/hmd_cli_neuronsphere/pg_upgrade.py:556-566 | volumes after the first migration that raises are not reached |
| `PgUpgrade.DataSurvives` | src/python/hmd_cli_neuronsphere/pg_upgrade.py:369-526 | whichever step fails, the cluster held at entry is still in the volume or in the backup: the volume is untouched until its dump is taken, from the finished copy on the cluster is in the backup, and the call returns true exactly when every step before the restore succeeds and the restore returns, complete or not, leaving the new version in place, with the same data if the restore was complete |
| `PgUpgrade.OthersUntouched` | src/python/hmd_cli_neuronsphere/pg_upgrade.py:369-526 | a migration touches only its volume and that volume's backup |
| `PgUpgrade.FoundMean` | src/python/hmd_cli_neuronsphere/pg_upgrade.py:256-288 | every mismatch is reported, once, with the version its volume holds, and nothing else is; an unknown image version reports none |
| `PgUpgrade.FoundExactly` | src/python/hmd_cli_neuronsphere/pg_upgrade.py:256-288 | reported are, in listing order, exactly the listed instance volumes that a recorded instance mounts and whose version can be read and is not the image's |
| `PgUpgrade.OwnMigration` | src/python/hmd_cli_neuronsphere/pg_upgrade.py:369-526 | one migration of a volume keeps its data where it was or in the backup with nothing of that version left to copy over it |
| `PgUpgrade.HistoryKeeps` | src/python/hmd_cli_neuronsphere/pg_upgrade.py:369-566 | over any history of migrations and container starts, however each command goes, the data is still in the volume or its backup, provided the images that migrate or serve that volume are of another version and a failed wipe takes PG_VERSION with it or does nothing |
| `PgUpgrade.RetryKeepsBackup` | src/python/hmd_cli_neuronsphere/pg_upgrade.py:382-409 | what a retry does to the backup: it survives if and only if the volume no longer holds its version, or still holds the very same cluster |
| `PgUpgrade.TornWipeLosesData` | src/python/hmd_cli_neuronsphere/pg_upgrade.py:456-474 | the wipe condition is needed: a wipe that fails leaving PG_VERSION makes the next upgrade copy the remains over the backup, after which no volume holds the data |
| `PgUpgrade.GoingBackLosesData` | src/python/hmd_cli_neuronsphere/pg_upgrade.py:382-409 | so is the image condition: going back to the old image after a failure past the wipe initialises a fresh old cluster, which the next upgrade copies over the backup |
| `PgUpgrade.UpgradeAllConverges` | src/python/hmd_cli_neuronsphere/pg_upgrade.py:556-566 | when every migration succeeds and restores its whole dump, all mismatches are counted, each volume carries its data at the new version, each backup holds the old cluster, and the next look finds no mismatch |
| `ApiGatewayGhosts.ChildKey` | src/python/hmd_cli_neuronsphere/floci_deployer.py:1060-1065 | a key of the documented shape names its API, whatever follows |
| `ApiGatewayGhosts.ApiKey` | src/python/hmd_cli_neuronsphere/floci_deployer.py:1060-1065 | the key of an API itself names none |
| `ApiGatewayGhosts.MatchMeans` | src/python/hmd_cli_neuronsphere/floci_deployer.py:1060-1065 | what the expression finds in any key: the leftmost API id between two pairs of colons that no line end comes before, and nothing when there is none |
| `ApiGatewayGhosts.GhostMeans` | src/python/hmd_cli_neuronsphere/floci_deployer.py:1068-1077 | a record is unusable if and only if it is no object or lacks an id or a name that Python takes for true |
| `ApiGatewayGhosts.StoreNames` | src/python/hmd_cli_neuronsphere/floci_deployer.py:1060-1064 | the glob takes the REST API stores and not those of the HTTP APIs |
| `ApiGatewayGhosts.DataDir.PruneApigatewayGhosts` | src/python/hmd_cli_neuronsphere/floci_deployer.py:1097-1190 | the loops leave exactly the pruned files and the count is records before minus after across all stores, also when some stores cannot be written; an id that cannot be hashed raises before anything is written |
| `ApiGatewayGhosts.WhatSurvives` | src/python/hmd_cli_neuronsphere/floci_deployer.py:1146-1190 | a ghost survives if and only if there was one and the call was held up, by an id that cannot be hashed or by ghosts in an API store that cannot be written; an orphan if and only if there was one and that, or its own file could not be written |
| `ApiGatewayGhosts.NothingUsableLost` | src/python/hmd_cli_neuronsphere/floci_deployer.py:1146-1190 | usable APIs, their children, records of any other key shape and other files stay as they were, whatever fails |
| `ApiGatewayGhosts.NothingAdded` | src/python/hmd_cli_neuronsphere/floci_deployer.py:1146-1190 | no record appears or changes and no file becomes readable or unreadable |
| `ApiGatewayGhosts.PruneIdempotent` | src/python/hmd_cli_neuronsphere/floci_deployer.py:1097-1190 | a second call over the same failures changes nothing, so it removes nothing |
| `NginxFragments.FragmentFile.UpsertBlock` | src/python/hmd_cli_neuronsphere/nginx_router.py:930-939 | all matches of the route's markers give way to the block; with none, the text is stripped at its end and the block appended |
| `NginxFragments.FragmentFile.RefreshRoutes` | src/python/hmd_cli_neuronsphere/nginx_router.py:1003-1017 | the discovered routes are upserted one after another and counted |
| `NginxFragments.WrapText` | src/python/hmd_cli_neuronsphere/nginx_router.py:389-395 | the text a route's block stands in, marker lines and line ends included |
| `NginxFragments.SubRender` | src/python/hmd_cli_neuronsphere/nginx_router.py:930-939 | on rendered blocks the pattern matches if and only if the route is there, and substituting replaces exactly its blocks, character for character |
| `NginxFragments.SubHit` | src/python/hmd_cli_neuronsphere/nginx_router.py:930-936 | the non-greedy match takes one block of the route whole, with its line end |
| `NginxFragments.SubMiss` | src/python/hmd_cli_neuronsphere/nginx_router.py:930-936 | nothing inside another route's block or the text after it is matched |
| `NginxFragments.AppendText` | src/python/hmd_cli_neuronsphere/nginx_router.py:937-938 | stripping and appending amounts to settling the last gap and adding a block |
| `NginxFragments.UpsertIsMapUpdate` | src/python/hmd_cli_neuronsphere/nginx_router.py:930-939 | on a well-formed fragment the upsert is the map update of that route alone, the result is well-formed, and repeating it is the identity on the text |
| `NginxFragments.RefreshRefines` | src/python/hmd_cli_neuronsphere/nginx_router.py:1003-1017 | the bulk refresh of the text is the bulk refresh of the blocks |
| `NginxFragments.RefreshIsMapUpdate` | src/python/hmd_cli_neuronsphere/nginx_router.py:1003-1017 | the bulk refresh is the map update by all discovered routes, the last of a path winning, and refreshing again leaves the text as it is |
| `NginxFragments.WrittenIsWellFormed` | src/python/hmd_cli_neuronsphere/nginx_router.py:398-404 | what the bulk writers write from wrapped blocks is a well-formed fragment with exactly those blocks |
| `ArtifactIndex.OlderIsTotal` | src/python/hmd_cli_neuronsphere/bom_seeder.py:604-615 | the version comparison is the strict part of a total preorder on arbitrary strings: irreflexive, asymmetric, ties exactly on equal keys, and transitive on both sides |
| `ArtifactIndex.KeyOrder` | src/python/hmd_cli_neuronsphere/bom_seeder.py:604-615 | tuples of numeric and non-numeric components are totally ordered |
| `ArtifactIndex.BuildNumbersOrder` | src/python/hmd_cli_neuronsphere/bom_seeder.py:607-611 | builds of one release line compare as their build numbers, and a non-numeric build is older than every number |
| `ArtifactIndex.ScanRoot` | src/python/hmd_cli_neuronsphere/bom_seeder.py:646-688 | one root's children are met in order, nameless manifests under their directory name and unreadable or empty versions skipped |
| `ArtifactIndex.ArtifactVersionIndex` | src/python/hmd_cli_neuronsphere/bom_seeder.py:618-692 | the nested loops compute the fold over all artifacts in scan order, skipping roots that cannot be listed |
| `ArtifactIndex.ScannedMeans` | src/python/hmd_cli_neuronsphere/bom_seeder.py:642-669 | what is indexed under which name: exactly the children whose version can be read and is not blank, under the manifest's name if it has one and else the directory's, with the stripped version |
| `ArtifactIndex.ScanOrder` | src/python/hmd_cli_neuronsphere/bom_seeder.py:642-669 | earlier roots are met first, and within a root earlier children |
| `ArtifactIndex.IndexIsArgmax` | src/python/hmd_cli_neuronsphere/bom_seeder.py:671-689 | every class met, and no other, is indexed with the earliest of its newest artifacts |
| `ArtifactIndex.RootOrderDecidesTies` | src/python/hmd_cli_neuronsphere/bom_seeder.py:626-635 | the order of the roots changes neither which classes are indexed nor any winning key, and the artifact itself only where two share the newest key |

## Left out

- Docker, kubectl, Helm, boto3, HTTP and the file system beyond the outcomes modelled; spinners, banners, logging, the CLI controllers, the GUI and key handling, the wait loops and their timeouts.
- ms-deployment's internals and how it generates nodes; only the effects its callers rely on are modelled.
- SHA-256 and JSON: a digest is the five fields it covers, so collisions are not modelled. Configuration values are strings.
- A missing instance name and an empty one are treated alike, as the code's truth tests do.
- Where source entries come from (manifest parsing, plugin discovery, the ext-secrets opt-out) is an input; version resolution is a function of a repo class and its declared version, ext-secrets injection one of a configuration and an account, with the host's Docker credentials fixed.
- The repointing passes write into dictionaries the built-in BOM constants share; the model copies entries, so aliasing between two compilations is not captured.
- An exception raised by a command inside the runner, or by the alias and snapshot calls after a graph run, is not modelled; `last_plan_dirs` and resources submitted from inside a container are not either.
- The time between a destroy's dry run and the destroy itself: nothing changes the closure meanwhile. A destroy answered without a changeset is the nothing-to-destroy case.
- Creation stamps are naturals, absent ones 0.
- The registry's control-plane record, the derived container, path and volume names, and the order in which a reload lists environments (a saved registry is sorted by name) are not modelled; `crc32` is any function of the name, and all environments share one port base.
- Letters, digits and white space outside ASCII: case folding, stripping, `isdigit`.
- Which volumes a recorded instance would mount is an input of a migration run; matching identifiers in the emulator's records is not modelled, nor are helper containers left behind by a failed start. Copying a whole cluster over an older backup is taken to give that cluster.
- A state file whose rewrite fails half-way is taken to be unchanged.
- Regular-expression replacement templates: blocks hold no backslash. A well-formed fragment's routes hold no space or hash sign and its block bodies and gaps no route marker; nginx's own syntax is opaque.
- Platform (legacy) mode, chart plugins, storage provisioning, credential harvesting, the image cache, DNS and ingress patching, and the Go tools: straight-line effects or thin wrappers.
- Progress: assumes that no graph is forgotten, where the statement is false, and that nothing else happens between a run and the next plan: what the run settled reads DEPLOYED, its snapshot writes landed, and the cluster misses no release it did not miss before.
- Converges: assumes that the deployment graph holds no nameless instance and that the releases a run records are still on the cluster, which the run itself cannot ensure.
- HistoryKeeps: does not cover an image of the data's own version on that volume or a wipe that fails leaving `PG_VERSION`, because the statement is false there; RetryKeepsBackup gives the exact condition for a retry.
