/** What a reconcile run guarantees: prune safety, what each phase leaves readable of an entry,
    and no lost retry.

    Source: `environments._reconcile_environment`, `env_reconcile.merge_snapshot`. */
module EnvironmentLaws {
  import opened Bom
  import opened ChangeSet
  import opened Common
  import opened Destroy
  import opened Environments
  import opened Reconcile
  import opened Runner

  ghost predicate DistinctInstances(nodes: seq<Node>) {
    forall i, j :: 0 <= i < j < |nodes| ==> nodes[i].instance != nodes[j].instance
  }

  /** ms-deployment's documented effects on one run: destroy nodes are the closure in reverse
      dependency order, and a changeset's nodes are instances it seeded. */
  ghost predicate Documented(w: World, desired: seq<Entry>, o: Oracle) {
    var pending := Pending(desired, Facts(w.status, w.file, o.live));
    && ReverseOrder(w.edges, Closure(w.edges, Removable(desired, w.status) - {""}), o.destroyNodes)
    && (forall n :: n in o.graph.nodes ==> n.instance in Names(Only(pending, GRAPH_INSTANCE)))
    && (forall n :: n in o.delta.nodes ==> n.instance in Names(Environments.Without(pending, GRAPH_INSTANCE)))
    && DistinctInstances(o.destroyNodes) && DistinctInstances(o.graph.nodes) && DistinctInstances(o.delta.nodes)
  }

  // ---------------------------------------------------------------------------
  // Landing statuses
  // ---------------------------------------------------------------------------

  /** A status is what it was, or what some node of that name landed. */
  lemma {:induction false} LandCases(status: StatusMap, nodes: seq<Node>, mode: Mode, lost: set<string>, name: string)
    ensures Get(Land(status, nodes, mode, lost), name) == Get(status, name)
            || exists n :: n in nodes && n.instance == name && n.rid !in lost
                 && Get(Land(status, nodes, mode, lost), name) == Some(Some(NodeStatus(n, mode)))
  {
    if nodes != [] {
      var init, last := nodes[..|nodes| - 1], nodes[|nodes| - 1];
      LandCases(status, init, mode, lost, name);
      assert nodes == init + [last];
    }
  }

  lemma {:induction false} LandOne(status: StatusMap, nodes: seq<Node>, mode: Mode, lost: set<string>, n: Node)
    requires DistinctInstances(nodes) && n in nodes && n.rid !in lost
    ensures Get(Land(status, nodes, mode, lost), n.instance) == Some(Some(NodeStatus(n, mode)))
  {
    var init, last := nodes[..|nodes| - 1], nodes[|nodes| - 1];
    assert nodes == init + [last];
    if n != last {
      assert n in init;
      var i :| 0 <= i < |init| && init[i] == n;
      assert nodes[i].instance != nodes[|nodes| - 1].instance;
      LandOne(status, init, mode, lost, n);
    }
  }

  /** Only a settled deploy node makes a name read DEPLOYED that did not before; no destroy
      run does. */
  lemma RunDeploys(status: StatusMap, nodes: seq<Node>, mode: Mode, lost: set<string>, name: string)
    requires mode == DeployMode || mode == DestroyMode
    ensures IsDeployed(AfterRun(status, nodes, mode, lost), name) ==>
              IsDeployed(status, name) || (mode == DeployMode && name in Settles(nodes, mode))
    ensures (forall n :: n in nodes ==> n.instance != name) ==>
              Get(AfterRun(status, nodes, mode, lost), name) == Get(status, name)
  {
    hide Succeeds, SettledCount, Land;
    var reached := Reached(nodes, mode);
    LandCases(status, reached, mode, lost, name);
    if Get(AfterRun(status, nodes, mode, lost), name) != Get(status, name) {
      var n :| n in reached && n.instance == name
               && Get(AfterRun(status, nodes, mode, lost), name) == Some(Some(NodeStatus(n, mode)));
      var i :| 0 <= i < |reached| && reached[i] == n;
      assert nodes[i] == n && n in nodes;
      if Succeeds(n, mode) {
        assert i < SettledCount(nodes, mode);
        assert nodes[..SettledCount(nodes, mode)][i] == n;
      }
    }
  }

  lemma RunSettles(status: StatusMap, nodes: seq<Node>, mode: Mode, lost: set<string>, name: string)
    requires DistinctInstances(nodes) && name in Settles(nodes, mode)
    requires forall n :: n in nodes && n.instance == name ==> n.rid !in lost
    ensures Get(AfterRun(status, nodes, mode, lost), name) == Some(Some(mode.SuccessStatus()))
  {
    var k := SettledCount(nodes, mode);
    var n :| n in nodes[..k] && n.instance == name;
    var i :| 0 <= i < k && nodes[i] == n;
    assert Reached(nodes, mode)[i] == n;
    LandOne(status, Reached(nodes, mode), mode, lost, n);
  }

  // ---------------------------------------------------------------------------
  // Prune safety
  // ---------------------------------------------------------------------------

  lemma PruneCases(w: World, desired: seq<Entry>, prune: bool, o: Oracle)
    ensures var phase := PrunePhase(w, desired, prune, o);
            phase.world == w
            || (phase.world == Destroyed(w, o.destroyNodes, o.lost)
                && Prepare(w.edges, Removable(desired, w.status), Names(desired) + Protected()).Prepared?)
  {
    hide Prepare, Removable, Protected, Names, Destroyed;
  }

  lemma DocumentedDestroy(w: World, desired: seq<Entry>, o: Oracle)
    requires Documented(w, desired, o)
    ensures ReverseOrder(w.edges, Closure(w.edges, Removable(desired, w.status) - {""}), o.destroyNodes)
    ensures DistinctInstances(o.destroyNodes)
  {
  }

  /** When the destroy phase does anything, it is a run over the closure's nodes that the
      cascade guard let through. */
  lemma PruneRuns(w: World, desired: seq<Entry>, prune: bool, o: Oracle)
    requires Documented(w, desired, o)
    ensures var phase := PrunePhase(w, desired, prune, o);
            phase.world == w
            || (phase.world == Destroyed(w, o.destroyNodes, o.lost)
                && TornDown(o.destroyNodes) * (Names(desired) + Protected()) == {}
                && forall n :: n in o.destroyNodes ==> n.instance !in Names(desired) + Protected())
  {
    hide Closure, Removable, PrunePhase, Documented, Names, Protected, Destroyed, TornDown;
    PruneCases(w, desired, prune, o);
    DocumentedDestroy(w, desired, o);
    var keep, remove := Names(desired) + Protected(), Removable(desired, w.status);
    if Prepare(w.edges, remove, keep).Prepared? {
      GuardSpares(w.edges, remove, keep, o.destroyNodes);
      var closure := Closure(w.edges, remove - {""});
      assert closure * keep == {};
      forall n | n in o.destroyNodes ensures n.instance !in keep {
        var i :| 0 <= i < |o.destroyNodes| && o.destroyNodes[i] == n;
        assert n.instance in closure && n.instance !in closure * keep;
      }
    }
  }

  /** The destroy phase leaves every declared or protected instance as it was, and registers
      nothing. */
  lemma PruneSpares(w: World, desired: seq<Entry>, prune: bool, o: Oracle, n: string)
    requires Documented(w, desired, o)
    ensures var after := PrunePhase(w, desired, prune, o).world;
            && (n in Names(desired) + Protected() ==>
                  (n in w.present <==> n in after.present) && Get(after.status, n) == Get(w.status, n))
            && (IsDeployed(after.status, n) ==> IsDeployed(w.status, n))
            && after.edges == w.edges && after.file == w.file
  {
    PruneRuns(w, desired, prune, o);
    hide PrunePhase, Documented, AfterRun, Names, Protected;
    var nodes := o.destroyNodes;
    RunDeploys(w.status, nodes, DestroyMode, o.lost, n);
    forall m | m in nodes[..SettledCount(nodes, DestroyMode)] ensures m in nodes {}
  }

  /** However far a destroy phase gets, no instance it leaves standing has lost an instance
      it depends on. */
  lemma PruneLeavesNoDangling(w: World, desired: seq<Entry>, prune: bool, o: Oracle, x: string, d: string)
    requires Documented(w, desired, o)
    requires x in PrunePhase(w, desired, prune, o).world.present
    requires x in w.edges && d in w.edges[x] && d in w.present
    ensures d in PrunePhase(w, desired, prune, o).world.present
  {
    hide PrunePhase, Documented, Closure, Removable, Names, Protected, AfterRun;
    PruneRuns(w, desired, prune, o);
    DocumentedDestroy(w, desired, o);
    if d in TornDown(o.destroyNodes) {
      assert d in w.edges[x] * TornDown(o.destroyNodes);
      NoDanglingSurvivor(w.edges, Removable(desired, w.status) - {""}, o.destroyNodes, x);
    }
  }

  // ---------------------------------------------------------------------------
  // What each phase leaves readable of one entry
  // ---------------------------------------------------------------------------

  ghost function RecordedHash(f: File, name: string): Option<Digest> {
    Get(LoadSnapshot(f), name)
  }

  ghost function RecordedRelease(f: File, name: string): Option<string> {
    Get(LoadReleaseMap(f), name)
  }

  /** Everything a verdict reads, for one name. */
  ghost predicate SameReading(f: File, f': File, name: string) {
    RecordedHash(f', name) == RecordedHash(f, name) && RecordedRelease(f', name) == RecordedRelease(f, name)
  }

  lemma {:induction false} ReleaseHasHash(records: seq<Record>, name: string)
    ensures name in ReleasesOf(records) ==> name in HashesOf(records)
  {
    if records != [] {
      ReleaseHasHash(records[..|records| - 1], name);
    }
  }

  lemma JudgeReads(e: Entry, facts: Facts)
    ensures var hash, release := RecordedHash(facts.file, e.name), RecordedRelease(facts.file, e.name);
            Judge(e, facts)
            == if !IsDeployed(facts.status, e.name) then ToAdd
               else if facts.live.Some? && release.Some? && release.value !in facts.live.value then ToAdd
               else if hash.Some? && hash.value != EntryHash(e) then ToChange
               else IsUnchanged
  {
  }

  /** What a merge leaves recorded for an entry of the definition. */
  lemma MergeReads(
    f: File, definition: seq<Entry>, applied: set<string>, releases: map<string, string>, writable: bool, e: Entry)
    requires UniqueNames(definition) && e in definition && e.name != ""
    ensures var f' := AfterMerge(f, definition, applied, releases, writable);
            if e.name in applied && writable
            then RecordedHash(f', e.name) == Some(EntryHash(e)) && RecordedRelease(f', e.name) == Get(releases, e.name)
            else SameReading(f, f', e.name)
  {
    hide EntryHash, HashesOf, ReleasesOf, MergedRecords;
    var i :| 0 <= i < |definition| && definition[i] == e;
    IndexOfUnique(definition, i);
    MergedReadsBack(f, definition, applied, releases, e.name);
    if f.Snapshot? {
      ReleaseHasHash(f.records, e.name);
    }
  }

  /** What a write leaves recorded for an entry it covers, and for one it leaves out. */
  lemma WriteReads(definition: seq<Entry>, releases: map<string, string>, e: Entry)
    requires UniqueNames(definition) && e.name != ""
    ensures var f' := Snapshot(WrittenRecords(definition, releases));
            && (e in definition ==>
                  RecordedHash(f', e.name) == Some(EntryHash(e)) && RecordedRelease(f', e.name) == Get(releases, e.name))
            && (e.name !in Names(definition) ==> RecordedHash(f', e.name) == None && RecordedRelease(f', e.name) == None)
  {
    hide EntryHash, HashesOf, ReleasesOf, WrittenRecords;
    WrittenReadsBack(definition, releases, e.name);
    IndexOfName(definition, e.name);
    if e in definition {
      var i :| 0 <= i < |definition| && definition[i] == e;
      IndexOfUnique(definition, i);
    }
  }

  lemma {:induction false} Selected(entries: seq<Entry>, name: string, names: set<string>)
    ensures forall e :: e in Environments.Without(entries, name) <==> e in entries && e.name != name
    ensures forall e :: e in Only(entries, name) <==> e in entries && e.name == name
    ensures forall e :: e in OnlyIn(entries, names) <==> e in entries && e.name in names
  {
    if entries != [] {
      var init, last := entries[..|entries| - 1], entries[|entries| - 1];
      assert entries == init + [last];
      Selected(init, name, names);
    }
  }

  lemma {:induction false} WithoutUnique(entries: seq<Entry>, name: string)
    requires UniqueNames(entries)
    ensures UniqueNames(Environments.Without(entries, name))
  {
    if entries != [] {
      hide UniqueNames;
      var init, last := entries[..|entries| - 1], entries[|entries| - 1];
      assert entries == init + [last];
      UniqueAppend(init, last);
      WithoutUnique(init, name);
      Selected(init, name, {});
      UniqueAppend(Environments.Without(init, name), last);
    }
  }

  /** What seeding can change of a verdict: it may stop one of its entries reading DEPLOYED, and
      nothing else. */
  lemma SeedReads(w: World, entries: seq<Entry>, s: Seeding, name: string)
    ensures var after := Seeded(w, entries, s);
            && (IsDeployed(after.status, name) <==> IsDeployed(w.status, name) && name !in Names(entries) * s.reset)
            && (name !in Names(entries) ==> Get(after.status, name) == Get(w.status, name))
            && after.file == w.file && after.present == w.present
  {
    hide Names, TargetsOf;
  }

  /** And of the dependency edges: each of its entries is registered with what it depends on, or
      only those it reset if seeding raised; every other instance keeps its edges. */
  lemma SeedRegisters(w: World, entries: seq<Entry>, s: Seeding, name: string)
    ensures Get(Seeded(w, entries, s).edges, name)
            == if name in Names(entries) && (s.ok || name in s.reset) then Some(TargetsOf(entries, name))
               else Get(w.edges, name)
  {
    hide Names, TargetsOf;
  }

  /** What an entry is registered with: the instances its roles map to. */
  lemma SeedTargets(entries: seq<Entry>, e: Entry)
    requires UniqueNames(entries) && e in entries
    ensures TargetsOf(entries, e.name) == e.dependencies.Values
  {
    var i :| 0 <= i < |entries| && entries[i] == e;
    IndexOfUnique(entries, i);
  }

  /** The graph phase concerns the graph only: every other entry reads as before, and so does
      the graph itself when it was not settled, except that it may no longer read DEPLOYED. */
  lemma GraphPhaseReads(w: World, desired: seq<Entry>, graph: seq<Entry>, did: string, o: Oracle, e: Entry)
    requires UniqueNames(desired) && e in desired && e.name != ""
    requires forall g :: g in graph ==> g.name == GRAPH_INSTANCE
    requires DistinctInstances(o.graph.nodes) && forall n :: n in o.graph.nodes ==> n.instance in Names(graph)
    ensures var r := GraphPhase(w, desired, graph, did, o);
            && (e.name != GRAPH_INSTANCE || graph == [] ==>
                  SameReading(w.file, r.world.file, e.name) && Get(r.world.status, e.name) == Get(w.status, e.name))
            && (r.settled ==> graph != [])
            && (!r.settled ==> r.world.file == w.file)
            && (!r.settled && IsDeployed(r.world.status, e.name) ==> IsDeployed(w.status, e.name))
            && (r.settled && e.name == GRAPH_INSTANCE && o.graphWritable ==>
                  RecordedHash(r.world.file, e.name) == Some(EntryHash(e))
                  && RecordedRelease(r.world.file, e.name) == Get(ObservedReleases(graph, o.graphLive, did), e.name))
  {
    if graph != [] {
      hide SameReading, AfterRun, AfterMerge, ObservedReleases, EntryHash, RecordedHash, RecordedRelease;
      var seeded := Seeded(w, graph, o.graph);
      SeedReads(w, graph, o.graph, e.name);
      GraphNames(graph);
      if o.graph.ok {
        RunDeploys(seeded.status, o.graph.nodes, DeployMode, o.lost, e.name);
        SingleNode(o.graph.nodes);
        MergeReads(w.file, desired, Names(graph), ObservedReleases(graph, o.graphLive, did), o.graphWritable, e);
        SameReadingReflexive(w.file, e.name);
      } else {
        SameReadingReflexive(w.file, e.name);
      }
    } else {
      SameReadingReflexive(w.file, e.name);
    }
  }

  lemma SameReadingReflexive(f: File, name: string)
    ensures SameReading(f, f, name)
  {
  }

  lemma SameReadingThen(f: File, f': File, f'': File, name: string)
    requires SameReading(f, f', name)
    ensures SameReading(f', f'', name) ==> SameReading(f, f'', name)
  {
  }

  lemma GraphNames(graph: seq<Entry>)
    requires graph != [] && forall g :: g in graph ==> g.name == GRAPH_INSTANCE
    ensures Names(graph) == {GRAPH_INSTANCE}
  {
    assert graph[0] in graph;
  }

  lemma TwoDiffer(nodes: seq<Node>) returns (n: Node)
    requires DistinctInstances(nodes) && |nodes| > 1
    ensures n in nodes && n.instance != GRAPH_INSTANCE
  {
    assert nodes[0].instance != nodes[1].instance;
    n := if nodes[0].instance != GRAPH_INSTANCE then nodes[0] else nodes[1];
  }

  /** A run of graph nodes has one node, so one that does not complete settles nothing. */
  lemma SingleNode(nodes: seq<Node>)
    requires DistinctInstances(nodes) && forall n :: n in nodes ==> n.instance == GRAPH_INSTANCE
    ensures !Completes(nodes, DeployMode) ==> Settles(nodes, DeployMode) == {}
  {
    if |nodes| > 1 {
      var n := TwoDiffer(nodes);
      assert false;
    }
  }

  /** The entries of `rest` the last changeset settles. */
  ghost function RestSettles(rest: seq<Entry>, upgrade: bool, o: Oracle): set<string> {
    if rest != [] && upgrade && o.delta.ok then Names(rest) * Settles(o.delta.nodes, DeployMode) else {}
  }

  /** When there is something left to deploy, the last phase records exactly what it settled
      and leaves every other reading alone. */
  lemma RestPhaseReads(
    w: World, desired: seq<Entry>, rest: seq<Entry>, graphLost: bool, upgrade: bool, did: string, o: Oracle, e: Entry)
    requires UniqueNames(desired) && e in desired && e.name != "" && rest != []
    requires forall n :: n in o.delta.nodes ==> n.instance in Names(rest)
    ensures var after := RestPhase(w, desired, rest, graphLost, upgrade, did, o).world;
            var settled := OnlyIn(rest, Settles(o.delta.nodes, DeployMode));
            && (e.name !in RestSettles(rest, upgrade, o) ==>
                  SameReading(w.file, after.file, e.name)
                  && (IsDeployed(after.status, e.name) ==> IsDeployed(w.status, e.name)))
            && (e.name in RestSettles(rest, upgrade, o) && o.lastWritable ==>
                  RecordedHash(after.file, e.name) == Some(EntryHash(e))
                  && RecordedRelease(after.file, e.name) == Get(ObservedReleases(settled, o.deltaLive, did), e.name))
            && (e.name !in Names(rest) ==> Get(after.status, e.name) == Get(w.status, e.name))
  {
    hide SameReading, AfterRun, AfterMerge, ObservedReleases, EntryHash, RecordedHash, RecordedRelease, OnlyIn;
    SameReadingReflexive(w.file, e.name);
    if upgrade {
      var seeded := Seeded(w, rest, o.delta);
      SeedReads(w, rest, o.delta, e.name);
      if o.delta.ok {
        var settled := OnlyIn(rest, Settles(o.delta.nodes, DeployMode));
        Selected(rest, "", Settles(o.delta.nodes, DeployMode));
        SelectedNames(rest, settled, Settles(o.delta.nodes, DeployMode));
        RunDeploys(seeded.status, o.delta.nodes, DeployMode, o.lost, e.name);
        MergeReads(w.file, desired, Names(settled), ObservedReleases(settled, o.deltaLive, did), o.lastWritable, e);
      }
    }
  }

  lemma SelectedNames(entries: seq<Entry>, part: seq<Entry>, names: set<string>)
    requires forall e :: e in part <==> e in entries && e.name in names
    ensures Names(part) == Names(entries) * names
  {
  }

  /** With nothing left to deploy, the whole definition is recorded, except a graph that was
      pending and did not settle: that record is dropped. */
  lemma WritePhaseReads(
    w: World, desired: seq<Entry>, graphLost: bool, upgrade: bool, did: string, o: Oracle, e: Entry)
    requires UniqueNames(desired) && e in desired && e.name != ""
    ensures var after := RestPhase(w, desired, [], graphLost, upgrade, did, o).world;
            && after.status == w.status
            && (!o.lastWritable ==> after.file == w.file)
            && (o.lastWritable && !(graphLost && e.name == GRAPH_INSTANCE) ==>
                  RecordedHash(after.file, e.name) == Some(EntryHash(e))
                  && RecordedRelease(after.file, e.name) == RecordedRelease(w.file, e.name))
            && (o.lastWritable && graphLost && e.name == GRAPH_INSTANCE ==>
                  RecordedHash(after.file, e.name) == None && RecordedRelease(after.file, e.name) == None)
  {
    hide EntryHash, RecordedHash, WrittenRecords, Environments.Without, LoadReleaseMap;
    var recorded := if graphLost then Environments.Without(desired, GRAPH_INSTANCE) else desired;
    WithoutUnique(desired, GRAPH_INSTANCE);
    Selected(desired, GRAPH_INSTANCE, {});
    WriteReads(recorded, LoadReleaseMap(w.file), e);
  }

  // ---------------------------------------------------------------------------
  // No lost retry
  // ---------------------------------------------------------------------------

  ghost function PendingOf(w: World, desired: seq<Entry>, o: Oracle): seq<Entry> {
    Pending(desired, Facts(w.status, w.file, o.live))
  }

  ghost function GraphOf(w: World, desired: seq<Entry>, o: Oracle): seq<Entry> {
    Only(PendingOf(w, desired, o), GRAPH_INSTANCE)
  }

  ghost function RestOf(w: World, desired: seq<Entry>, o: Oracle): seq<Entry> {
    Environments.Without(PendingOf(w, desired, o), GRAPH_INSTANCE)
  }

  ghost predicate IsPending(w: World, o: Oracle, e: Entry) {
    Judge(e, Facts(w.status, w.file, o.live)) != IsUnchanged
  }

  ghost function AfterGraph(w: World, desired: seq<Entry>, prune: bool, did: string, o: Oracle): GraphResult {
    GraphPhase(PrunePhase(w, desired, prune, o).world, desired, GraphOf(w, desired, o), did, o)
  }

  /** The names a run that gets past the destroy phase settles. */
  ghost function SettledBy(w: World, desired: seq<Entry>, upgrade: bool, prune: bool, did: string, o: Oracle): set<string> {
    if PrunePhase(w, desired, prune, o).stop then {}
    else
      (if AfterGraph(w, desired, prune, did, o).settled then {GRAPH_INSTANCE} else {})
      + RestSettles(RestOf(w, desired, o), upgrade, o)
  }

  /** The node a run stops at is `name`'s and its FAILED status lands. */
  ghost predicate FailureLands(nodes: seq<Node>, lost: set<string>, name: string) {
    var k := SettledCount(nodes, DeployMode);
    k < |nodes| && nodes[k].instance == name && nodes[k].rid !in lost
  }

  /** A changeset that does not settle `name` leaves it reading DEPLOYED if it did: seeding does
      not reset it, and no failure of its own lands. */
  ghost predicate LeavesDeployed(s: Seeding, lost: set<string>, name: string) {
    name !in s.reset && (s.ok ==> !FailureLands(s.nodes, lost, name))
  }

  /** The same of a whole run, for a pending name it does not settle. */
  ghost predicate StaysDeployed(w: World, desired: seq<Entry>, upgrade: bool, prune: bool, o: Oracle, name: string) {
    || PrunePhase(w, desired, prune, o).stop
    || if name == GRAPH_INSTANCE then LeavesDeployed(o.graph, o.lost, name)
       else upgrade ==> LeavesDeployed(o.delta, o.lost, name)
  }

  /** The last phase rewrites the whole snapshot, without a graph that was pending and did not
      settle. */
  ghost predicate Rewrites(w: World, desired: seq<Entry>, prune: bool, o: Oracle) {
    && !PrunePhase(w, desired, prune, o).stop
    && GraphOf(w, desired, o) != [] && RestOf(w, desired, o) == [] && o.lastWritable
  }

  /** What forgets a graph retry: the graph is pending, nothing else is, its changeset is not
      seeded or not completed, the snapshot is rewritten, and nothing takes the DEPLOYED status
      the graph had before. */
  ghost predicate ForgetsGraph(w: World, desired: seq<Entry>, prune: bool, o: Oracle) {
    && Rewrites(w, desired, prune, o)
    && (!o.graph.ok || !Completes(o.graph.nodes, DeployMode))
    && IsDeployed(w.status, GRAPH_INSTANCE) && LeavesDeployed(o.graph, o.lost, GRAPH_INSTANCE)
  }

  lemma PendingMembers(w: World, desired: seq<Entry>, o: Oracle, e: Entry)
    ensures e in PendingOf(w, desired, o) <==> e in desired && IsPending(w, o, e)
    ensures e in GraphOf(w, desired, o) <==> e in desired && IsPending(w, o, e) && e.name == GRAPH_INSTANCE
    ensures e in RestOf(w, desired, o) <==> e in desired && IsPending(w, o, e) && e.name != GRAPH_INSTANCE
  {
    hide Judge;
    var facts := Facts(w.status, w.file, o.live);
    PickMembers(desired, facts, ToAdd);
    PickMembers(desired, facts, ToChange);
    Selected(PendingOf(w, desired, o), GRAPH_INSTANCE, {});
  }

  lemma ApplyUnfolds(w: World, desired: seq<Entry>, upgrade: bool, prune: bool, did: string, o: Oracle)
    requires !PrunePhase(w, desired, prune, o).stop
    ensures var graph := AfterGraph(w, desired, prune, did, o);
            Apply(w, desired, upgrade, prune, did, o).world
            == RestPhase(graph.world, desired, RestOf(w, desired, o), GraphOf(w, desired, o) != [] && !graph.settled,
                         upgrade, did, o).world
  {
    hide PrunePhase, GraphPhase, RestPhase, Pending, Only, Environments.Without;
  }

  lemma ApplyStops(w: World, desired: seq<Entry>, upgrade: bool, prune: bool, did: string, o: Oracle)
    requires PrunePhase(w, desired, prune, o).stop
    ensures Apply(w, desired, upgrade, prune, did, o) == Result(PrunePhase(w, desired, prune, o).world, false)
  {
    hide PrunePhase, GraphPhase, RestPhase, Pending, Only, Environments.Without;
  }

  lemma DocumentedDeploys(w: World, desired: seq<Entry>, o: Oracle)
    requires Documented(w, desired, o)
    ensures forall n :: n in o.graph.nodes ==> n.instance in Names(GraphOf(w, desired, o))
    ensures forall n :: n in o.delta.nodes ==> n.instance in Names(RestOf(w, desired, o))
    ensures DistinctInstances(o.graph.nodes) && DistinctInstances(o.delta.nodes)
  {
  }

  /** What a run leaves recorded of a pending entry it did not settle. */
  lemma UnsettledReads(w: World, desired: seq<Entry>, upgrade: bool, prune: bool, did: string, o: Oracle, e: Entry)
    requires UniqueNames(desired) && Documented(w, desired, o)
    requires e in desired && e.name != "" && IsPending(w, o, e)
    requires e.name !in SettledBy(w, desired, upgrade, prune, did, o)
    ensures var after := Apply(w, desired, upgrade, prune, did, o).world;
            if Rewrites(w, desired, prune, o) && e.name == GRAPH_INSTANCE
            then RecordedHash(after.file, e.name) == None && RecordedRelease(after.file, e.name) == None
            else SameReading(w.file, after.file, e.name)
  {
    hide PrunePhase, GraphPhase, RestPhase, Documented, SameReading, RecordedHash, RecordedRelease, IsPending, GraphOf, RestOf;
    var pruned := PrunePhase(w, desired, prune, o).world;
    PruneSpares(w, desired, prune, o, e.name);
    SameReadingReflexive(w.file, e.name);
    PendingMembers(w, desired, o, e);
    if PrunePhase(w, desired, prune, o).stop {
      ApplyStops(w, desired, upgrade, prune, did, o);
    } else {
      DocumentedDeploys(w, desired, o);
      forall g ensures g in GraphOf(w, desired, o) ==> g.name == GRAPH_INSTANCE {
        PendingMembers(w, desired, o, g);
      }
      ApplyUnfolds(w, desired, upgrade, prune, did, o);
      GraphPhaseReads(pruned, desired, GraphOf(w, desired, o), did, o, e);
      var graph := AfterGraph(w, desired, prune, did, o);
      var graphLost := GraphOf(w, desired, o) != [] && !graph.settled;
      if RestOf(w, desired, o) == [] {
        WritePhaseReads(graph.world, desired, graphLost, upgrade, did, o, e);
        SameReadingReflexive(graph.world.file, e.name);
      } else {
        RestPhaseReads(graph.world, desired, RestOf(w, desired, o), graphLost, upgrade, did, o, e);
      }
      SameReadingThen(w.file, graph.world.file, Apply(w, desired, upgrade, prune, did, o).world.file, e.name);
    }
  }

  lemma UnsettledRun(status: StatusMap, nodes: seq<Node>, lost: set<string>, name: string)
    requires name !in Settles(nodes, DeployMode)
    ensures IsDeployed(AfterRun(status, nodes, DeployMode, lost), name)
            <==> IsDeployed(status, name) && !FailureLands(nodes, lost, name)
  {
    hide Succeeds, SettledCount;
    var k := SettledCount(nodes, DeployMode);
    forall n | n in nodes[..k] ensures n.instance != name {}
    LandCases(status, nodes[..k], DeployMode, lost, name);
    if k < |nodes| {
      assert nodes[..k + 1][..k] == nodes[..k];
    } else {
      assert nodes[..k] == nodes;
    }
  }

  lemma SeedAndRun(w: World, entries: seq<Entry>, s: Seeding, lost: set<string>, name: string)
    requires name in Names(entries) && (s.ok ==> name !in Settles(s.nodes, DeployMode))
    ensures var seeded := Seeded(w, entries, s);
            IsDeployed((if s.ok then Deployed(seeded, s.nodes, lost) else seeded).status, name)
            <==> IsDeployed(w.status, name) && LeavesDeployed(s, lost, name)
  {
    hide Settles, AfterRun, FailureLands;
    var seeded := Seeded(w, entries, s);
    if s.ok {
      UnsettledRun(seeded.status, s.nodes, lost, name);
    }
  }

  /** Whether such an entry still reads DEPLOYED, by what it read before and by its own
      changeset. */
  lemma UnsettledStatus(w: World, desired: seq<Entry>, upgrade: bool, prune: bool, did: string, o: Oracle, e: Entry)
    requires UniqueNames(desired) && Documented(w, desired, o)
    requires e in desired && e.name != "" && IsPending(w, o, e)
    requires e.name !in SettledBy(w, desired, upgrade, prune, did, o)
    ensures IsDeployed(Apply(w, desired, upgrade, prune, did, o).world.status, e.name)
            <==> IsDeployed(w.status, e.name) && StaysDeployed(w, desired, upgrade, prune, o, e.name)
  {
    hide PrunePhase, GraphPhase, RestPhase, Documented, IsPending, GraphOf, RestOf, LeavesDeployed, SameReading, Names;
    var pruned := PrunePhase(w, desired, prune, o).world;
    PruneSpares(w, desired, prune, o, e.name);
    DeclaredNames(desired, e);
    if PrunePhase(w, desired, prune, o).stop {
      ApplyStops(w, desired, upgrade, prune, did, o);
    } else {
      PendingMembers(w, desired, o, e);
      DocumentedDeploys(w, desired, o);
      forall g ensures g in GraphOf(w, desired, o) ==> g.name == GRAPH_INSTANCE
               ensures g in RestOf(w, desired, o) ==> g.name != GRAPH_INSTANCE
      {
        PendingMembers(w, desired, o, g);
      }
      ApplyUnfolds(w, desired, upgrade, prune, did, o);
      GraphPhaseReads(pruned, desired, GraphOf(w, desired, o), did, o, e);
      if e.name == GRAPH_INSTANCE {
        GraphStatus(pruned, desired, GraphOf(w, desired, o), did, o);
        RestSkips(AfterGraph(w, desired, prune, did, o).world, desired, RestOf(w, desired, o),
                  GraphOf(w, desired, o) != [] && !AfterGraph(w, desired, prune, did, o).settled, upgrade, did, o, e);
      } else {
        DeclaredNames(RestOf(w, desired, o), e);
        RestStatus(AfterGraph(w, desired, prune, did, o).world, desired, RestOf(w, desired, o),
                   GraphOf(w, desired, o) != [] && !AfterGraph(w, desired, prune, did, o).settled, upgrade, did, o, e.name);
      }
    }
  }

  lemma DeclaredNames(entries: seq<Entry>, e: Entry)
    requires e in entries
    ensures e.name in Names(entries)
  {
  }

  lemma GraphStatus(w: World, desired: seq<Entry>, graph: seq<Entry>, did: string, o: Oracle)
    requires graph != [] && (forall g :: g in graph ==> g.name == GRAPH_INSTANCE) && !GraphPhase(w, desired, graph, did, o).settled
    requires DistinctInstances(o.graph.nodes) && forall n :: n in o.graph.nodes ==> n.instance in Names(graph)
    ensures IsDeployed(GraphPhase(w, desired, graph, did, o).world.status, GRAPH_INSTANCE)
            <==> IsDeployed(w.status, GRAPH_INSTANCE) && LeavesDeployed(o.graph, o.lost, GRAPH_INSTANCE)
  {
    hide Seeded, Deployed, LeavesDeployed, Settles, AfterMerge, ObservedReleases;
    GraphNames(graph);
    SingleNode(o.graph.nodes);
    SeedAndRun(w, graph, o.graph, o.lost, GRAPH_INSTANCE);
  }

  lemma RestStatus(
    w: World, desired: seq<Entry>, rest: seq<Entry>, graphLost: bool, upgrade: bool, did: string, o: Oracle, name: string)
    requires name in Names(rest) && name !in RestSettles(rest, upgrade, o)
    ensures IsDeployed(RestPhase(w, desired, rest, graphLost, upgrade, did, o).world.status, name)
            <==> IsDeployed(w.status, name) && (upgrade ==> LeavesDeployed(o.delta, o.lost, name))
  {
    hide Seeded, Deployed, LeavesDeployed, Settles, AfterMerge, ObservedReleases, OnlyIn;
    if upgrade {
      SeedAndRun(w, rest, o.delta, o.lost, name);
    }
  }

  /** The last phase does not touch the graph's status. */
  lemma RestSkips(
    w: World, desired: seq<Entry>, rest: seq<Entry>, graphLost: bool, upgrade: bool, did: string, o: Oracle, e: Entry)
    requires UniqueNames(desired) && e in desired && e.name != ""
    requires (forall g :: g in rest ==> g.name != e.name) && forall n :: n in o.delta.nodes ==> n.instance in Names(rest)
    ensures Get(RestPhase(w, desired, rest, graphLost, upgrade, did, o).world.status, e.name) == Get(w.status, e.name)
  {
    hide RestPhase;
    if rest == [] {
      WritePhaseReads(w, desired, graphLost, upgrade, did, o, e);
    } else {
      RestPhaseReads(w, desired, rest, graphLost, upgrade, did, o, e);
    }
  }

  /** What becomes of a retry, exactly. A pending entry that the run did not settle is called
      unchanged by the next plan, whatever failed and whichever status updates and snapshot
      writes were lost, if and only if the run forgets it as the graph, or the next cluster
      listing alone settles it (only its release was missing, and is back) and it stayed
      deployed. */
  lemma RetryKept(
    w: World, desired: seq<Entry>, upgrade: bool, prune: bool, did: string, o: Oracle, live': Option<set<string>>, e: Entry)
    requires UniqueNames(desired) && Documented(w, desired, o) && o.readable
    requires e in desired && e.name != "" && IsPending(w, o, e)
    requires e.name !in SettledBy(w, desired, upgrade, prune, did, o)
    ensures var after := Reconciled(w, Some(desired), upgrade, prune, did, o).world;
            Judge(e, Facts(after.status, after.file, live')) == IsUnchanged
            <==> || (e.name == GRAPH_INSTANCE && ForgetsGraph(w, desired, prune, o))
                 || (Judge(e, Facts(w.status, w.file, live')) == IsUnchanged
                     && StaysDeployed(w, desired, upgrade, prune, o, e.name))
  {
    hide Documented, Apply, SettledBy, Rewrites, RecordedHash, RecordedRelease, Judge, LeavesDeployed, PrunePhase, PlanIsEmpty;
    NotEmpty(w, desired, o, e);
    UnsettledReads(w, desired, upgrade, prune, did, o, e);
    UnsettledStatus(w, desired, upgrade, prune, did, o, e);
    var after := Apply(w, desired, upgrade, prune, did, o).world;
    JudgeReads(e, Facts(w.status, w.file, live'));
    JudgeReads(e, Facts(after.status, after.file, live'));
    if e.name == GRAPH_INSTANCE && Rewrites(w, desired, prune, o) {
      GraphUnsettled(w, desired, upgrade, prune, did, o);
    }
  }

  /** A graph that a rewriting run did not settle was not seeded or did not complete. */
  lemma GraphUnsettled(w: World, desired: seq<Entry>, upgrade: bool, prune: bool, did: string, o: Oracle)
    requires GRAPH_INSTANCE !in SettledBy(w, desired, upgrade, prune, did, o) && Rewrites(w, desired, prune, o)
    ensures !o.graph.ok || !Completes(o.graph.nodes, DeployMode)
    ensures !PrunePhase(w, desired, prune, o).stop
  {
    hide PrunePhase, GraphOf, RestOf, Seeded, Deployed, AfterMerge, ObservedReleases, RestSettles, Completes;
  }

  /** No lost retry: as long as the next cluster listing does not settle it by itself, an entry
      that was pending and was not settled is pending again, except a forgotten graph. */
  lemma NoLostRetry(
    w: World, desired: seq<Entry>, upgrade: bool, prune: bool, did: string, o: Oracle, live': Option<set<string>>, e: Entry)
    requires UniqueNames(desired) && Documented(w, desired, o) && o.readable
    requires e in desired && e.name != "" && IsPending(w, o, e) && Judge(e, Facts(w.status, w.file, live')) != IsUnchanged
    requires e.name !in SettledBy(w, desired, upgrade, prune, did, o)
    ensures var after := Reconciled(w, Some(desired), upgrade, prune, did, o).world;
            Judge(e, Facts(after.status, after.file, live')) != IsUnchanged
            <==> !(e.name == GRAPH_INSTANCE && ForgetsGraph(w, desired, prune, o))
  {
    hide Documented, Reconciled, SettledBy, ForgetsGraph, Judge, StaysDeployed;
    RetryKept(w, desired, upgrade, prune, did, o, live', e);
  }

  lemma NotEmpty(w: World, desired: seq<Entry>, o: Oracle, e: Entry)
    requires e in desired && IsPending(w, o, e)
    ensures !PlanIsEmpty(desired, Facts(w.status, w.file, o.live))
  {
    hide Judge, Pending;
    PendingMembers(w, desired, o, e);
  }

  lemma OneEntry(e: Entry, facts: Facts)
    requires e.name == GRAPH_INSTANCE && Judge(e, facts) == ToChange
    ensures Pending([e], facts) == [e]
    ensures Only([e], GRAPH_INSTANCE) == [e] && Environments.Without([e], GRAPH_INSTANCE) == []
  {
    hide Judge;
    var none: seq<Entry> := [e][..0];
    assert none == [] && [e][|[e]| - 1] == e;
    assert Environments.Without(none, GRAPH_INSTANCE) == [] && Only(none, GRAPH_INSTANCE) == [];
    assert Pick([e], facts, ToAdd) == [] && Pick([e], facts, ToChange) == [e];
  }

  /** The forgetting branch is reachable: a deployed graph whose configuration changed, and
      whose changeset cannot be seeded, is pending before the run and settled after it. */
  lemma GraphRetryIsLost(e: Entry, old': Entry, o: Oracle)
    requires e.name == old'.name == GRAPH_INSTANCE && EntryHash(e) != EntryHash(old')
    requires o.readable && o.live == None && o.lastWritable && !o.graph.ok && o.graph.reset == {}
    ensures var w := World(map[GRAPH_INSTANCE := Some(DEPLOYED)], map[],
                           Snapshot([SnapshotEntry(old', EntryHash(old'), None)]), {GRAPH_INSTANCE});
            var r := Reconciled(w, Some([e]), true, false, "local", o);
            && Judge(e, Facts(w.status, w.file, None)) == ToChange
            && !r.ok
            && Judge(e, Facts(r.world.status, r.world.file, None)) == IsUnchanged
  {
    hide Pending, Only, Environments.Without, Judge, HashesOf, ReleasesOf, EntryHash, Protected;
    var record := SnapshotEntry(old', EntryHash(old'), None);
    var w := World(map[GRAPH_INSTANCE := Some(DEPLOYED)], map[], Snapshot([record]), {GRAPH_INSTANCE});
    var facts := Facts(w.status, w.file, None);
    RecordsAppend([], record, GRAPH_INSTANCE);
    assert [] + [record] == [record];
    JudgeReads(e, facts);
    OneEntry(e, facts);
    NotEmpty(w, [e], o, e);
    var graph := AfterGraph(w, [e], false, "local", o);
    assert graph == GraphResult(Seeded(w, [e], o.graph), false, false);
    assert IsDeployed(graph.world.status, GRAPH_INSTANCE);
    ApplyUnfolds(w, [e], true, false, "local", o);
    WritePhaseReads(graph.world, [e], true, true, "local", o, e);
    var after := Apply(w, [e], true, false, "local", o);
    JudgeReads(e, Facts(after.world.status, after.world.file, None));
  }
}
