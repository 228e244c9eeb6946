/** What a reconcile run reports and leaves behind, by its inputs: the world it starts in, the
    flags, and the outcome of each thing it tries.

    Source: `environments._reconcile_environment`, `environments._observed_releases`,
    `env_reconcile.compute_plan`. */
module Outcomes {
  import opened Bom
  import opened ChangeSet
  import opened Common
  import opened Convergence
  import opened Destroy
  import opened EnvironmentLaws
  import opened Environments
  import opened Reconcile
  import opened Runner

  // ---------------------------------------------------------------------------
  // The inputs
  // ---------------------------------------------------------------------------

  /** Some node of a changeset fails. */
  ghost predicate Breaks(nodes: seq<Node>, mode: Mode) {
    exists i :: 0 <= i < |nodes| && Fails(nodes[i], mode)
  }

  /** The instances of the nodes before the first that fails. */
  ghost function Done(nodes: seq<Node>, mode: Mode): set<string> {
    set i | 0 <= i < |nodes| && (forall j :: 0 <= j <= i ==> !Fails(nodes[j], mode)) :: nodes[i].instance
  }

  /** A declared entry is pending: the graph, or another. */
  ghost predicate GraphPends(w: World, desired: seq<Entry>, o: Oracle) {
    exists e :: e in desired && IsPending(w, o, e) && e.name == "global-graph"
  }

  ghost predicate RestPends(w: World, desired: seq<Entry>, o: Oracle) {
    exists e :: e in desired && IsPending(w, o, e) && e.name != "global-graph"
  }

  /** The instances the CLI owns and those the environment declares must survive a destroy. */
  ghost predicate MustStay(desired: seq<Entry>, n: string) {
    || n in {"local-neuronsphere", "environment-db", "eks-cluster", "local-databases"}
    || exists e :: e in desired && e.name == n
  }

  ghost predicate ShouldGo(w: World, desired: seq<Entry>, n: string) {
    n in w.status && w.status[n] == Some("DEPLOYED") && !MustStay(desired, n)
  }

  /** Destroying what should go would take something that must stay. */
  ghost predicate Collides(w: World, desired: seq<Entry>) {
    exists x, n :: MustStay(desired, x) && ShouldGo(w, desired, n) && n != "" && LeadsTo(w.edges, x, n)
  }

  ghost predicate Prunes(w: World, desired: seq<Entry>, prune: bool) {
    prune && exists n :: ShouldGo(w, desired, n)
  }

  /** The destroy phase runs its changeset. */
  ghost predicate DestroyRuns(w: World, desired: seq<Entry>, prune: bool, o: Oracle) {
    && Prunes(w, desired, prune) && o.destroyable
    && !Collides(w, desired) && exists n :: ShouldGo(w, desired, n) && n != ""
  }

  lemma BreaksMeans(nodes: seq<Node>, mode: Mode)
    ensures Completes(nodes, mode) <==> !Breaks(nodes, mode)
    ensures Settles(nodes, mode) == Done(nodes, mode)
  {
    hide Fails, SettledCount, Succeeds;
    RunCompletes(nodes, mode);
    var k := SettledCount(nodes, mode);
    forall i | 0 <= i < |nodes| ensures Succeeds(nodes[i], mode) <==> !Fails(nodes[i], mode) {
      SucceedsUnlessFails(nodes[i], mode);
    }
    forall x | x in Settles(nodes, mode) ensures x in Done(nodes, mode) {
      var n :| n in nodes[..k] && n.instance == x;
      var i :| 0 <= i < k && nodes[i] == n;
    }
    forall x | x in Done(nodes, mode) ensures x in Settles(nodes, mode) {
      var i :| 0 <= i < |nodes| && (forall j :: 0 <= j <= i ==> !Fails(nodes[j], mode)) && nodes[i].instance == x;
      assert i < k;
      assert nodes[..k][i] == nodes[i];
    }
  }

  lemma RemovableShouldGo(w: World, desired: seq<Entry>)
    ensures forall n :: n in Removable(desired, w.status) <==> ShouldGo(w, desired, n)
    ensures forall n :: n in Names(desired) + Protected() <==> MustStay(desired, n)
  {
    ProtectedAre();
    RemovableMeans(desired, Facts(w.status, w.file, None));
  }

  lemma DestroyRunsMeans(w: World, desired: seq<Entry>, prune: bool, o: Oracle)
    ensures Prunes(w, desired, prune) <==> prune && Removable(desired, w.status) != {}
    ensures DestroyRuns(w, desired, prune, o)
            <==> && prune && Removable(desired, w.status) != {} && o.destroyable
                 && Prepare(w.edges, Removable(desired, w.status), Names(desired) + Protected()).Prepared?
  {
    hide ShouldGo, MustStay, LeadsTo, Removable, Prepare, Protected, Names;
    RemovableShouldGo(w, desired);
    PrepareMeans(w.edges, Removable(desired, w.status), Names(desired) + Protected());
  }

  lemma PendsMeans(w: World, desired: seq<Entry>, o: Oracle)
    ensures GraphOf(w, desired, o) != [] <==> GraphPends(w, desired, o)
    ensures RestOf(w, desired, o) != [] <==> RestPends(w, desired, o)
  {
    hide IsPending, GraphOf, RestOf;
    forall e ensures e in GraphOf(w, desired, o) <==> e in desired && IsPending(w, o, e) && e.name == GRAPH_INSTANCE
             ensures e in RestOf(w, desired, o) <==> e in desired && IsPending(w, o, e) && e.name != GRAPH_INSTANCE
    {
      PendingMembers(w, desired, o, e);
    }
    assert GraphOf(w, desired, o) != [] ==> GraphOf(w, desired, o)[0] in GraphOf(w, desired, o);
    assert RestOf(w, desired, o) != [] ==> RestOf(w, desired, o)[0] in RestOf(w, desired, o);
  }

  lemma EmptyMeans(w: World, desired: seq<Entry>, o: Oracle)
    ensures PlanIsEmpty(desired, Facts(w.status, w.file, o.live))
            <==> !GraphPends(w, desired, o) && !RestPends(w, desired, o) && Removable(desired, w.status) == {}
  {
    hide IsPending, Removable;
    PendsMeans(w, desired, o);
    var pending := PendingOf(w, desired, o);
    forall e ensures e in pending <==> e in desired && IsPending(w, o, e) { PendingMembers(w, desired, o, e); }
    assert pending != [] ==> pending[0] in pending;
  }

  // ---------------------------------------------------------------------------
  // What a run reports
  // ---------------------------------------------------------------------------

  /** How the destroy phase ends: it reports failure when the destroy cannot be prepared or its
      run breaks, and only in the second case ends the whole run; a refused destroy does
      neither. */
  lemma PruneEnds(w: World, desired: seq<Entry>, prune: bool, o: Oracle)
    ensures var phase := PrunePhase(w, desired, prune, o);
            var broken := DestroyRuns(w, desired, prune, o) && Breaks(o.destroyNodes, DestroyMode);
            && (phase.stop <==> broken)
            && (phase.ok <==> !broken && (Prunes(w, desired, prune) ==> o.destroyable))
  {
    hide Removable, Prepare, Protected, Names, Breaks, Destroyed, DestroyRuns, Prunes, Completes;
    DestroyRunsMeans(w, desired, prune, o);
    BreaksMeans(o.destroyNodes, DestroyMode);
  }

  /** When a run reports success, exactly: its desired state compiles, and either the graph is
      unreadable, so that nothing is tried, or everything it tries succeeds: the destroy is
      prepared and completes, a pending graph is seeded and completes, and so is, with
      `upgrade`, what else is pending. A refused destroy and what the flags hold back do not
      count against it. */
  lemma ReportsSuccess(w: World, desired: Option<seq<Entry>>, upgrade: bool, prune: bool, did: string, o: Oracle)
    ensures Reconciled(w, desired, upgrade, prune, did, o).ok
            <==> desired.Some? && (o.readable ==>
                   && (Prunes(w, desired.value, prune) ==> o.destroyable)
                   && (DestroyRuns(w, desired.value, prune, o) ==> !Breaks(o.destroyNodes, DestroyMode))
                   && (GraphPends(w, desired.value, o) ==> o.graph.ok && !Breaks(o.graph.nodes, DeployMode))
                   && (RestPends(w, desired.value, o) && upgrade ==> o.delta.ok && !Breaks(o.delta.nodes, DeployMode)))
  {
    if desired.Some? && o.readable {
      hide PrunePhase, GraphPhase, RestPhase, Prunes, DestroyRuns, Breaks, GraphPends, RestPends, Removable, Pending, PlanIsEmpty;
      EmptyMeans(w, desired.value, o);
      DestroyRunsMeans(w, desired.value, prune, o);
      DestroyRunsPrunes(w, desired.value, prune, o);
      PruneEnds(w, desired.value, prune, o);
      if !PrunePhase(w, desired.value, prune, o).stop {
        PhasesReport(w, desired.value, upgrade, prune, did, o);
      } else {
        ApplyStops(w, desired.value, upgrade, prune, did, o);
      }
    }
  }

  lemma DestroyRunsPrunes(w: World, desired: seq<Entry>, prune: bool, o: Oracle)
    ensures DestroyRuns(w, desired, prune, o) ==> Prunes(w, desired, prune)
  {
  }

  lemma PhasesReport(w: World, desired: seq<Entry>, upgrade: bool, prune: bool, did: string, o: Oracle)
    requires !PrunePhase(w, desired, prune, o).stop
    ensures Apply(w, desired, upgrade, prune, did, o).ok
            <==> && PrunePhase(w, desired, prune, o).ok
                 && (GraphPends(w, desired, o) ==> o.graph.ok && !Breaks(o.graph.nodes, DeployMode))
                 && (RestPends(w, desired, o) && upgrade ==> o.delta.ok && !Breaks(o.delta.nodes, DeployMode))
  {
    hide PrunePhase, GraphPends, RestPends, Breaks, Pending, Only, Environments.Without, Completes, Seeded, Deployed,
         AfterMerge, AfterWrite, ObservedReleases, OnlyIn, Settles;
    PendsMeans(w, desired, o);
    BreaksMeans(o.graph.nodes, DeployMode);
    BreaksMeans(o.delta.nodes, DeployMode);
  }

  /** Success with `upgrade` means that every pending entry the changesets have a node for is
      settled. */
  lemma SuccessSettles(w: World, desired: seq<Entry>, prune: bool, did: string, o: Oracle, e: Entry)
    requires Reconciled(w, Some(desired), true, prune, did, o).ok && o.readable
    requires e in desired && IsPending(w, o, e)
    requires exists n :: n in (if e.name == "global-graph" then o.graph.nodes else o.delta.nodes) && n.instance == e.name
    ensures e.name in SettledBy(w, desired, true, prune, did, o)
  {
    hide PrunePhase, Prunes, DestroyRuns, Breaks, IsPending, Completes, Settles, Done, GraphOf, RestOf, Reconciled,
         Seeded, Deployed, AfterMerge, ObservedReleases;
    ReportsSuccess(w, Some(desired), true, prune, did, o);
    PruneEnds(w, desired, prune, o);
    PendsMeans(w, desired, o);
    PendingMembers(w, desired, o, e);
    BreaksMeans(o.graph.nodes, DeployMode);
    BreaksMeans(o.delta.nodes, DeployMode);
    if e.name == GRAPH_INSTANCE {
      assert GraphPends(w, desired, o);
    } else {
      assert RestPends(w, desired, o);
      var n :| n in o.delta.nodes && n.instance == e.name;
      AllDone(o.delta.nodes, DeployMode, n);
      DeclaredNames(RestOf(w, desired, o), e);
    }
  }

  lemma AllDone(nodes: seq<Node>, mode: Mode, n: Node)
    requires !Breaks(nodes, mode) && n in nodes
    ensures n.instance in Done(nodes, mode)
  {
    hide Fails;
    var i :| 0 <= i < |nodes| && nodes[i] == n;
  }

  /** A run that cannot compile its desired state or read the deployment graph does nothing; the
      first is reported as a failure, the second is not. */
  lemma NothingKnownNothingDone(w: World, desired: Option<seq<Entry>>, upgrade: bool, prune: bool, did: string, o: Oracle)
    requires desired.None? || !o.readable
    ensures Reconciled(w, desired, upgrade, prune, did, o) == Result(w, desired.Some?)
  {
  }

  /** Nor does one whose environment matches its declared state: not even the snapshot is
      written. */
  lemma MatchingIsInert(w: World, desired: seq<Entry>, upgrade: bool, prune: bool, did: string, o: Oracle)
    requires o.readable && !GraphPends(w, desired, o) && !RestPends(w, desired, o)
    requires forall n :: !ShouldGo(w, desired, n)
    ensures Reconciled(w, Some(desired), upgrade, prune, did, o) == Result(w, true)
  {
    hide GraphPends, RestPends, ShouldGo, MustStay, Removable, Protected, Names, PlanIsEmpty, Apply;
    RemovableShouldGo(w, desired);
    EmptyMeans(w, desired, o);
  }

  // ---------------------------------------------------------------------------
  // What a run leaves deployed
  // ---------------------------------------------------------------------------

  /** Which instances are really there after a run, exactly: those the destroy run got to are
      gone; then, unless it broke, what the graph's run and, with `upgrade`, the last run got to
      is there. */
  lemma RunPresence(w: World, desired: seq<Entry>, upgrade: bool, prune: bool, did: string, o: Oracle)
    requires o.readable
    ensures var torn := if DestroyRuns(w, desired, prune, o) then Done(o.destroyNodes, DestroyMode) else {};
            var broken := DestroyRuns(w, desired, prune, o) && Breaks(o.destroyNodes, DestroyMode);
            Reconciled(w, Some(desired), upgrade, prune, did, o).world.present
            == (w.present - torn)
               + (if !broken && GraphPends(w, desired, o) && o.graph.ok then Done(o.graph.nodes, DeployMode) else {})
               + (if !broken && RestPends(w, desired, o) && upgrade && o.delta.ok then Done(o.delta.nodes, DeployMode) else {})
  {
    hide Prunes, DestroyRuns, Breaks, GraphPends, RestPends, Removable, Pending, PlanIsEmpty, Done, Settles, Completes, GraphOf,
         RestOf, PrunePhase, GraphPhase, RestPhase;
    EmptyMeans(w, desired, o);
    DestroyRunsMeans(w, desired, prune, o);
    DestroyRunsPrunes(w, desired, prune, o);
    PruneEnds(w, desired, prune, o);
    PendsMeans(w, desired, o);
    PruneLeaves(w, desired, prune, o);
    if PrunePhase(w, desired, prune, o).stop {
      ApplyStops(w, desired, upgrade, prune, did, o);
    } else {
      ApplyUnfolds(w, desired, upgrade, prune, did, o);
      var pruned := PrunePhase(w, desired, prune, o).world;
      var graph := AfterGraph(w, desired, prune, did, o);
      GraphLeaves(pruned, desired, GraphOf(w, desired, o), did, o);
      RestLeaves(graph.world, desired, RestOf(w, desired, o), GraphOf(w, desired, o) != [] && !graph.settled, upgrade, did, o);
    }
  }

  lemma PruneLeaves(w: World, desired: seq<Entry>, prune: bool, o: Oracle)
    ensures PrunePhase(w, desired, prune, o).world.present
            == w.present - if DestroyRuns(w, desired, prune, o) then Done(o.destroyNodes, DestroyMode) else {}
  {
    hide DestroyRuns, Removable, Prepare, Protected, Names, Done, Completes, Settles;
    DestroyRunsMeans(w, desired, prune, o);
    BreaksMeans(o.destroyNodes, DestroyMode);
  }

  lemma GraphLeaves(w: World, desired: seq<Entry>, graph: seq<Entry>, did: string, o: Oracle)
    ensures GraphPhase(w, desired, graph, did, o).world.present
            == w.present + if graph != [] && o.graph.ok then Done(o.graph.nodes, DeployMode) else {}
  {
    hide Done, Completes, Settles, AfterMerge, ObservedReleases;
    BreaksMeans(o.graph.nodes, DeployMode);
  }

  lemma RestLeaves(
    w: World, desired: seq<Entry>, rest: seq<Entry>, graphLost: bool, upgrade: bool, did: string, o: Oracle)
    ensures RestPhase(w, desired, rest, graphLost, upgrade, did, o).world.present
            == w.present + if rest != [] && upgrade && o.delta.ok then Done(o.delta.nodes, DeployMode) else {}
  {
    hide Done, Completes, Settles, AfterMerge, AfterWrite, ObservedReleases, OnlyIn;
    BreaksMeans(o.delta.nodes, DeployMode);
  }

  /** What a run's nodes read afterwards, when their updates land: the success status up to the
      first that fails, FAILED there, and what they read before from there on. */
  lemma RunReads(status: StatusMap, nodes: seq<Node>, mode: Mode, lost: set<string>, f: nat, i: nat)
    requires DistinctInstances(nodes) && i < |nodes| && nodes[i].rid !in lost
    requires f <= |nodes| && (forall j :: 0 <= j < f ==> !Fails(nodes[j], mode)) && (f < |nodes| ==> Fails(nodes[f], mode))
    ensures Get(AfterRun(status, nodes, mode, lost), nodes[i].instance)
            == if i < f then Some(Some(if mode.destroy then "DESTROYED" else if mode.dryRun then "PLANNED" else "DEPLOYED"))
               else if i == f then Some(Some("FAILED"))
               else Get(status, nodes[i].instance)
  {
    hide Fails, Succeeds, Land;
    StopsAt(nodes, mode, f);
    var reached := Reached(nodes, mode);
    if i < |reached| {
      assert reached[i] == nodes[i];
      LandOne(status, reached, mode, lost, nodes[i]);
    } else {
      LandCases(status, reached, mode, lost, nodes[i].instance);
      forall n | n in reached ensures n.instance != nodes[i].instance {
        var j :| 0 <= j < |reached| && reached[j] == n;
        assert nodes[j].instance != nodes[i].instance;
      }
    }
  }

  // ---------------------------------------------------------------------------
  // Drift
  // ---------------------------------------------------------------------------

  /** Two declarations of one instance differ in something other than `deployment_id`. */
  ghost predicate Redeclared(e: Entry, e': Entry) {
    e'.className != e.className || e'.version != e.version || e'.config != e.config || e'.dependencies != e.dependencies
  }

  lemma DriftJudged(f: File, status: StatusMap, live: Option<set<string>>, desired: seq<Entry>, plan: Plan, e: Entry, e': Entry)
    requires RecordedHash(f, e.name) == Some(EntryHash(e)) && e'.name == e.name
    requires IsPlan(plan, desired, Facts(status, f, live)) && UniqueNames(desired) && e' in desired
    requires e.name in status && status[e.name] == Some("DEPLOYED")
    requires !MissingAt(f, live, e.name)
    ensures e' in plan.change <==> Redeclared(e, e')
    ensures e.name in plan.settled <==> !Redeclared(e, e')
  {
    hide Judge, EntryHash, RecordedHash, RecordedRelease;
    var facts := Facts(status, f, live);
    JudgeReads(e', facts);
    DigestTells(e, e');
    PickMembers(desired, facts, ToChange);
    SettledNames(desired, facts);
  }

  /** Drift detection: once a run has recorded `e`, and while it reads DEPLOYED with its release
      not missing, the next plan proposes a redeclared entry of that name as a change if and
      only if its class, version, configuration or dependencies differ; a different
      `deployment_id` alone leaves it settled. */
  lemma DriftAfterMerge(
    f: File, definition: seq<Entry>, applied: set<string>, releases: map<string, string>,
    status: StatusMap, live: Option<set<string>>, desired: seq<Entry>, plan: Plan, e: Entry, e': Entry)
    requires UniqueNames(definition) && e in definition && e.name in applied && e.name != "" && e'.name == e.name
    requires UniqueNames(desired) && e' in desired
    requires IsPlan(plan, desired, Facts(status, AfterMerge(f, definition, applied, releases, true), live))
    requires e.name in status && status[e.name] == Some("DEPLOYED")
    requires !MissingAt(AfterMerge(f, definition, applied, releases, true), live, e.name)
    ensures e' in plan.change <==> Redeclared(e, e')
    ensures e.name in plan.settled <==> !Redeclared(e, e')
  {
    hide AfterMerge, EntryHash, IsPlan, Redeclared, RecordedHash, RecordedRelease;
    MergeReads(f, definition, applied, releases, true, e);
    DriftJudged(AfterMerge(f, definition, applied, releases, true), status, live, desired, plan, e, e');
  }

  /** And once the whole definition has been written. */
  lemma DriftAfterWrite(
    f: File, definition: seq<Entry>, releases: map<string, string>,
    status: StatusMap, live: Option<set<string>>, desired: seq<Entry>, plan: Plan, e: Entry, e': Entry)
    requires UniqueNames(definition) && e in definition && e.name != "" && e'.name == e.name
    requires UniqueNames(desired) && e' in desired
    requires IsPlan(plan, desired, Facts(status, AfterWrite(f, definition, releases, true), live))
    requires e.name in status && status[e.name] == Some("DEPLOYED")
    requires !MissingAt(AfterWrite(f, definition, releases, true), live, e.name)
    ensures e' in plan.change <==> Redeclared(e, e')
    ensures e.name in plan.settled <==> !Redeclared(e, e')
  {
    hide EntryHash, IsPlan, Redeclared, RecordedHash, RecordedRelease, WrittenRecords;
    WriteReads(definition, releases, e);
    DriftJudged(Snapshot(WrittenRecords(definition, releases)), status, live, desired, plan, e, e');
  }

  // ---------------------------------------------------------------------------
  // Releases
  // ---------------------------------------------------------------------------

  /** An applied entry has a release recorded if and only if the cluster could be listed and
      shows the one Helm gives it. */
  lemma ReleaseObserved(entries: seq<Entry>, live: Option<set<string>>, did: string, n: string)
    ensures Get(ObservedReleases(entries, live, did), n)
            == if live.Some? && n != "" && n + "-" + did in live.value && exists e :: e in entries && e.name == n
               then Some(n + "-" + did) else None
  {
  }

  /** A release that was seen and vanishes brings its instance back: after a last changeset that
      settled `e` with its release on the cluster, a plan over a listing without it proposes
      `e` although it reads DEPLOYED. One that was never seen, or a cluster that cannot be
      listed, does not. */
  lemma VanishedReleaseReturns(
    w: World, desired: seq<Entry>, rest: seq<Entry>, graphLost: bool, did: string, o: Oracle,
    status: StatusMap, live: Option<set<string>>, e: Entry)
    requires UniqueNames(desired) && e in desired && e.name != "" && e in rest && o.lastWritable
    requires forall n :: n in o.delta.nodes ==> n.instance in Names(rest)
    requires o.delta.ok && e.name in Done(o.delta.nodes, DeployMode)
    requires e.name in status && status[e.name] == Some("DEPLOYED")
    ensures var after := RestPhase(w, desired, rest, graphLost, true, did, o).world;
            Judge(e, Facts(status, after.file, live))
            == if o.deltaLive.Some? && e.name + "-" + did in o.deltaLive.value
                  && live.Some? && e.name + "-" + did !in live.value
               then ToAdd else IsUnchanged
  {
    hide RestPhase, Judge, EntryHash, RecordedHash, RecordedRelease, Done, Settles, ObservedReleases, Names;
    BreaksMeans(o.delta.nodes, DeployMode);
    DeclaredNames(rest, e);
    RestPhaseReads(w, desired, rest, graphLost, true, did, o, e);
    var settled := OnlyIn(rest, Settles(o.delta.nodes, DeployMode));
    Selected(rest, "", Settles(o.delta.nodes, DeployMode));
    ReleaseObserved(settled, o.deltaLive, did, e.name);
    assert e in settled;
    JudgeReads(e, Facts(status, RestPhase(w, desired, rest, graphLost, true, did, o).world.file, live));
  }
}
