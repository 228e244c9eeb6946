/** Progress and convergence of reconcile runs, and what holds over a whole history of them.

    Source: `environments._reconcile_environment`, `env_reconcile.compute_plan`. */
module Convergence {
  import opened Bom
  import opened ChangeSet
  import opened Common
  import opened Destroy
  import opened EnvironmentLaws
  import opened Environments
  import opened Reconcile
  import opened Runner

  // ---------------------------------------------------------------------------
  // What a run leaves readable of the entries it settled, and of those not pending
  // ---------------------------------------------------------------------------

  lemma AfterRest(w: World, desired: seq<Entry>, upgrade: bool, prune: bool, did: string, o: Oracle, e: Entry)
    requires UniqueNames(desired) && Documented(w, desired, o) && e in desired && e.name != ""
    requires !PrunePhase(w, desired, prune, o).stop
    ensures var pruned := PrunePhase(w, desired, prune, o).world;
            && Get(pruned.status, e.name) == Get(w.status, e.name) && pruned.file == w.file
            && (forall g :: g in GraphOf(w, desired, o) ==> g.name == GRAPH_INSTANCE)
            && DistinctInstances(o.graph.nodes)
            && (forall n :: n in o.graph.nodes ==> n.instance in Names(GraphOf(w, desired, o)))
            && (forall n :: n in o.delta.nodes ==> n.instance in Names(RestOf(w, desired, o)))
            && (e.name in Names(GraphOf(w, desired, o)) <==> IsPending(w, o, e) && e.name == GRAPH_INSTANCE)
            && (e.name in Names(RestOf(w, desired, o)) <==> IsPending(w, o, e) && e.name != GRAPH_INSTANCE)
  {
    hide PrunePhase, Documented, IsPending, GraphOf, RestOf;
    PruneSpares(w, desired, prune, o, e.name);
    DocumentedDeploys(w, desired, o);
    forall g ensures g in GraphOf(w, desired, o) ==> g in desired && g.name == GRAPH_INSTANCE && IsPending(w, o, g)
             ensures g in RestOf(w, desired, o) ==> g in desired && g.name != GRAPH_INSTANCE && IsPending(w, o, g)
    {
      PendingMembers(w, desired, o, g);
    }
    PendingMembers(w, desired, o, e);
    if e.name in Names(GraphOf(w, desired, o)) {
      var g :| g in GraphOf(w, desired, o) && g.name == e.name;
      SameName(desired, e, g);
    }
    if e.name in Names(RestOf(w, desired, o)) {
      var g :| g in RestOf(w, desired, o) && g.name == e.name;
      SameName(desired, e, g);
    }
  }

  /** An entry that was not pending keeps its status and release, and its digest is the one
      recorded before or the current one. */
  lemma UnchangedReads(w: World, desired: seq<Entry>, upgrade: bool, prune: bool, did: string, o: Oracle, e: Entry)
    requires UniqueNames(desired) && Documented(w, desired, o) && e in desired && e.name != ""
    requires !IsPending(w, o, e) && !PrunePhase(w, desired, prune, o).stop
    ensures var after := Apply(w, desired, upgrade, prune, did, o).world;
            && Get(after.status, e.name) == Get(w.status, e.name)
            && RecordedRelease(after.file, e.name) == RecordedRelease(w.file, e.name)
            && (RecordedHash(after.file, e.name) == RecordedHash(w.file, e.name)
                || RecordedHash(after.file, e.name) == Some(EntryHash(e)))
  {
    hide PrunePhase, GraphPhase, RestPhase, Documented, RecordedHash, RecordedRelease, IsPending, GraphOf, RestOf;
    var pruned := PrunePhase(w, desired, prune, o).world;
    AfterRest(w, desired, upgrade, prune, did, o, e);
    ApplyUnfolds(w, desired, upgrade, prune, did, o);
    GraphPhaseReads(pruned, desired, GraphOf(w, desired, o), did, o, e);
    if GraphOf(w, desired, o) != [] {
      assert GraphOf(w, desired, o)[0] in GraphOf(w, desired, o);
      assert GRAPH_INSTANCE in Names(GraphOf(w, desired, o));
    }
    var graph := AfterGraph(w, desired, prune, did, o);
    var graphLost := GraphOf(w, desired, o) != [] && !graph.settled;
    if RestOf(w, desired, o) == [] {
      WritePhaseReads(graph.world, desired, graphLost, upgrade, did, o, e);
    } else {
      RestPhaseReads(graph.world, desired, RestOf(w, desired, o), graphLost, upgrade, did, o, e);
    }
  }

  /** What a settled entry has recorded: the current digest, and a release only if the
      cluster showed it. */
  lemma SettledReads(w: World, desired: seq<Entry>, upgrade: bool, prune: bool, did: string, o: Oracle, e: Entry)
    requires UniqueNames(desired) && Documented(w, desired, o) && e in desired && e.name != ""
    requires e.name in SettledBy(w, desired, upgrade, prune, did, o) && o.graphWritable && o.lastWritable
    ensures RecordedHash(Apply(w, desired, upgrade, prune, did, o).world.file, e.name) == Some(EntryHash(e))
    ensures IsPending(w, o, e)
  {
    hide PrunePhase, GraphPhase, RestPhase, Documented, RecordedHash, RecordedRelease, IsPending, GraphOf, RestOf, RestSettles;
    var pruned := PrunePhase(w, desired, prune, o).world;
    AfterRest(w, desired, upgrade, prune, did, o, e);
    ApplyUnfolds(w, desired, upgrade, prune, did, o);
    GraphPhaseReads(pruned, desired, GraphOf(w, desired, o), did, o, e);
    RestSettlesNames(RestOf(w, desired, o), upgrade, o);
    var graph := AfterGraph(w, desired, prune, did, o);
    if graph.settled && e.name == GRAPH_INSTANCE {
      assert GraphOf(w, desired, o)[0] in GraphOf(w, desired, o);
    }
    var graphLost := GraphOf(w, desired, o) != [] && !graph.settled;
    if RestOf(w, desired, o) == [] {
      WritePhaseReads(graph.world, desired, graphLost, upgrade, did, o, e);
    } else {
      RestPhaseReads(graph.world, desired, RestOf(w, desired, o), graphLost, upgrade, did, o, e);
    }
  }

  lemma RestSettlesNames(rest: seq<Entry>, upgrade: bool, o: Oracle)
    ensures RestSettles(rest, upgrade, o) <= Names(rest)
    ensures rest == [] ==> RestSettles(rest, upgrade, o) == {}
  {
  }

  // ---------------------------------------------------------------------------
  // Progress
  // ---------------------------------------------------------------------------

  /** The names a plan would deploy. */
  ghost function PendingNames(w: World, desired: seq<Entry>, live: Option<set<string>>): set<string> {
    set e | e in desired && Judge(e, Facts(w.status, w.file, live)) != IsUnchanged :: e.name
  }

  ghost predicate MissingAt(f: File, live: Option<set<string>>, name: string) {
    var release := RecordedRelease(f, name);
    release.Some? && live.Some? && release.value !in live.value
  }

  /** Between a run and the next plan nothing else happens: the statuses and snapshot writes
      of what the run settled landed, and the cluster misses exactly the releases it missed
      before, less those of settled instances. */
  ghost predicate Steady(
    w: World, after: World, desired: seq<Entry>, settled: set<string>, o: Oracle, live': Option<set<string>>)
  {
    && o.graphWritable && o.lastWritable
    && (forall n :: n in settled ==> IsDeployed(after.status, n))
    && (forall n :: n in Names(desired) && n in settled ==> !MissingAt(after.file, live', n))
    && (forall n :: n in Names(desired) && n !in settled && RecordedRelease(after.file, n) == RecordedRelease(w.file, n) ==>
          (MissingAt(after.file, live', n) <==> MissingAt(w.file, o.live, n)))
  }

  /** One run takes exactly what it settled off the pending list: what did not succeed is
      pending again, what succeeded is not, and nothing new becomes pending. */
  lemma Progress(
    w: World, desired: seq<Entry>, upgrade: bool, prune: bool, did: string, o: Oracle, live': Option<set<string>>)
    requires UniqueNames(desired) && AllNamed(desired) && Documented(w, desired, o) && o.readable
    requires !ForgetsGraph(w, desired, prune, o)
    requires Steady(w, Reconciled(w, Some(desired), upgrade, prune, did, o).world, desired,
                    SettledBy(w, desired, upgrade, prune, did, o), o, live')
    ensures PendingNames(Reconciled(w, Some(desired), upgrade, prune, did, o).world, desired, live')
            == PendingNames(w, desired, o.live) - SettledBy(w, desired, upgrade, prune, did, o)
  {
    hide *;
    var after := Reconciled(w, Some(desired), upgrade, prune, did, o).world;
    var settled := SettledBy(w, desired, upgrade, prune, did, o);
    forall e | e in desired
      ensures Judge(e, Facts(after.status, after.file, live')) != IsUnchanged
              <==> Judge(e, Facts(w.status, w.file, o.live)) != IsUnchanged && e.name !in settled
    {
      ProgressOfOne(w, desired, upgrade, prune, did, o, live', e);
    }
    PendingNamesMeans(w, desired, o.live);
    PendingNamesMeans(after, desired, live');
    UniqueMeans(desired);
  }

  lemma UniqueMeans(desired: seq<Entry>)
    requires UniqueNames(desired)
    ensures forall a, b :: a in desired && b in desired && a.name == b.name ==> a == b
  {
    forall a, b | a in desired && b in desired && a.name == b.name ensures a == b {
      SameName(desired, a, b);
    }
  }

  lemma PendingNamesMeans(w: World, desired: seq<Entry>, live: Option<set<string>>)
    ensures forall n :: n in PendingNames(w, desired, live) <==>
              exists e :: e in desired && e.name == n && Judge(e, Facts(w.status, w.file, live)) != IsUnchanged
  {
  }

  lemma ProgressOfOne(
    w: World, desired: seq<Entry>, upgrade: bool, prune: bool, did: string, o: Oracle, live': Option<set<string>>, e: Entry)
    requires UniqueNames(desired) && AllNamed(desired) && Documented(w, desired, o) && o.readable && e in desired
    requires !ForgetsGraph(w, desired, prune, o)
    requires Steady(w, Reconciled(w, Some(desired), upgrade, prune, did, o).world, desired,
                    SettledBy(w, desired, upgrade, prune, did, o), o, live')
    ensures var after := Reconciled(w, Some(desired), upgrade, prune, did, o).world;
            Judge(e, Facts(after.status, after.file, live')) != IsUnchanged
            <==> Judge(e, Facts(w.status, w.file, o.live)) != IsUnchanged
                 && e.name !in SettledBy(w, desired, upgrade, prune, did, o)
  {
    hide Documented, Apply, SettledBy, Rewrites, RecordedHash, RecordedRelease, Judge, PrunePhase, PlanIsEmpty, EntryHash,
         LeavesDeployed;
    var after := Reconciled(w, Some(desired), upgrade, prune, did, o).world;
    var i :| 0 <= i < |desired| && desired[i] == e;
    JudgeReads(e, Facts(w.status, w.file, o.live));
    JudgeReads(e, Facts(after.status, after.file, live'));
    if PlanIsEmpty(desired, Facts(w.status, w.file, o.live)) {
      EmptyPlanSettles(w, desired, o, e);
      if e.name in SettledBy(w, desired, upgrade, prune, did, o) {
        SettledReads(w, desired, upgrade, prune, did, o, e);
      }
    } else if e.name in SettledBy(w, desired, upgrade, prune, did, o) {
      SettledReads(w, desired, upgrade, prune, did, o, e);
    } else if IsPending(w, o, e) {
      UnsettledReads(w, desired, upgrade, prune, did, o, e);
      UnsettledStatus(w, desired, upgrade, prune, did, o, e);
      if Rewrites(w, desired, prune, o) && e.name == GRAPH_INSTANCE {
        GraphUnsettled(w, desired, upgrade, prune, did, o);
      }
    } else if PrunePhase(w, desired, prune, o).stop {
      StoppedReads(w, desired, upgrade, prune, did, o, e);
    } else {
      UnchangedReads(w, desired, upgrade, prune, did, o, e);
    }
  }

  /** A run that a failed destroy stops changes nothing a verdict on a declared entry reads. */
  lemma StoppedReads(w: World, desired: seq<Entry>, upgrade: bool, prune: bool, did: string, o: Oracle, e: Entry)
    requires Documented(w, desired, o) && e in desired && PrunePhase(w, desired, prune, o).stop
    ensures var after := Apply(w, desired, upgrade, prune, did, o).world;
            Get(after.status, e.name) == Get(w.status, e.name) && after.file == w.file
  {
    hide PrunePhase, Documented;
    ApplyStops(w, desired, upgrade, prune, did, o);
    PruneSpares(w, desired, prune, o, e.name);
  }

  lemma EmptyPlanSettles(w: World, desired: seq<Entry>, o: Oracle, e: Entry)
    requires PlanIsEmpty(desired, Facts(w.status, w.file, o.live)) && e in desired
    ensures !IsPending(w, o, e)
  {
    hide Judge, Pending;
    PendingMembers(w, desired, o, e);
  }

  datatype Step = Step(upgrade: bool, prune: bool, did: string, o: Oracle)

  ghost function After(w: World, desired: seq<Entry>, s: Step): World {
    Reconciled(w, Some(desired), s.upgrade, s.prune, s.did, s.o).world
  }

  /** A run that settles something, unless nothing was pending. */
  ghost predicate Productive(w: World, desired: seq<Entry>, s: Step, live': Option<set<string>>) {
    && Documented(w, desired, s.o) && s.o.readable
    && !ForgetsGraph(w, desired, s.prune, s.o)
    && Steady(w, After(w, desired, s), desired, SettledBy(w, desired, s.upgrade, s.prune, s.did, s.o), s.o, live')
    && (PendingNames(w, desired, s.o.live) == {}
        || SettledBy(w, desired, s.upgrade, s.prune, s.did, s.o) * PendingNames(w, desired, s.o.live) != {})
  }

  ghost function LiveAt(steps: seq<Step>, i: nat, last: Option<set<string>>): Option<set<string>> {
    if i < |steps| then steps[i].o.live else last
  }

  /** `worlds` is the history of the runs `steps`, each productive. */
  ghost predicate ProductiveHistory(
    worlds: seq<World>, steps: seq<Step>, desired: seq<Entry>, last: Option<set<string>>)
  {
    && |worlds| == |steps| + 1
    && forall i :: 0 <= i < |steps| ==>
         worlds[i + 1] == After(worlds[i], desired, steps[i])
         && Productive(worlds[i], desired, steps[i], LiveAt(steps, i + 1, last))
  }

  lemma HistoryTail(worlds: seq<World>, steps: seq<Step>, desired: seq<Entry>, last: Option<set<string>>)
    requires ProductiveHistory(worlds, steps, desired, last) && steps != []
    ensures ProductiveHistory(worlds[1..], steps[1..], desired, last)
    ensures LiveAt(steps, 1, last) == LiveAt(steps[1..], 0, last)
  {
    hide Productive, After;
    var rest := steps[1..];
    forall i | 0 <= i < |rest|
      ensures worlds[1..][i + 1] == After(worlds[1..][i], desired, rest[i])
      ensures Productive(worlds[1..][i], desired, rest[i], LiveAt(rest, i + 1, last))
    {
      assert steps[i + 1] == rest[i];
      assert LiveAt(steps, i + 2, last) == LiveAt(rest, i + 1, last);
    }
  }

  /** Productive runs drain the pending list: each takes at least one entry off it, so after
      as many runs as there were pending entries the plan has nothing left to deploy. */
  lemma {:induction false} RunsDrain(
    worlds: seq<World>, steps: seq<Step>, desired: seq<Entry>, last: Option<set<string>>)
    requires UniqueNames(desired) && AllNamed(desired) && ProductiveHistory(worlds, steps, desired, last)
    ensures PendingNames(worlds[|steps|], desired, last) == {}
            || |PendingNames(worlds[|steps|], desired, last)| + |steps|
               <= |PendingNames(worlds[0], desired, LiveAt(steps, 0, last))|
    decreases |steps|
  {
    if steps != [] {
      hide Productive, After, PendingNames;
      HistoryTail(worlds, steps, desired, last);
      RunsDrain(worlds[1..], steps[1..], desired, last);
      ProductiveShrinks(worlds[0], desired, steps[0], LiveAt(steps, 1, last));
    }
  }

  lemma ProductiveShrinks(w: World, desired: seq<Entry>, s: Step, live': Option<set<string>>)
    requires UniqueNames(desired) && AllNamed(desired) && Productive(w, desired, s, live')
    ensures var before, after := PendingNames(w, desired, s.o.live), PendingNames(After(w, desired, s), desired, live');
            if before == {} then after == {} else |after| < |before|
  {
    hide PendingNames, SettledBy, Reconciled, ForgetsGraph, PrunePhase, Documented, Steady;
    Progress(w, desired, s.upgrade, s.prune, s.did, s.o, live');
    var before, settled := PendingNames(w, desired, s.o.live), SettledBy(w, desired, s.upgrade, s.prune, s.did, s.o);
    if before != {} {
      var x :| x in settled * before;
      CardBelow(before - settled, before, x);
    }
  }

  lemma CardBelow<T>(a: set<T>, b: set<T>, x: T)
    requires a <= b && x in b && x !in a
    ensures |a| < |b|
  {
    var rest := b - {x} - a;
    assert a !! rest && a + rest == b - {x};
    assert |a + rest| == |a| + |rest|;
  }

  // ---------------------------------------------------------------------------
  // Convergence
  // ---------------------------------------------------------------------------

  /** Everything the run attempts succeeds: the guard lets the prune through, every node
      settles, every status update and snapshot write lands. */
  ghost predicate AllSucceeds(w: World, desired: seq<Entry>, o: Oracle) {
    var remove := Removable(desired, w.status);
    && o.readable && o.lost == {} && o.graphWritable && o.lastWritable
    && (remove != {} ==>
          && o.destroyable
          && Prepare(w.edges, remove, Names(desired) + Protected()).Prepared?
          && Completes(o.destroyNodes, DestroyMode))
    && (GraphOf(w, desired, o) != [] ==>
          o.graph.ok && Completes(o.graph.nodes, DeployMode) && GRAPH_INSTANCE in Settles(o.graph.nodes, DeployMode))
    && (RestOf(w, desired, o) != [] ==>
          && o.delta.ok && Completes(o.delta.nodes, DeployMode)
          && Names(RestOf(w, desired, o)) <= Settles(o.delta.nodes, DeployMode))
  }

  /** A name outside the definition is not touched after the destroy phase. */
  lemma OutsideUntouched(w: World, desired: seq<Entry>, upgrade: bool, prune: bool, did: string, o: Oracle, n: string)
    requires Documented(w, desired, o) && n !in Names(desired) && !PrunePhase(w, desired, prune, o).stop
    ensures Get(Apply(w, desired, upgrade, prune, did, o).world.status, n)
            == Get(PrunePhase(w, desired, prune, o).world.status, n)
  {
    hide PrunePhase, Documented, GraphOf, RestOf, AfterRun, OnlyIn, ObservedReleases, AfterMerge, AfterWrite;
    DocumentedDeploys(w, desired, o);
    ApplyUnfolds(w, desired, upgrade, prune, did, o);
    forall g ensures g in GraphOf(w, desired, o) || g in RestOf(w, desired, o) ==> g in desired {
      PendingMembers(w, desired, o, g);
    }
    var pruned := PrunePhase(w, desired, prune, o).world;
    var graph, rest := GraphOf(w, desired, o), RestOf(w, desired, o);
    SeedReads(pruned, graph, o.graph, n);
    RunDeploys(Seeded(pruned, graph, o.graph).status, o.graph.nodes, DeployMode, o.lost, n);
    var mid := AfterGraph(w, desired, prune, did, o).world;
    assert Get(mid.status, n) == Get(pruned.status, n);
    SeedReads(mid, rest, o.delta, n);
    RunDeploys(Seeded(mid, rest, o.delta).status, o.delta.nodes, DeployMode, o.lost, n);
  }

  lemma PruneDestroysAll(w: World, desired: seq<Entry>, o: Oracle, n: string)
    requires Documented(w, desired, o) && AllSucceeds(w, desired, o) && n in Removable(desired, w.status) && n != ""
    ensures var phase := PrunePhase(w, desired, true, o);
            !phase.stop && phase.ok && !IsDeployed(phase.world.status, n)
  {
    hide Protected, Removable, AfterRun, Closure, Names, GraphOf, RestOf, Documented;
    DocumentedDestroy(w, desired, o);
    var remove := Removable(desired, w.status);
    assert n in Closure(w.edges, remove - {""});
    var i :| 0 <= i < |o.destroyNodes| && o.destroyNodes[i].instance == n;
    assert o.destroyNodes[..|o.destroyNodes|] == o.destroyNodes;
    assert n in Settles(o.destroyNodes, DestroyMode);
    RunSettles(w.status, o.destroyNodes, DestroyMode, o.lost, n);
  }

  lemma PruneContinues(w: World, desired: seq<Entry>, o: Oracle)
    requires AllSucceeds(w, desired, o)
    ensures !PrunePhase(w, desired, true, o).stop
  {
    hide Prepare, Removable, Protected, Destroyed, GraphOf, RestOf;
  }

  /** A run that succeeds settles everything that was pending, and each settled name reads
      DEPLOYED afterwards. */
  lemma AllSettle(w: World, desired: seq<Entry>, did: string, o: Oracle)
    requires UniqueNames(desired) && AllNamed(desired) && Documented(w, desired, o) && AllSucceeds(w, desired, o)
    ensures !ForgetsGraph(w, desired, true, o)
    ensures SettledBy(w, desired, true, true, did, o) == PendingNames(w, desired, o.live)
  {
    hide PrunePhase, Documented, GraphOf, RestOf, Settles, Seeded, Deployed, ObservedReleases, AfterMerge, Judge, Prepare;
    PruneContinues(w, desired, o);
    forall n ensures n in SettledBy(w, desired, true, true, did, o) <==> n in PendingNames(w, desired, o.live) {
      PendingSplits(w, desired, o, n);
    }
  }

  lemma PendingSplits(w: World, desired: seq<Entry>, o: Oracle, n: string)
    ensures n in PendingNames(w, desired, o.live)
            <==> (GraphOf(w, desired, o) != [] && n == GRAPH_INSTANCE) || n in Names(RestOf(w, desired, o))
  {
    hide Judge, GraphOf, RestOf;
    PendingNamesMeans(w, desired, o.live);
    var graph := GraphOf(w, desired, o);
    if n in PendingNames(w, desired, o.live) {
      var e :| e in desired && e.name == n && IsPending(w, o, e);
      PendingMembers(w, desired, o, e);
    }
    if graph != [] {
      assert graph[0] in graph;
      PendingMembers(w, desired, o, graph[0]);
    }
    if n in Names(RestOf(w, desired, o)) {
      var e :| e in RestOf(w, desired, o) && e.name == n;
      PendingMembers(w, desired, o, e);
    }
  }

  lemma SettledDeployed(w: World, desired: seq<Entry>, did: string, o: Oracle, e: Entry)
    requires UniqueNames(desired) && Documented(w, desired, o) && AllSucceeds(w, desired, o)
    requires e in desired && e.name != "" && IsPending(w, o, e)
    ensures IsDeployed(Apply(w, desired, true, true, did, o).world.status, e.name)
  {
    hide PrunePhase, GraphPhase, RestPhase, Documented, GraphOf, RestOf, Settles, IsPending, Prepare, Removable, Completes;
    PruneContinues(w, desired, o);
    AfterRest(w, desired, true, true, did, o, e);
    DocumentedDeploys(w, desired, o);
    ApplyUnfolds(w, desired, true, true, did, o);
    var pruned := PrunePhase(w, desired, true, o).world;
    var graph, rest := GraphOf(w, desired, o), RestOf(w, desired, o);
    var mid := AfterGraph(w, desired, true, did, o);
    var graphLost := graph != [] && !mid.settled;
    if e.name == GRAPH_INSTANCE {
      assert graph != [] by { NotNone(graph, e.name); }
      GraphDeployed(pruned, desired, graph, did, o);
      forall g | g in rest ensures g.name != e.name { PendingMembers(w, desired, o, g); }
      RestSkips(mid.world, desired, rest, graphLost, true, did, o, e);
    } else {
      NotNone(rest, e.name);
      RestDeployed(mid.world, desired, rest, graphLost, did, o, e.name);
    }
  }

  lemma NotNone(entries: seq<Entry>, name: string)
    requires name in Names(entries)
    ensures entries != []
  {
  }

  lemma GraphDeployed(w: World, desired: seq<Entry>, graph: seq<Entry>, did: string, o: Oracle)
    requires graph != [] && o.graph.ok && o.lost == {} && DistinctInstances(o.graph.nodes)
    requires GRAPH_INSTANCE in Settles(o.graph.nodes, DeployMode)
    ensures Get(GraphPhase(w, desired, graph, did, o).world.status, GRAPH_INSTANCE) == Some(Some(DEPLOYED))
  {
    hide Seeded, AfterRun, AfterMerge, ObservedReleases, Settles;
    RunSettles(Seeded(w, graph, o.graph).status, o.graph.nodes, DeployMode, o.lost, GRAPH_INSTANCE);
  }

  lemma RestDeployed(
    w: World, desired: seq<Entry>, rest: seq<Entry>, graphLost: bool, did: string, o: Oracle, name: string)
    requires rest != [] && o.delta.ok && o.lost == {} && DistinctInstances(o.delta.nodes)
    requires name in Settles(o.delta.nodes, DeployMode)
    ensures Get(RestPhase(w, desired, rest, graphLost, true, did, o).world.status, name) == Some(Some(DEPLOYED))
  {
    hide Seeded, AfterRun, AfterMerge, ObservedReleases, OnlyIn, Settles;
    RunSettles(Seeded(w, rest, o.delta).status, o.delta.nodes, DeployMode, o.lost, name);
  }

  lemma SuccessIsOk(w: World, desired: seq<Entry>, did: string, o: Oracle)
    requires AllSucceeds(w, desired, o)
    ensures Apply(w, desired, true, true, did, o).ok
  {
    hide Prepare, Removable, Protected, Destroyed, Seeded, Deployed, OnlyIn, ObservedReleases, AfterMerge, AfterWrite,
         Settles, Pending, Only, Environments.Without;
  }

  lemma NothingRemovable(w: World, desired: seq<Entry>, did: string, o: Oracle)
    requires UniqueNames(desired) && AllNamed(desired) && Documented(w, desired, o) && AllSucceeds(w, desired, o)
    requires "" !in w.status
    ensures Removable(desired, Apply(w, desired, true, true, did, o).world.status) == {}
  {
    hide PrunePhase, Documented, AllSucceeds, Apply, Protected;
    var after := Apply(w, desired, true, true, did, o).world.status;
    PruneContinues(w, desired, o);
    forall n | n !in Names(desired) && n !in Protected() ensures !IsDeployed(after, n) {
      OutsideUntouched(w, desired, true, true, did, o, n);
      PruneSpares(w, desired, true, o, n);
      if IsDeployed(w.status, n) {
        PruneDestroysAll(w, desired, o, n);
      }
    }
  }

  lemma SuccessIsSteady(w: World, desired: seq<Entry>, did: string, o: Oracle, live': Option<set<string>>, after: World)
    requires UniqueNames(desired) && AllNamed(desired) && Documented(w, desired, o) && AllSucceeds(w, desired, o)
    requires after == Apply(w, desired, true, true, did, o).world
             || (after == w && PlanIsEmpty(desired, Facts(w.status, w.file, o.live)))
    requires forall n :: n in Names(desired) ==> !MissingAt(after.file, live', n)
    ensures Steady(w, after, desired, SettledBy(w, desired, true, true, did, o), o, live')
  {
    hide PrunePhase, Documented, Apply, SettledBy, RecordedRelease, Judge, PlanIsEmpty, GraphOf, RestOf, Prepare;
    AllSettle(w, desired, did, o);
    PendingNamesMeans(w, desired, o.live);
    forall e | e in desired
      ensures IsPending(w, o, e) ==> IsDeployed(after.status, e.name)
      ensures !IsPending(w, o, e) ==> !MissingAt(w.file, o.live, e.name)
    {
      var i :| 0 <= i < |desired| && desired[i] == e;
      JudgeReads(e, Facts(w.status, w.file, o.live));
      if PlanIsEmpty(desired, Facts(w.status, w.file, o.live)) {
        EmptyPlanSettles(w, desired, o, e);
      } else if IsPending(w, o, e) {
        SettledDeployed(w, desired, did, o, e);
      }
    }
  }

  /** Convergence: when a run with upgrade and prune succeeds at every step and the releases it
      leaves recorded are still on the cluster (or the cluster cannot be read), the run
      reports success and the next plan for the same desired state is empty. */
  lemma Converges(w: World, desired: seq<Entry>, did: string, o: Oracle, live': Option<set<string>>)
    requires UniqueNames(desired) && AllNamed(desired) && "" !in w.status
    requires Documented(w, desired, o) && AllSucceeds(w, desired, o)
    requires forall n :: n in Names(desired) ==>
               !MissingAt(Reconciled(w, Some(desired), true, true, did, o).world.file, live', n)
    ensures var r := Reconciled(w, Some(desired), true, true, did, o);
            r.ok && PlanIsEmpty(desired, Facts(r.world.status, r.world.file, live'))
  {
    hide PrunePhase, Documented, Apply, SettledBy, MissingAt, Judge, GraphOf, RestOf, Prepare, ForgetsGraph, Protected, Pending;
    var r := Reconciled(w, Some(desired), true, true, did, o);
    PruneContinues(w, desired, o);
    AllSettle(w, desired, did, o);
    SuccessIsOk(w, desired, did, o);
    SuccessIsSteady(w, desired, did, o, live', r.world);
    Progress(w, desired, true, true, did, o, live');
    assert PendingNames(r.world, desired, live') == {};
    NothingPending(r.world, desired, live');
    NothingRemovable(w, desired, did, o);
  }

  lemma OneAddition(e: Entry, facts: Facts)
    requires e.name != GRAPH_INSTANCE && Judge(e, facts) == ToAdd
    ensures Pending([e], facts) == [e]
    ensures Only([e], GRAPH_INSTANCE) == [] && Environments.Without([e], GRAPH_INSTANCE) == [e]
  {
    hide Judge;
    var none: seq<Entry> := [e][..0];
    assert none == [] && [e][|[e]| - 1] == e;
    assert Environments.Without(none, GRAPH_INSTANCE) == [] && Only(none, GRAPH_INSTANCE) == [];
    assert Pick([e], facts, ToChange) == [] && Pick([e], facts, ToAdd) == [e];
  }

  /** The conditions of convergence can be met: an entry declared in an empty environment whose
      deployment succeeds is pending before the run and settled after it. */
  lemma AdditionConverges(e: Entry, n: Node, did: string, o: Oracle)
    requires e.name != "" && e.name != GRAPH_INSTANCE && n.instance == e.name && Succeeds(n, DeployMode)
    requires o.readable && o.live == None && o.lost == {} && o.graphWritable && o.lastWritable
    requires o.destroyNodes == [] && o.graph.nodes == [] && o.delta.ok && o.delta.nodes == [n]
    ensures var w := World(map[], map[], Missing, {});
            var r := Reconciled(w, Some([e]), true, true, did, o);
            && !PlanIsEmpty([e], Facts(w.status, w.file, None))
            && r.ok && PlanIsEmpty([e], Facts(r.world.status, r.world.file, None))
  {
    hide Pending, Only, Environments.Without, Reconciled, PlanIsEmpty;
    var w := World(map[], map[], Missing, {});
    OneAddition(e, Facts(w.status, w.file, None));
    NotEmpty(w, [e], o, e);
    assert Removable([e], w.status) == {};
    assert Closure(w.edges, {}) == {} && {} - {""} == {};
    assert e in [e] && e.name in Names([e]);
    assert SettledCount([n][1..], DeployMode) == 0 && [n][..1] == [n];
    assert n in [n][..SettledCount([n], DeployMode)];
    assert Documented(w, [e], o);
    assert Names([e]) <= Settles(o.delta.nodes, DeployMode);
    assert AllSucceeds(w, [e], o);
    Converges(w, [e], did, o, None);
  }

  lemma NothingPending(w: World, desired: seq<Entry>, live: Option<set<string>>)
    requires PendingNames(w, desired, live) == {}
    ensures Pending(desired, Facts(w.status, w.file, live)) == []
  {
    hide Judge;
    var facts := Facts(w.status, w.file, live);
    PickMembers(desired, facts, ToAdd);
    PickMembers(desired, facts, ToChange);
    var pending := Pending(desired, facts);
    assert pending == Pick(desired, facts, ToAdd) + Pick(desired, facts, ToChange);
    assert pending != [] ==> pending[0] in pending;
    forall e | e in pending ensures e.name in PendingNames(w, desired, live) {
      assert e in desired && Judge(e, facts) != IsUnchanged;
    }
  }

  // ---------------------------------------------------------------------------
  // What every run keeps
  // ---------------------------------------------------------------------------

  /** A destroy run that stops part-way is where the whole run stops: nothing is seeded on top
      of a half-torn-down environment, and the snapshot is left alone. */
  lemma FailedDestroySeedsNothing(w: World, desired: seq<Entry>, upgrade: bool, prune: bool, did: string, o: Oracle)
    requires Documented(w, desired, o) && o.readable && PrunePhase(w, desired, prune, o).stop
    ensures var r := Reconciled(w, Some(desired), upgrade, prune, did, o);
            && !r.ok && r.world.edges == w.edges && r.world.file == w.file && r.world.present <= w.present
            && (forall n :: IsDeployed(r.world.status, n) ==> IsDeployed(w.status, n))
  {
    hide Documented, AfterRun, Prepare, Removable, Protected, Pending, Completes;
    PruneRuns(w, desired, prune, o);
    ApplyStops(w, desired, upgrade, prune, did, o);
    forall n ensures IsDeployed(PrunePhase(w, desired, prune, o).world.status, n) ==> IsDeployed(w.status, n) {
      PruneSpares(w, desired, prune, o, n);
    }
  }

  /** Acting is gated: without `upgrade` or `prune`, and with no graph pending, a run deploys
      and destroys nothing and leaves the deployment graph as it was. */
  lemma GatedRunIsInert(w: World, desired: Option<seq<Entry>>, did: string, o: Oracle)
    requires desired.Some? ==> GraphOf(w, desired.value, o) == []
    ensures var after := Reconciled(w, desired, false, false, did, o).world;
            after.status == w.status && after.edges == w.edges && after.present == w.present
  {
    hide Removable, Pending, Prepare, Judge, AfterWrite;
  }

  /** No run takes a declared or protected instance down, whatever fails in it. */
  lemma RunSpares(w: World, desired: seq<Entry>, upgrade: bool, prune: bool, did: string, o: Oracle, n: string)
    requires Documented(w, desired, o) && n in Names(desired) + Protected() && n in w.present
    ensures n in Reconciled(w, Some(desired), upgrade, prune, did, o).world.present
  {
    hide Documented, PrunePhase, Protected, Pending, AfterRun, Removable, Judge, AfterMerge, AfterWrite, ObservedReleases, Only,
         Environments.Without, OnlyIn;
    PruneSpares(w, desired, prune, o, n);
  }

  datatype Run = Run(desired: seq<Entry>, upgrade: bool, prune: bool, did: string, o: Oracle)

  ghost function Perform(w: World, runs: seq<Run>): World
    decreases |runs|
  {
    if runs == [] then w
    else
      var r := runs[0];
      Perform(Reconciled(w, Some(r.desired), r.upgrade, r.prune, r.did, r.o).world, runs[1..])
  }

  ghost predicate AllDocumented(w: World, runs: seq<Run>)
    decreases |runs|
  {
    runs != [] ==>
      var r := runs[0];
      && Documented(w, r.desired, r.o)
      && AllDocumented(Reconciled(w, Some(r.desired), r.upgrade, r.prune, r.did, r.o).world, runs[1..])
  }

  /** Over any history of runs, whatever each declares, prunes and fails at, an instance that
      is protected, or that every run declares, is never destroyed. */
  lemma {:induction false} HistorySpares(w: World, runs: seq<Run>, n: string)
    requires AllDocumented(w, runs) && n in w.present
    requires n in Protected() || forall r :: r in runs ==> n in Names(r.desired)
    ensures n in Perform(w, runs).present
    decreases |runs|
  {
    if runs != [] {
      hide Documented, Reconciled, Protected;
      var r := runs[0];
      assert r in runs;
      RunSpares(w, r.desired, r.upgrade, r.prune, r.did, r.o, n);
      HistorySpares(Reconciled(w, Some(r.desired), r.upgrade, r.prune, r.did, r.o).world, runs[1..], n);
    }
  }
}
