/** Applying a reconcile plan: prune, then the graph, then the rest.

    Source: `environments._reconcile_environment`, `environments._observed_releases`, and
    the deployment half of `environments._run_full_bootstrap`. ms-deployment is the state
    its documented effects act on; what it and the cluster answer is an oracle. */
module Environments {
  import opened Bom
  import opened ChangeSet
  import opened Common
  import opened Destroy
  import opened Reconcile
  import opened Runner

  const DeployMode := Mode(false, false)

  /** `status` is what the deployment graph reads for this environment, `present` what is
      really deployed in it. */
  datatype World = World(status: StatusMap, edges: Edges, file: File, present: set<string>)

  /** What seeding a changeset does: whether it returns, the nodes it hands back, and the
      instances whose newest deployment no longer reads DEPLOYED because of it. */
  datatype Seeding = Seeding(ok: bool, nodes: seq<Node>, reset: set<string>)

  /** Everything one reconcile run depends on but does not decide. `lost` holds the
      deployments whose status update does not land. */
  datatype Oracle = Oracle(
    readable: bool,
    live: Option<set<string>>,
    destroyable: bool,
    destroyNodes: seq<Node>,
    graph: Seeding,
    graphLive: Option<set<string>>,
    graphWritable: bool,
    delta: Seeding,
    deltaLive: Option<set<string>>,
    lastWritable: bool,
    lost: set<string>)

  // ---------------------------------------------------------------------------
  // What one changeset does to the world
  // ---------------------------------------------------------------------------

  /** The statuses of the reached nodes, landed in order. */
  function Land(status: StatusMap, nodes: seq<Node>, mode: Mode, lost: set<string>): StatusMap {
    if nodes == [] then status
    else
      var n := nodes[|nodes| - 1];
      var before := Land(status, nodes[..|nodes| - 1], mode, lost);
      if n.rid in lost then before else before[n.instance := Some(NodeStatus(n, mode))]
  }

  function AfterRun(status: StatusMap, nodes: seq<Node>, mode: Mode, lost: set<string>): StatusMap {
    Land(status, Reached(nodes, mode), mode, lost)
  }

  /** The instances a run settles. */
  function Settles(nodes: seq<Node>, mode: Mode): set<string> {
    set n | n in nodes[..SettledCount(nodes, mode)] :: n.instance
  }

  predicate Completes(nodes: seq<Node>, mode: Mode) {
    SettledCount(nodes, mode) == |nodes|
  }

  function TargetsOf(entries: seq<Entry>, name: string): set<string> {
    var p := IndexOf(entries, name);
    if p < |entries| then entries[p].dependencies.Values else {}
  }

  function Seeded(w: World, entries: seq<Entry>, s: Seeding): World {
    var names := if s.ok then Names(entries) else Names(entries) * s.reset;
    w.(status := w.status + (map n | n in Names(entries) * s.reset :: Some("DEPLOY_NEXT")),
       edges := w.edges + (map n | n in names :: TargetsOf(entries, n)))
  }

  function Deployed(w: World, nodes: seq<Node>, lost: set<string>): World {
    w.(status := AfterRun(w.status, nodes, DeployMode, lost), present := w.present + Settles(nodes, DeployMode))
  }

  function Destroyed(w: World, nodes: seq<Node>, lost: set<string>): World {
    w.(status := AfterRun(w.status, nodes, DestroyMode, lost), present := w.present - Settles(nodes, DestroyMode))
  }

  function ReleaseName(name: string, deploymentId: string): string {
    name + "-" + deploymentId
  }

  /** The releases applied entries are seen to have installed; none when the cluster is
      unreadable or empty. */
  function ObservedReleases(entries: seq<Entry>, live: Option<set<string>>, deploymentId: string): map<string, string> {
    if live.None? then map[]
    else map n | n in Names(entries) && n != "" && ReleaseName(n, deploymentId) in live.value :: ReleaseName(n, deploymentId)
  }

  // ---------------------------------------------------------------------------
  // One reconcile run
  // ---------------------------------------------------------------------------

  function Without(entries: seq<Entry>, name: string): seq<Entry> {
    if entries == [] then []
    else
      var e := entries[|entries| - 1];
      var rest := Without(entries[..|entries| - 1], name);
      if e.name == name then rest else rest + [e]
  }

  function Only(entries: seq<Entry>, name: string): seq<Entry> {
    if entries == [] then []
    else
      var e := entries[|entries| - 1];
      var rest := Only(entries[..|entries| - 1], name);
      if e.name == name then rest + [e] else rest
  }

  function OnlyIn(entries: seq<Entry>, names: set<string>): seq<Entry> {
    if entries == [] then []
    else
      var e := entries[|entries| - 1];
      var rest := OnlyIn(entries[..|entries| - 1], names);
      if e.name in names then rest + [e] else rest
  }

  function Pending(desired: seq<Entry>, facts: Facts): seq<Entry> {
    Pick(desired, facts, ToAdd) + Pick(desired, facts, ToChange)
  }

  /** A phase's result; `stop` means the run returns there. */
  datatype Phase = Phase(world: World, ok: bool, stop: bool)

  ghost function PrunePhase(w: World, desired: seq<Entry>, prune: bool, o: Oracle): Phase {
    var remove := Removable(desired, w.status);
    if remove == {} || !prune then Phase(w, true, false)
    else if !o.destroyable then Phase(w, false, false)
    else if !Prepare(w.edges, remove, Names(desired) + Protected()).Prepared? then Phase(w, true, false)
    else
      var done := Completes(o.destroyNodes, DestroyMode);
      Phase(Destroyed(w, o.destroyNodes, o.lost), done, !done)
  }

  /** `settled` is whether the graph changeset was recorded. */
  datatype GraphResult = GraphResult(world: World, settled: bool, ok: bool)

  ghost function GraphPhase(w: World, desired: seq<Entry>, graph: seq<Entry>, did: string, o: Oracle): GraphResult {
    if graph == [] then GraphResult(w, false, true)
    else
      var seeded := Seeded(w, graph, o.graph);
      if !o.graph.ok then GraphResult(seeded, false, false)
      else
        var ran := Deployed(seeded, o.graph.nodes, o.lost);
        if !Completes(o.graph.nodes, DeployMode) then GraphResult(ran, false, false)
        else
          GraphResult(
            ran.(file := AfterMerge(ran.file, desired, Names(graph), ObservedReleases(graph, o.graphLive, did), o.graphWritable)),
            true, true)
  }

  ghost function RestPhase(
    w: World, desired: seq<Entry>, rest: seq<Entry>, graphLost: bool, upgrade: bool, did: string, o: Oracle): Phase
  {
    if rest == [] then
      var recorded := if graphLost then Without(desired, GRAPH_INSTANCE) else desired;
      Phase(w.(file := AfterWrite(w.file, recorded, LoadReleaseMap(w.file), o.lastWritable)), true, false)
    else if !upgrade then Phase(w, true, false)
    else
      var seeded := Seeded(w, rest, o.delta);
      if !o.delta.ok then Phase(seeded, false, false)
      else
        var ran := Deployed(seeded, o.delta.nodes, o.lost);
        var settled := OnlyIn(rest, Settles(o.delta.nodes, DeployMode));
        Phase(
          ran.(file := AfterMerge(ran.file, desired, Names(settled), ObservedReleases(settled, o.deltaLive, did), o.lastWritable)),
          Completes(o.delta.nodes, DeployMode), false)
  }

  datatype Result = Result(world: World, ok: bool)

  ghost function Apply(w: World, desired: seq<Entry>, upgrade: bool, prune: bool, did: string, o: Oracle): Result {
    var pending := Pending(desired, Facts(w.status, w.file, o.live));
    var pruned := PrunePhase(w, desired, prune, o);
    if pruned.stop then Result(pruned.world, false)
    else
      var graph := GraphPhase(pruned.world, desired, Only(pending, GRAPH_INSTANCE), did, o);
      var graphLost := Only(pending, GRAPH_INSTANCE) != [] && !graph.settled;
      var rest := RestPhase(graph.world, desired, Without(pending, GRAPH_INSTANCE), graphLost, upgrade, did, o);
      Result(rest.world, pruned.ok && graph.ok && rest.ok)
  }

  ghost predicate PlanIsEmpty(desired: seq<Entry>, facts: Facts) {
    Pending(desired, facts) == [] && Removable(desired, facts.status) == {}
  }

  /** A whole run. `desired` is `None` when compiling the desired state raises. */
  ghost function Reconciled(
    w: World, desired: Option<seq<Entry>>, upgrade: bool, prune: bool, did: string, o: Oracle): Result
  {
    if desired.None? then Result(w, false)
    else if !o.readable then Result(w, true)
    else if PlanIsEmpty(desired.value, Facts(w.status, w.file, o.live)) then Result(w, true)
    else Apply(w, desired.value, upgrade, prune, did, o)
  }

  class Environment {
    const deploymentId: string
    const runner: LocalWorkflowRunner
    const store: SnapshotStore
    var status: StatusMap
    var edges: Edges
    var present: set<string>

    constructor (deploymentId: string, runner: LocalWorkflowRunner, store: SnapshotStore, w: World)
      requires store.file == w.file
      ensures this.deploymentId == deploymentId && this.runner == runner && this.store == store
      ensures Current() == w
    {
      this.deploymentId, this.runner, this.store := deploymentId, runner, store;
      status, edges, present := w.status, w.edges, w.present;
    }

    function Current(): World
      reads this, store
    {
      World(status, edges, store.file, present)
    }

    /** Seeding a changeset, as far as the world is concerned. */
    method SeedBom(entries: seq<Entry>, s: Seeding)
      modifies this
      ensures Current() == Seeded(old(Current()), entries, s)
    {
      var names := if s.ok then Names(entries) else Names(entries) * s.reset;
      status := status + (map n | n in Names(entries) * s.reset :: Some("DEPLOY_NEXT"));
      edges := edges + (map n | n in names :: TargetsOf(entries, n));
    }

    method RunNodes(nodes: seq<Node>, destroy: bool, lost: set<string>) returns (ok: bool)
      modifies this, runner
      ensures Current() == if destroy then Destroyed(old(Current()), nodes, lost) else Deployed(old(Current()), nodes, lost)
      ensures ok == Completes(nodes, Mode(destroy, false))
      ensures runner.lastSucceeded == Instances(nodes[..SettledCount(nodes, Mode(destroy, false))])
    {
      ok := runner.Run("", nodes, destroy, false);
      var mode := Mode(destroy, false);
      status := AfterRun(status, nodes, mode, lost);
      present := if destroy then present - Settles(nodes, mode) else present + Settles(nodes, mode);
    }

    /** The removals: gated by `prune`, refused whole by the cascade guard. */
    method Prune(plan: Plan, prune: bool, o: Oracle) returns (ok: bool, stop: bool)
      requires IsPlan(plan, plan.desired, Facts(status, store.file, o.live))
      modifies this, runner
      ensures PrunePhase(old(Current()), plan.desired, prune, o) == Phase(Current(), ok, stop)
    {
      RemoveList(plan, Facts(status, store.file, o.live));
      if plan.remove == [] || !prune {
        return true, false;
      }
      if !o.destroyable {
        return false, false;
      }
      var keep := Names(plan.desired) + ProtectedNames();
      var preparation := Prepare(edges, (set n | n in plan.remove), keep);
      if !preparation.Prepared? {
        return true, false;
      }
      ok := RunNodes(o.destroyNodes, true, o.lost);
      return ok, !ok;
    }

    /** The graph changeset: unconditional, ahead of everything else. */
    method DeployGraph(desired: seq<Entry>, graph: seq<Entry>, o: Oracle) returns (settled: bool, ok: bool)
      modifies this, runner, store
      ensures GraphPhase(old(Current()), desired, graph, deploymentId, o) == GraphResult(Current(), settled, ok)
    {
      if graph == [] {
        return false, true;
      }
      SeedBom(graph, o.graph);
      if !o.graph.ok {
        return false, false;
      }
      ok := RunNodes(o.graph.nodes, false, o.lost);
      if !ok {
        return false, false;
      }
      store.MergeSnapshot(desired, graph, ObservedReleases(graph, o.graphLive, deploymentId), o.graphWritable);
      return true, true;
    }

    /** The remaining additions and redeploys, gated by `upgrade`. */
    method DeployRest(desired: seq<Entry>, rest: seq<Entry>, graphLost: bool, upgrade: bool, o: Oracle)
      returns (ok: bool)
      modifies this, runner, store
      ensures RestPhase(old(Current()), desired, rest, graphLost, upgrade, deploymentId, o) == Phase(Current(), ok, false)
    {
      if rest == [] {
        var recorded := if graphLost then Without(desired, GRAPH_INSTANCE) else desired;
        store.WriteSnapshot(recorded, LoadReleaseMap(store.file), o.lastWritable);
        return true;
      }
      if !upgrade {
        return true;
      }
      SeedBom(rest, o.delta);
      if !o.delta.ok {
        return false;
      }
      ok := RunNodes(o.delta.nodes, false, o.lost);
      var succeeded := set n | n in runner.lastSucceeded;
      InstancesSet(o.delta.nodes[..SettledCount(o.delta.nodes, DeployMode)]);
      var settled := OnlyIn(rest, succeeded);
      store.MergeSnapshot(desired, settled, ObservedReleases(settled, o.deltaLive, deploymentId), o.lastWritable);
    }

    /** `_reconcile_environment`. */
    method Reconcile(desired: Option<seq<Entry>>, upgrade: bool, prune: bool, o: Oracle) returns (ok: bool)
      modifies this, runner, store
      ensures Reconciled(old(Current()), desired, upgrade, prune, deploymentId, o) == Result(Current(), ok)
    {
      if desired.None? {
        return false;
      }
      var plan := ComputePlan(desired.value, if o.readable then Some(status) else None, store.file, o.live);
      if plan.degraded {
        return true;
      }
      RemoveList(plan, Facts(status, store.file, o.live));
      if plan.IsEmpty() {
        return true;
      }
      var stop;
      ok, stop := Prune(plan, prune, o);
      if stop {
        return false;
      }
      var pending := plan.add + plan.change;
      var graph, rest := Only(pending, GRAPH_INSTANCE), Without(pending, GRAPH_INSTANCE);
      var settled, graphOk := DeployGraph(plan.desired, graph, o);
      var restOk := DeployRest(plan.desired, rest, graph != [] && !settled, upgrade, o);
      ok := ok && graphOk && restOk;
    }
  }

  lemma RemoveList(plan: Plan, facts: Facts)
    requires IsPlan(plan, plan.desired, facts)
    ensures (set n | n in plan.remove) == Removable(plan.desired, facts.status)
    ensures plan.remove == [] <==> Removable(plan.desired, facts.status) == {}
  {
    if plan.remove != [] {
      assert plan.remove[0] in plan.remove;
    }
  }

  lemma InstancesSet(nodes: seq<Node>)
    ensures (set n | n in Instances(nodes)) == set n | n in nodes :: n.instance
  {
    forall x | x in Instances(nodes) ensures exists n :: n in nodes && n.instance == x {
      var i :| 0 <= i < |nodes| && Instances(nodes)[i] == x;
      assert nodes[i] in nodes;
    }
    forall n | n in nodes ensures n.instance in Instances(nodes) {
      var i :| 0 <= i < |nodes| && nodes[i] == n;
      assert Instances(nodes)[i] == n.instance;
    }
  }
}
