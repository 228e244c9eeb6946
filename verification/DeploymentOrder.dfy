/** The order a run seeds its changesets in, the bootstrap's snapshot, and independence of
    other environments.

    Source: `environments._reconcile_environment`, `environments._run_full_bootstrap`,
    `bom_seeder._repo_instance_status`. */
module DeploymentOrder {
  import opened Bom
  import opened ChangeSet
  import opened Common
  import opened EnvironmentLaws
  import opened Environments
  import opened Reconcile
  import opened Runner
  import TopoSort
  import DeploymentGraph

  // ---------------------------------------------------------------------------
  // Deployment order
  // ---------------------------------------------------------------------------

  /** What a run seeds, in order: the graph's changeset, then the remaining additions
      followed by the remaining redeploys. */
  ghost function SeedOrder(desired: seq<Entry>, facts: Facts): seq<Entry> {
    var pending := Pending(desired, facts);
    Only(pending, GRAPH_INSTANCE) + Environments.Without(pending, GRAPH_INSTANCE)
  }

  ghost predicate Needs(e: Entry, d: Entry) {
    d.name != e.name && d.name in e.dependencies.Values
  }

  /** Every declared dependency of a seeded entry is settled or seeded before it. */
  ghost predicate OrderSafe(desired: seq<Entry>, facts: Facts) {
    var order := SeedOrder(desired, facts);
    forall i, d :: 0 <= i < |order| && d in desired && Needs(order[i], d) ==>
      Judge(d, facts) == IsUnchanged || d in order[..i]
  }

  /** The dependencies that land in the wrong order: an addition that needs a redeploy, which
      is seeded after all additions, and anything pending that the graph needs. */
  ghost predicate Inverted(e: Entry, d: Entry, facts: Facts) {
    && Judge(e, facts) != IsUnchanged && Judge(d, facts) != IsUnchanged && Needs(e, d)
    && (e.name == GRAPH_INSTANCE
        || (d.name != GRAPH_INSTANCE && Judge(e, facts) == ToAdd && Judge(d, facts) == ToChange))
  }

  /** In `order`, whatever `d` is, it is listed before `e`. */
  ghost predicate Before(order: seq<Entry>, d: Entry, e: Entry) {
    exists j, i :: 0 <= j < i < |order| && order[j] == d && order[i] == e
  }

  lemma BeforeAcross(a: seq<Entry>, b: seq<Entry>, d: Entry, e: Entry)
    ensures Before(a, d, e) || Before(b, d, e) || (d in a && e in b) ==> Before(a + b, d, e)
  {
    if Before(a, d, e) {
      var j, i :| 0 <= j < i < |a| && a[j] == d && a[i] == e;
      assert (a + b)[j] == d && (a + b)[i] == e;
    } else if Before(b, d, e) {
      var j, i :| 0 <= j < i < |b| && b[j] == d && b[i] == e;
      assert (a + b)[|a| + j] == d && (a + b)[|a| + i] == e;
    } else if d in a && e in b {
      var j :| 0 <= j < |a| && a[j] == d;
      var i :| 0 <= i < |b| && b[i] == e;
      assert (a + b)[j] == d && (a + b)[|a| + i] == e;
    }
  }

  /** Taking the last entry off: either the pair is before it, or it is the later one. */
  lemma BeforeLast(entries: seq<Entry>, d: Entry, e: Entry)
    requires Before(entries, d, e)
    ensures entries != []
    ensures var init := entries[..|entries| - 1];
            Before(init, d, e) || (d in init && e == entries[|entries| - 1])
  {
    var j, i :| 0 <= j < i < |entries| && entries[j] == d && entries[i] == e;
    var init := entries[..|entries| - 1];
    assert init[j] == d;
    if i < |init| {
      assert init[i] == e;
    }
  }

  lemma {:induction false} PickBefore(desired: seq<Entry>, facts: Facts, v: Verdict, d: Entry, e: Entry)
    requires Before(desired, d, e) && Judge(d, facts) == v && Judge(e, facts) == v
    ensures Before(Pick(desired, facts, v), d, e)
    decreases |desired|
  {
    hide Judge, Before;
    BeforeLast(desired, d, e);
    var init, last := desired[..|desired| - 1], desired[|desired| - 1];
    if Before(init, d, e) {
      PickBefore(init, facts, v, d, e);
    }
    PickMembers(init, facts, v);
    BeforeAcross(Pick(init, facts, v), [last], d, e);
  }

  lemma {:induction false} WithoutBefore(entries: seq<Entry>, name: string, d: Entry, e: Entry)
    requires Before(entries, d, e) && d.name != name && e.name != name
    ensures Before(Environments.Without(entries, name), d, e)
    decreases |entries|
  {
    hide Before;
    BeforeLast(entries, d, e);
    var init, last := entries[..|entries| - 1], entries[|entries| - 1];
    if Before(init, d, e) {
      WithoutBefore(init, name, d, e);
    }
    Selected(init, name, {});
    BeforeAcross(Environments.Without(init, name), [last], d, e);
  }

  lemma SeedMembers(desired: seq<Entry>, facts: Facts, e: Entry)
    ensures e in SeedOrder(desired, facts) <==> e in desired && Judge(e, facts) != IsUnchanged
    ensures e in Only(Pending(desired, facts), GRAPH_INSTANCE)
            <==> e in desired && Judge(e, facts) != IsUnchanged && e.name == GRAPH_INSTANCE
    ensures e in Environments.Without(Pending(desired, facts), GRAPH_INSTANCE)
            <==> e in desired && Judge(e, facts) != IsUnchanged && e.name != GRAPH_INSTANCE
  {
    hide Judge;
    PickMembers(desired, facts, ToAdd);
    PickMembers(desired, facts, ToChange);
    Selected(Pending(desired, facts), GRAPH_INSTANCE, {});
  }

  /** A dependency that is not inverted is seeded first. */
  lemma SeededBefore(desired: seq<Entry>, facts: Facts, d: Entry, e: Entry)
    requires UniqueNames(desired) && TopoSort.DependencyOrdered(desired)
    requires d in desired && e in desired && Needs(e, d)
    requires Judge(d, facts) != IsUnchanged && Judge(e, facts) != IsUnchanged && !Inverted(e, d, facts)
    ensures Before(SeedOrder(desired, facts), d, e)
  {
    hide Judge, Pick, Only, Environments.Without;
    var p :| 0 <= p < |desired| && desired[p] == d;
    var i :| 0 <= i < |desired| && desired[i] == e;
    assert TopoSort.DependsOn(desired, i, p);
    assert Before(desired, d, e);
    var pending := Pending(desired, facts);
    var add, change := Pick(desired, facts, ToAdd), Pick(desired, facts, ToChange);
    SeedMembers(desired, facts, d);
    SeedMembers(desired, facts, e);
    if d.name == GRAPH_INSTANCE {
      BeforeAcross(Only(pending, GRAPH_INSTANCE), Environments.Without(pending, GRAPH_INSTANCE), d, e);
    } else {
      if Judge(d, facts) == Judge(e, facts) {
        PickBefore(desired, facts, Judge(d, facts), d, e);
      } else {
        PickMembers(desired, facts, ToAdd);
        PickMembers(desired, facts, ToChange);
      }
      BeforeAcross(add, change, d, e);
      WithoutBefore(pending, GRAPH_INSTANCE, d, e);
      BeforeAcross(Only(pending, GRAPH_INSTANCE), Environments.Without(pending, GRAPH_INSTANCE), d, e);
    }
  }

  lemma {:induction false} WithoutAcross(a: seq<Entry>, b: seq<Entry>, name: string)
    ensures Environments.Without(a + b, name) == Environments.Without(a, name) + Environments.Without(b, name)
  {
    hide *;
    if b == [] {
      assert a + b == a;
      WithoutLast([], a, name);
    } else {
      var init, last := b[..|b| - 1], b[|b| - 1];
      assert b == init + [last] && a + b == (a + init) + [last];
      WithoutAcross(a, init, name);
      WithoutLast([last], init, name);
      WithoutLast([last], a + init, name);
    }
  }

  lemma WithoutLast(last: seq<Entry>, init: seq<Entry>, name: string)
    requires |last| <= 1
    ensures Environments.Without([], name) == []
    ensures last != [] ==>
              Environments.Without(init + last, name)
              == Environments.Without(init, name) + if last[0].name == name then [] else last
  {
    if last != [] {
      assert (init + last)[..|init|] == init;
    }
  }

  lemma UniqueAcross(a: seq<Entry>, b: seq<Entry>)
    requires UniqueNames(a) && UniqueNames(b)
    requires forall x, y :: x in a && y in b ==> x.name != y.name
    ensures UniqueNames(a + b)
  {
    forall i, j | 0 <= i < j < |a + b| ensures (a + b)[i].name != (a + b)[j].name {
      if i < |a| <= j {
        assert a[i] in a && b[j - |a|] in b;
      }
    }
  }

  /** The parts a seed order is made of: the graph, the other additions, the other redeploys. */
  lemma SeedParts(desired: seq<Entry>, facts: Facts) returns (graph: seq<Entry>, add: seq<Entry>, change: seq<Entry>)
    requires UniqueNames(desired)
    ensures SeedOrder(desired, facts) == graph + (add + change) && UniqueNames(graph + (add + change))
    ensures forall e :: e in graph <==> e in desired && Judge(e, facts) != IsUnchanged && e.name == GRAPH_INSTANCE
    ensures forall e :: e in add <==> e in desired && Judge(e, facts) == ToAdd && e.name != GRAPH_INSTANCE
    ensures forall e :: e in change <==> e in desired && Judge(e, facts) == ToChange && e.name != GRAPH_INSTANCE
    ensures |graph| <= 1
  {
    hide Judge;
    PickMembers(desired, facts, ToAdd);
    PickMembers(desired, facts, ToChange);
    PickInOrder(desired, facts, ToAdd);
    PickInOrder(desired, facts, ToChange);
    var adds, changes := Pick(desired, facts, ToAdd), Pick(desired, facts, ToChange);
    var pending := Pending(desired, facts);
    Selected(adds, GRAPH_INSTANCE, {});
    Selected(changes, GRAPH_INSTANCE, {});
    Selected(pending, GRAPH_INSTANCE, {});
    WithoutAcross(adds, changes, GRAPH_INSTANCE);
    WithoutUnique(adds, GRAPH_INSTANCE);
    WithoutUnique(changes, GRAPH_INSTANCE);
    graph := Only(pending, GRAPH_INSTANCE);
    add, change := Environments.Without(adds, GRAPH_INSTANCE), Environments.Without(changes, GRAPH_INSTANCE);
    forall x, y | x in desired && y in desired && x.name == y.name ensures x == y {
      SameName(desired, x, y);
    }
    UniqueAcross(adds, changes);
    UniqueAcross(add, change);
    OnlyOne(pending, GRAPH_INSTANCE);
    assert UniqueNames(graph);
    UniqueAcross(graph, add + change);
  }

  lemma {:induction false} OnlyOne(entries: seq<Entry>, name: string)
    requires UniqueNames(entries)
    ensures |Only(entries, name)| <= 1
    ensures Only(entries, name) == [] <==> name !in Names(entries)
  {
    if entries != [] {
      hide UniqueNames, Names;
      var init, last := entries[..|entries| - 1], entries[|entries| - 1];
      assert entries == init + [last];
      UniqueAppend(init, last);
      OnlyOne(init, name);
      NamesAppend(init, last);
    }
  }

  lemma NamesAppend(init: seq<Entry>, last: Entry)
    ensures Names(init + [last]) == Names(init) + {last.name}
    ensures forall e :: e in init ==> e.name in Names(init)
  {
  }

  lemma PositionUnique(order: seq<Entry>, d: Entry, e: Entry, i: nat)
    requires UniqueNames(order) && i < |order| && order[i] == e && Before(order, d, e)
    ensures d in order[..i]
  {
    var j, k :| 0 <= j < k < |order| && order[j] == d && order[k] == e;
    assert k == i;
    assert order[..i][j] == d;
  }

  /** An inverted dependency really is seeded too late. */
  lemma InvertedIsUnsafe(desired: seq<Entry>, facts: Facts, d: Entry, e: Entry)
    requires UniqueNames(desired) && d in desired && e in desired && Inverted(e, d, facts)
    ensures !OrderSafe(desired, facts)
  {
    hide Judge, SeedOrder, UniqueNames, Needs;
    var graph, add, change := SeedParts(desired, facts);
    var order := SeedOrder(desired, facts);
    SeedMembers(desired, facts, e);
    var i :| 0 <= i < |order| && order[i] == e;
    assert e in graph || (e in add && d in change);
    forall j | 0 <= j < i ensures order[j] != d {
      SeededLater(graph, add, change, e, d, i, j);
    }
    assert d !in order[..i];
  }

  lemma SeededLater(graph: seq<Entry>, add: seq<Entry>, change: seq<Entry>, e: Entry, d: Entry, i: nat, j: nat)
    requires UniqueNames(graph + (add + change)) && |graph| <= 1
    requires (e in graph) || (e in add && d in change)
    requires i < |graph + (add + change)| && j < |graph + (add + change)| && (graph + (add + change))[i] == e
    ensures (graph + (add + change))[j] == d ==> i <= j
  {
    var order := graph + (add + change);
    assert graph + add + change == order;
    if e in graph {
      assert order[0] == e;
    } else if order[j] == d {
      LaterPart(graph + add, change, e, d, i, j);
    }
  }

  lemma LaterPart(a: seq<Entry>, b: seq<Entry>, e: Entry, d: Entry, i: nat, j: nat)
    requires UniqueNames(a + b) && e in a && d in b
    requires i < |a + b| && j < |a + b| && (a + b)[i] == e && (a + b)[j] == d
    ensures i < j
  {
    var k :| 0 <= k < |a| && a[k] == e;
    var l :| 0 <= l < |b| && b[l] == d;
    assert (a + b)[k] == e && (a + b)[|a| + l] == d;
    assert i == k && j == |a| + l;
  }

  /** For a definition in dependency order, every declared dependency of what a run seeds is
      settled or seeded earlier, if and only if no addition needs a redeploy and, when the
      graph is pending, nothing it needs is. */
  lemma SeedOrderSafety(desired: seq<Entry>, facts: Facts)
    requires UniqueNames(desired) && TopoSort.DependencyOrdered(desired)
    ensures OrderSafe(desired, facts) <==> forall e, d :: e in desired && d in desired ==> !Inverted(e, d, facts)
  {
    hide Judge, Inverted;
    var order := SeedOrder(desired, facts);
    forall e, d | e in desired && d in desired && Inverted(e, d, facts) ensures !OrderSafe(desired, facts) {
      InvertedIsUnsafe(desired, facts, d, e);
    }
    if forall e, d :: e in desired && d in desired ==> !Inverted(e, d, facts) {
      var graph, add, change := SeedParts(desired, facts);
      forall i, d | 0 <= i < |order| && d in desired && Needs(order[i], d) && Judge(d, facts) != IsUnchanged
        ensures d in order[..i]
      {
        SeedMembers(desired, facts, order[i]);
        SeededBefore(desired, facts, d, order[i]);
        PositionUnique(order, d, order[i], i);
      }
    }
  }

  /** What always holds: a dependency seeded too late for a non-graph entry is already
      deployed, so ms-deployment can resolve it. */
  lemma SeedOrderResolves(desired: seq<Entry>, facts: Facts, i: nat, d: Entry)
    requires UniqueNames(desired) && TopoSort.DependencyOrdered(desired)
    requires i < |SeedOrder(desired, facts)| && d in desired && Needs(SeedOrder(desired, facts)[i], d)
    requires SeedOrder(desired, facts)[i].name != GRAPH_INSTANCE
    ensures IsDeployed(facts.status, d.name) || d in SeedOrder(desired, facts)[..i]
  {
    hide SeedOrder, Before, Needs;
    var order := SeedOrder(desired, facts);
    var e := order[i];
    var graph, add, change := SeedParts(desired, facts);
    SeedMembers(desired, facts, e);
    if !IsDeployed(facts.status, d.name) {
      assert Judge(d, facts) == ToAdd;
      SeededBefore(desired, facts, d, e);
      PositionUnique(order, d, e, i);
    }
  }

  // ---------------------------------------------------------------------------
  // The bootstrap's snapshot
  // ---------------------------------------------------------------------------

  /** What seeding the graph's changeset does: there is none to seed, it raises, or it hands back
      nodes. */
  datatype Batch = NoBatch | Raised | Handed(nodes: seq<Node>)

  /** What `_run_full_bootstrap` records: the entries Phase A settled, and those its last run
      settled. The graph's own run comes before that one, and a changeset that cannot be seeded
      (`rest` is then `None`) ends the bootstrap with nothing recorded. */
  method RecordBootstrap(
    runner: LocalWorkflowRunner, store: SnapshotStore, definition: seq<Entry>, coreSucceeded: set<string>,
    graph: Batch, rest: Option<seq<Node>>, live: Option<set<string>>, did: string, writable: bool)
    returns (ok: bool)
    modifies runner, store
    ensures ok <==> !graph.Raised? && rest.Some? && (graph.Handed? ==> Completes(graph.nodes, DeployMode))
                    && Completes(rest.value, DeployMode)
    ensures graph.Raised? || rest.None? ==> store.file == old(store.file)
    ensures !graph.Raised? && rest.Some? ==>
              var applied := OnlyIn(definition, coreSucceeded + Settles(rest.value, DeployMode));
              store.file == AfterMerge(old(store.file), definition, Names(applied),
                                       ObservedReleases(applied, live, did), writable)
  {
    hide Completes, Settles, AfterMerge, ObservedReleases, OnlyIn;
    ok := true;
    if graph.Raised? {
      return false;
    }
    if graph.Handed? {
      RunCompletes(graph.nodes);
      ok := runner.Run("", graph.nodes, false, false);
    }
    if rest.None? {
      return false;
    }
    RunCompletes(rest.value);
    var okRest := runner.Run("", rest.value, false, false);
    ok := ok && okRest;
    InstancesSet(rest.value[..SettledCount(rest.value, DeployMode)]);
    assert (set n | n in runner.lastSucceeded) == Settles(rest.value, DeployMode) by { SettlesMeans(rest.value); }
    var settled := coreSucceeded + set n | n in runner.lastSucceeded;
    var applied := OnlyIn(definition, settled);
    store.MergeSnapshot(definition, applied, ObservedReleases(applied, live, did), writable);
  }

  lemma RunCompletes(nodes: seq<Node>)
    ensures Completes(nodes, DeployMode) <==> SettledCount(nodes, DeployMode) == |nodes|
  {
  }

  lemma SettlesMeans(nodes: seq<Node>)
    ensures Settles(nodes, DeployMode) == set n | n in nodes[..SettledCount(nodes, DeployMode)] :: n.instance
  {
  }

  /** Which digests a bootstrap leaves, whatever was recorded before: an entry Phase A or the
      last run settled has its current one, any other the one it had. A graph that only its
      own run deployed is among the others. */
  lemma BootstrapRecords(
    f: File, definition: seq<Entry>, coreSucceeded: set<string>, restNodes: seq<Node>, releases: map<string, string>, e: Entry)
    requires UniqueNames(definition) && e in definition && e.name != ""
    ensures var settled := coreSucceeded + Settles(restNodes, DeployMode);
            var after := AfterMerge(f, definition, Names(OnlyIn(definition, settled)), releases, true);
            RecordedHash(after, e.name) == if e.name in settled then Some(EntryHash(e)) else RecordedHash(f, e.name)
  {
    hide EntryHash, AfterMerge, OnlyIn, Settles;
    var settled := coreSucceeded + Settles(restNodes, DeployMode);
    Selected(definition, "", settled);
    MergeReads(f, definition, Names(OnlyIn(definition, settled)), releases, true, e);
    if e.name in Names(OnlyIn(definition, settled)) {
      var x :| x in OnlyIn(definition, settled) && x.name == e.name;
    }
  }

  /** So drift of an entry it left out goes unseen: however its declaration changes later, a
      plan calls it unchanged for as long as it reads DEPLOYED. */
  lemma UnrecordedDriftUnseen(f: File, status: StatusMap, live: Option<set<string>>, e: Entry)
    requires RecordedHash(f, e.name) == None && f.Snapshot? && IsDeployed(status, e.name)
    ensures Judge(e, Facts(status, f, live)) == IsUnchanged
  {
    ReleaseHasHash(f.records, e.name);
  }

  // ---------------------------------------------------------------------------
  // Other environments
  // ---------------------------------------------------------------------------

  /** `status` is what `_repo_instance_status` returns. */
  ghost predicate StatusRead(g: DeploymentGraph.Graph, env: DeploymentGraph.Env, status: StatusMap) {
    && status.Keys == (set i | i in g.instances && DeploymentGraph.NameOf(g.instances, i.id).Some? ::
                         DeploymentGraph.NameOf(g.instances, i.id).value)
    && forall name :: name in status ==> status[name] == DeploymentGraph.StatusOf(g, env, name)
  }

  lemma StatusReadDeployed(g: DeploymentGraph.Graph, env: DeploymentGraph.Env, status: StatusMap, name: string)
    requires StatusRead(g, env, status)
    ensures IsDeployed(status, name) <==> DeploymentGraph.StatusOf(g, env, name) == Some(DEPLOYED)
  {
    hide DeploymentGraph.Fold, DeploymentGraph.NameOf, DeploymentGraph.MatchesEnv, DeploymentGraph.DeploymentOf;
    if DeploymentGraph.StatusOf(g, env, name) == Some(DEPLOYED) {
      var i := DeploymentGraph.NewestEdge(g, env, g.edges, name);
      var id := g.edges[i].refFrom;
      assert DeploymentGraph.NameOf(g.instances, id) == Some(name);
      assert DeploymentGraph.Instance(id, name) in g.instances;
      assert name in status.Keys;
    }
  }

  /** Adding or removing other environments' instances, edges and deployments leaves this
      environment's plan unchanged. */
  lemma PlanIgnoresOtherEnvironments(
    g: DeploymentGraph.Graph, env: string, instances: set<string>, deployments: set<string>,
    status: StatusMap, status': StatusMap, desired: seq<Entry>, f: File, live: Option<set<string>>, plan: Plan, plan': Plan)
    requires DeploymentGraph.Foreign(g, env, instances, deployments)
    requires StatusRead(g, Some(env), status)
    requires StatusRead(DeploymentGraph.Without(g, instances, deployments), Some(env), status')
    requires IsPlan(plan, desired, Facts(status, f, live)) && IsPlan(plan', desired, Facts(status', f, live))
    ensures plan == plan'
  {
    hide IsPlan, StatusRead, DeploymentGraph.StatusOf, DeploymentGraph.Without, DeploymentGraph.Foreign;
    forall n ensures IsDeployed(status, n) <==> IsDeployed(status', n) {
      DeploymentGraph.NonInterference(g, env, instances, deployments, n);
      StatusReadDeployed(g, Some(env), status, n);
      StatusReadDeployed(DeploymentGraph.Without(g, instances, deployments), Some(env), status', n);
    }
    PlanReadsDeployed(plan, plan', desired, Facts(status, f, live), status');
  }
}
