/** Reading instance statuses out of the shared deployment graph.

    Source: `bom_seeder._repo_instance_status`, `bom_seeder._deployment_matches_env`.
    `_created` stamps are naturals, 0 standing for an absent one (the empty string, which
    sorts first). An environment is its `deployment_id`; `None` is the unscoped query. */
module DeploymentGraph {
  import opened Bom
  import opened Common

  datatype Instance = Instance(id: string, name: string)
  datatype Edge = Edge(refFrom: string, refTo: string, created: nat)
  datatype Deployment = Deployment(id: string, deploymentId: Option<string>, status: Option<string>)

  /** The three row lists, in the order a search returns them. */
  datatype Graph = Graph(instances: seq<Instance>, edges: seq<Edge>, deployments: seq<Deployment>)

  type Env = Option<string>

  /** `by_nid.get(id)`: the last row with that identifier. */
  function DeploymentOf(rows: seq<Deployment>, id: string): (d: Option<Deployment>)
    ensures d.Some? ==> d.value in rows && d.value.id == id
    ensures d.None? <==> forall r :: r in rows ==> r.id != id
  {
    if rows == [] then None
    else if rows[|rows| - 1].id == id then Some(rows[|rows| - 1])
    else
      assert rows == rows[..|rows| - 1] + [rows[|rows| - 1]];
      DeploymentOf(rows[..|rows| - 1], id)
  }

  /** `name_by_instance.get(id)`: the last named row with that identifier. */
  function NameOf(rows: seq<Instance>, id: string): (n: Option<string>)
    ensures n.Some? ==> n.value != "" && Instance(id, n.value) in rows
  {
    if rows == [] then None
    else
      var last := rows[|rows| - 1];
      if last.id == id && last.name != "" then Some(last.name)
      else NameOf(rows[..|rows| - 1], id)
  }

  /** A deployment carrying no `deployment_id` matches every environment, and so does an
      edge that resolves to no deployment at all. */
  predicate MatchesEnv(d: Option<Deployment>, env: Env) {
    env.None? || d.None? || d.value.deploymentId.None? || d.value.deploymentId == env
  }

  function StatusAt(g: Graph, e: Edge): Option<string> {
    var d := DeploymentOf(g.deployments, e.refTo);
    if d.None? then None else d.value.status
  }

  /** Whether an edge says something about the instance `name` of `env`. */
  predicate Relevant(g: Graph, env: Env, e: Edge, name: string) {
    MatchesEnv(DeploymentOf(g.deployments, e.refTo), env) && NameOf(g.instances, e.refFrom) == Some(name)
  }

  // ---------------------------------------------------------------------------
  // The per-name fold
  // ---------------------------------------------------------------------------

  datatype Latest = Latest(created: nat, status: Option<string>)

  ghost function Fold(g: Graph, env: Env, edges: seq<Edge>, name: string): Option<Latest> {
    if edges == [] then None
    else
      var before := Fold(g, env, edges[..|edges| - 1], name);
      var e := edges[|edges| - 1];
      if Relevant(g, env, e, name) && (before.None? || e.created >= before.value.created)
      then Some(Latest(e.created, StatusAt(g, e)))
      else before
  }

  /** The status a name reads as in `env`. */
  ghost function StatusOf(g: Graph, env: Env, name: string): Option<string> {
    var latest := Fold(g, env, g.edges, name);
    if latest.None? then None else latest.value.status
  }

  /** Edge `i` is the newest relevant one, the later row winning a tie. */
  ghost predicate IsLatest(g: Graph, env: Env, edges: seq<Edge>, name: string, i: nat) {
    && i < |edges|
    && Relevant(g, env, edges[i], name)
    && forall j: nat :: j < |edges| && Relevant(g, env, edges[j], name) ==>
         edges[j].created < edges[i].created || (edges[j].created == edges[i].created && j <= i)
  }

  lemma {:induction false} NewestEdge(g: Graph, env: Env, edges: seq<Edge>, name: string) returns (i: nat)
    ensures Fold(g, env, edges, name).None? ==> forall e :: e in edges ==> !Relevant(g, env, e, name)
    ensures Fold(g, env, edges, name).Some? ==>
              && IsLatest(g, env, edges, name, i)
              && Fold(g, env, edges, name) == Some(Latest(edges[i].created, StatusAt(g, edges[i])))
  {
    hide Relevant, StatusAt;
    if edges == [] {
      return 0;
    }
    var init, last := edges[..|edges| - 1], |edges| - 1;
    i := NewestEdge(g, env, init, name);
    if Fold(g, env, edges, name) != Fold(g, env, init, name) || Relevant(g, env, edges[last], name) {
      if Fold(g, env, init, name).None? || edges[last].created >= edges[i].created {
        i := last;
      }
    }
  }

  /** The fold returns the status of the newest edge relevant to the name and environment,
      and nothing exactly when there is none. */
  lemma FoldIsLatest(g: Graph, env: Env, edges: seq<Edge>, name: string, i: nat)
    ensures Fold(g, env, edges, name).None? <==> forall e :: e in edges ==> !Relevant(g, env, e, name)
    ensures IsLatest(g, env, edges, name, i) ==>
              Fold(g, env, edges, name) == Some(Latest(edges[i].created, StatusAt(g, edges[i])))
  {
    hide Relevant, StatusAt, Fold;
    var k := NewestEdge(g, env, edges, name);
    if Fold(g, env, edges, name).Some? {
      assert edges[k] in edges;
    }
    if IsLatest(g, env, edges, name, i) {
      assert edges[i] in edges;
      assert i == k;
    }
  }

  /** Every known instance name, with its status in `env` or None when it has no deployment
      there. */
  method RepoInstanceStatus(g: Graph, env: Env) returns (status: map<string, Option<string>>)
    ensures status.Keys == set i | i in g.instances && NameOf(g.instances, i.id).Some? :: NameOf(g.instances, i.id).value
    ensures forall name :: name in status ==> status[name] == StatusOf(g, env, name)
  {
    var latest: map<string, Latest> := map[];
    FoldNone(g, env);
    for k := 0 to |g.edges|
      invariant Holds(latest, g, env, g.edges[..k])
    {
      hide *;
      var e := g.edges[k];
      assert g.edges[..k + 1] == g.edges[..k] + [e];
      var deployment := DeploymentOf(g.deployments, e.refTo);
      var name := NameOf(g.instances, e.refFrom);
      HoldsStep(latest, g, env, g.edges[..k], e);
      if MatchesEnv(deployment, env) && name.Some? {
        if name.value !in latest || e.created >= latest[name.value].created {
          latest := latest[name.value := Latest(e.created, if deployment.None? then None else deployment.value.status)];
        }
      }
    }
    assert g.edges[..|g.edges|] == g.edges;
    var names := set i | i in g.instances && NameOf(g.instances, i.id).Some? :: NameOf(g.instances, i.id).value;
    status := map n | n in names :: if n in latest then latest[n].status else None;
  }

  /** The map `latest` is the fold over `edges`, name by name. */
  ghost predicate Holds(latest: map<string, Latest>, g: Graph, env: Env, edges: seq<Edge>) {
    forall name :: Fold(g, env, edges, name) == if name in latest then Some(latest[name]) else None
  }

  lemma HoldsStep(latest: map<string, Latest>, g: Graph, env: Env, edges: seq<Edge>, e: Edge)
    requires Holds(latest, g, env, edges)
    ensures var deployment := DeploymentOf(g.deployments, e.refTo);
            var name := NameOf(g.instances, e.refFrom);
            if MatchesEnv(deployment, env) && name.Some?
               && (name.value !in latest || e.created >= latest[name.value].created)
            then Holds(latest[name.value := Latest(e.created, if deployment.None? then None else deployment.value.status)],
                       g, env, edges + [e])
            else Holds(latest, g, env, edges + [e])
  {
    hide Fold, Relevant, StatusAt, DeploymentOf, NameOf, MatchesEnv;
    RelevantMeans(g, env, e);
    forall n
      ensures var before := Fold(g, env, edges, n);
              Fold(g, env, edges + [e], n)
              == if Relevant(g, env, e, n) && (before.None? || e.created >= before.value.created)
                 then Some(Latest(e.created, StatusAt(g, e))) else before
    {
      FoldAppend(g, env, edges, e, n);
    }
  }

  lemma RelevantMeans(g: Graph, env: Env, e: Edge)
    ensures forall name :: Relevant(g, env, e, name) <==>
              MatchesEnv(DeploymentOf(g.deployments, e.refTo), env) && NameOf(g.instances, e.refFrom) == Some(name)
    ensures StatusAt(g, e) == var d := DeploymentOf(g.deployments, e.refTo); if d.None? then None else d.value.status
  {
  }

  /** An environment reads its own deployments: when the newest edge that starts at an instance
      of this name and is not another environment's leads to a row carrying this environment's
      id or none, the status read is that row's. */
  lemma OwnStatus(g: Graph, env: string, name: string, k: nat, d: Deployment)
    requires k < |g.edges| && d in g.deployments && d.id == g.edges[k].refTo
    requires forall other :: other in g.deployments && other.id == d.id ==> other == d
    requires d.deploymentId == None || d.deploymentId == Some(env)
    requires NameOf(g.instances, g.edges[k].refFrom) == Some(name)
    requires forall j :: 0 <= j < |g.edges| && j != k && NameOf(g.instances, g.edges[j].refFrom) == Some(name) ==>
               || g.edges[j].created < g.edges[k].created
               || exists r :: DeploymentOf(g.deployments, g.edges[j].refTo) == Some(r)
                              && r.deploymentId.Some? && r.deploymentId.value != env
    ensures StatusOf(g, Some(env), name) == d.status
  {
    hide Fold, NameOf, DeploymentOf;
    assert DeploymentOf(g.deployments, g.edges[k].refTo) == Some(d);
    assert IsLatest(g, Some(env), g.edges, name, k);
    FoldIsLatest(g, Some(env), g.edges, name, k);
  }

  /** With only this environment's rows in the graph, the scoped and the unscoped query agree. */
  lemma ScopedIsUnscoped(g: Graph, env: string, name: string)
    requires forall d :: d in g.deployments ==> d.deploymentId == None || d.deploymentId == Some(env)
    ensures StatusOf(g, Some(env), name) == StatusOf(g, None, name)
  {
    hide DeploymentOf;
    FoldScoped(g, env, g.edges, name);
  }

  lemma {:induction false} FoldScoped(g: Graph, env: string, edges: seq<Edge>, name: string)
    requires forall d :: d in g.deployments ==> d.deploymentId == None || d.deploymentId == Some(env)
    ensures Fold(g, Some(env), edges, name) == Fold(g, None, edges, name)
  {
    hide DeploymentOf;
    if edges != [] {
      FoldScoped(g, env, edges[..|edges| - 1], name);
    }
  }

  // ---------------------------------------------------------------------------
  // Environments do not interfere
  // ---------------------------------------------------------------------------

  function KeepInstances(rows: seq<Instance>, gone: set<string>): seq<Instance> {
    if rows == [] then []
    else
      var last := rows[|rows| - 1];
      var kept := KeepInstances(rows[..|rows| - 1], gone);
      if last.id in gone then kept else kept + [last]
  }

  function KeepDeployments(rows: seq<Deployment>, gone: set<string>): seq<Deployment> {
    if rows == [] then []
    else
      var last := rows[|rows| - 1];
      var kept := KeepDeployments(rows[..|rows| - 1], gone);
      if last.id in gone then kept else kept + [last]
  }

  function KeepEdges(rows: seq<Edge>, gone: set<string>): seq<Edge> {
    if rows == [] then []
    else
      var last := rows[|rows| - 1];
      var kept := KeepEdges(rows[..|rows| - 1], gone);
      if last.refTo in gone then kept else kept + [last]
  }

  /** The graph without another environment's rows: its instances, its deployments and the
      edges to those deployments, wherever in the lists they sit. */
  function Without(g: Graph, instances: set<string>, deployments: set<string>): Graph {
    Graph(
      KeepInstances(g.instances, instances),
      KeepEdges(g.edges, deployments),
      KeepDeployments(g.deployments, deployments))
  }

  /** `instances` and `deployments` are rows of other environments: each such deployment
      carries its own `deployment_id`, every edge to one resolves to a row, and the
      remaining edges start at the remaining instances. */
  ghost predicate Foreign(g: Graph, env: string, instances: set<string>, deployments: set<string>) {
    && (forall d :: d in g.deployments && d.id in deployments ==> d.deploymentId.Some? && d.deploymentId.value != env)
    && (forall e :: e in g.edges && e.refTo in deployments ==> DeploymentOf(g.deployments, e.refTo).Some?)
    && (forall e :: e in g.edges && e.refTo !in deployments ==> e.refFrom !in instances)
  }

  /** Of rows sharing an identifier the last is read. */
  lemma DeploymentOfAppend(rows: seq<Deployment>, last: Deployment, id: string)
    ensures DeploymentOf(rows + [last], id) == if last.id == id then Some(last) else DeploymentOf(rows, id)
  {
    assert (rows + [last])[..|rows|] == rows;
  }

  lemma {:induction false} KeepDeployment(rows: seq<Deployment>, gone: set<string>, id: string)
    requires id !in gone
    ensures DeploymentOf(KeepDeployments(rows, gone), id) == DeploymentOf(rows, id)
  {
    hide DeploymentOf;
    if rows != [] {
      var init, last := rows[..|rows| - 1], rows[|rows| - 1];
      assert rows == init + [last];
      KeepDeployment(init, gone, id);
      DeploymentOfAppend(init, last, id);
      DeploymentOfAppend(KeepDeployments(init, gone), last, id);
    }
  }

  /** And of instance rows the last that has a name. */
  lemma NameOfAppend(rows: seq<Instance>, last: Instance, id: string)
    ensures NameOf(rows + [last], id)
            == if last.id == id && last.name != "" then Some(last.name) else NameOf(rows, id)
  {
    assert (rows + [last])[..|rows|] == rows;
  }

  lemma {:induction false} KeepName(rows: seq<Instance>, gone: set<string>, id: string)
    requires id !in gone
    ensures NameOf(KeepInstances(rows, gone), id) == NameOf(rows, id)
  {
    hide NameOf;
    if rows != [] {
      var init, last := rows[..|rows| - 1], rows[|rows| - 1];
      assert rows == init + [last];
      KeepName(init, gone, id);
      NameOfAppend(init, last, id);
      NameOfAppend(KeepInstances(init, gone), last, id);
    }
  }

  lemma RelevantWithout(g: Graph, env: string, instances: set<string>, deployments: set<string>, e: Edge, name: string)
    requires Foreign(g, env, instances, deployments) && e in g.edges
    ensures e.refTo in deployments ==> !Relevant(g, Some(env), e, name)
    ensures e.refTo !in deployments ==>
              && Relevant(Without(g, instances, deployments), Some(env), e, name) == Relevant(g, Some(env), e, name)
              && StatusAt(Without(g, instances, deployments), e) == StatusAt(g, e)
  {
    if e.refTo !in deployments {
      KeepDeployment(g.deployments, deployments, e.refTo);
      KeepName(g.instances, instances, e.refFrom);
    }
  }

  lemma FoldAppend(g: Graph, env: Env, edges: seq<Edge>, e: Edge, name: string)
    ensures var before := Fold(g, env, edges, name);
            Fold(g, env, edges + [e], name)
            == if Relevant(g, env, e, name) && (before.None? || e.created >= before.value.created)
               then Some(Latest(e.created, StatusAt(g, e))) else before
  {
    assert (edges + [e])[..|edges|] == edges;
  }

  lemma {:induction false} FoldWithout(
    g: Graph, env: string, instances: set<string>, deployments: set<string>, edges: seq<Edge>, name: string)
    requires Foreign(g, env, instances, deployments) && forall e :: e in edges ==> e in g.edges
    ensures Fold(Without(g, instances, deployments), Some(env), KeepEdges(edges, deployments), name)
            == Fold(g, Some(env), edges, name)
  {
    hide Relevant, StatusAt, Without, Foreign, Fold;
    if edges == [] {
      FoldNone(g, Some(env));
      FoldNone(Without(g, instances, deployments), Some(env));
    } else {
      var init, last := edges[..|edges| - 1], edges[|edges| - 1];
      assert edges == init + [last];
      FoldWithout(g, env, instances, deployments, init, name);
      RelevantWithout(g, env, instances, deployments, last, name);
      FoldAppend(g, Some(env), init, last, name);
      FoldAppend(Without(g, instances, deployments), Some(env), KeepEdges(init, deployments), last, name);
    }
  }

  lemma FoldNone(g: Graph, env: Env)
    ensures forall name :: Fold(g, env, [], name) == None
  {
  }

  /** Adding or removing other environments' rows, interleaved in any way, changes no status
      this environment reads. */
  lemma NonInterference(g: Graph, env: string, instances: set<string>, deployments: set<string>, name: string)
    requires Foreign(g, env, instances, deployments)
    ensures StatusOf(Without(g, instances, deployments), Some(env), name) == StatusOf(g, Some(env), name)
  {
    FoldWithout(g, env, instances, deployments, g.edges, name);
  }

  /** Why every edge must resolve: an edge whose deployment row is missing is read by every
      environment, and a new one blanks the status of the name it starts at unless this
      environment has a newer edge. */
  lemma UnresolvedEdge(g: Graph, env: Env, e: Edge, name: string)
    requires DeploymentOf(g.deployments, e.refTo).None? && NameOf(g.instances, e.refFrom) == Some(name)
    ensures var latest := Fold(g, env, g.edges, name);
            var g' := g.(edges := g.edges + [e]);
            StatusOf(g', env, name)
            == if latest.None? || latest.value.created <= e.created then None else latest.value.status
  {
    var g' := g.(edges := g.edges + [e]);
    FoldAppend(g', env, g.edges, e, name);
    FoldSameRows(g, g', env, g.edges, name);
  }

  lemma {:induction false} FoldSameRows(g: Graph, g': Graph, env: Env, edges: seq<Edge>, name: string)
    requires g.instances == g'.instances && g.deployments == g'.deployments
    ensures Fold(g, env, edges, name) == Fold(g', env, edges, name)
  {
    if edges != [] {
      FoldSameRows(g, g', env, edges[..|edges| - 1], name);
    }
  }
}
