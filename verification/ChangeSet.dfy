/** Compiling an environment's declared state into a change_set definition.

    Source: `change_set_builder.py`; `_dedupe_bom`, `_repoint_*`, `bom_requires_graph` and
    `scope_bom_entries` of `bom_seeder.py`. Where entries come from is an input; version
    resolution and the ext-secrets configuration injections are functions of an entry. */
module ChangeSet {
  import opened Bom
  import opened Common
  import opened TopoSort

  const DATABASE_INSTANCE_ROLE := "database-instance"
  const EKS_CLUSTER_ROLE := "eks-cluster"
  const EXT_SECRETS_REPO_CLASS := "hmd-inf-ext-secrets"
  const GRAPH_ROLES := ["graph-db", "neptune-db", "neptune"]

  const LOCAL_CORE_BOM := [
    Entry("local", CORE_INSTANCE_NAME, CORE_REPO_CLASS, "", map[], map[]),
    Entry("local", ENV_DB_INSTANCE, "hmd-postgres-rds", "",
          map["db_subnet_group_name" := "hmd-local-db-subnets"],
          map["base-vpc" := CORE_INSTANCE_NAME, "datadog-lambda" := CORE_INSTANCE_NAME,
              "rds-loggroup" := CORE_INSTANCE_NAME]),
    Entry("local", EKS_CLUSTER_INSTANCE, "hmd-inf-eks-cluster", "", map[],
          map["base-vpc" := CORE_INSTANCE_NAME, "datadog-lambda" := CORE_INSTANCE_NAME])
  ]

  const LOCAL_BOM := [
    Entry("local", "project-bucket", "hmd-inf-s3bucket", "", map[], map[]),
    Entry("local", "opa-bucket", "hmd-inf-s3bucket", "", map[], map[])
  ]

  function GraphBomEntry(graphHost: string): Entry {
    Entry("local", GRAPH_INSTANCE, "hmd-inf-neptune", "",
          map["graph_host" := graphHost, "graph_port" := "8182"], map["base-vpc" := CORE_INSTANCE_NAME])
  }

  // ---------------------------------------------------------------------------
  // Keep-first de-duplication
  // ---------------------------------------------------------------------------

  function Deduped(bom: seq<Entry>): seq<Entry> {
    if bom == [] then []
    else
      var init, e := bom[..|bom| - 1], bom[|bom| - 1];
      if IndexOf(init, e.name) < |init| then Deduped(init) else Deduped(init) + [e]
  }

  /** Names end up distinct, and the entry kept under each name is its first. */
  lemma {:induction false} DedupedKeepsFirst(bom: seq<Entry>)
    ensures UniqueNames(Deduped(bom))
    ensures forall e :: e in Deduped(bom) ==> IndexOf(bom, e.name) < |bom| && bom[IndexOf(bom, e.name)] == e
    ensures forall name :: IndexOf(bom, name) < |bom| ==> bom[IndexOf(bom, name)] in Deduped(bom)
  {
    hide IndexOf;
    if bom != [] {
      var init, last := bom[..|bom| - 1], bom[|bom| - 1];
      assert bom == init + [last];
      DedupedKeepsFirst(init);
      forall name
        ensures IndexOf(bom, name) == if IndexOf(init, name) < |init| then IndexOf(init, name)
                                      else if last.name == name then |init| else |init| + 1
      {
        IndexOfAppend(init, last, name);
      }
    }
  }

  /** And they keep their order. */
  lemma {:induction false} DedupedInOrder(bom: seq<Entry>, i: nat, j: nat)
    requires i < j < |Deduped(bom)|
    ensures IndexOf(bom, Deduped(bom)[i].name) < IndexOf(bom, Deduped(bom)[j].name)
  {
    hide IndexOf;
    var init, last := bom[..|bom| - 1], bom[|bom| - 1];
    assert bom == init + [last];
    DedupedKeepsFirst(init);
    var before := Deduped(init);
    IndexOfAppend(init, last, Deduped(bom)[i].name);
    IndexOfAppend(init, last, Deduped(bom)[j].name);
    assert before[i] in before;
    if j < |before| {
      assert before[j] in before;
      DedupedInOrder(init, i, j);
    }
  }

  lemma {:induction false} DedupedOfUnique(a: seq<Entry>)
    requires UniqueNames(a)
    ensures Deduped(a) == a
  {
    if a != [] {
      var init, last := a[..|a| - 1], a[|a| - 1];
      DedupedOfUnique(init);
      var p := IndexOf(init, last.name);
      assert a == init + [last];
    }
  }

  lemma {:induction false} DedupedPrefix(a: seq<Entry>, b: seq<Entry>)
    requires UniqueNames(a)
    ensures |Deduped(a + b)| >= |a| && forall i :: 0 <= i < |a| ==> Deduped(a + b)[i] == a[i]
  {
    if b == [] {
      assert a + b == a;
      DedupedOfUnique(a);
    } else {
      hide IndexOf;
      DedupedPrefix(a, b[..|b| - 1]);
      assert (a + b)[..|a + b| - 1] == a + b[..|b| - 1];
    }
  }

  lemma DedupedNames(bom: seq<Entry>)
    ensures Names(Deduped(bom)) == Names(bom)
  {
    DedupedKeepsFirst(bom);
    forall name | name in Names(bom) ensures name in Names(Deduped(bom)) {
      IndexOfName(bom, name);
      assert bom[IndexOf(bom, name)] in Deduped(bom);
    }
    forall e | e in Deduped(bom) ensures e in bom {}
  }

  lemma DedupedNone()
    ensures Deduped([]) == [] && Names([]) == {}
  {
  }

  lemma DedupedStep(init: seq<Entry>, e: Entry)
    ensures Deduped(init + [e]) == if e.name in Names(init) then Deduped(init) else Deduped(init) + [e]
    ensures Names(init + [e]) == Names(init) + {e.name}
  {
    hide IndexOf;
    assert (init + [e])[..|init|] == init;
    IndexOfName(init, e.name);
  }

  /** The source's loop over `seen`. */
  method DedupeBom(bom: seq<Entry>) returns (result: seq<Entry>)
    ensures result == Deduped(bom)
  {
    hide *;
    var seen: set<string> := {};
    result := [];
    DedupedNone();
    for i := 0 to |bom|
      invariant seen == Names(bom[..i])
      invariant result == Deduped(bom[..i])
    {
      var e := bom[i];
      assert bom[..i + 1] == bom[..i] + [e];
      DedupedStep(bom[..i], e);
      if e.name !in seen {
        seen := seen + {e.name};
        result := result + [e];
      } else {
        assert seen + {e.name} == seen;
      }
    }
    assert bom[..|bom|] == bom;
  }

  // ---------------------------------------------------------------------------
  // Repointing roles at their real producers
  // ---------------------------------------------------------------------------

  function Repointed(e: Entry, roles: seq<string>, target: string): Entry {
    e.(dependencies := map r | r in e.dependencies ::
         if r in roles && e.dependencies[r] == CORE_INSTANCE_NAME then target else e.dependencies[r])
  }

  function RepointedAll(bom: seq<Entry>, roles: seq<string>, target: string): (r: seq<Entry>)
    ensures |r| == |bom|
    ensures forall i :: 0 <= i < |bom| ==> r[i] == Repointed(bom[i], roles, target)
  {
    seq(|bom|, i requires 0 <= i < |bom| => Repointed(bom[i], roles, target))
  }

  lemma RepointTwice(e: Entry, a: seq<string>, ta: string)
    requires ta != CORE_INSTANCE_NAME
    ensures Repointed(Repointed(e, a, ta), a, ta) == Repointed(e, a, ta)
  {
    assert Repointed(Repointed(e, a, ta), a, ta).dependencies == Repointed(e, a, ta).dependencies;
  }

  lemma RepointSwap(e: Entry, a: seq<string>, ta: string, b: seq<string>, tb: string)
    requires ta != CORE_INSTANCE_NAME && tb != CORE_INSTANCE_NAME
    requires forall r :: r in a ==> r !in b
    ensures Repointed(Repointed(e, a, ta), b, tb) == Repointed(Repointed(e, b, tb), a, ta)
  {
    hide Repointed;
    var ab, ba := Repointed(Repointed(e, a, ta), b, tb).dependencies, Repointed(Repointed(e, b, tb), a, ta).dependencies;
    RepointedRoles(e, a, ta);
    RepointedRoles(e, b, tb);
    RepointedRoles(Repointed(e, a, ta), b, tb);
    RepointedRoles(Repointed(e, b, tb), a, ta);
    forall r | r in e.dependencies ensures ab[r] == ba[r] {}
    assert ab == ba;
  }

  /** Two passes over disjoint roles may run in either order, and repeating one is harmless. */
  lemma RepointCommutes(bom: seq<Entry>, a: seq<string>, ta: string, b: seq<string>, tb: string)
    requires ta != CORE_INSTANCE_NAME && tb != CORE_INSTANCE_NAME
    requires forall r :: r in a ==> r !in b
    ensures RepointedAll(RepointedAll(bom, a, ta), a, ta) == RepointedAll(bom, a, ta)
    ensures RepointedAll(RepointedAll(bom, a, ta), b, tb) == RepointedAll(RepointedAll(bom, b, tb), a, ta)
  {
    hide Repointed;
    forall i | 0 <= i < |bom|
      ensures Repointed(Repointed(bom[i], a, ta), a, ta) == Repointed(bom[i], a, ta)
      ensures Repointed(Repointed(bom[i], a, ta), b, tb) == Repointed(Repointed(bom[i], b, tb), a, ta)
    {
      RepointTwice(bom[i], a, ta);
      RepointSwap(bom[i], a, ta, b, tb);
    }
  }

  /** For each role in turn, an entry that maps it at the core instance is pointed at `target`. */
  method RepointEntry(e: Entry, roles: seq<string>, target: string) returns (r: Entry)
    requires target != CORE_INSTANCE_NAME
    ensures r == Repointed(e, roles, target)
  {
    hide Repointed;
    r := e;
    RepointNone(e, target);
    for j := 0 to |roles|
      invariant r == Repointed(e, roles[..j], target)
    {
      assert roles[..j + 1] == roles[..j] + [roles[j]];
      RepointOne(e, roles[..j], roles[j], target);
      if roles[j] in r.dependencies && r.dependencies[roles[j]] == CORE_INSTANCE_NAME {
        r := r.(dependencies := r.dependencies[roles[j] := target]);
      }
    }
    assert roles[..|roles|] == roles;
  }

  /** One repointing pass over the assembled BOM, in place. */
  method RepointRoles(bom: array<Entry>, roles: seq<string>, target: string)
    requires target != CORE_INSTANCE_NAME
    modifies bom
    ensures bom[..] == RepointedAll(old(bom[..]), roles, target)
  {
    hide Repointed;
    for i := 0 to bom.Length
      invariant forall k :: 0 <= k < i ==> bom[k] == Repointed(old(bom[k]), roles, target)
      invariant forall k :: i <= k < bom.Length ==> bom[k] == old(bom[k])
    {
      var repointed := RepointEntry(bom[i], roles, target);
      bom[i] := repointed;
    }
  }

  lemma RepointNone(e: Entry, target: string)
    ensures Repointed(e, [], target) == e
  {
    assert Repointed(e, [], target).dependencies == e.dependencies;
  }

  lemma RepointOne(e: Entry, roles: seq<string>, role: string, target: string)
    requires target != CORE_INSTANCE_NAME
    ensures var before := Repointed(e, roles, target);
            Repointed(e, roles + [role], target)
            == if role in before.dependencies && before.dependencies[role] == CORE_INSTANCE_NAME
               then before.(dependencies := before.dependencies[role := target]) else before
  {
    hide *;
    var before, after := Repointed(e, roles, target), Repointed(e, roles + [role], target);
    RepointedRoles(e, roles, target);
    RepointedRoles(e, roles + [role], target);
    if role in before.dependencies && before.dependencies[role] == CORE_INSTANCE_NAME {
      assert after.dependencies == before.dependencies[role := target];
    } else {
      assert after.dependencies == before.dependencies;
    }
  }

  lemma RepointedRoles(e: Entry, roles: seq<string>, target: string)
    ensures var r := Repointed(e, roles, target);
            && r == e.(dependencies := r.dependencies) && r.dependencies.Keys == e.dependencies.Keys
            && forall role :: role in e.dependencies ==>
                 r.dependencies[role] == if role in roles && e.dependencies[role] == CORE_INSTANCE_NAME then target
                                         else e.dependencies[role]
  {
  }

  // ---------------------------------------------------------------------------
  // The definition
  // ---------------------------------------------------------------------------

  predicate RequiresGraph(bom: seq<Entry>) {
    exists i, r :: 0 <= i < |bom| && r in GRAPH_ROLES && r in bom[i].dependencies
  }

  /** What a definition takes from its environment: all of it persisted when the environment
      was created. */
  datatype EnvIdentity = EnvIdentity(deploymentId: string, accountId: string, graphContainer: string)

  function GraphHost(env: Option<EnvIdentity>): string {
    if env.None? || env.value.graphContainer == "" then GRAPH_INSTANCE else env.value.graphContainer
  }

  function AccountOf(env: Option<EnvIdentity>): string {
    if env.None? then CONTROL_PLANE_ACCOUNT_ID else env.value.accountId
  }

  /** Everything else a definition is compiled from, in merge order. `resolveVersion` sees a
      repo class and the version declared for it, `configure` a configuration and the account
      the environment's secrets live in. */
  datatype Sources = Sources(
    declared: seq<Entry>,
    bomFile: seq<Entry>,
    extSecrets: seq<Entry>,
    plugins: seq<Entry>,
    graphEnabled: bool,
    resolveVersion: (string, string) -> string,
    configure: (map<string, string>, string) -> map<string, string>)

  function SourceEntries(s: Sources): seq<Entry> {
    s.declared + s.bomFile + LOCAL_BOM + s.extSecrets + s.plugins
  }

  function Merged(s: Sources, env: Option<EnvIdentity>): seq<Entry> {
    if s.graphEnabled && RequiresGraph(SourceEntries(s)) then SourceEntries(s) + [GraphBomEntry(GraphHost(env))]
    else SourceEntries(s)
  }

  function RepointedEntries(bom: seq<Entry>): seq<Entry> {
    RepointedAll(
      RepointedAll(RepointedAll(bom, [DATABASE_INSTANCE_ROLE], ENV_DB_INSTANCE), [EKS_CLUSTER_ROLE], EKS_CLUSTER_INSTANCE),
      GRAPH_ROLES, GRAPH_INSTANCE)
  }

  /** The configuration an entry ends up with; only ext-secrets entries are injected. */
  function Configured(s: Sources, env: Option<EnvIdentity>, e: Entry): map<string, string> {
    if e.className == EXT_SECRETS_REPO_CLASS then s.configure(e.config, AccountOf(env)) else e.config
  }

  function NormalizedEntry(e: Entry, s: Sources, env: Option<EnvIdentity>): Entry {
    e.(version := s.resolveVersion(e.className, e.version), config := Configured(s, env, e))
  }

  function Normalized(bom: seq<Entry>, s: Sources, env: Option<EnvIdentity>): (r: seq<Entry>)
    ensures |r| == |bom|
    ensures forall i :: 0 <= i < |bom| ==> r[i] == NormalizedEntry(bom[i], s, env)
  {
    seq(|bom|, i requires 0 <= i < |bom| => NormalizedEntry(bom[i], s, env))
  }

  function Stamped(e: Entry, env: Option<EnvIdentity>): Entry {
    if env.None? then e else e.(deploymentId := env.value.deploymentId)
  }

  /** Stamp the environment's `deployment_id`; with no environment, a plain copy. */
  function Scoped(bom: seq<Entry>, env: Option<EnvIdentity>): (r: seq<Entry>)
    ensures |r| == |bom|
    ensures forall i :: 0 <= i < |bom| ==> r[i] == Stamped(bom[i], env)
  {
    seq(|bom|, i requires 0 <= i < |bom| => Stamped(bom[i], env))
  }

  ghost function Definition(s: Sources, env: Option<EnvIdentity>): seq<Entry> {
    Scoped(TopoSorted(Deduped(Normalized(RepointedEntries(Merged(s, env)), s, env))), env)
  }

  ghost function FullDefinition(s: Sources, env: Option<EnvIdentity>): seq<Entry> {
    Scoped(TopoSorted(Deduped(Normalized(LOCAL_CORE_BOM, s, env) + Definition(s, env))), env)
  }

  /** `change_set_builder.build_definition`. */
  method BuildDefinition(s: Sources, env: Option<EnvIdentity>) returns (definition: seq<Entry>)
    ensures definition == Definition(s, env)
  {
    var entries := s.declared;
    entries := entries + s.bomFile;
    entries := entries + LOCAL_BOM;
    entries := entries + s.extSecrets;
    entries := entries + s.plugins;
    if s.graphEnabled && RequiresGraph(entries) {
      entries := entries + [GraphBomEntry(GraphHost(env))];
    }
    assert entries == Merged(s, env);
    var bom := new Entry[|entries|](i requires 0 <= i < |entries| => entries[i]);
    assert bom[..] == entries;
    RepointRoles(bom, [DATABASE_INSTANCE_ROLE], ENV_DB_INSTANCE);
    RepointRoles(bom, [EKS_CLUSTER_ROLE], EKS_CLUSTER_INSTANCE);
    RepointRoles(bom, GRAPH_ROLES, GRAPH_INSTANCE);
    var deduped := DedupeBom(Normalized(bom[..], s, env));
    var sorted := TopoSort.TopoSort(deduped);
    definition := Scoped(sorted, env);
  }

  /** `change_set_builder.full_definition`. */
  method BuildFullDefinition(s: Sources, env: Option<EnvIdentity>) returns (definition: seq<Entry>)
    ensures definition == FullDefinition(s, env)
  {
    var rest := BuildDefinition(s, env);
    var deduped := DedupeBom(Normalized(LOCAL_CORE_BOM, s, env) + rest);
    var sorted := TopoSort.TopoSort(deduped);
    definition := Scoped(sorted, env);
  }

  // ---------------------------------------------------------------------------
  // What a definition guarantees
  // ---------------------------------------------------------------------------

  function RepointedEntry(e: Entry): Entry {
    Repointed(
      Repointed(Repointed(e, [DATABASE_INSTANCE_ROLE], ENV_DB_INSTANCE), [EKS_CLUSTER_ROLE], EKS_CLUSTER_INSTANCE),
      GRAPH_ROLES, GRAPH_INSTANCE)
  }

  predicate SplitRole(role: string) {
    role == DATABASE_INSTANCE_ROLE || role == EKS_CLUSTER_ROLE || role in GRAPH_ROLES
  }

  /** The instance that really produces what a split-out role asks for. */
  function Producer(role: string): string
    requires SplitRole(role)
  {
    if role == DATABASE_INSTANCE_ROLE then ENV_DB_INSTANCE
    else if role == EKS_CLUSTER_ROLE then EKS_CLUSTER_INSTANCE
    else GRAPH_INSTANCE
  }

  lemma RepointedEntryRole(e: Entry, role: string)
    requires role in e.dependencies
    ensures role in RepointedEntry(e).dependencies
    ensures RepointedEntry(e).dependencies[role]
            == if SplitRole(role) && e.dependencies[role] == CORE_INSTANCE_NAME then Producer(role)
               else e.dependencies[role]
  {
  }

  /** The entry of the merged sources (repointed) or of the core BOM that a compiled entry
      comes from: compiling changes only its version, configuration and `deployment_id`. */
  ghost predicate ComesFrom(e: Entry, m: Entry, s: Sources, env: Option<EnvIdentity>) {
    && e.name == m.name
    && e.className == m.className
    && ((m in LOCAL_CORE_BOM && e.dependencies == m.dependencies)
        || (m in Merged(s, env) && e.dependencies == RepointedEntry(m).dependencies))
  }

  lemma NormalizedOrigin(e: Entry, bom: seq<Entry>, s: Sources, env: Option<EnvIdentity>) returns (m: Entry)
    requires e in Normalized(bom, s, env)
    ensures m in bom && e.name == m.name && e.className == m.className && e.dependencies == m.dependencies
  {
    var i :| 0 <= i < |bom| && Normalized(bom, s, env)[i] == e;
    m := bom[i];
  }

  /** Sorting, de-duplicating and stamping invent no entry. */
  lemma CompiledOrigin(bom: seq<Entry>, env: Option<EnvIdentity>, e: Entry) returns (x: Entry)
    requires e in Scoped(TopoSorted(Deduped(bom)), env)
    ensures x in bom && e.name == x.name && e.className == x.className && e.dependencies == x.dependencies
  {
    hide TopoSorted, Deduped, IndexOf;
    var sorted := TopoSorted(Deduped(bom));
    DedupedKeepsFirst(bom);
    SortMembers(Deduped(bom));
    var i :| 0 <= i < |sorted| && Scoped(sorted, env)[i] == e;
    x := sorted[i];
    assert x in sorted;
  }

  lemma DefinitionOrigin(s: Sources, env: Option<EnvIdentity>, e: Entry) returns (m: Entry)
    requires e in Definition(s, env)
    ensures m in Merged(s, env) && ComesFrom(e, m, s, env)
  {
    hide TopoSorted, Deduped, Merged, Repointed, Normalized;
    var merged := Merged(s, env);
    var x := CompiledOrigin(Normalized(RepointedEntries(merged), s, env), env, e);
    x := NormalizedOrigin(x, RepointedEntries(merged), s, env);
    var k :| 0 <= k < |merged| && RepointedEntries(merged)[k] == x;
    m := merged[k];
    assert x == RepointedEntry(m);
    RepointedKeeps(m);
  }

  lemma RepointedKeeps(m: Entry)
    ensures RepointedEntry(m) == m.(dependencies := RepointedEntry(m).dependencies)
  {
  }

  lemma FullOrigin(s: Sources, env: Option<EnvIdentity>, e: Entry) returns (m: Entry)
    requires e in FullDefinition(s, env)
    ensures ComesFrom(e, m, s, env)
  {
    hide TopoSorted, Deduped, Merged, RepointedEntry, Definition;
    var x := CompiledOrigin(Normalized(LOCAL_CORE_BOM, s, env) + Definition(s, env), env, e);
    if x in Definition(s, env) {
      m := DefinitionOrigin(s, env, x);
    } else {
      m := NormalizedOrigin(x, LOCAL_CORE_BOM, s, env);
    }
  }

  /** Every named entry of a stage is still there, by name, after the next. */
  lemma CompileKeepsName(bom: seq<Entry>, env: Option<EnvIdentity>, name: string)
    requires name in Names(bom) && name != ""
    ensures name in Names(Scoped(TopoSorted(Deduped(bom)), env))
  {
    hide TopoSorted, Deduped;
    var sorted := TopoSorted(Deduped(bom));
    DedupedNames(bom);
    DedupedKeepsFirst(bom);
    SortMembers(Deduped(bom));
    var e :| e in Deduped(bom) && e.name == name;
    var i :| 0 <= i < |sorted| && sorted[i] == e;
    assert Scoped(sorted, env)[i] in Scoped(sorted, env);
  }

  lemma CompiledName(s: Sources, env: Option<EnvIdentity>, m: Entry)
    requires m in LOCAL_CORE_BOM || m in Merged(s, env)
    requires m.name != ""
    ensures m.name in Names(FullDefinition(s, env))
  {
    hide TopoSorted, Deduped, Merged, Repointed;
    var all := Normalized(LOCAL_CORE_BOM, s, env) + Definition(s, env);
    if m in LOCAL_CORE_BOM {
      var k :| 0 <= k < |LOCAL_CORE_BOM| && LOCAL_CORE_BOM[k] == m;
      assert Normalized(LOCAL_CORE_BOM, s, env)[k] in all;
    } else {
      var merged := Merged(s, env);
      var k :| 0 <= k < |merged| && merged[k] == m;
      var normalized := Normalized(RepointedEntries(merged), s, env);
      RepointedKeeps(m);
      assert RepointedEntries(merged)[k] == RepointedEntry(m);
      assert normalized[k] in normalized && normalized[k].name == m.name;
      CompileKeepsName(normalized, env, m.name);
      var e :| e in Definition(s, env) && e.name == m.name;
      assert e in all;
    }
    CompileKeepsName(all, env, m.name);
  }

  lemma CoreProducersPresent(s: Sources, env: Option<EnvIdentity>)
    ensures ENV_DB_INSTANCE in Names(FullDefinition(s, env)) && EKS_CLUSTER_INSTANCE in Names(FullDefinition(s, env))
  {
    hide FullDefinition;
    CompiledName(s, env, LOCAL_CORE_BOM[1]);
    CompiledName(s, env, LOCAL_CORE_BOM[2]);
  }

  lemma NotAtCore(s: Sources, env: Option<EnvIdentity>, e: Entry, role: string)
    requires e in FullDefinition(s, env) && role in e.dependencies && SplitRole(role)
    ensures e.dependencies[role] != CORE_INSTANCE_NAME
    ensures exists m :: m in Merged(s, env) && role in m.dependencies
  {
    hide FullDefinition, Merged, RepointedEntry;
    var m := FullOrigin(s, env, e);
    if m in Merged(s, env) && e.dependencies == RepointedEntry(m).dependencies {
      RepointedKeepsRoles(m);
      RepointedEntryRole(m, role);
    }
  }

  lemma RepointedKeepsRoles(m: Entry)
    ensures RepointedEntry(m).dependencies.Keys == m.dependencies.Keys
  {
  }

  /** Repointing is closed. No entry of the full definition maps a split-out role at the core
      instance; one that maps it at the role's producer finds that producer in the
      definition, provided that, for a graph role, the graph is not switched off. */
  lemma RepointingClosed(s: Sources, env: Option<EnvIdentity>, e: Entry, role: string)
    requires e in FullDefinition(s, env) && role in e.dependencies && SplitRole(role)
    ensures e.dependencies[role] != CORE_INSTANCE_NAME
    ensures role in GRAPH_ROLES ==> s.graphEnabled ==> GRAPH_INSTANCE in Names(FullDefinition(s, env))
    ensures role !in GRAPH_ROLES ==> Producer(role) in Names(FullDefinition(s, env))
  {
    hide FullDefinition, Names, Merged;
    NotAtCore(s, env, e, role);
    CoreProducersPresent(s, env);
    if role in GRAPH_ROLES && s.graphEnabled {
      var m :| m in Merged(s, env) && role in m.dependencies;
      GraphEntryMerged(s, env, m, role);
      CompiledName(s, env, GraphBomEntry(GraphHost(env)));
    }
  }

  /** Some source contributes this entry. */
  ghost predicate Contributed(s: Sources, e: Entry) {
    e in s.declared || e in s.bomFile || e in LOCAL_BOM || e in s.extSecrets || e in s.plugins
  }

  ghost predicate AsksForGraph(e: Entry) {
    "graph-db" in e.dependencies || "neptune-db" in e.dependencies || "neptune" in e.dependencies
  }

  lemma ContributedEntries(s: Sources)
    ensures forall e :: Contributed(s, e) <==> e in SourceEntries(s)
  {
  }

  lemma RequiresGraphMeans(bom: seq<Entry>)
    ensures RequiresGraph(bom) <==> exists e :: e in bom && AsksForGraph(e)
  {
    if e :| e in bom && AsksForGraph(e) {
      var i :| 0 <= i < |bom| && bom[i] == e;
      var r :| r in GRAPH_ROLES && r in bom[i].dependencies;
    }
    if RequiresGraph(bom) {
      var i, r :| 0 <= i < |bom| && r in GRAPH_ROLES && r in bom[i].dependencies;
      assert bom[i] in bom && AsksForGraph(bom[i]);
    }
  }

  /** The graph is lazy: the definition holds one iff a source contributes an instance of that
      name, or the graph is enabled and some contributed entry has a graph role. */
  lemma GraphIsLazy(s: Sources, env: Option<EnvIdentity>)
    ensures GRAPH_INSTANCE in Names(FullDefinition(s, env))
            <==> || (exists e :: Contributed(s, e) && e.name == GRAPH_INSTANCE)
                 || (s.graphEnabled && exists e :: Contributed(s, e) && AsksForGraph(e))
  {
    hide FullDefinition, RequiresGraph, Contributed, AsksForGraph, SourceEntries;
    var entries := SourceEntries(s);
    ContributedEntries(s);
    RequiresGraphMeans(entries);
    if e :| e in entries && e.name == GRAPH_INSTANCE {
      assert e in Merged(s, env);
      CompiledName(s, env, e);
    } else if s.graphEnabled && RequiresGraph(entries) {
      CompiledName(s, env, GraphBomEntry(GraphHost(env)));
    } else {
      forall e | e in FullDefinition(s, env) ensures e.name != GRAPH_INSTANCE {
        var m := FullOrigin(s, env, e);
      }
    }
  }

  /** Which names a full definition holds: the core's, every named contributed entry's, and the
      graph's when it is enabled and asked for. No source is skipped. */
  lemma DefinitionNames(s: Sources, env: Option<EnvIdentity>, name: string)
    requires name != ""
    ensures name in Names(FullDefinition(s, env))
            <==> || name == "local-neuronsphere" || name == "environment-db" || name == "eks-cluster"
                 || (exists e :: Contributed(s, e) && e.name == name)
                 || (name == GRAPH_INSTANCE && s.graphEnabled && exists e :: Contributed(s, e) && AsksForGraph(e))
  {
    hide FullDefinition, RequiresGraph, Contributed, AsksForGraph, SourceEntries;
    ContributedEntries(s);
    GraphIsLazy(s, env);
    if name == "local-neuronsphere" { CompiledName(s, env, LOCAL_CORE_BOM[0]); }
    if name == "environment-db" { CompiledName(s, env, LOCAL_CORE_BOM[1]); }
    if name == "eks-cluster" { CompiledName(s, env, LOCAL_CORE_BOM[2]); }
    if e :| Contributed(s, e) && e.name == name {
      assert e in Merged(s, env);
      CompiledName(s, env, e);
    }
    if name in Names(FullDefinition(s, env)) {
      var e :| e in FullDefinition(s, env) && e.name == name;
      var m := FullOrigin(s, env, e);
    }
  }

  lemma GraphEntryMerged(s: Sources, env: Option<EnvIdentity>, m: Entry, role: string)
    requires s.graphEnabled && m in Merged(s, env) && role in GRAPH_ROLES && role in m.dependencies
    ensures GraphBomEntry(GraphHost(env)) in Merged(s, env)
  {
    var entries := SourceEntries(s);
    if m in entries {
      var i :| 0 <= i < |entries| && entries[i] == m;
      assert RequiresGraph(entries);
    }
  }

  lemma CoreEntries(s: Sources, env: Option<EnvIdentity>, i: nat)
    requires i < 3
    ensures var core := Normalized(LOCAL_CORE_BOM, s, env);
            && |core| == 3 && UniqueNames(core) && core[i].name != "" && core[0].name == CORE_INSTANCE_NAME
            && forall role :: role in core[i].dependencies ==> core[i].dependencies[role] == CORE_INSTANCE_NAME
  {
  }

  lemma CoreLeads(s: Sources, env: Option<EnvIdentity>, rest: seq<Entry>)
    ensures var core := Normalized(LOCAL_CORE_BOM, s, env);
            var all := Deduped(core + rest);
            && |all| >= 3 && all[..3] == core
            && UniqueNames(all) && LeadingOrdered(all, 3)
  {
    hide IndexOf, Deduped, Normalized;
    var core := Normalized(LOCAL_CORE_BOM, s, env);
    var all := Deduped(core + rest);
    CoreEntries(s, env, 0);
    DedupedPrefix(core, rest);
    DedupedKeepsFirst(core + rest);
    assert IndexOf(all, CORE_INSTANCE_NAME) == 0;
    forall i: nat | i < 3
      ensures all[i].name != ""
      ensures forall role :: role in all[i].dependencies ==> all[i].dependencies[role] == CORE_INSTANCE_NAME
    {
      CoreEntries(s, env, i);
    }
  }

  /** The core entries are always exactly the start of the full definition, in their declared
      order; nothing a manifest, BOM file or plugin contributes overrides one or comes
      before one, even when a dependency cycle makes the sort fall back. */
  lemma CorePrefix(s: Sources, env: Option<EnvIdentity>)
    ensures |FullDefinition(s, env)| >= 3
    ensures FullDefinition(s, env)[..3] == Scoped(Normalized(LOCAL_CORE_BOM, s, env), env)
    ensures forall i, j :: 0 <= i < 3 <= j < |FullDefinition(s, env)| ==>
              FullDefinition(s, env)[j].name != LOCAL_CORE_BOM[i].name
    ensures UniqueNames(FullDefinition(s, env))
  {
    hide TopoSorted, Definition, LeadingOrdered, Deduped;
    var core := Normalized(LOCAL_CORE_BOM, s, env);
    var all := core + Definition(s, env);
    CoreLeads(s, env, Definition(s, env));
    LeadingKept(Deduped(all), 3);
    SortMembers(Deduped(all));
    var sorted := TopoSorted(Deduped(all));
    forall i | 0 <= i < 3 ensures sorted[i] == core[i] {
      assert sorted[i] == sorted[..3][i];
    }
  }

  lemma ScopedOrdered(bom: seq<Entry>, env: Option<EnvIdentity>)
    requires DependencyOrdered(bom)
    ensures DependencyOrdered(Scoped(bom, env))
  {
    forall i: nat, p: nat | i < |bom| && p < |bom| && DependsOn(Scoped(bom, env), i, p) ensures p < i {
      assert DependsOn(bom, i, p);
    }
  }

  // ---------------------------------------------------------------------------
  // The entry digest, and renaming an environment
  // ---------------------------------------------------------------------------

  /** `entry_hash` up to collisions: the five fields it digests. `deployment_id` is not one. */
  datatype Digest = Digest(
    name: string, className: string, version: string, config: map<string, string>, dependencies: map<string, string>)

  function EntryHash(e: Entry): Digest {
    Digest(e.name, e.className, e.version, e.config, e.dependencies)
  }

  /** What a digest tells apart: any difference but one in `deployment_id`. */
  lemma DigestTells(a: Entry, b: Entry)
    ensures EntryHash(a) == EntryHash(b)
            <==> && a.name == b.name && a.className == b.className && a.version == b.version
                 && a.config == b.config && a.dependencies == b.dependencies
  {
  }

  function Hashes(bom: seq<Entry>): seq<Digest> {
    seq(|bom|, i requires 0 <= i < |bom| => EntryHash(bom[i]))
  }

  // ---------------------------------------------------------------------------
  // Two environments compiled from the same sources
  // ---------------------------------------------------------------------------

  function Mapped(bom: seq<Entry>, f: Entry -> Entry): (r: seq<Entry>)
    ensures |r| == |bom| && forall i :: 0 <= i < |bom| ==> r[i] == f(bom[i])
  {
    seq(|bom|, i requires 0 <= i < |bom| => f(bom[i]))
  }

  /** `f` leaves alone what ordering and de-duplication look at. */
  ghost predicate Keeps(f: Entry -> Entry) {
    forall e :: f(e).name == e.name && f(e).dependencies == e.dependencies
  }

  lemma {:induction false} IndexOfMapped(bom: seq<Entry>, f: Entry -> Entry, name: string)
    requires Keeps(f)
    ensures IndexOf(Mapped(bom, f), name) == IndexOf(bom, name)
  {
    if bom != [] {
      assert Mapped(bom, f)[1..] == Mapped(bom[1..], f);
      IndexOfMapped(bom[1..], f, name);
    }
  }

  lemma {:induction false} ByNameMapped(bom: seq<Entry>, f: Entry -> Entry)
    requires Keeps(f)
    ensures ByName(Mapped(bom, f)) == Mapped(ByName(bom), f)
  {
    if bom != [] {
      hide IndexOf, Put, Mapped;
      var init, last := bom[..|bom| - 1], bom[|bom| - 1];
      ByNameMapped(init, f);
      assert Mapped(bom, f)[..|bom| - 1] == Mapped(init, f);
      PutMapped(ByName(init), f, last);
    }
  }

  lemma PutMapped(dict: seq<Entry>, f: Entry -> Entry, e: Entry)
    requires Keeps(f)
    ensures Put(Mapped(dict, f), f(e)) == Mapped(Put(dict, e), f)
  {
    hide IndexOf, Mapped;
    IndexOfMapped(dict, f, e.name);
  }

  lemma {:induction false} DedupedMapped(bom: seq<Entry>, f: Entry -> Entry)
    requires Keeps(f)
    ensures Deduped(Mapped(bom, f)) == Mapped(Deduped(bom), f)
  {
    if bom != [] {
      hide IndexOf;
      var init, last := bom[..|bom| - 1], bom[|bom| - 1];
      DedupedMapped(init, f);
      assert Mapped(bom, f)[..|bom| - 1] == Mapped(init, f);
      IndexOfMapped(init, f, last.name);
    }
  }

  lemma DepGraphMapped(dict: seq<Entry>, f: Entry -> Entry)
    requires Keeps(f)
    ensures DepGraph(Mapped(dict, f)) == DepGraph(dict)
  {
    forall i | 0 <= i < |dict| ensures Targets(Mapped(dict, f), i) == Targets(dict, i) {}
  }

  /** Whatever rewrites entries without touching names and dependencies (stamping, versions,
      configuration) commutes with sorting. */
  lemma SortMapped(bom: seq<Entry>, f: Entry -> Entry)
    requires Keeps(f)
    ensures TopoSorted(Mapped(bom, f)) == Mapped(TopoSorted(bom), f)
  {
    hide Greedy, ByName;
    ByNameMapped(bom, f);
    var dict := ByName(bom);
    DepGraphMapped(dict, f);
    var order := Greedy(DepGraph(dict), {});
    if |order| == |dict| {
      assert Arrange(Mapped(dict, f), order) == Mapped(Arrange(dict, order), f);
    }
  }

  /** An entry without what an environment can change in it. */
  function Bare(e: Entry): Entry {
    e.(deploymentId := "", config := map[])
  }

  lemma BareKeeps()
    ensures Keeps(Bare)
  {
  }

  /** A compiled stage has distinct names, and unless its own dependencies run in a cycle every
      entry comes after all it depends on. */
  lemma StageOrdered(bom: seq<Entry>, env: Option<EnvIdentity>)
    ensures var stage := Scoped(TopoSorted(Deduped(bom)), env);
            UniqueNames(stage) && (DependencyOrdered(stage) || HasCycle(DepGraph(ByName(stage))))
  {
    hide TopoSorted, Deduped, DepGraph, ByName, HasCycle, DependencyOrdered;
    var deduped := Deduped(bom);
    DedupedKeepsFirst(bom);
    SortMembers(deduped);
    SortNamed(deduped);
    if HasCycle(DepGraph(ByName(deduped))) {
      var f := (e: Entry) => Stamped(e, env);
      assert Keeps(f);
      assert Scoped(deduped, env) == Mapped(deduped, f);
      ByNameMapped(deduped, f);
      DepGraphMapped(ByName(deduped), f);
    } else {
      ScopedOrdered(TopoSorted(deduped), env);
    }
  }

  /** So both the Phase B definition and the full one. */
  lemma DefinitionsOrdered(s: Sources, env: Option<EnvIdentity>)
    ensures UniqueNames(Definition(s, env)) && UniqueNames(FullDefinition(s, env))
    ensures DependencyOrdered(Definition(s, env)) || HasCycle(DepGraph(ByName(Definition(s, env))))
    ensures DependencyOrdered(FullDefinition(s, env)) || HasCycle(DepGraph(ByName(FullDefinition(s, env))))
  {
    hide TopoSorted, Deduped, DepGraph, ByName, HasCycle, DependencyOrdered, Normalized, Merged, RepointedEntries, Scoped;
    StageOrdered(Normalized(RepointedEntries(Merged(s, env)), s, env), env);
    StageOrdered(Normalized(LOCAL_CORE_BOM, s, env) + Definition(s, env), env);
  }

  /** One compilation stage, up to what an environment can change. */
  lemma StageBare(bom: seq<Entry>, env: Option<EnvIdentity>)
    ensures Mapped(Scoped(TopoSorted(Deduped(bom)), env), Bare) == TopoSorted(Deduped(Mapped(bom, Bare)))
  {
    hide TopoSorted, Deduped;
    BareKeeps();
    DedupedMapped(bom, Bare);
    SortMapped(Deduped(bom), Bare);
    assert Mapped(Scoped(TopoSorted(Deduped(bom)), env), Bare) == Mapped(TopoSorted(Deduped(bom)), Bare);
  }

  lemma NormalizedBare(s: Sources, env: Option<EnvIdentity>, env': Option<EnvIdentity>)
    ensures Mapped(Normalized(RepointedEntries(Merged(s, env)), s, env), Bare)
            == Mapped(Normalized(RepointedEntries(Merged(s, env')), s, env'), Bare)
  {
    hide Merged, RepointedEntry, RepointedEntries, Configured;
    var a, b := Merged(s, env), Merged(s, env');
    MergedLinesUp(s, env, env');
    RepointedEach(a);
    RepointedEach(b);
    forall i | 0 <= i < |a|
      ensures Bare(NormalizedEntry(RepointedEntry(a[i]), s, env)) == Bare(NormalizedEntry(RepointedEntry(b[i]), s, env'))
    {
      if a[i] != b[i] {
        RepointedBare(GraphHost(env), GraphHost(env'));
      }
    }
  }

  /** The merged sources of two environments differ in the built-in graph entry at most. */
  lemma MergedLinesUp(s: Sources, env: Option<EnvIdentity>, env': Option<EnvIdentity>)
    ensures |Merged(s, env)| == |Merged(s, env')|
    ensures forall i :: 0 <= i < |Merged(s, env)| ==>
              || Merged(s, env)[i] == Merged(s, env')[i]
              || (Merged(s, env)[i] == GraphBomEntry(GraphHost(env)) && Merged(s, env')[i] == GraphBomEntry(GraphHost(env')))
  {
    hide RequiresGraph, SourceEntries;
  }

  lemma CoreBare(s: Sources, env: Option<EnvIdentity>, env': Option<EnvIdentity>)
    ensures Mapped(Normalized(LOCAL_CORE_BOM, s, env), Bare) == Mapped(Normalized(LOCAL_CORE_BOM, s, env'), Bare)
  {
    hide Configured;
  }

  lemma RepointedEach(bom: seq<Entry>)
    ensures |RepointedEntries(bom)| == |bom|
    ensures forall i :: 0 <= i < |bom| ==> RepointedEntries(bom)[i] == RepointedEntry(bom[i])
  {
    hide Repointed;
  }

  lemma RepointedBare(host: string, host': string)
    ensures var e, e' := RepointedEntry(GraphBomEntry(host)), RepointedEntry(GraphBomEntry(host'));
            e' == e.(config := e'.config)
  {
    var e, e' := RepointedEntry(GraphBomEntry(host)), RepointedEntry(GraphBomEntry(host'));
    assert e.dependencies == e'.dependencies;
  }

  /** Definitions compiled from the same sources for two environments line up: entry by entry
      the same name, class, version and dependencies, in the same order. */
  lemma DefinitionsLineUp(s: Sources, env: Option<EnvIdentity>, env': Option<EnvIdentity>)
    ensures Mapped(FullDefinition(s, env), Bare) == Mapped(FullDefinition(s, env'), Bare)
  {
    hide TopoSorted, Deduped, Normalized, Merged, RepointedEntries, Scoped;
    FullBare(s, env);
    FullBare(s, env');
    NormalizedBare(s, env, env');
    CoreBare(s, env, env');
  }

  lemma FullBare(s: Sources, env: Option<EnvIdentity>)
    ensures Mapped(FullDefinition(s, env), Bare)
            == TopoSorted(Deduped(Mapped(Normalized(LOCAL_CORE_BOM, s, env), Bare)
                                  + TopoSorted(Deduped(Mapped(Normalized(RepointedEntries(Merged(s, env)), s, env), Bare)))))
  {
    hide TopoSorted, Deduped, Normalized, Merged, RepointedEntries, Scoped;
    var core, rest := Normalized(LOCAL_CORE_BOM, s, env), Definition(s, env);
    StageBare(Normalized(RepointedEntries(Merged(s, env)), s, env), env);
    StageBare(core + rest, env);
    assert Mapped(core + rest, Bare) == Mapped(core, Bare) + Mapped(rest, Bare);
  }

  /** The first of the core BOM and the merged sources under a name. */
  function FirstNamed(s: Sources, env: Option<EnvIdentity>, name: string): Option<Entry> {
    var all := LOCAL_CORE_BOM + Merged(s, env);
    if IndexOf(all, name) < |all| then Some(all[IndexOf(all, name)]) else None
  }

  lemma IndexOfConcat(a: seq<Entry>, b: seq<Entry>, name: string)
    ensures IndexOf(a + b, name) == if IndexOf(a, name) < |a| then IndexOf(a, name) else |a| + IndexOf(b, name)
  {
    hide IndexOf;
    var p, q, r := IndexOf(a, name), IndexOf(b, name), IndexOf(a + b, name);
    assert forall i :: 0 <= i < |a| ==> (a + b)[i] == a[i];
    assert forall i :: 0 <= i < |b| ==> (a + b)[|a| + i] == b[i];
    if p < |a| {
      assert (a + b)[p].name == name;
    } else if q < |b| {
      assert (a + b)[|a| + q].name == name;
    }
  }

  /** A stage keeps, of the entries under one name, the first. */
  lemma StageFirst(bom: seq<Entry>, env: Option<EnvIdentity>, e: Entry)
    requires e in Scoped(TopoSorted(Deduped(bom)), env)
    ensures var p := IndexOf(bom, e.name);
            p < |bom| && e == Stamped(bom[p], env)
  {
    hide TopoSorted, Deduped, IndexOf;
    var sorted := TopoSorted(Deduped(bom));
    DedupedKeepsFirst(bom);
    SortMembers(Deduped(bom));
    var i :| 0 <= i < |sorted| && Scoped(sorted, env)[i] == e;
    assert sorted[i] in sorted;
  }

  lemma IndexOfNormalized(bom: seq<Entry>, s: Sources, env: Option<EnvIdentity>, name: string)
    ensures IndexOf(Normalized(bom, s, env), name) == IndexOf(bom, name)
    ensures IndexOf(RepointedEntries(bom), name) == IndexOf(bom, name)
  {
    hide Repointed;
    var f := (e: Entry) => NormalizedEntry(e, s, env);
    assert Keeps(f);
    IndexOfMapped(bom, f, name);
    assert Normalized(bom, s, env) == Mapped(bom, f);
    RepointedEach(bom);
    forall i | 0 <= i < |bom| ensures RepointedEntry(bom[i]).name == bom[i].name { RepointedKeeps(bom[i]); }
    SameNamesSameIndex(RepointedEntries(bom), bom, name);
  }

  lemma {:induction false} SameNamesSameIndex(a: seq<Entry>, b: seq<Entry>, name: string)
    requires |a| == |b| && forall i :: 0 <= i < |a| ==> a[i].name == b[i].name
    ensures IndexOf(a, name) == IndexOf(b, name)
  {
    if a != [] {
      SameNamesSameIndex(a[1..], b[1..], name);
    }
  }

  /** `e` is what compiling makes of `m`: the resolved version, the configuration injected for
      this environment's account if it is an ext-secrets entry, the stamp, and `m`'s
      dependencies with split-out roles moved from the core to their producers unless `m` is a
      core entry itself. */
  ghost predicate CompiledFrom(s: Sources, env: Option<EnvIdentity>, e: Entry, m: Entry, core: bool) {
    && e.name == m.name && e.className == m.className
    && e.version == s.resolveVersion(m.className, m.version)
    && e.config == (if m.className != "hmd-inf-ext-secrets" then m.config
                    else s.configure(m.config, if env.None? then "000000000000" else env.value.accountId))
    && e.deploymentId == (if env.None? then m.deploymentId else env.value.deploymentId)
    && e.dependencies.Keys == m.dependencies.Keys
    && forall role :: role in m.dependencies ==>
         e.dependencies[role] == if core || m.dependencies[role] != "local-neuronsphere" then m.dependencies[role]
                                 else if role == "database-instance" then "environment-db"
                                 else if role == "eks-cluster" then "eks-cluster"
                                 else if role in {"graph-db", "neptune-db", "neptune"} then "global-graph"
                                 else m.dependencies[role]
  }

  lemma CompiledCore(s: Sources, env: Option<EnvIdentity>, e: Entry, m: Entry)
    requires e == Stamped(NormalizedEntry(m, s, env), env)
    ensures CompiledFrom(s, env, e, m, true)
  {
  }

  lemma CompiledRest(s: Sources, env: Option<EnvIdentity>, e: Entry, m: Entry)
    requires e == Stamped(NormalizedEntry(RepointedEntry(m), s, env), env)
    ensures CompiledFrom(s, env, e, m, false)
  {
    hide RepointedEntry;
    RepointedKeeps(m);
    RepointedKeepsRoles(m);
    forall role | role in m.dependencies
      ensures e.dependencies[role] == if SplitRole(role) && m.dependencies[role] == CORE_INSTANCE_NAME then Producer(role)
                                      else m.dependencies[role]
    {
      RepointedEntryRole(m, role);
    }
  }

  predicate IsCore(name: string) {
    IndexOf(LOCAL_CORE_BOM, name) < |LOCAL_CORE_BOM|
  }

  /** Every entry of the full definition is compiled from the first entry under its name. */
  lemma FullEntry(s: Sources, env: Option<EnvIdentity>, e: Entry)
    requires e in FullDefinition(s, env)
    ensures FirstNamed(s, env, e.name).Some?
    ensures CompiledFrom(s, env, e, FirstNamed(s, env, e.name).value, IsCore(e.name))
  {
    hide TopoSorted, Deduped, IndexOf, Merged, RepointedEntry, Scoped, Definition, RepointedEntries, NormalizedEntry, CompiledFrom;
    var core, rest, merged := Normalized(LOCAL_CORE_BOM, s, env), Definition(s, env), Merged(s, env);
    StageFirst(core + rest, env, e);
    IndexOfConcat(core, rest, e.name);
    IndexOfConcat(LOCAL_CORE_BOM, merged, e.name);
    IndexOfNormalized(LOCAL_CORE_BOM, s, env, e.name);
    if IndexOf(core, e.name) == |core| {
      var x := rest[IndexOf(rest, e.name)];
      RestFirst(s, env, x);
      CompiledRest(s, env, e, merged[IndexOf(merged, e.name)]);
    } else {
      CompiledCore(s, env, e, LOCAL_CORE_BOM[IndexOf(LOCAL_CORE_BOM, e.name)]);
    }
  }

  lemma RestFirst(s: Sources, env: Option<EnvIdentity>, x: Entry)
    requires x in Definition(s, env)
    ensures var merged := Merged(s, env);
            var p := IndexOf(merged, x.name);
            p < |merged| && x == Stamped(NormalizedEntry(RepointedEntry(merged[p]), s, env), env)
  {
    hide TopoSorted, Deduped, IndexOf, Merged, RepointedEntry, Scoped, RepointedEntries, NormalizedEntry;
    var merged := Merged(s, env);
    var repointed := RepointedEntries(merged);
    StageFirst(Normalized(repointed, s, env), env, x);
    IndexOfNormalized(repointed, s, env, x.name);
    IndexOfNormalized(merged, s, env, x.name);
    RepointedEach(merged);
  }

  /** The first entry under a name, list by list. */
  ghost function FirstIn(lists: seq<seq<Entry>>, name: string): Option<Entry> {
    if lists == [] then None
    else if IndexOf(lists[0], name) < |lists[0]| then Some(lists[0][IndexOf(lists[0], name)])
    else FirstIn(lists[1..], name)
  }

  lemma FirstInSources(s: Sources, name: string)
    ensures var p := IndexOf(SourceEntries(s), name);
            FirstIn([s.declared, s.bomFile, LOCAL_BOM, s.extSecrets, s.plugins], name)
            == if p < |SourceEntries(s)| then Some(SourceEntries(s)[p]) else None
  {
    hide IndexOf, Flat;
    var lists := [s.declared, s.bomFile, LOCAL_BOM, s.extSecrets, s.plugins];
    assert lists == [s.declared] + ([s.bomFile] + ([LOCAL_BOM] + ([s.extSecrets] + ([s.plugins] + []))));
    FlatFirst(s.plugins, []);
    FlatFirst(s.extSecrets, [s.plugins] + []);
    FlatFirst(LOCAL_BOM, [s.extSecrets] + ([s.plugins] + []));
    FlatFirst(s.bomFile, [LOCAL_BOM] + ([s.extSecrets] + ([s.plugins] + [])));
    FlatFirst(s.declared, [s.bomFile] + ([LOCAL_BOM] + ([s.extSecrets] + ([s.plugins] + []))));
    assert SourceEntries(s) == s.declared + (s.bomFile + (LOCAL_BOM + (s.extSecrets + (s.plugins + []))));
    FirstInFlat(lists, name);
  }

  ghost function Flat(lists: seq<seq<Entry>>): seq<Entry> {
    if lists == [] then [] else lists[0] + Flat(lists[1..])
  }

  lemma FlatFirst(list: seq<Entry>, rest: seq<seq<Entry>>)
    ensures Flat([list] + rest) == list + Flat(rest)
    ensures Flat([]) == []
  {
    assert ([list] + rest)[1..] == rest;
  }

  lemma {:induction false} FirstInFlat(lists: seq<seq<Entry>>, name: string)
    ensures var p := IndexOf(Flat(lists), name);
            FirstIn(lists, name) == if p < |Flat(lists)| then Some(Flat(lists)[p]) else None
  {
    if lists != [] {
      hide IndexOf;
      FirstInFlat(lists[1..], name);
      IndexOfConcat(lists[0], Flat(lists[1..]), name);
    }
  }

  /** The documented precedence: outside the core, an entry is compiled from the first one
      declared under its name in the manifest, then the BOM file, the built-ins, ext-secrets
      and the plugins; the one entry none of them declares is the graph, addressed by the
      environment's graph container. */
  lemma Precedence(s: Sources, env: Option<EnvIdentity>, e: Entry)
    requires e in FullDefinition(s, env) && e.name !in {"local-neuronsphere", "environment-db", "eks-cluster"}
    ensures match FirstIn([s.declared, s.bomFile, LOCAL_BOM, s.extSecrets, s.plugins], e.name)
            case Some(m) => CompiledFrom(s, env, e, m, false)
            case None =>
              && e.name == "global-graph" && e.className == "hmd-inf-neptune" && s.graphEnabled
              && "graph_host" in e.config
              && e.config["graph_host"] == (if env.Some? && env.value.graphContainer != "" then env.value.graphContainer
                                            else "global-graph")
              && e.dependencies == map["base-vpc" := "local-neuronsphere"]
  {
    hide FullDefinition, IndexOf, RequiresGraph, SourceEntries, FirstIn, CompiledFrom;
    FullEntry(s, env, e);
    NotOneOfThree(e.name);
    IndexOfConcat(LOCAL_CORE_BOM, Merged(s, env), e.name);
    FirstInSources(s, e.name);
    var graph := GraphBomEntry(GraphHost(env));
    IndexOfConcat(SourceEntries(s), [graph], e.name);
    SingleIndex(graph, e.name);
    if IndexOf(SourceEntries(s), e.name) == |SourceEntries(s)| {
      CompiledGraph(s, env, e);
    }
  }

  lemma NotOneOfThree(name: string)
    requires name !in {"local-neuronsphere", "environment-db", "eks-cluster"}
    ensures !IsCore(name)
  {
    hide IndexOf;
    assert forall i :: 0 <= i < |LOCAL_CORE_BOM| ==> LOCAL_CORE_BOM[i].name in {"local-neuronsphere", "environment-db", "eks-cluster"};
  }

  lemma CompiledGraph(s: Sources, env: Option<EnvIdentity>, e: Entry)
    requires CompiledFrom(s, env, e, GraphBomEntry(GraphHost(env)), false)
    ensures e.className == "hmd-inf-neptune" && "graph_host" in e.config && e.config["graph_host"] == GraphHost(env)
    ensures e.dependencies == map["base-vpc" := "local-neuronsphere"]
  {
    assert !SplitRole("base-vpc");
  }

  /** The built-in graph entry is the one under the graph's name when no source declares one. */
  ghost predicate BuiltInGraph(s: Sources, name: string) {
    name == GRAPH_INSTANCE && name !in Names(SourceEntries(s))
  }

  lemma FirstNamedCases(s: Sources, env: Option<EnvIdentity>, env': Option<EnvIdentity>, name: string)
    requires FirstNamed(s, env, name).Some?
    ensures BuiltInGraph(s, name) ==> FirstNamed(s, env, name) == Some(GraphBomEntry(GraphHost(env)))
    ensures !BuiltInGraph(s, name) ==> FirstNamed(s, env', name) == FirstNamed(s, env, name)
  {
    hide IndexOf, RequiresGraph;
    var entries := SourceEntries(s);
    var graph, graph' := GraphBomEntry(GraphHost(env)), GraphBomEntry(GraphHost(env'));
    IndexOfConcat(LOCAL_CORE_BOM, Merged(s, env), name);
    IndexOfConcat(LOCAL_CORE_BOM, Merged(s, env'), name);
    IndexOfName(entries, name);
    IndexOfConcat(entries, [graph], name);
    IndexOfConcat(entries, [graph'], name);
    SingleIndex(graph, name);
    SingleIndex(graph', name);
    NotCore(name);
  }

  lemma SingleIndex(e: Entry, name: string)
    ensures IndexOf([e], name) == if e.name == name then 0 else 1
  {
  }

  lemma NotCore(name: string)
    ensures name == GRAPH_INSTANCE ==> IndexOf(LOCAL_CORE_BOM, name) == |LOCAL_CORE_BOM|
  {
    hide IndexOf;
  }

  /** Which digests two environments share. Their definitions line up entry by entry, and the
      digests at one position agree exactly when that entry is neither the built-in graph with
      differing hosts nor an ext-secrets entry that the two accounts configure differently. */
  lemma DigestsAgree(s: Sources, env: Option<EnvIdentity>, env': Option<EnvIdentity>, i: nat)
    ensures |FullDefinition(s, env)| == |FullDefinition(s, env')|
    ensures i < |FullDefinition(s, env)| ==>
              var e, e' := FullDefinition(s, env)[i], FullDefinition(s, env')[i];
              var first := FirstNamed(s, env, e.name);
              && e.name == e'.name && e.className == e'.className && e.version == e'.version && e.dependencies == e'.dependencies
              && first.Some?
              && (EntryHash(e) == EntryHash(e')
                  <==> && !(BuiltInGraph(s, e.name) && GraphHost(env) != GraphHost(env'))
                       && !(e.className == EXT_SECRETS_REPO_CLASS
                            && s.configure(first.value.config, AccountOf(env)) != s.configure(first.value.config, AccountOf(env'))))
  {
    hide FullDefinition, FirstNamed, Merged, SourceEntries;
    DefinitionsLineUp(s, env, env');
    if i < |FullDefinition(s, env)| {
      var e, e' := FullDefinition(s, env)[i], FullDefinition(s, env')[i];
      assert Mapped(FullDefinition(s, env), Bare)[i] == Bare(e) && Mapped(FullDefinition(s, env'), Bare)[i] == Bare(e');
      FullEntry(s, env, e);
      FullEntry(s, env', e');
      FirstNamedCases(s, env, env', e.name);
      FirstNamedCases(s, env', env, e.name);
      GraphConfigs(GraphHost(env), GraphHost(env'));
    }
  }

  lemma GraphConfigs(host: string, host': string)
    ensures GraphBomEntry(host).config == GraphBomEntry(host').config <==> host == host'
  {
    assert GraphBomEntry(host).config["graph_host"] == host && GraphBomEntry(host').config["graph_host"] == host';
  }

  /** So what a rename leaves alone: while the graph container and the account stay as they
      were persisted, no digest changes, whatever the `deployment_id`. */
  lemma RenameKeepsHashes(s: Sources, env: Option<EnvIdentity>, env': Option<EnvIdentity>)
    requires GraphHost(env) == GraphHost(env') && AccountOf(env) == AccountOf(env')
    ensures Hashes(FullDefinition(s, env)) == Hashes(FullDefinition(s, env'))
  {
    hide FullDefinition, EntryHash, FirstNamed, BuiltInGraph;
    DigestsAgree(s, env, env', 0);
    forall i | 0 <= i < |FullDefinition(s, env)|
      ensures EntryHash(FullDefinition(s, env)[i]) == EntryHash(FullDefinition(s, env')[i])
    {
      DigestsAgree(s, env, env', i);
    }
  }

  /** And it is not every change of environment that leaves digests alone: with a built-in graph
      in the definition, another graph container changes one. */
  lemma GraphContainerChangesHashes(s: Sources, env: Option<EnvIdentity>, env': Option<EnvIdentity>)
    requires s.graphEnabled && RequiresGraph(SourceEntries(s)) && GRAPH_INSTANCE !in Names(SourceEntries(s))
    requires GraphHost(env) != GraphHost(env')
    ensures Hashes(FullDefinition(s, env)) != Hashes(FullDefinition(s, env'))
  {
    hide FullDefinition, EntryHash, FirstNamed, RequiresGraph, SourceEntries;
    ContributedEntries(s);
    RequiresGraphMeans(SourceEntries(s));
    hide AsksForGraph, Contributed;
    GraphIsLazy(s, env);
    var definition := FullDefinition(s, env);
    var e :| e in definition && e.name == GRAPH_INSTANCE;
    var i :| 0 <= i < |definition| && definition[i] == e;
    DigestsAgree(s, env, env', i);
    assert Hashes(definition)[i] == EntryHash(e);
  }
}
