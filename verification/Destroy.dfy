/** Destroying instances: the closure, the cascade guard, and what a destroy run leaves.

    Source: `bom_seeder.plan_destroy`, `bom_seeder.destroy_instances`. ms-deployment's
    documented effect is modelled: a destroy takes everything that transitively depends on
    the named instances, and its nodes come in reverse dependency order. */
module Destroy {
  import opened Bom
  import opened Runner

  /** What each instance in this environment depends on. */
  type Edges = map<string, set<string>>

  ghost predicate Closed(edges: Edges, s: set<string>) {
    forall x :: x in edges && edges[x] * s != {} ==> x in s
  }

  function Dependents(edges: Edges, s: set<string>): set<string> {
    set x | x in edges && edges[x] * s != {}
  }

  /** Everything that depends, directly or not, on an instance of `from`, and `from` itself. */
  function Closure(edges: Edges, from: set<string>): (r: set<string>)
    ensures from <= r && Closed(edges, r)
    decreases edges.Keys - from
  {
    if Dependents(edges, from) <= from then from
    else
      ClosureGrows(edges, from);
      Closure(edges, from + Dependents(edges, from))
  }

  lemma ClosureGrows(edges: Edges, from: set<string>)
    requires !(Dependents(edges, from) <= from)
    ensures edges.Keys - (from + Dependents(edges, from)) < edges.Keys - from
  {
    var x :| x in Dependents(edges, from) && x !in from;
    assert x in edges.Keys - from && x !in edges.Keys - (from + Dependents(edges, from));
  }

  /** It is the least such set. */
  lemma {:induction false} ClosureLeast(edges: Edges, from: set<string>, s: set<string>)
    requires from <= s && Closed(edges, s)
    ensures Closure(edges, from) <= s
    decreases edges.Keys - from
  {
    if !(Dependents(edges, from) <= from) {
      ClosureGrows(edges, from);
      ClosureLeast(edges, from + Dependents(edges, from), s);
    }
  }

  /** A chain of dependents from `c[0]` down to `c[|c| - 1]`, each depending on the next. */
  ghost predicate DependencyChain(edges: Edges, c: seq<string>) {
    c != [] && forall i :: 0 <= i < |c| - 1 ==> c[i] in edges && c[i + 1] in edges[c[i]]
  }

  /** An instance is in the closure exactly when a chain of dependencies leads from it to a
      named instance. */
  lemma ClosureIsReachability(edges: Edges, from: set<string>, x: string)
    ensures x in Closure(edges, from) <==> exists c :: DependencyChain(edges, c) && c[0] == x && c[|c| - 1] in from
  {
    if c :| DependencyChain(edges, c) && c[0] == x && c[|c| - 1] in from {
      ChainInClosure(edges, from, c);
    }
    if x in Closure(edges, from) {
      var _ := ClosureHasChain(edges, from, x);
    }
  }

  lemma {:induction false} ChainInClosure(edges: Edges, from: set<string>, c: seq<string>)
    requires DependencyChain(edges, c) && c[|c| - 1] in from
    ensures c[0] in Closure(edges, from)
  {
    if |c| > 1 {
      ChainInClosure(edges, from, c[1..]);
      assert c[1] in edges[c[0]] * Closure(edges, from);
    }
  }

  lemma {:induction false} ClosureHasChain(edges: Edges, from: set<string>, x: string) returns (c: seq<string>)
    requires x in Closure(edges, from)
    ensures DependencyChain(edges, c) && c[0] == x && c[|c| - 1] in from
    decreases edges.Keys - from
  {
    if x in from {
      return [x];
    }
    ClosureGrows(edges, from);
    c := ClosureHasChain(edges, from + Dependents(edges, from), x);
    var last := c[|c| - 1];
    if last !in from {
      var d :| d in edges[last] * from;
      c := c + [d];
    }
  }

  datatype Preparation = NothingToDestroy | Refused(collateral: set<string>) | Prepared(closure: set<string>)

  /** The cascade guard of `destroy_instances`: if the closure would take an instance that
      must survive, nothing is destroyed. */
  function Prepare(edges: Edges, names: set<string>, keep: set<string>): Preparation {
    if names - {""} == {} then NothingToDestroy
    else
      var closure := Closure(edges, names - {""});
      if closure * keep != {} then Refused(closure * keep) else Prepared(closure)
  }

  /** A chain of dependencies leads from `x` to `n`. */
  ghost predicate LeadsTo(edges: Edges, x: string, n: string) {
    exists c :: DependencyChain(edges, c) && c[0] == x && c[|c| - 1] == n
  }

  lemma ClosureLeads(edges: Edges, from: set<string>, x: string)
    ensures x in Closure(edges, from) <==> exists n :: n in from && LeadsTo(edges, x, n)
  {
    hide Closure;
    ClosureIsReachability(edges, from, x);
    if c :| DependencyChain(edges, c) && c[0] == x && c[|c| - 1] in from {
      assert LeadsTo(edges, x, c[|c| - 1]);
    }
    if n :| n in from && LeadsTo(edges, x, n) {
      var c :| DependencyChain(edges, c) && c[0] == x && c[|c| - 1] == n;
    }
  }

  /** What the guard decides: there is nothing to destroy when no instance is really named; a
      destroy is refused exactly when an instance that must survive leads to a named one, and
      then for those instances; otherwise it takes exactly the instances that lead to one. */
  lemma PrepareMeans(edges: Edges, names: set<string>, keep: set<string>)
    ensures Prepare(edges, names, keep).NothingToDestroy? <==> forall n :: n in names ==> n == ""
    ensures Prepare(edges, names, keep).Refused?
            <==> exists x, n :: x in keep && n in names && n != "" && LeadsTo(edges, x, n)
    ensures Prepare(edges, names, keep).Refused? ==>
              forall x :: x in Prepare(edges, names, keep).collateral
                          <==> x in keep && exists n :: n in names && n != "" && LeadsTo(edges, x, n)
    ensures Prepare(edges, names, keep).Prepared? ==>
              forall x :: x in Prepare(edges, names, keep).closure <==> exists n :: n in names && n != "" && LeadsTo(edges, x, n)
  {
    hide Closure, LeadsTo;
    var from := names - {""};
    var closure := Closure(edges, from);
    forall x ensures x in closure <==> exists n :: n in names && n != "" && LeadsTo(edges, x, n) {
      ClosureLeads(edges, from, x);
    }
    if from == {} {
      forall n | n in names ensures n == "" { assert n !in from; }
    } else {
      var n :| n in from;
      assert n in names && n != "";
      if x :| x in closure * keep {
        assert x in keep && x in closure;
      }
      forall x, m | x in keep && m in names && m != "" && LeadsTo(edges, x, m) ensures x in closure * keep {}
    }
  }

  // ---------------------------------------------------------------------------
  // Running a destroy
  // ---------------------------------------------------------------------------

  const DestroyMode := Mode(true, false)

  ghost predicate DependsOn(edges: Edges, x: string, d: string) {
    x in edges && d in edges[x]
  }

  /** The nodes ms-deployment hands back for a destroy: the closure, each instance once and
      after everything that depends on it. */
  ghost predicate ReverseOrder(edges: Edges, closure: set<string>, nodes: seq<Node>) {
    && (forall i :: 0 <= i < |nodes| ==> nodes[i].instance in closure)
    && (forall x :: x in closure ==> exists i :: 0 <= i < |nodes| && nodes[i].instance == x)
    && (forall i, j :: 0 <= i < |nodes| && 0 <= j < |nodes| && DependsOn(edges, nodes[j].instance, nodes[i].instance)
          ==> j <= i)
  }

  /** What a destroy run really tore down: the nodes it settled. */
  ghost function TornDown(nodes: seq<Node>): set<string> {
    set n | n in nodes[..SettledCount(nodes, DestroyMode)] :: n.instance
  }

  /** However far a destroy run gets before it stops, no instance it leaves standing depends
      on one it tore down. */
  lemma NoDanglingSurvivor(edges: Edges, from: set<string>, nodes: seq<Node>, x: string)
    requires ReverseOrder(edges, Closure(edges, from), nodes)
    requires x in edges && edges[x] * TornDown(nodes) != {}
    ensures x in TornDown(nodes)
  {
    hide Closure;
    var k := SettledCount(nodes, DestroyMode);
    var d :| d in edges[x] * TornDown(nodes);
    var n :| n in nodes[..k] && n.instance == d;
    var i :| 0 <= i < k && nodes[i] == n;
    assert d in edges[x] * Closure(edges, from);
    var j :| 0 <= j < |nodes| && nodes[j].instance == x;
    assert DependsOn(edges, nodes[j].instance, nodes[i].instance);
    assert nodes[j] in nodes[..k];
  }

  /** Nothing that must survive is torn down when the guard lets a destroy through. */
  lemma GuardSpares(edges: Edges, names: set<string>, keep: set<string>, nodes: seq<Node>)
    requires Prepare(edges, names, keep).Prepared?
    requires ReverseOrder(edges, Prepare(edges, names, keep).closure, nodes)
    ensures TornDown(nodes) * keep == {}
  {
    var closure := Prepare(edges, names, keep).closure;
    forall x | x in TornDown(nodes) ensures x in closure {
      var n :| n in nodes[..SettledCount(nodes, DestroyMode)] && n.instance == x;
    }
  }
}
