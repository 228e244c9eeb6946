/** The stable topological sort of a BOM.

    Source: `bom_seeder._topo_sort_bom`. Entries are numbered by their position in
    `by_name`, so the source's `order` is the identity on positions. The method
    `TopoSort` keeps the source's indegrees, dependent lists and ready list; the
    function `TopoSorted` is what it is proved to compute, and the lemmas say what
    that function means. */
module TopoSort {
  import opened Bom
  import opened Common

  /** `g[i]` holds the positions entry `i` depends on. */
  type Graph = seq<set<nat>>

  ghost predicate WellFormed(g: Graph) {
    forall i, d :: 0 <= i < |g| && d in g[i] ==> d < |g| && d != i
  }

  ghost function Nodes(g: Graph): set<nat> {
    Below(|g|)
  }

  // ---------------------------------------------------------------------------
  // What a topological order is, and what a cycle is
  // ---------------------------------------------------------------------------

  /** `t` lists every node once, each after everything it depends on. */
  ghost predicate IsTopological(g: Graph, t: seq<nat>) {
    && |t| == |g|
    && (forall i :: 0 <= i < |t| ==> t[i] < |g|)
    && (forall i, j :: 0 <= i < j < |t| ==> t[i] != t[j])
    && (forall i, d :: 0 <= i < |t| && d in g[t[i]] ==> d in t[..i])
  }

  /** A closed walk along dependency edges; a self-edge is never an edge of `g`. */
  ghost predicate IsCycle(g: Graph, c: seq<nat>) {
    && |c| > 0
    && (forall i :: 0 <= i < |c| ==> c[i] < |g|)
    && (forall i :: 0 <= i < |c| - 1 ==> c[i + 1] in g[c[i]])
    && c[0] in g[c[|c| - 1]]
  }

  ghost predicate HasCycle(g: Graph) {
    exists c :: IsCycle(g, c)
  }

  /** Lexicographic order on position sequences. */
  ghost predicate LexLeq(a: seq<nat>, b: seq<nat>) {
    |a| == 0 || (|b| > 0 && (a[0] < b[0] || (a[0] == b[0] && LexLeq(a[1..], b[1..]))))
  }

  // ---------------------------------------------------------------------------
  // The greedy order
  // ---------------------------------------------------------------------------

  /** Nodes not yet placed whose dependencies all are. */
  ghost function Ready(g: Graph, done: set<nat>): set<nat> {
    set i | i in Nodes(g) && i !in done && g[i] <= done
  }

  lemma NodesMeans(g: Graph, i: nat)
    ensures i in Nodes(g) <==> i < |g|
  {
  }

  lemma ReadyIs(g: Graph, done: set<nat>, i: nat)
    ensures i in Ready(g, done) <==> i < |g| && i !in done && g[i] <= done
  {
  }

  ghost predicate IsLeast(s: set<nat>, m: nat) {
    m in s && forall x :: x in s ==> m <= x
  }

  lemma LeastExists(s: set<nat>)
    requires s != {}
    ensures exists m :: IsLeast(s, m)
  {
    var x :| x in s;
    if s == {x} {
      assert IsLeast(s, x);
    } else {
      LeastExists(s - {x});
      var m :| IsLeast(s - {x}, m);
      var l := if x < m then x else m;
      forall y | y in s ensures l <= y {
        assert y == x || y in s - {x};
      }
      assert IsLeast(s, l);
    }
  }

  ghost function Least(s: set<nat>): (m: nat)
    requires s != {}
    ensures IsLeast(s, m)
  {
    LeastExists(s);
    var m :| IsLeast(s, m);
    m
  }

  /** Repeatedly place the least ready node, until none is ready. */
  ghost function Greedy(g: Graph, done: set<nat>): (order: seq<nat>)
    ensures forall k :: 0 <= k < |order| ==> order[k] < |g|
    decreases Nodes(g) - done
  {
    if Ready(g, done) == {} then []
    else
      var m := Least(Ready(g, done));
      assert m in Nodes(g) - done;
      [m] + Greedy(g, done + {m})
  }

  ghost function Placed(order: seq<nat>): set<nat> {
    set i | i in order
  }

  /** `t` can be placed after `done`, node by node, and leaves nothing over. */
  ghost predicate Completes(g: Graph, done: set<nat>, t: seq<nat>)
    decreases |t|
  {
    if t == [] then Nodes(g) <= done
    else t[0] in Ready(g, done) && Completes(g, done + {t[0]}, t[1..])
  }

  lemma {:induction false} TopologicalCompletes(g: Graph, t: seq<nat>, k: nat)
    requires WellFormed(g) && IsTopological(g, t) && k <= |t|
    ensures Completes(g, Placed(t[..k]), t[k..])
    decreases |t| - k
  {
    var done := Placed(t[..k]);
    if k == |t| {
      assert t[..k] == t;
      AllPlaced(t, |g|);
    } else {
      assert t[k..][0] == t[k];
      assert t[..k + 1] == t[..k] + [t[k]];
      assert Placed(t[..k + 1]) == done + {t[k]};
      assert t[k..][1..] == t[k + 1..];
      assert t[k] in Ready(g, done) by {
        assert t[k] !in t[..k];
        forall d | d in g[t[k]] ensures d in done { assert d in t[..k]; }
      }
      TopologicalCompletes(g, t, k + 1);
    }
  }

  /** A duplicate-free list of `n` numbers below `n` lists them all. */
  lemma {:induction false} AllPlaced(t: seq<nat>, n: nat)
    requires |t| == n
    requires forall i :: 0 <= i < |t| ==> t[i] < n
    requires forall i, j :: 0 <= i < j < |t| ==> t[i] != t[j]
    ensures forall x: nat :: x < n ==> x in t
  {
    DistinctCard(t);
    assert Placed(t) <= Below(n);
    SubsetCard(Placed(t), Below(n));
    forall x: nat | x < n ensures x in t {
      assert x in Placed(t);
    }
  }

  lemma {:induction false} DistinctCard(t: seq<nat>)
    requires forall i, j :: 0 <= i < j < |t| ==> t[i] != t[j]
    ensures |Placed(t)| == |t|
  {
    if t != [] {
      var last := |t| - 1;
      DistinctCard(t[..last]);
      assert t == t[..last] + [t[last]];
      assert Placed(t) == Placed(t[..last]) + {t[last]};
    }
  }

  lemma {:induction false} CompletesPlaces(g: Graph, done: set<nat>, t: seq<nat>)
    requires Completes(g, done, t)
    ensures Nodes(g) <= done + Placed(t) && Placed(t) <= Nodes(g) - done
    ensures |Placed(t)| == |t|
    decreases |t|
  {
    hide Nodes;
    if t != [] {
      var rest := t[1..];
      CompletesPlaces(g, done + {t[0]}, rest);
      assert t == [t[0]] + rest;
      ReadyIs(g, done, t[0]);
      NodesMeans(g, t[0]);
      hide Ready, Placed;
      PlacedFirst(t[0], rest);
      assert t[0] !in Placed(rest);
    }
  }

  lemma {:induction false} FullCardDistinct(t: seq<nat>)
    requires |Placed(t)| == |t|
    ensures forall i, j :: 0 <= i < j < |t| ==> t[i] != t[j]
  {
    if t != [] {
      var init, last := t[..|t| - 1], t[|t| - 1];
      assert t == init + [last];
      assert Placed(t) == Placed(init) + {last};
      PlacedCard(init);
      FullCardDistinct(init);
      forall i | 0 <= i < |init| ensures init[i] != last {
        assert init[i] in Placed(init);
      }
    }
  }

  lemma {:induction false} PlacedCard(t: seq<nat>)
    ensures |Placed(t)| <= |t|
  {
    if t != [] {
      var init, last := t[..|t| - 1], t[|t| - 1];
      PlacedCard(init);
      assert t == init + [last];
      assert Placed(t) == Placed(init) + {last};
    }
  }

  lemma {:induction false} CompletesDepsFirst(g: Graph, done: set<nat>, t: seq<nat>, i: nat)
    requires Completes(g, done, t) && i < |t|
    ensures t[i] < |g| && g[t[i]] <= done + Placed(t[..i])
    decreases |t|
  {
    hide Nodes;
    ReadyIs(g, done, t[0]);
    if i > 0 {
      var rest := t[1..];
      CompletesDepsFirst(g, done + {t[0]}, rest, i - 1);
      assert rest[i - 1] == t[i] && t[..i] == [t[0]] + rest[..i - 1];
      PlacedFirst(t[0], rest[..i - 1]);
    }
  }

  lemma PlacedFirst(m: nat, rest: seq<nat>)
    ensures Placed([m] + rest) == {m} + Placed(rest)
  {
    forall x ensures x in [m] + rest <==> x == m || x in rest {}
  }

  lemma CompletesIsTopological(g: Graph, t: seq<nat>)
    requires Completes(g, {}, t)
    ensures IsTopological(g, t)
  {
    CompletesPlaces(g, {}, t);
    FullCardDistinct(t);
    assert Placed(t) == Nodes(g);
    forall i | 0 <= i < |t| ensures t[i] < |g| {
      assert t[i] in Placed(t);
    }
    forall i, d | 0 <= i < |t| && d in g[t[i]] ensures d in t[..i] {
      CompletesDepsFirst(g, {}, t, i);
      assert d in Placed(t[..i]);
    }
  }

  // ---------------------------------------------------------------------------
  // Greedy is least, and gets stuck only on a cycle
  // ---------------------------------------------------------------------------

  lemma {:induction false} GreedyLeast(g: Graph, done: set<nat>, t: seq<nat>)
    requires Completes(g, done, t)
    ensures LexLeq(Greedy(g, done), t)
    decreases |t|
  {
    if t == [] {
      assert Ready(g, done) == {};
    } else {
      var m := Least(Ready(g, done));
      if m == t[0] {
        GreedyLeast(g, done + {m}, t[1..]);
      }
    }
  }

  /** Greedy stops with nothing ready. */
  lemma {:induction false} GreedyStops(g: Graph, done: set<nat>)
    ensures Ready(g, done + Placed(Greedy(g, done))) == {}
    decreases Nodes(g) - done
  {
    if Ready(g, done) == {} {
      assert done + Placed([]) == done;
    } else {
      var m := Least(Ready(g, done));
      var rest := Greedy(g, done + {m});
      GreedyStops(g, done + {m});
      PlacedFirst(m, rest);
      assert done + Placed([m] + rest) == done + {m} + Placed(rest);
    }
  }

  /** It completes when it has placed everything. */
  lemma {:induction false} GreedyCompletes(g: Graph, done: set<nat>)
    requires Nodes(g) <= done + Placed(Greedy(g, done))
    ensures Completes(g, done, Greedy(g, done))
    decreases Nodes(g) - done
  {
    if Ready(g, done) == {} {
      assert done + Placed([]) == done;
    } else {
      var m := Least(Ready(g, done));
      var rest := Greedy(g, done + {m});
      PlacedFirst(m, rest);
      assert done + Placed([m] + rest) == done + {m} + Placed(rest);
      GreedyCompletes(g, done + {m});
      assert ([m] + rest)[0] == m && ([m] + rest)[1..] == rest;
    }
  }

  lemma {:induction false} GreedyPlaces(g: Graph, done: set<nat>)
    ensures Placed(Greedy(g, done)) <= Nodes(g) - done
    ensures |Placed(Greedy(g, done))| == |Greedy(g, done)|
    decreases Nodes(g) - done
  {
    if Ready(g, done) != {} {
      var m := Least(Ready(g, done));
      var rest := Greedy(g, done + {m});
      GreedyPlaces(g, done + {m});
      PlacedFirst(m, rest);
    }
  }

  /** A walk of `k + 1` nodes inside `s`, where every node of `s` depends on another in `s`. */
  ghost function Walk(g: Graph, s: set<nat>, from: nat, k: nat): (w: seq<nat>)
    requires from in s
    requires forall i :: i in s ==> i < |g| && g[i] * s != {}
    ensures |w| == k + 1 && w[0] == from
    ensures forall i :: 0 <= i < |w| ==> w[i] in s
    ensures forall i :: 0 <= i < k ==> w[i + 1] in g[w[i]]
    decreases k
  {
    if k == 0 then [from]
    else
      var next :| next in g[from] * s;
      [from] + Walk(g, s, next, k - 1)
  }

  lemma {:induction false} Pigeonhole(w: seq<nat>, s: set<nat>) returns (i: nat, j: nat)
    requires |w| > |s| && forall k :: 0 <= k < |w| ==> w[k] in s
    ensures i < j < |w| && w[i] == w[j]
  {
    var last := |w| - 1;
    if k :| 0 <= k < last && w[k] == w[last] {
      return k, last;
    }
    i, j := Pigeonhole(w[..last], s - {w[last]});
  }

  lemma StuckHasCycle(g: Graph, s: set<nat>)
    requires s != {}
    requires forall i :: i in s ==> i < |g| && g[i] * s != {}
    ensures HasCycle(g)
  {
    var from :| from in s;
    var w := Walk(g, s, from, |s|);
    var i, j := Pigeonhole(w, s);
    var c := w[i..j];
    assert c[|c| - 1] == w[j - 1] && w[j] in g[w[j - 1]];
    assert IsCycle(g, c);
  }

  /** No node of a cycle is ever ready, so no list that leaves a cycle unplaced completes. */
  lemma {:induction false} CycleBlocks(g: Graph, c: seq<nat>, done: set<nat>, t: seq<nat>)
    requires IsCycle(g, c) && Placed(c) !! done
    ensures !Completes(g, done, t)
    decreases |t|
  {
    assert c[0] in Placed(c) && c[0] in Nodes(g);
    forall i | 0 <= i < |c| ensures c[i] !in Ready(g, done) {
      var next := if i + 1 < |c| then c[i + 1] else c[0];
      assert next in g[c[i]] && next in Placed(c);
    }
    if t != [] && t[0] !in c {
      CycleBlocks(g, c, done + {t[0]}, t[1..]);
    }
  }

  lemma TopologicalLength(g: Graph, t: seq<nat>)
    requires IsTopological(g, t)
    ensures |t| == |g|
  {
  }

  /** Greedy leaves something over only on a cycle. */
  lemma GreedyStuck(g: Graph)
    requires WellFormed(g) && !(Nodes(g) <= Placed(Greedy(g, {})))
    ensures HasCycle(g) && |Greedy(g, {})| != |g|
  {
    hide Greedy, Nodes;
    var order := Greedy(g, {});
    GreedyStops(g, {});
    GreedyPlaces(g, {});
    assert {} + Placed(order) == Placed(order);
    var s := Nodes(g) - Placed(order);
    forall i | i in s ensures i < |g| && g[i] * s != {} {
      ReadyIs(g, Placed(order), i);
      NodesMeans(g, i);
      forall d | d in g[i] ensures d in Nodes(g) { NodesMeans(g, d); }
      StuckNode(g, Placed(order), i);
    }
    StuckHasCycle(g, s);
    SubsetCard(Placed(order), Nodes(g));
    NodesCard(g);
  }

  /** A node left over waits for another node left over. */
  lemma StuckNode(g: Graph, done: set<nat>, i: nat)
    requires i < |g| && i in Nodes(g) - done && i !in Ready(g, done) && g[i] <= Nodes(g)
    ensures g[i] * (Nodes(g) - done) != {}
  {
    hide Nodes;
    ReadyIs(g, done, i);
    var d :| d in g[i] && d !in done;
    assert d in g[i] * (Nodes(g) - done);
  }

  lemma NodesCard(g: Graph)
    ensures |Nodes(g)| == |g|
  {
  }

  /** The order the sort finds is complete iff the non-self edges are acyclic; then it
      is a topological order and precedes every other one lexicographically, which is
      what "stable" promises. */
  lemma GreedyOrder(g: Graph)
    requires WellFormed(g)
    ensures |Greedy(g, {})| == |g| <==> !HasCycle(g)
    ensures !HasCycle(g) ==> IsTopological(g, Greedy(g, {}))
    ensures forall t :: IsTopological(g, t) ==> !HasCycle(g) && LexLeq(Greedy(g, {}), t)
  {
    hide Greedy, Ready, HasCycle, IsTopological, LexLeq, Completes;
    var order := Greedy(g, {});
    if Nodes(g) <= Placed(order) {
      GreedyPlaces(g, {});
      GreedyCompletes(g, {});
      CompletesIsTopological(g, order);
      NoCycleIfComplete(g, order);
      TopologicalLength(g, order);
    } else {
      GreedyStuck(g);
    }
    forall t | IsTopological(g, t) ensures !HasCycle(g) && LexLeq(order, t) {
      TopologicalCompletes(g, t, 0);
      assert t[..0] == [] && t[0..] == t;
      assert Placed(t[..0]) == {};
      NoCycleIfComplete(g, t);
      GreedyLeast(g, {}, t);
    }
  }

  lemma NoCycleIfComplete(g: Graph, t: seq<nat>)
    requires Completes(g, {}, t)
    ensures !HasCycle(g)
  {
    if c :| IsCycle(g, c) {
      CycleBlocks(g, c, {}, t);
    }
  }

  /** `order` starts with `j`, `j + 1` and so on up to `k`. */
  ghost predicate CountsUp(order: seq<nat>, j: nat, k: nat)
    requires j <= k
  {
    |order| >= k - j && forall i :: 0 <= i < k - j ==> order[i] == j + i
  }

  /** Where the first `k` nodes only depend on earlier ones, greedy starts with them in order. */
  lemma {:induction false} GreedyPrefix(g: Graph, j: nat, k: nat)
    requires j <= k <= |g|
    requires forall i, d :: 0 <= i < k && d in g[i] ==> d < i
    ensures CountsUp(Greedy(g, Below(j)), j, k)
    decreases k - j
  {
    hide *;
    if j == k {
      CountsUpNone(Greedy(g, Below(j)), j);
    } else {
      GreedyPrefixStep(g, j);
      GreedyPrefix(g, j + 1, k);
      CountsUpFirst(Greedy(g, Below(j + 1)), j, k);
    }
  }

  lemma CountsUpNone(order: seq<nat>, j: nat)
    ensures CountsUp(order, j, j)
  {
  }

  lemma CountsUpFirst(order: seq<nat>, j: nat, k: nat)
    requires j < k && CountsUp(order, j + 1, k)
    ensures CountsUp([j] + order, j, k)
  {
  }

  lemma GreedyPrefixStep(g: Graph, j: nat)
    requires j < |g| && forall d :: d in g[j] ==> d < j
    ensures Greedy(g, Below(j)) == [j] + Greedy(g, Below(j + 1))
  {
    hide Greedy, Below, Ready;
    ReadyIs(g, Below(j), j);
    forall x | x in Ready(g, Below(j)) ensures j <= x { ReadyIs(g, Below(j), x); }
    GreedyTakes(g, Below(j), j);
    assert Below(j) + {j} == Below(j + 1);
  }

  /** Greedy starts with the least ready node. */
  lemma GreedyTakes(g: Graph, done: set<nat>, m: nat)
    requires IsLeast(Ready(g, done), m)
    ensures Greedy(g, done) == [m] + Greedy(g, done + {m})
  {
    hide Ready;
    assert Least(Ready(g, done)) == m;
  }

  // ---------------------------------------------------------------------------
  // Sorting a BOM
  // ---------------------------------------------------------------------------

  /** `dict[name] = entry`: overwrites in place, or adds at the end. */
  function Put(dict: seq<Entry>, e: Entry): seq<Entry> {
    var p := IndexOf(dict, e.name);
    if p < |dict| then dict[p := e] else dict + [e]
  }

  /** The source's `by_name`: nameless entries are dropped, and a repeated name keeps its
      first position but its last entry. */
  function ByName(bom: seq<Entry>): (dict: seq<Entry>)
    ensures UniqueNames(dict) && AllNamed(dict)
  {
    if bom == [] then []
    else
      var dict := ByName(bom[..|bom| - 1]);
      var e := bom[|bom| - 1];
      if e.name == "" then dict else Put(dict, e)
  }

  /** `e` has a name and is the last under it. */
  ghost predicate LastNamed(bom: seq<Entry>, e: Entry) {
    e.name != "" && exists i :: 0 <= i < |bom| && bom[i] == e && forall j :: i < j < |bom| ==> bom[j].name != e.name
  }

  lemma LastNamedAppend(init: seq<Entry>, last: Entry, e: Entry)
    ensures LastNamed(init + [last], e) <==> (e == last && e.name != "") || (LastNamed(init, e) && last.name != e.name)
  {
    var bom := init + [last];
    if LastNamed(init, e) && last.name != e.name {
      var i :| 0 <= i < |init| && init[i] == e && forall j :: i < j < |init| ==> init[j].name != e.name;
      assert bom[i] == e;
    }
    if e == last {
      assert bom[|init|] == e;
    }
    if LastNamed(bom, e) {
      var i :| 0 <= i < |bom| && bom[i] == e && forall j :: i < j < |bom| ==> bom[j].name != e.name;
      if i < |init| {
        assert bom[|init|] == last && init[i] == e;
        forall j | i < j < |init| ensures init[j].name != e.name { assert bom[j] == init[j]; }
      }
    }
  }

  /** Of the entries under one name the last is kept, and nameless ones are dropped. */
  lemma {:induction false} ByNameKeepsLast(bom: seq<Entry>, e: Entry)
    ensures e in ByName(bom) <==> LastNamed(bom, e)
  {
    if bom != [] {
      hide IndexOf, LastNamed, Put;
      var init, last := bom[..|bom| - 1], bom[|bom| - 1];
      assert bom == init + [last];
      ByNameKeepsLast(init, e);
      LastNamedAppend(init, last, e);
      LastNamedHasName(init, e);
      PutMembers(ByName(init), last, e);
    }
  }

  lemma LastNamedHasName(bom: seq<Entry>, e: Entry)
    ensures LastNamed(bom, e) ==> e.name != ""
  {
  }

  lemma PutMembers(dict: seq<Entry>, e: Entry, x: Entry)
    requires UniqueNames(dict)
    ensures x in Put(dict, e) <==> x == e || (x in dict && x.name != e.name)
  {
    var p, after := IndexOf(dict, e.name), Put(dict, e);
    if x in dict {
      var i :| 0 <= i < |dict| && dict[i] == x;
      assert i != p ==> after[i] == x;
    }
    if x in after {
      var i :| 0 <= i < |after| && after[i] == x;
    }
    assert after[p] == e;
  }

  /** In the place of the first. */
  lemma {:induction false} ByNameKeepsPlaces(bom: seq<Entry>, a: string, b: string)
    requires a != "" && b != "" && IndexOf(bom, a) < IndexOf(bom, b) < |bom|
    ensures IndexOf(ByName(bom), a) < IndexOf(ByName(bom), b) < |ByName(bom)|
  {
    hide IndexOf;
    var init, last := bom[..|bom| - 1], bom[|bom| - 1];
    assert bom == init + [last];
    IndexOfAppend(init, last, a);
    IndexOfAppend(init, last, b);
    ByNameHas(init, a);
    ByNameHas(init, b);
    PutPlaces(ByName(init), last, a);
    PutPlaces(ByName(init), last, b);
    if IndexOf(init, b) < |init| {
      ByNameKeepsPlaces(init, a, b);
    }
  }

  lemma {:induction false} ByNameHas(bom: seq<Entry>, name: string)
    requires name != ""
    ensures IndexOf(ByName(bom), name) < |ByName(bom)| <==> IndexOf(bom, name) < |bom|
  {
    if bom != [] {
      hide IndexOf;
      var init, last := bom[..|bom| - 1], bom[|bom| - 1];
      assert bom == init + [last];
      ByNameHas(init, name);
      IndexOfAppend(init, last, name);
      PutPlaces(ByName(init), last, name);
    }
  }

  lemma PutPlaces(dict: seq<Entry>, e: Entry, name: string)
    ensures IndexOf(Put(dict, e), name)
            == if IndexOf(dict, name) < |dict| then IndexOf(dict, name)
               else if e.name == name then |dict| else |Put(dict, e)|
  {
    var p, q, r := IndexOf(dict, e.name), IndexOf(dict, name), IndexOf(Put(dict, e), name);
    var after := Put(dict, e);
    if p == |dict| {
      IndexOfAppend(dict, e, name);
    } else {
      assert forall i :: 0 <= i < |dict| ==> after[i].name == dict[i].name;
    }
  }

  lemma {:induction false} ByNameOfUnique(bom: seq<Entry>)
    requires UniqueNames(bom) && AllNamed(bom)
    ensures ByName(bom) == bom
  {
    if bom != [] {
      var init := bom[..|bom| - 1];
      ByNameOfUnique(init);
      assert IndexOf(init, bom[|bom| - 1].name) == |init|;
      assert bom == init + [bom[|bom| - 1]];
    }
  }

  /** Whether entry `i` depends on entry `p`: a self-edge does not count. */
  ghost predicate DependsOn(bom: seq<Entry>, i: nat, p: nat)
    requires i < |bom| && p < |bom|
  {
    p != i && bom[p].name in bom[i].dependencies.Values
  }

  ghost function Targets(bom: seq<Entry>, i: nat): set<nat>
    requires i < |bom|
  {
    set p | p in Below(|bom|) && DependsOn(bom, i, p)
  }

  ghost function DepGraph(bom: seq<Entry>): (g: Graph)
    ensures WellFormed(g) && |g| == |bom|
  {
    seq(|bom|, i requires 0 <= i < |bom| => Targets(bom, i))
  }

  ghost predicate DependencyOrdered(bom: seq<Entry>) {
    forall i: nat, p: nat :: i < |bom| && p < |bom| && DependsOn(bom, i, p) ==> p < i
  }

  ghost function Arrange(bom: seq<Entry>, order: seq<nat>): (r: seq<Entry>)
    requires forall k :: 0 <= k < |order| ==> order[k] < |bom|
    ensures |r| == |order|
  {
    seq(|order|, k requires 0 <= k < |order| => bom[order[k]])
  }

  ghost function TopoSorted(bom: seq<Entry>): seq<Entry> {
    var dict := ByName(bom);
    var order := Greedy(DepGraph(dict), {});
    if |order| == |dict| then Arrange(dict, order) else bom
  }

  lemma {:induction false} UniqueMultiset(bom: seq<Entry>)
    requires UniqueNames(bom)
    ensures forall e :: multiset(bom)[e] == if e in bom then 1 else 0
  {
    if bom != [] {
      var init, last := bom[..|bom| - 1], bom[|bom| - 1];
      UniqueMultiset(init);
      assert bom == init + [last];
    }
  }

  /** Arranging by a duplicate-free list of every position is a permutation. */
  lemma ArrangePermutes(bom: seq<Entry>, order: seq<nat>)
    requires UniqueNames(bom) && IsTopological(DepGraph(bom), order)
    ensures multiset(Arrange(bom, order)) == multiset(bom)
    ensures UniqueNames(Arrange(bom, order)) && DependencyOrdered(Arrange(bom, order))
  {
    var r := Arrange(bom, order);
    AllPlaced(order, |bom|);
    forall e | e in bom ensures e in r {
      var i: nat :| i < |bom| && bom[i] == e;
      assert i in order;
      var k :| 0 <= k < |order| && order[k] == i;
      assert r[k] == e;
    }
    UniqueMultiset(bom);
    UniqueMultiset(r);
    forall i: nat, p: nat | i < |r| && p < |r| && DependsOn(r, i, p) ensures p < i {
      assert DependsOn(bom, order[i], order[p]);
      assert order[p] in DepGraph(bom)[order[i]];
      assert order[p] in order[..i];
    }
  }

  /** The sort of a uniquely named BOM. With no cycle among the non-self edges it is a
      permutation that puts every in-BOM dependency first, and of all such orders the
      lexicographically least by input position; with a cycle it is the input. */
  lemma TopoSortedMeans(bom: seq<Entry>)
    requires UniqueNames(bom) && AllNamed(bom)
    ensures HasCycle(DepGraph(bom)) ==> TopoSorted(bom) == bom
    ensures !HasCycle(DepGraph(bom)) ==>
              && multiset(TopoSorted(bom)) == multiset(bom)
              && DependencyOrdered(TopoSorted(bom))
              && exists order ::
                   && IsTopological(DepGraph(bom), order)
                   && TopoSorted(bom) == Arrange(bom, order)
                   && forall t :: IsTopological(DepGraph(bom), t) ==> LexLeq(order, t)
    ensures UniqueNames(TopoSorted(bom)) && AllNamed(TopoSorted(bom))
    ensures forall e :: e in TopoSorted(bom) <==> e in bom
  {
    ByNameOfUnique(bom);
    GreedyOrder(DepGraph(bom));
    if !HasCycle(DepGraph(bom)) {
      var order := Greedy(DepGraph(bom), {});
      ArrangePermutes(bom, order);
      forall e ensures e in TopoSorted(bom) <==> e in bom {
        assert e in multiset(TopoSorted(bom)) <==> e in multiset(bom);
      }
    }
  }

  /** A BOM that is sortable at all has no cycle, so the fallback is never taken for one
      that could have been ordered. */
  lemma FallbackOnlyOnCycle(bom: seq<Entry>, t: seq<nat>)
    requires UniqueNames(bom) && AllNamed(bom) && IsTopological(DepGraph(bom), t)
    ensures DependencyOrdered(TopoSorted(bom))
  {
    GreedyOrder(DepGraph(bom));
    TopoSortedMeans(bom);
  }

  lemma SortedLength(bom: seq<Entry>)
    requires UniqueNames(bom) && AllNamed(bom)
    ensures |TopoSorted(bom)| == |bom|
  {
    ByNameOfUnique(bom);
  }

  /** The leading entries that already are in dependency order stay where they are,
      whatever follows them and even when the fallback fires. */
  lemma PrefixKept(bom: seq<Entry>, k: nat)
    requires UniqueNames(bom) && AllNamed(bom) && k <= |bom|
    requires forall i: nat, p: nat :: i < k && p < |bom| && DependsOn(bom, i, p) ==> p < i
    ensures |TopoSorted(bom)| == |bom|
    ensures forall i :: 0 <= i < k ==> TopoSorted(bom)[i] == bom[i]
  {
    ByNameOfUnique(bom);
    SortedLength(bom);
    var g := DepGraph(bom);
    GreedyPrefixOfBom(bom, k);
    var order := Greedy(g, {});
    if |order| == |bom| {
      assert TopoSorted(bom) == Arrange(bom, order);
    }
  }

  lemma GreedyPrefixOfBom(bom: seq<Entry>, k: nat)
    requires k <= |bom|
    requires forall i: nat, p: nat :: i < k && p < |bom| && DependsOn(bom, i, p) ==> p < i
    ensures var order := Greedy(DepGraph(bom), {});
            |order| >= k && forall i :: 0 <= i < k ==> order[i] == i
  {
    var g := DepGraph(bom);
    forall i, d | 0 <= i < k && d in g[i] ensures d < i {
      assert DependsOn(bom, i, d);
    }
    GreedyPrefix(g, 0, k);
    assert Below(0) == {};
  }

  /** A list already in dependency order is returned unchanged. */
  lemma SortFixedPoint(bom: seq<Entry>)
    requires UniqueNames(bom) && AllNamed(bom) && DependencyOrdered(bom)
    ensures TopoSorted(bom) == bom
  {
    PrefixKept(bom, |bom|);
  }

  /** Hence sorting is idempotent, on every BOM whose entries have distinct names. */
  lemma SortIdempotent(bom: seq<Entry>)
    requires UniqueNames(bom) && AllNamed(bom)
    ensures TopoSorted(TopoSorted(bom)) == TopoSorted(bom)
  {
    TopoSortedMeans(bom);
    if !HasCycle(DepGraph(bom)) {
      SortFixedPoint(TopoSorted(bom));
    }
  }

  /** A distinctly named BOM that may hold a nameless entry sorts as its named entries do,
      or comes back whole when they form a cycle. */
  lemma SortNamed(bom: seq<Entry>)
    ensures TopoSorted(bom) == if HasCycle(DepGraph(ByName(bom))) then bom else TopoSorted(ByName(bom))
  {
    var dict := ByName(bom);
    ByNameOfUnique(dict);
    GreedyOrder(DepGraph(dict));
  }

  lemma {:induction false} ByNameMembers(bom: seq<Entry>)
    requires UniqueNames(bom)
    ensures forall e :: e in ByName(bom) <==> e in bom && e.name != ""
  {
    if bom != [] {
      var init, last := bom[..|bom| - 1], bom[|bom| - 1];
      assert bom == init + [last];
      ByNameMembers(init);
      IndexOfName(ByName(init), last.name);
      forall e | e in init ensures e.name != last.name {}
    }
  }

  /** Whatever a distinctly named BOM holds, sorting keeps the names distinct, invents no
      entry and loses no named one. */
  lemma SortMembers(bom: seq<Entry>)
    requires UniqueNames(bom)
    ensures UniqueNames(TopoSorted(bom))
    ensures forall e :: e in TopoSorted(bom) ==> e in bom
    ensures forall e :: e in bom && e.name != "" ==> e in TopoSorted(bom)
    ensures !HasCycle(DepGraph(ByName(bom))) ==> DependencyOrdered(TopoSorted(bom))
  {
    SortNamed(bom);
    ByNameMembers(bom);
    TopoSortedMeans(ByName(bom));
  }

  lemma {:induction false} ByNamePrefix(bom: seq<Entry>, k: nat)
    requires UniqueNames(bom) && k <= |bom| && AllNamed(bom[..k])
    ensures |ByName(bom)| >= k && ByName(bom)[..k] == bom[..k]
  {
    if k == |bom| {
      assert bom[..k] == bom;
      ByNameOfUnique(bom);
    } else {
      var init, last := bom[..|bom| - 1], bom[|bom| - 1];
      assert init[..k] == bom[..k];
      ByNamePrefix(init, k);
      ByNameMembers(init);
      forall e | e in init ensures e.name != last.name {}
      IndexOfName(ByName(init), last.name);
    }
  }

  ghost predicate LeadingOrdered(bom: seq<Entry>, k: nat) {
    && k <= |bom|
    && AllNamed(bom[..k])
    && forall i: nat, role :: i < k && role in bom[i].dependencies ==>
         IndexOf(bom, bom[i].dependencies[role]) <= i || IndexOf(bom, bom[i].dependencies[role]) == |bom|
  }

  lemma LeadingDependency(bom: seq<Entry>, k: nat, i: nat, p: nat)
    requires UniqueNames(bom) && LeadingOrdered(bom, k)
    requires |ByName(bom)| >= k && ByName(bom)[..k] == bom[..k]
    requires i < k && p < |ByName(bom)| && DependsOn(ByName(bom), i, p)
    ensures p < i
  {
    hide IndexOf, ByName;
    var dict := ByName(bom);
    ByNameMembers(bom);
    assert dict[i] == dict[..k][i] == bom[i];
    var role :| role in bom[i].dependencies && bom[i].dependencies[role] == dict[p].name;
    assert dict[p] in dict;
    IndexOfName(bom, dict[p].name);
    var q := IndexOf(bom, dict[p].name);
    assert q <= i;
    assert dict[q] == dict[..k][q] == bom[q];
    assert p == q;
  }

  /** Leading named entries that only depend on entries before them (or on nothing in the
      BOM) lead the sorted BOM too, in their own order, even when the fallback fires. */
  lemma LeadingKept(bom: seq<Entry>, k: nat)
    requires UniqueNames(bom) && LeadingOrdered(bom, k)
    ensures |TopoSorted(bom)| >= k && TopoSorted(bom)[..k] == bom[..k]
  {
    hide TopoSorted, ByName, DepGraph, DependsOn;
    var dict := ByName(bom);
    SortNamed(bom);
    ByNamePrefix(bom, k);
    forall i: nat, p: nat | i < k && p < |dict| && DependsOn(dict, i, p) ensures p < i {
      LeadingDependency(bom, k, i, p);
    }
    PrefixKept(dict, k);
    forall i | 0 <= i < k ensures dict[i] == bom[i] {
      assert dict[i] == dict[..k][i];
    }
  }

  // ---------------------------------------------------------------------------
  // The algorithm
  // ---------------------------------------------------------------------------

  /** How many edges into `j` come from nodes below `upto` that are not in `done`;
      two roles naming the same target are two edges. */
  ghost function Remaining(dependents: seq<seq<nat>>, done: set<nat>, j: nat, upto: nat): nat
    requires upto <= |dependents|
  {
    if upto == 0 then 0
    else
      Remaining(dependents, done, j, upto - 1)
      + if upto - 1 in done then 0 else multiset(dependents[upto - 1])[j]
  }

  lemma {:induction false} RemainingZero(dependents: seq<seq<nat>>, done: set<nat>, j: nat, upto: nat)
    requires upto <= |dependents|
    ensures Remaining(dependents, done, j, upto) == 0
            <==> forall k: nat :: k < upto && k !in done ==> j !in dependents[k]
  {
    if upto > 0 {
      RemainingZero(dependents, done, j, upto - 1);
    }
  }

  lemma {:induction false} RemainingPlace(dependents: seq<seq<nat>>, done: set<nat>, j: nat, upto: nat, k: nat)
    requires upto <= |dependents| && k < |dependents| && k !in done
    ensures Remaining(dependents, done, j, upto)
            == Remaining(dependents, done + {k}, j, upto) + if k < upto then multiset(dependents[k])[j] else 0
  {
    if upto > 0 {
      RemainingPlace(dependents, done, j, upto - 1, k);
    }
  }

  lemma {:induction false} RemainingAppend(dependents: seq<seq<nat>>, j: nat, upto: nat, k: nat, x: nat)
    requires upto <= |dependents| && k < |dependents|
    ensures Remaining(dependents[k := dependents[k] + [x]], {}, j, upto)
            == Remaining(dependents, {}, j, upto) + if k < upto && j == x then 1 else 0
  {
    if upto > 0 {
      RemainingAppend(dependents, j, upto - 1, k, x);
    }
  }

  ghost predicate Ascending(s: seq<nat>) {
    |s| > 1 ==> s[0] <= s[1] && Ascending(s[1..])
  }

  lemma {:induction false} HeadIsLeast(s: seq<nat>)
    requires Ascending(s) && s != []
    ensures forall x :: x in s ==> s[0] <= x
  {
    if |s| > 1 {
      HeadIsLeast(s[1..]);
      assert s == [s[0]] + s[1..];
    }
  }

  function Insert(x: nat, s: seq<nat>): (r: seq<nat>)
    requires Ascending(s)
    ensures r != [] && r[0] == if s == [] || x <= s[0] then x else s[0]
    ensures Ascending(r)
    ensures multiset(r) == multiset(s) + multiset{x}
  {
    if s == [] || x <= s[0] then [x] + s
    else
      assert s == [s[0]] + s[1..];
      [s[0]] + Insert(x, s[1..])
  }

  /** `ready.sort(key=order.get)`. */
  function SortAscending(s: seq<nat>): (r: seq<nat>)
    ensures Ascending(r) && multiset(r) == multiset(s)
  {
    if s == [] then []
    else
      assert s == [s[0]] + s[1..];
      Insert(s[0], SortAscending(s[1..]))
  }

  /** The positions whose indegree is zero, in order. */
  function ZeroIndegree(indegree: seq<nat>): (r: seq<nat>)
    ensures forall j: nat :: multiset(r)[j] == if j < |indegree| && indegree[j] == 0 then 1 else 0
  {
    if indegree == [] then []
    else
      var n := |indegree| - 1;
      var rest := ZeroIndegree(indegree[..n]);
      if indegree[n] == 0 then rest + [n] else rest
  }

  /** The positions entry `i` depends on through the roles in `roles`. */
  ghost function Reached(dict: seq<Entry>, i: nat, roles: set<string>): set<nat>
    requires i < |dict| && roles <= dict[i].dependencies.Keys
  {
    set p | p in Below(|dict|) && p != i && exists r :: r in roles && dict[i].dependencies[r] == dict[p].name
  }

  lemma ReachedStep(dict: seq<Entry>, i: nat, roles: set<string>, role: string)
    requires UniqueNames(dict) && i < |dict| && roles <= dict[i].dependencies.Keys
    requires role in dict[i].dependencies
    ensures var p := IndexOf(dict, dict[i].dependencies[role]);
            Reached(dict, i, roles + {role})
            == Reached(dict, i, roles) + if p < |dict| && p != i then {p} else {}
  {
    hide Reached, IndexOf;
    var p := IndexOf(dict, dict[i].dependencies[role]);
    forall q: nat
      ensures q in Reached(dict, i, roles + {role}) <==> q in Reached(dict, i, roles) || (q == p && q < |dict| && q != i)
    {
      ReachedMeans(dict, i, roles, q);
      ReachedMeans(dict, i, roles + {role}, q);
      if q < |dict| && dict[i].dependencies[role] == dict[q].name {
        IndexOfUnique(dict, q);
      }
    }
  }

  lemma ReachedNone(dict: seq<Entry>, i: nat)
    requires i < |dict|
    ensures Reached(dict, i, {}) == {}
  {
  }

  lemma ReachedMeans(dict: seq<Entry>, i: nat, roles: set<string>, q: nat)
    requires i < |dict| && roles <= dict[i].dependencies.Keys
    ensures q in Reached(dict, i, roles)
            <==> q < |dict| && q != i && exists r :: r in roles && dict[i].dependencies[r] == dict[q].name
  {
  }

  /** The counting pass has handled the entries below `i`, and of entry `i` the edges to `reached`. */
  ghost predicate Counted(g: Graph, indegree: seq<nat>, dependents: seq<seq<nat>>, i: nat, reached: set<nat>) {
    && |indegree| == |dependents| == |g|
    && (forall k: nat, j: nat :: k < |g| ==> (j in dependents[k] <==> Seen(g, i, reached, k, j)))
    && (forall j: nat :: j < |g| ==> indegree[j] == Remaining(dependents, {}, j, |g|))
  }

  ghost predicate Seen(g: Graph, i: nat, reached: set<nat>, k: nat, j: nat) {
    j < |g| && if j == i then k in reached else j < i && k in g[j]
  }

  lemma CountedEdge(g: Graph, indegree: seq<nat>, dependents: seq<seq<nat>>, i: nat, reached: set<nat>, p: nat)
    requires Counted(g, indegree, dependents, i, reached) && i < |g| && p < |g|
    ensures Counted(g, indegree[i := indegree[i] + 1], dependents[p := dependents[p] + [i]], i, reached + {p})
  {
    var dependents' := dependents[p := dependents[p] + [i]];
    forall k: nat, j: nat | k < |g| ensures j in dependents'[k] <==> Seen(g, i, reached + {p}, k, j) {
      assert j in dependents'[k] <==> j in dependents[k] || (k == p && j == i);
    }
    forall j: nat | j < |g|
      ensures Remaining(dependents', {}, j, |g|) == Remaining(dependents, {}, j, |g|) + if j == i then 1 else 0
    {
      RemainingAppend(dependents, j, |g|, p, i);
    }
  }

  lemma CountedEntry(dict: seq<Entry>, indegree: seq<nat>, dependents: seq<seq<nat>>, i: nat)
    requires i < |dict|
    requires Counted(DepGraph(dict), indegree, dependents, i, Reached(dict, i, dict[i].dependencies.Keys))
    ensures Counted(DepGraph(dict), indegree, dependents, i + 1, {})
  {
    var g := DepGraph(dict);
    assert Reached(dict, i, dict[i].dependencies.Keys) == g[i];
    assert forall k: nat, j: nat :: Seen(g, i, g[i], k, j) <==> Seen(g, i + 1, {}, k, j);
  }

  /** Counts the edges of one entry, whichever order its roles are visited in. */
  method CountEntry(dict: seq<Entry>, i: nat, indegree0: seq<nat>, dependents0: seq<seq<nat>>)
    returns (indegree: seq<nat>, dependents: seq<seq<nat>>)
    requires UniqueNames(dict) && i < |dict| && Counted(DepGraph(dict), indegree0, dependents0, i, {})
    ensures Counted(DepGraph(dict), indegree, dependents, i + 1, {})
  {
    hide *;
    indegree, dependents := indegree0, dependents0;
    var roles := dict[i].dependencies.Keys;
    ghost var seen: set<string> := {};
    ReachedNone(dict, i);
    while roles != {}
      invariant seen + roles == dict[i].dependencies.Keys
      invariant Counted(DepGraph(dict), indegree, dependents, i, Reached(dict, i, seen))
      decreases |roles|
    {
      var role :| role in roles;
      var p := IndexOf(dict, dict[i].dependencies[role]);
      ReachedStep(dict, i, seen, role);
      CountedBounds(DepGraph(dict), indegree, dependents, i, Reached(dict, i, seen));
      if p < |dict| && p != i {
        CountedEdge(DepGraph(dict), indegree, dependents, i, Reached(dict, i, seen), p);
        dependents := dependents[p := dependents[p] + [i]];
        indegree := indegree[i := indegree[i] + 1];
      } else {
        assert Reached(dict, i, seen) + {} == Reached(dict, i, seen);
      }
      roles, seen := roles - {role}, seen + {role};
    }
    assert seen == dict[i].dependencies.Keys;
    CountedEntry(dict, indegree, dependents, i);
  }

  lemma CountedBounds(g: Graph, indegree: seq<nat>, dependents: seq<seq<nat>>, i: nat, reached: set<nat>)
    requires Counted(g, indegree, dependents, i, reached)
    ensures |indegree| == |dependents| == |g|
  {
  }

  /** The edge-counting pass over every entry's dependency values. */
  method CountEdges(dict: seq<Entry>) returns (indegree: seq<nat>, dependents: seq<seq<nat>>)
    requires UniqueNames(dict)
    ensures Counted(DepGraph(dict), indegree, dependents, |dict|, {})
  {
    indegree := seq(|dict|, _ => 0);
    dependents := seq(|dict|, _ => []);
    forall j: nat ensures Remaining(dependents, {}, j, |dict|) == 0 {
      RemainingZero(dependents, {}, j, |dict|);
    }
    for i := 0 to |dict|
      invariant Counted(DepGraph(dict), indegree, dependents, i, {})
    {
      indegree, dependents := CountEntry(dict, i, indegree, dependents);
    }
  }

  /** `dependents` lists, for every node, exactly the nodes that depend on it. */
  ghost predicate Inverts(dependents: seq<seq<nat>>, g: Graph) {
    && |dependents| == |g|
    && forall k: nat, j: nat :: k < |g| ==> (j in dependents[k] <==> j < |g| && k in g[j])
  }

  /** The state of the main loop: `done` is placed, `open` are the edges out of the node
      just placed that are still to be counted off, and `ready` is what may be placed next. */
  ghost predicate LoopState(
    g: Graph, dependents: seq<seq<nat>>, indegree: seq<nat>, ready: seq<nat>, done: set<nat>, open: seq<nat>)
  {
    && |indegree| == |dependents| == |g|
    && (forall j :: j in done ==> j < |g| && g[j] <= done)
    && (forall j :: j in open ==> j < |g| && j !in done)
    && (forall j: nat :: j < |g| ==> indegree[j] == Remaining(dependents, done, j, |g|) + multiset(open)[j])
    && (forall j: nat :: multiset(ready)[j] == if j < |g| && j !in done && indegree[j] == 0 then 1 else 0)
  }

  lemma ReadyMeans(
    g: Graph, dependents: seq<seq<nat>>, indegree: seq<nat>, ready: seq<nat>, done: set<nat>)
    requires WellFormed(g) && Inverts(dependents, g) && LoopState(g, dependents, indegree, ready, done, [])
    ensures Placed(ready) == Ready(g, done)
  {
    forall j: nat ensures j in ready <==> j in Ready(g, done) {
      assert j in ready <==> j in multiset(ready);
      if j < |g| {
        RemainingZero(dependents, done, j, |g|);
        assert Remaining(dependents, done, j, |g|) == 0 <==> g[j] <= done;
      }
    }
  }

  lemma PlaceStep(
    g: Graph, dependents: seq<seq<nat>>, indegree: seq<nat>, ready: seq<nat>, done: set<nat>, m: nat, rest: seq<nat>)
    requires WellFormed(g) && Inverts(dependents, g) && LoopState(g, dependents, indegree, ready, done, [])
    requires multiset(ready) == multiset(rest) + multiset{m}
    ensures LoopState(g, dependents, indegree, rest, done + {m}, dependents[m])
  {
    ReadyMeans(g, dependents, indegree, ready, done);
    assert m in multiset(ready) && m in ready;
    assert m in Ready(g, done) && m < |g| == |dependents|;
    forall j: nat | j < |g|
      ensures Remaining(dependents, done, j, |g|)
              == Remaining(dependents, done + {m}, j, |g|) + multiset(dependents[m])[j]
    {
      RemainingPlace(dependents, done, j, |g|, m);
    }
    forall j: nat | j in dependents[m] ensures j < |g| && j !in done + {m} {
      InvertsAt(dependents, g, m, j);
    }
  }

  lemma InvertsAt(dependents: seq<seq<nat>>, g: Graph, k: nat, j: nat)
    requires Inverts(dependents, g) && k < |g|
    ensures j in dependents[k] <==> j < |g| && k in g[j]
  {
  }

  lemma CountOff(
    g: Graph, dependents: seq<seq<nat>>, indegree: seq<nat>, ready: seq<nat>, done: set<nat>, open: seq<nat>)
    requires LoopState(g, dependents, indegree, ready, done, open) && open != []
    ensures var d := open[0];
            && d < |indegree| && indegree[d] > 0
            && var ready' := if indegree[d] == 1 then ready + [d] else ready;
               LoopState(g, dependents, indegree[d := indegree[d] - 1], ready', done, open[1..])
  {
    assert open == [open[0]] + open[1..];
    assert open[0] in open && open[0] in multiset(open);
    assert multiset(open) == multiset{open[0]} + multiset(open[1..]);
    forall j: nat | j in open[1..] ensures j in open {}
  }

  /** Counts the edges of a just-placed node off, appending each dependent that becomes ready. */
  method CountOffDependents(
    ghost g: Graph, dependents: seq<seq<nat>>, ghost done: set<nat>, m: nat, indegree0: seq<nat>, ready0: seq<nat>)
    returns (indegree: seq<nat>, ready: seq<nat>)
    requires m < |dependents| && LoopState(g, dependents, indegree0, ready0, done, dependents[m])
    ensures LoopState(g, dependents, indegree, ready, done, [])
  {
    indegree, ready := indegree0, ready0;
    for i := 0 to |dependents[m]|
      invariant LoopState(g, dependents, indegree, ready, done, dependents[m][i..])
    {
      CountOff(g, dependents, indegree, ready, done, dependents[m][i..]);
      var d := dependents[m][i];
      assert dependents[m][i..][1..] == dependents[m][i + 1..];
      indegree := indegree[d := indegree[d] - 1];
      if indegree[d] == 0 {
        ready := ready + [d];
      }
    }
  }

  lemma GreedyStep(g: Graph, ready: seq<nat>, done: set<nat>)
    requires Placed(ready) == Ready(g, done) && Ascending(ready) && ready != []
    ensures ready[0] in Nodes(g) - done
    ensures Greedy(g, done) == [ready[0]] + Greedy(g, done + {ready[0]})
  {
    hide Nodes, Ascending;
    HeadIsLeast(ready);
    assert ready[0] in Placed(ready);
    ReadyIs(g, done, ready[0]);
    NodesMeans(g, ready[0]);
    hide Ready;
    var m := Least(Ready(g, done));
    assert m in ready;
  }

  lemma InitialState(g: Graph, indegree: seq<nat>, dependents: seq<seq<nat>>, ready: seq<nat>)
    requires WellFormed(g) && Counted(g, indegree, dependents, |g|, {})
    requires multiset(ready) == multiset(ZeroIndegree(indegree))
    ensures Inverts(dependents, g) && LoopState(g, dependents, indegree, ready, {}, [])
  {
    assert forall k: nat, j: nat :: Seen(g, |g|, {}, k, j) <==> j < |g| && k in g[j];
  }

  /** Sorting the ready list and placing its head is one step of the greedy order. */
  lemma PlaceSorted(
    g: Graph, dependents: seq<seq<nat>>, indegree: seq<nat>, ready: seq<nat>, sortedReady: seq<nat>, done: set<nat>)
    requires WellFormed(g) && Inverts(dependents, g) && LoopState(g, dependents, indegree, ready, done, [])
    requires Ascending(sortedReady) && multiset(sortedReady) == multiset(ready) && ready != []
    ensures sortedReady != []
    ensures var m := sortedReady[0];
            && m < |g| == |dependents| && m in Nodes(g) - done
            && Greedy(g, done) == [m] + Greedy(g, done + {m})
            && LoopState(g, dependents, indegree, sortedReady[1..], done + {m}, dependents[m])
  {
    hide *;
    SameReady(g, dependents, indegree, ready, sortedReady, done);
    ReadyMeans(g, dependents, indegree, sortedReady, done);
    var m := sortedReady[0];
    assert sortedReady == [m] + sortedReady[1..];
    NodesMeans(g, m);
    GreedyStep(g, sortedReady, done);
    PlaceStep(g, dependents, indegree, sortedReady, done, m, sortedReady[1..]);
  }

  lemma SameReady(
    g: Graph, dependents: seq<seq<nat>>, indegree: seq<nat>, ready: seq<nat>, ready': seq<nat>, done: set<nat>)
    requires LoopState(g, dependents, indegree, ready, done, []) && multiset(ready') == multiset(ready) && ready != []
    ensures LoopState(g, dependents, indegree, ready', done, []) && ready' != [] && |dependents| == |g|
  {
    assert ready[0] in multiset(ready);
  }

  lemma NothingReady(g: Graph, dependents: seq<seq<nat>>, indegree: seq<nat>, done: set<nat>)
    requires WellFormed(g) && Inverts(dependents, g) && LoopState(g, dependents, indegree, [], done, [])
    ensures Greedy(g, done) == []
  {
    ReadyMeans(g, dependents, indegree, [], done);
  }

  /** The main loop: place the earliest ready node until none is left. */
  method PlaceReady(ghost g: Graph, dependents: seq<seq<nat>>, indegree0: seq<nat>, ready0: seq<nat>)
    returns (placed: seq<nat>)
    requires WellFormed(g) && Inverts(dependents, g)
    requires LoopState(g, dependents, indegree0, ready0, {}, [])
    ensures placed == Greedy(g, {})
  {
    hide *;
    var indegree, ready := indegree0, ready0;
    ghost var done: set<nat> := {};
    ghost var todo := Greedy(g, {});
    placed := [];
    while ready != []
      invariant LoopState(g, dependents, indegree, ready, done, [])
      invariant todo == Greedy(g, done) && placed + todo == Greedy(g, {})
      decreases Nodes(g) - done
    {
      var sortedReady := SortAscending(ready);
      PlaceSorted(g, dependents, indegree, ready, sortedReady, done);
      var m := sortedReady[0];
      done, placed, todo := done + {m}, placed + [m], todo[1..];
      indegree, ready := CountOffDependents(g, dependents, done, m, indegree, sortedReady[1..]);
    }
    NothingReady(g, dependents, indegree, done);
  }

  /** Kahn's algorithm, always taking the earliest ready entry; on a cycle, the input. */
  method TopoSort(bom: seq<Entry>) returns (sorted: seq<Entry>)
    ensures sorted == TopoSorted(bom)
  {
    var dict := ByName(bom);
    var indegree, dependents := CountEdges(dict);
    var ready := SortAscending(ZeroIndegree(indegree));
    InitialState(DepGraph(dict), indegree, dependents, ready);
    var placed := PlaceReady(DepGraph(dict), dependents, indegree, ready);
    if |placed| != |dict| {
      return bom;
    }
    sorted := seq(|placed|, k requires 0 <= k < |placed| => dict[placed[k]]);
  }
}
