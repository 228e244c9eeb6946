/** The bill-of-materials entry every other module works on, and the two list
    operations the desired-state compiler applies before it sorts.

    Source: `bom_seeder.py`, `change_set_builder.py`. */
module Bom {

  /** One change_set entry. `dependencies` maps a role to the instance that fills it.
      A missing `repo_instance_name` is the empty name: the source only ever asks
      whether the name is truthy. */
  datatype Entry = Entry(
    deploymentId: string,
    name: string,
    className: string,
    version: string,
    config: map<string, string>,
    dependencies: map<string, string>)

  const CORE_INSTANCE_NAME := "local-neuronsphere"
  const CORE_REPO_CLASS := "hmd-cli-neuronsphere"
  const ENV_DB_INSTANCE := "environment-db"
  const EKS_CLUSTER_INSTANCE := "eks-cluster"
  const GRAPH_INSTANCE := "global-graph"
  const CONTROL_PLANE_ACCOUNT_ID := "000000000000"

  function Names(bom: seq<Entry>): set<string> {
    set e | e in bom :: e.name
  }

  ghost predicate UniqueNames(bom: seq<Entry>) {
    forall i, j :: 0 <= i < j < |bom| ==> bom[i].name != bom[j].name
  }

  ghost predicate AllNamed(bom: seq<Entry>) {
    forall i :: 0 <= i < |bom| ==> bom[i].name != ""
  }

  lemma UniqueAppend(init: seq<Entry>, last: Entry)
    ensures UniqueNames(init + [last]) <==> UniqueNames(init) && forall e :: e in init ==> e.name != last.name
  {
    var bom := init + [last];
    assert forall i :: 0 <= i < |init| ==> bom[i] == init[i];
    if UniqueNames(bom) {
      forall e | e in init ensures e.name != last.name {
        var i :| 0 <= i < |init| && init[i] == e;
        assert bom[i].name != bom[|init|].name;
      }
    }
  }

  /** The position of the entry called `name`, or `|bom|` when there is none. */
  function IndexOf(bom: seq<Entry>, name: string): (p: nat)
    ensures p <= |bom|
    ensures p < |bom| ==> bom[p].name == name
    ensures forall i :: 0 <= i < p ==> bom[i].name != name
  {
    if bom == [] then 0
    else if bom[0].name == name then 0
    else 1 + IndexOf(bom[1..], name)
  }

  lemma IndexOfUnique(bom: seq<Entry>, i: nat)
    requires UniqueNames(bom) && i < |bom|
    ensures IndexOf(bom, bom[i].name) == i
  {
    var p := IndexOf(bom, bom[i].name);
    assert p <= i;
  }

  lemma IndexOfName(bom: seq<Entry>, name: string)
    ensures IndexOf(bom, name) < |bom| <==> name in Names(bom)
  {
    var p := IndexOf(bom, name);
    if p < |bom| {
      assert bom[p] in bom;
    } else {
      forall e | e in bom ensures e.name != name {
        var i :| 0 <= i < |bom| && bom[i] == e;
      }
    }
  }

  lemma {:induction false} IndexOfAppend(bom: seq<Entry>, last: Entry, name: string)
    ensures IndexOf(bom + [last], name)
            == if IndexOf(bom, name) < |bom| then IndexOf(bom, name)
               else if last.name == name then |bom| else |bom| + 1
  {
    if bom != [] {
      IndexOfAppend(bom[1..], last, name);
      assert (bom + [last])[1..] == bom[1..] + [last];
    }
  }
}
