/** The drift snapshot and the reconcile plan.

    Source: `env_reconcile.py`. The snapshot file, the deployment graph's answer and the
    cluster's release list are read as facts; each can be missing or unreadable, and each
    "unknown" has its own meaning here. */
module Reconcile {
  import opened Bom
  import opened ChangeSet
  import opened Common

  const DEPLOYED := "DEPLOYED"
  const DB_OWNER_INSTANCE := "local-databases"

  type StatusMap = map<string, Option<string>>

  /** Instances the CLI owns: the core BOM and the dev-database owner. */
  ghost function Protected(): set<string> {
    Names(LOCAL_CORE_BOM) + {CORE_INSTANCE_NAME, DB_OWNER_INSTANCE}
  }

  // ---------------------------------------------------------------------------
  // The snapshot
  // ---------------------------------------------------------------------------

  datatype Record = Record(name: string, className: string, version: string, hash: Digest, release: Option<string>)

  datatype File = Missing | Unreadable | Snapshot(records: seq<Record>)

  function SnapshotEntry(e: Entry, hash: Digest, release: Option<string>): Record {
    Record(e.name, e.className, e.version, hash, release)
  }

  function HashesOf(records: seq<Record>): map<string, Digest> {
    if records == [] then map[]
    else
      var r := records[|records| - 1];
      var rest := HashesOf(records[..|records| - 1]);
      if r.name == "" then rest else rest[r.name := r.hash]
  }

  function ReleasesOf(records: seq<Record>): map<string, string> {
    if records == [] then map[]
    else
      var r := records[|records| - 1];
      var rest := ReleasesOf(records[..|records| - 1]);
      if r.name == "" || r.release.None? then rest else rest[r.name := r.release.value]
  }

  /** No snapshot, or one that cannot be read, is no drift information. */
  function LoadSnapshot(f: File): map<string, Digest> {
    if f.Snapshot? then HashesOf(f.records) else map[]
  }

  function LoadReleaseMap(f: File): map<string, string> {
    if f.Snapshot? then ReleasesOf(f.records) else map[]
  }

  function Get<T>(m: map<string, T>, name: string): Option<T> {
    if name in m then Some(m[name]) else None
  }

  /** What `merge_snapshot` writes: this run's digest for what was applied, the recorded one
      for the rest of the definition, nothing for what has neither. */
  function MergedRecords(
    f: File, definition: seq<Entry>, applied: set<string>, releases: map<string, string>): seq<Record>
  {
    if definition == [] then []
    else
      var e := definition[|definition| - 1];
      var rest := MergedRecords(f, definition[..|definition| - 1], applied, releases);
      if e.name in applied then rest + [SnapshotEntry(e, EntryHash(e), Get(releases, e.name))]
      else if e.name in LoadSnapshot(f)
      then rest + [SnapshotEntry(e, LoadSnapshot(f)[e.name], Get(LoadReleaseMap(f), e.name))]
      else rest
  }

  /** What `write_snapshot` writes: the whole definition as applied. */
  function WrittenRecords(definition: seq<Entry>, releases: map<string, string>): seq<Record> {
    seq(|definition|, i requires 0 <= i < |definition| =>
      SnapshotEntry(definition[i], EntryHash(definition[i]), Get(releases, definition[i].name)))
  }

  /** The file after `merge_snapshot`; an empty apply writes nothing, and a write that fails
      leaves the file as it was. */
  function AfterMerge(
    f: File, definition: seq<Entry>, applied: set<string>, releases: map<string, string>, writable: bool): File
  {
    if applied == {} || !writable then f else Snapshot(MergedRecords(f, definition, applied, releases))
  }

  function AfterWrite(f: File, definition: seq<Entry>, releases: map<string, string>, writable: bool): File {
    if writable then Snapshot(WrittenRecords(definition, releases)) else f
  }

  lemma MergedStep(
    f: File, definition: seq<Entry>, applied: set<string>, releases: map<string, string>, i: nat)
    requires i < |definition|
    ensures var e := definition[i];
            var rest := MergedRecords(f, definition[..i], applied, releases);
            MergedRecords(f, definition[..i + 1], applied, releases)
            == if e.name in applied then rest + [SnapshotEntry(e, EntryHash(e), Get(releases, e.name))]
               else if e.name in LoadSnapshot(f)
               then rest + [SnapshotEntry(e, LoadSnapshot(f)[e.name], Get(LoadReleaseMap(f), e.name))]
               else rest
  {
    assert definition[..i + 1][..i] == definition[..i];
  }

  /** The loop of `merge_snapshot`. */
  method MergeRecords(f: File, definition: seq<Entry>, applied: set<string>, releases: map<string, string>)
    returns (entries: seq<Record>)
    ensures entries == MergedRecords(f, definition, applied, releases)
  {
    var previous := LoadSnapshot(f);
    var previousReleases := LoadReleaseMap(f);
    entries := [];
    for i := 0 to |definition|
      invariant entries == MergedRecords(f, definition[..i], applied, releases)
    {
      hide MergedRecords, LoadSnapshot, LoadReleaseMap, SnapshotEntry, Get;
      var e := definition[i];
      MergedStep(f, definition, applied, releases, i);
      if e.name in applied {
        entries := entries + [SnapshotEntry(e, EntryHash(e), Get(releases, e.name))];
      } else if e.name in previous {
        entries := entries + [SnapshotEntry(e, previous[e.name], Get(previousReleases, e.name))];
      }
    }
    assert definition[..|definition|] == definition;
  }

  class SnapshotStore {
    var file: File

    constructor (file: File)
      ensures this.file == file
    {
      this.file := file;
    }

    method MergeSnapshot(
      definition: seq<Entry>, applied: seq<Entry>, releases: map<string, string>, writable: bool)
      modifies this
      ensures file == AfterMerge(old(file), definition, Names(applied), releases, writable)
    {
      if applied == [] {
        return;
      }
      assert applied[0].name in Names(applied);
      var entries := MergeRecords(file, definition, Names(applied), releases);
      if writable {
        file := Snapshot(entries);
      }
    }

    method WriteSnapshot(definition: seq<Entry>, releases: map<string, string>, writable: bool)
      modifies this
      ensures file == AfterWrite(old(file), definition, releases, writable)
    {
      if writable {
        file := Snapshot(WrittenRecords(definition, releases));
      }
    }
  }

  /** Reading a merged snapshot back, for any name: what the run applied has this run's digest
      and release, what it did not keeps what was recorded, the rest has neither. */
  lemma {:induction false} MergedReadsBack(
    f: File, definition: seq<Entry>, applied: set<string>, releases: map<string, string>, name: string)
    requires UniqueNames(definition) && name != ""
    ensures var p := IndexOf(definition, name);
            var records := MergedRecords(f, definition, applied, releases);
            && Get(HashesOf(records), name)
               == (if p == |definition| then None
                   else if name in applied then Some(EntryHash(definition[p]))
                   else Get(LoadSnapshot(f), name))
            && Get(ReleasesOf(records), name)
               == (if p == |definition| then None
                   else if name in applied then Get(releases, name)
                   else if name in LoadSnapshot(f) then Get(LoadReleaseMap(f), name)
                   else None)
  {
    if definition != [] {
      hide IndexOf, HashesOf, ReleasesOf, LoadSnapshot, LoadReleaseMap, EntryHash;
      var init, e := definition[..|definition| - 1], definition[|definition| - 1];
      assert definition == init + [e];
      MergedReadsBack(f, init, applied, releases, name);
      LastIndex(init, e, name);
      var records := MergedRecords(f, init, applied, releases);
      if e.name in applied {
        RecordsAppend(records, SnapshotEntry(e, EntryHash(e), Get(releases, e.name)), name);
      } else if e.name in LoadSnapshot(f) {
        RecordsAppend(records, SnapshotEntry(e, LoadSnapshot(f)[e.name], Get(LoadReleaseMap(f), e.name)), name);
      }
    }
  }

  lemma LastIndex(init: seq<Entry>, e: Entry, name: string)
    requires UniqueNames(init + [e])
    ensures IndexOf(init + [e], name) == if e.name == name then |init|
                                         else if IndexOf(init, name) < |init| then IndexOf(init, name) else |init| + 1
    ensures e.name == name ==> IndexOf(init, name) == |init|
  {
    var all := init + [e];
    IndexOfAppend(init, e, name);
    if IndexOf(init, e.name) < |init| {
      assert all[IndexOf(init, e.name)].name == all[|init|].name;
    }
  }

  lemma RecordsAppend(records: seq<Record>, r: Record, name: string)
    requires name != ""
    ensures Get(HashesOf(records + [r]), name) == if r.name == name then Some(r.hash) else Get(HashesOf(records), name)
    ensures Get(ReleasesOf(records + [r]), name)
            == if r.name == name && r.release.Some? then r.release else Get(ReleasesOf(records), name)
  {
    assert (records + [r])[..|records|] == records;
  }

  /** Writing is merging with the whole definition applied. */
  lemma {:induction false} WrittenIsMerged(
    f: File, definition: seq<Entry>, applied: set<string>, releases: map<string, string>)
    requires forall e :: e in definition ==> e.name in applied
    ensures WrittenRecords(definition, releases) == MergedRecords(f, definition, applied, releases)
  {
    hide *;
    if definition == [] {
      NothingRecorded(f, applied, releases);
    } else {
      var init, last := definition[..|definition| - 1], definition[|definition| - 1];
      assert definition == init + [last];
      WrittenIsMerged(f, init, applied, releases);
      MergedApplied(f, init, last, applied, releases);
      WrittenAppend(init, last, releases);
    }
  }

  lemma NothingRecorded(f: File, applied: set<string>, releases: map<string, string>)
    ensures WrittenRecords([], releases) == MergedRecords(f, [], applied, releases) == []
  {
  }

  lemma MergedApplied(
    f: File, init: seq<Entry>, last: Entry, applied: set<string>, releases: map<string, string>)
    requires last.name in applied
    ensures MergedRecords(f, init + [last], applied, releases)
            == MergedRecords(f, init, applied, releases) + [SnapshotEntry(last, EntryHash(last), Get(releases, last.name))]
  {
    hide EntryHash, Get, SnapshotEntry, LoadSnapshot, LoadReleaseMap;
    assert (init + [last])[..|init|] == init;
  }

  lemma WrittenAppend(init: seq<Entry>, last: Entry, releases: map<string, string>)
    ensures WrittenRecords(init + [last], releases)
            == WrittenRecords(init, releases) + [SnapshotEntry(last, EntryHash(last), Get(releases, last.name))]
  {
    hide EntryHash, Get, SnapshotEntry;
  }

  /** Every record in a merged snapshot describes an entry of the definition as it is declared
      now, also when its digest and release are the recorded ones. */
  lemma {:induction false} RecordsDescribe(
    f: File, definition: seq<Entry>, applied: set<string>, releases: map<string, string>, r: Record)
    requires r in MergedRecords(f, definition, applied, releases)
    ensures exists e :: e in definition && r.name == e.name && r.className == e.className && r.version == e.version
    ensures r.name in applied || (r.name in LoadSnapshot(f) && r.hash == LoadSnapshot(f)[r.name])
  {
    hide LoadSnapshot, LoadReleaseMap, EntryHash;
    var init, last := definition[..|definition| - 1], definition[|definition| - 1];
    assert definition == init + [last];
    if r in MergedRecords(f, init, applied, releases) {
      RecordsDescribe(f, init, applied, releases, r);
    }
  }

  /** Reading a written snapshot back: every entry of the definition counts as applied. */
  lemma WrittenReadsBack(definition: seq<Entry>, releases: map<string, string>, name: string)
    requires UniqueNames(definition) && name != ""
    ensures var p := IndexOf(definition, name);
            var records := WrittenRecords(definition, releases);
            && Get(HashesOf(records), name) == (if p == |definition| then None else Some(EntryHash(definition[p])))
            && Get(ReleasesOf(records), name) == (if p == |definition| then None else Get(releases, name))
  {
    WrittenIsMerged(Missing, definition, Names(definition), releases);
    MergedReadsBack(Missing, definition, Names(definition), releases, name);
    IndexOfName(definition, name);
  }

  // ---------------------------------------------------------------------------
  // Judging one entry
  // ---------------------------------------------------------------------------

  /** What a plan reads. `live` is `None` when the cluster could not be read. */
  datatype Facts = Facts(status: StatusMap, file: File, live: Option<set<string>>)

  predicate IsDeployed(status: StatusMap, name: string) {
    name in status && status[name] == Some(DEPLOYED)
  }

  /** An unreadable cluster misses nothing; only a recorded release can be missing. */
  function MissingReleases(expected: map<string, string>, live: Option<set<string>>): set<string> {
    if live.None? then {} else set name | name in expected && expected[name] !in live.value
  }

  datatype Verdict = ToAdd | ToChange | IsUnchanged

  function Judge(e: Entry, facts: Facts): Verdict {
    if !IsDeployed(facts.status, e.name) then ToAdd
    else if e.name in MissingReleases(LoadReleaseMap(facts.file), facts.live) then ToAdd
    else if e.name in LoadSnapshot(facts.file) && LoadSnapshot(facts.file)[e.name] != EntryHash(e) then ToChange
    else IsUnchanged
  }

  function Pick(desired: seq<Entry>, facts: Facts, v: Verdict): seq<Entry> {
    if desired == [] then []
    else
      var e := desired[|desired| - 1];
      var rest := Pick(desired[..|desired| - 1], facts, v);
      if Judge(e, facts) == v then rest + [e] else rest
  }

  // ---------------------------------------------------------------------------
  // Sorting names
  // ---------------------------------------------------------------------------

  ghost predicate Ascending(names: seq<string>) {
    forall i, j :: 0 <= i < j < |names| ==> StringLess(names[i], names[j])
  }

  /** `sorted(...)` over a collection of distinct names. */
  method SortNames(names: set<string>) returns (sorted: seq<string>)
    ensures Ascending(sorted)
    ensures forall n :: n in sorted <==> n in names
  {
    sorted := [];
    var rest := names;
    while rest != {}
      invariant Ascending(sorted)
      invariant rest <= names && forall n :: n in sorted <==> n in names - rest
      decreases |rest|
    {
      var n :| n in rest;
      sorted := InsertName(n, sorted);
      rest := rest - {n};
    }
  }

  method InsertName(n: string, names: seq<string>) returns (r: seq<string>)
    requires Ascending(names) && n !in names
    ensures Ascending(r)
    ensures forall x :: x in r <==> x == n || x in names
  {
    var k := 0;
    while k < |names| && StringLess(names[k], n)
      invariant k <= |names|
      invariant forall i :: 0 <= i < k ==> StringLess(names[i], n)
    {
      k := k + 1;
    }
    forall i | k <= i < |names| ensures StringLess(n, names[i]) {
      StringTrichotomy(names[k], n);
      if i > k {
        StringLessTransitive(n, names[k], names[i]);
      }
    }
    r := names[..k] + [n] + names[k..];
    forall x ensures x in r <==> x == n || x in names {
      assert names == names[..k] + names[k..];
    }
  }

  // ---------------------------------------------------------------------------
  // The plan
  // ---------------------------------------------------------------------------

  datatype Plan = Plan(
    add: seq<Entry>, change: seq<Entry>, remove: seq<string>, settled: seq<string>, desired: seq<Entry>, degraded: bool)
  {
    predicate IsEmpty() {
      add == [] && change == [] && remove == []
    }
  }

  ghost function NamesIn(entries: seq<Entry>): seq<string> {
    seq(|entries|, i requires 0 <= i < |entries| => entries[i].name)
  }

  /** Deployed, no longer declared, and not the CLI's own. */
  ghost function Removable(desired: seq<Entry>, status: StatusMap): set<string> {
    set name | name in status && status[name] == Some(DEPLOYED) && name !in Names(desired) && name !in Protected()
  }

  ghost predicate IsPlan(plan: Plan, desired: seq<Entry>, facts: Facts) {
    && plan.desired == desired && !plan.degraded
    && plan.add == Pick(desired, facts, ToAdd)
    && plan.change == Pick(desired, facts, ToChange)
    && plan.settled == NamesIn(Pick(desired, facts, IsUnchanged))
    && Ascending(plan.remove)
    && forall n :: n in plan.remove <==> n in Removable(desired, facts.status)
  }

  function ProtectedNames(): (names: set<string>)
    ensures names == Protected()
  {
    set e | e in LOCAL_CORE_BOM + [Entry("", DB_OWNER_INSTANCE, "", "", map[], map[])] :: e.name
  }

  lemma PickStep(desired: seq<Entry>, facts: Facts, v: Verdict, i: nat)
    requires i < |desired|
    ensures Pick(desired[..i + 1], facts, v)
            == if Judge(desired[i], facts) == v then Pick(desired[..i], facts, v) + [desired[i]]
               else Pick(desired[..i], facts, v)
  {
    assert desired[..i + 1][..i] == desired[..i];
  }

  lemma SettledStep(desired: seq<Entry>, facts: Facts, i: nat)
    requires i < |desired|
    ensures NamesIn(Pick(desired[..i + 1], facts, IsUnchanged))
            == if Judge(desired[i], facts) == IsUnchanged
               then NamesIn(Pick(desired[..i], facts, IsUnchanged)) + [desired[i].name]
               else NamesIn(Pick(desired[..i], facts, IsUnchanged))
    ensures Names(desired[..i + 1]) == Names(desired[..i]) + {desired[i].name}
  {
    PickStep(desired, facts, IsUnchanged, i);
    assert desired[..i + 1] == desired[..i] + [desired[i]];
  }

  lemma JudgeMeans(e: Entry, facts: Facts)
    ensures Judge(e, facts)
            == if e.name !in facts.status || facts.status[e.name] != Some(DEPLOYED) then ToAdd
               else if e.name in MissingReleases(LoadReleaseMap(facts.file), facts.live) then ToAdd
               else if e.name in LoadSnapshot(facts.file) && LoadSnapshot(facts.file)[e.name] != EntryHash(e)
               then ToChange else IsUnchanged
  {
  }

  /** The loop of `compute_plan`. */
  method SortOut(desired: seq<Entry>, facts: Facts)
    returns (add: seq<Entry>, change: seq<Entry>, settled: seq<string>, desiredNames: set<string>)
    ensures desiredNames == Names(desired)
    ensures add == Pick(desired, facts, ToAdd)
    ensures change == Pick(desired, facts, ToChange)
    ensures settled == NamesIn(Pick(desired, facts, IsUnchanged))
  {
    var snapshot := LoadSnapshot(facts.file);
    var missing := MissingReleases(LoadReleaseMap(facts.file), facts.live);
    add, change, settled, desiredNames := [], [], [], {};
    for i := 0 to |desired|
      invariant desiredNames == Names(desired[..i])
      invariant add == Pick(desired[..i], facts, ToAdd)
      invariant change == Pick(desired[..i], facts, ToChange)
      invariant settled == NamesIn(Pick(desired[..i], facts, IsUnchanged))
    {
      hide *;
      var e := desired[i];
      JudgeMeans(e, facts);
      PickStep(desired, facts, ToAdd, i);
      PickStep(desired, facts, ToChange, i);
      SettledStep(desired, facts, i);
      desiredNames := desiredNames + {e.name};
      if e.name !in facts.status || facts.status[e.name] != Some(DEPLOYED) {
        add := add + [e];
      } else if e.name in missing {
        add := add + [e];
      } else if e.name in snapshot && snapshot[e.name] != EntryHash(e) {
        change := change + [e];
      } else {
        settled := settled + [e.name];
      }
    }
    assert desired[..|desired|] == desired;
  }

  /** `compute_plan`. `status` is `None` when the deployment graph could not be queried. */
  method ComputePlan(desired: seq<Entry>, status: Option<StatusMap>, file: File, live: Option<set<string>>)
    returns (plan: Plan)
    ensures status.None? ==> plan == Plan([], [], [], [], desired, true)
    ensures status.Some? ==> IsPlan(plan, desired, Facts(status.value, file, live))
  {
    if status.None? {
      return Plan([], [], [], [], desired, true);
    }
    var add, change, settled, desiredNames := SortOut(desired, Facts(status.value, file, live));
    var gone := set n | n in status.value && status.value[n] == Some(DEPLOYED)
                        && n !in desiredNames && n !in ProtectedNames();
    var remove := SortNames(gone);
    plan := Plan(add, change, remove, settled, desired, false);
  }

  // ---------------------------------------------------------------------------
  // What a plan guarantees
  // ---------------------------------------------------------------------------

  lemma {:induction false} PickMembers(desired: seq<Entry>, facts: Facts, v: Verdict)
    ensures forall e :: e in Pick(desired, facts, v) <==> e in desired && Judge(e, facts) == v
  {
    if desired != [] {
      var init, last := desired[..|desired| - 1], desired[|desired| - 1];
      assert desired == init + [last];
      PickMembers(init, facts, v);
    }
  }

  /** `part` lists entries of `whole` in the order `whole` does. */
  ghost predicate InOrder(part: seq<Entry>, whole: seq<Entry>) {
    forall i, j :: 0 <= i < j < |part| ==> IndexOf(whole, part[i].name) < IndexOf(whole, part[j].name)
  }

  lemma {:induction false} PickInOrder(desired: seq<Entry>, facts: Facts, v: Verdict)
    requires UniqueNames(desired)
    ensures InOrder(Pick(desired, facts, v), desired) && UniqueNames(Pick(desired, facts, v))
  {
    if desired != [] {
      hide Judge, InOrder, UniqueNames;
      var init, last := desired[..|desired| - 1], desired[|desired| - 1];
      assert desired == init + [last];
      UniqueAppend(init, last);
      PickInOrder(init, facts, v);
      PickMembers(init, facts, v);
      InOrderAppend(Pick(init, facts, v), init, last);
      UniqueAppend(Pick(init, facts, v), last);
    }
  }

  /** An ordered part stays one when the whole gets longer, and when both get the same entry. */
  lemma InOrderAppend(part: seq<Entry>, init: seq<Entry>, last: Entry)
    requires InOrder(part, init) && UniqueNames(init + [last]) && forall e :: e in part ==> e in init
    ensures InOrder(part, init + [last]) && InOrder(part + [last], init + [last])
  {
    hide IndexOf, UniqueNames;
    var all := init + [last];
    forall i | 0 <= i < |part| ensures IndexOf(all, part[i].name) == IndexOf(init, part[i].name) < |init| {
      assert part[i] in init;
      IndexOfName(init, part[i].name);
      LastIndex(init, last, part[i].name);
    }
    LastIndex(init, last, last.name);
    assert forall i :: 0 <= i < |part| ==> (part + [last])[i] == part[i];
  }

  /** A plan that could be computed splits the desired entries, in their order, into
      additions, changes and settled ones, with nothing in two of them; it removes exactly the
      deployed instances that are neither declared nor the CLI's own. No snapshot means no
      changes, and an unreadable cluster demotes nothing. */
  lemma PlanPartition(plan: Plan, desired: seq<Entry>, facts: Facts)
    requires IsPlan(plan, desired, facts) && UniqueNames(desired)
    ensures InOrder(plan.add, desired) && InOrder(plan.change, desired)
    ensures forall e :: e in desired ==>
              (if e in plan.add then 1 else 0) + (if e in plan.change then 1 else 0)
              + (if e.name in plan.settled then 1 else 0) == 1
    ensures forall e :: e in plan.add || e in plan.change ==> e in desired
    ensures forall n :: n in plan.settled ==> n in Names(desired)
    ensures forall n :: n in plan.remove <==>
              && n in facts.status && facts.status[n] == Some("DEPLOYED") && n !in Names(desired)
              && n !in {"local-neuronsphere", "environment-db", "eks-cluster", "local-databases"}
    ensures !facts.file.Snapshot? ==> plan.change == []
    ensures facts.live.None? ==> forall e :: e in plan.add ==> !IsDeployed(facts.status, e.name)
  {
    hide Judge, Pick, Names, InOrder, IsDeployed, Protected, Ascending;
    PickInOrder(desired, facts, ToAdd);
    PickInOrder(desired, facts, ToChange);
    PickMembers(desired, facts, ToAdd);
    PickMembers(desired, facts, ToChange);
    SettledNames(desired, facts);
    RemovableMeans(desired, facts);
    if !facts.file.Snapshot? {
      forall e | e in desired ensures Judge(e, facts) != ToChange { NoSnapshotNoChange(e, facts); }
      NonePicked(desired, facts, ToChange);
    }
    if facts.live.None? {
      forall e | e in plan.add ensures !IsDeployed(facts.status, e.name) { UnreadableDemotesNothing(e, facts); }
    }
  }

  lemma RemovableMeans(desired: seq<Entry>, facts: Facts)
    ensures forall n :: n in Removable(desired, facts.status) <==>
              && n in facts.status && facts.status[n] == Some("DEPLOYED") && n !in Names(desired)
              && n !in {"local-neuronsphere", "environment-db", "eks-cluster", "local-databases"}
  {
    hide Names;
    ProtectedAre();
  }

  /** The instances the CLI owns. */
  lemma ProtectedAre()
    ensures Protected() == {"local-neuronsphere", "environment-db", "eks-cluster", "local-databases"}
  {
    var core := LOCAL_CORE_BOM;
    assert core[0] in core && core[1] in core && core[2] in core;
    assert forall e :: e in core ==> e == core[0] || e == core[1] || e == core[2];
  }

  lemma SettledNames(desired: seq<Entry>, facts: Facts)
    requires UniqueNames(desired)
    ensures forall e :: e in desired ==> (e.name in NamesIn(Pick(desired, facts, IsUnchanged)) <==> Judge(e, facts) == IsUnchanged)
    ensures forall n :: n in NamesIn(Pick(desired, facts, IsUnchanged)) ==> n in Names(desired)
  {
    hide Judge, Pick;
    var kept := Pick(desired, facts, IsUnchanged);
    PickMembers(desired, facts, IsUnchanged);
    forall e | e in desired ensures e.name in NamesIn(kept) <==> Judge(e, facts) == IsUnchanged {
      if e in kept {
        var i :| 0 <= i < |kept| && kept[i] == e;
        assert NamesIn(kept)[i] == e.name;
      }
      if e.name in NamesIn(kept) {
        var i :| 0 <= i < |kept| && kept[i].name == e.name;
        assert kept[i] in desired;
        SameName(desired, e, kept[i]);
      }
    }
    forall n | n in NamesIn(kept) ensures n in Names(desired) {
      var i :| 0 <= i < |kept| && kept[i].name == n;
      assert kept[i] in desired;
    }
  }

  /** No snapshot, or one that cannot be read, is no information of either kind. */
  lemma NoSnapshotNothingKnown(f: File)
    requires f == Missing || f == Unreadable
    ensures LoadSnapshot(f) == map[] && LoadReleaseMap(f) == map[]
  {
  }

  lemma NoSnapshotNoChange(e: Entry, facts: Facts)
    requires !facts.file.Snapshot?
    ensures Judge(e, facts) != ToChange
  {
  }

  lemma UnreadableDemotesNothing(e: Entry, facts: Facts)
    requires facts.live.None? && Judge(e, facts) == ToAdd
    ensures !IsDeployed(facts.status, e.name)
  {
  }

  lemma {:induction false} NonePicked(desired: seq<Entry>, facts: Facts, v: Verdict)
    requires forall e :: e in desired ==> Judge(e, facts) != v
    ensures Pick(desired, facts, v) == []
  {
    if desired != [] {
      hide Judge;
      NonePicked(desired[..|desired| - 1], facts, v);
      assert desired[|desired| - 1] in desired;
    }
  }

  lemma SameName(bom: seq<Entry>, a: Entry, b: Entry)
    requires UniqueNames(bom) && a in bom && b in bom && a.name == b.name
    ensures a == b
  {
    var i :| 0 <= i < |bom| && bom[i] == a;
    var j :| 0 <= j < |bom| && bom[j] == b;
  }

  lemma {:induction false} AscendingUnique(a: seq<string>, b: seq<string>)
    requires Ascending(a) && Ascending(b) && forall n :: n in a <==> n in b
    ensures a == b
  {
    assert (a != [] ==> a[0] in a) && (b != [] ==> b[0] in b);
    if a != [] && b != [] {
      assert a[0] in b && b[0] in a;
      var i :| 0 <= i < |b| && b[i] == a[0];
      var j :| 0 <= j < |a| && a[j] == b[0];
      StringLessAsymmetric(a[0], b[0]);
      assert a[0] == b[0];
      forall n ensures n in a[1..] <==> n in b[1..] {
        NotInTail(a, n);
        NotInTail(b, n);
      }
      AscendingUnique(a[1..], b[1..]);
    }
  }

  lemma NotInTail(a: seq<string>, n: string)
    requires Ascending(a) && a != []
    ensures n in a[1..] <==> n in a && n != a[0]
  {
    StringLessAsymmetric(a[0], a[0]);
    assert a == [a[0]] + a[1..];
    if n in a[1..] {
      var i :| 0 <= i < |a[1..]| && a[1..][i] == n;
      assert a[i + 1] == n && StringLess(a[0], n);
    }
  }

  lemma {:induction false} PickSameVerdicts(desired: seq<Entry>, facts: Facts, facts': Facts, v: Verdict)
    requires forall e :: e in desired ==> Judge(e, facts) == Judge(e, facts')
    ensures Pick(desired, facts, v) == Pick(desired, facts', v)
  {
    if desired != [] {
      PickSameVerdicts(desired[..|desired| - 1], facts, facts', v);
    }
  }

  /** A plan reads the graph only through which names are deployed. */
  lemma PlanReadsDeployed(plan: Plan, plan': Plan, desired: seq<Entry>, facts: Facts, status': StatusMap)
    requires IsPlan(plan, desired, facts) && IsPlan(plan', desired, facts.(status := status'))
    requires forall n :: IsDeployed(facts.status, n) <==> IsDeployed(status', n)
    ensures plan == plan'
  {
    var facts' := facts.(status := status');
    PickSameVerdicts(desired, facts, facts', ToAdd);
    PickSameVerdicts(desired, facts, facts', ToChange);
    PickSameVerdicts(desired, facts, facts', IsUnchanged);
    forall n ensures n in plan.remove <==> n in plan'.remove {
      assert IsDeployed(facts.status, n) <==> IsDeployed(status', n);
    }
    AscendingUnique(plan.remove, plan'.remove);
  }
}
