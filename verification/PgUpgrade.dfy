/** Migrating the data volumes of emulated RDS instances to a new PostgreSQL major version.

    Source: `pg_upgrade.py`. Docker is the map of volumes; each command of a migration
    succeeds, fails or raises as an oracle says, and a command that does not succeed leaves in
    the volume it was writing whatever the oracle says. */
module PgUpgrade {
  import opened Common

  /** What `PG_VERSION` holds: digits and dots, never a dash. */
  type Major = s: string | '-' !in s witness "14"

  /** A whole cluster is its major version and the SQL `pg_dumpall` writes for it; a torn one
      is part of a data directory, with or without its `PG_VERSION`. */
  datatype Content = Empty | Cluster(major: Major, sql: string) | Torn(version: Option<Major>)

  type Volumes = map<string, Content>

  function At(volumes: Volumes, name: string): Content {
    if name in volumes then volumes[name] else Empty
  }

  function VersionOf(c: Content): Option<Major> {
    match c
    case Empty => None
    case Cluster(major, _) => Some(major)
    case Torn(version) => version
  }

  // ---------------------------------------------------------------------------
  // Volume names
  // ---------------------------------------------------------------------------

  const RDS_VOLUME_PREFIX := "floci-rds-"
  const BACKUP_VOLUME_PREFIX := "hmd-pgbackup-"

  predicate IsRdsVolume(name: string) {
    RDS_VOLUME_PREFIX <= name
  }

  function BackupVolumeName(volume: string, major: Major): string {
    BACKUP_VOLUME_PREFIX + volume + "-pg" + major
  }

  /** A backup is never taken for an instance's volume, and two backups share a name only when
      volume and major version are the same. */
  lemma BackupNames(v: string, m: Major, w: string, n: Major)
    ensures !IsRdsVolume(BackupVolumeName(v, m))
    ensures BackupVolumeName(v, m) == BackupVolumeName(w, n) ==> v == w && m == n
  {
    var a, b := BackupVolumeName(v, m), BackupVolumeName(w, n);
    assert a[0] == 'h' && RDS_VOLUME_PREFIX[0] == 'f';
    if a == b {
      var p, q := |a| - |m| - 3, |b| - |n| - 3;
      assert a[p] == '-' && a[p + 1] == 'p' && a[p + 2] == 'g' && a[p + 3..] == m;
      assert b[q] == '-' && b[q + 1] == 'p' && b[q + 2] == 'g' && b[q + 3..] == n;
      assert forall i :: p + 3 <= i < |a| ==> a[i] == m[i - p - 3];
      assert forall i :: q + 3 <= i < |b| ==> b[i] == n[i - q - 3];
      assert p == q;
      assert a[|BACKUP_VOLUME_PREFIX|..p] == v && b[|BACKUP_VOLUME_PREFIX|..q] == w;
    }
  }

  // ---------------------------------------------------------------------------
  // One volume
  // ---------------------------------------------------------------------------

  datatype Mismatch = Mismatch(volume: string, found: Major, expected: Major)

  datatype Outcome = Ok | Failed | Raised

  /** How each command of one migration goes. `copyLeft` and `wipeLeft` are what a copy or a
      wipe that did not succeed leaves behind, `newLeft` what the new image has made of the
      wiped volume when its start, its readiness or its restore does not succeed, and
      `salvaged` what dumping a torn cluster yields. A restore that returns has restored the
      whole dump or not; its exit code does not tell, as it carries on after errors. */
  datatype Attempt = Attempt(
    create: Outcome, copy: Outcome, copyLeft: Content,
    startOld: Outcome, readyOld: Outcome, dump: Outcome, salvaged: string,
    wipe: Outcome, wipeLeft: Content,
    startNew: Outcome, readyNew: Outcome, restore: Outcome, restoredAll: bool, newLeft: Content)

  datatype Result = Returned(ok: bool) | Threw

  function Stopped(o: Outcome): Result
    requires !o.Ok?
  {
    if o.Failed? then Returned(false) else Threw
  }

  /** `cp -a /from/. /to/`: copying nothing changes nothing. */
  function Overlaid(from: Content, to: Content): Content {
    if from.Empty? then to else from
  }

  function DumpOf(c: Content, salvaged: string): string {
    if c.Cluster? then c.sql else salvaged
  }

  /** `upgrade_volume`: the volumes afterwards, and what the call returned or that it raised. */
  function Upgraded(volumes: Volumes, m: Mismatch, a: Attempt): (Volumes, Result) {
    var backup := BackupVolumeName(m.volume, m.found);
    if !a.create.Ok? then (volumes, Stopped(a.create))
    else if !a.copy.Ok? then (volumes[backup := a.copyLeft], Stopped(a.copy))
    else Migrated(volumes[backup := Overlaid(At(volumes, m.volume), At(volumes, backup))], m, a)
  }

  /** From a finished backup on. */
  function Migrated(volumes: Volumes, m: Mismatch, a: Attempt): (Volumes, Result) {
    if !a.startOld.Ok? then (volumes, Stopped(a.startOld))
    else if !a.readyOld.Ok? then (volumes, Stopped(a.readyOld))
    else if !a.dump.Ok? then (volumes, Stopped(a.dump))
    else if !a.wipe.Ok? then (volumes[m.volume := a.wipeLeft], Stopped(a.wipe))
    else if !a.startNew.Ok? then (volumes[m.volume := a.newLeft], Stopped(a.startNew))
    else if !a.readyNew.Ok? then (volumes[m.volume := a.newLeft], Stopped(a.readyNew))
    else if a.restore.Raised? then (volumes[m.volume := a.newLeft], Threw)
    else if !a.restoredAll then (volumes[m.volume := a.newLeft], Returned(true))
    else (volumes[m.volume := Cluster(m.expected, DumpOf(At(volumes, m.volume), a.salvaged))], Returned(true))
  }

  /** What the commands can do: a wipe only removes files, so what it leaves is the whole
      cluster or a part of it; and the new image writes its own version or none yet. */
  ghost predicate Physical(volumes: Volumes, m: Mismatch, a: Attempt) {
    && (a.wipeLeft == At(volumes, m.volume)
        || a.wipeLeft == Empty || a.wipeLeft == Torn(None) || a.wipeLeft == Torn(Some(m.found)))
    && VersionOf(a.newLeft) in {None, Some(m.expected)}
    && (!a.restore.Raised? && !a.restoredAll ==> a.newLeft.Cluster?)
  }

  /** Every step up to and including the dump of the old cluster succeeds. */
  predicate DumpTaken(a: Attempt) {
    a.create.Ok? && a.copy.Ok? && a.startOld.Ok? && a.readyOld.Ok? && a.dump.Ok?
  }

  /** Whichever step fails, the cluster the volume held at entry is still in the volume or in
      the backup: the volume is not touched before its dump is taken, and once the copy
      succeeded the cluster is in the backup. The call returns true exactly when every step
      before the restore succeeds and the restore returns, complete or not; it then leaves the
      new image's cluster, with the same data if the restore was complete. */
  lemma DataSurvives(volumes: Volumes, m: Mismatch, a: Attempt)
    requires IsRdsVolume(m.volume) && At(volumes, m.volume).Cluster? && Physical(volumes, m, a)
    requires m.volume in volumes
    ensures var backup := BackupVolumeName(m.volume, m.found);
            var (after, r) := Upgraded(volumes, m, a);
            && (At(after, m.volume) == volumes[m.volume] || At(after, backup) == volumes[m.volume])
            && (a.create.Ok? && a.copy.Ok? ==> At(after, backup) == volumes[m.volume])
            && (!DumpTaken(a) ==> At(after, m.volume) == volumes[m.volume])
            && (r == Returned(true)
                <==> DumpTaken(a) && a.wipe.Ok? && a.startNew.Ok? && a.readyNew.Ok? && !a.restore.Raised?)
            && (r == Returned(true) ==> VersionOf(At(after, m.volume)) == Some(m.expected) && At(after, m.volume).Cluster?)
            && (r == Returned(true) && a.restoredAll ==>
                  At(after, m.volume) == Cluster(m.expected, volumes[m.volume].sql))
  {
    BackupNames(m.volume, m.found, m.volume, m.found);
  }

  /** The commands of a migration in order, a restore that returns counting as done. */
  function CommandsOf(a: Attempt): seq<Outcome> {
    [a.create, a.copy, a.startOld, a.readyOld, a.dump, a.wipe, a.startNew, a.readyNew,
     if a.restore.Raised? then Raised else Ok]
  }

  /** The first command from the `k`th on that does not succeed decides the answer. */
  ghost function AnswerFrom(commands: seq<Outcome>, k: nat): Result
    requires k <= |commands|
    decreases |commands| - k
  {
    if k == |commands| then Returned(true)
    else if commands[k].Raised? then Threw
    else if commands[k].Failed? then Returned(false)
    else AnswerFrom(commands, k + 1)
  }

  lemma AnswerStep(commands: seq<Outcome>, k: nat)
    requires k < |commands|
    ensures AnswerFrom(commands, k) == if commands[k].Ok? then AnswerFrom(commands, k + 1) else Stopped(commands[k])
    ensures AnswerFrom(commands, |commands|) == Returned(true)
  {
  }

  /** A migration raises exactly when the first command that does not succeed raises, returns
      false when that one fails, and true when there is none, on whatever volume. */
  lemma AnswerMeans(volumes: Volumes, m: Mismatch, a: Attempt)
    ensures Upgraded(volumes, m, a).1 == AnswerFrom(CommandsOf(a), 0)
  {
    hide AnswerFrom, Stopped, Migrated;
    var cs := CommandsOf(a);
    AnswerStep(cs, 0);
    AnswerStep(cs, 1);
    var backup := BackupVolumeName(m.volume, m.found);
    MigratedAnswer(volumes[backup := Overlaid(At(volumes, m.volume), At(volumes, backup))], m, a);
  }

  lemma MigratedAnswer(volumes: Volumes, m: Mismatch, a: Attempt)
    ensures Migrated(volumes, m, a).1 == AnswerFrom(CommandsOf(a), 2)
  {
    hide AnswerFrom, At, DumpOf;
    var cs := CommandsOf(a);
    AnswerStep(cs, 2);
    AnswerStep(cs, 3);
    AnswerStep(cs, 4);
    AnswerStep(cs, 5);
    AnswerStep(cs, 6);
    AnswerStep(cs, 7);
    AnswerStep(cs, 8);
  }

  lemma OthersUntouched(volumes: Volumes, m: Mismatch, a: Attempt, name: string)
    requires name != m.volume && name != BackupVolumeName(m.volume, m.found)
    ensures At(Upgraded(volumes, m, a).0, name) == At(volumes, name)
  {
  }

  // ---------------------------------------------------------------------------
  // All volumes
  // ---------------------------------------------------------------------------

  /** What one run sees: the new image's major version if its image is present, the volumes
      docker lists, those a recorded instance mounts, those whose version can be read, and how
      each migration goes. */
  datatype Run = Run(expected: Option<Major>, listed: seq<string>, live: set<string>, readable: set<string>,
                     attempts: string -> Attempt)

  predicate Mismatched(volumes: Volumes, run: Run, name: string)
    requires run.expected.Some?
  {
    && IsRdsVolume(name) && name in run.live && name in run.readable
    && VersionOf(At(volumes, name)) != None && VersionOf(At(volumes, name)) != run.expected
  }

  /** `find_mismatches`, in the order docker lists the volumes. */
  function Mismatches(volumes: Volumes, run: Run, listed: seq<string>): (ms: seq<Mismatch>)
    requires run.expected.Some?
    decreases |listed|
  {
    if listed == [] then []
    else
      var name := listed[|listed| - 1];
      Mismatches(volumes, run, listed[..|listed| - 1])
      + if Mismatched(volumes, run, name)
        then [Mismatch(name, VersionOf(At(volumes, name)).value, run.expected.value)] else []
  }

  function Found(volumes: Volumes, run: Run): seq<Mismatch> {
    if run.expected.None? then [] else Mismatches(volumes, run, run.listed)
  }

  datatype Total = Count(n: nat) | Aborted

  /** The loop of `upgrade_all`: a migration that raises ends it. */
  function AllUpgraded(volumes: Volumes, ms: seq<Mismatch>, attempts: string -> Attempt): (Volumes, Total)
    decreases |ms|
  {
    if ms == [] then (volumes, Count(0))
    else
      var (next, r) := Upgraded(volumes, ms[0], attempts(ms[0].volume));
      if r.Threw? then (next, Aborted)
      else
        var (after, total) := AllUpgraded(next, ms[1..], attempts);
        (after, if total.Aborted? then Aborted else Count(total.n + if r.ok then 1 else 0))
  }

  function AfterUpgradeAll(volumes: Volumes, run: Run): Volumes {
    AllUpgraded(volumes, Found(volumes, run), run.attempts).0
  }

  class Docker {
    var volumes: Volumes

    constructor (volumes: Volumes)
      ensures this.volumes == volumes
    {
      this.volumes := volumes;
    }

    method UpgradeVolume(m: Mismatch, a: Attempt) returns (r: Result)
      modifies this
      ensures (volumes, r) == Upgraded(old(volumes), m, a)
    {
      var backup := BackupVolumeName(m.volume, m.found);
      if !a.create.Ok? {
        return Stopped(a.create);
      }
      if !a.copy.Ok? {
        volumes := volumes[backup := a.copyLeft];
        return Stopped(a.copy);
      }
      volumes := volumes[backup := Overlaid(At(volumes, m.volume), At(volumes, backup))];
      if !a.startOld.Ok? {
        return Stopped(a.startOld);
      }
      if !a.readyOld.Ok? {
        return Stopped(a.readyOld);
      }
      if !a.dump.Ok? {
        return Stopped(a.dump);
      }
      var dumpSql := DumpOf(At(volumes, m.volume), a.salvaged);
      ghost var backed := volumes;
      volumes := volumes[m.volume := if a.wipe.Ok? then Empty else a.wipeLeft];
      if !a.wipe.Ok? {
        return Stopped(a.wipe);
      }
      volumes := volumes[m.volume := a.newLeft];
      assert volumes == backed[m.volume := a.newLeft];
      if !a.startNew.Ok? {
        return Stopped(a.startNew);
      }
      if !a.readyNew.Ok? {
        return Stopped(a.readyNew);
      }
      if a.restore.Raised? {
        return Threw;
      }
      if a.restoredAll {
        volumes := volumes[m.volume := Cluster(m.expected, dumpSql)];
        assert volumes == backed[m.volume := Cluster(m.expected, dumpSql)];
      }
      r := Returned(true);
    }

    method FindMismatches(run: Run) returns (ms: seq<Mismatch>)
      ensures ms == Found(volumes, run)
    {
      ms := [];
      if run.expected.None? {
        return;
      }
      var i := 0;
      while i < |run.listed|
        invariant 0 <= i <= |run.listed| && ms == Mismatches(volumes, run, run.listed[..i])
      {
        var name := run.listed[i];
        assert run.listed[..i + 1][..i] == run.listed[..i];
        if IsRdsVolume(name) && name in run.live {
          var found := if name in run.readable then VersionOf(At(volumes, name)) else None;
          if found.Some? && found != run.expected {
            ms := ms + [Mismatch(name, found.value, run.expected.value)];
          }
        }
        i := i + 1;
      }
      assert run.listed[..i] == run.listed;
    }

    method UpgradeAll(run: Run) returns (total: Total)
      modifies this
      ensures (volumes, total) == AllUpgraded(old(volumes), Found(old(volumes), run), run.attempts)
    {
      var ms := FindMismatches(run);
      var upgraded, i := 0, 0;
      while i < |ms|
        invariant 0 <= i <= |ms| && upgraded >= 0
        invariant var (whole, t) := AllUpgraded(old(volumes), ms, run.attempts);
                  var (rest, u) := AllUpgraded(volumes, ms[i..], run.attempts);
                  whole == rest && t == if u.Aborted? then Aborted else Count(upgraded + u.n)
      {
        hide AllUpgraded, Upgraded;
        AllUpgradedStep(volumes, ms, i, run.attempts);
        var r := UpgradeVolume(ms[i], run.attempts(ms[i].volume));
        if r.Threw? {
          return Aborted;
        }
        if r.ok {
          upgraded := upgraded + 1;
        }
        i := i + 1;
      }
      assert ms[i..] == [];
      total := Count(upgraded);
    }
  }

  lemma AllUpgradedStep(volumes: Volumes, ms: seq<Mismatch>, i: nat, attempts: string -> Attempt)
    requires i < |ms|
    ensures var (next, r) := Upgraded(volumes, ms[i], attempts(ms[i].volume));
            var (after, total) := AllUpgraded(next, ms[i + 1..], attempts);
            AllUpgraded(volumes, ms[i..], attempts)
            == if r.Threw? then (next, Aborted)
               else (after, if total.Aborted? then Aborted else Count(total.n + if r.ok then 1 else 0))
  {
    hide Upgraded;
    assert ms[i..][1..] == ms[i + 1..] && ms[i..][0] == ms[i];
  }

  // ---------------------------------------------------------------------------
  // Histories
  // ---------------------------------------------------------------------------

  /** A run of `upgrade_all`, or the emulator starting a volume's container from an image of
      version `major` (`sql` is what the cluster then holds). */
  datatype Event = Upgrade(run: Run) | Serve(volume: string, major: Major, sql: string)

  /** PostgreSQL initialises a directory without a version, serves its own version, and
      refuses any other, leaving it alone. */
  function Served(volumes: Volumes, name: string, major: Major, sql: string): Volumes {
    if VersionOf(At(volumes, name)) in {None, Some(major)} then volumes[name := Cluster(major, sql)] else volumes
  }

  function Step(volumes: Volumes, e: Event): Volumes {
    match e
    case Upgrade(run) => AfterUpgradeAll(volumes, run)
    case Serve(name, major, sql) => Served(volumes, name, major, sql)
  }

  function Steps(volumes: Volumes, es: seq<Event>): Volumes
    decreases |es|
  {
    if es == [] then volumes else Steps(Step(volumes, es[0]), es[1..])
  }

  ghost predicate Distinct(names: seq<string>) {
    forall i, j :: 0 <= i < j < |names| ==> names[i] != names[j]
  }

  /** The condition on one event under which `volume`'s data of version `major` stays safe: an
      image that migrates or serves it is of another version, and a wipe that fails takes `PG_VERSION` with it or does
      nothing. */
  ghost predicate Safe(volumes: Volumes, e: Event, volume: string, major: Major) {
    match e
    case Upgrade(run) =>
      && Distinct(run.listed) && run.expected != Some(major)
      && var a := run.attempts(volume);
         && (a.wipeLeft == At(volumes, volume) || VersionOf(a.wipeLeft) != Some(major))
         && (VersionOf(a.newLeft) == None || VersionOf(a.newLeft) == run.expected)
    case Serve(name, m, _) => IsRdsVolume(name) && (name == volume ==> m != major)
  }

  ghost predicate AllSafe(volumes: Volumes, es: seq<Event>, volume: string, major: Major)
    decreases |es|
  {
    es == [] || (Safe(volumes, es[0], volume, major) && AllSafe(Step(volumes, es[0]), es[1..], volume, major))
  }

  /** The data is where it was, or in the backup with nothing of its version left to be copied
      over it. */
  ghost predicate Kept(volumes: Volumes, volume: string, major: Major, sql: string) {
    || At(volumes, volume) == Cluster(major, sql)
    || (At(volumes, BackupVolumeName(volume, major)) == Cluster(major, sql) && VersionOf(At(volumes, volume)) != Some(major))
  }

  ghost predicate Reports(volumes: Volumes, run: Run, m: Mismatch)
    requires run.expected.Some?
  {
    && Mismatched(volumes, run, m.volume) && IsRdsVolume(m.volume)
    && VersionOf(At(volumes, m.volume)) == Some(m.found) && m.expected == run.expected.value
  }

  /** `ms` reports the mismatched volumes among those listed, each once and as it is. */
  ghost predicate ReportsAll(volumes: Volumes, run: Run, listed: seq<string>, ms: seq<Mismatch>)
    requires run.expected.Some?
  {
    && (forall m :: m in ms ==> m.volume in listed && Reports(volumes, run, m))
    && (forall j, k :: 0 <= j < k < |ms| ==> ms[j].volume != ms[k].volume)
    && (forall name :: name in listed && Mismatched(volumes, run, name) ==> exists m :: m in ms && m.volume == name)
  }

  lemma {:induction false} MismatchesMean(volumes: Volumes, run: Run, listed: seq<string>)
    requires run.expected.Some? && Distinct(listed)
    ensures ReportsAll(volumes, run, listed, Mismatches(volumes, run, listed))
    decreases |listed|
  {
    hide VersionOf, ReportsAll;
    var ms := Mismatches(volumes, run, listed);
    if listed == [] {
      assert ReportsAll(volumes, run, [], []) by { ReportsNone(volumes, run); }
    } else {
      var init, name := listed[..|listed| - 1], listed[|listed| - 1];
      assert listed == init + [name];
      assert name !in init;
      MismatchesMean(volumes, run, init);
      ReportsOneMore(volumes, run, init, name, Mismatches(volumes, run, init));
    }
  }

  lemma ReportsNone(volumes: Volumes, run: Run)
    requires run.expected.Some?
    ensures ReportsAll(volumes, run, [], [])
  {
  }

  lemma ReportsOneMore(volumes: Volumes, run: Run, init: seq<string>, name: string, ms: seq<Mismatch>)
    requires run.expected.Some? && ReportsAll(volumes, run, init, ms) && name !in init
    ensures ReportsAll(volumes, run, init + [name],
                       ms + if Mismatched(volumes, run, name)
                            then [Mismatch(name, VersionOf(At(volumes, name)).value, run.expected.value)] else [])
  {
    hide VersionOf;
    if Mismatched(volumes, run, name) {
      var last := Mismatch(name, VersionOf(At(volumes, name)).value, run.expected.value);
      assert Reports(volumes, run, last);
      var after := ms + [last];
      assert last in after;
      forall j, k | 0 <= j < k < |after| ensures after[j].volume != after[k].volume {
        assert after[j] in ms;
      }
      forall other | other in init + [name] && Mismatched(volumes, run, other) ensures exists m :: m in after && m.volume == other {
        if other != name {
          assert other in init;
          var m :| m in ms && m.volume == other;
          assert m in after;
        }
      }
    } else {
      assert ms + [] == ms;
    }
  }

  /** What `find_mismatches` reports of a listing that names each volume once. */
  lemma FoundMean(volumes: Volumes, run: Run)
    requires Distinct(run.listed)
    ensures if run.expected.Some? then ReportsAll(volumes, run, run.listed, Found(volumes, run)) else Found(volumes, run) == []
  {
    hide ReportsAll;
    if run.expected.Some? {
      MismatchesMean(volumes, run, run.listed);
    }
  }

  /** Migrations of other volumes touch neither this volume nor its backups. */
  lemma {:induction false} OtherMigrations(volumes: Volumes, ms: seq<Mismatch>, attempts: string -> Attempt, volume: string,
                                           major: Major)
    requires IsRdsVolume(volume) && forall m :: m in ms ==> m.volume != volume && IsRdsVolume(m.volume)
    ensures var after := AllUpgraded(volumes, ms, attempts).0;
            && At(after, volume) == At(volumes, volume)
            && At(after, BackupVolumeName(volume, major)) == At(volumes, BackupVolumeName(volume, major))
    decreases |ms|
  {
    hide Upgraded, BackupVolumeName;
    if ms != [] {
      var m := ms[0];
      BackupNames(m.volume, m.found, volume, major);
      BackupNames(volume, major, volume, major);
      OthersUntouched(volumes, m, attempts(m.volume), volume);
      OthersUntouched(volumes, m, attempts(m.volume), BackupVolumeName(volume, major));
      OtherMigrations(Upgraded(volumes, m, attempts(m.volume)).0, ms[1..], attempts, volume, major);
    }
  }

  /** One migration of the volume itself. */
  lemma OwnMigration(volumes: Volumes, m: Mismatch, a: Attempt, major: Major, sql: string)
    requires IsRdsVolume(m.volume) && Kept(volumes, m.volume, major, sql) && m.expected != major
    requires VersionOf(At(volumes, m.volume)) == Some(m.found)
    requires a.wipeLeft == At(volumes, m.volume) || VersionOf(a.wipeLeft) != Some(major)
    requires VersionOf(a.newLeft) in {None, Some(m.expected)}
    ensures Kept(Upgraded(volumes, m, a).0, m.volume, major, sql)
  {
    hide BackupVolumeName;
    BackupNames(m.volume, m.found, m.volume, major);
  }

  lemma {:induction false} MigrationsKeep(volumes: Volumes, ms: seq<Mismatch>, attempts: string -> Attempt, volume: string,
                                          major: Major, sql: string)
    requires IsRdsVolume(volume) && Kept(volumes, volume, major, sql)
    requires forall j, k :: 0 <= j < k < |ms| ==> ms[j].volume != ms[k].volume
    requires forall m :: m in ms ==> IsRdsVolume(m.volume) && m.expected != major
    requires forall m :: m in ms && m.volume == volume ==>
               && VersionOf(At(volumes, volume)) == Some(m.found)
               && VersionOf(attempts(volume).newLeft) in {None, Some(m.expected)}
    requires attempts(volume).wipeLeft == At(volumes, volume) || VersionOf(attempts(volume).wipeLeft) != Some(major)
    ensures Kept(AllUpgraded(volumes, ms, attempts).0, volume, major, sql)
    decreases |ms|
  {
    hide Upgraded, BackupVolumeName;
    if ms != [] {
      var m := ms[0];
      var next := Upgraded(volumes, m, attempts(m.volume)).0;
      if m.volume == volume {
        OwnMigration(volumes, m, attempts(volume), major, sql);
        forall other | other in ms[1..] ensures other.volume != volume {
          var k :| 0 <= k < |ms[1..]| && ms[1..][k] == other;
          assert ms[k + 1] == other;
        }
        OtherMigrations(next, ms[1..], attempts, volume, major);
      } else {
        BackupNames(m.volume, m.found, volume, major);
        BackupNames(volume, major, volume, major);
        OthersUntouched(volumes, m, attempts(m.volume), volume);
        OthersUntouched(volumes, m, attempts(m.volume), BackupVolumeName(volume, major));
        MigrationsKeep(next, ms[1..], attempts, volume, major, sql);
      }
    }
  }

  lemma SafeStepKeeps(volumes: Volumes, e: Event, volume: string, major: Major, sql: string)
    requires IsRdsVolume(volume) && Kept(volumes, volume, major, sql) && Safe(volumes, e, volume, major)
    ensures Kept(Step(volumes, e), volume, major, sql)
  {
    hide BackupVolumeName, Found, Mismatched;
    match e {
      case Upgrade(run) =>
        FoundMean(volumes, run);
        MigrationsKeep(volumes, Found(volumes, run), run.attempts, volume, major, sql);
      case Serve(name, m, s) =>
        BackupNames(volume, major, volume, major);
    }
  }

  /** Over any history of migrations and container starts, however each command goes, the data
      a volume held at the outset is still in the volume or in its backup. */
  lemma {:induction false} HistoryKeeps(volumes: Volumes, es: seq<Event>, volume: string, major: Major, sql: string)
    requires IsRdsVolume(volume) && Kept(volumes, volume, major, sql)
    requires AllSafe(volumes, es, volume, major)
    ensures Kept(Steps(volumes, es), volume, major, sql)
    decreases |es|
  {
    if es != [] {
      SafeStepKeeps(volumes, es[0], volume, major, sql);
      HistoryKeeps(Step(volumes, es[0]), es[1..], volume, major, sql);
    }
  }

  /** What a retry does to the backup: after a failed migration left `c` in the volume, a retry
      whose copy succeeds keeps the backed-up data exactly when `c` is not of its version, or
      is the very same cluster. */
  lemma RetryKeepsBackup(volumes: Volumes, m: Mismatch, a: Attempt, major: Major, sql: string)
    requires IsRdsVolume(m.volume) && a.create.Ok? && a.copy.Ok?
    requires VersionOf(At(volumes, m.volume)) == Some(m.found)
    requires At(volumes, BackupVolumeName(m.volume, major)) == Cluster(major, sql)
    ensures At(Upgraded(volumes, m, a).0, BackupVolumeName(m.volume, major)) == Cluster(major, sql)
            <==> m.found != major || At(volumes, m.volume) == Cluster(major, sql)
  {
    hide BackupVolumeName;
    BackupNames(m.volume, m.found, m.volume, major);
    BackupNames(m.volume, major, m.volume, major);
  }

  function Alone(volume: string, expected: Major, a: Attempt): Run {
    Run(Some(expected), [volume], {volume}, {volume}, _ => a)
  }

  lemma AloneUpgrades(volumes: Volumes, volume: string, found: Major, expected: Major, a: Attempt)
    requires IsRdsVolume(volume) && VersionOf(At(volumes, volume)) == Some(found) && found != expected
    ensures AfterUpgradeAll(volumes, Alone(volume, expected, a)) == Upgraded(volumes, Mismatch(volume, found, expected), a).0
  {
    hide Upgraded;
    var run := Alone(volume, expected, a);
    var m := Mismatch(volume, found, expected);
    assert Mismatched(volumes, run, volume) && run.listed[..0] == [];
    assert Mismatches(volumes, run, []) == [];
    assert Mismatches(volumes, run, run.listed) == [m];
    assert Found(volumes, run) == Mismatches(volumes, run, run.listed);
    assert [m][1..] == [] && run.attempts(m.volume) == a;
    var (next, r) := Upgraded(volumes, m, a);
    assert AllUpgraded(next, [], run.attempts).0 == next;
    assert AllUpgraded(volumes, [m], run.attempts).0 == next;
  }

  /** A wipe that fails but leaves `PG_VERSION` makes the next `upgrade_all` copy the remains
      over the backup: no volume holds the data any more. */
  lemma TornWipeLosesData(volume: string, major: Major, expected: Major, sql: string, first: Attempt, retry: Attempt)
    requires IsRdsVolume(volume) && major != expected
    requires DumpTaken(first)
    requires first.wipe.Failed? && first.wipeLeft == Torn(Some(major))
    requires retry.create.Ok? && retry.copy.Ok? && !retry.startOld.Ok?
    ensures var after := Steps(map[volume := Cluster(major, sql)],
                               [Upgrade(Alone(volume, expected, first)), Upgrade(Alone(volume, expected, retry))]);
            forall name :: name in after ==> after[name] != Cluster(major, sql)
  {
    var volumes := map[volume := Cluster(major, sql)];
    var m := Mismatch(volume, major, expected);
    var es := [Upgrade(Alone(volume, expected, first)), Upgrade(Alone(volume, expected, retry))];
    BackupNames(volume, major, volume, major);
    AloneUpgrades(volumes, volume, major, expected, first);
    var once := Upgraded(volumes, m, first).0;
    AloneUpgrades(once, volume, major, expected, retry);
    assert es[1..] == [es[1]] && es[1..][1..] == [];
    assert Steps(volumes, es) == Steps(once, [es[1]]) == Upgraded(once, m, retry).0;
  }

  /** So does going back to the old image after a migration that failed past its wipe: it
      initialises a fresh cluster of the old version, and the next migration copies that over
      the backup. */
  lemma GoingBackLosesData(volume: string, major: Major, expected: Major, sql: string, blank: string, first: Attempt, retry: Attempt)
    requires IsRdsVolume(volume) && major != expected && sql != blank
    requires DumpTaken(first)
    requires first.wipe.Ok? && first.startNew.Failed? && first.newLeft == Empty
    requires retry.create.Ok? && retry.copy.Ok? && !retry.startOld.Ok?
    ensures var after := Steps(map[volume := Cluster(major, sql)],
                               [Upgrade(Alone(volume, expected, first)), Serve(volume, major, blank),
                                Upgrade(Alone(volume, expected, retry))]);
            forall name :: name in after ==> after[name] != Cluster(major, sql)
  {
    var volumes := map[volume := Cluster(major, sql)];
    var m := Mismatch(volume, major, expected);
    var es := [Upgrade(Alone(volume, expected, first)), Serve(volume, major, blank), Upgrade(Alone(volume, expected, retry))];
    BackupNames(volume, major, volume, major);
    AloneUpgrades(volumes, volume, major, expected, first);
    var once := Upgraded(volumes, m, first).0;
    var back := Served(once, volume, major, blank);
    AloneUpgrades(back, volume, major, expected, retry);
    assert es[1..] == [es[1], es[2]] && es[1..][1..] == [es[2]] && es[1..][1..][1..] == [];
    assert Steps(volumes, es) == Steps(once, [es[1], es[2]]) == Steps(back, [es[2]]) == Upgraded(back, m, retry).0;
  }

  // ---------------------------------------------------------------------------
  // What `upgrade_all` answers
  // ---------------------------------------------------------------------------

  ghost function Answer(a: Attempt): Result {
    AnswerFrom(CommandsOf(a), 0)
  }

  ghost function Successes(ms: seq<Mismatch>, attempts: string -> Attempt): nat {
    if ms == [] then 0
    else Successes(ms[1..], attempts) + if Answer(attempts(ms[0].volume)) == Returned(true) then 1 else 0
  }

  /** The count is of the migrations that returned true, whatever the others returned; a single
      one that raises aborts the run. */
  lemma {:induction false} TotalMeans(volumes: Volumes, ms: seq<Mismatch>, attempts: string -> Attempt)
    ensures AllUpgraded(volumes, ms, attempts).1
            == if exists i :: 0 <= i < |ms| && Answer(attempts(ms[i].volume)).Threw? then Aborted
               else Count(Successes(ms, attempts))
    decreases |ms|
  {
    hide Upgraded, AnswerFrom;
    if ms != [] {
      var a := attempts(ms[0].volume);
      AnswerMeans(volumes, ms[0], a);
      TotalMeans(Upgraded(volumes, ms[0], a).0, ms[1..], attempts);
      if i :| 0 <= i < |ms[1..]| && Answer(attempts(ms[1..][i].volume)).Threw? {
        assert ms[i + 1] == ms[1..][i];
      }
      if i :| 0 <= i < |ms| && Answer(attempts(ms[i].volume)).Threw? {
        assert i > 0 ==> ms[1..][i - 1] == ms[i];
      }
    }
  }

  /** Volumes after the first migration that raises are not reached. */
  lemma {:induction false} RaiseStops(volumes: Volumes, ms: seq<Mismatch>, attempts: string -> Attempt, r: nat)
    requires r < |ms| && Answer(attempts(ms[r].volume)).Threw?
    ensures AllUpgraded(volumes, ms, attempts) == AllUpgraded(volumes, ms[..r + 1], attempts)
    decreases |ms|
  {
    hide Upgraded, AnswerFrom;
    var a := attempts(ms[0].volume);
    AnswerMeans(volumes, ms[0], a);
    if r > 0 {
      RaiseStops(Upgraded(volumes, ms[0], a).0, ms[1..], attempts, r - 1);
      assert ms[..r + 1][1..] == ms[1..][..r];
    }
  }

  /** Exactly what is reported, in the order of the listing: a volume docker lists under the
      instance prefix, that a recorded instance mounts, whose version can be read and is not
      the image's. */
  lemma FoundExactly(volumes: Volumes, run: Run, m: Mismatch)
    requires Distinct(run.listed)
    ensures m in Found(volumes, run)
            <==> && run.expected == Some(m.expected) && m.volume in run.listed && "floci-rds-" <= m.volume
                 && m.volume in run.live && m.volume in run.readable
                 && VersionOf(At(volumes, m.volume)) == Some(m.found) && m.found != m.expected
  {
    hide VersionOf, Found;
    FoundMean(volumes, run);
    if run.expected.Some? && m.volume in run.listed && Mismatched(volumes, run, m.volume) {
      var x :| x in Found(volumes, run) && x.volume == m.volume;
      assert Reports(volumes, run, x);
    }
    if m in Found(volumes, run) {
      assert run.expected.Some?;
      assert Reports(volumes, run, m);
    }
  }

  lemma {:induction false} FoundInOrder(volumes: Volumes, run: Run, listed: seq<string>, i: nat, j: nat)
    requires run.expected.Some? && i < j < |Mismatches(volumes, run, listed)|
    ensures exists a, b :: 0 <= a < b < |listed| && listed[a] == Mismatches(volumes, run, listed)[i].volume
                           && listed[b] == Mismatches(volumes, run, listed)[j].volume
    decreases |listed|
  {
    hide Mismatched, VersionOf;
    var init, n := listed[..|listed| - 1], |listed| - 1;
    var before := Mismatches(volumes, run, init);
    if j < |before| {
      FoundInOrder(volumes, run, init, i, j);
      var a, b :| 0 <= a < b < |init| && init[a] == before[i].volume && init[b] == before[j].volume;
      assert listed[a] == before[i].volume && listed[b] == before[j].volume;
    } else {
      FoundListed(volumes, run, init, i);
      var a :| 0 <= a < |init| && init[a] == before[i].volume;
      assert listed[a] == before[i].volume && listed[n] == Mismatches(volumes, run, listed)[j].volume;
    }
  }

  lemma {:induction false} FoundListed(volumes: Volumes, run: Run, listed: seq<string>, i: nat)
    requires run.expected.Some? && i < |Mismatches(volumes, run, listed)|
    ensures exists a :: 0 <= a < |listed| && listed[a] == Mismatches(volumes, run, listed)[i].volume
    decreases |listed|
  {
    hide Mismatched, VersionOf;
    var init, n := listed[..|listed| - 1], |listed| - 1;
    var before := Mismatches(volumes, run, init);
    if i < |before| {
      FoundListed(volumes, run, init, i);
      var a :| 0 <= a < |init| && init[a] == before[i].volume;
      assert listed[a] == before[i].volume;
    } else {
      assert listed[n] == Mismatches(volumes, run, listed)[i].volume;
    }
  }

  // ---------------------------------------------------------------------------
  // Success
  // ---------------------------------------------------------------------------

  ghost predicate Succeeds(a: Attempt) {
    DumpTaken(a) && a.wipe.Ok? && a.startNew.Ok? && a.readyNew.Ok? && !a.restore.Raised? && a.restoredAll
  }

  lemma {:induction false} AllMigrate(volumes: Volumes, ms: seq<Mismatch>, attempts: string -> Attempt, i: nat)
    requires forall m :: m in ms ==> IsRdsVolume(m.volume) && Succeeds(attempts(m.volume))
    requires forall j, k :: 0 <= j < k < |ms| ==> ms[j].volume != ms[k].volume
    ensures AllUpgraded(volumes, ms, attempts).1 == Count(|ms|)
    ensures i < |ms| ==>
              var after := AllUpgraded(volumes, ms, attempts).0;
              var was := At(volumes, ms[i].volume);
              && At(after, ms[i].volume) == Cluster(ms[i].expected, DumpOf(was, attempts(ms[i].volume).salvaged))
              && (was.Cluster? ==> At(after, BackupVolumeName(ms[i].volume, ms[i].found)) == was)
    decreases |ms|
  {
    hide BackupVolumeName;
    if ms != [] {
      var m := ms[0];
      var next := Upgraded(volumes, m, attempts(m.volume)).0;
      assert Succeeds(attempts(m.volume));
      BackupNames(m.volume, m.found, m.volume, m.found);
      forall other | other in ms[1..] ensures other.volume != m.volume {
        var k :| 0 <= k < |ms[1..]| && ms[1..][k] == other;
        assert ms[k + 1] == other;
      }
      AllMigrate(next, ms[1..], attempts, if i == 0 then 0 else i - 1);
      if i == 0 {
        OtherMigrations(next, ms[1..], attempts, m.volume, m.found);
      } else if i < |ms| {
        BackupNames(m.volume, m.found, ms[i].volume, ms[i].found);
        assert ms[1..][i - 1] == ms[i];
        OthersUntouched(volumes, m, attempts(m.volume), ms[i].volume);
      }
    }
  }

  lemma {:induction false} NoneMismatched(volumes: Volumes, run: Run, listed: seq<string>)
    requires run.expected.Some? && forall name :: name in listed ==> !Mismatched(volumes, run, name)
    ensures Mismatches(volumes, run, listed) == []
    decreases |listed|
  {
    hide Mismatched;
    if listed != [] {
      NoneMismatched(volumes, run, listed[..|listed| - 1]);
      assert listed[|listed| - 1] in listed;
    }
  }

  /** When every migration succeeds and restores its whole dump, all the mismatched volumes are counted and carry their
      data to the new version, their old clusters are in their backups, and the next look
      finds no mismatch. */
  lemma UpgradeAllConverges(volumes: Volumes, run: Run)
    requires run.expected.Some? && Distinct(run.listed)
    requires forall m :: m in Found(volumes, run) ==> Succeeds(run.attempts(m.volume))
    ensures var ms := Found(volumes, run);
            var (after, total) := AllUpgraded(volumes, ms, run.attempts);
            && total == Count(|ms|)
            && Found(after, run) == []
            && (forall i :: 0 <= i < |ms| ==>
                  var was := At(volumes, ms[i].volume);
                  was.Cluster? ==>
                    && At(after, ms[i].volume) == Cluster(run.expected.value, was.sql)
                    && At(after, BackupVolumeName(ms[i].volume, ms[i].found)) == was)
  {
    hide BackupVolumeName, Found, Succeeds;
    var ms := Found(volumes, run);
    var after := AfterUpgradeAll(volumes, run);
    FoundMean(volumes, run);
    AllMigrate(volumes, ms, run.attempts, 0);
    forall i | 0 <= i < |ms|
      ensures VersionOf(At(after, ms[i].volume)) == run.expected
      ensures var was := At(volumes, ms[i].volume);
              was.Cluster? ==>
                && At(after, ms[i].volume) == Cluster(run.expected.value, was.sql)
                && At(after, BackupVolumeName(ms[i].volume, ms[i].found)) == was
    {
      AllMigrate(volumes, ms, run.attempts, i);
    }
    forall name | name in run.listed ensures !Mismatched(after, run, name) {
      if Mismatched(volumes, run, name) {
        var m :| m in ms && m.volume == name;
        var k :| 0 <= k < |ms| && ms[k] == m;
      } else if IsRdsVolume(name) {
        OtherMigrations(volumes, ms, run.attempts, name, run.expected.value);
      }
    }
    NoneFound(after, run);
  }

  lemma NoneFound(volumes: Volumes, run: Run)
    requires run.expected.Some? && forall name :: name in run.listed ==> !Mismatched(volumes, run, name)
    ensures Found(volumes, run) == []
  {
    NoneMismatched(volumes, run, run.listed);
  }
}
