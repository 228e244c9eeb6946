/** The registry of named local environments: slots, accounts and host ports.

    Source: `env_registry.py`. Environments are kept in insertion order, as in the source's
    dictionary; all share one port base. `crc32` is a function of the name. */
module EnvRegistry {
  import opened Bom
  import opened Common

  const PORTS_PER_ENV := 4
  const K3S_PORTS_PER_ENV := 1
  const MAX_ENVS: nat := 16
  const DEFAULT_ENV_NAME := "local"

  const RESERVED_SLUGS: set<string> := {
    "api", "apiop", "argo", "aws", "restapis", "hmd_ms_deployment", "hmd_ms_naming", "hmd_ms_artifact_lib",
    "hmd_ms_dbaccount", "ms-deployment", "ms_deployment", "hmd-ms-deployment", "ms-naming", "ms_naming",
    "hmd-ms-naming"
  }

  // ---------------------------------------------------------------------------
  // Names
  // ---------------------------------------------------------------------------

  function Lower(s: string): string {
    seq(|s|, i requires 0 <= i < |s| => if 'A' <= s[i] <= 'Z' then (s[i] as int + 32) as char else s[i])
  }

  function Slugify(name: string): string {
    Lower(Strip(name))
  }

  predicate SlugChar(c: char) {
    'a' <= c <= 'z' || '0' <= c <= '9'
  }

  predicate ValidSlug(s: string) {
    && 1 <= |s| <= 16
    && SlugChar(s[0])
    && (forall i :: 0 <= i < |s| ==> SlugChar(s[i]) || s[i] == '-')
    && s !in RESERVED_SLUGS
  }

  /** `validate_slug`: `None` is the source's `EnvRegistryError`. */
  function ValidateSlug(name: string): Option<string> {
    if ValidSlug(Slugify(name)) then Some(Slugify(name)) else None
  }

  /** What a name becomes: its letters in lower case, without the white space around it; it is
      refused exactly when that is empty or too long for a route segment, holds anything but
      lower-case letters, digits and inner hyphens, or shadows a control-plane route. */
  lemma SlugMeans(name: string) returns (pre: string, post: string)
    ensures name == pre + Strip(name) + post && AllSpace(pre) && AllSpace(post)
    ensures |Slugify(name)| == |Strip(name)|
    ensures forall i :: 0 <= i < |Strip(name)| ==>
              Slugify(name)[i] == if 'A' <= Strip(name)[i] <= 'Z' then Strip(name)[i] - 'A' + 'a' else Strip(name)[i]
    ensures ValidateSlug(name) == None
            <==> || |Slugify(name)| == 0 || |Slugify(name)| > 16
                 || Slugify(name)[0] == '-'
                 || (exists i :: 0 <= i < |Slugify(name)| && !('a' <= Slugify(name)[i] <= 'z' || '0' <= Slugify(name)[i] <= '9'
                                                                       || Slugify(name)[i] == '-'))
                 || Slugify(name) in RESERVED_SLUGS
    ensures ValidateSlug(name).Some? ==> ValidateSlug(name).value == Slugify(name)
  {
    hide Strip;
    pre, post := StripMeans(name);
  }

  lemma SlugifyFixes(s: string)
    requires ValidSlug(s)
    ensures Slugify(s) == s && ValidateSlug(s) == Some(s)
  {
    assert StripLeft(s) == s;
    assert SlugChar(s[|s| - 1]) || s[|s| - 1] == '-';
    assert StripRight(s) == s;
    assert Lower(s) == s;
  }

  // ---------------------------------------------------------------------------
  // Twelve-digit account ids
  // ---------------------------------------------------------------------------

  /** `f"{n:012d}"`. */
  function Format12(n: nat): string {
    var d := Digits(n);
    if |d| < 12 then Zeros(12 - |d|) + d else d
  }

  /** Twelve digits hold the number they were made from. */
  lemma FormatParses(n: nat)
    ensures Parse(Format12(n)) == n
  {
    ParseDigits(n);
    ParsePadded(if |Digits(n)| < 12 then 12 - |Digits(n)| else 0, Digits(n));
  }

  /** Distinct numbers format differently. */
  lemma Format12Injective(m: nat, n: nat)
    ensures Format12(m) == Format12(n) ==> m == n
  {
    ParseDigits(m);
    ParseDigits(n);
    ParsePadded(if |Digits(m)| < 12 then 12 - |Digits(m)| else 0, Digits(m));
    ParsePadded(if |Digits(n)| < 12 then 12 - |Digits(n)| else 0, Digits(n));
  }

  lemma SmallIdsHaveTwelveDigits(n: nat)
    requires n < 100
    ensures |Format12(n)| == 12
  {
    assert |Digits(n)| <= 2;
    ZerosLength(12 - |Digits(n)|);
  }

  lemma ControlPlaneIsZero()
    ensures Format12(0) == CONTROL_PLANE_ACCOUNT_ID
  {
    assert Digits(0) == "0";
    calc {
      Zeros(11);
      "0" + ("0" + ("0" + ("0" + ("0" + ("0" + ("0" + ("0" + ("0" + ("0" + ("0" + Zeros(0)))))))))));
      "00000000000";
    }
  }

  // ---------------------------------------------------------------------------
  // Allocation
  // ---------------------------------------------------------------------------

  datatype LocalEnvironment = LocalEnvironment(slug: string, accountId: string, portSlot: nat, legacyLayout: bool)

  function UsedSlots(envs: seq<LocalEnvironment>): set<nat> {
    set e | e in envs :: e.portSlot
  }

  function UsedAccounts(envs: seq<LocalEnvironment>): set<string> {
    set e | e in envs :: e.accountId
  }

  /** The least slot from `from` on that is free, below `MAX_ENVS`. */
  function LeastFree(used: set<nat>, from: nat): Option<nat>
    decreases MAX_ENVS - from
  {
    if from >= MAX_ENVS then None
    else if from !in used then Some(from)
    else LeastFree(used, from + 1)
  }

  /** The slot a name gets: its hash's if free, else the least free one; none when all are taken. */
  function SlotFor(used: set<nat>, hash: nat): Option<nat> {
    if |used| >= MAX_ENVS then None
    else if hash % MAX_ENVS !in used then Some(hash % MAX_ENVS)
    else LeastFree(used, 0)
  }

  lemma {:induction false} LeastFreeMeans(used: set<nat>, from: nat)
    ensures LeastFree(used, from).None? ==> forall s: nat :: from <= s < MAX_ENVS ==> s in used
    ensures var r := LeastFree(used, from);
            r.Some? ==> from <= r.value < MAX_ENVS && r.value !in used && forall s: nat :: from <= s < r.value ==> s in used
    decreases MAX_ENVS - from
  {
    if from < MAX_ENVS && from in used {
      LeastFreeMeans(used, from + 1);
    }
  }

  /** Allocation fails exactly when all sixteen slots are taken, so the source's last error
      cannot be raised. The slot it gives is free and in range: the hash's own when that is
      free, otherwise the least free one. */
  lemma SlotForMeans(used: set<nat>, hash: nat)
    ensures SlotFor(used, hash).None? <==> |used| >= MAX_ENVS
    ensures SlotFor(used, hash).Some? ==>
              var slot := SlotFor(used, hash).value;
              && slot < MAX_ENVS && slot !in used
              && (slot == hash % MAX_ENVS || (hash % MAX_ENVS in used && forall s: nat :: s < slot ==> s in used))
  {
    LeastFreeMeans(used, 0);
    if LeastFree(used, 0).None? {
      assert Below(MAX_ENVS) <= used;
      SubsetCard(Below(MAX_ENVS), used);
    }
  }

  /** The least `n` from `from` on whose id is not taken. Every id passed over is one of the
      taken ones and all are different, so the search ends. */
  function FirstFreeAccount(used: set<string>, from: nat): (n: nat)
    ensures from <= n <= from + |used|
    decreases |used|
  {
    if Format12(from) in used then FirstFreeAccount(used - {Format12(from)}, from + 1) else from
  }

  lemma {:induction false} FirstFreeAccountMeans(used: set<string>, from: nat)
    ensures var n := FirstFreeAccount(used, from);
            Format12(n) !in used && forall k: nat :: from <= k < n ==> Format12(k) in used
    decreases |used|
  {
    if Format12(from) in used {
      FirstFreeAccountMeans(used - {Format12(from)}, from + 1);
      Format12Injective(FirstFreeAccount(used, from), from);
    }
  }

  function AccountFor(envs: seq<LocalEnvironment>): string {
    Format12(FirstFreeAccount(UsedAccounts(envs) + {CONTROL_PLANE_ACCOUNT_ID}, 1))
  }

  // ---------------------------------------------------------------------------
  // The registry
  // ---------------------------------------------------------------------------

  datatype State = State(environments: seq<LocalEnvironment>, defaultEnv: string)

  function Find(envs: seq<LocalEnvironment>, slug: string): (p: nat)
    ensures p <= |envs|
    ensures p < |envs| ==> envs[p].slug == slug
    ensures forall i :: 0 <= i < p ==> envs[i].slug != slug
  {
    if envs == [] || envs[0].slug == slug then 0 else 1 + Find(envs[1..], slug)
  }

  predicate Has(envs: seq<LocalEnvironment>, slug: string) {
    Find(envs, slug) < |envs|
  }

  lemma HasMeans(envs: seq<LocalEnvironment>, slug: string)
    ensures Has(envs, slug) <==> exists e :: e in envs && e.slug == slug
  {
    if Has(envs, slug) {
      assert envs[Find(envs, slug)] in envs;
    } else {
      forall e | e in envs ensures e.slug != slug {
        var i :| 0 <= i < |envs| && envs[i] == e;
      }
    }
  }

  /** `_build_environment`; `None` when no slot is left. */
  function Built(envs: seq<LocalEnvironment>, slug: string, hash: nat): Option<LocalEnvironment> {
    var slot := SlotFor(UsedSlots(envs), hash);
    if slot.None? then None else Some(LocalEnvironment(slug, AccountFor(envs), slot.value, false))
  }

  function Created(s: State, name: string, crc32: string -> nat): Option<State> {
    var slug := ValidateSlug(name);
    if slug.None? || Has(s.environments, slug.value) then None
    else
      var env := Built(s.environments, slug.value, crc32(slug.value));
      if env.None? then None else Some(s.(environments := s.environments + [env.value]))
  }

  function Removed(s: State, name: string): Option<State> {
    var slug := ValidateSlug(name);
    if slug.None? || !Has(s.environments, slug.value) then None
    else
      var p := Find(s.environments, slug.value);
      var rest := s.environments[..p] + s.environments[p + 1..];
      Some(State(rest, if s.defaultEnv != slug.value then s.defaultEnv
                       else if rest == [] then DEFAULT_ENV_NAME else rest[0].slug))
  }

  function DefaultSet(s: State, name: string): Option<State> {
    var slug := Slugify(name);
    if Has(s.environments, slug) then Some(s.(defaultEnv := slug)) else None
  }

  /** `ensure_default_env` builds the default environment when it is missing. */
  function DefaultEnsured(s: State, crc32: string -> nat): Option<State> {
    if Has(s.environments, Slugify(s.defaultEnv)) then Some(s) else Created(s, s.defaultEnv, crc32)
  }

  /** `record_bootstrap` puts back an environment that is no longer registered. */
  function BootstrapRecorded(s: State, env: LocalEnvironment): State {
    if Has(s.environments, env.slug) then s else s.(environments := s.environments + [env])
  }

  const LEGACY_ENVIRONMENT := LocalEnvironment(DEFAULT_ENV_NAME, CONTROL_PLANE_ACCOUNT_ID, 0, true)

  class Registry {
    var environments: seq<LocalEnvironment>
    var defaultEnv: string
    const crc32: string -> nat

    function Current(): State
      reads this
    {
      State(environments, defaultEnv)
    }

    /** A fresh registry, migrating an install that predates it. */
    constructor (legacy: bool, crc32: string -> nat)
      ensures Current() == State(if legacy then [LEGACY_ENVIRONMENT] else [], DEFAULT_ENV_NAME) && this.crc32 == crc32
      ensures defaultEnv == "local" && (legacy ==> environments == [LocalEnvironment("local", "000000000000", 0, true)])
    {
      environments := if legacy then [LEGACY_ENVIRONMENT] else [];
      defaultEnv := DEFAULT_ENV_NAME;
      this.crc32 := crc32;
    }

    method AllocatePortSlot(name: string) returns (slot: Option<nat>)
      ensures slot == SlotFor(UsedSlots(environments), crc32(name))
    {
      var used := UsedSlots(environments);
      SlotForMeans(used, crc32(name));
      if |used| >= MAX_ENVS {
        return None;
      }
      var preferred := crc32(name) % MAX_ENVS;
      if preferred !in used {
        return Some(preferred);
      }
      var s := 0;
      while s < MAX_ENVS
        invariant 0 <= s <= MAX_ENVS && LeastFree(used, s) == LeastFree(used, 0)
      {
        if s !in used {
          return Some(s);
        }
        s := s + 1;
      }
      assert false;
    }

    method AllocateAccountId() returns (id: string)
      ensures id == AccountFor(environments)
    {
      var used := UsedAccounts(environments) + {CONTROL_PLANE_ACCOUNT_ID};
      ghost var rest := used;
      var n := 1;
      while Format12(n) in used
        invariant n >= 1 && rest <= used
        invariant forall k: nat :: n <= k && Format12(k) in used ==> Format12(k) in rest
        invariant FirstFreeAccount(rest, n) == FirstFreeAccount(used, 1)
        decreases |rest|
      {
        assert |rest - {Format12(n)}| < |rest|;
        forall k: nat | n + 1 <= k ensures Format12(k) != Format12(n) {
          Format12Injective(k, n);
        }
        rest := rest - {Format12(n)};
        n := n + 1;
      }
      id := Format12(n);
    }

    method CreateEnv(name: string) returns (env: Option<LocalEnvironment>)
      modifies this
      ensures match Created(old(Current()), name, crc32)
              case Some(s) => Current() == s && env == Some(environments[|environments| - 1])
              case None => Current() == old(Current()) && env.None?
    {
      var slug := ValidateSlug(name);
      if slug.None? || Has(environments, slug.value) {
        return None;
      }
      var slot := AllocatePortSlot(slug.value);
      if slot.None? {
        return None;
      }
      var account := AllocateAccountId();
      env := Some(LocalEnvironment(slug.value, account, slot.value, false));
      environments := environments + [env.value];
    }

    method RemoveEnv(name: string) returns (ok: bool)
      modifies this
      ensures match Removed(old(Current()), name)
              case Some(s) => Current() == s && ok
              case None => Current() == old(Current()) && !ok
    {
      var slug := ValidateSlug(name);
      if slug.None? || !Has(environments, slug.value) {
        return false;
      }
      var p := Find(environments, slug.value);
      environments := environments[..p] + environments[p + 1..];
      if defaultEnv == slug.value {
        defaultEnv := if environments == [] then DEFAULT_ENV_NAME else environments[0].slug;
      }
      ok := true;
    }

    method SetDefault(name: string) returns (ok: bool)
      modifies this
      ensures environments == old(environments)
      ensures ok <==> exists e :: e in environments && e.slug == Slugify(name)
      ensures defaultEnv == if ok then Slugify(name) else old(defaultEnv)
      ensures match DefaultSet(old(Current()), name)
              case Some(s) => Current() == s && ok
              case None => Current() == old(Current()) && !ok
    {
      ok := Has(environments, Slugify(name));
      HasMeans(environments, Slugify(name));
      if ok {
        defaultEnv := Slugify(name);
      }
    }

    method EnsureDefaultEnv() returns (env: Option<LocalEnvironment>)
      modifies this
      ensures match DefaultEnsured(old(Current()), crc32)
              case Some(s) => Current() == s && env.Some? && env.value in environments
              case None => Current() == old(Current()) && env.None?
      ensures env.Some? ==> env.value.slug == Slugify(old(defaultEnv))
    {
      var p := Find(environments, Slugify(defaultEnv));
      if p < |environments| {
        return Some(environments[p]);
      }
      env := CreateEnv(defaultEnv);
    }

    method RecordBootstrap(env: LocalEnvironment)
      modifies this
      ensures Current() == BootstrapRecorded(old(Current()), env)
      ensures exists e :: e in environments && e.slug == env.slug
      ensures old(environments) <= environments && defaultEnv == old(defaultEnv)
    {
      HasMeans(environments, env.slug);
      if !Has(environments, env.slug) {
        environments := environments + [env];
        assert env in environments;
      }
    }
  }

  // ---------------------------------------------------------------------------
  // The registry invariant
  // ---------------------------------------------------------------------------

  /** Slugs, slots and accounts are pairwise distinct, slots are below `MAX_ENVS`, and an
      account is one of the first sixteen environment ids unless the environment is the
      legacy one, which has the control plane's. */
  ghost predicate Inv(envs: seq<LocalEnvironment>) {
    Distinct(envs) && forall e :: e in envs ==> Fits(e)
  }

  ghost predicate Distinct(envs: seq<LocalEnvironment>) {
    forall i, j :: 0 <= i < j < |envs| ==> Apart(envs[i], envs[j])
  }

  ghost predicate Apart(e: LocalEnvironment, f: LocalEnvironment) {
    e.slug != f.slug && e.portSlot != f.portSlot && e.accountId != f.accountId
  }

  ghost predicate Fits(e: LocalEnvironment) {
    && e.portSlot < MAX_ENVS
    && if e.legacyLayout then e.accountId == CONTROL_PLANE_ACCOUNT_ID
       else exists n :: 1 <= n <= MAX_ENVS && e.accountId == Format12(n)
  }

  lemma DistinctAppend(init: seq<LocalEnvironment>, last: LocalEnvironment)
    ensures Distinct(init + [last]) <==> Distinct(init) && forall e :: e in init ==> Apart(e, last)
  {
    hide Apart;
    var envs := init + [last];
    assert forall i :: 0 <= i < |init| ==> envs[i] == init[i];
    if Distinct(envs) {
      forall e | e in init ensures Apart(e, last) {
        var i :| 0 <= i < |init| && init[i] == e;
        assert Apart(envs[i], envs[|init|]);
      }
      forall i, j | 0 <= i < j < |init| ensures Apart(init[i], init[j]) {
        assert Apart(envs[i], envs[j]);
      }
    }
  }

  lemma DistinctWithout(envs: seq<LocalEnvironment>, p: nat)
    requires Distinct(envs) && p < |envs|
    ensures Distinct(envs[..p] + envs[p + 1..])
  {
    hide Apart;
    var rest := envs[..p] + envs[p + 1..];
    forall i, j | 0 <= i < j < |rest| ensures Apart(rest[i], rest[j]) {
      assert Apart(envs[if i < p then i else i + 1], envs[if j < p then j else j + 1]);
    }
  }

  lemma {:induction false} UsedCards(envs: seq<LocalEnvironment>)
    requires Distinct(envs)
    ensures |UsedSlots(envs)| == |envs| && |UsedAccounts(envs)| == |envs|
  {
    if envs != [] {
      hide Distinct, Apart, UsedSlots, UsedAccounts;
      var init, last := envs[..|envs| - 1], envs[|envs| - 1];
      assert envs == init + [last];
      DistinctAppend(init, last);
      UsedCards(init);
      UsedAppend(init, last);
    }
  }

  lemma UsedAppend(init: seq<LocalEnvironment>, last: LocalEnvironment)
    ensures UsedSlots(init + [last]) == UsedSlots(init) + {last.portSlot}
    ensures UsedAccounts(init + [last]) == UsedAccounts(init) + {last.accountId}
    ensures (forall e :: e in init ==> Apart(e, last)) ==>
              last.portSlot !in UsedSlots(init) && last.accountId !in UsedAccounts(init)
  {
    var envs := init + [last];
    assert forall e :: e in envs <==> e in init || e == last;
    forall x | x in UsedSlots(init) + {last.portSlot} ensures x in UsedSlots(envs) {
      if x == last.portSlot { assert last in envs; }
    }
    forall x | x in UsedAccounts(init) + {last.accountId} ensures x in UsedAccounts(envs) {
      if x == last.accountId { assert last in envs; }
    }
  }

  lemma BuiltKeepsInv(envs: seq<LocalEnvironment>, slug: string, hash: nat)
    requires Inv(envs) && !Has(envs, slug) && Built(envs, slug, hash).Some?
    ensures Inv(envs + [Built(envs, slug, hash).value])
  {
    hide Format12, FirstFreeAccount, LeastFree;
    var env := Built(envs, slug, hash).value;
    var used := UsedAccounts(envs) + {CONTROL_PLANE_ACCOUNT_ID};
    SlotForMeans(UsedSlots(envs), hash);
    UsedCards(envs);
    FirstFreeAccountMeans(used, 1);
    AccountSmall(envs);
    var n := FirstFreeAccount(used, 1);
    assert env.accountId == Format12(n) && Fits(env);
    forall e | e in envs ensures Apart(e, env) {
      var i :| 0 <= i < |envs| && envs[i] == e;
      assert e.portSlot in UsedSlots(envs) && e.accountId in used;
    }
    DistinctAppend(envs, env);
  }

  /** With a slot left there are at most fifteen environments, and the ids passed over are
      all theirs, so the one allocated is among the first sixteen. */
  lemma AccountSmall(envs: seq<LocalEnvironment>)
    requires Inv(envs) && |envs| < MAX_ENVS
    ensures 1 <= FirstFreeAccount(UsedAccounts(envs) + {CONTROL_PLANE_ACCOUNT_ID}, 1) <= MAX_ENVS
  {
    hide Format12, Distinct, Fits;
    var used := UsedAccounts(envs) + {CONTROL_PLANE_ACCOUNT_ID};
    var n := FirstFreeAccount(used, 1);
    FirstFreeAccountMeans(used, 1);
    ControlPlaneIsZero();
    UsedCards(envs);
    var passed := Formatted(n);
    forall id | id in passed ensures id in UsedAccounts(envs) {
      var k :| 1 <= k < n && id == Format12(k);
      Format12Injective(k, 0);
    }
    SubsetCard(passed, UsedAccounts(envs));
  }

  ghost function Formatted(n: nat): (ids: set<string>)
    requires n >= 1
    ensures |ids| == n - 1
    ensures forall id :: id in ids <==> exists k :: 1 <= k < n && id == Format12(k)
  {
    if n == 1 then {}
    else
      var before := Formatted(n - 1);
      assert Format12(n - 1) !in before by {
        forall k | 1 <= k < n - 1 ensures Format12(k) != Format12(n - 1) {
          Format12Injective(k, n - 1);
        }
      }
      before + {Format12(n - 1)}
  }

  datatype Op = Create(name: string) | Remove(name: string) | MakeDefault(name: string) | EnsureDefault

  /** A refused operation leaves the registry as it was. */
  function Perform(s: State, op: Op, crc32: string -> nat): State {
    var next := match op
      case Create(name) => Created(s, name, crc32)
      case Remove(name) => Removed(s, name)
      case MakeDefault(name) => DefaultSet(s, name)
      case EnsureDefault => DefaultEnsured(s, crc32);
    if next.None? then s else next.value
  }

  function PerformAll(s: State, ops: seq<Op>, crc32: string -> nat): State {
    if ops == [] then s else Perform(PerformAll(s, ops[..|ops| - 1], crc32), ops[|ops| - 1], crc32)
  }

  lemma CreatedKeepsInv(s: State, name: string, crc32: string -> nat)
    requires Inv(s.environments) && Created(s, name, crc32).Some?
    ensures Inv(Created(s, name, crc32).value.environments)
  {
    hide ValidateSlug, Built, Distinct, Fits;
    BuiltKeepsInv(s.environments, ValidateSlug(name).value, crc32(ValidateSlug(name).value));
  }

  lemma PerformKeepsInv(s: State, op: Op, crc32: string -> nat)
    requires Inv(s.environments)
    ensures Inv(Perform(s, op, crc32).environments)
  {
    hide ValidateSlug, Slugify, Created, Distinct, Fits;
    match op {
      case Create(name) =>
        if Created(s, name, crc32).Some? { CreatedKeepsInv(s, name, crc32); }
      case Remove(name) =>
        if Removed(s, name).Some? {
          DistinctWithout(s.environments, Find(s.environments, ValidateSlug(name).value));
        }
      case MakeDefault(name) =>
      case EnsureDefault =>
        if Created(s, s.defaultEnv, crc32).Some? { CreatedKeepsInv(s, s.defaultEnv, crc32); }
    }
  }

  /** Over any history of creations, removals, default changes and default look-ups, from an empty or a migrated
      registry: slots are distinct and below sixteen, accounts distinct twelve-digit ids, and
      only the legacy environment has the control plane's. */
  lemma {:induction false} RegistryInvariant(legacy: bool, ops: seq<Op>, crc32: string -> nat)
    ensures var envs := PerformAll(State(if legacy then [LEGACY_ENVIRONMENT] else [], DEFAULT_ENV_NAME), ops, crc32).environments;
            && Inv(envs) && |envs| <= MAX_ENVS
            && forall e :: e in envs ==> |e.accountId| == 12 && (e.accountId == CONTROL_PLANE_ACCOUNT_ID <==> e.legacyLayout)
  {
    var start := State(if legacy then [LEGACY_ENVIRONMENT] else [], DEFAULT_ENV_NAME);
    if ops != [] {
      RegistryInvariant(legacy, ops[..|ops| - 1], crc32);
      PerformKeepsInv(PerformAll(start, ops[..|ops| - 1], crc32), ops[|ops| - 1], crc32);
    }
    InvMeans(PerformAll(start, ops, crc32).environments);
  }

  lemma InvMeans(envs: seq<LocalEnvironment>)
    requires Inv(envs)
    ensures |envs| <= MAX_ENVS
    ensures forall e :: e in envs ==> |e.accountId| == 12 && (e.accountId == CONTROL_PLANE_ACCOUNT_ID <==> e.legacyLayout)
  {
    hide Format12;
    UsedCards(envs);
    assert UsedSlots(envs) <= Below(MAX_ENVS);
    SubsetCard(UsedSlots(envs), Below(MAX_ENVS));
    ControlPlaneIsZero();
    forall e | e in envs ensures |e.accountId| == 12 && (e.accountId == CONTROL_PLANE_ACCOUNT_ID <==> e.legacyLayout) {
      assert Fits(e);
      if !e.legacyLayout {
        var n :| 1 <= n <= MAX_ENVS && e.accountId == Format12(n);
        Format12Injective(n, 0);
        SmallIdsHaveTwelveDigits(n);
      }
    }
  }

  /** The account an environment gets: the first of 000000000001, 000000000002 and so on that no
      environment has. */
  lemma AccountForMeans(envs: seq<LocalEnvironment>)
    ensures exists n :: && n >= 1 && AccountFor(envs) == Format12(n)
                        && (forall e :: e in envs ==> e.accountId != Format12(n))
                        && forall k: nat :: 1 <= k < n ==> exists e :: e in envs && e.accountId == Format12(k)
  {
    hide Format12;
    var used := UsedAccounts(envs) + {CONTROL_PLANE_ACCOUNT_ID};
    var n := FirstFreeAccount(used, 1);
    FirstFreeAccountMeans(used, 1);
    ControlPlaneIsZero();
    forall k: nat | 1 <= k < n ensures exists e :: e in envs && e.accountId == Format12(k) {
      Format12Injective(k, 0);
      assert Format12(k) in UsedAccounts(envs);
    }
    forall e | e in envs ensures e.accountId != Format12(n) {
      assert e.accountId in UsedAccounts(envs);
    }
  }

  /** When a creation succeeds: the name is valid and free and a slot is left. The environment
      then comes last, under its slug, and nothing else changes. */
  lemma CreatedMeans(s: State, name: string, crc32: string -> nat)
    requires Inv(s.environments)
    ensures Created(s, name, crc32).Some?
            <==> && ValidateSlug(name).Some? && |s.environments| < 16
                 && forall e :: e in s.environments ==> e.slug != Slugify(name)
    ensures Created(s, name, crc32).Some? ==>
              SlotFor(UsedSlots(s.environments), crc32(Slugify(name))).Some? &&
              var after := Created(s, name, crc32).value;
              && |after.environments| == |s.environments| + 1 && after.environments[..|s.environments|] == s.environments
              && after.environments[|s.environments|]
                 == LocalEnvironment(Slugify(name), AccountFor(s.environments),
                                     SlotFor(UsedSlots(s.environments), crc32(Slugify(name))).value, false)
              && after.defaultEnv == s.defaultEnv
  {
    hide Slugify, ValidSlug, Inv, AccountFor, LeastFree;
    HasMeans(s.environments, Slugify(name));
    UsedCardsOf(s.environments);
    SlotForMeans(UsedSlots(s.environments), crc32(Slugify(name)));
  }

  lemma UsedCardsOf(envs: seq<LocalEnvironment>)
    requires Inv(envs)
    ensures |UsedSlots(envs)| == |envs|
  {
    UsedCards(envs);
  }

  /** When a removal succeeds, the environment is the only one to go, the others stay in their
      order, and the default changes only if it was that one, to the first that is left. */
  lemma RemovedMeans(s: State, name: string, p: nat)
    requires Inv(s.environments) && ValidateSlug(name).Some?
    requires p < |s.environments| && s.environments[p].slug == Slugify(name)
    ensures Removed(s, name).Some?
    ensures var after := Removed(s, name).value;
            && after.environments == s.environments[..p] + s.environments[p + 1..]
            && after.defaultEnv == (if s.defaultEnv != Slugify(name) then s.defaultEnv
                                    else if |s.environments| == 1 then "local"
                                    else if p == 0 then s.environments[1].slug else s.environments[0].slug)
  {
    hide Slugify, ValidSlug, Fits;
    var q := Find(s.environments, Slugify(name));
    forall i | 0 <= i < p ensures s.environments[i].slug != Slugify(name) {
      assert Apart(s.environments[i], s.environments[p]);
    }
    assert q == p;
  }

  /** An unknown or invalid name removes nothing. */
  lemma UnknownNotRemoved(s: State, name: string)
    ensures Removed(s, name).None?
            <==> ValidateSlug(name).None? || forall e :: e in s.environments ==> e.slug != Slugify(name)
  {
    hide Slugify, ValidSlug;
    HasMeans(s.environments, Slugify(name));
  }

  /** The default environment is there afterwards unless its name is invalid or no slot is left;
      if it was there, nothing changes. */
  lemma EnsuredMeans(s: State, crc32: string -> nat)
    requires Inv(s.environments)
    ensures (exists e :: e in s.environments && e.slug == Slugify(s.defaultEnv)) ==> DefaultEnsured(s, crc32) == Some(s)
    ensures DefaultEnsured(s, crc32).None?
            <==> && (forall e :: e in s.environments ==> e.slug != Slugify(s.defaultEnv))
                 && (ValidateSlug(s.defaultEnv).None? || |s.environments| >= 16)
    ensures DefaultEnsured(s, crc32).Some? ==>
              exists e :: e in DefaultEnsured(s, crc32).value.environments && e.slug == Slugify(s.defaultEnv)
  {
    hide Slugify, ValidSlug, Inv, Created;
    HasMeans(s.environments, Slugify(s.defaultEnv));
    CreatedMeans(s, s.defaultEnv, crc32);
    if DefaultEnsured(s, crc32).Some? && !Has(s.environments, Slugify(s.defaultEnv)) {
      var after := DefaultEnsured(s, crc32).value.environments;
      assert after[|s.environments|] in after;
    }
  }

  /** Removing an environment never leaves it the default, unless it was the last one and the
      default name was its own. */
  lemma RemovedIsNotDefault(s: State, name: string)
    requires Inv(s.environments) && Removed(s, name).Some?
    ensures var after := Removed(s, name).value;
            && !Has(after.environments, ValidateSlug(name).value)
            && (after.defaultEnv == ValidateSlug(name).value ==> after.environments == [])
  {
    var slug := ValidateSlug(name).value;
    var p := Find(s.environments, slug);
    var rest := s.environments[..p] + s.environments[p + 1..];
    assert forall i :: 0 <= i < |rest| ==> rest[i] == s.environments[if i < p then i else i + 1];
    forall i | 0 <= i < |rest| ensures rest[i].slug != slug {
      assert s.environments[p].slug == slug;
    }
    var q := Find(rest, slug);
  }

  /** `record_bootstrap` keeps the invariant exactly when the environment is still registered
      or nothing took its slot or account meanwhile. */
  lemma BootstrapKeepsInv(s: State, env: LocalEnvironment)
    requires Inv(s.environments) && Fits(env)
    ensures Inv(BootstrapRecorded(s, env).environments)
            <==> Has(s.environments, env.slug)
                 || (env.portSlot !in UsedSlots(s.environments) && env.accountId !in UsedAccounts(s.environments))
  {
    hide Fits, Distinct;
    if !Has(s.environments, env.slug) {
      DistinctAppend(s.environments, env);
      forall e | e in s.environments ensures e.slug != env.slug {
        var i :| 0 <= i < |s.environments| && s.environments[i] == e;
      }
    }
  }

  /** And it does happen: bootstrapping an environment that was removed, after another took its
      account, leaves two environments on one account. */
  lemma StaleBootstrapCollides(a: string, b: string, crc32: string -> nat)
    requires ValidSlug(a) && ValidSlug(b) && a != b
    ensures var withA := Perform(State([], DEFAULT_ENV_NAME), Create(a), crc32);
            |withA.environments| == 1 &&
            var env := withA.environments[0];
            var later := Perform(Perform(withA, Remove(a), crc32), Create(b), crc32);
            && |BootstrapRecorded(later, env).environments| == 2
            && !Inv(BootstrapRecorded(later, env).environments)
  {
    hide Format12, FirstFreeAccount, LeastFree, Slugify, ValidSlug, Fits;
    var withA := Perform(State([], DEFAULT_ENV_NAME), Create(a), crc32);
    CreateOnEmpty(DEFAULT_ENV_NAME, a, crc32);
    var env := withA.environments[0];
    SlugifyFixes(a);
    assert Find([env], a) == 0;
    var removed := Perform(withA, Remove(a), crc32);
    assert removed.environments == [];
    CreateOnEmpty(removed.defaultEnv, b, crc32);
    var other := Perform(removed, Create(b), crc32).environments[0];
    assert Find([other], a) == 1;
    assert BootstrapRecorded(Perform(removed, Create(b), crc32), env).environments == [other] + [env];
    assert other in [other];
    DistinctAppend([other], env);
  }

  lemma CreateOnEmpty(defaultEnv: string, slug: string, crc32: string -> nat)
    requires ValidSlug(slug)
    ensures var s := Perform(State([], defaultEnv), Create(slug), crc32);
            && |s.environments| == 1 && s.environments[0].slug == slug
            && s.environments[0].accountId == AccountFor([]) && s.defaultEnv == defaultEnv
  {
    hide Format12, FirstFreeAccount, LeastFree, Slugify, ValidSlug;
    SlugifyFixes(slug);
    assert UsedSlots([]) == {};
    SlotForMeans({}, crc32(slug));
  }

  // ---------------------------------------------------------------------------
  // Host ports
  // ---------------------------------------------------------------------------

  function FlociPort(base: nat, slot: nat): nat { base + slot * PORTS_PER_ENV }
  function TrinoPort(base: nat, slot: nat): nat { FlociPort(base, slot) + 1 }
  function GraphPort(base: nat, slot: nat): nat { FlociPort(base, slot) + 2 }
  function SparePort(base: nat, slot: nat): nat { FlociPort(base, slot) + 3 }
  function K3sPort(base: nat, slot: nat): nat { base + MAX_ENVS * PORTS_PER_ENV + slot }

  function Ports(base: nat, slot: nat): seq<nat> {
    [FlociPort(base, slot), TrinoPort(base, slot), GraphPort(base, slot), SparePort(base, slot), K3sPort(base, slot)]
  }

  /** The first and last port `env_port_range` publishes. */
  function EnvPortRange(base: nat): (nat, int) {
    (base, base + MAX_ENVS * (PORTS_PER_ENV + K3S_PORTS_PER_ENV) - 1)
  }

  /** An environment's four ports follow one another from its slot's on, the cluster port lies
      above every slot's, the range ends with the last of those, and slot 0's spare is the
      port the Deployment GUI is published at. */
  lemma PortLayout(base: nat, slot: nat)
    requires slot < 16
    ensures Ports(base, slot)[..4] == [base + 4 * slot, base + 4 * slot + 1, base + 4 * slot + 2, base + 4 * slot + 3]
    ensures K3sPort(base, slot) == base + 64 + slot && TrinoPort(base, slot) < GraphPort(base, slot) < SparePort(base, slot)
    ensures EnvPortRange(base) == (FlociPort(base, 0), K3sPort(base, 15))
    ensures SparePort(19000, 0) == 19003
  {
  }

  /** In a registry that keeps its invariant no two ports collide, within an environment or
      across environments, and all are inside the published range. */
  lemma PortsDisjoint(envs: seq<LocalEnvironment>, base: nat, i: nat, j: nat, a: nat, b: nat)
    requires Inv(envs) && i < |envs| && j < |envs| && a < 5 && b < 5
    ensures EnvPortRange(base).0 <= Ports(base, envs[i].portSlot)[a] <= EnvPortRange(base).1
    ensures Ports(base, envs[i].portSlot)[a] == Ports(base, envs[j].portSlot)[b] ==> i == j && a == b
  {
    var s, t := envs[i].portSlot, envs[j].portSlot;
    if i != j {
      assert Apart(envs[if i < j then i else j], envs[if i < j then j else i]);
    }
    assert Fits(envs[i]) && Fits(envs[j]);
  }
}
