/** Pruning unusable API Gateway records from the emulator's persisted state.

    Source: `floci_deployer.py`, `prune_apigateway_ghosts`. One file holds the REST APIs, the
    others the records hanging off them, keyed by the API's id; any file may be unreadable and
    any may refuse to be written. */
module ApiGatewayGhosts {
  import opened Common

  datatype Json = Null | Bool(b: bool) | Num(n: int) | Str(s: string) | Arr(items: seq<Json>) | Obj(fields: map<string, Json>)

  type Records = map<string, Json>

  /** `None` is a file that cannot be read or does not hold a JSON object. */
  type Files = map<string, Option<Records>>

  const API_STORE := "apigateway-apis.json"

  /** The glob `apigateway-*.json`. */
  predicate IsStore(name: string) {
    && |name| >= |"apigateway-"| + |".json"|
    && "apigateway-" <= name && name[|name| - |".json"|..] == ".json"
  }

  predicate Truthy(j: Json) {
    match j
    case Null => false
    case Bool(b) => b
    case Num(n) => n != 0
    case Str(s) => s != ""
    case Arr(items) => items != []
    case Obj(fields) => fields != map[]
  }

  function Get(record: Json, field: string): Json
    requires record.Obj?
  {
    if field in record.fields then record.fields[field] else Null
  }

  predicate IsGhost(record: Json) {
    !record.Obj? || !Truthy(Get(record, "id")) || !Truthy(Get(record, "name"))
  }

  /** A list or an object cannot go into the source's set of live ids. */
  predicate Hashable(j: Json) {
    !j.Arr? && !j.Obj?
  }

  /** The values Python takes for false. */
  const FALSY := {Null, Bool(false), Num(0), Str(""), Arr([]), Obj(map[])}

  /** What makes a record unusable: it is no object, or it lacks an id or a name or holds one
      that says nothing. */
  lemma GhostMeans(record: Json)
    ensures IsGhost(record)
            <==> || !record.Obj?
                 || "id" !in record.fields || record.fields["id"] in FALSY
                 || "name" !in record.fields || record.fields["name"] in FALSY
  {
    forall j: Json ensures Truthy(j) <==> j !in FALSY {}
  }

  /** The glob takes the REST API stores and not those of the HTTP APIs. */
  lemma StoreNames(middle: string, other: string)
    ensures IsStore("apigateway-" + middle + ".json")
    ensures !IsStore("apigatewayv2-" + other)
  {
    var name := "apigateway-" + middle + ".json";
    assert name[|name| - 5..] == ".json";
    assert ("apigatewayv2-" + other)[10] == 'v' && "apigateway-"[10] == '-';
  }

  // ---------------------------------------------------------------------------
  // The API a child record hangs off
  // ---------------------------------------------------------------------------

  /** The first colon from `i` on, or the end. */
  function ColonFrom(key: string, i: nat): (j: nat)
    requires i <= |key|
    ensures i <= j <= |key|
    ensures forall k :: i <= k < j ==> key[k] != ':'
    ensures j < |key| ==> key[j] == ':'
    decreases |key| - i
  {
    if i == |key| || key[i] == ':' then i else ColonFrom(key, i + 1)
  }

  predicate TwoColons(key: string, i: nat) {
    i + 2 <= |key| && key[i] == ':' && key[i + 1] == ':'
  }

  /** `^.*?::([^:]+)::` matched at prefix length `i` or later; `.` does not match a newline. */
  function MatchFrom(key: string, i: nat): Option<string>
    requires i <= |key|
    decreases |key| - i
  {
    if TwoColons(key, i) && ColonFrom(key, i + 2) > i + 2 && TwoColons(key, ColonFrom(key, i + 2))
    then Some(key[i + 2..ColonFrom(key, i + 2)])
    else if i == |key| || key[i] == '\n' then None
    else MatchFrom(key, i + 1)
  }

  function ApiOf(key: string): Option<string> {
    MatchFrom(key, 0)
  }

  /** Two colons, an id without colons, two colons, from `i` on. */
  ghost predicate MatchAt(key: string, i: nat, api: string) {
    && api != "" && (forall k :: 0 <= k < |api| ==> api[k] != ':')
    && i <= |key| && "::" + api + "::" <= key[i..]
  }

  lemma MatchAtMeans(key: string, i: nat)
    requires i <= |key|
    ensures var j := if TwoColons(key, i) then ColonFrom(key, i + 2) else i;
            && (TwoColons(key, i) && j > i + 2 && TwoColons(key, j) ==> MatchAt(key, i, key[i + 2..j]))
            && forall api :: MatchAt(key, i, api) ==> TwoColons(key, i) && j > i + 2 && TwoColons(key, j) && api == key[i + 2..j]
  {
    hide ColonFrom, TwoColons, MatchAt;
    if TwoColons(key, i) {
      TwoColonsFit(key, i);
      var j := ColonFrom(key, i + 2);
      if j > i + 2 && TwoColons(key, j) {
        MatchHere(key, i, j);
      }
    }
    forall api | MatchAt(key, i, api)
      ensures api != "" && TwoColons(key, i) && ColonFrom(key, i + 2) == i + 2 + |api| && TwoColons(key, i + 2 + |api|)
      ensures api == key[i + 2..i + 2 + |api|]
    {
      MatchedParts(key, i, api);
    }
  }

  lemma TwoColonsFit(key: string, i: nat)
    requires TwoColons(key, i)
    ensures i + 2 <= |key|
  {
  }

  lemma MatchHere(key: string, i: nat, j: nat)
    requires TwoColons(key, i) && i + 2 < j && TwoColons(key, j) && forall k :: i + 2 <= k < j ==> key[k] != ':'
    ensures MatchAt(key, i, key[i + 2..j])
  {
    assert key[i..][..j + 2 - i] == "::" + key[i + 2..j] + "::";
  }

  lemma MatchedParts(key: string, i: nat, api: string)
    requires MatchAt(key, i, api)
    ensures api != "" && TwoColons(key, i) && ColonFrom(key, i + 2) == i + 2 + |api| && TwoColons(key, i + 2 + |api|)
    ensures api == key[i + 2..i + 2 + |api|]
  {
    var mark := "::" + api + "::";
    assert forall k :: 0 <= k < |mark| ==> key[i + k] == mark[k] by {
      forall k | 0 <= k < |mark| ensures key[i + k] == mark[k] { assert key[i..][k] == mark[k]; }
    }
    assert mark[0] == ':' && mark[1] == ':';
    assert forall k :: 0 <= k < |api| ==> mark[2 + k] == api[k];
    assert mark[2 + |api|] == ':' && mark[3 + |api|] == ':';
    assert forall k :: 0 <= k < |api| ==> key[i + 2 + k] == api[k];
    ColonAt(key, i + 2, i + 2 + |api|);
  }

  /** What the child-key expression finds, exactly: the leftmost such match that no line end
      comes before, and nothing when there is none. */
  lemma {:induction false} MatchMeans(key: string, i: nat)
    requires i <= |key|
    ensures MatchFrom(key, i).None?
            ==> forall p, api :: i <= p <= |key| && MatchAt(key, p, api) ==> exists k :: i <= k < p && key[k] == '\n'
    ensures MatchFrom(key, i).Some? ==>
              exists p :: && i <= p <= |key| && MatchAt(key, p, MatchFrom(key, i).value)
                          && (forall k :: i <= k < p ==> key[k] != '\n')
                          && forall q, api :: i <= q < p ==> !MatchAt(key, q, api)
    decreases |key| - i
  {
    hide MatchAt, ColonFrom, TwoColons;
    MatchAtMeans(key, i);
    if TwoColons(key, i) && ColonFrom(key, i + 2) > i + 2 && TwoColons(key, ColonFrom(key, i + 2)) {
      assert MatchAt(key, i, MatchFrom(key, i).value);
    } else if i < |key| && key[i] != '\n' {
      MatchMeans(key, i + 1);
      if MatchFrom(key, i).Some? {
        var p :| && i + 1 <= p <= |key| && MatchAt(key, p, MatchFrom(key, i).value)
                 && (forall k :: i + 1 <= k < p ==> key[k] != '\n')
                 && forall q, api :: i + 1 <= q < p ==> !MatchAt(key, q, api);
        assert forall q, api :: i <= q < p ==> !MatchAt(key, q, api);
      }
    }
  }

  ghost predicate Plain(s: string) {
    forall i :: 0 <= i < |s| ==> s[i] != ':' && s[i] != '\n'
  }

  /** A key of the documented shape names its API, whatever follows it. */
  lemma ChildKey(scope: string, api: string, child: string)
    requires Plain(scope) && Plain(api) && api != ""
    ensures ApiOf(scope + "::" + api + "::" + child) == Some(api)
  {
    var key := scope + "::" + api + "::" + child;
    var s, e := |scope|, |scope| + 2 + |api|;
    assert forall i :: 0 <= i < s ==> key[i] == scope[i];
    assert forall i :: s + 2 <= i < e ==> key[i] == api[i - s - 2];
    assert TwoColons(key, s) && TwoColons(key, e);
    assert key[s + 2..e] == api;
    ColonAt(key, s + 2, e);
    SkipPlain(key, 0, s);
  }

  /** The key of an API itself names none. */
  lemma ApiKey(scope: string, api: string)
    requires Plain(scope) && Plain(api)
    ensures ApiOf(scope + "::" + api) == None
  {
    var key := scope + "::" + api;
    var s := |scope|;
    assert forall i :: 0 <= i < s ==> key[i] == scope[i];
    assert forall i :: s + 2 <= i < |key| ==> key[i] == api[i - s - 2];
    assert key[s] == ':' && key[s + 1] == ':';
    SkipPlain(key, 0, s);
    ColonAt(key, s + 2, |key|);
    assert MatchFrom(key, s) == MatchFrom(key, s + 1) == MatchFrom(key, s + 2);
    SkipPlain(key, s + 2, |key|);
  }

  lemma {:induction false} ColonAt(key: string, i: nat, e: nat)
    requires i <= e <= |key| && (e < |key| ==> key[e] == ':')
    requires forall k :: i <= k < e ==> key[k] != ':'
    ensures ColonFrom(key, i) == e
    decreases |key| - i
  {
    if i < e {
      ColonAt(key, i + 1, e);
    }
  }

  lemma {:induction false} SkipPlain(key: string, i: nat, e: nat)
    requires i <= e <= |key| && forall k :: i <= k < e ==> key[k] != ':' && key[k] != '\n'
    ensures MatchFrom(key, i) == MatchFrom(key, e)
    decreases |key| - i
  {
    if i < e {
      SkipPlain(key, i + 1, e);
    }
  }

  // ---------------------------------------------------------------------------
  // Pruning
  // ---------------------------------------------------------------------------

  function KeptApis(apis: Records): Records {
    map k | k in apis && !IsGhost(apis[k]) :: apis[k]
  }

  function LiveIds(apis: Records): set<Json> {
    set k | k in apis && !IsGhost(apis[k]) :: Get(apis[k], "id")
  }

  predicate Orphan(key: string, live: set<Json>) {
    ApiOf(key).Some? && Str(ApiOf(key).value) !in live
  }

  function KeptChildren(records: Records, live: set<Json>): Records {
    map k | k in records && !Orphan(k, live) :: records[k]
  }

  predicate Readable(files: Files, name: string) {
    name in files && files[name].Some?
  }

  predicate Unhashable(files: Files) {
    Readable(files, API_STORE) && exists id :: id in LiveIds(files[API_STORE].value) && !Hashable(id)
  }

  /** Whether pruning gets past the API store: it can be read, its ids are usable, and it can
      be written if it must be. */
  predicate Proceeds(files: Files, unwritable: set<string>) {
    && Readable(files, API_STORE) && !Unhashable(files)
    && (KeptApis(files[API_STORE].value) != files[API_STORE].value ==> API_STORE !in unwritable)
  }

  function Swept(files: Files, unwritable: set<string>, name: string): Option<Records>
    requires name in files && Readable(files, API_STORE)
  {
    var apis := files[API_STORE].value;
    if !IsStore(name) || files[name].None? then files[name]
    else if name == API_STORE then Some(KeptApis(apis))
    else if name in unwritable then files[name]
    else Some(KeptChildren(files[name].value, LiveIds(apis)))
  }

  /** The files after a call. */
  function Pruned(files: Files, unwritable: set<string>): Files {
    if Proceeds(files, unwritable) then map name | name in files :: Swept(files, unwritable, name) else files
  }

  function Size(files: Files, name: string): nat {
    if Readable(files, name) then |files[name].value| else 0
  }

  function Total(files: Files, stores: seq<string>): nat {
    if stores == [] then 0 else Total(files, stores[..|stores| - 1]) + Size(files, stores[|stores| - 1])
  }

  /** What the directory scan returns: each store once. */
  ghost predicate Lists(stores: seq<string>, files: Files) {
    && (forall i, j :: 0 <= i < j < |stores| ==> stores[i] != stores[j])
    && (forall name :: name in stores <==> name in files && IsStore(name))
  }

  lemma {:induction false} TotalUpdate(files: Files, stores: seq<string>, name: string, records: Records)
    requires forall i, j :: 0 <= i < j < |stores| ==> stores[i] != stores[j]
    ensures Total(files[name := Some(records)], stores)
            == Total(files, stores) + if name in stores then |records| - Size(files, name) else 0
  {
    if stores != [] {
      var init, last := stores[..|stores| - 1], stores[|stores| - 1];
      assert stores == init + [last];
      TotalUpdate(files, init, name, records);
      if last == name {
        assert name !in init;
      }
    }
  }

  lemma KeptCards(records: Records, live: set<Json>)
    ensures |KeptApis(records)| <= |records| && |KeptChildren(records, live)| <= |records|
    ensures |KeptApis(records)| == |records| ==> KeptApis(records) == records
    ensures |KeptChildren(records, live)| == |records| ==> KeptChildren(records, live) == records
  {
    SubsetCard(KeptApis(records).Keys, records.Keys);
    SubsetCard(KeptChildren(records, live).Keys, records.Keys);
  }

  class DataDir {
    var files: Files

    constructor (files: Files)
      ensures this.files == files
    {
      this.files := files;
    }

    /** `scan` is what listing the stores yields, `None` if it fails; the result is `None` when
        an id that cannot be hashed raises. The count is exactly what left the stores, also
        when some could not be written. */
    method PruneApigatewayGhosts(scan: Option<seq<string>>, unwritable: set<string>) returns (removed: Option<nat>)
      requires scan.Some? ==> Lists(scan.value, files)
      modifies this
      ensures files == if scan.None? then old(files) else Pruned(old(files), unwritable)
      ensures removed.None? <==> scan.Some? && Unhashable(old(files))
      ensures removed.Some? && scan.Some? ==> removed.value == Total(old(files), scan.value) - Total(files, scan.value)
      ensures scan.None? ==> removed == Some(0)
    {
      hide IsStore, KeptApis, KeptChildren, LiveIds, Total, Swept, Half, Pruned, Proceeds, Unhashable, Lists, Size;
      if scan.None? || scan.value == [] {
        if scan.Some? { NoStores(files, unwritable); }
        return Some(0);
      }
      var stores := scan.value;
      WhenStopped(files, unwritable);
      if API_STORE !in files || files[API_STORE].None? {
        return Some(0);
      }
      if Unhashable(files) {
        return None;
      }
      ListsMeans(stores, files);
      var apis := files[API_STORE].value;
      var live, kept := LiveIds(apis), KeptApis(apis);
      KeptCards(apis, live);
      HalfNone(files, unwritable);
      var count := |apis| - |kept|;
      if count > 0 {
        if API_STORE in unwritable {
          return Some(0);
        }
        TotalUpdate(files, stores, API_STORE, kept);
        SizeMeans(files, API_STORE);
        files := files[API_STORE := Some(kept)];
      }
      ghost var done := {API_STORE};
      var i := 0;
      while i < |stores|
        invariant 0 <= i <= |stores| && count >= 0
        invariant API_STORE in done
        invariant forall n :: n in stores ==> (n in done <==> n == API_STORE || n in stores[..i])
        invariant files == Half(old(files), unwritable, done)
        invariant count == Total(old(files), stores) - Total(files, stores)
      {
        var name := stores[i];
        assert stores[..i + 1] == stores[..i] + [name];
        if name != API_STORE {
          assert name in stores && name !in stores[..i];
          HalfStep(old(files), unwritable, done, name);
          done := done + {name};
          if files[name].Some? && files[name].value != map[] {
            var records := files[name].value;
            var left := KeptChildren(records, live);
            KeptCards(records, live);
            if |records| > |left| && name !in unwritable {
              TotalUpdate(files, stores, name, left);
              SizeMeans(files, name);
              files := files[name := Some(left)];
              count := count + |records| - |left|;
            }
          }
        }
        i := i + 1;
      }
      assert stores[..i] == stores;
      HalfAll(old(files), unwritable, done);
      removed := Some(count);
    }
  }

  lemma SizeMeans(files: Files, name: string)
    requires name in files && files[name].Some?
    ensures Size(files, name) == |files[name].value|
  {
  }

  lemma ListsMeans(stores: seq<string>, files: Files)
    requires Lists(stores, files)
    ensures forall i, j :: 0 <= i < j < |stores| ==> stores[i] != stores[j]
    ensures forall name :: name in stores <==> name in files && IsStore(name)
    ensures API_STORE in files ==> API_STORE in stores
  {
    assert IsStore(API_STORE);
  }

  lemma WhenStopped(files: Files, unwritable: set<string>)
    ensures !Readable(files, API_STORE) ==> Pruned(files, unwritable) == files && !Unhashable(files)
    ensures Unhashable(files) ==> Pruned(files, unwritable) == files
    ensures Readable(files, API_STORE) && !Unhashable(files) ==>
              var apis := files[API_STORE].value;
              (Proceeds(files, unwritable) <==> KeptApis(apis) == apis || API_STORE !in unwritable)
              && (!Proceeds(files, unwritable) ==> Pruned(files, unwritable) == files)
  {
  }

  /** The files once those named in `done` have been dealt with. */
  ghost function Half(files: Files, unwritable: set<string>, done: set<string>): Files
    requires Readable(files, API_STORE)
  {
    map name | name in files :: if name in done then Swept(files, unwritable, name) else files[name]
  }

  lemma HalfNone(files: Files, unwritable: set<string>)
    requires Readable(files, API_STORE)
    ensures Half(files, unwritable, {API_STORE}) == files[API_STORE := Some(KeptApis(files[API_STORE].value))]
    ensures KeptApis(files[API_STORE].value) == files[API_STORE].value ==> Half(files, unwritable, {API_STORE}) == files
  {
    assert IsStore(API_STORE);
  }

  lemma HalfStep(files: Files, unwritable: set<string>, done: set<string>, name: string)
    requires Readable(files, API_STORE) && name in files && IsStore(name) && name != API_STORE && name !in done
    ensures name in Half(files, unwritable, done) && Half(files, unwritable, done)[name] == files[name]
    ensures Half(files, unwritable, done + {name})
            == Half(files, unwritable, done)
                 [name := if files[name].None? || name in unwritable then files[name]
                          else Some(KeptChildren(files[name].value, LiveIds(files[API_STORE].value)))]
    ensures KeptChildren(map[], LiveIds(files[API_STORE].value)) == map[]
  {
    hide KeptApis, LiveIds;
  }

  lemma HalfAll(files: Files, unwritable: set<string>, done: set<string>)
    requires Proceeds(files, unwritable)
    requires forall name :: name in files && IsStore(name) ==> name in done
    ensures Half(files, unwritable, done) == Pruned(files, unwritable)
  {
    hide KeptApis, KeptChildren, LiveIds;
  }

  lemma NoStores(files: Files, unwritable: set<string>)
    requires Lists([], files)
    ensures Pruned(files, unwritable) == files && !Unhashable(files)
  {
    assert IsStore(API_STORE);
  }

  // ---------------------------------------------------------------------------
  // What is left
  // ---------------------------------------------------------------------------

  ghost predicate HasGhost(files: Files) {
    Readable(files, API_STORE) && exists k :: k in files[API_STORE].value && IsGhost(files[API_STORE].value[k])
  }

  /** Some record of this store names an API the API store does not hold in usable form. */
  ghost predicate HasOrphan(files: Files, name: string)
    requires Readable(files, API_STORE)
  {
    Readable(files, name) && exists k :: k in files[name].value && Orphan(k, LiveIds(files[API_STORE].value))
  }

  /** The ids in use are the same before and after. */
  lemma LiveUnchanged(files: Files, unwritable: set<string>)
    requires Readable(files, API_STORE)
    ensures var after := Pruned(files, unwritable);
            && Readable(after, API_STORE)
            && LiveIds(after[API_STORE].value) == LiveIds(files[API_STORE].value)
  {
    var apis := files[API_STORE].value;
    var after := Pruned(files, unwritable);
    if Proceeds(files, unwritable) {
      assert IsStore(API_STORE);
      assert after[API_STORE] == Some(KeptApis(apis));
      forall id | id in LiveIds(apis) ensures id in LiveIds(KeptApis(apis)) {
        var k :| k in apis && !IsGhost(apis[k]) && Get(apis[k], "id") == id;
        assert k in KeptApis(apis);
      }
    }
  }

  /** Some usable record has a list or an object for an id. */
  ghost predicate HasOddId(files: Files) {
    && Readable(files, API_STORE)
    && exists k :: && k in files[API_STORE].value && !IsGhost(files[API_STORE].value[k])
                   && (Get(files[API_STORE].value[k], "id").Arr? || Get(files[API_STORE].value[k], "id").Obj?)
  }

  lemma ProceedsMeans(files: Files, unwritable: set<string>)
    requires Readable(files, API_STORE)
    ensures Unhashable(files) <==> HasOddId(files)
    ensures Proceeds(files, unwritable) <==> !HasOddId(files) && (HasGhost(files) ==> API_STORE !in unwritable)
  {
    var apis := files[API_STORE].value;
    if k :| k in apis && !IsGhost(apis[k]) && !Hashable(Get(apis[k], "id")) {
      assert Get(apis[k], "id") in LiveIds(apis);
    }
    if HasGhost(files) {
      var k :| k in apis && IsGhost(apis[k]);
      assert k !in KeptApis(apis);
    } else {
      assert KeptApis(apis) == apis;
    }
  }

  /** Exactly when ghosts and orphans survive: there were some, and the call was held up by an
      id it cannot use or by ghosts in an API store it cannot write, or the orphans' own file
      could not be written. An orphan is a record whose key names an API that no usable record
      has the id of. */
  lemma WhatSurvives(files: Files, unwritable: set<string>, name: string)
    requires Readable(files, API_STORE) && IsStore(name) && name != API_STORE
    ensures var after := Pruned(files, unwritable);
            var held := HasOddId(files) || (HasGhost(files) && API_STORE in unwritable);
            && Readable(after, API_STORE)
            && (HasGhost(after) <==> HasGhost(files) && held)
            && (HasOrphan(after, name) <==> HasOrphan(files, name) && (name in unwritable || held))
  {
    var after := Pruned(files, unwritable);
    LiveUnchanged(files, unwritable);
    ProceedsMeans(files, unwritable);
    assert IsStore(API_STORE);
    if Proceeds(files, unwritable) {
      assert after[API_STORE] == Some(KeptApis(files[API_STORE].value));
      if Readable(files, name) && name !in unwritable {
        assert after[name] == Some(KeptChildren(files[name].value, LiveIds(files[API_STORE].value)));
      }
    }
  }

  lemma OrphanMeans(files: Files, key: string)
    requires Readable(files, API_STORE)
    ensures Orphan(key, LiveIds(files[API_STORE].value))
            <==> && ApiOf(key).Some?
                 && forall k :: k in files[API_STORE].value && !IsGhost(files[API_STORE].value[k]) ==>
                      Get(files[API_STORE].value[k], "id") != Str(ApiOf(key).value)
  {
    hide ApiOf;
    var apis := files[API_STORE].value;
    forall k | k in apis && !IsGhost(apis[k]) ensures Get(apis[k], "id") in LiveIds(apis) {}
  }

  /** Nothing in use is lost, whatever fails: usable APIs, their children, records of any other
      key shape and files of any other name stay as they were, and nothing is added. */
  lemma NothingUsableLost(files: Files, unwritable: set<string>, name: string, key: string)
    requires Readable(files, name) && key in files[name].value
    requires name == API_STORE ==> !IsGhost(files[name].value[key])
    requires name != API_STORE && IsStore(name) && Readable(files, API_STORE) ==>
               !Orphan(key, LiveIds(files[API_STORE].value))
    ensures var after := Pruned(files, unwritable);
            && Readable(after, name) && key in after[name].value
            && after[name].value[key] == files[name].value[key]
  {
  }

  lemma NothingAdded(files: Files, unwritable: set<string>, name: string)
    ensures var after := Pruned(files, unwritable);
            && (Readable(after, name) <==> Readable(files, name))
            && (Readable(files, name) ==> after[name].value.Items <= files[name].value.Items)
  {
  }

  /** A second call over the same failures changes nothing, so it removes nothing. */
  lemma PruneIdempotent(files: Files, unwritable: set<string>)
    ensures Pruned(Pruned(files, unwritable), unwritable) == Pruned(files, unwritable)
  {
    if Proceeds(files, unwritable) {
      var after := Pruned(files, unwritable);
      LiveUnchanged(files, unwritable);
      var live := LiveIds(files[API_STORE].value);
      assert IsStore(API_STORE);
      var kept := KeptApis(files[API_STORE].value);
      assert after[API_STORE] == Some(kept) && KeptApis(kept) == kept;
      forall name | name in files ensures Swept(after, unwritable, name) == after[name] {
        if IsStore(name) && files[name].Some? && name != API_STORE && name !in unwritable {
          var left := KeptChildren(files[name].value, live);
          assert KeptChildren(left, live) == left;
        }
      }
      if Proceeds(after, unwritable) {
        assert Pruned(after, unwritable).Keys == after.Keys;
      }
    }
  }
}
