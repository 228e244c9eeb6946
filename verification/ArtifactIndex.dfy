/** The index of bundled artifacts: for every repo class, the newest version any root bundles.

    Source: `bom_seeder.py`, `_version_sort_key` and `_artifact_version_index`. */
module ArtifactIndex {
  import opened Common

  // ---------------------------------------------------------------------------
  // Version keys
  // ---------------------------------------------------------------------------

  /** `(1, n, "")` or `(0, 0, word)`. */
  datatype Component = Number(n: int) | Word(w: string)

  predicate IsDigits(part: string) {
    part != "" && forall i :: 0 <= i < |part| ==> '0' <= part[i] <= '9'
  }

  function ComponentOf(part: string): Component {
    if IsDigits(part) then Number(Parse(part)) else Word(part)
  }

  function DotFrom(s: string): (i: nat)
    ensures i <= |s| && (i < |s| ==> s[i] == '.') && forall k :: 0 <= k < i ==> s[k] != '.'
  {
    if s == "" || s[0] == '.' then 0 else 1 + DotFrom(s[1..])
  }

  /** `version.split(".")`. */
  function Split(s: string): (parts: seq<string>)
    ensures parts != []
    decreases |s|
  {
    var i := DotFrom(s);
    if i == |s| then [s] else [s[..i]] + Split(s[i + 1..])
  }

  function Components(parts: seq<string>): (key: seq<Component>)
    ensures |key| == |parts| && forall i :: 0 <= i < |key| ==> key[i] == ComponentOf(parts[i])
  {
    seq(|parts|, i requires 0 <= i < |parts| => ComponentOf(parts[i]))
  }

  function KeyOf(version: string): seq<Component> {
    Components(Split(version))
  }

  predicate ComponentLess(a: Component, b: Component) {
    match a
    case Number(n) => b.Number? && n < b.n
    case Word(w) => b.Number? || StringLess(w, b.w)
  }

  /** Python's comparison of tuples. */
  predicate KeyLess(a: seq<Component>, b: seq<Component>) {
    if b == [] then false
    else if a == [] then true
    else ComponentLess(a[0], b[0]) || (a[0] == b[0] && KeyLess(a[1..], b[1..]))
  }

  /** `version < other` by their keys. */
  predicate Older(version: string, other: string) {
    KeyLess(KeyOf(version), KeyOf(other))
  }

  lemma ComponentOrder(a: Component, b: Component, c: Component)
    ensures a == b || ComponentLess(a, b) || ComponentLess(b, a)
    ensures !(ComponentLess(a, b) && ComponentLess(b, a))
    ensures ComponentLess(a, b) && ComponentLess(b, c) ==> ComponentLess(a, c)
  {
    if a.Word? && b.Word? {
      StringTrichotomy(a.w, b.w);
      StringLessAsymmetric(a.w, b.w);
      if c.Word? && StringLess(a.w, b.w) && StringLess(b.w, c.w) {
        StringLessTransitive(a.w, b.w, c.w);
      }
    }
  }

  lemma {:induction false} KeyOrder(a: seq<Component>, b: seq<Component>, c: seq<Component>)
    ensures a == b || KeyLess(a, b) || KeyLess(b, a)
    ensures !(KeyLess(a, b) && KeyLess(b, a))
    ensures KeyLess(a, b) && KeyLess(b, c) ==> KeyLess(a, c)
  {
    hide ComponentLess;
    if a != [] && b != [] {
      ComponentOrder(a[0], b[0], if c == [] then a[0] else c[0]);
      KeyOrder(a[1..], b[1..], if c == [] then [] else c[1..]);
      assert a == [a[0]] + a[1..] && b == [b[0]] + b[1..];
    }
  }

  /** `Older` is a total preorder's strict part on arbitrary strings: nothing is older than
      itself, two versions neither of which is older have the same key, and being no older
      carries over. */
  lemma OlderIsTotal(a: string, b: string, c: string)
    ensures !Older(a, a)
    ensures !Older(a, b) && !Older(b, a) <==> KeyOf(a) == KeyOf(b)
    ensures !Older(a, b) && !Older(b, c) ==> !Older(a, c)
    ensures !Older(b, a) && Older(b, c) ==> Older(a, c)
    ensures Older(a, b) ==> !Older(b, a)
  {
    hide KeyOf;
    KeyOrder(KeyOf(a), KeyOf(a), KeyOf(a));
    KeyOrder(KeyOf(a), KeyOf(b), KeyOf(c));
    KeyOrder(KeyOf(b), KeyOf(c), KeyOf(a));
    KeyOrder(KeyOf(c), KeyOf(a), KeyOf(b));
    KeyOrder(KeyOf(a), KeyOf(c), KeyOf(b));
    KeyOrder(KeyOf(c), KeyOf(b), KeyOf(a));
    KeyOrder(KeyOf(b), KeyOf(a), KeyOf(c));
  }

  // ---------------------------------------------------------------------------
  // Build numbers
  // ---------------------------------------------------------------------------

  lemma {:induction false} SplitLast(s: string, part: string)
    requires forall i :: 0 <= i < |part| ==> part[i] != '.'
    ensures Split(part) == [part]
    ensures Split(s + "." + part) == Split(s) + [part]
    decreases |s|
  {
    hide DotFrom;
    var whole := s + "." + part;
    var i := DotFrom(s);
    NoDot(part);
    FirstDot(s, part);
    if i == |s| {
      assert whole[..i] == s && whole[i + 1..] == part;
    } else {
      assert whole[..i] == s[..i] && whole[i + 1..] == s[i + 1..] + "." + part;
      SplitLast(s[i + 1..], part);
    }
  }

  lemma NoDot(part: string)
    requires forall i :: 0 <= i < |part| ==> part[i] != '.'
    ensures DotFrom(part) == |part|
  {
  }

  lemma FirstDot(s: string, part: string)
    ensures DotFrom(s + "." + part) == DotFrom(s)
  {
    hide DotFrom;
    var whole := s + "." + part;
    assert whole[|s|] == '.';
    assert forall k :: 0 <= k < |s| ==> whole[k] == s[k];
  }

  lemma {:induction false} DigitsAreDigits(n: nat)
    ensures IsDigits(Digits(n))
  {
    if n >= 10 {
      DigitsAreDigits(n / 10);
    }
  }

  lemma {:induction false} LastDecides(init: seq<Component>, a: Component, b: Component)
    ensures KeyLess(init + [a], init + [b]) <==> ComponentLess(a, b)
  {
    hide ComponentLess;
    if init == [] {
      assert [] + [a] == [a] && [] + [b] == [b] && [a][1..] == [] && [b][1..] == [];
    } else {
      assert (init + [a])[1..] == init[1..] + [a] && (init + [b])[1..] == init[1..] + [b];
      LastDecides(init[1..], a, b);
      ComponentOrder(init[0], init[0], init[0]);
    }
  }

  /** Of two builds of one release line the one with the smaller build number is older, and a
      build that is no number is older than every one that is. */
  lemma BuildNumbersOrder(release: string, m: nat, n: nat, word: string)
    requires !IsDigits(word) && forall i :: 0 <= i < |word| ==> word[i] != '.'
    ensures Older(release + "." + Digits(m), release + "." + Digits(n)) <==> m < n
    ensures Older(release + "." + word, release + "." + Digits(n))
  {
    hide KeyOf, KeyLess, IsDigits;
    DigitsAreDigits(m);
    DigitsAreDigits(n);
    ParseDigits(m);
    ParseDigits(n);
    KeyOfBuild(release, Digits(m));
    KeyOfBuild(release, Digits(n));
    KeyOfBuild(release, word);
    LastDecides(KeyOf(release), Number(m), Number(n));
    LastDecides(KeyOf(release), Word(word), Number(n));
  }

  lemma KeyOfBuild(release: string, part: string)
    requires IsDigits(part) || forall i :: 0 <= i < |part| ==> part[i] != '.'
    ensures KeyOf(release + "." + part) == KeyOf(release) + [ComponentOf(part)]
  {
    SplitLast(release, part);
  }

  // ---------------------------------------------------------------------------
  // The index
  // ---------------------------------------------------------------------------

  /** A child directory of a root: its name, the text of its `VERSION` file if it can be read,
      and the name in its manifest, empty when there is none. */
  datatype Child = Child(name: string, version: Option<string>, manifestName: string)

  /** A root and its children in name order, `None` if it cannot be listed. */
  datatype Root = Root(path: string, children: Option<seq<Child>>)

  datatype Artifact = Artifact(repoClass: string, version: string, dir: string)

  function ArtifactOf(root: Root, child: Child): Option<Artifact> {
    if child.version.None? || Strip(child.version.value) == "" then None
    else Some(Artifact(if child.manifestName == "" then child.name else child.manifestName,
                       Strip(child.version.value), root.path + "/" + child.name))
  }

  type Index = map<string, (string, string)>

  /** One artifact met: a strictly newer version takes over, any other is shadowed. */
  function Met(index: Index, a: Artifact): Index {
    if a.repoClass in index && !Older(index[a.repoClass].0, a.version) then index
    else index[a.repoClass := (a.version, a.dir)]
  }

  function MetAll(found: seq<Artifact>): Index {
    if found == [] then map[] else Met(MetAll(found[..|found| - 1]), found[|found| - 1])
  }

  /** The artifacts in scan order. */
  function InRoot(root: Root, children: seq<Child>): seq<Artifact> {
    if children == [] then []
    else
      var a := ArtifactOf(root, children[|children| - 1]);
      InRoot(root, children[..|children| - 1]) + if a.Some? then [a.value] else []
  }

  function Scanned(roots: seq<Root>): seq<Artifact> {
    if roots == [] then []
    else
      var root := roots[|roots| - 1];
      Scanned(roots[..|roots| - 1]) + if root.children.Some? then InRoot(root, root.children.value) else []
  }

  /** What counts as an artifact, and under which name: a child whose `VERSION` can be read and
      says something, under its manifest's name if it has one and else its directory's, with
      the version stripped, of a root that can be listed. */
  lemma {:induction false} ScannedMeans(roots: seq<Root>, a: Artifact)
    ensures a in Scanned(roots) <==> exists r :: 0 <= r < |roots| && Holds(roots[r], a)
  {
    hide *;
    if roots == [] {
      ScannedParts([], a);
    } else {
      var last := |roots| - 1;
      ScannedMeans(roots[..last], a);
      ScannedParts(roots, a);
      if r :| 0 <= r < last && Holds(roots[..last][r], a) {
        assert Holds(roots[r], a);
      }
      if r :| 0 <= r < |roots| && Holds(roots[r], a) {
        assert r < last ==> Holds(roots[..last][r], a);
      }
    }
  }

  lemma ScannedParts(roots: seq<Root>, a: Artifact)
    ensures roots == [] ==> a !in Scanned(roots)
    ensures roots != [] ==>
              (a in Scanned(roots) <==> a in Scanned(roots[..|roots| - 1]) || Holds(roots[|roots| - 1], a))
  {
    if roots != [] {
      hide IsArtifact, InRoot;
      var root := roots[|roots| - 1];
      if root.children.Some? {
        InRootMeans(root, root.children.value, a);
      }
    }
  }

  ghost predicate Holds(root: Root, a: Artifact) {
    root.children.Some? && exists c :: 0 <= c < |root.children.value| && IsArtifact(root, root.children.value[c], a)
  }

  ghost predicate IsArtifact(root: Root, child: Child, a: Artifact) {
    && child.version.Some? && Strip(child.version.value) != "" && a.version == Strip(child.version.value)
    && a.repoClass == (if child.manifestName != "" then child.manifestName else child.name)
    && a.dir == root.path + "/" + child.name
  }

  lemma {:induction false} InRootMeans(root: Root, children: seq<Child>, a: Artifact)
    ensures a in InRoot(root, children) <==> exists c :: 0 <= c < |children| && IsArtifact(root, children[c], a)
  {
    if children != [] {
      hide IsArtifact;
      var init, last := children[..|children| - 1], children[|children| - 1];
      InRootMeans(root, init, a);
      ArtifactMeans(root, last, a);
      if c :| 0 <= c < |init| && IsArtifact(root, init[c], a) {
        assert children[c] == init[c];
      }
      if c :| 0 <= c < |children| && IsArtifact(root, children[c], a) {
        assert c < |init| ==> init[c] == children[c];
      }
    }
  }

  lemma ArtifactMeans(root: Root, child: Child, a: Artifact)
    ensures ArtifactOf(root, child) == Some(a) <==> IsArtifact(root, child, a)
  {
    hide Strip;
  }

  /** Earlier roots are scanned first, and within a root earlier children. */
  lemma {:induction false} ScanOrder(earlier: seq<Root>, later: seq<Root>)
    ensures Scanned(earlier + later) == Scanned(earlier) + Scanned(later)
  {
    hide InRoot;
    if later == [] {
      assert earlier + later == earlier;
    } else {
      ScanOrder(earlier, later[..|later| - 1]);
      assert (earlier + later)[..|earlier + later| - 1] == earlier + later[..|later| - 1];
    }
  }

  lemma {:induction false} ChildOrder(root: Root, earlier: seq<Child>, later: seq<Child>)
    ensures InRoot(root, earlier + later) == InRoot(root, earlier) + InRoot(root, later)
  {
    hide ArtifactOf;
    if later == [] {
      assert earlier + later == earlier;
    } else {
      ChildOrder(root, earlier, later[..|later| - 1]);
      assert (earlier + later)[..|earlier + later| - 1] == earlier + later[..|later| - 1];
    }
  }

  /** The loop over all roots. */
  method ArtifactVersionIndex(roots: seq<Root>) returns (index: Index)
    ensures index == MetAll(Scanned(roots))
  {
    index := map[];
    ScannedStep(roots, 0);
    for r := 0 to |roots|
      invariant index == MetAll(Scanned(roots[..r]))
    {
      hide MetAll, InRoot, Scanned;
      ScannedStep(roots, r);
      if roots[r].children.Some? {
        index := ScanRoot(index, roots[r], roots[r].children.value, Scanned(roots[..r]));
      } else {
        assert Scanned(roots[..r]) + [] == Scanned(roots[..r]);
      }
    }
    assert roots[..|roots|] == roots;
  }

  /** The loop over one root's children, with the artifacts of earlier roots in the index. */
  method ScanRoot(before: Index, root: Root, children: seq<Child>, ghost earlier: seq<Artifact>) returns (index: Index)
    requires before == MetAll(earlier)
    ensures index == MetAll(earlier + InRoot(root, children))
  {
    hide Older, MetAll, InRoot, ArtifactOf;
    index := before;
    InRootStep(root, children, 0);
    assert earlier + [] == earlier;
    for c := 0 to |children|
      invariant index == MetAll(earlier + InRoot(root, children[..c]))
    {
      var artifact := ArtifactOf(root, children[c]);
      InRootStep(root, children, c);
      ghost var seen := earlier + InRoot(root, children[..c]);
      assert earlier + InRoot(root, children[..c + 1]) == seen + if artifact.Some? then [artifact.value] else [];
      if artifact.Some? {
        var a := artifact.value;
        MetStep(seen, a);
        if a.repoClass in index {
          var (existingVersion, existingDir) := index[a.repoClass];
          if existingVersion != a.version {
            var used := if Older(existingVersion, a.version) then (a.version, a.dir) else (existingVersion, existingDir);
            index := index[a.repoClass := used];
          }
        } else {
          index := index[a.repoClass := (a.version, a.dir)];
        }
      } else {
        assert seen + [] == seen;
      }
    }
    assert children[..|children|] == children;
  }

  lemma ScannedStep(roots: seq<Root>, r: nat)
    requires r < |roots| || r == 0
    ensures MetAll(Scanned(roots[..0])) == map[]
    ensures r < |roots| ==>
              Scanned(roots[..r + 1])
              == Scanned(roots[..r]) + if roots[r].children.Some? then InRoot(roots[r], roots[r].children.value) else []
  {
    hide InRoot;
    assert roots[..0] == [] && Scanned([]) == [];
    if r < |roots| {
      assert roots[..r + 1][..r] == roots[..r];
    }
  }

  lemma InRootStep(root: Root, children: seq<Child>, c: nat)
    requires c < |children| || c == 0
    ensures InRoot(root, []) == [] && children[..0] == []
    ensures c < |children| ==>
              InRoot(root, children[..c + 1])
              == InRoot(root, children[..c])
                 + if ArtifactOf(root, children[c]).Some? then [ArtifactOf(root, children[c]).value] else []
  {
    hide ArtifactOf;
    if c < |children| {
      assert children[..c + 1][..c] == children[..c];
    }
  }

  lemma MetStep(seen: seq<Artifact>, a: Artifact)
    ensures var index := MetAll(seen);
            && MetAll(seen + [a])
               == (if a.repoClass in index && !Older(index[a.repoClass].0, a.version) then index
                   else index[a.repoClass := (a.version, a.dir)])
            && (a.repoClass in index ==> index[a.repoClass := index[a.repoClass]] == index)
    ensures !Older(a.version, a.version)
  {
    hide Older;
    SameIsNotOlder(a.version);
    assert (seen + [a])[..|seen|] == seen;
  }

  lemma SameIsNotOlder(version: string)
    ensures !Older(version, version)
  {
    OlderIsTotal(version, version, version);
  }

  // ---------------------------------------------------------------------------
  // The index is an argmax
  // ---------------------------------------------------------------------------

  /** `p` is the earliest of the newest artifacts of its class. */
  ghost predicate Newest(found: seq<Artifact>, p: nat)
    requires p < |found|
  {
    forall q :: 0 <= q < |found| && found[q].repoClass == found[p].repoClass ==>
      !Older(found[p].version, found[q].version) && (q < p ==> Older(found[q].version, found[p].version))
  }

  /** `v` names the version and directory of the earliest of the newest artifacts of `c`. */
  ghost predicate Best(found: seq<Artifact>, c: string, v: (string, string)) {
    exists p :: 0 <= p < |found| && found[p].repoClass == c && Newest(found, p) && v == (found[p].version, found[p].dir)
  }

  ghost predicate Found(found: seq<Artifact>, c: string) {
    exists p :: 0 <= p < |found| && found[p].repoClass == c
  }

  /** Every class met is in the index with the earliest of its newest artifacts, and no other
      class is. */
  lemma {:induction false} IndexIsArgmax(found: seq<Artifact>, c: string)
    ensures c in MetAll(found) <==> Found(found, c)
    ensures c in MetAll(found) ==> Best(found, c, MetAll(found)[c])
  {
    hide *;
    if found == [] {
      NothingFound(c);
    } else {
      var init, last := found[..|found| - 1], found[|found| - 1];
      assert found == init + [last];
      IndexIsArgmax(init, c);
      MetStep(init, last);
      FoundStep(init, last, c);
      if c in MetAll(init) {
        BestStep(init, last, c, MetAll(init)[c]);
      } else if last.repoClass == c {
        BestFirst(init, last);
      }
    }
  }

  lemma NothingFound(c: string)
    ensures c !in MetAll([]) && !Found([], c)
  {
  }

  lemma FoundStep(init: seq<Artifact>, last: Artifact, c: string)
    ensures Found(init + [last], c) <==> Found(init, c) || last.repoClass == c
  {
    if p :| 0 <= p < |init| && init[p].repoClass == c {
      assert (init + [last])[p].repoClass == c;
    }
    if p :| 0 <= p < |init + [last]| && (init + [last])[p].repoClass == c {
      assert p < |init| ==> init[p].repoClass == c;
    }
    assert (init + [last])[|init|] == last;
  }

  lemma BestStep(init: seq<Artifact>, last: Artifact, c: string, v: (string, string))
    requires Best(init, c, v)
    ensures Best(init + [last], c, if last.repoClass == c && Older(v.0, last.version) then (last.version, last.dir) else v)
  {
    hide Older, Newest;
    var p :| 0 <= p < |init| && init[p].repoClass == c && Newest(init, p) && v == (init[p].version, init[p].dir);
    NewestStep(init, last, p);
    assert (init + [last])[p] == init[p] && (init + [last])[|init|] == last;
  }

  lemma BestFirst(init: seq<Artifact>, last: Artifact)
    requires !Found(init, last.repoClass)
    ensures Best(init + [last], last.repoClass, (last.version, last.dir))
  {
    hide Newest, Older;
    assert forall q :: 0 <= q < |init| ==> init[q].repoClass != last.repoClass;
    FirstIsNewest(init, last);
    assert (init + [last])[|init|] == last;
  }

  lemma FirstIsNewest(init: seq<Artifact>, last: Artifact)
    requires forall q :: 0 <= q < |init| ==> init[q].repoClass != last.repoClass
    ensures Newest(init + [last], |init|)
  {
    SameIsNotOlder(last.version);
  }

  lemma NewestStep(init: seq<Artifact>, last: Artifact, p: nat)
    requires p < |init| && Newest(init, p)
    ensures if last.repoClass == init[p].repoClass && Older(init[p].version, last.version)
            then Newest(init + [last], |init|) else Newest(init + [last], p)
  {
    hide Older;
    var found := init + [last];
    if last.repoClass == init[p].repoClass && Older(init[p].version, last.version) {
      forall q | 0 <= q < |found| && found[q].repoClass == last.repoClass
        ensures !Older(last.version, found[q].version) && (q < |init| ==> Older(found[q].version, last.version))
      {
        if q < |init| {
          assert found[q] == init[q];
          OlderIsTotal(init[q].version, init[p].version, last.version);
          OlderIsTotal(init[q].version, last.version, init[p].version);
        } else {
          SameIsNotOlder(last.version);
        }
      }
    } else {
      forall q | 0 <= q < |found| && found[q].repoClass == init[p].repoClass
        ensures !Older(init[p].version, found[q].version) && (q < p ==> Older(found[q].version, init[p].version))
      {
        if q < |init| {
          assert found[q] == init[q];
        }
      }
    }
  }

  /** Which roots come first decides nothing but ties: scans that meet the same artifacts index
      the same classes with versions of the same key, and with the very same artifact where
      the newest key belongs to one artifact only. */
  lemma RootOrderDecidesTies(found: seq<Artifact>, other: seq<Artifact>, c: string)
    requires forall a :: a in found <==> a in other
    ensures c in MetAll(found) <==> c in MetAll(other)
    ensures c in MetAll(found) ==> KeyOf(MetAll(found)[c].0) == KeyOf(MetAll(other)[c].0)
    ensures c in MetAll(found) && MetAll(found)[c] != MetAll(other)[c] ==>
              exists a, b :: a in found && b in found && a != b && a.repoClass == b.repoClass == c
                             && KeyOf(a.version) == KeyOf(b.version)
  {
    hide Older, KeyOf, MetAll, Newest;
    IndexIsArgmax(found, c);
    IndexIsArgmax(other, c);
    FoundAlike(found, other, c);
    FoundAlike(other, found, c);
    if c in MetAll(found) {
      var a := BestIs(found, c, MetAll(found)[c]);
      var b := BestIs(other, c, MetAll(other)[c]);
      OlderIsTotal(a.version, b.version, a.version);
    }
  }

  lemma FoundAlike(found: seq<Artifact>, other: seq<Artifact>, c: string)
    requires forall a :: a in found ==> a in other
    ensures Found(found, c) ==> Found(other, c)
  {
    if p :| 0 <= p < |found| && found[p].repoClass == c {
      assert found[p] in other;
    }
  }

  lemma BestIs(found: seq<Artifact>, c: string, v: (string, string)) returns (a: Artifact)
    requires Best(found, c, v)
    ensures a in found && a.repoClass == c && v == (a.version, a.dir)
    ensures forall b :: b in found && b.repoClass == c ==> !Older(a.version, b.version)
  {
    hide Older;
    var p :| 0 <= p < |found| && found[p].repoClass == c && Newest(found, p) && v == (found[p].version, found[p].dir);
    a := found[p];
  }
}
