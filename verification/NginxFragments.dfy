/** Splicing single routes into nginx configuration fragments.

    Source: `nginx_router.py`. A fragment is plain text in which each route's block stands
    between two marker comments; an upsert finds the markers with a regular expression. */
module NginxFragments {
  import opened Bom
  import opened Common

  // ---------------------------------------------------------------------------
  // The text operations
  // ---------------------------------------------------------------------------

  const BEGIN := "# >>> ns route "
  const END := "# <<< ns route "

  function BeginMarker(route: string): string { BEGIN + route + " >>>" }
  function EndMarker(route: string): string { END + route + " <<<" }

  function Wrap(route: string, block: string): string {
    BeginMarker(route) + "\n" + block + "\n" + EndMarker(route) + "\n"
  }

  /** The text a block stands in. */
  lemma WrapText(route: string, block: string)
    ensures Wrap(route, block)
            == "# >>> ns route " + route + " >>>\n" + block + "\n# <<< ns route " + route + " <<<\n"
  {
  }

  /** The position of the first occurrence, or -1. */
  function IndexOf(text: string, sub: string): (i: int)
    ensures -1 <= i
    ensures i >= 0 ==> i + |sub| <= |text| && sub <= text[i..]
  {
    if sub <= text then 0
    else if text == "" then -1
    else
      var i := IndexOf(text[1..], sub);
      if i < 0 then -1 else
      assert text[1..][i..] == text[i + 1..];
      i + 1
  }

  /** Whether `begin.*?end\n?` occurs, with `.` matching every character. */
  predicate Matches(text: string, begin: string, end: string) {
    var i := IndexOf(text, begin);
    i >= 0 && IndexOf(text[i + |begin|..], end) >= 0
  }

  function DropNewline(text: string): string {
    if text != "" && text[0] == '\n' then text[1..] else text
  }

  /** `pattern.sub`: every match from left to right gives way to `block`. */
  function Sub(text: string, begin: string, end: string, block: string): string
    requires begin != ""
    decreases |text|
  {
    if !Matches(text, begin, end) then text
    else
      var i := IndexOf(text, begin);
      var rest := text[i + |begin|..];
      var j := IndexOf(rest, end);
      text[..i] + block + Sub(DropNewline(rest[j + |end|..]), begin, end, block)
  }

  /** The text `_upsert_block` writes. */
  function UpsertText(text: string, route: string, block: string): string {
    if Matches(text, BeginMarker(route), EndMarker(route))
    then Sub(text, BeginMarker(route), EndMarker(route), block)
    else (if StripRight(text) != "" then StripRight(text) + "\n" else "") + block
  }

  function Join(blocks: seq<string>): string {
    if blocks == [] then "" else if |blocks| == 1 then blocks[0] else blocks[0] + "\n" + Join(blocks[1..])
  }

  const GENERATED := "# Generated by " + CORE_REPO_CLASS + ". Do not edit.\n"

  /** The text `_write_fragment` writes. */
  function FragmentText(header: string, blocks: seq<string>): string {
    "# " + header + "\n" + GENERATED + Join(blocks)
  }

  datatype Route = Route(path: string, body: string)

  function Refreshed(text: string, routes: seq<Route>): string
    decreases |routes|
  {
    if routes == [] then text
    else Refreshed(UpsertText(text, routes[0].path, Wrap(routes[0].path, routes[0].body)), routes[1..])
  }

  /** A fragment file, `None` while it does not exist. */
  class FragmentFile {
    var text: Option<string>

    constructor ()
      ensures text.None?
    {
      text := None;
    }

    function Text(): string
      reads this
    {
      if text.Some? then text.value else ""
    }

    method WriteFragment(blocks: seq<string>, header: string)
      modifies this
      ensures text == Some(FragmentText(header, blocks))
    {
      text := Some("# " + header + "\n" + GENERATED + Join(blocks));
    }

    method UpsertBlock(route: string, block: string)
      modifies this
      ensures text == Some(UpsertText(old(Text()), route, block))
    {
      var begin, end := BeginMarker(route), EndMarker(route);
      var t := Text();
      if Matches(t, begin, end) {
        t := Sub(t, begin, end, block);
      } else {
        var kept := StripRight(t);
        t := (if kept != "" then kept + "\n" else "") + block;
      }
      text := Some(t);
    }

    /** The loop of `refresh_deployed_service_routes` over the discovered routes. */
    method RefreshRoutes(routes: seq<Route>) returns (count: nat)
      modifies this
      ensures count == |routes| && Text() == Refreshed(old(Text()), routes)
    {
      var i := 0;
      while i < |routes|
        invariant 0 <= i <= |routes|
        invariant Refreshed(Text(), routes[i..]) == Refreshed(old(Text()), routes)
      {
        assert routes[i..][0] == routes[i] && routes[i..][1..] == routes[i + 1..];
        UpsertBlock(routes[i].path, Wrap(routes[i].path, routes[i].body));
        i := i + 1;
      }
      count := |routes|;
    }
  }

  // ---------------------------------------------------------------------------
  // Well-formed fragments
  // ---------------------------------------------------------------------------

  /** A block and whatever text follows it up to the next one. */
  datatype Block = Block(route: string, body: string, gap: string)
  datatype Fragment = Fragment(preamble: string, blocks: seq<Block>)

  function Render(blocks: seq<Block>): string {
    if blocks == [] then "" else Wrap(blocks[0].route, blocks[0].body) + blocks[0].gap + Render(blocks[1..])
  }

  function TextOf(f: Fragment): string {
    f.preamble + Render(f.blocks)
  }

  ghost predicate NoHash(s: string) {
    forall i :: 0 <= i < |s| ==> s[i] != '#'
  }

  /** No marker starts in this text. */
  ghost predicate Quiet(s: string) {
    forall i :: 0 <= i < |s| ==> !(BEGIN <= s[i..]) && !(END <= s[i..])
  }

  ghost predicate IsRoute(route: string) {
    NoHash(route) && forall i :: 0 <= i < |route| ==> route[i] != ' '
  }

  ghost predicate WellFormedBlock(b: Block) {
    IsRoute(b.route) && Quiet(b.body) && Quiet(b.gap)
  }

  ghost predicate WellFormed(f: Fragment) {
    Quiet(f.preamble) && forall b :: b in f.blocks ==> WellFormedBlock(b)
  }

  /** The routes a fragment serves; the last block of a path counts. */
  function AsMap(blocks: seq<Block>): map<string, string> {
    if blocks == [] then map[] else AsMap(blocks[..|blocks| - 1])[blocks[|blocks| - 1].route := blocks[|blocks| - 1].body]
  }

  predicate HasRoute(blocks: seq<Block>, route: string) {
    exists i :: 0 <= i < |blocks| && blocks[i].route == route
  }

  // ---------------------------------------------------------------------------
  // Where markers start
  // ---------------------------------------------------------------------------

  lemma QuietAppend(s: string, t: string)
    requires NoHash(s) && Quiet(t)
    ensures Quiet(s + t)
  {
    forall i | 0 <= i < |s + t| ensures !(BEGIN <= (s + t)[i..]) && !(END <= (s + t)[i..]) {
      if i < |s| {
        assert (s + t)[i..][0] == s[i];
      } else {
        assert (s + t)[i..] == t[i - |s|..];
      }
    }
  }

  lemma QuietLine(s: string)
    requires Quiet(s)
    ensures Quiet(s + "\n")
  {
    var t := s + "\n";
    forall i | 0 <= i < |t| ensures !(BEGIN <= t[i..]) && !(END <= t[i..]) {
      var n := |t[i..]|;
      assert t[i..][n - 1] == '\n';
      assert |BEGIN| == |END| == 15;
      if n == 15 {
        assert BEGIN[14] != '\n' && END[14] != '\n';
      } else if i < |s| {
        assert s[i..] == t[i..][..n - 1];
      }
    }
  }

  lemma QuietPrefix(s: string, n: nat)
    requires Quiet(s) && n <= |s|
    ensures Quiet(s[..n])
  {
    forall i | 0 <= i < n ensures !(BEGIN <= s[..n][i..]) && !(END <= s[..n][i..]) {
      assert s[..n][i..] <= s[i..];
    }
  }

  /** The marker's one hash sign is its first character. */
  ghost predicate IsMarker(mark: string) {
    && |mark| > 15 && (BEGIN <= mark || END <= mark)
    && forall i :: 0 < i < |mark| ==> mark[i] != '#'
  }

  lemma Markers(route: string)
    requires IsRoute(route)
    ensures IsMarker(BeginMarker(route)) && IsMarker(EndMarker(route))
  {
    assert forall i :: 15 <= i < 15 + |route| ==> BeginMarker(route)[i] == route[i - 15] && EndMarker(route)[i] == route[i - 15];
  }

  /** The marker starts at none of the first `n` positions. */
  ghost predicate NoneStarts(n: nat, text: string, mark: string)
    requires n <= |text|
  {
    forall i :: 0 <= i < n ==> !(mark <= text[i..])
  }

  /** No marker starts in a quiet text that ends or is followed by a hash sign. */
  lemma NoStart(s: string, t: string, mark: string)
    requires Quiet(s) && IsMarker(mark) && (t == "" || t[0] == '#')
    ensures NoneStarts(|s|, s + t, mark)
  {
    forall i | 0 <= i < |s| ensures !(mark <= (s + t)[i..]) {
      if i + |mark| <= |s| {
        assert (s + t)[i..][..|mark|] == s[i..][..|mark|];
      } else if i + |mark| <= |s + t| {
        assert (s + t)[i..][|s| - i] == '#';
      }
    }
  }

  lemma {:induction false} IndexSkip(s: string, t: string, mark: string)
    requires NoneStarts(|s|, s + t, mark)
    requires mark != ""
    ensures IndexOf(s + t, mark) == if IndexOf(t, mark) < 0 then -1 else |s| + IndexOf(t, mark)
  {
    if s == "" {
      assert s + t == t;
    } else {
      assert (s + t)[0..] == s + t;
      assert (s + t)[1..] == s[1..] + t;
      forall i | 0 <= i < |s[1..]| ensures !(mark <= (s[1..] + t)[i..]) {
        assert (s[1..] + t)[i..] == (s + t)[i + 1..];
      }
      IndexSkip(s[1..], t, mark);
    }
  }

  /** Text in which the begin marker does not start is passed over. */
  lemma SubSkip(s: string, t: string, begin: string, end: string, block: string)
    requires begin != "" && NoneStarts(|s|, s + t, begin)
    ensures Matches(s + t, begin, end) == Matches(t, begin, end)
    ensures Sub(s + t, begin, end, block) == s + Sub(t, begin, end, block)
  {
    hide IndexOf, DropNewline, NoneStarts, Sub, Matches;
    MatchSkip(s, t, begin, end);
    SubUnfolds(t, begin, end, block);
    SubUnfolds(s + t, begin, end, block);
    if Matches(t, begin, end) {
      var i := IndexOf(t, begin);
      var rest := t[i + |begin|..];
      Shift(s, t, i, block, Sub(DropNewline(rest[IndexOf(rest, end) + |end|..]), begin, end, block));
    }
  }

  lemma MatchSkip(s: string, t: string, begin: string, end: string)
    requires begin != "" && NoneStarts(|s|, s + t, begin)
    ensures Matches(s + t, begin, end) == Matches(t, begin, end)
    ensures Matches(t, begin, end) ==>
              var i := IndexOf(t, begin);
              && i >= 0 && IndexOf(s + t, begin) == |s| + i && IndexOf(t[i + |begin|..], end) >= 0
              && (s + t)[|s| + i + |begin|..] == t[i + |begin|..]
  {
    hide IndexOf, NoneStarts;
    IndexSkip(s, t, begin);
    if IndexOf(t, begin) >= 0 {
      DropPast(s, t, IndexOf(t, begin) + |begin|);
    }
  }

  lemma DropPast(s: string, t: string, k: nat)
    requires k <= |t|
    ensures (s + t)[|s| + k..] == t[k..]
  {
  }

  lemma Shift(s: string, t: string, i: nat, u: string, v: string)
    requires i <= |t|
    ensures (s + t)[..|s| + i] + u + v == s + (t[..i] + u + v)
  {
    assert (s + t)[..|s| + i] == s + t[..i];
  }

  lemma SubUnfolds(text: string, begin: string, end: string, block: string)
    requires begin != ""
    ensures !Matches(text, begin, end) ==> Sub(text, begin, end, block) == text
    ensures Matches(text, begin, end) ==>
            var i := IndexOf(text, begin);
            var rest := text[i + |begin|..];
            Sub(text, begin, end, block)
            == text[..i] + block + Sub(DropNewline(rest[IndexOf(rest, end) + |end|..]), begin, end, block)
  {
    hide IndexOf, DropNewline;
  }

  /** A block of the route itself is matched whole and replaced. */
  lemma SubHit(route: string, body: string, rest: string, block: string)
    requires IsRoute(route) && Quiet(body)
    ensures var text := Wrap(route, body) + rest;
            && Matches(text, BeginMarker(route), EndMarker(route))
            && Sub(text, BeginMarker(route), EndMarker(route), block)
               == block + Sub(rest, BeginMarker(route), EndMarker(route), block)
  {
    hide IndexOf, Sub, Matches, Quiet, IsRoute, BeginMarker, EndMarker, Wrap;
    Markers(route);
    FindEnd(route, body, rest);
    WrapParts(route, body, rest);
    Hit(BeginMarker(route), "\n" + (body + "\n"), EndMarker(route), rest, block);
  }

  lemma WrapParts(route: string, body: string, rest: string)
    ensures Wrap(route, body) + rest
            == BeginMarker(route) + (("\n" + (body + "\n")) + (EndMarker(route) + ("\n" + rest)))
  {
    hide BeginMarker, EndMarker;
  }

  lemma Hit(begin: string, inner: string, end: string, rest: string, block: string)
    requires begin != "" && end != "" && IndexOf(inner + (end + ("\n" + rest)), end) == |inner|
    ensures var text := begin + (inner + (end + ("\n" + rest)));
            Matches(text, begin, end) && Sub(text, begin, end, block) == block + Sub(rest, begin, end, block)
  {
    hide IndexOf, Sub, DropNewline, Matches;
    var line := "\n" + rest;
    var whole := inner + (end + line);
    IndexOfPrefix(begin, whole);
    Drop(begin, whole);
    DropTwo(inner, end, line);
    DropsNewline(rest);
    UnfoldsHere(begin + whole, begin, end, block, whole, |inner|, rest);
  }

  /** The begin marker is at the very start and the end marker at `j` of what follows it. */
  lemma UnfoldsHere(text: string, begin: string, end: string, block: string, rest: string, j: nat, tail: string)
    requires begin != "" && IndexOf(text, begin) == 0 && text[|begin|..] == rest
    requires IndexOf(rest, end) == j && DropNewline(rest[j + |end|..]) == tail
    ensures Matches(text, begin, end) && Sub(text, begin, end, block) == block + Sub(tail, begin, end, block)
  {
    hide IndexOf, Sub, DropNewline;
    SubUnfolds(text, begin, end, block);
    assert text[..0] + block == block;
  }

  lemma DropTwo(s: string, t: string, u: string)
    ensures (s + (t + u))[|s| + |t|..] == u
  {
  }

  lemma Drop(s: string, t: string)
    ensures (s + t)[|s|..] == t
  {
  }

  lemma DropsNewline(rest: string)
    ensures DropNewline("\n" + rest) == rest
  {
  }

  lemma FindEnd(route: string, body: string, rest: string)
    requires IsRoute(route) && Quiet(body)
    ensures IndexOf("\n" + (body + "\n") + (EndMarker(route) + ("\n" + rest)), EndMarker(route)) == 2 + |body|
  {
    hide IndexOf, Quiet, IsRoute;
    var end := EndMarker(route);
    Markers(route);
    QuietLine(body);
    QuietLineStart(body + "\n");
    NoStart("\n" + (body + "\n"), end + ("\n" + rest), end);
    IndexSkip("\n" + (body + "\n"), end + ("\n" + rest), end);
    IndexOfPrefix(end, "\n" + rest);
  }

  lemma QuietLineStart(s: string)
    requires Quiet(s)
    ensures Quiet("\n" + s)
  {
    QuietAppend("\n", s);
  }

  lemma IndexOfPrefix(sub: string, t: string)
    ensures IndexOf(sub + t, sub) == 0
  {
  }

  /** A block of another route, with its gap, is passed over. */
  lemma SubMiss(b: Block, rest: string, route: string, block: string)
    requires WellFormedBlock(b) && IsRoute(route) && b.route != route && (rest == "" || rest[0] == '#')
    ensures var text := Wrap(b.route, b.body) + b.gap + rest;
            && Matches(text, BeginMarker(route), EndMarker(route)) == Matches(rest, BeginMarker(route), EndMarker(route))
            && Sub(text, BeginMarker(route), EndMarker(route), block)
               == Wrap(b.route, b.body) + b.gap + Sub(rest, BeginMarker(route), EndMarker(route), block)
  {
    hide Sub, Matches, Quiet, IsRoute, BeginMarker, EndMarker, Wrap, NoneStarts;
    var begin, end := BeginMarker(route), EndMarker(route);
    var first, second := BeginMarker(b.route) + ("\n" + (b.body + "\n")), EndMarker(b.route) + ("\n" + b.gap);
    Markers(route);
    PassEnd(b, rest, route);
    PassBegin(b, second + rest, route);
    SubSkip(first, second + rest, begin, end, block);
    SubSkip(second, rest, begin, end, block);
    MissParts(b, rest);
    MissParts(b, Sub(rest, begin, end, block));
  }

  lemma MissParts(b: Block, rest: string)
    ensures Wrap(b.route, b.body) + b.gap + rest
            == (BeginMarker(b.route) + ("\n" + (b.body + "\n"))) + ((EndMarker(b.route) + ("\n" + b.gap)) + rest)
  {
    hide BeginMarker, EndMarker;
  }

  lemma PassBegin(b: Block, rest: string, route: string)
    requires WellFormedBlock(b) && IsRoute(route) && b.route != route && (rest == "" || rest[0] == '#')
    ensures var first := BeginMarker(b.route) + ("\n" + (b.body + "\n"));
            NoneStarts(|first|, first + rest, BeginMarker(route))
  {
    hide Quiet, IsRoute, BeginMarker;
    var line := "\n" + (b.body + "\n");
    var first := BeginMarker(b.route) + line;
    Markers(route);
    Markers(b.route);
    QuietLine(b.body);
    QuietTail(BeginMarker(b.route), b.body + "\n");
    BeginMarkersDiffer(b.route, route, line + rest);
    assert first + rest == BeginMarker(b.route) + (line + rest);
    NoStartAfter(first, rest, BeginMarker(route));
  }

  lemma PassEnd(b: Block, rest: string, route: string)
    requires WellFormedBlock(b) && IsRoute(route) && (rest == "" || rest[0] == '#')
    ensures var second := EndMarker(b.route) + ("\n" + b.gap);
            && second[0] == '#'
            && NoneStarts(|second|, second + rest, BeginMarker(route))
  {
    hide Quiet, IsRoute;
    var second := EndMarker(b.route) + ("\n" + b.gap);
    Markers(route);
    Markers(b.route);
    QuietTail(EndMarker(b.route), b.gap);
    assert BeginMarker(route)[2] == '>' && (second + rest)[2] == '<';
    NoStartAfter(second, rest, BeginMarker(route));
  }

  lemma QuietTail(mark: string, s: string)
    requires IsMarker(mark) && Quiet(s)
    ensures Quiet((mark + ("\n" + s))[1..])
  {
    QuietAppend("\n", s);
    QuietAppend(mark[1..], "\n" + s);
    assert (mark + ("\n" + s))[1..] == mark[1..] + ("\n" + s);
  }

  /** The first position at which two strings differ. */
  function Difference(a: string, b: string): (i: nat)
    requires |a| == |b| && a != b
    ensures i < |a| && a[i] != b[i]
  {
    assert a == [a[0]] + a[1..] && b == [b[0]] + b[1..];
    if a[0] != b[0] then 0 else 1 + Difference(a[1..], b[1..])
  }

  /** No text beginning with another route's begin marker begins with this route's. */
  lemma BeginMarkersDiffer(other: string, route: string, t: string)
    requires IsRoute(other) && IsRoute(route) && other != route
    ensures !(BeginMarker(route) <= BeginMarker(other) + t)
  {
    var a, b := BeginMarker(route), BeginMarker(other) + t;
    var k := if |route| == |other| then Difference(route, other) else if |route| < |other| then |route| else |other|;
    assert k < |route| ==> a[15 + k] == route[k];
    assert k < |other| ==> b[15 + k] == other[k];
    assert k == |route| ==> a[15 + k] == ' ';
    assert k == |other| ==> b[15 + k] == ' ';
    assert a[15 + k] != b[15 + k];
  }

  /** Quiet after its first character and not beginning with the marker itself: the marker
      starts nowhere in it. */
  lemma NoStartAfter(s: string, t: string, mark: string)
    requires s != "" && IsMarker(mark) && Quiet(s[1..]) && (t == "" || t[0] == '#')
    requires !(mark <= s + t)
    ensures NoneStarts(|s|, s + t, mark)
  {
    NoStart(s[1..], t, mark);
    forall i | 0 <= i < |s| ensures !(mark <= (s + t)[i..]) {
      if i == 0 {
        assert (s + t)[0..] == s + t;
      } else {
        assert (s + t)[i..] == (s[1..] + t)[i - 1..];
      }
    }
  }

  // ---------------------------------------------------------------------------
  // Upserts on blocks
  // ---------------------------------------------------------------------------

  function Replaced(blocks: seq<Block>, route: string, body: string): (r: seq<Block>)
    ensures |r| == |blocks|
    ensures forall i :: 0 <= i < |r| ==> r[i] == if blocks[i].route == route then blocks[i].(body := body) else blocks[i]
  {
    if blocks == [] then []
    else [if blocks[0].route == route then blocks[0].(body := body) else blocks[0]] + Replaced(blocks[1..], route, body)
  }

  /** Trailing white space of the last gap, or of the preamble, makes room for one line end. */
  function Settled(s: string): string {
    if StripRight(s) == "" then "" else StripRight(s) + "\n"
  }

  function Appended(f: Fragment, route: string, body: string): Fragment {
    var last := |f.blocks| - 1;
    if f.blocks == [] then Fragment(Settled(f.preamble), [Block(route, body, "")])
    else f.(blocks := f.blocks[last := f.blocks[last].(gap := Settled(f.blocks[last].gap))] + [Block(route, body, "")])
  }

  function Upserted(f: Fragment, route: string, body: string): Fragment {
    if HasRoute(f.blocks, route) then f.(blocks := Replaced(f.blocks, route, body)) else Appended(f, route, body)
  }

  lemma RenderStarts(blocks: seq<Block>)
    ensures Render(blocks) == "" || Render(blocks)[0] == '#'
  {
  }

  lemma {:induction false} SubRender(blocks: seq<Block>, route: string, body: string)
    requires IsRoute(route) && forall b :: b in blocks ==> WellFormedBlock(b)
    ensures Matches(Render(blocks), BeginMarker(route), EndMarker(route)) <==> HasRoute(blocks, route)
    ensures Sub(Render(blocks), BeginMarker(route), EndMarker(route), Wrap(route, body)) == Render(Replaced(blocks, route, body))
    decreases |blocks|
  {
    hide Wrap, BeginMarker, EndMarker, Sub, Matches, WellFormedBlock, HasRoute, Quiet, IsRoute;
    if blocks == [] {
      NothingMatches(route, Wrap(route, body));
      assert !HasRoute([], route) by { NoRoutes(route); }
    } else {
      var b, rest := blocks[0], Render(blocks[1..]);
      assert b in blocks;
      SubRender(blocks[1..], route, body);
      RenderStarts(blocks[1..]);
      HasRouteFirst(blocks, route);
      var after := Replaced(blocks, route, body);
      assert after[1..] == Replaced(blocks[1..], route, body);
      if b.route == route {
        BlockParts(b);
        SubHit(route, b.body, b.gap + rest, Wrap(route, body));
        assert Render(blocks) == Wrap(route, b.body) + (b.gap + rest);
        GapSkip(b.gap, rest, route, Wrap(route, body));
        assert Render(after) == Wrap(route, body) + b.gap + Render(after[1..]);
      } else {
        SubMiss(b, rest, route, Wrap(route, body));
      }
    }
  }

  lemma NoRoutes(route: string)
    ensures !HasRoute([], route)
  {
  }

  lemma BlockParts(b: Block)
    ensures WellFormedBlock(b) ==> IsRoute(b.route) && Quiet(b.body) && Quiet(b.gap)
  {
  }

  lemma NothingMatches(route: string, block: string)
    ensures !Matches("", BeginMarker(route), EndMarker(route))
    ensures Sub("", BeginMarker(route), EndMarker(route), block) == ""
  {
  }

  lemma HasRouteFirst(blocks: seq<Block>, route: string)
    requires blocks != []
    ensures HasRoute(blocks, route) <==> blocks[0].route == route || HasRoute(blocks[1..], route)
  {
    if HasRoute(blocks, route) && blocks[0].route != route {
      var i :| 0 <= i < |blocks| && blocks[i].route == route;
      assert blocks[1..][i - 1].route == route;
    }
  }

  lemma GapSkip(gap: string, rest: string, route: string, block: string)
    requires Quiet(gap) && IsRoute(route) && (rest == "" || rest[0] == '#')
    ensures Matches(gap + rest, BeginMarker(route), EndMarker(route)) == Matches(rest, BeginMarker(route), EndMarker(route))
    ensures Sub(gap + rest, BeginMarker(route), EndMarker(route), block)
            == gap + Sub(rest, BeginMarker(route), EndMarker(route), block)
  {
    Markers(route);
    NoStart(gap, rest, BeginMarker(route));
    SubSkip(gap, rest, BeginMarker(route), EndMarker(route), block);
  }

  lemma {:induction false} StripRightEnd(s: string, t: string)
    ensures StripRight(t) != "" ==> StripRight(s + t) == s + StripRight(t)
    ensures StripRight(t) == "" ==> StripRight(s + t) == StripRight(s)
    decreases |t|
  {
    if t == "" {
      assert s + t == s;
    } else {
      assert (s + t)[..|s + t| - 1] == s + t[..|t| - 1];
      StripRightEnd(s, t[..|t| - 1]);
    }
  }

  lemma {:induction false} RenderSplit(init: seq<Block>, last: Block)
    ensures Render(init + [last]) == Render(init) + Wrap(last.route, last.body) + last.gap
    decreases |init|
  {
    hide Wrap;
    if init == [] {
      assert init + [last] == [last] && [last][1..] == [];
    } else {
      assert (init + [last])[1..] == init[1..] + [last];
      RenderSplit(init[1..], last);
    }
  }

  /** The text of an appended block. */
  lemma AppendText(f: Fragment, route: string, body: string)
    ensures TextOf(Appended(f, route, body))
            == (if StripRight(TextOf(f)) != "" then StripRight(TextOf(f)) + "\n" else "") + Wrap(route, body)
  {
    hide Wrap, StripRight, Render;
    var added, w := Block(route, body, ""), Wrap(route, body);
    if f.blocks == [] {
      RenderOne(added);
      assert TextOf(f) == f.preamble by { RenderNone(); }
    } else {
      var init, last := f.blocks[..|f.blocks| - 1], f.blocks[|f.blocks| - 1];
      var settled := last.(gap := Settled(last.gap));
      assert f.blocks == init + [last];
      assert Appended(f, route, body).blocks == (init + [settled]) + [added];
      RenderSplit(init, last);
      RenderSplit(init, settled);
      RenderSplit(init + [settled], added);
      var line := WrapLine(last.route, last.body);
      Regroup(f.preamble, Render(init), line, last.gap, "");
      Regroup(f.preamble, Render(init), line, settled.gap, w);
      LineStrip(f.preamble + Render(init) + line, last.gap);
    }
  }

  lemma RenderNone()
    ensures Render([]) == ""
  {
  }

  lemma RenderOne(b: Block)
    ensures Render([b]) == Wrap(b.route, b.body) + b.gap
  {
    hide Wrap;
    assert [b][1..] == [];
  }

  lemma Regroup(p: string, r: string, line: string, gap: string, w: string)
    ensures p + (r + (line + "\n") + gap) == (p + r + line) + ("\n" + gap)
    ensures p + ((r + (line + "\n") + gap) + w + "") == (p + r + line) + "\n" + gap + w
  {
  }

  /** A wrapped block without the line end of its end marker. */
  ghost function WrapLine(route: string, block: string): (line: string)
    ensures Wrap(route, block) == line + "\n" && line != "" && line[|line| - 1] == '<'
  {
    BeginMarker(route) + "\n" + block + "\n" + EndMarker(route)
  }

  /** Stripping a text that ends in a marker line and a gap, and ending it with a line end,
      settles the gap. */
  lemma LineStrip(s: string, gap: string)
    requires s != "" && !IsSpace(s[|s| - 1])
    ensures StripRight(s + ("\n" + gap)) + "\n" == s + "\n" + Settled(gap)
    ensures StripRight(s + ("\n" + gap)) != ""
  {
    StripRightEnd("\n", gap);
    assert StripRight("\n") == StripRight("") == "";
    StripRightEnd(s, "\n" + gap);
    assert StripRight(s) == s;
  }

  /** The text `_upsert_block` writes is the upsert on blocks. */
  lemma UpsertRefines(f: Fragment, route: string, body: string)
    requires WellFormed(f) && IsRoute(route) && Quiet(body)
    ensures UpsertText(TextOf(f), route, Wrap(route, body)) == TextOf(Upserted(f, route, body))
    ensures WellFormed(Upserted(f, route, body))
  {
    hide Wrap, BeginMarker, EndMarker, Sub, Matches, Quiet, IsRoute, StripRight, Appended;
    SubRender(f.blocks, route, body);
    RenderStarts(f.blocks);
    GapSkip(f.preamble, Render(f.blocks), route, Wrap(route, body));
    AppendText(f, route, body);
    UpsertedWellFormed(f, route, body);
  }

  lemma UpsertedWellFormed(f: Fragment, route: string, body: string)
    requires WellFormed(f) && IsRoute(route) && Quiet(body)
    ensures WellFormed(Upserted(f, route, body))
  {
    hide IsRoute, Quiet, Settled;
    assert Quiet("") by { QuietEmpty(); }
    if HasRoute(f.blocks, route) {
      var after := Replaced(f.blocks, route, body);
      forall b | b in after ensures WellFormedBlock(b) {
        var i :| 0 <= i < |after| && after[i] == b;
        assert f.blocks[i] in f.blocks;
      }
    } else if f.blocks == [] {
      SettledQuiet(f.preamble);
    } else {
      var last := f.blocks[|f.blocks| - 1];
      assert last in f.blocks;
      SettledQuiet(last.gap);
    }
  }

  lemma QuietEmpty()
    ensures Quiet("")
  {
  }

  lemma SettledQuiet(s: string)
    requires Quiet(s)
    ensures Quiet(Settled(s))
  {
    StripRightPrefix(s);
    QuietPrefix(s, |StripRight(s)|);
    QuietLine(StripRight(s));
    QuietEmpty();
  }

  lemma {:induction false} StripRightPrefix(s: string)
    ensures |StripRight(s)| <= |s| && StripRight(s) == s[..|StripRight(s)|]
  {
    if s != "" && IsSpace(s[|s| - 1]) {
      StripRightPrefix(s[..|s| - 1]);
    }
  }

  // ---------------------------------------------------------------------------
  // The map view
  // ---------------------------------------------------------------------------

  lemma HasRouteLast(init: seq<Block>, last: Block, route: string)
    ensures HasRoute(init + [last], route) <==> HasRoute(init, route) || last.route == route
  {
    var blocks := init + [last];
    if HasRoute(init, route) {
      var i :| 0 <= i < |init| && init[i].route == route;
      assert blocks[i].route == route;
    }
    if last.route == route {
      assert blocks[|init|].route == route;
    }
    if HasRoute(blocks, route) && last.route != route {
      var i :| 0 <= i < |blocks| && blocks[i].route == route;
      assert init[i].route == route;
    }
  }

  lemma {:induction false} AsMapMeans(blocks: seq<Block>, route: string)
    ensures route in AsMap(blocks) <==> HasRoute(blocks, route)
  {
    if blocks != [] {
      hide HasRoute;
      var init, last := blocks[..|blocks| - 1], blocks[|blocks| - 1];
      assert blocks == init + [last];
      AsMapMeans(init, route);
      HasRouteLast(init, last, route);
    }
  }

  lemma ReplacedAppend(init: seq<Block>, last: Block, route: string, body: string)
    ensures Replaced(init + [last], route, body)
            == Replaced(init, route, body) + [if last.route == route then last.(body := body) else last]
  {
  }

  lemma AsMapAppend(init: seq<Block>, last: Block)
    ensures AsMap(init + [last]) == AsMap(init)[last.route := last.body]
  {
    assert (init + [last])[..|init|] == init;
  }

  lemma {:induction false} ReplacedMap(blocks: seq<Block>, route: string, body: string)
    ensures AsMap(Replaced(blocks, route, body))
            == if HasRoute(blocks, route) then AsMap(blocks)[route := body] else AsMap(blocks)
  {
    if blocks != [] {
      hide HasRoute, Replaced, AsMap;
      var init, last := blocks[..|blocks| - 1], blocks[|blocks| - 1];
      assert blocks == init + [last];
      ReplacedMap(init, route, body);
      ReplacedAppend(init, last, route, body);
      AsMapAppend(init, last);
      AsMapAppend(Replaced(init, route, body), if last.route == route then last.(body := body) else last);
      HasRouteLast(init, last, route);
      UpdateTwice(AsMap(init), last.route, last.body, route, body);
    }
  }

  lemma UpdateTwice(m: map<string, string>, k: string, v: string, route: string, body: string)
    ensures k != route ==> m[k := v][route := body] == m[route := body][k := v]
    ensures k == route ==> m[k := v][route := body] == m[route := body] == m[route := body][route := body]
  {
  }

  lemma {:induction false} GapsDoNotMatter(a: seq<Block>, b: seq<Block>)
    requires |a| == |b| && forall i :: 0 <= i < |a| ==> a[i].route == b[i].route && a[i].body == b[i].body
    ensures AsMap(a) == AsMap(b)
  {
    if a != [] {
      GapsDoNotMatter(a[..|a| - 1], b[..|b| - 1]);
    }
  }

  lemma UpsertedMap(f: Fragment, route: string, body: string)
    ensures AsMap(Upserted(f, route, body).blocks) == AsMap(f.blocks)[route := body]
  {
    if HasRoute(f.blocks, route) {
      ReplacedMap(f.blocks, route, body);
    } else {
      var after := Appended(f, route, body).blocks;
      GapsDoNotMatter(after[..|after| - 1], f.blocks);
    }
  }

  /** Upserting a route into a well-formed fragment is the map update, the result is
      well-formed, and upserting the same block again leaves the text as it is. */
  lemma UpsertIsMapUpdate(f: Fragment, route: string, body: string)
    requires WellFormed(f) && IsRoute(route) && Quiet(body)
    ensures var after := Upserted(f, route, body);
            && UpsertText(TextOf(f), route, Wrap(route, body)) == TextOf(after)
            && WellFormed(after)
            && AsMap(after.blocks) == AsMap(f.blocks)[route := body]
            && UpsertText(TextOf(after), route, Wrap(route, body)) == TextOf(after)
  {
    hide Wrap, UpsertText, WellFormed, AsMap, IsRoute, Quiet;
    var after := Upserted(f, route, body);
    UpsertRefines(f, route, body);
    UpsertedMap(f, route, body);
    UpsertRefines(after, route, body);
    UpsertedTwice(f, route, body);
  }

  lemma UpsertedTwice(f: Fragment, route: string, body: string)
    ensures Upserted(Upserted(f, route, body), route, body) == Upserted(f, route, body)
  {
    var after := Upserted(f, route, body).blocks;
    UpsertSets(f, route, body);
    assert Replaced(after, route, body) == after by {
      hide Upserted;
      assert forall i :: 0 <= i < |after| ==> after[i] in after;
    }
  }

  // ---------------------------------------------------------------------------
  // The bulk refresh
  // ---------------------------------------------------------------------------

  function RefreshedBlocks(f: Fragment, routes: seq<Route>): Fragment
    decreases |routes|
  {
    if routes == [] then f else RefreshedBlocks(Upserted(f, routes[0].path, routes[0].body), routes[1..])
  }

  /** All the discovered routes, the last one of a path winning. */
  function Discovered(routes: seq<Route>): map<string, string>
    decreases |routes|
  {
    if routes == [] then map[] else map[routes[0].path := routes[0].body] + Discovered(routes[1..])
  }

  ghost predicate GoodRoutes(routes: seq<Route>) {
    forall r :: r in routes ==> IsRoute(r.path) && Quiet(r.body)
  }

  lemma {:induction false} RefreshRefines(f: Fragment, routes: seq<Route>)
    requires WellFormed(f) && GoodRoutes(routes)
    ensures var after := RefreshedBlocks(f, routes);
            && Refreshed(TextOf(f), routes) == TextOf(after)
            && WellFormed(after)
            && AsMap(after.blocks) == AsMap(f.blocks) + Discovered(routes)
    decreases |routes|
  {
    hide Wrap, UpsertText, WellFormed, AsMap, Upserted, IsRoute, Quiet;
    if routes != [] {
      var r := routes[0];
      UpsertIsMapUpdate(f, r.path, r.body);
      RefreshRefines(Upserted(f, r.path, r.body), routes[1..]);
    }
  }

  /** Every block of a discovered path has the discovered body. */
  ghost predicate UpToDate(blocks: seq<Block>, routes: map<string, string>) {
    && (forall b :: b in blocks && b.route in routes ==> b.body == routes[b.route])
    && (forall path :: path in routes ==> HasRoute(blocks, path))
  }

  /** A refresh keeps the body that all blocks of an undiscovered path share. */
  lemma {:induction false} RefreshKeeps(f: Fragment, routes: seq<Route>, path: string, body: string)
    requires path !in Discovered(routes) && HasRoute(f.blocks, path)
    requires forall b :: b in f.blocks && b.route == path ==> b.body == body
    ensures HasRoute(RefreshedBlocks(f, routes).blocks, path)
    ensures forall b :: b in RefreshedBlocks(f, routes).blocks && b.route == path ==> b.body == body
    decreases |routes|
  {
    hide Upserted;
    if routes != [] {
      var r := routes[0];
      UpsertKeeps(f, r.path, r.body, path, body);
      RefreshKeeps(Upserted(f, r.path, r.body), routes[1..], path, body);
    }
  }

  lemma UpsertKeeps(f: Fragment, route: string, latest: string, path: string, body: string)
    requires route != path && HasRoute(f.blocks, path)
    requires forall b :: b in f.blocks && b.route == path ==> b.body == body
    ensures HasRoute(Upserted(f, route, latest).blocks, path)
    ensures forall b :: b in Upserted(f, route, latest).blocks && b.route == path ==> b.body == body
  {
    var i :| 0 <= i < |f.blocks| && f.blocks[i].route == path;
    var after := Upserted(f, route, latest).blocks;
    assert after[i].route == path;
    forall b | b in after && b.route == path ensures b.body == body {
      var k :| 0 <= k < |after| && after[k] == b;
      assert f.blocks[k] in f.blocks;
    }
  }

  lemma UpsertSets(f: Fragment, route: string, body: string)
    ensures HasRoute(Upserted(f, route, body).blocks, route)
    ensures forall b :: b in Upserted(f, route, body).blocks && b.route == route ==> b.body == body
  {
    hide Settled;
    if HasRoute(f.blocks, route) {
      ReplaceSets(f.blocks, route, body);
    } else {
      var after := Appended(f, route, body).blocks;
      assert after[|after| - 1].route == route;
      forall i | 0 <= i < |after| - 1 ensures after[i].route != route {
        assert f.blocks[i].route != route;
      }
    }
  }

  lemma ReplaceSets(blocks: seq<Block>, route: string, body: string)
    requires HasRoute(blocks, route)
    ensures HasRoute(Replaced(blocks, route, body), route)
    ensures forall b :: b in Replaced(blocks, route, body) && b.route == route ==> b.body == body
  {
    ReplacedHasRoute(blocks, route, body, route);
  }

  lemma {:induction false} RefreshSettles(f: Fragment, routes: seq<Route>)
    ensures UpToDate(RefreshedBlocks(f, routes).blocks, Discovered(routes))
    decreases |routes|
  {
    hide Upserted, HasRoute;
    if routes != [] {
      var r := routes[0];
      var next := Upserted(f, r.path, r.body);
      RefreshSettles(next, routes[1..]);
      if r.path !in Discovered(routes[1..]) {
        UpsertSets(f, r.path, r.body);
        RefreshKeeps(next, routes[1..], r.path, r.body);
      }
    }
  }

  function SetAll(blocks: seq<Block>, routes: map<string, string>): (r: seq<Block>)
    ensures |r| == |blocks|
    ensures forall i :: 0 <= i < |r| ==>
              r[i] == if blocks[i].route in routes then blocks[i].(body := routes[blocks[i].route]) else blocks[i]
  {
    if blocks == [] then []
    else [if blocks[0].route in routes then blocks[0].(body := routes[blocks[0].route]) else blocks[0]] + SetAll(blocks[1..], routes)
  }

  /** With a block for every discovered path, a refresh only sets bodies. */
  lemma {:induction false} RefreshSets(f: Fragment, routes: seq<Route>)
    requires forall path :: path in Discovered(routes) ==> HasRoute(f.blocks, path)
    ensures RefreshedBlocks(f, routes) == f.(blocks := SetAll(f.blocks, Discovered(routes)))
    decreases |routes|
  {
    hide HasRoute, Replaced, SetAll, Appended;
    if routes == [] {
      assert SetAll(f.blocks, map[]) == f.blocks;
    } else {
      var r := routes[0];
      assert r.path in Discovered(routes);
      var next := Replaced(f.blocks, r.path, r.body);
      forall path | path in Discovered(routes[1..]) ensures HasRoute(next, path) {
        assert path in Discovered(routes);
        ReplacedHasRoute(f.blocks, r.path, r.body, path);
      }
      RefreshSets(f.(blocks := next), routes[1..]);
      SetAllReplaced(f.blocks, r, Discovered(routes[1..]));
    }
  }

  lemma ReplacedHasRoute(blocks: seq<Block>, route: string, body: string, path: string)
    requires HasRoute(blocks, path)
    ensures HasRoute(Replaced(blocks, route, body), path)
  {
    var i :| 0 <= i < |blocks| && blocks[i].route == path;
    assert Replaced(blocks, route, body)[i].route == path;
  }

  lemma SetAllReplaced(blocks: seq<Block>, r: Route, later: map<string, string>)
    ensures SetAll(Replaced(blocks, r.path, r.body), later) == SetAll(blocks, map[r.path := r.body] + later)
  {
    hide Replaced, SetAll;
  }

  /** The bulk refresh of a well-formed fragment is the map update by all discovered routes, and
      refreshing again with the same routes leaves the text as it is. */
  lemma RefreshIsMapUpdate(f: Fragment, routes: seq<Route>)
    requires WellFormed(f) && GoodRoutes(routes)
    ensures var after := RefreshedBlocks(f, routes);
            && Refreshed(TextOf(f), routes) == TextOf(after)
            && AsMap(after.blocks) == AsMap(f.blocks) + Discovered(routes)
            && Refreshed(TextOf(after), routes) == TextOf(after)
  {
    hide Wrap, WellFormed, AsMap, RefreshedBlocks, Discovered;
    var after := RefreshedBlocks(f, routes);
    RefreshRefines(f, routes);
    RefreshRefines(after, routes);
    RefreshSettles(f, routes);
    RefreshSets(after, routes);
    assert SetAll(after.blocks, Discovered(routes)) == after.blocks;
  }

  // ---------------------------------------------------------------------------
  // Fragments as the bulk writers produce them
  // ---------------------------------------------------------------------------

  function Written(routes: seq<Route>): seq<Block> {
    if routes == [] then []
    else [Block(routes[0].path, routes[0].body, if |routes| == 1 then "" else "\n")] + Written(routes[1..])
  }

  function Wrapped(routes: seq<Route>): seq<string> {
    if routes == [] then [] else [Wrap(routes[0].path, routes[0].body)] + Wrapped(routes[1..])
  }

  /** What `_write_fragment` writes from wrapped blocks is a well-formed fragment with exactly
      those blocks. */
  lemma WrittenIsWellFormed(header: string, routes: seq<Route>)
    requires Quiet("# " + header) && GoodRoutes(routes)
    ensures var f := Fragment("# " + header + "\n" + GENERATED, Written(routes));
            FragmentText(header, Wrapped(routes)) == TextOf(f) && WellFormed(f)
  {
    hide IsRoute, Wrap, Quiet;
    JoinRenders(routes);
    WrittenBlocks(routes);
    QuietLine("# " + header);
    QuietGenerated();
    QuietJoin("# " + header + "\n", GENERATED);
  }

  lemma {:induction false} JoinRenders(routes: seq<Route>)
    ensures Join(Wrapped(routes)) == Render(Written(routes))
  {
    hide Wrap;
    if |routes| == 1 {
      assert routes[1..] == [];
      assert Written(routes)[1..] == [];
    } else if routes != [] {
      JoinRenders(routes[1..]);
      assert Wrapped(routes)[1..] == Wrapped(routes[1..]) && Written(routes)[1..] == Written(routes[1..]);
      assert |Wrapped(routes)| > 1 by { assert |Wrapped(routes[1..])| > 0; }
    }
  }

  lemma {:induction false} WrittenBlocks(routes: seq<Route>)
    requires GoodRoutes(routes)
    ensures forall b :: b in Written(routes) ==> WellFormedBlock(b)
  {
    if routes != [] {
      WrittenBlocks(routes[1..]);
      QuietEmpty();
      QuietLine("");
      assert routes[0] in routes && "" + "\n" == "\n";
    }
  }

  lemma QuietGenerated()
    ensures Quiet(GENERATED)
  {
    assert |BEGIN| == 15 && BEGIN[0] == '#' && END[0] == '#' && BEGIN[2] == '>' && END[2] == '<';
    assert GENERATED[2] == 'G';
    assert forall i :: 0 < i < |GENERATED| ==> GENERATED[i] != '#';
    forall i | 0 <= i < |GENERATED| ensures !(BEGIN <= GENERATED[i..]) && !(END <= GENERATED[i..]) {
      assert GENERATED[i..][0] == GENERATED[i];
      if i == 0 {
        assert GENERATED[i..][2] == 'G';
      }
    }
  }

  /** A quiet text after another stays quiet if it starts with its own hash sign. */
  lemma QuietJoin(s: string, t: string)
    requires Quiet(s) && Quiet(t) && (t == "" || t[0] == '#')
    ensures Quiet(s + t)
  {
    assert forall k :: 0 < k < 15 ==> BEGIN[k] != '#' && END[k] != '#';
    forall i | 0 <= i < |s + t| ensures !(BEGIN <= (s + t)[i..]) && !(END <= (s + t)[i..]) {
      if i >= |s| {
        assert (s + t)[i..] == t[i - |s|..];
      } else if i + 15 <= |s| {
        assert (s + t)[i..][..15] == s[i..][..15];
      } else if i + 15 <= |s + t| {
        assert (s + t)[i..][|s| - i] == '#';
      }
    }
  }
}
