/** The local workflow runner and its tracking buffer.

    Source: `local_workflow_runner.LocalWorkflowRunner`. What a node's script or handler
    does is an oracle carried by the node; whether a request lands is an oracle of the
    runner, indexed by the request's position on the wire. */
module Runner {
  import opened Bom

  /** What running a node would do: a Python handler that returns or raises, a deploy
      script with the Resources it renders, or nothing because the node has no script. */
  datatype Work = Handler(ok: bool) | Script(ok: bool, resources: seq<string>) | NoScript

  datatype Node = Node(instance: string, className: string, rid: string, work: Work)

  datatype Mode = Mode(destroy: bool, dryRun: bool) {
    function SuccessStatus(): string {
      if destroy then "DESTROYED" else if dryRun then "PLANNED" else "DEPLOYED"
    }

    function FinalStatus(): string {
      if destroy then "DESTROYED" else if dryRun then "PLANNED" else "COMPLETED"
    }
  }

  /** A status or resource call to ms-deployment. */
  datatype Call =
    | SetStatus(rid: string, status: string)
    | SetCsdStatus(csd: string, status: string)
    | PostResources(rid: string, resources: seq<string>, instance: string)

  datatype Request = Request(url: string, call: Call)

  /** Whether the node settles. A core node is a status flip; a handler cannot preview, so
      a dry run does not run it. */
  predicate Succeeds(n: Node, mode: Mode) {
    || n.className == CORE_REPO_CLASS
    || match n.work
       case Handler(ok) => ok || mode.dryRun
       case Script(ok, _) => ok
       case NoScript => true
  }

  /** What makes a run stop at a node: its deploy script fails, or, when the run is for real, its
      handler does. A core node and one with nothing to run never stop it. */
  ghost predicate Fails(n: Node, mode: Mode) {
    && n.className != CORE_REPO_CLASS
    && ((n.work.Script? && !n.work.ok) || (n.work.Handler? && !n.work.ok && !mode.dryRun))
  }

  /** The Resource submission a node makes while it runs. */
  function Produced(n: Node, mode: Mode): seq<Call> {
    if n.className != CORE_REPO_CLASS && n.work.Script? && n.work.ok && !mode.destroy && !mode.dryRun
       && n.rid != "" && n.work.resources != []
    then [PostResources(n.rid, n.work.resources, n.instance)]
    else []
  }

  // ---------------------------------------------------------------------------
  // What a run should look like from outside
  // ---------------------------------------------------------------------------

  /** The length of the longest prefix of nodes that all succeed. */
  function SettledCount(nodes: seq<Node>, mode: Mode): (k: nat)
    ensures k <= |nodes|
    ensures forall i :: 0 <= i < k ==> Succeeds(nodes[i], mode)
    ensures k < |nodes| ==> !Succeeds(nodes[k], mode)
  {
    if nodes == [] || !Succeeds(nodes[0], mode) then 0 else 1 + SettledCount(nodes[1..], mode)
  }

  function Instances(nodes: seq<Node>): seq<string> {
    seq(|nodes|, i requires 0 <= i < |nodes| => nodes[i].instance)
  }

  function NodeStatus(n: Node, mode: Mode): string {
    if Succeeds(n, mode) then mode.SuccessStatus() else "FAILED"
  }

  /** The calls of one reached node: what it produced, then its one status. */
  function NodeTrace(n: Node, mode: Mode): seq<Call> {
    Produced(n, mode) + [SetStatus(n.rid, NodeStatus(n, mode))]
  }

  function NodesTrace(nodes: seq<Node>, mode: Mode): seq<Call> {
    if nodes == [] then []
    else NodesTrace(nodes[..|nodes| - 1], mode) + NodeTrace(nodes[|nodes| - 1], mode)
  }

  /** The nodes a run gets to: those that settle and the one it stops at. */
  function Reached(nodes: seq<Node>, mode: Mode): seq<Node> {
    var k := SettledCount(nodes, mode);
    if k < |nodes| then nodes[..k + 1] else nodes
  }

  function RunTrace(csd: string, nodes: seq<Node>, mode: Mode): seq<Call> {
    [SetCsdStatus(csd, "STARTED")]
    + NodesTrace(Reached(nodes, mode), mode)
    + [SetCsdStatus(csd, if SettledCount(nodes, mode) == |nodes| then mode.FinalStatus() else "FAILED")]
  }

  function At(url: string, calls: seq<Call>): seq<Request> {
    seq(|calls|, i requires 0 <= i < |calls| => Request(url, calls[i]))
  }

  /** `calls` were issued, in order, between two states of the runner's buffer and wire. */
  ghost predicate Issued(
    tracking: bool, url: string, calls: seq<Call>,
    deferred0: seq<Call>, sent0: seq<Request>, deferred: seq<Call>, sent: seq<Request>)
  {
    if tracking then sent == sent0 + At(url, calls) && deferred == deferred0
    else sent == sent0 && deferred == deferred0 + calls
  }

  lemma IssuedThen(
    tracking: bool, url: string, a: seq<Call>, b: seq<Call>,
    deferred0: seq<Call>, sent0: seq<Request>, deferred1: seq<Call>, sent1: seq<Request>,
    deferred2: seq<Call>, sent2: seq<Request>)
    requires Issued(tracking, url, a, deferred0, sent0, deferred1, sent1)
    requires Issued(tracking, url, b, deferred1, sent1, deferred2, sent2)
    ensures Issued(tracking, url, a + b, deferred0, sent0, deferred2, sent2)
  {
    assert At(url, a + b) == At(url, a) + At(url, b);
  }

  lemma NodesTraceNone(mode: Mode)
    ensures NodesTrace([], mode) == []
  {
  }

  lemma NodesTraceStep(nodes: seq<Node>, mode: Mode, i: nat)
    requires i < |nodes|
    ensures NodesTrace(nodes[..i + 1], mode) == NodesTrace(nodes[..i], mode) + NodeTrace(nodes[i], mode)
  {
    assert nodes[..i + 1][..i] == nodes[..i];
  }

  lemma InstancesStep(nodes: seq<Node>, i: nat)
    requires i <= |nodes|
    ensures Instances([]) == []
    ensures i < |nodes| ==> Instances(nodes[..i + 1]) == Instances(nodes[..i]) + [nodes[i].instance]
  {
  }

  lemma RunTraceStops(csd: string, nodes: seq<Node>, mode: Mode, i: nat)
    requires i < |nodes| && !Succeeds(nodes[i], mode)
    requires forall j :: 0 <= j < i ==> Succeeds(nodes[j], mode)
    ensures SettledCount(nodes, mode) == i
    ensures RunTrace(csd, nodes, mode)
            == [SetCsdStatus(csd, "STARTED")] + NodesTrace(nodes[..i + 1], mode) + [SetCsdStatus(csd, "FAILED")]
  {
    hide Succeeds, NodesTrace, SettledCount;
  }

  lemma RunTraceCompletes(csd: string, nodes: seq<Node>, mode: Mode)
    requires forall j :: 0 <= j < |nodes| ==> Succeeds(nodes[j], mode)
    ensures SettledCount(nodes, mode) == |nodes|
    ensures RunTrace(csd, nodes, mode)
            == [SetCsdStatus(csd, "STARTED")] + NodesTrace(nodes, mode) + [SetCsdStatus(csd, mode.FinalStatus())]
  {
  }

  // ---------------------------------------------------------------------------
  // The runner
  // ---------------------------------------------------------------------------

  class LocalWorkflowRunner {
    var baseUrl: string
    var tracking: bool
    var deferred: seq<Call>
    var lastSucceeded: seq<string>
    /** Every request put on the wire, in order. */
    var sent: seq<Request>
    /** Whether the request at a given position of the wire lands. */
    const lands: (nat, Request) -> bool

    constructor (baseUrl: string, tracking: bool, lands: (nat, Request) -> bool)
      ensures this.baseUrl == baseUrl && this.tracking == tracking && this.lands == lands
      ensures deferred == [] && lastSucceeded == [] && sent == []
    {
      this.baseUrl, this.tracking, this.lands := baseUrl, tracking, lands;
      deferred, lastSucceeded, sent := [], [], [];
    }

    /** One status or resource call: POSTed when tracking, buffered otherwise. */
    method Issue(call: Call) returns (landed: bool)
      modifies this`deferred, this`sent
      ensures Issued(tracking, baseUrl, [call], old(deferred), old(sent), deferred, sent)
      ensures landed == (tracking && lands(|old(sent)|, Request(baseUrl, call)))
    {
      if !tracking {
        deferred := deferred + [call];
        return false;
      }
      landed := lands(|sent|, Request(baseUrl, call));
      sent := sent + [Request(baseUrl, call)];
    }

    /** Execute one non-core node; a successful deploy submits what it produced. */
    method ExecuteNode(n: Node, mode: Mode) returns (ok: bool)
      requires n.className != CORE_REPO_CLASS
      modifies this`deferred, this`sent
      ensures ok == Succeeds(n, mode) == !Fails(n, mode)
      ensures Issued(tracking, baseUrl, Produced(n, mode), old(deferred), old(sent), deferred, sent)
    {
      match n.work {
        case Handler(result) =>
          ok := if mode.dryRun then true else result;
        case NoScript =>
          ok := true;
        case Script(result, resources) =>
          ok := result;
          if ok && !mode.destroy && !mode.dryRun && n.rid != "" && resources != [] {
            var _ := Issue(PostResources(n.rid, resources, n.instance));
          }
      }
    }

    /** Run one node and settle its status. */
    method RunNode(n: Node, mode: Mode) returns (ok: bool)
      modifies this`deferred, this`sent
      ensures ok == Succeeds(n, mode)
      ensures Issued(tracking, baseUrl, NodeTrace(n, mode), old(deferred), old(sent), deferred, sent)
    {
      hide Issued;
      var status := mode.SuccessStatus();
      if n.className == CORE_REPO_CLASS {
        var _ := Issue(SetStatus(n.rid, status));
        assert NodeTrace(n, mode) == [SetStatus(n.rid, status)];
        return true;
      }
      ok := ExecuteNode(n, mode);
      if !ok {
        status := "FAILED";
      }
      label executed:
      var _ := Issue(SetStatus(n.rid, status));
      IssuedThen(tracking, baseUrl, Produced(n, mode), [SetStatus(n.rid, status)],
                 old(deferred), old(sent), old@executed(deferred), old@executed(sent), deferred, sent);
    }

    /** Execute the nodes in DAG order, stopping at the first failure. */
    method Run(csd: string, nodes: seq<Node>, destroy: bool, dryRun: bool) returns (ok: bool)
      modifies this`deferred, this`sent, this`lastSucceeded
      ensures var mode := Mode(destroy, dryRun);
              var k := SettledCount(nodes, mode);
              && (ok <==> k == |nodes|) && (ok <==> forall i :: 0 <= i < |nodes| ==> !Fails(nodes[i], mode))
              && lastSucceeded == (if dryRun then [] else Instances(nodes[..k]))
              && Issued(tracking, baseUrl, RunTrace(csd, nodes, mode), old(deferred), old(sent), deferred, sent)
    {
      hide Issued, RunTrace, NodesTrace, NodeTrace, Succeeds, Fails, SettledCount, Instances, At;
      var mode := Mode(destroy, dryRun);
      RunCompletes(nodes, mode);
      var succeeded: seq<string> := [];
      lastSucceeded := [];
      ghost var trace := [SetCsdStatus(csd, "STARTED")];
      var _ := Issue(SetCsdStatus(csd, "STARTED"));
      NodesTraceNone(mode);
      InstancesStep(nodes, 0);
      for i := 0 to |nodes|
        invariant forall j :: 0 <= j < i ==> Succeeds(nodes[j], mode)
        invariant succeeded == Instances(nodes[..i])
        invariant lastSucceeded == if dryRun then [] else succeeded
        invariant trace == [SetCsdStatus(csd, "STARTED")] + NodesTrace(nodes[..i], mode)
        invariant Issued(tracking, baseUrl, trace, old(deferred), old(sent), deferred, sent)
      {
        label before:
        ok := RunNode(nodes[i], mode);
        IssuedThen(tracking, baseUrl, trace, NodeTrace(nodes[i], mode),
                   old(deferred), old(sent), old@before(deferred), old@before(sent), deferred, sent);
        trace := trace + NodeTrace(nodes[i], mode);
        NodesTraceStep(nodes, mode, i);
        InstancesStep(nodes, i);
        assert trace == [SetCsdStatus(csd, "STARTED")] + NodesTrace(nodes[..i + 1], mode);
        if !ok {
          label failed:
          var _ := Issue(SetCsdStatus(csd, "FAILED"));
          IssuedThen(tracking, baseUrl, trace, [SetCsdStatus(csd, "FAILED")],
                     old(deferred), old(sent), old@failed(deferred), old@failed(sent), deferred, sent);
          RunTraceStops(csd, nodes, mode, i);
          return;
        }
        succeeded := succeeded + [nodes[i].instance];
        if !dryRun {
          lastSucceeded := succeeded;
        }
      }
      assert nodes[..|nodes|] == nodes;
      RunTraceCompletes(csd, nodes, mode);
      label done:
      var _ := Issue(SetCsdStatus(csd, mode.FinalStatus()));
      IssuedThen(tracking, baseUrl, trace, [SetCsdStatus(csd, mode.FinalStatus())],
                 old(deferred), old(sent), old@done(deferred), old@done(sent), deferred, sent);
      return true;
    }

    /** Flush what was buffered, in order, and track from now on. Returns how many of the
        flushed calls landed. */
    method ReplayInto(url: string) returns (landed: nat)
      modifies this
      ensures tracking && baseUrl == url && deferred == []
      ensures sent == old(sent) + At(url, old(deferred))
      ensures landed == LandedCount(lands, |old(sent)|, At(url, old(deferred)))
      ensures lastSucceeded == old(lastSucceeded)
    {
      baseUrl, tracking := url, true;
      var calls := deferred;
      deferred := [];
      landed := 0;
      for i := 0 to |calls|
        invariant tracking && baseUrl == url && deferred == [] && lastSucceeded == old(lastSucceeded)
        invariant sent == old(sent) + At(url, calls[..i])
        invariant landed == LandedCount(lands, |old(sent)|, At(url, calls[..i]))
      {
        var ok := Issue(calls[i]);
        assert At(url, calls[..i + 1]) == At(url, calls[..i]) + [Request(url, calls[i])];
        LandedAppend(lands, |old(sent)|, At(url, calls[..i]), Request(url, calls[i]));
        if ok {
          landed := landed + 1;
        }
      }
      assert calls[..|calls|] == calls;
    }
  }

  function LandedCount(lands: (nat, Request) -> bool, from: nat, requests: seq<Request>): nat
    decreases |requests|
  {
    if requests == [] then 0
    else (if lands(from, requests[0]) then 1 else 0) + LandedCount(lands, from + 1, requests[1..])
  }

  lemma {:induction false} LandedAppend(lands: (nat, Request) -> bool, from: nat, requests: seq<Request>, last: Request)
    ensures LandedCount(lands, from, requests + [last])
            == LandedCount(lands, from, requests) + if lands(from + |requests|, last) then 1 else 0
    decreases |requests|
  {
    if requests != [] {
      LandedAppend(lands, from + 1, requests[1..], last);
      assert (requests + [last])[1..] == requests[1..] + [last];
    }
  }

  lemma LandedPositions(lands: (nat, Request) -> bool, from: nat, init: seq<Request>, last: Request)
    ensures (set i: nat | i < |init| + 1 && lands(from + i, (init + [last])[i]))
            == (set i: nat | i < |init| && lands(from + i, init[i])) + if lands(from + |init|, last) then {|init|} else {}
  {
  }

  lemma {:induction false} LandedMeans(lands: (nat, Request) -> bool, from: nat, requests: seq<Request>)
    ensures LandedCount(lands, from, requests) == |set i: nat | i < |requests| && lands(from + i, requests[i])|
  {
    if requests != [] {
      var init, last := requests[..|requests| - 1], requests[|requests| - 1];
      assert requests == init + [last];
      LandedMeans(lands, from, init);
      LandedAppend(lands, from, init, last);
      LandedPositions(lands, from, init, last);
    }
  }

  // ---------------------------------------------------------------------------
  // Sessions: several runs, tracked live or buffered and replayed
  // ---------------------------------------------------------------------------

  datatype RunArgs = RunArgs(csd: string, nodes: seq<Node>, mode: Mode)

  function SessionTrace(runs: seq<RunArgs>): seq<Call> {
    if runs == [] then []
    else
      var r := runs[|runs| - 1];
      SessionTrace(runs[..|runs| - 1]) + RunTrace(r.csd, r.nodes, r.mode)
  }

  method RunAll(runner: LocalWorkflowRunner, runs: seq<RunArgs>)
    modifies runner
    ensures runner.tracking == old(runner.tracking) && runner.baseUrl == old(runner.baseUrl)
    ensures Issued(runner.tracking, runner.baseUrl, SessionTrace(runs),
                   old(runner.deferred), old(runner.sent), runner.deferred, runner.sent)
  {
    hide RunTrace;
    for i := 0 to |runs|
      invariant runner.tracking == old(runner.tracking) && runner.baseUrl == old(runner.baseUrl)
      invariant Issued(runner.tracking, runner.baseUrl, SessionTrace(runs[..i]),
                       old(runner.deferred), old(runner.sent), runner.deferred, runner.sent)
    {
      var r := runs[i];
      label before:
      var _ := runner.Run(r.csd, r.nodes, r.mode.destroy, r.mode.dryRun);
      IssuedThen(runner.tracking, runner.baseUrl, SessionTrace(runs[..i]), RunTrace(r.csd, r.nodes, r.mode),
                 old(runner.deferred), old(runner.sent),
                 old@before(runner.deferred), old@before(runner.sent), runner.deferred, runner.sent);
      assert runs[..i + 1][..i] == runs[..i];
    }
    assert runs[..|runs|] == runs;
  }

  /** Buffering and then replaying puts on the wire exactly what live tracking would have,
      request for request and each once, whatever the nodes do; a second replay puts
      nothing more. */
  method ReplayMatchesLive(url: string, runs: seq<RunArgs>, lands: (nat, Request) -> bool)
    returns (live: LocalWorkflowRunner, replayed: LocalWorkflowRunner, landed: nat, again: nat)
    ensures fresh(live) && fresh(replayed)
    ensures |live.sent| == |SessionTrace(runs)|
    ensures forall i :: 0 <= i < |live.sent| ==> live.sent[i] == Request(url, SessionTrace(runs)[i])
    ensures replayed.sent == live.sent && replayed.deferred == live.deferred == []
    ensures landed == LandedCount(lands, 0, live.sent) && again == 0
  {
    live := new LocalWorkflowRunner(url, true, lands);
    RunAll(live, runs);
    replayed := new LocalWorkflowRunner(url, false, lands);
    RunAll(replayed, runs);
    assert [] + At(url, SessionTrace(runs)) == At(url, SessionTrace(runs));
    assert replayed.sent == [] && replayed.deferred == SessionTrace(runs);
    assert live.sent == At(url, SessionTrace(runs));
    landed := replayed.ReplayInto(url);
    assert replayed.sent == live.sent;
    assert landed == LandedCount(lands, 0, live.sent);
    assert At(url, []) == [];
    again := replayed.ReplayInto(url);
  }

  // ---------------------------------------------------------------------------
  // What a trace says
  // ---------------------------------------------------------------------------

  function CsdStatuses(calls: seq<Call>): seq<string> {
    if calls == [] then []
    else
      var c := calls[|calls| - 1];
      CsdStatuses(calls[..|calls| - 1]) + if c.SetCsdStatus? then [c.status] else []
  }

  function StatusesOf(calls: seq<Call>, rid: string): seq<string> {
    if calls == [] then []
    else
      var c := calls[|calls| - 1];
      StatusesOf(calls[..|calls| - 1], rid) + if c.SetStatus? && c.rid == rid then [c.status] else []
  }

  lemma {:induction false} CsdStatusesAppend(a: seq<Call>, b: seq<Call>)
    ensures CsdStatuses(a + b) == CsdStatuses(a) + CsdStatuses(b)
  {
    if b == [] {
      assert a + b == a;
    } else {
      CsdStatusesAppend(a, b[..|b| - 1]);
      assert (a + b)[..|a + b| - 1] == a + b[..|b| - 1];
    }
  }

  lemma {:induction false} StatusesOfAppend(a: seq<Call>, b: seq<Call>, rid: string)
    ensures StatusesOf(a + b, rid) == StatusesOf(a, rid) + StatusesOf(b, rid)
  {
    if b == [] {
      assert a + b == a;
    } else {
      StatusesOfAppend(a, b[..|b| - 1], rid);
      assert (a + b)[..|a + b| - 1] == a + b[..|b| - 1];
    }
  }

  lemma NodeTraceStatuses(n: Node, mode: Mode, rid: string)
    ensures CsdStatuses(NodeTrace(n, mode)) == []
    ensures StatusesOf(NodeTrace(n, mode), rid) == if n.rid == rid then [NodeStatus(n, mode)] else []
  {
    CsdStatusesAppend(Produced(n, mode), [SetStatus(n.rid, NodeStatus(n, mode))]);
    StatusesOfAppend(Produced(n, mode), [SetStatus(n.rid, NodeStatus(n, mode))], rid);
  }

  lemma {:induction false} NodesTraceCsd(nodes: seq<Node>, mode: Mode)
    ensures CsdStatuses(NodesTrace(nodes, mode)) == []
  {
    hide NodeTrace;
    if nodes != [] {
      var init, n := nodes[..|nodes| - 1], nodes[|nodes| - 1];
      NodesTraceCsd(init, mode);
      NodeTraceStatuses(n, mode, n.rid);
      CsdStatusesAppend(NodesTrace(init, mode), NodeTrace(n, mode));
    }
  }

  /** A run completes if and only if none of its nodes fails. */
  lemma RunCompletes(nodes: seq<Node>, mode: Mode)
    ensures SettledCount(nodes, mode) == |nodes| <==> forall i :: 0 <= i < |nodes| ==> !Fails(nodes[i], mode)
  {
    hide Succeeds, Fails, SettledCount;
    forall i | 0 <= i < |nodes| ensures Succeeds(nodes[i], mode) <==> !Fails(nodes[i], mode) {
      SucceedsUnlessFails(nodes[i], mode);
    }
  }

  lemma SucceedsUnlessFails(n: Node, mode: Mode)
    ensures Succeeds(n, mode) <==> !Fails(n, mode)
  {
  }

  /** The changeset is STARTED first and gets exactly one more status, last of all: FAILED if
      some node fails, and otherwise DESTROYED, PLANNED or COMPLETED by the kind of run. */
  lemma ChangesetTrace(csd: string, nodes: seq<Node>, mode: Mode)
    ensures var closing := if exists i :: 0 <= i < |nodes| && Fails(nodes[i], mode) then "FAILED"
                           else if mode.destroy then "DESTROYED" else if mode.dryRun then "PLANNED" else "COMPLETED";
            var trace := RunTrace(csd, nodes, mode);
            && CsdStatuses(trace) == ["STARTED", closing] && |trace| >= 2
            && trace[0] == SetCsdStatus(csd, "STARTED") && trace[|trace| - 1] == SetCsdStatus(csd, closing)
  {
    hide NodesTrace, Reached, Fails, SettledCount;
    RunCompletes(nodes, mode);
    var middle := NodesTrace(Reached(nodes, mode), mode);
    var last := SetCsdStatus(csd, if SettledCount(nodes, mode) == |nodes| then mode.FinalStatus() else "FAILED");
    NodesTraceCsd(Reached(nodes, mode), mode);
    CsdStatusesAppend([SetCsdStatus(csd, "STARTED")], middle);
    CsdStatusesAppend([SetCsdStatus(csd, "STARTED")] + middle, [last]);
  }

  lemma LastNodeStatuses(init: seq<Node>, n: Node, mode: Mode, rid: string)
    ensures StatusesOf(NodesTrace(init + [n], mode), rid)
            == StatusesOf(NodesTrace(init, mode), rid) + if n.rid == rid then [NodeStatus(n, mode)] else []
  {
    hide NodeTrace, StatusesOf;
    assert (init + [n])[..|init|] == init;
    NodeTraceStatuses(n, mode, rid);
    StatusesOfAppend(NodesTrace(init, mode), NodeTrace(n, mode), rid);
  }

  lemma {:induction false} NodesTraceAbsent(nodes: seq<Node>, mode: Mode, rid: string)
    requires forall i :: 0 <= i < |nodes| ==> nodes[i].rid != rid
    ensures StatusesOf(NodesTrace(nodes, mode), rid) == []
  {
    if nodes != [] {
      hide NodesTrace, StatusesOf;
      var init, n := nodes[..|nodes| - 1], nodes[|nodes| - 1];
      assert nodes == init + [n];
      NodesTraceAbsent(init, mode, rid);
      LastNodeStatuses(init, n, mode, rid);
    }
  }

  lemma {:induction false} NodesTracePresent(nodes: seq<Node>, mode: Mode, i: nat)
    requires i < |nodes|
    requires forall i, j :: 0 <= i < j < |nodes| ==> nodes[i].rid != nodes[j].rid
    ensures StatusesOf(NodesTrace(nodes, mode), nodes[i].rid) == [NodeStatus(nodes[i], mode)]
  {
    hide NodesTrace, StatusesOf, NodeStatus;
    var init, n := nodes[..|nodes| - 1], nodes[|nodes| - 1];
    assert nodes == init + [n];
    LastNodeStatuses(init, n, mode, nodes[i].rid);
    if i < |init| {
      assert nodes[i].rid != nodes[|init|].rid;
      NodesTracePresent(init, mode, i);
    } else {
      NodesTraceAbsent(init, mode, n.rid);
    }
  }

  lemma RunTraceStatuses(csd: string, nodes: seq<Node>, mode: Mode, rid: string)
    ensures StatusesOf(RunTrace(csd, nodes, mode), rid) == StatusesOf(NodesTrace(Reached(nodes, mode), mode), rid)
  {
    hide NodesTrace, Reached;
    var middle := NodesTrace(Reached(nodes, mode), mode);
    var last := SetCsdStatus(csd, if SettledCount(nodes, mode) == |nodes| then mode.FinalStatus() else "FAILED");
    StatusesOfAppend([SetCsdStatus(csd, "STARTED")], middle, rid);
    StatusesOfAppend([SetCsdStatus(csd, "STARTED")] + middle, [last], rid);
  }

  /** Every node a run reaches gets exactly one status, the success status if it settled and
      FAILED if it is where the run stopped; a node it does not reach gets none. */
  lemma NodeStatusTrace(csd: string, nodes: seq<Node>, mode: Mode, i: nat)
    requires i < |nodes|
    requires forall i, j :: 0 <= i < j < |nodes| ==> nodes[i].rid != nodes[j].rid
    ensures var k := SettledCount(nodes, mode);
            StatusesOf(RunTrace(csd, nodes, mode), nodes[i].rid)
            == if i < k then [if mode.destroy then "DESTROYED" else if mode.dryRun then "PLANNED" else "DEPLOYED"]
               else if i == k then ["FAILED"] else []
  {
    hide RunTrace, NodesTrace;
    var reached := Reached(nodes, mode);
    RunTraceStatuses(csd, nodes, mode, nodes[i].rid);
    if i < |reached| {
      NodesTracePresent(reached, mode, i);
    } else {
      NodesTraceAbsent(reached, mode, nodes[i].rid);
    }
  }

  /** The first node that fails is where a run stops: it gets the one FAILED status, the nodes
      before it their success status, those after it none, the changeset is closed as FAILED,
      and what settled is exactly what came before it. */
  lemma FirstFailure(csd: string, nodes: seq<Node>, mode: Mode, f: nat, i: nat)
    requires f < |nodes| && Fails(nodes[f], mode) && i < |nodes|
    requires forall j :: 0 <= j < f ==> !Fails(nodes[j], mode)
    requires forall i, j :: 0 <= i < j < |nodes| ==> nodes[i].rid != nodes[j].rid && nodes[i].instance != nodes[j].instance
    ensures CsdStatuses(RunTrace(csd, nodes, mode)) == ["STARTED", "FAILED"]
    ensures StatusesOf(RunTrace(csd, nodes, mode), nodes[i].rid)
            == if i == f then ["FAILED"]
               else if i > f then []
               else [if mode.destroy then "DESTROYED" else if mode.dryRun then "PLANNED" else "DEPLOYED"]
    ensures nodes[i].instance in Instances(nodes[..SettledCount(nodes, mode)]) <==> i < f
  {
    hide *;
    StopsAt(nodes, mode, f);
    ChangesetTrace(csd, nodes, mode);
    NodeStatusTrace(csd, nodes, mode, i);
    BeforeStop(nodes, f, i);
  }

  lemma StopsAt(nodes: seq<Node>, mode: Mode, f: nat)
    requires f <= |nodes| && (forall j :: 0 <= j < f ==> !Fails(nodes[j], mode)) && (f < |nodes| ==> Fails(nodes[f], mode))
    ensures SettledCount(nodes, mode) == f
  {
    hide Fails, Succeeds, SettledCount;
    forall j | 0 <= j < |nodes| ensures Succeeds(nodes[j], mode) <==> !Fails(nodes[j], mode) {
      SucceedsUnlessFails(nodes[j], mode);
    }
  }

  lemma BeforeStop(nodes: seq<Node>, f: nat, i: nat)
    requires f <= |nodes| && i < |nodes|
    requires forall i, j :: 0 <= i < j < |nodes| ==> nodes[i].instance != nodes[j].instance
    ensures nodes[i].instance in Instances(nodes[..f]) <==> i < f
  {
    if i < f {
      assert Instances(nodes[..f])[i] == nodes[i].instance;
    }
  }

  // ---------------------------------------------------------------------------
  // The order of the calls, and what is submitted
  // ---------------------------------------------------------------------------

  ghost function Filter(calls: seq<Call>, p: Call -> bool): seq<Call> {
    if calls == [] then []
    else
      var c := calls[|calls| - 1];
      Filter(calls[..|calls| - 1], p) + if p(c) then [c] else []
  }

  lemma {:induction false} FilterAppend(a: seq<Call>, b: seq<Call>, p: Call -> bool)
    ensures Filter(a + b, p) == Filter(a, p) + Filter(b, p)
  {
    if b == [] {
      assert a + b == a;
    } else {
      FilterAppend(a, b[..|b| - 1], p);
      assert (a + b)[..|a + b| - 1] == a + b[..|b| - 1];
    }
  }

  lemma FilterOne(c: Call, p: Call -> bool)
    ensures Filter([c], p) == if p(c) then [c] else []
  {
    assert [c][..0] == [];
  }

  lemma FilterNode(n: Node, mode: Mode, p: Call -> bool)
    ensures var status := SetStatus(n.rid, NodeStatus(n, mode));
            Filter(NodeTrace(n, mode), p)
            == (if Produced(n, mode) != [] && p(Produced(n, mode)[0]) then [Produced(n, mode)[0]] else [])
               + if p(status) then [status] else []
  {
    var status := SetStatus(n.rid, NodeStatus(n, mode));
    FilterAppend(Produced(n, mode), [status], p);
    FilterOne(status, p);
    if Produced(n, mode) != [] {
      FilterOne(Produced(n, mode)[0], p);
    }
  }

  lemma FilterLastNode(init: seq<Node>, n: Node, mode: Mode, p: Call -> bool)
    ensures Filter(NodesTrace(init + [n], mode), p) == Filter(NodesTrace(init, mode), p) + Filter(NodeTrace(n, mode), p)
  {
    assert (init + [n])[..|init|] == init;
    FilterAppend(NodesTrace(init, mode), NodeTrace(n, mode), p);
  }

  /** Away from the changeset's own statuses, a run's trace is that of the nodes it reaches. */
  lemma FilterRun(csd: string, nodes: seq<Node>, mode: Mode, p: Call -> bool)
    requires forall c: Call :: p(c) ==> !c.SetCsdStatus?
    ensures Filter(RunTrace(csd, nodes, mode), p) == Filter(NodesTrace(Reached(nodes, mode), mode), p)
  {
    hide NodesTrace, Reached, Filter;
    var started := SetCsdStatus(csd, "STARTED");
    var last := SetCsdStatus(csd, if SettledCount(nodes, mode) == |nodes| then mode.FinalStatus() else "FAILED");
    var middle := NodesTrace(Reached(nodes, mode), mode);
    FilterOne(started, p);
    FilterOne(last, p);
    FilterAppend([started], middle, p);
    FilterAppend([started] + middle, [last], p);
  }

  lemma FilterStatus(n: Node, mode: Mode, p: Call -> bool)
    requires forall c: Call :: p(c) <==> c.SetStatus?
    ensures Filter(NodeTrace(n, mode), p) == [SetStatus(n.rid, NodeStatus(n, mode))]
  {
    hide NodeTrace, Filter, NodeStatus;
    FilterNode(n, mode, p);
  }

  lemma FilterSubmits(n: Node, mode: Mode, rid: string, p: Call -> bool)
    requires forall c: Call :: p(c) <==> c.PostResources? && c.rid == rid
    ensures Filter(NodeTrace(n, mode), p) == if n.rid == rid then Produced(n, mode) else []
  {
    hide NodeTrace, Filter, NodeStatus;
    FilterNode(n, mode, p);
  }

  lemma NothingFiltered(mode: Mode, p: Call -> bool)
    ensures Filter(NodesTrace([], mode), p) == []
  {
  }

  lemma {:induction false} NodesInOrder(nodes: seq<Node>, mode: Mode, p: Call -> bool)
    requires forall c: Call :: p(c) <==> c.SetStatus?
    ensures Filter(NodesTrace(nodes, mode), p)
            == seq(|nodes|, i requires 0 <= i < |nodes| => SetStatus(nodes[i].rid, NodeStatus(nodes[i], mode)))
  {
    hide *;
    if nodes == [] {
      NothingFiltered(mode, p);
    } else {
      var init, n := nodes[..|nodes| - 1], nodes[|nodes| - 1];
      assert nodes == init + [n];
      NodesInOrder(init, mode, p);
      FilterLastNode(init, n, mode, p);
      FilterStatus(n, mode, p);
    }
  }

  /** The node statuses of a run come in the order of its nodes, one each up to where it
      stops. */
  lemma StatusesInOrder(csd: string, nodes: seq<Node>, mode: Mode)
    ensures var k := SettledCount(nodes, mode);
            Filter(RunTrace(csd, nodes, mode), (c: Call) => c.SetStatus?)
            == seq(k, i requires 0 <= i < k =>
                 SetStatus(nodes[i].rid, if mode.destroy then "DESTROYED" else if mode.dryRun then "PLANNED" else "DEPLOYED"))
               + if k < |nodes| then [SetStatus(nodes[k].rid, "FAILED")] else []
  {
    hide RunTrace, NodesTrace, Filter, Succeeds;
    var p := (c: Call) => c.SetStatus?;
    FilterRun(csd, nodes, mode, p);
    NodesInOrder(Reached(nodes, mode), mode, p);
  }

  lemma {:induction false} NodesSubmit(nodes: seq<Node>, mode: Mode, rid: string, p: Call -> bool)
    requires forall c: Call :: p(c) <==> c.PostResources? && c.rid == rid
    requires forall i, j :: 0 <= i < j < |nodes| ==> nodes[i].rid != nodes[j].rid
    ensures (forall i :: 0 <= i < |nodes| ==> nodes[i].rid != rid) ==> Filter(NodesTrace(nodes, mode), p) == []
    ensures forall i :: 0 <= i < |nodes| && nodes[i].rid == rid ==> Filter(NodesTrace(nodes, mode), p) == Produced(nodes[i], mode)
  {
    hide *;
    if nodes == [] {
      NothingFiltered(mode, p);
    } else {
      var last := |nodes| - 1;
      assert nodes == nodes[..last] + [nodes[last]];
      NodesSubmit(nodes[..last], mode, rid, p);
      FilterLastNode(nodes[..last], nodes[last], mode, p);
      FilterSubmits(nodes[last], mode, rid, p);
      if nodes[last].rid == rid {
        forall j | 0 <= j < last ensures nodes[..last][j].rid != rid {}
      }
    }
  }

  /** Exactly when Resources are submitted: a real deployment that settles, has an id and a
      script that rendered some submits exactly those, once; no other node submits any. */
  lemma ResourcesSubmitted(csd: string, nodes: seq<Node>, mode: Mode, i: nat)
    requires i < |nodes|
    requires forall i, j :: 0 <= i < j < |nodes| ==> nodes[i].rid != nodes[j].rid
    ensures var n := nodes[i];
            Filter(RunTrace(csd, nodes, mode), (c: Call) => c.PostResources? && c.rid == n.rid)
            == if i < SettledCount(nodes, mode) && !mode.destroy && !mode.dryRun && n.rid != ""
                  && n.className != CORE_REPO_CLASS && n.work.Script? && n.work.resources != []
               then [PostResources(n.rid, n.work.resources, n.instance)] else []
  {
    hide RunTrace, NodesTrace, Filter;
    var n := nodes[i];
    var p := (c: Call) => c.PostResources? && c.rid == n.rid;
    var reached := Reached(nodes, mode);
    FilterRun(csd, nodes, mode, p);
    NodesSubmit(reached, mode, n.rid, p);
    if i < |reached| {
      assert reached[i] == n;
    }
  }

  lemma {:induction false} NodesTraceResources(nodes: seq<Node>, mode: Mode, p: nat)
    requires p < |NodesTrace(nodes, mode)| && NodesTrace(nodes, mode)[p].PostResources?
    ensures !mode.destroy && !mode.dryRun
    ensures p + 1 < |NodesTrace(nodes, mode)|
    ensures NodesTrace(nodes, mode)[p + 1] == SetStatus(NodesTrace(nodes, mode)[p].rid, "DEPLOYED")
  {
    var init, n := nodes[..|nodes| - 1], nodes[|nodes| - 1];
    if p < |NodesTrace(init, mode)| {
      NodesTraceResources(init, mode, p);
    }
  }

  /** A Resource submission is always directly followed by the DEPLOYED status of the same
      deployment: nothing is submitted for a node that fails, in a destroy or in a dry run. */
  lemma ResourcesThenStatus(csd: string, nodes: seq<Node>, mode: Mode, p: nat)
    requires p < |RunTrace(csd, nodes, mode)| && RunTrace(csd, nodes, mode)[p].PostResources?
    ensures !mode.destroy && !mode.dryRun
    ensures p + 1 < |RunTrace(csd, nodes, mode)|
    ensures RunTrace(csd, nodes, mode)[p + 1] == SetStatus(RunTrace(csd, nodes, mode)[p].rid, "DEPLOYED")
  {
    NodesTraceResources(Reached(nodes, mode), mode, p - 1);
  }
}
