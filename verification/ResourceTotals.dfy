/**
 The two totals that apps/services.py computes over the same nodes: the comprehensions
 of `federated_model_plan` and the accumulating loop of `federation_resource_lease`.
 Amounts of memory are reals; `round(x, 2)` is the nearest hundredth, ties to even.
 */
module ResourceTotals {
  import opened Options
  import opened Sums

  datatype Node = Node(
    nodeId: string, canFeed: bool, complete: bool, cpuAuthorized: Option<int>,
    ramAuthorized: Option<real>, ramAvailable: Option<real>,
    relayUrl: Option<string>, allowedTasks: seq<string>, canHostLlm: bool)

  datatype Transport = Lan8010 | PublicRelay

  datatype LeaseStatus = LlmHostReady | JobWorkerReady | HeartbeatOnly

  datatype Lease = Lease(nodeId: string, transport: Transport, cpu: int, ram: real, available: real, status: LeaseStatus)

  datatype Totals = Totals(
    devices: int, lanDevices: int, relayDevices: int, cpu: int, ram: real, available: real, llmHosts: int)

  datatype Plan = Plan(deviceCount: int, runtimeNodeCount: int, cpu: int, ram: real, available: real)

  // ---------------------------------------------------------------- rounding

  function Round2(x: real): real {
    var n := (x * 100.0).Floor;
    var rest := x * 100.0 - n as real;
    var up := rest > 0.5 || (rest == 0.5 && n % 2 != 0);
    (if up then n + 1 else n) as real / 100.0
  }

  predicate IsHundredths(x: real) {
    (x * 100.0).Floor as real == x * 100.0
  }

  lemma RoundingError(x: real)
    ensures -0.005 <= Round2(x) - x <= 0.005
    ensures IsHundredths(Round2(x))
  {
    var n := (x * 100.0).Floor;
    var k := if x * 100.0 - n as real > 0.5 || (x * 100.0 - n as real == 0.5 && n % 2 != 0) then n + 1 else n;
    assert Round2(x) * 100.0 == k as real;
  }

  lemma HundredthsStay(x: real)
    requires IsHundredths(x)
    ensures Round2(x) == x
  {
  }

  lemma HundredthsAdd(x: real, y: real)
    requires IsHundredths(x) && IsHundredths(y)
    ensures IsHundredths(x + y)
  {
    var a, b := (x * 100.0).Floor, (y * 100.0).Floor;
    assert (x + y) * 100.0 == (a + b) as real;
  }

  // ---------------------------------------------------------------- the plan

  predicate Contains(s: string, sub: string) {
    exists i :: 0 <= i <= |s| && sub <= s[i..]
  }

  predicate OnLan(node: Node) {
    var url := node.relayUrl.GetOr("");
    Contains(url, "127.0.0.1:8010") || Contains(url, "localhost:8010") || Contains(url, "192.168.")
  }

  predicate OffLan(node: Node) { !OnLan(node) }

  predicate HostsLlm(node: Node) { node.canHostLlm }

  predicate Feeds(node: Node) {
    node.canFeed && node.complete
  }

  predicate RunsJobs(node: Node) {
    "preprocess_text" in node.allowedTasks && OnLan(node)
  }

  function Select(nodes: seq<Node>, p: Node -> bool): seq<Node> {
    if nodes == [] then [] else (if p(nodes[0]) then [nodes[0]] else []) + Select(nodes[1..], p)
  }

  function CpuOf(node: Node): int { node.cpuAuthorized.GetOr(0) }

  function RamOf(node: Node): real { node.ramAuthorized.GetOr(0.0) }

  function AvailableOf(node: Node): real { node.ramAvailable.GetOr(0.0) }

  function SumReal(nodes: seq<Node>, f: Node -> real): real {
    if nodes == [] then 0.0 else f(nodes[0]) + SumReal(nodes[1..], f)
  }

  function FederatedModelPlan(nodes: seq<Node>): Plan {
    var feeders := Select(nodes, Feeds);
    var runtimeReady := Select(feeders, RunsJobs);
    Plan(|feeders|, |runtimeReady|, Sum(feeders, CpuOf),
         Round2(SumReal(feeders, RamOf)), Round2(SumReal(feeders, AvailableOf)))
  }

  // ---------------------------------------------------------------- the lease

  function LeaseOf(node: Node): Lease {
    Lease(node.nodeId, if OnLan(node) then Lan8010 else PublicRelay, CpuOf(node),
          Round2(RamOf(node)), Round2(AvailableOf(node)),
          if node.canHostLlm then LlmHostReady else if node.allowedTasks != [] then JobWorkerReady else HeartbeatOnly)
  }

  function Leases(nodes: seq<Node>): seq<Lease> {
    var feeders := Select(nodes, Feeds);
    seq(|feeders|, i requires 0 <= i < |feeders| => LeaseOf(feeders[i]))
  }

  function RoundedRam(node: Node): real { Round2(RamOf(node)) }

  function RoundedAvailable(node: Node): real { Round2(AvailableOf(node)) }

  /** The running totals after the devices `feeders`, before the final rounding. */
  ghost predicate TotalsOf(t: Totals, feeders: seq<Node>) {
    && t.devices == |feeders|
    && t.lanDevices == |Select(feeders, OnLan)|
    && t.relayDevices == |Select(feeders, OffLan)|
    && t.cpu == Sum(feeders, CpuOf)
    && t.ram == SumReal(feeders, RoundedRam)
    && t.available == SumReal(feeders, RoundedAvailable)
    && t.llmHosts == |Select(feeders, HostsLlm)|
  }

  lemma {:induction false} SelectAppend(nodes: seq<Node>, node: Node, p: Node -> bool)
    ensures Select(nodes + [node], p) == Select(nodes, p) + (if p(node) then [node] else [])
  {
    if nodes == [] {
      assert nodes + [node] == [node];
      assert [node][1..] == [];
    } else {
      SelectAppend(nodes[1..], node, p);
      assert (nodes + [node])[1..] == nodes[1..] + [node];
    }
  }

  lemma {:induction false} SumRealAppend(nodes: seq<Node>, node: Node, f: Node -> real)
    ensures SumReal(nodes + [node], f) == SumReal(nodes, f) + f(node)
  {
    if nodes == [] {
      assert nodes + [node] == [node];
      assert [node][1..] == [];
    } else {
      SumRealAppend(nodes[1..], node, f);
      assert (nodes + [node])[1..] == nodes[1..] + [node];
    }
  }

  function AddLease(t: Totals, node: Node): Totals {
    var lease := LeaseOf(node);
    Totals(t.devices + 1,
           t.lanDevices + (if lease.transport == Lan8010 then 1 else 0),
           t.relayDevices + (if lease.transport == PublicRelay then 1 else 0),
           t.cpu + lease.cpu, t.ram + lease.ram, t.available + lease.available,
           t.llmHosts + (if node.canHostLlm then 1 else 0))
  }

  lemma OneDeviceMore(t: Totals, feeders: seq<Node>, node: Node)
    requires TotalsOf(t, feeders)
    ensures TotalsOf(AddLease(t, node), feeders + [node])
  {
    SelectAppend(feeders, node, OnLan);
    SelectAppend(feeders, node, OffLan);
    SelectAppend(feeders, node, HostsLlm);
    SumOfOneMore(feeders, node, CpuOf);
    SumRealAppend(feeders, node, RoundedRam);
    SumRealAppend(feeders, node, RoundedAvailable);
  }

  method FederationResourceLease(nodes: seq<Node>) returns (leases: seq<Lease>, totals: Totals)
    ensures leases == Leases(nodes)
    ensures TotalsOf(totals, Select(nodes, Feeds))
  {
    leases := [];
    totals := Totals(0, 0, 0, 0, 0.0, 0.0, 0);
    for i := 0 to |nodes|
      invariant leases == Leases(nodes[..i])
      invariant TotalsOf(totals, Select(nodes[..i], Feeds))
    {
      var node := nodes[i];
      assert nodes[..i + 1] == nodes[..i] + [node];
      SelectAppend(nodes[..i], node, Feeds);
      ghost var before, after := Select(nodes[..i], Feeds), Select(nodes[..i + 1], Feeds);
      assert after == if Feeds(node) then before + [node] else before;
      if Feeds(node) {
        OneDeviceMore(totals, before, node);
        leases := leases + [LeaseOf(node)];
        totals := AddLease(totals, node);
      }
    }
    assert nodes[..|nodes|] == nodes;
    RoundedSum(Select(nodes, Feeds), RoundedRam, RamOf);
    RoundedSum(Select(nodes, Feeds), RoundedAvailable, AvailableOf);
    totals := totals.(ram := Round2(totals.ram), available := Round2(totals.available));
  }

  // ---------------------------------------------------------------- agreement

  /**
   A sum of rounded amounts is already in hundredths, so the last rounding of the lease
   changes nothing, and it differs from the exact sum by half a hundredth per term.
   */
  lemma {:induction false} RoundedSum(nodes: seq<Node>, rounded: Node -> real, exact: Node -> real)
    requires forall n :: rounded(n) == Round2(exact(n))
    ensures IsHundredths(SumReal(nodes, rounded))
    ensures Round2(SumReal(nodes, rounded)) == SumReal(nodes, rounded)
    ensures -0.005 * (|nodes| as real) <= SumReal(nodes, rounded) - SumReal(nodes, exact) <= 0.005 * (|nodes| as real)
  {
    if nodes != [] {
      RoundedSum(nodes[1..], rounded, exact);
      RoundingError(exact(nodes[0]));
      HundredthsAdd(rounded(nodes[0]), SumReal(nodes[1..], rounded));
    }
    HundredthsStay(SumReal(nodes, rounded));
  }

  lemma {:induction false} SelectSplits(nodes: seq<Node>)
    ensures |Select(nodes, OnLan)| + |Select(nodes, OffLan)| == |nodes|
    ensures |Select(nodes, RunsJobs)| <= |Select(nodes, OnLan)|
    ensures |Select(nodes, RunsJobs)| == |Select(nodes, OnLan)| <==>
              forall n :: n in nodes && OnLan(n) ==> "preprocess_text" in n.allowedTasks
  {
    if nodes != [] {
      SelectSplits(nodes[1..]);
    }
  }

  function Distance(x: real, y: real): real {
    if x >= y then x - y else y - x
  }

  /** The two reports over the same nodes agree, memory up to accumulated rounding. */
  lemma TotalsAgree(nodes: seq<Node>, t: Totals)
    requires TotalsOf(t, Select(nodes, Feeds))
    ensures var plan := FederatedModelPlan(nodes);
            && t.devices == plan.deviceCount
            && t.cpu == plan.cpu
            && t.lanDevices + t.relayDevices == t.devices
            && plan.runtimeNodeCount <= t.lanDevices
            && (plan.runtimeNodeCount == t.lanDevices <==>
                  forall n :: n in Select(nodes, Feeds) && OnLan(n) ==> "preprocess_text" in n.allowedTasks)
            && Distance(t.ram, plan.ram) <= 0.005 * (plan.deviceCount as real) + 0.005
            && Distance(t.available, plan.available) <= 0.005 * (plan.deviceCount as real) + 0.005
  {
    var feeders := Select(nodes, Feeds);
    SelectSplits(feeders);
    RoundedSum(feeders, RoundedRam, RamOf);
    RoundedSum(feeders, RoundedAvailable, AvailableOf);
    RoundingError(SumReal(feeders, RamOf));
    RoundingError(SumReal(feeders, AvailableOf));
  }
}
