/**
 What the two resource reports hold, read off the nodes themselves: every total is a sum over
 all nodes of what a complete feeder contributes, other nodes contributing nothing.
 */
module ResourceMeaning {
  import opened Options
  import opened Sums
  import opened ResourceTotals

  /** The node may feed local models and has completed its federation. */
  predicate Counts(n: Node) { n.canFeed && n.complete }

  function Device(n: Node): int { if Counts(n) then 1 else 0 }

  function LanDevice(n: Node): int { if Counts(n) && OnLan(n) then 1 else 0 }

  function RelayDevice(n: Node): int { if Counts(n) && !OnLan(n) then 1 else 0 }

  function LlmHost(n: Node): int { if Counts(n) && n.canHostLlm then 1 else 0 }

  function RuntimeNode(n: Node): int { if Counts(n) && OnLan(n) && "preprocess_text" in n.allowedTasks then 1 else 0 }

  function Cpu(n: Node): int { if Counts(n) && n.cpuAuthorized.Some? then n.cpuAuthorized.value else 0 }

  function Ram(n: Node): real { if Counts(n) && n.ramAuthorized.Some? then n.ramAuthorized.value else 0.0 }

  function Available(n: Node): real { if Counts(n) && n.ramAvailable.Some? then n.ramAvailable.value else 0.0 }

  function LeasedRam(n: Node): real { if Counts(n) then Round2(Ram(n)) else 0.0 }

  function LeasedAvailable(n: Node): real { if Counts(n) then Round2(Available(n)) else 0.0 }

  lemma {:induction false} SelectedSum(nodes: seq<Node>, f: Node -> int, g: Node -> int)
    requires forall n :: n in nodes ==> g(n) == if Counts(n) then f(n) else 0
    ensures Sum(Select(nodes, Feeds), f) == Sum(nodes, g)
  {
    if nodes != [] {
      assert nodes[0] in nodes;
      SelectedSum(nodes[1..], f, g);
      SelectCons(nodes);
    }
  }

  lemma {:induction false} SelectedSumReal(nodes: seq<Node>, f: Node -> real, g: Node -> real)
    requires forall n :: n in nodes ==> g(n) == if Counts(n) then f(n) else 0.0
    ensures SumReal(Select(nodes, Feeds), f) == SumReal(nodes, g)
  {
    if nodes != [] {
      assert nodes[0] in nodes;
      SelectedSumReal(nodes[1..], f, g);
      SelectCons(nodes);
    }
  }

  lemma SelectCons(nodes: seq<Node>)
    requires nodes != []
    ensures !Counts(nodes[0]) ==> Select(nodes, Feeds) == Select(nodes[1..], Feeds)
    ensures Counts(nodes[0]) ==>
              Select(nodes, Feeds) != [] && Select(nodes, Feeds)[0] == nodes[0]
              && Select(nodes, Feeds)[1..] == Select(nodes[1..], Feeds)
  {
  }

  lemma {:induction false} SelectedCount(nodes: seq<Node>, p: Node -> bool, g: Node -> int)
    requires forall n :: n in nodes ==> g(n) == if Counts(n) && p(n) then 1 else 0
    ensures |Select(Select(nodes, Feeds), p)| == Sum(nodes, g)
  {
    if nodes != [] {
      assert nodes[0] in nodes;
      SelectedCount(nodes[1..], p, g);
      SelectCons(nodes);
    }
  }

  lemma {:induction false} SelectedDevices(nodes: seq<Node>)
    ensures |Select(nodes, Feeds)| == Sum(nodes, Device)
  {
    if nodes != [] {
      SelectedDevices(nodes[1..]);
      SelectCons(nodes);
    }
  }

  /** The lease totals: integers are sums, memory is the sum of the rounded amounts. */
  lemma LeaseTotals(nodes: seq<Node>, t: Totals)
    requires TotalsOf(t, Select(nodes, Feeds))
    ensures t.devices == Sum(nodes, Device) && t.cpu == Sum(nodes, Cpu) && t.llmHosts == Sum(nodes, LlmHost)
    ensures t.lanDevices == Sum(nodes, LanDevice) && t.relayDevices == Sum(nodes, RelayDevice)
    ensures t.ram == SumReal(nodes, LeasedRam) && t.available == SumReal(nodes, LeasedAvailable)
  {
    SelectedDevices(nodes);
    SelectedCount(nodes, OnLan, LanDevice);
    SelectedCount(nodes, OffLan, RelayDevice);
    SelectedCount(nodes, HostsLlm, LlmHost);
    SelectedSum(nodes, CpuOf, Cpu);
    SelectedSumReal(nodes, RoundedRam, LeasedRam);
    SelectedSumReal(nodes, RoundedAvailable, LeasedAvailable);
  }

  /** The plan totals: memory is rounded once, at the end. */
  lemma PlanTotals(nodes: seq<Node>)
    ensures var plan := FederatedModelPlan(nodes);
            && plan.deviceCount == Sum(nodes, Device) && plan.runtimeNodeCount == Sum(nodes, RuntimeNode)
            && plan.cpu == Sum(nodes, Cpu)
            && plan.ram == Round2(SumReal(nodes, Ram)) && plan.available == Round2(SumReal(nodes, Available))
  {
    SelectedDevices(nodes);
    SelectedCount(nodes, RunsJobs, RuntimeNode);
    SelectedSum(nodes, CpuOf, Cpu);
    SelectedSumReal(nodes, RamOf, Ram);
    SelectedSumReal(nodes, AvailableOf, Available);
  }

  /** A node is on the LAN when its relay URL contains one of the three local addresses. */
  lemma OnLanExactly(n: Node)
    ensures OnLan(n) <==>
              n.relayUrl.Some?
              && exists i :: 0 <= i <= |n.relayUrl.value|
                             && ("127.0.0.1:8010" <= n.relayUrl.value[i..] || "localhost:8010" <= n.relayUrl.value[i..]
                                 || "192.168." <= n.relayUrl.value[i..])
  {
    if n.relayUrl.Some? {
      var url := n.relayUrl.value;
      if i :| 0 <= i <= |url| && ("127.0.0.1:8010" <= url[i..] || "localhost:8010" <= url[i..] || "192.168." <= url[i..]) {
        assert Contains(url, "127.0.0.1:8010") || Contains(url, "localhost:8010") || Contains(url, "192.168.");
      }
    }
  }

  /** The fields of a lease. */
  lemma LeaseFields(n: Node)
    requires Counts(n)
    ensures var lease := LeaseOf(n);
            && lease.nodeId == n.nodeId && lease.cpu == Cpu(n)
            && lease.ram == Round2(Ram(n)) && lease.available == Round2(Available(n))
            && (lease.transport == Lan8010 <==> OnLan(n))
            && (lease.status == LlmHostReady <==> n.canHostLlm)
            && (lease.status == HeartbeatOnly <==> !n.canHostLlm && n.allowedTasks == [])
  {
  }
}
