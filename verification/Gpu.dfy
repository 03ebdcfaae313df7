/**
  GPU accounting (`tools/nvidia_gpu.py`, `tools/gpu_capacity.py`) for integer quantities:
  a Pod's effective limits, and the units its Pods hold on every GPU node.
*/
module Gpu {

  /** A quantity map such as `resources.limits`, with integer amounts. */
  type Amounts = map<string, nat>

  datatype Pod = Pod(containers: seq<Amounts>, initContainers: seq<Amounts>, node: string, phase: string)

  datatype Node = Node(name: string, capacity: Amounts, allocatable: Amounts, labels: map<string, string>)

  const GPU_PREFIX := "nvidia.com/"
  const WHOLE_GPU := "nvidia.com/gpu"
  const MIG_RESOURCE_PREFIX := "nvidia.com/mig"

  // ----- Sums over dictionaries ---------------------------------------------------------

  /** The sum of all amounts. */
  ghost function Total(m: Amounts): nat
  {
    if m == map[] then 0
    else
      var k :| k in m;
      m[k] + Total(m - {k})
  }

  /** The sum does not depend on the order the keys are taken in. */
  lemma {:induction false} TotalRemove(m: Amounts, k: string)
    requires k in m
    ensures Total(m) == m[k] + Total(m - {k})
    decreases |m|
  {
    var j :| j in m && Total(m) == m[j] + Total(m - {j});
    if j != k {
      assert |m - {j}| < |m| && |m - {k}| < |m| by {
        assert (m - {j}).Keys == m.Keys - {j} && (m - {k}).Keys == m.Keys - {k};
      }
      TotalRemove(m - {j}, k);
      TotalRemove(m - {k}, j);
      assert m - {j} - {k} == m - {k} - {j};
    }
  }

  function AmountOf(m: Amounts, name: string): nat {
    if name in m then m[name] else 0
  }

  // ----- Effective limits of a Pod --------------------------------------------------------

  function GpuResources(m: Amounts): Amounts {
    map k | k in m && GPU_PREFIX <= k :: m[k]
  }

  function SumOf(containers: seq<Amounts>, name: string): nat
  {
    if containers == [] then 0
    else SumOf(containers[..|containers| - 1], name) + AmountOf(GpuResources(containers[|containers| - 1]), name)
  }

  function MaxOf(containers: seq<Amounts>, name: string): nat
  {
    if containers == [] then 0
    else Max(MaxOf(containers[..|containers| - 1], name), AmountOf(GpuResources(containers[|containers| - 1]), name))
  }

  function Max(a: nat, b: nat): nat { if a >= b then a else b }

  function Names(containers: seq<Amounts>): set<string>
  {
    if containers == [] then {}
    else Names(containers[..|containers| - 1]) + GpuResources(containers[|containers| - 1]).Keys
  }

  function EffectiveLimits(pod: Pod): Amounts {
    map k | k in Names(pod.containers) + Names(pod.initContainers) ::
      Max(SumOf(pod.containers, k), MaxOf(pod.initContainers, k))
  }

  /** `target` with every entry of `amounts` folded in by `op`; a missing entry counts as 0. */
  function Folded(target: Amounts, amounts: Amounts, op: (nat, nat) -> nat): Amounts {
    map k | k in target.Keys + amounts.Keys :: if k in amounts then op(AmountOf(target, k), amounts[k]) else target[k]
  }

  lemma FoldOneMore(target: Amounts, part: Amounts, name: string, amount: nat, op: (nat, nat) -> nat)
    requires name !in part
    ensures Folded(target, part[name := amount], op) == Folded(target, part, op)[name := op(AmountOf(target, name), amount)]
    ensures AmountOf(Folded(target, part, op), name) == AmountOf(target, name)
  {
    var more := part[name := amount];
    assert target.Keys + more.Keys == target.Keys + part.Keys + {name};
  }

  /** The inner loop of `_pod_gpu_limits`, for `+=` and for `max`. */
  method FoldIn(target: Amounts, amounts: Amounts, op: (nat, nat) -> nat) returns (folded: Amounts)
    ensures folded == Folded(target, amounts, op)
  {
    folded := target;
    var todo := amounts.Keys;
    ghost var part: Amounts := map[];
    assert Folded(target, part, op) == target;
    while todo != {}
      invariant todo <= amounts.Keys && part.Keys == amounts.Keys - todo
      invariant forall k <- part :: part[k] == amounts[k]
      invariant folded == Folded(target, part, op)
      decreases |todo|
    {
      var name :| name in todo;
      FoldOneMore(target, part, name, amounts[name], op);
      folded := folded[name := op(AmountOf(folded, name), amounts[name])];
      part := part[name := amounts[name]];
      todo := todo - {name};
    }
    assert part == amounts;
  }

  function Add(a: nat, b: nat): nat { a + b }

  /** The two dictionaries `_pod_gpu_limits` accumulates. */
  function SumMap(containers: seq<Amounts>): Amounts {
    map k | k in Names(containers) :: SumOf(containers, k)
  }

  function MaxMap(containers: seq<Amounts>): Amounts {
    map k | k in Names(containers) :: MaxOf(containers, k)
  }

  lemma SumOneMore(containers: seq<Amounts>, i: nat)
    requires i < |containers|
    ensures SumMap(containers[..i + 1]) == Folded(SumMap(containers[..i]), GpuResources(containers[i]), Add)
  {
    hide GpuResources;
    var before := containers[..i];
    assert containers[..i + 1][..i] == before;
    forall k ensures AmountOf(SumMap(before), k) == SumOf(before, k) {
      if k !in Names(before) { UnnamedIsZero(before, k); }
    }
  }

  lemma MaxOneMore(containers: seq<Amounts>, i: nat)
    requires i < |containers|
    ensures MaxMap(containers[..i + 1]) == Folded(MaxMap(containers[..i]), GpuResources(containers[i]), Max)
  {
    hide GpuResources;
    var before := containers[..i];
    assert containers[..i + 1][..i] == before;
    forall k ensures AmountOf(MaxMap(before), k) == MaxOf(before, k) {
      if k !in Names(before) { UnnamedIsZero(before, k); }
    }
  }

  method PodGpuLimits(pod: Pod) returns (limits: Amounts)
    ensures limits == EffectiveLimits(pod)
  {
    var appTotals: Amounts := map[];
    for i := 0 to |pod.containers|
      invariant appTotals == SumMap(pod.containers[..i])
    {
      SumOneMore(pod.containers, i);
      appTotals := FoldIn(appTotals, GpuResources(pod.containers[i]), Add);
    }
    var initMax: Amounts := map[];
    for i := 0 to |pod.initContainers|
      invariant initMax == MaxMap(pod.initContainers[..i])
    {
      MaxOneMore(pod.initContainers, i);
      initMax := FoldIn(initMax, GpuResources(pod.initContainers[i]), Max);
    }
    assert pod.containers[..|pod.containers|] == pod.containers;
    assert pod.initContainers[..|pod.initContainers|] == pod.initContainers;
    limits := map k | k in appTotals.Keys + initMax.Keys :: Max(AmountOf(appTotals, k), AmountOf(initMax, k));
    forall k | k in limits ensures limits[k] == EffectiveLimits(pod)[k] {
      if k !in Names(pod.containers) { UnnamedIsZero(pod.containers, k); }
      if k !in Names(pod.initContainers) { UnnamedIsZero(pod.initContainers, k); }
    }
  }

  /** What must fit at once in each phase of a Pod's life: every init container alone, then all app containers. */
  function Phases(pod: Pod): seq<seq<Amounts>> {
    seq(|pod.initContainers|, i requires 0 <= i < |pod.initContainers| => [pod.initContainers[i]]) + [pod.containers]
  }

  /** What containers running together ask for, as their limits say. */
  function Demand(containers: seq<Amounts>, name: string): nat
  {
    if containers == [] then 0
    else Demand(containers[..|containers| - 1], name) + AmountOf(containers[|containers| - 1], name)
  }

  /** `capacity` units of `name` are enough to run every phase. */
  predicate Suffices(pod: Pod, name: string, capacity: nat) {
    forall i | 0 <= i < |Phases(pod)| :: Demand(Phases(pod)[i], name) <= capacity
  }

  /** Some container names the resource. */
  predicate Named(containers: seq<Amounts>, name: string) {
    exists i | 0 <= i < |containers| :: name in containers[i]
  }

  lemma {:induction false} SumIsDemand(containers: seq<Amounts>, name: string)
    ensures "nvidia.com/" <= name ==> SumOf(containers, name) == Demand(containers, name)
    ensures name in Names(containers) <==> "nvidia.com/" <= name && Named(containers, name)
  {
    if containers != [] {
      var n := |containers| - 1;
      SumIsDemand(containers[..n], name);
      assert Named(containers, name) <==> Named(containers[..n], name) || name in containers[n];
    }
  }

  lemma {:induction false} MaxIsLeastBound(containers: seq<Amounts>, name: string, capacity: nat)
    ensures MaxOf(containers, name) <= capacity <==>
      forall i | 0 <= i < |containers| :: AmountOf(GpuResources(containers[i]), name) <= capacity
  {
    if containers != [] {
      MaxIsLeastBound(containers[..|containers| - 1], name, capacity);
    }
  }

  lemma {:induction false} UnnamedIsZero(containers: seq<Amounts>, name: string)
    requires name !in Names(containers)
    ensures SumOf(containers, name) == 0 && MaxOf(containers, name) == 0
  {
    if containers != [] { UnnamedIsZero(containers[..|containers| - 1], name); }
  }

  lemma SumOfOne(m: Amounts, name: string)
    ensures SumOf([m], name) == AmountOf(GpuResources(m), name)
  {
    assert [m][..0] == [];
  }

  /**
    The effective limits name exactly the GPU resources some container names, and each is the
    least capacity that suffices for what the containers ask.
  */
  lemma EffectiveLimitIsLeast(pod: Pod, name: string, capacity: nat)
    ensures name in EffectiveLimits(pod) <==>
              "nvidia.com/" <= name && (Named(pod.containers, name) || Named(pod.initContainers, name))
    ensures "nvidia.com/" <= name ==> (Suffices(pod, name, capacity) <==> AmountOf(EffectiveLimits(pod), name) <= capacity)
  {
    SumIsDemand(pod.containers, name);
    SumIsDemand(pod.initContainers, name);
    if "nvidia.com/" <= name { LimitIsLeast(pod, name, capacity); }
  }

  lemma LimitIsLeast(pod: Pod, name: string, capacity: nat)
    requires "nvidia.com/" <= name
    ensures Suffices(pod, name, capacity) <==> AmountOf(EffectiveLimits(pod), name) <= capacity
  {
    var phases := Phases(pod);
    var n := |pod.initContainers|;
    assert phases[n] == pod.containers;
    MaxIsLeastBound(pod.initContainers, name, capacity);
    SumIsDemand(pod.containers, name);
    forall i | 0 <= i < n ensures Demand(phases[i], name) == AmountOf(GpuResources(pod.initContainers[i]), name) {
      SumIsDemand(phases[i], name);
      SumOfOne(pod.initContainers[i], name);
    }
    if name !in EffectiveLimits(pod) {
      UnnamedIsZero(pod.containers, name);
      UnnamedIsZero(pod.initContainers, name);
    }
    hide GpuResources, Demand, SumOf, Names;
    if AmountOf(EffectiveLimits(pod), name) <= capacity {
      forall i | 0 <= i < |phases| ensures Demand(phases[i], name) <= capacity {
        assert i < n || i == n;
      }
    }
    if Suffices(pod, name, capacity) {
      assert Demand(phases[n], name) <= capacity;
      forall i | 0 <= i < n ensures AmountOf(GpuResources(pod.initContainers[i]), name) <= capacity {
        assert Demand(phases[i], name) <= capacity;
      }
    }
  }

  // ----- Units held per node -------------------------------------------------------------------

  function MigResources(m: Amounts): Amounts {
    map k | k in m && MIG_RESOURCE_PREFIX <= k :: m[k]
  }

  ghost function GpuUnitsOf(m: Amounts): nat {
    AmountOf(m, WHOLE_GPU) + Total(MigResources(m))
  }

  method GpuUnits(resources: Amounts) returns (total: nat)
    ensures total == GpuUnitsOf(resources)
  {
    total := AmountOf(resources, WHOLE_GPU);
    var mig := MigResources(resources);
    ghost var all := mig;
    while mig != map[]
      invariant total + Total(mig) == GpuUnitsOf(resources)
      decreases |mig|
    {
      var k :| k in mig;
      TotalRemove(mig, k);
      assert (mig - {k}).Keys == mig.Keys - {k};
      total := total + mig[k];
      mig := mig - {k};
    }
  }

  predicate LowerIsTrue(s: string) {
    && |s| == 4 && s[0] in "tT" && s[1] in "rR" && s[2] in "uU" && s[3] in "eE"
  }

  predicate IsGpuNode(n: Node) {
    || GpuResources(n.capacity) != map[]
    || GpuResources(n.allocatable) != map[]
    || ("nvidia.com/gpu.present" in n.labels && LowerIsTrue(n.labels["nvidia.com/gpu.present"]))
    || "nvidia.com/gpu.product" in n.labels
  }

  function NodeOf(p: Pod): string { if p.node == "" then "(unscheduled)" else p.node }

  function PhaseOf(p: Pod): string { if p.phase == "" then "Unknown" else p.phase }

  /** A Pod that asks for GPUs and has not terminated. */
  predicate Live(p: Pod) {
    EffectiveLimits(p) != map[] && PhaseOf(p) !in ["Succeeded", "Failed"]
  }

  ghost function UnitsOf(p: Pod): nat {
    if Live(p) then GpuUnitsOf(EffectiveLimits(p)) else 0
  }

  /** Units of the live GPU Pods placed on one of `nodes`. */
  ghost function HeldOn(nodes: set<string>, pods: seq<Pod>): nat
  {
    if pods == [] then 0
    else
      var p := pods[|pods| - 1];
      HeldOn(nodes, pods[..|pods| - 1]) + (if NodeOf(p) in nodes then UnitsOf(p) else 0)
  }

  /** Live GPU Pods that are Pending and on none of `nodes`. */
  function PendingOff(nodes: set<string>, pods: seq<Pod>): nat
  {
    if pods == [] then 0
    else
      var p := pods[|pods| - 1];
      PendingOff(nodes, pods[..|pods| - 1]) + (if Live(p) && NodeOf(p) !in nodes && PhaseOf(p) == "Pending" then 1 else 0)
  }

  function GpuNodeNames(nodes: seq<Node>): set<string> {
    set n <- nodes | IsGpuNode(n) :: n.name
  }

  /** Units are the whole GPUs plus everything under a MIG resource. */
  lemma UnitsAddUp(m: Amounts, k: string, v: nat)
    requires k !in m
    ensures GpuUnitsOf(map[]) == 0
    ensures GpuUnitsOf(m[k := v]) == GpuUnitsOf(m) + if k == "nvidia.com/gpu" || "nvidia.com/mig" <= k then v else 0
  {
    var before, after := MigResources(m), MigResources(m[k := v]);
    assert MigResources(map[]) == map[];
    if "nvidia.com/mig" <= k {
      assert k != "nvidia.com/gpu" by { assert k[11] == 'm'; }
      assert after - {k} == before;
      TotalRemove(after, k);
    } else {
      assert after == before;
    }
    hide Total;
  }

  /** The two terminal phases hold nothing; any other Pod holds the units of its limits. */
  lemma UnitsOfPod(p: Pod)
    ensures UnitsOf(p) == if p.phase == "Succeeded" || p.phase == "Failed" then 0 else GpuUnitsOf(EffectiveLimits(p))
    ensures Live(p) <==> EffectiveLimits(p) != map[] && p.phase != "Succeeded" && p.phase != "Failed"
  {
    UnitsAddUp(map[], "", 0);
    hide EffectiveLimits, GpuUnitsOf;
  }

  /** One more Pod: its units count for its node, and it is pending when it is on none of the nodes. */
  lemma OnePodMore(nodes: set<string>, pods: seq<Pod>, p: Pod)
    ensures
      var on := (if p.node == "" then "(unscheduled)" else p.node) in nodes;
      && HeldOn(nodes, pods + [p]) == HeldOn(nodes, pods) + (if on then UnitsOf(p) else 0)
      && PendingOff(nodes, pods + [p]) == PendingOff(nodes, pods)
           + if !on && p.phase == "Pending" && EffectiveLimits(p) != map[] then 1 else 0
  {
    assert (pods + [p])[..|pods|] == pods;
    hide EffectiveLimits, UnitsOf;
  }

  /** Which nodes count: those with an `nvidia.com/` resource, or labelled present (in any case) or with a product. */
  lemma GpuNodeIff(n: Node)
    ensures IsGpuNode(n) <==>
              || (exists k <- n.capacity :: "nvidia.com/" <= k)
              || (exists k <- n.allocatable :: "nvidia.com/" <= k)
              || ("nvidia.com/gpu.present" in n.labels && SaysTrue(n.labels["nvidia.com/gpu.present"]))
              || "nvidia.com/gpu.product" in n.labels
  {
    NamedResources(n.capacity);
    NamedResources(n.allocatable);
    hide GpuResources;
    if "nvidia.com/gpu.present" in n.labels { TrueInAnyCase(n.labels["nvidia.com/gpu.present"]); }
    hide LowerIsTrue, SaysTrue;
  }

  lemma NamedResources(m: Amounts)
    ensures GpuResources(m) != map[] <==> exists k <- m :: "nvidia.com/" <= k
    ensures forall k :: k in GpuResources(m) <==> k in m && "nvidia.com/" <= k
    ensures forall k <- GpuResources(m) :: GpuResources(m)[k] == m[k]
  {
    if k :| k in m && "nvidia.com/" <= k { assert k in GpuResources(m); }
    if k :| k in GpuResources(m) { assert k in m; }
  }

  predicate SaysTrue(s: string) {
    |s| == 4 && forall i | 0 <= i < 4 :: s[i] == "true"[i] || s[i] == "TRUE"[i]
  }

  lemma TrueInAnyCase(s: string)
    ensures LowerIsTrue(s) <==> SaysTrue(s)
  {
    if |s| == 4 {
      assert "true"[0] == 't' && "true"[1] == 'r' && "true"[2] == 'u' && "true"[3] == 'e';
      assert "TRUE"[0] == 'T' && "TRUE"[1] == 'R' && "TRUE"[2] == 'U' && "TRUE"[3] == 'E';
    }
  }

  datatype NodeView = NodeView(allocatable: nat, held: nat)

  /** No later GPU node has the same name (in a cluster names are unique, so every one qualifies). */
  predicate LastOfItsName(nodes: seq<Node>, i: nat)
    requires i < |nodes|
  {
    IsGpuNode(nodes[i]) && forall j | i < j < |nodes| && IsGpuNode(nodes[j]) :: nodes[j].name != nodes[i].name
  }

  lemma NamesOfPrefix(nodes: seq<Node>)
    ensures GpuNodeNames(nodes[..0]) == {} && nodes[..|nodes|] == nodes
    ensures forall i | 0 <= i < |nodes| ::
              GpuNodeNames(nodes[..i + 1]) == GpuNodeNames(nodes[..i]) + if IsGpuNode(nodes[i]) then {nodes[i].name} else {}
  {
    hide IsGpuNode;
    forall i | 0 <= i < |nodes|
      ensures GpuNodeNames(nodes[..i + 1]) == GpuNodeNames(nodes[..i]) + if IsGpuNode(nodes[i]) then {nodes[i].name} else {}
    {
      assert nodes[..i + 1] == nodes[..i] + [nodes[i]];
    }
  }

  /** The node part of `_k8s_gpu_view`: allocatable units per GPU node, nothing held yet. */
  method GpuNodeViews(nodes: seq<Node>) returns (perNode: map<string, NodeView>)
    ensures perNode.Keys == GpuNodeNames(nodes)
    ensures forall i | 0 <= i < |nodes| && LastOfItsName(nodes, i) ::
              perNode[nodes[i].name].allocatable == GpuUnitsOf(GpuResources(nodes[i].allocatable))
    ensures forall name <- perNode :: perNode[name].held == 0
  {
    hide IsGpuNode, GpuResources, GpuUnitsOf, GpuNodeNames;
    perNode := map[];
    NamesOfPrefix(nodes);
    for i := 0 to |nodes|
      invariant perNode.Keys == GpuNodeNames(nodes[..i])
      invariant forall name <- perNode :: perNode[name].held == 0
      invariant forall k | 0 <= k < i && LastOfItsName(nodes, k) ::
        nodes[k].name in perNode && perNode[nodes[k].name].allocatable == GpuUnitsOf(GpuResources(nodes[k].allocatable))
    {
      if IsGpuNode(nodes[i]) {
        var units := GpuUnits(GpuResources(nodes[i].allocatable));
        perNode := perNode[nodes[i].name := NodeView(units, 0)];
      }
    }
  }

  lemma HeldStep(name: string, pods: seq<Pod>, i: nat)
    requires i < |pods|
    ensures HeldOn({name}, pods[..i + 1]) == HeldOn({name}, pods[..i]) + if NodeOf(pods[i]) == name then UnitsOf(pods[i]) else 0
  {
    assert pods[..i + 1][..i] == pods[..i];
  }

  /** The views once all of `pods` have been placed. */
  ghost predicate Placed(before: map<string, NodeView>, after: map<string, NodeView>, pods: seq<Pod>) {
    after.Keys == before.Keys && forall name <- before :: after[name] == NodeView(before[name].allocatable, HeldOn({name}, pods))
  }

  function Charged(perNode: map<string, NodeView>, node: string, units: nat): map<string, NodeView>
    requires node in perNode
  {
    perNode[node := perNode[node].(held := perNode[node].held + units)]
  }

  lemma PlaceOne(before: map<string, NodeView>, now: map<string, NodeView>, pods: seq<Pod>, i: nat)
    requires i < |pods| && Placed(before, now, pods[..i])
    ensures
      var node := NodeOf(pods[i]);
      Placed(before, if node in now then Charged(now, node, UnitsOf(pods[i])) else now, pods[..i + 1])
  {
    forall name <- before
      ensures HeldOn({name}, pods[..i + 1]) == HeldOn({name}, pods[..i]) + if NodeOf(pods[i]) == name then UnitsOf(pods[i]) else 0
    {
      HeldStep(name, pods, i);
    }
  }

  /** Disjoint node sets hold separate units. */
  lemma {:induction false} HeldSplits(a: set<string>, b: set<string>, pods: seq<Pod>)
    requires a !! b
    ensures HeldOn(a + b, pods) == HeldOn(a, pods) + HeldOn(b, pods)
  {
    if pods != [] { HeldSplits(a, b, pods[..|pods| - 1]); }
  }

  lemma {:induction false} NoNodesHoldNothing(pods: seq<Pod>)
    ensures HeldOn({}, pods) == 0
  {
    if pods != [] { NoNodesHoldNothing(pods[..|pods| - 1]); }
  }

  /**
    Conservation: the per-node held totals add up to exactly the units of the live GPU Pods
    placed on GPU nodes; nothing is counted twice or dropped.
  */
  lemma {:induction false} HeldTotalsAddUp(held: Amounts, pods: seq<Pod>)
    requires forall name <- held :: held[name] == HeldOn({name}, pods)
    ensures Total(held) == HeldOn(held.Keys, pods)
    decreases |held|
  {
    if held == map[] {
      NoNodesHoldNothing(pods);
    } else {
      var k :| k in held;
      TotalRemove(held, k);
      assert (held - {k}).Keys == held.Keys - {k};
      HeldTotalsAddUp(held - {k}, pods);
      HeldSplits({k}, held.Keys - {k}, pods);
      assert {k} + (held.Keys - {k}) == held.Keys;
    }
  }

  function HeldMap(perNode: map<string, NodeView>): Amounts {
    map name | name in perNode :: perNode[name].held
  }

  lemma HeldViewAddsUp(before: map<string, NodeView>, perNode: map<string, NodeView>, pods: seq<Pod>)
    requires Placed(before, perNode, pods)
    ensures perNode.Keys == before.Keys
    ensures forall name <- perNode ::
              perNode[name].held == HeldOn({name}, pods) && perNode[name].allocatable == before[name].allocatable
    ensures Total(HeldMap(perNode)) == HeldOn(perNode.Keys, pods)
  {
    HeldTotalsAddUp(HeldMap(perNode), pods);
    assert HeldMap(perNode).Keys == perNode.Keys;
  }

  lemma PendingStep(nodes: set<string>, pods: seq<Pod>, i: nat)
    requires i < |pods|
    ensures
      var p := pods[i];
      PendingOff(nodes, pods[..i + 1]) ==
        PendingOff(nodes, pods[..i]) + if Live(p) && NodeOf(p) !in nodes && PhaseOf(p) == "Pending" then 1 else 0
  {
    assert pods[..i + 1][..i] == pods[..i];
  }

  /** One Pod of the loop: skipped, charged to its GPU node, or counted as pending. */
  method PlacePod(pod: Pod, perNode: map<string, NodeView>, pending: nat)
    returns (after: map<string, NodeView>, pendingAfter: nat)
    ensures after == if NodeOf(pod) in perNode then Charged(perNode, NodeOf(pod), UnitsOf(pod)) else perNode
    ensures pendingAfter == pending + if Live(pod) && NodeOf(pod) !in perNode && PhaseOf(pod) == "Pending" then 1 else 0
  {
    var limits := PodGpuLimits(pod);
    if limits == map[] || PhaseOf(pod) in ["Succeeded", "Failed"] {
      return perNode, pending;
    }
    var node := NodeOf(pod);
    var held := GpuUnits(limits);
    if node in perNode {
      return perNode[node := perNode[node].(held := perNode[node].held + held)], pending;
    } else if PhaseOf(pod) == "Pending" {
      return perNode, pending + 1;
    }
    return perNode, pending;
  }

  /** `_k8s_gpu_view`: per GPU node its units and those its Pods hold, and how many GPU Pods are pending elsewhere. */
  method K8sGpuView(nodes: seq<Node>, pods: seq<Pod>) returns (perNode: map<string, NodeView>, pending: nat)
    ensures perNode.Keys == GpuNodeNames(nodes)
    ensures forall i | 0 <= i < |nodes| && LastOfItsName(nodes, i) ::
              perNode[nodes[i].name].allocatable == GpuUnitsOf(GpuResources(nodes[i].allocatable))
    ensures forall name <- perNode :: perNode[name].held == HeldOn({name}, pods)
    ensures Total(HeldMap(perNode)) == HeldOn(GpuNodeNames(nodes), pods)
    ensures pending == PendingOff(GpuNodeNames(nodes), pods)
  {
    perNode := GpuNodeViews(nodes);
    ghost var views := perNode;
    pending := 0;
    assert pods[..0] == [];
    assert Placed(views, perNode, []) && PendingOff(views.Keys, []) == 0;
    hide HeldOn, PendingOff, Placed, GpuNodeNames, HeldMap, Total, LastOfItsName, GpuUnitsOf, UnitsOf, Live, NodeOf, PhaseOf;
    for i := 0 to |pods|
      invariant perNode.Keys == views.Keys && Placed(views, perNode, pods[..i])
      invariant pending == PendingOff(views.Keys, pods[..i])
    {
      PlaceOne(views, perNode, pods, i);
      PendingStep(views.Keys, pods, i);
      perNode, pending := PlacePod(pods[i], perNode, pending);
    }
    assert pods[..|pods|] == pods;
    HeldViewAddsUp(views, perNode, pods);
  }
}
