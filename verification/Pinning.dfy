/** Pinning the children to one NUMA node's cores: benchmark/readbench/src/isolation.rs. */
module Pinning {
  import opened Options
  import opened Decimal
  import CpuList
  import opened Sequences

  datatype Request = Off | Auto | Node(id: nat)

  datatype NodeInfo = NodeInfo(id: nat, cpus: seq<nat>, memFree: Option<nat>)

  datatype Tools = Tools(numactl: bool, taskset: bool)

  datatype CoreSplit = CoreSplit(coordinator: nat, children: seq<nat>, shared: bool)

  datatype PinRecord = PinRecord(
    requested: string,
    node: Option<nat>,
    tool: Option<string>,
    childCores: Option<string>,
    coordinatorCore: Option<nat>,
    status: string,
    memoryBinding: string,
    coordinatorNote: Option<string>,
    allowedCpus: Option<string>,
    coresNote: Option<string>
  )

  function ShowRequest(request: Request): string {
    match request
    case Off => "off"
    case Auto => "auto"
    case Node(id) => Show(id)
  }

  // ----- the node `auto` takes

  /** The order of free memory: a node without a reading ranks last. */
  predicate NoMoreMemory(a: Option<nat>, b: Option<nat>) {
    a.None? || (b.Some? && a.value <= b.value)
  }

  /** `b` ranks at least as high as `a`: more free memory, or as much and no higher an id. */
  predicate NoBetter(a: NodeInfo, b: NodeInfo) {
    NoMoreMemory(a.memFree, b.memFree) && (a.memFree == b.memFree ==> b.id <= a.id)
  }

  /** Rust's `max_by`, which keeps the later of two equals. */
  function Best(nodes: seq<NodeInfo>): NodeInfo
    requires nodes != []
  {
    var last := nodes[|nodes| - 1];
    if |nodes| == 1 then last
    else
      var best := Best(nodes[..|nodes| - 1]);
      if NoBetter(best, last) then last else best
  }

  /** `pick_auto_node`. */
  function PickAutoNode(nodes: seq<NodeInfo>): Option<nat> {
    if nodes == [] then None else Some(Best(nodes).id)
  }

  lemma {:induction false} BestIsBest(nodes: seq<NodeInfo>)
    requires nodes != []
    ensures Best(nodes) in nodes && forall n | n in nodes :: NoBetter(n, Best(nodes))
  {
    if |nodes| > 1 {
      var front, last := nodes[..|nodes| - 1], nodes[|nodes| - 1];
      BestIsBest(front);
      assert nodes == front + [last];
    }
  }

  // ----- the cores a node offers

  /** The cores of `cpus` that are allowed, in order; `None` allows all. */
  function Usable(cpus: seq<nat>, allowed: Option<seq<nat>>): seq<nat> {
    if allowed.None? then cpus
    else if cpus == [] then []
    else if cpus[0] in allowed.value then [cpus[0]] + Usable(cpus[1..], allowed)
    else Usable(cpus[1..], allowed)
  }

  lemma {:induction false} UsableAreAllowed(cpus: seq<nat>, allowed: Option<seq<nat>>)
    ensures forall c :: c in Usable(cpus, allowed) <==> c in cpus && (allowed.Some? ==> c in allowed.value)
    ensures Ascending(cpus) ==> Ascending(Usable(cpus, allowed))
  {
    if cpus != [] && allowed.Some? {
      var rest := Usable(cpus[1..], allowed);
      UsableAreAllowed(cpus[1..], allowed);
      assert cpus == [cpus[0]] + cpus[1..];
      if Ascending(cpus) && cpus[0] in allowed.value {
        assert forall i | 0 <= i < |rest| :: rest[i] in cpus[1..];
        AscendingCons(cpus[0], cpus[1..], rest);
      }
    }
  }

  lemma AscendingCons(c: nat, cpus: seq<nat>, some: seq<nat>)
    requires Ascending([c] + cpus) && Ascending(some)
    requires forall i | 0 <= i < |some| :: some[i] in cpus
    ensures Ascending([c] + some)
  {
    forall i | 0 <= i < |some| ensures c < some[i] {
      var k :| 0 <= k < |cpus| && cpus[k] == some[i];
      assert ([c] + cpus)[0] == c && ([c] + cpus)[k + 1] == cpus[k];
    }
  }

  /** `split_cores`. */
  function SplitCores(cpus: seq<nat>): Option<CoreSplit> {
    if cpus == [] then None
    else if |cpus| == 1 then Some(CoreSplit(cpus[0], cpus, true))
    else Some(CoreSplit(cpus[0], cpus[1..], false))
  }

  /** The nodes that have a core to offer. */
  function Candidates(nodes: seq<NodeInfo>, allowed: Option<seq<nat>>): seq<NodeInfo> {
    if nodes == [] then []
    else
      var usable := nodes[0].(cpus := Usable(nodes[0].cpus, allowed));
      (if usable.cpus != [] then [usable] else []) + Candidates(nodes[1..], allowed)
  }

  lemma {:induction false} CandidatesAreUsable(nodes: seq<NodeInfo>, allowed: Option<seq<nat>>)
    ensures forall n | n in Candidates(nodes, allowed) ::
      n.cpus != [] && exists i | 0 <= i < |nodes| :: n == nodes[i].(cpus := Usable(nodes[i].cpus, allowed))
    ensures forall i | 0 <= i < |nodes| && Usable(nodes[i].cpus, allowed) != [] ::
      nodes[i].(cpus := Usable(nodes[i].cpus, allowed)) in Candidates(nodes, allowed)
  {
    hide Usable;
    if nodes != [] {
      var rest := nodes[1..];
      CandidatesAreUsable(rest, allowed);
      forall n | n in Candidates(rest, allowed)
        ensures exists i | 0 <= i < |nodes| :: n == nodes[i].(cpus := Usable(nodes[i].cpus, allowed))
      {
        var i :| 0 <= i < |rest| && n == rest[i].(cpus := Usable(rest[i].cpus, allowed));
        assert rest[i] == nodes[i + 1];
      }
      forall i | 0 <= i < |nodes| && Usable(nodes[i].cpus, allowed) != []
        ensures nodes[i].(cpus := Usable(nodes[i].cpus, allowed)) in Candidates(nodes, allowed)
      {
        if i > 0 { assert nodes[i] == rest[i - 1]; }
      }
    }
  }

  lemma {:induction false} NobodyOffers(nodes: seq<NodeInfo>, allowed: Option<seq<nat>>)
    requires forall i | 0 <= i < |nodes| :: Usable(nodes[i].cpus, allowed) == []
    ensures Candidates(nodes, allowed) == []
  {
    hide Usable;
    if nodes != [] {
      assert forall i | 0 <= i < |nodes[1..]| :: nodes[1..][i] == nodes[i + 1];
      NobodyOffers(nodes[1..], allowed);
    }
  }

  /** The id the request asks for; `off` asks for none. */
  function Wanted(request: Request, nodes: seq<NodeInfo>, allowed: Option<seq<nat>>): nat {
    match request
    case Off => 0
    case Node(id) => id
    case Auto =>
      var picked := PickAutoNode(Candidates(nodes, allowed));
      if picked.Some? then picked.value else 0
  }

  /** Node `i` is the first that has the id asked for. */
  predicate Chosen(request: Request, nodes: seq<NodeInfo>, allowed: Option<seq<nat>>, i: int) {
    !request.Off? && 0 <= i < |nodes| &&
    nodes[i].id == Wanted(request, nodes, allowed) &&
    forall j | 0 <= j < i :: nodes[j].id != nodes[i].id
  }

  // ----- what the prefix promises

  const NOT_APPLIED := "not applied: "

  /** The children run on the usable cores of the node, without the coordinator's own unless
      it is the only one, and the argument that says so reads back as exactly those cores. */
  ghost predicate Applied(node: NodeInfo, tools: Tools, allowed: Option<seq<nat>>,
                          argv: seq<string>, record: PinRecord)
  {
    var cores := Usable(node.cpus, allowed);
    && cores != []
    && record.status == "applied"
    && record.node == Some(node.id)
    && record.coordinatorCore == Some(cores[0])
    && record.coordinatorNote.Some? == (|cores| == 1)
    && record.coresNote == (if |cores| < |node.cpus| then Some(Trimmed(node.id, |cores|, |node.cpus|)) else None)
    && record.childCores.Some?
    && RunsOn(record.childCores.value, if |cores| == 1 then cores else cores[1..])
    && IsPrefix(node.id, tools, record.childCores.value, argv, record)
  }

  /** The tool that pins, and how it is called. */
  ghost predicate IsPrefix(id: nat, tools: Tools, childCores: string, argv: seq<string>, record: PinRecord) {
    if tools.numactl then
      argv == ["numactl", "--all", "--physcpubind=" + childCores, "--membind=" + Show(id)] &&
      record.tool == Some("numactl") && record.memoryBinding == "applied"
    else
      tools.taskset && argv == ["taskset", "-c", childCores] &&
      record.tool == Some("taskset") && record.memoryBinding == "not applied: numactl missing"
  }

  /** Nothing is pinned, for this reason. */
  ghost predicate Refused(record: PinRecord, reason: string) {
    && Says(record, reason) && NOT_APPLIED <= record.status && record.memoryBinding == record.status
    && record.node == None && record.tool == None && record.childCores == None && record.coordinatorCore == None
  }

  /** The record before anything is decided. */
  function Fresh(request: Request, allowed: Option<seq<nat>>): PinRecord {
    var allowedCpus := if allowed.None? then None else Some(CpuList.Format(allowed.value));
    PinRecord(ShowRequest(request), None, None, None, None, "", "", None, allowedCpus, None)
  }

  /** The argument names exactly these cores. */
  ghost predicate RunsOn(argument: string, cores: seq<nat>) {
    (Ascending(cores) && forall k | 0 <= k < |cores| :: cores[k] < CpuList.U32) ==>
      CpuList.Parse(argument) == Some(cores)
  }

  lemma FormatRunsOn(cores: seq<nat>)
    ensures RunsOn(CpuList.Format(cores), cores)
  {
    hide CpuList.Parse, CpuList.Format;
    if Ascending(cores) && forall k | 0 <= k < |cores| :: cores[k] < CpuList.U32 {
      CpuList.ParseOfFormat(cores);
    }
  }

  /** The search for the node asked for. */
  method FindNode(request: Request, nodes: seq<NodeInfo>, allowed: Option<seq<nat>>) returns (i: nat)
    requires !request.Off?
    ensures i <= |nodes|
    ensures forall j :: Chosen(request, nodes, allowed, j) <==> i < |nodes| && j == i
    ensures i < |nodes| ==> nodes[i].id == Wanted(request, nodes, allowed)
  {
    hide Wanted;
    i := 0;
    while i < |nodes| && nodes[i].id != Wanted(request, nodes, allowed)
      invariant i <= |nodes|
      invariant forall j | 0 <= j < i :: nodes[j].id != Wanted(request, nodes, allowed)
    {
      i := i + 1;
    }
  }

  lemma NobodyIsChosen(request: Request, nodes: seq<NodeInfo>, allowed: Option<seq<nat>>)
    requires request.Off?
    ensures forall j :: !Chosen(request, nodes, allowed, j)
  {
  }

  /** The part of `build_pinning` that comes once the node is known. */
  method PinTo(node: NodeInfo, tools: Tools, allowed: Option<seq<nat>>, fresh_: PinRecord)
    returns (argv: seq<string>, record: PinRecord)
    requires fresh_ == fresh_.(node := None, tool := None, childCores := None, coordinatorCore := None,
                               coordinatorNote := None, coresNote := None)
    ensures record.requested == fresh_.requested && record.allowedCpus == fresh_.allowedCpus
    ensures if Usable(node.cpus, allowed) == [] then
        argv == [] && Refused(record, NoCores(node.id, node.cpus, fresh_.allowedCpus))
      else if !tools.numactl && !tools.taskset then argv == [] && Refused(record, NO_TOOL)
      else argv != [] && Applied(node, tools, allowed, argv, record)
  {
    hide Usable, Show, RunsOn, NoCores, Trimmed, CpuList.Format, Says, Not, NO_TOOL;
    record, argv := fresh_, [];
    var cpus := Usable(node.cpus, allowed);
    var split := SplitCores(cpus);
    if split.None? {
      record := Not(record, NoCores(node.id, node.cpus, fresh_.allowedCpus));
      return;
    }
    if |cpus| < |node.cpus| {
      record := record.(coresNote := Some(Trimmed(node.id, |cpus|, |node.cpus|)));
    }
    var childCores := CpuList.Format(split.value.children);
    FormatRunsOn(split.value.children);
    if tools.numactl {
      record := record.(tool := Some("numactl"), memoryBinding := "applied");
      argv := ["numactl", "--all", "--physcpubind=" + childCores, "--membind=" + Show(node.id)];
    } else if tools.taskset {
      record := record.(tool := Some("taskset"), memoryBinding := "not applied: numactl missing");
      argv := ["taskset", "-c", childCores];
    } else {
      record := Not(record, NO_TOOL);
      return;
    }
    assert IsPrefix(node.id, tools, childCores, argv, record);
    record := record.(status := "applied", node := Some(node.id), childCores := Some(childCores),
                      coordinatorCore := Some(split.value.coordinator));
    if split.value.shared {
      record := record.(coordinatorNote := Some("shared with the children: one-core node"));
    }
  }

  const NO_TOOL := "neither numactl nor taskset found"

  /** `build_pinning`. */
  method BuildPinning(isLinux: bool, request: Request, nodes: seq<NodeInfo>, tools: Tools, allowed: Option<seq<nat>>)
    returns (argv: seq<string>, record: PinRecord)
    ensures record.requested == ShowRequest(request)
    ensures record.allowedCpus == if allowed.None? then None else Some(CpuList.Format(allowed.value))
    ensures !isLinux ==> argv == [] && Refused(record, "not Linux")
    ensures isLinux && request.Off? ==> argv == [] && Refused(record, "--numa-node off")
    ensures isLinux && !request.Off? && (forall i :: !Chosen(request, nodes, allowed, i)) ==>
      argv == [] && Refused(record, NoTopology(Wanted(request, nodes, allowed)))
    ensures forall i | isLinux && Chosen(request, nodes, allowed, i) ::
      if Usable(nodes[i].cpus, allowed) == [] then
        argv == [] && Refused(record, NoCores(nodes[i].id, nodes[i].cpus, record.allowedCpus))
      else if !tools.numactl && !tools.taskset then argv == [] && Refused(record, NO_TOOL)
      else argv != [] && Applied(nodes[i], tools, allowed, argv, record)
  {
    hide CpuList.Format, Usable, Wanted, Chosen, ShowRequest, NoTopology, NoCores, Applied, Says, Not, NO_TOOL;
    record, argv := Fresh(request, allowed), [];
    if !isLinux {
      record := Not(record, "not Linux");
      return;
    }
    if request.Off? {
      NobodyIsChosen(request, nodes, allowed);
      record := Not(record, "--numa-node off");
      return;
    }
    var i := FindNode(request, nodes, allowed);
    if i == |nodes| {
      record := Not(record, NoTopology(Wanted(request, nodes, allowed)));
      return;
    }
    assert Chosen(request, nodes, allowed, i);
    argv, record := PinTo(nodes[i], tools, allowed, record);
  }

  predicate Says(record: PinRecord, reason: string) {
    record.status == NOT_APPLIED + reason
  }

  function NoTopology(id: nat): string {
    "no topology for node " + Show(id)
  }

  function NoCores(id: nat, cpus: seq<nat>, allowedCpus: Option<string>): string {
    if allowedCpus.Some? && cpus != []
    then "node " + Show(id) + " has no core in the task's allowed set " + allowedCpus.value
    else "node " + Show(id) + " lists no cores"
  }

  function Trimmed(id: nat, usable: nat, all: nat): string {
    "node " + Show(id) + " trimmed to the task's allowed set: " + Show(usable) + " of " + Show(all) + " cores usable"
  }

  function Not(record: PinRecord, reason: string): (r: PinRecord)
    ensures Says(r, reason) && NOT_APPLIED <= r.status && r.status != "applied"
    ensures r == record.(status := r.status, memoryBinding := r.status)
  {
    assert (NOT_APPLIED + reason)[0] == 'n';
    assert (NOT_APPLIED + reason)[..|NOT_APPLIED|] == NOT_APPLIED;
    record.(status := NOT_APPLIED + reason, memoryBinding := NOT_APPLIED + reason)
  }

  lemma ChosenOnce(request: Request, nodes: seq<NodeInfo>, allowed: Option<seq<nat>>, i: int)
    requires Chosen(request, nodes, allowed, i)
    ensures forall j | Chosen(request, nodes, allowed, j) :: j == i
  {
    hide Wanted;
  }

  // ----- what it means

  ghost predicate DistinctIds(nodes: seq<NodeInfo>) {
    forall i, j | 0 <= i < j < |nodes| :: nodes[i].id != nodes[j].id
  }

  /** The cores the children get are the node's own and allowed, and hold the coordinator's
      only where there is no other. */
  lemma ChildCoresStayAllowed(node: NodeInfo, tools: Tools, allowed: Option<seq<nat>>,
                              argv: seq<string>, record: PinRecord)
    requires Applied(node, tools, allowed, argv, record)
    requires Ascending(node.cpus) && forall k | 0 <= k < |node.cpus| :: node.cpus[k] < CpuList.U32
    ensures var parsed := CpuList.Parse(record.childCores.value);
      parsed.Some? && parsed.value != [] &&
      forall c :: c in parsed.value <==>
        c in node.cpus && (allowed.Some? ==> c in allowed.value) &&
        (Some(c) == record.coordinatorCore ==> record.coordinatorNote.Some?)
  {
    hide CpuList.Parse, Usable, IsPrefix, Trimmed;
    var cores := Usable(node.cpus, allowed);
    UsableAreAllowed(node.cpus, allowed);
    assert forall k | 0 <= k < |cores| :: cores[k] in node.cpus;
    FewerCores(cores);
  }

  /** The children's cores are those of the node without the first, or that one alone. */
  lemma FewerCores(cores: seq<nat>)
    requires cores != [] && Ascending(cores)
    ensures var children := if |cores| == 1 then cores else cores[1..];
      && Ascending(children) && children != [] && |children| <= |cores|
      && (forall k | 0 <= k < |children| :: children[k] in cores)
      && forall c :: c in children <==> c in cores && (c == cores[0] ==> |cores| == 1)
  {
    if |cores| > 1 {
      var children := cores[1..];
      assert cores == [cores[0]] + children;
      assert forall k | 0 <= k < |children| :: cores[0] < children[k];
    }
  }

  /** A node asked for by its id is the first that has it, whatever its cores. */
  lemma NamedNodeIsChosen(id: nat, nodes: seq<NodeInfo>, allowed: Option<seq<nat>>, i: int)
    ensures Chosen(Node(id), nodes, allowed, i) <==>
      0 <= i < |nodes| && nodes[i].id == id && forall j | 0 <= j < i :: nodes[j].id != id
  {
  }

  /** `auto` finds a node exactly when some node has a usable core; it then takes one that has,
      with the most free memory among those, and the lowest id among those with as much. */
  lemma AutoTakesTheBest(nodes: seq<NodeInfo>, allowed: Option<seq<nat>>)
    requires DistinctIds(nodes)
    ensures (exists i :: Chosen(Auto, nodes, allowed, i) && Usable(nodes[i].cpus, allowed) != [])
        <==> exists i | 0 <= i < |nodes| :: Usable(nodes[i].cpus, allowed) != []
    ensures forall i, j | Chosen(Auto, nodes, allowed, i) && Usable(nodes[i].cpus, allowed) != []
                          && 0 <= j < |nodes| && Usable(nodes[j].cpus, allowed) != [] ::
      && (nodes[j].memFree.Some? ==> nodes[i].memFree.Some? && nodes[j].memFree.value <= nodes[i].memFree.value)
      && (nodes[j].memFree == nodes[i].memFree ==> nodes[i].id <= nodes[j].id)
    ensures (forall i | 0 <= i < |nodes| :: Usable(nodes[i].cpus, allowed) == []) ==> Wanted(Auto, nodes, allowed) == 0
  {
    hide Usable, Candidates, Best;
    var candidates := Candidates(nodes, allowed);
    CandidatesAreUsable(nodes, allowed);
    if i :| 0 <= i < |nodes| && Usable(nodes[i].cpus, allowed) != [] {
      assert candidates != [];
      BestIsBest(candidates);
      var best := Best(candidates);
      var k :| 0 <= k < |nodes| && best == nodes[k].(cpus := Usable(nodes[k].cpus, allowed));
      assert Chosen(Auto, nodes, allowed, k);
      ChosenOnce(Auto, nodes, allowed, k);
      forall j | 0 <= j < |nodes| && Usable(nodes[j].cpus, allowed) != []
        ensures NoBetter(nodes[j], nodes[k])
      {
        assert NoBetter(nodes[j].(cpus := Usable(nodes[j].cpus, allowed)), best);
      }
    } else {
      NobodyOffers(nodes, allowed);
    }
  }
}
