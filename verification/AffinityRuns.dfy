/**
 Runs of one kept volume under the affinity predicate: a volume with one directory per pod never
 collects more directories than it ever had pods, and a shared volume never lives on two nodes.
 */
module AffinityRuns {
  import opened Sequences
  import opened HostPathPV
  import opened Binding
  import opened Recording
  import opened Affinity
  import opened Answers

  /** One volume and the pods of the cluster. */
  datatype State = State(pv: PV, pods: seq<Pod>)

  function Pods(s: State, node: string): nat
    requires s.pv.claim.Some?
  {
    ReadyCount(s.pods, node, s.pv.claim.value)
  }

  function Recorded(s: State, node: string): nat {
    |RawRecords(s.pv, node)|
  }

  datatype Step =
    | Arrive(pod: Pod)
    | BindTo(i: nat, node: string)
    | End(i: nat, pod: Pod)
    | Gone(i: nat)
    | Record(node: string, mount: MountInfo)
    | Forget(pv: PV)

  /** The plugin drops records; it adds none. */
  predicate Forgotten(pv': PV, pv: PV) {
    && pv' == pv.(mounts := pv'.mounts)
    && pv'.mounts.Listed? && pv.mounts.Listed?
    && forall e' :: e' in pv'.mounts.list ==>
         && (exists e :: e in pv.mounts.list && e.node == e'.node)
         && |RawRecords(pv', e'.node)| <= |RawRecords(pv, e'.node)|
  }

  /** The plugin creates a directory only where a pod lacks one: for a volume that is not shared,
      where pods outnumber directories; for a shared one, where there is a pod. */
  predicate Lacks(s: State, node: string)
    requires s.pv.claim.Some?
  {
    if IsShared(s.pv) then Pods(s, node) > 0 else Pods(s, node) > Recorded(s, node)
  }

  /** Only binds of ready pods that use the volume ask the predicate. */
  predicate Next(s: State, s': State, step: Step)
    requires s.pv.claim.Some?
  {
    match step
    case Arrive(pod) => pod.node == "" && s' == s.(pods := s.pods + [pod])
    case BindTo(i, node) =>
      && i < |s.pods| && s.pods[i].node == "" && node != ""
      && (UsesClaim(s.pods[i], s.pv.claim.value) && Ready(s.pods[i]) ==>
            VolumeAffinity(s.pv, node, s.pods) == Ok(true))
      && s' == s.(pods := Bind(s.pods, i, node))
    case End(i, pod) =>
      i < |s.pods| && Ended(pod, s.pods[i]) && s' == s.(pods := s.pods[i := pod])
    case Gone(i) => i < |s.pods| && s' == s.(pods := RemoveAt(s.pods, i))
    case Record(node, mount) =>
      node != "" && Lacks(s, node) && s' == s.(pv := RecordMount(s.pv, node, mount))
    case Forget(pv) => Forgotten(pv, s.pv) && s' == s.(pv := pv)
  }

  predicate StepAt(ss: seq<State>, steps: seq<Step>, t: nat) {
    t < |steps| && t + 1 < |ss| && ss[t].pv.claim.Some? && Next(ss[t], ss[t + 1], steps[t])
  }

  /** A run of a kept hostpath volume: consecutive states are one step apart. */
  predicate Run(ss: seq<State>, steps: seq<Step>) {
    && |ss| == |steps| + 1 && IsKeep(ss[0].pv)
    && ss[0].pv.claim.Some?
    && forall t: nat :: t < |steps| ==> StepAt(ss, steps, t)
  }

  lemma StepKeepsVolume(s: State, s': State, step: Step)
    requires s.pv.claim.Some? && Next(s, s', step)
    ensures s'.pv == s.pv.(mounts := s'.pv.mounts)
    ensures IsKeep(s'.pv) == IsKeep(s.pv) && IsShared(s'.pv) == IsShared(s.pv)
  {
  }

  // ---------- counts after a step ----------

  lemma PodsAfter(s: State, s': State, step: Step, n: string)
    requires s.pv.claim.Some? && Next(s, s', step) && n != ""
    ensures !step.BindTo? ==> Pods(s', n) <= Pods(s, n)
    ensures step.BindTo? ==>
              Pods(s', n) == Pods(s, n)
                + if n == step.node && UsesClaim(s.pods[step.i], s.pv.claim.value) && Ready(s.pods[step.i])
                  then 1 else 0
    ensures step.Record? ==> Pods(s', n) == Pods(s, n)
  {
    var c := s.pv.claim.value;
    match step
    case Arrive(pod) => ArriveCount(s.pods, pod, n, c);
    case BindTo(i, node) => BindCount(s.pods, i, node, n, c);
    case End(i, pod) => EndCount(s.pods, i, pod, n, c);
    case Gone(i) => GoneCount(s.pods, i, n, c);
    case Record(node, mount) =>
    case Forget(pv) =>
  }

  lemma RecordedAfter(s: State, s': State, step: Step, n: string)
    requires IsCommon(s.pv) && s.pv.claim.Some? && Next(s, s', step)
    ensures step.Record? ==> Recorded(s', n) == Recorded(s, n) + if n == step.node then 1 else 0
    ensures !step.Record? ==> Recorded(s', n) <= Recorded(s, n)
    ensures step.BindTo? ==> Recorded(s', n) == Recorded(s, n)
  {
    match step
    case Record(node, mount) => RecordedEntry(s.pv, node, mount, n);
    case Forget(pv) =>
      if MountedOn(pv, n) {
        MountedIsListed(pv, n);
        var i :| 0 <= i < |Entries(pv)| && Entries(pv)[i].node == n;
        assert pv.mounts.list[i] in pv.mounts.list;
      }
    case _ =>
  }

  // ---------- no directory leak ----------

  /** Directories the volume has or must have on a node. */
  function HeldOn(s: State, node: string): int
    requires s.pv.claim.Some?
  {
    Max(Recorded(s, node), Pods(s, node))
  }

  function Held(s: State, nodes: seq<string>): int
    requires s.pv.claim.Some?
  {
    if nodes == [] then 0 else HeldOn(s, nodes[0]) + Held(s, nodes[1..])
  }

  function BoundPods(s: State, nodes: seq<string>): int
    requires s.pv.claim.Some?
  {
    if nodes == [] then 0 else Pods(s, nodes[0]) + BoundPods(s, nodes[1..])
  }

  predicate IsReadyOn(p: Pod, nodes: seq<string>, c: ClaimName) {
    p.node in nodes && UsesClaim(p, c) && Ready(p)
  }

  function ReadyOn(nodes: seq<string>, c: ClaimName): Pod -> bool {
    p => IsReadyOn(p, nodes, c)
  }

  predicate NodeNames(nodes: seq<string>) {
    && (forall i :: 0 <= i < |nodes| ==> nodes[i] != "")
    && forall i, j :: 0 <= i < j < |nodes| ==> nodes[i] != nodes[j]
  }

  lemma {:induction false} SplitCount(pods: seq<Pod>, nodes: seq<string>, c: ClaimName)
    requires nodes != [] && nodes[0] != "" && nodes[0] !in nodes[1..]
    ensures |Filter(ReadyOn(nodes, c), pods)|
         == |Filter(Selector(nodes[0], c, false), pods)| + |Filter(ReadyOn(nodes[1..], c), pods)|
  {
    if pods != [] {
      SplitCount(pods[1..], nodes, c);
      assert nodes == [nodes[0]] + nodes[1..];
      assert pods[0].node in nodes <==> pods[0].node == nodes[0] || pods[0].node in nodes[1..];
    }
  }

  /** The sum over nodes counts each ready pod bound to one of them once. */
  lemma {:induction false} BoundPodsCount(s: State, nodes: seq<string>)
    requires s.pv.claim.Some? && NodeNames(nodes)
    ensures BoundPods(s, nodes) == |Filter(ReadyOn(nodes, s.pv.claim.value), s.pods)|
  {
    var c := s.pv.claim.value;
    if nodes == [] {
      NothingReady(s.pods, c);
    } else {
      BoundPodsCount(s, nodes[1..]);
      SplitCount(s.pods, nodes, c);
    }
  }

  lemma {:induction false} NothingReady(pods: seq<Pod>, c: ClaimName)
    ensures Filter(ReadyOn([], c), pods) == []
  {
    if pods != [] {
      NothingReady(pods[1..], c);
    }
  }

  lemma {:induction false} HeldShrinks(s: State, s': State, nodes: seq<string>)
    requires s.pv.claim.Some? && s'.pv.claim.Some?
    requires forall i :: 0 <= i < |nodes| ==> HeldOn(s', nodes[i]) <= HeldOn(s, nodes[i])
    ensures Held(s', nodes) <= Held(s, nodes)
  {
    if nodes != [] {
      assert forall i :: 0 <= i < |nodes[1..]| ==> nodes[1..][i] == nodes[i + 1];
      HeldShrinks(s, s', nodes[1..]);
    }
  }

  lemma {:induction false} HeldIsBound(s: State, nodes: seq<string>)
    requires s.pv.claim.Some? && forall i :: 0 <= i < |nodes| ==> Recorded(s, nodes[i]) <= Pods(s, nodes[i])
    ensures Held(s, nodes) == BoundPods(s, nodes)
  {
    if nodes != [] {
      assert forall i :: 0 <= i < |nodes[1..]| ==> nodes[1..][i] == nodes[i + 1];
      HeldIsBound(s, nodes[1..]);
    }
  }

  lemma NoReusable(pv: PV, n: string, pods: seq<Pod>)
    requires IsKeep(pv) && !IsShared(pv) && MountList(pv).Ok? && pv.claim.Some?
    requires !Reusable(pv, n, pods)
    ensures |RawRecords(pv, n)| <= ReadyCount(pods, n, pv.claim.value)
  {
    MountedIsListed(pv, n);
  }

  /** A bind to a node with nothing to reuse happens only when no node has a spare directory. */
  lemma BindKeepsHeld(s: State, s': State, step: Step, nodes: seq<string>)
    requires IsKeep(s.pv) && !IsShared(s.pv) && MountList(s.pv).Ok? && s.pv.claim.Some?
    requires NodeNames(nodes) && step.BindTo? && Next(s, s', step)
    ensures Held(s', nodes) <= Held(s, nodes) || Held(s', nodes) == BoundPods(s', nodes)
  {
    forall n | n != "" { PodsAfter(s, s', step, n); }
    forall n { RecordedAfter(s, s', step, n); }
    if forall n :: !Reusable(s.pv, n, s.pods) {
      forall i | 0 <= i < |nodes| ensures Recorded(s', nodes[i]) <= Pods(s', nodes[i]) {
        NoReusable(s.pv, nodes[i], s.pods);
      }
      HeldIsBound(s', nodes);
    } else {
      AcceptedNodes(s.pv, step.node, s.pods);
      HeldShrinks(s, s', nodes);
    }
  }

  lemma StepKeepsHeld(s: State, s': State, step: Step, nodes: seq<string>)
    requires IsKeep(s.pv) && !IsShared(s.pv) && MountList(s.pv).Ok? && s.pv.claim.Some?
    requires NodeNames(nodes) && Next(s, s', step)
    ensures Held(s', nodes) <= Held(s, nodes) || Held(s', nodes) == BoundPods(s', nodes)
  {
    if step.BindTo? {
      BindKeepsHeld(s, s', step, nodes);
    } else {
      forall i | 0 <= i < |nodes| ensures HeldOn(s', nodes[i]) <= HeldOn(s, nodes[i]) {
        PodsAfter(s, s', step, nodes[i]);
        RecordedAfter(s, s', step, nodes[i]);
      }
      HeldShrinks(s, s', nodes);
    }
  }

  /** No directory leak: at any time of any run, what the volume holds on the nodes is at most what
      it held at the start, or the number of its ready pods at some time so far. */
  lemma NoDirectoryLeak(ss: seq<State>, steps: seq<Step>, nodes: seq<string>, t: nat)
    requires Run(ss, steps) && !IsShared(ss[0].pv) && MountList(ss[0].pv).Ok?
    requires NodeNames(nodes) && t < |ss|
    ensures ss[t].pv.claim.Some?
    ensures || Held(ss[t], nodes) <= Held(ss[0], nodes)
            || exists j: nat :: j <= t && ss[j].pv.claim.Some? && Held(ss[t], nodes) <= BoundPods(ss[j], nodes)
  {
    for k := 0 to t
      invariant ss[k].pv.claim.Some? && IsKeep(ss[k].pv) && !IsShared(ss[k].pv) && MountList(ss[k].pv).Ok?
      invariant || Held(ss[k], nodes) <= Held(ss[0], nodes)
                || exists j: nat :: j <= k && ss[j].pv.claim.Some? && Held(ss[k], nodes) <= BoundPods(ss[j], nodes)
    {
      assert StepAt(ss, steps, k);
      StepKeepsVolume(ss[k], ss[k + 1], steps[k]);
      StepKeepsHeld(ss[k], ss[k + 1], steps[k], nodes);
    }
  }

  // ---------- single-node residency of shared volumes ----------

  /** The volume lives on a node that runs one of its pods or has an entry for it. */
  predicate Resident(s: State, node: string)
    requires s.pv.claim.Some?
  {
    node != "" && (Pods(s, node) > 0 || MountedOn(s.pv, node))
  }

  ghost predicate OneHome(s: State)
    requires s.pv.claim.Some?
  {
    forall m, n :: Resident(s, m) && Resident(s, n) ==> m == n
  }

  lemma StaysResident(s: State, s': State, step: Step, n: string)
    requires IsKeep(s.pv) && IsShared(s.pv) && s.pv.claim.Some? && Next(s, s', step)
    requires s'.pv.claim.Some? && Resident(s', n)
    ensures Resident(s, n) || (step.BindTo? && step.node == n && VolumeAffinity(s.pv, n, s.pods) == Ok(true))
  {
    PodsAfter(s, s', step, n);
    match step
    case Record(node, mount) =>
      RecordedEntry(s.pv, node, mount, n);
    case Forget(pv) =>
      if MountedOn(pv, n) {
        MountedIsListed(pv, n);
        MountedIsListed(s.pv, n);
        var i :| 0 <= i < |Entries(pv)| && Entries(pv)[i].node == n;
        assert Entries(pv)[i] in pv.mounts.list;
        var e :| e in s.pv.mounts.list && e.node == n;
        assert Entries(s.pv)[IndexOf(s.pv.mounts.list, e)].node == n;
      }
    case _ =>
  }

  /** Affinity accepts a shared volume only on its home, or anywhere while it has none. */
  lemma AcceptedAtHome(s: State, n: string, m: string)
    requires IsKeep(s.pv) && IsShared(s.pv) && s.pv.claim.Some? && OneHome(s) && n != ""
    requires VolumeAffinity(s.pv, n, s.pods) == Ok(true) && Resident(s, m)
    ensures m == n
  {
    var c := s.pv.claim.value;
    UsedNodesCount(s.pods, c, n);
    UsedNodesCount(s.pods, c, m);
    MountedIsListed(s.pv, m);
    assert Resident(s, n);
  }

  /** In full: a shared kept volume is accepted on a node exactly when it lives there, or nowhere yet.
      Entries name their nodes; one without a name would keep the volume off every node. */
  lemma AcceptedHomeIff(s: State, n: string)
    requires IsKeep(s.pv) && IsShared(s.pv) && s.pv.claim.Some? && OneHome(s) && n != ""
    requires forall i :: 0 <= i < |Entries(s.pv)| ==> Entries(s.pv)[i].node != ""
    ensures VolumeAffinity(s.pv, n, s.pods) == Ok(true)
       <==> (Resident(s, n) || forall m :: !Resident(s, m))
  {
    SharedAffinityIff(s.pv, n, s.pods);
    MountedIsListed(s.pv, n);
    if VolumeAffinity(s.pv, n, s.pods) == Ok(true) {
      forall m | Resident(s, m) ensures m == n {
        AcceptedAtHome(s, n, m);
      }
    }
    if forall m :: !Resident(s, m) {
      forall m | m != "" ensures ReadyCount(s.pods, m, s.pv.claim.value) == 0 {
        assert !Resident(s, m);
      }
    }
    if Entries(s.pv) != [] {
      MountedIsListed(s.pv, Entries(s.pv)[0].node);
      assert Resident(s, Entries(s.pv)[0].node);
    }
  }

  lemma StepKeepsOneHome(s: State, s': State, step: Step)
    requires IsKeep(s.pv) && IsShared(s.pv) && s.pv.claim.Some? && Next(s, s', step) && OneHome(s)
    ensures s'.pv.claim.Some? && OneHome(s')
  {
    StepKeepsVolume(s, s', step);
    forall m, n | Resident(s', m) && Resident(s', n) ensures m == n {
      StaysResident(s, s', step, m);
      StaysResident(s, s', step, n);
      if !Resident(s, m) && Resident(s, n) {
        AcceptedAtHome(s, m, n);
      } else if !Resident(s, n) && Resident(s, m) {
        AcceptedAtHome(s, n, m);
      }
    }
  }

  /** Single-node residency: at any time of any run, the nodes with a ready pod or an entry of a
      shared kept volume are at most one. */
  lemma SingleNodeResidency(ss: seq<State>, steps: seq<Step>, t: nat)
    requires Run(ss, steps) && IsShared(ss[0].pv) && OneHome(ss[0]) && t < |ss|
    ensures ss[t].pv.claim.Some? && OneHome(ss[t])
  {
    for k := 0 to t
      invariant ss[k].pv.claim.Some? && IsKeep(ss[k].pv) && IsShared(ss[k].pv) && OneHome(ss[k])
    {
      assert StepAt(ss, steps, k);
      StepKeepsVolume(ss[k], ss[k + 1], steps[k]);
      StepKeepsOneHome(ss[k], ss[k + 1], steps[k]);
    }
  }
}
