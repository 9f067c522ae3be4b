/**
 Runs of a node: pods arrive, are bound here or elsewhere, end, and are deleted, so that their names
 may come back; volumes come and go; the storage plugin records and removes directories. Every world
 of every run keeps the node feasible.
 */
module OvercommitRuns {
  import opened Sequences
  import opened HostPathPV
  import opened Packing
  import opened DiskPressure
  import opened PressureProperties
  import opened Accounting
  import opened Binding
  import opened Recording
  import opened Overcommit
  import opened OvercommitRecords

  datatype Step =
    | Arrive(pod: Pod)
    | BindHere(i: nat)
    | BindElsewhere(i: nat, other: string)
    | End(i: nat, pod: Pod)
    | Gone(i: nat)
    | Record(v: nat, mount: MountInfo)
    | Forget(v: nat, k: nat, pv: PV)
    | AnnotateElsewhere(v: nat, pv: PV)
    | AddVolume(pv: PV, claims: map<ClaimName, Claim>)
    | RemoveVolume(v: nat, claims: map<ClaimName, Claim>)

  /** One step of the cluster, seen from `node`. Only binds to `node` ask the predicate. */
  ghost predicate Next(w: World, w': World, step: Step, node: string, disks: seq<NodeDisk>) {
    match step
    case Arrive(pod) =>
      pod.node == "" && UniquePods(w.pods + [pod]) && w' == w.(pods := w.pods + [pod])
    case BindHere(i) =>
      && i < |w.pods| && w.pods[i].node == "" && OwesOnlyCharged(w, i, node)
      && PressureVerdict(w, w.pods[i], node, Disks(disks)) == Match
      && w' == w.(pods := Bind(w.pods, i, node))
    case BindElsewhere(i, other) =>
      i < |w.pods| && w.pods[i].node == "" && other != node && w' == w.(pods := Bind(w.pods, i, other))
    case End(i, pod) =>
      i < |w.pods| && Ended(pod, w.pods[i]) && w' == w.(pods := w.pods[i := pod])
    case Gone(i) =>
      i < |w.pods| && w' == w.(pods := RemoveAt(w.pods, i))
    case Record(v, mount) =>
      MayRecord(w, node, disks, v, mount) && w' == Recorded(w, node, v, mount)
    case Forget(v, k, pv) =>
      Forgets(w, node, v, k, pv) && w' == w.(pvs := w.pvs[v := pv])
    case AnnotateElsewhere(v, pv) =>
      && v < |w.pvs| && pv == w.pvs[v].(mounts := pv.mounts) && MountList(pv).Ok?
      && EntryOn(pv, node) == EntryOn(w.pvs[v], node)
      && w' == w.(pvs := w.pvs[v := pv])
    case AddVolume(pv, claims) =>
      && EntryOn(pv, node).None? && MountList(pv).Ok? && 0 <= Capacity(pv)
      && DistinctNames(w.pvs + [pv]) && BindingsAgree(w.pvs + [pv], claims)
      && w' == w.(pvs := w.pvs + [pv], claims := claims)
    case RemoveVolume(v, claims) =>
      && v < |w.pvs| && EntryOn(w.pvs[v], node).None? && BindingsAgree(RemoveAt(w.pvs, v), claims)
      && w' == w.(pvs := RemoveAt(w.pvs, v), claims := claims)
  }

  ghost predicate Sound(w: World, node: string, disks: seq<NodeDisk>) {
    WellFormed(w, node, disks) && Feasible(disks, Directories(w, node))
  }

  lemma AnnotationIsLess(w: World, v: nat, pv: PV, node: string)
    requires v < |w.pvs| && pv == w.pvs[v].(mounts := pv.mounts)
    requires EntryOn(pv, node) == EntryOn(w.pvs[v], node)
    ensures RecordsNoMore(w, v, pv, node) && OwesNoMore(w, v, pv, node)
  {
    AllRawUpdate(w.pvs, v, pv, node);
  }

  lemma AnnotateElsewhereStaysSound(w: World, v: nat, pv: PV, node: string, disks: seq<NodeDisk>)
    requires Sound(w, node, disks) && v < |w.pvs|
    requires pv == w.pvs[v].(mounts := pv.mounts) && MountList(pv).Ok?
    requires EntryOn(pv, node) == EntryOn(w.pvs[v], node)
    ensures Sound(w.(pvs := w.pvs[v := pv]), node, disks)
  {
    RecordsOfOne(w.pvs, v, node);
    UpdateReads(w, v, pv, node, disks);
    DirectoriesNonNegative(w, node, disks);
    AnnotationIsLess(w, v, pv, node);
    LessStaysFeasible(w, v, pv, node, disks);
  }

  lemma OneMoreVolume(pvs: seq<PV>, pv: PV)
    requires Readable(pvs) && NonNegativeCapacities(pvs) && MountList(pv).Ok? && 0 <= Capacity(pv)
    ensures Readable(pvs + [pv]) && NonNegativeCapacities(pvs + [pv])
  {
  }

  lemma AddVolumeStaysSound(w: World, pv: PV, claims: map<ClaimName, Claim>, node: string, disks: seq<NodeDisk>)
    requires Sound(w, node, disks) && EntryOn(pv, node).None? && MountList(pv).Ok? && 0 <= Capacity(pv)
    requires DistinctNames(w.pvs + [pv]) && BindingsAgree(w.pvs + [pv], claims)
    ensures Sound(w.(pvs := w.pvs + [pv], claims := claims), node, disks)
  {
    DirectoriesNonNegative(w, node, disks);
    UnrecordedOwesNothing(w.pvs, pv, w.pods, node);
    OneMoreVolume(w.pvs, pv);
    FewerDirectories(w, w.(pvs := w.pvs + [pv], claims := claims), node, disks);
  }

  lemma WithoutOne(pvs: seq<PV>, v: nat)
    requires v < |pvs| && DistinctNames(pvs) && Readable(pvs) && NonNegativeCapacities(pvs)
    ensures DistinctNames(RemoveAt(pvs, v)) && Readable(RemoveAt(pvs, v)) && NonNegativeCapacities(RemoveAt(pvs, v))
  {
    assert forall i :: 0 <= i < |RemoveAt(pvs, v)| ==> RemoveAt(pvs, v)[i] == pvs[if i < v then i else i + 1];
  }

  lemma RemoveVolumeStaysSound(w: World, v: nat, claims: map<ClaimName, Claim>, node: string,
                               disks: seq<NodeDisk>)
    requires Sound(w, node, disks) && v < |w.pvs| && EntryOn(w.pvs[v], node).None?
    requires BindingsAgree(RemoveAt(w.pvs, v), claims)
    ensures Sound(w.(pvs := RemoveAt(w.pvs, v), claims := claims), node, disks)
  {
    var pvs' := RemoveAt(w.pvs, v);
    WithoutOne(w.pvs, v);
    DirectoriesNonNegative(w, node, disks);
    WithoutUnrecorded(w.pvs, v, w.pods, node);
    FewerDirectories(w, w.(pvs := pvs', claims := claims), node, disks);
  }

  lemma StepStaysSound(w: World, w': World, step: Step, node: string, disks: seq<NodeDisk>)
    requires Sound(w, node, disks) && Next(w, w', step, node, disks)
    ensures Sound(w', node, disks)
  {
    match step
    case Arrive(pod) =>
      forall c ensures ReadyCount(w'.pods, node, c) <= ReadyCount(w.pods, node, c) {
        ArriveCount(w.pods, pod, node, c);
      }
      FewerPodsStayFeasible(w, w'.pods, node, disks);
    case BindHere(i) =>
      UniqueAfterUpdate(w.pods, i, w'.pods[i]);
      AcceptedBindStaysFeasible(w, i, node, disks);
    case BindElsewhere(i, other) =>
      UniqueAfterUpdate(w.pods, i, w'.pods[i]);
      forall c ensures ReadyCount(w'.pods, node, c) <= ReadyCount(w.pods, node, c) {
        BindCount(w.pods, i, other, node, c);
      }
      FewerPodsStayFeasible(w, w'.pods, node, disks);
    case End(i, pod) =>
      UniqueAfterUpdate(w.pods, i, pod);
      forall c ensures ReadyCount(w'.pods, node, c) <= ReadyCount(w.pods, node, c) {
        EndCount(w.pods, i, pod, node, c);
      }
      FewerPodsStayFeasible(w, w'.pods, node, disks);
    case Gone(i) =>
      UniqueAfterRemoval(w.pods, i);
      forall c ensures ReadyCount(w'.pods, node, c) <= ReadyCount(w.pods, node, c) {
        GoneCount(w.pods, i, node, c);
      }
      FewerPodsStayFeasible(w, w'.pods, node, disks);
    case Record(v, mount) =>
      RecordStaysWellFormed(w, node, disks, v, mount);
      RecordFeasibleIff(w, node, disks, v, mount);
    case Forget(v, k, pv) =>
      ForgetStaysWellFormed(w, node, disks, v, k, pv);
      ForgetStaysFeasible(w, node, disks, v, k, pv);
    case AnnotateElsewhere(v, pv) =>
      AnnotateElsewhereStaysSound(w, v, pv, node, disks);
    case AddVolume(pv, claims) =>
      AddVolumeStaysSound(w, pv, claims, node, disks);
    case RemoveVolume(v, claims) =>
      RemoveVolumeStaysSound(w, v, claims, node, disks);
  }

  ghost predicate StepAt(ws: seq<World>, steps: seq<Step>, node: string, disks: seq<NodeDisk>, t: nat) {
    t < |steps| && t + 1 < |ws| && Next(ws[t], ws[t + 1], steps[t], node, disks)
  }

  /** A run: consecutive worlds are one step apart. */
  ghost predicate Run(ws: seq<World>, steps: seq<Step>, node: string, disks: seq<NodeDisk>) {
    |ws| == |steps| + 1 && forall t: nat :: t < |steps| ==> StepAt(ws, steps, node, disks, t)
  }

  lemma SoundAfter(ws: seq<World>, steps: seq<Step>, node: string, disks: seq<NodeDisk>, t: nat)
    requires t < |steps| && Run(ws, steps, node, disks) && Sound(ws[t], node, disks)
    ensures Sound(ws[t + 1], node, disks)
  {
    assert StepAt(ws, steps, node, disks, t);
    StepStaysSound(ws[t], ws[t + 1], steps[t], node, disks);
  }

  /** No overcommit: from a feasible node, every world of every run is feasible. */
  lemma NoOvercommit(ws: seq<World>, steps: seq<Step>, node: string, disks: seq<NodeDisk>, t: nat)
    requires Run(ws, steps, node, disks) && Sound(ws[0], node, disks) && t < |ws|
    ensures Sound(ws[t], node, disks)
  {
    for k := 0 to t
      invariant Sound(ws[k], node, disks)
    {
      SoundAfter(ws, steps, node, disks, k);
    }
  }

  /** What a feasible node means: no disk holds more recorded directories than it has allocable,
      and all directories together fit the node. */
  lemma FeasibleMeans(w: World, node: string, disks: seq<NodeDisk>, d: nat)
    requires Sound(w, node, disks) && d < |disks|
    ensures RecordedOn(Directories(w, node), Paths(disks), d) <= disks[d].allocable
  {
    var mounts := Directories(w, node);
    DirectoriesNonNegative(w, node, disks);
    FilteredNonNegative(UnplacedEntry(), mounts);
    var a :| Holds(UnplacedSizes(mounts), Free(disks, mounts), a);
    LoadNonNegative(UnplacedSizes(mounts), a, d);
    assert Load(UnplacedSizes(mounts), a, d) <= Free(disks, mounts)[d];
  }
}
