/**
 Volumes, pods and the quota directories recorded on volumes: how pods are listed for a claim,
 when a node still has a directory to reuse, and the list of directories charged to a node.

 The mount annotation of a volume is JSON text in the program; here it is the value the text
 decodes to, or `Unreadable`. The program's path.Clean is the parameter `clean`, any function.
 */
module HostPathPV {
  import opened Sequences

  datatype Error = ClaimMissing | ClaimNotBound | VolumeMissing
                 | BadMountAnnotation | VolumeNotClaimed | NotHostPath

  datatype Result<+T> = Ok(value: T) | Err(error: Error)

  datatype MountInfo = MountInfo(hostPath: string, quota: int)
  datatype NodeMounts = NodeMounts(node: string, mounts: seq<MountInfo>)
  datatype MountAnnotation = NoMounts | Unreadable | Listed(list: seq<NodeMounts>)
  datatype CapacityAnnotation = NoCapacity | Malformed | Given(size: int)
  datatype VolumeKind = HostPath | CSIHostPath | Other
  datatype ClaimName = ClaimName(ns: string, name: string)

  datatype PV = PV(name: string, kind: VolumeKind, annotations: map<string, string>,
                   mounts: MountAnnotation, capacityAnn: CapacityAnnotation,
                   storage: Option<int>, claim: Option<ClaimName>)

  datatype Phase = Pending | Running | Succeeded | Failed | Unknown
  datatype Volume = ClaimVolume(claim: string) | PlainVolume
  datatype Pod = Pod(ns: string, name: string, node: string, volumes: seq<Volume>,
                     phase: Phase, deleting: bool)

  datatype Claim = Claim(bound: bool, volume: string)

  function QuotaOf(m: MountInfo): int { m.quota }

  function Quotas(mounts: seq<MountInfo>): seq<int> { Map(QuotaOf, mounts) }

  const QUOTA_FOR_ONE_POD := "io.enndata.user/alpha-pvhostpathquotaforonepod"
  const MOUNT_POLICY := "io.enndata.user/alpha-pvhostpathmountpolicy"

  // ---------- classification ----------

  predicate IsCommon(pv: PV) {
    pv.kind == HostPath || pv.kind == CSIHostPath
  }

  predicate HasAnnotation(annotations: map<string, string>, key: string, value: string) {
    key in annotations && annotations[key] == value
  }

  /** Not shared by default: only the text "false" shares one directory among pods. */
  predicate IsShared(pv: PV) {
    IsCommon(pv) && HasAnnotation(pv.annotations, QUOTA_FOR_ONE_POD, "false")
  }

  /** Kept by default: only the policy "none" gives every pod a new directory. */
  predicate IsKeep(pv: PV) {
    IsCommon(pv) && !HasAnnotation(pv.annotations, MOUNT_POLICY, "none")
  }

  function Capacity(pv: PV): int {
    if !IsCommon(pv) then 0
    else if pv.capacityAnn.Given? then pv.capacityAnn.size
    else if pv.storage.Some? then pv.storage.value
    else 0
  }

  function MountList(pv: PV): Result<seq<NodeMounts>> {
    if !IsCommon(pv) then Ok([])
    else match pv.mounts
      case NoMounts => Ok([])
      case Unreadable => Err(BadMountAnnotation)
      case Listed(list) => Ok(list)
  }

  function FirstEntry(list: seq<NodeMounts>, node: string): Option<seq<MountInfo>> {
    if list == [] then None
    else if list[0].node == node then Some(list[0].mounts)
    else FirstEntry(list[1..], node)
  }

  lemma {:induction false} FirstEntryExists(list: seq<NodeMounts>, node: string)
    ensures FirstEntry(list, node).Some? <==> exists i :: 0 <= i < |list| && list[i].node == node
  {
    if list != [] {
      FirstEntryExists(list[1..], node);
      assert forall i :: 1 <= i < |list| ==> list[i] == list[1..][i - 1];
      assert forall i :: 0 <= i < |list[1..]| ==> list[1..][i] == list[i + 1];
    }
  }

  /** The entry found is the first one for the node. */
  lemma {:induction false} FirstEntryFound(list: seq<NodeMounts>, node: string, i: nat)
    requires i < |list| && list[i].node == node && forall k :: 0 <= k < i ==> list[k].node != node
    ensures FirstEntry(list, node) == Some(list[i].mounts)
    decreases i
  {
    if i > 0 {
      assert list[0].node != node;
      FirstEntryFound(list[1..], node, i - 1);
    }
  }

  /** The directories a volume's first entry for the node records. */
  function EntryOn(pv: PV, node: string): Option<seq<MountInfo>> {
    if IsCommon(pv) && pv.mounts.Listed? then FirstEntry(pv.mounts.list, node) else None
  }

  predicate MountedOn(pv: PV, node: string) {
    EntryOn(pv, node).Some?
  }

  // ---------- pods of a claim ----------

  predicate Ready(p: Pod) {
    p.phase != Succeeded && p.phase != Failed && !p.deleting
  }

  predicate UsesClaim(p: Pod, c: ClaimName) {
    p.ns == c.ns && ClaimVolume(c.name) in p.volumes
  }

  /** The empty node name selects pods of every node. */
  predicate Selected(p: Pod, node: string, c: ClaimName, all: bool) {
    (node == "" || p.node == node) && UsesClaim(p, c) && (all || Ready(p))
  }

  function Selector(node: string, c: ClaimName, all: bool): Pod -> bool {
    p => Selected(p, node, c, all)
  }

  method List(pods: seq<Pod>, filter: Option<Pod -> bool>) returns (r: seq<Pod>)
    ensures r == if filter.None? then pods else Filter(filter.value, pods)
  {
    r := [];
    for i := 0 to |pods|
      invariant r == if filter.None? then pods[..i] else Filter(filter.value, pods[..i])
    {
      if filter.None? || filter.value(pods[i]) {
        r := r + [pods[i]];
      }
      assert pods[..i + 1] == pods[..i] + [pods[i]];
      if filter.Some? {
        FilterConcat(filter.value, pods[..i], [pods[i]]);
      }
    }
    assert pods[..|pods|] == pods;
  }

  method FilterByNodeAndPVC(pods: seq<Pod>, node: string, c: ClaimName, all: bool)
    returns (r: seq<Pod>)
    ensures r == Filter(Selector(node, c, all), pods)
    ensures forall p :: p in r <==>
              && p in pods && (node == "" || p.node == node) && p.ns == c.ns
              && (exists i :: 0 <= i < |p.volumes| && p.volumes[i] == ClaimVolume(c.name))
              && (all || ((p.phase == Pending || p.phase == Running || p.phase == Unknown) && !p.deleting))
  {
    r := List(pods, Some(Selector(node, c, all)));
    FilterMembers(Selector(node, c, all), pods);
  }

  function ReadyUsing(pods: seq<Pod>, node: string, c: ClaimName): seq<Pod> {
    Filter(Selector(node, c, false), pods)
  }

  function ReadyCount(pods: seq<Pod>, node: string, c: ClaimName): nat {
    |ReadyUsing(pods, node, c)|
  }

  function PodKey(p: Pod): string {
    p.ns + ":" + p.name
  }

  function KeysOf(pods: seq<Pod>): set<string> {
    if pods == [] then {} else {PodKey(pods[0])} + KeysOf(pods[1..])
  }

  /** The map of ready pods; empty as well when the volume is not claimed. */
  function PodKeys(pv: PV, pods: seq<Pod>, node: string): set<string> {
    if pv.claim.None? then {} else KeysOf(ReadyUsing(pods, node, pv.claim.value))
  }

  method GetHostPathPVUsedPodMap(pv: PV, pods: seq<Pod>, node: string)
    returns (keys: set<string>, failed: bool)
    ensures failed <==> pv.claim.None?
    ensures keys == PodKeys(pv, pods, node)
  {
    keys := {};
    if pv.claim.None? {
      return keys, true;
    }
    failed := false;
    var used := FilterByNodeAndPVC(pods, node, pv.claim.value, false);
    for i := 0 to |used|
      invariant keys + KeysOf(used[i..]) == KeysOf(used)
    {
      assert used[i..][1..] == used[i + 1..];
      keys := keys + {PodKey(used[i])};
    }
  }

  predicate UniquePods(pods: seq<Pod>) {
    forall i, j :: 0 <= i < j < |pods| ==> pods[i].ns != pods[j].ns || pods[i].name != pods[j].name
  }

  lemma PodKeyInjective(p: Pod, q: Pod)
    requires p.ns == q.ns && PodKey(p) == PodKey(q)
    ensures p.name == q.name
  {
    assert p.name == PodKey(p)[|p.ns| + 1..];
    assert q.name == PodKey(q)[|q.ns| + 1..];
  }

  lemma {:induction false} FilterUnique(f: Pod -> bool, pods: seq<Pod>)
    requires UniquePods(pods)
    ensures UniquePods(Filter(f, pods))
  {
    if pods != [] {
      FilterUnique(f, pods[1..]);
      FilterMembers(f, pods[1..]);
      var rest := Filter(f, pods[1..]);
      forall j | 0 <= j < |rest| ensures pods[0].ns != rest[j].ns || pods[0].name != rest[j].name {
        assert rest[j] in pods[1..];
      }
    }
  }

  lemma {:induction false} KeyOwner(ps: seq<Pod>, key: string) returns (k: nat)
    requires key in KeysOf(ps)
    ensures k < |ps| && PodKey(ps[k]) == key
  {
    if PodKey(ps[0]) == key {
      k := 0;
    } else {
      k := KeyOwner(ps[1..], key);
      k := k + 1;
    }
  }

  lemma {:induction false} CountKeys(ps: seq<Pod>, ns: string)
    requires UniquePods(ps) && forall i :: 0 <= i < |ps| ==> ps[i].ns == ns
    ensures |KeysOf(ps)| == |ps|
  {
    if ps != [] {
      CountKeys(ps[1..], ns);
      if PodKey(ps[0]) in KeysOf(ps[1..]) {
        var k := KeyOwner(ps[1..], PodKey(ps[0]));
        PodKeyInjective(ps[0], ps[k + 1]);
        assert false;
      }
    }
  }

  /** The accounting counts keys, the reuse test counts pods: the same number. */
  lemma KeysCountPods(pv: PV, pods: seq<Pod>, node: string)
    requires UniquePods(pods) && pv.claim.Some?
    ensures |PodKeys(pv, pods, node)| == ReadyCount(pods, node, pv.claim.value)
  {
    var f := Selector(node, pv.claim.value, false);
    FilterUnique(f, pods);
    FilterMembers(f, pods);
    var used := Filter(f, pods);
    forall i | 0 <= i < |used| ensures used[i].ns == pv.claim.value.ns {
      assert used[i] in used;
    }
    CountKeys(used, pv.claim.value.ns);
  }

  // ---------- reuse of a recorded directory ----------

  /** Whether the volume has a directory on the node that a new pod would reuse. */
  function HasEmptyItem(pv: PV, node: string, pods: seq<Pod>): Result<bool> {
    if !IsCommon(pv) then Err(NotHostPath)
    else if IsShared(pv) then Ok(MountedOn(pv, node))
    else if !IsKeep(pv) then Ok(false)
    else match MountList(pv)
      case Err(e) => Err(e)
      case Ok(list) =>
        if list == [] then Ok(false)
        else if pv.claim.None? then Err(VolumeNotClaimed)
        else match FirstEntry(list, node)
          case None => Ok(false)
          case Some(ms) => Ok(|ms| > 0 && ReadyCount(pods, node, pv.claim.value) < |ms|)
  }

  function FindPV(pvs: seq<PV>, name: string): Option<PV> {
    if pvs == [] then None
    else if pvs[0].name == name then Some(pvs[0])
    else FindPV(pvs[1..], name)
  }

  /** The volume behind one pod volume; `None` when it is not a claim. */
  function GetPodVolumePV(ns: string, v: Volume, pvs: seq<PV>, claims: map<ClaimName, Claim>)
    : Result<Option<PV>>
  {
    match v
    case PlainVolume => Ok(None)
    case ClaimVolume(name) =>
      var c := ClaimName(ns, name);
      if c !in claims then Err(ClaimMissing)
      else if !claims[c].bound || claims[c].volume == "" then Err(ClaimNotBound)
      else match FindPV(pvs, claims[c].volume)
        case None => Err(VolumeMissing)
        case Some(pv) => Ok(Some(pv))
  }

  // ---------- the directories charged to a node ----------

  function RawRecords(pv: PV, node: string): seq<MountInfo> {
    match EntryOn(pv, node)
    case None => []
    case Some(ms) => ms
  }

  function CleanPaths(clean: string -> string, ms: seq<MountInfo>): set<string> {
    set m | m in ms :: clean(m.hostPath)
  }

  /** The records whose cleaned path is not seen yet, first occurrences only. */
  function Fresh(clean: string -> string, ms: seq<MountInfo>, seen: set<string>): seq<MountInfo> {
    if ms == [] then []
    else if clean(ms[0].hostPath) in seen then Fresh(clean, ms[1..], seen)
    else [ms[0]] + Fresh(clean, ms[1..], seen + {clean(ms[0].hostPath)})
  }

  /** How many directories the volume still owes to pods on the node. */
  function PendingCount(pv: PV, pods: seq<Pod>, node: string): nat {
    match EntryOn(pv, node)
    case None => 0
    case Some(ms) =>
      var k := |PodKeys(pv, pods, node)|;
      if IsShared(pv) then (if ms == [] && k > 0 then 1 else 0)
      else if k > |ms| then k - |ms| else 0
  }

  function PendingItems(pv: PV, pods: seq<Pod>, node: string): seq<MountInfo> {
    Repeat(MountInfo("", Capacity(pv)), PendingCount(pv, pods, node))
  }

  function Prepend<T>(s: seq<T>, r: Result<seq<T>>): Result<seq<T>> {
    match r
    case Ok(t) => Ok(s + t)
    case Err(e) => Err(e)
  }

  lemma PrependConcat<T>(s: seq<T>, t: seq<T>, r: Result<seq<T>>)
    ensures Prepend(s, Prepend(t, r)) == Prepend(s + t, r)
  {
    if r.Ok? {
      assert s + (t + r.value) == s + t + r.value;
    }
  }

  function NodeMountList(clean: string -> string, pvs: seq<PV>, pods: seq<Pod>, node: string,
                         seen: set<string>): Result<seq<MountInfo>>
  {
    if pvs == [] then Ok([])
    else if MountList(pvs[0]).Err? then Err(MountList(pvs[0]).error)
    else
      var raw := RawRecords(pvs[0], node);
      Prepend(Fresh(clean, raw, seen) + PendingItems(pvs[0], pods, node),
              NodeMountList(clean, pvs[1..], pods, node, seen + CleanPaths(clean, raw)))
  }

  lemma CleanPathsSnoc(clean: string -> string, ms: seq<MountInfo>, i: nat)
    requires i < |ms|
    ensures CleanPaths(clean, ms[..i + 1]) == CleanPaths(clean, ms[..i]) + {clean(ms[i].hostPath)}
  {
    assert ms[..i + 1] == ms[..i] + [ms[i]];
  }

  lemma FreshStep(clean: string -> string, ms: seq<MountInfo>, i: nat, acc: seq<MountInfo>, seen: set<string>)
    requires i < |ms|
    ensures var mp := clean(ms[i].hostPath);
            acc + Fresh(clean, ms[i..], seen)
            == if mp in seen then acc + Fresh(clean, ms[i + 1..], seen)
               else acc + [ms[i]] + Fresh(clean, ms[i + 1..], seen + {mp})
  {
    var mp := clean(ms[i].hostPath);
    assert ms[i..][1..] == ms[i + 1..];
    assert acc + ([ms[i]] + Fresh(clean, ms[i + 1..], seen + {mp}))
        == acc + [ms[i]] + Fresh(clean, ms[i + 1..], seen + {mp});
  }

  method AddRecorded(clean: string -> string, ms: seq<MountInfo>, acc: seq<MountInfo>,
                     seen: set<string>)
    returns (ret: seq<MountInfo>, pathMap: set<string>)
    ensures ret == acc + Fresh(clean, ms, seen)
    ensures pathMap == seen + CleanPaths(clean, ms)
  {
    ret, pathMap := acc, seen;
    for i := 0 to |ms|
      invariant pathMap == seen + CleanPaths(clean, ms[..i])
      invariant ret + Fresh(clean, ms[i..], pathMap) == acc + Fresh(clean, ms, seen)
    {
      var mp := clean(ms[i].hostPath);
      CleanPathsSnoc(clean, ms, i);
      FreshStep(clean, ms, i, ret, pathMap);
      if mp !in pathMap {
        pathMap := pathMap + {mp};
        ret := ret + [ms[i]];
      }
    }
    assert ms[..|ms|] == ms;
  }

  method AddPending(pv: PV, ms: seq<MountInfo>, pods: seq<Pod>, node: string, acc: seq<MountInfo>)
    returns (ret: seq<MountInfo>)
    requires EntryOn(pv, node) == Some(ms)
    ensures ret == acc + PendingItems(pv, pods, node)
  {
    ret := acc;
    var podMaps, _ := GetHostPathPVUsedPodMap(pv, pods, node);
    var item := MountInfo("", Capacity(pv));
    if IsShared(pv) {
      if |ms| == 0 && |podMaps| > 0 {
        ret := ret + [item];
      }
    } else if |podMaps| > |ms| {
      for i := 0 to |podMaps| - |ms|
        invariant ret == acc + Repeat(item, i)
      {
        ret := ret + [item];
      }
    }
  }

  /** Charges one volume: the first entry for the node counts, later ones are not looked at. */
  method AddVolume(clean: string -> string, pv: PV, infos: seq<NodeMounts>, pods: seq<Pod>,
                   node: string, acc: seq<MountInfo>, seen: set<string>)
    returns (ret: seq<MountInfo>, pathMap: set<string>)
    requires IsCommon(pv) && MountList(pv) == Ok(infos)
    ensures ret == acc + (Fresh(clean, RawRecords(pv, node), seen) + PendingItems(pv, pods, node))
    ensures pathMap == seen + CleanPaths(clean, RawRecords(pv, node))
  {
    ret, pathMap := acc, seen;
    var j := 0;
    while j < |infos|
      invariant j <= |infos| && ret == acc && pathMap == seen
      invariant FirstEntry(infos, node) == FirstEntry(infos[j..], node)
    {
      var info := infos[j];
      assert infos[j..][1..] == infos[j + 1..];
      if info.node == node {
        ret, pathMap := AddRecorded(clean, info.mounts, ret, pathMap);
        ret := AddPending(pv, info.mounts, pods, node, ret);
        return;
      }
      j := j + 1;
    }
  }

  /** The loops of the program compute `NodeMountList`. */
  method GetNodeHostPathPVMountInfo(clean: string -> string, node: string, pvs: seq<PV>,
                                    pods: seq<Pod>)
    returns (r: Result<seq<MountInfo>>)
    ensures r == NodeMountList(clean, pvs, pods, node, {})
  {
    var ret: seq<MountInfo> := [];
    var pathMap: set<string> := {};
    ghost var whole := NodeMountList(clean, pvs, pods, node, {});
    assert pvs[0..] == pvs;
    assert whole.Ok? ==> [] + whole.value == whole.value;
    for i := 0 to |pvs|
      invariant Prepend(ret, NodeMountList(clean, pvs[i..], pods, node, pathMap)) == whole
    {
      var pv := pvs[i];
      NodeMountStep(clean, pvs, i, pods, node, ret, pathMap);
      if IsCommon(pv) {
        var infos := MountList(pv);
        if infos.Err? {
          return Err(infos.error);
        }
        ret, pathMap := AddVolume(clean, pv, infos.value, pods, node, ret, pathMap);
      }
    }
    assert pvs[|pvs|..] == [] && ret + [] == ret;
    r := Ok(ret);
  }

  lemma NodeMountStep(clean: string -> string, pvs: seq<PV>, i: nat, pods: seq<Pod>, node: string,
                      ret: seq<MountInfo>, seen: set<string>)
    requires i < |pvs|
    ensures var pv := pvs[i];
            var here := Prepend(ret, NodeMountList(clean, pvs[i..], pods, node, seen));
            if MountList(pv).Err? then here == Err(MountList(pv).error)
            else
              && here == Prepend(ret + (Fresh(clean, RawRecords(pv, node), seen) + PendingItems(pv, pods, node)),
                                 NodeMountList(clean, pvs[i + 1..], pods, node,
                                               seen + CleanPaths(clean, RawRecords(pv, node))))
              && (!IsCommon(pv) ==>
                    here == Prepend(ret, NodeMountList(clean, pvs[i + 1..], pods, node, seen)))
  {
    var pv := pvs[i];
    var raw := RawRecords(pv, node);
    assert pvs[i..][0] == pv && pvs[i..][1..] == pvs[i + 1..];
    PrependConcat(ret, Fresh(clean, raw, seen) + PendingItems(pv, pods, node),
                  NodeMountList(clean, pvs[i + 1..], pods, node, seen + CleanPaths(clean, raw)));
    if !IsCommon(pv) {
      assert ret + ([] + []) == ret && seen + {} == seen && CleanPaths(clean, raw) == {};
    }
  }
}
