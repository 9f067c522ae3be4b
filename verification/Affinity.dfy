/**
 The affinity predicate: pods of a kept volume go back to the node that holds their directories.
 Its answer is stated without loops, the loops are proved against it, and it is compared with what
 the disk pressure predicate charges.
 */
module Affinity {
  import opened Sequences
  import opened HostPathPV
  import opened DiskPressure

  // ---------- nodes in use ----------

  /** Nodes that run a ready pod of the claim. */
  function UsedNodes(pods: seq<Pod>, c: ClaimName): set<string> {
    NodesOf(ReadyUsing(pods, "", c))
  }

  function NodesOf(pods: seq<Pod>): set<string> {
    if pods == [] then {}
    else (if pods[0].node != "" then {pods[0].node} else {}) + NodesOf(pods[1..])
  }

  lemma {:induction false} NodesOfMembers(pods: seq<Pod>, n: string)
    ensures n in NodesOf(pods) <==> n != "" && exists i :: 0 <= i < |pods| && pods[i].node == n
  {
    if pods != [] {
      NodesOfMembers(pods[1..], n);
      assert forall i :: 1 <= i < |pods| ==> pods[i] == pods[1..][i - 1];
      assert forall i :: 0 <= i < |pods[1..]| ==> pods[1..][i] == pods[i + 1];
    }
  }

  /** A node is in use exactly when it has a ready pod of the claim. */
  lemma UsedNodesCount(pods: seq<Pod>, c: ClaimName, n: string)
    requires n != ""
    ensures n in UsedNodes(pods, c) <==> ReadyCount(pods, n, c) > 0
  {
    var anywhere, here := ReadyUsing(pods, "", c), ReadyUsing(pods, n, c);
    NodesOfMembers(anywhere, n);
    FilterMembers(Selector("", c, false), pods);
    FilterMembers(Selector(n, c, false), pods);
    if i :| 0 <= i < |anywhere| && anywhere[i].node == n {
      assert anywhere[i] in anywhere;
      assert anywhere[i] in here;
    }
    if |here| > 0 {
      assert here[0] in here;
      assert here[0] in anywhere;
    }
  }

  method GetHostPathPVUsedNodeMap(pv: PV, pods: seq<Pod>) returns (failed: bool, nodes: set<string>)
    ensures failed <==> pv.claim.None?
    ensures !failed ==> nodes == UsedNodes(pods, pv.claim.value)
  {
    nodes := {};
    if pv.claim.None? {
      return true, nodes;
    }
    failed := false;
    var used := FilterByNodeAndPVC(pods, "", pv.claim.value, false);
    for i := 0 to |used|
      invariant nodes + NodesOf(used[i..]) == NodesOf(used)
    {
      assert used[i..][1..] == used[i + 1..];
      if used[i].node != "" {
        nodes := nodes + {used[i].node};
      }
    }
  }

  // ---------- one volume ----------

  predicate Reusable(pv: PV, node: string, pods: seq<Pod>) {
    HasEmptyItem(pv, node, pods) == Ok(true)
  }

  /** An unreadable annotation counts as no entries here. */
  function Entries(pv: PV): seq<NodeMounts> {
    if MountList(pv).Ok? then MountList(pv).value else []
  }

  function VolumeAffinity(pv: PV, node: string, pods: seq<Pod>): Result<bool> {
    var list := Entries(pv);
    if IsShared(pv) && IsKeep(pv) then
      if list != [] then Ok(MountedOn(pv, node))
      else if pv.claim.None? then Err(VolumeNotClaimed)
      else Ok(UsedNodes(pods, pv.claim.value) == {} || node in UsedNodes(pods, pv.claim.value))
    else if !IsShared(pv) && IsKeep(pv) && list != [] then
      if pv.claim.None? then Err(VolumeNotClaimed)
      else Ok(Reusable(pv, node, pods) || forall i :: 0 <= i < |list| ==> !Reusable(pv, list[i].node, pods))
    else Ok(true)
  }

  lemma ReusableIsListed(pv: PV, node: string, pods: seq<Pod>)
    requires Reusable(pv, node, pods)
    ensures exists i :: 0 <= i < |Entries(pv)| && Entries(pv)[i].node == node
  {
    FirstEntryExists(Entries(pv), node);
  }

  lemma MountedIsListed(pv: PV, node: string)
    ensures MountedOn(pv, node) <==> exists i :: 0 <= i < |Entries(pv)| && Entries(pv)[i].node == node
  {
    FirstEntryExists(Entries(pv), node);
  }

  method PodPVMatchNode(pv: PV, node: string, pods: seq<Pod>) returns (r: Result<bool>)
    ensures r == VolumeAffinity(pv, node, pods)
  {
    var annotation := MountList(pv);
    var list: seq<NodeMounts> := if annotation.Ok? then annotation.value else [];
    var isShare, isKeep := IsShared(pv), IsKeep(pv);
    if isShare && isKeep {
      if |list| == 0 {
        var failed, nodesMap := GetHostPathPVUsedNodeMap(pv, pods);
        if failed {
          return Err(VolumeNotClaimed);
        }
        if |nodesMap| == 0 {
          return Ok(true);
        } else if node in nodesMap {
          return Ok(true);
        } else {
          return Ok(false);
        }
      }
      MountedIsListed(pv, node);
      for i := 0 to |list|
        invariant forall k :: 0 <= k < i ==> list[k].node != node
      {
        if list[i].node == node {
          return Ok(true);
        }
      }
      return Ok(false);
    } else if isShare && !isKeep {
      return Ok(true);
    } else if !isShare && isKeep {
      if |list| == 0 {
        return Ok(true);
      }
      var hasEmptyItem := false;
      for i := 0 to |list|
        invariant i > 0 ==> pv.claim.Some?
        invariant hasEmptyItem <==> exists k :: 0 <= k < i && Reusable(pv, list[k].node, pods)
        invariant forall k :: 0 <= k < i && list[k].node == node ==> !Reusable(pv, node, pods)
      {
        var ok := HasEmptyItem(pv, list[i].node, pods);
        if ok.Err? {
          return Err(VolumeNotClaimed);
        } else if ok.value {
          if node == list[i].node {
            return Ok(true);
          } else {
            hasEmptyItem := true;
          }
        }
      }
      if Reusable(pv, node, pods) {
        ReusableIsListed(pv, node, pods);
      }
      if hasEmptyItem {
        return Ok(false);
      } else {
        return Ok(true);
      }
    } else {
      return Ok(true);
    }
  }

  // ---------- the pod ----------

  function PodVolumeAffinity(ns: string, v: Volume, node: string, w: World): Result<bool> {
    match GetPodVolumePV(ns, v, w.pvs, w.claims)
    case Err(e) => Err(e)
    case Ok(None) => Ok(true)
    case Ok(Some(pv)) => VolumeAffinity(pv, node, w.pods)
  }

  /** The first volume that fails or refuses decides. */
  method PodMatchNode(pod: Pod, node: string, w: World) returns (r: Result<bool>)
    ensures r == Ok(true) <==>
            forall i :: 0 <= i < |pod.volumes| ==> PodVolumeAffinity(pod.ns, pod.volumes[i], node, w) == Ok(true)
    ensures r != Ok(true) ==>
            exists i :: 0 <= i < |pod.volumes| && PodVolumeAffinity(pod.ns, pod.volumes[i], node, w) == r
                     && forall k :: 0 <= k < i ==> PodVolumeAffinity(pod.ns, pod.volumes[k], node, w) == Ok(true)
  {
    for i := 0 to |pod.volumes|
      invariant forall k :: 0 <= k < i ==> PodVolumeAffinity(pod.ns, pod.volumes[k], node, w) == Ok(true)
    {
      var found := GetPodVolumePV(pod.ns, pod.volumes[i], w.pvs, w.claims);
      if found.Err? {
        return Err(found.error);
      }
      if found.value.Some? {
        var ok := PodPVMatchNode(found.value.value, node, w.pods);
        if ok.Err? {
          return ok;
        } else if !ok.value {
          return Ok(false);
        }
      }
    }
    return Ok(true);
  }

  // ---------- agreement with the disk pressure predicate ----------

  /** Disk pressure charges the volume on the node exactly when no listed node holds a directory to
      reuse. */
  predicate ChargesWhenNoneReusable(pv: PV, node: string, pods: seq<Pod>) {
    HasEmptyItem(pv, node, pods) == Ok(false)
    <==> forall i :: 0 <= i < |Entries(pv)| ==> !Reusable(pv, Entries(pv)[i].node, pods)
  }

  /** On the nodes that affinity accepts for a kept volume the predicates agree in this way, except
      for a volume that is not shared and has an unreadable annotation. */
  lemma PredicatesAgreeIff(pv: PV, node: string, pods: seq<Pod>)
    requires IsKeep(pv) && VolumeAffinity(pv, node, pods) == Ok(true)
    ensures ChargesWhenNoneReusable(pv, node, pods) <==> (IsShared(pv) || MountList(pv).Ok?)
  {
    MountedIsListed(pv, node);
    if Reusable(pv, node, pods) {
      ReusableIsListed(pv, node, pods);
    }
    if IsShared(pv) {
      forall i | 0 <= i < |Entries(pv)| ensures Reusable(pv, Entries(pv)[i].node, pods) {
        MountedIsListed(pv, Entries(pv)[i].node);
      }
    }
  }

  /** For a kept volume that is not shared, affinity accepts the nodes with a directory to reuse, or
      every node when there is none; it fails exactly when there are entries but no claim. */
  lemma AcceptedNodes(pv: PV, node: string, pods: seq<Pod>)
    requires IsKeep(pv) && !IsShared(pv)
    ensures VolumeAffinity(pv, node, pods).Err? <==> (pv.claim.None? && Entries(pv) != [])
    ensures VolumeAffinity(pv, node, pods).Ok? ==>
              (VolumeAffinity(pv, node, pods).value
               <==> (Reusable(pv, node, pods) || forall n :: !Reusable(pv, n, pods)))
  {
    if n :| Reusable(pv, n, pods) {
      ReusableIsListed(pv, n, pods);
    }
  }

  /** Affinity accepts a node for a pod volume where disk pressure fails, exactly when the kept volume
      behind it is not shared and its annotation is unreadable; then it does so on every node. */
  lemma AcceptedButFailingIff(w: World, ns: string, v: Volume, node: string, pv: PV)
    requires IsKeep(pv) && GetPodVolumePV(ns, v, w.pvs, w.claims) == Ok(Some(pv))
    ensures (PodVolumeAffinity(ns, v, node, w) == Ok(true)
             && VolumeNeed(ns, v, node, w.pvs, w.claims, w.pods).Err?)
       <==> (!IsShared(pv) && pv.mounts.Unreadable?)
    ensures PodVolumeAffinity(ns, v, node, w) == Ok(true) ==>
              (VolumeNeed(ns, v, node, w.pvs, w.claims, w.pods).Err?
               <==> !ChargesWhenNoneReusable(pv, node, w.pods))
  {
    if PodVolumeAffinity(ns, v, node, w) == Ok(true) {
      PredicatesAgreeIff(pv, node, w.pods);
    }
  }
}
