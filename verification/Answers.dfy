/**
 What the two hostpath predicates answer, by the fields of volumes, claims, pods and disks: what a
 pod is charged, when reading fails, when a node is refused without an error, and which nodes
 affinity accepts under each policy.
 */
module Answers {
  import opened Sequences
  import opened HostPathPV
  import opened DiskPressure
  import opened Accounting
  import opened Affinity

  // ---------- volumes and directories to reuse ----------

  lemma {:induction false} FindPVFirst(pvs: seq<PV>, name: string, pv: PV)
    ensures FindPV(pvs, name) == Some(pv) <==>
            exists i :: 0 <= i < |pvs| && pvs[i] == pv && pv.name == name
                     && forall k :: 0 <= k < i ==> pvs[k].name != name
  {
    if pvs != [] && pvs[0].name != name {
      FindPVFirst(pvs[1..], name, pv);
      if i :| 0 <= i < |pvs| && pvs[i] == pv && pv.name == name && forall k :: 0 <= k < i ==> pvs[k].name != name {
        assert pvs[1..][i - 1] == pv && forall k :: 0 <= k < i - 1 ==> pvs[1..][k] == pvs[k + 1];
      }
      if i :| 0 <= i < |pvs[1..]| && pvs[1..][i] == pv && pv.name == name
              && forall k :: 0 <= k < i ==> pvs[1..][k].name != name {
        assert pvs[i + 1] == pv && forall k :: 1 <= k < i + 1 ==> pvs[k] == pvs[1..][k - 1];
      }
    } else if pvs != [] {
      assert pvs[0] == pvs[0];
    }
  }

  /** The volume behind a pod volume is the first one listed under the name that its claim, which must
      be there and bound, gives; a pod volume that is no claim has none. */
  lemma VolumeBehind(ns: string, v: Volume, pvs: seq<PV>, claims: map<ClaimName, Claim>, pv: PV)
    ensures GetPodVolumePV(ns, v, pvs, claims) == Ok(None) <==> v.PlainVolume?
    ensures GetPodVolumePV(ns, v, pvs, claims) == Ok(Some(pv)) <==>
            && v.ClaimVolume? && ClaimName(ns, v.claim) in claims
            && var claim := claims[ClaimName(ns, v.claim)];
               && claim.bound && claim.volume != ""
               && exists i :: 0 <= i < |pvs| && pvs[i] == pv && pv.name == claim.volume
                           && forall k :: 0 <= k < i ==> pvs[k].name != claim.volume
  {
    if v.ClaimVolume? && ClaimName(ns, v.claim) in claims {
      FindPVFirst(pvs, claims[ClaimName(ns, v.claim)].volume, pv);
    }
  }

  /** A directory is there to reuse exactly in the first entry for the node: for a shared volume the
      entry is enough; any other volume must be kept and claimed and have more directories there than
      ready pods. */
  lemma ReusableIff(pv: PV, node: string, pods: seq<Pod>)
    ensures HasEmptyItem(pv, node, pods) == Ok(true) <==>
            && (pv.kind == HostPath || pv.kind == CSIHostPath) && pv.mounts.Listed?
            && exists i :: 0 <= i < |pv.mounts.list| && pv.mounts.list[i].node == node
                 && (forall k :: 0 <= k < i ==> pv.mounts.list[k].node != node)
                 && (if QUOTA_FOR_ONE_POD in pv.annotations && pv.annotations[QUOTA_FOR_ONE_POD] == "false" then true
                     else
                       && !(MOUNT_POLICY in pv.annotations && pv.annotations[MOUNT_POLICY] == "none")
                       && pv.claim.Some? && ReadyCount(pods, node, pv.claim.value) < |pv.mounts.list[i].mounts|)
  {
    if pv.mounts.Listed? {
      FirstEntryAt(pv.mounts.list, node);
    }
  }

  /** The question fails for a volume of another kind, and for a kept volume that is not shared when its
      annotation is unreadable, or has entries and no claim to count pods by. */
  lemma ReuseFailsIff(pv: PV, node: string, pods: seq<Pod>)
    ensures HasEmptyItem(pv, node, pods).Err? <==>
            || (pv.kind != HostPath && pv.kind != CSIHostPath)
            || (&& !(QUOTA_FOR_ONE_POD in pv.annotations && pv.annotations[QUOTA_FOR_ONE_POD] == "false")
                && !(MOUNT_POLICY in pv.annotations && pv.annotations[MOUNT_POLICY] == "none")
                && (pv.mounts.Unreadable? || (pv.mounts.Listed? && pv.mounts.list != [] && pv.claim.None?)))
  {
  }

  lemma {:induction false} FirstEntryAt(list: seq<NodeMounts>, node: string)
    ensures FirstEntry(list, node).Some? <==> exists i :: 0 <= i < |list| && list[i].node == node
    ensures FirstEntry(list, node).Some? ==>
              exists i :: 0 <= i < |list| && list[i].node == node
                && (forall k :: 0 <= k < i ==> list[k].node != node) && FirstEntry(list, node).value == list[i].mounts
    ensures forall i :: 0 <= i < |list| && list[i].node == node && (forall k :: 0 <= k < i ==> list[k].node != node)
              ==> FirstEntry(list, node) == Some(list[i].mounts)
  {
    FirstEntryExists(list, node);
    forall i | 0 <= i < |list| && list[i].node == node && (forall k :: 0 <= k < i ==> list[k].node != node)
      ensures FirstEntry(list, node) == Some(list[i].mounts)
    {
      FirstEntryFound(list, node, i);
    }
    if i :| 0 <= i < |list| && list[i].node == node {
      var j := FirstFor(list, node, i);
      FirstEntryFound(list, node, j);
    }
  }

  lemma FirstFor(list: seq<NodeMounts>, node: string, i: nat) returns (j: nat)
    requires i < |list| && list[i].node == node
    ensures j <= i && list[j].node == node && forall k :: 0 <= k < j ==> list[k].node != node
  {
    j := 0;
    while list[j].node != node
      invariant j <= i && forall k :: 0 <= k < j ==> list[k].node != node
      decreases i - j
    {
      j := j + 1;
    }
  }

  // ---------- sizes ----------

  /** A hostpath volume declares the size: in its annotation, whatever its storage size is; or, without
      an annotation that can be read, as its storage size, or 0 if it has none. */
  predicate DeclaredSize(pv: PV, size: int) {
    && (pv.kind == HostPath || pv.kind == CSIHostPath)
    && (pv.capacityAnn == Given(size)
        || ((pv.capacityAnn == NoCapacity || pv.capacityAnn == Malformed)
            && (pv.storage == Some(size) || (pv.storage == None && size == 0))))
  }

  /** Each charge is the declared size of the volume charged. */
  lemma {:induction false} ChargedSizes(ns: string, vs: seq<Volume>, node: string, pvs: seq<PV>,
                                        claims: map<ClaimName, Claim>, pods: seq<Pod>, c: Charge)
    requires PodRequests(ns, vs, node, pvs, claims, pods).Ok?
    requires c in PodRequests(ns, vs, node, pvs, claims, pods).value.charges
    ensures exists pv :: pv in pvs && pv.name == c.pv && DeclaredSize(pv, c.size)
    decreases |vs|
  {
    var need := VolumeNeed(ns, vs[0], node, pvs, claims, pods).value;
    if need.NeedsNew? && need.charge == c {
      FindPVMember(pvs, claims[ClaimName(ns, vs[0].claim)].volume);
      var pv := GetPodVolumePV(ns, vs[0], pvs, claims).value.value;
      assert pv in pvs && pv.name == c.pv;
    } else {
      ChargedSizes(ns, vs[1..], node, pvs, claims, pods, c);
    }
  }

  /** Each owed directory has the declared size of a volume with entries. */
  lemma {:induction false} OwedSizes(pvs: seq<PV>, pods: seq<Pod>, node: string, m: MountInfo)
    requires m in AllPending(pvs, pods, node)
    ensures m.hostPath == ""
    ensures exists pv :: pv in pvs && pv.mounts.Listed? && DeclaredSize(pv, m.quota)
    decreases |pvs|
  {
    if m in PendingItems(pvs[0], pods, node) {
      assert pvs[0] in pvs && EntryOn(pvs[0], node).Some?;
    } else {
      OwedSizes(pvs[1..], pods, node, m);
    }
  }

  // ---------- what a pod is charged, and when that fails ----------

  lemma {:induction false} RequestsConcat(ns: string, vs: seq<Volume>, us: seq<Volume>, node: string,
                                          pvs: seq<PV>, claims: map<ClaimName, Claim>, pods: seq<Pod>)
    ensures var r, s, t := PodRequests(ns, vs + us, node, pvs, claims, pods),
                           PodRequests(ns, vs, node, pvs, claims, pods), PodRequests(ns, us, node, pvs, claims, pods);
            && (r.Ok? <==> s.Ok? && t.Ok?)
            && (r.Ok? ==> r.value.charges == s.value.charges + t.value.charges)
    decreases |vs|
  {
    if vs == [] {
      assert vs + us == us;
      var t := PodRequests(ns, us, node, pvs, claims, pods);
      assert t.Ok? ==> [] + t.value.charges == t.value.charges;
    } else {
      assert (vs + us)[0] == vs[0] && (vs + us)[1..] == vs[1..] + us;
      RequestsConcat(ns, vs[1..], us, node, pvs, claims, pods);
      var need := VolumeNeed(ns, vs[0], node, pvs, claims, pods);
      var s', t := PodRequests(ns, vs[1..], node, pvs, claims, pods), PodRequests(ns, us, node, pvs, claims, pods);
      if need.Ok? && s'.Ok? && t.Ok? {
        var front := if need.value.NeedsNew? then [need.value.charge] else [];
        ConcatAssociates(front, s'.value.charges, t.value.charges);
      }
    }
  }

  /** One pod volume is charged exactly when its volume is a hostpath volume with nothing to reuse on
      the node, and fails exactly when its volume cannot be found or that question fails. */
  lemma RequestsOfOne(ns: string, v: Volume, node: string, pvs: seq<PV>, claims: map<ClaimName, Claim>,
                      pods: seq<Pod>)
    ensures var r, found := PodRequests(ns, [v], node, pvs, claims, pods), GetPodVolumePV(ns, v, pvs, claims);
            var hostPath := found.Ok? && found.value.Some?
                            && (found.value.value.kind == HostPath || found.value.value.kind == CSIHostPath);
            && (r.Err? <==> found.Err? || (hostPath && HasEmptyItem(found.value.value, node, pods).Err?))
            && (r.Ok? ==> |r.value.charges|
                          == if hostPath && HasEmptyItem(found.value.value, node, pods) == Ok(false) then 1 else 0)
            && (r.Ok? && hostPath ==>
                  forall k :: 0 <= k < |r.value.charges| ==> r.value.charges[k].pv == found.value.value.name)
  {
    assert [v][1..] == [];
    assert PodRequests(ns, [], node, pvs, claims, pods) == Ok(Requests(false, []));
  }

  /** Both predicates accept a pod only if every claim it mounts is there, bound, and names a volume
      that is listed. */
  lemma AcceptedClaims(w: World, pod: Pod, node: string, annotation: DiskAnnotation, k: nat)
    requires k < |pod.volumes| && pod.volumes[k].ClaimVolume?
    requires || PressureVerdict(w, pod, node, annotation) == Match
             || forall i :: 0 <= i < |pod.volumes| ==> PodVolumeAffinity(pod.ns, pod.volumes[i], node, w) == Ok(true)
    ensures ClaimName(pod.ns, pod.volumes[k].claim) in w.claims
    ensures var claim := w.claims[ClaimName(pod.ns, pod.volumes[k].claim)];
            claim.bound && claim.volume != "" && exists pv :: pv in w.pvs && pv.name == claim.volume
  {
    var v := pod.volumes[k];
    if PressureVerdict(w, pod, node, annotation) == Match {
      SomeVolumeFails(pod.ns, pod.volumes, k, node, w.pvs, w.claims, w.pods);
    }
    var found := GetPodVolumePV(pod.ns, v, w.pvs, w.claims);
    assert found.Ok?;
    VolumeBehind(pod.ns, v, w.pvs, w.claims, if found.value.Some? then found.value.value else AnyVolume());
  }

  function AnyVolume(): PV {
    PV("", Other, map[], NoMounts, NoCapacity, None, None)
  }

  lemma SomeVolumeFails(ns: string, vs: seq<Volume>, k: nat, node: string, pvs: seq<PV>,
                        claims: map<ClaimName, Claim>, pods: seq<Pod>)
    requires k < |vs| && PodRequests(ns, vs, node, pvs, claims, pods).Ok?
    ensures GetPodVolumePV(ns, vs[k], pvs, claims).Ok?
  {
    assert vs == vs[..k] + ([vs[k]] + vs[k + 1..]);
    RequestsConcat(ns, vs[..k], [vs[k]] + vs[k + 1..], node, pvs, claims, pods);
    RequestsConcat(ns, [vs[k]], vs[k + 1..], node, pvs, claims, pods);
    RequestsOfOne(ns, vs[k], node, pvs, claims, pods);
  }

  /** The list of charged directories fails exactly on a hostpath volume whose annotation cannot be read. */
  lemma ListFailsIff(clean: string -> string, pvs: seq<PV>, pods: seq<Pod>, node: string)
    ensures NodeMountList(clean, pvs, pods, node, {}).Err? <==>
            exists pv :: pv in pvs && (pv.kind == HostPath || pv.kind == CSIHostPath) && pv.mounts.Unreadable?
  {
    ListParts(clean, pvs, pods, node, {});
    if i :| 0 <= i < |pvs| && MountList(pvs[i]).Err? {
      assert pvs[i] in pvs;
    }
  }

  // ---------- refusal without an error ----------

  lemma {:induction false} NoRoomIff(have: seq<int>)
    requires NonNegative(have)
    ensures Sum(have) <= 0 <==> forall i :: 0 <= i < |have| ==> have[i] == 0
  {
    SumNonNegative(have);
    if forall i :: 0 <= i < |have| ==> have[i] == 0 {
      assert have == Repeat<int>(0, |have|);
      SumRepeat(0, |have|);
    }
  }

  /** A node is refused without an error exactly when all can be read, the pod needs room, and no disk
      has any: there is none, or directories fill each to the last. */
  lemma NotMatchIff(w: World, pod: Pod, node: string, annotation: DiskAnnotation)
    ensures PressureVerdict(w, pod, node, annotation) == NotMatch <==>
            && RequestsOf(w, pod, node).Ok? && Sum(SizesOf(RequestsOf(w, pod, node).value.charges)) > 0
            && !annotation.UnreadableDisks?
            && (annotation == NoDisks || annotation.disks == []
                || (MountsOf(w, node).Ok?
                    && forall i :: 0 <= i < |annotation.disks| ==>
                         ChargedSize(annotation.disks, MountsOf(w, node).value, i) <= 0))
  {
    NoHostPathNoCharges(pod.ns, pod.volumes, node, w.pvs, w.claims, w.pods);
    if annotation.Disks? && MountsOf(w, node).Ok? {
      var have := Clamped(annotation.disks, MountsOf(w, node).value);
      NoRoomIff(have);
      SumNonNegative(have);
      assert forall i :: 0 <= i < |have| ==>
        (have[i] == 0 <==> ChargedSize(annotation.disks, MountsOf(w, node).value, i) <= 0);
    }
  }

  // ---------- affinity under each policy ----------

  /** A pod volume that is no claim is accepted everywhere, and so is a volume that is no hostpath volume
      or has the policy "none", in any state and without an error. */
  lemma NotKeptAccepted(w: World, ns: string, v: Volume, node: string)
    ensures v.PlainVolume? ==> PodVolumeAffinity(ns, v, node, w) == Ok(true)
    ensures var found := GetPodVolumePV(ns, v, w.pvs, w.claims);
            found.Ok? && found.value.Some?
            && (found.value.value.kind == Other
                || (MOUNT_POLICY in found.value.value.annotations
                    && found.value.value.annotations[MOUNT_POLICY] == "none"))
            ==> PodVolumeAffinity(ns, v, node, w) == Ok(true)
  {
  }

  /** Affinity fails for a pod volume exactly when its volume cannot be found, or is a kept hostpath volume
      without a claim whose pods must be counted: a shared one without entries, another one with entries. */
  lemma AffinityFailsIff(w: World, ns: string, v: Volume, node: string)
    ensures var found := GetPodVolumePV(ns, v, w.pvs, w.claims);
            PodVolumeAffinity(ns, v, node, w).Err? <==>
              || found.Err?
              || (&& found.value.Some?
                  && var pv := found.value.value;
                     && (pv.kind == HostPath || pv.kind == CSIHostPath) && pv.claim.None?
                     && !(MOUNT_POLICY in pv.annotations && pv.annotations[MOUNT_POLICY] == "none")
                     && ((QUOTA_FOR_ONE_POD in pv.annotations && pv.annotations[QUOTA_FOR_ONE_POD] == "false")
                         <==> !(pv.mounts.Listed? && pv.mounts.list != [])))
  {
  }

  /** A shared kept volume is accepted where it has an entry; before it has any, where it has ready pods,
      or anywhere when it has none; it fails only unclaimed and without entries. */
  lemma SharedAffinityIff(pv: PV, node: string, pods: seq<Pod>)
    requires (pv.kind == HostPath || pv.kind == CSIHostPath) && node != ""
    requires QUOTA_FOR_ONE_POD in pv.annotations && pv.annotations[QUOTA_FOR_ONE_POD] == "false"
    requires !(MOUNT_POLICY in pv.annotations && pv.annotations[MOUNT_POLICY] == "none")
    ensures var list := if pv.mounts.Listed? then pv.mounts.list else [];
            && (VolumeAffinity(pv, node, pods).Err? <==> list == [] && pv.claim.None?)
            && (VolumeAffinity(pv, node, pods) == Ok(true) <==>
                || (exists i :: 0 <= i < |list| && list[i].node == node)
                || (list == [] && pv.claim.Some?
                    && (ReadyCount(pods, node, pv.claim.value) > 0
                        || forall n :: n != "" ==> ReadyCount(pods, n, pv.claim.value) == 0)))
  {
    MountedIsListed(pv, node);
    if pv.claim.Some? {
      UsedNowhere(pods, pv.claim.value);
      UsedNodesCount(pods, pv.claim.value, node);
    }
  }

  lemma UsedNowhere(pods: seq<Pod>, c: ClaimName)
    ensures UsedNodes(pods, c) == {} <==> forall n :: n != "" ==> ReadyCount(pods, n, c) == 0
  {
    forall n ensures n in UsedNodes(pods, c) <==> n != "" && ReadyCount(pods, n, c) > 0 {
      NodesOfMembers(ReadyUsing(pods, "", c), n);
      if n != "" {
        UsedNodesCount(pods, c, n);
      }
    }
  }
}
