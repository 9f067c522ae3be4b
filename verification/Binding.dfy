/**
 Binding a pod to a node and finishing it, seen by admission and by accounting: what admission
 charges for a volume against what the accounting of that volume grows by.
 */
module Binding {
  import opened Sequences
  import opened HostPathPV
  import opened DiskPressure

  // ---------- pods change ----------

  function Bind(pods: seq<Pod>, i: nat, node: string): (r: seq<Pod>)
    requires i < |pods|
    ensures |r| == |pods|
  {
    pods[i := pods[i].(node := node)]
  }

  /** The same pod, finished or on its way out. */
  predicate Ended(p': Pod, p: Pod) {
    && p' == p.(phase := p'.phase, deleting := p'.deleting)
    && (p'.phase == Succeeded || p'.phase == Failed || p'.deleting)
  }

  lemma BindCount(pods: seq<Pod>, i: nat, node: string, n: string, c: ClaimName)
    requires i < |pods| && pods[i].node == "" && n != ""
    ensures ReadyCount(Bind(pods, i, node), n, c)
         == ReadyCount(pods, n, c) + if n == node && UsesClaim(pods[i], c) && Ready(pods[i]) then 1 else 0
  {
    FilterUpdate(Selector(n, c, false), pods, i, pods[i].(node := node));
  }

  lemma EndCount(pods: seq<Pod>, i: nat, p: Pod, n: string, c: ClaimName)
    requires i < |pods| && Ended(p, pods[i])
    ensures ReadyCount(pods[i := p], n, c)
         == ReadyCount(pods, n, c) - if Selected(pods[i], n, c, false) then 1 else 0
  {
    FilterUpdate(Selector(n, c, false), pods, i, p);
  }

  lemma ArriveCount(pods: seq<Pod>, p: Pod, n: string, c: ClaimName)
    requires p.node == "" && n != ""
    ensures ReadyCount(pods + [p], n, c) == ReadyCount(pods, n, c)
  {
    FilterConcat(Selector(n, c, false), pods, [p]);
  }

  lemma GoneCount(pods: seq<Pod>, i: nat, n: string, c: ClaimName)
    requires i < |pods|
    ensures ReadyCount(RemoveAt(pods, i), n, c)
         == ReadyCount(pods, n, c) - if Selected(pods[i], n, c, false) then 1 else 0
  {
    var f := Selector(n, c, false);
    assert pods == pods[..i] + ([pods[i]] + pods[i + 1..]);
    FilterConcat(f, pods[..i], [pods[i]] + pods[i + 1..]);
    FilterConcat(f, pods[..i], pods[i + 1..]);
    FilterCons(f, pods[i], pods[i + 1..]);
  }

  lemma UniqueAfterRemoval(pods: seq<Pod>, i: nat)
    requires UniquePods(pods) && i < |pods|
    ensures UniquePods(RemoveAt(pods, i))
  {
    assert forall k :: 0 <= k < |RemoveAt(pods, i)| ==> RemoveAt(pods, i)[k] == pods[if k < i then k else k + 1];
  }

  lemma UniqueAfterUpdate(pods: seq<Pod>, i: nat, p: Pod)
    requires UniquePods(pods) && i < |pods| && p.ns == pods[i].ns && p.name == pods[i].name
    ensures UniquePods(pods[i := p])
  {
  }

  // ---------- claims and volumes bound to each other ----------

  predicate DistinctNames(pvs: seq<PV>) {
    forall i, j :: 0 <= i < j < |pvs| ==> pvs[i].name != pvs[j].name
  }

  /** A bound claim and the volume it names point at each other; no volume is claimed by another. */
  predicate BindingsAgree(pvs: seq<PV>, claims: map<ClaimName, Claim>) {
    && (forall i, c :: 0 <= i < |pvs| && c in claims && claims[c].bound && claims[c].volume == pvs[i].name
          ==> pvs[i].claim == Some(c))
    && (forall i :: 0 <= i < |pvs| && pvs[i].claim.Some? && pvs[i].claim.value in claims
          && claims[pvs[i].claim.value].bound
          ==> claims[pvs[i].claim.value].volume == pvs[i].name)
  }

  lemma {:induction false} FindByName(pvs: seq<PV>, i: nat)
    requires DistinctNames(pvs) && i < |pvs|
    ensures FindPV(pvs, pvs[i].name) == Some(pvs[i])
  {
    if i > 0 {
      assert pvs[0].name != pvs[i].name;
      FindByName(pvs[1..], i - 1);
    }
  }

  /** The volumes of a pod that mount claim `c`. */
  predicate Mounts(ns: string, v: Volume, c: ClaimName) {
    ns == c.ns && v == ClaimVolume(c.name)
  }

  function MountsClaim(ns: string, c: ClaimName): Volume -> bool {
    v => Mounts(ns, v, c)
  }

  function MountTimes(ns: string, vs: seq<Volume>, c: ClaimName): nat {
    |Filter(MountsClaim(ns, c), vs)|
  }

  function ForVolume(name: string): Charge -> bool {
    (c: Charge) => c.pv == name
  }

  /** What admission charges for volume `name`. */
  function ChargesFor(charges: seq<Charge>, name: string): seq<Charge> {
    Filter(ForVolume(name), charges)
  }

  lemma NeedOfVolume(ns: string, v: Volume, node: string, pvs: seq<PV>, claims: map<ClaimName, Claim>,
                     pods: seq<Pod>, i: nat)
    requires DistinctNames(pvs) && BindingsAgree(pvs, claims) && i < |pvs|
    requires IsCommon(pvs[i]) && pvs[i].claim.Some?
    requires VolumeNeed(ns, v, node, pvs, claims, pods).Ok?
    ensures var need := VolumeNeed(ns, v, node, pvs, claims, pods).value;
            if Mounts(ns, v, pvs[i].claim.value) then
              && HasEmptyItem(pvs[i], node, pods).Ok?
              && need == if HasEmptyItem(pvs[i], node, pods).value then Reuses
                         else NeedsNew(Charge(pvs[i].name, Capacity(pvs[i])))
            else need.NeedsNew? ==> need.charge.pv != pvs[i].name
  {
    FindByName(pvs, i);
    if v.ClaimVolume? && ClaimName(ns, v.claim) in claims {
      FindPVMember(pvs, claims[ClaimName(ns, v.claim)].volume);
    }
  }

  /** Admission charges a volume once per mount of its claim, or not at all when it is reused. */
  lemma {:induction false} ChargesOfVolume(ns: string, vs: seq<Volume>, node: string, pvs: seq<PV>,
                                           claims: map<ClaimName, Claim>, pods: seq<Pod>, i: nat)
    requires DistinctNames(pvs) && BindingsAgree(pvs, claims) && i < |pvs|
    requires IsCommon(pvs[i]) && pvs[i].claim.Some?
    requires PodRequests(ns, vs, node, pvs, claims, pods).Ok?
    ensures var n := MountTimes(ns, vs, pvs[i].claim.value);
            && (n > 0 ==> HasEmptyItem(pvs[i], node, pods).Ok?)
            && ChargesFor(PodRequests(ns, vs, node, pvs, claims, pods).value.charges, pvs[i].name)
               == Repeat(Charge(pvs[i].name, Capacity(pvs[i])),
                         if n > 0 && !HasEmptyItem(pvs[i], node, pods).value then n else 0)
  {
    if vs != [] {
      var c := pvs[i].claim.value;
      var rest := PodRequests(ns, vs[1..], node, pvs, claims, pods).value.charges;
      ChargesOfVolume(ns, vs[1..], node, pvs, claims, pods, i);
      NeedOfVolume(ns, vs[0], node, pvs, claims, pods, i);
      var need := VolumeNeed(ns, vs[0], node, pvs, claims, pods).value;
      if need.NeedsNew? {
        FilterConcat(ForVolume(pvs[i].name), [need.charge], rest);
      } else {
        assert [] + rest == rest;
      }
    }
  }

  lemma MountTimesUses(p: Pod, c: ClaimName)
    ensures MountTimes(p.ns, p.volumes, c) > 0 <==> UsesClaim(p, c)
  {
    FilterMembers(MountsClaim(p.ns, c), p.volumes);
    var f := Filter(MountsClaim(p.ns, c), p.volumes);
    assert UsesClaim(p, c) ==> ClaimVolume(c.name) in f;
    assert |f| > 0 ==> f[0] in f;
  }

  // ---------- charge against accounting ----------

  /** What binding pod `i` here does to the accounting of volume `v`, and what admission charged. */
  lemma BindEffect(w: World, i: nat, node: string, v: nat)
    requires UniquePods(w.pods) && DistinctNames(w.pvs) && BindingsAgree(w.pvs, w.claims)
    requires i < |w.pods| && w.pods[i].node == "" && Ready(w.pods[i]) && node != ""
    requires v < |w.pvs| && !IsShared(w.pvs[v]) && IsCommon(w.pvs[v]) && MountedOn(w.pvs[v], node)
    requires RequestsOf(w, w.pods[i], node).Ok?
    ensures var pv := w.pvs[v];
            var before, after := PendingCount(pv, w.pods, node), PendingCount(pv, Bind(w.pods, i, node), node);
            var used := pv.claim.Some? && UsesClaim(w.pods[i], pv.claim.value);
            && before <= after <= before + 1
            && (after == before + 1
                <==> (used && |EntryOn(pv, node).value| <= ReadyCount(w.pods, node, pv.claim.value)))
            && (used ==> HasEmptyItem(pv, node, w.pods).Ok?)
            && (used && HasEmptyItem(pv, node, w.pods).value ==> after == before)
            && (used && IsKeep(pv) && after == before ==> HasEmptyItem(pv, node, w.pods).value)
  {
    var pv := w.pvs[v];
    if pv.claim.Some? {
      var c := pv.claim.value;
      UniqueAfterUpdate(w.pods, i, w.pods[i].(node := node));
      KeysCountPods(pv, w.pods, node);
      KeysCountPods(pv, Bind(w.pods, i, node), node);
      BindCount(w.pods, i, node, node, c);
      MountTimesUses(w.pods[i], c);
      ChargesOfVolume(w.pods[i].ns, w.pods[i].volumes, node, w.pvs, w.claims, w.pods, v);
      assert pv.mounts.list != [];
    }
  }

  /** The quota a volume owes on a node. */
  function OwedQuota(pv: PV, pods: seq<Pod>, node: string): int {
    Sum(Quotas(PendingItems(pv, pods, node)))
  }

  /** What admission charges a pod for a volume. */
  function ChargedQuota(charges: seq<Charge>, name: string): int {
    Sum(SizesOf(ChargesFor(charges, name)))
  }

  lemma QuotaCharged(w: World, pod: Pod, node: string, v: nat)
    requires DistinctNames(w.pvs) && BindingsAgree(w.pvs, w.claims)
    requires v < |w.pvs| && IsCommon(w.pvs[v]) && RequestsOf(w, pod, node).Ok?
    ensures var pv := w.pvs[v];
            var n := if pv.claim.Some? then MountTimes(pod.ns, pod.volumes, pv.claim.value) else 0;
            && (n > 0 ==> HasEmptyItem(pv, node, w.pods).Ok?)
            && ChargedQuota(RequestsOf(w, pod, node).value.charges, pv.name)
               == (if n > 0 && !HasEmptyItem(pv, node, w.pods).value then n else 0) * Capacity(pv)
  {
    var pv := w.pvs[v];
    var charges := ChargesFor(RequestsOf(w, pod, node).value.charges, pv.name);
    if pv.claim.Some? {
      ChargesOfVolume(pod.ns, pod.volumes, node, w.pvs, w.claims, w.pods, v);
      assert SizesOf(charges) == Repeat(Capacity(pv), |charges|);
      SumRepeat(Capacity(pv), |charges|);
    } else {
      UnclaimedUncharged(w, pod, node, v);
    }
  }

  /** For a non-shared volume with an entry on the node, binding a pod makes the volume owe at most
      the quota admission charged for it; for a keep volume mounted once, exactly that. */
  lemma ChargeMatchesAccounting(w: World, i: nat, node: string, v: nat)
    requires UniquePods(w.pods) && DistinctNames(w.pvs) && BindingsAgree(w.pvs, w.claims)
    requires i < |w.pods| && w.pods[i].node == "" && Ready(w.pods[i]) && node != ""
    requires v < |w.pvs| && !IsShared(w.pvs[v]) && IsCommon(w.pvs[v]) && MountedOn(w.pvs[v], node)
    requires RequestsOf(w, w.pods[i], node).Ok? && 0 <= Capacity(w.pvs[v])
    ensures var pv := w.pvs[v];
            var grown := OwedQuota(pv, Bind(w.pods, i, node), node) - OwedQuota(pv, w.pods, node);
            var charged := ChargedQuota(RequestsOf(w, w.pods[i], node).value.charges, pv.name);
            && grown <= charged
            && (IsKeep(pv) && pv.claim.Some? && MountTimes(w.pods[i].ns, w.pods[i].volumes, pv.claim.value) == 1
                ==> grown == charged)
  {
    var pv, pod := w.pvs[v], w.pods[i];
    var before, after := PendingCount(pv, w.pods, node), PendingCount(pv, Bind(w.pods, i, node), node);
    var n := if pv.claim.Some? then MountTimes(pod.ns, pod.volumes, pv.claim.value) else 0;
    BindEffect(w, i, node, v);
    QuotaCharged(w, pod, node, v);
    OwedQuotaIs(pv, w.pods, node);
    OwedQuotaIs(pv, Bind(w.pods, i, node), node);
    if pv.claim.Some? {
      MountTimesUses(pod, pv.claim.value);
    }
    var times := if n > 0 && !HasEmptyItem(pv, node, w.pods).value then n else 0;
    assert after - before <= times;
    GrowthInQuota(before, after, times, Capacity(pv));
  }

  lemma GrowthInQuota(before: int, after: int, times: int, size: int)
    requires after - before <= times && 0 <= size
    ensures after * size - before * size <= times * size
    ensures after - before == times ==> after * size - before * size == times * size
  {
    assert after * size - before * size == (after - before) * size;
  }

  lemma UnclaimedUncharged(w: World, pod: Pod, node: string, v: nat)
    requires DistinctNames(w.pvs) && BindingsAgree(w.pvs, w.claims)
    requires v < |w.pvs| && w.pvs[v].claim.None? && RequestsOf(w, pod, node).Ok?
    ensures ChargesFor(RequestsOf(w, pod, node).value.charges, w.pvs[v].name) == []
  {
    UnclaimedInVolumes(pod.ns, pod.volumes, node, w.pvs, w.claims, w.pods, v);
  }

  lemma {:induction false} UnclaimedInVolumes(ns: string, vs: seq<Volume>, node: string, pvs: seq<PV>,
                                              claims: map<ClaimName, Claim>, pods: seq<Pod>, v: nat)
    requires DistinctNames(pvs) && BindingsAgree(pvs, claims)
    requires v < |pvs| && pvs[v].claim.None? && PodRequests(ns, vs, node, pvs, claims, pods).Ok?
    ensures ChargesFor(PodRequests(ns, vs, node, pvs, claims, pods).value.charges, pvs[v].name) == []
  {
    if vs != [] {
      UnclaimedInVolumes(ns, vs[1..], node, pvs, claims, pods, v);
      var rest := PodRequests(ns, vs[1..], node, pvs, claims, pods).value.charges;
      var need := VolumeNeed(ns, vs[0], node, pvs, claims, pods).value;
      if need.NeedsNew? {
        FindPVMember(pvs, claims[ClaimName(ns, vs[0].claim)].volume);
        FilterConcat(ForVolume(pvs[v].name), [need.charge], rest);
      } else {
        assert [] + rest == rest;
      }
    }
  }

  lemma OwedQuotaIs(pv: PV, pods: seq<Pod>, node: string)
    ensures OwedQuota(pv, pods, node) == PendingCount(pv, pods, node) * Capacity(pv)
  {
    assert Quotas(PendingItems(pv, pods, node)) == Repeat(Capacity(pv), PendingCount(pv, pods, node));
    SumRepeat(Capacity(pv), PendingCount(pv, pods, node));
  }

  /** A charged directory of a volume becomes part of the accounting exactly when the volume is not
      shared, has an entry for the node, and its ready pods there are not fewer than the directories
      the entry records. For a kept volume the charge itself implies the last. */
  lemma ChargedIsReservedIff(w: World, i: nat, node: string, v: nat)
    requires UniquePods(w.pods) && DistinctNames(w.pvs) && BindingsAgree(w.pvs, w.claims)
    requires i < |w.pods| && w.pods[i].node == "" && Ready(w.pods[i]) && node != ""
    requires v < |w.pvs| && IsCommon(w.pvs[v]) && RequestsOf(w, w.pods[i], node).Ok?
    requires ChargesFor(RequestsOf(w, w.pods[i], node).value.charges, w.pvs[v].name) != []
    ensures var pv := w.pvs[v];
            pv.claim.Some?
            && var full := MountedOn(pv, node)
                           && |EntryOn(pv, node).value| <= ReadyCount(w.pods, node, pv.claim.value);
               (PendingCount(pv, Bind(w.pods, i, node), node) == PendingCount(pv, w.pods, node) + 1
                <==> (!IsShared(pv) && full))
               && (IsKeep(pv) ==> (full <==> MountedOn(pv, node)))
  {
    var pv := w.pvs[v];
    if pv.claim.None? {
      UnclaimedUncharged(w, w.pods[i], node, v);
      assert false;
    }
    MountTimesUses(w.pods[i], pv.claim.value);
    ChargesOfVolume(w.pods[i].ns, w.pods[i].volumes, node, w.pvs, w.claims, w.pods, v);
    if !IsShared(pv) && MountedOn(pv, node) {
      BindEffect(w, i, node, v);
    }
  }

  /** What a bind makes a shared volume owe: one directory exactly when its entry for the node is
      empty and this is its first pod there. Admission charges nothing for it, because an entry
      without directories passes for one to reuse. */
  lemma SharedOwesIff(w: World, i: nat, node: string, v: nat)
    requires UniquePods(w.pods) && i < |w.pods| && w.pods[i].node == "" && Ready(w.pods[i]) && node != ""
    requires v < |w.pvs| && IsShared(w.pvs[v])
    ensures var pv := w.pvs[v];
            var before, after := PendingCount(pv, w.pods, node), PendingCount(pv, Bind(w.pods, i, node), node);
            && before <= after <= before + 1
            && (after == before + 1
                <==> (EntryOn(pv, node) == Some([]) && pv.claim.Some? && UsesClaim(w.pods[i], pv.claim.value)
                      && ReadyCount(w.pods, node, pv.claim.value) == 0))
            && (after == before + 1 ==> HasEmptyItem(pv, node, w.pods) == Ok(true))
  {
    var pv := w.pvs[v];
    if pv.claim.Some? {
      UniqueAfterUpdate(w.pods, i, w.pods[i].(node := node));
      KeysCountPods(pv, w.pods, node);
      KeysCountPods(pv, Bind(w.pods, i, node), node);
      BindCount(w.pods, i, node, node, pv.claim.value);
    }
  }
}
