/**
 No overcommit. The directories of a node are in one of two places: recorded on a disk, or owed to a
 pod and not placed yet. A node is feasible when the owed ones can be placed so that no disk carries
 more than its allocable size. Pods coming, ending and being bound elsewhere keep a node feasible, and
 so does every bind that the disk pressure predicate accepts, except that of a first pod which it lets in
 without a charge: one of a shared volume whose entry for the node is empty.
 */
module Overcommit {
  import opened Sequences
  import opened HostPathPV
  import opened Packing
  import opened DiskPressure
  import opened PressureProperties
  import opened Accounting
  import opened Binding

  // ---------- feasibility ----------

  /** A placement of `sizes` within `caps`; a directory of size 0 needs no disk. */
  predicate Holds(sizes: seq<int>, caps: seq<int>, a: seq<nat>) {
    && |a| == |sizes|
    && (forall r :: 0 <= r < |a| && sizes[r] > 0 ==> a[r] < |caps|)
    && forall d: nat :: d < |caps| ==> Load(sizes, a, d) <= caps[d]
  }

  /** What each disk has left beside its recorded directories. */
  function Free(disks: seq<NodeDisk>, mounts: seq<MountInfo>): (r: seq<int>)
    ensures |r| == |disks|
    ensures forall i :: 0 <= i < |r| ==> r[i] == disks[i].allocable - RecordedOn(mounts, Paths(disks), i)
  {
    seq(|disks|, i requires 0 <= i < |disks| =>
      disks[i].allocable - RecordedOn(mounts, Paths(disks), i))
  }

  ghost predicate Feasible(disks: seq<NodeDisk>, mounts: seq<MountInfo>) {
    exists a :: Holds(UnplacedSizes(mounts), Free(disks, mounts), a)
  }

  lemma HoldsSub(sizes: seq<int>, caps: seq<int>, a: seq<nat>, sub: seq<int>, caps': seq<int>)
    returns (b: seq<nat>)
    requires NonNegative(sizes) && Holds(sizes, caps, a)
    requires multiset(sub) <= multiset(sizes) && Dominates(caps', caps)
    ensures Holds(sub, caps', b)
  {
    b := LoadSub(sizes, a, sub);
    forall d: nat | d < |caps'| ensures Load(sub, b, d) <= caps'[d] {
      assert Load(sub, b, d) <= Load(sizes, a, d) <= caps[d];
    }
    forall r | 0 <= r < |b| && sub[r] > 0 ensures b[r] < |caps'| {
      var k :| 0 <= k < |a| && b[r] == a[k] && sub[r] == sizes[k];
    }
  }

  lemma FilteredNonNegative(f: MountInfo -> bool, mounts: seq<MountInfo>)
    requires NonNegativeQuotas(mounts)
    ensures NonNegative(Quotas(Filter(f, mounts)))
  {
    FilterMembers(f, mounts);
    var r := Filter(f, mounts);
    forall i | 0 <= i < |r| ensures 0 <= r[i].quota {
      assert r[i] in mounts;
    }
  }

  lemma PartsOfSub(disks: seq<NodeDisk>, less: seq<MountInfo>, mounts: seq<MountInfo>)
    requires NonNegativeQuotas(mounts) && multiset(less) <= multiset(mounts)
    ensures multiset(UnplacedSizes(less)) <= multiset(UnplacedSizes(mounts))
    ensures Dominates(Free(disks, less), Free(disks, mounts))
  {
    FilterSub(UnplacedEntry(), less, mounts);
    MapSub(QuotaOf, Filter(UnplacedEntry(), less), Filter(UnplacedEntry(), mounts));
    var paths := Paths(disks);
    forall i | 0 <= i < |disks| ensures RecordedOn(less, paths, i) <= RecordedOn(mounts, paths, i) {
      var f := HomeEntry(paths, i);
      FilterSub(f, less, mounts);
      MapSub(QuotaOf, Filter(f, less), Filter(f, mounts));
      FilteredNonNegative(f, mounts);
      SumSub(Quotas(Filter(f, less)), Quotas(Filter(f, mounts)));
    }
  }

  /** Fewer directories stay feasible, in any order. */
  lemma FeasibleSub(disks: seq<NodeDisk>, less: seq<MountInfo>, mounts: seq<MountInfo>)
    requires NonNegativeQuotas(mounts) && multiset(less) <= multiset(mounts)
    requires Feasible(disks, mounts)
    ensures Feasible(disks, less)
  {
    var a :| Holds(UnplacedSizes(mounts), Free(disks, mounts), a);
    PartsOfSub(disks, less, mounts);
    FilteredNonNegative(UnplacedEntry(), mounts);
    var b := HoldsSub(UnplacedSizes(mounts), Free(disks, mounts), a,
                      UnplacedSizes(less), Free(disks, less));
  }

  // ---------- acceptance leaves room for every placement ----------

  /** A packing that stays, on each disk it really uses, below what is left even if every owed
      directory of the node were put on that disk. */
  predicate LeavesRoom(req: seq<int>, a: seq<nat>, disks: seq<NodeDisk>, mounts: seq<MountInfo>) {
    && |a| == |req|
    && (forall r :: 0 <= r < |a| && req[r] > 0 ==> a[r] < |disks|)
    && forall d: nat :: d < |disks| && Load(req, a, d) > 0 ==>
         Load(req, a, d) + Sum(UnplacedSizes(mounts)) <= Free(disks, mounts)[d]
  }

  /** The empty path does no harm on the last disk. */
  predicate OnlyLastEmpty(paths: seq<string>) {
    NonEmptyBefore(paths, |paths| - 1)
  }

  lemma AcceptanceLeavesRoom(req: seq<int>, disks: seq<NodeDisk>, mounts: seq<MountInfo>)
    returns (a: seq<nat>)
    requires NonNegative(req) && OnlyLastEmpty(Paths(disks)) && Admits(req, disks, mounts)
    ensures LeavesRoom(req, a, disks, mounts)
  {
    if Sum(req) == 0 {
      SumNonNegative(req);
      a := seq(|req|, _ => 0);
      forall d: nat ensures Load(req, a, d) <= 0 { LoadAtMostSum(req, a, d); }
    } else {
      a := AcceptedHasPlacement(req, disks, mounts);
      forall d: nat | d < |disks| && Load(req, a, d) > 0
        ensures Load(req, a, d) + Sum(UnplacedSizes(mounts)) <= Free(disks, mounts)[d]
      {
        ChargingConservation(mounts, Paths(disks), d);
        LoadNonNegative(req, a, d);
        var r :| 0 <= r < |a| && a[r] == d;
        assert Load(req, a, a[r]) <= Clamped(disks, mounts)[a[r]];
      }
    }
  }

  /** One packing of the new directories goes with every placement of the owed ones. */
  lemma OnePackingForEveryPlacement(req: seq<int>, a: seq<nat>, disks: seq<NodeDisk>,
                                    mounts: seq<MountInfo>, p: seq<nat>)
    requires NonNegative(req) && NonNegativeQuotas(mounts) && LeavesRoom(req, a, disks, mounts)
    requires Holds(UnplacedSizes(mounts), Free(disks, mounts), p)
    ensures Holds(UnplacedSizes(mounts) + req, Free(disks, mounts), p + a)
  {
    var owed := UnplacedSizes(mounts);
    FilteredNonNegative(UnplacedEntry(), mounts);
    forall d: nat | d < |disks| ensures Load(owed + req, p + a, d) <= Free(disks, mounts)[d] {
      LoadConcat(owed, p, req, a, d);
      LoadAtMostSum(owed, p, d);
      LoadNonNegative(req, a, d);
    }
  }

  // ---------- accounting after a bind ----------

  function ItemOf(c: Charge): MountInfo { MountInfo("", c.size) }

  function Items(charges: seq<Charge>): seq<MountInfo> { Map(ItemOf, charges) }

  function TagOf(pv: PV): Charge { Charge(pv.name, Capacity(pv)) }

  /** The owed directories with the volume that owes each. */
  function Tagged(pvs: seq<PV>, pods: seq<Pod>, node: string): seq<Charge> {
    if pvs == [] then []
    else Repeat(TagOf(pvs[0]), PendingCount(pvs[0], pods, node)) + Tagged(pvs[1..], pods, node)
  }

  lemma {:induction false} ItemsOfTagged(pvs: seq<PV>, pods: seq<Pod>, node: string)
    ensures Items(Tagged(pvs, pods, node)) == AllPending(pvs, pods, node)
  {
    if pvs != [] {
      ItemsOfTagged(pvs[1..], pods, node);
      var n := PendingCount(pvs[0], pods, node);
      var here, rest := Repeat(TagOf(pvs[0]), n), Tagged(pvs[1..], pods, node);
      assert Items(here) == PendingItems(pvs[0], pods, node);
      assert Items(here + rest) == Items(here) + Items(rest);
    }
  }

  lemma {:induction false} TaggedMember(pvs: seq<PV>, pods: seq<Pod>, node: string, x: Charge)
    ensures x in Tagged(pvs, pods, node) ==> exists v :: 0 <= v < |pvs| && TagOf(pvs[v]) == x
  {
    if pvs != [] {
      TaggedMember(pvs[1..], pods, node, x);
      if x in Tagged(pvs[1..], pods, node) {
        var v :| 0 <= v < |pvs[1..]| && TagOf(pvs[1..][v]) == x;
        assert TagOf(pvs[v + 1]) == x;
      } else if x in Tagged(pvs, pods, node) {
        assert TagOf(pvs[0]) == x;
      }
    }
  }

  lemma {:induction false} TaggedCount(pvs: seq<PV>, pods: seq<Pod>, node: string, v: nat)
    requires DistinctNames(pvs) && v < |pvs|
    ensures multiset(Tagged(pvs, pods, node))[TagOf(pvs[v])] == PendingCount(pvs[v], pods, node)
  {
    RepeatMultiset(TagOf(pvs[0]), PendingCount(pvs[0], pods, node));
    if v == 0 {
      TaggedMember(pvs[1..], pods, node, TagOf(pvs[0]));
      assert TagOf(pvs[0]) !in Tagged(pvs[1..], pods, node);
      assert multiset(Tagged(pvs[1..], pods, node))[TagOf(pvs[0])] == 0;
    } else {
      TaggedCount(pvs[1..], pods, node, v - 1);
    }
  }

  // ---------- the node over time ----------

  /** What the cluster provides: distinct names, claims and volumes that point at each other,
      readable annotations, sizes that are not negative. */
  predicate WellFormed(w: World, node: string, disks: seq<NodeDisk>) {
    && UniquePods(w.pods) && DistinctNames(w.pvs) && BindingsAgree(w.pvs, w.claims)
    && Readable(w.pvs) && NonNegativeCapacities(w.pvs) && NonNegativeQuotas(AllRaw(w.pvs, node))
    && node != "" && OnlyLastEmpty(Paths(disks))
  }

  function Directories(w: World, node: string): seq<MountInfo> {
    var r := MountsOf(w, node);
    if r.Ok? then r.value else []
  }

  lemma DirectoryParts(w: World, node: string)
    requires Readable(w.pvs)
    ensures MountsOf(w, node) == Ok(Directories(w, node))
    ensures multiset(Directories(w, node))
         == multiset(Fresh(w.clean, AllRaw(w.pvs, node), {})) + multiset(AllPending(w.pvs, w.pods, node))
  {
    ListParts(w.clean, w.pvs, w.pods, node, {});
  }

  lemma {:induction false} PendingNonNegative(pvs: seq<PV>, pods: seq<Pod>, node: string)
    requires NonNegativeCapacities(pvs)
    ensures NonNegativeQuotas(AllPending(pvs, pods, node))
  {
    if pvs != [] {
      PendingNonNegative(pvs[1..], pods, node);
    }
  }

  /** With capacities and recorded quotas that are not negative, nothing negative is charged. */
  lemma ChargedNonNegative(w: World, node: string)
    requires Readable(w.pvs) && NonNegativeCapacities(w.pvs) && NonNegativeQuotas(AllRaw(w.pvs, node))
    ensures NonNegativeQuotas(Directories(w, node))
  {
    var l, raw := Directories(w, node), AllRaw(w.pvs, node);
    DirectoryParts(w, node);
    PendingNonNegative(w.pvs, w.pods, node);
    FreshMeaning(w.clean, raw, {});
    forall i | 0 <= i < |l| ensures 0 <= l[i].quota {
      assert l[i] in multiset(l);
      if l[i] in multiset(AllPending(w.pvs, w.pods, node)) {
        assert l[i] in AllPending(w.pvs, w.pods, node);
      } else {
        assert l[i] in Fresh(w.clean, raw, {});
        assert l[i] in raw;
      }
    }
  }

  lemma DirectoriesNonNegative(w: World, node: string, disks: seq<NodeDisk>)
    requires WellFormed(w, node, disks)
    ensures NonNegativeQuotas(Directories(w, node))
  {
    ChargedNonNegative(w, node);
  }

  // ---------- pods come, are bound elsewhere, and end ----------

  lemma FewerPodsOweLess(pv: PV, pods: seq<Pod>, pods': seq<Pod>, node: string)
    requires UniquePods(pods) && UniquePods(pods')
    requires pv.claim.Some? ==>
               ReadyCount(pods', node, pv.claim.value) <= ReadyCount(pods, node, pv.claim.value)
    ensures PendingCount(pv, pods', node) <= PendingCount(pv, pods, node)
  {
    if pv.claim.Some? {
      KeysCountPods(pv, pods, node);
      KeysCountPods(pv, pods', node);
    }
  }

  lemma {:induction false} PendingShrinks(pvs: seq<PV>, pods: seq<Pod>, pods': seq<Pod>, node: string)
    requires forall v :: 0 <= v < |pvs| ==>
               PendingCount(pvs[v], pods', node) <= PendingCount(pvs[v], pods, node)
    ensures multiset(AllPending(pvs, pods', node)) <= multiset(AllPending(pvs, pods, node))
  {
    if pvs != [] {
      PendingShrinks(pvs[1..], pods, pods', node);
      var item := MountInfo("", Capacity(pvs[0]));
      RepeatMultiset(item, PendingCount(pvs[0], pods, node));
      RepeatMultiset(item, PendingCount(pvs[0], pods', node));
    }
  }

  lemma FewerPodsStayFeasible(w: World, pods': seq<Pod>, node: string, disks: seq<NodeDisk>)
    requires WellFormed(w, node, disks) && Feasible(disks, Directories(w, node)) && UniquePods(pods')
    requires forall c :: ReadyCount(pods', node, c) <= ReadyCount(w.pods, node, c)
    ensures Feasible(disks, Directories(w.(pods := pods'), node))
  {
    forall v | 0 <= v < |w.pvs|
      ensures PendingCount(w.pvs[v], pods', node) <= PendingCount(w.pvs[v], w.pods, node)
    {
      FewerPodsOweLess(w.pvs[v], w.pods, pods', node);
    }
    PendingShrinks(w.pvs, w.pods, pods', node);
    DirectoryParts(w, node);
    DirectoryParts(w.(pods := pods'), node);
    DirectoriesNonNegative(w, node, disks);
    FeasibleSub(disks, Directories(w.(pods := pods'), node), Directories(w, node));
  }

  // ---------- a pod is bound here ----------

  /** Everything the bind will make a volume owe was charged: pod `i` is not the first one here of a
      shared volume whose entry for the node is empty. */
  predicate OwesOnlyCharged(w: World, i: nat, node: string)
    requires i < |w.pods|
  {
    forall v :: 0 <= v < |w.pvs| && Ready(w.pods[i]) && IsShared(w.pvs[v]) && EntryOn(w.pvs[v], node) == Some([])
                && w.pvs[v].claim.Some? && UsesClaim(w.pods[i], w.pvs[v].claim.value) ==>
                  ReadyCount(w.pods, node, w.pvs[v].claim.value) > 0
  }

  lemma BoundOwesCharged(w: World, i: nat, node: string, disks: seq<NodeDisk>, v: nat)
    requires WellFormed(w, node, disks) && i < |w.pods| && w.pods[i].node == "" && v < |w.pvs|
    requires RequestsOf(w, w.pods[i], node).Ok? && OwesOnlyCharged(w, i, node)
    ensures PendingCount(w.pvs[v], Bind(w.pods, i, node), node)
         <= PendingCount(w.pvs[v], w.pods, node)
          + if TagOf(w.pvs[v]) in RequestsOf(w, w.pods[i], node).value.charges then 1 else 0
  {
    var pv, pods' := w.pvs[v], Bind(w.pods, i, node);
    var charges := RequestsOf(w, w.pods[i], node).value.charges;
    if !MountedOn(pv, node) {
    } else if !Ready(w.pods[i]) || pv.claim.None? {
      UniqueAfterUpdate(w.pods, i, pods'[i]);
      if pv.claim.Some? {
        BindCount(w.pods, i, node, node, pv.claim.value);
      }
      FewerPodsOweLess(pv, w.pods, pods', node);
    } else if IsShared(pv) {
      SharedOwesIff(w, i, node, v);
    } else {
      BindEffect(w, i, node, v);
      if PendingCount(pv, pods', node) > PendingCount(pv, w.pods, node) {
        MountTimesUses(w.pods[i], pv.claim.value);
        ChargesOfVolume(w.pods[i].ns, w.pods[i].volumes, node, w.pvs, w.claims, w.pods, v);
        FilterMembers(ForVolume(pv.name), charges);
        assert ChargesFor(charges, pv.name)[0] == TagOf(pv);
        assert TagOf(pv) in ChargesFor(charges, pv.name);
      }
    }
  }

  lemma BoundTags(w: World, i: nat, node: string, disks: seq<NodeDisk>, charges: seq<Charge>)
    requires WellFormed(w, node, disks) && i < |w.pods| && w.pods[i].node == ""
    requires RequestsOf(w, w.pods[i], node).Ok? && OwesOnlyCharged(w, i, node)
    requires charges == RequestsOf(w, w.pods[i], node).value.charges
    ensures multiset(Tagged(w.pvs, Bind(w.pods, i, node), node))
         <= multiset(Tagged(w.pvs, w.pods, node)) + multiset(charges)
  {
    var pods' := Bind(w.pods, i, node);
    var before, after := multiset(Tagged(w.pvs, w.pods, node)), multiset(Tagged(w.pvs, pods', node));
    forall x | x in after ensures after[x] <= before[x] + multiset(charges)[x] {
      TaggedMember(w.pvs, pods', node, x);
      var v :| 0 <= v < |w.pvs| && TagOf(w.pvs[v]) == x;
      TaggedCount(w.pvs, w.pods, node, v);
      TaggedCount(w.pvs, pods', node, v);
      BoundOwesCharged(w, i, node, disks, v);
      assert x in charges ==> multiset(charges)[x] >= 1;
    }
  }

  /** Binding adds to the node's list at most what admission charged for the pod. */
  lemma BindAddsCharges(w: World, i: nat, node: string, disks: seq<NodeDisk>)
    requires WellFormed(w, node, disks) && i < |w.pods| && w.pods[i].node == ""
    requires RequestsOf(w, w.pods[i], node).Ok? && OwesOnlyCharged(w, i, node)
    ensures multiset(Directories(w.(pods := Bind(w.pods, i, node)), node))
         <= multiset(Directories(w, node)) + multiset(Items(RequestsOf(w, w.pods[i], node).value.charges))
  {
    var pods', charges := Bind(w.pods, i, node), RequestsOf(w, w.pods[i], node).value.charges;
    BoundTags(w, i, node, disks, charges);
    TagsToItems(w.pvs, w.pods, pods', node, charges);
    DirectoryParts(w, node);
    DirectoryParts(w.(pods := pods'), node);
  }

  lemma TagsToItems(pvs: seq<PV>, pods: seq<Pod>, pods': seq<Pod>, node: string, charges: seq<Charge>)
    requires multiset(Tagged(pvs, pods', node)) <= multiset(Tagged(pvs, pods, node)) + multiset(charges)
    ensures multiset(AllPending(pvs, pods', node)) <= multiset(AllPending(pvs, pods, node)) + multiset(Items(charges))
  {
    var before, after := Tagged(pvs, pods, node), Tagged(pvs, pods', node);
    MapSub(ItemOf, after, before + charges);
    MapConcat(ItemOf, before, charges);
    ItemsOfTagged(pvs, pods, node);
    ItemsOfTagged(pvs, pods', node);
  }

  lemma UnplacedWithItems(mounts: seq<MountInfo>, charges: seq<Charge>)
    ensures UnplacedSizes(mounts + Items(charges)) == UnplacedSizes(mounts) + SizesOf(charges)
  {
    FilterConcat(UnplacedEntry(), mounts, Items(charges));
    AllPass(UnplacedEntry(), Items(charges));
    MapConcat(QuotaOf, Filter(UnplacedEntry(), mounts), Items(charges));
    assert Map(QuotaOf, Items(charges)) == SizesOf(charges);
  }

  lemma FreeWithItems(disks: seq<NodeDisk>, mounts: seq<MountInfo>, charges: seq<Charge>)
    ensures Free(disks, mounts + Items(charges)) == Free(disks, mounts)
  {
    var items := Items(charges);
    forall i | 0 <= i < |disks|
      ensures RecordedOn(mounts + items, Paths(disks), i) == RecordedOn(mounts, Paths(disks), i)
    {
      var f := HomeEntry(Paths(disks), i);
      FilterConcat(f, mounts, items);
      NonePass(f, items);
      assert Filter(f, mounts) + [] == Filter(f, mounts);
    }
  }

  lemma RoomForCharges(disks: seq<NodeDisk>, mounts: seq<MountInfo>, charges: seq<Charge>)
    requires NonNegative(SizesOf(charges)) && NonNegativeQuotas(mounts) && OnlyLastEmpty(Paths(disks))
    requires Admits(SizesOf(charges), disks, mounts) && Feasible(disks, mounts)
    ensures Feasible(disks, mounts + Items(charges)) && NonNegativeQuotas(mounts + Items(charges))
  {
    var req := SizesOf(charges);
    var a := AcceptanceLeavesRoom(req, disks, mounts);
    var p :| Holds(UnplacedSizes(mounts), Free(disks, mounts), p);
    OnePackingForEveryPlacement(req, a, disks, mounts, p);
    UnplacedWithItems(mounts, charges);
    FreeWithItems(disks, mounts, charges);
    assert forall k :: 0 <= k < |charges| ==> Items(charges)[k].quota == req[k];
  }

  lemma VerdictAdmits(w: World, pod: Pod, node: string, disks: seq<NodeDisk>)
    requires WellFormed(w, node, disks) && PressureVerdict(w, pod, node, Disks(disks)) == Match
    ensures RequestsOf(w, pod, node).Ok?
    ensures var req := SizesOf(RequestsOf(w, pod, node).value.charges);
            NonNegative(req) && Admits(req, disks, Directories(w, node))
  {
    EarlyTotalTestIsRedundant(w, pod, node, Disks(disks));
    RequestsNonNegative(pod.ns, pod.volumes, node, w.pvs, w.claims, w.pods);
  }

  /** An accepted bind keeps the node feasible. */
  lemma AcceptedBindStaysFeasible(w: World, i: nat, node: string, disks: seq<NodeDisk>)
    requires WellFormed(w, node, disks) && Feasible(disks, Directories(w, node))
    requires i < |w.pods| && w.pods[i].node == "" && OwesOnlyCharged(w, i, node)
    requires PressureVerdict(w, w.pods[i], node, Disks(disks)) == Match
    ensures Feasible(disks, Directories(w.(pods := Bind(w.pods, i, node)), node))
  {
    VerdictAdmits(w, w.pods[i], node, disks);
    var mounts, charges := Directories(w, node), RequestsOf(w, w.pods[i], node).value.charges;
    DirectoriesNonNegative(w, node, disks);
    RoomForCharges(disks, mounts, charges);
    BindAddsCharges(w, i, node, disks);
    FeasibleSub(disks, Directories(w.(pods := Bind(w.pods, i, node)), node), mounts + Items(charges));
  }
}
