/**
 Where directories are charged at admission but not reserved in the accounting, so that pods are
 accepted for the same room: a volume without an entry on the node, and a volume with the policy
 "none" that has directories left over, which its new pods do not reuse.
 */
module OvercommitLimits {
  import opened Sequences
  import opened HostPathPV
  import opened Packing
  import opened DiskPressure
  import opened PressureProperties
  import opened Accounting
  import opened Binding
  import opened Recording
  import opened Overcommit

  // ---------- in general: nothing is reserved ----------

  predicate NoEntries(pvs: seq<PV>, node: string) {
    forall v :: 0 <= v < |pvs| ==> EntryOn(pvs[v], node).None?
  }

  lemma {:induction false} NoEntriesNoDirectories(clean: string -> string, pvs: seq<PV>, pods: seq<Pod>,
                                                  node: string, seen: set<string>)
    requires NoEntries(pvs, node)
    ensures var r := NodeMountList(clean, pvs, pods, node, seen);
            r.Ok? ==> r.value == []
  {
    if pvs != [] {
      NoEntriesNoDirectories(clean, pvs[1..], pods, node, seen + CleanPaths(clean, RawRecords(pvs[0], node)));
    }
  }

  lemma {:induction false} NoEntriesSameList(clean: string -> string, pvs: seq<PV>, pods: seq<Pod>,
                                             pods': seq<Pod>, node: string, seen: set<string>)
    requires NoEntries(pvs, node)
    ensures NodeMountList(clean, pvs, pods, node, seen) == NodeMountList(clean, pvs, pods', node, seen)
    decreases |pvs|
  {
    if pvs != [] {
      NoEntriesSameList(clean, pvs[1..], pods, pods', node, seen + CleanPaths(clean, RawRecords(pvs[0], node)));
      assert PendingItems(pvs[0], pods, node) == PendingItems(pvs[0], pods', node);
    }
  }

  lemma {:induction false} NoEntriesSameRequests(ns: string, vs: seq<Volume>, node: string, pvs: seq<PV>,
                                                 claims: map<ClaimName, Claim>, pods: seq<Pod>, pods': seq<Pod>)
    requires NoEntries(pvs, node)
    ensures PodRequests(ns, vs, node, pvs, claims, pods) == PodRequests(ns, vs, node, pvs, claims, pods')
  {
    if vs != [] {
      NoEntriesSameRequests(ns, vs[1..], node, pvs, claims, pods, pods');
      if vs[0].ClaimVolume? && ClaimName(ns, vs[0].claim) in claims {
        FindPVMember(pvs, claims[ClaimName(ns, vs[0].claim)].volume);
      }
    }
  }

  /** While no volume has an entry on the node, binds do not change the predicate's answers: what
      was accepted once is accepted any number of times. */
  lemma NothingIsReserved(w: World, i: nat, pod: Pod, node: string, annotation: DiskAnnotation)
    requires NoEntries(w.pvs, node) && i < |w.pods| && w.pods[i].node == ""
    ensures PressureVerdict(w.(pods := Bind(w.pods, i, node)), pod, node, annotation)
         == PressureVerdict(w, pod, node, annotation)
  {
    var pods' := Bind(w.pods, i, node);
    NoEntriesSameRequests(pod.ns, pod.volumes, node, w.pvs, w.claims, w.pods, pods');
    NoEntriesSameList(w.clean, w.pvs, w.pods, pods', node, {});
  }

  // ---------- one node, one disk of 10, one volume of 10 ----------

  const VOLUME := PV("v", HostPath, map[], NoMounts, NoCapacity, Some(10), Some(ClaimName("s", "c")))
  const CLAIMS := map[ClaimName("s", "c") := Claim(true, "v")]
  const DISKS := [NodeDisk("/d", 10, false)]
  const FIRST := MountInfo("/d/x", 10)

  function Client(name: string, node: string): Pod {
    Pod("s", name, node, [ClaimVolume("c")], Running, false)
  }

  function Small(clean: string -> string, a: string, b: string): World {
    World(clean, [VOLUME], CLAIMS, [Client("a", a), Client("b", b)])
  }

  /** The one volume is charged to a client when it has nothing to reuse. */
  lemma OneClaimRequests(w: World, pv: PV, name: string, node: string)
    requires w.pvs == [pv] && w.claims == CLAIMS && pv.name == "v" && IsCommon(pv) && Capacity(pv) == 10
    requires HasEmptyItem(pv, node, w.pods) == Ok(false)
    ensures RequestsOf(w, Client(name, ""), node) == Ok(Requests(true, [Charge("v", 10)]))
  {
    var vs := [ClaimVolume("c")];
    assert vs[1..] == [];
    assert FindPV(w.pvs, "v") == Some(pv);
    assert ClaimName("s", "c") in CLAIMS && CLAIMS[ClaimName("s", "c")] == Claim(true, "v");
    assert GetPodVolumePV("s", vs[0], w.pvs, w.claims) == Ok(Some(pv));
    assert VolumeNeed("s", vs[0], node, w.pvs, w.claims, w.pods) == Ok(NeedsNew(Charge("v", 10)));
    assert PodRequests("s", vs[1..], node, w.pvs, w.claims, w.pods) == Ok(Requests(false, []));
    assert [Charge("v", 10)] + [] == [Charge("v", 10)];
  }

  lemma SmallRequests(w: World, name: string, node: string)
    requires w.pvs == [VOLUME] && w.claims == CLAIMS
    ensures RequestsOf(w, Client(name, ""), node) == Ok(Requests(true, [Charge("v", 10)]))
  {
    assert HasEmptyItem(VOLUME, node, w.pods) == Ok(false);
    OneClaimRequests(w, VOLUME, name, node);
  }

  lemma SmallPacks()
    ensures PacksOn([10], DISKS, [])
  {
    assert TotalCharge([], Paths(DISKS), 0) == 0;
    assert Clamped(DISKS, []) == [10];
    assert Sort([10]) == [10] && Accepts([10], [10]);
  }

  lemma SmallAccepts(w: World, name: string)
    requires w.pvs == [VOLUME] && w.claims == CLAIMS
    ensures PressureVerdict(w, Client(name, ""), "n", Disks(DISKS)) == Match
  {
    SmallRequests(w, name, "n");
    NoEntriesNoDirectories(w.clean, w.pvs, w.pods, "n", {});
    ListParts(w.clean, w.pvs, w.pods, "n", {});
    assert SizesOf([Charge("v", 10)]) == [10];
    SmallPacks();
    EarlyTotalTestIsRedundant(w, Client(name, ""), "n", Disks(DISKS));
  }

  lemma SmallPending(pods: seq<Pod>)
    requires pods == [Client("a", "n"), Client("b", "n")]
    ensures PendingItems(RecordMount(VOLUME, "n", FIRST), pods, "n") == [MountInfo("", 10)]
    ensures RawRecords(RecordMount(VOLUME, "n", FIRST), "n") == [FIRST]
  {
    var pv, c := RecordMount(VOLUME, "n", FIRST), ClaimName("s", "c");
    RecordedEntry(VOLUME, "n", FIRST, "n");
    assert [] + [FIRST] == [FIRST];
    KeysCountPods(pv, pods, "n");
    AllPass(Selector("n", c, false), pods);
    assert PendingCount(pv, pods, "n") == 1;
  }

  lemma SmallDirectories(w: World)
    requires w.pvs == [RecordMount(VOLUME, "n", FIRST)]
    requires w.pods == [Client("a", "n"), Client("b", "n")]
    ensures Directories(w, "n") == [FIRST, MountInfo("", 10)]
  {
    var u := MountInfo("", 10);
    SmallPending(w.pods);
    assert [FIRST][1..] == [] && Fresh(w.clean, [FIRST], {}) == [FIRST];
    var seen := {} + CleanPaths(w.clean, [FIRST]);
    assert w.pvs[1..] == [] && NodeMountList(w.clean, w.pvs[1..], w.pods, "n", seen) == Ok([]);
    assert NodeMountList(w.clean, w.pvs, w.pods, "n", {}) == Prepend([FIRST] + [u], Ok([]));
    assert [FIRST] + [u] + [] == [FIRST, u];
  }

  /** Both pods are accepted one after the other; once the plugin records the first directory, no
      placement of the second keeps the disk within its 10. */
  lemma FirstRecordOvercommits(clean: string -> string)
    ensures PressureVerdict(Small(clean, "", ""), Client("a", ""), "n", Disks(DISKS)) == Match
    ensures PressureVerdict(Small(clean, "n", ""), Client("b", ""), "n", Disks(DISKS)) == Match
    ensures var w := Small(clean, "n", "n");
            !Feasible(DISKS, Directories(w.(pvs := [RecordMount(VOLUME, "n", FIRST)]), "n"))
  {
    SmallAccepts(Small(clean, "", ""), "a");
    SmallAccepts(Small(clean, "n", ""), "b");
    SmallDirectories(Small(clean, "n", "n").(pvs := [RecordMount(VOLUME, "n", FIRST)]));
    SmallInfeasible();
  }

  lemma SmallInfeasible()
    ensures !Feasible(DISKS, [FIRST, MountInfo("", 10)])
  {
    var mounts, u := [FIRST, MountInfo("", 10)], MountInfo("", 10);
    var paths := Paths(DISKS);
    assert paths == ["/d"] && "/d" <= "/d/x" && FirstMatch("/d/x", paths) == 0;
    FilterPair(UnplacedEntry(), FIRST, u);
    FilterPair(HomeEntry(paths, 0), FIRST, u);
    assert Filter(UnplacedEntry(), mounts) == [u] && Filter(HomeEntry(paths, 0), mounts) == [FIRST];
    assert UnplacedSizes(mounts) == [10];
    assert Quotas([FIRST]) == [10] && Sum([10]) == 10;
    assert Free(DISKS, mounts)[0] == 0;
    forall a: seq<nat> ensures !Holds(UnplacedSizes(mounts), Free(DISKS, mounts), a) {
      assert |a| == 1 && a[0] == 0 ==> Load([10], a, 0) == 10;
    }
  }

  // ---------- one disk of 20, one "none" volume of 10 with a directory left over ----------

  const NONE_VOLUME := PV("v", HostPath, map[MOUNT_POLICY := "none"], Listed([NodeMounts("n", [FIRST])]),
                          NoCapacity, Some(10), Some(ClaimName("s", "c")))
  const LARGER := [NodeDisk("/d", 20, false)]
  const SECOND := MountInfo("/d/y", 10)
  const THIRD := MountInfo("/d/z", 10)

  function Leftover(clean: string -> string, a: string, b: string): World {
    World(clean, [NONE_VOLUME], CLAIMS, [Client("a", a), Client("b", b)])
  }

  lemma NotReused(node: string, pods: seq<Pod>)
    ensures HasEmptyItem(NONE_VOLUME, node, pods) == Ok(false) && !IsShared(NONE_VOLUME)
  {
    assert |QUOTA_FOR_ONE_POD| != |MOUNT_POLICY|;
    assert QUOTA_FOR_ONE_POD !in NONE_VOLUME.annotations;
  }

  lemma LeftoverRequests(w: World, name: string)
    requires w.pvs == [NONE_VOLUME] && w.claims == CLAIMS
    ensures RequestsOf(w, Client(name, ""), "n") == Ok(Requests(true, [Charge("v", 10)]))
  {
    NotReused("n", w.pods);
    OneClaimRequests(w, NONE_VOLUME, name, "n");
  }

  lemma ReadyOnNode(a: string, b: string)
    ensures ReadyCount([Client("a", a), Client("b", b)], "n", ClaimName("s", "c"))
         == (if a == "n" then 1 else 0) + (if b == "n" then 1 else 0)
  {
    FilterPair(Selector("n", ClaimName("s", "c"), false), Client("a", a), Client("b", b));
  }

  lemma NothingPending(pv: PV, ms: seq<MountInfo>, a: string, b: string)
    requires !IsShared(pv) && EntryOn(pv, "n") == Some(ms) && pv.claim == Some(ClaimName("s", "c"))
    requires (if a == "n" then 1 else 0) + (if b == "n" then 1 else 0) <= |ms|
    ensures PendingItems(pv, [Client("a", a), Client("b", b)], "n") == []
  {
    ReadyOnNode(a, b);
    KeysCountPods(pv, [Client("a", a), Client("b", b)], "n");
  }

  /** The accounting of one volume that owes nothing. */
  lemma OneVolumeList(clean: string -> string, pv: PV, ms: seq<MountInfo>, pods: seq<Pod>)
    requires MountList(pv).Ok? && RawRecords(pv, "n") == ms && PendingItems(pv, pods, "n") == []
    requires DistinctPaths(clean, ms)
    ensures NodeMountList(clean, [pv], pods, "n", {}) == Ok(ms)
  {
    DistinctFresh(clean, ms, {});
    var seen := {} + CleanPaths(clean, ms);
    assert [pv][1..] == [] && NodeMountList(clean, [], pods, "n", seen) == Ok([]);
    assert ms + [] + [] == ms;
  }

  lemma LeftoverAccepts(w: World, a: string, b: string, name: string)
    requires w.pvs == [NONE_VOLUME] && w.claims == CLAIMS && w.pods == [Client("a", a), Client("b", b)]
    requires (if a == "n" then 1 else 0) + (if b == "n" then 1 else 0) <= 1
    ensures MountsOf(w, "n") == Ok([FIRST])
    ensures PressureVerdict(w, Client(name, ""), "n", Disks(LARGER)) == Match
  {
    LeftoverRequests(w, name);
    NotReused("n", w.pods);
    NothingPending(NONE_VOLUME, [FIRST], a, b);
    OneVolumeList(w.clean, NONE_VOLUME, [FIRST], w.pods);
    assert SizesOf([Charge("v", 10)]) == [10];
    LargerPacks();
    VerdictOnDisks(w, Client(name, ""), "n", LARGER);
  }

  lemma LargerPacks()
    ensures PacksOn([10], LARGER, [FIRST])
  {
    var paths := Paths(LARGER);
    assert paths == ["/d"] && "/d" <= "/d/x" && FirstMatch("/d/x", paths) == 0;
    assert Map(ChargeTo(paths, 0), [FIRST]) == [10];
    SumOne(10);
    assert Clamped(LARGER, [FIRST]) == [10];
    assert Sort([10]) == [10] && Accepts([10], [10]);
  }

  function BothRecorded(): PV {
    RecordMount(RecordMount(NONE_VOLUME, "n", SECOND), "n", THIRD)
  }

  /** Two pods are accepted although only one fits: the first bind owes nothing, because its pod is
      counted against the directory left over. Each pod gets a directory of its own all the same. */
  lemma LeftoverOvercommits(clean: string -> string)
    requires DistinctPaths(clean, [FIRST, SECOND, THIRD])
    ensures PressureVerdict(Leftover(clean, "", ""), Client("a", ""), "n", Disks(LARGER)) == Match
    ensures MountsOf(Leftover(clean, "n", ""), "n") == MountsOf(Leftover(clean, "", ""), "n") == Ok([FIRST])
    ensures PressureVerdict(Leftover(clean, "n", ""), Client("b", ""), "n", Disks(LARGER)) == Match
    ensures !Feasible(LARGER, Directories(Leftover(clean, "n", "n").(pvs := [BothRecorded()]), "n"))
  {
    assert DistinctPaths(clean, [FIRST]);
    LeftoverAccepts(Leftover(clean, "", ""), "", "", "a");
    LeftoverAccepts(Leftover(clean, "n", ""), "n", "", "b");
    ThreeRecorded(clean);
    ThreeAreTooMany();
  }

  lemma ThreeRecorded(clean: string -> string)
    requires DistinctPaths(clean, [FIRST, SECOND, THIRD])
    ensures Directories(Leftover(clean, "n", "n").(pvs := [BothRecorded()]), "n") == [FIRST, SECOND, THIRD]
  {
    var pods := [Client("a", "n"), Client("b", "n")];
    NotReused("n", []);
    RecordedEntry(NONE_VOLUME, "n", SECOND, "n");
    RecordedEntry(RecordMount(NONE_VOLUME, "n", SECOND), "n", THIRD, "n");
    assert [FIRST] + [SECOND] + [THIRD] == [FIRST, SECOND, THIRD];
    NothingPending(BothRecorded(), [FIRST, SECOND, THIRD], "n", "n");
    OneVolumeList(clean, BothRecorded(), [FIRST, SECOND, THIRD], pods);
  }

  lemma ThreeAreTooMany()
    ensures !Feasible(LARGER, [FIRST, SECOND, THIRD])
  {
    var three, paths := [FIRST, SECOND, THIRD], Paths(LARGER);
    assert paths == ["/d"] && forall k :: 0 <= k < 3 ==> "/d" <= three[k].hostPath;
    assert forall k :: 0 <= k < 3 ==> FirstMatch(three[k].hostPath, paths) == 0;
    AllPass(HomeEntry(paths, 0), three);
    assert Quotas(three) == Repeat(10, 3);
    SumRepeat(10, 3);
    NonePass(UnplacedEntry(), three);
    assert UnplacedSizes(three) == [];
    assert Free(LARGER, three)[0] == -10;
  }
}
