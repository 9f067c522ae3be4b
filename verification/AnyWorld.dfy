/**
 A world for any new directories and any directories charged to a node: one volume records the
 charged ones, and a pod mounts one volume without directories for each of the others.
 */
module AnyWorld {
  import opened Sequences
  import opened HostPathPV
  import opened DiskPressure
  import opened Accounting
  import opened Binding

  function Same(path: string): string { path }

  /** Names of different lengths. */
  function Name(i: nat): string {
    Repeat('v', i + 1)
  }

  function Key(i: nat): ClaimName {
    ClaimName("s", Name(i))
  }

  function Recorder(node: string, mounts: seq<MountInfo>): PV {
    PV("", HostPath, map[], Listed([NodeMounts(node, mounts)]), NoCapacity, Some(0), None)
  }

  function Requester(i: nat, size: int): PV {
    PV(Name(i), HostPath, map[], NoMounts, NoCapacity, Some(size), Some(Key(i)))
  }

  function Requesters(sizes: seq<int>): (pvs: seq<PV>)
    ensures |pvs| == |sizes| && forall i :: 0 <= i < |pvs| ==> pvs[i] == Requester(i, sizes[i])
  {
    seq(|sizes|, i requires 0 <= i < |sizes| => Requester(i, sizes[i]))
  }

  function Claims(n: nat): (claims: map<ClaimName, Claim>)
    ensures forall i: nat :: i < n ==> Key(i) in claims && claims[Key(i)] == Claim(true, Name(i))
  {
    if n == 0 then map[]
    else
      assert forall i: nat :: i < n - 1 ==> |Name(i)| != |Name(n - 1)|;
      Claims(n - 1)[Key(n - 1) := Claim(true, Name(n - 1))]
  }

  function Volumes(n: nat): (vs: seq<Volume>)
    ensures |vs| == n && forall i :: 0 <= i < n ==> vs[i] == ClaimVolume(Name(i))
  {
    seq(n, i requires 0 <= i < n => ClaimVolume(Name(i)))
  }

  function Asking(sizes: seq<int>): Pod {
    Pod("s", "p", "", Volumes(|sizes|), Pending, false)
  }

  function Made(node: string, sizes: seq<int>, mounts: seq<MountInfo>): World {
    World(Same, [Recorder(node, mounts)] + Requesters(sizes), Claims(|sizes|), [])
  }

  lemma MadeVolumes(node: string, sizes: seq<int>, mounts: seq<MountInfo>)
    ensures DistinctNames(Made(node, sizes, mounts).pvs)
    ensures NonNegative(sizes) ==> NonNegativeCapacities(Made(node, sizes, mounts).pvs)
  {
    var pvs := Made(node, sizes, mounts).pvs;
    forall i, j | 0 <= i < j < |pvs| ensures pvs[i].name != pvs[j].name {
      assert |pvs[i].name| == i && |pvs[j].name| == j;
    }
  }

  // ---------- what the pod asks for ----------

  lemma VolumeFound(node: string, sizes: seq<int>, mounts: seq<MountInfo>, i: nat)
    requires i < |sizes|
    ensures var w := Made(node, sizes, mounts);
            GetPodVolumePV("s", ClaimVolume(Name(i)), w.pvs, w.claims) == Ok(Some(Requester(i, sizes[i])))
  {
    var w := Made(node, sizes, mounts);
    MadeVolumes(node, sizes, mounts);
    assert w.pvs[i + 1] == Requester(i, sizes[i]);
    FindByName(w.pvs, i + 1);
    assert Key(i) in w.claims && Name(i) != "";
  }

  lemma NotReused(i: nat, size: int, node: string)
    ensures HasEmptyItem(Requester(i, size), node, []) == Ok(false)
  {
  }

  lemma OneNeed(node: string, sizes: seq<int>, mounts: seq<MountInfo>, i: nat)
    requires i < |sizes|
    ensures var w := Made(node, sizes, mounts);
            VolumeNeed("s", Volumes(|sizes|)[i], node, w.pvs, w.claims, w.pods)
            == Ok(NeedsNew(Charge(Name(i), sizes[i])))
  {
    VolumeFound(node, sizes, mounts, i);
    NotReused(i, sizes[i], node);
  }

  lemma OneMore(vs: seq<Volume>, node: string, w: World, c: Charge, rest: Result<Requests>)
    requires vs != [] && VolumeNeed("s", vs[0], node, w.pvs, w.claims, w.pods) == Ok(NeedsNew(c))
    requires PodRequests("s", vs[1..], node, w.pvs, w.claims, w.pods) == rest && rest.Ok?
    ensures var r := PodRequests("s", vs, node, w.pvs, w.claims, w.pods);
            r.Ok? && SizesOf(r.value.charges) == [c.size] + SizesOf(rest.value.charges)
  {
    MapConcat(ChargeSize, [c], rest.value.charges);
  }

  lemma {:induction false} NeedsFrom(node: string, sizes: seq<int>, mounts: seq<MountInfo>, k: nat)
    requires k <= |sizes|
    ensures var w := Made(node, sizes, mounts);
            var r := PodRequests("s", Volumes(|sizes|)[k..], node, w.pvs, w.claims, w.pods);
            r.Ok? && SizesOf(r.value.charges) == sizes[k..]
    decreases |sizes| - k
  {
    if k < |sizes| {
      var w, vs := Made(node, sizes, mounts), Volumes(|sizes|);
      OneNeed(node, sizes, mounts, k);
      NeedsFrom(node, sizes, mounts, k + 1);
      assert vs[k..][0] == vs[k] && vs[k..][1..] == vs[k + 1..];
      assert sizes[k..] == [sizes[k]] + sizes[k + 1..];
      OneMore(vs[k..], node, w, Charge(Name(k), sizes[k]),
              PodRequests("s", vs[k + 1..], node, w.pvs, w.claims, w.pods));
    }
  }

  lemma AsksFor(node: string, sizes: seq<int>, mounts: seq<MountInfo>)
    ensures var r := RequestsOf(Made(node, sizes, mounts), Asking(sizes), node);
            r.Ok? && SizesOf(r.value.charges) == sizes
  {
    NeedsFrom(node, sizes, mounts, 0);
    assert Volumes(|sizes|)[0..] == Volumes(|sizes|) && sizes[0..] == sizes;
  }

  // ---------- what the node is charged with ----------

  lemma {:induction false} NothingListed(pvs: seq<PV>, node: string, seen: set<string>)
    requires forall i :: 0 <= i < |pvs| ==> MountList(pvs[i]) == Ok([]) && EntryOn(pvs[i], node).None?
    ensures NodeMountList(Same, pvs, [], node, seen) == Ok([])
    decreases |pvs|
  {
    if pvs != [] {
      var raw := RawRecords(pvs[0], node);
      NothingListed(pvs[1..], node, seen + CleanPaths(Same, raw));
      var none: seq<MountInfo> := [];
      assert raw == none && PendingItems(pvs[0], [], node) == none && Fresh(Same, raw, seen) == none;
      assert none + none + none == none;
    }
  }

  lemma RecorderParts(node: string, mounts: seq<MountInfo>)
    ensures var pv := Recorder(node, mounts);
            MountList(pv).Ok? && RawRecords(pv, node) == mounts && PendingItems(pv, [], node) == []
  {
    assert EntryOn(Recorder(node, mounts), node) == Some(mounts);
  }

  lemma ListCons(pv: PV, pvs: seq<PV>, node: string)
    requires MountList(pv).Ok? && PendingItems(pv, [], node) == [] && DistinctPaths(Same, RawRecords(pv, node))
    requires NodeMountList(Same, pvs, [], node, {} + CleanPaths(Same, RawRecords(pv, node))) == Ok([])
    ensures NodeMountList(Same, [pv] + pvs, [], node, {}) == Ok(RawRecords(pv, node))
  {
    var raw := RawRecords(pv, node);
    DistinctFresh(Same, raw, {});
    assert ([pv] + pvs)[1..] == pvs && raw + [] + [] == raw;
  }

  lemma ChargedWith(node: string, sizes: seq<int>, mounts: seq<MountInfo>)
    requires DistinctPaths(Same, mounts)
    ensures MountsOf(Made(node, sizes, mounts), node) == Ok(mounts)
  {
    NothingListed(Requesters(sizes), node, {} + CleanPaths(Same, mounts));
    RecorderParts(node, mounts);
    ListCons(Recorder(node, mounts), Requesters(sizes), node);
  }
}
