/**
 What charging means, what it does not depend on, and which changes can only help a pod: the
 theorems about the disk pressure decision that relate several of its steps.
 */
module PressureProperties {
  import opened Sequences
  import opened HostPathPV
  import opened Packing
  import opened BinPacking
  import opened DiskPressure

  predicate NonNegativeQuotas(mounts: seq<MountInfo>) {
    forall i :: 0 <= i < |mounts| ==> 0 <= mounts[i].quota
  }

  // ---------- conservation ----------

  predicate Unplaced(m: MountInfo) { m.hostPath == "" }

  function UnplacedEntry(): MountInfo -> bool { m => Unplaced(m) }

  predicate HomedOn(m: MountInfo, paths: seq<string>, i: nat) {
    !Unplaced(m) && FirstMatch(m.hostPath, paths) == i
  }

  function HomeEntry(paths: seq<string>, i: nat): MountInfo -> bool { m => HomedOn(m, paths, i) }

  /** Sizes of the directories whose place is not recorded yet. */
  function UnplacedSizes(mounts: seq<MountInfo>): seq<int> {
    Quotas(Filter(UnplacedEntry(), mounts))
  }

  /** What recorded directories take from disk `i`. */
  function RecordedOn(mounts: seq<MountInfo>, paths: seq<string>, i: nat): int {
    Sum(Quotas(Filter(HomeEntry(paths, i), mounts)))
  }

  lemma FilterTotal(f: MountInfo -> bool, mounts: seq<MountInfo>)
    requires mounts != []
    ensures Sum(Quotas(Filter(f, mounts)))
         == (if f(mounts[0]) then mounts[0].quota else 0) + Sum(Quotas(Filter(f, mounts[1..])))
  {
    var m, rest := mounts[0], Filter(f, mounts[1..]);
    assert mounts == [m] + mounts[1..] && [] + rest == rest;
    FilterCons(f, m, mounts[1..]);
    SumMapCons(QuotaOf, m, rest);
  }

  /** No empty path is listed before disk `i`. */
  predicate NonEmptyBefore(paths: seq<string>, i: int) {
    forall k :: 0 <= k < i && k < |paths| ==> paths[k] != ""
  }

  /** Before clamping a disk has its allocable size less the directories at home on it and less
      every unplaced directory of the node. */
  predicate Conserved(mounts: seq<MountInfo>, paths: seq<string>, i: nat) {
    TotalCharge(mounts, paths, i) == RecordedOn(mounts, paths, i) + Sum(UnplacedSizes(mounts))
  }

  lemma {:induction false} ChargingConservation(mounts: seq<MountInfo>, paths: seq<string>, i: nat)
    requires NonEmptyBefore(paths, i) && i < |paths|
    ensures Conserved(mounts, paths, i)
  {
    if mounts != [] {
      ChargingConservation(mounts[1..], paths, i);
      FilterTotal(HomeEntry(paths, i), mounts);
      FilterTotal(UnplacedEntry(), mounts);
      var f := ChargeTo(paths, i);
      assert Map(f, mounts)[1..] == Map(f, mounts[1..]);
      assert mounts[0].hostPath == "" ==> FirstMatch("", paths) >= i;
    }
  }

  /** Conservation holds on disk `i` for all lists of directories exactly when no disk before it has
      the empty path: an unplaced directory is charged up to the first empty path and no further. */
  lemma ChargingConservedIff(paths: seq<string>, i: nat)
    requires i < |paths|
    ensures (forall mounts :: Conserved(mounts, paths, i)) <==> NonEmptyBefore(paths, i)
  {
    if NonEmptyBefore(paths, i) {
      forall mounts ensures Conserved(mounts, paths, i) {
        ChargingConservation(mounts, paths, i);
      }
    } else {
      var m := MountInfo("", 1);
      assert FirstMatch("", paths) < i;
      assert Map(ChargeTo(paths, i), [m]) == [0];
      FilterOne(UnplacedEntry(), m);
      FilterOne(HomeEntry(paths, i), m);
      assert UnplacedSizes([m]) == [1] && Quotas(Filter(HomeEntry(paths, i), [m])) == [];
      SumOne(0);
      SumOne(1);
      assert !Conserved([m], paths, i);
    }
  }

  // ---------- the order of mount entries ----------

  /** The order of the mount entries is irrelevant to every disk. */
  lemma MountOrderIrrelevant(disks: seq<NodeDisk>, mounts: seq<MountInfo>, mounts': seq<MountInfo>)
    requires multiset(mounts) == multiset(mounts')
    ensures Clamped(disks, mounts) == Clamped(disks, mounts')
    ensures forall i :: 0 <= i < |disks| ==> ChargedSize(disks, mounts, i) == ChargedSize(disks, mounts', i)
  {
    forall i | 0 <= i < |disks|
      ensures ChargedSize(disks, mounts, i) == ChargedSize(disks, mounts', i)
    {
      var f := ChargeTo(Paths(disks), i);
      MapSub(f, mounts, mounts');
      SumPermutation(Map(f, mounts), Map(f, mounts'));
    }
  }

  // ---------- monotonicity ----------

  /** The same disks with at least as much allocable on each. */
  predicate Raised(disks': seq<NodeDisk>, disks: seq<NodeDisk>) {
    && |disks'| == |disks|
    && forall i :: 0 <= i < |disks| ==>
         disks'[i].mountPath == disks[i].mountPath && disks[i].allocable <= disks'[i].allocable
  }

  lemma ClampedDominates(disks: seq<NodeDisk>, mounts: seq<MountInfo>,
                         disks': seq<NodeDisk>, mounts': seq<MountInfo>)
    requires Raised(disks', disks) && NonNegativeQuotas(mounts) && multiset(mounts') <= multiset(mounts)
    ensures Dominates(Clamped(disks', mounts'), Clamped(disks, mounts))
  {
    assert Paths(disks') == Paths(disks);
    forall i | 0 <= i < |disks|
      ensures TotalCharge(mounts', Paths(disks), i) <= TotalCharge(mounts, Paths(disks), i)
    {
      var f := ChargeTo(Paths(disks), i);
      MapSub(f, mounts', mounts);
      SumSub(Map(f, mounts'), Map(f, mounts));
    }
  }

  /** The decision on sizes: nothing to place, or room for it. */
  predicate Admits(req: seq<int>, disks: seq<NodeDisk>, mounts: seq<MountInfo>) {
    Sum(req) == 0 || PacksOn(req, disks, mounts)
  }

  /** Asking for less, on disks with more allocable and fewer directories, stays admitted. */
  lemma AdmissionMonotone(req: seq<int>, disks: seq<NodeDisk>, mounts: seq<MountInfo>,
                          req': seq<int>, disks': seq<NodeDisk>, mounts': seq<MountInfo>)
    requires NonNegative(req) && NonNegativeQuotas(mounts)
    requires multiset(req') <= multiset(req) && Raised(disks', disks)
    requires multiset(mounts') <= multiset(mounts)
    requires Admits(req, disks, mounts)
    ensures Admits(req', disks', mounts')
  {
    SumSub(req', req);
    SubNonNegative(req, req');
    SumNonNegative(req');
    if Sum(req) != 0 {
      var have, have' := Clamped(disks, mounts), Clamped(disks', mounts');
      ClampedDominates(disks, mounts, disks', mounts');
      SortDominates(have, have');
      SortSorts(req);
      SortSorts(req');
      SubNonNegative(req, Sort(req));
      LargerDisksAccepted(Sort(req), Sort(have), Sort(have'));
      SubRequestsAccepted(Sort(req), Sort(have'), Sort(req'));
    }
  }

  lemma {:induction false} VolumeDropped(ns: string, vs: seq<Volume>, k: nat, node: string,
                                         pvs: seq<PV>, claims: map<ClaimName, Claim>, pods: seq<Pod>)
    requires k < |vs| && PodRequests(ns, vs, node, pvs, claims, pods).Ok?
    ensures var r, r' := PodRequests(ns, vs, node, pvs, claims, pods),
                         PodRequests(ns, RemoveAt(vs, k), node, pvs, claims, pods);
            r'.Ok? && multiset(r'.value.charges) <= multiset(r.value.charges)
  {
    if k == 0 {
      assert RemoveAt(vs, 0) == vs[1..];
    } else {
      VolumeDropped(ns, vs[1..], k - 1, node, pvs, claims, pods);
      assert RemoveAt(vs, k)[0] == vs[0] && RemoveAt(vs, k)[1..] == RemoveAt(vs[1..], k - 1);
      var need := VolumeNeed(ns, vs[0], node, pvs, claims, pods).value;
      FrontAdded(if need.NeedsNew? then [need.charge] else [],
                 PodRequests(ns, RemoveAt(vs[1..], k - 1), node, pvs, claims, pods).value.charges,
                 PodRequests(ns, vs[1..], node, pvs, claims, pods).value.charges);
    }
  }

  lemma FrontAdded<T>(front: seq<T>, less: seq<T>, more: seq<T>)
    requires multiset(less) <= multiset(more)
    ensures multiset(front + less) <= multiset(front + more)
  {
  }

  /** For the whole predicate: a pod without one of its volumes, on a node with more allocable
      disks, is accepted wherever the pod was. */
  lemma AcceptanceMonotone(w: World, pod: Pod, k: nat, node: string,
                           disks: seq<NodeDisk>, disks': seq<NodeDisk>)
    requires NonNegativeCapacities(w.pvs) && k < |pod.volumes| && Raised(disks', disks)
    requires MountsOf(w, node).Ok? ==> NonNegativeQuotas(MountsOf(w, node).value)
    requires PressureAccepts(w, pod, node, Disks(disks))
    ensures PressureAccepts(w, pod, node, Disks(disks'))
    ensures PressureAccepts(w, pod.(volumes := RemoveAt(pod.volumes, k)), node, Disks(disks'))
  {
    RequestsNonNegative(pod.ns, pod.volumes, node, w.pvs, w.claims, w.pods);
    VolumeDropped(pod.ns, pod.volumes, k, node, w.pvs, w.claims, w.pods);
    var charges := RequestsOf(w, pod, node).value.charges;
    var charges' := RequestsOf(w, pod.(volumes := RemoveAt(pod.volumes, k)), node).value.charges;
    MapSub(ChargeSize, charges', charges);
    var req, req' := SizesOf(charges), SizesOf(charges');
    SumSub(req', req);
    SubNonNegative(req, req');
    SumNonNegative(req');
    if Sum(req) != 0 {
      var mounts := MountsOf(w, node).value;
      AdmissionMonotone(req, disks, mounts, req, disks', mounts);
      AdmissionMonotone(req, disks, mounts, req', disks', mounts);
    }
  }

  // ---------- the completeness classes, for the predicate's own unsorted lists ----------

  lemma MatchingReordered(req: seq<int>, have: seq<int>, m: seq<nat>, req': seq<int>, have': seq<int>)
    returns (m': seq<nat>)
    requires OneToOne(req, have, m) && multiset(req) == multiset(req') && multiset(have) == multiset(have')
    ensures OneToOne(req', have', m')
  {
    var p := Renumbering(req', req);
    var q := Renumbering(have, have');
    m' := seq(|req'|, i requires 0 <= i < |req'| => q[m[p[i]]]);
    forall i, j | 0 <= i < j < |m'| ensures m'[i] != m'[j] {
      assert p[i] != p[j];
      assert m[p[i]] != m[p[j]];
    }
  }

  lemma MatchingPacks(req: seq<int>, disks: seq<NodeDisk>, mounts: seq<MountInfo>, m: seq<nat>)
    requires NonNegative(req) && OneToOne(req, Clamped(disks, mounts), m)
    ensures PacksOn(req, disks, mounts)
  {
    var have := Clamped(disks, mounts);
    SortSorts(req);
    SortSorts(have);
    SubNonNegative(req, Sort(req));
    var m' := MatchingReordered(req, have, m, Sort(req), Sort(have));
    MatchingAccepted(Sort(req), Sort(have), m');
  }

  /** No node is refused whose charged disks can take one new directory each, in whatever order disks
      and directories are listed. */
  lemma OneDiskEachIsEnough(w: World, pod: Pod, node: string, disks: seq<NodeDisk>, m: seq<nat>)
    requires NonNegativeCapacities(w.pvs) && RequestsOf(w, pod, node).Ok? && MountsOf(w, node).Ok?
    requires OneToOne(SizesOf(RequestsOf(w, pod, node).value.charges),
                      Clamped(disks, MountsOf(w, node).value), m)
    ensures PressureVerdict(w, pod, node, Disks(disks)) == Match
  {
    RequestsNonNegative(pod.ns, pod.volumes, node, w.pvs, w.claims, w.pods);
    MatchingPacks(SizesOf(RequestsOf(w, pod, node).value.charges), disks, MountsOf(w, node).value, m);
    EarlyTotalTestIsRedundant(w, pod, node, Disks(disks));
  }

  lemma VerdictOnDisks(w: World, pod: Pod, node: string, disks: seq<NodeDisk>)
    requires NonNegativeCapacities(w.pvs) && RequestsOf(w, pod, node).Ok? && MountsOf(w, node).Ok?
    ensures PressureVerdict(w, pod, node, Disks(disks)) == Match
       <==> Admits(SizesOf(RequestsOf(w, pod, node).value.charges), disks, MountsOf(w, node).value)
  {
    EarlyTotalTestIsRedundant(w, pod, node, Disks(disks));
  }

  lemma PackableReordered(req: seq<int>, have: seq<int>, req': seq<int>, have': seq<int>)
    requires NonNegative(req) && multiset(req) == multiset(req') && multiset(have) == multiset(have')
    requires Packable(req, have)
    ensures Packable(req', have')
  {
    var a :| Fits(req, have, a);
    var b := FitsReordered(req, have, a, have');
    var c := FitsSub(req, have', b, req');
  }

  lemma PackableSorted(req: seq<int>, have: seq<int>)
    requires NonNegative(req)
    ensures Packable(req, have) <==> Packable(Sort(req), Sort(have))
  {
    SortSorts(req);
    SortSorts(have);
    SubNonNegative(req, Sort(req));
    if Packable(req, have) {
      PackableReordered(req, have, Sort(req), Sort(have));
    }
    if Packable(Sort(req), Sort(have)) {
      PackableReordered(Sort(req), Sort(have), req, have);
    }
  }

  /** The decision on sizes is right about packing at all, in whatever order. */
  ghost predicate AdmitsPackable(req: seq<int>, disks: seq<NodeDisk>, mounts: seq<MountInfo>) {
    Admits(req, disks, mounts) <==> (Sum(req) == 0 || Packable(req, Clamped(disks, mounts)))
  }

  lemma RegularAdmitted(req: seq<int>, disks: seq<NodeDisk>, mounts: seq<MountInfo>)
    requires NonNegative(req) && Regular(Sort(req))
    ensures AdmitsPackable(req, disks, mounts)
  {
    var have := Clamped(disks, mounts);
    SortSorts(req);
    SortSorts(have);
    SubNonNegative(req, Sort(req));
    SubNonNegative(have, Sort(have));
    PackableSorted(req, have);
    RegularDecided(Sort(req), Sort(have));
  }

  /** Disks that have given sizes once the directories are charged. */
  function DisksOfSizes(have: seq<int>, mounts: seq<MountInfo>): (disks: seq<NodeDisk>)
    ensures |disks| == |have|
  {
    seq(|have|, i requires 0 <= i < |have| =>
      NodeDisk("/", have[i] + TotalCharge(mounts, Repeat("/", |have|), i), false))
  }

  lemma SizesOfDisks(have: seq<int>, mounts: seq<MountInfo>)
    requires NonNegative(have)
    ensures Clamped(DisksOfSizes(have, mounts), mounts) == have
  {
    assert Paths(DisksOfSizes(have, mounts)) == Repeat("/", |have|);
  }

  lemma ZeroSum(req: seq<int>, have: seq<int>)
    requires NonNegative(req) && Sum(req) == 0 && have != [] && NonNegative(have)
    ensures Accepts(req, have)
  {
    SumNonNegative(req);
    assert req == Repeat<int>(0, |req|) + [];
    ZerosAccepted(|req|, [], have);
  }

  lemma IrregularMisjudged(req: seq<int>, mounts: seq<MountInfo>) returns (disks: seq<NodeDisk>)
    requires NonNegative(req) && !Regular(Sort(req))
    ensures !AdmitsPackable(req, disks, mounts)
  {
    SortSorts(req);
    SubNonNegative(req, Sort(req));
    var have := OtherFooled(Sort(req));
    disks := DisksOfSizes(have, mounts);
    SizesOfDisks(have, mounts);
    SortUnique(have, have);
    PackableSorted(req, have);
    SumPermutation(Sort(req), req);
    if Sum(req) == 0 {
      ZeroSum(Sort(req), have);
    }
  }

  /** The whole predicate decides for a pod, on all disks a node may declare, whether its new
      directories can be packed at all, if and only if the sorted directories are regular. */
  lemma PackingDecidedIff(w: World, pod: Pod, node: string)
    requires NonNegativeCapacities(w.pvs) && RequestsOf(w, pod, node).Ok? && MountsOf(w, node).Ok?
    ensures var req := SizesOf(RequestsOf(w, pod, node).value.charges);
            (forall disks :: PressureVerdict(w, pod, node, Disks(disks)) == Match
                             <==> (Sum(req) == 0 || Packable(req, Clamped(disks, MountsOf(w, node).value))))
            <==> Regular(Sort(req))
  {
    var req, mounts := SizesOf(RequestsOf(w, pod, node).value.charges), MountsOf(w, node).value;
    RequestsNonNegative(pod.ns, pod.volumes, node, w.pvs, w.claims, w.pods);
    if Regular(Sort(req)) {
      forall disks
        ensures PressureVerdict(w, pod, node, Disks(disks)) == Match
           <==> (Sum(req) == 0 || Packable(req, Clamped(disks, mounts)))
      {
        VerdictOnDisks(w, pod, node, disks);
        RegularAdmitted(req, disks, mounts);
      }
    } else {
      var disks := IrregularMisjudged(req, mounts);
      VerdictOnDisks(w, pod, node, disks);
      assert !(PressureVerdict(w, pod, node, Disks(disks)) == Match
               <==> (Sum(req) == 0 || Packable(req, Clamped(disks, mounts))));
    }
  }

  /** An accepted pod has a placement of its new directories on the node's own disks. */
  lemma AcceptedHasPlacement(req: seq<int>, disks: seq<NodeDisk>, mounts: seq<MountInfo>)
    returns (a: seq<nat>)
    requires NonNegative(req) && PacksOn(req, disks, mounts)
    ensures Fits(req, Clamped(disks, mounts), a)
  {
    var have := Clamped(disks, mounts);
    SortSorts(req);
    SortSorts(have);
    SubNonNegative(req, Sort(req));
    AcceptedFits(Sort(req), Sort(have));
    var b := FitsReordered(Sort(req), Sort(have), Placed(Sort(req), Sort(have)), have);
    a := FitsSub(Sort(req), have, b, req);
  }

  /** The whole predicate, exactly: a pod is accepted when it needs no room, or when its sorted new
      directories can go on the node's sorted charged disks without ever going back to an earlier
      disk. Nothing else is looked at, neither totals nor the disabled flag of a disk. */
  lemma PressureExact(w: World, pod: Pod, node: string, annotation: DiskAnnotation)
    requires NonNegativeCapacities(w.pvs)
    ensures PressureVerdict(w, pod, node, annotation) == Match <==>
            (RequestsOf(w, pod, node).Ok?
             && var req := SizesOf(RequestsOf(w, pod, node).value.charges);
                (Sum(req) == 0
                 || (annotation.Disks? && MountsOf(w, node).Ok?
                     && exists a :: Monotone(a)
                          && Fits(Sort(req), Sort(Clamped(annotation.disks, MountsOf(w, node).value)), a))))
  {
    EarlyTotalTestIsRedundant(w, pod, node, annotation);
    if RequestsOf(w, pod, node).Ok? && annotation.Disks? && MountsOf(w, node).Ok? {
      var req := SizesOf(RequestsOf(w, pod, node).value.charges);
      RequestsNonNegative(pod.ns, pod.volumes, node, w.pvs, w.claims, w.pods);
      SortSorts(req);
      SubNonNegative(req, Sort(req));
      GreedyExact(Sort(req), Sort(Clamped(annotation.disks, MountsOf(w, node).value)));
    }
  }

  /** Disabling disks changes no answer. */
  lemma DisabledIsIgnored(w: World, pod: Pod, node: string, disks: seq<NodeDisk>, disks': seq<NodeDisk>)
    requires |disks| == |disks'|
    requires forall i :: 0 <= i < |disks| ==> disks'[i] == disks[i].(disabled := disks'[i].disabled)
    ensures PressureVerdict(w, pod, node, Disks(disks')) == PressureVerdict(w, pod, node, Disks(disks))
  {
    assert Paths(disks') == Paths(disks);
    assert disks == [] <==> disks' == [];
    if MountsOf(w, node).Ok? {
      assert Clamped(disks', MountsOf(w, node).value) == Clamped(disks, MountsOf(w, node).value);
    }
  }
}
