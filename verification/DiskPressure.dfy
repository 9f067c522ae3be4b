/**
 The disk pressure predicate: what a pod asks for, what a node has left once every directory is
 charged to it, and the in-place loops that decide whether the one fits in the other.
 */
module DiskPressure {
  import opened Sequences
  import opened HostPathPV
  import opened Packing

  datatype NodeDisk = NodeDisk(mountPath: string, allocable: int, disabled: bool)
  datatype DiskAnnotation = NoDisks | UnreadableDisks | Disks(disks: seq<NodeDisk>)
  datatype DiskInfo = DiskInfo(path: string, size: int, disabled: bool)

  /** `NotMatch` carries no reason; `Failure` stands for a predicate error. */
  datatype Verdict = Match | NotMatch | Failure

  // ---------- the order on disks ----------

  function StringLess(s: string, t: string): bool {
    if t == [] then false
    else if s == [] then true
    else s[0] < t[0] || (s[0] == t[0] && StringLess(s[1..], t[1..]))
  }

  lemma {:induction false} StringLessTotal(s: string, t: string)
    ensures StringLess(s, t) || s == t || StringLess(t, s)
    ensures !(StringLess(s, t) && StringLess(t, s)) && !StringLess(s, s)
  {
    if s != [] && t != [] {
      StringLessTotal(s[1..], t[1..]);
      assert s[0] == t[0] && s[1..] == t[1..] ==> s == t by {
        assert s == [s[0]] + s[1..] && t == [t[0]] + t[1..];
      }
    }
    if s != [] {
      StringLessTotal(s[1..], s[1..]);
    }
  }

  lemma {:induction false} StringLessTransitive(s: string, t: string, u: string)
    ensures !StringLess(t, s) && !StringLess(u, t) ==> !StringLess(u, s)
  {
    if s != [] && t != [] && u != [] {
      StringLessTransitive(s[1..], t[1..], u[1..]);
    }
  }

  predicate Less(d: DiskInfo, e: DiskInfo) {
    if d.size != e.size then d.size < e.size else StringLess(d.path, e.path)
  }

  predicate SortedByLess(s: seq<DiskInfo>) {
    forall i, j :: 0 <= i < j < |s| ==> !Less(s[j], s[i])
  }

  lemma LessTransitive(d: DiskInfo, e: DiskInfo, f: DiskInfo)
    requires !Less(e, d) && !Less(f, e)
    ensures !Less(f, d)
  {
    StringLessTransitive(d.path, e.path, f.path);
  }

  function SizeOf(d: DiskInfo): int { d.size }

  function Sizes(s: seq<DiskInfo>): (r: seq<int>)
    ensures |r| == |s| && forall i :: 0 <= i < |s| ==> r[i] == s[i].size
  {
    Map(SizeOf, s)
  }

  /** Sorting disks sorts their sizes, whatever the algorithm and the order of equal disks. */
  lemma SortedSizes(before: seq<DiskInfo>, after: seq<DiskInfo>)
    requires SortedByLess(after) && multiset(before) == multiset(after)
    ensures Sizes(after) == Sort(Sizes(before))
  {
    MapSub(SizeOf, before, after);
    forall i, j | 0 <= i < j < |after| ensures Sizes(after)[i] <= Sizes(after)[j] {
      assert !Less(after[j], after[i]);
    }
    SortUnique(Sizes(before), Sizes(after));
  }

  /** Moves the last of the first `n + 1` disks down to its place among the first `n`. */
  method InsertLast(a: array<DiskInfo>, n: nat)
    requires n < a.Length && SortedByLess(a[..n])
    modifies a
    ensures SortedByLess(a[..n + 1]) && a[n + 1..] == old(a[n + 1..])
    ensures multiset(a[..]) == multiset(old(a[..]))
  {
    var j := n;
    while j > 0 && Less(a[j], a[j - 1])
      invariant j <= n && a[n + 1..] == old(a[n + 1..])
      invariant forall p, q :: 0 <= p < q <= n && q != j ==> !Less(a[q], a[p])
      invariant multiset(a[..]) == multiset(old(a[..]))
    {
      StringLessTotal(a[j].path, a[j - 1].path);
      a[j], a[j - 1] := a[j - 1], a[j];
      j := j - 1;
    }
    forall p | 0 <= p < j ensures !Less(a[j], a[p]) {
      if p < j - 1 {
        LessTransitive(a[p], a[j - 1], a[j]);
      }
    }
  }

  /** Stands for the library sort: only its result, sorted by `Less` and a permutation, is used. */
  method SortDisks(a: array<DiskInfo>)
    modifies a
    ensures SortedByLess(a[..]) && multiset(a[..]) == multiset(old(a[..]))
    ensures Sizes(a[..]) == Sort(Sizes(old(a[..])))
  {
    for n := 0 to a.Length
      invariant SortedByLess(a[..n]) && multiset(a[..]) == multiset(old(a[..]))
    {
      InsertLast(a, n);
    }
    assert a[..a.Length] == a[..];
    SortedSizes(old(a[..]), a[..]);
  }

  // ---------- charging directories to disks ----------

  function PathOf(d: NodeDisk): string { d.mountPath }

  function Paths(disks: seq<NodeDisk>): seq<string> {
    Map(PathOf, disks)
  }

  /** The first disk whose path is a prefix of the directory, by plain string prefix. */
  function FirstMatch(dir: string, paths: seq<string>): (d: nat)
    ensures d <= |paths| && (d < |paths| ==> paths[d] <= dir)
    ensures forall i :: 0 <= i < d ==> !(paths[i] <= dir)
  {
    if paths == [] || paths[0] <= dir then 0 else 1 + FirstMatch(dir, paths[1..])
  }

  /** What one mount entry takes from disk `i`; an entry without a path takes from all of them. */
  function ChargeOn(m: MountInfo, paths: seq<string>, i: nat): int {
    if i == FirstMatch(m.hostPath, paths) || (m.hostPath == "" && i < FirstMatch(m.hostPath, paths))
    then m.quota else 0
  }

  function ChargeTo(paths: seq<string>, i: nat): MountInfo -> int {
    m => ChargeOn(m, paths, i)
  }

  function TotalCharge(mounts: seq<MountInfo>, paths: seq<string>, i: nat): int {
    Sum(Map(ChargeTo(paths, i), mounts))
  }

  lemma TotalChargeSnoc(mounts: seq<MountInfo>, m: MountInfo, paths: seq<string>, i: nat)
    ensures TotalCharge(mounts + [m], paths, i) == TotalCharge(mounts, paths, i) + ChargeOn(m, paths, i)
  {
    var f := ChargeTo(paths, i);
    assert Map(f, mounts + [m]) == Map(f, mounts) + [f(m)];
    SumConcat(Map(f, mounts), [f(m)]);
  }

  /** A disk's size once all entries are charged, before clamping. */
  function ChargedSize(disks: seq<NodeDisk>, mounts: seq<MountInfo>, i: nat): int
    requires i < |disks|
  {
    disks[i].allocable - TotalCharge(mounts, Paths(disks), i)
  }

  function Clamped(disks: seq<NodeDisk>, mounts: seq<MountInfo>): (r: seq<int>)
    ensures |r| == |disks| && NonNegative(r)
    ensures forall i :: 0 <= i < |r| ==> r[i] == Max(ChargedSize(disks, mounts, i), 0)
  {
    seq(|disks|, i requires 0 <= i < |disks| => Max(ChargedSize(disks, mounts, i), 0))
  }

  method ChargeMount(ret: array<DiskInfo>, m: MountInfo, ghost paths: seq<string>)
    requires |paths| == ret.Length && forall i :: 0 <= i < ret.Length ==> ret[i].path == paths[i]
    modifies ret
    ensures forall i :: 0 <= i < ret.Length ==>
              ret[i] == old(ret[i]).(size := old(ret[i].size) - ChargeOn(m, paths, i))
  {
    var i := 0;
    while i < ret.Length
      invariant i <= ret.Length && i <= FirstMatch(m.hostPath, paths)
      invariant forall k :: 0 <= k < i ==>
                  ret[k] == old(ret[k]).(size := old(ret[k].size) - ChargeOn(m, paths, k))
      invariant forall k :: i <= k < ret.Length ==> ret[k] == old(ret[k])
    {
      if ret[i].path <= m.hostPath {
        assert i == FirstMatch(m.hostPath, paths);
        ret[i] := ret[i].(size := ret[i].size - m.quota);
        break;
      } else if m.hostPath == "" {
        ret[i] := ret[i].(size := ret[i].size - m.quota);
      }
      i := i + 1;
    }
  }

  method ChargeAll(ret: array<DiskInfo>, mounts: seq<MountInfo>, ghost disks: seq<NodeDisk>)
    requires |disks| == ret.Length
    requires forall i :: 0 <= i < ret.Length ==>
               ret[i] == DiskInfo(disks[i].mountPath, disks[i].allocable, disks[i].disabled)
    modifies ret
    ensures forall i :: 0 <= i < ret.Length ==>
              ret[i] == DiskInfo(disks[i].mountPath, ChargedSize(disks, mounts, i), disks[i].disabled)
  {
    ghost var paths := Paths(disks);
    for n := 0 to |mounts|
      invariant forall i :: 0 <= i < ret.Length ==>
                  ret[i] == DiskInfo(disks[i].mountPath,
                                     ChargedSize(disks, mounts[..n], i), disks[i].disabled)
    {
      ChargeMount(ret, mounts[n], paths);
      assert mounts[..n + 1] == mounts[..n] + [mounts[n]];
      forall i | 0 <= i < ret.Length
        ensures ChargedSize(disks, mounts[..n + 1], i)
             == ChargedSize(disks, mounts[..n], i) - ChargeOn(mounts[n], paths, i)
      {
        TotalChargeSnoc(mounts[..n], mounts[n], paths, i);
      }
    }
    assert mounts[..|mounts|] == mounts;
  }

  method ClampAll(ret: array<DiskInfo>) returns (total: int)
    modifies ret
    ensures forall i :: 0 <= i < ret.Length ==>
              ret[i] == old(ret[i]).(size := Max(old(ret[i].size), 0))
    ensures total == Sum(Sizes(ret[..]))
  {
    total := 0;
    for i := 0 to ret.Length
      invariant forall k :: 0 <= k < i ==> ret[k] == old(ret[k]).(size := Max(old(ret[k].size), 0))
      invariant forall k :: i <= k < ret.Length ==> ret[k] == old(ret[k])
      invariant total == Sum(Sizes(ret[..i]))
    {
      if ret[i].size < 0 {
        ret[i] := ret[i].(size := 0);
      }
      total := total + ret[i].size;
      assert Sizes(ret[..i + 1]) == Sizes(ret[..i]) + [ret[i].size];
      SumConcat(Sizes(ret[..i]), [ret[i].size]);
    }
    assert ret[..ret.Length] == ret[..];
  }

  /** The node's disks, charged, clamped and sorted; an empty list when the node declares none. */
  method GetNodeDiskInfos(clean: string -> string, node: string, annotation: DiskAnnotation,
                          pvs: seq<PV>, pods: seq<Pod>)
    returns (failed: bool, total: int, infos: array<DiskInfo>)
    ensures fresh(infos)
    ensures failed <==> (annotation.UnreadableDisks?
                         || (annotation.Disks? && annotation.disks != []
                             && NodeMountList(clean, pvs, pods, node, {}).Err?))
    ensures !failed && (annotation.NoDisks? || annotation.disks == []) ==> total == 0 && infos.Length == 0
    ensures !failed && annotation.Disks? && annotation.disks != [] ==>
              var have := Clamped(annotation.disks, NodeMountList(clean, pvs, pods, node, {}).value);
              total == Sum(have) && Sizes(infos[..]) == Sort(have) && SortedByLess(infos[..])
  {
    infos := new DiskInfo[0];
    if annotation.UnreadableDisks? {
      return true, 0, infos;
    }
    if annotation.NoDisks? || |annotation.disks| == 0 {
      return false, 0, infos;
    }
    var disks := annotation.disks;
    var mounts := GetNodeHostPathPVMountInfo(clean, node, pvs, pods);
    if mounts.Err? {
      return true, 0, infos;
    }
    failed := false;
    infos := new DiskInfo[|disks|](i requires 0 <= i < |disks| =>
      DiskInfo(disks[i].mountPath, disks[i].allocable, disks[i].disabled));
    ChargeAll(infos, mounts.value, disks);
    total := ClampAll(infos);
    assert Sizes(infos[..]) == Clamped(disks, mounts.value);
    SortDisks(infos);
  }

  // ---------- what the pod asks for ----------

  datatype Charge = Charge(pv: string, size: int)

  function ChargeSize(c: Charge): int { c.size }

  /** A pod volume is no hostpath volume, reuses a directory of the node, or needs a new one. */
  datatype Need = NotHostPathVolume | Reuses | NeedsNew(charge: Charge)

  function VolumeNeed(ns: string, v: Volume, node: string, pvs: seq<PV>,
                      claims: map<ClaimName, Claim>, pods: seq<Pod>): Result<Need>
  {
    match GetPodVolumePV(ns, v, pvs, claims)
    case Err(e) => Err(e)
    case Ok(None) => Ok(NotHostPathVolume)
    case Ok(Some(pv)) =>
      if !IsCommon(pv) then Ok(NotHostPathVolume)
      else match HasEmptyItem(pv, node, pods)
        case Err(e) => Err(e)
        case Ok(reusable) => Ok(if reusable then Reuses else NeedsNew(Charge(pv.name, Capacity(pv))))
  }

  datatype Requests = Requests(hasHostPath: bool, charges: seq<Charge>)

  function AddNeed(n: Need, r: Requests): Requests {
    Requests(r.hasHostPath || n != NotHostPathVolume,
             (if n.NeedsNew? then [n.charge] else []) + r.charges)
  }

  /** The needs of all volumes in order, or the first error. */
  function PodRequests(ns: string, vs: seq<Volume>, node: string, pvs: seq<PV>,
                       claims: map<ClaimName, Claim>, pods: seq<Pod>): Result<Requests>
  {
    if vs == [] then Ok(Requests(false, []))
    else match VolumeNeed(ns, vs[0], node, pvs, claims, pods)
      case Err(e) => Err(e)
      case Ok(n) =>
        match PodRequests(ns, vs[1..], node, pvs, claims, pods)
        case Err(e) => Err(e)
        case Ok(r) => Ok(AddNeed(n, r))
  }

  function SizesOf(charges: seq<Charge>): (r: seq<int>)
    ensures |r| == |charges| && forall i :: 0 <= i < |r| ==> r[i] == charges[i].size
  {
    Map(ChargeSize, charges)
  }

  /** The requests found before volume `i`, put in front of what the rest of the volumes give. */
  function Resume(has: bool, sizes: seq<int>, rest: Result<Requests>): Result<(bool, seq<int>)> {
    match rest
    case Err(e) => Err(e)
    case Ok(r) => Ok((has || r.hasHostPath, sizes + SizesOf(r.charges)))
  }

  method GetPodHostpathOfNodeDiskInfos(pod: Pod, node: string, pvs: seq<PV>,
                                       claims: map<ClaimName, Claim>, pods: seq<Pod>)
    returns (failed: bool, total: int, infos: array<DiskInfo>, hasHostPath: bool)
    ensures fresh(infos)
    ensures failed <==> PodRequests(pod.ns, pod.volumes, node, pvs, claims, pods).Err?
    ensures !failed ==>
              var r := PodRequests(pod.ns, pod.volumes, node, pvs, claims, pods).value;
              && hasHostPath == r.hasHostPath
              && total == Sum(SizesOf(r.charges))
              && Sizes(infos[..]) == Sort(SizesOf(r.charges))
  {
    ghost var whole := PodRequests(pod.ns, pod.volumes, node, pvs, claims, pods);
    infos := new DiskInfo[0];
    var list: seq<DiskInfo> := [];
    total, hasHostPath := 0, false;
    var vs := pod.volumes;
    assert vs[0..] == vs;
    for i := 0 to |vs|
      invariant total == Sum(Sizes(list))
      invariant Resume(hasHostPath, Sizes(list), PodRequests(pod.ns, vs[i..], node, pvs, claims, pods))
             == Resume(false, [], whole)
    {
      ResumeStep(hasHostPath, Sizes(list), pod.ns, vs, i, node, pvs, claims, pods);
      var pv := GetPodVolumePV(pod.ns, vs[i], pvs, claims);
      if pv.Err? {
        return true, 0, infos, hasHostPath;
      }
      if pv.value.None? || !IsCommon(pv.value.value) {
        continue;
      }
      hasHostPath := true;
      var capacity := Capacity(pv.value.value);
      var reusable := HasEmptyItem(pv.value.value, node, pods);
      if reusable.Err? {
        return true, 0, infos, hasHostPath;
      }
      if reusable.value {
        continue;
      }
      assert Sizes(list + [DiskInfo("", capacity, false)]) == Sizes(list) + [capacity];
      SumConcat(Sizes(list), [capacity]);
      list := list + [DiskInfo("", capacity, false)];
      total := total + capacity;
    }
    failed := false;
    ResumeEnds(hasHostPath, Sizes(list), whole);
    assert vs[|vs|..] == [];
    infos := new DiskInfo[|list|](i requires 0 <= i < |list| => list[i]);
    assert infos[..] == list;
    SortDisks(infos);
  }

  lemma ResumeEnds(has: bool, sizes: seq<int>, whole: Result<Requests>)
    requires Resume(has, sizes, Ok(Requests(false, []))) == Resume(false, [], whole)
    ensures whole.Ok? && whole.value.hasHostPath == has && SizesOf(whole.value.charges) == sizes
  {
    assert sizes + SizesOf([]) == sizes;
    assert whole.Ok? && [] + SizesOf(whole.value.charges) == SizesOf(whole.value.charges);
  }

  /** One volume further, by what it needs. */
  lemma ResumeStep(has: bool, sizes: seq<int>, ns: string, vs: seq<Volume>, i: nat, node: string,
                   pvs: seq<PV>, claims: map<ClaimName, Claim>, pods: seq<Pod>)
    requires i < |vs|
    ensures var rest := PodRequests(ns, vs[i + 1..], node, pvs, claims, pods);
            Resume(has, sizes, PodRequests(ns, vs[i..], node, pvs, claims, pods))
            == match VolumeNeed(ns, vs[i], node, pvs, claims, pods)
               case Err(e) => Err(e)
               case Ok(NotHostPathVolume) => Resume(has, sizes, rest)
               case Ok(Reuses) => Resume(true, sizes, rest)
               case Ok(NeedsNew(c)) => Resume(true, sizes + [c.size], rest)
  {
    assert vs[i..][0] == vs[i] && vs[i..][1..] == vs[i + 1..];
    var need := VolumeNeed(ns, vs[i], node, pvs, claims, pods);
    var rest := PodRequests(ns, vs[i + 1..], node, pvs, claims, pods);
    if need.Ok? && rest.Ok? {
      var charges := rest.value.charges;
      if need.value.NeedsNew? {
        var c := need.value.charge;
        assert SizesOf([c] + charges) == [c.size] + SizesOf(charges);
        assert sizes + ([c.size] + SizesOf(charges)) == sizes + [c.size] + SizesOf(charges);
      } else {
        assert [] + charges == charges;
      }
    }
  }

  // ---------- the two-cursor loop ----------

  /** What the cursors `ir` and `ih` have left to decide, and what they have left behind. */
  ghost predicate SameOutcome(req: seq<int>, have: seq<int>, ir: nat, ih: nat, now: seq<int>) {
    && ir <= |req| && ih <= |now|
    && Accepts(req, have) == Accepts(req[ir..], now[ih..])
    && Residual(req, have) == now[..ih] + Residual(req[ir..], now[ih..])
  }

  lemma TakeStep(req: seq<int>, have: seq<int>, ir: nat, ih: nat, now: seq<int>)
    requires SameOutcome(req, have, ir, ih, now) && ir < |req| && ih < |now| && req[ir] <= now[ih]
    ensures SameOutcome(req, have, ir + 1, ih, now[ih := now[ih] - req[ir]])
  {
    var next := now[ih := now[ih] - req[ir]];
    assert next[ih..] == now[ih..][0 := now[ih] - req[ir]] && next[..ih] == now[..ih];
    assert req[ir..][1..] == req[ir + 1..];
  }

  lemma SkipStep(req: seq<int>, have: seq<int>, ir: nat, ih: nat, now: seq<int>)
    requires SameOutcome(req, have, ir, ih, now) && ir < |req| && ih < |now| && now[ih] < req[ir]
    ensures SameOutcome(req, have, ir, ih + 1, now)
  {
    assert now[ih..][1..] == now[ih + 1..];
    assert now[..ih] + ([now[ih]] + Residual(req[ir..], now[ih + 1..]))
        == now[..ih + 1] + Residual(req[ir..], now[ih + 1..]);
  }

  lemma LastStep(req: seq<int>, have: seq<int>, ir: nat, ih: nat, now: seq<int>)
    requires SameOutcome(req, have, ir, ih, now) && (ir == |req| || ih == |now|)
    ensures Accepts(req, have) == (ir == |req|) && Residual(req, have) == now
  {
    assert now[..ih] + now[ih..] == now;
  }

  /** Takes the request sizes from the disks in place; decided by `Packing.Accepts`. */
  method CanRequestMatch(request: seq<DiskInfo>, haveNow: array<DiskInfo>) returns (ok: bool)
    modifies haveNow
    ensures ok == Accepts(Sizes(request), Sizes(old(haveNow[..])))
    ensures Sizes(haveNow[..]) == Residual(Sizes(request), Sizes(old(haveNow[..])))
    ensures forall i :: 0 <= i < haveNow.Length ==>
              haveNow[i] == old(haveNow[i]).(size := haveNow[i].size)
    ensures var req, have := Sizes(request), Sizes(old(haveNow[..]));
            var a := Placed(req, have);
            forall i :: 0 <= i < haveNow.Length ==> haveNow[i].size == have[i] - Load(req[..|a|], a, i)
  {
    var ir, ih := 0, 0;
    ghost var req, have := Sizes(request), Sizes(haveNow[..]);
    assert SameOutcome(req, have, 0, 0, have) by {
      assert req[0..] == req && have[0..] == have && [] + Residual(req, have) == Residual(req, have);
    }
    while true
      invariant 0 <= ir <= |request| && 0 <= ih <= haveNow.Length
      invariant SameOutcome(req, have, ir, ih, Sizes(haveNow[..]))
      invariant forall i :: 0 <= i < haveNow.Length ==>
                  haveNow[i] == old(haveNow[i]).(size := haveNow[i].size)
      decreases |request| - ir + haveNow.Length - ih
    {
      if ir >= |request| || ih >= haveNow.Length {
        break;
      }
      ghost var now := Sizes(haveNow[..]);
      if request[ir].size <= haveNow[ih].size {
        TakeStep(req, have, ir, ih, now);
        haveNow[ih] := haveNow[ih].(size := haveNow[ih].size - request[ir].size);
        assert Sizes(haveNow[..]) == now[ih := now[ih] - req[ir]];
        ir := ir + 1;
        continue;
      } else {
        SkipStep(req, have, ir, ih, now);
        ih := ih + 1;
        continue;
      }
    }
    LastStep(req, have, ir, ih, Sizes(haveNow[..]));
    forall i | 0 <= i < haveNow.Length
      ensures haveNow[i].size == have[i] - Load(req[..|Placed(req, have)|], Placed(req, have), i)
    {
      ResidualIsHaveMinusLoad(req, have, i);
      assert Sizes(haveNow[..])[i] == haveNow[i].size;
    }
    if ir >= |request| && ih >= haveNow.Length {
      return true;
    } else if ir >= |request| {
      return true;
    }
    return false;
  }

  // ---------- the predicate ----------

  /** A node with its declared disks, the world the predicate reads, and a pod. */
  datatype World = World(clean: string -> string, pvs: seq<PV>, claims: map<ClaimName, Claim>,
                         pods: seq<Pod>)

  function RequestsOf(w: World, pod: Pod, node: string): Result<Requests> {
    PodRequests(pod.ns, pod.volumes, node, w.pvs, w.claims, w.pods)
  }

  function MountsOf(w: World, node: string): Result<seq<MountInfo>> {
    NodeMountList(w.clean, w.pvs, w.pods, node, {})
  }

  /** Whether sizes `req` go on the disks once `mounts` are charged, by the greedy alone. */
  predicate PacksOn(req: seq<int>, disks: seq<NodeDisk>, mounts: seq<MountInfo>) {
    Accepts(Sort(req), Sort(Clamped(disks, mounts)))
  }

  /** The answer of the predicate, with its early test on totals. */
  function PressureVerdict(w: World, pod: Pod, node: string, annotation: DiskAnnotation): Verdict {
    match RequestsOf(w, pod, node)
    case Err(_) => Failure
    case Ok(r) =>
      var req := SizesOf(r.charges);
      if !r.hasHostPath || Sum(req) == 0 || req == [] then Match
      else if annotation.UnreadableDisks? then Failure
      else if annotation.NoDisks? || annotation.disks == [] then
        (if Sum(req) > 0 then NotMatch else Failure)
      else match MountsOf(w, node)
        case Err(_) => Failure
        case Ok(mounts) =>
          var total := Sum(Clamped(annotation.disks, mounts));
          if Sum(req) > total then (if total <= 0 then NotMatch else Failure)
          else if PacksOn(req, annotation.disks, mounts) then Match
          else Failure
  }

  /** Acceptance without the early test: every new directory has room, or none takes any. */
  predicate PressureAccepts(w: World, pod: Pod, node: string, annotation: DiskAnnotation) {
    match RequestsOf(w, pod, node)
    case Err(_) => false
    case Ok(r) =>
      var req := SizesOf(r.charges);
      || Sum(req) == 0
      || (annotation.Disks? && MountsOf(w, node).Ok?
          && PacksOn(req, annotation.disks, MountsOf(w, node).value))
  }

  method PodMatchNode(w: World, pod: Pod, node: string, annotation: DiskAnnotation)
    returns (v: Verdict)
    ensures v == PressureVerdict(w, pod, node, annotation)
  {
    var errPod, requestSize, requestList, hasHostPath :=
      GetPodHostpathOfNodeDiskInfos(pod, node, w.pvs, w.claims, w.pods);
    if errPod {
      return Failure;
    }
    if !hasHostPath {
      return Match;
    }
    if requestSize == 0 || requestList.Length == 0 {
      assert |Sizes(requestList[..])| == requestList.Length;
      return Match;
    }
    var errNode, allocable, diskInfo := GetNodeDiskInfos(w.clean, node, annotation, w.pvs, w.pods);
    if errNode {
      return Failure;
    }
    if requestSize > allocable {
      if allocable <= 0 {
        return NotMatch;
      }
      return Failure;
    }
    ghost var req := Sizes(requestList[..]);
    var ok := CanRequestMatch(requestList[..], diskInfo);
    if !ok {
      return Failure;
    }
    return Match;
  }

  lemma {:induction false} NoHostPathNoCharges(ns: string, vs: seq<Volume>, node: string,
                                               pvs: seq<PV>, claims: map<ClaimName, Claim>,
                                               pods: seq<Pod>)
    ensures var r := PodRequests(ns, vs, node, pvs, claims, pods);
            r.Ok? && !r.value.hasHostPath ==> r.value.charges == []
  {
    if vs != [] {
      NoHostPathNoCharges(ns, vs[1..], node, pvs, claims, pods);
    }
  }

  predicate NonNegativeCapacities(pvs: seq<PV>) {
    forall i :: 0 <= i < |pvs| ==> 0 <= Capacity(pvs[i])
  }

  lemma {:induction false} FindPVMember(pvs: seq<PV>, name: string)
    ensures var f := FindPV(pvs, name);
            f.Some? ==> f.value in pvs && f.value.name == name
  {
    if pvs != [] {
      FindPVMember(pvs[1..], name);
    }
  }

  lemma {:induction false} RequestsNonNegative(ns: string, vs: seq<Volume>, node: string,
                                               pvs: seq<PV>, claims: map<ClaimName, Claim>,
                                               pods: seq<Pod>)
    requires NonNegativeCapacities(pvs)
    ensures var r := PodRequests(ns, vs, node, pvs, claims, pods);
            r.Ok? ==> NonNegative(SizesOf(r.value.charges))
  {
    if vs != [] {
      RequestsNonNegative(ns, vs[1..], node, pvs, claims, pods);
      if vs[0].ClaimVolume? && ClaimName(ns, vs[0].claim) in claims {
        FindPVMember(pvs, claims[ClaimName(ns, vs[0].claim)].volume);
      }
    }
  }

  /** The early test on totals never changes the decision. */
  lemma EarlyTotalTestIsRedundant(w: World, pod: Pod, node: string, annotation: DiskAnnotation)
    requires NonNegativeCapacities(w.pvs)
    ensures PressureVerdict(w, pod, node, annotation) == Match
       <==> PressureAccepts(w, pod, node, annotation)
  {
    var r := RequestsOf(w, pod, node);
    if r.Ok? {
      NoHostPathNoCharges(pod.ns, pod.volumes, node, w.pvs, w.claims, w.pods);
      RequestsNonNegative(pod.ns, pod.volumes, node, w.pvs, w.claims, w.pods);
      var req := SizesOf(r.value.charges);
      SortSorts(req);
      if annotation.Disks? && MountsOf(w, node).Ok? && PacksOn(req, annotation.disks, MountsOf(w, node).value) {
        var have := Clamped(annotation.disks, MountsOf(w, node).value);
        SortSorts(have);
        SumPermutation(Sort(req), req);
        SumPermutation(Sort(have), have);
        SubNonNegative(req, Sort(req));
        SubNonNegative(have, Sort(have));
        AcceptedTotal(Sort(req), Sort(have));
        SumNonNegative(req);
      }
    }
  }

}
