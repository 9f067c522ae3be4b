/**
 Whether a node's charged disk sizes, and with them the disk pressure decision, depend on the order
 in which it lists its disks. Directories go to the first listed disk whose path is a prefix of
 theirs, so the order can only matter where one path is a prefix of another; exactly when it does is
 decided here.
 */
module DiskOrder {
  import opened Sequences
  import opened HostPathPV
  import opened DiskPressure
  import opened PressureProperties
  import opened Packing
  import opened Accounting
  import opened AnyWorld

  // ---------- disks charged one by one ----------

  predicate PrefixFree(paths: seq<string>) {
    forall i, j :: 0 <= i < |paths| && 0 <= j < |paths| && i != j ==> !(paths[i] <= paths[j])
  }

  lemma PrefixesCompare(s: string, t: string, u: string)
    requires s <= u && t <= u
    ensures s <= t || t <= s
  {
    assert s == u[..|s|] && t == u[..|t|];
    assert if |s| <= |t| then s == t[..|s|] else t == s[..|t|];
  }

  /** A charge that looks at one disk only. */
  function OwnCharge(d: NodeDisk): MountInfo -> int {
    (m: MountInfo) => if m.hostPath == "" || d.mountPath <= m.hostPath then m.quota else 0
  }

  function OwnSize(d: NodeDisk, mounts: seq<MountInfo>): int {
    d.allocable - Sum(Map(OwnCharge(d), mounts))
  }

  /** Whatever is charged, each disk can be charged without looking at the others, exactly when no
      disk path is a prefix of another. */
  lemma ChargedAloneIff(disks: seq<NodeDisk>)
    ensures (forall mounts, i :: 0 <= i < |disks| ==>
               ChargedSize(disks, mounts, i) == OwnSize(disks[i], mounts))
       <==> PrefixFree(Paths(disks))
  {
    var paths := Paths(disks);
    if PrefixFree(paths) {
      forall mounts, i | 0 <= i < |disks|
        ensures ChargedSize(disks, mounts, i) == OwnSize(disks[i], mounts)
      {
        PrefixFreeAlone(disks, mounts, i);
      }
    } else {
      var i, j :| 0 <= i < |paths| && 0 <= j < |paths| && i != j && paths[i] <= paths[j];
      var later, m := if i < j then j else i, MountInfo(paths[j], 1);
      assert FirstMatch(paths[j], paths) < later;
      assert Map(ChargeTo(paths, later), [m]) == [0] && Map(OwnCharge(disks[later]), [m]) == [1];
      SumOne(0);
      SumOne(1);
      assert ChargedSize(disks, [m], later) == disks[later].allocable;
      assert OwnSize(disks[later], [m]) == disks[later].allocable - 1;
    }
  }

  lemma PrefixFreeAlone(disks: seq<NodeDisk>, mounts: seq<MountInfo>, i: nat)
    requires PrefixFree(Paths(disks)) && i < |disks|
    ensures ChargedSize(disks, mounts, i) == OwnSize(disks[i], mounts)
  {
    var paths := Paths(disks);
    forall k | 0 <= k < |mounts| ensures ChargeOn(mounts[k], paths, i) == OwnCharge(disks[i])(mounts[k]) {
      var dir := mounts[k].hostPath;
      var d := FirstMatch(dir, paths);
      if d < |paths| && d != i {
        assert !(paths[d] <= paths[i]) && !(paths[i] <= paths[d]);
        if paths[i] <= dir {
          PrefixesCompare(paths[i], paths[d], dir);
          assert false;
        }
      }
    }
    assert Map(ChargeTo(paths, i), mounts) == Map(OwnCharge(disks[i]), mounts);
  }

  // ---------- the first disk, then the others ----------

  function OwnRoom(d: NodeDisk, mounts: seq<MountInfo>): int {
    Max(OwnSize(d, mounts), 0)
  }

  function NotOn(path: string): MountInfo -> bool {
    (m: MountInfo) => !(path <= m.hostPath)
  }

  /** The entries that get past a disk: those its path does not match. */
  function Past(d: NodeDisk, mounts: seq<MountInfo>): seq<MountInfo> {
    Filter(NotOn(d.mountPath), mounts)
  }

  lemma {:induction false} ChargePast(mounts: seq<MountInfo>, p: string, paths: seq<string>, i: nat)
    ensures TotalCharge(mounts, [p] + paths, i + 1) == TotalCharge(Filter(NotOn(p), mounts), paths, i)
  {
    if mounts != [] {
      var m, rest := mounts[0], Filter(NotOn(p), mounts[1..]);
      ChargePast(mounts[1..], p, paths, i);
      assert ([p] + paths)[1..] == paths && mounts == [m] + mounts[1..];
      SumMapCons(ChargeTo([p] + paths, i + 1), m, mounts[1..]);
      SumMapCons(ChargeTo(paths, i), m, rest);
      FilterCons(NotOn(p), m, mounts[1..]);
      assert [] + rest == rest;
    }
  }

  lemma FirstRoom(disks: seq<NodeDisk>, mounts: seq<MountInfo>)
    requires disks != []
    ensures Clamped(disks, mounts)[0] == OwnRoom(disks[0], mounts)
  {
    assert Map(ChargeTo(Paths(disks), 0), mounts) == Map(OwnCharge(disks[0]), mounts);
  }

  lemma LaterRoom(disks: seq<NodeDisk>, mounts: seq<MountInfo>, i: nat)
    requires 0 < i < |disks|
    ensures Clamped(disks, mounts)[i] == Clamped(disks[1..], Past(disks[0], mounts))[i - 1]
  {
    assert Paths(disks) == [disks[0].mountPath] + Paths(disks[1..]);
    ChargePast(mounts, disks[0].mountPath, Paths(disks[1..]), i - 1);
  }

  lemma ClampedCons(disks: seq<NodeDisk>, mounts: seq<MountInfo>)
    requires disks != []
    ensures Clamped(disks, mounts) == [OwnRoom(disks[0], mounts)] + Clamped(disks[1..], Past(disks[0], mounts))
  {
    FirstRoom(disks, mounts);
    forall i | 1 <= i < |disks|
      ensures Clamped(disks, mounts)[i] == Clamped(disks[1..], Past(disks[0], mounts))[i - 1]
    {
      LaterRoom(disks, mounts, i);
    }
  }

  lemma {:induction false} PastCommutes(p: string, q: string, mounts: seq<MountInfo>)
    ensures Filter(NotOn(p), Filter(NotOn(q), mounts)) == Filter(NotOn(q), Filter(NotOn(p), mounts))
  {
    if mounts != [] {
      var m := mounts[0];
      PastCommutes(p, q, mounts[1..]);
      var ps, qs := Filter(NotOn(p), mounts[1..]), Filter(NotOn(q), mounts[1..]);
      assert mounts == [m] + mounts[1..] && [] + ps == ps && [] + qs == qs;
      FilterCons(NotOn(p), m, mounts[1..]);
      FilterCons(NotOn(q), m, mounts[1..]);
      FilterCons(NotOn(p), m, qs);
      FilterCons(NotOn(q), m, ps);
      assert [] + Filter(NotOn(p), qs) == Filter(NotOn(p), qs);
    }
  }

  lemma PastNonNegative(d: NodeDisk, mounts: seq<MountInfo>)
    requires NonNegativeQuotas(mounts)
    ensures NonNegativeQuotas(Past(d, mounts))
  {
    FilterMembers(NotOn(d.mountPath), mounts);
    forall i | 0 <= i < |Past(d, mounts)| ensures 0 <= Past(d, mounts)[i].quota {
      assert Past(d, mounts)[i] in mounts;
    }
  }

  // ---------- when two disks can change places ----------

  predicate Unrelated(d: NodeDisk, e: NodeDisk) {
    !(d.mountPath <= e.mountPath) && !(e.mountPath <= d.mountPath)
  }

  function Room(d: NodeDisk): int { Max(d.allocable, 0) }

  /** Different paths of which one is a prefix of the other need two disks without room; one path
      listed twice needs the same room. */
  predicate Swappable(d: NodeDisk, e: NodeDisk) {
    Unrelated(d, e) || (Room(d) == Room(e) && (d.mountPath == e.mountPath || Room(d) == 0))
  }

  predicate Interchangeable(disks: seq<NodeDisk>) {
    forall i, j :: 0 <= i < |disks| && 0 <= j < |disks| && i != j ==> Swappable(disks[i], disks[j])
  }

  predicate PairSafe(d: NodeDisk, e: NodeDisk, mounts: seq<MountInfo>) {
    Unrelated(d, e) || (Swappable(d, e) && NonNegativeQuotas(mounts))
  }

  predicate OrderSafe(disks: seq<NodeDisk>, mounts: seq<MountInfo>) {
    forall i, j :: 0 <= i < |disks| && 0 <= j < |disks| && i != j ==> PairSafe(disks[i], disks[j], mounts)
  }

  lemma {:induction false} UnrelatedPast(d: NodeDisk, e: NodeDisk, mounts: seq<MountInfo>)
    requires Unrelated(d, e)
    ensures OwnSize(e, Past(d, mounts)) == OwnSize(e, mounts)
  {
    if mounts != [] {
      var m, rest, f := mounts[0], Past(d, mounts[1..]), OwnCharge(e);
      UnrelatedPast(d, e, mounts[1..]);
      assert mounts == [m] + mounts[1..] && [] + rest == rest;
      SumMapCons(f, m, mounts[1..]);
      SumMapCons(f, m, rest);
      FilterCons(NotOn(d.mountPath), m, mounts[1..]);
      if d.mountPath <= m.hostPath && e.mountPath <= m.hostPath {
        PrefixesCompare(d.mountPath, e.mountPath, m.hostPath);
        assert false;
      }
    }
  }

  lemma NoRoomLeft(d: NodeDisk, mounts: seq<MountInfo>)
    requires Room(d) == 0 && NonNegativeQuotas(mounts)
    ensures OwnRoom(d, mounts) == 0
  {
    SumNonNegative(Map(OwnCharge(d), mounts));
  }

  lemma SwapTwo(d: NodeDisk, e: NodeDisk, mounts: seq<MountInfo>)
    requires PairSafe(d, e, mounts)
    ensures multiset{OwnRoom(d, mounts), OwnRoom(e, Past(d, mounts))}
         == multiset{OwnRoom(e, mounts), OwnRoom(d, Past(e, mounts))}
  {
    if Unrelated(d, e) {
      UnrelatedPast(d, e, mounts);
      UnrelatedPast(e, d, mounts);
    } else if Room(d) == 0 {
      PastNonNegative(d, mounts);
      PastNonNegative(e, mounts);
      NoRoomLeft(d, mounts);
      NoRoomLeft(e, mounts);
      NoRoomLeft(d, Past(e, mounts));
      NoRoomLeft(e, Past(d, mounts));
    } else {
      assert Map(OwnCharge(d), mounts) == Map(OwnCharge(e), mounts);
      assert Map(OwnCharge(d), Past(e, mounts)) == Map(OwnCharge(e), Past(d, mounts));
    }
  }

  lemma TwoHeads(d: NodeDisk, e: NodeDisk, rest: seq<NodeDisk>, mounts: seq<MountInfo>)
    ensures multiset(Clamped([d, e] + rest, mounts))
         == multiset{OwnRoom(d, mounts), OwnRoom(e, Past(d, mounts))}
          + multiset(Clamped(rest, Past(e, Past(d, mounts))))
  {
    var disks := [d, e] + rest;
    assert disks[1..] == [e] + rest && ([e] + rest)[1..] == rest;
    ClampedCons(disks, mounts);
    ClampedCons([e] + rest, Past(d, mounts));
  }

  lemma SwapHeads(d: NodeDisk, e: NodeDisk, rest: seq<NodeDisk>, mounts: seq<MountInfo>)
    requires PairSafe(d, e, mounts)
    ensures multiset(Clamped([d, e] + rest, mounts)) == multiset(Clamped([e, d] + rest, mounts))
  {
    TwoHeads(d, e, rest, mounts);
    TwoHeads(e, d, rest, mounts);
    PastCommutes(d.mountPath, e.mountPath, mounts);
    SwapTwo(d, e, mounts);
  }

  // ---------- any order ----------

  lemma OrderSafeTail(disks: seq<NodeDisk>, mounts: seq<MountInfo>)
    requires disks != [] && OrderSafe(disks, mounts)
    ensures OrderSafe(disks[1..], Past(disks[0], mounts))
  {
    if NonNegativeQuotas(mounts) {
      PastNonNegative(disks[0], mounts);
    }
    var tail := disks[1..];
    forall i, j | 0 <= i < |tail| && 0 <= j < |tail| && i != j
      ensures PairSafe(tail[i], tail[j], Past(disks[0], mounts))
    {
      assert PairSafe(disks[i + 1], disks[j + 1], mounts);
    }
  }

  lemma OrderSafePermuted(disks: seq<NodeDisk>, disks': seq<NodeDisk>, mounts: seq<MountInfo>)
    requires OrderSafe(disks, mounts) && multiset(disks') == multiset(disks)
    ensures OrderSafe(disks', mounts)
  {
    var p := Renumbering(disks', disks);
    forall i, j | 0 <= i < |disks'| && 0 <= j < |disks'| && i != j
      ensures PairSafe(disks'[i], disks'[j], mounts)
    {
      assert p[i] != p[j];
      assert PairSafe(disks[p[i]], disks[p[j]], mounts);
    }
  }

  lemma FrontParts<T>(s: seq<T>, k: nat)
    requires 0 < k < |s|
    ensures s == [s[0]] + s[1..] && s[1..][k - 1] == s[k]
    ensures var rest := RemoveAt(s[1..], k - 1);
            [s[0]] + ([s[k]] + rest) == [s[0], s[k]] + rest
            && [s[k], s[0]] + rest == [s[k]] + RemoveAt(s, k)
  {
    var rest := RemoveAt(s[1..], k - 1);
    assert rest == s[1..k] + s[k + 1..];
    assert RemoveAt(s, k) == [s[0]] + rest;
  }

  lemma {:induction false} MoveToFront(disks: seq<NodeDisk>, k: nat, mounts: seq<MountInfo>)
    requires OrderSafe(disks, mounts) && k < |disks|
    ensures multiset(Clamped(disks, mounts)) == multiset(Clamped([disks[k]] + RemoveAt(disks, k), mounts))
  {
    if k == 0 {
      assert [disks[0]] + RemoveAt(disks, 0) == disks;
    } else {
      var d, e, tail := disks[0], disks[k], disks[1..];
      var rest := RemoveAt(tail, k - 1);
      FrontParts(disks, k);
      OrderSafeTail(disks, mounts);
      MoveToFront(tail, k - 1, Past(d, mounts));
      SameHeads(d, tail, [e] + rest, mounts);
      assert PairSafe(disks[0], disks[k], mounts);
      SwapHeads(d, e, rest, mounts);
    }
  }

  /** Equal sizes behind the same first disk. */
  lemma SameHeads(d: NodeDisk, tail: seq<NodeDisk>, tail': seq<NodeDisk>, mounts: seq<MountInfo>)
    requires multiset(Clamped(tail, Past(d, mounts))) == multiset(Clamped(tail', Past(d, mounts)))
    ensures multiset(Clamped([d] + tail, mounts)) == multiset(Clamped([d] + tail', mounts))
  {
    assert ([d] + tail)[1..] == tail && ([d] + tail')[1..] == tail';
    ClampedCons([d] + tail, mounts);
    ClampedCons([d] + tail', mounts);
  }

  lemma {:induction false} SizesInAnyOrder(disks: seq<NodeDisk>, disks': seq<NodeDisk>, mounts: seq<MountInfo>)
    requires OrderSafe(disks, mounts) && multiset(disks) == multiset(disks')
    ensures multiset(Clamped(disks, mounts)) == multiset(Clamped(disks', mounts))
    decreases |disks|
  {
    SameLength(disks, disks');
    if disks == [] {
      assert disks' == [];
    } else {
      var k := HeadInside(disks, disks');
      var rest := RemoveAt(disks', k);
      OrderSafePermuted(disks, disks', mounts);
      MoveToFront(disks', k, mounts);
      OrderSafeTail(disks, mounts);
      SizesInAnyOrder(disks[1..], rest, Past(disks[0], mounts));
      SameHeads(disks[0], disks[1..], rest, mounts);
      assert disks == [disks[0]] + disks[1..];
    }
  }

  // ---------- and otherwise the order matters ----------

  /** Entries that give two disks different sizes when they change places at the head of a list. */
  function Telling(d: NodeDisk, e: NodeDisk): (mounts: seq<MountInfo>)
    ensures NonNegativeQuotas(mounts)
  {
    if Room(d) != Room(e) then [MountInfo(e.mountPath, Room(d) + Room(e))]
    else [MountInfo(d.mountPath, Room(d)), MountInfo(e.mountPath, Room(d))]
  }

  lemma TellingOne(d: NodeDisk, e: NodeDisk, x: int)
    requires d.mountPath <= e.mountPath && x == Room(d) + Room(e)
    ensures var ms := [MountInfo(e.mountPath, x)];
            OwnRoom(d, ms) == 0 && OwnRoom(e, ms) == 0
            && OwnRoom(e, Past(d, ms)) == Room(e) && OwnRoom(d, Past(e, ms)) == Room(d)
  {
    var m := MountInfo(e.mountPath, x);
    var ms := [m];
    FilterOne(NotOn(d.mountPath), m);
    FilterOne(NotOn(e.mountPath), m);
    assert Past(d, ms) == [] && Past(e, ms) == [];
    assert Map(OwnCharge(d), ms) == [x] && Map(OwnCharge(e), ms) == [x];
    SumOne(x);
    assert Map(OwnCharge(d), []) == [] && Map(OwnCharge(e), []) == [];
  }

  lemma TellingPair(d: NodeDisk, e: NodeDisk, x: int)
    requires d.mountPath < e.mountPath && x == Room(d) == Room(e) && x > 0
    ensures var ms := [MountInfo(d.mountPath, x), MountInfo(e.mountPath, x)];
            OwnRoom(d, ms) == 0 && OwnRoom(e, Past(d, ms)) == x
            && OwnRoom(e, ms) == 0 && OwnRoom(d, Past(e, ms)) == 0
  {
    var m, n := MountInfo(d.mountPath, x), MountInfo(e.mountPath, x);
    var ms := [m, n];
    FilterPair(NotOn(d.mountPath), m, n);
    FilterPair(NotOn(e.mountPath), m, n);
    assert !(e.mountPath <= d.mountPath);
    assert Past(d, ms) == [] && Past(e, ms) == [m];
    assert Map(OwnCharge(d), ms) == [x, x] && Map(OwnCharge(d), [m]) == [x];
    assert Sum([x]) == x && [x, x][1..] == [x] && Sum([x, x]) == 2 * x;
    assert Map(OwnCharge(e), ms) == [if d.mountPath == "" then x else 0, x];
    assert Map(OwnCharge(e), ms)[1..] == [x] && Sum(Map(OwnCharge(e), ms)) >= x;
  }

  lemma TellingRooms(d: NodeDisk, e: NodeDisk)
    requires d.mountPath <= e.mountPath && !Swappable(d, e)
    ensures var ms := Telling(d, e);
            && OwnRoom(d, ms) == OwnRoom(e, ms) == 0
            && OwnRoom(e, Past(d, ms)) != OwnRoom(d, Past(e, ms))
  {
    if Room(d) != Room(e) {
      TellingOne(d, e, Room(d) + Room(e));
    } else {
      TellingPair(d, e, Room(d));
    }
  }

  lemma SumOfTwoHeads(d: NodeDisk, e: NodeDisk, rest: seq<NodeDisk>, mounts: seq<MountInfo>)
    ensures Sum(Clamped([d, e] + rest, mounts))
         == OwnRoom(d, mounts) + OwnRoom(e, Past(d, mounts)) + Sum(Clamped(rest, Past(e, Past(d, mounts))))
  {
    var disks := [d, e] + rest;
    assert disks[1..] == [e] + rest && ([e] + rest)[1..] == rest;
    ClampedCons(disks, mounts);
    ClampedCons([e] + rest, Past(d, mounts));
  }

  lemma OrderMatters(d: NodeDisk, e: NodeDisk, rest: seq<NodeDisk>)
    requires d.mountPath <= e.mountPath && !Swappable(d, e)
    ensures Sum(Clamped([d, e] + rest, Telling(d, e))) != Sum(Clamped([e, d] + rest, Telling(d, e)))
  {
    var ms := Telling(d, e);
    TellingRooms(d, e);
    SumOfTwoHeads(d, e, rest, ms);
    SumOfTwoHeads(e, d, rest, ms);
    PastCommutes(d.mountPath, e.mountPath, ms);
  }

  lemma TwoInFront(disks: seq<NodeDisk>, i: nat, j: nat) returns (rest: seq<NodeDisk>)
    requires i < |disks| && j < |disks| && i != j
    ensures multiset([disks[i], disks[j]] + rest) == multiset(disks)
    ensures multiset([disks[j], disks[i]] + rest) == multiset(disks)
  {
    var without := RemoveAt(disks, i);
    var k := if j < i then j else j - 1;
    rest := RemoveAt(without, k);
    RemoveAtMultiset(disks, i);
    RemoveAtMultiset(without, k);
    assert without[k] == disks[j];
  }

  lemma SortedSizesInAnyOrder(disks: seq<NodeDisk>, disks': seq<NodeDisk>, mounts: seq<MountInfo>)
    requires OrderSafe(disks, mounts) && multiset(disks) == multiset(disks')
    ensures Sort(Clamped(disks', mounts)) == Sort(Clamped(disks, mounts))
  {
    SizesInAnyOrder(disks, disks', mounts);
    SortSorts(Clamped(disks', mounts));
    SortUnique(Clamped(disks, mounts), Sort(Clamped(disks', mounts)));
  }

  lemma SomePair(disks: seq<NodeDisk>) returns (d: NodeDisk, e: NodeDisk, rest: seq<NodeDisk>)
    requires !Interchangeable(disks)
    ensures d.mountPath <= e.mountPath && !Swappable(d, e)
    ensures multiset([d, e] + rest) == multiset(disks) == multiset([e, d] + rest)
  {
    var i: nat, j: nat :| i < |disks| && j < |disks| && i != j && !Swappable(disks[i], disks[j]);
    rest := TwoInFront(disks, i, j);
    if disks[i].mountPath <= disks[j].mountPath {
      d, e := disks[i], disks[j];
    } else {
      d, e := disks[j], disks[i];
    }
  }

  lemma TellingDistinct(d: NodeDisk, e: NodeDisk)
    requires !Swappable(d, e)
    ensures DistinctPaths(Same, Telling(d, e))
  {
  }

  lemma SomeOrderMatters(disks: seq<NodeDisk>) returns (one: seq<NodeDisk>, two: seq<NodeDisk>,
                                                        mounts: seq<MountInfo>)
    requires !Interchangeable(disks)
    ensures multiset(one) == multiset(disks) == multiset(two)
    ensures NonNegativeQuotas(mounts) && DistinctPaths(Same, mounts)
    ensures Sum(Clamped(one, mounts)) < Sum(Clamped(two, mounts))
  {
    var d, e, rest := SomePair(disks);
    one, two, mounts := [d, e] + rest, [e, d] + rest, Telling(d, e);
    TellingDistinct(d, e);
    OrderMatters(d, e, rest);
    if Sum(Clamped(two, mounts)) < Sum(Clamped(one, mounts)) {
      one, two := two, one;
    }
  }

  /** For all charged directories and all orders of a node's disks the sorted sizes are the same,
      exactly when any two disks have unrelated paths, or the same path and room, or no room. */
  lemma DiskOrderIrrelevantIff(disks: seq<NodeDisk>)
    ensures (forall disks', mounts :: multiset(disks') == multiset(disks) && NonNegativeQuotas(mounts) ==>
               Sort(Clamped(disks', mounts)) == Sort(Clamped(disks, mounts)))
       <==> Interchangeable(disks)
  {
    if Interchangeable(disks) {
      forall disks', mounts | multiset(disks') == multiset(disks) && NonNegativeQuotas(mounts)
        ensures Sort(Clamped(disks', mounts)) == Sort(Clamped(disks, mounts))
      {
        SortedSizesInAnyOrder(disks, disks', mounts);
      }
    } else {
      var one, two, mounts := SomeOrderMatters(disks);
      SortSorts(Clamped(one, mounts));
      SortSorts(Clamped(two, mounts));
      if Sort(Clamped(one, mounts)) == Sort(Clamped(two, mounts)) {
        SumPermutation(Clamped(one, mounts), Clamped(two, mounts));
      }
    }
  }

  /** The whole predicate: its answer does not depend on the order of the disks when they are
      interchangeable, and without any condition on quotas when no path is a prefix of another. */
  lemma VerdictIgnoresDiskOrder(w: World, pod: Pod, node: string, disks: seq<NodeDisk>, disks': seq<NodeDisk>)
    requires multiset(disks') == multiset(disks)
    requires PrefixFree(Paths(disks))
             || (Interchangeable(disks)
                 && (MountsOf(w, node).Ok? ==> NonNegativeQuotas(MountsOf(w, node).value)))
    ensures PressureVerdict(w, pod, node, Disks(disks')) == PressureVerdict(w, pod, node, Disks(disks))
  {
    SameLength(disks, disks');
    if MountsOf(w, node).Ok? {
      var mounts := MountsOf(w, node).value;
      var have, have' := Clamped(disks, mounts), Clamped(disks', mounts);
      assert OrderSafe(disks, mounts) by {
        assert forall i :: 0 <= i < |disks| ==> Paths(disks)[i] == disks[i].mountPath;
      }
      SizesInAnyOrder(disks, disks', mounts);
      SumPermutation(have, have');
      SortedSizesInAnyOrder(disks, disks', mounts);
    }
  }

  /** Directories of just the sizes the disks have fit those disks, and no disks with less in total. */
  lemma SizesDecide(w: World, pod: Pod, node: string, one: seq<NodeDisk>, two: seq<NodeDisk>,
                    mounts: seq<MountInfo>)
    requires NonNegativeCapacities(w.pvs) && RequestsOf(w, pod, node).Ok? && MountsOf(w, node) == Ok(mounts)
    requires SizesOf(RequestsOf(w, pod, node).value.charges) == Clamped(two, mounts)
    requires Sum(Clamped(one, mounts)) < Sum(Clamped(two, mounts))
    ensures PressureVerdict(w, pod, node, Disks(one)) != Match == PressureVerdict(w, pod, node, Disks(two))
  {
    var req := Clamped(two, mounts);
    VerdictOnDisks(w, pod, node, one);
    VerdictOnDisks(w, pod, node, two);
    var own: seq<nat> := seq(|req|, i requires 0 <= i < |req| => i);
    MatchingPacks(req, two, mounts, own);
    SumNonNegative(Clamped(one, mounts));
    if PacksOn(req, one, mounts) {
      PackedTotal(req, one, mounts);
    }
  }

  lemma PackedTotal(req: seq<int>, disks: seq<NodeDisk>, mounts: seq<MountInfo>)
    requires NonNegative(req) && PacksOn(req, disks, mounts)
    ensures Sum(req) <= Sum(Clamped(disks, mounts))
  {
    var have := Clamped(disks, mounts);
    SortSorts(req);
    SortSorts(have);
    SubNonNegative(req, Sort(req));
    SubNonNegative(have, Sort(have));
    AcceptedTotal(Sort(req), Sort(have));
    SumPermutation(Sort(req), req);
    SumPermutation(Sort(have), have);
  }

  /** The cluster has nothing negative that the predicate reads for the node. */
  predicate Usual(w: World, node: string) {
    NonNegativeCapacities(w.pvs) && (MountsOf(w, node).Ok? ==> NonNegativeQuotas(MountsOf(w, node).value))
  }

  lemma OtherVerdict(disks: seq<NodeDisk>, node: string)
    returns (w: World, pod: Pod, one: seq<NodeDisk>, two: seq<NodeDisk>)
    requires !Interchangeable(disks)
    ensures multiset(one) == multiset(disks) == multiset(two) && Usual(w, node)
    ensures PressureVerdict(w, pod, node, Disks(one)) != PressureVerdict(w, pod, node, Disks(two))
  {
    var mounts: seq<MountInfo>;
    one, two, mounts := SomeOrderMatters(disks);
    var sizes := Clamped(two, mounts);
    w, pod := Made(node, sizes, mounts), Asking(sizes);
    MadeVolumes(node, sizes, mounts);
    AsksFor(node, sizes, mounts);
    ChargedWith(node, sizes, mounts);
    SizesDecide(w, pod, node, one, two, mounts);
  }

  /** For all pods and all clusters the order of a node's disks changes no answer of the predicate,
      exactly when the disks are interchangeable. */
  lemma VerdictOrderIff(disks: seq<NodeDisk>, node: string)
    ensures (forall w, pod, disks' :: multiset(disks') == multiset(disks) && Usual(w, node) ==>
               PressureVerdict(w, pod, node, Disks(disks')) == PressureVerdict(w, pod, node, Disks(disks)))
       <==> Interchangeable(disks)
  {
    if Interchangeable(disks) {
      forall w, pod, disks' | multiset(disks') == multiset(disks) && Usual(w, node)
        ensures PressureVerdict(w, pod, node, Disks(disks')) == PressureVerdict(w, pod, node, Disks(disks))
      {
        VerdictIgnoresDiskOrder(w, pod, node, disks, disks');
      }
    } else {
      var w, pod, one, two := OtherVerdict(disks, node);
      assert PressureVerdict(w, pod, node, Disks(one)) != PressureVerdict(w, pod, node, Disks(disks))
          || PressureVerdict(w, pod, node, Disks(two)) != PressureVerdict(w, pod, node, Disks(disks));
    }
  }
}
