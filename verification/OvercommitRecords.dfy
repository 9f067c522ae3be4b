/**
 The storage plugin records a directory, removes one, or volumes come and go: what that does to the
 list of directories charged to a node, and exactly when a new record keeps the node feasible.
 */
module OvercommitRecords {
  import opened Sequences
  import opened HostPathPV
  import opened Packing
  import opened DiskPressure
  import opened PressureProperties
  import opened Accounting
  import opened Binding
  import opened Recording
  import opened Overcommit

  /** A directory for volume `v` on a declared disk, under a path not recorded yet. */
  predicate NewDirectory(w: World, node: string, disks: seq<NodeDisk>, v: nat, m: MountInfo) {
    && v < |w.pvs| && IsCommon(w.pvs[v]) && m.quota == Capacity(w.pvs[v]) && m.hostPath != ""
    && FirstMatch(m.hostPath, Paths(disks)) < |disks|
    && w.clean(m.hostPath) !in CleanPaths(w.clean, AllRaw(w.pvs, node))
  }

  function Recorded(w: World, node: string, v: nat, m: MountInfo): World
    requires v < |w.pvs|
  {
    w.(pvs := w.pvs[v := RecordMount(w.pvs[v], node, m)])
  }

  /** The accounting already owes the volume a directory on the node. */
  predicate Reserved(w: World, node: string, v: nat)
    requires v < |w.pvs|
  {
    PendingCount(w.pvs[v], w.pods, node) > 0
  }

  /** `a` places all owed directories, and number `r`, of the size of `m`, on the disk of `m`. */
  predicate Placement(disks: seq<NodeDisk>, mounts: seq<MountInfo>, a: seq<nat>, r: nat, m: MountInfo) {
    && Holds(UnplacedSizes(mounts), Free(disks, mounts), a)
    && r < |a| && UnplacedSizes(mounts)[r] == m.quota
    && a[r] == FirstMatch(m.hostPath, Paths(disks)) < |disks|
  }

  /** What the disks have left once `m` is recorded. */
  function Lowered(disks: seq<NodeDisk>, mounts: seq<MountInfo>, m: MountInfo): (r: seq<int>)
    ensures |r| == |disks|
    ensures forall d :: 0 <= d < |r| ==>
              r[d] == Free(disks, mounts)[d] - if d == FirstMatch(m.hostPath, Paths(disks)) then m.quota else 0
  {
    seq(|disks|, d requires 0 <= d < |disks| =>
      Free(disks, mounts)[d] - if d == FirstMatch(m.hostPath, Paths(disks)) then m.quota else 0)
  }

  /** Where the plugin may create the directory `m`. When one is owed: on a disk where some placement
      of all owed directories has one of this size. When none is: on a disk with that much room beside
      some placement of what is owed then; a first directory also makes the volume owe the others. */
  ghost predicate MayRecord(w: World, node: string, disks: seq<NodeDisk>, v: nat, m: MountInfo) {
    && NewDirectory(w, node, disks, v, m)
    && var mounts := Directories(w, node);
       if Reserved(w, node, v) then exists a, r :: Placement(disks, mounts, a, r, m)
       else exists a :: Holds(UnplacedSizes(mounts) + Repeat<int>(m.quota, OwedThen(w, node, v, m)),
                              Lowered(disks, mounts, m), a)
  }

  /** How many directories the volume owes once `m` is recorded. */
  function OwedThen(w: World, node: string, v: nat, m: MountInfo): nat
    requires v < |w.pvs|
  {
    PendingCount(Recorded(w, node, v, m).pvs[v], w.pods, node)
  }

  // ---------- one volume's records change ----------

  lemma OthersNonNegative(s: seq<MountInfo>, m: seq<MountInfo>, t: seq<MountInfo>, m': seq<MountInfo>)
    requires NonNegativeQuotas(s + m + t) && NonNegativeQuotas(m')
    ensures NonNegativeQuotas(s + m' + t)
  {
    var u, u' := s + m + t, s + m' + t;
    forall i | 0 <= i < |u'| ensures 0 <= u'[i].quota {
      if i < |s| {
        assert u'[i] == u[i];
      } else if i < |s| + |m'| {
        assert u'[i] == m'[i - |s|];
      } else {
        assert u'[i] == u[i - |m'| + |m|];
      }
    }
  }

  lemma SameButMounts(pvs: seq<PV>, v: nat, pv: PV, claims: map<ClaimName, Claim>)
    requires v < |pvs| && pv == pvs[v].(mounts := pv.mounts) && MountList(pv).Ok?
    requires DistinctNames(pvs) && BindingsAgree(pvs, claims) && Readable(pvs) && NonNegativeCapacities(pvs)
    ensures DistinctNames(pvs[v := pv]) && BindingsAgree(pvs[v := pv], claims)
    ensures Readable(pvs[v := pv]) && NonNegativeCapacities(pvs[v := pv])
  {
    assert forall i :: 0 <= i < |pvs| ==>
      pvs[v := pv][i].name == pvs[i].name && pvs[v := pv][i].claim == pvs[i].claim
      && Capacity(pvs[v := pv][i]) == Capacity(pvs[i]);
  }

  lemma UpdateReads(w: World, v: nat, pv: PV, node: string, disks: seq<NodeDisk>)
    requires WellFormed(w, node, disks) && v < |w.pvs|
    requires pv == w.pvs[v].(mounts := pv.mounts) && MountList(pv).Ok?
    requires NonNegativeQuotas(RawRecords(pv, node))
    ensures WellFormed(w.(pvs := w.pvs[v := pv]), node, disks)
  {
    SameButMounts(w.pvs, v, pv, w.claims);
    AllRawUpdate(w.pvs, v, pv, node);
    OthersNonNegative(AllRaw(w.pvs[..v], node), RawRecords(w.pvs[v], node), AllRaw(w.pvs[v + 1..], node),
                      RawRecords(pv, node));
  }

  lemma RecordedFresh(w: World, node: string, disks: seq<NodeDisk>, v: nat, m: MountInfo)
    requires NewDirectory(w, node, disks, v, m)
    ensures multiset(Fresh(w.clean, AllRaw(Recorded(w, node, v, m).pvs, node), {}))
         == multiset(Fresh(w.clean, AllRaw(w.pvs, node), {})) + multiset{m}
  {
    RecordedEntry(w.pvs[v], node, m, node);
    AllRawUpdate(w.pvs, v, RecordMount(w.pvs[v], node, m), node);
    FreshWith(w.clean, AllRaw(w.pvs[..v], node), RawRecords(w.pvs[v], node), m, AllRaw(w.pvs[v + 1..], node));
  }

  lemma FreshWith(clean: string -> string, s: seq<MountInfo>, ms: seq<MountInfo>, m: MountInfo, t: seq<MountInfo>)
    requires clean(m.hostPath) !in CleanPaths(clean, s + ms + t)
    ensures multiset(Fresh(clean, s + (ms + [m]) + t, {})) == multiset(Fresh(clean, s + ms + t, {})) + multiset{m}
  {
    assert s + (ms + [m]) + t == (s + ms) + [m] + t;
    FreshInsert(clean, s + ms, m, t);
  }

  lemma PendingUpdate(pvs: seq<PV>, v: nat, pv: PV, pods: seq<Pod>, node: string)
    requires v < |pvs|
    ensures multiset(AllPending(pvs[v := pv], pods, node)) + multiset(PendingItems(pvs[v], pods, node))
         == multiset(AllPending(pvs, pods, node)) + multiset(PendingItems(pv, pods, node))
  {
    PendingRemoveAt(pvs, v, pods, node);
    PendingRemoveAt(pvs[v := pv], v, pods, node);
    assert RemoveAt(pvs[v := pv], v) == RemoveAt(pvs, v);
  }

  lemma RecordStaysWellFormed(w: World, node: string, disks: seq<NodeDisk>, v: nat, m: MountInfo)
    requires WellFormed(w, node, disks) && NewDirectory(w, node, disks, v, m)
    ensures WellFormed(Recorded(w, node, v, m), node, disks)
  {
    RecordStaysReadable(w.pvs, v, node, m);
    UpdateReads(w, v, RecordMount(w.pvs[v], node, m), node, disks);
  }

  lemma RecordStaysReadable(pvs: seq<PV>, v: nat, node: string, m: MountInfo)
    requires v < |pvs| && IsCommon(pvs[v]) && NonNegativeQuotas(AllRaw(pvs, node)) && 0 <= m.quota
    ensures var pv := RecordMount(pvs[v], node, m);
            MountList(pv).Ok? && NonNegativeQuotas(RawRecords(pv, node))
  {
    RecordedEntry(pvs[v], node, m, node);
    RecordsOfOne(pvs, v, node);
  }

  lemma MiddleNonNegative(s: seq<MountInfo>, m: seq<MountInfo>, t: seq<MountInfo>)
    requires NonNegativeQuotas(s + m + t)
    ensures NonNegativeQuotas(m)
  {
    forall i | 0 <= i < |m| ensures 0 <= m[i].quota {
      assert m[i] == (s + m + t)[|s| + i];
    }
  }

  lemma RecordsOfOne(pvs: seq<PV>, v: nat, node: string)
    requires v < |pvs| && NonNegativeQuotas(AllRaw(pvs, node))
    ensures NonNegativeQuotas(RawRecords(pvs[v], node))
  {
    AllRawUpdate(pvs, v, pvs[v], node);
    MiddleNonNegative(AllRaw(pvs[..v], node), RawRecords(pvs[v], node), AllRaw(pvs[v + 1..], node));
  }

  // ---------- a record where one is owed ----------

  /** `after` is `before` with one unplaced directory of the quota of `m` replaced by `m`. */
  predicate Moved(before: seq<MountInfo>, after: seq<MountInfo>, m: MountInfo) {
    && m.hostPath != ""
    && multiset(after) + multiset{MountInfo("", m.quota)} == multiset(before) + multiset{m}
  }

  lemma RecordedItems(pv: PV, pods: seq<Pod>, node: string, m: MountInfo)
    requires IsCommon(pv) && PendingCount(pv, pods, node) > 0 && m.quota == Capacity(pv)
    ensures PendingItems(pv, pods, node)
         == [MountInfo("", m.quota)] + PendingItems(RecordMount(pv, node, m), pods, node)
  {
    RecordedEntry(pv, node, m, node);
    assert PendingCount(RecordMount(pv, node, m), pods, node) == PendingCount(pv, pods, node) - 1;
  }

  lemma SwapParts<T>(rec: multiset<T>, owed: multiset<T>, rec': multiset<T>, owed': multiset<T>, m: T, u: T)
    requires rec' == rec + multiset{m} && owed' + multiset{u} == owed
    ensures rec' + owed' + multiset{u} == rec + owed + multiset{m}
  {
  }

  lemma TakeItem<T>(all': multiset<T>, mine: multiset<T>, all: multiset<T>, mine': multiset<T>, u: T)
    requires all' + mine == all + mine' && mine == multiset{u} + mine'
    ensures all' + multiset{u} == all
  {
    assert all' + multiset{u} == all' + mine - mine';
  }

  lemma OwedMoves(w: World, node: string, disks: seq<NodeDisk>, v: nat, m: MountInfo)
    requires NewDirectory(w, node, disks, v, m) && Reserved(w, node, v)
    ensures multiset(AllPending(Recorded(w, node, v, m).pvs, w.pods, node)) + multiset{MountInfo("", m.quota)}
         == multiset(AllPending(w.pvs, w.pods, node))
  {
    var pv', u := RecordMount(w.pvs[v], node, m), MountInfo("", m.quota);
    RecordedItems(w.pvs[v], w.pods, node, m);
    PendingUpdate(w.pvs, v, pv', w.pods, node);
    TakeItem(multiset(AllPending(w.pvs[v := pv'], w.pods, node)), multiset(PendingItems(w.pvs[v], w.pods, node)),
             multiset(AllPending(w.pvs, w.pods, node)), multiset(PendingItems(pv', w.pods, node)), u);
  }

  /** Recording moves one directory from owed to recorded. */
  lemma RecordMoves(w: World, node: string, disks: seq<NodeDisk>, v: nat, m: MountInfo)
    requires WellFormed(w, node, disks) && NewDirectory(w, node, disks, v, m) && Reserved(w, node, v)
    ensures Moved(Directories(w, node), Directories(Recorded(w, node, v, m), node), m)
  {
    var w' := Recorded(w, node, v, m);
    RecordStaysWellFormed(w, node, disks, v, m);
    RecordedFresh(w, node, disks, v, m);
    OwedMoves(w, node, disks, v, m);
    DirectoryParts(w, node);
    DirectoryParts(w', node);
    SwapParts(multiset(Fresh(w.clean, AllRaw(w.pvs, node), {})), multiset(AllPending(w.pvs, w.pods, node)),
              multiset(Fresh(w.clean, AllRaw(w'.pvs, node), {})), multiset(AllPending(w'.pvs, w.pods, node)),
              m, MountInfo("", m.quota));
  }

  lemma MovedUnplaced(before: seq<MountInfo>, after: seq<MountInfo>, m: MountInfo)
    requires Moved(before, after, m)
    ensures multiset(UnplacedSizes(after)) + multiset{m.quota} == multiset(UnplacedSizes(before))
  {
    var u := MountInfo("", m.quota);
    assert multiset(after + [u]) == multiset(before + [m]);
    QuotasOfPermuted(UnplacedEntry(), after, u, before, m);
  }

  lemma SumAfterMove(q: seq<int>, p: seq<int>, x: int, moved: bool)
    requires multiset(q) == multiset(p) + if moved then multiset{x} else multiset{}
    ensures Sum(q) == Sum(p) + if moved then x else 0
  {
    if moved {
      assert multiset(p + [x]) == multiset(p) + multiset{x};
      SumPermutation(q, p + [x]);
      SumConcat(p, [x]);
    } else {
      SumPermutation(q, p);
    }
  }

  lemma MovedRecorded(before: seq<MountInfo>, after: seq<MountInfo>, m: MountInfo, paths: seq<string>, d: nat)
    requires Moved(before, after, m)
    ensures RecordedOn(after, paths, d)
         == RecordedOn(before, paths, d) + if FirstMatch(m.hostPath, paths) == d then m.quota else 0
  {
    var u := MountInfo("", m.quota);
    assert multiset(after + [u]) == multiset(before + [m]);
    var f := HomeEntry(paths, d);
    QuotasOfPermuted(f, after, u, before, m);
    assert !f(u) && (f(m) <==> FirstMatch(m.hostPath, paths) == d);
    SumAfterMove(Quotas(Filter(f, after)), Quotas(Filter(f, before)), m.quota, f(m));
  }

  lemma QuotasOfPermuted(f: MountInfo -> bool, s: seq<MountInfo>, x: MountInfo, t: seq<MountInfo>,
                         y: MountInfo)
    requires multiset(s + [x]) == multiset(t + [y])
    ensures multiset(Quotas(Filter(f, s))) + (if f(x) then multiset{x.quota} else multiset{})
         == multiset(Quotas(Filter(f, t))) + (if f(y) then multiset{y.quota} else multiset{})
  {
    FilterSub(f, s + [x], t + [y]);
    FilterSub(f, t + [y], s + [x]);
    MapSub(QuotaOf, Filter(f, s + [x]), Filter(f, t + [y]));
    QuotasSnoc(f, s, x);
    QuotasSnoc(f, t, y);
  }

  lemma QuotasSnoc(f: MountInfo -> bool, s: seq<MountInfo>, x: MountInfo)
    ensures Quotas(Filter(f, s + [x])) == Quotas(Filter(f, s)) + (if f(x) then [x.quota] else [])
  {
    FilterConcat(f, s, [x]);
    assert Filter(f, [x]) == if f(x) then [x] else [];
  }

  lemma HoldsWithout(sizes: seq<int>, caps: seq<int>, a: seq<nat>, r: nat, caps': seq<int>)
    requires Holds(sizes, caps, a) && r < |a| && |caps'| == |caps|
    requires forall d: nat :: d < |caps| ==> caps'[d] == caps[d] - if d == a[r] then sizes[r] else 0
    ensures Holds(RemoveAt(sizes, r), caps', RemoveAt(a, r))
  {
    forall e: nat | e < |caps'| ensures Load(RemoveAt(sizes, r), RemoveAt(a, r), e) <= caps'[e] {
      LoadRemoveAt(sizes, a, r, e);
    }
    forall k | 0 <= k < |a| - 1 && RemoveAt(sizes, r)[k] > 0 ensures RemoveAt(a, r)[k] < |caps| {
      var k' := if k < r then k else k + 1;
      assert RemoveAt(sizes, r)[k] == sizes[k'] && RemoveAt(a, r)[k] == a[k'];
    }
  }

  /** Without its directory `r`, a placement fits once that directory's disk has so much less. */
  lemma PlacementWithout(disks: seq<NodeDisk>, before: seq<MountInfo>, after: seq<MountInfo>,
                         a: seq<nat>, r: nat, m: MountInfo)
    requires Moved(before, after, m) && Placement(disks, before, a, r, m)
    ensures Holds(RemoveAt(UnplacedSizes(before), r), Free(disks, after), RemoveAt(a, r))
  {
    forall d: nat | d < |disks|
      ensures Free(disks, after)[d] == Free(disks, before)[d] - if d == a[r] then m.quota else 0
    {
      MovedRecorded(before, after, m, Paths(disks), d);
    }
    HoldsWithout(UnplacedSizes(before), Free(disks, before), a, r, Free(disks, after));
  }

  lemma MovedStaysFeasible(disks: seq<NodeDisk>, before: seq<MountInfo>, after: seq<MountInfo>,
                           a: seq<nat>, r: nat, m: MountInfo)
    requires Moved(before, after, m) && Placement(disks, before, a, r, m) && NonNegativeQuotas(before)
    ensures Feasible(disks, after)
  {
    var sizes := UnplacedSizes(before);
    PlacementWithout(disks, before, after, a, r, m);
    MovedUnplaced(before, after, m);
    FilteredNonNegative(UnplacedEntry(), before);
    RemoveAtMultiset(sizes, r);
    SubNonNegative(sizes, RemoveAt(sizes, r));
    var b := HoldsSub(RemoveAt(sizes, r), Free(disks, after), RemoveAt(a, r),
                      UnplacedSizes(after), Free(disks, after));
  }

  lemma HoldsWith(sizes: seq<int>, caps: seq<int>, a: seq<nat>, r: nat, d: nat, caps': seq<int>)
    returns (b: seq<nat>)
    requires r < |sizes| && Holds(RemoveAt(sizes, r), caps', a) && d < |caps| == |caps'|
    requires forall e: nat :: e < |caps| ==> caps'[e] == caps[e] - if e == d then sizes[r] else 0
    ensures Holds(sizes, caps, b) && b[r] == d
  {
    b := a[..r] + [d] + a[r..];
    assert RemoveAt(b, r) == a;
    forall e: nat | e < |caps| ensures Load(sizes, b, e) <= caps[e] {
      LoadRemoveAt(sizes, b, r, e);
    }
    forall k | 0 <= k < |b| && sizes[k] > 0 ensures b[k] < |caps| {
      if k != r {
        var k' := if k < r then k else k - 1;
        assert RemoveAt(sizes, r)[k'] == sizes[k] && a[k'] == b[k];
      }
    }
  }

  /** A placement after the move comes from one that has the moved directory on its disk. */
  lemma MovedFromPlacement(disks: seq<NodeDisk>, before: seq<MountInfo>, after: seq<MountInfo>, m: MountInfo)
    returns (a: seq<nat>, r: nat)
    requires Moved(before, after, m) && NonNegativeQuotas(after) && Feasible(disks, after)
    requires FirstMatch(m.hostPath, Paths(disks)) < |disks|
    ensures Placement(disks, before, a, r, m)
  {
    var sizes := UnplacedSizes(before);
    var d := FirstMatch(m.hostPath, Paths(disks));
    MovedUnplaced(before, after, m);
    assert m.quota in multiset(sizes);
    r := IndexOf(sizes, m.quota);
    RemoveAtMultiset(sizes, r);
    DropLast(multiset(UnplacedSizes(after)), multiset(RemoveAt(sizes, r)), m.quota);
    var c :| Holds(UnplacedSizes(after), Free(disks, after), c);
    FilteredNonNegative(UnplacedEntry(), after);
    var b := HoldsSub(UnplacedSizes(after), Free(disks, after), c, RemoveAt(sizes, r), Free(disks, after));
    forall e: nat | e < |disks|
      ensures Free(disks, after)[e] == Free(disks, before)[e] - if e == d then m.quota else 0
    {
      MovedRecorded(before, after, m, Paths(disks), e);
    }
    a := HoldsWith(sizes, Free(disks, before), b, r, d, Free(disks, after));
  }

  lemma DropLast<T>(s: multiset<T>, t: multiset<T>, x: T)
    requires s + multiset{x} == t + multiset{x}
    ensures s == t
  {
    assert s == s + multiset{x} - multiset{x};
  }

  // ---------- a record where none is owed ----------

  function NewItems(w: World, node: string, v: nat, m: MountInfo): seq<MountInfo>
    requires v < |w.pvs|
  {
    Repeat(MountInfo("", m.quota), OwedThen(w, node, v, m))
  }

  lemma OwedAdds(w: World, node: string, v: nat, m: MountInfo)
    requires v < |w.pvs| && !Reserved(w, node, v) && m.quota == Capacity(w.pvs[v])
    ensures multiset(AllPending(Recorded(w, node, v, m).pvs, w.pods, node))
         == multiset(AllPending(w.pvs, w.pods, node)) + multiset(NewItems(w, node, v, m))
  {
    PendingUpdate(w.pvs, v, RecordMount(w.pvs[v], node, m), w.pods, node);
    assert PendingItems(w.pvs[v], w.pods, node) == [];
    assert PendingItems(Recorded(w, node, v, m).pvs[v], w.pods, node) == NewItems(w, node, v, m);
  }

  lemma RecordAdds(w: World, node: string, disks: seq<NodeDisk>, v: nat, m: MountInfo)
    requires WellFormed(w, node, disks) && NewDirectory(w, node, disks, v, m) && !Reserved(w, node, v)
    ensures multiset(Directories(Recorded(w, node, v, m), node))
         == multiset(Directories(w, node) + [m] + NewItems(w, node, v, m))
  {
    RecordStaysWellFormed(w, node, disks, v, m);
    RecordedFresh(w, node, disks, v, m);
    OwedAdds(w, node, v, m);
    DirectoriesGrown(w, Recorded(w, node, v, m), node, m, NewItems(w, node, v, m));
  }

  lemma DirectoriesGrown(w: World, w': World, node: string, m: MountInfo, items: seq<MountInfo>)
    requires Readable(w.pvs) && Readable(w'.pvs)
    requires multiset(Fresh(w'.clean, AllRaw(w'.pvs, node), {}))
          == multiset(Fresh(w.clean, AllRaw(w.pvs, node), {})) + multiset{m}
    requires multiset(AllPending(w'.pvs, w'.pods, node))
          == multiset(AllPending(w.pvs, w.pods, node)) + multiset(items)
    ensures multiset(Directories(w', node)) == multiset(Directories(w, node) + [m] + items)
  {
    DirectoryParts(w, node);
    DirectoryParts(w', node);
    JoinParts(Directories(w, node), m, items, Directories(w', node),
              multiset(Fresh(w.clean, AllRaw(w.pvs, node), {})), multiset(AllPending(w.pvs, w.pods, node)));
  }

  lemma JoinParts<T>(list: seq<T>, x: T, items: seq<T>, list': seq<T>, rec: multiset<T>, owed: multiset<T>)
    requires multiset(list) == rec + owed
    requires multiset(list') == rec + multiset{x} + (owed + multiset(items))
    ensures multiset(list') == multiset(list + [x] + items)
  {
  }

  lemma WithRecord(disks: seq<NodeDisk>, mounts: seq<MountInfo>, m: MountInfo, n: nat)
    requires m.hostPath != ""
    ensures var more := mounts + [m] + Repeat(MountInfo("", m.quota), n);
            && UnplacedSizes(more) == UnplacedSizes(mounts) + Repeat<int>(m.quota, n)
            && Free(disks, more) == Lowered(disks, mounts, m)
  {
    var u := MountInfo("", m.quota);
    var items := Repeat(u, n);
    var more := mounts + [m] + items;
    FilterConcat(UnplacedEntry(), mounts + [m], items);
    QuotasSnoc(UnplacedEntry(), mounts, m);
    AllPass(UnplacedEntry(), items);
    MapConcat(QuotaOf, Filter(UnplacedEntry(), mounts + [m]), items);
    assert Quotas(items) == Repeat<int>(m.quota, n);
    forall d | 0 <= d < |disks| ensures Free(disks, more)[d] == Lowered(disks, mounts, m)[d] {
      var f := HomeEntry(Paths(disks), d);
      FilterConcat(f, mounts + [m], items);
      NonePass(f, items);
      assert Filter(f, more) == Filter(f, mounts + [m]);
      QuotasSnoc(f, mounts, m);
      SumConcat(Quotas(Filter(f, mounts)), if f(m) then [m.quota] else []);
      SumOne(m.quota);
    }
  }

  lemma FeasiblePermuted(disks: seq<NodeDisk>, mounts: seq<MountInfo>, mounts': seq<MountInfo>)
    requires NonNegativeQuotas(mounts) && multiset(mounts) == multiset(mounts')
    ensures Feasible(disks, mounts) <==> Feasible(disks, mounts')
  {
    SameMembers(mounts, mounts');
    forall i | 0 <= i < |mounts'| ensures 0 <= mounts'[i].quota {
      assert mounts'[i] in mounts;
    }
    if Feasible(disks, mounts) {
      FeasibleSub(disks, mounts', mounts);
    }
    if Feasible(disks, mounts') {
      FeasibleSub(disks, mounts, mounts');
    }
  }

  // ---------- exactly when a record keeps the node feasible ----------

  /** A new record leaves the node feasible if and only if the plugin may put it there. */
  lemma RecordFeasibleIff(w: World, node: string, disks: seq<NodeDisk>, v: nat, m: MountInfo)
    requires WellFormed(w, node, disks) && NewDirectory(w, node, disks, v, m)
    ensures Feasible(disks, Directories(Recorded(w, node, v, m), node)) <==> MayRecord(w, node, disks, v, m)
  {
    var before, after := Directories(w, node), Directories(Recorded(w, node, v, m), node);
    RecordStaysWellFormed(w, node, disks, v, m);
    DirectoriesNonNegative(w, node, disks);
    DirectoriesNonNegative(Recorded(w, node, v, m), node, disks);
    if Reserved(w, node, v) {
      RecordMoves(w, node, disks, v, m);
      if Feasible(disks, after) {
        var a, r := MovedFromPlacement(disks, before, after, m);
      }
      if a, r :| Placement(disks, before, a, r, m) {
        MovedStaysFeasible(disks, before, after, a, r, m);
      }
    } else {
      RecordAdds(w, node, disks, v, m);
      WithRecord(disks, before, m, OwedThen(w, node, v, m));
      FeasiblePermuted(disks, after, before + [m] + NewItems(w, node, v, m));
    }
  }

  /** On a feasible node the plugin is never stuck with an owed directory: there is a disk on which
      it may record it, under any new path. */
  lemma OwedHasDisk(w: World, node: string, disks: seq<NodeDisk>, v: nat) returns (d: nat)
    requires WellFormed(w, node, disks) && Feasible(disks, Directories(w, node))
    requires v < |w.pvs| && Reserved(w, node, v) && Capacity(w.pvs[v]) > 0
    ensures d < |disks|
    ensures forall m :: NewDirectory(w, node, disks, v, m) && FirstMatch(m.hostPath, Paths(disks)) == d ==>
              MayRecord(w, node, disks, v, m)
  {
    var mounts := Directories(w, node);
    var a :| Holds(UnplacedSizes(mounts), Free(disks, mounts), a);
    var r := OwedIsUnplaced(w, node, v);
    d := a[r];
    forall m | NewDirectory(w, node, disks, v, m) && FirstMatch(m.hostPath, Paths(disks)) == d
      ensures MayRecord(w, node, disks, v, m)
    {
      assert Placement(disks, mounts, a, r, m);
    }
  }

  lemma OwedIsUnplaced(w: World, node: string, v: nat) returns (r: nat)
    requires Readable(w.pvs) && v < |w.pvs| && Reserved(w, node, v)
    ensures r < |UnplacedSizes(Directories(w, node))|
    ensures UnplacedSizes(Directories(w, node))[r] == Capacity(w.pvs[v])
  {
    var u, mounts := MountInfo("", Capacity(w.pvs[v])), Directories(w, node);
    DirectoryParts(w, node);
    PendingRemoveAt(w.pvs, v, w.pods, node);
    assert PendingItems(w.pvs[v], w.pods, node)[0] == u;
    assert u in multiset(PendingItems(w.pvs[v], w.pods, node));
    assert u in multiset(AllPending(w.pvs, w.pods, node));
    assert u in multiset(mounts) && u in mounts;
    FilterMembers(UnplacedEntry(), mounts);
    r := IndexOf(Filter(UnplacedEntry(), mounts), u);
  }

  // ---------- records and volumes go ----------

  /** With volume `v` as `pv` the node records no more than before. */
  predicate RecordsNoMore(w: World, v: nat, pv: PV, node: string)
    requires v < |w.pvs|
  {
    multiset(Fresh(w.clean, AllRaw(w.pvs[v := pv], node), {}))
    <= multiset(Fresh(w.clean, AllRaw(w.pvs, node), {}))
  }

  /** Volume `v` as `pv` owes no more than before. */
  predicate OwesNoMore(w: World, v: nat, pv: PV, node: string)
    requires v < |w.pvs|
  {
    && Capacity(pv) == Capacity(w.pvs[v])
    && PendingCount(pv, w.pods, node) <= PendingCount(w.pvs[v], w.pods, node)
  }

  /** Volume `v`, now `pv`, no longer records its directory `k` on the node, which is recorded nowhere
      else, and does not owe it to a pod instead. */
  predicate Forgets(w: World, node: string, v: nat, k: nat, pv: PV) {
    && v < |w.pvs| && pv == w.pvs[v].(mounts := pv.mounts) && MountList(pv).Ok?
    && OwesNoMore(w, v, pv, node)
    && var ms := RawRecords(w.pvs[v], node);
       && k < |ms| && RawRecords(pv, node) == RemoveAt(ms, k)
       && w.clean(ms[k].hostPath) !in CleanPaths(w.clean, AllRaw(w.pvs[v := pv], node))
  }

  lemma ForgottenFresh(w: World, node: string, v: nat, k: nat, pv: PV)
    requires Forgets(w, node, v, k, pv)
    ensures RecordsNoMore(w, v, pv, node)
  {
    AllRawUpdate(w.pvs, v, pv, node);
    FreshWithout(w.clean, AllRaw(w.pvs[..v], node), RawRecords(w.pvs[v], node), k, AllRaw(w.pvs[v + 1..], node));
  }

  lemma FreshWithout(clean: string -> string, s: seq<MountInfo>, ms: seq<MountInfo>, k: nat, t: seq<MountInfo>)
    requires k < |ms| && clean(ms[k].hostPath) !in CleanPaths(clean, s + RemoveAt(ms, k) + t)
    ensures multiset(Fresh(clean, s + RemoveAt(ms, k) + t, {})) <= multiset(Fresh(clean, s + ms + t, {}))
  {
    var s', t' := s + ms[..k], ms[k + 1..] + t;
    assert s + ms + t == s' + [ms[k]] + t' && s + RemoveAt(ms, k) + t == s' + t';
    FreshInsert(clean, s', ms[k], t');
  }

  lemma LessOwed(pvs: seq<PV>, v: nat, pv: PV, pods: seq<Pod>, node: string)
    requires v < |pvs| && Capacity(pv) == Capacity(pvs[v])
    requires PendingCount(pv, pods, node) <= PendingCount(pvs[v], pods, node)
    ensures multiset(AllPending(pvs[v := pv], pods, node)) <= multiset(AllPending(pvs, pods, node))
  {
    var u := MountInfo("", Capacity(pv));
    PendingRemoveAt(pvs, v, pods, node);
    PendingRemoveAt(pvs[v := pv], v, pods, node);
    assert RemoveAt(pvs[v := pv], v) == RemoveAt(pvs, v);
    RepeatMultiset(u, PendingCount(pv, pods, node));
    RepeatMultiset(u, PendingCount(pvs[v], pods, node));
    assert multiset(PendingItems(pv, pods, node)) <= multiset(PendingItems(pvs[v], pods, node));
  }

  /** Fewer directories, whatever else changed. */
  lemma FewerDirectories(w: World, w': World, node: string, disks: seq<NodeDisk>)
    requires Readable(w.pvs) && Readable(w'.pvs)
    requires NonNegativeQuotas(Directories(w, node)) && Feasible(disks, Directories(w, node))
    requires multiset(Fresh(w'.clean, AllRaw(w'.pvs, node), {})) <= multiset(Fresh(w.clean, AllRaw(w.pvs, node), {}))
    requires multiset(AllPending(w'.pvs, w'.pods, node)) <= multiset(AllPending(w.pvs, w.pods, node))
    ensures Feasible(disks, Directories(w', node))
  {
    DirectoryParts(w, node);
    DirectoryParts(w', node);
    FeasibleSub(disks, Directories(w', node), Directories(w, node));
  }

  lemma LessStaysFeasible(w: World, v: nat, pv: PV, node: string, disks: seq<NodeDisk>)
    requires Readable(w.pvs) && v < |w.pvs| && Readable(w.pvs[v := pv])
    requires RecordsNoMore(w, v, pv, node) && OwesNoMore(w, v, pv, node)
    requires NonNegativeQuotas(Directories(w, node)) && Feasible(disks, Directories(w, node))
    ensures Feasible(disks, Directories(w.(pvs := w.pvs[v := pv]), node))
  {
    LessOwed(w.pvs, v, pv, w.pods, node);
    FewerDirectories(w, w.(pvs := w.pvs[v := pv]), node, disks);
  }

  lemma RemovedNonNegative(ms: seq<MountInfo>, k: nat)
    requires NonNegativeQuotas(ms) && k < |ms|
    ensures NonNegativeQuotas(RemoveAt(ms, k))
  {
    forall i | 0 <= i < |RemoveAt(ms, k)| ensures 0 <= RemoveAt(ms, k)[i].quota {
      assert RemoveAt(ms, k)[i] == ms[if i < k then i else i + 1];
    }
  }

  lemma ForgetStaysWellFormed(w: World, node: string, disks: seq<NodeDisk>, v: nat, k: nat, pv: PV)
    requires WellFormed(w, node, disks) && Forgets(w, node, v, k, pv)
    ensures WellFormed(w.(pvs := w.pvs[v := pv]), node, disks)
  {
    RecordsOfOne(w.pvs, v, node);
    RemovedNonNegative(RawRecords(w.pvs[v], node), k);
    UpdateReads(w, v, pv, node, disks);
  }

  lemma ForgetStaysFeasible(w: World, node: string, disks: seq<NodeDisk>, v: nat, k: nat, pv: PV)
    requires WellFormed(w, node, disks) && Feasible(disks, Directories(w, node)) && Forgets(w, node, v, k, pv)
    ensures Feasible(disks, Directories(w.(pvs := w.pvs[v := pv]), node))
  {
    ForgetStaysWellFormed(w, node, disks, v, k, pv);
    ForgottenFresh(w, node, v, k, pv);
    DirectoriesNonNegative(w, node, disks);
    LessStaysFeasible(w, v, pv, node, disks);
  }

  lemma UnrecordedOwesNothing(pvs: seq<PV>, pv: PV, pods: seq<Pod>, node: string)
    requires EntryOn(pv, node).None?
    ensures AllRaw(pvs + [pv], node) == AllRaw(pvs, node)
    ensures AllPending(pvs + [pv], pods, node) == AllPending(pvs, pods, node)
  {
    AllRawConcat(pvs, [pv], node);
    AllPendingConcat(pvs, [pv], pods, node);
    assert [pv][1..] == [] && PendingItems(pv, pods, node) == [];
  }

  lemma WithoutUnrecorded(pvs: seq<PV>, v: nat, pods: seq<Pod>, node: string)
    requires v < |pvs| && EntryOn(pvs[v], node).None?
    ensures AllRaw(RemoveAt(pvs, v), node) == AllRaw(pvs, node)
    ensures AllPending(RemoveAt(pvs, v), pods, node) == AllPending(pvs, pods, node)
  {
    UnrecordedOwesNothing(pvs[..v], pvs[v], pods, node);
    SplitAround(pvs, v);
    AllRawConcat(pvs[..v] + [pvs[v]], pvs[v + 1..], node);
    AllRawConcat(pvs[..v], pvs[v + 1..], node);
    AllPendingConcat(pvs[..v] + [pvs[v]], pvs[v + 1..], pods, node);
    AllPendingConcat(pvs[..v], pvs[v + 1..], pods, node);
  }
}
