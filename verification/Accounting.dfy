/**
 What the list of directories charged to a node means: one entry per distinct recorded path, and
 one capacity-sized entry per directory still owed to a pod; and when the order of volumes matters.
 */
module Accounting {
  import opened Sequences
  import opened HostPathPV

  function AllRaw(pvs: seq<PV>, node: string): seq<MountInfo> {
    if pvs == [] then [] else RawRecords(pvs[0], node) + AllRaw(pvs[1..], node)
  }

  function AllPending(pvs: seq<PV>, pods: seq<Pod>, node: string): seq<MountInfo> {
    if pvs == [] then [] else PendingItems(pvs[0], pods, node) + AllPending(pvs[1..], pods, node)
  }

  predicate Readable(pvs: seq<PV>) {
    forall i :: 0 <= i < |pvs| ==> MountList(pvs[i]).Ok?
  }

  lemma {:induction false} FreshConcat(clean: string -> string, s: seq<MountInfo>, t: seq<MountInfo>,
                                       seen: set<string>)
    ensures Fresh(clean, s + t, seen)
         == Fresh(clean, s, seen) + Fresh(clean, t, seen + CleanPaths(clean, s))
  {
    if s == [] {
      assert s + t == t && seen + CleanPaths(clean, s) == seen;
    } else {
      var c := clean(s[0].hostPath);
      assert (s + t)[1..] == s[1..] + t;
      assert s == [s[0]] + s[1..];
      assert seen + {c} + CleanPaths(clean, s[1..]) == seen + CleanPaths(clean, s);
      if c in seen {
        assert seen + CleanPaths(clean, s[1..]) == seen + CleanPaths(clean, s);
        FreshConcat(clean, s[1..], t, seen);
      } else {
        FreshConcat(clean, s[1..], t, seen + {c});
        assert Fresh(clean, s + t, seen) == [s[0]] + Fresh(clean, s[1..] + t, seen + {c});
      }
    }
  }

  lemma ReadableTail(pvs: seq<PV>)
    requires pvs != []
    ensures Readable(pvs) <==> MountList(pvs[0]).Ok? && Readable(pvs[1..])
  {
    assert forall i :: 1 <= i < |pvs| ==> pvs[i] == pvs[1..][i - 1];
    assert forall i :: 0 <= i < |pvs[1..]| ==> pvs[1..][i] == pvs[i + 1];
  }

  lemma Regroup<T>(f: seq<T>, p: seq<T>, list: seq<T>, fs: seq<T>, ps: seq<T>)
    requires multiset(list) == multiset(fs) + multiset(ps)
    ensures multiset(f + p + list) == multiset(f + fs) + multiset(p + ps)
  {
  }

  /** The list fails exactly on an unreadable volume; otherwise it is the de-duplicated records
      and the owed directories of all volumes. */
  lemma {:induction false} ListParts(clean: string -> string, pvs: seq<PV>, pods: seq<Pod>,
                                     node: string, seen: set<string>)
    ensures var r := NodeMountList(clean, pvs, pods, node, seen);
            && (r.Ok? <==> Readable(pvs))
            && (r.Ok? ==> multiset(r.value) == multiset(Fresh(clean, AllRaw(pvs, node), seen))
                                             + multiset(AllPending(pvs, pods, node)))
    decreases |pvs|
  {
    if pvs != [] {
      var raw := RawRecords(pvs[0], node);
      var seen' := seen + CleanPaths(clean, raw);
      ReadableTail(pvs);
      ListParts(clean, pvs[1..], pods, node, seen');
      FreshConcat(clean, raw, AllRaw(pvs[1..], node), seen);
      var rest := NodeMountList(clean, pvs[1..], pods, node, seen');
      if rest.Ok? && MountList(pvs[0]).Ok? {
        Regroup(Fresh(clean, raw, seen), PendingItems(pvs[0], pods, node), rest.value,
                Fresh(clean, AllRaw(pvs[1..], node), seen'), AllPending(pvs[1..], pods, node));
      }
    }
  }

  // ---------- the recorded part ----------

  predicate DistinctPaths(clean: string -> string, ms: seq<MountInfo>) {
    forall i, j :: 0 <= i < j < |ms| ==> clean(ms[i].hostPath) != clean(ms[j].hostPath)
  }

  /** `m` is the first record of `ms` with its cleaned path. */
  predicate FirstWithPath(clean: string -> string, ms: seq<MountInfo>, m: MountInfo) {
    exists k :: 0 <= k < |ms| && ms[k] == m
             && forall l :: 0 <= l < k ==> clean(ms[l].hostPath) != clean(m.hostPath)
  }

  lemma FirstWithPathCons(clean: string -> string, ms: seq<MountInfo>, m: MountInfo)
    requires ms != []
    ensures FirstWithPath(clean, ms, m) <==>
            (m == ms[0] || (clean(ms[0].hostPath) != clean(m.hostPath) && FirstWithPath(clean, ms[1..], m)))
  {
    if m == ms[0] {
      assert ms[0] == m;
    }
    if k :| 0 <= k < |ms[1..]| && ms[1..][k] == m
            && forall l :: 0 <= l < k ==> clean(ms[1..][l].hostPath) != clean(m.hostPath) {
      if clean(ms[0].hostPath) != clean(m.hostPath) {
        assert ms[k + 1] == m;
        assert forall l :: 1 <= l < k + 1 ==> ms[l] == ms[1..][l - 1];
      }
    }
    if k :| 0 <= k < |ms| && ms[k] == m
            && forall l :: 0 <= l < k ==> clean(ms[l].hostPath) != clean(m.hostPath) {
      if k > 0 {
        assert ms[1..][k - 1] == m;
        assert forall l :: 0 <= l < k - 1 ==> ms[1..][l] == ms[l + 1];
      }
    }
  }

  /** De-duplication keeps exactly the first record of every cleaned path not seen before. */
  lemma {:induction false} FreshMember(clean: string -> string, ms: seq<MountInfo>, seen: set<string>,
                                       m: MountInfo)
    ensures m in Fresh(clean, ms, seen) <==> FirstWithPath(clean, ms, m) && clean(m.hostPath) !in seen
    decreases |ms|
  {
    if ms != [] {
      var c := clean(ms[0].hostPath);
      FirstWithPathCons(clean, ms, m);
      FreshMember(clean, ms[1..], if c in seen then seen else seen + {c}, m);
    }
  }

  lemma {:induction false} FreshMeaning(clean: string -> string, ms: seq<MountInfo>, seen: set<string>)
    ensures DistinctPaths(clean, Fresh(clean, ms, seen))
    ensures forall m :: m in Fresh(clean, ms, seen)
                   <==> FirstWithPath(clean, ms, m) && clean(m.hostPath) !in seen
    decreases |ms|
  {
    forall m { FreshMember(clean, ms, seen, m); }
    if ms != [] {
      var c := clean(ms[0].hostPath);
      if c in seen {
        FreshMeaning(clean, ms[1..], seen);
      } else {
        var rest := Fresh(clean, ms[1..], seen + {c});
        FreshMeaning(clean, ms[1..], seen + {c});
        forall j | 0 <= j < |rest| ensures clean(rest[j].hostPath) != c {
          FreshMember(clean, ms[1..], seen + {c}, rest[j]);
          assert rest[j] in rest;
        }
        ConsDistinct(clean, ms[0], rest);
      }
    }
  }

  lemma ConsDistinct(clean: string -> string, m: MountInfo, rest: seq<MountInfo>)
    requires DistinctPaths(clean, rest)
    requires forall j :: 0 <= j < |rest| ==> clean(rest[j].hostPath) != clean(m.hostPath)
    ensures DistinctPaths(clean, [m] + rest)
  {
  }

  /** The recorded part of the list: one entry for every cleaned path recorded in any volume's
      first entry for the node, and for no other path. */
  lemma RecordedPart(clean: string -> string, pvs: seq<PV>, node: string, path: string)
    ensures var rec := Fresh(clean, AllRaw(pvs, node), {});
            && DistinctPaths(clean, rec)
            && ((exists m :: m in rec && clean(m.hostPath) == path)
                <==> exists pv, m :: pv in pvs && m in RawRecords(pv, node) && clean(m.hostPath) == path)
  {
    var raw := AllRaw(pvs, node);
    var rec := Fresh(clean, raw, {});
    FreshMeaning(clean, raw, {});
    if pv, m :| pv in pvs && m in RawRecords(pv, node) && clean(m.hostPath) == path {
      AllRawMember(pvs, node, m);
      var k := FirstIndex(clean, raw, path);
      assert FirstWithPath(clean, raw, raw[k]);
      assert raw[k] in rec;
    }
    if m :| m in rec && clean(m.hostPath) == path {
      assert FirstWithPath(clean, raw, m);
      assert m in raw;
      AllRawMember(pvs, node, m);
    }
  }

  lemma {:induction false} FirstIndex(clean: string -> string, ms: seq<MountInfo>, path: string)
    returns (k: nat)
    requires path in CleanPaths(clean, ms)
    ensures k < |ms| && clean(ms[k].hostPath) == path
    ensures forall l :: 0 <= l < k ==> clean(ms[l].hostPath) != path
    decreases |ms|
  {
    if clean(ms[0].hostPath) == path {
      k := 0;
    } else {
      assert CleanPaths(clean, ms) == {clean(ms[0].hostPath)} + CleanPaths(clean, ms[1..]) by {
        assert ms == [ms[0]] + ms[1..];
      }
      var j := FirstIndex(clean, ms[1..], path);
      k := j + 1;
      assert forall l :: 1 <= l < k ==> ms[l] == ms[1..][l - 1];
    }
  }

  lemma {:induction false} AllRawMember(pvs: seq<PV>, node: string, m: MountInfo)
    ensures m in AllRaw(pvs, node) <==> exists pv :: pv in pvs && m in RawRecords(pv, node)
  {
    if pvs != [] {
      AllRawMember(pvs[1..], node, m);
      assert pvs == [pvs[0]] + pvs[1..];
    }
  }

  lemma {:induction false} DistinctFresh(clean: string -> string, ms: seq<MountInfo>, seen: set<string>)
    requires DistinctPaths(clean, ms) && forall i :: 0 <= i < |ms| ==> clean(ms[i].hostPath) !in seen
    ensures Fresh(clean, ms, seen) == ms
    decreases |ms|
  {
    if ms != [] {
      DistinctFresh(clean, ms[1..], seen + {clean(ms[0].hostPath)});
    }
  }

  // ---------- the pending part ----------

  /** Per volume with an entry: the ready pods beyond the recorded directories, or for a shared
      volume one directory exactly when it has pods and no directory. */
  lemma PendingPart(pv: PV, pods: seq<Pod>, node: string)
    requires UniquePods(pods)
    ensures match EntryOn(pv, node)
            case None => PendingCount(pv, pods, node) == 0
            case Some(ms) =>
              var k := if pv.claim.None? then 0 else ReadyCount(pods, node, pv.claim.value);
              if IsShared(pv) then
                PendingCount(pv, pods, node) <= 1
                && (PendingCount(pv, pods, node) == 1 <==> ms == [] && k > 0)
              else PendingCount(pv, pods, node) == Max(0, k - |ms|)
    ensures multiset(PendingItems(pv, pods, node))[MountInfo("", Capacity(pv))]
         == PendingCount(pv, pods, node)
  {
    RepeatMultiset(MountInfo("", Capacity(pv)), PendingCount(pv, pods, node));
    if pv.claim.Some? {
      KeysCountPods(pv, pods, node);
    }
  }

  // ---------- independence of the order of volumes ----------

  lemma {:induction false} DistinctMultiset(clean: string -> string, ms: seq<MountInfo>)
    requires DistinctPaths(clean, ms)
    ensures forall m :: multiset(ms)[m] == if m in ms then 1 else 0
  {
    if ms != [] {
      DistinctMultiset(clean, ms[1..]);
      assert ms == [ms[0]] + ms[1..];
      assert ms[0] !in ms[1..];
    }
  }

  lemma {:induction false} AllPendingConcat(s: seq<PV>, t: seq<PV>, pods: seq<Pod>, node: string)
    ensures AllPending(s + t, pods, node) == AllPending(s, pods, node) + AllPending(t, pods, node)
    decreases |s|
  {
    if s == [] {
      assert s + t == t;
    } else {
      assert (s + t)[0] == s[0] && (s + t)[1..] == s[1..] + t;
      AllPendingConcat(s[1..], t, pods, node);
    }
  }

  lemma PendingRemoveAt(pvs: seq<PV>, k: nat, pods: seq<Pod>, node: string)
    requires k < |pvs|
    ensures multiset(AllPending(pvs, pods, node))
         == multiset(PendingItems(pvs[k], pods, node)) + multiset(AllPending(RemoveAt(pvs, k), pods, node))
  {
    var rest := [pvs[k]] + pvs[k + 1..];
    assert pvs == pvs[..k] + rest && rest[1..] == pvs[k + 1..];
    AllPendingConcat(pvs[..k], rest, pods, node);
    AllPendingConcat(pvs[..k], pvs[k + 1..], pods, node);
  }

  lemma {:induction false} PendingPermuted(pvs: seq<PV>, pvs': seq<PV>, pods: seq<Pod>, node: string)
    requires multiset(pvs) == multiset(pvs')
    ensures multiset(AllPending(pvs, pods, node)) == multiset(AllPending(pvs', pods, node))
    decreases |pvs|
  {
    if pvs == [] {
      assert |multiset(pvs')| == 0;
    } else {
      var k := HeadInside(pvs, pvs');
      PendingRemoveAt(pvs', k, pods, node);
      PendingPermuted(pvs[1..], RemoveAt(pvs', k), pods, node);
    }
  }

  /** What the volume alone would have charged: its records for the node, without repetitions. */
  function Own(clean: string -> string, pv: PV, node: string): seq<MountInfo> {
    Fresh(clean, RawRecords(pv, node), {})
  }

  /** Where both record a path, they record the same directory. */
  predicate Agree(clean: string -> string, p: PV, q: PV, node: string) {
    forall m, n :: m in Own(clean, p, node) && n in Own(clean, q, node) ==>
                     clean(m.hostPath) == clean(n.hostPath) ==> m == n
  }

  predicate AgreeAcross(clean: string -> string, pvs: seq<PV>, node: string) {
    forall p, q :: p in pvs && q in pvs ==> Agree(clean, p, q, node)
  }

  /** What is charged for all volumes would be charged for one of them alone. */
  lemma {:induction false} ChargedIsOwned(clean: string -> string, pvs: seq<PV>, node: string,
                                          seen: set<string>, m: MountInfo)
    requires m in Fresh(clean, AllRaw(pvs, node), seen)
    ensures exists pv :: pv in pvs && m in Own(clean, pv, node)
    decreases |pvs|
  {
    var raw := RawRecords(pvs[0], node);
    var seen' := seen + CleanPaths(clean, raw);
    FreshConcat(clean, raw, AllRaw(pvs[1..], node), seen);
    if m in Fresh(clean, raw, seen) {
      FreshMember(clean, raw, seen, m);
      FreshMember(clean, raw, {}, m);
      assert pvs[0] in pvs && m in Own(clean, pvs[0], node);
    } else {
      ChargedIsOwned(clean, pvs[1..], node, seen', m);
    }
  }

  /** When the volumes agree, exactly the directories charged for some volume alone are charged. */
  lemma OwnedIsCharged(clean: string -> string, pvs: seq<PV>, node: string, m: MountInfo)
    requires AgreeAcross(clean, pvs, node)
    ensures m in Fresh(clean, AllRaw(pvs, node), {}) <==> exists pv :: pv in pvs && m in Own(clean, pv, node)
  {
    if m in Fresh(clean, AllRaw(pvs, node), {}) {
      ChargedIsOwned(clean, pvs, node, {}, m);
    }
    if pv :| pv in pvs && m in Own(clean, pv, node) {
      FreshMember(clean, RawRecords(pv, node), {}, m);
      assert m in RawRecords(pv, node);
      RecordedPart(clean, pvs, node, clean(m.hostPath));
      var n :| n in Fresh(clean, AllRaw(pvs, node), {}) && clean(n.hostPath) == clean(m.hostPath);
      ChargedIsOwned(clean, pvs, node, {}, n);
      var q :| q in pvs && n in Own(clean, q, node);
      assert Agree(clean, pv, q, node);
    }
  }

  lemma RecordedOnce(clean: string -> string, pvs: seq<PV>, node: string, m: MountInfo)
    ensures var rec := Fresh(clean, AllRaw(pvs, node), {});
            multiset(rec)[m] == if m in rec then 1 else 0
  {
    FreshMeaning(clean, AllRaw(pvs, node), {});
    DistinctMultiset(clean, Fresh(clean, AllRaw(pvs, node), {}));
  }

  lemma AgreedRecords(clean: string -> string, pvs: seq<PV>, pvs': seq<PV>, node: string)
    requires multiset(pvs) == multiset(pvs') && AgreeAcross(clean, pvs, node)
    ensures multiset(Fresh(clean, AllRaw(pvs, node), {})) == multiset(Fresh(clean, AllRaw(pvs', node), {}))
  {
    SameMembers(pvs, pvs');
    assert AgreeAcross(clean, pvs', node);
    var rec, rec' := Fresh(clean, AllRaw(pvs, node), {}), Fresh(clean, AllRaw(pvs', node), {});
    forall m ensures multiset(rec)[m] == multiset(rec')[m] {
      OwnedIsCharged(clean, pvs, node, m);
      OwnedIsCharged(clean, pvs', node, m);
      RecordedOnce(clean, pvs, node, m);
      RecordedOnce(clean, pvs', node, m);
    }
  }

  lemma ReadableMembers(pvs: seq<PV>, pvs': seq<PV>)
    requires forall pv :: pv in pvs <==> pv in pvs'
    ensures Readable(pvs) <==> Readable(pvs')
  {
    assert Readable(pvs) <==> forall pv :: pv in pvs ==> MountList(pv).Ok?;
    assert Readable(pvs') <==> forall pv :: pv in pvs' ==> MountList(pv).Ok?;
  }

  /** A volume listed first has all its own records charged. */
  lemma FirstIsCharged(clean: string -> string, pvs: seq<PV>, k: nat, node: string)
    returns (front: seq<PV>)
    requires k < |pvs|
    ensures multiset(front) == multiset(pvs)
    ensures forall m :: m in Own(clean, pvs[k], node) ==> m in Fresh(clean, AllRaw(front, node), {})
  {
    var rest := RemoveAt(pvs, k);
    front := [pvs[k]] + rest;
    RemoveAtMultiset(pvs, k);
    assert front[1..] == rest;
    FreshConcat(clean, RawRecords(pvs[k], node), AllRaw(rest, node), {});
  }

  /** Of two records of one path only one is charged. */
  lemma OneOfTwo(clean: string -> string, pvs: seq<PV>, node: string, m: MountInfo, n: MountInfo)
    requires m in Fresh(clean, AllRaw(pvs, node), {}) && clean(m.hostPath) == clean(n.hostPath) && m != n
    ensures n !in Fresh(clean, AllRaw(pvs, node), {})
  {
    FreshMeaning(clean, AllRaw(pvs, node), {});
  }

  lemma DisagreementShows(clean: string -> string, pvs: seq<PV>, node: string)
    returns (one: seq<PV>, two: seq<PV>, n: MountInfo)
    requires !AgreeAcross(clean, pvs, node)
    ensures multiset(one) == multiset(pvs) == multiset(two)
    ensures multiset(Fresh(clean, AllRaw(one, node), {}))[n] != multiset(Fresh(clean, AllRaw(two, node), {}))[n]
  {
    var p, q :| p in pvs && q in pvs && !Agree(clean, p, q, node);
    var m, n' :| m in Own(clean, p, node) && n' in Own(clean, q, node)
                 && clean(m.hostPath) == clean(n'.hostPath) && m != n';
    n := n';
    one := FirstIsCharged(clean, pvs, IndexOf(pvs, p), node);
    two := FirstIsCharged(clean, pvs, IndexOf(pvs, q), node);
    OneOfTwo(clean, one, node, m, n);
    RecordedOnce(clean, one, node, n);
    RecordedOnce(clean, two, node, n);
  }

  /** Both fail, or both give the same entries. */
  predicate SameList(r: Result<seq<MountInfo>>, r': Result<seq<MountInfo>>) {
    if r.Ok? then r'.Ok? && multiset(r.value) == multiset(r'.value) else r'.Err?
  }

  lemma PermutedLists(clean: string -> string, pvs: seq<PV>, pvs': seq<PV>, pods: seq<Pod>, node: string)
    requires multiset(pvs) == multiset(pvs')
    ensures SameList(NodeMountList(clean, pvs, pods, node, {}), NodeMountList(clean, pvs', pods, node, {}))
       <==> (!Readable(pvs)
             || multiset(Fresh(clean, AllRaw(pvs, node), {})) == multiset(Fresh(clean, AllRaw(pvs', node), {})))
  {
    SameMembers(pvs, pvs');
    ReadableMembers(pvs, pvs');
    PendingPermuted(pvs, pvs', pods, node);
    ListParts(clean, pvs, pods, node, {});
    ListParts(clean, pvs', pods, node, {});
    CommonPart(multiset(Fresh(clean, AllRaw(pvs, node), {})), multiset(Fresh(clean, AllRaw(pvs', node), {})),
               multiset(AllPending(pvs, pods, node)));
  }

  lemma CommonPart<T>(s: multiset<T>, t: multiset<T>, u: multiset<T>)
    ensures s + u == t + u <==> s == t
  {
    assert s == s + u - u && t == t + u - u;
  }

  /** Over all orders of the volumes the list fails alike and charges the same entries, exactly when
      some volume is unreadable or any two volumes that record one path record the same directory. */
  lemma VolumeOrderIrrelevantIff(clean: string -> string, pvs: seq<PV>, pods: seq<Pod>, node: string)
    ensures (forall pvs' :: multiset(pvs') == multiset(pvs) ==>
               SameList(NodeMountList(clean, pvs, pods, node, {}), NodeMountList(clean, pvs', pods, node, {})))
       <==> (Readable(pvs) ==> AgreeAcross(clean, pvs, node))
  {
    if Readable(pvs) ==> AgreeAcross(clean, pvs, node) {
      forall pvs' | multiset(pvs') == multiset(pvs)
        ensures SameList(NodeMountList(clean, pvs, pods, node, {}), NodeMountList(clean, pvs', pods, node, {}))
      {
        PermutedLists(clean, pvs, pvs', pods, node);
        if Readable(pvs) {
          AgreedRecords(clean, pvs, pvs', node);
        }
      }
    } else {
      var one, two, n := DisagreementShows(clean, pvs, node);
      PermutedLists(clean, pvs, one, pods, node);
      PermutedLists(clean, pvs, two, pods, node);
    }
  }
}
