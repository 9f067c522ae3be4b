/**
 The environment's side of the mount annotation: the storage plugin records a directory in the
 first entry of a node, or in a new entry at the end when the node has none.
 */
module Recording {
  import opened Sequences
  import opened HostPathPV
  import opened Accounting

  function AppendTo(list: seq<NodeMounts>, node: string, m: MountInfo): (r: seq<NodeMounts>)
    ensures r != []
  {
    if list == [] then [NodeMounts(node, [m])]
    else if list[0].node == node then [NodeMounts(node, list[0].mounts + [m])] + list[1..]
    else [list[0]] + AppendTo(list[1..], node, m)
  }

  /** One more directory recorded for the volume on the node. */
  function RecordMount(pv: PV, node: string, m: MountInfo): PV {
    pv.(mounts := Listed(AppendTo(if pv.mounts.Listed? then pv.mounts.list else [], node, m)))
  }

  lemma {:induction false} AppendedEntry(list: seq<NodeMounts>, node: string, m: MountInfo, n: string)
    ensures FirstEntry(AppendTo(list, node, m), n)
         == if n != node then FirstEntry(list, n)
            else Some((if FirstEntry(list, node).Some? then FirstEntry(list, node).value else []) + [m])
  {
    if list != [] && list[0].node != node {
      AppendedEntry(list[1..], node, m, n);
      assert AppendTo(list, node, m)[1..] == AppendTo(list[1..], node, m);
    } else if list == [] {
      assert [] + [m] == [m];
    } else {
      assert AppendTo(list, node, m)[1..] == list[1..];
    }
  }

  lemma RecordedEntry(pv: PV, node: string, m: MountInfo, n: string)
    requires IsCommon(pv)
    ensures EntryOn(RecordMount(pv, node, m), n)
         == if n != node then EntryOn(pv, n) else Some(RawRecords(pv, node) + [m])
  {
    AppendedEntry(if pv.mounts.Listed? then pv.mounts.list else [], node, m, n);
  }

  // ---------- the records of a node after a change to one volume ----------

  lemma {:induction false} AllRawConcat(s: seq<PV>, t: seq<PV>, node: string)
    ensures AllRaw(s + t, node) == AllRaw(s, node) + AllRaw(t, node)
  {
    if s == [] {
      assert s + t == t;
    } else {
      assert (s + t)[1..] == s[1..] + t;
      AllRawConcat(s[1..], t, node);
    }
  }

  lemma AllRawUpdate(pvs: seq<PV>, v: nat, pv: PV, node: string)
    requires v < |pvs|
    ensures AllRaw(pvs, node)
         == AllRaw(pvs[..v], node) + RawRecords(pvs[v], node) + AllRaw(pvs[v + 1..], node)
    ensures AllRaw(pvs[v := pv], node)
         == AllRaw(pvs[..v], node) + RawRecords(pv, node) + AllRaw(pvs[v + 1..], node)
  {
    assert pvs == pvs[..v] + ([pvs[v]] + pvs[v + 1..]);
    assert pvs[v := pv] == pvs[..v] + ([pv] + pvs[v + 1..]);
    AllRawConcat(pvs[..v], [pvs[v]] + pvs[v + 1..], node);
    AllRawConcat(pvs[..v], [pv] + pvs[v + 1..], node);
    assert ([pvs[v]] + pvs[v + 1..])[1..] == pvs[v + 1..];
    assert ([pv] + pvs[v + 1..])[1..] == pvs[v + 1..];
  }

  lemma {:induction false} SeenElsewhere(clean: string -> string, ms: seq<MountInfo>, seen: set<string>,
                                         c: string)
    requires c !in CleanPaths(clean, ms)
    ensures Fresh(clean, ms, seen + {c}) == Fresh(clean, ms, seen)
  {
    if ms != [] {
      assert ms[0] in ms && clean(ms[0].hostPath) in CleanPaths(clean, ms);
      assert forall m :: m in ms[1..] ==> m in ms;
      var d := clean(ms[0].hostPath);
      SeenElsewhere(clean, ms[1..], seen, c);
      SeenElsewhere(clean, ms[1..], seen + {d}, c);
      assert seen + {c} + {d} == seen + {d} + {c};
    }
  }

  /** A record of a path not recorded yet is one more entry of the de-duplicated list. */
  lemma FreshInsert(clean: string -> string, s: seq<MountInfo>, m: MountInfo, t: seq<MountInfo>)
    requires clean(m.hostPath) !in CleanPaths(clean, s + t)
    ensures multiset(Fresh(clean, s + [m] + t, {})) == multiset(Fresh(clean, s + t, {})) + multiset{m}
  {
    var c, seen := clean(m.hostPath), {} + CleanPaths(clean, s);
    assert c !in CleanPaths(clean, s) && c !in CleanPaths(clean, t) by {
      assert forall n :: n in s ==> n in s + t;
      assert forall n :: n in t ==> n in s + t;
    }
    assert s + [m] + t == s + ([m] + t);
    FreshConcat(clean, s, [m] + t, {});
    FreshConcat(clean, s, t, {});
    assert ([m] + t)[1..] == t;
    SeenElsewhere(clean, t, seen, c);
    assert Fresh(clean, [m] + t, seen) == [m] + Fresh(clean, t, seen);
  }
}
