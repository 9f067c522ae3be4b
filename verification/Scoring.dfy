/**
 Two-stage scoring of nodes: one task per node writes a raw score into its own slot, then the list is
 rescaled in place to 0..10. Division truncates exact rationals; scores are compared, not floats.
 */
module Scoring {
  import opened Division
  import opened Sequences
  import opened HostPathPV
  import opened DiskPressure
  import opened PressureProperties
  import opened Accounting
  import opened Overcommit

  datatype HostPriority = HostPriority(host: string, score: int)

  datatype Node = Node(name: string, annotation: DiskAnnotation)

  /** What a task reads of its node: the allocable sum, the charged quota, or a read error. */
  datatype NodeUse = NodeUse(name: string, allocable: int, quota: int, failed: bool)

  function AllocableOf(d: NodeDisk): int { d.allocable }

  function TotalAllocable(annotation: DiskAnnotation): int {
    if annotation.Disks? then Sum(Map(AllocableOf, annotation.disks)) else 0
  }

  /** Reading fails when the disks or the charged directories cannot be read; both sums stay 0 then. */
  function UseOf(w: World, n: Node): NodeUse {
    if n.annotation.UnreadableDisks? || MountsOf(w, n.name).Err? then NodeUse(n.name, 0, 0, true)
    else NodeUse(n.name, TotalAllocable(n.annotation), Sum(Quotas(MountsOf(w, n.name).value)), false)
  }

  function UsesOf(w: World, nodes: seq<Node>): (r: seq<NodeUse>)
    ensures |r| == |nodes| && forall i :: 0 <= i < |r| ==> r[i] == UseOf(w, nodes[i])
  {
    seq(|nodes|, i requires 0 <= i < |nodes| => UseOf(w, nodes[i]))
  }

  // ---------- raw scores ----------

  /** Percentage of the allocable size that is free, truncated; 0 when nothing is free. */
  function FreePercent(allocable: int, quota: int): int {
    if allocable <= 0 || allocable <= quota then 0 else 100 * (allocable - quota) / allocable
  }

  function RawScore(n: NodeUse): int {
    if n.failed then FreePercent(0, 0) else FreePercent(n.allocable, n.quota)
  }

  /** The free ratio of `a` is at least that of `b`, cross-multiplied; a node without free space has
      ratio 0. */
  predicate AtLeastAsFree(a: NodeUse, b: NodeUse) {
    if b.failed || b.allocable <= 0 || b.allocable <= b.quota then true
    else if a.failed || a.allocable <= 0 || a.allocable <= a.quota then false
    else NoLessFree(a.allocable, a.quota, b.allocable, b.quota)
  }

  /** The free part of `total` is at least the ratio that it is of `total'`. */
  predicate NoLessFree(total: int, used: int, total': int, used': int) {
    (total' - used') * total <= (total - used) * total'
  }

  predicate Sane(n: NodeUse) {
    0 <= n.quota
  }

  lemma FreePercentRange(n: NodeUse)
    requires Sane(n)
    ensures 0 <= RawScore(n) <= 100
  {
    if !n.failed && 0 < n.allocable && n.quota < n.allocable {
      var free := n.allocable - n.quota;
      QuotientAtLeast(0, 100 * free, n.allocable);
      QuotientBelow(100, 100 * free, n.allocable);
    }
  }

  /** Truncation keeps the order of the free ratios. */
  lemma RawScoreMonotone(a: NodeUse, b: NodeUse)
    requires Sane(a) && Sane(b) && AtLeastAsFree(a, b)
    ensures RawScore(b) <= RawScore(a)
  {
    FreePercentRange(a);
    if b.failed || b.allocable <= 0 || b.allocable <= b.quota {
    } else {
      var fa, fb, q := a.allocable - a.quota, b.allocable - b.quota, RawScore(b);
      DivisionBounds(100 * fb, b.allocable);
      ScaleOver(q, 100 * fb, b.allocable, 100 * fa, a.allocable);
      QuotientAtLeast(q, 100 * fa, a.allocable);
    }
  }

  // ---------- rescaling ----------

  function MaxScore(scores: seq<int>): (m: int)
    ensures 0 <= m && forall i :: 0 <= i < |scores| ==> scores[i] <= m
    ensures m == 0 || m in scores
  {
    if scores == [] then 0 else Max(MaxScore(scores[..|scores| - 1]), scores[|scores| - 1])
  }

  /** Disk use: in proportion to the largest score. */
  function UseScore(score: int, max: int): int {
    if max > 0 then 10 * score / max else 0
  }

  /** Spread: in proportion to the distance from the largest count. */
  function SpreadScore(count: int, max: int): int {
    if max > 0 then 10 * (max - count) / max else 10
  }

  function ScoreOf(p: HostPriority): int { p.score }

  function Scores(list: seq<HostPriority>): (r: seq<int>)
    ensures |r| == |list| && forall i :: 0 <= i < |r| ==> r[i] == list[i].score
  {
    Map(ScoreOf, list)
  }

  method MaxCount(list: array<HostPriority>) returns (max: int)
    ensures max == MaxScore(Scores(list[..]))
  {
    max := 0;
    for i := 0 to list.Length
      invariant max == MaxScore(Scores(list[..i]))
    {
      assert Scores(list[..i + 1])[..i] == Scores(list[..i]);
      if list[i].score > max {
        max := list[i].score;
      }
    }
    assert list[..list.Length] == list[..];
  }

  method ReduceUse(list: array<HostPriority>)
    modifies list
    ensures forall i :: 0 <= i < list.Length ==>
              list[i] == HostPriority(old(list[i].host),
                                      UseScore(old(list[i].score), MaxScore(Scores(old(list[..])))))
  {
    var max := MaxCount(list);
    for i := 0 to list.Length
      invariant forall k :: 0 <= k < i ==>
                  list[k] == HostPriority(old(list[k].host), UseScore(old(list[k].score), max))
      invariant forall k :: i <= k < list.Length ==> list[k] == old(list[k])
    {
      var score := 0;
      if max > 0 {
        score := 10 * list[i].score / max;
      }
      list[i] := list[i].(score := score);
    }
  }

  method ReduceSpread(list: array<HostPriority>)
    modifies list
    ensures forall i :: 0 <= i < list.Length ==>
              list[i] == HostPriority(old(list[i].host),
                                      SpreadScore(old(list[i].score), MaxScore(Scores(old(list[..])))))
  {
    var max := MaxCount(list);
    for i := 0 to list.Length
      invariant forall k :: 0 <= k < i ==>
                  list[k] == HostPriority(old(list[k].host), SpreadScore(old(list[k].score), max))
      invariant forall k :: i <= k < list.Length ==> list[k] == old(list[k])
    {
      var score := 10;
      if max > 0 {
        score := 10 * (max - list[i].score) / max;
      }
      list[i] := list[i].(score := score);
    }
  }

  // ---------- what the final scores mean ----------

  function RawScores(nodes: seq<NodeUse>): (r: seq<int>)
    ensures |r| == |nodes| && forall i :: 0 <= i < |r| ==> r[i] == RawScore(nodes[i])
  {
    seq(|nodes|, i requires 0 <= i < |nodes| => RawScore(nodes[i]))
  }

  function FinalUse(nodes: seq<NodeUse>, i: nat): int
    requires i < |nodes|
  {
    UseScore(RawScore(nodes[i]), MaxScore(RawScores(nodes)))
  }

  lemma UseScoreRange(score: int, max: int)
    requires 0 <= score <= max
    ensures 0 <= UseScore(score, max) <= 10
    ensures 0 < max ==> UseScore(max, max) == 10
  {
    if max > 0 {
      QuotientAtLeast(0, 10 * score, max);
      QuotientBelow(10, 10 * score, max);
      QuotientAtLeast(10, 10 * max, max);
      QuotientBelow(10, 10 * max, max);
    }
  }

  /** Through both truncations: scores lie in 0..10, a freer node never scores lower, and the freest
      node gets 10 as soon as some node is at least one percent free. */
  lemma UseScoresKeepOrder(nodes: seq<NodeUse>, i: nat, j: nat)
    requires forall k :: 0 <= k < |nodes| ==> Sane(nodes[k])
    requires i < |nodes| && j < |nodes|
    ensures 0 <= FinalUse(nodes, i) <= 10
    ensures AtLeastAsFree(nodes[i], nodes[j]) ==> FinalUse(nodes, j) <= FinalUse(nodes, i)
    ensures (forall k :: 0 <= k < |nodes| ==> AtLeastAsFree(nodes[i], nodes[k])) ==>
              FinalUse(nodes, i) == if exists k :: 0 <= k < |nodes| && RawScore(nodes[k]) > 0 then 10 else 0
  {
    var raw := RawScores(nodes);
    var max := MaxScore(raw);
    FreePercentRange(nodes[i]);
    assert raw[i] <= max;
    UseScoreRange(raw[i], max);
    if AtLeastAsFree(nodes[i], nodes[j]) {
      RawScoreMonotone(nodes[i], nodes[j]);
      if max > 0 {
        DivisionMonotone(10 * raw[j], 10 * raw[i], max);
      }
    }
    if forall k :: 0 <= k < |nodes| ==> AtLeastAsFree(nodes[i], nodes[k]) {
      forall k | 0 <= k < |nodes| ensures raw[k] <= raw[i] {
        RawScoreMonotone(nodes[i], nodes[k]);
      }
      assert max == raw[i];
      assert forall k :: 0 <= k < |nodes| ==> raw[k] == RawScore(nodes[k]);
    }
  }

  lemma UseScoreMonotone(a: int, b: int, max: int)
    requires a <= b
    ensures UseScore(a, max) <= UseScore(b, max)
    ensures UseScore(0, max) == 0
  {
    if max > 0 {
      DivisionMonotone(10 * a, 10 * b, max);
      QuotientAtLeast(0, 0, max);
      QuotientBelow(0, 0, max);
    }
  }

  /** Spread is the order-reversing counterpart: fewer pods never score lower, a node without pods
      gets 10, and the fullest node gets 0 when any node has pods. */
  lemma SpreadReversesOrder(counts: seq<int>, i: nat, j: nat)
    requires NonNegative(counts) && i < |counts| && j < |counts|
    ensures var max := MaxScore(counts);
            && 0 <= SpreadScore(counts[i], max) <= 10
            && (counts[i] <= counts[j] ==> SpreadScore(counts[j], max) <= SpreadScore(counts[i], max))
            && (counts[i] == 0 ==> SpreadScore(counts[i], max) == 10)
            && (max > 0 && counts[i] == max ==> SpreadScore(counts[i], max) == 0)
  {
    var max := MaxScore(counts);
    assert counts[i] <= max && counts[j] <= max;
    if max > 0 {
      SpreadIsUse(counts[i], max);
      SpreadIsUse(counts[j], max);
      UseScoreRange(max - counts[i], max);
      if counts[i] <= counts[j] {
        UseScoreMonotone(max - counts[j], max - counts[i], max);
      } else {
        UseScoreMonotone(0, 0, max);
      }
    }
  }

  lemma SpreadIsUse(count: int, max: int)
    requires 0 < max
    ensures SpreadScore(count, max) == UseScore(max - count, max)
  {
  }

  /** A readable node's raw score is its free percentage, truncated: with the declared sizes adding up to
      `total` and the charged quotas to `used`. Without free space it is 0, and so it is with an error. */
  lemma RawScoreIs(w: World, n: Node, count: int)
    ensures count == RawScore(UseOf(w, n)) <==>
            if n.annotation.UnreadableDisks? || MountsOf(w, n.name).Err? then count == 0
            else
              var disks := if n.annotation.Disks? then n.annotation.disks else [];
              var mounts := MountsOf(w, n.name).value;
              var total := Sum(seq(|disks|, i requires 0 <= i < |disks| => disks[i].allocable));
              var used := Sum(seq(|mounts|, i requires 0 <= i < |mounts| => mounts[i].quota));
              if total <= 0 || total <= used then count == 0
              else count * total <= 100 * (total - used) < (count + 1) * total
  {
    if !n.annotation.UnreadableDisks? && MountsOf(w, n.name).Ok? {
      var disks := if n.annotation.Disks? then n.annotation.disks else [];
      var mounts := MountsOf(w, n.name).value;
      assert seq(|disks|, i requires 0 <= i < |disks| => disks[i].allocable) == Map(AllocableOf, disks);
      assert seq(|mounts|, i requires 0 <= i < |mounts| => mounts[i].quota) == Quotas(mounts);
      FreePercentIs(Sum(Map(AllocableOf, disks)), Sum(Quotas(mounts)), count);
    }
  }

  lemma FreePercentIs(total: int, used: int, count: int)
    ensures count == FreePercent(total, used) <==>
            if total <= 0 || total <= used then count == 0
            else count * total <= 100 * (total - used) < (count + 1) * total
  {
    if 0 < total && used < total {
      QuotientIff(count, 100 * (total - used), total);
    }
  }

  lemma QuotientIff(q: int, x: int, d: int)
    requires 0 < d
    ensures q == x / d <==> q * d <= x < (q + 1) * d
  {
    DivisionBounds(x, d);
    if q * d <= x < (q + 1) * d {
      QuotientAtLeast(q, x, d);
      QuotientBelow(q, x, d);
    }
  }

  /** A final score is ten times the ratio to the largest raw score, truncated; 0 when that is 0. */
  lemma FinalUseIs(nodes: seq<NodeUse>, i: nat, score: int, max: int)
    requires i < |nodes| && (forall k :: 0 <= k < |nodes| ==> RawScore(nodes[k]) <= max)
    requires max == 0 || exists k :: 0 <= k < |nodes| && RawScore(nodes[k]) == max
    requires 0 <= max
    ensures score == FinalUse(nodes, i) <==>
            if max == 0 then score == 0 else score * max <= 10 * RawScore(nodes[i]) < (score + 1) * max
  {
    LargestIs(RawScores(nodes), max);
    if max > 0 {
      QuotientIff(score, 10 * RawScore(nodes[i]), max);
    }
  }

  /** The same for the spread, of the distance to the largest count; 10 when that is 0. */
  lemma SpreadScoreIs(counts: seq<int>, i: nat, score: int, max: int)
    requires i < |counts| && 0 <= max && forall k :: 0 <= k < |counts| ==> counts[k] <= max
    requires max == 0 || max in counts
    ensures score == SpreadScore(counts[i], MaxScore(counts)) <==>
            if max == 0 then score == 10 else score * max <= 10 * (max - counts[i]) < (score + 1) * max
  {
    LargestIs(counts, max);
    if max > 0 {
      QuotientIff(score, 10 * (max - counts[i]), max);
    }
  }

  lemma LargestIs(scores: seq<int>, max: int)
    requires 0 <= max && (forall k :: 0 <= k < |scores| ==> scores[k] <= max) && (max == 0 || max in scores)
    ensures MaxScore(scores) == max
  {
  }

  // ---------- the fork-join ----------

  /** A task: compute, report an error if there is one, write the host, write the score. */
  datatype Task = Start | Computed(raw: int) | Named(raw: int) | Done

  datatype Board = Board(tasks: seq<Task>, slots: seq<HostPriority>, errors: seq<string>)

  function InitialBoard(nodes: seq<NodeUse>): Board {
    Board(Repeat(Start, |nodes|), Repeat(HostPriority("", 0), |nodes|), [])
  }

  /** One atomic action of task `i`. */
  function Act(nodes: seq<NodeUse>, b: Board, i: nat): Board
    requires i < |nodes| == |b.tasks| == |b.slots|
  {
    match b.tasks[i]
    case Start =>
      b.(tasks := b.tasks[i := Computed(RawScore(nodes[i]))],
         errors := if nodes[i].failed then b.errors + [nodes[i].name] else b.errors)
    case Computed(raw) =>
      b.(tasks := b.tasks[i := Named(raw)], slots := b.slots[i := b.slots[i].(host := nodes[i].name)])
    case Named(raw) =>
      b.(tasks := b.tasks[i := Done], slots := b.slots[i := b.slots[i].(score := raw)])
    case Done => b
  }

  /** The boards of a schedule that names one task per action. */
  function RunTasks(nodes: seq<NodeUse>, schedule: seq<nat>): (b: Board)
    requires forall k :: 0 <= k < |schedule| ==> schedule[k] < |nodes|
    ensures |b.tasks| == |b.slots| == |nodes|
  {
    if schedule == [] then InitialBoard(nodes)
    else Act(nodes, RunTasks(nodes, schedule[..|schedule| - 1]), schedule[|schedule| - 1])
  }

  /** What a slot holds depends on how far its own task is, and on nothing else. */
  function SlotAt(n: NodeUse, task: Task): HostPriority {
    match task
    case Start => HostPriority("", 0)
    case Computed(_) => HostPriority("", 0)
    case Named(_) => HostPriority(n.name, 0)
    case Done => HostPriority(n.name, RawScore(n))
  }

  predicate TaskOf(n: NodeUse, task: Task) {
    match task
    case Computed(raw) => raw == RawScore(n)
    case Named(raw) => raw == RawScore(n)
    case _ => true
  }

  /** The errors reported by the tasks that have computed. */
  function ErrorsSoFar(nodes: seq<NodeUse>, tasks: seq<Task>): multiset<string>
    requires |nodes| == |tasks|
  {
    if nodes == [] then multiset{}
    else (if tasks[0] != Start && nodes[0].failed then multiset{nodes[0].name} else multiset{})
         + ErrorsSoFar(nodes[1..], tasks[1..])
  }

  lemma {:induction false} ErrorsAfter(nodes: seq<NodeUse>, tasks: seq<Task>, i: nat, task: Task)
    requires |nodes| == |tasks| && i < |nodes| && task != Start
    ensures ErrorsSoFar(nodes, tasks[i := task])
         == ErrorsSoFar(nodes, tasks)
          + if tasks[i] == Start && nodes[i].failed then multiset{nodes[i].name} else multiset{}
  {
    if i == 0 {
      assert tasks[0 := task][1..] == tasks[1..];
    } else {
      ErrorsAfter(nodes[1..], tasks[1..], i - 1, task);
      assert tasks[i := task][1..] == tasks[1..][i - 1 := task];
    }
  }

  lemma {:induction false} NoErrorsAtStart(nodes: seq<NodeUse>)
    ensures ErrorsSoFar(nodes, Repeat(Start, |nodes|)) == multiset{}
  {
    if nodes != [] {
      NoErrorsAtStart(nodes[1..]);
      assert Repeat(Start, |nodes|)[1..] == Repeat(Start, |nodes[1..]|);
    }
  }

  predicate Consistent(nodes: seq<NodeUse>, b: Board) {
    && |nodes| == |b.tasks| == |b.slots|
    && (forall i :: 0 <= i < |nodes| ==> TaskOf(nodes[i], b.tasks[i]))
    && (forall i :: 0 <= i < |nodes| ==> b.slots[i] == SlotAt(nodes[i], b.tasks[i]))
    && multiset(b.errors) == ErrorsSoFar(nodes, b.tasks)
  }

  lemma ActErrors(nodes: seq<NodeUse>, b: Board, i: nat)
    requires Consistent(nodes, b) && i < |nodes|
    ensures multiset(Act(nodes, b, i).errors) == ErrorsSoFar(nodes, Act(nodes, b, i).tasks)
  {
    if b.tasks[i] != Done {
      ErrorsAfter(nodes, b.tasks, i, Act(nodes, b, i).tasks[i]);
    }
  }

  lemma ActConsistent(nodes: seq<NodeUse>, b: Board, i: nat)
    requires Consistent(nodes, b) && i < |nodes|
    ensures Consistent(nodes, Act(nodes, b, i))
  {
    ActErrors(nodes, b, i);
    ActOwnSlot(nodes, b, i);
    var b' := Act(nodes, b, i);
    assert forall k :: 0 <= k < |nodes| && k != i ==> b'.tasks[k] == b.tasks[k] && b'.slots[k] == b.slots[k];
  }

  lemma ActOwnSlot(nodes: seq<NodeUse>, b: Board, i: nat)
    requires i < |nodes| == |b.tasks| == |b.slots|
    requires TaskOf(nodes[i], b.tasks[i]) && b.slots[i] == SlotAt(nodes[i], b.tasks[i])
    ensures var b' := Act(nodes, b, i);
            TaskOf(nodes[i], b'.tasks[i]) && b'.slots[i] == SlotAt(nodes[i], b'.tasks[i])
  {
  }

  lemma {:induction false} RunConsistent(nodes: seq<NodeUse>, schedule: seq<nat>)
    requires forall k :: 0 <= k < |schedule| ==> schedule[k] < |nodes|
    ensures Consistent(nodes, RunTasks(nodes, schedule))
    decreases |schedule|
  {
    if schedule == [] {
      NoErrorsAtStart(nodes);
    } else {
      RunConsistent(nodes, schedule[..|schedule| - 1]);
      ActConsistent(nodes, RunTasks(nodes, schedule[..|schedule| - 1]), schedule[|schedule| - 1]);
    }
  }

  /** The tasks run one after the other, in the order of the nodes. */
  function Sequential(nodes: seq<NodeUse>): seq<HostPriority> {
    seq(|nodes|, i requires 0 <= i < |nodes| => HostPriority(nodes[i].name, RawScore(nodes[i])))
  }

  function FailedNames(nodes: seq<NodeUse>): seq<string> {
    if nodes == [] then []
    else (if nodes[0].failed then [nodes[0].name] else []) + FailedNames(nodes[1..])
  }

  lemma {:induction false} AllErrors(nodes: seq<NodeUse>, tasks: seq<Task>)
    requires |nodes| == |tasks| && forall i :: 0 <= i < |tasks| ==> tasks[i] == Done
    ensures ErrorsSoFar(nodes, tasks) == multiset(FailedNames(nodes))
  {
    if nodes != [] {
      AllErrors(nodes[1..], tasks[1..]);
    }
  }

  /** For every interleaving of the tasks' actions, once all tasks are done the list is the
      sequential one and the errors are those of the failed nodes, each reported once. */
  lemma InterleavingIrrelevant(nodes: seq<NodeUse>, schedule: seq<nat>)
    requires forall k :: 0 <= k < |schedule| ==> schedule[k] < |nodes|
    requires forall i :: 0 <= i < |nodes| ==> RunTasks(nodes, schedule).tasks[i] == Done
    ensures RunTasks(nodes, schedule).slots == Sequential(nodes)
    ensures multiset(RunTasks(nodes, schedule).errors) == multiset(FailedNames(nodes))
  {
    RunConsistent(nodes, schedule);
    AllErrors(nodes, RunTasks(nodes, schedule).tasks);
  }

  /** Actions left to the tasks. */
  function Remaining(tasks: seq<Task>): nat {
    if tasks == [] then 0
    else (match tasks[0] case Start => 3 case Computed(_) => 2 case Named(_) => 1 case Done => 0)
         + Remaining(tasks[1..])
  }

  lemma {:induction false} RemainingDrops(nodes: seq<NodeUse>, b: Board, i: nat)
    requires i < |nodes| == |b.tasks| == |b.slots| && b.tasks[i] != Done
    ensures Remaining(Act(nodes, b, i).tasks) < Remaining(b.tasks)
  {
    RemainingUpdate(b.tasks, i, Act(nodes, b, i).tasks[i]);
  }

  lemma {:induction false} RemainingUpdate(tasks: seq<Task>, i: nat, task: Task)
    requires i < |tasks|
    ensures Remaining(tasks[i := task]) - Remaining([task]) == Remaining(tasks) - Remaining([tasks[i]])
  {
    if i == 0 {
      assert tasks[0 := task][1..] == tasks[1..] && [task][1..] == [] && [tasks[0]][1..] == [];
    } else {
      RemainingUpdate(tasks[1..], i - 1, task);
      assert tasks[i := task][1..] == tasks[1..][i - 1 := task];
    }
  }

  /** One node's raw disk-use score from its disks and the directories charged to it. */
  method MapScoringNode(w: World, n: Node) returns (failed: bool, count: int)
    ensures failed == UseOf(w, n).failed && count == RawScore(UseOf(w, n))
  {
    var allocable, quota := 0, 0;
    failed := n.annotation.UnreadableDisks?;
    if !failed {
      var mounts := GetNodeHostPathPVMountInfo(w.clean, n.name, w.pvs, w.pods);
      failed := mounts.Err?;
      if !failed {
        var disks := if n.annotation.Disks? then n.annotation.disks else [];
        allocable := SumAllocable(disks);
        quota := SumQuotas(mounts.value);
      }
    }
    if allocable <= 0 || allocable <= quota {
      count := 0;
    } else {
      count := 100 * (allocable - quota) / allocable;
    }
  }

  method SumAllocable(disks: seq<NodeDisk>) returns (total: int)
    ensures total == Sum(Map(AllocableOf, disks))
  {
    total := 0;
    for i := 0 to |disks|
      invariant total == Sum(Map(AllocableOf, disks[..i]))
    {
      assert Map(AllocableOf, disks[..i + 1]) == Map(AllocableOf, disks[..i]) + [disks[i].allocable];
      SumConcat(Map(AllocableOf, disks[..i]), [disks[i].allocable]);
      total := total + disks[i].allocable;
    }
    assert disks[..|disks|] == disks;
  }

  method SumQuotas(mounts: seq<MountInfo>) returns (total: int)
    ensures total == Sum(Quotas(mounts))
  {
    total := 0;
    for i := 0 to |mounts|
      invariant total == Sum(Quotas(mounts[..i]))
    {
      assert Quotas(mounts[..i + 1]) == Quotas(mounts[..i]) + [mounts[i].quota];
      SumConcat(Quotas(mounts[..i]), [mounts[i].quota]);
      total := total + mounts[i].quota;
    }
    assert mounts[..|mounts|] == mounts;
  }

  /** One action of task `i` on the shared list. */
  method ActInPlace(w: World, nodes: seq<Node>, list: array<HostPriority>, tasks: seq<Task>,
                    errors: seq<string>, i: nat)
    returns (tasks': seq<Task>, errors': seq<string>)
    requires i < |nodes| == |tasks| == list.Length && tasks[i] != Done
    modifies list
    ensures Board(tasks', list[..], errors') == Act(UsesOf(w, nodes), Board(tasks, old(list[..]), errors), i)
  {
    tasks', errors' := tasks, errors;
    match tasks[i]
    case Start =>
      var failed, count := MapScoringNode(w, nodes[i]);
      if failed {
        errors' := errors + [nodes[i].name];
      }
      tasks' := tasks[i := Computed(count)];
    case Computed(raw) =>
      list[i] := list[i].(host := nodes[i].name);
      tasks' := tasks[i := Named(raw)];
    case Named(raw) =>
      list[i] := list[i].(score := raw);
      tasks' := tasks[i := Done];
  }

  /** All tasks to the end. Which unfinished task acts next is left open, so this is every
      interleaving. */
  method RunToEnd(w: World, nodes: seq<Node>, list: array<HostPriority>) returns (errors: seq<string>)
    requires list.Length == |nodes| && forall i :: 0 <= i < |nodes| ==> list[i] == HostPriority("", 0)
    modifies list
    ensures list[..] == Sequential(UsesOf(w, nodes))
    ensures multiset(errors) == multiset(FailedNames(UsesOf(w, nodes)))
  {
    ghost var uses := UsesOf(w, nodes);
    var tasks: seq<Task> := Repeat(Start, |nodes|);
    errors := [];
    NoErrorsAtStart(uses);
    while exists i: nat :: i < |tasks| && tasks[i] != Done
      invariant Consistent(uses, Board(tasks, list[..], errors))
      decreases Remaining(tasks)
    {
      var i: nat :| i < |tasks| && tasks[i] != Done;
      ghost var b := Board(tasks, list[..], errors);
      RemainingDrops(uses, b, i);
      ActConsistent(uses, b, i);
      tasks, errors := ActInPlace(w, nodes, list, tasks, errors, i);
    }
    AllErrors(uses, tasks);
  }

  lemma {:induction false} SomeFailed(nodes: seq<NodeUse>)
    ensures FailedNames(nodes) == [] <==> forall i :: 0 <= i < |nodes| ==> !nodes[i].failed
  {
    if nodes != [] {
      SomeFailed(nodes[1..]);
      assert forall i :: 1 <= i < |nodes| ==> nodes[i] == nodes[1..][i - 1];
    }
  }

  /** The whole scoring, for every interleaving of its tasks: the raw list comes back unchanged when
      a node could not be read, else every score is rescaled. */
  method NodesScoring(w: World, nodes: seq<Node>) returns (failed: bool, list: array<HostPriority>)
    ensures fresh(list) && list.Length == |nodes|
    ensures failed <==> exists i :: 0 <= i < |nodes|
                          && (nodes[i].annotation.UnreadableDisks? || MountsOf(w, nodes[i].name).Err?)
    ensures failed ==> forall i :: 0 <= i < |nodes| ==>
              list[i] == HostPriority(nodes[i].name, RawScore(UseOf(w, nodes[i])))
    ensures !failed ==> forall i :: 0 <= i < |nodes| ==>
              list[i] == HostPriority(nodes[i].name, FinalUse(UsesOf(w, nodes), i))
  {
    ghost var uses := UsesOf(w, nodes);
    list := new HostPriority[|nodes|](i => HostPriority("", 0));
    var errors := RunToEnd(w, nodes, list);
    SameLength(errors, FailedNames(uses));
    SomeFailed(uses);
    failed := |errors| != 0;
    SequentialScores(uses, list[..]);
    if !failed {
      ReduceUse(list);
    }
  }

  lemma SequentialScores(nodes: seq<NodeUse>, list: seq<HostPriority>)
    requires list == Sequential(nodes)
    ensures Scores(list) == RawScores(nodes)
    ensures forall i :: 0 <= i < |list| ==> list[i] == HostPriority(nodes[i].name, RawScore(nodes[i]))
  {
  }

  /** The node can be read and has free space: its declared sizes add up to `total`, the quotas charged
      to it to less, `used`. */
  predicate HasSpace(w: World, n: Node, total: int, used: int) {
    && n.annotation.Disks? && MountsOf(w, n.name).Ok?
    && var disks, mounts := n.annotation.disks, MountsOf(w, n.name).value;
       && total == Sum(seq(|disks|, i requires 0 <= i < |disks| => disks[i].allocable))
       && used == Sum(seq(|mounts|, i requires 0 <= i < |mounts| => mounts[i].quota))
       && 0 < total && used < total
  }

  /** The first node has at least the free ratio of the second. */
  ghost predicate Freer(w: World, a: Node, b: Node) {
    forall total, used :: HasSpace(w, b, total, used) ==>
      exists total', used' :: HasSpace(w, a, total', used') && NoLessFree(total', used', total, used)
  }

  lemma SpaceIs(w: World, n: Node, total: int, used: int)
    ensures var use := UseOf(w, n);
            HasSpace(w, n, total, used)
            <==> !use.failed && 0 < use.allocable == total && use.quota == used < total
  {
    if n.annotation.Disks? && MountsOf(w, n.name).Ok? {
      var disks, mounts := n.annotation.disks, MountsOf(w, n.name).value;
      assert seq(|disks|, i requires 0 <= i < |disks| => disks[i].allocable) == Map(AllocableOf, disks);
      assert seq(|mounts|, i requires 0 <= i < |mounts| => mounts[i].quota) == Quotas(mounts);
    }
  }

  lemma FreerFromUse(w: World, a: Node, b: Node)
    requires AtLeastAsFree(UseOf(w, a), UseOf(w, b))
    ensures Freer(w, a, b)
  {
    var use := UseOf(w, a);
    forall total, used | HasSpace(w, b, total, used)
      ensures exists total', used' :: HasSpace(w, a, total', used') && NoLessFree(total', used', total, used)
    {
      SpaceIs(w, b, total, used);
      SpaceIs(w, a, use.allocable, use.quota);
      assert HasSpace(w, a, use.allocable, use.quota);
    }
  }

  lemma FreerIs(w: World, a: Node, b: Node)
    ensures Freer(w, a, b) <==> AtLeastAsFree(UseOf(w, a), UseOf(w, b))
  {
    var use := UseOf(w, b);
    SpaceIs(w, b, use.allocable, use.quota);
    if Freer(w, a, b) && HasSpace(w, b, use.allocable, use.quota) {
      var total', used' :| HasSpace(w, a, total', used') && NoLessFree(total', used', use.allocable, use.quota);
      SpaceIs(w, a, total', used');
    }
    if AtLeastAsFree(UseOf(w, a), use) {
      FreerFromUse(w, a, b);
    }
  }

  /** From disks and charged directories to final scores: with sizes that are not negative they lie
      in 0..10, a freer node never scores lower, and the freest gets 10 or nobody gets anything. */
  lemma NodesKeepOrder(w: World, nodes: seq<Node>, i: nat, j: nat)
    requires Readable(w.pvs) && NonNegativeCapacities(w.pvs) && i < |nodes| && j < |nodes|
    requires forall k :: 0 <= k < |nodes| ==> NonNegativeQuotas(AllRaw(w.pvs, nodes[k].name))
    ensures var uses := UsesOf(w, nodes);
            && 0 <= FinalUse(uses, i) <= 10
            && (Freer(w, nodes[i], nodes[j]) ==> FinalUse(uses, j) <= FinalUse(uses, i))
            && ((forall k :: 0 <= k < |nodes| ==> Freer(w, nodes[i], nodes[k])) ==>
                  FinalUse(uses, i) == 10 || forall k :: 0 <= k < |nodes| ==> FinalUse(uses, k) == 0)
  {
    var uses := UsesOf(w, nodes);
    forall k | 0 <= k < |nodes| ensures Sane(uses[k]) {
      ChargedNonNegative(w, nodes[k].name);
      SumNonNegative(Quotas(Directories(w, nodes[k].name)));
    }
    forall k { FreerIs(w, nodes[i], k); }
    UseScoresKeepOrder(uses, i, j);
    if forall k :: 0 <= k < |nodes| ==> Freer(w, nodes[i], nodes[k]) {
      assert forall k :: 0 <= k < |nodes| ==> AtLeastAsFree(uses[i], uses[k]);
      if FinalUse(uses, i) != 10 {
        forall k | 0 <= k < |nodes| ensures FinalUse(uses, k) == 0 {
          FreePercentRange(uses[k]);
          UseScoresKeepOrder(uses, k, k);
          UseScoresKeepOrder(uses, i, k);
          assert Freer(w, nodes[i], nodes[k]);
        }
      }
    }
  }
}
