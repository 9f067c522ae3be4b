/**
 The greedy placement of directory requests on disks, on plain sizes: what it accepts, what it
 leaves on each disk, when it is as good as any placement, and how it reacts to change.

 A placement is a sequence `a` that sends request `r` to disk `a[r]`.
 */
module Packing {
  import opened Sequences

  /** What placement `a` puts on disk `d`. */
  function Load(req: seq<int>, a: seq<nat>, d: nat): int
    requires |a| == |req|
  {
    if req == [] then 0
    else (if a[0] == d then req[0] else 0) + Load(req[1..], a[1..], d)
  }

  predicate Monotone(a: seq<nat>) {
    forall i, j :: 0 <= i < j < |a| ==> a[i] <= a[j]
  }

  /** Every request has a disk, and no disk that is used holds more than it has. */
  predicate Fits(req: seq<int>, have: seq<int>, a: seq<nat>) {
    && |a| == |req|
    && forall r :: 0 <= r < |a| ==> a[r] < |have| && Load(req, a, a[r]) <= have[a[r]]
  }

  // ---------- the greedy, as three functions over the same recursion ----------

  function Accepts(req: seq<int>, have: seq<int>): bool
    decreases |req| + |have|
  {
    if req == [] then true
    else if have == [] then false
    else if req[0] <= have[0] then Accepts(req[1..], have[0 := have[0] - req[0]])
    else Accepts(req, have[1..])
  }

  /** The sizes the greedy leaves behind. */
  function Residual(req: seq<int>, have: seq<int>): (r: seq<int>)
    ensures |r| == |have|
    decreases |req| + |have|
  {
    if req == [] || have == [] then have
    else if req[0] <= have[0] then Residual(req[1..], have[0 := have[0] - req[0]])
    else [have[0]] + Residual(req, have[1..])
  }

  function Shift(a: seq<nat>): (r: seq<nat>)
    ensures |r| == |a| && forall i :: 0 <= i < |a| ==> r[i] == a[i] + 1
  {
    seq(|a|, i requires 0 <= i < |a| => a[i] + 1)
  }

  /** Where the greedy puts the requests it manages to place, a prefix of all requests. */
  function Placed(req: seq<int>, have: seq<int>): (a: seq<nat>)
    ensures |a| <= |req| && forall r :: 0 <= r < |a| ==> a[r] < |have|
    ensures |a| == |req| <==> Accepts(req, have)
    ensures Monotone(a)
    decreases |req| + |have|
  {
    if req == [] || have == [] then []
    else if req[0] <= have[0] then [0] + Placed(req[1..], have[0 := have[0] - req[0]])
    else Shift(Placed(req, have[1..]))
  }

  lemma {:induction false} LoadShift(req: seq<int>, a: seq<nat>, d: nat)
    requires |a| == |req|
    ensures Load(req, Shift(a), d) == if d == 0 then 0 else Load(req, a, d - 1)
  {
    if req != [] {
      assert Shift(a)[1..] == Shift(a[1..]);
      LoadShift(req[1..], a[1..], d);
    }
  }

  /** Each disk drops by exactly the load placed on it, whether or not the greedy accepts. */
  lemma {:induction false} ResidualIsHaveMinusLoad(req: seq<int>, have: seq<int>, d: nat)
    requires d < |have|
    ensures var a := Placed(req, have);
            Residual(req, have)[d] == have[d] - Load(req[..|a|], a, d)
    decreases |req| + |have|
  {
    if req != [] {
      if req[0] <= have[0] {
        var rest := have[0 := have[0] - req[0]];
        ResidualIsHaveMinusLoad(req[1..], rest, d);
        var a := Placed(req, have);
        assert req[..|a|][1..] == req[1..][..|a| - 1] && a[1..] == Placed(req[1..], rest);
      } else {
        var a := Placed(req, have[1..]);
        LoadShift(req[..|a|], a, d);
        if d > 0 {
          ResidualIsHaveMinusLoad(req, have[1..], d - 1);
        }
      }
    }
  }

  lemma {:induction false} LoadNonNegative(req: seq<int>, a: seq<nat>, d: nat)
    requires |a| == |req| && NonNegative(req)
    ensures 0 <= Load(req, a, d)
    ensures (forall r :: 0 <= r < |a| ==> a[r] != d) ==> Load(req, a, d) == 0
    ensures forall r :: 0 <= r < |a| && a[r] == d ==> req[r] <= Load(req, a, d)
  {
    if req != [] {
      LoadNonNegative(req[1..], a[1..], d);
      assert forall r :: 1 <= r < |a| ==> a[r] == a[1..][r - 1] && req[r] == req[1..][r - 1];
    }
  }

  lemma {:induction false} LoadNeverExceeds(req: seq<int>, have: seq<int>, d: nat)
    requires NonNegative(req) && d < |have|
    ensures var a := Placed(req, have);
            d in a ==> 0 <= Residual(req, have)[d]
    decreases |req| + |have|
  {
    if req != [] {
      if req[0] <= have[0] {
        var rest := have[0 := have[0] - req[0]];
        LoadNeverExceeds(req[1..], rest, d);
        var a, a' := Placed(req, have), Placed(req[1..], rest);
        if d == 0 && 0 !in a' {
          ResidualIsHaveMinusLoad(req[1..], rest, 0);
          LoadNonNegative(req[1..][..|a'|], a', 0);
        }
        assert a == [0] + a';
      } else if d > 0 {
        LoadNeverExceeds(req, have[1..], d - 1);
        var a := Placed(req, have[1..]);
        assert d in Shift(a) ==> d - 1 in a;
      }
    }
  }

  /** An accepting run is a placement that fits. */
  lemma AcceptedFits(req: seq<int>, have: seq<int>)
    requires NonNegative(req) && Accepts(req, have)
    ensures Monotone(Placed(req, have)) && Fits(req, have, Placed(req, have))
  {
    var a := Placed(req, have);
    assert req[..|a|] == req;
    forall r | 0 <= r < |a| ensures Load(req, a, a[r]) <= have[a[r]] {
      ResidualIsHaveMinusLoad(req, have, a[r]);
      LoadNeverExceeds(req, have, a[r]);
    }
  }

  lemma UnshiftFits(req: seq<int>, have: seq<int>, a: seq<nat>) returns (b: seq<nat>)
    requires have != [] && Fits(req, have, a) && forall r :: 0 <= r < |a| ==> a[r] > 0
    ensures Fits(req, have[1..], b) && Shift(b) == a
  {
    b := seq(|a|, i requires 0 <= i < |a| => a[i] - 1);
    assert Shift(b) == a;
    forall r | 0 <= r < |b| ensures Load(req, b, b[r]) <= have[1..][b[r]] {
      LoadShift(req, b, a[r]);
    }
  }

  /** Dropping the first request leaves its disk with that much less. */
  lemma TailFits(req: seq<int>, have: seq<int>, a: seq<nat>)
    requires NonNegative(req) && req != [] && Fits(req, have, a)
    ensures Fits(req[1..], have[a[0] := have[a[0]] - req[0]], a[1..])
  {
    forall r | 0 <= r < |a[1..]|
      ensures Load(req[1..], a[1..], a[1..][r]) <= have[a[0] := have[a[0]] - req[0]][a[1..][r]]
    {
      assert a[1..][r] == a[r + 1];
    }
  }

  /** A non-decreasing placement that fits makes the greedy accept. */
  lemma {:induction false} MonotoneFitAccepted(req: seq<int>, have: seq<int>, a: seq<nat>)
    requires NonNegative(req) && Monotone(a) && Fits(req, have, a)
    ensures Accepts(req, have)
    decreases |req| + |have|
  {
    if req == [] {
      return;
    }
    assert a[0] < |have|;
    if req[0] <= have[0] {
      var rest := have[0 := have[0] - req[0]];
      TailFits(req, have, a);
      if a[0] > 0 {
        forall r | 0 <= r < |a[1..]| ensures Load(req[1..], a[1..], a[1..][r]) <= rest[a[1..][r]] {
          assert a[1..][r] == a[r + 1] >= a[0];
        }
      }
      MonotoneFitAccepted(req[1..], rest, a[1..]);
    } else {
      LoadNonNegative(req, a, a[0]);
      assert a[0] != 0;
      var b := UnshiftFits(req, have, a);
      forall i, j | 0 <= i < j < |b| ensures b[i] <= b[j] {
        assert b[i] + 1 == a[i] <= a[j] == b[j] + 1;
      }
      MonotoneFitAccepted(req, have[1..], b);
    }
  }

  /** Exactness: the greedy finds a non-decreasing placement whenever there is one. */
  lemma GreedyExact(req: seq<int>, have: seq<int>)
    requires NonNegative(req)
    ensures Accepts(req, have) <==> exists a :: Monotone(a) && Fits(req, have, a)
  {
    if Accepts(req, have) {
      AcceptedFits(req, have);
    }
    if a :| Monotone(a) && Fits(req, have, a) {
      MonotoneFitAccepted(req, have, a);
    }
  }

  // ---------- exactness without the assumption on signs ----------

  /** The sorted list sums to nothing or less, or its negative sizes are paid back exactly by the
      smallest ones that follow them. A list without negative sizes is balanced at once. */
  ghost predicate Balanced(req: seq<int>) {
    Sum(req) <= 0 || exists k: nat :: PaidBackAt(req, k)
  }

  predicate PaidBackAt(req: seq<int>, k: nat) {
    k <= |req| && Sum(req[..k]) == 0 && NonNegative(req[k..])
  }

  lemma SumSplit(req: seq<int>, k: nat)
    requires k <= |req|
    ensures Sum(req) == Sum(req[..k]) + Sum(req[k..])
  {
    assert req == req[..k] + req[k..];
    SumConcat(req[..k], req[k..]);
  }

  lemma {:induction false} SumNonPositive(s: seq<int>)
    requires forall i :: 0 <= i < |s| ==> s[i] <= 0
    ensures Sum(s) <= 0
  {
    if s != [] {
      SumNonPositive(s[1..]);
    }
  }

  /** The prefix sums of a sorted list first fall, then rise. */
  lemma PrefixSumBelow(req: seq<int>, j: nat, k: nat)
    requires Sorted(req) && j <= k <= |req|
    ensures Sum(req[..j]) <= Max(0, Sum(req[..k]))
  {
    if j < k && 0 <= req[j] {
      SumSplit(req[..k], j);
      assert req[..k][..j] == req[..j];
      SumNonNegative(req[..k][j..]);
    } else if j < k {
      SumNonPositive(req[..j]);
    }
  }

  /** A prefix whose sums never exceed the first disk goes on it whole. */
  lemma {:induction false} PrefixOnFirstDisk(req: seq<int>, have: seq<int>, k: nat)
    requires k <= |req| && have != [] && forall j :: 0 <= j <= k ==> Sum(req[..j]) <= have[0]
    ensures Accepts(req, have) == Accepts(req[k..], have[0 := have[0] - Sum(req[..k])])
    decreases k
  {
    if k == 0 {
      assert req[0..] == req && have[0 := have[0] - 0] == have;
    } else {
      var rest := have[0 := have[0] - req[0]];
      assert Sum(req[..1]) == req[0] by { assert req[..1][1..] == []; }
      forall j | 0 <= j <= k - 1 ensures Sum(req[1..][..j]) == Sum(req[..j + 1]) - req[0] {
        assert req[..j + 1][1..] == req[1..][..j];
      }
      PrefixOnFirstDisk(req[1..], rest, k - 1);
      assert req[1..][k - 1..] == req[k..];
      assert rest[0 := rest[0] - Sum(req[1..][..k - 1])] == have[0 := have[0] - Sum(req[..k])];
    }
  }

  /** What a non-decreasing placement puts on its last possible disk is a tail of the requests. */
  lemma {:induction false} LoadOfTail(req: seq<int>, a: seq<nat>, d: nat) returns (i: nat)
    requires |a| == |req| && Monotone(a) && forall r :: 0 <= r < |a| ==> a[r] <= d
    ensures i <= |req| && Load(req, a, d) == Sum(req[i..])
    decreases |req|
  {
    if req == [] {
      i := 0;
    } else if a[0] == d {
      i := 0;
      LoadOfAll(req, a, d);
      assert req[0..] == req;
    } else {
      var k := LoadOfTail(req[1..], a[1..], d);
      i := k + 1;
      assert req[1..][k..] == req[i..];
    }
  }

  lemma {:induction false} LoadOfAll(req: seq<int>, a: seq<nat>, d: nat)
    requires |a| == |req| && forall r :: 0 <= r < |a| ==> a[r] == d
    ensures Load(req, a, d) == Sum(req)
  {
    if req != [] {
      LoadOfAll(req[1..], a[1..], d);
    }
  }

  /** Requests that pay the negative sizes back exactly can be left out of a placement that fits. */
  lemma PaidBackFits(req: seq<int>, have: seq<int>, a: seq<nat>, k: nat)
    requires Sorted(req) && PaidBackAt(req, k) && Monotone(a) && Fits(req, have, a)
    ensures Monotone(a[k..]) && Fits(req[k..], have, a[k..])
  {
    var b := a[k..];
    forall r | 0 <= r < |b| ensures b[r] < |have| && Load(req[k..], b, b[r]) <= have[b[r]] {
      var d := a[k + r];
      assert Load(req, a, d) <= have[d];
      assert req == req[..k] + req[k..] && a == a[..k] + a[k..];
      LoadConcat(req[..k], a[..k], req[k..], b, d);
      var i := LoadOfTail(req[..k], a[..k], d);
      SumSplit(req[..k], i);
      assert req[..k][..i] == req[..i];
      PrefixSumBelow(req, i, k);
    }
  }

  lemma NothingOnFirstDisk(req: seq<int>, have: seq<int>)
    requires Sorted(req) && Sum(req) <= 0 && have != [] && NonNegative(have)
    ensures Accepts(req, have) && exists a :: Monotone(a) && Fits(req, have, a)
  {
    assert req[..|req|] == req && req[|req|..] == [];
    forall j | 0 <= j <= |req| ensures Sum(req[..j]) <= have[0] { PrefixSumBelow(req, j, |req|); }
    PrefixOnFirstDisk(req, have, |req|);
    var a := seq(|req|, _ => 0);
    LoadOfAll(req, a, 0);
    assert Monotone(a) && Fits(req, have, a);
  }

  lemma PaidBackAccepted(req: seq<int>, have: seq<int>, k: nat)
    requires Sorted(req) && PaidBackAt(req, k) && have != [] && NonNegative(have)
    ensures Accepts(req, have) == Accepts(req[k..], have)
  {
    forall j | 0 <= j <= k ensures Sum(req[..j]) <= have[0] { PrefixSumBelow(req, j, k); }
    PrefixOnFirstDisk(req, have, k);
    assert have[0 := have[0] - 0] == have;
  }

  lemma WithoutDisks(req: seq<int>)
    ensures Accepts(req, []) <==> exists a :: Monotone(a) && Fits(req, [], a)
  {
    if req == [] {
      assert Monotone([]) && Fits(req, [], []);
    } else {
      forall a: seq<nat> | |a| == |req| ensures !Fits(req, [], a) {
        assert a[0] >= 0;
      }
    }
  }

  lemma BalancedExact(req: seq<int>, have: seq<int>)
    requires Sorted(req) && Balanced(req) && NonNegative(have)
    ensures Accepts(req, have) <==> exists a :: Monotone(a) && Fits(req, have, a)
  {
    if have == [] {
      WithoutDisks(req);
    } else if Sum(req) <= 0 {
      NothingOnFirstDisk(req, have);
    } else {
      var k: nat :| PaidBackAt(req, k);
      PaidBackAccepted(req, have, k);
      GreedyExact(req[k..], have);
      if a :| Monotone(a) && Fits(req, have, a) {
        PaidBackFits(req, have, a, k);
      }
      if a :| Monotone(a) && Fits(req[k..], have, a) {
        PaidBackBefore(req, have, a, k);
      }
    }
  }

  /** The requests paid back can be put in front, on the first disk. */
  lemma PaidBackBefore(req: seq<int>, have: seq<int>, a: seq<nat>, k: nat)
    requires PaidBackAt(req, k) && have != [] && NonNegative(have) && Monotone(a) && Fits(req[k..], have, a)
    ensures exists b :: Monotone(b) && Fits(req, have, b)
  {
    var zeros: seq<nat> := seq(k, _ => 0);
    var b := zeros + a;
    assert req == req[..k] + req[k..];
    forall r | 0 <= r < |b| ensures b[r] < |have| && Load(req, b, b[r]) <= have[b[r]] {
      LoadConcat(req[..k], zeros, req[k..], a, b[r]);
      if b[r] == 0 {
        LoadOfAll(req[..k], zeros, 0);
      } else {
        LoadUnused(req[..k], zeros, b[r]);
      }
      if b[r] in a {
        var i := IndexOf(a, b[r]);
        assert Load(req[k..], a, a[i]) <= have[a[i]];
      } else {
        LoadUnused(req[k..], a, b[r]);
      }
    }
    assert Monotone(b) && Fits(req, have, b);
  }

  /** Where the prefix sums of an unbalanced list become positive. */
  lemma {:induction false} Crossing(req: seq<int>, n: nat) returns (k: nat)
    requires n <= |req| && 0 < Sum(req[..n])
    ensures k < n && 0 < Sum(req[..k + 1]) && forall j :: 0 <= j <= k ==> Sum(req[..j]) <= 0
    decreases n
  {
    if j :| 0 <= j < n && 0 < Sum(req[..j]) {
      k := Crossing(req, j);
    } else {
      k := n - 1;
      assert n > 0;
    }
  }

  lemma AllOnSecond(req: seq<int>)
    requires 0 <= Sum(req)
    ensures exists a :: Monotone(a) && Fits(req, [0, Sum(req)], a)
  {
    var a: seq<nat> := seq(|req|, _ => 1);
    LoadOfAll(req, a, 1);
    assert Monotone(a) && Fits(req, [0, Sum(req)], a);
  }

  /** The sizes from the crossing on are positive. */
  lemma RestPositive(req: seq<int>, k: nat)
    requires Sorted(req) && k < |req| && Sum(req[..k]) <= 0 < Sum(req[..k + 1])
    ensures NonNegative(req[k..]) && -Sum(req[..k]) < req[k]
  {
    SumSplit(req[..k + 1], k);
    assert req[..k + 1][..k] == req[..k] && req[..k + 1][k..] == [req[k]];
    SumOne(req[k]);
  }

  lemma UnbalancedRefused(req: seq<int>)
    requires Sorted(req) && !Balanced(req)
    ensures 0 < Sum(req) && !Accepts(req, [0, Sum(req)])
  {
    var have := [0, Sum(req)];
    assert req[..|req|] == req;
    var k := Crossing(req, |req|);
    PrefixOnFirstDisk(req, have, k);
    RestPositive(req, k);
    RestTooLarge(req, k);
    assert have[0 := -Sum(req[..k])][1..] == [Sum(req)];
    assert req[k..][0] == req[k];
  }

  lemma RestTooLarge(req: seq<int>, k: nat)
    requires k <= |req| && NonNegative(req[k..]) && Sum(req[..k]) <= 0 && !PaidBackAt(req, k)
    requires 0 <= Sum(req)
    ensures !Accepts(req[k..], [Sum(req)])
  {
    SumSplit(req, k);
    SumOne(Sum(req));
    if Accepts(req[k..], [Sum(req)]) {
      AcceptedTotal(req[k..], [Sum(req)]);
    }
  }

  /** Signs put aside, the greedy decides non-decreasing placements of a sorted list on all sorted
      lists of clamped disks if and only if the list is balanced. */
  lemma GreedyExactIff(req: seq<int>)
    requires Sorted(req)
    ensures (forall have :: NonNegative(have) && Sorted(have) ==>
               (Accepts(req, have) <==> exists a :: Monotone(a) && Fits(req, have, a)))
       <==> Balanced(req)
  {
    if Balanced(req) {
      forall have | NonNegative(have) && Sorted(have)
        ensures Accepts(req, have) <==> exists a :: Monotone(a) && Fits(req, have, a)
      {
        BalancedExact(req, have);
      }
    } else {
      UnbalancedRefused(req);
      AllOnSecond(req);
    }
  }

  /** A sorted list that is not: -3 and 5 fit the second of two disks of 1 and 3, and are refused. */
  lemma NegativeRequestBreaksExactness()
    ensures Sorted([-3, 5]) && Sorted([1, 3]) && !Accepts([-3, 5], [1, 3])
    ensures Monotone([1, 1]) && Fits([-3, 5], [1, 3], [1, 1])
  {
    assert [-3, 5][1..] == [5] && [1, 1][1..] == [1] && [5][1..] == [];
    assert Load([5], [1], 1) == 5;
    assert [1, 3][0 := 4] == [4, 3] && [4, 3][1..] == [3];
    assert !Accepts([5], [3]);
  }

  // ---------- when the greedy decides more than non-decreasing placements ----------

  /** `m` gives every request a disk of its own that is large enough. */
  predicate OneToOne(req: seq<int>, have: seq<int>, m: seq<nat>) {
    && |m| == |req|
    && (forall r :: 0 <= r < |m| ==> m[r] < |have| && req[r] <= have[m[r]])
    && forall i, j :: 0 <= i < j < |m| ==> m[i] != m[j]
  }

  lemma {:induction false} InjectiveImage(m: seq<nat>, lo: nat, hi: nat)
    requires forall i, j :: 0 <= i < j < |m| ==> m[i] != m[j]
    requires forall i :: 0 <= i < |m| ==> lo <= m[i] < hi
    requires lo <= hi
    ensures |m| <= hi - lo
    decreases hi - lo
  {
    if m == [] {
      return;
    }
    assert lo <= m[0] < hi;
    if lo in m {
      var k := IndexOf(m, lo);
      InjectiveImage(RemoveAt(m, k), lo + 1, hi);
    } else {
      InjectiveImage(m, lo + 1, hi);
    }
  }

  /** Request `r` may take the disk `r` places before the end: at least that many are big enough. */
  lemma RightAligned(req: seq<int>, have: seq<int>, m: seq<nat>, r: nat)
    requires Sorted(req) && Sorted(have) && OneToOne(req, have, m) && r < |req|
    ensures |req| <= |have| && req[r] <= have[|have| - |req| + r]
  {
    InjectiveImage(m, 0, |have|);
    var d := |have| - |req| + r;
    if have[d] < req[r] {
      var tail := m[r..];
      forall i | 0 <= i < |tail| ensures d + 1 <= tail[i] < |have| {
        assert tail[i] == m[r + i] && req[r] <= req[r + i] <= have[m[r + i]];
      }
      InjectiveImage(tail, d + 1, |have|);
    }
  }

  lemma {:induction false} LoadOfInjective(req: seq<int>, a: seq<nat>, r: nat)
    requires |a| == |req| && r < |a| && forall i, j :: 0 <= i < j < |a| ==> a[i] != a[j]
    ensures Load(req, a, a[r]) == req[r]
  {
    if r == 0 {
      LoadUnused(req[1..], a[1..], a[0]);
    } else {
      LoadOfInjective(req[1..], a[1..], r - 1);
    }
  }

  lemma {:induction false} LoadUnused(req: seq<int>, a: seq<nat>, d: nat)
    requires |a| == |req| && forall i :: 0 <= i < |a| ==> a[i] != d
    ensures Load(req, a, d) == 0
  {
    if req != [] {
      LoadUnused(req[1..], a[1..], d);
    }
  }

  /** On sorted lists, a one-to-one matching is enough for acceptance. */
  lemma MatchingAccepted(req: seq<int>, have: seq<int>, m: seq<nat>)
    requires NonNegative(req) && Sorted(req) && Sorted(have) && OneToOne(req, have, m)
    ensures Accepts(req, have)
  {
    InjectiveImage(m, 0, |have|);
    var a := seq(|req|, r requires 0 <= r < |req| => |have| - |req| + r);
    forall r | 0 <= r < |a| ensures a[r] < |have| && Load(req, a, a[r]) <= have[a[r]] {
      RightAligned(req, have, m, r);
      LoadOfInjective(req, a, r);
    }
    MonotoneFitAccepted(req, have, a);
  }

  lemma {:induction false} LoadRemoveAt(req: seq<int>, a: seq<nat>, k: nat, d: nat)
    requires |a| == |req| && k < |a|
    ensures Load(RemoveAt(req, k), RemoveAt(a, k), d) ==
            Load(req, a, d) - if a[k] == d then req[k] else 0
  {
    if k == 0 {
      assert RemoveAt(req, 0) == req[1..] && RemoveAt(a, 0) == a[1..];
    } else {
      LoadRemoveAt(req[1..], a[1..], k - 1, d);
      assert RemoveAt(req, k)[1..] == RemoveAt(req[1..], k - 1);
      assert RemoveAt(a, k)[1..] == RemoveAt(a[1..], k - 1);
    }
  }

  lemma RemoveFits(req: seq<int>, have: seq<int>, a: seq<nat>, k: nat)
    requires NonNegative(req) && k < |req| && Fits(req, have, a)
    ensures Fits(RemoveAt(req, k), have[a[k] := have[a[k]] - req[k]], RemoveAt(a, k))
    ensures Fits(RemoveAt(req, k), have, RemoveAt(a, k))
  {
    var b := RemoveAt(a, k);
    forall r | 0 <= r < |b|
      ensures b[r] < |have|
      ensures Load(RemoveAt(req, k), b, b[r]) <= have[a[k] := have[a[k]] - req[k]][b[r]]
    {
      var i := if r < k then r else r + 1;
      assert b[r] == a[i];
      LoadRemoveAt(req, a, k, a[i]);
    }
  }

  /** With equal requests, one placed on disk 0 if any is, can be dropped and paid for by disk 0. */
  lemma DropEqualRequest(n: nat, size: nat, have: seq<int>, a: seq<nat>) returns (b: seq<nat>)
    requires n > 0 && have != [] && Fits(Repeat<int>(size, n), have, a)
    ensures Fits(Repeat<int>(size, n - 1), have[0 := have[0] - size], b)
  {
    var req := Repeat<int>(size, n);
    var k := if 0 in a then IndexOf(a, 0) else 0;
    b := RemoveAt(a, k);
    RemoveFits(req, have, a, k);
    assert RemoveAt(req, k) == Repeat<int>(size, n - 1);
    assert 0 !in a ==> forall r :: 0 <= r < |b| ==> b[r] in a;
  }

  /** With equal requests any placement that fits makes the greedy accept. */
  lemma {:induction false} EqualSizesAccepted(n: nat, size: nat, have: seq<int>, a: seq<nat>)
    requires Fits(Repeat<int>(size, n), have, a)
    ensures Accepts(Repeat<int>(size, n), have)
    decreases n + |have|
  {
    var req := Repeat<int>(size, n);
    if n == 0 {
      return;
    }
    assert a[0] < |have|;
    if size <= have[0] {
      var b := DropEqualRequest(n, size, have, a);
      EqualSizesAccepted(n - 1, size, have[0 := have[0] - size], b);
      assert req[1..] == Repeat<int>(size, n - 1);
    } else {
      forall r | 0 <= r < |a| ensures a[r] > 0 {
        LoadNonNegative(req, a, a[r]);
      }
      var b := UnshiftFits(req, have, a);
      EqualSizesAccepted(n, size, have[1..], b);
    }
  }

  /** For requests of one size the greedy decides bin packing. */
  lemma EqualSizesDecided(n: nat, size: nat, have: seq<int>)
    ensures Accepts(Repeat<int>(size, n), have) <==> exists a :: Fits(Repeat<int>(size, n), have, a)
  {
    if Accepts(Repeat<int>(size, n), have) {
      AcceptedFits(Repeat<int>(size, n), have);
    }
    if a :| Fits(Repeat<int>(size, n), have, a) {
      EqualSizesAccepted(n, size, have, a);
    }
  }

  // ---------- totals and monotonicity ----------

  lemma {:induction false} AcceptedTotal(req: seq<int>, have: seq<int>)
    requires NonNegative(req) && NonNegative(have) && Accepts(req, have)
    ensures Sum(req) <= Sum(have)
    decreases |req| + |have|
  {
    if req == [] {
      SumNonNegative(have);
    } else if req[0] <= have[0] {
      var rest := have[0 := have[0] - req[0]];
      assert rest[1..] == have[1..];
      AcceptedTotal(req[1..], rest);
    } else {
      AcceptedTotal(req, have[1..]);
    }
  }

  lemma LargerDisksAccepted(req: seq<int>, have: seq<int>, have': seq<int>)
    requires NonNegative(req) && Accepts(req, have) && Dominates(have', have)
    ensures Accepts(req, have')
  {
    AcceptedFits(req, have);
    MonotoneFitAccepted(req, have', Placed(req, have));
  }

  lemma FewerRequestsAccepted(req: seq<int>, have: seq<int>, k: nat)
    requires NonNegative(req) && k < |req| && Accepts(req, have)
    ensures Accepts(RemoveAt(req, k), have)
  {
    AcceptedFits(req, have);
    RemoveFits(req, have, Placed(req, have), k);
    MonotoneFitAccepted(RemoveAt(req, k), have, RemoveAt(Placed(req, have), k));
  }

  /** A request that a smaller collection can do without. */
  lemma SpareIndex(req: seq<int>, sub: seq<int>) returns (k: nat)
    requires multiset(sub) <= multiset(req) && multiset(sub) != multiset(req)
    ensures k < |req| && multiset(sub) <= multiset(RemoveAt(req, k))
  {
    var extra := multiset(req) - multiset(sub);
    assert multiset(req) == multiset(sub) + extra;
    assert extra != multiset{};
    var x := SomeMember(extra);
    k := IndexOf(req, x);
    RemoveAtMultiset(req, k);
  }

  lemma RemovedSorted(req: seq<int>, k: nat)
    requires NonNegative(req) && Sorted(req) && k < |req|
    ensures NonNegative(RemoveAt(req, k)) && Sorted(RemoveAt(req, k))
  {
    assert forall i :: 0 <= i < |req| - 1 ==> RemoveAt(req, k)[i] == req[if i < k then i else i + 1];
  }

  /** Any sorted sub-collection of accepted sorted requests is accepted. */
  lemma {:induction false} SubRequestsAccepted(req: seq<int>, have: seq<int>, sub: seq<int>)
    requires NonNegative(req) && Sorted(req) && Sorted(sub) && multiset(sub) <= multiset(req)
    requires Accepts(req, have)
    ensures Accepts(sub, have)
    decreases |req|
  {
    if multiset(sub) == multiset(req) {
      SortedUnique(sub, req);
    } else {
      var k := SpareIndex(req, sub);
      FewerRequestsAccepted(req, have, k);
      RemovedSorted(req, k);
      SubRequestsAccepted(RemoveAt(req, k), have, sub);
    }
  }

  // ---------- carrying a placement over to the disks in another order ----------

  lemma {:induction false} LoadRenumbered(req: seq<int>, a: seq<nat>, p: seq<nat>, d: nat)
    requires |a| == |req| && d < |p| && forall r :: 0 <= r < |a| ==> a[r] < |p|
    requires forall i, j :: 0 <= i < j < |p| ==> p[i] != p[j]
    ensures Load(req, seq(|a|, r requires 0 <= r < |a| => p[a[r]]), p[d]) == Load(req, a, d)
  {
    if req != [] {
      LoadRenumbered(req[1..], a[1..], p, d);
      var b := seq(|a|, r requires 0 <= r < |a| => p[a[r]]);
      var b' := seq(|a[1..]|, r requires 0 <= r < |a[1..]| => p[a[1..][r]]);
      assert b[1..] == b';
      assert a[0] != d ==> p[a[0]] != p[d];
    }
  }

  /** The order of the disks is irrelevant to which requests fit somewhere. */
  lemma FitsReordered(req: seq<int>, have: seq<int>, a: seq<nat>, have': seq<int>)
    returns (b: seq<nat>)
    requires Fits(req, have, a) && multiset(have) == multiset(have')
    ensures Fits(req, have', b)
  {
    var p := Renumbering(have, have');
    b := seq(|a|, r requires 0 <= r < |a| => p[a[r]]);
    forall r | 0 <= r < |b| ensures b[r] < |have'| && Load(req, b, b[r]) <= have'[b[r]] {
      LoadRenumbered(req, a, p, a[r]);
    }
  }

  /** A sub-collection of the requests, in any order, can stay on the disks the whole was on. */
  lemma {:induction false} LoadSub(req: seq<int>, a: seq<nat>, sub: seq<int>) returns (b: seq<nat>)
    requires NonNegative(req) && |a| == |req| && multiset(sub) <= multiset(req)
    ensures |b| == |sub| && forall d: nat :: Load(sub, b, d) <= Load(req, a, d)
    ensures forall r :: 0 <= r < |b| ==> exists k :: 0 <= k < |a| && b[r] == a[k] && sub[r] == req[k]
    decreases |sub|
  {
    if sub == [] {
      b := [];
      forall d: nat ensures 0 <= Load(req, a, d) { LoadNonNegative(req, a, d); }
    } else {
      var k := HeadInside(sub, req);
      var c := LoadSub(RemoveAt(req, k), RemoveAt(a, k), sub[1..]);
      b := [a[k]] + c;
      forall d: nat ensures Load(sub, b, d) <= Load(req, a, d) {
        LoadRemoveAt(req, a, k, d);
        assert b[1..] == c;
      }
      forall r | 0 <= r < |b| ensures exists k :: 0 <= k < |a| && b[r] == a[k] && sub[r] == req[k] {
        if r > 0 {
          var l :| 0 <= l < |RemoveAt(a, k)| && c[r - 1] == RemoveAt(a, k)[l] && sub[1..][r - 1] == RemoveAt(req, k)[l];
          var l' := if l < k then l else l + 1;
          assert b[r] == a[l'] && sub[r] == req[l'];
        }
      }
    }
  }

  lemma FitsSub(req: seq<int>, have: seq<int>, a: seq<nat>, sub: seq<int>) returns (b: seq<nat>)
    requires NonNegative(req) && Fits(req, have, a) && multiset(sub) <= multiset(req)
    ensures Fits(sub, have, b)
  {
    b := LoadSub(req, a, sub);
    forall r | 0 <= r < |b| ensures b[r] < |have| && Load(sub, b, b[r]) <= have[b[r]] {
      var k :| 0 <= k < |a| && b[r] == a[k] && sub[r] == req[k];
      assert Load(req, a, a[k]) <= have[a[k]];
    }
  }

  lemma {:induction false} LoadConcat(req: seq<int>, a: seq<nat>, req': seq<int>, a': seq<nat>, d: nat)
    requires |a| == |req| && |a'| == |req'|
    ensures Load(req + req', a + a', d) == Load(req, a, d) + Load(req', a', d)
  {
    if req == [] {
      assert req + req' == req' && a + a' == a';
    } else {
      assert (req + req')[1..] == req[1..] + req' && (a + a')[1..] == a[1..] + a';
      LoadConcat(req[1..], a[1..], req', a', d);
    }
  }

  lemma {:induction false} LoadAtMostSum(req: seq<int>, a: seq<nat>, d: nat)
    requires |a| == |req| && NonNegative(req)
    ensures Load(req, a, d) <= Sum(req)
  {
    if req != [] {
      LoadAtMostSum(req[1..], a[1..], d);
    }
  }
}
