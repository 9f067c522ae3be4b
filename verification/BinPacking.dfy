/**
 When the greedy placement is as good as any: exactly for which requests it accepts all disks on
 which they can be packed in any way. Zero-sized requests aside, all requests but the largest must
 have one size, and the largest must be a multiple of it or at least all the others together.
 */
module BinPacking {
  import opened Sequences
  import opened Packing
  import opened Division

  /** `z` zeros, `n` requests of size `a`, and one last request that goes with them. */
  predicate RegularAt(req: seq<int>, z: nat, a: nat, n: nat) {
    && a > 0 && |req| == z + n + 1
    && var b := req[|req| - 1];
       req == Repeat<int>(0, z) + (Repeat<int>(a, n) + [b]) && (n == 0 || b % a == 0 || n * a <= b)
  }

  ghost predicate Regular(req: seq<int>) {
    req == [] || exists z: nat, a: nat, n: nat :: RegularAt(req, z, a, n)
  }

  /** Some assignment of the requests to the disks, in any order, keeps every disk within its size. */
  ghost predicate Packable(req: seq<int>, have: seq<int>) {
    exists a :: Fits(req, have, a)
  }

  // ---------- how many requests of one size fit ----------

  function Slots(a: nat, have: seq<int>): int
    requires a > 0
  {
    if have == [] then 0 else have[0] / a + Slots(a, have[1..])
  }

  lemma {:induction false} SlotsConcat(a: nat, s: seq<int>, t: seq<int>)
    requires a > 0
    ensures Slots(a, s + t) == Slots(a, s) + Slots(a, t)
  {
    if s == [] {
      assert s + t == t;
    } else {
      assert (s + t)[1..] == s[1..] + t;
      SlotsConcat(a, s[1..], t);
    }
  }

  lemma SlotsUpdate(a: nat, have: seq<int>, d: nat, x: int)
    requires a > 0 && d < |have|
    ensures Slots(a, have[d := x]) == Slots(a, have) - have[d] / a + x / a
  {
    var s, t := have[..d], have[d + 1..];
    assert have == s + ([have[d]] + t) && have[d := x] == s + ([x] + t);
    SlotsConcat(a, s, [have[d]] + t);
    SlotsConcat(a, s, [x] + t);
    assert ([have[d]] + t)[1..] == t && ([x] + t)[1..] == t;
  }

  lemma SlotsInit(a: nat, have: seq<int>)
    requires a > 0 && have != []
    ensures Slots(a, have) == Slots(a, have[..|have| - 1]) + have[|have| - 1] / a
  {
    var m := |have| - 1;
    assert have == have[..m] + [have[m]];
    SlotsConcat(a, have[..m], [have[m]]);
    assert [have[m]][1..] == [];
  }

  lemma {:induction false} SlotsNonNegative(a: nat, have: seq<int>)
    requires a > 0 && NonNegative(have)
    ensures 0 <= Slots(a, have)
  {
    if have != [] {
      DivideSmall(have[0], a);
      SlotsNonNegative(a, have[1..]);
    }
  }

  lemma {:induction false} AcceptedSlots(a: nat, n: nat, have: seq<int>)
    requires a > 0 && NonNegative(have) && Accepts(Repeat<int>(a, n), have)
    ensures n <= Slots(a, have)
    decreases n + |have|
  {
    if n == 0 {
      SlotsNonNegative(a, have);
    } else {
      DivideSmall(have[0], a);
      if a <= have[0] {
        DivideLess(have[0], a, 1);
        var rest := have[0 := have[0] - a];
        assert Repeat<int>(a, n)[1..] == Repeat<int>(a, n - 1) && rest[1..] == have[1..];
        AcceptedSlots(a, n - 1, rest);
      } else {
        AcceptedSlots(a, n, have[1..]);
      }
    }
  }

  // ---------- one size and a last request ----------

  /** There is room in the way the greedy fills disks: either the others fit before the last disk and
      the last disk takes `b`, or it takes `b` beside those that are left for it. */
  predicate RoomAtEnd(a: nat, n: nat, b: int, have: seq<int>)
    requires a > 0 && have != []
  {
    var m := |have| - 1;
    var left := n - Slots(a, have[..m]);
    (left <= 0 && b <= have[m]) || (left * a + b <= have[m] && 0 < left)
  }

  lemma {:induction false} OnOneDisk(a: nat, k: nat, rest: seq<int>, have: seq<int>)
    requires have != [] && k * a <= have[0]
    ensures Accepts(Repeat<int>(a, k) + rest, have) == Accepts(rest, have[0 := have[0] - k * a])
    decreases k
  {
    if k == 0 {
      assert Repeat<int>(a, 0) + rest == rest && have[0 := have[0] - 0 * a] == have;
    } else {
      var req, less := Repeat<int>(a, k) + rest, have[0 := have[0] - a];
      MoreTimes(a, k);
      assert req[1..] == Repeat<int>(a, k - 1) + rest;
      OnOneDisk(a, k - 1, rest, less);
      assert less[0 := less[0] - (k - 1) * a] == have[0 := have[0] - k * a];
    }
  }

  lemma MoreTimes(a: nat, k: nat)
    requires k > 0
    ensures k * a == a + (k - 1) * a && 0 <= (k - 1) * a
  {
  }

  lemma {:induction false} LastDiskTakes(b: int, have: seq<int>)
    requires have != [] && b <= have[|have| - 1]
    ensures Accepts([b], have)
  {
    if have[0] < b {
      LastDiskTakes(b, have[1..]);
    } else {
      assert [b][1..] == [];
    }
  }

  /** The first disk takes as many as it can, the others go on. */
  lemma FirstDiskFull(a: nat, n: nat, b: int, have: seq<int>)
    requires a > 0 && |have| > 1 && 0 <= have[0] && have[0] / a < n
    ensures Accepts(Repeat<int>(a, n) + [b], have) == Accepts(Repeat<int>(a, n - have[0] / a) + [b], have[1..])
  {
    var k := have[0] / a;
    DivideSmall(have[0], a);
    DivisionBounds(have[0], a);
    OneMore(k, a);
    RepeatSplit(a, n, k, [b]);
    OnOneDisk(a, k, Repeat<int>(a, n - k) + [b], have);
    FirstTooSmall(Repeat<int>(a, n - k) + [b], have, have[0] - k * a);
  }

  lemma RepeatSplit(x: int, n: nat, k: nat, rest: seq<int>)
    requires k <= n
    ensures Repeat<int>(x, n) + rest == Repeat<int>(x, k) + (Repeat<int>(x, n - k) + rest)
  {
  }

  lemma FirstTooSmall(req: seq<int>, have: seq<int>, left: int)
    requires req != [] && have != [] && left < req[0]
    ensures Accepts(req, have[0 := left]) == Accepts(req, have[1..])
  {
    assert have[0 := left][1..] == have[1..];
  }

  lemma {:induction false} RoomAccepted(a: nat, n: nat, b: int, have: seq<int>)
    requires a > 0 && 0 <= b && have != [] && NonNegative(have) && RoomAtEnd(a, n, b, have)
    ensures Accepts(Repeat<int>(a, n) + [b], have)
    decreases |have|
  {
    if |have| == 1 {
      AllOnOnly(a, n, b, have);
    } else if n <= have[0] / a {
      BackToSize(n, have[0], a);
      AllOnFirst(a, n, b, have);
    } else {
      DivideSmall(have[0], a);
      FirstDiskFull(a, n, b, have);
      RoomBehind(a, n, b, have);
      RoomAccepted(a, n - have[0] / a, b, have[1..]);
    }
  }

  lemma AllOnOnly(a: nat, n: nat, b: int, have: seq<int>)
    requires a > 0 && 0 <= b && |have| == 1 && NonNegative(have) && RoomAtEnd(a, n, b, have)
    ensures Accepts(Repeat<int>(a, n) + [b], have)
  {
    assert have[..|have| - 1] == [];
    assert n * a <= have[0] - b by { if n == 0 { assert n * a == 0; } }
    OnOneDisk(a, n, [b], have);
    LastDiskTakes(b, have[0 := have[0] - n * a]);
  }

  lemma RoomBehind(a: nat, n: nat, b: int, have: seq<int>)
    requires a > 0 && |have| > 1 && have[0] / a < n
    requires RoomAtEnd(a, n, b, have)
    ensures RoomAtEnd(a, n - have[0] / a, b, have[1..])
  {
    var init := have[..|have| - 1];
    assert init[1..] == have[1..][..|have| - 2];
    assert Slots(a, init) == have[0] / a + Slots(a, init[1..]);
  }

  lemma AllOnFirst(a: nat, n: nat, b: int, have: seq<int>)
    requires a > 0 && |have| > 1 && NonNegative(have) && n * a <= have[0] && n <= have[0] / a
    requires RoomAtEnd(a, n, b, have)
    ensures Accepts(Repeat<int>(a, n) + [b], have)
  {
    var init := have[..|have| - 1];
    SlotsNonNegative(a, init[1..]);
    assert init[0] == have[0] && Slots(a, init) == have[0] / a + Slots(a, init[1..]);
    OnOneDisk(a, n, [b], have);
    LastDiskTakes(b, have[0 := have[0] - n * a]);
  }

  lemma LastFits(a: nat, n: nat, b: int, have: seq<int>, p: seq<nat>)
    requires a > 0 && 0 <= b && NonNegative(have) && Fits(Repeat<int>(a, n) + [b], have, p)
    ensures p[n] < |have| && b <= have[p[n]]
    ensures n <= Slots(a, have[p[n] := have[p[n]] - b])
  {
    var req, d := Repeat<int>(a, n) + [b], p[n];
    LoadNonNegative(req, p, d);
    assert Load(req, p, p[n]) <= have[p[n]];
    RemoveFits(req, have, p, n);
    OthersFit(a, n, b, have[d := have[d] - b], RemoveAt(p, n));
  }

  lemma OthersFit(a: nat, n: nat, b: int, have: seq<int>, p: seq<nat>)
    requires a > 0 && NonNegative(have) && Fits(RemoveAt(Repeat<int>(a, n) + [b], n), have, p)
    ensures n <= Slots(a, have)
  {
    assert RemoveAt(Repeat<int>(a, n) + [b], n) == Repeat<int>(a, n);
    EqualSizesAccepted(n, a, have, p);
    AcceptedSlots(a, n, have);
  }

  /** With a last request that goes with the others, a packing leaves that room. */
  lemma PackedRoom(a: nat, n: nat, b: int, have: seq<int>, d: nat)
    requires a > 0 && a <= b && NonNegative(have) && Sorted(have)
    requires b % a == 0 || n * a <= b
    requires d < |have| && b <= have[d] && n <= Slots(a, have[d := have[d] - b])
    ensures RoomAtEnd(a, n, b, have)
  {
    var m := |have| - 1;
    var left := n - Slots(a, have[..m]);
    assert have[d] <= have[m];
    if left > 0 {
      SlotsUpdate(a, have, d, have[d] - b);
      SlotsInit(a, have);
      if b % a == 0 {
        TakeMultiple(have[d], b, a);
        TakeMultiple(have[m], b, a);
        assert left <= (have[m] - b) / a;
        BackToSize(left, have[m] - b, a);
      } else if d == m {
        BackToSize(left, have[m] - b, a);
      } else {
        SlotsOfOne(a, have[..m], d);
        QuotientAtLeast(n, have[d], a);
      }
    }
  }

  lemma TakeMultiple(x: int, b: int, a: nat)
    requires a > 0 && b % a == 0
    ensures (x - b) / a == x / a - b / a
  {
    assert b == b / a * a;
    DivideLess(x, a, b / a);
  }

  lemma SlotsOfOne(a: nat, have: seq<int>, d: nat)
    requires a > 0 && NonNegative(have) && d < |have|
    ensures have[d] / a <= Slots(a, have)
  {
    var s, t := have[..d], have[d + 1..];
    assert have == s + ([have[d]] + t);
    SlotsConcat(a, s, [have[d]] + t);
    assert ([have[d]] + t)[1..] == t;
    SlotsNonNegative(a, s);
    SlotsNonNegative(a, t);
  }

  // ---------- zeros ----------

  lemma ZerosAccepted(z: nat, rest: seq<int>, have: seq<int>)
    requires have != [] && NonNegative(have)
    ensures Accepts(Repeat<int>(0, z) + rest, have) == Accepts(rest, have)
  {
    OnOneDisk(0, z, rest, have);
    assert have[0 := have[0] - z * 0] == have;
  }

  lemma ZerosPackable(z: nat, rest: seq<int>, have: seq<int>)
    requires have != [] && NonNegative(have) && NonNegative(rest)
    ensures Packable(Repeat<int>(0, z) + rest, have) <==> Packable(rest, have)
  {
    var zeros := Repeat<int>(0, z);
    var req := zeros + rest;
    if p :| Fits(req, have, p) {
      assert multiset(rest) <= multiset(req);
      var q := FitsSub(req, have, p, rest);
    }
    if p :| Fits(rest, have, p) {
      ZerosFit(z, rest, have, p);
    }
  }

  lemma ZerosFit(z: nat, rest: seq<int>, have: seq<int>, p: seq<nat>)
    requires have != [] && NonNegative(have) && Fits(rest, have, p)
    ensures Packable(Repeat<int>(0, z) + rest, have)
  {
    var zeros, first := Repeat<int>(0, z), Repeat<nat>(0, z);
    var q := first + p;
    forall r | 0 <= r < |q| ensures q[r] < |have| && Load(zeros + rest, q, q[r]) <= have[q[r]] {
      LoadConcat(zeros, first, rest, p, q[r]);
      LoadOfZeros(z, first, q[r]);
      if q[r] in p {
        var i := IndexOf(p, q[r]);
        assert Load(rest, p, p[i]) <= have[p[i]];
      } else {
        LoadUnused(rest, p, q[r]);
      }
    }
    assert Fits(zeros + rest, have, q);
  }

  lemma LoadOfZeros(z: nat, p: seq<nat>, d: nat)
    requires |p| == z
    ensures Load(Repeat<int>(0, z), p, d) == 0
  {
    LoadNonNegative(Repeat<int>(0, z), p, d);
    LoadAtMostSum(Repeat<int>(0, z), p, d);
    SumRepeat(0, z);
  }

  // ---------- regular requests are decided ----------

  lemma OneLastDecided(a: nat, n: nat, b: int, have: seq<int>)
    requires a > 0 && 0 <= b && (n > 0 ==> a <= b) && NonNegative(have) && Sorted(have) && have != []
    requires n == 0 || b % a == 0 || n * a <= b
    requires Packable(Repeat<int>(a, n) + [b], have)
    ensures Accepts(Repeat<int>(a, n) + [b], have)
  {
    var p :| Fits(Repeat<int>(a, n) + [b], have, p);
    LastFits(a, n, b, have, p);
    if n == 0 {
      assert have[p[n]] <= have[|have| - 1];
      SlotsNonNegative(a, have[..|have| - 1]);
    } else {
      PackedRoom(a, n, b, have, p[n]);
    }
    RoomAccepted(a, n, b, have);
  }

  lemma RegularAccepted(req: seq<int>, z: nat, a: nat, n: nat, have: seq<int>)
    requires NonNegative(req) && Sorted(req) && RegularAt(req, z, a, n) && NonNegative(have) && Sorted(have)
    requires Packable(req, have)
    ensures Accepts(req, have)
  {
    var b := req[|req| - 1];
    var p :| Fits(req, have, p);
    assert p[0] < |have|;
    assert n > 0 ==> req[z] == a <= b;
    ZerosPackable(z, Repeat<int>(a, n) + [b], have);
    ZerosAccepted(z, Repeat<int>(a, n) + [b], have);
    OneLastDecided(a, n, b, have);
  }

  lemma RegularDecided(req: seq<int>, have: seq<int>)
    requires NonNegative(req) && Sorted(req) && Regular(req) && NonNegative(have) && Sorted(have)
    ensures Accepts(req, have) <==> Packable(req, have)
  {
    if Accepts(req, have) {
      AcceptedFits(req, have);
    } else if Packable(req, have) {
      var z: nat, a: nat, n: nat :| RegularAt(req, z, a, n);
      RegularAccepted(req, z, a, n, have);
    }
  }

  // ---------- other requests are not ----------

  /** One size and a last request that neither is a multiple nor outweighs the others: the greedy
      spoils the disk of just that size. */
  lemma MisfitRefused(a: nat, n: nat, b: int)
    requires a > 0 && a <= b < n * a && b % a != 0
    ensures Packable(Repeat<int>(a, n) + [b], [b, n * a]) && !Accepts(Repeat<int>(a, n) + [b], [b, n * a])
  {
    var k := b / a;
    DivideSmall(b, a);
    DivisionBounds(b, a);
    CancelFactor(k, n, a);
    NoMultiple(b, a, k);
    FirstDiskFull(a, n, b, [b, n * a]);
    assert [b, n * a][1..] == [n * a];
    LeftTooLarge(a, n, k, b);
    SeparatePacking(a, n, b);
  }

  lemma LeftTooLarge(a: nat, n: nat, k: nat, b: int)
    requires 0 <= k <= n && k * a < b
    ensures !Accepts(Repeat<int>(a, n - k) + [b], [n * a])
  {
    var rest := Repeat<int>(a, n - k) + [b];
    SumConcat(Repeat<int>(a, n - k), [b]);
    SumRepeat(a, n - k);
    SumOne(b);
    SumOne(n * a);
    assert (n - k) * a == n * a - k * a;
    if Accepts(rest, [n * a]) {
      AcceptedTotal(rest, [n * a]);
    }
  }

  lemma SeparatePacking(a: nat, n: nat, b: int)
    requires a > 0 && 0 <= b
    ensures Packable(Repeat<int>(a, n) + [b], [b, n * a])
  {
    var p := Repeat<nat>(1, n) + [0];
    var req, have := Repeat<int>(a, n) + [b], [b, n * a];
    forall d: nat | d < 2 ensures Load(req, p, d) <= have[d] {
      LoadConcat(Repeat<int>(a, n), Repeat<nat>(1, n), [b], [0], d);
      assert [b][1..] == [] && Load([b], [0], d) == if d == 0 then b else 0;
      if d == 1 {
        LoadAtMostSum(Repeat<int>(a, n), Repeat<nat>(1, n), 1);
        SumRepeat(a, n);
      } else {
        LoadUnused(Repeat<int>(a, n), Repeat<nat>(1, n), 0);
      }
    }
    assert Fits(req, have, p);
  }

  /** Two sizes `a < c` among the requests before the last: as many disks of size `a` as there are
      such requests but one, a disk of size `c`, and one for the rest. */
  function Trap(a: nat, n: nat, c: int, tail: seq<int>): seq<int>
    requires n > 0
  {
    Repeat<int>(a, n - 1) + [c, a + Sum(tail)]
  }

  lemma {:induction false} EachFillsOne(a: nat, k: nat, rest: seq<int>, have: seq<int>)
    requires a > 0 && rest != [] && rest[0] > 0 && have != []
    ensures Accepts(Repeat<int>(a, k) + rest, Repeat<int>(a, k) + have) == Accepts(rest, have)
    decreases k
  {
    if k == 0 {
      assert Repeat<int>(a, 0) + rest == rest && Repeat<int>(a, 0) + have == have;
    } else {
      var req, all := Repeat<int>(a, k) + rest, Repeat<int>(a, k) + have;
      var req', filled := Repeat<int>(a, k - 1) + rest, all[0 := 0];
      assert req[1..] == req' && all[1..] == Repeat<int>(a, k - 1) + have;
      assert req[0] == a && all[0] == a && filled[1..] == all[1..] && all[0 := all[0] - req[0]] == filled;
      assert req'[0] > 0;
      assert Accepts(req, all) == Accepts(req', filled);
      assert Accepts(req', filled) == Accepts(req', all[1..]);
      EachFillsOne(a, k - 1, rest, have);
    }
  }

  lemma TrapRefused(a: nat, n: nat, c: int, tail: seq<int>)
    requires a > 0 && n > 0 && a < c && NonNegative(tail)
    ensures !Accepts(Repeat<int>(a, n) + ([c] + tail), Trap(a, n, c, tail))
  {
    var total := Sum(tail);
    var rest, have := [a] + ([c] + tail), [c, a + total];
    assert Repeat<int>(a, n) + ([c] + tail) == Repeat<int>(a, n - 1) + rest;
    EachFillsOne(a, n - 1, rest, have);
    assert rest[1..] == [c] + tail && have[0 := c - a][1..] == [a + total];
    assert Accepts(rest, have) == Accepts([c] + tail, have[0 := c - a]);
    assert Accepts([c] + tail, have[0 := c - a]) == Accepts([c] + tail, [a + total]);
    SumNonNegative(tail);
    assert ([c] + tail)[1..] == tail;
    SumOne(a + total);
    if Accepts([c] + tail, [a + total]) {
      AcceptedTotal([c] + tail, [a + total]);
      assert false;
    }
  }

  /** Disk by disk, then one more disk that takes everything else. */
  lemma OwnDisks(sizes: seq<int>, more: seq<int>, last: int) returns (p: seq<nat>)
    requires NonNegative(sizes) && NonNegative(more) && Sum(more) <= last
    ensures Fits(sizes + more, sizes + [last], p)
  {
    var own: seq<nat> := seq(|sizes|, i requires 0 <= i < |sizes| => i);
    var all: seq<nat> := Repeat<nat>(|sizes|, |more|);
    p := own + all;
    forall r | 0 <= r < |p|
      ensures p[r] < |sizes| + 1 && Load(sizes + more, p, p[r]) <= (sizes + [last])[p[r]]
    {
      LoadConcat(sizes, own, more, all, p[r]);
      if r < |sizes| {
        LoadOfInjective(sizes, own, r);
        LoadUnused(more, all, r);
      } else {
        LoadUnused(sizes, own, |sizes|);
        LoadAtMostSum(more, all, |sizes|);
      }
    }
  }

  lemma TrapPackable(a: nat, n: nat, c: int, tail: seq<int>)
    requires a > 0 && n > 0 && a < c && NonNegative(tail)
    ensures Packable(Repeat<int>(a, n) + ([c] + tail), Trap(a, n, c, tail))
  {
    var sizes, more := Repeat<int>(a, n - 1) + [c], [a] + tail;
    var req := Repeat<int>(a, n) + ([c] + tail);
    assert more[1..] == tail;
    var p := OwnDisks(sizes, more, a + Sum(tail));
    assert sizes + [a + Sum(tail)] == Trap(a, n, c, tail);
    assert Repeat<int>(a, n) == Repeat<int>(a, n - 1) + [a];
    assert multiset(sizes + more) == multiset(req);
    var q := FitsSub(sizes + more, Trap(a, n, c, tail), p, req);
  }

  // ---------- splitting a sorted list ----------

  /** How many requests at the head have size `x`. */
  function Run(req: seq<int>, x: int): (n: nat)
    ensures n <= |req| && (n < |req| ==> req[n] != x)
    ensures req[..n] == Repeat<int>(x, n)
  {
    if req == [] || req[0] != x then 0 else 1 + Run(req[1..], x)
  }

  lemma RunThen(req: seq<int>, x: int)
    ensures req == Repeat<int>(x, Run(req, x)) + req[Run(req, x)..]
  {
    assert req == req[..Run(req, x)] + req[Run(req, x)..];
  }

  /** Disks on which sorted positive requests can be packed and are refused. */
  ghost predicate Fooled(req: seq<int>, have: seq<int>) {
    have != [] && NonNegative(have) && Sorted(have) && Packable(req, have) && !Accepts(req, have)
  }

  lemma TrapFools(a: nat, n: nat, c: int, tail: seq<int>)
    requires a > 0 && n > 0 && a < c && tail != [] && c <= tail[0] && NonNegative(tail)
    ensures Fooled(Repeat<int>(a, n) + ([c] + tail), Trap(a, n, c, tail))
  {
    TrapRefused(a, n, c, tail);
    TrapPackable(a, n, c, tail);
    SumNonNegative(tail[1..]);
  }

  lemma IrregularFooled(req: seq<int>) returns (have: seq<int>)
    requires req != [] && Sorted(req) && req[0] > 0
    requires forall n: nat :: !RegularAt(req, 0, req[0], n)
    ensures Fooled(req, have)
  {
    var a: nat, n := req[0], Run(req, req[0]);
    var rest := req[n..];
    RunThen(req, a);
    if |rest| <= 1 {
      have := OneMisfit(req, a, n);
    } else {
      var tail := rest[1..];
      assert rest == [rest[0]] + tail && rest[0] == req[n] && tail[0] == req[n + 1];
      have := Trap(a, n, rest[0], tail);
      TrapFools(a, n, rest[0], tail);
    }
  }

  lemma OneMisfit(req: seq<int>, a: nat, n: nat) returns (have: seq<int>)
    requires req != [] && Sorted(req) && req[0] == a > 0 && n == Run(req, a) && |req| <= n + 1
    requires !RegularAt(req, 0, a, |req| - 1)
    ensures Fooled(req, have)
  {
    var k, b := |req| - 1, req[|req| - 1];
    RunThen(req, a);
    SameBeforeLast(req, a, n);
    NotRegular(req, a);
    have := [b, k * a];
    MisfitFools(a, k, b);
  }

  lemma NotRegular(req: seq<int>, a: nat)
    requires req != [] && a > 0 && !RegularAt(req, 0, a, |req| - 1)
    requires req == Repeat<int>(0, 0) + (Repeat<int>(a, |req| - 1) + [req[|req| - 1]])
    ensures req[|req| - 1] < (|req| - 1) * a && req[|req| - 1] % a != 0
  {
  }

  lemma MisfitFools(a: nat, n: nat, b: int)
    requires a > 0 && a <= b < n * a && b % a != 0
    ensures Fooled(Repeat<int>(a, n) + [b], [b, n * a])
  {
    MisfitRefused(a, n, b);
  }

  lemma SameBeforeLast(req: seq<int>, a: nat, n: nat)
    requires req != [] && |req| - 1 <= n <= |req| && req[..n] == Repeat<int>(a, n)
    ensures var k, b := |req| - 1, req[|req| - 1];
            req == Repeat<int>(a, k) + [b] == Repeat<int>(0, 0) + (Repeat<int>(a, k) + [b])
  {
    var k := |req| - 1;
    assert forall i :: 0 <= i < k ==> req[i] == req[..n][i];
    assert req[..k] == Repeat<int>(a, k) && req == req[..k] + [req[k]];
  }

  lemma ZerosRegular(z: nat, rest: seq<int>, n: nat)
    requires rest != [] && rest[0] > 0 && RegularAt(rest, 0, rest[0], n)
    ensures Regular(Repeat<int>(0, z) + rest)
  {
    var req := Repeat<int>(0, z) + rest;
    var b := rest[|rest| - 1];
    assert Repeat<int>(0, 0) + (Repeat<int>(rest[0], n) + [b]) == Repeat<int>(rest[0], n) + [b];
    assert RegularAt(req, z, rest[0], n);
  }

  lemma ZerosAreRegular(z: nat)
    ensures Regular(Repeat<int>(0, z) + [])
  {
    var req := Repeat<int>(0, z) + [];
    if z > 0 {
      assert req == Repeat<int>(0, z - 1) + (Repeat<int>(1, 0) + [0]);
      assert RegularAt(req, z - 1, 1, 0);
    }
  }

  lemma OtherFooled(req: seq<int>) returns (have: seq<int>)
    requires NonNegative(req) && Sorted(req) && !Regular(req)
    ensures Fooled(req, have)
  {
    var z := Run(req, 0);
    var rest := req[z..];
    RunThen(req, 0);
    if rest == [] {
      ZerosAreRegular(z);
      assert false;
    } else {
      forall n: nat ensures !RegularAt(rest, 0, rest[0], n) {
        if RegularAt(rest, 0, rest[0], n) {
          ZerosRegular(z, rest, n);
        }
      }
      have := IrregularFooled(rest);
      ZerosPackable(z, rest, have);
      ZerosAccepted(z, rest, have);
    }
  }

  /** For sorted requests the greedy decides bin packing, on all sorted clamped disks, if and only if
      the requests are regular. */
  lemma BinPackingIff(req: seq<int>)
    requires NonNegative(req) && Sorted(req)
    ensures (forall have :: NonNegative(have) && Sorted(have) ==>
               (Accepts(req, have) <==> Packable(req, have)))
       <==> Regular(req)
  {
    if Regular(req) {
      forall have | NonNegative(have) && Sorted(have) ensures Accepts(req, have) <==> Packable(req, have) {
        RegularDecided(req, have);
      }
    } else {
      var have := OtherFooled(req);
    }
  }

  /** Two of 2 and two of 3 are not regular: 2+3 and 2+3 fit two disks of 5, and are refused. */
  lemma GreedyIsNotBinPacking()
    ensures Sorted([2, 2, 3, 3]) && Sorted([5, 5])
    ensures Fits([2, 2, 3, 3], [5, 5], [0, 1, 0, 1]) && !Accepts([2, 2, 3, 3], [5, 5])
    ensures !Regular([2, 2, 3, 3])
  {
    var req: seq<int>, a: seq<nat> := [2, 2, 3, 3], [0, 1, 0, 1];
    forall d: nat | d < 2 ensures Load(req, a, d) == 5 {
      assert req[1..] == [2, 3, 3] && a[1..] == [1, 0, 1];
      assert req[1..][1..] == [3, 3] && a[1..][1..] == [0, 1];
      assert [3, 3][1..] == [3] && [0, 1][1..] == [1];
      assert Load([3], [1], d) == if d == 1 then 3 else 0;
      assert Load([3, 3], [0, 1], d) == 3;
      assert Load([2, 3, 3], [1, 0, 1], d) == 3 + if d == 1 then 2 else 0;
    }
    assert [3, 3][1..] == [3] && [5][0 := 2] == [2] && !Accepts([3], [2]);
    assert [1, 5][1..] == [5] && !Accepts([3, 3], [5]);
    assert [2, 3, 3][1..] == [3, 3] && [3, 5][0 := 1] == [1, 5] && !Accepts([3, 3], [1, 5]);
    assert [2, 2, 3, 3][1..] == [2, 3, 3] && [5, 5][0 := 3] == [3, 5] && !Accepts([2, 3, 3], [3, 5]);
    assert Fits(req, [5, 5], a);
    BinPackingIff(req);
  }
}
