/**
 Facts about finite sequences that the other modules share: sums, maps and filters seen through
 multisets, removal of one element, and insertion sort on integers as the meaning of "sorted".
 */
module Sequences {

  datatype Option<+T> = None | Some(value: T)

  function Max(a: int, b: int): int {
    if a < b then b else a
  }

  function RemoveAt<T>(s: seq<T>, k: nat): (r: seq<T>)
    requires k < |s|
  {
    s[..k] + s[k + 1..]
  }

  lemma ConcatAssociates<T>(s: seq<T>, t: seq<T>, u: seq<T>)
    ensures s + (t + u) == (s + t) + u
  {
  }

  lemma SplitAround<T>(s: seq<T>, k: nat)
    requires k < |s|
    ensures s == (s[..k] + [s[k]]) + s[k + 1..]
  {
  }

  lemma RemoveAtMultiset<T>(s: seq<T>, k: nat)
    requires k < |s|
    ensures multiset(s) == multiset(RemoveAt(s, k)) + multiset{s[k]}
  {
    assert s == s[..k] + [s[k]] + s[k + 1..];
  }

  function IndexOf<T(==)>(s: seq<T>, x: T): (k: nat)
    requires x in s
    ensures k < |s| && s[k] == x
  {
    if s[0] == x then 0 else 1 + IndexOf(s[1..], x)
  }

  lemma TailMultiset<T>(s: seq<T>)
    requires s != []
    ensures multiset(s) == multiset{s[0]} + multiset(s[1..])
    ensures multiset(s[1..]) == multiset(s) - multiset{s[0]} && s[0] in multiset(s)
  {
    assert s == [s[0]] + s[1..];
  }

  /** Splits `t <= s` on multisets at the head of `t`, the step every induction below takes. */
  lemma HeadInside<T>(t: seq<T>, s: seq<T>) returns (k: nat)
    requires t != [] && multiset(t) <= multiset(s)
    ensures k < |s| && s[k] == t[0]
    ensures multiset(t[1..]) <= multiset(RemoveAt(s, k))
    ensures multiset(t) == multiset(s) ==> multiset(t[1..]) == multiset(RemoveAt(s, k))
  {
    TailMultiset(t);
    k := IndexOf(s, t[0]);
    RemoveAtMultiset(s, k);
    TakeBoth(multiset(t), multiset(t[1..]), multiset(s), multiset(RemoveAt(s, k)), t[0]);
  }

  lemma TakeBoth<T>(t: multiset<T>, t': multiset<T>, s: multiset<T>, s': multiset<T>, x: T)
    requires t == multiset{x} + t' && s == s' + multiset{x} && t <= s
    ensures t' <= s' && (t == s ==> t' == s')
  {
    assert t' == t - multiset{x} && s' == s - multiset{x};
  }

  lemma SomeMember<T>(m: multiset<T>) returns (x: T)
    requires m != multiset{}
    ensures x in m
  {
    x :| x in m;
  }

  /** `p` sends every position of `s` to one of `t` with the same element, no two to one. */
  predicate Renumbers<T(==)>(s: seq<T>, t: seq<T>, p: seq<nat>) {
    && |p| == |s|
    && (forall i :: 0 <= i < |p| ==> p[i] < |t| && s[i] == t[p[i]])
    && forall i, j :: 0 <= i < j < |p| ==> p[i] != p[j]
  }

  /** Positions of a list without element `k`, as positions of the whole list. */
  function Around(q: seq<nat>, k: nat): (r: seq<nat>)
    ensures |r| == |q| && forall i :: 0 <= i < |q| ==> r[i] == if q[i] < k then q[i] else q[i] + 1
  {
    seq(|q|, i requires 0 <= i < |q| => if q[i] < k then q[i] else q[i] + 1)
  }

  lemma RemoveAtIndex<T>(t: seq<T>, k: nat, j: nat)
    requires k < |t| && j < |t| - 1
    ensures |RemoveAt(t, k)| == |t| - 1 && RemoveAt(t, k)[j] == t[if j < k then j else j + 1]
  {
  }

  lemma AroundRenumbers<T>(s: seq<T>, t: seq<T>, k: nat, q: seq<nat>)
    requires k < |t| && Renumbers(s, RemoveAt(t, k), q)
    ensures Renumbers(s, t, Around(q, k)) && k !in Around(q, k)
  {
    forall i | 0 <= i < |q| ensures Around(q, k)[i] < |t| && s[i] == t[Around(q, k)[i]] {
      assert |RemoveAt(t, k)| == |t| - 1;
      RemoveAtIndex(t, k, q[i]);
    }
  }

  lemma RenumbersCons<T>(x: T, s: seq<T>, t: seq<T>, k: nat, p: seq<nat>)
    requires k < |t| && t[k] == x && Renumbers(s, t, p) && k !in p
    ensures Renumbers([x] + s, t, [k] + p)
  {
  }

  /** Equal multisets are related by an injective renumbering. */
  lemma {:induction false} Renumbering<T>(s: seq<T>, t: seq<T>) returns (p: seq<nat>)
    requires multiset(s) == multiset(t)
    ensures Renumbers(s, t, p)
  {
    if s == [] {
      p := [];
    } else {
      var k := HeadInside(s, t);
      var q := Renumbering(s[1..], RemoveAt(t, k));
      AroundRenumbers(s[1..], t, k, q);
      RenumbersCons(s[0], s[1..], t, k, Around(q, k));
      p := [k] + Around(q, k);
      assert s == [s[0]] + s[1..];
    }
  }

  // ---------- sums ----------

  function Sum(s: seq<int>): int {
    if s == [] then 0 else s[0] + Sum(s[1..])
  }

  predicate NonNegative(s: seq<int>) {
    forall i :: 0 <= i < |s| ==> 0 <= s[i]
  }

  lemma {:induction false} SumConcat(s: seq<int>, t: seq<int>)
    ensures Sum(s + t) == Sum(s) + Sum(t)
  {
    if s == [] {
      assert s + t == t;
    } else {
      assert (s + t)[1..] == s[1..] + t;
      SumConcat(s[1..], t);
    }
  }

  lemma {:induction false} SumRemoveAt(s: seq<int>, k: nat)
    requires k < |s|
    ensures Sum(RemoveAt(s, k)) == Sum(s) - s[k]
  {
    if k == 0 {
      assert RemoveAt(s, 0) == s[1..];
    } else {
      SumRemoveAt(s[1..], k - 1);
      assert RemoveAt(s, k)[1..] == RemoveAt(s[1..], k - 1);
    }
  }

  lemma {:induction false} SumNonNegative(s: seq<int>)
    requires NonNegative(s)
    ensures 0 <= Sum(s)
    ensures Sum(s) == 0 ==> forall i :: 0 <= i < |s| ==> s[i] == 0
  {
    if s != [] {
      SumNonNegative(s[1..]);
      assert Sum(s) == 0 ==> forall i :: 1 <= i < |s| ==> s[i] == s[1..][i - 1];
    }
  }

  lemma {:induction false} SumSub(t: seq<int>, s: seq<int>)
    requires NonNegative(s) && multiset(t) <= multiset(s)
    ensures Sum(t) <= Sum(s)
    ensures multiset(t) == multiset(s) ==> Sum(t) == Sum(s)
  {
    if t == [] {
      SumNonNegative(s);
      assert multiset(t) == multiset(s) ==> |multiset(s)| == 0;
    } else {
      var k := HeadInside(t, s);
      SumRemoveAt(s, k);
      SumSub(t[1..], RemoveAt(s, k));
    }
  }

  lemma {:induction false} SumPermutation(t: seq<int>, s: seq<int>)
    requires multiset(t) == multiset(s)
    ensures Sum(t) == Sum(s)
  {
    if t == [] {
      assert |multiset(s)| == 0;
    } else {
      var k := HeadInside(t, s);
      SumRemoveAt(s, k);
      SumPermutation(t[1..], RemoveAt(s, k));
    }
  }

  lemma {:induction false} SumDominated(s: seq<int>, t: seq<int>)
    requires |s| == |t| && forall i :: 0 <= i < |s| ==> s[i] <= t[i]
    ensures Sum(s) <= Sum(t)
  {
    if s != [] {
      SumDominated(s[1..], t[1..]);
    }
  }

  lemma {:induction false} SumRepeat(x: int, n: nat)
    ensures Sum(Repeat(x, n)) == n * x
  {
    if n > 0 {
      SumRepeat(x, n - 1);
      assert Repeat(x, n)[1..] == Repeat(x, n - 1);
    }
  }

  lemma SubNonNegative(s: seq<int>, t: seq<int>)
    requires NonNegative(s) && multiset(t) <= multiset(s)
    ensures NonNegative(t)
  {
    forall i | 0 <= i < |t| ensures 0 <= t[i] {
      assert t[i] in multiset(t);
      assert t[i] in multiset(s) && t[i] in s;
    }
  }

  // ---------- map and filter ----------

  function Map<A, B>(f: A -> B, s: seq<A>): (r: seq<B>)
    ensures |r| == |s| && forall i :: 0 <= i < |s| ==> r[i] == f(s[i])
  {
    seq(|s|, i requires 0 <= i < |s| => f(s[i]))
  }

  lemma {:induction false} MapSub<A, B>(f: A -> B, t: seq<A>, s: seq<A>)
    requires multiset(t) <= multiset(s)
    ensures multiset(Map(f, t)) <= multiset(Map(f, s))
    ensures multiset(t) == multiset(s) ==> multiset(Map(f, t)) == multiset(Map(f, s))
  {
    if t == [] {
      assert multiset(t) == multiset(s) ==> |multiset(s)| == 0;
    } else {
      var k := HeadInside(t, s);
      MapSub(f, t[1..], RemoveAt(s, k));
      assert Map(f, RemoveAt(s, k)) == RemoveAt(Map(f, s), k);
      RemoveAtMultiset(Map(f, s), k);
      assert Map(f, t) == [f(t[0])] + Map(f, t[1..]);
    }
  }

  function Filter<T>(f: T -> bool, s: seq<T>): seq<T> {
    if s == [] then [] else (if f(s[0]) then [s[0]] else []) + Filter(f, s[1..])
  }

  lemma FilterCons<T>(f: T -> bool, x: T, s: seq<T>)
    ensures Filter(f, [x] + s) == (if f(x) then [x] else []) + Filter(f, s)
  {
    assert ([x] + s)[1..] == s;
  }

  lemma {:induction false} FilterConcat<T>(f: T -> bool, s: seq<T>, t: seq<T>)
    ensures Filter(f, s + t) == Filter(f, s) + Filter(f, t)
  {
    if s == [] {
      assert s + t == t;
    } else {
      assert s == [s[0]] + s[1..] && s + t == [s[0]] + (s[1..] + t);
      FilterConcat(f, s[1..], t);
      FilterCons(f, s[0], s[1..] + t);
      FilterCons(f, s[0], s[1..]);
    }
  }

  lemma {:induction false} FilterCount<T>(f: T -> bool, s: seq<T>, x: T)
    ensures multiset(Filter(f, s))[x] == if f(x) then multiset(s)[x] else 0
  {
    if s != [] {
      FilterCount(f, s[1..], x);
      assert s == [s[0]] + s[1..];
    }
  }

  lemma FilterSub<T>(f: T -> bool, t: seq<T>, s: seq<T>)
    requires multiset(t) <= multiset(s)
    ensures multiset(Filter(f, t)) <= multiset(Filter(f, s))
  {
    var less, more := multiset(Filter(f, t)), multiset(Filter(f, s));
    forall x | x in less ensures less[x] <= more[x] {
      FilterCount(f, t, x);
      FilterCount(f, s, x);
      assert multiset(t)[x] <= multiset(s)[x];
    }
    assert less <= more;
  }

  lemma FilterMembers<T>(f: T -> bool, s: seq<T>)
    ensures forall x :: x in Filter(f, s) <==> x in s && f(x)
  {
    forall x ensures x in Filter(f, s) <==> x in s && f(x) {
      FilterCount(f, s, x);
      assert x in s <==> x in multiset(s);
      assert x in Filter(f, s) <==> x in multiset(Filter(f, s));
    }
  }

  lemma FilterUpdate<T>(f: T -> bool, s: seq<T>, i: nat, x: T)
    requires i < |s|
    ensures |Filter(f, s[i := x])| ==
            |Filter(f, s)| - (if f(s[i]) then 1 else 0) + (if f(x) then 1 else 0)
  {
    var a, b := s[..i], s[i + 1..];
    assert s == a + ([s[i]] + b) && s[i := x] == a + ([x] + b);
    FilterConcat(f, a, [s[i]] + b);
    FilterConcat(f, a, [x] + b);
    assert ([s[i]] + b)[1..] == b && ([x] + b)[1..] == b;
  }

  lemma MapConcat<A, B>(f: A -> B, s: seq<A>, t: seq<A>)
    ensures Map(f, s + t) == Map(f, s) + Map(f, t)
  {
  }

  lemma {:induction false} AllPass<T>(f: T -> bool, s: seq<T>)
    requires forall i :: 0 <= i < |s| ==> f(s[i])
    ensures Filter(f, s) == s
  {
    if s != [] {
      AllPass(f, s[1..]);
    }
  }

  lemma {:induction false} NonePass<T>(f: T -> bool, s: seq<T>)
    requires forall i :: 0 <= i < |s| ==> !f(s[i])
    ensures Filter(f, s) == []
  {
    if s != [] {
      NonePass(f, s[1..]);
    }
  }

  lemma FilterOne<T>(f: T -> bool, x: T)
    ensures Filter(f, [x]) == if f(x) then [x] else []
  {
    FilterCons(f, x, []);
    assert [x] + [] == [x] && [] + Filter(f, []) == [];
  }

  lemma SumMapCons<A>(f: A -> int, x: A, s: seq<A>)
    ensures Sum(Map(f, [x] + s)) == f(x) + Sum(Map(f, s))
  {
    assert Map(f, [x] + s)[1..] == Map(f, s);
  }

  lemma SumOne(x: int)
    ensures Sum([x]) == x
  {
    assert [x][1..] == [];
  }

  lemma FilterPair<T>(f: T -> bool, x: T, y: T)
    ensures Filter(f, [x, y]) == (if f(x) then [x] else []) + (if f(y) then [y] else [])
  {
    assert [x, y] == [x] + [y] && [x][1..] == [] && [y][1..] == [];
    FilterConcat(f, [x], [y]);
  }

  lemma SameMembers<T>(s: seq<T>, t: seq<T>)
    requires multiset(s) == multiset(t)
    ensures forall x :: x in s <==> x in t
  {
    forall x ensures x in s <==> x in t {
      assert x in s <==> x in multiset(s);
      assert x in t <==> x in multiset(t);
    }
  }

  function Repeat<T>(x: T, n: nat): (r: seq<T>)
    ensures |r| == n && forall i :: 0 <= i < n ==> r[i] == x
  {
    seq(n, _ => x)
  }

  lemma {:induction false} RepeatMultiset<T>(x: T, n: nat)
    ensures forall y :: multiset(Repeat(x, n))[y] == if y == x then n else 0
  {
    if n > 0 {
      RepeatMultiset(x, n - 1);
      assert Repeat(x, n) == [x] + Repeat(x, n - 1);
    }
  }

  // ---------- sorting ----------

  predicate Sorted(s: seq<int>) {
    forall i, j :: 0 <= i < j < |s| ==> s[i] <= s[j]
  }

  function Insert(x: int, s: seq<int>): (r: seq<int>)
    ensures |r| == |s| + 1
  {
    if s == [] then [x]
    else if x <= s[0] then [x] + s
    else [s[0]] + Insert(x, s[1..])
  }

  function Sort(s: seq<int>): (r: seq<int>)
    ensures |r| == |s|
  {
    if s == [] then [] else Insert(s[0], Sort(s[1..]))
  }

  lemma {:induction false} InsertMultiset(x: int, s: seq<int>)
    ensures multiset(Insert(x, s)) == multiset(s) + multiset{x}
  {
    if s != [] && s[0] < x {
      InsertMultiset(x, s[1..]);
      TailMultiset(s);
      assert multiset(Insert(x, s)) == multiset{s[0]} + multiset(Insert(x, s[1..]));
    }
  }

  lemma {:induction false} InsertSorted(x: int, s: seq<int>)
    requires Sorted(s)
    ensures Sorted(Insert(x, s))
  {
    if s == [] {
    } else if x <= s[0] {
      SortedHeads(s);
      ConsSorted(x, s);
    } else {
      var r := Insert(x, s[1..]);
      InsertSorted(x, s[1..]);
      InsertMembers(x, s[1..]);
      SortedHeads(s);
      ConsSorted(s[0], r);
    }
  }

  lemma {:induction false} InsertMembers(x: int, s: seq<int>)
    ensures forall v :: v in Insert(x, s) ==> v == x || v in s
  {
    if s != [] && s[0] < x {
      InsertMembers(x, s[1..]);
    }
  }

  lemma SortedHeads(s: seq<int>)
    requires Sorted(s) && s != []
    ensures Sorted(s[1..]) && forall v :: v in s ==> s[0] <= v
  {
  }

  lemma ConsSorted(x: int, r: seq<int>)
    requires Sorted(r) && forall v :: v in r ==> x <= v
    ensures Sorted([x] + r)
  {
    var s := [x] + r;
    forall i, j | 0 <= i < j < |s| ensures s[i] <= s[j] {
      assert s[j] == r[j - 1] && s[j] in r;
    }
  }

  lemma {:induction false} SortSorts(s: seq<int>)
    ensures Sorted(Sort(s)) && multiset(Sort(s)) == multiset(s)
  {
    if s != [] {
      SortSorts(s[1..]);
      InsertSorted(s[0], Sort(s[1..]));
      InsertMultiset(s[0], Sort(s[1..]));
      assert s == [s[0]] + s[1..];
    }
  }

  lemma SameLength<T>(s: seq<T>, t: seq<T>)
    requires multiset(s) == multiset(t)
    ensures |s| == |t|
  {
    assert |multiset(s)| == |s| && |multiset(t)| == |t|;
  }

  lemma SameHead(s: seq<int>, t: seq<int>)
    requires Sorted(s) && Sorted(t) && multiset(s) == multiset(t) && s != [] && t != []
    ensures s[0] == t[0] && multiset(s[1..]) == multiset(t[1..])
  {
    TailMultiset(s);
    TailMultiset(t);
    SortedHeads(s);
    SortedHeads(t);
    assert t[0] in s && s[0] in t;
  }

  /** A sorted arrangement is unique, so which sorting algorithm ran does not matter. */
  lemma {:induction false} SortedUnique(s: seq<int>, t: seq<int>)
    requires Sorted(s) && Sorted(t) && multiset(s) == multiset(t)
    ensures s == t
    decreases |s|
  {
    SameLength(s, t);
    if s != [] {
      SameHead(s, t);
      SortedHeads(s);
      SortedHeads(t);
      SortedUnique(s[1..], t[1..]);
      ConsEqual(s, t);
    }
  }

  lemma ConsEqual<T>(s: seq<T>, t: seq<T>)
    requires s != [] && t != [] && s[0] == t[0] && s[1..] == t[1..]
    ensures s == t
  {
    assert s == [s[0]] + s[1..] && t == [t[0]] + t[1..];
  }

  lemma SortUnique(s: seq<int>, t: seq<int>)
    requires Sorted(t) && multiset(s) == multiset(t)
    ensures t == Sort(s)
  {
    SortSorts(s);
    SortedUnique(Sort(s), t);
  }

  predicate Dominates(t: seq<int>, s: seq<int>) {
    |t| == |s| && forall i :: 0 <= i < |s| ==> s[i] <= t[i]
  }

  lemma ConsDominates(x: int, s: seq<int>, y: int, t: seq<int>)
    requires x <= y && Dominates(t, s)
    ensures Dominates([y] + t, [x] + s)
  {
  }

  lemma {:induction false} InsertDominates(x: int, s: seq<int>, y: int, t: seq<int>)
    requires Sorted(s) && Sorted(t) && Dominates(t, s) && x <= y
    ensures Dominates(Insert(y, t), Insert(x, s))
    decreases |s|
  {
    if s != [] {
      var s', t' := s[1..], t[1..];
      if x <= s[0] && y <= t[0] {
        ConsDominates(x, s, y, t);
      } else if x <= s[0] {
        InsertDominates(s[0], s', y, t');
        assert Insert(s[0], s') == s;
        ConsDominates(x, s, t[0], Insert(y, t'));
      } else if y <= t[0] {
        InsertDominates(x, s', t[0], t');
        assert Insert(t[0], t') == t;
        ConsDominates(s[0], Insert(x, s'), y, t);
      } else {
        InsertDominates(x, s', y, t');
        ConsDominates(s[0], Insert(x, s'), t[0], Insert(y, t'));
      }
    }
  }

  /** Pointwise dominance survives sorting. */
  lemma {:induction false} SortDominates(s: seq<int>, t: seq<int>)
    requires Dominates(t, s)
    ensures Dominates(Sort(t), Sort(s))
  {
    if s != [] {
      SortDominates(s[1..], t[1..]);
      SortSorts(s[1..]);
      SortSorts(t[1..]);
      InsertDominates(s[0], Sort(s[1..]), t[0], Sort(t[1..]));
    }
  }
}
