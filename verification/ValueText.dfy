/**
 Value sets as text: splitting at commas, joining with commas, and inserting the pieces of a text
 into a label's value set.
 */
module ValueText {

  function Split(s: string): (r: seq<string>)
    ensures r != []
  {
    if s == "" then [""]
    else if s[0] == ',' then [""] + Split(s[1..])
    else
      var r := Split(s[1..]);
      [[s[0]] + r[0]] + r[1..]
  }

  function Join(list: seq<string>): string {
    if list == [] then ""
    else if |list| == 1 then list[0]
    else list[0] + "," + Join(list[1..])
  }

  function SetOf(list: seq<string>): set<string> {
    set s | s in list
  }

  predicate CommaFree(s: string) {
    ',' !in s
  }

  lemma {:induction false} SplitCommaFree(s: string)
    requires CommaFree(s)
    ensures Split(s) == [s]
  {
    if s != "" {
      SplitCommaFree(s[1..]);
      assert s == [s[0]] + s[1..];
    }
  }

  lemma {:induction false} SplitPieces(s: string, k: nat)
    requires k < |Split(s)|
    ensures CommaFree(Split(s)[k]) && |Split(s)[k]| <= |s|
  {
    if s == "" {
    } else if s[0] == ',' {
      if k > 0 { SplitPieces(s[1..], k - 1); }
    } else {
      SplitPieces(s[1..], k);
    }
  }

  lemma {:induction false} SplitAtComma(s: string, t: string)
    ensures Split(s + "," + t) == Split(s) + Split(t)
    decreases |s|
  {
    if s == "" {
      assert s + "," + t == "," + t && ("," + t)[1..] == t;
    } else {
      assert (s + "," + t)[1..] == s[1..] + "," + t && (s + "," + t)[0] == s[0];
      SplitAtComma(s[1..], t);
    }
  }

  /** All pieces of all texts of a list. */
  function Pieces(list: seq<string>): seq<string> {
    if list == [] then [] else Split(list[0]) + Pieces(list[1..])
  }

  lemma {:induction false} SplitJoinPieces(list: seq<string>)
    requires list != []
    ensures Split(Join(list)) == Pieces(list)
  {
    if |list| == 1 {
      assert Pieces(list[1..]) == [];
    } else {
      SplitAtComma(list[0], Join(list[1..]));
      SplitJoinPieces(list[1..]);
    }
  }

  lemma {:induction false} PiecesCommaFree(list: seq<string>)
    requires forall s :: s in list ==> CommaFree(s)
    ensures Pieces(list) == list
  {
    if list != [] {
      SplitCommaFree(list[0]);
      PiecesCommaFree(list[1..]);
    }
  }

  lemma {:induction false} PiecesMembers(list: seq<string>, p: string)
    ensures p in Pieces(list) <==> exists s :: s in list && p in Split(s)
  {
    if list != [] {
      PiecesMembers(list[1..], p);
      assert list == [list[0]] + list[1..];
      assert p in Pieces(list) <==> p in Split(list[0]) || p in Pieces(list[1..]);
      if s :| s in list && p in Split(s) {
        assert s == list[0] || s in list[1..];
      }
      assert list[0] in list;
    }
  }

  /** A list of comma-free values comes back from its text, empty values included. */
  lemma SplitJoin(list: seq<string>)
    requires list != [] && forall s :: s in list ==> CommaFree(s)
    ensures Split(Join(list)) == list
  {
    SplitJoinPieces(list);
    PiecesCommaFree(list);
  }

  /** Lists a set in an arbitrary order, each member once. */
  method ListMapString(m: set<string>) returns (ret: seq<string>)
    ensures SetOf(ret) == m && |ret| == |m|
  {
    ret := [];
    var rest := m;
    while rest != {}
      invariant rest <= m && SetOf(ret) == m - rest && |ret| + |rest| == |m|
      decreases rest
    {
      var str :| str in rest;
      assert SetOf(ret + [str]) == SetOf(ret) + {str} by {
        assert forall s :: s in ret + [str] <==> s in ret || s == str;
      }
      ret := ret + [str];
      rest := rest - {str};
    }
  }

  type ValueMap = map<string, set<string>>

  /** Key `k` with the pieces of `v` among its values. */
  function Inserted(lvs: ValueMap, k: string, v: string): ValueMap {
    lvs[k := (if k in lvs then lvs[k] else {}) + SetOf(Split(v))]
  }

  method InsertValue(lvs: ValueMap, k: string, v: string) returns (r: ValueMap)
    ensures r == Inserted(lvs, k, v)
    ensures k in r && forall s :: s in r[k] <==> s in Split(v) || (k in lvs && s in lvs[k])
    ensures forall key :: key != k ==> (key in r <==> key in lvs) && (key in lvs ==> r[key] == lvs[key])
  {
    var strs := [""];
    if v != "" {
      strs := Split(v);
    }
    var valueMap: set<string> := if k in lvs then lvs[k] else {};
    for i := 0 to |strs|
      invariant valueMap == (if k in lvs then lvs[k] else {}) + SetOf(strs[..i])
    {
      assert strs[..i + 1] == strs[..i] + [strs[i]];
      valueMap := valueMap + {strs[i]};
    }
    assert strs[..|strs|] == strs;
    r := lvs[k := valueMap];
  }

  /** Listing a non-empty comma-free value set in any order, joining the list and inserting the text
      under a new key gives back the set; the other keys are left alone. */
  lemma RelistedValues(values: set<string>, list: seq<string>, lvs: ValueMap, k: string)
    requires values != {} && forall s :: s in values ==> CommaFree(s)
    requires SetOf(list) == values && k !in lvs
    ensures Inserted(lvs, k, Join(list)) == lvs[k := values]
  {
    forall s | s in list ensures CommaFree(s) {
      assert s in SetOf(list);
    }
    assert list != [];
    SplitJoin(list);
    assert {} + values == values;
  }

  /** Whatever is inserted, the values of the key are comma-free and not empty. */
  lemma InsertedValues(lvs: ValueMap, k: string, v: string)
    requires k !in lvs
    ensures Inserted(lvs, k, v)[k] != {} && forall s :: s in Inserted(lvs, k, v)[k] ==> CommaFree(s) && |s| <= |v|
  {
    assert Split(v)[0] in SetOf(Split(v));
    forall s | s in SetOf(Split(v)) ensures CommaFree(s) && |s| <= |v| {
      var i :| 0 <= i < |Split(v)| && Split(v)[i] == s;
      SplitPieces(v, i);
    }
  }
}
