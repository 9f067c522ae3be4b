/**
 What an edit does to the other namespaces when it starts from an empty base, as it does after a
 failed fetch: their stored items are gone, and they read as the bare exclusion of system nodes.
 */
module NsFallback {
  import opened ValueText
  import opened NsSelector
  import opened NsEdit

  /** A string that is not in the set: one longer than all of its members. */
  lemma {:induction false} SomeOther(values: set<string>) returns (s: string)
    ensures forall v :: v in values ==> |v| < |s|
    decreases |values|
  {
    if values == {} {
      s := "";
    } else {
      var v :| v in values;
      var t := SomeOther(values - {v});
      s := if |v| < |t| then t else v + "x";
    }
  }

  /** The item restricts nothing but system nodes, and excludes all of those. */
  predicate OnlyDefault(item: Item) {
    && Entries(item.matching).Keys <= {""} && Entries(item.mustMatch).Keys <= {""}
    && Entries(item.notMatch).Keys <= {"", SYSTEM_LABEL} && Entries(item.mustNotMatch).Keys <= {"", SYSTEM_LABEL}
    && (ExcludesAll(Entries(item.notMatch)) || ExcludesAll(Entries(item.mustNotMatch)))
  }

  predicate ExcludesAll(m: ValueMap) {
    SYSTEM_LABEL in m && Wild(m[SYSTEM_LABEL])
  }

  predicate MeansDefault(item: Item, labels: Labels) {
    ItemHolds(item, labels) <==> SYSTEM_LABEL !in labels
  }

  lemma PositiveKeyRefuses(m: ValueMap, key: string)
    requires key in m && key != ""
    ensures !MapHolds(true, m, map[])
  {
    assert !EntryHolds(true, key, Effective(m[key]), Wild(m[key]), map[]);
  }

  lemma NegativeKeyRefuses(m: ValueMap, key: string) returns (labels: Labels)
    requires key in m && key != ""
    ensures labels.Keys == {key} && !MapHolds(false, m, labels)
  {
    var p := EffectiveMember(m[key]);
    labels := map[key := p];
    assert !EntryHolds(false, key, Effective(m[key]), Wild(m[key]), labels);
  }

  lemma EffectiveMember(values: set<string>) returns (p: string)
    ensures p in Effective(values)
  {
    if values == {} {
      p := "";
    } else {
      var v :| v in values;
      p := Split(v)[0];
      assert p in Split(v);
    }
  }

  lemma OtherKeyShows(item: Item) returns (labels: Labels)
    requires !(Entries(item.matching).Keys <= {""} && Entries(item.mustMatch).Keys <= {""}
               && Entries(item.notMatch).Keys <= {"", SYSTEM_LABEL}
               && Entries(item.mustNotMatch).Keys <= {"", SYSTEM_LABEL})
    ensures !MeansDefault(item, labels)
  {
    if key :| key in Entries(item.matching) && key != "" {
      PositiveKeyRefuses(Entries(item.matching), key);
      labels := map[];
    } else if key :| key in Entries(item.mustMatch) && key != "" {
      PositiveKeyRefuses(Entries(item.mustMatch), key);
      labels := map[];
    } else if key :| key in Entries(item.notMatch) && key != "" && key != SYSTEM_LABEL {
      labels := NegativeKeyRefuses(Entries(item.notMatch), key);
    } else {
      var key :| key in Entries(item.mustNotMatch) && key != "" && key != SYSTEM_LABEL;
      labels := NegativeKeyRefuses(Entries(item.mustNotMatch), key);
    }
  }

  function ExclusionValues(m: ValueMap): set<string> {
    if SYSTEM_LABEL in m then Effective(m[SYSTEM_LABEL]) else {}
  }

  /** A system node gets past a map that does not exclude them all. */
  lemma SystemNodePasses(m: ValueMap, value: string)
    requires m.Keys <= {"", SYSTEM_LABEL} && !ExcludesAll(m) && value !in ExclusionValues(m)
    ensures MapHolds(false, m, map[SYSTEM_LABEL := value])
  {
  }

  lemma SystemNodeShows(item: Item) returns (labels: Labels)
    requires Entries(item.matching).Keys <= {""} && Entries(item.mustMatch).Keys <= {""}
    requires Entries(item.notMatch).Keys <= {"", SYSTEM_LABEL}
    requires Entries(item.mustNotMatch).Keys <= {"", SYSTEM_LABEL}
    requires !ExcludesAll(Entries(item.notMatch)) && !ExcludesAll(Entries(item.mustNotMatch))
    ensures !MeansDefault(item, labels)
  {
    var s := SomeOther(ExclusionValues(Entries(item.notMatch)) + ExclusionValues(Entries(item.mustNotMatch)));
    labels := map[SYSTEM_LABEL := s];
    SystemNodePasses(Entries(item.notMatch), s);
    SystemNodePasses(Entries(item.mustNotMatch), s);
  }

  lemma DefaultExcludes(item: Item, labels: Labels)
    requires OnlyDefault(item)
    ensures MeansDefault(item, labels)
  {
    var m := if ExcludesAll(Entries(item.notMatch)) then Entries(item.notMatch) else Entries(item.mustNotMatch);
    if SYSTEM_LABEL in labels {
      assert !EntryHolds(false, SYSTEM_LABEL, Effective(m[SYSTEM_LABEL]), true, labels);
    }
  }

  lemma MeansDefaultIff(item: Item)
    ensures (forall labels :: MeansDefault(item, labels)) <==> OnlyDefault(item)
  {
    if OnlyDefault(item) {
      forall labels ensures MeansDefault(item, labels) { DefaultExcludes(item, labels); }
    } else if ExcludesAll(Entries(item.notMatch)) || ExcludesAll(Entries(item.mustNotMatch)) {
      var labels := OtherKeyShows(item);
    } else if !(Entries(item.matching).Keys <= {""} && Entries(item.mustMatch).Keys <= {""}
                && Entries(item.notMatch).Keys <= {"", SYSTEM_LABEL}
                && Entries(item.mustNotMatch).Keys <= {"", SYSTEM_LABEL}) {
      var labels := OtherKeyShows(item);
    } else {
      var labels := SystemNodeShows(item);
    }
  }

  /** What an edit from an empty base leaves of the other namespaces: only listed ones have an item,
      the default one, and each of them reads as the bare exclusion of system nodes. */
  lemma EmptyBaseLeavesDefaults(listed: seq<string>, r: Request, ns: string, labels: Labels)
    requires Edit(NoText, listed, r).Edited? && ns != r.ns
    ensures var after := Edit(NoText, listed, r).config;
            && (ns in after <==> ns in listed)
            && (ns in after ==> after[ns] == Defaulted(NEW_ITEM))
            && (Reads(Json(after), ns, labels) <==> SYSTEM_LABEL !in labels)
  {
    EditsPreserveOthers(NoText, listed, r, ns, labels);
    assert ns in listed <==> ns in SetOf(listed);
  }

  /** The stored text gives the namespace no item, or one that means the default. */
  predicate ReadsDefault(text: Text, ns: string) {
    ns in Stored(text) ==> OnlyDefault(Defaulted(Stored(text)[ns]))
  }

  /** Editing from an empty base instead of the stored text keeps the meaning of another namespace
      exactly when the stored text gave it no more than the default. */
  lemma EmptyBaseKeepsIff(text: Text, listed: seq<string>, r: Request, ns: string)
    requires Edit(NoText, listed, r).Edited? && ns != r.ns
    ensures (forall labels :: Reads(Json(Edit(NoText, listed, r).config), ns, labels) <==> Reads(text, ns, labels))
       <==> ReadsDefault(text, ns)
  {
    var after := Json(Edit(NoText, listed, r).config);
    forall labels ensures Reads(after, ns, labels) <==> SYSTEM_LABEL !in labels {
      EmptyBaseLeavesDefaults(listed, r, ns, labels);
    }
    if ns in Stored(text) {
      var item := Defaulted(Stored(text)[ns]);
      MeansDefaultIff(item);
      assert forall labels :: Reads(text, ns, labels) <==> ItemHolds(item, labels);
      assert forall labels :: MeansDefault(item, labels) <==> (ItemHolds(item, labels) <==> SYSTEM_LABEL !in labels);
    }
  }
}
