/**
 Runs of edits: how long the exclusion of system nodes lasts, what an explicit delete of it leaves,
 and what every stored value set satisfies.
 */
module NsRuns {
  import opened ValueText
  import opened NsSelector
  import opened NsEdit

  /** An edit request and the namespaces the cluster listed when it was served. */
  datatype Served = Served(listed: seq<string>, request: Request)

  /** A rejected request leaves the stored text alone. */
  function Applied(text: Text, e: Served): Text {
    match Edit(text, e.listed, e.request)
    case Edited(config) => Json(config)
    case Rejected(_) => text
  }

  predicate AppliedAt(texts: seq<Text>, edits: seq<Served>, t: nat) {
    t < |edits| && t + 1 < |texts| && texts[t + 1] == Applied(texts[t], edits[t])
  }

  predicate Run(texts: seq<Text>, edits: seq<Served>) {
    |texts| == |edits| + 1 && forall t: nat :: t < |edits| ==> AppliedAt(texts, edits, t)
  }

  // ---------- the exclusion of system nodes ----------

  /** The namespace still keeps off system nodes, by default or by an entry that stands for any value. */
  predicate Guarded(text: Text, ns: string) {
    ns !in Stored(text) || Stored(text)[ns].notMatch.Nil?
    || (SYSTEM_LABEL in Stored(text)[ns].notMatch.m && Wild(Stored(text)[ns].notMatch.m[SYSTEM_LABEL]))
  }

  /** An edit that gives the exclusion up: under not-match it deletes the system label or leaves it
      with particular values, or it writes another key for a namespace without an item. */
  predicate GivesUp(text: Text, e: Served, ns: string) {
    && Edit(text, e.listed, e.request).Edited? && e.request.ns == ns && e.request.matchType == "notmatch"
    && if e.request.key == SYSTEM_LABEL
       then e.request.op == "delete" || !Wild(SetOf(Split(e.request.value)))
       else !Materialised(text, e.listed, ns)
  }

  lemma GuardedExcludes(text: Text, ns: string, labels: Labels)
    requires Guarded(text, ns) && SYSTEM_LABEL in labels
    ensures !Reads(text, ns, labels)
  {
    if text.Json? && ns in text.config {
      var m := Entries(Defaulted(text.config[ns]).notMatch);
      assert SYSTEM_LABEL in m && Wild(m[SYSTEM_LABEL]);
      assert !EntryHolds(false, SYSTEM_LABEL, Effective(m[SYSTEM_LABEL]), Wild(m[SYSTEM_LABEL]), labels);
    }
  }

  /** The exclusion survives an edit exactly when the edit does not give it up. */
  lemma EditKeepsGuardIff(text: Text, e: Served, ns: string)
    requires Guarded(text, ns)
    ensures Guarded(Applied(text, e), ns) <==> !GivesUp(text, e, ns)
  {
  }

  /** Starting from no configuration, or from one that excludes them, a namespace keeps off every node
      with the system label for as long as no edit gives the exclusion up, and its entry stops
      standing for any value at the first edit that does. */
  lemma SystemNodesExcluded(texts: seq<Text>, edits: seq<Served>, ns: string, t: nat)
    requires Run(texts, edits) && t < |texts| && Guarded(texts[0], ns)
    ensures (forall k: nat :: k <= t ==> Guarded(texts[k], ns))
       <==> forall k: nat :: k < t ==> !GivesUp(texts[k], edits[k], ns)
    ensures Guarded(texts[t], ns) ==> forall labels :: SYSTEM_LABEL in labels ==> !Reads(texts[t], ns, labels)
  {
    for k := 0 to t
      invariant (forall j: nat :: j <= k ==> Guarded(texts[j], ns))
           <==> forall j: nat :: j < k ==> !GivesUp(texts[j], edits[j], ns)
    {
      assert AppliedAt(texts, edits, k);
      if Guarded(texts[k], ns) {
        EditKeepsGuardIff(texts[k], edits[k], ns);
      }
    }
    if Guarded(texts[t], ns) {
      forall labels | SYSTEM_LABEL in labels ensures !Reads(texts[t], ns, labels) {
        GuardedExcludes(texts[t], ns, labels);
      }
    }
  }

  /** The condition on listing is needed: one not-match key for an unlisted namespace opens it to
      system nodes. */
  lemma UnlistedNotMatchOpens(ns: string, key: string, value: string, labels: Labels)
    requires key != SYSTEM_LABEL && key != "" && key !in labels
    ensures var r := Request("add", ns, "notmatch", key, value);
            Reads(Applied(NoText, Served([], r)), ns, labels)
  {
    AddMeaning(NoText, [], Request("add", ns, "notmatch", key, value), labels);
  }

  // ---------- after an explicit delete ----------

  /** The namespace has a not-match map of its own without the system label. */
  predicate Released(text: Text, ns: string) {
    && ns in Stored(text) && Stored(text)[ns].notMatch.Values?
    && SYSTEM_LABEL !in Stored(text)[ns].notMatch.m
  }

  predicate Restores(r: Request, ns: string) {
    r.ns == ns && r.matchType == "notmatch" && r.key == SYSTEM_LABEL && r.op == "add"
  }

  predicate Deletes(r: Request, ns: string) {
    r.ns == ns && r.matchType == "notmatch" && r.key == SYSTEM_LABEL && r.op == "delete"
  }

  lemma DeleteReleases(text: Text, e: Served, ns: string)
    requires Deletes(e.request, ns) && Edit(text, e.listed, e.request).Edited?
    ensures Released(Applied(text, e), ns)
  {
  }

  lemma EditKeepsReleased(text: Text, e: Served, ns: string)
    requires Released(text, ns) && !Restores(e.request, ns)
    ensures Released(Applied(text, e), ns)
  {
    var r := e.request;
    if text.Json? {
      assert Base(text, e.listed)[ns] == text.config[ns];
    }
  }

  /** An explicit delete of the exclusion stays in force over every later read and edit, because an
      empty map is not an absent one, until the key is added again. */
  lemma DeletedExclusionStaysGone(texts: seq<Text>, edits: seq<Served>, ns: string, d: nat, t: nat)
    requires Run(texts, edits) && d < t < |texts|
    requires Deletes(edits[d].request, ns)
    requires Edit(texts[d], edits[d].listed, edits[d].request).Edited?
    requires forall k: nat :: d < k < t ==> !Restores(edits[k].request, ns)
    ensures Released(texts[t], ns)
  {
    assert AppliedAt(texts, edits, d);
    DeleteReleases(texts[d], edits[d], ns);
    for k := d + 1 to t
      invariant Released(texts[k], ns)
    {
      assert AppliedAt(texts, edits, k);
      EditKeepsReleased(texts[k], edits[k], ns);
    }
  }

  lemma MapIgnoresKey(positive: bool, m: ValueMap, key: string, labels: Labels)
    requires key !in m
    ensures MapHolds(positive, m, labels) <==> MapHolds(positive, m, labels - {key})
  {
    forall k | k in m
      ensures EntryHolds(positive, k, Effective(m[k]), Wild(m[k]), labels)
         <==> EntryHolds(positive, k, Effective(m[k]), Wild(m[k]), labels - {key})
    {
    }
  }

  /** A released namespace treats system nodes like any other, if its other maps do not name the key. */
  lemma ReleasedIgnoresSystemLabel(text: Text, ns: string, labels: Labels)
    requires Released(text, ns)
    requires var item := Stored(text)[ns];
             SYSTEM_LABEL !in Entries(item.matching) && SYSTEM_LABEL !in Entries(item.mustMatch)
             && SYSTEM_LABEL !in Entries(item.mustNotMatch)
    ensures Reads(text, ns, labels) <==> Reads(text, ns, labels - {SYSTEM_LABEL})
  {
    var item := Stored(text)[ns];
    MapIgnoresKey(true, Entries(item.matching), SYSTEM_LABEL, labels);
    MapIgnoresKey(true, Entries(item.mustMatch), SYSTEM_LABEL, labels);
    MapIgnoresKey(false, Entries(item.notMatch), SYSTEM_LABEL, labels);
    MapIgnoresKey(false, Entries(item.mustNotMatch), SYSTEM_LABEL, labels);
  }

  // ---------- stored value sets ----------

  predicate GoodMap(m: ValueMap) {
    forall key :: key in m ==> m[key] != {} && forall v :: v in m[key] ==> CommaFree(v)
  }

  predicate GoodItem(item: Item) {
    && GoodMap(Entries(item.matching)) && GoodMap(Entries(item.mustMatch))
    && GoodMap(Entries(item.notMatch)) && GoodMap(Entries(item.mustNotMatch))
  }

  predicate GoodText(text: Text) {
    forall ns :: ns in Stored(text) ==> GoodItem(Stored(text)[ns])
  }

  lemma DefaultedGood(item: Item)
    requires GoodItem(item)
    ensures GoodItem(Defaulted(item))
  {
  }

  lemma NewMapGood(m: ValueMap, op: string, key: string, value: string)
    requires GoodMap(m) && (op == "add" ==> key !in m)
    ensures GoodMap(NewMap(m, op, key, value))
  {
    InsertedValues(Remove(m, key), key, value);
    if op == "add" {
      InsertedValues(m, key, value);
    }
  }

  lemma EditKeepsGood(text: Text, e: Served)
    requires GoodText(text)
    ensures GoodText(Applied(text, e))
  {
    var r := e.request;
    var base := Base(text, e.listed);
    forall ns | ns in base ensures GoodItem(base[ns]) {
      DefaultedGood(ItemIn(Stored(text), ns));
    }
    if Edit(text, e.listed, r).Edited? {
      var item := ItemIn(base, r.ns);
      NewMapGood(Entries(MapOf(item, r.matchType)), r.op, r.key, r.value);
    }
  }

  /** From no configuration, or any with non-empty comma-free value sets, every stored value set
      of every run is non-empty and comma-free, so its requirement means what it says. */
  lemma StoredValuesStayGood(texts: seq<Text>, edits: seq<Served>, t: nat)
    requires Run(texts, edits) && GoodText(texts[0]) && t < |texts|
    ensures GoodText(texts[t])
  {
    for k := 0 to t
      invariant GoodText(texts[k])
    {
      assert AppliedAt(texts, edits, k);
      EditKeepsGood(texts[k], edits[k]);
    }
  }
}
