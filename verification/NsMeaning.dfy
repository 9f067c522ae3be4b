/**
 What stored configurations and accepted edits mean, by labels and values only: which nodes an added
 requirement keeps, which nodes a stored item accepts, and what an edit stores.
 */
module NsMeaning {
  import opened ValueText
  import opened NsSelector
  import opened NsEdit
  import opened NsRuns

  // ---------- an added requirement ----------

  /** The node meets the requirement. An empty piece and the star stand for any value: the positive types
      then ask for the key, the negative types for its absence. */
  predicate Meets(matchType: string, key: string, pieces: seq<string>, labels: Labels) {
    if matchType == "match" || matchType == "mustmatch" then
      key in labels && ("" in pieces || "*" in pieces || labels[key] in pieces)
    else
      key !in labels || !("" in pieces || "*" in pieces || labels[key] in pieces)
  }

  lemma AsksMeets(r: Request, labels: Labels)
    requires KnownType(r.matchType) && r.key != ""
    ensures Asks(r, labels) <==> Meets(r.matchType, r.key, Split(r.value), labels)
  {
    var pieces := Split(r.value);
    assert forall s :: s in SetOf(pieces) <==> s in pieces;
  }

  /** An accepted add keeps, of the nodes accepted before, exactly those that meet the requirement; under
      not-match for a namespace that had no item the nodes accepted before are all nodes. */
  lemma AddByLabels(text: Text, listed: seq<string>, r: Request, labels: Labels)
    requires r.op == "add" && r.key != "" && Edit(text, listed, r).Edited?
    ensures Reads(Json(Edit(text, listed, r).config), r.ns, labels) <==>
            && Meets(r.matchType, r.key, Split(r.value), labels)
            && (Reads(text, r.ns, labels)
                || (r.matchType == "notmatch"
                    && (text.Malformed? || (r.ns !in listed && !(text.Json? && r.ns in text.config)))))
  {
    AddMeaning(text, listed, r, labels);
    AsksMeets(r, labels);
    assert r.ns in SetOf(listed) <==> r.ns in listed;
  }

  // ---------- a stored item ----------

  lemma MapByLabels(positive: bool, m: ValueMap, labels: Labels)
    requires GoodMap(m)
    ensures MapHolds(positive, m, labels) <==>
            forall key :: key in m && key != "" ==>
              if positive then key in labels && ("" in m[key] || "*" in m[key] || labels[key] in m[key])
              else key !in labels || !("" in m[key] || "*" in m[key] || labels[key] in m[key])
  {
    forall key | key in m ensures Effective(m[key]) == m[key] {
      EffectiveCommaFree(m[key]);
    }
  }

  /** A node is accepted for a namespace with stored value sets exactly when it meets every entry of all
      four maps; a namespace without a not-match map of its own keeps off nodes with the system label. */
  lemma StoredByLabels(config: Config, ns: string, labels: Labels)
    requires ns in config && GoodItem(config[ns])
    ensures var item := config[ns];
            var wants := (m: ValueMap) =>
              forall key :: key in m && key != "" ==>
                key in labels && ("" in m[key] || "*" in m[key] || labels[key] in m[key]);
            var avoids := (m: ValueMap) =>
              forall key :: key in m && key != "" ==>
                key !in labels || !("" in m[key] || "*" in m[key] || labels[key] in m[key]);
            Reads(Json(config), ns, labels) <==>
              && (item.matching.Values? ==> wants(item.matching.m))
              && (item.mustMatch.Values? ==> wants(item.mustMatch.m))
              && (item.mustNotMatch.Values? ==> avoids(item.mustNotMatch.m))
              && (if item.notMatch.Values? then avoids(item.notMatch.m) else SYSTEM_LABEL !in labels)
  {
    var item := config[ns];
    DefaultHolds(labels);
    MapByLabels(true, Entries(item.matching), labels);
    MapByLabels(true, Entries(item.mustMatch), labels);
    MapByLabels(false, Entries(item.notMatch), labels);
    MapByLabels(false, Entries(item.mustNotMatch), labels);
    DefaultMap(labels);
  }

  lemma DefaultMap(labels: Labels)
    ensures MapHolds(false, map[SYSTEM_LABEL := {"*"}], labels) <==> SYSTEM_LABEL !in labels
  {
    var m: ValueMap := map[SYSTEM_LABEL := {"*"}];
    assert MapHolds(false, m, labels)
      <==> EntryHolds(false, SYSTEM_LABEL, Effective(m[SYSTEM_LABEL]), Wild(m[SYSTEM_LABEL]), labels);
  }

  /** A namespace that is not stored, and every namespace while the text is missing or malformed, keeps
      off nodes with the system label and no others. */
  lemma UnstoredByLabels(text: Text, ns: string, labels: Labels)
    requires !text.Json? || ns !in text.config
    ensures Reads(text, ns, labels) <==> "enndata.cn/systemnode" !in labels
  {
  }

  // ---------- reading ----------

  /** Reading keeps what is stored, gives every listed namespace an item, and adds nothing to an item but
      the default not-match map. */
  lemma ReadItems(text: Text, listed: seq<string>, ns: string)
    ensures Load(text, listed).None? <==> text.Malformed?
    ensures !text.Malformed? ==>
              var config := Load(text, listed).value;
              && (ns in config <==> ns in listed || (text.Json? && ns in text.config))
              && (text.Json? && ns in text.config ==>
                    && config[ns].matching == text.config[ns].matching
                    && config[ns].mustMatch == text.config[ns].mustMatch
                    && config[ns].mustNotMatch == text.config[ns].mustNotMatch
                    && config[ns].notMatch == if text.config[ns].notMatch.Values? then text.config[ns].notMatch
                                              else Values(map[SYSTEM_LABEL := {"*"}]))
              && (ns in config && !(text.Json? && ns in text.config) ==>
                    config[ns] == Item(Nil, Nil, Values(map[SYSTEM_LABEL := {"*"}]), Nil))
  {
    assert ns in SetOf(listed) <==> ns in listed;
  }

  // ---------- what an edit stores ----------

  /** The map of an item that a type names. */
  predicate Names(matchType: string, item: Item, lv: LabelValues) {
    || (matchType == "match" && lv == item.matching)
    || (matchType == "mustmatch" && lv == item.mustMatch)
    || (matchType == "notmatch" && lv == item.notMatch)
    || (matchType == "mustnotmatch" && lv == item.mustNotMatch)
  }

  /** A request is accepted exactly when operation and type are known and the key is new for an add and
      there for the others. Each rejection has its error, and the operation is looked at first. */
  lemma AcceptedIff(text: Text, listed: seq<string>, r: Request)
    ensures var known := r.op == "add" || r.op == "delete" || r.op == "update";
            var typed := r.matchType == "match" || r.matchType == "mustmatch"
                         || r.matchType == "notmatch" || r.matchType == "mustnotmatch";
            var e := Edit(text, listed, r);
            && (e == Rejected(UnknownOperation) <==> !known)
            && (e == Rejected(UnknownType) <==> known && !typed)
            && (known && typed ==>
                  exists lv :: Names(r.matchType, ItemIn(Base(text, listed), r.ns), lv)
                    && (e == Rejected(KeyExists) <==> r.op == "add" && lv.Values? && r.key in lv.m)
                    && (e == Rejected(KeyMissing) <==> r.op != "add" && !(lv.Values? && r.key in lv.m)))
  {
    if KnownType(r.matchType) {
      assert Names(r.matchType, ItemIn(Base(text, listed), r.ns),
                   MapOf(ItemIn(Base(text, listed), r.ns), r.matchType));
    }
  }

  /** The edited map: the key has the pieces of the value, or is gone after a delete; the rest stays. */
  ghost predicate Rewritten(r: Request, lv: LabelValues, lv': LabelValues) {
    && lv'.Values?
    && (r.key in lv'.m <==> r.op != "delete")
    && (r.op != "delete" ==> forall s :: s in lv'.m[r.key] <==> s in Split(r.value))
    && forall key :: key != r.key ==>
         (key in lv'.m <==> lv.Values? && key in lv.m) && (key in lv'.m ==> lv'.m[key] == lv.m[key])
  }

  lemma MapRewritten(r: Request, lv: LabelValues)
    requires KnownOperation(r.op) && (r.op == "add" ==> r.key !in Entries(lv))
    ensures Rewritten(r, lv, Values(NewMap(Entries(lv), r.op, r.key, r.value)))
  {
    var m := Entries(lv);
    if r.op != "delete" {
      InsertedPieces(if r.op == "add" then m else Remove(m, r.key), r.key, r.value);
      assert forall s :: s in SetOf(Split(r.value)) <==> s in Split(r.value);
    }
  }

  /** An accepted edit rewrites one entry of one map of one item. All other maps and namespaces stay as
      read. */
  lemma EditStores(text: Text, listed: seq<string>, r: Request)
    requires Edit(text, listed, r).Edited?
    ensures var before, after := Base(text, listed), Edit(text, listed, r).config;
            var item := if r.ns in before then before[r.ns] else Item(Nil, Nil, Nil, Nil);
            && r.ns in after && after == before[r.ns := after[r.ns]]
            && (r.matchType != "match" ==> after[r.ns].matching == item.matching)
            && (r.matchType != "mustmatch" ==> after[r.ns].mustMatch == item.mustMatch)
            && (r.matchType != "notmatch" ==> after[r.ns].notMatch == item.notMatch)
            && (r.matchType != "mustnotmatch" ==> after[r.ns].mustNotMatch == item.mustNotMatch)
            && exists lv, lv' :: Names(r.matchType, item, lv) && Names(r.matchType, after[r.ns], lv')
                                 && Rewritten(r, lv, lv')
  {
    var after, item := Edit(text, listed, r).config, ItemIn(Base(text, listed), r.ns);
    var lv, lv' := MapOf(item, r.matchType), MapOf(after[r.ns], r.matchType);
    assert Names(r.matchType, item, lv) && Names(r.matchType, after[r.ns], lv');
    MapRewritten(r, lv);
  }
}
