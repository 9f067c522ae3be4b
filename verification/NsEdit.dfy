/**
 Edits of the namespace configuration: adding, updating and deleting one label key of one namespace,
 on top of a read that materialises defaults for every listed namespace. The theorems say what an
 edit means for the edited namespace, for all others, and over runs of edits.
 */
module NsEdit {
  import opened Sequences
  import opened ValueText
  import opened NsSelector

  datatype Request = Request(op: string, ns: string, matchType: string, key: string, value: string)
  datatype EditError = UnknownOperation | UnknownType | KeyExists | KeyMissing
  datatype EditResult = Edited(config: Config) | Rejected(error: EditError)

  predicate KnownOperation(op: string) {
    op == "delete" || op == "add" || op == "update"
  }

  predicate KnownType(matchType: string) {
    matchType == "match" || matchType == "mustmatch" || matchType == "notmatch" || matchType == "mustnotmatch"
  }

  function MapOf(item: Item, matchType: string): LabelValues
    requires KnownType(matchType)
  {
    if matchType == "match" then item.matching
    else if matchType == "mustmatch" then item.mustMatch
    else if matchType == "notmatch" then item.notMatch
    else item.mustNotMatch
  }

  function WithMap(item: Item, matchType: string, lv: LabelValues): Item
    requires KnownType(matchType)
  {
    if matchType == "match" then item.(matching := lv)
    else if matchType == "mustmatch" then item.(mustMatch := lv)
    else if matchType == "notmatch" then item.(notMatch := lv)
    else item.(mustNotMatch := lv)
  }

  /** The configuration an edit starts from: malformed text counts as empty. */
  function Base(text: Text, listed: seq<string>): Config {
    var c := Load(text, listed);
    if c.Some? then c.value else map[]
  }

  function ItemIn(config: Config, ns: string): Item {
    if ns in config then config[ns] else NEW_ITEM
  }

  function Remove(m: ValueMap, key: string): ValueMap {
    m - {key}
  }

  /** The edited map after a successful operation. */
  function NewMap(m: ValueMap, op: string, key: string, value: string): ValueMap {
    if op == "add" then Inserted(m, key, value)
    else if op == "delete" then Remove(m, key)
    else Inserted(Remove(m, key), key, value)
  }

  function Edit(text: Text, listed: seq<string>, r: Request): EditResult {
    if !KnownOperation(r.op) then Rejected(UnknownOperation)
    else if !KnownType(r.matchType) then Rejected(UnknownType)
    else
      var config := Base(text, listed);
      var item := ItemIn(config, r.ns);
      var m := Entries(MapOf(item, r.matchType));
      if r.op == "add" && r.key in m then Rejected(KeyExists)
      else if r.op != "add" && r.key !in m then Rejected(KeyMissing)
      else Edited(config[r.ns := WithMap(item, r.matchType, Values(NewMap(m, r.op, r.key, r.value)))])
  }

  /** The handler's edit of one label map. */
  method EditMap(lbvs: ValueMap, op: string, key: string, value: string)
    returns (r: ValueMap, error: Option<EditError>)
    requires KnownOperation(op)
    ensures error == if op == "add" && key in lbvs then Some(KeyExists)
                     else if op != "add" && key !in lbvs then Some(KeyMissing)
                     else None
    ensures error.None? ==> r == NewMap(lbvs, op, key, value)
  {
    r, error := lbvs, None;
    if op == "add" {
      if key !in lbvs {
        r := InsertValue(lbvs, key, value);
      } else {
        error := Some(KeyExists);
      }
    } else if op == "delete" {
      if key in lbvs {
        r := r - {key};
      } else {
        error := Some(KeyMissing);
      }
    } else {
      if key in lbvs {
        r := r - {key};
        r := InsertValue(r, key, value);
      } else {
        error := Some(KeyMissing);
      }
    }
  }

  method EditConfig(text: Text, listed: seq<string>, q: Request) returns (r: EditResult)
    ensures r == Edit(text, listed, q)
  {
    if q.op != "delete" && q.op != "add" && q.op != "update" {
      return Rejected(UnknownOperation);
    }
    var loaded := GetNsConfigByConfigMap(text, listed);
    var config: Config := map[];
    if loaded.Some? {
      config := loaded.value;
    }
    var item := if q.ns in config then config[q.ns] else NEW_ITEM;
    var m: ValueMap;
    var error: Option<EditError>;
    if q.matchType == "match" {
      m, error := EditMap(Entries(item.matching), q.op, q.key, q.value);
      item := item.(matching := Values(m));
    } else if q.matchType == "mustmatch" {
      m, error := EditMap(Entries(item.mustMatch), q.op, q.key, q.value);
      item := item.(mustMatch := Values(m));
    } else if q.matchType == "notmatch" {
      m, error := EditMap(Entries(item.notMatch), q.op, q.key, q.value);
      item := item.(notMatch := Values(m));
    } else if q.matchType == "mustnotmatch" {
      m, error := EditMap(Entries(item.mustNotMatch), q.op, q.key, q.value);
      item := item.(mustNotMatch := Values(m));
    } else {
      return Rejected(UnknownType);
    }
    if error.Some? {
      return Rejected(error.value);
    }
    r := Edited(config[q.ns := item]);
  }

  // ---------- meaning ----------

  /** What the scheduler's predicate decides from the stored text. */
  predicate Reads(text: Text, ns: string, labels: Labels) {
    Accepts(Load(text, []), ns, labels)
  }

  /** The edit starts from an item of the namespace: it is stored or listed. */
  predicate Materialised(text: Text, listed: seq<string>, ns: string) {
    ns in Base(text, listed)
  }

  lemma DefaultHolds(labels: Labels)
    ensures ItemHolds(Defaulted(NEW_ITEM), labels) <==> SYSTEM_LABEL !in labels
  {
    var m: ValueMap := map[SYSTEM_LABEL := {"*"}];
    assert Entries(Defaulted(NEW_ITEM).notMatch) == m;
    assert MapHolds(false, m, labels)
      <==> EntryHolds(false, SYSTEM_LABEL, Effective(m[SYSTEM_LABEL]), Wild(m[SYSTEM_LABEL]), labels);
  }

  /** Reading never depends on which namespaces an edit materialised. */
  lemma ReadsByItem(text: Text, listed: seq<string>, ns: string, labels: Labels)
    ensures Reads(text, ns, labels)
       <==> if Materialised(text, listed, ns) then ItemHolds(Base(text, listed)[ns], labels)
            else SYSTEM_LABEL !in labels
  {
    DefaultHolds(labels);
  }

  lemma ReadsAfterWrite(config: Config, ns: string, labels: Labels)
    ensures Reads(Json(config), ns, labels)
       <==> if ns in config then ItemHolds(Defaulted(config[ns]), labels) else SYSTEM_LABEL !in labels
  {
  }

  lemma BaseDefaulted(text: Text, listed: seq<string>, ns: string)
    requires Materialised(text, listed, ns)
    ensures !Base(text, listed)[ns].notMatch.Nil?
  {
  }

  /** An edit on one namespace changes the meaning of no other, although it writes default items for
      every listed namespace. */
  lemma EditsPreserveOthers(text: Text, listed: seq<string>, r: Request, ns: string, labels: Labels)
    requires Edit(text, listed, r).Edited? && ns != r.ns
    ensures Reads(Json(Edit(text, listed, r).config), ns, labels) <==> Reads(text, ns, labels)
  {
    ReadsByItem(text, listed, ns, labels);
    ReadsAfterWrite(Edit(text, listed, r).config, ns, labels);
    if Materialised(text, listed, ns) {
      BaseDefaulted(text, listed, ns);
    }
  }

  /** The requirement a request adds. */
  predicate Asks(r: Request, labels: Labels)
    requires KnownType(r.matchType)
  {
    EntryHolds(r.matchType == "match" || r.matchType == "mustmatch", r.key,
               SetOf(Split(r.value)), Wild(SetOf(Split(r.value))), labels)
  }

  lemma MapHoldsInserted(positive: bool, m: ValueMap, key: string, value: string, labels: Labels)
    requires key !in m
    ensures MapHolds(positive, Inserted(m, key, value), labels) <==>
            (MapHolds(positive, m, labels)
             && EntryHolds(positive, key, SetOf(Split(value)), Wild(SetOf(Split(value))), labels))
  {
    var m', values := Inserted(m, key, value), SetOf(Split(value));
    InsertedPieces(m, key, value);
    EffectiveCommaFree(values);
    MapHoldsOneMore(positive, m, m', key, labels);
  }

  lemma InsertedPieces(m: ValueMap, key: string, value: string)
    requires key !in m
    ensures Inserted(m, key, value)[key] == SetOf(Split(value)) != {}
    ensures forall v :: v in SetOf(Split(value)) ==> CommaFree(v)
  {
    InsertedValues(m, key, value);
    assert {} + SetOf(Split(value)) == SetOf(Split(value));
  }

  lemma MapHoldsOneMore(positive: bool, m: ValueMap, m': ValueMap, key: string, labels: Labels)
    requires key !in m && key in m' && m' == m[key := m'[key]]
    ensures MapHolds(positive, m', labels) <==>
            (MapHolds(positive, m, labels)
             && EntryHolds(positive, key, Effective(m'[key]), Wild(m'[key]), labels))
  {
    assert forall k :: k in m' <==> k in m || k == key;
    assert forall k :: k in m ==> m'[k] == m[k];
  }

  lemma ItemHoldsInserted(item: Item, r: Request, labels: Labels)
    requires KnownType(r.matchType) && r.key !in Entries(MapOf(item, r.matchType))
    ensures var m := Inserted(Entries(MapOf(item, r.matchType)), r.key, r.value);
            ItemHolds(WithMap(item, r.matchType, Values(m)), labels)
            <==> (ItemHolds(item, labels) && Asks(r, labels))
  {
    var positive := r.matchType == "match" || r.matchType == "mustmatch";
    MapHoldsInserted(positive, Entries(MapOf(item, r.matchType)), r.key, r.value, labels);
  }

  /** What an add does: it intersects the accepted nodes with the new requirement, except that a
      not-match key for a namespace without an item replaces the default exclusion. */
  lemma AddMeaning(text: Text, listed: seq<string>, r: Request, labels: Labels)
    requires r.op == "add" && Edit(text, listed, r).Edited?
    ensures Reads(Json(Edit(text, listed, r).config), r.ns, labels) <==>
            (Asks(r, labels)
             && ((!Materialised(text, listed, r.ns) && r.matchType == "notmatch") || Reads(text, r.ns, labels)))
  {
    var item := ItemIn(Base(text, listed), r.ns);
    var m := Inserted(Entries(MapOf(item, r.matchType)), r.key, r.value);
    var item' := WithMap(item, r.matchType, Values(m));
    ReadsByItem(text, listed, r.ns, labels);
    ReadsAfterWrite(Edit(text, listed, r).config, r.ns, labels);
    if Materialised(text, listed, r.ns) {
      BaseDefaulted(text, listed, r.ns);
      ItemHoldsInserted(item, r, labels);
    } else if r.matchType == "notmatch" {
      ItemHoldsInserted(item, r, labels);
      NewItemHolds(labels);
    } else {
      ItemHoldsInserted(Defaulted(NEW_ITEM), r, labels);
      DefaultHolds(labels);
    }
  }

  lemma NewItemHolds(labels: Labels)
    ensures ItemHolds(NEW_ITEM, labels)
  {
  }

  /** Adding intersects for all nodes exactly when the namespace has an item, or the key goes to
      another map than not-match, or it is the exclusion of system nodes itself. */
  lemma AddIntersectsIff(text: Text, listed: seq<string>, r: Request)
    requires r.op == "add" && Edit(text, listed, r).Edited?
    ensures (forall labels :: Reads(Json(Edit(text, listed, r).config), r.ns, labels)
                         <==> (Reads(text, r.ns, labels) && Asks(r, labels)))
       <==> (Materialised(text, listed, r.ns) || r.matchType != "notmatch"
             || (r.key == SYSTEM_LABEL && Wild(SetOf(Split(r.value)))))
  {
    var after := Json(Edit(text, listed, r).config);
    forall labels { AddMeaning(text, listed, r, labels); }
    if !Materialised(text, listed, r.ns) && r.matchType == "notmatch" {
      forall labels { ReadsByItem(text, listed, r.ns, labels); }
      if !(r.key == SYSTEM_LABEL && Wild(SetOf(Split(r.value)))) {
        var other := r.value + "x";
        assert other !in SetOf(Split(r.value)) by {
          InsertedValues(map[], r.key, r.value);
          assert forall s :: s in SetOf(Split(r.value)) ==> |s| <= |r.value|;
        }
        var labels: Labels := map[SYSTEM_LABEL := other];
        assert Asks(r, labels);
        assert Reads(after, r.ns, labels) && !Reads(text, r.ns, labels);
      }
    }
  }

  lemma RemoveInserted(m: ValueMap, key: string, value: string)
    requires key !in m
    ensures Remove(Inserted(m, key, value), key) == m
  {
  }

  /** Deleting the key just added restores the accepted nodes, unless the add replaced the default
      exclusion: then nothing is excluded any more. */
  lemma AddThenDelete(text: Text, listed: seq<string>, listed': seq<string>, r: Request, labels: Labels)
    requires r.op == "add" && Edit(text, listed, r).Edited?
    ensures var text' := Json(Edit(text, listed, r).config);
            var undo := Edit(text', listed', r.(op := "delete"));
            && undo.Edited?
            && (Reads(Json(undo.config), r.ns, labels) <==>
                ((!Materialised(text, listed, r.ns) && r.matchType == "notmatch") || Reads(text, r.ns, labels)))
  {
    var config := Edit(text, listed, r).config;
    var m := Entries(MapOf(ItemIn(Base(text, listed), r.ns), r.matchType));
    UndoneItem(text, listed, listed', r);
    var undo := Edit(Json(config), listed', r.(op := "delete"));
    ReadsByItem(text, listed, r.ns, labels);
    ReadsAfterWrite(undo.config, r.ns, labels);
    if Materialised(text, listed, r.ns) {
      BaseDefaulted(text, listed, r.ns);
      SameEntriesHold(ItemIn(Base(text, listed), r.ns), r.matchType, m, labels);
    } else {
      UndoneNewItem(r.matchType, labels);
    }
  }

  /** What the two edits leave stored: the old item with its map written out. */
  lemma UndoneItem(text: Text, listed: seq<string>, listed': seq<string>, r: Request)
    requires r.op == "add" && Edit(text, listed, r).Edited?
    ensures var item := ItemIn(Base(text, listed), r.ns);
            var config := Edit(text, listed, r).config;
            var undo := Edit(Json(config), listed', r.(op := "delete"));
            && undo.Edited?
            && r.ns in undo.config
            && undo.config[r.ns] == WithMap(Defaulted(config[r.ns]), r.matchType,
                                            Values(Entries(MapOf(item, r.matchType))))
  {
    var config := Edit(text, listed, r).config;
    var m := Entries(MapOf(ItemIn(Base(text, listed), r.ns), r.matchType));
    var config' := Base(Json(config), listed');
    assert r.ns in config' && config'[r.ns] == Defaulted(config[r.ns]);
    RemoveInserted(m, r.key, r.value);
  }

  lemma UndoneNewItem(matchType: string, labels: Labels)
    requires KnownType(matchType)
    ensures matchType == "notmatch" ==> ItemHolds(WithMap(NEW_ITEM, matchType, Values(map[])), labels)
    ensures matchType != "notmatch" ==>
              (ItemHolds(WithMap(Defaulted(NEW_ITEM), matchType, Values(map[])), labels)
               <==> SYSTEM_LABEL !in labels)
  {
    DefaultHolds(labels);
    if matchType == "notmatch" {
      SameEntriesHold(NEW_ITEM, matchType, map[], labels);
      NewItemHolds(labels);
    } else {
      SameEntriesHold(Defaulted(NEW_ITEM), matchType, map[], labels);
    }
  }

  /** An empty map and an absent one ask for nothing alike. */
  lemma SameEntriesHold(item: Item, matchType: string, m: ValueMap, labels: Labels)
    requires KnownType(matchType) && Entries(MapOf(item, matchType)) == m
    ensures ItemHolds(WithMap(item, matchType, Values(m)), labels) <==> ItemHolds(item, labels)
  {
  }

  /** An edit of a namespace with an item writes what it would read back under the same listing. */
  lemma BaseOfEdited(text: Text, listed: seq<string>, r: Request)
    requires Edit(text, listed, r).Edited? && Materialised(text, listed, r.ns)
    ensures Base(Json(Edit(text, listed, r).config), listed) == Edit(text, listed, r).config
  {
    var base, config := Base(text, listed), Edit(text, listed, r).config;
    assert config.Keys == base.Keys;
    assert forall ns :: ns in listed ==> ns in SetOf(listed);
    assert Listed(config, listed) == config;
    assert forall ns :: ns in config ==> !config[ns].notMatch.Nil?;
    assert forall ns :: ns in config ==> Defaulted(config[ns]) == config[ns];
    assert Base(Json(config), listed) == config;
  }

  lemma RewrittenMap(item: Item, matchType: string, m: LabelValues, m': LabelValues)
    requires KnownType(matchType)
    ensures MapOf(WithMap(item, matchType, m), matchType) == m
    ensures WithMap(WithMap(item, matchType, m), matchType, m') == WithMap(item, matchType, m')
  {
  }

  /** An update is a delete followed by an add. */
  lemma UpdateIsDeleteThenAdd(text: Text, listed: seq<string>, r: Request)
    requires r.op == "update" && Edit(text, listed, r).Edited?
    ensures var deleted := Edit(text, listed, r.(op := "delete"));
            && deleted.Edited?
            && Edit(Json(deleted.config), listed, r.(op := "add")) == Edit(text, listed, r)
  {
    var item := ItemIn(Base(text, listed), r.ns);
    var m := Entries(MapOf(item, r.matchType));
    var less := Remove(m, r.key);
    assert r.key in m && r.ns in Base(text, listed);
    BaseOfEdited(text, listed, r.(op := "delete"));
    RewrittenMap(item, r.matchType, Values(less), Values(Inserted(less, r.key, r.value)));
    WrittenTwice(Base(text, listed), r.ns, WithMap(item, r.matchType, Values(less)),
                 WithMap(item, r.matchType, Values(Inserted(less, r.key, r.value))));
  }

  lemma WrittenTwice(config: Config, ns: string, item: Item, item': Item)
    ensures config[ns := item][ns := item'] == config[ns := item']
  {
  }
}
