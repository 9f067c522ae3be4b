/**
 The namespace node selector: reading the stored configuration with its defaults, and compiling a
 namespace's four label maps to a list of label requirements.

 JSON text is the value it decodes to; it keeps an absent label map (`Nil`) apart from an empty one.
 A label requirement is its meaning; only the splitting of its value list is kept as text.
 */
module NsSelector {
  import opened Sequences
  import opened ValueText

  datatype LabelValues = Nil | Values(m: ValueMap)
  datatype Item = Item(matching: LabelValues, mustMatch: LabelValues,
                       notMatch: LabelValues, mustNotMatch: LabelValues)
  type Config = map<string, Item>
  datatype Text = NoText | Malformed | Json(config: Config)
  type Labels = map<string, string>

  const SYSTEM_LABEL := "enndata.cn/systemnode"
  const NEW_ITEM := Item(Nil, Nil, Nil, Nil)

  function Entries(lv: LabelValues): ValueMap {
    if lv.Nil? then map[] else lv.m
  }

  // ---------- reading ----------

  /** Without a not-match map of its own a namespace keeps off the system nodes. */
  function Defaulted(item: Item): Item {
    if item.notMatch.Nil? then item.(notMatch := Values(map[SYSTEM_LABEL := {"*"}])) else item
  }

  function Stored(text: Text): Config {
    if text.Json? then text.config else map[]
  }

  function Listed(config: Config, listed: seq<string>): Config {
    map ns | ns in config.Keys + SetOf(listed) :: if ns in config then config[ns] else NEW_ITEM
  }

  /** The configuration as read, with an item for every listed namespace; none if malformed. */
  function Load(text: Text, listed: seq<string>): Option<Config> {
    if text.Malformed? then None
    else
      var all := Listed(Stored(text), listed);
      Some(map ns | ns in all :: Defaulted(all[ns]))
  }

  method GetNsConfigByConfigMap(text: Text, namespaces: seq<string>) returns (r: Option<Config>)
    ensures r == Load(text, namespaces)
  {
    if text.Malformed? {
      return None;
    }
    var ret := Stored(text);
    for i := 0 to |namespaces|
      invariant ret == Listed(Stored(text), namespaces[..i])
    {
      assert namespaces[..i + 1] == namespaces[..i] + [namespaces[i]];
      assert SetOf(namespaces[..i + 1]) == SetOf(namespaces[..i]) + {namespaces[i]};
      if namespaces[i] !in ret {
        ret := ret[namespaces[i] := NEW_ITEM];
      }
    }
    assert namespaces[..|namespaces|] == namespaces;
    ghost var all := ret;
    var rest := ret.Keys;
    while rest != {}
      invariant rest <= all.Keys && ret.Keys == all.Keys
      invariant forall ns :: ns in all ==> ret[ns] == if ns in rest then all[ns] else Defaulted(all[ns])
      decreases rest
    {
      var ns :| ns in rest;
      var item := ret[ns];
      if item.notMatch.Nil? {
        item := item.(notMatch := Values(map[SYSTEM_LABEL := {"*"}]));
      }
      ret := ret[ns := item];
      rest := rest - {ns};
    }
    assert ret == map ns | ns in all :: Defaulted(all[ns]);
    r := Some(ret);
  }

  // ---------- requirements ----------

  datatype Requirement =
    | In(key: string, values: set<string>)
    | NotIn(key: string, values: set<string>)
    | Exists(key: string)
    | NotExists(key: string)

  predicate Matches(r: Requirement, labels: Labels) {
    match r
    case In(key, values) => key in labels && labels[key] in values
    case NotIn(key, values) => key !in labels || labels[key] !in values
    case Exists(key) => key in labels
    case NotExists(key) => key !in labels
  }

  predicate Selects(reqs: seq<Requirement>, labels: Labels) {
    forall i :: 0 <= i < |reqs| ==> Matches(reqs[i], labels)
  }

  /** The empty value and the star both stand for any value. */
  predicate Wild(values: set<string>) {
    "" in values || "*" in values
  }

  /** The values a requirement ends up with after its list is written out and split again. */
  function Effective(values: set<string>): set<string> {
    if values == {} then {""} else set v, p | v in values && p in Split(v) :: p
  }

  lemma EffectiveOfList(values: set<string>, list: seq<string>)
    requires SetOf(list) == values
    ensures SetOf(Split(Join(list))) == Effective(values)
  {
    assert list == [] || list[0] in SetOf(list);
    if values == {} {
      assert SetOf([""]) == {""};
    } else {
      SplitJoinPieces(list);
      forall p ensures p in SetOf(Split(Join(list))) <==> p in Effective(values) {
        PiecesMembers(list, p);
        assert forall s :: s in list <==> s in values;
      }
    }
  }

  lemma EffectiveCommaFree(values: set<string>)
    requires values != {} && forall v :: v in values ==> CommaFree(v)
    ensures Effective(values) == values
  {
    forall v | v in values ensures Split(v) == [v] { SplitCommaFree(v); }
    forall p ensures p in Effective(values) <==> p in values {
      assert p in values ==> p in Split(p);
    }
  }

  /** What one entry of a label map asks of a node's labels, by the values given. */
  predicate EntryHolds(positive: bool, key: string, values: set<string>, wild: bool, labels: Labels) {
    if key == "" then true
    else if positive then key in labels && (wild || labels[key] in values)
    else key !in labels || (!wild && labels[key] !in values)
  }

  predicate MapHolds(positive: bool, m: ValueMap, labels: Labels) {
    forall key :: key in m ==> EntryHolds(positive, key, Effective(m[key]), Wild(m[key]), labels)
  }

  predicate ItemHolds(item: Item, labels: Labels) {
    && MapHolds(true, Entries(item.matching), labels)
    && MapHolds(true, Entries(item.mustMatch), labels)
    && MapHolds(false, Entries(item.notMatch), labels)
    && MapHolds(false, Entries(item.mustNotMatch), labels)
  }

  /** Whether pods of a namespace may go to a node with these labels. */
  predicate Accepts(config: Option<Config>, ns: string, labels: Labels) {
    if config.None? || ns !in config.value then SYSTEM_LABEL !in labels
    else ItemHolds(config.value[ns], labels)
  }

  /** Appends one requirement per non-empty key, in an arbitrary order of the keys. */
  method AppendRequirements(m: ValueMap, positive: bool, acc: seq<Requirement>)
    returns (reqs: seq<Requirement>)
    ensures forall labels :: Selects(reqs, labels) <==> (Selects(acc, labels) && MapHolds(positive, m, labels))
  {
    reqs := acc;
    var rest := m.Keys;
    while rest != {}
      invariant rest <= m.Keys
      invariant forall labels :: Selects(reqs, labels) <==>
                  (Selects(acc, labels) && MapHolds(positive, m - rest, labels))
      decreases rest
    {
      var key :| key in rest;
      ghost var before, rest0 := reqs, rest;
      rest := rest - {key};
      if key != "" {
        var req := Exists(key);
        if !Wild(m[key]) {
          var list := ListMapString(m[key]);
          EffectiveOfList(m[key], list);
          var values := SetOf(Split(Join(list)));
          req := if positive then In(key, values) else NotIn(key, values);
        } else if !positive {
          req := NotExists(key);
        }
        reqs := reqs + [req];
        forall labels ensures Selects(reqs, labels) <==> (Selects(before, labels) && Matches(req, labels)) {
          SelectsSnoc(before, req, labels);
        }
        assert forall labels ::
          Matches(req, labels) <==> EntryHolds(positive, key, Effective(m[key]), Wild(m[key]), labels);
      }
      forall labels
        ensures MapHolds(positive, m - rest, labels) <==>
                (MapHolds(positive, m - rest0, labels)
                 && EntryHolds(positive, key, Effective(m[key]), Wild(m[key]), labels))
      {
        MapHoldsMore(positive, m, rest0, key, labels);
      }
    }
    assert m - {} == m;
  }

  lemma SelectsSnoc(reqs: seq<Requirement>, r: Requirement, labels: Labels)
    ensures Selects(reqs + [r], labels) <==> (Selects(reqs, labels) && Matches(r, labels))
  {
    var all := reqs + [r];
    if Selects(all, labels) {
      forall i | 0 <= i < |reqs| ensures Matches(reqs[i], labels) { assert all[i] == reqs[i]; }
      assert all[|reqs|] == r;
    }
  }

  lemma MapHoldsMore(positive: bool, m: ValueMap, rest: set<string>, key: string, labels: Labels)
    requires key in rest && key in m
    ensures MapHolds(positive, m - (rest - {key}), labels) <==>
            (MapHolds(positive, m - rest, labels)
             && EntryHolds(positive, key, Effective(m[key]), Wild(m[key]), labels))
  {
    var less, more := m - rest, m - (rest - {key});
    assert forall k :: k in more <==> k in less || k == key;
    assert forall k :: k in less ==> less[k] == m[k] == more[k];
  }

  /** For every order in which the maps are walked, the compiled list accepts exactly the nodes the
      configuration means. */
  method GetNsLabelSelector(config: Option<Config>, ns: string) returns (reqs: seq<Requirement>)
    ensures forall labels :: Selects(reqs, labels) <==> Accepts(config, ns, labels)
  {
    if config.None? || ns !in config.value {
      reqs := [NotExists(SYSTEM_LABEL)];
      forall labels ensures Selects(reqs, labels) <==> SYSTEM_LABEL !in labels {
        assert Selects(reqs, labels) <==> Matches(reqs[0], labels);
      }
      return reqs;
    }
    var item := config.value[ns];
    reqs := AppendRequirements(Entries(item.matching), true, []);
    reqs := AppendRequirements(Entries(item.mustMatch), true, reqs);
    reqs := AppendRequirements(Entries(item.notMatch), false, reqs);
    reqs := AppendRequirements(Entries(item.mustNotMatch), false, reqs);
  }

  /** The predicate: the namespace's selector against the node's labels. */
  method PodMatchNode(text: Text, ns: string, labels: Labels) returns (ok: bool)
    ensures ok == Accepts(Load(text, []), ns, labels)
  {
    var config := GetNsConfigByConfigMap(text, []);
    var selector := GetNsLabelSelector(config, ns);
    ok := Selects(selector, labels);
  }

  // ---------- the meaning of the four maps ----------

  /** The intended meaning of an entry: its own values, unsplit. */
  predicate EntryMeans(positive: bool, key: string, values: set<string>, labels: Labels) {
    EntryHolds(positive, key, values, Wild(values), labels)
  }

  /** With comma-free values, the compiled requirement has the intended meaning for all labels
      exactly when the value set is not empty; an empty one is read back as the empty value. */
  lemma CompiledMeaningIff(positive: bool, key: string, values: set<string>)
    requires key != "" && forall v :: v in values ==> CommaFree(v)
    ensures (forall labels :: EntryHolds(positive, key, Effective(values), Wild(values), labels)
                         <==> EntryMeans(positive, key, values, labels))
       <==> values != {}
  {
    if values == {} {
      var labels: Labels := map[key := ""];
      assert EntryHolds(positive, key, Effective(values), Wild(values), labels)
          != EntryMeans(positive, key, values, labels);
    } else {
      EffectiveCommaFree(values);
    }
  }
}
