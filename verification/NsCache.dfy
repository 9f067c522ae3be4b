/**
 The two caches in front of the stored configuration: the package-level one shared by the scheduler's
 predicate and the edit server, and the server's own on top of it. Both keep references to
 ConfigMap objects, and an edit rewrites such an object in place, so the caches may share it.
 The clock is a parameter; it never goes back.
 */
module NsCache {
  import opened Sequences
  import opened NsSelector
  import opened NsEdit

  /** The package-level cache is trusted for 5 seconds. */
  const SHARED_TIMEOUT := 5

  // ---------- the store over time ----------

  /** From `since` on, until the next version, the store held `text`. */
  datatype Version = Version(since: int, text: Text)

  /** The store held `text` at time `t`. */
  ghost predicate HeldAt(versions: seq<Version>, t: int, text: Text) {
    exists i :: HeldBy(versions, i, t, text)
  }

  predicate HeldBy(versions: seq<Version>, i: nat, t: int, text: Text) {
    && i < |versions| && versions[i].text == text && versions[i].since <= t
    && (i + 1 < |versions| ==> t <= versions[i + 1].since)
  }

  /** The store held `text` at some time from `from` to `till`. */
  ghost predicate HeldWithin(versions: seq<Version>, from: int, till: int, text: Text) {
    exists t :: from <= t <= till && HeldAt(versions, t, text)
  }

  /** What was held stays so when the store is written again later. */
  lemma HeldAfterWrite(versions: seq<Version>, v: Version, t: int, text: Text)
    requires HeldAt(versions, t, text) && t <= v.since
    ensures HeldAt(versions + [v], t, text)
  {
    var i :| HeldBy(versions, i, t, text);
    assert HeldBy(versions + [v], i, t, text);
  }

  lemma HeldWithinAfterWrite(versions: seq<Version>, v: Version, from: int, till: int, text: Text)
    requires HeldWithin(versions, from, till, text) && till <= v.since
    ensures HeldWithin(versions + [v], from, till, text)
  {
    var t :| from <= t <= till && HeldAt(versions, t, text);
    HeldAfterWrite(versions, v, t, text);
  }

  lemma HeldWithinWider(versions: seq<Version>, from: int, till: int, from': int, till': int, text: Text)
    requires HeldWithin(versions, from, till, text) && from' <= from && till <= till'
    ensures HeldWithin(versions, from', till', text)
  {
    var t :| from <= t <= till && HeldAt(versions, t, text);
  }

  class Store {
    var data: Text
    ghost var versions: seq<Version>
    ghost var clock: int

    ghost predicate Valid()
      reads this
    {
      && versions != [] && versions[|versions| - 1].text == data
      && forall i :: 0 <= i < |versions| ==> versions[i].since <= clock
    }

    constructor (text: Text, now: int)
      ensures Valid() && data == text && clock == now && versions == [Version(now, text)]
    {
      data := text;
      versions := [Version(now, text)];
      clock := now;
    }

    /** Time passes. */
    ghost method Tick(now: int)
      requires Valid() && clock <= now
      modifies this`clock
      ensures Valid() && clock == now
    {
      clock := now;
    }

    /** A write, by this process or any other client. */
    method Put(text: Text)
      requires Valid()
      modifies this
      ensures Valid() && data == text && clock == old(clock)
      ensures versions == old(versions) + [Version(clock, text)]
    {
      data := text;
      versions := versions + [Version(clock, text)];
    }

    lemma CurrentHeld()
      requires Valid()
      ensures HeldWithin(versions, clock, clock, data)
    {
      assert HeldBy(versions, |versions| - 1, clock, data);
      assert HeldAt(versions, clock, data);
    }
  }

  class ConfigMap {
    var data: Text

    constructor (text: Text)
      ensures data == text
    {
      data := text;
    }
  }

  /** The package-level variables. */
  class Shared {
    const store: Store
    var cm: ConfigMap?
    var updateTime: int

    constructor (store: Store)
      ensures this.store == store && cm == null
    {
      this.store := store;
      cm := null;
      updateTime := 0;
    }

    ghost predicate Valid()
      reads this, store, cm
    {
      && store.Valid()
      && (cm != null ==>
            && updateTime <= store.clock
            && HeldWithin(store.versions, updateTime, store.clock, cm.data))
    }

    /** The cached object, if any, holds what the store holds. */
    predicate InSync()
      reads this, store, cm
    {
      cm != null ==> cm.data == store.data
    }

    /** The text of the cached object. */
    function Cached(): Text
      reads this, cm
    {
      if cm == null then NoText else cm.data
    }

    /** The cached object may still be handed out. */
    predicate Trusted(now: int)
      reads this
    {
      cm != null && now - updateTime <= SHARED_TIMEOUT
    }

    /** The shared read of the predicate and the server: the cached object while it is trusted, else
        the store's, cached; on a failed fetch an empty object that is not cached. */
    method Get(now: int, fetched: bool) returns (r: ConfigMap)
      requires store.Valid() && now == store.clock
      modifies this
      ensures old(Valid()) || (!old(Trusted(now)) && fetched) ==> Valid()
      ensures cm == old(cm) || fresh(cm)
      ensures r == cm <==> fetched || old(Trusted(now))
      ensures old(cm != null && now - updateTime <= 5) ==>
                r == cm == old(cm) && updateTime == old(updateTime)
      ensures !old(Trusted(now)) && fetched ==> fresh(r) && r.data == store.data && updateTime == now
      ensures old(Valid()) && r == cm ==> HeldWithin(store.versions, now - 5, now, r.data)
      ensures r != cm ==> fresh(r) && r.data == NoText && cm == old(cm) && updateTime == old(updateTime)
    {
      if cm != null && now - updateTime <= SHARED_TIMEOUT {
        if Valid() {
          HeldWithinWider(store.versions, updateTime, store.clock, now - SHARED_TIMEOUT, now, cm.data);
        }
        return cm;
      }
      if !fetched {
        r := new ConfigMap(NoText);
        return;
      }
      r := new ConfigMap(store.data);
      cm := r;
      updateTime := now;
      store.CurrentHeld();
      HeldWithinWider(store.versions, now, now, now - SHARED_TIMEOUT, now, r.data);
    }
  }

  /** The edit server. */
  class Server {
    const shared: Shared
    const timeout: int
    var cm: ConfigMap?
    var updateTime: int

    constructor (shared: Shared, timeout: int)
      requires 0 <= timeout && shared.Valid()
      ensures this.shared == shared && this.timeout == timeout && cm == null && Valid()
    {
      this.shared := shared;
      this.timeout := timeout;
      cm := null;
      updateTime := 0;
    }

    /** The server's own object may still be handed out. */
    predicate Usable(notcache: bool, now: int)
      reads this
    {
      cm != null && !notcache && now - updateTime <= timeout
    }

    ghost predicate Valid()
      reads this, cm, shared, shared.store, shared.cm
    {
      && 0 <= timeout && shared.Valid()
      && (cm != null ==>
            && updateTime <= shared.store.clock
            && HeldWithin(shared.store.versions, updateTime - SHARED_TIMEOUT, shared.store.clock, cm.data))
    }

    /** The server's read. When every fetch succeeds, what it returns was in the store no longer ago
        than both timeouts together, and with `notcache` no longer ago than the shared one. */
    method GetConfigMap(notcache: bool, now: int, fetched: bool) returns (r: ConfigMap)
      requires Valid() && now == shared.store.clock
      modifies this, shared
      ensures shared.Valid() && r == cm
      ensures old(cm != null && now - updateTime <= timeout) && !notcache ==>
                r == old(cm) && updateTime == old(updateTime) && shared.cm == old(shared.cm)
      ensures !old(Usable(notcache, now)) ==>
                && (r == shared.cm <==> fetched || old(shared.Trusted(now)))
                && (old(shared.Trusted(now)) ==> r == old(shared.cm))
                && (!old(shared.Trusted(now)) ==> fresh(r) && r.data == if fetched then shared.store.data else NoText)
                && (!old(shared.Trusted(now)) && fetched ==> shared.updateTime == now)
      ensures shared.cm == old(shared.cm) || fresh(shared.cm)
      ensures fetched ==> Valid()
      ensures fetched ==> HeldWithin(shared.store.versions, now - SHARED_TIMEOUT - timeout, now, r.data)
      ensures notcache ==> updateTime == now
      ensures notcache && r == shared.cm ==> HeldWithin(shared.store.versions, now - SHARED_TIMEOUT, now, r.data)
      ensures (shared.updateTime == old(shared.updateTime) && shared.cm == old(shared.cm))
              || (!old(shared.Trusted(now)) && fetched && shared.updateTime == now && shared.InSync())
    {
      if cm == null || notcache || now - updateTime > timeout {
        var got := shared.Get(now, fetched);
        cm := got;
        updateTime := now;
      }
      if fetched {
        HeldWithinWider(shared.store.versions, updateTime - SHARED_TIMEOUT, shared.store.clock,
                        now - SHARED_TIMEOUT - timeout, now, cm.data);
      }
      r := cm;
    }

    /** The edit handler. The object it edits is the one it just read, shared by both caches when the
        fetch succeeded or was not needed. A rejected request writes nothing. A successful one
        rewrites the object in place and writes the result over the store, computed from a text at
        most as old as the shared timeout, or from nothing when the fetch failed. If the write fails
        the object keeps the edit although the store never held it. */
    method AddUpdateOrDelete(now: int, listed: seq<string>, q: Request, fetched: bool, written: bool)
      returns (error: Option<EditError>, ghost base: Text)
      requires Valid() && now == shared.store.clock
      modifies this, shared, shared.store, shared.cm
      ensures shared.store.clock == now && shared.store.Valid()
      ensures shared.cm == old(shared.cm) || fresh(shared.cm)
      ensures KnownOperation(q.op) ==>
                base == if old(shared.Trusted(now)) then old(shared.cm.data)
                        else if fetched then old(shared.store.data)
                        else NoText
      ensures KnownOperation(q.op) && (fetched || old(shared.Trusted(now))) ==>
                HeldWithin(old(shared.store.versions), now - SHARED_TIMEOUT, now, base)
      ensures shared.updateTime == if KnownOperation(q.op) && !old(shared.Trusted(now)) && fetched then now
                                   else old(shared.updateTime)
      ensures error.None? ==> Edit(base, listed, q).Edited?
      ensures error.Some? ==> Edit(base, listed, q) == Rejected(error.value)
      ensures error.Some? ==> shared.store.data == old(shared.store.data)
                              && shared.store.versions == old(shared.store.versions)
      ensures error.Some? && fetched ==> Valid()
      ensures error.Some? ==>
                (shared.InSync()
                 || (shared.Cached() == old(shared.Cached()) && shared.updateTime == old(shared.updateTime)
                     && shared.cm == old(shared.cm)))
      ensures error.None? && written && (fetched || old(shared.Trusted(now))) ==> shared.InSync()
      ensures error.None? && written ==>
                Valid() && shared.store.data == Json(Edit(base, listed, q).config)
                && shared.store.versions == old(shared.store.versions) + [Version(now, shared.store.data)]
      ensures error.None? && !written ==>
                shared.store.versions == old(shared.store.versions)
                && cm != null && cm.data == Json(Edit(base, listed, q).config)
                && shared.store.data == old(shared.store.data)
                && (fetched || old(shared.Trusted(now)) ==> cm == shared.cm)
    {
      if !KnownOperation(q.op) {
        base := NoText;
        return Some(UnknownOperation), base;
      }
      var target := GetConfigMap(true, now, fetched);
      base := target.data;
      var r := EditConfig(target.data, listed, q);
      if r.Rejected? {
        return Some(r.error), base;
      }
      Save(now, target, r.config, written);
      error := None;
    }

    /** Rewrites the object just read and writes it to the store, which may fail. */
    method Save(now: int, target: ConfigMap, config: Config, written: bool)
      requires shared.Valid() && shared.store.clock == now && 0 <= timeout
      requires cm == target && updateTime == now
      modifies this`cm, target, shared.store
      ensures target.data == Json(config) && shared.store.Valid() && shared.store.clock == now
      ensures written ==> Valid() && shared.store.data == target.data && cm != null && cm.data == target.data
      ensures written ==> shared.store.versions == old(shared.store.versions) + [Version(now, target.data)]
      ensures !written ==> cm == target && shared.store.versions == old(shared.store.versions)
                           && shared.store.data == old(shared.store.data)
    {
      target.data := Json(config);
      if written {
        ghost var before := shared.store.versions;
        shared.store.Put(target.data);
        if shared.cm != null && shared.cm != target {
          HeldWithinAfterWrite(before, Version(now, target.data), shared.updateTime, now, shared.cm.data);
        }
        AfterPut(now, target);
        cm := new ConfigMap(target.data);
      }
    }

    lemma AfterPut(now: int, target: ConfigMap)
      requires shared.store.Valid() && shared.store.clock == now && target.data == shared.store.data
      requires updateTime == now && (shared.cm != null ==> shared.updateTime <= now)
      ensures HeldWithin(shared.store.versions, updateTime - SHARED_TIMEOUT, now, target.data)
      ensures shared.cm != null ==> HeldWithin(shared.store.versions, shared.updateTime, now, target.data)
    {
      shared.store.CurrentHeld();
      HeldWithinWider(shared.store.versions, now, now, updateTime - SHARED_TIMEOUT, now, target.data);
      if shared.cm != null {
        HeldWithinWider(shared.store.versions, now, now, shared.updateTime, now, target.data);
      }
    }

    /** Time passes between requests; no cached object becomes wrong by it. */
    ghost method AdvanceTo(now: int)
      requires Valid() && shared.store.clock <= now
      modifies shared.store`clock
      ensures Valid() && shared.store.clock == now
    {
      ghost var before := shared.store.clock;
      shared.store.Tick(now);
      if shared.cm != null {
        HeldWithinWider(shared.store.versions, shared.updateTime, before, shared.updateTime, now, shared.cm.data);
      }
      if cm != null {
        HeldWithinWider(shared.store.versions, updateTime - SHARED_TIMEOUT, before,
                        updateTime - SHARED_TIMEOUT, now, cm.data);
      }
    }

    /** Another client writes the store. */
    method OtherWrite(text: Text)
      requires Valid()
      modifies shared.store
      ensures Valid() && shared.store.clock == old(shared.store.clock)
      ensures shared.store.versions == old(shared.store.versions) + [Version(shared.store.clock, text)]
    {
      ghost var before, now := shared.store.versions, shared.store.clock;
      shared.store.Put(text);
      if shared.cm != null {
        HeldWithinAfterWrite(before, Version(now, text), shared.updateTime, now, shared.cm.data);
      }
      if cm != null {
        HeldWithinAfterWrite(before, Version(now, text), updateTime - SHARED_TIMEOUT, now, cm.data);
      }
    }
  }
}
