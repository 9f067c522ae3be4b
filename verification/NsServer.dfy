/**
 Runs of the edit server with its caches: how old a read may be, which text an edit really edits, and
 what a failed write leaves for later reads. Operations are served one after the other; where not said
 otherwise, fetches and writes succeed.
 */
module NsServer {
  import opened Sequences
  import opened NsSelector
  import opened NsEdit
  import opened NsRuns
  import opened NsCache

  datatype Op =
    | ServerRead(at: int, notcache: bool)
    | PredicateRead(at: int)
    | EditRequest(at: int, listed: seq<string>, request: Request)
    | ForeignWrite(at: int, text: Text)

  /** How old what the operation returns may be. */
  function Bound(op: Op, timeout: int): int {
    if op.ServerRead? && !op.notcache then SHARED_TIMEOUT + timeout else SHARED_TIMEOUT
  }

  /** What a read returned was in the store within its bound. */
  ghost predicate FreshEnough(versions: seq<Version>, op: Op, timeout: int, seen: Option<Text>) {
    seen.Some? ==> HeldWithin(versions, op.at - Bound(op, timeout), op.at, seen.value)
  }

  predicate InOrder(ops: seq<Op>) {
    forall i, j :: 0 <= i < j < |ops| ==> ops[i].at <= ops[j].at
  }

  lemma FreshEnoughLater(versions: seq<Version>, versions': seq<Version>, now: int, op: Op, timeout: int,
                         seen: Option<Text>)
    requires FreshEnough(versions, op, timeout, seen) && op.at <= now
    requires versions' == versions || (versions' != [] && versions' == versions + [versions'[|versions'| - 1]]
                                       && versions'[|versions'| - 1].since == now)
    ensures FreshEnough(versions', op, timeout, seen)
  {
    if seen.Some? && versions' != versions {
      HeldWithinAfterWrite(versions, versions'[|versions'| - 1], op.at - Bound(op, timeout), op.at, seen.value);
    }
  }

  /** Exactly the first `n` operations have been answered, each read freshly enough. */
  ghost predicate Answered(versions: seq<Version>, ops: seq<Op>, n: nat, timeout: int, seen: seq<Option<Text>>)
    requires n <= |ops|
  {
    && |seen| == n
    && (forall i :: 0 <= i < n ==> (seen[i].Some? <==> ops[i].ServerRead? || ops[i].PredicateRead?))
    && forall i :: 0 <= i < n ==> FreshEnough(versions, ops[i], timeout, seen[i])
  }

  lemma OneMoreAnswer(versions: seq<Version>, versions': seq<Version>, ops: seq<Op>, n: nat, timeout: int,
                      seen: seq<Option<Text>>, result: Option<Text>)
    requires n < |ops| && InOrder(ops) && Answered(versions, ops, n, timeout, seen)
    requires versions' == versions || (versions' != [] && versions' == versions + [versions'[|versions'| - 1]]
                                       && versions'[|versions'| - 1].since == ops[n].at)
    requires result.Some? <==> ops[n].ServerRead? || ops[n].PredicateRead?
    requires FreshEnough(versions', ops[n], timeout, result)
    ensures Answered(versions', ops, n + 1, timeout, seen + [result])
  {
    forall i | 0 <= i < n ensures FreshEnough(versions', ops[i], timeout, seen[i]) {
      FreshEnoughLater(versions, versions', ops[n].at, ops[i], timeout, seen[i]);
    }
  }

  // ---------- which text an edit edits ----------

  /** What operation `n` does to the stored text, and what a read by the predicate sees of it, when
      the caches do not get in the way. */
  predicate Direct(op: Op, before: Text, after: Text, seen: Option<Text>) {
    match op
    case EditRequest(_, listed, request) => after == Applied(before, Served(listed, request))
    case ForeignWrite(_, text) => after == text
    case PredicateRead(_) => after == before && seen == Some(before)
    case ServerRead(_, _) => after == before
  }

  /** No other client wrote within the shared timeout before operation `n`. */
  predicate Quiet(ops: seq<Op>, n: nat)
    requires n < |ops|
  {
    forall k :: 0 <= k < n && ops[k].ForeignWrite? ==> ops[k].at < ops[n].at - SHARED_TIMEOUT
  }

  /** The cached object differs from the store only if it was read before some foreign write, or not
      after the start of the run. */
  ghost predicate Explained(shared: Shared, start: int, ops: seq<Op>, n: nat)
    requires n <= |ops|
    reads shared, shared.store, shared.cm
  {
    shared.updateTime <= start || ExplainedByWrites(shared, ops, n)
  }

  ghost predicate ExplainedByWrites(shared: Shared, ops: seq<Op>, n: nat)
    requires n <= |ops|
    reads shared, shared.store, shared.cm
  {
    shared.InSync() || exists k :: 0 <= k < n && ops[k].ForeignWrite? && shared.updateTime <= ops[k].at
  }

  predicate DirectAt(ops: seq<Op>, texts: seq<Text>, seen: seq<Option<Text>>, n: nat)
    requires n < |ops| && n + 1 < |texts| && n < |seen|
  {
    Direct(ops[n], texts[n], texts[n + 1], seen[n])
  }

  /** The caches cannot get in the way of operation `n` of a run that began at `start`, with the cached
      object in agreement with the store or not. */
  predicate Undisturbed(ops: seq<Op>, start: int, inSync: bool, n: nat)
    requires n < |ops|
  {
    ops[n].ForeignWrite? || (Quiet(ops, n) && (inSync || start < ops[n].at - SHARED_TIMEOUT))
  }

  /** The stored texts after the first `n` operations, and what they have to do with them. */
  predicate Written(ops: seq<Op>, texts: seq<Text>, seen: seq<Option<Text>>, start: int, inSync: bool, n: nat)
    requires n <= |ops|
  {
    && |texts| == n + 1 && |seen| == n
    && forall i :: 0 <= i < n && Undisturbed(ops, start, inSync, i) ==> DirectAt(ops, texts, seen, i)
  }

  lemma OneMoreText(ops: seq<Op>, texts: seq<Text>, seen: seq<Option<Text>>, start: int, inSync: bool, n: nat,
                    text: Text, result: Option<Text>)
    requires n < |ops| && Written(ops, texts, seen, start, inSync, n)
    requires Undisturbed(ops, start, inSync, n) ==> Direct(ops[n], texts[n], text, result)
    ensures Written(ops, texts + [text], seen + [result], start, inSync, n + 1)
  {
    var texts', seen' := texts + [text], seen + [result];
    forall i | 0 <= i < n && Undisturbed(ops, start, inSync, i) ensures DirectAt(ops, texts', seen', i) {
      assert DirectAt(ops, texts, seen, i);
    }
  }

  /** Over every run of reads, edits and foreign writes whose clock does not go back: every read returns
      a configuration the store held no longer ago than the timeouts in front of it, whatever the two
      caches share; and an edit edits the text that is stored, and the predicate reads it, unless
      another client wrote within the shared timeout, or the run began within it with an object in the
      cache that differed from the store. */
  method Serve(server: Server, ops: seq<Op>) returns (seen: seq<Option<Text>>, ghost texts: seq<Text>)
    requires server.Valid() && InOrder(ops)
    requires forall i :: 0 <= i < |ops| ==> server.shared.store.clock <= ops[i].at
    modifies server, server.shared, server.shared.store, server.shared.cm
    ensures server.Valid()
    ensures Answered(server.shared.store.versions, ops, |ops|, server.timeout, seen)
    ensures Written(ops, texts, seen, old(server.shared.store.clock), old(server.shared.InSync()), |ops|)
    ensures texts[0] == old(server.shared.store.data) && texts[|ops|] == server.shared.store.data
  {
    seen := [];
    var shared, store := server.shared, server.shared.store;
    ghost var start, inSync := store.clock, shared.InSync();
    texts := [store.data];
    for n := 0 to |ops|
      invariant server.Valid() && Answered(store.versions, ops, n, server.timeout, seen)
      invariant shared.cm == old(shared.cm) || fresh(shared.cm)
      invariant forall i :: n <= i < |ops| ==> store.clock <= ops[i].at
      invariant Written(ops, texts, seen, start, inSync, n)
      invariant texts[0] == old(store.data) && texts[n] == store.data
      invariant Explained(shared, start, ops, n) && (inSync ==> ExplainedByWrites(shared, ops, n))
    {
      ghost var before := store.versions;
      if Undisturbed(ops, start, inSync, n) {
        UndisturbedIsSynced(shared, ops, start, inSync, n);
      }
      var result := ServeOne(server, ops[n]);
      OneMoreAnswer(before, store.versions, ops, n, server.timeout, seen, result);
      OneMoreText(ops, texts, seen, start, inSync, n, store.data, result);
      seen := seen + [result];
      texts := texts + [store.data];
    }
  }

  lemma UndisturbedIsSynced(shared: Shared, ops: seq<Op>, start: int, inSync: bool, n: nat)
    requires n < |ops| && Explained(shared, start, ops, n) && (inSync ==> ExplainedByWrites(shared, ops, n))
    requires Undisturbed(ops, start, inSync, n)
    ensures ops[n].ForeignWrite? || shared.InSync() || !shared.Trusted(ops[n].at)
  {
  }

  method ServeOne(server: Server, op: Op) returns (seen: Option<Text>)
    requires server.Valid() && server.shared.store.clock <= op.at
    modifies server, server.shared, server.shared.store, server.shared.cm
    ensures server.Valid() && server.shared.store.clock == op.at
    ensures server.shared.cm == old(server.shared.cm) || fresh(server.shared.cm)
    ensures var before, after := old(server.shared.store.versions), server.shared.store.versions;
            after == before || (after != [] && after == before + [after[|after| - 1]]
                                && after[|after| - 1].since == op.at)
    ensures seen.Some? <==> op.ServerRead? || op.PredicateRead?
    ensures FreshEnough(server.shared.store.versions, op, server.timeout, seen)
    ensures op.ForeignWrite? || old(server.shared.InSync() || !server.shared.Trusted(op.at)) ==>
              Direct(op, old(server.shared.store.data), server.shared.store.data, seen)
    ensures !server.shared.InSync() ==>
              ((!op.ForeignWrite? && !old(server.shared.InSync())
                && server.shared.updateTime == old(server.shared.updateTime))
               || (op.ForeignWrite? && server.shared.updateTime <= op.at))
  {
    server.AdvanceTo(op.at);
    seen := None;
    match op
    case ServerRead(at, notcache) =>
      var cm := server.GetConfigMap(notcache, at, true);
      seen := Some(cm.data);
    case PredicateRead(at) =>
      var cm := server.shared.Get(at, true);
      seen := Some(cm.data);
    case EditRequest(at, listed, request) =>
      var _, _ := server.AddUpdateOrDelete(at, listed, request, true, true);
    case ForeignWrite(at, text) =>
      server.OtherWrite(text);
  }

  /** Within the timeout it is otherwise: an edit that follows a foreign write edits the text cached
      before it, and what the other client wrote is lost. */
  method EditAfterForeignWrite(server: Server, text: Text, now: int, listed: seq<string>, q: Request)
    returns (error: Option<EditError>)
    requires server.Valid() && server.shared.store.clock <= now && server.shared.Trusted(now)
    modifies server, server.shared, server.shared.store, server.shared.cm
    ensures error.None? ==>
              var r := Edit(old(server.shared.Cached()), listed, q);
              r.Edited? && server.shared.store.data == Json(r.config)
  {
    server.OtherWrite(text);
    server.AdvanceTo(now);
    var e, _ := server.AddUpdateOrDelete(now, listed, q, true, true);
    error := e;
  }

  // ---------- the theorems on runs of edits hold of the server ----------

  predicate AllDirect(ops: seq<Op>, texts: seq<Text>, seen: seq<Option<Text>>) {
    && |texts| == |ops| + 1 && |seen| == |ops|
    && forall n :: 0 <= n < |ops| ==> DirectAt(ops, texts, seen, n)
  }

  predicate OwnOnly(ops: seq<Op>) {
    forall n :: 0 <= n < |ops| ==> !ops[n].ForeignWrite?
  }

  function EditsOf(ops: seq<Op>): seq<Served> {
    if ops == [] then []
    else
      var op := ops[|ops| - 1];
      EditsOf(ops[..|ops| - 1]) + if op.EditRequest? then [Served(op.listed, op.request)] else []
  }

  /** The stored text at the start and after each edit. */
  function EditedTexts(ops: seq<Op>, texts: seq<Text>): seq<Text>
    requires |texts| == |ops| + 1
  {
    if ops == [] then texts
    else
      var n := |ops| - 1;
      EditedTexts(ops[..n], texts[..n + 1]) + if ops[n].EditRequest? then [texts[n + 1]] else []
  }

  lemma RunSnoc(texts: seq<Text>, edits: seq<Served>, e: Served, text: Text)
    requires NsRuns.Run(texts, edits) && text == Applied(texts[|edits|], e)
    ensures NsRuns.Run(texts + [text], edits + [e])
  {
    var texts', edits' := texts + [text], edits + [e];
    forall t: nat | t < |edits'| ensures AppliedAt(texts', edits', t) {
      if t < |edits| {
        assert AppliedAt(texts, edits, t);
      }
    }
  }

  lemma DirectPrefix(ops: seq<Op>, texts: seq<Text>, seen: seq<Option<Text>>, n: nat)
    requires AllDirect(ops, texts, seen) && OwnOnly(ops) && n <= |ops|
    ensures AllDirect(ops[..n], texts[..n + 1], seen[..n]) && OwnOnly(ops[..n])
  {
    var ops', texts', seen' := ops[..n], texts[..n + 1], seen[..n];
    forall k | 0 <= k < n ensures DirectAt(ops', texts', seen', k) {
      assert DirectAt(ops, texts, seen, k);
    }
  }

  lemma {:induction false} DirectIsRun(ops: seq<Op>, texts: seq<Text>, seen: seq<Option<Text>>)
    requires AllDirect(ops, texts, seen) && OwnOnly(ops)
    ensures NsRuns.Run(EditedTexts(ops, texts), EditsOf(ops))
    ensures EditedTexts(ops, texts)[0] == texts[0]
    ensures EditedTexts(ops, texts)[|EditsOf(ops)|] == texts[|ops|]
    decreases |ops|
  {
    if ops != [] {
      var n := |ops| - 1;
      DirectPrefix(ops, texts, seen, n);
      DirectIsRun(ops[..n], texts[..n + 1], seen[..n]);
      assert DirectAt(ops, texts, seen, n);
      var run, edits := EditedTexts(ops[..n], texts[..n + 1]), EditsOf(ops[..n]);
      if ops[n].EditRequest? {
        RunSnoc(run, edits, Served(ops[n].listed, ops[n].request), texts[n + 1]);
      } else {
        assert run + [] == run && edits + [] == edits;
      }
    }
  }

  lemma OwnIsDirect(ops: seq<Op>, texts: seq<Text>, seen: seq<Option<Text>>, start: int)
    requires Written(ops, texts, seen, start, true, |ops|) && OwnOnly(ops)
    ensures AllDirect(ops, texts, seen)
  {
    forall n | 0 <= n < |ops| ensures DirectAt(ops, texts, seen, n) {
      assert Undisturbed(ops, start, true, n);
    }
  }

  /** What a served run without foreign writes leaves in the store is a run of its edits, so all that is
      proved about runs of edits holds of the server, from a cache that agrees with the store. */
  lemma ServedIsRun(ops: seq<Op>, texts: seq<Text>, seen: seq<Option<Text>>, start: int)
    requires Written(ops, texts, seen, start, true, |ops|) && OwnOnly(ops)
    ensures NsRuns.Run(EditedTexts(ops, texts), EditsOf(ops))
    ensures EditedTexts(ops, texts)[0] == texts[0]
    ensures EditedTexts(ops, texts)[|EditsOf(ops)|] == texts[|ops|]
  {
    OwnIsDirect(ops, texts, seen, start);
    DirectIsRun(ops, texts, seen);
  }

  /** While no edit served gives the exclusion up, no read of the predicate lets a pod of the namespace
      go to a node with the system label. */
  lemma PredicateKeepsOff(ops: seq<Op>, texts: seq<Text>, seen: seq<Option<Text>>, start: int, ns: string,
                          n: nat, labels: Labels)
    requires Written(ops, texts, seen, start, true, |ops|) && OwnOnly(ops)
    requires n < |ops| && ops[n].PredicateRead? && Guarded(texts[0], ns) && SYSTEM_LABEL in labels
    requires forall k :: 0 <= k < n && ops[k].EditRequest? ==>
               !GivesUp(texts[k], Served(ops[k].listed, ops[k].request), ns)
    ensures seen[n].Some? && !Reads(seen[n].value, ns, labels)
  {
    OwnIsDirect(ops, texts, seen, start);
    for k := 0 to n
      invariant Guarded(texts[k], ns)
    {
      assert DirectAt(ops, texts, seen, k);
      if ops[k].EditRequest? {
        EditKeepsGuardIff(texts[k], Served(ops[k].listed, ops[k].request), ns);
      }
    }
    assert DirectAt(ops, texts, seen, n);
    GuardedExcludes(texts[n], ns, labels);
  }

  // ---------- after a failed write ----------

  /** An edit whose write fails, and the next read of the predicate: it is given the edited text, which
      the store never held, as long as the object read for the edit is trusted; after that the stored
      text, which puts the package-level cache right, or an empty one when the fetch fails. */
  method ReadAfterFailedWrite(server: Server, now: int, listed: seq<string>, q: Request, fetched: bool,
                              later: int, fetchedThen: bool)
    returns (error: Option<EditError>, ghost base: Text, seen: Text)
    requires server.Valid() && server.shared.store.clock == now <= later
    requires fetched || server.shared.Trusted(now)
    modifies server, server.shared, server.shared.store, server.shared.cm
    ensures server.shared.store.data == old(server.shared.store.data)
    ensures error.None? ==>
              var readAt := if old(server.shared.Trusted(now)) then old(server.shared.updateTime) else now;
              && Edit(base, listed, q).Edited?
              && seen == (if later - readAt <= SHARED_TIMEOUT then Json(Edit(base, listed, q).config)
                          else if fetchedThen then server.shared.store.data
                          else NoText)
              && (later - readAt > SHARED_TIMEOUT && fetchedThen ==> server.shared.Valid())
  {
    error, base := server.AddUpdateOrDelete(now, listed, q, fetched, false);
    server.shared.store.Tick(later);
    var cm := server.shared.Get(later, fetchedThen);
    seen := cm.data;
  }

  /** What a failed write leaves in the package-level cache was in the store, as for every other read,
      exactly when the store happened to hold the edited text since the object was read. */
  method FailedWrite(server: Server, now: int, listed: seq<string>, q: Request)
    returns (error: Option<EditError>, ghost base: Text)
    requires server.Valid() && server.shared.store.clock == now
    modifies server, server.shared, server.shared.store, server.shared.cm
    ensures error.None? ==>
              && Edit(base, listed, q).Edited?
              && (server.shared.Valid() <==>
                  HeldWithin(server.shared.store.versions, server.shared.updateTime, now,
                             Json(Edit(base, listed, q).config)))
  {
    error, base := server.AddUpdateOrDelete(now, listed, q, true, false);
  }
}
