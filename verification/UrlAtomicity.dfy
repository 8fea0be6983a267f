/**
 * The interleaved protocol and the one-call-at-a-time service describe the same program: a call
 * whose statements run without interruption answers, and leaves the cache and the table, as the
 * methods of `UrlService` promise. With interruptions, an entry can outlive its row's expiry.
 */
module UrlAtomicity {
  import opened Common
  import opened UrlRecords
  import opened PostgresUrls
  import opened Caching
  import opened UrlServices
  import opened UrlProtocol
  import opened UrlInvariant

  ghost predicate OwnStep(ttl: int, trace: seq<State>, k: CallId, i: nat)
    requires 0 < i < |trace|
  {
    ResolveNext(ttl, trace[i - 1], trace[i], k)
  }

  /** Only call k runs. */
  ghost predicate Alone(ttl: int, trace: seq<State>, k: CallId) {
    trace != [] && forall i | 0 < i < |trace| :: OwnStep(ttl, trace, k, i)
  }

  lemma Longer(ttl: int, trace: seq<State>, k: CallId, s': State) returns (longer: seq<State>)
    requires Alone(ttl, trace, k) && ResolveNext(ttl, trace[|trace| - 1], s', k)
    ensures Alone(ttl, longer, k) && longer[0] == trace[0] && longer[|longer| - 1] == s'
  {
    longer := trace + [s'];
    forall i | 0 < i < |longer| ensures OwnStep(ttl, longer, k, i) {
      assert i < |trace| ==> OwnStep(ttl, trace, k, i);
    }
  }

  /** The protocol's cache by code and the service's cache by key hold the same entries. */
  ghost predicate SameCache(cached: map<string, Cached>, entries: Entries) {
    forall code :: (code in cached <==> CacheKey(code) in entries)
                && (code in cached ==> cached[code].entry == entries[CacheKey(code)])
  }

  function ReplyOf(pc: Pc): ResolveReply
    requires pc.ResolveOk? || pc.ResolveFailed?
  {
    if pc.ResolveOk? then Resolved(pc.url) else pc.reply
  }

  lemma StoredAlike(cached: map<string, Cached>, entries: Entries, code: string, written: Cached)
    requires SameCache(cached, entries)
    ensures SameCache(cached[code := written], entries[CacheKey(code) := written.entry])
  {
    var cached', entries' := cached[code := written], entries[CacheKey(code) := written.entry];
    forall other ensures (other in cached' <==> CacheKey(other) in entries')
                      && (other in cached' ==> cached'[other].entry == entries'[CacheKey(other)]) {
      StoredAt(cached, entries, code, written, other);
    }
  }

  lemma StoredAt(cached: map<string, Cached>, entries: Entries, code: string, written: Cached, other: string)
    requires SameCache(cached, entries)
    ensures var cached', entries' := cached[code := written], entries[CacheKey(code) := written.entry];
            && (other in cached' <==> CacheKey(other) in entries')
            && (other in cached' ==> cached'[other].entry == entries'[CacheKey(other)])
  {
    CacheKeyInjective(other, code);
  }

  /** An uninterrupted resolve behaves as the service method specifies. */
  lemma SoloResolve(ttl: int, s: State, k: CallId, entries: Entries, now: int, ttlNow: int, getFails: bool, setFails: bool)
    returns (trace: seq<State>)
    requires Resolving(s, k) && s.calls[k].pc.CacheGet? && SameCache(s.cache, entries)
    ensures Alone(ttl, trace, k) && trace[0] == s
    ensures var s', code := trace[|trace| - 1], s.calls[k].request.code;
            && s'.table == s.table && s'.clock == s.clock
            && Resolving(s', k) && Finished(s'.calls[k].pc) && !s'.calls[k].pc.Crashed?
            && (s'.calls[k].pc.ResolveOk? || s'.calls[k].pc.ResolveFailed?)
            && ReplyOf(s'.calls[k].pc) == CachedResolve(s.table.rows, entries, code, now, s.clock, getFails)
            && SameCache(s'.cache, EntriesAfterResolve(s.table.rows, entries, code, now, ttlNow, s.clock, ttl, getFails, setFails))
  {
    var code := s.calls[k].request.code;
    var hit := !getFails && code in s.cache && s.clock < s.cache[code].entry.deadline;
    var s1 := MoveTo(s, k, if hit then CheckHit(s.cache[code], s.clock) else RepoGet);
    assert CacheGetStep(s, s1, k, getFails);
    assert ResolveNext(ttl, s, s1, k);
    trace := Longer(ttl, [s], k, s1);
    if hit {
      trace := SoloHit(ttl, trace, k, now);
    } else {
      trace := SoloMiss(ttl, trace, k, entries, now, ttlNow, setFails);
    }
  }

  lemma SoloHit(ttl: int, trace: seq<State>, k: CallId, now: int) returns (longer: seq<State>)
    requires Alone(ttl, trace, k) && Resolving(trace[|trace| - 1], k) && trace[|trace| - 1].calls[k].pc.CheckHit?
    ensures Alone(ttl, longer, k) && longer[0] == trace[0]
    ensures var s, s' := trace[|trace| - 1], longer[|longer| - 1];
            && s'.table == s.table && s'.clock == s.clock && s'.cache == s.cache && Resolving(s', k)
            && (s'.calls[k].pc.ResolveOk? || s'.calls[k].pc.ResolveFailed?)
            && var url := s.calls[k].pc.cached.entry.value;
               ReplyOf(s'.calls[k].pc) == if IsExpired(url.expiresAt, now) then Expired else Resolved(url)
  {
    var s := trace[|trace| - 1];
    var CheckHit(cached, hitAt) := s.calls[k].pc;
    var s' := MoveTo(s, k, if IsExpired(cached.entry.value.expiresAt, now) then ResolveFailed(Expired)
                           else ResolveOk(cached.entry.value, FromCache(cached, hitAt), now));
    assert CheckHitStep(s, s', k, now);
    assert ResolveNext(ttl, s, s', k);
    longer := Longer(ttl, trace, k, s');
  }

  lemma SoloMiss(ttl: int, trace: seq<State>, k: CallId, entries: Entries, now: int, ttlNow: int, setFails: bool)
    returns (longer: seq<State>)
    requires Alone(ttl, trace, k) && Resolving(trace[|trace| - 1], k) && trace[|trace| - 1].calls[k].pc.RepoGet?
    requires SameCache(trace[|trace| - 1].cache, entries)
    ensures Alone(ttl, longer, k) && longer[0] == trace[0]
    ensures var s, s' := trace[|trace| - 1], longer[|longer| - 1];
            && s'.table == s.table && s'.clock == s.clock && Resolving(s', k)
            && (s'.calls[k].pc.ResolveOk? || s'.calls[k].pc.ResolveFailed?)
            && var code := s.calls[k].request.code;
               var reply := DirectResolve(s.table.rows, code, now);
               && ReplyOf(s'.calls[k].pc) == reply
               && SameCache(s'.cache, if setFails || !reply.Resolved? then entries
                            else Store(entries, CacheKey(code), reply.url, TtlSeconds(ttl, reply.url.expiresAt, ttlNow), s.clock))
  {
    var s := trace[|trace| - 1];
    var code := s.calls[k].request.code;
    var found := ActiveRow(s.table.rows, code);
    var s1 := MoveTo(s, k, if found.None? then ResolveFailed(NotFound) else CheckRow(found.value, s.step));
    assert RepoGetStep(s, s1, k);
    assert ResolveNext(ttl, s, s1, k);
    longer := Longer(ttl, trace, k, s1);
    if found.Some? {
      var url := Project(found.value);
      var s2 := MoveTo(s1, k, if IsExpired(url.expiresAt, now) then ResolveFailed(Expired) else ComputeTtl(url, s.step, now));
      assert CheckRowStep(s1, s2, k, now);
      assert ResolveNext(ttl, s1, s2, k);
      longer := Longer(ttl, longer, k, s2);
      if !IsExpired(url.expiresAt, now) {
        longer := SoloWrite(ttl, longer, k, entries, ttlNow, setFails);
      }
    }
  }

  lemma SoloWrite(ttl: int, trace: seq<State>, k: CallId, entries: Entries, now: int, setFails: bool) returns (longer: seq<State>)
    requires Alone(ttl, trace, k) && Resolving(trace[|trace| - 1], k) && trace[|trace| - 1].calls[k].pc.ComputeTtl?
    requires SameCache(trace[|trace| - 1].cache, entries)
    ensures Alone(ttl, longer, k) && longer[0] == trace[0]
    ensures var s, s' := trace[|trace| - 1], longer[|longer| - 1];
            && s'.table == s.table && s'.clock == s.clock && Resolving(s', k)
            && s'.calls[k].pc.ResolveOk?
            && var url := s.calls[k].pc.url;
               && s'.calls[k].pc.url == url
               && SameCache(s'.cache, if setFails then entries
                            else Store(entries, CacheKey(s.calls[k].request.code), url, TtlSeconds(ttl, url.expiresAt, now), s.clock))
  {
    var s := trace[|trace| - 1];
    var code := s.calls[k].request.code;
    var ComputeTtl(url, readAt, checkedAt) := s.calls[k].pc;
    var t := TtlSeconds(ttl, url.expiresAt, now);
    var s1 := MoveTo(s, k, CacheSet(url, readAt, checkedAt, t));
    assert ComputeTtlStep(ttl, s, s1, k, now);
    assert ResolveNext(ttl, s, s1, k);
    longer := Longer(ttl, trace, k, s1);
    var cached := Cached(Entry(url, s1.clock + t * MICROS_PER_SECOND), s1.clock, readAt);
    var s2 := MoveTo(if setFails || t <= 0 then s1 else s1.(cache := s1.cache[code := cached]),
                     k, ResolveOk(url, FromRow(readAt), checkedAt));
    assert CacheSetStep(s1, s2, k, setFails, false);
    assert ResolveNext(ttl, s1, s2, k);
    longer := Longer(ttl, longer, k, s2);
    if !setFails && t > 0 {
      StoredAlike(s.cache, entries, code, cached);
    }
  }

  // ---------------------------------------------------------------- delete

  ghost predicate OwnDeleteStep(trace: seq<State>, k: CallId, i: nat)
    requires 0 < i < |trace|
  {
    DeleteNext(trace[i - 1], trace[i], k)
  }

  ghost predicate DeletesAlone(trace: seq<State>, k: CallId) {
    trace != [] && forall i | 0 < i < |trace| :: OwnDeleteStep(trace, k, i)
  }

  lemma LongerDelete(trace: seq<State>, k: CallId, s': State) returns (longer: seq<State>)
    requires DeletesAlone(trace, k) && DeleteNext(trace[|trace| - 1], s', k)
    ensures DeletesAlone(longer, k) && longer[0] == trace[0] && longer[|longer| - 1] == s'
  {
    longer := trace + [s'];
    forall i | 0 < i < |longer| ensures OwnDeleteStep(longer, k, i) {
      assert i < |trace| ==> OwnDeleteStep(trace, k, i);
    }
  }

  lemma RemovedAlike(cached: map<string, Cached>, entries: Entries, code: string)
    requires SameCache(cached, entries)
    ensures SameCache(cached - {code}, Remove(entries, CacheKey(code)))
  {
    forall other ensures CacheKey(other) == CacheKey(code) <==> other == code {
      CacheKeyInjective(other, code);
    }
  }

  /** An uninterrupted delete behaves as the service method specifies. */
  lemma SoloDelete(s: State, k: CallId, entries: Entries, invalidationFails: bool) returns (trace: seq<State>)
    requires Deleting(s, k) && s.calls[k].pc.OwnerGet? && SameCache(s.cache, entries)
    ensures DeletesAlone(trace, k) && trace[0] == s
    ensures var s', code, requester := trace[|trace| - 1], s.calls[k].request.code, s.calls[k].request.requester;
            && Deleting(s', k) && s'.calls[k].pc == DeleteDone(DirectDelete(s.table.rows, code, requester))
            && s'.table == s.table.(rows := RowsAfterDelete(s.table.rows, code, requester))
            && SameCache(s'.cache, EntriesAfterDelete(s.table.rows, entries, code, requester, invalidationFails))
  {
    var Delete(code, requester) := s.calls[k].request;
    var found := ActiveRow(s.table.rows, code);
    var s1 := MoveTo(s, k, if found.None? then DeleteDone(Deleted(false))
                           else if MayDelete(found.value.ownerId, requester) then SoftDelete
                           else DeleteDone(NotOwner));
    assert OwnerGetStep(s, s1, k);
    trace := LongerDelete([s], k, s1);
    if found.Some? && MayDelete(found.value.ownerId, requester) {
      trace := SoloUpdate(trace, k, entries, invalidationFails);
    }
  }

  lemma SoloUpdate(trace: seq<State>, k: CallId, entries: Entries, invalidationFails: bool) returns (longer: seq<State>)
    requires DeletesAlone(trace, k) && Deleting(trace[|trace| - 1], k) && trace[|trace| - 1].calls[k].pc.SoftDelete?
    requires IsActive(trace[|trace| - 1].table.rows, trace[|trace| - 1].calls[k].request.code)
    requires SameCache(trace[|trace| - 1].cache, entries)
    ensures DeletesAlone(longer, k) && longer[0] == trace[0]
    ensures var s, s' := trace[|trace| - 1], longer[|longer| - 1];
            var code := s.calls[k].request.code;
            && Deleting(s', k) && s'.calls[k].pc == DeleteDone(Deleted(true))
            && s'.table == s.table.(rows := Deactivate(s.table.rows, code))
            && SameCache(s'.cache, if invalidationFails then entries else Remove(entries, CacheKey(code)))
  {
    var s := trace[|trace| - 1];
    var code := s.calls[k].request.code;
    var s1 := MoveTo(s.(table := s.table.(rows := Deactivate(s.table.rows, code)),
                        deletions := s.deletions[code := Deletion(s.step, k)]), k, Invalidate);
    assert SoftDeleteStep(s, s1, k, false);
    longer := LongerDelete(trace, k, s1);
    var s2 := MoveTo(if invalidationFails then s1 else s1.(cache := s1.cache - {code}), k, DeleteDone(Deleted(true)));
    assert InvalidateStep(s1, s2, k, invalidationFails, false);
    longer := LongerDelete(longer, k, s2);
    RemovedAlike(s.cache, entries, code);
  }

  // ---------------------------------------------------------------- create

  ghost predicate OwnCreateStep(trace: seq<State>, k: CallId, i: nat)
    requires 0 < i < |trace|
  {
    CreateNext(trace[i - 1], trace[i], k)
  }

  ghost predicate CreatesAlone(trace: seq<State>, k: CallId) {
    trace != [] && forall i | 0 < i < |trace| :: OwnCreateStep(trace, k, i)
  }

  lemma LongerCreate(trace: seq<State>, k: CallId, s': State) returns (longer: seq<State>)
    requires CreatesAlone(trace, k) && CreateNext(trace[|trace| - 1], s', k)
    ensures CreatesAlone(longer, k) && longer == trace + [s']
  {
    longer := trace + [s'];
    forall i | 0 < i < |longer| ensures OwnCreateStep(longer, k, i) {
      assert i < |trace| ==> OwnCreateStep(trace, k, i);
    }
  }

  /** The state after call k inserts `code`. */
  ghost function Inserted(s: State, k: CallId, code: string, now: int): State
    requires Creating(s, k) && (s.calls[k].pc.AliasInsert? || s.calls[k].pc.RandomInsert?)
  {
    var (table', r) := TableInsert(s.table, code, s.calls[k].request.url, now);
    MoveTo(s.(table := table', makers := if r.Ok? then s.makers[r.value.id := k] else s.makers),
           k, AfterInsert(s.calls[k].pc, code, r))
  }

  /** An uninterrupted creation behaves as the service method specifies. */
  lemma SoloCreate(s: State, k: CallId, draws: Draws, now: int) returns (trace: seq<State>)
    requires Creating(s, k) && s.calls[k].pc == FirstPc(s.calls[k].request)
    ensures CreatesAlone(trace, k) && trace[0] == s
    ensures var s', request := trace[|trace| - 1], s.calls[k].request;
            && Creating(s', k) && s'.calls[k].pc.CreateDone?
            && (s'.table, s'.calls[k].pc.created)
               == CreateOutcome(s.table, request.valid, request.alias, request.url, draws, now)
  {
    var Create(valid, alias, url) := s.calls[k].request;
    if !valid {
      trace := [s];
    } else if alias.Some? && alias.value != "" {
      trace := SoloAlias(s, k, alias.value, now);
    } else {
      trace := SoloRandom(s, k, draws, now);
    }
  }

  lemma SoloAlias(s: State, k: CallId, code: string, now: int) returns (trace: seq<State>)
    requires Creating(s, k) && s.calls[k].pc.AliasCheck? && s.calls[k].request.alias == Some(code)
    ensures CreatesAlone(trace, k) && trace[0] == s
    ensures var s', url := trace[|trace| - 1], s.calls[k].request.url;
            && Creating(s', k) && s'.calls[k].pc.CreateDone?
            && (if IsActive(s.table.rows, code) then s'.table == s.table && s'.calls[k].pc.created == AliasTaken
                else
                  var (table', r) := TableInsert(s.table, code, url, now);
                  s'.table == table' && s'.calls[k].pc.created == if r.Ok? then Created(r.value) else CollisionEscapes)
  {
    var s1 := MoveTo(s, k, if IsActive(s.table.rows, code) then CreateDone(AliasTaken, []) else AliasInsert);
    assert AliasCheckStep(s, s1, k);
    trace := LongerCreate([s], k, s1);
    if !IsActive(s.table.rows, code) {
      var s2 := Inserted(s1, k, code, now);
      assert InsertStep(s1, s2, k, code, now, false);
      trace := LongerCreate(trace, k, s2);
    }
  }

  lemma SoloRandom(s: State, k: CallId, draws: Draws, now: int) returns (trace: seq<State>)
    requires Creating(s, k) && s.calls[k].pc == RandomInsert([])
    ensures CreatesAlone(trace, k) && trace[0] == s
    ensures var s', url := trace[|trace| - 1], s.calls[k].request.url;
            var free := FirstFree(s.table.rows, draws, 0);
            && Creating(s', k) && s'.calls[k].pc.CreateDone?
            && (if free == |draws| then s'.table == s.table.(nextId := s.table.nextId + free) && s'.calls[k].pc.created == GaveUp
                else
                  var row := Row(s.table.nextId + free, draws[free], url, now);
                  s'.table == Table(s.table.rows[row.id := row], row.id + 1) && s'.calls[k].pc.created == Created(row))
  {
    var free := FirstFree(s.table.rows, draws, 0);
    trace := [s];
    var t := s;
    for i := 0 to free
      invariant CreatesAlone(trace, k) && trace[0] == s && trace[|trace| - 1] == t
      invariant Creating(t, k) && t.calls[k].request == s.calls[k].request
      invariant t.table == s.table.(nextId := s.table.nextId + i)
      invariant if i == |draws| then t.calls[k].pc.CreateDone? && t.calls[k].pc.created == GaveUp
                else t.calls[k].pc.RandomInsert? && |t.calls[k].pc.tried| == i
    {
      var t' := Inserted(t, k, draws[i], now);
      assert InsertStep(t, t', k, draws[i], now, false);
      trace := LongerCreate(trace, k, t');
      t := t';
    }
    if free < |draws| {
      var t' := Inserted(t, k, draws[free], now);
      assert InsertStep(t, t', k, draws[free], now, false);
      trace := LongerCreate(trace, k, t');
    }
  }

  // ---------------------------------------------------------------- why a hit rechecks expiry

  lemma ReachResolve(ttl: int, s: State, s': State, k: CallId)
    requires Reachable(ttl, s) && ResolveNext(ttl, s, s', k)
    ensures Reachable(ttl, s')
  {
    assert Next(ttl, s, s');
    ReachStep(ttl, s, s');
  }

  lemma ReachCreate(ttl: int, s: State, s': State, k: CallId)
    requires Reachable(ttl, s) && CreateNext(s, s', k)
    ensures Reachable(ttl, s')
  {
    assert Next(ttl, s, s');
    ReachStep(ttl, s, s');
  }

  lemma ReachStart(ttl: int, s: State, k: CallId, request: Request)
    requires Reachable(ttl, s) && k !in s.calls
    ensures Reachable(ttl, s.(calls := s.calls[k := Call(request, FirstPc(request))]))
  {
    var s' := s.(calls := s.calls[k := Call(request, FirstPc(request))]);
    assert Start(s, s', k, request);
    ReachStep(ttl, s, s');
  }

  lemma ReachTick(ttl: int, s: State, clock: int)
    requires Reachable(ttl, s) && s.clock <= clock
    ensures Reachable(ttl, s.(clock := clock))
  {
    assert Tick(s, s.(clock := clock));
    ReachStep(ttl, s, s.(clock := clock));
  }

  /** Two racing requests for one free alias: both pass the check, one creates, the other's collision escapes. */
  lemma LostRaceEscapes(ttl: int, alias: string, url: NewUrl) returns (s: State)
    requires alias != ""
    ensures Reachable(ttl, s) && Creating(s, 0) && Creating(s, 1)
    ensures s.calls[0].request == s.calls[1].request == Create(true, Some(alias), url)
    ensures s.calls[0].pc.CreateDone? && s.calls[0].pc.created == Created(Row(1, alias, url, 0))
    ensures s.calls[1].pc.CreateDone? && s.calls[1].pc.created == CollisionEscapes
    ensures IsActive(s.table.rows, alias)
  {
    var s0 := State(EMPTY_TABLE, map[], 0, 0, map[], map[], map[]);
    assert IsRun(ttl, [s0]) && [s0][0] == s0;
    var request := Create(true, Some(alias), url);
    ReachStart(ttl, s0, 0, request);
    var s1 := s0.(calls := s0.calls[0 := Call(request, AliasCheck)]);
    ReachStart(ttl, s1, 1, request);
    var s2 := s1.(calls := s1.calls[1 := Call(request, AliasCheck)]);
    var s3 := MoveTo(s2, 0, AliasInsert);
    assert AliasCheckStep(s2, s3, 0);
    ReachCreate(ttl, s2, s3, 0);
    var s4 := MoveTo(s3, 1, AliasInsert);
    assert AliasCheckStep(s3, s4, 1);
    ReachCreate(ttl, s3, s4, 1);
    var s5 := Inserted(s4, 0, alias, 0);
    assert InsertStep(s4, s5, 0, alias, 0, false);
    ReachCreate(ttl, s4, s5, 0);
    assert s5.table.rows[1] == Row(1, alias, url, 0);
    s := Inserted(s5, 1, alias, 0);
    assert InsertStep(s5, s, 1, alias, 0, false);
    ReachCreate(ttl, s5, s, 1);
  }

  /** A reachable state with one row, for alias "a", and nothing else going on. */
  lemma CreatedState(ttl: int, url: NewUrl) returns (s: State)
    ensures Reachable(ttl, s) && s.clock == 0 && s.cache == map[] && s.calls.Keys == {0}
    ensures s.table == Table(map[1 := Row(1, "a", url, 0)], 2)
  {
    var s0 := State(EMPTY_TABLE, map[], 0, 0, map[], map[], map[]);
    assert IsRun(ttl, [s0]) && [s0][0] == s0;
    var request := Create(true, Some("a"), url);
    ReachStart(ttl, s0, 0, request);
    var s1 := s0.(calls := s0.calls[0 := Call(request, AliasCheck)]);
    var s2 := MoveTo(s1, 0, AliasInsert);
    assert AliasCheckStep(s1, s2, 0);
    ReachCreate(ttl, s1, s2, 0);
    var row := Row(1, "a", url, 0);
    s := MoveTo(s2.(table := Table(map[1 := row], 2), makers := map[1 := 0]), 0, CreateDone(Created(row), []));
    assert InsertStep(s2, s, 0, "a", 0, false);
    ReachCreate(ttl, s2, s, 0);
  }

  lemma ReachDelete(ttl: int, s: State, s': State, k: CallId)
    requires Reachable(ttl, s) && DeleteNext(s, s', k)
    ensures Reachable(ttl, s')
  {
    assert Next(ttl, s, s');
    ReachStep(ttl, s, s');
  }

  /** Two racing deletes by the owner: both pass the owner check, one deletes, the other answers false. */
  lemma LostDeleteAnswersFalse(ttl: int, url: NewUrl) returns (s: State)
    ensures Reachable(ttl, s) && Deleting(s, 1) && Deleting(s, 2)
    ensures s.calls[1].request == s.calls[2].request == Delete("a", url.ownerId)
    ensures s.calls[1].pc.Invalidate? && s.calls[2].pc == DeleteDone(Deleted(false))
    ensures 1 in s.table.rows && s.table.rows[1] == Row(1, "a", url, 0).(isActive := false)
  {
    var s0 := CreatedState(ttl, url);
    var request := Delete("a", url.ownerId);
    ReachStart(ttl, s0, 1, request);
    var s1 := s0.(calls := s0.calls[1 := Call(request, OwnerGet)]);
    ReachStart(ttl, s1, 2, request);
    var s2 := s1.(calls := s1.calls[2 := Call(request, OwnerGet)]);
    assert s2.table.rows[1] == Row(1, "a", url, 0);
    ActiveRowIs(s2.table, 1);
    var s3 := MoveTo(s2, 1, SoftDelete);
    assert OwnerGetStep(s2, s3, 1);
    ReachDelete(ttl, s2, s3, 1);
    var s4 := MoveTo(s3, 2, SoftDelete);
    assert OwnerGetStep(s3, s4, 2);
    ReachDelete(ttl, s3, s4, 2);
    var s5 := MoveTo(s4.(table := s4.table.(rows := Deactivate(s4.table.rows, "a")),
                         deletions := s4.deletions["a" := Deletion(s4.step, 1)]), 1, Invalidate);
    assert IsActive(s4.table.rows, "a") by { assert s4.table.rows[1].isActive; }
    assert SoftDeleteStep(s4, s5, 1, false);
    ReachDelete(ttl, s4, s5, 1);
    s := MoveTo(s5, 2, DeleteDone(Deleted(false)));
    assert SoftDeleteStep(s5, s, 2, false);
    ReachDelete(ttl, s5, s, 2);
  }

  /** The same state with a resolve of "a" at clock 0, about to write the cache. */
  lemma AboutToWrite(ttl: int, url: NewUrl) returns (s: State)
    requires url.expiresAt.None? || 0 <= url.expiresAt.value
    ensures Reachable(ttl, s) && s.clock == 0 && s.cache == map[] && Resolving(s, 1)
    ensures var view := Project(Row(1, "a", url, 0));
            s.calls[1].request == Resolve("a") && s.calls[1].pc.CacheSet? && s.calls[1].pc.url == view
            && s.calls[1].pc.ttl == TtlSeconds(ttl, url.expiresAt, 0)
  {
    var s0 := CreatedState(ttl, url);
    var row := Row(1, "a", url, 0);
    ReachStart(ttl, s0, 1, Resolve("a"));
    var s1 := s0.(calls := s0.calls[1 := Call(Resolve("a"), CacheGet)]);
    var s2 := MoveTo(s1, 1, RepoGet);
    assert CacheGetStep(s1, s2, 1, false);
    ReachResolve(ttl, s1, s2, 1);
    assert s2.table.rows[1] == row;
    ActiveRowIs(s2.table, 1);
    var s3 := MoveTo(s2, 1, CheckRow(row, s2.step));
    assert RepoGetStep(s2, s3, 1);
    ReachResolve(ttl, s2, s3, 1);
    var s4 := MoveTo(s3, 1, ComputeTtl(Project(row), s2.step, 0));
    assert CheckRowStep(s3, s4, 1, 0);
    ReachResolve(ttl, s3, s4, 1);
    s := MoveTo(s4, 1, CacheSet(Project(row), s2.step, 0, TtlSeconds(ttl, url.expiresAt, 0)));
    assert ComputeTtlStep(ttl, s4, s, 1, 0);
    ReachResolve(ttl, s4, s, 1);
  }

  /**
   * How late a cache write may come: a written entry ends by its row's expiry exactly if Redis time at
   * the write is ahead of the clock read for the TTL by at most what truncation or the cache TTL left over.
   */
  lemma WriteEndsByExpiryIff(ttl: int, s: State, mid: State, late: State, s': State, k: CallId, ttlNow: int, dies: bool)
    requires ComputeTtlStep(ttl, s, mid, k, ttlNow) && mid.calls[k].pc.ttl > 0 && mid.calls[k].pc.url.expiresAt.Some?
    requires Resolving(late, k) && late.calls[k] == mid.calls[k]
    requires CacheSetStep(late, s', k, false, dies)
    ensures var CacheSet(url, _, _, t) := mid.calls[k].pc;
            var code, leftOver := mid.calls[k].request.code, url.expiresAt.value - ttlNow - t * MICROS_PER_SECOND;
            && code in s'.cache
            && (s'.cache[code].entry.deadline <= url.expiresAt.value <==> late.clock - ttlNow <= leftOver)
            && 0 <= leftOver
            && (t < ttl ==> leftOver < MICROS_PER_SECOND)
  {}

  /** A write delayed past the TTL computation leaves a live entry whose URL has already expired. */
  lemma DelayedWriteOutlivesExpiry(ttl: int, lifeSeconds: int) returns (s: State)
    requires 0 < lifeSeconds <= ttl
    ensures Reachable(ttl, s) && "a" in s.cache
    ensures var Entry(url, deadline) := s.cache["a"].entry;
            url.expiresAt.Some? && url.expiresAt.value < s.clock < deadline
  {
    var life := lifeSeconds * MICROS_PER_SECOND;
    var before := AboutToWrite(ttl, NewUrl("https://example.com", Some(life), None));
    assert before.calls[1].pc.ttl == lifeSeconds;
    ReachTick(ttl, before, life);
    var delayed := before.(clock := life);
    var CacheSet(url, readAt, checkedAt, t) := before.calls[1].pc;
    var cached := Cached(Entry(url, life + life), life, readAt);
    var written := MoveTo(delayed.(cache := map["a" := cached]), 1, ResolveOk(url, FromRow(readAt), checkedAt));
    assert CacheSetStep(delayed, written, 1, false, false);
    ReachResolve(ttl, delayed, written, 1);
    ReachTick(ttl, written, life + 1);
    s := written.(clock := life + 1);
  }
}
