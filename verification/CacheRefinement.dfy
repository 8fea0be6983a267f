/** The cached service against the service with `cache=None`, call by call. */
module CacheRefinement {
  import opened Common
  import opened UrlRecords
  import opened PostgresUrls
  import opened Caching
  import opened UrlServices

  /** One uninterrupted call or environment event; every cache command may fail. */
  datatype Call =
    | Create(valid: bool, alias: Option<string>, url: NewUrl, draws: Draws)
    | Resolve(code: string, getFails: bool, setFails: bool)
    | Delete(requested: string, requester: Option<int>, invalidationFails: bool)
    | Advance(micros: nat)
    | Evict(key: string)

  datatype Reply =
    | CreateReplied(created: CreateReply)
    | ResolveReplied(resolved: ResolveReply)
    | DeleteReplied(deleted: DeleteReply)
    | NoReply

  /** The database, the cache and the one clock both use. */
  datatype System = System(table: Table, entries: Entries, clock: int)

  ghost function CachedStep(s: System, cacheTtl: int, call: Call): (System, Reply)
  {
    match call
    case Create(valid, alias, url, draws) =>
      var (table', reply) := CreateOutcome(s.table, valid, alias, url, draws, s.clock);
      (s.(table := table'), CreateReplied(reply))
    case Resolve(code, getFails, setFails) =>
      (s.(entries := EntriesAfterResolve(s.table.rows, s.entries, code, s.clock, s.clock, s.clock, cacheTtl, getFails, setFails)),
       ResolveReplied(CachedResolve(s.table.rows, s.entries, code, s.clock, s.clock, getFails)))
    case Delete(code, requester, fails) =>
      (System(s.table.(rows := RowsAfterDelete(s.table.rows, code, requester)),
              EntriesAfterDelete(s.table.rows, s.entries, code, requester, fails), s.clock),
       DeleteReplied(DirectDelete(s.table.rows, code, requester)))
    case Advance(micros) => (s.(clock := s.clock + micros), NoReply)
    case Evict(key) => (s.(entries := Remove(s.entries, key)), NoReply)
  }

  /** The same call on a service built with `cache=None`. */
  ghost function DirectStep(s: System, call: Call): (System, Reply) {
    match call
    case Create(valid, alias, url, draws) =>
      var (table', reply) := CreateOutcome(s.table, valid, alias, url, draws, s.clock);
      (s.(table := table'), CreateReplied(reply))
    case Resolve(code, _, _) => (s, ResolveReplied(DirectResolve(s.table.rows, code, s.clock)))
    case Delete(code, requester, _) =>
      (s.(table := s.table.(rows := RowsAfterDelete(s.table.rows, code, requester))),
       DeleteReplied(DirectDelete(s.table.rows, code, requester)))
    case Advance(micros) => (s.(clock := s.clock + micros), NoReply)
    case Evict(_) => (s, NoReply)
  }

  ghost function DirectAfter(start: System, calls: seq<Call>): System {
    if calls == [] then start
    else DirectStep(DirectAfter(start, calls[..|calls| - 1]), calls[|calls| - 1]).0
  }

  ghost function StateAfter(start: System, cacheTtl: int, calls: seq<Call>): System
  {
    if calls == [] then start
    else
      var n := |calls| - 1;
      CachedStep(StateAfter(start, cacheTtl, calls[..n]), cacheTtl, calls[n]).0
  }

  /** When the invalidation of a deleted code was lost: code to time of the delete. */
  ghost function LostInvalidations(start: System, cacheTtl: int, calls: seq<Call>): map<string, int>
  {
    if calls == [] then map[]
    else
      var n := |calls| - 1;
      var lost := LostInvalidations(start, cacheTtl, calls[..n]);
      var s := StateAfter(start, cacheTtl, calls[..n]);
      RecordLoss(s, calls[n], lost)
  }

  ghost function RecordLoss(s: System, call: Call, lost: map<string, int>): map<string, int> {
    if call.Delete? && call.invalidationFails && DirectDelete(s.table.rows, call.requested, call.requester) == Deleted(true)
    then lost[call.requested := s.clock] else lost
  }

  // ---------------------------------------------------------------- invariant

  /** A live entry mirrors an active row and ends no later than it, or survived a lost invalidation. */
  ghost predicate EntryJustified(s: System, cacheTtl: int, lost: map<string, int>, code: string, entry: Entry) {
    && entry.value.shortCode == code
    && entry.value.id in s.table.rows
    && entry.value == Project(s.table.rows[entry.value.id])
    && (entry.value.expiresAt.Some? ==> entry.deadline <= entry.value.expiresAt.value)
    && entry.deadline <= s.clock + cacheTtl * MICROS_PER_SECOND
    && (!s.table.rows[entry.value.id].isActive ==>
          code in lost && entry.deadline <= lost[code] + cacheTtl * MICROS_PER_SECOND)
  }

  ghost predicate Inv(s: System, cacheTtl: int, lost: map<string, int>) {
    && WellFormed(s.table)
    && forall code | IsLive(s.entries, CacheKey(code), s.clock) ::
         EntryJustified(s, cacheTtl, lost, code, s.entries[CacheKey(code)])
  }

  /** The longest whole number of seconds within both the cache TTL and the remaining life. */
  lemma TtlIsLongest(cacheTtl: int, expiresAt: Option<int>, now: int, seconds: int)
    requires expiresAt.None? || now <= expiresAt.value
    ensures seconds <= TtlSeconds(cacheTtl, expiresAt, now)
       <==> seconds <= cacheTtl && (expiresAt.Some? ==> now + seconds * MICROS_PER_SECOND <= expiresAt.value)
  {}

  lemma CreateStep(s: System, cacheTtl: int, lost: map<string, int>, call: Call)
    requires Inv(s, cacheTtl, lost) && call.Create?
    ensures Inv(CachedStep(s, cacheTtl, call).0, cacheTtl, lost)
  {}

  lemma ResolveStep(s: System, cacheTtl: int, lost: map<string, int>, call: Call)
    requires Inv(s, cacheTtl, lost) && call.Resolve?
    ensures Inv(CachedStep(s, cacheTtl, call).0, cacheTtl, lost)
  {
    var s' := CachedStep(s, cacheTtl, call).0;
    forall code | IsLive(s'.entries, CacheKey(code), s'.clock)
      ensures EntryJustified(s', cacheTtl, lost, code, s'.entries[CacheKey(code)])
    {
      CacheKeyInjective(code, call.code);
      if code == call.code && s'.entries != s.entries {
        var url := DirectResolve(s.table.rows, code, s.clock).url;
        TtlIsLongest(cacheTtl, url.expiresAt, s.clock, TtlSeconds(cacheTtl, url.expiresAt, s.clock));
      }
    }
  }

  lemma DeleteStep(s: System, cacheTtl: int, lost: map<string, int>, call: Call)
    requires Inv(s, cacheTtl, lost) && call.Delete?
    ensures Inv(CachedStep(s, cacheTtl, call).0, cacheTtl, RecordLoss(s, call, lost))
  {
    var s' := CachedStep(s, cacheTtl, call).0;
    DeactivateKeeps(s.table, call.requested);
    forall code | IsLive(s'.entries, CacheKey(code), s'.clock)
      ensures EntryJustified(s', cacheTtl, RecordLoss(s, call, lost), code, s'.entries[CacheKey(code)])
    {
      CacheKeyInjective(code, call.requested);
      assert EntryJustified(s, cacheTtl, lost, code, s.entries[CacheKey(code)]);
    }
  }

  lemma StepKeepsInv(s: System, cacheTtl: int, lost: map<string, int>, call: Call)
    requires Inv(s, cacheTtl, lost)
    ensures Inv(CachedStep(s, cacheTtl, call).0, cacheTtl, RecordLoss(s, call, lost))
  {
    match call {
      case Create(_, _, _, _) => CreateStep(s, cacheTtl, lost, call);
      case Resolve(_, _, _) => ResolveStep(s, cacheTtl, lost, call);
      case Delete(_, _, _) => DeleteStep(s, cacheTtl, lost, call);
      case _ =>
    }
  }

  lemma {:induction false} RunInv(start: System, cacheTtl: int, calls: seq<Call>)
    requires WellFormed(start.table) && start.entries == map[]
    ensures Inv(StateAfter(start, cacheTtl, calls), cacheTtl, LostInvalidations(start, cacheTtl, calls))
  {
    if calls != [] {
      var n := |calls| - 1;
      RunInv(start, cacheTtl, calls[..n]);
      StepKeepsInv(StateAfter(start, cacheTtl, calls[..n]), cacheTtl, LostInvalidations(start, cacheTtl, calls[..n]), calls[n]);
    }
  }

  // ---------------------------------------------------------------- refinement

  /** The cache never influences the database. */
  lemma {:induction false} SameDatabase(start: System, cacheTtl: int, calls: seq<Call>)
    ensures StateAfter(start, cacheTtl, calls).table == DirectAfter(start, calls).table
    ensures StateAfter(start, cacheTtl, calls).clock == DirectAfter(start, calls).clock
  {
    if calls != [] {
      SameDatabase(start, cacheTtl, calls[..|calls| - 1]);
    }
  }

  /**
   * After any calls, the next call answers otherwise than without a cache exactly if it is a resolve that
   * hits a live entry of a code with no active row. Then the code's invalidation was lost less than the
   * cache TTL ago, and the answer is the deleted row instead of not-found.
   */
  lemma CachedRefinesDirect(start: System, cacheTtl: int, calls: seq<Call>, call: Call)
    requires WellFormed(start.table) && start.entries == map[]
    ensures var s, lost := StateAfter(start, cacheTtl, calls), LostInvalidations(start, cacheTtl, calls);
            var cached, direct := CachedStep(s, cacheTtl, call).1, DirectStep(DirectAfter(start, calls), call).1;
            && (cached != direct <==>
                  call.Resolve? && !call.getFails && IsLive(s.entries, CacheKey(call.code), s.clock)
                  && !IsActive(s.table.rows, call.code))
            && (cached != direct ==>
                  && call.code in lost && s.clock < lost[call.code] + cacheTtl * MICROS_PER_SECOND
                  && direct == ResolveReplied(NotFound)
                  && exists id :: id in s.table.rows && s.table.rows[id].shortCode == call.code
                       && !s.table.rows[id].isActive && cached == ResolveReplied(Resolved(Project(s.table.rows[id]))))
  {
    RunInv(start, cacheTtl, calls);
    SameDatabase(start, cacheTtl, calls);
    var s, lost := StateAfter(start, cacheTtl, calls), LostInvalidations(start, cacheTtl, calls);
    if call.Resolve? && !call.getFails && IsLive(s.entries, CacheKey(call.code), s.clock) {
      var entry := s.entries[CacheKey(call.code)];
      assert EntryJustified(s, cacheTtl, lost, call.code, entry);
      if s.table.rows[entry.value.id].isActive {
        ActiveRowIs(s.table, entry.value.id);
      }
    }
  }

  /** A code is recorded as lost only by a delete of its own that deactivated its row and failed to invalidate, at that time. */
  lemma {:induction false} LostMeans(start: System, cacheTtl: int, calls: seq<Call>, code: string) returns (i: nat)
    requires code in LostInvalidations(start, cacheTtl, calls)
    ensures i < |calls| && calls[i].Delete? && calls[i].requested == code && calls[i].invalidationFails
    ensures DirectDelete(StateAfter(start, cacheTtl, calls[..i]).table.rows, code, calls[i].requester) == Deleted(true)
    ensures LostInvalidations(start, cacheTtl, calls)[code] == StateAfter(start, cacheTtl, calls[..i]).clock
  {
    var n := |calls| - 1;
    var before, s := LostInvalidations(start, cacheTtl, calls[..n]), StateAfter(start, cacheTtl, calls[..n]);
    if LostInvalidations(start, cacheTtl, calls) != before && calls[n].requested == code {
      return n;
    }
    i := LostMeans(start, cacheTtl, calls[..n], code);
    assert calls[..n][..i] == calls[..i];
  }

  lemma {:induction false} NothingLost(start: System, cacheTtl: int, calls: seq<Call>)
    requires forall i | 0 <= i < |calls| && calls[i].Delete? :: !calls[i].invalidationFails
    ensures LostInvalidations(start, cacheTtl, calls) == map[]
  {
    if calls != [] {
      NothingLost(start, cacheTtl, calls[..|calls| - 1]);
    }
  }

  /** With every invalidation delivered, the cache is unobservable. */
  lemma CacheIsTransparent(start: System, cacheTtl: int, calls: seq<Call>, call: Call)
    requires WellFormed(start.table) && start.entries == map[]
    requires forall i | 0 <= i < |calls| && calls[i].Delete? :: !calls[i].invalidationFails
    ensures var s := StateAfter(start, cacheTtl, calls);
            CachedStep(s, cacheTtl, call).1 == DirectStep(DirectAfter(start, calls), call).1
  {
    NothingLost(start, cacheTtl, calls);
    CachedRefinesDirect(start, cacheTtl, calls, call);
  }

  /** One clock and no delay: a live entry is never past its row's expiry, so a hit's recheck never fires. */
  lemma RecheckNeverFires(start: System, cacheTtl: int, calls: seq<Call>, code: string)
    requires WellFormed(start.table) && start.entries == map[]
    ensures var s := StateAfter(start, cacheTtl, calls);
            IsLive(s.entries, CacheKey(code), s.clock) ==>
              var expiresAt := s.entries[CacheKey(code)].value.expiresAt;
              expiresAt.None? || s.clock < expiresAt.value
  {
    RunInv(start, cacheTtl, calls);
  }

  /** The code has a row, but no active one, and this cache entry. */
  ghost predicate Stale(s: System, code: string, entry: Entry) {
    && HasRow(s.table.rows, code) && !IsActive(s.table.rows, code)
    && CacheKey(code) in s.entries && s.entries[CacheKey(code)] == entry
  }

  /** Nothing but an eviction removes or renews a live entry of a deleted code. */
  lemma StaleStays(s: System, cacheTtl: int, call: Call, code: string, entry: Entry)
    requires WellFormed(s.table) && Stale(s, code, entry) && s.clock < entry.deadline && call != Evict(CacheKey(code))
    ensures Stale(CachedStep(s, cacheTtl, call).0, code, entry)
  {
    match call {
      case Create(valid, alias, url, draws) =>
        CreateAddsOneRow(s.table, valid, alias, url, draws, s.clock);
        var id :| id in s.table.rows && s.table.rows[id].shortCode == code;
        assert CachedStep(s, cacheTtl, call).0.table.rows[id].shortCode == code;
      case Resolve(other, _, _) => CacheKeyInjective(code, other);
      case Delete(other, _, _) =>
        CacheKeyInjective(code, other);
        DeactivatePresence(s.table.rows, other, code);
      case _ =>
    }
  }

  lemma {:induction false} StaleUntilDeadline(start: System, cacheTtl: int, calls: seq<Call>, rest: seq<Call>, code: string, entry: Entry)
    requires WellFormed(start.table) && start.entries == map[]
    requires Stale(StateAfter(start, cacheTtl, calls), code, entry) && Evict(CacheKey(code)) !in rest
    requires StateAfter(start, cacheTtl, calls + rest).clock < entry.deadline
    ensures Stale(StateAfter(start, cacheTtl, calls + rest), code, entry)
  {
    if rest == [] {
      assert calls + rest == calls;
    } else {
      var n := |rest| - 1;
      var all := calls + rest;
      assert all[..|all| - 1] == calls + rest[..n] && all[|all| - 1] == rest[n];
      var before := StateAfter(start, cacheTtl, calls + rest[..n]);
      StaleUntilDeadline(start, cacheTtl, calls, rest[..n], code, entry);
      RunInv(start, cacheTtl, calls + rest[..n]);
      StaleStays(before, cacheTtl, rest[n], code, entry);
    }
  }

  /**
   * After a delete whose invalidation was lost while the code had a live entry, every resolve that
   * reaches the cache before the entry's deadline still succeeds, unless the entry was evicted.
   */
  lemma LostInvalidationLasts(
    start: System, cacheTtl: int, calls: seq<Call>, code: string, requester: Option<int>, rest: seq<Call>, setFails: bool)
    requires WellFormed(start.table) && start.entries == map[]
    requires DirectDelete(StateAfter(start, cacheTtl, calls).table.rows, code, requester) == Deleted(true)
    requires CacheKey(code) in StateAfter(start, cacheTtl, calls).entries && Evict(CacheKey(code)) !in rest
    requires StateAfter(start, cacheTtl, calls + [Delete(code, requester, true)] + rest).clock
           < StateAfter(start, cacheTtl, calls).entries[CacheKey(code)].deadline
    ensures var all, call := calls + [Delete(code, requester, true)] + rest, Resolve(code, false, setFails);
            && CachedStep(StateAfter(start, cacheTtl, all), cacheTtl, call).1
               == ResolveReplied(Resolved(StateAfter(start, cacheTtl, calls).entries[CacheKey(code)].value))
            && DirectStep(DirectAfter(start, all), call).1 == ResolveReplied(NotFound)
  {
    var s, delete, call := StateAfter(start, cacheTtl, calls), Delete(code, requester, true), Resolve(code, false, setFails);
    var entry := s.entries[CacheKey(code)];
    assert (calls + [delete])[..|calls|] == calls;
    assert Stale(StateAfter(start, cacheTtl, calls + [delete]), code, entry) by {
      RunInv(start, cacheTtl, calls);
      DeactivatePresence(s.table.rows, code, code);
      assert IsActive(s.table.rows, code) && HasRow(s.table.rows, code);
    }
    StaleUntilDeadline(start, cacheTtl, calls + [delete], rest, code, entry);
    CachedRefinesDirect(start, cacheTtl, calls + [delete] + rest, call);
    RecheckNeverFires(start, cacheTtl, calls + [delete] + rest, code);
  }

  /** A lost invalidation is observable: a cached code stays resolvable right after its delete. */
  lemma LostInvalidationIsObservable(cacheTtl: int, code: string, url: NewUrl, draws: Draws)
    requires cacheTtl > 0 && code != "" && url.expiresAt.None? && url.ownerId.None?
    ensures var start := System(EMPTY_TABLE, map[], 0);
            var calls := [Create(true, Some(code), url, draws), Resolve(code, false, false), Delete(code, None, true)];
            var call := Resolve(code, false, false);
            CachedStep(StateAfter(start, cacheTtl, calls), cacheTtl, call).1.resolved.Resolved?
            && DirectStep(DirectAfter(start, calls), call).1 == ResolveReplied(NotFound)
  {
    var start := System(EMPTY_TABLE, map[], 0);
    var create, resolve, delete := Create(true, Some(code), url, draws), Resolve(code, false, false), Delete(code, None, true);
    var row := Row(1, code, url, 0);
    var s1 := System(Table(map[1 := row], 2), map[], 0);
    assert CachedStep(start, cacheTtl, create).0 == s1;
    assert s1.table.rows[1] == row;
    ActiveRowIs(s1.table, 1);
    var s2 := CachedStep(s1, cacheTtl, resolve).0;
    assert IsLive(s2.entries, CacheKey(code), 0);
    var s3 := CachedStep(s2, cacheTtl, delete).0;
    DeactivateKeeps(s1.table, code);
    Unroll(start, cacheTtl, create, resolve, delete);
    SameDatabase(start, cacheTtl, [create, resolve, delete]);
  }

  lemma Unroll(start: System, cacheTtl: int, a: Call, b: Call, c: Call)
    ensures StateAfter(start, cacheTtl, [a, b, c])
         == CachedStep(CachedStep(CachedStep(start, cacheTtl, a).0, cacheTtl, b).0, cacheTtl, c).0
  {
    assert [a][..0] == [];
    assert StateAfter(start, cacheTtl, [a]) == CachedStep(start, cacheTtl, a).0;
    assert [a, b][..1] == [a];
    assert StateAfter(start, cacheTtl, [a, b]) == CachedStep(StateAfter(start, cacheTtl, [a]), cacheTtl, b).0;
    assert [a, b, c][..2] == [a, b];
  }
}
