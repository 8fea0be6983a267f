/** What holds over whole interleaved runs of the URL service. */
module UrlSafety {
  import opened Common
  import opened UrlRecords
  import opened PostgresUrls
  import opened Caching
  import opened UrlServices
  import opened UrlProtocol
  import opened UrlInvariant

  // ---------------------------------------------------------------- a code is bound once

  lemma SameBinding(s: State, s': State, id: int, id': int)
    requires WellFormed(s'.table) && Preserves(s.table.rows, s'.table.rows)
    requires id in s.table.rows && id' in s'.table.rows
    requires s.table.rows[id].shortCode == s'.table.rows[id'].shortCode
    ensures id == id' && Project(s.table.rows[id]) == Project(s'.table.rows[id'])
  {}

  lemma LaterTables(ttl: int, s: State, s': State)
    requires Later(ttl, s, s')
    ensures WellFormed(s.table) && WellFormed(s'.table) && Preserves(s.table.rows, s'.table.rows)
  {
    LaterGrows(ttl, s, s');
    LaterReachable(ttl, s, s');
    ReachableInv(ttl, s);
    ReachableInv(ttl, s');
  }

  /** Two rows with one code, seen at any two moments of a run, are the same row. */
  lemma CodeNeverRebound(ttl: int, s: State, s': State, id: int, id': int)
    requires SameRun(ttl, s, s') && id in s.table.rows && id' in s'.table.rows
    requires s.table.rows[id].shortCode == s'.table.rows[id'].shortCode
    ensures id == id' && Project(s.table.rows[id]) == Project(s'.table.rows[id'])
  {
    if Later(ttl, s, s') {
      LaterTables(ttl, s, s');
      SameBinding(s, s', id, id');
    } else {
      LaterTables(ttl, s', s);
      SameBinding(s', s, id', id);
    }
  }

  /** The answer carries the destination and dates of this very row. */
  ghost predicate Shows(url: ResolvedUrl, row: UrlRecord) {
    && url.id == row.id && url.shortCode == row.shortCode && url.longUrl == row.longUrl
    && url.createdAt == row.createdAt && url.expiresAt == row.expiresAt
  }

  /** `url` shows a row of s, and every row that ever carries the code in the run is that row. */
  ghost predicate TheOneRow(ttl: int, s: State, code: string, url: ResolvedUrl) {
    && url.shortCode == code
    && url.id in s.table.rows && Shows(url, s.table.rows[url.id])
    && forall s', id | SameRun(ttl, s, s') && id in s'.table.rows && s'.table.rows[id].shortCode == code ::
         id == url.id && Shows(url, s'.table.rows[id])
  }

  lemma ReadsTheOneRow(ttl: int, s: State, code: string, url: ResolvedUrl, readAt: nat)
    requires Reads(s, code, url, readAt) && s.table.rows[url.id].id == url.id
    ensures TheOneRow(ttl, s, code, url)
  {
    forall s', id | SameRun(ttl, s, s') && id in s'.table.rows && s'.table.rows[id].shortCode == code
      ensures id == url.id && Shows(url, s'.table.rows[id])
    {
      CodeNeverRebound(ttl, s, s', url.id, id);
    }
  }

  /** A resolve answers with the one row ever inserted for its code, whatever happened in between. */
  lemma ResolveReturnsTheRow(ttl: int, s: State, k: CallId)
    requires Reachable(ttl, s) && Resolving(s, k) && s.calls[k].pc.ResolveOk?
    ensures TheOneRow(ttl, s, s.calls[k].request.code, s.calls[k].pc.url)
  {
    var code, pc := s.calls[k].request.code, s.calls[k].pc;
    assert CallInv(ttl, s, k, s.calls[k]) by {
      ReachableInv(ttl, s);
    }
    match pc.source {
      case FromCache(cached, _) => ReadsTheOneRow(ttl, s, code, pc.url, cached.readAt);
      case FromRow(readAt) => ReadsTheOneRow(ttl, s, code, pc.url, readAt);
    }
  }

  /** So does every cache entry, stale or not. */
  lemma CacheHoldsTheRow(ttl: int, s: State, code: string)
    requires Reachable(ttl, s) && code in s.cache
    ensures TheOneRow(ttl, s, code, s.cache[code].entry.value)
  {
    assert CachedOk(ttl, s, code, s.cache[code]) by {
      ReachableInv(ttl, s);
    }
    ReadsTheOneRow(ttl, s, code, s.cache[code].entry.value, s.cache[code].readAt);
  }

  // ---------------------------------------------------------------- bounded staleness

  /** A hit uses an entry written less than the TTL before, by a reader that preceded any deletion. */
  lemma HitIsRecent(ttl: int, s: State, k: CallId)
    requires Reachable(ttl, s) && Resolving(s, k) && s.calls[k].pc.ResolveOk? && s.calls[k].pc.source.FromCache?
    ensures var FromCache(cached, hitAt) := s.calls[k].pc.source;
            var code := s.calls[k].request.code;
            && cached.writtenAt <= hitAt < cached.writtenAt + ttl * MICROS_PER_SECOND
            && (code in s.deletions ==> cached.readAt < s.deletions[code].at)
  {
    assert CallInv(ttl, s, k, s.calls[k]) by {
      ReachableInv(ttl, s);
    }
  }

  predicate InFlight(pc: Pc) {
    pc.CheckRow? || pc.ComputeTtl? || pc.CacheSet?
  }

  /** The code is deleted and no resolve still holds a row it read before the deletion. */
  ghost predicate Drained(s: State, code: string) {
    && code in s.deletions
    && forall k | k in s.calls && s.calls[k].request == Resolve(code) :: !InFlight(s.calls[k].pc)
  }

  /** Entries of a drained code can only disappear. */
  ghost predicate NotRenewed(s: State, s': State, code: string) {
    code in s'.cache ==> code in s.cache && s'.cache[code] == s.cache[code]
  }

  /** Where a call that resolves `code` came from, one statement earlier. */
  ghost predicate CameFrom(s: State, s': State, k: CallId, code: string) {
    && k in s.calls && s.calls[k].request == Resolve(code) && k in s'.calls
    && match s'.calls[k].pc
       case CheckRow(_, _) => s.calls[k].pc.RepoGet? && IsActive(s.table.rows, code)
       case ComputeTtl(_, _, _) => s.calls[k].pc.CheckRow?
       case CacheSet(_, _, _, _) => s.calls[k].pc.ComputeTtl?
       case CheckHit(cached, hitAt) =>
         code in s.cache && cached == s.cache[code] && hitAt < cached.entry.deadline
       case ResolveOk(_, FromCache(cached, hitAt), _) => s.calls[k].pc == CheckHit(cached, hitAt)
       case ResolveOk(_, FromRow(_), _) => s.calls[k].pc.CacheSet?
       case _ => true
  }

  lemma CacheGetCameFrom(s: State, s': State, k: CallId, fails: bool)
    requires CacheGetStep(s, s', k, fails)
    ensures CameFrom(s, s', k, s.calls[k].request.code)
  {}

  lemma CheckHitCameFrom(s: State, s': State, k: CallId, now: int)
    requires CheckHitStep(s, s', k, now)
    ensures CameFrom(s, s', k, s.calls[k].request.code)
  {}

  lemma RepoGetCameFrom(s: State, s': State, k: CallId)
    requires RepoGetStep(s, s', k)
    ensures CameFrom(s, s', k, s.calls[k].request.code)
  {}

  lemma CheckRowCameFrom(s: State, s': State, k: CallId, now: int)
    requires CheckRowStep(s, s', k, now)
    ensures CameFrom(s, s', k, s.calls[k].request.code)
  {}

  lemma ComputeTtlCameFrom(ttl: int, s: State, s': State, k: CallId, now: int)
    requires ComputeTtlStep(ttl, s, s', k, now)
    ensures CameFrom(s, s', k, s.calls[k].request.code)
  {}

  lemma CacheSetCameFrom(s: State, s': State, k: CallId, fails: bool, dies: bool)
    requires CacheSetStep(s, s', k, fails, dies)
    ensures CameFrom(s, s', k, s.calls[k].request.code)
  {}

  lemma ResolveCameFrom(ttl: int, s: State, s': State, k: CallId)
    requires ResolveNext(ttl, s, s', k)
    ensures CameFrom(s, s', k, s.calls[k].request.code)
  {
    if fails :| CacheGetStep(s, s', k, fails) {
      CacheGetCameFrom(s, s', k, fails);
    } else if now :| CheckHitStep(s, s', k, now) {
      CheckHitCameFrom(s, s', k, now);
    } else if RepoGetStep(s, s', k) {
      RepoGetCameFrom(s, s', k);
    } else if now :| CheckRowStep(s, s', k, now) {
      CheckRowCameFrom(s, s', k, now);
    } else if now :| ComputeTtlStep(ttl, s, s', k, now) {
      ComputeTtlCameFrom(ttl, s, s', k, now);
    } else {
      var fails, dies :| CacheSetStep(s, s', k, fails, dies);
      CacheSetCameFrom(s, s', k, fails, dies);
    }
  }

  lemma ResolveReadsOnly(ttl: int, s: State, s': State, k: CallId)
    requires ResolveNext(ttl, s, s', k) && !s.calls[k].pc.CacheSet?
    ensures s' == MoveTo(s, k, s'.calls[k].pc)
  {
    if fails :| CacheGetStep(s, s', k, fails) {
    } else if now :| CheckHitStep(s, s', k, now) {
    } else if now :| CheckRowStep(s, s', k, now) {
    } else if now :| ComputeTtlStep(ttl, s, s', k, now) {
    }
  }

  lemma CacheSetFrame(s: State, s': State, k: CallId, fails: bool, dies: bool)
    requires CacheSetStep(s, s', k, fails, dies)
    ensures s'.table == s.table && s'.deletions == s.deletions && OnlyMoved(s, s', k)
    ensures forall code | code != s.calls[k].request.code :: NotRenewed(s, s', code)
  {}

  /** A resolve moves only itself, and only its cache write can renew an entry, of its own code. */
  lemma ResolveFrame(ttl: int, s: State, s': State, k: CallId)
    requires ResolveNext(ttl, s, s', k)
    ensures s'.table == s.table && s'.deletions == s.deletions && OnlyMoved(s, s', k)
    ensures forall code | code != s.calls[k].request.code || !s.calls[k].pc.CacheSet? :: NotRenewed(s, s', code)
  {
    if s.calls[k].pc.CacheSet? {
      var fails, dies :| CacheSetStep(s, s', k, fails, dies);
      CacheSetFrame(s, s', k, fails, dies);
    } else {
      ResolveReadsOnly(ttl, s, s', k);
    }
  }

  /** Every step either leaves a resolving call alone or executes its next statement. */
  lemma CallMoves(ttl: int, s: State, s': State, k: CallId)
    requires Next(ttl, s, s') && Resolving(s', k)
    ensures k !in s.calls ==> s'.calls[k].pc.CacheGet?
    ensures k in s.calls ==> s'.calls[k].request == s.calls[k].request
    ensures k in s.calls ==> s'.calls[k].pc == s.calls[k].pc || s'.calls[k].pc.Crashed?
                             || CameFrom(s, s', k, s.calls[k].request.code)
  {
    if k' :| ResolveNext(ttl, s, s', k') {
      ResolveCameFrom(ttl, s, s', k');
      ResolveFrame(ttl, s, s', k');
    } else if k' :| DeleteNext(s, s', k') {
      DeleteMovesOne(s, s', k');
    } else if k' :| CreateNext(s, s', k') {
      CreateMovesOne(s, s', k');
    }
  }

  lemma DeleteMovesOne(s: State, s': State, k: CallId)
    requires DeleteNext(s, s', k)
    ensures OnlyMoved(s, s', k)
  {
    if OwnerGetStep(s, s', k) {
    } else if dies :| SoftDeleteStep(s, s', k, dies) {
      SoftDeleteMovesOne(s, s', k, dies);
    } else {
      var fails, dies :| InvalidateStep(s, s', k, fails, dies);
      InvalidateMovesOne(s, s', k, fails, dies);
    }
  }

  lemma SoftDeleteMovesOne(s: State, s': State, k: CallId, dies: bool)
    requires SoftDeleteStep(s, s', k, dies)
    ensures OnlyMoved(s, s', k)
  {}

  lemma InvalidateMovesOne(s: State, s': State, k: CallId, fails: bool, dies: bool)
    requires InvalidateStep(s, s', k, fails, dies)
    ensures OnlyMoved(s, s', k)
  {}

  lemma CreateMovesOne(s: State, s': State, k: CallId)
    requires CreateNext(s, s', k)
    ensures OnlyMoved(s, s', k)
  {}

  lemma DrainedStays(ttl: int, s: State, s': State, code: string)
    requires DeletionsInv(s) && Drained(s, code) && Next(ttl, s, s') && Grows(s, s')
    ensures Drained(s', code)
  {
    assert DeletionOk(s, code, s.deletions[code]);
    forall k | k in s'.calls && s'.calls[k].request == Resolve(code) ensures !InFlight(s'.calls[k].pc) {
      CallMoves(ttl, s, s', k);
    }
  }

  lemma DrainedEntryStays(ttl: int, s: State, s': State, code: string)
    requires Drained(s, code) && Next(ttl, s, s')
    ensures NotRenewed(s, s', code)
  {
    if k :| ResolveNext(ttl, s, s', k) {
      assert s.calls[k].pc.CacheSet? ==> s.calls[k].request != Resolve(code);
      ResolveFrame(ttl, s, s', k);
    } else if k :| DeleteNext(s, s', k) {
      DeleteOnlyRemoves(s, s', k, code);
    }
  }

  lemma DeleteOnlyRemoves(s: State, s': State, k: CallId, code: string)
    requires DeleteNext(s, s', k)
    ensures NotRenewed(s, s', code)
  {}

  lemma DrainedStep(ttl: int, s: State, s': State, code: string)
    requires DeletionsInv(s) && Drained(s, code) && Next(ttl, s, s') && Grows(s, s')
    ensures Drained(s', code) && NotRenewed(s, s', code)
  {
    DrainedStays(ttl, s, s', code);
    DrainedEntryStays(ttl, s, s', code);
  }

  lemma StepOfRun(ttl: int, run: seq<State>, j: nat)
    requires IsRun(ttl, run) && 0 < j < |run|
    ensures DeletionsInv(run[j - 1]) && Grows(run[j - 1], run[j])
  {
    assert DeletionsInv(run[j - 1]) by {
      RunInv(ttl, run, j - 1);
    }
    RunGrows(ttl, run, j - 1, j);
  }

  lemma DrainedStepOfRun(ttl: int, run: seq<State>, j: nat, code: string)
    requires IsRun(ttl, run) && 0 < j < |run| && Drained(run[j - 1], code)
    ensures Drained(run[j], code) && NotRenewed(run[j - 1], run[j], code)
  {
    StepOfRun(ttl, run, j);
    assert StepAt(ttl, run, j);
    DrainedStep(ttl, run[j - 1], run[j], code);
  }

  lemma {:induction false} RunNotRenewed(ttl: int, run: seq<State>, i: nat, j: nat, code: string)
    requires IsRun(ttl, run) && i <= j < |run| && Drained(run[i], code)
    ensures Drained(run[j], code) && NotRenewed(run[i], run[j], code)
  {
    if i < j {
      RunNotRenewed(ttl, run, i, j - 1, code);
      DrainedStepOfRun(ttl, run, j, code);
    }
  }

  /** Once a deletion has drained, a stale entry is never written again. */
  lemma StaleEntryNotRenewed(ttl: int, s: State, s': State, code: string)
    requires Later(ttl, s, s') && Drained(s, code)
    ensures Drained(s', code) && NotRenewed(s, s', code)
  {
    var run, i :| IsRun(ttl, run) && 0 <= i < |run| && run[i] == s && run[|run| - 1] == s';
    RunNotRenewed(ttl, run, i, |run| - 1, code);
  }

  /** Not yet holding a value: not started, or about to read the cache or the repository. */
  ghost predicate Empty(s: State, k: CallId) {
    k in s.calls ==> s.calls[k].pc.CacheGet? || s.calls[k].pc.RepoGet?
  }

  /** Whatever call k holds for `code` came from the entry that was there in state s0. */
  ghost predicate HoldsOldEntry(s0: State, s: State, k: CallId, code: string) {
    k in s.calls && s.calls[k].request == Resolve(code) ==>
      match s.calls[k].pc
      case CheckHit(cached, hitAt) => code in s0.cache && cached == s0.cache[code] && hitAt < cached.entry.deadline
      case ResolveOk(_, FromCache(cached, hitAt), _) =>
        code in s0.cache && cached == s0.cache[code] && hitAt < cached.entry.deadline
      case ResolveOk(_, FromRow(_), _) => false
      case _ => true
  }

  lemma HoldsOldEntryStep(ttl: int, s0: State, s: State, s': State, k: CallId, code: string)
    requires Drained(s, code) && NotRenewed(s0, s, code) && HoldsOldEntry(s0, s, k, code)
    requires Next(ttl, s, s')
    ensures HoldsOldEntry(s0, s', k, code)
  {
    if k in s'.calls && s'.calls[k].request == Resolve(code) {
      CallMoves(ttl, s, s', k);
    }
  }

  lemma HoldsOldEntryStepOfRun(ttl: int, s0: State, run: seq<State>, j: nat, k: CallId, code: string)
    requires IsRun(ttl, run) && 0 < j < |run|
    requires Drained(run[j - 1], code) && NotRenewed(s0, run[j - 1], code) && HoldsOldEntry(s0, run[j - 1], k, code)
    ensures HoldsOldEntry(s0, run[j], k, code)
  {
    assert StepAt(ttl, run, j);
    HoldsOldEntryStep(ttl, s0, run[j - 1], run[j], k, code);
  }

  lemma {:induction false} RunHoldsOldEntry(ttl: int, run: seq<State>, i: nat, j: nat, k: CallId, code: string)
    requires IsRun(ttl, run) && i <= j < |run| && Drained(run[i], code) && Empty(run[i], k)
    ensures HoldsOldEntry(run[i], run[j], k, code)
  {
    if i < j {
      RunHoldsOldEntry(ttl, run, i, j - 1, k, code);
      RunNotRenewed(ttl, run, i, j - 1, code);
      HoldsOldEntryStepOfRun(ttl, run[i], run, j, k, code);
    }
  }

  lemma LaterHoldsOldEntry(ttl: int, s: State, s': State, k: CallId, code: string)
    requires Later(ttl, s, s') && Drained(s, code) && Empty(s, k)
    ensures HoldsOldEntry(s, s', k, code)
  {
    var run, i :| IsRun(ttl, run) && 0 <= i < |run| && run[i] == s && run[|run| - 1] == s';
    RunHoldsOldEntry(ttl, run, i, |run| - 1, k, code);
  }

  /**
   * Once a deletion has drained, later resolves succeed only on the entry left in the cache at that
   * moment, and only within the TTL of that entry's write.
   */
  lemma StalenessEnds(ttl: int, s: State, s': State, k: CallId)
    requires Later(ttl, s, s') && Resolving(s', k) && s'.calls[k].pc.ResolveOk?
    requires Drained(s, s'.calls[k].request.code) && Empty(s, k)
    ensures var code, source := s'.calls[k].request.code, s'.calls[k].pc.source;
            && code in s.cache
            && source.FromCache?
            && source.cached == s.cache[code]
            && source.hitAt < s.cache[code].writtenAt + ttl * MICROS_PER_SECOND
            && source.hitAt < s.clock + ttl * MICROS_PER_SECOND
  {
    var code := s'.calls[k].request.code;
    LaterHoldsOldEntry(ttl, s, s', k, code);
    assert CachedOk(ttl, s, code, s.cache[code]) by {
      LaterReachable(ttl, s, s');
      ReachableInv(ttl, s);
    }
  }

  /** After a successful invalidation with no reader in flight, no later resolve succeeds. */
  lemma InvalidationIsFinal(ttl: int, s: State, s': State, k: CallId, code: string)
    requires Later(ttl, s, s') && Drained(s, code) && code !in s.cache && Empty(s, k)
    ensures k in s'.calls && s'.calls[k].request == Resolve(code) ==> !s'.calls[k].pc.ResolveOk?
  {
    LaterHoldsOldEntry(ttl, s, s', k, code);
  }

  // ---------------------------------------------------------------- ownership

  lemma RowDeactivated(ttl: int, s: State, s': State, id: int) returns (k: CallId)
    requires WellFormed(s.table) && CallsInv(ttl, s) && Next(ttl, s, s')
    requires id in s.table.rows && s.table.rows[id].isActive
    requires id in s'.table.rows && !s'.table.rows[id].isActive
    ensures Deleting(s, k) && s.calls[k].pc.SoftDelete?
    ensures s.calls[k].request.code == s.table.rows[id].shortCode
    ensures Deletable(s.table.rows, s.table.rows[id].shortCode, s.calls[k].request.requester)
    ensures s'.deletions == s.deletions[s.table.rows[id].shortCode := Deletion(s.step, k)]
  {
    if c :| ResolveNext(ttl, s, s', c) {
      ResolveFrame(ttl, s, s', c);
      assert false;
    } else if c :| CreateNext(s, s', c) {
      CreateKeepsRow(s, s', c, id);
      assert false;
    }
    k :| DeleteNext(s, s', k);
    DeleteDeactivates(s, s', k, id);
    assert CallInv(ttl, s, k, s.calls[k]);
  }

  lemma CreateKeepsRow(s: State, s': State, k: CallId, id: int)
    requires WellFormed(s.table) && CreateNext(s, s', k) && id in s.table.rows
    ensures id in s'.table.rows && s'.table.rows[id] == s.table.rows[id]
  {}

  lemma DeleteDeactivates(s: State, s': State, k: CallId, id: int)
    requires DeleteNext(s, s', k) && id in s.table.rows && id in s'.table.rows
    requires s'.table.rows[id] != s.table.rows[id]
    ensures s.calls[k].pc.SoftDelete? && s.calls[k].request.code == s.table.rows[id].shortCode
    ensures s'.deletions == s.deletions[s.table.rows[id].shortCode := Deletion(s.step, k)]
  {}

  /** A row turns inactive only by the UPDATE of a delete call that the row's owner may make. */
  lemma OnlyTheOwnerDeactivates(ttl: int, s: State, s': State, id: int) returns (k: CallId)
    requires Reachable(ttl, s) && Next(ttl, s, s')
    requires id in s.table.rows && s.table.rows[id].isActive
    requires id in s'.table.rows && !s'.table.rows[id].isActive
    ensures Deleting(s, k) && s.calls[k].pc.SoftDelete? && s.calls[k].request.code == s.table.rows[id].shortCode
    ensures s.table.rows[id].ownerId.Some? ==> s.calls[k].request.requester == s.table.rows[id].ownerId
    ensures s'.deletions == s.deletions[s.table.rows[id].shortCode := Deletion(s.step, k)]
  {
    assert WellFormed(s.table) && CallsInv(ttl, s) by {
      ReachableInv(ttl, s);
    }
    k := RowDeactivated(ttl, s, s', id);
  }

  /** A deactivated row stays deactivated. */
  lemma DeactivatedOnce(ttl: int, s: State, s': State, id: int)
    requires Later(ttl, s, s') && id in s.table.rows && !s.table.rows[id].isActive
    ensures id in s'.table.rows && !s'.table.rows[id].isActive
  {
    LaterTables(ttl, s, s');
  }

  ghost predicate DeleteSucceeded(s: State, k: CallId, code: string) {
    Deleting(s, k) && s.calls[k].request.code == code && s.calls[k].pc == DeleteDone(Deleted(true))
  }

  lemma WinnerIsOnRecord(ttl: int, s: State, k: CallId, code: string)
    requires Reachable(ttl, s) && DeleteSucceeded(s, k, code)
    ensures code in s.deletions && s.deletions[code].deleter == k
    ensures Deletable(s.table.rows, code, s.calls[k].request.requester)
  {
    assert CallInv(ttl, s, k, s.calls[k]) && DeletionsInv(s) by {
      ReachableInv(ttl, s);
    }
    assert DeletionOk(s, code, s.deletions[code]);
  }

  /**
   * A delete answers false exactly if its statement, the lookup or the later update, finds no active row:
   * so a delete that loses a race answers false, not that its requester is no owner.
   */
  lemma DeleteAnswersFalseIff(s: State, s': State, k: CallId)
    requires DeleteNext(s, s', k) && (s.calls[k].pc.OwnerGet? || s.calls[k].pc.SoftDelete?)
    ensures s'.calls[k].pc == DeleteDone(Deleted(false)) ==> !IsActive(s.table.rows, s.calls[k].request.code)
    ensures !IsActive(s.table.rows, s.calls[k].request.code) ==>
              s'.calls[k].pc == DeleteDone(Deleted(false)) && s'.table == s.table && s'.cache == s.cache
  {
    if dies :| SoftDeleteStep(s, s', k, dies) {
    } else {
      assert OwnerGetStep(s, s', k);
    }
  }

  /** In every reachable state, a delete refused for ownership asked for a row that somebody else owns. */
  lemma RefusedForAnotherOwner(ttl: int, s: State, k: CallId) returns (id: int)
    requires Reachable(ttl, s) && Deleting(s, k) && s.calls[k].pc == DeleteDone(NotOwner)
    ensures id in s.table.rows && s.table.rows[id].shortCode == s.calls[k].request.code
    ensures s.table.rows[id].ownerId.Some? && s.table.rows[id].ownerId != s.calls[k].request.requester
    ensures forall other | other in s.table.rows && s.table.rows[other].shortCode == s.calls[k].request.code :: other == id
  {
    assert CallInv(ttl, s, k, s.calls[k]) && WellFormed(s.table) by {
      ReachableInv(ttl, s);
    }
    id :| id in s.table.rows && s.table.rows[id].shortCode == s.calls[k].request.code
          && s.table.rows[id].ownerId.Some? && s.table.rows[id].ownerId != s.calls[k].request.requester;
  }

  /** Of all deletes of one code, at most one reports success, and its requester was entitled. */
  lemma AtMostOneDeleteSucceeds(ttl: int, s: State, s': State, k: CallId, k': CallId, code: string)
    requires Later(ttl, s, s') && DeleteSucceeded(s, k, code) && DeleteSucceeded(s', k', code)
    ensures k == k' && Deletable(s.table.rows, code, s.calls[k].request.requester)
  {
    LaterReachable(ttl, s, s');
    WinnerIsOnRecord(ttl, s, k, code);
    WinnerIsOnRecord(ttl, s', k', code);
    LaterGrows(ttl, s, s');
  }

  // ---------------------------------------------------------------- creation

  /** Every row was made by exactly one call, which succeeded or died after its commit. */
  lemma EveryRowHasOneMaker(ttl: int, s: State)
    requires Reachable(ttl, s)
    ensures MakersInv(s)
    ensures forall id, id' | id in s.table.rows && id' in s.table.rows
                             && s.table.rows[id].shortCode == s.table.rows[id'].shortCode :: id == id'
  {
    ReachableInv(ttl, s);
  }

  /** A successful creation added one row, its own; a failed one added none. */
  lemma CreateAddsItsOwnRow(ttl: int, s: State, k: CallId)
    requires Reachable(ttl, s) && Creating(s, k) && s.calls[k].pc.CreateDone?
    ensures var Create(_, alias, url) := s.calls[k].request;
            match s.calls[k].pc.created
            case Created(record) =>
              && MadeBy(s, k, url, record.id)
              && Project(record) == Project(s.table.rows[record.id])
              && (alias.Some? && alias.value != "" ==> record.shortCode == alias.value)
              && (forall id | id in s.makers && s.makers[id] == k :: id == record.id)
            case _ => forall id | id in s.makers :: s.makers[id] != k
  {
    assert CallInv(ttl, s, k, s.calls[k]) && MakersInv(s) by {
      ReachableInv(ttl, s);
    }
  }

  /** An alias insert fails exactly if its code was taken meanwhile, or had been soft-deleted. */
  lemma AliasCollisionIff(s: State, s': State, k: CallId, createdAt: int)
    requires Creating(s, k) && s.calls[k].pc.AliasInsert? && s.calls[k].request.alias.Some?
    requires InsertStep(s, s', k, s.calls[k].request.alias.value, createdAt, false)
    ensures s'.calls[k].pc.CreateDone?
    ensures s'.calls[k].pc.created == CollisionEscapes <==> HasRow(s.table.rows, s.calls[k].request.alias.value)
    ensures s'.calls[k].pc.created == CollisionEscapes ==> s'.table.rows == s.table.rows
  {}

  /** Whenever an alias request ended as taken or in the uncaught collision, another call had made a row for the alias. */
  lemma AliasFailureMeansTaken(ttl: int, s: State, k: CallId) returns (id: int)
    requires Reachable(ttl, s) && Creating(s, k) && s.calls[k].pc.CreateDone?
    requires s.calls[k].pc.created == CollisionEscapes || s.calls[k].pc.created == AliasTaken
    ensures s.calls[k].request.alias.Some? && s.calls[k].request.alias.value != ""
    ensures id in s.table.rows && s.table.rows[id].shortCode == s.calls[k].request.alias.value
    ensures id in s.makers && s.makers[id] != k
  {
    assert CallInv(ttl, s, k, s.calls[k]) && MakersInv(s) by {
      ReachableInv(ttl, s);
    }
    id :| id in s.table.rows && s.table.rows[id].shortCode == s.calls[k].request.alias.value;
  }

  /** The random path gives up only after five draws, all of them taken. */
  lemma GivesUpOnlyWhenTaken(ttl: int, s: State, k: CallId)
    requires Reachable(ttl, s) && Creating(s, k) && s.calls[k].pc.CreateDone? && s.calls[k].pc.created == GaveUp
    ensures |s.calls[k].pc.tried| == MAX_GENERATION_ATTEMPTS && AllTaken(s.table.rows, s.calls[k].pc.tried)
  {
    assert CallInv(ttl, s, k, s.calls[k]) by {
      ReachableInv(ttl, s);
    }
  }

  /** A rejected draw had a row, active or soft-deleted, at its own insert, and changed no row. */
  lemma RejectedDrawWasTaken(s: State, s': State, k: CallId)
    requires CreateNext(s, s', k) && s.calls[k].pc.RandomInsert?
    requires s'.calls[k].pc.RandomInsert? || (s'.calls[k].pc.CreateDone? && s'.calls[k].pc.created == GaveUp)
    ensures |s'.calls[k].pc.tried| == |s.calls[k].pc.tried| + 1
    ensures HasRow(s.table.rows, s'.calls[k].pc.tried[|s.calls[k].pc.tried|])
    ensures s'.table.rows == s.table.rows
  {}

  // ---------------------------------------------------------------- expiry

  /** No resolve returns a URL that had expired at the clock reading of its own check. */
  lemma NeverReturnsExpired(ttl: int, s: State, k: CallId)
    requires Reachable(ttl, s) && Resolving(s, k) && s.calls[k].pc.ResolveOk?
    ensures s.calls[k].pc.url.expiresAt.Some? ==> s.calls[k].pc.checkedAt <= s.calls[k].pc.url.expiresAt.value
  {
    assert CallInv(ttl, s, k, s.calls[k]) by {
      ReachableInv(ttl, s);
    }
  }
}
