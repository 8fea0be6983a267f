/** The inductive invariant of the interleaved URL service, kept by every statement and event. */
module UrlInvariant {
  import opened Common
  import opened UrlRecords
  import opened PostgresUrls
  import opened Caching
  import opened UrlServices
  import opened UrlProtocol

  /** `url` is the view of the one row bound to `code`, read before any deletion of it. */
  ghost predicate Reads(s: State, code: string, url: ResolvedUrl, readAt: nat) {
    && url.shortCode == code
    && url.id in s.table.rows
    && url == Project(s.table.rows[url.id])
    && readAt < s.step
    && (code in s.deletions ==> readAt < s.deletions[code].at)
  }

  ghost predicate CachedOk(ttl: int, s: State, code: string, cached: Cached) {
    && Reads(s, code, cached.entry.value, cached.readAt)
    && cached.writtenAt <= s.clock
    && cached.entry.deadline <= cached.writtenAt + ttl * MICROS_PER_SECOND
  }

  ghost predicate HitOk(ttl: int, s: State, code: string, cached: Cached, hitAt: int) {
    CachedOk(ttl, s, code, cached) && cached.writtenAt <= hitAt < cached.entry.deadline && hitAt <= s.clock
  }

  ghost predicate ResolveOkInv(ttl: int, s: State, code: string, pc: Pc) {
    match pc
    case CacheGet => true
    case RepoGet => true
    case CheckHit(cached, hitAt) => HitOk(ttl, s, code, cached, hitAt)
    case CheckRow(record, readAt) => Reads(s, code, Project(record), readAt)
    case ComputeTtl(url, readAt, checkedAt) => Reads(s, code, url, readAt) && !IsExpired(url.expiresAt, checkedAt)
    case CacheSet(url, readAt, checkedAt, t) =>
      Reads(s, code, url, readAt) && !IsExpired(url.expiresAt, checkedAt) && t <= ttl
    case ResolveOk(url, FromCache(cached, hitAt), checkedAt) =>
      url == cached.entry.value && HitOk(ttl, s, code, cached, hitAt) && !IsExpired(url.expiresAt, checkedAt)
    case ResolveOk(url, FromRow(readAt), checkedAt) =>
      Reads(s, code, url, readAt) && !IsExpired(url.expiresAt, checkedAt)
    case ResolveFailed(_) => true
    case Crashed => true
    case _ => false
  }

  /** The row bound to `code` may be deleted by `requester`. */
  ghost predicate Deletable(rows: map<int, UrlRecord>, code: string, requester: Option<int>) {
    exists id :: id in rows && rows[id].shortCode == code && MayDelete(rows[id].ownerId, requester)
  }

  /** Some row bound to `code` has an owner other than `requester`. */
  ghost predicate OwnedByAnother(rows: map<int, UrlRecord>, code: string, requester: Option<int>) {
    exists id :: id in rows && rows[id].shortCode == code && rows[id].ownerId.Some? && rows[id].ownerId != requester
  }

  ghost predicate DeleteInv(s: State, k: CallId, code: string, requester: Option<int>, pc: Pc) {
    match pc
    case OwnerGet => true
    case SoftDelete => Deletable(s.table.rows, code, requester)
    case Invalidate => code in s.deletions && s.deletions[code].deleter == k
    case DeleteDone(reply) =>
      && (reply == Deleted(true) ==> code in s.deletions && s.deletions[code].deleter == k)
      && (reply == NotOwner ==> OwnedByAnother(s.table.rows, code, requester))
    case Crashed => true
    case _ => false
  }

  /** A row made by `k` out of its own arguments, possibly deactivated since. */
  ghost predicate MadeBy(s: State, k: CallId, url: NewUrl, id: int) {
    && id in s.makers && s.makers[id] == k && id in s.table.rows
    && s.table.rows[id].longUrl == url.longUrl && s.table.rows[id].expiresAt == url.expiresAt
    && s.table.rows[id].ownerId == url.ownerId
  }

  ghost predicate AllTaken(rows: map<int, UrlRecord>, codes: seq<string>) {
    forall i | 0 <= i < |codes| :: HasRow(rows, codes[i])
  }

  ghost predicate CreateInv(s: State, k: CallId, alias: Option<string>, url: NewUrl, pc: Pc) {
    match pc
    case AliasCheck => alias.Some? && alias.value != ""
    case AliasInsert => alias.Some? && alias.value != ""
    case RandomInsert(tried) =>
      !(alias.Some? && alias.value != "") && |tried| < MAX_GENERATION_ATTEMPTS && AllTaken(s.table.rows, tried)
    case CreateDone(reply, tried) =>
      && (reply.Created? ==>
            && MadeBy(s, k, url, reply.record.id)
            && Project(reply.record) == Project(s.table.rows[reply.record.id])
            && (alias.Some? && alias.value != "" ==> reply.record.shortCode == alias.value))
      && (reply.AliasTaken? || reply.CollisionEscapes? ==>
            alias.Some? && alias.value != "" && HasRow(s.table.rows, alias.value))
      && (reply.GaveUp? ==> |tried| == MAX_GENERATION_ATTEMPTS && AllTaken(s.table.rows, tried))
    case Crashed => true
    case _ => false
  }

  ghost predicate CallInv(ttl: int, s: State, k: CallId, call: Call) {
    match call.request
    case Resolve(code) => ResolveOkInv(ttl, s, code, call.pc)
    case Delete(code, requester) => DeleteInv(s, k, code, requester, call.pc)
    case Create(_, alias, url) => CreateInv(s, k, alias, url, call.pc)
  }

  /** A recorded deletion: its row is inactive and its deleter was entitled to it. */
  ghost predicate DeletionOk(s: State, code: string, d: Deletion) {
    && d.at < s.step && d.deleter in s.calls
    && s.calls[d.deleter].request.Delete? && s.calls[d.deleter].request.code == code
    && Deletable(s.table.rows, code, s.calls[d.deleter].request.requester)
    && HasRow(s.table.rows, code) && !IsActive(s.table.rows, code)
  }

  /** Inactive rows are exactly the recorded deletions. */
  ghost predicate DeletionsInv(s: State) {
    && (forall id | id in s.table.rows && !s.table.rows[id].isActive :: s.table.rows[id].shortCode in s.deletions)
    && (forall code | code in s.deletions :: DeletionOk(s, code, s.deletions[code]))
  }

  /** Every row has one maker, no call made two rows, and a maker has succeeded or died. */
  ghost predicate MakersInv(s: State) {
    && s.makers.Keys == s.table.rows.Keys
    && (forall i, j | i in s.makers && j in s.makers && s.makers[i] == s.makers[j] :: i == j)
    && (forall id | id in s.makers ::
          && s.makers[id] in s.calls
          && s.calls[s.makers[id]].request.Create?
          && MadeBy(s, s.makers[id], s.calls[s.makers[id]].request.url, id)
          && (s.calls[s.makers[id]].pc.Crashed?
              || (s.calls[s.makers[id]].pc.CreateDone? && s.calls[s.makers[id]].pc.created.Created?
                  && s.calls[s.makers[id]].pc.created.record.id == id)))
  }

  ghost predicate CacheInv(ttl: int, s: State) {
    forall code | code in s.cache :: CachedOk(ttl, s, code, s.cache[code])
  }

  ghost predicate CallsInv(ttl: int, s: State) {
    forall k | k in s.calls :: CallInv(ttl, s, k, s.calls[k])
  }

  ghost predicate Inv(ttl: int, s: State) {
    WellFormed(s.table) && DeletionsInv(s) && MakersInv(s) && CacheInv(ttl, s) && CallsInv(ttl, s)
  }

  // ---------------------------------------------------------------- what every step keeps

  /** The shared history only grows. */
  ghost predicate Grows(s: State, s': State) {
    && Preserves(s.table.rows, s'.table.rows)
    && s.clock <= s'.clock && s.step <= s'.step
    && (forall code | code in s.deletions :: code in s'.deletions && s'.deletions[code] == s.deletions[code])
    && (forall code | code in s'.deletions && code !in s.deletions :: s.step <= s'.deletions[code].at)
    && (forall id | id in s.makers :: id in s'.makers && s'.makers[id] == s.makers[id])
  }

  lemma HasRowGrows(s: State, s': State, code: string)
    requires Grows(s, s')
    ensures HasRow(s.table.rows, code) ==> HasRow(s'.table.rows, code)
  {}

  lemma DeletableGrows(s: State, s': State, code: string, requester: Option<int>)
    requires Grows(s, s')
    ensures Deletable(s.table.rows, code, requester) ==> Deletable(s'.table.rows, code, requester)
    ensures OwnedByAnother(s.table.rows, code, requester) ==> OwnedByAnother(s'.table.rows, code, requester)
  {}

  lemma CallInvGrows(ttl: int, s: State, s': State, k: CallId, call: Call)
    requires Grows(s, s') && CallInv(ttl, s, k, call)
    ensures CallInv(ttl, s', k, call)
  {
    forall code {:trigger HasRow(s'.table.rows, code)} ensures HasRow(s.table.rows, code) ==> HasRow(s'.table.rows, code) {
      HasRowGrows(s, s', code);
    }
    if call.request.Delete? {
      DeletableGrows(s, s', call.request.code, call.request.requester);
    }
  }

  lemma CacheInvGrows(ttl: int, s: State, s': State)
    requires Grows(s, s') && CacheInv(ttl, s)
    requires forall code | code in s'.cache :: code in s.cache && s'.cache[code] == s.cache[code]
    ensures CacheInv(ttl, s')
  {}

  /** Only call k moved, and it kept its request. */
  ghost predicate OnlyMoved(s: State, s': State, k: CallId) {
    && k in s.calls
    && s'.calls.Keys == s.calls.Keys
    && s'.calls[k].request == s.calls[k].request
    && (forall other | other in s.calls && other != k :: s'.calls[other] == s.calls[other])
  }

  lemma OthersKeep(ttl: int, s: State, s': State, k: CallId)
    requires CallsInv(ttl, s) && Grows(s, s') && OnlyMoved(s, s', k)
    requires CallInv(ttl, s', k, s'.calls[k])
    ensures CallsInv(ttl, s')
  {
    forall other | other in s'.calls ensures CallInv(ttl, s', other, s'.calls[other]) {
      if other != k {
        CallInvGrows(ttl, s, s', other, s.calls[other]);
      }
    }
  }

  /** Registers are unaffected by a running call that changes no table. */
  lemma RegistersKeep(s: State, s': State, k: CallId)
    requires DeletionsInv(s) && MakersInv(s) && OnlyMoved(s, s', k) && !Finished(s.calls[k].pc)
    requires s'.table == s.table && s'.deletions == s.deletions && s'.makers == s.makers && s.step <= s'.step
    ensures DeletionsInv(s') && MakersInv(s')
  {
    forall code | code in s'.deletions ensures DeletionOk(s', code, s'.deletions[code]) {
      assert DeletionOk(s, code, s.deletions[code]);
    }
    MakersStay(s, s', k);
  }

  lemma MakersStay(s: State, s': State, k: CallId)
    requires MakersInv(s) && OnlyMoved(s, s', k) && !Finished(s.calls[k].pc)
    requires s'.table == s.table && s'.makers == s.makers
    ensures MakersInv(s')
  {}

  /** Nor by a step that changes neither tables nor running calls. */
  lemma RegistersUntouched(s: State, s': State)
    requires DeletionsInv(s) && MakersInv(s)
    requires s'.table.rows == s.table.rows && s'.deletions == s.deletions && s'.makers == s.makers && s.step <= s'.step
    requires forall k | k in s.calls :: k in s'.calls && s'.calls[k] == s.calls[k]
    ensures DeletionsInv(s') && MakersInv(s')
  {
    forall code | code in s'.deletions ensures DeletionOk(s', code, s'.deletions[code]) {
      assert DeletionOk(s, code, s.deletions[code]);
    }
  }

  /** A statement that leaves the tables alone needs to justify only the cache and the moving call. */
  lemma QuietStepKeeps(ttl: int, s: State, s': State, k: CallId)
    requires Inv(ttl, s) && OnlyMoved(s, s', k) && !Finished(s.calls[k].pc)
    requires s'.table == s.table && s'.deletions == s.deletions && s'.makers == s.makers
    requires s'.clock == s.clock && s'.step == s.step + 1
    requires CacheInv(ttl, s') && CallInv(ttl, s', k, s'.calls[k])
    ensures Inv(ttl, s') && Grows(s, s')
  {
    RegistersKeep(s, s', k);
    OthersKeep(ttl, s, s', k);
  }

  /** Dying between statements changes nothing but the call itself. */
  lemma CrashKeeps(ttl: int, s: State, s': State, k: CallId)
    requires Inv(ttl, s) && CrashStep(s, s', k)
    ensures Inv(ttl, s') && Grows(s, s')
  {
    CacheInvGrows(ttl, s, s');
    QuietStepKeeps(ttl, s, s', k);
  }

  lemma ReadStepKeeps(ttl: int, s: State, s': State, k: CallId)
    requires Inv(ttl, s) && k in s.calls && !Finished(s.calls[k].pc)
    requires exists pc :: s' == MoveTo(s, k, pc)
    requires CallInv(ttl, s', k, s'.calls[k])
    ensures Inv(ttl, s') && Grows(s, s')
  {
    CacheInvGrows(ttl, s, s');
    QuietStepKeeps(ttl, s, s', k);
  }

  lemma CacheGetKeeps(ttl: int, s: State, s': State, k: CallId, fails: bool)
    requires Inv(ttl, s) && CacheGetStep(s, s', k, fails)
    ensures Inv(ttl, s') && Grows(s, s')
  {
    ReadStepKeeps(ttl, s, s', k);
  }

  lemma CheckHitKeeps(ttl: int, s: State, s': State, k: CallId, now: int)
    requires Inv(ttl, s) && CheckHitStep(s, s', k, now)
    ensures Inv(ttl, s') && Grows(s, s')
  {
    assert CallInv(ttl, s, k, s.calls[k]);
    ReadStepKeeps(ttl, s, s', k);
  }

  lemma RepoGetKeeps(ttl: int, s: State, s': State, k: CallId)
    requires Inv(ttl, s) && RepoGetStep(s, s', k)
    ensures Inv(ttl, s') && Grows(s, s')
  {
    ReadStepKeeps(ttl, s, s', k);
  }

  lemma CheckRowKeeps(ttl: int, s: State, s': State, k: CallId, now: int)
    requires Inv(ttl, s) && CheckRowStep(s, s', k, now)
    ensures Inv(ttl, s') && Grows(s, s')
  {
    assert CallInv(ttl, s, k, s.calls[k]);
    ReadStepKeeps(ttl, s, s', k);
  }

  lemma ComputeTtlKeeps(ttl: int, s: State, s': State, k: CallId, now: int)
    requires Inv(ttl, s) && ComputeTtlStep(ttl, s, s', k, now)
    ensures Inv(ttl, s') && Grows(s, s')
  {
    assert CallInv(ttl, s, k, s.calls[k]);
    ReadStepKeeps(ttl, s, s', k);
  }

  lemma CacheSetEntry(ttl: int, s: State, s': State, k: CallId, fails: bool, dies: bool)
    requires CacheInv(ttl, s) && CacheSetStep(s, s', k, fails, dies) && CallInv(ttl, s, k, s.calls[k])
    ensures CacheInv(ttl, s') && Grows(s, s')
  {}

  lemma CacheSetCall(ttl: int, s: State, s': State, k: CallId, fails: bool, dies: bool)
    requires CacheSetStep(s, s', k, fails, dies) && CallInv(ttl, s, k, s.calls[k])
    ensures CallInv(ttl, s', k, s'.calls[k])
  {}

  lemma CacheSetMovesOne(s: State, s': State, k: CallId, fails: bool, dies: bool)
    requires CacheSetStep(s, s', k, fails, dies)
    ensures OnlyMoved(s, s', k) && s'.table == s.table && s'.deletions == s.deletions && s'.makers == s.makers
    ensures s'.clock == s.clock && s'.step == s.step + 1 && !Finished(s.calls[k].pc)
  {}

  lemma CacheSetKeeps(ttl: int, s: State, s': State, k: CallId, fails: bool, dies: bool)
    requires Inv(ttl, s) && CacheSetStep(s, s', k, fails, dies)
    ensures Inv(ttl, s') && Grows(s, s')
  {
    assert CallInv(ttl, s, k, s.calls[k]);
    CacheSetEntry(ttl, s, s', k, fails, dies);
    CacheSetCall(ttl, s, s', k, fails, dies);
    CacheSetMovesOne(s, s', k, fails, dies);
    QuietStepKeeps(ttl, s, s', k);
  }

  lemma ResolveNextKeeps(ttl: int, s: State, s': State, k: CallId)
    requires Inv(ttl, s) && ResolveNext(ttl, s, s', k)
    ensures Inv(ttl, s') && Grows(s, s')
  {
    if fails :| CacheGetStep(s, s', k, fails) {
      CacheGetKeeps(ttl, s, s', k, fails);
    } else if now :| CheckHitStep(s, s', k, now) {
      CheckHitKeeps(ttl, s, s', k, now);
    } else if RepoGetStep(s, s', k) {
      RepoGetKeeps(ttl, s, s', k);
    } else if now :| CheckRowStep(s, s', k, now) {
      CheckRowKeeps(ttl, s, s', k, now);
    } else if now :| ComputeTtlStep(ttl, s, s', k, now) {
      ComputeTtlKeeps(ttl, s, s', k, now);
    } else {
      var fails, dies :| CacheSetStep(s, s', k, fails, dies);
      CacheSetKeeps(ttl, s, s', k, fails, dies);
    }
  }

  // ---------------------------------------------------------------- delete

  lemma OwnerGetKeeps(ttl: int, s: State, s': State, k: CallId)
    requires Inv(ttl, s) && OwnerGetStep(s, s', k)
    ensures Inv(ttl, s') && Grows(s, s')
  {
    ReadStepKeeps(ttl, s, s', k);
  }

  lemma InvalidateCall(ttl: int, s: State, s': State, k: CallId, fails: bool, dies: bool)
    requires InvalidateStep(s, s', k, fails, dies) && CallInv(ttl, s, k, s.calls[k])
    ensures CallInv(ttl, s', k, s'.calls[k]) && Grows(s, s')
  {}

  lemma InvalidateKeeps(ttl: int, s: State, s': State, k: CallId, fails: bool, dies: bool)
    requires Inv(ttl, s) && InvalidateStep(s, s', k, fails, dies)
    ensures Inv(ttl, s') && Grows(s, s')
  {
    InvalidateCall(ttl, s, s', k, fails, dies);
    CacheInvGrows(ttl, s, s');
    assert OnlyMoved(s, s', k);
    QuietStepKeeps(ttl, s, s', k);
  }

  /** The shared state after the UPDATE of a successful soft delete by call k. */
  ghost predicate SoftDeleted(s: State, s': State, k: CallId, code: string) {
    && IsActive(s.table.rows, code)
    && s'.table == s.table.(rows := Deactivate(s.table.rows, code))
    && s'.deletions == s.deletions[code := Deletion(s.step, k)]
    && s'.makers == s.makers && s'.cache == s.cache && s'.clock == s.clock && s'.step == s.step + 1
  }

  lemma SoftDeletedGrows(s: State, s': State, k: CallId, code: string)
    requires WellFormed(s.table) && DeletionsInv(s) && SoftDeleted(s, s', k, code)
    ensures WellFormed(s'.table) && Grows(s, s') && code !in s.deletions
  {}

  lemma DeletionOkGrows(s: State, s': State, code: string, d: Deletion)
    requires Grows(s, s') && DeletionOk(s, code, d)
    requires d.deleter in s'.calls && s'.calls[d.deleter].request == s.calls[d.deleter].request
    requires IsActive(s'.table.rows, code) ==> IsActive(s.table.rows, code)
    ensures DeletionOk(s', code, d)
  {}

  lemma SoftDeletedDeletions(s: State, s': State, k: CallId, code: string)
    requires WellFormed(s.table) && DeletionsInv(s) && SoftDeleted(s, s', k, code) && OnlyMoved(s, s', k)
    requires s.calls[k].request.Delete? && s.calls[k].request.code == code
    requires Deletable(s.table.rows, code, s.calls[k].request.requester)
    ensures DeletionsInv(s')
  {
    SoftDeletedGrows(s, s', k, code);
    forall other | other in s'.deletions ensures DeletionOk(s', other, s'.deletions[other]) {
      if other == code {
        DeactivateKeeps(s.table, code);
        HasRowGrows(s, s', code);
        DeletableGrows(s, s', code, s.calls[k].request.requester);
      } else {
        DeletionOkGrows(s, s', other, s.deletions[other]);
      }
    }
  }

  lemma SoftDeletedMakers(s: State, s': State, k: CallId, code: string)
    requires MakersInv(s) && SoftDeleted(s, s', k, code) && OnlyMoved(s, s', k) && !Finished(s.calls[k].pc)
    ensures MakersInv(s')
  {}

  lemma SoftDeleteCall(ttl: int, s: State, s': State, k: CallId, dies: bool)
    requires SoftDeleteStep(s, s', k, dies) && IsActive(s.table.rows, s.calls[k].request.code)
    ensures SoftDeleted(s, s', k, s.calls[k].request.code) && OnlyMoved(s, s', k)
    ensures CallInv(ttl, s', k, s'.calls[k])
  {}

  lemma SoftDeleteKeeps(ttl: int, s: State, s': State, k: CallId, dies: bool)
    requires Inv(ttl, s) && SoftDeleteStep(s, s', k, dies) && IsActive(s.table.rows, s.calls[k].request.code)
    ensures Inv(ttl, s') && Grows(s, s')
  {
    var code := s.calls[k].request.code;
    assert CallInv(ttl, s, k, s.calls[k]);
    SoftDeleteCall(ttl, s, s', k, dies);
    SoftDeletedGrows(s, s', k, code);
    SoftDeletedDeletions(s, s', k, code);
    SoftDeletedMakers(s, s', k, code);
    CacheInvGrows(ttl, s, s');
    OthersKeep(ttl, s, s', k);
  }

  lemma SoftDeleteMissKeeps(ttl: int, s: State, s': State, k: CallId, dies: bool)
    requires Inv(ttl, s) && SoftDeleteStep(s, s', k, dies) && !IsActive(s.table.rows, s.calls[k].request.code)
    ensures Inv(ttl, s') && Grows(s, s')
  {
    ReadStepKeeps(ttl, s, s', k);
  }

  lemma DeleteNextKeeps(ttl: int, s: State, s': State, k: CallId)
    requires Inv(ttl, s) && DeleteNext(s, s', k)
    ensures Inv(ttl, s') && Grows(s, s')
  {
    if OwnerGetStep(s, s', k) {
      OwnerGetKeeps(ttl, s, s', k);
    } else if dies :| SoftDeleteStep(s, s', k, dies) {
      if IsActive(s.table.rows, s.calls[k].request.code) {
        SoftDeleteKeeps(ttl, s, s', k, dies);
      } else {
        SoftDeleteMissKeeps(ttl, s, s', k, dies);
      }
    } else {
      var fails, dies :| InvalidateStep(s, s', k, fails, dies);
      InvalidateKeeps(ttl, s, s', k, fails, dies);
    }
  }

  // ---------------------------------------------------------------- create

  lemma AliasCheckKeeps(ttl: int, s: State, s': State, k: CallId)
    requires Inv(ttl, s) && AliasCheckStep(s, s', k)
    ensures Inv(ttl, s') && Grows(s, s')
  {
    assert CallInv(ttl, s, k, s.calls[k]);
    ReadStepKeeps(ttl, s, s', k);
  }

  /** The shared state after an INSERT that the unique constraint accepted. */
  ghost predicate RowInserted(s: State, s': State, k: CallId, row: UrlRecord) {
    && !HasRow(s.table.rows, row.shortCode) && row.id == s.table.nextId && row.isActive
    && s'.table == Table(s.table.rows[row.id := row], row.id + 1)
    && s'.makers == s.makers[row.id := k]
    && s'.deletions == s.deletions && s'.cache == s.cache && s'.clock == s.clock && s'.step == s.step + 1
  }

  lemma RowInsertedGrows(s: State, s': State, k: CallId, row: UrlRecord)
    requires WellFormed(s.table) && MakersInv(s) && RowInserted(s, s', k, row)
    ensures WellFormed(s'.table) && Grows(s, s')
  {}

  lemma RowInsertedDeletions(s: State, s': State, k: CallId, row: UrlRecord)
    requires WellFormed(s.table) && MakersInv(s) && DeletionsInv(s) && RowInserted(s, s', k, row) && OnlyMoved(s, s', k)
    ensures DeletionsInv(s')
  {
    RowInsertedGrows(s, s', k, row);
    forall code | code in s'.deletions ensures DeletionOk(s', code, s'.deletions[code]) {
      assert DeletionOk(s, code, s.deletions[code]);
      DeletionOkGrows(s, s', code, s.deletions[code]);
    }
  }

  lemma RowInsertedMakers(s: State, s': State, k: CallId, row: UrlRecord)
    requires WellFormed(s.table) && MakersInv(s) && RowInserted(s, s', k, row) && OnlyMoved(s, s', k)
    requires Creating(s, k) && !Finished(s.calls[k].pc)
    requires s'.calls[k].pc.Crashed? || (s'.calls[k].pc.CreateDone? && s'.calls[k].pc.created == Created(row))
    requires row == Row(row.id, row.shortCode, s.calls[k].request.url, row.createdAt)
    ensures MakersInv(s')
  {}

  lemma InsertCall(ttl: int, s: State, s': State, k: CallId, code: string, createdAt: int, dies: bool)
    requires Inv(ttl, s) && InsertStep(s, s', k, code, createdAt, dies)
    ensures CallInv(ttl, s', k, s'.calls[k])
  {
    assert CallInv(ttl, s, k, s.calls[k]);
    InsertKeeps(s.table, code, s.calls[k].request.url, createdAt);
    if s.calls[k].pc.RandomInsert? {
      var tried := s.calls[k].pc.tried;
      forall i | 0 <= i < |tried| ensures HasRow(s'.table.rows, tried[i]) {
        RowStays(s.table.rows, s'.table.rows, tried[i]);
      }
    }
  }

  lemma RowStays(rows: map<int, UrlRecord>, rows': map<int, UrlRecord>, code: string)
    requires Preserves(rows, rows') && HasRow(rows, code)
    ensures HasRow(rows', code)
  {}

  lemma InsertAccepted(ttl: int, s: State, s': State, k: CallId, code: string, createdAt: int, dies: bool)
    requires Inv(ttl, s) && InsertStep(s, s', k, code, createdAt, dies) && !HasRow(s.table.rows, code)
    ensures Inv(ttl, s') && Grows(s, s')
  {
    var row := Row(s.table.nextId, code, s.calls[k].request.url, createdAt);
    assert RowInserted(s, s', k, row) && OnlyMoved(s, s', k);
    InsertCall(ttl, s, s', k, code, createdAt, dies);
    RowInsertedGrows(s, s', k, row);
    RowInsertedDeletions(s, s', k, row);
    RowInsertedMakers(s, s', k, row);
    CacheInvGrows(ttl, s, s');
    OthersKeep(ttl, s, s', k);
  }

  lemma BurnedIdKeeps(ttl: int, s: State)
    requires Inv(ttl, s)
    ensures Inv(ttl, s.(table := s.table.(nextId := s.table.nextId + 1)))
  {
    var s' := s.(table := s.table.(nextId := s.table.nextId + 1));
    CacheInvGrows(ttl, s, s');
    forall k | k in s.calls ensures CallInv(ttl, s', k, s.calls[k]) {
      CallInvGrows(ttl, s, s', k, s.calls[k]);
    }
    RegistersUntouched(s, s');
  }

  lemma InsertRejected(ttl: int, s: State, s': State, k: CallId, code: string, createdAt: int, dies: bool)
    requires Inv(ttl, s) && InsertStep(s, s', k, code, createdAt, dies) && HasRow(s.table.rows, code)
    ensures Inv(ttl, s') && Grows(s, s')
  {
    var mid := s.(table := s.table.(nextId := s.table.nextId + 1));
    BurnedIdKeeps(ttl, s);
    InsertCall(ttl, s, s', k, code, createdAt, dies);
    ReadStepKeeps(ttl, mid, s', k);
  }

  lemma CreateNextKeeps(ttl: int, s: State, s': State, k: CallId)
    requires Inv(ttl, s) && CreateNext(s, s', k)
    ensures Inv(ttl, s') && Grows(s, s')
  {
    if AliasCheckStep(s, s', k) {
      AliasCheckKeeps(ttl, s, s', k);
    } else {
      var code, createdAt, dies :| InsertStep(s, s', k, code, createdAt, dies);
      if HasRow(s.table.rows, code) {
        InsertRejected(ttl, s, s', k, code, createdAt, dies);
      } else {
        InsertAccepted(ttl, s, s', k, code, createdAt, dies);
      }
    }
  }

  // ---------------------------------------------------------------- every step, every run

  lemma StartKeeps(ttl: int, s: State, s': State, k: CallId, request: Request)
    requires Inv(ttl, s) && Start(s, s', k, request)
    ensures Inv(ttl, s') && Grows(s, s')
  {
    CacheInvGrows(ttl, s, s');
    forall other | other in s'.calls ensures CallInv(ttl, s', other, s'.calls[other]) {
      if other != k {
        CallInvGrows(ttl, s, s', other, s.calls[other]);
      }
    }
    RegistersUntouched(s, s');
  }

  lemma EnvironmentKeeps(ttl: int, s: State, s': State)
    requires Inv(ttl, s) && (Tick(s, s') || exists code :: Evict(s, s', code))
    ensures Inv(ttl, s') && Grows(s, s')
  {
    CacheInvGrows(ttl, s, s');
    forall k | k in s'.calls ensures CallInv(ttl, s', k, s'.calls[k]) {
      CallInvGrows(ttl, s, s', k, s.calls[k]);
    }
    RegistersUntouched(s, s');
  }

  lemma NextKeeps(ttl: int, s: State, s': State)
    requires Inv(ttl, s) && Next(ttl, s, s')
    ensures Inv(ttl, s') && Grows(s, s')
  {
    if k, request :| Start(s, s', k, request) {
      StartKeeps(ttl, s, s', k, request);
    } else if k :| ResolveNext(ttl, s, s', k) {
      ResolveNextKeeps(ttl, s, s', k);
    } else if k :| DeleteNext(s, s', k) {
      DeleteNextKeeps(ttl, s, s', k);
    } else if k :| CreateNext(s, s', k) {
      CreateNextKeeps(ttl, s, s', k);
    } else if k :| CrashStep(s, s', k) {
      CrashKeeps(ttl, s, s', k);
    } else {
      EnvironmentKeeps(ttl, s, s');
    }
  }

  lemma {:induction false} RunInv(ttl: int, run: seq<State>, i: nat)
    requires IsRun(ttl, run) && i < |run|
    ensures Inv(ttl, run[i])
    ensures i > 0 ==> Grows(run[i - 1], run[i])
  {
    if i > 0 {
      RunInv(ttl, run, i - 1);
      assert StepAt(ttl, run, i);
      NextKeeps(ttl, run[i - 1], run[i]);
    }
  }

  lemma GrowsTransitive(a: State, b: State, c: State)
    requires Grows(a, b) && Grows(b, c)
    ensures Grows(a, c)
  {}

  lemma {:induction false} RunGrows(ttl: int, run: seq<State>, i: nat, j: nat)
    requires IsRun(ttl, run) && i <= j < |run|
    ensures Grows(run[i], run[j])
  {
    if i < j {
      RunGrows(ttl, run, i, j - 1);
      RunInv(ttl, run, j);
      GrowsTransitive(run[i], run[j - 1], run[j]);
    }
  }

  lemma ReachableInv(ttl: int, s: State)
    requires Reachable(ttl, s)
    ensures Inv(ttl, s)
  {
    var run :| IsRun(ttl, run) && run[|run| - 1] == s;
    RunInv(ttl, run, |run| - 1);
  }

  lemma LaterGrows(ttl: int, s: State, s': State)
    requires Later(ttl, s, s')
    ensures Reachable(ttl, s') && Grows(s, s')
  {
    var run, i :| IsRun(ttl, run) && 0 <= i < |run| && run[i] == s && run[|run| - 1] == s';
    RunGrows(ttl, run, i, |run| - 1);
  }

  lemma LaterReachable(ttl: int, s: State, s': State)
    requires Later(ttl, s, s')
    ensures Reachable(ttl, s) && Reachable(ttl, s')
  {
    var run, i :| IsRun(ttl, run) && 0 <= i < |run| && run[i] == s && run[|run| - 1] == s';
    var prefix := run[..i + 1];
    forall j | 0 < j < |prefix| ensures StepAt(ttl, prefix, j) {
      assert StepAt(ttl, run, j);
    }
    assert IsRun(ttl, prefix) && prefix[|prefix| - 1] == s;
  }

  /** One more step extends the run. */
  lemma ReachStep(ttl: int, s: State, s': State)
    requires Reachable(ttl, s) && Next(ttl, s, s')
    ensures Reachable(ttl, s') && Later(ttl, s, s')
  {
    var run :| IsRun(ttl, run) && run[|run| - 1] == s;
    var longer := run + [s'];
    forall i | 0 < i < |longer| ensures StepAt(ttl, longer, i) {
      assert i < |run| ==> StepAt(ttl, run, i);
    }
    assert IsRun(ttl, longer) && longer[|run| - 1] == s && longer[|longer| - 1] == s';
  }
}
