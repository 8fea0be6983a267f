/**
 * Any number of `UrlService` calls interleaved statement by statement over one database and one
 * Redis: each repository statement, cache command and clock read is a step of its own.
 */
module UrlProtocol {
  import opened Common
  import opened UrlRecords
  import opened PostgresUrls
  import opened Caching
  import opened UrlServices

  type CallId = nat

  datatype Request =
    | Resolve(code: string)
    | Delete(code: string, requester: Option<int>)
    | Create(valid: bool, alias: Option<string>, url: NewUrl)

  /** A cache entry with its history: Redis time of the write, step of the writer's repository read. */
  datatype Cached = Cached(entry: Entry, writtenAt: int, readAt: nat)

  datatype Source = FromCache(cached: Cached, hitAt: int) | FromRow(readAt: nat)

  /** The next statement of a call, with the local variables it still needs. */
  datatype Pc =
    // resolve
    | CacheGet
    | CheckHit(cached: Cached, hitAt: int)
    | RepoGet
    | CheckRow(record: UrlRecord, readAt: nat)
    | ComputeTtl(url: ResolvedUrl, readAt: nat, checkedAt: int)
    | CacheSet(url: ResolvedUrl, readAt: nat, checkedAt: int, ttl: int)
    | ResolveOk(url: ResolvedUrl, source: Source, checkedAt: int)
    | ResolveFailed(reply: ResolveReply)
    // delete
    | OwnerGet
    | SoftDelete
    | Invalidate
    | DeleteDone(deleted: DeleteReply)
    // create
    | AliasCheck
    | AliasInsert
    | RandomInsert(tried: seq<string>)
    | CreateDone(created: CreateReply, tried: seq<string>)
    // an escaping database error or a dead process
    | Crashed

  datatype Call = Call(request: Request, pc: Pc)

  /** Which call soft-deleted a code, and at which step. */
  datatype Deletion = Deletion(at: nat, deleter: CallId)

  datatype State = State(
    table: Table, cache: map<string, Cached>, clock: int, step: nat, calls: map<CallId, Call>,
    deletions: map<string, Deletion>, makers: map<int, CallId>)

  ghost predicate Init(s: State) {
    s.table == EMPTY_TABLE && s.cache == map[] && s.calls == map[] && s.deletions == map[] && s.makers == map[]
  }

  function FirstPc(request: Request): Pc {
    match request
    case Resolve(_) => CacheGet
    case Delete(_, _) => OwnerGet
    case Create(valid, alias, _) =>
      if !valid then CreateDone(InvalidUrl, [])
      else if alias.Some? && alias.value != "" then AliasCheck
      else RandomInsert([])
  }

  predicate Finished(pc: Pc) {
    pc.ResolveOk? || pc.ResolveFailed? || pc.DeleteDone? || pc.CreateDone? || pc.Crashed?
  }

  /** Call k goes to `pc`; the step counter orders repository statements. */
  function MoveTo(s: State, k: CallId, pc: Pc): State
    requires k in s.calls
  {
    s.(calls := s.calls[k := s.calls[k].(pc := pc)], step := s.step + 1)
  }

  /** Where a call stands after an effectful statement: on, or dead right after the effect. */
  function Unless(dies: bool, pc: Pc): Pc {
    if dies then Crashed else pc
  }

  // ---------------------------------------------------------------- statements of resolve

  predicate Resolving(s: State, k: CallId) {
    k in s.calls && s.calls[k].request.Resolve?
  }

  ghost predicate CacheGetStep(s: State, s': State, k: CallId, fails: bool) {
    && Resolving(s, k) && s.calls[k].pc.CacheGet?
    && var code := s.calls[k].request.code;
       s' == MoveTo(s, k, if !fails && code in s.cache && s.clock < s.cache[code].entry.deadline
                          then CheckHit(s.cache[code], s.clock) else RepoGet)
  }

  ghost predicate CheckHitStep(s: State, s': State, k: CallId, now: int) {
    && Resolving(s, k) && s.calls[k].pc.CheckHit?
    && var CheckHit(cached, hitAt) := s.calls[k].pc;
       s' == MoveTo(s, k, if IsExpired(cached.entry.value.expiresAt, now) then ResolveFailed(Expired)
                          else ResolveOk(cached.entry.value, FromCache(cached, hitAt), now))
  }

  ghost predicate RepoGetStep(s: State, s': State, k: CallId) {
    && Resolving(s, k) && s.calls[k].pc.RepoGet?
    && var found := ActiveRow(s.table.rows, s.calls[k].request.code);
       s' == MoveTo(s, k, if found.None? then ResolveFailed(NotFound) else CheckRow(found.value, s.step))
  }

  ghost predicate CheckRowStep(s: State, s': State, k: CallId, now: int) {
    && Resolving(s, k) && s.calls[k].pc.CheckRow?
    && var CheckRow(record, readAt) := s.calls[k].pc;
       s' == MoveTo(s, k, if IsExpired(record.expiresAt, now) then ResolveFailed(Expired)
                          else ComputeTtl(Project(record), readAt, now))
  }

  ghost predicate ComputeTtlStep(ttl: int, s: State, s': State, k: CallId, now: int) {
    && Resolving(s, k) && s.calls[k].pc.ComputeTtl?
    && var ComputeTtl(url, readAt, checkedAt) := s.calls[k].pc;
       s' == MoveTo(s, k, CacheSet(url, readAt, checkedAt, TtlSeconds(ttl, url.expiresAt, now)))
  }

  ghost predicate CacheSetStep(s: State, s': State, k: CallId, fails: bool, dies: bool) {
    && Resolving(s, k) && s.calls[k].pc.CacheSet?
    && var CacheSet(url, readAt, checkedAt, t) := s.calls[k].pc;
       var cached := Cached(Entry(url, s.clock + t * MICROS_PER_SECOND), s.clock, readAt);
       s' == MoveTo(if fails || t <= 0 then s else s.(cache := s.cache[s.calls[k].request.code := cached]),
                    k, Unless(dies, ResolveOk(url, FromRow(readAt), checkedAt)))
  }

  ghost predicate ResolveNext(ttl: int, s: State, s': State, k: CallId) {
    || (exists fails :: CacheGetStep(s, s', k, fails))
    || (exists now :: CheckHitStep(s, s', k, now))
    || RepoGetStep(s, s', k)
    || (exists now :: CheckRowStep(s, s', k, now))
    || (exists now :: ComputeTtlStep(ttl, s, s', k, now))
    || (exists fails, dies :: CacheSetStep(s, s', k, fails, dies))
  }

  // ---------------------------------------------------------------- statements of delete

  predicate Deleting(s: State, k: CallId) {
    k in s.calls && s.calls[k].request.Delete?
  }

  ghost predicate OwnerGetStep(s: State, s': State, k: CallId) {
    && Deleting(s, k) && s.calls[k].pc.OwnerGet?
    && var Delete(code, requester) := s.calls[k].request;
       var found := ActiveRow(s.table.rows, code);
       s' == MoveTo(s, k, if found.None? then DeleteDone(Deleted(false))
                          else if MayDelete(found.value.ownerId, requester) then SoftDelete
                          else DeleteDone(NotOwner))
  }

  ghost predicate SoftDeleteStep(s: State, s': State, k: CallId, dies: bool) {
    && Deleting(s, k) && s.calls[k].pc.SoftDelete?
    && var code := s.calls[k].request.code;
       s' == if IsActive(s.table.rows, code)
             then MoveTo(s.(table := s.table.(rows := Deactivate(s.table.rows, code)),
                            deletions := s.deletions[code := Deletion(s.step, k)]),
                         k, Unless(dies, Invalidate))
             else MoveTo(s, k, DeleteDone(Deleted(false)))
  }

  ghost predicate InvalidateStep(s: State, s': State, k: CallId, fails: bool, dies: bool) {
    && Deleting(s, k) && s.calls[k].pc.Invalidate?
    && s' == MoveTo(if fails then s else s.(cache := s.cache - {s.calls[k].request.code}),
                    k, Unless(dies, DeleteDone(Deleted(true))))
  }

  ghost predicate DeleteNext(s: State, s': State, k: CallId) {
    || OwnerGetStep(s, s', k)
    || (exists dies :: SoftDeleteStep(s, s', k, dies))
    || (exists fails, dies :: InvalidateStep(s, s', k, fails, dies))
  }

  // ---------------------------------------------------------------- statements of create_short_url

  predicate Creating(s: State, k: CallId) {
    k in s.calls && s.calls[k].request.Create?
  }

  ghost predicate AliasCheckStep(s: State, s': State, k: CallId) {
    && Creating(s, k) && s.calls[k].pc.AliasCheck? && s.calls[k].request.alias.Some?
    && s' == MoveTo(s, k, if IsActive(s.table.rows, s.calls[k].request.alias.value)
                          then CreateDone(AliasTaken, []) else AliasInsert)
  }

  /** Where an insert of `code` leaves the call: the alias path does not retry, the random path may. */
  function AfterInsert(pc: Pc, code: string, r: Result<UrlRecord, CollisionError>): Pc
    requires pc.AliasInsert? || pc.RandomInsert?
  {
    match pc
    case AliasInsert => CreateDone(if r.Ok? then Created(r.value) else CollisionEscapes, [])
    case RandomInsert(tried) =>
      if r.Ok? then CreateDone(Created(r.value), tried)
      else if |tried| + 1 == MAX_GENERATION_ATTEMPTS then CreateDone(GaveUp, tried + [code])
      else RandomInsert(tried + [code])
  }

  /** One INSERT of the alias or of a freshly drawn code, stamped by the database clock. */
  ghost predicate InsertStep(s: State, s': State, k: CallId, code: string, createdAt: int, dies: bool) {
    && Creating(s, k)
    && (s.calls[k].pc.AliasInsert? || s.calls[k].pc.RandomInsert?)
    && (s.calls[k].pc.AliasInsert? ==> s.calls[k].request.alias == Some(code))
    && var (table', r) := TableInsert(s.table, code, s.calls[k].request.url, createdAt);
       s' == MoveTo(s.(table := table', makers := if r.Ok? then s.makers[r.value.id := k] else s.makers),
                    k, Unless(dies, AfterInsert(s.calls[k].pc, code, r)))
  }

  ghost predicate CreateNext(s: State, s': State, k: CallId) {
    || AliasCheckStep(s, s', k)
    || (exists code, createdAt, dies :: InsertStep(s, s', k, code, createdAt, dies))
  }

  // ---------------------------------------------------------------- environment

  ghost predicate Start(s: State, s': State, k: CallId, request: Request) {
    k !in s.calls && s' == s.(calls := s.calls[k := Call(request, FirstPc(request))])
  }

  ghost predicate CrashStep(s: State, s': State, k: CallId) {
    k in s.calls && !Finished(s.calls[k].pc) && s' == MoveTo(s, k, Crashed)
  }

  ghost predicate Tick(s: State, s': State) {
    s.clock <= s'.clock && s' == s.(clock := s'.clock)
  }

  ghost predicate Evict(s: State, s': State, code: string) {
    s' == s.(cache := s.cache - {code})
  }

  ghost predicate Next(ttl: int, s: State, s': State) {
    || (exists k, request :: Start(s, s', k, request))
    || (exists k :: ResolveNext(ttl, s, s', k))
    || (exists k :: DeleteNext(s, s', k))
    || (exists k :: CreateNext(s, s', k))
    || (exists k :: CrashStep(s, s', k))
    || Tick(s, s')
    || (exists code :: Evict(s, s', code))
  }

  ghost predicate StepAt(ttl: int, run: seq<State>, i: nat)
    requires 0 < i < |run|
  {
    Next(ttl, run[i - 1], run[i])
  }

  ghost predicate IsRun(ttl: int, run: seq<State>) {
    && run != [] && Init(run[0])
    && forall i | 0 < i < |run| :: StepAt(ttl, run, i)
  }

  ghost predicate Reachable(ttl: int, s: State) {
    exists run :: IsRun(ttl, run) && run[|run| - 1] == s
  }

  /** Some run passes through s and goes on to s'. */
  ghost predicate Later(ttl: int, s: State, s': State) {
    exists run, i :: IsRun(ttl, run) && 0 <= i < |run| && run[i] == s && run[|run| - 1] == s'
  }

  /** Two states of one run, in either order. */
  ghost predicate SameRun(ttl: int, s: State, s': State) {
    Later(ttl, s, s') || Later(ttl, s', s)
  }
}
