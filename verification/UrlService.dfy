/** `app/services/url_service.py`, one call at a time, over the Postgres repository and the Redis cache. */
module UrlServices {
  import opened Common
  import opened UrlRecords
  import opened PostgresUrls
  import opened Caching

  const MAX_GENERATION_ATTEMPTS: nat := 5

  /** The codes the generator would draw, one per attempt. */
  type Draws = draws: seq<string> | |draws| == MAX_GENERATION_ATTEMPTS witness ["", "", "", "", ""]

  datatype ResolveReply = Resolved(url: ResolvedUrl) | NotFound | Expired

  datatype DeleteReply = Deleted(done: bool) | NotOwner

  datatype CreateReply =
    | Created(record: UrlRecord)
    | InvalidUrl
    | AliasTaken
    | CollisionEscapes
    | GaveUp

  // ---------------------------------------------------------------- pieces of the service

  function CacheKey(code: string): string {
    "url:" + code
  }

  /** Seconds are cut toward zero: the sign is kept and less than a second is lost. */
  lemma TruncatesTowardZero(micros: int)
    ensures micros >= 0 ==> 0 <= micros - TruncatedSeconds(micros) * 1_000_000 < 1_000_000 && TruncatedSeconds(micros) >= 0
    ensures micros <= 0 ==> -1_000_000 < micros - TruncatedSeconds(micros) * 1_000_000 <= 0 && TruncatedSeconds(micros) <= 0
  {}

  /** The TTL is the smaller of the cache TTL and the truncated remaining life. */
  lemma TtlIsSmaller(cacheTtl: int, expiresAt: Option<int>, now: int)
    ensures expiresAt.None? ==> TtlSeconds(cacheTtl, expiresAt, now) == cacheTtl
    ensures expiresAt.Some? ==>
              var ttl, left := TtlSeconds(cacheTtl, expiresAt, now), TruncatedSeconds(expiresAt.value - now);
              ttl <= cacheTtl && ttl <= left && (ttl == cacheTtl || ttl == left)
    ensures TtlSeconds(cacheTtl, expiresAt, now) > 0
       <==> cacheTtl > 0 && (expiresAt.Some? ==> now + 1_000_000 <= expiresAt.value)
  {}

  /** Two codes never share a cache entry. */
  lemma CacheKeyInjective(a: string, b: string)
    ensures CacheKey(a) == CacheKey(b) <==> a == b
  {
    assert CacheKey(a)[4..] == a && CacheKey(b)[4..] == b;
  }

  predicate IsExpired(expiresAt: Option<int>, now: int) {
    expiresAt.Some? && expiresAt.value < now
  }

  /** `int(...)` on seconds: truncation toward zero. */
  function TruncatedSeconds(micros: int): int {
    if micros >= 0 then micros / MICROS_PER_SECOND else -((-micros) / MICROS_PER_SECOND)
  }

  function TtlSeconds(cacheTtl: int, expiresAt: Option<int>, now: int): int {
    match expiresAt
    case None => cacheTtl
    case Some(at) =>
      var left := TruncatedSeconds(at - now);
      if left < cacheTtl then left else cacheTtl
  }

  /** The ownership rule of `delete`. */
  predicate MayDelete(ownerId: Option<int>, requester: Option<int>) {
    ownerId.None? || ownerId == requester
  }

  // ---------------------------------------------------------------- the service without a cache

  ghost function DirectResolve(rows: map<int, UrlRecord>, code: string, now: int): ResolveReply {
    match ActiveRow(rows, code)
    case None => NotFound
    case Some(r) => if IsExpired(r.expiresAt, now) then Expired else Resolved(Project(r))
  }

  ghost function DirectDelete(rows: map<int, UrlRecord>, code: string, requester: Option<int>): DeleteReply {
    match ActiveRow(rows, code)
    case None => Deleted(false)
    case Some(r) => if MayDelete(r.ownerId, requester) then Deleted(true) else NotOwner
  }

  ghost function RowsAfterDelete(rows: map<int, UrlRecord>, code: string, requester: Option<int>): map<int, UrlRecord> {
    if DirectDelete(rows, code, requester) == Deleted(true) then Deactivate(rows, code) else rows
  }

  /** Where the random path stops: the first free draw from position i on, or |draws|. */
  function FirstFree(rows: map<int, UrlRecord>, draws: seq<string>, i: nat): (k: nat)
    requires i <= |draws|
    ensures i <= k <= |draws|
    ensures forall j | i <= j < k :: HasRow(rows, draws[j])
    ensures k < |draws| ==> !HasRow(rows, draws[k])
    decreases |draws| - i
  {
    if i == |draws| || !HasRow(rows, draws[i]) then i else FirstFree(rows, draws, i + 1)
  }

  ghost function CreateOutcome(t: Table, valid: bool, alias: Option<string>, url: NewUrl, draws: Draws, now: int): (Table, CreateReply)
  {
    if !valid then (t, InvalidUrl)
    else if alias.Some? && alias.value != "" then
      if IsActive(t.rows, alias.value) then (t, AliasTaken)
      else
        var (t', r) := TableInsert(t, alias.value, url, now);
        (t', if r.Ok? then Created(r.value) else CollisionEscapes)
    else
      var k := FirstFree(t.rows, draws, 0);
      if k == |draws| then (t.(nextId := t.nextId + k), GaveUp)
      else
        var row := Row(t.nextId + k, draws[k], url, now);
        (Table(t.rows[row.id := row], row.id + 1), Created(row))
  }

  /** A creation adds exactly the row it reports, with its own arguments and a code nobody had, or no row. */
  lemma CreateAddsOneRow(t: Table, valid: bool, alias: Option<string>, url: NewUrl, draws: Draws, now: int)
    requires WellFormed(t)
    ensures var (t', reply) := CreateOutcome(t, valid, alias, url, draws, now);
            && WellFormed(t')
            && match reply
               case Created(r) =>
                 && r.id !in t.rows && !HasRow(t.rows, r.shortCode) && t'.rows == t.rows[r.id := r]
                 && r.longUrl == url.longUrl && r.expiresAt == url.expiresAt && r.ownerId == url.ownerId
                 && r.createdAt == now && r.isActive && valid
                 && (if alias.Some? && alias.value != "" then r.shortCode == alias.value else r.shortCode in draws)
               case _ => t'.rows == t.rows
  {}

  /** An invalid URL is refused before anything happens, and only that. */
  lemma InvalidIsRefusedFirst(t: Table, valid: bool, alias: Option<string>, url: NewUrl, draws: Draws, now: int)
    ensures CreateOutcome(t, valid, alias, url, draws, now).1 == InvalidUrl <==> !valid
    ensures !valid ==> CreateOutcome(t, valid, alias, url, draws, now).0 == t
  {}

  /** The random path takes the first draw without a row, with the id left over after one id per rejected draw. */
  lemma FirstFreeDrawWins(t: Table, alias: Option<string>, url: NewUrl, draws: Draws, now: int, k: nat)
    requires alias.None? || alias.value == ""
    requires k < 5 && (forall j | 0 <= j < k :: HasRow(t.rows, draws[j])) && !HasRow(t.rows, draws[k])
    ensures var (t', reply) := CreateOutcome(t, true, alias, url, draws, now);
            var row := UrlRecord(t.nextId + k, draws[k], url.longUrl, now, url.expiresAt, true, url.ownerId);
            reply == Created(row) && t'.rows == t.rows[row.id := row] && t'.nextId == t.nextId + k + 1
  {
    assert FirstFree(t.rows, draws, 0) == k;
  }

  /** The random path gives up exactly when all five drawn codes have rows, active or soft-deleted. */
  lemma GivesUpIff(t: Table, alias: Option<string>, url: NewUrl, draws: Draws, now: int)
    ensures CreateOutcome(t, true, alias, url, draws, now).1 == GaveUp
       <==> (alias.None? || alias.value == "") && forall i | 0 <= i < 5 :: HasRow(t.rows, draws[i])
    ensures CreateOutcome(t, true, alias, url, draws, now).1 == GaveUp ==>
              CreateOutcome(t, true, alias, url, draws, now).0 == t.(nextId := t.nextId + 5)
  {}

  /** An active row resolves to its own destination and dates up to and including its expiry, and is expired from then on. */
  lemma ResolveAnswers(t: Table, id: int, now: int)
    requires WellFormed(t) && id in t.rows && t.rows[id].isActive
    ensures var row := t.rows[id];
            DirectResolve(t.rows, row.shortCode, now)
            == if row.expiresAt.None? || now <= row.expiresAt.value
               then Resolved(ResolvedUrl(row.shortCode, row.longUrl, row.createdAt, row.expiresAt, row.id))
               else Expired
  {
    ActiveRowIs(t, id);
  }

  /** A resolve succeeds exactly on an active row that has not expired, and shows that row. */
  lemma ResolveIff(t: Table, code: string, now: int, url: ResolvedUrl)
    requires WellFormed(t)
    ensures DirectResolve(t.rows, code, now) == Resolved(url)
       <==> exists id :: id in t.rows && t.rows[id].shortCode == code && t.rows[id].isActive
                      && url == Project(t.rows[id]) && (url.expiresAt.None? || now <= url.expiresAt.value)
    ensures DirectResolve(t.rows, code, now) == Expired
       <==> exists id :: id in t.rows && t.rows[id].shortCode == code && t.rows[id].isActive
                      && t.rows[id].expiresAt.Some? && t.rows[id].expiresAt.value < now
    ensures DirectResolve(t.rows, code, now) == NotFound
       <==> !exists id :: id in t.rows && t.rows[id].shortCode == code && t.rows[id].isActive
  {
    forall id | id in t.rows && t.rows[id].shortCode == code && t.rows[id].isActive
      ensures ActiveRow(t.rows, code) == Some(t.rows[id])
    {
      ActiveRowIs(t, id);
    }
  }

  /** What a delete answers: nothing to delete, not the owner, or done; each under its exact condition. */
  lemma DeleteAnswers(t: Table, code: string, requester: Option<int>)
    requires WellFormed(t)
    ensures DirectDelete(t.rows, code, requester) == Deleted(false)
       <==> !exists id :: id in t.rows && t.rows[id].shortCode == code && t.rows[id].isActive
    ensures DirectDelete(t.rows, code, requester) == NotOwner
       <==> exists id :: id in t.rows && t.rows[id].shortCode == code && t.rows[id].isActive
                      && t.rows[id].ownerId.Some? && t.rows[id].ownerId != requester
    ensures DirectDelete(t.rows, code, requester) != Deleted(true) ==> RowsAfterDelete(t.rows, code, requester) == t.rows
  {
    forall id | id in t.rows && t.rows[id].shortCode == code && t.rows[id].isActive
      ensures ActiveRow(t.rows, code) == Some(t.rows[id])
    {
      ActiveRowIs(t, id);
    }
  }

  /** A delete succeeds exactly on an active row that is anonymous or the requester's own. */
  lemma DeleteIff(t: Table, id: int, requester: Option<int>)
    requires WellFormed(t) && id in t.rows && t.rows[id].isActive
    ensures var row := t.rows[id];
            && (DirectDelete(t.rows, row.shortCode, requester) == Deleted(true)
                <==> row.ownerId.None? || requester == row.ownerId)
            && (DirectDelete(t.rows, row.shortCode, requester) != Deleted(true) ==>
                  RowsAfterDelete(t.rows, row.shortCode, requester) == t.rows)
            && (DirectDelete(t.rows, row.shortCode, requester) == Deleted(true) ==>
                  RowsAfterDelete(t.rows, row.shortCode, requester) == t.rows[id := row.(isActive := false)])
  {
    ActiveRowIs(t, id);
    var rows' := Deactivate(t.rows, t.rows[id].shortCode);
    assert forall other | other in t.rows && other != id :: rows'[other] == t.rows[other];
    assert rows' == t.rows[id := t.rows[id].(isActive := false)];
  }

  /**
   * With nobody racing: a free alias is created, an active one is reported taken, and a soft-deleted
   * one ends in the uncaught collision.
   */
  lemma AliasOutcomes(t: Table, alias: string, url: NewUrl, draws: Draws, now: int)
    requires alias != ""
    ensures var (t', reply) := CreateOutcome(t, true, Some(alias), url, draws, now);
            && (reply.Created? <==> !HasRow(t.rows, alias))
            && (reply == AliasTaken <==> IsActive(t.rows, alias))
            && (reply == CollisionEscapes <==> HasRow(t.rows, alias) && !IsActive(t.rows, alias))
            && (HasRow(t.rows, alias) ==> t'.rows == t.rows)
  {
    if IsActive(t.rows, alias) {
      assert HasRow(t.rows, alias);
    }
  }

  // ---------------------------------------------------------------- the service with a cache

  /** A hit answers from the entry, rechecking expiry; a miss answers from the repository. */
  ghost function CachedResolve(
    rows: map<int, UrlRecord>, entries: Entries, code: string, now: int, clock: int, getFails: bool): ResolveReply
  {
    match (if getFails then None else Lookup(entries, CacheKey(code), clock))
    case Some(url) => if IsExpired(url.expiresAt, now) then Expired else Resolved(url)
    case None => DirectResolve(rows, code, now)
  }

  /** Only a miss that finds a live row writes the cache, with a TTL from a second clock reading. */
  ghost function EntriesAfterResolve(
    rows: map<int, UrlRecord>, entries: Entries, code: string, now: int, ttlNow: int, clock: int,
    cacheTtl: int, getFails: bool, setFails: bool): Entries
  {
    if (!getFails && IsLive(entries, CacheKey(code), clock)) || setFails then entries
    else
      match DirectResolve(rows, code, now)
      case Resolved(url) => Store(entries, CacheKey(code), url, TtlSeconds(cacheTtl, url.expiresAt, ttlNow), clock)
      case _ => entries
  }

  ghost function EntriesAfterDelete(
    rows: map<int, UrlRecord>, entries: Entries, code: string, requester: Option<int>, invalidationFails: bool): Entries
  {
    if DirectDelete(rows, code, requester) == Deleted(true) && !invalidationFails
    then Remove(entries, CacheKey(code)) else entries
  }

  /** A hit answers from its entry under the same expiry rule; without a live entry, or if the get fails, the rows answer. */
  lemma HitAnswers(rows: map<int, UrlRecord>, entries: Entries, code: string, now: int, clock: int, getFails: bool)
    ensures var key := CacheKey(code);
            CachedResolve(rows, entries, code, now, clock, getFails)
            == if !getFails && key in entries && clock < entries[key].deadline then
                 var url := entries[key].value;
                 if url.expiresAt.None? || now <= url.expiresAt.value then Resolved(url) else Expired
               else DirectResolve(rows, code, now)
  {}

  /** Exactly a miss on an active unexpired row, with a working set and a positive TTL, writes the cache: that row, for that long. */
  lemma ResolveCaches(t: Table, entries: Entries, code: string, now: int, ttlNow: int, clock: int, cacheTtl: int, getFails: bool, setFails: bool)
    requires WellFormed(t)
    ensures var key, after := CacheKey(code), EntriesAfterResolve(t.rows, entries, code, now, ttlNow, clock, cacheTtl, getFails, setFails);
            && (forall other | other != key :: other in after <==> other in entries)
            && (forall other | other != key && other in entries :: after[other] == entries[other])
            && (forall id | id in t.rows && t.rows[id].shortCode == code && t.rows[id].isActive ::
                  var row := t.rows[id];
                  var ttl := TtlSeconds(cacheTtl, row.expiresAt, ttlNow);
                  var writes := (getFails || key !in entries || entries[key].deadline <= clock) && !setFails && ttl > 0
                                && (row.expiresAt.None? || now <= row.expiresAt.value);
                  if writes then key in after && after[key] == Entry(Project(row), clock + ttl * 1_000_000) else after == entries)
            && ((forall id | id in t.rows && t.rows[id].shortCode == code :: !t.rows[id].isActive) ==> after == entries)
  {
    forall id | id in t.rows && t.rows[id].shortCode == code && t.rows[id].isActive
      ensures ActiveRow(t.rows, code) == Some(t.rows[id])
    {
      ActiveRowIs(t, id);
    }
  }

  /** A delete invalidates its own key, exactly if it deleted a row and the command works. */
  lemma DeleteInvalidates(rows: map<int, UrlRecord>, entries: Entries, code: string, requester: Option<int>, fails: bool)
    ensures EntriesAfterDelete(rows, entries, code, requester, fails)
         == if DirectDelete(rows, code, requester) == Deleted(true) && !fails
            then map key | key in entries && key != CacheKey(code) :: entries[key] else entries
  {}

  class UrlService {
    const repository: PostgresUrlRepository
    const cache: RedisCache?
    const cacheTtlSeconds: int
    const isValidUrl: string -> bool

    constructor (repository: PostgresUrlRepository, cache: RedisCache?, cacheTtlSeconds: int, isValidUrl: string -> bool)
      ensures this.repository == repository && this.cache == cache
      ensures this.cacheTtlSeconds == cacheTtlSeconds && this.isValidUrl == isValidUrl
    {
      this.repository, this.cache := repository, cache;
      this.cacheTtlSeconds, this.isValidUrl := cacheTtlSeconds, isValidUrl;
    }

    /** `create_short_url`: alias path with a pre-check, or up to five random inserts. */
    method CreateShortUrl(url: NewUrl, alias: Option<string>, draws: Draws, now: int) returns (reply: CreateReply)
      requires repository.Valid()
      modifies repository
      ensures repository.Valid()
      ensures (repository.table, reply)
           == CreateOutcome(old(repository.table), isValidUrl(url.longUrl), alias, url, draws, now)
    {
      if !isValidUrl(url.longUrl) {
        return InvalidUrl;
      }
      if alias.Some? && alias.value != "" {
        var taken := repository.Exists(alias.value);
        if taken {
          return AliasTaken;
        }
        var inserted := repository.Insert(alias.value, url, now);
        return if inserted.Ok? then Created(inserted.value) else CollisionEscapes;
      }
      ghost var table := repository.table;
      for attempt := 0 to MAX_GENERATION_ATTEMPTS
        invariant repository.Valid()
        invariant repository.table == table.(nextId := table.nextId + attempt)
        invariant FirstFree(table.rows, draws, 0) == FirstFree(table.rows, draws, attempt)
      {
        var inserted := repository.Insert(draws[attempt], url, now);
        if inserted.Ok? {
          return Created(inserted.value);
        }
      }
      return GaveUp;
    }

    /**
     * `resolve`: cache-aside read. `now` and `ttlNow` are the two readings of this instance's clock,
     * which may differ from Redis time.
     */
    method Resolve(code: string, now: int, ttlNow: int, getFails: bool, setFails: bool) returns (reply: ResolveReply)
      requires repository.Valid()
      modifies if cache != null then {cache} else {}
      ensures cache == null ==> reply == DirectResolve(repository.table.rows, code, now)
      ensures cache != null ==>
                && cache.clock == old(cache.clock)
                && reply == CachedResolve(repository.table.rows, old(cache.entries), code, now, cache.clock, getFails)
                && cache.entries == EntriesAfterResolve(repository.table.rows, old(cache.entries), code, now,
                                                        ttlNow, cache.clock, cacheTtlSeconds, getFails, setFails)
    {
      var cacheKey := CacheKey(code);
      if cache != null {
        var cached := cache.Get(cacheKey, getFails);
        if cached.Some? {
          var url := cached.value;
          return if IsExpired(url.expiresAt, now) then Expired else Resolved(url);
        }
      }
      var record := repository.Get(code);
      if record.None? {
        return NotFound;
      }
      if IsExpired(record.value.expiresAt, now) {
        return Expired;
      }
      var resolved := Project(record.value);
      if cache != null {
        var ttl := cacheTtlSeconds;
        if resolved.expiresAt.Some? {
          var secondsUntilExpiry := TruncatedSeconds(resolved.expiresAt.value - ttlNow);
          ttl := if secondsUntilExpiry < ttl then secondsUntilExpiry else ttl;
        }
        cache.Set(cacheKey, resolved, ttl, setFails);
      }
      return Resolved(resolved);
    }

    /** `delete`: ownership from the repository, soft delete, then invalidation. */
    method Delete(code: string, requester: Option<int>, invalidationFails: bool) returns (reply: DeleteReply)
      requires repository.Valid()
      modifies repository, if cache != null then {cache} else {}
      ensures repository.Valid()
      ensures reply == DirectDelete(old(repository.table.rows), code, requester)
      ensures repository.table
           == old(repository.table).(rows := RowsAfterDelete(old(repository.table.rows), code, requester))
      ensures cache != null ==>
                && cache.clock == old(cache.clock)
                && cache.entries == EntriesAfterDelete(old(repository.table.rows), old(cache.entries), code, requester, invalidationFails)
    {
      var record := repository.Get(code);
      if record.None? {
        return Deleted(false);
      }
      if record.value.ownerId.Some? && record.value.ownerId != requester {
        return NotOwner;
      }
      var deleted := repository.Delete(code);
      if deleted && cache != null {
        cache.Delete(CacheKey(code), invalidationFails);
      }
      return Deleted(deleted);
    }
  }
}
