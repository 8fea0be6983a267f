/** `app/core/cache.py`: a fail-open key-value cache with per-key expiry. */
module Caching {
  import opened Common
  import opened UrlRecords

  const MICROS_PER_SECOND: int := 1_000_000

  /** A cached payload and the Redis time at which it expires. */
  datatype Entry = Entry(value: ResolvedUrl, deadline: int)

  type Entries = map<string, Entry>

  predicate IsLive(entries: Entries, key: string, clock: int) {
    key in entries && clock < entries[key].deadline
  }

  function Lookup(entries: Entries, key: string, clock: int): Option<ResolvedUrl> {
    if IsLive(entries, key, clock) then Some(entries[key].value) else None
  }

  /** SET key value EX ttl; a non-positive ttl is never sent. */
  function Store(entries: Entries, key: string, value: ResolvedUrl, ttlSeconds: int, clock: int): Entries {
    if ttlSeconds <= 0 then entries
    else entries[key := Entry(value, clock + ttlSeconds * MICROS_PER_SECOND)]
  }

  function Remove(entries: Entries, key: string): Entries {
    entries - {key}
  }

  /** A stored value is found from its write until its TTL has passed, and not later; a TTL below one stores nothing. */
  lemma StoredUntilDeadline(entries: Entries, key: string, value: ResolvedUrl, ttlSeconds: int, clock: int, later: int)
    requires clock <= later && key !in entries
    ensures Lookup(Store(entries, key, value, ttlSeconds, clock), key, later)
         == if later < clock + ttlSeconds * 1_000_000 then Some(value) else None
  {}

  /** Storing replaces what was there and removing forgets it; other keys are left alone. */
  lemma OtherKeysStay(entries: Entries, key: string, value: ResolvedUrl, ttlSeconds: int, clock: int, other: string, later: int)
    ensures ttlSeconds > 0 ==>
              Lookup(Store(entries, key, value, ttlSeconds, clock), key, later)
              == if later < clock + ttlSeconds * 1_000_000 then Some(value) else None
    ensures ttlSeconds <= 0 ==> Store(entries, key, value, ttlSeconds, clock) == entries
    ensures other != key ==> Lookup(Store(entries, key, value, ttlSeconds, clock), other, later) == Lookup(entries, other, later)
    ensures Lookup(Remove(entries, key), other, later) == if other == key then None else Lookup(entries, other, later)
  {}

  /** `fails` says that the client raised a RedisError before the server applied the command. */
  class RedisCache {
    var entries: Entries
    var clock: int

    constructor (clock: int)
      ensures entries == map[] && this.clock == clock
    {
      entries, this.clock := map[], clock;
    }

    method Get(key: string, fails: bool) returns (value: Option<ResolvedUrl>)
      ensures value == if fails then None else Lookup(entries, key, clock)
    {
      if fails {
        return None;
      }
      return if key in entries && clock < entries[key].deadline then Some(entries[key].value) else None;
    }

    method Set(key: string, value: ResolvedUrl, ttlSeconds: int, fails: bool)
      modifies this`entries
      ensures entries == if fails then old(entries) else Store(old(entries), key, value, ttlSeconds, clock)
    {
      if ttlSeconds <= 0 {
        return;
      }
      if !fails {
        entries := entries[key := Entry(value, clock + ttlSeconds * MICROS_PER_SECOND)];
      }
    }

    method Delete(key: string, fails: bool)
      modifies this`entries
      ensures entries == if fails then old(entries) else Remove(old(entries), key)
    {
      if !fails {
        entries := entries - {key};
      }
    }

    /** Redis may drop any entry at any time. */
    method Evict(key: string)
      modifies this`entries
      ensures entries == Remove(old(entries), key)
    {
      entries := entries - {key};
    }
  }
}
