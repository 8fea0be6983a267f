/** `app/repositories/url_repository.py`: a dictionary and a counter. */
module InMemoryUrls {
  import opened Common
  import opened UrlRecords

  datatype Memory = Memory(store: map<string, UrlRecord>, nextId: int)

  const EMPTY_MEMORY: Memory := Memory(map[], 1)

  function MemoryInsert(m: Memory, code: string, url: NewUrl, createdAt: int): (Memory, Result<UrlRecord, CollisionError>) {
    if code in m.store then (m, Err(ShortCodeCollision))
    else
      var record := Row(m.nextId, code, url, createdAt);
      (Memory(m.store[code := record], m.nextId + 1), Ok(record))
  }

  function MemoryGet(m: Memory, code: string): Option<UrlRecord> {
    if code in m.store then Some(m.store[code]) else None
  }

  function MemoryDelete(m: Memory, code: string): Memory {
    m.(store := m.store - {code})
  }

  /** A collision uses no number and stores nothing; a free code takes the next number. */
  lemma MemoryInsertIff(m: Memory, code: string, url: NewUrl, createdAt: int)
    ensures var (m', r) := MemoryInsert(m, code, url, createdAt);
            && (r.Err? <==> code in m.store)
            && (r.Err? ==> m' == m)
            && (r.Ok? ==> m'.store == m.store[code := r.value] && m'.nextId == m.nextId + 1
                          && r.value == UrlRecord(m.nextId, code, url.longUrl, createdAt, url.expiresAt, true, url.ownerId))
  {}

  class InMemoryUrlRepository {
    var store: map<string, UrlRecord>
    var nextId: int

    function Contents(): Memory
      reads this
    {
      Memory(store, nextId)
    }

    constructor ()
      ensures Contents() == EMPTY_MEMORY
    {
      store, nextId := map[], 1;
    }

    /** Agrees with `Get`, and foretells exactly whether an insert would collide. */
    method Exists(code: string) returns (found: bool)
      ensures found <==> MemoryGet(Contents(), code).Some?
      ensures forall url, createdAt :: found <==> MemoryInsert(Contents(), code, url, createdAt).1.Err?
    {
      return code in store;
    }

    method Insert(code: string, url: NewUrl, createdAt: int) returns (r: Result<UrlRecord, CollisionError>)
      modifies this
      ensures (Contents(), r) == MemoryInsert(old(Contents()), code, url, createdAt)
    {
      var taken := Exists(code);
      if taken {
        return Err(ShortCodeCollision);
      }
      var record := Row(nextId, code, url, createdAt);
      nextId := nextId + 1;
      store := store[code := record];
      return Ok(record);
    }

    method Get(code: string) returns (r: Option<UrlRecord>)
      ensures r == MemoryGet(Contents(), code)
    {
      return if code in store then Some(store[code]) else None;
    }

    /** Hard delete: the code becomes free again. */
    method Delete(code: string) returns (deleted: bool)
      modifies this
      ensures Contents() == MemoryDelete(old(Contents()), code)
      ensures deleted <==> code in old(store)
    {
      if code in store {
        store := store - {code};
        return true;
      }
      assert store - {code} == store;
      return false;
    }
  }
}
