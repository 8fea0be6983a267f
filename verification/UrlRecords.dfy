/** Records shared by the repositories, the cache and the URL service. Times are integer microseconds. */
module UrlRecords {
  import opened Common

  /** A row of the urls table. */
  datatype UrlRecord = UrlRecord(
    id: int, shortCode: string, longUrl: string, createdAt: int,
    expiresAt: Option<int>, isActive: bool, ownerId: Option<int>)

  /** The narrower, owner-free view that `resolve` returns and the cache stores. */
  datatype ResolvedUrl = ResolvedUrl(
    shortCode: string, longUrl: string, createdAt: int, expiresAt: Option<int>, id: int)

  function Project(r: UrlRecord): ResolvedUrl {
    ResolvedUrl(r.shortCode, r.longUrl, r.createdAt, r.expiresAt, r.id)
  }

  /** The arguments of a creation. */
  datatype NewUrl = NewUrl(longUrl: string, expiresAt: Option<int>, ownerId: Option<int>)

  function Row(id: int, code: string, url: NewUrl, createdAt: int): UrlRecord {
    UrlRecord(id, code, url.longUrl, createdAt, url.expiresAt, true, url.ownerId)
  }

  datatype CollisionError = ShortCodeCollision
}
