/** `app/repositories/postgres_url_repository.py` over the urls table of migration 001. */
module PostgresUrls {
  import opened Common
  import opened UrlRecords

  /** The urls table by primary key, and the id sequence behind BIGSERIAL. */
  datatype Table = Table(rows: map<int, UrlRecord>, nextId: int)

  const EMPTY_TABLE: Table := Table(map[], 1)

  predicate HasRow(rows: map<int, UrlRecord>, code: string) {
    exists id :: id in rows && rows[id].shortCode == code
  }

  predicate IsActive(rows: map<int, UrlRecord>, code: string) {
    exists id :: id in rows && rows[id].shortCode == code && rows[id].isActive
  }

  /** SELECT ... WHERE short_code = code AND is_active. */
  ghost function ActiveRow(rows: map<int, UrlRecord>, code: string): (r: Option<UrlRecord>)
    ensures r.Some? <==> IsActive(rows, code)
    ensures r.Some? ==> r.value.shortCode == code && r.value.isActive
    ensures r.Some? ==> exists id :: id in rows && rows[id] == r.value
  {
    if id :| id in rows && rows[id].shortCode == code && rows[id].isActive then Some(rows[id]) else None
  }

  /** INSERT ... RETURNING: the sequence advances even when the unique constraint rejects the row. */
  function TableInsert(t: Table, code: string, url: NewUrl, createdAt: int): (Table, Result<UrlRecord, CollisionError>) {
    if HasRow(t.rows, code) then (t.(nextId := t.nextId + 1), Err(ShortCodeCollision))
    else
      var row := Row(t.nextId, code, url, createdAt);
      (Table(t.rows[row.id := row], t.nextId + 1), Ok(row))
  }

  /** UPDATE urls SET is_active = false WHERE short_code = code AND is_active. */
  function Deactivate(rows: map<int, UrlRecord>, code: string): map<int, UrlRecord> {
    map id | id in rows :: if rows[id].shortCode == code then rows[id].(isActive := false) else rows[id]
  }

  /** Primary keys name their rows and come from the sequence; short codes are unique. */
  ghost predicate WellFormed(t: Table) {
    && (forall id | id in t.rows :: t.rows[id].id == id < t.nextId)
    && (forall i, j | i in t.rows && j in t.rows && t.rows[i].shortCode == t.rows[j].shortCode :: i == j)
  }

  /** Rows are never removed or edited, except that an active row may become inactive. */
  ghost predicate Preserves(rows: map<int, UrlRecord>, rows': map<int, UrlRecord>) {
    forall id | id in rows :: id in rows' && (rows'[id] == rows[id] || rows'[id] == rows[id].(isActive := false))
  }

  lemma InsertKeeps(t: Table, code: string, url: NewUrl, createdAt: int)
    requires WellFormed(t)
    ensures WellFormed(TableInsert(t, code, url, createdAt).0)
    ensures Preserves(t.rows, TableInsert(t, code, url, createdAt).0.rows)
  {}

  lemma DeactivateKeeps(t: Table, code: string)
    requires WellFormed(t)
    ensures WellFormed(t.(rows := Deactivate(t.rows, code)))
    ensures Preserves(t.rows, Deactivate(t.rows, code))
    ensures !IsActive(Deactivate(t.rows, code), code)
  {}

  /** Every insert uses one id; it is refused exactly if some row, active or not, has the code. */
  lemma InsertIff(t: Table, code: string, url: NewUrl, createdAt: int)
    ensures var (t', r) := TableInsert(t, code, url, createdAt);
            && t'.nextId == t.nextId + 1
            && (r.Err? <==> exists id :: id in t.rows && t.rows[id].shortCode == code)
            && (r.Err? ==> t'.rows == t.rows)
            && (r.Ok? ==> t'.rows == t.rows[t.nextId := r.value]
                          && r.value == UrlRecord(t.nextId, code, url.longUrl, createdAt, url.expiresAt, true, url.ownerId))
  {}

  /** An accepted insert binds its own code, and only that. */
  lemma InsertPresence(t: Table, code: string, url: NewUrl, createdAt: int, other: string)
    requires WellFormed(t) && !HasRow(t.rows, code)
    ensures var rows' := TableInsert(t, code, url, createdAt).0.rows;
            && (HasRow(rows', other) <==> HasRow(t.rows, other) || other == code)
            && (IsActive(rows', other) <==> IsActive(t.rows, other) || other == code)
  {
    var rows' := TableInsert(t, code, url, createdAt).0.rows;
    assert rows'[t.nextId].shortCode == code && rows'[t.nextId].isActive;
    if id :| id in t.rows && t.rows[id].shortCode == other {
      assert rows'[id] == t.rows[id];
    }
    if id :| id in t.rows && t.rows[id].shortCode == other && t.rows[id].isActive {
      assert rows'[id] == t.rows[id];
    }
  }

  /** A soft delete keeps every code bound and ends the activity of its own. */
  lemma DeactivatePresence(rows: map<int, UrlRecord>, code: string, other: string)
    ensures HasRow(Deactivate(rows, code), other) <==> HasRow(rows, other)
    ensures IsActive(Deactivate(rows, code), other) <==> IsActive(rows, other) && other != code
  {
    var rows' := Deactivate(rows, code);
    if id :| id in rows && rows[id].shortCode == other {
      assert rows'[id].shortCode == other;
    }
    if id :| id in rows && rows[id].shortCode == other && rows[id].isActive {
      assert other != code ==> rows'[id].isActive && rows'[id].shortCode == other;
    }
  }

  /** The lookup is deterministic: the unique constraint leaves one candidate. */
  lemma ActiveRowIs(t: Table, id: int)
    requires WellFormed(t) && id in t.rows && t.rows[id].isActive
    ensures ActiveRow(t.rows, t.rows[id].shortCode) == Some(t.rows[id])
  {}

  class PostgresUrlRepository {
    var table: Table

    ghost predicate Valid()
      reads this
    {
      WellFormed(table)
    }

    constructor ()
      ensures Valid() && table == EMPTY_TABLE
    {
      table := EMPTY_TABLE;
    }

    /** One atomic statement: the unique constraint decides, not a separate check. */
    method Insert(code: string, url: NewUrl, createdAt: int) returns (r: Result<UrlRecord, CollisionError>)
      requires Valid()
      modifies this
      ensures Valid()
      ensures (table, r) == TableInsert(old(table), code, url, createdAt)
    {
      InsertKeeps(table, code, url, createdAt);
      var id := table.nextId;
      table := table.(nextId := id + 1);
      if HasRow(table.rows, code) {
        return Err(ShortCodeCollision);
      }
      var row := Row(id, code, url, createdAt);
      table := table.(rows := table.rows[id := row]);
      return Ok(row);
    }

    /** Agrees with `Get`; an insert collides exactly on a code that exists here or is soft-deleted. */
    method Exists(code: string) returns (found: bool)
      requires Valid()
      ensures found <==> ActiveRow(table.rows, code).Some?
      ensures forall url, createdAt :: TableInsert(table, code, url, createdAt).1.Err?
                                  <==> found || (HasRow(table.rows, code) && !IsActive(table.rows, code))
    {
      assert IsActive(table.rows, code) ==> HasRow(table.rows, code);
      return IsActive(table.rows, code);
    }

    method Get(code: string) returns (r: Option<UrlRecord>)
      requires Valid()
      ensures r == ActiveRow(table.rows, code)
    {
      if !IsActive(table.rows, code) {
        return None;
      }
      var id :| id in table.rows && table.rows[id].shortCode == code && table.rows[id].isActive;
      ActiveRowIs(table, id);
      return Some(table.rows[id]);
    }

    /** Soft delete: the row stays and keeps its short code. */
    method Delete(code: string) returns (deleted: bool)
      requires Valid()
      modifies this
      ensures Valid()
      ensures table == old(table).(rows := Deactivate(old(table.rows), code))
      ensures deleted == IsActive(old(table.rows), code)
    {
      DeactivateKeeps(table, code);
      deleted := IsActive(table.rows, code);
      table := table.(rows := map id | id in table.rows ::
        if table.rows[id].shortCode == code && table.rows[id].isActive then table.rows[id].(isActive := false)
        else table.rows[id]);
      assert table.rows == Deactivate(old(table.rows), code);
    }
  }
}
