/** The click_events table of migrations 004 and 005 and `insert_idempotent` on it. */
module ClickEvents {
  import opened Common

  /** A parsed message body. */
  datatype Json =
    | Null
    | Boolean(truth: bool)
    | Number(number: int)
    | Text(text: string)
    | List(items: seq<Json>)
    | Object(fields: map<string, Json>)

  /** The result of the user-agent library, which never raises. */
  datatype ParsedUserAgent = ParsedUserAgent(deviceType: Option<string>, browser: Option<string>, os: Option<string>)

  /** The values bound to the INSERT. */
  datatype Columns = Columns(eventId: Json, urlId: Json, referrer: Json, userAgent: Json, parsed: ParsedUserAgent)

  type Uuid = nat

  /** A stored row; the event key is absent for SQL NULL. */
  datatype ClickRow = ClickRow(eventKey: Option<Uuid>, urlId: int, columns: Columns)

  /** How Postgres coerces the bound values: a row, or an error. */
  type Coercion = Columns -> Option<ClickRow>

  datatype InsertResult = Inserted | Duplicate | Rejected

  predicate HasKey(rows: seq<ClickRow>, key: Uuid) {
    exists i :: 0 <= i < |rows| && rows[i].eventKey == Some(key)
  }

  predicate Conflicts(rows: seq<ClickRow>, row: ClickRow) {
    row.eventKey.Some? && HasKey(rows, row.eventKey.value)
  }

  /** INSERT ... ON CONFLICT (event_id) DO NOTHING for values that form a row. */
  function Commit(rows: seq<ClickRow>, row: ClickRow): seq<ClickRow> {
    if Conflicts(rows, row) then rows else rows + [row]
  }

  /** The statement's result: a conflict is silent, and only a new row is checked against urls. */
  function InsertOutcome(coerce: Coercion, urlIds: set<int>, rows: seq<ClickRow>, columns: Columns): InsertResult {
    match coerce(columns)
    case None => Rejected
    case Some(row) =>
      if Conflicts(rows, row) then Duplicate
      else if row.urlId in urlIds then Inserted
      else Rejected
  }

  /** What goes wrong around the statement: nothing, a failure before it, or one after its commit. */
  datatype DbFault = NoFault | FailsBefore | FailsAfterCommit

  /** The statement raises whatever the infrastructure does. */
  predicate Rejects(coerce: Coercion, urlIds: set<int>, rows: seq<ClickRow>, columns: Columns) {
    InsertOutcome(coerce, urlIds, rows, columns) == Rejected
  }

  /** The table after one attempt. */
  function AfterAttempt(coerce: Coercion, urlIds: set<int>, rows: seq<ClickRow>, columns: Columns, fault: DbFault): seq<ClickRow> {
    if InsertOutcome(coerce, urlIds, rows, columns) == Inserted && fault != FailsBefore
    then Commit(rows, coerce(columns).value) else rows
  }

  function CountFor(rows: seq<ClickRow>, urlId: int): nat {
    if rows == [] then 0
    else CountFor(rows[..|rows| - 1], urlId) + if rows[|rows| - 1].urlId == urlId then 1 else 0
  }

  /** A statement is a duplicate exactly if its key is there, rejected exactly without a row or a URL, and new otherwise. */
  lemma InsertOutcomeIff(coerce: Coercion, urlIds: set<int>, rows: seq<ClickRow>, columns: Columns)
    ensures InsertOutcome(coerce, urlIds, rows, columns) == Duplicate
       <==> coerce(columns).Some? && coerce(columns).value.eventKey.Some?
            && exists i :: 0 <= i < |rows| && rows[i].eventKey == coerce(columns).value.eventKey
    ensures InsertOutcome(coerce, urlIds, rows, columns) == Inserted
       <==> coerce(columns).Some? && coerce(columns).value.urlId in urlIds
            && (coerce(columns).value.eventKey.None?
                || forall i | 0 <= i < |rows| :: rows[i].eventKey != coerce(columns).value.eventKey)
    ensures InsertOutcome(coerce, urlIds, rows, columns) == Inserted
       <==> |AfterAttempt(coerce, urlIds, rows, columns, NoFault)| == |rows| + 1
  {
    if coerce(columns).Some? && coerce(columns).value.eventKey.Some? {
      var key := coerce(columns).value.eventKey;
      if i :| 0 <= i < |rows| && rows[i].eventKey == key {
        assert rows[i].eventKey == Some(key.value);
      }
    }
  }

  /** An attempt adds exactly its coerced row, and does so exactly if the statement is new and is reached. */
  lemma AttemptAdds(coerce: Coercion, urlIds: set<int>, rows: seq<ClickRow>, columns: Columns, fault: DbFault)
    ensures AfterAttempt(coerce, urlIds, rows, columns, fault)
         == if fault != FailsBefore && InsertOutcome(coerce, urlIds, rows, columns) == Inserted
            then rows + [coerce(columns).value] else rows
  {}

  lemma {:induction false} CountIsCardinality(rows: seq<ClickRow>, urlId: int)
    ensures CountFor(rows, urlId) == |set i | 0 <= i < |rows| && rows[i].urlId == urlId|
  {
    var here := set i | 0 <= i < |rows| && rows[i].urlId == urlId;
    if rows != [] {
      var n := |rows| - 1;
      CountIsCardinality(rows[..n], urlId);
      var before := set i | 0 <= i < n && rows[..n][i].urlId == urlId;
      assert here == before + if rows[n].urlId == urlId then {n} else {};
    }
  }

  class PostgresClickEventRepository {
    const coerce: Coercion
    var urlIds: set<int>
    var rows: seq<ClickRow>

    constructor (coerce: Coercion, urlIds: set<int>)
      ensures this.coerce == coerce && this.urlIds == urlIds && rows == []
    {
      this.coerce, this.urlIds, rows := coerce, urlIds, [];
    }

    /** None is an exception; otherwise whether a new row appeared. */
    method InsertIdempotent(columns: Columns, fault: DbFault) returns (inserted: Option<bool>)
      modifies this`rows
      ensures rows == AfterAttempt(coerce, urlIds, old(rows), columns, fault)
      ensures var outcome := InsertOutcome(coerce, urlIds, old(rows), columns);
              inserted == if outcome == Rejected || fault != NoFault then None else Some(outcome == Inserted)
      ensures inserted == Some(true) <==> fault == NoFault && |rows| == |old(rows)| + 1
      ensures inserted == Some(false)
         <==> fault == NoFault && coerce(columns).Some? && coerce(columns).value.eventKey.Some?
              && exists i :: 0 <= i < |old(rows)| && old(rows)[i].eventKey == coerce(columns).value.eventKey
    {
      InsertOutcomeIff(coerce, urlIds, rows, columns);
      if fault == FailsBefore {
        return None;
      }
      var coerced := coerce(columns);
      if coerced.None? {
        return None;
      }
      var row := coerced.value;
      var rowCount := 0;
      if !Conflicts(rows, row) {
        if row.urlId !in urlIds {
          return None;
        }
        rows := rows + [row];
        rowCount := 1;
      }
      return if fault == FailsAfterCommit then None else Some(rowCount > 0);
    }

    /** SELECT count(*): how many positions of the table hold a click of the URL. */
    method GetCountForUrl(urlId: int) returns (count: nat)
      ensures count == |set i | 0 <= i < |rows| && rows[i].urlId == urlId|
      ensures count == CountFor(rows, urlId)
    {
      CountIsCardinality(rows, urlId);
      return CountFor(rows, urlId);
    }
  }

  // ---------------------------------------------------------------- any sequence of committed attempts

  /** The table after a sequence of committed writes, with any repetition and order. */
  function CommitAll(writes: seq<ClickRow>): seq<ClickRow> {
    if writes == [] then []
    else Commit(CommitAll(writes[..|writes| - 1]), writes[|writes| - 1])
  }

  lemma CommitAllSnoc(writes: seq<ClickRow>, row: ClickRow)
    ensures CommitAll(writes + [row]) == Commit(CommitAll(writes), row)
  {
    assert (writes + [row])[..|writes|] == writes;
  }

  /** Equal event keys come with equal rows (one immutable body); rows without a key are free. */
  ghost predicate Consistent(writes: seq<ClickRow>) {
    forall i, j | 0 <= i < |writes| && 0 <= j < |writes| && writes[i].eventKey.Some? && writes[i].eventKey == writes[j].eventKey ::
      writes[i] == writes[j]
  }

  /** The distinct event keys written for one URL. */
  ghost function KeysFor(writes: seq<ClickRow>, urlId: int): set<Uuid> {
    if writes == [] then {}
    else
      var row := writes[|writes| - 1];
      KeysFor(writes[..|writes| - 1], urlId)
      + if row.eventKey.Some? && row.urlId == urlId then {row.eventKey.value} else {}
  }

  /** The writes for one URL that carry no event key. */
  function KeylessFor(writes: seq<ClickRow>, urlId: int): nat {
    if writes == [] then 0
    else
      var row := writes[|writes| - 1];
      KeylessFor(writes[..|writes| - 1], urlId) + if row.eventKey.None? && row.urlId == urlId then 1 else 0
  }

  lemma {:induction false} NoKeyless(writes: seq<ClickRow>, urlId: int)
    ensures KeylessFor(writes, urlId) == 0
       <==> forall i | 0 <= i < |writes| && writes[i].urlId == urlId :: writes[i].eventKey.Some?
  {
    if writes != [] {
      var n := |writes| - 1;
      NoKeyless(writes[..n], urlId);
      assert forall i | 0 <= i < n :: writes[..n][i] == writes[i];
    }
  }

  lemma {:induction false} KeysForMember(writes: seq<ClickRow>, urlId: int, key: Uuid)
    ensures key in KeysFor(writes, urlId)
       <==> exists i :: 0 <= i < |writes| && writes[i].eventKey == Some(key) && writes[i].urlId == urlId
  {
    if writes != [] {
      var n := |writes| - 1;
      KeysForMember(writes[..n], urlId, key);
      assert forall i | 0 <= i < n :: writes[..n][i] == writes[i];
      if key in KeysFor(writes, urlId) && key !in KeysFor(writes[..n], urlId) {
        assert writes[n].eventKey == Some(key) && writes[n].urlId == urlId;
      }
    }
  }

  /** A key is in the table as soon as some write carried it. */
  lemma {:induction false} TableKeysAreWritten(writes: seq<ClickRow>, key: Uuid)
    ensures HasKey(CommitAll(writes), key) <==> HasKey(writes, key)
  {
    if writes != [] {
      var n := |writes| - 1;
      var init, rows := writes[..n], CommitAll(writes[..n]);
      TableKeysAreWritten(init, key);
      HasKeySnoc(init, writes[n], key);
      HasKeySnoc(rows, writes[n], key);
      assert writes == init + [writes[n]];
    }
  }

  lemma HasKeySnoc(rows: seq<ClickRow>, row: ClickRow, key: Uuid)
    ensures HasKey(rows + [row], key) <==> HasKey(rows, key) || row.eventKey == Some(key)
  {
    var longer := rows + [row];
    assert longer[|rows|] == row;
    assert forall i | 0 <= i < |rows| :: longer[i] == rows[i];
  }

  /** The table holds exactly the written rows, keyless ones included. */
  lemma {:induction false} TableRowsAreWrites(writes: seq<ClickRow>, row: ClickRow)
    requires Consistent(writes)
    ensures row in CommitAll(writes) <==> row in writes
  {
    if writes != [] {
      var n := |writes| - 1;
      var rows := CommitAll(writes[..n]);
      TableRowsAreWrites(writes[..n], row);
      assert writes == writes[..n] + [writes[n]];
      if Conflicts(rows, writes[n]) {
        var i :| 0 <= i < |rows| && rows[i].eventKey == writes[n].eventKey;
        TableRowsAreWrites(writes[..n], rows[i]);
        assert rows[i] in writes;
      }
    }
  }

  /** Write i is the first with its key, or has none: these are the writes that add a row. */
  ghost predicate AddsRow(writes: seq<ClickRow>, i: nat)
    requires i < |writes|
  {
    writes[i].eventKey.None? || !HasKey(writes[..i], writes[i].eventKey.value)
  }

  ghost function RowsAddedFor(writes: seq<ClickRow>, urlId: int): set<nat> {
    set i: nat | i < |writes| && AddsRow(writes, i) && writes[i].urlId == urlId
  }

  /** For any writes whatever: a URL's count is the number of its writes that were keyless or first with their key. */
  lemma {:induction false} CountIsFirstWrites(writes: seq<ClickRow>, urlId: int)
    ensures CountFor(CommitAll(writes), urlId) == |RowsAddedFor(writes, urlId)|
  {
    if writes == [] {
      assert RowsAddedFor(writes, urlId) == {};
    } else {
      var n := |writes| - 1;
      var init, row := writes[..n], writes[n];
      var rows := CommitAll(init);
      CountIsFirstWrites(init, urlId);
      RowsAddedSnoc(writes, urlId);
      CountSnoc(rows, row, urlId);
      assert AddsRow(writes, n) <==> !Conflicts(rows, row) by {
        if row.eventKey.Some? {
          TableKeysAreWritten(init, row.eventKey.value);
        }
      }
      assert n !in RowsAddedFor(init, urlId);
      assert CommitAll(writes) == if AddsRow(writes, n) then rows + [row] else rows;
    }
  }

  lemma RowsAddedSnoc(writes: seq<ClickRow>, urlId: int)
    requires writes != []
    ensures var n := |writes| - 1;
            RowsAddedFor(writes, urlId)
            == RowsAddedFor(writes[..n], urlId) + if AddsRow(writes, n) && writes[n].urlId == urlId then {n} else {}
  {
    var init := writes[..|writes| - 1];
    forall i: nat | i < |init| ensures init[i] == writes[i] && (AddsRow(init, i) <==> AddsRow(writes, i)) {
      assert init[..i] == writes[..i];
    }
  }

  lemma CountSnoc(rows: seq<ClickRow>, row: ClickRow, urlId: int)
    ensures CountFor(rows + [row], urlId) == CountFor(rows, urlId) + if row.urlId == urlId then 1 else 0
  {
    assert (rows + [row])[..|rows|] == rows;
  }

  /** With consistent keys, a URL's count is its number of distinct events plus its number of keyless writes. */
  lemma {:induction false} CountIsDistinctEvents(writes: seq<ClickRow>, urlId: int)
    requires Consistent(writes)
    ensures CountFor(CommitAll(writes), urlId) == |KeysFor(writes, urlId)| + KeylessFor(writes, urlId)
  {
    if writes != [] {
      var n := |writes| - 1;
      var init, row := writes[..n], writes[n];
      var rows := CommitAll(init);
      CountIsDistinctEvents(init, urlId);
      CountSnoc(rows, row, urlId);
      if row.eventKey.Some? && row.urlId == urlId {
        TableKeysAreWritten(init, row.eventKey.value);
        RepeatedKey(writes, urlId);
        assert KeysFor(writes, urlId) == KeysFor(init, urlId) + {row.eventKey.value};
      } else {
        assert KeysFor(writes, urlId) == KeysFor(init, urlId);
      }
      assert CommitAll(writes) == Commit(rows, row);
    }
  }

  /** The last write's key is new for its URL exactly if it is new altogether. */
  lemma RepeatedKey(writes: seq<ClickRow>, urlId: int)
    requires writes != [] && Consistent(writes)
    requires writes[|writes| - 1].eventKey.Some? && writes[|writes| - 1].urlId == urlId
    ensures var n := |writes| - 1;
            writes[n].eventKey.value in KeysFor(writes[..n], urlId) <==> HasKey(writes[..n], writes[n].eventKey.value)
  {
    var n := |writes| - 1;
    KeysForMember(writes[..n], urlId, writes[n].eventKey.value);
    assert forall i | 0 <= i < n :: writes[..n][i] == writes[i];
  }

  /** Same set of writes, any order and multiplicity: same rows; and same counts exactly if as many were keyless. */
  lemma OrderAndRepetitionDoNotMatter(writes: seq<ClickRow>, writes': seq<ClickRow>, urlId: int)
    requires Consistent(writes) && Consistent(writes')
    requires forall row :: row in writes <==> row in writes'
    ensures forall row :: row in CommitAll(writes) <==> row in CommitAll(writes')
    ensures CountFor(CommitAll(writes), urlId) == CountFor(CommitAll(writes'), urlId)
       <==> KeylessFor(writes, urlId) == KeylessFor(writes', urlId)
  {
    forall row ensures row in CommitAll(writes) <==> row in CommitAll(writes') {
      TableRowsAreWrites(writes, row);
      TableRowsAreWrites(writes', row);
    }
    forall key ensures key in KeysFor(writes, urlId) <==> key in KeysFor(writes', urlId) {
      SameKeys(writes, writes', urlId, key);
      SameKeys(writes', writes, urlId, key);
    }
    assert KeysFor(writes, urlId) == KeysFor(writes', urlId);
    CountIsDistinctEvents(writes, urlId);
    CountIsDistinctEvents(writes', urlId);
  }

  lemma SameKeys(writes: seq<ClickRow>, writes': seq<ClickRow>, urlId: int, key: Uuid)
    requires forall row :: row in writes ==> row in writes'
    ensures key in KeysFor(writes, urlId) ==> key in KeysFor(writes', urlId)
  {
    KeysForMember(writes, urlId, key);
    KeysForMember(writes', urlId, key);
    if key in KeysFor(writes, urlId) {
      var i :| 0 <= i < |writes| && writes[i].eventKey == Some(key) && writes[i].urlId == urlId;
      assert writes[i] in writes';
    }
  }

  /** A redelivered write is absorbed exactly when its event id is not NULL. */
  lemma RedeliveryIsAbsorbedIff(rows: seq<ClickRow>, row: ClickRow)
    ensures Commit(Commit(rows, row), row) == Commit(rows, row) <==> row.eventKey.Some?
  {
    var once := Commit(rows, row);
    if row.eventKey.Some? && !Conflicts(rows, row) {
      assert once[|rows|].eventKey == Some(row.eventKey.value);
    } else if row.eventKey.None? {
      assert |Commit(once, row)| == |once| + 1;
    }
  }
}
