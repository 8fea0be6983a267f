/** When the dictionary repository and the Postgres repository answer alike. */
module RepositoryEquivalence {
  import opened Common
  import opened UrlRecords
  import opened PostgresUrls
  import opened InMemoryUrls

  datatype Op =
    | Insert(code: string, url: NewUrl, createdAt: int)
    | Exists(code: string)
    | Get(code: string)
    | Delete(code: string)

  datatype Reply =
    | Inserted(record: UrlRecord)
    | Collision
    | Flag(value: bool)
    | Found(found: Option<UrlRecord>)

  function ReplyOf(r: Result<UrlRecord, CollisionError>): Reply {
    match r
    case Ok(record) => Inserted(record)
    case Err(_) => Collision
  }

  ghost function PostgresApply(t: Table, op: Op): (Table, Reply) {
    match op
    case Insert(code, url, at) => var (t', r) := TableInsert(t, code, url, at); (t', ReplyOf(r))
    case Exists(code) => (t, Flag(IsActive(t.rows, code)))
    case Get(code) => (t, Found(ActiveRow(t.rows, code)))
    case Delete(code) => (t.(rows := Deactivate(t.rows, code)), Flag(IsActive(t.rows, code)))
  }

  ghost function MemoryApply(m: Memory, op: Op): (Memory, Reply) {
    match op
    case Insert(code, url, at) => var (m', r) := MemoryInsert(m, code, url, at); (m', ReplyOf(r))
    case Exists(code) => (m, Flag(code in m.store))
    case Get(code) => (m, Found(MemoryGet(m, code)))
    case Delete(code) => (MemoryDelete(m, code), Flag(code in m.store))
  }

  ghost function PostgresAfter(ops: seq<Op>): Table {
    if ops == [] then EMPTY_TABLE
    else PostgresApply(PostgresAfter(ops[..|ops| - 1]), ops[|ops| - 1]).0
  }

  ghost function MemoryAfter(ops: seq<Op>): Memory {
    if ops == [] then EMPTY_MEMORY
    else MemoryApply(MemoryAfter(ops[..|ops| - 1]), ops[|ops| - 1]).0
  }

  ghost function PostgresReply(ops: seq<Op>, i: nat): Reply
    requires i < |ops|
  {
    PostgresApply(PostgresAfter(ops[..i]), ops[i]).1
  }

  ghost function MemoryReply(ops: seq<Op>, i: nat): Reply
    requires i < |ops|
  {
    MemoryApply(MemoryAfter(ops[..i]), ops[i]).1
  }

  // ---------------------------------------------------------------- agreement

  /** An order-preserving renaming of dictionary ids to Postgres ids. */
  ghost predicate Monotone(renaming: map<int, int>) {
    forall a, b | a in renaming && b in renaming && a < b :: renaming[a] < renaming[b]
  }

  ghost predicate SameRecord(renaming: map<int, int>, memory: UrlRecord, postgres: UrlRecord) {
    memory.id in renaming && postgres == memory.(id := renaming[memory.id])
  }

  ghost predicate SameReply(renaming: map<int, int>, memory: Reply, postgres: Reply) {
    match (memory, postgres)
    case (Inserted(r), Inserted(q)) => SameRecord(renaming, r, q)
    case (Found(Some(r)), Found(Some(q))) => SameRecord(renaming, r, q)
    case (_, _) => memory == postgres && !memory.Inserted? && (memory.Found? ==> memory.found.None?)
  }

  ghost predicate AgreeUnder(renaming: map<int, int>, ops: seq<Op>) {
    Monotone(renaming) && forall i | 0 <= i < |ops| :: SameReply(renaming, MemoryReply(ops, i), PostgresReply(ops, i))
  }

  ghost predicate Agree(ops: seq<Op>) {
    exists renaming :: AgreeUnder(renaming, ops)
  }

  // ---------------------------------------------------------------- the caller's condition

  ghost predicate WasInserted(ops: seq<Op>, code: string) {
    exists i :: 0 <= i < |ops| && ops[i].Insert? && ops[i].code == code
  }

  /** A code was inserted and later deleted. */
  ghost predicate Freed(ops: seq<Op>, code: string) {
    exists j :: 0 <= j < |ops| && ops[j] == Delete(code) && WasInserted(ops[..j], code)
  }

  ghost predicate NeverReinserts(ops: seq<Op>) {
    forall k | 0 <= k < |ops| && ops[k].Insert? :: !Freed(ops[..k], ops[k].code)
  }

  // ---------------------------------------------------------------- simulation

  ghost predicate StoreLinked(m: Memory, t: Table, renaming: map<int, int>) {
    forall code | code in m.store ::
      && m.store[code].shortCode == code && m.store[code].isActive
      && m.store[code].id in renaming
      && renaming[m.store[code].id] in t.rows
      && SameRecord(renaming, m.store[code], t.rows[renaming[m.store[code].id]])
  }

  /** Codes with rows are the inserted ones; those without an active row are the freed ones. */
  ghost predicate Ledger(ops: seq<Op>, rows: map<int, UrlRecord>) {
    && (forall code :: HasRow(rows, code) <==> WasInserted(ops, code))
    && (forall code :: Freed(ops, code) <==> HasRow(rows, code) && !IsActive(rows, code))
  }

  /** The dictionary holds exactly the active rows; inactive rows are exactly the freed codes. */
  ghost predicate Linked(ops: seq<Op>, m: Memory, t: Table, renaming: map<int, int>) {
    && WellFormed(t)
    && Monotone(renaming)
    && (forall a | a in renaming :: a < m.nextId && renaming[a] < t.nextId)
    && StoreLinked(m, t, renaming)
    && (forall id | id in t.rows && t.rows[id].isActive :: t.rows[id].shortCode in m.store)
    && Ledger(ops, t.rows)
  }

  lemma FreedSnoc(ops: seq<Op>, op: Op, code: string)
    ensures WasInserted(ops + [op], code) <==> WasInserted(ops, code) || (op.Insert? && op.code == code)
    ensures Freed(ops + [op], code) <==> Freed(ops, code) || (op == Delete(code) && WasInserted(ops, code))
  {
    var all := ops + [op];
    assert forall j | 0 <= j <= |ops| :: all[..j] == ops[..j];
    assert ops[..|ops|] == ops;
    if WasInserted(ops, code) {
      var i :| 0 <= i < |ops| && ops[i].Insert? && ops[i].code == code;
      assert all[i].Insert?;
    }
    if Freed(ops, code) {
      var j :| 0 <= j < |ops| && ops[j] == Delete(code) && WasInserted(ops[..j], code);
      assert all[j] == Delete(code);
    }
    assert all[|ops|] == op;
  }

  lemma InsertLedger(ops: seq<Op>, t: Table, op: Op)
    requires WellFormed(t) && Ledger(ops, t.rows) && op.Insert? && !Freed(ops, op.code)
    ensures Ledger(ops + [op], PostgresApply(t, op).0.rows)
  {
    var rows' := PostgresApply(t, op).0.rows;
    forall code ensures (HasRow(rows', code) <==> WasInserted(ops + [op], code))
                     && (Freed(ops + [op], code) <==> HasRow(rows', code) && !IsActive(rows', code)) {
      FreedSnoc(ops, op, code);
      if !HasRow(t.rows, op.code) {
        InsertPresence(t, op.code, op.url, op.createdAt, code);
      }
    }
  }

  lemma DeleteLedger(ops: seq<Op>, t: Table, op: Op)
    requires Ledger(ops, t.rows) && op.Delete?
    ensures Ledger(ops + [op], PostgresApply(t, op).0.rows)
  {
    var rows' := PostgresApply(t, op).0.rows;
    forall code ensures (HasRow(rows', code) <==> WasInserted(ops + [op], code))
                     && (Freed(ops + [op], code) <==> HasRow(rows', code) && !IsActive(rows', code)) {
      FreedSnoc(ops, op, code);
      DeactivatePresence(t.rows, op.code, code);
    }
  }

  lemma InsertLinked(ops: seq<Op>, m: Memory, t: Table, renaming: map<int, int>, op: Op) returns (renaming': map<int, int>)
    requires Linked(ops, m, t, renaming) && op.Insert? && !Freed(ops, op.code)
    ensures renaming' == renaming || renaming' == renaming[m.nextId := t.nextId]
    ensures Linked(ops + [op], MemoryApply(m, op).0, PostgresApply(t, op).0, renaming')
    ensures SameReply(renaming', MemoryApply(m, op).1, PostgresApply(t, op).1)
  {
    InsertKeeps(t, op.code, op.url, op.createdAt);
    InsertLedger(ops, t, op);
    StoreIsActive(m, t, renaming, op.code);
    assert op.code in m.store <==> HasRow(t.rows, op.code);
    renaming' := if op.code in m.store then renaming else renaming[m.nextId := t.nextId];
  }

  lemma DeleteLinked(ops: seq<Op>, m: Memory, t: Table, renaming: map<int, int>, op: Op)
    requires Linked(ops, m, t, renaming) && op.Delete?
    ensures Linked(ops + [op], MemoryApply(m, op).0, PostgresApply(t, op).0, renaming)
    ensures SameReply(renaming, MemoryApply(m, op).1, PostgresApply(t, op).1)
  {
    DeactivateKeeps(t, op.code);
    DeleteLedger(ops, t, op);
    StoreIsActive(m, t, renaming, op.code);
  }

  lemma StoreIsActive(m: Memory, t: Table, renaming: map<int, int>, code: string)
    requires StoreLinked(m, t, renaming)
    requires forall id | id in t.rows && t.rows[id].isActive :: t.rows[id].shortCode in m.store
    ensures code in m.store <==> IsActive(t.rows, code)
  {}

  lemma ReadLinked(ops: seq<Op>, m: Memory, t: Table, renaming: map<int, int>, op: Op)
    requires Linked(ops, m, t, renaming) && (op.Get? || op.Exists?)
    ensures Linked(ops + [op], m, t, renaming)
    ensures SameReply(renaming, MemoryApply(m, op).1, PostgresApply(t, op).1)
  {
    forall code ensures (WasInserted(ops + [op], code) <==> WasInserted(ops, code))
                     && (Freed(ops + [op], code) <==> Freed(ops, code)) {
      FreedSnoc(ops, op, code);
    }
    StoreIsActive(m, t, renaming, op.code);
    if op.code in m.store {
      ActiveRowIs(t, renaming[m.store[op.code].id]);
    }
  }

  lemma SameReplyExtends(small: map<int, int>, a: int, b: int, memory: Reply, postgres: Reply)
    requires SameReply(small, memory, postgres) && a !in small
    ensures SameReply(small[a := b], memory, postgres)
  {}

  lemma NeverReinsertsPrefix(ops: seq<Op>, n: nat)
    requires NeverReinserts(ops) && n <= |ops|
    ensures NeverReinserts(ops[..n])
  {
    forall k | 0 <= k < n && ops[..n][k].Insert? ensures !Freed(ops[..n][..k], ops[..n][k].code) {
      assert ops[..n][..k] == ops[..k];
    }
  }

  lemma ReplyPrefix(ops: seq<Op>, n: nat, i: nat)
    requires i < n <= |ops|
    ensures MemoryReply(ops[..n], i) == MemoryReply(ops, i) && PostgresReply(ops[..n], i) == PostgresReply(ops, i)
  {
    assert ops[..n][..i] == ops[..i];
  }

  /** Forward simulation: without re-insertion the repositories stay linked and answer alike. */
  lemma {:induction false} StaysLinked(ops: seq<Op>) returns (renaming: map<int, int>)
    requires NeverReinserts(ops)
    ensures Linked(ops, MemoryAfter(ops), PostgresAfter(ops), renaming)
    ensures AgreeUnder(renaming, ops)
  {
    if ops == [] {
      return map[];
    }
    var n := |ops| - 1;
    var init, op := ops[..n], ops[n];
    NeverReinsertsPrefix(ops, n);
    var before := StaysLinked(init);
    assert init + [op] == ops;
    renaming := before;
    var m, t := MemoryAfter(init), PostgresAfter(init);
    match op {
      case Insert(_, _, _) => renaming := InsertLinked(init, m, t, before, op);
      case Delete(_) => DeleteLinked(init, m, t, before, op);
      case _ => ReadLinked(init, m, t, before, op);
    }
    forall i | 0 <= i < |ops| ensures SameReply(renaming, MemoryReply(ops, i), PostgresReply(ops, i)) {
      if i < n {
        ReplyPrefix(ops, n, i);
        assert SameReply(before, MemoryReply(init, i), PostgresReply(init, i));
        if renaming != before {
          SameReplyExtends(before, m.nextId, t.nextId, MemoryReply(ops, i), PostgresReply(ops, i));
        }
      }
    }
  }

  /** Re-inserting a freed code separates them: the dictionary accepts, Postgres collides. */
  lemma ReinsertionSeparates(ops: seq<Op>, k: nat)
    requires k < |ops| && ops[k].Insert? && Freed(ops[..k], ops[k].code) && NeverReinserts(ops[..k])
    ensures MemoryReply(ops, k).Inserted? && PostgresReply(ops, k) == Collision
  {
    var renaming := StaysLinked(ops[..k]);
    StoreIsActive(MemoryAfter(ops[..k]), PostgresAfter(ops[..k]), renaming, ops[k].code);
  }

  lemma {:induction false} FirstReinsertion(ops: seq<Op>) returns (k: nat)
    requires !NeverReinserts(ops)
    ensures k < |ops| && ops[k].Insert? && Freed(ops[..k], ops[k].code) && NeverReinserts(ops[..k])
  {
    var n := |ops| - 1;
    assert forall j | 0 <= j < n :: ops[..n][j] == ops[j] && ops[..n][..j] == ops[..j];
    if NeverReinserts(ops[..n]) {
      return n;
    }
    k := FirstReinsertion(ops[..n]);
  }

  /** The two repositories are interchangeable exactly on traces that never re-insert a freed code. */
  lemma RepositoriesAgreeIff(ops: seq<Op>)
    ensures Agree(ops) <==> NeverReinserts(ops)
  {
    if NeverReinserts(ops) {
      var renaming := StaysLinked(ops);
    } else {
      var k := FirstReinsertion(ops);
      ReinsertionSeparates(ops, k);
      forall renaming ensures !AgreeUnder(renaming, ops) {
        assert !SameReply(renaming, MemoryReply(ops, k), PostgresReply(ops, k));
      }
    }
  }
}
