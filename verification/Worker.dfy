/** `handle_delivery` of `app/workers/worker.py`: bounded retry, then exactly one settlement. */
module Workers {
  import opened Common
  import opened ClickEvents
  import opened EventProcessing

  const MAX_RETRIES: nat := 3

  datatype Settlement = Ack(tag: nat) | Nack(tag: nat, requeue: bool)

  /** A consumer channel: what it told the broker, and whether the connection still works. */
  class Channel {
    var settlements: seq<Settlement>
    const alive: bool

    constructor (alive: bool)
      ensures this.alive == alive && settlements == []
    {
      this.alive, settlements := alive, [];
    }

    /** Raises (false) on a dead channel. */
    method Settle(settlement: Settlement) returns (sent: bool)
      modifies this
      ensures sent == alive
      ensures settlements == if alive then old(settlements) + [settlement] else old(settlements)
    {
      if alive {
        settlements := settlements + [settlement];
      }
      return alive;
    }
  }

  datatype HandleResult = Returned | ConnectionLost | ExceptionEscaped

  /** The first attempt from n on that succeeds, or one past the last allowed attempt. */
  function FirstSuccess(rejected: bool, faults: nat -> DbFault, n: nat): (k: nat)
    requires 1 <= n <= MAX_RETRIES + 1
    ensures n <= k <= MAX_RETRIES + 1
    ensures forall i | n <= i < k :: rejected || faults(i) != NoFault
    ensures k <= MAX_RETRIES ==> !rejected && faults(k) == NoFault
    decreases MAX_RETRIES + 1 - n
  {
    if n > MAX_RETRIES || (!rejected && faults(n) == NoFault) then n else FirstSuccess(rejected, faults, n + 1)
  }

  /** The table after the first n attempts of a delivery. */
  function AfterAttempts(coerce: Coercion, urlIds: set<int>, rows: seq<ClickRow>, columns: Columns, faults: nat -> DbFault, n: nat): seq<ClickRow> {
    if n == 0 then rows
    else AfterAttempt(coerce, urlIds, AfterAttempts(coerce, urlIds, rows, columns, faults, n - 1), columns, faults(n))
  }

  /** Attempts on one event never change whether its statement raises. */
  lemma {:induction false} RejectionIsStable(
    coerce: Coercion, urlIds: set<int>, rows: seq<ClickRow>, columns: Columns, faults: nat -> DbFault, n: nat)
    ensures Rejects(coerce, urlIds, AfterAttempts(coerce, urlIds, rows, columns, faults, n), columns)
         == Rejects(coerce, urlIds, rows, columns)
  {
    if n > 0 {
      RejectionIsStable(coerce, urlIds, rows, columns, faults, n - 1);
    }
  }

  /** Whether the event's statement raises, for bodies that get that far. */
  predicate RejectedBody(checked: Checked, coerce: Coercion, urlIds: set<int>, rows: seq<ClickRow>) {
    checked.Event? && Rejects(coerce, urlIds, rows, checked.columns)
  }

  /** The number of `process` calls of a delivery. */
  function Attempts(checked: Checked, rejected: bool, faults: nat -> DbFault): nat {
    if !checked.Event? then 1
    else
      var k := FirstSuccess(rejected, faults, 1);
      if k <= MAX_RETRIES then k else MAX_RETRIES
  }

  /** What the broker is told: an ack if some attempt succeeds, a dead-lettering nack otherwise. */
  function Verdict(checked: Checked, rejected: bool, faults: nat -> DbFault, tag: nat): seq<Settlement> {
    match checked
    case Escapes => []
    case Malformed => [Nack(tag, false)]
    case Event(_) => if FirstSuccess(rejected, faults, 1) <= MAX_RETRIES then [Ack(tag)] else [Nack(tag, false)]
  }

  /** Settle and return, or raise on a dead channel. */
  method SettleAndReturn(channel: Channel, settlement: Settlement) returns (result: HandleResult)
    modifies channel
    ensures channel.settlements == old(channel.settlements) + if channel.alive then [settlement] else []
    ensures result == if channel.alive then Returned else ConnectionLost
  {
    var sent := channel.Settle(settlement);
    return if sent then Returned else ConnectionLost;
  }

  /**
   * `handle_delivery`, where `faults(n)` is what the infrastructure does to attempt n: bounded
   * attempts, then one settlement, unless the channel is dead or another exception escapes.
   */
  method HandleDelivery(channel: Channel, tag: nat, body: Body, processor: ClickEventProcessor, faults: nat -> DbFault)
    returns (result: HandleResult, attempts: nat)
    modifies channel, processor.repository`rows
    ensures var repository, checked := processor.repository, Check(processor.parse, body);
            var rejected := RejectedBody(checked, repository.coerce, repository.urlIds, old(repository.rows));
            && attempts == Attempts(checked, rejected, faults) <= MAX_RETRIES
            && result == (if checked.Escapes? then ExceptionEscaped else if channel.alive then Returned else ConnectionLost)
            && channel.settlements
               == old(channel.settlements) + (if channel.alive then Verdict(checked, rejected, faults, tag) else [])
            && repository.rows
               == if checked.Event?
                  then AfterAttempts(repository.coerce, repository.urlIds, old(repository.rows), checked.columns, faults, attempts)
                  else old(repository.rows)
  {
    attempts := 0;
    var repository := processor.repository;
    ghost var checked := Check(processor.parse, body);
    ghost var coerce, urlIds, rows := repository.coerce, repository.urlIds, repository.rows;
    ghost var rejected := RejectedBody(checked, coerce, urlIds, rows);
    ghost var success := FirstSuccess(rejected, faults, 1);
    while true
      invariant 0 <= attempts < MAX_RETRIES
      invariant channel.settlements == old(channel.settlements)
      invariant attempts > 0 ==> checked.Event?
      invariant repository.rows == if checked.Event? then AfterAttempts(coerce, urlIds, rows, checked.columns, faults, attempts) else rows
      invariant checked.Event? ==> attempts < success
      decreases MAX_RETRIES - attempts
    {
      if checked.Event? {
        RejectionIsStable(coerce, urlIds, rows, checked.columns, faults, attempts);
      }
      attempts := attempts + 1;
      var outcome := processor.Process(body, faults(attempts));
      match outcome {
        case Processed =>
          result := SettleAndReturn(channel, Ack(tag));
          return;
        case MalformedMessage =>
          result := SettleAndReturn(channel, Nack(tag, false));
          return;
        case ProcessingFailed =>
          if attempts >= MAX_RETRIES {
            result := SettleAndReturn(channel, Nack(tag, false));
            return;
          }
        case OtherException =>
          result := ExceptionEscaped;
          return;
      }
    }
  }

  /** Ack if and only if one of three attempts succeeds; nack if and only if malformed or all three fail. */
  lemma SettledByAttempts(checked: Checked, rejected: bool, faults: nat -> DbFault, tag: nat)
    ensures Verdict(checked, rejected, faults, tag) == [Ack(tag)]
       <==> checked.Event? && !rejected && exists n: nat :: 1 <= n <= 3 && faults(n) == NoFault
    ensures Verdict(checked, rejected, faults, tag) == [Nack(tag, false)]
       <==> checked.Malformed? || (checked.Event? && forall n: nat | 1 <= n <= 3 :: rejected || faults(n) != NoFault)
    ensures 1 <= Attempts(checked, rejected, faults) <= 3
    ensures forall n: nat | 1 <= n < Attempts(checked, rejected, faults) :: rejected || faults(n) != NoFault
    ensures !checked.Event? ==> Attempts(checked, rejected, faults) == 1
    ensures checked.Event? && Attempts(checked, rejected, faults) < 3 ==>
              !rejected && faults(Attempts(checked, rejected, faults)) == NoFault
    ensures Verdict(checked, rejected, faults, tag) == [] <==> checked.Escapes?
  {}

  // ---------------------------------------------------------------- what a delivery leaves behind

  /** The event is in the table: its row, or an earlier row with its key. */
  ghost predicate IsRecorded(coerce: Coercion, rows: seq<ClickRow>, columns: Columns) {
    coerce(columns).Some? && (coerce(columns).value in rows || Conflicts(rows, coerce(columns).value))
  }

  /** An attempt that reaches a commit leaves the event in the table. */
  lemma CommitRecords(coerce: Coercion, urlIds: set<int>, rows: seq<ClickRow>, columns: Columns, fault: DbFault)
    requires !Rejects(coerce, urlIds, rows, columns) && fault != FailsBefore
    ensures coerce(columns).Some?
    ensures AfterAttempt(coerce, urlIds, rows, columns, fault) == Commit(rows, coerce(columns).value)
    ensures IsRecorded(coerce, AfterAttempt(coerce, urlIds, rows, columns, fault), columns)
    ensures Conflicts(rows, coerce(columns).value) || coerce(columns).value.urlId in urlIds
  {
    var row := coerce(columns).value;
    if !Conflicts(rows, row) {
      assert (rows + [row])[|rows|] == row;
    }
  }

  /** An acknowledged event is in the table. */
  lemma AckedIsRecorded(coerce: Coercion, urlIds: set<int>, rows: seq<ClickRow>, columns: Columns, faults: nat -> DbFault, tag: nat)
    requires Verdict(Event(columns), Rejects(coerce, urlIds, rows, columns), faults, tag) == [Ack(tag)]
    ensures var n := Attempts(Event(columns), Rejects(coerce, urlIds, rows, columns), faults);
            IsRecorded(coerce, AfterAttempts(coerce, urlIds, rows, columns, faults, n), columns)
  {
    var n := Attempts(Event(columns), Rejects(coerce, urlIds, rows, columns), faults);
    RejectionIsStable(coerce, urlIds, rows, columns, faults, n - 1);
    CommitRecords(coerce, urlIds, AfterAttempts(coerce, urlIds, rows, columns, faults, n - 1), columns, faults(n));
  }

  /** A delivery keeps all rows and adds at most one for an event with a key. */
  lemma {:induction false} AtMostOneRowPerEvent(
    coerce: Coercion, urlIds: set<int>, rows: seq<ClickRow>, columns: Columns, faults: nat -> DbFault, n: nat)
    requires coerce(columns).Some? && coerce(columns).value.eventKey.Some?
    ensures var rows' := AfterAttempts(coerce, urlIds, rows, columns, faults, n);
            rows' == rows || (!Conflicts(rows, coerce(columns).value) && rows' == rows + [coerce(columns).value])
  {
    if n > 0 {
      AtMostOneRowPerEvent(coerce, urlIds, rows, columns, faults, n - 1);
      var row := coerce(columns).value;
      assert (rows + [row])[|rows|].eventKey == row.eventKey;
    }
  }

  /** How many of the first n attempts reach a commit, reported or not. */
  function Committing(faults: nat -> DbFault, n: nat): nat {
    if n == 0 then 0 else Committing(faults, n - 1) + if faults(n) == FailsBefore then 0 else 1
  }

  /** Without an event key nothing is absorbed: every committing attempt adds its row again. */
  lemma {:induction false} KeylessAttemptsAddRows(
    coerce: Coercion, urlIds: set<int>, rows: seq<ClickRow>, columns: Columns, faults: nat -> DbFault, n: nat)
    requires coerce(columns).Some? && coerce(columns).value.eventKey.None? && coerce(columns).value.urlId in urlIds
    ensures AfterAttempts(coerce, urlIds, rows, columns, faults, n)
         == rows + seq(Committing(faults, n), _ => coerce(columns).value)
  {
    if n > 0 {
      KeylessAttemptsAddRows(coerce, urlIds, rows, columns, faults, n - 1);
    }
  }

  /** Postgres stores a JSON null as SQL NULL. */
  ghost predicate NullKept(coerce: Coercion) {
    forall columns: Columns | columns.eventId.Null? && coerce(columns).Some? :: coerce(columns).value.eventKey.None?
  }

  /** A body with a null event id is processed as an event, and one unreported commit records its click twice. */
  lemma NullEventIdIsCountedTwice(
    parse: UserAgentParser, coerce: Coercion, urlIds: set<int>, rows: seq<ClickRow>, fields: map<string, Json>,
    faults: nat -> DbFault, tag: nat) returns (columns: Columns)
    requires "event_id" in fields && fields["event_id"] == Null && "url_id" in fields && NullKept(coerce)
    requires faults(1) == FailsAfterCommit && faults(2) == NoFault
    ensures Check(parse, Parsed(Object(fields))) == Event(columns)
    ensures coerce(columns).Some? && coerce(columns).value.urlId in urlIds ==>
              var row, rejected := coerce(columns).value, Rejects(coerce, urlIds, rows, columns);
              && Verdict(Event(columns), rejected, faults, tag) == [Ack(tag)]
              && AfterAttempts(coerce, urlIds, rows, columns, faults, Attempts(Event(columns), rejected, faults)) == rows + [row, row]
              && CountFor(rows + [row, row], row.urlId) == CountFor(rows, row.urlId) + 2
  {
    columns := ColumnsOf(parse, fields);
    if coerce(columns).Some? && coerce(columns).value.urlId in urlIds {
      var row := coerce(columns).value;
      assert Committing(faults, 1) == 1;
      assert Committing(faults, 2) == 2;
      KeylessAttemptsAddRows(coerce, urlIds, rows, columns, faults, 2);
      assert seq(2, _ => row) == [row, row];
      CountSnoc(rows, row, row.urlId);
      CountSnoc(rows + [row], row, row.urlId);
      assert rows + [row] + [row] == rows + [row, row];
    }
  }

  /** A dead-lettered event may be in the table all the same: the commit was not reported. */
  lemma DeadLetteredMayBeRecorded(coerce: Coercion, urlIds: set<int>, columns: Columns, tag: nat)
    requires coerce(columns).Some? && coerce(columns).value.urlId in urlIds
    ensures var faults := (n: nat) => FailsAfterCommit;
            && Verdict(Event(columns), Rejects(coerce, urlIds, [], columns), faults, tag) == [Nack(tag, false)]
            && IsRecorded(coerce, AfterAttempts(coerce, urlIds, [], columns, faults, MAX_RETRIES), columns)
  {}

}
