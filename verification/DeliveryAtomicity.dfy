/** A worker's attempts, run without interruption, are one `handle_delivery`. */
module DeliveryAtomicity {
  import opened Common
  import opened ClickEvents
  import opened EventProcessing
  import opened Workers
  import opened PipelineProtocol

  ghost predicate OwnAttempt(coerce: Coercion, trace: seq<State>, w: nat, faults: nat -> DbFault, i: nat)
    requires 0 < i < |trace|
  {
    Attempt(coerce, trace[i - 1], trace[i], w, faults(i))
  }

  /** Only worker w runs, and attempt i meets fault i. */
  ghost predicate Alone(coerce: Coercion, trace: seq<State>, w: nat, faults: nat -> DbFault) {
    trace != [] && forall i | 0 < i < |trace| :: OwnAttempt(coerce, trace, w, faults, i)
  }

  lemma Longer(coerce: Coercion, trace: seq<State>, w: nat, faults: nat -> DbFault, s': State) returns (longer: seq<State>)
    requires Alone(coerce, trace, w, faults) && Attempt(coerce, trace[|trace| - 1], s', w, faults(|trace|))
    ensures Alone(coerce, longer, w, faults) && longer == trace + [s']
  {
    longer := trace + [s'];
    forall i | 0 < i < |longer| ensures OwnAttempt(coerce, longer, w, faults, i) {
      assert i < |trace| ==> OwnAttempt(coerce, trace, w, faults, i);
    }
  }

  /** Every delivery, redelivered or not, begins with its first attempt and changes nothing else. */
  lemma DeliveryBegins(s: State, s': State, w: nat, tag: Tag)
    requires Begin(s, s', w, tag)
    ensures |s'.workers| == |s.workers| && s'.workers[w] == Handling(s.workers[w].channel, tag, s.unacked[tag].msg, 1)
    ensures s'.unacked == s.unacked && s'.ready == s.ready && s'.acked == s.acked && s'.dlq == s.dlq && s'.rows == s.rows
  {}

  /** An attempt is logged as a committed write exactly if its statement is reached and does not raise. */
  lemma AttemptIsLogged(coerce: Coercion, s: State, s': State, w: nat, fault: DbFault)
    requires Attempt(coerce, s, s', w, fault)
    ensures var columns := s.bodies[s.workers[w].msg].columns;
            s'.writes == if fault != FailsBefore && InsertOutcome(coerce, s.urlIds, s.rows, columns) != Rejected
                         then s.writes + [coerce(columns).value] else s.writes
  {}

  /** A malformed body: one attempt, no row, and a dead-lettering nack. */
  lemma SoloMalformed(s: State, w: nat, rejected: bool, faults: nat -> DbFault) returns (s': State)
    requires Attempting(s, w) && s.workers[w].attempt == 1 && s.bodies[s.workers[w].msg].Malformed?
    ensures FindMalformed(s, s', w) && s'.rows == s.rows && |s'.workers| == |s.workers|
    ensures var Handling(channel, tag, msg, attempt) := s.workers[w];
            && attempt == Attempts(s.bodies[msg], rejected, faults)
            && Verdict(s.bodies[msg], rejected, faults, tag) == [Nack(tag, false)]
            && s'.workers[w] == Settled(channel, tag, msg, DeadLetter(0))
  {
    var Handling(channel, tag, msg, _) := s.workers[w];
    s' := s.(workers := s.workers[w := Settled(channel, tag, msg, DeadLetter(0))]);
  }

  /** An escaping exception: one attempt, no row, no settlement, and an unacknowledged message becomes ready again. */
  lemma SoloEscape(s: State, w: nat, rejected: bool, faults: nat -> DbFault) returns (s': State)
    requires Attempting(s, w) && s.workers[w].attempt == 1 && s.bodies[s.workers[w].msg].Escapes?
    ensures Escape(s, s', w) && s'.rows == s.rows && s'.workers == s.workers[w := Stopped]
    ensures var Handling(channel, tag, msg, attempt) := s.workers[w];
            && attempt == Attempts(s.bodies[msg], rejected, faults)
            && Verdict(s.bodies[msg], rejected, faults, tag) == [] && s'.acked == s.acked && s'.dlq == s.dlq
            && (tag in s.unacked && s.unacked[tag] == Delivery(channel, msg) ==> msg in s'.ready)
  {
    var channel := s.workers[w].channel;
    s' := s.(open := s.open - {channel},
             ready := s.ready + set t | t in s.unacked && s.unacked[t].channel == channel :: s.unacked[t].msg,
             unacked := map t | t in s.unacked && s.unacked[t].channel != channel :: s.unacked[t],
             workers := s.workers[w := Stopped]);
    assert forall t | t in s.unacked && s.unacked[t].channel == channel :: s.unacked[t] == Delivery(channel, s.unacked[t].msg);
  }

  /** The attempt that worker w makes next. */
  lemma NextSoloAttempt(coerce: Coercion, s: State, w: nat, fault: DbFault) returns (s': State)
    requires Attempting(s, w) && s.bodies[s.workers[w].msg].Event?
    ensures Attempt(coerce, s, s', w, fault)
    ensures s'.bodies == s.bodies && s'.urlIds == s.urlIds && |s'.workers| == |s.workers|
    ensures var columns := s.bodies[s.workers[w].msg].columns;
            && s'.rows == AfterAttempt(coerce, s.urlIds, s.rows, columns, fault)
            && s'.workers[w] == NextAttempt(s.workers[w], fault == NoFault && !Rejects(coerce, s.urlIds, s.rows, columns))
  {
    var columns := s.bodies[s.workers[w].msg].columns;
    var commits := Commits(coerce, s, columns, fault);
    s' := s.(rows := AfterAttempt(coerce, s.urlIds, s.rows, columns, fault),
             writes := if commits then s.writes + [coerce(columns).value] else s.writes,
             workers := s.workers[w := NextAttempt(s.workers[w], commits && fault == NoFault)]);
  }

  /** An event: attempts, table and settlement of the protocol are those that `HandleDelivery` promises. */
  lemma SoloDelivery(coerce: Coercion, s: State, w: nat, faults: nat -> DbFault) returns (trace: seq<State>)
    requires Attempting(s, w) && s.workers[w].attempt == 1 && s.bodies[s.workers[w].msg].Event?
    ensures Alone(coerce, trace, w, faults) && trace[0] == s
    ensures var Handling(channel, tag, msg, _) := s.workers[w];
            var body, s' := s.bodies[msg], trace[|trace| - 1];
            var rejected := Rejects(coerce, s.urlIds, s.rows, body.columns);
            && |trace| - 1 == Attempts(body, rejected, faults)
            && s'.rows == AfterAttempts(coerce, s.urlIds, s.rows, body.columns, faults, |trace| - 1)
            && |s'.workers| == |s.workers|
            && s'.workers[w] == Settled(channel, tag, msg,
                 if Verdict(body, rejected, faults, tag) == [Ack(tag)] then Acknowledge else DeadLetter(MAX_RETRIES))
  {
    var Handling(channel, tag, msg, _) := s.workers[w];
    var columns := s.bodies[msg].columns;
    var rejected := Rejects(coerce, s.urlIds, s.rows, columns);
    var success := FirstSuccess(rejected, faults, 1);
    trace := [s];
    var t := s;
    while !t.workers[w].Settled?
      invariant Alone(coerce, trace, w, faults) && trace[0] == s && trace[|trace| - 1] == t
      invariant t.bodies == s.bodies && t.urlIds == s.urlIds && |t.workers| == |s.workers|
      invariant t.rows == AfterAttempts(coerce, s.urlIds, s.rows, columns, faults, |trace| - 1)
      invariant t.workers[w].Handling? ==>
                  t.workers[w] == Handling(channel, tag, msg, |trace|) && |trace| <= MAX_RETRIES && |trace| <= success
      invariant t.workers[w].Handling? || t.workers[w].Settled?
      invariant t.workers[w].Settled? ==>
                  t.workers[w] == Settled(channel, tag, msg, if success <= MAX_RETRIES then Acknowledge else DeadLetter(MAX_RETRIES))
                  && |trace| - 1 == if success <= MAX_RETRIES then success else MAX_RETRIES
      decreases t.workers[w].Handling?, MAX_RETRIES - |trace|
    {
      RejectionIsStable(coerce, s.urlIds, s.rows, columns, faults, |trace| - 1);
      t := NextSoloAttempt(coerce, t, w, faults(|trace|));
      trace := Longer(coerce, trace, w, faults, t);
    }
  }
}
