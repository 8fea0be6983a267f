/**
 * The click-event pipeline as an at-least-once protocol: publishers, a broker queue with a
 * dead-letter queue, and any number of workers that connect, handle, crash and reconnect.
 */
module PipelineProtocol {
  import opened Common
  import opened ClickEvents
  import opened EventProcessing
  import opened Workers

  const PREFETCH: nat := 10

  type MsgId = nat
  type ChannelId = nat
  type Tag = nat

  datatype Delivery = Delivery(channel: ChannelId, msg: MsgId)

  /** What a delivery will be settled with; a dead-lettered one remembers its failed attempts. */
  datatype Settling = Acknowledge | DeadLetter(failures: nat)

  datatype Worker =
    | Disconnected
    | Connected(channel: ChannelId)
    | Declared(channel: ChannelId)
    | Consuming(channel: ChannelId)
    | Handling(channel: ChannelId, tag: Tag, msg: MsgId, attempt: nat)
    | Settled(channel: ChannelId, tag: Tag, msg: MsgId, how: Settling)
    | Stopped

  /** Broker, workers and database. A message is represented by what `Check` makes of its body. */
  datatype State = State(
    bodies: map<MsgId, Checked>,
    ready: set<MsgId>, unacked: map<Tag, Delivery>, acked: set<MsgId>, dlq: map<MsgId, nat>, lost: set<MsgId>,
    open: set<ChannelId>, nextChannel: ChannelId, nextTag: Tag, dlqDeclared: bool,
    workers: seq<Worker>,
    urlIds: set<int>, writes: seq<ClickRow>, rows: seq<ClickRow>)

  ghost predicate Init(s: State) {
    && s.bodies == map[] && s.ready == {} && s.unacked == map[] && s.acked == {} && s.dlq == map[] && s.lost == {}
    && s.open == {} && !s.dlqDeclared
    && (forall w | 0 <= w < |s.workers| :: s.workers[w].Disconnected?)
    && s.writes == [] && s.rows == []
  }

  // ---------------------------------------------------------------- publishers and database

  /** A publish the broker accepted; a lost publish changes nothing. */
  ghost predicate Publish(s: State, s': State, m: MsgId, body: Checked) {
    m !in s.bodies && s' == s.(bodies := s.bodies[m := body], ready := s.ready + {m})
  }

  ghost predicate AddUrls(s: State, s': State) {
    s.urlIds <= s'.urlIds && s' == s.(urlIds := s'.urlIds)
  }

  // ---------------------------------------------------------------- connections

  predicate HasChannel(w: Worker) {
    w.Connected? || w.Declared? || w.Consuming? || w.Handling? || w.Settled?
  }

  /** The worker has declared the queues on its channel. */
  predicate HasDeclared(w: Worker) {
    w.Declared? || HasConsumer(w)
  }

  /** The consumer on the channel has been started. */
  predicate HasConsumer(w: Worker) {
    w.Consuming? || w.Handling? || w.Settled?
  }

  ghost predicate Connect(s: State, s': State, w: nat) {
    && w < |s.workers| && s.workers[w].Disconnected?
    && s' == s.(open := s.open + {s.nextChannel}, nextChannel := s.nextChannel + 1,
                workers := s.workers[w := Connected(s.nextChannel)])
  }

  /** `declare_queues`: the dead-letter queue exists from here on. */
  ghost predicate Declare(s: State, s': State, w: nat) {
    && w < |s.workers| && s.workers[w].Connected? && s.workers[w].channel in s.open
    && s' == s.(dlqDeclared := true, workers := s.workers[w := Declared(s.workers[w].channel)])
  }

  /** `basic_qos`, then `basic_consume`. */
  ghost predicate Consume(s: State, s': State, w: nat) {
    && w < |s.workers| && s.workers[w].Declared? && s.workers[w].channel in s.open
    && s' == s.(workers := s.workers[w := Consuming(s.workers[w].channel)])
  }

  /** The broker forgets a channel and makes its unacknowledged messages ready again. */
  ghost predicate Closed(s: State, s': State, channel: ChannelId) {
    && s'.open == s.open - {channel}
    && (forall t :: t in s'.unacked <==> t in s.unacked && s.unacked[t].channel != channel)
    && (forall t | t in s'.unacked :: s'.unacked[t] == s.unacked[t])
    && (forall m :: m in s'.ready <==>
          m in s.ready || exists t :: t in s.unacked && s.unacked[t] == Delivery(channel, m))
    && s'.bodies == s.bodies && s'.acked == s.acked && s'.dlq == s.dlq && s'.lost == s.lost
    && s'.nextChannel == s.nextChannel && s'.nextTag == s.nextTag && s'.dlqDeclared == s.dlqDeclared
    && s'.urlIds == s.urlIds && s'.writes == s.writes && s'.rows == s.rows
  }

  /** A connection is lost; its worker does not know yet. */
  ghost predicate Drop(s: State, s': State, channel: ChannelId) {
    channel in s.open && Closed(s, s', channel) && s'.workers == s.workers
  }

  /** A worker process dies at any point; the next state is a fresh process. */
  ghost predicate CrashWorker(s: State, s': State, w: nat) {
    && w < |s.workers| && HasChannel(s.workers[w])
    && Closed(s, s', s.workers[w].channel) && s'.workers == s.workers[w := Disconnected]
  }

  /** An idle worker finds its connection dead and will reconnect. */
  ghost predicate Notice(s: State, s': State, w: nat) {
    && w < |s.workers| && (s.workers[w].Connected? || s.workers[w].Declared? || s.workers[w].Consuming?)
    && s.workers[w].channel !in s.open
    && s' == s.(workers := s.workers[w := Disconnected])
  }

  /** The process of an ended consumer is started again. */
  ghost predicate Restart(s: State, s': State, w: nat) {
    w < |s.workers| && s.workers[w].Stopped? && s' == s.(workers := s.workers[w := Disconnected])
  }

  // ---------------------------------------------------------------- deliveries

  ghost function Outstanding(s: State, channel: ChannelId): set<Tag> {
    set t | t in s.unacked && s.unacked[t].channel == channel
  }

  /** The broker pushes any ready message to a consumer with prefetch room. */
  ghost predicate Deliver(s: State, s': State, w: nat, m: MsgId) {
    && w < |s.workers| && HasConsumer(s.workers[w]) && s.workers[w].channel in s.open
    && |Outstanding(s, s.workers[w].channel)| < PREFETCH
    && m in s.ready
    && s' == s.(ready := s.ready - {m}, unacked := s.unacked[s.nextTag := Delivery(s.workers[w].channel, m)],
                nextTag := s.nextTag + 1)
  }

  ghost predicate Begin(s: State, s': State, w: nat, tag: Tag) {
    && w < |s.workers| && s.workers[w].Consuming?
    && tag in s.unacked && s.unacked[tag].channel == s.workers[w].channel
    && s' == s.(workers := s.workers[w := Handling(s.workers[w].channel, tag, s.unacked[tag].msg, 1)])
  }

  predicate Attempting(s: State, w: nat) {
    w < |s.workers| && s.workers[w].Handling? && s.workers[w].msg in s.bodies
  }

  ghost predicate FindMalformed(s: State, s': State, w: nat) {
    && Attempting(s, w) && s.bodies[s.workers[w].msg].Malformed?
    && var Handling(channel, tag, msg, _) := s.workers[w];
       s' == s.(workers := s.workers[w := Settled(channel, tag, msg, DeadLetter(0))])
  }

  /** Another exception escapes: the connection is closed on the way out and the consumer ends. */
  ghost predicate Escape(s: State, s': State, w: nat) {
    && Attempting(s, w) && s.bodies[s.workers[w].msg].Escapes?
    && Closed(s, s', s.workers[w].channel) && s'.workers == s.workers[w := Stopped]
  }

  /** Whether the attempt's statement reached a commit, reported or not. */
  predicate Commits(coerce: Coercion, s: State, columns: Columns, fault: DbFault) {
    fault != FailsBefore && !Rejects(coerce, s.urlIds, s.rows, columns)
  }

  function NextAttempt(w: Worker, succeeded: bool): Worker
    requires w.Handling?
  {
    if succeeded then Settled(w.channel, w.tag, w.msg, Acknowledge)
    else if w.attempt < MAX_RETRIES then w.(attempt := w.attempt + 1)
    else Settled(w.channel, w.tag, w.msg, DeadLetter(w.attempt))
  }

  /** One `process` call on an event, on a live or a dead channel alike. */
  ghost predicate Attempt(coerce: Coercion, s: State, s': State, w: nat, fault: DbFault) {
    && Attempting(s, w) && s.bodies[s.workers[w].msg].Event?
    && var columns := s.bodies[s.workers[w].msg].columns;
       var commits := Commits(coerce, s, columns, fault);
       s' == s.(rows := AfterAttempt(coerce, s.urlIds, s.rows, columns, fault),
                writes := if commits then s.writes + [coerce(columns).value] else s.writes,
                workers := s.workers[w := NextAttempt(s.workers[w], commits && fault == NoFault)])
  }

  /** The settlement reaches the broker only while the delivery's own channel is open. */
  ghost predicate Settle(s: State, s': State, w: nat) {
    && w < |s.workers| && s.workers[w].Settled?
    && var Settled(channel, tag, msg, how) := s.workers[w];
       if tag !in s.unacked then s' == s.(workers := s.workers[w := Disconnected])
       else
         s' == s.(unacked := s.unacked - {tag},
                  acked := if how.Acknowledge? then s.acked + {msg} else s.acked,
                  dlq := if how.DeadLetter? && s.dlqDeclared then s.dlq[msg := how.failures] else s.dlq,
                  lost := if how.DeadLetter? && !s.dlqDeclared then s.lost + {msg} else s.lost,
                  workers := s.workers[w := Consuming(channel)])
  }

  /** The steps that need no new publish, fault of the environment or new URL. */
  ghost predicate Internal(coerce: Coercion, s: State, s': State) {
    || (exists w :: Connect(s, s', w))
    || (exists w :: Declare(s, s', w))
    || (exists w :: Consume(s, s', w))
    || (exists w :: Notice(s, s', w))
    || (exists w, m :: Deliver(s, s', w, m))
    || (exists w, tag :: Begin(s, s', w, tag))
    || (exists w :: FindMalformed(s, s', w))
    || (exists w, fault :: Attempt(coerce, s, s', w, fault))
    || (exists w :: Settle(s, s', w))
  }

  ghost predicate External(s: State, s': State) {
    || (exists m, body :: Publish(s, s', m, body))
    || (exists channel :: Drop(s, s', channel))
    || (exists w :: CrashWorker(s, s', w))
    || (exists w :: Escape(s, s', w))
    || (exists w :: Restart(s, s', w))
    || AddUrls(s, s')
  }

  ghost predicate Next(coerce: Coercion, s: State, s': State) {
    Internal(coerce, s, s') || External(s, s')
  }

  ghost predicate StepAt(coerce: Coercion, run: seq<State>, i: nat)
    requires 0 < i < |run|
  {
    Next(coerce, run[i - 1], run[i])
  }

  ghost predicate IsRun(coerce: Coercion, run: seq<State>) {
    run != [] && Init(run[0]) && forall i | 0 < i < |run| :: StepAt(coerce, run, i)
  }

  ghost predicate Reachable(coerce: Coercion, s: State) {
    exists run :: IsRun(coerce, run) && run[|run| - 1] == s
  }

  /** Some run passes through s and goes on to s'. */
  ghost predicate Later(coerce: Coercion, s: State, s': State) {
    exists run, i :: IsRun(coerce, run) && 0 <= i < |run| && run[i] == s && run[|run| - 1] == s'
  }
}
