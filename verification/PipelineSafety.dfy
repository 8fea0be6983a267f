/** The invariant of the click-event pipeline: no message lost or duplicated, acked means recorded. */
module PipelineSafety {
  import opened Common
  import opened ClickEvents
  import opened EventProcessing
  import opened Workers
  import opened PipelineProtocol

  ghost predicate Unsettled(s: State, m: MsgId) {
    exists t :: t in s.unacked && s.unacked[t].msg == m
  }

  /** Every accepted message is in exactly one place, and no place holds anything else. */
  ghost predicate Conserved(s: State) {
    && s.lost == {}
    && s.ready <= s.bodies.Keys && s.acked <= s.bodies.Keys && s.dlq.Keys <= s.bodies.Keys
    && s.ready !! s.acked && s.ready !! s.dlq.Keys && s.acked !! s.dlq.Keys
    && (forall t | t in s.unacked ::
          && s.unacked[t].msg in s.bodies
          && s.unacked[t].msg !in s.ready && s.unacked[t].msg !in s.acked && s.unacked[t].msg !in s.dlq)
    && (forall t, t' | t in s.unacked && t' in s.unacked && s.unacked[t].msg == s.unacked[t'].msg :: t == t')
    && (forall m | m in s.bodies :: m in s.ready || m in s.acked || m in s.dlq || Unsettled(s, m))
  }

  /** Channels have one owner; deliveries live on open channels; the dead-letter queue precedes consumers. */
  ghost predicate Wired(s: State) {
    && (forall c | c in s.open :: c < s.nextChannel)
    && (forall w | 0 <= w < |s.workers| && HasChannel(s.workers[w]) :: s.workers[w].channel < s.nextChannel)
    && (forall w, w' | 0 <= w < |s.workers| && 0 <= w' < |s.workers| && HasChannel(s.workers[w]) && HasChannel(s.workers[w'])
                       && s.workers[w].channel == s.workers[w'].channel :: w == w')
    && (forall t | t in s.unacked :: t < s.nextTag && s.unacked[t].channel in s.open)
    && (forall w | 0 <= w < |s.workers| && HasDeclared(s.workers[w]) :: s.dlqDeclared)
  }

  ghost predicate Recorded(coerce: Coercion, s: State, m: MsgId) {
    m in s.bodies && s.bodies[m].Event? && IsRecorded(coerce, s.rows, s.bodies[m].columns)
  }

  /** Dead-lettered without a retry if malformed, after three failed attempts if an event. */
  ghost predicate DeadLetterJustified(s: State, m: MsgId, failures: nat) {
    && m in s.bodies
    && (failures == 0 ==> s.bodies[m].Malformed?)
    && (failures != 0 ==> s.bodies[m].Event? && failures == MAX_RETRIES)
  }

  ghost predicate WorkerOk(coerce: Coercion, s: State, w: Worker) {
    match w
    case Handling(channel, tag, msg, attempt) =>
      && msg in s.bodies && tag < s.nextTag && (tag in s.unacked ==> s.unacked[tag] == Delivery(channel, msg))
      && 1 <= attempt <= MAX_RETRIES
    case Settled(channel, tag, msg, how) =>
      && msg in s.bodies && tag < s.nextTag && (tag in s.unacked ==> s.unacked[tag] == Delivery(channel, msg))
      && (how.Acknowledge? ==> Recorded(coerce, s, msg))
      && (how.DeadLetter? ==> DeadLetterJustified(s, msg, how.failures))
    case _ => true
  }

  ghost predicate Outcomes(coerce: Coercion, s: State) {
    && (forall m | m in s.acked :: Recorded(coerce, s, m))
    && (forall m | m in s.dlq :: DeadLetterJustified(s, m, s.dlq[m]))
  }

  /** The row of an accepted event. */
  ghost predicate FromMessage(coerce: Coercion, s: State, row: ClickRow) {
    exists m :: m in s.bodies && s.bodies[m].Event? && coerce(s.bodies[m].columns) == Some(row)
  }

  ghost predicate TableOk(coerce: Coercion, s: State) {
    && s.rows == CommitAll(s.writes)
    && (forall i | 0 <= i < |s.rows| :: s.rows[i].urlId in s.urlIds)
    && (forall i | 0 <= i < |s.writes| :: FromMessage(coerce, s, s.writes[i]))
  }

  ghost predicate WorkersOk(coerce: Coercion, s: State) {
    forall w | 0 <= w < |s.workers| :: WorkerOk(coerce, s, s.workers[w])
  }

  predicate Holding(w: Worker) {
    w.Handling? || w.Settled?
  }

  /** While its channel is open, a busy worker's delivery is still unacknowledged at the broker. */
  ghost predicate Held(s: State) {
    forall w | 0 <= w < |s.workers| && Holding(s.workers[w]) && s.workers[w].channel in s.open ::
      s.workers[w].tag in s.unacked
  }

  /** What the broker guarantees, and what workers and database have to show for it. */
  ghost predicate Sound(s: State) {
    Conserved(s) && Wired(s) && Held(s)
  }

  ghost predicate Justified(coerce: Coercion, s: State) {
    WorkersOk(coerce, s) && Outcomes(coerce, s) && TableOk(coerce, s)
  }

  ghost predicate Inv(coerce: Coercion, s: State) {
    Sound(s) && Justified(coerce, s)
  }

  // ---------------------------------------------------------------- monotone facts

  /** Bodies, rows, tags and settlements only accumulate; an old tag keeps its delivery or loses it for good. */
  ghost predicate Grows(s: State, s': State) {
    && (forall m | m in s.bodies :: m in s'.bodies && s'.bodies[m] == s.bodies[m])
    && s.rows <= s'.rows && s.urlIds <= s'.urlIds && s.nextTag <= s'.nextTag
    && (forall t | t in s'.unacked && t < s.nextTag :: t in s.unacked && s'.unacked[t] == s.unacked[t])
    && s.acked <= s'.acked
    && (forall m | m in s.dlq :: m in s'.dlq && s'.dlq[m] == s.dlq[m])
  }

  lemma GrowsTransitive(a: State, b: State, c: State)
    requires Grows(a, b) && Grows(b, c)
    ensures Grows(a, c)
  {}

  lemma RecordedGrows(coerce: Coercion, s: State, s': State, m: MsgId)
    requires Grows(s, s') && Recorded(coerce, s, m)
    ensures Recorded(coerce, s', m)
  {}

  /** All workers but possibly one stay; that one is fine in the new state. */
  lemma WorkersKeep(coerce: Coercion, s: State, s': State, w: nat)
    requires WorkersOk(coerce, s) && Grows(s, s') && |s'.workers| == |s.workers| && w < |s.workers|
    requires forall v | 0 <= v < |s.workers| && v != w :: s'.workers[v] == s.workers[v]
    requires WorkerOk(coerce, s', s'.workers[w])
    ensures WorkersOk(coerce, s')
  {}

  lemma AllWorkersKeep(coerce: Coercion, s: State, s': State)
    requires WorkersOk(coerce, s) && Grows(s, s') && s'.workers == s.workers
    ensures WorkersOk(coerce, s')
  {}

  lemma OutcomesKeep(coerce: Coercion, s: State, s': State)
    requires Outcomes(coerce, s) && Grows(s, s')
    requires forall m | m in s'.acked :: m in s.acked || Recorded(coerce, s', m)
    requires forall m | m in s'.dlq :: (m in s.dlq && s'.dlq[m] == s.dlq[m]) || DeadLetterJustified(s', m, s'.dlq[m])
    ensures Outcomes(coerce, s')
  {}

  lemma TableKeeps(coerce: Coercion, s: State, s': State)
    requires TableOk(coerce, s) && Grows(s, s') && s'.rows == s.rows && s'.writes == s.writes
    ensures TableOk(coerce, s')
  {}

  /** A step that writes no row and settles nothing needs to justify only its own worker. */
  lemma JustifiedKeeps(coerce: Coercion, s: State, s': State, w: nat)
    requires Justified(coerce, s) && Grows(s, s')
    requires s'.rows == s.rows && s'.writes == s.writes && s'.acked == s.acked && s'.dlq == s.dlq
    requires |s'.workers| == |s.workers|
    requires forall v | 0 <= v < |s.workers| && v != w :: s'.workers[v] == s.workers[v]
    requires w < |s.workers| ==> WorkerOk(coerce, s', s'.workers[w])
    ensures Justified(coerce, s')
  {}

  // ---------------------------------------------------------------- one worker moves, nothing else

  lemma SameQueues(s: State, s': State)
    requires Conserved(s)
    requires s'.bodies == s.bodies && s'.ready == s.ready && s'.unacked == s.unacked
    requires s'.acked == s.acked && s'.dlq == s.dlq && s'.lost == s.lost
    ensures Conserved(s')
  {}

  /** A worker changes state on the channel it already has; broker and database are untouched. */
  ghost predicate OnlyWorker(s: State, s': State, w: nat, now: Worker) {
    && w < |s.workers| && HasChannel(s.workers[w]) && HasChannel(now) && now.channel == s.workers[w].channel
    && (HasDeclared(now) ==> HasDeclared(s.workers[w]))
    && s' == s.(workers := s.workers[w := now])
  }

  lemma OnlyWorkerKeeps(coerce: Coercion, s: State, s': State, w: nat, now: Worker)
    requires Inv(coerce, s) && OnlyWorker(s, s', w, now) && WorkerOk(coerce, s', now)
    requires Holding(now) && now.channel in s.open ==> now.tag in s.unacked
    ensures Inv(coerce, s') && Grows(s, s')
  {
    SameQueues(s, s');
    OnlyWorkerWired(s, s', w, now);
    JustifiedKeeps(coerce, s, s', w);
  }

  lemma OnlyWorkerWired(s: State, s': State, w: nat, now: Worker)
    requires Wired(s) && Held(s) && OnlyWorker(s, s', w, now)
    requires Holding(now) && now.channel in s.open ==> now.tag in s.unacked
    ensures Wired(s') && Held(s')
  {}

  lemma BeginKeeps(coerce: Coercion, s: State, s': State, w: nat, tag: Tag)
    requires Inv(coerce, s) && Begin(s, s', w, tag)
    ensures Inv(coerce, s') && Grows(s, s')
  {
    OnlyWorkerKeeps(coerce, s, s', w, s'.workers[w]);
  }

  lemma FindMalformedKeeps(coerce: Coercion, s: State, s': State, w: nat)
    requires Inv(coerce, s) && FindMalformed(s, s', w)
    ensures Inv(coerce, s') && Grows(s, s')
  {
    assert WorkerOk(coerce, s, s.workers[w]);
    OnlyWorkerKeeps(coerce, s, s', w, s'.workers[w]);
  }

  // ---------------------------------------------------------------- database attempts

  /** The database part of an attempt. */
  ghost predicate Written(coerce: Coercion, s: State, t: State, msg: MsgId, fault: DbFault) {
    && msg in s.bodies && s.bodies[msg].Event?
    && var columns := s.bodies[msg].columns;
       t == s.(rows := AfterAttempt(coerce, s.urlIds, s.rows, columns, fault),
               writes := if Commits(coerce, s, columns, fault) then s.writes + [coerce(columns).value] else s.writes)
  }

  lemma WrittenTable(coerce: Coercion, s: State, t: State, msg: MsgId, fault: DbFault)
    requires TableOk(coerce, s) && Written(coerce, s, t, msg, fault)
    ensures TableOk(coerce, t) && Grows(s, t)
    ensures Commits(coerce, s, s.bodies[msg].columns, fault) ==> Recorded(coerce, t, msg)
  {
    if Commits(coerce, s, s.bodies[msg].columns, fault) {
      CommittedTable(coerce, s, t, msg, fault);
    }
  }

  lemma CommittedTable(coerce: Coercion, s: State, t: State, msg: MsgId, fault: DbFault)
    requires TableOk(coerce, s) && Written(coerce, s, t, msg, fault) && Commits(coerce, s, s.bodies[msg].columns, fault)
    ensures TableOk(coerce, t) && Grows(s, t) && Recorded(coerce, t, msg)
  {
    var row := coerce(s.bodies[msg].columns).value;
    CommitRecords(coerce, s.urlIds, s.rows, s.bodies[msg].columns, fault);
    CommitAllSnoc(s.writes, row);
    CommittedFromMessages(coerce, s, t, msg, row);
  }

  lemma CommittedFromMessages(coerce: Coercion, s: State, t: State, msg: MsgId, row: ClickRow)
    requires forall i | 0 <= i < |s.writes| :: FromMessage(coerce, s, s.writes[i])
    requires msg in s.bodies && s.bodies[msg].Event? && coerce(s.bodies[msg].columns) == Some(row)
    requires t.bodies == s.bodies && t.writes == s.writes + [row]
    ensures forall i | 0 <= i < |t.writes| :: FromMessage(coerce, t, t.writes[i])
  {
    forall i | 0 <= i < |t.writes| ensures FromMessage(coerce, t, t.writes[i]) {
      if i < |s.writes| {
        assert FromMessage(coerce, s, s.writes[i]);
      }
    }
  }

  lemma WrittenKeeps(coerce: Coercion, s: State, t: State, msg: MsgId, fault: DbFault)
    requires Inv(coerce, s) && Written(coerce, s, t, msg, fault)
    ensures Inv(coerce, t) && Grows(s, t)
    ensures Commits(coerce, s, s.bodies[msg].columns, fault) ==> Recorded(coerce, t, msg)
  {
    WrittenTable(coerce, s, t, msg, fault);
    SameQueues(s, t);
    AllWorkersKeep(coerce, s, t);
    OutcomesKeep(coerce, s, t);
  }

  lemma AttemptKeeps(coerce: Coercion, s: State, s': State, w: nat, fault: DbFault)
    requires Inv(coerce, s) && Attempt(coerce, s, s', w, fault)
    ensures Inv(coerce, s') && Grows(s, s')
  {
    var t := s.(rows := s'.rows, writes := s'.writes);
    assert WorkerOk(coerce, s, s.workers[w]);
    WrittenKeeps(coerce, s, t, s.workers[w].msg, fault);
    OnlyWorkerKeeps(coerce, t, s', w, s'.workers[w]);
  }

  // ---------------------------------------------------------------- broker steps

  lemma PublishSound(s: State, s': State, m: MsgId, body: Checked)
    requires Sound(s) && Publish(s, s', m, body)
    ensures Sound(s')
  {}

  lemma PublishKeeps(coerce: Coercion, s: State, s': State, m: MsgId, body: Checked)
    requires Inv(coerce, s) && Publish(s, s', m, body)
    ensures Inv(coerce, s') && Grows(s, s')
  {
    PublishSound(s, s', m, body);
    JustifiedKeeps(coerce, s, s', |s.workers|);
  }

  lemma DeliverConserves(s: State, s': State, w: nat, m: MsgId)
    requires Conserved(s) && Wired(s) && Deliver(s, s', w, m)
    ensures Conserved(s')
  {
    assert s.nextTag !in s.unacked;
    assert s'.unacked[s.nextTag].msg == m;
    forall x | x in s'.bodies ensures x in s'.ready || x in s'.acked || x in s'.dlq || Unsettled(s', x) {
      if t :| t in s.unacked && s.unacked[t].msg == x {
        assert s'.unacked[t].msg == x;
      }
    }
  }

  lemma DeliverWired(s: State, s': State, w: nat, m: MsgId)
    requires Wired(s) && Held(s) && Deliver(s, s', w, m)
    ensures Wired(s') && Held(s')
  {}

  lemma DeliverKeeps(coerce: Coercion, s: State, s': State, w: nat, m: MsgId)
    requires Inv(coerce, s) && Deliver(s, s', w, m)
    ensures Inv(coerce, s') && Grows(s, s')
  {
    DeliverConserves(s, s', w, m);
    DeliverWired(s, s', w, m);
    JustifiedKeeps(coerce, s, s', |s.workers|);
  }

  /** Settling removes one delivery and files its message. */
  lemma SettleConserves(s: State, s': State, w: nat)
    requires Conserved(s) && Settle(s, s', w) && s.dlqDeclared
    requires s.workers[w].tag in s.unacked && s.unacked[s.workers[w].tag].msg == s.workers[w].msg
    ensures Conserved(s')
  {
    var tag, msg := s.workers[w].tag, s.workers[w].msg;
    assert forall t | t in s'.unacked :: s'.unacked[t].msg != msg;
    forall x | x in s'.bodies ensures x in s'.ready || x in s'.acked || x in s'.dlq || Unsettled(s', x) {
      if t :| t in s.unacked && s.unacked[t].msg == x {
        assert t != tag ==> t in s'.unacked && s'.unacked[t].msg == x;
      }
    }
  }

  /** Another worker's delivery is on another channel, so it has another tag. */
  lemma SettleHeld(coerce: Coercion, s: State, s': State, w: nat)
    requires Wired(s) && Held(s) && WorkersOk(coerce, s) && Settle(s, s', w) && s.workers[w].tag in s.unacked
    ensures Held(s')
  {}

  lemma SettleWired(s: State, s': State, w: nat)
    requires Wired(s) && Settle(s, s', w) && s.workers[w].tag in s.unacked
    ensures Wired(s')
  {}

  lemma SettleJustified(coerce: Coercion, s: State, s': State, w: nat)
    requires Conserved(s) && Justified(coerce, s) && Settle(s, s', w) && s.workers[w].tag in s.unacked
    ensures Justified(coerce, s') && Grows(s, s')
  {
    assert WorkerOk(coerce, s, s.workers[w]);
    WorkersKeep(coerce, s, s', w);
    if s.workers[w].how.Acknowledge? {
      RecordedGrows(coerce, s, s', s.workers[w].msg);
    }
    OutcomesKeep(coerce, s, s');
    TableKeeps(coerce, s, s');
  }

  lemma SettleLiveKeeps(coerce: Coercion, s: State, s': State, w: nat)
    requires Inv(coerce, s) && Settle(s, s', w) && s.workers[w].tag in s.unacked
    ensures Inv(coerce, s') && Grows(s, s')
  {
    assert WorkerOk(coerce, s, s.workers[w]);
    assert HasConsumer(s.workers[w]);
    SettleConserves(s, s', w);
    SettleWired(s, s', w);
    SettleHeld(coerce, s, s', w);
    SettleJustified(coerce, s, s', w);
  }

  // ---------------------------------------------------------------- connections come and go

  lemma ForgetWired(s: State, s': State, w: nat, now: Worker)
    requires Wired(s) && Held(s) && w < |s.workers| && s' == s.(workers := s.workers[w := now])
    requires now.Disconnected? || now.Stopped?
    ensures Wired(s') && Held(s')
  {}

  /** A worker without an open channel gives its channel up. */
  lemma ForgetKeeps(coerce: Coercion, s: State, s': State, w: nat, now: Worker)
    requires Inv(coerce, s) && w < |s.workers| && s' == s.(workers := s.workers[w := now])
    requires now.Disconnected? || now.Stopped?
    ensures Inv(coerce, s') && Grows(s, s')
  {
    SameQueues(s, s');
    ForgetWired(s, s', w, now);
    JustifiedKeeps(coerce, s, s', w);
  }

  lemma ClosedConserves(s: State, s': State, channel: ChannelId)
    requires Conserved(s) && Closed(s, s', channel)
    ensures Conserved(s')
  {
    forall x | x in s'.bodies ensures x in s'.ready || x in s'.acked || x in s'.dlq || Unsettled(s', x) {
      if t :| t in s.unacked && s.unacked[t].msg == x {
        if s.unacked[t].channel == channel {
          assert s.unacked[t] == Delivery(channel, x);
        } else {
          assert s'.unacked[t].msg == x;
        }
      }
    }
    forall x | x in s'.ready ensures x in s'.bodies && x !in s'.acked && x !in s'.dlq {
      if x !in s.ready {
        var t :| t in s.unacked && s.unacked[t] == Delivery(channel, x);
      }
    }
  }

  lemma ClosedWired(s: State, s': State, channel: ChannelId)
    requires Wired(s) && Held(s) && Closed(s, s', channel) && s'.workers == s.workers
    requires forall w | 0 <= w < |s.workers| && Holding(s.workers[w]) && s.workers[w].channel in s.open ::
               s.unacked[s.workers[w].tag].channel == s.workers[w].channel
    ensures Wired(s') && Held(s')
  {}

  lemma ClosedKeeps(coerce: Coercion, s: State, s': State, channel: ChannelId)
    requires Inv(coerce, s) && Closed(s, s', channel) && s'.workers == s.workers
    ensures Inv(coerce, s') && Grows(s, s')
  {
    forall w | 0 <= w < |s.workers| && Holding(s.workers[w]) && s.workers[w].channel in s.open
      ensures s.unacked[s.workers[w].tag].channel == s.workers[w].channel
    {
      assert WorkerOk(coerce, s, s.workers[w]);
    }
    ClosedConserves(s, s', channel);
    ClosedWired(s, s', channel);
    JustifiedKeeps(coerce, s, s', |s.workers|);
  }

  /** Closing a channel and sending its worker away is a drop followed by giving it up. */
  lemma ClosedAndForgottenKeeps(coerce: Coercion, s: State, s': State, w: nat, now: Worker)
    requires Inv(coerce, s) && w < |s.workers| && HasChannel(s.workers[w])
    requires Closed(s, s', s.workers[w].channel) && s'.workers == s.workers[w := now]
    requires now.Disconnected? || now.Stopped?
    ensures Inv(coerce, s') && Grows(s, s')
  {
    var mid := s'.(workers := s.workers);
    ClosedKeeps(coerce, s, mid, s.workers[w].channel);
    ForgetKeeps(coerce, mid, s', w, now);
  }

  lemma ConnectWired(s: State, s': State, w: nat)
    requires Wired(s) && Held(s) && Connect(s, s', w)
    ensures Wired(s') && Held(s')
  {}

  lemma ConnectKeeps(coerce: Coercion, s: State, s': State, w: nat)
    requires Inv(coerce, s) && Connect(s, s', w)
    ensures Inv(coerce, s') && Grows(s, s')
  {
    SameQueues(s, s');
    ConnectWired(s, s', w);
    JustifiedKeeps(coerce, s, s', w);
  }

  lemma DeclareWired(s: State, s': State, w: nat)
    requires Wired(s) && Held(s) && Declare(s, s', w)
    ensures Wired(s') && Held(s')
  {}

  lemma DeclareKeeps(coerce: Coercion, s: State, s': State, w: nat)
    requires Inv(coerce, s) && Declare(s, s', w)
    ensures Inv(coerce, s') && Grows(s, s')
  {
    SameQueues(s, s');
    DeclareWired(s, s', w);
    JustifiedKeeps(coerce, s, s', w);
  }

  lemma ConsumeKeeps(coerce: Coercion, s: State, s': State, w: nat)
    requires Inv(coerce, s) && Consume(s, s', w)
    ensures Inv(coerce, s') && Grows(s, s')
  {
    OnlyWorkerKeeps(coerce, s, s', w, s'.workers[w]);
  }

  lemma SettleKeeps(coerce: Coercion, s: State, s': State, w: nat)
    requires Inv(coerce, s) && Settle(s, s', w)
    ensures Inv(coerce, s') && Grows(s, s')
  {
    if s.workers[w].tag in s.unacked {
      SettleLiveKeeps(coerce, s, s', w);
    } else {
      ForgetKeeps(coerce, s, s', w, Disconnected);
    }
  }

  // ---------------------------------------------------------------- every step, every run

  lemma InternalKeeps(coerce: Coercion, s: State, s': State)
    requires Inv(coerce, s) && Internal(coerce, s, s')
    ensures Inv(coerce, s') && Grows(s, s')
  {
    if w :| Connect(s, s', w) {
      ConnectKeeps(coerce, s, s', w);
    } else if w :| Declare(s, s', w) {
      DeclareKeeps(coerce, s, s', w);
    } else if w :| Consume(s, s', w) {
      ConsumeKeeps(coerce, s, s', w);
    } else if w :| Notice(s, s', w) {
      ForgetKeeps(coerce, s, s', w, Disconnected);
    } else if w, m :| Deliver(s, s', w, m) {
      DeliverKeeps(coerce, s, s', w, m);
    } else if w, tag :| Begin(s, s', w, tag) {
      BeginKeeps(coerce, s, s', w, tag);
    } else if w :| FindMalformed(s, s', w) {
      FindMalformedKeeps(coerce, s, s', w);
    } else if w, fault :| Attempt(coerce, s, s', w, fault) {
      AttemptKeeps(coerce, s, s', w, fault);
    } else {
      var w :| Settle(s, s', w);
      SettleKeeps(coerce, s, s', w);
    }
  }

  lemma AddUrlsKeeps(coerce: Coercion, s: State, s': State)
    requires Inv(coerce, s) && AddUrls(s, s')
    ensures Inv(coerce, s') && Grows(s, s')
  {
    SameQueues(s, s');
    JustifiedKeeps(coerce, s, s', |s.workers|);
  }

  lemma ExternalKeeps(coerce: Coercion, s: State, s': State)
    requires Inv(coerce, s) && External(s, s')
    ensures Inv(coerce, s') && Grows(s, s')
  {
    if m, body :| Publish(s, s', m, body) {
      PublishKeeps(coerce, s, s', m, body);
    } else if channel :| Drop(s, s', channel) {
      ClosedKeeps(coerce, s, s', channel);
    } else if w :| CrashWorker(s, s', w) {
      ClosedAndForgottenKeeps(coerce, s, s', w, Disconnected);
    } else if w :| Escape(s, s', w) {
      ClosedAndForgottenKeeps(coerce, s, s', w, Stopped);
    } else if w :| Restart(s, s', w) {
      ForgetKeeps(coerce, s, s', w, Disconnected);
    } else {
      AddUrlsKeeps(coerce, s, s');
    }
  }

  lemma NextKeeps(coerce: Coercion, s: State, s': State)
    requires Inv(coerce, s) && Next(coerce, s, s')
    ensures Inv(coerce, s') && Grows(s, s')
  {
    if Internal(coerce, s, s') {
      InternalKeeps(coerce, s, s');
    } else {
      ExternalKeeps(coerce, s, s');
    }
  }

  lemma InitInv(coerce: Coercion, s: State)
    requires Init(s)
    ensures Inv(coerce, s)
  {}

  lemma {:induction false} RunInv(coerce: Coercion, run: seq<State>, i: nat)
    requires IsRun(coerce, run) && i < |run|
    ensures Inv(coerce, run[i])
    ensures i > 0 ==> Grows(run[i - 1], run[i])
  {
    if i == 0 {
      InitInv(coerce, run[0]);
    } else {
      RunInv(coerce, run, i - 1);
      assert Next(coerce, run[i - 1], run[i]) by { assert StepAt(coerce, run, i); }
      NextKeeps(coerce, run[i - 1], run[i]);
    }
  }

  lemma ReachableInv(coerce: Coercion, s: State)
    requires Reachable(coerce, s)
    ensures Inv(coerce, s)
  {
    var run :| IsRun(coerce, run) && run[|run| - 1] == s;
    RunInv(coerce, run, |run| - 1);
  }

  /** One more step stays reachable. */
  lemma ReachStep(coerce: Coercion, s: State, s': State)
    requires Reachable(coerce, s) && Next(coerce, s, s')
    ensures Reachable(coerce, s')
  {
    var run :| IsRun(coerce, run) && run[|run| - 1] == s;
    var longer := run + [s'];
    forall i | 0 < i < |longer| ensures StepAt(coerce, longer, i) {
      assert i < |run| ==> StepAt(coerce, run, i);
    }
    assert IsRun(coerce, longer) && longer[|longer| - 1] == s';
  }

  // ---------------------------------------------------------------- what holds in every reachable state

  function Tally(b: bool): nat {
    if b then 1 else 0
  }

  /** How many places hold message m. */
  ghost function Places(s: State, m: MsgId): nat {
    Tally(m in s.ready) + Tally(Unsettled(s, m)) + Tally(m in s.acked) + Tally(m in s.dlq) + Tally(m in s.lost)
  }

  /** An accepted message is ready, unacknowledged under one tag, acknowledged or dead-lettered: exactly one. */
  lemma ExactlyOnePlace(coerce: Coercion, s: State, m: MsgId)
    requires Reachable(coerce, s)
    ensures Places(s, m) == if m in s.bodies then 1 else 0
    ensures forall t, t' | t in s.unacked && t' in s.unacked && s.unacked[t].msg == m && s.unacked[t'].msg == m :: t == t'
  {
    assert Conserved(s) by {
      ReachableInv(coerce, s);
    }
  }

  /** Acknowledged means committed; dead-lettered means malformed or three failed attempts; nothing is lost. */
  lemma SettledForAReason(coerce: Coercion, s: State)
    requires Reachable(coerce, s)
    ensures forall m | m in s.acked :: Recorded(coerce, s, m)
    ensures forall m | m in s.dlq :: DeadLetterJustified(s, m, s.dlq[m])
    ensures s.lost == {}
  {
    ReachableInv(coerce, s);
  }

  /** A settlement sent on a closed channel changes nothing at the broker; on an open one it files its own delivery. */
  lemma OnlyOwnDeliveryIsSettled(coerce: Coercion, s: State, s': State, w: nat)
    requires Reachable(coerce, s) && Settle(s, s', w)
    ensures s.workers[w].channel !in s.open ==> s' == s.(workers := s.workers[w := Disconnected])
    ensures s.workers[w].channel in s.open ==>
              var Settled(channel, tag, msg, how) := s.workers[w];
              && tag in s.unacked && s.unacked[tag] == Delivery(channel, msg)
              && s'.ready == s.ready && s'.unacked == s.unacked - {tag} && s'.rows == s.rows
              && s'.open == s.open && s'.workers == s.workers[w := Consuming(channel)]
              && (if how.Acknowledge? then s'.acked == s.acked + {msg} && s'.dlq == s.dlq
                  else s'.acked == s.acked && s'.dlq == s.dlq[msg := how.failures])
  {
    assert Wired(s) && Held(s) && WorkerOk(coerce, s, s.workers[w]) by {
      ReachableInv(coerce, s);
    }
  }

  lemma {:induction false} RunGrows(coerce: Coercion, run: seq<State>, i: nat, j: nat)
    requires IsRun(coerce, run) && i <= j < |run|
    ensures Grows(run[i], run[j])
  {
    if i < j {
      RunGrows(coerce, run, i, j - 1);
      RunInv(coerce, run, j);
      GrowsTransitive(run[i], run[j - 1], run[j]);
    }
  }

  lemma LaterGrows(coerce: Coercion, s: State, s': State)
    requires Later(coerce, s, s')
    ensures Grows(s, s') && Conserved(s')
  {
    var run, i :| IsRun(coerce, run) && 0 <= i < |run| && run[i] == s && run[|run| - 1] == s';
    RunGrows(coerce, run, i, |run| - 1);
    RunInv(coerce, run, |run| - 1);
  }

  /** No unacknowledged tag is new. */
  ghost predicate NoNewTags(s: State, s': State) {
    forall t | t in s'.unacked :: t in s.unacked && s'.unacked[t] == s.unacked[t]
  }

  lemma AttemptAddsNoTags(coerce: Coercion, s: State, s': State, w: nat, fault: DbFault)
    requires Attempt(coerce, s, s', w, fault)
    ensures NoNewTags(s, s')
  {}

  lemma SettleAddsNoTags(s: State, s': State, w: nat)
    requires Settle(s, s', w)
    ensures NoNewTags(s, s')
  {}

  lemma BeginAddsNoTags(s: State, s': State, w: nat, tag: Tag)
    requires Begin(s, s', w, tag)
    ensures NoNewTags(s, s')
  {}

  lemma OtherInternalAddsNoTags(coerce: Coercion, s: State, s': State)
    requires Internal(coerce, s, s') && !(exists w, m :: Deliver(s, s', w, m))
    ensures NoNewTags(s, s')
  {
    if w, fault :| Attempt(coerce, s, s', w, fault) {
      AttemptAddsNoTags(coerce, s, s', w, fault);
    } else if w :| Settle(s, s', w) {
      SettleAddsNoTags(s, s', w);
    } else if w, tag :| Begin(s, s', w, tag) {
      BeginAddsNoTags(s, s', w, tag);
    } else {
      assert s'.unacked == s.unacked;
    }
  }

  lemma ExternalAddsNoTags(s: State, s': State)
    requires External(s, s')
    ensures NoNewTags(s, s')
  {}

  lemma NoNewTagsKeepsPrefetch(s: State, s': State, channel: ChannelId)
    requires NoNewTags(s, s')
    ensures |Outstanding(s', channel)| <= |Outstanding(s, channel)|
  {
    SubsetSize(Outstanding(s', channel), Outstanding(s, channel));
  }

  lemma DeliverKeepsPrefetch(s: State, s': State, w: nat, m: MsgId, channel: ChannelId)
    requires Deliver(s, s', w, m) && |Outstanding(s, channel)| <= 10
    ensures |Outstanding(s', channel)| <= 10
  {
    if channel == s.workers[w].channel {
      SubsetSize(Outstanding(s', channel), Outstanding(s, channel) + {s.nextTag});
    } else {
      SubsetSize(Outstanding(s', channel), Outstanding(s, channel));
    }
  }

  lemma NextKeepsPrefetch(coerce: Coercion, s: State, s': State, channel: ChannelId)
    requires Next(coerce, s, s') && |Outstanding(s, channel)| <= 10
    ensures |Outstanding(s', channel)| <= 10
  {
    if w, m :| Deliver(s, s', w, m) {
      DeliverKeepsPrefetch(s, s', w, m, channel);
    } else {
      assert NoNewTags(s, s') by {
        if Internal(coerce, s, s') {
          OtherInternalAddsNoTags(coerce, s, s');
        } else {
          ExternalAddsNoTags(s, s');
        }
      }
      NoNewTagsKeepsPrefetch(s, s', channel);
    }
  }

  lemma {:induction false} RunPrefetch(coerce: Coercion, run: seq<State>, i: nat, channel: ChannelId)
    requires IsRun(coerce, run) && i < |run|
    ensures |Outstanding(run[i], channel)| <= 10
  {
    if i == 0 {
      assert Outstanding(run[0], channel) == {};
    } else {
      RunPrefetch(coerce, run, i - 1, channel);
      assert Next(coerce, run[i - 1], run[i]) by { assert StepAt(coerce, run, i); }
      NextKeepsPrefetch(coerce, run[i - 1], run[i], channel);
    }
  }

  /** No consumer ever holds more than ten unacknowledged deliveries. */
  lemma PrefetchBounds(coerce: Coercion, s: State, channel: ChannelId)
    requires Reachable(coerce, s)
    ensures |set t | t in s.unacked && s.unacked[t].channel == channel| <= 10
  {
    var run :| IsRun(coerce, run) && run[|run| - 1] == s;
    RunPrefetch(coerce, run, |run| - 1, channel);
    assert Outstanding(s, channel) == set t | t in s.unacked && s.unacked[t].channel == channel;
  }

  /** No acknowledged or dead-lettered message is ever delivered again. */
  lemma SettlementIsFinal(coerce: Coercion, s: State, s': State, m: MsgId)
    requires Later(coerce, s, s') && (m in s.acked || m in s.dlq)
    ensures m in s.acked ==> m in s'.acked
    ensures m in s.dlq ==> m in s'.dlq && s'.dlq[m] == s.dlq[m]
    ensures m !in s'.ready && !Unsettled(s', m)
  {
    LaterGrows(coerce, s, s');
  }

  /** Accepted events that share an event id are the same event; an event id may be NULL. */
  ghost predicate FreshEventIds(coerce: Coercion, s: State) {
    forall m, m' | m in s.bodies && m' in s.bodies && s.bodies[m].Event? && s.bodies[m'].Event? ::
      match (coerce(s.bodies[m].columns), coerce(s.bodies[m'].columns))
      case (Some(row), Some(row')) =>
        row.eventKey.Some? && row.eventKey == row'.eventKey ==> row == row'
      case _ => true
  }

  lemma WritesConsistent(coerce: Coercion, s: State)
    requires TableOk(coerce, s) && FreshEventIds(coerce, s)
    ensures Consistent(s.writes)
  {
    forall i, j | 0 <= i < |s.writes| && 0 <= j < |s.writes|
                  && s.writes[i].eventKey.Some? && s.writes[i].eventKey == s.writes[j].eventKey
      ensures s.writes[i] == s.writes[j]
    {
      var m :| m in s.bodies && s.bodies[m].Event? && coerce(s.bodies[m].columns) == Some(s.writes[i]);
      var m' :| m' in s.bodies && s.bodies[m'].Event? && coerce(s.bodies[m'].columns) == Some(s.writes[j]);
    }
  }

  /**
   * Crashes, redeliveries and racing workers do not show: a URL's count is its number of distinct
   * committed events, plus one for each committed write without an event id. So it is the number of
   * distinct events exactly if no keyless write for that URL has committed.
   */
  lemma CountIsExact(coerce: Coercion, s: State, urlId: int)
    requires Reachable(coerce, s) && FreshEventIds(coerce, s)
    ensures CountFor(s.rows, urlId) == |KeysFor(s.writes, urlId)| + KeylessFor(s.writes, urlId)
    ensures CountFor(s.rows, urlId) == |KeysFor(s.writes, urlId)|
       <==> forall i | 0 <= i < |s.writes| && s.writes[i].urlId == urlId :: s.writes[i].eventKey.Some?
    ensures forall i | 0 <= i < |s.writes| :: FromMessage(coerce, s, s.writes[i])
  {
    assert TableOk(coerce, s) by {
      ReachableInv(coerce, s);
    }
    WritesConsistent(coerce, s);
    CountIsDistinctEvents(s.writes, urlId);
    NoKeyless(s.writes, urlId);
  }

  /** Even with clashing event ids: a URL's count is its number of committed writes that were keyless or first with their key. */
  lemma CountIsFirstCommits(coerce: Coercion, s: State, urlId: int)
    requires Reachable(coerce, s)
    ensures CountFor(s.rows, urlId) == |RowsAddedFor(s.writes, urlId)|
  {
    assert TableOk(coerce, s) by {
      ReachableInv(coerce, s);
    }
    CountIsFirstWrites(s.writes, urlId);
  }

  /** With event ids unshared, the row of a recorded event is its own. */
  lemma RecordedAsItself(coerce: Coercion, s: State, m: MsgId)
    requires Reachable(coerce, s) && FreshEventIds(coerce, s) && Recorded(coerce, s, m)
    ensures coerce(s.bodies[m].columns).value in s.rows
  {
    assert TableOk(coerce, s) by {
      ReachableInv(coerce, s);
    }
    var row := coerce(s.bodies[m].columns).value;
    if Conflicts(s.rows, row) {
      var i :| 0 <= i < |s.rows| && s.rows[i].eventKey == row.eventKey;
      WritesConsistent(coerce, s);
      TableRowsAreWrites(s.writes, s.rows[i]);
      assert FromMessage(coerce, s, s.rows[i]);
      var m' :| m' in s.bodies && s.bodies[m'].Event? && coerce(s.bodies[m'].columns) == Some(s.rows[i]);
    }
  }
}
