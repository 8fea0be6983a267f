/**
 * The pipeline drains: with finitely many further publishes, connection losses, crashes and new
 * URLs, and no body that makes an exception escape, every run stops with every message settled.
 */
module PipelineDrain {
  import opened Common
  import opened ClickEvents
  import opened EventProcessing
  import opened Workers
  import opened PipelineProtocol
  import opened PipelineSafety

  /** Every open channel belongs to some worker. */
  ghost predicate Owned(s: State) {
    forall c | c in s.open :: exists w :: 0 <= w < |s.workers| && HasChannel(s.workers[w]) && s.workers[w].channel == c
  }

  ghost predicate NothingEscapes(s: State) {
    && (forall m | m in s.bodies :: !s.bodies[m].Escapes?)
    && (forall w | 0 <= w < |s.workers| :: !s.workers[w].Stopped?)
  }

  ghost predicate Working(coerce: Coercion, s: State) {
    Inv(coerce, s) && Owned(s) && NothingEscapes(s) && s.workers != []
  }

  ghost predicate Disturb(s: State, s': State) {
    || (exists m, body: Checked :: !body.Escapes? && Publish(s, s', m, body))
    || (exists channel :: Drop(s, s', channel))
    || (exists w :: CrashWorker(s, s', w))
    || AddUrls(s, s')
  }

  /** The pipeline with a budget of disturbances. */
  datatype Budgeted = Budgeted(state: State, budget: nat)

  ghost predicate DrainStep(coerce: Coercion, b: Budgeted, b': Budgeted) {
    || (Internal(coerce, b.state, b'.state) && b'.budget == b.budget)
    || (Disturb(b.state, b'.state) && b.budget > 0 && b'.budget == b.budget - 1)
  }

  // ---------------------------------------------------------------- the measure

  /** How far a worker is from consuming on an open channel. */
  function Rank(open: set<ChannelId>, w: Worker): nat {
    match w
    case Disconnected => 3
    case Stopped => 0
    case Connected(channel) => if channel in open then 2 else 4
    case Declared(channel) => if channel in open then 1 else 4
    case _ => if w.channel in open then 0 else 4
  }

  function Ranks(open: set<ChannelId>, ws: seq<Worker>): nat {
    if ws == [] then 0 else Rank(open, ws[0]) + Ranks(open, ws[1..])
  }

  /** How much of the current delivery is left. */
  function Left(w: Worker): nat {
    match w
    case Consuming(_) => MAX_RETRIES + 2
    case Handling(_, _, _, attempt) => if attempt <= MAX_RETRIES then MAX_RETRIES + 2 - attempt else 0
    case Settled(_, _, _, _) => 1
    case _ => 0
  }

  function Lefts(ws: seq<Worker>): nat {
    if ws == [] then 0 else Left(ws[0]) + Lefts(ws[1..])
  }

  lemma {:induction false} RanksUpdate(open: set<ChannelId>, ws: seq<Worker>, w: nat, now: Worker)
    requires w < |ws|
    ensures Ranks(open, ws[w := now]) == Ranks(open, ws) - Rank(open, ws[w]) + Rank(open, now)
  {
    if w > 0 {
      RanksUpdate(open, ws[1..], w - 1, now);
      assert ws[w := now][1..] == ws[1..][w - 1 := now];
    } else {
      assert ws[w := now][1..] == ws[1..];
    }
  }

  lemma {:induction false} LeftsUpdate(ws: seq<Worker>, w: nat, now: Worker)
    requires w < |ws|
    ensures Lefts(ws[w := now]) == Lefts(ws) - Left(ws[w]) + Left(now)
  {
    if w > 0 {
      LeftsUpdate(ws[1..], w - 1, now);
      assert ws[w := now][1..] == ws[1..][w - 1 := now];
    } else {
      assert ws[w := now][1..] == ws[1..];
    }
  }

  lemma {:induction false} RanksSameOpen(open: set<ChannelId>, open': set<ChannelId>, ws: seq<Worker>)
    requires forall w | 0 <= w < |ws| && HasChannel(ws[w]) :: ws[w].channel in open <==> ws[w].channel in open'
    ensures Ranks(open, ws) == Ranks(open', ws)
  {
    if ws != [] {
      assert forall w | 0 <= w < |ws[1..]| :: ws[1..][w] == ws[w + 1];
      RanksSameOpen(open, open', ws[1..]);
    }
  }

  /** Lexicographic descent, between equal budgets. */
  ghost predicate Descends(s: State, s': State) {
    var r, r' := Ranks(s.open, s.workers), Ranks(s'.open, s'.workers);
    || r' < r
    || (r' == r && |s'.ready| < |s.ready|)
    || (r' == r && |s'.ready| == |s.ready| && |s'.unacked.Keys| < |s.unacked.Keys|)
    || (r' == r && |s'.ready| == |s.ready| && |s'.unacked.Keys| == |s.unacked.Keys| && Lefts(s'.workers) < Lefts(s.workers))
  }

  /** What an internal step does for the drain: it descends, and keeps channels owned and workers alive. */
  ghost predicate Drains(s: State, s': State) {
    && Descends(s, s')
    && (Owned(s) ==> Owned(s'))
    && (NothingEscapes(s) ==> NothingEscapes(s'))
    && |s'.workers| == |s.workers|
  }

  lemma OwnedUpdate(s: State, s': State, w: nat, now: Worker)
    requires Owned(s) && w < |s.workers| && s'.workers == s.workers[w := now] && s'.open <= s.open
    requires HasChannel(s.workers[w]) && s.workers[w].channel in s'.open ==> HasChannel(now) && now.channel == s.workers[w].channel
    ensures Owned(s')
  {
    forall c | c in s'.open
      ensures exists v :: 0 <= v < |s'.workers| && HasChannel(s'.workers[v]) && s'.workers[v].channel == c
    {
      var v :| 0 <= v < |s.workers| && HasChannel(s.workers[v]) && s.workers[v].channel == c;
      assert HasChannel(s'.workers[v]) && s'.workers[v].channel == c;
    }
  }

  lemma SameWorkersOwned(s: State, s': State)
    requires Owned(s) && s'.workers == s.workers && s'.open <= s.open
    ensures Owned(s')
  {}

  lemma ConnectOwned(s: State, s': State, w: nat)
    requires Owned(s) && Connect(s, s', w)
    ensures Owned(s')
  {
    forall c | c in s'.open
      ensures exists v :: 0 <= v < |s'.workers| && HasChannel(s'.workers[v]) && s'.workers[v].channel == c
    {
      if c == s.nextChannel {
        assert HasChannel(s'.workers[w]) && s'.workers[w].channel == c;
      } else {
        var v :| 0 <= v < |s.workers| && HasChannel(s.workers[v]) && s.workers[v].channel == c;
        assert HasChannel(s'.workers[v]) && s'.workers[v].channel == c;
      }
    }
  }

  lemma ConnectDrains(s: State, s': State, w: nat)
    requires Wired(s) && Connect(s, s', w)
    ensures Drains(s, s')
  {
    RanksSameOpen(s.open, s'.open, s.workers);
    RanksUpdate(s'.open, s.workers, w, Connected(s.nextChannel));
    if Owned(s) {
      ConnectOwned(s, s', w);
    }
  }

  /** A worker moves on; the queues and the open channels stay. */
  lemma MoveDrains(s: State, s': State, w: nat, now: Worker)
    requires w < |s.workers| && HasChannel(s.workers[w]) && !now.Stopped?
    requires s'.workers == s.workers[w := now] && s'.open == s.open && s'.ready == s.ready && s'.bodies == s.bodies
    requires s.workers[w].channel in s.open ==> HasChannel(now) && now.channel == s.workers[w].channel
    requires || Rank(s.open, now) < Rank(s.open, s.workers[w])
             || (Rank(s.open, now) == Rank(s.open, s.workers[w])
                 && (|s'.unacked.Keys| < |s.unacked.Keys| || (s'.unacked == s.unacked && Left(now) < Left(s.workers[w]))))
    ensures Drains(s, s')
  {
    RanksUpdate(s.open, s.workers, w, now);
    LeftsUpdate(s.workers, w, now);
    if Owned(s) {
      OwnedUpdate(s, s', w, now);
    }
  }

  lemma DeclareDrains(s: State, s': State, w: nat)
    requires Declare(s, s', w)
    ensures Drains(s, s')
  {
    MoveDrains(s, s', w, s'.workers[w]);
  }

  lemma ConsumeDrains(s: State, s': State, w: nat)
    requires Consume(s, s', w)
    ensures Drains(s, s')
  {
    MoveDrains(s, s', w, s'.workers[w]);
  }

  lemma ForgetDrains(s: State, s': State, w: nat)
    requires w < |s.workers| && HasChannel(s.workers[w]) && s.workers[w].channel !in s.open
    requires s' == s.(workers := s.workers[w := Disconnected])
    ensures Drains(s, s')
  {
    MoveDrains(s, s', w, Disconnected);
  }

  lemma DeliverDrains(s: State, s': State, w: nat, m: MsgId)
    requires Deliver(s, s', w, m)
    ensures Drains(s, s')
  {}

  lemma BeginDrains(s: State, s': State, w: nat, tag: Tag)
    requires Begin(s, s', w, tag)
    ensures Drains(s, s')
  {
    MoveDrains(s, s', w, s'.workers[w]);
  }

  lemma FindMalformedDrains(coerce: Coercion, s: State, s': State, w: nat)
    requires WorkersOk(coerce, s) && FindMalformed(s, s', w)
    ensures Drains(s, s')
  {
    assert WorkerOk(coerce, s, s.workers[w]);
    MoveDrains(s, s', w, s'.workers[w]);
  }

  lemma AttemptDrains(coerce: Coercion, s: State, s': State, w: nat, fault: DbFault)
    requires WorkersOk(coerce, s) && Attempt(coerce, s, s', w, fault)
    ensures Drains(s, s')
  {
    assert WorkerOk(coerce, s, s.workers[w]);
    MoveDrains(s, s', w, s'.workers[w]);
  }

  lemma FewerTags(unacked: map<Tag, Delivery>, tag: Tag)
    requires tag in unacked
    ensures |(unacked - {tag}).Keys| < |unacked.Keys|
  {}

  lemma SettleDrains(coerce: Coercion, s: State, s': State, w: nat)
    requires Wired(s) && Held(s) && WorkersOk(coerce, s) && Settle(s, s', w)
    ensures Drains(s, s')
  {
    assert WorkerOk(coerce, s, s.workers[w]);
    if s.workers[w].tag in s.unacked {
      FewerTags(s.unacked, s.workers[w].tag);
      MoveDrains(s, s', w, s'.workers[w]);
    } else {
      ForgetDrains(s, s', w);
    }
  }

  lemma InternalDrains(coerce: Coercion, s: State, s': State)
    requires Inv(coerce, s) && Internal(coerce, s, s')
    ensures Drains(s, s')
  {
    if w: nat :| Connect(s, s', w) {
      ConnectDrains(s, s', w);
    } else if w: nat :| Declare(s, s', w) {
      DeclareDrains(s, s', w);
    } else if w: nat :| Consume(s, s', w) {
      ConsumeDrains(s, s', w);
    } else if w: nat :| Notice(s, s', w) {
      ForgetDrains(s, s', w);
    } else if w: nat, m :| Deliver(s, s', w, m) {
      DeliverDrains(s, s', w, m);
    } else if w: nat, tag :| Begin(s, s', w, tag) {
      BeginDrains(s, s', w, tag);
    } else if w: nat :| FindMalformed(s, s', w) {
      FindMalformedDrains(coerce, s, s', w);
    } else if w: nat, fault :| Attempt(coerce, s, s', w, fault) {
      AttemptDrains(coerce, s, s', w, fault);
    } else {
      var w: nat :| Settle(s, s', w);
      SettleDrains(coerce, s, s', w);
    }
  }

  // ---------------------------------------------------------------- what draining steps keep

  lemma PublishWorks(coerce: Coercion, s: State, s': State, m: MsgId, body: Checked)
    requires Working(coerce, s) && !body.Escapes? && Publish(s, s', m, body)
    ensures Working(coerce, s')
  {
    PublishKeeps(coerce, s, s', m, body);
    SameWorkersOwned(s, s');
  }

  lemma DropWorks(coerce: Coercion, s: State, s': State, channel: ChannelId)
    requires Working(coerce, s) && Drop(s, s', channel)
    ensures Working(coerce, s')
  {
    ClosedKeeps(coerce, s, s', channel);
    SameWorkersOwned(s, s');
  }

  lemma CrashWorks(coerce: Coercion, s: State, s': State, w: nat)
    requires Working(coerce, s) && CrashWorker(s, s', w)
    ensures Working(coerce, s')
  {
    ClosedAndForgottenKeeps(coerce, s, s', w, Disconnected);
    OwnedUpdate(s, s', w, Disconnected);
  }

  lemma AddUrlsWorks(coerce: Coercion, s: State, s': State)
    requires Working(coerce, s) && AddUrls(s, s')
    ensures Working(coerce, s')
  {
    AddUrlsKeeps(coerce, s, s');
    SameWorkersOwned(s, s');
  }

  lemma DisturbWorks(coerce: Coercion, s: State, s': State)
    requires Working(coerce, s) && Disturb(s, s')
    ensures Working(coerce, s')
  {
    if m, body: Checked :| !body.Escapes? && Publish(s, s', m, body) {
      PublishWorks(coerce, s, s', m, body);
    } else if channel :| Drop(s, s', channel) {
      DropWorks(coerce, s, s', channel);
    } else if w: nat :| CrashWorker(s, s', w) {
      CrashWorks(coerce, s, s', w);
    } else {
      AddUrlsWorks(coerce, s, s');
    }
  }

  lemma InternalWorks(coerce: Coercion, s: State, s': State)
    requires Working(coerce, s) && Internal(coerce, s, s')
    ensures Working(coerce, s') && Descends(s, s')
  {
    InternalDrains(coerce, s, s');
    InternalKeeps(coerce, s, s');
  }

  /** The order that every step descends: the budget first, then the pipeline's own measure. */
  ghost predicate Smaller(b: Budgeted, b': Budgeted) {
    b'.budget < b.budget || (b'.budget == b.budget && Descends(b.state, b'.state))
  }

  lemma DrainStepKeeps(coerce: Coercion, b: Budgeted, b': Budgeted)
    requires Working(coerce, b.state) && DrainStep(coerce, b, b')
    ensures Working(coerce, b'.state) && Smaller(b, b')
  {
    if Disturb(b.state, b'.state) && b.budget > 0 && b'.budget == b.budget - 1 {
      DisturbWorks(coerce, b.state, b'.state);
    } else {
      InternalWorks(coerce, b.state, b'.state);
    }
  }

  // ---------------------------------------------------------------- progress

  ghost predicate AllSettled(s: State) {
    forall m | m in s.bodies :: m in s.acked || m in s.dlq
  }

  /** A worker that is busy, or not consuming on an open channel, can always take its next step. */
  lemma WorkerCanStep(coerce: Coercion, s: State, w: nat) returns (s': State)
    requires Working(coerce, s) && w < |s.workers|
    requires !(s.workers[w].Consuming? && s.workers[w].channel in s.open)
    ensures Internal(coerce, s, s')
  {
    var worker := s.workers[w];
    match worker {
      case Disconnected =>
        s' := s.(open := s.open + {s.nextChannel}, nextChannel := s.nextChannel + 1, workers := s.workers[w := Connected(s.nextChannel)]);
        assert Connect(s, s', w);
      case Connected(channel) =>
        if channel in s.open {
          s' := s.(dlqDeclared := true, workers := s.workers[w := Declared(channel)]);
          assert Declare(s, s', w);
        } else {
          s' := s.(workers := s.workers[w := Disconnected]);
          assert Notice(s, s', w);
        }
      case Declared(channel) =>
        if channel in s.open {
          s' := s.(workers := s.workers[w := Consuming(channel)]);
          assert Consume(s, s', w);
        } else {
          s' := s.(workers := s.workers[w := Disconnected]);
          assert Notice(s, s', w);
        }
      case Consuming(channel) =>
        s' := s.(workers := s.workers[w := Disconnected]);
        assert Notice(s, s', w);
      case Handling(channel, tag, msg, attempt) =>
        s' := HandlingCanStep(coerce, s, w);
      case Settled(channel, tag, msg, how) =>
        s' := if tag !in s.unacked then s.(workers := s.workers[w := Disconnected])
              else s.(unacked := s.unacked - {tag},
                      acked := if how.Acknowledge? then s.acked + {msg} else s.acked,
                      dlq := if how.DeadLetter? && s.dlqDeclared then s.dlq[msg := how.failures] else s.dlq,
                      lost := if how.DeadLetter? && !s.dlqDeclared then s.lost + {msg} else s.lost,
                      workers := s.workers[w := Consuming(channel)]);
        assert Settle(s, s', w);
      case Stopped =>
        assert false;
    }
  }

  lemma HandlingCanStep(coerce: Coercion, s: State, w: nat) returns (s': State)
    requires WorkersOk(coerce, s) && NothingEscapes(s) && w < |s.workers| && s.workers[w].Handling?
    ensures Internal(coerce, s, s')
  {
    assert WorkerOk(coerce, s, s.workers[w]);
    var Handling(channel, tag, msg, attempt) := s.workers[w];
    if s.bodies[msg].Malformed? {
      s' := s.(workers := s.workers[w := Settled(channel, tag, msg, DeadLetter(0))]);
      assert FindMalformed(s, s', w);
    } else {
      var columns := s.bodies[msg].columns;
      var commits := Commits(coerce, s, columns, NoFault);
      s' := s.(rows := AfterAttempt(coerce, s.urlIds, s.rows, columns, NoFault),
               writes := if commits then s.writes + [coerce(columns).value] else s.writes,
               workers := s.workers[w := NextAttempt(s.workers[w], commits)]);
      assert Attempt(coerce, s, s', w, NoFault);
    }
  }

  /** As long as some accepted message is unsettled, the pipeline can move without outside help. */
  lemma CanStep(coerce: Coercion, s: State) returns (s': State)
    requires Working(coerce, s) && !AllSettled(s)
    ensures Internal(coerce, s, s')
  {
    if w :| 0 <= w < |s.workers| && !(s.workers[w].Consuming? && s.workers[w].channel in s.open) {
      s' := WorkerCanStep(coerce, s, w);
    } else if s.unacked.Keys != {} {
      var t :| t in s.unacked.Keys;
      var w :| 0 <= w < |s.workers| && HasChannel(s.workers[w]) && s.workers[w].channel == s.unacked[t].channel;
      s' := s.(workers := s.workers[w := Handling(s.workers[w].channel, t, s.unacked[t].msg, 1)]);
      assert Begin(s, s', w, t);
    } else {
      s' := CanDeliver(coerce, s);
    }
  }

  lemma CanDeliver(coerce: Coercion, s: State) returns (s': State)
    requires Working(coerce, s) && !AllSettled(s) && s.unacked.Keys == {}
    requires s.workers[0].Consuming? && s.workers[0].channel in s.open
    ensures Internal(coerce, s, s')
  {
    var m :| m in s.bodies && m !in s.acked && m !in s.dlq;
    assert m in s.ready by {
      assert !Unsettled(s, m);
    }
    var channel := s.workers[0].channel;
    assert Outstanding(s, channel) == {};
    s' := s.(ready := s.ready - {m}, unacked := s.unacked[s.nextTag := Delivery(channel, m)], nextTag := s.nextTag + 1);
    assert Deliver(s, s', 0, m);
  }

  // ---------------------------------------------------------------- every run ends, drained

  /** Any step relation that descends from good states to good states has no infinite run. */
  lemma {:induction false} DescentStops(step: (Budgeted, Budgeted) -> bool, good: Budgeted -> bool, f: nat -> Budgeted, i: nat)
    returns (k: nat)
    requires good(f(i))
    requires forall b, b' | good(b) && step(b, b') :: good(b') && Smaller(b, b')
    ensures good(f(k)) && !step(f(k), f(k + 1))
    decreases f(i).budget, Ranks(f(i).state.open, f(i).state.workers), |f(i).state.ready|, |f(i).state.unacked.Keys|, Lefts(f(i).state.workers)
  {
    if step(f(i), f(i + 1)) {
      k := DescentStops(step, good, f, i + 1);
    } else {
      k := i;
    }
  }

  /** No infinite run: in every sequence of states some step is not a budgeted step. */
  lemma EveryRunStops(coerce: Coercion, f: nat -> Budgeted) returns (k: nat)
    requires Working(coerce, f(0).state)
    ensures Working(coerce, f(k).state) && !DrainStep(coerce, f(k), f(k + 1))
  {
    ghost var step := (b: Budgeted, b': Budgeted) => DrainStep(coerce, b, b');
    ghost var good := (b: Budgeted) => Working(coerce, b.state);
    forall b, b' | good(b) && step(b, b') ensures good(b') && Smaller(b, b') {
      DrainStepKeeps(coerce, b, b');
    }
    k := DescentStops(step, good, f, 0);
  }

  ghost predicate GoesOnIfPossible(coerce: Coercion, f: nat -> Budgeted, i: nat) {
    DrainStep(coerce, f(i), f(i + 1)) || forall b :: !DrainStep(coerce, f(i), b)
  }

  /**
   * Liveness: a run that takes a budgeted step whenever one is possible reaches a state in which
   * every accepted message has been acknowledged or dead-lettered.
   */
  lemma EveryRunDrains(coerce: Coercion, f: nat -> Budgeted) returns (k: nat)
    requires Working(coerce, f(0).state)
    requires forall i :: GoesOnIfPossible(coerce, f, i)
    ensures AllSettled(f(k).state)
  {
    k := EveryRunStops(coerce, f);
    assert GoesOnIfPossible(coerce, f, k);
    if !AllSettled(f(k).state) {
      var s' := CanStep(coerce, f(k).state);
      assert DrainStep(coerce, f(k), Budgeted(s', f(k).budget));
    }
  }

  /** A freshly started pipeline with at least one worker qualifies. */
  lemma InitWorks(coerce: Coercion, s: State)
    requires Init(s) && s.workers != []
    ensures Working(coerce, s)
  {}
}
