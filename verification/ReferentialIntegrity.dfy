/** URL service and click pipeline together: every url_id anywhere names an existing urls row. */
module ReferentialIntegrity {
  import opened Common
  import opened ClickEvents
  import opened EventProcessing
  import opened MessageQueue
  import opened PostgresUrls
  import opened UrlRecords
  import U = UrlProtocol
  import UI = UrlInvariant
  import P = PipelineProtocol
  import PS = PipelineSafety

  /** Both protocols over one database, and which messages redirects published for which URL id. */
  datatype System = System(urls: U.State, pipe: P.State, redirects: map<P.MsgId, int>)

  datatype Setting = Setting(ttl: int, coerce: Coercion, parse: UserAgentParser)

  /** Postgres stores a JSON number as that number. */
  ghost predicate NumbersKept(coerce: Coercion) {
    forall columns: Columns | columns.urlId.Number? && coerce(columns).Some? :: coerce(columns).value.urlId == columns.urlId.number
  }

  ghost predicate Init(s: System) {
    U.Init(s.urls) && P.Init(s.pipe) && s.pipe.urlIds == {} && s.redirects == map[]
  }

  /** A statement of the URL service; the foreign key sees the urls table at once. */
  ghost predicate UrlStep(c: Setting, s: System, s': System) {
    && U.Next(c.ttl, s.urls, s'.urls)
    && s' == s.(urls := s'.urls, pipe := s.pipe.(urlIds := s'.urls.table.rows.Keys))
  }

  /** A successful resolve publishes its click with the id it resolved to, possibly much later. */
  ghost predicate Redirect(c: Setting, s: System, s': System, k: U.CallId, m: P.MsgId, message: Json) {
    && U.Resolving(s.urls, k) && s.urls.calls[k].pc.ResolveOk?
    && (exists eventId, userAgent, referrer, at ::
          message == BuildClickEventMessage(eventId, s.urls.calls[k].pc.url.id, userAgent, referrer, at))
    && P.Publish(s.pipe, s'.pipe, m, Check(c.parse, Parsed(message)))
    && s' == s.(pipe := s'.pipe, redirects := s.redirects[m := s.urls.calls[k].pc.url.id])
  }

  /** Anybody else may publish anything. */
  ghost predicate ForeignPublish(c: Setting, s: System, s': System, m: P.MsgId, body: Body) {
    P.Publish(s.pipe, s'.pipe, m, Check(c.parse, body)) && s' == s.(pipe := s'.pipe)
  }

  ghost predicate PipeStep(c: Setting, s: System, s': System) {
    && (P.Internal(c.coerce, s.pipe, s'.pipe)
        || (exists channel :: P.Drop(s.pipe, s'.pipe, channel))
        || (exists w :: P.CrashWorker(s.pipe, s'.pipe, w))
        || (exists w :: P.Escape(s.pipe, s'.pipe, w))
        || (exists w :: P.Restart(s.pipe, s'.pipe, w)))
    && s' == s.(pipe := s'.pipe)
  }

  ghost predicate Next(c: Setting, s: System, s': System) {
    || UrlStep(c, s, s')
    || (exists k, m, message :: Redirect(c, s, s', k, m, message))
    || (exists m, body :: ForeignPublish(c, s, s', m, body))
    || PipeStep(c, s, s')
  }

  ghost predicate StepAt(c: Setting, run: seq<System>, i: nat)
    requires 0 < i < |run|
  {
    Next(c, run[i - 1], run[i])
  }

  ghost predicate IsRun(c: Setting, run: seq<System>) {
    run != [] && Init(run[0]) && forall i | 0 < i < |run| :: StepAt(c, run, i)
  }

  /** A redirect's message is a well-formed event for an existing URL. */
  ghost predicate RedirectOk(s: System, m: P.MsgId, urlId: int) {
    && m in s.pipe.bodies && s.pipe.bodies[m].Event?
    && s.pipe.bodies[m].columns.urlId == Number(urlId)
    && urlId in s.urls.table.rows
  }

  ghost predicate Inv(c: Setting, s: System) {
    && U.Reachable(c.ttl, s.urls)
    && P.Reachable(c.coerce, s.pipe)
    && s.pipe.urlIds == s.urls.table.rows.Keys
    && forall m | m in s.redirects :: RedirectOk(s, m, s.redirects[m])
  }

  /** The urls table and the message store only gain keys, so old redirects stay fine. */
  lemma RedirectsKeep(s: System, s': System)
    requires forall m | m in s.redirects :: RedirectOk(s, m, s.redirects[m])
    requires PS.Grows(s.pipe, s'.pipe) && s.urls.table.rows.Keys <= s'.urls.table.rows.Keys
    ensures forall m | m in s.redirects :: RedirectOk(s', m, s.redirects[m])
  {}

  lemma KeysGrow(rows: map<int, UrlRecord>, rows': map<int, UrlRecord>)
    requires Preserves(rows, rows')
    ensures rows.Keys <= rows'.Keys
  {
    forall id | id in rows.Keys ensures id in rows'.Keys {}
  }

  lemma UrlsGrow(ttl: int, urls: U.State, urls': U.State)
    requires U.Reachable(ttl, urls) && U.Next(ttl, urls, urls')
    ensures U.Reachable(ttl, urls') && urls.table.rows.Keys <= urls'.table.rows.Keys
  {
    UI.ReachStep(ttl, urls, urls');
    UI.LaterGrows(ttl, urls, urls');
    KeysGrow(urls.table.rows, urls'.table.rows);
  }

  lemma PipeGrows(coerce: Coercion, pipe: P.State, pipe': P.State)
    requires P.Reachable(coerce, pipe) && P.Next(coerce, pipe, pipe')
    ensures P.Reachable(coerce, pipe') && PS.Grows(pipe, pipe')
  {
    PS.ReachStep(coerce, pipe, pipe');
    PS.ReachableInv(coerce, pipe);
    PS.NextKeeps(coerce, pipe, pipe');
  }

  lemma UrlStepKeeps(c: Setting, s: System, s': System)
    requires Inv(c, s) && UrlStep(c, s, s')
    ensures Inv(c, s')
  {
    UrlsGrow(c.ttl, s.urls, s'.urls);
    NewUrlsKeep(c, s, s');
  }

  lemma NewUrlsKeep(c: Setting, s: System, s': System)
    requires Inv(c, s) && U.Reachable(c.ttl, s'.urls) && s.urls.table.rows.Keys <= s'.urls.table.rows.Keys
    requires s' == s.(urls := s'.urls, pipe := s.pipe.(urlIds := s'.urls.table.rows.Keys))
    ensures Inv(c, s')
  {
    assert P.Next(c.coerce, s.pipe, s'.pipe) by {
      assert P.AddUrls(s.pipe, s'.pipe);
    }
    PipeGrows(c.coerce, s.pipe, s'.pipe);
    RedirectsKeep(s, s');
  }

  lemma ResolvedIdExists(c: Setting, s: System, k: U.CallId)
    requires U.Reachable(c.ttl, s.urls) && U.Resolving(s.urls, k) && s.urls.calls[k].pc.ResolveOk?
    ensures s.urls.calls[k].pc.url.id in s.urls.table.rows
  {
    assert UI.CallInv(c.ttl, s.urls, k, s.urls.calls[k]) by {
      UI.ReachableInv(c.ttl, s.urls);
    }
  }

  lemma PublishGrows(c: Setting, s: P.State, s': P.State, m: P.MsgId, body: Checked)
    requires P.Reachable(c.coerce, s) && P.Publish(s, s', m, body)
    ensures P.Reachable(c.coerce, s') && PS.Grows(s, s')
  {
    assert P.Next(c.coerce, s, s') by {
      assert P.External(s, s');
    }
    PipeGrows(c.coerce, s, s');
  }

  lemma RedirectIsEvent(c: Setting, message: Json, id: int)
    requires exists eventId, userAgent, referrer, at :: message == BuildClickEventMessage(eventId, id, userAgent, referrer, at)
    ensures Check(c.parse, Parsed(message)).Event? && Check(c.parse, Parsed(message)).columns.urlId == Number(id)
  {
    var eventId, userAgent, referrer, at :| message == BuildClickEventMessage(eventId, id, userAgent, referrer, at);
    BuiltMessageIsEvent(c.parse, eventId, id, userAgent, referrer, at);
  }

  lemma RedirectKeeps(c: Setting, s: System, s': System, k: U.CallId, m: P.MsgId, message: Json)
    requires Inv(c, s) && Redirect(c, s, s', k, m, message)
    ensures Inv(c, s')
  {
    var id := s.urls.calls[k].pc.url.id;
    ResolvedIdExists(c, s, k);
    RedirectIsEvent(c, message, id);
    PublishGrows(c, s.pipe, s'.pipe, m, Check(c.parse, Parsed(message)));
    RedirectsKeep(s, s');
  }

  /** A pipeline step leaves the URLs alone and keeps the message store growing. */
  lemma PipeChangeKeeps(c: Setting, s: System, s': System)
    requires Inv(c, s) && s' == s.(pipe := s'.pipe)
    requires P.Reachable(c.coerce, s'.pipe) && PS.Grows(s.pipe, s'.pipe) && s'.pipe.urlIds == s.pipe.urlIds
    ensures Inv(c, s')
  {}

  lemma PipeStepKeeps(c: Setting, s: System, s': System)
    requires Inv(c, s) && PipeStep(c, s, s')
    ensures Inv(c, s')
  {
    assert P.Next(c.coerce, s.pipe, s'.pipe) && s'.pipe.urlIds == s.pipe.urlIds by {
      PipeStepIsNext(c, s, s');
    }
    PipeGrows(c.coerce, s.pipe, s'.pipe);
    PipeChangeKeeps(c, s, s');
  }

  lemma PipeStepIsNext(c: Setting, s: System, s': System)
    requires PipeStep(c, s, s')
    ensures P.Next(c.coerce, s.pipe, s'.pipe) && s'.pipe.urlIds == s.pipe.urlIds
  {}

  lemma NextKeeps(c: Setting, s: System, s': System)
    requires Inv(c, s) && Next(c, s, s')
    ensures Inv(c, s')
  {
    if UrlStep(c, s, s') {
      UrlStepKeeps(c, s, s');
    } else if k, m, message :| Redirect(c, s, s', k, m, message) {
      RedirectKeeps(c, s, s', k, m, message);
    } else if m, body :| ForeignPublish(c, s, s', m, body) {
      PublishGrows(c, s.pipe, s'.pipe, m, Check(c.parse, body));
      PipeChangeKeeps(c, s, s');
    } else {
      PipeStepKeeps(c, s, s');
    }
  }

  lemma InitInv(c: Setting, s: System)
    requires Init(s)
    ensures Inv(c, s)
  {
    assert U.IsRun(c.ttl, [s.urls]) && [s.urls][0] == s.urls;
    assert P.IsRun(c.coerce, [s.pipe]) && [s.pipe][0] == s.pipe;
  }

  lemma {:induction false} RunInv(c: Setting, run: seq<System>, i: nat)
    requires IsRun(c, run) && i < |run|
    ensures Inv(c, run[i])
  {
    if i > 0 {
      RunInv(c, run, i - 1);
      assert StepAt(c, run, i);
      NextKeeps(c, run[i - 1], run[i]);
    } else {
      InitInv(c, run[0]);
    }
  }

  ghost predicate Reachable(c: Setting, s: System) {
    exists run :: IsRun(c, run) && run[|run| - 1] == s
  }

  lemma ReachableInv(c: Setting, s: System)
    requires Reachable(c, s)
    ensures Inv(c, s)
  {
    var run :| IsRun(c, run) && run[|run| - 1] == s;
    RunInv(c, run, |run| - 1);
  }

  /** In every reachable state, deletes and stale hits included, every url_id names an existing row. */
  lemma EveryUrlIdExists(c: Setting, s: System)
    requires Reachable(c, s)
    ensures forall code | code in s.urls.cache :: s.urls.cache[code].entry.value.id in s.urls.table.rows
    ensures forall m | m in s.redirects :: RedirectOk(s, m, s.redirects[m])
    ensures forall i | 0 <= i < |s.pipe.rows| :: s.pipe.rows[i].urlId in s.urls.table.rows
  {
    ReachableInv(c, s);
    UI.ReachableInv(c.ttl, s.urls);
    PS.ReachableInv(c.coerce, s.pipe);
    forall code | code in s.urls.cache ensures s.urls.cache[code].entry.value.id in s.urls.table.rows {
      assert UI.CachedOk(c.ttl, s.urls, code, s.urls.cache[code]);
    }
    assert PS.TableOk(c.coerce, s.pipe);
  }

  /** So the foreign key never rejects a redirect's event: only the coercion of its values could. */
  lemma ForeignKeyAcceptsRedirects(c: Setting, s: System, m: P.MsgId)
    requires Reachable(c, s) && NumbersKept(c.coerce) && m in s.redirects && m in s.pipe.bodies && s.pipe.bodies[m].Event?
    ensures Rejects(c.coerce, s.pipe.urlIds, s.pipe.rows, s.pipe.bodies[m].columns)
       <==> c.coerce(s.pipe.bodies[m].columns).None?
  {
    assert RedirectOk(s, m, s.redirects[m]) && s.pipe.urlIds == s.urls.table.rows.Keys by {
      ReachableInv(c, s);
    }
  }

  /**
   * An acknowledged redirect is recorded, unless another event with its id came first; if accepted
   * events share no ids, its own row is in the table, under the URL it resolved to.
   */
  lemma AcknowledgedRedirectIsRecorded(c: Setting, s: System, m: P.MsgId)
    requires Reachable(c, s) && NumbersKept(c.coerce) && m in s.redirects && m in s.pipe.acked
    ensures PS.Recorded(c.coerce, s.pipe, m)
    ensures c.coerce(s.pipe.bodies[m].columns).value.urlId == s.redirects[m]
    ensures PS.FreshEventIds(c.coerce, s.pipe) ==> c.coerce(s.pipe.bodies[m].columns).value in s.pipe.rows
  {
    assert RedirectOk(s, m, s.redirects[m]) && P.Reachable(c.coerce, s.pipe) by {
      ReachableInv(c, s);
    }
    PS.SettledForAReason(c.coerce, s.pipe);
    if PS.FreshEventIds(c.coerce, s.pipe) {
      PS.RecordedAsItself(c.coerce, s.pipe, m);
    }
  }
}
