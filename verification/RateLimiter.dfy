/** The sliding-window limiter of `app/core/rate_limiter.py` and the Redis sorted sets it shares. */
module RateLimiting {

  // Times and scores are integer microseconds.
  const MICROS_PER_SECOND: int := 1_000_000
  const WINDOW: int := 60 * MICROS_PER_SECOND

  type Member = nat

  /** A sorted set under one key: members with scores, and the time the key expires. */
  datatype SortedSet = SortedSet(scores: map<Member, int>, deadline: int)

  const EMPTY: SortedSet := SortedSet(map[], 0)

  /** What a command executed at `clock` finds under the key. */
  function Live(z: SortedSet, clock: int): map<Member, int> {
    if clock < z.deadline then z.scores else map[]
  }

  /** ZREMRANGEBYSCORE key low high. */
  function Pruned(z: SortedSet, low: int, high: int, clock: int): SortedSet {
    SortedSet(map m | m in Live(z, clock) && !(low <= Live(z, clock)[m] <= high) :: Live(z, clock)[m], z.deadline)
  }

  /** The first transaction of a check made with timestamp `now`. */
  function Checked(z: SortedSet, now: int, clock: int): SortedSet {
    Pruned(z, 0, now - WINDOW, clock)
  }

  /** The second transaction: ZADD, then EXPIRE. */
  function Added(z: SortedSet, member: Member, score: int, clock: int): SortedSet {
    SortedSet(Live(z, clock)[member := score], clock + WINDOW)
  }

  /** Which transaction raises a RedisError, and whether the server had applied it. */
  datatype Fault = NoFault | CheckFails(applied: bool) | AddFails(applied: bool)

  datatype Outcome = Outcome(allowed: bool, after: SortedSet)

  /** One uninterrupted call, as a function of the sorted set it finds. */
  function Decide(z: SortedSet, limit: int, now: int, member: Member, clock: int, fault: Fault): Outcome {
    if fault.CheckFails? then Outcome(true, if fault.applied then Checked(z, now, clock) else z)
    else
      var checked := Checked(z, now, clock);
      if |checked.scores| >= limit then Outcome(false, checked)
      else if fault.AddFails? && !fault.applied then Outcome(true, checked)
      else Outcome(true, Added(checked, member, now, clock))
  }

  class SortedSetServer {
    var keys: map<string, SortedSet>
    var clock: int

    constructor (clock: int)
      ensures keys == map[] && this.clock == clock
    {
      keys, this.clock := map[], clock;
    }

    function Get(key: string): SortedSet
      reads this
    {
      if key in keys then keys[key] else EMPTY
    }

    /** ZREMRANGEBYSCORE and ZCARD in one transaction. */
    method PruneAndCount(key: string, low: int, high: int) returns (count: nat)
      modifies this`keys
      ensures keys == old(keys)[key := Pruned(old(Get(key)), low, high, clock)]
      ensures count == |Get(key).scores|
    {
      var pruned := Pruned(Get(key), low, high, clock);
      keys := keys[key := pruned];
      return |pruned.scores|;
    }

    /** ZADD and EXPIRE in one transaction. */
    method AddAndExpire(key: string, member: Member, score: int, ttl: int)
      modifies this`keys
      ensures keys == old(keys)[key := SortedSet(Live(old(Get(key)), clock)[member := score], clock + ttl)]
    {
      keys := keys[key := SortedSet(Live(Get(key), clock)[member := score], clock + ttl)];
    }
  }

  class RateLimiter {
    const client: SortedSetServer

    constructor (client: SortedSetServer)
      ensures this.client == client
    {
      this.client := client;
    }

    static function Key(identity: string): string {
      "ratelimit:" + identity
    }

    /** `is_allowed`: fails open on a Redis error, and touches no other identity's key. */
    method IsAllowed(identity: string, limit: int, now: int, member: Member, fault: Fault) returns (allowed: bool)
      modifies client`keys
      ensures var outcome := Decide(old(client.Get(Key(identity))), limit, now, member, client.clock, fault);
              allowed == outcome.allowed && client.Get(Key(identity)) == outcome.after
      ensures forall other | other != identity :: client.Get(Key(other)) == old(client.Get(Key(other)))
    {
      var key := Key(identity);
      assert forall other | other != identity :: Key(other) != key by {
        forall other | Key(other) == key ensures other == identity {
          assert Key(other)[10..] == other && key[10..] == identity;
        }
      }
      var windowStart := now - WINDOW;
      if fault == CheckFails(false) {
        return true;
      }
      var currentCount := client.PruneAndCount(key, 0, windowStart);
      if fault.CheckFails? {
        return true;
      }
      if currentCount >= limit {
        return false;
      }
      if fault == AddFails(false) {
        return true;
      }
      client.AddAndExpire(key, member, now, WINDOW);
      return true;
    }
  }

  // ---------------------------------------------------------------- any set, any clock, any fault

  /** The stored admissions that a check made with timestamp `now` counts. */
  function Counted(z: SortedSet, now: int, clock: int): set<Member> {
    set m | m in z.scores && clock < z.deadline && !(0 <= z.scores[m] <= now - 60_000_000)
  }

  lemma CheckedMembers(z: SortedSet, now: int, clock: int)
    ensures Checked(z, now, clock).scores.Keys == Counted(z, now, clock)
    ensures |Checked(z, now, clock).scores| == |Counted(z, now, clock)|
  {
    var scores := Checked(z, now, clock).scores;
    assert |scores| == |scores.Keys|;
  }

  /** Fail open: a call is refused exactly if its check worked and counted at least `limit` admissions. */
  lemma RefusesIff(z: SortedSet, limit: int, now: int, member: Member, clock: int, fault: Fault)
    ensures !Decide(z, limit, now, member, clock, fault).allowed
       <==> !fault.CheckFails?
            && |set m | m in z.scores && clock < z.deadline && !(0 <= z.scores[m] <= now - 60_000_000)| >= limit
  {
    CheckedMembers(z, now, clock);
    assert Counted(z, now, clock)
        == set m | m in z.scores && clock < z.deadline && !(0 <= z.scores[m] <= now - 60_000_000);
  }

  /**
   * What a call leaves stored: nothing changes if the check was not applied; otherwise the counted
   * admissions stay with their scores, and the caller's own joins them, for a minute, exactly if the
   * check succeeded, it was not refused, and its add was applied.
   */
  lemma Leaves(z: SortedSet, limit: int, now: int, member: Member, clock: int, fault: Fault)
    ensures var (after, counted) := (Decide(z, limit, now, member, clock, fault).after, Counted(z, now, clock));
            var adds := !fault.CheckFails? && |counted| < limit && fault != AddFails(false);
            && (fault == CheckFails(false) ==> after == z)
            && (fault != CheckFails(false) ==>
                  && after.scores.Keys == (if adds then counted + {member} else counted)
                  && (forall m | m in counted && !(adds && m == member) :: after.scores[m] == z.scores[m])
                  && (adds ==> after.scores[member] == now && after.deadline == clock + 60_000_000)
                  && (!adds ==> after.deadline == z.deadline))
  {
    CheckedMembers(z, now, clock);
  }

  // ---------------------------------------------------------------- full-history specification

  datatype Attempt = Attempt(now: int, limit: int, member: Member)

  /** The unpruned record of every admission: member to timestamp. */
  type History = map<Member, int>

  function Recent(history: History, now: int): History {
    map m | m in history && now - WINDOW < history[m] <= now :: history[m]
  }

  /** The specification: refuse exactly when `limit` admissions lie in the last 60 seconds. */
  function Admits(history: History, a: Attempt): bool {
    |Recent(history, a.now)| < a.limit
  }

  function Recorded(history: History, a: Attempt): History {
    if Admits(history, a) then history[a.member := a.now] else history
  }

  function HistoryAfter(attempts: seq<Attempt>): History {
    if attempts == [] then map[]
    else Recorded(HistoryAfter(attempts[..|attempts| - 1]), attempts[|attempts| - 1])
  }

  /** The set the limiter leaves in Redis after a sequence of fault-free calls. */
  function SetAfter(attempts: seq<Attempt>): SortedSet {
    if attempts == [] then EMPTY
    else Step(SetAfter(attempts[..|attempts| - 1]), attempts[|attempts| - 1]).after
  }

  function Step(z: SortedSet, a: Attempt): Outcome {
    Decide(z, a.limit, a.now, a.member, a.now, NoFault)
  }

  /** One clock that starts after the epoch and never runs backwards; member ids never repeat. */
  predicate Sequential(attempts: seq<Attempt>) {
    && (forall i | 0 <= i < |attempts| :: 0 <= attempts[i].now)
    && (forall i, j | 0 <= i < j < |attempts| :: attempts[i].now <= attempts[j].now)
    && (forall i, j | 0 <= i < j < |attempts| :: attempts[i].member != attempts[j].member)
  }

  /** The stored set holds every admission that can still matter after `last`, and nothing invented. */
  ghost predicate Refines(z: SortedSet, history: History, last: int) {
    && (forall m | m in history :: 0 <= history[m] <= last)
    && (forall m | m in z.scores :: m in history && z.scores[m] == history[m])
    && (forall m | m in history && last - WINDOW < history[m] ::
          m in z.scores && history[m] + WINDOW <= z.deadline)
  }

  /** Key expiry is invisible: what pruning leaves is the recent part of the history. */
  lemma PrunedIsRecent(z: SortedSet, history: History, last: int, now: int)
    requires Refines(z, history, last) && last <= now
    ensures Checked(z, now, now).scores == Recent(history, now)
  {}

  lemma StepRefines(z: SortedSet, history: History, last: int, a: Attempt)
    requires Refines(z, history, last) && last <= a.now && 0 <= a.now && a.member !in history
    ensures Step(z, a).allowed == Admits(history, a)
    ensures Refines(Step(z, a).after, Recorded(history, a), a.now)
  {
    PrunedIsRecent(z, history, last, a.now);
    var checked := Checked(z, a.now, a.now);
    assert Refines(checked, history, a.now);
  }

  lemma {:induction false} RunRefines(attempts: seq<Attempt>)
    requires Sequential(attempts)
    ensures forall m | m in HistoryAfter(attempts) :: exists i :: 0 <= i < |attempts| && attempts[i].member == m
    ensures Refines(SetAfter(attempts), HistoryAfter(attempts), if attempts == [] then 0 else attempts[|attempts| - 1].now)
  {
    if attempts != [] {
      var n := |attempts| - 1;
      var init, last := attempts[..n], attempts[n];
      RunRefines(init);
      StepRefines(SetAfter(init), HistoryAfter(init), if init == [] then 0 else init[n - 1].now, last);
      forall m | m in HistoryAfter(attempts) ensures exists i :: 0 <= i < |attempts| && attempts[i].member == m {
        if m in HistoryAfter(init) {
          var i :| 0 <= i < |init| && init[i].member == m;
          assert attempts[i].member == m;
        }
      }
    }
  }

  /** The pruned, expiring set decides every call as the full history of admissions would. */
  lemma LimiterDecidesByHistory(attempts: seq<Attempt>, a: Attempt)
    requires Sequential(attempts + [a])
    ensures Step(SetAfter(attempts), a).allowed
         == (|Recent(HistoryAfter(attempts), a.now)| < a.limit)
  {
    var all := attempts + [a];
    assert all[|attempts|] == a;
    assert Sequential(attempts) && (forall i | 0 <= i < |attempts| :: attempts[i].now <= a.now && attempts[i].member != a.member) by {
      forall i | 0 <= i < |attempts| ensures all[i] == attempts[i] {}
    }
    RunRefines(attempts);
    StepRefines(SetAfter(attempts), HistoryAfter(attempts),
                if attempts == [] then 0 else attempts[|attempts| - 1].now, a);
  }

  lemma {:induction false} SameHistorySameFuture(left: seq<Attempt>, right: seq<Attempt>, rest: seq<Attempt>)
    requires HistoryAfter(left) == HistoryAfter(right)
    ensures HistoryAfter(left + rest) == HistoryAfter(right + rest)
  {
    if rest == [] {
      assert left + rest == left && right + rest == right;
    } else {
      var n := |rest| - 1;
      SameHistorySameFuture(left, right, rest[..n]);
      assert left + rest == left + rest[..n] + [rest[n]] by { assert rest == rest[..n] + [rest[n]]; }
      assert right + rest == right + rest[..n] + [rest[n]] by { assert rest == rest[..n] + [rest[n]]; }
      HistorySnoc(left + rest[..n], rest[n]);
      HistorySnoc(right + rest[..n], rest[n]);
    }
  }

  lemma HistorySnoc(attempts: seq<Attempt>, a: Attempt)
    ensures HistoryAfter(attempts + [a]) == Recorded(HistoryAfter(attempts), a)
  {}

  lemma SequentialSlices(before: seq<Attempt>, denied: Attempt, rest: seq<Attempt>)
    requires Sequential(before + [denied] + rest)
    ensures Sequential(before + [denied]) && Sequential(before + rest)
  {
    var all, n := before + [denied] + rest, |before|;
    assert before + [denied] == all[..n + 1];
    var without := before + rest;
    assert forall i | 0 <= i < |without| :: without[i] == all[if i < n then i else i + 1];
  }

  /** A refused call never changes a later answer. */
  lemma DenialLeavesNoTrace(before: seq<Attempt>, denied: Attempt, rest: seq<Attempt>, a: Attempt)
    requires Sequential(before + [denied] + (rest + [a]))
    requires !Step(SetAfter(before), denied).allowed
    ensures Step(SetAfter(before + [denied] + rest), a).allowed == Step(SetAfter(before + rest), a).allowed
  {
    SequentialSlices(before, denied, rest + [a]);
    assert before + [denied] + (rest + [a]) == before + [denied] + rest + [a];
    assert before + (rest + [a]) == before + rest + [a];
    LimiterDecidesByHistory(before, denied);
    HistorySnoc(before, denied);
    SameHistorySameFuture(before + [denied], before, rest);
    LimiterDecidesByHistory(before + [denied] + rest, a);
    LimiterDecidesByHistory(before + rest, a);
  }
}
