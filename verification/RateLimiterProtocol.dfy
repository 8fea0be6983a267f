/** Any number of limiter instances checking one identity at the same time. */
module RateLimiterProtocol {
  import opened Common
  import opened RateLimiting

  /** At most `k` calls between check and add; every timestamp lies in [clock + lo, clock + lo + d]. */
  datatype Params = Params(limit: nat, k: nat, lo: int, d: int)

  ghost predicate Reasonable(p: Params) {
    p.k >= 1 && 0 <= p.d < WINDOW
  }

  /** The shared set, Redis time, the calls that passed their check, and a log of all admissions. */
  datatype State = State(store: SortedSet, clock: int, inFlight: map<Member, int>, admitted: map<Member, int>)

  ghost predicate Init(s: State) {
    s.store.scores == map[] && s.inFlight == map[] && s.admitted == map[]
  }

  ghost predicate Tick(s: State, s': State) {
    s.clock <= s'.clock && s' == s.(clock := s'.clock)
  }

  ghost predicate InSkew(p: Params, now: int, clock: int) {
    clock + p.lo <= now <= clock + p.lo + p.d
  }

  ghost predicate Deny(p: Params, s: State, s': State, now: int) {
    && InSkew(p, now, s.clock)
    && |Checked(s.store, now, s.clock).scores| >= p.limit
    && s' == s.(store := Checked(s.store, now, s.clock))
  }

  ghost predicate Pass(p: Params, s: State, s': State, now: int, member: Member) {
    && InSkew(p, now, s.clock)
    && |Checked(s.store, now, s.clock).scores| < p.limit
    && member !in s.inFlight && member !in s.admitted
    && |s.inFlight| < p.k
    && s' == s.(store := Checked(s.store, now, s.clock), inFlight := s.inFlight[member := now])
  }

  ghost predicate Add(s: State, s': State, member: Member) {
    && member in s.inFlight
    && s' == s.(store := Added(s.store, member, s.inFlight[member], s.clock),
                inFlight := s.inFlight - {member},
                admitted := s.admitted[member := s.inFlight[member]])
  }

  ghost predicate Crash(s: State, s': State, member: Member) {
    member in s.inFlight && s' == s.(inFlight := s.inFlight - {member})
  }

  ghost predicate Next(p: Params, s: State, s': State) {
    || Tick(s, s')
    || (exists now :: Deny(p, s, s', now))
    || (exists now, member :: Pass(p, s, s', now, member))
    || (exists member :: Add(s, s', member))
    || (exists member :: Crash(s, s', member))
  }

  ghost predicate StepAt(p: Params, run: seq<State>, i: nat)
    requires 0 < i < |run|
  {
    Next(p, run[i - 1], run[i])
  }

  ghost predicate IsRun(p: Params, run: seq<State>) {
    && run != [] && Init(run[0])
    && forall i | 0 < i < |run| :: StepAt(p, run, i)
  }

  /** Members stamped in the half-open window of 60 - d seconds that starts at x. */
  ghost function InWindow(p: Params, stamps: map<Member, int>, x: int): set<Member> {
    set m | m in stamps && x < stamps[m] <= x + WINDOW - p.d
  }

  // ---------------------------------------------------------------- the bound

  /** Every admission young enough to matter is still in the live set. */
  ghost predicate Remembered(p: Params, s: State) {
    forall m | m in s.admitted ::
      && s.admitted[m] <= s.clock + p.lo + p.d
      && (s.admitted[m] > s.clock + p.lo + p.d - WINDOW ==>
            && m in s.store.scores && s.store.scores[m] == s.admitted[m]
            && s.admitted[m] <= s.store.deadline + p.lo + p.d - WINDOW)
  }

  ghost predicate Tracked(p: Params, s: State) {
    && s.inFlight.Keys !! s.admitted.Keys
    && |s.inFlight| <= p.k
    && (forall m | m in s.inFlight :: s.inFlight[m] <= s.clock + p.lo + p.d)
  }

  ghost predicate Bounded(p: Params, s: State) {
    forall x :: |InWindow(p, s.inFlight, x)| + |InWindow(p, s.admitted, x)| <= p.limit + p.k - 1
  }

  ghost predicate Inv(p: Params, s: State) {
    Tracked(p, s) && Remembered(p, s) && Bounded(p, s)
  }

  lemma KeysSize(m: map<Member, int>)
    ensures |m.Keys| == |m|
  {}

  /** A window that contains a passing call's timestamp holds fewer than `limit` earlier admissions. */
  lemma PassSeesWindow(p: Params, s: State, now: int, x: int)
    requires Reasonable(p) && Remembered(p, s) && InSkew(p, now, s.clock)
    requires x < now <= x + WINDOW - p.d
    ensures |InWindow(p, s.admitted, x)| <= |Checked(s.store, now, s.clock).scores|
  {
    var checked := Checked(s.store, now, s.clock).scores;
    KeysSize(checked);
    SubsetSize(InWindow(p, s.admitted, x), checked.Keys);
  }

  lemma PassKeepsBound(p: Params, s: State, s': State, now: int, member: Member, x: int)
    requires Reasonable(p) && Inv(p, s) && Pass(p, s, s', now, member)
    ensures |InWindow(p, s'.inFlight, x)| + |InWindow(p, s'.admitted, x)| <= p.limit + p.k - 1
  {
    if x < now <= x + WINDOW - p.d {
      PassSeesWindow(p, s, now, x);
      KeysSize(s'.inFlight);
      SubsetSize(InWindow(p, s'.inFlight, x), s'.inFlight.Keys);
      assert s'.inFlight.Keys == s.inFlight.Keys + {member};
      KeysSize(s.inFlight);
    } else {
      assert InWindow(p, s'.inFlight, x) == InWindow(p, s.inFlight, x);
    }
  }

  /** An add moves one stamp between the two logs, so their joint count in any window stays. */
  lemma AddMovesStamp(p: Params, s: State, s': State, member: Member, x: int)
    requires s.inFlight.Keys !! s.admitted.Keys && Add(s, s', member)
    ensures member !in InWindow(p, s.admitted, x)
    ensures InWindow(p, s'.inFlight, x) == InWindow(p, s.inFlight, x) - {member}
    ensures InWindow(p, s'.admitted, x)
         == if member in InWindow(p, s.inFlight, x) then InWindow(p, s.admitted, x) + {member} else InWindow(p, s.admitted, x)
  {}

  lemma AddKeepsBound(p: Params, s: State, s': State, member: Member, x: int)
    requires Tracked(p, s) && Bounded(p, s) && Add(s, s', member)
    ensures |InWindow(p, s'.inFlight, x)| + |InWindow(p, s'.admitted, x)| <= p.limit + p.k - 1
  {
    AddMovesStamp(p, s, s', member, x);
    assert |InWindow(p, s.inFlight, x)| + |InWindow(p, s.admitted, x)| <= p.limit + p.k - 1;
  }

  lemma PassKeepsTracked(p: Params, s: State, s': State, now: int, member: Member)
    requires Reasonable(p) && Tracked(p, s) && Remembered(p, s) && Pass(p, s, s', now, member)
    ensures Tracked(p, s') && Remembered(p, s')
  {}

  lemma DropInFlight(p: Params, s: State, member: Member)
    requires Tracked(p, s) && member in s.inFlight
    ensures |s.inFlight - {member}| <= p.k
  {}

  lemma AddKeepsTracked(p: Params, s: State, s': State, member: Member)
    requires Reasonable(p) && Tracked(p, s) && Remembered(p, s) && Add(s, s', member)
    ensures Tracked(p, s') && Remembered(p, s')
  {}

  lemma CrashKeepsInv(p: Params, s: State, s': State, member: Member)
    requires Reasonable(p) && Inv(p, s) && Crash(s, s', member)
    ensures Inv(p, s')
  {
    forall x ensures |InWindow(p, s'.inFlight, x)| + |InWindow(p, s'.admitted, x)| <= p.limit + p.k - 1 {
      SubsetSize(InWindow(p, s'.inFlight, x), InWindow(p, s.inFlight, x));
      assert |InWindow(p, s.inFlight, x)| + |InWindow(p, s.admitted, x)| <= p.limit + p.k - 1;
    }
    DropInFlight(p, s, member);
  }

  lemma PassKeepsInv(p: Params, s: State, s': State, now: int, member: Member)
    requires Reasonable(p) && Inv(p, s) && Pass(p, s, s', now, member)
    ensures Inv(p, s')
  {
    PassKeepsTracked(p, s, s', now, member);
    forall x ensures |InWindow(p, s'.inFlight, x)| + |InWindow(p, s'.admitted, x)| <= p.limit + p.k - 1 {
      PassKeepsBound(p, s, s', now, member, x);
    }
  }

  lemma AddKeepsInv(p: Params, s: State, s': State, member: Member)
    requires Reasonable(p) && Inv(p, s) && Add(s, s', member)
    ensures Inv(p, s')
  {
    AddKeepsTracked(p, s, s', member);
    forall x ensures |InWindow(p, s'.inFlight, x)| + |InWindow(p, s'.admitted, x)| <= p.limit + p.k - 1 {
      AddKeepsBound(p, s, s', member, x);
    }
  }

  /** Clock steps and refusals leave both logs as they are. */
  lemma SameLogsKeepInv(p: Params, s: State, s': State)
    requires Reasonable(p) && Inv(p, s) && (Tick(s, s') || exists now :: Deny(p, s, s', now))
    ensures Inv(p, s')
  {
    assert s'.inFlight == s.inFlight && s'.admitted == s.admitted;
    forall x ensures |InWindow(p, s'.inFlight, x)| + |InWindow(p, s'.admitted, x)| <= p.limit + p.k - 1 {
      assert |InWindow(p, s.inFlight, x)| + |InWindow(p, s.admitted, x)| <= p.limit + p.k - 1;
    }
  }

  lemma NextKeepsInv(p: Params, s: State, s': State)
    requires Reasonable(p) && Inv(p, s) && Next(p, s, s')
    ensures Inv(p, s')
  {
    if now, member :| Pass(p, s, s', now, member) {
      PassKeepsInv(p, s, s', now, member);
    } else if member :| Add(s, s', member) {
      AddKeepsInv(p, s, s', member);
    } else if member :| Crash(s, s', member) {
      CrashKeepsInv(p, s, s', member);
    } else {
      SameLogsKeepInv(p, s, s');
    }
  }

  lemma InitInv(p: Params, s: State)
    requires Reasonable(p) && Init(s)
    ensures Inv(p, s)
  {}

  lemma {:induction false} RunInv(p: Params, run: seq<State>, i: nat)
    requires Reasonable(p) && IsRun(p, run) && i < |run|
    ensures Inv(p, run[i])
  {
    if i == 0 {
      InitInv(p, run[0]);
    } else {
      RunInv(p, run, i - 1);
      assert StepAt(p, run, i);
      NextKeepsInv(p, run[i - 1], run[i]);
    }
  }

  /** No interleaving admits more than limit + k - 1 calls stamped within 60 - d seconds. */
  lemma AdmissionBound(p: Params, run: seq<State>, i: nat, x: int)
    requires Reasonable(p) && IsRun(p, run) && i < |run|
    ensures |InWindow(p, run[i].admitted, x)| <= p.limit + p.k - 1
  {
    RunInv(p, run, i);
    assert |InWindow(p, run[i].inFlight, x)| + |InWindow(p, run[i].admitted, x)| <= p.limit + p.k - 1;
  }

  /** One call at a time with one clock: exactly the limit over any half-open minute. */
  lemma SequentialBound(limit: nat, lo: int, run: seq<State>, i: nat, x: int)
    requires IsRun(Params(limit, 1, lo, 0), run) && i < |run|
    ensures |set m | m in run[i].admitted && x < run[i].admitted[m] <= x + WINDOW| <= limit
  {
    var p := Params(limit, 1, lo, 0);
    AdmissionBound(p, run, i, x);
    assert InWindow(p, run[i].admitted, x)
        == set m | m in run[i].admitted && x < run[i].admitted[m] <= x + WINDOW;
  }

  /** From any state, an uninterrupted call can be made, and is the limiter's. */
  lemma SoloCallExists(p: Params, s: State, now: int, member: Member) returns (mid: State, s': State)
    requires InSkew(p, now, s.clock) && member !in s.inFlight && member !in s.admitted && |s.inFlight| < p.k
    ensures (Pass(p, s, mid, now, member) && Add(mid, s', member)) || (Deny(p, s, s', now) && mid == s)
    ensures s'.store == Decide(s.store, p.limit, now, member, s.clock, NoFault).after
    ensures s'.admitted
         == if Decide(s.store, p.limit, now, member, s.clock, NoFault).allowed then s.admitted[member := now] else s.admitted
    ensures s'.inFlight == s.inFlight && s'.clock == s.clock
  {
    var checked := Checked(s.store, now, s.clock);
    if |checked.scores| >= p.limit {
      mid, s' := s, s.(store := checked);
    } else {
      mid := s.(store := checked, inFlight := s.inFlight[member := now]);
      s' := mid.(store := Added(checked, member, now, s.clock), inFlight := mid.inFlight - {member},
                 admitted := s.admitted[member := now]);
    }
  }

  /** A check followed at once by its add, or a refusal, is the limiter's uninterrupted call. */
  lemma SoloCall(p: Params, s: State, mid: State, s': State, now: int, member: Member)
    requires (Pass(p, s, mid, now, member) && Add(mid, s', member)) || (Deny(p, s, s', now) && mid == s)
    ensures var outcome := Decide(s.store, p.limit, now, member, s.clock, NoFault);
            s'.store == outcome.after && (outcome.allowed <==> member in s'.admitted && member !in s.admitted)
  {}

  // ---------------------------------------------------------------- the bound is reached

  ghost predicate Between(from: nat, m: nat, to: nat) {
    from <= m < to
  }

  ghost function Stamped(from: nat, to: nat, stamp: int): map<Member, int> {
    map m: nat | from <= m < to && Between(from, m, to) :: stamp
  }

  lemma {:induction false} StampedSize(from: nat, to: nat, stamp: int)
    requires from <= to
    ensures |Stamped(from, to, stamp)| == to - from
  {
    if from < to {
      StampedSize(from, to - 1, stamp);
      StampedGrows(from, to - 1, stamp);
    }
  }

  lemma StampedGrows(from: nat, to: nat, stamp: int)
    requires from <= to
    ensures Stamped(from, to, stamp)[to := stamp] == Stamped(from, to + 1, stamp)
  {}

  lemma StampedShrinks(from: nat, to: nat, stamp: int)
    requires from < to
    ensures Stamped(from, to, stamp) - {from} == Stamped(from + 1, to, stamp)
  {}

  /** At clock 0: members below `done` admitted, members from there to `passed` in flight. */
  ghost predicate Crowded(p: Params, s: State, done: nat, passed: nat) {
    && s.clock == 0
    && s.store.scores == Stamped(0, done, p.lo)
    && (done > 0 ==> s.store.deadline == WINDOW)
    && s.admitted == Stamped(0, done, p.lo)
    && s.inFlight == Stamped(done, passed, p.lo)
  }

  lemma CrowdedView(p: Params, s: State, done: nat, passed: nat)
    requires Crowded(p, s, done, passed) && done <= passed
    ensures Live(s.store, 0) == Stamped(0, done, p.lo)
    ensures Checked(s.store, p.lo, 0).scores == Stamped(0, done, p.lo)
    ensures |Checked(s.store, p.lo, 0).scores| == done && |s.inFlight| == passed - done
  {
    StampedSize(0, done, p.lo);
    StampedSize(done, passed, p.lo);
    if done == 0 {
      assert Stamped(0, 0, p.lo) == map[];
    }
  }

  lemma Extend(p: Params, run: seq<State>, s': State) returns (longer: seq<State>)
    requires IsRun(p, run) && Next(p, run[|run| - 1], s')
    ensures IsRun(p, longer) && longer[|longer| - 1] == s'
  {
    longer := run + [s'];
    forall i | 0 < i < |longer| ensures StepAt(p, longer, i) {
      assert i < |run| ==> StepAt(p, run, i);
    }
  }

  lemma ExtendPass(p: Params, run: seq<State>, done: nat, passed: nat) returns (longer: seq<State>)
    requires Reasonable(p) && IsRun(p, run)
    requires done <= passed && done < p.limit && passed - done < p.k
    requires Crowded(p, run[|run| - 1], done, passed)
    ensures IsRun(p, longer) && Crowded(p, longer[|longer| - 1], done, passed + 1)
  {
    var s := run[|run| - 1];
    CrowdedView(p, s, done, passed);
    StampedGrows(done, passed, p.lo);
    var s' := s.(store := Checked(s.store, p.lo, 0), inFlight := s.inFlight[passed := p.lo]);
    assert Pass(p, s, s', p.lo, passed);
    longer := Extend(p, run, s');
  }

  lemma ExtendAdd(p: Params, run: seq<State>, done: nat, passed: nat) returns (longer: seq<State>)
    requires IsRun(p, run) && done < passed
    requires Crowded(p, run[|run| - 1], done, passed)
    ensures IsRun(p, longer) && Crowded(p, longer[|longer| - 1], done + 1, passed)
  {
    var s := run[|run| - 1];
    CrowdedView(p, s, done, passed);
    StampedGrows(0, done, p.lo);
    StampedShrinks(done, passed, p.lo);
    var s' := s.(store := Added(s.store, done, p.lo, 0), inFlight := s.inFlight - {done}, admitted := s.admitted[done := p.lo]);
    assert Add(s, s', done);
    longer := Extend(p, run, s');
  }

  /** For every limit and k there is a run that admits limit + k - 1 calls at one instant. */
  lemma BoundIsReached(p: Params) returns (run: seq<State>)
    requires Reasonable(p) && p.limit >= 1
    ensures IsRun(p, run)
    ensures |InWindow(p, run[|run| - 1].admitted, p.lo - 1)| == p.limit + p.k - 1
  {
    run := [State(SortedSet(map[], 0), 0, map[], map[])];
    assert Stamped(0, 0, p.lo) == map[];
    var done, passed := 0, 0;
    while done < p.limit - 1
      invariant done == passed <= p.limit - 1
      invariant IsRun(p, run) && Crowded(p, run[|run| - 1], done, passed)
    {
      run := ExtendPass(p, run, done, passed);
      run := ExtendAdd(p, run, done, passed + 1);
      done, passed := done + 1, passed + 1;
    }
    while passed < done + p.k
      invariant done <= passed <= done + p.k
      invariant IsRun(p, run) && Crowded(p, run[|run| - 1], done, passed)
    {
      run := ExtendPass(p, run, done, passed);
      passed := passed + 1;
    }
    while done < passed
      invariant done <= passed
      invariant IsRun(p, run) && Crowded(p, run[|run| - 1], done, passed)
    {
      run := ExtendAdd(p, run, done, passed);
      done := done + 1;
    }
    StampedSize(0, passed, p.lo);
    KeysSize(Stamped(0, passed, p.lo));
    assert InWindow(p, run[|run| - 1].admitted, p.lo - 1) == Stamped(0, passed, p.lo).Keys;
  }
}
