/** `app/core/migrate.py`: one runner, start to finish. */
module Migrations {

  datatype Outcome = NoFiles | UpToDate | FailedAt(index: nat)

  predicate Distinct(files: seq<string>) {
    forall i, j | 0 <= i < j < |files| :: files[i] != files[j]
  }

  function SetOf(files: seq<string>): set<string> {
    set i | 0 <= i < |files| :: files[i]
  }

  /** The files a runner with this snapshot still has to apply, in order. */
  function Pending(files: seq<string>, applied: set<string>): seq<string> {
    if files == [] then []
    else
      var n := |files| - 1;
      Pending(files[..n], applied) + if files[n] in applied then [] else [files[n]]
  }

  lemma PendingSnoc(files: seq<string>, i: nat, applied: set<string>)
    requires i < |files|
    ensures Pending(files[..i + 1], applied)
         == Pending(files[..i], applied) + if files[i] in applied then [] else [files[i]]
    ensures SetOf(files[..i + 1]) == SetOf(files[..i]) + {files[i]}
  {
    assert files[..i + 1][..i] == files[..i];
  }

  /** A single file is pending exactly if it is not applied. */
  lemma PendingOne(file: string, applied: set<string>)
    ensures Pending([file], applied) == if file in applied then [] else [file]
  {
    assert [file][..0] == [];
  }

  /** Pending is decided part by part, in order: an applied file never hides a later one. */
  lemma {:induction false} PendingDistributes(left: seq<string>, right: seq<string>, applied: set<string>)
    ensures Pending(left + right, applied) == Pending(left, applied) + Pending(right, applied)
  {
    var all := left + right;
    if right == [] {
      assert all == left;
    } else {
      var n := |right| - 1;
      PendingDistributes(left, right[..n], applied);
      assert all[..|all| - 1] == left + right[..n] && all[|all| - 1] == right[n];
      var last := if right[n] in applied then [] else [right[n]];
      assert Pending(all, applied) == Pending(left, applied) + Pending(right[..n], applied) + last;
      assert Pending(right, applied) == Pending(right[..n], applied) + last;
    }
  }

  /** The scripts whose effects are in the schema, in commit order, and the rows of schema_migrations. */
  class Database {
    var scripts: seq<string>
    var marked: set<string>

    constructor (scripts: seq<string>)
      ensures this.scripts == scripts && marked == SetOf(scripts)
    {
      this.scripts, marked := scripts, SetOf(scripts);
    }

    /** One transaction: run the script and insert its marker, or roll both back. */
    method ApplyAndMark(file: string, fails: bool) returns (committed: bool)
      modifies this
      ensures committed == (!fails && file !in old(marked))
      ensures committed ==> scripts == old(scripts) + [file] && marked == old(marked) + {file}
      ensures !committed ==> scripts == old(scripts) && marked == old(marked)
    {
      if fails || file in marked {
        return false;
      }
      scripts, marked := scripts + [file], marked + {file};
      return true;
    }
  }

  /** What one complete call does to scripts and markers; `scriptFails(i)` says whether script i raises. */
  ghost predicate RunsAs(files: seq<string>, scripts: seq<string>, marked: set<string>, scriptFails: nat -> bool,
                         outcome: Outcome, scripts': seq<string>, marked': set<string>)
  {
    && (outcome == NoFiles <==> files == [])
    && (outcome == NoFiles ==> scripts' == scripts && marked' == marked)
    && (outcome == UpToDate ==>
          scripts' == scripts + Pending(files, marked) && marked' == marked + SetOf(files))
    && (outcome.FailedAt? ==>
          && outcome.index < |files| && files[outcome.index] !in marked && scriptFails(outcome.index)
          && (forall i | 0 <= i < outcome.index && files[i] !in marked :: !scriptFails(i))
          && scripts' == scripts + Pending(files[..outcome.index], marked)
          && marked' == marked + SetOf(files[..outcome.index]))
    && (outcome.FailedAt? <==> exists i :: 0 <= i < |files| && files[i] !in marked && scriptFails(i))
  }

  /** A run that fails names the first pending script that raises; a run that does not has marked every file. */
  lemma RunReports(files: seq<string>, scripts: seq<string>, marked: set<string>, scriptFails: nat -> bool,
                   outcome: Outcome, scripts': seq<string>, marked': set<string>)
    requires RunsAs(files, scripts, marked, scriptFails, outcome, scripts', marked')
    ensures scripts <= scripts' && marked <= marked'
    ensures forall i | 0 <= i < |files| ::
              outcome == FailedAt(i)
              <==> files[i] !in marked && scriptFails(i) && forall j | 0 <= j < i :: files[j] in marked || !scriptFails(j)
    ensures !outcome.FailedAt? ==> forall i | 0 <= i < |files| :: files[i] in marked'
    ensures outcome.FailedAt? ==> outcome.index < |files| && forall i | 0 <= i < outcome.index :: files[i] in marked'
  {
    if outcome.FailedAt? {
      forall i | 0 <= i < outcome.index ensures files[i] in marked' {
        assert files[..outcome.index][i] == files[i];
      }
    }
  }

  lemma CompleteRun(files: seq<string>, scripts: seq<string>, marked: set<string>, scriptFails: nat -> bool)
    requires files != [] && forall i | 0 <= i < |files| && files[i] !in marked :: !scriptFails(i)
    ensures RunsAs(files, scripts, marked, scriptFails, UpToDate, scripts + Pending(files, marked), marked + SetOf(files))
  {}

  lemma StoppedRun(files: seq<string>, scripts: seq<string>, marked: set<string>, scriptFails: nat -> bool, i: nat)
    requires i < |files| && files[i] !in marked && scriptFails(i)
    requires forall j | 0 <= j < i && files[j] !in marked :: !scriptFails(j)
    ensures RunsAs(files, scripts, marked, scriptFails, FailedAt(i),
                   scripts + Pending(files[..i], marked), marked + SetOf(files[..i]))
  {}

  /** `run_migrations` on the sorted file list; `scriptFails(i)` decides whether script i raises. */
  method RunMigrations(db: Database, files: seq<string>, scriptFails: nat -> bool) returns (outcome: Outcome)
    requires Distinct(files)
    modifies db
    ensures RunsAs(files, old(db.scripts), old(db.marked), scriptFails, outcome, db.scripts, db.marked)
  {
    var applied := db.marked;
    if files == [] {
      return NoFiles;
    }
    for i := 0 to |files|
      invariant db.scripts == old(db.scripts) + Pending(files[..i], applied)
      invariant db.marked == applied + SetOf(files[..i])
      invariant forall j | 0 <= j < i && files[j] !in applied :: !scriptFails(j)
    {
      PendingSnoc(files, i, applied);
      if files[i] !in applied {
        var committed := db.ApplyAndMark(files[i], scriptFails(i));
        if !committed {
          StoppedRun(files, old(db.scripts), applied, scriptFails, i);
          return FailedAt(i);
        }
      }
    }
    assert files[..|files|] == files;
    CompleteRun(files, old(db.scripts), applied, scriptFails);
    return UpToDate;
  }

  // ---------------------------------------------------------------- order and idempotence

  lemma {:induction false} PendingNothing(files: seq<string>, applied: set<string>)
    requires SetOf(files) <= applied
    ensures Pending(files, applied) == []
  {
    if files != [] {
      var n := |files| - 1;
      assert files[n] in SetOf(files);
      assert forall i | 0 <= i < n :: files[..n][i] == files[i] && files[i] in SetOf(files);
      PendingNothing(files[..n], applied);
    }
  }

  lemma {:induction false} PendingAfterPrefix(files: seq<string>, n: nat)
    requires Distinct(files) && n <= |files|
    ensures Pending(files, SetOf(files[..n])) == files[n..]
  {
    if n == |files| {
      assert files[..n] == files;
      PendingNothing(files, SetOf(files));
    } else {
      var last := |files| - 1;
      assert files[..last][..n] == files[..n];
      PendingAfterPrefix(files[..last], n);
      assert files[last] !in SetOf(files[..n]);
      assert files[n..] == files[..last][n..] + [files[last]];
    }
  }

  /** A complete run leaves the scripts in sorted order exactly when it started from a sorted prefix. */
  lemma SortedIffStartedFromPrefix(files: seq<string>, scripts: seq<string>)
    requires Distinct(files)
    ensures scripts + Pending(files, SetOf(scripts)) == files <==> scripts <= files
  {
    if scripts <= files {
      PendingAfterPrefix(files, |scripts|);
      assert scripts == files[..|scripts|];
    }
  }

  /** A second run after a complete one finds nothing to do. */
  lemma RerunChangesNothing(files: seq<string>, marked: set<string>)
    ensures Pending(files, marked + SetOf(files)) == []
    ensures marked + SetOf(files) + SetOf(files) == marked + SetOf(files)
  {
    PendingNothing(files, marked + SetOf(files));
  }
}

/** Any number of runners over one fixed file list, each with its own possibly stale snapshot. */
module MigrationProtocol {
  import opened Migrations

  type RunnerId = nat

  datatype Runner =
    | Connected
    | Running(applied: set<string>, next: nat)
    | Succeeded
    | Raised
    | Crashed

  datatype State = State(scripts: seq<string>, marked: set<string>, runners: map<RunnerId, Runner>)

  /** The database starts with a recorded prefix of the sorted files. */
  ghost predicate Init(files: seq<string>, s: State) {
    s.scripts <= files && s.marked == SetOf(s.scripts) && s.runners == map[]
  }

  ghost predicate Launch(s: State, s': State, r: RunnerId) {
    r !in s.runners && s' == s.(runners := s.runners[r := Connected])
  }

  /** Read schema_migrations once; every later decision uses this copy. */
  ghost predicate Snapshot(files: seq<string>, s: State, s': State, r: RunnerId) {
    && r in s.runners && s.runners[r].Connected?
    && s' == s.(runners := s.runners[r := if files == [] then Succeeded else Running(s.marked, 0)])
  }

  ghost predicate AtFile(files: seq<string>, s: State, r: RunnerId) {
    r in s.runners && s.runners[r].Running? && s.runners[r].next < |files|
  }

  ghost predicate Skip(files: seq<string>, s: State, s': State, r: RunnerId) {
    && AtFile(files, s, r)
    && var Running(applied, next) := s.runners[r];
       files[next] in applied && s' == s.(runners := s.runners[r := Running(applied, next + 1)])
  }

  /** The transaction commits, unless the marker's primary key is taken; the runner may die right after. */
  ghost predicate Commit(files: seq<string>, s: State, s': State, r: RunnerId, dies: bool) {
    && AtFile(files, s, r)
    && var Running(applied, next) := s.runners[r];
       && files[next] !in applied && files[next] !in s.marked
       && s' == State(s.scripts + [files[next]], s.marked + {files[next]},
                      s.runners[r := if dies then Crashed else Running(applied, next + 1)])
  }

  /** The script or the marker insert raises; the transaction rolls back and the runner stops. */
  ghost predicate RollBack(files: seq<string>, s: State, s': State, r: RunnerId) {
    && AtFile(files, s, r) && files[s.runners[r].next] !in s.runners[r].applied
    && s' == s.(runners := s.runners[r := Raised])
  }

  ghost predicate Finish(files: seq<string>, s: State, s': State, r: RunnerId) {
    && r in s.runners && s.runners[r].Running? && s.runners[r].next == |files|
    && s' == s.(runners := s.runners[r := Succeeded])
  }

  ghost predicate Crash(s: State, s': State, r: RunnerId) {
    r in s.runners && (s.runners[r].Connected? || s.runners[r].Running?) && s' == s.(runners := s.runners[r := Crashed])
  }

  ghost predicate Next(files: seq<string>, s: State, s': State) {
    exists r ::
      || Launch(s, s', r)
      || Snapshot(files, s, s', r)
      || Skip(files, s, s', r)
      || (exists dies :: Commit(files, s, s', r, dies))
      || RollBack(files, s, s', r)
      || Finish(files, s, s', r)
      || Crash(s, s', r)
  }

  ghost predicate StepAt(files: seq<string>, run: seq<State>, i: nat)
    requires 0 < i < |run|
  {
    Next(files, run[i - 1], run[i])
  }

  ghost predicate IsRun(files: seq<string>, run: seq<State>) {
    run != [] && Init(files, run[0]) && forall i | 0 < i < |run| :: StepAt(files, run, i)
  }

  /** A runner never gets ahead of the committed prefix. */
  ghost predicate RunnerOk(files: seq<string>, s: State, runner: Runner) {
    && (runner.Running? ==> runner.applied <= s.marked && runner.next <= |s.scripts|)
    && (runner.Succeeded? ==> s.scripts == files)
  }

  ghost predicate Inv(files: seq<string>, s: State) {
    && s.scripts <= files
    && s.marked == SetOf(s.scripts)
    && forall r | r in s.runners :: RunnerOk(files, s, s.runners[r])
  }

  /** In a sorted list without repetition, a marked file lies inside the committed prefix. */
  lemma MarkedIsBehind(files: seq<string>, s: State, i: nat)
    requires Distinct(files) && Inv(files, s) && i < |files|
    ensures files[i] in s.marked <==> i < |s.scripts|
  {}

  lemma CommitKeepsInv(files: seq<string>, s: State, s': State, r: RunnerId, dies: bool)
    requires Distinct(files) && Inv(files, s) && Commit(files, s, s', r, dies)
    ensures Inv(files, s') && s'.scripts == s.scripts + [files[|s.scripts|]]
  {}

  lemma NextKeepsInv(files: seq<string>, s: State, s': State)
    requires Distinct(files) && Inv(files, s) && Next(files, s, s')
    ensures Inv(files, s') && s.scripts <= s'.scripts
  {
    if r, dies :| Commit(files, s, s', r, dies) {
      CommitKeepsInv(files, s, s', r, dies);
    } else if r :| Skip(files, s, s', r) {
      MarkedIsBehind(files, s, s.runners[r].next);
      assert RunnerOk(files, s, s.runners[r]);
    }
  }

  /**
   * In every state of every run the committed scripts are a prefix of the sorted files, each once
   * and in order, with matching markers; and a runner has succeeded only if all are committed.
   */
  lemma {:induction false} CommittedIsPrefix(files: seq<string>, run: seq<State>, i: nat)
    requires Distinct(files) && IsRun(files, run) && i < |run|
    ensures run[i].scripts <= files && run[i].marked == SetOf(run[i].scripts)
    ensures forall r | r in run[i].runners && run[i].runners[r].Succeeded? :: run[i].scripts == files
    ensures Inv(files, run[i])
  {
    if i > 0 {
      CommittedIsPrefix(files, run, i - 1);
      assert StepAt(files, run, i);
      NextKeepsInv(files, run[i - 1], run[i]);
    } else {
      assert files[..|run[0].scripts|] == run[0].scripts;
    }
  }

  /** Nothing is undone: along a run the committed scripts only grow, one file at a time. */
  lemma {:induction false} CommittedOnlyGrows(files: seq<string>, run: seq<State>, i: nat, j: nat)
    requires Distinct(files) && IsRun(files, run) && i <= j < |run|
    ensures run[i].scripts <= run[j].scripts
  {
    if i < j {
      CommittedOnlyGrows(files, run, i, j - 1);
      CommittedIsPrefix(files, run, j - 1);
      assert StepAt(files, run, j);
      NextKeepsInv(files, run[j - 1], run[j]);
    }
  }

  /** After a complete run, no runner, however stale or concurrent, changes the database again. */
  lemma CompleteIsFinal(files: seq<string>, run: seq<State>, i: nat, j: nat)
    requires Distinct(files) && IsRun(files, run) && i <= j < |run| && run[i].scripts == files
    ensures run[j].scripts == files && run[j].marked == run[i].marked
  {
    CommittedOnlyGrows(files, run, i, j);
    CommittedIsPrefix(files, run, i);
    CommittedIsPrefix(files, run, j);
  }

  /** Two runners never both commit one file: the later transaction finds the marker and rolls back. */
  lemma CommittedFileCannotCommitAgain(files: seq<string>, run: seq<State>, i: nat, s': State, r: RunnerId, dies: bool)
    requires Distinct(files) && IsRun(files, run) && i < |run| && AtFile(files, run[i], r)
    requires run[i].runners[r].next < |run[i].scripts|
    ensures !Commit(files, run[i], s', r, dies)
  {
    CommittedIsPrefix(files, run, i);
    MarkedIsBehind(files, run[i], run[i].runners[r].next);
  }

  // ---------------------------------------------------------------- one runner alone

  ghost predicate OwnStep(files: seq<string>, s: State, s': State, r: RunnerId, scriptFails: nat -> bool) {
    || Snapshot(files, s, s', r)
    || Skip(files, s, s', r)
    || (AtFile(files, s, r) && !scriptFails(s.runners[r].next) && Commit(files, s, s', r, false))
    || (AtFile(files, s, r) && scriptFails(s.runners[r].next) && RollBack(files, s, s', r))
    || Finish(files, s, s', r)
  }

  ghost predicate OwnStepAt(files: seq<string>, trace: seq<State>, r: RunnerId, scriptFails: nat -> bool, i: nat)
    requires 0 < i < |trace|
  {
    OwnStep(files, trace[i - 1], trace[i], r, scriptFails)
  }

  /** Only runner r runs. */
  ghost predicate Alone(files: seq<string>, trace: seq<State>, r: RunnerId, scriptFails: nat -> bool) {
    trace != [] && forall i | 0 < i < |trace| :: OwnStepAt(files, trace, r, scriptFails, i)
  }

  lemma Longer(files: seq<string>, trace: seq<State>, r: RunnerId, scriptFails: nat -> bool, s': State) returns (longer: seq<State>)
    requires Alone(files, trace, r, scriptFails) && OwnStep(files, trace[|trace| - 1], s', r, scriptFails)
    ensures Alone(files, longer, r, scriptFails) && longer[0] == trace[0] && longer[|longer| - 1] == s'
  {
    longer := trace + [s'];
    forall i | 0 < i < |longer| ensures OwnStepAt(files, longer, r, scriptFails, i) {
      assert i < |trace| ==> OwnStepAt(files, trace, r, scriptFails, i);
    }
  }

  lemma NotYetIn(files: seq<string>, i: nat)
    requires Distinct(files) && i < |files|
    ensures files[i] !in SetOf(files[..i])
  {}

  /** What the lone runner does with file i. */
  lemma SoloFile(files: seq<string>, s: State, r: RunnerId, applied: set<string>, i: nat, scriptFails: nat -> bool)
    returns (s': State)
    requires i < |files| && r in s.runners && s.runners[r] == Running(applied, i)
    requires files[i] in applied || files[i] !in s.marked
    ensures OwnStep(files, s, s', r, scriptFails) && r in s'.runners
    ensures if files[i] in applied then
              s'.scripts == s.scripts && s'.marked == s.marked && s'.runners[r] == Running(applied, i + 1)
            else if scriptFails(i) then
              s'.scripts == s.scripts && s'.marked == s.marked && s'.runners[r] == Raised
            else
              s'.scripts == s.scripts + [files[i]] && s'.marked == s.marked + {files[i]} && s'.runners[r] == Running(applied, i + 1)
  {
    if files[i] in applied {
      s' := s.(runners := s.runners[r := Running(applied, i + 1)]);
      assert Skip(files, s, s', r);
    } else if scriptFails(i) {
      s' := s.(runners := s.runners[r := Raised]);
      assert RollBack(files, s, s', r);
    } else {
      s' := State(s.scripts + [files[i]], s.marked + {files[i]}, s.runners[r := Running(applied, i + 1)]);
      assert Commit(files, s, s', r, false);
    }
  }

  /** A runner whose steps are not interrupted ends as `RunMigrations` promises. */
  lemma SoloRun(files: seq<string>, s: State, r: RunnerId, scriptFails: nat -> bool)
    returns (trace: seq<State>, outcome: Outcome)
    requires Distinct(files) && r in s.runners && s.runners[r].Connected?
    ensures Alone(files, trace, r, scriptFails) && trace[0] == s
    ensures var s' := trace[|trace| - 1];
            && RunsAs(files, s.scripts, s.marked, scriptFails, outcome, s'.scripts, s'.marked)
            && r in s'.runners && s'.runners[r] == if outcome.FailedAt? then Raised else Succeeded
  {
    var t := s.(runners := s.runners[r := if files == [] then Succeeded else Running(s.marked, 0)]);
    assert Snapshot(files, s, t, r);
    trace := Longer(files, [s], r, scriptFails, t);
    if files == [] {
      return trace, NoFiles;
    }
    for i := 0 to |files|
      invariant Alone(files, trace, r, scriptFails) && trace[0] == s && trace[|trace| - 1] == t
      invariant r in t.runners && t.runners[r] == Running(s.marked, i)
      invariant t.scripts == s.scripts + Pending(files[..i], s.marked) && t.marked == s.marked + SetOf(files[..i])
      invariant forall j | 0 <= j < i && files[j] !in s.marked :: !scriptFails(j)
    {
      PendingSnoc(files, i, s.marked);
      NotYetIn(files, i);
      t := SoloFile(files, t, r, s.marked, i, scriptFails);
      trace := Longer(files, trace, r, scriptFails, t);
      if files[i] !in s.marked && scriptFails(i) {
        StoppedRun(files, s.scripts, s.marked, scriptFails, i);
        return trace, FailedAt(i);
      }
    }
    var last := t.(runners := t.runners[r := Succeeded]);
    assert Finish(files, t, last, r);
    trace := Longer(files, trace, r, scriptFails, last);
    assert files[..|files|] == files;
    CompleteRun(files, s.scripts, s.marked, scriptFails);
    outcome := UpToDate;
  }
}
