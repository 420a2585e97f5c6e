/**
 The migration runner: any number of runners over one schema_migrations table, each of which may
 read the applied versions incompletely, crash anywhere, or lose the answer to a commit.
 */
module Migrations {

  datatype File = File(version: int, name: string)

  /** Where a runner is within its current file's transaction. */
  datatype Phase = Idle | Ran | Inserted | Ended

  /** `pending` is what the runner planned, `done` how many of these it has committed. */
  datatype Run = Run(files: seq<File>, seen: set<int>, pending: seq<File>, done: nat, phase: Phase)

  datatype Applied = Applied(runner: int, file: File)

  /** The recorded versions, the committed scripts in commit order, and every run so far. */
  datatype Db = Db(recorded: set<int>, applied: seq<Applied>, runs: map<int, Run>)

  const EmptyDb := Db({}, [], map[])

  datatype Step =
    | Start(runner: int, files: seq<File>, seen: set<int>, pending: seq<File>)
    | Script(runner: int)
    | Insert(runner: int)
    | Commit(runner: int, acked: bool)
    | Stop(runner: int)

  /** The files whose version was not read as applied. */
  function Unseen(files: seq<File>, seen: set<int>): seq<File> {
    if files == [] then []
    else
      var front := Unseen(files[..|files| - 1], seen);
      if files[|files| - 1].version in seen then front else front + [files[|files| - 1]]
  }

  predicate Ascending(fs: seq<File>) {
    forall i, j | 0 <= i < j < |fs| :: fs[i].version <= fs[j].version
  }

  predicate IsPlan(files: seq<File>, seen: set<int>, pending: seq<File>) {
    Ascending(pending) && multiset(pending) == multiset(Unseen(files, seen))
  }

  /** No other live transaction has inserted that version. */
  predicate VersionFree(db: Db, r: int, v: int) {
    forall q | q in db.runs && q != r && Locks(db.runs[q]) :: Current(db.runs[q]).version != v
  }

  predicate Locks(run: Run) { run.phase.Inserted? && run.done < |run.pending| }

  function Current(run: Run): File
    requires run.done < |run.pending|
  {
    run.pending[run.done]
  }

  predicate Enabled(db: Db, s: Step) {
    match s
    case Start(r, files, seen, pending) => r !in db.runs && seen <= db.recorded && IsPlan(files, seen, pending)
    case Script(r) => r in db.runs && db.runs[r].phase.Idle? && db.runs[r].done < |db.runs[r].pending|
    case Insert(r) =>
      r in db.runs && db.runs[r].phase.Ran? && db.runs[r].done < |db.runs[r].pending|
      && VersionFree(db, r, Current(db.runs[r]).version)
    case Commit(r, _) => r in db.runs && Locks(db.runs[r])
    case Stop(r) => r in db.runs
  }

  function Become(db: Db, r: int, run: Run): Db { db.(runs := db.runs[r := run]) }

  /** A unique violation, a failing script, a crash and a lost acknowledgement all end the run. */
  function Exec(db: Db, s: Step): Db
    requires s.Start? || s.runner in db.runs
    requires s.Insert? || s.Commit? ==> db.runs[s.runner].done < |db.runs[s.runner].pending|
  {
    match s
    case Start(r, files, seen, pending) => Become(db, r, Run(files, seen, pending, 0, Idle))
    case Script(r) => Become(db, r, db.runs[r].(phase := Ran))
    case Insert(r) =>
      var run := db.runs[r];
      Become(db, r, run.(phase := if Current(run).version in db.recorded then Ended else Inserted))
    case Commit(r, acked) =>
      var run := db.runs[r];
      Db(db.recorded + {Current(run).version}, db.applied + [Applied(r, Current(run))],
         db.runs[r := run.(done := run.done + 1, phase := if acked then Idle else Ended)])
    case Stop(r) => Become(db, r, db.runs[r].(phase := Ended))
  }

  ghost predicate IsRun(db: Db, steps: seq<Step>)
    decreases |steps|
  {
    steps == [] || (Enabled(db, steps[0]) && IsRun(Exec(db, steps[0]), steps[1..]))
  }

  ghost function After(db: Db, steps: seq<Step>): Db
    requires IsRun(db, steps)
    decreases |steps|
  {
    if steps == [] then db else After(Exec(db, steps[0]), steps[1..])
  }

  // --- Once per version, and each run a prefix of its plan ---

  function Versions(applied: seq<Applied>): set<int> {
    if applied == [] then {} else Versions(applied[..|applied| - 1]) + {applied[|applied| - 1].file.version}
  }

  /** No version was committed twice. */
  predicate Once(applied: seq<Applied>) {
    applied == [] || (Once(applied[..|applied| - 1]) && applied[|applied| - 1].file.version !in Versions(applied[..|applied| - 1]))
  }

  /** The files a runner committed, in order. */
  function CommittedBy(applied: seq<Applied>, r: int): seq<File> {
    if applied == [] then []
    else
      var front := CommittedBy(applied[..|applied| - 1], r);
      if applied[|applied| - 1].runner == r then front + [applied[|applied| - 1].file] else front
  }

  lemma {:induction false} Append(applied: seq<Applied>, a: Applied, r: int)
    ensures Versions(applied + [a]) == Versions(applied) + {a.file.version}
    ensures Once(applied + [a]) <==> Once(applied) && a.file.version !in Versions(applied)
    ensures CommittedBy(applied + [a], r) == CommittedBy(applied, r) + if a.runner == r then [a.file] else []
  {
    assert (applied + [a])[..|applied|] == applied;
  }

  lemma {:induction false} VersionsAt(applied: seq<Applied>, i: nat)
    requires i < |applied|
    ensures applied[i].file.version in Versions(applied)
  {
    if i < |applied| - 1 {
      VersionsAt(applied[..|applied| - 1], i);
    }
  }

  lemma {:induction false} OnceAt(applied: seq<Applied>, i: nat, j: nat)
    requires Once(applied) && i < j < |applied|
    ensures applied[i].file.version != applied[j].file.version
  {
    if j < |applied| - 1 {
      OnceAt(applied[..|applied| - 1], i, j);
    } else {
      VersionsAt(applied[..|applied| - 1], i);
    }
  }

  lemma {:induction false} NobodyYet(applied: seq<Applied>, r: int)
    requires forall i | 0 <= i < |applied| :: applied[i].runner != r
    ensures CommittedBy(applied, r) == []
  {
    if applied != [] {
      NobodyYet(applied[..|applied| - 1], r);
    }
  }

  /** Every file was read as applied or is planned, in version order. */
  ghost predicate Planned(files: seq<File>, seen: set<int>, pending: seq<File>) {
    Ascending(pending) && forall f | f in files :: f.version in seen || f in pending
  }

  lemma {:induction false} UnseenKeeps(files: seq<File>, seen: set<int>, f: File)
    ensures f in Unseen(files, seen) <==> f in files && f.version !in seen
  {
    if files != [] {
      UnseenKeeps(files[..|files| - 1], seen, f);
      assert files == files[..|files| - 1] + [files[|files| - 1]];
    }
  }

  lemma {:induction false} PlanPlans(files: seq<File>, seen: set<int>, pending: seq<File>)
    requires IsPlan(files, seen, pending)
    ensures Planned(files, seen, pending) && forall f | f in pending :: f in files && f.version !in seen
  {
    forall f: File ensures f in pending <==> f in files && f.version !in seen {
      UnseenKeeps(files, seen, f);
      assert f in pending <==> f in multiset(pending);
      assert f in Unseen(files, seen) <==> f in multiset(Unseen(files, seen));
    }
  }

  ghost predicate RunOk(recorded: set<int>, applied: seq<Applied>, r: int, run: Run) {
    && run.done <= |run.pending| && CommittedBy(applied, r) == run.pending[..run.done]
    && run.seen <= recorded && (forall j | 0 <= j < run.done :: run.pending[j].version in recorded)
    && (run.phase.Ran? || run.phase.Inserted? ==> run.done < |run.pending|)
    && (Locks(run) ==> Current(run).version !in recorded)
  }

  ghost predicate Exclusive(runs: map<int, Run>) {
    forall r, q | r in runs && q in runs && r != q && Locks(runs[r]) && Locks(runs[q]) ::
      Current(runs[r]).version != Current(runs[q]).version
  }

  ghost predicate Inv(db: Db) {
    && db.recorded == Versions(db.applied) && Once(db.applied)
    && (forall i | 0 <= i < |db.applied| :: db.applied[i].runner in db.runs)
    && (forall r | r in db.runs :: RunOk(db.recorded, db.applied, r, db.runs[r]))
    && (forall r | r in db.runs :: Planned(db.runs[r].files, db.runs[r].seen, db.runs[r].pending))
    && Exclusive(db.runs)
  }

  /** The run whose transaction commits has one more file done. */
  lemma {:induction false} OwnCommit(recorded: set<int>, applied: seq<Applied>, r: int, run: Run, acked: bool)
    requires RunOk(recorded, applied, r, run) && Locks(run)
    ensures var f := Current(run);
            RunOk(recorded + {f.version}, applied + [Applied(r, f)], r,
                  run.(done := run.done + 1, phase := if acked then Idle else Ended))
  {
    Append(applied, Applied(r, Current(run)), r);
    assert run.pending[..run.done] + [run.pending[run.done]] == run.pending[..run.done + 1];
  }

  lemma {:induction false} OtherCommit(recorded: set<int>, applied: seq<Applied>, a: Applied, q: int, run: Run)
    requires RunOk(recorded, applied, q, run) && a.runner != q
    requires Locks(run) ==> Current(run).version != a.file.version
    ensures RunOk(recorded + {a.file.version}, applied + [a], q, run)
  {
    Append(applied, a, q);
    assert CommittedBy(applied, q) + [] == CommittedBy(applied, q);
  }

  lemma {:induction false} CommitKeepsInv(db: Db, r: int, acked: bool)
    requires Inv(db) && r in db.runs && Locks(db.runs[r])
    ensures Inv(Exec(db, Commit(r, acked)))
  {
    var db' := Exec(db, Commit(r, acked));
    var a := Applied(r, Current(db.runs[r]));
    assert RunOk(db.recorded, db.applied, r, db.runs[r]);
    Append(db.applied, a, r);
    forall q | q in db'.runs ensures RunOk(db'.recorded, db'.applied, q, db'.runs[q]) {
      if q == r {
        OwnCommit(db.recorded, db.applied, r, db.runs[r], acked);
      } else {
        OtherCommit(db.recorded, db.applied, a, q, db.runs[q]);
      }
    }
  }

  lemma {:induction false} StartKeepsInv(db: Db, s: Step)
    requires Inv(db) && s.Start? && Enabled(db, s)
    ensures Inv(Exec(db, s))
  {
    NobodyYet(db.applied, s.runner);
    PlanPlans(s.files, s.seen, s.pending);
    assert s.pending[..0] == [];
  }

  /** A step that only moves a run from one phase to the next. */
  lemma {:induction false} PhaseKeepsInv(db: Db, r: int, phase: Phase)
    requires Inv(db) && r in db.runs && (phase.Ran? || phase.Inserted? ==> db.runs[r].done < |db.runs[r].pending|)
    requires phase.Inserted? ==> Current(db.runs[r]).version !in db.recorded && VersionFree(db, r, Current(db.runs[r]).version)
    ensures Inv(Become(db, r, db.runs[r].(phase := phase)))
  {
    assert RunOk(db.recorded, db.applied, r, db.runs[r]);
    assert RunOk(db.recorded, db.applied, r, db.runs[r].(phase := phase));
  }

  lemma {:induction false} StepKeepsInv(db: Db, s: Step)
    requires Inv(db) && Enabled(db, s)
    ensures Inv(Exec(db, s))
  {
    match s
    case Start(_, _, _, _) => StartKeepsInv(db, s);
    case Script(r) => PhaseKeepsInv(db, r, Ran);
    case Insert(r) => PhaseKeepsInv(db, r, if Current(db.runs[r]).version in db.recorded then Ended else Inserted);
    case Commit(r, acked) => CommitKeepsInv(db, r, acked);
    case Stop(r) => PhaseKeepsInv(db, r, Ended);
  }

  lemma {:induction false} RunKeepsInv(db: Db, steps: seq<Step>)
    requires Inv(db) && IsRun(db, steps)
    ensures Inv(After(db, steps))
    decreases |steps|
  {
    if steps != [] {
      StepKeepsInv(db, steps[0]);
      RunKeepsInv(Exec(db, steps[0]), steps[1..]);
    }
  }

  ghost predicate Reachable(db: Db) { exists steps :: IsRun(EmptyDb, steps) && After(EmptyDb, steps) == db }

  lemma {:induction false} ReachableInv(db: Db)
    requires Reachable(db)
    ensures Inv(db)
  {
    var steps :| IsRun(EmptyDb, steps) && After(EmptyDb, steps) == db;
    RunKeepsInv(EmptyDb, steps);
  }

  /** Committed scripts and recorded versions correspond one to one; no version commits twice. */
  lemma {:induction false} CommittedOnce(db: Db)
    requires Reachable(db)
    ensures forall i, j | 0 <= i < j < |db.applied| :: db.applied[i].file.version != db.applied[j].file.version
    ensures forall v :: v in db.recorded <==> exists i :: 0 <= i < |db.applied| && db.applied[i].file.version == v
  {
    ReachableInv(db);
    forall i, j | 0 <= i < j < |db.applied| ensures db.applied[i].file.version != db.applied[j].file.version {
      OnceAt(db.applied, i, j);
    }
    forall v ensures v in db.recorded <==> exists i :: 0 <= i < |db.applied| && db.applied[i].file.version == v {
      RecordedBy(db.applied, v);
    }
  }

  lemma {:induction false} RecordedBy(applied: seq<Applied>, v: int)
    ensures v in Versions(applied) <==> exists i :: 0 <= i < |applied| && applied[i].file.version == v
  {
    if applied != [] {
      var front := applied[..|applied| - 1];
      RecordedBy(front, v);
      assert forall i | 0 <= i < |front| :: front[i] == applied[i];
    }
  }

  /** Each run has committed a prefix of its own plan, in strictly ascending version order. */
  lemma {:induction false} EachRunCommitsAPrefix(db: Db, r: int)
    requires Reachable(db) && r in db.runs
    ensures var run := db.runs[r];
            && run.done <= |run.pending| && CommittedBy(db.applied, r) == run.pending[..run.done]
            && forall i, j | 0 <= i < j < run.done :: run.pending[i].version < run.pending[j].version
  {
    ReachableInv(db);
    var run := db.runs[r];
    assert RunOk(db.recorded, db.applied, r, run) && Planned(run.files, run.seen, run.pending);
    forall i, j | 0 <= i < j < run.done ensures run.pending[i].version < run.pending[j].version {
      OnceWithinRun(db.applied, r, i, j);
    }
  }

  lemma {:induction false} OnceWithinRun(applied: seq<Applied>, r: int, i: nat, j: nat)
    requires Once(applied) && i < j < |CommittedBy(applied, r)|
    ensures CommittedBy(applied, r)[i].version != CommittedBy(applied, r)[j].version
  {
    var front, last := applied[..|applied| - 1], applied[|applied| - 1];
    if j < |CommittedBy(front, r)| {
      OnceWithinRun(front, r, i, j);
    } else {
      CommittedIsRecorded(front, r, i);
    }
  }

  lemma {:induction false} CommittedIsRecorded(applied: seq<Applied>, r: int, i: nat)
    requires i < |CommittedBy(applied, r)|
    ensures CommittedBy(applied, r)[i].version in Versions(applied)
  {
    var front := applied[..|applied| - 1];
    if i < |CommittedBy(front, r)| {
      CommittedIsRecorded(front, r, i);
    }
  }

  /** A run that got through its plan leaves every one of its files recorded, even after an incomplete read. */
  lemma {:induction false} CompletedRunRecordsAll(db: Db, r: int, f: File)
    requires Reachable(db) && r in db.runs && db.runs[r].done == |db.runs[r].pending| && f in db.runs[r].files
    ensures f.version in db.recorded
  {
    ReachableInv(db);
    var run := db.runs[r];
    assert RunOk(db.recorded, db.applied, r, run) && Planned(run.files, run.seen, run.pending);
    if f.version !in run.seen {
      var j :| 0 <= j < |run.pending| && run.pending[j] == f;
    }
  }

  // --- An incomplete read ---

  lemma {:induction false} StepKeepsPlan(db: Db, s: Step, r: int)
    requires Enabled(db, s) && r in db.runs
    ensures db.applied <= Exec(db, s).applied
    ensures r in Exec(db, s).runs && Exec(db, s).runs[r].pending == db.runs[r].pending
  {
  }

  lemma {:induction false} RunKeepsPlan(db: Db, steps: seq<Step>, r: int)
    requires IsRun(db, steps) && r in db.runs
    ensures db.applied <= After(db, steps).applied
    ensures r in After(db, steps).runs && After(db, steps).runs[r].pending == db.runs[r].pending
    decreases |steps|
  {
    if steps != [] {
      StepKeepsPlan(db, steps[0], r);
      RunKeepsPlan(Exec(db, steps[0]), steps[1..], r);
    }
  }

  lemma {:induction false} CommittedAt(applied: seq<Applied>, r: int, j: nat) returns (i: nat)
    requires j < |CommittedBy(applied, r)|
    ensures i < |applied| && applied[i] == Applied(r, CommittedBy(applied, r)[j])
  {
    var front := applied[..|applied| - 1];
    if j < |CommittedBy(front, r)| {
      i := CommittedAt(front, r, j);
    } else {
      i := |applied| - 1;
    }
  }

  /** Somebody else committed that version before, so a run never gets past it. */
  lemma {:induction false} TakenVersionBlocks(db: Db, r: int, i: nat, j: nat)
    requires Inv(db) && r in db.runs && i < |db.applied| && db.applied[i].runner != r
    requires j < |db.runs[r].pending| && db.applied[i].file.version == db.runs[r].pending[j].version
    ensures db.runs[r].done <= j
  {
    assert RunOk(db.recorded, db.applied, r, db.runs[r]);
    if db.runs[r].done > j {
      var k := CommittedAt(db.applied, r, j);
      OnceAt(db.applied, if i < k then i else k, if i < k then k else i);
      assert false;
    }
  }

  lemma {:induction false} RecordedByOther(db: Db, r: int, v: int) returns (i: nat)
    requires Inv(db) && r !in db.runs && v in db.recorded
    ensures i < |db.applied| && db.applied[i].file.version == v && db.applied[i].runner != r
  {
    RecordedBy(db.applied, v);
    i :| 0 <= i < |db.applied| && db.applied[i].file.version == v;
  }

  /**
   What an incomplete read costs. A run that plans a version which was recorded when it started,
   because its read missed it, never gets past that file, whatever happens: it ends in an error.
   */
  lemma {:induction false} MissedVersionBlocks(before: seq<Step>, s: Step, after: seq<Step>, j: nat)
    requires IsRun(EmptyDb, before) && s.Start? && Enabled(After(EmptyDb, before), s)
    requires IsRun(Exec(After(EmptyDb, before), s), after)
    requires j < |s.pending| && s.pending[j].version in After(EmptyDb, before).recorded
    ensures var last := After(Exec(After(EmptyDb, before), s), after);
            s.runner in last.runs && last.runs[s.runner].pending == s.pending && last.runs[s.runner].done <= j
  {
    var db := After(EmptyDb, before);
    var started := Exec(db, s);
    RunKeepsInv(EmptyDb, before);
    StepKeepsInv(db, s);
    RunKeepsInv(started, after);
    var i := RecordedByOther(db, s.runner, s.pending[j].version);
    RunKeepsPlan(started, after, s.runner);
    TakenVersionBlocks(After(started, after), s.runner, i, j);
  }

  // --- All runners ship the same files ---

  ghost predicate SameFiles(files: seq<File>, steps: seq<Step>) {
    forall i | 0 <= i < |steps| && steps[i].Start? :: steps[i].files == files
  }

  function VersionsOf(files: seq<File>): set<int> { set f | f in files :: f.version }

  /** The recorded versions are an initial segment of these. */
  ghost predicate DownClosed(versions: set<int>, recorded: set<int>) {
    recorded <= versions && forall v, w | v in versions && w in recorded && v < w :: v in recorded
  }

  /** What a run will commit next has everything below it recorded. */
  ghost predicate NextInOrder(versions: set<int>, recorded: set<int>, run: Run) {
    && VersionsOf(run.files) == versions && (forall j | 0 <= j < |run.pending| :: run.pending[j].version in versions)
    && (run.done < |run.pending| ==> forall v | v in versions && v < Current(run).version :: v in recorded)
  }

  ghost predicate InOrder(applied: seq<Applied>) {
    forall i, j | 0 <= i < j < |applied| :: applied[i].file.version < applied[j].file.version
  }

  ghost predicate AllNext(versions: set<int>, recorded: set<int>, runs: map<int, Run>) {
    forall r | r in runs :: NextInOrder(versions, recorded, runs[r])
  }

  ghost predicate OrderInv(versions: set<int>, db: Db) {
    DownClosed(versions, db.recorded) && InOrder(db.applied) && AllNext(versions, db.recorded, db.runs)
  }

  /** Every version a run has not read as applied is planned, and nothing else is. */
  lemma {:induction false} PlannedVersion(run: Run, v: int) returns (j: nat)
    requires Planned(run.files, run.seen, run.pending) && v in VersionsOf(run.files) && v !in run.seen
    ensures j < |run.pending| && run.pending[j].version == v
  {
    var f :| f in run.files && f.version == v;
    j :| 0 <= j < |run.pending| && run.pending[j] == f;
  }

  lemma {:induction false} StartsInOrder(versions: set<int>, recorded: set<int>, run: Run)
    requires VersionsOf(run.files) == versions && IsPlan(run.files, run.seen, run.pending)
    requires run.seen <= recorded && run.done == 0
    ensures NextInOrder(versions, recorded, run)
  {
    PlanPlans(run.files, run.seen, run.pending);
    forall j | 0 <= j < |run.pending| ensures run.pending[j].version in versions {
      assert run.pending[j] in run.files;
    }
    forall v | v in versions && v !in recorded ensures run.pending != [] && run.pending[0].version <= v {
      var j := PlannedVersion(run, v);
    }
  }

  /** A runner moves on to a file only once everything below that file is recorded. */
  lemma {:induction false} AdvancesInOrder(versions: set<int>, recorded: set<int>, run: Run, phase: Phase)
    requires Locks(run) && NextInOrder(versions, recorded, run)
    requires Planned(run.files, run.seen, run.pending) && run.seen <= recorded
    requires forall j | 0 <= j < run.done :: run.pending[j].version in recorded
    ensures NextInOrder(versions, recorded + {Current(run).version}, run.(done := run.done + 1, phase := phase))
  {
    var recorded' := recorded + {Current(run).version};
    if run.done + 1 < |run.pending| {
      forall v | v in versions && v !in recorded' ensures run.pending[run.done + 1].version <= v {
        var j := PlannedVersion(run, v);
      }
    }
  }

  lemma {:induction false} CommitInOrder(versions: set<int>, recorded: set<int>, v: int)
    requires DownClosed(versions, recorded) && v in versions && v !in recorded
    requires forall w | w in versions && w < v :: w in recorded
    ensures DownClosed(versions, recorded + {v}) && forall w | w in recorded :: w < v
  {
  }

  lemma {:induction false} AllNextWith(versions: set<int>, recorded: set<int>, runs: map<int, Run>, r: int, v: int, run: Run)
    requires AllNext(versions, recorded, runs) && NextInOrder(versions, recorded + {v}, run)
    ensures AllNext(versions, recorded + {v}, runs[r := run])
  {
    forall q | q in runs && q != r ensures NextInOrder(versions, recorded + {v}, runs[q]) {
      assert NextInOrder(versions, recorded, runs[q]);
    }
  }

  lemma {:induction false} InOrderWith(applied: seq<Applied>, a: Applied)
    requires InOrder(applied) && forall w | w in Versions(applied) :: w < a.file.version
    ensures InOrder(applied + [a])
  {
    forall i | 0 <= i < |applied| ensures applied[i].file.version < a.file.version {
      VersionsAt(applied, i);
    }
  }

  /** One commit, on the tables alone. */
  lemma {:induction false} CommitOrder(versions: set<int>, recorded: set<int>, applied: seq<Applied>, runs: map<int, Run>, r: int, phase: Phase)
    requires DownClosed(versions, recorded) && InOrder(applied) && AllNext(versions, recorded, runs) && recorded == Versions(applied)
    requires r in runs && Locks(runs[r]) && RunOk(recorded, applied, r, runs[r])
    requires Planned(runs[r].files, runs[r].seen, runs[r].pending)
    ensures var f := Current(runs[r]);
            && DownClosed(versions, recorded + {f.version}) && InOrder(applied + [Applied(r, f)])
            && AllNext(versions, recorded + {f.version}, runs[r := runs[r].(done := runs[r].done + 1, phase := phase)])
  {
    var run := runs[r];
    var v := Current(run).version;
    assert NextInOrder(versions, recorded, run);
    CommitInOrder(versions, recorded, v);
    InOrderWith(applied, Applied(r, Current(run)));
    AdvancesInOrder(versions, recorded, run, phase);
    AllNextWith(versions, recorded, runs, r, v, run.(done := run.done + 1, phase := phase));
  }

  /** What the invariant says of one run. */
  ghost predicate RunFacts(db: Db, r: int)
    requires r in db.runs
  {
    && db.recorded == Versions(db.applied) && RunOk(db.recorded, db.applied, r, db.runs[r])
    && Planned(db.runs[r].files, db.runs[r].seen, db.runs[r].pending)
  }

  lemma {:induction false} CommitKeepsOrder(versions: set<int>, db: Db, r: int, acked: bool)
    requires OrderInv(versions, db) && r in db.runs && Locks(db.runs[r]) && RunFacts(db, r)
    ensures OrderInv(versions, Exec(db, Commit(r, acked)))
  {
    CommitOrder(versions, db.recorded, db.applied, db.runs, r, if acked then Idle else Ended);
  }

  lemma {:induction false} OtherStepsKeepOrder(versions: set<int>, db: Db, s: Step)
    requires OrderInv(versions, db) && Enabled(db, s) && !s.Commit? && (s.Start? ==> VersionsOf(s.files) == versions)
    ensures OrderInv(versions, Exec(db, s))
  {
    if s.Start? {
      StartsInOrder(versions, db.recorded, Run(s.files, s.seen, s.pending, 0, Idle));
    } else {
      assert NextInOrder(versions, db.recorded, db.runs[s.runner]);
    }
  }

  lemma {:induction false} StepKeepsOrder(versions: set<int>, db: Db, s: Step)
    requires Inv(db) && OrderInv(versions, db) && Enabled(db, s) && (s.Start? ==> VersionsOf(s.files) == versions)
    ensures OrderInv(versions, Exec(db, s))
  {
    if s.Commit? {
      assert RunFacts(db, s.runner);
      CommitKeepsOrder(versions, db, s.runner, s.acked);
    } else {
      OtherStepsKeepOrder(versions, db, s);
    }
  }

  lemma {:induction false} RunKeepsOrder(files: seq<File>, db: Db, steps: seq<Step>)
    requires Inv(db) && OrderInv(VersionsOf(files), db) && IsRun(db, steps) && SameFiles(files, steps)
    ensures OrderInv(VersionsOf(files), After(db, steps))
    decreases |steps|
  {
    if steps != [] {
      StepKeepsInv(db, steps[0]);
      StepKeepsOrder(VersionsOf(files), db, steps[0]);
      RunKeepsOrder(files, Exec(db, steps[0]), steps[1..]);
    }
  }

  /**
   When all runners ship the same files, scripts commit in version order over the whole history,
   across crashes, concurrent runners and incomplete reads, and the recorded versions are always
   an initial segment: whatever is below a recorded version is recorded.
   */
  lemma {:induction false} CommitsInVersionOrder(files: seq<File>, steps: seq<Step>)
    requires IsRun(EmptyDb, steps) && SameFiles(files, steps)
    ensures InOrder(After(EmptyDb, steps).applied)
    ensures DownClosed(VersionsOf(files), After(EmptyDb, steps).recorded)
  {
    RunKeepsOrder(files, EmptyDb, steps);
  }
}
