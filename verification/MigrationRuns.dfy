/** Runs of a single migrator, one after the other: resuming, repeating, changing the files. */
module MigrationRuns {
  import opened MigrationFiles
  import opened Migrator

  /** The rest of a run. Script `i` runs without an error exactly if `runs[i]`. */
  function RunFrom(files: Files, db: Db, r: Runner, runs: seq<bool>): (Runner, Db)
    requires |runs| == |files|
    decreases if r.Running? then |files| - r.next else 0
  {
    if !r.Running? then (r, db)
    else if r.next >= |files| then (Finished, db)
    else
      var (r', db') := Advance(files, db, r, runs[r.next]);
      if r'.Running? then RunFrom(files, db', r', runs) else (r', db')
  }

  function RunOnce(files: Files, db: Db, runs: seq<bool>): (Runner, Db)
    requires |runs| == |files|
  {
    RunFrom(files, db, Start(files, db), runs)
  }

  class Database {
    var history: map<int, Row>
    var schema: seq<string>

    constructor ()
      ensures Value() == EMPTY_DB
    {
      history, schema := map[], [];
    }

    function Value(): Db
      reads this
    {
      Db(history, schema)
    }

    method GetAppliedVersions() returns (applied: set<string>)
      ensures applied == AppliedVersions(Value())
    {
      applied := AppliedVersions(Value());
    }

    method ApplyMigration(m: MigrationFile, rank: int, scriptRuns: bool) returns (ok: bool)
      modifies this
      ensures var t := Transaction(old(Value()), m, rank, scriptRuns);
        ok == t.Some? && Value() == if t.Some? then t.value else old(Value())
    {
      if !scriptRuns { return false; }
      if rank in history { return false; }
      history := history[rank := RowOf(m)];
      schema := schema + [m.sql];
      return true;
    }

    method RunMigrations(files: Files, runs: seq<bool>) returns (ok: bool)
      requires |runs| == |files|
      modifies this
      ensures (if ok then Finished else Failed, Value()) == RunOnce(files, old(Value()), runs)
    {
      if |files| == 0 { return true; }
      var appliedVersions := GetAppliedVersions();
      var currentRank: nat := |appliedVersions|;
      for i := 0 to |files|
        invariant RunFrom(files, Value(), Running(appliedVersions, currentRank, i), runs)
               == RunOnce(files, old(Value()), runs)
      {
        var m := files[i];
        if m.raw in appliedVersions { continue; }
        currentRank := currentRank + 1;
        var applied := ApplyMigration(m, currentRank, runs[i]);
        if !applied { return false; }
      }
      return true;
    }
  }

  // ---------- resuming with the same files ----------

  /** The first script from `n` on that does not run, or the number of files. */
  function FirstFailure(runs: seq<bool>, n: nat): (m: nat)
    requires n <= |runs|
    ensures n <= m <= |runs| && (m < |runs| ==> !runs[m])
    ensures forall i :: n <= i < m ==> runs[i]
    decreases |runs| - n
  {
    if n == |runs| || !runs[n] then n else FirstFailure(runs, n + 1)
  }

  lemma RunFromTurn(files: Files, db: Db, r: Runner, runs: seq<bool>)
    requires |runs| == |files| && r.Running? && r.next < |files|
    ensures var (r', db') := Advance(files, db, r, runs[r.next]);
      RunFrom(files, db, r, runs) == if r'.Running? then RunFrom(files, db', r', runs) else (r', db')
  {
  }

  lemma {:induction false} RunFromPrefix(files: Files, n: nat, m: nat, r: Runner, runs: seq<bool>)
    requires |runs| == |files| && n <= m <= |files| && DistinctVersions(files)
    requires (forall i :: n <= i < m ==> runs[i]) && (m < |files| ==> !runs[m])
    requires RunnerInvariant(files, |files|, n, r) && r.Running? && r.rank == n
    ensures RunFrom(files, PrefixDb(files, n), r, runs)
         == (if m == |files| then Finished else Failed, PrefixDb(files, m))
    decreases |files| - r.next
  {
    if r.next < |files| {
      assert files[..|files|] == files;
      AdvanceOnPrefix(files, |files|, n, r, runs[r.next]);
      RunFromTurn(files, PrefixDb(files, n), r, runs);
      if r.next < |r.applied| {
        RunFromPrefix(files, n, m, r.(next := r.next + 1), runs);
      } else if runs[r.next] {
        RunFromPrefix(files, n + 1, m, Running(r.applied, r.rank + 1, r.next + 1), runs);
      }
    }
  }

  /** A run that finds the first `n` files applied goes on to the first script that fails, and
      finishes exactly if none does. */
  lemma {:induction false} RunResumes(files: Files, n: nat, runs: seq<bool>)
    requires |runs| == |files| && n <= |files| && DistinctVersions(files)
    ensures var m := FirstFailure(runs, n);
      RunOnce(files, PrefixDb(files, n), runs)
      == (if m == |files| then Finished else Failed, PrefixDb(files, m))
  {
    if files != [] {
      assert files[..|files|] == files;
      StartKeepsInvariant(files, |files|, n);
      PrefixVersions(files, n);
      VersionsAreCounted(files, n);
      RunFromPrefix(files, n, FirstFailure(runs, n), Start(files, PrefixDb(files, n)), runs);
    }
  }

  /** The database after the first `k` of several runs over the same files. */
  function AfterRuns(files: Files, attempts: seq<seq<bool>>, k: nat): Db
    requires k <= |attempts| && forall a :: a in attempts ==> |a| == |files|
  {
    if k == 0 then EMPTY_DB else RunOnce(files, AfterRuns(files, attempts, k - 1), attempts[k - 1]).1
  }

  lemma {:induction false} RunsLeaveAPrefix(files: Files, attempts: seq<seq<bool>>, k: nat) returns (n: nat)
    requires k <= |attempts| && (forall a :: a in attempts ==> |a| == |files|) && DistinctVersions(files)
    ensures n <= |files| && AfterRuns(files, attempts, k) == PrefixDb(files, n)
  {
    if k == 0 {
      n := 0;
      EmptyIsPrefix(files);
    } else {
      n := RunsLeaveAPrefix(files, attempts, k - 1);
      RunResumes(files, n, attempts[k - 1]);
      n := FirstFailure(attempts[k - 1], n);
    }
  }

  /** However often and wherever runs fail: a run that completes leaves what one uninterrupted
      run leaves, and a later run changes nothing. */
  lemma {:induction false} RetriesConverge(files: Files, attempts: seq<seq<bool>>, k: nat, later: seq<bool>)
    requires k < |attempts| && (forall a :: a in attempts ==> |a| == |files|) && |later| == |files|
    requires DistinctVersions(files)
    requires RunOnce(files, AfterRuns(files, attempts, k), attempts[k]).0.Finished?
    ensures var db := AfterRuns(files, attempts, k + 1);
      && RunOnce(files, EMPTY_DB, seq(|files|, i => true)) == (Finished, db)
      && RunOnce(files, db, later) == (Finished, db)
  {
    var n := RunsLeaveAPrefix(files, attempts, k);
    RunResumes(files, n, attempts[k]);
    EmptyIsPrefix(files);
    RunResumes(files, 0, seq(|files|, i => true));
    RunResumes(files, |files|, later);
  }

  // ---------- changing the files between runs ----------

  /** Everything committed in `db` is still there in `db'`, row by row and script by script. */
  ghost predicate Extends(db: Db, db': Db) {
    && db.schema <= db'.schema
    && forall r :: r in db.history ==> r in db'.history && db'.history[r] == db.history[r]
  }

  lemma ExtendsTransitive(a: Db, b: Db, c: Db)
    requires Extends(a, b) && Extends(b, c)
    ensures Extends(a, c)
  {
  }

  lemma ExtendedVersions(db: Db, db': Db)
    requires Extends(db, db')
    ensures AppliedVersions(db) <= AppliedVersions(db')
  {
    forall v | v in AppliedVersions(db) ensures v in AppliedVersions(db') {
      var r :| r in db.history && db.history[r].version == v;
      assert db'.history[r].version == v;
    }
  }

  /** The ranks are exactly 1 to n, and no version stands in two rows. */
  ghost predicate Dense(db: Db) {
    && (forall r :: r in db.history <==> 1 <= r <= |db.schema|)
    && forall r, q :: r in db.history && q in db.history && r != q
         ==> db.history[r].version != db.history[q].version
  }

  /** The versions in the order of their ranks. */
  ghost function VersionList(db: Db): (xs: seq<string>)
    requires Dense(db)
    ensures |xs| == |db.schema|
    ensures forall i :: 0 <= i < |xs| ==> i + 1 in db.history && xs[i] == db.history[i + 1].version
  {
    seq(|db.schema|, i requires 0 <= i < |db.schema| => db.history[i + 1].version)
  }

  lemma VersionListHasApplied(db: Db, v: string)
    requires Dense(db)
    ensures v in AppliedVersions(db) <==> exists i :: 0 <= i < |db.schema| && VersionList(db)[i] == v
  {
    if v in AppliedVersions(db) {
      var r :| r in db.history && db.history[r].version == v;
      assert VersionList(db)[r - 1] == v;
    }
  }

  lemma DenseVersionsAreCounted(db: Db)
    requires Dense(db)
    ensures |AppliedVersions(db)| == |db.schema|
  {
    var xs := VersionList(db);
    DistinctAreCounted(xs, |xs|);
    forall v ensures v in AppliedVersions(db) <==> v in set i | 0 <= i < |xs| :: xs[i] {
      VersionListHasApplied(db, v);
    }
    assert AppliedVersions(db) == set i | 0 <= i < |xs| :: xs[i];
  }

  /** What holds in the middle of a run over `files` on a dense database. */
  ghost predicate DenseRunner(files: Files, db: Db, r: Runner) {
    && Dense(db) && r.Running? && r.next <= |files| && r.rank == |db.schema|
    && r.applied <= AppliedVersions(db) <= r.applied + VersionsOf(files, r.next)
    && VersionsOf(files, r.next) <= AppliedVersions(db)
  }

  lemma InsertKeepsDense(db: Db, f: MigrationFile)
    requires Dense(db) && f.raw !in AppliedVersions(db)
    ensures var t := Transaction(db, f, |db.schema| + 1, true);
      t.Some? && Dense(t.value) && AppliedVersions(t.value) == AppliedVersions(db) + {f.raw}
  {
    var rank := |db.schema| + 1;
    var after := Db(db.history[rank := RowOf(f)], db.schema + [f.sql]);
    assert forall r :: r in db.history ==> db.history[r].version in AppliedVersions(db);
    assert after.history[rank].version == f.raw;
    forall v | v in AppliedVersions(db) ensures v in AppliedVersions(after) {
      var r :| r in db.history && db.history[r].version == v;
      assert after.history[r].version == v;
    }
  }

  /** A turn on a dense database fails only if its script does. */
  lemma AdvanceKeepsDense(files: Files, db: Db, r: Runner, scriptRuns: bool)
    requires DistinctVersions(files) && DenseRunner(files, db, r) && r.next < |files|
    ensures var (r', db') := Advance(files, db, r, scriptRuns);
      if files[r.next].raw in r.applied || scriptRuns
      then DenseRunner(files, db', r') && Extends(db, db')
           && r'.applied == r.applied && r'.next == r.next + 1
      else r' == Failed && db' == db
  {
    var f := files[r.next];
    assert VersionsOf(files, r.next + 1) == VersionsOf(files, r.next) + {f.raw};
    VersionIsOfPrefix(files, r.next, r.next);
    if f.raw !in r.applied && scriptRuns { InsertKeepsDense(db, f); }
  }

  /** The pending scripts from the next file on all run. */
  ghost predicate PendingRun(files: Files, r: Runner, runs: seq<bool>)
    requires |runs| == |files| && r.Running?
  {
    forall i :: r.next <= i < |files| && files[i].raw !in r.applied ==> runs[i]
  }

  lemma {:induction false} RunFromDense(files: Files, db: Db, r: Runner, runs: seq<bool>)
    requires |runs| == |files| && DistinctVersions(files) && DenseRunner(files, db, r)
    ensures var (r', db') := RunFrom(files, db, r, runs);
      && Dense(db') && Extends(db, db')
      && (r'.Finished? <==> PendingRun(files, r, runs))
      && (r'.Finished? ==> AppliedVersions(db') == r.applied + VersionsOf(files, |files|))
    decreases |files| - r.next
  {
    if r.next < |files| {
      AdvanceKeepsDense(files, db, r, runs[r.next]);
      RunFromTurn(files, db, r, runs);
      var (r', db') := Advance(files, db, r, runs[r.next]);
      if r'.Running? {
        RunFromDense(files, db', r', runs);
        ExtendsTransitive(db, db', RunFrom(files, db', r', runs).1);
      }
    }
  }

  /** Even if the set of files changes from run to run, each run keeps the ranks dense and the
      versions distinct, never meets a taken rank, and finishes exactly if every pending script
      runs; then precisely its files are added to what was applied. */
  lemma {:induction false} RunKeepsDense(files: Files, db: Db, runs: seq<bool>)
    requires |runs| == |files| && DistinctVersions(files) && Dense(db)
    ensures var (r, db') := RunOnce(files, db, runs);
      && Dense(db') && Extends(db, db')
      && (r.Finished? <==> forall i :: 0 <= i < |files| && files[i].raw !in AppliedVersions(db) ==> runs[i])
      && (r.Finished? ==> AppliedVersions(db') == AppliedVersions(db) + VersionsOf(files, |files|))
  {
    if files != [] {
      DenseVersionsAreCounted(db);
      RunFromDense(files, db, Start(files, db), runs);
    }
  }

  /** One of several runs: the files of that time, and which of their scripts run. */
  datatype Attempt = Attempt(files: Files, runs: seq<bool>) {
    predicate Sound() {
      |runs| == |files| && DistinctVersions(files)
    }
  }

  /** The database after the first `k` of several runs, each over files of its own. */
  function AfterAttempts(attempts: seq<Attempt>, k: nat): Db
    requires k <= |attempts| && forall i :: 0 <= i < |attempts| ==> attempts[i].Sound()
  {
    if k == 0 then EMPTY_DB
    else RunOnce(attempts[k - 1].files, AfterAttempts(attempts, k - 1), attempts[k - 1].runs).1
  }

  lemma {:induction false} AttemptsKeepDense(attempts: seq<Attempt>, k: nat)
    requires k <= |attempts| && forall i :: 0 <= i < |attempts| ==> attempts[i].Sound()
    ensures Dense(AfterAttempts(attempts, k))
  {
    if k > 0 {
      AttemptsKeepDense(attempts, k - 1);
      RunKeepsDense(attempts[k - 1].files, AfterAttempts(attempts, k - 1), attempts[k - 1].runs);
    }
  }

  lemma AttemptExtends(attempts: seq<Attempt>, k: nat)
    requires k < |attempts| && forall i :: 0 <= i < |attempts| ==> attempts[i].Sound()
    ensures Extends(AfterAttempts(attempts, k), AfterAttempts(attempts, k + 1))
  {
    AttemptsKeepDense(attempts, k);
    RunKeepsDense(attempts[k].files, AfterAttempts(attempts, k), attempts[k].runs);
  }

  lemma {:induction false} AttemptsExtend(attempts: seq<Attempt>, j: nat, k: nat)
    requires j <= k <= |attempts| && forall i :: 0 <= i < |attempts| ==> attempts[i].Sound()
    ensures Extends(AfterAttempts(attempts, j), AfterAttempts(attempts, k))
  {
    if j < k {
      AttemptsExtend(attempts, j, k - 1);
      AttemptExtends(attempts, k - 1);
      var first, before, after :=
        AfterAttempts(attempts, j), AfterAttempts(attempts, k - 1), AfterAttempts(attempts, k);
      ExtendsTransitive(first, before, after);
    }
  }

  /** Over any sequence of runs from an empty database, with files that change from run to run and
      failures anywhere: the ranks stay 1 to n and the versions distinct, nothing committed is
      ever changed, and the files of a run that completed stay applied. */
  lemma {:induction false} RunsKeepDense(attempts: seq<Attempt>, j: nat, k: nat)
    requires j < k <= |attempts| && forall i :: 0 <= i < |attempts| ==> attempts[i].Sound()
    ensures var before, after := AfterAttempts(attempts, j), AfterAttempts(attempts, k);
      && Dense(before) && Dense(after) && Extends(before, after)
      && (RunOnce(attempts[j].files, before, attempts[j].runs).0.Finished? ==>
           VersionsOf(attempts[j].files, |attempts[j].files|) <= AppliedVersions(after))
  {
    var before, done, after :=
      AfterAttempts(attempts, j), AfterAttempts(attempts, j + 1), AfterAttempts(attempts, k);
    AttemptsKeepDense(attempts, j);
    AttemptsKeepDense(attempts, k);
    AttemptsExtend(attempts, j, k);
    AttemptsExtend(attempts, j + 1, k);
    ExtendedVersions(done, after);
    RunKeepsDense(attempts[j].files, before, attempts[j].runs);
  }

  // ---------- distinct versions are needed ----------

  /** A retry after a failure that reports success has applied all files. */
  ghost predicate RetryCompletes(files: Files) {
    forall first: seq<bool>, second: seq<bool> | |first| == |files| && |second| == |files| ::
      var db := RunOnce(files, EMPTY_DB, first).1;
      RunOnce(files, db, second).0.Finished? ==> RunOnce(files, db, second).1 == PrefixDb(files, |files|)
  }

  lemma {:induction false} RunFromGrowsSlowly(files: Files, db: Db, r: Runner, runs: seq<bool>)
    requires |runs| == |files| && r.Running? && r.next <= |files| && r.rank == |db.schema|
    requires forall q :: q in db.history ==> q <= r.rank
    requires forall i :: 0 <= i < |files| ==> runs[i]
    ensures var (r', db') := RunFrom(files, db, r, runs);
      r'.Finished? && |db'.schema| <= |db.schema| + |files| - r.next
    decreases |files| - r.next
  {
    if r.next < |files| {
      var (r', db') := Advance(files, db, r, true);
      RunFromGrowsSlowly(files, db', r', runs);
    }
  }

  lemma {:induction false} RunFromSkips(files: Files, db: Db, r: Runner, runs: seq<bool>, n: nat)
    requires |runs| == |files| && r.Running? && r.next <= n <= |files|
    requires forall i :: r.next <= i < n ==> files[i].raw in r.applied
    ensures RunFrom(files, db, r, runs) == RunFrom(files, db, r.(next := n), runs)
    decreases n - r.next
  {
    if r.next < n { RunFromSkips(files, db, r.(next := r.next + 1), runs, n); }
  }

  /** A retry on the first `j` files passes over file `j` too if it repeats one of their versions. */
  lemma {:induction false} RetrySkips(files: Files, i: nat, j: nat, runs: seq<bool>)
    requires i < j < |files| && files[i].raw == files[j].raw && DistinctVersions(files[..j])
    requires |runs| == |files| && forall l :: 0 <= l < |files| ==> runs[l]
    ensures var (r, db) := RunOnce(files, PrefixDb(files, j), runs);
      r.Finished? && |db.schema| < |files|
  {
    var db := PrefixDb(files, j);
    PrefixVersions(files, j);
    assert VersionsOf(files, j) == VersionsOf(files[..j], j);
    VersionsAreCounted(files[..j], j);
    var r := Running(VersionsOf(files, j), j, 0);
    assert Start(files, db) == r;
    RunFromSkips(files, db, r, runs, j + 1);
    RunFromGrowsSlowly(files, db, r.(next := j + 1), runs);
  }

  /** If file `j` repeats the version of an earlier file, a failure of script `j` followed by a
      retry without failures ends in success with a script missing. */
  lemma {:induction false} RepeatedVersionIsSkipped(files: Files, i: nat, j: nat)
    requires i < j < |files| && files[i].raw == files[j].raw && DistinctVersions(files[..j])
    ensures !RetryCompletes(files)
  {
    var first := seq(|files|, l => l != j);
    var second := seq(|files|, l => true);
    FirstRun(files, j, first);
    RetrySkips(files, i, j, second);
    assert |PrefixDb(files, |files|).schema| == |files|;
  }

  lemma {:induction false} FirstRunUpTo(files: Files, j: nat, r: Runner, runs: seq<bool>)
    requires |runs| == |files| && j < |files|
    requires r.Running? && r.applied == {} && r.rank == r.next <= j
    requires !runs[j] && forall i :: 0 <= i < j ==> runs[i]
    ensures RunFrom(files, PrefixDb(files, r.next), r, runs) == (Failed, PrefixDb(files, j))
    decreases j - r.next
  {
    PrefixTransaction(files, r.next, r.next, runs[r.next]);
    if r.next < j { FirstRunUpTo(files, j, Running({}, r.rank + 1, r.next + 1), runs); }
  }

  lemma FirstRun(files: Files, j: nat, runs: seq<bool>)
    requires |runs| == |files| && j < |files| && !runs[j] && forall i :: 0 <= i < j ==> runs[i]
    ensures RunOnce(files, EMPTY_DB, runs) == (Failed, PrefixDb(files, j))
  {
    assert AppliedVersions(EMPTY_DB) == {};
    EmptyIsPrefix(files);
    FirstRunUpTo(files, j, Running({}, 0, 0), runs);
  }

  /** The smallest index at which a version repeats. */
  lemma FirstRepetition(files: Files) returns (i: nat, j: nat)
    requires !DistinctVersions(files)
    ensures i < j < |files| && files[i].raw == files[j].raw && DistinctVersions(files[..j])
  {
    j := |files|;
    i := 0;
    while !DistinctVersions(files[..j])
      invariant j <= |files|
      invariant j == |files| || (i < j && files[i].raw == files[j].raw)
      decreases j
    {
      var a, b :| 0 <= a < b < j && files[..j][a].raw == files[..j][b].raw;
      i, j := a, b;
    }
    assert files[..|files|] == files;
  }

  /** Success after a retry means that all files are applied exactly if no version repeats. */
  lemma {:induction false} RetryCompletesIff(files: Files)
    ensures RetryCompletes(files) <==> DistinctVersions(files)
  {
    if DistinctVersions(files) {
      forall first: seq<bool>, second: seq<bool> | |first| == |files| && |second| == |files|
        ensures var db := RunOnce(files, EMPTY_DB, first).1;
          RunOnce(files, db, second).0.Finished? ==> RunOnce(files, db, second).1 == PrefixDb(files, |files|)
      {
        EmptyIsPrefix(files);
        RunResumes(files, 0, first);
        RunResumes(files, FirstFailure(first, 0), second);
      }
    } else {
      var i, j := FirstRepetition(files);
      RepeatedVersionIsSkipped(files, i, j);
    }
  }
}
