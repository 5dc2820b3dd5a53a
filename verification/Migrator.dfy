/** The schema migrator: one transaction per pending file, recorded under a rank that the runner
    computes from a snapshot of the history. Any number of runners may be at work at once. */
module Migrator {
  import opened GoStrings
  import opened MigrationFiles

  type Files = seq<MigrationFile>

  /** A row of the history table, whose primary key is the rank. */
  datatype Row = Row(version: string, description: string, script: string)

  /** The committed history, and the scripts committed so far in their order: the schema is
      what these scripts make of an empty database. */
  datatype Db = Db(history: map<int, Row>, schema: seq<string>)

  const EMPTY_DB := Db(map[], [])

  function RowOf(f: MigrationFile): Row {
    Row(f.raw, f.description, f.filename)
  }

  function AppliedVersions(db: Db): set<string> {
    set r | r in db.history :: db.history[r].version
  }

  /** The transaction of `applyMigration`: the script runs and the row is inserted, or neither. */
  function Transaction(db: Db, f: MigrationFile, rank: int, scriptRuns: bool): Option<Db> {
    if !scriptRuns || rank in db.history then None
    else Some(Db(db.history[rank := RowOf(f)], db.schema + [f.sql]))
  }

  /** `RunMigrations` between two of its database calls: the snapshot, the current rank, and the
      file that comes next. */
  datatype Runner = Idle | Running(applied: set<string>, rank: nat, next: nat) | Finished | Failed

  function Start(files: Files, db: Db): Runner {
    if files == [] then Finished
    else Running(AppliedVersions(db), |AppliedVersions(db)|, 0)
  }

  /** One turn of the loop in `RunMigrations`. */
  function Advance(files: Files, db: Db, r: Runner, scriptRuns: bool): (Runner, Db) {
    if !r.Running? then (r, db)
    else if r.next >= |files| then (Finished, db)
    else if files[r.next].raw in r.applied then (r.(next := r.next + 1), db)
    else
      match Transaction(db, files[r.next], r.rank + 1, scriptRuns)
      case None => (Failed, db)
      case Some(db') => (Running(r.applied, r.rank + 1, r.next + 1), db')
  }

  // ---------- any number of runners ----------

  /** An instance of the server with the files of its own build. */
  datatype Instance = Instance(files: Files, runner: Runner)

  /** An instance starts with its files (or starts over, having stopped anywhere), or makes one turn. */
  datatype Action = Begin(who: nat, files: Files) | Turn(who: nat, scriptRuns: bool)

  datatype Cluster = Cluster(db: Db, instances: map<nat, Instance>)

  function InstanceOf(c: Cluster, who: nat): Instance {
    if who in c.instances then c.instances[who] else Instance([], Idle)
  }

  function Act(c: Cluster, a: Action): Cluster {
    match a
    case Begin(who, files) => c.(instances := c.instances[who := Instance(files, Start(files, c.db))])
    case Turn(who, scriptRuns) =>
      var own := InstanceOf(c, who);
      var (r, db) := Advance(own.files, c.db, own.runner, scriptRuns);
      Cluster(db, c.instances[who := own.(runner := r)])
  }

  /** The cluster after the first `k` actions, from an empty database. */
  function After(actions: seq<Action>, k: nat): Cluster
    requires k <= |actions|
  {
    if k == 0 then Cluster(EMPTY_DB, map[]) else Act(After(actions, k - 1), actions[k - 1])
  }

  /** Every instance is of some version along one line of development: its files are the first
      ones of `files`, as when an older and a newer build run at once. */
  predicate OneLine(files: Files, actions: seq<Action>) {
    forall i :: 0 <= i < |actions| && actions[i].Begin? ==> actions[i].files <= files
  }

  function NthRow(files: Files, r: int): Row
    requires 1 <= r <= |files|
  {
    RowOf(files[r - 1])
  }

  /** The database in which exactly the first `n` files have been applied, in order: row r is
      file r, counted from 1. */
  function PrefixDb(files: Files, n: nat): Db
    requires n <= |files|
  {
    Db(map r | 1 <= r <= n :: NthRow(files, r), seq(n, i requires 0 <= i < n => files[i].sql))
  }

  function VersionsOf(files: Files, n: nat): set<string>
    requires n <= |files|
  {
    set i | 0 <= i < n :: files[i].raw
  }

  /** Distinct texts are as many as their set. */
  lemma {:induction false} DistinctAreCounted(xs: seq<string>, n: nat)
    requires n <= |xs| && forall i, j :: 0 <= i < j < |xs| ==> xs[i] != xs[j]
    ensures |set i | 0 <= i < n :: xs[i]| == n
  {
    if n > 0 {
      DistinctAreCounted(xs, n - 1);
      var before := set i | 0 <= i < n - 1 :: xs[i];
      assert (set i | 0 <= i < n :: xs[i]) == before + {xs[n - 1]};
    }
  }

  lemma VersionsAreCounted(files: Files, n: nat)
    requires n <= |files| && DistinctVersions(files)
    ensures |VersionsOf(files, n)| == n
  {
    var xs := seq(n, i requires 0 <= i < n => files[i].raw);
    DistinctAreCounted(xs, n);
    var counted := set i | 0 <= i < n :: xs[i];
    forall v | v in VersionsOf(files, n) ensures v in counted {
      var i :| 0 <= i < n && files[i].raw == v;
      assert xs[i] == v;
    }
    assert VersionsOf(files, n) == counted;
  }

  lemma PrefixVersions(files: Files, n: nat)
    requires n <= |files|
    ensures AppliedVersions(PrefixDb(files, n)) == VersionsOf(files, n)
  {
    var db := PrefixDb(files, n);
    forall i | 0 <= i < n ensures files[i].raw in AppliedVersions(db) {
      assert db.history[i + 1].version == files[i].raw;
    }
  }

  lemma VersionIsOfPrefix(files: Files, n: nat, i: nat)
    requires n <= |files| && i < |files| && DistinctVersions(files)
    ensures files[i].raw in VersionsOf(files, n) <==> i < n
  {
  }

  lemma EmptyIsPrefix(files: Files)
    ensures PrefixDb(files, 0) == EMPTY_DB
  {
    assert PrefixDb(files, 0).history == map[];
  }

  /** On a prefix only the next rank can be inserted, and it must carry the next file. */
  lemma {:induction false} PrefixTransaction(files: Files, n: nat, next: nat, scriptRuns: bool)
    requires n <= |files| && next < |files| && next <= n
    ensures Transaction(PrefixDb(files, n), files[next], next + 1, scriptRuns)
         == if scriptRuns && next == n then Some(PrefixDb(files, n + 1)) else None
  {
    if scriptRuns && next == n {
      var db := Transaction(PrefixDb(files, n), files[next], next + 1, scriptRuns).value;
      assert db.history == PrefixDb(files, n + 1).history;
      assert db.schema == PrefixDb(files, n + 1).schema;
    }
  }

  /** What holds of a runner of the first `m` files when `n` files are applied: its snapshot is an
      earlier prefix, its rank is the number of files behind it, and it has only finished if all
      its own files are applied. */
  ghost predicate RunnerInvariant(files: Files, m: nat, n: nat, r: Runner)
    requires m <= |files| && n <= |files|
  {
    match r
    case Running(applied, rank, next) =>
      && |applied| <= n && applied == VersionsOf(files, |applied|)
      && next <= m && rank <= n
      && rank == if next <= |applied| then |applied| else next
    case Finished => m <= n
    case _ => true
  }

  lemma StartKeepsInvariant(files: Files, m: nat, n: nat)
    requires m <= |files| && n <= |files| && DistinctVersions(files)
    ensures RunnerInvariant(files, m, n, Start(files[..m], PrefixDb(files, n)))
  {
    PrefixVersions(files, n);
    VersionsAreCounted(files, n);
  }

  /** What a turn does on a prefix: a file of the snapshot is passed over, the next file to apply
      is applied if its script runs, and a file that others have applied in the meantime meets a
      taken rank. */
  lemma {:induction false} AdvanceOnPrefix(files: Files, m: nat, n: nat, r: Runner, scriptRuns: bool)
    requires m <= |files| && n <= |files| && DistinctVersions(files) && RunnerInvariant(files, m, n, r)
    requires r.Running? && r.next < m
    ensures Advance(files[..m], PrefixDb(files, n), r, scriptRuns) ==
      if r.next < |r.applied| then (r.(next := r.next + 1), PrefixDb(files, n))
      else if scriptRuns && r.next == n
        then (Running(r.applied, r.rank + 1, r.next + 1), PrefixDb(files, n + 1))
      else (Failed, PrefixDb(files, n))
  {
    VersionIsOfPrefix(files, |r.applied|, r.next);
    if r.next >= |r.applied| { PrefixTransaction(files, n, r.next, scriptRuns); }
  }

  lemma AdvanceKeepsInvariant(files: Files, m: nat, n: nat, r: Runner, scriptRuns: bool) returns (n': nat)
    requires m <= |files| && n <= |files| && DistinctVersions(files) && RunnerInvariant(files, m, n, r)
    ensures var (r', db) := Advance(files[..m], PrefixDb(files, n), r, scriptRuns);
      n <= n' <= |files| && db == PrefixDb(files, n') && RunnerInvariant(files, m, n', r')
  {
    n' := n;
    if r.Running? && r.next < m {
      AdvanceOnPrefix(files, m, n, r, scriptRuns);
      if r.next >= |r.applied| && scriptRuns && r.next == n { n' := n + 1; }
    }
  }

  ghost predicate InstanceInvariant(files: Files, n: nat, own: Instance)
    requires n <= |files|
  {
    own.files <= files && RunnerInvariant(files, |own.files|, n, own.runner)
  }

  ghost predicate ClusterInvariant(files: Files, c: Cluster) {
    var n := |c.db.schema|;
    && n <= |files| && c.db == PrefixDb(files, n)
    && forall who :: who in c.instances ==> InstanceInvariant(files, n, c.instances[who])
  }

  lemma ActKeepsInvariant(files: Files, c: Cluster, a: Action)
    requires DistinctVersions(files) && ClusterInvariant(files, c)
    requires a.Begin? ==> a.files <= files
    ensures ClusterInvariant(files, Act(c, a))
  {
    var n := |c.db.schema|;
    match a
    case Begin(who, own) =>
      assert own == files[..|own|];
      StartKeepsInvariant(files, |own|, n);
    case Turn(who, scriptRuns) =>
      var own := InstanceOf(c, who);
      assert own.files == files[..|own.files|];
      var n' := AdvanceKeepsInvariant(files, |own.files|, n, own.runner, scriptRuns);
  }

  lemma {:induction false} InvariantAlways(files: Files, actions: seq<Action>, k: nat)
    requires k <= |actions| && DistinctVersions(files) && OneLine(files, actions)
    ensures ClusterInvariant(files, After(actions, k))
  {
    if k == 0 {
      EmptyIsPrefix(files);
    } else {
      InvariantAlways(files, actions, k - 1);
      ActKeepsInvariant(files, After(actions, k - 1), actions[k - 1]);
    }
  }

  /** Under every interleaving of any number of instances, of any mixture of builds, the database
      is a prefix of the file list: row r is file r, no script is applied twice or out of order;
      and whenever an instance has finished without an error, all its own files are applied. */
  lemma {:induction false} HistoryIsAlwaysAPrefix(files: Files, actions: seq<Action>, k: nat, who: nat)
    requires k <= |actions| && DistinctVersions(files) && OneLine(files, actions)
    ensures var c := After(actions, k);
      var n := |c.db.schema|;
      && n <= |files| && c.db == PrefixDb(files, n)
      && (forall r :: r in c.db.history <==> 1 <= r <= n)
      && (forall i :: 0 <= i < n ==>
           && c.db.schema[i] == files[i].sql
           && c.db.history[i + 1] == Row(files[i].raw, files[i].description, files[i].filename))
      && (InstanceOf(c, who).runner.Finished? ==>
           InstanceOf(c, who).files <= files && |InstanceOf(c, who).files| <= n)
  {
    InvariantAlways(files, actions, k);
  }

  // ---------- progress ----------

  /** `n` turns of one instance, with scripts that run. */
  function TurnsOf(who: nat, n: nat): seq<Action> {
    seq(n, i => Turn(who, true))
  }

  /** The cluster after more actions. */
  function AfterMore(c: Cluster, actions: seq<Action>, k: nat): Cluster
    requires k <= |actions|
  {
    if k == 0 then c else Act(AfterMore(c, actions, k - 1), actions[k - 1])
  }

  /** A run that goes on alone is never ahead of the files it has dealt with, and misses none. */
  ghost predicate OnItsWay(files: Files, c: Cluster, who: nat, next: nat) {
    var n := |c.db.schema|;
    && ClusterInvariant(files, c) && InstanceOf(c, who).files == files
    && match InstanceOf(c, who).runner
       case Running(applied, _, i) => i == next && n == if |applied| <= next then next else |applied|
       case Finished => n == |files| && next == |files| + 1
       case _ => false
  }

  lemma {:induction false} TurnOnItsWay(files: Files, c: Cluster, who: nat, next: nat)
    requires DistinctVersions(files) && OnItsWay(files, c, who, next) && next <= |files|
    ensures OnItsWay(files, Act(c, Turn(who, true)), who, next + 1)
  {
    var n := |c.db.schema|;
    ActKeepsInvariant(files, c, Turn(who, true));
    var r := InstanceOf(c, who).runner;
    assert files[..|files|] == files;
    if r.Running? && r.next < |files| { AdvanceOnPrefix(files, |files|, n, r, true); }
  }

  lemma {:induction false} TurnsOnTheirWay(files: Files, c: Cluster, who: nat, k: nat)
    requires DistinctVersions(files) && OnItsWay(files, c, who, 0) && k <= |files| + 1
    ensures OnItsWay(files, AfterMore(c, TurnsOf(who, |files| + 1), k), who, k)
  {
    if k > 0 {
      TurnsOnTheirWay(files, c, who, k - 1);
      TurnOnItsWay(files, AfterMore(c, TurnsOf(who, |files| + 1), k - 1), who, k - 1);
    }
  }

  /** From every reachable state, whatever was left half done: an instance of the newest build that
      starts and is not disturbed finishes in one turn per file and a last one, with all files
      applied. */
  lemma {:induction false} AnInstanceCanFinish(files: Files, actions: seq<Action>, k: nat, who: nat)
    requires k <= |actions| && DistinctVersions(files) && OneLine(files, actions)
    ensures var c := AfterMore(Act(After(actions, k), Begin(who, files)), TurnsOf(who, |files| + 1), |files| + 1);
      InstanceOf(c, who).runner.Finished? && c.db == PrefixDb(files, |files|)
  {
    var c := After(actions, k);
    InvariantAlways(files, actions, k);
    ActKeepsInvariant(files, c, Begin(who, files));
    PrefixVersions(files, |c.db.schema|);
    VersionsAreCounted(files, |c.db.schema|);
    var begun := Act(c, Begin(who, files));
    if files == [] {
      assert AfterMore(begun, TurnsOf(who, 1), 1) == Act(AfterMore(begun, TurnsOf(who, 1), 0), Turn(who, true));
    } else {
      TurnsOnTheirWay(files, begun, who, |files| + 1);
    }
  }

  /** What is committed stays committed. */
  lemma {:induction false} HistoryOnlyGrows(actions: seq<Action>, k: nat, m: nat)
    requires k <= m <= |actions|
    ensures After(actions, k).db.schema <= After(actions, m).db.schema
  {
    if k < m { HistoryOnlyGrows(actions, k, m - 1); }
  }

  /** Once an instance of the newest build has finished nothing changes any more, whoever else
      starts or goes on. */
  lemma {:induction false} FinishedIsFinal(files: Files, actions: seq<Action>, k: nat, m: nat, who: nat)
    requires k <= m <= |actions| && DistinctVersions(files) && OneLine(files, actions)
    requires InstanceOf(After(actions, k), who) == Instance(files, Finished)
    ensures After(actions, m).db == After(actions, k).db == PrefixDb(files, |files|)
  {
    HistoryIsAlwaysAPrefix(files, actions, k, who);
    HistoryIsAlwaysAPrefix(files, actions, m, who);
    HistoryOnlyGrows(actions, k, m);
  }
}
