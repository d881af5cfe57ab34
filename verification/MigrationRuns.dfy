/** Applying pending migrations inside one transaction that is rolled back on any failure. */
module MigrationRuns {
  import opened Wrappers
  import opened Migrations

  // What a database has been through: the scripts executed, and the version recorded.
  datatype Db = Db(log: seq<Migration>, version: int)

  const NEW: Db := Db([], 0)

  datatype Commit = Committed | Lost | Unacknowledged

  // Where a run fails: before reading files, while reading the version, at some executions, at some
  // version updates, or at the commit.
  datatype Faults = Faults(begin: bool, readVersion: bool, executions: set<int>, updates: set<int>, commit: Commit)

  const NO_FAULTS: Faults := Faults(false, false, {}, {}, Committed)

  // How many leading migrations have at most this version.
  function Upto(ms: seq<Migration>, version: int, n: nat): (k: nat)
    requires n <= |ms|
    ensures k <= n
  {
    if n == 0 then 0
    else if ms[n - 1].version <= version then n
    else Upto(ms, version, n - 1)
  }

  function First(ms: seq<Migration>, version: int): (k: nat)
    ensures k <= |ms|
  {
    Upto(ms, version, |ms|)
  }

  lemma {:induction false} UptoSplits(ms: seq<Migration>, version: int, n: nat)
    requires n <= |ms| && Increasing(ms)
    ensures forall i :: 0 <= i < n ==> (ms[i].version <= version <==> i < Upto(ms, version, n))
  {
    if n > 0 && ms[n - 1].version > version {
      UptoSplits(ms, version, n - 1);
    }
  }

  // The version recorded once the first n migrations are applied. Migrations that are not numbered
  // above zero never are.
  function VersionAt(ms: seq<Migration>, n: nat): int
    requires n <= |ms|
  {
    if n <= First(ms, 0) then 0 else ms[n - 1].version
  }

  // Migrations i, i + 1, ... in turn, until one fails.
  function RunFrom(db: Db, ms: seq<Migration>, i: nat, faults: Faults): (Db, Option<Error>)
    requires i <= |ms|
    decreases |ms| - i
  {
    if i == |ms| then (db, None)
    else if ms[i].version in faults.executions then (db, Some(Execution))
    else
      var executed := db.(log := db.log + [ms[i]]);
      if ms[i].version in faults.updates then (executed, Some(Storage))
      else RunFrom(executed.(version := ms[i].version), ms, i + 1, faults)
  }

  // What reading the files yielded.
  type Files = Result<seq<Migration>, Error>

  function Applied(db: Db, files: Files, faults: Faults): (Db, Option<Error>) {
    match files
    case Err(e) => (db, Some(e))
    case Ok(ms) => if faults.readVersion then (db, Some(Storage)) else RunFrom(db, ms, First(ms, db.version), faults)
  }

  // One run with its transaction.
  function Migrated(db: Db, files: Files, faults: Faults): (Db, Option<Error>) {
    if faults.begin then (db, Some(Storage))
    else
      var (after, error) := Applied(db, files, faults);
      if error.Some? then (db, error)
      else match faults.commit case Committed => (after, None) case Lost => (db, Some(Storage)) case Unacknowledged => (after, Some(Storage))
  }

  class Runner {
    var log: seq<Migration>
    var version: int

    constructor (start: Db)
      ensures View() == start
    {
      log, version := start.log, start.version;
    }

    function View(): Db
      reads this
    {
      Db(log, version)
    }

    method ApplyMigrations(directory: Option<seq<File>>, faults: Faults) returns (error: Option<Error>)
      modifies this
      ensures (View(), error) == Applied(old(View()), Read(directory), faults)
    {
      var read := ReadMigrations(directory);
      if read.Err? {
        return Some(read.error);
      }
      if faults.readVersion {
        return Some(Storage);
      }
      ReadIncreases(directory);
      error := ApplyPending(read.value, faults);
    }

    method ApplyPending(ms: seq<Migration>, faults: Faults) returns (error: Option<Error>)
      requires Increasing(ms)
      modifies this
      ensures (View(), error) == RunFrom(old(View()), ms, First(ms, old(version)), faults)
    {
      var current := version;
      UptoSplits(ms, current, |ms|);
      ghost var first := First(ms, current);
      for i := 0 to |ms|
        invariant i <= first ==> View() == old(View())
        invariant i >= first ==> RunFrom(View(), ms, i, faults) == RunFrom(old(View()), ms, first, faults)
      {
        if ms[i].version > current {
          if ms[i].version in faults.executions {
            return Some(Execution);
          }
          log := log + [ms[i]];
          if ms[i].version in faults.updates {
            return Some(Storage);
          }
          version := ms[i].version;
        }
      }
      return None;
    }

    // A run that fails leaves no trace, unless only the acknowledgement of its commit was lost.
    method Migrate(directory: Option<seq<File>>, faults: Faults) returns (error: Option<Error>)
      modifies this
      ensures error.Some? && !faults.commit.Unacknowledged? ==> View() == old(View())
      ensures (View(), error) == Migrated(old(View()), Read(directory), faults)
    {
      if faults.begin {
        return Some(Storage);
      }
      var savedLog, savedVersion := log, version;
      error := ApplyMigrations(directory, faults);
      if error.Some? || faults.commit.Lost? {
        log, version := savedLog, savedVersion;
      }
      if error.None? && !faults.commit.Committed? {
        error := Some(Storage);
      }
    }
  }

  lemma ReadIncreases(directory: Option<seq<File>>)
    ensures Read(directory).Ok? ==> Increasing(Read(directory).value)
  {
    if directory.Some? {
      ReadIsExact(directory.value);
    }
  }

  // ----- when a run succeeds

  // Migration i is the first above `version` to fail, if i is an index, and none does otherwise.
  ghost predicate FirstToFail(ms: seq<Migration>, version: int, faults: Faults, i: nat) {
    && i <= |ms|
    && (forall j :: 0 <= j < i && ms[j].version > version ==> ms[j].version !in faults.executions && ms[j].version !in faults.updates)
    && (i < |ms| ==> ms[i].version > version && (ms[i].version in faults.executions || ms[i].version in faults.updates))
  }

  lemma {:induction false} RunsUpTo(db: Db, ms: seq<Migration>, k: nat, faults: Faults, i: nat)
    requires k <= i <= |ms|
    requires forall j :: k <= j < i ==> ms[j].version !in faults.executions && ms[j].version !in faults.updates
    requires i < |ms| ==> ms[i].version in faults.executions || ms[i].version in faults.updates
    ensures var (r, error) := RunFrom(db, ms, k, faults);
            if i == |ms| then error == None && r.log == db.log + ms[k..] && r.version == (if k == i then db.version else ms[i - 1].version)
            else error == Some(if ms[i].version in faults.executions then Execution else Storage)
    decreases i - k
  {
    if k < i {
      RunsUpTo(Db(db.log + [ms[k]], ms[k].version), ms, k + 1, faults, i);
      assert db.log + [ms[k]] + ms[k + 1..] == db.log + ms[k..];
    }
  }

  lemma FirstIsExact(ms: seq<Migration>, version: int, k: nat)
    requires Increasing(ms) && k <= |ms| && forall j :: 0 <= j < |ms| ==> (j < k <==> ms[j].version <= version)
    ensures First(ms, version) == k
  {
    UptoSplits(ms, version, |ms|);
    var f := First(ms, version);
    var first := if f < |ms| then ms[f].version <= version else false;
    var second := if k < |ms| then ms[k].version <= version else false;
  }

  // A run succeeds exactly when its files can be read, the database answers, no migration above the
  // recorded version fails, and the commit is acknowledged. Then those migrations, and no others, were
  // executed in order, and the last version is recorded. The first that fails decides the error.
  lemma RunIsExact(db: Db, ms: seq<Migration>, faults: Faults, k: nat, i: nat)
    requires Increasing(ms) && k <= |ms| && forall j :: 0 <= j < |ms| ==> (j < k <==> ms[j].version <= db.version)
    requires FirstToFail(ms, db.version, faults, i)
    ensures var (r, error) := Migrated(db, Ok(ms), faults);
            && (error == None <==> !faults.begin && !faults.readVersion && i == |ms| && faults.commit == Committed)
            && (error == None ==> r == Db(db.log + ms[k..], if k == |ms| then db.version else ms[|ms| - 1].version))
            && (error == Some(Execution) <==> !faults.begin && !faults.readVersion && i < |ms| && ms[i].version in faults.executions)
            && (error == None || error == Some(Execution) || error == Some(Storage))
            && (error.Some? && faults.commit != Unacknowledged ==> r == db)
    ensures forall e :: Migrated(db, Err(e), faults) == (db, Some(if faults.begin then Storage else e))
  {
    FirstIsExact(ms, db.version, k);
    assert k <= i;
    RunsUpTo(db, ms, k, faults, i);
  }

  // ----- what runs amount to

  // The database a new installation with the first n of these migrations has.
  function Fresh(ms: seq<Migration>, n: nat): Db
    requires First(ms, 0) <= n <= |ms|
  {
    Db(ms[First(ms, 0)..n], VersionAt(ms, n))
  }

  lemma {:induction false} RunFromAppliesAll(all: seq<Migration>, ms: seq<Migration>, i: nat, faults: Faults)
    requires ms <= all && Increasing(all) && First(all, 0) <= i <= |ms|
    requires RunFrom(Fresh(all, i), ms, i, faults).1.None?
    ensures RunFrom(Fresh(all, i), ms, i, faults).0 == Fresh(all, |ms|)
    decreases |ms| - i
  {
    if i < |ms| {
      var p := First(all, 0);
      UptoSplits(all, 0, |all|);
      assert all[p..i] + [all[i]] == all[p..i + 1];
      assert Fresh(all, i + 1) == Db(Fresh(all, i).log + [ms[i]], ms[i].version);
      RunFromAppliesAll(all, ms, i + 1, faults);
    }
  }

  lemma FirstOfFresh(all: seq<Migration>, ms: seq<Migration>, i: nat)
    requires ms <= all && Increasing(all) && First(all, 0) <= i <= |all|
    ensures First(ms, VersionAt(all, i)) == if i <= |ms| then i else |ms|
  {
    assert forall k, l :: 0 <= k < l < |ms| ==> ms[k] == all[k] && ms[l] == all[l];
    UptoSplits(ms, VersionAt(all, i), |ms|);
    UptoSplits(all, 0, |all|);
    var f := First(ms, VersionAt(all, i));
    if i < |ms| {
      assert ms[i].version > VersionAt(all, i);
    }
    if 0 < i <= |ms| {
      assert ms[i - 1].version <= VersionAt(all, i);
    }
  }

  // A run whose files are the first of a longer list takes one installation of that list to another,
  // whatever fails in it; if it succeeds, none of its own files is left out.
  lemma RunStaysFresh(all: seq<Migration>, i: nat, files: Files, faults: Faults) returns (j: nat)
    requires Increasing(all) && First(all, 0) <= i <= |all|
    requires files.Ok? ==> files.value <= all
    ensures i <= j <= |all| && Migrated(Fresh(all, i), files, faults).0 == Fresh(all, j)
    ensures Migrated(Fresh(all, i), files, faults).1.None? ==> j >= |files.value|
  {
    j := i;
    if files.Ok? && !faults.begin && !faults.readVersion {
      var ms := files.value;
      FirstOfFresh(all, ms, i);
      if i < |ms| && RunFrom(Fresh(all, i), ms, i, faults).1.None? {
        RunFromAppliesAll(all, ms, i, faults);
        if !faults.commit.Lost? {
          j := |ms|;
        }
      }
    }
  }

  // ----- a series of releases

  datatype Release = Release(files: Files, faults: Faults)

  function After(releases: seq<Release>, n: nat): Db
    requires n <= |releases|
  {
    if n == 0 then NEW else Migrated(After(releases, n - 1), releases[n - 1].files, releases[n - 1].faults).0
  }

  // Every release that can be read ships the first so many of `all`: later files are numbered above
  // earlier ones.
  ghost predicate Extends(releases: seq<Release>, all: seq<Migration>) {
    forall k :: 0 <= k < |releases| && releases[k].files.Ok? ==> releases[k].files.value <= all
  }

  lemma {:induction false} EveryStateIsFresh(releases: seq<Release>, all: seq<Migration>, n: nat) returns (i: nat)
    requires n <= |releases| && Extends(releases, all) && Increasing(all)
    ensures First(all, 0) <= i <= |all| && After(releases, n) == Fresh(all, i)
  {
    if n == 0 {
      i := First(all, 0);
    } else {
      i := EveryStateIsFresh(releases, all, n - 1);
      i := RunStaysFresh(all, i, releases[n - 1].files, releases[n - 1].faults);
    }
  }

  // Any series of runs, failures included, that ends in a success with all the files leaves what one
  // run on an empty database leaves.
  lemma IncrementalEqualsFresh(releases: seq<Release>, all: seq<Migration>)
    requires releases != [] && Extends(releases, all) && Increasing(all)
    requires releases[|releases| - 1].files == Ok(all)
    requires Migrated(After(releases, |releases| - 1), releases[|releases| - 1].files, releases[|releases| - 1].faults).1.None?
    ensures After(releases, |releases|) == Migrated(NEW, releases[|releases| - 1].files, NO_FAULTS).0
    ensures Migrated(NEW, releases[|releases| - 1].files, NO_FAULTS) == (Fresh(all, |all|), None)
  {
    var n := |releases| - 1;
    var i := EveryStateIsFresh(releases, all, n);
    var j := RunStaysFresh(all, i, releases[n].files, releases[n].faults);
    FreshRunSucceeds(all);
  }

  lemma FreshRunSucceeds(all: seq<Migration>)
    requires Increasing(all)
    ensures Migrated(NEW, Ok(all), NO_FAULTS) == (Fresh(all, |all|), None)
  {
    var p := First(all, 0);
    assert NEW == Fresh(all, p);
    FirstOfFresh(all, all, p);
    NoFaultNoError(NEW, all, p);
    RunFromAppliesAll(all, all, p, NO_FAULTS);
  }

  lemma {:induction false} NoFaultNoError(db: Db, ms: seq<Migration>, i: nat)
    requires i <= |ms|
    ensures RunFrom(db, ms, i, NO_FAULTS).1.None?
    ensures RunFrom(db, ms, i, NO_FAULTS).0.log == db.log + ms[i..]
    decreases |ms| - i
  {
    if i < |ms| {
      NoFaultNoError(Db(db.log + [ms[i]], ms[i].version), ms, i + 1);
      assert db.log + [ms[i]] + ms[i + 1..] == db.log + ms[i..];
    }
  }

  // ----- exactly when an upgrade does what a new installation does

  ghost predicate Positive(ms: seq<Migration>) {
    Increasing(ms) && forall i :: 0 <= i < |ms| ==> ms[i].version > 0
  }

  lemma PositiveAreAllApplied(ms: seq<Migration>)
    requires Positive(ms)
    ensures First(ms, 0) == 0 && Fresh(ms, |ms|).log == ms
  {
    UptoSplits(ms, 0, |ms|);
    assert ms != [] ==> ms[0].version > 0;
  }

  // Exactly when the new files are all numbered above the old ones, which are all still there.
  lemma UpgradeIsExact(before: seq<Migration>, ms: seq<Migration>)
    requires Positive(before) && Positive(ms)
    ensures First(before, 0) == 0
    ensures Migrated(Fresh(before, |before|), Ok(ms), NO_FAULTS).0 == Migrated(NEW, Ok(ms), NO_FAULTS).0 <==> before <= ms
  {
    PositiveAreAllApplied(before);
    PositiveAreAllApplied(ms);
    FreshRunSucceeds(ms);
    var start := Fresh(before, |before|);
    NoFaultNoError(start, ms, First(ms, start.version));
    if before <= ms {
      assert start == Fresh(ms, |before|);
      FirstOfFresh(ms, ms, |before|);
      RunFromAppliesAll(ms, ms, |before|, NO_FAULTS);
    } else {
      assert before <= Migrated(start, Ok(ms), NO_FAULTS).0.log;
    }
  }
}
