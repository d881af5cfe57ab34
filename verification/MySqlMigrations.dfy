/**
  Migrations on a server whose DDL commits implicitly: a persistent marker is committed before
  each script, and cleared together with the version update after it. A run may stop anywhere.
 */
module MySqlMigrations {
  import opened Wrappers
  import opened Migrations
  import opened MigrationRuns

  // One statement of a script, executed.
  datatype Executed = Executed(version: int, index: nat, text: string)

  // The server's record: statements executed so far, the version row, and the marker row.
  datatype Server = Server(log: seq<Executed>, version: int, pending: Option<int>)

  // How the server splits a script into statements.
  type Splitter = string -> seq<string>

  function Statements(m: Migration, split: Splitter): (s: seq<Executed>)
    ensures |s| == |split(m.script)|
    ensures forall k :: 0 <= k < |s| ==> s[k] == Executed(m.version, k, split(m.script)[k])
  {
    seq(|split(m.script)|, k requires 0 <= k < |split(m.script)| => Executed(m.version, k, split(m.script)[k]))
  }

  // Where a run stops: before touching migrations, or in the work on the migration of this version:
  // at the marker's commit, after some statements of the script, or at the finishing commit. A commit
  // that is not acknowledged may have happened.
  datatype Stop =
    | Never
    | AtStart
    | AtMark(version: int, happened: bool)
    | InScript(version: int, statements: nat)
    | AtFinish(version: int, happened: bool)

  // One migration: mark, execute, finish.
  function Apply(s: Server, m: Migration, split: Splitter, stop: Stop): (Server, bool) {
    var v := m.version;
    var marked := s.(pending := Some(v));
    var executed := marked.(log := s.log + Statements(m, split));
    var finished := executed.(version := v, pending := None);
    if s.pending.Some? then (s, false)
    else if stop == AtMark(v, true) then (marked, false)
    else if stop == AtMark(v, false) then (s, false)
    else if stop.InScript? && stop.version == v then
      (marked.(log := s.log + Statements(m, split)[..Min(stop.statements, |split(m.script)|)]), false)
    else if stop == AtFinish(v, true) then (finished, false)
    else if stop == AtFinish(v, false) then (executed, false)
    else (finished, true)
  }

  // Migrations i, i + 1, ... in turn, until the run stops.
  function RunScripts(s: Server, ms: seq<Migration>, i: nat, split: Splitter, stop: Stop): (Server, bool)
    requires i <= |ms|
    decreases |ms| - i
  {
    if i == |ms| then (s, true)
    else
      var (r, ok) := Apply(s, ms[i], split, stop);
      if ok then RunScripts(r, ms, i + 1, split, stop) else (r, false)
  }

  function Min(a: nat, b: nat): (m: nat)
    ensures m <= a && m <= b
  {
    if a <= b then a else b
  }

  function Run(s: Server, files: Files, split: Splitter, stop: Stop): (Server, bool) {
    match files
    case Err(_) => (s, false)
    case Ok(ms) =>
      if stop.AtStart? || (s.pending.Some? && s.pending.value != 0) then (s, false)
      else RunScripts(s, ms, First(ms, s.version), split, stop)
  }

  class Connection {
    var log: seq<Executed>
    var version: int
    var pending: Option<int>

    constructor (start: Server)
      ensures View() == start
    {
      log, version, pending := start.log, start.version, start.pending;
    }

    function View(): Server
      reads this
    {
      Server(log, version, pending)
    }

    // The marker is inserted, not replaced: a second one is refused.
    method SetPending(v: int, stop: Stop) returns (ok: bool)
      modifies this`pending
      ensures ok <==> old(pending).None? && !(stop.AtMark? && stop.version == v)
      ensures pending == if old(pending).None? && (stop.AtMark? && stop.version == v ==> stop.happened) then Some(v) else old(pending)
    {
      if pending.Some? {
        return false;
      }
      if stop.AtMark? && stop.version == v {
        if stop.happened {
          pending := Some(v);
        }
        return false;
      }
      pending := Some(v);
      return true;
    }

    // Statements take effect one by one.
    method Execute(m: Migration, split: Splitter, stop: Stop) returns (ok: bool)
      modifies this`log
      ensures ok <==> !(stop.InScript? && stop.version == m.version)
      ensures log == old(log) + (if ok then Statements(m, split) else Statements(m, split)[..Min(stop.statements, |split(m.script)|)])
    {
      var statements := Statements(m, split);
      var stops := stop.InScript? && stop.version == m.version;
      var n := if stops then Min(stop.statements, |statements|) else |statements|;
      for k := 0 to n
        invariant log == old(log) + statements[..k]
      {
        assert statements[..k + 1] == statements[..k] + [statements[k]];
        log := log + [statements[k]];
      }
      assert statements[..|statements|] == statements;
      return !stops;
    }

    // Version and marker change in one transaction.
    method Finish(v: int, stop: Stop) returns (ok: bool)
      modifies this`version, this`pending
      ensures ok <==> !(stop.AtFinish? && stop.version == v)
      ensures if ok || stop.happened then version == v && pending == None else version == old(version) && pending == old(pending)
    {
      var stops := stop.AtFinish? && stop.version == v;
      if !stops || stop.happened {
        version, pending := v, None;
      }
      return !stops;
    }

    method ApplyOne(m: Migration, split: Splitter, stop: Stop) returns (ok: bool)
      modifies this
      ensures (View(), ok) == Apply(old(View()), m, split, stop)
    {
      ok := SetPending(m.version, stop);
      if ok {
        ok := Execute(m, split, stop);
        if ok {
          ok := Finish(m.version, stop);
        }
      }
    }

    method ApplyMigrations(directory: Option<seq<File>>, split: Splitter, stop: Stop) returns (ok: bool)
      modifies this
      ensures (View(), ok) == Run(old(View()), Read(directory), split, stop)
    {
      var read := ReadMigrations(directory);
      if stop.AtStart? || read.Err? {
        return false;
      }
      if pending.Some? && pending.value != 0 {
        return false;
      }
      ReadIncreases(directory);
      ok := ApplyPending(read.value, split, stop);
    }

    method ApplyPending(ms: seq<Migration>, split: Splitter, stop: Stop) returns (ok: bool)
      requires Increasing(ms)
      modifies this
      ensures (View(), ok) == RunScripts(old(View()), ms, First(ms, old(version)), split, stop)
    {
      var current := version;
      UptoSplits(ms, current, |ms|);
      ghost var first := First(ms, current);
      for i := 0 to |ms|
        invariant i <= first ==> View() == old(View())
        invariant i >= first ==> RunScripts(View(), ms, i, split, stop) == RunScripts(old(View()), ms, first, split, stop)
      {
        if ms[i].version > current {
          ok := ApplyOne(ms[i], split, stop);
          if !ok {
            return;
          }
        }
      }
      return true;
    }
  }

  // ----- what is left behind, wherever runs stop

  // The whole scripts of migrations p .. i - 1 in order.
  function Scripts(ms: seq<Migration>, p: nat, i: nat, split: Splitter): seq<Executed>
    requires p <= i <= |ms|
  {
    if i == p then [] else Scripts(ms, p, i - 1, split) + Statements(ms[i - 1], split)
  }

  // The first i migrations are applied and nothing else was touched.
  ghost predicate Clean(s: Server, all: seq<Migration>, i: nat, split: Splitter)
    requires First(all, 0) <= i <= |all|
  {
    s.pending == None && s.version == VersionAt(all, i) && s.log == Scripts(all, First(all, 0), i, split)
  }

  // The marker names migration i, of which k statements were executed after all of those before it.
  ghost predicate Stuck(s: Server, all: seq<Migration>, i: nat, k: nat, split: Splitter)
    requires First(all, 0) <= i < |all|
  {
    && k <= |split(all[i].script)|
    && s.pending == Some(all[i].version) && s.version == VersionAt(all, i)
    && s.log == Scripts(all, First(all, 0), i, split) + Statements(all[i], split)[..k]
  }

  ghost predicate Safe(s: Server, all: seq<Migration>, split: Splitter) {
    || (exists i :: First(all, 0) <= i <= |all| && Clean(s, all, i, split))
    || (exists i, k: nat :: First(all, 0) <= i < |all| && Stuck(s, all, i, k, split))
  }

  lemma OneIsSafe(s: Server, all: seq<Migration>, i: nat, split: Splitter, stop: Stop)
    requires First(all, 0) <= i < |all| && Clean(s, all, i, split)
    ensures var (r, ok) := Apply(s, all[i], split, stop);
            && Safe(r, all, split)
            && (ok ==> Clean(r, all, i + 1, split))
  {
    var (r, ok) := Apply(s, all[i], split, stop);
    var statements := Statements(all[i], split);
    assert statements[..|statements|] == statements && statements[..0] == [];
    if r.pending.Some? {
      var k := if stop.AtMark? then 0 else if stop.InScript? then Min(stop.statements, |statements|) else |statements|;
      assert Stuck(r, all, i, k, split);
    } else if r == s {
      assert Clean(r, all, i, split);
    } else {
      assert Clean(r, all, i + 1, split);
    }
  }

  lemma {:induction false} RunFromIsSafe(s: Server, all: seq<Migration>, ms: seq<Migration>, i: nat, split: Splitter, stop: Stop)
    requires ms <= all && First(all, 0) <= i <= |ms| && Clean(s, all, i, split)
    ensures var (r, ok) := RunScripts(s, ms, i, split, stop);
            Safe(r, all, split) && (ok ==> Clean(r, all, |ms|, split))
    decreases |ms| - i
  {
    if i < |ms| {
      OneIsSafe(s, all, i, split, stop);
      var (r, ok) := Apply(s, ms[i], split, stop);
      if ok {
        RunFromIsSafe(r, all, ms, i + 1, split, stop);
      }
    }
  }

  // Any run, stopped anywhere, leaves whole scripts in ascending order and at most the beginning of
  // one more, with the marker set exactly in that case.
  lemma RunIsSafe(s: Server, all: seq<Migration>, files: Files, split: Splitter, stop: Stop)
    requires Increasing(all) && Safe(s, all, split) && (files.Ok? ==> files.value <= all)
    ensures Safe(Run(s, files, split, stop).0, all, split)
  {
    if files.Ok? && s.pending == None && !stop.AtStart? {
      var i :| First(all, 0) <= i <= |all| && Clean(s, all, i, split);
      FirstOfFresh(all, files.value, i);
      if i <= |files.value| {
        RunFromIsSafe(s, all, files.value, i, split, stop);
      }
    } else if s.pending.Some? {
      MarkersAreNotZero(s, all, split);
    }
  }

  lemma MarkersAreNotZero(s: Server, all: seq<Migration>, split: Splitter)
    requires Increasing(all) && Safe(s, all, split) && s.pending.Some?
    ensures s.pending.value > 0
  {
    UptoSplits(all, 0, |all|);
  }

  // Nothing runs past an incomplete migration.
  lemma IncompleteStaysPut(s: Server, all: seq<Migration>, files: Files, split: Splitter, stop: Stop)
    requires Increasing(all) && Safe(s, all, split) && s.pending.Some?
    ensures Run(s, files, split, stop) == (s, false)
  {
    MarkersAreNotZero(s, all, split);
  }

  // ----- whole histories

  datatype Attempt = Attempt(files: Files, stop: Stop)

  const EMPTY: Server := Server([], 0, None)

  function After(attempts: seq<Attempt>, split: Splitter, n: nat): Server
    requires n <= |attempts|
  {
    if n == 0 then EMPTY else Run(After(attempts, split, n - 1), attempts[n - 1].files, split, attempts[n - 1].stop).0
  }

  lemma {:induction false} HistoryIsSafe(attempts: seq<Attempt>, all: seq<Migration>, split: Splitter, n: nat)
    requires n <= |attempts| && Increasing(all)
    requires forall k :: 0 <= k < |attempts| && attempts[k].files.Ok? ==> attempts[k].files.value <= all
    ensures Safe(After(attempts, split, n), all, split)
  {
    if n == 0 {
      assert Clean(EMPTY, all, First(all, 0), split);
    } else {
      HistoryIsSafe(attempts, all, split, n - 1);
      RunIsSafe(After(attempts, split, n - 1), all, attempts[n - 1].files, split, attempts[n - 1].stop);
    }
  }

  lemma {:induction false} ScriptsAreWhole(all: seq<Migration>, p: nat, i: nat, split: Splitter)
    requires Increasing(all) && p <= i <= |all|
    ensures forall a, b :: 0 <= a < b < |Scripts(all, p, i, split)| ==> Precedes(Scripts(all, p, i, split)[a], Scripts(all, p, i, split)[b])
    ensures forall a :: 0 <= a < |Scripts(all, p, i, split)| ==> i > 0 && Scripts(all, p, i, split)[a].version <= all[i - 1].version
  {
    if p < i {
      ScriptsAreWhole(all, p, i - 1, split);
      assert i > 1 ==> all[i - 2].version < all[i - 1].version;
      assert Scripts(all, p, i, split) == Scripts(all, p, i - 1, split) + Statements(all[i - 1], split);
    } else {
      assert Scripts(all, p, i, split) == [];
    }
  }

  // Executed before, by version and then by position.
  predicate Precedes(x: Executed, y: Executed) {
    x.version < y.version || (x.version == y.version && x.index < y.index)
  }

  lemma SafeLogIsPrefix(s: Server, all: seq<Migration>, split: Splitter) returns (i: nat)
    requires Safe(s, all, split)
    ensures First(all, 0) <= i <= |all| && s.log <= Scripts(all, First(all, 0), i, split)
  {
    if s.pending == None {
      i :| First(all, 0) <= i <= |all| && Clean(s, all, i, split);
    } else {
      var k: nat;
      i, k :| First(all, 0) <= i < |all| && Stuck(s, all, i, k, split);
      i := i + 1;
    }
  }

  // Statements were executed in order of version and position, so none twice.
  lemma NoStatementTwice(s: Server, all: seq<Migration>, split: Splitter, a: nat, b: nat)
    requires Increasing(all) && Safe(s, all, split) && a < b < |s.log|
    ensures Precedes(s.log[a], s.log[b])
  {
    var i := SafeLogIsPrefix(s, all, split);
    ScriptsAreWhole(all, First(all, 0), i, split);
    assert Precedes(Scripts(all, First(all, 0), i, split)[a], Scripts(all, First(all, 0), i, split)[b]);
  }

  // The statements of a list of migrations.
  function Expanded(log: seq<Migration>, split: Splitter): seq<Executed> {
    if log == [] then [] else Expanded(log[..|log| - 1], split) + Statements(log[|log| - 1], split)
  }

  lemma {:induction false} ScriptsAreExpanded(all: seq<Migration>, p: nat, i: nat, split: Splitter)
    requires p <= i <= |all|
    ensures Scripts(all, p, i, split) == Expanded(all[p..i], split)
  {
    if p < i {
      ScriptsAreExpanded(all, p, i - 1, split);
      assert all[p..i][..i - 1 - p] == all[p..i - 1];
    }
  }

  // However many runs were stopped before it, a run that succeeds leaves what the transactional
  // runner leaves on an empty database.
  lemma RunnersAgree(attempts: seq<Attempt>, all: seq<Migration>, split: Splitter, stop: Stop)
    requires Increasing(all)
    requires forall k :: 0 <= k < |attempts| && attempts[k].files.Ok? ==> attempts[k].files.value <= all
    requires Run(After(attempts, split, |attempts|), Ok(all), split, stop).1
    ensures var s, target := Run(After(attempts, split, |attempts|), Ok(all), split, stop).0, Migrated(NEW, Ok(all), NO_FAULTS).0;
            s == Server(Expanded(target.log, split), target.version, None)
  {
    var s := After(attempts, split, |attempts|);
    HistoryIsSafe(attempts, all, split, |attempts|);
    FreshRunSucceeds(all);
    if s.pending.Some? {
      IncompleteStaysPut(s, all, Ok(all), split, stop);
    } else {
      var i :| First(all, 0) <= i <= |all| && Clean(s, all, i, split);
      FirstOfFresh(all, all, i);
      RunFromIsSafe(s, all, all, i, split, stop);
      ScriptsAreExpanded(all, First(all, 0), |all|, split);
    }
  }

  // A run on an empty server that is not stopped succeeds.
  lemma {:induction false} UninterruptedSucceeds(s: Server, ms: seq<Migration>, i: nat, split: Splitter)
    requires i <= |ms| && s.pending == None
    ensures RunScripts(s, ms, i, split, Never).1
    decreases |ms| - i
  {
    if i < |ms| {
      var finished := Server(s.log + Statements(ms[i], split), ms[i].version, None);
      UninterruptedSucceeds(finished, ms, i + 1, split);
    }
  }

  // The stop concerns the work on this version.
  predicate StopsAt(stop: Stop, version: int) {
    (stop.AtMark? || stop.InScript? || stop.AtFinish?) && stop.version == version
  }

  lemma OneRunsUnlessStopped(s: Server, m: Migration, split: Splitter, stop: Stop)
    requires s.pending == None
    ensures Apply(s, m, split, stop).1 <==> !StopsAt(stop, m.version)
    ensures Apply(s, m, split, stop).1 ==> Apply(s, m, split, stop).0 == Server(s.log + Statements(m, split), m.version, None)
  {
  }

  lemma {:induction false} ScriptsRunUnlessStopped(s: Server, ms: seq<Migration>, k: nat, split: Splitter, stop: Stop)
    requires k <= |ms| && s.pending == None
    ensures RunScripts(s, ms, k, split, stop).1 <==> forall j :: k <= j < |ms| ==> !StopsAt(stop, ms[j].version)
    ensures RunScripts(s, ms, k, split, stop).1 ==>
              RunScripts(s, ms, k, split, stop).0 ==
              Server(s.log + Expanded(ms[k..], split), if k == |ms| then s.version else ms[|ms| - 1].version, None)
    decreases |ms| - k
  {
    if k < |ms| {
      var finished := Server(s.log + Statements(ms[k], split), ms[k].version, None);
      OneRunsUnlessStopped(s, ms[k], split, stop);
      ScriptsRunUnlessStopped(finished, ms, k + 1, split, stop);
      ScriptsInARow(s.log, ms, k, split);
    }
  }

  lemma ScriptsInARow(log: seq<Executed>, ms: seq<Migration>, k: nat, split: Splitter)
    requires k < |ms|
    ensures log + Statements(ms[k], split) + Expanded(ms[k + 1..], split) == log + Expanded(ms[k..], split)
  {
    assert ms[k..] == [ms[k]] + ms[k + 1..];
    ExpandedStartsWith(ms[k], ms[k + 1..], split);
  }

  lemma ExpandedEndsWith(head: seq<Migration>, last: Migration, split: Splitter)
    ensures Expanded(head + [last], split) == Expanded(head, split) + Statements(last, split)
  {
    assert (head + [last])[..|head|] == head;
  }

  lemma {:induction false} ExpandedStartsWith(m: Migration, rest: seq<Migration>, split: Splitter)
    ensures Expanded([m] + rest, split) == Statements(m, split) + Expanded(rest, split)
    decreases |rest|
  {
    if rest == [] {
      assert [m] + rest == [] + [m];
      ExpandedEndsWith([], m, split);
    } else {
      var head, last := rest[..|rest| - 1], rest[|rest| - 1];
      ExpandedStartsWith(m, head, split);
      assert rest == head + [last] && [m] + rest == ([m] + head) + [last];
      ExpandedEndsWith(head, last, split);
      ExpandedEndsWith([m] + head, last, split);
    }
  }

  // A run succeeds exactly when its files can be read, it is not stopped before it starts or in the work
  // on a version above the recorded one, and no marker is in its way; then the statements above that
  // version, and no others, were executed in order, and the last version is recorded.
  lemma RunIsExact(s: Server, files: Files, split: Splitter, stop: Stop, k: nat)
    requires files.Ok? ==> Increasing(files.value) && k <= |files.value|
    requires files.Ok? ==> forall j :: 0 <= j < |files.value| ==> (j < k <==> files.value[j].version <= s.version)
    ensures var (r, ok) := Run(s, files, split, stop);
            && (ok <==> files.Ok? && !stop.AtStart? && (s.pending == None || (s.pending == Some(0) && k == |files.value|))
                        && forall j :: k <= j < |files.value| ==> !StopsAt(stop, files.value[j].version))
            && (ok ==> r == if k == |files.value| then s
                            else Server(s.log + Expanded(files.value[k..], split), files.value[|files.value| - 1].version, None))
  {
    if files.Ok? && !stop.AtStart? {
      var ms := files.value;
      FirstIsExact(ms, s.version, k);
      if s.pending == None {
        ScriptsRunUnlessStopped(s, ms, k, split, stop);
        assert k == |ms| ==> ms[k..] == [];
      }
    }
  }
}
