/** Reading migration files in version order, and running the pending ones inside one transaction. */
module Migrations {
  import opened Wrappers
  import opened Decimal

  // A directory entry; `body` is what reading the file yields, if reading works.
  datatype File = File(name: string, isDir: bool, body: Option<string>)

  datatype Migration = Migration(version: int, name: string, script: string)

  datatype Error =
    | UnreadableDirectory
    | InvalidName(name: string)
    | InvalidVersion(name: string)
    | UnreadableFile(name: string)
    | DuplicateVersion(version: int)
    | Execution
    | Storage

  // ----- reading

  const SUFFIX: string := ".up.sql"

  predicate HasSuffix(s: string, suffix: string) {
    |s| >= |suffix| && s[|s| - |suffix|..] == suffix
  }

  predicate Selected(file: File) {
    !file.isDir && HasSuffix(file.name, SUFFIX)
  }

  // What comes before the first separator.
  function Cut(s: string, sep: char): Option<string> {
    if s == "" then None
    else if s[0] == sep then Some("")
    else match Cut(s[1..], sep) case None => None case Some(rest) => Some([s[0]] + rest)
  }

  function Parse(file: File): Result<Migration, Error> {
    match Cut(file.name, '_')
    case None => Err(InvalidName(file.name))
    case Some(part) =>
      match ParseInt(part)
      case None => Err(InvalidVersion(file.name))
      case Some(version) =>
        match file.body
        case None => Err(UnreadableFile(file.name))
        case Some(body) => Ok(Migration(version, file.name, body))
  }

  // The migrations of the first n files in directory order, or the first file's error.
  function ParseAll(files: seq<File>, n: nat): Result<seq<Migration>, Error>
    requires n <= |files|
  {
    if n == 0 then Ok([])
    else
      match ParseAll(files, n - 1)
      case Err(e) => Err(e)
      case Ok(before) =>
        if !Selected(files[n - 1]) then Ok(before)
        else match Parse(files[n - 1]) case Err(e) => Err(e) case Ok(m) => Ok(before + [m])
  }

  function Insert(m: Migration, sorted: seq<Migration>): (r: seq<Migration>)
    ensures multiset(r) == multiset(sorted) + multiset{m}
  {
    if sorted == [] then [m]
    else if m.version < sorted[0].version then [m] + sorted
    else
      assert sorted == [sorted[0]] + sorted[1..];
      [sorted[0]] + Insert(m, sorted[1..])
  }

  function Sort(ms: seq<Migration>): (r: seq<Migration>)
    ensures multiset(r) == multiset(ms)
  {
    if ms == [] then []
    else
      assert ms == ms[..|ms| - 1] + [ms[|ms| - 1]];
      Insert(ms[|ms| - 1], Sort(ms[..|ms| - 1]))
  }

  ghost predicate Ascending(ms: seq<Migration>) {
    forall i, j :: 0 <= i < j < |ms| ==> ms[i].version <= ms[j].version
  }

  ghost predicate Increasing(ms: seq<Migration>) {
    forall i, j :: 0 <= i < j < |ms| ==> ms[i].version < ms[j].version
  }

  // Two migrations of the list have this version.
  ghost predicate Twice(ms: seq<Migration>, version: int) {
    exists i, j :: 0 <= i < j < |ms| && ms[i].version == version && ms[j].version == version
  }

  lemma {:induction false} InsertKeepsAscending(m: Migration, sorted: seq<Migration>)
    requires Ascending(sorted)
    ensures Ascending(Insert(m, sorted))
  {
    if sorted != [] && m.version >= sorted[0].version {
      InsertKeepsAscending(m, sorted[1..]);
      var rest := Insert(m, sorted[1..]);
      forall i | 0 <= i < |rest| ensures sorted[0].version <= rest[i].version {
        assert rest[i] in multiset(rest);
        assert rest[i] in multiset(sorted[1..]) + multiset{m};
      }
    }
  }

  lemma {:induction false} SortAscends(ms: seq<Migration>)
    ensures Ascending(Sort(ms))
  {
    if ms != [] {
      SortAscends(ms[..|ms| - 1]);
      InsertKeepsAscending(ms[|ms| - 1], Sort(ms[..|ms| - 1]));
    }
  }

  lemma {:induction false} TwoPlaces(s: seq<Migration>, m: Migration) returns (i: nat, j: nat)
    requires multiset(s)[m] >= 2
    ensures i < j < |s| && s[i] == m && s[j] == m
  {
    assert m in multiset(s);
    j :| 0 <= j < |s| && s[j] == m;
    var rest := s[..j] + s[j + 1..];
    assert s == s[..j] + [s[j]] + s[j + 1..];
    assert multiset(rest)[m] >= 1;
    i :| 0 <= i < |rest| && rest[i] == m;
    if i >= j {
      i, j := j, i + 1;
    }
  }

  lemma TwiceInSequence(s: seq<Migration>, i: nat, j: nat)
    requires i < j < |s| && s[i] == s[j]
    ensures multiset(s)[s[i]] >= 2
  {
    assert s == s[..j] + [s[j]] + s[j + 1..];
    assert s[i] == s[..j][i] && s[i] in multiset(s[..j]);
  }

  // Whether a version repeats does not depend on order.
  lemma TwiceInAnyOrder(a: seq<Migration>, b: seq<Migration>, version: int)
    requires multiset(a) == multiset(b) && Twice(a, version)
    ensures Twice(b, version)
  {
    var i, j :| 0 <= i < j < |a| && a[i].version == version && a[j].version == version;
    if a[i] == a[j] {
      TwiceInSequence(a, i, j);
      var k, l := TwoPlaces(b, a[i]);
      assert b[k].version == version && b[l].version == version;
    } else {
      assert a[i] in multiset(b) && a[j] in multiset(b);
      var k :| 0 <= k < |b| && b[k] == a[i];
      var l :| 0 <= l < |b| && b[l] == a[j];
      assert b[if k < l then k else l].version == version && b[if k < l then l else k].version == version;
    }
  }

  function Repeated(ms: seq<Migration>): Option<int> {
    if |ms| < 2 then None
    else if ms[0].version == ms[1].version then Some(ms[1].version)
    else Repeated(ms[1..])
  }

  lemma TwiceInTail(ms: seq<Migration>, version: int)
    requires |ms| >= 2 && Ascending(ms) && ms[0].version != ms[1].version
    ensures Twice(ms, version) <==> Twice(ms[1..], version)
  {
    if i, j :| 0 <= i < j < |ms| && ms[i].version == version && ms[j].version == version {
      assert ms[1].version <= ms[j].version && i > 0;
      assert ms[1..][i - 1] == ms[i] && ms[1..][j - 1] == ms[j];
    }
    if i, j :| 0 <= i < j < |ms[1..]| && ms[1..][i].version == version && ms[1..][j].version == version {
      assert ms[i + 1].version == version && ms[j + 1].version == version;
    }
  }

  // On ascending versions, looking at neighbours finds the least version that repeats.
  lemma {:induction false} RepeatedIsExact(ms: seq<Migration>, version: int)
    requires Ascending(ms)
    ensures Repeated(ms) == Some(version) <==> Twice(ms, version) && forall v :: Twice(ms, v) ==> version <= v
    ensures Repeated(ms) == None <==> Increasing(ms)
  {
    if |ms| >= 2 {
      if ms[0].version == ms[1].version {
        assert Twice(ms, ms[1].version);
      } else {
        RepeatedIsExact(ms[1..], version);
        forall v ensures Twice(ms, v) <==> Twice(ms[1..], v) {
          TwiceInTail(ms, v);
        }
        TailIncreases(ms);
      }
    }
  }

  lemma TailIncreases(ms: seq<Migration>)
    requires |ms| >= 2 && Ascending(ms) && ms[0].version != ms[1].version
    ensures Increasing(ms) <==> Increasing(ms[1..])
  {
    if Increasing(ms[1..]) {
      forall i, j | 0 <= i < j < |ms| ensures ms[i].version < ms[j].version {
        assert ms[j] == ms[1..][j - 1];
        assert i > 0 ==> ms[i] == ms[1..][i - 1];
        assert ms[1].version <= ms[j].version;
      }
    }
  }

  function Read(directory: Option<seq<File>>): Result<seq<Migration>, Error> {
    match directory
    case None => Err(UnreadableDirectory)
    case Some(files) =>
      match ParseAll(files, |files|)
      case Err(e) => Err(e)
      case Ok(ms) => match Repeated(Sort(ms)) case Some(v) => Err(DuplicateVersion(v)) case None => Ok(Sort(ms))
  }

  lemma {:induction false} FirstErrorStays(files: seq<File>, i: nat, n: nat)
    requires i <= n <= |files| && ParseAll(files, i).Err?
    ensures ParseAll(files, n) == ParseAll(files, i)
  {
    if i < n {
      FirstErrorStays(files, i, n - 1);
    }
  }

  method ReadMigrations(directory: Option<seq<File>>) returns (r: Result<seq<Migration>, Error>)
    ensures r == Read(directory)
    ensures if directory.Some? then IsReading(directory.value, r) else r == Err(UnreadableDirectory)
  {
    if directory.None? {
      return Err(UnreadableDirectory);
    }
    var files := directory.value;
    ReadIsExact(files);
    var ms: seq<Migration> := [];
    for n := 0 to |files|
      invariant ParseAll(files, n) == Ok(ms)
    {
      if Selected(files[n]) {
        var parsed := Parse(files[n]);
        if parsed.Err? {
          FirstErrorStays(files, n + 1, |files|);
          return Err(parsed.error);
        }
        ms := ms + [parsed.value];
      }
    }
    ms := Sort(ms);
    var repeated := FindRepeated(ms);
    return if repeated.Some? then Err(DuplicateVersion(repeated.value)) else Ok(ms);
  }

  // Compare each version with the one before it.
  method FindRepeated(ms: seq<Migration>) returns (r: Option<int>)
    ensures r == Repeated(ms)
  {
    var i := 1;
    while i < |ms|
      invariant 1 <= i && (i <= |ms| ==> Repeated(ms) == Repeated(ms[i - 1..]))
      invariant i > |ms| ==> Repeated(ms) == None
    {
      assert ms[i - 1..][1..] == ms[i..];
      if ms[i - 1].version == ms[i].version {
        return Some(ms[i].version);
      }
      i := i + 1;
    }
    return None;
  }

  lemma {:induction false} CutIsFirst(s: string, sep: char, part: string)
    ensures Cut(s, sep) == Some(part) <==> part + [sep] <= s && sep !in part
  {
    if s != "" {
      if s[0] == sep {
        assert part != "" && part + [sep] <= s ==> part[0] == sep;
      } else {
        CutIsFirst(s[1..], sep, if part == "" then "" else part[1..]);
        if part != "" {
          assert part == [part[0]] + part[1..];
          assert part + [sep] == [part[0]] + (part[1..] + [sep]);
        }
      }
    }
  }

  // ----- what a directory of files means, without parsing it

  // A migration file, as opposed to a directory or to something else.
  ghost predicate IsUp(file: File) {
    !file.isDir && |file.name| >= 7 && file.name[|file.name| - 7..] == ".up.sql"
  }

  // What comes before the first underscore of the name is this number.
  ghost predicate Numbered(name: string, version: int) {
    exists part :: part + "_" <= name && '_' !in part && ParseInt(part) == Some(version)
  }

  ghost predicate Yields(file: File, m: Migration) {
    IsUp(file) && m.name == file.name && file.body == Some(m.script) && Numbered(file.name, m.version)
  }

  ghost predicate Fails(file: File, error: Error) {
    IsUp(file) &&
    match error
    case InvalidName(name) => name == file.name && '_' !in name
    case InvalidVersion(name) => name == file.name && '_' in name && forall v :: !Numbered(name, v)
    case UnreadableFile(name) => name == file.name && file.body == None && exists v :: Numbered(name, v)
    case _ => false
  }

  ghost predicate YieldsSome(file: File) {
    exists m :: Yields(file, m)
  }

  // Every migration file among the first n yields a migration.
  ghost predicate AllYield(files: seq<File>, n: nat)
    requires n <= |files|
  {
    forall i :: 0 <= i < n && IsUp(files[i]) ==> YieldsSome(files[i])
  }

  ghost predicate From(files: seq<File>, n: nat, m: Migration)
    requires n <= |files|
  {
    exists i :: 0 <= i < n && Yields(files[i], m)
  }

  ghost predicate HasVersion(file: File, version: int) {
    exists m :: Yields(file, m) && m.version == version
  }

  ghost predicate VersionTwice(files: seq<File>, n: nat, version: int)
    requires n <= |files|
  {
    exists i, j :: 0 <= i < j < n && HasVersion(files[i], version) && HasVersion(files[j], version)
  }

  // The first file that fails decides; otherwise the least version that two files have; and otherwise
  // there is one migration for each file, by increasing version.
  ghost predicate IsReading(files: seq<File>, r: Result<seq<Migration>, Error>) {
    match r
    case Ok(ms) =>
      && AllYield(files, |files|) && (forall v :: !VersionTwice(files, |files|, v))
      && Increasing(ms) && forall m :: m in ms <==> From(files, |files|, m)
    case Err(DuplicateVersion(version)) =>
      && AllYield(files, |files|) && VersionTwice(files, |files|, version)
      && forall v :: VersionTwice(files, |files|, v) ==> version <= v
    case Err(error) => exists i :: 0 <= i < |files| && Fails(files[i], error) && AllYield(files, i)
  }

  lemma HasCut(name: string)
    ensures Cut(name, '_').Some? <==> '_' in name
    ensures Cut(name, '_').Some? ==> Cut(name, '_').value + "_" <= name && '_' !in Cut(name, '_').value
    ensures forall part :: part + "_" <= name && '_' !in part ==> Cut(name, '_') == Some(part)
  {
    forall part ensures part + "_" <= name && '_' !in part <==> Cut(name, '_') == Some(part) {
      CutIsFirst(name, '_', part);
    }
    SomeCut(name, '_');
  }

  lemma {:induction false} SomeCut(s: string, sep: char)
    ensures Cut(s, sep).Some? <==> sep in s
  {
    if s != "" {
      SomeCut(s[1..], sep);
      assert s == [s[0]] + s[1..];
    }
  }

  lemma NumberIsCut(name: string, version: int)
    ensures Numbered(name, version) <==> Cut(name, '_').Some? && ParseInt(Cut(name, '_').value) == Some(version)
  {
    HasCut(name);
  }

  lemma ParseIsExact(file: File)
    ensures Selected(file) <==> IsUp(file)
    ensures Selected(file) ==> forall m :: Parse(file) == Ok(m) <==> Yields(file, m)
    ensures Selected(file) ==> forall e :: Parse(file) == Err(e) <==> Fails(file, e)
  {
    HasCut(file.name);
    forall v ensures Numbered(file.name, v) <==> Cut(file.name, '_').Some? && ParseInt(Cut(file.name, '_').value) == Some(v) {
      NumberIsCut(file.name, v);
    }
  }

  lemma ParsedYields(file: File)
    ensures Selected(file) <==> IsUp(file)
    ensures Selected(file) && Parse(file).Ok? ==> Yields(file, Parse(file).value) && forall m :: Yields(file, m) ==> m == Parse(file).value
    ensures Selected(file) && Parse(file).Err? ==> Fails(file, Parse(file).error) && forall m :: !Yields(file, m)
    ensures !Selected(file) ==> forall m :: !Yields(file, m)
  {
    ParseIsExact(file);
  }

  lemma FailuresAreOfFiles(file: File, error: Error)
    ensures Fails(file, error) ==> !error.DuplicateVersion? && Selected(file) && Parse(file) == Err(error)
  {
    ParseIsExact(file);
  }

  lemma {:induction false} ParseAllYields(files: seq<File>, n: nat)
    requires n <= |files|
    ensures ParseAll(files, n).Ok? <==> AllYield(files, n)
    ensures ParseAll(files, n).Ok? ==> forall m :: m in ParseAll(files, n).value <==> From(files, n, m)
  {
    if n > 0 {
      ParseAllYields(files, n - 1);
      ParsedYields(files[n - 1]);
      OneMoreFile(files, n);
    }
  }

  lemma OneMoreFile(files: seq<File>, n: nat)
    requires 0 < n <= |files|
    ensures AllYield(files, n) <==> AllYield(files, n - 1) && (IsUp(files[n - 1]) ==> YieldsSome(files[n - 1]))
    ensures forall m :: From(files, n, m) <==> From(files, n - 1, m) || Yields(files[n - 1], m)
  {
  }

  lemma {:induction false} ParseAllFails(files: seq<File>, n: nat)
    requires n <= |files| && ParseAll(files, n).Err?
    ensures !ParseAll(files, n).error.DuplicateVersion?
    ensures exists i :: 0 <= i < n && Fails(files[i], ParseAll(files, n).error) && AllYield(files, i)
  {
    if ParseAll(files, n - 1).Err? {
      ParseAllFails(files, n - 1);
    } else {
      ParseAllYields(files, n - 1);
      ParsedYields(files[n - 1]);
      FailuresAreOfFiles(files[n - 1], ParseAll(files, n).error);
    }
  }

  lemma OneHasVersion(files: seq<File>, n: nat, version: int)
    requires n <= |files| && ParseAll(files, n).Ok?
    ensures (exists i :: 0 <= i < n && HasVersion(files[i], version)) <==>
            exists k :: 0 <= k < |ParseAll(files, n).value| && ParseAll(files, n).value[k].version == version
  {
    var ms := ParseAll(files, n).value;
    ParseAllYields(files, n);
    if i :| 0 <= i < n && HasVersion(files[i], version) {
      var m :| Yields(files[i], m) && m.version == version;
      assert From(files, n, m) && m in ms;
    }
    if k :| 0 <= k < |ms| && ms[k].version == version {
      assert ms[k] in ms && From(files, n, ms[k]);
    }
  }

  lemma TwiceAppend(before: seq<Migration>, m: Migration, version: int)
    ensures Twice(before + [m], version) <==>
              Twice(before, version) || (m.version == version && exists k :: 0 <= k < |before| && before[k].version == version)
  {
    var all := before + [m];
    if Twice(before, version) {
      var i, j :| 0 <= i < j < |before| && before[i].version == version && before[j].version == version;
      assert all[i].version == version && all[j].version == version;
    }
    if k :| m.version == version && 0 <= k < |before| && before[k].version == version {
      assert all[k].version == version && all[|before|].version == version;
    }
  }

  lemma {:induction false} TwiceIsInFiles(files: seq<File>, n: nat, version: int)
    requires n <= |files| && ParseAll(files, n).Ok?
    ensures Twice(ParseAll(files, n).value, version) <==> VersionTwice(files, n, version)
  {
    if n > 0 {
      TwiceIsInFiles(files, n - 1, version);
      OneHasVersion(files, n - 1, version);
      ParsedYields(files[n - 1]);
      if Selected(files[n - 1]) {
        TwiceAppend(ParseAll(files, n - 1).value, Parse(files[n - 1]).value, version);
        assert HasVersion(files[n - 1], version) <==> Parse(files[n - 1]).value.version == version;
      }
      assert VersionTwice(files, n, version) <==>
        VersionTwice(files, n - 1, version) || (HasVersion(files[n - 1], version) && exists i :: 0 <= i < n - 1 && HasVersion(files[i], version));
    }
  }

  // The reading is what the files mean.
  lemma ReadIsExact(files: seq<File>)
    ensures IsReading(files, Read(Some(files)))
  {
    var parsed := ParseAll(files, |files|);
    if parsed.Err? {
      ParseAllFails(files, |files|);
    } else {
      ParseAllYields(files, |files|);
      forall v ensures Twice(Sort(parsed.value), v) <==> VersionTwice(files, |files|, v) {
        TwiceIsInFiles(files, |files|, v);
        SameVersionsTwice(parsed.value, v);
      }
      SortAscends(parsed.value);
      var repeated := Repeated(Sort(parsed.value));
      RepeatedIsExact(Sort(parsed.value), if repeated.Some? then repeated.value else 0);
      IncreasingHasNoneTwice(Sort(parsed.value));
      assert forall m :: m in Sort(parsed.value) <==> m in multiset(parsed.value);
    }
  }

  lemma SameVersionsTwice(ms: seq<Migration>, version: int)
    ensures Twice(Sort(ms), version) <==> Twice(ms, version)
  {
    if Twice(ms, version) {
      TwiceInAnyOrder(ms, Sort(ms), version);
    }
    if Twice(Sort(ms), version) {
      TwiceInAnyOrder(Sort(ms), ms, version);
    }
  }

  lemma IncreasingHasNoneTwice(ms: seq<Migration>)
    ensures Increasing(ms) ==> forall v :: !Twice(ms, v)
  {
  }
}
