/**
  The code of the cache wrapper: `readThrough`, `invalidate`, `WithTx` and the direct
  writes, each written in program order, with every other goroutine free to act between
  any two steps. Each step is a step of the machine in CacheCoherence.
 */
module CachedDatabase {
  import opened Wrappers
  import opened CacheKeys
  import opened CacheCoherence
  import opened CacheRegularity

  // What a reader gets back. An error hides the value; it never replaces it by another.
  datatype Answer = Value(account: Account) | NotFound | Error

  // What happens around one read that its own code does not decide.
  datatype Weather = Weather(
    answered: bool,   // the store's Get returns without error
    erased: bool,     // deleting undecodable bytes succeeds
    cancelled: bool,  // the caller's context has ended
    loadFails: bool,  // the database query fails
    stored: bool)     // the store's Set succeeds

  datatype Write =
    | EnsureAccount(sub: Sub, account: Account)
    | UpdateEmail(sub: Sub, email: string)
    | DeleteAccount(sub: Sub)

  datatype Actor = Reading(r: ReaderId) | Writing(w: WriterId) | Environment

  function ActorOf(act: Action): Actor {
    match act
    case Commit(w, _, _) => Writing(w)
    case Bump(w, _, _) => Writing(w)
    case Unlink(w, _) => Writing(w)
    case Begin(r, _) => Reading(r)
    case Probe(r, _, _, _) => Reading(r)
    case Load(r) => Reading(r)
    case LoadFails(r) => Reading(r)
    case Recheck(r) => Reading(r)
    case Fill(r, _) => Reading(r)
    case Lose(_) => Environment
    case Garble(_) => Environment
  }

  // The part of the state that only actor `me` changes.
  ghost predicate SameFor(me: Actor, s: State, t: State) {
    match me
    case Reading(r) => s.Reading(r) == t.Reading(r)
    case Writing(w) => OwnTasks(s, w) == OwnTasks(t, w) && (w in s.deleting <==> w in t.deleting)
    case Environment => true
  }

  ghost predicate Progress(s: State, t: State) {
    forall a :: Later(s, t, a)
  }

  lemma ProgressTransitive(s: State, t: State, u: State)
    requires Progress(s, t) && Progress(t, u)
    ensures Progress(s, u)
  {
    forall a ensures Later(s, u, a) {
      assert Later(s, t, a) && Later(t, u, a);
    }
  }

  ghost function OwnTasks(s: State, w: WriterId): set<(Sub, nat)> {
    set p | p in s.pending && s.pending[p] == w
  }

  lemma CommitLeavesMyTasks(ring: Keyring, s: State, act: Action, w: WriterId)
    requires Inv(ring, s) && act.Commit? && Enabled(ring, s, act) && act.w != w
    ensures SameFor(Writing(w), s, Apply(ring, s, act))
  {
    var t := Extend(s, act.w, act.changes, act.dirty);
    forall p | p in NextVersions(s, act.dirty) ensures p !in s.pending {
    }
    assert OwnTasks(t, w) == OwnTasks(s, w);
  }

  lemma BumpLeavesMyTasks(ring: Keyring, s: State, act: Action, w: WriterId)
    requires Inv(ring, s) && act.Bump? && Enabled(ring, s, act) && act.w != w
    ensures SameFor(Writing(w), s, Apply(ring, s, act))
  {
    var t := Apply(ring, s, act);
    assert t.pending == s.pending - {(act.sub, act.version)};
    assert OwnTasks(t, w) == OwnTasks(s, w);
  }

  lemma OtherStepsKeepTasks(ring: Keyring, s: State, act: Action)
    requires WellFormed(s) && Enabled(ring, s, act) && !act.Commit? && !act.Bump?
    ensures Apply(ring, s, act).pending == s.pending
    ensures Apply(ring, s, act).deleting == if act.Unlink? then s.deleting - {act.w} else s.deleting
  {
  }

  lemma SameTasks(s: State, t: State, w: WriterId)
    requires s.pending == t.pending && (w in s.deleting <==> w in t.deleting)
    ensures SameFor(Writing(w), s, t)
  {
  }

  lemma OtherStepsLeaveTasks(ring: Keyring, s: State, act: Action, w: WriterId)
    requires WellFormed(s) && Enabled(ring, s, act) && !act.Commit? && !act.Bump? && ActorOf(act) != Writing(w)
    ensures SameFor(Writing(w), s, Apply(ring, s, act))
  {
    OtherStepsKeepTasks(ring, s, act);
    SameTasks(s, Apply(ring, s, act), w);
  }

  lemma OthersLeaveMyTasks(ring: Keyring, s: State, act: Action, w: WriterId)
    requires Inv(ring, s) && Enabled(ring, s, act) && ActorOf(act) != Writing(w)
    ensures SameFor(Writing(w), s, Apply(ring, s, act))
  {
    match act
    case Commit(_, _, _) => CommitLeavesMyTasks(ring, s, act, w);
    case Bump(_, _, _) => BumpLeavesMyTasks(ring, s, act, w);
    case _ => OtherStepsLeaveTasks(ring, s, act, w);
  }

  lemma OthersLeaveMineAlone(ring: Keyring, s: State, act: Action, me: Actor)
    requires Inv(ring, s) && Enabled(ring, s, act) && ActorOf(act) != me
    ensures SameFor(me, s, Apply(ring, s, act))
  {
    match me
    case Reading(r) => OthersLeaveMyReader(ring, s, act, r);
    case Writing(w) => OthersLeaveMyTasks(ring, s, act, w);
    case Environment =>
  }

  // Goroutines holding the read lock of a shard.
  function LockHolders(ring: Keyring, s: State, shard: nat): set<ReaderId> {
    set r | r in s.readers && (s.readers[r].Probing? || s.readers[r].Filling?)
            && ShardOf(ring, s.readers[r].sub) == shard
  }

  lemma HoldEnds(ring: Keyring, s: State, act: Action, r: ReaderId, shard: nat)
    requires WellFormed(s) && Enabled(ring, s, act) && r in LockHolders(ring, s, shard)
    requires (act.Fill? || act.Probe?) && act.r == r
    ensures LockHolders(ring, Apply(ring, s, act), shard) == LockHolders(ring, s, shard) - {r}
  {
  }

  // What a transaction has buffered: rows to write, and keys whose entries its commit outdates.
  datatype Buffer = Buffer(changes: map<Sub, Row>, marked: set<Sub>)

  function Execute(s: State, buffer: Buffer, write: Write): Buffer
    requires WellFormed(s)
  {
    var Buffer(changes, marked) := buffer;
    match write
    case EnsureAccount(a, account) =>
      if a in changes || !s.NeverExisted(a) then buffer else Buffer(changes[a := Some(account)], marked)
    case UpdateEmail(a, email) =>
      Buffer(changes[a := Renamed(if a in changes then changes[a] else Last(s.History(a)), email)], marked + {a})
    case DeleteAccount(a) => Buffer(changes[a := None], marked + {a})
  }

  function Last(h: seq<Row>): Row
    requires h != []
  {
    h[|h| - 1]
  }

  function Renamed(row: Row, email: string): Row {
    if row.Some? then Some(row.value.(email := email)) else None
  }

  predicate Never(h: seq<Row>) {
    forall i :: 0 <= i < |h| ==> h[i] == None
  }

  // The row that the first n writes leave for account `a`, whose committed rows so far are h, if
  // they write one. A creation writes only an account that never existed.
  function Written(h: seq<Row>, writes: seq<Write>, n: nat, a: Sub): Option<Row>
    requires h != [] && n <= |writes|
  {
    if n == 0 then None
    else
      Next(h, Written(h, writes, n - 1, a), writes[n - 1], a)
  }

  // The row after one more write.
  function Next(h: seq<Row>, before: Option<Row>, w: Write, a: Sub): Option<Row>
    requires h != []
  {
    match w
    case EnsureAccount(b, account) => if b == a && before.None? && Never(h) then Some(Some(account)) else before
    case UpdateEmail(b, email) => if b == a then Some(Renamed(if before.Some? then before.value else Last(h), email)) else before
    case DeleteAccount(b) => if b == a then Some(None) else before
  }

  predicate Marks(writes: seq<Write>, n: nat, a: Sub)
    requires n <= |writes|
  {
    exists i :: 0 <= i < n && (writes[i].UpdateEmail? || writes[i].DeleteAccount?) && writes[i].sub == a
  }

  // Only accounts that never existed change without being marked: creation never invalidates.
  lemma {:induction false} UnmarkedAreNew(h: seq<Row>, writes: seq<Write>, n: nat, a: Sub)
    requires h != [] && n <= |writes|
    ensures Marks(writes, n, a) ==> Written(h, writes, n, a).Some?
    ensures Written(h, writes, n, a).Some? && !Marks(writes, n, a) ==> Never(h)
  {
    if n > 0 {
      UnmarkedAreNew(h, writes, n - 1, a);
      assert Marks(writes, n, a) <==>
        Marks(writes, n - 1, a) || ((writes[n - 1].UpdateEmail? || writes[n - 1].DeleteAccount?) && writes[n - 1].sub == a);
    }
  }

  // ----- what a list of writes means for an account, without running it

  ghost predicate Touches(writes: seq<Write>, a: Sub) {
    exists i :: 0 <= i < |writes| && writes[i].sub == a
  }

  ghost predicate Deletes(writes: seq<Write>, a: Sub) {
    exists i :: 0 <= i < |writes| && writes[i] == DeleteAccount(a)
  }

  ghost predicate Updates(writes: seq<Write>, a: Sub) {
    exists i :: 0 <= i < |writes| && writes[i].UpdateEmail? && writes[i].sub == a
  }

  // The last address that the writes give the account.
  ghost predicate Readdresses(writes: seq<Write>, a: Sub, email: string) {
    exists i :: ReaddressesAt(writes, i, a, email)
  }

  ghost predicate ReaddressesAt(writes: seq<Write>, i: nat, a: Sub, email: string) {
    && i < |writes| && writes[i] == UpdateEmail(a, email)
    && forall k :: i < k < |writes| && writes[k].UpdateEmail? ==> writes[k].sub != a
  }

  // The first write to an account that never existed creates it.
  ghost predicate Creates(h: seq<Row>, writes: seq<Write>, a: Sub, account: Account) {
    (forall i :: 0 <= i < |h| ==> h[i] == None) && exists i :: CreatesAt(writes, i, a, account)
  }

  ghost predicate CreatesAt(writes: seq<Write>, i: nat, a: Sub, account: Account) {
    i < |writes| && writes[i] == EnsureAccount(a, account) && forall k :: 0 <= k < i ==> writes[k].sub != a
  }

  // The account that updates find: the committed one, or the one that the transaction created.
  ghost predicate Finds(h: seq<Row>, writes: seq<Write>, a: Sub, account: Account) {
    (h != [] && h[|h| - 1] == Some(account)) || Creates(h, writes, a, account)
  }

  // What the writes leave of account `a`, whose committed rows so far are h, if they write it: a deleted
  // account is gone; an updated one has the last address given and its old creation time, if there was
  // one to update; one that was only created is as it was created.
  ghost predicate Leaves(h: seq<Row>, writes: seq<Write>, a: Sub, row: Row) {
    if Deletes(writes, a) then row == None
    else if Updates(writes, a) then
      if row.Some? then Readdresses(writes, a, row.value.email) && FindsFrom(h, writes, a, row.value.createdAt)
      else forall account :: !Finds(h, writes, a, account)
    else row.Some? && Creates(h, writes, a, row.value)
  }

  ghost predicate FindsFrom(h: seq<Row>, writes: seq<Write>, a: Sub, createdAt: int) {
    exists email :: Finds(h, writes, a, Account(email, createdAt))
  }

  lemma OneMoreWrite(before: seq<Write>, w: Write, a: Sub)
    ensures Touches(before + [w], a) <==> Touches(before, a) || w.sub == a
    ensures Deletes(before + [w], a) <==> Deletes(before, a) || w == DeleteAccount(a)
    ensures Updates(before + [w], a) <==> Updates(before, a) || (w.UpdateEmail? && w.sub == a)
  {
    var all := before + [w];
    assert all[|before|] == w && forall i :: 0 <= i < |before| ==> all[i] == before[i];
  }

  lemma OneMoreAddress(before: seq<Write>, w: Write, a: Sub, email: string)
    ensures Readdresses(before + [w], a, email) <==>
              if w.UpdateEmail? && w.sub == a then w.email == email else Readdresses(before, a, email)
  {
    var all := before + [w];
    if w.UpdateEmail? && w.sub == a {
      assert w.email == email ==> ReaddressesAt(all, |before|, a, email);
      if Readdresses(all, a, email) {
        var i: nat :| ReaddressesAt(all, i, a, email);
        assert all[|before|] == w && i == |before|;
      }
    } else {
      forall i: nat | i < |before| ensures ReaddressesAt(all, i, a, email) <==> ReaddressesAt(before, i, a, email) {
        assert forall k :: 0 <= k < |before| ==> before[k] == all[k];
      }
      if Readdresses(all, a, email) {
        var i: nat :| ReaddressesAt(all, i, a, email);
        assert ReaddressesAt(before, i, a, email);
      }
    }
  }

  lemma OneMoreCreation(h: seq<Row>, before: seq<Write>, w: Write, a: Sub, account: Account)
    ensures Creates(h, before + [w], a, account) <==>
              Creates(h, before, a, account) || (Never(h) && !Touches(before, a) && w == EnsureAccount(a, account))
  {
    var all := before + [w];
    forall i: nat | i < |before| ensures CreatesAt(all, i, a, account) <==> CreatesAt(before, i, a, account) {
      assert forall k :: 0 <= k < |before| ==> before[k] == all[k];
    }
    assert CreatesAt(all, |before|, a, account) <==> !Touches(before, a) && w == EnsureAccount(a, account) by {
      assert all[|before|] == w && forall k :: 0 <= k < |before| ==> before[k] == all[k];
    }
    if exists i: nat :: CreatesAt(all, i, a, account) {
      var i: nat :| CreatesAt(all, i, a, account);
      assert i == |before| || CreatesAt(before, i, a, account);
    }
  }

  // What running the writes keeps.
  ghost predicate Follows(h: seq<Row>, writes: seq<Write>, a: Sub, row: Option<Row>) {
    && (row == None ==> !Deletes(writes, a) && !Updates(writes, a) && (Never(h) ==> !Touches(writes, a)))
    && (row.Some? ==> Touches(writes, a) && Leaves(h, writes, a, row.value))
  }

  lemma EnsureFollows(h: seq<Row>, before: seq<Write>, row: Option<Row>, w: Write, a: Sub)
    requires h != [] && Follows(h, before, a, row) && (w.EnsureAccount? || w.sub != a)
    ensures Follows(h, before + [w], a, Next(h, row, w, a))
  {
    OneMoreWrite(before, w, a);
    forall account ensures Creates(h, before + [w], a, account) <==>
              Creates(h, before, a, account) || (Never(h) && !Touches(before, a) && w == EnsureAccount(a, account)) {
      OneMoreCreation(h, before, w, a, account);
    }
    forall email ensures Readdresses(before + [w], a, email) <==> Readdresses(before, a, email) {
      OneMoreAddress(before, w, a, email);
    }
    var next := Next(h, row, w, a);
    if next.Some? && row.Some? && !Deletes(before, a) && Updates(before, a) && row.value.Some? {
      var email :| Finds(h, before, a, Account(email, row.value.value.createdAt));
      assert Finds(h, before + [w], a, Account(email, row.value.value.createdAt));
    }
    if row.Some? {
      forall account ensures Finds(h, before + [w], a, account) <==> Finds(h, before, a, account) {
      }
    }
  }

  lemma UpdateFollows(h: seq<Row>, before: seq<Write>, row: Option<Row>, w: Write, a: Sub)
    requires h != [] && Follows(h, before, a, row) && w.UpdateEmail? && w.sub == a
    ensures Follows(h, before + [w], a, Next(h, row, w, a))
  {
    OneMoreWrite(before, w, a);
    forall account ensures Creates(h, before + [w], a, account) <==> Creates(h, before, a, account) {
      OneMoreCreation(h, before, w, a, account);
    }
    var next := Next(h, row, w, a);
    if !Deletes(before, a) && next.value.Some? {
      OneMoreAddress(before, w, a, w.email);
      StillFinds(h, before, row, a, next.value.value.createdAt);
      var email :| Finds(h, before, a, Account(email, next.value.value.createdAt));
      assert Finds(h, before + [w], a, Account(email, next.value.value.createdAt));
    } else if !Deletes(before, a) {
      FindsNothing(h, before, row, a);
      forall account ensures !Finds(h, before + [w], a, account) {
        assert !Finds(h, before, a, account);
      }
    }
  }

  lemma StillFinds(h: seq<Row>, before: seq<Write>, row: Option<Row>, a: Sub, createdAt: int)
    requires h != [] && Follows(h, before, a, row) && !Deletes(before, a)
    requires var base := if row.Some? then row.value else Last(h); base.Some? && base.value.createdAt == createdAt
    ensures FindsFrom(h, before, a, createdAt)
  {
    if row.None? || !Updates(before, a) {
      var base := if row.Some? then row.value else Last(h);
      assert Finds(h, before, a, Account(base.value.email, createdAt));
    }
  }

  lemma FindsNothing(h: seq<Row>, before: seq<Write>, row: Option<Row>, a: Sub)
    requires h != [] && Follows(h, before, a, row) && !Deletes(before, a)
    requires (if row.Some? then row.value else Last(h)) == None
    ensures forall account :: !Finds(h, before, a, account)
  {
    if row.None? {
      forall account ensures !Creates(h, before, a, account) {
        assert forall i: nat :: CreatesAt(before, i, a, account) ==> Touches(before, a);
      }
    }
  }

  lemma DeleteFollows(h: seq<Row>, before: seq<Write>, row: Option<Row>, w: Write, a: Sub)
    requires h != [] && w == DeleteAccount(a)
    ensures Follows(h, before + [w], a, Next(h, row, w, a))
  {
    OneMoreWrite(before, w, a);
  }

  lemma {:induction false} WrittenFollows(h: seq<Row>, writes: seq<Write>, n: nat, a: Sub)
    requires h != [] && n <= |writes|
    ensures Follows(h, writes[..n], a, Written(h, writes, n, a))
  {
    if n > 0 {
      WrittenFollows(h, writes, n - 1, a);
      var w, row := writes[n - 1], Written(h, writes, n - 1, a);
      assert writes[..n] == writes[..n - 1] + [w];
      if w.EnsureAccount? || w.sub != a {
        EnsureFollows(h, writes[..n - 1], row, w, a);
      } else if w.UpdateEmail? {
        UpdateFollows(h, writes[..n - 1], row, w, a);
      } else {
        DeleteFollows(h, writes[..n - 1], row, w, a);
      }
    }
  }

  lemma LastAddressIsUnique(writes: seq<Write>, a: Sub, x: string, y: string)
    requires Readdresses(writes, a, x) && Readdresses(writes, a, y)
    ensures x == y
  {
    var i: nat :| ReaddressesAt(writes, i, a, x);
    var j: nat :| ReaddressesAt(writes, j, a, y);
    assert i == j;
  }

  lemma FoundIsUnique(h: seq<Row>, writes: seq<Write>, a: Sub, x: Account, y: Account)
    requires Finds(h, writes, a, x) && Finds(h, writes, a, y)
    ensures x == y
  {
    if Creates(h, writes, a, x) && Creates(h, writes, a, y) {
      var i: nat :| CreatesAt(writes, i, a, x);
      var j: nat :| CreatesAt(writes, j, a, y);
      assert i == j;
    }
  }

  lemma LeavesOneRow(h: seq<Row>, writes: seq<Write>, a: Sub, x: Row, y: Row)
    requires Leaves(h, writes, a, x) && Leaves(h, writes, a, y)
    ensures x == y
  {
    if !Deletes(writes, a) && x.Some? && y.Some? {
      if Updates(writes, a) {
        LastAddressIsUnique(writes, a, x.value.email, y.value.email);
        var e :| Finds(h, writes, a, Account(e, x.value.createdAt));
        var f :| Finds(h, writes, a, Account(f, y.value.createdAt));
        FoundIsUnique(h, writes, a, Account(e, x.value.createdAt), Account(f, y.value.createdAt));
      } else {
        FoundIsUnique(h, writes, a, x.value, y.value);
      }
    }
  }

  lemma NothingCreated(h: seq<Row>, writes: seq<Write>, a: Sub)
    requires Never(h) ==> !Touches(writes, a)
    ensures forall account :: !Creates(h, writes, a, account)
  {
    forall account ensures !Creates(h, writes, a, account) {
      assert forall i: nat :: CreatesAt(writes, i, a, account) ==> Touches(writes, a);
    }
  }

  // Running the writes one by one writes exactly what they mean.
  lemma WrittenIsExact(h: seq<Row>, writes: seq<Write>, a: Sub, row: Row)
    requires h != []
    ensures Written(h, writes, |writes|, a) == Some(row) <==> Leaves(h, writes, a, row)
  {
    var written := Written(h, writes, |writes|, a);
    WrittenFollows(h, writes, |writes|, a);
    assert writes[..|writes|] == writes;
    if Leaves(h, writes, a, row) {
      if written.Some? {
        LeavesOneRow(h, writes, a, written.value, row);
      } else {
        NothingCreated(h, writes, a);
      }
    }
  }

  // Later commits of others do not make a transaction write an account that it left alone.
  lemma {:induction false} UnwrittenStays(h: seq<Row>, later: seq<Row>, writes: seq<Write>, n: nat, a: Sub)
    requires h != [] && h <= later && n <= |writes| && Written(h, writes, n, a).None?
    ensures Written(later, writes, n, a).None?
  {
    if n > 0 {
      UnwrittenStays(h, later, writes, n - 1, a);
      if Never(later) {
        assert Never(h);
      }
    }
  }

  // The buffer says, against the rows committed now, what the first n writes do.
  ghost predicate Buffers(s: State, buffer: Buffer, writes: seq<Write>, n: nat)
    requires WellFormed(s) && n <= |writes|
  {
    forall a: Sub ::
      && (a in buffer.changes <==> Written(s.History(a), writes, n, a).Some?)
      && (a in buffer.changes ==> Written(s.History(a), writes, n, a) == Some(buffer.changes[a]))
      && (a in buffer.marked <==> Marks(writes, n, a))
  }

  lemma ExecuteBuffers(s: State, buffer: Buffer, writes: seq<Write>, n: nat)
    requires WellFormed(s) && n < |writes| && Buffers(s, buffer, writes, n)
    ensures Buffers(s, Execute(s, buffer, writes[n]), writes, n + 1)
  {
    forall a: Sub ensures Marks(writes, n + 1, a) <==>
        Marks(writes, n, a) || ((writes[n].UpdateEmail? || writes[n].DeleteAccount?) && writes[n].sub == a) {
    }
    forall a: Sub ensures s.NeverExisted(a) <==> Never(s.History(a)) {
    }
  }

  lemma BuffersStay(s: State, t: State, buffer: Buffer, writes: seq<Write>, n: nat)
    requires WellFormed(s) && WellFormed(t) && n <= |writes| && Buffers(s, buffer, writes, n)
    requires Progress(s, t) && forall a :: a in buffer.changes ==> t.History(a) == s.History(a)
    ensures Buffers(t, buffer, writes, n)
  {
    forall a: Sub | a !in buffer.changes ensures Written(t.History(a), writes, n, a).None? {
      assert Later(s, t, a);
      UnwrittenStays(s.History(a), t.History(a), writes, n, a);
    }
  }

  lemma BufferIsAllowed(s: State, w: WriterId, buffer: Buffer, writes: seq<Write>, n: nat)
    requires WellFormed(s) && n <= |writes| && Buffers(s, buffer, writes, n) && s.WriterIdle(w)
    ensures CommitAllowed(s, w, buffer.changes, buffer.marked)
  {
    forall a: Sub ensures a in buffer.marked ==> a in buffer.changes
                  ensures a in buffer.changes && a !in buffer.marked ==> s.NeverExisted(a) {
      UnmarkedAreNew(s.History(a), writes, n, a);
    }
  }

  // Invalidation work: each of these accounts at the version that outdates it.
  function Tasks(subs: set<Sub>, versions: map<Sub, nat>): set<(Sub, nat)>
    requires subs <= versions.Keys
  {
    set a | a in subs :: (a, versions[a])
  }

  lemma TasksWithout(subs: set<Sub>, versions: map<Sub, nat>, a: Sub)
    requires subs <= versions.Keys && a in subs
    ensures Tasks(subs - {a}, versions) == Tasks(subs, versions) - {(a, versions[a])}
  {
    forall p ensures p in Tasks(subs - {a}, versions) <==> p in Tasks(subs, versions) - {(a, versions[a])} {
      if p in Tasks(subs, versions) && p != (a, versions[a]) {
        assert p.0 in subs - {a};
      }
    }
  }

  lemma NextVersionsAreTasks(s: State, versions: map<Sub, nat>)
    requires forall a :: a in versions ==> versions[a] == |s.History(a)|
    ensures NextVersions(s, versions.Keys) == Tasks(versions.Keys, versions)
  {
    forall a | a in versions.Keys ensures (a, |s.History(a)|) == (a, versions[a]) {
    }
    assert forall p :: p in NextVersions(s, versions.Keys) ==> p in Tasks(versions.Keys, versions);
    assert forall p :: p in Tasks(versions.Keys, versions) ==> p in NextVersions(s, versions.Keys);
  }

  lemma CommitMakes(s: State, w: WriterId, buffer: Buffer)
    requires WellFormed(s) && s.WriterIdle(w)
    requires forall a, j :: (a, j) in s.pending ==> j < |s.History(a)|
    ensures var t := Extend(s, w, buffer.changes, buffer.marked);
            && OwnTasks(t, w) == NextVersions(s, buffer.marked)
            && forall a :: a in buffer.changes ==>
                 var v := |s.History(a)|;
                 Known(t, a, v, buffer.changes[a]) && (a in buffer.marked || t.Settled(a, v))
  {
    var t := Extend(s, w, buffer.changes, buffer.marked);
    forall a | a in buffer.changes
      ensures var v := |s.History(a)|;
              Known(t, a, v, buffer.changes[a]) && (a in buffer.marked || t.Settled(a, v))
    {
      ExtendedHistory(s, w, buffer.changes, buffer.marked, a);
    }
  }

  // What the writes leave, against the rows committed at the moment `at`, is each account's next
  // version, and the write of that version is over.
  ghost predicate AllCommitted(at: State, t: State, writes: seq<Write>) {
    forall a: Sub, row :: Leaves(at.History(a), writes, a, row) ==> Known(t, a, |at.History(a)|, row) && t.Settled(a, |at.History(a)|)
  }

  lemma BufferedIsCommitted(at: State, t: State, buffer: Buffer, writes: seq<Write>)
    requires WellFormed(at) && Buffers(at, buffer, writes, |writes|)
    requires forall a :: a in buffer.changes ==> Known(t, a, |at.History(a)|, buffer.changes[a]) && t.Settled(a, |at.History(a)|)
    ensures AllCommitted(at, t, writes)
  {
    forall a: Sub, row | Leaves(at.History(a), writes, a, row)
      ensures Known(t, a, |at.History(a)|, row) && t.Settled(a, |at.History(a)|)
    {
      WrittenIsExact(at.History(a), writes, a, row);
    }
  }

  predicate SparesRows(act: Action, held: set<Sub>) {
    act.Commit? ==> act.changes.Keys !! held
  }

  lemma OthersSpareRows(ring: Keyring, s: State, act: Action, held: set<Sub>)
    requires WellFormed(s) && Enabled(ring, s, act) && SparesRows(act, held)
    ensures forall a :: a in held ==> Apply(ring, s, act).History(a) == s.History(a)
  {
    if act.Commit? {
      forall a | a in held ensures Apply(ring, s, act).History(a) == s.History(a) {
        ExtendedHistory(s, act.w, act.changes, act.dirty, a);
      }
    }
  }

  class Wrapper {
    const ring: Keyring
    var s: State

    ghost predicate Valid()
      reads this
    {
      Inv(ring, s)
    }

    // One step of a goroutine.
    method Do(act: Action)
      requires Valid() && Enabled(ring, s, act)
      modifies this
      ensures Valid() && s == Apply(ring, old(s), act)
      ensures Progress(old(s), s)
    {
      StepKeepsInv(ring, s, act);
      forall a ensures Later(s, Apply(ring, s, act), a) {
        StepIsLater(ring, s, act, a);
      }
      s := Apply(ring, s, act);
    }

    // Everybody else may do anything, except commit rows of the accounts that this goroutine's
    // transaction has written; whatever is not enabled does not happen.
    method Interfere(me: Actor, held: set<Sub>)
      requires Valid()
      modifies this
      ensures Valid() && SameFor(me, old(s), s)
      ensures Progress(old(s), s)
      ensures forall a :: a in held ==> s.History(a) == old(s).History(a)
    {
      var script: seq<Action> := *;
      for i := 0 to |script|
        invariant Valid() && SameFor(me, old(s), s)
        invariant Progress(old(s), s)
        invariant forall a :: a in held ==> s.History(a) == old(s).History(a)
      {
        if ActorOf(script[i]) != me && Enabled(ring, s, script[i]) && SparesRows(script[i], held) {
          OthersLeaveMineAlone(ring, s, script[i], me);
          OthersSpareRows(ring, s, script[i], held);
          ghost var before := s;
          Do(script[i]);
          ProgressTransitive(old(s), before, s);
        }
      }
    }

    // The version returned is at least every version settled when the read began, and
    // its row is the answer.
    method ReadThrough(r: ReaderId, a: Sub, weather: Weather)
      returns (answer: Answer, version: nat)
      requires Valid()
      requires var p := s.Reading(r); p.Idle? || p.Returned? || p.Failed?
      modifies this
      ensures Valid() && Progress(old(s), s)
      ensures !answer.Error? ==> NoOlderThan(old(s), a, version)
      ensures answer.Value? ==> Known(s, a, version, Some(answer.account))
      ensures answer.NotFound? ==> Known(s, a, version, None)
      ensures weather.cancelled ==> answer.Error?
      ensures answer.Error? ==> weather.cancelled || weather.loadFails
    {
      Do(Begin(r, a));
      var generation := s.generations[ShardOf(ring, a)];
      assert Covers(old(s), a, s.Reading(r));
      Proceed(old(s), r, a, Probe(r, weather.answered, weather.erased, weather.cancelled));
      if weather.cancelled {
        return Error, 0;
      }
      if s.Reading(r).Returned? {
        answer, version := Finish(old(s), r, a);
        return;
      }
      answer, version := LoadAndFill(old(s), r, a, generation, weather);
    }

    // The cache did not answer: ask the database, and fill the cache if nothing moved.
    method LoadAndFill(ghost start: State, r: ReaderId, a: Sub, generation: nat, weather: Weather)
      returns (answer: Answer, version: nat)
      requires Valid() && Progress(start, s) && s.Reading(r).Missed? && Covers(start, a, s.Reading(r))
      requires s.Reading(r).generation == generation
      modifies this
      ensures Valid() && Progress(start, s)
      ensures answer.Error? <==> weather.loadFails
      ensures !answer.Error? ==> NoOlderThan(start, a, version)
      ensures answer.Value? ==> Known(s, a, version, Some(answer.account))
      ensures answer.NotFound? ==> Known(s, a, version, None)
    {
      Proceed(start, r, a, if weather.loadFails then LoadFails(r) else Load(r));
      if weather.loadFails {
        return Error, 0;
      }
      if s.Reading(r).Returned? {
        answer, version := Finish(start, r, a);
        return;
      }
      Proceed(start, r, a, Recheck(r));
      if generation == s.generations[ShardOf(ring, a)] {
        Proceed(start, r, a, Fill(r, weather.stored));
      }
      answer, version := Finish(start, r, a);
    }

    // Others act, then reader r takes its next step.
    method Proceed(ghost start: State, r: ReaderId, a: Sub, act: Action)
      requires Valid() && Progress(start, s) && Covers(start, a, s.Reading(r))
      requires match act
               case Probe(q, _, _, _) => q == r && s.Reading(r).Probing?
               case Load(q) => q == r && s.Reading(r).Missed?
               case LoadFails(q) => q == r && s.Reading(r).Missed?
               case Recheck(q) => q == r && s.Reading(r).Loaded?
               case Fill(q, _) => q == r && s.Reading(r).Filling?
               case _ => false
      modifies this
      ensures Valid() && Progress(start, s) && Covers(start, a, s.Reading(r))
      ensures exists u :: Inv(ring, u) && SameFor(Reading(r), old(s), u) && s == Apply(ring, u, act)
    {
      Interfere(Reading(r), {});
      ProgressTransitive(start, old(s), s);
      ghost var u := s;
      assert Later(start, s, a);
      StepKeepsCover(ring, start, s, act, r, a);
      Do(act);
      ProgressTransitive(start, u, s);
    }

    method Finish(ghost start: State, r: ReaderId, a: Sub) returns (answer: Answer, version: nat)
      requires Valid() && s.Reading(r).Returned? && Covers(start, a, s.Reading(r))
      ensures NoOlderThan(start, a, version)
      ensures answer.Value? ==> Known(s, a, version, Some(answer.account))
      ensures answer.NotFound? ==> Known(s, a, version, None)
      ensures !answer.Error?
    {
      assert ReaderOk(ring, s, s.readers[r]);
      var Returned(_, v, row) := s.Reading(r);
      return (match row case Some(account) => Value(account) case None => NotFound), v;
    }

    // The write lock is granted once the readers that hold the shard have left it.
    method Lock(w: WriterId, shard: nat)
      requires Valid()
      modifies this
      ensures Valid() && Progress(old(s), s) && SameFor(Writing(w), old(s), s)
      ensures !ReadLocked(ring, s, shard)
    {
      while LockHolders(ring, s, shard) != {}
        invariant Valid() && Progress(old(s), s) && SameFor(Writing(w), old(s), s)
        decreases LockHolders(ring, s, shard)
      {
        ghost var before := s;
        var r :| r in LockHolders(ring, s, shard);
        Release(w, shard, r);
        ProgressTransitive(old(s), before, s);
      }
      assert forall r :: r in s.readers ==>
        (s.readers[r].Probing? || s.readers[r].Filling?) ==>
        ShardOf(ring, s.readers[r].sub) == shard ==> r in LockHolders(ring, s, shard);
    }

    // A reader that holds the shard takes the step that ends its hold.
    method Release(w: WriterId, shard: nat, r: ReaderId)
      requires Valid() && r in LockHolders(ring, s, shard)
      modifies this
      ensures Valid() && Progress(old(s), s) && SameFor(Writing(w), old(s), s)
      ensures LockHolders(ring, s, shard) == LockHolders(ring, old(s), shard) - {r}
    {
      var answered: bool, erased: bool, cancelled: bool, stored: bool := *, *, *, *;
      var act := if s.readers[r].Probing? then Probe(r, answered, erased, cancelled) else Fill(r, stored);
      OthersLeaveMineAlone(ring, s, act, Writing(w));
      HoldEnds(ring, s, act, r, shard);
      Do(act);
    }

    // Outdate one key: bump the generation of its shard, then try to delete the old entry.
    method Invalidate(w: WriterId, a: Sub, version: nat)
      requires Valid() && w !in s.deleting
      requires (a, version) in s.pending && s.pending[(a, version)] == w
      modifies this
      ensures Valid() && Progress(old(s), s) && w !in s.deleting
      ensures OwnTasks(s, w) == OwnTasks(old(s), w) - {(a, version)}
      ensures s.Settled(a, version)
    {
      assert (a, version) in OwnTasks(s, w);
      Interfere(Writing(w), {});
      ghost var s1 := s;
      Lock(w, ShardOf(ring, a));
      ghost var s2 := s;
      ProgressTransitive(old(s), s1, s2);
      assert (a, version) in OwnTasks(s, w);
      Do(Bump(w, a, version));
      ghost var s3 := s;
      ProgressTransitive(old(s), s2, s3);
      assert OwnTasks(s3, w) == OwnTasks(s2, w) - {(a, version)};
      Interfere(Writing(w), {});
      ghost var s4 := s;
      ProgressTransitive(old(s), s3, s4);
      var deleted: bool := *;
      Do(Unlink(w, deleted));
      ProgressTransitive(old(s), s4, s);
      assert Later(s3, s4, a) && Later(s4, s, a);
    }

    // The keys come in no particular order.
    method InvalidateAll(w: WriterId, versions: map<Sub, nat>)
      requires Valid() && w !in s.deleting
      requires OwnTasks(s, w) == Tasks(versions.Keys, versions)
      modifies this
      ensures Valid() && Progress(old(s), s) && s.WriterIdle(w)
      ensures forall a :: a in versions ==> s.Settled(a, versions[a])
    {
      var todo: set<Sub> := versions.Keys;
      while todo != {}
        invariant Valid() && Progress(old(s), s) && w !in s.deleting
        invariant todo <= versions.Keys && OwnTasks(s, w) == Tasks(todo, versions)
        invariant forall a :: a in versions && a !in todo ==> s.Settled(a, versions[a])
        decreases todo
      {
        var a :| a in todo;
        ghost var before := s;
        assert (a, versions[a]) in OwnTasks(s, w);
        Invalidate(w, a, versions[a]);
        ProgressTransitive(old(s), before, s);
        forall b | b in versions && b !in todo ensures s.Settled(b, versions[b]) {
          assert Later(before, s, b);
        }
        TasksWithout(todo, versions, a);
        todo := todo - {a};
      }
      assert forall p :: p in s.pending && s.pending[p] == w ==> p in OwnTasks(s, w);
    }

    method CommitBuffer(w: WriterId, buffer: Buffer) returns (versions: map<Sub, nat>)
      requires Valid() && CommitAllowed(s, w, buffer.changes, buffer.marked)
      modifies this
      ensures Valid() && Progress(old(s), s) && w !in s.deleting
      ensures versions.Keys == buffer.marked && forall a :: a in versions ==> versions[a] == |old(s).History(a)|
      ensures OwnTasks(s, w) == Tasks(versions.Keys, versions)
      ensures forall a :: a in buffer.changes ==>
                var v := |old(s).History(a)|;
                Known(s, a, v, buffer.changes[a]) && (a in buffer.marked || s.Settled(a, v))
    {
      versions := map a | a in buffer.marked :: |s.History(a)|;
      CommitMakes(s, w, buffer);
      Do(Commit(w, buffer.changes, buffer.marked));
      NextVersionsAreTasks(old(s), versions);
    }

    // Run the statements one by one, with others in between. The rows written so far stay locked.
    method ExecuteAll(w: WriterId, writes: seq<Write>) returns (buffer: Buffer)
      requires Valid() && s.WriterIdle(w)
      modifies this
      ensures Valid() && Progress(old(s), s) && s.WriterIdle(w)
      ensures Buffers(s, buffer, writes, |writes|)
    {
      buffer := Buffer(map[], {});
      for i := 0 to |writes|
        invariant Valid() && Progress(old(s), s) && s.WriterIdle(w)
        invariant Buffers(s, buffer, writes, i)
      {
        ghost var before := s;
        buffer := ExecuteNext(w, buffer, writes, i);
        ProgressTransitive(old(s), before, s);
      }
    }

    method ExecuteNext(w: WriterId, buffer: Buffer, writes: seq<Write>, n: nat) returns (next: Buffer)
      requires Valid() && s.WriterIdle(w) && n < |writes| && Buffers(s, buffer, writes, n)
      modifies this
      ensures Valid() && Progress(old(s), s) && s.WriterIdle(w)
      ensures Buffers(s, next, writes, n + 1)
    {
      ExecuteBuffers(s, buffer, writes, n);
      next := Execute(s, buffer, writes[n]);
      StandBy(w, next, writes, n + 1);
    }

    // Others act while this transaction holds its rows.
    method StandBy(w: WriterId, buffer: Buffer, writes: seq<Write>, n: nat)
      requires Valid() && s.WriterIdle(w) && n <= |writes| && Buffers(s, buffer, writes, n)
      modifies this
      ensures Valid() && Progress(old(s), s) && s.WriterIdle(w)
      ensures Buffers(s, buffer, writes, n)
    {
      IdleHasNoTasks(s, w);
      Interfere(Writing(w), buffer.changes.Keys);
      BuffersStay(old(s), s, buffer, writes, n);
      IdleHasNoTasks(s, w);
    }

    // A failed transaction has changed nothing. A successful one has committed, at some moment, all
    // that its writes leave, and has outdated every entry they could leave behind by the time it returns.
    method WithTx(w: WriterId, writes: seq<Write>, fails: bool) returns (ok: bool, ghost at: State)
      requires Valid() && s.WriterIdle(w)
      modifies this
      ensures ok == !fails
      ensures Valid() && s.WriterIdle(w)
      ensures Inv(ring, at) && Progress(old(s), at) && Progress(at, s)
      ensures !ok ==> s == at
      ensures ok ==> AllCommitted(at, s, writes)
    {
      var buffer := ExecuteAll(w, writes);
      at := s;
      if fails {
        return false, at;
      }
      BufferIsAllowed(s, w, buffer, writes, |writes|);
      CommitAndInvalidate(w, buffer);
      BufferedIsCommitted(at, s, buffer, writes);
      return true, at;
    }

    // A write outside any transaction commits by itself and then invalidates.
    method WriteDirectly(w: WriterId, write: Write, fails: bool) returns (ok: bool, ghost at: State)
      requires Valid() && s.WriterIdle(w)
      modifies this
      ensures ok == !fails
      ensures Valid() && s.WriterIdle(w)
      ensures Inv(ring, at) && Progress(old(s), at) && Progress(at, s)
      ensures !ok ==> s == at
      ensures ok ==> AllCommitted(at, s, [write])
    {
      var none := Buffer(map[], {});
      StandBy(w, none, [write], 0);
      at := s;
      if fails {
        return false, at;
      }
      var buffer := Execute(s, none, write);
      ExecuteBuffers(s, none, [write], 0);
      BufferIsAllowed(s, w, buffer, [write], 1);
      CommitAndInvalidate(w, buffer);
      BufferedIsCommitted(at, s, buffer, [write]);
      return true, at;
    }

    method CommitAndInvalidate(w: WriterId, buffer: Buffer)
      requires Valid() && CommitAllowed(s, w, buffer.changes, buffer.marked)
      modifies this
      ensures Valid() && Progress(old(s), s) && s.WriterIdle(w)
      ensures forall a :: a in buffer.changes ==>
                Known(s, a, |old(s).History(a)|, buffer.changes[a]) && s.Settled(a, |old(s).History(a)|)
    {
      var versions := CommitBuffer(w, buffer);
      ghost var committed := s;
      InvalidateAll(w, versions);
      ProgressTransitive(old(s), committed, s);
      forall a | a in buffer.changes
        ensures Known(s, a, |old(s).History(a)|, buffer.changes[a]) && s.Settled(a, |old(s).History(a)|)
      {
        assert Later(committed, s, a);
      }
    }
  }

  lemma IdleHasNoTasks(s: State, w: WriterId)
    ensures s.WriterIdle(w) <==> OwnTasks(s, w) == {} && w !in s.deleting
  {
    if s.WriterIdle(w) {
      assert forall p :: p in s.pending ==> s.pending[p] in s.pending.Values;
    } else if w !in s.deleting {
      var p :| p in s.pending && s.pending[p] == w;
      assert p in OwnTasks(s, w);
    }
  }
}
