/**
  The read-through cache as a state machine: readers, committing writers and an
  unreliable store interleave in steps no larger than what one lock or one store
  call makes atomic.

  Every account carries its whole history of committed rows. A version number is an
  index into that history; cached values and readers carry the version they came
  from, which no decision of the protocol looks at.
 */
module CacheCoherence {
  import opened Wrappers
  import opened Decimal
  import opened CacheKeys

  type Sub = a: int | INT64_MIN <= a <= INT64_MAX
  type ReaderId = nat
  type WriterId = nat

  datatype Account = Account(email: string, createdAt: int)
  type Row = Option<Account>

  // What the store holds under a key: an encoded account, or bytes that do not decode.
  datatype Entry = Encoded(version: nat, account: Account) | Corrupt

  datatype Reader =
    | Idle
    | Probing(sub: Sub, generation: nat)                                  // holds the shard's read lock
    | Missed(sub: Sub, generation: nat)
    | Loaded(sub: Sub, generation: nat, version: nat, account: Account)
    | Filling(sub: Sub, generation: nat, version: nat, account: Account)  // holds the read lock again
    | Returned(sub: Sub, version: nat, row: Row)                          // None: the account was not found
    | Failed(sub: Sub)

  datatype State = State(
    history: map<Sub, seq<Row>>,
    generations: seq<nat>,
    store: map<string, Entry>,
    readers: map<ReaderId, Reader>,
    pending: map<(Sub, nat), WriterId>,  // committed versions whose generation bump is still to come
    deleting: map<WriterId, string>)     // old keys whose best-effort deletion is still to come
  {
    // An account that was never written has one version: no row.
    function History(a: Sub): seq<Row> {
      if a in history then history[a] else [None]
    }

    function Reading(r: ReaderId): Reader {
      if r in readers then readers[r] else Idle
    }

    predicate WriterIdle(w: WriterId) {
      w !in pending.Values && w !in deleting
    }

    predicate NeverExisted(a: Sub) {
      forall i :: 0 <= i < |History(a)| ==> History(a)[i] == None
    }

    // The write that made version j, and its invalidation, are both over.
    predicate Settled(a: Sub, j: nat) {
      j < |History(a)| && (a, j) !in pending
    }
  }

  datatype Action =
    | Commit(w: WriterId, changes: map<Sub, Row>, dirty: set<Sub>)
    | Bump(w: WriterId, sub: Sub, version: nat)
    | Unlink(w: WriterId, deleted: bool)
    | Begin(r: ReaderId, sub: Sub)
    | Probe(r: ReaderId, answered: bool, erased: bool, cancelled: bool)
    | Load(r: ReaderId)
    | LoadFails(r: ReaderId)
    | Recheck(r: ReaderId)
    | Fill(r: ReaderId, stored: bool)
    | Lose(key: string)
    | Garble(key: string)

  ghost predicate IsInitial(s: State) {
    && s == State(map[], s.generations, map[], map[], map[], map[])
    && |s.generations| == SHARDS
    && forall i :: 0 <= i < SHARDS ==> s.generations[i] == 0
  }

  function ShardOf(ring: Keyring, a: Sub): (i: nat)
    ensures i < SHARDS
  {
    ring.Shard(AccountKey(a))
  }

  predicate ReadLocked(ring: Keyring, s: State, shard: nat) {
    exists r :: r in s.readers && (s.readers[r].Probing? || s.readers[r].Filling?)
                && ShardOf(ring, s.readers[r].sub) == shard
  }

  predicate WellFormed(s: State) {
    |s.generations| == SHARDS && forall a :: a in s.history ==> s.history[a] != []
  }

  // Updates and deletions are dirty; only the creation of a subject that never existed is not.
  predicate CommitAllowed(s: State, w: WriterId, changes: map<Sub, Row>, dirty: set<Sub>) {
    && s.WriterIdle(w)
    && dirty <= changes.Keys
    && forall a :: a in changes && a !in dirty ==> s.NeverExisted(a)
  }

  predicate Enabled(ring: Keyring, s: State, act: Action) {
    match act
    case Commit(w, changes, dirty) => CommitAllowed(s, w, changes, dirty)
    case Bump(w, a, v) =>
      (a, v) in s.pending && s.pending[(a, v)] == w && w !in s.deleting && !ReadLocked(ring, s, ShardOf(ring, a))
    case Unlink(w, _) => w in s.deleting
    case Begin(r, _) => var p := s.Reading(r); p.Idle? || p.Returned? || p.Failed?
    case Probe(r, _, _, _) => s.Reading(r).Probing?
    case Load(r) => s.Reading(r).Missed?
    case LoadFails(r) => s.Reading(r).Missed?
    case Recheck(r) => s.Reading(r).Loaded?
    case Fill(r, _) => s.Reading(r).Filling?
    case Lose(_) => true
    case Garble(key) => key in s.store
  }

  function NextVersions(s: State, subs: set<Sub>): set<(Sub, nat)> {
    set a | a in subs :: (a, |s.History(a)|)
  }

  // One committed transaction: all its rows appear at once.
  function Extend(s: State, w: WriterId, changes: map<Sub, Row>, dirty: set<Sub>): State {
    s.(history := s.history + map a | a in changes :: s.History(a) + [changes[a]],
       pending := s.pending + map p | p in NextVersions(s, dirty) :: w)
  }

  function Move(s: State, r: ReaderId, p: Reader): State {
    s.(readers := s.readers[r := p])
  }

  function ProbeStore(ring: Keyring, s: State, r: ReaderId, answered: bool, erased: bool, cancelled: bool): State
    requires s.Reading(r).Probing?
  {
    var Probing(a, g) := s.Reading(r);
    var key := ring.Tagged(AccountKey(a), g);
    var hit := answered && key in s.store && s.store[key].Encoded?;
    var undecodable := answered && key in s.store && s.store[key].Corrupt?;
    var s1 := if undecodable && erased then s.(store := s.store - {key}) else s;
    if cancelled then Move(s1, r, Failed(a))
    else if hit then Move(s1, r, Returned(a, s.store[key].version, Some(s.store[key].account)))
    else Move(s1, r, Missed(a, g))
  }

  function LoadRow(s: State, r: ReaderId): State
    requires s.Reading(r).Missed? && s.History(s.Reading(r).sub) != []
  {
    var Missed(a, g) := s.Reading(r);
    var v := |s.History(a)| - 1;
    match s.History(a)[v]
    case None => Move(s, r, Returned(a, v, None))
    case Some(account) => Move(s, r, Loaded(a, g, v, account))
  }

  function Apply(ring: Keyring, s: State, act: Action): State
    requires WellFormed(s) && Enabled(ring, s, act)
  {
    match act
    case Commit(w, changes, dirty) => Extend(s, w, changes, dirty)
    case Bump(w, a, v) =>
      var i := ShardOf(ring, a);
      var g := s.generations[i];
      s.(generations := s.generations[i := g + 1],
         pending := s.pending - {(a, v)},
         deleting := s.deleting[w := ring.Tagged(AccountKey(a), g)])
    case Unlink(w, deleted) =>
      s.(store := if deleted then s.store - {s.deleting[w]} else s.store, deleting := s.deleting - {w})
    case Begin(r, a) => Move(s, r, Probing(a, s.generations[ShardOf(ring, a)]))
    case Probe(r, answered, erased, cancelled) => ProbeStore(ring, s, r, answered, erased, cancelled)
    case Load(r) => LoadRow(s, r)
    case LoadFails(r) => Move(s, r, Failed(s.Reading(r).sub))
    case Recheck(r) =>
      var Loaded(a, g, v, account) := s.Reading(r);
      Move(s, r, if g == s.generations[ShardOf(ring, a)] then Filling(a, g, v, account) else Returned(a, v, Some(account)))
    case Fill(r, stored) =>
      var Filling(a, g, v, account) := s.Reading(r);
      var key := ring.Tagged(AccountKey(a), g);
      Move(if stored then s.(store := s.store[key := Encoded(v, account)]) else s, r, Returned(a, v, Some(account)))
    case Lose(key) => s.(store := s.store - {key})
    case Garble(key) => s.(store := s.store[key := Corrupt])
  }

  // ----- the inductive invariant

  // Version v of account a, and every later version is still waiting for its bump.
  ghost predicate Current(s: State, a: Sub, v: nat, account: Account) {
    && v < |s.History(a)| && s.History(a)[v] == Some(account)
    && forall j :: v < j < |s.History(a)| ==> (a, j) in s.pending
  }

  ghost predicate Known(s: State, a: Sub, v: nat, row: Row) {
    v < |s.History(a)| && s.History(a)[v] == row
  }

  ghost predicate ReaderOk(ring: Keyring, s: State, p: Reader)
    requires WellFormed(s)
  {
    match p
    case Idle => true
    case Failed(_) => true
    case Probing(a, g) => g == s.generations[ShardOf(ring, a)]
    case Missed(a, g) => g <= s.generations[ShardOf(ring, a)]
    case Loaded(a, g, v, account) =>
      var now := s.generations[ShardOf(ring, a)];
      Known(s, a, v, Some(account)) && g <= now && (g == now ==> Current(s, a, v, account))
    case Filling(a, g, v, account) =>
      g == s.generations[ShardOf(ring, a)] && Current(s, a, v, account)
    case Returned(a, v, row) => Known(s, a, v, row)
  }

  ghost predicate EntryOk(ring: Keyring, s: State, a: Sub, g: nat)
    requires WellFormed(s)
  {
    var key := ring.Tagged(AccountKey(a), g);
    key in s.store && s.store[key].Encoded? ==>
      var now := s.generations[ShardOf(ring, a)];
      g <= now && (g == now ==> Current(s, a, s.store[key].version, s.store[key].account))
  }

  ghost predicate Inv(ring: Keyring, s: State) {
    && WellFormed(s)
    && (forall a: Sub, j :: (a, j) in s.pending ==> j < |s.History(a)|)
    && (forall r :: r in s.readers ==> ReaderOk(ring, s, s.readers[r]))
    && (forall a: Sub, g :: EntryOk(ring, s, a, g))
  }

  lemma InitialInv(ring: Keyring, s: State)
    requires IsInitial(s)
    ensures Inv(ring, s)
  {
  }

  // What only reads and writes one reader's own state cannot break anything else.
  lemma MoveKeepsInv(ring: Keyring, s: State, r: ReaderId, p: Reader)
    requires Inv(ring, s) && ReaderOk(ring, s, p)
    ensures Inv(ring, Move(s, r, p))
  {
    var t := Move(s, r, p);
    forall a: Sub, g ensures EntryOk(ring, t, a, g) {
      assert EntryOk(ring, s, a, g);
    }
    forall q | q in t.readers ensures ReaderOk(ring, t, t.readers[q]) {
      assert q in s.readers ==> ReaderOk(ring, s, s.readers[q]);
    }
  }

  lemma ExtendedHistory(s: State, w: WriterId, changes: map<Sub, Row>, dirty: set<Sub>, a: Sub)
    ensures Extend(s, w, changes, dirty).History(a) == s.History(a) + (if a in changes then [changes[a]] else [])
  {
  }

  // A commit after a cached row is an update or a deletion, so its bump is now pending.
  lemma CommitKeepsCurrent(s: State, w: WriterId, changes: map<Sub, Row>, dirty: set<Sub>, a: Sub, v: nat, account: Account)
    requires forall b :: b in changes && b !in dirty ==> s.NeverExisted(b)
    requires Current(s, a, v, account)
    ensures Current(Extend(s, w, changes, dirty), a, v, account)
  {
    var t := Extend(s, w, changes, dirty);
    ExtendedHistory(s, w, changes, dirty, a);
    assert !s.NeverExisted(a);
    forall j | v < j < |t.History(a)| ensures (a, j) in t.pending {
      if j < |s.History(a)| {
        assert (a, j) in s.pending;
      }
    }
  }

  lemma CommitKeepsEntry(ring: Keyring, s: State, w: WriterId, changes: map<Sub, Row>, dirty: set<Sub>, a: Sub, g: nat)
    requires Inv(ring, s) && Enabled(ring, s, Commit(w, changes, dirty))
    ensures EntryOk(ring, Extend(s, w, changes, dirty), a, g)
  {
    assert EntryOk(ring, s, a, g);
    var key := ring.Tagged(AccountKey(a), g);
    if key in s.store && s.store[key].Encoded? && g == s.generations[ShardOf(ring, a)] {
      CommitKeepsCurrent(s, w, changes, dirty, a, s.store[key].version, s.store[key].account);
    }
  }

  lemma PendingIsHistory(ring: Keyring, s: State, w: WriterId, changes: map<Sub, Row>, dirty: set<Sub>, a: Sub, j: nat)
    requires Inv(ring, s) && Enabled(ring, s, Commit(w, changes, dirty)) && (a, j) in Extend(s, w, changes, dirty).pending
    ensures j < |Extend(s, w, changes, dirty).History(a)|
  {
    ExtendedHistory(s, w, changes, dirty, a);
    assert (a, j) in s.pending || (a, j) in NextVersions(s, dirty);
  }

  lemma CommitKeepsInv(ring: Keyring, s: State, w: WriterId, changes: map<Sub, Row>, dirty: set<Sub>)
    requires Inv(ring, s) && Enabled(ring, s, Commit(w, changes, dirty))
    ensures Inv(ring, Extend(s, w, changes, dirty))
  {
    var t := Extend(s, w, changes, dirty);
    forall a: Sub, j | (a, j) in t.pending ensures j < |t.History(a)| {
      PendingIsHistory(ring, s, w, changes, dirty, a, j);
    }
    forall r | r in t.readers ensures ReaderOk(ring, t, t.readers[r]) {
      CommitKeepsReader(ring, s, w, changes, dirty, s.readers[r]);
    }
    forall a: Sub, g ensures EntryOk(ring, t, a, g) {
      CommitKeepsEntry(ring, s, w, changes, dirty, a, g);
    }
  }

  lemma CommitKeepsReader(ring: Keyring, s: State, w: WriterId, changes: map<Sub, Row>, dirty: set<Sub>, p: Reader)
    requires Inv(ring, s) && Enabled(ring, s, Commit(w, changes, dirty)) && ReaderOk(ring, s, p)
    ensures ReaderOk(ring, Extend(s, w, changes, dirty), p)
  {
    match p
    case Loaded(a, g, v, account) =>
      ExtendedHistory(s, w, changes, dirty, a);
      if g == s.generations[ShardOf(ring, a)] { CommitKeepsCurrent(s, w, changes, dirty, a, v, account); }
    case Filling(a, g, v, account) => CommitKeepsCurrent(s, w, changes, dirty, a, v, account);
    case Returned(a, v, row) => ExtendedHistory(s, w, changes, dirty, a);
    case _ =>
  }

  lemma BumpKeepsInv(ring: Keyring, s: State, w: WriterId, a: Sub, v: nat)
    requires Inv(ring, s) && Enabled(ring, s, Bump(w, a, v))
    ensures Inv(ring, Apply(ring, s, Bump(w, a, v)))
  {
    var t := Apply(ring, s, Bump(w, a, v));
    var i := ShardOf(ring, a);
    forall b: Sub, u, account | Current(s, b, u, account) && ShardOf(ring, b) != i
      ensures Current(t, b, u, account)
    {
    }
    forall r | r in t.readers ensures ReaderOk(ring, t, t.readers[r]) {
      assert ReaderOk(ring, s, s.readers[r]);
    }
    forall b: Sub, g ensures EntryOk(ring, t, b, g) {
      assert EntryOk(ring, s, b, g);
    }
  }

  lemma FillKeepsInv(ring: Keyring, s: State, r: ReaderId, stored: bool)
    requires Inv(ring, s) && Enabled(ring, s, Fill(r, stored))
    ensures Inv(ring, Apply(ring, s, Fill(r, stored)))
  {
    var t := Apply(ring, s, Fill(r, stored));
    var p := s.Reading(r);
    forall b: Sub, g ensures EntryOk(ring, t, b, g) {
      assert EntryOk(ring, s, b, g);
      if ring.Tagged(AccountKey(b), g) == ring.Tagged(AccountKey(p.sub), p.generation) {
        TaggedKeysDistinct(ring, b, g, p.sub, p.generation);
      }
    }
    forall q | q in t.readers ensures ReaderOk(ring, t, t.readers[q]) {
      assert q != r ==> ReaderOk(ring, s, s.readers[q]);
    }
  }

  lemma ProbeKeepsInv(ring: Keyring, s: State, r: ReaderId, answered: bool, erased: bool, cancelled: bool)
    requires Inv(ring, s) && s.Reading(r).Probing?
    ensures Inv(ring, ProbeStore(ring, s, r, answered, erased, cancelled))
  {
    var Probing(a, g) := s.Reading(r);
    var key := ring.Tagged(AccountKey(a), g);
    LoseKeepsInv(ring, s, key);
    assert ReaderOk(ring, s, s.readers[r]);
    assert EntryOk(ring, s, a, g);
    MoveKeepsInv(ring, s, r, Failed(a));
    MoveKeepsInv(ring, s.(store := s.store - {key}), r, Failed(a));
    MoveKeepsInv(ring, s, r, Missed(a, g));
    MoveKeepsInv(ring, s.(store := s.store - {key}), r, Missed(a, g));
    if key in s.store && s.store[key].Encoded? {
      MoveKeepsInv(ring, s, r, Returned(a, s.store[key].version, Some(s.store[key].account)));
    }
  }

  lemma LoadKeepsInv(ring: Keyring, s: State, r: ReaderId)
    requires Inv(ring, s) && s.Reading(r).Missed?
    ensures Inv(ring, LoadRow(s, r))
  {
    var Missed(a, g) := s.Reading(r);
    var v := |s.History(a)| - 1;
    assert ReaderOk(ring, s, s.readers[r]);
    match s.History(a)[v]
    case None => MoveKeepsInv(ring, s, r, Returned(a, v, None));
    case Some(account) => MoveKeepsInv(ring, s, r, Loaded(a, g, v, account));
  }

  lemma RecheckKeepsInv(ring: Keyring, s: State, r: ReaderId)
    requires Inv(ring, s) && s.Reading(r).Loaded?
    ensures Inv(ring, Apply(ring, s, Recheck(r)))
  {
    var Loaded(a, g, v, account) := s.Reading(r);
    assert ReaderOk(ring, s, s.readers[r]);
    MoveKeepsInv(ring, s, r, if g == s.generations[ShardOf(ring, a)] then Filling(a, g, v, account) else Returned(a, v, Some(account)));
  }

  lemma LoseKeepsInv(ring: Keyring, s: State, key: string)
    requires Inv(ring, s)
    ensures Inv(ring, s.(store := s.store - {key}))
  {
    var t := s.(store := s.store - {key});
    forall a: Sub, g ensures EntryOk(ring, t, a, g) {
      assert EntryOk(ring, s, a, g);
    }
    forall q | q in t.readers ensures ReaderOk(ring, t, t.readers[q]) {
      assert ReaderOk(ring, s, s.readers[q]);
    }
  }

  lemma GarbleKeepsInv(ring: Keyring, s: State, key: string)
    requires Inv(ring, s)
    ensures Inv(ring, s.(store := s.store[key := Corrupt]))
  {
    var t := s.(store := s.store[key := Corrupt]);
    forall a: Sub, g ensures EntryOk(ring, t, a, g) {
      assert EntryOk(ring, s, a, g);
    }
    forall q | q in t.readers ensures ReaderOk(ring, t, t.readers[q]) {
      assert ReaderOk(ring, s, s.readers[q]);
    }
  }

  lemma UnlinkKeepsInv(ring: Keyring, s: State, w: WriterId, deleted: bool)
    requires Inv(ring, s) && w in s.deleting
    ensures Inv(ring, Apply(ring, s, Unlink(w, deleted)))
  {
    var t := Apply(ring, s, Unlink(w, deleted));
    forall a: Sub, g ensures EntryOk(ring, t, a, g) {
      assert EntryOk(ring, s, a, g);
    }
    forall q | q in t.readers ensures ReaderOk(ring, t, t.readers[q]) {
      assert ReaderOk(ring, s, s.readers[q]);
    }
  }

  lemma StepKeepsInv(ring: Keyring, s: State, act: Action)
    requires Inv(ring, s) && Enabled(ring, s, act)
    ensures Inv(ring, Apply(ring, s, act))
  {
    match act
    case Commit(w, changes, dirty) => CommitKeepsInv(ring, s, w, changes, dirty);
    case Bump(w, a, v) => BumpKeepsInv(ring, s, w, a, v);
    case Fill(r, stored) => FillKeepsInv(ring, s, r, stored);
    case Begin(r, a) => MoveKeepsInv(ring, s, r, Probing(a, s.generations[ShardOf(ring, a)]));
    case Probe(r, answered, erased, cancelled) => ProbeKeepsInv(ring, s, r, answered, erased, cancelled);
    case Load(r) => LoadKeepsInv(ring, s, r);
    case LoadFails(r) => MoveKeepsInv(ring, s, r, Failed(s.Reading(r).sub));
    case Recheck(r) => RecheckKeepsInv(ring, s, r);
    case Unlink(w, deleted) => UnlinkKeepsInv(ring, s, w, deleted);
    case Lose(key) => LoseKeepsInv(ring, s, key);
    case Garble(key) => GarbleKeepsInv(ring, s, key);
  }
}
