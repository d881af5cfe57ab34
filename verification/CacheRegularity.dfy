/**
  What a cached read guarantees over whole runs. The cache is a regular register, not
  an atomic one: a read returns a version no older than every write that was over,
  invalidation included, when the read began, and no newer than the last commit.
 */
module CacheRegularity {
  import opened Wrappers
  import opened CacheKeys
  import opened CacheCoherence

  datatype Run = Run(states: seq<State>, actions: seq<Action>)

  ghost predicate Step(ring: Keyring, s: State, act: Action, t: State) {
    WellFormed(s) && Enabled(ring, s, act) && t == Apply(ring, s, act)
  }

  ghost predicate Valid(ring: Keyring, run: Run) {
    && |run.states| == |run.actions| + 1
    && IsInitial(run.states[0])
    && forall k :: 0 <= k < |run.actions| ==> Step(ring, run.states[k], run.actions[k], run.states[k + 1])
  }

  lemma {:induction false} RunKeepsInv(ring: Keyring, run: Run, k: nat)
    requires Valid(ring, run) && k < |run.states|
    ensures Inv(ring, run.states[k])
  {
    if k == 0 {
      InitialInv(ring, run.states[0]);
    } else {
      RunKeepsInv(ring, run, k - 1);
      assert Step(ring, run.states[k - 1], run.actions[k - 1], run.states[k]);
      StepKeepsInv(ring, run.states[k - 1], run.actions[k - 1]);
    }
  }

  // Histories only grow and a settled version stays settled.
  ghost predicate Later(s: State, t: State, a: Sub) {
    && s.History(a) <= t.History(a)
    && forall j: nat :: s.Settled(a, j) ==> t.Settled(a, j)
  }

  lemma CommitIsLater(ring: Keyring, s: State, act: Action, a: Sub)
    requires Inv(ring, s) && Enabled(ring, s, act) && act.Commit?
    ensures Later(s, Apply(ring, s, act), a)
  {
    ExtendedHistory(s, act.w, act.changes, act.dirty, a);
    forall j: nat | s.Settled(a, j) ensures Apply(ring, s, act).Settled(a, j) {
      assert (a, j) !in NextVersions(s, act.dirty);
    }
  }

  lemma OtherStepIsLater(ring: Keyring, s: State, act: Action, a: Sub)
    requires WellFormed(s) && Enabled(ring, s, act) && !act.Commit?
    ensures Later(s, Apply(ring, s, act), a)
  {
  }

  lemma StepIsLater(ring: Keyring, s: State, act: Action, a: Sub)
    requires Inv(ring, s) && Enabled(ring, s, act)
    ensures Later(s, Apply(ring, s, act), a)
  {
    if act.Commit? {
      CommitIsLater(ring, s, act, a);
    } else {
      OtherStepIsLater(ring, s, act, a);
    }
  }

  // Version v is no older than any version of `a` whose write and invalidation were over in `start`.
  ghost predicate NoOlderThan(start: State, a: Sub, v: nat) {
    forall j: nat :: start.Settled(a, j) ==> j <= v
  }

  // Whatever reader p ends up returning covers every version of `a` settled in `start`.
  ghost predicate Covers(start: State, a: Sub, p: Reader) {
    match p
    case Idle => false
    case Probing(b, _) => b == a
    case Missed(b, _) => b == a
    case Loaded(b, _, v, _) => b == a && |start.History(a)| <= v + 1
    case Filling(b, _, v, _) => b == a && |start.History(a)| <= v + 1
    case Returned(b, v, _) => b == a && NoOlderThan(start, a, v)
    case Failed(b) => b == a
  }

  // The store answered: what it holds at the current generation covers everything settled.
  lemma HitCovers(ring: Keyring, start: State, s: State, a: Sub, g: nat)
    requires Inv(ring, s) && Later(start, s, a) && g == s.generations[ShardOf(ring, a)]
    requires var key := ring.Tagged(AccountKey(a), g); key in s.store && s.store[key].Encoded?
    ensures NoOlderThan(start, a, s.store[ring.Tagged(AccountKey(a), g)].version)
  {
    var entry := s.store[ring.Tagged(AccountKey(a), g)];
    assert EntryOk(ring, s, a, g);
    assert Current(s, a, entry.version, entry.account);
    forall j: nat | start.Settled(a, j) ensures j <= entry.version {
      assert s.Settled(a, j);
    }
  }

  lemma ProbeKeepsCover(ring: Keyring, start: State, s: State, r: ReaderId, a: Sub,
                        answered: bool, erased: bool, cancelled: bool)
    requires Inv(ring, s) && s.Reading(r).Probing?
    requires Later(start, s, a) && Covers(start, a, s.Reading(r))
    ensures Covers(start, a, ProbeStore(ring, s, r, answered, erased, cancelled).Reading(r))
  {
    var Probing(_, g) := s.Reading(r);
    assert ReaderOk(ring, s, s.readers[r]);
    var key := ring.Tagged(AccountKey(a), g);
    if key in s.store && s.store[key].Encoded? {
      HitCovers(ring, start, s, a, g);
    }
  }

  ghost predicate IsReaderStep(act: Action, r: ReaderId) {
    match act
    case Begin(q, _) => q == r
    case Probe(q, _, _, _) => q == r
    case Load(q) => q == r
    case LoadFails(q) => q == r
    case Recheck(q) => q == r
    case Fill(q, _) => q == r
    case _ => false
  }

  lemma OthersLeaveMyReader(ring: Keyring, s: State, act: Action, r: ReaderId)
    requires WellFormed(s) && Enabled(ring, s, act) && !IsReaderStep(act, r)
    ensures Apply(ring, s, act).Reading(r) == s.Reading(r)
  {
  }

  lemma MyStepKeepsCover(ring: Keyring, start: State, s: State, act: Action, r: ReaderId, a: Sub)
    requires Inv(ring, s) && Enabled(ring, s, act) && IsReaderStep(act, r) && !act.Begin?
    requires Later(start, s, a) && Covers(start, a, s.Reading(r))
    ensures Covers(start, a, Apply(ring, s, act).Reading(r))
  {
    match act
    case Probe(_, answered, erased, cancelled) => ProbeKeepsCover(ring, start, s, r, a, answered, erased, cancelled);
    case _ =>
  }

  lemma StepKeepsCover(ring: Keyring, start: State, s: State, act: Action, r: ReaderId, a: Sub)
    requires Inv(ring, s) && Enabled(ring, s, act)
    requires Later(start, s, a) && Covers(start, a, s.Reading(r))
    requires act.Begin? ==> act.r != r
    ensures Covers(start, a, Apply(ring, s, act).Reading(r))
  {
    if IsReaderStep(act, r) {
      MyStepKeepsCover(ring, start, s, act, r, a);
    } else {
      OthersLeaveMyReader(ring, s, act, r);
    }
  }

  lemma FirstCovers(ring: Keyring, run: Run, b: nat, r: ReaderId, a: Sub)
    requires Valid(ring, run) && b < |run.actions| && run.actions[b] == Begin(r, a)
    ensures Later(run.states[b], run.states[b + 1], a) && Covers(run.states[b], a, run.states[b + 1].Reading(r))
  {
    RunKeepsInv(ring, run, b);
    assert Step(ring, run.states[b], run.actions[b], run.states[b + 1]);
    StepIsLater(ring, run.states[b], run.actions[b], a);
  }

  lemma NextCovers(ring: Keyring, run: Run, start: State, k: nat, r: ReaderId, a: Sub)
    requires Valid(ring, run) && k < |run.actions| && (run.actions[k].Begin? ==> run.actions[k].r != r)
    requires Later(start, run.states[k], a) && Covers(start, a, run.states[k].Reading(r))
    ensures Later(start, run.states[k + 1], a) && Covers(start, a, run.states[k + 1].Reading(r))
  {
    RunKeepsInv(ring, run, k);
    assert Step(ring, run.states[k], run.actions[k], run.states[k + 1]);
    StepIsLater(ring, run.states[k], run.actions[k], a);
    StepKeepsCover(ring, start, run.states[k], run.actions[k], r, a);
  }

  lemma {:induction false} ReadCovers(ring: Keyring, run: Run, b: nat, e: nat, r: ReaderId, a: Sub)
    requires Valid(ring, run) && b < e < |run.states|
    requires run.actions[b] == Begin(r, a)
    requires forall k :: b < k < e && run.actions[k].Begin? ==> run.actions[k].r != r
    ensures Later(run.states[b], run.states[e], a) && Covers(run.states[b], a, run.states[e].Reading(r))
  {
    if e == b + 1 {
      FirstCovers(ring, run, b, r, a);
    } else {
      ReadCovers(ring, run, b, e - 1, r, a);
      NextCovers(ring, run, run.states[b], e - 1, r, a);
    }
  }

  // A read that began at step b and has returned by state e.
  ghost predicate ReadSpan(ring: Keyring, run: Run, b: nat, e: nat, r: ReaderId, a: Sub) {
    && Valid(ring, run) && b < e < |run.states|
    && run.actions[b] == Begin(r, a)
    && (forall k :: b < k < e && run.actions[k].Begin? ==> run.actions[k].r != r)
    && run.states[e].Reading(r).Returned?
  }

  lemma ReadsAreRegular(ring: Keyring, run: Run, b: nat, e: nat, r: ReaderId, a: Sub)
    requires ReadSpan(ring, run, b, e, r, a)
    ensures var Returned(sub, v, row) := run.states[e].Reading(r);
            && sub == a
            && v < |run.states[e].History(a)| && row == run.states[e].History(a)[v]
            && NoOlderThan(run.states[b], a, v)
  {
    RunKeepsInv(ring, run, e);
    assert ReaderOk(ring, run.states[e], run.states[e].readers[r]);
    ReadCovers(ring, run, b, e, r, a);
  }

  // With no invalidation of the account under way and no commit during the read, the
  // answer is the database row.
  lemma QuietReadsAreExact(ring: Keyring, run: Run, b: nat, e: nat, r: ReaderId, a: Sub)
    requires ReadSpan(ring, run, b, e, r, a)
    requires forall j :: (a, j) !in run.states[b].pending
    requires run.states[e].History(a) == run.states[b].History(a)
    ensures var h := run.states[e].History(a);
            h != [] && run.states[e].Reading(r) == Returned(a, |h| - 1, h[|h| - 1])
  {
    ReadsAreRegular(ring, run, b, e, r, a);
    RunKeepsInv(ring, run, b);
    assert run.states[b].Settled(a, |run.states[b].History(a)| - 1);
  }

  // In every reachable state, an entry that a reader can still reach is the database
  // row as soon as no bump of its account is pending.
  lemma QuietEntriesAreTheRow(ring: Keyring, run: Run, k: nat, a: Sub)
    requires Valid(ring, run) && k < |run.states|
    requires forall j :: (a, j) !in run.states[k].pending
    ensures WellFormed(run.states[k])
    ensures var s := run.states[k];
            var key := ring.Tagged(AccountKey(a), s.generations[ShardOf(ring, a)]);
            var h := s.History(a);
            key in s.store && s.store[key].Encoded? ==>
              h != [] && s.store[key].version == |h| - 1 && h[|h| - 1] == Some(s.store[key].account)
  {
    RunKeepsInv(ring, run, k);
    var s := run.states[k];
    var g := s.generations[ShardOf(ring, a)];
    assert EntryOk(ring, s, a, g);
    var key := ring.Tagged(AccountKey(a), g);
    if key in s.store && s.store[key].Encoded? {
      var v := s.store[key].version;
      assert Current(s, a, v, s.store[key].account);
      assert (a, v + 1) !in s.pending;
    }
  }

  // A value just filled answers the next read of the account, without the database.
  lemma FillThenHit(ring: Keyring, s: State, r: ReaderId, q: ReaderId, erased: bool)
    requires WellFormed(s) && s.Reading(r).Filling? && q != r && Enabled(ring, s, Begin(q, s.Reading(r).sub))
    requires s.Reading(r).generation == s.generations[ShardOf(ring, s.Reading(r).sub)]
    ensures var Filling(a, _, v, account) := s.Reading(r);
            var filled := Apply(ring, s, Fill(r, true));
            && Enabled(ring, filled, Begin(q, a))
            && var begun := Apply(ring, filled, Begin(q, a));
               Enabled(ring, begun, Probe(q, true, erased, false)) &&
               Apply(ring, begun, Probe(q, true, erased, false)).Reading(q) == Returned(a, v, Some(account))
  {
  }

  // ----- the guarantee cannot be strengthened to atomicity

  // An account `a` is created, then changes from one row to another.
  datatype Scene = Scene(ring: Keyring, zeroes: seq<nat>, a: Sub, before: Account, after: Account) {

    ghost predicate Valid() {
      |zeroes| == SHARDS && forall i :: 0 <= i < SHARDS ==> zeroes[i] == 0
    }

    function Created(readers: map<ReaderId, Reader>): State {
      State(map[a := [None, Some(before)]], zeroes, map[], readers, map[], map[])
    }

    // The bump of the change is late in all of these states.
    function Changed(store: map<string, Entry>, readers: map<ReaderId, Reader>): State {
      State(map[a := [None, Some(before), Some(after)]], zeroes, store, readers, map[(a, 2) := 0], map[])
    }

    function Filled(): map<string, Entry> {
      map[ring.Tagged(AccountKey(a), 0) := Encoded(1, before)]
    }

    // Reader 0 loads the account before it changes; reader 1 comes and goes with the new
    // row; reader 0 fills the old one; reader 2 finds it.
    function Script(): seq<Action> {
      [Commit(0, map[a := Some(before)], {}), Begin(0, a), Probe(0, true, false, false), Load(0),
       Commit(0, map[a := Some(after)], {a}),
       Begin(1, a), Probe(1, true, false, false), Load(1), Recheck(1), Fill(1, false),
       Recheck(0), Fill(0, true),
       Begin(2, a), Probe(2, true, false, false)]
    }

    function At(k: nat): State {
      var slow, first, last := Loaded(a, 0, 1, before), Returned(a, 2, Some(after)), Returned(a, 1, Some(before));
      match k
      case 0 => State(map[], zeroes, map[], map[], map[], map[])
      case 1 => Created(map[])
      case 2 => Created(map[0 := Probing(a, 0)])
      case 3 => Created(map[0 := Missed(a, 0)])
      case 4 => Created(map[0 := slow])
      case 5 => Changed(map[], map[0 := slow])
      case 6 => Changed(map[], map[0 := slow, 1 := Probing(a, 0)])
      case 7 => Changed(map[], map[0 := slow, 1 := Missed(a, 0)])
      case 8 => Changed(map[], map[0 := slow, 1 := Loaded(a, 0, 2, after)])
      case 9 => Changed(map[], map[0 := slow, 1 := Filling(a, 0, 2, after)])
      case 10 => Changed(map[], map[0 := slow, 1 := first])
      case 11 => Changed(map[], map[0 := Filling(a, 0, 1, before), 1 := first])
      case 12 => Changed(Filled(), map[0 := last, 1 := first])
      case 13 => Changed(Filled(), map[0 := last, 1 := first, 2 := Probing(a, 0)])
      case _ => Changed(Filled(), map[0 := last, 1 := first, 2 := last])
    }

    ghost predicate Plays(k: nat)
      requires k < 14
    {
      Step(ring, At(k), Script()[k], At(k + 1))
    }

    lemma Creation()
      requires Valid()
      ensures Plays(0)
    {
      assert At(0).NeverExisted(a);
      assert At(0).History(a) + [Some(before)] == [None, Some(before)];
      assert Extend(At(0), 0, map[a := Some(before)], {}).history == At(1).history;
    }

    lemma ChangedState()
      requires Valid()
      ensures Extend(At(4), 0, map[a := Some(after)], {a}) == At(5)
    {
      var s, t := At(4), At(5);
      assert s.History(a) + [Some(after)] == [None, Some(before), Some(after)];
      assert Extend(s, 0, map[a := Some(after)], {a}).history == t.history;
      assert Extend(s, 0, map[a := Some(after)], {a}).pending == t.pending;
    }

    lemma Change()
      requires Valid()
      ensures Plays(4)
    {
      ChangedState();
    }

    lemma SlowReader()
      requires Valid()
      ensures Plays(1)
      ensures Plays(2)
    {
    }

    lemma SlowLoad()
      requires Valid()
      ensures Plays(3)
    {
    }

    lemma SlowRecheck()
      requires Valid()
      ensures Plays(10)
    {
    }

    lemma SlowFill()
      requires Valid()
      ensures Plays(11)
    {
    }

    lemma FastReader()
      requires Valid()
      ensures Plays(5)
    {
    }

    lemma FastMiss()
      requires Valid()
      ensures Plays(6)
    {
    }

    lemma FastLoad()
      requires Valid()
      ensures Plays(7)
    {
    }

    lemma FastRecheck()
      requires Valid()
      ensures Plays(8)
    {
    }

    lemma FastFill()
      requires Valid()
      ensures Plays(9)
    {
    }

    lemma LastReader()
      requires Valid()
      ensures Plays(12)
    {
    }

    lemma LastHit()
      requires Valid()
      ensures Plays(13)
    {
    }

    lemma PlaysBefore(k: nat)
      requires Valid() && k < 5
      ensures Plays(k)
    {
      Creation();
      SlowReader();
      SlowLoad();
      Change();
    }

    lemma PlaysDuring(k: nat)
      requires Valid() && 5 <= k < 10
      ensures Plays(k)
    {
      FastReader();
      FastMiss();
      FastLoad();
      FastRecheck();
      FastFill();
    }

    lemma PlaysAfter(k: nat)
      requires Valid() && 10 <= k < 14
      ensures Plays(k)
    {
      SlowRecheck();
      SlowFill();
      LastReader();
      LastHit();
    }
  }

  // A read that begins after another read has returned the new row can return the old one.
  lemma ReadsAreNotAtomic(ring: Keyring, a: Sub, before: Account, after: Account)
    ensures exists run: Run, b1: nat, e1: nat, b2: nat, e2: nat, r1, r2 ::
              ReadSpan(ring, run, b1, e1, r1, a) && ReadSpan(ring, run, b2, e2, r2, a) && e1 <= b2
              && run.states[e1].Reading(r1) == Returned(a, 2, Some(after))
              && run.states[e2].Reading(r2) == Returned(a, 1, Some(before))
  {
    var scene := Scene(ring, seq(SHARDS, _ => 0), a, before, after);
    var run := Run(seq(15, k requires 0 <= k < 15 => scene.At(k)), scene.Script());
    forall k | 0 <= k < |run.actions| ensures Step(ring, run.states[k], run.actions[k], run.states[k + 1]) {
      if k < 5 { scene.PlaysBefore(k); } else if k < 10 { scene.PlaysDuring(k); } else { scene.PlaysAfter(k); }
    }
    assert ReadSpan(ring, run, 5, 10, 1, a) && ReadSpan(ring, run, 12, 14, 2, a);
  }
}
