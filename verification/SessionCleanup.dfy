/** Under a non-decreasing clock, expiry cleanup changes nothing that Issue or Refresh does, in any interleaving. */
module SessionCleanup {
  import opened Wrappers
  import opened Sessions
  import opened SessionSafety

  function TimeOf(act: Action): Option<int> {
    match act
    case Read(_, _, now) => Some(now)
    case Consume(_, now) => Some(now)
    case StartJob(_, Clean(now)) => Some(now)
    case _ => None
  }

  // None of the first k steps is later than `now`.
  ghost predicate NotAfter(run: Run, k: nat, now: int)
    requires k <= |run.actions|
  {
    forall i {:trigger run.actions[i]} :: 0 <= i < k && TimeOf(run.actions[i]).Some? ==> TimeOf(run.actions[i]).value <= now
  }

  ghost predicate Monotone(run: Run) {
    forall k {:trigger run.actions[k]} :: 0 <= k < |run.actions| && TimeOf(run.actions[k]).Some? ==> NotAfter(run, k, TimeOf(run.actions[k]).value)
  }

  ghost predicate CommitsCleanup(s: State, act: Action) {
    act.Commit? && act.t in s.txs && s.txs[act.t].Sweeping? && s.txs[act.t].job.Clean?
  }

  function Removed(before: Db, after: Db): map<Hash, Token> {
    map h | h in before.tokens && h !in after.tokens :: before.tokens[h]
  }

  // Every row that a cleanup has removed by state k.
  ghost function Cleaned(run: Run, k: nat): map<Hash, Token>
    requires Valid(run) && k < |run.states|
  {
    if k == 0 then map[]
    else if CommitsCleanup(run.states[k - 1], run.actions[k - 1]) then
      Cleaned(run, k - 1) + Removed(run.states[k - 1].db, run.states[k].db)
    else Cleaned(run, k - 1)
  }

  lemma CleanupKills(s: State, act: Action, hash: Hash)
    requires Inv(s) && Enabled(s, act) && CommitsCleanup(s, act) && hash in s.db.tokens && hash !in Apply(s, act).db.tokens
    ensures Dead(Apply(s, act), hash) && Expired(s.db.tokens[hash], s.txs[act.t].job.now)
  {
    assert TxOk(s, s.txs[act.t]);
    var r := Apply(s, act);
    forall t | t in r.txs ensures r.txs[t].Inserting() != Some(hash) {
      assert TxOk(s, s.txs[t]);
    }
  }

  lemma JobNext(s: State, act: Action, t: TxId)
    requires Enabled(s, act) && t in Apply(s, act).txs && CleanTime(Apply(s, act).txs[t]).Some?
    ensures act == StartJob(t, Clean(CleanTime(Apply(s, act).txs[t]).value))
            || (t in s.txs && CleanTime(s.txs[t]) == CleanTime(Apply(s, act).txs[t]))
  {
  }

  function CleanTime(tx: Tx): Option<int> {
    match tx
    case JobBegun(Clean(now)) => Some(now)
    case JobLocked(Clean(now)) => Some(now)
    case Sweeping(Clean(now), _, _) => Some(now)
    case _ => None
  }

  lemma {:induction false} CleanupStarted(run: Run, k: nat, t: TxId, now: int)
    requires Valid(run) && k < |run.states| && NotAfter(run, k, now)
    requires t in run.states[k].txs && CleanTime(run.states[k].txs[t]).Some?
    ensures CleanTime(run.states[k].txs[t]).value <= now
  {
    if k > 0 {
      var s, act := run.states[k - 1], run.actions[k - 1];
      assert Step(s, act, run.states[k]);
      JobNext(s, act, t);
      if act != StartJob(t, Clean(CleanTime(run.states[k].txs[t]).value)) {
        CleanupStarted(run, k - 1, t, now);
      }
    }
  }

  // What was cleaned is dead, and has expired at every time from then on.
  lemma {:induction false} CleanedIsInert(run: Run, k: nat, now: int, h: Hash)
    requires Valid(run) && k < |run.states| && NotAfter(run, k, now) && h in Cleaned(run, k)
    ensures Dead(run.states[k], h) && 0 != Cleaned(run, k)[h].expiresAt <= now
  {
    if JustCleaned(run, k, h) {
      JustCleanedIsInert(run, k, now, h);
    } else {
      CleanedIsInert(run, k - 1, now, h);
      DeadForever(run, k - 1, k, h);
    }
  }

  ghost predicate JustCleaned(run: Run, k: nat, h: Hash)
    requires 0 < k < |run.states| && |run.states| == |run.actions| + 1
  {
    CommitsCleanup(run.states[k - 1], run.actions[k - 1]) && h in Removed(run.states[k - 1].db, run.states[k].db)
  }

  lemma JustCleanedIsInert(run: Run, k: nat, now: int, h: Hash)
    requires Valid(run) && 0 < k < |run.states| && NotAfter(run, k, now) && JustCleaned(run, k, h)
    ensures Dead(run.states[k], h) && Expired(run.states[k - 1].db.tokens[h], now)
  {
    var s, act := run.states[k - 1], run.actions[k - 1];
    assert Step(s, act, run.states[k]);
    RunKeepsInv(run, k - 1);
    CleanupKills(s, act, h);
    CleanupStarted(run, k - 1, act.t, now);
  }

  // The state with these rows back.
  function Restored(s: State, gone: map<Hash, Token>): State {
    s.(db := s.db.(tokens := s.db.tokens + gone))
  }

  // A step of Issue or Refresh, or the creation of an account.
  predicate IsSessionStep(s: State, act: Action) {
    match act
    case StartJob(_, _) => false
    case LockForJob(_) => false
    case Sweep(_, _) => false
    case SweepOne(_, _) => false
    case Commit(t) => t in s.txs && (s.txs[t].IssueSigned? || s.txs[t].RefreshSigned?)
    case _ => true
  }

  ghost predicate Inert(s: State, gone: map<Hash, Token>) {
    forall h :: h in gone ==> Dead(s, h)
  }

  lemma WriteIsTheSame(db: Db, tx: Tx, gone: map<Hash, Token>)
    requires tx.IssueSigned? || tx.RefreshSigned?
    requires tx.newHash !in gone && (tx.RefreshSigned? ==> tx.hash !in gone)
    ensures Write(db.(tokens := db.tokens + gone), tx) == Write(db, tx).(tokens := Write(db, tx).tokens + gone)
  {
    if tx.RefreshSigned? {
      assert ((db.tokens + gone) - {tx.hash})[tx.newHash := tx.token] == (db.tokens - {tx.hash})[tx.newHash := tx.token] + gone;
    } else {
      assert (db.tokens + gone)[tx.newHash := tx.token] == db.tokens[tx.newHash := tx.token] + gone;
    }
  }

  lemma CommitIsTheSame(s: State, t: TxId, gone: map<Hash, Token>)
    requires Inv(s) && Enabled(s, Commit(t)) && IsSessionStep(s, Commit(t)) && Inert(s, gone)
    ensures Apply(Restored(s, gone), Commit(t)) == Restored(Apply(s, Commit(t)), gone)
  {
    assert TxOk(s, s.txs[t]) && s.txs[t].Inserting() == Some(s.txs[t].newHash);
    WriteIsTheSame(s.db, s.txs[t], gone);
  }

  lemma ReadIsTheSame(s: State, act: Action, gone: map<Hash, Token>)
    requires Enabled(s, act) && act.Read? && Inert(s, gone)
    requires forall h :: h in gone ==> Expired(gone[h], act.now)
    ensures Apply(Restored(s, gone), act) == Restored(Apply(s, act), gone)
  {
  }

  lemma ConsumeIsTheSame(s: State, act: Action, gone: map<Hash, Token>)
    requires Enabled(s, act) && act.Consume? && Inert(s, gone)
    requires forall h :: h in gone ==> Expired(gone[h], act.now)
    ensures Apply(Restored(s, gone), act) == Restored(Apply(s, act), gone)
  {
  }

  lemma OtherIsTheSame(s: State, act: Action, gone: map<Hash, Token>)
    requires Enabled(s, act) && IsSessionStep(s, act) && !act.Read? && !act.Consume? && !act.Commit?
    ensures Apply(Restored(s, gone), act) == Restored(Apply(s, act), gone)
  {
  }

  // With every row that cleanup has removed still there, each step that Issue and Refresh take could
  // have been taken, and would have done the same: a token that was cleaned up is one that every
  // later look at it would have found expired.
  lemma CleanupLeavesSessionsAlone(run: Run, k: nat)
    requires Valid(run) && Monotone(run) && k < |run.actions| && IsSessionStep(run.states[k], run.actions[k])
    ensures Enabled(Restored(run.states[k], Cleaned(run, k)), run.actions[k])
    ensures Apply(Restored(run.states[k], Cleaned(run, k)), run.actions[k]) == Restored(run.states[k + 1], Cleaned(run, k))
  {
    var s, act, gone := run.states[k], run.actions[k], Cleaned(run, k);
    assert Step(s, act, run.states[k + 1]);
    RunKeepsInv(run, k);
    var now := if TimeOf(act).Some? then TimeOf(act).value else UpperBound(run, k);
    forall h | h in gone ensures Dead(s, h) && Expired(gone[h], now) {
      CleanedIsInert(run, k, now, h);
    }
    match act
    case Commit(t) => CommitIsTheSame(s, t, gone);
    case Read(_, _, _) => ReadIsTheSame(s, act, gone);
    case Consume(_, _) => ConsumeIsTheSame(s, act, gone);
    case _ => OtherIsTheSame(s, act, gone);
  }

  // A time no earlier than any of the first k steps.
  function UpperBound(run: Run, k: nat): (now: int)
    requires k <= |run.actions|
    ensures NotAfter(run, k, now)
  {
    if k == 0 then 0
    else
      var now := UpperBound(run, k - 1);
      if TimeOf(run.actions[k - 1]).Some? && TimeOf(run.actions[k - 1]).value > now then TimeOf(run.actions[k - 1]).value else now
  }
}
