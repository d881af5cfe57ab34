/**
  The interleaved session transactions of Sessions refine the whole ones of Records: the rows
  change only when a transaction commits, and then as if it had run at that moment, alone.
 */
module SessionRefinement {
  import opened Wrappers
  import opened AccountIdentity
  import ExpiringRows
  import R = Records
  import S = Sessions
  import opened SessionSafety

  // An expiry time of 0 stands for none.
  function ExpiryOf(expiresAt: int): Option<int> {
    if expiresAt == 0 then None else Some(expiresAt)
  }

  function RowOf(token: S.Token): ExpiringRows.Row<(), R.Session> {
    ExpiringRows.Row((), R.Session(token.sub, token.authId), ExpiryOf(token.expiresAt))
  }

  // The same refresh tokens, and the same generations of the same accounts.
  ghost predicate SameTokens(db: S.Db, tokens: R.Tokens) {
    && (forall h :: h in db.tokens <==> h in tokens)
    && (forall h :: h in db.tokens ==> tokens[h] == RowOf(db.tokens[h]))
  }

  ghost predicate SameAccounts(db: S.Db, d: Directory) {
    && (forall a: S.Sub :: a in db.accounts <==> a in d.accounts)
    && (forall a: S.Sub :: a in db.accounts ==> d.accounts[a].authId == db.accounts[a])
  }

  ghost predicate Same(db: S.Db, r: R.State) {
    SameTokens(db, r.tokens) && SameAccounts(db, r.dir)
  }

  // The whole transaction that this commit amounts to. A token exchanged by Refresh had not
  // expired at the time `now` when its row was locked.
  function StepOf(tx: S.Tx, now: int): R.Step
    requires S.Ready(tx)
  {
    match tx
    case IssueSigned(newHash, token) => R.Issue(token.sub, newHash, ExpiryOf(token.expiresAt))
    case RefreshSigned(hash, saved, newHash, token) =>
      R.Exchange(hash, R.Session(saved.sub, saved.authId), now, newHash, ExpiryOf(token.expiresAt), false)
    case Sweeping(job, targets, _) =>
      match job
      case RevokeAll(sub, next) => R.RevokeAll(sub, next)
      case DeleteAccount(sub) => R.EndAccount(sub)
      case RevokeOne(hash) => R.Revoke(hash)
      case Clean(time) => R.SweepTokens(time, targets)
  }

  // A transaction that got past its account lock works under a generation that is not blank.
  ghost predicate Named(tx: S.Tx) {
    match tx
    case IssueLocked(_, authId) => authId != ""
    case IssueSigned(_, token) => token.authId != ""
    case RefreshLocked(_, saved) => saved.authId != ""
    case RefreshConsumed(_, saved) => saved.authId != ""
    case RefreshSigned(_, saved, _, token) => saved.authId != "" && token.authId == saved.authId
    case _ => true
  }

  lemma NamedNext(s: S.State, act: S.Action, t: S.TxId)
    requires S.Enabled(s, act) && t in S.Apply(s, act).txs && (t in s.txs ==> Named(s.txs[t]))
    ensures Named(S.Apply(s, act).txs[t])
  {
  }

  lemma {:induction false} AllNamed(run: Run, k: nat, t: S.TxId)
    requires Valid(run) && k < |run.states| && t in run.states[k].txs
    ensures Named(run.states[k].txs[t])
  {
    if k > 0 {
      var s := run.states[k - 1];
      assert Step(s, run.actions[k - 1], run.states[k]);
      if t in s.txs {
        AllNamed(run, k - 1, t);
      }
      NamedNext(s, run.actions[k - 1], t);
    }
  }

  lemma SwapIsSame(db: S.Db, tokens: R.Tokens, gone: set<S.Hash>, newHash: S.Hash, token: S.Token)
    requires SameTokens(db, tokens)
    ensures SameTokens(db.(tokens := (db.tokens - gone)[newHash := token]), (tokens - gone)[newHash := RowOf(token)])
  {
  }

  lemma RemovalIsSame(db: S.Db, tokens: R.Tokens, gone: set<S.Hash>)
    requires SameTokens(db, tokens)
    ensures SameTokens(db.(tokens := db.tokens - gone), tokens - gone)
  {
  }

  // ----- one commit, one whole transaction

  lemma IssueIsOneStep(db: S.Db, newHash: S.Hash, token: S.Token, r: R.State)
    requires Same(db, r) && Sound(r.dir) && S.HasGeneration(db, token.sub, token.authId) && token.authId != ""
    ensures var step := R.Issue(token.sub, newHash, ExpiryOf(token.expiresAt));
            Same(db.(tokens := db.tokens[newHash := token]), R.After(r, step)) && R.Reply(r, step) == R.Done
  {
  }

  lemma RefreshIsOneStep(db: S.Db, hash: S.Hash, saved: S.Token, newHash: S.Hash, token: S.Token, r: R.State, now: int)
    requires Same(db, r) && Sound(r.dir) && S.HasGeneration(db, token.sub, token.authId) && token.authId != ""
    requires hash in db.tokens && db.tokens[hash] == saved && !S.Expired(saved, now)
    requires token.sub == saved.sub && token.authId == saved.authId
    ensures var step := R.Exchange(hash, R.Session(saved.sub, saved.authId), now, newHash, ExpiryOf(token.expiresAt), false);
            && Same(db.(tokens := (db.tokens - {hash})[newHash := token]), R.After(r, step))
            && R.Reply(r, step) == R.Done
  {
    SwapIsSame(db, r.tokens, {hash}, newHash, token);
  }

  // The rows that a RevokeAll or a deletion went through are, when it commits, all the account's tokens and no others.
  lemma TargetsAreTheAccounts(s: S.State, t: S.TxId)
    requires S.Inv(s) && t in s.txs && s.txs[t].Sweeping? && S.JobAccount(s.txs[t].job).Some?
    ensures forall h :: h in s.db.tokens ==> (h in s.txs[t].targets <==> s.db.tokens[h].sub == S.JobAccount(s.txs[t].job).value)
  {
    assert S.TxOk(s, s.txs[t]);
    var sub := S.JobAccount(s.txs[t].job).value;
    forall h | h in s.db.tokens ensures h in s.txs[t].targets <==> s.db.tokens[h].sub == sub {
      assert s.db.tokens[h].sub == sub <==> h in S.TokensOf(s.db, sub);
      assert s.owner[h] == s.db.tokens[h].sub;
    }
  }

  lemma TargetsOfOne(s: S.State, t: S.TxId)
    requires S.Inv(s) && t in s.txs && s.txs[t].Sweeping? && s.txs[t].job.RevokeOne?
    ensures s.txs[t].targets <= {s.txs[t].job.hash}
  {
    assert S.TxOk(s, s.txs[t]);
  }

  ghost predicate AllOf(db: S.Db, sub: S.Sub, targets: set<S.Hash>) {
    forall h :: h in db.tokens ==> (h in targets <==> db.tokens[h].sub == sub)
  }

  lemma RevokeAllIsOneStep(db: S.Db, sub: S.Sub, next: S.AuthId, targets: set<S.Hash>, r: R.State)
    requires Same(db, r) && Sound(r.dir) && AllOf(db, sub, targets) && sub in db.accounts
    ensures Same(S.Db(db.accounts[sub := next], db.tokens - targets), R.After(r, R.RevokeAll(sub, next)))
  {
  }

  lemma DeleteIsOneStep(db: S.Db, sub: S.Sub, targets: set<S.Hash>, r: R.State)
    requires Same(db, r) && Sound(r.dir) && AllOf(db, sub, targets)
    ensures Same(S.Db(db.accounts - {sub}, db.tokens - targets), R.After(r, R.EndAccount(sub)))
  {
  }

  lemma CleanIsOneStep(db: S.Db, time: int, targets: set<S.Hash>, r: R.State)
    requires Same(db, r) && Sound(r.dir)
    ensures Same(db.(tokens := db.tokens - targets), R.After(r, R.SweepTokens(time, targets)))
  {
    RemovalIsSame(db, r.tokens, targets);
  }

  // Revoking one token amounts to that unless the token was made after its deletion looked for it.
  lemma RevokeOneIsOneStep(db: S.Db, hash: S.Hash, targets: set<S.Hash>, r: R.State)
    requires Same(db, r) && Sound(r.dir) && targets <= {hash}
    ensures Same(db.(tokens := db.tokens - targets), R.After(r, R.Revoke(hash)))
            <==> (hash in db.tokens ==> hash in targets)
  {
    RemovalIsSame(db, r.tokens, {hash});
    RemovesOneOrNone(db, targets, hash);
  }

  lemma RemovesOneOrNone(db: S.Db, targets: set<S.Hash>, hash: S.Hash)
    requires targets <= {hash}
    ensures db.tokens - targets == db.tokens - {hash} <==> (hash in db.tokens ==> hash in targets)
    ensures hash in db.tokens && hash !in targets ==> hash in db.tokens - targets
  {
  }

  // ----- in any run

  // A Refresh that has consumed its token found it unexpired at that step.
  lemma {:induction false} ConsumedBefore(run: Run, k: nat, t: S.TxId) returns (i: nat)
    requires Valid(run) && k < |run.states| && t in run.states[k].txs
    requires run.states[k].txs[t].RefreshConsumed? || run.states[k].txs[t].RefreshSigned?
    ensures i < k && run.actions[i].Consume? && run.actions[i].t == t
    ensures run.states[k].txs[t].saved.expiresAt == 0 || run.actions[i].now < run.states[k].txs[t].saved.expiresAt
  {
    assert k > 0;
    var s, act := run.states[k - 1], run.actions[k - 1];
    assert Step(s, act, run.states[k]);
    if act.Consume? && act.t == t {
      RunKeepsInv(run, k - 1);
      ConsumedNow(s, act);
      i := k - 1;
    } else {
      ConsumedStays(s, act, t);
      i := ConsumedBefore(run, k - 1, t);
    }
  }

  lemma ConsumedNow(s: S.State, act: S.Action)
    requires S.Inv(s) && S.Enabled(s, act) && act.Consume? && act.t in S.Apply(s, act).txs
    requires S.Apply(s, act).txs[act.t].RefreshConsumed?
    ensures !S.Expired(S.Apply(s, act).txs[act.t].saved, act.now)
  {
    assert S.TxOk(s, s.txs[act.t]);
  }

  lemma ConsumedStays(s: S.State, act: S.Action, t: S.TxId)
    requires S.Enabled(s, act) && !(act.Consume? && act.t == t) && t in S.Apply(s, act).txs
    requires S.Apply(s, act).txs[t].RefreshConsumed? || S.Apply(s, act).txs[t].RefreshSigned?
    ensures t in s.txs && (s.txs[t].RefreshConsumed? || s.txs[t].RefreshSigned?) && s.txs[t].saved == S.Apply(s, act).txs[t].saved
  {
  }

  // A token revoked by itself was there, if it is there now, when its deletion looked for it.
  ghost predicate SawItsToken(db: S.Db, tx: S.Tx) {
    tx.Sweeping? && tx.job.RevokeOne? && tx.job.hash in db.tokens ==> tx.job.hash in tx.targets
  }

  // Every step of every run leaves the rows alone, creates an account, or commits; and a commit does
  // what the whole transaction would, an exchange counting at the time it locked its token, and a
  // revocation of one token provided its deletion saw the token if it is there.
  lemma CommitsAreWhole(run: Run, k: nat, r: R.State) returns (now: int)
    requires Valid(run) && k < |run.actions| && !run.actions[k].CreateAccount?
    requires Same(run.states[k].db, r) && Sound(r.dir)
    ensures !run.actions[k].Commit? ==> run.states[k + 1].db == run.states[k].db
    ensures run.actions[k].Commit? ==>
              && S.Enabled(run.states[k], run.actions[k])
              && var tx := run.states[k].txs[run.actions[k].t];
                 SawItsToken(run.states[k].db, tx) ==>
                   Same(run.states[k + 1].db, R.After(r, StepOf(tx, now))) && (tx.Sweeping? || R.Reply(r, StepOf(tx, now)) == R.Done)
    ensures run.actions[k].Commit? && run.states[k].txs[run.actions[k].t].RefreshSigned? ==>
              exists i :: 0 <= i < k && run.actions[i] == S.Consume(run.actions[k].t, now)
  {
    var s, act := run.states[k], run.actions[k];
    assert Step(s, act, run.states[k + 1]);
    RunKeepsInv(run, k);
    now := 0;
    if !act.Commit? {
      RowsChangeOnCommit(s, act);
    } else {
      now := CommitIsWhole(run, k, r);
    }
  }

  lemma CommitIsWhole(run: Run, k: nat, r: R.State) returns (now: int)
    requires Valid(run) && k < |run.actions| && run.actions[k].Commit?
    requires S.Inv(run.states[k]) && S.Enabled(run.states[k], run.actions[k])
    requires Same(run.states[k].db, r) && Sound(r.dir)
    ensures var tx := run.states[k].txs[run.actions[k].t];
            SawItsToken(run.states[k].db, tx) ==>
              Same(S.Write(run.states[k].db, tx), R.After(r, StepOf(tx, now))) && (tx.Sweeping? || R.Reply(r, StepOf(tx, now)) == R.Done)
    ensures run.states[k].txs[run.actions[k].t].RefreshSigned? ==>
              exists i :: 0 <= i < k && run.actions[i] == S.Consume(run.actions[k].t, now)
  {
    var s, t := run.states[k], run.actions[k].t;
    now := 0;
    AllNamed(run, k, t);
    if s.txs[t].RefreshSigned? {
      var i := ConsumedBefore(run, k, t);
      now := run.actions[i].now;
      RefreshIsWhole(s, t, r, now);
    } else if s.txs[t].IssueSigned? {
      assert S.TxOk(s, s.txs[t]);
      IssueIsOneStep(s.db, s.txs[t].newHash, s.txs[t].token, r);
    } else if SawItsToken(s.db, s.txs[t]) {
      SweepIsWhole(s, t, r, now);
    }
  }

  lemma RefreshIsWhole(s: S.State, t: S.TxId, r: R.State, now: int)
    requires S.Inv(s) && S.Enabled(s, S.Commit(t)) && s.txs[t].RefreshSigned? && Named(s.txs[t])
    requires Same(s.db, r) && Sound(r.dir) && !S.Expired(s.txs[t].saved, now)
    ensures Same(S.Write(s.db, s.txs[t]), R.After(r, StepOf(s.txs[t], now))) && R.Reply(r, StepOf(s.txs[t], now)) == R.Done
  {
    assert S.TxOk(s, s.txs[t]);
    RefreshIsOneStep(s.db, s.txs[t].hash, s.txs[t].saved, s.txs[t].newHash, s.txs[t].token, r, now);
  }

  lemma SweepIsWhole(s: S.State, t: S.TxId, r: R.State, now: int)
    requires S.Inv(s) && S.Enabled(s, S.Commit(t)) && s.txs[t].Sweeping? && Same(s.db, r) && Sound(r.dir)
    requires SawItsToken(s.db, s.txs[t])
    ensures Same(S.Write(s.db, s.txs[t]), R.After(r, StepOf(s.txs[t], now)))
  {
    assert S.TxOk(s, s.txs[t]);
    var targets := s.txs[t].targets;
    match s.txs[t].job
    case RevokeAll(sub, next) =>
      TargetsAreTheAccounts(s, t);
      RevokeAllIsOneStep(s.db, sub, next, targets, r);
    case DeleteAccount(sub) =>
      TargetsAreTheAccounts(s, t);
      DeleteIsOneStep(s.db, sub, targets, r);
    case RevokeOne(hash) =>
      TargetsOfOne(s, t);
      RevokeOneIsOneStep(s.db, hash, targets, r);
    case Clean(time) => CleanIsOneStep(s.db, time, targets, r);
  }
}
