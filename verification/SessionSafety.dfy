/** What the session protocol guarantees over whole runs. */
module SessionSafety {
  import opened Wrappers
  import opened Sessions

  datatype Run = Run(states: seq<State>, actions: seq<Action>)

  ghost predicate Step(s: State, act: Action, r: State) {
    Enabled(s, act) && r == Apply(s, act)
  }

  ghost predicate Valid(run: Run) {
    && |run.states| == |run.actions| + 1
    && Init(run.states[0])
    && forall k {:trigger run.actions[k]} :: 0 <= k < |run.actions| ==> Step(run.states[k], run.actions[k], run.states[k + 1])
  }

  lemma {:induction false} RunKeepsInv(run: Run, k: nat)
    requires Valid(run) && k < |run.states|
    ensures Inv(run.states[k])
  {
    if k > 0 {
      RunKeepsInv(run, k - 1);
      assert Step(run.states[k - 1], run.actions[k - 1], run.states[k]);
      StepKeepsInv(run.states[k - 1], run.actions[k - 1]);
    }
  }

  // In every committed state each refresh token belongs to an existing account and carries
  // its current generation, and each session has at most one live token.
  lemma CommittedRowsAgree(run: Run, k: nat)
    requires Valid(run) && k < |run.states|
    ensures var db := run.states[k].db;
            && (forall h :: h in db.tokens ==> HasGeneration(db, db.tokens[h].sub, db.tokens[h].authId))
            && (forall h, g :: h in db.tokens && g in db.tokens && db.tokens[h].root == db.tokens[g].root ==> h == g)
  {
    RunKeepsInv(run, k);
  }

  // ----- atomicity

  // Only a commit, or the creation of an account, changes a row.
  lemma RowsChangeOnCommit(s: State, act: Action)
    requires Enabled(s, act) && !act.Commit? && !act.CreateAccount?
    ensures Apply(s, act).db == s.db
  {
  }

  // ----- refresh

  // The token exchanged by this step, if it completes a Refresh.
  ghost function Exchanged(s: State, act: Action): Option<Hash> {
    if act.Commit? && act.t in s.txs && s.txs[act.t].RefreshSigned? then Some(s.txs[act.t].hash) else None
  }

  // A successful Refresh replaces one live token by one of the same session.
  lemma RefreshConservesSessions(s: State, t: TxId)
    requires Inv(s) && Enabled(s, Commit(t)) && s.txs[t].RefreshSigned?
    ensures var RefreshSigned(hash, saved, newHash, token) := s.txs[t];
            var before, after := s.db.tokens, Apply(s, Commit(t)).db.tokens;
            && |after| == |before|
            && hash in before && hash !in after && newHash !in before && newHash in after
            && after[newHash].root == before[hash].root
            && after[newHash].sub == before[hash].sub
            && after[newHash].authId == before[hash].authId
            && forall h :: h != hash && h != newHash ==> (h in before <==> h in after) && (h in before ==> before[h] == after[h])
  {
    var RefreshSigned(hash, saved, newHash, token) := s.txs[t];
    var before, after := s.db.tokens, Apply(s, Commit(t)).db.tokens;
    assert TxOk(s, s.txs[t]);
    SwapKeepsSize(before, hash, newHash, token);
  }

  lemma SwapKeepsSize(m: map<Hash, Token>, hash: Hash, newHash: Hash, token: Token)
    requires hash in m && newHash !in m
    ensures |(m - {hash})[newHash := token]| == |m|
  {
    var after := (m - {hash})[newHash := token];
    assert after.Keys == m.Keys - {hash} + {newHash};
    assert |after.Keys| == |m.Keys|;
  }

  // A hash that is not, and will not become, a row.
  ghost predicate Dead(s: State, hash: Hash) {
    hash in s.owner && hash !in s.db.tokens && forall t :: t in s.txs ==> s.txs[t].Inserting() != Some(hash)
  }

  lemma CommitKeepsDead(s: State, t: TxId, hash: Hash)
    requires Inv(s) && Enabled(s, Commit(t)) && Dead(s, hash)
    ensures Dead(Apply(s, Commit(t)), hash) && Exchanged(s, Commit(t)) != Some(hash)
  {
    assert TxOk(s, s.txs[t]);
  }

  lemma OtherStepKeepsDead(s: State, act: Action, hash: Hash)
    requires Enabled(s, act) && !act.Commit? && Dead(s, hash)
    ensures Dead(Apply(s, act), hash)
  {
    var r := Apply(s, act);
    forall t | t in r.txs ensures r.txs[t].Inserting() != Some(hash) {
    }
  }

  lemma DeadStaysDead(s: State, act: Action, hash: Hash)
    requires Inv(s) && Enabled(s, act) && Dead(s, hash)
    ensures Dead(Apply(s, act), hash) && Exchanged(s, act) != Some(hash)
  {
    if act.Commit? {
      CommitKeepsDead(s, act.t, hash);
    } else {
      OtherStepKeepsDead(s, act, hash);
    }
  }

  lemma {:induction false} DeadForever(run: Run, i: nat, j: nat, hash: Hash)
    requires Valid(run) && i <= j < |run.states| && Dead(run.states[i], hash)
    ensures Dead(run.states[j], hash)
    ensures j < |run.actions| ==> Exchanged(run.states[j], run.actions[j]) != Some(hash)
    decreases j
  {
    if i < j {
      DeadForever(run, i, j - 1, hash);
      RunKeepsInv(run, j - 1);
      assert Step(run.states[j - 1], run.actions[j - 1], run.states[j]);
      DeadStaysDead(run.states[j - 1], run.actions[j - 1], hash);
    }
    RunKeepsInv(run, j);
    if j < |run.actions| {
      assert Step(run.states[j], run.actions[j], run.states[j + 1]);
      DeadStaysDead(run.states[j], run.actions[j], hash);
    }
  }

  lemma ExchangeKills(s: State, act: Action, hash: Hash)
    requires Inv(s) && Enabled(s, act) && Exchanged(s, act) == Some(hash)
    ensures Dead(Apply(s, act), hash)
  {
    var tx := s.txs[act.t];
    assert TxOk(s, tx);
    var r := Apply(s, act);
    forall t | t in r.txs ensures r.txs[t].Inserting() != Some(hash) {
      assert Apart(s.txs[t], tx);
    }
  }

  // Each refresh token is exchanged at most once in any run.
  lemma SingleRedemption(run: Run, i: nat, j: nat, hash: Hash)
    requires Valid(run) && i < j < |run.actions|
    requires Exchanged(run.states[i], run.actions[i]) == Some(hash)
    ensures Exchanged(run.states[j], run.actions[j]) != Some(hash)
  {
    RunKeepsInv(run, i);
    assert Step(run.states[i], run.actions[i], run.states[i + 1]);
    ExchangeKills(run.states[i], run.actions[i], hash);
    DeadForever(run, i + 1, j, hash);
  }

  // ----- access tokens

  // Verification of a token whose signature holds: the claims decide.
  predicate Verifies(db: Db, access: Access, now: int) {
    && 0 < access.expiresAt && now < access.expiresAt
    && access.authId != "" && access.sub > 0
    && access.sub in db.accounts && db.accounts[access.sub] == access.authId
  }

  // A generation that no account has, and that none will get.
  ghost predicate Retired(s: State, authId: AuthId) {
    && authId in s.generated
    && (forall a :: a in s.db.accounts ==> s.db.accounts[a] != authId)
    && forall t :: t in s.txs ==> s.txs[t].Reserved() != Some(authId)
  }

  lemma CommitKeepsRetired(s: State, t: TxId, authId: AuthId)
    requires Inv(s) && Enabled(s, Commit(t)) && Retired(s, authId)
    ensures Retired(Apply(s, Commit(t)), authId)
  {
    assert TxOk(s, s.txs[t]);
  }

  lemma OtherStepKeepsRetired(s: State, act: Action, authId: AuthId)
    requires Enabled(s, act) && !act.Commit? && Retired(s, authId)
    ensures Retired(Apply(s, act), authId)
  {
    var r := Apply(s, act);
    forall t | t in r.txs ensures r.txs[t].Reserved() != Some(authId) {
    }
  }

  lemma RetiredStaysRetired(s: State, act: Action, authId: AuthId)
    requires Inv(s) && Enabled(s, act) && Retired(s, authId)
    ensures Retired(Apply(s, act), authId)
  {
    if act.Commit? {
      CommitKeepsRetired(s, act.t, authId);
    } else {
      OtherStepKeepsRetired(s, act, authId);
    }
  }

  lemma RetiredNext(run: Run, k: nat, authId: AuthId)
    requires Valid(run) && k < |run.actions| && Retired(run.states[k], authId)
    ensures Retired(run.states[k + 1], authId)
  {
    RunKeepsInv(run, k);
    assert Step(run.states[k], run.actions[k], run.states[k + 1]);
    RetiredStaysRetired(run.states[k], run.actions[k], authId);
  }

  lemma {:induction false} RetiredForever(run: Run, i: nat, j: nat, authId: AuthId)
    requires Valid(run) && i <= j < |run.states| && Retired(run.states[i], authId)
    ensures Retired(run.states[j], authId)
    decreases j
  {
    if i < j {
      RetiredForever(run, i, j - 1, authId);
      RetiredNext(run, j - 1, authId);
    }
  }

  // ----- revocation

  // This step commits a RevokeAll or a deletion of the account `sub`.
  ghost predicate Ends(s: State, act: Action, sub: Sub) {
    act.Commit? && act.t in s.txs && s.txs[act.t].Sweeping? && JobAccount(s.txs[act.t].job) == Some(sub)
  }

  // The instant it commits, the account's old generation is retired, all its refresh
  // tokens are dead, and nobody else's rows have changed.
  lemma RevocationTakesEffect(s: State, act: Action, sub: Sub)
    requires Inv(s) && Enabled(s, act) && Ends(s, act, sub)
    ensures var r := Apply(s, act);
            && sub in s.db.accounts && Retired(r, s.db.accounts[sub])
            && (forall h :: h in s.owner && s.owner[h] == sub ==> Dead(r, h))
            && (forall a :: a != sub ==> (a in s.db.accounts <==> a in r.db.accounts) &&
                                         (a in s.db.accounts ==> r.db.accounts[a] == s.db.accounts[a]))
            && (forall h :: h in s.db.tokens && s.db.tokens[h].sub != sub ==> h in r.db.tokens && r.db.tokens[h] == s.db.tokens[h])
            && r.db.tokens.Keys <= s.db.tokens.Keys
  {
    var r := Apply(s, act);
    var tx := s.txs[act.t];
    assert TxOk(s, tx);
    forall t | t in r.txs ensures r.txs[t].Reserved() != Some(s.db.accounts[sub]) {
      assert TxOk(s, s.txs[t]);
    }
    forall h | h in s.owner && s.owner[h] == sub ensures Dead(r, h) {
      assert h in s.db.tokens ==> h in TokensOf(s.db, sub);
      forall t | t in r.txs ensures r.txs[t].Inserting() != Some(h) {
        assert TxOk(s, s.txs[t]) && Apart(s.txs[t], tx);
      }
    }
  }

  // Once a RevokeAll or a deletion has committed, no access token of the generation it
  // ended verifies, and no refresh token made before is exchanged, whatever was in flight.
  lemma RevocationIsFinal(run: Run, i: nat, j: nat, sub: Sub, access: Access, now: int, hash: Hash)
    requires Valid(run) && i < j < |run.states|
    requires Ends(run.states[i], run.actions[i], sub)
    ensures sub in run.states[i].db.accounts
    ensures access.authId == run.states[i].db.accounts[sub] ==> !Verifies(run.states[j].db, access, now)
    ensures hash in run.states[i].owner && run.states[i].owner[hash] == sub && j < |run.actions| ==>
              Exchanged(run.states[j], run.actions[j]) != Some(hash)
  {
    RunKeepsInv(run, i);
    assert Step(run.states[i], run.actions[i], run.states[i + 1]);
    RevocationTakesEffect(run.states[i], run.actions[i], sub);
    RetiredForever(run, i + 1, j, run.states[i].db.accounts[sub]);
    if hash in run.states[i].owner && run.states[i].owner[hash] == sub {
      DeadForever(run, i + 1, j, hash);
    }
  }

  // A generation that the account does not have and will not get: made, and not being stored by anyone.
  ghost predicate Lost(s: State, sub: Sub, authId: AuthId) {
    && authId in s.generated
    && !HasGeneration(s.db, sub, authId)
    && forall t :: t in s.txs ==> s.txs[t].Reserved() != Some(authId)
  }

  lemma CommitKeepsLost(s: State, t: TxId, sub: Sub, authId: AuthId)
    requires Enabled(s, Commit(t)) && Lost(s, sub, authId)
    ensures Lost(Apply(s, Commit(t)), sub, authId)
  {
  }

  lemma OtherStepKeepsLost(s: State, act: Action, sub: Sub, authId: AuthId)
    requires Enabled(s, act) && !act.Commit? && Lost(s, sub, authId)
    ensures Lost(Apply(s, act), sub, authId)
  {
    var r := Apply(s, act);
    forall t | t in r.txs ensures r.txs[t].Reserved() != Some(authId) {
    }
  }

  lemma {:induction false} LostForever(run: Run, i: nat, j: nat, sub: Sub, authId: AuthId)
    requires Valid(run) && i <= j < |run.states| && Lost(run.states[i], sub, authId)
    ensures Lost(run.states[j], sub, authId)
    decreases j
  {
    if i < j {
      LostForever(run, i, j - 1, sub, authId);
      var s, act := run.states[j - 1], run.actions[j - 1];
      assert Step(s, act, run.states[j]);
      if act.Commit? {
        CommitKeepsLost(s, act.t, sub, authId);
      } else {
        OtherStepKeepsLost(s, act, sub, authId);
      }
    }
  }

  lemma RevocationLoses(s: State, act: Action, sub: Sub, authId: AuthId)
    requires Inv(s) && Enabled(s, act) && Ends(s, act, sub) && authId in s.generated
    requires forall t :: t in s.txs ==> s.txs[t].Reserved() != Some(authId)
    ensures Lost(Apply(s, act), sub, authId)
  {
    assert TxOk(s, s.txs[act.t]);
  }

  // From then on no access token of the account verifies under any generation made before, other
  // than the ones that this and other revocations still in flight are about to store.
  lemma RevocationEndsAllAccess(run: Run, i: nat, j: nat, sub: Sub, access: Access, now: int)
    requires Valid(run) && i < j < |run.states| && Ends(run.states[i], run.actions[i], sub) && access.sub == sub
    requires access.authId in run.states[i].generated
    requires forall t :: t in run.states[i].txs ==> run.states[i].txs[t].Reserved() != Some(access.authId)
    ensures !Verifies(run.states[j].db, access, now)
  {
    RunKeepsInv(run, i);
    assert Step(run.states[i], run.actions[i], run.states[i + 1]);
    RevocationLoses(run.states[i], run.actions[i], sub, access.authId);
    LostForever(run, i + 1, j, sub, access.authId);
  }

  // An access token is only signed under a generation that its account has, so never under one
  // that is still to be stored.
  ghost predicate SignedOk(s: State, access: Access) {
    HasGeneration(s.db, access.sub, access.authId) || Lost(s, access.sub, access.authId)
  }

  lemma SigningIsOk(s: State, act: Action, access: Access)
    requires Inv(s) && Enabled(s, act) && access in Apply(s, act).signed && access !in s.signed
    ensures SignedOk(Apply(s, act), access)
  {
    assert TxOk(s, s.txs[act.t]);
  }

  lemma EndingLoses(s: State, act: Action, sub: Sub, authId: AuthId)
    requires Inv(s) && Enabled(s, act) && HasGeneration(s.db, sub, authId)
    ensures HasGeneration(Apply(s, act).db, sub, authId) || Lost(Apply(s, act), sub, authId)
  {
    if Ends(s, act, sub) {
      RevocationTakesEffect(s, act, sub);
      assert Retired(Apply(s, act), authId);
    } else {
      OnlyRevocationEnds(s, act, sub);
    }
  }

  lemma SignedStaysOk(s: State, act: Action, access: Access)
    requires Inv(s) && Enabled(s, act) && SignedOk(s, access)
    ensures SignedOk(Apply(s, act), access)
  {
    if HasGeneration(s.db, access.sub, access.authId) {
      EndingLoses(s, act, access.sub, access.authId);
    } else if act.Commit? {
      CommitKeepsLost(s, act.t, access.sub, access.authId);
    } else {
      OtherStepKeepsLost(s, act, access.sub, access.authId);
    }
  }

  lemma {:induction false} AllSignedOk(run: Run, k: nat, access: Access)
    requires Valid(run) && k < |run.states| && access in run.states[k].signed
    ensures SignedOk(run.states[k], access)
  {
    if k > 0 {
      var s, act := run.states[k - 1], run.actions[k - 1];
      assert Step(s, act, run.states[k]);
      RunKeepsInv(run, k - 1);
      if access in s.signed {
        AllSignedOk(run, k - 1, access);
        SignedStaysOk(s, act, access);
      } else {
        SigningIsOk(s, act, access);
      }
    }
  }

  // So no access token that was out when a RevokeAll or a deletion of its account committed verifies again.
  lemma SignedAccessEnds(run: Run, i: nat, j: nat, access: Access, now: int)
    requires Valid(run) && i < j < |run.states| && Ends(run.states[i], run.actions[i], access.sub)
    requires access in run.states[i].signed
    ensures !Verifies(run.states[j].db, access, now)
  {
    RunKeepsInv(run, i);
    AllSignedOk(run, i, access);
    var s := run.states[i];
    assert Step(s, run.actions[i], run.states[i + 1]);
    forall t | t in s.txs ensures s.txs[t].Reserved() != Some(access.authId) {
      assert TxOk(s, s.txs[t]);
    }
    RevocationEndsAllAccess(run, i, j, access.sub, access, now);
  }

  // Nothing else ends a session: an account keeps its generation, so its access tokens keep
  // verifying, as long as no RevokeAll and no deletion of that account commits.
  lemma OnlyRevocationEnds(s: State, act: Action, sub: Sub)
    requires Inv(s) && Enabled(s, act) && !Ends(s, act, sub) && sub in s.db.accounts
    ensures HasGeneration(Apply(s, act).db, sub, s.db.accounts[sub])
  {
    if !act.Commit? && !act.CreateAccount? {
      RowsChangeOnCommit(s, act);
    }
  }

  lemma GenerationNext(run: Run, k: nat, sub: Sub, authId: AuthId)
    requires Valid(run) && k < |run.actions| && HasGeneration(run.states[k].db, sub, authId)
    requires !Ends(run.states[k], run.actions[k], sub)
    ensures HasGeneration(run.states[k + 1].db, sub, authId)
  {
    RunKeepsInv(run, k);
    assert Step(run.states[k], run.actions[k], run.states[k + 1]);
    OnlyRevocationEnds(run.states[k], run.actions[k], sub);
  }

  lemma {:induction false} GenerationLasts(run: Run, i: nat, j: nat, sub: Sub, authId: AuthId)
    requires Valid(run) && i <= j < |run.states| && HasGeneration(run.states[i].db, sub, authId)
    requires forall k {:trigger run.actions[k]} :: i <= k < j ==> !Ends(run.states[k], run.actions[k], sub)
    ensures HasGeneration(run.states[j].db, sub, authId)
    decreases j
  {
    if i < j {
      GenerationLasts(run, i, j - 1, sub, authId);
      GenerationNext(run, j - 1, sub, authId);
    }
  }

  lemma UnrevokedAccessLasts(run: Run, i: nat, j: nat, access: Access, now: int, later: int)
    requires Valid(run) && i <= j < |run.states| && Verifies(run.states[i].db, access, now)
    requires forall k {:trigger run.actions[k]} :: i <= k < j ==> !Ends(run.states[k], run.actions[k], access.sub)
    ensures Verifies(run.states[j].db, access, later) <==> later < access.expiresAt
  {
    GenerationLasts(run, i, j, access.sub, access.authId);
  }

  // A live refresh token leaves the table only by being exchanged, revoked by itself,
  // revoked with its account, or cleaned up after it expired.
  lemma TokensLeaveFourWays(s: State, t: TxId, hash: Hash)
    requires Inv(s) && Enabled(s, Commit(t)) && hash in s.db.tokens && hash !in Apply(s, Commit(t)).db.tokens
    ensures || Exchanged(s, Commit(t)) == Some(hash)
            || Ends(s, Commit(t), s.db.tokens[hash].sub)
            || (s.txs[t].Sweeping? && s.txs[t].job == RevokeOne(hash))
            || (s.txs[t].Sweeping? && s.txs[t].job.Clean? && 0 != s.db.tokens[hash].expiresAt <= s.txs[t].job.now)
  {
    assert TxOk(s, s.txs[t]);
  }
}
