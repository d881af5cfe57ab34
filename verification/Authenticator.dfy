/**
  The code of the authenticator, in program order, over the machine in Sessions. Other
  transactions may act between any two steps, unless the caller is alone.
 */
module Authenticator {
  import opened Wrappers
  import opened Subjects
  import opened Sessions
  import opened SessionSafety
  import Deadlock = SessionDeadlock

  datatype AuthError = InvalidIdentity | InvalidToken | ExpiredToken | Unavailable

  datatype Session = Session(access: Access, hash: Hash)
  datatype Claims = Claims(authId: AuthId, subject: string, expiresAt: int)

  datatype Outcome = Done | Absent | Blocked

  // What a committed sweep leaves behind.
  ghost predicate Effective(before: map<Hash, Sub>, s: State, job: Job) {
    match job
    case RevokeAll(sub, next) => HasGeneration(s.db, sub, next) && AllDead(before, s, sub)
    case DeleteAccount(sub) => sub !in s.db.accounts && AllDead(before, s, sub)
    case RevokeOne(hash) => hash !in s.db.tokens
    case Clean(_) => true
  }

  // The account has no refresh token, and those it ever had are used up.
  ghost predicate AllDead(before: map<Hash, Sub>, s: State, sub: Sub) {
    && (forall h :: h in s.db.tokens ==> s.db.tokens[h].sub != sub)
    && forall h :: h in before && before[h] == sub ==> Dead(s, h)
  }

  // Nothing issued to the account before is of any use after.
  ghost predicate SessionsOver(before: State, after: State, sub: Sub) {
    && AllDead(before.owner, after, sub)
    && forall access: Access, now :: access.sub == sub && access.authId in before.generated ==> !Verifies(after.db, access, now)
  }

  // An account that is gone has nothing left, and nothing on its way.
  lemma AbsentIsOver(before: State, after: State, sub: Sub)
    requires Inv(after) && Grown(before, after) && sub !in after.db.accounts
    ensures SessionsOver(before, after, sub)
  {
    forall h | h in before.owner && before.owner[h] == sub ensures Dead(after, h) {
      forall t | t in after.txs ensures after.txs[t].Inserting() != Some(h) {
        assert TxOk(after, after.txs[t]);
      }
    }
  }

  // Other accounts' rows are untouched.
  ghost predicate SameElsewhere(before: Db, after: Db, sub: Option<Sub>) {
    && before.accounts.Keys == after.accounts.Keys
    && (forall a :: a in before.accounts && Some(a) != sub ==> after.accounts[a] == before.accounts[a])
    && (forall h :: h in before.tokens && Some(before.tokens[h].sub) != sub ==> h in after.tokens && after.tokens[h] == before.tokens[h])
    && after.tokens.Keys <= before.tokens.Keys
  }

  // The rows after a sweep that nothing interferes with.
  function Swept(db: Db, job: Job): Db {
    var targets := Deadlock.AllTargets(db, job);
    Write(db, Sweeping(job, targets, targets))
  }

  lemma RevokeAllSparesOthers(db: Db, sub: Sub, next: AuthId)
    requires sub in db.accounts
    ensures var job := RevokeAll(sub, next);
            SameElsewhere(db, Swept(db, job), Some(sub))
  {
  }

  lemma RevokeOneRemovesOne(db: Db, hash: Hash)
    ensures Swept(db, RevokeOne(hash)) == db.(tokens := db.tokens - {hash})
  {
    assert db.tokens - ({hash} * db.tokens.Keys) == db.tokens - {hash};
  }

  function TxOf(act: Action): Option<TxId> {
    match act
    case CreateAccount(_, _) => None
    case _ => Some(act.t)
  }

  // Transaction t is as it was, and everything ever made is still remembered.
  ghost predicate Undisturbed(s: State, r: State, t: TxId) {
    && (t in s.txs <==> t in r.txs)
    && (t in s.txs ==> s.txs[t] == r.txs[t])
    && Grown(s, r)
  }

  ghost predicate Grown(s: State, r: State) {
    && (forall h :: h in s.owner ==> h in r.owner && r.owner[h] == s.owner[h])
    && s.generated <= r.generated
    && s.signed <= r.signed
  }

  lemma StepGrows(s: State, act: Action)
    requires Enabled(s, act)
    ensures Grown(s, Apply(s, act))
    ensures forall t :: TxOf(act) != Some(t) ==> (t in s.txs <==> t in Apply(s, act).txs)
    ensures forall t :: TxOf(act) != Some(t) && t in s.txs ==> Apply(s, act).txs[t] == s.txs[t]
  {
  }

  class Service {
    const accessTtl: int
    const refreshTtl: int
    var s: State

    ghost predicate Valid()
      reads this
    {
      Inv(s) && accessTtl >= 1 && refreshTtl >= 1
    }

    constructor (accessTtl: int, refreshTtl: int, start: State)
      requires accessTtl >= 1 && refreshTtl >= 1 && Init(start)
      ensures Valid() && s == start && this.accessTtl == accessTtl && this.refreshTtl == refreshTtl
    {
      this.accessTtl, this.refreshTtl, s := accessTtl, refreshTtl, start;
    }

    method Do(act: Action)
      requires Valid() && Enabled(s, act)
      modifies this
      ensures Valid() && s == Apply(old(s), act) && Grown(old(s), s)
    {
      StepKeepsInv(s, act);
      StepGrows(s, act);
      s := Apply(s, act);
    }

    method Interfere(t: TxId, alone: bool)
      requires Valid()
      modifies this
      ensures Valid() && Undisturbed(old(s), s, t)
      ensures alone ==> s == old(s)
    {
      var script: seq<Action> := *;
      if alone {
        return;
      }
      for i := 0 to |script|
        invariant Valid() && Undisturbed(old(s), s, t)
      {
        if TxOf(script[i]) != Some(t) && Enabled(s, script[i]) {
          StepGrows(s, script[i]);
          Do(script[i]);
        }
      }
    }

    // Give up: nothing this transaction did remains.
    method Rollback(t: TxId)
      requires Valid() && t in s.txs
      modifies this
      ensures Valid() && t !in s.txs && s.db == old(s).db && Grown(old(s), s)
    {
      Do(Abort(t));
    }

    // The row that a session signed at `now` by this transaction gets under `hash`.
    function Minted(tx: Tx, hash: Hash, now: int): Token
      requires tx.IssueLocked? || tx.RefreshConsumed?
    {
      match tx
      case IssueLocked(sub, authId) => Token(sub, authId, now + refreshTtl, hash)
      case RefreshConsumed(_, saved) => Token(saved.sub, saved.authId, now + refreshTtl, saved.root)
    }

    // Sign an access token, insert a refresh token, and commit.
    method Finish(t: TxId, alone: bool, now: int) returns (r: Result<Session, AuthError>)
      requires Valid() && t in s.txs && (s.txs[t].IssueLocked? || s.txs[t].RefreshConsumed?)
      modifies this
      ensures Valid() && t !in s.txs && Grown(old(s), s)
      ensures r.Err? ==> r.error == Unavailable && !alone
      ensures r.Ok? ==> r.value.hash !in old(s).owner
                        && Opened(s, r.value, Minted(old(s).txs[t], r.value.hash, now), now + accessTtl)
      ensures r.Ok? && old(s).txs[t].RefreshConsumed? ==> Dead(s, old(s).txs[t].hash)
      ensures r.Ok? && alone ==> s.db == Write(old(s).db, Signed(old(s).txs[t], r.value.hash, now))
    {
      var session := MakeTokens(t, now);
      var up := StillUp(t, alone);
      if !up {
        return Err(Unavailable);
      }
      CommitTokens(t, session, s.txs[t].token, now + accessTtl);
      return Ok(session);
    }

    // Others act; the database may then fail this transaction.
    method StillUp(t: TxId, alone: bool) returns (up: bool)
      requires Valid() && t in s.txs
      modifies this
      ensures Valid() && Grown(old(s), s)
      ensures up ==> Undisturbed(old(s), s, t)
      ensures !up ==> t !in s.txs
      ensures alone ==> up && s == old(s)
    {
      Interfere(t, alone);
      up := *;
      if alone || up {
        return true;
      }
      Rollback(t);
    }

    method MakeTokens(t: TxId, now: int) returns (session: Session)
      requires Valid() && t in s.txs && (s.txs[t].IssueLocked? || s.txs[t].RefreshConsumed?)
      modifies this
      ensures Valid() && Grown(old(s), s) && s.db == old(s).db && session.hash !in old(s).owner
      ensures s.txs == old(s).txs[t := Signed(old(s).txs[t], session.hash, now)]
      ensures var token := Minted(old(s).txs[t], session.hash, now);
              session.access == Access(token.sub, token.authId, now + accessTtl) && session.access in s.signed
    {
      ghost var _ := Deadlock.UnusedHash(s.owner.Keys);
      var newHash: Hash :| newHash !in s.owner;
      var token := Minted(s.txs[t], newHash, now);
      Do(Sign(t, newHash, now + accessTtl, now + refreshTtl));
      return Session(Access(token.sub, token.authId, now + accessTtl), newHash);
    }

    function Signed(tx: Tx, hash: Hash, now: int): Tx
      requires tx.IssueLocked? || tx.RefreshConsumed?
    {
      if tx.IssueLocked? then IssueSigned(hash, Minted(tx, hash, now))
      else RefreshSigned(tx.hash, tx.saved, hash, Minted(tx, hash, now))
    }

    lemma SigningReplaces(db: Db, hash: Hash, newHash: Hash, now: int)
      requires hash in db.tokens
      ensures Write(db, Signed(RefreshConsumed(hash, db.tokens[hash]), newHash, now)) == Replaced(db, hash, newHash, now + refreshTtl)
    {
    }

    method CommitTokens(t: TxId, session: Session, token: Token, accessExpiry: int)
      requires Valid() && t in s.txs && (s.txs[t].IssueSigned? || s.txs[t].RefreshSigned?)
      requires s.txs[t].newHash == session.hash && s.txs[t].token == token
      requires session.access == Access(token.sub, token.authId, accessExpiry) && session.access in s.signed
      modifies this
      ensures Valid() && Grown(old(s), s) && t !in s.txs && s.db == Write(old(s).db, old(s).txs[t])
      ensures Opened(s, session, token, accessExpiry)
      ensures old(s).txs[t].RefreshSigned? ==> Dead(s, old(s).txs[t].hash)
    {
      assert TxOk(s, s.txs[t]);
      if s.txs[t].RefreshSigned? {
        ExchangeKills(s, Commit(t), s.txs[t].hash);
      }
      Do(Commit(t));
    }

    method Issue(t: TxId, subject: string, alone: bool, now: int) returns (r: Result<Session, AuthError>)
      requires Valid() && t !in s.txs
      modifies this
      ensures Valid() && t !in s.txs
      ensures r.Ok? ==> ParseSubject(subject) == Some(r.value.access.sub) && r.value.access.authId != ""
                        && r.value.hash !in old(s).owner
                        && Opened(s, r.value, Token(r.value.access.sub, r.value.access.authId, now + refreshTtl, r.value.hash),
                                  now + accessTtl)
      ensures alone && old(s).txs == map[] ==>
                var sub := ParseSubject(subject);
                (r.Ok? <==> sub.Some? && sub.value in old(s).db.accounts && old(s).db.accounts[sub.value] != "")
                && (r.Err? ==> r.error == InvalidIdentity && s.db == old(s).db)
                && (r.Ok? ==> s.db == old(s).db.(tokens := old(s).db.tokens[r.value.hash := s.db.tokens[r.value.hash]]))
    {
      var sub := ParseSubject(subject);
      if sub.None? {
        return Err(InvalidIdentity);
      }
      var locked := LockForIssuing(t, sub.value, alone);
      if locked.Err? {
        return Err(locked.error);
      }
      r := Finish(t, alone, now);
    }

    method LockForIssuing(t: TxId, sub: Sub, alone: bool) returns (r: Result<AuthId, AuthError>)
      requires Valid() && t !in s.txs
      modifies this
      ensures Valid() && Grown(old(s), s)
      ensures r.Ok? ==> t in s.txs && s.txs[t] == IssueLocked(sub, r.value) && r.value != ""
      ensures r.Err? ==> t !in s.txs
      ensures alone ==> s.db == old(s).db
      ensures alone && old(s).txs == map[] ==>
                && (r.Ok? <==> sub in s.db.accounts && s.db.accounts[sub] != "")
                && (r.Err? ==> r.error == InvalidIdentity)
    {
      Do(StartIssue(t, sub));
      Interfere(t, alone);
      if !s.AccountFree(t, sub) {
        Rollback(t);
        return Err(Unavailable);
      }
      Do(LockForIssue(t));
      if t !in s.txs {
        return Err(InvalidIdentity);
      }
      var authId := s.txs[t].authId;
      Interfere(t, alone);
      return Ok(authId);
    }

    // `presented` is the hash of the refresh token handed in, unless that is blank.
    method Refresh(t: TxId, presented: Option<Hash>, alone: bool, now: int, later: int)
      returns (r: Result<Session, AuthError>)
      requires Valid() && t !in s.txs
      modifies this
      ensures Valid() && t !in s.txs
      ensures r.Ok? ==> Refusal(old(s).db, presented, now, later) == None
                        && r.value.hash !in old(s).owner && Dead(s, presented.value)
      ensures r.Ok? ==> var was := old(s).db.tokens[presented.value];
                        Opened(s, r.value, Token(was.sub, was.authId, later + refreshTtl, was.root), later + accessTtl)
      ensures alone && old(s).txs == map[] ==> (r.Ok? <==> Refusal(old(s).db, presented, now, later) == None)
      ensures alone && old(s).txs == map[] && r.Ok? ==> s.db == Replaced(old(s).db, presented.value, r.value.hash, later + refreshTtl)
      ensures alone && old(s).txs == map[] && r.Err? ==> s.db == old(s).db
      ensures alone && old(s).txs == map[] && r.Err? ==> Some(r.error) == Refusal(old(s).db, presented, now, later)
    {
      var saved := ReadToken(t, presented, now);
      if saved.Err? {
        return Err(saved.error);
      }
      r := Exchange(t, presented.value, saved.value, alone, later);
    }

    // Discover the token's account outside the transaction.
    method ReadToken(t: TxId, presented: Option<Hash>, now: int) returns (r: Result<Token, AuthError>)
      requires Valid() && t !in s.txs
      modifies this
      ensures Valid() && Grown(old(s), s) && s.db == old(s).db
      ensures r.Ok? <==> presented.Some? && presented.value in s.db.tokens && !Expired(s.db.tokens[presented.value], now)
      ensures r.Ok? ==> r.value == s.db.tokens[presented.value] && s.txs == old(s).txs[t := RefreshRead(presented.value, r.value)]
                        && HasGeneration(s.db, r.value.sub, r.value.authId)
      ensures r.Err? ==> s.txs == old(s).txs
                         && r.error == if presented.Some? && presented.value in s.db.tokens then ExpiredToken else InvalidToken
    {
      if presented.None? || presented.value !in s.db.tokens {
        return Err(InvalidToken);
      }
      var saved := s.db.tokens[presented.value];
      if Expired(saved, now) {
        return Err(ExpiredToken);
      }
      Do(Read(t, presented.value, now));
      return Ok(saved);
    }

    // The transaction of Refresh, after the token was read outside it.
    method Exchange(t: TxId, hash: Hash, saved: Token, alone: bool, now: int) returns (r: Result<Session, AuthError>)
      requires Valid() && t in s.txs && s.txs[t] == RefreshRead(hash, saved)
      modifies this
      ensures Valid() && t !in s.txs && Grown(old(s), s)
      ensures r.Ok? ==> !Expired(saved, now) && saved.authId != "" && r.value.hash !in old(s).owner && Dead(s, hash)
                        && Opened(s, r.value, Token(saved.sub, saved.authId, now + refreshTtl, saved.root), now + accessTtl)
      ensures alone && old(s).txs.Keys == {t} && HasGeneration(old(s).db, saved.sub, saved.authId) ==>
                (r.Ok? <==> saved.authId != "" && hash in old(s).db.tokens && !Expired(saved, now))
                && (r.Err? ==> s.db == old(s).db)
                && (r.Err? ==> r.error == if saved.authId != "" && hash in old(s).db.tokens then ExpiredToken else InvalidToken)
                && (r.Ok? ==> s.db == Replaced(old(s).db, hash, r.value.hash, now + refreshTtl))
    {
      var locked := LockForRefreshing(t, saved, alone);
      if locked.Err? {
        return Err(locked.error);
      }
      var consumed := ConsumeGiven(t, hash, saved, alone, now);
      if consumed.Err? {
        return Err(consumed.error);
      }
      ghost var db := s.db;
      assert alone && old(s).txs.Keys == {t} && HasGeneration(old(s).db, saved.sub, saved.authId) ==>
               hash in db.tokens && db.tokens[hash] == saved && db == old(s).db;
      r := Finish(t, alone, now);
      if r.Ok? && hash in db.tokens && db.tokens[hash] == saved {
        SigningReplaces(db, hash, r.value.hash, now);
      }
    }

    // Match the lock order of Issue and RevokeAll: account, then refresh token.
    method LockForRefreshing(t: TxId, saved: Token, alone: bool) returns (r: Result<(), AuthError>)
      requires Valid() && t in s.txs && s.txs[t].RefreshRead? && s.txs[t].saved == saved
      modifies this
      ensures Valid() && Grown(old(s), s)
      ensures r.Ok? ==> t in s.txs && s.txs[t] == RefreshLocked(old(s).txs[t].hash, saved) && saved.authId != ""
      ensures r.Err? ==> t !in s.txs
      ensures alone ==> s.db == old(s).db
      ensures alone && old(s).txs.Keys == {t} ==>
                s.txs.Keys <= {t}
                && (r.Ok? <==> saved.authId != "" && HasGeneration(s.db, saved.sub, saved.authId))
                && (r.Err? ==> r.error == InvalidToken)
    {
      Interfere(t, alone);
      if !s.AccountFree(t, saved.sub) {
        Rollback(t);
        return Err(Unavailable);
      }
      Do(LockForRefresh(t));
      if t !in s.txs {
        return Err(InvalidToken);
      }
      return Ok(());
    }

    // The token may have been used, or have expired, while this transaction waited.
    method ConsumeGiven(t: TxId, hash: Hash, saved: Token, alone: bool, now: int) returns (r: Result<(), AuthError>)
      requires Valid() && t in s.txs && s.txs[t] == RefreshLocked(hash, saved)
      modifies this
      ensures Valid() && Grown(old(s), s)
      ensures r.Ok? ==> t in s.txs && s.txs[t] == RefreshConsumed(hash, saved) && !Expired(saved, now)
      ensures r.Err? ==> t !in s.txs
      ensures alone ==> s.db == old(s).db
      ensures alone && old(s).txs.Keys == {t} ==>
                (r.Ok? <==> hash in s.db.tokens && !Expired(saved, now))
                && (r.Err? ==> r.error == if hash in s.db.tokens then ExpiredToken else InvalidToken)
    {
      Interfere(t, alone);
      if !s.TokenFree(t, hash) {
        Rollback(t);
        return Err(Unavailable);
      }
      assert TxOk(s, s.txs[t]);
      var expired := hash in s.db.tokens && Expired(s.db.tokens[hash], now);
      Do(Consume(t, now));
      if t !in s.txs {
        return Err(if expired then ExpiredToken else InvalidToken);
      }
      return Ok(());
    }

    // A transaction that locks its account, then sweeps token rows, and commits.
    method RunJob(t: TxId, job: Job, alone: bool) returns (outcome: Outcome)
      requires Valid() && t !in s.txs && !job.Clean?
      requires job.RevokeAll? ==> job.next !in s.generated && job.next != ""
      modifies this
      ensures Valid() && t !in s.txs && Grown(old(s), s)
      ensures outcome == Done ==> Effective(old(s).owner, s, job)
      ensures outcome == Absent ==> JobAccount(job).Some? && JobAccount(job).value !in s.db.accounts
      ensures alone && old(s).txs == map[] ==>
                && outcome != Blocked
                && (outcome == Absent <==> JobAccount(job).Some? && JobAccount(job).value !in old(s).db.accounts)
                && (outcome == Absent ==> s.db == old(s).db)
                && (outcome == Done ==> s.db == Swept(old(s).db, job))
    {
      var begun := BeginJob(t, job, alone);
      if begun != Done {
        return begun;
      }
      Interfere(t, alone);
      outcome := SweepAndCommit(t, job, alone);
    }

    method BeginJob(t: TxId, job: Job, alone: bool) returns (outcome: Outcome)
      requires Valid() && t !in s.txs && !job.Clean?
      requires job.RevokeAll? ==> job.next !in s.generated && job.next != ""
      modifies this
      ensures Valid() && Grown(old(s), s)
      ensures outcome == Done ==> t in s.txs && s.txs[t] == JobLocked(job)
      ensures outcome != Done ==> t !in s.txs
      ensures outcome == Absent ==> JobAccount(job).Some? && JobAccount(job).value !in s.db.accounts
      ensures alone ==> s.db == old(s).db
      ensures alone && old(s).txs == map[] ==>
                && s.txs.Keys <= {t} && outcome != Blocked
                && (outcome == Absent <==> JobAccount(job).Some? && JobAccount(job).value !in old(s).db.accounts)
    {
      Do(StartJob(t, job));
      Interfere(t, alone);
      if JobAccount(job).Some? && !s.AccountFree(t, JobAccount(job).value) {
        Rollback(t);
        return Blocked;
      }
      Do(LockForJob(t));
      return if t in s.txs then Done else Absent;
    }

    method SweepAndCommit(t: TxId, job: Job, alone: bool) returns (outcome: Outcome)
      requires Valid() && t in s.txs && s.txs[t] == JobLocked(job) && !job.Clean?
      modifies this
      ensures Valid() && t !in s.txs && Grown(old(s), s)
      ensures outcome == Done ==> Effective(old(s).owner, s, job)
      ensures outcome != Absent
      ensures alone && old(s).txs.Keys == {t} ==> outcome == Done && s.db == Swept(old(s).db, job)
    {
      var targets := Deadlock.AllTargets(s.db, job);
      Do(Sweep(t, targets));
      var swept := SweepAll(t, job, targets, alone);
      if !swept {
        return Blocked;
      }
      CommitJob(t, job);
      return Done;
    }

    // Lock the rows one at a time, in whatever order the database meets them.
    method SweepAll(t: TxId, job: Job, targets: set<Hash>, alone: bool) returns (done: bool)
      requires Valid() && t in s.txs && s.txs[t] == Sweeping(job, targets, {})
      modifies this
      ensures Valid() && Grown(old(s), s)
      ensures done ==> t in s.txs && s.txs[t] == Sweeping(job, targets, targets)
      ensures !done ==> t !in s.txs
      ensures alone || targets == {} ==> s.db == old(s).db
      ensures alone && old(s).txs.Keys == {t} ==> done
    {
      var swept: set<Hash> := {};
      while swept != targets
        invariant Valid() && Grown(old(s), s)
        invariant swept <= targets && t in s.txs && s.txs[t] == Sweeping(job, targets, swept)
        invariant alone || targets == {} ==> s.db == old(s).db
        invariant alone && old(s).txs.Keys == {t} ==> s.txs.Keys == {t}
        decreases targets - swept
      {
        var left := targets - swept;
        assert left != {} by {
          assert (forall h :: h in targets ==> h in swept || h in left) && !(targets <= swept);
        }
        var h :| h in left;
        var locked := SweepNext(t, job, targets, swept, h, alone);
        if !locked {
          return false;
        }
        swept := swept + {h};
      }
      return true;
    }

    method SweepNext(t: TxId, job: Job, targets: set<Hash>, swept: set<Hash>, h: Hash, alone: bool) returns (locked: bool)
      requires Valid() && t in s.txs && s.txs[t] == Sweeping(job, targets, swept) && h in targets
      modifies this
      ensures Valid() && Grown(old(s), s)
      ensures locked ==> t in s.txs && s.txs[t] == Sweeping(job, targets, swept + {h})
      ensures !locked ==> t !in s.txs
      ensures alone ==> s.db == old(s).db
      ensures alone && old(s).txs.Keys == {t} ==> locked && s.txs.Keys == {t}
    {
      Interfere(t, alone);
      if !s.TokenFree(t, h) {
        Rollback(t);
        return false;
      }
      Do(SweepOne(t, h));
      return true;
    }

    method CommitJob(t: TxId, job: Job)
      requires Valid() && t in s.txs && s.txs[t].Sweeping? && s.txs[t].job == job && Ready(s.txs[t]) && !job.Clean?
      requires job.RevokeOne? ==> job.hash in s.txs[t].targets || job.hash !in s.db.tokens
      modifies this
      ensures Valid() && t !in s.txs && Grown(old(s), s) && s.db == Write(old(s).db, old(s).txs[t])
      ensures Effective(old(s).owner, s, job)
    {
      assert TxOk(s, s.txs[t]);
      if JobAccount(job).Some? {
        RevocationTakesEffect(s, Commit(t), JobAccount(job).value);
      }
      Do(Commit(t));
    }

    // Rotate instead of clearing, so that access tokens already out stop verifying too.
    method RevokeAll(t: TxId, subject: string, alone: bool) returns (r: Result<(), AuthError>)
      requires Valid() && t !in s.txs
      modifies this
      ensures Valid() && t !in s.txs
      ensures r.Ok? ==> ParseSubject(subject).Some?
      ensures r.Ok? ==> Grown(old(s), s) && SessionsOver(old(s), s, ParseSubject(subject).value)
      ensures alone && old(s).txs == map[] ==>
                && (r.Ok? <==> ParseSubject(subject).Some?)
                && SameElsewhere(old(s).db, s.db, if r.Ok? then ParseSubject(subject) else None)
    {
      var sub := ParseSubject(subject);
      if sub.None? {
        return Err(InvalidIdentity);
      }
      ghost var _ := Deadlock.UnusedHash(s.generated);
      var next: AuthId :| next !in s.generated && next != "";
      if sub.value in s.db.accounts {
        RevokeAllSparesOthers(s.db, sub.value, next);
      }
      var outcome := RunJob(t, Sessions.RevokeAll(sub.value, next), alone);
      if outcome == Blocked {
        return Err(Unavailable);
      }
      if outcome == Absent {
        AbsentIsOver(old(s), s, sub.value);
      }
      return Ok(());
    }

    method Revoke(t: TxId, presented: Option<Hash>, alone: bool) returns (r: Result<(), AuthError>)
      requires Valid() && t !in s.txs
      modifies this
      ensures Valid() && t !in s.txs
      ensures r.Ok? ==> presented.Some? && presented.value !in s.db.tokens
      ensures alone && old(s).txs == map[] ==>
                (r.Ok? <==> presented.Some?) &&
                s.db == if presented.Some? then old(s).db.(tokens := old(s).db.tokens - {presented.value}) else old(s).db
    {
      if presented.None? {
        return Err(InvalidToken);
      }
      RevokeOneRemovesOne(s.db, presented.value);
      var outcome := RunJob(t, RevokeOne(presented.value), alone);
      if outcome == Blocked {
        return Err(Unavailable);
      }
      return Ok(());
    }

    // Deleting an account ends its sessions first, in a transaction of their own.
    method RemoveAccount(t: TxId, subject: string, alone: bool) returns (r: Result<(), AuthError>)
      requires Valid() && t !in s.txs
      modifies this
      ensures Valid() && t !in s.txs
      ensures r.Ok? ==> ParseSubject(subject).Some? && ParseSubject(subject).value !in s.db.accounts
                        && SessionsOver(old(s), s, ParseSubject(subject).value)
    {
      r := RevokeAll(t, subject, alone);
      if r.Err? {
        return;
      }
      var sub := ParseSubject(subject).value;
      var outcome := RunJob(t, DeleteAccount(sub), alone);
      if outcome == Blocked {
        return Err(Unavailable);
      }
      AbsentIsOver(old(s), s, sub);
    }

    // The signature check is foreign; its outcome is `signatureHolds`.
    method Verify(claims: Claims, signatureHolds: bool, now: int) returns (r: Result<Sub, AuthError>)
      ensures r.Ok? <==>
                && signatureHolds && 0 < claims.expiresAt && now < claims.expiresAt && claims.authId != ""
                && exists sub: Sub :: ParseSubject(claims.subject) == Some(sub) && sub in s.db.accounts && s.db.accounts[sub] == claims.authId
      ensures r.Ok? ==> ParseSubject(claims.subject) == Some(r.value)
      ensures r.Ok? ==> Verifies(s.db, Access(r.value, claims.authId, claims.expiresAt), now)
      ensures r.Err? ==> r.error == if signatureHolds && claims.expiresAt <= now then ExpiredToken else InvalidToken
    {
      if !signatureHolds {
        return Err(InvalidToken);
      }
      if claims.expiresAt <= now {
        return Err(ExpiredToken);
      }
      if claims.authId == "" || claims.expiresAt <= 0 {
        return Err(InvalidToken);
      }
      var sub := ParseSubject(claims.subject);
      if sub.None? || sub.value !in s.db.accounts || s.db.accounts[sub.value] != claims.authId {
        return Err(InvalidToken);
      }
      return Ok(sub.value);
    }
  }

  // Why Refresh refuses a token, if it does: it must be a row, unexpired both times it is looked
  // at, of an account with a generation.
  ghost function Refusal(db: Db, presented: Option<Hash>, now: int, later: int): Option<AuthError> {
    if presented.None? || presented.value !in db.tokens then Some(InvalidToken)
    else
      var Token(_, authId, expiresAt, _) := db.tokens[presented.value];
      if expiresAt != 0 && expiresAt <= now then Some(ExpiredToken)
      else if authId == "" then Some(InvalidToken)
      else if expiresAt != 0 && expiresAt <= later then Some(ExpiredToken)
      else None
  }

  // The rows once a token is exchanged for another of the same session that lives until `expiresAt`.
  ghost function Replaced(db: Db, hash: Hash, newHash: Hash, expiresAt: int): Db
    requires hash in db.tokens
  {
    var was := db.tokens[hash];
    Db(db.accounts, (db.tokens - {hash})[newHash := Token(was.sub, was.authId, expiresAt, was.root)])
  }

  // What one Refresh hands out the next one takes, for as long as a token lives, and what it was
  // handed is refused.
  lemma RefreshedTokensRefresh(db: Db, hash: Hash, newHash: Hash, now: int, later: int, ttl: int, next: int, last: int)
    requires Refusal(db, Some(hash), now, later) == None && newHash !in db.tokens
    ensures var after := Replaced(db, hash, newHash, later + ttl);
            && (Refusal(after, Some(newHash), next, last) == None <==> later + ttl == 0 || (next < later + ttl && last < later + ttl))
            && Refusal(after, Some(hash), next, last) == Some(InvalidToken)
  {
  }

  // The session is live: its refresh token is a row and its access token's generation is current.
  ghost predicate Opened(s: State, session: Session, token: Token, accessExpiry: int) {
    && session.hash in s.db.tokens && s.db.tokens[session.hash] == token
    && session.access == Access(token.sub, token.authId, accessExpiry)
    && session.access in s.signed
    && HasGeneration(s.db, token.sub, token.authId)
  }
}
