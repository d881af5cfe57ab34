/** The database statements and transactions that the handlers run, on tables changed in place. */
module Transactions {
  import opened Wrappers
  import opened ExpiryBatches
  import opened ExpiringRows
  import opened AccountIdentity
  import opened Records
  import opened RecordSafety
  import RateLimit

  class Database {
    const budgets: RateLimit.Budgets
    var logins: Logins
    var changes: Changes
    var tokens: Tokens
    var accounts: map<Sub, Account>
    var lastSub: int

    constructor (budgets: RateLimit.Budgets, start: State)
      ensures View() == start && this.budgets == budgets
    {
      this.budgets := budgets;
      logins, changes, tokens, accounts, lastSub := start.logins, start.changes, start.tokens, start.dir.accounts, start.dir.lastSub;
    }

    function View(): State
      reads this
    {
      State(logins, changes, tokens, Directory(accounts, lastSub))
    }

    ghost predicate Valid()
      reads this
    {
      Sane(View())
    }

    method Restore(s: State)
      modifies this
      ensures View() == s
    {
      logins, changes, tokens, accounts, lastSub := s.logins, s.changes, s.tokens, s.dir.accounts, s.dir.lastSub;
    }

    // The insertion, and then the trigger, which undoes it if the subject is not above the mark.
    method InsertAccount(sub: Sub, account: Account) returns (r: Result<Sub, InsertError>)
      modifies this`accounts, this`lastSub
      ensures match Insert(old(View()).dir, sub, account)
              case Ok(d) => r == Ok(sub) && Directory(accounts, lastSub) == d
              case Err(e) => r == Err(e) && Directory(accounts, lastSub) == old(View()).dir
    {
      if sub in accounts || InUse(Directory(accounts, lastSub), account.email) {
        return Err(Duplicate);
      }
      var saved := accounts;
      accounts := accounts[sub := account];
      if sub <= lastSub {
        accounts := saved;
        return Err(SubjectReused);
      }
      lastSub := sub;
      return Ok(sub);
    }

    method EnsureAccountByEmail(email: Email, authId: string) returns (r: Result<Sub, InsertError>)
      requires Valid()
      modifies this`accounts, this`lastSub
      ensures match Ensure(old(View()).dir, email, authId)
              case Ok((d, sub)) => r == Ok(sub) && Directory(accounts, lastSub) == d
              case Err(e) => r == Err(e)
    {
      if InUse(Directory(accounts, lastSub), email) {
        return Ok(Holder(Directory(accounts, lastSub), email));
      }
      r := InsertAccount(lastSub + 1, Account(email, authId));
    }

    // Delete the row that matches, and return it.
    method ConsumeLogin(email: Email, code: Hash, now: int) returns (found: bool)
      modifies this`logins
      ensures found == Redeem(old(logins), email, code, now).Some?
      ensures logins == ExpiringRows.Apply(old(logins), Consume(email, code, now, false))
    {
      found := email in logins && logins[email].secret == code && !Expired(logins[email], now);
      if found {
        logins := logins - {email};
      }
    }

    method ConsumeChange(sub: Sub, code: Hash, now: int) returns (found: Option<Email>)
      modifies this`changes
      ensures found == Redeem(old(changes), sub, code, now)
      ensures changes == ExpiringRows.Apply(old(changes), Consume(sub, code, now, false))
    {
      found := None;
      if sub in changes && changes[sub].secret == code && !Expired(changes[sub], now) {
        found := Some(changes[sub].data);
        changes := changes - {sub};
      }
    }

    method UpdateAccountEmail(sub: Sub, email: Email) returns (ok: bool)
      modifies this`accounts
      ensures ok == (sub !in old(accounts) || !Unavailable(old(View()).dir, sub, email))
      ensures Directory(accounts, lastSub) == match ChangeEmail(old(View()).dir, sub, email) case Some(d) => d case None => old(View()).dir
    {
      ok := sub !in accounts || !Unavailable(Directory(accounts, lastSub), sub, email);
      if ok && sub in accounts {
        accounts := accounts[sub := accounts[sub].(email := email)];
      }
    }

    // The login transaction: spend the code, find or create the account, give it its role.
    method VerifyLoginTx(email: Email, code: Hash, now: int, authId: string, roleFails: bool) returns (a: Answer)
      requires Valid()
      modifies this
      ensures Valid() && View() == After(old(View()), VerifyLogin(email, code, now, authId, roleFails))
      ensures a == Reply(old(View()), VerifyLogin(email, code, now, authId, roleFails))
    {
      AfterKeepsSane(View(), VerifyLogin(email, code, now, authId, roleFails));
      EnsureAlwaysSucceeds(View().dir, email, authId);
      var saved := View();
      var found := ConsumeLogin(email, code, now);
      if !found {
        return Invalid;
      }
      var sub := EnsureAccountByEmail(email, authId);
      if roleFails || sub.Err? {
        Restore(saved);
        return Failed;
      }
      return Subject(sub.value);
    }

    // The email-change transaction: spend the code, move the address, and undo both if it is taken.
    method ConfirmChangeTx(sub: Sub, code: Hash, now: int) returns (a: Answer)
      requires Valid()
      modifies this
      ensures Valid() && View() == After(old(View()), ConfirmChange(sub, code, now))
      ensures a == Reply(old(View()), ConfirmChange(sub, code, now))
    {
      AfterKeepsSane(View(), ConfirmChange(sub, code, now));
      var saved := View();
      var request := ConsumeChange(sub, code, now);
      if request.None? {
        return Invalid;
      }
      var ok := UpdateAccountEmail(sub, request.value);
      if !ok {
        Restore(saved);
        return Conflict;
      }
      return Done;
    }

    // Foreign keys take the account's challenge and sessions with it.
    method DeleteAccountStatement(sub: Sub)
      requires Valid()
      modifies this
      ensures Valid() && View() == After(old(View()), EndAccount(sub))
    {
      AfterKeepsSane(View(), EndAccount(sub));
      accounts := accounts - {sub};
      changes := changes - {sub};
      tokens := WithoutSub(tokens, sub);
    }

    method DeleteExpiredLogins(now: int, emails: set<Email>, fails: bool) returns (ok: bool)
      requires IsBatch(Due(logins, now), RECORD_BATCH, emails)
      modifies this`logins
      ensures ok == !fails && logins == if fails then old(logins) else ExpiringRows.Apply(old(logins), Sweep(now, emails))
    {
      if !fails {
        logins := logins - emails;
      }
      return !fails;
    }

    method DeleteExpiredChanges(now: int, subs: set<Sub>, fails: bool) returns (ok: bool)
      requires IsBatch(Due(changes, now), RECORD_BATCH, subs)
      modifies this`changes
      ensures ok == !fails && changes == if fails then old(changes) else ExpiringRows.Apply(old(changes), Sweep(now, subs))
    {
      if !fails {
        changes := changes - subs;
      }
      return !fails;
    }

    method DeleteExpiredTokens(now: int, hashes: set<Hash>, fails: bool) returns (ok: bool)
      requires IsBatch(Due(tokens, now), RECORD_BATCH, hashes)
      modifies this`tokens
      ensures ok == !fails && tokens == if fails then old(tokens) else ExpiringRows.Apply(old(tokens), Sweep(now, hashes))
    {
      if !fails {
        tokens := tokens - hashes;
      }
      return !fails;
    }

    method DeleteExpiredBudgets(now: int, ids: set<RateLimit.Id>, fails: bool) returns (ok: bool)
      requires IsBatch(RateLimit.Due(budgets.rows, now), RATE_LIMIT_BATCH, ids)
      modifies budgets
      ensures ok == !fails && budgets.rows == if fails then old(budgets.rows) else RateLimit.Apply(old(budgets.rows), RateLimit.Sweep(now, ids))
    {
      if !fails {
        budgets.DeleteExpired(now, ids);
      }
      return !fails;
    }

    // Four batches, each of which runs whether or not the others fail.
    method DeleteExpiredRecords(now: int, emails: set<Email>, subs: set<Sub>, hashes: set<Hash>, ids: set<RateLimit.Id>,
                                loginsFail: bool, changesFail: bool, tokensFail: bool, budgetsFail: bool) returns (ok: bool)
      requires IsBatch(Due(logins, now), RECORD_BATCH, emails) && IsBatch(Due(changes, now), RECORD_BATCH, subs)
      requires IsBatch(Due(tokens, now), RECORD_BATCH, hashes) && IsBatch(RateLimit.Due(budgets.rows, now), RATE_LIMIT_BATCH, ids)
      modifies this`logins, this`changes, this`tokens, budgets
      ensures ok <==> !loginsFail && !changesFail && !tokensFail && !budgetsFail
      ensures logins == if loginsFail then old(logins) else ExpiringRows.Apply(old(logins), Sweep(now, emails))
      ensures changes == if changesFail then old(changes) else ExpiringRows.Apply(old(changes), Sweep(now, subs))
      ensures tokens == if tokensFail then old(tokens) else ExpiringRows.Apply(old(tokens), Sweep(now, hashes))
      ensures budgets.rows == if budgetsFail then old(budgets.rows) else RateLimit.Apply(old(budgets.rows), RateLimit.Sweep(now, ids))
    {
      var first := DeleteExpiredLogins(now, emails, loginsFail);
      var second := DeleteExpiredChanges(now, subs, changesFail);
      var third := DeleteExpiredTokens(now, hashes, tokensFail);
      var fourth := DeleteExpiredBudgets(now, ids, budgetsFail);
      return first && second && third && fourth;
    }

    method UpsertLoginStatement(email: Email, code: Hash, expiresAt: int)
      requires Valid()
      modifies this`logins
      ensures Valid() && View() == After(old(View()), UpsertLogin(email, code, expiresAt))
    {
      logins := logins[email := Row(code, (), Some(expiresAt))];
    }

    // The foreign key refuses a challenge for an account that is gone.
    method UpsertChangeStatement(sub: Sub, newEmail: Email, code: Hash, expiresAt: int) returns (a: Answer)
      requires Valid()
      modifies this`changes
      ensures Valid() && View() == After(old(View()), UpsertChange(sub, newEmail, code, expiresAt))
      ensures a == Reply(old(View()), UpsertChange(sub, newEmail, code, expiresAt))
    {
      if sub !in accounts {
        return Failed;
      }
      changes := changes[sub := Row(code, newEmail, Some(expiresAt))];
      return Done;
    }

    // The authenticator's transaction: a new generation, and no refresh tokens.
    method RevokeAllTx(sub: Sub, authId: string)
      requires Valid()
      modifies this
      ensures Valid() && View() == After(old(View()), RevokeAll(sub, authId))
    {
      AfterKeepsSane(View(), RevokeAll(sub, authId));
      if sub in accounts {
        accounts := accounts[sub := accounts[sub].(authId := authId)];
        tokens := WithoutSub(tokens, sub);
      }
    }
  }
}
