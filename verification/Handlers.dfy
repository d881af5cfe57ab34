/**
  The account and login handlers in program order over the machine in HandlerRuns. Other calls may
  act between any two steps, unless the call is alone, and every statement may fail.
 */
module Handlers {
  import opened Wrappers
  import opened Decimal
  import opened ExpiryBatches
  import ExpiringRows
  import A = AccountIdentity
  import opened OtpBudgets
  import opened HandlerRuns
  import B = RateLimit
  import R = Records
  import RecordSafety
  import SessionDeadlock

  const OTP_LIFETIME: int := 600

  // What a client sees.
  datatype Response =
    | NoContent
    | LoggedIn(sub: A.Sub)
    | Limited(retryAfter: string)
    | BadRequest
    | NotFound
    | Unauthorized
    | EmailTaken
    | ServerError
    | BadGateway

  // What goes wrong outside the code's control, if anything.
  datatype Fault =
    | NoFault
    | FirstBudget
    | SecondBudget
    | Load
    | Code
    | Store
    | Mail
    | Role
    | Session
    | Revocation
    | Deletion

  function Refuse(v: Verdict): Response {
    if v.Limited? then Response.Limited(v.retryAfter) else ServerError
  }

  // ----- cleanup and verdicts

  // What a budget decides: a window that is running and used up denies, to its end.
  function Decision(rows: B.Table, purpose: Purpose, budget: Budget, key: string, now: int): Verdict {
    var id := B.Id(Scope(purpose, budget), key);
    if id !in rows || rows[id].expiresAt <= now || rows[id].requests < rows[id].maxRequests then Allowed
    else Verdict.Limited(FormatInt(rows[id].expiresAt - now))
  }

  // The row a request leaves: a new window of a minute for one code or of ten minutes for five, or one
  // more in the window that is running, up to one over its limit.
  function Charged(rows: B.Table, purpose: Purpose, budget: Budget, key: string, now: int): B.Bucket {
    var id := B.Id(Scope(purpose, budget), key);
    if id in rows && now < rows[id].expiresAt then
      if rows[id].requests > rows[id].maxRequests then rows[id] else rows[id].(requests := rows[id].requests + 1)
    else if budget.IssueMinute? then B.Bucket(now, 1, 1, now + 60)
    else B.Bucket(now, 5, 1, now + 600)
  }

  lemma ChargeDecides(rows: B.Table, purpose: Purpose, budget: Budget, key: string, now: int)
    ensures var op := Charge(purpose, budget, key, now);
            && VerdictOf(B.Answer(rows, op)) == Decision(rows, purpose, budget, key, now)
            && B.Apply(rows, op) == rows[B.Id(Scope(purpose, budget), key) := Charged(rows, purpose, budget, key, now)]
  {
  }

  // What a refused call answers.
  ghost predicate Refused(v: Verdict, r: Response) {
    if v.Limited? then r == Response.Limited(v.retryAfter) else r == ServerError
  }

  // Rows of `after` are those of `before`, but for expired ones.
  ghost predicate OnlyExpiredGone(before: B.Table, after: B.Table, now: int) {
    && (forall id :: id in after ==> id in before && after[id] == before[id])
    && (forall id :: id in before && id !in after ==> before[id].expiresAt <= now)
  }

  // A budget's row, unless it does not matter any more.
  ghost predicate SameBudget(before: B.Table, after: B.Table, id: B.Id, now: int) {
    B.Row(after, id) == B.Row(before, id) || (id !in after && before[id].expiresAt <= now)
  }

  // What has been cleaned up changes neither a verdict nor the row that a charge leaves.
  lemma SameDecision(before: B.Table, after: B.Table, purpose: Purpose, budget: Budget, key: string, earlier: int, now: int)
    requires SameBudget(before, after, B.Id(Scope(purpose, budget), key), earlier) && earlier <= now
    ensures Decision(after, purpose, budget, key, now) == Decision(before, purpose, budget, key, now)
    ensures Charged(after, purpose, budget, key, now) == Charged(before, purpose, budget, key, now)
  {
  }

  lemma SameBudgetLater(before: B.Table, middle: B.Table, after: B.Table, id: B.Id, earlier: int, now: int)
    requires SameBudget(before, middle, id, earlier) && SameBudget(middle, after, id, now) && earlier <= now
    ensures SameBudget(before, after, id, now)
  {
  }

  lemma BatchIsExpired(rows: B.Table, now: int, gone: set<B.Id>)
    requires IsBatch(B.Due(rows, now), RATE_LIMIT_BATCH, gone)
    ensures OnlyExpiredGone(rows, rows - gone, now)
  {
    assert forall id :: id in gone ==> id in B.Due(rows, now);
  }

  // What both budgets for issuing a code decide.
  function IssueDecision(rows: B.Table, purpose: Purpose, key: string, first: int, second: int, fault: Fault): Verdict {
    if fault.FirstBudget? then Unavailable
    else if Decision(rows, purpose, IssueMinute, key, first) != Allowed then Decision(rows, purpose, IssueMinute, key, first)
    else if fault.SecondBudget? then Unavailable
    else Decision(rows, purpose, IssueWindow, key, second)
  }

  // What the budget for trying a code decides.
  function TryDecision(rows: B.Table, purpose: Purpose, key: string, now: int, fault: Fault): Verdict {
    if fault.FirstBudget? then Unavailable else Decision(rows, purpose, Verify, key, now)
  }

  function CallOf(act: Action): Option<CallId> {
    match act
    case Ask(call, _, _, _, _) => Some(call)
    case Use(call, _) => Some(call)
    case GiveUp(call) => Some(call)
    case _ => None
  }

  // This call's pass is as it was, and time has not gone back.
  ghost predicate Undisturbed(s: State, r: State, call: CallId) {
    && (call in s.passes <==> call in r.passes)
    && (call in s.passes ==> r.passes[call] == s.passes[call])
    && s.clock <= r.clock
  }

  lemma OthersLeaveMyPass(s: State, act: Action, call: CallId)
    requires R.Sane(s.records) && CallOf(act) != Some(call)
    ensures Undisturbed(s, Apply(s, act), call)
  {
  }

  class Server {
    var s: State

    ghost predicate Valid()
      reads this
    {
      R.Sane(s.records)
    }

    constructor (records: R.State, now: int)
      requires R.Sane(records)
      ensures Valid() && Init(s) && s.records == records
    {
      s := State(map[], records, map[], now);
    }

    method Do(act: Action)
      requires Valid() && Enabled(s, act)
      modifies this
      ensures Valid() && Step(old(s), act, s)
    {
      ApplyKeepsSane(s, act);
      s := Apply(s, act);
    }

    // Other calls and cleanup; nothing of theirs is later than `until`, if that is given.
    method Interfere(call: CallId, alone: bool, until: Option<int>)
      requires Valid() && (until.Some? ==> s.clock <= until.value)
      modifies this
      ensures Valid() && Undisturbed(old(s), s, call) && (until.Some? ==> s.clock <= until.value)
      ensures alone ==> s == old(s)
    {
      var script: seq<Action> := *;
      if alone {
        return;
      }
      for i := 0 to |script|
        invariant Valid() && Undisturbed(old(s), s, call) && (until.Some? ==> s.clock <= until.value)
      {
        if CallOf(script[i]) != Some(call) && Enabled(s, script[i]) && (until.Some? ==> Apply(s, script[i]).clock <= until.value) {
          OthersLeaveMyPass(s, script[i], call);
          Do(script[i]);
        }
      }
    }

    method Now() returns (now: int)
      ensures s.clock <= now
    {
      now := *;
      if now < s.clock {
        now := s.clock;
      }
    }

    method NewAuthId() returns (authId: string)
      ensures authId != ""
    {
      authId := *;
      if authId == "" {
        authId := "0";
      }
    }

    method CleanUp(now: int)
      requires Valid() && s.clock <= now
      modifies this
      ensures Valid() && s.records == old(s).records && s.passes == old(s).passes && s.clock == now
      ensures OnlyExpiredGone(old(s).rows, s.rows, now)
    {
      ghost var some := BatchExists(B.Due(s.rows, now), RATE_LIMIT_BATCH);
      var gone: set<B.Id> :| IsBatch(B.Due(s.rows, now), RATE_LIMIT_BATCH, gone);
      BatchIsExpired(s.rows, now, gone);
      Do(CleanBudgets(now, gone));
    }

    // Leave without the pass, if the call has one.
    method BreakOff(call: CallId)
      requires Valid()
      modifies this
      ensures Valid() && call !in s.passes && s.rows == old(s).rows && s.records == old(s).records && s.clock == old(s).clock
    {
      if call in s.passes {
        Do(GiveUp(call));
      }
    }

    // The call may ask this budget now.
    ghost predicate MayAsk(call: CallId, purpose: Purpose, budget: Budget, key: string)
      reads this
    {
      if budget.IssueWindow? then
        call in s.passes && s.passes[call] == Pass(purpose, IssueMinute, key, s.passes[call].at)
      else call !in s.passes
    }

    // Clean up, count the request, and decide by the row it leaves.
    method AllowRequest(call: CallId, purpose: Purpose, budget: Budget, key: string, alone: bool, fails: bool)
        returns (v: Verdict, at: int)
      requires Valid() && MayAsk(call, purpose, budget, key)
      modifies this
      ensures Valid() && old(s).clock <= at <= s.clock
      ensures v == Allowed <==> call in s.passes
      ensures v == Allowed ==> s.passes[call] == Pass(purpose, budget, key, at)
      ensures fails ==> v == Unavailable
      ensures alone ==> s.records == old(s).records
      ensures alone && !fails ==> v == Decision(old(s).rows, purpose, budget, key, at)
      ensures alone && !fails ==> B.Row(s.rows, B.Id(Scope(purpose, budget), key)) == Some(Charged(old(s).rows, purpose, budget, key, at))
      ensures alone ==> forall id :: (!fails && id == B.Id(Scope(purpose, budget), key)) || SameBudget(old(s).rows, s.rows, id, at)
    {
      Interfere(call, alone, None);
      at := Now();
      CleanUp(at);
      if fails {
        BreakOff(call);
        return Unavailable, at;
      }
      Interfere(call, alone, Some(at));
      ghost var cleaned := s.rows;
      ChargeDecides(s.rows, purpose, budget, key, at);
      Do(Ask(call, purpose, budget, key, at));
      if alone {
        SameDecision(old(s).rows, cleaned, purpose, budget, key, at, at);
      }
      var row := s.rows[B.Id(Scope(purpose, budget), key)];
      v := VerdictOf(Ok(B.RetryAfter(row, at)));
    }

    // The second budget is asked only if the first lets the call through.
    method AllowIssuance(call: CallId, purpose: Purpose, key: string, alone: bool, fault: Fault)
        returns (v: Verdict, first: int, second: int)
      requires Valid() && call !in s.passes
      modifies this
      ensures Valid() && old(s).clock <= first <= second <= s.clock
      ensures v == Allowed <==> call in s.passes
      ensures v == Allowed ==> s.passes[call] == Pass(purpose, IssueWindow, key, second)
      ensures alone ==> s.records == old(s).records
      ensures alone ==> v == IssueDecision(old(s).rows, purpose, key, first, second, fault)
      ensures alone ==> var id := B.Id(Scope(purpose, IssueWindow), key);
                        if !fault.FirstBudget? && !fault.SecondBudget? && Decision(old(s).rows, purpose, IssueMinute, key, first) == Allowed then
                          B.Row(s.rows, id) == Some(Charged(old(s).rows, purpose, IssueWindow, key, second))
                        else SameBudget(old(s).rows, s.rows, id, second)
    {
      v, first := AllowRequest(call, purpose, IssueMinute, key, alone, fault.FirstBudget?);
      second := first;
      if v != Allowed {
        ScopesAreDistinct(purpose, IssueMinute, purpose, IssueWindow);
        return;
      }
      ghost var charged := s.rows;
      v, second := AllowRequest(call, purpose, IssueWindow, key, alone, fault.SecondBudget?);
      if alone {
        ScopesAreDistinct(purpose, IssueMinute, purpose, IssueWindow);
        SameDecision(old(s).rows, charged, purpose, IssueWindow, key, first, second);
        if fault.SecondBudget? {
          SameBudgetLater(old(s).rows, charged, s.rows, B.Id(Scope(purpose, IssueWindow), key), first, second);
        }
      }
    }

    // Take a guarded step on the call's pass.
    method UsePass(call: CallId, step: R.Step) returns (a: R.Answer)
      requires Valid() && call in s.passes && InTime(s, RecordSafety.TimeOf(step))
      requires Guard(step) == Some((s.passes[call].purpose, s.passes[call].budget, s.passes[call].key))
      modifies this
      ensures Valid() && call !in s.passes && s.rows == old(s).rows
      ensures s.records == R.After(old(s).records, step) && a == R.Reply(old(s).records, step)
    {
      a := R.Reply(s.records, step);
      Do(Use(call, step));
    }

    // Make a code, store it, and send it: a code that was delivered can be used, and one that was
    // not is kept all the same.
    method StoreAndSend(call: CallId, step: R.Step, alone: bool, fault: Fault) returns (r: Response)
      requires Valid() && call in s.passes && RecordSafety.TimeOf(step).None?
      requires Guard(step) == Some((s.passes[call].purpose, s.passes[call].budget, s.passes[call].key))
      modifies this
      ensures Valid() && call !in s.passes
      ensures alone ==> s.rows == old(s).rows
      ensures alone ==> s.records == if fault.Code? || fault.Store? then old(s).records else R.After(old(s).records, step)
      ensures alone ==> r == if fault.Code? || fault.Store? || R.Reply(old(s).records, step) != R.Done then ServerError
                             else if fault.Mail? then BadGateway else NoContent
      ensures r == NoContent ==> !fault.Code? && !fault.Store? && !fault.Mail?
    {
      Interfere(call, alone, None);
      if fault.Code? || fault.Store? {
        BreakOff(call);
        return ServerError;
      }
      var a := UsePass(call, step);
      if a != R.Done {
        return ServerError;
      }
      Interfere(call, alone, None);
      return if fault.Mail? then BadGateway else NoContent;
    }

    method LoginOrCreateAccount(call: CallId, email: R.Email, code: R.Hash, alone: bool, fault: Fault)
        returns (r: Response, first: int, second: int, now: int)
      requires Valid() && call !in s.passes
      modifies this
      ensures Valid() && call !in s.passes
      ensures email == "" ==> r == BadRequest && s == old(s)
      ensures alone && email != "" ==>
                var v, was := IssueDecision(old(s).rows, Login, email, first, second, fault), old(s).records;
                && second <= now
                && (v != Allowed ==> Refused(v, r))
                && (v == Allowed ==> r == if fault.Code? || fault.Store? then ServerError else if fault.Mail? then BadGateway else NoContent)
                && s.records == if v == Allowed && !fault.Code? && !fault.Store? then
                                  was.(logins := was.logins[email := ExpiringRows.Row(code, (), Some(now + 600))])
                                else was
    {
      first, second, now := s.clock, s.clock, s.clock;
      if email == "" {
        return BadRequest, first, second, now;
      }
      var v: Verdict;
      v, first, second := AllowIssuance(call, Login, email, alone, fault);
      now := Now();
      if v != Allowed {
        return Refuse(v), first, second, now;
      }
      R.StepsTouchTheirOwn(s.records, R.UpsertLogin(email, code, now + OTP_LIFETIME));
      r := StoreAndSend(call, R.UpsertLogin(email, code, now + OTP_LIFETIME), alone, fault);
    }

    // An account that is read as missing, or already has the address, is charged nothing.
    method RequestEmailChange(call: CallId, sub: A.Sub, newEmail: R.Email, code: R.Hash, alone: bool, fault: Fault)
        returns (r: Response, first: int, second: int, now: int)
      requires Valid() && call !in s.passes
      modifies this
      ensures Valid() && call !in s.passes
      ensures alone && !MayChange(old(s).records, sub, newEmail, fault) ==>
                s == old(s) && r == (if newEmail == "" then BadRequest
                                     else if fault.Load? then ServerError
                                     else if sub !in old(s).records.dir.accounts then NotFound
                                     else BadRequest)
      ensures alone && MayChange(old(s).records, sub, newEmail, fault) ==>
                var key := FormatInt(sub);
                var v, was := IssueDecision(old(s).rows, EmailChange, key, first, second, fault), old(s).records;
                && second <= now
                && (v != Allowed ==> Refused(v, r))
                && (v == Allowed ==> r == if fault.Code? || fault.Store? then ServerError else if fault.Mail? then BadGateway else NoContent)
                && s.records == if v == Allowed && !fault.Code? && !fault.Store? then
                                  was.(changes := was.changes[sub := ExpiringRows.Row(code, newEmail, Some(now + 600))])
                                else was
    {
      first, second, now := s.clock, s.clock, s.clock;
      if newEmail == "" {
        return BadRequest, first, second, now;
      }
      Interfere(call, alone, None);
      if fault.Load? {
        return ServerError, first, second, now;
      }
      if sub !in s.records.dir.accounts {
        return NotFound, first, second, now;
      }
      if s.records.dir.accounts[sub].email == newEmail {
        return BadRequest, first, second, now;
      }
      var v: Verdict;
      v, first, second := AllowIssuance(call, EmailChange, FormatInt(sub), alone, fault);
      now := Now();
      if v != Allowed {
        return Refuse(v), first, second, now;
      }
      R.StepsTouchTheirOwn(s.records, R.UpsertChange(sub, newEmail, code, now + OTP_LIFETIME));
      r := StoreAndSend(call, R.UpsertChange(sub, newEmail, code, now + OTP_LIFETIME), alone, fault);
    }

    // Charge the budget, and only then try the code; a login then starts a session in a transaction of
    // its own. The charge stays whatever comes of the code.
    method VerifyAuthenticationCode(call: CallId, email: R.Email, code: R.Hash, alone: bool, fault: Fault)
        returns (r: Response, at: int, now: int)
      requires Valid() && call !in s.passes
      modifies this
      ensures Valid() && call !in s.passes
      ensures email == "" ==> r == BadRequest && s == old(s)
      ensures alone && email != "" ==>
                var v, was := TryDecision(old(s).rows, Login, email, at, fault), old(s).records;
                && at <= now
                && (v != Allowed ==> Refused(v, r) && s.records == was)
                && (v == Allowed ==> LoginAnswered(was, s.records, email, code, now, fault, r))
                && (v == Allowed ==> (r.LoggedIn? <==> R.GoodLogin(was, email, code, now) && !fault.Role? && !fault.Session? && !IsBlank(was, email)))
      ensures alone && email != "" && !fault.FirstBudget? ==>
                B.Row(s.rows, B.Id(Scope(Login, Verify), email)) == Some(Charged(old(s).rows, Login, Verify, email, at))
    {
      at, now := s.clock, s.clock;
      if email == "" {
        return BadRequest, at, now;
      }
      var v: Verdict;
      v, at := AllowRequest(call, Login, Verify, email, alone, fault.FirstBudget?);
      now := Now();
      if v != Allowed {
        return Refuse(v), at, now;
      }
      r := LogIn(call, email, code, alone, fault, now);
      if alone {
        GoodLoginsSucceed(old(s).records, s.records, email, code, now, fault, r);
      }
    }

    // The login transaction, and the session after it.
    method LogIn(call: CallId, email: R.Email, code: R.Hash, alone: bool, fault: Fault, now: int) returns (r: Response)
      requires Valid() && call in s.passes && s.passes[call] == Pass(Login, Verify, email, s.passes[call].at) && s.clock <= now
      modifies this
      ensures Valid() && call !in s.passes
      ensures alone ==>
                s.rows == old(s).rows && LoginAnswered(old(s).records, s.records, email, code, now, fault, r)
    {
      Interfere(call, alone, Some(now));
      var authId := NewAuthId();
      var step := R.VerifyLogin(email, code, now, authId, fault.Role?);
      R.LoginIsAllOrNothing(s.records, email, code, now, authId, fault.Role?);
      var a := UsePass(call, step);
      if a == R.Invalid {
        return Unauthorized;
      }
      if !a.Subject? {
        return ServerError;
      }
      ghost var entered := s.records;
      r := StartSession(call, a.sub, alone, fault.Session?);
      if alone {
        assert Entered(old(s).records, entered, email, authId, a.sub);
        assert StartedIf(entered, s.records, a.sub, !fault.Session?, r);
      }
    }

    method StartSession(call: CallId, sub: A.Sub, alone: bool, fails: bool) returns (r: Response)
      requires Valid()
      modifies this
      ensures Valid() && (call in s.passes <==> call in old(s).passes)
      ensures fails ==> r == ServerError
      ensures r.LoggedIn? ==> r.sub == sub
      ensures alone ==> s.rows == old(s).rows && StartedIf(old(s).records, s.records, sub, !fails, r)
    {
      Interfere(call, alone, None);
      if fails {
        return ServerError;
      }
      ghost var _ := SessionDeadlock.UnusedHash(s.records.tokens.Keys);
      var token: R.Hash :| token !in s.records.tokens;
      var expiry: Option<int> := *;
      var step := R.Issue(sub, token, expiry);
      var a := R.Reply(s.records, step);
      Do(Free(step));
      if a != R.Done {
        return ServerError;
      }
      if alone {
        TokenIsNew(old(s).records, token, sub, expiry);
        assert s.records == TokenAdded(old(s).records, token, sub, expiry);
      }
      return LoggedIn(sub);
    }

    // A taken address leaves the records, code included, as they were; the charge stays.
    method ConfirmEmailChange(call: CallId, sub: A.Sub, code: R.Hash, alone: bool, fault: Fault) returns (r: Response, at: int, now: int)
      requires Valid() && call !in s.passes
      modifies this
      ensures Valid() && call !in s.passes
      ensures alone ==>
                var v, was := TryDecision(old(s).rows, EmailChange, FormatInt(sub), at, fault), old(s).records;
                && at <= now
                && (v != Allowed ==> Refused(v, r))
                && (v == Allowed ==>
                     if fault.Store? then r == ServerError
                     else if !R.GoodChange(was, sub, code, now) then r == Unauthorized
                     else if Taken(was, sub) then r == EmailTaken
                     else r == NoContent)
                && (r != NoContent ==> s.records == was)
                && (r == NoContent ==> sub in was.changes && sub in was.dir.accounts && s.records == Moved(was, sub))
      ensures alone && !fault.FirstBudget? ==>
                B.Row(s.rows, B.Id(Scope(EmailChange, Verify), FormatInt(sub))) == Some(Charged(old(s).rows, EmailChange, Verify, FormatInt(sub), at))
    {
      now := s.clock;
      var v: Verdict;
      v, at := AllowRequest(call, EmailChange, Verify, FormatInt(sub), alone, fault.FirstBudget?);
      now := Now();
      if v != Allowed {
        return Refuse(v), at, now;
      }
      Interfere(call, alone, Some(now));
      if fault.Store? {
        BreakOff(call);
        return ServerError, at, now;
      }
      ghost var before := s.records;
      R.ConfirmationIsExact(s.records, sub, code, now);
      var a := UsePass(call, R.ConfirmChange(sub, code, now));
      if a == R.Conflict {
        R.ConflictRollsBack(before, sub, code, now);
        return EmailTaken, at, now;
      }
      return if a == R.Done then NoContent else Unauthorized, at, now;
    }

    // Revoke, then delete. If the deletion fails the sessions are over all the same.
    method DeleteAccount(call: CallId, sub: A.Sub, alone: bool, fault: Fault) returns (r: Response)
      requires Valid()
      modifies this
      ensures Valid() && (call in s.passes <==> call in old(s).passes)
      ensures r == if fault.Revocation? || fault.Deletion? then ServerError else NoContent
      ensures r == NoContent ==> sub !in s.records.dir.accounts && sub !in s.records.changes
      ensures r == NoContent || (alone && fault.Deletion?) ==> forall h :: h in s.records.tokens ==> s.records.tokens[h].data.sub != sub
      ensures alone && fault.Revocation? ==> s == old(s)
      ensures alone && fault.Deletion? && sub in old(s).records.dir.accounts ==>
                sub in s.records.dir.accounts && s.records.dir.accounts[sub].email == old(s).records.dir.accounts[sub].email
      ensures alone ==> SparesOthers(old(s).records, s.records, sub)
    {
      Interfere(call, alone, None);
      if fault.Revocation? {
        return ServerError;
      }
      var authId := NewAuthId();
      Do(Free(R.RevokeAll(sub, authId)));
      Interfere(call, alone, None);
      if fault.Deletion? {
        return ServerError;
      }
      Do(Free(R.EndAccount(sub)));
      return NoContent;
    }
  }

  predicate MayChange(records: R.State, sub: A.Sub, newEmail: R.Email, fault: Fault) {
    newEmail != "" && !fault.Load? && sub in records.dir.accounts && records.dir.accounts[sub].email != newEmail
  }

  // Another account has the address of this account's challenge.
  ghost predicate Taken(records: R.State, sub: A.Sub) {
    sub in records.changes &&
    exists a :: a in records.dir.accounts && a != sub && records.dir.accounts[a].email == records.changes[sub].data
  }

  // The account has the address of its challenge, which is spent; nothing else changed.
  ghost function Moved(records: R.State, sub: A.Sub): R.State
    requires sub in records.changes && sub in records.dir.accounts
  {
    var account := A.Account(records.changes[sub].data, records.dir.accounts[sub].authId);
    R.State(records.logins, records.changes - {sub}, records.tokens,
            A.Directory(records.dir.accounts[sub := account], records.dir.lastSub))
  }

  ghost function TokenAdded(before: R.State, h: R.Hash, sub: A.Sub, expiry: Option<int>): R.State
    requires sub in before.dir.accounts
  {
    before.(tokens := before.tokens[h := ExpiringRows.Row((), R.Session(sub, before.dir.accounts[sub].authId), expiry)])
  }

  // A new session: one more refresh token, of the account's current generation.
  ghost predicate NewToken(before: R.State, after: R.State, sub: A.Sub) {
    sub in before.dir.accounts && exists h, expiry :: h !in before.tokens && after == TokenAdded(before, h, sub, expiry)
  }

  lemma TokenIsNew(before: R.State, h: R.Hash, sub: A.Sub, expiry: Option<int>)
    requires sub in before.dir.accounts && h !in before.tokens
    ensures NewToken(before, TokenAdded(before, h, sub, expiry), sub)
  {
  }

  // A session starts for an account that has a generation, if nothing fails, and nothing else happens.
  ghost predicate StartedIf(before: R.State, after: R.State, sub: A.Sub, able: bool, r: Response) {
    if able && sub in before.dir.accounts && before.dir.accounts[sub].authId != "" then r == LoggedIn(sub) && NewToken(before, after, sub)
    else r == ServerError && after == before
  }

  // The code is spent, and the account with the address is the one it was or a new one.
  ghost predicate Entered(before: R.State, after: R.State, email: R.Email, authId: string, sub: A.Sub) {
    authId != "" && R.LogsInto(before.dir, email, authId, after.dir, sub)
    && after == R.State(before.logins - {email}, before.changes, before.tokens, after.dir)
  }

  // What an admitted login with this code comes to.
  ghost predicate LoginAnswered(before: R.State, after: R.State, email: R.Email, code: R.Hash, now: int, fault: Fault, r: Response) {
    if !R.GoodLogin(before, email, code, now) then r == Unauthorized && after == before
    else if fault.Role? then r == ServerError && after == before
    else exists middle, authId, sub :: Entered(before, middle, email, authId, sub) && StartedIf(middle, after, sub, !fault.Session?, r)
  }

  // The account with this address has no generation.
  ghost predicate IsBlank(records: R.State, email: R.Email) {
    exists a :: a in records.dir.accounts && records.dir.accounts[a].email == email && records.dir.accounts[a].authId == ""
  }

  // An admitted login with a good code is answered with a session, unless something fails or the
  // account was there without a generation.
  lemma GoodLoginsSucceed(before: R.State, after: R.State, email: R.Email, code: R.Hash, now: int, fault: Fault, r: Response)
    requires R.Sane(before) && LoginAnswered(before, after, email, code, now, fault, r)
    ensures r.LoggedIn? <==>
              && R.GoodLogin(before, email, code, now) && !fault.Role? && !fault.Session?
              && !IsBlank(before, email)
    ensures r.LoggedIn? ==> r.sub in after.dir.accounts && after.dir.accounts[r.sub].email == email
    ensures r.LoggedIn? || r == Unauthorized || r == ServerError
  {
  }

  // Whatever is not the account's own is as it was.
  ghost predicate SparesOthers(before: R.State, after: R.State, sub: A.Sub) {
    && after.logins == before.logins && after.changes - {sub} == before.changes - {sub}
    && after.dir.accounts - {sub} == before.dir.accounts - {sub}
    && forall h :: h in before.tokens && before.tokens[h].data.sub != sub ==> h in after.tokens && after.tokens[h] == before.tokens[h]
  }
}
