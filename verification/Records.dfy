/**
  The database's accounts, one-time-code challenges and refresh tokens, one statement or
  transaction at a time, with cleanup batches in between.
 */
module Records {
  import opened Wrappers
  import opened ExpiryBatches
  import opened ExpiringRows
  import opened AccountIdentity

  type Email = string
  type Hash = string

  datatype Session = Session(sub: Sub, authId: string)

  type Logins = map<Email, Row<Hash, ()>>
  type Changes = map<Sub, Row<Hash, Email>>
  type Tokens = map<Hash, Row<(), Session>>

  datatype State = State(logins: Logins, changes: Changes, tokens: Tokens, dir: Directory)

  datatype Step =
    | UpsertLogin(email: Email, code: Hash, expiresAt: int)
    | VerifyLogin(email: Email, code: Hash, now: int, authId: string, fails: bool)
    | UpsertChange(sub: Sub, newEmail: Email, code: Hash, expiresAt: int)
    | ConfirmChange(sub: Sub, code: Hash, now: int)
    | EndAccount(sub: Sub)
    | Issue(sub: Sub, token: Hash, tokenExpiry: Option<int>)
    | Lookup(token: Hash, now: int)
    | Exchange(token: Hash, saved: Session, now: int, next: Hash, tokenExpiry: Option<int>, fails: bool)
    | Revoke(token: Hash)
    | RevokeAll(sub: Sub, authId: string)
    | SweepLogins(now: int, emails: set<Email>)
    | SweepChanges(now: int, subs: set<Sub>)
    | SweepTokens(now: int, hashes: set<Hash>)

  datatype Answer = Done | Invalid | Expiry | Conflict | Failed | Subject(sub: Sub) | Found(session: Session)

  ghost predicate Sane(s: State) {
    && Sound(s.dir)
    && (forall a :: a in s.changes ==> a in s.dir.accounts)
    && (forall h :: h in s.tokens ==> s.tokens[h].data.sub in s.dir.accounts)
  }

  // The operation a step performs on the login challenges.
  function LoginOp(s: State, step: Step): ExpiringRows.Op<Email, Hash, ()> {
    match step
    case UpsertLogin(email, code, expiresAt) => Put(email, Row(code, (), Some(expiresAt)))
    case VerifyLogin(email, code, now, _, fails) => Consume(email, code, now, fails)
    case SweepLogins(now, emails) => Sweep(now, emails)
    case _ => Idle
  }

  // And on the email-change challenges: a change to an address that is taken is rolled back, and
  // challenges go with their account.
  function ChangeOp(s: State, step: Step): ExpiringRows.Op<Sub, Hash, Email> {
    match step
    case UpsertChange(sub, newEmail, code, expiresAt) =>
      if sub in s.dir.accounts then Put(sub, Row(code, newEmail, Some(expiresAt))) else Idle
    case ConfirmChange(sub, code, now) =>
      var request := Redeem(s.changes, sub, code, now);
      Consume(sub, code, now, request.Some? && Unavailable(s.dir, sub, request.value))
    case EndAccount(sub) => Remove({sub})
    case SweepChanges(now, subs) => Sweep(now, subs)
    case _ => Idle
  }

  function WithoutSub(tokens: Tokens, sub: Sub): Tokens {
    map h | h in tokens && tokens[h].data.sub != sub :: tokens[h]
  }

  // Whether the exchange of a saved token would be refused, and how.
  function ExchangeError(s: State, token: Hash, saved: Session, now: int): Option<Answer> {
    if saved.sub !in s.dir.accounts then Some(Invalid)
    else if s.dir.accounts[saved.sub].authId == "" || saved.authId != s.dir.accounts[saved.sub].authId then Some(Invalid)
    else if token !in s.tokens || s.tokens[token].data != saved then Some(Invalid)
    else if Expired(s.tokens[token], now) then Some(Expiry)
    else None
  }

  function ApplyTokens(s: State, step: Step): Tokens {
    match step
    case Issue(sub, token, expiry) =>
      if sub in s.dir.accounts && s.dir.accounts[sub].authId != "" then
        s.tokens[token := Row((), Session(sub, s.dir.accounts[sub].authId), expiry)]
      else s.tokens
    case Exchange(token, saved, now, next, expiry, fails) =>
      if ExchangeError(s, token, saved, now).None? && !fails then (s.tokens - {token})[next := Row((), saved, expiry)] else s.tokens
    case Revoke(token) => s.tokens - {token}
    case RevokeAll(sub, _) => if sub in s.dir.accounts then WithoutSub(s.tokens, sub) else s.tokens
    case EndAccount(sub) => WithoutSub(s.tokens, sub)
    case SweepTokens(_, hashes) => s.tokens - hashes
    case _ => s.tokens
  }

  function DirectoryOp(s: State, step: Step): Option<AccountIdentity.Op> {
    match step
    case VerifyLogin(email, code, now, authId, fails) =>
      if Redeem(s.logins, email, code, now).Some? && !fails then Some(EnsureAccount(email, authId)) else None
    case ConfirmChange(sub, code, now) =>
      var request := Redeem(s.changes, sub, code, now);
      if request.Some? then Some(SetEmail(sub, request.value)) else None
    case EndAccount(sub) => Some(DeleteAccount(sub))
    case RevokeAll(sub, authId) => Some(SetAuthId(sub, authId))
    case _ => None
  }

  function ApplyDirectory(s: State, step: Step): Directory
    requires Sound(s.dir)
  {
    match DirectoryOp(s, step)
    case None => s.dir
    case Some(op) => AccountIdentity.Apply(s.dir, op)
  }

  function After(s: State, step: Step): State
    requires Sound(s.dir)
  {
    State(ExpiringRows.Apply(s.logins, LoginOp(s, step)),
          ExpiringRows.Apply(s.changes, ChangeOp(s, step)),
          ApplyTokens(s, step),
          ApplyDirectory(s, step))
  }

  function Reply(s: State, step: Step): Answer
    requires Sound(s.dir)
  {
    match step
    case VerifyLogin(email, code, now, authId, fails) =>
      if Redeem(s.logins, email, code, now).None? then Invalid
      else if fails then Failed
      else (match Ensure(s.dir, email, authId) case Ok(r) => Subject(r.1) case Err(_) => Failed)
    case UpsertChange(sub, _, _, _) => if sub in s.dir.accounts then Done else Failed
    case ConfirmChange(sub, code, now) =>
      var request := Redeem(s.changes, sub, code, now);
      if request.None? then Invalid
      else if Unavailable(s.dir, sub, request.value) then Conflict
      else Done
    case Issue(sub, _, _) => if sub in s.dir.accounts && s.dir.accounts[sub].authId != "" then Done else Invalid
    case Lookup(token, now) =>
      if token !in s.tokens then Invalid
      else if Expired(s.tokens[token], now) then Expiry
      else Found(s.tokens[token].data)
    case Exchange(token, saved, now, _, _, fails) =>
      (match ExchangeError(s, token, saved, now) case Some(e) => e case None => if fails then Failed else Done)
    case _ => Done
  }

  predicate Enabled(s: State, step: Step) {
    match step
    case SweepLogins(now, emails) => IsBatch(Due(s.logins, now), RECORD_BATCH, emails)
    case SweepChanges(now, subs) => IsBatch(Due(s.changes, now), RECORD_BATCH, subs)
    case SweepTokens(now, hashes) => IsBatch(Due(s.tokens, now), RECORD_BATCH, hashes)
    case _ => true
  }

  // ----- what every step keeps

  lemma DirectoryKeepsSound(s: State, step: Step)
    requires Sound(s.dir)
    ensures Sound(ApplyDirectory(s, step)) && Later(s.dir, ApplyDirectory(s, step))
    ensures forall a :: a in s.dir.accounts && step != EndAccount(a) ==> a in ApplyDirectory(s, step).accounts
  {
    if DirectoryOp(s, step).Some? {
      ApplyKeepsSound(s.dir, DirectoryOp(s, step).value);
      if step.VerifyLogin? {
        EnsureAlwaysSucceeds(s.dir, step.email, step.authId);
      }
    }
  }

  // Addresses stay unique, and challenges and tokens belong to accounts that exist.
  lemma AfterKeepsSane(s: State, step: Step)
    requires Sane(s)
    ensures Sane(After(s, step))
  {
    DirectoryKeepsSound(s, step);
    forall h | h in ApplyTokens(s, step) ensures ApplyTokens(s, step)[h].data.sub in ApplyDirectory(s, step).accounts {
    }
  }

  // A confirmation that finds the address taken leaves everything as it was, code included.
  lemma ConflictRollsBack(s: State, sub: Sub, code: Hash, now: int)
    requires Sane(s) && Reply(s, ConfirmChange(sub, code, now)) == Conflict
    ensures After(s, ConfirmChange(sub, code, now)) == s
  {
    assert sub in s.dir.accounts;
    assert s.tokens == ApplyTokens(s, ConfirmChange(sub, code, now));
  }

  // A confirmation succeeds exactly when the code is good and no other account has the address. Then
  // the account has it, the code is gone, and nothing else changed.
  lemma ConfirmationIsExact(s: State, sub: Sub, code: Hash, now: int)
    requires Sane(s)
    ensures Reply(s, ConfirmChange(sub, code, now)) == Done <==>
              GoodChange(s, sub, code, now) && forall a :: a in s.dir.accounts && s.dir.accounts[a].email == s.changes[sub].data ==> a == sub
    ensures Reply(s, ConfirmChange(sub, code, now)) == Invalid <==> !GoodChange(s, sub, code, now)
    ensures Reply(s, ConfirmChange(sub, code, now)) == Done ==>
              && sub in s.dir.accounts
              && After(s, ConfirmChange(sub, code, now)) ==
                 State(s.logins, s.changes - {sub}, s.tokens,
                       Directory(s.dir.accounts[sub := Account(s.changes[sub].data, s.dir.accounts[sub].authId)], s.dir.lastSub))
    ensures Reply(s, ConfirmChange(sub, code, now)) != Done ==> After(s, ConfirmChange(sub, code, now)) == s
  {
    if Reply(s, ConfirmChange(sub, code, now)) == Conflict {
      ConflictRollsBack(s, sub, code, now);
    }
  }

  ghost predicate GoodChange(s: State, sub: Sub, code: Hash, now: int) {
    && sub in s.changes && s.changes[sub].secret == code
    && (s.changes[sub].expiresAt.None? || now < s.changes[sub].expiresAt.value)
  }

  ghost predicate GoodLogin(s: State, email: Email, code: Hash, now: int) {
    && email in s.logins && s.logins[email].secret == code
    && (s.logins[email].expiresAt.None? || now < s.logins[email].expiresAt.value)
  }

  // Where a login ends up: the account that has the address, or one more of this generation.
  ghost predicate LogsInto(d: Directory, email: Email, authId: string, r: Directory, sub: Sub) {
    || (sub in d.accounts && d.accounts[sub].email == email && r == d)
    || (&& (forall a :: a in d.accounts ==> d.accounts[a].email != email)
        && sub == d.lastSub + 1 && r == Directory(d.accounts[sub := Account(email, authId)], sub))
  }

  // A login succeeds exactly when the code is good and its role can be assigned. It spends the code
  // and opens its account, or does nothing.
  lemma LoginIsAllOrNothing(s: State, email: Email, code: Hash, now: int, authId: string, fails: bool)
    requires Sane(s)
    ensures var a, r := Reply(s, VerifyLogin(email, code, now, authId, fails)), After(s, VerifyLogin(email, code, now, authId, fails));
            && (a.Subject? <==> GoodLogin(s, email, code, now) && !fails)
            && (a == Invalid <==> !GoodLogin(s, email, code, now))
            && (a.Subject? ==> LogsInto(s.dir, email, authId, r.dir, a.sub) && r == State(s.logins - {email}, s.changes, s.tokens, r.dir))
            && (!a.Subject? ==> r == s)
  {
    EnsureAlwaysSucceeds(s.dir, email, authId);
  }

  // Storing a code replaces the one before it; deleting an account takes its challenge and its tokens;
  // and the session steps leave codes and addresses alone.
  lemma StepsTouchTheirOwn(s: State, step: Step)
    requires Sane(s)
    ensures var r := After(s, step);
            match step
            case UpsertLogin(email, code, expiresAt) =>
              Reply(s, step) == Done && r == State(s.logins[email := Row(code, (), Some(expiresAt))], s.changes, s.tokens, s.dir)
            case UpsertChange(sub, newEmail, code, expiresAt) =>
              if sub in s.dir.accounts then
                Reply(s, step) == Done && r == State(s.logins, s.changes[sub := Row(code, newEmail, Some(expiresAt))], s.tokens, s.dir)
              else Reply(s, step) == Failed && r == s
            case EndAccount(sub) =>
              && r.logins == s.logins && r.changes == s.changes - {sub}
              && r.dir == Directory(s.dir.accounts - {sub}, s.dir.lastSub)
              && forall h :: (h in r.tokens <==> h in s.tokens && s.tokens[h].data.sub != sub) && (h in r.tokens ==> r.tokens[h] == s.tokens[h])
            case SweepLogins(_, emails) => r == State(s.logins - emails, s.changes, s.tokens, s.dir)
            case SweepChanges(_, subs) => r == State(s.logins, s.changes - subs, s.tokens, s.dir)
            case VerifyLogin(_, _, _, _, _) => true
            case ConfirmChange(_, _, _) => true
            case _ =>
              && r.logins == s.logins && r.changes == s.changes && SameAddresses(s.dir, r.dir)
              && (!step.RevokeAll? ==> r.dir == s.dir)
  {
  }

  // The account exists, and this is its generation.
  ghost predicate Holds(d: Directory, session: Session) {
    session.authId != "" && session.sub in d.accounts && d.accounts[session.sub].authId == session.authId
  }

  ghost predicate Live(tokens: Tokens, token: Hash, session: Session, now: int) {
    && token in tokens && tokens[token].data == session
    && (tokens[token].expiresAt.None? || now < tokens[token].expiresAt.value)
  }

  // A token is issued to an account that has a generation, and exchanged exactly while it is live under
  // the generation its account has; a step that does not succeed changes nothing. Revoking an account's
  // tokens removes those, no others, and replaces its generation.
  lemma SessionStepsAreExact(s: State, step: Step)
    requires Sane(s)
    ensures var r, a := After(s, step), Reply(s, step);
            match step
            case Issue(sub, token, expiry) =>
              && (a == Done <==> sub in s.dir.accounts && s.dir.accounts[sub].authId != "")
              && (a == Done ==> r.tokens == s.tokens[token := Row((), Session(sub, s.dir.accounts[sub].authId), expiry)])
              && (a != Done ==> r == s && a == Invalid)
            case Lookup(token, now) =>
              && r == s
              && (a == Invalid <==> token !in s.tokens)
              && (a.Found? <==> exists session :: Live(s.tokens, token, session, now))
              && (a.Found? ==> Live(s.tokens, token, a.session, now))
              && (a == Invalid || a == Expiry || a.Found?)
            case Exchange(token, saved, now, next, expiry, fails) =>
              && (a == Done <==> !fails && Holds(s.dir, saved) && Live(s.tokens, token, saved, now))
              && (a == Done ==> r.tokens == (s.tokens - {token})[next := Row((), saved, expiry)])
              && (a == Expiry <==> Holds(s.dir, saved) && token in s.tokens && s.tokens[token].data == saved && !Live(s.tokens, token, saved, now))
              && (a != Done ==> r == s)
            case Revoke(token) => a == Done && r.tokens == s.tokens - {token}
            case RevokeAll(sub, authId) =>
              && (forall h :: (h in r.tokens <==> h in s.tokens && s.tokens[h].data.sub != sub) && (h in r.tokens ==> r.tokens[h] == s.tokens[h]))
              && r.dir.accounts == if sub in s.dir.accounts then s.dir.accounts[sub := Account(s.dir.accounts[sub].email, authId)] else s.dir.accounts
            case SweepTokens(_, hashes) => r.tokens == s.tokens - hashes
            case _ => true
  {
    if step.Lookup? && step.token in s.tokens {
      assert Live(s.tokens, step.token, s.tokens[step.token].data, step.now) <==> !Expired(s.tokens[step.token], step.now);
    }
  }

  ghost predicate SameAddresses(d: Directory, r: Directory) {
    && d.lastSub == r.lastSub && d.accounts.Keys == r.accounts.Keys
    && forall a :: a in d.accounts ==> r.accounts[a].email == d.accounts[a].email
  }
}
