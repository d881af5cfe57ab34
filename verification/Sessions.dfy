/**
  The session protocol: Issue, Refresh, RevokeAll, Revoke, account deletion and expiry
  cleanup as transactions that interleave. A transaction takes row locks one at a time,
  keeps them to its end, buffers its writes, and commits them at once or not at all.

  Token hashes, session generations and signed access tokens are values that are fresh
  when made. `owner` and `generated` remember every one ever made; a token's `root` is
  the hash of the token its session began with. No step of the protocol reads these.
 */
module Sessions {
  import opened Wrappers
  import opened Decimal

  type Sub = a: int | INT64_MIN <= a <= INT64_MAX
  type AuthId = string
  type Hash = string
  type TxId = nat

  datatype Token = Token(sub: Sub, authId: AuthId, expiresAt: int, root: Hash)
  datatype Access = Access(sub: Sub, authId: AuthId, expiresAt: int)

  // The committed rows.
  datatype Db = Db(accounts: map<Sub, AuthId>, tokens: map<Hash, Token>)

  // What a sweep of token rows is part of.
  datatype Job = RevokeAll(sub: Sub, next: AuthId) | DeleteAccount(sub: Sub) | RevokeOne(hash: Hash) | Clean(now: int)

  datatype Tx =
    | IssueBegun(sub: Sub)
    | IssueLocked(sub: Sub, authId: AuthId)
    | IssueSigned(newHash: Hash, token: Token)
    | RefreshRead(hash: Hash, saved: Token)          // read outside any transaction
    | RefreshLocked(hash: Hash, saved: Token)
    | RefreshConsumed(hash: Hash, saved: Token)
    | RefreshSigned(hash: Hash, saved: Token, newHash: Hash, token: Token)
    | JobBegun(job: Job)                             // waits for its account
    | JobLocked(job: Job)
    | Sweeping(job: Job, targets: set<Hash>, swept: set<Hash>)
  {
    // The account row this transaction has locked.
    function Account(): Option<Sub> {
      match this
      case IssueLocked(sub, _) => Some(sub)
      case IssueSigned(_, token) => Some(token.sub)
      case RefreshLocked(_, saved) => Some(saved.sub)
      case RefreshConsumed(_, saved) => Some(saved.sub)
      case RefreshSigned(_, saved, _, _) => Some(saved.sub)
      case JobLocked(job) => JobAccount(job)
      case Sweeping(job, _, _) => JobAccount(job)
      case _ => None
    }

    // The token rows this transaction has locked.
    function Tokens(): set<Hash> {
      match this
      case RefreshConsumed(hash, _) => {hash}
      case RefreshSigned(hash, _, _, _) => {hash}
      case Sweeping(_, _, swept) => swept
      case _ => {}
    }

    // The hash this transaction is about to insert.
    function Inserting(): Option<Hash> {
      match this
      case IssueSigned(newHash, _) => Some(newHash)
      case RefreshSigned(_, _, newHash, _) => Some(newHash)
      case _ => None
    }

    // The hashes of existing tokens that this transaction knows about.
    function Mentioned(): set<Hash> {
      match this
      case RefreshRead(hash, _) => {hash}
      case RefreshLocked(hash, _) => {hash}
      case RefreshConsumed(hash, _) => {hash}
      case RefreshSigned(hash, _, _, _) => {hash}
      case Sweeping(_, targets, _) => targets
      case _ => {}
    }

    // The generation this transaction has made and not yet stored.
    function Reserved(): Option<AuthId> {
      match this
      case JobBegun(RevokeAll(_, next)) => Some(next)
      case JobLocked(RevokeAll(_, next)) => Some(next)
      case Sweeping(RevokeAll(_, next), _, _) => Some(next)
      case _ => None
    }
  }

  function JobAccount(job: Job): Option<Sub> {
    match job
    case RevokeAll(sub, _) => Some(sub)
    case DeleteAccount(sub) => Some(sub)
    case _ => None
  }

  datatype State = State(
    db: Db,
    txs: map<TxId, Tx>,
    owner: map<Hash, Sub>,
    generated: set<AuthId>,
    signed: set<Access>)
  {
    predicate AccountFree(t: TxId, sub: Sub) {
      forall u :: u in txs && u != t ==> txs[u].Account() != Some(sub)
    }

    predicate TokenFree(t: TxId, hash: Hash) {
      forall u :: u in txs && u != t ==> hash !in txs[u].Tokens()
    }
  }

  datatype Action =
    | CreateAccount(sub: Sub, authId: AuthId)
    | StartIssue(t: TxId, sub: Sub)
    | LockForIssue(t: TxId)
    | Read(t: TxId, hash: Hash, now: int)
    | LockForRefresh(t: TxId)
    | Consume(t: TxId, now: int)
    | Sign(t: TxId, newHash: Hash, accessExpiry: int, refreshExpiry: int)
    | StartJob(t: TxId, job: Job)
    | LockForJob(t: TxId)
    | Sweep(t: TxId, targets: set<Hash>)
    | SweepOne(t: TxId, hash: Hash)
    | Commit(t: TxId)
    | Abort(t: TxId)

  predicate Expired(token: Token, now: int) {
    token.expiresAt != 0 && now >= token.expiresAt
  }

  function TokensOf(db: Db, sub: Sub): set<Hash> {
    set h | h in db.tokens && db.tokens[h].sub == sub
  }

  // The rows a DELETE statement goes through: those that match it when it starts.
  predicate Matches(s: State, job: Job, targets: set<Hash>) {
    match job
    case RevokeAll(sub, _) => targets == TokensOf(s.db, sub)
    case DeleteAccount(sub) => targets == TokensOf(s.db, sub)
    case RevokeOne(hash) => targets == {hash} * s.db.tokens.Keys
    case Clean(now) =>
      |targets| <= 1000 && forall h :: h in targets ==> h in s.db.tokens && Expired(s.db.tokens[h], now)
  }

  predicate Enabled(s: State, act: Action) {
    match act
    case CreateAccount(sub, authId) => sub !in s.db.accounts && authId !in s.generated && authId != ""
    case StartIssue(t, _) => t !in s.txs
    case LockForIssue(t) => t in s.txs && s.txs[t].IssueBegun? && s.AccountFree(t, s.txs[t].sub)
    case Read(t, _, _) => t !in s.txs
    case LockForRefresh(t) => t in s.txs && s.txs[t].RefreshRead? && s.AccountFree(t, s.txs[t].saved.sub)
    case Consume(t, _) => t in s.txs && s.txs[t].RefreshLocked? && s.TokenFree(t, s.txs[t].hash)
    case Sign(t, newHash, _, _) =>
      t in s.txs && (s.txs[t].IssueLocked? || s.txs[t].RefreshConsumed?) && newHash !in s.owner
    case StartJob(t, job) => t !in s.txs && (job.RevokeAll? ==> job.next !in s.generated && job.next != "")
    case LockForJob(t) =>
      t in s.txs && s.txs[t].JobBegun? &&
      (JobAccount(s.txs[t].job).Some? ==> s.AccountFree(t, JobAccount(s.txs[t].job).value))
    case Sweep(t, targets) => t in s.txs && s.txs[t].JobLocked? && Matches(s, s.txs[t].job, targets)
    case SweepOne(t, hash) =>
      t in s.txs && s.txs[t].Sweeping? && hash in s.txs[t].targets && s.TokenFree(t, hash)
    case Commit(t) => t in s.txs && Ready(s.txs[t])
    case Abort(t) => t in s.txs
  }

  predicate Ready(tx: Tx) {
    tx.IssueSigned? || tx.RefreshSigned? || (tx.Sweeping? && tx.swept == tx.targets)
  }

  // The buffered writes of a transaction, applied to the committed rows.
  function Write(db: Db, tx: Tx): Db {
    match tx
    case IssueSigned(newHash, token) => db.(tokens := db.tokens[newHash := token])
    case RefreshSigned(hash, _, newHash, token) => db.(tokens := (db.tokens - {hash})[newHash := token])
    case Sweeping(RevokeAll(sub, next), targets, _) => Db(db.accounts[sub := next], db.tokens - targets)
    case Sweeping(DeleteAccount(sub), targets, _) => Db(db.accounts - {sub}, db.tokens - targets)
    case Sweeping(_, targets, _) => db.(tokens := db.tokens - targets)
    case _ => db
  }

  function Become(s: State, t: TxId, tx: Tx): State {
    s.(txs := s.txs[t := tx])
  }

  function End(s: State, t: TxId): State {
    s.(txs := s.txs - {t})
  }

  function SignSession(s: State, t: TxId, newHash: Hash, accessExpiry: int, refreshExpiry: int): State
    requires t in s.txs && (s.txs[t].IssueLocked? || s.txs[t].RefreshConsumed?)
  {
    match s.txs[t]
    case IssueLocked(sub, authId) =>
      Become(s, t, IssueSigned(newHash, Token(sub, authId, refreshExpiry, newHash)))
      .(owner := s.owner[newHash := sub], signed := s.signed + {Access(sub, authId, accessExpiry)})
    case RefreshConsumed(hash, saved) =>
      Become(s, t, RefreshSigned(hash, saved, newHash, Token(saved.sub, saved.authId, refreshExpiry, saved.root)))
      .(owner := s.owner[newHash := saved.sub], signed := s.signed + {Access(saved.sub, saved.authId, accessExpiry)})
  }

  function Apply(s: State, act: Action): State
    requires Enabled(s, act)
  {
    match act
    case CreateAccount(sub, authId) =>
      s.(db := s.db.(accounts := s.db.accounts[sub := authId]), generated := s.generated + {authId})
    case StartIssue(t, sub) => Become(s, t, IssueBegun(sub))
    case LockForIssue(t) =>
      var sub := s.txs[t].sub;
      if sub !in s.db.accounts || s.db.accounts[sub] == "" then End(s, t)
      else Become(s, t, IssueLocked(sub, s.db.accounts[sub]))
    case Read(t, hash, now) =>
      if hash !in s.db.tokens || Expired(s.db.tokens[hash], now) then s
      else Become(s, t, RefreshRead(hash, s.db.tokens[hash]))
    case LockForRefresh(t) =>
      var RefreshRead(hash, saved) := s.txs[t];
      if saved.sub !in s.db.accounts || s.db.accounts[saved.sub] == "" || s.db.accounts[saved.sub] != saved.authId
      then End(s, t)
      else Become(s, t, RefreshLocked(hash, saved))
    case Consume(t, now) =>
      var RefreshLocked(hash, saved) := s.txs[t];
      if hash !in s.db.tokens || s.db.tokens[hash].sub != saved.sub || s.db.tokens[hash].authId != saved.authId
         || Expired(s.db.tokens[hash], now)
      then End(s, t)
      else Become(s, t, RefreshConsumed(hash, saved))
    case Sign(t, newHash, accessExpiry, refreshExpiry) => SignSession(s, t, newHash, accessExpiry, refreshExpiry)
    case StartJob(t, job) =>
      Become(s, t, JobBegun(job)).(generated := if job.RevokeAll? then s.generated + {job.next} else s.generated)
    case LockForJob(t) =>
      var job := s.txs[t].job;
      var sub := JobAccount(job);
      if sub.Some? && sub.value !in s.db.accounts then End(s, t) else Become(s, t, JobLocked(job))
    case Sweep(t, targets) => Become(s, t, Sweeping(s.txs[t].job, targets, {}))
    case SweepOne(t, hash) =>
      var Sweeping(job, targets, swept) := s.txs[t];
      Become(s, t, Sweeping(job, targets, swept + {hash}))
    case Commit(t) => End(s.(db := Write(s.db, s.txs[t])), t)
    case Abort(t) => End(s, t)
  }

  // ----- the invariant

  // Every refresh token belongs to an account and carries that account's generation, and
  // no two of them descend from the same session.
  ghost predicate Consistent(db: Db, owner: map<Hash, Sub>) {
    && (forall h :: h in db.tokens ==>
          && h in owner && owner[h] == db.tokens[h].sub
          && db.tokens[h].sub in db.accounts
          && db.accounts[db.tokens[h].sub] == db.tokens[h].authId)
    && (forall h, k :: h in db.tokens && k in db.tokens && h != k ==> db.tokens[h].root != db.tokens[k].root)
    && (forall h :: h in db.tokens ==> db.tokens[h].root in owner)
  }

  ghost predicate HasGeneration(db: Db, sub: Sub, authId: AuthId) {
    sub in db.accounts && db.accounts[sub] == authId
  }

  ghost predicate SavedOk(s: State, hash: Hash, saved: Token) {
    && hash in s.owner && s.owner[hash] == saved.sub
    && (hash in s.db.tokens ==> s.db.tokens[hash] == saved)
  }

  ghost predicate InsertOk(s: State, newHash: Hash, token: Token) {
    && newHash in s.owner && s.owner[newHash] == token.sub
    && newHash !in s.db.tokens
    && token.root in s.owner
    && HasGeneration(s.db, token.sub, token.authId)
  }

  ghost predicate TxOk(s: State, tx: Tx) {
    match tx
    case IssueBegun(_) => true
    case IssueLocked(sub, authId) => HasGeneration(s.db, sub, authId)
    case IssueSigned(newHash, token) => InsertOk(s, newHash, token) && token.root == newHash
    case RefreshRead(hash, saved) => SavedOk(s, hash, saved)
    case RefreshLocked(hash, saved) => SavedOk(s, hash, saved) && HasGeneration(s.db, saved.sub, saved.authId)
    case RefreshConsumed(hash, saved) =>
      SavedOk(s, hash, saved) && hash in s.db.tokens && HasGeneration(s.db, saved.sub, saved.authId)
    case RefreshSigned(hash, saved, newHash, token) =>
      SavedOk(s, hash, saved) && hash in s.db.tokens && InsertOk(s, newHash, token)
      && token.sub == saved.sub && token.root == saved.root
    case JobBegun(job) => ReservedOk(s, tx)
    case JobLocked(job) => ReservedOk(s, tx) && JobAccountOk(s, job)
    case Sweeping(job, targets, swept) =>
      ReservedOk(s, tx) && JobAccountOk(s, job) && swept <= targets && targets <= s.owner.Keys && TargetsOk(s, job, targets)
  }

  ghost predicate TargetsOk(s: State, job: Job, targets: set<Hash>)
    requires targets <= s.owner.Keys
  {
    && (forall sub :: JobAccount(job) == Some(sub) ==>
          TokensOf(s.db, sub) <= targets && forall h :: h in targets ==> s.owner[h] == sub)
    && (job.RevokeOne? ==> targets <= {job.hash})
    && (job.Clean? ==> forall h :: h in targets && h in s.db.tokens ==> Expired(s.db.tokens[h], job.now))
  }

  ghost predicate ReservedOk(s: State, tx: Tx) {
    tx.Reserved().Some? ==>
      tx.Reserved().value in s.generated && forall a :: a in s.db.accounts ==> s.db.accounts[a] != tx.Reserved().value
  }

  ghost predicate JobAccountOk(s: State, job: Job) {
    JobAccount(job).Some? ==> JobAccount(job).value in s.db.accounts
  }

  // Two transactions in flight share no lock and nothing fresh.
  ghost predicate Apart(x: Tx, y: Tx) {
    && (x.Account().Some? ==> x.Account() != y.Account())
    && x.Tokens() !! y.Tokens()
    && (x.Inserting().Some? ==> x.Inserting() != y.Inserting() && x.Inserting().value !in y.Mentioned())
    && (y.Inserting().Some? ==> y.Inserting().value !in x.Mentioned())
    && (x.Reserved().Some? ==> x.Reserved() != y.Reserved())
  }

  ghost predicate Inv(s: State) {
    && Consistent(s.db, s.owner)
    && (forall a :: a in s.db.accounts ==> s.db.accounts[a] in s.generated)
    && (forall a, b :: a in s.db.accounts && b in s.db.accounts && a != b ==> s.db.accounts[a] != s.db.accounts[b])
    && (forall t :: t in s.txs ==> TxOk(s, s.txs[t]))
    && (forall t, u :: t in s.txs && u in s.txs && t != u ==> Apart(s.txs[t], s.txs[u]))
    && NewRootsFree(s)
  }

  // A session about to begin has no row yet.
  ghost predicate NewRootsFree(s: State) {
    forall t, h :: t in s.txs && s.txs[t].IssueSigned? && h in s.db.tokens ==> s.db.tokens[h].root != s.txs[t].newHash
  }

  // Nothing is in flight, and an access token already out has its account's generation or a used-up one.
  ghost predicate Init(s: State) {
    && s.txs == map[]
    && Consistent(s.db, s.owner)
    && (forall access :: access in s.signed ==> access.authId in s.generated)
    && (forall a :: a in s.db.accounts ==> s.db.accounts[a] in s.generated)
    && (forall a, b :: a in s.db.accounts && b in s.db.accounts && a != b ==> s.db.accounts[a] != s.db.accounts[b])
  }

  // ----- steps that leave the committed rows alone

  ghost predicate SameRows(s: State, r: State) {
    && s.db == r.db
    && s.owner.Keys <= r.owner.Keys
    && (forall h :: h in s.owner ==> s.owner[h] == r.owner[h])
    && s.generated <= r.generated
  }

  ghost predicate Alone(s: State, t: TxId, tx: Tx) {
    forall u :: u in s.txs && u != t ==> Apart(s.txs[u], tx)
  }

  lemma BecomeKeepsInv(s: State, r: State, t: TxId, tx: Tx)
    requires Inv(s) && SameRows(s, r) && r.txs == s.txs[t := tx]
    requires TxOk(r, tx) && Alone(s, t, tx)
    requires tx.IssueSigned? ==> tx.newHash !in s.owner
    ensures Inv(r)
  {
    forall u | u in r.txs ensures TxOk(r, r.txs[u]) {
      assert u in s.txs && u != t ==> TxOk(s, s.txs[u]);
    }
    forall u, v | u in r.txs && v in r.txs && u != v ensures Apart(r.txs[u], r.txs[v]) {
      assert u != t && v != t ==> Apart(s.txs[u], s.txs[v]);
      assert u == t ==> Apart(s.txs[v], tx);
      assert v == t ==> Apart(s.txs[u], tx);
    }
    assert NewRootsFree(r);
  }

  lemma EndKeepsInv(s: State, t: TxId)
    requires Inv(s)
    ensures Inv(End(s, t))
  {
    var r := End(s, t);
    forall u | u in r.txs ensures TxOk(r, r.txs[u]) {
      assert TxOk(s, s.txs[u]);
    }
    forall u, v | u in r.txs && v in r.txs && u != v ensures Apart(r.txs[u], r.txs[v]) {
      assert Apart(s.txs[u], s.txs[v]);
    }
    assert NewRootsFree(r);
  }

  lemma LockForIssueKeepsInv(s: State, act: Action)
    requires Inv(s) && Enabled(s, act)
    requires act.LockForIssue?
    ensures Inv(Apply(s, act))
  {
    var tx := s.txs[act.t];
    var r := Apply(s, act);
    assert TxOk(s, tx);
    EndKeepsInv(s, act.t);
    if act.t in r.txs {
      forall u | u in s.txs && u != act.t ensures Apart(s.txs[u], r.txs[act.t]) {
        assert Apart(s.txs[u], tx);
      }
      BecomeKeepsInv(s, r, act.t, r.txs[act.t]);
    }
  }

  lemma LockForRefreshKeepsInv(s: State, act: Action)
    requires Inv(s) && Enabled(s, act)
    requires act.LockForRefresh?
    ensures Inv(Apply(s, act))
  {
    var tx := s.txs[act.t];
    var r := Apply(s, act);
    assert TxOk(s, tx);
    EndKeepsInv(s, act.t);
    if act.t in r.txs {
      forall u | u in s.txs && u != act.t ensures Apart(s.txs[u], r.txs[act.t]) {
        assert Apart(s.txs[u], tx);
      }
      BecomeKeepsInv(s, r, act.t, r.txs[act.t]);
    }
  }

  lemma LockForJobKeepsInv(s: State, act: Action)
    requires Inv(s) && Enabled(s, act)
    requires act.LockForJob?
    ensures Inv(Apply(s, act))
  {
    var tx := s.txs[act.t];
    var r := Apply(s, act);
    assert TxOk(s, tx);
    EndKeepsInv(s, act.t);
    if act.t in r.txs {
      forall u | u in s.txs && u != act.t ensures Apart(s.txs[u], r.txs[act.t]) {
        assert Apart(s.txs[u], tx);
      }
      BecomeKeepsInv(s, r, act.t, r.txs[act.t]);
    }
  }

  lemma StartIssueKeepsInv(s: State, t: TxId, sub: Sub)
    requires Inv(s) && Enabled(s, StartIssue(t, sub))
    ensures Inv(Apply(s, StartIssue(t, sub)))
  {
    var r := Apply(s, StartIssue(t, sub));
    forall u | u in s.txs ensures Apart(s.txs[u], r.txs[t]) {
      assert TxOk(s, s.txs[u]);
    }
    BecomeKeepsInv(s, r, t, r.txs[t]);
  }

  lemma ReadKeepsInv(s: State, t: TxId, hash: Hash, now: int)
    requires Inv(s) && Enabled(s, Read(t, hash, now))
    ensures Inv(Apply(s, Read(t, hash, now)))
  {
    var r := Apply(s, Read(t, hash, now));
    if t in r.txs {
      forall u | u in s.txs ensures Apart(s.txs[u], r.txs[t]) {
        assert TxOk(s, s.txs[u]);
      }
      BecomeKeepsInv(s, r, t, r.txs[t]);
    }
  }

  lemma StartJobKeepsInv(s: State, t: TxId, job: Job)
    requires Inv(s) && Enabled(s, StartJob(t, job))
    ensures Inv(Apply(s, StartJob(t, job)))
  {
    var r := Apply(s, StartJob(t, job));
    forall u | u in s.txs ensures Apart(s.txs[u], r.txs[t]) {
      assert TxOk(s, s.txs[u]);
    }
    BecomeKeepsInv(s, r, t, r.txs[t]);
  }

  lemma ConsumeKeepsInv(s: State, t: TxId, now: int)
    requires Inv(s) && Enabled(s, Consume(t, now))
    ensures Inv(Apply(s, Consume(t, now)))
  {
    var tx := s.txs[t];
    var r := Apply(s, Consume(t, now));
    assert TxOk(s, tx);
    EndKeepsInv(s, t);
    if t in r.txs {
      forall u | u in s.txs && u != t ensures Apart(s.txs[u], r.txs[t]) {
        assert Apart(s.txs[u], tx);
      }
      BecomeKeepsInv(s, r, t, r.txs[t]);
    }
  }

  lemma SignKeepsInv(s: State, t: TxId, newHash: Hash, accessExpiry: int, refreshExpiry: int)
    requires Inv(s) && Enabled(s, Sign(t, newHash, accessExpiry, refreshExpiry))
    ensures Inv(SignSession(s, t, newHash, accessExpiry, refreshExpiry))
  {
    var tx := s.txs[t];
    var r := SignSession(s, t, newHash, accessExpiry, refreshExpiry);
    assert TxOk(s, tx);
    forall u | u in s.txs && u != t ensures Apart(s.txs[u], r.txs[t]) {
      assert Apart(s.txs[u], tx) && TxOk(s, s.txs[u]);
    }
    BecomeKeepsInv(s, r, t, r.txs[t]);
  }

  lemma TargetsAreRows(s: State, job: Job, targets: set<Hash>)
    requires Inv(s) && Matches(s, job, targets)
    ensures targets <= s.db.tokens.Keys && targets <= s.owner.Keys && TargetsOk(s, job, targets)
  {
  }

  lemma SweepStartKeepsInv(s: State, t: TxId, targets: set<Hash>)
    requires Inv(s) && Enabled(s, Sweep(t, targets))
    ensures Inv(Apply(s, Sweep(t, targets)))
  {
    var tx := s.txs[t];
    var next := Sweeping(tx.job, targets, {});
    assert TxOk(s, tx);
    TargetsAreRows(s, tx.job, targets);
    forall u | u in s.txs && u != t ensures Apart(s.txs[u], next) {
      assert Apart(s.txs[u], tx) && TxOk(s, s.txs[u]);
    }
    BecomeKeepsInv(s, Become(s, t, next), t, next);
  }

  lemma SweepOneKeepsInv(s: State, act: Action)
    requires Inv(s) && Enabled(s, act) && act.SweepOne?
    ensures Inv(Apply(s, act))
  {
    var tx := s.txs[act.t];
    var r := Apply(s, act);
    assert TxOk(s, tx);
    forall u | u in s.txs && u != act.t ensures Apart(s.txs[u], r.txs[act.t]) {
      assert Apart(s.txs[u], tx);
    }
    BecomeKeepsInv(s, r, act.t, r.txs[act.t]);
  }

  // ----- steps that change the committed rows

  lemma CreateKeepsInv(s: State, sub: Sub, authId: AuthId)
    requires Inv(s) && Enabled(s, CreateAccount(sub, authId))
    ensures Inv(Apply(s, CreateAccount(sub, authId)))
  {
    var r := Apply(s, CreateAccount(sub, authId));
    forall u | u in r.txs ensures TxOk(r, r.txs[u]) {
      assert TxOk(s, s.txs[u]);
    }
    assert NewRootsFree(r);
  }

  lemma InsertKeepsConsistent(s: State, t: TxId)
    requires Inv(s) && t in s.txs && (s.txs[t].IssueSigned? || s.txs[t].RefreshSigned?)
    ensures Consistent(Write(s.db, s.txs[t]), s.owner)
  {
    assert TxOk(s, s.txs[t]);
  }

  lemma InsertKeepsOthers(s: State, t: TxId, u: TxId)
    requires Inv(s) && t in s.txs && (s.txs[t].IssueSigned? || s.txs[t].RefreshSigned?)
    requires u in s.txs && u != t
    ensures TxOk(s.(db := Write(s.db, s.txs[t])), s.txs[u])
  {
    assert TxOk(s, s.txs[t]) && TxOk(s, s.txs[u]) && Apart(s.txs[t], s.txs[u]);
  }

  lemma SweepKeepsConsistent(s: State, t: TxId)
    requires Inv(s) && t in s.txs && s.txs[t].Sweeping? && Ready(s.txs[t])
    ensures Consistent(Write(s.db, s.txs[t]), s.owner)
  {
    var Sweeping(job, targets, _) := s.txs[t];
    var db := Write(s.db, s.txs[t]);
    assert TxOk(s, s.txs[t]);
    forall h | h in db.tokens && JobAccount(job).Some? ensures db.tokens[h].sub != JobAccount(job).value {
      assert h !in TokensOf(s.db, JobAccount(job).value);
    }
  }

  lemma SweepKeepsOthers(s: State, t: TxId, u: TxId)
    requires Inv(s) && t in s.txs && s.txs[t].Sweeping? && Ready(s.txs[t])
    requires u in s.txs && u != t
    ensures TxOk(s.(db := Write(s.db, s.txs[t])), s.txs[u])
  {
    assert TxOk(s, s.txs[t]) && TxOk(s, s.txs[u]) && Apart(s.txs[t], s.txs[u]);
  }

  lemma CommitKeepsInv(s: State, t: TxId)
    requires Inv(s) && Enabled(s, Commit(t))
    ensures Inv(Apply(s, Commit(t)))
  {
    var r := s.(db := Write(s.db, s.txs[t]));
    assert TxOk(s, s.txs[t]);
    var w := End(r, t);
    if s.txs[t].Sweeping? { SweepKeepsConsistent(s, t); } else { InsertKeepsConsistent(s, t); }
    forall u | u in w.txs ensures TxOk(w, w.txs[u]) {
      if s.txs[t].Sweeping? { SweepKeepsOthers(s, t, u); } else { InsertKeepsOthers(s, t, u); }
    }
    forall u, v | u in w.txs && v in w.txs && u != v ensures Apart(w.txs[u], w.txs[v]) {
      assert Apart(s.txs[u], s.txs[v]);
    }
    if s.txs[t].Sweeping? { SweepKeepsRoots(s, t); } else { InsertKeepsRoots(s, t); }
  }

  lemma InsertKeepsRoots(s: State, t: TxId)
    requires Inv(s) && t in s.txs && (s.txs[t].IssueSigned? || s.txs[t].RefreshSigned?)
    ensures NewRootsFree(End(s.(db := Write(s.db, s.txs[t])), t))
  {
    assert TxOk(s, s.txs[t]);
    forall u | u in s.txs && u != t ensures Apart(s.txs[t], s.txs[u]) && TxOk(s, s.txs[u]) {
    }
  }

  lemma SweepKeepsRoots(s: State, t: TxId)
    requires Inv(s) && t in s.txs && s.txs[t].Sweeping?
    ensures NewRootsFree(End(s.(db := Write(s.db, s.txs[t])), t))
  {
  }

  lemma StepKeepsInv(s: State, act: Action)
    requires Inv(s) && Enabled(s, act)
    ensures Inv(Apply(s, act))
  {
    match act
    case CreateAccount(sub, authId) => CreateKeepsInv(s, sub, authId);
    case StartIssue(t, sub) => StartIssueKeepsInv(s, t, sub);
    case Read(t, hash, now) => ReadKeepsInv(s, t, hash, now);
    case StartJob(t, job) => StartJobKeepsInv(s, t, job);
    case LockForIssue(_) => LockForIssueKeepsInv(s, act);
    case LockForRefresh(_) => LockForRefreshKeepsInv(s, act);
    case LockForJob(_) => LockForJobKeepsInv(s, act);
    case Consume(t, now) => ConsumeKeepsInv(s, t, now);
    case Sign(t, newHash, accessExpiry, refreshExpiry) => SignKeepsInv(s, t, newHash, accessExpiry, refreshExpiry);
    case Sweep(t, targets) => SweepStartKeepsInv(s, t, targets);
    case SweepOne(_, _) => SweepOneKeepsInv(s, act);
    case Commit(t) => CommitKeepsInv(s, t);
    case Abort(t) => EndKeepsInv(s, t);
  }
}
