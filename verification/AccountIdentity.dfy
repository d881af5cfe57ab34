/** Accounts, their unique addresses, and the high-water mark that keeps subjects from being reused. */
module AccountIdentity {
  import opened Wrappers

  type Sub = int

  datatype Account = Account(email: string, authId: string)

  datatype Directory = Directory(accounts: map<Sub, Account>, lastSub: int)

  ghost predicate Sound(d: Directory) {
    && d.lastSub >= 0
    && (forall a :: a in d.accounts ==> a <= d.lastSub)
    && forall a, b :: a in d.accounts && b in d.accounts && d.accounts[a].email == d.accounts[b].email ==> a == b
  }

  predicate InUse(d: Directory, email: string) {
    exists a :: a in d.accounts && d.accounts[a].email == email
  }

  function Holder(d: Directory, email: string): (sub: Sub)
    requires Sound(d) && InUse(d, email)
    ensures sub in d.accounts && d.accounts[sub].email == email
  {
    var sub :| sub in d.accounts && d.accounts[sub].email == email;
    sub
  }

  datatype InsertError = Duplicate | SubjectReused

  // A plain insertion, with the trigger that follows it.
  function Insert(d: Directory, sub: Sub, account: Account): Result<Directory, InsertError> {
    if sub in d.accounts || InUse(d, account.email) then Err(Duplicate)
    else if sub <= d.lastSub then Err(SubjectReused)
    else Ok(Directory(d.accounts[sub := account], sub))
  }

  // An insertion succeeds exactly for a new address and a subject above the mark; then it adds that
  // one row and moves the mark to it.
  lemma InsertIsExact(d: Directory, sub: Sub, account: Account)
    requires Sound(d)
    ensures Insert(d, sub, account).Ok? <==>
              sub > d.lastSub && forall a :: a in d.accounts ==> d.accounts[a].email != account.email
    ensures Insert(d, sub, account).Ok? ==> Insert(d, sub, account).value == Directory(d.accounts[sub := account], sub)
    ensures Insert(d, sub, account) == Err(SubjectReused) <==>
              sub <= d.lastSub && sub !in d.accounts && forall a :: a in d.accounts ==> d.accounts[a].email != account.email
  {
  }

  // Insert under the next subject unless the address already has an account.
  function Ensure(d: Directory, email: string, authId: string): Result<(Directory, Sub), InsertError>
    requires Sound(d)
  {
    if InUse(d, email) then Ok((d, Holder(d, email)))
    else
      match Insert(d, d.lastSub + 1, Account(email, authId))
      case Err(e) => Err(e)
      case Ok(r) => Ok((r, d.lastSub + 1))
  }

  predicate Unavailable(d: Directory, sub: Sub, email: string) {
    exists a :: a in d.accounts && a != sub && d.accounts[a].email == email
  }

  // Changing an account that is gone changes nothing.
  function ChangeEmail(d: Directory, sub: Sub, email: string): Option<Directory> {
    if sub !in d.accounts then Some(d)
    else if Unavailable(d, sub, email) then None
    else Some(d.(accounts := d.accounts[sub := d.accounts[sub].(email := email)]))
  }

  // The trigger never stands in the way of a new account: in every reachable directory the address
  // ends up with exactly one account. If it had one, that is it, and nothing changes; otherwise one row
  // is added, of the given generation, under a subject that is positive and was never used.
  lemma EnsureAlwaysSucceeds(d: Directory, email: string, authId: string)
    requires Sound(d)
    ensures var r := Ensure(d, email, authId);
            && r.Ok? && Sound(r.value.0)
            && r.value.1 in r.value.0.accounts && r.value.0.accounts[r.value.1].email == email
            && (forall a :: a in d.accounts ==> a in r.value.0.accounts && r.value.0.accounts[a] == d.accounts[a])
            && r.value.0.accounts.Keys == d.accounts.Keys + {r.value.1}
            && (!InUse(d, email) ==> r.value.1 > d.lastSub && r.value.0.lastSub == r.value.1)
            && (!InUse(d, email) ==> r.value.0.accounts == d.accounts[r.value.1 := Account(email, authId)])
            && ((exists a :: a in d.accounts && d.accounts[a].email == email) ==> r.value.0 == d && r.value.1 in d.accounts)
  {
  }

  // ----- over whole runs

  datatype Op =
    | EnsureAccount(email: string, authId: string)
    | InsertAccount(sub: Sub, account: Account)
    | SetEmail(sub: Sub, email: string)
    | SetAuthId(sub: Sub, authId: string)
    | DeleteAccount(sub: Sub)

  // A statement that fails changes nothing.
  function Apply(d: Directory, op: Op): Directory
    requires Sound(d)
  {
    match op
    case EnsureAccount(email, authId) => (match Ensure(d, email, authId) case Ok(r) => r.0 case Err(_) => d)
    case InsertAccount(sub, account) => (match Insert(d, sub, account) case Ok(r) => r case Err(_) => d)
    case SetEmail(sub, email) => (match ChangeEmail(d, sub, email) case Some(r) => r case None => d)
    case SetAuthId(sub, authId) =>
      if sub in d.accounts then d.(accounts := d.accounts[sub := d.accounts[sub].(authId := authId)]) else d
    case DeleteAccount(sub) => d.(accounts := d.accounts - {sub})
  }

  // What any operation leaves behind, and any number of them: subjects that were not there before
  // lie above the earlier mark.
  ghost predicate Later(d: Directory, r: Directory) {
    && d.lastSub <= r.lastSub
    && forall a :: a in r.accounts ==> a in d.accounts || d.lastSub < a
  }

  lemma ApplyKeepsSound(d: Directory, op: Op)
    requires Sound(d)
    ensures Sound(Apply(d, op)) && Later(d, Apply(d, op))
  {
    match op
    case EnsureAccount(email, authId) => EnsureAlwaysSucceeds(d, email, authId);
    case _ =>
  }

  // The directory after the first n operations, from whatever the migration found.
  function Play(start: Directory, ops: seq<Op>, n: nat): (d: Directory)
    requires Sound(start) && n <= |ops|
    ensures Sound(d)
  {
    if n == 0 then start
    else
      ApplyKeepsSound(Play(start, ops, n - 1), ops[n - 1]);
      Apply(Play(start, ops, n - 1), ops[n - 1])
  }

  lemma LaterIsTransitive(d: Directory, m: Directory, r: Directory)
    requires Later(d, m) && Later(m, r)
    ensures Later(d, r)
  {
  }

  lemma {:induction false} PlayIsLater(start: Directory, ops: seq<Op>, i: nat, n: nat)
    requires Sound(start) && i <= n <= |ops|
    ensures Later(Play(start, ops, i), Play(start, ops, n))
  {
    if i < n {
      var before := Play(start, ops, n - 1);
      PlayIsLater(start, ops, i, n - 1);
      ApplyKeepsSound(before, ops[n - 1]);
      LaterIsTransitive(Play(start, ops, i), before, Apply(before, ops[n - 1]));
    }
  }

  lemma AppearsAbove(d: Directory, m: Directory, r: Directory, sub: Sub, earlier: Sub)
    requires Sound(d) && Later(d, m) && Later(m, r) && earlier in d.accounts
    requires sub in r.accounts && sub !in m.accounts
    ensures earlier < sub
  {
  }

  // A subject that appears is larger than every subject of every earlier moment, deleted or not;
  // so a deleted subject never comes back.
  lemma NewSubjectsExceedAll(start: Directory, ops: seq<Op>, i: nat, j: nat, n: nat, sub: Sub, earlier: Sub)
    requires Sound(start) && i <= j <= n <= |ops|
    requires sub !in Play(start, ops, j).accounts && sub in Play(start, ops, n).accounts
    requires earlier in Play(start, ops, i).accounts
    ensures earlier < sub
  {
    PlayIsLater(start, ops, i, j);
    PlayIsLater(start, ops, j, n);
    AppearsAbove(Play(start, ops, i), Play(start, ops, j), Play(start, ops, n), sub, earlier);
  }
}
