/** Issue, Refresh, RevokeAll, Revoke and account deletion cannot deadlock each other. */
module SessionDeadlock {
  import opened Wrappers
  import opened Sessions
  import opened SessionSafety

  function WantsAccount(tx: Tx): Option<Sub> {
    match tx
    case IssueBegun(sub) => Some(sub)
    case RefreshRead(_, saved) => Some(saved.sub)
    case JobBegun(job) => JobAccount(job)
    case _ => None
  }

  function WantsTokens(tx: Tx): set<Hash> {
    match tx
    case RefreshLocked(hash, _) => {hash}
    case Sweeping(_, targets, swept) => targets - swept
    case _ => {}
  }

  // t asks for a row lock that u holds, and u keeps it to its end.
  ghost predicate WaitsFor(s: State, t: TxId, u: TxId) {
    && t in s.txs && u in s.txs && t != u
    && ((WantsAccount(s.txs[t]).Some? && WantsAccount(s.txs[t]) == s.txs[u].Account())
        || !(WantsTokens(s.txs[t]) !! s.txs[u].Tokens()))
  }

  // Expiry cleanup locks rows of many accounts in no particular order.
  predicate IsCleanup(tx: Tx) {
    match tx
    case JobBegun(job) => job.Clean?
    case JobLocked(job) => job.Clean?
    case Sweeping(job, _, _) => job.Clean?
    case _ => false
  }

  // 2: holds nothing; 1: holds its account and may ask for tokens; 0: asks for nothing.
  function Rank(tx: Tx): nat {
    match tx
    case IssueBegun(_) => 2
    case RefreshRead(_, _) => 2
    case JobBegun(_) => 2
    case RefreshLocked(_, _) => 1
    case Sweeping(RevokeOne(_), targets, swept) => if swept == targets then 0 else 2
    case Sweeping(_, _, _) => 1
    case _ => 0
  }

  // Whoever of Refresh, RevokeAll and deletion holds a token row holds its account row too.
  lemma TokenHoldersHoldTheAccount(s: State, t: TxId, hash: Hash)
    requires Inv(s) && t in s.txs && hash in s.txs[t].Tokens()
    requires !IsCleanup(s.txs[t]) && !(s.txs[t].Sweeping? && s.txs[t].job.RevokeOne?)
    ensures hash in s.owner && s.txs[t].Account() == Some(s.owner[hash])
  {
    assert TxOk(s, s.txs[t]);
  }

  lemma WaitersOutrankHolders(s: State, t: TxId, u: TxId)
    requires Inv(s) && WaitsFor(s, t, u) && !IsCleanup(s.txs[t]) && !IsCleanup(s.txs[u])
    ensures Rank(s.txs[u]) < Rank(s.txs[t])
  {
    var x, y := s.txs[t], s.txs[u];
    assert TxOk(s, x) && TxOk(s, y) && Apart(x, y);
    if WantsTokens(x) * y.Tokens() != {} {
      var h :| h in WantsTokens(x) && h in y.Tokens();
      if !(y.Sweeping? && y.job.RevokeOne?) {
        TokenHoldersHoldTheAccount(s, u, h);
      }
    }
  }

  ghost predicate Chain(s: State, path: seq<TxId>) {
    && (forall i :: 0 <= i < |path| ==> path[i] in s.txs && !IsCleanup(s.txs[path[i]]))
    && forall i :: 0 <= i < |path| - 1 ==> WaitsFor(s, path[i], path[i + 1])
  }

  lemma {:induction false} ChainsDescend(s: State, path: seq<TxId>, j: nat)
    requires Inv(s) && Chain(s, path) && j < |path|
    ensures Rank(s.txs[path[j]]) + j <= Rank(s.txs[path[0]])
  {
    if j > 0 {
      ChainsDescend(s, path, j - 1);
      assert WaitsFor(s, path[j - 1], path[j - 1 + 1]);
      WaitersOutrankHolders(s, path[j - 1], path[j]);
    }
  }

  // In every reachable state the wait-for relation has no cycle, and no chain of more than
  // three transactions.
  lemma NoDeadlock(run: Run, k: nat, path: seq<TxId>)
    requires Valid(run) && k < |run.states| && Chain(run.states[k], path)
    ensures |path| <= 3
    ensures |path| > 1 ==> path[0] != path[|path| - 1]
  {
    RunKeepsInv(run, k);
    if |path| > 1 {
      ChainsDescend(run.states[k], path, |path| - 1);
    }
  }

  // ----- progress

  // An action by which a transaction moves on, as opposed to giving up.
  ghost predicate MovesOn(act: Action, t: TxId) {
    match act
    case LockForIssue(u) => u == t
    case LockForRefresh(u) => u == t
    case Consume(u, _) => u == t
    case Sign(u, _, _, _) => u == t
    case LockForJob(u) => u == t
    case Sweep(u, _) => u == t
    case SweepOne(u, _) => u == t
    case Commit(u) => u == t
    case _ => false
  }

  lemma {:induction false} UnusedHash(used: set<Hash>) returns (hash: Hash)
    ensures hash !in used && forall h :: h in used ==> |h| < |hash|
  {
    if used == {} {
      hash := "x";
    } else {
      var h :| h in used;
      hash := UnusedHash(used - {h});
      hash := hash + h + "x";
      assert forall g :: g in used ==> g == h || g in used - {h};
    }
  }

  lemma UnblockedLocksAreFree(s: State, t: TxId)
    requires t in s.txs && forall u :: !WaitsFor(s, t, u)
    ensures WantsAccount(s.txs[t]).Some? ==> s.AccountFree(t, WantsAccount(s.txs[t]).value)
    ensures forall h :: h in WantsTokens(s.txs[t]) ==> s.TokenFree(t, h)
  {
    forall u | u in s.txs && u != t
      ensures WantsAccount(s.txs[t]).Some? ==> s.txs[u].Account() != WantsAccount(s.txs[t])
      ensures WantsTokens(s.txs[t]) !! s.txs[u].Tokens()
    {
      assert !WaitsFor(s, t, u);
    }
  }

  function AllTargets(db: Db, job: Job): set<Hash> {
    match job
    case RevokeAll(sub, _) => TokensOf(db, sub)
    case DeleteAccount(sub) => TokensOf(db, sub)
    case RevokeOne(hash) => {hash} * db.tokens.Keys
    case Clean(_) => {}
  }

  // A transaction that waits for nobody can move on.
  lemma UnblockedMovesOn(s: State, t: TxId) returns (act: Action)
    requires Inv(s) && t in s.txs && !IsCleanup(s.txs[t])
    requires forall u :: !WaitsFor(s, t, u)
    ensures Enabled(s, act) && MovesOn(act, t)
  {
    var tx := s.txs[t];
    assert TxOk(s, tx);
    UnblockedLocksAreFree(s, t);
    match tx
    case IssueBegun(_) => act := LockForIssue(t);
    case RefreshRead(_, _) => act := LockForRefresh(t);
    case JobBegun(_) => act := LockForJob(t);
    case RefreshLocked(_, _) => act := Consume(t, 0);
    case JobLocked(job) => act := Sweep(t, AllTargets(s.db, job));
    case Sweeping(_, targets, swept) =>
      var left := targets - swept;
      if left == {} {
        assert forall h :: h in targets ==> h in swept || h in left;
        assert targets <= swept;
        act := Commit(t);
      } else {
        var h :| h in left;
        act := SweepOne(t, h);
      }
    case _ =>
      if tx.IssueLocked? || tx.RefreshConsumed? {
        var hash := UnusedHash(s.owner.Keys);
        act := Sign(t, hash, 0, 0);
      } else {
        act := Commit(t);
      }
  }

  lemma {:induction false} LowestRanked(s: State, some: set<TxId>) returns (t: TxId)
    requires some != {} && some <= s.txs.Keys
    ensures t in some && forall u :: u in some ==> Rank(s.txs[t]) <= Rank(s.txs[u])
  {
    t :| t in some;
    if some != {t} {
      var r := LowestRanked(s, some - {t});
      if Rank(s.txs[r]) < Rank(s.txs[t]) {
        t := r;
      }
    }
  }

  // As long as anything is in flight, and no cleanup is, somebody can move on.
  lemma SomebodyMovesOn(run: Run, k: nat)
    requires Valid(run) && k < |run.states| && run.states[k].txs != map[]
    requires forall t :: t in run.states[k].txs ==> !IsCleanup(run.states[k].txs[t])
    ensures exists t, act :: t in run.states[k].txs && MovesOn(act, t) && Enabled(run.states[k], act)
  {
    var s := run.states[k];
    RunKeepsInv(run, k);
    var t := LowestRanked(s, s.txs.Keys);
    forall u ensures !WaitsFor(s, t, u) {
      if WaitsFor(s, t, u) {
        WaitersOutrankHolders(s, t, u);
        assert false;
      }
    }
    var act := UnblockedMovesOn(s, t);
  }
}
