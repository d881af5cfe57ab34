/** The budgets that guard one-time codes: two in sequence for issuing a code, one for verifying it. */
module OtpBudgets {
  import opened Wrappers
  import opened Decimal
  import opened RateLimit
  import opened RateSafety
  import opened RateBound

  datatype Purpose = Login | EmailChange
  datatype Budget = IssueMinute | IssueWindow | Verify

  function Scope(purpose: Purpose, budget: Budget): string {
    (match purpose case Login => "login" case EmailChange => "email_change") +
    (match budget case IssueMinute => ".issue.minute" case IssueWindow => ".issue.window" case Verify => ".verify")
  }

  function Window(budget: Budget): int {
    if budget.IssueMinute? then 60 else 600
  }

  function Limit(budget: Budget): int {
    if budget.IssueMinute? then 1 else 5
  }

  function Charge(purpose: Purpose, budget: Budget, key: string, now: int): (op: Op)
    ensures op.Take? && ValidRequest(op.window, op.limit)
  {
    Take(Id(Scope(purpose, budget), key), now, Window(budget), Limit(budget))
  }

  // No two budgets share a scope.
  lemma ScopesAreDistinct(p: Purpose, b: Budget, q: Purpose, c: Budget)
    ensures Scope(p, b) == Scope(q, c) <==> p == q && b == c
  {
    assert Scope(p, b)[0] == (if p.Login? then 'l' else 'e');
    assert Scope(q, c)[0] == (if q.Login? then 'l' else 'e');
    if p == q {
      var n := if p.Login? then 5 else 12;
      assert Scope(p, b)[n + 1] == (if b.Verify? then 'v' else 'i');
      assert Scope(p, c)[n + 1] == (if c.Verify? then 'v' else 'i');
      assert !b.Verify? ==> Scope(p, b)[n + 7] == (if b.IssueMinute? then 'm' else 'w');
      assert !c.Verify? ==> Scope(p, c)[n + 7] == (if c.IssueMinute? then 'm' else 'w');
    }
  }

  lemma ScopeNames()
    ensures Scope(Login, IssueMinute) == "login.issue.minute" && Scope(EmailChange, IssueMinute) == "email_change.issue.minute"
    ensures Scope(Login, IssueWindow) == "login.issue.window" && Scope(EmailChange, IssueWindow) == "email_change.issue.window"
    ensures Scope(Login, Verify) == "login.verify" && Scope(EmailChange, Verify) == "email_change.verify"
  {
  }

  datatype Verdict = Allowed | Limited(retryAfter: string) | Unavailable

  function VerdictOf(r: Result<int, Refusal>): Verdict {
    match r
    case Err(_) => Unavailable
    case Ok(d) => if d > 0 then Limited(FormatInt(d)) else Allowed
  }

  // ----- over whole runs

  // All requests are those the handlers make.
  ghost predicate Budgeted(ops: seq<Op>) {
    forall i {:trigger ops[i].Take?} :: 0 <= i < |ops| && ops[i].Take? ==>
      exists p, b :: ops[i] == Charge(p, b, ops[i].id.key, ops[i].now)
  }

  lemma BudgetsAreUniform(ops: seq<Op>, purpose: Purpose, budget: Budget, key: string)
    requires Budgeted(ops)
    ensures Uniform(ops, Id(Scope(purpose, budget), key), Window(budget), Limit(budget))
  {
    forall i | 0 <= i < |ops| && Counts(ops[i], Id(Scope(purpose, budget), key))
      ensures ops[i].window == Window(budget) && ops[i].limit == Limit(budget)
    {
      var p, b :| ops[i] == Charge(p, b, ops[i].id.key, ops[i].now);
      ScopesAreDistinct(p, b, purpose, budget);
    }
  }

  // The request at step j falls within the window that step i opened.
  ghost predicate Within(ops: seq<Op>, id: Id, i: nat, j: nat, seconds: int)
    requires i <= j < |ops|
  {
    Opens(ops, id, i) && Counts(ops[j], id) && forall k :: i < k <= j && Counts(ops[k], id) ==> ops[k].now < ops[i].now + seconds
  }

  // A budget lets through the first of each minute, or the first five of each ten minutes, and no others.
  lemma BudgetsAreExact(ops: seq<Op>, purpose: Purpose, budget: Budget, key: string, i: nat, j: nat)
    requires Run(ops) && Budgeted(ops) && i <= j < |ops|
    requires Within(ops, Id(Scope(purpose, budget), key), i, j, if budget == IssueMinute then 60 else 600)
    ensures AnswerAt(ops, j) == Ok(0) <==>
              Charges(ops, Id(Scope(purpose, budget), key), i, j + 1) <= if budget == IssueMinute then 1 else 5
  {
    BudgetsAreUniform(ops, purpose, budget, key);
    WindowIsExact(ops, Id(Scope(purpose, budget), key), i, j);
  }

  // In any ten minutes a key passes verification checks, and window checks for issuing, at most ten times.
  lemma TenPerTenMinutes(ops: seq<Op>, purpose: Purpose, budget: Budget, key: string, from: int)
    requires Run(ops) && Budgeted(ops) && !budget.IssueMinute?
    ensures Admissions(ops, Id(Scope(purpose, budget), key), |ops|, from, from + 600) <= 10
  {
    BudgetsAreUniform(ops, purpose, budget, key);
    RateIsBounded(ops, Id(Scope(purpose, budget), key), 600, 5, from, from + 600);
    WindowsRoundUp(600, 600);
  }

  // One issuance: the minute budget admits it, and later the window budget does.
  ghost predicate Issuance(ops: seq<Op>, purpose: Purpose, key: string, i: nat, k: nat) {
    i < k < |ops| && Admitted(ops, Id(Scope(purpose, IssueMinute), key), i) && Admitted(ops, Id(Scope(purpose, IssueWindow), key), k)
  }

  ghost predicate TwoIssuances(ops: seq<Op>, purpose: Purpose, key: string, i: nat, k: nat, j: nat, l: nat) {
    && Run(ops) && Budgeted(ops) && i < j
    && Issuance(ops, purpose, key, i, k) && Issuance(ops, purpose, key, j, l)
  }

  function Distance(a: int, b: int): nat {
    if a <= b then b - a else a - b
  }

  // What is left of a minute after a delay.
  function RestOfMinute(delay: int): int {
    if delay < 60 then 60 - delay else 0
  }

  // Two codes for one key are issued a minute apart, less the time the first request took between
  // its two checks.
  lemma IssuancesAreSpaced(ops: seq<Op>, purpose: Purpose, key: string, i: nat, k: nat, j: nat, l: nat)
    requires TwoIssuances(ops, purpose, key, i, k, j, l)
    ensures ops[j].now >= ops[i].now + 60
    ensures Distance(ops[k].now, ops[l].now) >= RestOfMinute(ops[k].now - ops[i].now)
  {
    BudgetsAreUniform(ops, purpose, IssueMinute, key);
    AdmissionsAreSpaced(ops, Id(Scope(purpose, IssueMinute), key), 60, i, j);
  }

  // A first request that takes `delay` between its checks, and a second one as early as it is admitted.
  function Tightest(purpose: Purpose, key: string, delay: nat): seq<Op> {
    var next := if delay < 60 then 60 else delay;
    [Charge(purpose, IssueMinute, key, 0), Charge(purpose, IssueWindow, key, delay),
     Charge(purpose, IssueMinute, key, next), Charge(purpose, IssueWindow, key, next)]
  }

  lemma TightestIsAdmitted(purpose: Purpose, key: string, delay: nat)
    ensures TwoIssuances(Tightest(purpose, key, delay), purpose, key, 0, 1, 2, 3)
  {
    var ops := Tightest(purpose, key, delay);
    var minute, window := Id(Scope(purpose, IssueMinute), key), Id(Scope(purpose, IssueWindow), key);
    ScopesAreDistinct(purpose, IssueMinute, purpose, IssueWindow);
    assert Budgeted(ops) by {
      forall i {:trigger ops[i].Take?} | 0 <= i < |ops| ensures exists p, b :: ops[i] == Charge(p, b, ops[i].id.key, ops[i].now) {
        assert ops[i] == Charge(purpose, if i % 2 == 0 then IssueMinute else IssueWindow, key, ops[i].now);
      }
    }
    assert Run(ops);
    assert Ideal(ops, minute, 1) == Some(Opened(0, 60, 1));
    assert Ideal(ops, minute, 2) == Ideal(ops, minute, 1);
    assert Ideal(ops, minute, 3) == Some(Opened(ops[2].now, 60, 1));
    assert Ideal(ops, window, 1) == None;
    assert Ideal(ops, window, 2) == Some(Opened(delay, 600, 5));
    assert Ideal(ops, window, 3) == Ideal(ops, window, 2);
    assert Ideal(ops, window, 4) == Some(Bucket(delay, 5, 2, delay + 600));
    AnswersAreIdeal(ops, 0);
    AnswersAreIdeal(ops, 1);
    AnswersAreIdeal(ops, 2);
    AnswersAreIdeal(ops, 3);
  }

  // No larger distance than that can be promised, whatever the delay.
  lemma IssuanceDistanceIsExact(purpose: Purpose, key: string, delay: nat, g: int)
    ensures (forall ops: seq<Op>, i: nat, k: nat, j: nat, l: nat ::
               TwoIssuances(ops, purpose, key, i, k, j, l) && ops[k].now - ops[i].now == delay ==>
                 Distance(ops[k].now, ops[l].now) >= g)
            <==> g <= RestOfMinute(delay)
  {
    if g <= RestOfMinute(delay) {
      forall ops: seq<Op>, i: nat, k: nat, j: nat, l: nat | TwoIssuances(ops, purpose, key, i, k, j, l) && ops[k].now - ops[i].now == delay
        ensures Distance(ops[k].now, ops[l].now) >= g
      {
        IssuancesAreSpaced(ops, purpose, key, i, k, j, l);
      }
    } else {
      var ops := Tightest(purpose, key, delay);
      TightestIsAdmitted(purpose, key, delay);
      assert Distance(ops[1].now, ops[3].now) == RestOfMinute(delay);
    }
  }
}
