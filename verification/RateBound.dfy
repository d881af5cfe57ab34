/** How many requests a fixed-window budget admits in any interval of time, and what that means for one-time codes. */
module RateBound {
  import opened Wrappers
  import opened RateLimit
  import opened RateSafety

  // Every request counted against this budget uses one window and one limit.
  ghost predicate Uniform(ops: seq<Op>, id: Id, window: int, limit: int) {
    ValidRequest(window, limit) && forall i :: 0 <= i < |ops| && Counts(ops[i], id) ==> ops[i].window == window && ops[i].limit == limit
  }

  predicate Admitted(ops: seq<Op>, id: Id, i: nat)
    requires i < |ops|
  {
    ops[i].Take? && ops[i].id == id && AnswerAt(ops, i) == Ok(0)
  }

  // Admissions among the first n steps with a time in [from, to).
  function Admissions(ops: seq<Op>, id: Id, n: nat, from: int, to: int): nat
    requires n <= |ops|
  {
    if n == 0 then 0
    else Admissions(ops, id, n - 1, from, to) + (if Admitted(ops, id, n - 1) && from <= ops[n - 1].now < to then 1 else 0)
  }

  // How many windows it takes to cover a stretch of time.
  function Windows(stretch: int, window: int): nat
    requires window > 0
    decreases if stretch < 0 then 0 else stretch
  {
    if stretch <= 0 then 0 else 1 + Windows(stretch - window, window)
  }

  // That is the quotient rounded up.
  lemma {:induction false} WindowsRoundUp(stretch: int, window: int)
    requires window > 0 && stretch > 0
    ensures (Windows(stretch, window) - 1) * window < stretch <= Windows(stretch, window) * window
    decreases stretch
  {
    if stretch > window {
      WindowsRoundUp(stretch - window, window);
    }
    var k := Windows(stretch - window, window);
    assert (k + 1) * window == k * window + window;
  }

  lemma {:induction false} WindowsGrow(stretch: int, longer: int, window: int)
    requires window > 0 && stretch <= longer
    ensures Windows(stretch, window) <= Windows(longer, window)
    decreases if longer < 0 then 0 else longer
  {
    if stretch > 0 {
      WindowsGrow(stretch - window, longer - window, window);
    }
  }

  lemma OneMoreWindow(stretch: int, longer: int, window: int)
    requires window > 0 && longer >= stretch + window && longer > 0
    ensures Windows(longer, window) >= Windows(stretch, window) + 1
  {
    WindowsGrow(stretch, longer - window, window);
  }

  // What the admissions so far say about the current row: the row's own window holds
  // Min(requests, limit) of them, and each earlier window that reaches into the interval held `limit` at most.
  ghost predicate Accounted(admissions: nat, row: Option<Bucket>, window: int, limit: int, from: int, to: int)
    requires ValidRequest(window, limit)
  {
    match row
    case None => admissions == 0
    case Some(b) =>
      && b.maxRequests == limit && b.expiresAt == b.startedAt + window && 1 <= b.requests <= limit + 1
      && (b.expiresAt <= from ==> admissions == 0)
      && (b.startedAt < to ==> admissions <= limit * Windows(b.startedAt - from, window) + Spent(b))
      && admissions <= limit * (Windows(to - from, window) + 1)
  }

  function Spent(b: Bucket): int {
    if b.requests <= b.maxRequests then b.requests else b.maxRequests
  }

  lemma TakeIsAccounted(admissions: nat, row: Option<Bucket>, now: int, window: int, limit: int, from: int, to: int)
    requires ValidRequest(window, limit) && from <= to && Accounted(admissions, row, window, limit, from, to)
    requires row.Some? ==> row.value.startedAt <= now
    ensures var next := Upserted(row, Opened(now, window, limit));
            var admitted := RetryAfter(next, now) == 0 && from <= now < to;
            Accounted(admissions + (if admitted then 1 else 0), Some(next), window, limit, from, to)
  {
    var next := Upserted(row, Opened(now, window, limit));
    WindowsAreFewer(next.startedAt, from, to, window, limit);
    if row.Some? && row.value.expiresAt <= now && now < to {
      NextWindow(admissions, row.value, now, window, limit, from, to);
    }
  }

  lemma WindowsAreFewer(startedAt: int, from: int, to: int, window: int, limit: int)
    requires ValidRequest(window, limit) && from <= to
    ensures startedAt < to ==> limit * Windows(startedAt - from, window) + limit <= limit * (Windows(to - from, window) + 1)
    ensures 0 <= limit * Windows(startedAt - from, window)
  {
    if startedAt < to {
      WindowsGrow(startedAt - from, to - from, window);
      TimesGrows(limit, Windows(startedAt - from, window), Windows(to - from, window));
    }
    TimesGrows(limit, 0, Windows(startedAt - from, window));
  }

  lemma TimesGrows(limit: int, a: nat, b: nat)
    requires limit > 0 && a <= b
    ensures limit * a <= limit * b && limit * (b + 1) == limit * b + limit
  {
  }

  // When a window opens, everything admitted before it fits the windows before it.
  lemma NextWindow(admissions: nat, b: Bucket, now: int, window: int, limit: int, from: int, to: int)
    requires ValidRequest(window, limit) && Accounted(admissions, Some(b), window, limit, from, to) && b.expiresAt <= now < to
    ensures admissions <= limit * Windows(now - from, window)
  {
    if admissions > 0 {
      OneMoreWindow(b.startedAt - from, now - from, window);
      var earlier := Windows(b.startedAt - from, window);
      TimesGrows(limit, earlier, earlier);
      TimesGrows(limit, earlier + 1, Windows(now - from, window));
    } else {
      TimesGrows(limit, 0, Windows(now - from, window));
    }
  }

  lemma {:induction false} AdmissionsAreAccounted(ops: seq<Op>, id: Id, n: nat, window: int, limit: int, from: int, to: int)
    requires Run(ops) && Uniform(ops, id, window, limit) && n <= |ops| && from <= to
    ensures Accounted(Admissions(ops, id, n, from, to), Ideal(ops, id, n), window, limit, from, to)
    ensures n > 0 && Ideal(ops, id, n).Some? ==> Ideal(ops, id, n).value.startedAt <= ops[n - 1].now
  {
    if n > 0 {
      AdmissionsAreAccounted(ops, id, n - 1, window, limit, from, to);
      var op := ops[n - 1];
      if op.Take? && op.id == id {
        AnswersAreIdeal(ops, n - 1);
        if Counts(op, id) {
          TakeIsAccounted(Admissions(ops, id, n - 1, from, to), Ideal(ops, id, n - 1), op.now, window, limit, from, to);
        }
      }
    }
  }

  // Any interval [from, to) admits at most limit * (ceiling((to - from) / window) + 1) requests.
  lemma RateIsBounded(ops: seq<Op>, id: Id, window: int, limit: int, from: int, to: int)
    requires Run(ops) && Uniform(ops, id, window, limit) && from <= to
    ensures Admissions(ops, id, |ops|, from, to) <= limit * (Windows(to - from, window) + 1)
  {
    AdmissionsAreAccounted(ops, id, |ops|, window, limit, from, to);
    TimesGrows(limit, 0, Windows(to - from, window) + 1);
  }

  // ----- within one window

  // Requests counted against the budget in steps i .. n - 1.
  function Charges(ops: seq<Op>, id: Id, i: nat, n: nat): nat
    requires i <= n <= |ops|
  {
    if n == i then 0 else Charges(ops, id, i, n - 1) + (if Counts(ops[n - 1], id) then 1 else 0)
  }

  // Step i finds no window of its budget running, so it opens one.
  predicate Opens(ops: seq<Op>, id: Id, i: nat)
    requires i < |ops|
  {
    Counts(ops[i], id) && (Ideal(ops, id, i).None? || Ideal(ops, id, i).value.expiresAt <= ops[i].now)
  }

  ghost predicate InWindow(ops: seq<Op>, id: Id, i: nat, n: nat)
    requires i < n <= |ops| && ops[i].Take?
  {
    forall k :: i < k < n && Counts(ops[k], id) ==> ops[k].now < ops[i].now + ops[i].window
  }

  lemma {:induction false} WindowCounts(ops: seq<Op>, id: Id, i: nat, n: nat)
    requires i < n <= |ops| && Opens(ops, id, i) && InWindow(ops, id, i, n)
    ensures var charges := Charges(ops, id, i, n);
            Ideal(ops, id, n) == Some(Bucket(ops[i].now, ops[i].limit,
              if charges <= ops[i].limit then charges else ops[i].limit + 1, ops[i].now + ops[i].window))
  {
    if i < n - 1 {
      WindowCounts(ops, id, i, n - 1);
    }
  }

  // A window admits its first `limit` requests and no more.
  lemma WindowIsExact(ops: seq<Op>, id: Id, i: nat, j: nat)
    requires Run(ops) && i <= j < |ops| && Opens(ops, id, i) && InWindow(ops, id, i, j + 1) && Counts(ops[j], id)
    ensures AnswerAt(ops, j) == Ok(0) <==> Charges(ops, id, i, j + 1) <= ops[i].limit
  {
    AnswersAreIdeal(ops, j);
    WindowCounts(ops, id, i, j + 1);
  }

  // ----- budgets for one request per window

  lemma {:induction false} AdmissionFillsTheWindow(ops: seq<Op>, id: Id, i: nat, n: nat, window: int)
    requires Run(ops) && Uniform(ops, id, window, 1) && i < n <= |ops| && Counts(ops[i], id)
    ensures Ideal(ops, id, n).Some?
    ensures var b := Ideal(ops, id, n).value;
            b.maxRequests == 1 && b.requests >= 1 && b.expiresAt == b.startedAt + window && b.startedAt <= ops[n - 1].now
    ensures Admitted(ops, id, i) ==> Ideal(ops, id, n).value.startedAt >= ops[i].now
  {
    AdmissionsAreAccounted(ops, id, i, window, 1, 0, 0);
    AnswersAreIdeal(ops, i);
    if i < n - 1 {
      AdmissionFillsTheWindow(ops, id, i, n - 1, window);
    }
  }

  // With a limit of one, admissions are a whole window apart.
  lemma AdmissionsAreSpaced(ops: seq<Op>, id: Id, window: int, i: nat, j: nat)
    requires Run(ops) && Uniform(ops, id, window, 1) && i < j < |ops| && Admitted(ops, id, i) && Admitted(ops, id, j)
    ensures ops[j].now >= ops[i].now + window
  {
    AnswersAreIdeal(ops, i);
    AnswersAreIdeal(ops, j);
    AdmissionFillsTheWindow(ops, id, i, j, window);
  }
}
