/** Cleanup statements delete a bounded number of expired rows, those expiring earliest first. */
module ExpiryBatches {

  const RATE_LIMIT_BATCH: nat := 100
  const RECORD_BATCH: nat := 1000

  function Min(a: nat, b: nat): nat {
    if a <= b then a else b
  }

  // `due` holds the expiry time of every row the statement may delete. Rows with equal expiry times
  // can be taken in any order, so a database has a choice.
  predicate IsBatch<K(==, !new)>(due: map<K, int>, limit: nat, gone: set<K>) {
    && gone <= due.Keys
    && |gone| == Min(limit, |due|)
    && forall k, l :: k in gone && l in due && l !in gone ==> due[k] <= due[l]
  }

  lemma MinusSize<K, V>(m: map<K, V>, gone: set<K>)
    requires gone <= m.Keys
    ensures (m - gone).Keys == m.Keys - gone && |m - gone| == |m| - |gone|
  {
    assert |m| == |m.Keys| && |m - gone| == |(m - gone).Keys|;
  }

  // A choice always exists.
  lemma {:induction false} BatchExists<K(!new)>(due: map<K, int>, limit: nat) returns (gone: set<K>)
    ensures IsBatch(due, limit, gone)
    decreases limit
  {
    if limit == 0 || |due| == 0 {
      gone := {};
    } else {
      var first := Earliest(due);
      MinusSize(due, {first});
      var more := BatchExists(due - {first}, limit - 1);
      gone := AddEarliest(due, limit, first, more);
    }
  }

  lemma AddEarliest<K(!new)>(due: map<K, int>, limit: nat, first: K, more: set<K>) returns (gone: set<K>)
    requires first in due && (forall k :: k in due ==> due[first] <= due[k])
    requires limit > 0 && |due - {first}| == |due| - 1 && IsBatch(due - {first}, limit - 1, more)
    ensures gone == more + {first} && IsBatch(due, limit, gone)
  {
    gone := more + {first};
    assert first !in more;
    assert |gone| == |more| + 1;
    var rest := due - {first};
    forall k, l | k in gone && l in due && l !in gone ensures due[k] <= due[l] {
      assert l in rest && due[l] == rest[l];
      assert k == first || due[k] == rest[k] <= rest[l];
    }
  }

  lemma {:induction false} Earliest<K(!new)>(due: map<K, int>) returns (first: K)
    requires |due| > 0
    ensures first in due && forall k :: k in due ==> due[first] <= due[k]
    decreases |due|
  {
    assert |due.Keys| > 0;
    first :| first in due.Keys;
    var rest := due - {first};
    assert rest.Keys == due.Keys - {first};
    if |rest| > 0 {
      var next := Earliest(rest);
      assert forall k :: k in due ==> k == first || k in rest;
      first := if due[next] < due[first] then next else first;
    } else {
      assert |rest.Keys| == 0;
      assert forall k :: k in due ==> k == first || k in rest.Keys;
    }
  }

  // Consecutive batches at one point in time.
  ghost predicate AreBatches<K(!new)>(due: map<K, int>, limit: nat, batches: seq<set<K>>) {
    batches == [] || (IsBatch(due, limit, batches[0]) && AreBatches(due - batches[0], limit, batches[1..]))
  }

  ghost function Remaining<K(!new)>(due: map<K, int>, batches: seq<set<K>>): map<K, int> {
    if batches == [] then due else Remaining(due - batches[0], batches[1..])
  }

  lemma {:induction false} BatchesAreDue<K(!new)>(due: map<K, int>, limit: nat, batches: seq<set<K>>)
    requires AreBatches(due, limit, batches)
    ensures forall i :: 0 <= i < |batches| ==> batches[i] <= due.Keys
    decreases |batches|
  {
    if batches != [] {
      BatchesAreDue(due - batches[0], limit, batches[1..]);
      forall i | 0 <= i < |batches| ensures batches[i] <= due.Keys {
        assert i > 0 ==> batches[i] == batches[1..][i - 1];
      }
    }
  }

  // Whatever is left when a row goes expires no earlier than it.
  lemma {:induction false} EarliestGoFirst<K(!new)>(due: map<K, int>, limit: nat, batches: seq<set<K>>, i: nat, k: K, l: K)
    requires AreBatches(due, limit, batches) && i < |batches| && k in batches[i] && k in due
    requires l in due && forall j :: 0 <= j <= i ==> l !in batches[j]
    ensures due[k] <= due[l]
    decreases i
  {
    if i > 0 {
      var rest := due - batches[0];
      BatchesAreDue(rest, limit, batches[1..]);
      assert batches[1..][i - 1] == batches[i];
      forall j | 0 <= j <= i - 1 ensures l !in batches[1..][j] {
        assert batches[1..][j] == batches[j + 1];
      }
      EarliestGoFirst(rest, limit, batches[1..], i - 1, k, l);
    }
  }

  function Backlog(size: nat, limit: nat, n: nat): nat {
    if n == 0 then size else Backlog(size - Min(limit, size), limit, n - 1)
  }

  // Each batch takes its full number while there are that many, so the backlog shrinks at a fixed
  // rate however the ties are broken.
  lemma {:induction false} BatchesDrain<K(!new)>(due: map<K, int>, limit: nat, batches: seq<set<K>>)
    requires AreBatches(due, limit, batches)
    ensures |Remaining(due, batches)| == Backlog(|due|, limit, |batches|)
    decreases |batches|
  {
    if batches != [] {
      MinusSize(due, batches[0]);
      BatchesDrain(due - batches[0], limit, batches[1..]);
    }
  }

  lemma {:induction false} BacklogEnds(size: nat, limit: nat, n: nat)
    ensures Backlog(size, limit, n) == if n * limit >= size then 0 else size - n * limit
    decreases n
  {
    if n > 0 {
      BacklogEnds(size - Min(limit, size), limit, n - 1);
      assert n * limit == (n - 1) * limit + limit;
    }
  }

  // Enough batches leave nothing behind, and fewer do not.
  lemma BatchesDrainAll<K(!new)>(due: map<K, int>, limit: nat, batches: seq<set<K>>)
    requires AreBatches(due, limit, batches)
    ensures Remaining(due, batches) == map[] <==> |batches| * limit >= |due|
  {
    BatchesDrain(due, limit, batches);
    BacklogEnds(|due|, limit, |batches|);
    assert |Remaining(due, batches)| == 0 ==> Remaining(due, batches) == map[];
  }
}
