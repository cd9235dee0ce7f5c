/**
 The in-memory fixed-window rate limiter of main.py: a count per tenant and minute, with
 eviction of windows older than the previous one on every call.
 */
module RateLimiter {

  type Table = map<(int, int), nat>

  datatype Call = Call(tenant: int, at: real)

  function Window(at: real): int { (at / 60.0).Floor }

  function CountIn(table: Table, key: (int, int)): nat { if key in table then table[key] else 0 }

  function Evicted(table: Table, window: int): Table { map k | k in table && k.1 >= window - 1 :: table[k] }

  function Consumed(table: Table, c: Call): Table {
    var key := (c.tenant, Window(c.at));
    Evicted(table[key := CountIn(table, key) + 1], key.1)
  }

  function After(calls: seq<Call>): Table {
    if calls == [] then map[] else Consumed(After(calls[..|calls| - 1]), calls[|calls| - 1])
  }

  class Limiter {
    var table: Table

    constructor ()
      ensures table == map[]
    {
      table := map[];
    }

    method ConsumeToken(tenant: int, limit: int, now: real) returns (allowed: bool, remaining: int)
      modifies this
      ensures table == Consumed(old(table), Call(tenant, now))
      ensures allowed <==> CountIn(old(table), (tenant, Window(now))) < limit
      ensures remaining == if limit > CountIn(old(table), (tenant, Window(now)))
          then limit - CountIn(old(table), (tenant, Window(now))) - 1 else 0
    {
      var window := Window(now);
      var key := (tenant, window);
      var count := 1 + if key in table then table[key] else 0;
      table := table[key := count];
      ghost var filled := table;
      var keys := table.Keys;
      while keys != {}
        invariant keys <= filled.Keys
        invariant table == map k | k in filled && (k in keys || k.1 >= window - 1) :: filled[k]
        decreases |keys|
      {
        var stale :| stale in keys;
        keys := keys - {stale};
        if stale.1 < window - 1 { table := table - {stale}; }
      }
      remaining := if limit - count > 0 then limit - count else 0;
      allowed := count <= limit;
    }
  }

  // ---------------------------------------------------------------- what a run of calls grants

  predicate ClockNeverFalls(calls: seq<Call>) { forall i, j :: 0 <= i < j < |calls| ==> calls[i].at <= calls[j].at }

  predicate Counts(c: Call, tenant: int, window: int) { c.tenant == tenant && Window(c.at) == window }

  function CallsIn(calls: seq<Call>, tenant: int, window: int): nat {
    if calls == [] then 0
    else CallsIn(calls[..|calls| - 1], tenant, window) + if Counts(calls[|calls| - 1], tenant, window) then 1 else 0
  }

  /** Whether the last of these calls is granted. */
  predicate LastGranted(calls: seq<Call>, limit: int)
    requires calls != []
  {
    var c := calls[|calls| - 1];
    CountIn(After(calls[..|calls| - 1]), (c.tenant, Window(c.at))) < limit
  }

  function GrantsIn(calls: seq<Call>, limit: int, tenant: int, window: int): nat {
    if calls == [] then 0
    else GrantsIn(calls[..|calls| - 1], limit, tenant, window)
         + if Counts(calls[|calls| - 1], tenant, window) && LastGranted(calls, limit) then 1 else 0
  }

  /** Grants of a tenant in the 60 seconds from `from`. */
  function GrantsInMinuteFrom(calls: seq<Call>, limit: int, tenant: int, from: real): nat {
    if calls == [] then 0
    else
      var c := calls[|calls| - 1];
      GrantsInMinuteFrom(calls[..|calls| - 1], limit, tenant, from)
      + if c.tenant == tenant && from <= c.at < from + 60.0 && LastGranted(calls, limit) then 1 else 0
  }

  function Cap(limit: int): nat { if limit > 0 then limit else 0 }

  lemma {:induction false} WindowIsMonotone(a: real, b: real)
    requires a <= b
    ensures Window(a) <= Window(b)
  {
    assert a / 60.0 <= b / 60.0;
  }

  /** A window is one minute of the clock. */
  lemma {:induction false} WindowIsAMinute(at: real, k: int)
    ensures Window(at) == k <==> 60.0 * k as real <= at < 60.0 * k as real + 60.0
  {
    var q := at / 60.0;
    assert 60.0 * q == at;
  }

  /**
   Eviction never changes a live count: for the current and the previous window the table holds exactly
   the calls made so far, and it holds nothing else.
   */
  lemma {:induction false} TableHoldsLiveCounts(calls: seq<Call>)
    requires ClockNeverFalls(calls) && calls != []
    ensures var now := Window(calls[|calls| - 1].at);
            && (forall tenant, window :: window >= now - 1 ==>
                CountIn(After(calls), (tenant, window)) == CallsIn(calls, tenant, window))
            && (forall key :: key in After(calls) ==> now - 1 <= key.1 <= now)
  {
    var before, c := calls[..|calls| - 1], calls[|calls| - 1];
    var now := Window(c.at);
    if before != [] {
      TableHoldsLiveCounts(before);
      WindowIsMonotone(before[|before| - 1].at, c.at);
    }
    forall tenant, window | window >= now - 1
      ensures CountIn(After(calls), (tenant, window)) == CallsIn(calls, tenant, window)
    {
      assert before != [] ==> CountIn(After(before), (tenant, window)) == CallsIn(before, tenant, window);
    }
  }

  /** The table holds at most two entries per tenant. */
  lemma {:induction false} AtMostTwoEntries(calls: seq<Call>, tenant: int)
    requires ClockNeverFalls(calls)
    ensures |set key | key in After(calls) && key.0 == tenant| <= 2
  {
    var mine := set key | key in After(calls) && key.0 == tenant;
    if calls != [] {
      TableHoldsLiveCounts(calls);
      var now := Window(calls[|calls| - 1].at);
      SubsetOfPair(mine, (tenant, now - 1), (tenant, now));
    }
  }

  lemma {:induction false} SubsetOfPair<T>(s: set<T>, a: T, b: T)
    requires forall x :: x in s ==> x == a || x == b
    ensures |s| <= 2
  {
    var rest := s - {a} - {b};
    assert rest == {};
    assert |s| <= |s - {a}| + 1 && |s - {a}| <= |rest| + 1;
  }

  /** With a clock that never falls, a tenant gets exactly min(limit, calls) grants per minute window. */
  lemma {:induction false} ExactGrantsPerWindow(calls: seq<Call>, limit: int, tenant: int, window: int)
    requires ClockNeverFalls(calls)
    ensures GrantsIn(calls, limit, tenant, window)
         == if CallsIn(calls, tenant, window) < Cap(limit) then CallsIn(calls, tenant, window) else Cap(limit)
  {
    if calls != [] {
      var before, c := calls[..|calls| - 1], calls[|calls| - 1];
      ExactGrantsPerWindow(before, limit, tenant, window);
      if before != [] {
        TableHoldsLiveCounts(before);
        WindowIsMonotone(before[|before| - 1].at, c.at);
        NoCallsAhead(before, c.tenant, Window(c.at));
      }
    }
  }

  lemma {:induction false} NoCallsAhead(calls: seq<Call>, tenant: int, window: int)
    requires ClockNeverFalls(calls) && calls != []
    ensures Window(calls[|calls| - 1].at) < window ==> CallsIn(calls, tenant, window) == 0
  {
    if |calls| > 1 {
      NoCallsAhead(calls[..|calls| - 1], tenant, window);
      WindowIsMonotone(calls[|calls| - 2].at, calls[|calls| - 1].at);
    }
  }

  function CallsInMinuteFrom(calls: seq<Call>, tenant: int, from: real): nat {
    if calls == [] then 0
    else
      var c := calls[|calls| - 1];
      CallsInMinuteFrom(calls[..|calls| - 1], tenant, from)
      + if c.tenant == tenant && from <= c.at < from + 60.0 then 1 else 0
  }

  lemma {:induction false} MinuteIsWindow(calls: seq<Call>, limit: int, tenant: int, k: int)
    ensures CallsInMinuteFrom(calls, tenant, 60.0 * k as real) == CallsIn(calls, tenant, k)
    ensures GrantsInMinuteFrom(calls, limit, tenant, 60.0 * k as real) == GrantsIn(calls, limit, tenant, k)
  {
    if calls != [] {
      MinuteIsWindow(calls[..|calls| - 1], limit, tenant, k);
      WindowIsAMinute(calls[|calls| - 1].at, k);
    }
  }

  /** In every minute of the clock a tenant is granted its calls, up to the limit and no further. */
  lemma {:induction false} GrantsPerMinute(calls: seq<Call>, limit: int, tenant: int, k: int)
    requires ClockNeverFalls(calls)
    ensures var made := CallsInMinuteFrom(calls, tenant, 60.0 * k as real);
            GrantsInMinuteFrom(calls, limit, tenant, 60.0 * k as real)
            == if limit <= 0 then 0 else if made < limit then made else limit
  {
    MinuteIsWindow(calls, limit, tenant, k);
    ExactGrantsPerWindow(calls, limit, tenant, k);
  }

  lemma {:induction false} MinuteMeetsTwoWindows(calls: seq<Call>, limit: int, tenant: int, from: real)
    ensures GrantsInMinuteFrom(calls, limit, tenant, from)
         <= GrantsIn(calls, limit, tenant, Window(from)) + GrantsIn(calls, limit, tenant, Window(from) + 1)
  {
    if calls != [] {
      var c := calls[|calls| - 1];
      MinuteMeetsTwoWindows(calls[..|calls| - 1], limit, tenant, from);
      if from <= c.at < from + 60.0 { MinuteSpansTwoWindows(from, c.at); }
    }
  }

  lemma {:induction false} MinuteSpansTwoWindows(from: real, at: real)
    requires from <= at < from + 60.0
    ensures Window(at) == Window(from) || Window(at) == Window(from) + 1
  {
    assert (from + 60.0) / 60.0 == from / 60.0 + 1.0;
    assert from / 60.0 <= at / 60.0 < from / 60.0 + 1.0;
  }

  /** In any 60 seconds, wherever they start, a tenant gets at most twice the limit. */
  lemma {:induction false} AtMostTwiceTheLimitPerMinute(calls: seq<Call>, limit: int, tenant: int, from: real)
    requires ClockNeverFalls(calls)
    ensures GrantsInMinuteFrom(calls, limit, tenant, from) <= 2 * Cap(limit)
  {
    MinuteMeetsTwoWindows(calls, limit, tenant, from);
    ExactGrantsPerWindow(calls, limit, tenant, Window(from));
    ExactGrantsPerWindow(calls, limit, tenant, Window(from) + 1);
  }

  // ---------------------------------------------------------------- the bound is attained

  /** `n` calls a second before the minute mark, then `n` on it. */
  function Burst(tenant: int, n: nat, m: nat): (calls: seq<Call>)
    ensures |calls| == n + m
    ensures forall i :: 0 <= i < n + m ==> calls[i] == Call(tenant, if i < n then 59.0 else 60.0)
  {
    seq(n + m, i => Call(tenant, if i < n then 59.0 else 60.0))
  }

  lemma {:induction false} BurstCalls(tenant: int, n: nat, m: nat)
    ensures CallsIn(Burst(tenant, n, m), tenant, 0) == n && CallsIn(Burst(tenant, n, m), tenant, 1) == m
    decreases n + m
  {
    assert Window(59.0) == 0 && Window(60.0) == 1;
    if m > 0 {
      assert Burst(tenant, n, m)[..n + m - 1] == Burst(tenant, n, m - 1);
      BurstCalls(tenant, n, m - 1);
    } else if n > 0 {
      assert Burst(tenant, n, 0)[..n - 1] == Burst(tenant, n - 1, 0);
      BurstCalls(tenant, n - 1, 0);
    }
  }

  /** A call that follows fewer than `limit` calls in its own window is granted. */
  lemma {:induction false} GrantedBelowLimit(before: seq<Call>, c: Call, limit: int)
    requires ClockNeverFalls(before + [c]) && CallsIn(before, c.tenant, Window(c.at)) < limit
    ensures LastGranted(before + [c], limit)
  {
    assert (before + [c])[..|before|] == before;
    if before != [] {
      var last := before[|before| - 1];
      assert (before + [c])[|before| - 1] == last && (before + [c])[|before|] == c;
      assert ClockNeverFalls(before) by {
        assert forall i :: 0 <= i < |before| ==> (before + [c])[i] == before[i];
      }
      TableHoldsLiveCounts(before);
      WindowIsMonotone(last.at, c.at);
    }
  }

  lemma {:induction false} BurstIsGranted(tenant: int, limit: nat, n: nat, m: nat)
    requires n <= limit && m <= limit && (m > 0 ==> n == limit)
    ensures GrantsInMinuteFrom(Burst(tenant, n, m), limit, tenant, 59.0) == n + m
    decreases n + m
  {
    assert Window(59.0) == 0 && Window(60.0) == 1;
    if n + m > 0 {
      var i, j := if m > 0 then n else n - 1, if m > 0 then m - 1 else 0;
      var c := Burst(tenant, n, m)[n + m - 1];
      assert Burst(tenant, n, m) == Burst(tenant, i, j) + [c];
      assert (Burst(tenant, i, j) + [c])[..n + m - 1] == Burst(tenant, i, j);
      BurstCalls(tenant, i, j);
      BurstIsGranted(tenant, limit, i, j);
      GrantedBelowLimit(Burst(tenant, i, j), c, limit);
    }
  }

  /** Twice the limit within two seconds: the bound cannot be improved. */
  lemma {:induction false} TwiceTheLimitIsReached(tenant: int, limit: nat)
    ensures ClockNeverFalls(Burst(tenant, limit, limit))
    ensures GrantsInMinuteFrom(Burst(tenant, limit, limit), limit, tenant, 59.0) == 2 * limit
  {
    BurstIsGranted(tenant, limit, limit, limit);
  }
}
