/** The sliding-hour rate limiter both endpoints run before doing any work.
    The shared `rate_limits` table is an append-only log of rows; a check
    counts the caller's rows for the endpoint in the trailing hour, refuses
    at the limit, and otherwise appends one row. Time is in milliseconds,
    as `Date.now()` gives it. */
module RateLimit {
  import opened Identity
  import Decimal

  const HourMs: int := 60 * 60 * 1000

  /** One row of `rate_limits`; `requestedAt` is filled in by the database
      at insert time, i.e. the time of the check. */
  datatype Row = Row(identifier: string, identifierType: IdentifierType, endpoint: string, requestedAt: int)

  datatype Decision = Allowed | Refused(error: string)

  /** 20 requests an hour for signed-in users, 3 for guests. */
  function Limit(t: IdentifierType): (n: nat)
    ensures n > 0
  {
    if t == User then 20 else 3
  }

  function LimitMessage(t: IdentifierType): string {
    "Rate limit exceeded. " + (if t == User then "Authenticated users" else "Guest users")
      + " can make " + Decimal.NatToString(Limit(t)) + " requests per hour."
  }

  /** The query's filter: same identifier, same endpoint, requested at or
      after `since`. The identifier type is NOT part of the filter. */
  predicate Counted(r: Row, identifier: string, endpoint: string, since: int) {
    r.identifier == identifier && r.endpoint == endpoint && r.requestedAt >= since
  }

  /** Number of rows the count query returns. */
  function RecentCount(rows: seq<Row>, identifier: string, endpoint: string, since: int): (n: nat)
    ensures n <= |rows|
    decreases |rows|
  {
    if rows == [] then 0
    else RecentCount(rows[..|rows| - 1], identifier, endpoint, since)
         + (if Counted(rows[|rows| - 1], identifier, endpoint, since) then 1 else 0)
  }

  /** The decision of a check whose count query succeeds. */
  function Decide(rows: seq<Row>, caller: Caller, endpoint: string, now: int): (d: Decision)
    ensures d.Allowed? <==> RecentCount(rows, caller.identifier, endpoint, now - HourMs) < Limit(caller.identifierType)
    ensures d.Refused? ==> d.error == LimitMessage(caller.identifierType)
  {
    if RecentCount(rows, caller.identifier, endpoint, now - HourMs) >= Limit(caller.identifierType)
    then Refused(LimitMessage(caller.identifierType))
    else Allowed
  }

  /** The log after a check whose count query and insert both succeed. */
  function Record(rows: seq<Row>, caller: Caller, endpoint: string, now: int): (r: seq<Row>)
    ensures rows <= r && |r| <= |rows| + 1
    ensures |r| == |rows| + 1 <==> Decide(rows, caller, endpoint, now).Allowed?
    ensures |r| == |rows| + 1 ==> r[|rows|] == Row(caller.identifier, caller.identifierType, endpoint, now)
  {
    if Decide(rows, caller, endpoint, now).Allowed?
    then rows + [Row(caller.identifier, caller.identifierType, endpoint, now)]
    else rows
  }

  class RateLimitLog {
    var rows: seq<Row>

    constructor ()
      ensures rows == []
    {
      rows := [];
    }

    /** `checkRateLimit`. A failing count query fails OPEN: the request is
        allowed and nothing is logged. An insert error is not inspected by
        the source either, so the request is allowed without a row. */
    method CheckRateLimit(caller: Caller, endpoint: string, now: int, queryFails: bool, insertFails: bool)
      returns (d: Decision)
      modifies this
      ensures queryFails ==> d == Allowed && rows == old(rows)
      ensures !queryFails ==> d == Decide(old(rows), caller, endpoint, now)
      ensures !queryFails && d.Refused? ==> rows == old(rows)
      ensures !queryFails && d.Allowed? ==>
                rows == (if insertFails then old(rows) else Record(old(rows), caller, endpoint, now))
    {
      if queryFails {
        return Allowed;
      }
      var requestCount := RecentCount(rows, caller.identifier, endpoint, now - HourMs);
      var limit := Limit(caller.identifierType);
      if requestCount >= limit {
        return Refused(LimitMessage(caller.identifierType));
      }
      if !insertFails {
        rows := rows + [Row(caller.identifier, caller.identifierType, endpoint, now)];
      }
      d := Allowed;
    }
  }

  /** A refusal names the number of requests the caller may make. */
  lemma RefusalNamesLimit(rows: seq<Row>, caller: Caller, endpoint: string, now: int)
    requires Decide(rows, caller, endpoint, now).Refused?
    ensures exists i, j :: 0 <= i <= j <= |Decide(rows, caller, endpoint, now).error|
              && Decide(rows, caller, endpoint, now).error[i..j] == Decimal.NatToString(Limit(caller.identifierType))
  {
    var t := caller.identifierType;
    var pre := "Rate limit exceeded. " + (if t == User then "Authenticated users" else "Guest users") + " can make ";
    var msg := Decide(rows, caller, endpoint, now).error;
    var digits := Decimal.NatToString(Limit(t));
    assert msg == pre + digits + " requests per hour.";
    assert msg[|pre|..|pre| + |digits|] == digits;
  }

  /** Sliding window: the later the window starts, the fewer rows it holds. */
  lemma {:induction false} CountAntitone(rows: seq<Row>, identifier: string, endpoint: string, s1: int, s2: int)
    requires s1 <= s2
    ensures RecentCount(rows, identifier, endpoint, s2) <= RecentCount(rows, identifier, endpoint, s1)
    decreases |rows|
  {
    if rows != [] {
      CountAntitone(rows[..|rows| - 1], identifier, endpoint, s1, s2);
    }
  }

  /** A counted row that falls out of the window takes one unit of the
      count with it. */
  lemma {:induction false} AgedRowLeavesWindow(rows: seq<Row>, identifier: string, endpoint: string,
                                              s1: int, s2: int, k: nat)
    requires s1 <= s2 && k < |rows|
    requires Counted(rows[k], identifier, endpoint, s1) && rows[k].requestedAt < s2
    ensures RecentCount(rows, identifier, endpoint, s2) < RecentCount(rows, identifier, endpoint, s1)
    decreases |rows|
  {
    var init := rows[..|rows| - 1];
    if k == |rows| - 1 {
      CountAntitone(init, identifier, endpoint, s1, s2);
    } else {
      assert init[k] == rows[k];
      AgedRowLeavesWindow(init, identifier, endpoint, s1, s2, k);
    }
  }

  /** Capacity frees up as rows age: if the caller sits exactly at the
      limit at `now` and one of the rows counted then is more than an hour
      old at `later`, the request at `later` is allowed. */
  lemma CapacityFreesUp(rows: seq<Row>, caller: Caller, endpoint: string, now: int, later: int, k: nat)
    requires now <= later && k < |rows|
    requires RecentCount(rows, caller.identifier, endpoint, now - HourMs) == Limit(caller.identifierType)
    requires Counted(rows[k], caller.identifier, endpoint, now - HourMs) && rows[k].requestedAt < later - HourMs
    ensures Decide(rows, caller, endpoint, now).Refused?
    ensures Decide(rows, caller, endpoint, later) == Allowed
  {
    AgedRowLeavesWindow(rows, caller.identifier, endpoint, now - HourMs, later - HourMs, k);
  }

  /** An admitted request adds exactly one to every window that contains
      its time, whatever the type it was recorded under. */
  lemma RecordCountsOnce(rows: seq<Row>, caller: Caller, endpoint: string, now: int, since: int)
    requires Decide(rows, caller, endpoint, now) == Allowed
    requires since <= now
    ensures RecentCount(Record(rows, caller, endpoint, now), caller.identifier, endpoint, since)
            == RecentCount(rows, caller.identifier, endpoint, since) + 1
  {
    var r := Record(rows, caller, endpoint, now);
    assert r[..|r| - 1] == rows;
  }

  /** Requests of other callers or to the other endpoint never use up
      this caller's quota. */
  lemma RecordIsolated(rows: seq<Row>, caller: Caller, endpoint: string, now: int,
                       identifier: string, otherEndpoint: string, since: int)
    requires identifier != caller.identifier || otherEndpoint != endpoint
    ensures RecentCount(Record(rows, caller, endpoint, now), identifier, otherEndpoint, since)
            == RecentCount(rows, identifier, otherEndpoint, since)
  {
    var r := Record(rows, caller, endpoint, now);
    if r != rows {
      assert r[..|r| - 1] == rows;
    }
  }

  /** The query ignores `identifier_type`: a user row counts against a
      guest whose identifier is the same string, and vice versa. Since the
      guest limit is the smaller one, whatever a guest may do, a user with
      the same identifier may do too; and a user's recorded request takes
      one unit of that guest's quota. */
  lemma TypeNotFiltered(rows: seq<Row>, identifier: string, endpoint: string, now: int)
    ensures Decide(rows, Caller(identifier, Ip), endpoint, now).Allowed? ==>
              Decide(rows, Caller(identifier, User), endpoint, now).Allowed?
    ensures Decide(rows, Caller(identifier, User), endpoint, now).Allowed? ==>
              RecentCount(Record(rows, Caller(identifier, User), endpoint, now), identifier, endpoint, now - HourMs)
              == RecentCount(rows, identifier, endpoint, now - HourMs) + 1
    ensures Decide(rows, Caller(identifier, User), endpoint, now).Allowed?
            && RecentCount(rows, identifier, endpoint, now - HourMs) + 1 >= Limit(Ip) ==>
              Decide(Record(rows, Caller(identifier, User), endpoint, now), Caller(identifier, Ip), endpoint, now).Refused?
  {
    if Decide(rows, Caller(identifier, User), endpoint, now).Allowed? {
      RecordCountsOnce(rows, Caller(identifier, User), endpoint, now, now - HourMs);
    }
  }

  /** The log never holds more than `limit` of a caller's rows in the
      window of any moment from `clock` on. */
  ghost predicate WithinQuota(rows: seq<Row>, identifier: string, endpoint: string, limit: nat, clock: int) {
    forall s :: s >= clock - HourMs ==> RecentCount(rows, identifier, endpoint, s) <= limit
  }

  /** Sequential safety: a check at a time no earlier than the previous
      one keeps the caller within quota. */
  lemma RecordKeepsQuota(rows: seq<Row>, caller: Caller, endpoint: string, clock: int, now: int)
    requires clock <= now
    requires WithinQuota(rows, caller.identifier, endpoint, Limit(caller.identifierType), clock)
    ensures WithinQuota(Record(rows, caller, endpoint, now), caller.identifier, endpoint,
                        Limit(caller.identifierType), now)
  {
    var id, limit := caller.identifier, Limit(caller.identifierType);
    var r := Record(rows, caller, endpoint, now);
    forall s | s >= now - HourMs
      ensures RecentCount(r, id, endpoint, s) <= limit
    {
      if Decide(rows, caller, endpoint, now).Allowed? {
        assert r[..|r| - 1] == rows;
        CountAntitone(rows, id, endpoint, now - HourMs, s);
      }
    }
  }

  /** Replaying checks of one caller at the given times, all of which
      succeed at the database. */
  function Replay(rows: seq<Row>, caller: Caller, endpoint: string, times: seq<int>): (r: (seq<Decision>, seq<Row>))
    ensures |r.0| == |times|
    ensures forall i :: 0 <= i < |r.0| ==> r.0[i] in {Allowed, Refused(LimitMessage(caller.identifierType))}
    decreases |times|
  {
    if times == [] then ([], rows)
    else
      var tail := Replay(Record(rows, caller, endpoint, times[0]), caller, endpoint, times[1..]);
      ([Decide(rows, caller, endpoint, times[0])] + tail.0, tail.1)
  }

  /** Every row of the caller is either older than `lo` or no older than `hi`. */
  ghost predicate Gap(rows: seq<Row>, identifier: string, endpoint: string, lo: int, hi: int) {
    forall k :: 0 <= k < |rows| && rows[k].identifier == identifier && rows[k].endpoint == endpoint ==>
      rows[k].requestedAt < lo || rows[k].requestedAt >= hi
  }

  lemma {:induction false} CountAcrossGap(rows: seq<Row>, identifier: string, endpoint: string,
                                         lo: int, hi: int, s: int)
    requires lo <= s <= hi
    requires Gap(rows, identifier, endpoint, lo, hi)
    ensures RecentCount(rows, identifier, endpoint, s) == RecentCount(rows, identifier, endpoint, hi)
    decreases |rows|
  {
    if rows != [] {
      var init := rows[..|rows| - 1];
      assert Gap(init, identifier, endpoint, lo, hi) by {
        forall k | 0 <= k < |init| ensures init[k] == rows[k] { }
      }
      CountAcrossGap(init, identifier, endpoint, lo, hi, s);
    }
  }

  predicate NonDecreasing(times: seq<int>) {
    forall i, j :: 0 <= i <= j < |times| ==> times[i] <= times[j]
  }

  /** Recording at a time at or after `hi` keeps the gap, and the gap may
      start later. */
  lemma GapAfterRecord(rows: seq<Row>, caller: Caller, endpoint: string, lo: int, lo': int, hi: int, now: int)
    requires lo <= lo' && hi <= now
    requires Gap(rows, caller.identifier, endpoint, lo, hi)
    ensures Gap(Record(rows, caller, endpoint, now), caller.identifier, endpoint, lo', hi)
  {
    var next := Record(rows, caller, endpoint, now);
    forall k | 0 <= k < |next| && next[k].identifier == caller.identifier && next[k].endpoint == endpoint
      ensures next[k].requestedAt < lo' || next[k].requestedAt >= hi
    {
      if k < |rows| { assert next[k] == rows[k]; }
    }
  }

  /** One step of the burst: the count at `hi` goes up by one exactly when
      the check is allowed. */
  lemma BurstStep(rows: seq<Row>, caller: Caller, endpoint: string, lo: int, hi: int, now: int)
    requires lo <= now - HourMs <= hi <= now
    requires Gap(rows, caller.identifier, endpoint, lo, hi)
    ensures Decide(rows, caller, endpoint, now).Allowed? <==>
              RecentCount(rows, caller.identifier, endpoint, hi) < Limit(caller.identifierType)
    ensures RecentCount(Record(rows, caller, endpoint, now), caller.identifier, endpoint, hi) ==
              if Decide(rows, caller, endpoint, now).Allowed?
              then RecentCount(rows, caller.identifier, endpoint, hi) + 1
              else RecentCount(rows, caller.identifier, endpoint, hi)
  {
    CountAcrossGap(rows, caller.identifier, endpoint, lo, hi, now - HourMs);
    if Decide(rows, caller, endpoint, now).Allowed? {
      RecordCountsOnce(rows, caller, endpoint, now, hi);
    }
  }

  /** The first decision of a replay, then the replay of the rest from the
      log that check left. */
  lemma ReplayHead(rows: seq<Row>, caller: Caller, endpoint: string, times: seq<int>)
    requires times != []
    ensures Replay(rows, caller, endpoint, times).0 ==
              [Decide(rows, caller, endpoint, times[0])]
              + Replay(Record(rows, caller, endpoint, times[0]), caller, endpoint, times[1..]).0
  {
  }

  /** The quota left after a first check: one unit less when it was allowed. */
  function AfterCheck(inWindow: nat, limit: nat): nat {
    if inWindow < limit then inWindow + 1 else inWindow
  }

  /** A sequence of decisions that starts at a given count and a decision
      that takes one unit from the limit whenever it is allowed. */
  lemma {:induction false} ShiftAllowed(full: seq<Decision>, tail: seq<Decision>, inWindow: nat, limit: nat)
    requires full != [] && full[1..] == tail
    requires full[0].Allowed? <==> inWindow < limit
    requires forall i :: 0 <= i < |tail| ==> (tail[i].Allowed? <==> AfterCheck(inWindow, limit) + i < limit)
    ensures forall i :: 0 <= i < |full| ==> (full[i].Allowed? <==> inWindow + i < limit)
  {
    forall i | 1 <= i < |full|
      ensures full[i].Allowed? <==> inWindow + i < limit
    {
      assert full[i] == tail[i - 1];
    }
  }

  /** The situation of a burst: times in order and all within one hour,
      the caller's rows either older than the whole burst or inside its
      window, `inWindow` of them inside. */
  ghost predicate BurstSetup(rows: seq<Row>, caller: Caller, endpoint: string, times: seq<int>, inWindow: nat) {
    times != [] && NonDecreasing(times)
    && times[|times| - 1] - HourMs <= times[0]
    && Gap(rows, caller.identifier, endpoint, times[0] - HourMs, times[|times| - 1] - HourMs)
    && RecentCount(rows, caller.identifier, endpoint, times[|times| - 1] - HourMs) == inWindow
  }

  /** The first check of a burst leaves the rest of the burst in the same
      situation, with the count in the window one higher when it was allowed. */
  lemma BurstNext(rows: seq<Row>, caller: Caller, endpoint: string, times: seq<int>, inWindow: nat)
    requires |times| > 1 && BurstSetup(rows, caller, endpoint, times, inWindow)
    ensures BurstSetup(Record(rows, caller, endpoint, times[0]), caller, endpoint, times[1..],
                       AfterCheck(inWindow, Limit(caller.identifierType)))
  {
    var hi := times[|times| - 1] - HourMs;
    var rest := times[1..];
    BurstStep(rows, caller, endpoint, times[0] - HourMs, hi, times[0]);
    assert rest[|rest| - 1] == times[|times| - 1];
    assert rest[0] == times[1];
    GapAfterRecord(rows, caller, endpoint, times[0] - HourMs, rest[0] - HourMs, hi, times[0]);
  }

  /** A burst of checks inside one hour: with `inWindow` of the caller's rows
      already inside the window (and the rest older than the whole burst),
      the i-th check is allowed exactly when inWindow + i is below the limit. */
  lemma {:induction false} BurstDecisions(rows: seq<Row>, caller: Caller, endpoint: string,
                                         times: seq<int>, inWindow: nat)
    requires BurstSetup(rows, caller, endpoint, times, inWindow)
    ensures forall i :: 0 <= i < |times| ==>
              (Replay(rows, caller, endpoint, times).0[i].Allowed? <==> inWindow + i < Limit(caller.identifierType))
    decreases |times|
  {
    var limit := Limit(caller.identifierType);
    BurstStep(rows, caller, endpoint, times[0] - HourMs, times[|times| - 1] - HourMs, times[0]);
    var next := Record(rows, caller, endpoint, times[0]);
    var full := Replay(rows, caller, endpoint, times).0;
    var tail := Replay(next, caller, endpoint, times[1..]).0;
    ReplayHead(rows, caller, endpoint, times);
    if |times| > 1 {
      BurstNext(rows, caller, endpoint, times, inWindow);
      BurstDecisions(next, caller, endpoint, times[1..], AfterCheck(inWindow, limit));
    }
    ShiftAllowed(full, tail, inWindow, limit);
  }

  /** The quota in the terms users see it: from a clean hour, `limit`
      requests inside one hour succeed and the next one is refused with a
      message naming the limit. */
  lemma LimitThenRefuse(rows: seq<Row>, caller: Caller, endpoint: string, times: seq<int>)
    requires |times| == Limit(caller.identifierType) + 1 && NonDecreasing(times)
    requires times[|times| - 1] - HourMs <= times[0]
    requires forall k :: 0 <= k < |rows| && rows[k].identifier == caller.identifier && rows[k].endpoint == endpoint ==>
               rows[k].requestedAt < times[0] - HourMs
    ensures forall i :: 0 <= i < |times| - 1 ==> Replay(rows, caller, endpoint, times).0[i] == Allowed
    ensures Replay(rows, caller, endpoint, times).0[|times| - 1] == Refused(LimitMessage(caller.identifierType))
  {
    var hi := times[|times| - 1] - HourMs;
    assert Gap(rows, caller.identifier, endpoint, times[0] - HourMs, hi);
    CountAcrossGap(rows, caller.identifier, endpoint, times[0] - HourMs, hi, times[0] - HourMs);
    assert RecentCount(rows, caller.identifier, endpoint, times[0] - HourMs) == 0 by {
      NoneCounted(rows, caller.identifier, endpoint, times[0] - HourMs);
    }
    BurstDecisions(rows, caller, endpoint, times, 0);
  }

  lemma {:induction false} NoneCounted(rows: seq<Row>, identifier: string, endpoint: string, since: int)
    requires forall k :: 0 <= k < |rows| && rows[k].identifier == identifier && rows[k].endpoint == endpoint ==>
               rows[k].requestedAt < since
    ensures RecentCount(rows, identifier, endpoint, since) == 0
    decreases |rows|
  {
    if rows != [] {
      var init := rows[..|rows| - 1];
      forall k | 0 <= k < |init| ensures init[k] == rows[k] { }
      NoneCounted(init, identifier, endpoint, since);
    }
  }
}
