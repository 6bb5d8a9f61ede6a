/** The per-address rate limit of the HTTP server (transpeer/server.py): a table of recent
    request times, pruned as it goes, against the full log of allowed requests. */
module RateLimit {

  type Addr = string
  type Time = real

  const REQUESTS := 60
  const WINDOW: Time := 60.0

  /** The times less than one window before `now`, in order. */
  function Recent(times: seq<Time>, now: Time): (r: seq<Time>) {
    if times == [] then []
    else
      var r := Recent(times[..|times| - 1], now);
      if now - times[|times| - 1] < WINDOW then r + [times[|times| - 1]] else r
  }

  /** `self._rate_limits.get(addr, ())`. */
  function Entry(table: map<Addr, seq<Time>>, addr: Addr): seq<Time> {
    if addr in table then table[addr] else []
  }

  /** One allowed request. */
  datatype Request = Request(addr: Addr, time: Time)

  /** The times of one address in the log. */
  function TimesOf(log: seq<Request>, addr: Addr): seq<Time> {
    if log == [] then []
    else
      var r := TimesOf(log[..|log| - 1], addr);
      if log[|log| - 1].addr == addr then r + [log[|log| - 1].time] else r
  }

  ghost predicate Ordered(times: seq<Time>) {
    forall i, j :: 0 <= i < j < |times| ==> times[i] <= times[j]
  }

  /** The decision the full, unpruned log calls for: fewer than sixty allowed requests of this
      address in the last window. */
  predicate LogAllows(log: seq<Request>, addr: Addr, now: Time) {
    |Recent(TimesOf(log, addr), now)| < REQUESTS
  }

  /** `not ts or now - ts[-1] >= RATE_LIMIT_WINDOW`. */
  predicate Expired(times: seq<Time>, now: Time) {
    times == [] || now - times[|times| - 1] >= WINDOW
  }

  /** The table after one call. */
  function TableAfter(table: map<Addr, seq<Time>>, addr: Addr, now: Time): map<Addr, seq<Time>> {
    var kept := Recent(Entry(table, addr), now);
    if |kept| >= REQUESTS then table[addr := kept]
    else
      var full := table[addr := kept + [now]];
      if |full| > 4 * REQUESTS then map key | key in full && !Expired(full[key], now) :: full[key] else full
  }

  class Limiter {
    var table: map<Addr, seq<Time>>
    /** Every allowed request so far, the clock of the last call, and whether the clock has never run
        backwards; for the proof only. */
    ghost var log: seq<Request>
    ghost var clock: Time
    ghost var steady: bool

    /** On a steady clock the table and the log agree on what is recent, and every request in the log
        was allowed by the log before it. */
    ghost predicate Valid()
      reads this
    {
      steady ==> Agree(table, log, clock) && Legitimate(log) && Past(log, clock)
    }

    constructor (start: Time)
      ensures Valid() && table == map[] && log == [] && clock == start && steady
    {
      table := map[];
      log := [];
      clock := start;
      steady := true;
    }

    /** `_check_rate_limit` at time `now`: it decides by the times kept in the table, which on a steady
        clock is as the full log would, and records exactly the requests it allows. */
    method Check(addr: Addr, now: Time) returns (allowed: bool)
      requires Valid()
      modifies this
      ensures Valid() && clock == now && steady == (old(steady) && old(clock) <= now)
      ensures allowed == (|Recent(Entry(old(table), addr), now)| < REQUESTS)
      ensures steady ==> allowed == LogAllows(old(log), addr, now)
      ensures log == if allowed then old(log) + [Request(addr, now)] else old(log)
      ensures table == TableAfter(old(table), addr, now)
    {
      hide Recent, TimesOf, Agree, Legitimate, Past;
      steady := steady && clock <= now;
      if steady {
        StaysSteady(table, log, clock, addr, now);
      }
      clock := now;
      var timestamps := Recent(Entry(table, addr), now);
      if |timestamps| >= REQUESTS {
        table := table[addr := timestamps];
        return false;
      }
      timestamps := timestamps + [now];
      table := table[addr := timestamps];
      log := log + [Request(addr, now)];
      if |table| > 4 * REQUESTS {
        table := map key | key in table && !Expired(table[key], now) :: table[key];
      }
      return true;
    }
  }

  ghost predicate Before(times: seq<Time>, clock: Time) {
    forall i :: 0 <= i < |times| ==> times[i] <= clock
  }

  /** The invariant at one instant, as a predicate on values. */
  ghost predicate Agree(table: map<Addr, seq<Time>>, log: seq<Request>, now: Time) {
    forall addr: Addr ::
      && Recent(Entry(table, addr), now) == Recent(TimesOf(log, addr), now)
      && Ordered(Entry(table, addr))
      && Before(Entry(table, addr), now) && Before(TimesOf(log, addr), now)
  }

  ghost predicate Past(log: seq<Request>, clock: Time) {
    forall i :: 0 <= i < |log| ==> log[i].time <= clock
  }

  lemma PastLater(log: seq<Request>, clock: Time, now: Time)
    requires Past(log, clock) && clock <= now
    ensures Past(log, now)
  {
  }

  lemma AgreeAt(table: map<Addr, seq<Time>>, log: seq<Request>, addr: Addr, now: Time)
    requires Agree(table, log, now)
    ensures Recent(Entry(table, addr), now) == Recent(TimesOf(log, addr), now)
  {
  }

  lemma {:induction false} RecentLater(times: seq<Time>, now: Time, later: Time)
    requires now <= later
    ensures Recent(Recent(times, now), later) == Recent(times, later)
  {
    if times != [] {
      var n := |times| - 1;
      RecentLater(times[..n], now, later);
      if now - times[n] < WINDOW {
        RecentAppend(Recent(times[..n], now), times[n], later);
      }
    }
  }

  lemma RecentIdempotent(times: seq<Time>, now: Time)
    ensures Recent(Recent(times, now), now) == Recent(times, now)
  {
    RecentLater(times, now, now);
  }

  lemma RecentAppend(times: seq<Time>, t: Time, now: Time)
    ensures Recent(times + [t], now) == Recent(times, now) + if now - t < WINDOW then [t] else []
  {
    var all := times + [t];
    assert all[..|all| - 1] == times;
    assert Recent(times, now) + [] == Recent(times, now);
  }

  lemma {:induction false} RecentOrdered(times: seq<Time>, now: Time)
    requires Ordered(times)
    ensures Ordered(Recent(times, now))
    ensures forall i :: 0 <= i < |Recent(times, now)| ==> Recent(times, now)[i] in times
    ensures forall c :: Before(times, c) ==> Before(Recent(times, now), c)
  {
    if times != [] {
      var n := |times| - 1;
      RecentOrdered(times[..n], now);
      forall i | 0 <= i < |Recent(times[..n], now)|
        ensures Recent(times[..n], now)[i] <= times[n]
      {
        assert Recent(times[..n], now)[i] in times[..n];
      }
    }
  }

  /** As time passes the two stay in agreement. */
  lemma LaterAll(table: map<Addr, seq<Time>>, log: seq<Request>, clock: Time, now: Time)
    requires Agree(table, log, clock) && clock <= now
    ensures Agree(table, log, now)
  {
    forall addr: Addr
      ensures Recent(Entry(table, addr), now) == Recent(TimesOf(log, addr), now)
      ensures Before(Entry(table, addr), now) && Before(TimesOf(log, addr), now)
    {
      assert Before(Entry(table, addr), clock) && Before(TimesOf(log, addr), clock);
      RecentLater(Entry(table, addr), clock, now);
      RecentLater(TimesOf(log, addr), clock, now);
    }
  }

  /** Storing the pruned times changes nothing that is recent. */
  lemma TableUpdated(before: map<Addr, seq<Time>>, after: map<Addr, seq<Time>>, log: seq<Request>, addr: Addr, now: Time)
    requires Agree(before, log, now) && after == before[addr := Recent(Entry(before, addr), now)]
    ensures Agree(after, log, now)
  {
    hide Recent, TimesOf;
    RecentIdempotent(Entry(before, addr), now);
    RecentOrdered(Entry(before, addr), now);
    forall a: Addr
      ensures Recent(Entry(after, a), now) == Recent(TimesOf(log, a), now) && Ordered(Entry(after, a))
      ensures Before(Entry(after, a), now) && Before(TimesOf(log, a), now)
    {
      assert Recent(Entry(before, a), now) == Recent(TimesOf(log, a), now);
    }
  }

  lemma LogAppended(log: seq<Request>, addr: Addr, now: Time)
    ensures TimesOf(log + [Request(addr, now)], addr) == TimesOf(log, addr) + [now]
    ensures forall a: Addr :: a != addr ==> TimesOf(log + [Request(addr, now)], a) == TimesOf(log, a)
  {
    var all := log + [Request(addr, now)];
    assert all[..|all| - 1] == log;
  }

  lemma TableAppended(before: map<Addr, seq<Time>>, after: map<Addr, seq<Time>>, log: seq<Request>, longer: seq<Request>,
                      addr: Addr, now: Time)
    requires Agree(before, log, now)
    requires after == before[addr := Recent(Entry(before, addr), now) + [now]]
    requires TimesOf(longer, addr) == TimesOf(log, addr) + [now]
    requires forall a: Addr :: a != addr ==> TimesOf(longer, a) == TimesOf(log, a)
    ensures Agree(after, longer, now)
  {
    hide Recent, TimesOf;
    var kept := Recent(Entry(before, addr), now);
    RecentIdempotent(Entry(before, addr), now);
    RecentOrdered(Entry(before, addr), now);
    RecentAppend(kept, now, now);
    RecentAppend(TimesOf(log, addr), now, now);
    assert Before(Entry(before, addr), now) && Before(TimesOf(log, addr), now);
    forall a: Addr
      ensures Recent(Entry(after, a), now) == Recent(TimesOf(longer, a), now) && Ordered(Entry(after, a))
      ensures Before(Entry(after, a), now) && Before(TimesOf(longer, a), now)
    {
      assert Recent(Entry(before, a), now) == Recent(TimesOf(log, a), now);
    }
  }

  /** Dropping an entry whose last time has left the window drops nothing that is recent. */
  lemma TablePruned(full: map<Addr, seq<Time>>, pruned: map<Addr, seq<Time>>, log: seq<Request>, now: Time)
    requires Agree(full, log, now)
    requires pruned == map key | key in full && !Expired(full[key], now) :: full[key]
    ensures Agree(pruned, log, now)
  {
    hide Recent, TimesOf;
    forall a: Addr
      ensures Recent(Entry(pruned, a), now) == Recent(TimesOf(log, a), now) && Ordered(Entry(pruned, a))
      ensures Before(Entry(pruned, a), now) && Before(TimesOf(log, a), now)
    {
      assert Recent(Entry(full, a), now) == Recent(TimesOf(log, a), now);
      if a in full && Expired(full[a], now) {
        ExpiredEmpty(full[a], now);
        ExpiredEmpty([], now);
      }
    }
  }

  lemma {:induction false} ExpiredEmpty(times: seq<Time>, now: Time)
    requires Ordered(times) && Expired(times, now)
    ensures Recent(times, now) == []
  {
    if times != [] {
      ExpiredEmpty(times[..|times| - 1], now);
    }
  }

  /** One call on a steady clock: the table decides as the log, and both stay in agreement. */
  lemma StaysSteady(table: map<Addr, seq<Time>>, log: seq<Request>, clock: Time, addr: Addr, now: Time)
    requires Agree(table, log, clock) && Legitimate(log) && Past(log, clock) && clock <= now
    ensures |Recent(Entry(table, addr), now)| < REQUESTS <==> LogAllows(log, addr, now)
    ensures
      var next := if LogAllows(log, addr, now) then log + [Request(addr, now)] else log;
      Agree(TableAfter(table, addr, now), next, now) && Legitimate(next) && Past(next, now)
  {
    hide Recent, TimesOf, Agree, Legitimate, Past;
    var kept := Recent(Entry(table, addr), now);
    LaterAll(table, log, clock, now);
    PastLater(log, clock, now);
    AgreeAt(table, log, addr, now);
    if |kept| >= REQUESTS {
      TableUpdated(table, table[addr := kept], log, addr, now);
    } else {
      var full := table[addr := kept + [now]];
      var next := log + [Request(addr, now)];
      AllowedStaysLegitimate(log, addr, now);
      LogAppended(log, addr, now);
      TableAppended(table, full, log, next, addr, now);
      TablePruned(full, map key | key in full && !Expired(full[key], now) :: full[key], next, now);
    }
  }

  /* ---------- What the log can look like ---------- */

  /** A log of requests that were each allowed when they were made, on a clock that does not
      run backwards. */
  ghost predicate Legitimate(log: seq<Request>) {
    && (forall i, j :: 0 <= i < j < |log| ==> log[i].time <= log[j].time)
    && (forall i :: 0 <= i < |log| ==> LogAllows(log[..i], log[i].addr, log[i].time))
  }

  /** The number of requests of `addr` in the half-open window from `start`. */
  function InWindow(log: seq<Request>, addr: Addr, start: Time): nat {
    if log == [] then 0
    else
      var r := log[|log| - 1];
      InWindow(log[..|log| - 1], addr, start)
      + if r.addr == addr && start <= r.time < start + WINDOW then 1 else 0
  }

  /** `Check` keeps the log legitimate. */
  lemma AllowedStaysLegitimate(log: seq<Request>, addr: Addr, now: Time)
    requires Legitimate(log) && LogAllows(log, addr, now)
    requires Past(log, now)
    ensures Legitimate(log + [Request(addr, now)]) && Past(log + [Request(addr, now)], now)
  {
    var all := log + [Request(addr, now)];
    forall i | 0 <= i < |all|
      ensures LogAllows(all[..i], all[i].addr, all[i].time)
    {
      assert all[..i] == log[..i];
      if i == |log| {
        assert log[..i] == log;
      } else {
        assert LogAllows(log[..i], log[i].addr, log[i].time);
      }
    }
  }

  /** Requests of the window are recent as long as the window has not passed. */
  lemma {:induction false} WindowIsRecent(log: seq<Request>, addr: Addr, start: Time, now: Time)
    requires now < start + WINDOW
    ensures InWindow(log, addr, start) <= |Recent(TimesOf(log, addr), now)|
  {
    if log != [] {
      var n := |log| - 1;
      var r := log[n];
      WindowIsRecent(log[..n], addr, start, now);
      if r.addr == addr {
        RecentAppend(TimesOf(log[..n], addr), r.time, now);
      }
    }
  }

  /** In every half-open window of sixty seconds at most sixty requests of one address are
      allowed. */
  lemma {:induction false} WindowBound(log: seq<Request>, addr: Addr, start: Time)
    requires Legitimate(log)
    ensures InWindow(log, addr, start) <= 60
  {
    if log != [] {
      var n := |log| - 1;
      var r := log[n];
      PrefixLegitimate(log, n);
      WindowBound(log[..n], addr, start);
      if r.addr == addr && start <= r.time < start + WINDOW {
        assert LogAllows(log[..n], addr, r.time);
        WindowIsRecent(log[..n], addr, start, r.time);
      }
    }
  }

  lemma PrefixLegitimate(log: seq<Request>, n: nat)
    requires Legitimate(log) && n <= |log|
    ensures Legitimate(log[..n])
  {
    forall i | 0 <= i < n
      ensures LogAllows(log[..n][..i], log[..n][i].addr, log[..n][i].time)
    {
      assert log[..n][..i] == log[..i];
      assert LogAllows(log[..i], log[i].addr, log[i].time);
    }
  }

  /** The table stays small: after an allowed request it has at most 240 addresses, or each of them has a
      request less than sixty seconds old. */
  lemma TableSmall(table: map<Addr, seq<Time>>, addr: Addr, now: Time)
    requires |Recent(Entry(table, addr), now)| < 60
    ensures
      var t := TableAfter(table, addr, now);
      |t| <= 240 || forall a :: a in t ==> t[a] != [] && now - t[a][|t[a]| - 1] < 60.0
  {
    hide Recent;
  }
}
