/** The API rate-limit middleware: a per-client-IP request counter kept in the
    cache store under `rate_limit:<ip>`. A request is turned away with 429
    once the live counter has reached the limit; otherwise the counter is
    written back one higher, to expire 60 seconds from now, and the request
    goes on to the next handler. */
module RateLimit {
  import opened Cache

  const DefaultMaxRequests: int := 60
  /** The TTL of every counter write, in seconds. */
  const Window: int := 60
  const LimitMessage: string := "Rate limit excedido. Tente novamente em 1 minuto."

  function CounterKey(ip: string): string {
    "rate_limit:" + ip
  }

  /** What `handle` does with one request: a 429 JSON reply with
      `success: false`, or passing it to `$next`. */
  datatype Outcome = Rejected(status: int, success: bool, message: string) | Forwarded

  datatype Step = Step(outcome: Outcome, entries: Entries<int>)

  /** One call of `handle` on store `m` at time `now`. An absent or expired
      counter reads as 0. */
  function Decide(m: Entries<int>, ip: string, now: int, maxRequests: int): (r: Step)
    ensures r.outcome.Rejected? <==> Lookup(m, CounterKey(ip), 0, now) >= maxRequests
    ensures r.outcome.Rejected? ==> r.outcome == Rejected(429, false, LimitMessage) && r.entries == m
  {
    var key := CounterKey(ip);
    var requests := Lookup(m, key, 0, now);
    if requests >= maxRequests then Step(Rejected(429, false, LimitMessage), m)
    else Step(Forwarded, Write(m, key, requests + 1, Window, now))
  }

  /** `RateLimitApi::handle` on the shared store. */
  method Handle(store: Store<int>, ip: string, now: int, maxRequests: int) returns (o: Outcome)
    modifies store
    ensures Step(o, store.entries) == Decide(old(store.entries), ip, now, maxRequests)
  {
    var key := CounterKey(ip);
    var requests := store.Get(key, 0, now);
    if requests >= maxRequests {
      return Rejected(429, false, LimitMessage);
    }
    store.Put(key, requests + 1, Window, now);
    o := Forwarded;
  }

  /** An accepted request stores the count it saw plus one, live for the
      next 60 seconds, whatever expiry the counter had before. */
  lemma AcceptIncrements(m: Entries<int>, ip: string, now: int, maxRequests: int)
    requires Lookup(m, CounterKey(ip), 0, now) < maxRequests
    ensures var r := Decide(m, ip, now, maxRequests);
      && r.outcome == Forwarded
      && CounterKey(ip) in r.entries
      && r.entries[CounterKey(ip)] == Entry(Lookup(m, CounterKey(ip), 0, now) + 1, now + Window)
      && forall t :: now <= t < now + Window ==> Lookup(r.entries, CounterKey(ip), 0, t) == Lookup(m, CounterKey(ip), 0, now) + 1
  {
  }

  /** A request never touches another IP's counter. */
  lemma DecideIsolation(m: Entries<int>, ip: string, other: string, now: int, maxRequests: int)
    requires ip != other
    ensures var r := Decide(m, ip, now, maxRequests);
      && (CounterKey(other) in r.entries <==> CounterKey(other) in m)
      && (CounterKey(other) in m ==> r.entries[CounterKey(other)] == m[CounterKey(other)])
  {
    if CounterKey(other) == CounterKey(ip) {
      PrefixedKeyInjective("rate_limit:", other, ip);
    }
  }

  datatype Trace = Trace(outcomes: seq<Outcome>, entries: Entries<int>)

  /** A sequence of requests from one IP at the given times. */
  function Replay(m: Entries<int>, ip: string, times: seq<int>, maxRequests: int): (r: Trace)
    ensures |r.outcomes| == |times|
    decreases |times|
  {
    if times == [] then Trace([], m)
    else
      var s := Decide(m, ip, times[0], maxRequests);
      var rest := Replay(s.entries, ip, times[1..], maxRequests);
      Trace([s.outcome] + rest.outcomes, rest.entries)
  }

  /** From a live count `c`, with each request less than 60 seconds after
      the one before, the next `maxRequests - c` requests are accepted and
      the one after is turned away. */
  lemma {:induction false} BurstFrom(m: Entries<int>, ip: string, times: seq<int>, maxRequests: int, c: int)
    requires 0 <= c <= maxRequests && |times| == maxRequests - c + 1
    requires Lookup(m, CounterKey(ip), 0, times[0]) == c
    requires forall i :: 0 <= i < |times| - 1 ==> times[i + 1] < times[i] + Window
    ensures var outs := Replay(m, ip, times, maxRequests).outcomes;
      && (forall i :: 0 <= i < |times| - 1 ==> outs[i] == Forwarded)
      && outs[|times| - 1] == Rejected(429, false, LimitMessage)
    decreases |times|
  {
    var s := Decide(m, ip, times[0], maxRequests);
    if c < maxRequests {
      var rest := times[1..];
      assert Lookup(s.entries, CounterKey(ip), 0, rest[0]) == c + 1;
      forall i | 0 <= i < |rest| - 1 ensures rest[i + 1] < rest[i] + Window {
        assert rest[i] == times[i + 1] && rest[i + 1] == times[i + 2];
      }
      BurstFrom(s.entries, ip, rest, maxRequests, c + 1);
    }
  }

  /** With no live counter for the IP, `maxRequests` requests in quick
      succession are accepted and the next one gets a 429. */
  lemma BurstFromIdle(m: Entries<int>, ip: string, times: seq<int>, maxRequests: int)
    requires maxRequests >= 0 && |times| == maxRequests + 1
    requires !Live(m, CounterKey(ip), times[0])
    requires forall i :: 0 <= i < |times| - 1 ==> times[i + 1] < times[i] + Window
    ensures var outs := Replay(m, ip, times, maxRequests).outcomes;
      && (forall i :: 0 <= i < maxRequests ==> outs[i] == Forwarded)
      && outs[maxRequests] == Rejected(429, false, LimitMessage)
  {
    BurstFrom(m, ip, times, maxRequests, 0);
  }

  /** With the default limit of 60, the 61st request in quick succession
      from an idle IP gets a 429 and the 60 before it are accepted. */
  lemma DefaultLimitBurst(m: Entries<int>, ip: string, times: seq<int>)
    requires |times| == DefaultMaxRequests + 1
    requires !Live(m, CounterKey(ip), times[0])
    requires forall i :: 0 <= i < |times| - 1 ==> times[i + 1] < times[i] + Window
    ensures var outs := Replay(m, ip, times, DefaultMaxRequests).outcomes;
      && (forall i :: 0 <= i < 60 ==> outs[i] == Forwarded)
      && outs[60] == Rejected(429, false, LimitMessage)
  {
    BurstFromIdle(m, ip, times, DefaultMaxRequests);
  }

  /** The expiry slides: every accepted request pushes it 60 seconds on, so
      requests at 0, 59 and 100 seconds are all counted together (a window
      fixed at the first request would have started again at 60). With a
      limit of 2 the third is turned away. */
  lemma SlidingExpiry(ip: string)
    ensures Replay(map[], ip, [0, 59, 100], 2).outcomes == [Forwarded, Forwarded, Rejected(429, false, LimitMessage)]
    ensures Replay(map[], ip, [0, 59, 100], 60).entries[CounterKey(ip)] == Entry(3, 160)
  {
    var times := [0, 59, 100];
    assert times[1..] == [59, 100] && times[1..][1..] == [100] && times[1..][1..][1..] == [];
  }

  /** A counter left alone for 60 seconds is gone: the next request is
      counted from zero. */
  lemma RestartAfterQuietMinute(m: Entries<int>, ip: string, t: int, t': int, maxRequests: int)
    requires Decide(m, ip, t, maxRequests).outcome == Forwarded
    requires t' >= t + Window && maxRequests >= 1
    ensures var r := Decide(Decide(m, ip, t, maxRequests).entries, ip, t', maxRequests);
      r.outcome == Forwarded && r.entries[CounterKey(ip)] == Entry(1, t' + Window)
  {
  }
}
