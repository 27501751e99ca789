/**
 The limiter on failed authentications: one token bucket per client address, refilled
 with time, with a janitor that drops old buckets and a cap on how many are kept.
 Times are nanoseconds.
 */
module Limiter {

  const SECOND: int := 1_000_000_000
  const TTL: int := 600 * SECOND
  const MAX_KEYS: nat := 4096
  const BURST: real := 30.0
  /** Tokens restored per nanosecond: 30 a minute. */
  const RATE: real := 0.0000000005
  /** How far the clock may go back before the janitor is noticed. */
  const MAX_SKEW: int := 270 * SECOND

  type Ip = string

  datatype Bucket = Bucket(tokens: real, lastSeen: int)

  type Buckets = map<Ip, Bucket>

  /** `victim` is the bucket dropped if the map is full and `ip` has none. */
  datatype Event = Allow(ip: Ip, now: int, victim: Ip) | Gc(now: int)

  // ------------------------------------------------------------ one step

  function Refilled(b: Bucket, now: int): real
  {
    var t := b.tokens + (now - b.lastSeen) as real * RATE;
    if t < BURST then t else BURST
  }

  predicate MustEvict(m: Buckets, ip: Ip)
  {
    ip !in m && |m| >= MAX_KEYS
  }

  predicate IsOldest(m: Buckets, victim: Ip)
  {
    victim in m && forall ip | ip in m :: m[victim].lastSeen <= m[ip].lastSeen
  }

  predicate Legal(m: Buckets, e: Event)
  {
    e.Allow? && MustEvict(m, e.ip) ==> IsOldest(m, e.victim)
  }

  function Roomy(m: Buckets, ip: Ip, victim: Ip): Buckets
  {
    if MustEvict(m, ip) then m - {victim} else m
  }

  function Tokens(m: Buckets, ip: Ip, now: int): real
  {
    if ip in m then Refilled(m[ip], now) else BURST
  }

  predicate Grants(m: Buckets, ip: Ip, now: int)
  {
    Tokens(m, ip, now) >= 1.0
  }

  function Spent(tokens: real): real
  {
    if tokens < 1.0 then tokens else tokens - 1.0
  }

  function Collected(m: Buckets, now: int): Buckets
  {
    map ip | ip in m && now - m[ip].lastSeen <= TTL :: m[ip]
  }

  function Step(m: Buckets, e: Event): Buckets
  {
    match e
    case Allow(ip, now, victim) =>
      Roomy(m, ip, victim)[ip := Bucket(Spent(Tokens(m, ip, now)), now)]
    case Gc(now) => Collected(m, now)
  }

  // ------------------------------------------------------------ whatever the clock says

  /** Not too many buckets, and none overfull. */
  ghost predicate Bounded(m: Buckets)
  {
    |m| <= MAX_KEYS && forall ip | ip in m :: m[ip].tokens <= BURST
  }

  lemma RemovalShrinks(m: Buckets, ip: Ip)
    requires ip in m
    ensures |m - {ip}| == |m| - 1
  {
    var rest := m - {ip};
    assert m == rest[ip := m[ip]];
    assert m.Keys == rest.Keys + {ip};
  }

  lemma CollectedShrinks(m: Buckets, now: int)
    ensures |Collected(m, now)| <= |m|
  {
    KeysBound(Collected(m, now).Keys, m.Keys);
  }

  lemma {:induction false} KeysBound<T>(a: set<T>, b: set<T>)
    requires a <= b
    ensures |a| <= |b|
  {
    assert b == a + (b - a);
  }

  lemma InsertionGrows(m: Buckets, ip: Ip, b: Bucket)
    ensures |m[ip := b]| == if ip in m then |m| else |m| + 1
  {
    assert m[ip := b].Keys == m.Keys + {ip};
  }

  lemma StepIsBounded(m: Buckets, e: Event)
    requires Bounded(m) && Legal(m, e)
    ensures Bounded(Step(m, e))
  {
    match e
    case Allow(ip, now, victim) =>
      if MustEvict(m, ip) {
        RemovalShrinks(m, victim);
      }
      InsertionGrows(Roomy(m, ip, victim), ip, Bucket(Spent(Tokens(m, ip, now)), now));
    case Gc(now) =>
      CollectedShrinks(m, now);
  }

  ghost predicate LegalRun(m: Buckets, events: seq<Event>)
    decreases |events|
  {
    |events| == 0 || (Legal(m, events[0]) && LegalRun(Step(m, events[0]), events[1..]))
  }

  function Run(m: Buckets, events: seq<Event>): Buckets
    decreases |events|
  {
    if |events| == 0 then m else Run(Step(m, events[0]), events[1..])
  }

  /** In whatever order the times of the events come, the map never exceeds its cap. */
  lemma {:induction false} RunIsBounded(m: Buckets, events: seq<Event>)
    requires Bounded(m) && LegalRun(m, events)
    ensures Bounded(Run(m, events))
    decreases |events|
  {
    if |events| > 0 {
      StepIsBounded(m, events[0]);
      RunIsBounded(Step(m, events[0]), events[1..]);
    }
  }

  // ------------------------------------------------------------ a clock that goes back a little

  function Later(s: int, t: int): int
  {
    if s < t then t else s
  }

  /** The latest of the times up to the end of the run. */
  function TopOf(top: int, events: seq<Event>): int
    decreases |events|
  {
    if |events| == 0 then top else TopOf(Later(top, events[0].now), events[1..])
  }

  /**
   No event is more than `skew` before the latest that came before it: requests read
   the clock before they take the lock, so their times may reach it out of order.
   */
  predicate InTime(top: int, skew: nat, events: seq<Event>)
    decreases |events|
  {
    |events| == 0 || (top - skew <= events[0].now && InTime(Later(top, events[0].now), skew, events[1..]))
  }

  /** Every bucket was last seen by `top`, and by then refills to at least nothing. */
  ghost predicate Inv(m: Buckets, top: int, skew: nat)
  {
    Bounded(m) && forall ip | ip in m :: BucketOk(m[ip], top, skew)
  }

  predicate BucketOk(b: Bucket, top: int, skew: nat)
  {
    && b.lastSeen <= top
    && -(skew as real * RATE) <= b.tokens <= BURST
    && 0.0 <= b.tokens + (top - b.lastSeen) as real * RATE
  }

  lemma TokensInRange(m: Buckets, top: int, skew: nat, ip: Ip, t: int)
    requires Inv(m, top, skew) && top - skew <= t
    ensures -(skew as real * RATE) <= Tokens(m, ip, t) <= BURST
  {
    if ip in m {
      assert BucketOk(m[ip], top, skew);
      assert (t - m[ip].lastSeen) as real >= (top - m[ip].lastSeen) as real - skew as real;
    }
  }

  /** No bucket is overdrawn by more than the skew is worth. */
  lemma StepKeeps(m: Buckets, top: int, skew: nat, e: Event)
    requires Inv(m, top, skew) && Legal(m, e) && top - skew <= e.now
    ensures Inv(Step(m, e), Later(top, e.now), skew)
  {
    StepIsBounded(m, e);
    forall ip | ip in Step(m, e) ensures BucketOk(Step(m, e)[ip], Later(top, e.now), skew) {
      if e.Allow? && ip == e.ip {
        BucketAfter(m, top, skew, ip, e.now);
      } else {
        BucketLater(m[ip], top, skew, Later(top, e.now));
      }
    }
  }

  lemma BucketLater(b: Bucket, top: int, skew: nat, later: int)
    requires BucketOk(b, top, skew) && top <= later
    ensures BucketOk(b, later, skew)
  {
  }

  lemma BucketAfter(m: Buckets, top: int, skew: nat, ip: Ip, now: int)
    requires Inv(m, top, skew) && top - skew <= now
    ensures BucketOk(Bucket(Spent(Tokens(m, ip, now)), now), Later(top, now), skew)
  {
    TokensInRange(m, top, skew, ip, now);
    if ip in m {
      BucketLater(m[ip], top, skew, Later(top, now));
    }
  }

  lemma {:induction false} RunKeeps(m: Buckets, top: int, skew: nat, events: seq<Event>)
    requires Inv(m, top, skew) && LegalRun(m, events) && InTime(top, skew, events)
    ensures Inv(Run(m, events), TopOf(top, events), skew)
    decreases |events|
  {
    if |events| > 0 {
      StepKeeps(m, top, skew, events[0]);
      RunKeeps(Step(m, events[0]), Later(top, events[0].now), skew, events[1..]);
    }
  }

  /** What each request was answered. */
  function Answers(m: Buckets, events: seq<Event>): seq<bool>
    decreases |events|
  {
    if |events| == 0 then []
    else
      var rest := Answers(Step(m, events[0]), events[1..]);
      if events[0].Allow? then [Grants(m, events[0].ip, events[0].now)] + rest else rest
  }

  function WithoutGc(events: seq<Event>): seq<Event>
    decreases |events|
  {
    if |events| == 0 then []
    else if events[0].Gc? then WithoutGc(events[1..])
    else [events[0]] + WithoutGc(events[1..])
  }

  // ------------------------------------------------------------ the janitor is invisible

  /** From `now` on, both maps give every address the same tokens. */
  ghost predicate SameTokens(a: Buckets, b: Buckets, now: int)
  {
    forall ip, t | t >= now :: Tokens(a, ip, t) == Tokens(b, ip, t)
  }

  /** What the janitor drops would be full again, at whatever time it is asked next. */
  lemma GcKeepsTokens(m: Buckets, top: int, skew: nat, ip: Ip, now: int, t: int)
    requires Inv(m, top, skew) && skew <= MAX_SKEW && t >= now - skew
    ensures Tokens(Collected(m, now), ip, t) == Tokens(m, ip, t)
  {
    if ip in m && ip !in Collected(m, now) {
      assert BucketOk(m[ip], top, skew);
      assert t - m[ip].lastSeen > TTL - skew;
      assert (t - m[ip].lastSeen) as real * RATE > (TTL - skew) as real * RATE;
    }
  }

  /** Runs over at most `MAX_KEYS` addresses, which is what rules out an eviction. */
  ghost predicate Within(ips: set<Ip>, m: Buckets, events: seq<Event>)
  {
    && |ips| <= MAX_KEYS && m.Keys <= ips
    && (forall e | e in events && e.Allow? :: e.ip in ips)
  }

  lemma NoEviction(ips: set<Ip>, m: Buckets, events: seq<Event>)
    requires Within(ips, m, events) && |events| > 0
    ensures events[0].Allow? ==> !MustEvict(m, events[0].ip)
    ensures Within(ips, Step(m, events[0]), events[1..])
  {
    if events[0].Allow? && events[0].ip !in m {
      assert events[0] in events;
      KeysBound(m.Keys + {events[0].ip}, ips);
    }
  }

  lemma SameAfterAllow(a: Buckets, b: Buckets, e: Event, low: int)
    requires e.Allow? && !MustEvict(a, e.ip) && !MustEvict(b, e.ip) && SameTokens(a, b, low) && low <= e.now
    ensures SameTokens(Step(a, e), Step(b, e), low)
    ensures Grants(a, e.ip, e.now) == Grants(b, e.ip, e.now)
  {
    assert Tokens(a, e.ip, e.now) == Tokens(b, e.ip, e.now);
    forall ip, t | t >= low ensures Tokens(Step(a, e), ip, t) == Tokens(Step(b, e), ip, t) {
      assert ip != e.ip ==> Tokens(Step(a, e), ip, t) == Tokens(a, ip, t);
      assert ip != e.ip ==> Tokens(Step(b, e), ip, t) == Tokens(b, ip, t);
    }
  }

  /** However often the janitor runs, every request is answered as if it never ran. */
  lemma {:induction false} GcIsInvisible(a: Buckets, b: Buckets, top: int, skew: nat, events: seq<Event>, ips: set<Ip>)
    requires Inv(a, top, skew) && LegalRun(a, events) && InTime(top, skew, events) && skew <= MAX_SKEW
    requires Within(ips, a, events) && Within(ips, b, events) && SameTokens(a, b, top - skew)
    ensures Answers(a, events) == Answers(b, WithoutGc(events))
    decreases |events|
  {
    if |events| > 0 {
      var e, rest := events[0], events[1..];
      NoEviction(ips, a, events);
      StepKeeps(a, top, skew, e);
      if e.Gc? {
        forall ip, t | t >= Later(top, e.now) - skew ensures Tokens(Step(a, e), ip, t) == Tokens(b, ip, t) {
          GcKeepsTokens(a, top, skew, ip, e.now, t);
        }
        GcIsInvisible(Step(a, e), b, Later(top, e.now), skew, rest, ips);
      } else {
        NoEviction(ips, b, events);
        SameAfterAllow(a, b, e, top - skew);
        GcIsInvisible(Step(a, e), Step(b, e), Later(top, e.now), skew, rest, ips);
        assert WithoutGc(events)[1..] == WithoutGc(rest);
      }
    }
  }

  /** A run that starts empty answers the same whenever the janitor runs. */
  lemma JanitorIsInvisible(start: int, skew: nat, events: seq<Event>, ips: set<Ip>)
    requires LegalRun(map[], events) && InTime(start, skew, events) && skew <= MAX_SKEW
    requires Within(ips, map[], events)
    ensures Answers(map[], events) == Answers(map[], WithoutGc(events))
  {
    GcIsInvisible(map[], map[], start, skew, events, ips);
  }

  // ------------------------------------------------------------ a clock that goes back too far

  lemma {:induction false} LastAnswer(m: Buckets, events: seq<Event>, e: Event)
    requires e.Allow?
    ensures Answers(m, events + [e]) == Answers(m, events) + [Grants(Run(m, events), e.ip, e.now)]
    decreases |events|
  {
    if |events| == 0 {
      assert events + [e] == [e];
      assert Answers(Step(m, e), [e][1..]) == [];
    } else {
      assert (events + [e])[1..] == events[1..] + [e];
      LastAnswer(Step(m, events[0]), events[1..], e);
    }
  }

  lemma {:induction false} RunJoins(m: Buckets, first: seq<Event>, second: seq<Event>)
    ensures Run(m, first + second) == Run(Run(m, first), second)
    decreases |first|
  {
    if |first| == 0 {
      assert first + second == second;
    } else {
      assert (first + second)[1..] == first[1..] + second;
      RunJoins(Step(m, first[0]), first[1..], second);
    }
  }

  lemma {:induction false} WithoutGcJoins(first: seq<Event>, second: seq<Event>)
    ensures WithoutGc(first + second) == WithoutGc(first) + WithoutGc(second)
    decreases |first|
  {
    if |first| == 0 {
      assert first + second == second;
    } else {
      assert (first + second)[1..] == first[1..] + second;
      WithoutGcJoins(first[1..], second);
    }
  }

  /** `n` requests of one address at one time. */
  function Requests(ip: Ip, now: int, n: nat): seq<Event>
  {
    if n == 0 then [] else [Allow(ip, now, ip)] + Requests(ip, now, n - 1)
  }

  lemma {:induction false} RequestsSpend(m: Buckets, ip: Ip, now: int, n: nat)
    requires m.Keys <= {ip} && n as real <= Tokens(m, ip, now) <= BURST
    ensures Run(m, Requests(ip, now, n)).Keys <= {ip}
    ensures Tokens(Run(m, Requests(ip, now, n)), ip, now) == Tokens(m, ip, now) - n as real
    ensures n > 0 ==> Run(m, Requests(ip, now, n)) == map[ip := Bucket(Tokens(m, ip, now) - n as real, now)]
    ensures WithoutGc(Requests(ip, now, n)) == Requests(ip, now, n)
    ensures forall e | e in Requests(ip, now, n) :: e.Allow? && e.ip == ip
    decreases n
  {
    if n > 0 {
      OneRequestSpends(m, ip, now);
      RequestsSpend(Step(m, Allow(ip, now, ip)), ip, now, n - 1);
    }
  }

  lemma {:induction false} OneRequestSpends(m: Buckets, ip: Ip, now: int)
    requires m.Keys <= {ip} && 1.0 <= Tokens(m, ip, now) <= BURST
    ensures var next := Step(m, Allow(ip, now, ip));
            && next == map[ip := Bucket(Tokens(m, ip, now) - 1.0, now)]
            && Tokens(next, ip, now) == Tokens(m, ip, now) - 1.0
  {
    OneBucket(m, ip);
  }

  lemma OneBucket(m: Buckets, ip: Ip)
    requires m.Keys <= {ip}
    ensures !MustEvict(m, ip)
  {
  }

  lemma {:induction false} RequestsInTime(top: int, skew: nat, ip: Ip, now: int, n: nat)
    requires top - skew <= now
    ensures InTime(top, skew, Requests(ip, now, n))
    ensures n > 0 ==> TopOf(top, Requests(ip, now, n)) == Later(top, now)
    decreases n
  {
    if n > 0 {
      RequestsInTime(Later(top, now), skew, ip, now, n - 1);
    }
  }

  lemma {:induction false} InTimeJoins(top: int, skew: nat, first: seq<Event>, second: seq<Event>)
    ensures InTime(top, skew, first + second) <==> InTime(top, skew, first) && InTime(TopOf(top, first), skew, second)
    ensures TopOf(top, first + second) == TopOf(TopOf(top, first), second)
    decreases |first|
  {
    if |first| == 0 {
      assert first + second == second;
    } else {
      assert (first + second)[1..] == first[1..] + second;
      InTimeJoins(Later(top, first[0].now), skew, first[1..], second);
    }
  }

  /** An address alone never evicts. */
  lemma {:induction false} AloneIsLegal(m: Buckets, ip: Ip, events: seq<Event>)
    requires m.Keys <= {ip} && forall e | e in events && e.Allow? :: e.ip == ip
    ensures LegalRun(m, events)
    decreases |events|
  {
    if |events| > 0 {
      OneBucket(m, ip);
      assert events[0] in events;
      AloneIsLegal(Step(m, events[0]), ip, events[1..]);
    }
  }

  const TOO_LATE: int := MAX_SKEW + 1
  const NOTICED_AT: int := TTL - 2 * TOO_LATE + 1

  /** Thirty requests that spend the burst, and one that read the clock too early by `TOO_LATE`. */
  function Spending(ip: Ip): seq<Event>
  {
    Requests(ip, 0, 30) + [Allow(ip, 0 - TOO_LATE, ip)]
  }

  /** Then a sweep as early as it drops that bucket, and as many late requests as a burst allows but one. */
  function Noticing(ip: Ip): seq<Event>
  {
    Spending(ip) + [Gc(TTL - TOO_LATE + 1)] + Requests(ip, NOTICED_AT, 29)
  }

  function Overdrawn(ip: Ip): Buckets
  {
    map[ip := Bucket(0.0 - TOO_LATE as real * RATE, 0 - TOO_LATE)]
  }

  lemma SpendingLeaves(ip: Ip)
    ensures Run(map[], Spending(ip)) == Overdrawn(ip) && WithoutGc(Spending(ip)) == Spending(ip)
    ensures forall e | e in Spending(ip) :: e.Allow? && e.ip == ip
  {
    var first, late := Requests(ip, 0, 30), Allow(ip, 0 - TOO_LATE, ip);
    RequestsSpend(map[], ip, 0, 30);
    RunJoins(map[], first, [late]);
    WithoutGcJoins(first, [late]);
    assert Tokens(map[ip := Bucket(0.0, 0)], ip, late.now) == 0.0 - TOO_LATE as real * RATE;
    assert Run(Step(map[ip := Bucket(0.0, 0)], late), []) == Overdrawn(ip);
    assert [late][1..] == [];
  }

  ghost predicate RunOver(start: int, skew: nat, events: seq<Event>, ips: set<Ip>)
  {
    LegalRun(map[], events) && InTime(start, skew, events) && Within(ips, map[], events)
  }

  lemma NoticingIsARun(start: int, skew: nat, ip: Ip)
    requires TOO_LATE <= skew && start <= 0
    ensures RunOver(start, skew, Noticing(ip) + [Allow(ip, NOTICED_AT, ip)], {ip})
  {
    var first, sweep, end := Requests(ip, 0, 30), [Gc(TTL - TOO_LATE + 1)], [Allow(ip, NOTICED_AT, ip)];
    SpendingLeaves(ip);
    RequestsSpend(map[], ip, NOTICED_AT, 29);
    AloneIsLegal(map[], ip, Noticing(ip) + end);
    RequestsInTime(start, skew, ip, 0, 30);
    InTimeJoins(start, skew, first, [Allow(ip, 0 - TOO_LATE, ip)]);
    InTimeJoins(start, skew, Spending(ip), sweep);
    RequestsInTime(Later(0, sweep[0].now), skew, ip, NOTICED_AT, 29);
    InTimeJoins(start, skew, Spending(ip) + sweep, Requests(ip, NOTICED_AT, 29));
    InTimeJoins(start, skew, Noticing(ip), end);
  }

  /** Swept, the address has a full burst again. */
  lemma SweptGrants(ip: Ip)
    ensures Grants(Run(map[], Noticing(ip)), ip, NOTICED_AT)
  {
    var spending, sweep, last := Spending(ip), [Gc(TTL - TOO_LATE + 1)], Requests(ip, NOTICED_AT, 29);
    SpendingLeaves(ip);
    RunJoins(map[], spending, sweep);
    assert Run(Overdrawn(ip), sweep) == Collected(Overdrawn(ip), sweep[0].now) == map[];
    RunJoins(map[], spending + sweep, last);
    RequestsSpend(map[], ip, NOTICED_AT, 29);
  }

  lemma {:induction false} DropsOneGc(first: seq<Event>, gc: Event, last: seq<Event>)
    requires gc.Gc? && WithoutGc(first) == first && WithoutGc(last) == last
    ensures WithoutGc(first + [gc] + last) == first + last
  {
    WithoutGcJoins(first, [gc]);
    WithoutGcJoins(first + [gc], last);
    assert WithoutGc([gc]) == [];
  }

  lemma NoticingWithoutGc(ip: Ip)
    ensures WithoutGc(Noticing(ip)) == Spending(ip) + Requests(ip, NOTICED_AT, 29)
  {
    SpendingLeaves(ip);
    RequestsSpend(map[], ip, NOTICED_AT, 29);
    DropsOneGc(Spending(ip), Gc(TTL - TOO_LATE + 1), Requests(ip, NOTICED_AT, 29));
  }

  /** Kept, it lacks a little of one. */
  lemma KeptRefuses(ip: Ip)
    ensures !Grants(Run(map[], WithoutGc(Noticing(ip))), ip, NOTICED_AT)
  {
    NoticingWithoutGc(ip);
    SpendingLeaves(ip);
    RunJoins(map[], Spending(ip), Requests(ip, NOTICED_AT, 29));
    RequestsSpend(Overdrawn(ip), ip, NOTICED_AT, 29);
  }

  /** Requests that read the clock 270 seconds and a nanosecond too late suffice to notice the janitor. */
  lemma JanitorIsNoticed(start: int, skew: nat, ip: Ip)
    requires MAX_SKEW < skew && start <= 0
    ensures exists events ::
              RunOver(start, skew, events, {ip}) && Answers(map[], events) != Answers(map[], WithoutGc(events))
  {
    var last := Allow(ip, NOTICED_AT, ip);
    NoticingIsARun(start, skew, ip);
    SweptGrants(ip);
    KeptRefuses(ip);
    LastAnswer(map[], Noticing(ip), last);
    WithoutGcJoins(Noticing(ip), [last]);
    LastAnswer(map[], WithoutGc(Noticing(ip)), last);
    LastsAgree(Answers(map[], Noticing(ip)), true, Answers(map[], WithoutGc(Noticing(ip))), false);
    assert [last][1..] == [];
    assert WithoutGc(Noticing(ip) + [last]) == WithoutGc(Noticing(ip)) + [last];
    assert RunOver(start, skew, Noticing(ip) + [last], {ip});
  }

  lemma LastsAgree<T>(s: seq<T>, x: T, t: seq<T>, y: T)
    ensures s + [x] == t + [y] ==> x == y
  {
    if s + [x] == t + [y] {
      assert (s + [x])[|s|] == (t + [y])[|t|];
    }
  }

  /** The janitor cannot be noticed exactly as long as no clock is read more than 270 seconds late. */
  lemma JanitorIsInvisibleIff(skew: nat)
    ensures skew <= MAX_SKEW <==>
      forall start, events, ips | RunOver(start, skew, events, ips) ::
        Answers(map[], events) == Answers(map[], WithoutGc(events))
  {
    if skew <= MAX_SKEW {
      forall start, events, ips | RunOver(start, skew, events, ips)
        ensures Answers(map[], events) == Answers(map[], WithoutGc(events))
      {
        JanitorIsInvisible(start, skew, events, ips);
      }
    } else {
      JanitorIsNoticed(0, skew, "");
    }
  }

  // ------------------------------------------------------------ the budget

  function Permits(m: Buckets, events: seq<Event>, ip: Ip): nat
    decreases |events|
  {
    if |events| == 0 then 0
    else
      Permits(Step(m, events[0]), events[1..], ip)
      + if events[0].Allow? && events[0].ip == ip && Grants(m, ip, events[0].now) then 1 else 0
  }

  function Evictions(m: Buckets, events: seq<Event>, ip: Ip): nat
    decreases |events|
  {
    if |events| == 0 then 0
    else Evictions(Step(m, events[0]), events[1..], ip) + if Evicts(m, events[0], ip) then 1 else 0
  }

  predicate Evicts(m: Buckets, e: Event, ip: Ip)
  {
    e.Allow? && MustEvict(m, e.ip) && e.victim == ip
  }

  /** What an eviction is worth to its address: a burst, and what it was overdrawn. */
  function Reset(skew: nat): real
  {
    BURST + skew as real * RATE
  }

  function Resets(skew: nat, n: nat): (r: real)
    ensures r >= 0.0
  {
    if n == 0 then 0.0 else Resets(skew, n - 1) + Reset(skew)
  }

  lemma {:induction false} ResetsMultiply(skew: nat, n: nat)
    ensures Resets(skew, n) == Reset(skew) * n as real
  {
    if n > 0 {
      ResetsMultiply(skew, n - 1);
      assert Reset(skew) * n as real == Reset(skew) * (n - 1) as real + Reset(skew);
    }
  }

  lemma TokensRefill(m: Buckets, ip: Ip, s: int, t: int)
    requires s <= t
    ensures Tokens(m, ip, t) <= Tokens(m, ip, s) + (t - s) as real * RATE
  {
  }

  /** A permit costs a token, now and at any time from which the bucket is looked at next. */
  lemma PermitSpends(m: Buckets, e: Event, ip: Ip, low: int, next: int)
    requires e.Allow? && e.ip == ip && Grants(m, ip, e.now) && low <= e.now
    ensures 1.0 <= Tokens(m, ip, low) + (e.now - low) as real * RATE
    ensures 1.0 + Tokens(Step(m, e), ip, next) <= Tokens(m, ip, low) + (next - low) as real * RATE
  {
    TokensRefill(m, ip, low, e.now);
  }

  /** Without a permit the address gains at most what time restores, and what an eviction is worth. */
  lemma OtherwiseRefills(m: Buckets, top: int, skew: nat, e: Event, ip: Ip, low: int, next: int)
    requires Inv(m, top, skew) && skew <= MAX_SKEW
    requires !(e.Allow? && e.ip == ip && Grants(m, ip, e.now)) && top - skew <= low <= next && low <= e.now
    requires e.now - skew <= next
    ensures Tokens(Step(m, e), ip, next)
         <= Tokens(m, ip, low) + (next - low) as real * RATE + if Evicts(m, e, ip) then Reset(skew) else 0.0
  {
    TokensInRange(m, top, skew, ip, low);
    TokensRefill(m, ip, low, next);
    if e.Gc? {
      GcKeepsTokens(m, top, skew, ip, e.now, next);
    } else if e.ip == ip {
      TokensRefill(m, ip, low, e.now);
    }
  }

  /** Either nothing was permitted, or no more than was there, was restored, or came from evictions. */
  ghost predicate InBudget(m: Buckets, events: seq<Event>, ip: Ip, skew: nat, low: int, till: int)
  {
    var permits, evictions := Permits(m, events, ip), Evictions(m, events, ip);
    permits == 0 ||
    permits as real <= Tokens(m, ip, low) + (till - low) as real * RATE + Resets(skew, evictions)
  }

  lemma BudgetStep(m: Buckets, top: int, skew: nat, events: seq<Event>, ip: Ip, low: int, next: int, till: int)
    requires |events| > 0 && Inv(m, top, skew) && skew <= MAX_SKEW
    requires top - skew <= low <= next && low <= events[0].now <= till && events[0].now - skew <= next
    requires InBudget(Step(m, events[0]), events[1..], ip, skew, next, till)
    ensures InBudget(m, events, ip, skew, low, till)
  {
    var e := events[0];
    if e.Allow? && e.ip == ip && Grants(m, ip, e.now) {
      PermitSpends(m, e, ip, low, next);
    } else {
      OtherwiseRefills(m, top, skew, e, ip, low, next);
    }
  }

  lemma {:induction false} PermitsAreBounded(m: Buckets, top: int, skew: nat, events: seq<Event>, ip: Ip,
                                             from: int, till: int)
    requires Inv(m, top, skew) && LegalRun(m, events) && InTime(top, skew, events) && skew <= MAX_SKEW
    requires forall e | e in events :: from <= e.now <= till
    ensures InBudget(m, events, ip, skew, Later(from, top - skew), till)
    decreases |events|
  {
    if |events| > 0 {
      var e, rest := events[0], events[1..];
      var reached := Later(top, e.now);
      assert e in events;
      StepKeeps(m, top, skew, e);
      PermitsAreBounded(Step(m, e), reached, skew, rest, ip, from, till);
      BudgetStep(m, top, skew, events, ip, Later(from, top - skew), Later(from, reached - skew), till);
    }
  }

  lemma {:induction false} StretchIsBounded(m: Buckets, top: int, skew: nat, events: seq<Event>, ip: Ip,
                                            from: int, till: int)
    requires Inv(m, top, skew) && LegalRun(m, events) && InTime(top, skew, events) && skew <= MAX_SKEW
    requires from <= till && forall e | e in events :: from <= e.now <= till
    ensures Permits(m, events, ip) as real
         <= BURST + (till - from) as real * RATE + Resets(skew, Evictions(m, events, ip))
  {
    var low := Later(from, top - skew);
    PermitsAreBounded(m, top, skew, events, ip, from, till);
    TokensInRange(m, top, skew, ip, low);
    assert (till - low) as real * RATE <= (till - from) as real * RATE;
  }

  lemma {:induction false} LegalRunSplits(m: Buckets, earlier: seq<Event>, later: seq<Event>)
    requires LegalRun(m, earlier + later)
    ensures LegalRun(m, earlier) && LegalRun(Run(m, earlier), later)
    decreases |earlier|
  {
    if |earlier| == 0 {
      assert earlier + later == later;
    } else {
      assert (earlier + later)[1..] == earlier[1..] + later;
      LegalRunSplits(Step(m, earlier[0]), earlier[1..], later);
    }
  }

  /**
   In any stretch of any run, an address gets at most one burst, plus what time
   restores, plus one burst, and what the clock went back, for each time its own bucket
   is evicted.
   */
  lemma BudgetHolds(start: int, skew: nat, earlier: seq<Event>, stretch: seq<Event>, ip: Ip, from: int, till: int)
    requires LegalRun(map[], earlier + stretch) && InTime(start, skew, earlier + stretch) && skew <= MAX_SKEW
    requires from <= till && forall e | e in stretch :: from <= e.now <= till
    ensures var m := Run(map[], earlier);
            Permits(m, stretch, ip) as real
              <= BURST + (till - from) as real * RATE + Resets(skew, Evictions(m, stretch, ip))
  {
    var m, top := Run(map[], earlier), TopOf(start, earlier);
    LegalRunSplits(map[], earlier, stretch);
    InTimeJoins(start, skew, earlier, stretch);
    RunKeeps(map[], start, skew, earlier);
    StretchIsBounded(m, top, skew, stretch, ip, from, till);
  }

  /** With times in order: one burst, what time restores, and one burst for each eviction. */
  lemma BudgetInOrder(start: int, earlier: seq<Event>, stretch: seq<Event>, ip: Ip, from: int, till: int)
    requires LegalRun(map[], earlier + stretch) && InTime(start, 0, earlier + stretch)
    requires from <= till && forall e | e in stretch :: from <= e.now <= till
    ensures var m := Run(map[], earlier);
            Permits(m, stretch, ip) as real
              <= BURST * (1 + Evictions(m, stretch, ip)) as real + (till - from) as real * RATE
  {
    BudgetHolds(start, 0, earlier, stretch, ip, from, till);
    ResetsMultiply(0, Evictions(Run(map[], earlier), stretch, ip));
  }

  /** Evicting a bucket forgets what its address has spent. */
  lemma EvictionResets(m: Buckets, e: Event, t: int)
    requires e.Allow? && MustEvict(m, e.ip) && IsOldest(m, e.victim)
    ensures e.victim != e.ip && Tokens(Step(m, e), e.victim, t) == BURST
  {
  }

  // ------------------------------------------------------------ the limiter

  ghost predicate Lists(order: seq<Ip>, m: Buckets)
  {
    forall ip :: ip in m <==> ip in order
  }

  class BadAttemptLimiter {
    var buckets: Buckets

    constructor ()
      ensures buckets == map[]
    {
      buckets := map[];
    }

    /** `order` is the order in which the map happens to be walked if it is full. */
    method Allow(ip: Ip, now: int, order: seq<Ip>) returns (ok: bool, ghost victim: Ip)
      requires Lists(order, buckets)
      modifies this
      ensures Legal(old(buckets), Event.Allow(ip, now, victim))
      ensures buckets == Step(old(buckets), Event.Allow(ip, now, victim))
      ensures ok == Grants(old(buckets), ip, now)
    {
      victim := ip;
      if ip !in buckets {
        if |buckets| >= MAX_KEYS {
          victim := EvictOldest(order);
        }
        buckets := buckets[ip := Bucket(BURST, now)];
      }
      var b := buckets[ip];
      var t := b.tokens + (now - b.lastSeen) as real * RATE;
      b := Bucket(if t < BURST then t else BURST, now);
      ok := b.tokens >= 1.0;
      if ok {
        b := b.(tokens := b.tokens - 1.0);
      }
      buckets := buckets[ip := b];
    }

    method EvictOldest(order: seq<Ip>) returns (oldest: Ip)
      requires Lists(order, buckets) && |buckets| > 0
      modifies this
      ensures IsOldest(old(buckets), oldest) && buckets == old(buckets) - {oldest}
    {
      SomeListed(order, buckets);
      oldest := order[0];
      var i := 1;
      while i < |order|
        invariant 1 <= i <= |order| && oldest in buckets
        invariant buckets == old(buckets)
        invariant forall j | 0 <= j < i :: buckets[oldest].lastSeen <= buckets[order[j]].lastSeen
      {
        if buckets[order[i]].lastSeen < buckets[oldest].lastSeen {
          oldest := order[i];
        }
        i := i + 1;
      }
      buckets := buckets - {oldest};
    }

    method Gc(now: int, order: seq<Ip>)
      requires Lists(order, buckets)
      modifies this
      ensures buckets == Step(old(buckets), Event.Gc(now))
    {
      var i := 0;
      while i < |order|
        invariant 0 <= i <= |order|
        invariant buckets == map ip | ip in old(buckets) &&
                                      !(ip in order[..i] && now - old(buckets)[ip].lastSeen > TTL) :: old(buckets)[ip]
      {
        if order[i] in buckets && now - buckets[order[i]].lastSeen > TTL {
          buckets := buckets - {order[i]};
        }
        assert order[..i + 1] == order[..i] + [order[i]];
        i := i + 1;
      }
      assert order[..i] == order;
    }
  }

  lemma SomeListed(order: seq<Ip>, m: Buckets)
    requires Lists(order, m) && |m| > 0
    ensures |order| > 0 && forall i | 0 <= i < |order| :: order[i] in m
  {
    var ip :| ip in m.Keys;
    assert ip in order;
  }
}
