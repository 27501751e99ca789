/**
 What the limiter owes an address: how far a refusal is its own doing, and when it is
 served for certain.  Times are in order here.
 */
module LimiterService {
  import opened Wrappers
  import opened Limiter

  // ------------------------------------------------------------ one request

  /** The tokens of an address: 30 if it has no bucket, and otherwise half a token a second more, up to 30. */
  function Holding(m: Buckets, ip: Ip, now: int): real
  {
    if ip !in m then 30.0
    else
      var t := m[ip].tokens + (now - m[ip].lastSeen) as real * (0.5 / 1_000_000_000.0);
      if t > 30.0 then 30.0 else t
  }

  lemma HoldingIs(m: Buckets, ip: Ip, now: int)
    ensures Holding(m, ip, now) == Tokens(m, ip, now)
  {
  }

  /**
   A request is granted if its address holds a token, and then costs one; it leaves every
   other bucket alone, unless the address is new and 4096 have buckets: then one goes that
   was seen no later than any other.
   */
  lemma {:induction false} RequestCosts(m: Buckets, ip: Ip, now: int, victim: Ip)
    requires Legal(m, Allow(ip, now, victim))
    ensures var n, evicts := Step(m, Allow(ip, now, victim)), ip !in m && |m| >= 4096;
            && (Grants(m, ip, now) <==> Holding(m, ip, now) >= 1.0)
            && ip in n && n[ip].lastSeen == now
            && n[ip].tokens == Holding(m, ip, now) - (if Grants(m, ip, now) then 1.0 else 0.0)
            && (forall other | other != ip :: other in n <==> other in m && !(evicts && other == victim))
            && (forall other | other != ip && other in n :: n[other] == m[other])
            && (evicts ==> victim in m && forall other | other in m :: m[victim].lastSeen <= m[other].lastSeen)
  {
    HoldingIs(m, ip, now);
  }

  /** A refused request changes nobody's tokens at any time. */
  lemma {:induction false} RefusalCostsNothing(m: Buckets, ip: Ip, now: int, victim: Ip, other: Ip, t: int)
    requires !Grants(m, ip, now) && t >= now
    ensures Holding(Step(m, Allow(ip, now, victim)), other, t) == Holding(m, other, t)
  {
    HoldingIs(m, ip, now);
  }

  /** The janitor drops exactly what was not seen for more than ten minutes. */
  lemma {:induction false} SweepDrops(m: Buckets, now: int, ip: Ip)
    ensures ip in Step(m, Gc(now)) <==> ip in m && now - m[ip].lastSeen <= 600 * 1_000_000_000
    ensures ip in Step(m, Gc(now)) ==> Step(m, Gc(now))[ip] == m[ip]
  {
  }

  // ------------------------------------------------------------ patience

  /** When an address last asked. */
  function LastAsked(events: seq<Event>, ip: Ip): Option<int>
  {
    if |events| == 0 then None
    else
      var last := events[|events| - 1];
      if last.Allow? && last.ip == ip then Some(last.now) else LastAsked(events[..|events| - 1], ip)
  }

  function AskedTimes(events: seq<Event>, ip: Ip): nat
  {
    if |events| == 0 then 0
    else
      var last := events[|events| - 1];
      AskedTimes(events[..|events| - 1], ip) + if last.Allow? && last.ip == ip then 1 else 0
  }

  /** A legal run with times in order, from the empty map. */
  ghost predicate InOrder(start: int, events: seq<Event>)
  {
    LegalRun(map[], events) && InTime(start, 0, events)
  }

  lemma {:induction false} InOrderFront(start: int, events: seq<Event>)
    requires InOrder(start, events) && |events| > 0
    ensures var front, last := events[..|events| - 1], events[|events| - 1];
            && InOrder(start, front) && Legal(Run(map[], front), last) && TopOf(start, front) <= last.now
            && Run(map[], events) == Step(Run(map[], front), last) && TopOf(start, events) == last.now
            && Inv(Run(map[], front), TopOf(start, front), 0)
  {
    var front, last := events[..|events| - 1], events[|events| - 1];
    assert front + [last] == events;
    LegalRunSplits(map[], front, [last]);
    InTimeJoins(start, 0, front, [last]);
    RunJoins(map[], front, [last]);
    RunKeeps(map[], start, 0, front);
    OneStep(Run(map[], front), last);
  }

  lemma {:induction false} OneStep(m: Buckets, e: Event)
    ensures Run(m, [e]) == Step(m, e)
    ensures LegalRun(m, [e]) ==> Legal(m, e)
    ensures forall top, skew: nat | InTime(top, skew, [e]) :: top - skew <= e.now
    ensures forall top :: TopOf(top, [e]) == Later(top, e.now)
  {
    assert [e][1..] == [];
  }

  /** A bucket dates from its address's last request. */
  lemma {:induction false} SeenWhenAsked(start: int, events: seq<Event>, ip: Ip)
    requires InOrder(start, events) && ip in Run(map[], events)
    ensures LastAsked(events, ip) == Some(Run(map[], events)[ip].lastSeen)
  {
    if |events| > 0 {
      InOrderFront(start, events);
      var last := events[|events| - 1];
      if !(last.Allow? && last.ip == ip) {
        SeenWhenAsked(start, events[..|events| - 1], ip);
      }
    }
  }

  /** An address that let two seconds pass since its last request is granted the next one. */
  lemma {:induction false} PatientIsGranted(start: int, events: seq<Event>, ip: Ip, now: int)
    requires InOrder(start, events) && TopOf(start, events) <= now
    requires LastAsked(events, ip).Some? ==> now - LastAsked(events, ip).value >= 2 * 1_000_000_000
    ensures Grants(Run(map[], events), ip, now)
  {
    var m := Run(map[], events);
    if ip in m {
      SeenWhenAsked(start, events, ip);
      RunKeeps(map[], start, 0, events);
      assert BucketOk(m[ip], TopOf(start, events), 0);
      assert (now - m[ip].lastSeen) as real * RATE >= 1.0;
    }
  }

  /** The first thirty requests of an address are granted, however fast they come. */
  lemma {:induction false} FirstThirtyAreGranted(start: int, events: seq<Event>, ip: Ip, now: int)
    requires InOrder(start, events) && TopOf(start, events) <= now && AskedTimes(events, ip) < 30
    ensures Grants(Run(map[], events), ip, now)
  {
    HoldsWhatIsLeft(start, events, ip, now);
  }

  lemma {:induction false} HoldsWhatIsLeft(start: int, events: seq<Event>, ip: Ip, now: int)
    requires InOrder(start, events) && TopOf(start, events) <= now
    ensures Tokens(Run(map[], events), ip, now) >= 30.0 - AskedTimes(events, ip) as real
    decreases |events|
  {
    if |events| > 0 {
      InOrderFront(start, events);
      var front, last := events[..|events| - 1], events[|events| - 1];
      if last.Allow? && last.ip == ip {
        HoldsWhatIsLeft(start, front, ip, last.now);
      } else {
        HoldsWhatIsLeft(start, front, ip, now);
      }
    }
  }

  // ------------------------------------------------------------ what a refusal proves

  lemma {:induction false} PermitsMore(m: Buckets, events: seq<Event>, e: Event, ip: Ip)
    ensures Permits(m, events + [e], ip)
         == Permits(m, events, ip) + if e.Allow? && e.ip == ip && Grants(Run(m, events), ip, e.now) then 1 else 0
    decreases |events|
  {
    if |events| == 0 {
      assert events + [e] == [e] && [e][1..] == [];
    } else {
      assert (events + [e])[1..] == events[1..] + [e];
      PermitsMore(Step(m, events[0]), events[1..], e, ip);
    }
  }

  /** The permits of an address from the `k`-th event on. */
  ghost function PermitsSince(events: seq<Event>, k: nat, ip: Ip): nat
    requires k <= |events|
  {
    Permits(Run(map[], events[..k]), events[k..], ip)
  }

  lemma {:induction false} PermitsSinceMore(front: seq<Event>, last: Event, k: nat, ip: Ip)
    requires k <= |front|
    ensures PermitsSince(front + [last], k, ip)
         == PermitsSince(front, k, ip)
            + if last.Allow? && last.ip == ip && Grants(Run(map[], front), ip, last.now) then 1 else 0
  {
    assert (front + [last])[..k] == front[..k] && (front + [last])[k..] == front[k..] + [last];
    assert front[..k] + front[k..] == front;
    PermitsMore(Run(map[], front[..k]), front[k..], last, ip);
    RunJoins(map[], front[..k], front[k..]);
  }

  /** Since it was last full, a bucket lost a token for each permit and gained half of one a second. */
  lemma {:induction false} TokensAreAccounted(start: int, events: seq<Event>, ip: Ip, now: int)
    returns (k: nat, full: int)
    requires InOrder(start, events) && TopOf(start, events) <= now
    ensures k <= |events| && full <= now && forall i | k <= i < |events| :: events[i].now >= full
    ensures Tokens(Run(map[], events), ip, now) == 30.0 || full <= TopOf(start, events)
    ensures Tokens(Run(map[], events), ip, now)
         == 30.0 + (now - full) as real * RATE - PermitsSince(events, k, ip) as real
    decreases |events|
  {
    if Tokens(Run(map[], events), ip, now) == 30.0 {
      k, full := |events|, now;
      assert events[k..] == [];
    } else {
      InOrderFront(start, events);
      var front, last := events[..|events| - 1], events[|events| - 1];
      assert front + [last] == events;
      if last.Allow? && last.ip == ip {
        k, full := TokensAreAccounted(start, front, ip, last.now);
        SpentIs(Run(map[], front), last, ip, now);
        PermitsSinceMore(front, last, k, ip);
      } else {
        k, full := TokensAreAccounted(start, front, ip, now);
        OthersKeepTokens(Run(map[], front), last, ip, now);
        PermitsSinceMore(front, last, k, ip);
      }
    }
  }

  lemma {:induction false} OthersKeepTokens(m: Buckets, e: Event, ip: Ip, now: int)
    requires !(e.Allow? && e.ip == ip) && Tokens(Step(m, e), ip, now) != 30.0
    ensures Tokens(m, ip, now) == Tokens(Step(m, e), ip, now)
  {
  }

  lemma {:induction false} SpentIs(m: Buckets, e: Event, ip: Ip, now: int)
    requires e.Allow? && e.ip == ip && Tokens(Step(m, e), ip, now) != 30.0
    ensures Tokens(Step(m, e), ip, now)
         == Tokens(m, ip, e.now) - (if Grants(m, ip, e.now) then 1.0 else 0.0) + (now - e.now) as real * RATE
  {
  }

  /**
   A refused address has had its due: there is a time since when it was granted more than
   29 requests and one for every two seconds.
   */
  lemma {:induction false} RefusedHadItsDue(start: int, events: seq<Event>, ip: Ip, now: int)
    returns (k: nat, full: int)
    requires InOrder(start, events) && TopOf(start, events) <= now && !Grants(Run(map[], events), ip, now)
    ensures k <= |events| && full <= now && forall i | k <= i < |events| :: events[i].now >= full
    ensures PermitsSince(events, k, ip) as real > 29.0 + (now - full) as real * (0.5 / 1_000_000_000.0)
  {
    k, full := TokensAreAccounted(start, events, ip, now);
  }
}
