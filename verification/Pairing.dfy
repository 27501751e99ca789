/** For which patterns of reported keys the success-rate chart is right, whatever the values. */
module Pairing {
  import opened Arithmetic
  import opened Metrics
  import opened Scrapes

  // ------------------------------------------------------------ patterns

  predicate SameKeys(a: seq<Reading>, b: seq<Reading>)
  {
    |a| == |b| && forall i | 0 <= i < |a| :: a[i].key == b[i].key
  }

  /** Runs of scrapes that report the same keys at the same times, with whatever values. */
  ghost predicate SamePattern(a: seq<Scrape>, b: seq<Scrape>)
  {
    |a| == |b| && forall i | 0 <= i < |a| :: a[i].ts == b[i].ts && SameKeys(a[i].readings, b[i].readings)
  }

  lemma SameKeysSameSet(a: seq<Reading>, b: seq<Reading>)
    requires SameKeys(a, b)
    ensures KeysOf(a) == KeysOf(b) && (Distinct(a) <==> Distinct(b))
  {
    forall k | k in KeysOf(a) ensures k in KeysOf(b) {
      var i :| 0 <= i < |a| && a[i].key == k;
      assert b[i] in b;
    }
    forall k | k in KeysOf(b) ensures k in KeysOf(a) {
      var i :| 0 <= i < |b| && b[i].key == k;
      assert a[i] in a;
    }
  }

  lemma {:induction false} SameFirstSeen(a: seq<Scrape>, b: seq<Scrape>, key: string)
    requires SamePattern(a, b)
    ensures FirstSeen(a, key) == FirstSeen(b, key)
  {
    if |a| > 0 {
      SameKeysSameSet(a[0].readings, b[0].readings);
      SameFirstSeen(a[1..], b[1..], key);
    }
  }

  lemma SamePatternSameDistinct(a: seq<Scrape>, b: seq<Scrape>)
    requires SamePattern(a, b) && AllDistinct(a)
    ensures AllDistinct(b)
  {
    forall s | s in b ensures Distinct(s.readings) {
      var i :| 0 <= i < |b| && b[i] == s;
      assert a[i] in a;
      SameKeysSameSet(a[i].readings, b[i].readings);
    }
  }

  // ------------------------------------------------------------ when a status fits

  predicate Reports(scrapes: seq<Scrape>, t: nat, key: string)
    requires t < |scrapes|
  {
    key in KeysOf(scrapes[t].readings)
  }

  /** After the first scrape its series shows, the key is never reported again. */
  ghost predicate Quiet(scrapes: seq<Scrape>, key: string)
  {
    forall t: nat | |scrapes| - ShownLength(scrapes, key) < t < |scrapes| :: !Reports(scrapes, t, key)
  }

  /** Never seen, shown as long as "ok", or shown longer without ever changing. */
  ghost predicate Fits(scrapes: seq<Scrape>, status: string)
  {
    var length, okLength := ShownLength(scrapes, StatusKey(status)), ShownLength(scrapes, StatusKey("ok"));
    FirstSeen(scrapes, StatusKey(status)) < |scrapes| ==>
      length == okLength || (length > okLength && Quiet(scrapes, StatusKey(status)))
  }

  /** Every point of the chart is the success rate of the counters as of one scrape. */
  ghost predicate RatesAreRight(scrapes: seq<Scrape>)
  {
    forall i: nat | i < |SuccessRates(Run(scrapes))| :: 0 < TickAt(scrapes, i) <= |scrapes| && IsRight(scrapes, i)
  }

  ghost predicate IsRight(scrapes: seq<Scrape>, i: nat)
    requires i < |SuccessRates(Run(scrapes))| && 0 < TickAt(scrapes, i) <= |scrapes|
  {
    var upTo := scrapes[..TickAt(scrapes, i)];
    SuccessRates(Run(scrapes))[i] == Rate(LastReported(upTo, StatusKey("ok")), TrueOther(upTo, OTHERS))
  }

  ghost predicate OkIsSeen(scrapes: seq<Scrape>)
  {
    FirstSeen(scrapes, StatusKey("ok")) < |scrapes|
  }

  lemma SameFits(a: seq<Scrape>, b: seq<Scrape>, status: string)
    requires SamePattern(a, b)
    ensures Fits(a, status) <==> Fits(b, status)
    ensures OkIsSeen(a) <==> OkIsSeen(b)
  {
    SameFirstSeen(a, b, StatusKey(status));
    SameFirstSeen(a, b, StatusKey("ok"));
    forall t: nat | t < |a| ensures Reports(a, t, StatusKey(status)) <==> Reports(b, t, StatusKey(status)) {
      SameKeysSameSet(a[t].readings, b[t].readings);
    }
  }

  // ------------------------------------------------------------ what fits is right

  /** The value last reported in the first `m` scrapes. */
  function ReportedBy(scrapes: seq<Scrape>, m: int, key: string): real
  {
    if m <= 0 || m > |scrapes| then 0.0
    else if Reports(scrapes, m - 1, key) then ValueOf(scrapes[m - 1].readings, key)
    else ReportedBy(scrapes, m - 1, key)
  }

  lemma {:induction false} ReportedIs(scrapes: seq<Scrape>, m: nat, key: string)
    requires m <= |scrapes|
    ensures LastReported(scrapes[..m], key) == ReportedBy(scrapes, m, key)
    decreases m
  {
    if m > 0 {
      assert scrapes[..m][..m - 1] == scrapes[..m - 1] && scrapes[..m][m - 1] == scrapes[m - 1];
      ReportedIs(scrapes, m - 1, key);
    }
  }

  /** Nothing is reported between two scrapes, so nothing changes. */
  lemma {:induction false} SilenceKeeps(scrapes: seq<Scrape>, key: string, m: nat, n: nat)
    requires m <= n <= |scrapes| && forall t: nat | m <= t < n :: !Reports(scrapes, t, key)
    ensures ReportedBy(scrapes, n, key) == ReportedBy(scrapes, m, key)
    decreases n
  {
    if m < n {
      assert !Reports(scrapes, n - 1, key);
      SilenceKeeps(scrapes, key, m, n - 1);
    }
  }

  /** The scrape at which the chart reads a status for the point at index `i`. */
  function ReadAt(scrapes: seq<Scrape>, status: string, i: nat): int
  {
    |scrapes| - ShownLength(scrapes, StatusKey(status)) + i + 1
  }

  lemma OkPoints(scrapes: seq<Scrape>)
    requires AllDistinct(scrapes)
    ensures |SuccessRates(Run(scrapes))| == |OkShown(Run(scrapes))| == ShownLength(scrapes, StatusKey("ok"))
    ensures OkIsSeen(scrapes) <==> StatusKey("ok") in Run(scrapes)
  {
    HistoryOf(scrapes, StatusKey("ok"));
    if StatusKey("ok") in Run(scrapes) {
      ShownTimes(scrapes, StatusKey("ok"));
    }
  }

  lemma {:induction false} ShownAt(scrapes: seq<Scrape>, status: string, i: nat)
    requires AllDistinct(scrapes)
    ensures FirstSeen(scrapes, StatusKey(status)) < |scrapes| && i < ShownLength(scrapes, StatusKey(status)) ==>
              && 0 < ReadAt(scrapes, status, i) <= |scrapes|
              && ShownValue(Run(scrapes), status, i)
                   == ReportedBy(scrapes, ReadAt(scrapes, status, i), StatusKey(status))
    ensures i >= ShownLength(scrapes, StatusKey(status)) ==> ShownValue(Run(scrapes), status, i) == 0.0
  {
    var h, key := Run(scrapes), StatusKey(status);
    HistoryOf(scrapes, key);
    if key in h {
      ShownTimes(scrapes, key);
      if i < ShownLength(scrapes, key) {
        ShowsAt(Shown(h[key]), scrapes, key, i);
        ReportedIs(scrapes, ReadAt(scrapes, status, i), key);
      }
    }
  }

  lemma {:induction false} NeverReportedBy(scrapes: seq<Scrape>, key: string, m: nat)
    requires FirstSeen(scrapes, key) == |scrapes| && m <= |scrapes|
    ensures ReportedBy(scrapes, m, key) == 0.0
  {
    assert forall t: nat | t < |scrapes| :: !Reports(scrapes, t, key);
    SilenceKeeps(scrapes, key, 0, m);
  }

  lemma {:induction false} FittingIsReported(scrapes: seq<Scrape>, status: string, i: nat, tick: nat)
    requires AllDistinct(scrapes) && Fits(scrapes, status) && i < ShownLength(scrapes, StatusKey("ok"))
    requires tick == |scrapes| - ShownLength(scrapes, StatusKey("ok")) + i + 1
    ensures ShownValue(Run(scrapes), status, i) == ReportedBy(scrapes, tick, StatusKey(status))
  {
    var key := StatusKey(status);
    ShownAt(scrapes, status, i);
    if FirstSeen(scrapes, key) == |scrapes| {
      NeverReportedBy(scrapes, key, tick);
    } else if ShownLength(scrapes, key) > ShownLength(scrapes, StatusKey("ok")) {
      SilenceKeeps(scrapes, key, ReadAt(scrapes, status, i), tick);
    }
  }

  lemma {:induction false} FittingSumsAreRight(scrapes: seq<Scrape>, statuses: seq<string>, i: nat, tick: nat)
    requires AllDistinct(scrapes) && i < ShownLength(scrapes, StatusKey("ok"))
    requires forall s | s in statuses :: Fits(scrapes, s)
    requires tick == |scrapes| - ShownLength(scrapes, StatusKey("ok")) + i + 1
    ensures OtherAt(Run(scrapes), statuses, i) == TrueOther(scrapes[..tick], statuses)
  {
    if |statuses| > 0 {
      FittingSumsAreRight(scrapes, statuses[..|statuses| - 1], i, tick);
      assert statuses[|statuses| - 1] in statuses;
      FittingIsReported(scrapes, statuses[|statuses| - 1], i, tick);
      ReportedIs(scrapes, tick, StatusKey(statuses[|statuses| - 1]));
    }
  }

  lemma {:induction false} PointIs(scrapes: seq<Scrape>, i: nat)
    requires AllDistinct(scrapes) && i < |SuccessRates(Run(scrapes))|
    ensures OkIsSeen(scrapes) && 0 < TickAt(scrapes, i) <= |scrapes|
    ensures TickAt(scrapes, i) == |scrapes| - ShownLength(scrapes, StatusKey("ok")) + i + 1
    ensures SuccessRates(Run(scrapes))[i]
         == Rate(LastReported(scrapes[..TickAt(scrapes, i)], StatusKey("ok")), OtherAt(Run(scrapes), OTHERS, i))
  {
    OkPoints(scrapes);
    ShownAt(scrapes, "ok", i);
    ReportedIs(scrapes, TickAt(scrapes, i), StatusKey("ok"));
  }

  lemma FittingIsRight(scrapes: seq<Scrape>)
    requires AllDistinct(scrapes) && forall s | s in OTHERS :: Fits(scrapes, s)
    ensures RatesAreRight(scrapes)
  {
    OkPoints(scrapes);
    forall i: nat | i < |SuccessRates(Run(scrapes))| ensures 0 < TickAt(scrapes, i) <= |scrapes| && IsRight(scrapes, i) {
      PointIs(scrapes, i);
      FittingSumsAreRight(scrapes, OTHERS, i, TickAt(scrapes, i));
    }
  }

  /**
   When every status was seen first together with "ok", or never, each point of the
   chart is the success rate of the counters reported up to one and the same scrape.
   */
  lemma RatesAreOfOneTick(scrapes: seq<Scrape>, i: nat)
    requires AllDistinct(scrapes) && (forall s | s in OTHERS :: Paired(scrapes, s))
    requires i < |SuccessRates(Run(scrapes))|
    ensures 0 < TickAt(scrapes, i) <= |scrapes|
    ensures var upTo := scrapes[..TickAt(scrapes, i)];
            SuccessRates(Run(scrapes))[i] == Rate(LastReported(upTo, StatusKey("ok")), TrueOther(upTo, OTHERS))
  {
    forall s | s in OTHERS ensures Fits(scrapes, s) {
    }
    FittingIsRight(scrapes);
    assert IsRight(scrapes, i);
  }

  // ------------------------------------------------------------ what does not fit can be wrong

  type Values = (string, nat) -> real

  /** The same keys with the values that a rule gives to each key in each scrape. */
  function Revalued(readings: seq<Reading>, t: nat, value: Values): (r: seq<Reading>)
    ensures SameKeys(readings, r)
    ensures forall i | 0 <= i < |r| :: r[i].value == value(r[i].key, t)
  {
    seq(|readings|, i requires 0 <= i < |readings| => Reading(readings[i].key, value(readings[i].key, t)))
  }

  function Valued(scrapes: seq<Scrape>, value: Values): (r: seq<Scrape>)
    ensures |r| == |scrapes|
    ensures forall t: nat | t < |r| :: r[t] == Scrape(scrapes[t].ts, Revalued(scrapes[t].readings, t, value))
  {
    seq(|scrapes|, t requires 0 <= t < |scrapes| => Scrape(scrapes[t].ts, Revalued(scrapes[t].readings, t, value)))
  }

  /** Every "ok" is 1, every other value 0, but those under `key` count the scrapes. */
  function Stamps(key: string): Values
  {
    (k, t) => if k == StatusKey("ok") then 1.0 else if k == key then (t + 1) as real else 0.0
  }

  function Stamped(scrapes: seq<Scrape>, key: string): seq<Scrape>
  {
    Valued(scrapes, Stamps(key))
  }

  lemma ValuedIsSamePattern(scrapes: seq<Scrape>, value: Values)
    ensures SamePattern(scrapes, Valued(scrapes, value))
  {
  }

  /** The number of scrapes up to the latest that reports a key, 0 if none does. */
  function LatestReport(scrapes: seq<Scrape>, m: nat, key: string): (l: nat)
    requires m <= |scrapes|
    ensures l <= m && (l > 0 ==> Reports(scrapes, l - 1, key))
    ensures forall t: nat | l <= t < m :: !Reports(scrapes, t, key)
  {
    if m == 0 then 0 else if Reports(scrapes, m - 1, key) then m else LatestReport(scrapes, m - 1, key)
  }

  lemma {:induction false} RevaluedAt(readings: seq<Reading>, t: nat, value: Values, k: string)
    requires k in KeysOf(readings)
    ensures ValueOf(Revalued(readings, t, value), k) == value(k, t)
  {
    SameKeysSameSet(readings, Revalued(readings, t, value));
    ValueIsOfKey(Revalued(readings, t, value), k, value(k, t));
  }

  lemma {:induction false} ValueIsOfKey(readings: seq<Reading>, k: string, v: real)
    requires k in KeysOf(readings) && forall i | 0 <= i < |readings| && readings[i].key == k :: readings[i].value == v
    ensures ValueOf(readings, k) == v
  {
    var last := |readings| - 1;
    KeysSplit(readings);
    if readings[last].key != k {
      ValueIsOfKey(readings[..last], k, v);
    }
  }

  lemma {:induction false} ValuedReports(scrapes: seq<Scrape>, value: Values, m: nat, k: string)
    requires m <= |scrapes|
    ensures ReportedBy(Valued(scrapes, value), m, k) == Latest(value, k, LatestReport(scrapes, m, k))
    decreases m
  {
    if m > 0 {
      ValuedReports(scrapes, value, m - 1, k);
      ValuedUnfold(scrapes, value, m, k, ReportedBy(Valued(scrapes, value), m - 1, k), LatestReport(scrapes, m - 1, k));
    }
  }

  function Latest(value: Values, k: string, l: nat): real
  {
    if l == 0 then 0.0 else value(k, l - 1)
  }

  lemma {:induction false} ValuedUnfold(scrapes: seq<Scrape>, value: Values, m: nat, k: string, reported: real, l: nat)
    requires 0 < m <= |scrapes| && reported == Latest(value, k, l)
    requires reported == ReportedBy(Valued(scrapes, value), m - 1, k) && l == LatestReport(scrapes, m - 1, k)
    ensures ReportedBy(Valued(scrapes, value), m, k) == Latest(value, k, LatestReport(scrapes, m, k))
  {
    ReportedUnfold(Valued(scrapes, value), m, k);
    ValuedStep(scrapes, value, m - 1, k);
  }

  lemma {:induction false} ReportedUnfold(scrapes: seq<Scrape>, m: nat, k: string)
    requires 0 < m <= |scrapes|
    ensures ReportedBy(scrapes, m, k)
         == if Reports(scrapes, m - 1, k) then ValueOf(scrapes[m - 1].readings, k) else ReportedBy(scrapes, m - 1, k)
  {
  }

  lemma {:induction false} ValuedStep(scrapes: seq<Scrape>, value: Values, t: nat, k: string)
    requires t < |scrapes|
    ensures Reports(Valued(scrapes, value), t, k) <==> Reports(scrapes, t, k)
    ensures Reports(scrapes, t, k) ==> ValueOf(Valued(scrapes, value)[t].readings, k) == value(k, t)
  {
    SameKeysSameSet(scrapes[t].readings, Valued(scrapes, value)[t].readings);
    if Reports(scrapes, t, k) {
      RevaluedAt(scrapes[t].readings, t, value, k);
    }
  }

  /** A point at which a status that does not fit is read at the wrong time. */
  lemma {:induction false} SomePointIsOff(scrapes: seq<Scrape>, status: string) returns (i: nat)
    requires OkIsSeen(scrapes) && !Fits(scrapes, status)
    ensures i < ShownLength(scrapes, StatusKey("ok"))
    ensures var key, okLength := StatusKey(status), ShownLength(scrapes, StatusKey("ok"));
            var length, tick := ShownLength(scrapes, key), |scrapes| - okLength + i + 1;
            && 0 < tick <= |scrapes|
            && if i < length
               then 0 < ReadAt(scrapes, status, i) <= |scrapes|
                    && LatestReport(scrapes, ReadAt(scrapes, status, i), key) < LatestReport(scrapes, tick, key)
               else LatestReport(scrapes, tick, key) > 0
  {
    var key, okLength := StatusKey(status), ShownLength(scrapes, StatusKey("ok"));
    var length, n := ShownLength(scrapes, key), |scrapes|;
    if length < okLength {
      i := okLength - 1;
      assert Reports(scrapes, FirstSeen(scrapes, key), key);
    } else {
      var t: nat :| n - length < t < n && Reports(scrapes, t, key);
      i := if t < n - okLength then 0 else t - (n - okLength);
    }
  }

  lemma StatusOfKey(a: string, b: string)
    requires StatusKey(a) == StatusKey(b)
    ensures a == b
  {
    var prefix := "agentfm_tasks_total{status=";
    assert StatusKey(a) == prefix + a + "}" && StatusKey(b) == prefix + b + "}";
    assert StatusKey(a)[|prefix|..|prefix| + |a|] == a;
    assert StatusKey(b)[|prefix|..|prefix| + |b|] == b;
  }

  ghost predicate AllOthersAreZero(value: string -> real, statuses: seq<string>, status: string)
  {
    forall s | s in statuses && s != status :: value(s) == 0.0
  }

  ghost function SumOf(value: string -> real, statuses: seq<string>): real
  {
    if |statuses| == 0 then 0.0
    else SumOf(value, statuses[..|statuses| - 1]) + value(statuses[|statuses| - 1])
  }

  lemma {:induction false} SumOfOne(value: string -> real, statuses: seq<string>, status: string)
    requires AllOthersAreZero(value, statuses, status)
    requires forall i, j | 0 <= i < j < |statuses| :: statuses[i] != statuses[j]
    ensures SumOf(value, statuses) == if status in statuses then value(status) else 0.0
  {
    if |statuses| > 0 {
      var front, last := statuses[..|statuses| - 1], statuses[|statuses| - 1];
      assert statuses == front + [last];
      SumOfOne(value, front, status);
    }
  }

  lemma {:induction false} OtherIsSum(h: Histories, statuses: seq<string>, i: nat)
    ensures OtherAt(h, statuses, i) == SumOf(s => ShownValue(h, s, i), statuses)
  {
    if |statuses| > 0 {
      OtherIsSum(h, statuses[..|statuses| - 1], i);
    }
  }

  lemma {:induction false} TrueIsSum(scrapes: seq<Scrape>, m: nat, statuses: seq<string>)
    requires m <= |scrapes|
    ensures TrueOther(scrapes[..m], statuses) == SumOf(s => ReportedBy(scrapes, m, StatusKey(s)), statuses)
  {
    if |statuses| > 0 {
      TrueIsSum(scrapes, m, statuses[..|statuses| - 1]);
      ReportedIs(scrapes, m, StatusKey(statuses[|statuses| - 1]));
    }
  }

  lemma {:induction false} ReportsNothing(scrapes: seq<Scrape>, key: string, k: string, m: nat)
    requires m <= |scrapes| && k != key && k != StatusKey("ok")
    ensures ReportedBy(Stamped(scrapes, key), m, k) == 0.0
  {
    ValuedReports(scrapes, Stamps(key), m, k);
  }

  /** A status reported as 0 throughout is shown as 0. */
  lemma {:induction false} ShowsNothing(scrapes: seq<Scrape>, status: string, i: nat)
    requires AllDistinct(scrapes)
    requires forall m: nat | m <= |scrapes| :: ReportedBy(scrapes, m, StatusKey(status)) == 0.0
    ensures ShownValue(Run(scrapes), status, i) == 0.0
  {
    ShownAt(scrapes, status, i);
    HistoryOf(scrapes, StatusKey(status));
  }

  /** In the stamped run, every status but one contributes nothing anywhere. */
  lemma {:induction false} OthersContributeNothing(scrapes: seq<Scrape>, status: string, s: string, i: nat, m: nat)
    requires AllDistinct(scrapes) && s != status && s != "ok" && m <= |scrapes|
    ensures ShownValue(Run(Stamped(scrapes, StatusKey(status))), s, i) == 0.0
    ensures ReportedBy(Stamped(scrapes, StatusKey(status)), m, StatusKey(s)) == 0.0
  {
    KeysDiffer(s, status);
    StampedRun(scrapes, StatusKey(status), StatusKey(s));
    forall n: nat | n <= |scrapes| ensures ReportedBy(Stamped(scrapes, StatusKey(status)), n, StatusKey(s)) == 0.0 {
      ReportsNothing(scrapes, StatusKey(status), StatusKey(s), n);
    }
    ShowsNothing(Stamped(scrapes, StatusKey(status)), s, i);
  }

  lemma KeysDiffer(s: string, status: string)
    requires s != status && s != "ok"
    ensures StatusKey(s) != StatusKey(status) && StatusKey(s) != StatusKey("ok")
  {
    if StatusKey(s) == StatusKey(status) {
      StatusOfKey(s, status);
    }
    if StatusKey(s) == StatusKey("ok") {
      StatusOfKey(s, "ok");
    }
  }

  lemma {:induction false} StampedSums(scrapes: seq<Scrape>, status: string, i: nat, m: nat)
    requires AllDistinct(scrapes) && status in OTHERS && m <= |scrapes|
    ensures var run := Stamped(scrapes, StatusKey(status));
            && OtherAt(Run(run), OTHERS, i) == ShownValue(Run(run), status, i)
            && TrueOther(run[..m], OTHERS) == ReportedBy(run, m, StatusKey(status))
  {
    var run := Stamped(scrapes, StatusKey(status));
    forall s | s in OTHERS && s != status
      ensures ShownValue(Run(run), s, i) == 0.0 && ReportedBy(run, m, StatusKey(s)) == 0.0
    {
      OthersContributeNothing(scrapes, status, s, i, m);
    }
    OtherIsSum(Run(run), OTHERS, i);
    SumOfOne(s => ShownValue(Run(run), s, i), OTHERS, status);
    TrueIsSum(run, m, OTHERS);
    SumOfOne(s => ReportedBy(run, m, StatusKey(s)), OTHERS, status);
  }

  lemma RateTellsApart(a: real, b: real)
    requires a >= 0.0 && b >= 0.0 && a != b
    ensures Rate(1.0, a) != Rate(1.0, b)
  {
  }

  /** The stamped run has the pattern of the original, so it shows as many samples. */
  lemma {:induction false} StampedRun(scrapes: seq<Scrape>, key: string, k: string)
    requires AllDistinct(scrapes)
    ensures var run := Stamped(scrapes, key);
            AllDistinct(run) && FirstSeen(run, k) == FirstSeen(scrapes, k) && ShownLength(run, k) == ShownLength(scrapes, k)
  {
    var run := Stamped(scrapes, key);
    ValuedIsSamePattern(scrapes, Stamps(key));
    SamePatternSameDistinct(scrapes, run);
    SameFirstSeen(scrapes, run, k);
  }

  lemma {:induction false} StampedCounts(scrapes: seq<Scrape>, status: string, m: nat)
    requires m <= |scrapes| && status != "ok"
    ensures ReportedBy(Stamped(scrapes, StatusKey(status)), m, StatusKey(status))
         == LatestReport(scrapes, m, StatusKey(status)) as real
  {
    if StatusKey(status) == StatusKey("ok") {
      StatusOfKey(status, "ok");
    }
    ValuedReports(scrapes, Stamps(StatusKey(status)), m, StatusKey(status));
  }

  lemma {:induction false} StampedShows(scrapes: seq<Scrape>, status: string, i: nat)
    requires AllDistinct(scrapes) && status != "ok" && FirstSeen(scrapes, StatusKey(status)) < |scrapes|
    ensures var shown := ShownValue(Run(Stamped(scrapes, StatusKey(status))), status, i);
            if i < ShownLength(scrapes, StatusKey(status))
            then 0 < ReadAt(scrapes, status, i) <= |scrapes|
                 && shown == LatestReport(scrapes, ReadAt(scrapes, status, i), StatusKey(status)) as real
            else shown == 0.0
  {
    var run := Stamped(scrapes, StatusKey(status));
    StampedRun(scrapes, StatusKey(status), StatusKey(status));
    ShownAt(run, status, i);
    if i < ShownLength(scrapes, StatusKey(status)) {
      StampedCounts(scrapes, status, ReadAt(scrapes, status, i));
    }
  }

  /** Two different counts of the status, where there should be one. */
  lemma {:induction false} StampedValuesDiffer(scrapes: seq<Scrape>, status: string) returns (i: nat, tick: nat)
    requires AllDistinct(scrapes) && OkIsSeen(scrapes) && status in OTHERS && !Fits(scrapes, status)
    ensures var run, ok := Stamped(scrapes, StatusKey(status)), StatusKey("ok");
            && i < |SuccessRates(Run(run))| && i < ShownLength(scrapes, ok)
            && 0 < tick == TickAt(run, i) == |scrapes| - ShownLength(scrapes, ok) + i + 1 <= |run|
            && 0.0 <= ShownValue(Run(run), status, i) < ReportedBy(run, tick, StatusKey(status))
  {
    var run := Stamped(scrapes, StatusKey(status));
    i := SomePointIsOff(scrapes, status);
    tick := StampedTick(scrapes, StatusKey(status), i);
    StampedShows(scrapes, status, i);
    StampedCounts(scrapes, status, tick);
  }

  lemma {:induction false} StampedTick(scrapes: seq<Scrape>, key: string, i: nat) returns (tick: nat)
    requires AllDistinct(scrapes) && i < ShownLength(scrapes, StatusKey("ok"))
    ensures var run := Stamped(scrapes, key);
            && i < |SuccessRates(Run(run))| && |run| == |scrapes|
            && 0 < tick == TickAt(run, i) == |scrapes| - ShownLength(scrapes, StatusKey("ok")) + i + 1 <= |run|
  {
    StampedRun(scrapes, key, StatusKey("ok"));
    OkPoints(Stamped(scrapes, key));
    tick := |scrapes| - ShownLength(scrapes, StatusKey("ok")) + i + 1;
  }

  lemma {:induction false} SeenIsReported(scrapes: seq<Scrape>, k: string, m: nat)
    requires FirstSeen(scrapes, k) < m <= |scrapes|
    ensures LatestReport(scrapes, m, k) > 0
  {
    assert Reports(scrapes, FirstSeen(scrapes, k), k);
  }

  lemma {:induction false} StampedOk(scrapes: seq<Scrape>, key: string, ok: string, m: nat)
    requires ok == StatusKey("ok") && FirstSeen(scrapes, ok) < m <= |scrapes|
    ensures ReportedBy(Stamped(scrapes, key), m, ok) == 1.0
  {
    ValuedReports(scrapes, Stamps(key), m, ok);
    SeenIsReported(scrapes, ok, m);
  }

  lemma {:induction false} OkIsOne(scrapes: seq<Scrape>, key: string, ok: string, i: nat, tick: nat)
    requires ok == StatusKey("ok") && FirstSeen(scrapes, ok) < |scrapes| && i < ShownLength(scrapes, ok)
    requires tick == |scrapes| - ShownLength(scrapes, ok) + i + 1
    ensures LastReported(Stamped(scrapes, key)[..tick], ok) == 1.0
  {
    StampedOk(scrapes, key, ok, tick);
    ReportedIs(Stamped(scrapes, key), tick, ok);
  }

  /** Where one count is shown and a larger one was reported, the point is wrong. */
  lemma {:induction false} OffPointIsWrong(run: seq<Scrape>, i: nat, tick: nat, shown: real, reported: real)
    requires AllDistinct(run) && i < |SuccessRates(Run(run))| && 0 < tick == TickAt(run, i) <= |run|
    requires LastReported(run[..tick], StatusKey("ok")) == 1.0
    requires OtherAt(Run(run), OTHERS, i) == shown && TrueOther(run[..tick], OTHERS) == reported && 0.0 <= shown < reported
    ensures !RatesAreRight(run)
  {
    PointIs(run, i);
    RateTellsApart(shown, reported);
    assert !IsRight(run, i);
  }

  lemma {:induction false} MisfitIsWrong(scrapes: seq<Scrape>, status: string)
    requires AllDistinct(scrapes) && OkIsSeen(scrapes) && status in OTHERS && !Fits(scrapes, status)
    ensures !RatesAreRight(Stamped(scrapes, StatusKey(status)))
  {
    var key, run := StatusKey(status), Stamped(scrapes, StatusKey(status));
    var i, tick := StampedValuesDiffer(scrapes, status);
    StampedRun(scrapes, key, StatusKey("ok"));
    OkIsOne(scrapes, key, StatusKey("ok"), i, tick);
    StampedSums(scrapes, status, i, tick);
    OffPointIsWrong(run, i, tick, ShownValue(Run(run), status, i), ReportedBy(run, tick, key));
  }

  /**
   For a given pattern of reported keys, the chart is right whatever the values if and
   only if "ok" was never seen or every other status fits.
   */
  lemma RatesAreRightIff(scrapes: seq<Scrape>)
    requires AllDistinct(scrapes)
    ensures (forall run | SamePattern(scrapes, run) :: RatesAreRight(run))
       <==> OkIsSeen(scrapes) ==> forall s | s in OTHERS :: Fits(scrapes, s)
  {
    if !OkIsSeen(scrapes) || forall s | s in OTHERS :: Fits(scrapes, s) {
      forall run | SamePattern(scrapes, run) ensures RatesAreRight(run) {
        PatternIsRight(scrapes, run);
      }
    } else {
      var s :| s in OTHERS && !Fits(scrapes, s);
      MisfitIsWrong(scrapes, s);
      ValuedIsSamePattern(scrapes, Stamps(StatusKey(s)));
    }
  }

  lemma PatternIsRight(scrapes: seq<Scrape>, run: seq<Scrape>)
    requires AllDistinct(scrapes) && SamePattern(scrapes, run)
    requires !OkIsSeen(scrapes) || forall s | s in OTHERS :: Fits(scrapes, s)
    ensures RatesAreRight(run)
  {
    SamePatternSameDistinct(scrapes, run);
    SameFits(scrapes, run, "ok");
    if OkIsSeen(run) {
      forall s | s in OTHERS ensures Fits(run, s) {
        SameFits(scrapes, run, s);
      }
      FittingIsRight(run);
    } else {
      OkPoints(run);
    }
  }

  // ------------------------------------------------------------ exporters that keep reporting

  /** What was reported once is in every later scrape, as exporters of counters do it. */
  ghost predicate KeepsReporting(scrapes: seq<Scrape>)
  {
    forall key, t: nat, u: nat | t <= u < |scrapes| && Reports(scrapes, t, key) :: Reports(scrapes, u, key)
  }

  lemma FitsIffPaired(scrapes: seq<Scrape>, status: string)
    requires KeepsReporting(scrapes) && OkIsSeen(scrapes)
    ensures Fits(scrapes, status) <==> Paired(scrapes, status)
  {
    var key := StatusKey(status);
    var first := FirstSeen(scrapes, key);
    if first < |scrapes| && ShownLength(scrapes, key) > ShownLength(scrapes, StatusKey("ok")) {
      assert Reports(scrapes, first, key) && Reports(scrapes, |scrapes| - 1, key);
    }
  }

  /** With such an exporter, the chart is right whatever the values if and only if every status is paired with "ok". */
  lemma PairedRatesIff(scrapes: seq<Scrape>)
    requires AllDistinct(scrapes) && KeepsReporting(scrapes) && OkIsSeen(scrapes)
    ensures (forall run | SamePattern(scrapes, run) :: RatesAreRight(run))
       <==> forall s | s in OTHERS :: Paired(scrapes, s)
  {
    RatesAreRightIff(scrapes);
    forall s | s in OTHERS ensures Fits(scrapes, s) <==> Paired(scrapes, s) {
      FitsIffPaired(scrapes, s);
    }
  }

  /** An exporter that reports all statuses from its first scrape on is always charted right. */
  lemma RegisteredIsRight(scrapes: seq<Scrape>)
    requires AllDistinct(scrapes) && |scrapes| > 0
    requires forall s | s in OTHERS + ["ok"] :: StatusKey(s) in KeysOf(scrapes[0].readings)
    ensures RatesAreRight(scrapes)
  {
    assert "ok" in OTHERS + ["ok"];
    forall s | s in OTHERS ensures Fits(scrapes, s) {
      assert s in OTHERS + ["ok"];
    }
    FittingIsRight(scrapes);
  }

  // ------------------------------------------------------------ the chart, counter by counter

  /** The share of tasks that ended well, 1 before any task has ended. */
  predicate IsSuccessRate(rate: real, ok: real, failed: real, rejected: real, timedOut: real, oomKilled: real)
  {
    var total := ok + failed + rejected + timedOut + oomKilled;
    if total == 0.0 then rate == 1.0 else rate * total == ok
  }

  lemma {:induction false} RateOfFive(scrapes: seq<Scrape>)
    ensures IsSuccessRate(Rate(LastReported(scrapes, StatusKey("ok")), TrueOther(scrapes, OTHERS)),
                          LastReported(scrapes, "agentfm_tasks_total{status=ok}"),
                          LastReported(scrapes, "agentfm_tasks_total{status=error}"),
                          LastReported(scrapes, "agentfm_tasks_total{status=rejected}"),
                          LastReported(scrapes, "agentfm_tasks_total{status=timeout}"),
                          LastReported(scrapes, "agentfm_tasks_total{status=oom_killed}"))
  {
    var ok, other := LastReported(scrapes, StatusKey("ok")), TrueOther(scrapes, OTHERS);
    FourOthers(scrapes);
    assert StatusKey("ok") == "agentfm_tasks_total{status=ok}";
    if ok + other != 0.0 {
      assert Rate(ok, other) * (ok + other) == ok;
    }
  }

  lemma {:induction false} FourOthers(scrapes: seq<Scrape>)
    ensures TrueOther(scrapes, OTHERS)
         == LastReported(scrapes, "agentfm_tasks_total{status=error}")
            + LastReported(scrapes, "agentfm_tasks_total{status=rejected}")
            + LastReported(scrapes, "agentfm_tasks_total{status=timeout}")
            + LastReported(scrapes, "agentfm_tasks_total{status=oom_killed}")
  {
    assert StatusKey("error") == "agentfm_tasks_total{status=error}";
    assert StatusKey("rejected") == "agentfm_tasks_total{status=rejected}";
    assert StatusKey("timeout") == "agentfm_tasks_total{status=timeout}";
    assert StatusKey("oom_killed") == "agentfm_tasks_total{status=oom_killed}";
    assert OTHERS[..4] == OTHERS;
    OneMoreOther(scrapes, 3);
    OneMoreOther(scrapes, 2);
    OneMoreOther(scrapes, 1);
    OneMoreOther(scrapes, 0);
  }

  lemma {:induction false} OneMoreOther(scrapes: seq<Scrape>, n: nat)
    requires n < |OTHERS|
    ensures TrueOther(scrapes, OTHERS[..n + 1])
         == TrueOther(scrapes, OTHERS[..n]) + LastReported(scrapes, StatusKey(OTHERS[n]))
    ensures TrueOther(scrapes, OTHERS[..0]) == 0.0
  {
    assert OTHERS[..n + 1][..n] == OTHERS[..n];
  }

  /**
   Of an exporter that reports all five counters from its first scrape on, the chart has a
   point for each of the last 150 scrapes: of the tasks ended by then, the share that ended
   well.
   */
  lemma {:induction false} ChartIs(scrapes: seq<Scrape>)
    requires AllDistinct(scrapes) && |scrapes| > 0
    requires forall s | s in OTHERS + ["ok"] :: StatusKey(s) in KeysOf(scrapes[0].readings)
    ensures var chart := SuccessRates(Run(scrapes));
            |chart| == (if |scrapes| < 150 then |scrapes| else 150) && AreRates(chart, scrapes)
  {
    RegisteredIsRight(scrapes);
    assert "ok" in OTHERS + ["ok"];
    OkIsShownThroughout(scrapes);
    RightAreRates(scrapes, SuccessRates(Run(scrapes)));
  }

  /** Each value is the rate at one of the latest scrapes, the last value at the last. */
  ghost predicate AreRates(chart: seq<real>, scrapes: seq<Scrape>)
  {
    forall i | 0 <= i < |chart| :: IsRateAt(chart[i], scrapes, |scrapes| - |chart| + i)
  }

  lemma {:induction false} RightAreRates(scrapes: seq<Scrape>, chart: seq<real>)
    requires RatesAreRight(scrapes) && chart == SuccessRates(Run(scrapes))
    ensures AreRates(chart, scrapes)
  {
    forall i | 0 <= i < |chart| ensures IsRateAt(chart[i], scrapes, |scrapes| - |chart| + i) {
      RightIsRate(scrapes, i, chart[i], |scrapes| - |chart| + i);
    }
  }

  lemma {:induction false} OkIsShownThroughout(scrapes: seq<Scrape>)
    requires AllDistinct(scrapes) && |scrapes| > 0 && StatusKey("ok") in KeysOf(scrapes[0].readings)
    ensures |SuccessRates(Run(scrapes))| == |OkShown(Run(scrapes))| == (if |scrapes| < 150 then |scrapes| else 150)
  {
    OkPoints(scrapes);
  }

  lemma {:induction false} RightIsRate(scrapes: seq<Scrape>, i: nat, rate: real, t: int)
    requires RatesAreRight(scrapes) && i < |SuccessRates(Run(scrapes))| && rate == SuccessRates(Run(scrapes))[i]
    requires t + 1 == TickAt(scrapes, i)
    ensures IsRateAt(rate, scrapes, t)
  {
    assert IsRight(scrapes, i);
    RateOfFive(scrapes[..t + 1]);
  }

  /** The success rate of the counters as of the `t`-th scrape. */
  ghost predicate IsRateAt(rate: real, scrapes: seq<Scrape>, t: int)
  {
    && 0 <= t < |scrapes|
    && IsSuccessRate(rate,
                     LastReported(scrapes[..t + 1], "agentfm_tasks_total{status=ok}"),
                     LastReported(scrapes[..t + 1], "agentfm_tasks_total{status=error}"),
                     LastReported(scrapes[..t + 1], "agentfm_tasks_total{status=rejected}"),
                     LastReported(scrapes[..t + 1], "agentfm_tasks_total{status=timeout}"),
                     LastReported(scrapes[..t + 1], "agentfm_tasks_total{status=oom_killed}"))
  }
}
