/** What the metric store records over a run of scrapes, and what the success rate makes of it. */
module Scrapes {
  import opened Arithmetic
  import opened Metrics

  /** One sample of a scrape, under the key of its series. */
  datatype Reading = Reading(key: string, value: real)

  datatype Scrape = Scrape(ts: real, readings: seq<Reading>)

  /** Everything ever pushed to each series. */
  type Histories = map<string, seq<Sample>>

  // ------------------------------------------------------------ one scrape

  function Pushed(h: Histories, key: string, s: Sample): Histories
  {
    h[key := (if key in h then h[key] else []) + [s]]
  }

  function AllPushed(h: Histories, ts: real, readings: seq<Reading>): Histories
  {
    if |readings| == 0 then h
    else
      var last := readings[|readings| - 1];
      Pushed(AllPushed(h, ts, readings[..|readings| - 1]), last.key, Sample(ts, last.value))
  }

  function KeysOf(readings: seq<Reading>): set<string>
  {
    set r | r in readings :: r.key
  }

  function Repeated(history: seq<Sample>, ts: real): seq<Sample>
  {
    if |history| == 0 then [] else history + [Sample(ts, history[|history| - 1].v)]
  }

  /** Series that were not seen repeat their latest value. */
  function Carried(h: Histories, seen: set<string>, ts: real): Histories
  {
    map k | k in h :: if k in seen then h[k] else Repeated(h[k], ts)
  }

  function Scraped(h: Histories, s: Scrape): Histories
  {
    Carried(AllPushed(h, s.ts, s.readings), KeysOf(s.readings), s.ts)
  }

  function Run(scrapes: seq<Scrape>): Histories
  {
    if |scrapes| == 0 then map[] else Scraped(Run(scrapes[..|scrapes| - 1]), scrapes[|scrapes| - 1])
  }

  // ------------------------------------------------------------ histories

  predicate Distinct(readings: seq<Reading>)
  {
    forall i, j | 0 <= i < j < |readings| :: readings[i].key != readings[j].key
  }

  ghost predicate AllDistinct(scrapes: seq<Scrape>)
  {
    forall s | s in scrapes :: Distinct(s.readings)
  }

  /** How many scrapes came before the first one with this key. */
  function FirstSeen(scrapes: seq<Scrape>, key: string): (j: nat)
    ensures j <= |scrapes|
    ensures j < |scrapes| ==> key in KeysOf(scrapes[j].readings)
    ensures forall i | 0 <= i < j :: key !in KeysOf(scrapes[i].readings)
  {
    if |scrapes| == 0 || key in KeysOf(scrapes[0].readings) then 0 else 1 + FirstSeen(scrapes[1..], key)
  }

  function ValueOf(readings: seq<Reading>, key: string): real
  {
    if |readings| == 0 then 0.0
    else if readings[|readings| - 1].key == key then readings[|readings| - 1].value
    else ValueOf(readings[..|readings| - 1], key)
  }

  /** The value under a key in the latest scrape that has one, 0 if there is none. */
  function LastReported(scrapes: seq<Scrape>, key: string): real
  {
    if |scrapes| == 0 then 0.0
    else if key in KeysOf(scrapes[|scrapes| - 1].readings) then ValueOf(scrapes[|scrapes| - 1].readings, key)
    else LastReported(scrapes[..|scrapes| - 1], key)
  }

  lemma KeysSplit(readings: seq<Reading>)
    requires |readings| > 0
    ensures KeysOf(readings) == KeysOf(readings[..|readings| - 1]) + {readings[|readings| - 1].key}
  {
    var front, last := readings[..|readings| - 1], readings[|readings| - 1];
    assert readings == front + [last];
  }

  /** With distinct keys, each series of a scrape gains one sample and the others none. */
  lemma {:induction false} PushedOnce(h: Histories, ts: real, readings: seq<Reading>, key: string)
    requires Distinct(readings)
    ensures var after := AllPushed(h, ts, readings);
            if key in KeysOf(readings)
            then key in after && after[key] == (if key in h then h[key] else []) + [Sample(ts, ValueOf(readings, key))]
            else (key in after <==> key in h) && (key in h ==> after[key] == h[key])
  {
    if |readings| > 0 {
      PushedOnce(h, ts, readings[..|readings| - 1], key);
      KeysSplit(readings);
    }
  }

  /** One scrape, seen from one series. */
  lemma ScrapedOnce(h: Histories, s: Scrape, key: string)
    requires Distinct(s.readings)
    ensures var after := Scraped(h, s);
            if key in KeysOf(s.readings)
            then key in after && after[key] == (if key in h then h[key] else []) + [Sample(s.ts, ValueOf(s.readings, key))]
            else (key in after <==> key in h) && (key in h ==> after[key] == Repeated(h[key], s.ts))
  {
    PushedOnce(h, s.ts, s.readings, key);
  }

  /** The time of a scrape, and the value last reported up to it. */
  ghost predicate IsSampleAt(x: Sample, scrapes: seq<Scrape>, t: int, key: string)
    requires 0 <= t < |scrapes|
  {
    x == Sample(scrapes[t].ts, LastReported(scrapes[..t + 1], key))
  }

  /** A series holds one sample per scrape since its first, each with that scrape's time. */
  ghost predicate IsHistory(h: seq<Sample>, scrapes: seq<Scrape>, key: string)
  {
    var first := FirstSeen(scrapes, key);
    && |h| == |scrapes| - first
    && (forall i | 0 <= i < |h| :: IsSampleAt(h[i], scrapes, first + i, key))
  }

  lemma {:induction false} FirstSeenGrows(scrapes: seq<Scrape>, s: Scrape, key: string)
    ensures FirstSeen(scrapes + [s], key)
         == if FirstSeen(scrapes, key) < |scrapes| || key in KeysOf(s.readings) then FirstSeen(scrapes, key)
            else |scrapes| + 1
  {
    if |scrapes| > 0 && key !in KeysOf(scrapes[0].readings) {
      assert (scrapes + [s])[1..] == scrapes[1..] + [s];
      FirstSeenGrows(scrapes[1..], s, key);
    }
  }

  lemma {:induction false} HistoryGrows(h: seq<Sample>, scrapes: seq<Scrape>, s: Scrape, key: string)
    requires IsHistory(h, scrapes, key) && FirstSeen(scrapes + [s], key) <= |scrapes|
    ensures IsHistory(h + [Sample(s.ts, LastReported(scrapes + [s], key))], scrapes + [s], key)
  {
    var first, all := FirstSeen(scrapes, key), scrapes + [s];
    FirstSeenGrows(scrapes, s, key);
    assert forall m | 0 <= m <= |scrapes| :: all[..m] == scrapes[..m];
    assert all[..|all|] == all;
  }

  lemma LatestIsLastReported(h: seq<Sample>, scrapes: seq<Scrape>, key: string)
    requires IsHistory(h, scrapes, key) && |h| > 0
    ensures h[|h| - 1].v == LastReported(scrapes, key)
  {
    assert scrapes[..|scrapes|] == scrapes;
  }

  /** What a table of series holds under one key after a run of scrapes. */
  ghost predicate Holds(h: Histories, scrapes: seq<Scrape>, key: string)
  {
    && (key in h <==> FirstSeen(scrapes, key) < |scrapes|)
    && (key in h ==> IsHistory(h[key], scrapes, key))
  }

  lemma {:induction false} HoldsStep(h: Histories, scrapes: seq<Scrape>, s: Scrape, key: string)
    requires Holds(h, scrapes, key) && Distinct(s.readings)
    ensures Holds(Scraped(h, s), scrapes + [s], key)
  {
    ScrapedOnce(h, s, key);
    FirstSeenGrows(scrapes, s, key);
    ReportedMore(scrapes, s, key);
    if key in h {
      LatestIsLastReported(h[key], scrapes, key);
      HistoryGrows(h[key], scrapes, s, key);
    } else if key in KeysOf(s.readings) {
      HistoryGrows([], scrapes, s, key);
    }
  }

  lemma {:induction false} ReportedMore(scrapes: seq<Scrape>, s: Scrape, key: string)
    ensures LastReported(scrapes + [s], key)
         == if key in KeysOf(s.readings) then ValueOf(s.readings, key) else LastReported(scrapes, key)
  {
    assert (scrapes + [s])[..|scrapes|] == scrapes;
  }

  /**
   Under any run of scrapes with distinct keys, a series exists once seen and from
   then on has, for every scrape, the value last reported at that time.
   */
  lemma {:induction false} HistoryOf(scrapes: seq<Scrape>, key: string)
    requires AllDistinct(scrapes)
    ensures Holds(Run(scrapes), scrapes, key)
  {
    if |scrapes| > 0 {
      assert scrapes[|scrapes| - 1] in scrapes;
      HistoryOf(scrapes[..|scrapes| - 1], key);
      HistoryStep(scrapes, key);
    }
  }

  lemma {:induction false} HistoryStep(scrapes: seq<Scrape>, key: string)
    requires |scrapes| > 0 && Distinct(scrapes[|scrapes| - 1].readings)
    requires Holds(Run(scrapes[..|scrapes| - 1]), scrapes[..|scrapes| - 1], key)
    ensures Holds(Run(scrapes), scrapes, key)
  {
    var front, s := scrapes[..|scrapes| - 1], scrapes[|scrapes| - 1];
    HoldsStep(Run(front), front, s, key);
    assert scrapes == front + [s];
  }

  // ------------------------------------------------------------ alignment

  function Times(samples: seq<Sample>): seq<real>
  {
    seq(|samples|, i requires 0 <= i < |samples| => samples[i].ts)
  }

  /** One sample for each scrape since the first with this key, as far as the buffer reaches. */
  function ShownLength(scrapes: seq<Scrape>, key: string): nat
  {
    Least(|scrapes| - FirstSeen(scrapes, key), CAPACITY)
  }

  /** A series shows the times of the latest scrapes, as many as it has samples to show. */
  ghost predicate ShowsLatest(shown: seq<Sample>, scrapes: seq<Scrape>, key: string)
  {
    var n := |scrapes|;
    && |shown| == ShownLength(scrapes, key)
    && (forall i | 0 <= i < |shown| :: IsSampleAt(shown[i], scrapes, n - |shown| + i, key))
  }

  lemma {:induction false} ShownOf(h: seq<Sample>, scrapes: seq<Scrape>, key: string)
    requires IsHistory(h, scrapes, key)
    ensures ShowsLatest(Shown(h), scrapes, key)
  {
    var shown, n := Shown(h), |scrapes|;
    forall i | 0 <= i < |shown|
      ensures IsSampleAt(shown[i], scrapes, n - |shown| + i, key)
    {
      ShownIs(h, i);
    }
  }

  lemma {:induction false} ShownIs(h: seq<Sample>, i: nat)
    requires i < |Shown(h)|
    ensures Shown(h)[i] == h[|h| - |Shown(h)| + i]
  {
  }

  lemma ShownTimes(scrapes: seq<Scrape>, key: string)
    requires AllDistinct(scrapes) && key in Run(scrapes)
    ensures ShowsLatest(Shown(Run(scrapes)[key]), scrapes, key)
  {
    HistoryOf(scrapes, key);
    ShownOf(Run(scrapes)[key], scrapes, key);
  }

  /** Two series show the same times exactly when they show equally many samples. */
  lemma AlignedIff(scrapes: seq<Scrape>, a: string, b: string)
    requires AllDistinct(scrapes) && a in Run(scrapes) && b in Run(scrapes)
    ensures Times(Shown(Run(scrapes)[a])) == Times(Shown(Run(scrapes)[b]))
       <==> ShownLength(scrapes, a) == ShownLength(scrapes, b)
  {
    ShownTimes(scrapes, a);
    ShownTimes(scrapes, b);
    TimesAgreeIff(scrapes, a, b, Shown(Run(scrapes)[a]), Shown(Run(scrapes)[b]));
  }

  lemma TimesAgreeIff(scrapes: seq<Scrape>, a: string, b: string, x: seq<Sample>, y: seq<Sample>)
    requires ShowsLatest(x, scrapes, a) && ShowsLatest(y, scrapes, b)
    ensures Times(x) == Times(y) <==> |x| == |y|
  {
    LatestTimes(scrapes, a, x);
    LatestTimes(scrapes, b, y);
    SuffixesAgreeIff(ScrapeTimes(scrapes), |x|, |y|);
  }

  function ScrapeTimes(scrapes: seq<Scrape>): seq<real>
  {
    seq(|scrapes|, i requires 0 <= i < |scrapes| => scrapes[i].ts)
  }

  lemma LatestTimes(scrapes: seq<Scrape>, key: string, shown: seq<Sample>)
    requires ShowsLatest(shown, scrapes, key)
    ensures Times(shown) == ScrapeTimes(scrapes)[|scrapes| - |shown|..]
  {
  }

  lemma SuffixesAgreeIff(s: seq<real>, m: nat, n: nat)
    requires m <= |s| && n <= |s|
    ensures s[|s| - m..] == s[|s| - n..] <==> m == n
  {
    assert |s[|s| - m..]| == m && |s[|s| - n..]| == n;
  }

  /** Series of the first scrape stay aligned for ever. */
  lemma FirstSeriesStayAligned(scrapes: seq<Scrape>, a: string, b: string)
    requires AllDistinct(scrapes) && |scrapes| > 0
    requires a in KeysOf(scrapes[0].readings) && b in KeysOf(scrapes[0].readings)
    ensures a in Run(scrapes) && b in Run(scrapes)
    ensures Times(Shown(Run(scrapes)[a])) == Times(Shown(Run(scrapes)[b]))
  {
    HistoryOf(scrapes, a);
    HistoryOf(scrapes, b);
    AlignedIff(scrapes, a, b);
  }

  // ------------------------------------------------------------ the success rate

  const OTHERS: seq<string> := ["error", "rejected", "timeout", "oom_killed"]

  function StatusKey(status: string): string
  {
    "agentfm_tasks_total{status=" + status + "}"
  }

  function Rate(ok: real, other: real): real
  {
    if ok + other == 0.0 then 1.0 else ok / (ok + other)
  }

  /** What a status contributes at an index: nothing where its series has no sample. */
  function ShownValue(h: Histories, status: string, i: nat): real
  {
    if StatusKey(status) in h && i < |Shown(h[StatusKey(status)])| then Shown(h[StatusKey(status)])[i].v else 0.0
  }

  function OtherAt(h: Histories, statuses: seq<string>, i: nat): real
  {
    if |statuses| == 0 then 0.0
    else OtherAt(h, statuses[..|statuses| - 1], i) + ShownValue(h, statuses[|statuses| - 1], i)
  }

  function OkShown(h: Histories): seq<Sample>
  {
    if StatusKey("ok") in h then Shown(h[StatusKey("ok")]) else []
  }

  function RatesOver(h: Histories, statuses: seq<string>): seq<real>
  {
    seq(|OkShown(h)|, i requires 0 <= i < |OkShown(h)| => Rate(OkShown(h)[i].v, OtherAt(h, statuses, i)))
  }

  function SuccessRates(h: Histories): seq<real>
  {
    RatesOver(h, OTHERS)
  }

  function TrueOther(scrapes: seq<Scrape>, statuses: seq<string>): real
  {
    if |statuses| == 0 then 0.0
    else TrueOther(scrapes, statuses[..|statuses| - 1]) + LastReported(scrapes, StatusKey(statuses[|statuses| - 1]))
  }

  /** A status that was never seen, or is shown as long as "ok". */
  ghost predicate Paired(scrapes: seq<Scrape>, status: string)
  {
    FirstSeen(scrapes, StatusKey(status)) < |scrapes| ==>
      ShownLength(scrapes, StatusKey(status)) == ShownLength(scrapes, StatusKey("ok"))
  }

  lemma {:induction false} ShowsAt(shown: seq<Sample>, scrapes: seq<Scrape>, key: string, i: nat)
    requires ShowsLatest(shown, scrapes, key) && i < |shown|
    ensures shown[i].v == LastReported(scrapes[..|scrapes| - |shown| + i + 1], key)
  {
  }

  /** The number of scrapes up to the one shown at an index of the "ok" series. */
  function TickAt(scrapes: seq<Scrape>, i: nat): int
  {
    |scrapes| - |OkShown(Run(scrapes))| + i + 1
  }

  /** A status that turns up after "ok" is left out of the newest point until both buffers are full. */
  lemma LateStatusIsMissed(scrapes: seq<Scrape>, status: string)
    requires AllDistinct(scrapes) && StatusKey("ok") in Run(scrapes) && StatusKey(status) in Run(scrapes)
    requires !Paired(scrapes, status) && FirstSeen(scrapes, StatusKey("ok")) < FirstSeen(scrapes, StatusKey(status))
    ensures |OkShown(Run(scrapes))| > 0
    ensures ShownValue(Run(scrapes), status, |OkShown(Run(scrapes))| - 1) == 0.0
  {
    ShownTimes(scrapes, StatusKey("ok"));
    ShownTimes(scrapes, StatusKey(status));
  }
}
