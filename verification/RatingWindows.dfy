/** When the rating writer rates a peer: not before a whole window since it was first seen, or last rated. */
module RatingWindows {
  import opened Hashing
  import opened Wrappers
  import opened Ratings

  /** One hour in nanoseconds. */
  const HOUR: int := 3600 * 1_000_000_000

  // ------------------------------------------------------------ where a window starts

  /** The time of the first outcome recorded about a peer. */
  function FirstOutcome(events: seq<Event>, p: PeerId): Option<int>
  {
    if |events| == 0 then None
    else
      var before, last := FirstOutcome(events[..|events| - 1], p), events[|events| - 1];
      if before.Some? then before
      else if last.RecordOutcome? && last.subject == p then Some(last.at)
      else None
  }

  /** The time of the last rating of a peer whose append succeeded. */
  function LastRated(log: seq<Emission>, p: PeerId): Option<int>
  {
    if |log| == 0 then None
    else
      var last := log[|log| - 1];
      if last.acked && last.subject == p then Some(last.time) else LastRated(log[..|log| - 1], p)
  }

  /** A peer's window starts with its last settled rating, or else when it is first seen. */
  function WindowStart(events: seq<Event>, w: Writer, p: PeerId): Option<int>
  {
    var rated := LastRated(if w.appended && |w.log| > 0 then w.log[..|w.log| - 1] else w.log, p);
    if rated.Some? then rated else FirstOutcome(events, p)
  }

  /** The writer keeps a bucket for each peer seen, from the start of its window. */
  ghost predicate BucketsStart(events: seq<Event>, w: Writer, p: PeerId)
  {
    && (p in w.buckets <==> FirstOutcome(events, p).Some?)
    && (p in w.buckets ==> WindowStart(events, w, p) == Some(w.buckets[p].lastEmit))
  }

  lemma {:induction false} LastRatedMore(log: seq<Emission>, e: Emission, p: PeerId)
    ensures LastRated(log + [e], p) == if e.acked && e.subject == p then Some(e.time) else LastRated(log, p)
    ensures (log + [e])[..|log|] == log
  {
  }

  lemma {:induction false} RatedIsKept(w: Writer, p: PeerId, n: nat)
    requires Inv(w) && n <= SettledLength(w) && LastRated(w.log[..n], p).Some?
    ensures p in w.buckets
    decreases n
  {
    if n > 0 {
      assert w.log[..n][..n - 1] == w.log[..n - 1];
      if !(w.log[n - 1].acked && w.log[n - 1].subject == p) {
        RatedIsKept(w, p, n - 1);
      }
    }
  }

  lemma {:induction false} RecordStarts(events: seq<Event>, w: Writer, subject: PeerId, success: bool, at: int, p: PeerId)
    requires Inv(w) && BucketsStart(events, w, p)
    ensures BucketsStart(events + [RecordOutcome(subject, success, at)],
                         Step(w, RecordOutcome(subject, success, at)), p)
  {
    var e := RecordOutcome(subject, success, at);
    assert (events + [e])[..|events|] == events;
    if subject == p && p !in w.buckets {
      var settled := if w.appended && |w.log| > 0 then w.log[..|w.log| - 1] else w.log;
      assert settled == w.log[..SettledLength(w)];
      if LastRated(settled, p).Some? {
        RatedIsKept(w, p, SettledLength(w));
      }
    }
  }

  lemma {:induction false} AppendStarts(events: seq<Event>, w: Writer, result: AppendResult, p: PeerId)
    requires Inv(w) && BucketsStart(events, w, p) && Legal(w, AppendNext(result))
    ensures BucketsStart(events + [AppendNext(result)], Step(w, AppendNext(result)), p)
  {
    assert (events + [AppendNext(result)])[..|events|] == events;
    LastRatedMore(w.log, Emitted(w.queue[0], w.tickTime, result == Acked), p);
  }

  lemma {:induction false} SettleStarts(events: seq<Event>, w: Writer, p: PeerId)
    requires Inv(w) && BucketsStart(events, w, p) && Legal(w, Settle)
    ensures BucketsStart(events + [Settle], Step(w, Settle), p)
  {
    assert (events + [Settle])[..|events|] == events;
    var before := w.log[..|w.log| - 1];
    LastRatedMore(before, w.log[|w.log| - 1], p);
    assert before + [w.log[|w.log| - 1]] == w.log;
  }

  lemma {:induction false} StepStarts(events: seq<Event>, w: Writer, e: Event, p: PeerId)
    requires Inv(w) && BucketsStart(events, w, p) && Legal(w, e)
    ensures BucketsStart(events + [e], Step(w, e), p)
  {
    match e
    case RecordOutcome(subject, success, at) => RecordStarts(events, w, subject, success, at, p);
    case StartTick(_, _) => assert (events + [e])[..|events|] == events;
    case AppendNext(result) => AppendStarts(events, w, result, p);
    case Settle => SettleStarts(events, w, p);
  }

  /** Over every run, a bucket's `lastEmit` is the time of the last settled rating, or of the first outcome. */
  lemma {:induction false} WindowsStart(events: seq<Event>, p: PeerId)
    requires LegalRun(Start, events)
    ensures BucketsStart(events, Run(Start, events), p)
  {
    if |events| > 0 {
      var front, last := events[..|events| - 1], events[|events| - 1];
      WindowsStart(front, p);
      RunKeeps(front);
      StepStarts(front, Run(Start, front), last, p);
      assert front + [last] == events;
    }
  }

  // ------------------------------------------------------------ who is rated

  /**
   A tick queues one rating of exactly those peers whose window started an hour ago or
   longer, and whose successes and failures differ; it stands for all of them.
   */
  lemma {:induction false} TickRatesIff(events: seq<Event>, order: seq<PeerId>, now: int, q: Pending)
    requires LegalRun(Start, events) && Legal(Run(Start, events), StartTick(order, now))
    ensures var w := Run(Start, events);
            q in Step(w, StartTick(order, now)).queue
            <==> && FirstOutcome(events, q.subject).Some? && q.subject in w.buckets
                 && now - WindowStart(events, w, q.subject).value >= HOUR
                 && w.buckets[q.subject].successes != w.buckets[q.subject].failures
                 && q.successes == w.buckets[q.subject].successes && q.failures == w.buckets[q.subject].failures
  {
    WindowsStart(events, q.subject);
    QueuedIff(Run(Start, events), order, now, q);
  }

  lemma {:induction false} QueuedIff(w: Writer, order: seq<PeerId>, now: int, q: Pending)
    requires Legal(w, StartTick(order, now))
    ensures q in Step(w, StartTick(order, now)).queue
       <==> && q.subject in w.buckets && now - w.buckets[q.subject].lastEmit >= HOUR
            && w.buckets[q.subject].successes != w.buckets[q.subject].failures
            && q.successes == w.buckets[q.subject].successes && q.failures == w.buckets[q.subject].failures
  {
    SnapshotOf(w.buckets, order, now);
    if q.subject in w.buckets {
      ScoreIsCappedNet(w.buckets[q.subject].successes, w.buckets[q.subject].failures);
    }
    if q in Step(w, StartTick(order, now)).queue {
      var i :| 0 <= i < |Snapshot(w.buckets, order, now)| && Snapshot(w.buckets, order, now)[i] == q;
      assert IsPending(w.buckets, now, q);
    }
  }

  // ------------------------------------------------------------ the first window

  /** What is logged or queued about `p` comes an hour or more after `first`. */
  ghost predicate AnHourAfter(w: Writer, p: PeerId, first: int)
  {
    && (forall e | e in w.log && e.subject == p :: e.time >= first + HOUR)
    && ((exists q :: q in w.queue && q.subject == p) ==> w.tickTime >= first + HOUR)
    && (p in w.buckets ==> w.buckets[p].lastEmit >= first)
  }

  ghost predicate WaitsFirst(events: seq<Event>, w: Writer, p: PeerId)
  {
    match FirstOutcome(events, p)
    case None => (forall e | e in w.log :: e.subject != p) && (forall q | q in w.queue :: q.subject != p)
    case Some(first) => AnHourAfter(w, p, first)
  }

  lemma {:induction false} StepWaits(events: seq<Event>, w: Writer, e: Event, p: PeerId)
    requires Inv(w) && Legal(w, e) && BucketsStart(events, w, p) && WaitsFirst(events, w, p)
    ensures WaitsFirst(events + [e], Step(w, e), p)
  {
    assert (events + [e])[..|events|] == events;
    match e
    case RecordOutcome(_, _, _) =>
    case StartTick(order, now) =>
      forall q | q in Step(w, e).queue ensures q.subject in w.buckets && now - w.buckets[q.subject].lastEmit >= HOUR {
        QueuedIff(w, order, now, q);
      }
    case AppendNext(result) =>
      assert w.queue[0] in w.queue;
      assert forall x | x in Step(w, e).log :: x in w.log || x == Emitted(w.queue[0], w.tickTime, result == Acked);
    case Settle =>
      assert w.queue[0] in w.queue;
      assert forall q | q in w.queue[1..] :: q in w.queue;
  }

  lemma {:induction false} RunWaits(events: seq<Event>, p: PeerId)
    requires LegalRun(Start, events)
    ensures WaitsFirst(events, Run(Start, events), p)
  {
    if |events| > 0 {
      var front, last := events[..|events| - 1], events[|events| - 1];
      RunWaits(front, p);
      RunKeeps(front);
      WindowsStart(front, p);
      StepWaits(front, Run(Start, front), last, p);
      assert front + [last] == events;
    }
  }

  /** Over every run, every rating of a peer comes an hour or more after its first recorded outcome. */
  lemma {:induction false} FirstWindowIsWaited(events: seq<Event>, p: PeerId, i: nat)
    requires LegalRun(Start, events) && i < |Run(Start, events).log| && Run(Start, events).log[i].subject == p
    ensures FirstOutcome(events, p).Some?
    ensures Run(Start, events).log[i].time >= FirstOutcome(events, p).value + HOUR
  {
    RunWaits(events, p);
    assert Run(Start, events).log[i] in Run(Start, events).log;
  }

  /** A tick that comes sooner queues nothing about the peer. */
  lemma {:induction false} TooSoonIsSkipped(events: seq<Event>, order: seq<PeerId>, now: int, p: PeerId)
    requires LegalRun(Start, events) && Legal(Run(Start, events), StartTick(order, now))
    requires FirstOutcome(events, p).Some? ==> now < FirstOutcome(events, p).value + HOUR
    ensures forall q | q in Step(Run(Start, events), StartTick(order, now)).queue :: q.subject != p
  {
    RunWaits(events, p);
    WindowsStart(events, p);
    forall q | q in Step(Run(Start, events), StartTick(order, now)).queue ensures q.subject != p {
      QueuedIff(Run(Start, events), order, now, q);
    }
  }

  // ------------------------------------------------------------ what a rating says

  /** Every rating in the ledger says a tenth for each net outcome it stands for, at most a half either way. */
  lemma {:induction false} RatingSays(events: seq<Event>, i: nat)
    requires LegalRun(Start, events) && i < |Run(Start, events).log|
    ensures var e := Run(Start, events).log[i];
            var net := e.successes - e.failures;
            && (-5 <= net <= 5 ==> e.score == net as real * 0.1)
            && (net > 5 ==> e.score == 0.5) && (net < -5 ==> e.score == -0.5)
  {
    RunKeeps(events);
    var e := Run(Start, events).log[i];
    assert e in Run(Start, events).log;
    ScoreIsCappedNet(e.successes, e.failures);
  }

  // ------------------------------------------------------------ a failed append

  lemma {:induction false} PrefixIsLegal(events: seq<Event>, n: nat)
    requires LegalRun(Start, events) && n <= |events|
    ensures LegalRun(Start, events[..n])
    ensures n < |events| ==>
              Legal(Run(Start, events[..n]), events[n]) && LegalRun(Start, events[..n + 1])
              && Run(Start, events[..n + 1]) == Step(Run(Start, events[..n]), events[n])
    decreases |events| - n
  {
    if n == |events| {
      assert events[..n] == events;
    } else {
      PrefixIsLegal(events, n + 1);
      assert events[..n + 1][..n] == events[..n];
    }
  }

  /** Nothing is left to write between a failed append and the next tick. */
  lemma {:induction false} NothingIsLeft(events: seq<Event>, i: nat, j: nat)
    requires LegalRun(Start, events) && i < j <= |events|
    requires events[i].AppendNext? && events[i].result != Acked
    requires forall m | i < m < j :: !events[m].StartTick?
    ensures LegalRun(Start, events[..j]) && Run(Start, events[..j]).queue == []
    decreases j
  {
    PrefixIsLegal(events, j);
    PrefixIsLegal(events, j - 1);
    if j > i + 1 {
      NothingIsLeft(events, i, j - 1);
    }
  }

  /** An append that fails ends its tick: what it left unwritten waits for the next one to start. */
  lemma {:induction false} FailedAppendEndsTick(events: seq<Event>, i: nat, j: nat)
    requires LegalRun(Start, events) && i < j < |events|
    requires events[i].AppendNext? && events[i].result != Acked && events[j].AppendNext?
    ensures exists m :: i < m < j && events[m].StartTick?
  {
    if forall m | i < m < j :: !events[m].StartTick? {
      NothingIsLeft(events, i, j);
      PrefixIsLegal(events, j);
      assert false;
    }
  }
}
