/**
 The hourly rating writer as a state machine.  A tick takes its snapshot under the
 lock, appends each rating with the lock released, and takes the lock again to
 settle that peer's counts; outcomes may be recorded between any two of these steps.
 No step assumes anything of the clock.
 */
module Ratings {
  import opened Arithmetic
  import opened Hashing
  import Envelopes
  import LedgerModel

  /** One hour, in nanoseconds. */
  const WINDOW: nat := 3_600_000_000_000
  const HOURLY_CAP: real := 0.5
  const INCREMENT: real := 0.1
  const NET_ZERO: real := 0.000000001

  datatype Bucket = Bucket(successes: int, failures: int, lastEmit: int)

  /** A rating waiting to be appended, with the counts it stands for. */
  datatype Pending = Pending(subject: PeerId, successes: int, failures: int)

  /** A rating in the ledger; `acked` says whether the append that wrote it returned without an error. */
  datatype Emission =
    Emission(subject: PeerId, score: real, successes: int, failures: int, time: int, acked: bool)

  /** `appended` says that the head of `queue` is in the ledger but not settled yet. */
  datatype Writer =
    Writer(buckets: map<PeerId, Bucket>, tickTime: int, queue: seq<Pending>, appended: bool, log: seq<Emission>)

  /** A ledger append can fail before or after its entry became durable. */
  datatype AppendResult = Acked | Refused | HalfWritten

  datatype Event =
    | RecordOutcome(subject: PeerId, success: bool, at: int)
    | StartTick(order: seq<PeerId>, now: int)
    | AppendNext(result: AppendResult)
    | Settle

  const Start: Writer := Writer(map[], 0, [], false, [])

  // ------------------------------------------------------------ the score

  function AggregateScore(successes: int, failures: int): real
  {
    var raw := INCREMENT * successes as real - INCREMENT * failures as real;
    if successes - failures == 0 then 0.0
    else if -NET_ZERO < raw < NET_ZERO then 0.0
    else if raw > HOURLY_CAP then HOURLY_CAP
    else if raw < -HOURLY_CAP then -HOURLY_CAP
    else raw
  }

  /** The score is a tenth per net outcome up to the cap; the tolerance never swallows a net outcome. */
  lemma ScoreIsCappedNet(successes: int, failures: int)
    ensures var net, score := successes - failures, AggregateScore(successes, failures);
            && (score == 0.0 <==> net == 0)
            && (-5 <= net <= 5 ==> score == net as real / 10.0)
            && (net > 5 ==> score == 0.5)
            && (net < -5 ==> score == -0.5)
  {
    assert successes as real - failures as real == (successes - failures) as real;
  }

  // ------------------------------------------------------------ the steps

  predicate Due(b: Bucket, now: int)
  {
    now - b.lastEmit >= WINDOW
  }

  predicate NetsZero(b: Bucket)
  {
    AggregateScore(b.successes, b.failures) == 0.0
  }

  function Recorded(buckets: map<PeerId, Bucket>, subject: PeerId, success: bool, at: int): map<PeerId, Bucket>
  {
    var b := if subject in buckets then buckets[subject] else Bucket(0, 0, at);
    buckets[subject := if success then b.(successes := b.successes + 1) else b.(failures := b.failures + 1)]
  }

  /** What a visit to one due bucket makes of it. */
  function Visited(b: Bucket, now: int): Bucket
  {
    if Due(b, now) && NetsZero(b) then Bucket(0, 0, b.lastEmit) else b
  }

  function AllVisited(buckets: map<PeerId, Bucket>, now: int): map<PeerId, Bucket>
  {
    map p | p in buckets :: Visited(buckets[p], now)
  }

  /** The rating to write about one peer, if any. */
  function PendingOf(p: PeerId, b: Bucket, now: int): seq<Pending>
  {
    if Due(b, now) && !NetsZero(b) then [Pending(p, b.successes, b.failures)] else []
  }

  /** The ratings to write, in the order in which the buckets are visited. */
  function Snapshot(buckets: map<PeerId, Bucket>, order: seq<PeerId>, now: int): seq<Pending>
  {
    if |order| == 0 then []
    else
      var p := order[|order| - 1];
      Snapshot(buckets, order[..|order| - 1], now) + if p in buckets then PendingOf(p, buckets[p], now) else []
  }

  function Settled(b: Bucket, q: Pending, now: int): Bucket
  {
    Bucket(b.successes - q.successes, b.failures - q.failures, now)
  }

  function Emitted(q: Pending, now: int, acked: bool): Emission
  {
    Emission(q.subject, AggregateScore(q.successes, q.failures), q.successes, q.failures, now, acked)
  }

  predicate VisitsAll(order: seq<PeerId>, buckets: map<PeerId, Bucket>)
  {
    && (forall i | 0 <= i < |order| :: order[i] in buckets)
    && (forall p | p in buckets :: p in order)
    && (forall i, j | 0 <= i < j < |order| :: order[i] != order[j])
  }

  /** Only one ticker runs, so a tick starts when the last one has ended. */
  predicate Legal(w: Writer, e: Event)
  {
    match e
    case RecordOutcome(_, _, _) => true
    case StartTick(order, _) => w.queue == [] && !w.appended && VisitsAll(order, w.buckets)
    case AppendNext(_) => |w.queue| > 0 && !w.appended
    case Settle => |w.queue| > 0 && w.appended && w.queue[0].subject in w.buckets
  }

  function Step(w: Writer, e: Event): Writer
    requires Legal(w, e)
  {
    match e
    case RecordOutcome(subject, success, at) => w.(buckets := Recorded(w.buckets, subject, success, at))
    case StartTick(order, now) =>
      Writer(AllVisited(w.buckets, now), now, Snapshot(w.buckets, order, now), false, w.log)
    case AppendNext(result) =>
      (match result
       case Acked => w.(appended := true, log := w.log + [Emitted(w.queue[0], w.tickTime, true)])
       case Refused => w.(queue := [])
       case HalfWritten => w.(queue := [], log := w.log + [Emitted(w.queue[0], w.tickTime, false)]))
    case Settle =>
      var q := w.queue[0];
      w.(buckets := w.buckets[q.subject := Settled(w.buckets[q.subject], q, w.tickTime)],
         queue := w.queue[1..], appended := false)
  }

  ghost predicate LegalRun(w: Writer, events: seq<Event>)
    decreases |events|, 0
  {
    |events| == 0 ||
    (LegalRun(w, events[..|events| - 1])
     && Legal(Run(w, events[..|events| - 1]), events[|events| - 1]))
  }

  ghost function Run(w: Writer, events: seq<Event>): Writer
    requires LegalRun(w, events)
    decreases |events|, 1
  {
    if |events| == 0 then w else Step(Run(w, events[..|events| - 1]), events[|events| - 1])
  }

  // ------------------------------------------------------------ the invariant

  ghost predicate Covers(b: Bucket, q: Pending)
  {
    0 <= q.successes <= b.successes && 0 <= q.failures <= b.failures
  }

  ghost predicate QueueOk(w: Writer)
  {
    && (forall i | 0 <= i < |w.queue| ::
          && w.queue[i].subject in w.buckets
          && Covers(w.buckets[w.queue[i].subject], w.queue[i])
          && Due(w.buckets[w.queue[i].subject], w.tickTime))
    && (forall i, j | 0 <= i < j < |w.queue| :: w.queue[i].subject != w.queue[j].subject)
  }

  ghost predicate CountsOk(w: Writer)
  {
    forall p | p in w.buckets :: w.buckets[p].successes >= 0 && w.buckets[p].failures >= 0
  }

  /** How much of the log has been settled. */
  function SettledLength(w: Writer): int
  {
    if w.appended then |w.log| - 1 else |w.log|
  }

  /** A settled rating has moved its subject's `lastEmit` at least to its own time. */
  ghost predicate LogOk(w: Writer)
  {
    && (forall i | 0 <= i < SettledLength(w) && w.log[i].acked ::
          w.log[i].subject in w.buckets && w.log[i].time <= w.buckets[w.log[i].subject].lastEmit)
    && (w.appended ==>
          |w.queue| > 0 && |w.log| > 0 && w.log[|w.log| - 1] == Emitted(w.queue[0], w.tickTime, true))
  }

  /** After a rating whose append succeeded, the next one about the same peer is at least a window away. */
  ghost predicate Spaced(log: seq<Emission>)
  {
    forall i, j | 0 <= i < j < |log| && log[i].acked && log[i].subject == log[j].subject ::
      log[j].time - log[i].time >= WINDOW
  }

  ghost predicate Scored(log: seq<Emission>)
  {
    forall e | e in log :: e.score == AggregateScore(e.successes, e.failures)
  }

  ghost predicate Inv(w: Writer)
  {
    QueueOk(w) && CountsOk(w) && LogOk(w) && Spaced(w.log) && Scored(w.log)
  }

  ghost predicate IsPending(buckets: map<PeerId, Bucket>, now: int, q: Pending)
  {
    && q.subject in buckets && Due(buckets[q.subject], now) && !NetsZero(buckets[q.subject])
    && q.successes == buckets[q.subject].successes && q.failures == buckets[q.subject].failures
  }

  /** The snapshot holds one rating for each due peer with a net outcome, and no others. */
  lemma {:induction false} SnapshotOf(buckets: map<PeerId, Bucket>, order: seq<PeerId>, now: int)
    requires forall i, j | 0 <= i < j < |order| :: order[i] != order[j]
    ensures var qs := Snapshot(buckets, order, now);
            && (forall i | 0 <= i < |qs| :: qs[i].subject in order && IsPending(buckets, now, qs[i]))
            && (forall i, j | 0 <= i < j < |qs| :: qs[i].subject != qs[j].subject)
            && (forall q: Pending | q.subject in order && IsPending(buckets, now, q) :: q in qs)
  {
    if |order| > 0 {
      var front, last := order[..|order| - 1], order[|order| - 1];
      SnapshotOf(buckets, front, now);
      assert last !in front;
      assert order == front + [last];
      if last in buckets && Due(buckets[last], now) && !NetsZero(buckets[last]) {
        var q := Pending(last, buckets[last].successes, buckets[last].failures);
        assert Snapshot(buckets, order, now) == Snapshot(buckets, front, now) + [q];
        OneMorePending(buckets, front, now, Snapshot(buckets, front, now), q);
      } else {
        assert Snapshot(buckets, order, now) == Snapshot(buckets, front, now);
      }
    }
  }

  lemma OneMorePending(buckets: map<PeerId, Bucket>, front: seq<PeerId>, now: int, qs: seq<Pending>, q: Pending)
    requires q.subject !in front && IsPending(buckets, now, q)
    requires forall i | 0 <= i < |qs| :: qs[i].subject in front && IsPending(buckets, now, qs[i])
    requires forall p: Pending | p.subject in front && IsPending(buckets, now, p) :: p in qs
    ensures forall i | 0 <= i < |qs + [q]| ::
              (qs + [q])[i].subject in front + [q.subject] && IsPending(buckets, now, (qs + [q])[i])
    ensures forall p: Pending | p.subject in front + [q.subject] && IsPending(buckets, now, p) :: p in qs + [q]
  {
  }

  lemma RecordKeeps(w: Writer, subject: PeerId, success: bool, at: int)
    requires Inv(w)
    ensures Inv(w.(buckets := Recorded(w.buckets, subject, success, at)))
  {
  }

  lemma StartTickKeeps(w: Writer, order: seq<PeerId>, now: int)
    requires Inv(w) && Legal(w, StartTick(order, now))
    ensures Inv(Step(w, StartTick(order, now)))
  {
    SnapshotOf(w.buckets, order, now);
    var after := Step(w, StartTick(order, now));
    forall i | 0 <= i < |after.queue|
      ensures && after.queue[i].subject in after.buckets
              && Covers(after.buckets[after.queue[i].subject], after.queue[i])
              && Due(after.buckets[after.queue[i].subject], now)
    {
      assert after.queue[i] in after.queue;
    }
  }

  lemma AppendKeeps(w: Writer, result: AppendResult)
    requires Inv(w) && Legal(w, AppendNext(result))
    ensures Inv(Step(w, AppendNext(result)))
  {
    var q, n := w.queue[0], |w.log|;
    forall i | 0 <= i < n && w.log[i].acked && w.log[i].subject == q.subject
      ensures w.tickTime - w.log[i].time >= WINDOW
    {
      assert Due(w.buckets[q.subject], w.tickTime);
    }
  }

  lemma SettleKeeps(w: Writer)
    requires Inv(w) && Legal(w, Settle)
    ensures Inv(Step(w, Settle))
  {
    var q, after := w.queue[0], Step(w, Settle);
    forall i | 0 <= i < |after.queue|
      ensures after.queue[i] == w.queue[i + 1] && after.queue[i].subject != q.subject
    {
    }
    forall i | 0 <= i < |after.log| && after.log[i].acked
      ensures after.log[i].subject in after.buckets && after.log[i].time <= after.buckets[after.log[i].subject].lastEmit
    {
      if i < |w.log| - 1 && w.log[i].subject == q.subject {
        assert Due(w.buckets[q.subject], w.tickTime);
      }
    }
  }

  lemma StepKeeps(w: Writer, e: Event)
    requires Inv(w) && Legal(w, e)
    ensures Inv(Step(w, e))
  {
    match e
    case RecordOutcome(subject, success, at) => RecordKeeps(w, subject, success, at);
    case StartTick(order, now) => StartTickKeeps(w, order, now);
    case AppendNext(result) => AppendKeeps(w, result);
    case Settle => SettleKeeps(w);
  }

  /** Counts never go negative and ratings stay spaced, however outcomes and ticks interleave. */
  lemma {:induction false} RunKeeps(events: seq<Event>)
    requires LegalRun(Start, events)
    ensures Inv(Run(Start, events))
  {
    if |events| > 0 {
      RunKeeps(events[..|events| - 1]);
      StepKeeps(Run(Start, events[..|events| - 1]), events[|events| - 1]);
    }
  }

  // ------------------------------------------------------------ conservation

  /** Net outcomes ever recorded about a peer. */
  function RecordedNet(events: seq<Event>, p: PeerId): int
  {
    if |events| == 0 then 0 else RecordedNet(events[..|events| - 1], p) + NetOf(events[|events| - 1], p)
  }

  function NetOf(e: Event, p: PeerId): int
  {
    if e.RecordOutcome? && e.subject == p then (if e.success then 1 else -1) else 0
  }

  /** Net outcomes that successful appends stand for. */
  function EmittedNet(log: seq<Emission>, p: PeerId): int
  {
    if |log| == 0 then 0
    else
      var e := log[|log| - 1];
      EmittedNet(log[..|log| - 1], p) + if e.acked && e.subject == p then e.successes - e.failures else 0
  }

  /** Net outcomes still counted, less those already in the ledger but not settled. */
  function PendingNet(w: Writer, p: PeerId): int
  {
    (if p in w.buckets then w.buckets[p].successes - w.buckets[p].failures else 0)
    - (if w.appended && |w.queue| > 0 && w.queue[0].subject == p then w.queue[0].successes - w.queue[0].failures else 0)
  }

  /** What the log says and what is pending. */
  function AccountedNet(w: Writer, p: PeerId): int
  {
    EmittedNet(w.log, p) + PendingNet(w, p)
  }

  lemma {:induction false} StartConserves(w: Writer, order: seq<PeerId>, now: int, p: PeerId)
    requires Inv(w) && Legal(w, StartTick(order, now))
    ensures AccountedNet(Step(w, StartTick(order, now)), p) == AccountedNet(w, p)
  {
    if p in w.buckets {
      ScoreIsCappedNet(w.buckets[p].successes, w.buckets[p].failures);
    }
  }

  lemma {:induction false} EmittedMore(log: seq<Emission>, e: Emission, p: PeerId)
    ensures EmittedNet(log + [e], p)
         == EmittedNet(log, p) + if e.acked && e.subject == p then e.successes - e.failures else 0
  {
    assert (log + [e])[..|log|] == log;
  }

  lemma {:induction false} AppendConserves(w: Writer, result: AppendResult, p: PeerId)
    requires Inv(w) && Legal(w, AppendNext(result))
    ensures AccountedNet(Step(w, AppendNext(result)), p) == AccountedNet(w, p)
  {
    EmittedMore(w.log, Emitted(w.queue[0], w.tickTime, result == Acked), p);
  }

  lemma {:induction false} SettleConserves(w: Writer, p: PeerId)
    requires Inv(w) && Legal(w, Settle)
    ensures AccountedNet(Step(w, Settle), p) == AccountedNet(w, p)
  {
  }

  lemma {:induction false} StepConserves(w: Writer, e: Event, p: PeerId)
    requires Inv(w) && Legal(w, e)
    ensures AccountedNet(Step(w, e), p) == AccountedNet(w, p) + NetOf(e, p)
  {
    match e
    case RecordOutcome(_, _, _) =>
    case StartTick(order, now) => StartConserves(w, order, now, p);
    case AppendNext(result) => AppendConserves(w, result, p);
    case Settle => SettleConserves(w, p);
  }

  /**
   Every net outcome recorded about a peer is either in a rating whose append
   succeeded or still pending, whatever is recorded while the lock is released.
   */
  lemma {:induction false} NetIsConserved(events: seq<Event>, p: PeerId)
    requires LegalRun(Start, events)
    ensures RecordedNet(events, p) == EmittedNet(Run(Start, events).log, p) + PendingNet(Run(Start, events), p)
  {
    if |events| > 0 {
      NetIsConserved(events[..|events| - 1], p);
      RunKeeps(events[..|events| - 1]);
      StepConserves(Run(Start, events[..|events| - 1]), events[|events| - 1], p);
    }
  }

  // ------------------------------------------------------------ the cap

  /** The ratings about a peer in a span of time: all in the ledger, or only those whose append succeeded. */
  predicate Counted(e: Emission, p: PeerId, from: int, till: int, all: bool)
  {
    (all || e.acked) && e.subject == p && from <= e.time <= till
  }

  function Count(log: seq<Emission>, p: PeerId, from: int, till: int, all: bool): nat
  {
    if |log| == 0 then 0
    else Count(log[..|log| - 1], p, from, till, all) + if Counted(log[|log| - 1], p, from, till, all) then 1 else 0
  }

  function Weight(log: seq<Emission>, p: PeerId, from: int, till: int, all: bool): real
  {
    if |log| == 0 then 0.0
    else
      var e := log[|log| - 1];
      Weight(log[..|log| - 1], p, from, till, all) + if Counted(e, p, from, till, all) then Abs(e.score) else 0.0
  }

  /** After each of these ratings about `p`, the next one about `p` is at least a window away. */
  ghost predicate SpacedFor(log: seq<Emission>, p: PeerId, all: bool)
  {
    forall i, j | 0 <= i < j < |log| && (all || log[i].acked) && log[i].subject == p && log[j].subject == p ::
      log[j].time - log[i].time >= WINDOW
  }

  lemma {:induction false} CountShrinks(log: seq<Emission>, p: PeerId, from: int, till: int, sooner: int, all: bool)
    requires sooner <= till
    requires forall i | 0 <= i < |log| && (all || log[i].acked) && log[i].subject == p :: log[i].time <= sooner
    ensures Count(log, p, from, till, all) == Count(log, p, from, sooner, all)
    ensures sooner < from ==> Count(log, p, from, till, all) == 0
  {
    if |log| > 0 {
      CountShrinks(log[..|log| - 1], p, from, till, sooner, all);
    }
  }

  lemma {:induction false} CountIsBounded(log: seq<Emission>, p: PeerId, from: int, till: int, all: bool)
    requires SpacedFor(log, p, all) && from <= till
    ensures Count(log, p, from, till, all) * WINDOW <= till - from + WINDOW
  {
    if |log| > 0 {
      var front, last := log[..|log| - 1], log[|log| - 1];
      if Counted(last, p, from, till, all) {
        var sooner := last.time - WINDOW;
        CountShrinks(front, p, from, till, sooner, all);
        if from <= sooner {
          CountIsBounded(front, p, from, sooner, all);
        }
      } else {
        CountIsBounded(front, p, from, till, all);
      }
    }
  }

  lemma {:induction false} WeightIsBounded(log: seq<Emission>, p: PeerId, from: int, till: int, all: bool)
    requires Scored(log)
    ensures Weight(log, p, from, till, all) <= HOURLY_CAP * Count(log, p, from, till, all) as real
  {
    if |log| > 0 {
      var e := log[|log| - 1];
      assert e in log;
      ScoreIsCappedNet(e.successes, e.failures);
      WeightIsBounded(log[..|log| - 1], p, from, till, all);
    }
  }

  lemma SpacedScoreIsCapped(log: seq<Emission>, p: PeerId, from: int, till: int, all: bool)
    requires SpacedFor(log, p, all) && Scored(log) && from <= till
    ensures Weight(log, p, from, till, all) <= HOURLY_CAP * ((till - from) / WINDOW + 1) as real
  {
    CountIsBounded(log, p, from, till, all);
    WeightIsBounded(log, p, from, till, all);
    assert Count(log, p, from, till, all) <= (till - from) / WINDOW + 1;
  }

  /** However outcomes and ticks interleave, the score that successful appends give in any span is capped per window. */
  lemma ScoreInSpanIsCapped(events: seq<Event>, p: PeerId, from: int, till: int)
    requires LegalRun(Start, events) && from <= till
    ensures Weight(Run(Start, events).log, p, from, till, false) <= HOURLY_CAP * ((till - from) / WINDOW + 1) as real
  {
    RunKeeps(events);
    SpacedScoreIsCapped(Run(Start, events).log, p, from, till, false);
  }

  // ------------------------------------------------------------ one rating per window in the ledger

  /** A half-written rating about `p` lies less than a window before a tick at `now`. */
  ghost predicate HalfWrittenWithin(log: seq<Emission>, p: PeerId, now: int)
  {
    exists e :: e in log && !e.acked && e.subject == p && now < e.time + WINDOW
  }

  /** The step writes a rating about `p` into the ledger in a tick that comes too soon after a half-written one. */
  ghost predicate Clashes(w: Writer, e: Event, p: PeerId)
  {
    && e.AppendNext? && e.result != Refused
    && |w.queue| > 0 && w.queue[0].subject == p && HalfWrittenWithin(w.log, p, w.tickTime)
  }

  lemma SpacedIffStep(w: Writer, e: Event, p: PeerId)
    requires Inv(w) && Legal(w, e)
    ensures SpacedFor(Step(w, e).log, p, true) <==> SpacedFor(w.log, p, true) && !Clashes(w, e, p)
  {
    StepKeeps(w, e);
    var before, after := w.log, Step(w, e).log;
    assert after[..|before|] == before;
    if Clashes(w, e, p) {
      ClashIsTooSoon(w, e, p);
    } else if SpacedFor(after, p, true) {
      SpacedBefore(before, after, p);
    }
    if SpacedFor(before, p, true) && !Clashes(w, e, p) && after != before {
      LastIsSpaced(w, after, p);
    }
  }

  lemma ClashIsTooSoon(w: Writer, e: Event, p: PeerId)
    requires Legal(w, e) && Clashes(w, e, p)
    ensures !SpacedFor(Step(w, e).log, p, true)
  {
    var n, after := |w.log|, Step(w, e).log;
    var h :| h in w.log && !h.acked && h.subject == p && w.tickTime < h.time + WINDOW;
    var i :| 0 <= i < n && w.log[i] == h;
    assert after[i] == h && after[n].subject == p && after[n].time - after[i].time < WINDOW;
  }

  lemma SpacedBefore(before: seq<Emission>, after: seq<Emission>, p: PeerId)
    requires before <= after && SpacedFor(after, p, true)
    ensures SpacedFor(before, p, true)
  {
    forall i, j | 0 <= i < j < |before| && before[i].subject == p && before[j].subject == p
      ensures before[j].time - before[i].time >= WINDOW
    {
      assert after[i] == before[i] && after[j] == before[j];
    }
  }

  lemma LastIsSpaced(w: Writer, after: seq<Emission>, p: PeerId)
    requires SpacedFor(w.log, p, true) && Spaced(after) && |after| == |w.log| + 1 && after[..|w.log|] == w.log
    requires after[|w.log|].subject == p ==>
               after[|w.log|].time == w.tickTime && !HalfWrittenWithin(w.log, p, w.tickTime)
    ensures SpacedFor(after, p, true)
  {
    var n := |w.log|;
    forall i, j | 0 <= i < j < |after| && after[i].subject == p && after[j].subject == p
      ensures after[j].time - after[i].time >= WINDOW
    {
      if j < n {
        assert after[i] == w.log[i] && after[j] == w.log[j];
      } else if !after[i].acked {
        assert after[i] == w.log[i] && w.log[i] in w.log;
      }
    }
  }

  /**
   All ratings about a peer in the ledger, acknowledged or not, are a window apart if
   and only if no half-written one is followed by another in a tick less than a window
   later.
   */
  lemma {:induction false} OncePerWindowIff(events: seq<Event>, p: PeerId)
    requires LegalRun(Start, events)
    ensures SpacedFor(Run(Start, events).log, p, true)
       <==> forall k: nat | k < |events| :: !ClashesAt(events, k, p)
  {
    if |events| > 0 {
      var front, last := events[..|events| - 1], events[|events| - 1];
      RunKeeps(front);
      OncePerWindowIff(front, p);
      SpacedIffStep(Run(Start, front), last, p);
      ClashesBefore(front, last, p);
      assert events == front + [last];
    }
  }

  /** The `k`-th step of a run clashes. */
  ghost predicate ClashesAt(events: seq<Event>, k: nat, p: PeerId)
    requires k < |events|
  {
    LegalRun(Start, events[..k]) && Clashes(Run(Start, events[..k]), events[k], p)
  }

  lemma ClashesBefore(front: seq<Event>, last: Event, p: PeerId)
    requires LegalRun(Start, front)
    ensures (forall k: nat | k < |front| + 1 :: !ClashesAt(front + [last], k, p))
       <==> (forall k: nat | k < |front| :: !ClashesAt(front, k, p)) && !Clashes(Run(Start, front), last, p)
  {
    ClashesLast(front, last, p);
    forall k: nat | k < |front| ensures ClashesAt(front + [last], k, p) <==> ClashesAt(front, k, p) {
      ClashesSame(front, last, k, p);
    }
  }

  lemma ClashesLast(front: seq<Event>, last: Event, p: PeerId)
    requires LegalRun(Start, front)
    ensures ClashesAt(front + [last], |front|, p) <==> Clashes(Run(Start, front), last, p)
  {
    assert (front + [last])[..|front|] == front;
  }

  lemma ClashesSame(front: seq<Event>, last: Event, k: nat, p: PeerId)
    requires k < |front|
    ensures ClashesAt(front + [last], k, p) <==> ClashesAt(front, k, p)
  {
    assert (front + [last])[..k] == front[..k];
  }

  /** The ledger never gives a peer more than one capped score a window as long as no such clash occurs. */
  lemma LedgerScoreIsCapped(events: seq<Event>, p: PeerId, from: int, till: int)
    requires LegalRun(Start, events) && from <= till
    requires forall k: nat | k < |events| :: !ClashesAt(events, k, p)
    ensures Weight(Run(Start, events).log, p, from, till, true) <= HOURLY_CAP * ((till - from) / WINDOW + 1) as real
  {
    RunKeeps(events);
    OncePerWindowIff(events, p);
    SpacedScoreIsCapped(Run(Start, events).log, p, from, till, true);
  }

  /** Before a tick it can be seen whether any rating about `p` in it would clash. */
  ghost predicate SafeStart(w: Writer, e: Event, p: PeerId)
  {
    e.StartTick? ==> !HalfWrittenWithin(w.log, p, e.now)
  }

  ghost predicate TickIsSafe(w: Writer, p: PeerId)
  {
    w.queue != [] ==> !HalfWrittenWithin(w.log, p, w.tickTime)
  }

  lemma StepStaysSafe(w: Writer, e: Event, p: PeerId)
    requires Legal(w, e) && TickIsSafe(w, p) && SafeStart(w, e, p)
    ensures TickIsSafe(Step(w, e), p) && !Clashes(w, e, p)
  {
    if e.AppendNext? && e.result == Acked {
      var after := Step(w, e).log;
      forall h | h in after && !h.acked ensures h in w.log {
      }
    }
  }

  /** The `k`-th step of a run, if it starts a tick, starts a safe one. */
  ghost predicate StartsSafely(events: seq<Event>, k: nat, p: PeerId)
    requires k < |events|
  {
    LegalRun(Start, events[..k]) ==> SafeStart(Run(Start, events[..k]), events[k], p)
  }

  /** If every tick starts a window after the last half-written rating about `p`, its ratings are a window apart. */
  lemma {:induction false} SafeTicksSpace(events: seq<Event>, p: PeerId)
    requires LegalRun(Start, events)
    requires forall k: nat | k < |events| :: StartsSafely(events, k, p)
    ensures SpacedFor(Run(Start, events).log, p, true) && TickIsSafe(Run(Start, events), p)
  {
    if |events| > 0 {
      var front, last := events[..|events| - 1], events[|events| - 1];
      forall k: nat | k < |front| ensures StartsSafely(front, k, p) {
        assert StartsSafely(events, k, p) && events[..k] == front[..k];
      }
      SafeTicksSpace(front, p);
      assert StartsSafely(events, |front|, p);
      RunKeeps(front);
      StepStaysSafe(Run(Start, front), last, p);
      SpacedIffStep(Run(Start, front), last, p);
    }
  }

  /** Ratings carry the time of an earlier tick. */
  ghost predicate TickedAt(events: seq<Event>, now: int)
  {
    exists k :: 0 <= k < |events| && events[k].StartTick? && events[k].now == now
  }

  lemma {:induction false} TimesAreOfTicks(events: seq<Event>)
    requires LegalRun(Start, events)
    ensures forall e | e in Run(Start, events).log :: TickedAt(events, e.time)
    ensures Run(Start, events).queue != [] ==> TickedAt(events, Run(Start, events).tickTime)
  {
    if |events| > 0 {
      var front, last := events[..|events| - 1], events[|events| - 1];
      TimesAreOfTicks(front);
      forall now | TickedAt(front, now) ensures TickedAt(events, now) {
        var k :| 0 <= k < |front| && front[k].StartTick? && front[k].now == now;
        assert events[k] == front[k];
      }
      if last.StartTick? {
        assert events[|events| - 1] == last;
      }
    }
  }

  /** With ticks at least a window apart no failure makes the writer rate a peer twice in one. */
  lemma TicksAWindowApartSpace(events: seq<Event>, p: PeerId)
    requires LegalRun(Start, events)
    requires forall i, j | 0 <= i < j < |events| && events[i].StartTick? && events[j].StartTick? ::
               events[j].now - events[i].now >= WINDOW
    ensures SpacedFor(Run(Start, events).log, p, true)
  {
    forall k: nat | k < |events| ensures StartsSafely(events, k, p) {
      if LegalRun(Start, events[..k]) {
        TimesAreOfTicks(events[..k]);
      }
    }
    SafeTicksSpace(events, p);
  }

  // ------------------------------------------------------------ a failed append

  /** What the writer's own ledger makes of an append, seen from its log. */
  function ResultOf(n: LedgerModel.Node, payload: Envelopes.Body, f: LedgerModel.AppendFaults, now: int): AppendResult
    requires n.mem.Some? && payload.Carried?
  {
    var after := LedgerModel.AppendOutcome(n, LedgerModel.Wrappers.Some(payload), f, now);
    if after.1.Ok? then Acked
    else if |after.0.disk.rows| > |n.disk.rows| then HalfWritten
    else Refused
  }

  /** Short of a crash, an append is half written exactly when its entry is stored but no head over it is. */
  lemma HalfWrittenIff(n: LedgerModel.Node, payload: Envelopes.Body, f: LedgerModel.AppendFaults, now: int)
    requires n.mem.Some? && payload.Carried? && !f.persistEntry.Crashed? && !f.persistHead.Crashed?
    ensures ResultOf(n, payload, f, now) == HalfWritten <==>
              && f.keySigns
              && LedgerModel.EntryWrite(n.disk.rows, LedgerModel.NewRow(n, payload), f.persistEntry).Done?
              && (!f.keySignsHead || f.persistHead.Failed?)
  {
  }

  function FirstOfTick(order: seq<PeerId>, now: int, result: AppendResult): seq<Event>
  {
    [StartTick(order, now), AppendNext(result)]
  }

  /** Net outcomes that the ratings in the ledger stand for, acknowledged or not. */
  function LedgerNet(log: seq<Emission>, p: PeerId): int
  {
    if |log| == 0 then 0
    else
      var e := log[|log| - 1];
      LedgerNet(log[..|log| - 1], p) + if e.subject == p then e.successes - e.failures else 0
  }

  function HalfWrittenNet(log: seq<Emission>, p: PeerId): int
  {
    if |log| == 0 then 0
    else
      var e := log[|log| - 1];
      HalfWrittenNet(log[..|log| - 1], p) + if !e.acked && e.subject == p then e.successes - e.failures else 0
  }

  lemma {:induction false} LedgerNetSplits(log: seq<Emission>, p: PeerId)
    ensures LedgerNet(log, p) == EmittedNet(log, p) + HalfWrittenNet(log, p)
  {
    if |log| > 0 {
      LedgerNetSplits(log[..|log| - 1], p);
    }
  }

  /** What the ledger says and what is pending exceed what was recorded by exactly the half-written ratings. */
  lemma LedgerCountsOnceIff(events: seq<Event>, p: PeerId)
    requires LegalRun(Start, events)
    ensures var w := Run(Start, events);
            && LedgerNet(w.log, p) + PendingNet(w, p) == RecordedNet(events, p) + HalfWrittenNet(w.log, p)
            && (LedgerNet(w.log, p) + PendingNet(w, p) == RecordedNet(events, p) <==> HalfWrittenNet(w.log, p) == 0)
  {
    NetIsConserved(events, p);
    LedgerNetSplits(Run(Start, events).log, p);
  }

  /**
   Wherever an append writes its entry and then fails, a tick at any later time, or
   the same, rates the same outcomes again: the ledger holds both ratings and counts
   their net twice, with nothing left pending.
   */
  lemma HalfWrittenRepeats(w: Writer, order: seq<PeerId>, now: int, order2: seq<PeerId>, now2: int)
    requires Inv(w) && |order| > 0 && Legal(w, StartTick(order, now)) && now2 >= now
    requires Due(w.buckets[order[0]], now) && !NetsZero(w.buckets[order[0]])
    requires |order2| > 0 && VisitsAll(order2, w.buckets) && order2[0] == order[0]
    ensures var events := FirstOfTick(order, now, HalfWritten) + FirstOfTick(order2, now2, Acked);
            var p, b := order[0], w.buckets[order[0]];
            var q := Pending(p, b.successes, b.failures);
            && LegalRun(w, events)
            && Run(w, events).log == w.log + [Emitted(q, now, false), Emitted(q, now2, true)]
            && LedgerNet(Run(w, events).log, p) == LedgerNet(w.log, p) + 2 * (b.successes - b.failures)
            && PendingNet(Run(w, events), p) == 0
  {
    var tick, tick2, b := StartTick(order, now), StartTick(order2, now2), w.buckets[order[0]];
    var q := Pending(order[0], b.successes, b.failures);
    var w1 := AppendAfterTick(w, order, now, HalfWritten);
    StepKeeps(w, tick);
    StepKeeps(Step(w, tick), AppendNext(HalfWritten));
    assert Due(b, now2);
    var w2 := AppendAfterTick(w1, order2, now2, Acked);
    RunTwice(w, [], tick, AppendNext(HalfWritten));
    assert [] + FirstOfTick(order, now, HalfWritten) == FirstOfTick(order, now, HalfWritten);
    RunTwice(w, FirstOfTick(order, now, HalfWritten), tick2, AppendNext(Acked));
    BothLogged(w.log, Emitted(q, now, false), Emitted(q, now2, true));
    CountedTwice(w.log, q, now, now2);
  }

  lemma CountedTwice(log: seq<Emission>, q: Pending, now: int, now2: int)
    ensures LedgerNet(log + [Emitted(q, now, false), Emitted(q, now2, true)], q.subject)
         == LedgerNet(log, q.subject) + 2 * (q.successes - q.failures)
  {
    var one := log + [Emitted(q, now, false)];
    var two := log + [Emitted(q, now, false), Emitted(q, now2, true)];
    assert two[..|two| - 1] == one && one[..|one| - 1] == log;
  }

  lemma BothLogged(log: seq<Emission>, e: Emission, f: Emission)
    ensures log + [e] + [f] == log + [e, f]
  {
  }

  lemma RunTwice(w: Writer, events: seq<Event>, e: Event, f: Event)
    requires LegalRun(w, events) && Legal(Run(w, events), e) && Legal(Step(Run(w, events), e), f)
    ensures LegalRun(w, events + [e, f]) && Run(w, events + [e, f]) == Step(Step(Run(w, events), e), f)
  {
    RunExtends(w, events, e);
    RunExtends(w, events + [e], f);
    assert events + [e, f] == (events + [e]) + [f];
  }

  /** A tick rates the first due peer it visits first. */
  lemma AppendAfterTick(w: Writer, order: seq<PeerId>, now: int, result: AppendResult) returns (after: Writer)
    requires Inv(w) && |order| > 0 && Legal(w, StartTick(order, now)) && result != Refused
    requires Due(w.buckets[order[0]], now) && !NetsZero(w.buckets[order[0]])
    ensures Legal(Step(w, StartTick(order, now)), AppendNext(result))
    ensures after == Step(Step(w, StartTick(order, now)), AppendNext(result))
    ensures var b := w.buckets[order[0]];
            && after.log == w.log + [Emitted(Pending(order[0], b.successes, b.failures), now, result == Acked)]
            && after.buckets.Keys == w.buckets.Keys && after.buckets[order[0]] == b
    ensures result == HalfWritten ==> after.queue == [] && !after.appended
    ensures result == Acked ==> PendingNet(after, order[0]) == 0
  {
    SnapshotStarts(w.buckets, order, now);
    after := Step(Step(w, StartTick(order, now)), AppendNext(result));
  }

  lemma {:induction false} SnapshotStarts(buckets: map<PeerId, Bucket>, order: seq<PeerId>, now: int)
    requires |order| > 0 && order[0] in buckets && Due(buckets[order[0]], now) && !NetsZero(buckets[order[0]])
    ensures var qs := Snapshot(buckets, order, now);
            |qs| > 0 && qs[0] == Pending(order[0], buckets[order[0]].successes, buckets[order[0]].failures)
  {
    if |order| > 1 {
      SnapshotStarts(buckets, order[..|order| - 1], now);
    } else {
      assert Snapshot(buckets, order[..0], now) == [];
    }
  }

  lemma RunExtends(w: Writer, events: seq<Event>, e: Event)
    requires LegalRun(w, events) && Legal(Run(w, events), e)
    ensures LegalRun(w, events + [e]) && Run(w, events + [e]) == Step(Run(w, events), e)
  {
    assert (events + [e])[..|events|] == events;
  }

  // ------------------------------------------------------------ an undisturbed tick

  /** The rest of a tick whose appends all succeed while nothing is recorded. */
  ghost function Drain(w: Writer): Writer
    requires Inv(w) && !w.appended
    decreases |w.queue|
  {
    if |w.queue| == 0 then w
    else
      AppendKeeps(w, Acked);
      SettleKeeps(Step(w, AppendNext(Acked)));
      Drain(Step(Step(w, AppendNext(Acked)), Settle))
  }

  function AllEmitted(queue: seq<Pending>, now: int): seq<Emission>
  {
    if |queue| == 0 then [] else [Emitted(queue[0], now, true)] + AllEmitted(queue[1..], now)
  }

  ghost predicate Queued(queue: seq<Pending>, p: PeerId)
  {
    exists i :: 0 <= i < |queue| && queue[i].subject == p
  }

  lemma {:induction false} DrainLogs(w: Writer)
    requires Inv(w) && !w.appended
    ensures var d := Drain(w);
            d.queue == [] && !d.appended && d.log == w.log + AllEmitted(w.queue, w.tickTime)
    decreases |w.queue|
  {
    if |w.queue| > 0 {
      AppendKeeps(w, Acked);
      SettleKeeps(Step(w, AppendNext(Acked)));
      DrainLogs(Step(Step(w, AppendNext(Acked)), Settle));
    }
  }

  lemma {:induction false} DrainSettles(w: Writer, p: PeerId)
    requires Inv(w) && !w.appended && p in w.buckets
    ensures p in Drain(w).buckets
    ensures !Queued(w.queue, p) ==> Drain(w).buckets[p] == w.buckets[p]
    ensures forall q | q in w.queue && q.subject == p :: Drain(w).buckets[p] == Settled(w.buckets[p], q, w.tickTime)
    decreases |w.queue|
  {
    if |w.queue| > 0 {
      AppendKeeps(w, Acked);
      SettleKeeps(Step(w, AppendNext(Acked)));
      DrainSettles(Step(Step(w, AppendNext(Acked)), Settle), p);
      QueueShifts(w.queue);
    }
  }

  lemma QueueShifts(queue: seq<Pending>)
    requires |queue| > 0
    ensures forall p :: Queued(queue, p) <==> p == queue[0].subject || Queued(queue[1..], p)
  {
    forall p ensures Queued(queue, p) <==> p == queue[0].subject || Queued(queue[1..], p) {
      if Queued(queue, p) {
        var i :| 0 <= i < |queue| && queue[i].subject == p;
        assert i > 0 ==> queue[1..][i - 1].subject == p;
      }
      if Queued(queue[1..], p) {
        var i :| 0 <= i < |queue| - 1 && queue[1..][i].subject == p;
        assert queue[i + 1].subject == p;
      }
    }
  }

  /** An undisturbed tick empties the counts of exactly the peers that are due and restarts the windows it rated in. */
  lemma {:induction false} TickDrainsDuePeers(w: Writer, order: seq<PeerId>, now: int, p: PeerId)
    requires Inv(w) && Legal(w, StartTick(order, now)) && p in w.buckets
    ensures Inv(Step(w, StartTick(order, now)))
    ensures var d, b := Drain(Step(w, StartTick(order, now))), w.buckets[p];
            && p in d.buckets
            && d.buckets[p] == (if !Due(b, now) then b else Bucket(0, 0, if NetsZero(b) then b.lastEmit else now))
  {
    StartTickKeeps(w, order, now);
    TickQueues(w, order, now, p);
    DrainSettles(Step(w, StartTick(order, now)), p);
  }

  /** A tick queues a rating of exactly the due peers with a net outcome. */
  lemma {:induction false} TickQueues(w: Writer, order: seq<PeerId>, now: int, p: PeerId)
    requires Inv(w) && Legal(w, StartTick(order, now)) && p in w.buckets
    ensures var started, b := Step(w, StartTick(order, now)), w.buckets[p];
            && p in started.buckets && started.buckets[p] == Visited(b, now) && started.tickTime == now
            && (if Due(b, now) && !NetsZero(b) then Pending(p, b.successes, b.failures) in started.queue
                else !Queued(started.queue, p))
  {
    SnapshotOf(w.buckets, order, now);
  }

  // ------------------------------------------------------------ the writer

  /** An outcome reported by a dispatch handler while a tick is under way. */
  datatype Report = Report(subject: PeerId, success: bool, at: int)

  /** How one append of a tick goes, and what is reported while the lock is free before and after it. */
  datatype Turn = Turn(before: seq<Report>, result: AppendResult, after: seq<Report>)

  /** The first `i` buckets in visiting order have been visited. */
  ghost predicate PartlyVisited(before: map<PeerId, Bucket>, after: map<PeerId, Bucket>, order: seq<PeerId>, i: nat,
                                now: int)
    requires i <= |order|
  {
    && after.Keys == before.Keys
    && (forall p | p in before :: after[p] == if p in order[..i] then Visited(before[p], now) else before[p])
  }

  lemma {:induction false} VisitOneMore(before: map<PeerId, Bucket>, after: map<PeerId, Bucket>, order: seq<PeerId>, i: nat,
                                        now: int)
    requires i < |order| && VisitsAll(order, before) && PartlyVisited(before, after, order, i, now)
    ensures order[i] in before && after[order[i]] == before[order[i]]
    ensures PartlyVisited(before, after[order[i] := Visited(before[order[i]], now)], order, i + 1, now)
    ensures Snapshot(before, order[..i + 1], now)
         == Snapshot(before, order[..i], now) + PendingOf(order[i], before[order[i]], now)
  {
    SnapshotOneMore(before, order, i, now);
    OneMoreInFront(order, before, i);
  }

  lemma {:induction false} OneMoreInFront(order: seq<PeerId>, before: map<PeerId, Bucket>, i: nat)
    requires i < |order| && VisitsAll(order, before)
    ensures order[i] in before && order[i] !in order[..i]
    ensures forall p :: p in order[..i + 1] <==> p in order[..i] || p == order[i]
  {
    assert order[..i + 1] == order[..i] + [order[i]];
  }

  lemma AllAreVisited(before: map<PeerId, Bucket>, after: map<PeerId, Bucket>, order: seq<PeerId>, now: int)
    requires VisitsAll(order, before) && PartlyVisited(before, after, order, |order|, now)
    ensures after == AllVisited(before, now) && Snapshot(before, order[..|order|], now) == Snapshot(before, order, now)
  {
    assert order[..|order|] == order;
  }

  lemma SnapshotOneMore(before: map<PeerId, Bucket>, order: seq<PeerId>, i: nat, now: int)
    requires i < |order| && order[i] in before
    ensures Snapshot(before, order[..i + 1], now)
         == Snapshot(before, order[..i], now) + PendingOf(order[i], before[order[i]], now)
  {
    assert order[..i + 1][..i] == order[..i];
  }

  class CompletionRatingWriter {
    var state: map<PeerId, Bucket>
    ghost var model: Writer

    ghost predicate Valid()
      reads this
    {
      Inv(model) && model.buckets == state
    }

    constructor ()
      ensures Valid() && model == Start
    {
      state := map[];
      model := Start;
    }

    method RecordOutcome(subject: PeerId, success: bool, at: int)
      requires Valid()
      modifies this
      ensures Valid() && model == Step(old(model), Event.RecordOutcome(subject, success, at))
    {
      StepKeeps(model, Event.RecordOutcome(subject, success, at));
      var b := if subject in state then state[subject] else Bucket(0, 0, at);
      if success {
        b := b.(successes := b.successes + 1);
      } else {
        b := b.(failures := b.failures + 1);
      }
      state := state[subject := b];
      model := Step(model, Event.RecordOutcome(subject, success, at));
    }

    /** The locked first half of a tick. */
    method TakeSnapshot(order: seq<PeerId>, now: int) returns (toWrite: seq<Pending>)
      requires Valid() && Legal(model, StartTick(order, now))
      modifies this
      ensures Valid() && model == Step(old(model), StartTick(order, now)) && toWrite == model.queue
    {
      StepKeeps(model, StartTick(order, now));
      toWrite := VisitBuckets(order, now);
      model := Step(model, StartTick(order, now));
    }

    method VisitBuckets(order: seq<PeerId>, now: int) returns (toWrite: seq<Pending>)
      requires VisitsAll(order, state)
      modifies this`state
      ensures state == AllVisited(old(state), now) && toWrite == Snapshot(old(state), order, now)
    {
      toWrite := [];
      var i := 0;
      ghost var before := state;
      while i < |order|
        invariant 0 <= i <= |order|
        invariant PartlyVisited(before, state, order, i, now)
        invariant toWrite == Snapshot(before, order[..i], now)
      {
        VisitOneMore(before, state, order, i, now);
        var pending := VisitBucket(order[i], now);
        toWrite := toWrite + pending;
        i := i + 1;
      }
      AllAreVisited(before, state, order, now);
    }

    method VisitBucket(p: PeerId, now: int) returns (pending: seq<Pending>)
      requires p in state
      modifies this`state
      ensures state == old(state)[p := Visited(old(state)[p], now)]
      ensures pending == PendingOf(p, old(state)[p], now)
    {
      var b := state[p];
      assert state[p := b] == state;
      if !Due(b, now) {
        return [];
      }
      if AggregateScore(b.successes, b.failures) == 0.0 {
        state := state[p := b.(successes := 0, failures := 0)];
        return [];
      }
      return [Pending(p, b.successes, b.failures)];
    }

    /** Reports that arrive while the lock is free. */
    method TakeReports(reports: seq<Report>, ghost trace: seq<Event>, ghost from: Writer)
      returns (ghost longer: seq<Event>)
      requires Valid() && LegalRun(from, trace) && Run(from, trace) == model
      modifies this
      ensures Valid() && LegalRun(from, longer) && Run(from, longer) == model
      ensures model == old(model).(buckets := model.buckets)
      ensures reports == [] ==> model == old(model)
    {
      longer := trace;
      var i := 0;
      while i < |reports|
        invariant 0 <= i <= |reports|
        invariant Valid() && LegalRun(from, longer) && Run(from, longer) == model
        invariant model == old(model).(buckets := model.buckets)
        invariant i == 0 ==> model == old(model)
      {
        ghost var e := Event.RecordOutcome(reports[i].subject, reports[i].success, reports[i].at);
        RunExtends(from, longer, e);
        RecordOutcome(reports[i].subject, reports[i].success, reports[i].at);
        longer := longer + [e];
        i := i + 1;
      }
    }

    ghost method Log(result: AppendResult)
      requires Valid() && Legal(model, AppendNext(result))
      modifies this`model
      ensures Valid() && model == Step(old(model), AppendNext(result))
    {
      StepKeeps(model, AppendNext(result));
      model := Step(model, AppendNext(result));
    }

    method SettleOne(p: Pending, now: int)
      requires Valid() && Legal(model, Settle) && p == model.queue[0] && now == model.tickTime
      modifies this
      ensures Valid() && model == Step(old(model), Settle)
    {
      StepKeeps(model, Settle);
      var b := state[p.subject];
      state := state[p.subject := Bucket(b.successes - p.successes, b.failures - p.failures, now)];
      model := Step(model, Settle);
    }

    /** Appends one rating and, if that succeeds, settles it. */
    method WriteOne(p: Pending, now: int, turn: Turn, ghost trace: seq<Event>, ghost from: Writer)
      returns (ghost longer: seq<Event>)
      requires Valid() && |model.queue| > 0 && !model.appended && p == model.queue[0] && now == model.tickTime
      requires LegalRun(from, trace) && Run(from, trace) == model
      modifies this
      ensures Valid() && !model.appended && model.tickTime == now
      ensures model.queue == if turn.result == Acked then old(model.queue)[1..] else []
      ensures LegalRun(from, longer) && Run(from, longer) == model
    {
      longer := TakeReports(turn.before, trace, from);
      RunExtends(from, longer, AppendNext(turn.result));
      Log(turn.result);
      longer := longer + [AppendNext(turn.result)];
      if turn.result == Acked {
        longer := TakeReports(turn.after, longer, from);
        RunExtends(from, longer, Settle);
        SettleOne(p, now);
        longer := longer + [Settle];
      }
    }

    /**
     One tick from start to end is a legal run of the machine, whatever is reported
     meanwhile, and it fails exactly when one of its appends does.
     */
    method Tick(order: seq<PeerId>, now: int, turns: nat -> Turn) returns (ok: bool, ghost trace: seq<Event>)
      requires Valid() && Legal(model, StartTick(order, now))
      modifies this
      ensures Valid() && model.queue == [] && !model.appended
      ensures LegalRun(old(model), trace) && Run(old(model), trace) == model
      ensures ok <==> forall i | 0 <= i < |Snapshot(old(state), order, now)| :: turns(i).result == Acked
    {
      trace := [];
      RunExtends(model, trace, StartTick(order, now));
      ghost var from := model;
      var toWrite := TakeSnapshot(order, now);
      ok, trace := WriteAll(toWrite, now, turns, [StartTick(order, now)], from);
    }

    /** The second half of a tick, which stops at the first append that fails. */
    method WriteAll(toWrite: seq<Pending>, now: int, turns: nat -> Turn, ghost trace: seq<Event>, ghost from: Writer)
      returns (ok: bool, ghost longer: seq<Event>)
      requires Valid() && model.queue == toWrite && !model.appended && model.tickTime == now
      requires LegalRun(from, trace) && Run(from, trace) == model
      modifies this
      ensures Valid() && model.queue == [] && !model.appended
      ensures LegalRun(from, longer) && Run(from, longer) == model
      ensures ok <==> forall i | 0 <= i < |toWrite| :: turns(i).result == Acked
    {
      longer := trace;
      var i := 0;
      while i < |toWrite|
        invariant 0 <= i <= |toWrite|
        invariant Valid() && model.queue == toWrite[i..] && !model.appended && model.tickTime == now
        invariant LegalRun(from, longer) && Run(from, longer) == model
        invariant forall j | 0 <= j < i :: turns(j).result == Acked
      {
        longer := WriteOne(toWrite[i], now, turns(i), longer, from);
        if turns(i).result != Acked {
          return false, longer;
        }
        i := i + 1;
      }
      return true, longer;
    }
  }
}
