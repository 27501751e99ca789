/**
 The two catch-up walks.  The remote is any function from the number of the
 request and the cursor to a reply, so nothing is assumed of it except where a
 lemma says so; `cancelled` says before which request the context is found done.
 */
module CatchUp {
  import opened Arithmetic
  import opened Wire
  import Envelopes

  datatype Fetch = FetchFailed | Page(items: seq<Item>)

  type Remote = (nat, nat) -> Fetch

  datatype Outcome =
    | Complete
    | Cancelled
    | TransportError
    | PastHead       // an entry beyond the signed size was served
    | Stalled        // a full page did not advance the cursor
    | HeadUnavailable
    | HeadSignatureInvalid

  // ------------------------------------------------------------ walks in general

  /** What a walk did: how it ended, what it offered to the inbox, how many pages it fetched. */
  datatype Walk = Walk(outcome: Outcome, offered: seq<Item>, fetches: nat)

  /** What one reply leads to: the end of the walk, or the next cursor; either way with entries to offer. */
  datatype Turn = Stop(outcome: Outcome, offered: seq<Item>) | Go(offered: seq<Item>, next: nat)

  /** The turn a walk takes at its `k`-th request from a given cursor. */
  type Turns = (nat, nat) -> Turn

  /** A walk that goes on has moved its cursor up, below the limit. */
  ghost predicate Advances(turns: Turns, limit: nat)
  {
    forall k: nat, cursor: nat :: turns(k, cursor).Go? ==> cursor < turns(k, cursor).next < limit
  }

  function Then(offered: seq<Item>, w: Walk): Walk
  {
    Walk(w.outcome, offered + w.offered, w.fetches + 1)
  }

  /** The walk from the `k`-th request on. */
  ghost function WalkFrom(turns: Turns, limit: nat, cancelled: nat -> bool, k: nat, cursor: nat): Walk
    requires Advances(turns, limit) && cursor < limit
    decreases limit - cursor
  {
    if cancelled(k) then Walk(Cancelled, [], 0)
    else
      var turn := turns(k, cursor);
      if turn.Stop? then Walk(turn.outcome, turn.offered, 1)
      else Then(turn.offered, WalkFrom(turns, limit, cancelled, k + 1, turn.next))
  }

  /** A walk is to end like this: with an outcome, and a list of everything ever offered. */
  datatype Goal = Goal(outcome: Outcome, offered: seq<Item>)

  /** With `now` offered so far, the rest of a walk reaches the goal. */
  ghost predicate Reaches(goal: Goal, now: seq<Item>, rest: Walk)
  {
    goal.outcome == rest.outcome && goal.offered == now + rest.offered
  }

  lemma TakeTurn(turns: Turns, limit: nat, cancelled: nat -> bool, k: nat, cursor: nat, goal: Goal, now: seq<Item>)
    requires Advances(turns, limit) && cursor < limit
    requires Reaches(goal, now, WalkFrom(turns, limit, cancelled, k, cursor))
    ensures var turn := turns(k, cursor);
            if cancelled(k) then goal == Goal(Cancelled, now)
            else if turn.Stop? then goal == Goal(turn.outcome, now + turn.offered)
            else Reaches(goal, now + turn.offered, WalkFrom(turns, limit, cancelled, k + 1, turn.next))
  {
  }

  /** However the remote replies, no more pages are fetched than there are cursors left. */
  lemma {:induction false} WalkIsBounded(turns: Turns, limit: nat, cancelled: nat -> bool, k: nat, cursor: nat)
    requires Advances(turns, limit) && cursor < limit
    ensures WalkFrom(turns, limit, cancelled, k, cursor).fetches <= limit - cursor
    decreases limit - cursor
  {
    if !cancelled(k) && turns(k, cursor).Go? {
      WalkIsBounded(turns, limit, cancelled, k + 1, turns(k, cursor).next);
    }
  }

  /** What holds of everything a turn offers holds of everything the walk offers. */
  lemma {:induction false} WalkOffersGood(turns: Turns, limit: nat, cancelled: nat -> bool, k: nat, cursor: nat,
                                          good: Item -> bool)
    requires Advances(turns, limit) && cursor < limit
    requires forall j: nat, c: nat, e | e in turns(j, c).offered :: good(e)
    ensures forall e | e in WalkFrom(turns, limit, cancelled, k, cursor).offered :: good(e)
    decreases limit - cursor
  {
    if !cancelled(k) && turns(k, cursor).Go? {
      WalkOffersGood(turns, limit, cancelled, k + 1, turns(k, cursor).next, good);
    }
  }

  // ------------------------------------------------------------ the log walk

  /** The reply to the head request that precedes the walk. */
  datatype HeadReply = HeadFailed | NoHeadYet | Head(head: Envelopes.LogHead)

  /** The leading entries within the signed size. */
  function WithinHead(items: seq<Item>, size: nat): (r: seq<Item>)
    ensures |r| <= |items| && r == items[..|r|]
    ensures forall i | 0 <= i < |r| :: r[i].id <= size
    ensures |r| < |items| ==> items[|r|].id > size
  {
    if |items| == 0 || items[0].id > size then [] else [items[0]] + WithinHead(items[1..], size)
  }

  function LogTurn(size: nat, reply: Fetch, last: nat): (t: Turn)
    ensures t.Go? ==> last < t.next < size
  {
    match reply
    case FetchFailed => Stop(TransportError, [])
    case Page(items) =>
      if |items| == 0 then Stop(Complete, [])
      else
        var good := WithinHead(items, size);
        var next := items[|items| - 1].id;
        if |good| < |items| then Stop(PastHead, good)
        else if next >= size then Stop(Complete, good)
        else if next <= last then Stop(Stalled, good)
        else Go(good, next)
  }

  function LogTurns(size: nat, remote: Remote): Turns
  {
    (k: nat, last: nat) => LogTurn(size, remote(k, last + 1), last)
  }

  lemma LogAdvances(size: nat, remote: Remote)
    ensures Advances(LogTurns(size, remote), size)
  {
    forall k: nat, last: nat | LogTurns(size, remote)(k, last).Go?
      ensures last < LogTurns(size, remote)(k, last).next < size
    {
      assert LogTurns(size, remote)(k, last) == LogTurn(size, remote(k, last + 1), last);
    }
  }

  /** The walk over the remote's own log, everything up to `last` having been offered before request `k`. */
  ghost function LogWalk(size: nat, remote: Remote, cancelled: nat -> bool): Walk
    requires size > 0
  {
    LogAdvances(size, remote);
    WalkFrom(LogTurns(size, remote), size, cancelled, 0, 0)
  }

  lemma TurnStaysWithinHead(size: nat, reply: Fetch, last: nat)
    ensures forall e | e in LogTurn(size, reply, last).offered :: e.id <= size
  {
    if reply.Page? {
      var good := WithinHead(reply.items, size);
      assert forall e | e in good :: e.id <= size;
      assert |good| == |reply.items| ==> good == reply.items;
    }
  }

  /**
   Whatever the remote replies, the walk fetches no more pages than the signed size
   and offers nothing beyond it.
   */
  lemma LogWalkIsBounded(size: nat, remote: Remote, cancelled: nat -> bool)
    requires size > 0
    ensures var w := LogWalk(size, remote, cancelled);
            w.fetches <= size && forall e | e in w.offered :: e.id <= size
  {
    var turns := LogTurns(size, remote);
    LogAdvances(size, remote);
    WalkIsBounded(turns, size, cancelled, 0, 0);
    forall j: nat, c: nat, e | e in turns(j, c).offered ensures e.id <= size {
      TurnStaysWithinHead(size, remote(j, c + 1), c);
    }
    WalkOffersGood(turns, size, cancelled, 0, 0, (e: Item) => e.id <= size);
  }

  /** The local ledger as far as the walks see it: it logs what it was offered. */
  class Sink {
    var offered: seq<Item>

    constructor ()
      ensures offered == []
    {
      offered := [];
    }

    /** A refused entry is dropped by the walk like an accepted one. */
    method AcceptEntry(item: Item)
      modifies this
      ensures offered == old(offered) + [item]
    {
      offered := offered + [item];
    }
  }

  method CatchUpLog(local: Sink, reply: HeadReply, remote: Remote, cancelled: nat -> bool) returns (outcome: Outcome)
    modifies local
    ensures reply.HeadFailed? ==> outcome == HeadUnavailable && local.offered == old(local.offered)
    ensures reply.NoHeadYet? ==> outcome == Complete && local.offered == old(local.offered)
    ensures reply.Head? && !Envelopes.HeadVerifies(reply.head) ==>
              outcome == HeadSignatureInvalid && local.offered == old(local.offered)
    ensures reply.Head? && Envelopes.HeadVerifies(reply.head) && reply.head.treeSize == 0 ==>
              outcome == Complete && local.offered == old(local.offered)
    ensures reply.Head? && Envelopes.HeadVerifies(reply.head) && reply.head.treeSize > 0 ==>
              var w := LogWalk(reply.head.treeSize, remote, cancelled);
              outcome == w.outcome && local.offered == old(local.offered) + w.offered
  {
    if reply.HeadFailed? {
      return HeadUnavailable;
    }
    if reply.NoHeadYet? {
      return Complete;
    }
    if !Envelopes.HeadVerifies(reply.head) {
      return HeadSignatureInvalid;
    }
    var size := reply.head.treeSize;
    if size == 0 {
      return Complete;
    }
    outcome := WalkLog(local, size, remote, cancelled);
  }

  method WalkLog(local: Sink, size: nat, remote: Remote, cancelled: nat -> bool) returns (outcome: Outcome)
    requires size > 0
    modifies local
    ensures var w := LogWalk(size, remote, cancelled);
            outcome == w.outcome && local.offered == old(local.offered) + w.offered
  {
    var lastIdx: nat, k: nat := 0, 0;
    ghost var turns, whole := LogTurns(size, remote), LogWalk(size, remote, cancelled);
    LogAdvances(size, remote);
    ghost var goal := Goal(whole.outcome, local.offered + whole.offered);
    while !cancelled(k)
      invariant lastIdx < size
      invariant Reaches(goal, local.offered, WalkFrom(turns, size, cancelled, k, lastIdx))
      decreases size - lastIdx
    {
      TakeTurn(turns, size, cancelled, k, lastIdx, goal, local.offered);
      var turn := TakeLogPage(local, size, remote, k, lastIdx);
      if turn.Stop? {
        return turn.outcome;
      }
      lastIdx := turn.next;
      k := k + 1;
    }
    TakeTurn(turns, size, cancelled, k, lastIdx, goal, local.offered);
    return Cancelled;
  }

  method TakeLogPage(local: Sink, size: nat, remote: Remote, k: nat, lastIdx: nat) returns (turn: Turn)
    modifies local
    ensures turn == LogTurns(size, remote)(k, lastIdx)
    ensures local.offered == old(local.offered) + turn.offered
  {
    var reply := remote(k, lastIdx + 1);
    if reply.FetchFailed? {
      return Stop(TransportError, []);
    }
    var entries := reply.items;
    if |entries| == 0 {
      return Stop(Complete, []);
    }
    var offered := OfferWithinHead(local, entries, size);
    if offered < |entries| {
      return Stop(PastHead, entries[..offered]);
    }
    assert entries[..offered] == entries;
    var next := entries[|entries| - 1].id;
    if next >= size {
      return Stop(Complete, entries);
    }
    if next <= lastIdx {
      return Stop(Stalled, entries);
    }
    return Go(entries, next);
  }

  /** Offers a page entry by entry until one lies beyond the signed size. */
  method OfferWithinHead(local: Sink, entries: seq<Item>, size: nat) returns (n: nat)
    modifies local
    ensures n <= |entries| && entries[..n] == WithinHead(entries, size)
    ensures local.offered == old(local.offered) + entries[..n]
  {
    n := 0;
    while n < |entries| && entries[n].id <= size
      invariant 0 <= n <= |entries|
      invariant local.offered == old(local.offered) + entries[..n]
      invariant forall j | 0 <= j < n :: entries[j].id <= size
    {
      local.AcceptEntry(entries[n]);
      assert entries[..n + 1] == entries[..n] + [entries[n]];
      n := n + 1;
    }
    WithinHeadIs(entries, size, n);
  }

  lemma WithinHeadIs(items: seq<Item>, size: nat, i: nat)
    requires i <= |items| && forall j | 0 <= j < i :: items[j].id <= size
    requires i < |items| ==> items[i].id > size
    ensures WithinHead(items, size) == items[..i]
  {
    var r := WithinHead(items, size);
    if |r| < i {
      assert false;
    }
  }

  // ------------------------------------------------------------ an honest log

  /** Entries `from` to `to` of a log whose entry `i` carries `payload(i)`. */
  function Range(payload: nat -> seq<byte>, from: nat, till: nat): seq<Item>
    requires till < TWO_64
  {
    seq(if from <= till then till - from + 1 else 0,
        i requires 0 <= i && from + i <= till => Item(from + i, payload(from + i)))
  }

  lemma RangeJoins(payload: nat -> seq<byte>, a: nat, b: nat, c: nat)
    requires a <= b + 1 && b <= c < TWO_64
    ensures Range(payload, a, c) == Range(payload, a, b) + Range(payload, b + 1, c)
  {
  }

  /** The page from `from` on of a log of `length` entries. */
  function LogPage(payload: nat -> seq<byte>, length: nat, from: nat): seq<Item>
    requires length < TWO_64
  {
    Range(payload, from, Least(length, from + MAX_ENTRIES - 1))
  }

  /**
   A source that serves its own log of `length(k)` entries at request `k`, which
   never shrinks below the signed size; `collapses(k)` marks requests answered
   with an empty page because its store could not be read.
   */
  ghost predicate ServesLog(remote: Remote, payload: nat -> seq<byte>, length: nat -> nat, size: nat,
                            collapses: nat -> bool)
  {
    && (forall k: nat :: size <= length(k) < TWO_64)
    && (forall k: nat, from: nat | from >= 1 ::
          remote(k, from) in {FetchFailed, Page(if collapses(k) then [] else LogPage(payload, length(k), from))})
  }

  lemma RangeRest(payload: nat -> seq<byte>, a: nat, till: nat)
    requires a <= till < TWO_64
    ensures Range(payload, a, till) == [Item(a, payload(a))] + Range(payload, a + 1, till)
  {
  }

  /** The page a server of this repository collects is the one assumed of an honest source. */
  lemma {:induction false} HonestPage(payload: nat -> seq<byte>, a: nat, length: nat, from: nat, limit: nat)
    requires length < TWO_64 && a <= from
    ensures PageFrom(Range(payload, a, length), from, limit)
         == if limit == 0 then [] else Range(payload, from, Least(length, from + limit - 1))
    decreases length + 1 - a
  {
    if a <= length && limit > 0 {
      PageOfRange(payload, a, length, from, limit);
      if a < from {
        HonestPage(payload, a + 1, length, from, limit);
      } else {
        TakeOfRange(payload, a + 1, length, from, limit - 1);
        RangeRest(payload, a, Least(length, from + limit - 1));
      }
    }
  }

  /** One unfolding of the page over a range. */
  lemma {:induction false} PageOfRange(payload: nat -> seq<byte>, a: nat, length: nat, from: nat, limit: nat)
    requires a <= length < TWO_64 && limit > 0
    ensures PageFrom(Range(payload, a, length), from, limit)
         == if a < from then PageFrom(Range(payload, a + 1, length), from, limit)
            else [Item(a, payload(a))] + PageFrom(Range(payload, a + 1, length), from, limit - 1)
  {
    RangeRest(payload, a, length);
  }

  lemma {:induction false} TakeOfRange(payload: nat -> seq<byte>, a: nat, length: nat, from: nat, limit: nat)
    requires length < TWO_64 && from < a
    ensures PageFrom(Range(payload, a, length), from, limit)
         == if limit == 0 then [] else Range(payload, a, Least(length, a + limit - 1))
    decreases length + 1 - a
  {
    if a <= length && limit > 0 {
      PageOfRange(payload, a, length, from, limit);
      TakeOfRange(payload, a + 1, length, from, limit - 1);
      RangeRest(payload, a, Least(length, a + limit - 1));
    }
  }

  lemma WithinHeadOfRange(payload: nat -> seq<byte>, from: nat, till: nat, size: nat)
    requires 1 <= from <= size + 1 && till < TWO_64 && size < TWO_64
    ensures WithinHead(Range(payload, from, till), size) == Range(payload, from, Least(till, size))
  {
    var items, m := Range(payload, from, till), Least(till, size);
    var i := |Range(payload, from, m)|;
    assert items[..i] == Range(payload, from, m);
    WithinHeadIs(items, size, i);
  }

  /** One honest page: it advances the cursor, and the walk ends with it once it reaches the signed size. */
  lemma {:induction false} HonestTurn(size: nat, payload: nat -> seq<byte>, length: nat, last: nat)
    requires last < size <= length < TWO_64
    ensures TurnOverRange(LogTurn(size, Page(LogPage(payload, length, last + 1)), last), size, payload, length, last)
  {
    var till := Least(length, last + MAX_ENTRIES);
    RangeEndsAt(payload, last + 1, till);
    WithinHeadOfRange(payload, last + 1, till, size);
    FullPageOverRange(size, payload, length, last, Range(payload, last + 1, till));
    assert LogPage(payload, length, last + 1) == Range(payload, last + 1, till);
  }

  lemma {:induction false} FullPageOverRange(size: nat, payload: nat -> seq<byte>, length: nat, last: nat, items: seq<Item>)
    requires last < size <= length < TWO_64 && |items| > 0
    requires var till := Least(length, last + MAX_ENTRIES);
             && items[|items| - 1].id == till && items == Range(payload, last + 1, till)
             && WithinHead(items, size) == Range(payload, last + 1, Least(till, size))
    ensures TurnOverRange(LogTurn(size, Page(items), last), size, payload, length, last)
  {
    TurnOfFullPage(size, items, last);
  }

  lemma {:induction false} RangeEndsAt(payload: nat -> seq<byte>, from: nat, till: nat)
    requires 1 <= from <= till < TWO_64
    ensures var items := Range(payload, from, till);
            |items| == till - from + 1 && items[|items| - 1].id == till
  {
  }

  /** A non-empty page that ends past the cursor is followed or ends the walk normally. */
  lemma TurnOfFullPage(size: nat, items: seq<Item>, last: nat)
    requires |items| > 0 && items[|items| - 1].id > last
    ensures var t, till := LogTurn(size, Page(items), last), items[|items| - 1].id;
            && t.offered == WithinHead(items, size)
            && (t.Go? ==> t.next == till && till < size)
            && (t.Stop? ==> t.outcome in {Complete, PastHead} && (till >= size || t.outcome == PastHead))
  {
  }

  /** The turns of a walk over an honest log. */
  ghost predicate HonestTurns(turns: Turns, size: nat, payload: nat -> seq<byte>, length: nat -> nat,
                              collapses: nat -> bool)
  {
    && (forall k: nat :: size <= length(k) < TWO_64)
    && forall k: nat, last: nat | last < size ::
         || turns(k, last) == Stop(TransportError, [])
         || (collapses(k) && turns(k, last) == Stop(Complete, []))
         || (!collapses(k) && TurnOverRange(turns(k, last), size, payload, length(k), last))
  }

  ghost predicate TurnOverRange(t: Turn, size: nat, payload: nat -> seq<byte>, length: nat, last: nat)
    requires size <= length < TWO_64
  {
    var till := Least(length, last + MAX_ENTRIES);
    && last < till
    && t.offered == Range(payload, last + 1, Least(till, size))
    && (till < size ==> t == Go(t.offered, till))
    && (till >= size ==> t.Stop? && t.outcome in {Complete, PastHead})
  }

  lemma HonestSourceTurns(size: nat, remote: Remote, payload: nat -> seq<byte>, length: nat -> nat,
                          collapses: nat -> bool)
    requires ServesLog(remote, payload, length, size, collapses)
    ensures HonestTurns(LogTurns(size, remote), size, payload, length, collapses)
  {
    forall k: nat, last: nat | last < size
      ensures var t := LogTurns(size, remote)(k, last);
              || t == Stop(TransportError, [])
              || (collapses(k) && t == Stop(Complete, []))
              || (!collapses(k) && TurnOverRange(t, size, payload, length(k), last))
    {
      assert remote(k, last + 1)
          in {FetchFailed, Page(if collapses(k) then [] else LogPage(payload, length(k), last + 1))};
      HonestTurn(size, payload, length(k), last);
    }
  }

  /** Ended normally at request `k - 1`, with everything offered exactly if that page did not collapse. */
  ghost predicate EndsHonestly(w: Walk, k: nat, upTo: nat, size: nat, collapses: nat -> bool)
  {
    && w.outcome in {Complete, PastHead, TransportError, Cancelled}
    && (w.outcome in {Complete, PastHead} ==>
          w.fetches > 0 && (upTo == size <==> !collapses(k + w.fetches - 1)))
  }

  lemma {:induction false} HonestWalkFrom(turns: Turns, size: nat, cancelled: nat -> bool, payload: nat -> seq<byte>,
                                          length: nat -> nat, collapses: nat -> bool, k: nat, last: nat)
    returns (upTo: nat)
    requires Advances(turns, size) && last < size < TWO_64
    requires HonestTurns(turns, size, payload, length, collapses)
    ensures last <= upTo <= size
    ensures WalkFrom(turns, size, cancelled, k, last).offered == Range(payload, last + 1, upTo)
    ensures EndsHonestly(WalkFrom(turns, size, cancelled, k, last), k, upTo, size, collapses)
    decreases size - last
  {
    upTo := last;
    var turn := turns(k, last);
    if !cancelled(k) && turn.Go? {
      var till := turn.next;
      assert TurnOverRange(turn, size, payload, length(k), last);
      upTo := HonestWalkFrom(turns, size, cancelled, payload, length, collapses, k + 1, till);
      RangeJoins(payload, last + 1, till, upTo);
    } else if !cancelled(k) && turn.outcome != TransportError && !collapses(k) {
      assert TurnOverRange(turn, size, payload, length(k), last);
      upTo := size;
    }
  }

  /**
   Against a source that serves its own growing log, what is offered is the log
   from entry 1, in order and without gaps or repeats; such a source is never called
   stalled; and when the walk ends without a transport error or a cancellation,
   everything up to the signed size was offered exactly unless the last page
   collapsed.
   */
  lemma HonestLogWalk(size: nat, remote: Remote, cancelled: nat -> bool, payload: nat -> seq<byte>,
                      length: nat -> nat, collapses: nat -> bool)
    returns (upTo: nat)
    requires 0 < size < TWO_64 && ServesLog(remote, payload, length, size, collapses)
    ensures upTo <= size && LogWalk(size, remote, cancelled).offered == Range(payload, 1, upTo)
    ensures EndsHonestly(LogWalk(size, remote, cancelled), 0, upTo, size, collapses)
  {
    LogAdvances(size, remote);
    HonestSourceTurns(size, remote, payload, length, collapses);
    upTo := HonestWalkFrom(LogTurns(size, remote), size, cancelled, payload, length, collapses, 0, 0);
  }

  /** A source whose store never fails is always walked to the end of the signed head. */
  lemma HonestLogWalkIsComplete(size: nat, remote: Remote, cancelled: nat -> bool, payload: nat -> seq<byte>,
                                length: nat -> nat)
    requires 0 < size < TWO_64 && ServesLog(remote, payload, length, size, _ => false)
    ensures var w := LogWalk(size, remote, cancelled);
            w.outcome in {Complete, PastHead} ==> w.offered == Range(payload, 1, size)
  {
    var _ := HonestLogWalk(size, remote, cancelled, payload, length, _ => false);
  }

  // ------------------------------------------------------------ pages that are too large

  /** What a client makes of an answer. */
  function Received(reply: Reply): Fetch
  {
    match DecodePage(reply.sent)
    case Ok(items) => Page(items)
    case Err(_) => FetchFailed
  }

  /** What it receives of an honest log: the page, if that is within its caps. */
  ghost function CappedPage(payload: nat -> seq<byte>, length: nat, from: nat): Fetch
    requires length < TWO_64
  {
    var page := LogPage(payload, length, from);
    if WithinCaps(page) then Page(page) else FetchFailed
  }

  /** Whatever a server of this repository answers for a page of its log is received as that. */
  lemma CappedPageIsReceived(reply: Reply, payload: nat -> seq<byte>, length: nat, from: nat)
    requires length < TWO_64 && from >= 1 && Answers(reply, Range(payload, 1, length), from, MAX_ENTRIES, true)
    ensures Received(reply) == CappedPage(payload, length, from)
  {
    var page := LogPage(payload, length, from);
    HonestPage(payload, 1, length, from, MAX_ENTRIES);
    assert PageFrom(Range(payload, 1, length), from, Capped(MAX_ENTRIES)) == page;
    RoundTripIff(page);
    if reply.clean {
      WholePageIsRead(page);
    }
  }

  /** A source that always answers, and as the server does. */
  ghost predicate ServesCapped(remote: Remote, payload: nat -> seq<byte>, length: nat -> nat, size: nat)
  {
    && (forall k: nat :: size <= length(k) < TWO_64)
    && (forall k: nat, from: nat | from >= 1 :: remote(k, from) == CappedPage(payload, length(k), from))
  }

  /** The pages that a walk over `size` entries asks for, `length(k)` entries being there at the `k`-th request. */
  ghost predicate PageFits(payload: nat -> seq<byte>, length: nat -> nat, k: nat)
    requires length(k) < TWO_64
  {
    WithinCaps(LogPage(payload, length(k), k * 1000 + 1))
  }

  ghost predicate CappedTurns(turns: Turns, size: nat, payload: nat -> seq<byte>, length: nat -> nat)
  {
    && (forall k: nat :: size <= length(k) < TWO_64)
    && forall k: nat, last: nat | last < size :: CappedTurn(turns(k, last), size, payload, length(k), last)
  }

  ghost predicate CappedTurn(t: Turn, size: nat, payload: nat -> seq<byte>, length: nat, last: nat)
    requires size <= length < TWO_64
  {
    if WithinCaps(LogPage(payload, length, last + 1)) then TurnOverRange(t, size, payload, length, last)
    else t == Stop(TransportError, [])
  }

  lemma CappedSourceTurns(size: nat, remote: Remote, payload: nat -> seq<byte>, length: nat -> nat)
    requires ServesCapped(remote, payload, length, size)
    ensures CappedTurns(LogTurns(size, remote), size, payload, length)
  {
    forall k: nat, last: nat | last < size
      ensures CappedTurn(LogTurns(size, remote)(k, last), size, payload, length(k), last)
    {
      assert remote(k, last + 1) == CappedPage(payload, length(k), last + 1);
      CappedPageTurns(size, payload, length(k), last);
    }
  }

  lemma CappedPageTurns(size: nat, payload: nat -> seq<byte>, length: nat, last: nat)
    requires last < size <= length < TWO_64
    ensures CappedTurn(LogTurn(size, CappedPage(payload, length, last + 1), last), size, payload, length, last)
  {
    HonestTurn(size, payload, length, last);
  }

  lemma {:induction false} CappedWalkFrom(turns: Turns, size: nat, payload: nat -> seq<byte>, length: nat -> nat, k: nat)
    requires Advances(turns, size) && k * 1000 < size < TWO_64 && CappedTurns(turns, size, payload, length)
    ensures var w := WalkFrom(turns, size, _ => false, k, k * 1000);
            && w.outcome in {Complete, PastHead, TransportError}
            && (w.outcome != TransportError <==>
                forall j: nat | k <= j && j * 1000 < size :: PageFits(payload, length, j))
    decreases size - k * 1000
  {
    var turn := turns(k, k * 1000);
    assert CappedTurn(turn, size, payload, length(k), k * 1000);
    if PageFits(payload, length, k) {
      assert TurnOverRange(turn, size, payload, length(k), k * 1000);
      if turn.Go? {
        assert turn.next == (k + 1) * 1000;
        CappedWalkFrom(turns, size, payload, length, k + 1);
      }
      LaterPagesFit(size, payload, length, k);
    }
  }

  lemma {:induction false} LaterPagesFit(size: nat, payload: nat -> seq<byte>, length: nat -> nat, k: nat)
    requires (forall j: nat :: length(j) < TWO_64) && k * 1000 < size && PageFits(payload, length, k)
    ensures (forall j: nat | k <= j && j * 1000 < size :: PageFits(payload, length, j))
       <==> forall j: nat | k + 1 <= j && j * 1000 < size :: PageFits(payload, length, j)
  {
  }

  /**
   Without transport faults and cancellation, a walk over an honest log ends normally
   if and only if every page it asks for is within the client's caps; the server does
   not trim its pages to them.
   */
  lemma EndsNormallyIff(size: nat, remote: Remote, payload: nat -> seq<byte>, length: nat -> nat)
    requires 0 < size < TWO_64 && ServesCapped(remote, payload, length, size)
    ensures var w := LogWalk(size, remote, _ => false);
            && w.outcome in {Complete, PastHead, TransportError}
            && (w.outcome != TransportError <==> forall k: nat | k * 1000 < size :: PageFits(payload, length, k))
  {
    LogAdvances(size, remote);
    CappedSourceTurns(size, remote, payload, length);
    CappedWalkFrom(LogTurns(size, remote), size, payload, length, 0);
  }

  /** A collapsed first page makes the walk report success with nothing offered. */
  lemma CollapseLooksComplete(size: nat, remote: Remote, cancelled: nat -> bool)
    requires size > 0 && !cancelled(0) && remote(0, 1) == Page([])
    ensures LogWalk(size, remote, cancelled) == Walk(Complete, [], 1)
  {
    LogAdvances(size, remote);
    assert LogTurns(size, remote)(0, 0) == Stop(Complete, []);
  }

  // ------------------------------------------------------------ the inbox walk

  function MaxId(items: seq<Item>): (m: u64)
    ensures forall i | 0 <= i < |items| :: items[i].id <= m
    ensures m == 0 || exists i :: 0 <= i < |items| && items[i].id == m
  {
    if |items| == 0 then 0
    else
      var before, last := MaxId(items[..|items| - 1]), items[|items| - 1].id;
      assert items == items[..|items| - 1] + [items[|items| - 1]];
      if last > before then
        assert items[|items| - 1].id == last;
        last
      else
        assert before == 0
               || exists i :: 0 <= i < |items| - 1 && items[..|items| - 1][i] == items[i] && items[i].id == before;
        before
  }

  function InboxTurn(reply: Fetch, cursor: u64): (t: Turn)
    ensures t.Go? ==> cursor < t.next < TWO_64
  {
    match reply
    case FetchFailed => Stop(TransportError, [])
    case Page(items) =>
      if |items| < MAX_ENTRIES then Stop(Complete, items)
      else if MaxId(items) <= cursor then Stop(Stalled, items)
      else Go(items, MaxId(items))
  }

  function InboxTurns(remote: Remote): Turns
  {
    (k: nat, cursor: nat) => if cursor < TWO_64 then InboxTurn(remote(k, cursor), cursor) else Stop(Stalled, [])
  }

  lemma InboxAdvances(remote: Remote)
    ensures Advances(InboxTurns(remote), TWO_64)
  {
    forall k: nat, cursor: nat | InboxTurns(remote)(k, cursor).Go?
      ensures cursor < InboxTurns(remote)(k, cursor).next < TWO_64
    {
      assert InboxTurns(remote)(k, cursor) == InboxTurn(remote(k, cursor), cursor);
    }
  }

  ghost function InboxWalk(remote: Remote, cancelled: nat -> bool): Walk
  {
    InboxAdvances(remote);
    WalkFrom(InboxTurns(remote), TWO_64, cancelled, 0, 0)
  }

  /** Each full page moves the cursor up, so even a hostile source is walked in finitely many pages. */
  lemma InboxWalkIsBounded(remote: Remote, cancelled: nat -> bool)
    ensures InboxWalk(remote, cancelled).fetches <= TWO_64
  {
    InboxAdvances(remote);
    WalkIsBounded(InboxTurns(remote), TWO_64, cancelled, 0, 0);
  }

  method CatchUpInbox(local: Sink, remote: Remote, cancelled: nat -> bool) returns (outcome: Outcome)
    modifies local
    ensures var w := InboxWalk(remote, cancelled);
            outcome == w.outcome && local.offered == old(local.offered) + w.offered
  {
    var cursor: u64, k: nat := 0, 0;
    ghost var turns, whole := InboxTurns(remote), InboxWalk(remote, cancelled);
    InboxAdvances(remote);
    ghost var goal := Goal(whole.outcome, local.offered + whole.offered);
    while !cancelled(k)
      invariant Reaches(goal, local.offered, WalkFrom(turns, TWO_64, cancelled, k, cursor))
      decreases TWO_64 - cursor
    {
      TakeTurn(turns, TWO_64, cancelled, k, cursor, goal, local.offered);
      var turn := TakeInboxPage(local, remote, k, cursor);
      if turn.Stop? {
        return turn.outcome;
      }
      cursor := turn.next;
      k := k + 1;
    }
    TakeTurn(turns, TWO_64, cancelled, k, cursor, goal, local.offered);
    return Cancelled;
  }

  method TakeInboxPage(local: Sink, remote: Remote, k: nat, cursor: u64) returns (turn: Turn)
    modifies local
    ensures turn == InboxTurns(remote)(k, cursor)
    ensures local.offered == old(local.offered) + turn.offered
  {
    var reply := remote(k, cursor);
    if reply.FetchFailed? {
      return Stop(TransportError, []);
    }
    var entries := reply.items;
    var maxSeen := OfferAll(local, entries);
    if |entries| < MAX_ENTRIES {
      return Stop(Complete, entries);
    }
    if maxSeen <= cursor {
      return Stop(Stalled, entries);
    }
    return Go(entries, maxSeen);
  }

  method OfferAll(local: Sink, entries: seq<Item>) returns (maxSeen: u64)
    modifies local
    ensures local.offered == old(local.offered) + entries
    ensures maxSeen == MaxId(entries)
  {
    maxSeen := 0;
    var i := 0;
    while i < |entries|
      invariant 0 <= i <= |entries|
      invariant local.offered == old(local.offered) + entries[..i]
      invariant maxSeen == MaxId(entries[..i])
    {
      local.AcceptEntry(entries[i]);
      assert entries[..i + 1][..i] == entries[..i];
      if entries[i].id > maxSeen {
        maxSeen := entries[i].id;
      }
      i := i + 1;
    }
    assert entries[..i] == entries;
  }

  // ------------------------------------------------------------ an honest inbox

  ghost predicate Ascending(rows: seq<Item>)
  {
    forall i, j | 0 <= i < j < |rows| :: rows[i].id < rows[j].id
  }

  /** How many rows have a rowid of at most `cursor`. */
  function Seen(rows: seq<Item>, cursor: nat): (n: nat)
    ensures n <= |rows|
  {
    if |rows| == 0 || rows[0].id > cursor then 0 else 1 + Seen(rows[1..], cursor)
  }

  /** The page after a cursor: the next rows in rowid order, up to a limit. */
  function RowsAfter(rows: seq<Item>, cursor: nat, limit: nat): seq<Item>
  {
    var n := Seen(rows, cursor);
    rows[n..Least(|rows|, n + limit)]
  }

  /** The page a server of this repository collects is the one assumed of an honest source. */
  lemma {:induction false} HonestInboxPage(rows: seq<Item>, cursor: nat, limit: nat)
    requires Ascending(rows)
    ensures PageFrom(rows, cursor + 1, limit) == RowsAfter(rows, cursor, limit)
  {
    if |rows| > 0 && limit > 0 {
      if rows[0].id <= cursor {
        HonestInboxPage(rows[1..], cursor, limit);
        ShiftedSlice(rows, Seen(rows, cursor), Least(|rows|, Seen(rows, cursor) + limit));
      } else {
        HonestInboxPage(rows[1..], cursor, limit - 1);
        NoneSeen(rows[1..], cursor);
        assert rows[..Least(|rows|, limit)] == [rows[0]] + rows[1..][..Least(|rows| - 1, limit - 1)];
      }
    }
  }

  lemma ShiftedSlice(rows: seq<Item>, a: nat, b: nat)
    requires 0 < a <= b <= |rows|
    ensures rows[1..][a - 1..b - 1] == rows[a..b]
  {
  }

  lemma NoneSeen(rows: seq<Item>, cursor: nat)
    requires forall i | 0 <= i < |rows| :: rows[i].id > cursor
    ensures Seen(rows, cursor) == 0
  {
  }

  /** An inbox table that only gains rows, at growing rowids starting from 1. */
  ghost predicate ServesRows(rows: nat -> seq<Item>)
  {
    && (forall k: nat :: Ascending(rows(k)) && rows(k) <= rows(k + 1))
    && (forall k: nat, i: nat | i < |rows(k)| :: rows(k)[i].id >= 1)
  }

  /** As for the log, `collapses(k)` marks requests answered with an empty page because the store could not be read. */
  ghost predicate ServesInbox(remote: Remote, rows: nat -> seq<Item>, collapses: nat -> bool)
  {
    && ServesRows(rows)
    && (forall k: nat, cursor: nat ::
          remote(k, cursor)
            in {FetchFailed, Page(if collapses(k) then [] else RowsAfter(rows(k), cursor, MAX_ENTRIES))})
  }

  lemma {:induction false} SeenAt(rows: seq<Item>, n: nat, cursor: nat)
    requires n <= |rows|
    requires forall i | 0 <= i < n :: rows[i].id <= cursor
    requires forall i | n <= i < |rows| :: rows[i].id > cursor
    ensures Seen(rows, cursor) == n
    decreases n
  {
    if n > 0 {
      SeenAt(rows[1..], n - 1, cursor);
    }
  }

  lemma {:induction false} RowsOnlyGrow(rows: nat -> seq<Item>, j: nat, k: nat)
    requires forall i: nat :: rows(i) <= rows(i + 1)
    requires j <= k
    ensures rows(j) <= rows(k)
    decreases k - j
  {
    if j < k {
      RowsOnlyGrow(rows, j + 1, k);
      assert rows(j) <= rows(j + 1);
    }
  }

  lemma MaxOfAscending(items: seq<Item>)
    requires Ascending(items) && |items| > 0
    ensures MaxId(items) == items[|items| - 1].id
  {
  }

  /** The cursor that has just passed the first `n` rows. */
  function CursorAfter(rows: seq<Item>, n: nat): u64
    requires n <= |rows|
  {
    if n == 0 then 0 else rows[n - 1].id
  }

  ghost predicate TurnOverRows(t: Turn, rows: seq<Item>, n: nat, collapsed: bool)
    requires n <= |rows|
  {
    var m := n + MAX_ENTRIES;
    || t == Stop(TransportError, [])
    || (collapsed && t == Stop(Complete, []))
    || (!collapsed && |rows| < m && t == Stop(Complete, rows[n..]))
    || (!collapsed && m <= |rows| && t == Go(rows[n..m], CursorAfter(rows, m)))
  }

  /** One honest page of the inbox: the rest, or a full page that moves the cursor past it. */
  lemma HonestInboxTurn(rows: seq<Item>, n: nat)
    requires Ascending(rows) && n <= |rows| && forall i | 0 <= i < |rows| :: rows[i].id >= 1
    ensures var cursor := CursorAfter(rows, n);
            TurnOverRows(InboxTurn(Page(RowsAfter(rows, cursor, MAX_ENTRIES)), cursor), rows, n, false)
  {
    var cursor, m := CursorAfter(rows, n), n + MAX_ENTRIES;
    SeenAt(rows, n, cursor);
    var items := RowsAfter(rows, cursor, MAX_ENTRIES);
    if |rows| < m {
      assert items == rows[n..];
    } else {
      assert items == rows[n..m];
      assert items[|items| - 1] == rows[m - 1];
      MaxOfAscending(items);
    }
  }

  /** Where a walk that ended normally got to: to the end, or only past its full pages if the last one collapsed. */
  ghost function EndOfWalk(w: Walk, rows: seq<Item>, n: nat, collapsed: bool): int
  {
    if collapsed then n + (w.fetches - 1) * 1000 else |rows|
  }

  ghost predicate Offered(w: Walk, rows: seq<Item>, n: nat, collapsed: bool)
  {
    n <= EndOfWalk(w, rows, n, collapsed) <= |rows| && w.offered == rows[n..EndOfWalk(w, rows, n, collapsed)]
  }

  /** A finished walk from just past the first `n` rows offered exactly the later rows of the last page's table. */
  ghost predicate FinishedWith(w: Walk, rows: nat -> seq<Item>, collapses: nat -> bool, k: nat, n: nat)
  {
    && w.outcome in {Complete, TransportError, Cancelled}
    && (w.outcome == Complete ==>
          w.fetches > 0 && Offered(w, rows(k + w.fetches - 1), n, collapses(k + w.fetches - 1)))
  }

  lemma FinishedStep(w: Walk, rest: Walk, rows: nat -> seq<Item>, collapses: nat -> bool, k: nat, n: nat)
    requires ServesRows(rows) && n + MAX_ENTRIES <= |rows(k)|
    requires w == Then(rows(k)[n..n + MAX_ENTRIES], rest)
    requires FinishedWith(rest, rows, collapses, k + 1, n + MAX_ENTRIES)
    ensures FinishedWith(w, rows, collapses, k, n)
  {
    if rest.outcome == Complete {
      var last := k + rest.fetches;
      RowsOnlyGrow(rows, k, last);
      SlicesJoin(rows(k), rows(last), n, n + MAX_ENTRIES,
                 EndOfWalk(rest, rows(last), n + MAX_ENTRIES, collapses(last)));
    }
  }

  ghost predicate HonestInboxTurns(turns: Turns, rows: nat -> seq<Item>, collapses: nat -> bool)
  {
    forall k: nat, n: nat | n <= |rows(k)| ::
      TurnOverRows(turns(k, CursorAfter(rows(k), n)), rows(k), n, collapses(k))
  }

  lemma HonestInboxSourceTurns(remote: Remote, rows: nat -> seq<Item>, collapses: nat -> bool)
    requires ServesInbox(remote, rows, collapses)
    ensures HonestInboxTurns(InboxTurns(remote), rows, collapses)
  {
    forall k: nat, n: nat | n <= |rows(k)|
      ensures TurnOverRows(InboxTurns(remote)(k, CursorAfter(rows(k), n)), rows(k), n, collapses(k))
    {
      var cursor := CursorAfter(rows(k), n);
      assert remote(k, cursor)
          in {FetchFailed, Page(if collapses(k) then [] else RowsAfter(rows(k), cursor, MAX_ENTRIES))};
      HonestInboxTurn(rows(k), n);
    }
  }

  lemma {:induction false} HonestInboxWalkFrom(turns: Turns, cancelled: nat -> bool, rows: nat -> seq<Item>,
                                               collapses: nat -> bool, k: nat, n: nat)
    requires Advances(turns, TWO_64) && ServesRows(rows) && HonestInboxTurns(turns, rows, collapses)
    requires n <= |rows(k)|
    ensures FinishedWith(WalkFrom(turns, TWO_64, cancelled, k, CursorAfter(rows(k), n)), rows, collapses, k, n)
    decreases TWO_64 - CursorAfter(rows(k), n)
  {
    var here, m := rows(k), n + MAX_ENTRIES;
    var turn := turns(k, CursorAfter(here, n));
    assert TurnOverRows(turn, here, n, collapses(k));
    if !cancelled(k) && turn.Go? {
      assert here <= rows(k + 1);
      assert CursorAfter(rows(k + 1), m) == CursorAfter(here, m) == turn.next;
      HonestInboxWalkFrom(turns, cancelled, rows, collapses, k + 1, m);
      FinishedStep(WalkFrom(turns, TWO_64, cancelled, k, CursorAfter(here, n)),
                   WalkFrom(turns, TWO_64, cancelled, k + 1, turn.next), rows, collapses, k, n);
    }
  }

  lemma SlicesJoin(before: seq<Item>, after: seq<Item>, n: nat, m: nat, end: nat)
    requires before <= after && n <= m <= |before| && m <= end <= |after|
    ensures before[n..m] + after[m..end] == after[n..end]
  {
  }

  /**
   When the walk ends normally, the rows offered are, once each and in rowid order,
   those of the table as of the last page: all of them, among them every row present
   at the start, unless that page collapsed, and then those of the full pages before it.
   */
  lemma HonestInboxWalk(remote: Remote, cancelled: nat -> bool, rows: nat -> seq<Item>, collapses: nat -> bool)
    requires ServesInbox(remote, rows, collapses)
    ensures var w := InboxWalk(remote, cancelled);
            && w.outcome in {Complete, TransportError, Cancelled}
            && (w.outcome == Complete ==>
                  && w.fetches > 0
                  && Offered(w, rows(w.fetches - 1), 0, collapses(w.fetches - 1))
                  && Ascending(w.offered)
                  && (!collapses(w.fetches - 1) ==> rows(0) <= w.offered == rows(w.fetches - 1)))
  {
    InboxAdvances(remote);
    HonestInboxSourceTurns(remote, rows, collapses);
    HonestInboxWalkFrom(InboxTurns(remote), cancelled, rows, collapses, 0, 0);
    var w := InboxWalk(remote, cancelled);
    if w.outcome == Complete {
      RowsOnlyGrow(rows, 0, w.fetches - 1);
      var last := rows(w.fetches - 1);
      assert last[0..|last|] == last;
    }
  }
}
