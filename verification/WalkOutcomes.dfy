/**
 How the catch-up walks end, told from the pages the remote served: which page
 follows which, which page ends the walk with which outcome, and what of them is offered.
 */
module WalkOutcomes {
  import opened Wire
  import opened CatchUp

  // ------------------------------------------------------------ the requests of a walk

  function Joined(pages: seq<seq<Item>>): seq<Item>
  {
    if |pages| == 0 then [] else pages[0] + Joined(pages[1..])
  }

  /** What the turns at these cursors offered, the first of them being the `k`-th request. */
  ghost function OfferedBy(turns: Turns, k: nat, cursors: seq<nat>): seq<Item>
    decreases |cursors|
  {
    if |cursors| == 0 then [] else turns(k, cursors[0]).offered + OfferedBy(turns, k + 1, cursors[1..])
  }

  /** The `i`-th of these requests is made, and unless it is the last, its reply leads to the next. */
  ghost predicate Requested(turns: Turns, cancelled: nat -> bool, k: nat, cursors: seq<nat>, i: nat)
    requires i < |cursors|
  {
    && !cancelled(k + i)
    && (i + 1 < |cursors| ==> turns(k + i, cursors[i]).Go? && turns(k + i, cursors[i]).next == cursors[i + 1])
  }

  /** The turn at the last of these requests ends the walk, or the walk is cancelled behind it. */
  ghost predicate EndsBehind(turns: Turns, cancelled: nat -> bool, k: nat, cursors: seq<nat>, outcome: Outcome)
  {
    if cursors == [] then outcome == Cancelled && cancelled(k)
    else
      var turn := turns(k + |cursors| - 1, cursors[|cursors| - 1]);
      if turn.Stop? then outcome == turn.outcome else outcome == Cancelled && cancelled(k + |cursors|)
  }

  /** The requests of a walk that goes on are the first one and those of the rest. */
  lemma {:induction false} OneRequestMore(turns: Turns, cancelled: nat -> bool, k: nat, cursor: nat,
                                          following: nat, rest: seq<nat>, outcome: Outcome)
    requires following == k + 1 && !cancelled(k) && turns(k, cursor).Go?
    requires rest != [] ==> rest[0] == turns(k, cursor).next
    requires EndsBehind(turns, cancelled, following, rest, outcome)
    requires forall i: nat | i < |rest| :: Requested(turns, cancelled, following, rest, i)
    ensures var cursors := [cursor] + rest;
            && EndsBehind(turns, cancelled, k, cursors, outcome)
            && OfferedBy(turns, k, cursors) == turns(k, cursor).offered + OfferedBy(turns, following, rest)
            && forall i: nat | i < |cursors| :: Requested(turns, cancelled, k, cursors, i)
  {
    var cursors := [cursor] + rest;
    assert cursors[1..] == rest;
    forall i: nat | i < |cursors| ensures Requested(turns, cancelled, k, cursors, i) {
      if i > 0 {
        assert Requested(turns, cancelled, following, rest, i - 1);
      }
    }
  }

  lemma {:induction false} WalkIsRecorded(turns: Turns, limit: nat, cancelled: nat -> bool, k: nat, cursor: nat)
    returns (cursors: seq<nat>)
    requires Advances(turns, limit) && cursor < limit
    ensures var w := WalkFrom(turns, limit, cancelled, k, cursor);
            |cursors| == w.fetches && w.offered == OfferedBy(turns, k, cursors)
            && EndsBehind(turns, cancelled, k, cursors, w.outcome)
    ensures cursors != [] ==> cursors[0] == cursor
    ensures forall i: nat | i < |cursors| :: cursors[i] < limit
    ensures forall i: nat | i < |cursors| :: Requested(turns, cancelled, k, cursors, i)
    decreases limit - cursor
  {
    if cancelled(k) {
      return [];
    }
    var turn := turns(k, cursor);
    if turn.Stop? {
      assert OfferedBy(turns, k + 1, [cursor][1..]) == [];
      return [cursor];
    }
    var rest := WalkIsRecorded(turns, limit, cancelled, k + 1, turn.next);
    OneRequestMore(turns, cancelled, k, cursor, k + 1, rest, WalkFrom(turns, limit, cancelled, k + 1, turn.next).outcome);
    cursors := [cursor] + rest;
  }

  // ------------------------------------------------------------ the log walk

  /** The cursor before the `i`-th page: the last id of the page before. */
  function CursorBefore(pages: seq<Fetch>, i: nat): nat
    requires i <= |pages|
  {
    if i == 0 || pages[i - 1].FetchFailed? || pages[i - 1].items == [] then 0
    else pages[i - 1].items[|pages[i - 1].items| - 1].id
  }

  predicate HasBeyond(page: Fetch, size: nat)
  {
    page.Page? && exists i | 0 <= i < |page.items| :: page.items[i].id > size
  }

  /** A page within the signed size, the last entry of which is beyond the cursor but not yet at that size. */
  predicate IsFollowed(page: Fetch, cursor: nat, size: nat)
  {
    && page.Page? && page.items != []
    && (forall i | 0 <= i < |page.items| :: page.items[i].id <= size)
    && cursor < page.items[|page.items| - 1].id < size
  }

  /** How a page that is not followed ends the walk. */
  predicate EndsWith(page: Fetch, cursor: nat, size: nat, outcome: Outcome)
  {
    && (outcome == TransportError <==> page.FetchFailed?)
    && (outcome == PastHead <==> HasBeyond(page, size))
    && (outcome == Stalled <==>
          && page.Page? && page.items != [] && !HasBeyond(page, size)
          && page.items[|page.items| - 1].id <= cursor)
    && (outcome == Complete <==>
          && page.Page?
          && (page.items == [] || (!HasBeyond(page, size) && page.items[|page.items| - 1].id == size)))
  }

  /** What of a page is offered: its entries before the first beyond the signed size. */
  predicate IsOfferedOf(offered: seq<Item>, page: Fetch, size: nat)
  {
    if page.FetchFailed? then offered == []
    else
      && offered <= page.items
      && (forall i | 0 <= i < |offered| :: page.items[i].id <= size)
      && (|offered| < |page.items| ==> page.items[|offered|].id > size)
  }

  /** What a turn of the log walk is, by the page it took. */
  predicate TakesPage(turn: Turn, size: nat, page: Fetch, cursor: nat)
  {
    && (turn.Go? <==> IsFollowed(page, cursor, size))
    && (turn.Go? ==> turn.next == page.items[|page.items| - 1].id && turn.offered == page.items)
    && (turn.Stop? ==> EndsWith(page, cursor, size, turn.outcome) && turn.outcome != Cancelled)
    && IsOfferedOf(turn.offered, page, size)
  }

  lemma {:induction false} LogTurnIs(size: nat, page: Fetch, cursor: nat)
    requires cursor < size
    ensures TakesPage(LogTurn(size, page, cursor), size, page, cursor)
  {
    if page.Page? && page.items != [] {
      var items := page.items;
      var good := WithinHead(items, size);
      if |good| < |items| {
        assert items[|good|].id > size;
        assert HasBeyond(page, size);
      } else {
        assert good == items;
        assert forall i | 0 <= i < |items| :: items[i] == good[i];
        assert !HasBeyond(page, size);
      }
    }
  }

  /** Every turn takes the page that its cursor asks for. */
  ghost predicate TakePages(turns: Turns, size: nat, remote: Remote)
  {
    forall k: nat, cursor: nat | cursor < size :: TakesPage(turns(k, cursor), size, remote(k, cursor + 1), cursor)
  }

  lemma {:induction false} LogTurnsTakePages(size: nat, remote: Remote)
    ensures TakePages(LogTurns(size, remote), size, remote)
  {
    forall k: nat, cursor: nat | cursor < size
      ensures TakesPage(LogTurns(size, remote)(k, cursor), size, remote(k, cursor + 1), cursor)
    {
      LogTurnIs(size, remote(k, cursor + 1), cursor);
    }
  }

  /** The pages of a log walk, in order: each is asked for behind the one before, and all but the last are followed. */
  ghost predicate ArePages(pages: seq<Fetch>, size: nat, remote: Remote, cancelled: nat -> bool)
  {
    forall i: nat | i < |pages| :: IsPage(pages, size, remote, cancelled, i)
  }

  ghost predicate IsPage(pages: seq<Fetch>, size: nat, remote: Remote, cancelled: nat -> bool, i: nat)
    requires i < |pages|
  {
    && !cancelled(i) && pages[i] == remote(i, CursorBefore(pages, i) + 1)
    && (i + 1 < |pages| ==> IsFollowed(pages[i], CursorBefore(pages, i), size))
  }

  /** The entries of the followed pages, and of the last one those before the first beyond the signed size. */
  ghost predicate AreOffered(offered: seq<Item>, pages: seq<Fetch>, size: nat)
  {
    exists parts: seq<seq<Item>> :: AreParts(parts, pages, size) && offered == Joined(parts)
  }

  ghost predicate AreParts(parts: seq<seq<Item>>, pages: seq<Fetch>, size: nat)
  {
    |parts| == |pages| && forall i | 0 <= i < |pages| :: IsOfferedOf(parts[i], pages[i], size)
  }

  /** What was fetched at these cursors. */
  ghost function Fetched(remote: Remote, cursors: seq<nat>): (pages: seq<Fetch>)
    ensures |pages| == |cursors| && forall i: nat | i < |pages| :: pages[i] == remote(i, cursors[i] + 1)
  {
    seq(|cursors|, i requires 0 <= i < |cursors| => remote(i, cursors[i] + 1))
  }

  /** Every request follows from the one before, and the pages are what it was answered with. */
  ghost predicate AreAnswers(turns: Turns, size: nat, remote: Remote, cancelled: nat -> bool, cursors: seq<nat>,
                             pages: seq<Fetch>)
  {
    && |pages| == |cursors| && (cursors != [] ==> cursors[0] == 0)
    && forall i: nat | i < |pages| :: IsAnswer(turns, size, remote, cancelled, cursors, pages, i)
  }

  ghost predicate IsAnswer(turns: Turns, size: nat, remote: Remote, cancelled: nat -> bool, cursors: seq<nat>,
                           pages: seq<Fetch>, i: nat)
    requires i < |pages| == |cursors|
  {
    && cursors[i] < size && pages[i] == remote(i, cursors[i] + 1) && Requested(turns, cancelled, 0, cursors, i)
    && TakesPage(turns(i, cursors[i]), size, pages[i], cursors[i])
  }

  lemma {:induction false} CursorIsLastId(turns: Turns, size: nat, remote: Remote, cancelled: nat -> bool,
                                          cursors: seq<nat>, pages: seq<Fetch>, i: nat)
    requires AreAnswers(turns, size, remote, cancelled, cursors, pages) && i < |pages|
    ensures CursorBefore(pages, i) == cursors[i]
  {
    if i > 0 {
      assert IsAnswer(turns, size, remote, cancelled, cursors, pages, i - 1);
    }
  }

  lemma {:induction false} PartsOf(turns: Turns, k: nat, cursors: seq<nat>) returns (parts: seq<seq<Item>>)
    ensures Joined(parts) == OfferedBy(turns, k, cursors) && ArePartsOf(parts, turns, k, cursors)
    decreases |cursors|
  {
    parts := [];
    if |cursors| > 0 {
      var rest := PartsOf(turns, k + 1, cursors[1..]);
      parts := [turns(k, cursors[0]).offered] + rest;
      assert parts[1..] == rest;
      forall i: nat | i < |cursors| ensures parts[i] == turns(k + i, cursors[i]).offered {
        if i > 0 {
          assert parts[i] == rest[i - 1] && cursors[i] == cursors[1..][i - 1];
          assert turns(k + 1 + (i - 1), cursors[1..][i - 1]).offered == rest[i - 1];
          assert k + 1 + (i - 1) == k + i;
        }
      }
    }
  }

  lemma {:induction false} OneIsOffered(turns: Turns, size: nat, remote: Remote, k: nat, cursor: nat,
                                        part: seq<Item>, page: Fetch)
    requires TakePages(turns, size, remote) && cursor < size
    requires part == turns(k, cursor).offered && page == remote(k, cursor + 1)
    ensures IsOfferedOf(part, page, size)
  {
    assert TakesPage(turns(k, cursor), size, remote(k, cursor + 1), cursor);
  }

  /** The parts of a list of requests are what these offered. */
  ghost predicate ArePartsOf(parts: seq<seq<Item>>, turns: Turns, k: nat, cursors: seq<nat>)
  {
    |parts| == |cursors| && forall i: nat | i < |cursors| :: parts[i] == turns(k + i, cursors[i]).offered
  }

  lemma {:induction false} PartsAreOfferedOf(turns: Turns, size: nat, remote: Remote, cursors: seq<nat>,
                                             parts: seq<seq<Item>>, pages: seq<Fetch>)
    requires TakePages(turns, size, remote) && ArePartsOf(parts, turns, 0, cursors)
    requires |pages| == |cursors| && forall i: nat | i < |cursors| :: cursors[i] < size
    requires forall i: nat | i < |pages| :: pages[i] == remote(i, cursors[i] + 1)
    ensures forall i | 0 <= i < |pages| :: IsOfferedOf(parts[i], pages[i], size)
  {
    forall i: nat | i < |pages| ensures IsOfferedOf(parts[i], pages[i], size) {
      assert parts[i] == turns(0 + i, cursors[i]).offered;
      OneIsOffered(turns, size, remote, i, cursors[i], parts[i], pages[i]);
    }
  }

  lemma {:induction false} OfferedOfPages(turns: Turns, size: nat, remote: Remote, cursors: seq<nat>, pages: seq<Fetch>)
    requires TakePages(turns, size, remote) && forall i: nat | i < |cursors| :: cursors[i] < size
    requires |pages| == |cursors| && forall i: nat | i < |pages| :: pages[i] == remote(i, cursors[i] + 1)
    ensures AreOffered(OfferedBy(turns, 0, cursors), pages, size)
  {
    var parts := PartsOf(turns, 0, cursors);
    PartsAreOfferedOf(turns, size, remote, cursors, parts, pages);
    PartsAreOffered(parts, pages, size);
  }

  lemma {:induction false} PartsAreOffered(parts: seq<seq<Item>>, pages: seq<Fetch>, size: nat)
    requires |parts| == |pages| && forall i | 0 <= i < |pages| :: IsOfferedOf(parts[i], pages[i], size)
    ensures AreOffered(Joined(parts), pages, size)
  {
    assert AreParts(parts, pages, size);
  }

  lemma {:induction false} AnswersArePages(turns: Turns, size: nat, remote: Remote, cancelled: nat -> bool,
                                           cursors: seq<nat>, pages: seq<Fetch>)
    requires AreAnswers(turns, size, remote, cancelled, cursors, pages)
    ensures ArePages(pages, size, remote, cancelled)
  {
    forall i: nat | i < |pages| ensures IsPage(pages, size, remote, cancelled, i) {
      CursorIsLastId(turns, size, remote, cancelled, cursors, pages, i);
      AnswerIsPage(turns, size, remote, cancelled, cursors, pages, i);
    }
  }

  lemma {:induction false} AnswerIsPage(turns: Turns, size: nat, remote: Remote, cancelled: nat -> bool,
                                        cursors: seq<nat>, pages: seq<Fetch>, i: nat)
    requires i < |pages| == |cursors| && IsAnswer(turns, size, remote, cancelled, cursors, pages, i)
    requires CursorBefore(pages, i) == cursors[i]
    ensures IsPage(pages, size, remote, cancelled, i)
  {
  }

  /** How a walk ends that has fetched these pages. */
  ghost predicate LogEnds(pages: seq<Fetch>, size: nat, cancelled: nat -> bool, outcome: Outcome)
  {
    if pages == [] || IsFollowed(pages[|pages| - 1], CursorBefore(pages, |pages| - 1), size)
    then outcome == Cancelled && cancelled(|pages|)
    else outcome != Cancelled && EndsWith(pages[|pages| - 1], CursorBefore(pages, |pages| - 1), size, outcome)
  }

  lemma {:induction false} LastPageEnds(turns: Turns, size: nat, remote: Remote, cancelled: nat -> bool,
                                        cursors: seq<nat>, pages: seq<Fetch>, outcome: Outcome)
    requires AreAnswers(turns, size, remote, cancelled, cursors, pages)
    requires EndsBehind(turns, cancelled, 0, cursors, outcome)
    ensures LogEnds(pages, size, cancelled, outcome)
  {
    if cursors != [] {
      var i := |cursors| - 1;
      CursorIsLastId(turns, size, remote, cancelled, cursors, pages, i);
      assert IsAnswer(turns, size, remote, cancelled, cursors, pages, i);
    }
  }

  /**
   The log walk, by the pages it fetched: it ends past the head exactly when its last
   page has an entry beyond the signed size, stalled exactly when that page, being
   within the head, does not move the cursor, and so on; and only the context ends it
   behind a page that is followed.
   */
  lemma {:induction false} LogWalkEnds(size: nat, remote: Remote, cancelled: nat -> bool) returns (pages: seq<Fetch>)
    requires size > 0
    ensures var w := LogWalk(size, remote, cancelled);
            && |pages| == w.fetches && ArePages(pages, size, remote, cancelled)
            && AreOffered(w.offered, pages, size)
            && LogEnds(pages, size, cancelled, w.outcome)
  {
    LogAdvances(size, remote);
    LogTurnsTakePages(size, remote);
    pages := PagesOfWalk(LogTurns(size, remote), size, remote, cancelled);
  }

  lemma {:induction false} PagesOfWalk(turns: Turns, size: nat, remote: Remote, cancelled: nat -> bool)
    returns (pages: seq<Fetch>)
    requires size > 0 && Advances(turns, size) && TakePages(turns, size, remote)
    ensures var w := WalkFrom(turns, size, cancelled, 0, 0);
            && |pages| == w.fetches && ArePages(pages, size, remote, cancelled)
            && AreOffered(w.offered, pages, size)
            && LogEnds(pages, size, cancelled, w.outcome)
  {
    var cursors := WalkIsRecorded(turns, size, cancelled, 0, 0);
    pages := Fetched(remote, cursors);
    forall i: nat | i < |pages| ensures IsAnswer(turns, size, remote, cancelled, cursors, pages, i) {
      assert TakesPage(turns(i, cursors[i]), size, remote(i, cursors[i] + 1), cursors[i]);
    }
    AnswersArePages(turns, size, remote, cancelled, cursors, pages);
    OfferedOfPages(turns, size, remote, cursors, pages);
    LastPageEnds(turns, size, remote, cancelled, cursors, pages, WalkFrom(turns, size, cancelled, 0, 0).outcome);
  }

  // ------------------------------------------------------------ the inbox walk

  /** The largest rowid of a page, 0 for an empty one. */
  ghost predicate IsLargestId(m: nat, items: seq<Item>)
  {
    && (forall i | 0 <= i < |items| :: items[i].id <= m)
    && (if items == [] then m == 0 else exists i | 0 <= i < |items| :: items[i].id == m)
  }

  /** The pages of an inbox walk, with the cursors they were asked for. */
  ghost predicate AreInboxPages(pages: seq<Fetch>, cursors: seq<nat>, remote: Remote, cancelled: nat -> bool)
    requires |pages| == |cursors|
  {
    && (cursors != [] ==> cursors[0] == 0)
    && forall i: nat | i < |pages| :: IsInboxPage(pages, cursors, remote, cancelled, i)
  }

  ghost predicate IsInboxPage(pages: seq<Fetch>, cursors: seq<nat>, remote: Remote, cancelled: nat -> bool, i: nat)
    requires i < |pages| == |cursors|
  {
    && !cancelled(i) && pages[i] == remote(i, cursors[i])
    && (i + 1 < |pages| ==> IsInboxFollowed(pages[i], cursors[i]) && IsLargestId(cursors[i + 1], pages[i].items))
  }

  /** A full page with a rowid beyond the cursor. */
  ghost predicate IsInboxFollowed(page: Fetch, cursor: nat)
  {
    page.Page? && |page.items| >= 1000 && exists i | 0 <= i < |page.items| :: page.items[i].id > cursor
  }

  ghost predicate TakesInboxPage(turn: Turn, page: Fetch, cursor: nat)
  {
    && (turn.Go? <==> IsInboxFollowed(page, cursor))
    && (turn.Go? ==> IsLargestId(turn.next, page.items))
    && (turn.Stop? ==> turn.outcome == InboxEnd(page))
    && turn.offered == if page.Page? then page.items else []
  }

  lemma {:induction false} InboxTurnIs(page: Fetch, cursor: u64)
    ensures TakesInboxPage(InboxTurn(page, cursor), page, cursor)
  {
    if page.Page? && |page.items| >= 1000 {
      var m := MaxId(page.items);
      if m == 0 {
        assert page.items[0].id <= m;
      }
      assert IsLargestId(m, page.items);
    }
  }

  ghost predicate TakeInboxPages(turns: Turns, remote: Remote)
  {
    forall k: nat, cursor: nat | cursor < TWO_64 :: TakesInboxPage(turns(k, cursor), remote(k, cursor), cursor)
  }

  lemma {:induction false} InboxTurnsTakePages(remote: Remote)
    ensures TakeInboxPages(InboxTurns(remote), remote)
  {
    forall k: nat, cursor: nat | cursor < TWO_64
      ensures TakesInboxPage(InboxTurns(remote)(k, cursor), remote(k, cursor), cursor)
    {
      InboxTurnIs(remote(k, cursor), cursor);
    }
  }

  /** How a page that is not followed ends the inbox walk. */
  function InboxEnd(page: Fetch): Outcome
  {
    if page.FetchFailed? then TransportError
    else if |page.items| < 1000 then Complete
    else Stalled
  }

  ghost predicate AreInboxParts(parts: seq<seq<Item>>, pages: seq<Fetch>)
  {
    |parts| == |pages| && forall i | 0 <= i < |pages| :: parts[i] == if pages[i].Page? then pages[i].items else []
  }

  /** How an inbox walk ends that has fetched these pages. */
  ghost predicate InboxEnds(pages: seq<Fetch>, cursors: seq<nat>, cancelled: nat -> bool, outcome: Outcome)
    requires |pages| == |cursors|
  {
    if pages == [] || IsInboxFollowed(pages[|pages| - 1], cursors[|pages| - 1])
    then outcome == Cancelled && cancelled(|pages|)
    else outcome == InboxEnd(pages[|pages| - 1])
  }

  /** The inbox walk, by the pages it fetched. */
  lemma {:induction false} InboxWalkEnds(remote: Remote, cancelled: nat -> bool)
    returns (pages: seq<Fetch>, cursors: seq<nat>, parts: seq<seq<Item>>)
    ensures var w := InboxWalk(remote, cancelled);
            && |pages| == |cursors| == w.fetches && AreInboxPages(pages, cursors, remote, cancelled)
            && AreInboxParts(parts, pages) && w.offered == Joined(parts)
            && InboxEnds(pages, cursors, cancelled, w.outcome)
  {
    InboxAdvances(remote);
    InboxTurnsTakePages(remote);
    pages, cursors, parts := PagesOfInboxWalk(InboxTurns(remote), remote, cancelled);
  }

  lemma {:induction false} PagesOfInboxWalk(turns: Turns, remote: Remote, cancelled: nat -> bool)
    returns (pages: seq<Fetch>, cursors: seq<nat>, parts: seq<seq<Item>>)
    requires Advances(turns, TWO_64) && TakeInboxPages(turns, remote)
    ensures var w := WalkFrom(turns, TWO_64, cancelled, 0, 0);
            && |pages| == |cursors| == w.fetches && AreInboxPages(pages, cursors, remote, cancelled)
            && AreInboxParts(parts, pages) && w.offered == Joined(parts)
            && InboxEnds(pages, cursors, cancelled, w.outcome)
  {
    cursors := WalkIsRecorded(turns, TWO_64, cancelled, 0, 0);
    pages := seq(|cursors|, i requires 0 <= i < |cursors| => remote(i, cursors[i]));
    parts := PartsOf(turns, 0, cursors);
    forall i: nat | i < |pages|
      ensures IsInboxPage(pages, cursors, remote, cancelled, i)
      ensures parts[i] == if pages[i].Page? then pages[i].items else []
    {
      assert Requested(turns, cancelled, 0, cursors, i);
      assert TakesInboxPage(turns(i, cursors[i]), remote(i, cursors[i]), cursors[i]);
      assert parts[i] == turns(0 + i, cursors[i]).offered;
    }
    if cursors != [] {
      var i := |cursors| - 1;
      assert TakesInboxPage(turns(i, cursors[i]), remote(i, cursors[i]), cursors[i]);
    }
  }
}
