/**
 What a source can get accepted that is not in the log its signed head commits to.
 The catch-up checks the head's signature and the index bound, and no inclusion proof.
 */
module OffLog {
  import opened Hashing
  import opened Wrappers
  import opened Envelopes
  import opened Inbox
  import opened InboxTheorems
  import opened InboxForks
  import opened EndToEnd
  import LedgerModel
  import LedgerTheorems
  import CatchUp
  import Wire

  // ------------------------------------------------------------ nothing comes from nowhere

  ghost predicate HoldsNoMore(s: Tables, n: Tables)
  {
    forall q, b | Holds(n, q, b) :: Holds(s, q, b)
  }

  lemma {:induction false} PromotionHoldsNoMore(own: PeerId, s: Tables, p: PeerId, n: Tables, x: Body)
    requires Sound(own, s, p) && Promotes(own, s, p, n, x)
    ensures HoldsNoMore(s, n)
  {
    AwaitingIs(s.orphans, p, HeadOf(s, p));
    assert x in Awaiting(s.orphans, p, HeadOf(s, p));
  }

  lemma {:induction false} WalkHoldsNoMore(own: PeerId, t: Tables, p: PeerId)
    requires Sound(own, t, p)
    ensures HoldsNoMore(t, Walk(t, p, [HeadOf(t, p)]))
  {
    var good, linked := (s: Tables) => true, (s: Tables, n: Tables) => HoldsNoMore(s, n);
    forall s, n, x | Sound(own, s, p) && good(s) && Promotes(own, s, p, n, x) ensures linked(s, n) {
      PromotionHoldsNoMore(own, s, p, n, x);
    }
    PromotionsInduction(own, t, p, good, linked);
  }

  ghost predicate AddsOnly(t: Tables, n: Tables, e: Option<Body>)
  {
    forall q, b | Holds(n, q, b) :: Holds(t, q, b) || e == Some(b)
  }

  lemma {:induction false} TakingAddsItself(cfg: Config, t: Tables, body: Body)
    requires Inv(cfg, t) && IsNew(cfg.own, t, body) && PrevOf(body) == HeadOf(t, Rater(body))
    ensures Unique(Taken(t, body).orphans) && AllCarried(Taken(t, body).orphans)
    ensures AddsOnly(t, Walk(Taken(t, body), Rater(body), [EntryHash(body)]), Some(body))
  {
    TakingAdvances(cfg.own, t, body);
    WalkHoldsNoMore(cfg.own, Taken(t, body), Rater(body));
    TakenAddsItself(t, body);
  }

  lemma {:induction false} TakenAddsItself(t: Tables, body: Body)
    requires body.Carried?
    ensures AddsOnly(t, Taken(t, body), Some(body))
  {
  }

  lemma {:induction false} DeliveryAddsItself(cfg: Config, t: Tables, e: Option<Body>)
    requires Inv(cfg, t)
    ensures AddsOnly(t, MachineOf(cfg)(t, e).tables, e)
  {
    DeliveryGoes(cfg, t, e);
    if e.Some? && IsNew(cfg.own, t, e.value) && PrevOf(e.value) == HeadOf(t, Rater(e.value)) {
      TakingAddsItself(cfg, t, e.value);
    }
  }

  /** Whatever an inbox holds after a run it held before, or it was delivered. */
  lemma {:induction false} RunAddsDelivered(cfg: Config, t: Tables, deliveries: seq<Option<Body>>, q: PeerId, b: Body)
    requires Inv(cfg, t) && Holds(Run(cfg, t, deliveries), q, b)
    ensures Holds(t, q, b) || Some(b) in deliveries
  {
    var ok := (s: Tables) => Inv(cfg, s) && (Holds(s, q, b) ==> Holds(t, q, b) || Some(b) in deliveries);
    forall s, e | ok(s) && e in deliveries ensures ok(MachineOf(cfg)(s, e).tables) {
      DeliveryKeeps(cfg, s, e);
      DeliveryAddsItself(cfg, s, e);
    }
    RunKeepsOk(MachineOf(cfg), ok, t, deliveries);
  }

  /** What is accepted stays accepted through every run. */
  lemma {:induction false} RunKeepsAccepted(cfg: Config, t: Tables, deliveries: seq<Option<Body>>, p: PeerId, b: Body)
    requires Inv(cfg, t) && b in AcceptedOf(t, p)
    ensures b in AcceptedOf(Run(cfg, t, deliveries), p)
  {
    var ok := (s: Tables) => Inv(cfg, s) && b in AcceptedOf(s, p);
    forall s, e | ok(s) && e in deliveries ensures ok(MachineOf(cfg)(s, e).tables) {
      DeliveryKeeps(cfg, s, e);
      AcceptedStays(cfg, s, e, b, p);
    }
    RunKeepsOk(MachineOf(cfg), ok, t, deliveries);
  }

  // ------------------------------------------------------------ departures

  /** At some place below `size`, what is accepted of the owner is not what its log holds there. */
  ghost predicate Departs(t: Tables, key: Key, rows: seq<LedgerModel.Row>, size: nat)
    requires size <= |rows|
  {
    exists i: nat :: i < size && DepartsAt(t, key, rows, i)
  }

  ghost predicate DepartsAt(t: Tables, key: Key, rows: seq<LedgerModel.Row>, i: nat)
    requires i < |rows|
  {
    i < |AcceptedOf(t, PeerOf(key))| && AcceptedOf(t, PeerOf(key))[i] != rows[i].body
  }

  /**
   `x` is an entry of the owner for place `i` of its log other than the one there, the
   inbox neither accepted that place nor has the log's entry waiting, and refuses none
   before it.
   */
  ghost predicate CanDepart(cfg: Config, t: Tables, key: Key, rows: seq<LedgerModel.Row>, i: nat, x: Body)
    requires i < |rows|
  {
    && Admissible(cfg.own, x) && Rater(x) == PeerOf(key) && x != rows[i].body
    && PrevOf(x) == LinkAt(LedgerModel.HashesOf(rows), i)
    && |AcceptedOf(t, PeerOf(key))| <= i <= ReceivableLength(cfg.own, rows)
    && rows[i].body !in t.orphans
  }

  lemma {:induction false} OnLogAtPlace(key: Key, rows: seq<LedgerModel.Row>, i: nat, x: Body)
    requires LedgerTheorems.Chained(key, rows) && i < |rows| && x in BodiesOf(rows)
    requires x.Carried? && PrevOf(x) == LinkAt(LedgerModel.HashesOf(rows), i)
    ensures x == rows[i].body
  {
    var l :| 0 <= l < |rows| && BodiesOf(rows)[l] == x;
    RowDepth(key, rows, l);
    RowsAreLine(key, rows);
    LineDepthIs(LedgerModel.HashesOf(rows), i);
  }

  /** The way to such an entry is open. */
  lemma {:induction false} DepartureIsOpen(cfg: Config, t: Tables, key: Key, rows: seq<LedgerModel.Row>, i: nat, x: Body)
    requires Inv(cfg, t) && LedgerTheorems.Chained(key, rows) && HoldsOnlyLog(t, key, rows)
    requires i < |rows| && CanDepart(cfg, t, key, rows, i, x)
    ensures IsOpen(cfg.own, t, PeerOf(key), EntryHash(x))
  {
    var p, g := PeerOf(key), LinkAt(LedgerModel.HashesOf(rows), i);
    BodyIsUnique(cfg.own, x);
    LinksCanBecomeHead(cfg, t, key, rows, i);
    NothingWaitsAt(cfg, t, key, rows, i);
  }

  lemma {:induction false} NothingWaitsAt(cfg: Config, t: Tables, key: Key, rows: seq<LedgerModel.Row>, i: nat)
    requires Inv(cfg, t) && LedgerTheorems.Chained(key, rows) && HoldsOnlyLog(t, key, rows)
    requires i < |rows| && rows[i].body !in t.orphans
    ensures Awaiting(t.orphans, PeerOf(key), LinkAt(LedgerModel.HashesOf(rows), i)) == []
  {
    var p, g := PeerOf(key), LinkAt(LedgerModel.HashesOf(rows), i);
    forall b | b in t.orphans ensures !Awaits(b, p, g) {
      if Awaits(b, p, g) {
        OnLogAtPlace(key, rows, i, b);
      }
    }
    NoneAwaits(t.orphans, p, g);
  }

  /** An entry off the log to which the way is open can depart. */
  lemma {:induction false} OpenCanDepart(cfg: Config, t: Tables, key: Key, rows: seq<LedgerModel.Row>, i: nat, x: Body)
    requires Inv(cfg, t) && LedgerTheorems.Chained(key, rows) && HoldsOnlyLog(t, key, rows) && i < |rows|
    requires Admissible(cfg.own, x) && Rater(x) == PeerOf(key) && x != rows[i].body
    requires PrevOf(x) == LinkAt(LedgerModel.HashesOf(rows), i) && IsOpen(cfg.own, t, PeerOf(key), EntryHash(x))
    ensures CanDepart(cfg, t, key, rows, i, x)
  {
    var p, line := PeerOf(key), LedgerModel.HashesOf(rows);
    NotHeldOffLog(cfg, t, key, rows, i, x);
    BodyIsUnique(cfg.own, x);
    HeadDepth(cfg.own, t, p);
    assert CanBecomeHead(cfg.own, t, p, LinkAt(line, i)) && ComesFirst(t, p, EntryHash(x));
    LinkIsReceivable(cfg, t, key, rows, i);
    if rows[i].body in t.orphans {
      WaitingRowComesFirst(cfg, t, key, rows, i);
      AdmissibleRow(cfg.own, key, rows, i);
    }
  }

  lemma {:induction false} NotHeldOffLog(cfg: Config, t: Tables, key: Key, rows: seq<LedgerModel.Row>, i: nat, x: Body)
    requires LedgerTheorems.Chained(key, rows) && HoldsOnlyLog(t, key, rows) && i < |rows|
    requires x.Carried? && x != rows[i].body && PrevOf(x) == LinkAt(LedgerModel.HashesOf(rows), i)
    ensures !Holds(t, PeerOf(key), x)
  {
    if Holds(t, PeerOf(key), x) {
      assert x in BodiesOf(rows);
      OnLogAtPlace(key, rows, i, x);
    }
  }

  lemma {:induction false} LinkIsReceivable(cfg: Config, t: Tables, key: Key, rows: seq<LedgerModel.Row>, i: nat)
    requires Inv(cfg, t) && LedgerTheorems.Chained(key, rows) && i <= |rows|
    requires CanBecomeHead(cfg.own, t, PeerOf(key), LinkAt(LedgerModel.HashesOf(rows), i))
    ensures |AcceptedOf(t, PeerOf(key))| <= i <= ReceivableLength(cfg.own, rows)
  {
    var line := LedgerModel.HashesOf(rows);
    RowsAreLine(key, rows);
    LineDepthIs(line, i);
    HeadDepth(cfg.own, t, PeerOf(key));
    HeadsLieDeeper(cfg.own, t, PeerOf(key), LinkAt(line, i));
    if i > 0 {
      OpenIsReceivable(cfg, t, key, rows, i - 1);
    }
  }

  lemma {:induction false} WaitingRowComesFirst(cfg: Config, t: Tables, key: Key, rows: seq<LedgerModel.Row>, i: nat)
    requires Inv(cfg, t) && LedgerTheorems.Chained(key, rows) && HoldsOnlyLog(t, key, rows)
    requires i < |rows| && rows[i].body in t.orphans
    ensures Admissible(cfg.own, rows[i].body)
    ensures var waiting := Awaiting(t.orphans, PeerOf(key), LinkAt(LedgerModel.HashesOf(rows), i));
            waiting != [] && waiting[0] == rows[i].body
  {
    var g := LinkAt(LedgerModel.HashesOf(rows), i);
    var waiting := Awaiting(t.orphans, PeerOf(key), g);
    AwaitingIs(t.orphans, PeerOf(key), g);
    RowDepth(key, rows, i);
    AdmissibleIsByOwner(cfg.own, key, rows, i);
    assert rows[i].body in waiting;
    assert waiting[0] in waiting;
    OnLogAtPlace(key, rows, i, waiting[0]);
  }

  // ------------------------------------------------------------ what a run can do

  /** A departure is the work of a delivered entry that could depart. */
  lemma {:induction false} DepartureWasDelivered(cfg: Config, t: Tables, key: Key, rows: seq<LedgerModel.Row>, size: nat,
                                                 deliveries: seq<Option<Body>>)
    returns (i: nat, x: Body)
    requires Inv(cfg, t) && LedgerTheorems.Chained(key, rows) && HoldsOnlyLog(t, key, rows) && size <= |rows|
    requires Departs(Run(cfg, t, deliveries), key, rows, size)
    ensures i < size && CanDepart(cfg, t, key, rows, i, x) && Some(x) in deliveries
  {
    var p, n := PeerOf(key), Run(cfg, t, deliveries);
    RunKeepsInvFrom(cfg, t, deliveries);
    HeadIsLink(cfg.own, n, p);
    i := FirstDeparture(AcceptedOf(n, p), key, rows, size, 0);
    x := AcceptedOf(n, p)[i];
    NotHeldOffLog(cfg, t, key, rows, i, x);
    assert Holds(n, p, x);
    RunAddsDelivered(cfg, t, deliveries, p, x);
    BodyIsUnique(cfg.own, x);
    AcceptedWasOpen(cfg, t, deliveries, p, EntryHash(x));
    OpenCanDepart(cfg, t, key, rows, i, x);
  }

  lemma {:induction false} FirstDeparture(accepted: seq<Body>, key: Key, rows: seq<LedgerModel.Row>, size: nat, from: nat)
    returns (i: nat)
    requires LedgerTheorems.Chained(key, rows) && size <= |rows| && from <= |accepted|
    requires exists j: nat :: from <= j < size && j < |accepted| && accepted[j] != rows[j].body
    requires from > 0 ==> accepted[from - 1] == rows[from - 1].body
    ensures i < size && i < |accepted| && accepted[i] != rows[i].body
    ensures Link(accepted, i) == LinkAt(LedgerModel.HashesOf(rows), i)
    decreases size - from
  {
    if accepted[from] == rows[from].body {
      i := FirstDeparture(accepted, key, rows, size, from + 1);
    } else {
      i := from;
      if i > 0 {
        RowNamesItself(key, rows, i - 1);
      }
    }
  }

  /** The log up to a place, and then another entry for it. */
  function Diverted(rows: seq<LedgerModel.Row>, i: nat, x: Body): seq<Body>
    requires i < |rows|
  {
    BodiesOf(rows)[..i] + [x]
  }

  lemma {:induction false} DivertedIsLine(cfg: Config, key: Key, rows: seq<LedgerModel.Row>, i: nat, x: Body)
    requires LedgerTheorems.Chained(key, rows) && i < |rows| && Admissible(cfg.own, x)
    requires PrevOf(x) == LinkAt(LedgerModel.HashesOf(rows), i)
    ensures IsLine(LedgerModel.HashesOf(rows)[..i] + [EntryHash(x)])
  {
    var log := LedgerModel.HashesOf(rows);
    var line := log[..i] + [EntryHash(x)];
    RowsAreLine(key, rows);
    forall l | 0 <= l < |line|
      ensures line[l].LeafHash? && line[l].entry.prev.Full? && line[l].entry.prev.hash == LinkAt(line, l)
    {
      assert l < i ==> line[l] == log[l];
      assert LinkAt(line, l) == LinkAt(log, l);
    }
  }

  /** Served in this order, it is accepted at that place. */
  lemma {:induction false} DivertedDeparts(cfg: Config, t: Tables, key: Key, rows: seq<LedgerModel.Row>, i: nat, x: Body,
                                           deliveries: seq<Option<Body>>)
    requires Inv(cfg, t) && LedgerTheorems.Chained(key, rows) && HoldsOnlyLog(t, key, rows)
    requires i < |rows| && CanDepart(cfg, t, key, rows, i, x)
    requires AsDeliveries(Diverted(rows, i, x)) <= deliveries
    ensures DepartsAt(Run(cfg, t, deliveries), key, rows, i)
  {
    DivertedIsAccepted(cfg, t, key, rows, i, x);
    PrefixKeepsAccepted(cfg, t, AsDeliveries(Diverted(rows, i, x)), deliveries, PeerOf(key), x);
    AcceptedAtPlace(cfg, Run(cfg, t, deliveries), key, rows, i, x);
  }

  lemma {:induction false} PrefixKeepsAccepted(cfg: Config, t: Tables, first: seq<Option<Body>>,
                                               deliveries: seq<Option<Body>>, p: PeerId, b: Body)
    requires Inv(cfg, t) && b in AcceptedOf(Run(cfg, t, first), p) && first <= deliveries
    ensures Inv(cfg, Run(cfg, t, deliveries)) && b in AcceptedOf(Run(cfg, t, deliveries), p)
  {
    assert first + deliveries[|first|..] == deliveries;
    MoreKeepsAccepted(cfg, t, first, deliveries[|first|..], p, b);
    RunKeepsInvFrom(cfg, t, deliveries);
  }

  lemma {:induction false} MoreKeepsAccepted(cfg: Config, t: Tables, first: seq<Option<Body>>, rest: seq<Option<Body>>,
                                             p: PeerId, b: Body)
    requires Inv(cfg, t) && b in AcceptedOf(Run(cfg, t, first), p)
    ensures b in AcceptedOf(Run(cfg, t, first + rest), p)
  {
    RunKeepsInvFrom(cfg, t, first);
    RunJoins(cfg, t, first, rest);
    RunKeepsAccepted(cfg, Run(cfg, t, first), rest, p, b);
  }

  lemma {:induction false} AcceptedAtPlace(cfg: Config, t: Tables, key: Key, rows: seq<LedgerModel.Row>, i: nat, x: Body)
    requires Inv(cfg, t) && LedgerTheorems.Chained(key, rows) && i < |rows|
    requires x in AcceptedOf(t, PeerOf(key)) && x.Carried? && PrevOf(x) == LinkAt(LedgerModel.HashesOf(rows), i)
    ensures i < |AcceptedOf(t, PeerOf(key))| && AcceptedOf(t, PeerOf(key))[i] == x
  {
    HeadIsLink(cfg.own, t, PeerOf(key));
    RowsAreLine(key, rows);
    LineDepthIs(LedgerModel.HashesOf(rows), i);
    PlaceByDepth(cfg.own, PeerOf(key), AcceptedOf(t, PeerOf(key)), x, i);
  }

  lemma {:induction false} DivertedIsAccepted(cfg: Config, t: Tables, key: Key, rows: seq<LedgerModel.Row>, i: nat, x: Body)
    requires Inv(cfg, t) && LedgerTheorems.Chained(key, rows) && HoldsOnlyLog(t, key, rows)
    requires i < |rows| && CanDepart(cfg, t, key, rows, i, x)
    ensures x in AcceptedOf(Run(cfg, t, AsDeliveries(Diverted(rows, i, x))), PeerOf(key))
  {
    var p, log := PeerOf(key), LedgerModel.HashesOf(rows);
    var line, deliveries := log[..i] + [EntryHash(x)], AsDeliveries(Diverted(rows, i, x));
    DivertedIsLine(cfg, key, rows, i, x);
    BodyIsUnique(cfg.own, x);
    DivertedDelivers(cfg, key, rows, i, x);
    DepartureIsOpen(cfg, t, key, rows, i, x);
    InOrderIsAcceptedIff(cfg, t, p, line, deliveries, i);
  }

  lemma {:induction false} DivertedDelivers(cfg: Config, key: Key, rows: seq<LedgerModel.Row>, i: nat, x: Body)
    requires LedgerTheorems.Chained(key, rows) && i < |rows| && Admissible(cfg.own, x)
    ensures var line, deliveries := LedgerModel.HashesOf(rows)[..i] + [EntryHash(x)], AsDeliveries(Diverted(rows, i, x));
            |line| == |deliveries| && forall l | 0 <= l < |deliveries| && IsEntryOf(cfg.own, PeerOf(key), line[l]) ::
              deliveries[l] == Some(BodyOf(line[l]))
  {
    BodyIsUnique(cfg.own, x);
    forall l | 0 <= l < i && IsEntryOf(cfg.own, PeerOf(key), rows[l].hash)
      ensures BodyOf(rows[l].hash) == rows[l].body
    {
      AdmissibleRow(cfg.own, key, rows, l);
    }
  }

  lemma {:induction false} RunJoins(cfg: Config, t: Tables, first: seq<Option<Body>>, second: seq<Option<Body>>)
    ensures Run(cfg, t, first + second) == Run(cfg, Run(cfg, t, first), second)
    decreases |second|
  {
    var all := first + second;
    if |second| == 0 {
      assert all == first;
    } else {
      assert all[..|all| - 1] == first + second[..|second| - 1];
      RunJoins(cfg, t, first, second[..|second| - 1]);
    }
  }

  // ------------------------------------------------------------ what a source can serve

  /** A source that serves one entry a page. */
  function OneByOne(payload: nat -> seq<Wire.byte>): CatchUp.Remote
  {
    (k: nat, from: nat) =>
      if from < Wire.TWO_64 then CatchUp.Page([Wire.Item(from, payload(from))]) else CatchUp.FetchFailed
  }

  lemma {:induction false} OneByOneFrom(payload: nat -> seq<Wire.byte>, size: nat, k: nat)
    requires k < size < Wire.TWO_64
    requires CatchUp.Advances(CatchUp.LogTurns(size, OneByOne(payload)), size)
    ensures var w := CatchUp.WalkFrom(CatchUp.LogTurns(size, OneByOne(payload)), size, _ => false, k, k);
            w.outcome == CatchUp.Complete && w.offered == CatchUp.Range(payload, k + 1, size)
    decreases size - k
  {
    var item := Wire.Item(k + 1, payload(k + 1));
    CatchUp.RangeRest(payload, k + 1, size);
    CatchUp.TurnOfFullPage(size, [item], k);
    OneEntryTurn(size, item, k);
    if k + 1 < size {
      OneByOneFrom(payload, size, k + 1);
    } else {
      assert CatchUp.Range(payload, k + 2, size) == [];
    }
  }

  lemma {:induction false} OneEntryTurn(size: nat, item: Wire.Item, last: nat)
    requires item.id == last + 1 <= size
    ensures CatchUp.LogTurn(size, CatchUp.Page([item]), last)
         == if last + 1 < size then CatchUp.Go([item], last + 1) else CatchUp.Stop(CatchUp.Complete, [item])
  {
    assert [item][1..] == [];
    assert CatchUp.WithinHead([item], size) == [item];
  }

  lemma {:induction false} OneByOneOffersAll(payload: nat -> seq<Wire.byte>, size: nat)
    requires 0 < size < Wire.TWO_64
    ensures var w := CatchUp.LogWalk(size, OneByOne(payload), _ => false);
            w.outcome == CatchUp.Complete && w.offered == CatchUp.Range(payload, 1, size)
  {
    CatchUp.LogAdvances(size, OneByOne(payload));
    OneByOneFrom(payload, size, 0);
  }

  /** What is known can be written down, within the cap on a payload, and read back. */
  ghost predicate Encodes(encode: Body -> seq<Wire.byte>, decode: seq<Wire.byte> -> Option<Body>, known: iset<Body>)
  {
    forall b | b in known :: decode(encode(b)) == Some(b) && |encode(b)| <= Wire.MAX_PAYLOAD
  }

  /** Pages within the client's caps, and of the owner's only entries that are known. */
  ghost predicate ServesKnown(remote: CatchUp.Remote, decode: seq<Wire.byte> -> Option<Body>, known: iset<Body>)
  {
    forall k: nat, from: nat | remote(k, from).Page? ::
      && Wire.WithinCaps(remote(k, from).items)
      && forall e | e in remote(k, from).items && decode(e.payload).Some? :: decode(e.payload).value in known
  }

  /** The `l`-th entry of a list that goes on with its last. */
  function Padded(bodies: seq<Body>, l: nat): Body
    requires |bodies| > 0
  {
    if l < |bodies| then bodies[l] else bodies[|bodies| - 1]
  }

  /** Whatever log its head commits to, a source can have any known entries offered, in any order. */
  lemma {:induction false} AnythingCanBeServed(size: nat, bodies: seq<Body>, encode: Body -> seq<Wire.byte>,
                                               decode: seq<Wire.byte> -> Option<Body>, known: iset<Body>)
    returns (remote: CatchUp.Remote)
    requires 0 < |bodies| <= size < Wire.TWO_64 && Encodes(encode, decode, known)
    requires forall b | b in bodies :: b in known
    ensures ServesKnown(remote, decode, known)
    ensures var w := CatchUp.LogWalk(size, remote, _ => false);
            w.outcome == CatchUp.Complete && AsDeliveries(bodies) <= Decoded(w.offered, decode)
  {
    var payload := (j: nat) => encode(if j == 0 then bodies[0] else Padded(bodies, j - 1));
    remote := OneByOne(payload);
    OneByOneOffersAll(payload, size);
    forall j: nat ensures IsKnownPayload(payload(j), decode, known) {
      assert (if j == 0 then bodies[0] else Padded(bodies, j - 1)) in bodies;
    }
    OneByOneServesKnown(payload, decode, known);
    forall l | 0 <= l < |bodies| ensures decode(payload(l + 1)) == Some(bodies[l]) {
      assert bodies[l] in bodies;
    }
    RangeIsDecoded(payload, size, bodies, decode);
  }

  ghost predicate IsKnownPayload(payload: seq<Wire.byte>, decode: seq<Wire.byte> -> Option<Body>, known: iset<Body>)
  {
    decode(payload).Some? && decode(payload).value in known && |payload| <= Wire.MAX_PAYLOAD
  }

  lemma {:induction false} OneByOneServesKnown(payload: nat -> seq<Wire.byte>, decode: seq<Wire.byte> -> Option<Body>,
                                               known: iset<Body>)
    requires forall j: nat :: IsKnownPayload(payload(j), decode, known)
    ensures ServesKnown(OneByOne(payload), decode, known)
  {
    var remote := OneByOne(payload);
    forall k: nat, from: nat | remote(k, from).Page?
      ensures Wire.WithinCaps(remote(k, from).items)
      ensures forall e | e in remote(k, from).items :: IsKnownPayload(e.payload, decode, known)
    {
      OneItemFits(remote(k, from).items[0]);
    }
  }

  lemma {:induction false} RangeIsDecoded(payload: nat -> seq<Wire.byte>, size: nat, bodies: seq<Body>,
                                          decode: seq<Wire.byte> -> Option<Body>)
    requires |bodies| <= size < Wire.TWO_64
    requires forall l | 0 <= l < |bodies| :: decode(payload(l + 1)) == Some(bodies[l])
    ensures AsDeliveries(bodies) <= Decoded(CatchUp.Range(payload, 1, size), decode)
  {
    forall l | 0 <= l < |bodies|
      ensures AsDeliveries(bodies)[l] == Decoded(CatchUp.Range(payload, 1, size), decode)[l]
    {
    }
  }

  lemma {:induction false} OneItemFits(item: Wire.Item)
    requires |item.payload| <= Wire.MAX_PAYLOAD
    ensures Wire.WithinCaps([item])
  {
  }

  lemma {:induction false} OffersOnlyKnown(size: nat, remote: CatchUp.Remote, cancelled: nat -> bool,
                                           decode: seq<Wire.byte> -> Option<Body>, known: iset<Body>, x: Body)
    requires size > 0 && ServesKnown(remote, decode, known)
    requires Some(x) in Decoded(CatchUp.LogWalk(size, remote, cancelled).offered, decode)
    ensures x in known
  {
    var offered := CatchUp.LogWalk(size, remote, cancelled).offered;
    var good := (e: Wire.Item) => decode(e.payload).Some? ==> decode(e.payload).value in known;
    CatchUp.LogAdvances(size, remote);
    forall k: nat, last: nat, e | e in CatchUp.LogTurns(size, remote)(k, last).offered ensures good(e) {
      assert e in remote(k, last + 1).items;
    }
    CatchUp.WalkOffersGood(CatchUp.LogTurns(size, remote), size, cancelled, 0, 0, good);
    var l :| 0 <= l < |offered| && Decoded(offered, decode)[l] == Some(x);
    assert offered[l] in offered;
  }

  /** The remote, serving what is known, gets the inbox to accept something else at a place of the log. */
  ghost predicate GetsDeparture(cfg: Config, t: Tables, key: Key, rows: seq<LedgerModel.Row>, size: nat,
                                remote: CatchUp.Remote, cancelled: nat -> bool,
                                decode: seq<Wire.byte> -> Option<Body>, known: iset<Body>)
    requires 0 < size <= |rows|
  {
    && ServesKnown(remote, decode, known)
    && Departs(Run(cfg, t, Decoded(CatchUp.LogWalk(size, remote, cancelled).offered, decode)), key, rows, size)
  }

  lemma {:induction false} DivertedIsKnown(rows: seq<LedgerModel.Row>, i: nat, x: Body, known: iset<Body>)
    requires i < |rows| && x in known && forall l | 0 <= l < i :: rows[l].body in known
    ensures forall b | b in Diverted(rows, i, x) :: b in known
  {
  }

  lemma {:induction false} KnownDeparts(cfg: Config, t: Tables, key: Key, rows: seq<LedgerModel.Row>, size: nat, i: nat,
                                        x: Body, encode: Body -> seq<Wire.byte>,
                                        decode: seq<Wire.byte> -> Option<Body>, known: iset<Body>)
    returns (remote: CatchUp.Remote)
    requires Inv(cfg, t) && LedgerTheorems.Chained(key, rows) && HoldsOnlyLog(t, key, rows)
    requires i < size <= |rows| && size < Wire.TWO_64 && Encodes(encode, decode, known)
    requires x in known && forall l | 0 <= l < i :: rows[l].body in known
    requires CanDepart(cfg, t, key, rows, i, x)
    ensures GetsDeparture(cfg, t, key, rows, size, remote, _ => false, decode, known)
  {
    DivertedIsKnown(rows, i, x, known);
    remote := AnythingCanBeServed(size, Diverted(rows, i, x), encode, decode, known);
    DivertedDeparts(cfg, t, key, rows, i, x, Decoded(CatchUp.LogWalk(size, remote, _ => false).offered, decode));
  }

  lemma {:induction false} DepartureIsKnown(cfg: Config, t: Tables, key: Key, rows: seq<LedgerModel.Row>, size: nat,
                                            remote: CatchUp.Remote, cancelled: nat -> bool,
                                            decode: seq<Wire.byte> -> Option<Body>, known: iset<Body>)
    returns (i: nat, x: Body)
    requires Inv(cfg, t) && LedgerTheorems.Chained(key, rows) && HoldsOnlyLog(t, key, rows) && 0 < size <= |rows|
    requires GetsDeparture(cfg, t, key, rows, size, remote, cancelled, decode, known)
    ensures i < size && x in known && CanDepart(cfg, t, key, rows, i, x)
  {
    var deliveries := Decoded(CatchUp.LogWalk(size, remote, cancelled).offered, decode);
    i, x := DepartureWasDelivered(cfg, t, key, rows, size, deliveries);
    OffersOnlyKnown(size, remote, cancelled, decode, known, x);
  }

  /**
   A source that knows at least the owner's log, up to the size of the head it serves, can
   get the inbox to accept something else at a place of that log if and only if it knows an
   entry of the owner that can depart: the head it serves, and what that commits to, does
   not come into it.
   */
  lemma OffLogIff(cfg: Config, t: Tables, key: Key, rows: seq<LedgerModel.Row>, head: LogHead,
                  encode: Body -> seq<Wire.byte>, decode: seq<Wire.byte> -> Option<Body>, known: iset<Body>)
    requires Inv(cfg, t) && LedgerTheorems.Chained(key, rows) && HoldsOnlyLog(t, key, rows)
    requires HeadVerifies(head) && LedgerTheorems.CommitsTo(CanonicalOfHead(head), key, LedgerModel.HashesOf(rows))
    requires head.treeSize < Wire.TWO_64 && Encodes(encode, decode, known)
    requires forall i | 0 <= i < head.treeSize :: rows[i].body in known
    ensures (exists remote: CatchUp.Remote, cancelled: nat -> bool ::
               GetsDeparture(cfg, t, key, rows, head.treeSize, remote, cancelled, decode, known))
       <==> exists i: nat, x :: i < head.treeSize && x in known && CanDepart(cfg, t, key, rows, i, x)
  {
    if exists i: nat, x :: i < head.treeSize && x in known && CanDepart(cfg, t, key, rows, i, x) {
      SomeDeparts(cfg, t, key, rows, head.treeSize, encode, decode, known);
    }
    if remote: CatchUp.Remote, cancelled: nat -> bool :|
      GetsDeparture(cfg, t, key, rows, head.treeSize, remote, cancelled, decode, known) {
      var i, x := DepartureIsKnown(cfg, t, key, rows, head.treeSize, remote, cancelled, decode, known);
    }
  }

  lemma {:induction false} SomeDeparts(cfg: Config, t: Tables, key: Key, rows: seq<LedgerModel.Row>, size: nat,
                                       encode: Body -> seq<Wire.byte>, decode: seq<Wire.byte> -> Option<Body>,
                                       known: iset<Body>)
    requires Inv(cfg, t) && LedgerTheorems.Chained(key, rows) && HoldsOnlyLog(t, key, rows)
    requires 0 < size <= |rows| && size < Wire.TWO_64 && Encodes(encode, decode, known)
    requires forall i | 0 <= i < size :: rows[i].body in known
    requires exists i: nat, x :: i < size && x in known && CanDepart(cfg, t, key, rows, i, x)
    ensures exists remote: CatchUp.Remote, cancelled: nat -> bool ::
              GetsDeparture(cfg, t, key, rows, size, remote, cancelled, decode, known)
  {
    var i: nat, x :| i < size && x in known && CanDepart(cfg, t, key, rows, i, x);
    SomeRemoteDeparts(cfg, t, key, rows, size, i, x, encode, decode, known);
  }

  lemma {:induction false} SomeRemoteDeparts(cfg: Config, t: Tables, key: Key, rows: seq<LedgerModel.Row>, size: nat,
                                             i: nat, x: Body, encode: Body -> seq<Wire.byte>,
                                             decode: seq<Wire.byte> -> Option<Body>, known: iset<Body>)
    requires Inv(cfg, t) && LedgerTheorems.Chained(key, rows) && HoldsOnlyLog(t, key, rows)
    requires i < size <= |rows| && size < Wire.TWO_64 && Encodes(encode, decode, known)
    requires x in known && forall l | 0 <= l < i :: rows[l].body in known
    requires CanDepart(cfg, t, key, rows, i, x)
    ensures exists remote: CatchUp.Remote, cancelled: nat -> bool ::
              GetsDeparture(cfg, t, key, rows, size, remote, cancelled, decode, known)
  {
    var remote := KnownDeparts(cfg, t, key, rows, size, i, x, encode, decode, known);
    WitnessDeparts(cfg, t, key, rows, size, remote, _ => false, decode, known);
  }

  lemma {:induction false} WitnessDeparts(cfg: Config, t: Tables, key: Key, rows: seq<LedgerModel.Row>, size: nat,
                                          r: CatchUp.Remote, c: nat -> bool, decode: seq<Wire.byte> -> Option<Body>,
                                          known: iset<Body>)
    requires 0 < size <= |rows| && GetsDeparture(cfg, t, key, rows, size, r, c, decode, known)
    ensures exists remote: CatchUp.Remote, cancelled: nat -> bool ::
              GetsDeparture(cfg, t, key, rows, size, remote, cancelled, decode, known)
  {
  }

  /** So it cannot if the owner signed nothing that is not in its log. */
  lemma {:induction false} OnlyLogIsAccepted(cfg: Config, t: Tables, key: Key, rows: seq<LedgerModel.Row>, size: nat,
                                             remote: CatchUp.Remote, cancelled: nat -> bool,
                                             decode: seq<Wire.byte> -> Option<Body>, known: iset<Body>)
    requires Inv(cfg, t) && LedgerTheorems.Chained(key, rows) && HoldsOnlyLog(t, key, rows) && 0 < size <= |rows|
    requires forall x | x in known && Admissible(cfg.own, x) && Rater(x) == PeerOf(key) :: x in BodiesOf(rows)
    ensures !GetsDeparture(cfg, t, key, rows, size, remote, cancelled, decode, known)
  {
    if GetsDeparture(cfg, t, key, rows, size, remote, cancelled, decode, known) {
      var i, x := DepartureIsKnown(cfg, t, key, rows, size, remote, cancelled, decode, known);
      OnLogAtPlace(key, rows, i, x);
    }
  }
}
