/** What a catch-up from an honest log does for the inbox that receives its entries. */
module EndToEnd {
  import opened Arithmetic
  import opened Hashing
  import opened Wrappers
  import opened Envelopes
  import opened Inbox
  import opened InboxTheorems
  import opened InboxForks
  import LedgerModel
  import LedgerTheorems
  import CatchUp
  import Wire

  function BodiesOf(rows: seq<LedgerModel.Row>): seq<Body>
  {
    seq(|rows|, i requires 0 <= i < |rows| => rows[i].body)
  }

  // ------------------------------------------------------------ what of a log can be received

  /** How many rows there are before the first that a receiver refuses. */
  function ReceivableLength(own: PeerId, rows: seq<LedgerModel.Row>): (r: nat)
    ensures r <= |rows|
    ensures forall i | 0 <= i < r :: Admissible(own, rows[i].body)
    ensures r < |rows| ==> !Admissible(own, rows[r].body)
  {
    if |rows| == 0 || !Admissible(own, rows[0].body) then 0 else 1 + ReceivableLength(own, rows[1..])
  }

  /** Up to its first entry that is refused, an honest log is a chain in the sense of the inbox. */
  lemma LogIsChain(own: PeerId, key: Key, rows: seq<LedgerModel.Row>)
    requires LedgerTheorems.Chained(key, rows)
    ensures IsChain(own, PeerOf(key), BodiesOf(rows)[..ReceivableLength(own, rows)])
  {
    var chain := BodiesOf(rows)[..ReceivableLength(own, rows)];
    forall i | 0 <= i < |chain|
      ensures Admissible(own, chain[i]) && Rater(chain[i]) == PeerOf(key) && PrevOf(chain[i]) == Link(chain, i)
    {
      AdmissibleIsByOwner(own, key, rows, i);
      RowNamesItsLink(key, rows, i);
    }
  }

  lemma AdmissibleIsByOwner(own: PeerId, key: Key, rows: seq<LedgerModel.Row>, i: nat)
    requires LedgerTheorems.Chained(key, rows) && i < |rows| && Admissible(own, rows[i].body)
    ensures Rater(rows[i].body) == PeerOf(key)
  {
  }

  lemma RowNamesItsLink(key: Key, rows: seq<LedgerModel.Row>, i: nat)
    requires LedgerTheorems.Chained(key, rows) && i < |rows|
    ensures rows[i].body.Carried? && rows[i].body.prev.Full?
    ensures PrevOf(rows[i].body) == Link(BodiesOf(rows), i)
  {
    if i > 0 {
      assert rows[i - 1].hash == EntryHash(rows[i - 1].body);
    }
    LinksAgree(rows, i);
  }

  lemma LinksAgree(rows: seq<LedgerModel.Row>, i: nat)
    requires i <= |rows| && (i > 0 ==> rows[i - 1].hash == EntryHash(rows[i - 1].body))
    ensures LedgerTheorems.PrevOf(rows, i) == Link(BodiesOf(rows), i)
  {
  }

  // ------------------------------------------------------------ the way along a line of hashes

  function LinkAt(line: seq<Hash>, i: nat): Hash
    requires i <= |line|
  {
    if i == 0 then ZERO else line[i - 1]
  }

  /** Each hash is of an entry that names the one before. */
  ghost predicate IsLine(line: seq<Hash>)
  {
    && (forall i | 0 <= i < |line| :: line[i].LeafHash? && line[i].entry.prev.Full?)
    && (forall i {:trigger LinkAt(line, i)} | 0 <= i < |line| :: line[i].entry.prev.hash == LinkAt(line, i))
  }

  lemma RowsAreLine(key: Key, rows: seq<LedgerModel.Row>)
    requires LedgerTheorems.Chained(key, rows)
    ensures IsLine(LedgerModel.HashesOf(rows))
  {
    var line := LedgerModel.HashesOf(rows);
    forall i | 0 <= i < |line|
      ensures line[i].LeafHash? && line[i].entry.prev.Full? && line[i].entry.prev.hash == LinkAt(line, i)
    {
      assert line[i] == rows[i].hash == EntryHash(rows[i].body);
      assert rows[i].prev == LedgerTheorems.PrevOf(rows, i) == LinkAt(line, i);
    }
  }

  lemma {:induction false} LineDepthIs(line: seq<Hash>, i: nat)
    requires IsLine(line) && i <= |line|
    ensures Depth(LinkAt(line, i)) == i
  {
    if i > 0 {
      LineDepthIs(line, i - 1);
    }
  }

  lemma {:induction false} Downward(holds: Hash -> bool, line: seq<Hash>, i: nat, j: nat)
    requires i <= j < |line| && holds(line[j])
    requires forall k: nat | 0 < k < |line| && holds(line[k]) :: holds(line[k - 1])
    ensures holds(line[i])
    decreases j
  {
    if i < j {
      Downward(holds, line, i, j - 1);
    }
  }

  lemma LineIsOnLine(line: seq<Hash>, i: nat, j: nat)
    requires IsLine(line) && i <= j < |line|
    ensures OnLine(line[i], line[j])
  {
    var holds := (h: Hash) => OnLine(h, line[j]);
    forall k: nat | 0 < k < |line| && holds(line[k]) ensures holds(line[k - 1]) {
      OnLineBefore(line[k], line[j]);
      assert line[k].entry.prev.hash == LinkAt(line, k);
    }
    Downward(holds, line, i, j);
  }

  lemma {:induction false} OnLineBefore(y: Hash, h: Hash)
    requires OnLine(y, h) && y.LeafHash? && y.entry.prev.Full?
    ensures OnLine(y.entry.prev.hash, h)
    decreases h
  {
    if y != h {
      OnLineBefore(y, h.entry.prev.hash);
    }
  }

  /** An open hash of a line is one of an admissible entry, and the hash before it is open too. */
  lemma OpenOnLine(own: PeerId, t: Tables, p: PeerId, line: seq<Hash>, i: nat)
    requires Chains(own, t) && IsLine(line) && i < |line| && IsOpen(own, t, p, line[i])
    ensures IsEntryOf(own, p, line[i])
    ensures IsOpen(own, t, p, LinkAt(line, i))
    ensures BodyOf(line[i]) !in AcceptedOf(t, p) ==> CanBecomeHead(own, t, p, LinkAt(line, i))
  {
    if Passed(t, p, line[i]) {
      PassedIsEntry(own, t, p, line[i]);
    } else {
      HeadDepth(own, t, p);
    }
  }

  lemma PassedIsEntry(own: PeerId, t: Tables, p: PeerId, h: Hash)
    requires Chains(own, t) && h != ZERO && Passed(t, p, h)
    ensures IsEntryOf(own, p, h) && Passed(t, p, h.entry.prev.hash)
  {
    HeadIsLink(own, t, p);
    BodyHasHash(h);
    BodyIsUnique(own, BodyOf(h));
    PredecessorIsPassed(own, t, BodyOf(h));
  }

  lemma OpenBelow(own: PeerId, t: Tables, p: PeerId, line: seq<Hash>, i: nat, j: nat)
    requires Chains(own, t) && IsLine(line) && i <= j < |line| && IsOpen(own, t, p, line[j])
    ensures IsOpen(own, t, p, line[i])
  {
    var open := (h: Hash) => IsOpen(own, t, p, h);
    forall k: nat | 0 < k < |line| && open(line[k]) ensures open(line[k - 1]) {
      OpenOnLine(own, t, p, line, k);
    }
    Downward(open, line, i, j);
  }

  // ------------------------------------------------------------ delivery in order

  /** The way to the `j`-th hash is open and the entries before the `i`-th on it are accepted. */
  ghost predicate OnTheWay(cfg: Config, t: Tables, p: PeerId, line: seq<Hash>, j: nat, i: nat)
    requires j < |line|
  {
    Inv(cfg, t) && IsOpen(cfg.own, t, p, line[j]) && AcceptedUpTo(t, p, line[..j + 1], i)
  }

  ghost predicate AcceptedUpTo(t: Tables, p: PeerId, line: seq<Hash>, i: nat)
  {
    forall l | 0 <= l < i && l < |line| :: BodyOf(line[l]) in AcceptedOf(t, p)
  }

  lemma AcceptedOneMore(t: Tables, n: Tables, p: PeerId, line: seq<Hash>, i: nat)
    requires AcceptedUpTo(t, p, line, i) && AcceptedOf(t, p) <= AcceptedOf(n, p)
    requires i < |line| ==> BodyOf(line[i]) in AcceptedOf(n, p)
    ensures AcceptedUpTo(n, p, line, i + 1)
  {
    assert forall b | b in AcceptedOf(t, p) :: b in AcceptedOf(n, p);
  }

  /** The entry after the accepted ones names the head. */
  lemma NextNamesHead(cfg: Config, t: Tables, p: PeerId, line: seq<Hash>, j: nat, i: nat)
    requires IsLine(line) && i <= j < |line| && OnTheWay(cfg, t, p, line, j, i)
    requires BodyOf(line[i]) !in AcceptedOf(t, p)
    ensures IsEntryOf(cfg.own, p, line[i]) && PrevOf(BodyOf(line[i])) == HeadOf(t, p)
  {
    OpenBelow(cfg.own, t, p, line, i, j);
    OpenOnLine(cfg.own, t, p, line, i);
    EntryHasBody(cfg.own, p, line[i]);
    assert i > 0 ==> line[..j + 1][i - 1] == line[i - 1];
    assert Passed(t, p, LinkAt(line, i));
    PassedHeadIsHead(cfg.own, t, p, LinkAt(line, i));
  }

  lemma NextOnTheWay(cfg: Config, t: Tables, p: PeerId, line: seq<Hash>, j: nat, i: nat, e: Option<Body>)
    requires IsLine(line) && j < |line| && OnTheWay(cfg, t, p, line, j, i)
    requires i <= j && IsEntryOf(cfg.own, p, line[i]) ==> e == Some(BodyOf(line[i]))
    ensures OnTheWay(cfg, MachineOf(cfg)(t, e).tables, p, line, j, i + 1)
  {
    var n := MachineOf(cfg)(t, e).tables;
    if i <= j && BodyOf(line[i]) !in AcceptedOf(t, p) {
      NextNamesHead(cfg, t, p, line, j, i);
      NewIsAccepted(cfg, t, p, line, j, i);
    } else {
      OldStaysOpen(cfg, t, p, line, j, i, e);
    }
  }

  lemma NewIsAccepted(cfg: Config, t: Tables, p: PeerId, line: seq<Hash>, j: nat, i: nat)
    requires IsLine(line) && i <= j < |line| && OnTheWay(cfg, t, p, line, j, i)
    requires IsEntryOf(cfg.own, p, line[i]) && PrevOf(BodyOf(line[i])) == HeadOf(t, p)
    ensures OnTheWay(cfg, MachineOf(cfg)(t, Some(BodyOf(line[i]))).tables, p, line, j, i + 1)
  {
    var x := BodyOf(line[i]);
    var n := MachineOf(cfg)(t, Some(x)).tables;
    EntryHasBody(cfg.own, p, line[i]);
    LineIsOnLine(line, i, j);
    DeliverOnWay(cfg, t, x, line[j]);
    PrefixHolds(AcceptedOf(t, p), x, AcceptedOf(n, p));
    assert line[..j + 1][i] == line[i];
    AcceptedOneMore(t, n, p, line[..j + 1], i);
  }

  lemma PrefixHolds(s: seq<Body>, x: Body, r: seq<Body>)
    requires s + [x] <= r
    ensures x in r && s <= r
  {
    assert x in s + [x];
  }

  /** Any delivery keeps what is accepted, and an entry accepted already keeps the way open. */
  lemma OldStaysOpen(cfg: Config, t: Tables, p: PeerId, line: seq<Hash>, j: nat, i: nat, e: Option<Body>)
    requires IsLine(line) && j < |line| && OnTheWay(cfg, t, p, line, j, i)
    requires i <= j ==> BodyOf(line[i]) in AcceptedOf(t, p)
    requires i <= j && IsEntryOf(cfg.own, p, line[i]) ==> e == Some(BodyOf(line[i]))
    ensures OnTheWay(cfg, MachineOf(cfg)(t, e).tables, p, line, j, i + 1)
  {
    var n := MachineOf(cfg)(t, e).tables;
    DeliveryGoes(cfg, t, e);
    GoingKeeps(cfg, t, e, MachineOf(cfg)(t, e));
    PassedStaysPassed(cfg, t, e, MachineOf(cfg)(t, e), p, line[j]);
    AcceptedOneMore(t, n, p, line[..j + 1], i);
    if i <= j {
      OldIsKnown(cfg, t, p, line[i]);
    } else {
      assert line[..j + 1][j] == line[j];
    }
  }

  lemma OldIsKnown(cfg: Config, t: Tables, p: PeerId, h: Hash)
    requires Inv(cfg, t) && BodyOf(h) in AcceptedOf(t, p)
    ensures IsEntryOf(cfg.own, p, h)
    ensures MachineOf(cfg)(t, Some(BodyOf(h))).tables == t
  {
    HeadIsLink(cfg.own, t, p);
    BodyHasHash(h);
    BodyIsUnique(cfg.own, BodyOf(h));
    DeliveryGoes(cfg, t, Some(BodyOf(h)));
  }

  /** Of a line of entries delivered in order, exactly those are accepted to which the way was open. */
  lemma InOrderIsAcceptedIff(cfg: Config, t: Tables, p: PeerId, line: seq<Hash>, deliveries: seq<Option<Body>>, j: nat)
    requires Inv(cfg, t) && IsLine(line) && j < |deliveries| <= |line|
    requires forall i | 0 <= i < |deliveries| && IsEntryOf(cfg.own, p, line[i]) :: deliveries[i] == Some(BodyOf(line[i]))
    ensures BodyOf(line[j]) in AcceptedOf(Run(cfg, t, deliveries), p) <==> IsOpen(cfg.own, t, p, line[j])
  {
    if IsOpen(cfg.own, t, p, line[j]) {
      var ok := (s: Tables, i: nat) => OnTheWay(cfg, s, p, line, j, i);
      forall s, i: nat | i < |deliveries| && ok(s, i) ensures ok(MachineOf(cfg)(s, deliveries[i]).tables, i + 1) {
        NextOnTheWay(cfg, s, p, line, j, i, deliveries[i]);
      }
      RunReaches(MachineOf(cfg), ok, t, deliveries, |deliveries|);
      assert deliveries[..|deliveries|] == deliveries && line[..j + 1][j] == line[j];
    }
    if BodyOf(line[j]) in AcceptedOf(Run(cfg, t, deliveries), p) {
      AcceptedWasOpen(cfg, t, deliveries, p, line[j]);
    }
  }

  lemma AcceptedWasOpen(cfg: Config, t: Tables, deliveries: seq<Option<Body>>, p: PeerId, h: Hash)
    requires Inv(cfg, t) && BodyOf(h) in AcceptedOf(Run(cfg, t, deliveries), p)
    ensures IsOpen(cfg.own, t, p, h)
  {
    RunOpensNothing(cfg, t, deliveries);
    assert IsOpen(cfg.own, Run(cfg, t, deliveries), p, h);
  }

  function AsDeliveries(bodies: seq<Body>): seq<Option<Body>>
  {
    seq(|bodies|, i requires 0 <= i < |bodies| => Some(bodies[i]))
  }

  /** Whatever of the owner's has the hash of a row is that row's entry. */
  lemma RowHasBody(key: Key, rows: seq<LedgerModel.Row>, i: nat)
    requires LedgerTheorems.Chained(key, rows) && i < |rows|
    requires BodyOf(rows[i].hash).Carried? && Rater(BodyOf(rows[i].hash)) == PeerOf(key)
    ensures BodyOf(rows[i].hash) == rows[i].body
  {
  }

  lemma AdmissibleRow(own: PeerId, key: Key, rows: seq<LedgerModel.Row>, i: nat)
    requires LedgerTheorems.Chained(key, rows) && i < |rows|
    ensures Admissible(own, rows[i].body) <==> IsEntryOf(own, PeerOf(key), rows[i].hash)
    ensures Admissible(own, rows[i].body) ==> BodyOf(rows[i].hash) == rows[i].body
  {
    assert rows[i].hash == EntryHash(rows[i].body);
    if Admissible(own, rows[i].body) {
      AdmissibleIsByOwner(own, key, rows, i);
      BodyIsUnique(own, rows[i].body);
    }
    if IsEntryOf(own, PeerOf(key), rows[i].hash) {
      RowHasBody(key, rows, i);
    }
  }

  /** The same of a log. */
  lemma LogIsAcceptedIff(cfg: Config, t: Tables, key: Key, rows: seq<LedgerModel.Row>, size: nat, j: nat)
    requires Inv(cfg, t) && LedgerTheorems.Chained(key, rows) && j < size <= |rows|
    ensures rows[j].body in AcceptedOf(Run(cfg, t, AsDeliveries(BodiesOf(rows)[..size])), PeerOf(key))
       <==> IsOpen(cfg.own, t, PeerOf(key), rows[j].hash)
    ensures IsOpen(cfg.own, t, PeerOf(key), rows[j].hash) ==> j < ReceivableLength(cfg.own, rows)
  {
    var p, line, deliveries := PeerOf(key), LedgerModel.HashesOf(rows), AsDeliveries(BodiesOf(rows)[..size]);
    RowsAreLine(key, rows);
    forall i | 0 <= i < size && IsEntryOf(cfg.own, p, line[i]) ensures deliveries[i] == Some(BodyOf(line[i])) {
      AdmissibleRow(cfg.own, key, rows, i);
    }
    InOrderIsAcceptedIff(cfg, t, p, line, deliveries, j);
    AcceptedRow(cfg, Run(cfg, t, deliveries), key, rows, j) by {
      RunKeepsInvFrom(cfg, t, deliveries);
    }
    if IsOpen(cfg.own, t, p, line[j]) {
      OpenIsReceivable(cfg, t, key, rows, j);
    }
  }

  lemma AcceptedRow(cfg: Config, t: Tables, key: Key, rows: seq<LedgerModel.Row>, j: nat)
    requires Inv(cfg, t) && LedgerTheorems.Chained(key, rows) && j < |rows|
    ensures rows[j].body in AcceptedOf(t, PeerOf(key)) <==> BodyOf(rows[j].hash) in AcceptedOf(t, PeerOf(key))
  {
    HeadIsLink(cfg.own, t, PeerOf(key));
    AdmissibleRow(cfg.own, key, rows, j);
    if BodyOf(rows[j].hash) in AcceptedOf(t, PeerOf(key)) {
      RowHasBody(key, rows, j);
    }
  }

  /** Nothing from the first refused row on is open. */
  lemma OpenIsReceivable(cfg: Config, t: Tables, key: Key, rows: seq<LedgerModel.Row>, j: nat)
    requires Inv(cfg, t) && LedgerTheorems.Chained(key, rows) && j < |rows|
    requires IsOpen(cfg.own, t, PeerOf(key), rows[j].hash)
    ensures j < ReceivableLength(cfg.own, rows)
  {
    RowsAreLine(key, rows);
    forall i | 0 <= i <= j ensures Admissible(cfg.own, rows[i].body) {
      OpenBelow(cfg.own, t, PeerOf(key), LedgerModel.HashesOf(rows), i, j);
      OpenOnLine(cfg.own, t, PeerOf(key), LedgerModel.HashesOf(rows), i);
      AdmissibleRow(cfg.own, key, rows, i);
    }
  }

  // ------------------------------------------------------------ catching up

  function Decoded(items: seq<Wire.Item>, decode: seq<Wire.byte> -> Option<Body>): seq<Option<Body>>
  {
    seq(|items|, i requires 0 <= i < |items| => decode(items[i].payload))
  }

  /** A source that serves the log `rows`, which never fails to read it. */
  ghost predicate ServesRows(rows: seq<LedgerModel.Row>, size: nat, remote: CatchUp.Remote,
                             payload: nat -> seq<Wire.byte>, length: nat -> nat,
                             decode: seq<Wire.byte> -> Option<Body>)
  {
    && 0 < size <= |rows| && size < Wire.TWO_64
    && CatchUp.ServesLog(remote, payload, length, size, _ => false)
    && (forall i | 1 <= i <= size :: decode(payload(i)) == Some(rows[i - 1].body))
  }

  lemma OfferedInOrder(rows: seq<LedgerModel.Row>, size: nat, payload: nat -> seq<Wire.byte>,
                       decode: seq<Wire.byte> -> Option<Body>)
    requires size <= |rows| && size < Wire.TWO_64
    requires forall i | 1 <= i <= size :: decode(payload(i)) == Some(rows[i - 1].body)
    ensures Decoded(CatchUp.Range(payload, 1, size), decode) == AsDeliveries(BodiesOf(rows)[..size])
  {
  }

  /**
   Whatever the inbox held, even with its waiting queue full, a catch-up that ends
   normally against an honest, growing log leaves accepted exactly those of its entries
   to which the way was open before; none of them lies behind an entry that the inbox
   refuses.
   */
  lemma CatchUpAcceptsIff(cfg: Config, t: Tables, key: Key, rows: seq<LedgerModel.Row>, size: nat,
                          remote: CatchUp.Remote, cancelled: nat -> bool, payload: nat -> seq<Wire.byte>,
                          length: nat -> nat, decode: seq<Wire.byte> -> Option<Body>, j: nat)
    requires Inv(cfg, t) && LedgerTheorems.Chained(key, rows)
    requires ServesRows(rows, size, remote, payload, length, decode) && j < size
    ensures var w := CatchUp.LogWalk(size, remote, cancelled);
            w.outcome in {CatchUp.Complete, CatchUp.PastHead} ==>
              (rows[j].body in AcceptedOf(Run(cfg, t, Decoded(w.offered, decode)), PeerOf(key))
               <==> IsOpen(cfg.own, t, PeerOf(key), rows[j].hash))
    ensures IsOpen(cfg.own, t, PeerOf(key), rows[j].hash) ==> j < ReceivableLength(cfg.own, rows)
  {
    CatchUp.HonestLogWalkIsComplete(size, remote, cancelled, payload, length);
    OfferedInOrder(rows, size, payload, decode);
    LogIsAcceptedIff(cfg, t, key, rows, size, j);
  }

  /** What the inbox holds of the owner comes from its log. */
  ghost predicate HoldsOnlyLog(t: Tables, key: Key, rows: seq<LedgerModel.Row>)
  {
    OnChain(t, PeerOf(key), BodiesOf(rows))
  }

  /** To such an inbox the way through the log is open up to the first entry it refuses. */
  lemma {:induction false} LogIsOpen(cfg: Config, t: Tables, key: Key, rows: seq<LedgerModel.Row>, j: nat)
    requires Inv(cfg, t) && LedgerTheorems.Chained(key, rows) && HoldsOnlyLog(t, key, rows)
    requires j < ReceivableLength(cfg.own, rows)
    ensures IsOpen(cfg.own, t, PeerOf(key), rows[j].hash)
  {
    if j < |AcceptedOf(t, PeerOf(key))| {
      BeginningIsOpen(cfg, t, key, rows, j);
    } else {
      LinksCanBecomeHead(cfg, t, key, rows, j + 1);
      assert LinkAt(LedgerModel.HashesOf(rows), j + 1) == rows[j].hash;
    }
  }

  lemma {:induction false} BeginningIsOpen(cfg: Config, t: Tables, key: Key, rows: seq<LedgerModel.Row>, j: nat)
    requires LedgerTheorems.Chained(key, rows) && HoldsOnlyLog(t, key, rows)
    requires j < |AcceptedOf(t, PeerOf(key))| && j < ReceivableLength(cfg.own, rows)
    ensures IsOpen(cfg.own, t, PeerOf(key), rows[j].hash)
  {
    AdmissibleRow(cfg.own, key, rows, j);
    BeginningIsAccepted(t, key, rows, j);
  }

  lemma {:induction false} LinksCanBecomeHead(cfg: Config, t: Tables, key: Key, rows: seq<LedgerModel.Row>, j: nat)
    requires Inv(cfg, t) && LedgerTheorems.Chained(key, rows) && HoldsOnlyLog(t, key, rows)
    requires |AcceptedOf(t, PeerOf(key))| <= j <= ReceivableLength(cfg.own, rows)
    ensures CanBecomeHead(cfg.own, t, PeerOf(key), LinkAt(LedgerModel.HashesOf(rows), j))
  {
    if j == |AcceptedOf(t, PeerOf(key))| {
      HeadIsNextLink(cfg, t, key, rows);
    } else {
      LinksCanBecomeHead(cfg, t, key, rows, j - 1);
      NextCanBecomeHead(cfg, t, key, rows, j - 1);
    }
  }

  lemma HeadIsNextLink(cfg: Config, t: Tables, key: Key, rows: seq<LedgerModel.Row>)
    requires Inv(cfg, t) && LedgerTheorems.Chained(key, rows) && HoldsOnlyLog(t, key, rows)
    ensures |AcceptedOf(t, PeerOf(key))| <= |rows|
    ensures HeadOf(t, PeerOf(key)) == LinkAt(LedgerModel.HashesOf(rows), |AcceptedOf(t, PeerOf(key))|)
  {
    HeadIsLink(cfg.own, t, PeerOf(key));
    BeginningEndsAtLink(key, rows, AcceptedOf(t, PeerOf(key)));
  }

  lemma {:induction false} BeginningEndsAtLink(key: Key, rows: seq<LedgerModel.Row>, beginning: seq<Body>)
    requires LedgerTheorems.Chained(key, rows) && beginning <= BodiesOf(rows)
    ensures |beginning| <= |rows|
    ensures Link(beginning, |beginning|) == LinkAt(LedgerModel.HashesOf(rows), |beginning|)
  {
    var n := |beginning|;
    if n > 0 {
      RowNamesItself(key, rows, n - 1);
      assert beginning[n - 1] == BodiesOf(rows)[n - 1] == rows[n - 1].body;
    }
  }

  lemma {:induction false} RowNamesItself(key: Key, rows: seq<LedgerModel.Row>, i: nat)
    requires LedgerTheorems.Chained(key, rows) && i < |rows|
    ensures EntryHash(rows[i].body) == rows[i].hash == LedgerModel.HashesOf(rows)[i]
  {
  }

  lemma NextCanBecomeHead(cfg: Config, t: Tables, key: Key, rows: seq<LedgerModel.Row>, i: nat)
    requires LedgerTheorems.Chained(key, rows) && HoldsOnlyLog(t, key, rows) && i < ReceivableLength(cfg.own, rows)
    requires CanBecomeHead(cfg.own, t, PeerOf(key), LinkAt(LedgerModel.HashesOf(rows), i))
    ensures CanBecomeHead(cfg.own, t, PeerOf(key), LinkAt(LedgerModel.HashesOf(rows), i + 1))
  {
    RowsAreLine(key, rows);
    RowComesFirst(t, key, rows, i);
    AdmissibleRow(cfg.own, key, rows, i);
    assert LinkAt(LedgerModel.HashesOf(rows), i + 1) == rows[i].hash;
    assert LedgerModel.HashesOf(rows)[i] == rows[i].hash;
  }

  lemma BeginningIsAccepted(t: Tables, key: Key, rows: seq<LedgerModel.Row>, j: nat)
    requires HoldsOnlyLog(t, key, rows) && j < |AcceptedOf(t, PeerOf(key))|
    ensures rows[j].body in AcceptedOf(t, PeerOf(key))
  {
    assert AcceptedOf(t, PeerOf(key))[j] == BodiesOf(rows)[j];
  }

  /** A row that is accepted stands at its place. */
  lemma RowPlace(cfg: Config, t: Tables, key: Key, rows: seq<LedgerModel.Row>, i: nat)
    requires Inv(cfg, t) && LedgerTheorems.Chained(key, rows) && i < |rows|
    requires rows[i].body in AcceptedOf(t, PeerOf(key))
    ensures i < |AcceptedOf(t, PeerOf(key))| && AcceptedOf(t, PeerOf(key))[i] == rows[i].body
  {
    HeadIsLink(cfg.own, t, PeerOf(key));
    RowDepth(key, rows, i);
    PlaceByDepth(cfg.own, PeerOf(key), AcceptedOf(t, PeerOf(key)), rows[i].body, i);
  }

  lemma {:induction false} PlaceByDepth(own: PeerId, p: PeerId, chain: seq<Body>, x: Body, i: nat)
    requires IsChain(own, p, chain) && x in chain && x.Carried? && Depth(PrevOf(x)) == i
    ensures i < |chain| && chain[i] == x
  {
    var l :| 0 <= l < |chain| && chain[l] == x;
    LinkDepth(own, p, chain, l);
  }

  lemma RowDepth(key: Key, rows: seq<LedgerModel.Row>, i: nat)
    requires LedgerTheorems.Chained(key, rows) && i < |rows|
    ensures rows[i].body.Carried? && Depth(PrevOf(rows[i].body)) == i
    ensures PrevOf(rows[i].body) == LinkAt(LedgerModel.HashesOf(rows), i)
  {
    RowsAreLine(key, rows);
    LineDepthIs(LedgerModel.HashesOf(rows), i);
    assert rows[i].hash == EntryHash(rows[i].body) && LedgerModel.HashesOf(rows)[i] == rows[i].hash;
  }

  lemma RowComesFirst(t: Tables, key: Key, rows: seq<LedgerModel.Row>, j: nat)
    requires LedgerTheorems.Chained(key, rows) && HoldsOnlyLog(t, key, rows) && j < |rows|
    ensures rows[j].hash.LeafHash? && rows[j].hash.entry.prev.Full?
    ensures ComesFirst(t, PeerOf(key), rows[j].hash)
  {
    var p, log := PeerOf(key), BodiesOf(rows);
    RowDepth(key, rows, j);
    assert rows[j].hash == EntryHash(rows[j].body);
    var g := rows[j].hash.entry.prev.hash;
    var waiting := Awaiting(t.orphans, p, g);
    AwaitingIs(t.orphans, p, g);
    forall b | b in waiting ensures EntryHash(b) == rows[j].hash {
      assert b in log;
      var l :| 0 <= l < |log| && log[l] == b;
      RowDepth(key, rows, l);
    }
  }

  /**
   If the inbox held nothing of the owner that is not on its log, the catch-up leaves
   accepted exactly the longest beginning of the log, up to the signed size, that it
   does not refuse.
   */
  lemma CatchUpFillsInbox(cfg: Config, t: Tables, key: Key, rows: seq<LedgerModel.Row>, size: nat,
                          remote: CatchUp.Remote, cancelled: nat -> bool, payload: nat -> seq<Wire.byte>,
                          length: nat -> nat, decode: seq<Wire.byte> -> Option<Body>)
    requires Inv(cfg, t) && LedgerTheorems.Chained(key, rows) && HoldsOnlyLog(t, key, rows)
    requires ServesRows(rows, size, remote, payload, length, decode)
    ensures var w := CatchUp.LogWalk(size, remote, cancelled);
            var accepted := AcceptedOf(Run(cfg, t, Decoded(w.offered, decode)), PeerOf(key));
            var r := ReceivableLength(cfg.own, rows);
            w.outcome in {CatchUp.Complete, CatchUp.PastHead} ==>
              && BodiesOf(rows)[..Least(size, r)] <= accepted
              && (forall j | 0 <= j < size :: rows[j].body in accepted <==> j < r)
  {
    var w := CatchUp.LogWalk(size, remote, cancelled);
    var t2 := Run(cfg, t, Decoded(w.offered, decode));
    if w.outcome in {CatchUp.Complete, CatchUp.PastHead} {
      RunKeepsInvFrom(cfg, t, Decoded(w.offered, decode));
      forall j | 0 <= j < size
        ensures rows[j].body in AcceptedOf(t2, PeerOf(key)) <==> j < ReceivableLength(cfg.own, rows)
      {
        CatchUpAcceptsIff(cfg, t, key, rows, size, remote, cancelled, payload, length, decode, j);
        if j < ReceivableLength(cfg.own, rows) {
          LogIsOpen(cfg, t, key, rows, j);
        }
      }
      RowsInPlace(cfg, t2, key, rows, Least(size, ReceivableLength(cfg.own, rows)));
    }
  }

  lemma RowsInPlace(cfg: Config, t: Tables, key: Key, rows: seq<LedgerModel.Row>, m: nat)
    requires Inv(cfg, t) && LedgerTheorems.Chained(key, rows) && m <= |rows|
    requires forall j | 0 <= j < m :: rows[j].body in AcceptedOf(t, PeerOf(key))
    ensures BodiesOf(rows)[..m] <= AcceptedOf(t, PeerOf(key))
  {
    forall j | 0 <= j < m
      ensures j < |AcceptedOf(t, PeerOf(key))| && AcceptedOf(t, PeerOf(key))[j] == BodiesOf(rows)[..m][j]
    {
      RowPlace(cfg, t, key, rows, j);
    }
    if m > 0 {
      RowPlace(cfg, t, key, rows, m - 1);
    }
  }
}
