/**
 The inbox of entries received from other peers: each rater's accepted chain, and the
 entries that wait for their predecessor.
 */
module Inbox {
  import opened Hashing
  import opened Wrappers
  import opened Envelopes

  const ZERO: Hash := Zero

  /**
   `accepted` and `heads` are the tables of accepted entries, per rater in order of
   acceptance, and of chain heads; `orphans` is the waiting queue in order of arrival.
   */
  datatype Tables = Tables(accepted: map<PeerId, seq<Body>>, heads: map<PeerId, Hash>, orphans: seq<Body>)

  /** The owner of the inbox and its two caps on waiting entries. */
  datatype Config = Config(own: PeerId, orphanCap: nat, perPeerCap: nat)

  datatype Refusal = InvalidEntry | SelfMessage | SignatureInvalid | InvalidPayload | OrphanCapExceeded

  /** What one delivery leaves behind and answers. */
  datatype Answer = Answer(tables: Tables, refusal: Option<Refusal>)

  const Empty: Tables := Tables(map[], map[], [])

  /** A cap of 0 means the default, and one rater may hold at most a tenth of the default. */
  function ConfigOf(own: PeerId, orphanCap: nat): Config
  {
    var cap := if orphanCap == 0 then 10_000 else orphanCap;
    Config(own, cap, if cap > 1_000 then 1_000 else cap)
  }

  // ------------------------------------------------------------ entries

  /** The bounds that a receiver must enforce on a signed payload. */
  predicate ValidPayload(body: Body)
    requires body.Carried?
  {
    && body.prev.Full?
    && body.claim.timestamp > 0
    && (match body.claim
        case Rating(_, _, dimension, score, _, _) => score.Finite? && -1.0 <= score.value <= 1.0 && dimension != ""
        case Comment(_, _, textCid, _, _, _) => textCid != "")
  }

  /** An entry that passes every check made before the chain is looked at. */
  predicate Admissible(own: PeerId, body: Body)
  {
    body.Carried? && body.claim.rater != own && VerifyEntry(Some(body)) == Ok(true) && ValidPayload(body)
  }

  function Rater(body: Body): PeerId
    requires body.Carried?
  {
    body.claim.rater
  }

  function PrevOf(body: Body): Hash
    requires body.Carried?
  {
    if body.prev.Full? then body.prev.hash else ZERO
  }

  function Check(own: PeerId, entry: Option<Body>): Option<Refusal>
  {
    match entry
    case None => Some(InvalidEntry)
    case Some(body) =>
      if !body.Carried? then Some(InvalidEntry)
      else if body.claim.rater == own then Some(SelfMessage)
      else if VerifyEntry(entry) != Ok(true) then Some(SignatureInvalid)
      else if !ValidPayload(body) then Some(InvalidPayload)
      else None
  }

  // ------------------------------------------------------------ one table operation

  function AcceptedOf(t: Tables, p: PeerId): seq<Body>
  {
    if p in t.accepted then t.accepted[p] else []
  }

  datatype Insertion = Inserted(tables: Tables) | AlreadyThere | ChainMismatch

  /** Compare-and-extend: an entry is only taken behind its rater's head, or as the first. */
  function Insert(t: Tables, body: Body): Insertion
    requires body.Carried?
  {
    var p := Rater(body);
    if body in AcceptedOf(t, p) then AlreadyThere
    else if p in t.heads && t.heads[p] != PrevOf(body) then ChainMismatch
    else
      Inserted(t.(accepted := t.accepted[p := AcceptedOf(t, p) + [body]], heads := t.heads[p := EntryHash(body)]))
  }

  /** A list without one entry. */
  function Without(s: seq<Body>, body: Body): seq<Body>
  {
    if |s| == 0 then []
    else if s[0] == body then Without(s[1..], body)
    else [s[0]] + Without(s[1..], body)
  }

  predicate Awaits(body: Body, p: PeerId, parent: Hash)
  {
    body.Carried? && Rater(body) == p && PrevOf(body) == parent
  }

  /** The waiting entries of a rater that name a given predecessor, in order of arrival. */
  function Awaiting(orphans: seq<Body>, p: PeerId, parent: Hash): (r: seq<Body>)
    ensures forall b | b in r :: Awaits(b, p, parent)
  {
    if |orphans| == 0 then []
    else if Awaits(orphans[0], p, parent) then [orphans[0]] + Awaiting(orphans[1..], p, parent)
    else Awaiting(orphans[1..], p, parent)
  }

  function CountOf(orphans: seq<Body>, p: PeerId): nat
  {
    if |orphans| == 0 then 0
    else CountOf(orphans[1..], p) + if orphans[0].Carried? && Rater(orphans[0]) == p then 1 else 0
  }

  // ------------------------------------------------------------ promotion

  datatype Promotion = Promotion(tables: Tables, promoted: seq<Hash>)

  /** One waiting entry leaves the queue: into the chain, or, as a fork, into nothing. */
  function PromoteOne(t: Tables, body: Body): Promotion
    requires body.Carried?
  {
    match Insert(t, body)
    case ChainMismatch => Promotion(t.(orphans := Without(t.orphans, body)), [])
    case AlreadyThere => Promotion(t.(orphans := Without(t.orphans, body)), [EntryHash(body)])
    case Inserted(next) => Promotion(next.(orphans := Without(next.orphans, body)), [EntryHash(body)])
  }

  function PromoteAll(t: Tables, waiting: seq<Body>): Promotion
    requires forall b | b in waiting :: b.Carried?
  {
    if |waiting| == 0 then Promotion(t, [])
    else
      var before := PromoteAll(t, waiting[..|waiting| - 1]);
      var last := PromoteOne(before.tables, waiting[|waiting| - 1]);
      Promotion(last.tables, before.promoted + last.promoted)
  }

  lemma {:induction false} WithoutIs(s: seq<Body>, body: Body)
    ensures forall b :: b in Without(s, body) <==> b in s && b != body
    ensures |Without(s, body)| <= |s| && (body in s ==> |Without(s, body)| < |s|)
    ensures Unique(s) ==> Unique(Without(s, body))
  {
    if |s| > 0 {
      WithoutIs(s[1..], body);
      assert s == [s[0]] + s[1..];
      if Unique(s) {
        assert s[0] !in Without(s[1..], body);
      }
    }
  }

  predicate Unique(s: seq<Body>)
  {
    forall i, j | 0 <= i < j < |s| :: s[i] != s[j]
  }

  predicate AllCarried(s: seq<Body>)
  {
    forall b | b in s :: b.Carried?
  }

  lemma {:induction false} AwaitingIs(orphans: seq<Body>, p: PeerId, parent: Hash)
    ensures forall b :: b in Awaiting(orphans, p, parent) <==> b in orphans && Awaits(b, p, parent)
    ensures Unique(orphans) ==> Unique(Awaiting(orphans, p, parent))
  {
    if |orphans| > 0 {
      AwaitingIs(orphans[1..], p, parent);
      assert orphans == [orphans[0]] + orphans[1..];
    }
  }

  /** Each entry that is promoted or dropped has left the queue. */
  lemma {:induction false} PromoteAllShrinks(t: Tables, waiting: seq<Body>)
    requires Unique(t.orphans) && Unique(waiting) && AllCarried(t.orphans)
    requires forall b | b in waiting :: b in t.orphans
    ensures var r := PromoteAll(t, waiting);
            && |r.promoted| <= |waiting| && |r.tables.orphans| <= |t.orphans| - |waiting|
            && Unique(r.tables.orphans)
            && (forall b :: b in r.tables.orphans <==> b in t.orphans && b !in waiting)
  {
    if |waiting| > 0 {
      var front, last := waiting[..|waiting| - 1], waiting[|waiting| - 1];
      assert waiting == front + [last];
      PromoteAllShrinks(t, front);
      WithoutIs(PromoteAll(t, front).tables.orphans, last);
    }
  }

  /** Breadth-first over the waiting entries, from the hashes in `queue` on. */
  function Walk(t: Tables, p: PeerId, queue: seq<Hash>): Tables
    requires Unique(t.orphans) && AllCarried(t.orphans)
    decreases |t.orphans| + |queue|
  {
    if |queue| == 0 then t
    else
      var waiting := Awaiting(t.orphans, p, queue[0]);
      AwaitingIs(t.orphans, p, queue[0]);
      PromoteAllShrinks(t, waiting);
      var next := PromoteAll(t, waiting);
      Walk(next.tables, p, queue[1..] + next.promoted)
  }

  // ------------------------------------------------------------ one delivery

  function Extends(t: Tables, body: Body): bool
    requires body.Carried?
  {
    var p := Rater(body);
    if p in t.heads then t.heads[p] == PrevOf(body) else PrevOf(body) == ZERO
  }

  function QueueOrphan(cfg: Config, t: Tables, body: Body): Answer
    requires body.Carried?
  {
    if CountOf(t.orphans, Rater(body)) >= cfg.perPeerCap || |t.orphans| >= cfg.orphanCap
    then Answer(t, Some(OrphanCapExceeded))
    else Answer(t.(orphans := t.orphans + [body]), None)
  }

  function AcceptOrQueue(cfg: Config, t: Tables, entry: Option<Body>): Answer
    requires Unique(t.orphans) && AllCarried(t.orphans)
  {
    if Check(cfg.own, entry).Some? then Answer(t, Check(cfg.own, entry))
    else
      var body := entry.value;
      if body in AcceptedOf(t, Rater(body)) || body in t.orphans then Answer(t, None)
      else if Extends(t, body) then
        match Insert(t, body)
        case Inserted(next) => Answer(Walk(next, Rater(body), [EntryHash(body)]), None)
        case _ => QueueOrphan(cfg, t, body)
      else QueueOrphan(cfg, t, body)
  }

  // ------------------------------------------------------------ the answers

  /** What a receiver must see in an authentic entry. */
  predicate MeetsBounds(b: Body)
    requires b.Carried?
  {
    && b.prev.Full? && b.claim.timestamp >= 1
    && (b.claim.Rating? ==>
          b.claim.dimension != "" && b.claim.score.Finite? && !(b.claim.score.value < -1.0 || b.claim.score.value > 1.0))
    && (b.claim.Comment? ==> b.claim.textCid != "")
  }

  /** An entry of somebody else, signed by its rater and within the bounds. */
  predicate IsReceivable(own: PeerId, b: Body)
  {
    b.Carried? && b.claim.rater != own && IsSignedEntry(b) && MeetsBounds(b)
  }

  predicate IsHeld(t: Tables, b: Body)
    requires b.Carried?
  {
    b in t.orphans || (b.claim.rater in t.accepted && b in t.accepted[b.claim.rater])
  }

  /** It names its rater's head, or as its rater's first the zero hash. */
  predicate ExtendsChain(t: Tables, b: Body)
    requires b.Carried? && b.prev.Full?
  {
    b.prev.hash == if b.claim.rater in t.heads then t.heads[b.claim.rater] else Zero
  }

  /** The waiting entries of one rater. */
  ghost function WaitingOf(t: Tables, p: PeerId): set<Body>
  {
    OfRater(t.orphans, p)
  }

  ghost function OfRater(orphans: seq<Body>, p: PeerId): set<Body>
  {
    set b | b in orphans && b.Carried? && b.claim.rater == p
  }

  /** An entry that would have to wait, and for which there is no room: in its rater's share, or at all. */
  ghost predicate FindsNoRoom(cfg: Config, t: Tables, b: Body)
    requires b.Carried? && b.prev.Full?
  {
    !IsHeld(t, b) && !ExtendsChain(t, b) &&
    (|WaitingOf(t, b.claim.rater)| >= cfg.perPeerCap || |t.orphans| >= cfg.orphanCap)
  }

  lemma {:induction false} CountIsOfSet(orphans: seq<Body>, p: PeerId)
    requires Unique(orphans)
    ensures CountOf(orphans, p) == |OfRater(orphans, p)|
  {
    if |orphans| > 0 {
      var first, rest := orphans[0], orphans[1..];
      CountIsOfSet(rest, p);
      OfRaterLess(orphans, p);
      assert first !in OfRater(rest, p);
    }
  }

  lemma {:induction false} OfRaterLess(orphans: seq<Body>, p: PeerId)
    requires |orphans| > 0
    ensures OfRater(orphans, p)
         == OfRater(orphans[1..], p)
            + if orphans[0].Carried? && orphans[0].claim.rater == p then {orphans[0]} else {}
  {
    assert forall b :: b in orphans <==> b == orphans[0] || b in orphans[1..];
  }

  lemma {:induction false} ReceivableIsAdmissible(own: PeerId, b: Body)
    ensures IsReceivable(own, b) <==> Admissible(own, b)
  {
  }

  /** Every answer, exactly, in the fields of the entry and the contents of the tables. */
  ghost predicate Answers(cfg: Config, t: Tables, entry: Option<Body>, r: Option<Refusal>)
  {
    && (r == Some(InvalidEntry) <==> entry.None? || !entry.value.Carried?)
    && (r == Some(SelfMessage) <==> entry.Some? && entry.value.Carried? && entry.value.claim.rater == cfg.own)
    && (r == Some(SignatureInvalid) <==>
          && entry.Some? && entry.value.Carried? && entry.value.claim.rater != cfg.own
          && !IsSignedEntry(entry.value))
    && (r == Some(InvalidPayload) <==>
          && entry.Some? && entry.value.Carried? && entry.value.claim.rater != cfg.own
          && IsSignedEntry(entry.value) && !MeetsBounds(entry.value))
    && (r == Some(OrphanCapExceeded) <==>
          entry.Some? && IsReceivable(cfg.own, entry.value) && FindsNoRoom(cfg, t, entry.value))
    && (r.None? <==>
          entry.Some? && IsReceivable(cfg.own, entry.value) && !FindsNoRoom(cfg, t, entry.value))
  }

  lemma {:induction false} AnswerIff(cfg: Config, t: Tables, entry: Option<Body>)
    requires Unique(t.orphans) && AllCarried(t.orphans)
    ensures Answers(cfg, t, entry, AcceptOrQueue(cfg, t, entry).refusal)
  {
    if entry.Some? {
      ReceivableIsAdmissible(cfg.own, entry.value);
      if IsReceivable(cfg.own, entry.value) {
        CountIsOfSet(t.orphans, entry.value.claim.rater);
      }
    }
  }

  // ------------------------------------------------------------ the inbox itself

  class Store {
    var accepted: map<PeerId, seq<Body>>
    var heads: map<PeerId, Hash>
    var orphans: seq<Body>

    ghost predicate Valid()
      reads this
    {
      Unique(orphans) && AllCarried(orphans)
    }

    function Now(): Tables
      reads this
    {
      Tables(accepted, heads, orphans)
    }

    constructor ()
      ensures Valid() && Now() == Empty
    {
      accepted, heads, orphans := map[], map[], [];
    }

    /** In one transaction; `None` is a chain mismatch. */
    method InsertInboxEntry(body: Body) returns (ok: bool)
      requires body.Carried?
      modifies this
      ensures ok <==> !Insert(old(Now()), body).ChainMismatch?
      ensures Now() == match Insert(old(Now()), body) { case Inserted(next) => next case _ => old(Now()) }
    {
      var p := Rater(body);
      if p in accepted && body in accepted[p] {
        return true;
      }
      if p in heads && heads[p] != PrevOf(body) {
        return false;
      }
      accepted := accepted[p := AcceptedOf(Now(), p) + [body]];
      heads := heads[p := EntryHash(body)];
      return true;
    }

    method DeleteInboxOrphan(body: Body)
      modifies this`orphans
      ensures orphans == Without(old(orphans), body)
    {
      orphans := Without(orphans, body);
    }

    method PromoteOrphan(body: Body) returns (promoted: seq<Hash>)
      requires body.Carried?
      modifies this
      ensures PromoteOne(old(Now()), body) == Promotion(Now(), promoted)
    {
      var ok := InsertInboxEntry(body);
      DeleteInboxOrphan(body);
      promoted := if ok then [EntryHash(body)] else [];
    }

    method PromoteWaiting(waiting: seq<Body>) returns (promoted: seq<Hash>)
      requires AllCarried(waiting)
      modifies this
      ensures PromoteAll(old(Now()), waiting) == Promotion(Now(), promoted)
    {
      promoted := [];
      var i := 0;
      while i < |waiting|
        invariant 0 <= i <= |waiting|
        invariant PromoteAll(old(Now()), waiting[..i]) == Promotion(Now(), promoted)
      {
        assert waiting[..i + 1][..i] == waiting[..i];
        var more := PromoteOrphan(waiting[i]);
        promoted := promoted + more;
        i := i + 1;
      }
      assert waiting[..i] == waiting;
    }

    method Promote(p: PeerId, parent: Hash)
      requires Valid()
      modifies this
      ensures Valid() && Now() == Walk(old(Now()), p, [parent])
    {
      var queue := [parent];
      while |queue| > 0
        invariant Valid() && Walk(Now(), p, queue) == Walk(old(Now()), p, [parent])
        decreases |orphans| + |queue|
      {
        var waiting := Awaiting(orphans, p, queue[0]);
        AwaitingIs(orphans, p, queue[0]);
        PromoteAllShrinks(Now(), waiting);
        var promoted := PromoteWaiting(waiting);
        queue := queue[1..] + promoted;
      }
    }

    method QueueAsOrphan(cfg: Config, body: Body) returns (r: Option<Refusal>)
      requires Valid() && body.Carried? && body !in orphans
      modifies this`orphans
      ensures Valid() && QueueOrphan(cfg, old(Now()), body) == Answer(Now(), r)
    {
      if CountOf(orphans, Rater(body)) >= cfg.perPeerCap {
        return Some(OrphanCapExceeded);
      }
      if |orphans| >= cfg.orphanCap {
        return Some(OrphanCapExceeded);
      }
      orphans := orphans + [body];
      return None;
    }

    method Accept(cfg: Config, entry: Option<Body>) returns (r: Option<Refusal>)
      requires Valid()
      modifies this
      ensures Valid() && AcceptOrQueue(cfg, old(Now()), entry) == Answer(Now(), r)
      ensures Answers(cfg, old(Now()), entry, r)
    {
      AnswerIff(cfg, Now(), entry);
      r := Check(cfg.own, entry);
      if r.Some? {
        return;
      }
      var body := entry.value;
      var p, hash, prev := Rater(body), EntryHash(body), PrevOf(body);
      if body in AcceptedOf(Now(), p) || body in orphans {
        return None;
      }
      if (p !in heads && prev == ZERO) || (p in heads && prev == heads[p]) {
        var ok := InsertInboxEntry(body);
        Promote(p, hash);
        return None;
      }
      r := QueueAsOrphan(cfg, body);
    }
  }
}
