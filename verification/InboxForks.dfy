/**
 Which entries an inbox can still accept, and which wait in it for ever.  A hash
 carries its ancestors, so both can be read off the tables before any delivery.
 */
module InboxForks {
  import opened Hashing
  import opened Wrappers
  import opened Envelopes
  import opened Inbox
  import opened InboxTheorems

  // ------------------------------------------------------------ hashes and entries

  /** The one entry with a given hash that its rater can have signed. */
  function BodyOf(h: Hash): Body
  {
    if h.LeafHash? && h.entry.claim.rater.PeerOf?
    then Carried(h.entry.claim, h.entry.prev, SignedBy(h.entry.claim.rater.key, EntryMessage(h.entry)))
    else NilBody
  }

  /** The hash is one of an entry of `p` that the inbox would admit. */
  ghost predicate IsEntryOf(own: PeerId, p: PeerId, h: Hash)
  {
    && h.LeafHash? && h.entry.prev.Full?
    && Admissible(own, BodyOf(h)) && Rater(BodyOf(h)) == p
  }

  lemma BodyIsUnique(own: PeerId, b: Body)
    requires Admissible(own, b)
    ensures BodyOf(EntryHash(b)) == b && IsEntryOf(own, Rater(b), EntryHash(b))
    ensures EntryHash(b).entry.prev.hash == PrevOf(b)
  {
  }

  lemma EntryHasBody(own: PeerId, p: PeerId, h: Hash)
    requires IsEntryOf(own, p, h)
    ensures EntryHash(BodyOf(h)) == h && PrevOf(BodyOf(h)) == h.entry.prev.hash
    ensures Depth(h) == 1 + Depth(h.entry.prev.hash)
  {
  }

  // ------------------------------------------------------------ what can still become a head

  /** If anything waits for the predecessor of `h`, then `h` came first. */
  ghost predicate ComesFirst(t: Tables, p: PeerId, h: Hash)
    requires h.LeafHash? && h.entry.prev.Full?
  {
    var waiting := Awaiting(t.orphans, p, h.entry.prev.hash);
    waiting == [] || EntryHash(waiting[0]) == h
  }

  /**
   Back from `h`, hash by hash, there are only admissible entries of `p` that are
   first in line, until `p`'s head is met.
   */
  ghost predicate CanBecomeHead(own: PeerId, t: Tables, p: PeerId, h: Hash)
    decreases h
  {
    h == HeadOf(t, p) ||
    (IsEntryOf(own, p, h) && ComesFirst(t, p, h) && CanBecomeHead(own, t, p, h.entry.prev.hash))
  }

  /** `h` is the start of `p`'s chain or the hash of one of its entries. */
  ghost predicate Passed(t: Tables, p: PeerId, h: Hash)
  {
    h == ZERO || BodyOf(h) in AcceptedOf(t, p)
  }

  lemma HeadDepth(own: PeerId, t: Tables, p: PeerId)
    requires Chains(own, t)
    ensures Depth(HeadOf(t, p)) == |AcceptedOf(t, p)| && Passed(t, p, HeadOf(t, p))
  {
    var chain := AcceptedOf(t, p);
    HeadIsLink(own, t, p);
    LinkDepth(own, p, chain, |chain|);
    if |chain| > 0 {
      BodyIsUnique(own, chain[|chain| - 1]);
    }
  }

  /** A hash that was passed lies above the head, or is it. */
  lemma PassedDepth(own: PeerId, t: Tables, p: PeerId, h: Hash)
    requires Chains(own, t) && Passed(t, p, h)
    ensures Depth(h) <= |AcceptedOf(t, p)|
    ensures Depth(h) == |AcceptedOf(t, p)| ==> h == HeadOf(t, p)
  {
    var chain := AcceptedOf(t, p);
    HeadIsLink(own, t, p);
    if h != ZERO {
      var i := PlaceOf(own, p, chain, h);
      LinkDepth(own, p, chain, i);
    }
  }

  lemma PlaceOf(own: PeerId, p: PeerId, chain: seq<Body>, h: Hash) returns (i: nat)
    requires IsChain(own, p, chain) && BodyOf(h) in chain
    ensures 0 < i <= |chain| && Link(chain, i) == h
  {
    var j :| 0 <= j < |chain| && chain[j] == BodyOf(h);
    i := j + 1;
    assert BodyOf(h).Carried?;
    BodyHasHash(h);
    assert Link(chain, i) == EntryHash(chain[j]);
  }

  lemma BodyHasHash(h: Hash)
    requires BodyOf(h).Carried?
    ensures EntryHash(BodyOf(h)) == h
  {
  }

  /** What can become a head lies at least as deep as the head. */
  lemma {:induction false} HeadsLieDeeper(own: PeerId, t: Tables, p: PeerId, h: Hash)
    requires CanBecomeHead(own, t, p, h)
    ensures Depth(h) >= Depth(HeadOf(t, p))
    ensures Depth(h) == Depth(HeadOf(t, p)) ==> h == HeadOf(t, p)
    decreases h
  {
    if h != HeadOf(t, p) {
      EntryHasBody(own, p, h);
      HeadsLieDeeper(own, t, p, h.entry.prev.hash);
    }
  }

  /** Only the head itself is both passed and able to become the head. */
  lemma PassedHeadIsHead(own: PeerId, t: Tables, p: PeerId, h: Hash)
    requires Chains(own, t) && Passed(t, p, h) && CanBecomeHead(own, t, p, h)
    ensures h == HeadOf(t, p)
  {
    HeadDepth(own, t, p);
    PassedDepth(own, t, p, h);
    HeadsLieDeeper(own, t, p, h);
  }

  // ------------------------------------------------------------ one step of a chain

  /** From `s` to `n` the chain of `p` grew by `x`, and what awaited its old head left the queue. */
  ghost predicate Advances(own: PeerId, s: Tables, p: PeerId, n: Tables, x: Body)
  {
    && Admissible(own, x) && Rater(x) == p && PrevOf(x) == HeadOf(s, p)
    && HeadOf(n, p) == EntryHash(x) && AcceptedOf(n, p) == AcceptedOf(s, p) + [x]
    && (forall q | q != p :: AcceptedOf(n, q) == AcceptedOf(s, q) && HeadOf(n, q) == HeadOf(s, q))
    && (forall b :: b in n.orphans <==> b in s.orphans && !Awaits(b, p, HeadOf(s, p)))
    && (forall q, g | q != p || g != HeadOf(s, p) :: Awaiting(n.orphans, q, g) == Awaiting(s.orphans, q, g))
  }

  /** The step took the first of the entries that awaited the head. */
  ghost predicate Promotes(own: PeerId, s: Tables, p: PeerId, n: Tables, x: Body)
  {
    && Advances(own, s, p, n, x)
    && Awaiting(s.orphans, p, HeadOf(s, p)) != [] && Awaiting(s.orphans, p, HeadOf(s, p))[0] == x
  }

  ghost predicate Sound(own: PeerId, t: Tables, p: PeerId)
  {
    Chains(own, t) && Waiting(own, t) && SettledBut(t, Some(p)) && AllCarried(t.orphans)
  }

  lemma {:induction false} AwaitingWithout(s: seq<Body>, body: Body, q: PeerId, g: Hash)
    requires !Awaits(body, q, g)
    ensures Awaiting(Without(s, body), q, g) == Awaiting(s, q, g)
  {
    if |s| > 0 {
      AwaitingWithout(s[1..], body, q, g);
    }
  }

  lemma {:induction false} AwaitingAfterPromotion(t: Tables, waiting: seq<Body>, q: PeerId, g: Hash)
    requires AllCarried(waiting) && forall b | b in waiting :: !Awaits(b, q, g)
    ensures Awaiting(PromoteAll(t, waiting).tables.orphans, q, g) == Awaiting(t.orphans, q, g)
  {
    if |waiting| > 0 {
      var front, last := waiting[..|waiting| - 1], waiting[|waiting| - 1];
      assert last in waiting && forall b | b in front :: b in waiting;
      AwaitingAfterPromotion(t, front, q, g);
      AwaitingWithout(PromoteAll(t, front).tables.orphans, last, q, g);
    }
  }

  lemma RoundPromotes(own: PeerId, s: Tables, p: PeerId, waiting: seq<Body>, n: Tables)
    requires Sound(own, s, p) && IsRound(s, p, waiting, n)
    ensures Promotes(own, s, p, n, waiting[0]) && Sound(own, n, p)
  {
    assert waiting[0] in waiting;
    RoundKeeps(own, s, p, waiting, n);
    forall q, g | q != p || g != HeadOf(s, p) ensures Awaiting(n.orphans, q, g) == Awaiting(s.orphans, q, g) {
      AwaitingAfterPromotion(s, waiting, q, g);
    }
  }

  /** What every promotion keeps, and links, a whole walk keeps and links. */
  lemma PromotionsInduction(own: PeerId, t: Tables, p: PeerId, good: Tables -> bool, linked: (Tables, Tables) -> bool)
    requires Sound(own, t, p) && good(t)
    requires forall s | good(s) :: linked(s, s)
    requires forall s, n, x | Sound(own, s, p) && good(s) && Promotes(own, s, p, n, x) :: good(n) && linked(s, n)
    requires forall s, n, r | linked(s, n) && linked(n, r) :: linked(s, r)
    ensures good(Walk(t, p, [HeadOf(t, p)])) && linked(t, Walk(t, p, [HeadOf(t, p)]))
  {
    var sound := (s: Tables) => Sound(own, s, p) && good(s);
    forall s, w, n | sound(s) && IsRound(s, p, w, n)
      ensures sound(n) && linked(s, n) && HeadOf(n, p) == EntryHash(w[0])
    {
      RoundPromotes(own, s, p, w, n);
    }
    WalkInduction(own, t, p, sound, linked);
  }

  /** Accepting an entry that was just delivered is such a step too. */
  lemma TakingAdvances(own: PeerId, t: Tables, body: Body)
    requires Chains(own, t) && Waiting(own, t) && SettledBut(t, None) && IsNew(own, t, body)
    requires PrevOf(body) == HeadOf(t, Rater(body))
    ensures Advances(own, t, Rater(body), Taken(t, body), body) && Sound(own, Taken(t, body), Rater(body))
    ensures Awaiting(t.orphans, Rater(body), HeadOf(t, Rater(body))) == []
  {
    TakenKeeps(own, t, body);
    NothingAwaitsHead(t, Rater(body));
    TakingGrows(own, t, body);
  }

  lemma TakingGrows(own: PeerId, t: Tables, body: Body)
    requires Chains(own, t) && Admissible(own, body) && PrevOf(body) == HeadOf(t, Rater(body))
    requires forall b | b in t.orphans :: !Awaits(b, Rater(body), HeadOf(t, Rater(body)))
    ensures Advances(own, t, Rater(body), Taken(t, body), body)
  {
    GrewKeepsChains(own, t, Taken(t, body), body);
  }

  lemma NothingAwaitsHead(t: Tables, p: PeerId)
    requires SettledBut(t, None)
    ensures forall b | b in t.orphans :: !Awaits(b, p, HeadOf(t, p))
    ensures Awaiting(t.orphans, p, HeadOf(t, p)) == []
  {
    NoneAwaits(t.orphans, p, HeadOf(t, p));
  }

  lemma {:induction false} NoneAwaits(orphans: seq<Body>, p: PeerId, g: Hash)
    requires forall b | b in orphans :: !Awaits(b, p, g)
    ensures Awaiting(orphans, p, g) == []
  {
    if |orphans| > 0 {
      NoneAwaits(orphans[1..], p, g);
    }
  }

  // ------------------------------------------------------------ steps never open a way

  /** What can become a head after a step could before. */
  lemma {:induction false} StepsOpenNothing(own: PeerId, s: Tables, p: PeerId, n: Tables, x: Body, q: PeerId, h: Hash)
    requires Chains(own, s) && Advances(own, s, p, n, x) && CanBecomeHead(own, n, q, h)
    requires Awaiting(s.orphans, p, HeadOf(s, p)) == [] || Awaiting(s.orphans, p, HeadOf(s, p))[0] == x
    ensures CanBecomeHead(own, s, q, h)
    decreases h
  {
    if h == HeadOf(n, q) {
      BodyIsUnique(own, x);
      assert q == p ==> ComesFirst(s, p, h) && CanBecomeHead(own, s, p, h.entry.prev.hash);
    } else {
      var g := h.entry.prev.hash;
      StepsOpenNothing(own, s, p, n, x, q, g);
      if q == p {
        HeadsLieDeeper(own, n, p, g);
        BodyIsUnique(own, x);
        EntryHasBody(own, p, EntryHash(x));
        assert g != HeadOf(s, p);
      }
    }
  }

  lemma {:induction false} QueueingOpensNothing(own: PeerId, t: Tables, body: Body, q: PeerId, h: Hash)
    requires CanBecomeHead(own, t.(orphans := t.orphans + [body]), q, h)
    ensures CanBecomeHead(own, t, q, h)
    decreases h
  {
    if h != HeadOf(t, q) {
      QueueingOpensNothing(own, t, body, q, h.entry.prev.hash);
      AwaitingMore(t.orphans, body, q, h.entry.prev.hash);
    }
  }

  lemma {:induction false} AwaitingMore(s: seq<Body>, body: Body, q: PeerId, g: Hash)
    ensures Awaiting(s + [body], q, g) == Awaiting(s, q, g) + if Awaits(body, q, g) then [body] else []
  {
    if |s| == 0 {
      assert [body][1..] == [];
    } else {
      assert (s + [body])[1..] == s[1..] + [body];
      AwaitingMore(s[1..], body, q, g);
    }
  }

  /** Passed, or able to become the head. */
  ghost predicate IsOpen(own: PeerId, t: Tables, p: PeerId, h: Hash)
  {
    Passed(t, p, h) || CanBecomeHead(own, t, p, h)
  }

  lemma {:induction false} StepsPassHeads(own: PeerId, s: Tables, p: PeerId, n: Tables, x: Body, q: PeerId, h: Hash)
    requires Chains(own, s) && Advances(own, s, p, n, x)
    ensures Passed(n, q, h) <==> Passed(s, q, h) || (q == p && h == HeadOf(n, p))
  {
    BodyIsUnique(own, x);
    if Passed(n, q, h) && !Passed(s, q, h) {
      assert BodyOf(h) == x;
      BodyHasHash(h);
    }
  }

  /** No delivery opens a way that was closed. */
  ghost predicate OpensNothing(own: PeerId, s: Tables, n: Tables)
  {
    forall q, h ::
      && (CanBecomeHead(own, n, q, h) ==> CanBecomeHead(own, s, q, h))
      && (IsOpen(own, n, q, h) ==> IsOpen(own, s, q, h))
  }

  lemma AdvanceOpensNothing(own: PeerId, s: Tables, p: PeerId, n: Tables, x: Body)
    requires Chains(own, s) && Advances(own, s, p, n, x)
    requires Awaiting(s.orphans, p, HeadOf(s, p)) == [] || Awaiting(s.orphans, p, HeadOf(s, p))[0] == x
    ensures OpensNothing(own, s, n)
  {
    forall q, h
      ensures CanBecomeHead(own, n, q, h) ==> CanBecomeHead(own, s, q, h)
      ensures IsOpen(own, n, q, h) ==> IsOpen(own, s, q, h)
    {
      if CanBecomeHead(own, n, q, h) {
        StepsOpenNothing(own, s, p, n, x, q, h);
      }
      StepsPassHeads(own, s, p, n, x, q, h);
    }
  }

  lemma GoingOpensNothing(cfg: Config, t: Tables, e: Option<Body>, a: Answer)
    requires Inv(cfg, t) && Unique(t.orphans) && AllCarried(t.orphans) && Goes(cfg, t, e, a)
    ensures OpensNothing(cfg.own, t, a.tables)
  {
    if e.Some? && IsNew(cfg.own, t, e.value) {
      if PrevOf(e.value) == HeadOf(t, Rater(e.value)) {
        AcceptOpensNothing(cfg.own, t, e.value);
      } else {
        QueueOpensNothing(cfg, t, e.value);
      }
    }
  }

  lemma QueueOpensNothing(cfg: Config, t: Tables, body: Body)
    requires body.Carried?
    ensures OpensNothing(cfg.own, t, QueueOrphan(cfg, t, body).tables)
  {
    var more := t.(orphans := t.orphans + [body]);
    forall q, h | CanBecomeHead(cfg.own, more, q, h) ensures CanBecomeHead(cfg.own, t, q, h) {
      QueueingOpensNothing(cfg.own, t, body, q, h);
    }
  }

  lemma AcceptOpensNothing(own: PeerId, t: Tables, body: Body)
    requires Chains(own, t) && Waiting(own, t) && SettledBut(t, None) && IsNew(own, t, body)
    requires PrevOf(body) == HeadOf(t, Rater(body))
    ensures Unique(t.orphans) && AllCarried(t.orphans)
    ensures OpensNothing(own, t, Walk(Taken(t, body), Rater(body), [EntryHash(body)]))
  {
    var p, good := Rater(body), (s: Tables) => true;
    var linked := (s: Tables, n: Tables) => OpensNothing(own, s, n);
    TakingAdvances(own, t, body);
    AdvanceOpensNothing(own, t, p, Taken(t, body), body);
    forall s, n, x | Sound(own, s, p) && good(s) && Promotes(own, s, p, n, x) ensures good(n) && linked(s, n) {
      AdvanceOpensNothing(own, s, p, n, x);
    }
    forall s, n, r | linked(s, n) && linked(n, r) ensures linked(s, r) {
      OpensNothingTwice(own, s, n, r);
    }
    PromotionsInduction(own, Taken(t, body), p, good, linked);
    OpensNothingTwice(own, t, Taken(t, body), Walk(Taken(t, body), p, [EntryHash(body)]));
  }

  lemma OpensNothingTwice(own: PeerId, s: Tables, n: Tables, r: Tables)
    requires OpensNothing(own, s, n) && OpensNothing(own, n, r)
    ensures OpensNothing(own, s, r)
  {
  }

  // ------------------------------------------------------------ what waits stays while its way is closed

  /** A waiting entry whose predecessor can never be the head. */
  ghost predicate IsStuck(own: PeerId, t: Tables, b: Body)
  {
    b in t.orphans && b.Carried? && !CanBecomeHead(own, t, Rater(b), PrevOf(b))
  }

  lemma AdvanceKeepsStuck(own: PeerId, s: Tables, p: PeerId, n: Tables, x: Body, b: Body)
    requires Advances(own, s, p, n, x) && OpensNothing(own, s, n) && IsStuck(own, s, b)
    ensures IsStuck(own, n, b)
  {
    assert CanBecomeHead(own, s, p, HeadOf(s, p));
  }

  lemma AcceptKeepsStuck(own: PeerId, t: Tables, body: Body, b: Body)
    requires Chains(own, t) && Waiting(own, t) && SettledBut(t, None) && IsNew(own, t, body) && IsStuck(own, t, b)
    requires PrevOf(body) == HeadOf(t, Rater(body))
    ensures Unique(t.orphans) && AllCarried(t.orphans)
    ensures IsStuck(own, Walk(Taken(t, body), Rater(body), [EntryHash(body)]), b)
  {
    var p, good := Rater(body), (s: Tables) => IsStuck(own, s, b);
    var linked := (s: Tables, n: Tables) => true;
    TakingAdvances(own, t, body);
    AdvanceOpensNothing(own, t, p, Taken(t, body), body);
    AdvanceKeepsStuck(own, t, p, Taken(t, body), body, b);
    forall s, n, x | Sound(own, s, p) && good(s) && Promotes(own, s, p, n, x) ensures good(n) && linked(s, n) {
      AdvanceOpensNothing(own, s, p, n, x);
      AdvanceKeepsStuck(own, s, p, n, x, b);
    }
    PromotionsInduction(own, Taken(t, body), p, good, linked);
  }

  lemma DeliveryKeepsStuck(cfg: Config, t: Tables, e: Option<Body>, b: Body)
    requires Inv(cfg, t) && IsStuck(cfg.own, t, b)
    ensures Inv(cfg, MachineOf(cfg)(t, e).tables) && IsStuck(cfg.own, MachineOf(cfg)(t, e).tables, b)
  {
    DeliveryGoes(cfg, t, e);
    var a := MachineOf(cfg)(t, e);
    GoingKeeps(cfg, t, e, a);
    if e.Some? && IsNew(cfg.own, t, e.value) {
      if PrevOf(e.value) == HeadOf(t, Rater(e.value)) {
        AcceptKeepsStuck(cfg.own, t, e.value, b);
      } else {
        QueueOpensNothing(cfg, t, e.value);
      }
    }
  }

  lemma StuckWaitsForEver(cfg: Config, t: Tables, b: Body, deliveries: seq<Option<Body>>)
    requires Inv(cfg, t) && IsStuck(cfg.own, t, b)
    ensures b in Run(cfg, t, deliveries).orphans
  {
    var ok := (s: Tables) => Inv(cfg, s) && IsStuck(cfg.own, s, b);
    forall s, e | ok(s) && e in deliveries ensures ok(MachineOf(cfg)(s, e).tables) {
      DeliveryKeepsStuck(cfg, s, e, b);
    }
    RunKeepsOk(MachineOf(cfg), ok, t, deliveries);
  }

  // ------------------------------------------------------------ walking an open way

  /** `y` is `h` or one of the hashes behind it. */
  ghost predicate OnLine(y: Hash, h: Hash)
    decreases h
  {
    y == h || (h.LeafHash? && h.entry.prev.Full? && OnLine(y, h.entry.prev.hash))
  }

  lemma {:induction false} LineDepth(y: Hash, h: Hash)
    requires OnLine(y, h)
    ensures Depth(y) <= Depth(h)
    decreases h
  {
    if y != h {
      LineDepth(y, h.entry.prev.hash);
    }
  }

  /** The first entry on the way from the head to `h`. */
  lemma {:induction false} FirstOnWay(own: PeerId, t: Tables, p: PeerId, h: Hash) returns (y: Hash)
    requires CanBecomeHead(own, t, p, h) && h != HeadOf(t, p)
    ensures OnLine(y, h) && IsEntryOf(own, p, y) && y.entry.prev.hash == HeadOf(t, p)
    decreases h
  {
    y := h;
    if h.entry.prev.hash != HeadOf(t, p) {
      y := FirstOnWay(own, t, p, h.entry.prev.hash);
    }
  }

  /** A step along the way, or one that takes the first in line, leaves the way open. */
  lemma {:induction false} StepsKeepWay(own: PeerId, s: Tables, p: PeerId, n: Tables, x: Body, h: Hash)
    requires Advances(own, s, p, n, x) && CanBecomeHead(own, s, p, h) && h != HeadOf(s, p)
    requires OnLine(EntryHash(x), h) || Promotes(own, s, p, n, x)
    ensures CanBecomeHead(own, n, p, h)
    decreases h
  {
    var g := h.entry.prev.hash;
    BodyIsUnique(own, x);
    EntryHasBody(own, p, h);
    if g == HeadOf(s, p) {
      if !Promotes(own, s, p, n, x) && EntryHash(x) != h {
        LineDepth(EntryHash(x), g);
        EntryHasBody(own, p, EntryHash(x));
      }
      assert EntryHash(x) == h;
    } else {
      assert EntryHash(x) != h;
      StepsKeepWay(own, s, p, n, x, g);
    }
  }

  lemma AdvanceKeepsOpen(own: PeerId, s: Tables, p: PeerId, n: Tables, x: Body, h: Hash)
    requires Chains(own, s) && Advances(own, s, p, n, x) && IsOpen(own, s, p, h)
    requires OnLine(EntryHash(x), h) || Promotes(own, s, p, n, x)
    ensures IsOpen(own, n, p, h)
  {
    StepsPassHeads(own, s, p, n, x, p, h);
    HeadDepth(own, s, p);
    if !Passed(s, p, h) {
      StepsKeepWay(own, s, p, n, x, h);
    }
  }

  /** Delivering an entry on an open way, behind the head, accepts it and keeps the way open. */
  lemma DeliverOnWay(cfg: Config, t: Tables, x: Body, h: Hash)
    requires Inv(cfg, t) && Admissible(cfg.own, x) && PrevOf(x) == HeadOf(t, Rater(x))
    requires OnLine(EntryHash(x), h) && IsOpen(cfg.own, t, Rater(x), h)
    ensures var n := MachineOf(cfg)(t, Some(x)).tables;
            && Inv(cfg, n) && IsOpen(cfg.own, n, Rater(x), h)
            && AcceptedOf(t, Rater(x)) + [x] <= AcceptedOf(n, Rater(x))
  {
    var p := Rater(x);
    NextIsNew(cfg, t, x);
    DeliveryGoes(cfg, t, Some(x));
    GoingKeeps(cfg, t, Some(x), MachineOf(cfg)(t, Some(x)));
    TakingAdvances(cfg.own, t, x);
    AcceptKeeps(cfg, t, x);
    AdvanceKeepsOpen(cfg.own, t, p, Taken(t, x), x, h);
    WalkKeepsOpen(cfg.own, Taken(t, x), p, h);
  }

  lemma NextIsNew(cfg: Config, t: Tables, x: Body)
    requires Inv(cfg, t) && Admissible(cfg.own, x) && PrevOf(x) == HeadOf(t, Rater(x))
    ensures IsNew(cfg.own, t, x)
  {
    var chain := AcceptedOf(t, Rater(x));
    HeadIsLink(cfg.own, t, Rater(x));
    if x in chain {
      PlaceInChain(cfg.own, Rater(x), chain, x, |chain|);
    }
  }

  lemma WalkKeepsOpen(own: PeerId, t: Tables, p: PeerId, h: Hash)
    requires Sound(own, t, p) && IsOpen(own, t, p, h)
    ensures Unique(t.orphans) && IsOpen(own, Walk(t, p, [HeadOf(t, p)]), p, h)
  {
    var good := (s: Tables) => IsOpen(own, s, p, h);
    var linked := (s: Tables, n: Tables) => true;
    forall s, n, x | Sound(own, s, p) && good(s) && Promotes(own, s, p, n, x) ensures good(n) && linked(s, n) {
      AdvanceKeepsOpen(own, s, p, n, x, h);
    }
    PromotionsInduction(own, t, p, good, linked);
  }

  lemma {:induction false} RunFromFirst(m: Machine, t: Tables, e: Option<Body>, later: seq<Option<Body>>)
    ensures RunOf(m, t, [e] + later) == RunOf(m, m(t, e).tables, later)
  {
    if later == [] {
      assert [e] + later == [e] && [e][..0] == [];
    } else {
      var front := later[..|later| - 1];
      assert ([e] + later)[..|later|] == [e] + front;
      RunFromFirst(m, t, e, front);
    }
  }

  /** Along an open way the entries can be delivered one by one until `h` is passed. */
  lemma {:induction false} WayCanBeWalked(cfg: Config, t: Tables, p: PeerId, h: Hash) returns (way: seq<Option<Body>>)
    requires Inv(cfg, t) && IsOpen(cfg.own, t, p, h)
    ensures Passed(Run(cfg, t, way), p, h)
    ensures forall e | e in way :: e.Some? && e.value.Carried? && Depth(EntryHash(e.value)) <= Depth(h)
    decreases Depth(h) - |AcceptedOf(t, p)|
  {
    way := [];
    if !Passed(t, p, h) {
      var x := StepOnWay(cfg, t, p, h);
      var rest := WayCanBeWalked(cfg, MachineOf(cfg)(t, Some(x)).tables, p, h);
      RunFromFirst(MachineOf(cfg), t, Some(x), rest);
      way := [Some(x)] + rest;
    }
  }

  /** Delivering the first entry on the way brings the head one step closer and keeps the way open. */
  lemma {:induction false} StepOnWay(cfg: Config, t: Tables, p: PeerId, h: Hash) returns (x: Body)
    requires Inv(cfg, t) && IsOpen(cfg.own, t, p, h) && !Passed(t, p, h)
    ensures x.Carried? && Depth(EntryHash(x)) <= Depth(h) && Depth(h) > |AcceptedOf(t, p)|
    ensures var n := MachineOf(cfg)(t, Some(x)).tables;
            Inv(cfg, n) && IsOpen(cfg.own, n, p, h) && |AcceptedOf(n, p)| > |AcceptedOf(t, p)|
  {
    HeadDepth(cfg.own, t, p);
    HeadsLieDeeper(cfg.own, t, p, h);
    var y := FirstOnWay(cfg.own, t, p, h);
    EntryHasBody(cfg.own, p, y);
    LineDepth(y, h);
    x := BodyOf(y);
    DeliverOnWay(cfg, t, x, h);
  }

  // ------------------------------------------------------------ what has missed its place

  /** A waiting entry whose predecessor is in the chain already. */
  ghost predicate MissedItsPlace(t: Tables, b: Body)
  {
    b in t.orphans && b.Carried? && Passed(t, Rater(b), PrevOf(b))
  }

  /** A waiting entry can be in that case only while its predecessor is the head. */
  ghost predicate InTime(t: Tables, b: Body)
  {
    MissedItsPlace(t, b) ==> PrevOf(b) == HeadOf(t, Rater(b))
  }

  lemma AdvanceKeepsInTime(own: PeerId, s: Tables, p: PeerId, n: Tables, x: Body, b: Body)
    requires Chains(own, s) && Advances(own, s, p, n, x) && b.Carried? && InTime(s, b)
    ensures InTime(n, b)
  {
    StepsPassHeads(own, s, p, n, x, Rater(b), PrevOf(b));
  }

  lemma AcceptKeepsInTime(cfg: Config, t: Tables, body: Body, b: Body)
    requires Inv(cfg, t) && IsNew(cfg.own, t, body) && b.Carried? && !MissedItsPlace(t, b)
    requires PrevOf(body) == HeadOf(t, Rater(body))
    ensures Unique(t.orphans) && AllCarried(t.orphans)
    ensures !MissedItsPlace(Walk(Taken(t, body), Rater(body), [EntryHash(body)]), b)
  {
    var p, good := Rater(body), (s: Tables) => InTime(s, b);
    var linked := (s: Tables, n: Tables) => true;
    TakingAdvances(cfg.own, t, body);
    AdvanceKeepsInTime(cfg.own, t, p, Taken(t, body), body, b);
    forall s, n, x | Sound(cfg.own, s, p) && good(s) && Promotes(cfg.own, s, p, n, x) ensures good(n) && linked(s, n) {
      AdvanceKeepsInTime(cfg.own, s, p, n, x, b);
    }
    PromotionsInduction(cfg.own, Taken(t, body), p, good, linked);
    AcceptKeeps(cfg, t, body);
  }

  /** An entry is queued whose predecessor the chain has already left behind. */
  ghost predicate ComesLate(cfg: Config, t: Tables, e: Option<Body>, b: Body)
    requires b.Carried?
  {
    && e == Some(b) && IsNew(cfg.own, t, b)
    && Passed(t, Rater(b), PrevOf(b)) && PrevOf(b) != HeadOf(t, Rater(b))
    && MachineOf(cfg)(t, e).refusal.None?
  }

  /** Exactly a late delivery makes an entry wait that has missed its place. */
  lemma {:induction false} MissesIff(cfg: Config, t: Tables, e: Option<Body>, b: Body)
    requires Inv(cfg, t) && b.Carried?
    ensures Inv(cfg, MachineOf(cfg)(t, e).tables)
    ensures MissedItsPlace(MachineOf(cfg)(t, e).tables, b) <==> MissedItsPlace(t, b) || ComesLate(cfg, t, e, b)
  {
    DeliveryGoes(cfg, t, e);
    GoingKeeps(cfg, t, e, MachineOf(cfg)(t, e));
    if MissedItsPlace(t, b) {
      MissedStaysMissed(cfg, t, e, b);
    } else {
      MissesNow(cfg, t, e, MachineOf(cfg)(t, e), b);
    }
  }

  lemma {:induction false} MissedStaysMissed(cfg: Config, t: Tables, e: Option<Body>, b: Body)
    requires Inv(cfg, t) && MissedItsPlace(t, b)
    ensures MissedItsPlace(MachineOf(cfg)(t, e).tables, b)
  {
    DeliveryGoes(cfg, t, e);
    MissedIsStuck(cfg.own, t, b);
    DeliveryKeepsStuck(cfg, t, e, b);
    PassedStaysPassed(cfg, t, e, MachineOf(cfg)(t, e), Rater(b), PrevOf(b));
  }

  lemma {:induction false} MissesNow(cfg: Config, t: Tables, e: Option<Body>, a: Answer, b: Body)
    requires Inv(cfg, t) && b.Carried? && !MissedItsPlace(t, b) && a == MachineOf(cfg)(t, e)
    requires Unique(t.orphans) && AllCarried(t.orphans) && Goes(cfg, t, e, a)
    ensures MissedItsPlace(a.tables, b) <==> ComesLate(cfg, t, e, b)
  {
    if e.Some? && IsNew(cfg.own, t, e.value) && PrevOf(e.value) == HeadOf(t, Rater(e.value)) {
      AcceptKeepsInTime(cfg, t, e.value, b);
    } else if e.Some? && IsNew(cfg.own, t, e.value) {
      QueueMissesIff(cfg, t, e.value, b);
    }
  }

  lemma {:induction false} QueueMissesIff(cfg: Config, t: Tables, body: Body, b: Body)
    requires body.Carried? && b.Carried? && !MissedItsPlace(t, b)
    ensures var a := QueueOrphan(cfg, t, body);
            MissedItsPlace(a.tables, b) <==> body == b && a.refusal.None? && Passed(t, Rater(b), PrevOf(b))
  {
  }

  lemma MissedIsStuck(own: PeerId, t: Tables, b: Body)
    requires Chains(own, t) && SettledBut(t, None) && MissedItsPlace(t, b)
    ensures IsStuck(own, t, b)
  {
    if CanBecomeHead(own, t, Rater(b), PrevOf(b)) {
      PassedHeadIsHead(own, t, Rater(b), PrevOf(b));
    }
  }

  lemma {:induction false} PassedStaysPassed(cfg: Config, t: Tables, e: Option<Body>, a: Answer, p: PeerId, h: Hash)
    requires Inv(cfg, t) && Unique(t.orphans) && AllCarried(t.orphans) && Goes(cfg, t, e, a)
    ensures AcceptedOf(t, p) <= AcceptedOf(a.tables, p)
    ensures Passed(t, p, h) ==> Passed(a.tables, p, h)
  {
    if e.Some? && IsNew(cfg.own, t, e.value) && PrevOf(e.value) == HeadOf(t, Rater(e.value)) {
      AcceptGrows(cfg, t, e.value, p);
    }
    PassedGrows(t, a.tables, p, h);
  }

  lemma {:induction false} AcceptGrows(cfg: Config, t: Tables, body: Body, p: PeerId)
    requires Inv(cfg, t) && IsNew(cfg.own, t, body) && PrevOf(body) == HeadOf(t, Rater(body))
    ensures Unique(t.orphans) && AllCarried(t.orphans)
    ensures AcceptedOf(t, p) <= AcceptedOf(Walk(Taken(t, body), Rater(body), [EntryHash(body)]), p)
  {
    AcceptKeeps(cfg, t, body);
    assert AcceptedOf(t, p) <= AcceptedOf(Taken(t, body), p);
  }

  lemma {:induction false} PassedGrows(t: Tables, n: Tables, p: PeerId, h: Hash)
    requires AcceptedOf(t, p) <= AcceptedOf(n, p)
    ensures Passed(t, p, h) ==> Passed(n, p, h)
  {
  }

  // ------------------------------------------------------------ who waits for ever

  lemma RunKeepsInvFrom(cfg: Config, t: Tables, deliveries: seq<Option<Body>>)
    requires Inv(cfg, t)
    ensures Inv(cfg, Run(cfg, t, deliveries))
  {
    var ok := (s: Tables) => Inv(cfg, s);
    forall s, e | ok(s) && e in deliveries ensures ok(MachineOf(cfg)(s, e).tables) {
      DeliveryKeeps(cfg, s, e);
    }
    RunKeepsOk(MachineOf(cfg), ok, t, deliveries);
  }

  lemma RunStaysInTime(cfg: Config, t: Tables, deliveries: seq<Option<Body>>, b: Body)
    requires Inv(cfg, t) && b.Carried? && !MissedItsPlace(t, b) && Some(b) !in deliveries
    ensures !MissedItsPlace(Run(cfg, t, deliveries), b)
  {
    var ok := (s: Tables) => Inv(cfg, s) && !MissedItsPlace(s, b);
    forall s, e | ok(s) && e in deliveries ensures ok(MachineOf(cfg)(s, e).tables) {
      MissesIff(cfg, s, e, b);
    }
    RunKeepsOk(MachineOf(cfg), ok, t, deliveries);
  }

  /** An entry whose predecessor can still be the head leaves the queue in some continuation. */
  lemma SomeRunReleases(cfg: Config, t: Tables, b: Body) returns (way: seq<Option<Body>>)
    requires Inv(cfg, t) && b in t.orphans && b.Carried? && CanBecomeHead(cfg.own, t, Rater(b), PrevOf(b))
    ensures b !in Run(cfg, t, way).orphans
  {
    way := WayCanBeWalked(cfg, t, Rater(b), PrevOf(b));
    if MissedItsPlace(t, b) {
      PassedHeadIsHead(cfg.own, t, Rater(b), PrevOf(b));
    }
    HashOfNext(cfg.own, b);
    RunStaysInTime(cfg, t, way, b);
  }

  /**
   A waiting entry is neither accepted nor dropped in any continuation exactly when
   the way from the head to its predecessor is closed: some hash on it is no
   admissible entry of the rater, is behind another in line, or lies off the chain.
   */
  lemma WaitsForEverIff(cfg: Config, t: Tables, b: Body)
    requires Inv(cfg, t) && b in t.orphans
    ensures b.Carried?
    ensures (forall later :: b in Run(cfg, t, later).orphans)
       <==> !CanBecomeHead(cfg.own, t, Rater(b), PrevOf(b))
  {
    if CanBecomeHead(cfg.own, t, Rater(b), PrevOf(b)) {
      var way := SomeRunReleases(cfg, t, b);
    } else {
      forall later ensures b in Run(cfg, t, later).orphans {
        StuckWaitsForEver(cfg, t, b, later);
      }
    }
  }

  /** The same read off the tables before the entry is delivered. */
  lemma {:induction false} DeliveredWaitsForEverIff(cfg: Config, t: Tables, b: Body)
    requires Inv(cfg, t) && IsNew(cfg.own, t, b) && PrevOf(b) != HeadOf(t, Rater(b))
    requires MachineOf(cfg)(t, Some(b)).refusal.None?
    ensures (forall later :: b in Run(cfg, MachineOf(cfg)(t, Some(b)).tables, later).orphans)
       <==> !CanBecomeHead(cfg.own, t, Rater(b), PrevOf(b))
  {
    var n := MachineOf(cfg)(t, Some(b)).tables;
    NewIsQueued(cfg, t, b);
    WaitsForEverIff(cfg, n, b);
    QueueingKeepsWay(cfg.own, t, b);
  }

  lemma {:induction false} NewIsQueued(cfg: Config, t: Tables, b: Body)
    requires Inv(cfg, t) && IsNew(cfg.own, t, b) && PrevOf(b) != HeadOf(t, Rater(b))
    requires MachineOf(cfg)(t, Some(b)).refusal.None?
    ensures MachineOf(cfg)(t, Some(b)).tables == t.(orphans := t.orphans + [b])
    ensures Inv(cfg, t.(orphans := t.orphans + [b]))
  {
    DeliveryGoes(cfg, t, Some(b));
    GoingKeeps(cfg, t, Some(b), MachineOf(cfg)(t, Some(b)));
  }

  /** Waiting does not get in an entry's own way. */
  lemma {:induction false} QueueingKeepsWay(own: PeerId, t: Tables, b: Body)
    requires b.Carried?
    ensures CanBecomeHead(own, t.(orphans := t.orphans + [b]), Rater(b), PrevOf(b))
       <==> CanBecomeHead(own, t, Rater(b), PrevOf(b))
  {
    if CanBecomeHead(own, t.(orphans := t.orphans + [b]), Rater(b), PrevOf(b)) {
      QueueingOpensNothing(own, t, b, Rater(b), PrevOf(b));
    }
    if CanBecomeHead(own, t, Rater(b), PrevOf(b)) {
      QueueingClosesNothingBefore(own, t, b, PrevOf(b));
    }
  }

  lemma {:induction false} QueueingClosesNothingBefore(own: PeerId, t: Tables, b: Body, h: Hash)
    requires b.Carried? && CanBecomeHead(own, t, Rater(b), h) && Depth(h) <= Depth(PrevOf(b))
    ensures CanBecomeHead(own, t.(orphans := t.orphans + [b]), Rater(b), h)
    decreases h
  {
    if h != HeadOf(t, Rater(b)) {
      EntryHasBody(own, Rater(b), h);
      AwaitingMore(t.orphans, b, Rater(b), h.entry.prev.hash);
      QueueingClosesNothingBefore(own, t, b, h.entry.prev.hash);
    }
  }

  lemma RunOpensNothing(cfg: Config, t: Tables, deliveries: seq<Option<Body>>)
    requires Inv(cfg, t)
    ensures OpensNothing(cfg.own, t, Run(cfg, t, deliveries))
  {
    var ok := (s: Tables) => Inv(cfg, s) && OpensNothing(cfg.own, t, s);
    forall s, e | ok(s) && e in deliveries ensures ok(MachineOf(cfg)(s, e).tables) {
      DeliveryGoes(cfg, s, e);
      GoingKeeps(cfg, s, e, MachineOf(cfg)(s, e));
      GoingOpensNothing(cfg, s, e, MachineOf(cfg)(s, e));
      OpensNothingTwice(cfg.own, t, s, MachineOf(cfg)(s, e).tables);
    }
    RunKeepsOk(MachineOf(cfg), ok, t, deliveries);
  }

  /** An admissible entry can be brought into the chain exactly when the way to it is open. */
  lemma CanBeAcceptedIff(cfg: Config, t: Tables, b: Body)
    requires Inv(cfg, t) && Admissible(cfg.own, b)
    ensures (exists later :: b in AcceptedOf(Run(cfg, t, later), Rater(b)))
       <==> IsOpen(cfg.own, t, Rater(b), EntryHash(b))
  {
    BodyIsUnique(cfg.own, b);
    if later :| b in AcceptedOf(Run(cfg, t, later), Rater(b)) {
      RunOpensNothing(cfg, t, later);
      assert IsOpen(cfg.own, Run(cfg, t, later), Rater(b), EntryHash(b));
    }
    if IsOpen(cfg.own, t, Rater(b), EntryHash(b)) {
      var way := WayCanBeWalked(cfg, t, Rater(b), EntryHash(b));
      assert b in AcceptedOf(Run(cfg, t, way), Rater(b));
    }
  }

  // ------------------------------------------------------------ two entries for one place

  /** The rater signed two entries that name one predecessor. */
  ghost predicate AreForks(own: PeerId, a: Body, b: Body)
  {
    a != b && Admissible(own, a) && Admissible(own, b) && Rater(a) == Rater(b) && PrevOf(a) == PrevOf(b)
  }

  lemma PredecessorIsPassed(own: PeerId, t: Tables, a: Body)
    requires Chains(own, t) && a.Carried? && a in AcceptedOf(t, Rater(a))
    ensures Passed(t, Rater(a), PrevOf(a)) && PrevOf(a) != HeadOf(t, Rater(a))
  {
    var chain := AcceptedOf(t, Rater(a));
    HeadIsLink(own, t, Rater(a));
    var i :| 0 <= i < |chain| && chain[i] == a;
    LinkDepth(own, Rater(a), chain, i);
    LinkDepth(own, Rater(a), chain, |chain|);
    if i > 0 {
      BodyIsUnique(own, chain[i - 1]);
    }
  }

  /** What the chain has left behind has a successor in it. */
  lemma PassedHasSuccessor(own: PeerId, t: Tables, p: PeerId, h: Hash) returns (c: Body)
    requires Chains(own, t) && Passed(t, p, h) && h != HeadOf(t, p)
    ensures c in AcceptedOf(t, p) && c.Carried? && PrevOf(c) == h
  {
    var chain := AcceptedOf(t, p);
    HeadIsLink(own, t, p);
    var i := 0;
    if h != ZERO {
      i := PlaceOf(own, p, chain, h);
    }
    assert Link(chain, i) == h;
    c := chain[i];
  }

  /** Once one of two forks is accepted, the other waits exactly if it has missed its place. */
  lemma ForkWaitsIfMissed(cfg: Config, t: Tables, a: Body, b: Body)
    requires Inv(cfg, t) && AreForks(cfg.own, a, b) && a in AcceptedOf(t, Rater(a))
    ensures b !in AcceptedOf(t, Rater(a))
    ensures b in t.orphans <==> MissedItsPlace(t, b)
    ensures ComesLate(cfg, t, Some(b), b) <==> b !in t.orphans && MachineOf(cfg)(t, Some(b)).refusal.None?
  {
    PredecessorIsPassed(cfg.own, t, a);
    if b in AcceptedOf(t, Rater(a)) {
      NoForkIsAbsorbed(cfg, t, Rater(a), a, b);
    }
  }

  /** No fork has missed its place at the moment when the other one is accepted. */
  lemma AcceptedInTime(cfg: Config, t: Tables, e: Option<Body>, a: Body, b: Body)
    requires Inv(cfg, t) && AreForks(cfg.own, a, b) && a !in AcceptedOf(t, Rater(a))
    requires a in AcceptedOf(MachineOf(cfg)(t, e).tables, Rater(a))
    ensures !MissedItsPlace(MachineOf(cfg)(t, e).tables, b)
  {
    var p, n := Rater(a), MachineOf(cfg)(t, e).tables;
    MissesIff(cfg, t, e, b);
    if MissedItsPlace(n, b) {
      assert Passed(t, p, PrevOf(b)) && PrevOf(b) != HeadOf(t, p);
      var c := PassedHasSuccessor(cfg.own, t, p, PrevOf(b));
      AcceptedStays(cfg, t, e, c, p);
      NoForkIsAbsorbed(cfg, n, p, a, c);
    }
  }

  lemma AcceptedStays(cfg: Config, t: Tables, e: Option<Body>, c: Body, p: PeerId)
    requires Inv(cfg, t) && c in AcceptedOf(t, p)
    ensures c in AcceptedOf(MachineOf(cfg)(t, e).tables, p)
  {
    DeliveryGoes(cfg, t, e);
    PassedStaysPassed(cfg, t, e, MachineOf(cfg)(t, e), p, ZERO);
  }

  /** `b` was taken in by the `i`-th delivery, after `a` had been accepted. */
  ghost predicate QueuedAfter(cfg: Config, deliveries: seq<Option<Body>>, a: Body, b: Body, i: nat)
    requires a.Carried? && i < |deliveries|
  {
    var t := Run(cfg, Empty, deliveries[..i]);
    && deliveries[i] == Some(b) && a in AcceptedOf(t, Rater(a)) && MachineOf(cfg)(t, Some(b)).refusal.None?
  }

  /**
   Of two forks one of which is accepted, the other is never accepted; it waits in the
   queue if and only if it was delivered and not refused at least once after the first
   was accepted, and then for ever; otherwise, if it was delivered before, it is gone.
   */
  lemma ForkWaitsIff(cfg: Config, deliveries: seq<Option<Body>>, a: Body, b: Body)
    requires AreForks(cfg.own, a, b) && a in AcceptedOf(Run(cfg, Empty, deliveries), Rater(a))
    ensures b !in AcceptedOf(Run(cfg, Empty, deliveries), Rater(a))
    ensures b in Run(cfg, Empty, deliveries).orphans
       <==> exists i: nat :: i < |deliveries| && QueuedAfter(cfg, deliveries, a, b, i)
    ensures b in Run(cfg, Empty, deliveries).orphans ==>
              forall later :: b in Run(cfg, Run(cfg, Empty, deliveries), later).orphans
  {
    var t := Run(cfg, Empty, deliveries);
    RunKeepsInv(cfg, deliveries);
    ForkWaitsIfMissed(cfg, t, a, b);
    MissedIff(cfg, deliveries, a, b);
    if b in t.orphans {
      MissedIsStuck(cfg.own, t, b);
      WaitsForEverIff(cfg, t, b);
    }
  }

  lemma {:induction false} MissedIff(cfg: Config, deliveries: seq<Option<Body>>, a: Body, b: Body)
    requires AreForks(cfg.own, a, b) && a in AcceptedOf(Run(cfg, Empty, deliveries), Rater(a))
    ensures MissedItsPlace(Run(cfg, Empty, deliveries), b)
       <==> exists i: nat :: i < |deliveries| && QueuedAfter(cfg, deliveries, a, b, i)
  {
    if |deliveries| > 0 {
      var front, last := deliveries[..|deliveries| - 1], deliveries[|deliveries| - 1];
      var t := Run(cfg, Empty, front);
      RunKeepsInv(cfg, front);
      assert deliveries == front + [last];
      if a in AcceptedOf(t, Rater(a)) {
        MissedIff(cfg, front, a, b);
        MissedOneMore(cfg, front, t, last, a, b);
        OneMoreQueued(cfg, front, last, a, b);
      } else {
        AcceptedInTime(cfg, t, last, a, b);
        NoneQueuedBefore(cfg, front, last, a, b);
      }
    }
  }

  lemma MissedOneMore(cfg: Config, front: seq<Option<Body>>, t: Tables, last: Option<Body>, a: Body, b: Body)
    requires AreForks(cfg.own, a, b) && Inv(cfg, t) && t == Run(cfg, Empty, front) && a in AcceptedOf(t, Rater(a))
    ensures MissedItsPlace(MachineOf(cfg)(t, last).tables, b)
       <==> MissedItsPlace(t, b) || QueuedAfter(cfg, front + [last], a, b, |front|)
  {
    MissesIff(cfg, t, last, b);
    ForkWaitsIfMissed(cfg, t, a, b);
    assert (front + [last])[..|front|] == front;
  }

  lemma NoneQueuedBefore(cfg: Config, front: seq<Option<Body>>, last: Option<Body>, a: Body, b: Body)
    requires a.Carried? && a !in AcceptedOf(Run(cfg, Empty, front), Rater(a))
    ensures forall i: nat | i < |front| + 1 :: !QueuedAfter(cfg, front + [last], a, b, i)
  {
    forall i: nat | i < |front| + 1 ensures !QueuedAfter(cfg, front + [last], a, b, i) {
      NotAcceptedBefore(cfg, front, a, i);
      assert (front + [last])[..i] == front[..i];
    }
  }

  lemma OneMoreQueued(cfg: Config, front: seq<Option<Body>>, last: Option<Body>, a: Body, b: Body)
    requires a.Carried?
    ensures (exists i: nat :: i < |front| + 1 && QueuedAfter(cfg, front + [last], a, b, i))
       <==> (exists i: nat :: i < |front| && QueuedAfter(cfg, front, a, b, i))
            || QueuedAfter(cfg, front + [last], a, b, |front|)
  {
    forall i: nat | i < |front| ensures QueuedAfter(cfg, front + [last], a, b, i) <==> QueuedAfter(cfg, front, a, b, i) {
      assert (front + [last])[..i] == front[..i];
    }
  }

  lemma {:induction false} NotAcceptedBefore(cfg: Config, deliveries: seq<Option<Body>>, a: Body, i: nat)
    requires i <= |deliveries| && a.Carried? && a !in AcceptedOf(Run(cfg, Empty, deliveries), Rater(a))
    ensures a !in AcceptedOf(Run(cfg, Empty, deliveries[..i]), Rater(a))
  {
    if i == |deliveries| {
      assert deliveries[..i] == deliveries;
    } else {
      var front, last := deliveries[..|deliveries| - 1], deliveries[|deliveries| - 1];
      var t := Run(cfg, Empty, front);
      RunKeepsInv(cfg, front);
      DeliveryGoes(cfg, t, last);
      PassedStaysPassed(cfg, t, last, MachineOf(cfg)(t, last), Rater(a), ZERO);
      NotAcceptedBefore(cfg, front, a, i);
      assert deliveries[..i] == front[..i];
    }
  }

  /** The queue is reached: two first entries of one rater, one after the other, leave the second waiting for ever. */
  lemma SecondFirstEntryWaitsForEver(cfg: Config, a: Body, b: Body)
    requires AreForks(cfg.own, a, b) && PrevOf(a) == ZERO && cfg.orphanCap > 0 && cfg.perPeerCap > 0
    ensures AcceptedOf(Run(cfg, Empty, [Some(a), Some(b)]), Rater(a)) == [a]
    ensures Run(cfg, Empty, [Some(a), Some(b)]).orphans == [b]
    ensures IsLateFork(Run(cfg, Empty, [Some(a), Some(b)]), b)
    ensures forall later :: b in Run(cfg, Run(cfg, Empty, [Some(a), Some(b)]), later).orphans
  {
    FirstIsAccepted(cfg, a);
    var t := MachineOf(cfg)(Empty, Some(a)).tables;
    SecondIsQueued(cfg, t, a, b);
    var n := MachineOf(cfg)(t, Some(b)).tables;
    RunOfTwo(MachineOf(cfg), Empty, Some(a), Some(b));
    MissedIsStuck(cfg.own, n, b);
    forall later ensures b in Run(cfg, n, later).orphans {
      StuckWaitsForEver(cfg, n, b, later);
    }
  }

  lemma RunOfTwo(m: Machine, t: Tables, e: Option<Body>, f: Option<Body>)
    ensures RunOf(m, t, [e, f]) == m(m(t, e).tables, f).tables
  {
    RunFromFirst(m, t, e, [f]);
    RunFromFirst(m, m(t, e).tables, f, []);
    assert [e] + [f] == [e, f] && [f] + [] == [f];
  }

  lemma FirstIsAccepted(cfg: Config, a: Body)
    requires Admissible(cfg.own, a) && PrevOf(a) == ZERO
    ensures var t := MachineOf(cfg)(Empty, Some(a)).tables;
            Inv(cfg, t) && AcceptedOf(t, Rater(a)) == [a] && t.orphans == []
  {
    EmptyInv(cfg);
    DeliveryGoes(cfg, Empty, Some(a));
    GoingKeeps(cfg, Empty, Some(a), MachineOf(cfg)(Empty, Some(a)));
    var t := Taken(Empty, a);
    assert Awaiting(t.orphans, Rater(a), EntryHash(a)) == [];
    assert [EntryHash(a)][1..] + [] == [];
    assert Walk(t, Rater(a), [EntryHash(a)]) == t;
  }

  lemma SecondIsQueued(cfg: Config, t: Tables, a: Body, b: Body)
    requires AreForks(cfg.own, a, b) && cfg.orphanCap > 0 && cfg.perPeerCap > 0
    requires Inv(cfg, t) && AcceptedOf(t, Rater(a)) == [a] && t.orphans == []
    ensures var n := MachineOf(cfg)(t, Some(b)).tables;
            Inv(cfg, n) && AcceptedOf(n, Rater(a)) == [a] && n.orphans == [b] && MissedItsPlace(n, b)
  {
    PredecessorIsPassed(cfg.own, t, a);
    DeliveryGoes(cfg, t, Some(b));
    GoingKeeps(cfg, t, Some(b), MachineOf(cfg)(t, Some(b)));
    ForkWaitsIfMissed(cfg, t, a, b);
  }

  /** A waiting entry whose place in its rater's chain is already taken. */
  ghost predicate IsLateFork(t: Tables, b: Body)
  {
    b in t.orphans && b.Carried? && Depth(PrevOf(b)) < |AcceptedOf(t, Rater(b))|
  }

  /** A fork that arrives after its place was taken is neither accepted nor dropped: it waits for ever. */
  lemma LateForkWaitsForEver(cfg: Config, t: Tables, b: Body, deliveries: seq<Option<Body>>)
    requires Inv(cfg, t) && IsLateFork(t, b)
    ensures b in Run(cfg, t, deliveries).orphans
  {
    HeadDepth(cfg.own, t, Rater(b));
    if CanBecomeHead(cfg.own, t, Rater(b), PrevOf(b)) {
      HeadsLieDeeper(cfg.own, t, Rater(b), PrevOf(b));
    }
    StuckWaitsForEver(cfg, t, b, deliveries);
  }
}
