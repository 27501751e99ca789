/**
 What the inbox answers to a delivery, in the fields of the entry and the contents of
 its tables, and which of several waiting entries it takes.
 */
module InboxAnswers {
  import opened Hashing
  import opened Wrappers
  import opened Envelopes
  import opened Inbox
  import opened InboxTheorems
  import opened InboxForks

  // ------------------------------------------------------------ who decides

  /** Below the global cap, what others have waiting does not decide whether an entry is taken. */
  lemma {:induction false} OthersDoNotDecide(cfg: Config, t: Tables, u: Tables, b: Body)
    requires Unique(t.orphans) && AllCarried(t.orphans) && Unique(u.orphans) && AllCarried(u.orphans)
    requires b.Carried? && |t.orphans| < cfg.orphanCap && |u.orphans| < cfg.orphanCap
    requires WaitingOf(t, b.claim.rater) == WaitingOf(u, b.claim.rater)
    requires AcceptedOf(t, b.claim.rater) == AcceptedOf(u, b.claim.rater)
    requires HeadOf(t, b.claim.rater) == HeadOf(u, b.claim.rater)
    ensures AcceptOrQueue(cfg, t, Some(b)).refusal == AcceptOrQueue(cfg, u, Some(b)).refusal
  {
    AnswerIff(cfg, t, Some(b));
    AnswerIff(cfg, u, Some(b));
    assert b in t.orphans <==> b in WaitingOf(t, b.claim.rater);
    assert b in u.orphans <==> b in WaitingOf(u, b.claim.rater);
  }

  /** In the default inbox a rater finds room while fewer than 1000 of its own entries and 10000 of all wait. */
  lemma {:induction false} DefaultInboxHasRoom(own: PeerId, t: Tables, b: Body)
    requires Unique(t.orphans) && AllCarried(t.orphans) && IsReceivable(own, b)
    ensures AcceptOrQueue(ConfigOf(own, 0), t, Some(b)).refusal.Some?
       <==> && !IsHeld(t, b) && !ExtendsChain(t, b)
            && (|WaitingOf(t, b.claim.rater)| >= 1000 || |t.orphans| >= 10000)
  {
    AnswerIff(ConfigOf(own, 0), t, Some(b));
  }

  /** A smaller inbox is one rater's for the taking, a larger one never. */
  lemma {:induction false} CapsOfConfig(own: PeerId, orphanCap: nat)
    ensures var cfg := ConfigOf(own, orphanCap);
            && 0 < cfg.perPeerCap <= cfg.orphanCap && cfg.perPeerCap <= 1000 && cfg.own == own
            && (0 < orphanCap <= 1000 ==> cfg.perPeerCap == orphanCap == cfg.orphanCap)
            && (orphanCap > 1000 ==> cfg.perPeerCap == 1000 && cfg.orphanCap == orphanCap)
  {
  }

  // ------------------------------------------------------------ effects

  /** A delivery that is refused or known already leaves everything as it was, one that has to wait goes last. */
  lemma {:induction false} WaitingGoesLast(cfg: Config, t: Tables, b: Body)
    requires Unique(t.orphans) && AllCarried(t.orphans) && IsReceivable(cfg.own, b)
    ensures var n := AcceptOrQueue(cfg, t, Some(b)).tables;
            && (IsHeld(t, b) || FindsNoRoom(cfg, t, b) ==> n == t)
            && (!IsHeld(t, b) && !ExtendsChain(t, b) && !FindsNoRoom(cfg, t, b) ==>
                  n == Tables(t.accepted, t.heads, t.orphans + [b]))
  {
    ReceivableIsAdmissible(cfg.own, b);
    CountIsOfSet(t.orphans, b.claim.rater);
  }

  /** One that extends its rater's chain is accepted next. */
  lemma {:induction false} ExtensionIsAccepted(cfg: Config, t: Tables, b: Body)
    requires Inv(cfg, t) && IsReceivable(cfg.own, b) && !IsHeld(t, b) && ExtendsChain(t, b)
    ensures Unique(t.orphans) && AllCarried(t.orphans)
    ensures AcceptedOf(t, b.claim.rater) + [b] <= AcceptedOf(AcceptOrQueue(cfg, t, Some(b)).tables, b.claim.rater)
  {
    ReceivableIsAdmissible(cfg.own, b);
    DeliveryGoes(cfg, t, Some(b));
    AcceptKeeps(cfg, t, b);
    assert AcceptedOf(t, b.claim.rater) + [b] == AcceptedOf(Taken(t, b), b.claim.rater);
  }

  // ------------------------------------------------------------ who comes first

  /** The earliest of the waiting entries that name `g`. */
  ghost predicate IsEarliest(t: Tables, p: PeerId, g: Hash, i: nat)
  {
    && i < |t.orphans| && t.orphans[i].Carried? && t.orphans[i].claim.rater == p && t.orphans[i].prev == Full(g)
    && forall j | 0 <= j < i :: !(t.orphans[j].Carried? && t.orphans[j].claim.rater == p && t.orphans[j].prev == Full(g))
  }

  lemma {:induction false} EarliestIsFirst(orphans: seq<Body>, p: PeerId, g: Hash, i: nat)
    requires i < |orphans| && Awaits(orphans[i], p, g) && forall j | 0 <= j < i :: !Awaits(orphans[j], p, g)
    ensures Awaiting(orphans, p, g) != [] && Awaiting(orphans, p, g)[0] == orphans[i]
  {
    if i > 0 {
      assert !Awaits(orphans[0], p, g);
      EarliestIsFirst(orphans[1..], p, g, i - 1);
    }
  }

  /** Either nothing was promoted, or the first in line was. */
  ghost predicate TakesFirst(s: Tables, n: Tables, p: PeerId)
  {
    && AcceptedOf(s, p) <= AcceptedOf(n, p)
    && (s == n || (Awaiting(s.orphans, p, HeadOf(s, p)) != []
                   && Awaiting(s.orphans, p, HeadOf(s, p))[0] in AcceptedOf(n, p)))
  }

  lemma {:induction false} WalkTakesFirst(own: PeerId, t: Tables, p: PeerId)
    requires Sound(own, t, p)
    ensures TakesFirst(t, Walk(t, p, [HeadOf(t, p)]), p)
  {
    var good, linked := (s: Tables) => true, (s: Tables, n: Tables) => TakesFirst(s, n, p);
    PromotionsInduction(own, t, p, good, linked);
  }

  /** When an entry is accepted, the earliest of those that waited for it is accepted too. */
  lemma {:induction false} EarliestIsTaken(cfg: Config, t: Tables, b: Body, i: nat)
    requires Inv(cfg, t) && IsReceivable(cfg.own, b) && !IsHeld(t, b) && ExtendsChain(t, b)
    requires IsEarliest(t, b.claim.rater, LeafHash(CanonicalEntry(b.claim, b.prev)), i)
    ensures Unique(t.orphans) && AllCarried(t.orphans)
    ensures t.orphans[i] in AcceptedOf(AcceptOrQueue(cfg, t, Some(b)).tables, b.claim.rater)
  {
    ReceivableIsAdmissible(cfg.own, b);
    DeliveryGoes(cfg, t, Some(b));
    AcceptTakesFirst(cfg, t, b);
    EarliestAwaits(cfg, t, b, i);
  }

  lemma {:induction false} EarliestAwaits(cfg: Config, t: Tables, b: Body, i: nat)
    requires Inv(cfg, t) && b.Carried? && IsEarliest(t, b.claim.rater, EntryHash(b), i)
    ensures Awaiting(t.orphans, Rater(b), EntryHash(b)) != []
    ensures Awaiting(t.orphans, Rater(b), EntryHash(b))[0] == t.orphans[i]
  {
    forall j | 0 <= j < i ensures !Awaits(t.orphans[j], Rater(b), EntryHash(b)) {
      assert t.orphans[j] in t.orphans;
    }
    EarliestIsFirst(t.orphans, Rater(b), EntryHash(b), i);
  }

  lemma {:induction false} AcceptTakesFirst(cfg: Config, t: Tables, b: Body)
    requires Inv(cfg, t) && IsNew(cfg.own, t, b) && PrevOf(b) == HeadOf(t, Rater(b))
    ensures Unique(t.orphans) && AllCarried(t.orphans)
    ensures var waiting := Awaiting(t.orphans, Rater(b), EntryHash(b));
            waiting != [] ==> waiting[0] in AcceptedOf(Walk(Taken(t, b), Rater(b), [EntryHash(b)]), Rater(b))
  {
    TakingAdvances(cfg.own, t, b);
    WalkTakesFirst(cfg.own, Taken(t, b), Rater(b));
    AcceptKeeps(cfg, t, b);
    var waiting := Awaiting(t.orphans, Rater(b), EntryHash(b));
    if waiting != [] {
      AwaitingIs(t.orphans, Rater(b), EntryHash(b));
      assert waiting[0] in waiting;
    }
  }
}
