/** What every run of an inbox keeps, and what it makes of a rater who never forks. */
module InboxTheorems {
  import opened Hashing
  import opened Wrappers
  import opened Envelopes
  import opened Inbox

  // ------------------------------------------------------------ the invariant

  /** The hash that the entry at position `i` of a chain must name. */
  function Link(chain: seq<Body>, i: nat): Hash
    requires i <= |chain|
  {
    if i == 0 then ZERO else EntryHash(chain[i - 1])
  }

  ghost predicate IsChain(own: PeerId, p: PeerId, chain: seq<Body>)
  {
    && (forall i | 0 <= i < |chain| :: Admissible(own, chain[i]) && Rater(chain[i]) == p)
    && (forall i {:trigger Link(chain, i)} | 0 <= i < |chain| :: PrevOf(chain[i]) == Link(chain, i))
  }

  function HeadOf(t: Tables, p: PeerId): Hash
  {
    if p in t.heads then t.heads[p] else ZERO
  }

  /** Every rater's accepted entries are one chain from the start, and its head is the last of them. */
  ghost predicate Chains(own: PeerId, t: Tables)
  {
    && t.heads.Keys == t.accepted.Keys
    && (forall p | p in t.accepted ::
          |t.accepted[p]| > 0 && IsChain(own, p, t.accepted[p]) && t.heads[p] == Link(t.accepted[p], |t.accepted[p]|))
  }

  ghost predicate Waiting(own: PeerId, t: Tables)
  {
    && Unique(t.orphans)
    && (forall b | b in t.orphans :: Admissible(own, b) && b !in AcceptedOf(t, Rater(b)))
  }

  /** No waiting entry extends its rater's head, except perhaps for one rater. */
  ghost predicate SettledBut(t: Tables, p: Option<PeerId>)
  {
    forall b | b in t.orphans && b.Carried? && p != Some(Rater(b)) :: PrevOf(b) != HeadOf(t, Rater(b))
  }

  ghost predicate WithinCaps(cfg: Config, t: Tables)
  {
    |t.orphans| <= cfg.orphanCap && forall p :: CountOf(t.orphans, p) <= cfg.perPeerCap
  }

  ghost predicate Inv(cfg: Config, t: Tables)
  {
    Chains(cfg.own, t) && Waiting(cfg.own, t) && SettledBut(t, None) && WithinCaps(cfg, t)
  }

  // ------------------------------------------------------------ chains

  lemma HashOfNext(own: PeerId, body: Body)
    requires Admissible(own, body)
    ensures EntryHash(body).LeafHash?
    ensures Depth(EntryHash(body)) == 1 + Depth(PrevOf(body))
  {
  }

  /** Each link of a list lies one deeper than the link before. */
  ghost predicate Deepens(chain: seq<Body>)
  {
    forall i | 0 < i <= |chain| ::
      Depth(Link(chain, i)) == 1 + Depth(Link(chain, i - 1))
  }

  lemma ChainDeepens(own: PeerId, p: PeerId, chain: seq<Body>)
    requires IsChain(own, p, chain)
    ensures Deepens(chain)
  {
    forall i | 0 < i <= |chain|
      ensures Depth(Link(chain, i)) == 1 + Depth(Link(chain, i - 1))
    {
      HashOfNext(own, chain[i - 1]);
    }
  }

  lemma {:induction false} DepthIsPlace(chain: seq<Body>, i: nat)
    requires Deepens(chain) && i <= |chain|
    ensures Depth(Link(chain, i)) == i
  {
    if i > 0 {
      DepthIsPlace(chain, i - 1);
    }
  }

  lemma LinkDepth(own: PeerId, p: PeerId, chain: seq<Body>, i: nat)
    requires IsChain(own, p, chain) && i <= |chain|
    ensures Depth(Link(chain, i)) == i
  {
    ChainDeepens(own, p, chain);
    DepthIsPlace(chain, i);
  }

  /** An entry of a chain stands where its predecessor says. */
  lemma PlaceInChain(own: PeerId, p: PeerId, chain: seq<Body>, body: Body, k: nat)
    requires IsChain(own, p, chain) && body in chain && k <= |chain| && PrevOf(body) == Link(chain, k)
    ensures k < |chain| && chain[k] == body
  {
    var j :| 0 <= j < |chain| && chain[j] == body;
    LinkDepth(own, p, chain, j);
    LinkDepth(own, p, chain, k);
  }

  lemma HeadIsLink(own: PeerId, t: Tables, p: PeerId)
    requires Chains(own, t)
    ensures IsChain(own, p, AcceptedOf(t, p))
    ensures HeadOf(t, p) == Link(AcceptedOf(t, p), |AcceptedOf(t, p)|)
    ensures p in t.heads <==> |AcceptedOf(t, p)| > 0
  {
  }

  /** No rater ever has two accepted entries at one position. */
  lemma NoForkIsAbsorbed(cfg: Config, t: Tables, p: PeerId, a: Body, b: Body)
    requires Inv(cfg, t) && a in AcceptedOf(t, p) && b in AcceptedOf(t, p) && PrevOf(a) == PrevOf(b)
    ensures a == b
  {
    var chain := AcceptedOf(t, p);
    HeadIsLink(cfg.own, t, p);
    var i :| 0 <= i < |chain| && chain[i] == a;
    PlaceInChain(cfg.own, p, chain, b, i);
  }

  // ------------------------------------------------------------ accepting one entry

  /** `next` is `t` with one more entry at the end of `p`'s chain. */
  ghost predicate Grew(t: Tables, next: Tables, p: PeerId, body: Body)
  {
    && next.accepted == t.accepted[p := AcceptedOf(t, p) + [body]]
    && next.heads == t.heads[p := EntryHash(body)]
  }

  lemma InsertGrows(own: PeerId, t: Tables, body: Body)
    requires Chains(own, t) && Admissible(own, body)
    requires body !in AcceptedOf(t, Rater(body)) && PrevOf(body) == HeadOf(t, Rater(body))
    ensures Insert(t, body).Inserted?
    ensures Grew(t, Insert(t, body).tables, Rater(body), body)
    ensures Insert(t, body).tables.orphans == t.orphans
  {
  }

  lemma GrewKeepsChains(own: PeerId, t: Tables, next: Tables, body: Body)
    requires Chains(own, t) && Admissible(own, body) && PrevOf(body) == HeadOf(t, Rater(body))
    requires Grew(t, next, Rater(body), body)
    ensures Chains(own, next) && HeadOf(next, Rater(body)) == EntryHash(body)
    ensures AcceptedOf(next, Rater(body)) == AcceptedOf(t, Rater(body)) + [body]
    ensures forall q | q != Rater(body) :: AcceptedOf(next, q) == AcceptedOf(t, q) && HeadOf(next, q) == HeadOf(t, q)
  {
    HeadIsLink(own, t, Rater(body));
    ChainGrows(own, AcceptedOf(t, Rater(body)), body);
    GrewElsewhere(t, next, body);
  }

  lemma GrewElsewhere(t: Tables, next: Tables, body: Body)
    requires body.Carried? && Grew(t, next, Rater(body), body)
    ensures AcceptedOf(next, Rater(body)) == AcceptedOf(t, Rater(body)) + [body]
    ensures forall q | q != Rater(body) :: AcceptedOf(next, q) == AcceptedOf(t, q) && HeadOf(next, q) == HeadOf(t, q)
  {
  }

  lemma ChainGrows(own: PeerId, chain: seq<Body>, body: Body)
    requires Admissible(own, body) && IsChain(own, Rater(body), chain) && PrevOf(body) == Link(chain, |chain|)
    ensures IsChain(own, Rater(body), chain + [body]) && Link(chain + [body], |chain| + 1) == EntryHash(body)
  {
    var longer := chain + [body];
    forall i | 0 <= i < |longer|
      ensures Admissible(own, longer[i]) && Rater(longer[i]) == Rater(body) && PrevOf(longer[i]) == Link(longer, i)
    {
      LinkSurvives(chain, body, i);
      assert i < |chain| ==> longer[i] == chain[i];
    }
  }

  lemma LinkSurvives(chain: seq<Body>, body: Body, i: nat)
    requires i <= |chain|
    ensures Link(chain + [body], i) == Link(chain, i)
  {
  }

  // ------------------------------------------------------------ promotion

  /** The first of the entries that await the head is taken; the rest are forks and are dropped. */
  lemma {:induction false} PromoteTakesFirst(own: PeerId, t: Tables, p: PeerId, waiting: seq<Body>)
    requires Chains(own, t) && |waiting| > 0 && Unique(waiting) && AllCarried(waiting)
    requires forall b | b in waiting ::
               Admissible(own, b) && Rater(b) == p && PrevOf(b) == HeadOf(t, p) && b !in AcceptedOf(t, p)
    ensures Grew(t, PromoteAll(t, waiting).tables, p, waiting[0])
    ensures PromoteAll(t, waiting).promoted == [EntryHash(waiting[0])]
  {
    var front, last := waiting[..|waiting| - 1], waiting[|waiting| - 1];
    assert waiting[0] in waiting && last in waiting;
    if |waiting| == 1 {
      assert PromoteAll(t, front) == Promotion(t, []);
      InsertGrows(own, t, last);
    } else {
      PromoteTakesFirst(own, t, p, front);
      ForkMismatches(own, t, PromoteAll(t, front).tables, p, waiting[0], last);
    }
  }

  lemma ForkMismatches(own: PeerId, t: Tables, next: Tables, p: PeerId, first: Body, fork: Body)
    requires Chains(own, t) && Grew(t, next, p, first) && first != fork
    requires Admissible(own, first) && Rater(first) == p && PrevOf(first) == HeadOf(t, p)
    requires Admissible(own, fork) && Rater(fork) == p && PrevOf(fork) == HeadOf(t, p) && fork !in AcceptedOf(t, p)
    ensures Insert(next, fork) == ChainMismatch
  {
    HashOfNext(own, first);
  }

  /** Between two tables of one walk over `p`'s waiting entries. */
  ghost predicate Later(t: Tables, r: Tables, p: PeerId)
  {
    && (forall q | q != p :: AcceptedOf(r, q) == AcceptedOf(t, q) && HeadOf(r, q) == HeadOf(t, q))
    && AcceptedOf(t, p) <= AcceptedOf(r, p)
    && (forall b | b in r.orphans :: b in t.orphans)
    && (forall b | b in t.orphans && b.Carried? && Rater(b) != p :: b in r.orphans)
    && |r.orphans| <= |t.orphans|
    && (forall q :: CountOf(r.orphans, q) <= CountOf(t.orphans, q))
  }

  lemma {:induction false} CountWithout(s: seq<Body>, body: Body, q: PeerId)
    ensures CountOf(Without(s, body), q) <= CountOf(s, q)
  {
    if |s| > 0 {
      CountWithout(s[1..], body, q);
    }
  }

  lemma {:induction false} CountAfterPromotion(t: Tables, waiting: seq<Body>, q: PeerId)
    requires AllCarried(waiting)
    ensures CountOf(PromoteAll(t, waiting).tables.orphans, q) <= CountOf(t.orphans, q)
  {
    if |waiting| > 0 {
      var front := PromoteAll(t, waiting[..|waiting| - 1]);
      CountAfterPromotion(t, waiting[..|waiting| - 1], q);
      CountWithout(front.tables.orphans, waiting[|waiting| - 1], q);
    }
  }

  /** One round of promotion, with `p`'s head as the hash whose children are looked for. */
  ghost predicate IsRound(t: Tables, p: PeerId, waiting: seq<Body>, next: Tables)
  {
    && |waiting| > 0 && AllCarried(waiting) && waiting == Awaiting(t.orphans, p, HeadOf(t, p))
    && (forall b :: b in waiting <==> b in t.orphans && Awaits(b, p, HeadOf(t, p)))
    && Unique(next.orphans) && (forall b :: b in next.orphans <==> b in t.orphans && b !in waiting)
    && |next.orphans| < |t.orphans|
    && next == PromoteAll(t, waiting).tables && Grew(t, next, p, waiting[0])
  }

  lemma PromotionRound(own: PeerId, t: Tables, p: PeerId)
    returns (waiting: seq<Body>, next: Tables)
    requires Chains(own, t) && Waiting(own, t) && AllCarried(t.orphans)
    ensures waiting == Awaiting(t.orphans, p, HeadOf(t, p))
    ensures waiting == [] ==> Walk(t, p, [HeadOf(t, p)]) == t
    ensures waiting != [] ==> IsRound(t, p, waiting, next) && AllCarried(next.orphans)
    ensures waiting != [] ==> Walk(t, p, [HeadOf(t, p)]) == Walk(next, p, [EntryHash(waiting[0])])
  {
    waiting := Awaiting(t.orphans, p, HeadOf(t, p));
    next := PromoteAll(t, waiting).tables;
    AwaitingIs(t.orphans, p, HeadOf(t, p));
    PromoteAllShrinks(t, waiting);
    assert [HeadOf(t, p)][1..] == [];
    if waiting != [] {
      PromoteTakesFirst(own, t, p, waiting);
      assert [] + [EntryHash(waiting[0])] == [EntryHash(waiting[0])];
    }
  }

  lemma RoundKeeps(own: PeerId, t: Tables, p: PeerId, waiting: seq<Body>, next: Tables)
    requires Chains(own, t) && Waiting(own, t) && SettledBut(t, Some(p)) && IsRound(t, p, waiting, next)
    ensures Chains(own, next) && Waiting(own, next) && SettledBut(next, Some(p))
    ensures HeadOf(next, p) == EntryHash(waiting[0])
    ensures AcceptedOf(next, p) == AcceptedOf(t, p) + [waiting[0]]
    ensures forall q | q != p :: AcceptedOf(next, q) == AcceptedOf(t, q) && HeadOf(next, q) == HeadOf(t, q)
  {
    assert waiting[0] in waiting;
    GrewKeepsChains(own, t, next, waiting[0]);
  }

  lemma LaterChains(t: Tables, m: Tables, r: Tables, p: PeerId)
    requires Later(t, m, p) && Later(m, r, p)
    ensures Later(t, r, p)
  {
  }

  /** What every round keeps, promotion keeps; what links each round to the next links its ends; and no child is left. */
  lemma {:induction false} WalkInduction(own: PeerId, t: Tables, p: PeerId, good: Tables -> bool,
                                         linked: (Tables, Tables) -> bool)
    requires good(t)
    requires forall s | good(s) :: Chains(own, s) && Waiting(own, s) && AllCarried(s.orphans) && linked(s, s)
    requires forall s, w, n | good(s) && IsRound(s, p, w, n) ::
               good(n) && linked(s, n) && HeadOf(n, p) == EntryHash(w[0])
    requires forall s, n, r | linked(s, n) && linked(n, r) :: linked(s, r)
    ensures Unique(t.orphans) && AllCarried(t.orphans)
    ensures var r := Walk(t, p, [HeadOf(t, p)]);
            good(r) && linked(t, r) && Awaiting(r.orphans, p, HeadOf(r, p)) == []
    decreases |t.orphans|
  {
    var waiting, next := PromotionRound(own, t, p);
    if waiting != [] {
      WalkInduction(own, next, p, good, linked);
    }
  }

  /** Promotion ends with no entry left that could be accepted, and touches nothing of other raters. */
  lemma WalkKeeps(own: PeerId, t: Tables, p: PeerId)
    requires Chains(own, t) && Waiting(own, t) && SettledBut(t, Some(p)) && AllCarried(t.orphans)
    ensures var r := Walk(t, p, [HeadOf(t, p)]);
            Chains(own, r) && Waiting(own, r) && SettledBut(r, None) && Later(t, r, p)
  {
    var good := (s: Tables) => Chains(own, s) && Waiting(own, s) && SettledBut(s, Some(p)) && AllCarried(s.orphans);
    var linked := (s: Tables, n: Tables) => Later(s, n, p);
    forall s, w, n | good(s) && IsRound(s, p, w, n)
      ensures good(n) && linked(s, n) && HeadOf(n, p) == EntryHash(w[0])
    {
      RoundKeeps(own, s, p, w, n);
      RoundIsLater(s, p, w, n);
    }
    forall s, n, r | linked(s, n) && linked(n, r) ensures linked(s, r) {
      LaterChains(s, n, r, p);
    }
    WalkInduction(own, t, p, good, linked);
    NoneLeft(Walk(t, p, [HeadOf(t, p)]), p);
  }

  lemma NoneLeft(t: Tables, p: PeerId)
    requires SettledBut(t, Some(p)) && Awaiting(t.orphans, p, HeadOf(t, p)) == []
    ensures SettledBut(t, None)
  {
    AwaitingIs(t.orphans, p, HeadOf(t, p));
    forall b | b in t.orphans && b.Carried? ensures PrevOf(b) != HeadOf(t, Rater(b)) {
      assert b !in Awaiting(t.orphans, p, HeadOf(t, p));
    }
  }

  lemma RoundIsLater(t: Tables, p: PeerId, waiting: seq<Body>, next: Tables)
    requires IsRound(t, p, waiting, next) && AcceptedOf(t, p) <= AcceptedOf(next, p)
    requires forall q | q != p :: AcceptedOf(next, q) == AcceptedOf(t, q) && HeadOf(next, q) == HeadOf(t, q)
    ensures Later(t, next, p)
  {
    forall q ensures CountOf(next.orphans, q) <= CountOf(t.orphans, q) {
      CountAfterPromotion(t, waiting, q);
    }
  }

  // ------------------------------------------------------------ deliveries

  lemma CountOfMore(s: seq<Body>, body: Body, q: PeerId)
    requires body.Carried?
    ensures CountOf(s + [body], q) == CountOf(s, q) + if Rater(body) == q then 1 else 0
  {
    if |s| > 0 {
      assert (s + [body])[1..] == s[1..] + [body];
      CountOfMore(s[1..], body, q);
    }
  }

  /** An admissible entry that is in neither table yet. */
  ghost predicate IsNew(own: PeerId, t: Tables, body: Body)
  {
    Admissible(own, body) && body !in t.orphans && body !in AcceptedOf(t, Rater(body))
  }

  lemma {:induction false} QueueKeeps(cfg: Config, t: Tables, body: Body)
    requires Inv(cfg, t) && IsNew(cfg.own, t, body) && PrevOf(body) != HeadOf(t, Rater(body))
    ensures Inv(cfg, QueueOrphan(cfg, t, body).tables)
  {
    if QueueOrphan(cfg, t, body).refusal.None? {
      QueueWaits(cfg.own, t, body);
      QueueFits(cfg, t, body);
    }
  }

  lemma {:induction false} QueueWaits(own: PeerId, t: Tables, body: Body)
    requires Waiting(own, t) && SettledBut(t, None)
    requires IsNew(own, t, body) && PrevOf(body) != HeadOf(t, Rater(body))
    ensures var next := t.(orphans := t.orphans + [body]); Waiting(own, next) && SettledBut(next, None)
  {
  }

  lemma {:induction false} QueueFits(cfg: Config, t: Tables, body: Body)
    requires WithinCaps(cfg, t) && body.Carried? && QueueOrphan(cfg, t, body).refusal.None?
    ensures WithinCaps(cfg, t.(orphans := t.orphans + [body]))
  {
    forall q ensures CountOf(t.orphans + [body], q) <= cfg.perPeerCap {
      CountOfMore(t.orphans, body, q);
    }
  }

  /** `t` with one more entry in a chain. */
  function Taken(t: Tables, body: Body): Tables
    requires body.Carried?
  {
    var p := Rater(body);
    Tables(t.accepted[p := AcceptedOf(t, p) + [body]], t.heads[p := EntryHash(body)], t.orphans)
  }

  lemma TakenKeeps(own: PeerId, t: Tables, body: Body)
    requires Chains(own, t) && Waiting(own, t) && SettledBut(t, None) && IsNew(own, t, body)
    requires PrevOf(body) == HeadOf(t, Rater(body))
    ensures Insert(t, body) == Inserted(Taken(t, body))
    ensures var next := Taken(t, body);
            && Chains(own, next) && Waiting(own, next) && SettledBut(next, Some(Rater(body)))
            && Unique(next.orphans) && AllCarried(next.orphans) && HeadOf(next, Rater(body)) == EntryHash(body)
  {
    InsertTakes(own, t, body);
    GrewKeepsChains(own, t, Taken(t, body), body);
    TakenSettles(own, t, body);
  }

  lemma InsertTakes(own: PeerId, t: Tables, body: Body)
    requires Chains(own, t) && IsNew(own, t, body) && PrevOf(body) == HeadOf(t, Rater(body))
    ensures Insert(t, body) == Inserted(Taken(t, body))
  {
  }

  lemma TakenSettles(own: PeerId, t: Tables, body: Body)
    requires Waiting(own, t) && SettledBut(t, None) && IsNew(own, t, body)
    ensures Waiting(own, Taken(t, body)) && SettledBut(Taken(t, body), Some(Rater(body)))
    ensures AllCarried(t.orphans)
  {
  }

  lemma AcceptKeeps(cfg: Config, t: Tables, body: Body)
    requires Inv(cfg, t) && IsNew(cfg.own, t, body) && PrevOf(body) == HeadOf(t, Rater(body))
    ensures Unique(t.orphans) && AllCarried(t.orphans)
    ensures var r := Walk(Taken(t, body), Rater(body), [EntryHash(body)]);
            Inv(cfg, r) && Later(Taken(t, body), r, Rater(body))
  {
    TakenKeeps(cfg.own, t, body);
    WalkKeeps(cfg.own, Taken(t, body), Rater(body));
  }

  lemma CheckPassesIff(own: PeerId, entry: Option<Body>)
    ensures Check(own, entry).None? <==> entry.Some? && Admissible(own, entry.value)
  {
  }

  /** The ways a delivery can go. */
  ghost predicate Goes(cfg: Config, t: Tables, entry: Option<Body>, a: Answer)
    requires Unique(t.orphans) && AllCarried(t.orphans)
  {
    if entry.None? || !Admissible(cfg.own, entry.value) then
      a.tables == t && a.refusal.Some? && a.refusal != Some(OrphanCapExceeded)
    else
      var body := entry.value;
      if !IsNew(cfg.own, t, body) then a == Answer(t, None)
      else if PrevOf(body) == HeadOf(t, Rater(body)) then
        a == Answer(Walk(Taken(t, body), Rater(body), [EntryHash(body)]), None)
      else a == QueueOrphan(cfg, t, body)
  }

  lemma DeliveryGoes(cfg: Config, t: Tables, entry: Option<Body>)
    requires Inv(cfg, t)
    ensures Unique(t.orphans) && AllCarried(t.orphans)
    ensures Goes(cfg, t, entry, AcceptOrQueue(cfg, t, entry))
  {
    CheckPassesIff(cfg.own, entry);
    if Check(cfg.own, entry).None? {
      var body := entry.value;
      if IsNew(cfg.own, t, body) && PrevOf(body) == HeadOf(t, Rater(body)) {
        TakenKeeps(cfg.own, t, body);
      }
    }
  }

  lemma GoingKeeps(cfg: Config, t: Tables, entry: Option<Body>, a: Answer)
    requires Inv(cfg, t) && Goes(cfg, t, entry, a)
    ensures Inv(cfg, a.tables)
  {
    if entry.Some? && IsNew(cfg.own, t, entry.value) {
      if PrevOf(entry.value) == HeadOf(t, Rater(entry.value)) {
        AcceptKeeps(cfg, t, entry.value);
      } else {
        QueueKeeps(cfg, t, entry.value);
      }
    }
  }

  /** Whatever is delivered: chains stay chains, forks stay out, nothing acceptable waits, and the caps hold. */
  lemma DeliveryKeeps(cfg: Config, t: Tables, entry: Option<Body>)
    requires Inv(cfg, t)
    ensures Unique(t.orphans) && AllCarried(t.orphans)
    ensures Inv(cfg, AcceptOrQueue(cfg, t, entry).tables)
  {
    DeliveryGoes(cfg, t, entry);
    GoingKeeps(cfg, t, entry, AcceptOrQueue(cfg, t, entry));
  }

  lemma EmptyInv(cfg: Config)
    ensures Inv(cfg, Empty)
  {
  }

  // ------------------------------------------------------------ a rater who never forks

  /** What the inbox holds of `p` are entries of `chain`, and those accepted are its beginning. */
  ghost predicate OnChain(t: Tables, p: PeerId, chain: seq<Body>)
  {
    && AcceptedOf(t, p) <= chain
    && (forall b | b in t.orphans && b.Carried? && Rater(b) == p :: b in chain)
  }

  ghost predicate Holds(t: Tables, p: PeerId, b: Body)
  {
    b in AcceptedOf(t, p) || (b in t.orphans && b.Carried? && Rater(b) == p)
  }

  ghost predicate HoldsSame(t: Tables, r: Tables, p: PeerId)
  {
    forall b :: Holds(t, p, b) <==> Holds(r, p, b)
  }

  /** The entry that comes after those accepted. */
  lemma NextOnChain(own: PeerId, t: Tables, p: PeerId, chain: seq<Body>, body: Body)
    requires Chains(own, t) && IsChain(own, p, chain) && AcceptedOf(t, p) <= chain
    requires body in chain && PrevOf(body) == HeadOf(t, p)
    ensures |AcceptedOf(t, p)| < |chain| && chain[|AcceptedOf(t, p)|] == body
    ensures AcceptedOf(t, p) + [body] <= chain
  {
    HeadIsLink(own, t, p);
    NextOfPrefix(own, p, chain, AcceptedOf(t, p), body);
  }

  lemma NextOfPrefix(own: PeerId, p: PeerId, chain: seq<Body>, front: seq<Body>, body: Body)
    requires IsChain(own, p, chain) && front <= chain && IsChain(own, p, front)
    requires body in chain && PrevOf(body) == Link(front, |front|)
    ensures |front| < |chain| && chain[|front|] == body && front + [body] <= chain
  {
    LinkOfPrefix(front, chain);
    PlaceInChain(own, p, chain, body, |front|);
    PrefixGrows(front, chain);
  }

  lemma PrefixGrows(front: seq<Body>, chain: seq<Body>)
    requires front <= chain && |front| < |chain|
    ensures front + [chain[|front|]] <= chain
  {
  }

  lemma LinkOfPrefix(front: seq<Body>, chain: seq<Body>)
    requires front <= chain
    ensures Link(front, |front|) == Link(chain, |front|)
  {
  }

  lemma RoundOnChain(own: PeerId, t: Tables, p: PeerId, chain: seq<Body>, waiting: seq<Body>, next: Tables)
    requires Chains(own, t) && IsChain(own, p, chain) && OnChain(t, p, chain) && IsRound(t, p, waiting, next)
    requires AcceptedOf(next, p) == AcceptedOf(t, p) + [waiting[0]]
    ensures OnChain(next, p, chain) && HoldsSame(t, next, p)
  {
    assert waiting[0] in waiting;
    NextOnChain(own, t, p, chain, waiting[0]);
    forall b | b in waiting ensures b == waiting[0] {
      NextOnChain(own, t, p, chain, b);
    }
  }

  /** Without forks, promotion drops nothing. */
  lemma WalkOnChain(own: PeerId, t: Tables, p: PeerId, chain: seq<Body>)
    requires Chains(own, t) && Waiting(own, t) && SettledBut(t, Some(p)) && AllCarried(t.orphans)
    requires IsChain(own, p, chain) && OnChain(t, p, chain)
    ensures OnChain(Walk(t, p, [HeadOf(t, p)]), p, chain)
    ensures HoldsSame(t, Walk(t, p, [HeadOf(t, p)]), p)
  {
    var good := (s: Tables) =>
      Chains(own, s) && Waiting(own, s) && SettledBut(s, Some(p)) && AllCarried(s.orphans) && OnChain(s, p, chain);
    var linked := (s: Tables, n: Tables) => HoldsSame(s, n, p);
    forall s, w, n | good(s) && IsRound(s, p, w, n)
      ensures good(n) && linked(s, n) && HeadOf(n, p) == EntryHash(w[0])
    {
      RoundKeeps(own, s, p, w, n);
      RoundOnChain(own, s, p, chain, w, n);
    }
    WalkInduction(own, t, p, good, linked);
  }

  /** A delivery that concerns the rater `p`. */
  ghost predicate IsFrom(cfg: Config, entry: Option<Body>, p: PeerId)
  {
    entry.Some? && Admissible(cfg.own, entry.value) && Rater(entry.value) == p
  }

  /** `r` holds what `t` held of `p`, and `entry` if it was taken in. */
  ghost predicate HoldsMore(cfg: Config, t: Tables, r: Tables, p: PeerId, entry: Option<Body>, taken: bool)
  {
    forall b :: Holds(r, p, b) <==> Holds(t, p, b) || (taken && IsFrom(cfg, entry, p) && entry.value == b)
  }

  lemma TakenOnChain(own: PeerId, t: Tables, body: Body, p: PeerId, chain: seq<Body>)
    requires Chains(own, t) && IsChain(own, p, chain) && OnChain(t, p, chain) && IsNew(own, t, body)
    requires PrevOf(body) == HeadOf(t, Rater(body)) && (Rater(body) == p ==> body in chain)
    ensures OnChain(Taken(t, body), p, chain)
    ensures forall b :: Holds(Taken(t, body), p, b) <==> Holds(t, p, b) || (Rater(body) == p && b == body)
  {
    if Rater(body) == p {
      NextOnChain(own, t, p, chain, body);
    }
  }

  lemma AcceptOnChain(cfg: Config, t: Tables, body: Body, p: PeerId, chain: seq<Body>)
    requires Inv(cfg, t) && IsChain(cfg.own, p, chain) && OnChain(t, p, chain) && IsNew(cfg.own, t, body)
    requires PrevOf(body) == HeadOf(t, Rater(body)) && (Rater(body) == p ==> body in chain)
    ensures Unique(t.orphans) && AllCarried(t.orphans)
    ensures var r := Walk(Taken(t, body), Rater(body), [EntryHash(body)]);
            OnChain(r, p, chain) && HoldsMore(cfg, t, r, p, Some(body), true)
  {
    TakenKeeps(cfg.own, t, body);
    TakenOnChain(cfg.own, t, body, p, chain);
    if Rater(body) == p {
      WalkOnChain(cfg.own, Taken(t, body), p, chain);
    } else {
      AcceptKeeps(cfg, t, body);
    }
  }

  /** One delivery, seen from a rater whose deliveries all come from one chain. */
  lemma GoingOnChain(cfg: Config, t: Tables, entry: Option<Body>, a: Answer, p: PeerId, chain: seq<Body>)
    requires Inv(cfg, t) && IsChain(cfg.own, p, chain) && OnChain(t, p, chain) && Goes(cfg, t, entry, a)
    requires IsFrom(cfg, entry, p) ==> entry.value in chain
    ensures OnChain(a.tables, p, chain)
    ensures a.refusal != Some(OrphanCapExceeded) ==> HoldsMore(cfg, t, a.tables, p, entry, true)
    ensures HoldsMore(cfg, t, a.tables, p, entry, a.refusal.None?)
  {
    if entry.Some? && Admissible(cfg.own, entry.value) {
      if !IsNew(cfg.own, t, entry.value) {
      } else if PrevOf(entry.value) == HeadOf(t, Rater(entry.value)) {
        AcceptOnChain(cfg, t, entry.value, p, chain);
      } else {
        QueueOnChain(cfg, t, entry.value, p, chain);
      }
    }
  }

  lemma QueueOnChain(cfg: Config, t: Tables, body: Body, p: PeerId, chain: seq<Body>)
    requires OnChain(t, p, chain) && IsNew(cfg.own, t, body) && (Rater(body) == p ==> body in chain)
    ensures var a := QueueOrphan(cfg, t, body);
            && OnChain(a.tables, p, chain) && HoldsMore(cfg, t, a.tables, p, Some(body), a.refusal.None?)
            && a.refusal in {None, Some(OrphanCapExceeded)}
  {
  }

  // ------------------------------------------------------------ runs

  type Machine = (Tables, Option<Body>) -> Answer

  function MachineOf(cfg: Config): Machine
  {
    (t: Tables, e: Option<Body>) =>
      if Unique(t.orphans) && AllCarried(t.orphans) then AcceptOrQueue(cfg, t, e) else Answer(t, None)
  }

  function RunOf(m: Machine, t: Tables, deliveries: seq<Option<Body>>): Tables
  {
    if |deliveries| == 0 then t
    else m(RunOf(m, t, deliveries[..|deliveries| - 1]), deliveries[|deliveries| - 1]).tables
  }

  /** A property that each delivery of a run takes one step further. */
  lemma {:induction false} RunReaches(m: Machine, ok: (Tables, nat) -> bool, t: Tables, deliveries: seq<Option<Body>>,
                                      n: nat)
    requires n <= |deliveries| && ok(t, 0)
    requires forall s, i: nat | i < |deliveries| && ok(s, i) :: ok(m(s, deliveries[i]).tables, i + 1)
    ensures ok(RunOf(m, t, deliveries[..n]), n)
  {
    if n > 0 {
      RunReaches(m, ok, t, deliveries, n - 1);
      assert deliveries[..n][..n - 1] == deliveries[..n - 1];
    }
  }

  /** The inbox after a sequence of deliveries. */
  function Run(cfg: Config, t: Tables, deliveries: seq<Option<Body>>): Tables
  {
    RunOf(MachineOf(cfg), t, deliveries)
  }

  /** A property of tables that no delivery of a run breaks. */
  ghost predicate Keeps(m: Machine, ok: Tables -> bool, deliveries: seq<Option<Body>>)
  {
    forall t, e | ok(t) && e in deliveries :: ok(m(t, e).tables)
  }

  lemma {:induction false} RunKeepsOk(m: Machine, ok: Tables -> bool, t: Tables, deliveries: seq<Option<Body>>)
    requires ok(t) && Keeps(m, ok, deliveries)
    ensures ok(RunOf(m, t, deliveries))
  {
    if |deliveries| > 0 {
      var front, last := deliveries[..|deliveries| - 1], deliveries[|deliveries| - 1];
      assert forall e | e in front :: e in deliveries;
      assert last in deliveries;
      RunKeepsOk(m, ok, t, front);
    }
  }

  /** Every run from an empty inbox keeps the invariant. */
  lemma RunKeepsInv(cfg: Config, deliveries: seq<Option<Body>>)
    ensures Inv(cfg, Run(cfg, Empty, deliveries))
  {
    EmptyInv(cfg);
    var ok := (t: Tables) => Inv(cfg, t);
    forall t, e | ok(t) && e in deliveries ensures ok(MachineOf(cfg)(t, e).tables) {
      DeliveryKeeps(cfg, t, e);
    }
    RunKeepsOk(MachineOf(cfg), ok, Empty, deliveries);
  }

  // ------------------------------------------------------------ order does not matter

  /** Every admissible entry delivered from `p` is on one chain. */
  ghost predicate NeverForks(cfg: Config, deliveries: seq<Option<Body>>, p: PeerId, chain: seq<Body>)
  {
    forall e | e in deliveries && IsFrom(cfg, e, p) :: e.value in chain
  }

  /** No delivery met a full waiting queue. */
  ghost predicate NoneRefused(m: Machine, t: Tables, deliveries: seq<Option<Body>>)
  {
    |deliveries| == 0 ||
    (var front := deliveries[..|deliveries| - 1];
     NoneRefused(m, t, front)
     && m(RunOf(m, t, front), deliveries[|deliveries| - 1]).refusal != Some(OrphanCapExceeded))
  }

  ghost predicate OkOnChain(cfg: Config, p: PeerId, chain: seq<Body>, t: Tables)
  {
    Inv(cfg, t) && OnChain(t, p, chain)
  }

  lemma MachineOnChain(cfg: Config, t: Tables, e: Option<Body>, p: PeerId, chain: seq<Body>)
    requires OkOnChain(cfg, p, chain, t) && IsChain(cfg.own, p, chain)
    requires IsFrom(cfg, e, p) ==> e.value in chain
    ensures var a := MachineOf(cfg)(t, e);
            && OkOnChain(cfg, p, chain, a.tables)
            && (a.refusal != Some(OrphanCapExceeded) ==> HoldsMore(cfg, t, a.tables, p, e, true))
  {
    DeliveryGoes(cfg, t, e);
    var a := MachineOf(cfg)(t, e);
    GoingKeeps(cfg, t, e, a);
    GoingOnChain(cfg, t, e, a, p, chain);
  }

  lemma RunOnChain(cfg: Config, t: Tables, deliveries: seq<Option<Body>>, p: PeerId, chain: seq<Body>)
    requires OkOnChain(cfg, p, chain, t) && IsChain(cfg.own, p, chain) && NeverForks(cfg, deliveries, p, chain)
    ensures OkOnChain(cfg, p, chain, Run(cfg, t, deliveries))
  {
    var ok := (t: Tables) => OkOnChain(cfg, p, chain, t);
    forall t, e | ok(t) && e in deliveries ensures ok(MachineOf(cfg)(t, e).tables) {
      MachineOnChain(cfg, t, e, p, chain);
    }
    RunKeepsOk(MachineOf(cfg), ok, t, deliveries);
  }

  /** A property that a delivery makes true exactly by being the right one holds once the right one came. */
  lemma {:induction false} HeldIff(m: Machine, ok: Tables -> bool, held: Tables -> bool, right: Option<Body>, t: Tables,
                                   deliveries: seq<Option<Body>>)
    requires ok(t) && !held(t) && Keeps(m, ok, deliveries) && NoneRefused(m, t, deliveries)
    requires forall s, e | ok(s) && e in deliveries && m(s, e).refusal != Some(OrphanCapExceeded) ::
               held(m(s, e).tables) <==> held(s) || e == right
    ensures held(RunOf(m, t, deliveries)) <==> right in deliveries
  {
    if |deliveries| > 0 {
      var front, last := deliveries[..|deliveries| - 1], deliveries[|deliveries| - 1];
      assert forall e | e in front :: e in deliveries;
      assert last in deliveries && deliveries == front + [last];
      RunKeepsOk(m, ok, t, front);
      HeldIff(m, ok, held, right, t, front);
    }
  }

  /** With room to wait in, the inbox holds exactly what was delivered. */
  lemma HoldsWhatWasDelivered(cfg: Config, deliveries: seq<Option<Body>>, p: PeerId, chain: seq<Body>, b: Body)
    requires IsChain(cfg.own, p, chain) && b in chain
    requires NeverForks(cfg, deliveries, p, chain) && NoneRefused(MachineOf(cfg), Empty, deliveries)
    ensures Holds(Run(cfg, Empty, deliveries), p, b) <==> Some(b) in deliveries
  {
    EmptyInv(cfg);
    var m, ok, held := MachineOf(cfg), (t: Tables) => OkOnChain(cfg, p, chain, t), (t: Tables) => Holds(t, p, b);
    forall t, e | ok(t) && e in deliveries
      ensures ok(m(t, e).tables)
      ensures m(t, e).refusal != Some(OrphanCapExceeded) ==> (held(m(t, e).tables) <==> held(t) || e == Some(b))
    {
      MachineOnChain(cfg, t, e, p, chain);
    }
    HeldIff(m, ok, held, Some(b), Empty, deliveries);
  }

  /** How many entries from the start of a chain satisfy a predicate. */
  ghost function Leading(chain: seq<Body>, has: Body -> bool): (k: nat)
    ensures k <= |chain|
  {
    if |chain| == 0 || !has(chain[|chain| - 1]) || Leading(chain[..|chain| - 1], has) < |chain| - 1
    then (if |chain| == 0 then 0 else Leading(chain[..|chain| - 1], has))
    else |chain|
  }

  lemma {:induction false} LeadingIs(chain: seq<Body>, has: Body -> bool, k: nat)
    requires k <= |chain| && (forall i | 0 <= i < k :: has(chain[i])) && (k < |chain| ==> !has(chain[k]))
    ensures Leading(chain, has) == k
  {
    if k < |chain| {
      LeadingIs(chain[..|chain| - 1], has, k);
    } else if k > 0 {
      LeadingIs(chain[..k - 1], has, k - 1);
      assert chain[..|chain| - 1] == chain[..k - 1];
    }
  }

  /** The entry after the accepted ones is not in the inbox. */
  lemma NextIsMissing(cfg: Config, t: Tables, p: PeerId, chain: seq<Body>)
    requires OkOnChain(cfg, p, chain, t) && IsChain(cfg.own, p, chain)
    ensures var k := |AcceptedOf(t, p)|;
            && k <= |chain| && AcceptedOf(t, p) == chain[..k]
            && (k < |chain| ==> !Holds(t, p, chain[k]))
            && (forall i | 0 <= i < k :: Holds(t, p, chain[i]))
  {
    var k := |AcceptedOf(t, p)|;
    HeadIsLink(cfg.own, t, p);
    if k < |chain| {
      LinkOfPrefix(AcceptedOf(t, p), chain);
      if chain[k] in AcceptedOf(t, p) {
        PlaceInChain(cfg.own, p, AcceptedOf(t, p), chain[k], k);
      }
    }
  }

  /**
   For a rater who never forks, in whatever order, however often and mixed with
   whatever else its entries arrive, the accepted ones are the longest beginning of its
   chain of which every entry was delivered.
   */
  lemma {:induction false} AcceptedIsLongestPrefix(cfg: Config, deliveries: seq<Option<Body>>, p: PeerId, chain: seq<Body>)
    requires IsChain(cfg.own, p, chain)
    requires NeverForks(cfg, deliveries, p, chain) && NoneRefused(MachineOf(cfg), Empty, deliveries)
    ensures AcceptedOf(Run(cfg, Empty, deliveries), p)
         == chain[..Leading(chain, (b: Body) => Some(b) in deliveries)]
  {
    var t := Run(cfg, Empty, deliveries);
    EmptyInv(cfg);
    RunOnChain(cfg, Empty, deliveries, p, chain);
    NextIsMissing(cfg, t, p, chain);
    forall b | b in chain ensures Holds(t, p, b) <==> Some(b) in deliveries {
      HoldsWhatWasDelivered(cfg, deliveries, p, chain, b);
    }
    LeadingIs(chain, (b: Body) => Some(b) in deliveries, |AcceptedOf(t, p)|);
  }

  /** Two inboxes to which the same entries were delivered accept the same. */
  lemma OrderDoesNotMatter(cfg: Config, one: seq<Option<Body>>, two: seq<Option<Body>>, p: PeerId, chain: seq<Body>)
    requires IsChain(cfg.own, p, chain)
    requires NeverForks(cfg, one, p, chain) && NoneRefused(MachineOf(cfg), Empty, one)
    requires NeverForks(cfg, two, p, chain) && NoneRefused(MachineOf(cfg), Empty, two)
    requires forall b | b in chain :: Some(b) in one <==> Some(b) in two
    ensures AcceptedOf(Run(cfg, Empty, one), p) == AcceptedOf(Run(cfg, Empty, two), p)
  {
    AcceptedIsLongestPrefix(cfg, one, p, chain);
    AcceptedIsLongestPrefix(cfg, two, p, chain);
    LeadingAgrees(chain, (b: Body) => Some(b) in one, (b: Body) => Some(b) in two);
  }

  lemma {:induction false} LeadingAgrees(chain: seq<Body>, has: Body -> bool, had: Body -> bool)
    requires forall b | b in chain :: has(b) <==> had(b)
    ensures Leading(chain, has) == Leading(chain, had)
  {
    if |chain| > 0 {
      LeadingAgrees(chain[..|chain| - 1], has, had);
      assert chain[|chain| - 1] in chain;
    }
  }

  // ------------------------------------------------------------ room to wait in

  lemma {:induction false} CountIsBounded(s: seq<Body>, p: PeerId)
    ensures CountOf(s, p) <= |s|
  {
    if |s| > 0 {
      CountIsBounded(s[1..], p);
    }
  }

  lemma RoomLeft(cfg: Config, t: Tables, entry: Option<Body>, a: Answer)
    requires Inv(cfg, t) && Goes(cfg, t, entry, a) && |t.orphans| < cfg.perPeerCap <= cfg.orphanCap
    ensures a.refusal != Some(OrphanCapExceeded) && |a.tables.orphans| <= |t.orphans| + 1
  {
    if entry.Some? && IsNew(cfg.own, t, entry.value) {
      CountIsBounded(t.orphans, Rater(entry.value));
      if PrevOf(entry.value) == HeadOf(t, Rater(entry.value)) {
        AcceptKeeps(cfg, t, entry.value);
      }
    }
  }

  lemma {:induction false} FewLeaveRoom(cfg: Config, deliveries: seq<Option<Body>>)
    requires |deliveries| <= cfg.perPeerCap <= cfg.orphanCap
    ensures NoneRefused(MachineOf(cfg), Empty, deliveries)
    ensures |Run(cfg, Empty, deliveries).orphans| <= |deliveries|
  {
    if |deliveries| > 0 {
      var front, last := deliveries[..|deliveries| - 1], deliveries[|deliveries| - 1];
      FewLeaveRoom(cfg, front);
      RunKeepsInv(cfg, front);
      OneIsNotRefused(cfg, Run(cfg, Empty, front), last);
    }
  }

  /**
   Whatever cap an inbox is opened with, its queue cannot fill up while no more
   deliveries were made than one rater may have waiting.
   */
  lemma FewAreNotRefused(own: PeerId, orphanCap: nat, deliveries: seq<Option<Body>>)
    requires |deliveries| <= ConfigOf(own, orphanCap).perPeerCap
    ensures NoneRefused(MachineOf(ConfigOf(own, orphanCap)), Empty, deliveries)
    ensures 0 < ConfigOf(own, orphanCap).perPeerCap
  {
    FewLeaveRoom(ConfigOf(own, orphanCap), deliveries);
  }

  lemma OneIsNotRefused(cfg: Config, t: Tables, entry: Option<Body>)
    requires Inv(cfg, t) && |t.orphans| < cfg.perPeerCap <= cfg.orphanCap
    ensures var a := MachineOf(cfg)(t, entry);
            a.refusal != Some(OrphanCapExceeded) && |a.tables.orphans| <= |t.orphans| + 1
  {
    DeliveryGoes(cfg, t, entry);
    RoomLeft(cfg, t, entry, MachineOf(cfg)(t, entry));
  }

  // ------------------------------------------------------------ delivery in order

  /** An entry delivered right after its predecessors is accepted whatever else waits, even with the queue full. */
  lemma NextIsAccepted(cfg: Config, t: Tables, p: PeerId, chain: seq<Body>, i: nat)
    requires OkOnChain(cfg, p, chain, t) && IsChain(cfg.own, p, chain) && i < |chain| && i <= |AcceptedOf(t, p)|
    ensures OkOnChain(cfg, p, chain, MachineOf(cfg)(t, Some(chain[i])).tables)
    ensures |AcceptedOf(MachineOf(cfg)(t, Some(chain[i])).tables, p)| > i
  {
    MachineOnChain(cfg, t, Some(chain[i]), p, chain);
    DeliveryGoes(cfg, t, Some(chain[i]));
    NextIsMissing(cfg, t, p, chain);
    if i == |AcceptedOf(t, p)| {
      HeadIsLink(cfg.own, t, p);
      LinkOfPrefix(AcceptedOf(t, p), chain);
      GoesIntoChain(cfg, t, chain[i], MachineOf(cfg)(t, Some(chain[i])));
    }
  }

  lemma GoesIntoChain(cfg: Config, t: Tables, body: Body, a: Answer)
    requires Inv(cfg, t) && IsNew(cfg.own, t, body) && PrevOf(body) == HeadOf(t, Rater(body))
    requires Unique(t.orphans) && AllCarried(t.orphans) && Goes(cfg, t, Some(body), a)
    ensures |AcceptedOf(a.tables, Rater(body))| > |AcceptedOf(t, Rater(body))|
  {
    AcceptKeeps(cfg, t, body);
    assert AcceptedOf(Taken(t, body), Rater(body)) == AcceptedOf(t, Rater(body)) + [body];
  }
}
