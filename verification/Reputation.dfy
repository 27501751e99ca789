/**
 The reputation engine: Recompute accumulates votes into maps that Go visits in
 any order, which the loops below do by picking any remaining key.
 */
module Reputation {
  import opened Arithmetic
  import opened EigenTrust
  import opened EigenTrustTheorems
  import opened Wrappers
  import opened Hashing

  datatype Config = Config(mixing: real, halfLifeDays: real, maxIterations: int, tolerance: real)

  /** Zero fields fall back to the defaults. */
  function Effective(c: Config): Config
  {
    Config(if c.mixing == 0.0 then 0.15 else c.mixing,
           if c.halfLifeDays == 0.0 then 30.0 else c.halfLifeDays,
           if c.maxIterations == 0 then 50 else c.maxIterations,
           if c.tolerance == 0.0 then 0.0001 else c.tolerance)
  }

  datatype ReadError = OwnEntriesUnreadable | InboxUnreadable

  function Lookup(m: map<Name, Aggregate>, p: Name): Aggregate
  {
    if p in m then m[p] else NOTHING
  }

  lemma GraphForNext(payloads: seq<Option<Claim>>, i: nat, now: int)
    requires i < |payloads|
    ensures GraphFor(payloads[..i + 1], now)
         == match EdgeOf(payloads[i], now)
            case None => GraphFor(payloads[..i], now)
            case Some((r, e)) =>
              var g := GraphFor(payloads[..i], now);
              g[r := (if r in g then g[r] else []) + [e]]
  {
    assert payloads[..i + 1][..i] == payloads[..i];
    forall r | r !in Raters(payloads[..i], now) ensures EdgesOf(payloads[..i], now, r) == [] {
      SilentHaveNoEdges(payloads[..i], now, r);
    }
  }

  lemma {:induction false} SilentHaveNoEdges(payloads: seq<Option<Claim>>, now: int, r: Name)
    ensures r in Raters(payloads, now) <==> EdgesOf(payloads, now, r) != []
  {
    if |payloads| > 0 {
      SilentHaveNoEdges(payloads[..|payloads| - 1], now, r);
    }
  }

  /** A stored rating of another peer's honesty, with a score that is a number. */
  predicate IsHonestyRating(payload: Option<Claim>)
  {
    && payload.Some? && payload.value.Rating? && payload.value.dimension == "honesty"
    && payload.value.rater != payload.value.subject && payload.value.score.Finite?
  }

  /** Such a rating says, of its subject, its score, at its age in days, which is never below 0. */
  predicate Says(payload: Option<Claim>, now: int, r: Name, e: Edge)
  {
    && IsHonestyRating(payload)
    && r == Rendered(payload.value.rater) && e.subject == Rendered(payload.value.subject)
    && e.value == payload.value.score.value
    && e.ageDays == if now < payload.value.timestamp then 0.0
                    else (now - payload.value.timestamp) as real / (24.0 * 3_600_000_000_000.0)
  }

  /** The payloads that say this. */
  ghost function Saying(payloads: seq<Option<Claim>>, now: int, r: Name, e: Edge): set<int>
  {
    set i | 0 <= i < |payloads| && Says(payloads[i], now, r, e)
  }

  lemma {:induction false} EdgeIsSaid(payload: Option<Claim>, now: int, r: Name, e: Edge)
    ensures EdgeOf(payload, now) == Some((r, e)) <==> Says(payload, now, r, e)
    ensures EdgeOf(payload, now).Some? <==> IsHonestyRating(payload)
    ensures EdgeOf(payload, now).Some? ==> EdgeOf(payload, now).value.0 == Rendered(payload.value.rater)
  {
  }

  lemma {:induction false} SayingMore(payloads: seq<Option<Claim>>, now: int, r: Name, e: Edge)
    requires |payloads| > 0
    ensures var n := |payloads| - 1;
            |Saying(payloads, now, r, e)|
              == |Saying(payloads[..n], now, r, e)| + if Says(payloads[n], now, r, e) then 1 else 0
  {
    var n := |payloads| - 1;
    var before := Saying(payloads[..n], now, r, e);
    assert n !in before;
    assert Saying(payloads, now, r, e) == if Says(payloads[n], now, r, e) then before + {n} else before;
  }

  /** One rater's edges are what its ratings say, each as often as it was said. */
  lemma {:induction false} EdgesAreSaid(payloads: seq<Option<Claim>>, now: int, r: Name, e: Edge)
    ensures multiset(EdgesOf(payloads, now, r))[e] == |Saying(payloads, now, r, e)|
  {
    if |payloads| == 0 {
      assert Saying(payloads, now, r, e) == {};
    } else {
      var n := |payloads| - 1;
      EdgesAreSaid(payloads[..n], now, r, e);
      SayingMore(payloads, now, r, e);
      EdgeIsSaid(payloads[n], now, r, e);
      EdgesMore(payloads, now, r, e);
    }
  }

  lemma {:induction false} EdgesMore(payloads: seq<Option<Claim>>, now: int, r: Name, e: Edge)
    requires |payloads| > 0
    ensures var n := |payloads| - 1;
            multiset(EdgesOf(payloads, now, r))[e]
              == multiset(EdgesOf(payloads[..n], now, r))[e] + if EdgeOf(payloads[n], now) == Some((r, e)) then 1 else 0
  {
  }

  lemma {:induction false} RatersHaveRated(payloads: seq<Option<Claim>>, now: int, r: Name)
    ensures r in Raters(payloads, now)
       <==> exists i :: 0 <= i < |payloads| && IsHonestyRating(payloads[i]) && r == Rendered(payloads[i].value.rater)
  {
    if |payloads| > 0 {
      var n := |payloads| - 1;
      RatersHaveRated(payloads[..n], now, r);
      EdgeIsSaid(payloads[n], now, r, Edge(r, 0.0, 0.0));
      if i :| 0 <= i < |payloads| && IsHonestyRating(payloads[i]) && r == Rendered(payloads[i].value.rater) {
        assert i < n ==> payloads[..n][i] == payloads[i];
      }
      if i :| 0 <= i < n && IsHonestyRating(payloads[..n][i]) && r == Rendered(payloads[..n][i].value.rater) {
        assert payloads[..n][i] == payloads[i];
      }
    }
  }

  /**
   The graph in the fields of the payloads: who rates at all, and every rater's edges, each
   as often as a stored honesty rating of another peer says it.
   */
  lemma {:induction false} GraphIsWhatWasSaid(payloads: seq<Option<Claim>>, now: int)
    ensures forall r :: r in GraphFor(payloads, now)
              <==> exists i :: 0 <= i < |payloads| && IsHonestyRating(payloads[i])
                               && r == Rendered(payloads[i].value.rater)
    ensures forall r, e | r in GraphFor(payloads, now) ::
              multiset(GraphFor(payloads, now)[r])[e] == |Saying(payloads, now, r, e)|
  {
    forall r ensures r in GraphFor(payloads, now)
                <==> exists i :: 0 <= i < |payloads| && IsHonestyRating(payloads[i])
                                 && r == Rendered(payloads[i].value.rater)
    {
      RatersHaveRated(payloads, now, r);
    }
    forall r, e | r in GraphFor(payloads, now)
      ensures multiset(GraphFor(payloads, now)[r])[e] == |Saying(payloads, now, r, e)|
    {
      EdgesAreSaid(payloads, now, r, e);
    }
  }

  /** Reads the stored payloads into edges by rater. */
  method BuildGraph(payloads: seq<Option<Claim>>, now: int) returns (g: Graph)
    ensures g == GraphFor(payloads, now)
    ensures forall r :: r in g
              <==> exists i :: 0 <= i < |payloads| && IsHonestyRating(payloads[i])
                               && r == Rendered(payloads[i].value.rater)
    ensures forall r, e | r in g :: multiset(g[r])[e] == |Saying(payloads, now, r, e)|
  {
    g := map[];
    var i := 0;
    while i < |payloads|
      invariant 0 <= i <= |payloads|
      invariant g == GraphFor(payloads[..i], now)
    {
      GraphForNext(payloads, i, now);
      match EdgeOf(payloads[i], now) {
        case None =>
        case Some((rater, edge)) =>
          g := g[rater := (if rater in g then g[rater] else []) + [edge]];
      }
      i := i + 1;
    }
    assert payloads[..i] == payloads;
    GraphIsWhatWasSaid(payloads, now);
  }

  lemma AggOfNext(es: seq<Edge>, i: nat, p: Name, decay: real -> real)
    requires i < |es|
    ensures AggOf(es[..i + 1], p, decay) == Plus(AggOf(es[..i], p, decay), EdgeTerm(es[i], p, decay))
  {
    assert es[..i + 1][..i] == es[..i];
  }

  ghost predicate Groups(bySubject: map<Name, Aggregate>, es: seq<Edge>, decay: real -> real)
  {
    forall p :: Lookup(bySubject, p) == AggOf(es, p, decay)
  }

  lemma GroupsNext(bySubject: map<Name, Aggregate>, es: seq<Edge>, i: nat, decay: real -> real)
    requires i < |es| && Groups(bySubject, es[..i], decay)
    ensures var s := es[i].subject;
            Groups(bySubject[s := Plus(Lookup(bySubject, s), EdgeTerm(es[i], s, decay))], es[..i + 1], decay)
  {
    var s := es[i].subject;
    var after := bySubject[s := Plus(Lookup(bySubject, s), EdgeTerm(es[i], s, decay))];
    forall p ensures Lookup(after, p) == AggOf(es[..i + 1], p, decay) {
      AggOfNext(es, i, p, decay);
      if p != s {
        PlusNothing(Lookup(bySubject, p));
      }
    }
  }

  /** Groups one rater's edges by subject. */
  method GroupBySubject(es: seq<Edge>, decay: real -> real) returns (bySubject: map<Name, Aggregate>)
    ensures Groups(bySubject, es, decay)
  {
    bySubject := map[];
    var i := 0;
    while i < |es|
      invariant 0 <= i <= |es|
      invariant Groups(bySubject, es[..i], decay)
    {
      GroupsNext(bySubject, es, i, decay);
      var s := es[i].subject;
      bySubject := bySubject[s := Plus(Lookup(bySubject, s), EdgeTerm(es[i], s, decay))];
      i := i + 1;
    }
    assert es[..i] == es;
  }

  /** `sums` is `before` with what `votes` holds added, subject by subject. */
  ghost predicate Added(before: map<Name, Aggregate>, votes: map<Name, Aggregate>, sums: map<Name, Aggregate>)
  {
    forall p :: Lookup(sums, p) == Plus(Lookup(before, p), Lookup(votes, p))
  }

  lemma AddedNext(before: map<Name, Aggregate>, votes: map<Name, Aggregate>, sums: map<Name, Aggregate>,
                  s: Name, vote: Aggregate)
    requires Added(before, votes, sums) && s !in votes
    ensures Added(before, votes[s := vote], sums[s := Plus(Lookup(sums, s), vote)])
  {
    var votes2, sums2 := votes[s := vote], sums[s := Plus(Lookup(sums, s), vote)];
    forall p ensures Lookup(sums2, p) == Plus(Lookup(before, p), Lookup(votes2, p)) {
      assert Lookup(sums, p) == Plus(Lookup(before, p), Lookup(votes, p));
      LookupUpdate(sums, s, Plus(Lookup(sums, s), vote), p);
      LookupUpdate(votes, s, vote, p);
      PlusNothing(Lookup(before, s));
    }
  }

  lemma LookupUpdate(m: map<Name, Aggregate>, s: Name, v: Aggregate, p: Name)
    ensures Lookup(m[s := v], p) == if p == s then v else Lookup(m, p)
  {
  }

  /** Adds one rater's vote to the running sums of every subject it rated, in any order. */
  method CountRater(es: seq<Edge>, weight: real, decay: real -> real, before: map<Name, Aggregate>)
    returns (sums: map<Name, Aggregate>, ghost votes: map<Name, Aggregate>)
    ensures Added(before, votes, sums)
    ensures forall p :: Lookup(votes, p) == Vote(es, weight, p, decay)
  {
    sums, votes := before, map[];
    if weight == 0.0 {
      return;
    }
    var bySubject := GroupBySubject(es, decay);
    var todo := bySubject.Keys;
    while todo != {}
      invariant todo <= bySubject.Keys && votes.Keys == bySubject.Keys - todo
      invariant Added(before, votes, sums)
      invariant forall p | p in votes :: votes[p] == MeanVote(bySubject[p], weight)
    {
      var s :| s in todo;
      var vote := MeanVote(bySubject[s], weight);
      AddedNext(before, votes, sums, s, vote);
      sums := sums[s := Plus(Lookup(sums, s), vote)];
      votes := votes[s := vote];
      todo := todo - {s};
    }
    forall p ensures Lookup(votes, p) == Vote(es, weight, p, decay) {
      assert Lookup(bySubject, p) == AggOf(es, p, decay);
    }
  }

  ghost predicate Counted(sums: map<Name, Aggregate>, raters: set<Name>, pr: Problem, cur: Table)
  {
    forall p :: Sum(raters, VotesAbout(pr, cur, p)) == Lookup(sums, p)
  }

  lemma CountedNext(before: map<Name, Aggregate>, votes: map<Name, Aggregate>, sums: map<Name, Aggregate>,
                    done: set<Name>, r: Name, pr: Problem, cur: Table)
    requires Counted(before, done, pr, cur) && Added(before, votes, sums) && r !in done && r in pr.graph
    requires forall p :: Lookup(votes, p) == VoteOf(pr, cur, r, p)
    ensures Counted(sums, done + {r}, pr, cur)
  {
    forall p ensures Sum(done + {r}, VotesAbout(pr, cur, p)) == Lookup(sums, p) {
      assert VotesAbout(pr, cur, p)(r) == Lookup(votes, p);
      SumGrows(done, r, VotesAbout(pr, cur, p), Lookup(before, p), Lookup(votes, p));
    }
  }

  lemma SumGrows(done: set<Name>, r: Name, v: Name -> Aggregate, sum: Aggregate, vote: Aggregate)
    requires r !in done && Sum(done, v) == sum && v(r) == vote
    ensures Sum(done + {r}, v) == Plus(sum, vote)
  {
    SumFrom(done + {r}, r, v);
    assert done + {r} - {r} == done;
    PlusSwaps(sum, vote, NOTHING);
  }

  /** Counts every rater's vote, in whatever order the raters come. */
  method CountVotes(pr: Problem, cur: Table) returns (sums: map<Name, Aggregate>)
    ensures Counted(sums, pr.graph.Keys, pr, cur)
  {
    sums := map[];
    var raters := pr.graph.Keys;
    ghost var done: set<Name> := {};
    while raters != {}
      invariant raters + done == pr.graph.Keys && raters !! done
      invariant Counted(sums, done, pr, cur)
      decreases raters
    {
      var r :| r in raters;
      ghost var before := sums;
      ghost var votes;
      sums, votes := CountRater(pr.graph[r], Weight(cur, pr.seeds, r), pr.decay, sums);
      CountedNext(before, votes, sums, done, r, pr, cur);
      raters, done := raters - {r}, done + {r};
    }
    assert done == pr.graph.Keys;
  }

  /** One pass over all peers; the second result says whether the change is below the tolerance. */
  method RunPass(pr: Problem, peers: set<Name>, cur: Table) returns (next: Table, converged: bool)
    requires peers == Universe(pr)
    ensures next == NextTable(pr, cur)
    ensures converged <==> Converged(next, cur, pr.tolerance)
  {
    var sums := CountVotes(pr, cur);
    next := map[];
    var todo := peers;
    while todo != {}
      invariant todo <= peers
      invariant next.Keys == peers - todo
      invariant forall p | p in next :: next[p] == Clamp(RawFrom(Lookup(sums, p), Get(pr.seeds, p), pr.mixing))
    {
      var p :| p in todo;
      next := next[p := Clamp(RawFrom(Lookup(sums, p), Get(pr.seeds, p), pr.mixing))];
      todo := todo - {p};
    }
    PassIsNextTable(pr, cur, sums, next);
    var delta := MaxChange(next, cur);
    converged := delta < pr.tolerance;
    ConvergedIffSmall(delta, next, cur, pr.tolerance);
  }

  lemma PassIsNextTable(pr: Problem, cur: Table, sums: map<Name, Aggregate>, next: Table)
    requires Counted(sums, pr.graph.Keys, pr, cur) && next.Keys == Universe(pr)
    requires forall p | p in next :: next[p] == Clamp(RawFrom(Lookup(sums, p), Get(pr.seeds, p), pr.mixing))
    ensures next == NextTable(pr, cur)
  {
    forall p | p in next ensures next[p] == Clamp(Raw(pr, cur, p)) {
      assert Votes(pr, cur, p) == Lookup(sums, p);
    }
  }

  lemma ConvergedIffSmall(d: real, next: Table, cur: Table, tolerance: real)
    requires IsMaxChange(d, next, cur)
    ensures d < tolerance <==> Converged(next, cur, tolerance)
  {
  }

  method MaxChange(cur: Table, prev: Table) returns (d: real)
    ensures IsMaxChange(d, cur, prev)
  {
    d := 0.0;
    var todo := cur.Keys;
    while todo != {}
      invariant todo <= cur.Keys && d >= 0.0
      invariant forall p | p in cur && p !in todo :: Abs(cur[p] - Get(prev, p)) <= d
      invariant d > 0.0 ==> exists p :: p in cur && Abs(cur[p] - Get(prev, p)) == d
    {
      var p :| p in todo;
      var change := Abs(cur[p] - Get(prev, p));
      if change > d {
        d := change;
        assert p in cur && Abs(cur[p] - Get(prev, p)) == d;
      }
      todo := todo - {p};
    }
  }

  /** The peers named as raters, subjects or seeds. */
  method CollectPeers(g: Graph, seeds: Table) returns (peers: set<Name>)
    ensures peers == g.Keys + Subjects(g) + seeds.Keys
  {
    peers := set r, e | r in g && e in g[r] :: e.subject;
    peers := g.Keys + peers + seeds.Keys;
  }

  method InitialScores(pr: Problem) returns (peers: set<Name>, cur: Table)
    ensures peers == Universe(pr) && cur == Start(pr)
  {
    peers := CollectPeers(pr.graph, pr.seeds);
    cur := map p | p in peers :: Get(pr.seeds, p);
  }

  /** The fixed-point loop with its early exit. */
  method Solve(pr: Problem, maxIterations: int) returns (cur: Table)
    ensures cur == Solution(pr, maxIterations)
  {
    var peers;
    peers, cur := InitialScores(pr);
    ghost var pass, bound, wanted := PassOf(pr), Bound(maxIterations), Solution(pr, maxIterations);
    var iter := 0;
    while iter < maxIterations
      invariant 0 <= iter <= bound
      invariant Iterate(pass, pr.tolerance, cur, bound - iter) == wanted
    {
      var next, converged := RunPass(pr, peers, cur);
      assert pass(cur) == next;
      IterateOnce(pass, pr.tolerance, cur, bound - iter);
      cur := next;
      iter := iter + 1;
      if converged {
        return;
      }
    }
  }

  lemma IterateOnce(pass: Table -> Table, tolerance: real, cur: Table, bound: nat)
    requires bound > 0
    ensures Iterate(pass, tolerance, cur, bound)
         == if Converged(pass(cur), cur, tolerance) then pass(cur) else Iterate(pass, tolerance, pass(cur), bound - 1)
  {
  }

  class Engine {
    const cfg: Config
    const seeds: Table
    var scores: Table

    constructor (cfg: Config, seeds: Table)
      ensures this.cfg == Effective(cfg) && this.seeds == seeds && scores == map[]
    {
      this.cfg := Effective(cfg);
      this.seeds := seeds;
      scores := map[];
    }

    /** The problem this engine solves when it reads the graph `g`. */
    function ProblemFor(g: Graph, decay: real -> real): Problem
    {
      Problem(g, seeds, decay, cfg.mixing, cfg.tolerance)
    }

    /** The table that follows from what is stored, at a given time. */
    ghost function ScoresFor(payloads: seq<Option<Claim>>, equivocators: Option<set<PeerId>>, now: int,
                             decay: real -> real): Table
    {
      Floored(Solution(ProblemFor(GraphFor(payloads, now), decay), cfg.maxIterations), Branded(equivocators))
    }

    /**
     Re-derives all scores from the own log and the inbox.  `None` stands for a
     store read that failed; a failed read of the equivocators means no floor.
     */
    method Recompute(own: Option<seq<Option<Claim>>>, inbox: Option<seq<Option<Claim>>>,
                     equivocators: Option<set<PeerId>>, now: int, decay: real -> real)
      returns (r: Result<real, ReadError>)
      modifies this
      ensures own.None? ==> r == Err(OwnEntriesUnreadable)
      ensures own.Some? && inbox.None? ==> r == Err(InboxUnreadable)
      ensures r.Err? ==> scores == old(scores)
      ensures own.Some? && inbox.Some? ==>
                scores == ScoresFor(own.value + inbox.value, equivocators, now, decay)
      ensures own.Some? && inbox.Some? ==> r.Ok? && IsMaxChange(r.value, scores, old(scores))
    {
      if own.None? {
        return Err(OwnEntriesUnreadable);
      }
      if inbox.None? {
        return Err(InboxUnreadable);
      }
      var g := BuildGraph(own.value + inbox.value, now);
      var pr := ProblemFor(g, decay);
      var cur := Solve(pr, cfg.maxIterations);
      cur := Floored(cur, Branded(equivocators));
      var maxDelta := MaxChange(cur, scores);
      scores := cur;
      return Ok(maxDelta);
    }

    function Score(peer: Name): real
      reads this
    {
      Get(scores, peer)
    }
  }

  /** The score-table keys of the marked peers. */
  function Branded(equivocators: Option<set<PeerId>>): set<Name>
  {
    match equivocators
    case None => {}
    case Some(ids) => set id | id in ids :: Rendered(id)
  }

  /** Recomputing on an unchanged store at an unchanged clock reports no change, whatever orders were taken. */
  method RecomputeTwice(e: Engine, own: seq<Option<Claim>>, inbox: seq<Option<Claim>>,
                        equivocators: Option<set<PeerId>>, now: int, decay: real -> real)
    returns (second: Result<real, ReadError>)
    modifies e
    ensures second == Ok(0.0)
  {
    var _ := e.Recompute(Some(own), Some(inbox), equivocators, now, decay);
    ghost var first := e.scores;
    second := e.Recompute(Some(own), Some(inbox), equivocators, now, decay);
    assert e.scores == first;
    NoChange(second.value, first);
  }

  lemma NoChange(d: real, scores: Table)
    requires IsMaxChange(d, scores, scores)
    ensures d == 0.0
  {
  }
}
