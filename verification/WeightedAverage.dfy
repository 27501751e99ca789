/**
 What the solver computes, from the definitions of the published scheme and without
 the solver's own vote arithmetic: a seed-mixed average of each rater's age-weighted
 mean opinion, weighted by the trust in the rater.
 */
module WeightedAverage {
  import opened Hashing
  import opened EigenTrust
  import opened EigenTrustTheorems
  import Reputation
  import opened Wrappers

  // ------------------------------------------------------------ sums over lists

  function SumOver<T>(s: seq<T>, f: T -> real): real
  {
    if |s| == 0 then 0.0 else f(s[0]) + SumOver(s[1..], f)
  }

  lemma {:induction false} SumOverMore<T>(s: seq<T>, x: T, f: T -> real)
    ensures SumOver(s + [x], f) == SumOver(s, f) + f(x)
  {
    if |s| == 0 {
      assert s + [x] == [x] && [x][1..] == [];
    } else {
      assert (s + [x])[1..] == s[1..] + [x];
      SumOverMore(s[1..], x, f);
    }
  }

  lemma {:induction false} SumOfZeros<T>(s: seq<T>, f: T -> real)
    requires forall x | x in s :: f(x) == 0.0
    ensures SumOver(s, f) == 0.0
  {
    if |s| > 0 {
      SumOfZeros(s[1..], f);
    }
  }

  // ------------------------------------------------------------ opinions and trust

  function ScoreOf(t: Table, p: Name): real
  {
    if p in t then t[p] else 0.0
  }

  /** The magnitude of the rater's score, or its seed if that is 0. */
  function Trust(pr: Problem, cur: Table, r: Name): real
  {
    var s := ScoreOf(cur, r);
    if s > 0.0 then s else if s < 0.0 then -s else ScoreOf(pr.seeds, r)
  }

  function AgeTerm(p: Name, decay: real -> real): Edge -> real
  {
    (e: Edge) => if e.subject == p then decay(e.ageDays) else 0.0
  }

  function ValueTerm(p: Name, decay: real -> real): Edge -> real
  {
    (e: Edge) => if e.subject == p then decay(e.ageDays) * e.value else 0.0
  }

  /** The age weights of what `r` said about `p`. */
  function AgeWeights(pr: Problem, r: Name, p: Name): real
    requires r in pr.graph
  {
    SumOver(pr.graph[r], AgeTerm(p, pr.decay))
  }

  function AgedValues(pr: Problem, r: Name, p: Name): real
    requires r in pr.graph
  {
    SumOver(pr.graph[r], ValueTerm(p, pr.decay))
  }

  /** The trust behind what `r` said about `p`; none if it said nothing that has weight. */
  function Backing(pr: Problem, cur: Table, p: Name): Name -> real
  {
    r => if r in pr.graph && AgeWeights(pr, r, p) != 0.0 then Trust(pr, cur, r) else 0.0
  }

  /** Trust times the age-weighted mean of what `r` said about `p`. */
  function Opinion(pr: Problem, cur: Table, p: Name): Name -> real
  {
    r => if r in pr.graph && AgeWeights(pr, r, p) != 0.0
         then Trust(pr, cur, r) * (AgedValues(pr, r, p) / AgeWeights(pr, r, p)) else 0.0
  }

  function Mixed(mixing: real, average: real, seed: real): real
  {
    (1.0 - mixing) * average + mixing * seed
  }

  /** The raters, each once, in any order. */
  ghost predicate ListsRaters(raters: seq<Name>, pr: Problem)
  {
    && (forall r :: r in raters <==> r in pr.graph)
    && (forall i, j | 0 <= i < j < |raters| :: raters[i] != raters[j])
  }

  // ------------------------------------------------------------ one vote

  lemma {:induction false} AggIsSums(es: seq<Edge>, p: Name, decay: real -> real)
    ensures AggOf(es, p, decay) == Aggregate(SumOver(es, ValueTerm(p, decay)), SumOver(es, AgeTerm(p, decay)))
  {
    if |es| > 0 {
      var front, last := es[..|es| - 1], es[|es| - 1];
      AggIsSums(front, p, decay);
      SumOverMore(front, last, ValueTerm(p, decay));
      SumOverMore(front, last, AgeTerm(p, decay));
      assert front + [last] == es;
    }
  }

  lemma {:induction false} VoteIsOpinion(pr: Problem, cur: Table, p: Name, r: Name)
    ensures VotesAbout(pr, cur, p)(r) == Aggregate(Opinion(pr, cur, p)(r), Backing(pr, cur, p)(r))
  {
    if r in pr.graph {
      AggIsSums(pr.graph[r], p, pr.decay);
      TrustIsWeight(pr, cur, r);
      MeanVoteIs(AgedValues(pr, r, p), AgeWeights(pr, r, p), Trust(pr, cur, r));
    }
  }

  lemma {:induction false} TrustIsWeight(pr: Problem, cur: Table, r: Name)
    ensures Weight(cur, pr.seeds, r) == Trust(pr, cur, r)
  {
  }

  lemma {:induction false} MeanVoteIs(value: real, ages: real, trust: real)
    ensures MeanVote(Aggregate(value, ages), trust)
         == if ages == 0.0 then Aggregate(0.0, 0.0) else Aggregate(trust * (value / ages), trust)
  {
    if ages != 0.0 && trust == 0.0 {
      assert trust * (value / ages) == 0.0;
    }
  }

  ghost function ElementsOf(s: seq<Name>): set<Name>
  {
    set r | r in s
  }

  lemma {:induction false} SumIsSums(raters: seq<Name>, v: Name -> Aggregate, value: Name -> real, weight: Name -> real)
    requires forall i, j | 0 <= i < j < |raters| :: raters[i] != raters[j]
    requires forall r | r in raters :: v(r) == Aggregate(value(r), weight(r))
    ensures Sum(ElementsOf(raters), v) == Aggregate(SumOver(raters, value), SumOver(raters, weight))
  {
    var all := ElementsOf(raters);
    if |raters| > 0 {
      var rest := raters[1..];
      SumIsSums(rest, v, value, weight);
      SumFrom(all, raters[0], v);
      assert all - {raters[0]} == ElementsOf(rest);
    }
  }

  /**
   Before the clamp, the next score of a peer is its seed if there is no trust behind any
   opinion of it, and otherwise its seed mixed with the average of the raters' mean
   opinions, weighted by the trust in them.
   */
  lemma {:induction false} RawIsWeightedAverage(pr: Problem, cur: Table, p: Name, raters: seq<Name>)
    requires ListsRaters(raters, pr)
    ensures var trust, opinions := SumOver(raters, Backing(pr, cur, p)), SumOver(raters, Opinion(pr, cur, p));
            Raw(pr, cur, p) == if trust == 0.0 then ScoreOf(pr.seeds, p)
                               else Mixed(pr.mixing, opinions / trust, ScoreOf(pr.seeds, p))
  {
    forall r | r in raters
      ensures VotesAbout(pr, cur, p)(r) == Aggregate(Opinion(pr, cur, p)(r), Backing(pr, cur, p)(r))
    {
      VoteIsOpinion(pr, cur, p, r);
    }
    SumIsSums(raters, VotesAbout(pr, cur, p), Opinion(pr, cur, p), Backing(pr, cur, p));
    assert ElementsOf(raters) == pr.graph.Keys;
    AverageIs(Votes(pr, cur, p), ScoreOf(pr.seeds, p), pr.mixing);
  }

  lemma {:induction false} AverageIs(votes: Aggregate, seed: real, mixing: real)
    ensures RawFrom(votes, seed, mixing)
         == if votes.weight == 0.0 then seed else Mixed(mixing, votes.value / votes.weight, seed)
  {
  }

  // ------------------------------------------------------------ two raters

  /** `r` said nothing about `p`. */
  ghost predicate IsSilent(pr: Problem, r: Name, p: Name)
    requires r in pr.graph
  {
    forall e | e in pr.graph[r] :: e.subject != p
  }

  lemma {:induction false} SilentBacksNothing(pr: Problem, cur: Table, r: Name, p: Name)
    requires r in pr.graph && IsSilent(pr, r, p)
    ensures Backing(pr, cur, p)(r) == 0.0 && Opinion(pr, cur, p)(r) == 0.0
  {
    SumOfZeros(pr.graph[r], AgeTerm(p, pr.decay));
  }

  lemma {:induction false} ListOf(s: set<Name>) returns (l: seq<Name>)
    ensures forall r :: r in l <==> r in s
    ensures forall i, j | 0 <= i < j < |l| :: l[i] != l[j]
    decreases s
  {
    l := [];
    if s != {} {
      var r :| r in s;
      var rest := ListOf(s - {r});
      l := [r] + rest;
    }
  }

  lemma {:induction false} SumOfTwo(a: Name, b: Name, rest: seq<Name>, f: Name -> real)
    requires forall r | r in rest :: f(r) == 0.0
    ensures SumOver([a, b] + rest, f) == f(a) + f(b)
  {
    SumOfZeros(rest, f);
    assert ([a, b] + rest)[1..] == [b] + rest && ([b] + rest)[1..] == rest;
  }

  lemma {:induction false} OthersBackNothing(pr: Problem, cur: Table, p: Name, a: Name, b: Name, others: seq<Name>)
    requires forall r | r in pr.graph && r != a && r != b :: IsSilent(pr, r, p)
    requires forall r | r in others :: r in pr.graph && r != a && r != b
    ensures SumOver([a, b] + others, Backing(pr, cur, p)) == Backing(pr, cur, p)(a) + Backing(pr, cur, p)(b)
    ensures SumOver([a, b] + others, Opinion(pr, cur, p)) == Opinion(pr, cur, p)(a) + Opinion(pr, cur, p)(b)
  {
    forall r | r in others ensures Backing(pr, cur, p)(r) == 0.0 && Opinion(pr, cur, p)(r) == 0.0 {
      SilentBacksNothing(pr, cur, r, p);
    }
    SumOfTwo(a, b, others, Backing(pr, cur, p));
    SumOfTwo(a, b, others, Opinion(pr, cur, p));
  }

  lemma {:induction false} ListsAll(pr: Problem, a: Name, b: Name, others: seq<Name>)
    requires a in pr.graph && b in pr.graph && a != b
    requires forall r :: r in others <==> r in pr.graph.Keys - {a, b}
    requires forall i, j | 0 <= i < j < |others| :: others[i] != others[j]
    ensures ListsRaters([a, b] + others, pr)
  {
    var all := [a, b] + others;
    forall i, j | 0 <= i < j < |all| ensures all[i] != all[j] {
      assert i >= 2 ==> all[i] == others[i - 2];
      assert j >= 2 ==> all[j] == others[j - 2] && others[j - 2] in others;
    }
  }

  /** Where exactly two raters speak of a peer, each counts as much as it is trusted. */
  lemma {:induction false} TwoRatersWeigh(pr: Problem, cur: Table, p: Name, a: Name, b: Name)
    requires a in pr.graph && b in pr.graph && a != b
    requires forall r | r in pr.graph && r != a && r != b :: IsSilent(pr, r, p)
    requires AgeWeights(pr, a, p) != 0.0 && AgeWeights(pr, b, p) != 0.0
    requires Trust(pr, cur, a) + Trust(pr, cur, b) != 0.0
    ensures Raw(pr, cur, p)
         == Mixed(pr.mixing, AverageOfTwo(Trust(pr, cur, a), Mean(pr, a, p), Trust(pr, cur, b), Mean(pr, b, p)),
                  ScoreOf(pr.seeds, p))
  {
    TwoWeigh(pr, cur, p, a, b, Trust(pr, cur, a), Mean(pr, a, p), Trust(pr, cur, b), Mean(pr, b, p));
  }

  lemma {:induction false} TwoWeigh(pr: Problem, cur: Table, p: Name, a: Name, b: Name,
                                    trustA: real, meanA: real, trustB: real, meanB: real)
    requires a in pr.graph && b in pr.graph && a != b
    requires forall r | r in pr.graph && r != a && r != b :: IsSilent(pr, r, p)
    requires Speaks(pr, cur, p, a, trustA, meanA) && Speaks(pr, cur, p, b, trustB, meanB) && trustA + trustB != 0.0
    ensures Raw(pr, cur, p) == Mixed(pr.mixing, AverageOfTwo(trustA, meanA, trustB, meanB), ScoreOf(pr.seeds, p))
  {
    var others := ListOf(pr.graph.Keys - {a, b});
    ListsAll(pr, a, b, others);
    OthersBackNothing(pr, cur, p, a, b, others);
    RaterBacks(pr, cur, p, a, trustA, meanA);
    RaterBacks(pr, cur, p, b, trustB, meanB);
    RawFromTwo(pr, cur, p, [a, b] + others, trustA, meanA, trustB, meanB);
  }

  /** `r` speaks of `p`, and this is the trust in it and the mean of what it said. */
  predicate Speaks(pr: Problem, cur: Table, p: Name, r: Name, trust: real, mean: real)
    requires r in pr.graph
  {
    AgeWeights(pr, r, p) != 0.0 && trust == Trust(pr, cur, r) && mean == Mean(pr, r, p)
  }

  /** The age-weighted mean of what `r` said about `p`. */
  function Mean(pr: Problem, r: Name, p: Name): real
    requires r in pr.graph && AgeWeights(pr, r, p) != 0.0
  {
    AgedValues(pr, r, p) / AgeWeights(pr, r, p)
  }

  function AverageOfTwo(trustA: real, meanA: real, trustB: real, meanB: real): real
    requires trustA + trustB != 0.0
  {
    (trustA * meanA + trustB * meanB) / (trustA + trustB)
  }

  lemma {:induction false} RaterBacks(pr: Problem, cur: Table, p: Name, r: Name, trust: real, mean: real)
    requires r in pr.graph && Speaks(pr, cur, p, r, trust, mean)
    ensures Backing(pr, cur, p)(r) == trust && Opinion(pr, cur, p)(r) == trust * mean
  {
  }

  lemma {:induction false} RawFromTwo(pr: Problem, cur: Table, p: Name, raters: seq<Name>,
                                      trustA: real, meanA: real, trustB: real, meanB: real)
    requires ListsRaters(raters, pr) && trustA + trustB != 0.0
    requires SumOver(raters, Backing(pr, cur, p)) == trustA + trustB
    requires SumOver(raters, Opinion(pr, cur, p)) == trustA * meanA + trustB * meanB
    ensures Raw(pr, cur, p) == Mixed(pr.mixing, AverageOfTwo(trustA, meanA, trustB, meanB), ScoreOf(pr.seeds, p))
  {
    RawFromSums(pr, cur, p, raters, trustA + trustB, trustA * meanA + trustB * meanB);
  }

  lemma {:induction false} RawFromSums(pr: Problem, cur: Table, p: Name, raters: seq<Name>, trust: real, opinions: real)
    requires ListsRaters(raters, pr) && trust != 0.0
    requires SumOver(raters, Backing(pr, cur, p)) == trust && SumOver(raters, Opinion(pr, cur, p)) == opinions
    ensures Raw(pr, cur, p) == Mixed(pr.mixing, opinions / trust, ScoreOf(pr.seeds, p))
  {
    RawIsWeightedAverage(pr, cur, p, raters);
  }

  // ------------------------------------------------------------ passes

  /** Everybody who rates, is rated, or is seeded has a next score: the average, cut off at -1 and 1. */
  lemma {:induction false} NextScoreIs(pr: Problem, cur: Table, p: Name)
    ensures p in NextTable(pr, cur)
       <==> p in pr.graph || p in pr.seeds || exists r, e :: r in pr.graph && e in pr.graph[r] && e.subject == p
    ensures p in NextTable(pr, cur) ==>
              var raw, next := Raw(pr, cur, p), NextTable(pr, cur)[p];
              && (-1.0 <= raw <= 1.0 ==> next == raw) && (raw > 1.0 ==> next == 1.0) && (raw < -1.0 ==> next == -1.0)
  {
  }

  /** The first scores are the seeds. */
  lemma {:induction false} FirstScoreIs(pr: Problem, p: Name)
    ensures p in Start(pr)
       <==> p in pr.graph || p in pr.seeds || exists r, e :: r in pr.graph && e in pr.graph[r] && e.subject == p
    ensures ScoreOf(Start(pr), p) == ScoreOf(pr.seeds, p)
  {
  }

  /** The table after `k` passes. */
  ghost function After(pass: Table -> Table, first: Table, k: nat): Table
  {
    if k == 0 then first else pass(After(pass, first, k - 1))
  }

  /** Some score moved by the tolerance or more from one table to the next. */
  ghost predicate Moves(next: Table, prev: Table, tolerance: real)
  {
    tolerance <= 0.0 ||
    exists p :: p in next
                && (next[p] - ScoreOf(prev, p) >= tolerance || ScoreOf(prev, p) - next[p] >= tolerance)
  }

  lemma {:induction false} MovesIffNotConverged(next: Table, prev: Table, tolerance: real)
    ensures Moves(next, prev, tolerance) <==> !Converged(next, prev, tolerance)
  {
  }

  /** Some score moved by the tolerance or more in the `k`-th pass. */
  ghost predicate MovesAt(pass: Table -> Table, first: Table, tolerance: real, k: nat)
    requires k > 0
  {
    Moves(After(pass, first, k), After(pass, first, k - 1), tolerance)
  }

  /**
   The solution is the table after the first pass that moved no score by the tolerance,
   or after the last that the bound allows.
   */
  lemma {:induction false} SolutionIs(pr: Problem, maxIterations: int) returns (k: nat)
    ensures k == PassesToSolve(pr, maxIterations) && (k == 0 || k <= maxIterations)
    ensures Solution(pr, maxIterations) == After(PassOf(pr), Start(pr), k)
    ensures k < maxIterations ==> k > 0 && !MovesAt(PassOf(pr), Start(pr), pr.tolerance, k)
    ensures forall j: nat | 0 < j < k :: MovesAt(PassOf(pr), Start(pr), pr.tolerance, j)
  {
    k := PassesOf(PassOf(pr), Start(pr), pr.tolerance, Bound(maxIterations));
  }

  lemma {:induction false} PassesOf(pass: Table -> Table, first: Table, tolerance: real, bound: nat) returns (k: nat)
    ensures k == Passes(pass, tolerance, first, bound) <= bound
    ensures Iterate(pass, tolerance, first, bound) == After(pass, first, k)
    ensures k < bound ==> k > 0 && !MovesAt(pass, first, tolerance, k)
    ensures forall j: nat | 0 < j < k :: MovesAt(pass, first, tolerance, j)
  {
    k := PassesFrom(pass, first, tolerance, 0, bound);
  }

  lemma {:induction false} PassesFrom(pass: Table -> Table, first: Table, tolerance: real, done: nat, bound: nat)
    returns (k: nat)
    ensures k == Passes(pass, tolerance, After(pass, first, done), bound) <= bound
    ensures Iterate(pass, tolerance, After(pass, first, done), bound) == After(pass, first, done + k)
    ensures k < bound ==> k > 0 && !MovesAt(pass, first, tolerance, done + k)
    ensures forall j: nat | done < j < done + k :: MovesAt(pass, first, tolerance, j)
    decreases bound
  {
    k := 0;
    if bound > 0 {
      MovesIffNotConverged(After(pass, first, done + 1), After(pass, first, done), tolerance);
      if MovesAt(pass, first, tolerance, done + 1) {
        var rest := PassesFrom(pass, first, tolerance, done + 1, bound - 1);
        k := rest + 1;
      } else {
        k := 1;
      }
    }
  }

  /** A marked peer is published at -1, everybody else as solved. */
  lemma {:induction false} FlooredScoreIs(t: Table, marked: set<Name>, p: Name)
    ensures ScoreOf(Floored(t, marked), p) == if p in marked then -1.0 else ScoreOf(t, p)
  {
  }

  // ------------------------------------------------------------ the engine

  /** The configuration in effect keeps what is set and takes 0.15, 30 days, 50 passes and 0.0001 for what is 0. */
  lemma {:induction false} DefaultsAre(c: Reputation.Config)
    ensures var e := Reputation.Effective(c);
            && e.mixing != 0.0 && e.halfLifeDays != 0.0 && e.maxIterations != 0 && e.tolerance != 0.0
            && (e.mixing == c.mixing || (c.mixing == 0.0 && e.mixing == 0.15))
            && (e.halfLifeDays == c.halfLifeDays || (c.halfLifeDays == 0.0 && e.halfLifeDays == 30.0))
            && (e.maxIterations == c.maxIterations || (c.maxIterations == 0 && e.maxIterations == 50))
            && (e.tolerance == c.tolerance || (c.tolerance == 0.0 && e.tolerance == 0.0001))
  {
  }

  ghost predicate IsMarked(equivocators: Option<set<PeerId>>, p: Name)
  {
    equivocators.Some? && exists id :: id in equivocators.value && p == Rendered(id)
  }

  /**
   What the engine publishes: -1 for every marked peer; for everybody else the score after
   the passes of its own configuration over the stored claims, from its own seeds.
   */
  lemma {:induction false} PublishedScoreIs(
    engine: Reputation.Engine, payloads: seq<Option<Claim>>, equivocators: Option<set<PeerId>>, now: int,
    decay: real -> real, p: Name)
    returns (k: nat)
    ensures k == 0 || k <= engine.cfg.maxIterations
    ensures var pr := Problem(GraphFor(payloads, now), engine.seeds, decay, engine.cfg.mixing, engine.cfg.tolerance);
            && ScoreOf(engine.ScoresFor(payloads, equivocators, now, decay), p)
                 == (if IsMarked(equivocators, p) then -1.0 else ScoreOf(After(PassOf(pr), Start(pr), k), p))
            && (k < engine.cfg.maxIterations ==> k > 0 && !MovesAt(PassOf(pr), Start(pr), pr.tolerance, k))
            && forall j: nat | 0 < j < k :: MovesAt(PassOf(pr), Start(pr), pr.tolerance, j)
  {
    var pr := Problem(GraphFor(payloads, now), engine.seeds, decay, engine.cfg.mixing, engine.cfg.tolerance);
    k := SolutionIs(pr, engine.cfg.maxIterations);
    FlooredScoreIs(Solution(pr, engine.cfg.maxIterations), Reputation.Branded(equivocators), p);
    BrandedIff(equivocators, p);
  }

  lemma {:induction false} BrandedIff(equivocators: Option<set<PeerId>>, p: Name)
    ensures p in Reputation.Branded(equivocators) <==> IsMarked(equivocators, p)
  {
  }
}
