/**
 The functional specification of the reputation solver: one pass is a table over
 the peers, and no part of it depends on the order in which Go visits a map.
 Arithmetic is exact; the age weight is an arbitrary function of the age.
 */
module EigenTrust {
  import opened Arithmetic
  import opened Hashing
  import opened Wrappers

  /** How a peer id is written where a string is expected. */
  datatype Name =
    | Rendered(id: PeerId)               // peer.ID.String(), the key of the score table
    | Respelled(id: PeerId, style: nat)  // another text that decodes to the same id
    | Text(code: nat)                    // text that is no peer id

  datatype Edge = Edge(subject: Name, value: real, ageDays: real)

  type Graph = map<Name, seq<Edge>>
  type Table = map<Name, real>

  /** Everything one recomputation depends on besides its iteration bound. */
  datatype Problem = Problem(graph: Graph, seeds: Table, decay: real -> real, mixing: real, tolerance: real)

  function Get(t: Table, p: Name): real
  {
    if p in t then t[p] else 0.0
  }

  function Clamp(x: real): real
  {
    if x > 1.0 then 1.0 else if x < -1.0 then -1.0 else x
  }

  // ------------------------------------------------------------ ingestion

  const NANOS_PER_DAY := 86_400_000_000_000.0

  function AgeDays(now: int, timestamp: int): real
  {
    var age := (now - timestamp) as real / NANOS_PER_DAY;
    if age < 0.0 then 0.0 else age
  }

  /** The edge a stored payload contributes; `None` for what does not decode to an honesty rating. */
  function EdgeOf(payload: Option<Claim>, now: int): Option<(Name, Edge)>
  {
    if payload.None? || payload.value.Comment? then None
    else
      var c := payload.value;
      if c.dimension != "honesty" || c.rater == c.subject || c.score.NotFinite? then None
      else Some((Rendered(c.rater), Edge(Rendered(c.subject), c.score.value, AgeDays(now, c.timestamp))))
  }

  function EdgesOf(payloads: seq<Option<Claim>>, now: int, rater: Name): seq<Edge>
  {
    if |payloads| == 0 then []
    else
      var before := EdgesOf(payloads[..|payloads| - 1], now, rater);
      match EdgeOf(payloads[|payloads| - 1], now)
      case None => before
      case Some((r, e)) => if r == rater then before + [e] else before
  }

  /** Everybody who sent at least one honesty rating. */
  function Raters(payloads: seq<Option<Claim>>, now: int): set<Name>
  {
    if |payloads| == 0 then {}
    else
      Raters(payloads[..|payloads| - 1], now)
      + match EdgeOf(payloads[|payloads| - 1], now) { case None => {} case Some((r, _)) => {r} }
  }

  /** The edges by rater, each in the order its rater's payloads are stored. */
  function GraphFor(payloads: seq<Option<Claim>>, now: int): Graph
  {
    map r | r in Raters(payloads, now) :: EdgesOf(payloads, now, r)
  }

  // ------------------------------------------------------------ one pass

  function Weight(cur: Table, seeds: Table, rater: Name): real
  {
    var w := Abs(Get(cur, rater));
    if w == 0.0 then Get(seeds, rater) else w
  }

  /** Age-weighted sum of one rater's opinions of one subject, and the sum of the weights. */
  datatype Aggregate = Aggregate(value: real, weight: real)

  function Plus(a: Aggregate, b: Aggregate): Aggregate
  {
    Aggregate(a.value + b.value, a.weight + b.weight)
  }

  lemma PlusSwaps(a: Aggregate, b: Aggregate, c: Aggregate)
    ensures Plus(a, Plus(b, c)) == Plus(b, Plus(a, c)) == Plus(Plus(a, b), c)
    ensures Plus(a, b) == Plus(b, a)
  {
  }

  const NOTHING := Aggregate(0.0, 0.0)

  function EdgeTerm(e: Edge, p: Name, decay: real -> real): Aggregate
  {
    if e.subject == p then Aggregate(decay(e.ageDays) * e.value, decay(e.ageDays)) else NOTHING
  }

  function AggOf(es: seq<Edge>, p: Name, decay: real -> real): Aggregate
  {
    if |es| == 0 then NOTHING
    else Plus(AggOf(es[..|es| - 1], p, decay), EdgeTerm(es[|es| - 1], p, decay))
  }

  function MeanVote(agg: Aggregate, weight: real): Aggregate
  {
    if weight == 0.0 || agg.weight == 0.0 then NOTHING
    else Aggregate(weight * (agg.value / agg.weight), weight)
  }

  /** What one rater adds to one subject: one bounded vote however many edges it sent. */
  function Vote(es: seq<Edge>, weight: real, p: Name, decay: real -> real): Aggregate
  {
    MeanVote(AggOf(es, p, decay), weight)
  }

  function VoteOf(pr: Problem, cur: Table, rater: Name, p: Name): Aggregate
    requires rater in pr.graph
  {
    Vote(pr.graph[rater], Weight(cur, pr.seeds, rater), p, pr.decay)
  }

  /** A sum over raters, in any order. */
  ghost function Sum(rs: set<Name>, v: Name -> Aggregate): Aggregate
  {
    if rs == {} then NOTHING
    else
      var r :| r in rs;
      Plus(v(r), Sum(rs - {r}, v))
  }

  /** The sum may be taken from any rater first. */
  lemma {:induction false} SumFrom(rs: set<Name>, r: Name, v: Name -> Aggregate)
    requires r in rs
    ensures Sum(rs, v) == Plus(v(r), Sum(rs - {r}, v))
    decreases rs
  {
    var s :| s in rs && Sum(rs, v) == Plus(v(s), Sum(rs - {s}, v));
    if s != r {
      var rest := rs - {s} - {r};
      SumFrom(rs - {s}, r, v);
      SumFrom(rs - {r}, s, v);
      assert rest == rs - {r} - {s};
      PlusSwaps(v(s), v(r), Sum(rest, v));
    }
  }

  /** The votes cast about `p` under the scores `cur`, rater by rater. */
  function VotesAbout(pr: Problem, cur: Table, p: Name): Name -> Aggregate
  {
    r => if r in pr.graph then VoteOf(pr, cur, r, p) else NOTHING
  }

  ghost function Votes(pr: Problem, cur: Table, p: Name): Aggregate
  {
    Sum(pr.graph.Keys, VotesAbout(pr, cur, p))
  }

  function RawFrom(votes: Aggregate, seed: real, mixing: real): real
  {
    if votes.weight == 0.0 then seed else (1.0 - mixing) * (votes.value / votes.weight) + mixing * seed
  }

  /** The next score before clamping. */
  ghost function Raw(pr: Problem, cur: Table, p: Name): real
  {
    RawFrom(Votes(pr, cur, p), Get(pr.seeds, p), pr.mixing)
  }

  ghost function Subjects(g: Graph): set<Name>
  {
    set r, e | r in g && e in g[r] :: e.subject
  }

  ghost function Universe(pr: Problem): set<Name>
  {
    pr.graph.Keys + Subjects(pr.graph) + pr.seeds.Keys
  }

  ghost function NextTable(pr: Problem, cur: Table): Table
  {
    map p | p in Universe(pr) :: Clamp(Raw(pr, cur, p))
  }

  ghost predicate Converged(next: Table, cur: Table, tolerance: real)
  {
    0.0 < tolerance && forall p | p in next :: Abs(next[p] - Get(cur, p)) < tolerance
  }

  // ------------------------------------------------------------ the fixed point

  /** The table after at most `bound` passes of `pass` from `cur`. */
  ghost function Iterate(pass: Table -> Table, tolerance: real, cur: Table, bound: nat): Table
    decreases bound
  {
    if bound == 0 then cur
    else
      var next := pass(cur);
      if Converged(next, cur, tolerance) then next else Iterate(pass, tolerance, next, bound - 1)
  }

  /** How many passes that takes. */
  ghost function Passes(pass: Table -> Table, tolerance: real, cur: Table, bound: nat): nat
    decreases bound
  {
    if bound == 0 then 0
    else
      var next := pass(cur);
      if Converged(next, cur, tolerance) then 1 else 1 + Passes(pass, tolerance, next, bound - 1)
  }

  ghost function PassOf(pr: Problem): Table -> Table
  {
    cur => NextTable(pr, cur)
  }

  function Bound(maxIterations: int): nat
  {
    if maxIterations < 0 then 0 else maxIterations
  }

  ghost function Start(pr: Problem): Table
  {
    map p | p in Universe(pr) :: Get(pr.seeds, p)
  }

  ghost function Solution(pr: Problem, maxIterations: int): Table
  {
    Iterate(PassOf(pr), pr.tolerance, Start(pr), Bound(maxIterations))
  }

  ghost function PassesToSolve(pr: Problem, maxIterations: int): nat
  {
    Passes(PassOf(pr), pr.tolerance, Start(pr), Bound(maxIterations))
  }

  const EQUIVOCATOR_FLOOR := -1.0

  function Floored(t: Table, marked: set<Name>): Table
  {
    t + map p | p in marked :: EQUIVOCATOR_FLOOR
  }

  /** `d` is the largest change from `prev` to `cur`, over the peers of `cur`. */
  ghost predicate IsMaxChange(d: real, cur: Table, prev: Table)
  {
    && d >= 0.0
    && (forall p | p in cur :: Abs(cur[p] - Get(prev, p)) <= d)
    && (d > 0.0 ==> exists p :: p in cur && Abs(cur[p] - Get(prev, p)) == d)
  }
}
