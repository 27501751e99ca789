/** Who may be dispatched to: the trust gate and the choice of a worker. */
module Dispatch {
  import opened Hashing
  import opened Wrappers
  import opened EigenTrust
  import Envelopes
  import LedgerModel
  import LedgerTheorems
  import Reputation
  import Text

  datatype Worker = Worker(peerId: Name, agentName: string, model: string, cpuUsagePct: real,
                           currentTasks: int, maxTasks: int)

  /** `marks` is absent without a ledger or when it cannot be read, `scores` without an engine. */
  datatype Gate = Gate(marks: Option<set<PeerId>>, scores: Option<Table>, floor: real)

  datatype Trust = Allowed | IsEquivocator | BelowFloor(score: real)

  /** Reading a peer id back from its text. */
  function Decode(name: Name): Option<PeerId>
  {
    match name
    case Rendered(id) => if id.PeerOf? then Some(id) else None
    case Respelled(id, _) => if id.PeerOf? then Some(id) else None
    case Text(_) => None
  }

  predicate IsMarked(gate: Gate, w: Worker)
  {
    gate.marks.Some? && Decode(w.peerId).Some? && Decode(w.peerId).value in gate.marks.value
  }

  /** The mark overrides any score; the score only counts for the unmarked. */
  function CheckTrust(gate: Gate, w: Worker): (t: Trust)
    ensures t == Allowed <==>
            !IsMarked(gate, w) && !(gate.scores.Some? && Get(gate.scores.value, w.peerId) < gate.floor)
    ensures t == IsEquivocator <==> IsMarked(gate, w)
  {
    if IsMarked(gate, w) then IsEquivocator
    else if gate.scores.Some? && Get(gate.scores.value, w.peerId) < gate.floor
      then BelowFloor(Get(gate.scores.value, w.peerId))
    else Allowed
  }

  /** The text is an id's rendering or another text that decodes to it, and the id carries a key. */
  predicate NamesPeer(name: Name, id: PeerId)
  {
    id.PeerOf? && (name == Rendered(id) || (name.Respelled? && name.id == id))
  }

  /** Refused are exactly the workers whose id names a marked peer, however spelled, or whose score is below the floor. */
  lemma {:induction false} AllowedIff(gate: Gate, w: Worker)
    ensures CheckTrust(gate, w) == Allowed
       <==> && !(gate.marks.Some? && exists id :: id in gate.marks.value && NamesPeer(w.peerId, id))
            && (gate.scores.Some? ==>
                  gate.floor <= if w.peerId in gate.scores.value then gate.scores.value[w.peerId] else 0.0)
  {
    if Decode(w.peerId).Some? {
      assert NamesPeer(w.peerId, Decode(w.peerId).value);
    }
  }

  // ------------------------------------------------------------ choosing a worker

  datatype SelectError = ModelNotFound | MeshOverloaded

  /** 0 for a peer id hit, 1 for an agent name, 2 for a model, 3 for none; earlier cases win. */
  function TierOf(p: Worker, want: string, nameOf: string -> Name): (t: nat)
    ensures t <= 3
  {
    if p.peerId == nameOf(want) then 0
    else if Text.EqualFold(p.agentName, want) then 1
    else if Text.EqualFold(p.model, want) then 2
    else 3
  }

  predicate Available(p: Worker)
  {
    p.maxTasks <= 0 || p.currentTasks < p.maxTasks
  }

  function LoadRatio(p: Worker): real
  {
    if p.maxTasks <= 0 then 0.0 else p.currentTasks as real / p.maxTasks as real
  }

  /** Lexicographic order on (load ratio, CPU). */
  predicate Better(p: Worker, q: Worker)
  {
    LoadRatio(p) < LoadRatio(q) || (LoadRatio(p) == LoadRatio(q) && p.cpuUsagePct < q.cpuUsagePct)
  }

  /** `t` is the first tier with any candidate in it. */
  ghost predicate FirstTier(t: nat, want: string, candidates: set<Worker>, nameOf: string -> Name)
  {
    && t < 3
    && (exists p :: p in candidates && TierOf(p, want, nameOf) == t)
    && (forall p | p in candidates :: TierOf(p, want, nameOf) >= t)
  }

  /** Least loaded among the available candidates of the first tier. */
  ghost predicate IsBest(w: Worker, want: string, candidates: set<Worker>, nameOf: string -> Name)
  {
    && w in candidates && Available(w)
    && FirstTier(TierOf(w, want, nameOf), want, candidates, nameOf)
    && forall p | p in candidates && TierOf(p, want, nameOf) == TierOf(w, want, nameOf) && Available(p) :: !Better(p, w)
  }

  /** The first tier exists, but everybody in it is at capacity. */
  ghost predicate FirstTierFull(want: string, candidates: set<Worker>, nameOf: string -> Name)
  {
    exists t :: FirstTier(t, want, candidates, nameOf)
      && (forall p | p in candidates && TierOf(p, want, nameOf) == t :: !Available(p))
  }

  /** Sorts the workers into tiers, visiting them in any order. */
  method CollectTiers(want: string, workers: map<Name, Worker>, nameOf: string -> Name)
    returns (tiers: seq<seq<Worker>>)
    ensures |tiers| == 3
    ensures forall t: nat, p | t < 3 :: p in tiers[t] <==> p in workers.Values && TierOf(p, want, nameOf) == t
  {
    tiers := [[], [], []];
    var todo := workers.Keys;
    while todo != {}
      invariant todo <= workers.Keys && |tiers| == 3
      invariant forall t: nat, p | t < 3 && p in tiers[t] :: p in workers.Values && TierOf(p, want, nameOf) == t
      invariant forall k | k in workers && k !in todo && TierOf(workers[k], want, nameOf) < 3 ::
                  workers[k] in tiers[TierOf(workers[k], want, nameOf)]
    {
      var k :| k in todo;
      var t := TierOf(workers[k], want, nameOf);
      if t < 3 {
        tiers := tiers[t := tiers[t] + [workers[k]]];
      }
      todo := todo - {k};
    }
    forall t: nat, p | t < 3 && p in workers.Values && TierOf(p, want, nameOf) == t ensures p in tiers[t] {
      var k :| k in workers && workers[k] == p;
    }
  }

  /** The least loaded of the available workers of a tier. */
  method BestOf(tier: seq<Worker>) returns (r: Option<Worker>)
    ensures r.None? <==> forall p | p in tier :: !Available(p)
    ensures r.Some? ==> r.value in tier && Available(r.value)
                        && forall p | p in tier && Available(p) :: !Better(p, r.value)
  {
    r := None;
    var i := 0;
    while i < |tier|
      invariant 0 <= i <= |tier|
      invariant r.None? <==> forall p | p in tier[..i] :: !Available(p)
      invariant r.Some? ==> r.value in tier[..i] && Available(r.value)
                            && forall p | p in tier[..i] && Available(p) :: !Better(p, r.value)
    {
      if Available(tier[i]) && (r.None? || Better(tier[i], r.value)) {
        r := Some(tier[i]);
      }
      assert tier[..i + 1] == tier[..i] + [tier[i]];
      i := i + 1;
    }
    assert tier[..i] == tier;
  }

  /** What choosing within the first tier that is not empty comes to. */
  lemma {:induction false} FirstTierDecides(t: nat, tier: seq<Worker>, want: string, candidates: set<Worker>,
                                            nameOf: string -> Name, best: Option<Worker>)
    requires t < 3 && tier != [] && forall p | p in candidates :: TierOf(p, want, nameOf) >= t
    requires forall p :: p in tier <==> p in candidates && TierOf(p, want, nameOf) == t
    requires best.None? <==> forall p | p in tier :: !Available(p)
    requires best.Some? ==> best.value in tier && Available(best.value)
                            && forall p | p in tier && Available(p) :: !Better(p, best.value)
    ensures exists p :: p in candidates && TierOf(p, want, nameOf) != 3
    ensures best.None? <==> FirstTierFull(want, candidates, nameOf)
    ensures best.Some? ==> IsBest(best.value, want, candidates, nameOf)
  {
    assert tier[0] in tier;
    assert FirstTier(t, want, candidates, nameOf);
  }

  // ------------------------------------------------------------ the choice, field by field

  /** The workers called by their peer id; those of the others called by name; those left that serve the model. */
  ghost function PeerHits(want: string, candidates: set<Worker>, nameOf: string -> Name): set<Worker>
  {
    set p | p in candidates && p.peerId == nameOf(want)
  }

  ghost function NameHits(want: string, candidates: set<Worker>, nameOf: string -> Name): set<Worker>
  {
    set p | p in candidates && p.peerId != nameOf(want) && Text.EqualFold(p.agentName, want)
  }

  ghost function ModelHits(want: string, candidates: set<Worker>, nameOf: string -> Name): set<Worker>
  {
    set p | p in candidates && p.peerId != nameOf(want) && !Text.EqualFold(p.agentName, want)
            && Text.EqualFold(p.model, want)
  }

  /** Those the choice is among: a peer id goes before a name, a name before a model. */
  ghost function Hits(want: string, candidates: set<Worker>, nameOf: string -> Name): set<Worker>
  {
    if PeerHits(want, candidates, nameOf) != {} then PeerHits(want, candidates, nameOf)
    else if NameHits(want, candidates, nameOf) != {} then NameHits(want, candidates, nameOf)
    else ModelHits(want, candidates, nameOf)
  }

  /** A positive limit of tasks is reached. */
  predicate IsFull(p: Worker)
  {
    0 < p.maxTasks <= p.currentTasks
  }

  /** `p` carries less of its limit than `q`, or as much with less CPU in use; no limit counts as no load. */
  predicate IsLessLoaded(p: Worker, q: Worker)
  {
    if p.maxTasks > 0 && q.maxTasks > 0 then
      || p.currentTasks * q.maxTasks < q.currentTasks * p.maxTasks
      || (p.currentTasks * q.maxTasks == q.currentTasks * p.maxTasks && p.cpuUsagePct < q.cpuUsagePct)
    else if p.maxTasks > 0 then p.currentTasks < 0 || (p.currentTasks == 0 && p.cpuUsagePct < q.cpuUsagePct)
    else if q.maxTasks > 0 then q.currentTasks > 0 || (q.currentTasks == 0 && p.cpuUsagePct < q.cpuUsagePct)
    else p.cpuUsagePct < q.cpuUsagePct
  }

  /** The answer to a query, by the fields of the workers. */
  ghost predicate IsChoice(r: Result<Worker, SelectError>, want: string, candidates: set<Worker>, nameOf: string -> Name)
  {
    var hits := Hits(want, candidates, nameOf);
    if want == "" || hits == {} then r == Err(ModelNotFound)
    else if forall p | p in hits :: IsFull(p) then r == Err(MeshOverloaded)
    else r.Ok? && r.value in hits && !IsFull(r.value) && forall p | p in hits && !IsFull(p) :: !IsLessLoaded(p, r.value)
  }

  lemma {:induction false} RatioBelow(a: int, m: int, b: int, n: int)
    requires m > 0 && n > 0
    ensures a as real / m as real < b as real / n as real <==> a * n < b * m
  {
    var x, y := a as real / m as real, b as real / n as real;
    assert x * m as real == a as real && y * n as real == b as real;
    ScaledBelow(x, y, m, n);
    assert (a * n) as real == a as real * n as real && (b * m) as real == b as real * m as real;
    Regrouped(x, m as real, n as real);
    Regrouped(y, n as real, m as real);
  }

  lemma {:induction false} Regrouped(x: real, m: real, n: real)
    ensures x * (m * n) == (x * m) * n && m * n == n * m
  {
  }

  lemma {:induction false} ScaledBelow(x: real, y: real, m: int, n: int)
    requires m > 0 && n > 0
    ensures x < y <==> x * (m as real * n as real) < y * (m as real * n as real)
  {
    var k := m as real * n as real;
    assert k > 0.0;
    if x < y {
      assert (y - x) * k > 0.0;
    } else {
      assert (x - y) * k >= 0.0;
    }
  }

  lemma {:induction false} LoadSign(a: int, m: int)
    requires m > 0
    ensures a as real / m as real < 0.0 <==> a < 0
    ensures a as real / m as real > 0.0 <==> a > 0
  {
    RatioBelow(a, m, 0, 1);
    RatioBelow(0, 1, a, m);
  }

  lemma {:induction false} BetterIsLessLoaded(p: Worker, q: Worker)
    ensures Better(p, q) <==> IsLessLoaded(p, q)
  {
    if p.maxTasks > 0 {
      LoadSign(p.currentTasks, p.maxTasks);
    }
    if q.maxTasks > 0 {
      LoadSign(q.currentTasks, q.maxTasks);
    }
    if p.maxTasks > 0 && q.maxTasks > 0 {
      RatioBelow(p.currentTasks, p.maxTasks, q.currentTasks, q.maxTasks);
      RatioBelow(q.currentTasks, q.maxTasks, p.currentTasks, p.maxTasks);
    }
  }

  /** The first tier is the hits. */
  lemma {:induction false} FirstTierIsHits(t: nat, want: string, candidates: set<Worker>, nameOf: string -> Name)
    requires FirstTier(t, want, candidates, nameOf)
    ensures Hits(want, candidates, nameOf) == (set p | p in candidates && TierOf(p, want, nameOf) == t)
    ensures Hits(want, candidates, nameOf) != {}
  {
    var tier := set p | p in candidates && TierOf(p, want, nameOf) == t;
    var p :| p in candidates && TierOf(p, want, nameOf) == t;
    assert p in tier;
    assert t == 0 ==> tier == PeerHits(want, candidates, nameOf);
    assert t == 1 ==> tier == NameHits(want, candidates, nameOf);
    assert t == 2 ==> tier == ModelHits(want, candidates, nameOf);
    assert t > 0 ==> PeerHits(want, candidates, nameOf) == {};
    assert t > 1 ==> NameHits(want, candidates, nameOf) == {};
  }

  /** Whoever is best of the first tier is the choice by the fields. */
  lemma {:induction false} AnswerIsChoice(r: Result<Worker, SelectError>, want: string, candidates: set<Worker>,
                                          nameOf: string -> Name)
    requires r.Ok? ==> want != "" && IsBest(r.value, want, candidates, nameOf)
    requires r == Err(MeshOverloaded) ==> want != "" && FirstTierFull(want, candidates, nameOf)
    requires r == Err(ModelNotFound) ==> want == "" || forall p | p in candidates :: TierOf(p, want, nameOf) == 3
    ensures IsChoice(r, want, candidates, nameOf)
  {
    match r
    case Ok(w) =>
      FirstTierIsHits(TierOf(w, want, nameOf), want, candidates, nameOf);
      forall p | p in Hits(want, candidates, nameOf) && !IsFull(p) ensures !IsLessLoaded(p, w) {
        BetterIsLessLoaded(p, w);
      }
    case Err(MeshOverloaded) =>
      var t :| FirstTier(t, want, candidates, nameOf)
               && forall p | p in candidates && TierOf(p, want, nameOf) == t :: !Available(p);
      FirstTierIsHits(t, want, candidates, nameOf);
    case Err(ModelNotFound) =>
      if want != "" {
        NoTierNoHits(want, candidates, nameOf);
      }
  }

  lemma {:induction false} NoTierNoHits(want: string, candidates: set<Worker>, nameOf: string -> Name)
    requires forall p | p in candidates :: TierOf(p, want, nameOf) == 3
    ensures Hits(want, candidates, nameOf) == {}
  {
  }

  method SelectWorkerForModel(query: string, workers: map<Name, Worker>, nameOf: string -> Name)
    returns (r: Result<Worker, SelectError>)
    ensures r.Ok? ==> IsBest(r.value, Text.TrimSpace(query), workers.Values, nameOf)
    ensures r == Err(MeshOverloaded) <==>
              Text.TrimSpace(query) != "" && FirstTierFull(Text.TrimSpace(query), workers.Values, nameOf)
    ensures r == Err(ModelNotFound) <==>
              Text.TrimSpace(query) == ""
              || forall p | p in workers.Values :: TierOf(p, Text.TrimSpace(query), nameOf) == 3
    ensures IsChoice(r, Text.TrimSpace(query), workers.Values, nameOf)
  {
    var want := Text.TrimSpace(query);
    r := SelectTrimmed(want, workers, nameOf);
    AnswerIsChoice(r, want, workers.Values, nameOf);
  }

  method SelectTrimmed(want: string, workers: map<Name, Worker>, nameOf: string -> Name)
    returns (r: Result<Worker, SelectError>)
    ensures r.Ok? ==> want != "" && IsBest(r.value, want, workers.Values, nameOf)
    ensures r == Err(MeshOverloaded) <==> want != "" && FirstTierFull(want, workers.Values, nameOf)
    ensures r == Err(ModelNotFound) <==>
              want == "" || forall p | p in workers.Values :: TierOf(p, want, nameOf) == 3
  {
    if want == "" {
      return Err(ModelNotFound);
    }
    var tiers := CollectTiers(want, workers, nameOf);
    var t := 0;
    while t < 3
      invariant 0 <= t <= 3
      invariant forall p | p in workers.Values :: TierOf(p, want, nameOf) >= t
    {
      if tiers[t] != [] {
        var best := BestOf(tiers[t]);
        FirstTierDecides(t, tiers[t], want, workers.Values, nameOf, best);
        if best.None? {
          return Err(MeshOverloaded);
        }
        return Ok(best.value);
      }
      forall p | p in workers.Values ensures TierOf(p, want, nameOf) >= t + 1 {
        assert p !in tiers[t];
      }
      t := t + 1;
    }
    return Err(ModelNotFound);
  }

  /** Filters the active workers through the gate, then chooses among the rest. */
  method PickWorker(gate: Gate, activeWorkers: map<Name, Worker>, model: string, nameOf: string -> Name)
    returns (r: Result<Worker, SelectError>)
    ensures r.Ok? ==> CheckTrust(gate, r.value) == Allowed
    ensures r.Ok? ==> IsBest(r.value, Text.TrimSpace(model), Trusted(gate, activeWorkers), nameOf)
    ensures r == Err(ModelNotFound) <==>
              Text.TrimSpace(model) == ""
              || forall p | p in Trusted(gate, activeWorkers) :: TierOf(p, Text.TrimSpace(model), nameOf) == 3
    ensures r == Err(MeshOverloaded) <==>
              Text.TrimSpace(model) != ""
              && FirstTierFull(Text.TrimSpace(model), Trusted(gate, activeWorkers), nameOf)
    ensures IsChoice(r, Text.TrimSpace(model), Trusted(gate, activeWorkers), nameOf)
  {
    var filtered: map<Name, Worker> := map[];
    var todo := activeWorkers.Keys;
    while todo != {}
      invariant todo <= activeWorkers.Keys
      invariant forall k :: k in filtered <==>
                  k in activeWorkers && k !in todo && CheckTrust(gate, activeWorkers[k]) == Allowed
      invariant forall k | k in filtered :: filtered[k] == activeWorkers[k]
    {
      var k :| k in todo;
      if CheckTrust(gate, activeWorkers[k]).Allowed? {
        filtered := filtered[k := activeWorkers[k]];
      }
      todo := todo - {k};
    }
    TrustedAreFiltered(gate, activeWorkers, filtered);
    r := SelectWorkerForModel(model, filtered, nameOf);
  }

  ghost function Trusted(gate: Gate, workers: map<Name, Worker>): set<Worker>
  {
    set k | k in workers && CheckTrust(gate, workers[k]) == Allowed :: workers[k]
  }

  lemma TrustedAreFiltered(gate: Gate, workers: map<Name, Worker>, filtered: map<Name, Worker>)
    requires forall k :: k in filtered <==> k in workers && CheckTrust(gate, workers[k]) == Allowed
    requires forall k | k in filtered :: filtered[k] == workers[k]
    ensures filtered.Values == Trusted(gate, workers)
  {
    forall p | p in Trusted(gate, workers) ensures p in filtered.Values {
      var k :| k in workers && CheckTrust(gate, workers[k]) == Allowed && workers[k] == p;
      assert k in filtered;
    }
  }

  // ------------------------------------------------------------ permanent exclusion

  /**
   Once an alert brands a peer, then after any later events its score is the
   floor after every recomputation, the gate refuses every worker whose id
   decodes to it, and none such can be the choice among any workers.
   */
  lemma BrandedIsExcludedForever(
    n: LedgerModel.Node, alert: Envelopes.Alert, later: seq<LedgerModel.Event>,
    engine: Reputation.Engine, payloads: seq<Option<Claim>>, now: int, decay: real -> real,
    scores: Option<Table>, floor: real, w: Worker)
    requires n.mem.Some? && Envelopes.JudgeAlert(Some(alert)) == Envelopes.Marks
    requires Decode(w.peerId) == Some(alert.peer)
    ensures var branded := LedgerModel.Step(n, LedgerModel.AlertEvent(Some(alert), LedgerModel.Done));
            var marks := LedgerModel.Run(branded, later).disk.marks.Keys;
            && Get(engine.ScoresFor(payloads, Some(marks), now, decay), Rendered(alert.peer)) == EQUIVOCATOR_FLOOR
            && CheckTrust(Gate(Some(marks), scores, floor), w) == IsEquivocator
            && forall workers, want, nameOf ::
                 !IsBest(w, want, Trusted(Gate(Some(marks), scores, floor), workers), nameOf)
  {
    var branded := LedgerModel.Step(n, LedgerModel.AlertEvent(Some(alert), LedgerModel.Done));
    LedgerTheorems.MarksArePermanent(branded, later, alert.peer);
  }
}
