/** What the solver guarantees about whole recomputations. */
module EigenTrustTheorems {
  import opened Arithmetic
  import opened EigenTrust

  // ------------------------------------------------------------ sums over edges

  lemma {:induction false} AggConcat(a: seq<Edge>, b: seq<Edge>, p: Name, decay: real -> real)
    ensures AggOf(a + b, p, decay) == Plus(AggOf(a, p, decay), AggOf(b, p, decay))
    decreases |b|
  {
    if |b| == 0 {
      assert a + b == a;
    } else {
      var n := |b| - 1;
      assert (a + b)[..|a| + n] == a + b[..n];
      AggConcat(a, b[..n], p, decay);
    }
  }

  lemma AggOfOne(e: Edge, p: Name, decay: real -> real)
    ensures AggOf([e], p, decay) == EdgeTerm(e, p, decay)
  {
    assert [e][..0] == [];
  }

  lemma TakeOut<T>(s: seq<T>, x: T) returns (i: nat)
    requires x in multiset(s)
    ensures i < |s| && s[i] == x
    ensures multiset(s[..i] + s[i + 1..]) == multiset(s) - multiset{x}
  {
    assert x in s;
    i :| 0 <= i < |s| && s[i] == x;
    assert s == s[..i] + [x] + s[i + 1..];
  }

  /** An edge counts the same wherever it stands. */
  lemma AggInsert(l: seq<Edge>, e: Edge, r: seq<Edge>, p: Name, decay: real -> real)
    ensures AggOf(l + [e] + r, p, decay) == Plus(AggOf(l + r, p, decay), EdgeTerm(e, p, decay))
  {
    AggConcat(l + [e], r, p, decay);
    AggConcat(l, [e], p, decay);
    AggConcat(l, r, p, decay);
    AggOfOne(e, p, decay);
    PlusShuffles(AggOf(l, p, decay), EdgeTerm(e, p, decay), AggOf(r, p, decay));
  }

  lemma PlusShuffles(a: Aggregate, b: Aggregate, c: Aggregate)
    ensures Plus(Plus(a, b), c) == Plus(Plus(a, c), b)
  {
  }

  lemma {:induction false} LastApart<T>(s: seq<T>)
    requires |s| > 0
    ensures s[|s| - 1] in multiset(s) && multiset(s) - multiset{s[|s| - 1]} == multiset(s[..|s| - 1])
  {
    assert s == s[..|s| - 1] + [s[|s| - 1]];
  }

  lemma {:induction false} Reassembled<T>(s: seq<T>, i: nat)
    requires i < |s|
    ensures s[..i] + [s[i]] + s[i + 1..] == s
  {
  }

  /** The order of one rater's edges does not matter. */
  lemma {:induction false} AggPermutes(a: seq<Edge>, b: seq<Edge>, p: Name, decay: real -> real)
    requires multiset(a) == multiset(b)
    ensures AggOf(a, p, decay) == AggOf(b, p, decay)
    decreases |a|
  {
    if |a| == 0 {
      assert |multiset(b)| == 0;
    } else {
      var last, front := a[|a| - 1], a[..|a| - 1];
      LastApart(a);
      var i := TakeOut(b, last);
      AggPermutes(front, b[..i] + b[i + 1..], p, decay);
      AggInsert(b[..i], last, b[i + 1..], p, decay);
      Reassembled(b, i);
    }
  }

  lemma {:induction false} AggWithoutSubject(es: seq<Edge>, p: Name, decay: real -> real)
    requires forall e | e in es :: e.subject != p
    ensures AggOf(es, p, decay) == NOTHING
  {
    if |es| > 0 {
      AggWithoutSubject(es[..|es| - 1], p, decay);
    }
  }

  // ------------------------------------------------------------ sums over raters

  /** Sums over the same raters agree when every vote does. */
  lemma {:induction false} SumAgree(rs: set<Name>, v: Name -> Aggregate, w: Name -> Aggregate)
    requires forall r | r in rs :: v(r) == w(r)
    ensures Sum(rs, v) == Sum(rs, w)
    decreases rs
  {
    if rs != {} {
      var r :| r in rs;
      SumFrom(rs, r, v);
      SumFrom(rs, r, w);
      SumAgree(rs - {r}, v, w);
    }
  }

  /** Raters whose vote is nothing can be left out. */
  lemma {:induction false} SumDrop(rs: set<Name>, silent: set<Name>, v: Name -> Aggregate)
    requires forall r | r in rs && r in silent :: v(r) == NOTHING
    ensures Sum(rs, v) == Sum(rs - silent, v)
    decreases rs
  {
    if rs == {} {
      assert rs - silent == {};
    } else {
      var r :| r in rs;
      SumFrom(rs, r, v);
      SumDrop(rs - {r}, silent, v);
      if r in silent {
        assert rs - {r} - silent == rs - silent;
      } else {
        SumFrom(rs - silent, r, v);
        assert rs - silent - {r} == rs - {r} - silent;
      }
    }
  }

  // ------------------------------------------------------------ Sybil isolation

  /** No member has seed weight and nobody outside rates a member. */
  ghost predicate Isolated(members: set<Name>, pr: Problem)
  {
    && (forall s | s in members :: Get(pr.seeds, s) == 0.0)
    && (forall r, e | r in pr.graph && r !in members && e in pr.graph[r] :: e.subject !in members)
  }

  /** The same problem without anything the members said. */
  function Silenced(members: set<Name>, pr: Problem): Problem
  {
    pr.(graph := pr.graph - members)
  }

  /** Two tables give every peer the same score, and members none. */
  ghost predicate Alike(members: set<Name>, a: Table, b: Table)
  {
    && (forall p :: Get(a, p) == Get(b, p))
    && (forall s | s in members :: Get(a, s) == 0.0)
  }

  lemma SilencedVotes(members: set<Name>, pr: Problem, cur: Table, cur2: Table, p: Name)
    requires Isolated(members, pr) && Alike(members, cur, cur2)
    ensures Votes(pr, cur, p) == Votes(Silenced(members, pr), cur2, p)
  {
    var pr2 := Silenced(members, pr);
    var v, v2 := VotesAbout(pr, cur, p), VotesAbout(pr2, cur2, p);
    forall r | r in pr.graph.Keys && r in members ensures v(r) == NOTHING {
      assert Weight(cur, pr.seeds, r) == 0.0;
    }
    SumDrop(pr.graph.Keys, members, v);
    assert pr.graph.Keys - members == pr2.graph.Keys;
    forall r | r in pr2.graph.Keys ensures v(r) == v2(r) {
      assert Weight(cur, pr.seeds, r) == Weight(cur2, pr2.seeds, r);
    }
    SumAgree(pr2.graph.Keys, v, v2);
  }

  lemma UnratedGetNothing(pr: Problem, cur: Table, p: Name)
    requires p !in Subjects(pr.graph)
    ensures Votes(pr, cur, p) == NOTHING
  {
    var v := VotesAbout(pr, cur, p);
    forall r | r in pr.graph.Keys ensures v(r) == NOTHING {
      forall e | e in pr.graph[r] ensures e.subject != p {
        assert e.subject in Subjects(pr.graph);
      }
      AggWithoutSubject(pr.graph[r], p, pr.decay);
    }
    SumDrop(pr.graph.Keys, pr.graph.Keys, v);
    assert pr.graph.Keys - pr.graph.Keys == {};
  }

  lemma SilencedRaw(members: set<Name>, pr: Problem, cur: Table, cur2: Table, p: Name)
    requires Isolated(members, pr) && Alike(members, cur, cur2)
    ensures Raw(pr, cur, p) == Raw(Silenced(members, pr), cur2, p)
    ensures p in members || p !in Universe(Silenced(members, pr)) ==> Raw(pr, cur, p) == 0.0
  {
    var pr2 := Silenced(members, pr);
    SilencedVotes(members, pr, cur, cur2, p);
    if p in members || p !in Universe(pr2) {
      forall r, e | r in pr2.graph && e in pr2.graph[r] ensures p in members ==> e.subject != p {
        assert pr2.graph[r] == pr.graph[r];
      }
      UnratedGetNothing(pr2, cur2, p);
    }
  }

  lemma SilencedUniverse(members: set<Name>, pr: Problem)
    ensures Universe(Silenced(members, pr)) <= Universe(pr)
  {
    var pr2 := Silenced(members, pr);
    forall s | s in Subjects(pr2.graph) ensures s in Subjects(pr.graph) {
      var r, e :| r in pr2.graph && e in pr2.graph[r] && e.subject == s;
      assert r in pr.graph && e in pr.graph[r];
    }
  }

  lemma SilencedPass(members: set<Name>, pr: Problem, cur: Table, cur2: Table)
    requires Isolated(members, pr) && Alike(members, cur, cur2)
    requires cur.Keys == Universe(pr) && cur2.Keys == Universe(Silenced(members, pr))
    ensures var pr2 := Silenced(members, pr);
            var next, next2 := NextTable(pr, cur), NextTable(pr2, cur2);
            && Alike(members, next, next2)
            && (Converged(next, cur, pr.tolerance) <==> Converged(next2, cur2, pr2.tolerance))
  {
    var pr2 := Silenced(members, pr);
    var next, next2 := NextTable(pr, cur), NextTable(pr2, cur2);
    SilencedUniverse(members, pr);
    forall p ensures Get(next, p) == Get(next2, p) && (p in members || p !in next2 ==> Get(next, p) == 0.0) {
      SilencedRaw(members, pr, cur, cur2, p);
    }
    SameConvergence(next, cur, next2, cur2, pr.tolerance);
  }

  /** Absent peers count as zero, so tables that agree converge together. */
  lemma SameConvergence(next: Table, cur: Table, next2: Table, cur2: Table, tolerance: real)
    requires forall p :: Get(next, p) == Get(next2, p) && Get(cur, p) == Get(cur2, p)
    requires next2.Keys <= next.Keys && cur2.Keys <= next2.Keys
    ensures Converged(next, cur, tolerance) <==> Converged(next2, cur2, tolerance)
  {
    if Converged(next2, cur2, tolerance) {
      forall p | p in next ensures Abs(next[p] - Get(cur, p)) < tolerance {
        assert next[p] == Get(next, p) == Get(next2, p);
        if p in next2 {
          assert Abs(next2[p] - Get(cur2, p)) < tolerance;
        } else {
          assert Get(cur, p) == Get(cur2, p) == 0.0;
        }
      }
    }
    if Converged(next, cur, tolerance) {
      forall p | p in next2 ensures Abs(next2[p] - Get(cur2, p)) < tolerance {
        assert next2[p] == Get(next2, p) == Get(next, p) == next[p];
      }
    }
  }

  /** Passes that keep tables alike, and converge together, run alike. */
  lemma {:induction false} RunsAlike(members: set<Name>, f: Table -> Table, g: Table -> Table, tolerance: real,
                                     all: set<Name>, fewer: set<Name>, a: Table, b: Table, bound: nat)
    requires Alike(members, a, b) && a.Keys == all && b.Keys == fewer
    requires StayAlike(members, f, g, tolerance, all, fewer)
    ensures Alike(members, Iterate(f, tolerance, a, bound), Iterate(g, tolerance, b, bound))
    ensures Passes(f, tolerance, a, bound) == Passes(g, tolerance, b, bound)
    decreases bound
  {
    if bound > 0 {
      RunsAlike(members, f, g, tolerance, all, fewer, f(a), g(b), bound - 1);
    }
  }

  lemma PassesStayAlike(members: set<Name>, pr: Problem, c: Table, d: Table)
    requires Isolated(members, pr) && Alike(members, c, d)
    requires c.Keys == Universe(pr) && d.Keys == Universe(Silenced(members, pr))
    ensures var f, g := PassOf(pr), PassOf(Silenced(members, pr));
            && Alike(members, f(c), g(d))
            && f(c).Keys == Universe(pr) && g(d).Keys == Universe(Silenced(members, pr))
            && (Converged(f(c), c, pr.tolerance) <==> Converged(g(d), d, pr.tolerance))
  {
    SilencedPass(members, pr, c, d);
  }

  /** The two passes keep tables alike and converge together. */
  ghost predicate StayAlike(members: set<Name>, f: Table -> Table, g: Table -> Table, tolerance: real,
                            all: set<Name>, fewer: set<Name>)
  {
    forall c, d {:trigger f(c), g(d)} | Alike(members, c, d) && c.Keys == all && d.Keys == fewer ::
      && Alike(members, f(c), g(d)) && f(c).Keys == all && g(d).Keys == fewer
      && (Converged(f(c), c, tolerance) <==> Converged(g(d), d, tolerance))
  }

  lemma SilencedStaysAlike(members: set<Name>, pr: Problem)
    requires Isolated(members, pr)
    ensures StayAlike(members, PassOf(pr), PassOf(Silenced(members, pr)), pr.tolerance,
                      Universe(pr), Universe(Silenced(members, pr)))
  {
    forall c, d | Alike(members, c, d) && c.Keys == Universe(pr) && d.Keys == Universe(Silenced(members, pr))
      ensures var f, g := PassOf(pr), PassOf(Silenced(members, pr));
              && Alike(members, f(c), g(d))
              && f(c).Keys == Universe(pr) && g(d).Keys == Universe(Silenced(members, pr))
              && (Converged(f(c), c, pr.tolerance) <==> Converged(g(d), d, pr.tolerance))
    {
      PassesStayAlike(members, pr, c, d);
    }
  }

  lemma {:induction false} StartAlike(members: set<Name>, pr: Problem)
    requires Isolated(members, pr)
    ensures Alike(members, Start(pr), Start(Silenced(members, pr)))
  {
    SilencedUniverse(members, pr);
  }

  lemma {:induction false} SilencedRuns(members: set<Name>, pr: Problem, maxIterations: int)
    requires Isolated(members, pr)
    ensures PassesToSolve(pr, maxIterations) == PassesToSolve(Silenced(members, pr), maxIterations)
    ensures Alike(members, Solution(pr, maxIterations), Solution(Silenced(members, pr), maxIterations))
  {
    var pr2 := Silenced(members, pr);
    StartAlike(members, pr);
    SilencedStaysAlike(members, pr);
    RunsAlike(members, PassOf(pr), PassOf(pr2), pr.tolerance, Universe(pr), Universe(pr2), Start(pr), Start(pr2),
              Bound(maxIterations));
  }

  /**
   A set of peers without seed weight that nobody outside rates scores zero after
   any number of passes, and removing all it said changes neither the number of
   passes nor anybody's score, with or without the equivocator floor.
   */
  lemma {:induction false} SybilIsolation(members: set<Name>, pr: Problem, maxIterations: int, marked: set<Name>)
    requires Isolated(members, pr)
    ensures PassesToSolve(pr, maxIterations) == PassesToSolve(Silenced(members, pr), maxIterations)
    ensures var t, t2 := Solution(pr, maxIterations), Solution(Silenced(members, pr), maxIterations);
            && (forall s | s in members :: Get(t, s) == 0.0)
            && (forall p :: Get(t, p) == Get(t2, p))
            && (forall p :: Get(Floored(t, marked), p) == Get(Floored(t2, marked), p))
  {
    SilencedRuns(members, pr, maxIterations);
    FlooredAlike(Solution(pr, maxIterations), Solution(Silenced(members, pr), maxIterations), marked);
  }

  lemma {:induction false} FlooredAlike(t: Table, t2: Table, marked: set<Name>)
    requires forall p :: Get(t, p) == Get(t2, p)
    ensures forall p :: Get(Floored(t, marked), p) == Get(Floored(t2, marked), p)
  {
    forall p ensures Get(Floored(t, marked), p) == Get(Floored(t2, marked), p) {
      FloorIsExact(t, marked, p);
      FloorIsExact(t2, marked, p);
    }
  }

  // ------------------------------------------------------------ spam collapse

  function Without(es: seq<Edge>, s: Name): (r: seq<Edge>)
    ensures forall e :: e in r <==> e in es && e.subject != s
  {
    if |es| == 0 then []
    else
      var front, last := Without(es[..|es| - 1], s), es[|es| - 1];
      assert es == es[..|es| - 1] + [last];
      if last.subject == s then front else front + [last]
  }

  lemma {:induction false} AggOfOthers(es: seq<Edge>, s: Name, p: Name, decay: real -> real)
    requires p != s
    ensures AggOf(Without(es, s), p, decay) == AggOf(es, p, decay)
  {
    if |es| > 0 {
      var last := es[|es| - 1];
      AggOfOthers(es[..|es| - 1], s, p, decay);
      if last.subject != s {
        AggConcat(Without(es[..|es| - 1], s), [last], p, decay);
        AggOfOne(last, p, decay);
      }
    }
  }

  /** `one` is `es` with everything about `s` replaced by its weighted mean, at any age and any place. */
  ghost predicate Collapses(es: seq<Edge>, one: seq<Edge>, s: Name, age: real, at: nat, decay: real -> real)
  {
    var agg, rest := AggOf(es, s, decay), Without(es, s);
    && agg.weight != 0.0 && decay(age) != 0.0
    && at <= |rest|
    && one == rest[..at] + [Edge(s, agg.value / agg.weight, age)] + rest[at..]
  }

  lemma MeanOfMean(agg: Aggregate, mean: real, d: real, weight: real)
    requires agg.weight != 0.0 && d != 0.0 && mean == agg.value / agg.weight
    ensures MeanVote(Aggregate(d * mean, d), weight) == MeanVote(agg, weight)
  {
    assert (d * mean) / d == mean;
  }

  lemma CollapsedAgg(es: seq<Edge>, s: Name, e: Edge, l: seq<Edge>, r: seq<Edge>, decay: real -> real, p: Name)
    requires e.subject == s && l + r == Without(es, s)
    ensures AggOf(l + [e] + r, p, decay) == if p == s then EdgeTerm(e, p, decay) else AggOf(es, p, decay)
  {
    AggInsert(l, e, r, p, decay);
    if p == s {
      AggWithoutSubject(l + r, s, decay);
      PlusNothing(EdgeTerm(e, p, decay));
    } else {
      AggOfOthers(es, s, p, decay);
      PlusNothing(AggOf(l + r, p, decay));
    }
  }

  lemma PlusNothing(a: Aggregate)
    ensures Plus(a, NOTHING) == a == Plus(NOTHING, a)
  {
  }

  lemma CollapsedVote(es: seq<Edge>, one: seq<Edge>, s: Name, age: real, at: nat, decay: real -> real,
                      weight: real, p: Name)
    requires Collapses(es, one, s, age, at, decay)
    ensures Vote(one, weight, p, decay) == Vote(es, weight, p, decay)
  {
    var rest := Without(es, s);
    assert rest[..at] + rest[at..] == rest;
    CollapsedAgg(es, s, one[at], rest[..at], rest[at..], decay, p);
    if p == s {
      OneEdgeVote(one[at], AggOf(es, s, decay), weight, decay);
    }
  }

  /** A single edge with the mean of an aggregate casts the aggregate's vote. */
  lemma OneEdgeVote(e: Edge, agg: Aggregate, weight: real, decay: real -> real)
    requires agg.weight != 0.0 && decay(e.ageDays) != 0.0 && e.value == agg.value / agg.weight
    ensures MeanVote(EdgeTerm(e, e.subject, decay), weight) == MeanVote(agg, weight)
  {
    MeanOfMean(agg, e.value, decay(e.ageDays), weight);
  }

  function SubjectsOf(es: seq<Edge>): set<Name>
  {
    set e | e in es :: e.subject
  }

  lemma CollapsedSubjects(es: seq<Edge>, one: seq<Edge>, s: Name, age: real, at: nat, decay: real -> real)
    requires Collapses(es, one, s, age, at, decay)
    ensures SubjectsOf(one) == SubjectsOf(es)
  {
    var rest := Without(es, s);
    var mean := one[at];
    if forall e | e in es :: e.subject != s {
      AggWithoutSubject(es, s, decay);
    }
    var about :| about in es && about.subject == s;
    forall e ensures e in one <==> e in rest || e == mean {
      assert rest == rest[..at] + rest[at..];
    }
    forall n ensures n in SubjectsOf(one) <==> n in SubjectsOf(es) {
      if n in SubjectsOf(es) {
        if n == s {
          assert mean in one && mean.subject == s;
        } else {
          var e :| e in es && e.subject == n;
          assert e in one;
        }
      }
      if n in SubjectsOf(one) {
        var e :| e in one && e.subject == n;
        if e in rest {
          assert e in es;
        } else {
          assert about.subject == n;
        }
      }
    }
  }

  lemma SubjectsByRater(g: Graph, r: Name, es: seq<Edge>)
    requires r in g && SubjectsOf(g[r]) == SubjectsOf(es)
    ensures Subjects(g[r := es]) == Subjects(g)
  {
    SubjectsInclude(g, r, es);
    SubjectsInclude(g[r := es], r, g[r]);
    assert g[r := es][r := g[r]] == g;
  }

  lemma SubjectsInclude(g: Graph, r: Name, es: seq<Edge>)
    requires r in g && SubjectsOf(g[r]) == SubjectsOf(es)
    ensures Subjects(g) <= Subjects(g[r := es])
  {
    var h := g[r := es];
    forall s | s in Subjects(g) ensures s in Subjects(h) {
      var q, e :| q in g && e in g[q] && e.subject == s;
      if q == r {
        assert s in SubjectsOf(es);
        var f :| f in es && f.subject == s;
        assert f in h[r];
      } else {
        assert e in h[q];
      }
    }
  }

  lemma {:induction false} SamePassSameRun(f: Table -> Table, g: Table -> Table, tolerance: real, cur: Table, bound: nat)
    requires forall c :: f(c) == g(c)
    ensures Iterate(f, tolerance, cur, bound) == Iterate(g, tolerance, cur, bound)
    ensures Passes(f, tolerance, cur, bound) == Passes(g, tolerance, cur, bound)
    decreases bound
  {
    if bound > 0 {
      SamePassSameRun(f, g, tolerance, f(cur), bound - 1);
    }
  }

  lemma {:induction false} SameVotesSameRaw(pr1: Problem, pr2: Problem, c: Table, p: Name)
    requires pr1.graph.Keys == pr2.graph.Keys && pr1.seeds == pr2.seeds && pr1.mixing == pr2.mixing
    requires forall r | r in pr1.graph :: VoteOf(pr1, c, r, p) == VoteOf(pr2, c, r, p)
    ensures Raw(pr1, c, p) == Raw(pr2, c, p)
  {
    SumAgree(pr1.graph.Keys, VotesAbout(pr1, c, p), VotesAbout(pr2, c, p));
  }

  lemma {:induction false} SameVotesSamePass(pr1: Problem, pr2: Problem, c: Table)
    requires pr1.graph.Keys == pr2.graph.Keys && Universe(pr1) == Universe(pr2)
    requires pr1.seeds == pr2.seeds && pr1.mixing == pr2.mixing
    requires forall r, p | r in pr1.graph :: VoteOf(pr1, c, r, p) == VoteOf(pr2, c, r, p)
    ensures NextTable(pr1, c) == NextTable(pr2, c)
  {
    forall p ensures Raw(pr1, c, p) == Raw(pr2, c, p) {
      SameVotesSameRaw(pr1, pr2, c, p);
    }
  }

  /** Problems with the same peers and the same votes have the same runs. */
  lemma SameVotesSameRun(pr1: Problem, pr2: Problem, maxIterations: int)
    requires pr1.graph.Keys == pr2.graph.Keys && Universe(pr1) == Universe(pr2)
    requires pr1.seeds == pr2.seeds && pr1.mixing == pr2.mixing && pr1.tolerance == pr2.tolerance
    requires forall c: Table, r, p | r in pr1.graph :: VoteOf(pr1, c, r, p) == VoteOf(pr2, c, r, p)
    ensures Solution(pr1, maxIterations) == Solution(pr2, maxIterations)
    ensures PassesToSolve(pr1, maxIterations) == PassesToSolve(pr2, maxIterations)
  {
    forall c ensures PassOf(pr1)(c) == PassOf(pr2)(c) {
      SameVotesSamePass(pr1, pr2, c);
    }
    assert Start(pr1) == Start(pr2);
    SamePassSameRun(PassOf(pr1), PassOf(pr2), pr1.tolerance, Start(pr1), Bound(maxIterations));
  }

  /**
   However many edges a rater sends about one subject, replacing them by a single
   edge that holds their weighted mean leaves every score and the number of passes
   as they were.
   */
  lemma SpamCollapse(pr: Problem, r: Name, one: seq<Edge>, s: Name, age: real, at: nat, maxIterations: int)
    requires r in pr.graph && Collapses(pr.graph[r], one, s, age, at, pr.decay)
    ensures Solution(pr.(graph := pr.graph[r := one]), maxIterations) == Solution(pr, maxIterations)
    ensures PassesToSolve(pr.(graph := pr.graph[r := one]), maxIterations) == PassesToSolve(pr, maxIterations)
  {
    var pr2 := pr.(graph := pr.graph[r := one]);
    CollapsedSubjects(pr.graph[r], one, s, age, at, pr.decay);
    SubjectsByRater(pr.graph, r, one);
    assert pr2.graph.Keys == pr.graph.Keys;
    forall c: Table, q, p | q in pr.graph ensures VoteOf(pr2, c, q, p) == VoteOf(pr, c, q, p) {
      if q == r {
        CollapsedVote(pr.graph[r], one, s, age, at, pr.decay, Weight(c, pr.seeds, r), p);
      }
    }
    SameVotesSameRun(pr2, pr, maxIterations);
  }

  /** Permuting what any rater's edges arrive in changes nothing. */
  lemma OrderOfEdgesIrrelevant(pr: Problem, r: Name, es: seq<Edge>, maxIterations: int)
    requires r in pr.graph && multiset(es) == multiset(pr.graph[r])
    ensures Solution(pr.(graph := pr.graph[r := es]), maxIterations) == Solution(pr, maxIterations)
    ensures PassesToSolve(pr.(graph := pr.graph[r := es]), maxIterations) == PassesToSolve(pr, maxIterations)
  {
    var pr2 := pr.(graph := pr.graph[r := es]);
    SameElementsSameSubjects(es, pr.graph[r]);
    SubjectsByRater(pr.graph, r, es);
    assert pr2.graph.Keys == pr.graph.Keys;
    forall c: Table, q, p | q in pr.graph ensures VoteOf(pr2, c, q, p) == VoteOf(pr, c, q, p) {
      if q == r {
        AggPermutes(es, pr.graph[r], p, pr.decay);
      }
    }
    SameVotesSameRun(pr2, pr, maxIterations);
  }

  lemma SameElementsSameSubjects(a: seq<Edge>, b: seq<Edge>)
    requires multiset(a) == multiset(b)
    ensures SubjectsOf(b) == SubjectsOf(a)
  {
    forall e ensures e in a <==> e in b {
      assert e in a <==> e in multiset(a);
      assert e in b <==> e in multiset(b);
    }
  }

  // ------------------------------------------------------------ bounds

  ghost predicate InUnit(t: Table)
  {
    forall p :: -1.0 <= Get(t, p) <= 1.0
  }

  lemma ClampedPass(pr: Problem, cur: Table)
    ensures InUnit(NextTable(pr, cur))
  {
    forall p ensures -1.0 <= Get(NextTable(pr, cur), p) <= 1.0 {
    }
  }

  lemma {:induction false} IterateInUnit(f: Table -> Table, tolerance: real, cur: Table, bound: nat)
    requires InUnit(cur) && forall c :: InUnit(f(c))
    ensures InUnit(Iterate(f, tolerance, cur, bound))
    decreases bound
  {
    if bound > 0 {
      IterateInUnit(f, tolerance, f(cur), bound - 1);
    }
  }

  /** Whatever was rated, the final table stays within [-1, 1]. */
  lemma ScoresInUnit(pr: Problem, maxIterations: int, marked: set<Name>)
    requires InUnit(pr.seeds)
    ensures InUnit(Floored(Solution(pr, maxIterations), marked))
  {
    forall p ensures -1.0 <= Get(Start(pr), p) <= 1.0 {
      assert -1.0 <= Get(pr.seeds, p) <= 1.0;
    }
    forall c ensures InUnit(PassOf(pr)(c)) {
      ClampedPass(pr, c);
    }
    IterateInUnit(PassOf(pr), pr.tolerance, Start(pr), Bound(maxIterations));
    var t := Solution(pr, maxIterations);
    forall p ensures -1.0 <= Get(Floored(t, marked), p) <= 1.0 {
      assert -1.0 <= Get(t, p) <= 1.0;
    }
  }

  /** The weighted sum lies between two multiples of the weight. */
  predicate Between(a: Aggregate, lo: real, hi: real)
  {
    lo * a.weight <= a.value <= hi * a.weight
  }

  lemma ScaledBetween(w: real, v: real, lo: real, hi: real)
    requires w >= 0.0 && lo <= v <= hi
    ensures Between(Aggregate(w * v, w), lo, hi)
  {
    assert w * v - lo * w == w * (v - lo);
    assert hi * w - w * v == w * (hi - v);
  }

  lemma PlusBetween(a: Aggregate, b: Aggregate, lo: real, hi: real)
    requires Between(a, lo, hi) && Between(b, lo, hi)
    ensures Between(Plus(a, b), lo, hi)
  {
    assert lo * (a.weight + b.weight) == lo * a.weight + lo * b.weight;
    assert hi * (a.weight + b.weight) == hi * a.weight + hi * b.weight;
  }

  lemma NothingBetween(lo: real, hi: real)
    ensures Between(NOTHING, lo, hi)
  {
  }

  lemma QuotientBetween(a: Aggregate, lo: real, hi: real)
    requires a.weight > 0.0 && Between(a, lo, hi)
    ensures lo <= a.value / a.weight <= hi
  {
    var q := a.value / a.weight;
    assert q * a.weight == a.value;
    NotBelow(q, lo, a.weight);
    NotBelow(hi, q, a.weight);
  }

  lemma NotBelow(x: real, y: real, w: real)
    requires w > 0.0 && x * w >= y * w
    ensures x >= y
  {
    assert y * w - x * w == (y - x) * w;
  }

  lemma {:induction false} AggBetween(es: seq<Edge>, p: Name, decay: real -> real, lo: real, hi: real)
    requires forall a :: decay(a) >= 0.0
    requires forall e | e in es && e.subject == p :: lo <= e.value <= hi
    ensures Between(AggOf(es, p, decay), lo, hi) && AggOf(es, p, decay).weight >= 0.0
  {
    if |es| == 0 {
      NothingBetween(lo, hi);
    } else {
      var front, e := es[..|es| - 1], es[|es| - 1];
      AggBetween(front, p, decay, lo, hi);
      EdgeBetween(e, p, decay, lo, hi);
      PlusBetween(AggOf(front, p, decay), EdgeTerm(e, p, decay), lo, hi);
    }
  }

  lemma EdgeBetween(e: Edge, p: Name, decay: real -> real, lo: real, hi: real)
    requires decay(e.ageDays) >= 0.0 && (e.subject == p ==> lo <= e.value <= hi)
    ensures Between(EdgeTerm(e, p, decay), lo, hi) && EdgeTerm(e, p, decay).weight >= 0.0
  {
    if e.subject == p {
      ScaledBetween(decay(e.ageDays), e.value, lo, hi);
    } else {
      NothingBetween(lo, hi);
    }
  }

  lemma MeanBetween(agg: Aggregate, weight: real, lo: real, hi: real)
    requires Between(agg, lo, hi) && agg.weight >= 0.0 && weight >= 0.0
    ensures Between(MeanVote(agg, weight), lo, hi) && MeanVote(agg, weight).weight >= 0.0
  {
    if weight == 0.0 || agg.weight == 0.0 {
      NothingBetween(lo, hi);
    } else {
      QuotientBetween(agg, lo, hi);
      ScaledBetween(weight, agg.value / agg.weight, lo, hi);
    }
  }

  lemma {:induction false} SumBetween(rs: set<Name>, v: Name -> Aggregate, lo: real, hi: real)
    requires forall r | r in rs :: Between(v(r), lo, hi) && v(r).weight >= 0.0
    ensures Between(Sum(rs, v), lo, hi) && Sum(rs, v).weight >= 0.0
    decreases rs
  {
    if rs == {} {
      NothingBetween(lo, hi);
    } else {
      var r :| r in rs;
      SumFrom(rs, r, v);
      SumBetween(rs - {r}, v, lo, hi);
      PlusBetween(v(r), Sum(rs - {r}, v), lo, hi);
    }
  }

  lemma MixBetween(m: real, avg: real, seed: real, lo: real, hi: real)
    requires 0.0 <= m <= 1.0 && lo <= avg <= hi
    ensures (1.0 - m) * lo + m * seed <= (1.0 - m) * avg + m * seed <= (1.0 - m) * hi + m * seed
  {
    ScaledBetween(1.0 - m, avg, lo, hi);
  }

  /** No negative seeds or age weights, and a mixing factor in [0, 1]. */
  ghost predicate Weighable(pr: Problem)
  {
    && (forall p :: Get(pr.seeds, p) >= 0.0)
    && (forall a :: pr.decay(a) >= 0.0)
    && 0.0 <= pr.mixing <= 1.0
  }

  /** Everything anybody says about `p` lies in [lo, hi]. */
  ghost predicate RatedWithin(pr: Problem, p: Name, lo: real, hi: real)
  {
    forall r, e | r in pr.graph && e in pr.graph[r] && e.subject == p :: lo <= e.value <= hi
  }

  lemma VotesBetween(pr: Problem, cur: Table, p: Name, lo: real, hi: real)
    requires Weighable(pr) && RatedWithin(pr, p, lo, hi)
    ensures Between(Votes(pr, cur, p), lo, hi) && Votes(pr, cur, p).weight >= 0.0
  {
    forall r | r in pr.graph.Keys
      ensures Between(VotesAbout(pr, cur, p)(r), lo, hi) && VotesAbout(pr, cur, p)(r).weight >= 0.0
    {
      assert Get(pr.seeds, r) >= 0.0;
      AggBetween(pr.graph[r], p, pr.decay, lo, hi);
      MeanBetween(AggOf(pr.graph[r], p, pr.decay), Weight(cur, pr.seeds, r), lo, hi);
    }
    SumBetween(pr.graph.Keys, VotesAbout(pr, cur, p), lo, hi);
  }

  /**
   Whoever rates and whatever their weights, a peer's next score is its seed if no
   vote about it counts, and otherwise lies between the lowest and the highest
   opinion of it, mixed with its seed; unanimous opinions fix it.
   */
  lemma ScoreFollowsVotes(pr: Problem, cur: Table, p: Name, lo: real, hi: real)
    requires Weighable(pr) && RatedWithin(pr, p, lo, hi)
    ensures var seed, m := Get(pr.seeds, p), pr.mixing;
            if Votes(pr, cur, p).weight == 0.0 then Raw(pr, cur, p) == seed
            else (1.0 - m) * lo + m * seed <= Raw(pr, cur, p) <= (1.0 - m) * hi + m * seed
  {
    VotesBetween(pr, cur, p, lo, hi);
    var votes := Votes(pr, cur, p);
    if votes.weight != 0.0 {
      QuotientBetween(votes, lo, hi);
      MixBetween(pr.mixing, votes.value / votes.weight, Get(pr.seeds, p), lo, hi);
    }
  }

  /** With seeds and mixing in [0, 1] and ratings in [-1, 1] the clamp never acts. */
  lemma ClampNeverActs(pr: Problem, cur: Table, p: Name)
    requires Weighable(pr) && Get(pr.seeds, p) <= 1.0 && RatedWithin(pr, p, -1.0, 1.0)
    ensures -1.0 <= Raw(pr, cur, p) <= 1.0
    ensures Clamp(Raw(pr, cur, p)) == Raw(pr, cur, p)
  {
    assert Get(pr.seeds, p) >= 0.0;
    ScoreFollowsVotes(pr, cur, p, -1.0, 1.0);
    if Votes(pr, cur, p).weight != 0.0 {
      MixStaysInUnit(pr.mixing, Get(pr.seeds, p), Raw(pr, cur, p));
    }
  }

  lemma MixStaysInUnit(m: real, seed: real, raw: real)
    requires 0.0 <= m <= 1.0 && 0.0 <= seed <= 1.0
    requires (1.0 - m) * -1.0 + m * seed <= raw <= (1.0 - m) * 1.0 + m * seed
    ensures -1.0 <= raw <= 1.0
  {
    ScaledBetween(m, seed, 0.0, 1.0);
  }

  // ------------------------------------------------------------ marks and repetition

  /** The floor overrides everything, and touches nobody else. */
  lemma FloorIsExact(t: Table, marked: set<Name>, p: Name)
    ensures p in marked ==> Get(Floored(t, marked), p) == EQUIVOCATOR_FLOOR
    ensures p !in marked ==> Get(Floored(t, marked), p) == Get(t, p)
  {
  }

  /** The reported change is unique, and zero when a table replaces itself. */
  lemma ChangeIsUnique(d: real, e: real, cur: Table, prev: Table)
    requires IsMaxChange(d, cur, prev) && IsMaxChange(e, cur, prev)
    ensures d == e
    ensures cur == prev ==> d == 0.0
  {
  }
}
