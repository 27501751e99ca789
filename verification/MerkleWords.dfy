/**
 The verifiers on 64-bit words, where the split loop may never end: each loop is
 given a number of shifts, and a run that needs more of them has no answer.
 */
module MerkleWords {
  import opened Hashing
  import opened Wrappers
  import opened Merkle

  // ------------------------------------------------------------ the split loop

  /** The split loop from `k` on, or nothing if it still runs after `steps` more shifts. */
  function Loop(k: nat, n: nat, steps: nat): (r: Option<nat>)
    requires k < n && n >= 2
    ensures r.Some? ==> 1 <= r.value < n
    decreases steps
  {
    var shifted := (k * 2) % TWO_64;
    if shifted >= n then Some(k) else if steps == 0 then None else Loop(shifted, n, steps - 1)
  }

  function SplitWithin(n: nat, steps: nat): (r: Option<nat>)
    requires n >= 2
    ensures r.Some? ==> 1 <= r.value < n
  {
    Loop(1, n, steps)
  }

  lemma {:induction false} LoopIsSplit(k: nat, n: nat, steps: nat)
    requires 1 <= k < n <= TWO_63
    ensures Loop(k, n, steps) in {None, Some(SplitFrom(k, n))}
    decreases steps
  {
    WrappedDouble(k);
    if 2 * k < n && steps > 0 {
      LoopIsSplit(2 * k, n, steps - 1);
    }
  }

  lemma {:induction false} LoopEnds(i: nat, n: nat, steps: nat)
    requires Pow2(i) < n <= TWO_63 && i + steps >= 62
    ensures Loop(Pow2(i), n, steps).Some?
    decreases steps
  {
    WrappedDouble(Pow2(i));
    if Pow2(i + 1) < n {
      PowSixtyThree();
      if i >= 62 {
        PowMonotone(63, i + 1);
      }
      LoopEnds(i + 1, n, steps - 1);
    }
  }

  lemma {:induction false} LoopIsStuck(i: nat, n: nat, steps: nat)
    requires TWO_63 < n
    ensures ShiftedBy(i) <= TWO_63 && Loop(ShiftedBy(i), n, steps).None?
    decreases steps
  {
    ShiftedValue(i);
    ShiftedValue(i + 1);
    assert ShiftedBy(i + 1) == (ShiftedBy(i) * 2) % TWO_64;
    if steps > 0 {
      LoopIsStuck(i + 1, n, steps - 1);
    }
  }

  /** Where the loop ends it ends at the split, and it ends exactly for sizes up to 2^63. */
  lemma SplitWithinIs(n: nat, steps: nat)
    requires n >= 2
    ensures SplitWithin(n, steps) in {None, Some(Split(n))}
    ensures n > TWO_63 ==> SplitWithin(n, steps).None?
    ensures n <= TWO_63 && steps >= 63 ==> SplitWithin(n, steps) == Some(Split(n))
  {
    if n > TWO_63 {
      assert ShiftedBy(0) == 1;
      LoopIsStuck(0, n, steps);
    } else {
      LoopIsSplit(1, n, steps);
      if steps >= 63 {
        assert Pow2(0) == 1;
        LoopEnds(0, n, steps);
      }
    }
  }

  // ------------------------------------------------------------ inclusion

  /** As `RebuildRoot`, every split loop ending within `steps` shifts. */
  function RebuildWithin(leaf: Hash, pos: nat, size: nat, proof: seq<Hash>, cursor: nat, steps: nat): Option<Folded>
    requires pos < size
    decreases size
  {
    if size == 1 then Some(Folded(leaf, cursor))
    else
      match SplitWithin(size, steps)
      case None => None
      case Some(k) =>
        match RebuildWithin(leaf, if pos < k then pos else pos - k, if pos < k then k else size - k, proof, cursor, steps)
        case None => None
        case Some(TooShort) => Some(TooShort)
        case Some(Folded(sub, next)) =>
          if next >= |proof| then Some(TooShort)
          else Some(Folded(if pos < k then NodeHash(sub, proof[next]) else NodeHash(proof[next], sub), next + 1))
  }

  function InclusionWithin(leaf: Hash, idx: nat, size: nat, root: Hash, proof: seq<Hash>, steps: nat): Option<bool>
  {
    if size == 0 || idx >= size then Some(false)
    else
      match RebuildWithin(leaf, idx, size, proof, 0, steps)
      case None => None
      case Some(folded) => Some(folded == Folded(root, |proof|))
  }

  lemma {:induction false} RebuildWithinIs(leaf: Hash, pos: nat, size: nat, proof: seq<Hash>, cursor: nat, steps: nat)
    requires pos < size
    ensures RebuildWithin(leaf, pos, size, proof, cursor, steps)
         in {None, Some(RebuildRoot(leaf, pos, size, proof, cursor))}
    ensures size > TWO_63 ==> RebuildWithin(leaf, pos, size, proof, cursor, steps).None?
    ensures size <= TWO_63 && steps >= 63 ==> RebuildWithin(leaf, pos, size, proof, cursor, steps).Some?
    decreases size
  {
    if size > 1 {
      SplitWithinIs(size, steps);
      RebuildWithinUnfolds(leaf, pos, size, proof, cursor, steps);
      RebuildUnfolds(leaf, pos, size, proof, cursor);
      if SplitWithin(size, steps).Some? {
        RebuildWithinIs(leaf, Within(pos, size), HalfSize(pos, size), proof, cursor, steps);
      }
    }
  }

  /** One unfolding of each. */
  lemma {:induction false} RebuildWithinUnfolds(leaf: Hash, pos: nat, size: nat, proof: seq<Hash>, cursor: nat, steps: nat)
    requires pos < size && size > 1 && SplitWithin(size, steps) in {None, Some(Split(size))}
    ensures SplitWithin(size, steps).None? ==> RebuildWithin(leaf, pos, size, proof, cursor, steps).None?
    ensures SplitWithin(size, steps).Some? ==>
              var sub := RebuildWithin(leaf, Within(pos, size), HalfSize(pos, size), proof, cursor, steps);
              RebuildWithin(leaf, pos, size, proof, cursor, steps)
                == if sub.None? then None else Some(Joined(sub.value, pos, size, proof))
  {
  }

  lemma {:induction false} RebuildUnfolds(leaf: Hash, pos: nat, size: nat, proof: seq<Hash>, cursor: nat)
    requires pos < size && size > 1
    ensures RebuildRoot(leaf, pos, size, proof, cursor)
         == Joined(RebuildRoot(leaf, Within(pos, size), HalfSize(pos, size), proof, cursor), pos, size, proof)
  {
  }

  /** A half that was folded, joined with the next sibling. */
  function Joined(sub: Folded, pos: nat, size: nat, proof: seq<Hash>): Folded
    requires size >= 2
  {
    match sub
    case TooShort => TooShort
    case Folded(root, next) => if next >= |proof| then TooShort else Folded(Join(pos, size, root, proof[next]), next + 1)
  }

  /** Whenever the verifier answers, and it does within 63 shifts a loop or never, it gives this verdict. */
  lemma InclusionWithinIs(leaf: Hash, idx: nat, size: nat, root: Hash, proof: seq<Hash>, steps: nat)
    ensures InclusionWithin(leaf, idx, size, root, proof, steps)
         in {None, Some(VerifyInclusion(leaf, idx, size, root, proof))}
    ensures size > TWO_63 && idx < size ==> InclusionWithin(leaf, idx, size, root, proof, steps).None?
    ensures (size <= TWO_63 || idx >= size) && steps >= 63 ==> InclusionWithin(leaf, idx, size, root, proof, steps).Some?
  {
    if idx < size {
      RebuildWithinIs(leaf, idx, size, proof, 0, steps);
    }
  }

  /**
   The inclusion verifier returns exactly if the position is out of range or the size is
   at most 2^63; then it gives the verdict.
   */
  lemma InclusionAnswersIff(leaf: Hash, idx: nat, size: nat, root: Hash, proof: seq<Hash>)
    requires idx < TWO_64 && size < TWO_64
    ensures (exists steps: nat :: InclusionWithin(leaf, idx, size, root, proof, steps).Some?)
       <==> idx >= size || size <= TWO_63
    ensures forall steps: nat, b | InclusionWithin(leaf, idx, size, root, proof, steps) == Some(b) ::
              b == VerifyInclusion(leaf, idx, size, root, proof)
  {
    InclusionWithinIs(leaf, idx, size, root, proof, 63);
    forall steps: nat
      ensures idx < size && size > TWO_63 ==> InclusionWithin(leaf, idx, size, root, proof, steps).None?
      ensures InclusionWithin(leaf, idx, size, root, proof, steps)
           in {None, Some(VerifyInclusion(leaf, idx, size, root, proof))}
    {
      InclusionWithinIs(leaf, idx, size, root, proof, steps);
    }
  }

  // ------------------------------------------------------------ consistency

  /** As `FoldConsistency`, with nothing for a loop that runs on. */
  function FoldWithin(m: nat, n: nat, proof: seq<Hash>, oldRoot: Hash, complete: bool, steps: nat)
    : Option<Option<(Hash, Hash)>>
    requires 1 <= m <= n
    decreases n
  {
    if m == n || |proof| == 0 then Some(FoldConsistency(m, n, proof, oldRoot, complete))
    else
      match SplitWithin(n, steps)
      case None => None
      case Some(k) =>
        var last, head := proof[|proof| - 1], proof[..|proof| - 1];
        if m <= k then
          match FoldWithin(m, k, head, oldRoot, complete, steps)
          case None => None
          case Some(None) => Some(None)
          case Some(Some((o, w))) => Some(Some((o, NodeHash(w, last))))
        else
          match FoldWithin(m - k, n - k, head, oldRoot, false, steps)
          case None => None
          case Some(None) => Some(None)
          case Some(Some((o, w))) => Some(Some((NodeHash(last, o), NodeHash(last, w))))
  }

  function ConsistencyWithin(m: nat, n: nat, oldRoot: Hash, newRoot: Hash, proof: seq<Hash>, steps: nat): Option<bool>
  {
    if m == 0 || m > n then Some(false)
    else if m == n then Some(|proof| == 0 && oldRoot == newRoot)
    else
      match FoldWithin(m, n, proof, oldRoot, true, steps)
      case None => None
      case Some(None) => Some(false)
      case Some(Some((o, w))) => Some(o == oldRoot && w == newRoot)
  }

  lemma {:induction false} FoldWithinIs(m: nat, n: nat, proof: seq<Hash>, oldRoot: Hash, complete: bool, steps: nat)
    requires 1 <= m <= n
    ensures FoldWithin(m, n, proof, oldRoot, complete, steps)
         in {None, Some(FoldConsistency(m, n, proof, oldRoot, complete))}
    ensures n > TWO_63 && m < n && |proof| > 0 ==> FoldWithin(m, n, proof, oldRoot, complete, steps).None?
    ensures n <= TWO_63 && steps >= 63 ==> FoldWithin(m, n, proof, oldRoot, complete, steps).Some?
    decreases n
  {
    if m < n && |proof| > 0 {
      SplitWithinIs(n, steps);
      if SplitWithin(n, steps).Some? {
        var k, head := Split(n), proof[..|proof| - 1];
        if m <= k {
          FoldWithinIs(m, k, head, oldRoot, complete, steps);
        } else {
          FoldWithinIs(m - k, n - k, head, oldRoot, false, steps);
        }
      }
    }
  }

  lemma ConsistencyWithinIs(m: nat, n: nat, oldRoot: Hash, newRoot: Hash, proof: seq<Hash>, steps: nat)
    ensures ConsistencyWithin(m, n, oldRoot, newRoot, proof, steps)
         in {None, Some(VerifyConsistency(m, n, oldRoot, newRoot, proof))}
    ensures 0 < m < n && |proof| > 0 && n > TWO_63 ==> ConsistencyWithin(m, n, oldRoot, newRoot, proof, steps).None?
    ensures !(0 < m < n && |proof| > 0 && n > TWO_63) && steps >= 63 ==>
              ConsistencyWithin(m, n, oldRoot, newRoot, proof, steps).Some?
  {
    if 0 < m < n {
      FoldWithinIs(m, n, proof, oldRoot, true, steps);
    }
  }

  /**
   The consistency verifier returns exactly if the sizes are out of order or equal, the
   proof is empty, or the new size is at most 2^63; then it gives the verdict.
   */
  lemma ConsistencyAnswersIff(m: nat, n: nat, oldRoot: Hash, newRoot: Hash, proof: seq<Hash>)
    requires m < TWO_64 && n < TWO_64
    ensures (exists steps: nat :: ConsistencyWithin(m, n, oldRoot, newRoot, proof, steps).Some?)
       <==> m == 0 || m >= n || |proof| == 0 || n <= TWO_63
    ensures forall steps: nat, b | ConsistencyWithin(m, n, oldRoot, newRoot, proof, steps) == Some(b) ::
              b == VerifyConsistency(m, n, oldRoot, newRoot, proof)
  {
    ConsistencyWithinIs(m, n, oldRoot, newRoot, proof, 63);
    forall steps: nat
      ensures 0 < m < n && |proof| > 0 && n > TWO_63 ==> ConsistencyWithin(m, n, oldRoot, newRoot, proof, steps).None?
      ensures ConsistencyWithin(m, n, oldRoot, newRoot, proof, steps)
           in {None, Some(VerifyConsistency(m, n, oldRoot, newRoot, proof))}
    {
      ConsistencyWithinIs(m, n, oldRoot, newRoot, proof, steps);
    }
  }
}
