/**
 RFC 6962 sections 2.1, 2.1.1 and 2.1.2: tree hash, audit path and
 consistency proof, with their verifiers.
 */
module Merkle {
  import opened Hashing
  import opened Wrappers

  // ---------------------------------------------------------------- split

  /** The largest power of two below `n`. */
  function Split(n: nat): (k: nat)
    requires n >= 2
    ensures 1 <= k < n <= 2 * k
  {
    SplitFrom(1, n)
  }

  function SplitFrom(k: nat, n: nat): (r: nat)
    requires 1 <= k < n
    ensures k <= r < n <= 2 * r
    decreases n - k
  {
    if 2 * k < n then SplitFrom(2 * k, n) else k
  }

  ghost predicate IsPowerOfTwo(p: nat)
    decreases p
  {
    p == 1 || (p >= 2 && p % 2 == 0 && IsPowerOfTwo(p / 2))
  }

  lemma {:induction false} SplitFromIsLargestPower(k: nat, n: nat, p: nat)
    requires 1 <= k < n && IsPowerOfTwo(k)
    requires IsPowerOfTwo(p) && p < n
    ensures IsPowerOfTwo(SplitFrom(k, n))
    ensures p <= SplitFrom(k, n)
    decreases n - k
  {
    if 2 * k < n {
      assert (2 * k) / 2 == k;
      SplitFromIsLargestPower(2 * k, n, p);
    } else if p > k {
      PowersDouble(k, p);
    }
  }

  /** Two distinct powers of two are at least a factor of two apart. */
  lemma {:induction false} PowersDouble(a: nat, b: nat)
    requires IsPowerOfTwo(a) && IsPowerOfTwo(b) && a < b
    ensures 2 * a <= b
    decreases a
  {
    if a >= 2 {
      PowersDouble(a / 2, b / 2);
    }
  }

  lemma SplitIsLargestPowerOfTwo(n: nat, p: nat)
    requires n >= 2
    requires IsPowerOfTwo(p) && p < n
    ensures IsPowerOfTwo(Split(n)) && p <= Split(n) < n
  {
    SplitFromIsLargestPower(1, n, p);
  }

  /** Two sizes either split alike or the smaller fits in the larger's left part. */
  lemma {:induction false} SplitFromOrder(k: nat, m: nat, n: nat)
    requires 1 <= k < m <= n
    ensures SplitFrom(k, m) == SplitFrom(k, n) || m <= SplitFrom(k, n)
    decreases n - k
  {
    if 2 * k < m {
      SplitFromOrder(2 * k, m, n);
    }
  }

  lemma SplitOrder(m: nat, n: nat)
    requires 2 <= m <= n
    ensures Split(m) == Split(n) || m <= Split(n)
  {
    SplitFromOrder(1, m, n);
  }

  const TWO_63: nat := 0x8000_0000_0000_0000
  const TWO_64: nat := 0x1_0000_0000_0000_0000

  /**
   The split loop on 64-bit words.  The shift wraps, so the precondition is
   exactly what the loop needs to leave (`SplitLoopIsStuckAbove`).
   */
  method LargestPowerOfTwoLessThan(n: nat) returns (k: nat)
    requires 2 <= n <= TWO_63
    ensures k == Split(n)
  {
    k := 1;
    while (k * 2) % TWO_64 < n
      invariant 1 <= k < n
      invariant SplitFrom(k, n) == Split(n)
      decreases n - k
    {
      k := (k * 2) % TWO_64;
    }
  }

  /** The value of the loop variable after `i` wrapped shifts. */
  function ShiftedBy(i: nat): nat
  {
    if i == 0 then 1 else (ShiftedBy(i - 1) * 2) % TWO_64
  }

  function Pow2(i: nat): (p: nat)
    ensures p >= 1
  {
    if i == 0 then 1 else 2 * Pow2(i - 1)
  }

  lemma {:induction false} PowMonotone(i: nat, j: nat)
    requires i <= j
    ensures Pow2(i) <= Pow2(j)
    decreases j
  {
    if i < j {
      PowMonotone(i, j - 1);
    }
  }

  lemma PowSixtyThree()
    ensures Pow2(63) == TWO_63
  {
    assert Pow2(8) == 0x100;
    assert Pow2(16) == 0x1_0000;
    assert Pow2(24) == 0x100_0000;
    assert Pow2(32) == 0x1_0000_0000;
    assert Pow2(40) == 0x100_0000_0000;
    assert Pow2(48) == 0x1_0000_0000_0000;
    assert Pow2(56) == 0x100_0000_0000_0000;
  }

  lemma WrappedDouble(x: nat)
    requires x <= TWO_63
    ensures (x * 2) % TWO_64 == if x < TWO_63 then x * 2 else 0
  {
  }

  lemma {:induction false} ShiftedValue(i: nat)
    ensures i <= 63 ==> ShiftedBy(i) == Pow2(i) <= TWO_63
    ensures i > 63 ==> ShiftedBy(i) == 0
    ensures i < 63 ==> ShiftedBy(i) < TWO_63
  {
    var p := Pow2(i);
    if i > 0 {
      ShiftedValue(i - 1);
      WrappedDouble(ShiftedBy(i - 1));
    }
    PowSixtyThree();
    if i < 63 {
      PowMonotone(i + 1, 63);
    }
  }

  /**
   For every size a head may claim, the split loop's guard fails after some
   number of shifts exactly when the size is at most 2^63.
   */
  lemma SplitLoopIsStuckAbove(n: nat)
    requires 2 <= n < TWO_64
    ensures (exists i: nat :: ShiftedBy(i) >= n) <==> n <= TWO_63
  {
    if n <= TWO_63 {
      ShiftedValue(63);
      PowSixtyThree();
      assert ShiftedBy(63) >= n;
    } else {
      forall i: nat
        ensures ShiftedBy(i) <= TWO_63
      {
        ShiftedValue(i);
      }
    }
  }

  // ---------------------------------------------------------------- root

  /** MTH of a non-empty list of leaf hashes. */
  function Mth(leaves: seq<Hash>): Hash
    requires |leaves| > 0
    decreases |leaves|
  {
    if |leaves| == 1 then leaves[0]
    else
      var k := Split(|leaves|);
      NodeHash(Mth(leaves[..k]), Mth(leaves[k..]))
  }

  function Root(leaves: seq<Hash>): Hash
  {
    if |leaves| == 0 then EmptyRoot else Mth(leaves)
  }

  /** Every element is a leaf hash, as `Tree.Append` asks of its callers. */
  ghost predicate AllLeaves(leaves: seq<Hash>)
  {
    forall i | 0 <= i < |leaves| :: leaves[i].LeafHash?
  }

  ghost predicate Distinct(leaves: seq<Hash>)
  {
    forall i, j | 0 <= i < j < |leaves| :: leaves[i] != leaves[j]
  }

  /** A root commits to the number of leaves and to each of them. */
  lemma {:induction false} MthInjective(a: seq<Hash>, b: seq<Hash>)
    requires |a| > 0 && |b| > 0 && AllLeaves(a) && AllLeaves(b)
    requires Mth(a) == Mth(b)
    ensures a == b
    decreases |a|
  {
    if |a| == 1 {
      assert Mth(a).LeafHash?;
      assert |b| == 1;
    } else {
      assert |b| > 1;
      var k, j := Split(|a|), Split(|b|);
      MthInjective(a[..k], b[..j]);
      MthInjective(a[k..], b[j..]);
      assert a == a[..k] + a[k..];
      assert b == b[..j] + b[j..];
    }
  }

  lemma RootInjective(a: seq<Hash>, b: seq<Hash>)
    requires AllLeaves(a) && AllLeaves(b)
    ensures Root(a) == Root(b) <==> a == b
  {
    if Root(a) == Root(b) {
      if |a| > 0 { MthIsHash(a); }
      if |b| > 0 { MthIsHash(b); }
      if |a| > 0 && |b| > 0 {
        MthInjective(a, b);
      }
    }
  }

  lemma MthIsHash(a: seq<Hash>)
    requires |a| > 0 && AllLeaves(a)
    ensures Mth(a).LeafHash? || Mth(a).NodeHash?
  {
  }

  // ---------------------------------------------------------------- inclusion

  /** The position of leaf `pos` within its half of the tree, and the size of that half. */
  function Within(pos: nat, size: nat): nat
    requires size >= 2
  {
    if pos < Split(size) then pos else pos - Split(size)
  }

  function HalfSize(pos: nat, size: nat): (h: nat)
    requires pos < size && size >= 2
    ensures Within(pos, size) < h < size
  {
    if pos < Split(size) then Split(size) else size - Split(size)
  }

  /** The half of the tree that holds leaf `pos`, and the other half. */
  function Mine(pos: nat, leaves: seq<Hash>): (half: seq<Hash>)
    requires pos < |leaves| && |leaves| >= 2
    ensures |half| == HalfSize(pos, |leaves|)
    ensures half[Within(pos, |leaves|)] == leaves[pos]
  {
    if pos < Split(|leaves|) then leaves[..Split(|leaves|)] else leaves[Split(|leaves|)..]
  }

  function Other(pos: nat, leaves: seq<Hash>): (half: seq<Hash>)
    requires pos < |leaves| && |leaves| >= 2
    ensures 0 < |half| < |leaves|
  {
    if pos < Split(|leaves|) then leaves[Split(|leaves|)..] else leaves[..Split(|leaves|)]
  }

  /** Puts the tree hashes of the half that holds `pos` and of the other half in order. */
  function Join(pos: nat, size: nat, mine: Hash, other: Hash): Hash
    requires size >= 2
  {
    if pos < Split(size) then NodeHash(mine, other) else NodeHash(other, mine)
  }

  /** The audit path for leaf `pos`, siblings from the leaf upward. */
  function Path(pos: nat, leaves: seq<Hash>): seq<Hash>
    requires pos < |leaves|
    decreases |leaves|
  {
    if |leaves| == 1 then []
    else Path(Within(pos, |leaves|), Mine(pos, leaves)) + [Mth(Other(pos, leaves))]
  }

  /** What folding a proof derives: a root and the next unread sibling, or nothing if siblings run out. */
  datatype Folded = TooShort | Folded(root: Hash, next: nat)

  /** Folds a claimed leaf with the siblings in `proof` from `cursor` on. */
  function RebuildRoot(leaf: Hash, pos: nat, size: nat, proof: seq<Hash>, cursor: nat): Folded
    requires pos < size
    decreases size
  {
    if size == 1 then Folded(leaf, cursor)
    else
      match RebuildRoot(leaf, Within(pos, size), HalfSize(pos, size), proof, cursor)
      case TooShort => TooShort
      case Folded(sub, next) =>
        if next >= |proof| then TooShort else Folded(Join(pos, size, sub, proof[next]), next + 1)
  }

  predicate VerifyInclusion(leaf: Hash, idx: nat, size: nat, root: Hash, proof: seq<Hash>)
  {
    size > 0 && idx < size &&
    RebuildRoot(leaf, idx, size, proof, 0) == Folded(root, |proof|)
  }

  lemma MthUnfold(leaves: seq<Hash>)
    requires |leaves| >= 2
    ensures var k := Split(|leaves|); Mth(leaves) == NodeHash(Mth(leaves[..k]), Mth(leaves[k..]))
  {
  }

  lemma MthJoins(pos: nat, leaves: seq<Hash>)
    requires pos < |leaves| && |leaves| >= 2
    ensures Mth(leaves) == Join(pos, |leaves|, Mth(Mine(pos, leaves)), Mth(Other(pos, leaves)))
  {
    MthUnfold(leaves);
  }

  lemma PathUnfold(pos: nat, leaves: seq<Hash>)
    requires pos < |leaves| && |leaves| >= 2
    ensures Path(pos, leaves) == Path(Within(pos, |leaves|), Mine(pos, leaves)) + [Mth(Other(pos, leaves))]
  {
  }

  lemma RebuildUnfold(leaf: Hash, pos: nat, size: nat, proof: seq<Hash>, cursor: nat, mine: Hash, other: Hash, next: nat)
    requires pos < size && size >= 2
    requires RebuildRoot(leaf, pos, size, proof, cursor) == Folded(Join(pos, size, mine, other), next)
    ensures 0 < next <= |proof| && proof[next - 1] == other
    ensures RebuildRoot(leaf, Within(pos, size), HalfSize(pos, size), proof, cursor) == Folded(mine, next - 1)
  {
  }

  lemma AppendLast<T>(s: seq<T>, i: nat, j: nat)
    requires i < j <= |s|
    ensures s[i..j] == s[i..j - 1] + [s[j - 1]]
  {
  }

  /** The piece of a proof that is the path of a leaf ends in the top sibling. */
  lemma PathPiece(pos: nat, leaves: seq<Hash>, proof: seq<Hash>, cursor: nat, next: nat)
    requires pos < |leaves| && |leaves| >= 2 && cursor <= next <= |proof|
    ensures proof[cursor..next] == Path(pos, leaves)
       <==> && cursor < next && proof[next - 1] == Mth(Other(pos, leaves))
            && proof[cursor..next - 1] == Path(Within(pos, |leaves|), Mine(pos, leaves))
  {
    PathUnfold(pos, leaves);
    var below, top := Path(Within(pos, |leaves|), Mine(pos, leaves)), Mth(Other(pos, leaves));
    if cursor < next {
      AppendLast(proof, cursor, next);
      AppendsAgree(proof[cursor..next - 1], proof[next - 1], below, top);
    }
  }

  lemma AppendsAgree<T>(s: seq<T>, x: T, t: seq<T>, y: T)
    ensures s + [x] == t + [y] <==> s == t && x == y
  {
    if s + [x] == t + [y] {
      assert (s + [x])[..|s|] == s && (t + [y])[..|t|] == t;
      assert (s + [x])[|s|] == x && (t + [y])[|t|] == y;
    }
  }

  /** Folding a proof is folding its part for the half, then joining the top sibling. */
  lemma {:induction false} RebuildFolds(leaf: Hash, pos: nat, size: nat, proof: seq<Hash>, cursor: nat, mine: Hash,
                                        next: nat)
    requires pos < size && size >= 2 && 0 < next <= |proof|
    requires RebuildRoot(leaf, Within(pos, size), HalfSize(pos, size), proof, cursor) == Folded(mine, next - 1)
    ensures RebuildRoot(leaf, pos, size, proof, cursor) == Folded(Join(pos, size, mine, proof[next - 1]), next)
  {
  }

  /** A proof that is a leaf's path is one for its half followed by the top sibling, and folds as such. */
  lemma {:induction false} FollowStep(pos: nat, leaves: seq<Hash>, proof: seq<Hash>, cursor: nat, next: nat)
    requires pos < |leaves| && |leaves| >= 2 && cursor <= next <= |proof|
    requires proof[cursor..next] == Path(pos, leaves)
    ensures cursor < next && proof[cursor..next - 1] == Path(Within(pos, |leaves|), Mine(pos, leaves))
    ensures var below := RebuildRoot(leaves[pos], Within(pos, |leaves|), HalfSize(pos, |leaves|), proof, cursor);
            below == Folded(Mth(Mine(pos, leaves)), next - 1) ==>
              RebuildRoot(leaves[pos], pos, |leaves|, proof, cursor) == Folded(Mth(leaves), next)
  {
    PathPiece(pos, leaves, proof, cursor, next);
    MthJoins(pos, leaves);
    var mine := Mth(Mine(pos, leaves));
    if RebuildRoot(leaves[pos], Within(pos, |leaves|), HalfSize(pos, |leaves|), proof, cursor) == Folded(mine, next - 1) {
      RebuildFolds(leaves[pos], pos, |leaves|, proof, cursor, mine, next);
    }
  }

  lemma {:induction false} RebuildFollowsPath(pos: nat, leaves: seq<Hash>, proof: seq<Hash>, cursor: nat, next: nat)
    requires pos < |leaves| && cursor <= next <= |proof|
    requires proof[cursor..next] == Path(pos, leaves)
    ensures RebuildRoot(leaves[pos], pos, |leaves|, proof, cursor) == Folded(Mth(leaves), next)
    decreases |leaves|
  {
    if |leaves| > 1 {
      FollowStep(pos, leaves, proof, cursor, next);
      RebuildFollowsPath(Within(pos, |leaves|), Mine(pos, leaves), proof, cursor, next - 1);
    }
  }

  lemma {:induction false} RebuildIsUnique(
    leaf: Hash, pos: nat, leaves: seq<Hash>, proof: seq<Hash>, cursor: nat, next: nat)
    requires pos < |leaves| && cursor <= |proof|
    requires RebuildRoot(leaf, pos, |leaves|, proof, cursor) == Folded(Mth(leaves), next)
    ensures leaf == leaves[pos]
    ensures cursor <= next <= |proof| && proof[cursor..next] == Path(pos, leaves)
    decreases |leaves|
  {
    if |leaves| > 1 {
      MthJoins(pos, leaves);
      RebuildUnfold(leaf, pos, |leaves|, proof, cursor, Mth(Mine(pos, leaves)), Mth(Other(pos, leaves)), next);
      RebuildIsUnique(leaf, Within(pos, |leaves|), Mine(pos, leaves), proof, cursor, next - 1);
      PathPiece(pos, leaves, proof, cursor, next);
    }
  }

  /**
   Completeness and soundness in one: against the root of `leaves`, the
   verifier accepts the honest leaf with its honest audit path and nothing else.
   */
  lemma InclusionExact(leaf: Hash, idx: nat, leaves: seq<Hash>, proof: seq<Hash>)
    requires |leaves| > 0
    ensures VerifyInclusion(leaf, idx, |leaves|, Mth(leaves), proof)
       <==> idx < |leaves| && leaf == leaves[idx] && proof == Path(idx, leaves)
  {
    assert proof[0..|proof|] == proof;
    if VerifyInclusion(leaf, idx, |leaves|, Mth(leaves), proof) {
      RebuildIsUnique(leaf, idx, leaves, proof, 0, |proof|);
    }
    if idx < |leaves| && leaf == leaves[idx] && proof == Path(idx, leaves) {
      RebuildFollowsPath(idx, leaves, proof, 0, |proof|);
    }
  }

  lemma {:induction false} EmptyPathIsRefused(leaf: Hash, idx: nat, size: nat, root: Hash)
    requires size >= 2
    ensures !VerifyInclusion(leaf, idx, size, root, [])
  {
  }

  lemma RootsDiffer(a: seq<Hash>, b: seq<Hash>)
    requires |a| > 0 && |b| > 0 && AllLeaves(a) && AllLeaves(b)
    requires |a| != |b| || a[0] != b[0]
    ensures Mth(a) != Mth(b)
  {
    if Mth(a) == Mth(b) {
      MthInjective(a, b);
    }
  }

  lemma TopDiffers(pos: nat, a: seq<Hash>, b: seq<Hash>)
    requires pos < |a| && |a| >= 2 && pos < |b| && |b| >= 2
    requires AllLeaves(a) && AllLeaves(b)
    requires var s, t := Other(pos, a), Other(pos, b); |s| != |t| || s[0] != t[0]
    ensures Path(pos, a) != Path(pos, b)
  {
    RootsDiffer(Other(pos, a), Other(pos, b));
    PathUnfold(pos, a);
    PathUnfold(pos, b);
    var p, q := Path(pos, a), Path(pos, b);
    assert p[|p| - 1] == Mth(Other(pos, a)) && q[|q| - 1] == Mth(Other(pos, b));
  }

  lemma BelowDiffers(pos: nat, a: seq<Hash>, b: seq<Hash>)
    requires pos < |a| && |a| >= 2 && pos < |b| && |b| >= 2
    requires Path(Within(pos, |a|), Mine(pos, a)) != Path(Within(pos, |b|), Mine(pos, b))
    ensures Path(pos, a) != Path(pos, b)
  {
    PathUnfold(pos, a);
    PathUnfold(pos, b);
    var p, q := Path(Within(pos, |a|), Mine(pos, a)), Path(Within(pos, |b|), Mine(pos, b));
    assert Path(pos, a)[..|p|] == p && Path(pos, b)[..|q|] == q;
  }

  lemma PrefixHalf(pos: nat, m: nat, leaves: seq<Hash>)
    requires 2 <= m < |leaves| && Split(m) == Split(|leaves|) <= pos < m
    requires AllLeaves(leaves) && Distinct(leaves)
    ensures var half := Mine(pos, leaves);
            && HalfSize(pos, m) < |half|
            && Mine(pos, leaves[..m]) == half[..HalfSize(pos, m)]
            && Within(pos, m) == Within(pos, |leaves|)
            && AllLeaves(half) && Distinct(half)
  {
  }

  lemma PathBindsTop(pos: nat, m: nat, leaves: seq<Hash>)
    requires pos < m < |leaves| && m >= 2 && AllLeaves(leaves) && Distinct(leaves)
    requires Split(m) != Split(|leaves|) || pos < Split(m)
    ensures Path(pos, leaves[..m]) != Path(pos, leaves)
  {
    TopsDiffer(pos, m, leaves);
    TopDiffers(pos, leaves[..m], leaves);
  }

  /** A proof for a longer tree is never accepted under the root and size of a shorter one. */
  lemma PathBindsSize(pos: nat, m: nat, leaves: seq<Hash>)
    requires pos < m < |leaves|
    requires AllLeaves(leaves) && Distinct(leaves)
    ensures Path(pos, leaves[..m]) != Path(pos, leaves)
    ensures forall leaf :: !VerifyInclusion(leaf, pos, m, Mth(leaves[..m]), Path(pos, leaves))
  {
    PathsDiffer(pos, m, leaves);
    forall leaf ensures !VerifyInclusion(leaf, pos, m, Mth(leaves[..m]), Path(pos, leaves)) {
      InclusionExact(leaf, pos, leaves[..m], Path(pos, leaves));
    }
  }

  lemma {:induction false} PathsDiffer(pos: nat, m: nat, leaves: seq<Hash>)
    requires pos < m < |leaves|
    requires AllLeaves(leaves) && Distinct(leaves)
    ensures Path(pos, leaves[..m]) != Path(pos, leaves)
    decreases |leaves|
  {
    if m == 1 {
      assert Path(pos, leaves[..m]) == [];
      PathUnfold(pos, leaves);
    } else if Split(m) == Split(|leaves|) <= pos {
      PrefixHalf(pos, m, leaves);
      PathsDiffer(Within(pos, |leaves|), HalfSize(pos, m), Mine(pos, leaves));
      BelowDiffers(pos, leaves[..m], leaves);
    } else {
      PathBindsTop(pos, m, leaves);
    }
  }

  /**
   Unless both trees split alike at or before `pos`, the sibling subtrees
   differ in size, or `pos < m <= k` and they start at different leaves.
   */
  lemma TopsDiffer(pos: nat, m: nat, leaves: seq<Hash>)
    requires pos < m < |leaves| && m >= 2
    requires Distinct(leaves)
    requires Split(m) != Split(|leaves|) || pos < Split(m)
    ensures var s, t := Other(pos, leaves[..m]), Other(pos, leaves); |s| != |t| || s[0] != t[0]
  {
    SplitOrder(m, |leaves|);
    var k, j := Split(|leaves|), Split(m);
    assert Other(pos, leaves[..m])[0] == leaves[if pos < j then j else 0];
    assert pos < k ==> Other(pos, leaves)[0] == leaves[k];
  }

  // ---------------------------------------------------------------- consistency

  /** The RFC 6962 PROOF that `leaves` extends its first `m` elements. */
  function ConsistencyProof(m: nat, leaves: seq<Hash>, complete: bool): seq<Hash>
    requires 1 <= m <= |leaves|
    decreases |leaves|
  {
    if m == |leaves| then (if complete then [] else [Mth(leaves)])
    else
      var k := Split(|leaves|);
      if m <= k then ConsistencyProof(m, leaves[..k], complete) + [Mth(leaves[k..])]
      else ConsistencyProof(m - k, leaves[k..], false) + [Mth(leaves[..k])]
  }

  /** Derives the (old root, new root) pair a consistency proof stands for. */
  function FoldConsistency(m: nat, n: nat, proof: seq<Hash>, oldRoot: Hash, complete: bool)
    : Option<(Hash, Hash)>
    requires 1 <= m <= n
    decreases n
  {
    if m == n then
      if complete then (if |proof| != 0 then None else Some((oldRoot, oldRoot)))
      else (if |proof| != 1 then None else Some((proof[0], proof[0])))
    else if |proof| == 0 then None
    else
      var k := Split(n);
      var last, head := proof[|proof| - 1], proof[..|proof| - 1];
      if m <= k then
        match FoldConsistency(m, k, head, oldRoot, complete)
        case None => None
        case Some((o, w)) => Some((o, NodeHash(w, last)))
      else
        match FoldConsistency(m - k, n - k, head, oldRoot, false)
        case None => None
        case Some((o, w)) => Some((NodeHash(last, o), NodeHash(last, w)))
  }

  predicate VerifyConsistency(m: nat, n: nat, oldRoot: Hash, newRoot: Hash, proof: seq<Hash>)
  {
    if m == 0 || m > n then false
    else if m == n then |proof| == 0 && oldRoot == newRoot
    else
      var r := FoldConsistency(m, n, proof, oldRoot, true);
      r.Some? && r.value.0 == oldRoot && r.value.1 == newRoot
  }

  /** The root of a prefix that reaches past the split shares the left subtree. */
  lemma PrefixRootSplits(m: nat, leaves: seq<Hash>)
    requires 2 <= |leaves| && Split(|leaves|) < m <= |leaves|
    ensures var k := Split(|leaves|);
            Mth(leaves[..m]) == NodeHash(Mth(leaves[..k]), Mth(leaves[k..][..m - k]))
  {
    var k := Split(|leaves|);
    SplitOrder(m, |leaves|);
    assert leaves[..m][..k] == leaves[..k];
    assert leaves[..m][k..] == leaves[k..][..m - k];
  }

  lemma FoldUp(m: nat, n: nat, proof: seq<Hash>, last: Hash, oldRoot: Hash, complete: bool, o: Hash, w: Hash)
    requires 1 <= m < n
    requires var k := Split(n);
             if m <= k then FoldConsistency(m, k, proof, oldRoot, complete) == Some((o, w))
             else FoldConsistency(m - k, n - k, proof, oldRoot, false) == Some((o, w))
    ensures FoldConsistency(m, n, proof + [last], oldRoot, complete)
         == if m <= Split(n) then Some((o, NodeHash(w, last))) else Some((NodeHash(last, o), NodeHash(last, w)))
  {
    var p := proof + [last];
    assert p[..|p| - 1] == proof && p[|p| - 1] == last;
  }

  lemma FoldDown(m: nat, n: nat, proof: seq<Hash>, oldRoot: Hash, complete: bool, o: Hash, w: Hash)
    requires 1 <= m < n
    requires FoldConsistency(m, n, proof, oldRoot, complete) == Some((o, w))
    ensures |proof| > 0 && w.NodeHash?
    ensures var k := Split(n);
            var last, head := proof[|proof| - 1], proof[..|proof| - 1];
            if m <= k then
              FoldConsistency(m, k, head, oldRoot, complete) == Some((o, w.left)) && last == w.right
            else
              && o == NodeHash(last, o.right) && last == w.left
              && FoldConsistency(m - k, n - k, head, oldRoot, false) == Some((o.right, w.right))
  {
  }

  /** One unfolding of the prover: what it proves below, and the sibling it appends. */
  lemma ProofUnfold(m: nat, leaves: seq<Hash>, complete: bool)
    requires 1 <= m < |leaves|
    ensures ConsistencyProof(m, leaves, complete)
         == (var k := Split(|leaves|);
             if m <= k then ConsistencyProof(m, leaves[..k], complete) + [Mth(leaves[k..])]
             else ConsistencyProof(m - k, leaves[k..], false) + [Mth(leaves[..k])])
  {
  }

  lemma AcceptsLeft(m: nat, leaves: seq<Hash>, below: seq<Hash>, oldRoot: Hash, complete: bool)
    requires 1 <= m < |leaves| && m <= Split(|leaves|)
    requires var left := leaves[..Split(|leaves|)];
             && below == ConsistencyProof(m, left, complete)
             && FoldConsistency(m, |left|, below, oldRoot, complete) == Some((Mth(left[..m]), Mth(left)))
    ensures FoldConsistency(m, |leaves|, ConsistencyProof(m, leaves, complete), oldRoot, complete)
         == Some((Mth(leaves[..m]), Mth(leaves)))
  {
    var k := Split(|leaves|);
    assert leaves[..k][..m] == leaves[..m];
    MthUnfold(leaves);
    ProofUnfold(m, leaves, complete);
    FoldUp(m, |leaves|, below, Mth(leaves[k..]), oldRoot, complete, Mth(leaves[..m]), Mth(leaves[..k]));
  }

  lemma {:induction false} AcceptsRight(m: nat, leaves: seq<Hash>, below: seq<Hash>, oldRoot: Hash, complete: bool)
    requires 1 <= m < |leaves| && Split(|leaves|) < m
    requires var k := Split(|leaves|); var right := leaves[k..];
             && below == ConsistencyProof(m - k, right, false)
             && FoldConsistency(m - k, |right|, below, oldRoot, false) == Some((Mth(right[..m - k]), Mth(right)))
    ensures FoldConsistency(m, |leaves|, ConsistencyProof(m, leaves, complete), oldRoot, complete)
         == Some((Mth(leaves[..m]), Mth(leaves)))
  {
    var k := Split(|leaves|);
    MthUnfold(leaves);
    PrefixRootSplits(m, leaves);
    ProofUnfold(m, leaves, complete);
    assert ConsistencyProof(m, leaves, complete) == below + [Mth(leaves[..k])] && |leaves[k..]| == |leaves| - k;
    FoldUp(m, |leaves|, below, Mth(leaves[..k]), oldRoot, complete, Mth(leaves[k..][..m - k]), Mth(leaves[k..]));
  }

  lemma {:induction false} WholeIsAccepted(leaves: seq<Hash>, oldRoot: Hash, complete: bool)
    requires |leaves| >= 1 && (complete ==> oldRoot == Mth(leaves[..|leaves|]))
    ensures FoldConsistency(|leaves|, |leaves|, ConsistencyProof(|leaves|, leaves, complete), oldRoot, complete)
         == Some((Mth(leaves[..|leaves|]), Mth(leaves)))
  {
    assert leaves[..|leaves|] == leaves;
  }

  lemma {:induction false} FoldAcceptsProof(m: nat, leaves: seq<Hash>, oldRoot: Hash, complete: bool)
    requires 1 <= m <= |leaves|
    requires complete ==> oldRoot == Mth(leaves[..m])
    ensures FoldConsistency(m, |leaves|, ConsistencyProof(m, leaves, complete), oldRoot, complete)
         == Some((Mth(leaves[..m]), Mth(leaves)))
    decreases |leaves|
  {
    if m == |leaves| {
      WholeIsAccepted(leaves, oldRoot, complete);
    } else {
      var k := Split(|leaves|);
      if m <= k {
        assert leaves[..k][..m] == leaves[..m];
        FoldAcceptsProof(m, leaves[..k], oldRoot, complete);
        AcceptsLeft(m, leaves, ConsistencyProof(m, leaves[..k], complete), oldRoot, complete);
      } else {
        FoldAcceptsProof(m - k, leaves[k..], oldRoot, false);
        AcceptsRight(m, leaves, ConsistencyProof(m - k, leaves[k..], false), oldRoot, complete);
      }
    }
  }

  lemma UniqueLeft(m: nat, leaves: seq<Hash>, proof: seq<Hash>, complete: bool)
    requires 1 <= m < |leaves| && m <= Split(|leaves|) && |proof| > 0
    requires proof[..|proof| - 1] == ConsistencyProof(m, leaves[..Split(|leaves|)], complete)
    requires proof[|proof| - 1] == Mth(leaves[Split(|leaves|)..])
    ensures proof == ConsistencyProof(m, leaves, complete)
  {
    assert proof == proof[..|proof| - 1] + [proof[|proof| - 1]];
    ProofUnfold(m, leaves, complete);
  }

  lemma UniqueRight(m: nat, leaves: seq<Hash>, proof: seq<Hash>, complete: bool)
    requires 1 <= m < |leaves| && Split(|leaves|) < m && |proof| > 0
    requires proof[..|proof| - 1] == ConsistencyProof(m - Split(|leaves|), leaves[Split(|leaves|)..], false)
    requires proof[|proof| - 1] == Mth(leaves[..Split(|leaves|)])
    ensures proof == ConsistencyProof(m, leaves, complete)
  {
    assert proof == proof[..|proof| - 1] + [proof[|proof| - 1]];
    ProofUnfold(m, leaves, complete);
  }

  lemma {:induction false} FoldIsUnique(
    m: nat, leaves: seq<Hash>, proof: seq<Hash>, oldRoot: Hash, complete: bool, derivedOld: Hash)
    requires 1 <= m <= |leaves|
    requires FoldConsistency(m, |leaves|, proof, oldRoot, complete) == Some((derivedOld, Mth(leaves)))
    ensures derivedOld == Mth(leaves[..m])
    ensures proof == ConsistencyProof(m, leaves, complete)
    decreases |leaves|
  {
    if m == |leaves| {
      assert leaves[..m] == leaves;
    } else {
      var k := Split(|leaves|);
      MthUnfold(leaves);
      FoldDown(m, |leaves|, proof, oldRoot, complete, derivedOld, Mth(leaves));
      var head := proof[..|proof| - 1];
      if m <= k {
        assert leaves[..k][..m] == leaves[..m];
        FoldIsUnique(m, leaves[..k], head, oldRoot, complete, derivedOld);
        UniqueLeft(m, leaves, proof, complete);
      } else {
        FoldIsUnique(m - k, leaves[k..], head, oldRoot, false, derivedOld.right);
        PrefixRootSplits(m, leaves);
        UniqueRight(m, leaves, proof, complete);
      }
    }
  }

  /**
   Against the root of `leaves`, the verifier accepts an older (size, root)
   exactly when it is the root of that prefix, with the one honest proof.
   */
  lemma ConsistencyExact(m: nat, leaves: seq<Hash>, oldRoot: Hash, proof: seq<Hash>)
    requires |leaves| > 0
    ensures VerifyConsistency(m, |leaves|, oldRoot, Mth(leaves), proof)
       <==> 1 <= m <= |leaves| && oldRoot == Mth(leaves[..m]) && proof == ConsistencyProof(m, leaves, true)
  {
    if m == |leaves| {
      assert leaves[..m] == leaves;
    } else if 1 <= m < |leaves| {
      if VerifyConsistency(m, |leaves|, oldRoot, Mth(leaves), proof) {
        FoldIsUnique(m, leaves, proof, oldRoot, true, oldRoot);
      }
      if oldRoot == Mth(leaves[..m]) && proof == ConsistencyProof(m, leaves, true) {
        FoldAcceptsProof(m, leaves, oldRoot, true);
      }
    }
  }
}
