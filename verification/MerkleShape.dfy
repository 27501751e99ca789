/** The tree hash, the audit path and the consistency proof as section 2.1 of RFC 6962 defines them. */
module MerkleShape {
  import opened Hashing
  import opened Merkle

  /** `k` is the largest power of two below `n`. */
  ghost predicate IsSplit(k: nat, n: nat)
  {
    IsPowerOfTwo(k) && k < n <= 2 * k
  }

  lemma {:induction false} SplitIs(k: nat, n: nat)
    requires IsSplit(k, n)
    ensures n >= 2 && Split(n) == k
  {
    assert k >= 1;
    SplitIsLargestPowerOfTwo(n, k);
    if k < Split(n) {
      PowersDouble(k, Split(n));
    }
  }

  /** The tree hash of a list: of nothing, of one leaf, and of more, by their split. */
  lemma {:induction false} TreeHashIs(leaves: seq<Hash>, k: nat)
    ensures |leaves| == 0 ==> Root(leaves) == EmptyRoot
    ensures |leaves| == 1 ==> Root(leaves) == leaves[0]
    ensures IsSplit(k, |leaves|) ==> Root(leaves) == NodeHash(Root(leaves[..k]), Root(leaves[k..]))
  {
    if IsSplit(k, |leaves|) {
      SplitIs(k, |leaves|);
      MthUnfold(leaves);
    }
  }

  /** The audit path of a leaf: its path within its half, then the hash of the other half. */
  lemma {:induction false} AuditPathIs(m: nat, leaves: seq<Hash>, k: nat)
    requires m < |leaves|
    ensures |leaves| == 1 ==> Path(m, leaves) == []
    ensures IsSplit(k, |leaves|) && m < k ==> Path(m, leaves) == Path(m, leaves[..k]) + [Root(leaves[k..])]
    ensures IsSplit(k, |leaves|) && m >= k ==> Path(m, leaves) == Path(m - k, leaves[k..]) + [Root(leaves[..k])]
  {
    if IsSplit(k, |leaves|) {
      PathIsSplit(m, leaves, k);
    }
  }

  lemma {:induction false} PathIsSplit(m: nat, leaves: seq<Hash>, k: nat)
    requires m < |leaves| && IsSplit(k, |leaves|)
    ensures m < k ==> Path(m, leaves) == Path(m, leaves[..k]) + [Root(leaves[k..])]
    ensures m >= k ==> Path(m, leaves) == Path(m - k, leaves[k..]) + [Root(leaves[..k])]
  {
    SplitIs(k, |leaves|);
    PathUnfold(m, leaves);
    assert m < k ==> Mine(m, leaves) == leaves[..k] && Other(m, leaves) == leaves[k..];
    assert m >= k ==> Mine(m, leaves) == leaves[k..] && Other(m, leaves) == leaves[..k];
  }

  /**
   The proof that a tree extends its first `m` leaves: nothing for the tree itself, its hash
   if the older tree is not known to the verifier, and otherwise by the split.
   */
  lemma {:induction false} ConsistencyProofIs(m: nat, leaves: seq<Hash>, complete: bool, k: nat)
    requires 1 <= m <= |leaves|
    ensures m == |leaves| ==>
              ConsistencyProof(m, leaves, true) == [] && ConsistencyProof(m, leaves, false) == [Root(leaves)]
    ensures m < |leaves| && IsSplit(k, |leaves|) && m <= k ==>
              ConsistencyProof(m, leaves, complete) == ConsistencyProof(m, leaves[..k], complete) + [Root(leaves[k..])]
    ensures m < |leaves| && IsSplit(k, |leaves|) && m > k ==>
              ConsistencyProof(m, leaves, complete) == ConsistencyProof(m - k, leaves[k..], false) + [Root(leaves[..k])]
  {
    if m < |leaves| && IsSplit(k, |leaves|) {
      SplitIs(k, |leaves|);
      ProofUnfold(m, leaves, complete);
    }
  }

  // ------------------------------------------------------------ the example of section 2.1.3

  /** The tree of seven leaves, its inner nodes named as in the example. */
  lemma {:induction false} SevenLeaves(d: seq<Hash>)
    requires |d| == 7
    ensures var g, h, i := NodeHash(d[0], d[1]), NodeHash(d[2], d[3]), NodeHash(d[4], d[5]);
            var k, l := NodeHash(g, h), NodeHash(i, d[6]);
            && Root(d) == NodeHash(k, l)
            && Path(0, d) == [d[1], h, l] && Path(3, d) == [d[2], g, l] && Path(4, d) == [d[5], d[6], k]
            && Path(6, d) == [i, k]
  {
    FourLeaves(d[..4]);
    ThreeLeaves(d[4..]);
    assert IsSplit(4, 7);
    TreeHashIs(d, 4);
    AuditPathIs(0, d, 4);
    AuditPathIs(3, d, 4);
    AuditPathIs(4, d, 4);
    AuditPathIs(6, d, 4);
  }

  lemma {:induction false} TwoLeaves(d: seq<Hash>)
    requires |d| == 2
    ensures Root(d) == NodeHash(d[0], d[1]) && Path(0, d) == [d[1]] && Path(1, d) == [d[0]]
  {
    assert IsSplit(1, 2);
    TreeHashIs(d, 1);
    AuditPathIs(0, d, 1);
    AuditPathIs(1, d, 1);
  }

  lemma {:induction false} ThreeLeaves(d: seq<Hash>)
    requires |d| == 3
    ensures Root(d) == NodeHash(NodeHash(d[0], d[1]), d[2])
    ensures Path(0, d) == [d[1], d[2]] && Path(2, d) == [NodeHash(d[0], d[1])]
  {
    TwoLeaves(d[..2]);
    assert IsSplit(2, 3);
    TreeHashIs(d, 2);
    AuditPathIs(0, d, 2);
    AuditPathIs(2, d, 2);
  }

  lemma {:induction false} FourLeaves(d: seq<Hash>)
    requires |d| == 4
    ensures Root(d) == NodeHash(NodeHash(d[0], d[1]), NodeHash(d[2], d[3]))
    ensures Path(0, d) == [d[1], NodeHash(d[2], d[3])] && Path(3, d) == [d[2], NodeHash(d[0], d[1])]
  {
    TwoLeaves(d[..2]);
    TwoLeaves(d[2..]);
    assert IsSplit(2, 4);
    TreeHashIs(d, 2);
    AuditPathIs(0, d, 2);
    AuditPathIs(3, d, 2);
  }
}
