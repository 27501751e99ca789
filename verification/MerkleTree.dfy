/** The in-memory tree of merkle/tree.go: a growing list of leaf hashes. */
module MerkleTree {
  import opened Hashing
  import opened Wrappers
  import Merkle

  datatype TreeError = EmptyTree | IndexOutOfRange

  class Tree {
    var leaves: seq<Hash>

    constructor ()
      ensures leaves == []
    {
      leaves := [];
    }

    method Append(leafHash: Hash) returns (size: nat)
      modifies this
      ensures leaves == old(leaves) + [leafHash]
      ensures size == |leaves|
    {
      leaves := leaves + [leafHash];
      size := |leaves|;
    }

    function LastLeafHash(): Hash
      reads this
    {
      LastOf(leaves)
    }

    /** Whatever list of leaves has this root is the list held here. */
    method Root() returns (root: Hash)
      ensures root == Merkle.Root(leaves)
      ensures Merkle.AllLeaves(leaves) ==>
                forall other | Merkle.AllLeaves(other) && Merkle.Root(other) == root :: other == leaves
    {
      root := Merkle.Root(leaves);
      if Merkle.AllLeaves(leaves) {
        forall other | Merkle.AllLeaves(other) && Merkle.Root(other) == root
          ensures other == leaves
        {
          Merkle.RootInjective(other, leaves);
        }
      }
    }

    /** A proof is returned for exactly the indices in range, and it is the one the verifier accepts. */
    method InclusionProof(idx: nat) returns (r: Result<seq<Hash>, TreeError>)
      ensures r.Ok? <==> idx < |leaves|
      ensures r.Err? ==> r.error == if |leaves| == 0 then EmptyTree else IndexOutOfRange
      ensures r.Ok? ==> forall proof ::
                Merkle.VerifyInclusion(leaves[idx], idx, |leaves|, Merkle.Root(leaves), proof) <==> proof == r.value
    {
      if |leaves| == 0 {
        return Err(EmptyTree);
      }
      if idx >= |leaves| {
        return Err(IndexOutOfRange);
      }
      r := Ok(Merkle.Path(idx, leaves));
      forall proof
        ensures Merkle.VerifyInclusion(leaves[idx], idx, |leaves|, Merkle.Root(leaves), proof)
           <==> proof == Merkle.Path(idx, leaves)
      {
        Merkle.InclusionExact(leaves[idx], idx, leaves, proof);
      }
    }
  }

  /** The hash the next entry names as its predecessor. */
  function LastOf(leaves: seq<Hash>): Hash
  {
    if |leaves| == 0 then Zero else leaves[|leaves| - 1]
  }
}
