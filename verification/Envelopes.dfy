/**
 Signed envelopes: entries, log heads, inclusion proofs and equivocation
 alerts, with the signing and verification code of sign.go and impl.go.
 Signatures are ideal: one names the key and the message it was made for.
 */
module Envelopes {
  import opened Hashing
  import opened Wrappers
  import Merkle
  import MerkleWords

  datatype Signature =
    | NoSignature
    | SignedBy(key: Key, message: Message)
    | Garbage(bits: nat)

  datatype Message =
    | EntryMessage(entry: CanonicalEntry)
    | HeadMessage(head: CanonicalHead)
    | AlertMessage(alert: CanonicalAlert)

  datatype CanonicalHead = CanonicalHead(peer: PeerId, treeSize: nat, root: HashField, timestamp: int)

  datatype CanonicalAlert =
    CanonicalAlert(peer: PeerId, headA: Option<LogHead>, headB: Option<LogHead>, witnessId: PeerId, timestamp: int)

  /** The oneof a SignedEntry carries; both alternatives end in `prev_hash` and `signature`. */
  datatype Body =
    | Unset
    | NilBody // an alternative is chosen but its message is nil
    | Carried(claim: Claim, prev: HashField, sig: Signature)

  datatype LogHead =
    LogHead(peer: PeerId, treeSize: nat, root: HashField, timestamp: int, sig: Signature,
            witnessSigs: seq<Signature>, rekorAnchor: string)

  datatype InclusionProof =
    InclusionProof(entry: Option<Body>, position: nat, auditPath: seq<HashField>, logHead: Option<LogHead>)

  datatype Alert =
    Alert(peer: PeerId, headA: Option<LogHead>, headB: Option<LogHead>, witnessId: PeerId,
          witnessSig: Signature, timestamp: int)

  datatype Error =
    | NilPayload
    | NilEntry
    | UnsetBody
    | InvalidRaterPeerId
    | SignFailed
    | ZeroHash
    | PersistEntryFailed
    | SignHeadFailed
    | PersistHeadFailed
    | ProcessDied
    | EntryNotInLog
    | TreeRefused
    | NoHead
    | NilProof
    | ProofWithoutHead
    | ProofWithoutEntry
    | BadAuditPath(index: nat)
    | BadRootLength
    | BadHeadPeer
    | NilAlert
    | MissingHeads
    | BadWitness
    | WitnessSignatureInvalid
    | BadOffender
    | HeadANotSigned
    | HeadBNotSigned
    | HeadPeerMismatch
    | DifferentSizes
    | SameRoot
    | MarkFailed

  // ------------------------------------------------------------ canonical forms

  function Canonical(body: Body): CanonicalEntry
    requires body.Carried?
  {
    CanonicalEntry(body.claim, body.prev)
  }

  /** Signature, witness signatures and anchor are stripped. */
  function CanonicalOfHead(head: LogHead): CanonicalHead
  {
    CanonicalHead(head.peer, head.treeSize, head.root, head.timestamp)
  }

  function CanonicalOfAlert(alert: Alert): CanonicalAlert
  {
    CanonicalAlert(alert.peer, alert.headA, alert.headB, alert.witnessId, alert.timestamp)
  }

  predicate Verifies(key: Key, message: Message, sig: Signature)
  {
    sig == SignedBy(key, message)
  }

  // ------------------------------------------------------------ entries

  /** A SignedEntry as callers hold it: signing writes into it. */
  class SignedEntry {
    var body: Body

    constructor (body: Body)
      ensures this.body == body
    {
      this.body := body;
    }
  }

  /** What signing leaves in the entry: the predecessor is bound in, the signature only if the key signed. */
  function SignedBody(key: Key, body: Body, prev: Hash, keySigns: bool): (r: Body)
    ensures r.Carried? <==> body.Carried?
    ensures r.Carried? ==> r.prev == Full(prev)
  {
    if !body.Carried? then body
    else
      var b := body.(prev := Full(prev), sig := NoSignature);
      if keySigns then b.(sig := SignedBy(key, EntryMessage(Canonical(b)))) else b
  }

  method SignEntry(key: Key, entry: SignedEntry?, prev: Hash, keySigns: bool) returns (r: Option<Error>)
    modifies entry
    ensures r == if entry == null then Some(NilEntry)
                 else if !old(entry.body).Carried? then Some(UnsetBody)
                 else if !keySigns then Some(SignFailed) else None
    ensures entry != null ==> entry.body == SignedBody(key, old(entry.body), prev, keySigns)
  {
    if entry == null {
      return Some(NilEntry);
    }
    match entry.body {
      case Unset => return Some(UnsetBody);
      case NilBody => return Some(UnsetBody);
      case Carried(_, _, _) =>
        entry.body := entry.body.(prev := Full(prev));
        entry.body := entry.body.(sig := NoSignature);
        if !keySigns {
          return Some(SignFailed);
        }
        entry.body := entry.body.(sig := SignedBy(key, EntryMessage(Canonical(entry.body))));
        return None;
    }
  }

  function VerifyEntry(entry: Option<Body>): Result<bool, Error>
  {
    match entry
    case None => Err(NilEntry)
    case Some(body) =>
      if !body.Carried? then Err(UnsetBody)
      else if body.claim.rater.BadPeer? then Err(InvalidRaterPeerId)
      else Ok(Verifies(body.claim.rater.key, EntryMessage(Canonical(body)), body.sig))
  }

  function EntryHash(body: Body): Hash
  {
    if body.Carried? then LeafHash(Canonical(body)) else Zero
  }

  /** What an entry signed by `key` claims is accepted under exactly the signer's own identity. */
  lemma SignThenVerify(key: Key, body: Body, prev: Hash)
    requires body.Carried?
    ensures var b := SignedBody(key, body, prev, true);
            && VerifyEntry(Some(b)) == (if b.claim.rater.BadPeer? then Err(InvalidRaterPeerId)
                                        else Ok(b.claim.rater == PeerOf(key)))
            && b.claim.rater == body.claim.rater
  {
  }

  /** A verified entry cannot be changed in any signed field: two with one signature have one hash. */
  lemma SignatureBindsEntry(a: Body, b: Body)
    requires VerifyEntry(Some(a)) == Ok(true) && VerifyEntry(Some(b)) == Ok(true)
    ensures EntryHash(a) == EntryHash(b) <==> a.sig == b.sig
    ensures EntryHash(a) == EntryHash(b) <==> a == b
  {
  }

  // ------------------------------------------------------------ inclusion proofs

  function AllFull(fields: seq<HashField>): bool
  {
    forall i | 0 <= i < |fields| :: fields[i].Full?
  }

  function Hashes(fields: seq<HashField>): (r: seq<Hash>)
    requires AllFull(fields)
    ensures |r| == |fields| && forall i | 0 <= i < |r| :: Full(r[i]) == fields[i]
  {
    if |fields| == 0 then [] else Hashes(fields[..|fields| - 1]) + [fields[|fields| - 1].hash]
  }

  /** The first audit-path element that is not 32 bytes long. */
  function FirstBad(fields: seq<HashField>): (i: nat)
    requires !AllFull(fields)
    ensures i < |fields| && fields[i].WrongLength? && forall j | 0 <= j < i :: fields[j].Full?
  {
    if fields[0].WrongLength? then 0
    else
      assert exists j | 0 <= j < |fields| :: fields[j].WrongLength? && fields[j] == fields[1..][j - 1];
      1 + FirstBad(fields[1..])
  }

  predicate HeadVerifies(head: LogHead)
  {
    head.peer.PeerOf? && Verifies(head.peer.key, HeadMessage(CanonicalOfHead(head)), head.sig)
  }

  /** What stops the verification before the tree is looked at, if anything does. */
  function EarlierVerdict(proof: Option<InclusionProof>): (r: Option<Result<bool, Error>>)
    ensures r.None? ==>
              && proof.Some? && proof.value.logHead.Some? && proof.value.logHead.value.root.Full?
              && proof.value.entry.Some? && VerifyEntry(proof.value.entry) == Ok(true) && AllFull(proof.value.auditPath)
  {
    if proof.None? then Some(Err(NilProof))
    else if proof.value.logHead.None? then Some(Err(ProofWithoutHead))
    else if proof.value.entry.None? || proof.value.entry.value.Unset? then Some(Err(ProofWithoutEntry))
    else
      var p := proof.value;
      var entryOk := VerifyEntry(p.entry);
      if entryOk.Err? then Some(entryOk)
      else if !entryOk.value then Some(Ok(false))
      else if !AllFull(p.auditPath) then Some(Err(BadAuditPath(FirstBad(p.auditPath))))
      else if p.logHead.value.root.WrongLength? then Some(Err(BadRootLength))
      else None
  }

  /** The last part of the verification. */
  function HeadVerdict(head: LogHead): Result<bool, Error>
  {
    if head.peer.BadPeer? then Err(BadHeadPeer) else Ok(HeadVerifies(head))
  }

  /** The verdict on an inclusion proof received from anyone, for sizes that a tree can have. */
  function CheckProof(proof: Option<InclusionProof>): Result<bool, Error>
  {
    match EarlierVerdict(proof)
    case Some(verdict) => verdict
    case None =>
      var p, head := proof.value, proof.value.logHead.value;
      if !Merkle.VerifyInclusion(EntryHash(p.entry.value), p.position, head.treeSize, head.root.hash, Hashes(p.auditPath))
      then Ok(false)
      else HeadVerdict(head)
  }

  /** A head carries the signature of the peer it names over all its other fields. */
  predicate IsSignedHead(head: LogHead)
  {
    head.peer.PeerOf? &&
    head.sig == SignedBy(head.peer.key, HeadMessage(CanonicalHead(head.peer, head.treeSize, head.root, head.timestamp)))
  }

  /** An entry carries the signature of the peer it names as its rater over all its other fields. */
  predicate IsSignedEntry(body: Body)
  {
    body.Carried? && body.claim.rater.PeerOf? &&
    body.sig == SignedBy(body.claim.rater.key, EntryMessage(CanonicalEntry(body.claim, body.prev)))
  }

  /**
   A proof is accepted if and only if its entry is signed by its rater, every field has
   its length, the path leads from the entry's hash to the root, and the head is signed
   by the peer it names.
   */
  lemma ProofAcceptedIff(p: InclusionProof)
    ensures CheckProof(Some(p)) == Ok(true)
       <==> && p.entry.Some? && IsSignedEntry(p.entry.value)
            && (forall i | 0 <= i < |p.auditPath| :: p.auditPath[i].Full?)
            && p.logHead.Some? && p.logHead.value.root.Full? && IsSignedHead(p.logHead.value)
            && Merkle.VerifyInclusion(
                 LeafHash(CanonicalEntry(p.entry.value.claim, p.entry.value.prev)), p.position,
                 p.logHead.value.treeSize, p.logHead.value.root.hash,
                 seq(|p.auditPath|, i requires 0 <= i < |p.auditPath| && p.auditPath[i].Full? => p.auditPath[i].hash))
  {
    if AllFull(p.auditPath) {
      assert Hashes(p.auditPath)
          == seq(|p.auditPath|, i requires 0 <= i < |p.auditPath| && p.auditPath[i].Full? => p.auditPath[i].hash);
    }
  }

  /** The verdict on a proof that is not accepted: refused, or an error for what cannot be read. */
  lemma ProofErrorIff(p: InclusionProof)
    ensures CheckProof(Some(p)) == Err(ProofWithoutHead) <==> p.logHead.None?
    ensures CheckProof(Some(p)) == Err(ProofWithoutEntry)
       <==> p.logHead.Some? && (p.entry.None? || p.entry.value.Unset?)
    ensures CheckProof(Some(p)) == Err(UnsetBody) <==> p.logHead.Some? && p.entry == Some(NilBody)
    ensures CheckProof(Some(p)) == Err(InvalidRaterPeerId)
       <==> p.logHead.Some? && p.entry.Some? && p.entry.value.Carried? && p.entry.value.claim.rater.BadPeer?
    ensures (exists i :: CheckProof(Some(p)) == Err(BadAuditPath(i)))
       <==> p.logHead.Some? && p.entry.Some? && IsSignedEntry(p.entry.value)
            && exists i :: 0 <= i < |p.auditPath| && p.auditPath[i].WrongLength?
    ensures CheckProof(Some(p)) == Err(BadRootLength)
       <==> && p.logHead.Some? && p.entry.Some? && IsSignedEntry(p.entry.value)
            && (forall i | 0 <= i < |p.auditPath| :: p.auditPath[i].Full?) && p.logHead.value.root.WrongLength?
    ensures CheckProof(Some(p)) == Err(BadHeadPeer)
       <==> && p.entry.Some? && IsSignedEntry(p.entry.value) && AllFull(p.auditPath)
            && p.logHead.Some? && p.logHead.value.root.Full? && p.logHead.value.peer.BadPeer?
            && Merkle.VerifyInclusion(
                 LeafHash(CanonicalEntry(p.entry.value.claim, p.entry.value.prev)), p.position,
                 p.logHead.value.treeSize, p.logHead.value.root.hash, Hashes(p.auditPath))
  {
  }

  /** The answer on any proof, or nothing if a split loop still runs after `steps` shifts. */
  function CheckProofWithin(proof: Option<InclusionProof>, steps: nat): Option<Result<bool, Error>>
  {
    match EarlierVerdict(proof)
    case Some(verdict) => Some(verdict)
    case None =>
      var p, head := proof.value, proof.value.logHead.value;
      match MerkleWords.InclusionWithin(EntryHash(p.entry.value), p.position, head.treeSize, head.root.hash,
                                        Hashes(p.auditPath), steps)
      case None => None
      case Some(included) => Some(if included then HeadVerdict(head) else Ok(false))
  }

  /** The position and size of a proof fit the 64-bit fields they come in. */
  predicate FitsWords(proof: Option<InclusionProof>)
  {
    proof.Some? && proof.value.logHead.Some? ==>
      proof.value.position < Merkle.TWO_64 && proof.value.logHead.value.treeSize < Merkle.TWO_64
  }

  /**
   The verification returns, and then with the verdict, exactly if an earlier check
   stops it, the position is out of range, or the size is at most 2^63.
   */
  lemma CheckProofAnswersIff(proof: Option<InclusionProof>)
    requires FitsWords(proof)
    ensures (exists steps: nat :: CheckProofWithin(proof, steps).Some?)
       <==> || EarlierVerdict(proof).Some?
            || proof.value.position >= proof.value.logHead.value.treeSize
            || proof.value.logHead.value.treeSize <= Merkle.TWO_63
    ensures forall steps: nat, r | CheckProofWithin(proof, steps) == Some(r) :: r == CheckProof(proof)
  {
    if EarlierVerdict(proof).Some? {
      assert CheckProofWithin(proof, 0).Some?;
    } else {
      TreePartAnswersIff(proof);
    }
  }

  lemma TreePartAnswersIff(proof: Option<InclusionProof>)
    requires FitsWords(proof) && EarlierVerdict(proof).None?
    ensures (exists steps: nat :: CheckProofWithin(proof, steps).Some?)
       <==> || proof.value.position >= proof.value.logHead.value.treeSize
            || proof.value.logHead.value.treeSize <= Merkle.TWO_63
    ensures forall steps: nat, r | CheckProofWithin(proof, steps) == Some(r) :: r == CheckProof(proof)
  {
    var p, head := proof.value, proof.value.logHead.value;
    var leaf, path := EntryHash(p.entry.value), Hashes(p.auditPath);
    MerkleWords.InclusionAnswersIff(leaf, p.position, head.treeSize, head.root.hash, path);
    if steps: nat :|
      MerkleWords.InclusionWithin(leaf, p.position, head.treeSize, head.root.hash, path, steps).Some? {
      assert CheckProofWithin(proof, steps).Some?;
    }
  }

  /** A proof for an entry one signed oneself, with an unsigned head of a size above 2^63. */
  function HugeProof(key: Key, claim: Claim): InclusionProof
  {
    var entry := SignedBody(key, Carried(claim, Full(Zero), NoSignature), Zero, true);
    var head := LogHead(PeerOf(key), Merkle.TWO_63 + 1, Full(Zero), 0, NoSignature, [], "");
    InclusionProof(Some(entry), 0, [], Some(head))
  }

  /** Such a proof is never answered, although the verdict on it is no. */
  lemma HugeProofIsNeverAnswered(key: Key, claim: Claim)
    requires claim.rater == PeerOf(key)
    ensures var proof := Some(HugeProof(key, claim));
            FitsWords(proof) && CheckProof(proof) == Ok(false) && forall steps: nat :: CheckProofWithin(proof, steps).None?
  {
    var proof := Some(HugeProof(key, claim));
    SignThenVerify(key, Carried(claim, Full(Zero), NoSignature), Zero);
    assert EarlierVerdict(proof).None?;
    CheckProofAnswersIff(proof);
    ShortPathIsRefused(proof);
  }

  lemma ShortPathIsRefused(proof: Option<InclusionProof>)
    requires EarlierVerdict(proof).None? && proof.value.auditPath == [] && proof.value.logHead.value.treeSize >= 2
    ensures CheckProof(proof) == Ok(false)
  {
    var p, head := proof.value, proof.value.logHead.value;
    Merkle.EmptyPathIsRefused(EntryHash(p.entry.value), p.position, head.treeSize, head.root.hash);
  }

  /** `None` if a split loop still runs after `steps` shifts. */
  method VerifyInclusionProof(proof: Option<InclusionProof>, steps: nat) returns (r: Option<Result<bool, Error>>)
    ensures r == CheckProofWithin(proof, steps)
  {
    if proof.None? {
      return Some(Err(NilProof));
    }
    var p := proof.value;
    if p.logHead.None? {
      return Some(Err(ProofWithoutHead));
    }
    if p.entry.None? || p.entry.value.Unset? {
      return Some(Err(ProofWithoutEntry));
    }
    var ok := VerifyEntry(p.entry);
    if ok.Err? || !ok.value {
      return Some(ok);
    }
    var leaf := EntryHash(p.entry.value);
    var auditPath: array<Hash> := new Hash[|p.auditPath|](_ => Zero);
    var i := 0;
    while i < |p.auditPath|
      invariant 0 <= i <= |p.auditPath| == auditPath.Length
      invariant forall j | 0 <= j < i :: p.auditPath[j] == Full(auditPath[j])
    {
      if p.auditPath[i].WrongLength? {
        assert FirstBad(p.auditPath) == i;
        return Some(Err(BadAuditPath(i)));
      }
      auditPath[i] := p.auditPath[i].hash;
      i := i + 1;
    }
    assert auditPath[..] == Hashes(p.auditPath);
    var head := p.logHead.value;
    if head.root.WrongLength? {
      return Some(Err(BadRootLength));
    }
    var included := MerkleWords.InclusionWithin(leaf, p.position, head.treeSize, head.root.hash, auditPath[..], steps);
    if included.None? {
      return None;
    }
    if !included.value {
      return Some(Ok(false));
    }
    if head.peer.BadPeer? {
      return Some(Err(BadHeadPeer));
    }
    return Some(Ok(Verifies(head.peer.key, HeadMessage(CanonicalOfHead(head)), head.sig)));
  }

  // ------------------------------------------------------------ equivocation alerts

  /** An alert carries its witness's signature over all its other fields. */
  predicate IsSignedAlert(al: Alert)
  {
    al.witnessId.PeerOf? &&
    al.witnessSig == SignedBy(al.witnessId.key,
                              AlertMessage(CanonicalAlert(al.peer, al.headA, al.headB, al.witnessId, al.timestamp)))
  }

  /** An alert leads to a mark if and only if it shows two heads its subject signed for one size with two roots. */
  lemma AlertMarksIff(al: Alert)
    ensures JudgeAlert(Some(al)) == Marks
       <==> && IsSignedAlert(al) && al.headA.Some? && al.headB.Some?
            && IsSignedHead(al.headA.value) && IsSignedHead(al.headB.value)
            && al.headA.value.peer == al.peer == al.headB.value.peer
            && al.headA.value.treeSize == al.headB.value.treeSize && al.headA.value.root != al.headB.value.root
  {
  }

  datatype Verdict = Marks | NoOffence | Rejected(error: Error)

  /** Two heads one key signed for one log position with two contents. */
  predicate Conflict(a: LogHead, b: LogHead)
  {
    && HeadVerifies(a) && HeadVerifies(b)
    && a.peer == b.peer
    && a.treeSize == b.treeSize
    && a.root != b.root
  }

  /** The validation chain an alert goes through before its subject is branded. */
  function JudgeAlert(alert: Option<Alert>): (v: Verdict)
    ensures v == Marks <==>
            && alert.Some? && alert.value.headA.Some? && alert.value.headB.Some?
            && alert.value.witnessId.PeerOf?
            && Verifies(alert.value.witnessId.key, AlertMessage(CanonicalOfAlert(alert.value)), alert.value.witnessSig)
            && alert.value.headA.value.peer == alert.value.peer
            && Conflict(alert.value.headA.value, alert.value.headB.value)
  {
    if alert.None? then Rejected(NilAlert)
    else
      var al := alert.value;
      if al.headA.None? || al.headB.None? then Rejected(MissingHeads)
      else if al.witnessId.BadPeer? then Rejected(BadWitness)
      else if !Verifies(al.witnessId.key, AlertMessage(CanonicalOfAlert(al)), al.witnessSig)
        then Rejected(WitnessSignatureInvalid)
      else if al.peer.BadPeer? then Rejected(BadOffender)
      else
        var a, b := al.headA.value, al.headB.value;
        if !Verifies(al.peer.key, HeadMessage(CanonicalOfHead(a)), a.sig) then Rejected(HeadANotSigned)
        else if !Verifies(al.peer.key, HeadMessage(CanonicalOfHead(b)), b.sig) then Rejected(HeadBNotSigned)
        else if a.peer != al.peer || b.peer != al.peer then Rejected(HeadPeerMismatch)
        else if a == b then NoOffence
        else if a.treeSize != b.treeSize then Rejected(DifferentSizes)
        else if a.root == b.root then Rejected(SameRoot)
        else Marks
  }
}
