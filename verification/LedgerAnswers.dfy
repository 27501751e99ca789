/**
 What the ledger answers and leaves behind, spelled out in the fields of the entry, the
 head and the alert concerned, for every way in which the key or the store may fail.
 */
module LedgerAnswers {
  import opened Hashing
  import opened Wrappers
  import opened Envelopes
  import opened LedgerModel
  import Merkle

  // ------------------------------------------------------------ appending

  /** The hash of the last leaf, 32 zero bytes before the first. */
  function Predecessor(n: Node): Hash
    requires n.mem.Some?
  {
    var tree := n.mem.value.tree;
    if tree == [] then Zero else tree[|tree| - 1]
  }

  function Signed(key: Key, claim: Claim, prev: Hash): Body
  {
    var content := CanonicalEntry(claim, Full(prev));
    Carried(claim, Full(prev), SignedBy(key, EntryMessage(content)))
  }

  /** The row that is written: the claim as given, bound to the last leaf and signed by the owner. */
  function RowFor(n: Node, claim: Claim): Row
    requires n.mem.Some?
  {
    var prev := Predecessor(n);
    Row(LeafHash(CanonicalEntry(claim, Full(prev))), prev, Signed(n.key, claim, prev))
  }

  predicate IsStored(n: Node, hash: Hash)
  {
    exists i | 0 <= i < |n.disk.rows| :: n.disk.rows[i].hash == hash
  }

  /** The append gets as far as writing the entry. */
  predicate Writes(payload: Option<Body>, f: AppendFaults)
  {
    payload.Some? && payload.value.Carried? && f.keySigns
  }

  /** The write of the entry returns without an error: it was not refused as a repetition and did not fail. */
  predicate WriteReturns(n: Node, payload: Option<Body>, f: AppendFaults)
    requires n.mem.Some?
  {
    Writes(payload, f) && f.persistEntry == Done && !IsStored(n, RowFor(n, payload.value.claim).hash)
  }

  lemma {:induction false} StoredIff(n: Node, hash: Hash)
    ensures IsStored(n, hash) <==> hash in HashesOf(n.disk.rows)
  {
    var hs := HashesOf(n.disk.rows);
    if hash in hs {
      var i :| 0 <= i < |hs| && hs[i] == hash;
      assert n.disk.rows[i].hash == hash;
    }
    if IsStored(n, hash) {
      var i :| 0 <= i < |n.disk.rows| && n.disk.rows[i].hash == hash;
      assert hs[i] == hash;
    }
  }

  lemma {:induction false} RowIs(n: Node, payload: Body)
    requires n.mem.Some? && payload.Carried?
    ensures NewRow(n, payload) == RowFor(n, payload.claim)
  {
  }

  /** The error of an append is that of the first step that goes wrong; the hash is returned if none does. */
  lemma {:induction false} AppendAnswerIs(n: Node, payload: Option<Body>, f: AppendFaults, now: int)
    requires n.mem.Some?
    ensures var r := AppendOutcome(n, payload, f, now).1;
            && (r == Err(NilPayload) <==> payload.None?)
            && (r == Err(UnsetBody) <==> payload.Some? && !payload.value.Carried?)
            && (r == Err(SignFailed) <==> payload.Some? && payload.value.Carried? && !f.keySigns)
            && (r == Err(PersistEntryFailed) <==>
                  && Writes(payload, f) && !f.persistEntry.Crashed?
                  && (f.persistEntry == Failed || IsStored(n, RowFor(n, payload.value.claim).hash)))
            && (r == Err(SignHeadFailed) <==> WriteReturns(n, payload, f) && !f.keySignsHead)
            && (r == Err(PersistHeadFailed) <==>
                  WriteReturns(n, payload, f) && f.keySignsHead && f.persistHead == Failed)
            && (r == Err(ProcessDied) <==>
                  || (Writes(payload, f) && f.persistEntry.Crashed?)
                  || (WriteReturns(n, payload, f) && f.keySignsHead && f.persistHead.Crashed?))
            && (r.Ok? <==> WriteReturns(n, payload, f) && f.keySignsHead && f.persistHead == Done)
            && (r.Ok? ==> r.value == RowFor(n, payload.value.claim).hash)
  {
    if Writes(payload, f) {
      RowIs(n, payload.value);
      StoredIff(n, RowFor(n, payload.value.claim).hash);
    }
  }

  /** The entry is on disk once its write committed, even if the process died before it was told. */
  predicate EntryCommits(n: Node, payload: Option<Body>, f: AppendFaults)
    requires n.mem.Some?
  {
    Writes(payload, f) && f.persistEntry in {Done, Crashed(true)} && !IsStored(n, RowFor(n, payload.value.claim).hash)
  }

  /** So is the head. */
  predicate HeadCommits(n: Node, payload: Option<Body>, f: AppendFaults)
    requires n.mem.Some?
  {
    WriteReturns(n, payload, f) && f.keySignsHead && f.persistHead in {Done, Crashed(true)}
  }

  /** A head of the owner over these leaves. */
  function HeadFor(key: Key, tree: seq<Hash>, now: int): LogHead
  {
    var content := CanonicalHead(PeerOf(key), |tree|, Full(Merkle.Root(tree)), now);
    LogHead(PeerOf(key), |tree|, Full(Merkle.Root(tree)), now, SignedBy(key, HeadMessage(content)), [], "")
  }

  /** What an append leaves behind. */
  lemma {:induction false} AppendStateIs(n: Node, payload: Option<Body>, f: AppendFaults, now: int)
    requires n.mem.Some?
    ensures var (after, r) := AppendOutcome(n, payload, f, now);
            && after.key == n.key && after.disk.marks == n.disk.marks
            && after.disk.rows == n.disk.rows
                 + (if EntryCommits(n, payload, f) then [RowFor(n, payload.value.claim)] else [])
            && (after.mem.None? <==> r == Err(ProcessDied))
            && (after.mem.Some? ==>
                  after.mem.value.tree
                    == n.mem.value.tree
                       + if EntryCommits(n, payload, f) then [RowFor(n, payload.value.claim).hash] else [])
  {
    if Writes(payload, f) {
      RowIs(n, payload.value);
      StoredIff(n, RowFor(n, payload.value.claim).hash);
    }
  }

  lemma {:induction false} AppendHeadIs(n: Node, payload: Option<Body>, f: AppendFaults, now: int)
    requires n.mem.Some?
    ensures var (after, r) := AppendOutcome(n, payload, f, now);
            && after.disk.heads
                 == (if HeadCommits(n, payload, f)
                     then var head := HeadFor(n.key, n.mem.value.tree + [RowFor(n, payload.value.claim).hash], now);
                          n.disk.heads[head.treeSize := head]
                     else n.disk.heads)
            && (after.mem.Some? ==>
                  after.mem.value.lastHead
                    == if r.Ok? then Some(HeadFor(n.key, n.mem.value.tree + [r.value], now)) else n.mem.value.lastHead)
  {
    if Writes(payload, f) {
      RowIs(n, payload.value);
      StoredIff(n, RowFor(n, payload.value.claim).hash);
    }
  }

  // ------------------------------------------------------------ alerts

  /** The peer signed this head, whatever peer the head names. */
  predicate Signs(peer: PeerId, head: LogHead)
  {
    peer.PeerOf? &&
    head.sig == SignedBy(peer.key, HeadMessage(CanonicalHead(head.peer, head.treeSize, head.root, head.timestamp)))
  }

  /** Both heads are there, the witness signed the alert, and its subject signed both heads in its own name. */
  predicate IsProven(al: Alert)
  {
    && al.headA.Some? && al.headB.Some? && IsSignedAlert(al)
    && Signs(al.peer, al.headA.value) && Signs(al.peer, al.headB.value)
    && al.headA.value.peer == al.peer == al.headB.value.peer
  }

  /** Every verdict on an alert, by the first thing that is wrong with it. */
  lemma {:induction false} AlertVerdictIs(al: Alert)
    ensures var v := JudgeAlert(Some(al));
            && (v == Rejected(MissingHeads) <==> al.headA.None? || al.headB.None?)
            && (v == Rejected(BadWitness) <==> al.headA.Some? && al.headB.Some? && al.witnessId.BadPeer?)
            && (v == Rejected(WitnessSignatureInvalid) <==>
                  al.headA.Some? && al.headB.Some? && al.witnessId.PeerOf? && !IsSignedAlert(al))
            && (v == Rejected(BadOffender) <==>
                  al.headA.Some? && al.headB.Some? && IsSignedAlert(al) && al.peer.BadPeer?)
            && (v == Rejected(HeadANotSigned) <==>
                  && al.headA.Some? && al.headB.Some? && IsSignedAlert(al) && al.peer.PeerOf?
                  && !Signs(al.peer, al.headA.value))
            && (v == Rejected(HeadBNotSigned) <==>
                  && al.headA.Some? && al.headB.Some? && IsSignedAlert(al) && Signs(al.peer, al.headA.value)
                  && !Signs(al.peer, al.headB.value))
            && (v == Rejected(HeadPeerMismatch) <==>
                  && al.headA.Some? && al.headB.Some? && IsSignedAlert(al)
                  && Signs(al.peer, al.headA.value) && Signs(al.peer, al.headB.value) && !IsProven(al))
            && (v == NoOffence <==> IsProven(al) && al.headA == al.headB)
            && (v == Rejected(DifferentSizes) <==>
                  IsProven(al) && al.headA.value.treeSize != al.headB.value.treeSize)
            && (v == Rejected(SameRoot) <==>
                  && IsProven(al) && al.headA != al.headB && al.headA.value.treeSize == al.headB.value.treeSize
                  && al.headA.value.root == al.headB.value.root)
            && (v == Marks <==>
                  && IsProven(al) && al.headA.value.treeSize == al.headB.value.treeSize
                  && al.headA.value.root != al.headB.value.root)
  {
  }

  /** Only the marks change: the subject of a marking alert is marked if the write committed, with the first evidence. */
  lemma {:induction false} AlertStateIs(n: Node, al: Alert, io: Io)
    requires n.mem.Some?
    ensures var after := AlertOutcome(n, Some(al), io);
            && after == n.(mem := after.mem, disk := n.disk.(marks := after.disk.marks))
            && (forall p :: p in after.disk.marks
                  <==> p in n.disk.marks || (p == al.peer && JudgeAlert(Some(al)) == Marks && io in {Done, Crashed(true)}))
            && (forall p | p in after.disk.marks ::
                  after.disk.marks[p] == if p in n.disk.marks then n.disk.marks[p] else al)
            && after.mem == if JudgeAlert(Some(al)) == Marks && io.Crashed? then None else n.mem
  {
  }

  // ------------------------------------------------------------ opening

  /** The stored head of the largest size. */
  ghost predicate IsNewest(head: LogHead, heads: map<nat, LogHead>)
  {
    exists s :: s in heads && heads[s] == head && forall t | t in heads :: t <= s
  }

  /**
   Opening leaves rows and marks alone and rebuilds the tree from the rows.  The newest stored
   head, if it could be read, is served if it is as large as the tree or the key fails;
   otherwise a new head over the tree is, once it is stored.
   */
  lemma {:induction false} OpenIs(n: Node, f: RestartFaults, now: int)
    ensures var after := RestartOutcome(n, f, now);
            && after.key == n.key && after.disk.rows == n.disk.rows && after.disk.marks == n.disk.marks
            && (!f.rebuilds ==> after.mem.None? && after.disk.heads == n.disk.heads)
            && (after.mem.Some? ==>
                  && |after.mem.value.tree| == |n.disk.rows|
                  && forall i | 0 <= i < |n.disk.rows| :: after.mem.value.tree[i] == n.disk.rows[i].hash)
            && (f.rebuilds && (!f.loadsHead || n.disk.heads == map[]) ==>
                  after.mem.Some? && after.mem.value.lastHead.None? && after.disk.heads == n.disk.heads)
            && (f.rebuilds && f.loadsHead && n.disk.heads != map[] ==>
                  exists head :: IsNewest(head, n.disk.heads) && ServesFrom(n, head, f, now, after))
  {
    if f.rebuilds && f.loadsHead && n.disk.heads != map[] {
      var head := n.disk.heads[LatestSize(n.disk.heads)];
      assert IsNewest(head, n.disk.heads);
      assert ServesFrom(n, head, f, now, RestartOutcome(n, f, now));
    }
  }

  /** What is served and stored when the newest stored head is this one. */
  ghost predicate ServesFrom(n: Node, head: LogHead, f: RestartFaults, now: int, after: Node)
  {
    if head.treeSize == |n.disk.rows| || !f.keySigns
    then after.mem.Some? && after.mem.value.lastHead == Some(head) && after.disk.heads == n.disk.heads
    else
      var renewed := HeadFor(n.key, HashesOf(n.disk.rows), now);
      && after.disk.heads
           == (if f.persistHead in {Done, Crashed(true)} then n.disk.heads[|n.disk.rows| := renewed] else n.disk.heads)
      && (after.mem.None? <==> f.persistHead.Crashed?)
      && (f.persistHead == Done ==> after.mem.value.lastHead == Some(renewed))
      && (f.persistHead == Failed ==> after.mem.value.lastHead == Some(head))
  }

  /** The answer to a proof request: the row with the hash, its audit path and the head served. */
  lemma {:induction false} ProveIs(n: Node, hash: Hash)
    requires n.mem.Some?
    ensures var r, rows := Prove(n, hash), n.disk.rows;
            && (r == Err(EntryNotInLog) <==> !IsStored(n, hash))
            && (r == Err(TreeRefused) ==> |n.mem.value.tree| < |rows|)
            && (r == Err(NoHead) ==> n.mem.value.lastHead.None?)
            && (r.Ok? ==>
                  && r.value.logHead == n.mem.value.lastHead && r.value.logHead.Some?
                  && r.value.position < |rows| && r.value.position < |n.mem.value.tree|
                  && rows[r.value.position].hash == hash && r.value.entry == Some(rows[r.value.position].body)
                  && |r.value.auditPath| == |Merkle.Path(r.value.position, n.mem.value.tree)|
                  && forall i | 0 <= i < |r.value.auditPath| ::
                       r.value.auditPath[i] == Full(Merkle.Path(r.value.position, n.mem.value.tree)[i]))
  {
    StoredIff(n, hash);
  }
}
