/** What every run of a ledger keeps, whatever fails and wherever it crashes. */
module LedgerTheorems {
  import opened Hashing
  import opened Wrappers
  import opened Envelopes
  import opened LedgerModel
  import opened MerkleTree
  import Merkle

  // ------------------------------------------------------------ the invariant

  function PrevOf(rows: seq<Row>, i: nat): Hash
    requires i <= |rows|
  {
    if i == 0 then Zero else rows[i - 1].hash
  }

  /** Every row is signed by the owner, hashed as stored, and names its predecessor. */
  ghost predicate Chained(key: Key, rows: seq<Row>)
  {
    && (forall i | 0 <= i < |rows| ::
          && rows[i].body.Carried?
          && rows[i].body.prev == Full(rows[i].prev)
          && rows[i].hash == EntryHash(rows[i].body)
          && rows[i].body.sig == SignedBy(key, EntryMessage(Canonical(rows[i].body))))
    && (forall i {:trigger PrevOf(rows, i)} | 0 <= i < |rows| :: rows[i].prev == PrevOf(rows, i))
  }

  /** The head commits to a non-empty prefix of the log. */
  ghost predicate CommitsTo(head: CanonicalHead, key: Key, log: seq<Hash>)
  {
    && head.peer == PeerOf(key)
    && 1 <= head.treeSize <= |log|
    && head.root == Full(Merkle.Mth(log[..head.treeSize]))
  }

  /** No head the key ever signed commits to anything but a prefix of the log. */
  ghost predicate HonestlySigned(key: Key, signed: set<Message>, log: seq<Hash>)
  {
    forall h | HeadMessage(h) in signed :: CommitsTo(h, key, log)
  }

  ghost predicate Published(head: LogHead, signed: set<Message>)
  {
    HeadVerifies(head) && HeadMessage(CanonicalOfHead(head)) in signed
  }

  ghost predicate HeadsPublished(heads: map<nat, LogHead>, signed: set<Message>)
  {
    forall s | s in heads :: heads[s].treeSize == s && Published(heads[s], signed)
  }

  ghost predicate Inv(n: Node)
  {
    && Chained(n.key, n.disk.rows)
    && HonestlySigned(n.key, n.signed, HashesOf(n.disk.rows))
    && HeadsPublished(n.disk.heads, n.signed)
    && (n.mem.Some? ==>
          && n.mem.value.tree == HashesOf(n.disk.rows)
          && (n.mem.value.lastHead.Some? ==> Published(n.mem.value.lastHead.value, n.signed)))
  }

  // ------------------------------------------------------------ the chain

  lemma RowLinks(key: Key, rows: seq<Row>, i: nat)
    requires Chained(key, rows) && i < |rows|
    ensures rows[i].hash.LeafHash? && Depth(rows[i].hash) == 1 + Depth(PrevOf(rows, i))
  {
    assert rows[i].hash == LeafHash(CanonicalEntry(rows[i].body.claim, Full(PrevOf(rows, i))));
  }

  lemma {:induction false} RowDepth(key: Key, rows: seq<Row>, i: nat)
    requires Chained(key, rows) && i < |rows|
    ensures rows[i].hash.LeafHash? && Depth(rows[i].hash) == i + 1
  {
    RowLinks(key, rows, i);
    if i > 0 {
      RowDepth(key, rows, i - 1);
    }
  }

  /** Linking each entry to the last makes all leaf hashes of one log different. */
  lemma ChainIsDistinct(key: Key, rows: seq<Row>)
    requires Chained(key, rows)
    ensures Merkle.AllLeaves(HashesOf(rows)) && Merkle.Distinct(HashesOf(rows))
  {
    forall i | 0 <= i < |rows| ensures rows[i].hash.LeafHash? && Depth(rows[i].hash) == i + 1 {
      RowDepth(key, rows, i);
    }
  }

  /** The UNIQUE constraint never refuses the entry an intact ledger is about to append. */
  lemma NextHashIsNew(key: Key, rows: seq<Row>, body: Body)
    requires Chained(key, rows) && body.Carried?
    requires body.prev == Full(LastOf(HashesOf(rows)))
    ensures EntryHash(body) !in HashesOf(rows)
  {
    var hs := HashesOf(rows);
    if |rows| > 0 {
      RowDepth(key, rows, |rows| - 1);
    }
    assert Depth(EntryHash(body)) == |rows| + 1;
    forall i | 0 <= i < |rows| ensures hs[i] != EntryHash(body) {
      RowDepth(key, rows, i);
    }
  }

  lemma HashesAppend(rows: seq<Row>, row: Row)
    ensures HashesOf(rows + [row]) == HashesOf(rows) + [row.hash]
  {
  }

  // ------------------------------------------------------------ preservation

  lemma GrowthKeepsHeads(key: Key, signed: set<Message>, log: seq<Hash>, x: Hash)
    requires HonestlySigned(key, signed, log)
    ensures HonestlySigned(key, signed, log + [x])
  {
    forall h | HeadMessage(h) in signed ensures CommitsTo(h, key, log + [x]) {
      assert (log + [x])[..h.treeSize] == log[..h.treeSize];
    }
  }

  lemma ChainGrows(n: Node, payload: Body)
    requires Chained(n.key, n.disk.rows) && payload.Carried?
    requires n.mem.Some? && n.mem.value.tree == HashesOf(n.disk.rows)
    ensures Chained(n.key, n.disk.rows + [NewRow(n, payload)])
  {
    var rows, row := n.disk.rows, NewRow(n, payload);
    assert row.prev == PrevOf(rows, |rows|);
    forall i | 0 <= i <= |rows| ensures PrevOf(rows + [row], i) == PrevOf(rows, i) {
    }
  }

  lemma SigningHeadIsHonest(key: Key, signed: set<Message>, log: seq<Hash>, now: int)
    requires HonestlySigned(key, signed, log) && |log| > 0
    ensures var head := NewHead(key, log, now);
            && HeadVerifies(head)
            && HonestlySigned(key, signed + {HeadMessage(CanonicalOfHead(head))}, log)
  {
    assert log[..|log|] == log;
    assert CommitsTo(CanonicalOfHead(NewHead(key, log, now)), key, log);
  }

  lemma StoringHeadIsPublic(heads: map<nat, LogHead>, signed: set<Message>, head: LogHead)
    requires HeadsPublished(heads, signed) && HeadVerifies(head)
    ensures var more := signed + {HeadMessage(CanonicalOfHead(head))};
            HeadsPublished(heads, more) && HeadsPublished(heads[head.treeSize := head], more)
  {
  }

  lemma PublishKeepsInv(n: Node, io: Io, now: int)
    requires Inv(n) && n.mem.Some? && |n.mem.value.tree| > 0
    ensures Inv(PublishHead(n, io, now))
  {
    var head := NewHead(n.key, n.mem.value.tree, now);
    SigningHeadIsHonest(n.key, n.signed, n.mem.value.tree, now);
    StoringHeadIsPublic(n.disk.heads, n.signed, head);
    var after := PublishHead(n, io, now);
    assert after.signed == n.signed + {HeadMessage(CanonicalOfHead(head))};
    assert after.disk.rows == n.disk.rows && after.key == n.key;
  }

  lemma SigningEntryKeepsInv(n: Node, row: Row)
    requires Inv(n) && row.body.Carried?
    ensures Inv(EntrySigned(n, row))
  {
  }

  lemma DownKeepsInv(n: Node)
    requires Inv(n)
    ensures Inv(Down(n))
  {
  }

  /** Rows and tree grow together by an entry chained to the last. */
  lemma GrowKeepsInv(n: Node, payload: Body)
    requires Inv(n) && n.mem.Some? && payload.Carried?
    ensures Inv(Grown(n, NewRow(n, payload)))
  {
    var row := NewRow(n, payload);
    HashesAppend(n.disk.rows, row);
    GrowthKeepsHeads(n.key, n.signed, HashesOf(n.disk.rows), row.hash);
    ChainGrows(n, payload);
  }

  lemma AppendKeepsInv(n: Node, payload: Option<Body>, f: AppendFaults, now: int)
    requires Inv(n) && n.mem.Some?
    ensures Inv(AppendOutcome(n, payload, f, now).0)
  {
    if payload.Some? && payload.value.Carried? && f.keySigns {
      var row := NewRow(n, payload.value);
      var signed := EntrySigned(n, row);
      SigningEntryKeepsInv(n, row);
      assert NewRow(signed, payload.value) == row;
      GrowKeepsInv(signed, payload.value);
      match EntryWrite(n.disk.rows, row, f.persistEntry)
      case Failed =>
      case Crashed(durable) => DownKeepsInv(if durable then Grown(signed, row) else signed);
      case Done =>
        if f.keySignsHead {
          PublishKeepsInv(Grown(signed, row), f.persistHead, now);
        }
    }
  }

  lemma RestartKeepsInv(n: Node, f: RestartFaults, now: int)
    requires Inv(n)
    ensures Inv(RestartOutcome(n, f, now))
  {
    if f.rebuilds {
      var tree := HashesOf(n.disk.rows);
      var loaded := if f.loadsHead then LatestHead(n.disk.heads) else None;
      var open := n.(mem := Some(Memory(tree, loaded)));
      assert Inv(open);
      if loaded.Some? {
        PublishKeepsInv(open, f.persistHead, now);
      }
    }
  }

  lemma AlertKeepsInv(n: Node, alert: Option<Alert>, io: Io)
    requires Inv(n) && n.mem.Some?
    ensures Inv(AlertOutcome(n, alert, io))
  {
  }

  lemma StepKeepsInv(n: Node, ev: Event)
    requires Inv(n)
    ensures Inv(Step(n, ev))
  {
    match ev
    case AppendEvent(payload, f, now) => if n.mem.Some? { AppendKeepsInv(n, payload, f, now); }
    case AlertEvent(alert, io) => if n.mem.Some? { AlertKeepsInv(n, alert, io); }
    case CrashEvent =>
    case RestartEvent(f, now) => RestartKeepsInv(n, f, now);
  }

  lemma {:induction false} RunKeepsInv(n: Node, evs: seq<Event>)
    requires Inv(n)
    ensures Inv(Run(n, evs))
  {
    if |evs| > 0 {
      RunKeepsInv(n, evs[..|evs| - 1]);
      StepKeepsInv(Run(n, evs[..|evs| - 1]), evs[|evs| - 1]);
    }
  }

  lemma ReachableInv(key: Key, evs: seq<Event>)
    ensures Inv(Run(Fresh(key), evs)) && Run(Fresh(key), evs).key == key
  {
    RunKeepsInv(Fresh(key), evs);
    RunKeepsKey(Fresh(key), evs);
  }

  lemma {:induction false} RunKeepsKey(n: Node, evs: seq<Event>)
    ensures Run(n, evs).key == n.key
  {
    if |evs| > 0 {
      RunKeepsKey(n, evs[..|evs| - 1]);
    }
  }

  // ------------------------------------------------------------ no framing

  /** Nobody else makes signatures of `key`: one on the head was made by it. */
  ghost predicate UnforgedHead(head: LogHead, key: Key, signed: set<Message>)
  {
    var m := HeadMessage(CanonicalHead(head.peer, head.treeSize, head.root, head.timestamp));
    head.sig == SignedBy(key, m) ==> m in signed
  }

  /** Every head of `key` the alert carries was really signed by it. */
  ghost predicate Unforged(alert: Alert, key: Key, signed: set<Message>)
  {
    forall head | Some(head) in {alert.headA, alert.headB} :: UnforgedHead(head, key, signed)
  }

  /**
   Whatever failed, wherever it crashed and however often it restarted, the
   heads an owner signed never conflict, and the shorter log is a prefix of
   the longer: the honest consistency proof between them verifies.
   */
  lemma SignedHeadsExtend(key: Key, evs: seq<Event>, a: CanonicalHead, b: CanonicalHead)
    requires var n := Run(Fresh(key), evs);
             HeadMessage(a) in n.signed && HeadMessage(b) in n.signed && a.treeSize <= b.treeSize
    ensures var log := HashesOf(Run(Fresh(key), evs).disk.rows);
            && a.root.Full? && b.root.Full?
            && (a.treeSize == b.treeSize ==> a.root == b.root)
            && 1 <= a.treeSize <= b.treeSize <= |log|
            && Merkle.VerifyConsistency(a.treeSize, b.treeSize, a.root.hash, b.root.hash,
                                        Merkle.ConsistencyProof(a.treeSize, log[..b.treeSize], true))
  {
    ReachableInv(key, evs);
    var log := HashesOf(Run(Fresh(key), evs).disk.rows);
    assert CommitsTo(a, key, log) && CommitsTo(b, key, log);
    var longer := log[..b.treeSize];
    assert longer[..a.treeSize] == log[..a.treeSize];
    Merkle.ConsistencyExact(a.treeSize, longer, a.root.hash, Merkle.ConsistencyProof(a.treeSize, longer, true));
  }

  /** Nobody can assemble an alert that brands a peer with one key and one store. */
  lemma NoFraming(key: Key, evs: seq<Event>, alert: Alert)
    requires alert.peer == PeerOf(key)
    requires Unforged(alert, key, Run(Fresh(key), evs).signed)
    ensures JudgeAlert(Some(alert)) != Marks
  {
    if JudgeAlert(Some(alert)) == Marks {
      var a, b := alert.headA.value, alert.headB.value;
      assert Some(a) in {alert.headA, alert.headB} && Some(b) in {alert.headA, alert.headB};
      SignedHeadsExtend(key, evs, CanonicalOfHead(a), CanonicalOfHead(b));
    }
  }

  /** In any other node's run an honest owner is never among the marked. */
  lemma {:induction false} HonestOwnerIsNeverMarked(judge: Node, evs: seq<Event>, key: Key, own: seq<Event>)
    requires PeerOf(key) !in judge.disk.marks
    requires forall ev | ev in evs && ev.AlertEvent? && ev.alert.Some? && ev.alert.value.peer == PeerOf(key) ::
               Unforged(ev.alert.value, key, Run(Fresh(key), own).signed)
    ensures PeerOf(key) !in Run(judge, evs).disk.marks
  {
    if |evs| > 0 {
      var before, ev := evs[..|evs| - 1], evs[|evs| - 1];
      HonestOwnerIsNeverMarked(judge, before, key, own);
      MarksOf(Run(judge, before), ev);
      if ev.AlertEvent? && ev.alert.Some? && ev.alert.value.peer == PeerOf(key) {
        assert ev in evs;
        NoFraming(key, own, ev.alert.value);
      }
    }
  }

  /** Only an alert the judge accepts changes the marks, and it adds at most its own subject. */
  lemma MarksOf(n: Node, ev: Event)
    ensures var after := Step(n, ev).disk.marks;
            || after == n.disk.marks
            || (ev.AlertEvent? && JudgeAlert(ev.alert) == Marks && after == Marked(n.disk.marks, ev.alert.value))
  {
  }

  /** A mark, with the evidence that caused it, outlives every later event. */
  lemma {:induction false} MarksArePermanent(n: Node, evs: seq<Event>, peer: PeerId)
    requires peer in n.disk.marks
    ensures peer in Run(n, evs).disk.marks && Run(n, evs).disk.marks[peer] == n.disk.marks[peer]
  {
    if |evs| > 0 {
      MarksArePermanent(n, evs[..|evs| - 1], peer);
      MarksOf(Run(n, evs[..|evs| - 1]), evs[|evs| - 1]);
    }
  }

  /**
   One key over two stores: a published head of one and a published head of the
   other convict the key exactly when they cover logs of one length that differ.
   */
  lemma SharedKeyConflictsIff(key: Key, evs1: seq<Event>, evs2: seq<Event>, a: LogHead, b: LogHead)
    requires Published(a, Run(Fresh(key), evs1).signed) && Published(b, Run(Fresh(key), evs2).signed)
    ensures var log1 := HashesOf(Run(Fresh(key), evs1).disk.rows);
            var log2 := HashesOf(Run(Fresh(key), evs2).disk.rows);
            && a.treeSize <= |log1| && b.treeSize <= |log2|
            && (Conflict(a, b) <==> a.treeSize == b.treeSize && log1[..a.treeSize] != log2[..a.treeSize])
  {
    var n1, n2 := Run(Fresh(key), evs1), Run(Fresh(key), evs2);
    ReachableInv(key, evs1);
    ReachableInv(key, evs2);
    var log1, log2 := HashesOf(n1.disk.rows), HashesOf(n2.disk.rows);
    assert CommitsTo(CanonicalOfHead(a), key, log1) && CommitsTo(CanonicalOfHead(b), key, log2);
    ChainIsDistinct(key, n1.disk.rows);
    ChainIsDistinct(key, n2.disk.rows);
    if a.treeSize == b.treeSize {
      var p, q := log1[..a.treeSize], log2[..b.treeSize];
      if Merkle.Mth(p) == Merkle.Mth(q) {
        Merkle.MthInjective(p, q);
      }
    }
  }

  const NO_FAULTS := AppendFaults(true, Done, true, Done)
  const CLEAN_START := RestartFaults(true, true, true, Done)

  /** The run of a fresh store that appends one claim. */
  function FirstAppend(claim: Claim): seq<Event>
  {
    [RestartEvent(CLEAN_START, 0), AppendEvent(Some(Carried(claim, Full(Zero), NoSignature)), NO_FAULTS, 1)]
  }

  lemma FirstAppendPublishes(key: Key, claim: Claim)
    ensures var n := Run(Fresh(key), FirstAppend(claim));
            var log := [LeafHash(CanonicalEntry(claim, Full(Zero)))];
            && HashesOf(n.disk.rows) == log
            && Published(NewHead(key, log, 1), n.signed)
  {
    var evs := FirstAppend(claim);
    var n0 := Fresh(key);
    assert evs[..1] == [evs[0]] && evs[..1][..0] == [];
    var n1 := Step(n0, evs[0]);
    assert Run(n0, evs[..1]) == n1;
    assert n1.mem == Some(Memory([], None));
    var row := NewRow(n1, Carried(claim, Full(Zero), NoSignature));
    assert [] + [row] == [row];
    HashesAppend([], row);
    assert row.hash == LeafHash(CanonicalEntry(claim, Full(Zero)));
  }

  /** Without one key per store the theorem fails: two honest first entries frame the owner. */
  lemma TwoStoresFrameTheirOwner(key: Key, witness_: Key, claim1: Claim, claim2: Claim) returns (alert: Alert)
    requires claim1 != claim2
    ensures alert.peer == PeerOf(key)
    ensures Unforged(alert, key, Run(Fresh(key), FirstAppend(claim1)).signed + Run(Fresh(key), FirstAppend(claim2)).signed)
    ensures JudgeAlert(Some(alert)) == Marks
  {
    var log1, log2 := [LeafHash(CanonicalEntry(claim1, Full(Zero)))], [LeafHash(CanonicalEntry(claim2, Full(Zero)))];
    var a, b := NewHead(key, log1, 1), NewHead(key, log2, 1);
    FirstAppendPublishes(key, claim1);
    FirstAppendPublishes(key, claim2);
    var c := CanonicalAlert(PeerOf(key), Some(a), Some(b), PeerOf(witness_), 2);
    alert := Alert(c.peer, c.headA, c.headB, c.witnessId, SignedBy(witness_, AlertMessage(c)), c.timestamp);
  }

  // ------------------------------------------------------------ proofs

  /** The served head covers the whole tree. */
  predicate InSync(n: Node)
  {
    n.mem.Some? && n.mem.value.lastHead.Some? && n.mem.value.lastHead.value.treeSize == |n.mem.value.tree|
  }

  lemma RowIsFound(n: Node, i: nat)
    requires Inv(n) && i < |n.disk.rows|
    ensures FindRow(n.disk.rows, n.disk.rows[i].hash) == Some(i)
  {
    var hs := HashesOf(n.disk.rows);
    ChainIsDistinct(n.key, n.disk.rows);
    assert hs[i] in hs;
    var at := FindRow(n.disk.rows, hs[i]).value;
    assert hs[at] == hs[i];
    assert forall j | 0 <= j < |hs| && j != i :: hs[j] != hs[i];
  }

  /** Against the served head, the path taken from the whole tree verifies exactly when the two are in step. */
  lemma PathFitsHeadIffInSync(n: Node, i: nat)
    requires Inv(n) && n.mem.Some? && n.mem.value.lastHead.Some? && i < |n.disk.rows|
    ensures var head := n.mem.value.lastHead.value;
            && head.root.Full?
            && (Merkle.VerifyInclusion(n.disk.rows[i].hash, i, head.treeSize, head.root.hash,
                                       Merkle.Path(i, n.mem.value.tree))
                <==> InSync(n))
  {
    var log := HashesOf(n.disk.rows);
    var head := n.mem.value.lastHead.value;
    var size := head.treeSize;
    assert CommitsTo(CanonicalOfHead(head), n.key, log);
    ChainIsDistinct(n.key, n.disk.rows);
    Merkle.InclusionExact(log[i], i, log[..size], Merkle.Path(i, log));
    if size == |log| {
      assert log[..size] == log;
    } else if i < size {
      Merkle.PathBindsSize(i, size, log);
    }
  }

  lemma FieldsRoundTrip(hashes: seq<Hash>)
    ensures AllFull(Fields(hashes)) && Hashes(Fields(hashes)) == hashes
  {
  }

  /** The verdict splits into the row's own signature and the path against the head. */
  lemma VerdictOnOwnProof(body: Body, pos: nat, path: seq<Hash>, head: LogHead)
    requires body.Carried? && HeadVerifies(head) && head.root.Full?
    ensures CheckProof(Some(InclusionProof(Some(body), pos, Fields(path), Some(head)))) == Ok(true)
       <==> && VerifyEntry(Some(body)) == Ok(true)
            && Merkle.VerifyInclusion(EntryHash(body), pos, head.treeSize, head.root.hash, path)
  {
    FieldsRoundTrip(path);
  }

  lemma ProofVerifiesInState(n: Node, i: nat)
    requires Inv(n) && n.mem.Some? && i < |n.disk.rows|
    ensures var p := Prove(n, n.disk.rows[i].hash);
            (p.Ok? && CheckProof(Some(p.value)) == Ok(true))
            <==> InSync(n) && n.disk.rows[i].body.claim.rater == PeerOf(n.key)
  {
    RowIsFound(n, i);
    if n.mem.value.lastHead.Some? {
      var body, head := n.disk.rows[i].body, n.mem.value.lastHead.value;
      PathFitsHeadIffInSync(n, i);
      VerdictOnOwnProof(body, i, Merkle.Path(i, n.mem.value.tree), head);
      assert VerifyEntry(Some(body)) == Ok(true) <==> body.claim.rater == PeerOf(n.key);
    }
  }

  /**
   In every reachable state, the proof given for a logged entry is accepted by
   every verifier exactly when the served head is in step with the tree and the
   entry names the owner as its rater.
   */
  lemma ProofVerifiesIff(key: Key, evs: seq<Event>, i: nat)
    requires var n := Run(Fresh(key), evs); n.mem.Some? && i < |n.disk.rows|
    ensures var n := Run(Fresh(key), evs);
            var p := Prove(n, n.disk.rows[i].hash);
            && n.disk.rows[i].body.Carried?
            && ((p.Ok? && CheckProof(Some(p.value)) == Ok(true))
                <==> InSync(n) && n.disk.rows[i].body.claim.rater == PeerOf(key))
  {
    ReachableInv(key, evs);
    ProofVerifiesInState(Run(Fresh(key), evs), i);
  }

  lemma ProofRefusedOutsideLog(n: Node, hash: Hash)
    requires n.mem.Some?
    ensures hash !in HashesOf(n.disk.rows) <==> Prove(n, hash) == Err(EntryNotInLog)
  {
  }

  /** A proof under a head the owner signed can only show the owner's own entry at that position. */
  lemma ProofIsSound(key: Key, evs: seq<Event>, p: InclusionProof)
    requires CheckProof(Some(p)) == Ok(true)
    requires p.logHead.value.peer == PeerOf(key)
    requires UnforgedHead(p.logHead.value, key, Run(Fresh(key), evs).signed)
    ensures var rows := Run(Fresh(key), evs).disk.rows;
            && p.position < p.logHead.value.treeSize <= |rows|
            && rows[p.position].body.Carried?
            && Canonical(p.entry.value) == Canonical(rows[p.position].body)
            && (p.entry.value.claim.rater == PeerOf(key) ==> p.entry.value == rows[p.position].body)
  {
    ReachableInv(key, evs);
    var n := Run(Fresh(key), evs);
    var log := HashesOf(n.disk.rows);
    var head := p.logHead.value;
    assert CommitsTo(CanonicalOfHead(head), key, log);
    Merkle.InclusionExact(EntryHash(p.entry.value), p.position, log[..head.treeSize], Hashes(p.auditPath));
    assert log[..head.treeSize][p.position] == n.disk.rows[p.position].hash;
  }

  // ------------------------------------------------------------ when the head is in step

  /** An append that reports success leaves the head in step and its entry last. */
  lemma SuccessfulAppendSyncs(n: Node, payload: Option<Body>, f: AppendFaults, now: int)
    requires Inv(n) && n.mem.Some?
    requires AppendOutcome(n, payload, f, now).1.Ok?
    ensures var (after, r) := AppendOutcome(n, payload, f, now);
            && InSync(after)
            && HashesOf(after.disk.rows) == HashesOf(n.disk.rows) + [r.value]
            && payload.value.claim == after.disk.rows[|n.disk.rows|].body.claim
  {
    HashesAppend(n.disk.rows, NewRow(n, payload.value));
  }

  /** An append falls behind exactly when its entry commits and its head does not. */
  lemma AppendKeepsSyncIff(n: Node, payload: Option<Body>, f: AppendFaults, now: int)
    requires Inv(n) && InSync(n) && AppendOutcome(n, payload, f, now).0.mem.Some?
    ensures var after := AppendOutcome(n, payload, f, now).0;
            InSync(after) <==> (after.disk.rows == n.disk.rows || (f.keySignsHead && f.persistHead == Done))
  {
    if payload.Some? && payload.value.Carried? && f.keySigns {
      var body := NewRow(n, payload.value).body;
      NextHashIsNew(n.key, n.disk.rows, body);
      assert |n.disk.rows + [NewRow(n, payload.value)]| == |n.disk.rows| + 1;
    }
  }

  /**
   A restart with working I/O ends in step exactly when a head was ever stored;
   otherwise it serves no head at all.
   */
  lemma RestartRecovers(n: Node, now: int)
    requires Inv(n)
    ensures var after := RestartOutcome(n, CLEAN_START, now);
            && after.mem.Some? && after.disk.rows == n.disk.rows
            && (InSync(after) <==> n.disk.heads != map[])
            && (n.disk.heads == map[] ==> after.mem.value.lastHead.None?)
  {
  }

  /** After a restart whose re-sign or write fails, the stale head stays and proofs of the tail are refused. */
  lemma FailedResyncStaysBehind(n: Node, f: RestartFaults, now: int)
    requires Inv(n) && f.rebuilds && f.loadsHead && n.disk.heads != map[]
    ensures var after := RestartOutcome(n, f, now);
            InSync(after) <==>
              LatestSize(n.disk.heads) == |n.disk.rows| || (f.keySigns && f.persistHead == Done)
  {
  }

  // ------------------------------------------------------------ whole runs without head faults

  /** An event during which no head fails to be signed, written or loaded; it may still crash anywhere. */
  predicate HeadsSucceed(ev: Event)
  {
    match ev
    case AppendEvent(_, f, _) => f.keySignsHead && f.persistHead != Failed
    case AlertEvent(_, _) => true
    case CrashEvent => true
    case RestartEvent(f, _) => f.rebuilds && f.loadsHead && f.keySigns && f.persistHead != Failed
  }

  /** A running node serves no head if none was ever stored, and otherwise one in step. */
  ghost predicate Anchored(n: Node)
  {
    n.mem.Some? ==> if n.disk.heads == map[] then n.mem.value.lastHead.None? else InSync(n)
  }

  lemma PublishAnchors(n: Node, io: Io, now: int)
    requires n.mem.Some? && io != Failed
    ensures Anchored(PublishHead(n, io, now))
    ensures n.disk.heads != map[] ==> PublishHead(n, io, now).disk.heads != map[]
  {
    var head := NewHead(n.key, n.mem.value.tree, now);
    assert head.treeSize in n.disk.heads[head.treeSize := head];
  }

  /** How an append whose head does not fail ends: as before, down, or with a head just published. */
  lemma AppendCases(n: Node, payload: Option<Body>, f: AppendFaults, now: int) returns (m: Node)
    requires n.mem.Some? && f.keySignsHead && f.persistHead != Failed
    ensures m.mem.Some? && m.disk.heads == n.disk.heads
    ensures var after := AppendOutcome(n, payload, f, now).0;
            || after == PublishHead(m, f.persistHead, now)
            || (after.disk.heads == n.disk.heads && (after.mem.None? || after.mem == n.mem))
  {
    m := n;
    if payload.Some? && payload.value.Carried? && f.keySigns {
      m := Grown(EntrySigned(n, NewRow(n, payload.value)), NewRow(n, payload.value));
    }
  }

  lemma AppendStaysAnchored(n: Node, payload: Option<Body>, f: AppendFaults, now: int)
    requires Anchored(n) && n.mem.Some? && f.keySignsHead && f.persistHead != Failed
    ensures Anchored(AppendOutcome(n, payload, f, now).0)
    ensures n.disk.heads != map[] ==> AppendOutcome(n, payload, f, now).0.disk.heads != map[]
  {
    var m := AppendCases(n, payload, f, now);
    PublishAnchors(m, f.persistHead, now);
  }

  lemma RestartStaysAnchored(n: Node, f: RestartFaults, now: int)
    requires Inv(n) && f.rebuilds && f.loadsHead && f.keySigns && f.persistHead != Failed
    ensures Anchored(RestartOutcome(n, f, now))
    ensures n.disk.heads != map[] ==> RestartOutcome(n, f, now).disk.heads != map[]
  {
  }

  lemma StepStaysAnchored(n: Node, ev: Event)
    requires Inv(n) && Anchored(n) && HeadsSucceed(ev)
    ensures Anchored(Step(n, ev))
    ensures n.disk.heads != map[] ==> Step(n, ev).disk.heads != map[]
  {
    match ev
    case AppendEvent(payload, f, now) =>
      if n.mem.Some? {
        AppendStaysAnchored(n, payload, f, now);
      }
    case AlertEvent(_, _) =>
    case CrashEvent =>
    case RestartEvent(f, now) => RestartStaysAnchored(n, f, now);
  }

  /** Crashes at any point, failed entry writes and restarts never leave a running node with a stale head. */
  lemma {:induction false} RunStaysAnchored(n: Node, evs: seq<Event>)
    requires Inv(n) && Anchored(n) && forall ev | ev in evs :: HeadsSucceed(ev)
    ensures Anchored(Run(n, evs))
    ensures n.disk.heads != map[] ==> Run(n, evs).disk.heads != map[]
  {
    if |evs| > 0 {
      var front, last := evs[..|evs| - 1], evs[|evs| - 1];
      assert forall ev | ev in front :: ev in evs;
      assert last in evs;
      RunStaysAnchored(n, front);
      RunKeepsInv(n, front);
      StepStaysAnchored(Run(n, front), last);
    }
  }

  /**
   From any state in step, and through any run of appends, failures to store an
   entry, alerts, crashes and restarts in which no head fails, every proof a running
   node gives for an entry of its own is accepted.
   */
  lemma ProofsKeepVerifying(n: Node, evs: seq<Event>, i: nat)
    requires Inv(n) && InSync(n) && Anchored(n) && forall ev | ev in evs :: HeadsSucceed(ev)
    requires Run(n, evs).mem.Some? && i < |Run(n, evs).disk.rows|
    ensures var m := Run(n, evs);
            var p := Prove(m, m.disk.rows[i].hash);
            && m.disk.rows[i].body.Carried?
            && ((p.Ok? && CheckProof(Some(p.value)) == Ok(true)) <==> m.disk.rows[i].body.claim.rater == PeerOf(n.key))
  {
    RunStaysAnchored(n, evs);
    RunKeepsInv(n, evs);
    RunKeepsKey(n, evs);
    ProofVerifiesInState(Run(n, evs), i);
  }

  /** A successful append in any reachable state leads to a state as that theorem starts from. */
  lemma SuccessfulAppendAnchors(key: Key, evs: seq<Event>, payload: Option<Body>, f: AppendFaults, now: int)
    requires Run(Fresh(key), evs).mem.Some? && AppendOutcome(Run(Fresh(key), evs), payload, f, now).1.Ok?
    ensures var after := AppendOutcome(Run(Fresh(key), evs), payload, f, now).0;
            Inv(after) && InSync(after) && Anchored(after) && after.key == key
  {
    ReachableInv(key, evs);
    RunKeepsKey(Fresh(key), evs);
    SuccessLeavesAnchored(Run(Fresh(key), evs), payload, f, now);
  }

  lemma SuccessLeavesAnchored(n: Node, payload: Option<Body>, f: AppendFaults, now: int)
    requires Inv(n) && n.mem.Some? && AppendOutcome(n, payload, f, now).1.Ok?
    ensures var after := AppendOutcome(n, payload, f, now).0;
            Inv(after) && InSync(after) && Anchored(after) && after.key == n.key
  {
    AppendKeepsInv(n, payload, f, now);
    SuccessfulAppendSyncs(n, payload, f, now);
    var m := AppendCases(n, payload, f, now);
    PublishAnchors(m, f.persistHead, now);
  }
}
