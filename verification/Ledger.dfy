/**
 The ledger object of impl.go over the SQLite store: it signs, writes and grows
 its tree in place, and each operation refines a step of LedgerModel.
 */
module Ledger {
  import opened Hashing
  import opened Wrappers
  import opened Envelopes
  import opened LedgerModel
  import opened MerkleTree
  import Merkle

  /** The tables the ledger owns.  Every write commits whole, fails, or is cut short by a crash. */
  class Store {
    var rows: seq<Row>
    var heads: map<nat, LogHead>
    var marks: map<PeerId, Alert>

    constructor ()
      ensures rows == [] && heads == map[] && marks == map[]
    {
      rows, heads, marks := [], map[], map[];
    }

    method AppendEntry(row: Row, io: Io) returns (r: Io)
      modifies this`rows
      ensures r == EntryWrite(old(rows), row, io)
      ensures rows == if Lands(r) then old(rows) + [row] else old(rows)
    {
      r := io;
      if FindRow(rows, row.hash).Some? {
        r := if io.Crashed? then Crashed(false) else Failed;
      }
      if r == Done || r == Crashed(true) {
        rows := rows + [row];
      }
    }

    method WriteHead(head: LogHead, io: Io)
      modifies this`heads
      ensures heads == if Lands(io) then old(heads)[head.treeSize := head] else old(heads)
    {
      if io == Done || io == Crashed(true) {
        heads := heads[head.treeSize := head];
      }
    }

    method LatestHead() returns (head: Option<LogHead>)
      ensures head == LedgerModel.LatestHead(heads)
    {
      if heads == map[] {
        return None;
      }
      var todo := heads.Keys;
      assert exists k :: k in heads;
      var best :| best in todo;
      todo := todo - {best};
      while todo != {}
        invariant best in heads && todo <= heads.Keys
        invariant forall s | s in heads && s !in todo :: s <= best
      {
        var s :| s in todo;
        if s > best {
          best := s;
        }
        todo := todo - {s};
      }
      return Some(heads[best]);
    }

    /** INSERT ... ON CONFLICT DO NOTHING: the first evidence stays. */
    method MarkEquivocator(alert: Alert, io: Io)
      modifies this`marks
      ensures marks == if Lands(io) then Marked(old(marks), alert) else old(marks)
    {
      if io == Done || io == Crashed(true) {
        if alert.peer !in marks {
          marks := marks[alert.peer := alert];
        }
      }
    }
  }

  class Ledger {
    const key: Key
    const store: Store
    var tree: Tree
    var lastHead: Option<LogHead>
    var up: bool
    ghost var signed: set<Message>

    ghost function State(): Node
      reads this, store, tree
    {
      Node(key, Disk(store.rows, store.heads, store.marks),
           if up then Some(Memory(tree.leaves, lastHead)) else None, signed)
    }

    /** Opens the store left by an earlier process, whose key had signed `before`. */
    constructor Open(key: Key, store: Store, ghost before: set<Message>, f: RestartFaults, now: int)
      modifies store
      ensures this.key == key && this.store == store && fresh(tree)
      ensures State() == RestartOutcome(
                Node(key, Disk(old(store.rows), old(store.heads), old(store.marks)), None, before), f, now)
    {
      this.key := key;
      this.store := store;
      tree := new Tree();
      lastHead := None;
      up := f.rebuilds;
      signed := before;
      new;
      if f.rebuilds {
        RebuildTree();
        if f.loadsHead {
          lastHead := store.LatestHead();
        }
        if lastHead.Some? && lastHead.value.treeSize != |tree.leaves| && f.keySigns {
          PersistNewHead(f.persistHead, now);
        }
      }
    }

    method RebuildTree()
      requires tree.leaves == []
      modifies tree
      ensures tree.leaves == HashesOf(store.rows)
    {
      var i := 0;
      while i < |store.rows|
        invariant 0 <= i <= |store.rows|
        invariant tree.leaves == HashesOf(store.rows)[..i]
      {
        var _ := tree.Append(store.rows[i].hash);
        i := i + 1;
      }
    }

    method SignNewHead(now: int) returns (head: LogHead)
      modifies this`signed
      ensures head == NewHead(key, tree.leaves, now)
      ensures signed == old(signed) + {HeadMessage(CanonicalOfHead(head))}
    {
      var root := tree.Root();
      head := LogHead(PeerOf(key), |tree.leaves|, Full(root), now, NoSignature, [], "");
      var canonical := CanonicalOfHead(head);
      signed := signed + {HeadMessage(canonical)};
      head := head.(sig := SignedBy(key, HeadMessage(canonical)));
    }

    /** Signs a head over the tree and stores it; only a stored head is served. */
    method PersistNewHead(io: Io, now: int)
      requires up
      modifies this`signed, this`lastHead, this`up, store`heads
      ensures State() == PublishHead(old(State()), io, now)
    {
      var head := SignNewHead(now);
      store.WriteHead(head, io);
      match io {
        case Done => lastHead := Some(head);
        case Failed =>
        case Crashed(_) => up := false;
      }
    }

    method Append(payload: SignedEntry?, f: AppendFaults, now: int) returns (r: Result<Hash, Error>)
      requires up
      modifies this, tree, store, payload
      ensures tree == old(tree)
      ensures (State(), r)
           == AppendOutcome(old(State()), if payload == null then None else Some(old(payload.body)), f, now)
      ensures payload != null ==>
                payload.body == SignedBody(key, old(payload.body), LastOf(old(tree.leaves)), f.keySigns)
    {
      if payload == null {
        return Err(NilPayload);
      }
      var prev := tree.LastLeafHash();
      var refused := SignEntry(key, payload, prev, f.keySigns);
      if refused.Some? {
        return Err(refused.value);
      }
      signed := signed + {EntryMessage(Canonical(payload.body))};
      var h := EntryHash(payload.body);
      var write := store.AppendEntry(Row(h, prev, payload.body), f.persistEntry);
      match write {
        case Failed => return Err(PersistEntryFailed);
        case Crashed(_) =>
          up := false;
          return Err(ProcessDied);
        case Done =>
      }
      var _ := tree.Append(h);
      if !f.keySignsHead {
        return Err(SignHeadFailed);
      }
      PersistNewHead(f.persistHead, now);
      match f.persistHead {
        case Done => return Ok(h);
        case Failed => return Err(PersistHeadFailed);
        case Crashed(_) => return Err(ProcessDied);
      }
    }

    method ProveEntry(hash: Hash) returns (r: Result<InclusionProof, Error>)
      requires up
      ensures r == Prove(State(), hash)
    {
      var at := FindRow(store.rows, hash);
      if at.None? {
        return Err(EntryNotInLog);
      }
      var audit := tree.InclusionProof(at.value);
      if audit.Err? {
        return Err(TreeRefused);
      }
      ghost var leaves, path := tree.leaves, Merkle.Path(at.value, tree.leaves);
      Merkle.InclusionExact(leaves[at.value], at.value, leaves, path);
      assert Merkle.VerifyInclusion(leaves[at.value], at.value, |leaves|, Merkle.Root(leaves), path);
      if lastHead.None? {
        return Err(NoHead);
      }
      var entry := store.rows[at.value].body;
      if !entry.Carried? {
        return Err(UnsetBody);
      }
      return Ok(InclusionProof(Some(entry), at.value, Fields(audit.value), lastHead));
    }

    /** Brands the subject of an alert that passes the whole validation chain. */
    method AcceptLocalAlert(alert: Option<Alert>, io: Io) returns (v: Verdict)
      requires up
      modifies this`up, store`marks
      ensures State() == AlertOutcome(old(State()), alert, io)
      ensures v == if JudgeAlert(alert) != Marks || Lands(io) then JudgeAlert(alert) else Rejected(MarkFailed)
    {
      v := JudgeAlert(alert);
      if v == Marks {
        store.MarkEquivocator(alert.value, io);
        match io {
          case Done =>
          case Failed => v := Rejected(MarkFailed);
          case Crashed(durable) =>
            up := false;
            v := if durable then v else Rejected(MarkFailed);
        }
      }
    }

    method IsEquivocator(peer: PeerId) returns (marked: bool)
      ensures marked <==> peer in State().disk.marks
    {
      marked := peer in store.marks;
    }
  }
}
