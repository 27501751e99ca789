/**
 One peer's ledger as a crash-prone state machine: what is on disk, what is in
 memory, and every message the peer's key has ever signed.  The class in
 Ledger.dfy refines these steps; the theorems about whole runs are in
 LedgerTheorems.dfy.
 */
module LedgerModel {
  import opened Hashing
  import opened Wrappers
  import opened Envelopes
  import Merkle
  import opened MerkleTree

  /** One row of the `entries` table; row `i` has idx `i + 1`. */
  datatype Row = Row(hash: Hash, prev: Hash, body: Body)

  datatype Disk = Disk(rows: seq<Row>, heads: map<nat, LogHead>, marks: map<PeerId, Alert>)

  datatype Memory = Memory(tree: seq<Hash>, lastHead: Option<LogHead>)

  /** `mem` is `None` while the process is down; `signed` is everything `key` ever signed. */
  datatype Node = Node(key: Key, disk: Disk, mem: Option<Memory>, signed: set<Message>)

  /** How a store write ends: a crash may fall on either side of the commit. */
  datatype Io = Done | Failed | Crashed(durable: bool)

  datatype AppendFaults = AppendFaults(keySigns: bool, persistEntry: Io, keySignsHead: bool, persistHead: Io)

  datatype RestartFaults = RestartFaults(rebuilds: bool, loadsHead: bool, keySigns: bool, persistHead: Io)

  datatype Event =
    | AppendEvent(payload: Option<Body>, appendFaults: AppendFaults, now: int)
    | AlertEvent(alert: Option<Alert>, persistMark: Io)
    | CrashEvent
    | RestartEvent(restartFaults: RestartFaults, now: int)

  predicate Lands(io: Io)
  {
    io == Done || io == Crashed(true)
  }

  function Fresh(key: Key): Node
  {
    Node(key, Disk([], map[], map[]), None, {})
  }

  function Down(n: Node): Node
  {
    n.(mem := None)
  }

  function HashesOf(rows: seq<Row>): (hs: seq<Hash>)
    ensures |hs| == |rows| && forall i | 0 <= i < |rows| :: hs[i] == rows[i].hash
  {
    if |rows| == 0 then [] else HashesOf(rows[..|rows| - 1]) + [rows[|rows| - 1].hash]
  }

  /** The UNIQUE constraint on `hash` turns a duplicate insert into a failure. */
  function EntryWrite(rows: seq<Row>, row: Row, io: Io): Io
  {
    if row.hash in HashesOf(rows) then (if io.Crashed? then Crashed(false) else Failed) else io
  }

  function NewHead(key: Key, tree: seq<Hash>, now: int): LogHead
  {
    var c := CanonicalHead(PeerOf(key), |tree|, Full(Merkle.Root(tree)), now);
    LogHead(c.peer, c.treeSize, c.root, c.timestamp, SignedBy(key, HeadMessage(c)), [], "")
  }

  /** Signs a head over the current tree, stores it, and only then lets the process serve it. */
  function PublishHead(n: Node, io: Io, now: int): Node
    requires n.mem.Some?
  {
    var head := NewHead(n.key, n.mem.value.tree, now);
    var signed := n.(signed := n.signed + {HeadMessage(CanonicalOfHead(head))});
    var stored := if Lands(io) then signed.(disk := signed.disk.(heads := signed.disk.heads[head.treeSize := head]))
                  else signed;
    match io
    case Done => stored.(mem := Some(n.mem.value.(lastHead := Some(head))))
    case Failed => stored
    case Crashed(_) => Down(stored)
  }

  /** The row an append writes: signed by the owner, linked to the last leaf. */
  function NewRow(n: Node, payload: Body): (row: Row)
    requires n.mem.Some? && payload.Carried?
    ensures row.body.Carried?
  {
    var prev := LastOf(n.mem.value.tree);
    var body := SignedBody(n.key, payload, prev, true);
    Row(EntryHash(body), prev, body)
  }

  function EntrySigned(n: Node, row: Row): Node
    requires row.body.Carried?
  {
    n.(signed := n.signed + {EntryMessage(Canonical(row.body))})
  }

  /** A committed row, with the tree grown to match. */
  function Grown(n: Node, row: Row): Node
    requires n.mem.Some?
  {
    n.(disk := n.disk.(rows := n.disk.rows + [row]),
       mem := Some(n.mem.value.(tree := n.mem.value.tree + [row.hash])))
  }

  function AppendOutcome(n: Node, payload: Option<Body>, f: AppendFaults, now: int): (Node, Result<Hash, Error>)
    requires n.mem.Some?
  {
    if payload.None? then (n, Err(NilPayload))
    else if !payload.value.Carried? then (n, Err(UnsetBody))
    else if !f.keySigns then (n, Err(SignFailed))
    else
      var row := NewRow(n, payload.value);
      var signed := EntrySigned(n, row);
      match EntryWrite(n.disk.rows, row, f.persistEntry)
      case Failed => (signed, Err(PersistEntryFailed))
      case Crashed(durable) => (Down(if durable then Grown(signed, row) else signed), Err(ProcessDied))
      case Done =>
        var grown := Grown(signed, row);
        if !f.keySignsHead then (grown, Err(SignHeadFailed))
        else
          (PublishHead(grown, f.persistHead, now),
           match f.persistHead
           case Done => Ok(row.hash)
           case Failed => Err(PersistHeadFailed)
           case Crashed(_) => Err(ProcessDied))
  }

  function Marked(marks: map<PeerId, Alert>, alert: Alert): map<PeerId, Alert>
  {
    if alert.peer in marks then marks else marks[alert.peer := alert]
  }

  function AlertOutcome(n: Node, alert: Option<Alert>, io: Io): Node
  {
    if JudgeAlert(alert) != Marks then n
    else
      var written := if Lands(io) then n.(disk := n.disk.(marks := Marked(n.disk.marks, alert.value))) else n;
      if io.Crashed? then Down(written) else written
  }

  /** ORDER BY tree_size DESC LIMIT 1. */
  ghost function LatestSize(heads: map<nat, LogHead>): (s: nat)
    requires heads != map[]
    ensures s in heads && forall t | t in heads :: t <= s
  {
    MaxExists(heads.Keys);
    var s :| s in heads && forall t | t in heads :: t <= s;
    s
  }

  lemma {:induction false} MaxExists(sizes: set<nat>)
    requires sizes != {}
    ensures exists s :: s in sizes && forall t | t in sizes :: t <= s
    decreases sizes
  {
    var x :| x in sizes;
    var rest := sizes - {x};
    assert sizes == rest + {x};
    if rest != {} {
      MaxExists(rest);
      var m :| m in rest && forall t | t in rest :: t <= m;
      var s := if m < x then x else m;
      assert s in sizes && forall t | t in rest + {x} :: t <= s;
    }
  }

  ghost function LatestHead(heads: map<nat, LogHead>): Option<LogHead>
  {
    if heads == map[] then None else Some(heads[LatestSize(heads)])
  }

  /** Opening the ledger: rebuild the tree, load the newest head, re-sign if it is behind. */
  ghost function RestartOutcome(n: Node, f: RestartFaults, now: int): Node
  {
    if !f.rebuilds then Down(n)
    else
      var tree := HashesOf(n.disk.rows);
      var loaded := if f.loadsHead then LatestHead(n.disk.heads) else None;
      var open := n.(mem := Some(Memory(tree, loaded)));
      if loaded.None? || loaded.value.treeSize == |tree| || !f.keySigns then open
      else PublishHead(open, f.persistHead, now)
  }

  ghost function Step(n: Node, ev: Event): Node
  {
    match ev
    case AppendEvent(payload, f, now) => if n.mem.None? then n else AppendOutcome(n, payload, f, now).0
    case AlertEvent(alert, io) => if n.mem.None? then n else AlertOutcome(n, alert, io)
    case CrashEvent => Down(n)
    case RestartEvent(f, now) => RestartOutcome(n, f, now)
  }

  ghost function Run(n: Node, evs: seq<Event>): Node
  {
    if |evs| == 0 then n else Step(Run(n, evs[..|evs| - 1]), evs[|evs| - 1])
  }

  /** The answer to a proof request. */
  function Prove(n: Node, hash: Hash): Result<InclusionProof, Error>
    requires n.mem.Some?
  {
    var at := FindRow(n.disk.rows, hash);
    if at.None? then Err(EntryNotInLog)
    else if at.value >= |n.mem.value.tree| then Err(TreeRefused)
    else if n.mem.value.lastHead.None? then Err(NoHead)
    else if !n.disk.rows[at.value].body.Carried? then Err(UnsetBody)
    else
      Ok(InclusionProof(Some(n.disk.rows[at.value].body), at.value,
                        Fields(Merkle.Path(at.value, n.mem.value.tree)), n.mem.value.lastHead))
  }

  function FindRow(rows: seq<Row>, hash: Hash): (at: Option<nat>)
    ensures at.Some? ==> at.value < |rows| && rows[at.value].hash == hash
    ensures at.None? <==> hash !in HashesOf(rows)
  {
    if |rows| == 0 then None
    else if rows[|rows| - 1].hash == hash then
      assert HashesOf(rows)[|rows| - 1] == hash;
      Some(|rows| - 1)
    else
      assert HashesOf(rows) == HashesOf(rows[..|rows| - 1]) + [rows[|rows| - 1].hash];
      FindRow(rows[..|rows| - 1], hash)
  }

  function Fields(hashes: seq<Hash>): (fs: seq<HashField>)
    ensures |fs| == |hashes| && forall i | 0 <= i < |fs| :: fs[i] == Full(hashes[i])
  {
    if |hashes| == 0 then [] else Fields(hashes[..|hashes| - 1]) + [Full(hashes[|hashes| - 1])]
  }
}
