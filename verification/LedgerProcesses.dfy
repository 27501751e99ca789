/**
 Several processes that open one store under one key.  Nothing in the source keeps
 them apart: each holds its own tree, and only the store is shared.
 */
module LedgerProcesses {
  import opened Hashing
  import opened Wrappers
  import opened Envelopes
  import opened LedgerModel
  import LedgerTheorems
  import Merkle

  /** What is on disk, the memory of each running process, and everything the key signed. */
  datatype Host = Host(key: Key, disk: Disk, mems: map<nat, Memory>, signed: set<Message>)

  datatype Turn = Turn(process: nat, event: Event)

  function NoProcess(key: Key): Host
  {
    Host(key, Disk([], map[], map[]), map[], {})
  }

  /** The host as one process sees it. */
  function View(h: Host, process: nat): Node
  {
    Node(h.key, h.disk, if process in h.mems then Some(h.mems[process]) else None, h.signed)
  }

  function Updated(h: Host, process: nat, n: Node): Host
  {
    Host(h.key, n.disk, if n.mem.Some? then h.mems[process := n.mem.value] else h.mems - {process}, n.signed)
  }

  ghost function StepOf(h: Host, turn: Turn): Host
  {
    Updated(h, turn.process, Step(View(h, turn.process), turn.event))
  }

  ghost function RunOf(h: Host, turns: seq<Turn>): Host
  {
    if |turns| == 0 then h else StepOf(RunOf(h, turns[..|turns| - 1]), turns[|turns| - 1])
  }

  // ------------------------------------------------------------ conflicts

  ghost predicate Conflicting(signed: set<Message>)
  {
    exists a, b :: HeadMessage(a) in signed && HeadMessage(b) in signed && a.treeSize == b.treeSize && a.root != b.root
  }

  ghost predicate SizeSigned(signed: set<Message>, size: nat)
  {
    exists c :: HeadMessage(c) in signed && c.treeSize == size
  }

  /** The turn stores an entry. */
  predicate Stores(h: Host, turn: Turn)
  {
    && turn.event.AppendEvent? && turn.process in h.mems
    && turn.event.payload.Some? && turn.event.payload.value.Carried? && turn.event.appendFaults.keySigns
    && Lands(EntryWrite(h.disk.rows, NewRow(View(h, turn.process), turn.event.payload.value),
                        turn.event.appendFaults.persistEntry))
  }

  /** The turn stores an entry and signs a head over it. */
  predicate Heads(h: Host, turn: Turn)
  {
    && Stores(h, turn) && turn.event.appendFaults.keySignsHead
    && EntryWrite(h.disk.rows, NewRow(View(h, turn.process), turn.event.payload.value),
                  turn.event.appendFaults.persistEntry) == Done
  }

  /** The process's tree is not the one over the rows that are stored. */
  predicate IsStale(h: Host, process: nat)
    requires process in h.mems
  {
    h.mems[process].tree != HashesOf(h.disk.rows)
  }

  predicate HeadsStale(h: Host, turn: Turn)
  {
    Heads(h, turn) && IsStale(h, turn.process)
  }

  /** A stale head is signed at a size at which a head was signed before. */
  ghost predicate Diverges(h: Host, turn: Turn)
  {
    HeadsStale(h, turn) && SizeSigned(h.signed, |h.mems[turn.process].tree| + 1)
  }

  // ------------------------------------------------------------ the invariant

  /** Leaves of stored rows, fewer than those stored unless all of them. */
  ghost predicate TreeOk(tree: seq<Hash>, log: seq<Hash>)
  {
    && Merkle.AllLeaves(tree) && (forall x | x in tree :: x in log)
    && |tree| <= |log| && (|tree| == |log| ==> tree == log)
  }

  ghost predicate SignedOver(c: CanonicalHead, tree: seq<Hash>)
  {
    |tree| > 0 && c.treeSize == |tree| && c.root == Full(Merkle.Mth(tree))
  }

  ghost predicate HeadOk(c: CanonicalHead, key: Key, log: seq<Hash>)
  {
    c.peer == PeerOf(key) && exists tree :: TreeOk(tree, log) && SignedOver(c, tree)
  }

  ghost predicate SignedOk(key: Key, signed: set<Message>, log: seq<Hash>)
  {
    forall c | HeadMessage(c) in signed :: HeadOk(c, key, log)
  }

  ghost predicate Inv(h: Host)
  {
    var log := HashesOf(h.disk.rows);
    && Merkle.AllLeaves(log)
    && (forall process | process in h.mems :: TreeOk(h.mems[process].tree, log))
    && SignedOk(h.key, h.signed, log)
    && (h.disk.heads != map[] ==> |log| > 0)
  }

  lemma TreeOkLater(tree: seq<Hash>, log: seq<Hash>, x: Hash)
    requires TreeOk(tree, log)
    ensures TreeOk(tree, log + [x])
  {
  }

  lemma TreeGrows(tree: seq<Hash>, log: seq<Hash>, x: Hash)
    requires TreeOk(tree, log) && x.LeafHash?
    ensures TreeOk(tree + [x], log + [x])
  {
  }

  lemma SignedOkLater(key: Key, signed: set<Message>, log: seq<Hash>, x: Hash)
    requires SignedOk(key, signed, log)
    ensures SignedOk(key, signed, log + [x])
  {
    forall c | HeadMessage(c) in signed ensures HeadOk(c, key, log + [x]) {
      var tree :| TreeOk(tree, log) && SignedOver(c, tree);
      TreeOkLater(tree, log, x);
    }
  }

  lemma SigningKeepsOk(key: Key, signed: set<Message>, log: seq<Hash>, tree: seq<Hash>, now: int)
    requires SignedOk(key, signed, log) && TreeOk(tree, log) && |tree| > 0
    ensures var c := CanonicalOfHead(NewHead(key, tree, now));
            SignedOver(c, tree) && SignedOk(key, signed + {HeadMessage(c)}, log)
  {
    var c := CanonicalOfHead(NewHead(key, tree, now));
    assert HeadOk(c, key, log);
  }

  // ------------------------------------------------------------ what a turn signs

  /** The heads signed between two states: none, or one over `tree`. */
  ghost predicate SignsOnly(before: set<Message>, after: set<Message>, c: CanonicalHead)
  {
    && before <= after && HeadMessage(c) in after
    && (forall d :: HeadMessage(d) in after ==> HeadMessage(d) in before || d == c)
  }

  ghost predicate SignsNone(before: set<Message>, after: set<Message>)
  {
    before <= after && forall d :: HeadMessage(d) in after ==> HeadMessage(d) in before
  }

  lemma NoneSignedNoneConflicts(before: set<Message>, after: set<Message>)
    requires SignsNone(before, after)
    ensures Conflicting(after) <==> Conflicting(before)
  {
  }

  lemma OneSignedConflictsIff(before: set<Message>, after: set<Message>, c: CanonicalHead)
    requires SignsOnly(before, after, c)
    ensures Conflicting(after) <==>
            Conflicting(before) || exists d :: HeadMessage(d) in before && d.treeSize == c.treeSize && d.root != c.root
  {
    if Conflicting(before) {
      var a, b :| HeadMessage(a) in before && HeadMessage(b) in before && a.treeSize == b.treeSize && a.root != b.root;
      assert HeadMessage(a) in after && HeadMessage(b) in after;
    }
    if d :| HeadMessage(d) in before && d.treeSize == c.treeSize && d.root != c.root {
      assert HeadMessage(d) in after;
    }
  }

  /** A head over the whole log agrees with every head of its size. */
  lemma WholeLogConflictsNot(key: Key, before: set<Message>, after: set<Message>, log: seq<Hash>, c: CanonicalHead)
    requires SignedOk(key, before, log) && SignsOnly(before, after, c) && SignedOver(c, log)
    ensures Conflicting(after) <==> Conflicting(before)
  {
    OneSignedConflictsIff(before, after, c);
    forall d | HeadMessage(d) in before && d.treeSize == c.treeSize ensures d.root == c.root {
      var tree :| TreeOk(tree, log) && SignedOver(d, tree);
    }
  }

  /** A head over a new leaf disagrees with every earlier head of its size. */
  lemma NewLeafConflictsIff(key: Key, before: set<Message>, after: set<Message>, log: seq<Hash>, tree: seq<Hash>, x: Hash,
                            c: CanonicalHead)
    requires SignedOk(key, before, log) && SignsOnly(before, after, c) && TreeOk(tree, log)
    requires SignedOver(c, tree + [x]) && x !in log && x.LeafHash?
    ensures Conflicting(after) <==> Conflicting(before) || SizeSigned(before, |tree| + 1)
    ensures SizeSigned(before, |tree| + 1) ==> |tree| < |log|
  {
    OneSignedConflictsIff(before, after, c);
    forall d | HeadMessage(d) in before && d.treeSize == |tree| + 1 ensures d.root != c.root && |tree| < |log| {
      var other :| TreeOk(other, log) && SignedOver(d, other);
      NewLeafChangesRoot(other, tree, x);
    }
  }

  lemma NewLeafChangesRoot(other: seq<Hash>, tree: seq<Hash>, x: Hash)
    requires Merkle.AllLeaves(other) && Merkle.AllLeaves(tree) && x.LeafHash? && x !in other && |other| > 0
    ensures Merkle.Mth(other) != Merkle.Mth(tree + [x])
  {
    assert x in tree + [x] && other != tree + [x];
    if Merkle.Mth(other) == Merkle.Mth(tree + [x]) {
      Merkle.MthInjective(other, tree + [x]);
    }
  }

  // ------------------------------------------------------------ one turn

  /** The head a process publishes over its tree, and what else publishing touches. */
  lemma Publishes(n: Node, io: Io, now: int)
    requires n.mem.Some?
    ensures var c, after := CanonicalOfHead(NewHead(n.key, n.mem.value.tree, now)), PublishHead(n, io, now);
            && after.signed == n.signed + {HeadMessage(c)} && SignsOnly(n.signed, after.signed, c)
            && after.key == n.key && after.disk.rows == n.disk.rows
            && (after.mem.Some? ==> after.mem.value.tree == n.mem.value.tree)
  {
  }

  /** What a process leaves of one turn: `stored` rows, `tree` in memory if it is still up. */
  ghost predicate Leaves(h: Host, process: nat, n: Node, log: seq<Hash>, tree: seq<Hash>)
  {
    && n.key == h.key && HashesOf(n.disk.rows) == log
    && (n.mem.Some? ==> n.mem.value.tree == tree)
    && (n.disk.heads == h.disk.heads || |log| > 0)
  }

  lemma LeavesInv(h: Host, process: nat, n: Node, log: seq<Hash>, tree: seq<Hash>)
    requires Inv(h) && Leaves(h, process, n, log, tree) && TreeOk(tree, log) && SignedOk(h.key, n.signed, log)
    requires Merkle.AllLeaves(log)
    requires forall other | other in h.mems :: TreeOk(h.mems[other].tree, log)
    requires n.disk.heads == h.disk.heads ==> |log| >= |h.disk.rows|
    ensures Inv(Updated(h, process, n))
  {
  }

  lemma RowIsNew(n: Node, payload: Body, io: Io)
    requires n.mem.Some? && payload.Carried? && Lands(EntryWrite(n.disk.rows, NewRow(n, payload), io))
    ensures NewRow(n, payload).hash !in HashesOf(n.disk.rows) && NewRow(n, payload).hash.LeafHash?
    ensures HashesOf(n.disk.rows + [NewRow(n, payload)]) == HashesOf(n.disk.rows) + [NewRow(n, payload).hash]
  {
    LedgerTheorems.HashesAppend(n.disk.rows, NewRow(n, payload));
  }

  lemma UnstoredTurn(h: Host, turn: Turn)
    requires Inv(h) && turn.event.AppendEvent? && turn.process in h.mems && !Stores(h, turn)
    ensures Inv(StepOf(h, turn)) && SignsNone(h.signed, StepOf(h, turn).signed)
    ensures HashesOf(StepOf(h, turn).disk.rows) == HashesOf(h.disk.rows)
  {
    var n := Step(View(h, turn.process), turn.event);
    LeavesInv(h, turn.process, n, HashesOf(h.disk.rows), h.mems[turn.process].tree);
  }

  lemma AllLater(h: Host, x: Hash)
    requires Inv(h) && x.LeafHash?
    ensures forall other | other in h.mems :: TreeOk(h.mems[other].tree, HashesOf(h.disk.rows) + [x])
    ensures forall other | other in h.mems :: TreeOk(h.mems[other].tree + [x], HashesOf(h.disk.rows) + [x])
    ensures SignedOk(h.key, h.signed, HashesOf(h.disk.rows) + [x])
    ensures Merkle.AllLeaves(HashesOf(h.disk.rows) + [x])
  {
    var log := HashesOf(h.disk.rows);
    forall other | other in h.mems
      ensures TreeOk(h.mems[other].tree, log + [x]) && TreeOk(h.mems[other].tree + [x], log + [x])
    {
      TreeOkLater(h.mems[other].tree, log, x);
      TreeGrows(h.mems[other].tree, log, x);
    }
    SignedOkLater(h.key, h.signed, log, x);
  }

  lemma UnheadedTurn(h: Host, turn: Turn)
    requires Inv(h) && Stores(h, turn) && !Heads(h, turn)
    ensures Inv(StepOf(h, turn)) && SignsNone(h.signed, StepOf(h, turn).signed)
  {
    var v := View(h, turn.process);
    var row := NewRow(v, turn.event.payload.value);
    RowIsNew(v, turn.event.payload.value, turn.event.appendFaults.persistEntry);
    AllLater(h, row.hash);
    LeavesInv(h, turn.process, Step(v, turn.event), HashesOf(h.disk.rows) + [row.hash],
              h.mems[turn.process].tree + [row.hash]);
  }

  lemma HeadedTurn(h: Host, turn: Turn)
    requires Inv(h) && Heads(h, turn)
    ensures var after := StepOf(h, turn);
            && Inv(after)
            && (Conflicting(after.signed) <==>
                  Conflicting(h.signed) || SizeSigned(h.signed, |h.mems[turn.process].tree| + 1))
            && (SizeSigned(h.signed, |h.mems[turn.process].tree| + 1) ==> IsStale(h, turn.process))
            && SizeSigned(after.signed, |h.mems[turn.process].tree| + 1)
            && HashesOf(after.disk.rows) == HashesOf(h.disk.rows)
                                            + [NewRow(View(h, turn.process), turn.event.payload.value).hash]
  {
    var v, log, tree := View(h, turn.process), HashesOf(h.disk.rows), h.mems[turn.process].tree;
    var row := NewRow(v, turn.event.payload.value);
    var x := row.hash;
    RowIsNew(v, turn.event.payload.value, turn.event.appendFaults.persistEntry);
    AllLater(h, x);
    var m := Grown(EntrySigned(v, row), row);
    var f, now := turn.event.appendFaults, turn.event.now;
    var n := PublishHead(m, f.persistHead, now);
    assert Step(v, turn.event) == n;
    Publishes(m, f.persistHead, now);
    var c := CanonicalOfHead(NewHead(h.key, tree + [x], now));
    assert SignsOnly(h.signed, n.signed, c);
    SigningKeepsOk(h.key, m.signed, log + [x], tree + [x], now);
    LeavesInv(h, turn.process, n, log + [x], tree + [x]);
    NewLeafConflictsIff(h.key, h.signed, n.signed, log, tree, x, c);
  }

  /** A restart signs, if anything, a head over the rows it has just read. */
  lemma RestartHeads(h: Host, turn: Turn)
    requires Inv(h) && turn.event.RestartEvent?
    ensures var n, log := Step(View(h, turn.process), turn.event), HashesOf(h.disk.rows);
            && n.disk.rows == h.disk.rows && Leaves(h, turn.process, n, log, log)
            && (n.signed == h.signed || SignsOver(h, n, log, turn.event.now))
  {
    var v, f, now := View(h, turn.process), turn.event.restartFaults, turn.event.now;
    var open := v.(mem := Some(Memory(HashesOf(h.disk.rows), LatestHead(h.disk.heads))));
    Publishes(open, f.persistHead, now);
  }

  ghost predicate SignsOver(h: Host, n: Node, log: seq<Hash>, now: int)
  {
    |log| > 0 && n.signed == h.signed + {HeadMessage(CanonicalOfHead(NewHead(h.key, log, now)))}
  }

  lemma LeavesConflicts(h: Host, process: nat, n: Node, log: seq<Hash>, now: int)
    requires Inv(h) && log == HashesOf(h.disk.rows) && Leaves(h, process, n, log, log)
    requires n.signed == h.signed || SignsOver(h, n, log, now)
    ensures Inv(Updated(h, process, n)) && h.signed <= n.signed
    ensures Conflicting(n.signed) <==> Conflicting(h.signed)
  {
    if n.signed != h.signed {
      var c := CanonicalOfHead(NewHead(h.key, log, now));
      SigningKeepsOk(h.key, h.signed, log, log, now);
      WholeLogConflictsNot(h.key, h.signed, n.signed, log, c);
    }
    LeavesInv(h, process, n, log, log);
  }

  lemma RestartTurn(h: Host, turn: Turn)
    requires Inv(h) && turn.event.RestartEvent?
    ensures Inv(StepOf(h, turn)) && h.signed <= StepOf(h, turn).signed
    ensures Conflicting(StepOf(h, turn).signed) <==> Conflicting(h.signed)
    ensures StepOf(h, turn).disk.rows == h.disk.rows
  {
    RestartHeads(h, turn);
    LeavesConflicts(h, turn.process, Step(View(h, turn.process), turn.event), HashesOf(h.disk.rows), turn.event.now);
  }

  lemma {:induction false} OtherTurn(h: Host, turn: Turn)
    requires Inv(h) && !turn.event.RestartEvent? && !(turn.event.AppendEvent? && turn.process in h.mems)
    ensures Inv(StepOf(h, turn)) && StepOf(h, turn).signed == h.signed && StepOf(h, turn).disk.rows == h.disk.rows
  {
    var n := Step(View(h, turn.process), turn.event);
    var log := HashesOf(h.disk.rows);
    LeavesInv(h, turn.process, n, log, if turn.process in h.mems then h.mems[turn.process].tree else log);
  }

  /** A turn makes heads conflict exactly if it signs a stale one at a size that was signed before. */
  lemma TurnConflictsIff(h: Host, turn: Turn)
    requires Inv(h)
    ensures Inv(StepOf(h, turn)) && h.signed <= StepOf(h, turn).signed
    ensures Conflicting(StepOf(h, turn).signed) <==> Conflicting(h.signed) || Diverges(h, turn)
  {
    if turn.event.RestartEvent? {
      RestartTurn(h, turn);
    } else if !turn.event.AppendEvent? || turn.process !in h.mems {
      OtherTurn(h, turn);
    } else if !Stores(h, turn) {
      UnstoredTurn(h, turn);
      NoneSignedNoneConflicts(h.signed, StepOf(h, turn).signed);
    } else if !Heads(h, turn) {
      UnheadedTurn(h, turn);
      NoneSignedNoneConflicts(h.signed, StepOf(h, turn).signed);
    } else {
      HeadedTurn(h, turn);
      HeadedSigns(h, turn);
    }
  }

  lemma HeadedSigns(h: Host, turn: Turn)
    requires Heads(h, turn)
    ensures h.signed <= StepOf(h, turn).signed
  {
  }

  // ------------------------------------------------------------ whole runs

  lemma {:induction false} RunKeepsInv(key: Key, turns: seq<Turn>)
    ensures Inv(RunOf(NoProcess(key), turns)) && RunOf(NoProcess(key), turns).key == key
  {
    if |turns| > 0 {
      RunKeepsInv(key, turns[..|turns| - 1]);
      TurnConflictsIff(RunOf(NoProcess(key), turns[..|turns| - 1]), turns[|turns| - 1]);
    }
  }

  /** The host before the `k`-th turn. */
  ghost function Before(key: Key, turns: seq<Turn>, k: nat): Host
    requires k <= |turns|
  {
    RunOf(NoProcess(key), turns[..k])
  }

  ghost predicate DivergesAt(key: Key, turns: seq<Turn>, k: nat)
    requires k < |turns|
  {
    Diverges(Before(key, turns, k), turns[k])
  }

  ghost predicate HeadsStaleAt(key: Key, turns: seq<Turn>, k: nat)
    requires k < |turns|
  {
    HeadsStale(Before(key, turns, k), turns[k])
  }

  /** The turn stores an entry without signing a head over it. */
  ghost predicate UnheadedAt(key: Key, turns: seq<Turn>, k: nat)
    requires k < |turns|
  {
    Stores(Before(key, turns, k), turns[k]) && !Heads(Before(key, turns, k), turns[k])
  }

  lemma {:induction false} BeforeOfPrefix(key: Key, front: seq<Turn>, last: Turn, k: nat)
    requires k <= |front|
    ensures Before(key, front + [last], k) == Before(key, front, k)
    ensures k == |front| ==> Before(key, front + [last], k) == RunOf(NoProcess(key), front)
  {
    PrefixOfMore(front, last, k);
  }

  lemma PrefixOfMore(front: seq<Turn>, last: Turn, k: nat)
    requires k <= |front|
    ensures (front + [last])[..k] == front[..k] && front[..|front|] == front
  {
  }

  lemma DivergedBefore(key: Key, front: seq<Turn>, last: Turn)
    ensures (exists k: nat :: k < |front| + 1 && DivergesAt(key, front + [last], k))
       <==> (exists k: nat :: k < |front| && DivergesAt(key, front, k)) || Diverges(RunOf(NoProcess(key), front), last)
  {
    BeforeOfPrefix(key, front, last, |front|);
    assert DivergesAt(key, front + [last], |front|) <==> Diverges(RunOf(NoProcess(key), front), last);
    forall k: nat | k < |front| ensures DivergesAt(key, front + [last], k) <==> DivergesAt(key, front, k) {
      BeforeOfPrefix(key, front, last, k);
    }
  }

  /**
   However many processes append, fail, crash and restart over one store under one
   key, two of the signed heads conflict if and only if some process signed a head
   over a tree that differs from the stored rows, at a size already signed.
   */
  lemma {:induction false} ConflictsIff(key: Key, turns: seq<Turn>)
    ensures Conflicting(RunOf(NoProcess(key), turns).signed)
       <==> exists k: nat :: k < |turns| && DivergesAt(key, turns, k)
  {
    if |turns| > 0 {
      var front, last := turns[..|turns| - 1], turns[|turns| - 1];
      ConflictsIff(key, front);
      RunKeepsInv(key, front);
      TurnConflictsIff(RunOf(NoProcess(key), front), last);
      DivergedBefore(key, front, last);
      assert turns == front + [last];
    }
  }

  /** As long as no head is signed over a tree that differs from the stored rows, nothing conflicts. */
  lemma FreshTreesNeverConflict(key: Key, turns: seq<Turn>)
    requires forall k: nat | k < |turns| :: !HeadsStaleAt(key, turns, k)
    ensures !Conflicting(RunOf(NoProcess(key), turns).signed)
  {
    ConflictsIff(key, turns);
    if k: nat :| k < |turns| && DivergesAt(key, turns, k) {
      assert HeadsStaleAt(key, turns, k);
    }
  }

  // ------------------------------------------------------------ when every entry is headed

  /** A head was signed at every size up to that of the log. */
  ghost predicate FullySigned(h: Host)
  {
    forall size: nat | 1 <= size <= |h.disk.rows| :: SizeSigned(h.signed, size)
  }

  lemma SizesStaySigned(before: set<Message>, after: set<Message>, size: nat)
    requires before <= after && SizeSigned(before, size)
    ensures SizeSigned(after, size)
  {
    var c :| HeadMessage(c) in before && c.treeSize == size;
    assert HeadMessage(c) in after;
  }

  lemma TurnStaysFullySigned(h: Host, turn: Turn)
    requires Inv(h) && FullySigned(h) && !HeadsStale(h, turn) && (Stores(h, turn) ==> Heads(h, turn))
    ensures FullySigned(StepOf(h, turn))
  {
    TurnConflictsIff(h, turn);
    RowsGrow(h, turn);
    var after := StepOf(h, turn);
    if Heads(h, turn) {
      HeadedTurn(h, turn);
    }
    forall size: nat | 1 <= size <= |after.disk.rows| ensures SizeSigned(after.signed, size) {
      if size <= |h.disk.rows| {
        SizesStaySigned(h.signed, after.signed, size);
      }
    }
  }

  lemma RowsGrow(h: Host, turn: Turn)
    requires Inv(h)
    ensures |StepOf(h, turn).disk.rows| == |h.disk.rows| + if Stores(h, turn) then 1 else 0
  {
    if turn.event.RestartEvent? {
      RestartTurn(h, turn);
    } else if !turn.event.AppendEvent? || turn.process !in h.mems {
      OtherTurn(h, turn);
    } else if !Stores(h, turn) {
      UnstoredTurn(h, turn);
    }
  }

  lemma StaleDiverges(h: Host, turn: Turn)
    requires Inv(h) && FullySigned(h) && HeadsStale(h, turn)
    ensures Diverges(h, turn)
  {
    assert TreeOk(h.mems[turn.process].tree, HashesOf(h.disk.rows));
  }

  lemma StaleBefore(key: Key, front: seq<Turn>, last: Turn)
    ensures (exists k: nat :: k < |front| + 1 && HeadsStaleAt(key, front + [last], k))
       <==> (exists k: nat :: k < |front| && HeadsStaleAt(key, front, k)) || HeadsStale(RunOf(NoProcess(key), front), last)
  {
    BeforeOfPrefix(key, front, last, |front|);
    assert HeadsStaleAt(key, front + [last], |front|) <==> HeadsStale(RunOf(NoProcess(key), front), last);
    forall k: nat | k < |front| ensures HeadsStaleAt(key, front + [last], k) <==> HeadsStaleAt(key, front, k) {
      BeforeOfPrefix(key, front, last, k);
    }
  }

  lemma HeadedBefore(key: Key, front: seq<Turn>, last: Turn)
    requires forall k: nat | k < |front| + 1 :: !UnheadedAt(key, front + [last], k)
    ensures forall k: nat | k < |front| :: !UnheadedAt(key, front, k)
    ensures Stores(RunOf(NoProcess(key), front), last) ==> Heads(RunOf(NoProcess(key), front), last)
  {
    BeforeOfPrefix(key, front, last, |front|);
    assert !UnheadedAt(key, front + [last], |front|);
    forall k: nat | k < |front| ensures !UnheadedAt(key, front, k) {
      BeforeOfPrefix(key, front, last, k);
      assert !UnheadedAt(key, front + [last], k);
    }
  }

  /** When every stored entry gets its head signed, the two conflict exactly if a stale head was signed at all. */
  lemma {:induction false} HeadedConflictsIff(key: Key, turns: seq<Turn>)
    requires forall k: nat | k < |turns| :: !UnheadedAt(key, turns, k)
    ensures Conflicting(RunOf(NoProcess(key), turns).signed)
       <==> exists k: nat :: k < |turns| && HeadsStaleAt(key, turns, k)
    ensures Conflicting(RunOf(NoProcess(key), turns).signed) || FullySigned(RunOf(NoProcess(key), turns))
  {
    if |turns| > 0 {
      var front, last := turns[..|turns| - 1], turns[|turns| - 1];
      assert turns == front + [last];
      var h := RunOf(NoProcess(key), front);
      HeadedBefore(key, front, last);
      HeadedConflictsIff(key, front);
      RunKeepsInv(key, front);
      TurnConflictsIff(h, last);
      StaleBefore(key, front, last);
      if !Conflicting(h.signed) {
        if HeadsStale(h, last) {
          StaleDiverges(h, last);
        } else {
          TurnStaysFullySigned(h, last);
        }
      }
    }
  }

  // ------------------------------------------------------------ what conflicts are worth

  /** Signed heads convict their owner exactly when two of them conflict. */
  lemma FramedIff(key: Key, turns: seq<Turn>, witness_: Key)
    ensures (exists alert: Alert :: alert.peer == PeerOf(key) && alert.witnessId == PeerOf(witness_)
               && LedgerTheorems.Unforged(alert, key, RunOf(NoProcess(key), turns).signed)
               && JudgeAlert(Some(alert)) == Marks)
       <==> Conflicting(RunOf(NoProcess(key), turns).signed)
  {
    var h := RunOf(NoProcess(key), turns);
    RunKeepsInv(key, turns);
    if Conflicting(h.signed) {
      var alert := AlertOf(h, witness_);
    }
    if alert: Alert :| alert.peer == PeerOf(key) && LedgerTheorems.Unforged(alert, key, h.signed)
                       && JudgeAlert(Some(alert)) == Marks {
      var a, b := alert.headA.value, alert.headB.value;
      assert Some(a) in {alert.headA, alert.headB} && Some(b) in {alert.headA, alert.headB};
      assert HeadMessage(CanonicalOfHead(a)) in h.signed && HeadMessage(CanonicalOfHead(b)) in h.signed;
    }
  }

  function SignedHead(key: Key, c: CanonicalHead): LogHead
  {
    LogHead(c.peer, c.treeSize, c.root, c.timestamp, SignedBy(key, HeadMessage(c)), [], "")
  }

  lemma AlertOf(h: Host, witness_: Key) returns (alert: Alert)
    requires Inv(h) && Conflicting(h.signed)
    ensures alert.peer == PeerOf(h.key) && alert.witnessId == PeerOf(witness_)
    ensures LedgerTheorems.Unforged(alert, h.key, h.signed) && JudgeAlert(Some(alert)) == Marks
  {
    var a, b :| HeadMessage(a) in h.signed && HeadMessage(b) in h.signed && a.treeSize == b.treeSize && a.root != b.root;
    assert HeadOk(a, h.key, HashesOf(h.disk.rows)) && HeadOk(b, h.key, HashesOf(h.disk.rows));
    var c := CanonicalAlert(PeerOf(h.key), Some(SignedHead(h.key, a)), Some(SignedHead(h.key, b)), PeerOf(witness_), 0);
    alert := Alert(c.peer, c.headA, c.headB, c.witnessId, SignedBy(witness_, AlertMessage(c)), c.timestamp);
    assert CanonicalOfHead(SignedHead(h.key, a)) == a && CanonicalOfHead(SignedHead(h.key, b)) == b;
  }

  // ------------------------------------------------------------ two processes

  function Opening(process: nat): Turn
  {
    Turn(process, RestartEvent(LedgerTheorems.CLEAN_START, 0))
  }

  function Appending(process: nat, claim: Claim, headed: bool): Turn
  {
    Turn(process, AppendEvent(Some(Carried(claim, Full(Zero), NoSignature)), AppendFaults(true, Done, headed, Done), 1))
  }

  /** Both processes open the empty store, then each appends; the first may fail to sign its head. */
  function TwoAppends(claim1: Claim, claim2: Claim, headed: bool): seq<Turn>
  {
    [Opening(0), Opening(1), Appending(0, claim1, headed), Appending(1, claim2, true)]
  }

  ghost function BothOpen(key: Key): Host
  {
    Host(key, Disk([], map[], map[]), map[0 := Memory([], None), 1 := Memory([], None)], {})
  }

  lemma TwoOpenings(key: Key, claim1: Claim, claim2: Claim, headed: bool)
    ensures var turns := TwoAppends(claim1, claim2, headed);
            && Before(key, turns, 2) == BothOpen(key)
            && Before(key, turns, 3) == StepOf(BothOpen(key), turns[2])
            && RunOf(NoProcess(key), turns) == StepOf(Before(key, turns, 3), turns[3])
  {
    var turns := TwoAppends(claim1, claim2, headed);
    OneMoreTurn(key, turns, 0);
    OneMoreTurn(key, turns, 1);
    OneMoreTurn(key, turns, 2);
    assert turns[..|turns| - 1] == turns[..3];
    assert turns[0] == Opening(0) && turns[1] == Opening(1);
    TwoProcessesOpen(key);
  }

  lemma OneMoreTurn(key: Key, turns: seq<Turn>, k: nat)
    requires k < |turns|
    ensures Before(key, turns, k + 1) == StepOf(Before(key, turns, k), turns[k])
    ensures Before(key, turns, 0) == NoProcess(key)
  {
    assert turns[..k + 1][..k] == turns[..k];
  }

  lemma TwoProcessesOpen(key: Key)
    ensures StepOf(StepOf(NoProcess(key), Opening(0)), Opening(1)) == BothOpen(key)
  {
    var one := StepOf(NoProcess(key), Opening(0));
    assert one.mems == map[0 := Memory([], None)];
    assert map[0 := Memory([], None)][1 := Memory([], None)] == BothOpen(key).mems;
  }

  lemma FirstOfTwo(key: Key, claim1: Claim, claim2: Claim, headed: bool)
    ensures var h := StepOf(BothOpen(key), Appending(0, claim1, headed));
            && Inv(h) && h.key == key && 1 in h.mems && h.mems[1] == Memory([], None)
            && HashesOf(h.disk.rows) == [LeafHash(CanonicalEntry(claim1, Full(Zero)))]
            && (SizeSigned(h.signed, 1) <==> headed) && !Conflicting(h.signed)
  {
    var h, turn := BothOpen(key), Appending(0, claim1, headed);
    var row := NewRow(View(h, 0), turn.event.payload.value);
    assert [] + [row] == [row] && HashesOf([row]) == [row.hash];
    assert Inv(h) && Stores(h, turn);
    TurnConflictsIff(h, turn);
    if headed {
      HeadedTurn(h, turn);
    } else {
      UnheadedTurn(h, turn);
    }
  }

  lemma SecondIsStale(key: Key, h: Host, claim1: Claim, claim2: Claim)
    requires Inv(h) && h.key == key && 1 in h.mems && h.mems[1] == Memory([], None) && claim1 != claim2
    requires HashesOf(h.disk.rows) == [LeafHash(CanonicalEntry(claim1, Full(Zero)))]
    ensures HeadsStale(h, Appending(1, claim2, true))
  {
    var row := NewRow(View(h, 1), Carried(claim2, Full(Zero), NoSignature));
    assert row.hash == LeafHash(CanonicalEntry(claim2, Full(Zero)));
    assert row.hash !in HashesOf(h.disk.rows);
  }

  /** Two sessions of one owner over one store frame it with one faultless append each. */
  lemma TwoProcessesFrameTheirOwner(key: Key, witness_: Key, claim1: Claim, claim2: Claim) returns (alert: Alert)
    requires claim1 != claim2
    ensures var turns := TwoAppends(claim1, claim2, true);
            && HeadsStaleAt(key, turns, 3) && alert.peer == PeerOf(key)
            && LedgerTheorems.Unforged(alert, key, RunOf(NoProcess(key), turns).signed)
    ensures JudgeAlert(Some(alert)) == Marks
  {
    var turns := TwoAppends(claim1, claim2, true);
    TwoOpenings(key, claim1, claim2, true);
    FirstOfTwo(key, claim1, claim2, true);
    var h := Before(key, turns, 3);
    SecondIsStale(key, h, claim1, claim2);
    TurnConflictsIff(h, turns[3]);
    assert Diverges(h, turns[3]);
    RunKeepsInv(key, turns);
    alert := AlertOf(RunOf(NoProcess(key), turns), witness_);
  }

  /** But if the first stored its entry and failed to sign its head, the second's stale head conflicts with nothing. */
  lemma StaleHeadNeedNotConflict(key: Key, claim1: Claim, claim2: Claim)
    requires claim1 != claim2
    ensures var turns := TwoAppends(claim1, claim2, false);
            HeadsStaleAt(key, turns, 3) && !Conflicting(RunOf(NoProcess(key), turns).signed)
  {
    var turns := TwoAppends(claim1, claim2, false);
    TwoOpenings(key, claim1, claim2, false);
    FirstOfTwo(key, claim1, claim2, false);
    var h := Before(key, turns, 3);
    SecondIsStale(key, h, claim1, claim2);
    TurnConflictsIff(h, turns[3]);
  }
}
