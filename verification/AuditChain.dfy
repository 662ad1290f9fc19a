/** The audit chain: events are buffered, flushed in Merkle batches, and linked by block hashes. Any
    number of flushes run at once; each of their database calls is one atomic step, and any may fail. */
module AuditChain {
  import opened Merkle
  import Decimal

  datatype Event = Event(paymentId: string, eventType: string, payloadHash: string)

  datatype Block = Block(hash: string, prevHash: string, merkleRoot: string, eventCount: nat, batchId: string)

  datatype Row = Row(height: nat, event: Event, batchId: string, proof: seq<string>)

  /** Where one flush is. */
  datatype Flush =
    | Idle
    | Swapped(events: seq<Event>)
    | ReadBlock(events: seq<Event>, height: nat, prevHash: string)
    | BlockStored(events: seq<Event>, height: nat, batchId: string)
    | BatchStored(events: seq<Event>, height: nat, batchId: string)

  /** `enqueued` records every event ever enqueued. */
  datatype Chain = Chain(pending: seq<Event>, flushes: seq<Flush>, blocks: map<nat, Block>, rows: seq<Row>,
                         enqueued: multiset<Event>)

  datatype Action =
    | Enqueue(event: Event)
    | Swap(f: nat)
    | GetLatestBlock(f: nat)
    | InsertBlock(f: nat, batchId: string, timestamp: int)
    | CreateBatch(f: nat)
    | InsertRows(f: nat)
    | Fail(f: nat)

  function EventsOf(f: Flush): seq<Event> {
    match f
    case Idle => []
    case Swapped(es) => es
    case ReadBlock(es, _, _) => es
    case BlockStored(es, _, _) => es
    case BatchStored(es, _, _) => es
  }

  function Hashes(events: seq<Event>): seq<string> {
    seq(|events|, i requires 0 <= i < |events| => events[i].payloadHash)
  }

  function BlockHash(h: string -> string, prevHash: string, merkleRoot: string, batchId: string, count: nat,
                     timestamp: int): string
  {
    h(BlockText(prevHash, merkleRoot, batchId, count, timestamp))
  }

  /** What a block hash is made of. */
  function BlockText(prevHash: string, merkleRoot: string, batchId: string, count: nat, timestamp: int): string {
    prevHash + ":" + merkleRoot + ":" + batchId + ":" + Decimal.PrintInt(count) + ":" + Decimal.PrintInt(timestamp)
  }

  function NewBlock(h: string -> string, f: Flush, batchId: string, timestamp: int): Block
    requires f.ReadBlock?
  {
    var root := Root(h, Hashes(f.events));
    Block(BlockHash(h, f.prevHash, root, batchId, |f.events|, timestamp), f.prevHash, root, |f.events|, batchId)
  }

  /** The rows of a batch, each with the proof of its own leaf. */
  function RowsOf(h: string -> string, events: seq<Event>, height: nat, batchId: string): seq<Row> {
    seq(|events|, i requires 0 <= i < |events| => Row(height, events[i], batchId, Proof(h, Hashes(events), i)))
  }

  ghost predicate IsLatest(blocks: map<nat, Block>, height: nat) {
    height in blocks && forall k | k in blocks :: k <= height
  }

  /** The height of the latest block: the greatest one stored. */
  ghost function Latest(blocks: map<nat, Block>): (height: nat)
    requires blocks != map[]
    ensures IsLatest(blocks, height)
  {
    LatestExists(blocks);
    var m :| IsLatest(blocks, m);
    m
  }

  lemma LatestExists(blocks: map<nat, Block>)
    requires blocks != map[]
    ensures exists m :: IsLatest(blocks, m)
    decreases |blocks|
  {
    var k :| k in blocks;
    var rest := blocks - {k};
    if rest == map[] {
      assert forall x | x in blocks :: x == k || x in rest;
      assert IsLatest(blocks, k);
    } else {
      LatestExists(rest);
      var m :| IsLatest(rest, m);
      assert forall x | x in blocks :: x == k || x in rest;
      assert IsLatest(blocks, if m < k then k else m);
    }
  }

  /** A failed flush puts its events back in front of the newer ones. */
  function Requeued(s: Chain, f: nat): Chain
    requires f < |s.flushes|
  {
    s.(pending := EventsOf(s.flushes[f]) + s.pending, flushes := s.flushes[f := Idle])
  }

  /** The step of an action; an action that is not the flush's next changes nothing. */
  ghost function Next(h: string -> string, s: Chain, a: Action): Chain {
    if a.Enqueue? then s.(pending := s.pending + [a.event], enqueued := s.enqueued + multiset{a.event})
    else if a.f >= |s.flushes| then s
    else
      var f := s.flushes[a.f];
      match a
      case Swap(_) =>
        if f.Idle? && s.pending != [] then s.(pending := [], flushes := s.flushes[a.f := Swapped(s.pending)]) else s
      case GetLatestBlock(_) =>
        if !f.Swapped? then s
        else if s.blocks == map[] then Requeued(s, a.f)
        else
          var m := Latest(s.blocks);
          s.(flushes := s.flushes[a.f := ReadBlock(f.events, m + 1, s.blocks[m].hash)])
      case InsertBlock(_, batchId, timestamp) =>
        if !f.ReadBlock? then s
        else if f.height in s.blocks then Requeued(s, a.f)
        else s.(blocks := s.blocks[f.height := NewBlock(h, f, batchId, timestamp)],
                flushes := s.flushes[a.f := BlockStored(f.events, f.height, batchId)])
      case CreateBatch(_) =>
        if !f.BlockStored? then s
        else s.(flushes := s.flushes[a.f := BatchStored(f.events, f.height, f.batchId)])
      case InsertRows(_) =>
        if !f.BatchStored? then s
        else s.(rows := s.rows + RowsOf(h, f.events, f.height, f.batchId), flushes := s.flushes[a.f := Idle])
      case Fail(_) =>
        if f.Idle? then s else Requeued(s, a.f)
  }

  ghost function Run(h: string -> string, s: Chain, actions: seq<Action>): Chain {
    if actions == [] then s else Next(h, Run(h, s, actions[..|actions| - 1]), actions[|actions| - 1])
  }

  const ZEROS := seq(HEX, _ => '0')

  function Genesis(flushes: nat): Chain {
    Chain([], seq(flushes, _ => Idle), map[0 := Block(ZEROS, ZEROS, ZEROS, 0, "")], [], multiset{})
  }

  // ---- conservation of events ----

  function InFlight(flushes: seq<Flush>): multiset<Event> {
    if flushes == [] then multiset{} else multiset(EventsOf(flushes[0])) + InFlight(flushes[1..])
  }

  lemma {:induction false} InFlightUpdate(flushes: seq<Flush>, f: nat, g: Flush)
    requires f < |flushes|
    ensures InFlight(flushes[f := g]) + multiset(EventsOf(flushes[f])) == InFlight(flushes) + multiset(EventsOf(g))
  {
    hide EventsOf;
    var updated := flushes[f := g];
    if f > 0 {
      assert updated[1..] == flushes[1..][f - 1 := g];
      InFlightUpdate(flushes[1..], f - 1, g);
      var first := multiset(EventsOf(flushes[0]));
      assert InFlight(updated) == first + InFlight(updated[1..]);
      assert first + InFlight(updated[1..]) + multiset(EventsOf(flushes[f]))
        == first + (InFlight(updated[1..]) + multiset(EventsOf(flushes[f])))
        == first + (InFlight(flushes[1..]) + multiset(EventsOf(g)))
        == first + InFlight(flushes[1..]) + multiset(EventsOf(g));
    } else {
      assert updated[1..] == flushes[1..];
    }
  }

  function Recorded(rows: seq<Row>): seq<Event> {
    seq(|rows|, i requires 0 <= i < |rows| => rows[i].event)
  }

  ghost predicate Conserved(s: Chain) {
    multiset(s.pending) + InFlight(s.flushes) + multiset(Recorded(s.rows)) == s.enqueued
  }

  /** A step moves one flush from `f` to `g`, and the difference in events to pending or to the rows. */
  lemma MoveConserves(s: Chain, t: Chain, f: nat, g: Flush)
    requires Conserved(s) && f < |s.flushes| && t.flushes == s.flushes[f := g] && t.enqueued == s.enqueued
    requires multiset(t.pending) + multiset(EventsOf(g)) + multiset(Recorded(t.rows))
      == multiset(s.pending) + multiset(EventsOf(s.flushes[f])) + multiset(Recorded(s.rows))
    ensures Conserved(t)
  {
    hide EventsOf, Recorded;
    InFlightUpdate(s.flushes, f, g);
    var before, after := InFlight(s.flushes), InFlight(t.flushes);
    forall e: Event
      ensures (multiset(t.pending) + after + multiset(Recorded(t.rows)))[e] == s.enqueued[e]
    {
      assert (after + multiset(EventsOf(s.flushes[f])))[e] == (before + multiset(EventsOf(g)))[e];
      assert (multiset(t.pending) + multiset(EventsOf(g)) + multiset(Recorded(t.rows)))[e]
        == (multiset(s.pending) + multiset(EventsOf(s.flushes[f])) + multiset(Recorded(s.rows)))[e];
      assert s.enqueued[e] == (multiset(s.pending) + before + multiset(Recorded(s.rows)))[e];
    }
  }

  lemma RecordedRows(h: string -> string, rows: seq<Row>, events: seq<Event>, height: nat, batchId: string)
    ensures Recorded(rows + RowsOf(h, events, height, batchId)) == Recorded(rows) + events
  {
  }

  /** A step moves events in one of four ways: not at all, from pending to a flush, from a flush back
      to pending, or from a flush to the rows. */
  lemma NextMoves(h: string -> string, s: Chain, a: Action)
    requires !a.Enqueue? && a.f < |s.flushes|
    ensures var f, t := s.flushes[a.f], Next(h, s, a);
      && |t.flushes| == |s.flushes| && t.flushes == s.flushes[a.f := t.flushes[a.f]] && t.enqueued == s.enqueued
      && var g := t.flushes[a.f];
      || (t.pending == s.pending && t.rows == s.rows && EventsOf(g) == EventsOf(f))
      || (t.pending == [] && t.rows == s.rows && EventsOf(g) == s.pending && EventsOf(f) == [])
      || (t.pending == EventsOf(f) + s.pending && t.rows == s.rows && EventsOf(g) == [])
      || (t.pending == s.pending && Recorded(t.rows) == Recorded(s.rows) + EventsOf(f) && EventsOf(g) == [])
  {
    hide RowsOf, NewBlock, Latest, Recorded;
    var f := s.flushes[a.f];
    assert s.flushes[a.f := f] == s.flushes;
    if a.InsertRows? && f.BatchStored? {
      RecordedRows(h, s.rows, f.events, f.height, f.batchId);
    }
  }

  lemma FlushConserves(h: string -> string, s: Chain, a: Action)
    requires Conserved(s) && !a.Enqueue? && a.f < |s.flushes|
    ensures Conserved(Next(h, s, a))
  {
    hide Next, InFlight, Recorded, EventsOf, Conserved;
    NextMoves(h, s, a);
    var t := Next(h, s, a);
    MoveConserves(s, t, a.f, t.flushes[a.f]);
  }

  lemma NextConserves(h: string -> string, s: Chain, a: Action)
    requires Conserved(s)
    ensures Conserved(Next(h, s, a))
  {
    if a.Enqueue? {
      assert multiset(s.pending + [a.event]) == multiset(s.pending) + multiset{a.event};
    } else if a.f < |s.flushes| {
      FlushConserves(h, s, a);
    } else {
      hide Conserved;
    }
  }

  // ---- the chain ----

  /** Heights are 0, 1, 2, ... without gap, and every block names its predecessor's hash. */
  ghost predicate Linked(blocks: map<nat, Block>) {
    && 0 in blocks
    && (forall k | k in blocks :: 0 < k ==> k - 1 in blocks && blocks[k].prevHash == blocks[k - 1].hash)
  }

  ghost predicate FlushOk(h: string -> string, blocks: map<nat, Block>, f: Flush) {
    match f
    case ReadBlock(es, height, prevHash) =>
      es != [] && height > 0 && height - 1 in blocks && blocks[height - 1].hash == prevHash
    case BlockStored(es, height, batchId) => es != [] && StoredFor(h, blocks, es, height, batchId)
    case BatchStored(es, height, batchId) => es != [] && StoredFor(h, blocks, es, height, batchId)
    case Swapped(es) => es != []
    case Idle => true
  }

  ghost predicate StoredFor(h: string -> string, blocks: map<nat, Block>, es: seq<Event>, height: nat,
                            batchId: string)
  {
    height > 0 && height in blocks && blocks[height].batchId == batchId
    && blocks[height].merkleRoot == Root(h, Hashes(es)) && blocks[height].eventCount == |es|
  }

  /** What every recorded row can prove about the block it names. */
  ghost predicate RowOk(h: string -> string, blocks: map<nat, Block>, r: Row) {
    && r.height > 0 && r.height in blocks && r.batchId == blocks[r.height].batchId
    && Fold(h, r.event.payloadHash, r.proof) == blocks[r.height].merkleRoot
    && |r.proof| == Height(blocks[r.height].eventCount)
    && blocks[r.height].eventCount > 0
  }

  /** A block's hash is that of its contents and of some time. */
  ghost predicate Sealed(h: string -> string, b: Block) {
    exists timestamp ::
      b.hash == BlockHash(h, b.prevHash, b.merkleRoot, b.batchId, b.eventCount, timestamp)
  }

  /** All blocks but the first are sealed; the first one's hash is 64 zeros. */
  ghost predicate AllSealed(h: string -> string, blocks: map<nat, Block>) {
    && 0 in blocks && blocks[0].hash == seq(64, _ => '0')
    && forall k | k in blocks && k > 0 :: Sealed(h, blocks[k])
  }

  ghost predicate ChainOk(h: string -> string, s: Chain) {
    && Linked(s.blocks) && AllSealed(h, s.blocks)
    && (forall i | 0 <= i < |s.flushes| :: FlushOk(h, s.blocks, s.flushes[i]))
    && (forall i | 0 <= i < |s.rows| :: RowOk(h, s.blocks, s.rows[i]))
  }

  lemma RowsOfOk(h: string -> string, blocks: map<nat, Block>, es: seq<Event>, height: nat, batchId: string, i: nat)
    requires es != [] && StoredFor(h, blocks, es, height, batchId) && i < |es|
    ensures RowOk(h, blocks, RowsOf(h, es, height, batchId)[i])
  {
    Completeness(h, Hashes(es), i);
  }

  lemma NewSealed(h: string -> string, f: Flush, batchId: string, timestamp: int)
    requires f.ReadBlock?
    ensures Sealed(h, NewBlock(h, f, batchId, timestamp))
  {
    hide BlockHash, Root;
  }

  lemma StoreKeepsOk(h: string -> string, s: Chain, a: Action)
    requires ChainOk(h, s) && a.InsertBlock? && a.f < |s.flushes|
    requires s.flushes[a.f].ReadBlock? && s.flushes[a.f].height !in s.blocks
    ensures ChainOk(h, Next(h, s, a))
  {
    hide Root, Hashes, BlockHash, Fold, Height;
    var t := Next(h, s, a);
    assert FlushOk(h, s.blocks, s.flushes[a.f]);
    NewSealed(h, s.flushes[a.f], a.batchId, a.timestamp);
    hide Sealed;
    forall i | 0 <= i < |t.flushes|
      ensures FlushOk(h, t.blocks, t.flushes[i])
    {
      assert FlushOk(h, s.blocks, s.flushes[i]);
    }
    forall i | 0 <= i < |t.rows|
      ensures RowOk(h, t.blocks, t.rows[i])
    {
      assert RowOk(h, s.blocks, s.rows[i]);
    }
  }

  lemma NextKeepsOk(h: string -> string, s: Chain, a: Action)
    requires ChainOk(h, s)
    ensures ChainOk(h, Next(h, s, a))
  {
    if a.InsertBlock? && a.f < |s.flushes| && s.flushes[a.f].ReadBlock? && s.flushes[a.f].height !in s.blocks {
      StoreKeepsOk(h, s, a);
    } else {
      var t := Next(h, s, a);
      if a.InsertRows? && a.f < |s.flushes| && s.flushes[a.f].BatchStored? {
        var f := s.flushes[a.f];
        assert FlushOk(h, s.blocks, f);
        forall i | 0 <= i < |f.events|
          ensures RowOk(h, s.blocks, RowsOf(h, f.events, f.height, f.batchId)[i])
        {
          RowsOfOk(h, s.blocks, f.events, f.height, f.batchId, i);
        }
      }
      hide Root, Hashes, RowOk, RowsOf, Fold, AllSealed;
    }
  }

  /** In every interleaving of any number of flushes, with failures at any database call: no event is
      lost or recorded twice, the heights stay contiguous, every block is linked to its predecessor,
      its hash is that of its own contents, and every recorded row names its block's batch and carries a
      proof that leads to its root. */
  lemma {:induction false} ChainSafety(h: string -> string, flushes: nat, actions: seq<Action>)
    ensures var s := Run(h, Genesis(flushes), actions); Conserved(s) && ChainOk(h, s)
  {
    hide Next;
    if actions == [] {
      NothingInFlight(flushes);
    } else {
      var n := |actions| - 1;
      ChainSafety(h, flushes, actions[..n]);
      NextConserves(h, Run(h, Genesis(flushes), actions[..n]), actions[n]);
      NextKeepsOk(h, Run(h, Genesis(flushes), actions[..n]), actions[n]);
    }
  }

  lemma {:induction false} NothingInFlight(n: nat)
    ensures InFlight(seq(n, _ => Idle)) == multiset{}
  {
    if n > 0 {
      assert seq(n, _ => Idle)[1..] == seq(n - 1, _ => Idle);
      NothingInFlight(n - 1);
    }
  }

  ghost predicate Grows(s: Chain, t: Chain) {
    s.rows <= t.rows && forall k | k in s.blocks :: k in t.blocks && t.blocks[k] == s.blocks[k]
  }

  lemma NextGrows(h: string -> string, s: Chain, a: Action)
    ensures Grows(s, Next(h, s, a))
  {
    hide NewBlock, RowsOf, Latest;
  }

  /** Blocks and rows are never changed or removed. */
  lemma {:induction false} HistoryGrows(h: string -> string, s: Chain, actions: seq<Action>)
    ensures Grows(s, Run(h, s, actions))
  {
    hide Next;
    if actions != [] {
      var n := |actions| - 1;
      HistoryGrows(h, s, actions[..n]);
      NextGrows(h, Run(h, s, actions[..n]), actions[n]);
    }
  }

  // ---- what an audit query answers ----

  /** The Merkle and linkage checks of a payment audit for a recorded row. */
  method AuditRow(h: string -> string, blocks: map<nat, Block>, row: Row, leafIndex: int) returns (verified: bool)
    requires row.height in blocks
    ensures verified <==> AuditVerdict(h, blocks, row)
  {
    verified := false;
    var block := blocks[row.height];
    if |row.proof| > 0 {
      verified := VerifyMerkleProof(h, row.event.payloadHash, row.proof, block.merkleRoot, leafIndex);
    }
    if row.height > 1 && row.height - 1 in blocks && block.prevHash != blocks[row.height - 1].hash {
      verified := false;
    }
  }

  predicate AuditVerdict(h: string -> string, blocks: map<nat, Block>, row: Row)
    requires row.height in blocks
  {
    && |row.proof| > 0
    && Fold(h, row.event.payloadHash, row.proof) == blocks[row.height].merkleRoot
    && (row.height > 1 && row.height - 1 in blocks ==> blocks[row.height].prevHash == blocks[row.height - 1].hash)
  }

  /** In every reachable state, an audit confirms a recorded row, whatever leaf index it recomputes, if
      and only if the row's batch had at least two events: the empty proof of a one-event batch is
      never checked, so such a row stays unconfirmed. */
  lemma AuditConfirms(h: string -> string, flushes: nat, actions: seq<Action>, i: nat)
    requires i < |Run(h, Genesis(flushes), actions).rows|
    ensures var s := Run(h, Genesis(flushes), actions);
      var r := s.rows[i];
      r.height in s.blocks && (AuditVerdict(h, s.blocks, r) <==> s.blocks[r.height].eventCount >= 2)
  {
    ChainSafety(h, flushes, actions);
    var s := Run(h, Genesis(flushes), actions);
    hide Run, Fold;
    assert RowOk(h, s.blocks, s.rows[i]);
  }

  /** The integrity check of an audit trail: each listed block names the hash of the one listed before. */
  method VerifyChainIntegrity(blocks: seq<Block>) returns (ok: bool)
    ensures ok <==> forall i | 1 <= i < |blocks| :: blocks[i].prevHash == blocks[i - 1].hash
  {
    var i := 1;
    while i < |blocks|
      invariant 1 <= i
      invariant forall j | 1 <= j < i && j < |blocks| :: blocks[j].prevHash == blocks[j - 1].hash
    {
      if blocks[i].prevHash != blocks[i - 1].hash { return false; }
      i := i + 1;
    }
    return true;
  }

  ghost predicate TrailVerified(blocks: map<nat, Block>, heights: seq<nat>)
    requires forall i | 0 <= i < |heights| :: heights[i] in blocks
  {
    forall i | 1 <= i < |heights| :: blocks[heights[i]].prevHash == blocks[heights[i - 1]].hash
  }

  /** An audit trail lists only the blocks of one payment. On an intact chain with distinct block
      hashes the check accepts the list exactly when each listed block is the immediate successor of
      the one before: events in blocks that are not adjacent make it report a broken chain. */
  lemma TrailVerifiedExactly(blocks: map<nat, Block>, heights: seq<nat>)
    requires Linked(blocks)
    requires forall j, k | j in blocks && k in blocks :: blocks[j].hash == blocks[k].hash ==> j == k
    requires forall i | 0 <= i < |heights| :: heights[i] > 0 && heights[i] in blocks
    ensures TrailVerified(blocks, heights) <==> forall i | 1 <= i < |heights| :: heights[i] == heights[i - 1] + 1
  {
    forall i | 1 <= i < |heights|
      ensures blocks[heights[i]].prevHash == blocks[heights[i - 1]].hash <==> heights[i] == heights[i - 1] + 1
    {
      assert blocks[heights[i]].prevHash == blocks[heights[i] - 1].hash;
    }
  }
}

/** The chain service as an object: the event buffer, and one flush from swap to rows. */
module ChainService {
  import opened Merkle
  import opened AuditChain

  /** Which database call of a flush fails, if any. */
  datatype Fault = NoFault | AtGetLatest | AtInsertBlock | AtCreateBatch | AtInsertRows

  ghost function Flushed(h: string -> string, s: Chain, fault: Fault, batchId: string, timestamp: int): Chain {
    var swapped := Next(h, s, Swap(0));
    var read := Next(h, swapped, GetLatestBlock(0));
    var stored := Next(h, read, InsertBlock(0, batchId, timestamp));
    var batched := Next(h, stored, CreateBatch(0));
    match fault
    case NoFault => Next(h, batched, InsertRows(0))
    case AtGetLatest => Next(h, swapped, Fail(0))
    case AtInsertBlock => Next(h, read, Fail(0))
    case AtCreateBatch => Next(h, stored, Fail(0))
    case AtInsertRows => Next(h, batched, Fail(0))
  }

  /** The stored blocks after a commit: one more on top of the latest, unless it failed before that. */
  ghost function StoredBlocks(h: string -> string, blocks: map<nat, Block>, events: seq<Event>, fault: Fault,
                              batchId: string, timestamp: int): map<nat, Block>
    requires blocks != map[]
  {
    var m := Latest(blocks);
    if fault == AtGetLatest || fault == AtInsertBlock then blocks
    else blocks[m + 1 := NewBlock(h, ReadBlock(events, m + 1, blocks[m].hash), batchId, timestamp)]
  }

  lemma FlushedIs(h: string -> string, s: Chain, fault: Fault, batchId: string, timestamp: int)
    requires s.flushes == [Idle] && s.blocks != map[]
    ensures s.pending == [] ==> Flushed(h, s, fault, batchId, timestamp) == s
    ensures s.pending != [] ==> (Flushed(h, s, fault, batchId, timestamp) ==
      s.(blocks := StoredBlocks(h, s.blocks, s.pending, fault, batchId, timestamp),
         pending := if fault == NoFault then [] else s.pending,
         rows := if fault == NoFault then s.rows + RowsOf(h, s.pending, Latest(s.blocks) + 1, batchId) else s.rows))
  {
    hide RowsOf, NewBlock;
    if s.pending != [] {
      var swapped := Next(h, s, Swap(0));
      assert swapped == s.(pending := [], flushes := [Swapped(s.pending)]);
      var read := Next(h, swapped, GetLatestBlock(0));
      var m := Latest(s.blocks);
      assert read == swapped.(flushes := [ReadBlock(s.pending, m + 1, s.blocks[m].hash)]);
      var stored := Next(h, read, InsertBlock(0, batchId, timestamp));
      assert stored.flushes == [BlockStored(s.pending, m + 1, batchId)];
      var batched := Next(h, stored, CreateBatch(0));
      assert batched.flushes == [BatchStored(s.pending, m + 1, batchId)];
    }
  }

  lemma RowsAre(h: string -> string, events: seq<Event>, height: nat, batchId: string)
    ensures var all := RowsOf(h, events, height, batchId);
      && |all| == |events|
      && forall i | 0 <= i < |events| :: all[i] == Row(height, events[i], batchId, Proof(h, Hashes(events), i))
  {
  }

  class Service {
    const h: string -> string
    var pending: seq<Event>
    var blocks: map<nat, Block>
    var rows: seq<Row>
    ghost var enqueued: multiset<Event>

    ghost function View(): Chain
      reads this
    {
      Chain(pending, [Idle], blocks, rows, enqueued)
    }

    constructor (h: string -> string)
      ensures View() == Genesis(1) && this.h == h
    {
      this.h := h;
      pending, rows, enqueued := [], [], multiset{};
      blocks := map[0 := Block(ZEROS, ZEROS, ZEROS, 0, "")];
    }

    method EnqueueEvent(event: Event) returns (shouldFlush: bool)
      modifies this
      ensures View() == Next(h, old(View()), Enqueue(event))
      ensures shouldFlush <==> |pending| >= 1000
    {
      pending := pending + [event];
      enqueued := enqueued + multiset{event};
      shouldFlush := |pending| >= 1000;
    }

    method GetLatestHeight() returns (height: nat)
      requires blocks != map[]
      ensures IsLatest(blocks, height)
    {
      var rest := blocks.Keys;
      height :| height in blocks;
      while rest != {}
        invariant rest <= blocks.Keys && height in blocks
        invariant forall k | k in blocks :: k in rest || k <= height
      {
        var k :| k in rest;
        if k > height { height := k; }
        rest := rest - {k};
      }
    }

    /** A flush that nothing interrupts takes the protocol's steps up to the call that fails. */
    method FlushBatch(fault: Fault, batchId: string, timestamp: int)
      requires blocks != map[]
      modifies this`pending, this`blocks, this`rows
      ensures View() == Flushed(h, old(View()), fault, batchId, timestamp)
    {
      hide Flushed, StoredBlocks, RowsOf, Latest, IsLatest, Next;
      FlushedIs(h, View(), fault, batchId, timestamp);
      if |pending| != 0 {
        var events := pending;
        pending := [];
        var ok := CommitBatch(events, fault, batchId, timestamp);
        if !ok {
          pending := events + pending;
          assert pending == events;
        }
      }
    }

    method CollectHashes(events: seq<Event>) returns (hashes: seq<string>)
      ensures hashes == Hashes(events)
    {
      hashes := [];
      for i := 0 to |events|
        invariant hashes == Hashes(events)[..i]
      {
        hashes := hashes + [events[i].payloadHash];
      }
    }

    method BuildRows(events: seq<Event>, hashes: seq<string>, height: nat, batchId: string) returns (built: seq<Row>)
      requires hashes == Hashes(events)
      ensures built == RowsOf(h, events, height, batchId)
    {
      assert |hashes| == |events|;
      hide Proof, Hashes, RowsOf;
      built := [];
      ghost var all := RowsOf(h, events, height, batchId);
      RowsAre(h, events, height, batchId);
      for i := 0 to |events|
        invariant |built| == i && forall j | 0 <= j < i :: built[j] == all[j]
      {
        var proof := MerkleProof(h, hashes, i);
        built := built + [Row(height, events[i], batchId, proof)];
      }
    }

    /** True exactly if every database call succeeds. */
    method CommitBatch(events: seq<Event>, fault: Fault, batchId: string, timestamp: int) returns (ok: bool)
      requires blocks != map[]
      modifies this`blocks, this`rows
      ensures ok <==> fault == NoFault
      ensures blocks == StoredBlocks(h, old(blocks), events, fault, batchId, timestamp)
      ensures rows == if ok then old(rows) + RowsOf(h, events, Latest(old(blocks)) + 1, batchId) else old(rows)
    {
      hide Root, RowsOf, Hashes, BlockHash;
      var hashes := CollectHashes(events);
      var root := MerkleRoot(h, hashes);
      if fault == AtGetLatest { return false; }
      var latest := GetLatestHeight();
      assert latest == Latest(blocks);
      var newHeight := latest + 1;
      var prev := blocks[latest].hash;
      if fault == AtInsertBlock { return false; }
      var hash := BlockHash(h, prev, root, batchId, |events|, timestamp);
      blocks := blocks[newHeight := Block(hash, prev, root, |events|, batchId)];
      if fault == AtCreateBatch { return false; }
      var chainEvents := BuildRows(events, hashes, newHeight, batchId);
      if fault == AtInsertRows { return false; }
      rows := rows + chainEvents;
      return true;
    }
  }
}
