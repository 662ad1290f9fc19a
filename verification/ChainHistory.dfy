/** What the audit chain is for: a block hash commits to everything before it, events are recorded in order,
    and an accepted audit means what it says. */
module ChainHistory {
  import opened Decimal
  import opened Merkle
  import opened AuditChain

  // ---- the text of a block determines its fields ----

  lemma PrintNatInjective(m: nat, n: nat)
    ensures PrintNat(m) == PrintNat(n) ==> m == n
  {
    assert Value(PrintNat(m)) == m && Value(PrintNat(n)) == n;
  }

  lemma PrintIntInjective(x: int, y: int)
    ensures PrintInt(x) == PrintInt(y) ==> x == y
    ensures ':' !in PrintInt(x)
  {
    var a, b := if x < 0 then -x else x, if y < 0 then -y else y;
    PrintNatInjective(a, b);
    var u, v := PrintNat(a), PrintNat(b);
    assert IsDigit(u[0]) && IsDigit(v[0]);
    assert ("-" + u)[1..] == u && ("-" + v)[1..] == v;
    assert ("-" + u)[0] == '-' && ("-" + v)[0] == '-';
    hide PrintNat;
  }

  lemma ColonInside(u: string, x: string, v: string, y: string)
    requires u + ":" + x == v + ":" + y && |x| < |y|
    ensures ':' in y
  {
    var s := v + ":" + y;
    assert (u + ":" + x)[|u|] == ':';
    assert s[|u|] == y[|u| - |v| - 1];
  }

  /** Two texts that end in a colon and something without one have equal parts. */
  lemma LastColon(u: string, x: string, v: string, y: string)
    requires ':' !in x && ':' !in y && u + ":" + x == v + ":" + y
    ensures u == v && x == y
  {
    if |x| < |y| {
      ColonInside(u, x, v, y);
      assert false;
    }
    if |x| > |y| {
      ColonInside(v, y, u, x);
      assert false;
    }
    FirstPart(u, x, v, y);
  }

  /** Text of a known length in front of a colon. */
  lemma FirstPart(u: string, x: string, v: string, y: string)
    requires |u| == |v| && u + ":" + x == v + ":" + y
    ensures u == v && x == y
  {
    var s, t := u + ":" + x, v + ":" + y;
    assert s[..|u|] == u && s[|u| + 1..] == x;
    assert t[..|v|] == v && t[|v| + 1..] == y;
  }

  lemma BlockTextParts(p: string, r: string, id: string, count: nat, time: int)
    ensures BlockText(p, r, id, count, time) ==
      (p + ":" + (r + ":" + id) + ":" + PrintInt(count)) + ":" + PrintInt(time)
    ensures (p + ":" + (r + ":" + id)) == p + ":" + r + ":" + id
  {
    hide PrintInt;
  }

  /** All five fields: digests have a fixed length, and no number contains a colon. */
  lemma BlockTextInjective(p: string, r: string, id: string, count: nat, time: int,
                           p': string, r': string, id': string, count': nat, time': int)
    requires |p| == |p'| == |r| == |r'| == HEX
    requires BlockText(p, r, id, count, time) == BlockText(p', r', id', count', time')
    ensures p == p' && r == r' && id == id' && count == count' && time == time'
  {
    BlockTextParts(p, r, id, count, time);
    BlockTextParts(p', r', id', count', time');
    PrintIntInjective(time, time');
    PrintIntInjective(time', time);
    PrintIntInjective(count, count');
    PrintIntInjective(count', count);
    hide PrintInt, BlockText;
    var u, u' := p + ":" + (r + ":" + id), p' + ":" + (r' + ":" + id');
    LastColon(u + ":" + PrintInt(count), PrintInt(time), u' + ":" + PrintInt(count'), PrintInt(time'));
    LastColon(u, PrintInt(count), u', PrintInt(count'));
    FirstPart(p, r + ":" + id, p', r' + ":" + id');
    FirstPart(r, id, r', id');
  }

  // ---- a hash commits to the history ----

  predicate SameContents(a: Block, b: Block) {
    && a.prevHash == b.prevHash && a.merkleRoot == b.merkleRoot
    && a.batchId == b.batchId && a.eventCount == b.eventCount
  }

  /** Two different texts that hash to the two blocks' common hash. */
  ghost predicate BlocksCollide(h: string -> string, a: Block, b: Block) {
    exists s, t ::
      && BlockText(a.prevHash, a.merkleRoot, a.batchId, a.eventCount, s)
           != BlockText(b.prevHash, b.merkleRoot, b.batchId, b.eventCount, t)
      && BlockHash(h, a.prevHash, a.merkleRoot, a.batchId, a.eventCount, s) == a.hash == b.hash
      && BlockHash(h, b.prevHash, b.merkleRoot, b.batchId, b.eventCount, t) == b.hash
  }

  predicate HexBlock(b: Block) {
    |b.prevHash| == HEX && |b.merkleRoot| == HEX
  }

  /** Equal block hashes mean equal contents, the previous hash and the root included. */
  lemma HashCommitsToBlock(h: string -> string, a: Block, b: Block)
    requires Sealed(h, a) && Sealed(h, b) && HexBlock(a) && HexBlock(b) && a.hash == b.hash
    ensures SameContents(a, b) || BlocksCollide(h, a, b)
  {
    var s :| a.hash == BlockHash(h, a.prevHash, a.merkleRoot, a.batchId, a.eventCount, s);
    var t :| b.hash == BlockHash(h, b.prevHash, b.merkleRoot, b.batchId, b.eventCount, t);
    if BlockText(a.prevHash, a.merkleRoot, a.batchId, a.eventCount, s)
       == BlockText(b.prevHash, b.merkleRoot, b.batchId, b.eventCount, t) {
      BlockTextInjective(a.prevHash, a.merkleRoot, a.batchId, a.eventCount, s,
                         b.prevHash, b.merkleRoot, b.batchId, b.eventCount, t);
    }
  }

  ghost predicate AllHexBlocks(blocks: map<nat, Block>) {
    forall k | k in blocks :: HexBlock(blocks[k])
  }

  /** The last hash commits to the whole history: two chains with the same hash at one height have the same
      blocks at every height below, or two blocks of the same height are hashed from colliding texts. */
  lemma {:induction false} HashCommitsToHistory(h: string -> string, a: map<nat, Block>, b: map<nat, Block>, n: nat)
    requires Linked(a) && Linked(b) && AllSealed(h, a) && AllSealed(h, b) && AllHexBlocks(a) && AllHexBlocks(b)
    requires n in a && n in b && a[n].hash == b[n].hash
    ensures (forall k | 1 <= k <= n :: k in a && k in b && SameContents(a[k], b[k]) && a[k].hash == b[k].hash)
      || (exists k :: 1 <= k <= n && k in a && k in b && BlocksCollide(h, a[k], b[k]))
  {
    hide SameContents, BlocksCollide, Sealed, HexBlock;
    if n > 0 {
      HashCommitsToBlock(h, a[n], b[n]);
      if SameContents(a[n], b[n]) {
        SamePrevious(a[n], b[n]);
        HashCommitsToHistory(h, a, b, n - 1);
      }
    }
  }

  lemma SamePrevious(a: Block, b: Block)
    requires SameContents(a, b)
    ensures a.prevHash == b.prevHash
  {
  }

  // ---- order ----

  /** The events a run enqueues, in order. */
  function Enqueued(actions: seq<Action>): seq<Event> {
    if actions == [] then [] else
      var last := actions[|actions| - 1];
      Enqueued(actions[..|actions| - 1]) + if last.Enqueue? then [last.event] else []
  }

  /** With one flush at a time, events are recorded in the order in which they were enqueued, whatever fails:
      what is recorded, in flight and pending is that sequence. */
  lemma {:induction false} RecordedInOrder(h: string -> string, actions: seq<Action>)
    ensures var s := Run(h, Genesis(1), actions);
      && |s.flushes| == 1
      && Recorded(s.rows) + EventsOf(s.flushes[0]) + s.pending == Enqueued(actions)
  {
    if actions != [] {
      var n := |actions| - 1;
      RecordedInOrder(h, actions[..n]);
      var s := Run(h, Genesis(1), actions[..n]);
      hide Run, Enqueued;
      OrderStep(h, s, actions[n]);
    } else {
      assert Recorded([]) == [];
    }
  }

  lemma OrderStep(h: string -> string, s: Chain, a: Action)
    requires |s.flushes| == 1
    ensures var t := Next(h, s, a);
      && |t.flushes| == 1
      && Recorded(t.rows) + EventsOf(t.flushes[0]) + t.pending ==
           Recorded(s.rows) + EventsOf(s.flushes[0]) + s.pending + if a.Enqueue? then [a.event] else []
  {
    if !a.Enqueue? && a.f == 0 {
      NextMoves(h, s, a);
      hide Next, Recorded, EventsOf;
    } else {
      hide Recorded;
    }
  }

  // ---- audits ----

  /** An accepted audit is sound, for any stored blocks: the event is one of the leaves of the block's root
      if the proof has that tree's height, or two hashed strings collide; and the block names the hash of the
      one before, if that is stored. */
  lemma AuditSound(h: string -> string, blocks: map<nat, Block>, row: Row, leaves: seq<string>)
    requires row.height in blocks && AuditVerdict(h, blocks, row)
    requires Digests(h) && |row.event.payloadHash| == HEX && AllHex(leaves) && leaves != []
    requires blocks[row.height].merkleRoot == Root(h, leaves) && |row.proof| == Height(|leaves|)
    ensures row.event.payloadHash in leaves
      || Collision(h, ProofInputs(h, row.event.payloadHash, row.proof), TreeInputs(h, leaves))
    ensures row.height > 1 && row.height - 1 in blocks ==>
      blocks[row.height].prevHash == blocks[row.height - 1].hash
    ensures row.proof != []
  {
    Soundness(h, row.event.payloadHash, row.proof, leaves);
  }

  /** And complete: a genuine proof of two leaves or more is refused only if a stored predecessor's hash is
      not the one that the block names. */
  lemma AuditComplete(h: string -> string, blocks: map<nat, Block>, row: Row, leaves: seq<string>, i: nat)
    requires row.height in blocks && i < |leaves| && |leaves| > 1
    requires row.event.payloadHash == leaves[i] && row.proof == Proof(h, leaves, i)
    requires blocks[row.height].merkleRoot == Root(h, leaves)
    ensures AuditVerdict(h, blocks, row) <==>
      (row.height > 1 && row.height - 1 in blocks ==> blocks[row.height].prevHash == blocks[row.height - 1].hash)
  {
    Completeness(h, leaves, i);
    assert Height(|leaves|) > 0;
    hide Fold, Root, Proof;
  }
}
