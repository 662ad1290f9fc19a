/** The engine core: duplicate suppression in front of the command handlers, and its counters. */
module DedupSpec {
  import opened Word
  import opened LedgerSpec
  import opened EngineSpec

  const MAX_DEDUP_SIZE: nat := 10_000_000

  /** Everything the core thread owns. `cache` maps a request hash to the recorded result code. */
  datatype Core = Core(ledger: Ledger, log: seq<Command>, cache: map<uint64, Code>,
                       processed: nat, rejected: nat, duplicated: nat, evictions: nat)

  /** One dequeued command, its clock, and the cache keys that are erased if the cache is full.
      The erased keys come from the hash map's iteration order, so they may be any keys. */
  datatype Input = Input(cmd: Command, clock: Clock, victims: set<uint64>)

  predicate ValidVictims(cache: map<uint64, Code>, victims: set<uint64>) {
    victims <= cache.Keys && |victims| == MAX_DEDUP_SIZE / 10
  }

  predicate IsDuplicate(cache: map<uint64, Code>, hash: uint64) {
    hash != 0 && hash in cache
  }

  function Record(cache: map<uint64, Code>, hash: uint64, code: Code, victims: set<uint64>): map<uint64, Code> {
    if hash == 0 then cache
    else if |cache| >= MAX_DEDUP_SIZE then (cache - victims)[hash := code]
    else cache[hash := code]
  }

  /** The step records a new hash in a full cache. */
  predicate Evicts(s: Core, i: Input) {
    i.cmd.requestHash != 0 && !IsDuplicate(s.cache, i.cmd.requestHash) && |s.cache| >= MAX_DEDUP_SIZE
  }

  function Step(s: Core, i: Input): Core {
    var h := i.cmd.requestHash;
    if IsDuplicate(s.cache, h) then s.(duplicated := s.duplicated + 1)
    else
      var o := Process(s.ledger, i.cmd, i.clock);
      Core(o.ledger, if o.logged then s.log + [i.cmd] else s.log, Record(s.cache, h, o.code, i.victims),
           if o.code == OK then s.processed + 1 else s.processed,
           if o.code != OK && o.code != DuplicatedRequest then s.rejected + 1 else s.rejected,
           if o.code == DuplicatedRequest then s.duplicated + 1 else s.duplicated,
           if Evicts(s, i) then s.evictions + MAX_DEDUP_SIZE / 10 else s.evictions)
  }

  function RunCore(s: Core, inputs: seq<Input>): Core {
    if inputs == [] then s else Step(RunCore(s, inputs[..|inputs| - 1]), inputs[|inputs| - 1])
  }

  predicate ValidStep(s: Core, i: Input) {
    Evicts(s, i) ==> ValidVictims(s.cache, i.victims)
  }

  /** The erased keys really are keys of the full cache, whenever a run erases any. */
  ghost predicate ValidRun(s: Core, inputs: seq<Input>) {
    forall n | 0 <= n < |inputs| ::
      ValidStep(RunCore(s, inputs[..n]), inputs[n])
  }

  function Fresh(l: Ledger): Core {
    Core(l, [], map[], 0, 0, 0, 0)
  }

  lemma RunCoreStep(s: Core, inputs: seq<Input>, i: Input)
    ensures RunCore(s, inputs + [i]) == Step(RunCore(s, inputs), i)
  {
    assert (inputs + [i])[..|inputs|] == inputs;
  }

  /** Batches compose: a run over two batches is the run over their concatenation. */
  lemma {:induction false} RunCoreConcat(s: Core, a: seq<Input>, b: seq<Input>)
    ensures RunCore(s, a + b) == RunCore(RunCore(s, a), b)
    decreases |b|
  {
    hide Step;
    if b == [] {
      assert a + b == a;
    } else {
      var n := |b| - 1;
      assert (a + b)[..|a| + n] == a + b[..n];
      RunCoreConcat(s, a, b[..n]);
    }
  }

  // ---- what dedup is for ----

  function Hashes(inputs: seq<Input>): set<uint64> {
    set i | 0 <= i < |inputs| && inputs[i].cmd.requestHash != 0 :: inputs[i].cmd.requestHash
  }

  /** The stream without the later repeats of any non-zero request hash. */
  function FirstOnly(inputs: seq<Input>): seq<Timed> {
    if inputs == [] then [] else
      var n := |inputs| - 1;
      var kept := FirstOnly(inputs[..n]);
      var i := inputs[n];
      if i.cmd.requestHash in Hashes(inputs[..n]) then kept else kept + [Timed(i.cmd, i.clock)]
  }

  lemma HashesStep(inputs: seq<Input>, n: nat)
    requires |inputs| == n + 1
    ensures Hashes(inputs) ==
      Hashes(inputs[..n]) + (if inputs[n].cmd.requestHash != 0 then {inputs[n].cmd.requestHash} else {})
  {
    var before, h := Hashes(inputs[..n]), inputs[n].cmd.requestHash;
    forall x | x in Hashes(inputs)
      ensures x in before || (h != 0 && x == h)
    {
      var i :| 0 <= i < |inputs| && inputs[i].cmd.requestHash == x && x != 0;
      if i < n {
        assert inputs[..n][i].cmd.requestHash == x;
      }
    }
    forall x | x in before
      ensures x in Hashes(inputs)
    {
      var i :| 0 <= i < n && inputs[..n][i].cmd.requestHash == x && x != 0;
      assert inputs[i].cmd.requestHash == x;
    }
  }

  /** Dedup transparency: as long as a stream carries at most MAX_DEDUP_SIZE distinct non-zero request
      hashes, the deduplicating engine ends with the ledger and the log of a bare engine that is given
      the stream without its later repeats, and nothing is ever evicted. */
  lemma {:induction false} DedupTransparent(l: Ledger, inputs: seq<Input>)
    requires |Hashes(inputs)| <= MAX_DEDUP_SIZE
    ensures var s := RunCore(Fresh(l), inputs);
      && (s.ledger, s.log) == Run(l, FirstOnly(inputs))
      && s.cache.Keys == Hashes(inputs)
      && s.evictions == 0
  {
    hide Process;
    if inputs != [] {
      var n := |inputs| - 1;
      var before, h := inputs[..n], inputs[n].cmd.requestHash;
      HashesStep(inputs, n);
      Subset(Hashes(before), Hashes(inputs));
      DedupTransparent(l, before);
      var s := RunCore(Fresh(l), before);
      if h !in Hashes(before) {
        if h != 0 {
          assert |Hashes(inputs)| == |Hashes(before)| + 1;
          assert |s.cache| == |s.cache.Keys|;
        }
        var kept := FirstOnly(before);
        assert FirstOnly(inputs)[..|kept|] == kept;
      }
    }
  }

  /** A run evicts exactly if it carries more distinct non-zero hashes than the cache may hold. */
  lemma {:induction false} EvictsExactly(l: Ledger, inputs: seq<Input>)
    ensures RunCore(Fresh(l), inputs).evictions == 0 <==> |Hashes(inputs)| <= 10_000_000
  {
    hide Process;
    if |Hashes(inputs)| <= MAX_DEDUP_SIZE {
      DedupTransparent(l, inputs);
    } else {
      var n := |inputs| - 1;
      var before := inputs[..n];
      HashesStep(inputs, n);
      EvictsExactly(l, before);
      if |Hashes(before)| <= MAX_DEDUP_SIZE {
        DedupTransparent(l, before);
        assert |RunCore(Fresh(l), before).cache| == |Hashes(before)|;
      }
    }
  }

  lemma {:induction false} Subset(a: set<uint64>, b: set<uint64>)
    requires a <= b
    ensures |a| <= |b|
  {
    assert b == a + (b - a);
  }

  /** In every run from a fresh cache, evictions included, the cache never exceeds its maximum, every
      command is counted exactly once, and every processed command is logged exactly once. */
  lemma {:induction false} CountersAndCache(l: Ledger, inputs: seq<Input>)
    requires ValidRun(Fresh(l), inputs)
    ensures var s := RunCore(Fresh(l), inputs);
      && |s.cache| <= MAX_DEDUP_SIZE
      && s.processed + s.rejected + s.duplicated == |inputs|
      && |s.log| == s.processed
  {
    if inputs != [] {
      var n := |inputs| - 1;
      var before, i := inputs[..n], inputs[n];
      forall k | 0 <= k < n
        ensures before[..k] == inputs[..k]
      {
      }
      CountersAndCache(l, before);
      var s := RunCore(Fresh(l), before);
      var o := Process(s.ledger, i.cmd, i.clock);
      LoggedMeansOk(s.ledger, i.cmd, i.clock);
      if !IsDuplicate(s.cache, i.cmd.requestHash) {
        RecordBounded(s.cache, i.cmd.requestHash, o.code, i.victims);
      }
    }
  }

  lemma LoggedMeansOk(l: Ledger, c: Command, t: Clock)
    ensures Process(l, c, t).logged <==> Process(l, c, t).code == OK
  {
  }

  lemma RecordBounded(cache: map<uint64, Code>, hash: uint64, code: Code, victims: set<uint64>)
    requires |cache| <= MAX_DEDUP_SIZE
    requires hash != 0 && |cache| >= MAX_DEDUP_SIZE ==> ValidVictims(cache, victims)
    ensures |Record(cache, hash, code, victims)| <= MAX_DEDUP_SIZE
  {
    if hash != 0 {
      var kept := if |cache| >= MAX_DEDUP_SIZE then cache - victims else cache;
      assert kept.Keys == if |cache| >= MAX_DEDUP_SIZE then cache.Keys - victims else cache.Keys;
      assert |kept.Keys| < MAX_DEDUP_SIZE;
      assert Record(cache, hash, code, victims).Keys == kept.Keys + {hash};
    }
  }

  /** The n-th command of a run has this hash and got this code. */
  ghost predicate GotCode(l: Ledger, inputs: seq<Input>, hash: uint64, code: Code, n: nat)
    requires n < |inputs|
  {
    && inputs[n].cmd.requestHash == hash != 0
    && Process(RunCore(Fresh(l), inputs[..n]).ledger, inputs[n].cmd, inputs[n].clock).code == code
  }

  /** Every recorded code is the one that some command with that hash got. */
  lemma {:induction false} RecordedCodes(l: Ledger, inputs: seq<Input>, hash: uint64) returns (n: nat)
    requires hash in RunCore(Fresh(l), inputs).cache
    ensures n < |inputs| && GotCode(l, inputs, hash, RunCore(Fresh(l), inputs).cache[hash], n)
  {
    var k := |inputs| - 1;
    var before, i := inputs[..k], inputs[k];
    var s := RunCore(Fresh(l), before);
    CodeNext(s, i, hash);
    hide Process, RunCore, Fresh, Step;
    if hash in s.cache && Step(s, i).cache[hash] == s.cache[hash] {
      n := RecordedCodes(l, before, hash);
      assert before[..n] == inputs[..n];
    } else {
      n := k;
    }
  }

  lemma CodeNext(s: Core, i: Input, hash: uint64)
    ensures hash in Step(s, i).cache ==>
      || (hash in s.cache && Step(s, i).cache[hash] == s.cache[hash])
      || (hash == i.cmd.requestHash != 0 && Step(s, i).cache[hash] == Process(s.ledger, i.cmd, i.clock).code)
  {
    hide Process;
  }

  // ---- what eviction costs ----

  /** The step repeats a request whose hash was recorded before and has been erased since. */
  predicate Forgets(s: Core, before: seq<Input>, i: Input) {
    i.cmd.requestHash in Hashes(before) && i.cmd.requestHash !in s.cache
  }

  /** How many steps of a run do. */
  function Forgotten(l: Ledger, inputs: seq<Input>): nat {
    if inputs == [] then 0 else
      var before := inputs[..|inputs| - 1];
      Forgotten(l, before) + if Forgets(RunCore(Fresh(l), before), before, inputs[|inputs| - 1]) then 1 else 0
  }

  /** In every run, evictions included, the commands executed are the first of each request and the
      forgotten repeats, no more and no less; and as long as no repeat was forgotten, the ledger and the
      log are those of the stream without its repeats. */
  lemma {:induction false} OncePerRequestExactly(l: Ledger, inputs: seq<Input>)
    ensures var s := RunCore(Fresh(l), inputs);
      && s.processed + s.rejected == |FirstOnly(inputs)| + Forgotten(l, inputs)
      && s.cache.Keys <= Hashes(inputs)
      && (Forgotten(l, inputs) == 0 ==> (s.ledger, s.log) == Run(l, FirstOnly(inputs)))
  {
    hide Process;
    if inputs != [] {
      var n := |inputs| - 1;
      var before, i := inputs[..n], inputs[n];
      HashesStep(inputs, n);
      OncePerRequestExactly(l, before);
      var s, kept := RunCore(Fresh(l), before), FirstOnly(before);
      ExecutedStep(s, i);
      assert FirstOnly(inputs) == kept || FirstOnly(inputs)[..|kept|] == kept;
      hide Hashes, Step, Fresh;
    }
  }

  /** One step executes its command or counts a duplicate. */
  lemma ExecutedStep(s: Core, i: Input)
    ensures var t, h := Step(s, i), i.cmd.requestHash;
      if IsDuplicate(s.cache, h) then t == s.(duplicated := s.duplicated + 1)
      else
        var o := Process(s.ledger, i.cmd, i.clock);
        && t.processed + t.rejected == s.processed + s.rejected + 1
        && t.ledger == o.ledger && t.log == (if o.logged then s.log + [i.cmd] else s.log)
        && t.cache.Keys <= s.cache.Keys + (if h == 0 then {} else {h})
  {
    NeverDuplicated(s.ledger, i.cmd, i.clock);
  }

  lemma NeverDuplicated(l: Ledger, c: Command, t: Clock)
    ensures Process(l, c, t).code != DuplicatedRequest
  {
  }

  /** A repeat is forgotten only after an eviction, and then the command is processed again. */
  lemma EvictedRequestRunsAgain(l: Ledger, inputs: seq<Input>, i: Input)
    requires Forgets(RunCore(Fresh(l), inputs), inputs, i)
    ensures var s := RunCore(Fresh(l), inputs);
      && s.evictions > 0
      && RunCore(Fresh(l), inputs + [i]).ledger == Process(s.ledger, i.cmd, i.clock).ledger
  {
    hide Process;
    EvictsExactly(l, inputs);
    RunCoreStep(Fresh(l), inputs, i);
    if |Hashes(inputs)| <= MAX_DEDUP_SIZE {
      DedupTransparent(l, inputs);
      assert false;
    }
    ExecutedStep(RunCore(Fresh(l), inputs), i);
  }
}

module EngineCore {
  import opened Word
  import opened LedgerSpec
  import opened EngineSpec
  import opened DedupSpec
  import LedgerStore

  class Engine {
    const ledger: LedgerStore.Store
    var log: seq<Command>
    var cache: map<uint64, Code>
    var processed: nat
    var rejected: nat
    var duplicated: nat
    var evictions: nat

    constructor (ledger: LedgerStore.Store)
      ensures this.ledger == ledger && View() == Fresh(ledger.View())
    {
      this.ledger := ledger;
      log, cache := [], map[];
      processed, rejected, duplicated, evictions := 0, 0, 0, 0;
    }

    function View(): Core
      reads this, ledger
    {
      Core(ledger.View(), log, cache, processed, rejected, duplicated, evictions)
    }

    /** What a handler may do: change the ledger and append to the log, as one outcome says. */
    twostate predicate Performed(c: Command, o: Outcome, code: Code)
      reads this, ledger
    {
      && code == o.code
      && View() == old(View()).(ledger := o.ledger, log := if o.logged then old(log) + [c] else old(log))
    }

    method HandleFreeze(c: Command, t: Clock) returns (code: Code)
      requires c.kind == FreezeFunds
      modifies this`log, ledger
      ensures Performed(c, Process(old(ledger.View()), c, t), code)
    {
      var required := Total(c);
      if required < c.source { return OverflowDetected; }
      code := ledger.Freeze(c.from, required, t.first);
      if code == OK { log := log + [c]; }
    }

    method HandleExecute(c: Command, t: Clock) returns (code: Code)
      requires c.kind == ExecutePayment
      modifies this`log, ledger
      ensures Performed(c, Process(old(ledger.View()), c, t), code)
    {
      var required := Total(c);
      code := ledger.Debit(c.from, required, t.first);
      if code != OK { return; }
      code := ledger.Credit(c.to, c.target, t.second);
      if code != OK {
        var _ := ledger.Credit(c.from, required, t.third);
        return;
      }
      var _ := ledger.Credit(c.feeAccount, c.fee, t.third);
      log := log + [c];
      code := OK;
    }

    method HandleRelease(c: Command, t: Clock) returns (code: Code)
      requires c.kind == ReleaseFunds
      modifies this`log, ledger
      ensures Performed(c, Process(old(ledger.View()), c, t), code)
    {
      code := ledger.Unfreeze(c.from, Total(c), t.first);
      if code == OK { log := log + [c]; }
    }

    method HandleRefund(c: Command, t: Clock) returns (code: Code)
      requires c.kind == RefundPayment
      modifies this`log, ledger
      ensures Performed(c, Process(old(ledger.View()), c, t), code)
    {
      code := ledger.Credit(c.from, Total(c), t.first);
      if code == OK { log := log + [c]; }
    }

    method ProcessCommand(c: Command, t: Clock) returns (code: Code)
      modifies this`log, ledger
      ensures Performed(c, Process(old(ledger.View()), c, t), code)
    {
      match c.kind
      case FreezeFunds => code := HandleFreeze(c, t);
      case ExecutePayment => code := HandleExecute(c, t);
      case ReleaseFunds => code := HandleRelease(c, t);
      case RefundPayment => code := HandleRefund(c, t);
      case SettlementBatch => log := log + [c]; code := OK;
      case Unknown => code := InternalError;
    }

    /** Evicts a tenth of a full cache, in whatever order the hash map yields, then records the result. */
    method RecordDedupResult(hash: uint64, code: Code) returns (victims: set<uint64>)
      modifies this`cache, this`evictions
      ensures |old(cache)| >= MAX_DEDUP_SIZE && hash != 0 ==> ValidVictims(old(cache), victims)
      ensures cache == Record(old(cache), hash, code, victims)
      ensures evictions == old(evictions) +
        if hash != 0 && |old(cache)| >= MAX_DEDUP_SIZE then MAX_DEDUP_SIZE / 10 else 0
    {
      victims := {};
      if hash == 0 { return; }
      if |cache| >= MAX_DEDUP_SIZE {
        var toEvict := MAX_DEDUP_SIZE / 10;
        var keys := cache.Keys;
        assert |keys| == |cache|;
        while |victims| < toEvict
          invariant victims <= keys && |victims| <= toEvict
          invariant cache == old(cache) && evictions == old(evictions)
        {
          Leftover(victims, keys);
          var key :| key in keys - victims;
          victims := victims + {key};
        }
        cache := cache - victims;
        evictions := evictions + toEvict;
      }
      cache := cache[hash := code];
    }

    static lemma Leftover(victims: set<uint64>, keys: set<uint64>)
      requires victims <= keys && |victims| < |keys|
      ensures keys - victims != {}
    {
      assert keys == victims + (keys - victims);
    }

    /** One dequeued command: suppressed as a duplicate, or processed and recorded. */
    method ProcessOne(c: Command, t: Clock) returns (ghost i: Input)
      modifies this, ledger
      ensures i.cmd == c && i.clock == t && ValidStep(old(View()), i)
      ensures View() == Step(old(View()), i)
    {
      i := Input(c, t, {});
      if IsDuplicate(cache, c.requestHash) {
        duplicated := duplicated + 1;
        return;
      }
      var code := ProcessCommand(c, t);
      var victims := RecordDedupResult(c.requestHash, code);
      i := Input(c, t, victims);
      if code == OK {
        processed := processed + 1;
      } else if code == DuplicatedRequest {
        duplicated := duplicated + 1;
      } else {
        rejected := rejected + 1;
      }
    }

    /** One dequeued batch, in order. */
    method ProcessBatch(batch: seq<Timed>) returns (ghost inputs: seq<Input>)
      modifies this, ledger
      ensures |inputs| == |batch|
      ensures forall k | 0 <= k < |batch| :: inputs[k].cmd == batch[k].cmd && inputs[k].clock == batch[k].clock
      ensures View() == RunCore(old(View()), inputs) && ValidRun(old(View()), inputs)
    {
      hide Step, ValidStep, View;
      inputs := [];
      var k := 0;
      while k < |batch|
        invariant 0 <= k <= |batch| && |inputs| == k
        invariant forall j | 0 <= j < k :: inputs[j].cmd == batch[j].cmd && inputs[j].clock == batch[j].clock
        invariant View() == RunCore(old(View()), inputs) && ValidRun(old(View()), inputs)
      {
        ghost var i := ProcessOne(batch[k].cmd, batch[k].clock);
        ExtendRun(old(View()), inputs, i);
        inputs := inputs + [i];
        k := k + 1;
      }
    }

    static lemma ExtendRun(start: Core, inputs: seq<Input>, i: Input)
      requires ValidRun(start, inputs)
      requires ValidStep(RunCore(start, inputs), i)
      ensures ValidRun(start, inputs + [i]) && RunCore(start, inputs + [i]) == Step(RunCore(start, inputs), i)
    {
      hide Step, ValidStep;
      RunCoreStep(start, inputs, i);
      forall n | 0 <= n < |inputs|
        ensures (inputs + [i])[..n] == inputs[..n] && (inputs + [i])[n] == inputs[n]
      {
      }
      assert (inputs + [i])[..|inputs|] == inputs;
    }
  }
}
