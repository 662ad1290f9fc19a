/** Which streams of commands can make the engine execute a request again: decided by the stream alone. */
module DedupEviction {
  import opened Word
  import opened LedgerSpec
  import opened EngineSpec
  import opened DedupSpec

  /** How many keys one eviction erases. */
  const TENTH: nat := MAX_DEDUP_SIZE / 10

  function Stream(inputs: seq<Input>): seq<Timed> {
    seq(|inputs|, i requires 0 <= i < |inputs| => Timed(inputs[i].cmd, inputs[i].clock))
  }

  /** The distinct non-zero request hashes of a stream. */
  function HashesOf(stream: seq<Timed>): set<uint64> {
    set i | 0 <= i < |stream| && stream[i].cmd.requestHash != 0 :: stream[i].cmd.requestHash
  }

  /** The n-th command brings a new hash when the cache is full: the distinct hashes before it are the
      maximum, or exceed it by whole tenths. */
  predicate FullStep(stream: seq<Timed>, n: nat)
    requires n < |stream|
  {
    var before, h := HashesOf(stream[..n]), stream[n].cmd.requestHash;
    h != 0 && h !in before && |before| >= MAX_DEDUP_SIZE && (|before| - MAX_DEDUP_SIZE) % TENTH == 0
  }

  /** Some command repeats a hash that was there before a full step. */
  ghost predicate CanForget(stream: seq<Timed>) {
    exists n, j :: 0 <= n < j < |stream| && FullStep(stream, n) && stream[j].cmd.requestHash in HashesOf(stream[..n])
  }

  lemma StreamPrefix(inputs: seq<Input>, n: nat)
    requires n <= |inputs|
    ensures Stream(inputs)[..n] == Stream(inputs[..n]) && HashesOf(Stream(inputs)[..n]) == Hashes(inputs[..n])
  {
    assert Stream(inputs)[..n] == Stream(inputs[..n]);
    StreamHashes(inputs[..n]);
  }

  lemma StreamHashes(inputs: seq<Input>)
    ensures HashesOf(Stream(inputs)) == Hashes(inputs)
  {
    var s := Stream(inputs);
    forall h: uint64
      ensures h in HashesOf(s) <==> h in Hashes(inputs)
    {
      if h in Hashes(inputs) {
        var i :| 0 <= i < |inputs| && inputs[i].cmd.requestHash == h && h != 0;
        assert s[i].cmd.requestHash == h;
      }
      if h in HashesOf(s) {
        var i :| 0 <= i < |s| && s[i].cmd.requestHash == h && h != 0;
        assert inputs[i].cmd.requestHash == h;
      }
    }
  }

  // ---- the cache as long as nothing was forgotten ----

  /** Its size is that of the hashes seen less the evictions, and after an eviction it is almost full. */
  ghost predicate TracksSeen(s: Core, seen: set<uint64>) {
    && |s.cache| + s.evictions == |seen| && |s.cache| <= MAX_DEDUP_SIZE
    && s.evictions % TENTH == 0 && (s.evictions > 0 ==> |s.cache| > MAX_DEDUP_SIZE - TENTH)
    && s.cache.Keys <= seen
  }

  ghost predicate Tracked(l: Ledger, inputs: seq<Input>) {
    TracksSeen(RunCore(Fresh(l), inputs), Hashes(inputs))
  }

  lemma CacheSizes(cache: map<uint64, Code>, hash: uint64, code: Code, victims: set<uint64>)
    requires hash != 0 && hash !in cache && |cache| <= MAX_DEDUP_SIZE
    requires |cache| == MAX_DEDUP_SIZE ==> ValidVictims(cache, victims)
    ensures var kept := if |cache| == MAX_DEDUP_SIZE then cache.Keys - victims else cache.Keys;
      var next := Record(cache, hash, code, victims);
      && next.Keys == kept + {hash}
      && |next| == if |cache| == MAX_DEDUP_SIZE then MAX_DEDUP_SIZE - TENTH + 1 else |cache| + 1
  {
    var next := Record(cache, hash, code, victims);
    assert |next| == |next.Keys| && |cache| == |cache.Keys|;
    if |cache| == MAX_DEDUP_SIZE {
      assert cache.Keys == (cache.Keys - victims) + victims;
      assert (cache - victims).Keys == cache.Keys - victims;
    }
  }

  /** What a step does to the number of cached keys. */
  lemma StepSizes(s: Core, i: Input)
    requires |s.cache| <= MAX_DEDUP_SIZE && ValidStep(s, i)
    ensures var h, t := i.cmd.requestHash, Step(s, i);
      if h == 0 || h in s.cache then t.cache == s.cache && t.evictions == s.evictions
      else
        && t.cache.Keys <= s.cache.Keys + {h}
        && if |s.cache| == MAX_DEDUP_SIZE
           then |t.cache| == MAX_DEDUP_SIZE - TENTH + 1 && t.evictions == s.evictions + TENTH
           else |t.cache| == |s.cache| + 1 && t.evictions == s.evictions
  {
    var h := i.cmd.requestHash;
    hide Process;
    if h != 0 && h !in s.cache {
      CacheSizes(s.cache, h, Process(s.ledger, i.cmd, i.clock).code, i.victims);
      hide Record;
    }
  }

  lemma TenthMore(evictions: nat)
    requires evictions % TENTH == 0
    ensures (evictions + TENTH) % TENTH == 0
  {
  }

  lemma SeenMore(seen: set<uint64>, h: uint64)
    ensures |seen + {h}| == |seen| + if h in seen then 0 else 1
  {
    if h in seen {
      assert seen + {h} == seen;
    }
  }

  lemma TracksNext(s: Core, i: Input, seen: set<uint64>)
    requires TracksSeen(s, seen) && ValidStep(s, i) && 0 !in seen
    requires i.cmd.requestHash in seen ==> i.cmd.requestHash in s.cache
    ensures TracksSeen(Step(s, i), seen + if i.cmd.requestHash != 0 then {i.cmd.requestHash} else {})
  {
    var h := i.cmd.requestHash;
    StepSizes(s, i);
    hide Step, ValidStep;
    if h == 0 || h in s.cache {
      assert seen + (if h != 0 then {h} else {}) == seen;
    } else {
      TenthMore(s.evictions);
      SeenMore(seen, h);
      assert Step(s, i).cache.Keys <= seen + {h};
    }
  }

  /** One more step that forgets nothing. */
  lemma TrackStep(l: Ledger, before: seq<Input>, i: Input)
    requires Tracked(l, before)
    requires var s := RunCore(Fresh(l), before); ValidStep(s, i) && !Forgets(s, before, i)
    ensures Tracked(l, before + [i])
  {
    hide Hashes, Fresh, RunCore, Step, ValidStep, TracksSeen;
    RunCoreStep(Fresh(l), before, i);
    assert (before + [i])[..|before|] == before;
    HashesStep(before + [i], |before|);
    ZeroIsNone(before);
    TracksNext(RunCore(Fresh(l), before), i, Hashes(before));
  }

  lemma ZeroIsNone(inputs: seq<Input>)
    ensures 0 !in Hashes(inputs)
  {
  }

  lemma {:induction false} TrackRun(l: Ledger, inputs: seq<Input>)
    requires ValidRun(Fresh(l), inputs) && Forgotten(l, inputs) == 0
    ensures Tracked(l, inputs)
  {
    if inputs == [] {
      assert Hashes(inputs) == {};
    } else {
      var n := |inputs| - 1;
      var before := inputs[..n];
      assert inputs == before + [inputs[n]];
      assert Forgotten(l, before) == 0 && !Forgets(RunCore(Fresh(l), before), before, inputs[n]);
      hide Tracked, Forgets, RunCore, Forgotten, ValidRun, ValidStep;
      ValidPrefix(Fresh(l), inputs, n);
      TrackRun(l, before);
      TrackStep(l, before, inputs[n]);
    }
  }

  lemma ValidPrefix(s: Core, inputs: seq<Input>, n: nat)
    requires ValidRun(s, inputs) && n <= |inputs|
    ensures ValidRun(s, inputs[..n]) && (n < |inputs| ==> ValidStep(RunCore(s, inputs[..n]), inputs[n]))
  {
    forall k | 0 <= k < n
      ensures inputs[..n][..k] == inputs[..k]
    {
    }
  }

  /** So the cache is full exactly at the stream's full steps. */
  lemma FullExactly(size: nat, evictions: nat, distinct: nat)
    requires size + evictions == distinct && size <= MAX_DEDUP_SIZE && evictions % TENTH == 0
    requires evictions > 0 ==> size > MAX_DEDUP_SIZE - TENTH
    ensures size == MAX_DEDUP_SIZE <==> distinct >= MAX_DEDUP_SIZE && (distinct - MAX_DEDUP_SIZE) % TENTH == 0
  {
    if distinct >= MAX_DEDUP_SIZE && evictions > 0 {
      SameTenths(evictions, distinct - MAX_DEDUP_SIZE);
    }
  }

  lemma Tenths(n: nat)
    ensures n == n / TENTH * TENTH + n % TENTH
  {
  }

  lemma NoGap(r: int, q: int)
    requires 0 <= r * TENTH - q * TENTH < TENTH
    ensures r == q
  {
  }

  lemma SameTenths(a: nat, b: nat)
    requires a % TENTH == 0 && 0 <= a - b < TENTH
    ensures b % TENTH == 0 <==> a == b
  {
    Tenths(a);
    Tenths(b);
    if b % TENTH == 0 {
      NoGap(a / TENTH, b / TENTH);
    }
  }

  lemma EvictsAtFullSteps(l: Ledger, inputs: seq<Input>, i: Input)
    requires Tracked(l, inputs) && i.cmd.requestHash !in Hashes(inputs)
    ensures Evicts(RunCore(Fresh(l), inputs), i) <==> FullStep(Stream(inputs + [i]), |inputs|)
  {
    StreamPrefix(inputs + [i], |inputs|);
    assert (inputs + [i])[..|inputs|] == inputs;
    var s := RunCore(Fresh(l), inputs);
    hide RunCore, Hashes, HashesOf;
    FullExactly(|s.cache|, s.evictions, |Hashes(inputs)|);
  }

  // ---- a forgotten repeat comes after a full step ----

  /** A hash seen but no longer cached was there before some full step. */
  lemma {:induction false} LostAtFullStep(l: Ledger, inputs: seq<Input>, h: uint64) returns (n: nat)
    requires ValidRun(Fresh(l), inputs) && Forgotten(l, inputs) == 0
    requires h in Hashes(inputs) && h !in RunCore(Fresh(l), inputs).cache
    ensures n < |inputs| && FullStep(Stream(inputs), n) && h in HashesOf(Stream(inputs)[..n])
  {
    var k := |inputs| - 1;
    var before, i := inputs[..k], inputs[k];
    assert inputs == before + [i];
    ValidPrefix(Fresh(l), inputs, k);
    RunCoreStep(Fresh(l), before, i);
    HashesStep(inputs, k);
    TrackRun(l, before);
    var s := RunCore(Fresh(l), before);
    CacheAfter(s, i);
    hide RunCore, Hashes, HashesOf, Step, ValidRun, Tracked;
    if h in s.cache {
      n := k;
      EvictsAtFullSteps(l, before, i);
      StreamPrefix(inputs, k);
    } else {
      n := LostAtFullStep(l, before, h);
      FullStepPrefix(inputs, k, n);
    }
  }

  lemma FullStepPrefix(inputs: seq<Input>, k: nat, n: nat)
    requires n < k <= |inputs|
    ensures FullStep(Stream(inputs[..k]), n) <==> FullStep(Stream(inputs), n)
    ensures Stream(inputs[..k])[..n] == Stream(inputs)[..n]
  {
    StreamPrefix(inputs, k);
    assert Stream(inputs)[..k][..n] == Stream(inputs)[..n];
  }

  /** What a step does to the cached keys. */
  lemma CacheAfter(s: Core, i: Input)
    ensures var h, next := i.cmd.requestHash, Step(s, i).cache;
      && (h != 0 ==> h in next)
      && (Evicts(s, i) ==> next.Keys == s.cache.Keys - i.victims + {h})
      && (!Evicts(s, i) ==> s.cache.Keys <= next.Keys <= s.cache.Keys + {h})
  {
    hide Process;
  }

  // ---- and any repeat after one can be forgotten ----

  lemma OneMore(s: set<uint64>, h: uint64)
    requires |s| >= 2
    ensures s - {h} != {}
  {
    Subset(s, (s - {h}) + {h});
  }

  /** Erasing as many keys as asked for, with one of them or without it. */
  lemma {:induction false} Pick(keys: set<uint64>, count: nat, h: uint64, erase: bool) returns (victims: set<uint64>)
    requires count < |keys| && (erase ==> h in keys && count > 0)
    ensures victims <= keys && |victims| == count && (h in victims <==> erase)
    decreases count
  {
    if count == 0 {
      victims := {};
    } else if erase && count == 1 {
      victims := {h};
    } else {
      var rest := Pick(keys, count - 1, h, erase);
      assert keys == (keys - rest) + rest;
      OneMore(keys - rest, h);
      var key :| key in keys - rest - {h};
      victims := rest + {key};
    }
  }

  /** The run up to `k` that erases `h` at the full step `n` and keeps it before. */
  ghost predicate Arranged(l: Ledger, stream: seq<Timed>, n: nat, h: uint64, k: nat, inputs: seq<Input>)
    requires k <= |stream|
  {
    && Stream(inputs) == stream[..k] && ValidRun(Fresh(l), inputs)
    && (Forgotten(l, inputs) == 0 ==>
          var cache := RunCore(Fresh(l), inputs).cache;
          && (k <= n && h in Hashes(inputs) ==> h in cache)
          && (k > n ==> h !in cache && forall j | n < j < k :: stream[j].cmd.requestHash != h))
  }

  lemma ExtendValid(s: Core, inputs: seq<Input>, i: Input)
    requires ValidRun(s, inputs) && ValidStep(RunCore(s, inputs), i)
    ensures ValidRun(s, inputs + [i])
  {
    hide ValidStep, RunCore;
    forall k | 0 <= k < |inputs|
      ensures (inputs + [i])[..k] == inputs[..k] && (inputs + [i])[k] == inputs[k]
    {
    }
    assert (inputs + [i])[..|inputs|] == inputs;
  }

  /** The next input of such a run. */
  lemma ChooseInput(s: Core, c: Timed, h: uint64, erase: bool) returns (i: Input)
    requires |s.cache| <= MAX_DEDUP_SIZE && (erase ==> h in s.cache)
    ensures i.cmd == c.cmd && i.clock == c.clock && ValidStep(s, i)
    ensures Evicts(s, i) ==> (h in i.victims <==> erase)
  {
    var victims: set<uint64> := {};
    i := Input(c.cmd, c.clock, victims);
    if Evicts(s, i) {
      assert |s.cache.Keys| == |s.cache|;
      victims := Pick(s.cache.Keys, TENTH, h, erase);
      i := Input(c.cmd, c.clock, victims);
    }
  }

  lemma StreamAppend(inputs: seq<Input>, i: Input, stream: seq<Timed>)
    requires |inputs| < |stream| && Stream(inputs) == stream[..|inputs|]
    requires stream[|inputs|] == Timed(i.cmd, i.clock)
    ensures Stream(inputs + [i]) == stream[..|inputs| + 1]
  {
  }

  lemma ForgottenStep(l: Ledger, before: seq<Input>, i: Input)
    ensures Forgotten(l, before + [i]) ==
      Forgotten(l, before) + if Forgets(RunCore(Fresh(l), before), before, i) then 1 else 0
  {
    assert (before + [i])[..|before|] == before;
  }

  /** What one more command does to the key `h`. */
  lemma KeyNext(s: Core, before: seq<Input>, i: Input, n: nat, h: uint64, k: nat)
    requires !Forgets(s, before, i) && h != 0
    requires Evicts(s, i) ==> (h in i.victims <==> k == n && h in s.cache)
    requires k <= n && h in Hashes(before) ==> h in s.cache
    requires k >= n ==> h in Hashes(before)
    requires k == n ==> Evicts(s, i) && i.cmd.requestHash != h
    requires k > n ==> h !in s.cache
    ensures var next := Step(s, i).cache;
      && (k < n && h in Hashes(before + [i]) ==> h in next)
      && (k >= n ==> h !in next && i.cmd.requestHash != h)
  {
    CacheAfter(s, i);
    assert (before + [i])[..|before|] == before;
    HashesStep(before + [i], |before|);
    hide Step, Hashes, Evicts;
  }

  /** One more command of an arranged run. */
  lemma ArrangeStep(l: Ledger, stream: seq<Timed>, n: nat, h: uint64, k: nat, inputs: seq<Input>)
    returns (extended: seq<Input>)
    requires k < |stream| && n < |stream| && FullStep(stream, n) && h in HashesOf(stream[..n])
    requires Arranged(l, stream, n, h, k, inputs)
    ensures Arranged(l, stream, n, h, k + 1, extended)
  {
    hide RunCore, Hashes, Step, ValidRun, Forgotten, Forgets, Tracked, Evicts, ValidStep, FullStep;
    var s := RunCore(Fresh(l), inputs);
    StreamLength(inputs);
    CacheBounded(l, inputs);
    var i := ChooseInput(s, stream[k], h, k == n && h in s.cache);
    extended := inputs + [i];
    StreamAppend(inputs, i, stream);
    ExtendValid(Fresh(l), inputs, i);
    ForgottenStep(l, inputs, i);
    RunCoreStep(Fresh(l), inputs, i);
    if Forgotten(l, extended) == 0 {
      SeenBefore(inputs, stream, n, h);
      if k == n {
        FullNow(l, inputs, i, stream, n);
      }
      hide HashesOf, Stream;
      KeyNext(s, inputs, i, n, h, k);
    }
  }

  lemma StreamLength(inputs: seq<Input>)
    ensures |Stream(inputs)| == |inputs|
  {
  }

  /** From the full step on, the key was seen. */
  lemma SeenBefore(inputs: seq<Input>, stream: seq<Timed>, n: nat, h: uint64)
    requires |inputs| < |stream| && n < |stream| && Stream(inputs) == stream[..|inputs|] && h in HashesOf(stream[..n])
    ensures h != 0 && (|inputs| >= n ==> h in Hashes(inputs))
  {
    if |inputs| >= n {
      var i :| 0 <= i < n && stream[..n][i].cmd.requestHash == h;
      assert Stream(inputs)[i].cmd.requestHash == h;
    }
  }

  /** A full step evicts, and its own hash is new. */
  lemma FullNow(l: Ledger, inputs: seq<Input>, i: Input, stream: seq<Timed>, n: nat)
    requires n < |stream| && |inputs| == n && Stream(inputs + [i]) == stream[..n + 1] && FullStep(stream, n)
    requires ValidRun(Fresh(l), inputs) && Forgotten(l, inputs) == 0
    ensures Evicts(RunCore(Fresh(l), inputs), i) && i.cmd.requestHash !in Hashes(inputs)
  {
    hide RunCore, Hashes, HashesOf, ValidRun, Forgotten, Tracked, Evicts;
    FullStepOf(stream, n);
    StreamPrefix(inputs + [i], n);
    assert (inputs + [i])[..n] == inputs;
    assert stream[n] == stream[..n + 1][n] == Stream(inputs + [i])[n];
    assert stream[..n + 1][..n] == stream[..n];
    TrackRun(l, inputs);
    EvictsAtFullSteps(l, inputs, i);
  }

  lemma FullStepOf(stream: seq<Timed>, n: nat)
    requires n < |stream|
    ensures FullStep(stream[..n + 1], n) <==> FullStep(stream, n)
  {
    assert stream[..n + 1][..n] == stream[..n];
  }

  lemma {:induction false} CacheBounded(l: Ledger, inputs: seq<Input>)
    requires ValidRun(Fresh(l), inputs)
    ensures |RunCore(Fresh(l), inputs).cache| <= MAX_DEDUP_SIZE
  {
    CountersAndCache(l, inputs);
  }

  lemma {:induction false} Arrange(l: Ledger, stream: seq<Timed>, n: nat, h: uint64, k: nat)
    returns (inputs: seq<Input>)
    requires k <= |stream| && n < |stream| && FullStep(stream, n) && h in HashesOf(stream[..n])
    ensures Arranged(l, stream, n, h, k, inputs)
  {
    if k == 0 {
      inputs := [];
    } else {
      inputs := Arrange(l, stream, n, h, k - 1);
      hide Arranged, FullStep, HashesOf;
      inputs := ArrangeStep(l, stream, n, h, k - 1, inputs);
    }
  }

  /** The first forgotten repeat of a run. */
  lemma {:induction false} FirstForgotten(l: Ledger, inputs: seq<Input>) returns (j: nat)
    requires Forgotten(l, inputs) > 0
    ensures j < |inputs| && Forgotten(l, inputs[..j]) == 0
    ensures Forgets(RunCore(Fresh(l), inputs[..j]), inputs[..j], inputs[j])
  {
    var n := |inputs| - 1;
    var before := inputs[..n];
    if Forgotten(l, before) > 0 {
      j := FirstForgotten(l, before);
      assert before[..j] == inputs[..j];
    } else {
      j := n;
    }
  }

  /** Some valid run of a stream executes a request again, exactly if the stream repeats a hash that was
      there before a full step. Which keys an eviction erases is up to the hash map. */
  lemma ForgetsExactly(l: Ledger, stream: seq<Timed>)
    ensures (exists inputs: seq<Input> ::
              Stream(inputs) == stream && ValidRun(Fresh(l), inputs) && Forgotten(l, inputs) > 0)
      <==> CanForget(stream)
  {
    if inputs: seq<Input> :| Stream(inputs) == stream && ValidRun(Fresh(l), inputs) && Forgotten(l, inputs) > 0 {
      ForgottenAfterFull(l, inputs);
    }
    if CanForget(stream) {
      var inputs := FullThenForgotten(l, stream);
    }
  }

  lemma ForgottenAfterFull(l: Ledger, inputs: seq<Input>)
    requires ValidRun(Fresh(l), inputs) && Forgotten(l, inputs) > 0
    ensures CanForget(Stream(inputs))
  {
    var j := FirstForgotten(l, inputs);
    ValidPrefix(Fresh(l), inputs, j);
    var h := inputs[j].cmd.requestHash;
    assert h in Hashes(inputs[..j]) && h !in RunCore(Fresh(l), inputs[..j]).cache;
    assert Stream(inputs)[j].cmd.requestHash == h;
    hide RunCore, Hashes, HashesOf, ValidRun, Forgotten, Forgets, FullStep;
    var n := LostAtFullStep(l, inputs[..j], h);
    FullStepPrefix(inputs, j, n);
  }

  lemma FullThenForgotten(l: Ledger, stream: seq<Timed>) returns (inputs: seq<Input>)
    requires CanForget(stream)
    ensures Stream(inputs) == stream && ValidRun(Fresh(l), inputs) && Forgotten(l, inputs) > 0
  {
    hide RunCore, Hashes, HashesOf, ValidRun, Forgotten, FullStep, Stream;
    var n, j :| 0 <= n < j < |stream| && FullStep(stream, n) && stream[j].cmd.requestHash in HashesOf(stream[..n]);
    inputs := Arrange(l, stream, n, stream[j].cmd.requestHash, |stream|);
    assert stream[..|stream|] == stream;
  }

  // ---- such a stream ----

  function Nth(k: nat): Timed
    requires k < MAX_DEDUP_SIZE + 2
  {
    Timed(Command(Unknown, k + 1, 0, 0, 0, 0, 0, 0), Clock(0, 0, 0))
  }

  lemma HashesOfStep(stream: seq<Timed>, n: nat)
    requires n < |stream| && stream[n].cmd.requestHash != 0
    ensures HashesOf(stream[..n + 1]) == HashesOf(stream[..n]) + {stream[n].cmd.requestHash}
  {
    var before, now := stream[..n], stream[..n + 1];
    forall h: uint64
      ensures h in HashesOf(now) <==> h in HashesOf(before) || h == now[n].cmd.requestHash
    {
      if h in HashesOf(before) {
        var i :| 0 <= i < n && before[i].cmd.requestHash == h && h != 0;
        assert now[i].cmd.requestHash == h;
      }
      if h in HashesOf(now) {
        var i :| 0 <= i < n + 1 && now[i].cmd.requestHash == h && h != 0;
        assert i < n ==> before[i].cmd.requestHash == h;
      }
    }
  }

  ghost predicate Numbered(stream: seq<Timed>, n: nat) {
    n <= |stream| && n <= MAX_DEDUP_SIZE + 1 && forall i | 0 <= i < n :: stream[i].cmd.requestHash == i + 1
  }

  lemma {:induction false} DistinctHashes(stream: seq<Timed>, n: nat, h: uint64)
    requires Numbered(stream, n)
    ensures h in HashesOf(stream[..n]) <==> 1 <= h <= n
  {
    if n == 0 {
      assert stream[..0] == [] && HashesOf([]) == {};
    } else {
      DistinctHashes(stream, n - 1, h);
      HashesOfStep(stream, n - 1);
      hide HashesOf;
    }
  }

  lemma {:induction false} DistinctCount(stream: seq<Timed>, n: nat)
    requires Numbered(stream, n)
    ensures |HashesOf(stream[..n])| == n
  {
    if n == 0 {
      assert stream[..0] == [] && HashesOf([]) == {};
    } else {
      DistinctCount(stream, n - 1);
      DistinctHashes(stream, n - 1, n);
      HashesOfStep(stream, n - 1);
      SeenMore(HashesOf(stream[..n - 1]), n);
      hide HashesOf;
    }
  }

  /** One distinct hash more than the cache holds, and then the first one again. */
  lemma OneTooMany() returns (stream: seq<Timed>)
    ensures |stream| == MAX_DEDUP_SIZE + 2 && CanForget(stream)
  {
    stream := seq(MAX_DEDUP_SIZE + 1, k requires 0 <= k < MAX_DEDUP_SIZE + 1 => Nth(k)) + [Nth(0)];
    DistinctCount(stream, MAX_DEDUP_SIZE);
    DistinctHashes(stream, MAX_DEDUP_SIZE, 1);
    DistinctHashes(stream, MAX_DEDUP_SIZE, MAX_DEDUP_SIZE + 1);
    hide HashesOf;
    assert FullStep(stream, MAX_DEDUP_SIZE);
    assert stream[MAX_DEDUP_SIZE + 1].cmd.requestHash in HashesOf(stream[..MAX_DEDUP_SIZE]);
  }
}
