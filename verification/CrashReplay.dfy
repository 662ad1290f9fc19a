/** From the live engine to the bytes and back: a run with snapshots between its commands, a crash at any
    byte, recovery, and what replaying the rest of the log would reach. */
module CrashReplay {
  import opened Word
  import opened Options
  import opened LedgerSpec
  import opened EngineSpec
  import opened WalFormat
  import opened Recovery
  import Accounting
  import SnapshotText

  /** `order` is the order in which the hash map yields the accounts. */
  datatype Step = Do(input: Timed) | Snap(order: seq<uint64>)

  datatype Item = Cmd(cmd: Command) | State(accounts: map<uint64, Balance>, order: seq<uint64>)

  /** The live ledger after the steps and everything they logged. */
  function Live(l: Ledger, steps: seq<Step>): (Ledger, seq<Item>) {
    if steps == [] then (l, []) else
      var (l1, log) := Live(l, steps[..|steps| - 1]);
      Next(l1, log, steps[|steps| - 1])
  }

  function Next(l: Ledger, log: seq<Item>, step: Step): (Ledger, seq<Item>) {
    match step
    case Snap(order) => (l, log + [State(l.accounts, order)])
    case Do(i) =>
      var o := Process(l, i.cmd, i.clock);
      (o.ledger, if o.logged then log + [Cmd(i.cmd)] else log)
  }

  /** Snapshots list the accounts of their moment, and no command takes the receiver-overflow branch. */
  ghost predicate Clean(l: Ledger, steps: seq<Step>) {
    forall n | 0 <= n < |steps| :: StepClean(Live(l, steps[..n]).0, steps[n])
  }

  ghost predicate StepClean(l: Ledger, step: Step) {
    match step
    case Snap(order) => SnapshotText.Enumerates(order, l.accounts)
    case Do(i) => !ReceiverOverflow(l, i.cmd)
  }

  /** What the log is asked to keep; `image` gives a command's bytes. */
  function Kept(item: Item, image: Command -> string): Logged {
    match item
    case Cmd(c) => CommandRecord(image(c))
    case State(accounts, order) => SnapshotRecord(accounts, order)
  }

  function KeptAll(log: seq<Item>, image: Command -> string): seq<Logged> {
    seq(|log|, i requires 0 <= i < |log| => Kept(log[i], image))
  }

  /** The commands logged after the last snapshot. */
  function Tail(log: seq<Item>): seq<Command> {
    if log == [] || log[|log| - 1].State? then [] else Tail(log[..|log| - 1]) + [log[|log| - 1].cmd]
  }

  lemma KeptLast(log: seq<Item>, item: Item, image: Command -> string)
    ensures LastSnapshot(KeptAll(log + [item], image)) ==
      if item.State? then Some(item.accounts) else LastSnapshot(KeptAll(log, image))
  {
    var kept := KeptAll(log + [item], image);
    assert kept[..|log|] == KeptAll(log, image);
  }

  lemma TailLast(log: seq<Item>, item: Item)
    ensures Tail(log + [item]) == if item.State? then [] else Tail(log) + [item.cmd]
  {
    assert (log + [item])[..|log|] == log;
  }

  lemma LiveStep(l: Ledger, steps: seq<Step>, n: nat)
    requires n < |steps|
    ensures Live(l, steps[..n + 1]) == Next(Live(l, steps[..n]).0, Live(l, steps[..n]).1, steps[n])
  {
    assert steps[..n + 1][..n] == steps[..n];
  }

  /** A ledger whose aggregates agree with its accounts is determined by them. */
  lemma RestoredIsLive(l: Ledger)
    requires TotalsAgree(l)
    ensures Restored(l.accounts) == l
  {
  }

  /** `base`, the state recovery would restore after `n` steps, is the ledger after `m` steps; replaying the
      rest of the log from there reaches the ledger after `n`. */
  ghost predicate Reaches(l: Ledger, steps: seq<Step>, n: nat, m: nat, image: Command -> string, clock: nat -> Clock)
    requires n <= |steps|
  {
    var (now, log) := Live(l, steps[..n]);
    var base := LedgerFrom(LastSnapshot(KeptAll(log, image)), l);
    && m <= n && base == Live(l, steps[..m]).0
    && TotalsAgree(now) && Same(now, Replay(base, Tail(log), clock))
  }

  /** The same from one moment to the next. */
  lemma ReachesNext(l: Ledger, steps: seq<Step>, n: nat, m: nat, image: Command -> string, clock: nat -> Clock)
    returns (m': nat)
    requires n < |steps| && Reaches(l, steps, n, m, image, clock)
    requires StepClean(Live(l, steps[..n]).0, steps[n])
    ensures Reaches(l, steps, n + 1, m', image, clock)
  {
    LiveStep(l, steps, n);
    var (now, log) := Live(l, steps[..n]);
    hide Live, Same, LastSnapshot, Tail, KeptAll, TotalsAgree, Process, ReceiverOverflow, Restored, Replay;
    match steps[n]
    case Snap(order) =>
      m' := n + 1;
      RestoredIsLive(now);
      KeptLast(log, State(now.accounts, order), image);
      TailLast(log, State(now.accounts, order));
      ReplayNothing(now, clock);
    case Do(i) =>
      m' := m;
      Accounting.ProcessKeepsTotals(now, i.cmd, i.clock);
      KeptLast(log, Cmd(i.cmd), image);
      TailLast(log, Cmd(i.cmd));
      ReplayOne(now, LedgerFrom(LastSnapshot(KeptAll(log, image)), l), Tail(log), i, clock);
  }

  lemma {:induction false} ReachesAlways(l: Ledger, steps: seq<Step>, n: nat, image: Command -> string,
                                         clock: nat -> Clock)
    returns (m: nat)
    requires TotalsAgree(l) && Clean(l, steps) && n <= |steps|
    ensures Reaches(l, steps, n, m, image, clock)
  {
    if n == 0 {
      m := 0;
      ReplayNothing(l, clock);
      hide Same, TotalsAgree, Replay;
      assert steps[..0] == [];
    } else {
      m := ReachesAlways(l, steps, n - 1, image, clock);
      hide Reaches, StepClean;
      m := ReachesNext(l, steps, n - 1, m, image, clock);
    }
  }

  /** Every prefix of the log was the whole log at some moment. */
  lemma {:induction false} MomentOf(l: Ledger, steps: seq<Step>, k: nat) returns (n: nat)
    requires k <= |Live(l, steps).1|
    ensures n <= |steps| && Live(l, steps[..n]).1 == Live(l, steps).1[..k]
  {
    if |Live(l, steps).1| == k {
      n := |steps|;
      assert steps[..n] == steps;
    } else {
      var before := steps[..|steps| - 1];
      hide Process;
      n := MomentOf(l, before, k);
      assert before[..n] == steps[..n];
    }
  }

  lemma KeptPrefix(log: seq<Item>, image: Command -> string, k: nat)
    requires k <= |log|
    ensures KeptAll(log, image)[..k] == KeptAll(log[..k], image)
  {
  }

  /** Crash, recovery and replay, end to end: take any run with snapshots between its commands that avoids
      the receiver-overflow branch, cut the bytes of its log anywhere, and restart from the ledger it began
      with. Recovery yields exactly the live ledger of the moment `m` of the last snapshot wholly before
      the cut, or of the start; and replaying the commands logged after it, up to the cut, reaches the live
      ledger of the moment `n` of the last record before the cut, in all fields but timestamps. */
  lemma RecoverAndReplay(ck: string -> uint64, image: Command -> string, l: Ledger, steps: seq<Step>,
                         rs: seq<Record>, cut: nat, clock: nat -> Clock)
    returns (k: nat, n: nat, m: nat)
    requires TotalsAgree(l) && Clean(l, steps)
    requires Matches(rs, KeptAll(Live(l, steps).1, image)) && AllReadable(rs) && cut <= |Encode(ck, rs)|
    ensures k <= |rs| && |Encode(ck, rs[..k])| <= cut && (k < |rs| ==> cut < |Encode(ck, rs[..k + 1])|)
    ensures m <= n <= |steps| && k <= |Live(l, steps).1| && Live(l, steps[..n]).1 == Live(l, steps).1[..k]
    ensures var recovered := Live(l, steps[..m]).0;
      && RecoverEntries(ReadAll(ck, Encode(ck, rs)[..cut]), l) == Some(recovered)
      && recovered == LedgerFrom(LastSnapshot(KeptAll(Live(l, steps).1[..k], image)), l)
      && Same(Live(l, steps[..n]).0, Replay(recovered, Tail(Live(l, steps).1[..k]), clock))
  {
    hide Live, Tail, Clean, KeptAll, Same, Replay, ReadAll, Encode, RecoverEntries, TotalsAgree, LastSnapshot, Restored;
    var log := Live(l, steps).1;
    k := CrashRecovery(ck, rs, KeptAll(log, image), cut, l);
    KeptLength(log, image);
    n := MomentOf(l, steps, k);
    m := ReachesAlways(l, steps, n, image, clock);
    KeptPrefix(log, image, k);
  }

  lemma KeptLength(log: seq<Item>, image: Command -> string)
    ensures |KeptAll(log, image)| == |log|
  {
  }
}
