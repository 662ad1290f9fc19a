/** What one engine command does to the ledger and to the write-ahead log, and what whole runs keep. */
module EngineSpec {
  import opened Word
  import opened LedgerSpec

  datatype Kind = FreezeFunds | ExecutePayment | ReleaseFunds | RefundPayment | SettlementBatch | Unknown

  /** The fixed-field command. `feeAccount` is the id that the hash of "sys_fee_income_" and the
      source currency's code yields: it depends on the command's currency only. */
  datatype Command = Command(kind: Kind, requestHash: uint64, from: uint64, to: uint64, feeAccount: uint64,
                             source: int64, target: int64, fee: int64)

  /** The wall-clock readings of the up to three ledger calls one command makes. */
  datatype Clock = Clock(first: uint64, second: uint64, third: uint64)

  datatype Outcome = Outcome(ledger: Ledger, logged: bool, code: Code)

  function Total(c: Command): int64 {
    Wrap(c.source + c.fee)
  }

  function Process(l: Ledger, c: Command, t: Clock): Outcome {
    match c.kind
    case FreezeFunds =>
      if Total(c) < c.source then Outcome(l, false, OverflowDetected)
      else var (l', code) := Freeze(l, c.from, Total(c), t.first); Outcome(l', code == OK, code)
    case ExecutePayment => Execute(l, c, t)
    case ReleaseFunds =>
      var (l', code) := Unfreeze(l, c.from, Total(c), t.first); Outcome(l', code == OK, code)
    case RefundPayment =>
      var (l', code) := Credit(l, c.from, Total(c), t.first); Outcome(l', code == OK, code)
    case SettlementBatch => Outcome(l, true, OK)
    case Unknown => Outcome(l, false, InternalError)
  }

  /** Debit the sender, credit the receiver, credit the fee. A receiver overflow hands the total back
      as available money and logs nothing; a fee overflow is ignored. */
  function Execute(l: Ledger, c: Command, t: Clock): Outcome {
    var (l1, debited) := Debit(l, c.from, Total(c), t.first);
    if debited != OK then Outcome(l1, false, debited)
    else
      var (l2, credited) := Credit(l1, c.to, c.target, t.second);
      if credited != OK then Outcome(Credit(l2, c.from, Total(c), t.third).0, false, credited)
      else Outcome(Credit(l2, c.feeAccount, c.fee, t.third).0, true, OK)
  }

  /** The branch in which the receiver's credit overflows after the sender was debited. */
  predicate ReceiverOverflow(l: Ledger, c: Command) {
    && c.kind == ExecutePayment
    && var (l1, debited) := Debit(l, c.from, Total(c), 0);
    debited == OK && Credit(l1, c.to, c.target, 0).1 != OK
  }

  /** The fee credit of an executed payment overflows. */
  predicate FeeOverflow(l: Ledger, c: Command) {
    && c.kind == ExecutePayment
    && var (l1, debited) := Debit(l, c.from, Total(c), 0);
    var (l2, credited) := Credit(l1, c.to, c.target, 0);
    debited == OK && credited == OK && Credit(l2, c.feeAccount, c.fee, 0).1 != OK
  }

  // ---- runs ----

  datatype Timed = Timed(cmd: Command, clock: Clock)

  /** Commands processed in order from `l`: the live ledger and the commands logged. */
  function Run(l: Ledger, inputs: seq<Timed>): (Ledger, seq<Command>) {
    if inputs == [] then (l, []) else
      var (l1, log) := Run(l, inputs[..|inputs| - 1]);
      var i := inputs[|inputs| - 1];
      var o := Process(l1, i.cmd, i.clock);
      (o.ledger, if o.logged then log + [i.cmd] else log)
  }

  /** Re-execution of a log, reading its own clock. */
  function Replay(l: Ledger, log: seq<Command>, clock: nat -> Clock): Ledger {
    if log == [] then l else
      var n := |log| - 1;
      Process(Replay(l, log[..n], clock), log[n], clock(n)).ledger
  }

  // ---- replay fidelity ----

  /** Equal in everything but the update timestamps. */
  ghost predicate Same(l: Ledger, k: Ledger) {
    && l.accounts.Keys == k.accounts.Keys
    && l.totalFrozen == k.totalFrozen && l.totalSettled == k.totalSettled
    && forall id :: id in l.accounts ==> l.accounts[id].(updatedAt := 0) == k.accounts[id].(updatedAt := 0)
  }

  lemma SameAt(l: Ledger, k: Ledger, id: uint64)
    requires Same(l, k)
    ensures id in l.accounts <==> id in k.accounts
    ensures id in l.accounts ==> l.accounts[id].(updatedAt := 0) == k.accounts[id].(updatedAt := 0)
  {
  }

  lemma FreezeRespectsSame(l: Ledger, k: Ledger, id: uint64, amount: int64, t: uint64, u: uint64)
    requires Same(l, k)
    ensures Freeze(l, id, amount, t).1 == Freeze(k, id, amount, u).1
    ensures Same(Freeze(l, id, amount, t).0, Freeze(k, id, amount, u).0)
  {
    hide Unsigned, Wrap, Next;
    SameAt(l, k, id);
  }

  lemma UnfreezeRespectsSame(l: Ledger, k: Ledger, id: uint64, amount: int64, t: uint64, u: uint64)
    requires Same(l, k)
    ensures Unfreeze(l, id, amount, t).1 == Unfreeze(k, id, amount, u).1
    ensures Same(Unfreeze(l, id, amount, t).0, Unfreeze(k, id, amount, u).0)
  {
    hide Unsigned, Wrap, Next;
    SameAt(l, k, id);
  }

  lemma DebitRespectsSame(l: Ledger, k: Ledger, id: uint64, amount: int64, t: uint64, u: uint64)
    requires Same(l, k)
    ensures Debit(l, id, amount, t).1 == Debit(k, id, amount, u).1
    ensures Same(Debit(l, id, amount, t).0, Debit(k, id, amount, u).0)
  {
    hide Unsigned, Wrap, Next;
    SameAt(l, k, id);
  }

  lemma CreditRespectsSame(l: Ledger, k: Ledger, id: uint64, amount: int64, t: uint64, u: uint64)
    requires Same(l, k)
    ensures Credit(l, id, amount, t).1 == Credit(k, id, amount, u).1
    ensures Same(Credit(l, id, amount, t).0, Credit(k, id, amount, u).0)
  {
    hide Unsigned, Wrap, Next;
    SameAt(l, k, id);
  }

  /** The ledger operations neither read timestamps nor depend on them. */
  lemma OperationsRespectSame(l: Ledger, k: Ledger, id: uint64, amount: int64, t: uint64, u: uint64)
    requires Same(l, k)
    ensures Freeze(l, id, amount, t).1 == Freeze(k, id, amount, u).1
    ensures Unfreeze(l, id, amount, t).1 == Unfreeze(k, id, amount, u).1
    ensures Debit(l, id, amount, t).1 == Debit(k, id, amount, u).1
    ensures Credit(l, id, amount, t).1 == Credit(k, id, amount, u).1
    ensures Same(Freeze(l, id, amount, t).0, Freeze(k, id, amount, u).0)
    ensures Same(Unfreeze(l, id, amount, t).0, Unfreeze(k, id, amount, u).0)
    ensures Same(Debit(l, id, amount, t).0, Debit(k, id, amount, u).0)
    ensures Same(Credit(l, id, amount, t).0, Credit(k, id, amount, u).0)
  {
    hide Same, Freeze, Unfreeze, Debit, Credit;
    FreezeRespectsSame(l, k, id, amount, t, u);
    UnfreezeRespectsSame(l, k, id, amount, t, u);
    DebitRespectsSame(l, k, id, amount, t, u);
    CreditRespectsSame(l, k, id, amount, t, u);
  }

  lemma ProcessRespectsSame(l: Ledger, k: Ledger, c: Command, t: Clock, u: Clock)
    requires Same(l, k)
    ensures Same(Process(l, c, t).ledger, Process(k, c, u).ledger)
    ensures Process(l, c, t).code == Process(k, c, u).code && Process(l, c, t).logged == Process(k, c, u).logged
    ensures ReceiverOverflow(l, c) == ReceiverOverflow(k, c)
  {
    hide Same, Freeze, Unfreeze, Debit, Credit, Wrap;
    OperationsRespectSame(l, k, c.from, Total(c), t.first, u.first);
    if c.kind == ExecutePayment {
      var l1, k1 := Debit(l, c.from, Total(c), t.first).0, Debit(k, c.from, Total(c), u.first).0;
      OperationsRespectSame(l1, k1, c.to, c.target, t.second, u.second);
      var l2, k2 := Credit(l1, c.to, c.target, t.second).0, Credit(k1, c.to, c.target, u.second).0;
      OperationsRespectSame(l2, k2, c.feeAccount, c.fee, t.third, u.third);
      OperationsRespectSame(l2, k2, c.from, Total(c), t.third, u.third);
      SameReflexive(l, c, t);
      SameReflexive(k, c, u);
    }
  }

  /** The overflow branches do not depend on the clock. */
  lemma SameReflexive(l: Ledger, c: Command, t: Clock)
    requires c.kind == ExecutePayment
    ensures Same(l, l)
    ensures ReceiverOverflow(l, c) <==>
      var (l1, debited) := Debit(l, c.from, Total(c), t.first);
      debited == OK && Credit(l1, c.to, c.target, t.second).1 != OK
  {
    OperationsRespectSame(l, l, c.from, Total(c), t.first, 0);
    OperationsRespectSame(Debit(l, c.from, Total(c), t.first).0, Debit(l, c.from, Total(c), 0).0,
                          c.to, c.target, t.second, 0);
  }

  /** A command that is not logged leaves the ledger alone, unless it takes the receiver-overflow
      branch; in that branch the sender's version moves although nothing is logged. */
  lemma UnloggedStep(l: Ledger, c: Command, t: Clock)
    requires !Process(l, c, t).logged
    ensures ReceiverOverflow(l, c) <==> !Same(l, Process(l, c, t).ledger)
    ensures !ReceiverOverflow(l, c) ==> Process(l, c, t).ledger == l
  {
    if c.kind == ExecutePayment {
      SameReflexive(l, c, t);
      var (l1, debited) := Debit(l, c.from, Total(c), t.first);
      if debited == OK {
        var l3 := Credit(l1, c.from, Total(c), t.third).0;
        assert l1.accounts[c.from].version == Next(l.accounts[c.from].version);
        assert l.accounts[c.from].(updatedAt := 0) != l3.accounts[c.from].(updatedAt := 0);
      }
    }
  }

  /** Every prefix of the run is reproduced by re-executing what it logged. */
  ghost predicate Faithful(l: Ledger, inputs: seq<Timed>, clock: nat -> Clock) {
    forall n | 0 <= n <= |inputs| :: Same(Run(l, inputs[..n]).0, Replay(l, Run(l, inputs[..n]).1, clock))
  }

  ghost predicate Avoids(l: Ledger, inputs: seq<Timed>) {
    forall n | 0 <= n < |inputs| :: !ReceiverOverflow(Run(l, inputs[..n]).0, inputs[n].cmd)
  }

  lemma RunStep(l: Ledger, inputs: seq<Timed>, n: nat)
    requires n < |inputs|
    ensures var (l1, log) := Run(l, inputs[..n]);
      var o := Process(l1, inputs[n].cmd, inputs[n].clock);
      Run(l, inputs[..n + 1]) == (o.ledger, if o.logged then log + [inputs[n].cmd] else log)
  {
    assert inputs[..n + 1][..n] == inputs[..n];
  }

  lemma ReplayNothing(l: Ledger, clock: nat -> Clock)
    ensures Same(l, Replay(l, [], clock))
  {
  }

  /** One command, live, and replayed from any earlier ledger if it was logged. */
  lemma ReplayOne(now: Ledger, base: Ledger, log: seq<Command>, i: Timed, clock: nat -> Clock)
    requires Same(now, Replay(base, log, clock)) && !ReceiverOverflow(now, i.cmd)
    ensures var o := Process(now, i.cmd, i.clock);
      Same(o.ledger, Replay(base, if o.logged then log + [i.cmd] else log, clock))
  {
    hide Same, Process, ReceiverOverflow;
    if Process(now, i.cmd, i.clock).logged {
      assert (log + [i.cmd])[..|log|] == log;
      ProcessRespectsSame(now, Replay(base, log, clock), i.cmd, i.clock, clock(|log|));
    } else {
      UnloggedStep(now, i.cmd, i.clock);
    }
  }

  lemma {:induction false} FaithfulUpTo(l: Ledger, inputs: seq<Timed>, clock: nat -> Clock, n: nat)
    requires Avoids(l, inputs) && n <= |inputs|
    ensures Same(Run(l, inputs[..n]).0, Replay(l, Run(l, inputs[..n]).1, clock))
  {
    if n == 0 {
      ReplayNothing(l, clock);
    } else {
      FaithfulUpTo(l, inputs, clock, n - 1);
      assert !ReceiverOverflow(Run(l, inputs[..n - 1]).0, inputs[n - 1].cmd);
      RunStep(l, inputs, n - 1);
      hide Same, Process, ReceiverOverflow, Run, Replay, Avoids;
      var (l1, log) := Run(l, inputs[..n - 1]);
      ReplayOne(l1, l, log, inputs[n - 1], clock);
    }
  }

  /** Replay fidelity, exactly: re-executing the logged commands reproduces every prefix of a run,
      in all fields but timestamps, if and only if the run never takes the receiver-overflow branch. */
  lemma ReplayFidelity(l: Ledger, inputs: seq<Timed>, clock: nat -> Clock)
    ensures Faithful(l, inputs, clock) <==> Avoids(l, inputs)
  {
    if Avoids(l, inputs) {
      forall n | 0 <= n <= |inputs|
        ensures Same(Run(l, inputs[..n]).0, Replay(l, Run(l, inputs[..n]).1, clock))
      {
        FaithfulUpTo(l, inputs, clock, n);
      }
    }
    if Faithful(l, inputs, clock) {
      forall n | 0 <= n < |inputs|
        ensures !ReceiverOverflow(Run(l, inputs[..n]).0, inputs[n].cmd)
      {
        var (l1, log) := Run(l, inputs[..n]);
        var i := inputs[n];
        RunStep(l, inputs, n);
        if i.cmd.kind == ExecutePayment {
          SameReflexive(l1, i.cmd, i.clock);
          if !Process(l1, i.cmd, i.clock).logged {
            UnloggedStep(l1, i.cmd, i.clock);
            SameTransitive(l1, Replay(l, log, clock), Run(l, inputs[..n + 1]).0);
          }
        }
      }
    }
  }

  lemma SameTransitive(l: Ledger, k: Ledger, m: Ledger)
    requires Same(l, k) && Same(m, k)
    ensures Same(l, m)
  {
    forall id | id in l.accounts
      ensures l.accounts[id].(updatedAt := 0) == m.accounts[id].(updatedAt := 0)
    {
      assert l.accounts[id].(updatedAt := 0) == k.accounts[id].(updatedAt := 0);
    }
  }
}
