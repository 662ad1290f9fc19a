/** Whole-run accounting: what any stream of well-formed commands does to the money in the ledger. */
module Accounting {
  import opened Word
  import opened Sums
  import opened LedgerSpec
  import opened EngineSpec

  /** The amounts a caller is expected to send: nothing negative, and a total that fits. */
  predicate WellFormed(c: Command) {
    0 <= c.source && 0 <= c.fee && 0 <= c.target && c.source + c.fee <= INT64_MAX
  }

  predicate AllWellFormed(inputs: seq<Timed>) {
    forall i | 0 <= i < |inputs| :: WellFormed(inputs[i].cmd)
  }

  ghost predicate NonNegative(l: Ledger) {
    forall id | id in l.accounts ::
      0 <= l.accounts[id].available && 0 <= l.accounts[id].frozen && 0 <= l.accounts[id].settled
  }

  /** The change a logged command must make to one account, stated per bucket. Every account is asked
      separately, so sender, receiver and fee account may be the same, or not exist before. */
  datatype Posting = Posting(available: int, frozen: int, settled: int)

  function If(condition: bool, amount: int): int {
    if condition then amount else 0
  }

  /** `feePaid` is false only if the fee credit of an executed payment overflows. */
  function PostingOf(c: Command, id: uint64, feePaid: bool): Posting {
    var total := c.source + c.fee;
    match c.kind
    case FreezeFunds => Posting(-If(id == c.from, total), If(id == c.from, total), 0)
    case ReleaseFunds => Posting(If(id == c.from, total), -If(id == c.from, total), 0)
    case ExecutePayment => Posting(If(id == c.to, c.target) + If(feePaid && id == c.feeAccount, c.fee),
                                   -If(id == c.from, total), If(id == c.from, total))
    case RefundPayment => Posting(If(id == c.from, total), 0, 0)
    case SettlementBatch => Posting(0, 0, 0)
    case Unknown => Posting(0, 0, 0)
  }

  ghost predicate Posted(l: Ledger, l': Ledger, c: Command, feePaid: bool) {
    forall id: uint64 ::
      var b, b', p := BalanceOf(l, id), BalanceOf(l', id), PostingOf(c, id, feePaid);
      && b'.available == b.available + p.available
      && b'.frozen == b.frozen + p.frozen
      && b'.settled == b.settled + p.settled
  }

  /** A logged, well-formed command changes every account by exactly its posting. */
  lemma LoggedCommandPosts(l: Ledger, c: Command, t: Clock)
    requires WellFormed(c) && NonNegative(l)
    requires Process(l, c, t).logged
    ensures Posted(l, Process(l, c, t).ledger, c, !FeeOverflow(l, c))
  {
    match c.kind
    case FreezeFunds => FreezeMoves(l, c.from, Total(c), t.first);
    case ReleaseFunds => UnfreezeMoves(l, c.from, Total(c), t.first);
    case RefundPayment => CreditMoves(l, c.from, Total(c), t.first);
    case ExecutePayment => ExecutePosts(l, c, t);
    case _ =>
  }

  lemma ExecutePosts(l: Ledger, c: Command, t: Clock)
    requires WellFormed(c) && NonNegative(l) && c.kind == ExecutePayment
    requires Process(l, c, t).logged
    ensures Posted(l, Process(l, c, t).ledger, c, !FeeOverflow(l, c))
  {
    FeeOverflowClock(l, c, t);
    var total: int := Total(c);
    var l1 := Debit(l, c.from, Total(c), t.first).0;
    var l2 := Credit(l1, c.to, c.target, t.second).0;
    var l3 := Credit(l2, c.feeAccount, c.fee, t.third).0;
    DebitMoves(l, c.from, Total(c), t.first);
    CreditMoves(l1, c.to, c.target, t.second);
    CreditMoves(l2, c.feeAccount, c.fee, t.third);
    assert total == c.source + c.fee;
    assert l3 == Process(l, c, t).ledger;
    hide Debit, Credit, FeeOverflow, Process, Moved, BalanceOf, Total, NonNegative, ReceiverOverflow;
    forall id: uint64
      ensures var b, b', p := BalanceOf(l, id), BalanceOf(l3, id), PostingOf(c, id, !FeeOverflow(l, c));
        && b'.available == b.available + p.available
        && b'.frozen == b.frozen + p.frozen
        && b'.settled == b.settled + p.settled
    {
      MovedAt(l, l1, c.from, 0, -total, total, id);
      MovedAt(l1, l2, c.to, c.target, 0, 0, id);
      if !FeeOverflow(l, c) {
        MovedAt(l2, l3, c.feeAccount, c.fee, 0, 0, id);
      }
    }
  }

  lemma MovedAt(l: Ledger, l': Ledger, id: uint64, available: int, frozen: int, settled: int, x: uint64)
    requires Moved(l, l', id, available, frozen, settled)
    ensures var b, b' := BalanceOf(l, x), BalanceOf(l', x);
      && b'.available == b.available + If(x == id, available)
      && b'.frozen == b.frozen + If(x == id, frozen)
      && b'.settled == b.settled + If(x == id, settled)
  {
    assert x in l'.accounts <==> x in l.accounts || x == id;
  }

  lemma FeeOverflowClock(l: Ledger, c: Command, t: Clock)
    requires c.kind == ExecutePayment
    ensures FeeOverflow(l, c) <==>
      var (l1, debited) := Debit(l, c.from, Total(c), t.first);
      var (l2, credited) := Credit(l1, c.to, c.target, t.second);
      debited == OK && credited == OK && Credit(l2, c.feeAccount, c.fee, t.third).1 != OK
  {
    OperationsRespectSame(l, l, c.from, Total(c), t.first, 0);
    var l1, k1 := Debit(l, c.from, Total(c), t.first).0, Debit(l, c.from, Total(c), 0).0;
    OperationsRespectSame(l1, k1, c.to, c.target, t.second, 0);
    OperationsRespectSame(Credit(l1, c.to, c.target, t.second).0, Credit(k1, c.to, c.target, 0).0,
                          c.feeAccount, c.fee, t.third, 0);
  }

  // ---- invariants of every run, overflow branches included ----

  lemma OperationsKeepNonNegative(l: Ledger, id: uint64, amount: int64, now: uint64)
    requires 0 <= amount && NonNegative(l)
    ensures NonNegative(Freeze(l, id, amount, now).0) && NonNegative(Unfreeze(l, id, amount, now).0)
    ensures NonNegative(Debit(l, id, amount, now).0) && NonNegative(Credit(l, id, amount, now).0)
  {
    hide Unsigned;
  }

  lemma ProcessKeepsNonNegative(l: Ledger, c: Command, t: Clock)
    requires WellFormed(c) && NonNegative(l)
    ensures NonNegative(Process(l, c, t).ledger)
  {
    var total := Total(c);
    OperationsKeepNonNegative(l, c.from, total, t.first);
    if c.kind == ExecutePayment {
      var l1 := Debit(l, c.from, total, t.first).0;
      OperationsKeepNonNegative(l1, c.to, c.target, t.second);
      var l2 := Credit(l1, c.to, c.target, t.second).0;
      OperationsKeepNonNegative(l2, c.feeAccount, c.fee, t.third);
      OperationsKeepNonNegative(l2, c.from, total, t.third);
    }
  }

  lemma ProcessKeepsTotals(l: Ledger, c: Command, t: Clock)
    requires TotalsAgree(l)
    ensures TotalsAgree(Process(l, c, t).ledger)
  {
    TotalsPreserved(l, c.from, Total(c), t.first);
    if c.kind == ExecutePayment {
      var l1 := Debit(l, c.from, Total(c), t.first).0;
      TotalsPreserved(l1, c.to, c.target, t.second);
      var l2 := Credit(l1, c.to, c.target, t.second).0;
      TotalsPreserved(l2, c.feeAccount, c.fee, t.third);
      TotalsPreserved(l2, c.from, Total(c), t.third);
    }
  }

  /** No run parts the cached aggregates from the map, whatever the amounts; and no run of well-formed
      commands makes any balance of any account negative. */
  lemma {:induction false} RunInvariants(l: Ledger, inputs: seq<Timed>)
    ensures TotalsAgree(l) ==> TotalsAgree(Run(l, inputs).0)
    ensures NonNegative(l) && AllWellFormed(inputs) ==> NonNegative(Run(l, inputs).0)
  {
    if inputs != [] {
      var n := |inputs| - 1;
      RunInvariants(l, inputs[..n]);
      if TotalsAgree(l) {
        ProcessKeepsTotals(Run(l, inputs[..n]).0, inputs[n].cmd, inputs[n].clock);
      }
      if NonNegative(l) && AllWellFormed(inputs) {
        ProcessKeepsNonNegative(Run(l, inputs[..n]).0, inputs[n].cmd, inputs[n].clock);
      }
    }
  }

  // ---- conservation, read off the log alone ----

  ghost function Spendable(l: Ledger): int {
    SumOf(l.accounts, AvailableOf) + SumOf(l.accounts, FrozenOf)
  }

  ghost function SettledSum(l: Ledger): int {
    SumOf(l.accounts, SettledOf)
  }

  /** Available plus frozen money that a log brings in. */
  function Inflow(log: seq<Command>): int {
    if log == [] then 0 else
      var c := log[|log| - 1];
      Inflow(log[..|log| - 1]) +
      match c.kind
      case ExecutePayment => c.target - c.source
      case RefundPayment => c.source + c.fee
      case _ => 0
  }

  /** Money that a log settles. */
  function Settlements(log: seq<Command>): int {
    if log == [] then 0 else
      var c := log[|log| - 1];
      Settlements(log[..|log| - 1]) + If(c.kind == ExecutePayment, c.source + c.fee)
  }

  /** After a receiver overflow, handing the total back to the sender overflows as well. */
  predicate RefundOverflow(l: Ledger, c: Command) {
    ReceiverOverflow(l, c) && Credit(Debit(l, c.from, Total(c), 0).0, c.from, Total(c), 0).1 != OK
  }

  /** Spendable money that an overflow branch makes disappear: the fee, or the amount not handed back. */
  function LostBy(l: Ledger, c: Command): int {
    If(FeeOverflow(l, c), c.fee) + If(RefundOverflow(l, c), c.source + c.fee)
  }

  /** Settled money without a logged execution: the receiver-overflow branch does not lower it again. */
  function RaisedBy(l: Ledger, c: Command): int {
    If(ReceiverOverflow(l, c), c.source + c.fee)
  }

  ghost function Lost(l: Ledger, inputs: seq<Timed>): int {
    if inputs == [] then 0 else
      var before := inputs[..|inputs| - 1];
      Lost(l, before) + LostBy(Run(l, before).0, inputs[|inputs| - 1].cmd)
  }

  ghost function Raised(l: Ledger, inputs: seq<Timed>): int {
    if inputs == [] then 0 else
      var before := inputs[..|inputs| - 1];
      Raised(l, before) + RaisedBy(Run(l, before).0, inputs[|inputs| - 1].cmd)
  }

  /** No fee credit overflows, and no receiver credit of a payment that costs the sender anything. */
  ghost predicate NoLeak(l: Ledger, inputs: seq<Timed>) {
    forall n | 0 <= n < |inputs| ::
      var l1, c := Run(l, inputs[..n]).0, inputs[n].cmd;
      !FeeOverflow(l1, c) && (ReceiverOverflow(l1, c) ==> c.source + c.fee == 0)
  }

  lemma ExecuteSums(l: Ledger, c: Command, t: Clock)
    requires WellFormed(c) && NonNegative(l) && c.kind == ExecutePayment
    requires Process(l, c, t).logged
    ensures Spendable(Process(l, c, t).ledger) == Spendable(l) + c.target - c.source - If(FeeOverflow(l, c), c.fee)
    ensures SettledSum(Process(l, c, t).ledger) == SettledSum(l) + c.source + c.fee
  {
    FeeOverflowClock(l, c, t);
    var total: int := Total(c);
    var l1 := Debit(l, c.from, Total(c), t.first).0;
    var l2 := Credit(l1, c.to, c.target, t.second).0;
    var l3 := Credit(l2, c.feeAccount, c.fee, t.third).0;
    DebitMoves(l, c.from, Total(c), t.first);
    CreditMoves(l1, c.to, c.target, t.second);
    CreditMoves(l2, c.feeAccount, c.fee, t.third);
    hide Debit, Credit, Moved, FeeOverflow;
    MovedSums(l, l1, c.from, 0, -total, total);
    MovedSums(l1, l2, c.to, c.target, 0, 0);
    if !FeeOverflow(l, c) {
      MovedSums(l2, l3, c.feeAccount, c.fee, 0, 0);
    }
  }

  lemma RefundOverflowClock(l: Ledger, c: Command, t: Clock)
    requires ReceiverOverflow(l, c)
    ensures var l1 := Debit(l, c.from, Total(c), t.first).0;
      && Debit(l, c.from, Total(c), t.first).1 == OK
      && Process(l, c, t) == Outcome(Credit(l1, c.from, Total(c), t.third).0, false, OverflowDetected)
      && (RefundOverflow(l, c) <==> Credit(l1, c.from, Total(c), t.third).1 != OK)
  {
    SameReflexive(l, c, t);
    OperationsRespectSame(l, l, c.from, Total(c), t.first, 0);
    var l1, k1 := Debit(l, c.from, Total(c), t.first).0, Debit(l, c.from, Total(c), 0).0;
    OperationsRespectSame(l1, k1, c.from, Total(c), t.third, 0);
    CreditMoves(l1, c.to, c.target, t.second);
    CreditCode(l1, c.to, c.target, t.second);
    hide Debit, Credit, Same;
  }

  lemma CreditCode(l: Ledger, id: uint64, amount: int64, now: uint64)
    ensures Credit(l, id, amount, now).1 == OK || Credit(l, id, amount, now).1 == OverflowDetected
  {
  }

  /** The receiver-overflow branch: the sender's frozen money comes back as available, if that fits, and
      yet stays settled. */
  lemma UndoneSums(l: Ledger, c: Command, t: Clock)
    requires WellFormed(c) && NonNegative(l) && ReceiverOverflow(l, c)
    ensures !Process(l, c, t).logged
    ensures Spendable(Process(l, c, t).ledger) == Spendable(l) - If(RefundOverflow(l, c), c.source + c.fee)
    ensures SettledSum(Process(l, c, t).ledger) == SettledSum(l) + c.source + c.fee
  {
    RefundOverflowClock(l, c, t);
    var total: int := Total(c);
    var l1 := Debit(l, c.from, Total(c), t.first).0;
    var l2 := Credit(l1, c.from, Total(c), t.third).0;
    DebitMoves(l, c.from, Total(c), t.first);
    CreditMoves(l1, c.from, Total(c), t.third);
    hide Debit, Credit, Moved, ReceiverOverflow, RefundOverflow, Process;
    MovedSums(l, l1, c.from, 0, -total, total);
    if !RefundOverflow(l, c) {
      MovedSums(l1, l2, c.from, total, 0, 0);
    }
  }

  /** The overflow branches exclude each other, and only an execution takes one. */
  lemma OverflowsApart(l: Ledger, c: Command, t: Clock)
    requires WellFormed(c)
    ensures FeeOverflow(l, c) ==> !ReceiverOverflow(l, c) && Process(l, c, t).logged
    ensures FeeOverflow(l, c) || ReceiverOverflow(l, c) ==> c.kind == ExecutePayment
    ensures FeeOverflow(l, c) ==> c.fee > 0
    ensures RefundOverflow(l, c) ==> c.source + c.fee > 0
  {
    if c.kind == ExecutePayment {
      SameReflexive(l, c, t);
      FeeOverflowClock(l, c, t);
    }
  }

  lemma LoggedSums(l: Ledger, c: Command, t: Clock)
    requires WellFormed(c) && NonNegative(l) && c.kind != ExecutePayment && Process(l, c, t).logged
    ensures var l' := Process(l, c, t).ledger;
      Spendable(l') == Spendable(l) + Inflow([c]) && SettledSum(l') == SettledSum(l) + Settlements([c])
  {
    var l' := Process(l, c, t).ledger;
    var total: int := Total(c);
    assert [c][..0] == [];
    match c.kind
    case FreezeFunds =>
      FreezeMoves(l, c.from, Total(c), t.first);
      MovedSums(l, l', c.from, -total, total, 0);
    case ReleaseFunds =>
      UnfreezeMoves(l, c.from, Total(c), t.first);
      MovedSums(l, l', c.from, total, -total, 0);
    case RefundPayment =>
      CreditMoves(l, c.from, Total(c), t.first);
      MovedSums(l, l', c.from, total, 0, 0);
    case _ =>
  }

  /** What one command does to the sums, in every branch. */
  lemma StepSums(l: Ledger, c: Command, t: Clock)
    requires WellFormed(c) && NonNegative(l)
    ensures var o := Process(l, c, t);
      var log := if o.logged then [c] else [];
      && Spendable(o.ledger) == Spendable(l) + Inflow(log) - LostBy(l, c)
      && SettledSum(o.ledger) == SettledSum(l) + Settlements(log) + RaisedBy(l, c)
  {
    OverflowsApart(l, c, t);
    EmptyLog();
    if ReceiverOverflow(l, c) {
      UndoneSums(l, c, t);
    } else if !Process(l, c, t).logged {
      UnloggedStep(l, c, t);
    } else if c.kind == ExecutePayment {
      ExecuteSums(l, c, t);
      assert [c][..0] == [];
    } else {
      LoggedSums(l, c, t);
    }
    hide Process, ReceiverOverflow, FeeOverflow, Spendable, SettledSum;
  }

  lemma LogSums(log: seq<Command>, c: Command)
    ensures Inflow(log + [c]) == Inflow(log) + Inflow([c])
    ensures Settlements(log + [c]) == Settlements(log) + Settlements([c])
  {
    assert (log + [c])[..|log|] == log;
    assert [c][..0] == [];
  }

  /** The books of every run of well-formed commands: the log explains every change of the ledger's
      sums, except for what the overflow branches lost and raised. */
  lemma {:induction false} RunConserves(l: Ledger, inputs: seq<Timed>)
    requires NonNegative(l) && AllWellFormed(inputs)
    ensures var (l', log) := Run(l, inputs);
      && Spendable(l') == Spendable(l) + Inflow(log) - Lost(l, inputs)
      && SettledSum(l') == SettledSum(l) + Settlements(log) + Raised(l, inputs)
  {
    hide Process, LostBy, RaisedBy, NonNegative, Spendable, SettledSum, Inflow, Settlements;
    EmptyLog();
    if inputs != [] {
      var n := |inputs| - 1;
      var before, i := inputs[..n], inputs[n];
      RunConserves(l, before);
      RunInvariants(l, before);
      var (l1, log) := Run(l, before);
      StepSums(l1, i.cmd, i.clock);
      LogSums(log, i.cmd);
    }
  }

  /** Losses never offset each other, and there is none exactly if no leaking branch was taken. */
  lemma {:induction false} LeaksAddUp(l: Ledger, inputs: seq<Timed>)
    requires AllWellFormed(inputs)
    ensures 0 <= Lost(l, inputs) && 0 <= Raised(l, inputs)
    ensures Lost(l, inputs) == 0 && Raised(l, inputs) == 0 <==> NoLeak(l, inputs)
  {
    hide Process, FeeOverflow, ReceiverOverflow;
    if inputs != [] {
      var n := |inputs| - 1;
      var before, c := inputs[..n], inputs[n].cmd;
      LeaksAddUp(l, before);
      OverflowsApart(Run(l, before).0, c, inputs[n].clock);
      NoLeakStep(l, inputs);
      hide Run, Total, RefundOverflow;
      assert RefundOverflow(Run(l, before).0, c) ==> ReceiverOverflow(Run(l, before).0, c);
    }
  }

  lemma NoLeakStep(l: Ledger, inputs: seq<Timed>)
    requires inputs != []
    ensures var before, c := inputs[..|inputs| - 1], inputs[|inputs| - 1].cmd;
      var l1 := Run(l, before).0;
      NoLeak(l, inputs) <==>
        NoLeak(l, before) && !FeeOverflow(l1, c) && (ReceiverOverflow(l1, c) ==> c.source + c.fee == 0)
  {
    hide FeeOverflow, ReceiverOverflow, Run;
    var n := |inputs| - 1;
    var before := inputs[..n];
    forall k | 0 <= k < n
      ensures before[..k] == inputs[..k] && before[k] == inputs[k]
    {
    }
    if NoLeak(l, before) && NoLeak(l, inputs[..n]) {
      assert inputs[..n] == before;
    }
  }

  /** Conservation, exactly: the log alone accounts for the ledger's sums if and only if no fee credit
      overflowed, and no receiver credit of a payment that costs anything. */
  lemma ConservedExactly(l: Ledger, inputs: seq<Timed>)
    requires NonNegative(l) && AllWellFormed(inputs)
    ensures var (l', log) := Run(l, inputs);
      (&& Spendable(l') == Spendable(l) + Inflow(log)
       && SettledSum(l') == SettledSum(l) + Settlements(log)) <==> NoLeak(l, inputs)
  {
    RunConserves(l, inputs);
    LeaksAddUp(l, inputs);
  }

  lemma EmptyLog()
    ensures Inflow([]) == 0 && Settlements([]) == 0
  {
  }
}
