/** When a command succeeds, and what a refused one leaves: told from the balances before it, without the
    ledger operations. */
module CommandOutcomes {
  import opened Word
  import opened LedgerSpec
  import opened EngineSpec
  import opened Accounting

  /** The result code that the balances before a command call for. */
  function Verdict(l: Ledger, c: Command): Code {
    var n := c.source + c.fee;
    var known, from := c.from in l.accounts, BalanceOf(l, c.from);
    match c.kind
    case FreezeFunds =>
      if !known then AccountNotFound
      else if from.available < n then InsufficientFunds
      else if from.frozen + n > INT64_MAX then OverflowDetected
      else OK
    case ReleaseFunds =>
      if !known then AccountNotFound
      else if from.frozen < n then InsufficientFunds
      else if from.available + n > INT64_MAX then OverflowDetected
      else OK
    case RefundPayment =>
      if from.available + n > INT64_MAX then OverflowDetected else OK
    case ExecutePayment =>
      if !known then AccountNotFound
      else if from.frozen < n then InsufficientFunds
      else if from.settled + n > INT64_MAX then OverflowDetected
      else if BalanceOf(l, c.to).available + c.target > INT64_MAX then OverflowDetected
      else OK
    case SettlementBatch => OK
    case Unknown => InternalError
  }

  /** A well-formed command gets exactly that code, and is logged exactly if the code is OK. */
  lemma CommandSucceedsExactly(l: Ledger, c: Command, t: Clock)
    requires WellFormed(c) && NonNegative(l)
    ensures Process(l, c, t).code == Verdict(l, c)
    ensures Process(l, c, t).logged <==> Verdict(l, c) == OK
  {
    hide Wrap, Unsigned;
    assert Total(c) == c.source + c.fee by { TotalFits(c); }
    if c.kind == ExecutePayment {
      ExecuteSucceedsExactly(l, c, t);
    }
  }

  lemma TotalFits(c: Command)
    requires FitsInt64(c.source + c.fee)
    ensures Total(c) == c.source + c.fee
  {
  }

  lemma ExecuteSucceedsExactly(l: Ledger, c: Command, t: Clock)
    requires WellFormed(c) && NonNegative(l) && c.kind == ExecutePayment
    ensures Process(l, c, t).code == Verdict(l, c)
    ensures Process(l, c, t).logged <==> Verdict(l, c) == OK
  {
    TotalFits(c);
    DebitMoves(l, c.from, Total(c), t.first);
    CreditMoves(Debit(l, c.from, Total(c), t.first).0, c.to, c.target, t.second);
    hide Wrap, Unsigned, Total;
  }

  /** A freeze whose total overflows is refused by the handler itself; no other handler tests that. */
  lemma FreezeOverflow(l: Ledger, c: Command, t: Clock)
    requires c.kind == FreezeFunds && 0 <= c.source && 0 <= c.fee
    ensures c.source + c.fee > INT64_MAX ==> Process(l, c, t) == Outcome(l, false, OverflowDetected)
    ensures c.source + c.fee <= INT64_MAX && 0 <= BalanceOf(l, c.from).frozen ==>
      (Process(l, c, t).code == OK <==>
        && c.from in l.accounts && c.source + c.fee <= BalanceOf(l, c.from).available
        && BalanceOf(l, c.from).frozen + c.source + c.fee <= INT64_MAX)
  {
  }

  /** A receiver overflow, account by account: the sender's total leaves frozen and stays in settled, and
      comes back as available money if that fits. Nobody else's account changes. */
  lemma UndonePosts(l: Ledger, c: Command, t: Clock, id: uint64)
    requires WellFormed(c) && NonNegative(l) && ReceiverOverflow(l, c)
    ensures var b, b' := BalanceOf(l, id), BalanceOf(Process(l, c, t).ledger, id);
      var n := If(id == c.from, c.source + c.fee);
      && b'.available == b.available + (if b.available + n > INT64_MAX then 0 else n)
      && b'.frozen == b.frozen - n && b'.settled == b.settled + n
    ensures RefundOverflow(l, c) <==> BalanceOf(l, c.from).available + c.source + c.fee > INT64_MAX
  {
    RefundOverflowClock(l, c, t);
    TotalFits(c);
    var l1 := Debit(l, c.from, Total(c), t.first).0;
    DebitMoves(l, c.from, Total(c), t.first);
    CreditMoves(l1, c.from, Total(c), t.third);
    MovedAt(l, l1, c.from, 0, -Total(c), Total(c), id);
    MovedAt(l, l1, c.from, 0, -Total(c), Total(c), c.from);
    var l2 := Credit(l1, c.from, Total(c), t.third).0;
    hide Debit, Credit, Process, ReceiverOverflow, RefundOverflow, Total, Moved, BalanceOf, NonNegative;
    if Credit(l1, c.from, Total(c), t.third).1 == OK {
      MovedAt(l1, l2, c.from, Total(c), 0, 0, id);
    }
  }
}
