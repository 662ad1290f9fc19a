/** Double-entry settlement: the journal of one payment, its balance check, its reversal. */
module Settlement {
  import opened Word

  datatype Direction = Debit | Credit

  datatype Entry = Entry(account: string, currency: string, direction: Direction, amount: int, balanceAfter: int)

  /** The parts of an order and of the accounts that settling it reads. Currencies are in lower case. */
  datatype Payment = Payment(sender: string, receiver: string, sourceCurrency: string, targetCurrency: string,
                             source: int64, target: int64, fee: int64)

  datatype Balances = Balances(sender: int, receiver: int, settlement: int, feeIncome: int)

  function SettlementAccount(p: Payment): string { "sys_settlement_" + p.sourceCurrency }
  function FeeAccount(p: Payment): string { "sys_fee_income_" + p.sourceCurrency }
  function ExchangeAccount(currency: string): string { "sys_exchange_" + currency }

  /** The eight entries, in the order they are inserted. */
  function Journal(p: Payment, b: Balances): seq<Entry> {
    var total := Wrap(p.source + p.fee);
    [ Entry(p.sender, p.sourceCurrency, Debit, total, b.sender - total),
      Entry(SettlementAccount(p), p.sourceCurrency, Credit, total, b.settlement + total),
      Entry(SettlementAccount(p), p.sourceCurrency, Debit, p.source, b.settlement + p.fee),
      Entry(ExchangeAccount(p.sourceCurrency), p.sourceCurrency, Credit, p.source, 0),
      Entry(SettlementAccount(p), p.sourceCurrency, Debit, p.fee, b.settlement),
      Entry(FeeAccount(p), p.sourceCurrency, Credit, p.fee, b.feeIncome + p.fee),
      Entry(ExchangeAccount(p.targetCurrency), p.targetCurrency, Debit, p.target, 0),
      Entry(p.receiver, p.targetCurrency, Credit, p.target, b.receiver + p.target) ]
  }

  const JOURNAL_SIZE: nat := 8

  // ---- the balance check ----

  /** Debits count up, credits down. */
  function Signed(e: Entry): int {
    if e.direction == Debit then e.amount else -e.amount
  }

  /** The net of a currency over a list of entries. */
  function Net(entries: seq<Entry>, currency: string): int {
    if entries == [] then 0 else
      var e := entries[|entries| - 1];
      Net(entries[..|entries| - 1], currency) + if e.currency == currency then Signed(e) else 0
  }

  /** Debits equal credits in every currency. */
  ghost predicate Balanced(entries: seq<Entry>) {
    forall currency :: Net(entries, currency) == 0
  }

  lemma {:induction false} NetConcat(a: seq<Entry>, b: seq<Entry>, currency: string)
    ensures Net(a + b, currency) == Net(a, currency) + Net(b, currency)
  {
    if b == [] {
      assert a + b == a;
    } else {
      var n := |b| - 1;
      assert (a + b)[..|a| + n] == a + b[..n];
      NetConcat(a, b[..n], currency);
    }
  }

  /** The check adds up in 64-bit words: it accepts exactly the lists in which every currency nets to a
      multiple of 2^64. */
  method CheckBalance(entries: seq<Entry>) returns (ok: bool)
    ensures ok <==> forall currency :: Unsigned(Net(entries, currency)) == 0
  {
    hide Unsigned;
    assert Unsigned(0) == 0 by { UnsignedId(0); }
    var balances: map<string, int64> := map[];
    for i := 0 to |entries|
      invariant forall c :: c in balances <==> c in Currencies(entries[..i])
      invariant forall c :: c in balances ==> Unsigned(balances[c]) == Unsigned(Net(entries[..i], c))
    {
      var e := entries[i];
      assert entries[..i + 1][..i] == entries[..i];
      CurrenciesStep(entries, i);
      var before := if e.currency in balances then balances[e.currency] else 0;
      NetElsewhere(entries[..i], e.currency);
      UnsignedAdd(before, Net(entries[..i], e.currency), Signed(e));
      balances := balances[e.currency := Wrap(before + Signed(e))];
    }
    assert entries[..|entries|] == entries;
    var rest := balances.Keys;
    while rest != {}
      invariant rest <= balances.Keys
      invariant forall c :: c in balances && c !in rest ==> balances[c] == 0
    {
      var c :| c in rest;
      if balances[c] != 0 {
        NonZeroWord(balances[c]);
        assert Unsigned(Net(entries, c)) != 0;
        return false;
      }
      rest := rest - {c};
    }
    forall c
      ensures Unsigned(Net(entries, c)) == 0
    {
      NetElsewhere(entries, c);
    }
    return true;
  }

  function Currencies(entries: seq<Entry>): set<string> {
    set i | 0 <= i < |entries| :: entries[i].currency
  }

  lemma CurrenciesStep(entries: seq<Entry>, i: nat)
    requires i < |entries|
    ensures Currencies(entries[..i + 1]) == Currencies(entries[..i]) + {entries[i].currency}
  {
    var s, t := entries[..i], entries[..i + 1];
    assert forall j | 0 <= j < i :: s[j] == t[j];
    assert t[i] == entries[i];
    forall c | c in Currencies(t)
      ensures c in Currencies(s) + {entries[i].currency}
    {
      var j :| 0 <= j < |t| && t[j].currency == c;
      if j < i { assert s[j].currency == c; }
    }
  }

  lemma NonZeroWord(x: int64)
    requires x != 0
    ensures Unsigned(x) != 0
  {
  }

  lemma {:induction false} NetElsewhere(entries: seq<Entry>, currency: string)
    ensures currency !in Currencies(entries) ==> Net(entries, currency) == 0
  {
    if entries != [] {
      var n := |entries| - 1;
      CurrenciesStep(entries, n);
      assert entries[..n + 1] == entries;
      NetElsewhere(entries[..n], currency);
    }
  }

  /** A debit and a credit of the same amount. */
  lemma PairBalanced(x: Entry, y: Entry, currency: string)
    requires x.currency == y.currency && Signed(x) + Signed(y) == 0
    ensures Net([x, y], currency) == 0
  {
    assert [x, y][..1] == [x] && [x][..0] == [];
    assert Net([x], currency) == if x.currency == currency then Signed(x) else 0;
  }

  lemma EightAsPairs(j: seq<Entry>)
    requires |j| == 8
    ensures j == (([j[0], j[1]] + [j[2], j[3]]) + [j[4], j[5]]) + [j[6], j[7]]
  {
  }

  /** The journal nets to exactly zero in every currency, whatever the order, the same currency on both
      sides included; so it always passes the check. */
  lemma JournalBalances(p: Payment, b: Balances, currency: string)
    ensures Net(Journal(p, b), currency) == 0
  {
    var j := Journal(p, b);
    hide Net, Wrap;
    PairBalanced(j[0], j[1], currency);
    PairBalanced(j[2], j[3], currency);
    PairBalanced(j[4], j[5], currency);
    PairBalanced(j[6], j[7], currency);
    hide Journal, Signed;
    EightAsPairs(j);
    NetConcat([j[0], j[1]], [j[2], j[3]], currency);
    NetConcat([j[0], j[1]] + [j[2], j[3]], [j[4], j[5]], currency);
    NetConcat([j[0], j[1]] + [j[2], j[3]] + [j[4], j[5]], [j[6], j[7]], currency);
  }

  // ---- running balances ----

  /** The recorded balances of one account, replayed from where it started; None if one is wrong. */
  datatype Replayed = Wrong | Balance(value: int)

  function Replay(entries: seq<Entry>, account: string, start: int): Replayed {
    if entries == [] then Balance(start) else
      var e := entries[0];
      if e.account != account then Replay(entries[1..], account, start)
      else if e.balanceAfter != start - Signed(e) then Wrong
      else Replay(entries[1..], account, e.balanceAfter)
  }

  /** The settlement account is a pass-through: its three recorded balances follow from each other, and
      the last is the first. */
  lemma SettlementReplays(p: Payment, b: Balances)
    requires FitsInt64(p.source + p.fee)
    requires p.sender != SettlementAccount(p) && p.receiver != SettlementAccount(p)
    ensures Replay(Journal(p, b), SettlementAccount(p), b.settlement) == Balance(b.settlement)
  {
    var a := SettlementAccount(p);
    assert a[4] == 's' && FeeAccount(p)[4] == 'f';
    assert ExchangeAccount(p.sourceCurrency)[4] == 'e' && ExchangeAccount(p.targetCurrency)[4] == 'e';
    ReplayThree(Journal(p, b), a, b.settlement);
  }

  /** Replaying a list of eight in which an account has entries 1, 2 and 4. */
  lemma ReplayThree(j: seq<Entry>, a: string, s: int)
    requires |j| == 8 && j[1].account == j[2].account == j[4].account == a
    requires a !in {j[0].account, j[3].account, j[5].account, j[6].account, j[7].account}
    requires j[1].balanceAfter == s - Signed(j[1])
    requires j[2].balanceAfter == j[1].balanceAfter - Signed(j[2])
    requires j[4].balanceAfter == j[2].balanceAfter - Signed(j[4])
    ensures Replay(j, a, s) == Balance(j[4].balanceAfter)
  {
    ReplayStep(j, 0, a, s);
    ReplayStep(j, 1, a, s);
    ReplayStep(j, 2, a, j[1].balanceAfter);
    ReplayStep(j, 3, a, j[2].balanceAfter);
    ReplayStep(j, 4, a, j[2].balanceAfter);
    ReplayStep(j, 5, a, j[4].balanceAfter);
    ReplayStep(j, 6, a, j[4].balanceAfter);
    ReplayStep(j, 7, a, j[4].balanceAfter);
    assert j[0..] == j && j[8..] == [];
    assert Replay([], a, j[4].balanceAfter) == Balance(j[4].balanceAfter);
    hide Replay;
  }

  lemma ReplayStep(j: seq<Entry>, k: nat, account: string, balance: int)
    requires k < |j|
    ensures Replay(j[k..], account, balance) ==
      if j[k].account != account then Replay(j[k + 1..], account, balance)
      else if j[k].balanceAfter != balance - Signed(j[k]) then Wrong
      else Replay(j[k + 1..], account, j[k].balanceAfter)
  {
    assert j[k..][1..] == j[k + 1..];
  }

  // ---- reversal ----

  function Reversal(e: Entry): Entry {
    e.(direction := if e.direction == Credit then Debit else Credit, balanceAfter := 0)
  }

  function Reversals(entries: seq<Entry>): seq<Entry> {
    seq(|entries|, i requires 0 <= i < |entries| => Reversal(entries[i]))
  }

  /** The net of one account in one currency. */
  function AccountNet(entries: seq<Entry>, account: string, currency: string): int {
    if entries == [] then 0 else
      (if entries[0].account == account && entries[0].currency == currency then Signed(entries[0]) else 0)
      + AccountNet(entries[1..], account, currency)
  }

  lemma {:induction false} AccountNetConcat(a: seq<Entry>, b: seq<Entry>, account: string, currency: string)
    ensures AccountNet(a + b, account, currency) == AccountNet(a, account, currency) + AccountNet(b, account, currency)
  {
    if a == [] {
      assert a + b == b;
    } else {
      assert (a + b)[1..] == a[1..] + b;
      AccountNetConcat(a[1..], b, account, currency);
    }
  }

  lemma {:induction false} ReversalsNegate(entries: seq<Entry>, account: string, currency: string)
    ensures AccountNet(Reversals(entries), account, currency) == -AccountNet(entries, account, currency)
  {
    if entries != [] {
      assert Reversals(entries)[1..] == Reversals(entries[1..]);
      ReversalsNegate(entries[1..], account, currency);
    }
  }

  /** Appending the reversals of any list of entries makes every account's net zero in every currency. */
  lemma ReversalCancels(entries: seq<Entry>, account: string, currency: string)
    ensures AccountNet(entries + Reversals(entries), account, currency) == 0
  {
    AccountNetConcat(entries, Reversals(entries), account, currency);
    ReversalsNegate(entries, account, currency);
  }

  lemma {:induction false} ReversalsNet(entries: seq<Entry>, currency: string)
    ensures Net(Reversals(entries), currency) == -Net(entries, currency)
  {
    if entries != [] {
      var n := |entries| - 1;
      assert Reversals(entries)[..n] == Reversals(entries[..n]);
      ReversalsNet(entries[..n], currency);
    }
  }

  /** Neither a journal nor reversals unbalance a balanced list. */
  lemma AppendKeepsBalanced(entries: seq<Entry>, p: Payment, b: Balances)
    requires Balanced(entries)
    ensures Balanced(entries + Journal(p, b)) && Balanced(entries + Reversals(entries))
  {
    forall currency
      ensures Net(entries + Journal(p, b), currency) == 0 && Net(entries + Reversals(entries), currency) == 0
    {
      NetConcat(entries, Journal(p, b), currency);
      NetConcat(entries, Reversals(entries), currency);
      JournalBalances(p, b, currency);
      ReversalsNet(entries, currency);
    }
  }

  /** The roles an account may have in a payment, several at once; what each moves out, debits counting up. */
  lemma JournalMoves(p: Payment, b: Balances, account: string, currency: string)
    requires FitsInt64(p.source + p.fee)
    ensures AccountNet(Journal(p, b), account, currency) ==
      Role(account == p.sender && currency == p.sourceCurrency, p.source + p.fee)
      - Role(account == p.receiver && currency == p.targetCurrency, p.target)
      - Role(account == FeeAccount(p) && currency == p.sourceCurrency, p.fee)
      - Role(account == ExchangeAccount(p.sourceCurrency) && currency == p.sourceCurrency, p.source)
      + Role(account == ExchangeAccount(p.targetCurrency) && currency == p.targetCurrency, p.target)
  {
    var j := Journal(p, b);
    assert Wrap(p.source + p.fee) == p.source + p.fee;
    hide SettlementAccount, FeeAccount, ExchangeAccount, Wrap;
    EightNets(j, account, currency);
    hide AccountNet;
  }

  function Role(held: bool, amount: int): int {
    if held then amount else 0
  }

  function EntryNet(e: Entry, account: string, currency: string): int {
    if e.account == account && e.currency == currency then Signed(e) else 0
  }

  lemma AccountNetFrom(j: seq<Entry>, k: nat, account: string, currency: string)
    requires k < |j|
    ensures AccountNet(j[k..], account, currency) ==
      EntryNet(j[k], account, currency) + AccountNet(j[k + 1..], account, currency)
  {
    assert j[k..][1..] == j[k + 1..];
  }

  lemma EightNets(j: seq<Entry>, account: string, currency: string)
    requires |j| == 8
    ensures AccountNet(j, account, currency) ==
      EntryNet(j[0], account, currency) + EntryNet(j[1], account, currency) + EntryNet(j[2], account, currency)
      + EntryNet(j[3], account, currency) + EntryNet(j[4], account, currency) + EntryNet(j[5], account, currency)
      + EntryNet(j[6], account, currency) + EntryNet(j[7], account, currency)
  {
    AccountNetFrom(j, 0, account, currency);
    AccountNetFrom(j, 1, account, currency);
    AccountNetFrom(j, 2, account, currency);
    AccountNetFrom(j, 3, account, currency);
    AccountNetFrom(j, 4, account, currency);
    AccountNetFrom(j, 5, account, currency);
    AccountNetFrom(j, 6, account, currency);
    AccountNetFrom(j, 7, account, currency);
    assert j[0..] == j && AccountNet(j[8..], account, currency) == 0;
    hide EntryNet, AccountNet;
  }

  /** The two entries of each pair, in the order in which they are stored; exchange accounts pass through. */
  lemma JournalPairs(p: Payment, b: Balances)
    ensures var j := Journal(p, b);
      && |j| == JOURNAL_SIZE
      && (forall i | 0 <= i < 4 :: j[2 * i].direction == Debit && j[2 * i + 1].direction == Credit
            && j[2 * i].amount == j[2 * i + 1].amount && j[2 * i].currency == j[2 * i + 1].currency)
      && j[0].account == p.sender
      && j[1].account == j[2].account == j[4].account == "sys_settlement_" + p.sourceCurrency
      && j[3].account == "sys_exchange_" + p.sourceCurrency && j[5].account == "sys_fee_income_" + p.sourceCurrency
      && j[6].account == "sys_exchange_" + p.targetCurrency && j[7].account == p.receiver
      && j[3].balanceAfter == 0 && j[6].balanceAfter == 0
  {
  }

  method BuildReversals(entries: seq<Entry>) returns (reversals: seq<Entry>)
    ensures reversals == Reversals(entries)
    ensures |reversals| == |entries| && forall i | 0 <= i < |entries| ::
      && reversals[i].account == entries[i].account && reversals[i].currency == entries[i].currency
      && reversals[i].amount == entries[i].amount && reversals[i].direction != entries[i].direction
      && reversals[i].balanceAfter == 0
  {
    reversals := [];
    for i := 0 to |entries|
      invariant reversals == Reversals(entries)[..i]
    {
      var e := entries[i];
      var direction := Credit;
      if e.direction == Credit { direction := Debit; }
      reversals := reversals + [Entry(e.account, e.currency, direction, e.amount, 0)];
    }
  }

  // ---- inserting ----

  /** The ledger table only takes positive amounts, and the whole batch is one statement. */
  predicate Insertable(entries: seq<Entry>) {
    forall i | 0 <= i < |entries| :: entries[i].amount > 0
  }

  /** So a journal can be stored exactly if the order's three amounts are positive: an order without a
      fee always fails to settle. */
  lemma JournalInsertable(p: Payment, b: Balances)
    requires FitsInt64(p.source + p.fee)
    ensures Insertable(Journal(p, b)) <==> p.source > 0 && p.target > 0 && p.fee > 0
  {
    var j := Journal(p, b);
    assert j[2].amount == p.source && j[4].amount == p.fee && j[6].amount == p.target;
  }
}
