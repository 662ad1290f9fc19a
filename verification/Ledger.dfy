/** The engine's in-memory ledger: balances per account and two cached aggregates. */
module LedgerSpec {
  import opened Word
  import opened Sums

  datatype Code = OK | DuplicatedRequest | AccountNotFound | InsufficientFunds | InternalError | OverflowDetected

  datatype Balance = Balance(available: int64, frozen: int64, settled: int64, version: int64, updatedAt: uint64)

  datatype Ledger = Ledger(accounts: map<uint64, Balance>, totalFrozen: uint64, totalSettled: uint64)

  const EMPTY_BALANCE := Balance(0, 0, 0, 0, 0)

  /** The version counter of an account; it wraps like any `int64_t`. */
  function Next(version: int64): int64 {
    if version == INT64_MAX then INT64_MIN else version + 1
  }

  /** An absent account reads as an all-zero balance, as `get_balance` answers. */
  function BalanceOf(l: Ledger, id: uint64): Balance {
    if id in l.accounts then l.accounts[id] else EMPTY_BALANCE
  }

  function AvailableOf(b: Balance): int { b.available }
  function FrozenOf(b: Balance): int { b.frozen }
  function SettledOf(b: Balance): int { b.settled }

  /** What the cached aggregates are for: both equal the map's own sums, modulo 2^64. */
  ghost predicate TotalsAgree(l: Ledger) {
    && l.totalFrozen == Unsigned(SumOf(l.accounts, FrozenOf))
    && l.totalSettled == Unsigned(SumOf(l.accounts, SettledOf))
  }

  // ---- the four balance operations; every failure leaves the ledger unchanged ----

  function Freeze(l: Ledger, id: uint64, amount: int64, now: uint64): (Ledger, Code) {
    if id !in l.accounts then (l, AccountNotFound)
    else
      var b := l.accounts[id];
      if b.available < amount then (l, InsufficientFunds)
      else if !FitsInt64(b.frozen + amount) then (l, OverflowDetected)
      else
        var b' := b.(available := Wrap(b.available - amount), frozen := b.frozen + amount,
                     version := Next(b.version), updatedAt := now);
        (l.(accounts := l.accounts[id := b'], totalFrozen := Unsigned(l.totalFrozen + amount)), OK)
  }

  function Unfreeze(l: Ledger, id: uint64, amount: int64, now: uint64): (Ledger, Code) {
    if id !in l.accounts then (l, AccountNotFound)
    else
      var b := l.accounts[id];
      if b.frozen < amount then (l, InsufficientFunds)
      else if !FitsInt64(b.available + amount) then (l, OverflowDetected)
      else
        var b' := b.(frozen := Wrap(b.frozen - amount), available := b.available + amount,
                     version := Next(b.version), updatedAt := now);
        (l.(accounts := l.accounts[id := b'], totalFrozen := Unsigned(l.totalFrozen - amount)), OK)
  }

  function Debit(l: Ledger, id: uint64, amount: int64, now: uint64): (Ledger, Code) {
    if id !in l.accounts then (l, AccountNotFound)
    else
      var b := l.accounts[id];
      if b.frozen < amount then (l, InsufficientFunds)
      else if !FitsInt64(b.settled + amount) then (l, OverflowDetected)
      else
        var b' := b.(frozen := Wrap(b.frozen - amount), settled := b.settled + amount,
                     version := Next(b.version), updatedAt := now);
        (l.(accounts := l.accounts[id := b'], totalFrozen := Unsigned(l.totalFrozen - amount),
            totalSettled := Unsigned(l.totalSettled + amount)), OK)
  }

  /** Credit creates an absent account, at version 0. */
  function Credit(l: Ledger, id: uint64, amount: int64, now: uint64): (Ledger, Code) {
    if id !in l.accounts then
      (l.(accounts := l.accounts[id := Balance(amount, 0, 0, 0, now)]), OK)
    else
      var b := l.accounts[id];
      if !FitsInt64(b.available + amount) then (l, OverflowDetected)
      else
        var b' := b.(available := b.available + amount, version := Next(b.version), updatedAt := now);
        (l.(accounts := l.accounts[id := b']), OK)
  }

  function InitAccount(l: Ledger, id: uint64, available: int64, now: uint64): Ledger {
    if id in l.accounts then l
    else l.(accounts := l.accounts[id := Balance(available, 0, 0, 0, now)])
  }

  /** The ledger that `restore` must leave: the given balances, aggregates recomputed from them. */
  ghost function Restored(accounts: map<uint64, Balance>): Ledger {
    Ledger(accounts, Unsigned(SumOf(accounts, FrozenOf)), Unsigned(SumOf(accounts, SettledOf)))
  }

  // ---- what the operations mean ----

  /** `l'` differs from `l` by these amounts on account `id`, and nowhere else. */
  ghost predicate Moved(l: Ledger, l': Ledger, id: uint64, available: int, frozen: int, settled: int) {
    && l'.accounts.Keys == l.accounts.Keys + {id}
    && (forall x :: x in l.accounts && x != id ==> l'.accounts[x] == l.accounts[x])
    && var b, b' := BalanceOf(l, id), l'.accounts[id];
    && b'.available == b.available + available
    && b'.frozen == b.frozen + frozen
    && b'.settled == b.settled + settled
  }

  /** One account's movement is the whole ledger's movement, in every column. */
  lemma MovedSums(l: Ledger, l': Ledger, id: uint64, available: int, frozen: int, settled: int)
    requires Moved(l, l', id, available, frozen, settled)
    ensures SumOf(l'.accounts, AvailableOf) == SumOf(l.accounts, AvailableOf) + available
    ensures SumOf(l'.accounts, FrozenOf) == SumOf(l.accounts, FrozenOf) + frozen
    ensures SumOf(l'.accounts, SettledOf) == SumOf(l.accounts, SettledOf) + settled
  {
    var b' := l'.accounts[id];
    assert l'.accounts == l.accounts[id := b'];
    SumUpdate(l.accounts, AvailableOf, id, b');
    SumUpdate(l.accounts, FrozenOf, id, b');
    SumUpdate(l.accounts, SettledOf, id, b');
  }

  /** For a non-negative amount on a non-negative account, each operation moves exactly `amount`
      between the two buckets it names, or fails and changes nothing. */
  lemma FreezeMoves(l: Ledger, id: uint64, amount: int64, now: uint64)
    requires 0 <= amount && 0 <= BalanceOf(l, id).frozen
    ensures var (l', code) := Freeze(l, id, amount, now);
      if code == OK then Moved(l, l', id, -amount, amount, 0) && 0 <= l'.accounts[id].available else l' == l
    ensures Freeze(l, id, amount, now).1 == OK <==>
      id in l.accounts && amount <= BalanceOf(l, id).available && BalanceOf(l, id).frozen + amount <= INT64_MAX
  {
  }

  lemma UnfreezeMoves(l: Ledger, id: uint64, amount: int64, now: uint64)
    requires 0 <= amount && 0 <= BalanceOf(l, id).available
    ensures var (l', code) := Unfreeze(l, id, amount, now);
      if code == OK then Moved(l, l', id, amount, -amount, 0) && 0 <= l'.accounts[id].frozen else l' == l
    ensures Unfreeze(l, id, amount, now).1 == OK <==>
      id in l.accounts && amount <= BalanceOf(l, id).frozen && BalanceOf(l, id).available + amount <= INT64_MAX
  {
  }

  lemma DebitMoves(l: Ledger, id: uint64, amount: int64, now: uint64)
    requires 0 <= amount && 0 <= BalanceOf(l, id).settled
    ensures var (l', code) := Debit(l, id, amount, now);
      if code == OK then Moved(l, l', id, 0, -amount, amount) && 0 <= l'.accounts[id].frozen else l' == l
    ensures Debit(l, id, amount, now).1 == OK <==>
      id in l.accounts && amount <= BalanceOf(l, id).frozen && BalanceOf(l, id).settled + amount <= INT64_MAX
  {
  }

  lemma CreditMoves(l: Ledger, id: uint64, amount: int64, now: uint64)
    ensures var (l', code) := Credit(l, id, amount, now);
      if code == OK then Moved(l, l', id, amount, 0, 0) else l' == l
    ensures Credit(l, id, amount, now).1 == OK <==> FitsInt64(BalanceOf(l, id).available + amount)
  {
  }

  /** Why an operation refuses, for amounts that are not negative. */
  lemma RefusalCodes(l: Ledger, id: uint64, amount: int64, now: uint64)
    requires 0 <= amount
    ensures id !in l.accounts ==>
      && Freeze(l, id, amount, now).1 == Unfreeze(l, id, amount, now).1 == AccountNotFound
      && Debit(l, id, amount, now).1 == AccountNotFound
      && Credit(l, id, amount, now).1 == OK
    ensures id in l.accounts ==>
      var b := l.accounts[id];
      && (Freeze(l, id, amount, now).1 == InsufficientFunds <==> b.available < amount)
      && (Unfreeze(l, id, amount, now).1 == InsufficientFunds <==> b.frozen < amount)
      && (Debit(l, id, amount, now).1 == InsufficientFunds <==> b.frozen < amount)
      && (Freeze(l, id, amount, now).1 == OverflowDetected <==> amount <= b.available && b.frozen + amount > INT64_MAX)
      && (Unfreeze(l, id, amount, now).1 == OverflowDetected <==>
            amount <= b.frozen && b.available + amount > INT64_MAX)
      && (Debit(l, id, amount, now).1 == OverflowDetected <==> amount <= b.frozen && b.settled + amount > INT64_MAX)
      && (Credit(l, id, amount, now).1 == OverflowDetected <==> b.available + amount > INT64_MAX)
  {
  }

  ghost predicate StampedAt(l: Ledger, after: (Ledger, Code), id: uint64, now: uint64) {
    after.1 == OK ==>
      && id in after.0.accounts && after.0.accounts[id].updatedAt == now
      && Unsigned(after.0.accounts[id].version) ==
           if id in l.accounts then Unsigned(l.accounts[id].version + 1) else Unsigned(0)
  }

  /** A successful operation stamps its account with the time, and counts its version up by one, modulo
      2^64; an account that a credit creates starts at version 0. */
  lemma Stamped(l: Ledger, id: uint64, amount: int64, now: uint64)
    ensures StampedAt(l, Freeze(l, id, amount, now), id, now)
    ensures StampedAt(l, Unfreeze(l, id, amount, now), id, now)
    ensures StampedAt(l, Debit(l, id, amount, now), id, now)
    ensures StampedAt(l, Credit(l, id, amount, now), id, now)
  {
    NextCounts(BalanceOf(l, id).version);
    hide Next, Wrap, Unsigned;
  }

  lemma NextCounts(version: int64)
    ensures Unsigned(Next(version)) == Unsigned(version + 1)
  {
  }

  /** An account is opened once, with the money of its first opening and nothing else. */
  lemma OpenedOnce(l: Ledger, id: uint64, first: int64, second: int64, now: uint64, later: uint64)
    requires id !in l.accounts
    ensures var l' := InitAccount(l, id, first, now);
      && BalanceOf(l', id) == Balance(first, 0, 0, 0, now)
      && (forall x | x != id :: BalanceOf(l', x) == BalanceOf(l, x))
      && InitAccount(l', id, second, later) == l'
  {
  }

  // ---- the cached aggregates, for every amount whatever its sign ----

  lemma ColumnStep(accounts: map<uint64, Balance>, f: Balance -> int, id: uint64, b': Balance, total: uint64, d: int)
    requires total == Unsigned(SumOf(accounts, f))
    requires Unsigned(f(b')) == Unsigned((if id in accounts then f(accounts[id]) else 0) + d)
    ensures Unsigned(total + d) == Unsigned(SumOf(accounts[id := b'], f))
  {
    hide Unsigned;
    var was := if id in accounts then f(accounts[id]) else 0;
    var sum := SumOf(accounts, f);
    SumUpdate(accounts, f, id, b');
    UnsignedAdd(f(b'), was + d, sum - was);
    UnsignedStep(sum, d);
  }

  lemma TotalsStep(l: Ledger, l': Ledger, id: uint64, frozen: int, settled: int)
    requires TotalsAgree(l)
    requires id in l'.accounts && l'.accounts == l.accounts[id := l'.accounts[id]]
    requires Unsigned(l'.accounts[id].frozen) == Unsigned(BalanceOf(l, id).frozen + frozen)
    requires Unsigned(l'.accounts[id].settled) == Unsigned(BalanceOf(l, id).settled + settled)
    requires l'.totalFrozen == Unsigned(l.totalFrozen + frozen)
    requires l'.totalSettled == Unsigned(l.totalSettled + settled)
    ensures TotalsAgree(l')
  {
    hide Unsigned;
    ColumnStep(l.accounts, FrozenOf, id, l'.accounts[id], l.totalFrozen, frozen);
    ColumnStep(l.accounts, SettledOf, id, l'.accounts[id], l.totalSettled, settled);
  }

  /** No operation, with any amount and any outcome, can part the aggregates from the map. */
  lemma TotalsPreserved(l: Ledger, id: uint64, amount: int64, now: uint64)
    requires TotalsAgree(l)
    ensures TotalsAgree(Freeze(l, id, amount, now).0)
    ensures TotalsAgree(Unfreeze(l, id, amount, now).0)
    ensures TotalsAgree(Debit(l, id, amount, now).0)
    ensures TotalsAgree(Credit(l, id, amount, now).0)
    ensures TotalsAgree(InitAccount(l, id, amount, now))
  {
    var a: int := amount;
    UnsignedId(l.totalFrozen);
    UnsignedId(l.totalSettled);
    hide Unsigned;
    if Freeze(l, id, amount, now).1 == OK { TotalsStep(l, Freeze(l, id, amount, now).0, id, a, 0); }
    if Unfreeze(l, id, amount, now).1 == OK { TotalsStep(l, Unfreeze(l, id, amount, now).0, id, -a, 0); }
    if Debit(l, id, amount, now).1 == OK { TotalsStep(l, Debit(l, id, amount, now).0, id, -a, a); }
    if Credit(l, id, amount, now).1 == OK { TotalsStep(l, Credit(l, id, amount, now).0, id, 0, 0); }
    if id !in l.accounts { TotalsStep(l, InitAccount(l, id, amount, now), id, 0, 0); }
  }
}

/** The mutable ledger, each method tied to the operation it performs. */
module LedgerStore {
  import opened Word
  import opened Sums
  import opened LedgerSpec

  /** Overflow-safe addition: says whether the sum leaves `int64_t`; the sum is exact otherwise. */
  method AddOverflow(a: int64, b: int64) returns (overflow: bool, sum: int64)
    ensures overflow <==> !FitsInt64(a + b)
    ensures !overflow ==> sum == a + b
  {
    sum := 0;
    if b > 0 && a > INT64_MAX - b { return true, sum; }
    if b < 0 && a < INT64_MIN - b { return true, sum; }
    return false, a + b;
  }

  /** What is still to be added: the accumulator plus the remaining accounts give the whole sum. */
  ghost predicate Pending(acc: uint64, f: Balance -> int, rest: map<uint64, Balance>, state: map<uint64, Balance>) {
    acc == Unsigned(SumOf(state, f) - SumOf(rest, f))
  }

  lemma PendingStep(acc: uint64, f: Balance -> int, rest: map<uint64, Balance>, state: map<uint64, Balance>, id: uint64)
    requires id in rest && Pending(acc, f, rest, state)
    ensures Pending(Unsigned(acc + f(rest[id])), f, rest - {id}, state)
  {
    SumRemove(rest, f, id);
    UnsignedStep(SumOf(state, f) - SumOf(rest, f), f(rest[id]));
  }

  lemma PendingEnds(f: Balance -> int, state: map<uint64, Balance>)
    ensures Pending(0, f, state, state)
    ensures forall acc :: Pending(acc, f, map[], state) ==> acc == Unsigned(SumOf(state, f))
  {
  }

  /** The recomputation loop: one pass over the accounts, in any order. */
  method Recompute(state: map<uint64, Balance>) returns (frozen: uint64, settled: uint64)
    ensures frozen == Unsigned(SumOf(state, FrozenOf))
    ensures settled == Unsigned(SumOf(state, SettledOf))
  {
    hide Unsigned, Pending;
    PendingEnds(FrozenOf, state);
    PendingEnds(SettledOf, state);
    frozen, settled := 0, 0;
    var rest := state;
    while rest != map[]
      invariant Pending(frozen, FrozenOf, rest, state) && Pending(settled, SettledOf, rest, state)
      decreases |rest|
    {
      var id :| id in rest;
      PendingStep(frozen, FrozenOf, rest, state, id);
      PendingStep(settled, SettledOf, rest, state, id);
      frozen, settled := Unsigned(frozen + rest[id].frozen), Unsigned(settled + rest[id].settled);
      rest := rest - {id};
    }
  }

  class Store {
    var accounts: map<uint64, Balance>
    var totalFrozen: uint64
    var totalSettled: uint64

    function View(): LedgerSpec.Ledger
      reads this
    {
      LedgerSpec.Ledger(accounts, totalFrozen, totalSettled)
    }

    constructor ()
      ensures View() == LedgerSpec.Ledger(map[], 0, 0) && TotalsAgree(View())
    {
      accounts, totalFrozen, totalSettled := map[], 0, 0;
    }

    method InitAccount(id: uint64, available: int64, now: uint64)
      modifies this
      ensures View() == LedgerSpec.InitAccount(old(View()), id, available, now)
    {
      if id !in accounts {
        accounts := accounts[id := Balance(available, 0, 0, 0, now)];
      }
    }

    method Freeze(id: uint64, amount: int64, now: uint64) returns (code: Code)
      modifies this
      ensures (View(), code) == LedgerSpec.Freeze(old(View()), id, amount, now)
    {
      if id !in accounts { return AccountNotFound; }
      var bal := accounts[id];
      if bal.available < amount { return InsufficientFunds; }
      var overflow, newFrozen := AddOverflow(bal.frozen, amount);
      if overflow { return OverflowDetected; }
      accounts := accounts[id := Balance(Wrap(bal.available - amount), newFrozen, bal.settled, Next(bal.version), now)];
      totalFrozen := Unsigned(totalFrozen + amount);
      return OK;
    }

    method Unfreeze(id: uint64, amount: int64, now: uint64) returns (code: Code)
      modifies this
      ensures (View(), code) == LedgerSpec.Unfreeze(old(View()), id, amount, now)
    {
      if id !in accounts { return AccountNotFound; }
      var bal := accounts[id];
      if bal.frozen < amount { return InsufficientFunds; }
      var overflow, newAvailable := AddOverflow(bal.available, amount);
      if overflow { return OverflowDetected; }
      accounts := accounts[id := Balance(newAvailable, Wrap(bal.frozen - amount), bal.settled, Next(bal.version), now)];
      totalFrozen := Unsigned(totalFrozen - amount);
      return OK;
    }

    method Debit(id: uint64, amount: int64, now: uint64) returns (code: Code)
      modifies this
      ensures (View(), code) == LedgerSpec.Debit(old(View()), id, amount, now)
    {
      if id !in accounts { return AccountNotFound; }
      var bal := accounts[id];
      if bal.frozen < amount { return InsufficientFunds; }
      var overflow, newSettled := AddOverflow(bal.settled, amount);
      if overflow { return OverflowDetected; }
      accounts := accounts[id := Balance(bal.available, Wrap(bal.frozen - amount), newSettled, Next(bal.version), now)];
      totalFrozen := Unsigned(totalFrozen - amount);
      totalSettled := Unsigned(totalSettled + amount);
      return OK;
    }

    method Credit(id: uint64, amount: int64, now: uint64) returns (code: Code)
      modifies this
      ensures (View(), code) == LedgerSpec.Credit(old(View()), id, amount, now)
    {
      if id !in accounts {
        accounts := accounts[id := Balance(amount, 0, 0, 0, now)];
        return OK;
      }
      var bal := accounts[id];
      var overflow, newAvailable := AddOverflow(bal.available, amount);
      if overflow { return OverflowDetected; }
      accounts := accounts[id := bal.(available := newAvailable, version := Next(bal.version), updatedAt := now)];
      return OK;
    }

    /** Replaces every balance and recomputes both aggregates. */
    method Restore(state: map<uint64, Balance>)
      modifies this
      ensures View() == Restored(state) && TotalsAgree(View())
    {
      accounts := state;
      totalFrozen, totalSettled := Recompute(state);
    }
  }
}
