/** Stored balances and the guarded UPDATE statements on them, each one atomic. A database error (a
    lost connection, a value outside BIGINT) leaves the row alone and is a parameter of the callers. */
module Accounts {
  datatype Account = Account(available: int, frozen: int, settled: int)

  type Rows = map<string, Account>

  function Total(a: Account): int {
    a.available + a.frozen + a.settled
  }

  /** The row after an update and whether a row matched its WHERE clause. */
  function Freeze(t: Rows, id: string, n: int): (Rows, bool) {
    if id in t && t[id].available >= n
    then (t[id := t[id].(available := t[id].available - n, frozen := t[id].frozen + n)], true)
    else (t, false)
  }

  function Unfreeze(t: Rows, id: string, n: int): (Rows, bool) {
    if id in t && t[id].frozen >= n
    then (t[id := t[id].(frozen := t[id].frozen - n, available := t[id].available + n)], true)
    else (t, false)
  }

  function Debit(t: Rows, id: string, n: int): (Rows, bool) {
    if id in t && t[id].frozen >= n
    then (t[id := t[id].(frozen := t[id].frozen - n, settled := t[id].settled + n)], true)
    else (t, false)
  }

  /** Crediting an account that does not exist is not an error: no row changes. */
  function Credit(t: Rows, id: string, n: int): Rows {
    if id in t then t[id := t[id].(available := t[id].available + n)] else t
  }

  /** Releasing a hold undoes taking it, whatever else the account holds, if nothing frozen is negative. */
  lemma UnfreezeUndoesFreeze(t: Rows, id: string, n: int)
    requires Freeze(t, id, n).1 && 0 <= t[id].frozen
    ensures Unfreeze(Freeze(t, id, n).0, id, n) == (t, true)
  {
    var u := Unfreeze(Freeze(t, id, n).0, id, n).0;
    assert u[id] == t[id];
    assert u == t;
  }
}

/** Reserve, execute, commit or release: any number of transactions on one source account at once. */
module Orchestrator {
  import opened Accounts

  /** Where one transaction is; each carries its total debit. */
  datatype Tx =
    | Created(amount: int)
    | Reserved(amount: int)
    | Executed(amount: int)
    | ExecuteRefused(amount: int)
    | ReserveFailed(amount: int)
    | ExecuteFailed(amount: int, released: bool)
    | CommitFailed(amount: int)
    | Succeeded(amount: int)

  /** `net` is what each transaction did to the account so far, and `credited` what all credits did. */
  datatype State = State(account: Account, txs: seq<Tx>, net: seq<Account>, credited: int)

  /** `Execute` is the caller's business logic; `Deposit` is any credit to the account, from it or
      from elsewhere. */
  datatype Action = Reserve(i: nat) | Execute(i: nat, ok: bool) | Release(i: nat) | Commit(i: nat) | Deposit(n: nat)

  function Plus(a: Account, available: int, frozen: int, settled: int): Account {
    Account(a.available + available, a.frozen + frozen, a.settled + settled)
  }

  function Moved(s: State, i: nat, tx: Tx, available: int, frozen: int, settled: int): State
    requires i < |s.txs| && |s.net| == |s.txs|
  {
    s.(account := Plus(s.account, available, frozen, settled), txs := s.txs[i := tx],
       net := s.net[i := Plus(s.net[i], available, frozen, settled)])
  }

  /** The step of an action; the database calls are the guarded updates of `Accounts`. */
  function Next(s: State, a: Action): State {
    if a.Deposit? then s.(account := s.account.(available := s.account.available + a.n), credited := s.credited + a.n)
    else if a.i >= |s.txs| || |s.net| != |s.txs| then s
    else
      var tx := s.txs[a.i];
      var n := tx.amount;
      match a
      case Reserve(i) =>
        if !tx.Created? then s
        else if s.account.available >= n then Moved(s, i, Reserved(n), -n, n, 0)
        else Moved(s, i, ReserveFailed(n), 0, 0, 0)
      case Execute(i, ok) =>
        if !tx.Reserved? then s else Moved(s, i, if ok then Executed(n) else ExecuteRefused(n), 0, 0, 0)
      case Release(i) =>
        if !tx.ExecuteRefused? then s
        else if s.account.frozen >= n then Moved(s, i, ExecuteFailed(n, true), n, -n, 0)
        else Moved(s, i, ExecuteFailed(n, false), 0, 0, 0)
      case Commit(i) =>
        if !tx.Executed? then s
        else if s.account.frozen >= n then Moved(s, i, Succeeded(n), 0, -n, n)
        else Moved(s, i, CommitFailed(n), 0, 0, 0)
  }

  function Run(s: State, actions: seq<Action>): State {
    if actions == [] then s else Next(Run(s, actions[..|actions| - 1]), actions[|actions| - 1])
  }

  function Start(base: Account, amounts: seq<int>): State {
    State(base, seq(|amounts|, i requires 0 <= i < |amounts| => Created(amounts[i])),
          seq(|amounts|, _ => Account(0, 0, 0)), 0)
  }

  /** A commit or a release that found too little frozen money: the hold stays. */
  predicate Failed(tx: Tx) {
    tx.CommitFailed? || (tx.ExecuteFailed? && !tx.released)
  }

  function Held(tx: Tx): int {
    if tx.Reserved? || tx.Executed? || tx.ExecuteRefused? || Failed(tx) then tx.amount else 0
  }

  /** The sum of all outstanding reservations. */
  function Outstanding(txs: seq<Tx>): int {
    if txs == [] then 0 else Outstanding(txs[..|txs| - 1]) + Held(txs[|txs| - 1])
  }

  lemma {:induction false} OutstandingUpdate(txs: seq<Tx>, i: nat, tx: Tx)
    requires i < |txs|
    ensures Outstanding(txs[i := tx]) == Outstanding(txs) - Held(txs[i]) + Held(tx)
  {
    hide Held;
    var n := |txs| - 1;
    if i < n {
      assert txs[i := tx][..n] == txs[..n][i := tx];
      OutstandingUpdate(txs[..n], i, tx);
    } else {
      assert txs[n := tx][..n] == txs[..n];
    }
  }

  /** The effect on the account that a transaction must have had, by where it is. */
  function Effect(tx: Tx): Account {
    match tx
    case Reserved(n) => Account(-n, n, 0)
    case Executed(n) => Account(-n, n, 0)
    case ExecuteRefused(n) => Account(-n, n, 0)
    case CommitFailed(n) => Account(-n, n, 0)
    case ExecuteFailed(n, released) => if released then Account(0, 0, 0) else Account(-n, n, 0)
    case Succeeded(n) => Account(-n, 0, n)
    case _ => Account(0, 0, 0)
  }

  ghost predicate AmountsAre(txs: seq<Tx>, amounts: seq<int>) {
    |txs| == |amounts| && forall i | 0 <= i < |txs| :: txs[i].amount == amounts[i]
  }

  ghost predicate NonNegative(amounts: seq<int>) {
    forall i | 0 <= i < |amounts| :: amounts[i] >= 0
  }

  ghost predicate Inv(base: Account, amounts: seq<int>, s: State) {
    && |s.net| == |s.txs| && AmountsAre(s.txs, amounts)
    && s.account.frozen == base.frozen + Outstanding(s.txs)
    && Total(s.account) == Total(base) + s.credited
    && s.credited >= 0
    && (base.available >= 0 && NonNegative(amounts) ==> s.account.available >= 0)
    && (forall i | 0 <= i < |s.txs| :: s.net[i] == Effect(s.txs[i]))
  }

  /** What a step of one transaction has to respect. */
  lemma MovedKeepsInv(base: Account, amounts: seq<int>, s: State, i: nat, tx: Tx, available: int, frozen: int,
                      settled: int)
    requires Inv(base, amounts, s) && i < |s.txs| && tx.amount == s.txs[i].amount
    requires available + frozen + settled == 0
    requires s.account.available >= 0 && NonNegative(amounts) ==> s.account.available + available >= 0
    requires frozen == Held(tx) - Held(s.txs[i])
    requires Effect(tx) == Plus(Effect(s.txs[i]), available, frozen, settled)
    ensures Inv(base, amounts, Moved(s, i, tx, available, frozen, settled))
  {
    OutstandingUpdate(s.txs, i, tx);
    hide Outstanding, Effect, Held, NonNegative;
  }

  lemma NextKeepsInv(base: Account, amounts: seq<int>, s: State, a: Action)
    requires Inv(base, amounts, s)
    ensures Inv(base, amounts, Next(s, a))
  {
    if !a.Deposit? && a.i < |s.txs| {
      var i, tx := a.i, s.txs[a.i];
      var n := tx.amount;
      assert NonNegative(amounts) ==> n >= 0;
      hide Inv, Moved, NonNegative;
      match a
      case Reserve(_) =>
        if tx.Created? {
          if s.account.available >= n { MovedKeepsInv(base, amounts, s, i, Reserved(n), -n, n, 0); }
          else { MovedKeepsInv(base, amounts, s, i, ReserveFailed(n), 0, 0, 0); }
        }
      case Execute(_, ok) =>
        if tx.Reserved? { MovedKeepsInv(base, amounts, s, i, if ok then Executed(n) else ExecuteRefused(n), 0, 0, 0); }
      case Release(_) =>
        if tx.ExecuteRefused? {
          if s.account.frozen >= n { MovedKeepsInv(base, amounts, s, i, ExecuteFailed(n, true), n, -n, 0); }
          else { MovedKeepsInv(base, amounts, s, i, ExecuteFailed(n, false), 0, 0, 0); }
        }
      case Commit(_) =>
        if tx.Executed? {
          if s.account.frozen >= n { MovedKeepsInv(base, amounts, s, i, Succeeded(n), 0, -n, n); }
          else { MovedKeepsInv(base, amounts, s, i, CommitFailed(n), 0, 0, 0); }
        }
    }
  }

  /** In every interleaving of any number of transactions, with any amounts: the frozen balance is its
      base plus the sum of the outstanding reservations; the three balances together change only by
      credits; a transaction that is refused, or fails to execute and is released, has had no net effect
      on the account, and a successful one has moved exactly its total debit to settled. Without
      negative amounts the available balance never goes negative. */
  lemma {:induction false} Safety(base: Account, amounts: seq<int>, actions: seq<Action>)
    ensures Inv(base, amounts, Run(Start(base, amounts), actions))
  {
    hide Next, Inv;
    if actions == [] {
      NothingOutstanding(base, amounts);
    } else {
      var n := |actions| - 1;
      Safety(base, amounts, actions[..n]);
      NextKeepsInv(base, amounts, Run(Start(base, amounts), actions[..n]), actions[n]);
    }
  }

  lemma {:induction false} AllCreated(txs: seq<Tx>)
    requires forall i | 0 <= i < |txs| :: txs[i].Created?
    ensures Outstanding(txs) == 0
  {
    if txs != [] {
      AllCreated(txs[..|txs| - 1]);
    }
  }

  lemma NothingOutstanding(base: Account, amounts: seq<int>)
    ensures Inv(base, amounts, Start(base, amounts))
  {
    AllCreated(Start(base, amounts).txs);
  }

  /** The steps are the guarded updates of the account's row. */
  lemma StepsAreUpdates(s: State, i: nat, t: Rows, id: string)
    requires i < |s.txs| && |s.net| == |s.txs| && id in t && t[id] == s.account
    ensures var n := s.txs[i].amount;
      && (s.txs[i].Created? ==>
            var r, u := Next(s, Reserve(i)), Freeze(t, id, n);
            r.account == u.0[id] && r.txs[i] == if u.1 then Reserved(n) else ReserveFailed(n))
      && (s.txs[i].ExecuteRefused? ==>
            var r, u := Next(s, Release(i)), Unfreeze(t, id, n);
            r.account == u.0[id] && r.txs[i] == ExecuteFailed(n, u.1))
      && (s.txs[i].Executed? ==>
            var r, u := Next(s, Commit(i)), Debit(t, id, n);
            r.account == u.0[id] && r.txs[i] == if u.1 then Succeeded(n) else CommitFailed(n))
  {
  }

  // ---- when commits and releases can fail ----

  function Negative(n: int): int {
    if n < 0 then n else 0
  }

  /** The sum of the negative amounts among the first `k`, leaving out the one at `i`. */
  function NegativeOthers(amounts: seq<int>, i: nat, k: nat): int
    requires k <= |amounts|
  {
    if k == 0 then 0 else NegativeOthers(amounts, i, k - 1) + if k - 1 == i then 0 else Negative(amounts[k - 1])
  }

  /** Whatever the other transactions "reserve" with negative amounts, the base covers it. */
  ghost predicate Covered(base: Account, amounts: seq<int>) {
    forall i | 0 <= i < |amounts| :: base.frozen + NegativeOthers(amounts, i, |amounts|) >= 0
  }

  ghost predicate NoneFailed(s: State) {
    forall i | 0 <= i < |s.txs| :: !Failed(s.txs[i])
  }

  lemma {:induction false} OthersHold(txs: seq<Tx>, amounts: seq<int>, i: nat, k: nat)
    requires AmountsAre(txs, amounts) && k <= |txs|
    ensures Outstanding(txs[..k]) - (if i < k then Held(txs[i]) else 0) >= NegativeOthers(amounts, i, k)
  {
    if k > 0 {
      OthersHold(txs, amounts, i, k - 1);
      assert txs[..k][..k - 1] == txs[..k - 1];
    }
  }

  lemma NextFailsNone(base: Account, amounts: seq<int>, s: State, a: Action)
    requires Inv(base, amounts, s) && NoneFailed(s) && Covered(base, amounts)
    ensures NoneFailed(Next(s, a))
  {
    if !a.Deposit? && a.i < |s.txs| {
      OthersHold(s.txs, amounts, a.i, |s.txs|);
      assert s.txs[..|s.txs|] == s.txs;
      assert s.txs[a.i].Executed? || s.txs[a.i].ExecuteRefused? ==> s.account.frozen >= s.txs[a.i].amount;
      hide Outstanding, Effect, Covered, NegativeOthers;
    }
  }

  lemma {:induction false} CoveredNeverFails(base: Account, amounts: seq<int>, actions: seq<Action>)
    requires Covered(base, amounts)
    ensures NoneFailed(Run(Start(base, amounts), actions))
  {
    hide Next, Inv, Covered;
    if actions != [] {
      var n := |actions| - 1;
      Safety(base, amounts, actions[..n]);
      CoveredNeverFails(base, amounts, actions[..n]);
      NextFailsNone(base, amounts, Run(Start(base, amounts), actions[..n]), actions[n]);
    }
  }

  lemma RunStep(s: State, actions: seq<Action>, a: Action)
    ensures Run(s, actions + [a]) == Next(Run(s, actions), a)
  {
    assert (actions + [a])[..|actions|] == actions;
  }

  /** The state after every negative amount among the first `k` but the one at `i` was reserved. */
  ghost predicate Drained(base: Account, amounts: seq<int>, i: nat, k: nat, money: int, s: State)
    requires k <= |amounts|
  {
    && AmountsAre(s.txs, amounts) && |s.net| == |s.txs|
    && s.account.frozen == base.frozen + NegativeOthers(amounts, i, k)
    && s.account.available >= money
    && (forall j | 0 <= j < |s.txs| && (j >= k || j == i) :: s.txs[j].Created?)
  }

  /** A run that reserves these negative amounts, after depositing enough for the one at `i`. */
  lemma {:induction false} Drain(base: Account, amounts: seq<int>, i: nat, k: nat, money: nat)
    returns (actions: seq<Action>)
    requires k <= |amounts|
    ensures Drained(base, amounts, i, k, money, Run(Start(base, amounts), actions))
  {
    var s := Start(base, amounts);
    if k == 0 {
      var d: nat := money + (if base.available < 0 then -base.available else 0);
      actions := [] + [Deposit(d)];
      RunStep(s, [], Deposit(d));
    } else {
      actions := Drain(base, amounts, i, k - 1, money);
      var t := Run(s, actions);
      hide Run, Start;
      if k - 1 != i && amounts[k - 1] < 0 {
        RunStep(s, actions, Reserve(k - 1));
        assert t.txs[k - 1] == Created(amounts[k - 1]);
        actions := actions + [Reserve(k - 1)];
      }
    }
  }

  /** A base that does not cover them lets a commit fail, although its business logic ran. */
  lemma UncoveredFails(base: Account, amounts: seq<int>, i: nat) returns (actions: seq<Action>)
    requires i < |amounts| && base.frozen + NegativeOthers(amounts, i, |amounts|) < 0
    ensures var s := Run(Start(base, amounts), actions);
      |s.txs| == |amounts| && s.txs[i] == CommitFailed(amounts[i])
  {
    var s := Start(base, amounts);
    var n := amounts[i];
    actions := Drain(base, amounts, i, |amounts|, if n > 0 then n else 0);
    var t := Run(s, actions);
    assert t.txs[i] == Created(n);
    RunStep(s, actions, Reserve(i));
    RunStep(s, actions + [Reserve(i)], Execute(i, true));
    RunStep(s, actions + [Reserve(i)] + [Execute(i, true)], Commit(i));
    hide Run, Start, NegativeOthers;
    actions := actions + [Reserve(i)] + [Execute(i, true)] + [Commit(i)];
  }

  /** Exactly when no interleaving lets a commit or a release fail: nothing in the code refuses negative
      total debits, which "reserve" money out of the other transactions' holds, so the frozen balance at
      the start has to cover all of them but the transaction's own. Without negative amounts it does. */
  lemma NeverFailsExactly(base: Account, amounts: seq<int>)
    ensures (forall actions :: NoneFailed(Run(Start(base, amounts), actions))) <==>
      (forall i | 0 <= i < |amounts| :: base.frozen + NegativeOthers(amounts, i, |amounts|) >= 0)
  {
    hide Run, Start, NegativeOthers;
    if Covered(base, amounts) {
      forall actions
        ensures NoneFailed(Run(Start(base, amounts), actions))
      {
        CoveredNeverFails(base, amounts, actions);
      }
    } else {
      var i: nat :| i < |amounts| && base.frozen + NegativeOthers(amounts, i, |amounts|) < 0;
      var actions := UncoveredFails(base, amounts, i);
      assert !NoneFailed(Run(Start(base, amounts), actions));
    }
  }

  /** With amounts of zero and more, a starting balance that is not negative is enough. */
  lemma {:induction false} NoNegativeOthers(amounts: seq<int>, i: nat, k: nat)
    requires k <= |amounts| && NonNegative(amounts)
    ensures NegativeOthers(amounts, i, k) == 0
  {
    if k > 0 {
      NoNegativeOthers(amounts, i, k - 1);
    }
  }

  lemma NonNegativeNeverFails(base: Account, amounts: seq<int>, actions: seq<Action>)
    requires base.frozen >= 0 && NonNegative(amounts)
    ensures NoneFailed(Run(Start(base, amounts), actions))
  {
    forall i | 0 <= i < |amounts|
      ensures base.frozen + NegativeOthers(amounts, i, |amounts|) >= 0
    {
      NoNegativeOthers(amounts, i, |amounts|);
    }
    CoveredNeverFails(base, amounts, actions);
  }

  /** One such run, with two transactions: the second takes money out of the first one's hold. */
  lemma NegativeDebitBreaksCommit(base: Account, n: int, m: int)
    requires base.frozen == 0 <= n <= base.available && m < 0
    ensures Run(Start(base, [n, m]), [Reserve(0), Execute(0, true), Reserve(1), Commit(0)]).txs
      == [CommitFailed(n), Reserved(m)]
  {
    var s := Start(base, [n, m]);
    var a: seq<Action> := [Reserve(0), Execute(0, true), Reserve(1), Commit(0)];
    assert s.txs == [Created(n), Created(m)];
    forall k: nat | k < 4
      ensures Run(s, a[..k + 1]) == Next(Run(s, a[..k]), a[k])
    {
      assert a[..k + 1][..k] == a[..k];
    }
    var s1, s2 := Next(s, Reserve(0)), Next(Next(s, Reserve(0)), Execute(0, true));
    assert Run(s, a[..1]) == s1 && Run(s, a[..2]) == s2;
    assert s1.txs == [Reserved(n), Created(m)] && s2.txs == [Executed(n), Created(m)];
    assert Run(s, a[..3]).txs == [Executed(n), Reserved(m)];
    assert a[..4] == a;
  }
}

/** The account repository and the orchestrator as objects. */
module AccountStore {
  import opened Accounts

  datatype Outcome = ReserveFailed | ExecuteFailed | CommitFailed | Succeeded

  class Repository {
    var rows: Rows

    constructor (rows: Rows)
      ensures this.rows == rows
    {
      this.rows := rows;
    }

    /** Every method takes whether the database reports an error, in which case nothing changes. */
    method FreezeFunds(id: string, amount: int, dbError: bool) returns (ok: bool)
      modifies this
      ensures (rows, ok) == if dbError then (old(rows), false) else Freeze(old(rows), id, amount)
    {
      if dbError || id !in rows || rows[id].available < amount { return false; }
      var a := rows[id];
      rows := rows[id := Account(a.available - amount, a.frozen + amount, a.settled)];
      return true;
    }

    method UnfreezeFunds(id: string, amount: int, dbError: bool) returns (ok: bool)
      modifies this
      ensures (rows, ok) == if dbError then (old(rows), false) else Unfreeze(old(rows), id, amount)
    {
      if dbError || id !in rows || rows[id].frozen < amount { return false; }
      var a := rows[id];
      rows := rows[id := Account(a.available + amount, a.frozen - amount, a.settled)];
      return true;
    }

    method DebitAccount(id: string, amount: int, dbError: bool) returns (ok: bool)
      modifies this
      ensures (rows, ok) == if dbError then (old(rows), false) else Debit(old(rows), id, amount)
    {
      if dbError || id !in rows || rows[id].frozen < amount { return false; }
      var a := rows[id];
      rows := rows[id := Account(a.available, a.frozen - amount, a.settled + amount)];
      return true;
    }

    /** The number of affected rows is not looked at. */
    method CreditAccount(id: string, amount: int, dbError: bool) returns (ok: bool)
      modifies this
      ensures ok <==> !dbError
      ensures rows == if dbError then old(rows) else Credit(old(rows), id, amount)
    {
      if dbError { return false; }
      if id in rows {
        rows := rows[id := rows[id].(available := rows[id].available + amount)];
      }
      return true;
    }

    method AddAvailableBalance(id: string, amount: int, dbError: bool) returns (ok: bool)
      modifies this
      ensures ok <==> !dbError && id in old(rows)
      ensures rows == if dbError then old(rows) else Credit(old(rows), id, amount)
    {
      if dbError || id !in rows { return false; }
      rows := rows[id := rows[id].(available := rows[id].available + amount)];
      return true;
    }

    /** One transaction without interference. `executes` is the result of the business logic, which
        itself is left to the caller; the flags are the database errors of the three calls. The money
        of a transaction that fails to execute comes back unless releasing it hits a database error. */
    method ExecuteTransaction(source: string, total: int, executes: bool, reserveError: bool, settleError: bool)
      returns (outcome: Outcome)
      requires source in rows ==> rows[source].frozen >= 0
      modifies this
      ensures outcome == Succeeded <==>
        !reserveError && source in old(rows) && old(rows)[source].available >= total && executes && !settleError
      ensures outcome == ReserveFailed <==>
        reserveError || source !in old(rows) || old(rows)[source].available < total
      ensures outcome == ExecuteFailed ==> !executes
      ensures outcome == CommitFailed ==> executes
      ensures outcome == ReserveFailed ==> rows == old(rows)
      ensures outcome == ExecuteFailed && settleError ==> rows == Freeze(old(rows), source, total).0
      ensures outcome == ExecuteFailed && !settleError ==> rows == old(rows)
      ensures outcome == CommitFailed ==> settleError && rows == Freeze(old(rows), source, total).0
      ensures outcome == Succeeded ==>
        rows == old(rows)[source := Account(old(rows)[source].available - total, old(rows)[source].frozen,
                                            old(rows)[source].settled + total)]
    {
      var ok := FreezeFunds(source, total, reserveError);
      if !ok { return ReserveFailed; }
      UnfreezeUndoesFreeze(old(rows), source, total);
      if !executes {
        var _ := UnfreezeFunds(source, total, settleError);
        return ExecuteFailed;
      }
      ok := DebitAccount(source, total, settleError);
      if !ok { return CommitFailed; }
      return Succeeded;
    }
  }
}
