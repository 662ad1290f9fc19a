/** The payment saga: eight steps, their compensations in reverse, and every pattern of failures. */
module Saga {
  import opened Word
  import opened PaymentStatus
  import opened Accounts
  import opened AccountStore
  import Settlement

  /** The account names are those derived from the source currency. */
  datatype Order = Order(senderUser: string, receiverUser: string, sourceCurrency: string, targetCurrency: string,
                         source: int64, target: int64, fee: int64, settlementAccount: string, feeAccount: string)

  function TotalOf(o: Order): int64 {
    Wrap(o.source + o.fee)
  }

  lemma TotalIsSum(o: Order)
    ensures FitsInt64(o.source + o.fee) ==> TotalOf(o) == o.source + o.fee
  {
  }

  /** Which account a user holds in a currency. */
  type Owners = map<(string, string), string>

  const STEPS: nat := 8
  const FUNDS_FREEZE: nat := 2
  const PAYMENT_EXECUTING: nat := 3
  const PAYMENT_CONFIRMED: nat := 4
  const SETTLEMENT: nat := 5

  predicate HasCompensation(step: nat) {
    step == FUNDS_FREEZE || step == PAYMENT_CONFIRMED || step == SETTLEMENT
  }

  /** The compensations due for the completed steps, last one first. */
  function Compensations(completed: seq<nat>): seq<nat> {
    if completed == [] then [] else
      var last := completed[|completed| - 1];
      (if HasCompensation(last) then [last] else []) + Compensations(completed[..|completed| - 1])
  }

  lemma NoCompensations()
    ensures Compensations([]) == []
  {
  }

  /** One step back through the completed steps. */
  lemma CompensationsBack(done: seq<nat>, completed: seq<nat>, k: nat)
    requires k < |completed|
    ensures var step := completed[k];
      done + Compensations(completed[..k + 1]) ==
        (if HasCompensation(step) then done + [step] else done) + Compensations(completed[..k])
  {
    assert completed[..k + 1][..k] == completed[..k];
  }

  /** Position in the normal flow, or -1. */
  function Position(s: Status): int {
    match s
    case Created => 0
    case QuoteLocked => 1
    case CompliancePrechecked => 2
    case Pending => 3
    case Executing => 4
    case Confirmed => 5
    case SettlementProofed => 6
    case Reconciled => 7
    case Closed => 8
    case _ => -1
  }

  /** The i-th status of the flow; step `i` leads from the i-th to the next. */
  function FlowAt(i: nat): Status
    requires i <= STEPS
  {
    match i
    case 0 => Status.Created
    case 1 => QuoteLocked
    case 2 => CompliancePrechecked
    case 3 => Pending
    case 4 => Executing
    case 5 => Confirmed
    case 6 => SettlementProofed
    case 7 => Reconciled
    case _ => Closed
  }

  lemma FlowPosition(i: nat, s: Status)
    requires i <= STEPS
    ensures FlowAt(i) == s <==> Position(s) == i
    ensures Position(s) <= STEPS
  {
  }

  method IsStatusAtOrAfter(current: Status, target: Status) returns (r: bool)
    ensures r <==> Position(current) >= Position(target)
  {
    FlowPosition(0, current);
    FlowPosition(0, target);
    hide FlowAt, Position;
    var ci, ti := -1, -1;
    for i := 0 to STEPS + 1
      invariant ci == if Position(current) < i then Position(current) else -1
      invariant ti == if Position(target) < i then Position(target) else -1
    {
      FlowPosition(i, current);
      FlowPosition(i, target);
      if FlowAt(i) == current { ci := i; }
      if FlowAt(i) == target { ti := i; }
    }
    r := ci >= ti;
  }

  // ---- what the steps do to the accounts ----

  function WithAccount(t: Rows, id: string): Rows {
    if id in t then t else t[id := Account(0, 0, 0)]
  }

  /** Sender debited, receiver and fee account credited. */
  function Paid(t: Rows, o: Order, sender: string, receiver: string): Rows {
    Credit(Credit(WithAccount(Debit(t, sender, TotalOf(o)).0, receiver), receiver, o.target), o.feeAccount, o.fee)
  }

  /** The sender gets the total as available money; of the receiver's and the fee account's frozen money as
      much is settled, if there is enough. */
  function GivenBack(t: Rows, o: Order, owners: Owners, sender: string): Rows {
    var t1 := Credit(t, sender, TotalOf(o));
    var receiver := (o.receiverUser, o.targetCurrency);
    var t2 := if receiver in owners then Debit(t1, owners[receiver], o.target).0 else t1;
    Debit(t2, o.feeAccount, o.fee).0
  }

  /** What compensating a step does to the accounts; compensating the settlement touches none. */
  function Undo(t: Rows, o: Order, owners: Owners, step: nat): Rows {
    var sender := (o.senderUser, o.sourceCurrency);
    if sender !in owners then t
    else if step == FUNDS_FREEZE then Unfreeze(t, owners[sender], TotalOf(o)).0
    else if step == PAYMENT_CONFIRMED then GivenBack(t, o, owners, owners[sender])
    else t
  }

  function UndoAll(t: Rows, o: Order, owners: Owners, steps: seq<nat>): Rows {
    if steps == [] then t
    else Undo(UndoAll(t, o, owners, steps[..|steps| - 1]), o, owners, steps[|steps| - 1])
  }

  lemma UndoOneMore(t: Rows, o: Order, owners: Owners, steps: seq<nat>, step: nat)
    ensures UndoAll(t, o, owners, steps + [step]) == Undo(UndoAll(t, o, owners, steps), o, owners, step)
  {
    assert (steps + [step])[..|steps|] == steps;
  }

  lemma CreditKeepsTotal(t: Rows, id: string, n: int, x: string)
    ensures Credit(t, id, n).Keys == t.Keys
    ensures Total(At(Credit(t, id, n), x)) == Total(At(t, x)) + if x == id && id in t then n else 0
  {
    hide Credit, At;
    CreditAt(t, id, n, x);
  }

  lemma DebitAt(t: Rows, id: string, n: int, x: string)
    ensures Debit(t, id, n).0.Keys == t.Keys
    ensures At(Debit(t, id, n).0, x) ==
      if x == id && id in t && t[id].frozen >= n
      then At(t, x).(frozen := At(t, x).frozen - n, settled := At(t, x).settled + n) else At(t, x)
  {
  }

  lemma UnfreezeAt(t: Rows, id: string, n: int, x: string)
    ensures Unfreeze(t, id, n).0.Keys == t.Keys
    ensures At(Unfreeze(t, id, n).0, x) ==
      if x == id && id in t && t[id].frozen >= n
      then At(t, x).(frozen := At(t, x).frozen - n, available := At(t, x).available + n) else At(t, x)
  {
  }

  lemma DebitKeepsTotal(t: Rows, id: string, n: int, x: string)
    ensures Total(At(Debit(t, id, n).0, x)) == Total(At(t, x)) && Debit(t, id, n).0.Keys == t.Keys
  {
    hide Debit, At;
    DebitAt(t, id, n, x);
  }

  lemma UnfreezeKeepsTotal(t: Rows, id: string, n: int, x: string)
    ensures Total(At(Unfreeze(t, id, n).0, x)) == Total(At(t, x)) && Unfreeze(t, id, n).0.Keys == t.Keys
  {
    hide Unfreeze, At;
    UnfreezeAt(t, id, n, x);
  }

  /** A refund lowers no account: in every table, the sender's three balances together grow by the total,
      and those of no other account change. Taking frozen money only settles it where it is. */
  lemma RefundTakesNothing(t: Rows, o: Order, owners: Owners, sender: string, x: string)
    ensures GivenBack(t, o, owners, sender).Keys == t.Keys
    ensures Total(At(GivenBack(t, o, owners, sender), x)) ==
      Total(At(t, x)) + if x == sender && sender in t then TotalOf(o) else 0
  {
    hide Debit, Credit, TotalOf, At;
    var t1 := Credit(t, sender, TotalOf(o));
    var receiver := (o.receiverUser, o.targetCurrency);
    CreditKeepsTotal(t, sender, TotalOf(o), x);
    if receiver in owners {
      DebitKeepsTotal(t1, owners[receiver], o.target, x);
      DebitKeepsTotal(Debit(t1, owners[receiver], o.target).0, o.feeAccount, o.fee, x);
    } else {
      DebitKeepsTotal(t1, o.feeAccount, o.fee, x);
    }
  }

  /** What a debit takes from `frozen` if it can. */
  function Taken(frozen: int, n: int): int {
    if frozen >= n then n else 0
  }

  /** A refund, account by account: the sender's available money grows by the total; of the receiver's frozen
      money the target is settled, if there is that much, and then of the fee account's the fee. Any of the
      three may coincide. */
  lemma RefundMoves(t: Rows, o: Order, owners: Owners, sender: string, x: string)
    requires x in t
    ensures var receiver := (o.receiverUser, o.targetCurrency);
      var target := if receiver in owners && x == owners[receiver] then Taken(t[x].frozen, o.target) else 0;
      var fee := if x == o.feeAccount then Taken(t[x].frozen - target, o.fee) else 0;
      var u := GivenBack(t, o, owners, sender);
      && u.Keys == t.Keys
      && u[x].available == t[x].available + (if x == sender then TotalOf(o) else 0)
      && u[x].frozen == t[x].frozen - target - fee
      && u[x].settled == t[x].settled + target + fee
  {
    hide Debit, Credit, TotalOf;
    var t1 := Credit(t, sender, TotalOf(o));
    var receiver := (o.receiverUser, o.targetCurrency);
    CreditAt(t, sender, TotalOf(o), x);
    if receiver in owners {
      DebitAt(t1, owners[receiver], o.target, x);
      DebitAt(Debit(t1, owners[receiver], o.target).0, o.feeAccount, o.fee, x);
    } else {
      DebitAt(t1, o.feeAccount, o.fee, x);
    }
  }

  /** A refund takes nothing back from parties that have not that much frozen: crediting them made the
      money available. The sender is paid twice over, as settled and as available money. */
  lemma RefundOnlyGives(t: Rows, o: Order, owners: Owners, sender: string)
    requires var receiver := (o.receiverUser, o.targetCurrency);
      receiver in owners && owners[receiver] in t ==> t[owners[receiver]].frozen < o.target
    requires o.feeAccount in t ==> t[o.feeAccount].frozen < o.fee
    ensures GivenBack(t, o, owners, sender) == Credit(t, sender, TotalOf(o))
  {
  }

  /** No account of `t` is lost, and none has less settled in `u`. */
  ghost predicate SettledKept(t: Rows, u: Rows) {
    forall id | id in t :: id in u && t[id].settled <= u[id].settled
  }

  /** What a completed payment moved, account by account; sender, receiver and fee account may coincide. */
  ghost predicate MovedExactly(t: Rows, u: Rows, o: Order, sender: string, receiver: string) {
    && u.Keys == t.Keys + {receiver}
    && forall id | id in u ::
         var a := if id in t then t[id] else Account(0, 0, 0);
         && u[id].available == a.available - (if id == sender then TotalOf(o) else 0)
              + (if id == receiver then o.target else 0) + (if id == o.feeAccount then o.fee else 0)
         && u[id].frozen == a.frozen
         && u[id].settled == a.settled + (if id == sender then TotalOf(o) else 0)
  }

  /** The account under an id; an absent one counts as empty. */
  function At(t: Rows, id: string): Account {
    if id in t then t[id] else Account(0, 0, 0)
  }

  lemma HoldThenDebitAt(t: Rows, sender: string, n: int, id: string)
    requires sender in t && t[sender].available >= n && t[sender].frozen >= 0
    ensures var (held, ok) := Freeze(t, sender, n); ok && Debit(held, sender, n).1
    ensures var u := Debit(Freeze(t, sender, n).0, sender, n).0;
      && u.Keys == t.Keys
      && At(u, id) == if id != sender then At(t, id)
                      else Account(t[id].available - n, t[id].frozen, t[id].settled + n)
  {
  }

  lemma CreditAt(t: Rows, id: string, n: int, x: string)
    ensures Credit(t, id, n).Keys == t.Keys
    ensures At(Credit(t, id, n), x) ==
      if x == id && id in t then At(t, x).(available := At(t, x).available + n) else At(t, x)
  {
  }

  lemma WithAccountAt(t: Rows, id: string, x: string)
    ensures WithAccount(t, id).Keys == t.Keys + {id} && At(WithAccount(t, id), x) == At(t, x)
  {
  }

  lemma PaidMoves(t: Rows, o: Order, sender: string, receiver: string)
    requires sender in t && t[sender].available >= TotalOf(o) && t[sender].frozen >= 0
    ensures Debit(Freeze(t, sender, TotalOf(o)).0, sender, TotalOf(o)).1
    ensures MovedExactly(t, Paid(Freeze(t, sender, TotalOf(o)).0, o, sender, receiver), o, sender, receiver)
  {
    hide Freeze, Debit, Credit, WithAccount, TotalOf;
    var n := TotalOf(o);
    var t1 := Debit(Freeze(t, sender, n).0, sender, n).0;
    var t2 := WithAccount(t1, receiver);
    var t3 := Credit(t2, receiver, o.target);
    var u := Credit(t3, o.feeAccount, o.fee);
    HoldThenDebitAt(t, sender, n, sender);
    WithAccountAt(t1, receiver, receiver);
    CreditAt(t2, receiver, o.target, receiver);
    CreditAt(t3, o.feeAccount, o.fee, receiver);
    forall id | id in u
      ensures At(u, id) == Account(
        At(t, id).available - (if id == sender then n else 0)
          + (if id == receiver then o.target else 0) + (if id == o.feeAccount then o.fee else 0),
        At(t, id).frozen, At(t, id).settled + (if id == sender then n else 0))
    {
      HoldThenDebitAt(t, sender, n, id);
      WithAccountAt(t1, receiver, id);
      CreditAt(t2, receiver, o.target, id);
      CreditAt(t3, o.feeAccount, o.fee, id);
    }
  }

  lemma UpdatesKeepSettled(t: Rows, id: string, n: int)
    ensures SettledKept(t, t) && SettledKept(t, Credit(t, id, n)) && SettledKept(t, Unfreeze(t, id, n).0)
    ensures n >= 0 ==> SettledKept(t, Debit(t, id, n).0)
    ensures Credit(t, id, n).Keys == Debit(t, id, n).0.Keys == Unfreeze(t, id, n).0.Keys == t.Keys
  {
  }

  lemma SettledKeptTwice(t: Rows, u: Rows, v: Rows)
    requires SettledKept(t, u) && SettledKept(u, v)
    ensures SettledKept(t, v)
  {
  }

  lemma CreditsKeep(t: Rows, receiver: string, n: int, feeAccount: string, m: int)
    ensures SettledKept(t, t) && SettledKept(t, WithAccount(t, receiver))
    ensures var u := Credit(WithAccount(t, receiver), receiver, n);
      && SettledKept(t, u) && SettledKept(t, Credit(u, feeAccount, m))
      && u.Keys == Credit(u, feeAccount, m).Keys == WithAccount(t, receiver).Keys == t.Keys + {receiver}
    ensures receiver in t ==> WithAccount(t, receiver) == t
  {
  }

  lemma DebitKeepsKeys(t: Rows, id: string, n: int)
    ensures Debit(t, id, n).0.Keys == t.Keys && SettledKept(Debit(t, id, n).0, Debit(t, id, n).0)
  {
  }

  ghost predicate Steps(history: seq<Status>, status: Status) {
    && history != [] && history[|history| - 1] == status
    && forall i | 1 <= i < |history| :: Permitted(history[i - 1], history[i])
  }

  lemma StepsAppend(history: seq<Status>, status: Status, to: Status)
    requires Steps(history, status)
    ensures Permitted(status, to) ==> Steps(history + [to], to)
  {
    hide Permitted;
  }

  /** The flow's own edges are in the table, and each of its states may fail; a state of the flow reaches
      the (i+1)-st status only from the i-th. */
  lemma FlowEdges(i: nat, s: Status)
    requires i < STEPS
    ensures Permitted(FlowAt(i), FlowAt(i + 1)) && Permitted(FlowAt(i), Failed)
    ensures (Position(s) >= 0 || i == 0) && Permitted(s, FlowAt(i + 1)) ==> s == FlowAt(i)
    ensures Position(FlowAt(i)) == i && Position(FlowAt(i + 1)) == i + 1 && FlowAt(i) != Closed
    ensures i > 0 ==> FlowAt(i - 1) != Closed && Position(FlowAt(i - 1)) == i - 1
  {
    FlowPosition(i, FlowAt(i));
    FlowPosition(i + 1, FlowAt(i + 1));
    if i > 0 { FlowPosition(i - 1, FlowAt(i - 1)); }
  }

  /** Where a database call is made; `Faults` counts those that failed. */
  datatype Where = InStep | InStatus | InCompensation
  datatype Faults = Faults(step: nat, status: nat, compensation: nat)

  datatype Outcome = NotLoaded | Interrupted(step: nat) | StepFailed(step: nat) | Finished

  class Runner {
    const order: Order
    const repo: Repository
    /** The id a new account would get; generated ids are never system account names. */
    const newAccountId: string
    /** Accounts can only be created for known users. */
    const users: set<string>
    var owners: Owners
    var status: Status
    var entries: seq<Settlement.Entry>
    /** The statuses stored, the compensations run, the calls that failed, and whether the sender was debited. */
    ghost var history: seq<Status>
    ghost var compensated: seq<nat>
    ghost var faults: Faults
    ghost var debited: bool

    constructor (order: Order, repo: Repository, newAccountId: string, users: set<string>, owners: Owners,
                 status: Status, entries: seq<Settlement.Entry>)
      ensures this.newAccountId == newAccountId && this.users == users
      ensures this.order == order && this.repo == repo && this.owners == owners && this.status == status
      ensures this.entries == entries && history == [status] && compensated == []
      ensures faults == Faults(0, 0, 0) && !debited
    {
      this.order, this.repo, this.newAccountId, this.users, this.owners := order, repo, newAccountId, users, owners;
      this.status, this.entries := status, entries;
      history, compensated, faults, debited := [status], [], Faults(0, 0, 0), false;
    }

    /** The accounts that users hold are stored. */
    ghost predicate Consistent()
      reads this`owners, repo
    {
      forall k | k in owners :: owners[k] in repo.rows
    }

    function SenderKey(): (string, string) { (order.senderUser, order.sourceCurrency) }
    function ReceiverKey(): (string, string) { (order.receiverUser, order.targetCurrency) }

    /** Any database call may fail, at any time. */
    method Fails(w: Where) returns (failed: bool)
      modifies this`faults
      ensures !failed ==> faults == old(faults)
      ensures failed ==> faults == match w
        case InStep => old(faults).(step := old(faults).step + 1)
        case InStatus => old(faults).(status := old(faults).status + 1)
        case InCompensation => old(faults).(compensation := old(faults).compensation + 1)
    {
      failed := *;
      if failed {
        match w
        case InStep => faults := faults.(step := faults.step + 1);
        case InStatus => faults := faults.(status := faults.status + 1);
        case InCompensation => faults := faults.(compensation := faults.compensation + 1);
      }
    }

    /** The guarded status update; the saga ignores its error. */
    method UpdatePaymentStatus(to: Status)
      requires Steps(history, status)
      modifies this`status, this`history, this`faults
      ensures Steps(history, status)
      ensures faults == old(faults) ==> status == if Permitted(old(status), to) then to else old(status)
      ensures faults != old(faults) ==>
        status == old(status) && faults == old(faults).(status := old(faults).status + 1)
    {
      var failed := Fails(InStatus);
      if failed { return; }
      StepsAppend(history, status, to);
      hide Steps, Permitted;
      var ok, stored := UpdateStored(status, to);
      status := stored;
      if ok {
        history := history + [to];
      }
    }

    // ---- the steps that do something ----

    method ExecuteFreeze() returns (ok: bool)
      requires Consistent()
      modifies this`faults, repo
      ensures Consistent() && FaultsOnlyIn(InStep, old(faults))
      ensures ok ==>
        && SenderKey() in owners
        && (repo.rows, true) == Freeze(old(repo.rows), owners[SenderKey()], TotalOf(order))
      ensures !ok ==> repo.rows == old(repo.rows)
      ensures faults == old(faults) ==>
        (ok <==> SenderKey() in owners && old(repo.rows)[owners[SenderKey()]].available >= TotalOf(order))
    {
      hide TotalOf;
      var failed := Fails(InStep);
      if failed || SenderKey() !in owners { return false; }
      var sender := owners[SenderKey()];
      if repo.rows[sender].available < TotalOf(order) { return false; }
      failed := Fails(InStep);
      ok := repo.FreezeFunds(sender, TotalOf(order), failed);
    }

    twostate predicate FaultsOnlyIn(w: Where, before: Faults)
      reads this
    {
      && faults.step >= before.step && faults.status >= before.status && faults.compensation >= before.compensation
      && (w != InStep ==> faults.step == before.step)
      && (w != InStatus ==> faults.status == before.status)
      && (w != InCompensation ==> faults.compensation == before.compensation)
    }

    /** The receiver has an account or can get one. */
    ghost predicate ReadyReceiver(t0: Rows, o0: Owners) {
      ReceiverKey() in o0 || (newAccountId !in t0 && order.receiverUser in users)
    }

    /** Who holds what once the receiver has an account. */
    function OwnersAfter(o0: Owners): Owners {
      if ReceiverKey() in o0 then o0 else o0[ReceiverKey() := newAccountId]
    }

    /** Finds the receiver's account, or creates one: a failed lookup is treated like a missing account,
        and creating an account that exists violates a unique key. */
    method FindOrCreateReceiver() returns (ok: bool, receiver: string)
      requires Consistent()
      modifies this`faults, this`owners, repo
      ensures Consistent() && FaultsOnlyIn(InStep, old(faults))
      ensures forall k | k in old(owners) :: k in owners && owners[k] == old(owners)[k]
      ensures !ok ==> repo.rows == old(repo.rows) && owners == old(owners)
      ensures ok ==>
        && ReceiverKey() in owners && owners[ReceiverKey()] == receiver
        && repo.rows == WithAccount(old(repo.rows), receiver)
        && (receiver in old(repo.rows) || receiver == newAccountId)
      ensures ok ==> owners == OwnersAfter(old(owners))
      ensures faults == old(faults) ==> (ok <==> ReadyReceiver(old(repo.rows), old(owners)))
    {
      receiver := "";
      var failed := Fails(InStep);
      if !failed && ReceiverKey() in owners {
        return true, owners[ReceiverKey()];
      }
      failed := Fails(InStep);
      if failed || ReceiverKey() in owners || newAccountId in repo.rows || order.receiverUser !in users {
        return false, receiver;
      }
      receiver := newAccountId;
      repo.rows := repo.rows[receiver := Account(0, 0, 0)];
      owners := owners[ReceiverKey() := receiver];
      return true, receiver;
    }

    method ExecuteEngineOp() returns (ok: bool)
      requires Consistent() && !debited
      requires newAccountId != order.settlementAccount && newAccountId != order.feeAccount
      modifies this`faults, this`owners, this`debited, repo
      ensures Consistent() && FaultsOnlyIn(InStep, old(faults))
      ensures forall k | k in old(owners) :: k in owners && owners[k] == old(owners)[k]
      ensures !debited ==> !ok && repo.rows == old(repo.rows) && owners == old(owners)
      ensures debited ==>
        && SenderKey() in old(owners)
        && SettledKept(Debit(old(repo.rows), old(owners)[SenderKey()], TotalOf(order)).0, repo.rows)
        && Debit(old(repo.rows), old(owners)[SenderKey()], TotalOf(order)).1
      ensures ok ==>
        && debited && ReceiverKey() in owners
        && repo.rows == Paid(old(repo.rows), order, owners[SenderKey()], owners[ReceiverKey()])
      ensures ok ==>
        && (order.settlementAccount in repo.rows <==> order.settlementAccount in old(repo.rows))
        && (order.feeAccount in repo.rows <==> order.feeAccount in old(repo.rows))
      ensures faults == old(faults) ==>
        (ok <==>
          && SenderKey() in old(owners)
          && old(repo.rows)[old(owners)[SenderKey()]].frozen >= TotalOf(order)
          && ReadyReceiver(old(repo.rows), old(owners)))
      ensures ok ==> owners == OwnersAfter(old(owners))
      ensures faults == old(faults) ==>
        (debited <==> SenderKey() in old(owners) && old(repo.rows)[old(owners)[SenderKey()]].frozen >= TotalOf(order))
      ensures debited && !ok && faults == old(faults) ==>
        repo.rows == Debit(old(repo.rows), old(owners)[SenderKey()], TotalOf(order)).0 && owners == old(owners)
    {
      var failed := Fails(InStep);
      if failed { return false; }
      failed := Fails(InStep);
      if failed || SenderKey() !in owners { return false; }
      var sender := owners[SenderKey()];
      failed := Fails(InStep);
      ok := repo.DebitAccount(sender, TotalOf(order), failed);
      if !ok { return; }
      debited := true;
      DebitKeepsKeys(old(repo.rows), sender, TotalOf(order));
      ghost var paid := repo.rows;
      assert ReadyReceiver(old(repo.rows), owners) <==> ReadyReceiver(paid, owners);
      hide TotalOf, Debit, SettledKept, Credit, WithAccount, ReadyReceiver, OwnersAfter;
      ok := CreditReceiverAndFee();
    }

    /** The receiver is credited, then the fee account; a failure in between leaves the first credit. */
    method CreditReceiverAndFee() returns (ok: bool)
      requires Consistent() && newAccountId != order.settlementAccount && newAccountId != order.feeAccount
      modifies this`faults, this`owners, repo
      ensures Consistent() && FaultsOnlyIn(InStep, old(faults)) && SettledKept(old(repo.rows), repo.rows)
      ensures forall k | k in old(owners) :: k in owners && owners[k] == old(owners)[k]
      ensures ok ==>
        && ReceiverKey() in owners
        && repo.rows == Credit(Credit(WithAccount(old(repo.rows), owners[ReceiverKey()]),
                                      owners[ReceiverKey()], order.target), order.feeAccount, order.fee)
        && (order.settlementAccount in repo.rows <==> order.settlementAccount in old(repo.rows))
        && (order.feeAccount in repo.rows <==> order.feeAccount in old(repo.rows))
      ensures ok ==> owners == OwnersAfter(old(owners))
      ensures faults == old(faults) ==> (ok <==> ReadyReceiver(old(repo.rows), old(owners)))
      ensures faults == old(faults) && !ok ==> repo.rows == old(repo.rows) && owners == old(owners)
    {
      var receiver: string;
      ghost var before := repo.rows;
      hide SettledKept, Credit, WithAccount, ReadyReceiver, OwnersAfter;
      ok, receiver := FindOrCreateReceiver();
      CreditsKeep(before, receiver, order.target, order.feeAccount, order.fee);
      if ok {
        var failed := Fails(InStep);
        ok := repo.CreditAccount(receiver, order.target, failed);
        if ok {
          failed := Fails(InStep);
          ok := repo.CreditAccount(order.feeAccount, order.fee, failed);
        }
      }
    }

    /** Everything that the journal is about is stored. */
    ghost predicate PartiesStored()
      reads this`owners, repo
    {
      && SenderKey() in owners && owners[SenderKey()] in repo.rows
      && ReceiverKey() in owners && owners[ReceiverKey()] in repo.rows
      && order.settlementAccount in repo.rows && order.feeAccount in repo.rows
    }

    /** The journal of this order with the balances of this moment. */
    function JournalNow(): seq<Settlement.Entry>
      requires PartiesStored()
      reads this`owners, repo
    {
      var sender, receiver := owners[SenderKey()], owners[ReceiverKey()];
      Settlement.Journal(
        Settlement.Payment(sender, receiver, order.sourceCurrency, order.targetCurrency,
                           order.source, order.target, order.fee),
        Settlement.Balances(repo.rows[sender].available, repo.rows[receiver].available,
                            repo.rows[order.settlementAccount].available, repo.rows[order.feeAccount].available))
    }

    /** What the journal records as the balance of the sender, the fee account and the receiver: the money
        moved once more. It reads the accounts after the engine step has already moved it. */
    lemma RecordedBalances()
      requires PartiesStored()
      ensures var j, sender, receiver := JournalNow(), owners[SenderKey()], owners[ReceiverKey()];
        && j[0].account == sender && j[0].balanceAfter == repo.rows[sender].available - TotalOf(order)
        && j[5].balanceAfter == repo.rows[order.feeAccount].available + order.fee
        && j[7].account == receiver && j[7].balanceAfter == repo.rows[receiver].available + order.target
    {
    }

    /** The journal records what the payment moved: for every account but the settlement and exchange
        accounts, which no payment touches, its net over both currencies is what left the available money. */
    lemma JournalRecordsMoves(t0: Rows, o0: Owners, x: string)
      requires PartiesStored() && PaidOut(t0, o0) && o0[SenderKey()] == owners[SenderKey()] && x in repo.rows
      requires FitsInt64(order.source + order.fee) && order.feeAccount == "sys_fee_income_" + order.sourceCurrency
      requires x != "sys_exchange_" + order.sourceCurrency && x != "sys_exchange_" + order.targetCurrency
      ensures var j, a, b := JournalNow(), order.sourceCurrency, order.targetCurrency;
        At(t0, x).available - repo.rows[x].available ==
          Settlement.AccountNet(j, x, a) + if a == b then 0 else Settlement.AccountNet(j, x, b)
    {
      var sender, receiver := owners[SenderKey()], owners[ReceiverKey()];
      var p := Settlement.Payment(sender, receiver, order.sourceCurrency, order.targetCurrency,
                                  order.source, order.target, order.fee);
      var b := Settlement.Balances(repo.rows[sender].available, repo.rows[receiver].available,
                                   repo.rows[order.settlementAccount].available, repo.rows[order.feeAccount].available);
      TotalIsSum(order);
      assert JournalNow() == Settlement.Journal(p, b);
      Settlement.JournalMoves(p, b, x, order.sourceCurrency);
      Settlement.JournalMoves(p, b, x, order.targetCurrency);
      hide JournalNow, Settlement.Journal, Settlement.AccountNet, TotalOf, PaidRows;
    }

    /** So after a payment between three different accounts, the recorded balances are those before it
        with every amount counted twice. */
    lemma RecordedTwice(t0: Rows, o0: Owners)
      requires PartiesStored() && PaidOut(t0, o0) && o0[SenderKey()] == owners[SenderKey()]
      requires order.feeAccount !in {owners[SenderKey()], owners[ReceiverKey()]}
      requires owners[SenderKey()] != owners[ReceiverKey()]
      ensures var j, sender, receiver := JournalNow(), owners[SenderKey()], owners[ReceiverKey()];
        && j[0].balanceAfter == At(t0, sender).available - 2 * TotalOf(order)
        && j[5].balanceAfter == At(t0, order.feeAccount).available + 2 * order.fee
        && j[7].balanceAfter == At(t0, receiver).available + 2 * order.target
    {
      RecordedBalances();
      hide JournalNow, TotalOf;
    }

    lemma JournalNowFacts()
      requires PartiesStored()
      ensures Settlement.Balanced(JournalNow()) && |JournalNow()| == Settlement.JOURNAL_SIZE
      ensures Settlement.Insertable(JournalNow()) <==> Amounts(order)
    {
      var sender, receiver := owners[SenderKey()], owners[ReceiverKey()];
      var p := Settlement.Payment(sender, receiver, order.sourceCurrency, order.targetCurrency,
                                  order.source, order.target, order.fee);
      var b := Settlement.Balances(repo.rows[sender].available, repo.rows[receiver].available,
                                   repo.rows[order.settlementAccount].available, repo.rows[order.feeAccount].available);
      Settlement.AppendKeepsBalanced([], p, b);
      AmountsInsertable(order, p, b);
      hide Settlement.Net, Settlement.Insertable, Settlement.Reversals;
      assert [] + Settlement.Journal(p, b) == Settlement.Journal(p, b);
    }

    /** The journal is inserted once: entry ids are numbered per payment and unique, so inserting it again
        after a failed lookup fails. Settling does not touch the accounts. */
    method SettlePayment() returns (ok: bool)
      requires Consistent()
      modifies this`faults, this`entries
      ensures FaultsOnlyIn(InStep, old(faults))
      ensures entries == old(entries) || (ok && old(entries) == [] && PartiesStored() && entries == JournalNow())
      ensures ok ==> entries != [] && (old(entries) == [] ==> |entries| == Settlement.JOURNAL_SIZE)
      ensures (faults == old(faults) && old(entries) == [] && SenderKey() in owners && ReceiverKey() in owners) ==>
        (ok <==> order.settlementAccount in repo.rows && order.feeAccount in repo.rows && Amounts(order))
      ensures Settlement.Balanced(old(entries)) ==> Settlement.Balanced(entries)
    {
      hide Amounts;
      var failed := Fails(InStep);
      if failed { return false; }
      failed := Fails(InStep);
      if !failed && |entries| > 0 { return true; }
      failed := Fails(InStep);
      if failed || SenderKey() !in owners || ReceiverKey() !in owners { return false; }
      if order.settlementAccount !in repo.rows || order.feeAccount !in repo.rows { return false; }
      var journal := JournalNow();
      JournalNowFacts();
      ZeroBalanced(journal);
      hide Settlement.Insertable, Settlement.Net, JournalNow, Settlement.Balanced;
      var balanced := Settlement.CheckBalance(journal);
      if !balanced { return false; }
      failed := Fails(InStep);
      if failed || |entries| > 0 || !Settlement.Insertable(journal) { return false; }
      entries := entries + journal;
      return true;
    }

    // ---- compensations ----

    method ExecuteRelease() returns (ok: bool)
      requires Consistent()
      modifies this`faults, repo
      ensures Consistent() && FaultsOnlyIn(InCompensation, old(faults)) && SettledKept(old(repo.rows), repo.rows)
      ensures ok ==> SenderKey() in owners
      ensures repo.rows ==
        if ok then Unfreeze(old(repo.rows), owners[SenderKey()], TotalOf(order)).0 else old(repo.rows)
      ensures faults == old(faults) ==>
        (ok <==> SenderKey() in owners && old(repo.rows)[owners[SenderKey()]].frozen >= TotalOf(order))
    {
      hide TotalOf;
      var failed := Fails(InCompensation);
      if failed || SenderKey() !in owners { return false; }
      failed := Fails(InCompensation);
      ok := repo.UnfreezeFunds(owners[SenderKey()], TotalOf(order), failed);
    }

    /** Gives the sender available money; takes from what the receiver and the fee account have frozen,
        and ignores every error of doing so. */
    method ExecuteRefund() returns (ok: bool)
      requires Consistent()
      modifies this`faults, repo
      ensures Consistent() && FaultsOnlyIn(InCompensation, old(faults))
      ensures order.target >= 0 && order.fee >= 0 ==> SettledKept(old(repo.rows), repo.rows)
      ensures faults == old(faults) ==> ok == (SenderKey() in owners)
      ensures faults == old(faults) ==>
        repo.rows == if ok then GivenBack(old(repo.rows), order, owners, owners[SenderKey()]) else old(repo.rows)
    {
      hide TotalOf, SettledKept, Credit, Debit;
      var failed := Fails(InCompensation);
      UpdatesKeepSettled(repo.rows, order.feeAccount, 0);
      if failed || SenderKey() !in owners { return false; }
      failed := Fails(InCompensation);
      UpdatesKeepSettled(repo.rows, owners[SenderKey()], TotalOf(order));
      var _ := repo.AddAvailableBalance(owners[SenderKey()], TotalOf(order), failed);
      failed := Fails(InCompensation);
      if !failed && ReceiverKey() in owners {
        failed := Fails(InCompensation);
        TakeFrozen(owners[ReceiverKey()], order.target, failed);
      }
      failed := Fails(InCompensation);
      TakeFrozen(order.feeAccount, order.fee, failed);
      return true;
    }

    /** A debit whose error is ignored. */
    method TakeFrozen(id: string, n: int, dbError: bool)
      requires Consistent()
      modifies repo
      ensures Consistent()
      ensures forall t :: n >= 0 && SettledKept(t, old(repo.rows)) ==> SettledKept(t, repo.rows)
      ensures !dbError ==> repo.rows == Debit(old(repo.rows), id, n).0
    {
      hide SettledKept, Debit;
      ghost var before := repo.rows;
      UpdatesKeepSettled(before, id, n);
      var _ := repo.DebitAccount(id, n, dbError);
      forall t | n >= 0 && SettledKept(t, before)
        ensures SettledKept(t, repo.rows)
      {
        SettledKeptTwice(t, before, repo.rows);
      }
    }

    /** Reversals are numbered and unique too, so a payment's entries can be reversed once. */
    method CompensateSettlement() returns (ok: bool)
      modifies this`faults, this`entries
      ensures FaultsOnlyIn(InCompensation, old(faults))
      ensures entries == old(entries) + if ok then Settlement.Reversals(old(entries)) else []
      ensures faults == old(faults) ==>
        (ok <==> 0 < |old(entries)| <= Settlement.JOURNAL_SIZE && Settlement.Insertable(old(entries)))
      ensures Settlement.Balanced(old(entries)) ==> Settlement.Balanced(entries)
    {
      ReversalsInsertable(entries);
      if Settlement.Balanced(entries) {
        Settlement.AppendKeepsBalanced(entries, Settlement.Payment("", "", "", "", 0, 0, 0),
                                       Settlement.Balances(0, 0, 0, 0));
      }
      hide Settlement.Balanced, Settlement.Reversals, Settlement.Insertable;
      var failed := Fails(InCompensation);
      if failed || |entries| == 0 { return false; }
      var reversals := Settlement.BuildReversals(entries);
      failed := Fails(InCompensation);
      if failed || |entries| > Settlement.JOURNAL_SIZE || !Settlement.Insertable(reversals) { return false; }
      entries := entries + reversals;
      return true;
    }

    method Compensate(step: nat)
      requires Consistent() && HasCompensation(step)
      modifies this`faults, this`entries, this`compensated, repo
      ensures Settlement.Balanced(old(entries)) ==> Settlement.Balanced(entries)
      ensures Consistent() && FaultsOnlyIn(InCompensation, old(faults)) && compensated == old(compensated) + [step]
      ensures order.target >= 0 && order.fee >= 0 ==> SettledKept(old(repo.rows), repo.rows)
      ensures faults == old(faults) ==> repo.rows == Undo(old(repo.rows), order, owners, step)
    {
      hide TotalOf, Settlement.Balanced, GivenBack, SettledKept;
      UpdatesKeepSettled(repo.rows, order.feeAccount, 0);
      compensated := compensated + [step];
      if step == FUNDS_FREEZE {
        var _ := ExecuteRelease();
      } else if step == PAYMENT_CONFIRMED {
        var _ := ExecuteRefund();
      } else {
        var _ := CompensateSettlement();
      }
    }

    /** The payment is reloaded for each compensation. */
    method CompensateUnlessFailed(step: nat)
      requires Consistent() && HasCompensation(step)
      modifies this`faults, this`entries, this`compensated, repo
      ensures Settlement.Balanced(old(entries)) ==> Settlement.Balanced(entries)
      ensures Consistent() && FaultsOnlyIn(InCompensation, old(faults))
      ensures faults == old(faults) ==> compensated == old(compensated) + [step]
      ensures order.target >= 0 && order.fee >= 0 ==> SettledKept(old(repo.rows), repo.rows)
      ensures faults == old(faults) ==> repo.rows == Undo(old(repo.rows), order, owners, step)
    {
      UpdatesKeepSettled(repo.rows, order.feeAccount, 0);
      hide Settlement.Balanced, SettledKept, Undo, Consistent;
      var failed := Fails(InCompensation);
      if !failed {
        Compensate(step);
      }
    }

    /** Every completed step that has a compensation is compensated once, last one first, unless reloading
        the payment fails, which skips one. */
    method CompensateInReverse(completed: seq<nat>)
      requires Consistent()
      modifies this`faults, this`entries, this`compensated, repo
      ensures Settlement.Balanced(old(entries)) ==> Settlement.Balanced(entries)
      ensures Consistent() && FaultsOnlyIn(InCompensation, old(faults))
      ensures faults == old(faults) ==> compensated == old(compensated) + Compensations(completed)
      ensures order.target >= 0 && order.fee >= 0 ==> SettledKept(old(repo.rows), repo.rows)
      ensures Compensations(completed) == [] ==> repo.rows == old(repo.rows)
      ensures faults == old(faults) ==>
        repo.rows == UndoAll(old(repo.rows), order, owners, Compensations(completed))
    {
      NoCompensations();
      UndoHold(repo.rows, order, owners);
      hide TotalOf, Undo, UndoAll, SettledKept, Compensations, Settlement.Balanced, Consistent, HasCompensation;
      UpdatesKeepSettled(repo.rows, order.feeAccount, 0);
      var k := |completed|;
      ghost var done: seq<nat> := [];
      assert completed[..k] == completed;
      while k > 0
        invariant 0 <= k <= |completed| && Consistent() && FaultsOnlyIn(InCompensation, old(faults))
        invariant Settlement.Balanced(old(entries)) ==> Settlement.Balanced(entries)
        invariant done + Compensations(completed[..k]) == Compensations(completed)
        invariant faults == old(faults) ==> compensated == old(compensated) + done
        invariant order.target >= 0 && order.fee >= 0 ==> SettledKept(old(repo.rows), repo.rows)
        invariant done == [] ==> repo.rows == old(repo.rows)
        invariant faults == old(faults) ==> repo.rows == UndoAll(old(repo.rows), order, owners, done)
      {
        k := k - 1;
        var step := completed[k];
        CompensationsBack(done, completed, k);
        if HasCompensation(step) {
          ghost var before := repo.rows;
          UndoOneMore(old(repo.rows), order, owners, done, step);
          done := done + [step];
          CompensateUnlessFailed(step);
          if order.target >= 0 && order.fee >= 0 {
            SettledKeptTwice(old(repo.rows), before, repo.rows);
          }
        }
      }
      assert completed[..0] == [];
      assert done == Compensations(completed);
    }

    // ---- the whole saga ----

    /** What a caller could check before, besides the receiver: the sender can pay, ... */
    ghost predicate ReadyFunds(t0: Rows, o0: Owners) {
      SenderKey() in o0 && o0[SenderKey()] in t0 && t0[o0[SenderKey()]].available >= TotalOf(order)
    }

    /** ... and the journal can be stored: system accounts exist, and no amount is zero. */
    ghost predicate ReadyToSettle(t0: Rows) {
      order.settlementAccount in t0 && order.feeAccount in t0 && Amounts(order)
    }

    ghost predicate StepReady(i: nat, t0: Rows, o0: Owners) {
      && (i == FUNDS_FREEZE ==> ReadyFunds(t0, o0))
      && (i == PAYMENT_EXECUTING ==> ReadyReceiver(t0, o0))
      && (i == SETTLEMENT ==> ReadyToSettle(t0))
    }

    /** The sender's total was settled and never given back to settled. */
    ghost predicate Spent(t0: Rows, o0: Owners)
      reads repo
    {
      && SenderKey() in o0 && o0[SenderKey()] in t0 && o0[SenderKey()] in repo.rows
      && repo.rows[o0[SenderKey()]].settled >= t0[o0[SenderKey()]].settled + TotalOf(order)
    }

    /** The accounts before step `i` of a run that started from CREATED with `t0`. */
    ghost predicate Stage(i: nat, t0: Rows, o0: Owners)
      reads this`owners, this`debited, repo
    {
      && (forall k | k in o0 :: k in owners && owners[k] == o0[k])
      && (i < FUNDS_FREEZE + 1 ==> repo.rows == t0 && owners == o0 && !debited)
      && (i == PAYMENT_EXECUTING ==> HoldTaken(t0, o0) && owners == o0 && !debited)
      && (i > PAYMENT_EXECUTING ==> debited && PaidOut(t0, o0) && Spent(t0, o0))
    }

    ghost predicate HoldTaken(t0: Rows, o0: Owners)
      reads repo
    {
      ReadyFunds(t0, o0) && (repo.rows, true) == Freeze(t0, o0[SenderKey()], TotalOf(order))
    }

    /** The accounts after a payment. */
    function PaidRows(t0: Rows, o0: Owners): Rows
      requires SenderKey() in o0
    {
      var sender := o0[SenderKey()];
      Paid(Freeze(t0, sender, TotalOf(order)).0, order, sender, OwnersAfter(o0)[ReceiverKey()])
    }

    /** The accounts when step `i` is refused in a run without failures of the database. */
    function StopRows(i: nat, t0: Rows, o0: Owners): Rows {
      if i < PAYMENT_EXECUTING || SenderKey() !in o0 then t0
      else if i == PAYMENT_EXECUTING then
        var sender := o0[SenderKey()];
        Debit(Freeze(t0, sender, TotalOf(order)).0, sender, TotalOf(order)).0
      else PaidRows(t0, o0)
    }

    function StopOwners(i: nat, o0: Owners): Owners {
      if i <= PAYMENT_EXECUTING then o0 else OwnersAfter(o0)
    }

    ghost predicate AtStop(i: nat, t0: Rows, o0: Owners)
      reads this`owners, repo
    {
      repo.rows == StopRows(i, t0, o0) && owners == StopOwners(i, o0)
    }

    /** Where a run without failures of the database ends. A refused receiver is found out after the sender
        was debited, a journal that cannot be stored after everybody was paid; the compensations then give
        the sender available money, and release a hold that is gone: any other of that size. */
    ghost function FinalRows(t0: Rows, o0: Owners): Rows
      requires ReadyFunds(t0, o0)
    {
      var sender, total := o0[SenderKey()], TotalOf(order);
      if !ReadyReceiver(t0, o0) then Unfreeze(StopRows(PAYMENT_EXECUTING, t0, o0), sender, total).0
      else if !ReadyToSettle(t0) then
        Unfreeze(GivenBack(PaidRows(t0, o0), order, OwnersAfter(o0), sender), sender, total).0
      else PaidRows(t0, o0)
    }

    ghost predicate PaidOut(t0: Rows, o0: Owners)
      reads this`owners, repo
    {
      && ReadyFunds(t0, o0) && owners == OwnersAfter(o0) && repo.rows == PaidRows(t0, o0)
      && MovedExactly(t0, repo.rows, order, o0[SenderKey()], owners[ReceiverKey()])
      && (order.settlementAccount in repo.rows <==> order.settlementAccount in t0)
      && (order.feeAccount in repo.rows <==> order.feeAccount in t0)
    }

    /** What is left when a step stops the saga before it is compensated. */
    ghost predicate Stopped(i: nat, t0: Rows, o0: Owners)
      reads this`owners, this`debited, repo
    {
      if debited then Spent(t0, o0) else i <= PAYMENT_EXECUTING && Stage(i, t0, o0)
    }

    /** Step `i`. `tracked` says that the run started from CREATED with the accounts `t0`. */
    method ExecuteStep(i: nat, ghost tracked: bool, ghost t0: Rows, ghost o0: Owners) returns (ok: bool)
      requires i < STEPS && Consistent() && (i <= PAYMENT_EXECUTING ==> !debited)
      requires newAccountId != order.settlementAccount && newAccountId != order.feeAccount
      requires tracked ==> Stage(i, t0, o0) && NoDebt(t0)
      modifies this`faults, this`owners, this`debited, this`entries, repo
      ensures Settlement.Balanced(old(entries)) ==> Settlement.Balanced(entries)
      ensures Consistent() && FaultsOnlyIn(InStep, old(faults))
      ensures i < PAYMENT_EXECUTING ==> !debited
      ensures i != SETTLEMENT ==> entries == old(entries)
      ensures i == SETTLEMENT && ok && old(entries) == [] ==> |entries| == Settlement.JOURNAL_SIZE
      ensures tracked ==> if ok then Stage(i + 1, t0, o0) else Stopped(i, t0, o0)
      ensures tracked && faults == old(faults) && (i == SETTLEMENT ==> old(entries) == []) ==>
        (ok <==> StepReady(i, t0, o0))
      ensures i == PAYMENT_EXECUTING && tracked && faults == old(faults) ==> debited && ReadyFunds(t0, o0)
      ensures i != PAYMENT_EXECUTING ==> debited == old(debited)
      ensures !ok && tracked && faults == old(faults) ==> AtStop(i, t0, o0)
    {
      hide TotalOf, Amounts, MovedExactly, Paid, Settlement.Balanced, Debit, ReadyReceiver;
      if i == FUNDS_FREEZE {
        ok := ExecuteFreeze();
      } else if i == PAYMENT_EXECUTING {
        ok := EngineStep(tracked, t0, o0);
      } else if i == SETTLEMENT {
        ok := SettlePayment();
      } else {
        ok := true;
      }
    }

    method EngineStep(ghost tracked: bool, ghost t0: Rows, ghost o0: Owners) returns (ok: bool)
      requires Consistent() && !debited
      requires newAccountId != order.settlementAccount && newAccountId != order.feeAccount
      requires tracked ==> Stage(PAYMENT_EXECUTING, t0, o0) && NoDebt(t0)
      modifies this`faults, this`owners, this`debited, repo
      ensures Consistent() && FaultsOnlyIn(InStep, old(faults))
      ensures tracked ==> if ok then Stage(PAYMENT_EXECUTING + 1, t0, o0) else Stopped(PAYMENT_EXECUTING, t0, o0)
      ensures tracked && faults == old(faults) ==> (ok <==> ReadyReceiver(t0, o0))
      ensures tracked && faults == old(faults) ==> debited && ReadyFunds(t0, o0)
      ensures !ok && tracked && faults == old(faults) ==> AtStop(PAYMENT_EXECUTING, t0, o0)
    {
      hide TotalOf, Freeze, Debit, Paid, SettledKept, NoDebt, OwnersAfter, ReadyReceiver;
      ghost var held := repo.rows;
      if tracked {
        HoldSuffices(t0, o0);
      }
      ok := ExecuteEngineOp();
      if tracked && ok {
        EngineDone(t0, o0);
      } else if tracked && debited {
        EngineRefused(t0, o0);
      }
    }

    /** The hold covers the debit, and does not change who exists. */
    lemma HoldSuffices(t0: Rows, o0: Owners)
      requires ReadyFunds(t0, o0) && NoDebt(t0)
      ensures var held := Freeze(t0, o0[SenderKey()], TotalOf(order)).0;
        && held.Keys == t0.Keys && held[o0[SenderKey()]].frozen >= TotalOf(order)
        && (ReadyReceiver(held, o0) <==> ReadyReceiver(t0, o0))
    {
      HeldFacts(t0, o0[SenderKey()], TotalOf(order));
      hide Freeze, TotalOf;
    }

    lemma EngineDone(t0: Rows, o0: Owners)
      requires ReadyFunds(t0, o0) && NoDebt(t0) && debited
      requires owners == OwnersAfter(o0) && repo.rows == PaidRows(t0, o0)
      requires order.settlementAccount in repo.rows <==> order.settlementAccount in t0
      requires order.feeAccount in repo.rows <==> order.feeAccount in t0
      ensures Stage(PAYMENT_EXECUTING + 1, t0, o0)
    {
      hide TotalOf, Freeze, Debit, Paid;
      var sender, receiver := o0[SenderKey()], OwnersAfter(o0)[ReceiverKey()];
      PaidMoves(t0, order, sender, receiver);
      MovedSettles(t0, repo.rows, order, sender, receiver);
      hide MovedExactly;
    }

    lemma EngineRefused(t0: Rows, o0: Owners)
      requires ReadyFunds(t0, o0) && NoDebt(t0) && debited
      requires SettledKept(StopRows(PAYMENT_EXECUTING, t0, o0), repo.rows)
      ensures Stopped(PAYMENT_EXECUTING, t0, o0)
    {
      HeldFacts(t0, o0[SenderKey()], TotalOf(order));
      hide TotalOf, Freeze, Debit, SettledKept;
    }

    // ---- what holds during a run, by the fields it is about ----

    /** The stored status is that of the last completed step, or the one before it because writing its
        status failed. */
    ghost predicate RunStatus(i: nat, g: Start)
      reads this`status, this`history, this`compensated, this`faults
    {
      && i <= STEPS && Steps(history, status) && compensated == [] && Since(g.faults)
      && (i > 0 ==> Position(status) >= 0) && Position(status) >= Position(g.from)
      && (g.tracked() ==> status == FlowAt(i) || (i > 0 && status == FlowAt(i - 1) && faults.status > g.faults.status))
    }

    ghost predicate RunAccounts(i: nat, completed: seq<nat>, g: Start)
      reads this`owners, this`debited, repo
    {
      && Consistent()
      && (i <= PAYMENT_EXECUTING ==> !debited) && DebitedOnce(g)
      && completed == UpTo(i) && (g.tracked() ==> Stage(i, g.rows, g.owners))
    }

    /** A payment that an earlier run has taken past the execution is not debited again. */
    ghost predicate DebitedOnce(g: Start)
      reads this`debited
    {
      debited ==> Position(g.from) <= PAYMENT_EXECUTING
    }

    /** `clean` says that no database call failed so far. */
    ghost predicate RunReady(i: nat, g: Start, clean: bool)
      reads this`entries
    {
      && (g.unsettled && i <= SETTLEMENT ==> entries == [])
      && (g.tracked() && g.unsettled && i > SETTLEMENT ==> |entries| == Settlement.JOURNAL_SIZE)
      && (g.tracked() && g.unsettled && clean ==> AllReady(i, g))
    }

    ghost predicate AllReady(i: nat, g: Start) {
      forall k | 0 <= k < i :: StepReady(k, g.rows, g.owners)
    }

    /** Only steps and status writes failed since. */
    ghost predicate Since(before: Faults)
      reads this`faults
    {
      faults.compensation == before.compensation && faults.step >= before.step && faults.status >= before.status
    }

    /** A run that has completed the steps before `i`. `g` tells how it started. */
    ghost predicate Running(i: nat, completed: seq<nat>, g: Start)
      reads this, repo
    {
      RunStatus(i, g) && RunAccounts(i, completed, g) && RunReady(i, g, faults == g.faults)
    }

    /** The accounts are restored exactly when the sender was not debited; a failed compensation aside. */
    ghost predicate Explained(g: Start)
      reads this`debited, this`faults, repo
    {
      && (g.tracked() && !debited && faults.compensation == g.faults.compensation ==> repo.rows == g.rows)
      && (g.tracked() && debited && order.target >= 0 && order.fee >= 0 ==> Spent(g.rows, g.owners))
    }

    ghost predicate Ready(t0: Rows, o0: Owners) {
      ReadyFunds(t0, o0) && ReadyReceiver(t0, o0) && ReadyToSettle(t0)
    }

    /** What holds when the saga is over. */
    ghost predicate Ended(outcome: Outcome, g: Start)
      reads this, repo
    {
      // The statuses written are a path in the table.
      && Steps(history, status)
      // A step that fails leaves the payment failed, unless writing that status failed.
      && (outcome.StepFailed? && faults.status == g.faults.status ==> status == Failed)
      // ... and its completed steps compensated once each, the last one first.
      && (outcome.StepFailed? && faults.compensation == g.faults.compensation ==>
            compensated == Compensations(UpTo(outcome.step)))
      // A payment resumed after its execution is not debited again.
      && DebitedOnce(g)
      // From CREATED, the accounts are restored, or the sender was debited for good.
      && Explained(g)
      // A closed payment finished, moved exactly its amounts and has its journal.
      && (g.tracked() && status == Closed ==> outcome == Finished && compensated == [] && PaidOut(g.rows, g.owners))
      && (g.tracked() && g.unsettled && status == Closed ==> |entries| == Settlement.JOURNAL_SIZE)
      // Without failures of the database, it closes exactly if it was ready.
      && (g.tracked() && g.unsettled && faults == g.faults ==> (status == Closed <==> Ready(g.rows, g.owners)))
      // ... the sender is debited exactly if the money was there, and the accounts end as `FinalRows` says.
      && (g.tracked() && faults == g.faults ==> (debited <==> ReadyFunds(g.rows, g.owners)))
      && (g.tracked() && g.unsettled && faults == g.faults && debited ==> repo.rows == FinalRows(g.rows, g.owners))
    }

    lemma FinishedEnds(completed: seq<nat>, g: Start)
      requires Running(STEPS, completed, g)
      ensures Ended(Finished, g)
    {
      hide Steps, MovedExactly, TotalOf, ReadyFunds, ReadyReceiver, ReadyToSettle, Spent;
      if g.tracked() && g.unsettled && faults == g.faults {
        assert StepReady(FUNDS_FREEZE, g.rows, g.owners);
        assert StepReady(PAYMENT_EXECUTING, g.rows, g.owners);
        assert StepReady(SETTLEMENT, g.rows, g.owners);
      }
    }

    lemma RunningStops(i: nat, completed: seq<nat>, g: Start)
      requires RunAccounts(i, completed, g) && i <= STEPS
      ensures completed == UpTo(i) && (g.tracked() ==> Stopped(i, g.rows, g.owners))
    {
    }

    lemma NotReady(i: nat, t0: Rows, o0: Owners)
      ensures !StepReady(i, t0, o0) ==> !Ready(t0, o0)
    {
    }

    /** The completed steps are compensated after a stop. */
    method Abort(completed: seq<nat>, ghost i: nat, ghost g: Start)
      requires Consistent() && Since(g.faults) && NoDebt(g.rows)
      requires completed == UpTo(i) && (g.tracked() ==> Stopped(i, g.rows, g.owners))
      modifies this`faults, this`entries, this`compensated, repo
      ensures Settlement.Balanced(old(entries)) ==> Settlement.Balanced(entries)
      ensures FaultsOnlyIn(InCompensation, old(faults)) && Explained(g)
      ensures faults == old(faults) ==> compensated == old(compensated) + Compensations(completed)
      ensures faults == old(faults) ==>
        repo.rows == UndoAll(old(repo.rows), order, owners, Compensations(completed))
    {
      hide TotalOf;
      UndoHold(repo.rows, order, owners);
      if g.tracked() && !debited {
        CompensationsUpTo(i);
        if i == PAYMENT_EXECUTING {
          UnfreezeUndoesFreeze(g.rows, g.owners[SenderKey()], TotalOf(order));
        }
      }
      hide Freeze, Unfreeze, Compensations, Settlement.Balanced, UndoAll;
      CompensateInReverse(completed);
    }

    /** A failed step: the payment is marked failed, then the completed steps are compensated, last first. */
    method FailStep(i: nat, completed: seq<nat>, ghost g: Start)
      requires i < STEPS && Consistent() && Steps(history, status) && status == FlowAt(i)
      requires Since(g.faults) && NoDebt(g.rows)
      requires completed == UpTo(i) && (g.tracked() ==> Stopped(i, g.rows, g.owners))
      modifies this`status, this`history, this`faults, this`entries, this`compensated, repo
      ensures Settlement.Balanced(old(entries)) ==> Settlement.Balanced(entries)
      ensures Explained(g) && Steps(history, status) && status != Closed
      ensures faults.status == g.faults.status ==> status == Failed
      ensures faults.compensation == g.faults.compensation ==>
        compensated == old(compensated) + Compensations(completed)
      ensures faults == old(faults) ==>
        repo.rows == UndoAll(old(repo.rows), order, owners, Compensations(completed))
      ensures faults.step == old(faults).step && faults.status >= old(faults).status
      ensures faults.compensation >= old(faults).compensation
    {
      FlowEdges(i, status);
      hide Steps, Stopped, Compensations, Permitted, FlowAt, Position, Consistent, UpTo, Explained, NoDebt;
      hide Settlement.Balanced, UndoAll;
      UpdatePaymentStatus(Failed);
      Abort(completed, i, g);
    }

    lemma OverAfterInterrupt(i: nat, g: Start)
      requires Steps(history, status) && Explained(g) && (g.tracked() ==> status != Closed && faults != g.faults)
      requires DebitedOnce(g)
      ensures Ended(Interrupted(i), g)
    {
      hide Steps, Explained;
    }

    lemma OverAfterFailure(i: nat, g: Start)
      requires Steps(history, status) && Explained(g) && status != Closed && DebitedOnce(g)
      requires faults.status == g.faults.status ==> status == Failed
      requires g.tracked() && g.unsettled && faults == g.faults ==> !Ready(g.rows, g.owners)
      requires faults.compensation == g.faults.compensation ==> compensated == Compensations(UpTo(i))
      requires g.tracked() && faults == g.faults ==> (debited <==> ReadyFunds(g.rows, g.owners))
      requires g.tracked() && g.unsettled && faults == g.faults && debited ==> repo.rows == FinalRows(g.rows, g.owners)
      ensures Ended(StepFailed(i), g)
    {
      hide Steps, Explained, Ready, Compensations, UpTo, FinalRows, ReadyFunds;
    }

    /** The steps that can be refused in a run without failures of the database, and what compensating
        them leaves. */
    lemma StopIsFinal(i: nat, g: Start)
      requires i < STEPS && AllReady(i, g) && !StepReady(i, g.rows, g.owners) && ReadyFunds(g.rows, g.owners)
      ensures UndoAll(StopRows(i, g.rows, g.owners), order, StopOwners(i, g.owners), Compensations(UpTo(i)))
        == FinalRows(g.rows, g.owners)
    {
      var t := StopRows(i, g.rows, g.owners);
      var o := StopOwners(i, g.owners);
      hide Paid, TotalOf, Debit, Freeze, Unfreeze, GivenBack, Compensations, UpTo;
      if i == PAYMENT_EXECUTING {
        CompensationsUpTo(PAYMENT_EXECUTING);
        UndoHold(t, order, o);
      } else {
        assert StepReady(PAYMENT_EXECUTING, g.rows, g.owners);
        CompensationsOfSettlement();
        UndoRefundAndHold(t, order, o);
      }
    }

    /** Whether the saga may take step `i` from the stored status. */
    method Check(i: nat, ghost g: Start) returns (verdict: Verdict)
      requires i < STEPS && RunStatus(i, g)
      modifies this`faults
      ensures RunStatus(i, g) && Since(g.faults) && Steps(history, status)
      ensures faults == old(faults) || (faults.step > old(faults).step && verdict == Unreadable)
      ensures verdict == Unreadable || verdict == Refused ==> g.tracked() ==> status != Closed && faults != g.faults
      ensures verdict == Reached ==> !g.tracked() && Position(status) >= i + 1
      ensures verdict == Proceed ==> status == FlowAt(i)
    {
      FlowEdges(i, status);
      hide Steps, FlowAt, Position;
      var failed := Fails(InStep);
      if failed { return Unreadable; }
      var reached := IsStatusAtOrAfter(status, FlowAt(i + 1));
      if reached { return Reached; }
      var allowed := MayMove(status, FlowAt(i + 1));
      return if allowed then Proceed else Refused;
    }

    lemma AccountsNext(i: nat, completed: seq<nat>, g: Start)
      requires Consistent() && (i < PAYMENT_EXECUTING ==> !debited) && DebitedOnce(g)
      requires completed == UpTo(i) && (g.tracked() ==> Stage(i + 1, g.rows, g.owners))
      ensures RunAccounts(i + 1, completed + [i], g)
    {
      hide Consistent, Stage;
    }

    /** What a run hands to its next step. */
    lemma StepInputs(i: nat, completed: seq<nat>, g: Start)
      requires Running(i, completed, g)
      ensures Consistent() && (i <= PAYMENT_EXECUTING ==> !debited) && Since(g.faults) && Steps(history, status)
      ensures DebitedOnce(g) && Position(status) >= Position(g.from)
      ensures completed == UpTo(i) && (g.tracked() ==> Stage(i, g.rows, g.owners))
      ensures g.unsettled && i <= SETTLEMENT ==> entries == []
      ensures g.tracked() && g.unsettled && i > SETTLEMENT ==> |entries| == Settlement.JOURNAL_SIZE
      ensures g.tracked() && g.unsettled && faults == g.faults ==> AllReady(i, g)
      ensures compensated == []
    {
    }

    /** The step itself, with what the run knows before and after. */
    method TryStep(i: nat, completed: seq<nat>, ghost g: Start) returns (ok: bool)
      requires Running(i, completed, g) && i < STEPS && status == FlowAt(i) && NoDebt(g.rows)
      requires newAccountId != order.settlementAccount && newAccountId != order.feeAccount
      modifies this`faults, this`owners, this`debited, this`entries, repo
      ensures Settlement.Balanced(old(entries)) ==> Settlement.Balanced(entries)
      ensures Consistent() && Since(g.faults) && DebitedOnce(g)
      ensures ok ==> RunAccounts(i + 1, completed + [i], g) && RunReady(i + 1, g, faults == g.faults)
      ensures !ok ==> completed == UpTo(i) && (g.tracked() ==> Stopped(i, g.rows, g.owners))
      ensures !ok && g.tracked() && g.unsettled && faults == g.faults ==> !Ready(g.rows, g.owners)
      ensures !ok && g.tracked() && faults == g.faults ==> (debited <==> ReadyFunds(g.rows, g.owners))
      ensures !ok && g.tracked() && faults == g.faults ==> AtStop(i, g.rows, g.owners)
      ensures !ok && g.tracked() && g.unsettled && faults == g.faults ==>
        AllReady(i, g) && !StepReady(i, g.rows, g.owners)
    {
      StepInputs(i, completed, g);
      FlowEdges(i, status);
      NotReady(i, g.rows, g.owners);
      FundsAt(i, g);
      hide Running, RunAccounts, Stage, Stopped, Steps, FlowAt, Consistent, UpTo, NoDebt, StepReady, Ready, AllReady;
      hide Position, Permitted, Settlement.Balanced, AtStop, ReadyFunds;
      ghost var clean := faults == g.faults;
      ok := ExecuteStep(i, g.tracked(), g.rows, g.owners);
      if ok {
        AccountsNext(i, completed, g);
        AllReadyNext(i, g);
      }
    }

    /** The sender is debited from the execution on, and the funds step refuses exactly missing funds. */
    lemma FundsAt(i: nat, g: Start)
      requires g.tracked() ==> Stage(i, g.rows, g.owners)
      ensures i == FUNDS_FREEZE ==> (StepReady(i, g.rows, g.owners) <==> ReadyFunds(g.rows, g.owners))
      ensures i < FUNDS_FREEZE || i == PAYMENT_CONFIRMED || i > SETTLEMENT ==> StepReady(i, g.rows, g.owners)
      ensures g.tracked() && i <= PAYMENT_EXECUTING ==> !debited
      ensures g.tracked() && i > PAYMENT_EXECUTING ==> debited && ReadyFunds(g.rows, g.owners)
    {
      hide ReadyFunds, ReadyReceiver, ReadyToSettle, MovedExactly, PaidRows;
    }

    lemma AllReadyNext(i: nat, g: Start)
      ensures AllReady(i, g) && StepReady(i, g.rows, g.owners) ==> AllReady(i + 1, g)
    {
      hide StepReady;
    }

    /** The step that the stored status allows: it succeeds and the run goes on, or the saga is over. */
    method TakeStep(i: nat, completed: seq<nat>, ghost g: Start) returns (ok: bool)
      requires Running(i, completed, g) && i < STEPS && status == FlowAt(i) && NoDebt(g.rows)
      requires newAccountId != order.settlementAccount && newAccountId != order.feeAccount
      modifies this, repo
      ensures Settlement.Balanced(old(entries)) ==> Settlement.Balanced(entries)
      ensures if ok then Running(i + 1, completed + [i], g) else Ended(StepFailed(i), g)
    {
      StepInputs(i, completed, g);
      ok := TryStep(i, completed, g);
      hide Running, RunAccounts, RunReady, Stopped, Steps, FlowAt, Consistent, UpTo, NoDebt, Ready, Ended, Explained;
      hide Compensations, Settlement.Balanced, StepReady, AllReady, AtStop, ReadyFunds;
      if ok {
        GoOn(i, completed, g);
      } else {
        Refuse(i, completed, g);
      }
    }

    /** A step that failed, and where that leaves the payment. */
    method Refuse(i: nat, completed: seq<nat>, ghost g: Start)
      requires i < STEPS && Consistent() && Steps(history, status) && status == FlowAt(i)
      requires Since(g.faults) && NoDebt(g.rows) && compensated == [] && DebitedOnce(g)
      requires completed == UpTo(i) && (g.tracked() ==> Stopped(i, g.rows, g.owners))
      requires g.tracked() && g.unsettled && faults == g.faults ==>
        !Ready(g.rows, g.owners) && AllReady(i, g) && !StepReady(i, g.rows, g.owners)
      requires g.tracked() && faults == g.faults ==>
        (debited <==> ReadyFunds(g.rows, g.owners)) && AtStop(i, g.rows, g.owners)
      modifies this`status, this`history, this`faults, this`entries, this`compensated, repo
      ensures Settlement.Balanced(old(entries)) ==> Settlement.Balanced(entries)
      ensures Ended(StepFailed(i), g)
    {
      if g.tracked() && g.unsettled && faults == g.faults && debited {
        StopIsFinal(i, g);
      }
      hide Stopped, Steps, FlowAt, Consistent, UpTo, NoDebt, Ready, Ended, Explained, Compensations;
      hide Settlement.Balanced;
      hide StepReady, AllReady, UndoAll, FinalRows, ReadyFunds, StopRows, StopOwners;
      FailStep(i, completed, g);
      assert [] + Compensations(completed) == Compensations(completed);
      OverAfterFailure(i, g);
    }

    /** A step that succeeded: the next status is written, and the step counts even if that fails. */
    method GoOn(i: nat, completed: seq<nat>, ghost g: Start)
      requires i < STEPS && Steps(history, status) && compensated == [] && Since(g.faults) && status == FlowAt(i)
      requires Position(status) >= Position(g.from)
      requires RunAccounts(i + 1, completed + [i], g) && RunReady(i + 1, g, faults == g.faults)
      modifies this`status, this`history, this`faults
      ensures Running(i + 1, completed + [i], g)
    {
      FlowEdges(i, status);
      hide RunAccounts, RunReady, Steps, FlowAt, Permitted, Position, Running;
      ghost var clean := faults == g.faults;
      UpdatePaymentStatus(FlowAt(i + 1));
      ReadyWeaker(i + 1, g, clean, faults == g.faults);
      RunningOf(i + 1, completed + [i], g);
    }

    lemma RunningOf(i: nat, completed: seq<nat>, g: Start)
      requires RunStatus(i, g) && RunAccounts(i, completed, g) && RunReady(i, g, faults == g.faults)
      ensures Running(i, completed, g)
    {
    }

    lemma ReadyWeaker(i: nat, g: Start, clean: bool, cleaner: bool)
      requires RunReady(i, g, clean) && (cleaner ==> clean)
      ensures RunReady(i, g, cleaner)
    {
    }

    /** The stop between two steps. */
    method Interrupt(i: nat, completed: seq<nat>, ghost g: Start)
      requires RunAccounts(i, completed, g) && Since(g.faults) && Steps(history, status) && i < STEPS && NoDebt(g.rows)
      requires g.tracked() ==> status != Closed && faults != g.faults
      modifies this`faults, this`entries, this`compensated, repo
      ensures Settlement.Balanced(old(entries)) ==> Settlement.Balanced(entries)
      ensures Ended(Interrupted(i), g)
    {
      RunningStops(i, completed, g);
      assert Consistent();
      hide RunAccounts, Stage, Stopped, Steps, Consistent, UpTo, NoDebt, Explained, Ended, Compensations;
      hide Settlement.Balanced;
      Abort(completed, i, g);
      OverAfterInterrupt(i, g);
    }

    /** A step that an earlier run has already taken. */
    lemma SkipStep(i: nat, completed: seq<nat>, g: Start)
      requires Running(i, completed, g) && i < STEPS && !g.tracked() && Position(status) >= i + 1
      requires i == SETTLEMENT - 1 ==> g.unsettled ==> entries == []
      ensures Running(i + 1, completed + [i], g)
    {
    }

    /** One turn of the saga's loop. */
    method OneStep(i: nat, completed: seq<nat>, ghost g: Start)
      returns (over: bool, outcome: Outcome, extended: seq<nat>)
      requires Running(i, completed, g) && i < STEPS && NoDebt(g.rows)
      requires newAccountId != order.settlementAccount && newAccountId != order.feeAccount
      modifies this, repo
      ensures Settlement.Balanced(old(entries)) ==> Settlement.Balanced(entries)
      ensures over ==> Ended(outcome, g)
      ensures !over ==> Running(i + 1, extended, g)
    {
      StepInputs(i, completed, g);
      assert RunAccounts(i, completed, g) && RunStatus(i, g);
      ghost var clean := faults == g.faults;
      assert RunReady(i, g, clean);
      hide RunAccounts, RunReady, RunStatus, Stage, Steps, FlowAt, Consistent, UpTo, NoDebt, Ended, Position;
      hide Settlement.Balanced;
      extended := completed;
      var verdict := Check(i, g);
      ReadyWeaker(i, g, clean, faults == g.faults);
      if verdict == Unreadable || verdict == Refused {
        Interrupt(i, completed, g);
        return true, Interrupted(i), extended;
      }
      extended := completed + [i];
      if verdict == Reached {
        SkipStep(i, completed, g);
        return false, NotLoaded, extended;
      }
      var ok := TakeStep(i, completed, g);
      return !ok, StepFailed(i), extended;
    }

    /** From CREATED, when the saga has stopped without a failure of its compensations: the accounts are
        what they were exactly if the sender was not debited. */
    lemma RestoredIffNotDebited(outcome: Outcome, g: Start)
      requires Ended(outcome, g) && g.tracked() && faults.compensation == g.faults.compensation
      requires TotalOf(order) > 0 && order.target >= 0 && order.fee >= 0
      ensures repo.rows == g.rows <==> !debited
    {
      hide Steps, TotalOf, Ready, PaidOut, Compensations;
    }

    /** What a caller can tell before: in a run from CREATED that meets no failure of the database, the
        accounts end as they began exactly if the sender's money is not there; and the money has moved
        although the payment failed exactly if it is, but the receiver can get no account or the journal
        cannot be stored. */
    lemma OutcomeForeseen(outcome: Outcome, g: Start)
      requires Ended(outcome, g) && g.tracked() && g.unsettled && faults == g.faults
      requires TotalOf(order) > 0 && order.target >= 0 && order.fee >= 0
      ensures repo.rows == g.rows <==> !ReadyFunds(g.rows, g.owners)
      ensures status != Closed && repo.rows != g.rows <==>
        && ReadyFunds(g.rows, g.owners)
        && !(ReadyReceiver(g.rows, g.owners) && ReadyToSettle(g.rows))
      ensures ReadyFunds(g.rows, g.owners) ==> repo.rows == FinalRows(g.rows, g.owners)
    {
      hide Steps, TotalOf, PaidOut, Compensations, FinalRows, ReadyFunds, ReadyReceiver, ReadyToSettle;
    }

    /** Any order without a fee fails with the money moved, if the sender has it. */
    lemma FeelessFails(outcome: Outcome, g: Start)
      requires Ended(outcome, g) && g.tracked() && g.unsettled && faults == g.faults
      requires TotalOf(order) > 0 && order.target >= 0 && order.fee == 0 && ReadyFunds(g.rows, g.owners)
      ensures status != Closed && repo.rows != g.rows
    {
      OutcomeForeseen(outcome, g);
      hide Ended, ReadyFunds, ReadyReceiver, TotalOf, FinalRows;
    }

    /** A refused receiver: the sender's total is settled, and the release takes another hold of that size
        out of what the account had frozen before, if there is one. */
    lemma RefusedReceiver(t0: Rows, o0: Owners)
      requires ReadyFunds(t0, o0) && !ReadyReceiver(t0, o0) && NoDebt(t0)
      ensures var sender, n := o0[SenderKey()], TotalOf(order);
        var before, after := t0[sender], At(FinalRows(t0, o0), sender);
        after == if before.frozen >= n
          then Account(before.available, before.frozen - n, before.settled + n)
          else Account(before.available - n, before.frozen, before.settled + n)
    {
      hide TotalOf;
    }

    /** A journal that cannot be stored: the compensations leave every account with what the payment gave
        it, and the sender with the total once more. */
    lemma UnstoredJournal(t0: Rows, o0: Owners, x: string)
      requires ReadyFunds(t0, o0) && ReadyReceiver(t0, o0) && !ReadyToSettle(t0) && NoDebt(t0)
      ensures var sender, receiver := o0[SenderKey()], OwnersAfter(o0)[ReceiverKey()];
        Total(At(FinalRows(t0, o0), x)) == Total(At(PaidRows(t0, o0), x)) + if x == sender then TotalOf(order) else 0
      ensures var sender, n := o0[SenderKey()], TotalOf(order);
        var refunded := GivenBack(PaidRows(t0, o0), order, OwnersAfter(o0), sender);
        var released := if x == sender then Taken(At(refunded, x).frozen, n) else 0;
        && At(FinalRows(t0, o0), x).available == At(refunded, x).available + released
        && At(FinalRows(t0, o0), x).frozen == At(refunded, x).frozen - released
        && At(FinalRows(t0, o0), x).settled == At(refunded, x).settled
      ensures MovedExactly(t0, PaidRows(t0, o0), order, o0[SenderKey()], OwnersAfter(o0)[ReceiverKey()])
    {
      var sender := o0[SenderKey()];
      hide TotalOf, Paid, GivenBack, Unfreeze, Freeze, Debit, MovedExactly;
      PaidMoves(t0, order, sender, OwnersAfter(o0)[ReceiverKey()]);
      PaidKeeps(t0, o0);
      RefundTakesNothing(PaidRows(t0, o0), order, OwnersAfter(o0), sender, x);
      UnfreezeKeepsTotal(GivenBack(PaidRows(t0, o0), order, OwnersAfter(o0), sender), sender, TotalOf(order), x);
      UnfreezeAt(GivenBack(PaidRows(t0, o0), order, OwnersAfter(o0), sender), sender, TotalOf(order), x);
    }

    lemma PaidKeeps(t0: Rows, o0: Owners)
      requires ReadyFunds(t0, o0)
      ensures o0[SenderKey()] in PaidRows(t0, o0)
    {
      hide TotalOf;
    }

    /** The saga, for any order, any stored status, and any failures of the database. */
    method RunSaga() returns (outcome: Outcome)
      requires Consistent() && Steps(history, status) && !debited && compensated == [] && NoDebt(repo.rows)
      requires newAccountId != order.settlementAccount && newAccountId != order.feeAccount
      modifies this, repo
      ensures Settlement.Balanced(old(entries)) ==> Settlement.Balanced(entries)
      ensures Ended(outcome, Start(old(status), old(repo.rows), old(owners), old(faults),
                                   old(entries) == []))
    {
      ghost var g := Start(status, repo.rows, owners, faults, entries == []);
      var completed: seq<nat> := [];
      var failed := Fails(InStep);
      if failed { return NotLoaded; }
      assert Running(0, completed, g);
      hide Running, Ended, Settlement.Balanced;
      var i := 0;
      while i < STEPS
        invariant 0 <= i <= STEPS && Running(i, completed, g)
        invariant Settlement.Balanced(old(entries)) ==> Settlement.Balanced(entries)
      {
        var over: bool;
        over, outcome, completed := OneStep(i, completed, g);
        if over { return; }
        i := i + 1;
      }
      FinishedEnds(completed, g);
      return Finished;
    }
  }

  datatype Verdict = Unreadable | Reached | Refused | Proceed

  /** No account has a negative frozen balance. */
  ghost predicate NoDebt(t: Rows) {
    forall id | id in t :: t[id].frozen >= 0
  }

  /** How a run started: the stored status, the accounts, the failures counted so far, and whether
      the payment had no ledger entries yet. */
  datatype Start = Start(from: Status, rows: Rows, owners: Owners, faults: Faults, unsettled: bool) {
    /** The run started from CREATED. */
    ghost predicate tracked() {
      from == Status.Created
    }
  }

  function UpTo(i: nat): seq<nat> {
    seq(i, k => k)
  }

  lemma CompensationsUpTo(i: nat)
    requires i <= PAYMENT_EXECUTING
    ensures Compensations(UpTo(i)) == if i == PAYMENT_EXECUTING then [FUNDS_FREEZE] else []
  {
    assert UpTo(1)[..0] == [] && UpTo(2)[..1] == UpTo(1) && UpTo(3)[..2] == UpTo(2);
    assert Compensations(UpTo(1)) == [];
    assert Compensations(UpTo(2)) == [];
  }

  /** Which compensations are due after any number of steps: the hold is released, the payment refunded, the
      settlement reversed, each from the moment on that its step is completed, and nothing else. */
  lemma {:induction false} CompensationsDue(i: nat)
    requires i <= STEPS
    ensures Compensations(UpTo(i)) ==
      if i <= FUNDS_FREEZE then []
      else if i <= PAYMENT_CONFIRMED then [FUNDS_FREEZE]
      else if i <= SETTLEMENT then [PAYMENT_CONFIRMED, FUNDS_FREEZE]
      else [SETTLEMENT, PAYMENT_CONFIRMED, FUNDS_FREEZE]
  {
    hide HasCompensation;
    if i == 0 {
      NoCompensations();
      assert UpTo(0) == [];
    } else {
      CompensationsDue(i - 1);
      CompensationsNext(i - 1);
      assert HasCompensation(i - 1) <==> i - 1 in {FUNDS_FREEZE, PAYMENT_CONFIRMED, SETTLEMENT} by {
        CompensatedSteps(i - 1);
      }
      hide Compensations, UpTo;
    }
  }

  lemma CompensatedSteps(step: nat)
    ensures HasCompensation(step) <==> step in {2, 4, 5}
  {
  }

  lemma CompensationsNext(i: nat)
    ensures Compensations(UpTo(i + 1)) == (if HasCompensation(i) then [i] else []) + Compensations(UpTo(i))
  {
    assert UpTo(i + 1)[..i] == UpTo(i) && UpTo(i + 1)[i] == i;
  }

  lemma CompensationsOfSettlement()
    ensures Compensations(UpTo(SETTLEMENT)) == [PAYMENT_CONFIRMED, FUNDS_FREEZE]
  {
    CompensationsUpTo(PAYMENT_EXECUTING);
    assert UpTo(4)[..3] == UpTo(3) && UpTo(5)[..4] == UpTo(4);
    assert Compensations(UpTo(4)) == [FUNDS_FREEZE];
  }

  lemma UndoHold(t: Rows, o: Order, owners: Owners)
    ensures UndoAll(t, o, owners, []) == t
    ensures UndoAll(t, o, owners, [FUNDS_FREEZE]) == Undo(t, o, owners, FUNDS_FREEZE)
  {
    UndoOneMore(t, o, owners, [], FUNDS_FREEZE);
    assert [] + [FUNDS_FREEZE] == [FUNDS_FREEZE];
  }

  lemma UndoRefundAndHold(t: Rows, o: Order, owners: Owners)
    ensures UndoAll(t, o, owners, [PAYMENT_CONFIRMED, FUNDS_FREEZE])
      == Undo(Undo(t, o, owners, PAYMENT_CONFIRMED), o, owners, FUNDS_FREEZE)
  {
    hide Undo;
    UndoOneMore(t, o, owners, [], PAYMENT_CONFIRMED);
    UndoOneMore(t, o, owners, [PAYMENT_CONFIRMED], FUNDS_FREEZE);
    assert [] + [PAYMENT_CONFIRMED] == [PAYMENT_CONFIRMED];
    assert [PAYMENT_CONFIRMED] + [FUNDS_FREEZE] == [PAYMENT_CONFIRMED, FUNDS_FREEZE];
  }

  lemma HeldFacts(t0: Rows, sender: string, n: int)
    requires sender in t0 && t0[sender].available >= n && t0[sender].frozen >= 0
    ensures var held := Freeze(t0, sender, n).0;
      && held.Keys == t0.Keys && held[sender].frozen >= n
      && var u := Debit(held, sender, n).0;
      && sender in u && u[sender].settled == t0[sender].settled + n
      && forall v: Rows :: SettledKept(u, v) ==> sender in v && v[sender].settled >= t0[sender].settled + n
  {
  }

  lemma MovedSettles(t: Rows, u: Rows, o: Order, sender: string, receiver: string)
    requires MovedExactly(t, u, o, sender, receiver) && sender in t
    ensures sender in u && u[sender].settled == t[sender].settled + TotalOf(o)
    ensures u.Keys == t.Keys + {receiver}
  {
  }

  /** The amounts that the ledger table accepts. */
  predicate Amounts(o: Order) {
    o.source > 0 && o.target > 0 && o.fee > 0 && TotalOf(o) > 0
  }

  lemma ZeroBalanced(entries: seq<Settlement.Entry>)
    requires Settlement.Balanced(entries)
    ensures forall c :: Unsigned(Settlement.Net(entries, c)) == 0
  {
    UnsignedId(0);
  }

  lemma ReversalsInsertable(entries: seq<Settlement.Entry>)
    ensures Settlement.Insertable(Settlement.Reversals(entries)) <==> Settlement.Insertable(entries)
  {
    var r := Settlement.Reversals(entries);
    assert |r| == |entries| && forall i | 0 <= i < |r| :: r[i].amount == entries[i].amount;
  }

  lemma AmountsInsertable(o: Order, p: Settlement.Payment, b: Settlement.Balances)
    requires p.source == o.source && p.target == o.target && p.fee == o.fee
    ensures Settlement.Insertable(Settlement.Journal(p, b)) <==> Amounts(o)
  {
    var j := Settlement.Journal(p, b);
    assert j[0].amount == TotalOf(o) && j[2].amount == o.source && j[4].amount == o.fee && j[6].amount == o.target;
  }
}
