/** The payment state table, the update that enforces it, and what it says about whole histories. */
module PaymentStatus {
  datatype Status =
    | Created | QuoteLocked | CompliancePrechecked | Pending | Executing | Confirmed | SettlementProofed
    | Reconciled | Closed | RiskRejected | Failed | RefundPending | Refunded | Disputed | Frozen | ManualReview
    | Cancelled | Rejected | Completed

  type Transitions = map<Status, seq<Status>>

  /** The successors of a state; the legacy COMPLETED has no row in the table. */
  function Successors(s: Status): seq<Status> {
    match s
    case Created => [QuoteLocked, Cancelled, RiskRejected, Failed]
    case QuoteLocked => [CompliancePrechecked, RiskRejected, Failed]
    case CompliancePrechecked => [Pending, ManualReview, Failed]
    case Pending => [Executing, Cancelled, Failed]
    case Executing => [Confirmed, Failed]
    case Confirmed => [SettlementProofed, Failed]
    case SettlementProofed => [Reconciled, Disputed, Failed]
    case Reconciled => [Closed, Disputed, Failed]
    case Closed => [RefundPending, Disputed]
    case RefundPending => [Refunded, Disputed]
    case ManualReview => [Pending, RiskRejected, Frozen, Failed]
    case Disputed => [Reconciled, Closed]
    case _ => []
  }

  const VALID_TRANSITIONS: Transitions := map s: Status | s != Completed :: Successors(s)

  predicate IsTerminal(s: Status) {
    s == Closed || s == RiskRejected || s == Rejected || s == Failed || s == Refunded || s == Cancelled
  }

  predicate Allows(table: Transitions, from: Status, to: Status) {
    from in table && to in table[from]
  }

  /** The payment table itself, as a relation. */
  predicate Permitted(s: Status, t: Status) {
    t in Successors(s)
  }

  lemma AllowsMeans(s: Status, t: Status)
    ensures Allows(VALID_TRANSITIONS, s, t) <==> Permitted(s, t)
  {
  }

  /** The lookup loop. */
  method CanTransition(table: Transitions, from: Status, to: Status) returns (ok: bool)
    ensures ok <==> Allows(table, from, to)
  {
    if from !in table { return false; }
    var allowed := table[from];
    for i := 0 to |allowed|
      invariant to !in allowed[..i]
    {
      if allowed[i] == to { return true; }
    }
    return false;
  }

  /** The source states of an update: the table read backwards, in any order of its keys. */
  method SourcesOf(table: Transitions, to: Status) returns (sources: seq<Status>)
    ensures forall s :: s in sources <==> Allows(table, s, to)
  {
    sources := [];
    var rest := table.Keys;
    while rest != {}
      invariant rest <= table.Keys
      invariant forall s :: s in sources <==> s !in rest && Allows(table, s, to)
    {
      var from :| from in rest;
      sources := AppendIfListed(sources, from, table[from], to);
      rest := rest - {from};
    }
  }

  /** The inner loop: the source is appended at every occurrence of the target in its row. */
  method AppendIfListed(sources: seq<Status>, from: Status, tos: seq<Status>, to: Status) returns (r: seq<Status>)
    ensures forall s :: s in r <==> s in sources || (s == from && to in tos)
  {
    r := sources;
    for i := 0 to |tos|
      invariant forall s :: s in r <==> s in sources || (s == from && to in tos[..i])
    {
      assert to in tos[..i + 1] <==> to in tos[..i] || tos[i] == to;
      if tos[i] == to {
        r := r + [from];
      }
    }
  }

  /** The guarded update admits a change exactly when the table does, whatever the table; otherwise the
      stored status stays. `known` says whether there is such a payment. */
  method UpdateStatus(table: Transitions, current: Status, known: bool, to: Status) returns (ok: bool, stored: Status)
    ensures ok <==> known && Allows(table, current, to)
    ensures stored == if ok then to else current
  {
    var validFrom := SourcesOf(table, to);
    if |validFrom| == 0 { return false, current; }
    if known && current in validFrom {
      return true, to;
    }
    return false, current;
  }

  /** The update and the check with the payment table. */
  method UpdateStored(current: Status, to: Status) returns (ok: bool, stored: Status)
    ensures ok <==> Permitted(current, to)
    ensures stored == if ok then to else current
  {
    AllowsMeans(current, to);
    hide Permitted;
    ok, stored := UpdateStatus(VALID_TRANSITIONS, current, true, to);
  }

  method MayMove(current: Status, to: Status) returns (ok: bool)
    ensures ok <==> Permitted(current, to)
  {
    AllowsMeans(current, to);
    hide Permitted;
    ok := CanTransition(VALID_TRANSITIONS, current, to);
  }

  // ---- histories ----

  ghost predicate Path(history: seq<Status>) {
    && history != [] && history[0] == Created
    && forall i | 1 <= i < |history| :: Allows(VALID_TRANSITIONS, history[i - 1], history[i])
  }

  const MILESTONES: seq<Status> := [QuoteLocked, CompliancePrechecked, Pending, Executing, Confirmed, SettlementProofed]

  /** How many milestones a payment must have passed to be in a state. */
  function Required(s: Status): nat {
    match s
    case QuoteLocked => 1
    case CompliancePrechecked => 2
    case ManualReview => 2
    case Frozen => 2
    case Pending => 3
    case Executing => 4
    case Confirmed => 5
    case SettlementProofed => 6
    case Reconciled => 6
    case Closed => 6
    case Disputed => 6
    case RefundPending => 6
    case Refunded => 6
    case _ => 0
  }

  /** Positions of the first `k` milestones in a history, in increasing order. */
  ghost predicate PassedAt(history: seq<Status>, at: seq<nat>) {
    && |at| <= |MILESTONES|
    && (forall j | 0 <= j < |at| :: at[j] < |history| && history[at[j]] == MILESTONES[j])
    && (forall i, j | 0 <= i < j < |at| :: at[i] < at[j])
  }

  /** One transition passes at most one milestone, and that one is the next. */
  lemma StepRequired(s: Status, t: Status)
    requires Allows(VALID_TRANSITIONS, s, t)
    ensures Required(t) <= Required(s) || (Required(t) == Required(s) + 1 <= 6 && t == MILESTONES[Required(s)])
  {
    assert t in Successors(s);
  }

  /** Positions stay right when the history goes on, and the next milestone can be added to them. */
  lemma PassedOn(history: seq<Status>, at: seq<nat>)
    requires history != [] && PassedAt(history[..|history| - 1], at)
    ensures PassedAt(history, at)
    ensures |at| < |MILESTONES| && history[|history| - 1] == MILESTONES[|at|] ==>
      PassedAt(history, at + [|history| - 1])
  {
  }

  lemma PathBefore(history: seq<Status>)
    requires Path(history) && |history| > 1
    ensures Path(history[..|history| - 1])
    ensures Allows(VALID_TRANSITIONS, history[|history| - 2], history[|history| - 1])
  {
    hide VALID_TRANSITIONS, Allows;
  }

  lemma {:induction false} Milestones(history: seq<Status>) returns (at: seq<nat>)
    requires Path(history)
    ensures PassedAt(history, at) && |at| >= Required(history[|history| - 1])
  {
    var n := |history| - 1;
    at := [];
    if n > 0 {
      PathBefore(history);
      hide VALID_TRANSITIONS, Path, Allows;
      at := Milestones(history[..n]);
      PassedOn(history, at);
      StepRequired(history[n - 1], history[n]);
      hide PassedAt, Required;
      if |at| < |MILESTONES| && history[n] == MILESTONES[|at|] {
        at := at + [n];
      }
    }
  }

  /** In every history, of any length, a payment is closed only after the six stages before it, in
      this order. */
  lemma ClosedOnlyAfterSettlement(history: seq<Status>) returns (at: seq<nat>)
    requires Path(history) && history[|history| - 1] == Closed
    ensures PassedAt(history, at) && |at| == |MILESTONES| && at[5] < |history| - 1
  {
    at := Milestones(history);
    assert history[at[5]] == SettlementProofed;
  }

  /** A payment is refunded only after it was closed. */
  lemma {:induction false} RefundedOnlyAfterClosed(history: seq<Status>)
    requires Path(history) && (history[|history| - 1] == Refunded || history[|history| - 1] == RefundPending)
    ensures Closed in history
  {
    var n := |history| - 1;
    assert Allows(VALID_TRANSITIONS, history[n - 1], history[n]);
    if history[n] == Refunded {
      RefundedOnlyAfterClosed(history[..n]);
    }
  }

  /** The table read backwards: from which states a payment may get to one. */
  function Sources(t: Status): set<Status> {
    match t
    case Created => {}
    case QuoteLocked => {Created}
    case CompliancePrechecked => {QuoteLocked}
    case Pending => {CompliancePrechecked, ManualReview}
    case Executing => {Pending}
    case Confirmed => {Executing}
    case SettlementProofed => {Confirmed}
    case Reconciled => {SettlementProofed, Disputed}
    case Closed => {Reconciled, Disputed}
    case RiskRejected => {Created, QuoteLocked, ManualReview}
    case Failed => {Created, QuoteLocked, CompliancePrechecked, Pending, Executing, Confirmed, SettlementProofed,
                    Reconciled, ManualReview}
    case RefundPending => {Closed}
    case Refunded => {RefundPending}
    case Disputed => {SettlementProofed, Reconciled, Closed, RefundPending}
    case Frozen => {ManualReview}
    case ManualReview => {CompliancePrechecked}
    case Cancelled => {Created, Pending}
    case Rejected => {}
    case Completed => {}
  }

  /** Both readings of the table agree: nothing is permitted but this, and all of this is. */
  lemma InvertedTable(s: Status, t: Status)
    ensures Permitted(s, t) <==> s in Sources(t)
  {
  }

  /** One of the states before a state, closer to CREATED; FAILED stands in for states without one. */
  function Before(s: Status): Status {
    match s
    case CompliancePrechecked => QuoteLocked
    case Pending => CompliancePrechecked
    case ManualReview => CompliancePrechecked
    case Frozen => ManualReview
    case Executing => Pending
    case Confirmed => Executing
    case SettlementProofed => Confirmed
    case Disputed => SettlementProofed
    case Reconciled => SettlementProofed
    case Closed => Reconciled
    case RefundPending => Closed
    case Refunded => RefundPending
    case _ => Created
  }

  function Depth(s: Status): nat {
    match s
    case Created => 0
    case CompliancePrechecked => 2
    case Pending => 3
    case ManualReview => 3
    case Frozen => 4
    case Executing => 4
    case Confirmed => 5
    case SettlementProofed => 6
    case Disputed => 7
    case Reconciled => 7
    case Closed => 8
    case RefundPending => 9
    case Refunded => 10
    case _ => 1
  }

  lemma BeforePermits(s: Status)
    requires s != Created && s != Rejected && s != Completed
    ensures Permitted(Before(s), s) && Depth(Before(s)) < Depth(s) && Before(s) != Rejected && Before(s) != Completed
  {
  }

  /** A way to every state that has one. */
  lemma {:induction false} RouteTo(s: Status) returns (history: seq<Status>)
    requires s != Rejected && s != Completed
    ensures Path(history) && history[|history| - 1] == s
    decreases Depth(s)
  {
    hide Permitted, Depth, Path;
    if s == Created {
      history := [Created];
      PathStarts();
    } else {
      BeforePermits(s);
      history := RouteTo(Before(s));
      PathGoesOn(history, s);
      history := history + [s];
    }
  }

  lemma PathStarts()
    ensures Path([Created])
  {
  }

  lemma PathGoesOn(history: seq<Status>, s: Status)
    requires Path(history) && Permitted(history[|history| - 1], s)
    ensures Path(history + [s])
  {
    AllowsMeans(history[|history| - 1], s);
    hide Permitted, Allows, VALID_TRANSITIONS;
  }

  /** Every state can be reached, REFUNDED included, but the legacy REJECTED and COMPLETED. */
  lemma ReachableExactly(s: Status)
    ensures (exists history :: Path(history) && history[|history| - 1] == s) <==> s != Rejected && s != Completed
  {
    if s != Rejected && s != Completed {
      var history := RouteTo(s);
    }
    forall history | Path(history) && history[|history| - 1] == s
      ensures s != Rejected && s != Completed
    {
      var n := |history| - 1;
      if n > 0 {
        AllowsMeans(history[n - 1], s);
        InvertedTable(history[n - 1], s);
      }
    }
  }

  ghost predicate Stuck(s: Status) {
    forall t :: !Allows(VALID_TRANSITIONS, s, t)
  }

  /** `IsTerminal` is not "no way out": CLOSED is terminal and has successors, while FROZEN and the
      legacy COMPLETED have none and are not terminal. These are the only differences. */
  lemma TerminalVersusStuck(s: Status)
    ensures (IsTerminal(s) <==> Stuck(s)) <==> s != Closed && s != Frozen && s != Completed
  {
    StuckMeans(s);
    hide VALID_TRANSITIONS, Stuck;
  }

  lemma StuckMeans(s: Status)
    ensures Stuck(s) <==> Successors(s) == []
  {
    if Successors(s) != [] {
      assert Allows(VALID_TRANSITIONS, s, Successors(s)[0]);
    }
  }
}
