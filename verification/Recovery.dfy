/** Restart: reading the log, parsing its snapshots, restoring the ledger. */
module Recovery {
  import opened Word
  import opened Options
  import opened LedgerSpec
  import opened WalFormat
  import opened WalStore
  import LedgerStore
  import SnapshotText

  /** What the engine asked the log to keep. */
  datatype Logged =
    | CommandRecord(image: string)
    | EventRecord(text: string)
    | SnapshotRecord(accounts: map<uint64, Balance>, order: seq<uint64>)

  ghost predicate Writes(r: Record, l: Logged) {
    match l
    case CommandRecord(image) => r.kind == COMMAND && r.data == image
    case EventRecord(text) => r.kind == EVENT && r.data == text
    case SnapshotRecord(accounts, order) =>
      SnapshotText.Enumerates(order, accounts) && r.kind == SNAPSHOT && r.data == SnapshotText.Render(accounts, order)
  }

  ghost predicate Matches(rs: seq<Record>, log: seq<Logged>) {
    |rs| == |log| && forall i | 0 <= i < |rs| :: Writes(rs[i], log[i])
  }

  /** The ledger after going through the entries in order; None when a conversion throws. Only
      snapshots count: commands are not executed again. */
  ghost function RecoverEntries(entries: seq<Entry>, l: Ledger): Option<Ledger> {
    if entries == [] then Some(l)
    else if entries[0].kind != SNAPSHOT then RecoverEntries(entries[1..], l)
    else
      match SnapshotText.ParseText(entries[0].data)
      case None => None
      case Some(accounts) => RecoverEntries(entries[1..], Restored(accounts))
  }

  /** The sequence number handed out next starts from the log's last one, unless nothing was read or a
      conversion threw. */
  method RestoreFromWal(wal: Wal, store: LedgerStore.Store, current: uint64) returns (ok: bool, sequence: uint64)
    requires wal.Valid()
    modifies store
    ensures var entries := ReadAll(wal.checksum, wal.file);
      var r := RecoverEntries(entries, old(store.View()));
      && (ok <==> r.Some?)
      && (ok ==> store.View() == r.value)
      && sequence == (if ok && entries != [] then wal.lastSequenceId else current)
  {
    var entries := wal.ReadEntries();
    if entries == [] { return true, current; }
    var i := 0;
    assert entries[0..] == entries;
    while i < |entries|
      invariant 0 <= i <= |entries|
      invariant RecoverEntries(entries[i..], store.View()) == RecoverEntries(entries, old(store.View()))
    {
      assert entries[i..][1..] == entries[i + 1..];
      if entries[i].kind == SNAPSHOT {
        var state := SnapshotText.Parse(entries[i].data);
        match state
        case None => return false, current;
        case Some(accounts) => store.Restore(accounts);
      }
      i := i + 1;
    }
    return true, wal.lastSequenceId;
  }

  /** The accounts of the last snapshot in a log. */
  ghost function LastSnapshot(log: seq<Logged>): Option<map<uint64, Balance>> {
    if log == [] then None
    else if log[|log| - 1].SnapshotRecord? then Some(log[|log| - 1].accounts)
    else LastSnapshot(log[..|log| - 1])
  }

  lemma {:induction false} RecoverConcat(a: seq<Entry>, b: seq<Entry>, l: Ledger)
    ensures RecoverEntries(a + b, l) ==
      match RecoverEntries(a, l)
      case None => None
      case Some(k) => RecoverEntries(b, k)
  {
    hide Restored;
    if a == [] {
      assert a + b == b;
    } else {
      assert (a + b)[1..] == a[1..] + b;
      RecoverConcat(a[1..], b, l);
      if a[0].kind == SNAPSHOT {
        match SnapshotText.ParseText(a[0].data)
        case None =>
        case Some(accounts) => RecoverConcat(a[1..], b, Restored(accounts));
      }
    }
  }

  ghost function LedgerFrom(snapshot: Option<map<uint64, Balance>>, l: Ledger): Ledger {
    match snapshot
    case None => l
    case Some(accounts) => Restored(accounts)
  }

  lemma RecoverOne(r: Record, item: Logged, l: Ledger)
    requires Writes(r, item)
    ensures RecoverEntries([Entry(r.kind, r.data)], l) ==
      Some(if item.SnapshotRecord? then Restored(item.accounts) else l)
  {
    hide Restored, SnapshotText.ParseText;
    var e := [Entry(r.kind, r.data)];
    assert e[1..] == [];
    if item.SnapshotRecord? {
      SnapshotText.SnapshotRoundTrip(item.accounts, item.order);
    }
  }

  lemma {:induction false} RecoverLog(rs: seq<Record>, log: seq<Logged>, l: Ledger)
    requires Matches(rs, log)
    ensures RecoverEntries(Entries(rs), l) == Some(LedgerFrom(LastSnapshot(log), l))
  {
    hide Restored, Writes;
    if rs != [] {
      var n := |rs| - 1;
      RecoverLog(rs[..n], log[..n], l);
      assert Entries(rs) == Entries(rs[..n]) + [Entry(rs[n].kind, rs[n].data)];
      RecoverConcat(Entries(rs[..n]), [Entry(rs[n].kind, rs[n].data)], l);
      RecoverOne(rs[n], log[n], LedgerFrom(LastSnapshot(log[..n]), l));
      hide RecoverEntries;
    }
  }

  /** Crash recovery, end to end: write any commands, events and snapshots, cut the bytes anywhere, and
      restart. The ledger is exactly that of the last snapshot that lies wholly before the cut, with
      both aggregates recomputed; or the initial one, if there is no such snapshot. `k` is how many
      records lie wholly before the cut. */
  lemma CrashRecovery(ck: string -> uint64, rs: seq<Record>, log: seq<Logged>, cut: nat, l: Ledger) returns (k: nat)
    requires Matches(rs, log) && AllReadable(rs) && cut <= |Encode(ck, rs)|
    ensures k <= |rs| && |Encode(ck, rs[..k])| <= cut
    ensures k < |rs| ==> cut < |Encode(ck, rs[..k + 1])|
    ensures RecoverEntries(ReadAll(ck, Encode(ck, rs)[..cut]), l) == Some(LedgerFrom(LastSnapshot(log[..k]), l))
  {
    hide Restored, ReadAll, Encode, RecoverEntries;
    k := CutExists(ck, rs, cut);
    CrashPrefix(ck, rs, cut, k);
    RecoverLog(rs[..k], log[..k], l);
  }

  /** The snapshot of a ledger without accounts is an empty payload, and an empty payload ends every
      later reading: nothing logged after it, snapshots included, is ever recovered. */
  lemma EmptySnapshotHidesTheRest(ck: string -> uint64, rs: seq<Record>, r: Record, later: seq<Record>,
                                  log: seq<Logged>, l: Ledger)
    requires Matches(rs, log) && AllReadable(rs) && Typed(later)
    requires Writes(r, SnapshotRecord(map[], []))
    ensures RecoverEntries(ReadAll(ck, Encode(ck, rs) + (EncodeRecord(ck, r) + Encode(ck, later))), l) ==
      Some(LedgerFrom(LastSnapshot(log), l))
  {
    hide Restored, ReadAll, Encode, EncodeRecord;
    ReadPrefix(ck, rs, EncodeRecord(ck, r) + Encode(ck, later));
    UnreadableLost(ck, r, Encode(ck, later));
    assert Entries(rs) + [] == Entries(rs);
    RecoverLog(rs, log, l);
  }
}
