/** The write-ahead log's bytes: records framed by a 32-byte header, and the reader that recovers them.
    A byte is a `char`, as in the C++ streams; only values below 256 occur. */
module WalFormat {
  import opened Word

  const HEADER_SIZE: nat := 32
  const MAX_PAYLOAD: nat := 100 * 1024 * 1024
  const TWO_TO_32: nat := 0x1_0000_0000

  datatype Header = Header(sequenceId: uint64, recordType: nat, payloadSize: nat, timestamp: uint64, checksum: uint64)

  /** A record as it is written; `sealed` tells whether checksums were enabled. */
  datatype Record = Record(sequenceId: uint64, kind: nat, data: string, timestamp: uint64, sealed: bool)

  /** A record as it is read back. */
  datatype Entry = Entry(kind: nat, data: string)

  // ---- little-endian words ----

  function Pow256(width: nat): nat {
    if width == 0 then 1 else 256 * Pow256(width - 1)
  }

  function EncodeWord(n: nat, width: nat): (b: string)
    ensures |b| == width
  {
    if width == 0 then "" else [(n % 256) as char] + EncodeWord(n / 256, width - 1)
  }

  function DecodeWord(b: string): nat {
    if b == "" then 0 else b[0] as int + 256 * DecodeWord(b[1..])
  }

  lemma {:induction false} WordRoundTrip(n: nat, width: nat)
    requires n < Pow256(width)
    ensures DecodeWord(EncodeWord(n, width)) == n
  {
    if width > 0 {
      WordRoundTrip(n / 256, width - 1);
      var b := EncodeWord(n, width);
      assert b[1..] == EncodeWord(n / 256, width - 1);
    }
  }

  lemma WordSizes()
    ensures Pow256(4) == TWO_TO_32 && Pow256(8) == TWO_TO_64
  {
    assert Pow256(2) == 65536;
    assert Pow256(4) == 65536 * 65536;
    assert Pow256(6) == 65536 * Pow256(4);
    assert Pow256(8) == 65536 * Pow256(6);
  }

  /** Words are little-endian. */
  lemma WordSample()
    ensures EncodeWord(0x0102, 4) == [2 as char, 1 as char, 0 as char, 0 as char]
  {
    assert EncodeWord(0, 1) == [0 as char];
    assert EncodeWord(0, 2) == [0 as char] + EncodeWord(0, 1);
    assert EncodeWord(1, 3) == [1 as char] + EncodeWord(0, 2);
  }

  // ---- header ----

  function EncodeHeader(h: Header): (b: string)
    ensures |b| == HEADER_SIZE
  {
    EncodeWord(h.sequenceId, 8) + EncodeWord(h.recordType, 4) + EncodeWord(h.payloadSize, 4)
      + EncodeWord(h.timestamp, 8) + EncodeWord(h.checksum, 8)
  }

  function DecodeHeader(b: string): Header
    requires |b| == HEADER_SIZE
  {
    Header(Unsigned(DecodeWord(b[0..8])), DecodeWord(b[8..12]), DecodeWord(b[12..16]),
           Unsigned(DecodeWord(b[16..24])), Unsigned(DecodeWord(b[24..32])))
  }

  lemma HeaderRoundTrip(h: Header)
    requires h.recordType < TWO_TO_32 && h.payloadSize < TWO_TO_32
    ensures DecodeHeader(EncodeHeader(h)) == h
  {
    WordSizes();
    WordRoundTrip(h.sequenceId, 8);
    WordRoundTrip(h.recordType, 4);
    WordRoundTrip(h.payloadSize, 4);
    WordRoundTrip(h.timestamp, 8);
    WordRoundTrip(h.checksum, 8);
    HeaderSlices(h);
    UnsignedId(h.sequenceId);
    UnsignedId(h.timestamp);
    UnsignedId(h.checksum);
    hide EncodeWord, DecodeWord, EncodeHeader, Pow256, Unsigned;
  }

  lemma HeaderSlices(h: Header)
    ensures var b := EncodeHeader(h);
      && b[0..8] == EncodeWord(h.sequenceId, 8) && b[8..12] == EncodeWord(h.recordType, 4)
      && b[12..16] == EncodeWord(h.payloadSize, 4) && b[16..24] == EncodeWord(h.timestamp, 8)
      && b[24..32] == EncodeWord(h.checksum, 8)
  {
    hide EncodeWord;
  }

  // ---- records ----

  /** What `write_entry` appends. The size field is 32 bits wide. */
  function EncodeRecord(ck: string -> uint64, r: Record): (b: string)
    ensures |b| == HEADER_SIZE + |r.data|
  {
    EncodeHeader(HeaderOf(ck, r)) + r.data
  }

  function HeaderOf(ck: string -> uint64, r: Record): Header {
    Header(r.sequenceId, r.kind % TWO_TO_32, |r.data| % TWO_TO_32, r.timestamp, if r.sealed then ck(r.data) else 0)
  }

  function Encode(ck: string -> uint64, rs: seq<Record>): string {
    if rs == [] then "" else EncodeRecord(ck, rs[0]) + Encode(ck, rs[1..])
  }

  /** What the reader makes of the bytes: records until the first that is cut off, has no acceptable
      size, or fails its checksum. A stored checksum of 0 is not verified. */
  function ReadAll(ck: string -> uint64, file: string): seq<Entry>
    decreases |file|
  {
    if |file| < HEADER_SIZE then [] else
      var h := DecodeHeader(file[..HEADER_SIZE]);
      if h.payloadSize == 0 || h.payloadSize > MAX_PAYLOAD then []
      else if |file| < HEADER_SIZE + h.payloadSize then []
      else
        var data := file[HEADER_SIZE..HEADER_SIZE + h.payloadSize];
        if h.checksum != 0 && ck(data) != h.checksum then []
        else [Entry(h.recordType % 256, data)] + ReadAll(ck, file[HEADER_SIZE + h.payloadSize..])
  }

  /** One turn of the reader, by position in the file. */
  lemma ReadTurn(ck: string -> uint64, file: string, pos: nat)
    requires pos <= |file|
    ensures var all, start := ReadAll(ck, file[pos..]), pos + HEADER_SIZE;
      if start > |file| then all == [] else
        var h := DecodeHeader(file[pos..start]);
        var end := start + h.payloadSize;
        if h.payloadSize == 0 || h.payloadSize > MAX_PAYLOAD || end > |file| then all == []
        else if h.checksum != 0 && ck(file[start..end]) != h.checksum then all == []
        else all == [Entry(h.recordType % 256, file[start..end])] + ReadAll(ck, file[end..])
  {
    hide DecodeHeader;
    var rest, start := file[pos..], pos + HEADER_SIZE;
    if start <= |file| {
      Parts(file, pos, start, start + DecodeHeader(file[pos..start]).payloadSize);
    }
  }

  lemma Parts(file: string, pos: nat, start: nat, end: nat)
    requires pos <= start <= |file| && start <= end
    ensures file[pos..][..start - pos] == file[pos..start]
    ensures end <= |file| ==>
      file[pos..][start - pos..end - pos] == file[start..end] && file[pos..][end - pos..] == file[end..]
  {
  }

  predicate Readable(r: Record) {
    1 <= |r.data| <= MAX_PAYLOAD
  }

  predicate AllReadable(rs: seq<Record>) {
    forall i | 0 <= i < |rs| :: Readable(rs[i])
  }

  /** Record types are 8-bit values. */
  predicate Typed(rs: seq<Record>) {
    forall i | 0 <= i < |rs| :: rs[i].kind < 256
  }

  function Entries(rs: seq<Record>): seq<Entry> {
    seq(|rs|, i requires 0 <= i < |rs| => Entry(rs[i].kind, rs[i].data))
  }

  /** What a written record's header says: the sequence id it was given, its type, the payload's size and time,
      and the payload's checksum if checksums are on. */
  lemma HeaderSays(ck: string -> uint64, r: Record)
    requires r.kind < 256 && |r.data| < 0x1_0000_0000
    ensures DecodeHeader(EncodeRecord(ck, r)[..32]) ==
      Header(r.sequenceId, r.kind, |r.data|, r.timestamp, if r.sealed then ck(r.data) else 0)
    ensures EncodeRecord(ck, r)[32..] == r.data
  {
    HeaderRoundTrip(HeaderOf(ck, r));
    assert EncodeRecord(ck, r)[..32] == EncodeHeader(HeaderOf(ck, r));
    hide EncodeHeader, DecodeHeader;
  }

  /** The header that a file starts with is read back whatever follows it. */
  lemma FirstHeader(ck: string -> uint64, r: Record, tail: string)
    requires r.kind < 256
    ensures var file := EncodeHeader(HeaderOf(ck, r)) + tail;
      |file| >= HEADER_SIZE && DecodeHeader(file[..HEADER_SIZE]) == HeaderOf(ck, r) && file[HEADER_SIZE..] == tail
  {
    HeaderRoundTrip(HeaderOf(ck, r));
    var file := EncodeHeader(HeaderOf(ck, r)) + tail;
    assert file[..HEADER_SIZE] == EncodeHeader(HeaderOf(ck, r));
  }

  /** One turn of the reader, on a file that is a header, its payload, and more. */
  lemma ReadStep(ck: string -> uint64, h: Header, payload: string, tail: string, file: string)
    requires |file| >= HEADER_SIZE && DecodeHeader(file[..HEADER_SIZE]) == h
    requires file[HEADER_SIZE..] == payload + tail
    requires |payload| == h.payloadSize && 1 <= |payload| <= MAX_PAYLOAD
    ensures ReadAll(ck, file) ==
      if h.checksum != 0 && ck(payload) != h.checksum then []
      else [Entry(h.recordType % 256, payload)] + ReadAll(ck, tail)
  {
    hide DecodeHeader;
    var end := HEADER_SIZE + |payload|;
    assert file[HEADER_SIZE..end] == file[HEADER_SIZE..][..|payload|] == payload;
    assert file[end..] == file[HEADER_SIZE..][|payload|..] == tail;
  }

  lemma RecordBytes(ck: string -> uint64, r: Record, tail: string)
    requires r.kind < 256
    ensures EncodeRecord(ck, r) + tail == EncodeHeader(HeaderOf(ck, r)) + (r.data + tail)
  {
    hide EncodeHeader;
  }

  /** A payload shorter than its header says yields nothing. */
  lemma ShortPayload(ck: string -> uint64, h: Header, payload: string, file: string)
    requires |file| >= HEADER_SIZE && DecodeHeader(file[..HEADER_SIZE]) == h
    requires file[HEADER_SIZE..] == payload && |payload| < h.payloadSize
    ensures ReadAll(ck, file) == []
  {
    hide DecodeHeader;
  }

  lemma ReadFirst(ck: string -> uint64, r: Record, tail: string)
    requires Readable(r) && r.kind < 256
    ensures ReadAll(ck, EncodeRecord(ck, r) + tail) == [Entry(r.kind, r.data)] + ReadAll(ck, tail)
  {
    hide EncodeHeader, DecodeHeader, EncodeRecord, ReadAll;
    var file := EncodeRecord(ck, r) + tail;
    FirstHeader(ck, r, r.data + tail);
    RecordBytes(ck, r, tail);
    ReadStep(ck, HeaderOf(ck, r), r.data, tail, file);
  }

  /** Readable records are read in full, and reading goes on with whatever follows them. */
  lemma {:induction false} ReadPrefix(ck: string -> uint64, rs: seq<Record>, tail: string)
    requires AllReadable(rs) && Typed(rs)
    ensures ReadAll(ck, Encode(ck, rs) + tail) == Entries(rs) + ReadAll(ck, tail)
  {
    hide ReadAll, EncodeRecord;
    if rs == [] {
      assert Encode(ck, rs) + tail == tail;
    } else {
      var rest := Encode(ck, rs[1..]) + tail;
      assert Encode(ck, rs) + tail == EncodeRecord(ck, rs[0]) + rest;
      ReadFirst(ck, rs[0], rest);
      ReadPrefix(ck, rs[1..], tail);
      assert Entries(rs) == [Entry(rs[0].kind, rs[0].data)] + Entries(rs[1..]);
    }
  }

  lemma {:induction false} EncodeConcat(ck: string -> uint64, a: seq<Record>, b: seq<Record>)
    ensures Encode(ck, a + b) == Encode(ck, a) + Encode(ck, b)
  {
    hide EncodeRecord;
    if a == [] {
      assert a + b == b;
    } else {
      assert (a + b)[1..] == a[1..] + b;
      EncodeConcat(ck, a[1..], b);
    }
  }

  lemma CutRecord(ck: string -> uint64, r: Record, cut: nat)
    requires r.kind < 256 && HEADER_SIZE <= cut <= HEADER_SIZE + |r.data|
    ensures EncodeRecord(ck, r)[..cut] == EncodeHeader(HeaderOf(ck, r)) + r.data[..cut - HEADER_SIZE]
  {
    hide EncodeHeader;
  }

  /** A record that is cut anywhere before its end yields nothing. */
  lemma ReadTorn(ck: string -> uint64, r: Record, cut: nat)
    requires Readable(r) && r.kind < 256 && cut < |EncodeRecord(ck, r)|
    ensures ReadAll(ck, EncodeRecord(ck, r)[..cut]) == []
  {
    if cut >= HEADER_SIZE {
      hide EncodeHeader, DecodeHeader, EncodeRecord, ReadAll;
      var file, part := EncodeRecord(ck, r)[..cut], r.data[..cut - HEADER_SIZE];
      CutRecord(ck, r, cut);
      FirstHeader(ck, r, part);
      ShortPayload(ck, HeaderOf(ck, r), part, file);
    }
  }

  /** The bytes of a log, taken apart around its k-th record. */
  lemma SplitAt(ck: string -> uint64, rs: seq<Record>, k: nat)
    requires k <= |rs|
    ensures Encode(ck, rs) == Encode(ck, rs[..k]) + Encode(ck, rs[k..])
    ensures k < |rs| ==> Encode(ck, rs[k..]) == EncodeRecord(ck, rs[k]) + Encode(ck, rs[k + 1..])
    ensures k < |rs| ==> Encode(ck, rs[..k + 1]) == Encode(ck, rs[..k]) + EncodeRecord(ck, rs[k])
  {
    hide EncodeRecord, Encode;
    assert rs == rs[..k] + rs[k..];
    EncodeConcat(ck, rs[..k], rs[k..]);
    if k < |rs| {
      assert rs[k..] == [rs[k]] + rs[k + 1..];
      EncodeConcat(ck, [rs[k]], rs[k + 1..]);
      assert rs[..k + 1] == rs[..k] + [rs[k]];
      EncodeConcat(ck, rs[..k], [rs[k]]);
      EncodeOne(ck, rs[k]);
    }
  }

  lemma EncodeOne(ck: string -> uint64, r: Record)
    ensures Encode(ck, [r]) == EncodeRecord(ck, r)
  {
    hide EncodeRecord;
    assert [r][1..] == [];
    assert EncodeRecord(ck, r) + "" == EncodeRecord(ck, r);
  }

  /** Crash-prefix safety: cut the bytes anywhere, and exactly the records wholly before the cut are
      read. `k` is that number of records: the k-th ends at or before the cut, the next one after it. */
  lemma CrashPrefix(ck: string -> uint64, rs: seq<Record>, cut: nat, k: nat)
    requires AllReadable(rs) && Typed(rs) && k <= |rs|
    requires |Encode(ck, rs[..k])| <= cut <= |Encode(ck, rs)|
    requires k < |rs| ==> cut < |Encode(ck, rs[..k + 1])|
    ensures ReadAll(ck, Encode(ck, rs)[..cut]) == Entries(rs[..k])
  {
    hide ReadAll, Encode, EncodeRecord;
    SplitAt(ck, rs, k);
    var head, tail := Encode(ck, rs[..k]), Encode(ck, rs[k..]);
    var rest := cut - |head|;
    assert (head + tail)[..cut] == head + tail[..rest];
    ReadPrefix(ck, rs[..k], tail[..rest]);
    TornTail(ck, rs, k, rest);
    assert Entries(rs[..k]) + [] == Entries(rs[..k]);
  }

  lemma TornTail(ck: string -> uint64, rs: seq<Record>, k: nat, rest: nat)
    requires AllReadable(rs) && Typed(rs) && k <= |rs| && rest <= |Encode(ck, rs[k..])|
    requires k < |rs| ==> rest < |EncodeRecord(ck, rs[k])|
    ensures ReadAll(ck, Encode(ck, rs[k..])[..rest]) == []
  {
    hide EncodeRecord;
    SplitAt(ck, rs, k);
    if k < |rs| {
      var tail := Encode(ck, rs[k..]);
      assert tail[..rest] == EncodeRecord(ck, rs[k])[..rest];
      ReadTorn(ck, rs[k], rest);
    }
  }

  /** Every cut falls after some number of whole records. */
  lemma {:induction false} CutExists(ck: string -> uint64, rs: seq<Record>, cut: nat) returns (k: nat)
    requires cut <= |Encode(ck, rs)|
    ensures k <= |rs| && |Encode(ck, rs[..k])| <= cut
    ensures k < |rs| ==> cut < |Encode(ck, rs[..k + 1])|
  {
    k := |rs|;
    assert rs[..k] == rs;
    while |Encode(ck, rs[..k])| > cut
      invariant k <= |rs|
      invariant k < |rs| ==> cut < |Encode(ck, rs[..k + 1])|
      decreases k
    {
      assert k != 0 by { assert rs[..0] == []; }
      k := k - 1;
    }
  }

  /** Flushed records survive: a cut after the first `flushed` records leaves all of them readable. */
  lemma FlushedSurvive(ck: string -> uint64, rs: seq<Record>, flushed: nat, cut: nat)
    requires AllReadable(rs) && Typed(rs) && flushed <= |rs|
    requires |Encode(ck, rs[..flushed])| <= cut <= |Encode(ck, rs)|
    ensures Entries(rs[..flushed]) <= ReadAll(ck, Encode(ck, rs)[..cut])
  {
    hide ReadAll, Encode, EncodeRecord;
    var k := CutExists(ck, rs, cut);
    CrashPrefix(ck, rs, cut, k);
    if k < flushed {
      assert rs[..flushed] == rs[..k + 1] + rs[k + 1..flushed];
      EncodeConcat(ck, rs[..k + 1], rs[k + 1..flushed]);
    }
  }

  /** Another payload of the stored size: a mismatch with a stored checksum ends the reading; without one,
      or if it matches, the payload is returned. */
  lemma MixedPayload(ck: string -> uint64, rs: seq<Record>, r: Record, payload: string, tail: string)
    requires AllReadable(rs) && Typed(rs) && Readable(r) && r.kind < 256 && |payload| == |r.data|
    ensures var sum := HeaderOf(ck, r).checksum;
      var got := ReadAll(ck, Encode(ck, rs) + (EncodeHeader(HeaderOf(ck, r)) + (payload + tail)));
      if sum != 0 && ck(payload) != sum then got == Entries(rs)
      else got == Entries(rs) + ([Entry(r.kind, payload)] + ReadAll(ck, tail)) && got != Entries(rs)
  {
    hide ReadAll, Encode, EncodeHeader, DecodeHeader;
    var h := HeaderOf(ck, r);
    var file := EncodeHeader(h) + (payload + tail);
    ReadPrefix(ck, rs, file);
    FirstHeader(ck, r, payload + tail);
    assert h.payloadSize == |payload| && h.recordType % 256 == r.kind;
    hide HeaderOf;
    ReadStep(ck, h, payload, tail, file);
    assert Entries(rs) + [] == Entries(rs);
  }

  /** Corruption: a record whose payload no longer has its non-zero stored checksum ends the reading
      just before it, whatever follows. */
  lemma CorruptionStops(ck: string -> uint64, rs: seq<Record>, r: Record, damaged: string, tail: string)
    requires AllReadable(rs) && Typed(rs) && Readable(r) && r.kind < 256
    requires |damaged| == |r.data| && r.sealed && ck(r.data) != 0 && ck(damaged) != ck(r.data)
    ensures ReadAll(ck, Encode(ck, rs) + (EncodeHeader(HeaderOf(ck, r)) + (damaged + tail))) == Entries(rs)
  {
    hide ReadAll, Encode, EncodeHeader;
    MixedPayload(ck, rs, r, damaged, tail);
  }

  /** Reopening after a crash: nothing removes a torn record, so what is appended next continues its
      payload. Nothing appended is ever read, however much it is, exactly if it does not complete the
      payload, or the record stored a checksum and the mixed payload does not have it. Otherwise the mixed
      payload is returned as a record. */
  lemma AppendAfterTear(ck: string -> uint64, rs: seq<Record>, r: Record, j: nat, more: string)
    requires AllReadable(rs) && Typed(rs) && Readable(r) && r.kind < 256 && j < |r.data|
    ensures var missing := |r.data| - j;
      var sum := HeaderOf(ck, r).checksum;
      var got := ReadAll(ck, Encode(ck, rs) + (EncodeHeader(HeaderOf(ck, r)) + (r.data[..j] + more)));
      && (got == Entries(rs) <==>
            (missing <= |more| ==> sum != 0 && ck(r.data[..j] + more[..missing]) != sum))
      && (got != Entries(rs) ==>
            got == Entries(rs) + ([Entry(r.kind, r.data[..j] + more[..missing])] + ReadAll(ck, more[missing..])))
  {
    hide ReadAll, Encode, EncodeHeader, HeaderOf;
    var missing := |r.data| - j;
    if missing <= |more| {
      Regroup(r.data[..j], more, missing);
      MixedPayload(ck, rs, r, r.data[..j] + more[..missing], more[missing..]);
    } else {
      StillTorn(ck, rs, r, r.data[..j] + more);
    }
  }

  lemma Regroup(a: string, b: string, k: nat)
    requires k <= |b|
    ensures a + b == (a + b[..k]) + b[k..]
  {
  }

  lemma StillTorn(ck: string -> uint64, rs: seq<Record>, r: Record, part: string)
    requires AllReadable(rs) && Typed(rs) && Readable(r) && r.kind < 256 && |part| < |r.data|
    ensures ReadAll(ck, Encode(ck, rs) + (EncodeHeader(HeaderOf(ck, r)) + part)) == Entries(rs)
  {
    hide ReadAll, Encode, EncodeHeader, DecodeHeader;
    var file := EncodeHeader(HeaderOf(ck, r)) + part;
    ReadPrefix(ck, rs, file);
    FirstHeader(ck, r, part);
    ShortPayload(ck, HeaderOf(ck, r), part, file);
    assert Entries(rs) + [] == Entries(rs);
  }

  /** The first entry read has the length that the first header states, and that length is acceptable. */
  lemma FirstEntryLength(ck: string -> uint64, file: string)
    ensures var got := ReadAll(ck, file);
      got != [] ==> |file| >= HEADER_SIZE && 1 <= |got[0].data| <= MAX_PAYLOAD
                    && |got[0].data| == DecodeHeader(file[..HEADER_SIZE]).payloadSize
  {
    hide DecodeHeader;
  }

  lemma SizeKept(size: nat)
    ensures size % TWO_TO_32 <= size && (size < TWO_TO_32 ==> size % TWO_TO_32 == size)
  {
  }

  /** A record that is not readable is never read back as it was written. */
  lemma UnreadableLost(ck: string -> uint64, r: Record, tail: string)
    requires !Readable(r) && r.kind < 256
    ensures var got := ReadAll(ck, EncodeRecord(ck, r) + tail); got == [] || got[0].data != r.data
    ensures |r.data| < TWO_TO_32 ==> ReadAll(ck, EncodeRecord(ck, r) + tail) == []
  {
    hide ReadAll, EncodeRecord, DecodeHeader;
    var file := EncodeRecord(ck, r) + tail;
    RecordHeader(ck, r, tail);
    SizeKept(|r.data|);
    FirstEntryLength(ck, file);
  }

  lemma RecordHeader(ck: string -> uint64, r: Record, tail: string)
    requires r.kind < 256
    ensures DecodeHeader((EncodeRecord(ck, r) + tail)[..HEADER_SIZE]).payloadSize == |r.data| % TWO_TO_32
  {
    FirstHeader(ck, r, r.data + tail);
    assert EncodeRecord(ck, r) + tail == EncodeHeader(HeaderOf(ck, r)) + (r.data + tail);
  }

  /** A log is read back in full if and only if every payload has between 1 byte and 100 MiB. */
  lemma ReadBackExactly(ck: string -> uint64, rs: seq<Record>)
    requires Typed(rs)
    ensures ReadAll(ck, Encode(ck, rs)) == Entries(rs) <==>
      forall i | 0 <= i < |rs| :: 1 <= |rs[i].data| <= 104_857_600
  {
    assert AllReadable(rs) <==> forall i | 0 <= i < |rs| :: 1 <= |rs[i].data| <= 104_857_600;
    if AllReadable(rs) {
      ReadPrefix(ck, rs, "");
      assert Encode(ck, rs) + "" == Encode(ck, rs);
    } else {
      var j := FirstUnreadable(rs);
      LostFrom(ck, rs, j);
    }
  }

  lemma LostFrom(ck: string -> uint64, rs: seq<Record>, j: nat)
    requires Typed(rs) && j < |rs| && !Readable(rs[j]) && AllReadable(rs[..j])
    ensures ReadAll(ck, Encode(ck, rs)) != Entries(rs)
  {
    hide ReadAll, Encode, EncodeRecord;
    SplitAt(ck, rs, j);
    var tail := Encode(ck, rs[j + 1..]);
    ReadPrefix(ck, rs[..j], EncodeRecord(ck, rs[j]) + tail);
    UnreadableLost(ck, rs[j], tail);
    var got := ReadAll(ck, EncodeRecord(ck, rs[j]) + tail);
    if got != [] {
      assert (Entries(rs[..j]) + got)[j] == got[0];
      assert Entries(rs)[j].data == rs[j].data;
    }
  }

  lemma FirstUnreadable(rs: seq<Record>) returns (j: nat)
    requires !AllReadable(rs)
    ensures j < |rs| && !Readable(rs[j]) && AllReadable(rs[..j])
  {
    j := 0;
    while Readable(rs[j])
      invariant j < |rs| && AllReadable(rs[..j])
      invariant exists i :: j <= i < |rs| && !Readable(rs[i])
      decreases |rs| - j
    {
      j := j + 1;
    }
  }
}
