/** The write-ahead log as an object: appending records, the flush policies, and the reading loop. */
module WalStore {
  import opened Word
  import opened WalFormat

  datatype FlushPolicy = EveryRecord | Batch | Interval

  const COMMAND: nat := 0
  const EVENT: nat := 1
  const SNAPSHOT: nat := 2

  /** The file is what it held when opened and the appended records; the bytes before `durable`
      include every record but the last `buffered`. */
  ghost predicate Framed(ck: string -> uint64, existing: string, records: seq<Record>, file: string, buffered: nat,
                         durable: nat)
  {
    && file == existing + Encode(ck, records)
    && buffered <= |records|
    && durable == |existing| + |Encode(ck, records[..|records| - buffered])|
    && durable <= |file|
    && Typed(records)
  }

  lemma FramedStart(ck: string -> uint64, existing: string)
    ensures Framed(ck, existing, [], existing, 0, |existing|)
  {
    assert existing + "" == existing;
  }

  lemma FramedFlush(ck: string -> uint64, existing: string, records: seq<Record>, file: string, buffered: nat,
                    durable: nat)
    requires Framed(ck, existing, records, file, buffered, durable)
    ensures Framed(ck, existing, records, file, 0, |file|)
    ensures buffered == 0 ==> durable == |file|
  {
    assert records[..|records|] == records;
  }

  lemma FramedAppend(ck: string -> uint64, existing: string, records: seq<Record>, file: string, buffered: nat,
                     durable: nat, r: Record)
    requires Framed(ck, existing, records, file, buffered, durable) && r.kind < 256
    ensures Framed(ck, existing, records + [r], file + EncodeRecord(ck, r), buffered + 1, durable)
  {
    hide EncodeRecord, Encode;
    EncodeConcat(ck, records, [r]);
    EncodeOne(ck, r);
    var flushed := |records| - buffered;
    assert (records + [r])[..flushed] == records[..flushed];
    assert existing + Encode(ck, records) + EncodeRecord(ck, r)
      == existing + (Encode(ck, records) + EncodeRecord(ck, r));
  }

  class Wal {
    const checksum: string -> uint64
    const enableChecksum: bool
    const policy: FlushPolicy
    const batchSize: nat
    var file: string
    var bufferedRecords: nat
    var lastSequenceId: uint64
    /** What the file held when it was opened, what was appended since, and how many bytes are flushed. */
    ghost const existing: string
    ghost var records: seq<Record>
    ghost var durable: nat

    ghost predicate Valid()
      reads this
    {
      Framed(checksum, existing, records, file, bufferedRecords, durable)
    }

    /** What the flush policy promises after every append. */
    ghost predicate PolicyKept()
      reads this
    {
      && (policy == EveryRecord ==> bufferedRecords == 0)
      && (policy == Batch ==> bufferedRecords == 0 || bufferedRecords < batchSize)
    }

    /** Opening an existing file reads nothing back: the last sequence id starts at 0. */
    constructor (existing: string, checksum: string -> uint64, enableChecksum: bool, policy: FlushPolicy,
                 batchSize: nat)
      ensures Valid() && PolicyKept() && records == [] && file == existing && lastSequenceId == 0
      ensures this.existing == existing && this.checksum == checksum && this.enableChecksum == enableChecksum
      ensures this.policy == policy && this.batchSize == batchSize
    {
      this.existing, this.checksum, this.enableChecksum := existing, checksum, enableChecksum;
      this.policy, this.batchSize := policy, batchSize;
      file, records, durable := existing, [], |existing|;
      bufferedRecords, lastSequenceId := 0, 0;
      new;
      FramedStart(checksum, existing);
    }

    method Flush()
      requires Valid()
      modifies this`bufferedRecords, this`durable
      ensures Valid() && bufferedRecords == 0 && durable == |file| && durable >= old(durable)
    {
      FramedFlush(checksum, existing, records, file, bufferedRecords, durable);
      if bufferedRecords == 0 { return; }
      durable := |file|;
      bufferedRecords := 0;
    }

    /** The header carries the sequence id of the command logged before, not of the one being logged. */
    method WriteEntry(kind: nat, data: string, now: uint64)
      requires Valid() && PolicyKept() && kind < 256
      modifies this`file, this`bufferedRecords, this`records, this`durable
      ensures Valid() && PolicyKept()
      ensures records == old(records) + [Record(lastSequenceId, kind, data, now, enableChecksum)]
      ensures file == old(file) + EncodeRecord(checksum, Record(lastSequenceId, kind, data, now, enableChecksum))
      ensures durable >= old(durable)
      ensures if policy == EveryRecord || (policy == Batch && old(bufferedRecords) + 1 >= batchSize)
        then bufferedRecords == 0 && durable == |file|
        else bufferedRecords == old(bufferedRecords) + 1 && durable == old(durable)
    {
      hide Framed, EncodeHeader;
      var sum := if enableChecksum then checksum(data) else 0;
      var header := Header(lastSequenceId, kind % TWO_TO_32, |data| % TWO_TO_32, now, sum);
      ghost var r := Record(lastSequenceId, kind, data, now, enableChecksum);
      FramedAppend(checksum, existing, records, file, bufferedRecords, durable, r);
      assert file + EncodeHeader(header) + data == file + EncodeRecord(checksum, r);
      file := file + EncodeHeader(header) + data;
      bufferedRecords := bufferedRecords + 1;
      records := records + [r];
      if policy == Batch {
        if bufferedRecords >= batchSize { Flush(); }
      } else if policy == EveryRecord {
        Flush();
      }
    }

    method LogCommand(image: string, sequenceId: uint64, now: uint64)
      requires Valid() && PolicyKept()
      modifies this
      ensures Valid() && PolicyKept() && lastSequenceId == sequenceId
      ensures records == old(records) + [Record(old(lastSequenceId), COMMAND, image, now, enableChecksum)]
    {
      hide Framed, EncodeRecord;
      WriteEntry(COMMAND, image, now);
      lastSequenceId := sequenceId;
    }

    method LogEvent(text: string, sequenceId: uint64, now: uint64)
      requires Valid() && PolicyKept()
      modifies this
      ensures Valid() && PolicyKept() && lastSequenceId == sequenceId
      ensures records == old(records) + [Record(old(lastSequenceId), EVENT, text, now, enableChecksum)]
    {
      hide Framed, EncodeRecord;
      WriteEntry(EVENT, text, now);
      lastSequenceId := sequenceId;
    }

    method WriteSnapshot(text: string, now: uint64)
      requires Valid() && PolicyKept()
      modifies this
      ensures Valid() && PolicyKept() && lastSequenceId == old(lastSequenceId)
      ensures records == old(records) + [Record(lastSequenceId, SNAPSHOT, text, now, enableChecksum)]
    {
      hide Framed, EncodeRecord;
      WriteEntry(SNAPSHOT, text, now);
    }

    /** The recovery loop: header, size check, payload, checksum, until one of them fails. */
    method ReadEntries() returns (entries: seq<Entry>)
      ensures entries == ReadAll(checksum, file)
    {
      hide ReadAll, DecodeHeader;
      entries := [];
      var pos := 0;
      assert file[0..] == file;
      while true
        invariant 0 <= pos <= |file|
        invariant entries + ReadAll(checksum, file[pos..]) == ReadAll(checksum, file)
        decreases |file| - pos
      {
        ReadTurn(checksum, file, pos);
        if pos + HEADER_SIZE > |file| { break; }
        var header := DecodeHeader(file[pos..pos + HEADER_SIZE]);
        if header.payloadSize == 0 || header.payloadSize > MAX_PAYLOAD { break; }
        var start := pos + HEADER_SIZE;
        if start + header.payloadSize > |file| { break; }
        var data := file[start..start + header.payloadSize];
        if header.checksum != 0 && checksum(data) != header.checksum { break; }
        entries := entries + [Entry(header.recordType % 256, data)];
        pos := start + header.payloadSize;
      }
    }
  }

  /** Bounded loss: whatever a crash leaves of a log written into an empty file, as long as the flushed
      bytes are there, all records are read back except fewer than `batchSize` of the last ones under
      the batch policy, and except none under the every-record policy. */
  lemma BoundedLoss(w: Wal, cut: nat)
    requires w.Valid() && w.PolicyKept() && w.existing == "" && AllReadable(w.records)
    requires w.durable <= cut <= |w.file|
    ensures var got := ReadAll(w.checksum, w.file[..cut]);
      && got <= Entries(w.records)
      && (w.policy == EveryRecord ==> got == Entries(w.records))
      && (w.policy == Batch ==> |got| > |w.records| - w.batchSize || |got| == |w.records|)
  {
    hide ReadAll, Encode;
    assert w.file == Encode(w.checksum, w.records);
    var flushed := |w.records| - w.bufferedRecords;
    FlushedSurvive(w.checksum, w.records, flushed, cut);
    var k := CutExists(w.checksum, w.records, cut);
    CrashPrefix(w.checksum, w.records, cut, k);
    assert Entries(w.records[..k]) == Entries(w.records)[..k];
  }
}
