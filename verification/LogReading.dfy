/** Reading logs back: a reader of any byte prefix of a log gets exactly the records that are wholly inside it
    (db/log_reader.cc). */
module LogReading {
  import opened DbFormat
  import opened Coding
  import opened LogFormat

  // ---- Reading one physical record ----

  /** What ReadPhysicalRecord returns; Fragment carries the type byte of the header. */
  datatype Fetched = Fragment(kind: Byte, data: Bytes) | Eof | BadRecord

  /** The outcome of looking at a buffer: the result, what is left of the buffer, and how many corruptions were
      reported. */
  datatype Examined = Examined(fetched: Fetched, rest: Bytes, drops: nat)

  function HeaderLength(header: Bytes): nat
    requires |header| >= HEADER_SIZE
  {
    var low: nat, high: nat := header[4], header[5];
    low + 256 * high
  }

  /** The second part of ReadPhysicalRecord, from the header on, with checksums on. */
  function Parse(crc: Checksum, buffer: Bytes, eof: bool): (r: Examined)
    requires |buffer| >= HEADER_SIZE
    ensures |r.rest| < |buffer| && r.rest == buffer[|buffer| - |r.rest|..]
  {
    var length := HeaderLength(buffer);
    if HEADER_SIZE + length > |buffer| then
      if eof then Examined(Eof, [], 0) else Examined(BadRecord, [], 1)
    else if buffer[6] == 0 && length == 0 then
      Examined(BadRecord, [], 0)
    else if crc(buffer[6..HEADER_SIZE + length]) != Unmask(DecodeFixed32(buffer)) then
      Examined(BadRecord, [], 1)
    else
      Examined(Fragment(buffer[6], buffer[HEADER_SIZE..HEADER_SIZE + length]), buffer[HEADER_SIZE + length..], 0)
  }

  lemma SamePrefix<T>(a: seq<T>, b: seq<T>, n: nat)
    requires n <= |a| && n <= |b| && a[..n] == b[..n]
    ensures forall i :: 0 <= i < n ==> a[i] == b[i]
  {
    forall i | 0 <= i < n ensures a[i] == b[i] {
      assert a[i] == a[..n][i] && b[i] == b[..n][i];
    }
  }

  lemma HeaderBytes(crc: Checksum, t: RecordType, data: Bytes)
    requires |data| <= 0xffff
    ensures var record := Physical(crc, t, data);
      && record[4] == Low8(|data|) && record[5] == Low8(|data| / 256) && record[6] == TypeByte(t)
      && record == EncodeFixed32(Mask(crc([TypeByte(t)] + data))) + ([Low8(|data|), Low8(|data| / 256), TypeByte(t)] + data)
  {
  }

  lemma HeaderRoundTrip(crc: Checksum, t: RecordType, data: Bytes, buffer: Bytes)
    requires |data| <= 0xffff && |buffer| >= HEADER_SIZE && buffer[..HEADER_SIZE] == Physical(crc, t, data)[..HEADER_SIZE]
    ensures HeaderLength(buffer) == |data| && buffer[6] == TypeByte(t)
    ensures Unmask(DecodeFixed32(buffer)) == crc([TypeByte(t)] + data)
  {
    var record := Physical(crc, t, data);
    SamePrefix(buffer, record, HEADER_SIZE);
    HeaderBytes(crc, t, data);
    SameFixed32(buffer, record);
    ChecksumRoundTrip(crc, t, data);
  }

  lemma SameFixed32(a: Bytes, b: Bytes)
    requires |a| >= HEADER_SIZE && |b| >= HEADER_SIZE && forall i :: 0 <= i < HEADER_SIZE ==> a[i] == b[i]
    ensures DecodeFixed32(a) == DecodeFixed32(b)
  {
    assert a[0] == b[0] && a[1] == b[1] && a[2] == b[2] && a[3] == b[3];
  }

  lemma ChecksumRoundTrip(crc: Checksum, t: RecordType, data: Bytes)
    requires |data| <= 0xffff
    ensures Unmask(DecodeFixed32(Physical(crc, t, data))) == crc([TypeByte(t)] + data)
  {
    HeaderBytes(crc, t, data);
    Fixed32RoundTrip(Mask(crc([TypeByte(t)] + data)), [Low8(|data|), Low8(|data| / 256), TypeByte(t)] + data);
    UnmaskMask(crc([TypeByte(t)] + data));
  }

  /** A physical record that is wholly in the buffer is read back. */
  lemma ParseWhole(crc: Checksum, t: RecordType, data: Bytes, rest: Bytes, eof: bool)
    requires |data| <= 0xffff
    ensures Parse(crc, Physical(crc, t, data) + rest, eof) == Examined(Fragment(TypeByte(t), data), rest, 0)
  {
    var record := Physical(crc, t, data);
    var buffer := record + rest;
    assert buffer[..HEADER_SIZE] == record[..HEADER_SIZE];
    HeaderRoundTrip(crc, t, data, buffer);
    assert record[6..] == [TypeByte(t)] + data;
    assert buffer[6..HEADER_SIZE + |data|] == record[6..];
    assert buffer[HEADER_SIZE..HEADER_SIZE + |data|] == data && buffer[HEADER_SIZE + |data|..] == rest;
  }

  /** A truncated one at the end of the file is the end of the log, not a corruption. */
  lemma ParsePart(crc: Checksum, t: RecordType, data: Bytes, n: nat)
    requires |data| <= 0xffff && HEADER_SIZE <= n < HEADER_SIZE + |data|
    ensures Parse(crc, Physical(crc, t, data)[..n], true) == Examined(Eof, [], 0)
  {
    var buffer := Physical(crc, t, data)[..n];
    assert buffer[..HEADER_SIZE] == Physical(crc, t, data)[..HEADER_SIZE];
    HeaderRoundTrip(crc, t, data, buffer);
  }

  function BlockEnd(p: nat): nat {
    p - p % BLOCK_SIZE + BLOCK_SIZE
  }

  function Min(a: nat, b: nat): nat {
    if a < b then a else b
  }

  datatype ReadResult = ReadResult(fetched: Fetched, pos: nat, drops: nat)

  /** ReadPhysicalRecord as a function of the file and the offset of the first unused byte. */
  function ReadAt(crc: Checksum, file: Bytes, pos: nat): (r: ReadResult)
    requires pos <= |file|
    ensures pos <= r.pos <= |file| && (pos < r.pos || r.fetched.Eof?)
  {
    var p := pos + Trailer(pos);
    if p + HEADER_SIZE > |file| then ReadResult(Eof, |file|, 0)
    else
      BlockHasRoom(pos);
      var end := Min(BlockEnd(p), |file|);
      var parsed := Parse(crc, file[p..end], BlockEnd(p) > |file|);
      ReadResult(parsed.fetched, end - |parsed.rest|, parsed.drops)
  }

  lemma BlockHasRoom(pos: nat)
    ensures var p := pos + Trailer(pos); p + HEADER_SIZE + Available(pos) == BlockEnd(p)
  {
  }

  /** As far as the file goes, it has these bytes at the offset. */
  ghost predicate Agrees(file: Bytes, offset: nat, bytes: Bytes) {
    forall i :: 0 <= i < |bytes| && offset + i < |file| ==> file[offset + i] == bytes[i]
  }

  lemma AgreesParts(file: Bytes, offset: nat, a: Bytes, b: Bytes)
    requires Agrees(file, offset, a + b)
    ensures Agrees(file, offset, a) && Agrees(file, offset + |a|, b)
  {
    forall i | 0 <= i < |a| && offset + i < |file| ensures file[offset + i] == a[i] {
      assert (a + b)[i] == a[i];
    }
    forall i | 0 <= i < |b| && offset + |a| + i < |file| ensures file[offset + |a| + i] == b[i] {
      assert (a + b)[|a| + i] == b[i] && offset + (|a| + i) < |file|;
    }
  }

  /** Reading where a fragment was written: it comes back if the file holds all of it; otherwise the log ends here. */
  lemma ReadFragment(crc: Checksum, file: Bytes, pos: nat, t: RecordType, data: Bytes)
    requires pos <= |file| && |data| <= Available(pos)
    requires Agrees(file, pos + Trailer(pos), Physical(crc, t, data))
    ensures var end := pos + Trailer(pos) + HEADER_SIZE + |data|;
      ReadAt(crc, file, pos) ==
        if end <= |file| then ReadResult(Fragment(TypeByte(t), data), end, 0) else ReadResult(Eof, |file|, 0)
  {
    var p, record := pos + Trailer(pos), Physical(crc, t, data);
    if p + HEADER_SIZE <= |file| {
      BlockHasRoom(pos);
      var end := Min(BlockEnd(p), |file|);
      var buffer := file[p..end];
      if p + |record| <= |file| {
        var rest := buffer[|record|..];
        assert buffer == record + rest;
        ParseWhole(crc, t, data, rest, BlockEnd(p) > |file|);
      } else {
        assert buffer == record[..|file| - p];
        ParsePart(crc, t, data, |file| - p);
      }
    }
  }

  // ---- Putting fragments together ----

  datatype RecordResult = RecordResult(record: Option<Bytes>, pos: nat, drops: nat)

  function AddDrops(r: RecordResult, n: nat): RecordResult {
    r.(drops := r.drops + n)
  }

  /** What ReadRecord does with one physical record: stop with a result, or go on; `lost` counts corruptions. */
  datatype Turn = Stop(record: Option<Bytes>, lost: nat) | GoOn(partial: Option<Bytes>, lost: nat)

  /** The switch of ReadRecord. `partial` is what has been collected of a fragmented record. */
  function Take(fetched: Fetched, partial: Option<Bytes>): (r: Turn)
    ensures r.GoOn? ==> !fetched.Eof?
  {
    match fetched
    case Eof => Stop(None, 0)
    case BadRecord => GoOn(None, if partial.Some? then 1 else 0)
    case Fragment(kind, data) =>
      var lost := if partial.Some? && partial.value != [] then 1 else 0;
      if kind == TypeByte(Full) then Stop(Some(data), lost)
      else if kind == TypeByte(First) then GoOn(Some(data), lost)
      else if kind == TypeByte(Middle) then
        if partial.Some? then GoOn(Some(partial.value + data), 0) else GoOn(None, 1)
      else if kind == TypeByte(Last) then
        if partial.Some? then Stop(Some(partial.value + data), 0) else GoOn(None, 1)
      else GoOn(None, 1)
  }

  /** ReadRecord as a function of the file and the offset. */
  function RecordAt(crc: Checksum, file: Bytes, pos: nat, partial: Option<Bytes>): (r: RecordResult)
    requires pos <= |file|
    ensures pos <= r.pos <= |file| && (r.record.Some? ==> pos < r.pos)
    decreases |file| - pos
  {
    var read := ReadAt(crc, file, pos);
    match Take(read.fetched, partial)
    case Stop(record, lost) => RecordResult(record, read.pos, read.drops + lost)
    case GoOn(next, lost) => AddDrops(RecordAt(crc, file, read.pos, next), read.drops + lost)
  }

  /** A written record, cut into its first fragment and the rest. */
  lemma EncodeParts(crc: Checksum, file: Bytes, pos: nat, payload: Bytes, begin: bool)
    requires Agrees(file, pos, Encode(crc, pos, payload, begin))
    ensures var n := FragmentLength(pos, payload);
      && Agrees(file, pos + Trailer(pos), Physical(crc, FragmentType(pos, payload, begin), payload[..n]))
      && |Encode(crc, pos, payload, begin)| == NextOffset(pos, payload) - pos +
           (if n == |payload| then 0 else |Encode(crc, NextOffset(pos, payload), payload[n..], false)|)
      && (n < |payload| ==> Agrees(file, NextOffset(pos, payload), Encode(crc, NextOffset(pos, payload), payload[n..], false)))
  {
    var n := FragmentLength(pos, payload);
    var zeros, record := Zeros(Trailer(pos)), Physical(crc, FragmentType(pos, payload, begin), payload[..n]);
    var rest := if n == |payload| then [] else Encode(crc, NextOffset(pos, payload), payload[n..], false);
    AgreesParts(file, pos, zeros + record, rest);
    AgreesParts(file, pos, zeros, record);
  }

  function Collected(partial: Option<Bytes>): Bytes {
    if partial.Some? then partial.value else []
  }

  lemma TakeWritten(pos: nat, payload: Bytes, partial: Option<Bytes>)
    ensures var n := FragmentLength(pos, payload);
      Take(Fragment(TypeByte(FragmentType(pos, payload, partial.None?)), payload[..n]), partial)
      == if n == |payload| then Stop(Some(Collected(partial) + payload), 0) else GoOn(Some(Collected(partial) + payload[..n]), 0)
  {
    var n := FragmentLength(pos, payload);
    assert n == |payload| ==> payload[..n] == payload;
    assert [] + payload == payload && [] + payload[..n] == payload[..n];
  }

  lemma RecordStops(crc: Checksum, file: Bytes, pos: nat, partial: Option<Bytes>, read: ReadResult, record: Option<Bytes>)
    requires pos <= |file| && ReadAt(crc, file, pos) == read && Take(read.fetched, partial) == Stop(record, 0)
    ensures RecordAt(crc, file, pos, partial) == RecordResult(record, read.pos, read.drops)
  {
  }

  lemma RecordGoesOn(crc: Checksum, file: Bytes, pos: nat, partial: Option<Bytes>, next: nat, fetched: Fetched, more: Option<Bytes>)
    requires pos <= |file| && ReadAt(crc, file, pos) == ReadResult(fetched, next, 0) && Take(fetched, partial) == GoOn(more, 0)
    ensures next <= |file| && RecordAt(crc, file, pos, partial) == RecordAt(crc, file, next, more)
  {
  }

  /** What reading a record that was written at pos must give. */
  ghost predicate ReadsBack(crc: Checksum, file: Bytes, pos: nat, partial: Option<Bytes>, payload: Bytes, end: nat)
    requires pos <= |file|
  {
    RecordAt(crc, file, pos, partial) ==
      if end <= |file| then RecordResult(Some(Collected(partial) + payload), end, 0) else RecordResult(None, |file|, 0)
  }

  lemma FirstReadsBack(crc: Checksum, file: Bytes, pos: nat, payload: Bytes, partial: Option<Bytes>)
    requires pos <= |file| && Agrees(file, pos, Encode(crc, pos, payload, partial.None?))
    requires FragmentLength(pos, payload) == |payload| || NextOffset(pos, payload) > |file|
    ensures ReadsBack(crc, file, pos, partial, payload, pos + |Encode(crc, pos, payload, partial.None?)|)
  {
    var n, next := FragmentLength(pos, payload), NextOffset(pos, payload);
    var t := FragmentType(pos, payload, partial.None?);
    EncodeParts(crc, file, pos, payload, partial.None?);
    ReadFragment(crc, file, pos, t, payload[..n]);
    TakeWritten(pos, payload, partial);
    if next <= |file| {
      RecordStops(crc, file, pos, partial, ReadResult(Fragment(TypeByte(t), payload[..n]), next, 0), Some(Collected(partial) + payload));
    } else {
      RecordStops(crc, file, pos, partial, ReadResult(Eof, |file|, 0), None);
    }
  }

  lemma FirstGoesOn(crc: Checksum, file: Bytes, pos: nat, payload: Bytes, partial: Option<Bytes>)
    requires pos <= |file| && Agrees(file, pos, Encode(crc, pos, payload, partial.None?))
    requires FragmentLength(pos, payload) < |payload| && NextOffset(pos, payload) <= |file|
    ensures RecordAt(crc, file, pos, partial)
         == RecordAt(crc, file, NextOffset(pos, payload), Some(Collected(partial) + payload[..FragmentLength(pos, payload)]))
  {
    var n, next := FragmentLength(pos, payload), NextOffset(pos, payload);
    var t := FragmentType(pos, payload, partial.None?);
    EncodeParts(crc, file, pos, payload, partial.None?);
    ReadFragment(crc, file, pos, t, payload[..n]);
    TakeWritten(pos, payload, partial);
    RecordGoesOn(crc, file, pos, partial, next, Fragment(TypeByte(t), payload[..n]), Some(Collected(partial) + payload[..n]));
  }

  /** Reading where a record was written, from its first fragment or from a later one. */
  lemma {:induction false} ReadWritten(crc: Checksum, file: Bytes, pos: nat, payload: Bytes, partial: Option<Bytes>)
    requires pos <= |file| && Agrees(file, pos, Encode(crc, pos, payload, partial.None?))
    ensures ReadsBack(crc, file, pos, partial, payload, pos + |Encode(crc, pos, payload, partial.None?)|)
    decreases |payload|, Stalled(pos)
  {
    var n, next := FragmentLength(pos, payload), NextOffset(pos, payload);
    if n == |payload| || next > |file| {
      FirstReadsBack(crc, file, pos, payload, partial);
    } else {
      EncodeParts(crc, file, pos, payload, partial.None?);
      if n == 0 { StallEnds(pos, payload); }
      FirstGoesOn(crc, file, pos, payload, partial);
      ReadWritten(crc, file, next, payload[n..], Some(Collected(partial) + payload[..n]));
      Rejoin(Collected(partial), payload, n);
    }
  }

  lemma Rejoin(a: Bytes, b: Bytes, n: nat)
    requires n <= |b|
    ensures a + b[..n] + b[n..] == a + b
  {
  }

  // ---- The reader ----

  /** The buffer is what is unused of the block that was read last, and eof tells whether that block was short. */
  ghost predicate BufferOk(file: Bytes, filePos: nat, buffer: Bytes, eof: bool) {
    && |buffer| <= filePos <= |file| && |buffer| <= BLOCK_SIZE
    && buffer == file[filePos - |buffer|..filePos]
    && (!eof ==> filePos % BLOCK_SIZE == 0)
    && (eof ==> filePos == |file| && |buffer| <= |file| % BLOCK_SIZE)
  }

  /** The buffer runs from p to the end of its block, or of the file. */
  ghost predicate Filled(file: Bytes, p: nat, filePos: nat, buffer: Bytes, eof: bool) {
    && |buffer| >= HEADER_SIZE && filePos == p + |buffer| == Min(BlockEnd(p), |file|)
    && (eof <==> BlockEnd(p) > |file|)
  }

  /** Where the loop that fills the buffer stands, when p was the first unused byte. */
  ghost predicate Filling(file: Bytes, p: nat, filePos: nat, buffer: Bytes, eof: bool) {
    if |buffer| >= HEADER_SIZE then Filled(file, p + Trailer(p), filePos, buffer, eof)
    else if eof then p + Trailer(p) + HEADER_SIZE > |file|
    else p + |buffer| == p + Trailer(p) == filePos
  }

  lemma StillOk(file: Bytes, filePos: nat, buffer: Bytes, eof: bool, rest: Bytes)
    requires BufferOk(file, filePos, buffer, eof)
    requires |rest| <= |buffer| && rest == buffer[|buffer| - |rest|..]
    ensures BufferOk(file, filePos, rest, eof)
  {
  }

  lemma FillingStarts(file: Bytes, filePos: nat, buffer: Bytes, eof: bool)
    requires BufferOk(file, filePos, buffer, eof)
    ensures Filling(file, filePos - |buffer|, filePos, buffer, eof)
  {
  }

  lemma FillingGoesOn(file: Bytes, p: nat, filePos: nat, buffer: Bytes)
    requires BufferOk(file, filePos, buffer, false) && |buffer| < HEADER_SIZE && Filling(file, p, filePos, buffer, false)
    ensures var end := Min(filePos + BLOCK_SIZE, |file|);
      var eof := end - filePos < BLOCK_SIZE;
      BufferOk(file, end, file[filePos..end], eof) && Filling(file, p, end, file[filePos..end], eof)
  {
    assert BlockEnd(filePos) == filePos + BLOCK_SIZE;
  }

  lemma ReadPastEnd(crc: Checksum, file: Bytes, pos: nat)
    requires pos <= |file| && pos + Trailer(pos) + HEADER_SIZE > |file|
    ensures ReadAt(crc, file, pos) == ReadResult(Eof, |file|, 0)
  {
  }

  lemma ReadFilled(crc: Checksum, file: Bytes, pos: nat, filePos: nat, buffer: Bytes, eof: bool)
    requires pos <= |file| && BufferOk(file, filePos, buffer, eof) && Filled(file, pos + Trailer(pos), filePos, buffer, eof)
    ensures ReadAt(crc, file, pos) == AfterParse(Parse(crc, buffer, eof), filePos)
  {
  }

  ghost predicate ParsesNow(crc: Checksum, buffer: Bytes, eof: bool, parsed: Examined, key: nat)
    requires |buffer| >= HEADER_SIZE
  {
    Parse(crc, buffer, eof) == parsed
  }

  /** The key keeps the definition of Parse out of sight where its result is only passed on. */
  ghost predicate ParsesTo(crc: Checksum, buffer: Bytes, eof: bool, parsed: Examined)
    requires |buffer| >= HEADER_SIZE
  {
    forall key: nat {:trigger ParsesNow(crc, buffer, eof, parsed, key)} :: ParsesNow(crc, buffer, eof, parsed, key)
  }

  /** What ReadPhysicalRecord makes of a filled buffer. */
  lemma ParsedIsRead(crc: Checksum, file: Bytes, pos: nat, filePos: nat, buffer: Bytes, eof: bool, parsed: Examined)
    requires pos <= |file| && BufferOk(file, filePos, buffer, eof) && Filled(file, pos + Trailer(pos), filePos, buffer, eof)
    requires ParsesTo(crc, buffer, eof, parsed)
    requires |parsed.rest| <= |buffer| && parsed.rest == buffer[|buffer| - |parsed.rest|..]
    ensures BufferOk(file, filePos, parsed.rest, eof)
    ensures ReadAt(crc, file, pos) == ReadResult(parsed.fetched, filePos - |parsed.rest|, parsed.drops)
  {
    assert ParsesNow(crc, buffer, eof, parsed, 0);
    StillOk(file, filePos, buffer, eof, parsed.rest);
    ReadFilled(crc, file, pos, filePos, buffer, eof);
  }

  function AfterParse(parsed: Examined, filePos: nat): ReadResult {
    ReadResult(parsed.fetched, if |parsed.rest| <= filePos then filePos - |parsed.rest| else 0, parsed.drops)
  }

  class LogReader {
    const crc: Checksum
    const file: Bytes
    /** How much of the file has been read, and the part of it that has not been used yet. */
    var filePos: nat
    var buffer: Bytes
    var eof: bool
    /** The number of corruptions that were reported. */
    var drops: nat

    ghost predicate Valid()
      reads this
    {
      BufferOk(file, filePos, buffer, eof)
    }

    /** The offset of the first byte that has not been used. */
    ghost function Pos(): nat
      requires |buffer| <= filePos
      reads this
    {
      filePos - |buffer|
    }

    constructor (crc: Checksum, file: Bytes)
      ensures Valid() && this.crc == crc && this.file == file && Pos() == 0 && drops == 0
    {
      this.crc, this.file := crc, file;
      filePos, buffer, eof, drops := 0, [], false, 0;
    }

    /** The first part of ReadPhysicalRecord: get a buffer that has room for a header. */
    method Fill() returns (ok: bool)
      requires Valid()
      modifies this`filePos, this`buffer, this`eof
      ensures Valid()
      ensures ok ==> Filled(file, old(Pos()) + Trailer(old(Pos())), filePos, buffer, eof)
      ensures !ok ==> old(Pos()) + Trailer(old(Pos())) + HEADER_SIZE > |file| && Pos() == |file|
    {
      ghost var p := Pos();
      FillingStarts(file, filePos, buffer, eof);
      while |buffer| < HEADER_SIZE
        invariant Valid() && Filling(file, p, filePos, buffer, eof)
        decreases !eof, |file| - filePos
      {
        if eof {
          buffer := [];
          return false;
        }
        FillingGoesOn(file, p, filePos, buffer);
        var end := Min(filePos + BLOCK_SIZE, |file|);
        buffer := file[filePos..end];
        if |buffer| < BLOCK_SIZE {
          eof := true;
        }
        filePos := end;
      }
      return true;
    }

    /** The second part: the header, the length, the type and the checksum. */
    method ParseBuffer() returns (r: Fetched)
      requires |buffer| >= HEADER_SIZE
      modifies this`buffer, this`drops
      ensures drops >= old(drops) && ParsesTo(crc, old(buffer), eof, Examined(r, buffer, drops - old(drops)))
      ensures |buffer| < |old(buffer)| && buffer == old(buffer)[|old(buffer)| - |buffer|..]
    {
      var header := buffer;
      var length := HeaderLength(header);
      if HEADER_SIZE + length > |header| {
        buffer := [];
        if !eof {
          drops := drops + 1;
          return BadRecord;
        }
        return Eof;
      }
      if header[6] == 0 && length == 0 {
        buffer := [];
        return BadRecord;
      }
      var expected := Unmask(DecodeFixed32(header));
      var actual := crc(header[6..HEADER_SIZE + length]);
      if actual != expected {
        buffer := [];
        drops := drops + 1;
        return BadRecord;
      }
      buffer := header[HEADER_SIZE + length..];
      r := Fragment(header[6], header[HEADER_SIZE..HEADER_SIZE + length]);
    }

    /** ReadPhysicalRecord with checksums on. */
    method ReadPhysicalRecord() returns (r: Fetched)
      requires Valid()
      modifies this
      ensures Valid()
      ensures drops >= old(drops) && ReadAt(crc, file, old(Pos())) == ReadResult(r, Pos(), drops - old(drops))
    {
      var ok := Fill();
      if ok {
        ghost var before := buffer;
        r := ParseBuffer();
        ParsedIsRead(crc, file, old(Pos()), filePos, before, eof, Examined(r, buffer, drops - old(drops)));
      } else {
        ReadPastEnd(crc, file, old(Pos()));
        r := Eof;
      }
    }

    /** The switch of ReadRecord on the fields it works with. */
    method TakeFetched(fetched: Fetched, scratch: Bytes, inFragmentedRecord: bool)
      returns (done: bool, record: Option<Bytes>, newScratch: Bytes, newInFragmentedRecord: bool)
      modifies this`drops
      ensures match Take(fetched, if inFragmentedRecord then Some(scratch) else None)
        case Stop(result, lost) => done && record == result && drops == old(drops) + lost
        case GoOn(partial, lost) => (
          && !done && drops == old(drops) + lost
          && partial == if newInFragmentedRecord then Some(newScratch) else None)
    {
      done, record, newScratch, newInFragmentedRecord := false, None, scratch, inFragmentedRecord;
      match fetched
      case Fragment(kind, fragment) =>
        if kind == TypeByte(Full) {
          if inFragmentedRecord && scratch != [] {
            drops := drops + 1;
          }
          done, record := true, Some(fragment);
        } else if kind == TypeByte(First) {
          if inFragmentedRecord && scratch != [] {
            drops := drops + 1;
          }
          newScratch, newInFragmentedRecord := fragment, true;
        } else if kind == TypeByte(Middle) {
          if !inFragmentedRecord {
            drops := drops + 1;
          } else {
            newScratch := scratch + fragment;
          }
        } else if kind == TypeByte(Last) {
          if !inFragmentedRecord {
            drops := drops + 1;
          } else {
            done, record := true, Some(scratch + fragment);
          }
        } else {
          drops := drops + 1;
          newScratch, newInFragmentedRecord := [], false;
        }
      case Eof =>
        done := true;
      case BadRecord =>
        if inFragmentedRecord {
          drops := drops + 1;
          newScratch, newInFragmentedRecord := [], false;
        }
    }

    /** ReadRecord from the start of the file: fragments are put together until a record is complete. */
    method ReadRecord() returns (record: Option<Bytes>)
      requires Valid()
      modifies this
      ensures Valid()
      ensures var read := RecordAt(crc, file, old(Pos()), None);
        record == read.record && Pos() == read.pos && drops == old(drops) + read.drops
    {
      var scratch: Bytes := [];
      var inFragmentedRecord := false;
      ghost var all := RecordAt(crc, file, Pos(), None);
      while true
        invariant Valid() && drops >= old(drops)
        invariant AddDrops(RecordAt(crc, file, Pos(), if inFragmentedRecord then Some(scratch) else None), drops - old(drops)) == all
        decreases |file| - Pos()
      {
        var fetched := ReadPhysicalRecord();
        var done;
        done, record, scratch, inFragmentedRecord := TakeFetched(fetched, scratch, inFragmentedRecord);
        if done {
          return;
        }
      }
    }
  }

  // ---- Whole logs ----

  /** The records that lie wholly within the first n bytes of the log. */
  function Whole(crc: Checksum, records: seq<Bytes>, n: nat): seq<Bytes> {
    if records == [] || |LogBytes(crc, records)| <= n then records else Whole(crc, records[..|records| - 1], n)
  }

  lemma PrefixOfPrefix<T>(s: seq<T>, k: nat, n: nat)
    requires k <= n <= |s|
    ensures s[..n][..k] == s[..k] && s[..|s|] == s
  {
  }

  /** Whole is what its name says: the longest list of leading records that fits. */
  lemma {:induction false} WholeIsLongest(crc: Checksum, records: seq<Bytes>, n: nat)
    ensures var k := |Whole(crc, records, n)|;
      && k <= |records| && Whole(crc, records, n) == records[..k] && |LogBytes(crc, records[..k])| <= n
      && (k < |records| ==> |LogBytes(crc, records[..k + 1])| > n)
    decreases |records|
  {
    PrefixOfPrefix(records, 0, |records|);
    if records != [] && |LogBytes(crc, records)| > n {
      var last := |records| - 1;
      WholeIsLongest(crc, records[..last], n);
      var k := |Whole(crc, records[..last], n)|;
      PrefixOfPrefix(records, k, last);
      if k < last {
        PrefixOfPrefix(records, k + 1, last);
      }
    }
  }

  /** A truncated log agrees with what was written, record by record. */
  lemma PrefixAgrees(crc: Checksum, file: Bytes, records: seq<Bytes>, i: nat)
    requires file <= LogBytes(crc, records) && i < |records|
    ensures var pos := |LogBytes(crc, records[..i])|; Agrees(file, pos, Encode(crc, pos, records[i], true))
    ensures |LogBytes(crc, records[..i + 1])|
         == |LogBytes(crc, records[..i])| + |Encode(crc, |LogBytes(crc, records[..i])|, records[i], true)|
  {
    LogBytesPrefix(crc, records, i + 1);
    assert records[..i] + [records[i]] == records[..i + 1];
    LogBytesSnoc(crc, records[..i], records[i]);
    AgreesOfPrefix(file, LogBytes(crc, records[..i]), Encode(crc, |LogBytes(crc, records[..i])|, records[i], true), LogBytes(crc, records));
  }

  lemma AgreesOfPrefix(file: Bytes, a: Bytes, b: Bytes, all: Bytes)
    requires file <= all && a + b <= all
    ensures Agrees(file, |a|, b)
  {
    forall i | 0 <= i < |b| && |a| + i < |file| ensures file[|a| + i] == b[i] {
      assert all[|a| + i] == (a + b)[|a| + i];
    }
  }

  lemma NextRecordReads(crc: Checksum, file: Bytes, records: seq<Bytes>, i: nat)
    requires file <= LogBytes(crc, records) && i < |records| && |LogBytes(crc, records[..i])| <= |file|
    ensures RecordAt(crc, file, |LogBytes(crc, records[..i])|, None) ==
      if |LogBytes(crc, records[..i + 1])| <= |file| then RecordResult(Some(records[i]), |LogBytes(crc, records[..i + 1])|, 0)
      else RecordResult(None, |file|, 0)
  {
    PrefixAgrees(crc, file, records, i);
    ReadWritten(crc, file, |LogBytes(crc, records[..i])|, records[i], None);
    assert [] + records[i] == records[i];
  }

  lemma NothingLeft(crc: Checksum, file: Bytes)
    ensures RecordAt(crc, file, |file|, None) == RecordResult(None, |file|, 0)
  {
  }

  /** Where the i-th record starts. */
  function StartOf(crc: Checksum, records: seq<Bytes>, i: nat): nat
    requires i <= |records|
  {
    |LogBytes(crc, records[..i])|
  }

  lemma StartsRise(crc: Checksum, records: seq<Bytes>, i: nat, k: nat)
    requires i <= k <= |records|
    ensures StartOf(crc, records, i) <= StartOf(crc, records, k)
  {
    assert records[..k][..i] == records[..i];
    LogBytesPrefix(crc, records[..k], i);
  }

  /** How many records lie wholly within the file. */
  function WholeCount(crc: Checksum, records: seq<Bytes>, n: nat): (k: nat)
    ensures k <= |records|
  {
    WholeIsLongest(crc, records, n);
    |Whole(crc, records, n)|
  }

  lemma WholeStarts(crc: Checksum, records: seq<Bytes>, n: nat)
    ensures var k := WholeCount(crc, records, n);
      StartOf(crc, records, k) <= n && (k < |records| ==> StartOf(crc, records, k + 1) > n)
  {
    WholeIsLongest(crc, records, n);
  }

  lemma WholeFits(crc: Checksum, records: seq<Bytes>, n: nat, i: nat)
    requires i <= |records|
    ensures i <= WholeCount(crc, records, n) <==> StartOf(crc, records, i) <= n
  {
    var k := WholeCount(crc, records, n);
    WholeStarts(crc, records, n);
    if i <= k {
      StartsRise(crc, records, i, k);
    } else {
      StartsRise(crc, records, k + 1, i);
    }
  }

  /** What the i-th call of ReadRecord on a truncated log gives. */
  function CallResult(crc: Checksum, file: Bytes, records: seq<Bytes>, i: nat): RecordResult
    requires i <= |records|
  {
    if i < WholeCount(crc, records, |file|) then RecordResult(Some(records[i]), StartOf(crc, records, i + 1), 0)
    else RecordResult(None, |file|, 0)
  }

  lemma NextOfLog(crc: Checksum, file: Bytes, records: seq<Bytes>, i: nat)
    requires file <= LogBytes(crc, records) && i <= WholeCount(crc, records, |file|)
    ensures StartOf(crc, records, i) <= |file|
    ensures RecordAt(crc, file, StartOf(crc, records, i), None) == CallResult(crc, file, records, i)
  {
    WholeFits(crc, records, |file|, i);
    if i < |records| {
      WholeFits(crc, records, |file|, i + 1);
      NextRecordReads(crc, file, records, i);
    } else {
      assert records[..i] == records;
      NothingLeft(crc, file);
    }
  }

  /** Reading any byte prefix of a log gives exactly the records that are wholly inside it, in order, and reports no
      corruption. */
  method ReadLog(crc: Checksum, file: Bytes, ghost records: seq<Bytes>) returns (result: seq<Bytes>, drops: nat)
    requires file <= LogBytes(crc, records)
    ensures result == Whole(crc, records, |file|) && drops == 0
  {
    var reader := new LogReader(crc, file);
    result := [];
    ghost var k := WholeCount(crc, records, |file|);
    var record := Some([]);
    while record.Some?
      invariant fresh(reader) && reader.Valid() && reader.crc == crc && reader.file == file && reader.drops == 0
      invariant |result| <= k && result == records[..|result|]
      invariant record.Some? ==> reader.Pos() == StartOf(crc, records, |result|)
      invariant record.None? ==> |result| == k
      decreases record.Some?, |file| - reader.Pos()
    {
      NextOfLog(crc, file, records, |result|);
      record := reader.ReadRecord();
      if record.Some? {
        TakeOneMore(records, |result|);
        result := result + [record.value];
      }
    }
    WholeIsLongest(crc, records, |file|);
    drops := reader.drops;
  }
}
