/** Logs that nobody wrote as they are: what the reader delivers was written by a writer, and what is left of a record
    is dropped and reported (db/log_reader.cc). */
module CorruptLogs {
  import opened DbFormat
  import opened Coding
  import opened LogFormat
  import opened LogReading

  // ---- One physical record ----

  lemma FixedOfDecoded(b: Bytes)
    requires |b| == 4
    ensures EncodeFixed32(DecodeFixed32(b)) == b
  {
    var b0: nat, b1: nat, b2: nat, b3: nat := b[0], b[1], b[2], b[3];
    LowPart(b0, b1 + 256 * (b2 + 256 * b3));
    LowPart(b1, b2 + 256 * b3);
    LowPart(b2, b3);
  }

  lemma LowPart(low: nat, high: nat)
    requires low < 256
    ensures (low + 256 * high) % 256 == low && (low + 256 * high) / 256 == high
  {
  }

  lemma MaskUnmask(masked: Word)
    ensures Mask(Unmask(masked)) == masked
  {
    var rot := (masked + WORD - MASK_DELTA) % WORD;
    var high, low := rot / 131072, rot % 131072;
    assert (high + low * 32768) / 32768 == low && (high + low * 32768) % 32768 == high;
  }

  /** The bytes of a physical record with any type byte. */
  function RecordBytes(crc: Checksum, kind: Byte, data: Bytes): (r: Bytes)
    requires |data| <= 0xffff
    ensures forall t :: kind == TypeByte(t) ==> r == Physical(crc, t, data)
  {
    EncodeFixed32(Mask(crc([kind] + data))) + [Low8(|data|), Low8(|data| / 256), kind] + data
  }

  /** The buffer begins with a record; one of type zero without payload does not count. */
  ghost predicate BeginsWith(crc: Checksum, buffer: Bytes, kind: Byte, data: Bytes, rest: Bytes) {
    |data| <= 0xffff && buffer == RecordBytes(crc, kind, data) + rest && (kind == 0 ==> data != [])
  }

  lemma ChecksumAgain(header: Bytes)
    requires |header| == HEADER_SIZE
    ensures EncodeFixed32(Mask(Unmask(DecodeFixed32(header)))) == header[..4]
  {
    MaskUnmask(DecodeFixed32(header));
    assert DecodeFixed32(header[..4]) == DecodeFixed32(header);
    FixedOfDecoded(header[..4]);
  }

  lemma LengthAgain(header: Bytes)
    requires |header| == HEADER_SIZE
    ensures HeaderLength(header) <= 0xffff
    ensures Low8(HeaderLength(header)) == header[4] && Low8(HeaderLength(header) / 256) == header[5]
  {
    LowPart(header[4], header[5]);
  }

  /** The header of a record, taken apart and put together again. */
  lemma HeaderAgain(header: Bytes)
    requires |header| == HEADER_SIZE
    ensures HeaderLength(header) <= 0xffff
    ensures header == EncodeFixed32(Mask(Unmask(DecodeFixed32(header))))
                      + [Low8(HeaderLength(header)), Low8(HeaderLength(header) / 256), header[6]]
  {
    ChecksumAgain(header);
    LengthAgain(header);
    assert header == header[..4] + [header[4], header[5], header[6]];
  }

  lemma DeliveredIsThere(crc: Checksum, buffer: Bytes, eof: bool, kind: Byte, data: Bytes, rest: Bytes)
    requires |buffer| >= HEADER_SIZE && Parse(crc, buffer, eof) == Examined(Fragment(kind, data), rest, 0)
    ensures BeginsWith(crc, buffer, kind, data, rest)
  {
    var header, length := buffer[..HEADER_SIZE], HeaderLength(buffer);
    HeaderAgain(header);
    assert HeaderLength(header) == length && DecodeFixed32(header) == DecodeFixed32(buffer);
    assert buffer[6..HEADER_SIZE + length] == [kind] + data;
    assert buffer == header + data + rest;
  }

  lemma ThereIsDelivered(crc: Checksum, buffer: Bytes, eof: bool, kind: Byte, data: Bytes, rest: Bytes)
    requires BeginsWith(crc, buffer, kind, data, rest)
    ensures Parse(crc, buffer, eof) == Examined(Fragment(kind, data), rest, 0)
  {
    var w, tail := Mask(crc([kind] + data)), [Low8(|data|), Low8(|data| / 256), kind] + data + rest;
    assert buffer == EncodeFixed32(w) + tail;
    Fixed32RoundTrip(w, tail);
    UnmaskMask(crc([kind] + data));
    assert buffer[6] == kind && HeaderLength(buffer) == |data|;
    assert buffer[6..HEADER_SIZE + |data|] == [kind] + data;
    assert buffer[HEADER_SIZE..HEADER_SIZE + |data|] == data && buffer[HEADER_SIZE + |data|..] == rest;
  }

  /** A payload is delivered exactly if the buffer begins with the bytes that the writer makes of it, the checksum of
      type and payload included. */
  lemma DeliveredIffWritten(crc: Checksum, buffer: Bytes, eof: bool, kind: Byte, data: Bytes, rest: Bytes)
    requires |buffer| >= HEADER_SIZE
    ensures Parse(crc, buffer, eof) == Examined(Fragment(kind, data), rest, 0) <==> BeginsWith(crc, buffer, kind, data, rest)
  {
    if Parse(crc, buffer, eof) == Examined(Fragment(kind, data), rest, 0) {
      DeliveredIsThere(crc, buffer, eof, kind, data, rest);
    }
    if BeginsWith(crc, buffer, kind, data, rest) {
      ThereIsDelivered(crc, buffer, eof, kind, data, rest);
    }
  }

  /** Anything else costs the rest of the block. It is reported, unless it is a record of type zero without payload or
      is cut by the end of the file. */
  lemma OtherwiseDropped(crc: Checksum, buffer: Bytes, eof: bool)
    requires |buffer| >= HEADER_SIZE && forall kind, data, rest :: !BeginsWith(crc, buffer, kind, data, rest)
    ensures var length := HeaderLength(buffer);
      Parse(crc, buffer, eof)
      == if HEADER_SIZE + length > |buffer| && eof then Examined(Eof, [], 0)
         else Examined(BadRecord, [], if HEADER_SIZE + length <= |buffer| && buffer[6] == 0 && length == 0 then 0 else 1)
  {
    var parsed := Parse(crc, buffer, eof);
    if parsed.fetched.Fragment? {
      DeliveredIsThere(crc, buffer, eof, parsed.fetched.kind, parsed.fetched.data, parsed.rest);
      assert false;
    }
  }

  // ---- Records that were begun and not ended, or ended and not begun ----

  /** A fragment that begins a record is taken as if nothing had been open; what was open is lost and reported. */
  lemma BeginsAnew(crc: Checksum, file: Bytes, pos: nat, partial: Bytes)
    requires pos <= |file|
    requires var fetched := ReadAt(crc, file, pos).fetched;
      fetched.Fragment? && (fetched.kind == TypeByte(Full) || fetched.kind == TypeByte(First))
    ensures RecordAt(crc, file, pos, Some(partial))
         == AddDrops(RecordAt(crc, file, pos, None), if partial == [] then 0 else 1)
  {
  }

  lemma WholeIsRead(crc: Checksum, file: Bytes, pos: nat, payload: Bytes, end: nat)
    requires Agrees(file, pos, Encode(crc, pos, payload, true)) && end == pos + |Encode(crc, pos, payload, true)| <= |file|
    ensures RecordAt(crc, file, pos, None) == RecordResult(Some(payload), end, 0)
  {
    ReadWritten(crc, file, pos, payload, None);
    assert [] + payload == payload;
  }

  /** A record that comes after one that its writer did not end is delivered whole, and the loss is reported once. */
  lemma AbandonedRecord(crc: Checksum, file: Bytes, pos: nat, partial: Bytes, payload: Bytes, end: nat)
    requires Agrees(file, pos, Encode(crc, pos, payload, true)) && end == pos + |Encode(crc, pos, payload, true)| <= |file|
    ensures RecordAt(crc, file, pos, Some(partial)) == RecordResult(Some(payload), end, if partial == [] then 0 else 1)
  {
    EncodeParts(crc, file, pos, payload, true);
    ReadFragment(crc, file, pos, FragmentType(pos, payload, true), payload[..FragmentLength(pos, payload)]);
    BeginsAnew(crc, file, pos, partial);
    WholeIsRead(crc, file, pos, payload, end);
  }

  /** What cannot be read ends an open record too, and that is one more loss. */
  lemma BadRecordEndsOpen(crc: Checksum, file: Bytes, pos: nat, partial: Bytes)
    requires pos <= |file| && ReadAt(crc, file, pos).fetched.BadRecord?
    ensures var read := ReadAt(crc, file, pos);
      && RecordAt(crc, file, pos, None) == AddDrops(RecordAt(crc, file, read.pos, None), read.drops)
      && RecordAt(crc, file, pos, Some(partial)) == AddDrops(RecordAt(crc, file, read.pos, None), read.drops + 1)
  {
  }

  /** A record of an unknown type is one loss, together with what is open. */
  lemma UnknownTypeIsSkipped(crc: Checksum, file: Bytes, pos: nat, partial: Option<Bytes>)
    requires pos <= |file|
    requires var fetched := ReadAt(crc, file, pos).fetched; fetched.Fragment? && forall t :: fetched.kind != TypeByte(t)
    ensures var read := ReadAt(crc, file, pos);
      RecordAt(crc, file, pos, partial) == AddDrops(RecordAt(crc, file, read.pos, None), read.drops + 1)
  {
    var kind := ReadAt(crc, file, pos).fetched.kind;
    assert kind != TypeByte(Full) && kind != TypeByte(First) && kind != TypeByte(Middle) && kind != TypeByte(Last);
  }

  /** The number of fragments of a record that is written at the offset. */
  function Fragments(pos: nat, payload: Bytes): (n: nat)
    decreases |payload|, Stalled(pos)
  {
    var n := FragmentLength(pos, payload);
    1 + if n == |payload| then 0 else Fragments(NextOffset(pos, payload), payload[n..])
  }

  ghost predicate SkipsNow(crc: Checksum, file: Bytes, pos: nat, end: nat, lost: nat, key: nat)
    requires pos <= |file| && end <= |file|
  {
    RecordAt(crc, file, pos, None) == AddDrops(RecordAt(crc, file, end, None), lost)
  }

  /** Reading at one offset is reading at the other, with so many losses reported; the key keeps RecordAt out of
      sight. */
  ghost predicate Skips(crc: Checksum, file: Bytes, pos: nat, end: nat, lost: nat)
    requires pos <= |file| && end <= |file|
  {
    forall key: nat {:trigger SkipsNow(crc, file, pos, end, lost, key)} :: SkipsNow(crc, file, pos, end, lost, key)
  }

  lemma SkipsMore(crc: Checksum, file: Bytes, a: nat, b: nat, m: nat, c: nat, n: nat)
    requires a <= |file| && b <= |file| && c <= |file| && Skips(crc, file, a, b, m) && Skips(crc, file, b, c, n)
    ensures Skips(crc, file, a, c, m + n)
  {
    assert SkipsNow(crc, file, a, b, m, 0) && SkipsNow(crc, file, b, c, n, 0);
  }

  lemma StrayFragment(crc: Checksum, file: Bytes, pos: nat, t: RecordType, data: Bytes, next: nat)
    requires pos <= |file| && next <= |file| && (t == Middle || t == Last)
    requires ReadAt(crc, file, pos) == ReadResult(Fragment(TypeByte(t), data), next, 0)
    ensures Skips(crc, file, pos, next, 1)
  {
  }

  lemma StrayTurn(crc: Checksum, file: Bytes, pos: nat, payload: Bytes)
    requires Agrees(file, pos, Encode(crc, pos, payload, false)) && NextOffset(pos, payload) <= |file|
    ensures pos <= |file| && Skips(crc, file, pos, NextOffset(pos, payload), 1)
  {
    var n, t := FragmentLength(pos, payload), FragmentType(pos, payload, false);
    EncodeParts(crc, file, pos, payload, false);
    ReadFragment(crc, file, pos, t, payload[..n]);
    StrayFragment(crc, file, pos, t, payload[..n], NextOffset(pos, payload));
  }

  lemma StrayMore(crc: Checksum, file: Bytes, pos: nat, payload: Bytes, next: nat, end: nat)
    requires pos <= |file| && next <= |file| && end <= |file| && FragmentLength(pos, payload) < |payload|
    requires Skips(crc, file, pos, next, 1) && next == NextOffset(pos, payload)
    requires Skips(crc, file, next, end, Fragments(next, payload[FragmentLength(pos, payload)..]))
    ensures Skips(crc, file, pos, end, Fragments(pos, payload))
  {
    SkipsMore(crc, file, pos, next, 1, end, Fragments(next, payload[FragmentLength(pos, payload)..]));
  }

  /** The end of a record whose beginning is not there is skipped, and each of its fragments is reported. */
  lemma {:induction false} StrayEnd(crc: Checksum, file: Bytes, pos: nat, payload: Bytes, end: nat)
    requires Agrees(file, pos, Encode(crc, pos, payload, false))
    requires end == pos + |Encode(crc, pos, payload, false)| <= |file|
    ensures Skips(crc, file, pos, end, Fragments(pos, payload))
    decreases |payload|, Stalled(pos)
  {
    var n, next := FragmentLength(pos, payload), NextOffset(pos, payload);
    EncodeParts(crc, file, pos, payload, false);
    StrayTurn(crc, file, pos, payload);
    if n < |payload| {
      if n == 0 { StallEnds(pos, payload); }
      StrayEnd(crc, file, next, payload[n..], end);
      StrayMore(crc, file, pos, payload, next, end);
    }
  }

  /** So the record behind it is delivered. */
  lemma AfterStrayEnd(crc: Checksum, file: Bytes, pos: nat, stray: Bytes, next: nat, payload: Bytes, end: nat)
    requires Agrees(file, pos, Encode(crc, pos, stray, false)) && next == pos + |Encode(crc, pos, stray, false)|
    requires Agrees(file, next, Encode(crc, next, payload, true)) && end == next + |Encode(crc, next, payload, true)|
    requires end <= |file|
    ensures RecordAt(crc, file, pos, None) == RecordResult(Some(payload), end, Fragments(pos, stray))
  {
    StrayEnd(crc, file, pos, stray, next);
    WholeIsRead(crc, file, next, payload, end);
    assert SkipsNow(crc, file, pos, next, Fragments(pos, stray), 0);
  }
}
