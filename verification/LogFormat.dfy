/** The physical log format and its writer: records are cut into fragments that never cross a 32 KiB block
    (db/log_format.h, db/log_writer.cc, util/crc32c.h). */
module LogFormat {
  import opened DbFormat
  import opened Coding

  const BLOCK_SIZE := 32768
  /** Checksum (4 bytes), length (2 bytes), type (1 byte). */
  const HEADER_SIZE := 7

  /** crc32c::Value. Nothing is assumed about it; crc32c::Extend over the type byte and then the payload is taken
      to be the value of their concatenation. */
  type Checksum = Bytes -> Word

  // ---- Checksums ----

  const MASK_DELTA: nat := 0xa282ead8

  /** crc32c::Mask: rotate right by 15 bits and add a constant. */
  function Mask(crc: Word): Word {
    (crc / 32768 + crc % 32768 * 131072 + MASK_DELTA) % WORD
  }

  /** crc32c::Unmask. */
  function Unmask(masked: Word): Word {
    var rot := (masked + WORD - MASK_DELTA) % WORD;
    rot / 131072 + rot % 131072 * 32768
  }

  lemma UnmaskMask(crc: Word)
    ensures Unmask(Mask(crc)) == crc
  {
    var rot := crc / 32768 + crc % 32768 * 131072;
    AddThenSubtract(rot);
    SplitAgain(crc / 32768, crc % 32768);
  }

  lemma AddThenSubtract(rot: Word)
    ensures ((rot + MASK_DELTA) % WORD + WORD - MASK_DELTA) % WORD == rot
  {
  }

  lemma SplitAgain(high: nat, low: nat)
    requires high < 131072 && low < 32768
    ensures (high + low * 131072) / 131072 == low && (high + low * 131072) % 131072 == high
  {
  }

  // ---- The format ----

  datatype RecordType = Full | First | Middle | Last

  function TypeByte(t: RecordType): Byte {
    match t
    case Full => 1
    case First => 2
    case Middle => 3
    case Last => 4
  }

  function TypeOf(begin: bool, end: bool): RecordType {
    if begin && end then Full else if begin then First else if end then Last else Middle
  }

  /** One physical record. */
  function Physical(crc: Checksum, t: RecordType, data: Bytes): (r: Bytes)
    requires |data| <= 0xffff
    ensures |r| == HEADER_SIZE + |data|
  {
    EncodeFixed32(Mask(crc([TypeByte(t)] + data))) + [Low8(|data|), Low8(|data| / 256), TypeByte(t)] + data
  }

  function Zeros(n: nat): (r: Bytes)
    ensures |r| == n
  {
    if n == 0 then [] else Zeros(n - 1) + [0]
  }

  /** The bytes left over at the end of a block when a header does not fit any more. */
  function Trailer(offset: nat): nat {
    var leftover := BLOCK_SIZE - offset % BLOCK_SIZE;
    if leftover < HEADER_SIZE then leftover else 0
  }

  /** How much payload fits into the rest of the block, after the trailer if there is one. */
  function Available(offset: nat): (n: nat)
    ensures n <= BLOCK_SIZE - HEADER_SIZE
  {
    var leftover := BLOCK_SIZE - offset % BLOCK_SIZE;
    if leftover < HEADER_SIZE then BLOCK_SIZE - HEADER_SIZE else leftover - HEADER_SIZE
  }

  function FragmentLength(offset: nat, payload: Bytes): (n: nat)
    ensures n <= |payload| && n <= BLOCK_SIZE - HEADER_SIZE
  {
    if |payload| < Available(offset) then |payload| else Available(offset)
  }

  function NextOffset(offset: nat, payload: Bytes): nat {
    offset + Trailer(offset) + HEADER_SIZE + FragmentLength(offset, payload)
  }

  function FragmentType(offset: nat, payload: Bytes, begin: bool): RecordType {
    TypeOf(begin, FragmentLength(offset, payload) == |payload|)
  }

  /** A fragment with no payload can only be the last thing in a block, so the next one has some. */
  function Stalled(offset: nat): nat {
    if Available(offset) == 0 then 1 else 0
  }

  /** The bytes that a record takes when it is written at the given offset of the file; `begin` says whether its
      first fragment is still to come. */
  function Encode(crc: Checksum, offset: nat, payload: Bytes, begin: bool): Bytes
    decreases |payload|, Stalled(offset)
  {
    var n := FragmentLength(offset, payload);
    Zeros(Trailer(offset)) + Physical(crc, FragmentType(offset, payload, begin), payload[..n]) +
    if n == |payload| then [] else Encode(crc, NextOffset(offset, payload), payload[n..], false)
  }

  /** The file after one more fragment. */
  function WithFragment(crc: Checksum, start: Bytes, left: Bytes, begin: bool): Bytes {
    var n := FragmentLength(|start|, left);
    start + Zeros(Trailer(|start|)) + Physical(crc, FragmentType(|start|, left, begin), left[..n])
  }

  lemma EncodeStep(crc: Checksum, start: Bytes, left: Bytes, begin: bool)
    ensures var n, after := FragmentLength(|start|, left), WithFragment(crc, start, left, begin);
      && |after| == NextOffset(|start|, left)
      && start + Encode(crc, |start|, left, begin)
         == after + if n == |left| then [] else Encode(crc, |after|, left[n..], false)
  {
    var n := FragmentLength(|start|, left);
    FourParts(start, Zeros(Trailer(|start|)), Physical(crc, FragmentType(|start|, left, begin), left[..n]),
            if n == |left| then [] else Encode(crc, NextOffset(|start|, left), left[n..], false));
  }

  lemma FourParts<T>(a: seq<T>, b: seq<T>, c: seq<T>, d: seq<T>)
    ensures a + (b + c + d) == a + b + c + d
  {
  }

  lemma StallEnds(offset: nat, payload: Bytes)
    requires FragmentLength(offset, payload) == 0 < |payload|
    ensures Stalled(NextOffset(offset, payload)) < Stalled(offset)
  {
  }

  /** A log file with the given records. */
  function LogBytes(crc: Checksum, records: seq<Bytes>): Bytes {
    if records == [] then []
    else
      var before := LogBytes(crc, records[..|records| - 1]);
      before + Encode(crc, |before|, records[|records| - 1], true)
  }

  // ---- The writer ----

  lemma SameBlockOffset(a: nat, b: nat, n: nat)
    requires a % BLOCK_SIZE == b % BLOCK_SIZE
    ensures (a + n) % BLOCK_SIZE == (b + n) % BLOCK_SIZE
  {
    var q, r := a / BLOCK_SIZE, b / BLOCK_SIZE;
    assert a - b == (q - r) * BLOCK_SIZE;
    assert (a + n) - (b + n) == (q - r) * BLOCK_SIZE;
  }

  class LogWriter {
    const crc: Checksum
    /** The destination file. */
    var dest: Bytes
    var blockOffset: nat

    ghost predicate Valid()
      reads this
    {
      blockOffset <= BLOCK_SIZE && |dest| % BLOCK_SIZE == blockOffset % BLOCK_SIZE
    }

    /** Writer(dest, dest_length): continue a file of any length. */
    constructor (crc: Checksum, dest: Bytes)
      ensures Valid() && this.crc == crc && this.dest == dest
    {
      this.crc, this.dest, this.blockOffset := crc, dest, |dest| % BLOCK_SIZE;
    }

    method EmitPhysicalRecord(t: RecordType, data: Bytes)
      requires Valid() && |data| <= 0xffff && blockOffset + HEADER_SIZE + |data| <= BLOCK_SIZE
      modifies this
      ensures Valid() && dest == old(dest) + Physical(crc, t, data)
    {
      var value := Mask(crc([TypeByte(t)] + data));
      var header := EncodeFixed32(value) + [Low8(|data|), Low8(|data| / 256), TypeByte(t)];
      SameBlockOffset(|dest|, blockOffset, HEADER_SIZE + |data|);
      dest := dest + (header + data);
      blockOffset := blockOffset + HEADER_SIZE + |data|;
    }

    method SwitchBlock()
      requires Valid()
      modifies this
      ensures Valid() && dest == old(dest) + Zeros(Trailer(|old(dest)|))
      ensures blockOffset + HEADER_SIZE <= BLOCK_SIZE
      ensures Available(|old(dest)|) == BLOCK_SIZE - blockOffset - HEADER_SIZE
    {
      var leftover := BLOCK_SIZE - blockOffset;
      if leftover < HEADER_SIZE {
        if leftover > 0 {
          dest := dest + Zeros(leftover);
        } else {
          assert dest + Zeros(0) == dest;
        }
        blockOffset := 0;
      } else {
        assert dest + Zeros(0) == dest;
      }
    }

    /** One round of the loop in AddRecord. */
    method EmitFragment(left: Bytes, begin: bool) returns (rest: Bytes)
      requires Valid()
      modifies this
      ensures Valid() && dest == WithFragment(crc, old(dest), left, begin)
      ensures rest == left[FragmentLength(|old(dest)|, left)..]
    {
      SwitchBlock();
      var avail := BLOCK_SIZE - blockOffset - HEADER_SIZE;
      var fragmentLength := if |left| < avail then |left| else avail;
      var end := |left| == fragmentLength;
      EmitPhysicalRecord(TypeOf(begin, end), left[..fragmentLength]);
      rest := left[fragmentLength..];
    }

    /** AddRecord: the do-while loop over the fragments. It ends although one round may write no payload. */
    method AddRecord(record: Bytes)
      requires Valid()
      modifies this
      ensures Valid() && dest == old(dest) + Encode(crc, |old(dest)|, record, true)
    {
      ghost var all := dest + Encode(crc, |dest|, record, true);
      var left := record;
      var begin := true;
      var more := true;
      while more
        invariant Valid()
        invariant dest + (if more then Encode(crc, |dest|, left, begin) else []) == all
        decreases more, |left|, Stalled(|dest|)
      {
        if FragmentLength(|dest|, left) == 0 < |left| {
          StallEnds(|dest|, left);
        }
        EncodeStep(crc, dest, left, begin);
        left := EmitFragment(left, begin);
        begin := false;
        more := |left| > 0;
      }
    }
  }

  // ---- Whole logs ----

  lemma LogBytesSnoc(crc: Checksum, records: seq<Bytes>, record: Bytes)
    ensures LogBytes(crc, records + [record])
         == LogBytes(crc, records) + Encode(crc, |LogBytes(crc, records)|, record, true)
  {
    var more := records + [record];
    assert more[..|more| - 1] == records;
  }

  lemma OneMore<T>(a: seq<T>, b: seq<T>, i: nat)
    requires i < |b|
    ensures a + b[..i] + [b[i]] == a + b[..i + 1]
  {
  }

  /** Writing records to a log file, which may already hold some: a writer that is restarted at the length of the
      file continues as if it had never stopped. */
  method WriteLog(crc: Checksum, dest: Bytes, records: seq<Bytes>, ghost before: seq<Bytes>) returns (file: Bytes)
    requires dest == LogBytes(crc, before)
    ensures file == LogBytes(crc, before + records)
  {
    var writer := new LogWriter(crc, dest);
    assert before + records[..0] == before;
    for i := 0 to |records|
      invariant fresh(writer) && writer.Valid() && writer.crc == crc
      invariant writer.dest == LogBytes(crc, before + records[..i])
    {
      LogBytesSnoc(crc, before + records[..i], records[i]);
      OneMore(before, records, i);
      writer.AddRecord(records[i]);
    }
    assert records[..|records|] == records;
    file := writer.dest;
  }

  lemma {:induction false} LogBytesPrefix(crc: Checksum, records: seq<Bytes>, i: nat)
    requires i <= |records|
    ensures LogBytes(crc, records[..i]) <= LogBytes(crc, records)
    ensures i < |records| ==> |LogBytes(crc, records[..i])| < |LogBytes(crc, records)|
    decreases |records|
  {
    if i < |records| {
      var init := records[..|records| - 1];
      assert init[..i] == records[..i];
      LogBytesPrefix(crc, init, i);
      EncodeNotEmpty(crc, |LogBytes(crc, init)|, records[|records| - 1]);
    } else {
      assert records[..i] == records;
    }
  }

  lemma EncodeNotEmpty(crc: Checksum, offset: nat, record: Bytes)
    ensures |Encode(crc, offset, record, true)| > 0
  {
  }
}
