/** Write batches as bytes: building, joining and iterating (db/write_batch.cc). */
module BatchBytes {
  import opened DbFormat
  import opened Coding

  const HEADER := 12

  /** One operation of a batch; keys are byte strings here. */
  datatype BatchOp = PutOp(key: Bytes, value: Bytes) | DeleteOp(key: Bytes)

  predicate OpFits(op: BatchOp) {
    |op.key| < WORD && (op.PutOp? ==> |op.value| < WORD)
  }

  // ---- The representation ----

  function EncodeOp(op: BatchOp): (r: Bytes)
    ensures |r| > 0
  {
    match op
    case PutOp(key, value) => [1] + (EncodeSlice(key) + EncodeSlice(value))
    case DeleteOp(key) => [0] + EncodeSlice(key)
  }

  function EncodeOps(ops: seq<BatchOp>): Bytes {
    if ops == [] then [] else EncodeOp(ops[0]) + EncodeOps(ops[1..])
  }

  lemma {:induction false} EncodeOpsJoin(a: seq<BatchOp>, b: seq<BatchOp>)
    ensures EncodeOps(a + b) == EncodeOps(a) + EncodeOps(b)
  {
    if a == [] {
      assert a + b == b;
    } else {
      EncodeOpsJoin(a[1..], b);
      Regroup(EncodeOp(a[0]), EncodeOps(a[1..]), EncodeOps(b));
      FirstOp(a, b);
    }
  }

  lemma FirstOp(a: seq<BatchOp>, b: seq<BatchOp>)
    requires a != []
    ensures EncodeOps(a + b) == EncodeOp(a[0]) + EncodeOps(a[1..] + b)
  {
    assert (a + b)[1..] == a[1..] + b;
  }

  function Header(sequence: nat, count: Word): (r: Bytes)
    requires sequence < TWO_64
    ensures |r| == HEADER
  {
    EncodeFixed64(sequence) + EncodeFixed32(count)
  }

  function Rep(sequence: nat, ops: seq<BatchOp>): (r: Bytes)
    requires sequence < TWO_64
    ensures |r| >= HEADER
  {
    Header(sequence, |ops| % WORD) + EncodeOps(ops)
  }

  /** WriteBatchInternal::Sequence and Count. */
  function SequenceOf(rep: Bytes): nat
    requires |rep| >= HEADER
  {
    DecodeFixed64(rep)
  }

  function CountOf(rep: Bytes): Word
    requires |rep| >= HEADER
  {
    DecodeFixed32(rep[8..])
  }

  lemma HeaderRoundTrip(sequence: nat, count: Word, body: Bytes)
    requires sequence < TWO_64
    ensures var rep := Header(sequence, count) + body;
      SequenceOf(rep) == sequence && CountOf(rep) == count && rep[HEADER..] == body
  {
    var first, second := EncodeFixed64(sequence), EncodeFixed32(count);
    Regroup(first, second, body);
    Fixed64RoundTrip(sequence, second + body);
    Fixed32RoundTrip(count, body);
    assert (first + (second + body))[8..] == second + body;
  }

  // ---- Iterating ----

  datatype BatchError = TooSmall | BadPut | BadDelete | UnknownTag | WrongCount

  /** What the handler is given, and how Iterate ends: on an error the operations before it have been delivered. */
  datatype Iterated = Iterated(ops: seq<BatchOp>, error: Option<BatchError>)

  datatype ParsedOp = Bad(error: BatchError) | Good(op: BatchOp, rest: Bytes)

  function ParsePut(input: Bytes): (r: ParsedOp)
    ensures r.Good? ==> |r.rest| < |input|
  {
    var key := GetSlice(input);
    if key.Failed? then Bad(BadPut)
    else
      var value := GetSlice(key.rest);
      if value.Failed? then Bad(BadPut) else Good(PutOp(key.value, value.value), value.rest)
  }

  function ParseDelete(input: Bytes): (r: ParsedOp)
    ensures r.Good? ==> |r.rest| < |input|
  {
    var key := GetSlice(input);
    if key.Failed? then Bad(BadDelete) else Good(DeleteOp(key.value), key.rest)
  }

  /** The switch of Iterate. */
  function ParseOp(input: Bytes): (r: ParsedOp)
    requires input != []
    ensures r.Good? ==> |r.rest| < |input|
  {
    if input[0] == 1 then ParsePut(input[1..])
    else if input[0] == 0 then ParseDelete(input[1..])
    else Bad(UnknownTag)
  }

  lemma PutRoundTrip(key: Bytes, value: Bytes, rest: Bytes)
    requires OpFits(PutOp(key, value))
    ensures ParsePut(EncodeSlice(key) + (EncodeSlice(value) + rest)) == Good(PutOp(key, value), rest)
  {
    SliceRoundTrip(key, EncodeSlice(value) + rest);
    SliceRoundTrip(value, rest);
  }

  lemma Tagged(tag: Byte, body: Bytes, rest: Bytes)
    ensures ([tag] + body + rest)[0] == tag && ([tag] + body + rest)[1..] == body + rest
  {
  }

  lemma OpRoundTrip(op: BatchOp, rest: Bytes)
    requires OpFits(op)
    ensures ParseOp(EncodeOp(op) + rest) == Good(op, rest)
  {
    match op
    case PutOp(key, value) =>
      Tagged(1, EncodeSlice(key) + EncodeSlice(value), rest);
      Regroup(EncodeSlice(key), EncodeSlice(value), rest);
      PutRoundTrip(key, value, rest);
    case DeleteOp(key) =>
      Tagged(0, EncodeSlice(key), rest);
      SliceRoundTrip(key, rest);
  }

  /** The operations that the input delivers after `found`, up to the first error. */
  function ParseOps(found: seq<BatchOp>, input: Bytes): Iterated
    decreases |input|
  {
    if input == [] then Iterated(found, None)
    else
      var op := ParseOp(input);
      if op.Bad? then Iterated(found, Some(op.error)) else ParseOps(found + [op.op], op.rest)
  }

  lemma ParseStep(found: seq<BatchOp>, input: Bytes, op: BatchOp, rest: Bytes)
    requires input != [] && ParseOp(input) == Good(op, rest)
    ensures ParseOps(found, input) == ParseOps(found + [op], rest)
  {
  }

  lemma Rejoined<T>(a: seq<T>, b: seq<T>)
    requires b != []
    ensures a + [b[0]] + b[1..] == a + b
  {
  }

  lemma {:induction false} OpsRoundTrip(found: seq<BatchOp>, ops: seq<BatchOp>)
    requires forall op :: op in ops ==> OpFits(op)
    ensures ParseOps(found, EncodeOps(ops)) == Iterated(found + ops, None)
    decreases |ops|
  {
    if ops == [] {
      assert found + ops == found;
    } else {
      OpRoundTrip(ops[0], EncodeOps(ops[1..]));
      ParseStep(found, EncodeOps(ops), ops[0], EncodeOps(ops[1..]));
      OpsRoundTrip(found + [ops[0]], ops[1..]);
      Rejoined(found, ops);
    }
  }

  /** What Iterate delivers and returns. */
  function Iteration(rep: Bytes): Iterated {
    if |rep| < HEADER then Iterated([], Some(TooSmall))
    else
      var r := ParseOps([], rep[HEADER..]);
      if r.error.None? && |r.ops| != CountOf(rep) then r.(error := Some(WrongCount)) else r
  }

  /** Every batch with fewer than 2^32 operations is read back as it was built. */
  lemma BatchRoundTrip(sequence: nat, ops: seq<BatchOp>)
    requires sequence < TWO_64 && |ops| < WORD && forall op :: op in ops ==> OpFits(op)
    ensures Iteration(Rep(sequence, ops)) == Iterated(ops, None)
    ensures SequenceOf(Rep(sequence, ops)) == sequence && CountOf(Rep(sequence, ops)) == |ops|
  {
    HeaderRoundTrip(sequence, |ops| % WORD, EncodeOps(ops));
    OpsRoundTrip([], ops);
    assert [] + ops == ops;
    SmallMod(|ops|, WORD);
  }

  lemma RepParts(sequence: nat, ops: seq<BatchOp>)
    requires sequence < TWO_64
    ensures var rep := Rep(sequence, ops);
      && rep[..8] == EncodeFixed64(sequence)
      && rep[8..] == EncodeFixed32(|ops| % WORD) + EncodeOps(ops)
      && rep[HEADER..] == EncodeOps(ops)
  {
    Regroup(EncodeFixed64(sequence), EncodeFixed32(|ops| % WORD), EncodeOps(ops));
  }

  lemma RepAppended(sequence: nat, count: nat, ops: seq<BatchOp>, more: seq<BatchOp>)
    requires sequence < TWO_64 && count % WORD == |ops + more| % WORD
    ensures EncodeFixed64(sequence) + EncodeFixed32(count % WORD) + EncodeOps(ops) + EncodeOps(more) == Rep(sequence, ops + more)
  {
    EncodeOpsJoin(ops, more);
    Regroup(Header(sequence, count % WORD), EncodeOps(ops), EncodeOps(more));
  }

  class WriteBatch {
    var rep: Bytes
    ghost var sequence: nat
    ghost var ops: seq<BatchOp>

    /** The bytes are those of the operations under the sequence number. */
    ghost predicate Valid()
      reads this
    {
      sequence < TWO_64 && rep == Rep(sequence, ops)
    }

    constructor ()
      ensures Valid() && sequence == 0 && ops == []
    {
      rep := seq(HEADER, i => 0);
      sequence, ops := 0, [];
      new;
      assert rep == Rep(0, []);
    }

    method SetSequence(s: nat)
      requires Valid() && s < TWO_64
      modifies this
      ensures Valid() && sequence == s && ops == old(ops)
    {
      RepParts(sequence, ops);
      Regroup(EncodeFixed64(s), EncodeFixed32(|ops| % WORD), EncodeOps(ops));
      rep := EncodeFixed64(s) + rep[8..];
      sequence := s;
    }

    /** SetCount, and the bytes that are appended. */
    method Extend(count: nat, body: Bytes, ghost more: seq<BatchOp>)
      requires Valid() && count % WORD == |ops + more| % WORD && body == EncodeOps(more)
      modifies this
      ensures Valid() && sequence == old(sequence) && ops == old(ops) + more
    {
      RepParts(sequence, ops);
      RepAppended(sequence, count, ops, more);
      rep := rep[..8] + EncodeFixed32(count % WORD) + rep[HEADER..] + body;
      ops := ops + more;
    }

    method Put(key: Bytes, value: Bytes)
      requires Valid()
      modifies this
      ensures Valid() && sequence == old(sequence) && ops == old(ops) + [PutOp(key, value)]
    {
      HeaderRoundTrip(sequence, |ops| % WORD, EncodeOps(ops));
      OneOp(PutOp(key, value));
      CountsAdd(|ops|, 1);
      Extend(CountOf(rep) + 1, EncodeOp(PutOp(key, value)), [PutOp(key, value)]);
    }

    method Delete(key: Bytes)
      requires Valid()
      modifies this
      ensures Valid() && sequence == old(sequence) && ops == old(ops) + [DeleteOp(key)]
    {
      HeaderRoundTrip(sequence, |ops| % WORD, EncodeOps(ops));
      OneOp(DeleteOp(key));
      CountsAdd(|ops|, 1);
      Extend(CountOf(rep) + 1, EncodeOp(DeleteOp(key)), [DeleteOp(key)]);
    }

    /** Append: how a group of batches becomes one. The sequence number of the source is dropped. */
    method Append(source: WriteBatch)
      requires Valid() && source.Valid()
      modifies this
      ensures Valid() && sequence == old(sequence) && ops == old(ops) + old(source.ops)
    {
      HeaderRoundTrip(sequence, |ops| % WORD, EncodeOps(ops));
      HeaderRoundTrip(source.sequence, |source.ops| % WORD, EncodeOps(source.ops));
      CountsAdd(|ops|, |source.ops|);
      Extend(CountOf(rep) + CountOf(source.rep), source.rep[HEADER..], source.ops);
    }

    /** Iterate. */
    method Iterate() returns (r: Iterated)
      ensures r == Iteration(rep)
    {
      if |rep| < HEADER {
        return Iterated([], Some(TooSmall));
      }
      var input, found := rep[HEADER..], [];
      while input != []
        invariant ParseOps(found, input) == ParseOps([], rep[HEADER..])
        decreases |input|
      {
        var op := ParseOp(input);
        if op.Bad? {
          return Iterated(found, Some(op.error));
        }
        found := found + [op.op];
        input := op.rest;
      }
      r := Iterated(found, if |found| != CountOf(rep) then Some(WrongCount) else None);
    }
  }

  lemma OneOp(op: BatchOp)
    ensures EncodeOps([op]) == EncodeOp(op)
  {
    assert [op][1..] == [];
  }

  lemma CountsAdd(a: nat, b: nat)
    ensures (a % WORD + b % WORD) % WORD == (a + b) % WORD
  {
    assert a + b == a % WORD + b % WORD + WORD * (a / WORD + b / WORD);
    ModPlus(a % WORD + b % WORD, a / WORD + b / WORD);
  }

  lemma ModPlus(x: nat, n: nat)
    ensures (x + WORD * n) % WORD == x % WORD
  {
  }
}
