/** Blocks of a table: prefix-compressed entries with restart points, the builder that writes them and the iterator
    that reads them (table/block_builder.cc, table/block.cc). */
module Blocks {
  import opened DbFormat
  import opened Coding

  datatype Pair = Pair(key: Bytes, value: Bytes)

  // ---- One entry ----

  function EntryHeader(shared: nat, p: Pair): Bytes
    requires shared <= |p.key|
  {
    EncodeVarint(shared) + (EncodeVarint(|p.key| - shared) + EncodeVarint(|p.value|))
  }

  function EncodeEntry(shared: nat, p: Pair): Bytes
    requires shared <= |p.key|
  {
    EntryHeader(shared, p) + (p.key[shared..] + p.value)
  }

  /** The three lengths of an entry, and the input from the key delta on. */
  datatype Decoded = Decoded(shared: nat, nonShared: nat, valueLength: nat, delta: Bytes)

  function DecodeLengths(input: Bytes): (r: Option<Decoded>)
  {
    var shared := GetVarint32(input);
    if shared.Failed? then None else
      var nonShared := GetVarint32(shared.rest);
      if nonShared.Failed? then None else
        var valueLength := GetVarint32(nonShared.rest);
        if valueLength.Failed? then None
        else Some(Decoded(shared.value, nonShared.value, valueLength.value, valueLength.rest))
  }

  /** DecodeEntry, with its fast path for lengths of one byte each. */
  function DecodeEntry(input: Bytes): (r: Option<Decoded>)
    ensures r.Some? ==> r.value.nonShared + r.value.valueLength <= |r.value.delta| < |input|
    ensures r.Some? ==> r.value.delta == input[|input| - |r.value.delta|..]
  {
    if |input| < 3 then None
    else
      var lengths :=
        if input[0] < 128 && input[1] < 128 && input[2] < 128 then Some(Decoded(input[0], input[1], input[2], input[3..]))
        else DecodeLengths(input);
      LengthsAreSuffix(input);
      if lengths.None? || |lengths.value.delta| < lengths.value.nonShared + lengths.value.valueLength then None else lengths
  }

  lemma {:induction false} VarintIsSuffix(input: Bytes, room: nat)
    ensures var r := GetVarint(input, room); r.Parsed? ==> r.rest == input[|input| - |r.rest|..]
    decreases room
  {
    if room > 0 && input != [] && input[0] >= 128 {
      VarintIsSuffix(input[1..], room - 1);
    }
  }

  ghost predicate IsSuffix(a: Bytes, b: Bytes) {
    |b| <= |a| && b == a[|a| - |b|..]
  }

  lemma SuffixOfSuffix(a: Bytes, b: Bytes, c: Bytes)
    requires IsSuffix(a, b) && IsSuffix(b, c)
    ensures IsSuffix(a, c)
  {
  }

  lemma TwoVarintsSuffix(input: Bytes, middle: Bytes)
    requires IsSuffix(input, middle)
    ensures var r := GetVarint32(middle); r.Parsed? ==> IsSuffix(input, r.rest)
  {
    VarintIsSuffix(middle, VARINT32_ROOM);
    var r := GetVarint32(middle);
    if r.Parsed? {
      SuffixOfSuffix(input, middle, r.rest);
    }
  }

  lemma LengthsAreSuffix(input: Bytes)
    ensures var r := DecodeLengths(input); r.Some? ==> |r.value.delta| < |input| && IsSuffix(input, r.value.delta)
  {
    TwoVarintsSuffix(input, input);
    var shared := GetVarint32(input);
    if shared.Parsed? {
      TwoVarintsSuffix(input, shared.rest);
      var nonShared := GetVarint32(shared.rest);
      if nonShared.Parsed? {
        TwoVarintsSuffix(input, nonShared.rest);
      }
    }
  }

  /** The fast path is an optimization only. */
  lemma FastPathAgrees(input: Bytes)
    requires |input| >= 3 && input[0] < 128 && input[1] < 128 && input[2] < 128
    ensures DecodeLengths(input) == Some(Decoded(input[0], input[1], input[2], input[3..]))
  {
    assert input[1..][0] == input[1] && input[1..][1..] == input[2..];
    assert input[2..][0] == input[2] && input[2..][1..] == input[3..];
    assert input[0] % WORD == input[0] && input[1] % WORD == input[1] && input[2] % WORD == input[2];
  }

  ghost predicate PairFits(p: Pair) {
    |p.key| < WORD && |p.value| < WORD
  }

  lemma HeaderThenRest(a: Bytes, b: Bytes, c: Bytes, rest: Bytes)
    ensures a + (b + c) + rest == a + (b + (c + rest))
  {
  }

  lemma LengthsRoundTrip(shared: nat, p: Pair, rest: Bytes)
    requires shared <= |p.key| && PairFits(p)
    ensures DecodeLengths(EntryHeader(shared, p) + rest) == Some(Decoded(shared, |p.key| - shared, |p.value|, rest))
    ensures |EntryHeader(shared, p)| >= 3
  {
    var c := EncodeVarint(|p.value|) + rest;
    var b := EncodeVarint(|p.key| - shared) + c;
    Varint32RoundTrip(|p.value|, rest);
    Varint32RoundTrip(|p.key| - shared, c);
    Varint32RoundTrip(shared, b);
    HeaderThenRest(EncodeVarint(shared), EncodeVarint(|p.key| - shared), EncodeVarint(|p.value|), rest);
  }

  /** An entry is decoded to the lengths and the bytes it was written with. */
  lemma EntryRoundTrip(shared: nat, p: Pair, rest: Bytes)
    requires shared <= |p.key| && PairFits(p)
    ensures DecodeEntry(EncodeEntry(shared, p) + rest)
         == Some(Decoded(shared, |p.key| - shared, |p.value|, p.key[shared..] + p.value + rest))
  {
    var input := EncodeEntry(shared, p) + rest;
    var delta := p.key[shared..] + p.value + rest;
    assert input == EntryHeader(shared, p) + delta;
    LengthsRoundTrip(shared, p, delta);
    if input[0] < 128 && input[1] < 128 && input[2] < 128 {
      FastPathAgrees(input);
    }
  }

  // ---- The layout of a block ----

  /** What a block holds: its entries, where each starts (and the last one ends), how much of its key each shares
      with the key before, and which entries are restart points. */
  datatype Layout = Layout(pairs: seq<Pair>, offsets: seq<nat>, shared: seq<nat>, restarts: seq<nat>)

  ghost predicate SharesPrefix(a: Bytes, b: Bytes, n: nat) {
    n <= |a| && n <= |b| && a[..n] == b[..n]
  }

  ghost predicate LongestShared(a: Bytes, b: Bytes, n: nat) {
    SharesPrefix(a, b, n) && (n < |a| && n < |b| ==> a[n] != b[n])
  }

  ghost predicate EntryAt(data: Bytes, l: Layout, i: nat)
    requires i < |l.pairs| == |l.shared| && |l.offsets| == |l.pairs| + 1
  {
    && l.shared[i] <= |l.pairs[i].key| && PairFits(l.pairs[i])
    && l.offsets[i] < l.offsets[i + 1] <= |data|
    && data[l.offsets[i]..l.offsets[i + 1]] == EncodeEntry(l.shared[i], l.pairs[i])
    && (i == 0 ==> l.shared[i] == 0)
    && (i > 0 ==> SharesPrefix(l.pairs[i - 1].key, l.pairs[i].key, l.shared[i]))
  }

  ghost predicate LayoutOk(data: Bytes, l: Layout) {
    && |l.shared| == |l.pairs| && |l.offsets| == |l.pairs| + 1 && l.offsets[0] == 0
    && forall i {:trigger EntryAt(data, l, i)} :: 0 <= i < |l.pairs| ==> EntryAt(data, l, i)
  }

  /** The first entry is a restart point; restart points follow one another; each holds its whole key. */
  ghost predicate RestartsOk(l: Layout) {
    && |l.restarts| >= 1 && l.restarts[0] == 0
    && |l.shared| == |l.pairs| && |l.offsets| == |l.pairs| + 1
    && (forall j :: 0 <= j < |l.restarts| ==> l.restarts[j] <= |l.pairs|)
    && (forall j :: 0 <= j < |l.restarts| && l.restarts[j] < |l.pairs| ==> l.shared[l.restarts[j]] == 0)
    && (forall j :: 0 < j < |l.restarts| ==> l.restarts[j] < |l.pairs|)
    && (forall i, j :: 0 <= i < j < |l.restarts| ==> l.restarts[i] < l.restarts[j])
  }

  function RestartOffsets(l: Layout): (r: seq<nat>)
    requires |l.offsets| == |l.pairs| + 1 && forall j :: 0 <= j < |l.restarts| ==> l.restarts[j] <= |l.pairs|
    ensures |r| == |l.restarts| && forall j :: 0 <= j < |r| ==> r[j] == l.offsets[l.restarts[j]]
  {
    seq(|l.restarts|, j requires 0 <= j < |l.restarts| => l.offsets[l.restarts[j]])
  }

  lemma {:induction false} OffsetsRise(data: Bytes, l: Layout, i: nat, j: nat)
    requires LayoutOk(data, l) && i <= j <= |l.pairs|
    ensures l.offsets[i] + (j - i) <= l.offsets[j]
    ensures j > 0 ==> l.offsets[j] <= |data|
    decreases j
  {
    if j > 0 {
      assert EntryAt(data, l, j - 1);
      if i < j {
        OffsetsRise(data, l, i, j - 1);
      }
    }
  }

  /** A new entry after the others. */
  function Extended(l: Layout, p: Pair, shared: nat, restart: bool): Layout
    requires shared <= |p.key| && |l.offsets| > 0
  {
    Layout(l.pairs + [p], l.offsets + [l.offsets[|l.offsets| - 1] + |EncodeEntry(shared, p)|], l.shared + [shared],
           if restart then l.restarts + [|l.pairs|] else l.restarts)
  }

  lemma ExtendedOk(data: Bytes, l: Layout, p: Pair, shared: nat, restart: bool)
    requires LayoutOk(data, l) && l.offsets[|l.pairs|] == |data| && shared <= |p.key| && PairFits(p)
    requires |l.pairs| == 0 ==> shared == 0
    requires |l.pairs| > 0 ==> SharesPrefix(l.pairs[|l.pairs| - 1].key, p.key, shared)
    ensures var l' := Extended(l, p, shared, restart);
      LayoutOk(data + EncodeEntry(shared, p), l') && l'.offsets[|l'.pairs|] == |data + EncodeEntry(shared, p)|
  {
    var more, l' := data + EncodeEntry(shared, p), Extended(l, p, shared, restart);
    LengthsRoundTrip(shared, p, []);
    forall i: nat | i < |l'.pairs| ensures EntryAt(more, l', i) {
      if i < |l.pairs| {
        assert EntryAt(data, l, i);
        assert more[l.offsets[i]..l.offsets[i + 1]] == data[l.offsets[i]..l.offsets[i + 1]];
      } else {
        assert more[|data|..|more|] == EncodeEntry(shared, p);
      }
    }
  }

  lemma ExtendedRestarts(l: Layout, p: Pair, shared: nat, restart: bool)
    requires RestartsOk(l) && shared <= |p.key|
    requires (restart ==> |l.pairs| > 0 && shared == 0) && (|l.pairs| == 0 ==> shared == 0)
    requires forall j :: 0 <= j < |l.restarts| && |l.pairs| > 0 ==> l.restarts[j] < |l.pairs|
    ensures RestartsOk(Extended(l, p, shared, restart))
  {
    var l' := Extended(l, p, shared, restart);
    if restart {
      forall j | 0 <= j < |l'.restarts| && l'.restarts[j] < |l'.pairs| ensures l'.shared[l'.restarts[j]] == 0 {
        if j < |l.restarts| {
          assert l'.restarts[j] == l.restarts[j];
        }
      }
    }
  }

  lemma ExtendedOffsets(l: Layout, p: Pair, shared: nat, restart: bool)
    requires RestartsOk(l) && shared <= |p.key| && RestartsOk(Extended(l, p, shared, restart))
    ensures RestartOffsets(Extended(l, p, shared, restart))
         == if restart then RestartOffsets(l) + [l.offsets[|l.pairs|]] else RestartOffsets(l)
  {
    var l' := Extended(l, p, shared, restart);
    assert forall i :: 0 <= i <= |l.pairs| ==> l'.offsets[i] == l.offsets[i];
  }

  /** PutFixed32 of each number, truncated to its width. */
  function EncodeNumbers(numbers: seq<nat>): (r: Bytes)
    ensures |r| == 4 * |numbers|
  {
    if numbers == [] then []
    else EncodeNumbers(numbers[..|numbers| - 1]) + EncodeFixed32(numbers[|numbers| - 1] % WORD)
  }

  lemma EncodeNumbersMore(numbers: seq<nat>, i: nat)
    requires i < |numbers|
    ensures EncodeNumbers(numbers[..i + 1]) == EncodeNumbers(numbers[..i]) + EncodeFixed32(numbers[i] % WORD)
  {
    assert numbers[..i + 1][..i] == numbers[..i];
  }

  lemma {:induction false} NumberAt(numbers: seq<nat>, i: nat, rest: Bytes)
    requires i < |numbers|
    ensures DecodeFixed32((EncodeNumbers(numbers) + rest)[4 * i..]) == numbers[i] % WORD
    decreases |numbers|
  {
    var n := |numbers| - 1;
    var init, last := EncodeNumbers(numbers[..n]), EncodeFixed32(numbers[n] % WORD);
    if i < n {
      assert EncodeNumbers(numbers) + rest == init + (last + rest);
      NumberAt(numbers[..n], i, last + rest);
    } else {
      assert (EncodeNumbers(numbers) + rest)[4 * i..] == last + rest;
      Fixed32RoundTrip(numbers[n] % WORD, rest);
    }
  }

  /** The bytes of a block: its entries, the offsets of its restart points, and how many there are. */
  function Finished(buffer: Bytes, restarts: seq<nat>): Bytes {
    buffer + (EncodeNumbers(restarts) + EncodeFixed32(|restarts| % WORD))
  }

  // ---- Opening a block ----

  datatype Opened = Opened(restartOffset: nat, numRestarts: nat)

  /** The constructor of Block: where the restart array is; None marks a malformed block. */
  function Open(data: Bytes): (r: Option<Opened>)
    ensures r.Some? ==> r.value.restartOffset + 4 * r.value.numRestarts + 4 == |data|
  {
    if |data| < 4 then None
    else
      var numRestarts := DecodeFixed32(data[|data| - 4..]);
      if numRestarts > (|data| - 4) / 4 then None else Some(Opened(|data| - (1 + numRestarts) * 4, numRestarts))
  }

  function RestartPoint(data: Bytes, restartOffset: nat, index: nat): nat
    requires restartOffset + 4 * index + 4 <= |data|
  {
    DecodeFixed32(data[restartOffset + 4 * index..])
  }

  datatype BlockPart = Entries | Points

  ghost predicate SizesOk(data: Bytes, o: Opened, l: Layout) {
    && o.restartOffset + 4 * o.numRestarts + 4 <= |data|
    && |l.offsets| == |l.pairs| + 1 && |l.shared| == |l.pairs| && o.numRestarts == |l.restarts|
    && forall j :: 0 <= j < |l.restarts| ==> l.restarts[j] <= |l.pairs|
  }

  ghost predicate PartOk(data: Bytes, o: Opened, l: Layout, part: BlockPart)
    requires SizesOk(data, o, l)
  {
    match part
    case Entries =>
      LayoutOk(data[..o.restartOffset], l) && l.offsets[|l.pairs|] == o.restartOffset
    case Points =>
      && RestartsOk(l)
      && forall j {:trigger l.restarts[j]} :: 0 <= j < o.numRestarts ==>
           RestartPoint(data, o.restartOffset, j) == l.offsets[l.restarts[j]]
  }

  /** The block has this layout. A proof names the part that it needs. */
  ghost predicate BlockOk(data: Bytes, o: Opened, l: Layout) {
    SizesOk(data, o, l) && forall part {:trigger PartOk(data, o, l, part)} :: PartOk(data, o, l, part)
  }

  lemma FinishedPoints(buffer: Bytes, restarts: seq<nat>, j: nat)
    requires j < |restarts|
    ensures RestartPoint(Finished(buffer, restarts), |buffer|, j) == restarts[j] % WORD
  {
    var tail := EncodeFixed32(|restarts| % WORD);
    assert Finished(buffer, restarts)[|buffer| + 4 * j..] == (EncodeNumbers(restarts) + tail)[4 * j..];
    NumberAt(restarts, j, tail);
  }

  lemma LastPart(a: Bytes, b: Bytes, c: Bytes)
    ensures (a + (b + c))[|a| + |b|..] == c && (a + (b + c))[..|a|] == a
  {
  }

  lemma FinishedNumber(buffer: Bytes, restarts: seq<nat>)
    requires |restarts| < WORD
    ensures Open(Finished(buffer, restarts)) == Some(Opened(|buffer|, |restarts|))
    ensures Finished(buffer, restarts)[..|buffer|] == buffer
  {
    var tail := EncodeFixed32(|restarts| % WORD);
    LastPart(buffer, EncodeNumbers(restarts), tail);
    assert tail == tail + [];
    Fixed32RoundTrip(|restarts|, []);
    assert |restarts| % WORD == |restarts|;
  }

  /** A finished block opens with the layout that the builder recorded. */
  lemma FinishedOpens(buffer: Bytes, l: Layout, restarts: seq<nat>)
    requires LayoutOk(buffer, l) && l.offsets[|l.pairs|] == |buffer| && RestartsOk(l) && restarts == RestartOffsets(l)
    requires |buffer| < WORD && |restarts| < WORD
    ensures Open(Finished(buffer, restarts)) == Some(Opened(|buffer|, |restarts|))
    ensures BlockOk(Finished(buffer, restarts), Opened(|buffer|, |restarts|), l)
  {
    FinishedNumber(buffer, restarts);
    FinishedRestarts(buffer, l, restarts);
    var block, o := Finished(buffer, restarts), Opened(|buffer|, |restarts|);
    forall part ensures PartOk(block, o, l, part) {
    }
  }

  lemma FinishedRestarts(buffer: Bytes, l: Layout, restarts: seq<nat>)
    requires LayoutOk(buffer, l) && l.offsets[|l.pairs|] == |buffer| && RestartsOk(l) && restarts == RestartOffsets(l)
    requires |buffer| < WORD && |restarts| < WORD
    requires SizesOk(Finished(buffer, restarts), Opened(|buffer|, |restarts|), l)
    ensures PartOk(Finished(buffer, restarts), Opened(|buffer|, |restarts|), l, Points)
  {
    forall j: nat | j < |restarts|
      ensures RestartPoint(Finished(buffer, restarts), |buffer|, j) == l.offsets[l.restarts[j]]
    {
      FinishedPoints(buffer, restarts, j);
      OffsetsRise(buffer, l, l.restarts[j], |l.pairs|);
    }
  }

  // ---- The builder ----

  class BlockBuilder {
    const interval: nat
    var buffer: Bytes
    var restarts: seq<nat>
    var counter: nat
    var lastKey: Bytes
    ghost var layout: Layout

    ghost predicate Valid()
      reads this
    {
      InStep(interval, buffer, restarts, counter, lastKey, layout)
    }

    /** All fields agree with the layout; the key keeps this out of sight where it is only passed on. */
    static ghost predicate InStep(interval: nat, buffer: Bytes, restarts: seq<nat>, counter: nat, lastKey: Bytes, l: Layout) {
      forall key: nat {:trigger InStepAt(interval, buffer, restarts, counter, lastKey, l, key)} ::
        InStepAt(interval, buffer, restarts, counter, lastKey, l, key)
    }

    static ghost predicate InStepAt(interval: nat, buffer: Bytes, restarts: seq<nat>, counter: nat, lastKey: Bytes, l: Layout, key: nat) {
      Matches(buffer, restarts, l) && CountsOk(interval, counter, lastKey, l)
    }

    /** The bytes and the restart points are those of the layout; the key keeps this out of sight where it is only
        passed on. */
    static ghost predicate Matches(buffer: Bytes, restarts: seq<nat>, l: Layout) {
      forall key: nat {:trigger MatchesAt(buffer, restarts, l, key)} :: MatchesAt(buffer, restarts, l, key)
    }

    static ghost predicate MatchesAt(buffer: Bytes, restarts: seq<nat>, l: Layout, key: nat) {
      && LayoutOk(buffer, l) && l.offsets[|l.pairs|] == |buffer|
      && RestartsOk(l) && restarts == RestartOffsets(l)
    }

    static ghost predicate CountsOk(interval: nat, counter: nat, lastKey: Bytes, l: Layout) {
      && interval >= 1 && |l.restarts| > 0 && |l.offsets| > 0
      && lastKey == (if l.pairs == [] then [] else l.pairs[|l.pairs| - 1].key)
      && counter <= interval && |l.pairs| == l.restarts[|l.restarts| - 1] + counter
      && (l.pairs != [] ==> counter > 0)
    }

    static lemma AddMatches(buffer: Bytes, restarts: seq<nat>, l: Layout, p: Pair, shared: nat, restart: bool)
      requires Matches(buffer, restarts, l) && PairFits(p) && shared <= |p.key| && |l.restarts| > 0 && |l.offsets| > 0
      requires (restart ==> |l.pairs| > 0 && shared == 0) && (|l.pairs| == 0 ==> shared == 0)
      requires |l.pairs| > 0 ==> SharesPrefix(l.pairs[|l.pairs| - 1].key, p.key, shared)
      requires |l.pairs| > 0 ==> l.restarts[|l.restarts| - 1] < |l.pairs|
      ensures Matches(buffer + EncodeEntry(shared, p), if restart then restarts + [|buffer|] else restarts,
                      Extended(l, p, shared, restart))
    {
      assert MatchesAt(buffer, restarts, l, 0);
      ExtendedOk(buffer, l, p, shared, restart);
      ExtendedRestarts(l, p, shared, restart);
      ExtendedOffsets(l, p, shared, restart);
    }

    static lemma AddCounts(interval: nat, counter: nat, lastKey: Bytes, l: Layout, p: Pair, shared: nat, restart: bool)
      requires CountsOk(interval, counter, lastKey, l) && SharesPrefix(lastKey, p.key, shared)
      requires restart <==> counter >= interval
      ensures CountsOk(interval, if restart then 1 else counter + 1, lastKey[..shared] + p.key[shared..], Extended(l, p, shared, restart))
    {
      assert p.key == p.key[..shared] + p.key[shared..];
    }

    /** What Add needs to know, and what it keeps. */
    static lemma AddKeeps(interval: nat, buffer: Bytes, restarts: seq<nat>, counter: nat, lastKey: Bytes, l: Layout, p: Pair,
                          shared: nat, restart: bool)
      requires InStep(interval, buffer, restarts, counter, lastKey, l) && PairFits(p) && SharesPrefix(lastKey, p.key, shared)
      requires (restart <==> counter >= interval) && (restart ==> shared == 0)
      ensures |l.offsets| > 0 && (restart <==> counter == interval)
      ensures InStep(interval, buffer + EncodeEntry(shared, p), if restart then restarts + [|buffer|] else restarts,
                     if restart then 1 else counter + 1, lastKey[..shared] + p.key[shared..], Extended(l, p, shared, restart))
    {
      assert InStepAt(interval, buffer, restarts, counter, lastKey, l, 0);
      AddMatches(buffer, restarts, l, p, shared, restart);
      AddCounts(interval, counter, lastKey, l, p, shared, restart);
    }

    constructor (interval: nat)
      requires interval >= 1
      ensures Valid() && this.interval == interval && layout.pairs == []
    {
      this.interval := interval;
      buffer, restarts, counter, lastKey := [], [0], 0, [];
      layout := Layout([], [0], [], [0]);
    }

    /** How many leading bytes two keys have in common. */
    static method CommonPrefix(a: Bytes, b: Bytes) returns (shared: nat)
      ensures LongestShared(a, b, shared)
    {
      shared := 0;
      while shared < |a| && shared < |b| && a[shared] == b[shared]
        invariant SharesPrefix(a, b, shared)
      {
        assert a[..shared + 1] == a[..shared] + [a[shared]] && b[..shared + 1] == b[..shared] + [b[shared]];
        shared := shared + 1;
      }
    }

    method Add(key: Bytes, value: Bytes)
      requires Valid() && PairFits(Pair(key, value))
      modifies this
      ensures Valid() && layout.pairs == old(layout).pairs + [Pair(key, value)]
      ensures layout.restarts == if old(counter) == interval then old(layout).restarts + [|old(layout).pairs|] else old(layout).restarts
      ensures var last := if old(counter) == interval then [] else old(lastKey);
        exists shared :: LongestShared(last, key, shared) && layout.shared == old(layout).shared + [shared]
    {
      var p := Pair(key, value);
      var shared := 0;
      var restart := counter >= interval;
      if !restart {
        shared := CommonPrefix(lastKey, key);
      }
      AddKeeps(interval, buffer, restarts, counter, lastKey, layout, p, shared, restart);
      if restart {
        restarts := restarts + [|buffer|];
        counter := 0;
      }
      Append(p, shared, restart);
    }

    /** The bytes of an entry, and what has to be remembered of it. */
    method Append(p: Pair, shared: nat, ghost restart: bool)
      requires shared <= |p.key| && shared <= |lastKey| && |layout.offsets| > 0
      modifies this`buffer, this`lastKey, this`counter, this`layout
      ensures buffer == old(buffer) + EncodeEntry(shared, p) && lastKey == old(lastKey)[..shared] + p.key[shared..]
      ensures counter == old(counter) + 1 && layout == Extended(old(layout), p, shared, restart)
    {
      buffer := buffer + (EntryHeader(shared, p) + (p.key[shared..] + p.value));
      lastKey := lastKey[..shared] + p.key[shared..];
      counter := counter + 1;
      layout := Extended(layout, p, shared, restart);
    }

    /** Finish: the entries, the offsets of the restart points, and their number. */
    method Finish() returns (block: Bytes)
      requires Valid()
      ensures block == Finished(buffer, restarts)
      ensures |buffer| < WORD && |restarts| < WORD ==>
                && Open(block) == Some(Opened(|buffer|, |restarts|))
                && BlockOk(block, Opened(|buffer|, |restarts|), layout)
    {
      var numbers := [];
      for i := 0 to |restarts|
        invariant numbers == EncodeNumbers(restarts[..i])
      {
        EncodeNumbersMore(restarts, i);
        numbers := numbers + EncodeFixed32(restarts[i] % WORD);
      }
      assert restarts[..|restarts|] == restarts;
      block := buffer + (numbers + EncodeFixed32(|restarts| % WORD));
      if |buffer| < WORD && |restarts| < WORD {
        assert InStepAt(interval, buffer, restarts, counter, lastKey, layout, 0) && MatchesAt(buffer, restarts, layout, 0);
        FinishedOpens(buffer, layout, restarts);
      }
    }
  }

  // ---- The iterator ----

  /** If a key is before the target, so are all keys before it: what an ordered block and a comparator guarantee. */
  ghost predicate Monotone(pairs: seq<Pair>, less: (Bytes, Bytes) -> bool, target: Bytes) {
    forall i, j :: 0 <= i < j < |pairs| && less(pairs[j].key, target) ==> less(pairs[i].key, target)
  }

  /** The entry that starts at `offset`, if the bytes up to `limit` hold one. */
  function EntryFrom(data: Bytes, limit: nat, offset: nat): (r: Option<Decoded>)
    requires limit <= |data|
    ensures r.Some? ==> offset + |r.value.delta| < limit && r.value.nonShared + r.value.valueLength <= |r.value.delta|
    ensures r.Some? ==> r.value.delta == data[limit - |r.value.delta|..limit]
  {
    if offset > limit then None else DecodeEntry(data[offset..limit])
  }

  lemma KeyIsJoined(key: Bytes, full: Bytes, shared: nat)
    requires SharesPrefix(key, full, shared)
    ensures key[..shared] + full[shared..] == full
  {
    assert full == full[..shared] + full[shared..];
  }

  lemma DeltaParts(a: Bytes, b: Bytes, rest: Bytes)
    ensures (a + b + rest)[..|a|] == a && (a + b + rest)[|a|..|a| + |b|] == b
  {
  }

  lemma SliceOfSlice(data: Bytes, from: nat, to: nat, i: nat, j: nat)
    requires from <= to <= |data| && i <= j <= to - from
    ensures data[from..to][i..j] == data[from + i..from + j]
  {
    assert forall k :: 0 <= k < j - i ==> data[from..to][i..j][k] == data[from + i..from + j][k];
  }

  /** What decoding finds at an encoded entry: its lengths, its key delta and, after that, its value. */
  lemma DecodeEncoded(data: Bytes, limit: nat, offset: nat, shared: nat, p: Pair, rest: Bytes)
    requires offset <= limit <= |data| && shared <= |p.key| && PairFits(p)
    requires data[offset..limit] == EncodeEntry(shared, p) + rest
    ensures var r := EntryFrom(data, limit, offset);
      && r.Some? && r.value.shared == shared && r.value.nonShared == |p.key| - shared && r.value.valueLength == |p.value|
      && r.value.delta[..|p.key| - shared] == p.key[shared..]
      && var start := limit - |r.value.delta| + r.value.nonShared;
         start + |p.value| + |rest| == limit && data[start..start + |p.value|] == p.value
  {
    EntryRoundTrip(shared, p, rest);
    DeltaParts(p.key[shared..], p.value, rest);
    var d := EntryFrom(data, limit, offset).value.delta;
    SliceOfSlice(data, limit - |d|, limit, |p.key| - shared, |p.key| - shared + |p.value|);
  }

  lemma EntryBytes(data: Bytes, o: Opened, l: Layout, i: nat)
    requires BlockOk(data, o, l) && i < |l.pairs|
    ensures l.offsets[i] < l.offsets[i + 1] <= o.restartOffset
    ensures l.shared[i] <= |l.pairs[i].key| && PairFits(l.pairs[i])
    ensures data[l.offsets[i]..o.restartOffset]
         == EncodeEntry(l.shared[i], l.pairs[i]) + data[l.offsets[i + 1]..o.restartOffset]
  {
    assert PartOk(data, o, l, Entries);
    OffsetsRise(data[..o.restartOffset], l, i + 1, |l.pairs|);
    assert EntryAt(data[..o.restartOffset], l, i);
    SplitSlice(data, l.offsets[i], l.offsets[i + 1], o.restartOffset);
  }

  lemma SplitSlice(data: Bytes, from: nat, middle: nat, to: nat)
    requires from <= middle <= to <= |data|
    ensures data[from..to] == data[..to][from..middle] + data[middle..to]
  {
  }

  /** Entry i is what these hold. */
  ghost predicate Shows(data: Bytes, l: Layout, i: nat, key: Bytes, valueStart: nat, valueEnd: nat)
    requires i < |l.pairs| && |l.offsets| == |l.pairs| + 1
  {
    && key == l.pairs[i].key
    && valueStart <= valueEnd == l.offsets[i + 1] <= |data|
    && data[valueStart..valueEnd] == l.pairs[i].value
  }

  /** Parsing where entry i starts, with a key that holds what it shares, finds entry i. */
  lemma ParseReady(data: Bytes, o: Opened, l: Layout, i: nat, key: Bytes)
    requires BlockOk(data, o, l) && i <= |l.pairs|
    requires i < |l.pairs| ==> SharesPrefix(key, l.pairs[i].key, l.shared[i])
    ensures l.offsets[i] <= o.restartOffset
    ensures l.offsets[i] == o.restartOffset <==> i == |l.pairs|
    ensures i < |l.pairs| ==> var r := EntryFrom(data, o.restartOffset, l.offsets[i]);
      && r.Some? && r.value.shared <= |key|
      && var start := o.restartOffset - |r.value.delta| + r.value.nonShared;
         Shows(data, l, i, key[..r.value.shared] + r.value.delta[..r.value.nonShared], start, start + r.value.valueLength)
  {
    assert PartOk(data, o, l, Entries);
    OffsetsRise(data[..o.restartOffset], l, i, |l.pairs|);
    if i < |l.pairs| {
      EntryBytes(data, o, l, i);
      DecodeEncoded(data, o.restartOffset, l.offsets[i], l.shared[i], l.pairs[i], data[l.offsets[i + 1]..o.restartOffset]);
      KeyIsJoined(key, l.pairs[i].key, l.shared[i]);
    }
  }

  class BlockIter {
    const data: Bytes
    const restarts: nat
    const numRestarts: nat
    const less: (Bytes, Bytes) -> bool
    ghost const layout: Layout
    var current: nat
    var restartIndex: nat
    var key: Bytes
    /** The value is data[valueStart..valueEnd]; the next entry starts at valueEnd. */
    var valueStart: nat
    var valueEnd: nat
    var corrupted: bool
    /** The entry that the iterator shows; the number of entries when it is not valid. */
    ghost var at: nat

    /** What opening a block guarantees, malformed entries or not. */
    predicate InBounds() {
      numRestarts > 0 && restarts + 4 * numRestarts + 4 <= |data|
    }

    ghost predicate WellFormed() {
      InBounds() && BlockOk(data, Opened(restarts, numRestarts), layout)
    }

    lemma Unlock()
      requires WellFormed()
      ensures PartOk(data, Opened(restarts, numRestarts), layout, Entries)
      ensures PartOk(data, Opened(restarts, numRestarts), layout, Points)
    {
    }

    predicate AtEntry()
      reads this
    {
      current < restarts
    }

    /** Showing entry `at` of a well-formed block, or past the end. */
    ghost predicate Settled()
      reads this
    {
      && WellFormed() && at <= |layout.pairs| && current == layout.offsets[at] && (AtEntry() <==> at < |layout.pairs|)
      && (AtEntry() ==> restartIndex < numRestarts && Shows(data, layout, at, key, valueStart, valueEnd))
    }

    /** ParseNextKey will produce entry i: the value ends where it starts, and the key holds what it shares. */
    ghost predicate Ready(i: nat)
      reads this
    {
      && WellFormed() && i <= |layout.pairs| && valueEnd == layout.offsets[i] && restartIndex < numRestarts
      && (i < |layout.pairs| ==> SharesPrefix(key, layout.pairs[i].key, layout.shared[i]))
    }

    constructor (less: (Bytes, Bytes) -> bool, data: Bytes, o: Opened, ghost l: Layout)
      requires o.numRestarts > 0 && o.restartOffset + 4 * o.numRestarts + 4 <= |data|
      ensures InBounds() && !AtEntry() && !corrupted && this.less == less && this.data == data && layout == l
      ensures BlockOk(data, o, l) ==> Settled()
    {
      this.less, this.data, this.restarts, this.numRestarts, this.layout := less, data, o.restartOffset, o.numRestarts, l;
      current, restartIndex, key, valueStart, valueEnd := o.restartOffset, o.numRestarts, [], 0, 0;
      corrupted := false;
      at := |l.pairs|;
      assert BlockOk(data, o, l) ==> PartOk(data, o, l, Entries);
    }

    function GetRestartPoint(index: nat): (offset: nat)
      requires InBounds() && index < numRestarts
      ensures WellFormed() ==> layout.restarts[index] <= |layout.pairs| && offset == layout.offsets[layout.restarts[index]]
    {
      assert WellFormed() ==> PartOk(data, Opened(restarts, numRestarts), layout, Points);
      assert WellFormed() ==> layout.restarts[index] <= |layout.pairs|;
      RestartPoint(data, restarts, index)
    }

    method SeekToRestartPoint(index: nat)
      requires InBounds() && index < numRestarts
      modifies this
      ensures restartIndex == index && corrupted == old(corrupted)
      ensures WellFormed() ==> Ready(layout.restarts[index])
    {
      key := [];
      restartIndex := index;
      var offset := GetRestartPoint(index);
      valueStart, valueEnd := offset, offset;
      if WellFormed() {
        Unlock();
        var i := layout.restarts[index];
        assert i < |layout.pairs| ==> layout.shared[i] == 0 && EntryAt(data[..restarts], layout, i);
      }
    }

    method CorruptionError()
      modifies this
      ensures corrupted && current == restarts && restartIndex == numRestarts
    {
      current, restartIndex := restarts, numRestarts;
      corrupted := true;
      key := [];
      valueStart, valueEnd := 0, 0;
    }

    /** How ParseNextKey keeps restartIndex at the restart region of the entry. */
    method AdvanceRestartIndex()
      requires InBounds() && restartIndex < numRestarts
      modifies this`restartIndex
      ensures old(restartIndex) <= restartIndex < numRestarts
      ensures restartIndex + 1 < numRestarts ==> GetRestartPoint(restartIndex + 1) >= current
    {
      while restartIndex + 1 < numRestarts && GetRestartPoint(restartIndex + 1) < current
        invariant old(restartIndex) <= restartIndex < numRestarts
      {
        restartIndex := restartIndex + 1;
      }
    }

    /** The key and value of a decoded entry. */
    method TakeEntry(d: Decoded, ghost i: nat)
      requires |key| >= d.shared && d.nonShared + d.valueLength <= |d.delta| <= restarts
      modifies this`key, this`valueStart, this`valueEnd
      ensures valueEnd == restarts - |d.delta| + d.nonShared + d.valueLength
      ensures var start := restarts - |d.delta| + d.nonShared;
        (i < |layout.pairs| && |layout.offsets| == |layout.pairs| + 1
          && Shows(data, layout, i, old(key)[..d.shared] + d.delta[..d.nonShared], start, start + d.valueLength)) ==>
            Shows(data, layout, i, key, valueStart, valueEnd)
    {
      key := key[..d.shared] + d.delta[..d.nonShared];
      valueStart := restarts - |d.delta| + d.nonShared;
      valueEnd := valueStart + d.valueLength;
    }

    /** Decoding where the value ends. */
    method DecodeHere(ghost i: nat) returns (decoded: Option<Decoded>)
      requires InBounds() && valueEnd < restarts
      ensures decoded.Some? ==> valueEnd + |decoded.value.delta| < restarts
      ensures decoded.Some? ==> decoded.value.nonShared + decoded.value.valueLength <= |decoded.value.delta|
      ensures Ready(i) ==> i < |layout.pairs| && decoded.Some? && decoded.value.shared <= |key|
      ensures Ready(i) ==> var d := decoded.value;
        var start := restarts - |d.delta| + d.nonShared;
        Shows(data, layout, i, key[..d.shared] + d.delta[..d.nonShared], start, start + d.valueLength)
    {
      if Ready(i) {
        ParseReady(data, Opened(restarts, numRestarts), layout, i, key);
      }
      decoded := EntryFrom(data, restarts, valueEnd);
    }

    lemma ReadyAtEnd(i: nat)
      requires Ready(i) && valueEnd >= restarts
      ensures i == |layout.pairs| && layout.offsets[i] == restarts
    {
      ParseReady(data, Opened(restarts, numRestarts), layout, i, key);
    }

    /** ParseNextKey. */
    method ParseNextKey(ghost i: nat) returns (ok: bool)
      requires InBounds() && restartIndex < numRestarts
      modifies this
      ensures ok <==> AtEntry()
      ensures ok ==> restartIndex < numRestarts && old(valueEnd) < valueEnd <= restarts
      ensures !ok ==> old(valueEnd) >= restarts || corrupted
      ensures old(Ready(i)) ==> Settled() && at == i && corrupted == old(corrupted)
    {
      at := i;
      current := valueEnd;
      if current >= restarts {
        if Ready(i) {
          ReadyAtEnd(i);
        }
        current, restartIndex := restarts, numRestarts;
        return false;
      }
      var decoded := DecodeHere(i);
      if decoded.None? || |key| < decoded.value.shared {
        CorruptionError();
        return false;
      }
      TakeEntry(decoded.value, i);
      AdvanceRestartIndex();
      return true;
    }

    lemma ReadyForNext()
      requires Settled() && AtEntry()
      ensures Ready(at + 1)
    {
      Unlock();
      if at + 1 < |layout.pairs| {
        assert EntryAt(data[..restarts], layout, at + 1);
      }
    }

    method Next()
      requires InBounds() && AtEntry() && restartIndex < numRestarts
      modifies this
      ensures old(Settled()) ==> Settled() && at == old(at) + 1 && corrupted == old(corrupted)
    {
      if Settled() {
        ReadyForNext();
      }
      var _ := ParseNextKey(at + 1);
    }

    method SeekToFirst()
      requires InBounds()
      modifies this
      ensures WellFormed() ==> Settled() && at == 0 && corrupted == old(corrupted)
    {
      if WellFormed() {
        Unlock();
      }
      SeekToRestartPoint(0);
      var _ := ParseNextKey(0);
    }

    /** The block holds an entry whose offset is below: a restart point before an entry is an earlier entry. */
    lemma PointIsEarlier(index: nat, i: nat)
      requires WellFormed() && index < numRestarts && i <= |layout.pairs|
      requires GetRestartPoint(index) < layout.offsets[i]
      ensures layout.restarts[index] < i
    {
      Unlock();
      var r := layout.restarts[index];
      if r >= i {
        OffsetsRise(data[..restarts], layout, i, r);
      }
    }

    /** Of the entries up to i, exactly entry i reaches offset i + 1. */
    lemma ReachesNext(i: nat, j: nat)
      requires WellFormed() && i <= |layout.pairs| && j <= |layout.pairs|
      ensures i < j <==> layout.offsets[i] < layout.offsets[j]
    {
      Unlock();
      if i < j {
        OffsetsRise(data[..restarts], layout, i, j);
      } else {
        OffsetsRise(data[..restarts], layout, j, i);
      }
    }

    /** Entry `from` can be parsed, and `end` is where entry `to` starts. */
    ghost predicate CanScan(from: nat, to: nat, end: nat)
      reads this
    {
      Ready(from) && from < to <= |layout.pairs| && end == layout.offsets[to]
    }

    /** The scanning loop of Prev and SeekToLast: parse until the entry that ends at `end`. */
    method ScanTo(end: nat, ghost from: nat, ghost to: nat)
      requires InBounds() && restartIndex < numRestarts && end <= restarts
      modifies this
      ensures old(CanScan(from, to, end)) ==> Settled() && at == to - 1 && corrupted == old(corrupted)
      ensures old(Ready(from)) && from == |layout.pairs| ==> Settled() && at == from && corrupted == old(corrupted)
    {
      ghost var i: nat := from;
      ghost var can := CanScan(from, to, end);
      if can {
        ReachesNext(i + 1, to);
      }
      var ok := ParseNextKey(i);
      while ok && valueEnd < end
        invariant ok <==> AtEntry()
        invariant ok ==> restartIndex < numRestarts
        invariant can ==> Settled() && at == i < to <= |layout.pairs| && corrupted == old(corrupted)
        invariant old(Ready(from)) && from == |layout.pairs| ==> Settled() && at == from && corrupted == old(corrupted)
        decreases ok, restarts - valueEnd
      {
        if Settled() {
          ReadyForNext();
        }
        if can {
          ReachesNext(i + 1, to);
        }
        i := i + 1;
        ok := ParseNextKey(i);
      }
      if can {
        ReachesNext(i + 1, to);
      }
    }

    /** Prev: back to a restart point before the entry, then forward to the entry that ends where it starts. */
    method Prev()
      requires InBounds() && AtEntry() && restartIndex < numRestarts
      modifies this
      ensures old(Settled()) && old(at) > 0 ==> Settled() && at == old(at) - 1 && corrupted == old(corrupted)
      ensures old(Settled()) && old(at) == 0 ==> Settled() && !AtEntry() && corrupted == old(corrupted)
    {
      var original := current;
      while GetRestartPoint(restartIndex) >= original
        invariant restartIndex < numRestarts && AtEntry() && corrupted == old(corrupted)
        invariant at == old(at) && current == original
        invariant old(Settled()) ==> Settled()
        decreases restartIndex
      {
        if restartIndex == 0 {
          if Settled() {
            Unlock();
            ReachesNext(0, at);
            at := |layout.pairs|;
          }
          current, restartIndex := restarts, numRestarts;
          return;
        }
        restartIndex := restartIndex - 1;
      }
      ghost var from, to := 0, at;
      if Settled() {
        PointIsEarlier(restartIndex, at);
        from := layout.restarts[restartIndex];
      }
      SeekToRestartPoint(restartIndex);
      ScanTo(original, from, to);
    }

    method SeekToLast()
      requires InBounds()
      modifies this
      ensures WellFormed() ==> Settled() && corrupted == old(corrupted)
      ensures WellFormed() ==> at == if |layout.pairs| == 0 then 0 else |layout.pairs| - 1
    {
      ghost var from: nat := 0;
      if WellFormed() {
        Unlock();
        from := layout.restarts[numRestarts - 1];
      }
      SeekToRestartPoint(numRestarts - 1);
      ScanTo(restarts, from, |layout.pairs|);
    }

    /** Everything before `i` is before the target. */
    ghost predicate AllBefore(i: nat, target: Bytes) {
      i <= |layout.pairs| && forall k :: 0 <= k < i ==> less(layout.pairs[k].key, target)
    }

    lemma RestartKey(index: nat)
      requires WellFormed() && 0 < index < numRestarts
      ensures layout.restarts[index] < |layout.pairs|
      ensures var r := EntryFrom(data, restarts, GetRestartPoint(index));
        && r.Some? && r.value.shared == 0
        && r.value.delta[..r.value.nonShared] == layout.pairs[layout.restarts[index]].key
    {
      Unlock();
      var i := layout.restarts[index];
      var o := Opened(restarts, numRestarts);
      EntryBytes(data, o, layout, i);
      DecodeEncoded(data, restarts, layout.offsets[i], layout.shared[i], layout.pairs[i], data[layout.offsets[i + 1]..restarts]);
    }

    /** The second half of Seek: a linear scan from a restart point. */
    method ScanFrom(left: nat, target: Bytes)
      requires InBounds() && left < numRestarts
      modifies this
      ensures WellFormed() && Monotone(layout.pairs, less, target) && AllBefore(layout.restarts[left], target) ==>
                && Settled() && corrupted == old(corrupted) && AllBefore(at, target)
                && (at < |layout.pairs| ==> !less(layout.pairs[at].key, target))
    {
      ghost var i: nat := if WellFormed() then layout.restarts[left] else 0;
      ghost var ordered := WellFormed() && Monotone(layout.pairs, less, target) && AllBefore(i, target);
      SeekToRestartPoint(left);
      var ok := ParseNextKey(i);
      while ok && less(key, target)
        invariant ok <==> AtEntry()
        invariant ok ==> restartIndex < numRestarts
        invariant ordered ==> Settled() && at == i && AllBefore(i, target) && corrupted == old(corrupted)
        decreases ok, restarts - valueEnd
      {
        if Settled() {
          ReadyForNext();
        }
        i := i + 1;
        ok := ParseNextKey(i);
      }
    }

    /** Seek: binary search for the last restart point before the target, then a linear scan. */
    method Seek(target: Bytes)
      requires InBounds()
      modifies this
      ensures WellFormed() && Monotone(layout.pairs, less, target) ==>
                && Settled() && corrupted == old(corrupted) && AllBefore(at, target)
                && (at < |layout.pairs| ==> !less(layout.pairs[at].key, target))
    {
      var left, right := 0, numRestarts - 1;
      ghost var ordered := WellFormed() && Monotone(layout.pairs, less, target);
      if ordered {
        Unlock();
      }
      while left < right
        invariant 0 <= left <= right < numRestarts
        invariant ordered ==> AllBefore(layout.restarts[left], target)
        invariant corrupted == old(corrupted)
      {
        var mid := (left + right + 1) / 2;
        if ordered {
          RestartKey(mid);
        }
        var decoded := EntryFrom(data, restarts, GetRestartPoint(mid));
        if decoded.None? || decoded.value.shared != 0 {
          CorruptionError();
          return;
        }
        if less(decoded.value.delta[..decoded.value.nonShared], target) {
          left := mid;
        } else {
          right := mid - 1;
        }
      }
      ScanFrom(left, target);
    }
  }
}
