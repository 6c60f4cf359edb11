/**
 A series of items as bytes: fixed-size items in place, variable-size items behind a four-byte
 offset. Encoding and the two decoders, as loops and as functions, and what decoding recovers.
 */
module SszSeries {
  import opened Bytes
  import opened BeaconTypes
  import opened SszTypes

  datatype Item = Fixed(bytes: seq<Byte>) | Variable(bytes: seq<Byte>)

  const OFFSET_SIZE := 4
  const OFFSET_LIMIT := 0x1_0000_0000

  function OffsetBytes(offset: nat): (bytes: seq<Byte>)
    ensures |bytes| == OFFSET_SIZE
  {
    LittleEndian(offset % OFFSET_LIMIT, OFFSET_SIZE)
  }

  lemma OffsetRoundTrip(offset: nat)
    requires offset < OFFSET_LIMIT
    ensures FromLittleEndian(OffsetBytes(offset)) == offset
  {
    LittleEndianRoundTrip(offset, OFFSET_SIZE);
    assert Pow256(OFFSET_SIZE) == OFFSET_LIMIT by {
      assert Pow256(2) == 65536;
    }
  }

  // Encoding

  function HeadSize(items: seq<Item>): nat {
    if items == [] then 0 else
    (if items[0].Fixed? then |items[0].bytes| else OFFSET_SIZE) + HeadSize(items[1..])
  }

  /** The part with the fixed items and the offsets, the next free place being `offset`. */
  function Heads(items: seq<Item>, offset: nat): (heads: seq<Byte>)
    ensures |heads| == HeadSize(items)
  {
    if items == [] then [] else
    match items[0]
    case Fixed(bytes) => bytes + Heads(items[1..], offset)
    case Variable(bytes) => OffsetBytes(offset) + Heads(items[1..], offset + |bytes|)
  }

  function Tails(items: seq<Item>): seq<Byte> {
    if items == [] then [] else
    (if items[0].Fixed? then [] else items[0].bytes) + Tails(items[1..])
  }

  function EncodeSeries(items: seq<Item>): seq<Byte> {
    Heads(items, HeadSize(items)) + Tails(items)
  }

  // Decoding

  /** An item of which a variable-size one is known by its offset only. */
  datatype Head = Whole(bytes: seq<Byte>) | At(offset: nat)

  function Slice(value: seq<Byte>, from: nat, to: nat): Decoded<seq<Byte>> {
    if from <= to <= |value| then Good(value[from..to]) else Bad(SlicePanic)
  }

  function ReadHeads(value: seq<Byte>, pos: nat, sizes: seq<Option<nat>>): Decoded<seq<Head>>
    decreases |sizes|
  {
    if sizes == [] then Good([]) else
    var size := if sizes[0].Some? then sizes[0].value else OFFSET_SIZE;
    var bytes :- Slice(value, pos, pos + size);
    var rest :- ReadHeads(value, pos + size, sizes[1..]);
    Good([if sizes[0].Some? then Whole(bytes) else At(FromLittleEndian(bytes))] + rest)
  }

  /** Where the next variable-size item starts, or `end`. */
  function NextOffset(heads: seq<Head>, end: nat): nat {
    if heads == [] then end
    else if heads[0].At? then heads[0].offset
    else NextOffset(heads[1..], end)
  }

  function Fill(value: seq<Byte>, heads: seq<Head>): Decoded<seq<Item>> {
    if heads == [] then Good([]) else
    match heads[0]
    case Whole(bytes) =>
      var rest :- Fill(value, heads[1..]);
      Good([Fixed(bytes)] + rest)
    case At(offset) =>
      var bytes :- Slice(value, offset, NextOffset(heads[1..], |value|));
      var rest :- Fill(value, heads[1..]);
      Good([Variable(bytes)] + rest)
  }

  function DecodeVector(value: seq<Byte>, sizes: seq<Option<nat>>): Decoded<seq<Item>> {
    var heads :- ReadHeads(value, 0, sizes);
    Fill(value, heads)
  }

  /** The whole pieces of `size` bytes; a shorter rest is ignored. */
  function Pieces(value: seq<Byte>, size: nat): seq<Item>
    requires size > 0
    decreases |value|
  {
    if |value| < size then [] else [Fixed(value[..size])] + Pieces(value[size..], size)
  }

  /** Offsets from `pos` on, up to the place that the first of them points to. */
  function ReadOffsets(value: seq<Byte>, pos: nat, first: Option<nat>): seq<Head>
    decreases |value| - pos
  {
    if pos + OFFSET_SIZE > |value| || (first.Some? && pos + OFFSET_SIZE > first.value) then [] else
    var offset := FromLittleEndian(value[pos..pos + OFFSET_SIZE]);
    [At(offset)] + ReadOffsets(value, pos + OFFSET_SIZE, if first.Some? then first else Some(offset))
  }

  function DecodeList(value: seq<Byte>, size: Option<nat>): Decoded<seq<Item>> {
    if size.None? then Fill(value, ReadOffsets(value, 0, None))
    else if size.value == 0 then Bad(NoProgress)
    else Good(Pieces(value, size.value))
  }

  // What encoding leaves to decode

  /** The sizes a decoder must be given to read `items` back. */
  predicate Fits(items: seq<Item>, sizes: seq<Option<nat>>) {
    && |items| == |sizes|
    && forall i :: 0 <= i < |items| ==> sizes[i] == if items[i].Fixed? then Some(|items[i].bytes|) else None
  }

  function HeadsOf(items: seq<Item>, offset: nat): (heads: seq<Head>)
    ensures |heads| == |items|
  {
    if items == [] then [] else
    match items[0]
    case Fixed(bytes) => [Whole(bytes)] + HeadsOf(items[1..], offset)
    case Variable(bytes) => [At(offset)] + HeadsOf(items[1..], offset + |bytes|)
  }

  lemma FirstHead(value: seq<Byte>, pos: nat, items: seq<Item>, offset: nat, size: nat, next: nat)
    requires items != [] && pos + HeadSize(items) <= |value|
    requires value[pos..pos + HeadSize(items)] == Heads(items, offset)
    requires size == if items[0].Fixed? then |items[0].bytes| else OFFSET_SIZE
    requires next == if items[0].Fixed? then offset else offset + |items[0].bytes|
    ensures value[pos..pos + size] == if items[0].Fixed? then items[0].bytes else OffsetBytes(offset)
    ensures value[pos + size..pos + HeadSize(items)] == Heads(items[1..], next)
  {
    hide OffsetBytes;
    var heads := Heads(items, offset);
    assert value[pos..pos + size] == heads[..size];
    assert value[pos + size..pos + HeadSize(items)] == heads[size..];
  }

  lemma {:induction false} HeadsAreRead(value: seq<Byte>, pos: nat, items: seq<Item>, offset: nat,
                                        sizes: seq<Option<nat>>)
    requires Fits(items, sizes) && pos + HeadSize(items) <= |value|
    requires value[pos..pos + HeadSize(items)] == Heads(items, offset)
    requires offset + |Tails(items)| < OFFSET_LIMIT
    ensures ReadHeads(value, pos, sizes) == Good(HeadsOf(items, offset))
    decreases |items|
  {
    hide OffsetBytes, FromLittleEndian, Heads;
    if items != [] {
      var size := if items[0].Fixed? then |items[0].bytes| else OFFSET_SIZE;
      var next := if items[0].Fixed? then offset else offset + |items[0].bytes|;
      FirstHead(value, pos, items, offset, size, next);
      OffsetRoundTrip(offset);
      HeadsAreRead(value, pos + size, items[1..], next, sizes[1..]);
    }
  }

  /** The next offset is where this item's bytes end. */
  lemma {:induction false} NextOffsetIs(items: seq<Item>, offset: nat)
    ensures NextOffset(HeadsOf(items, offset), offset + |Tails(items)|) == offset
  {
    if items != [] && items[0].Fixed? {
      assert HeadsOf(items, offset)[1..] == HeadsOf(items[1..], offset);
      NextOffsetIs(items[1..], offset);
    }
  }

  lemma {:induction false} TailsAreFilled(value: seq<Byte>, items: seq<Item>, offset: nat)
    requires offset + |Tails(items)| == |value| && value[offset..] == Tails(items)
    ensures Fill(value, HeadsOf(items, offset)) == Good(items)
  {
    if items != [] {
      var rest := items[1..];
      var next := if items[0].Fixed? then offset else offset + |items[0].bytes|;
      FirstTail(value, items, offset, next);
      TailsAreFilled(value, rest, next);
      NextOffsetIs(rest, next);
      var heads := HeadsOf(items, offset);
      assert heads[1..] == HeadsOf(rest, next);
      assert [items[0]] + rest == items;
    }
  }

  lemma FirstTail(value: seq<Byte>, items: seq<Item>, offset: nat, next: nat)
    requires items != [] && offset + |Tails(items)| == |value| && value[offset..] == Tails(items)
    requires next == if items[0].Fixed? then offset else offset + |items[0].bytes|
    ensures next + |Tails(items[1..])| == |value| && value[next..] == Tails(items[1..])
    ensures items[0].Variable? ==> value[offset..next] == items[0].bytes
  {
    hide HeadsOf;
    assert value[next..] == value[offset..][next - offset..];
    assert value[offset..next] == value[offset..][..next - offset];
  }

  lemma {:induction false} DecodeVectorUndoes(items: seq<Item>, sizes: seq<Option<nat>>)
    requires Fits(items, sizes) && |EncodeSeries(items)| < OFFSET_LIMIT
    ensures DecodeVector(EncodeSeries(items), sizes) == Good(items)
  {
    var value := EncodeSeries(items);
    var offset := HeadSize(items);
    assert value[0..offset] == Heads(items, offset);
    HeadsAreRead(value, 0, items, offset, sizes);
    assert value[offset..] == Tails(items);
    TailsAreFilled(value, items, offset);
  }

  predicate AllFixed(items: seq<Item>, size: nat) {
    forall i :: 0 <= i < |items| ==> items[i].Fixed? && |items[i].bytes| == size
  }

  predicate AllVariable(items: seq<Item>) {
    forall i :: 0 <= i < |items| ==> items[i].Variable?
  }

  function Flat(items: seq<Item>): seq<Byte> {
    if items == [] then [] else items[0].bytes + Flat(items[1..])
  }

  lemma {:induction false} FixedIsFlat(items: seq<Item>, offset: nat)
    requires forall i :: 0 <= i < |items| ==> items[i].Fixed?
    ensures Heads(items, offset) == Flat(items) && Tails(items) == []
  {
    if items != [] {
      FixedIsFlat(items[1..], offset);
    }
  }

  lemma {:induction false} PiecesOfFlat(items: seq<Item>, size: nat)
    requires AllFixed(items, size) && size > 0
    ensures Pieces(Flat(items), size) == items
  {
    if items != [] {
      assert Flat(items)[..size] == items[0].bytes && Flat(items)[size..] == Flat(items[1..]);
      PiecesOfFlat(items[1..], size);
      assert [items[0]] + items[1..] == items;
    }
  }

  lemma {:induction false} VariableHeadSize(items: seq<Item>)
    requires AllVariable(items)
    ensures HeadSize(items) == OFFSET_SIZE * |items|
  {
    if items != [] {
      VariableHeadSize(items[1..]);
    }
  }

  /** Reading stops exactly at the place that the first offset points to. */
  lemma {:induction false} OffsetsAreRead(value: seq<Byte>, pos: nat, items: seq<Item>, offset: nat, end: nat)
    requires AllVariable(items) && HeadSize(items) == OFFSET_SIZE * |items|
    requires pos + HeadSize(items) == end <= |value|
    requires value[pos..end] == Heads(items, offset)
    requires offset + |Tails(items)| < OFFSET_LIMIT
    ensures ReadOffsets(value, pos, Some(end)) == HeadsOf(items, offset)
    decreases |items|
  {
    hide OffsetBytes, FromLittleEndian, Heads;
    if items != [] {
      FirstHead(value, pos, items, offset, OFFSET_SIZE, offset + |items[0].bytes|);
      OffsetRoundTrip(offset);
      OffsetsAreRead(value, pos + OFFSET_SIZE, items[1..], offset + |items[0].bytes|, end);
    }
  }

  lemma {:induction false} FirstOffsetIsRead(value: seq<Byte>, items: seq<Item>)
    requires AllVariable(items) && HeadSize(items) == OFFSET_SIZE * |items| <= |value|
    requires value[0..HeadSize(items)] == Heads(items, HeadSize(items))
    requires HeadSize(items) + |Tails(items)| == |value| < OFFSET_LIMIT
    ensures ReadOffsets(value, 0, None) == HeadsOf(items, HeadSize(items))
  {
    hide OffsetBytes, FromLittleEndian, Heads;
    if items != [] {
      var end := HeadSize(items);
      FirstHead(value, 0, items, end, OFFSET_SIZE, end + |items[0].bytes|);
      OffsetRoundTrip(end);
      OffsetsAreRead(value, OFFSET_SIZE, items[1..], end + |items[0].bytes|, end);
    }
  }

  lemma {:induction false} DecodeListUndoes(items: seq<Item>, size: Option<nat>)
    requires size != Some(0) && |EncodeSeries(items)| < OFFSET_LIMIT
    requires if size.Some? then AllFixed(items, size.value) else AllVariable(items)
    ensures DecodeList(EncodeSeries(items), size) == Good(items)
  {
    var value := EncodeSeries(items);
    if size.Some? {
      FixedIsFlat(items, HeadSize(items));
      PiecesOfFlat(items, size.value);
      assert value == Flat(items);
    } else {
      var offset := HeadSize(items);
      VariableHeadSize(items);
      assert value[0..offset] == Heads(items, offset);
      assert value[offset..] == Tails(items);
      FirstOffsetIsRead(value, items);
      TailsAreFilled(value, items, offset);
    }
  }

  /** Pieces larger than the items are fewer than the items. */
  lemma {:induction false} FewerPieces(value: seq<Byte>, size: nat)
    requires size > 0
    ensures |Pieces(value, size)| * size <= |value|
  {
    if |value| >= size {
      FewerPieces(value[size..], size);
      assert |Pieces(value, size)| * size == size + |Pieces(value[size..], size)| * size;
    }
  }

  /** No item is longer than the whole encoding. */
  lemma {:induction false} ItemsInside(items: seq<Item>, i: nat, offset: nat)
    requires i < |items|
    ensures |items[i].bytes| <= |Heads(items, offset)| + |Tails(items)|
  {
    if i > 0 {
      var next := if items[0].Fixed? then offset else offset + |items[0].bytes|;
      ItemsInside(items[1..], i - 1, next);
    }
  }

  /** Items no longer than their sizes are together no longer, and as long exactly when each is. */
  lemma {:induction false} FlatAgainst(items: seq<Item>, sizes: seq<Option<nat>>)
    requires |items| == |sizes|
    requires forall i :: 0 <= i < |items| ==> sizes[i].Some? && |items[i].bytes| <= sizes[i].value
    ensures SumSizes(sizes).Some? && |Flat(items)| <= SumSizes(sizes).value
    ensures |Flat(items)| == SumSizes(sizes).value
            <==> forall i :: 0 <= i < |items| ==> |items[i].bytes| == sizes[i].value
  {
    if items != [] {
      FlatAgainst(items[1..], sizes[1..]);
      assert (forall i :: 0 <= i < |items| ==> |items[i].bytes| == sizes[i].value)
        <==> |items[0].bytes| == sizes[0].value
             && (forall i :: 0 <= i < |items| - 1 ==> |items[1..][i].bytes| == sizes[1..][i].value) by {
        assert forall i :: 0 < i < |items| ==> items[i] == items[1..][i - 1] && sizes[i] == sizes[1..][i - 1];
      }
    }
  }
}
