/** The codec as the loops that run it, each proved to compute the functions of `SszSeries` and `Ssz`. */
module SszLoops {
  import opened Bytes
  import opened BeaconTypes
  import opened SszTypes
  import opened SszBits
  import opened SszSeries
  import opened Ssz
  import opened SszLayout

  // Series

  method FixedPartsSize(items: seq<Item>) returns (size: nat)
    ensures size == HeadSize(items)
  {
    size := 0;
    assert items[0..] == items;
    for i := 0 to |items|
      invariant size + HeadSize(items[i..]) == HeadSize(items)
    {
      assert items[i..][1..] == items[i + 1..];
      size := size + if items[i].Fixed? then |items[i].bytes| else OFFSET_SIZE;
    }
  }

  /** Fixed items and offsets, with a running offset. */
  method EncodeHeads(items: seq<Item>, fixedSize: nat) returns (ret: seq<Byte>)
    ensures ret == Heads(items, fixedSize)
  {
    hide OffsetBytes, Heads;
    var offset: nat := fixedSize;
    ret := [];
    assert items[0..] == items;
    for i := 0 to |items|
      invariant ret + Heads(items[i..], offset) == Heads(items, fixedSize)
    {
      assert items[i..][1..] == items[i + 1..];
      match items[i]
      case Fixed(bytes) =>
        HeadsUnfold(items[i..], offset, bytes, offset);
        ret := ret + bytes;
      case Variable(bytes) =>
        HeadsUnfold(items[i..], offset, OffsetBytes(offset), offset + |bytes|);
        ret := ret + OffsetBytes(offset);
        offset := offset + |bytes|;
    }
    NoHeads(offset);
    assert items[|items|..] == [] && ret + [] == ret;
  }

  lemma NoHeads(offset: nat)
    ensures Heads([], offset) == []
  {
  }

  /** Fixed items and offsets first; then the variable items. */
  method EncodeItems(items: seq<Item>) returns (ret: seq<Byte>)
    ensures ret == EncodeSeries(items)
    ensures LaidOut(ret, items)
  {
    hide Heads, LaidOut;
    var fixedSize := FixedPartsSize(items);
    ret := EncodeHeads(items, fixedSize);
    assert items[0..] == items;
    for i := 0 to |items|
      invariant ret + Tails(items[i..]) == EncodeSeries(items)
    {
      assert items[i..][1..] == items[i + 1..];
      if items[i].Variable? {
        ret := ret + items[i].bytes;
      }
    }
    SeriesIsLaidOut(items);
  }

  function Before<T>(done: seq<T>, rest: Decoded<seq<T>>): Decoded<seq<T>> {
    if rest.Good? then Good(done + rest.value) else rest
  }

  /** The items before their variable parts are known. */
  ghost function Blanks(heads: seq<Head>): (items: seq<Item>)
    ensures |items| == |heads|
  {
    if heads == [] then [] else
    [if heads[0].Whole? then Fixed(heads[0].bytes) else Variable([])] + Blanks(heads[1..])
  }

  ghost function Offsets(heads: seq<Head>): seq<nat> {
    if heads == [] then [] else (if heads[0].At? then [heads[0].offset] else []) + Offsets(heads[1..])
  }

  lemma {:induction false} OffsetsAppend(heads: seq<Head>, head: Head)
    ensures Offsets(heads + [head]) == Offsets(heads) + if head.At? then [head.offset] else []
    ensures Blanks(heads + [head]) == Blanks(heads) + [if head.Whole? then Fixed(head.bytes) else Variable([])]
  {
    if heads != [] {
      assert (heads + [head])[1..] == heads[1..] + [head];
      OffsetsAppend(heads[1..], head);
    }
  }

  lemma {:induction false} FrontIsNext(heads: seq<Head>, end: nat)
    ensures NextOffset(heads, end) == if Offsets(heads) == [] then end else Offsets(heads)[0]
  {
    if heads != [] && heads[0].Whole? {
      FrontIsNext(heads[1..], end);
    }
  }

  lemma BeforeAll<T>(rest: Decoded<seq<T>>)
    ensures Before([], rest) == rest
  {
    if rest.Good? {
      assert [] + rest.value == rest.value;
    }
  }

  lemma BeforeStep<T>(done: seq<T>, next: T, rest: Decoded<seq<T>>)
    ensures Before(done, Before([next], rest)) == Before(done + [next], rest)
  {
    if rest.Good? {
      assert done + ([next] + rest.value) == done + [next] + rest.value;
    }
  }

  /** The first pass: whole fixed items, blank variable ones, and the queue of offsets. */
  method ReadFixedParts(value: seq<Byte>, sizes: seq<Option<nat>>)
    returns (r: Decoded<(seq<Item>, seq<nat>)>, ghost heads: seq<Head>)
    ensures r.Bad? ==> ReadHeads(value, 0, sizes) == Bad(r.fault)
    ensures r.Good? ==> ReadHeads(value, 0, sizes) == Good(heads) && r.value == (Blanks(heads), Offsets(heads))
  {
    hide FromLittleEndian;
    var ret: seq<Item>, offsets: seq<nat>, pos: nat := [], [], 0;
    heads := [];
    assert sizes[0..] == sizes;
    BeforeAll(ReadHeads(value, 0, sizes));
    for i := 0 to |sizes|
      invariant ReadHeads(value, 0, sizes) == Before(heads, ReadHeads(value, pos, sizes[i..]))
      invariant ret == Blanks(heads) && offsets == Offsets(heads)
    {
      var size := if sizes[i].Some? then sizes[i].value else OFFSET_SIZE;
      assert sizes[i..][1..] == sizes[i + 1..];
      if pos + size > |value| {
        return Bad(SlicePanic), heads;
      }
      var bytes := value[pos..pos + size];
      ghost var head := if sizes[i].Some? then Whole(bytes) else At(FromLittleEndian(bytes));
      OffsetsAppend(heads, head);
      BeforeStep(heads, head, ReadHeads(value, pos + size, sizes[i + 1..]));
      if sizes[i].Some? {
        ret := ret + [Fixed(bytes)];
      } else {
        ret := ret + [Variable([])];
        offsets := offsets + [FromLittleEndian(bytes)];
      }
      heads := heads + [head];
      pos := pos + size;
    }
    assert heads + [] == heads;
    return Good((ret, offsets)), heads;
  }

  /** The second pass: each blank becomes the bytes from its offset to the next one. */
  method FillVariableParts(value: seq<Byte>, blanks: seq<Item>, queue: seq<nat>, ghost heads: seq<Head>)
    returns (r: Decoded<seq<Item>>)
    requires blanks == Blanks(heads) && queue == Offsets(heads)
    ensures r == Fill(value, heads)
  {
    var ret, offsets := [], queue;
    assert heads[0..] == heads && blanks[0..] == blanks;
    BeforeAll(Fill(value, heads));
    for i := 0 to |blanks|
      invariant offsets == Offsets(heads[i..]) && blanks[i..] == Blanks(heads[i..])
      invariant Fill(value, heads) == Before(ret, Fill(value, heads[i..]))
    {
      assert heads[i..][1..] == heads[i + 1..] && blanks[i..][1..] == blanks[i + 1..];
      assert blanks[i] == Blanks(heads[i..])[0];
      var item := blanks[i];
      if item.Variable? {
        var offset := offsets[0];
        offsets := offsets[1..];
        FrontIsNext(heads[i + 1..], |value|);
        var next := if offsets == [] then |value| else offsets[0];
        if !(offset <= next <= |value|) {
          return Bad(SlicePanic);
        }
        item := Variable(value[offset..next]);
      }
      BeforeStep(ret, item, Fill(value, heads[i + 1..]));
      ret := ret + [item];
    }
    assert ret + [] == ret;
    return Good(ret);
  }

  method DecodeVectorItems(value: seq<Byte>, sizes: seq<Option<nat>>) returns (r: Decoded<seq<Item>>)
    ensures r == DecodeVector(value, sizes)
  {
    var parts, heads := ReadFixedParts(value, sizes);
    if parts.Bad? {
      return Bad(parts.fault);
    }
    r := FillVariableParts(value, parts.value.0, parts.value.1, heads);
  }

  ghost function ListHeads(offsets: seq<nat>): (heads: seq<Head>)
    ensures |heads| == |offsets|
  {
    seq(|offsets|, i requires 0 <= i < |offsets| => At(offsets[i]))
  }

  /** Reads offsets until the first of them is reached. */
  method ReadQueue(value: seq<Byte>) returns (offsets: seq<nat>)
    ensures ReadOffsets(value, 0, None) == ListHeads(offsets)
  {
    hide FromLittleEndian;
    var pos: nat := 0;
    offsets := [];
    while pos + OFFSET_SIZE <= |value| && (offsets == [] || pos + OFFSET_SIZE <= offsets[0])
      invariant ReadOffsets(value, 0, None)
             == ListHeads(offsets) + ReadOffsets(value, pos, if offsets == [] then None else Some(offsets[0]))
      decreases |value| - pos
    {
      ghost var was := offsets;
      var offset := FromLittleEndian(value[pos..pos + OFFSET_SIZE]);
      offsets := offsets + [offset];
      pos := pos + OFFSET_SIZE;
      assert ListHeads(offsets) == ListHeads(was) + [At(offset)];
    }
    assert ListHeads(offsets) + [] == ListHeads(offsets);
  }

  /** Cuts equal pieces as long as a whole one is left. */
  method CutPieces(value: seq<Byte>, size: nat) returns (ret: seq<Item>)
    requires size > 0
    ensures ret == Pieces(value, size)
  {
    ret := [];
    var pos: nat := 0;
    assert value[0..] == value;
    while pos + size <= |value|
      invariant pos <= |value| && Pieces(value, size) == ret + Pieces(value[pos..], size)
      decreases |value| - pos
    {
      assert value[pos..][..size] == value[pos..pos + size];
      assert value[pos..][size..] == value[pos + size..];
      ret := ret + [Fixed(value[pos..pos + size])];
      pos := pos + size;
    }
    assert ret + [] == ret;
  }

  /** Cuts from each offset to the next. */
  method CutAtOffsets(value: seq<Byte>, queue: seq<nat>) returns (r: Decoded<seq<Item>>)
    ensures r == Fill(value, ListHeads(queue))
  {
    var ret, offsets := [], queue;
    ghost var heads := ListHeads(queue);
    ghost var i := 0;
    assert heads[0..] == heads;
    BeforeAll(Fill(value, heads));
    while offsets != []
      invariant i <= |heads| && ListHeads(offsets) == heads[i..]
      invariant Fill(value, heads) == Before(ret, Fill(value, heads[i..]))
      decreases |offsets|
    {
      assert heads[i] == ListHeads(offsets)[0] && heads[i..][1..] == heads[i + 1..];
      var offset := offsets[0];
      offsets := offsets[1..];
      assert ListHeads(offsets) == heads[i + 1..];
      var next := if offsets == [] then |value| else offsets[0];
      assert next == NextOffset(heads[i + 1..], |value|);
      if !(offset <= next <= |value|) {
        return Bad(SlicePanic);
      }
      BeforeStep(ret, Variable(value[offset..next]), Fill(value, heads[i + 1..]));
      ret := ret + [Variable(value[offset..next])];
      i := i + 1;
    }
    assert ret + [] == ret;
    return Good(ret);
  }

  method DecodeListItems(value: seq<Byte>, size: Option<nat>) returns (r: Decoded<seq<Item>>)
    ensures r == DecodeList(value, size)
  {
    if size == Some(0) {
      // Cutting pieces of no bytes would never end.
      return Bad(NoProgress);
    }
    if size.Some? {
      var pieces := CutPieces(value, size.value);
      return Good(pieces);
    }
    var offsets := ReadQueue(value);
    r := CutAtOffsets(value, offsets);
  }

  // Values

  /** The elements become items of a series one by one, fixed or variable as their type is. */
  method EncodeElements(elem: Type, values: seq<Value>) returns (bytes: seq<Byte>)
    requires forall i :: 0 <= i < |values| ==> HasType(values[i], elem)
    ensures bytes == EncodeSeries(Parts(elem, values))
    decreases elem, 2
  {
    hide Encode, HasType, EncodeSeries;
    var series: seq<Item> := [];
    for i := 0 to |values|
      invariant series == Parts(elem, values)[..i]
    {
      var encoded := EncodeValue(elem, values[i]);
      series := series + [if Size(elem).Some? then Fixed(encoded) else Variable(encoded)];
    }
    assert series == Parts(elem, values);
    bytes := EncodeItems(series);
  }

  method EncodeFields(t: Type, v: Value) returns (bytes: seq<Byte>)
    requires t.Container? && HasType(v, t)
    ensures bytes == EncodeSeries(FieldParts(t, v))
    decreases t, 0
  {
    hide Encode, EncodeSeries;
    var series: seq<Item> := [];
    for i := 0 to |t.fields|
      invariant series == FieldParts(t, v)[..i]
    {
      var encoded := EncodeValue(t.fields[i], v.items[i]);
      series := series + [if FieldSize(t.fields[i]).Some? then Fixed(encoded) else Variable(encoded)];
    }
    assert series == FieldParts(t, v);
    bytes := EncodeItems(series);
  }

  method EncodeValue(t: Type, v: Value) returns (bytes: seq<Byte>)
    requires HasType(v, t)
    ensures bytes == Encode(t, v)
    ensures Wire(t, v, bytes)
    decreases t, 1
  {
    hide LittleEndian, Pack, EncodeSeries, Parts, FieldParts, Wire;
    EncodedIsWire(t, v);
    match t
    case UInt(k) => bytes := LittleEndian(v.n, k);
    case Bool => bytes := [if v.b then 1 else 0];
    case Vector(elem, _) => bytes := EncodeElements(elem, v.items);
    case List(elem, _) => bytes := EncodeElements(elem, v.items);
    case BitVector(_) => bytes := EncodeBitVector(v.bits);
    case BitList(_) => bytes := EncodeBitList(v.bits);
    case Container(_) => bytes := EncodeFields(t, v);
  }

  lemma {:induction false} CollectStops(results: seq<Decoded<Value>>, values: seq<Value>)
    requires |values| < |results| && (forall i :: 0 <= i < |values| ==> results[i] == Good(values[i]))
    requires results[|values|].Bad?
    ensures Collect(results) == Bad(results[|values|].fault)
  {
    if values != [] {
      CollectStops(results[1..], values[1..]);
    }
  }

  method DecodeElements(elem: Type, bytes: seq<Byte>) returns (r: Decoded<seq<Value>>)
    ensures r == DecodeParts(elem, bytes)
    decreases elem, 3
  {
    hide Decode, DecodeList, Collect;
    var parts := DecodeListItems(bytes, Size(elem));
    if parts.Bad? {
      return Bad(parts.fault);
    }
    ghost var results := seq(|parts.value|, i requires 0 <= i < |parts.value| =>
      DecodePart(elem, Size(elem).Some?, parts.value[i]));
    var ret := [];
    for i := 0 to |parts.value|
      invariant |ret| == i && forall j :: 0 <= j < i ==> results[j] == Good(ret[j])
    {
      var value := DecodeItem(elem, Size(elem).Some?, parts.value[i]);
      assert value == results[i];
      if value.Bad? {
        CollectStops(results, ret);
        return Bad(value.fault);
      }
      ret := ret + [value.value];
    }
    CollectAll(results, ret);
    return Good(ret);
  }

  method DecodeItem(t: Type, fixed: bool, part: Item) returns (r: Decoded<Value>)
    ensures r == DecodePart(t, fixed, part)
    decreases t, 2
  {
    hide Decode;
    if part.Fixed? != fixed {
      return Bad(InvalidType);
    }
    r := DecodeValue(t, part.bytes);
  }

  method DecodeContainer(t: Type, bytes: seq<Byte>) returns (r: Decoded<Value>)
    requires t.Container?
    ensures r == Decode(t, bytes)
    decreases t, 0
  {
    hide DecodeVector, Collect;
    var parts := DecodeVectorItems(bytes, Sizes(t.fields));
    if parts.Bad? {
      return Bad(parts.fault);
    }
    if |parts.value| != |t.fields| {
      return Bad(SlicePanic);
    }
    ghost var results := seq(|parts.value|, i requires 0 <= i < |parts.value| =>
      DecodePart(t.fields[i], FieldSize(t.fields[i]).Some?, parts.value[i]));
    var ret := [];
    for i := 0 to |parts.value|
      invariant |ret| == i && forall j :: 0 <= j < i ==> results[j] == Good(ret[j])
    {
      var value := DecodeItem(t.fields[i], FieldSize(t.fields[i]).Some?, parts.value[i]);
      assert value == results[i];
      if value.Bad? {
        CollectStops(results, ret);
        return Bad(value.fault);
      }
      ret := ret + [value.value];
    }
    CollectAll(results, ret);
    return Good(Items(ret));
  }

  method DecodeValue(t: Type, bytes: seq<Byte>) returns (r: Decoded<Value>)
    ensures r == Decode(t, bytes)
    ensures forall v :: HasType(v, t) && Wire(t, v, bytes) && Sound(t) && |bytes| < OFFSET_LIMIT ==> r == Good(v)
    decreases t, 1
  {
    hide FromLittleEndian, Unpack, DecodeParts, DecodeFields, DecodeVector, Wire, Sound, HasType;
    forall v | HasType(v, t) && Wire(t, v, bytes) && Sound(t) && |bytes| < OFFSET_LIMIT
      ensures Decode(t, bytes) == Good(v)
    {
      WireIsRead(t, v, bytes);
    }
    match t
    case UInt(k) =>
      return if |bytes| == k then Good(Num(FromLittleEndian(bytes))) else Bad(IncorrectSize);
    case Bool =>
      return DecodeBool(bytes);
    case Vector(elem, len) =>
      var items := DecodeElements(elem, bytes);
      if items.Bad? {
        return Bad(items.fault);
      }
      return if |items.value| == len then Good(Items(items.value)) else Bad(InvalidLength);
    case List(elem, max) =>
      var items := DecodeElements(elem, bytes);
      if items.Bad? {
        return Bad(items.fault);
      }
      return if Within(|items.value|, max) then Good(Items(items.value)) else Bad(ListTooLarge);
    case BitVector(len) =>
      var bits := UnpackLoop(bytes, len);
      return if bits.Good? then Good(Bits(bits.value)) else Bad(bits.fault);
    case BitList(max) =>
      if bytes == [] || bytes[|bytes| - 1] == 0 {
        return Bad(SlicePanic);
      }
      TopBitOfByte(bytes[|bytes| - 1]);
      var bits := UnpackLoop(bytes, ListLength(bytes));
      return if Within(|bits.value|, max) then Good(Bits(bits.value)) else Bad(ListTooLarge);
    case Container(_) =>
      r := DecodeContainer(t, bytes);
  }
}
