/** The codec over all types: decoding undoes encoding, and when declared sizes are the true ones. */
module Ssz {
  import opened Arith
  import opened Bytes
  import opened BeaconTypes
  import opened SszTypes
  import opened SszBits
  import opened SszSeries

  // Encoding

  function ItemOf(size: Option<nat>, bytes: seq<Byte>): Item {
    if size.Some? then Fixed(bytes) else Variable(bytes)
  }

  function Encode(t: Type, v: Value): seq<Byte>
    requires HasType(v, t)
    decreases t, 1
  {
    match t
    case UInt(bytes) => LittleEndian(v.n, bytes)
    case Bool => [if v.b then 1 else 0]
    case Vector(elem, _) => EncodeSeries(Parts(elem, v.items))
    case List(elem, _) => EncodeSeries(Parts(elem, v.items))
    case BitVector(_) => Pack(v.bits)
    case BitList(_) => Pack(v.bits + [true])
    case Container(_) => EncodeSeries(FieldParts(t, v))
  }

  function Parts(elem: Type, items: seq<Value>): (parts: seq<Item>)
    requires forall i :: 0 <= i < |items| ==> HasType(items[i], elem)
    ensures |parts| == |items|
    decreases elem, 2
  {
    seq(|items|, i requires 0 <= i < |items| => ItemOf(Size(elem), Encode(elem, items[i])))
  }

  function FieldParts(t: Type, v: Value): (parts: seq<Item>)
    requires t.Container? && HasType(v, t)
    ensures |parts| == |t.fields|
    decreases t, 0
  {
    seq(|t.fields|, i requires 0 <= i < |t.fields| => ItemOf(FieldSize(t.fields[i]), Encode(t.fields[i], v.items[i])))
  }

  // Decoding

  function Decode(t: Type, bytes: seq<Byte>): Decoded<Value>
    decreases t, 1
  {
    match t
    case UInt(k) => if |bytes| == k then Good(Num(FromLittleEndian(bytes))) else Bad(IncorrectSize)
    case Bool => DecodeBool(bytes)
    case Vector(elem, len) =>
      var items :- DecodeParts(elem, bytes);
      if |items| == len then Good(Items(items)) else Bad(InvalidLength)
    case List(elem, max) =>
      var items :- DecodeParts(elem, bytes);
      if Within(|items|, max) then Good(Items(items)) else Bad(ListTooLarge)
    case BitVector(len) => if len <= 8 * |bytes| then Good(Bits(Unpack(bytes, len))) else Bad(IncorrectSize)
    case BitList(max) =>
      var bits :- DecodeBitList(bytes);
      if Within(|bits|, max) then Good(Bits(bits)) else Bad(ListTooLarge)
    case Container(fields) =>
      var parts :- DecodeVector(bytes, Sizes(fields));
      var items :- DecodeFields(t, parts);
      Good(Items(items))
  }

  function DecodeBool(bytes: seq<Byte>): Decoded<Value> {
    if |bytes| != 1 then Bad(IncorrectSize)
    else if bytes[0] == 1 then Good(Flag(true))
    else if bytes[0] == 0 then Good(Flag(false))
    else Bad(InvalidType)
  }

  function DecodeBitList(bytes: seq<Byte>): Decoded<seq<bool>> {
    if bytes == [] || bytes[|bytes| - 1] == 0 then Bad(SlicePanic) else
    TopBitOfByte(bytes[|bytes| - 1]);
    Good(Unpack(bytes, ListLength(bytes)))
  }

  function Sizes(fields: seq<Type>): seq<Option<nat>> {
    seq(|fields|, i requires 0 <= i < |fields| => Size(fields[i]))
  }

  function DecodeParts(elem: Type, bytes: seq<Byte>): Decoded<seq<Value>>
    decreases elem, 3
  {
    var parts :- DecodeList(bytes, Size(elem));
    Collect(seq(|parts|, i requires 0 <= i < |parts| =>
      DecodePart(elem, Size(elem).Some?, parts[i])))
  }

  function DecodeFields(t: Type, parts: seq<Item>): Decoded<seq<Value>>
    requires t.Container?
    decreases t, 0
  {
    if |parts| != |t.fields| then Bad(SlicePanic) else
    Collect(seq(|parts|, i requires 0 <= i < |parts| =>
      DecodePart(t.fields[i], FieldSize(t.fields[i]).Some?, parts[i])))
  }

  function DecodePart(t: Type, fixed: bool, part: Item): Decoded<Value>
    decreases t, 2
  {
    if part.Fixed? != fixed then Bad(InvalidType) else Decode(t, part.bytes)
  }

  /** All the values, or the first failure. */
  function Collect(results: seq<Decoded<Value>>): (r: Decoded<seq<Value>>)
    ensures r.Good? ==> |r.value| == |results|
  {
    if results == [] then Good([]) else
    var first :- results[0];
    var rest :- Collect(results[1..]);
    Good([first] + rest)
  }

  // Sizes

  /** A compact field that its container counts as longer than it is. */
  predicate Misfit(t: Type) {
    t.BitVector? && t.len >= 2
  }

  /** No declared size inside a fixed-size type counts a compact field wrongly. */
  predicate Exact(t: Type) {
    match t
    case Vector(elem, len) => len == 0 || Exact(elem)
    case Container(fields) => forall i :: 0 <= i < |fields| ==> Exact(fields[i]) && !Misfit(fields[i])
    case _ => true
  }

  /** Elements have a size other than zero, and elements and fields of fixed size have an exact one. */
  predicate Sound(t: Type) {
    match t
    case Vector(elem, _) => Sound(elem) && SoundElement(elem)
    case List(elem, _) => Sound(elem) && SoundElement(elem)
    case Container(fields) =>
      forall i :: 0 <= i < |fields| ==> Sound(fields[i]) && (Size(fields[i]).Some? ==> Exact(fields[i]))
    case _ => true
  }

  predicate SoundElement(elem: Type) {
    Size(elem).Some? ==> Size(elem).value > 0 && Exact(elem)
  }

  lemma {:induction false} TopBitBelow(b: nat, k: nat)
    requires b < Pow2(k + 1)
    ensures TopBit(b) <= k
  {
    if b >= 2 {
      TopBitBelow(b / 2, k - 1);
    }
  }

  lemma TopBitOfByte(b: Byte)
    ensures TopBit(b) <= 7
  {
    assert Pow2(8) == 256 by {
      assert Pow2(4) == 16;
    }
    TopBitBelow(b, 7);
  }

  lemma {:induction false} SumConstant(n: nat, s: nat)
    ensures SumSizes(seq(n, _ => Some(s))) == Some(s * n)
  {
    if n > 0 {
      SumConstant(n - 1, s);
      assert seq(n, _ => Some(s))[1..] == seq(n - 1, _ => Some(s));
      assert s * n == s + s * (n - 1);
    }
  }

  lemma {:induction false} SumHasAll(sizes: seq<Option<nat>>, i: nat)
    requires SumSizes(sizes).Some? && i < |sizes|
    ensures sizes[i].Some?
  {
    if i > 0 {
      SumHasAll(sizes[1..], i - 1);
    }
  }

  /**
   A fixed-size value is never longer than its declared size, and has exactly that size exactly
   when no compact bitvector of two or more bits sits in a container inside it.
   */
  lemma {:induction false} FixedSize(t: Type, v: Value)
    requires HasType(v, t) && Size(t).Some?
    ensures |Encode(t, v)| <= Size(t).value
    ensures |Encode(t, v)| == Size(t).value <==> Exact(t)
    decreases t, 1
  {
    match t
    case Vector(elem, len) => VectorSize(t, v);
    case Container(fields) => ContainerSize(t, v);
    case _ =>
  }

  lemma {:induction false} VectorSize(t: Type, v: Value)
    requires t.Vector? && HasType(v, t) && Size(t).Some?
    ensures |Encode(t, v)| <= Size(t).value
    ensures |Encode(t, v)| == Size(t).value <==> Exact(t)
    decreases t, 0
  {
    var parts, s := Parts(t.elem, v.items), Size(t.elem).value;
    forall i | 0 <= i < t.len
      ensures parts[i].Fixed? && |parts[i].bytes| <= s
      ensures |parts[i].bytes| == s <==> Exact(t.elem)
    {
      FixedSize(t.elem, v.items[i]);
    }
    FixedIsFlat(parts, HeadSize(parts));
    FlatAgainst(parts, seq(t.len, _ => Some(s)));
    SumConstant(t.len, s);
    if t.len > 0 {
      assert |parts[0].bytes| == s <==> Exact(t.elem);
    }
  }

  lemma {:induction false} ContainerSize(t: Type, v: Value)
    requires t.Container? && HasType(v, t) && Size(t).Some?
    ensures |Encode(t, v)| <= Size(t).value
    ensures |Encode(t, v)| == Size(t).value <==> Exact(t)
    decreases t, 0
  {
    var parts := FieldParts(t, v);
    var sizes := seq(|t.fields|, i requires 0 <= i < |t.fields| => FieldSize(t.fields[i]));
    forall i | 0 <= i < |t.fields|
      ensures sizes[i].Some? && parts[i].Fixed? && |parts[i].bytes| <= sizes[i].value
      ensures |parts[i].bytes| == sizes[i].value <==> Exact(t.fields[i]) && !Misfit(t.fields[i])
    {
      SumHasAll(sizes, i);
      FixedSize(t.fields[i], v.items[i]);
    }
    FixedIsFlat(parts, HeadSize(parts));
    FlatAgainst(parts, sizes);
  }

  // The round trip

  lemma {:induction false} CollectAll(results: seq<Decoded<Value>>, values: seq<Value>)
    requires |results| == |values| && forall i :: 0 <= i < |values| ==> results[i] == Good(values[i])
    ensures Collect(results) == Good(values)
  {
    if values != [] {
      CollectAll(results[1..], values[1..]);
      assert [values[0]] + values[1..] == values;
    }
  }

  /** Decoding undoes encoding, for every value of a sound type that encodes below the offset limit. */
  lemma {:induction false} RoundTrip(t: Type, v: Value)
    requires HasType(v, t) && Sound(t) && |Encode(t, v)| < OFFSET_LIMIT
    ensures Decode(t, Encode(t, v)) == Good(v)
    decreases t, 1
  {
    hide LittleEndian, FromLittleEndian, Pow256, Pack, Unpack, EncodeSeries, Parts, FieldParts, DecodeParts,
      DecodeBitList, DecodeFields;
    match t
    case UInt(bytes) => UIntRoundTrip(v.n, bytes);
    case Bool =>
    case Vector(elem, _) => PartsRoundTrip(elem, v.items);
    case List(elem, _) => PartsRoundTrip(elem, v.items);
    case BitVector(_) => BitVectorRoundTrip(v.bits);
    case BitList(_) => BitListRoundTrip(v.bits);
    case Container(_) => FieldsRoundTrip(t, v);
  }

  lemma UIntRoundTrip(n: nat, bytes: nat)
    requires n < Pow256(bytes)
    ensures FromLittleEndian(LittleEndian(n, bytes)) == n
  {
    LittleEndianRoundTrip(n, bytes);
  }

  lemma BitVectorRoundTrip(bits: seq<bool>)
    ensures Unpack(Pack(bits), |bits|) == bits
  {
    UnpackPack(bits, |bits|);
    assert bits[..|bits|] == bits;
  }

  lemma BitListRoundTrip(bits: seq<bool>)
    ensures DecodeBitList(Pack(bits + [true])) == Good(bits)
  {
    SentinelMarksLength(bits);
    UnpackPack(bits + [true], |bits|);
    assert (bits + [true])[..|bits|] == bits;
  }

  lemma {:induction false} PartsRoundTrip(elem: Type, items: seq<Value>)
    requires forall i :: 0 <= i < |items| ==> HasType(items[i], elem)
    requires Sound(elem) && SoundElement(elem) && |EncodeSeries(Parts(elem, items))| < OFFSET_LIMIT
    ensures DecodeParts(elem, EncodeSeries(Parts(elem, items))) == Good(items)
    decreases elem, 2
  {
    hide Encode, Decode, Sound, Exact, HasType;
    var parts := Parts(elem, items);
    forall i | 0 <= i < |items|
      ensures Decode(elem, parts[i].bytes) == Good(items[i])
      ensures Size(elem).Some? ==> |parts[i].bytes| == Size(elem).value
    {
      ItemsInside(parts, i, HeadSize(parts));
      RoundTrip(elem, items[i]);
      if Size(elem).Some? {
        FixedSize(elem, items[i]);
      }
    }
    DecodeListUndoes(parts, Size(elem));
    CollectAll(seq(|parts|, i requires 0 <= i < |parts| => DecodePart(elem, Size(elem).Some?, parts[i])), items);
  }

  lemma {:induction false} FieldsRoundTrip(t: Type, v: Value)
    requires t.Container? && HasType(v, t) && Sound(t) && |Encode(t, v)| < OFFSET_LIMIT
    ensures Decode(t, Encode(t, v)) == Good(v)
    decreases t, 0
  {
    var parts := FieldParts(t, v);
    forall i | 0 <= i < |t.fields|
      ensures Decode(t.fields[i], parts[i].bytes) == Good(v.items[i])
      ensures Size(t.fields[i]).Some? ==> |parts[i].bytes| == Size(t.fields[i]).value
    {
      ItemsInside(parts, i, HeadSize(parts));
      RoundTrip(t.fields[i], v.items[i]);
      if Size(t.fields[i]).Some? {
        FixedSize(t.fields[i], v.items[i]);
      }
    }
    DecodeVectorUndoes(parts, Sizes(t.fields));
    CollectAll(seq(|parts|, i requires 0 <= i < |parts| =>
      DecodePart(t.fields[i], FieldSize(t.fields[i]).Some?, parts[i])), v.items);
  }

  // Where a declared size is wrong

  /** A list of fixed-size elements comes back exactly when it is empty or its elements' size is exact. */
  lemma {:induction false} ListComesBack(elem: Type, items: seq<Value>)
    requires Sound(elem) && Size(elem).Some? && Size(elem).value > 0
    requires forall i :: 0 <= i < |items| ==> HasType(items[i], elem)
    requires |Encode(List(elem, None), Items(items))| < OFFSET_LIMIT
    ensures Decode(List(elem, None), Encode(List(elem, None), Items(items))) == Good(Items(items))
            <==> items == [] || Exact(elem)
  {
    var parts, s := Parts(elem, items), Size(elem).value;
    if Exact(elem) {
      RoundTrip(List(elem, None), Items(items));
    } else {
      forall i | 0 <= i < |items|
        ensures parts[i].Fixed? && |parts[i].bytes| < s
      {
        FixedSize(elem, items[i]);
      }
      FixedIsFlat(parts, HeadSize(parts));
      FlatAgainst(parts, seq(|items|, _ => Some(s)));
      SumConstant(|items|, s);
      var bytes := EncodeSeries(parts);
      FewerPieces(bytes, s);
      if items != [] {
        assert |parts[0].bytes| < s;
        assert |Pieces(bytes, s)| * s < |items| * s;
      }
    }
  }

  /** A list of one struct that holds eight compact bits encodes to one byte and decodes to the empty list. */
  lemma CompactFieldIsLost(bits: seq<bool>)
    requires |bits| == 8
    ensures var t, v := List(Container([BitVector(8)]), None), Items([Items([Bits(bits)])]);
            && HasType(v, t)
            && |Encode(t, v)| < 8
            && Decode(t, Encode(t, v)) == Good(Items([]))
  {
    var elem, item := Container([BitVector(8)]), Items([Bits(bits)]);
    var parts := Parts(elem, [item]);
    assert HasType(item, elem);
    assert SumSizes([Some(8)]) == Some(8) by {
      assert [Some(8)][1..] == [];
    }
    assert seq(1, i requires 0 <= i < 1 => FieldSize(elem.fields[i])) == [Some(8)];
    assert Size(elem) == Some(8);
    FixedSize(elem, item);
    FixedIsFlat(parts, HeadSize(parts));
    assert Flat(parts) == parts[0].bytes;
    assert Misfit(elem.fields[0]);
  }
}
