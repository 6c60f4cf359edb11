/**
 The wire format, said of the bytes alone: which byte strings a value may be written as, and that
 encoding writes the only one.
 */
module SszLayout {
  import opened Bytes
  import opened BeaconTypes
  import opened Arith
  import opened SszTypes
  import opened SszBits
  import opened SszSeries
  import opened Ssz

  // Integers and bits

  /** The bytes of `n`, lowest first. */
  predicate Digits(bytes: seq<Byte>, n: nat) {
    forall i :: 0 <= i < |bytes| ==> bytes[i] == n / Pow256(i) % 256
  }

  lemma {:induction false} LittleEndianDigits(n: nat, k: nat)
    ensures Digits(LittleEndian(n, k), n)
  {
    if k > 0 {
      LittleEndianDigits(n / 256, k - 1);
      var bytes := LittleEndian(n, k);
      forall i | 0 <= i < k
        ensures bytes[i] == n / Pow256(i) % 256
      {
        if i > 0 {
          assert bytes[i] == LittleEndian(n / 256, k - 1)[i - 1];
          DivideTwice(n, i);
        }
      }
    }
  }

  lemma DivideTwice(n: nat, i: nat)
    requires i > 0
    ensures n / 256 / Pow256(i - 1) == n / Pow256(i)
  {
    hide Div, Mod;
    var p := Pow256(i - 1);
    var q, r := n / 256 / p, n / 256 % p;
    assert Pow256(i) == 256 * p;
    assert n == q * (256 * p) + (r * 256 + n % 256) by {
      assert n / 256 == q * p + r;
      assert q * (256 * p) == 256 * (q * p);
    }
    assert r * 256 + n % 256 < 256 * p;
    DivModUnique(n, 256 * p, q, r * 256 + n % 256);
    DivModAreOperators(n, 256 * p);
  }

  /** Bit `i` of a byte string, the lowest bit of each byte first. */
  predicate BitIs(bytes: seq<Byte>, i: nat)
    requires i / 8 < |bytes|
  {
    bytes[i / 8] / Pow2(i % 8) % 2 == 1
  }

  lemma {:induction false} TestBitIs(b: nat, k: nat)
    ensures TestBit(b, k) <==> b / Pow2(k) % 2 == 1
  {
    if k > 0 {
      TestBitIs(b / 2, k - 1);
      HalveTwice(b, k);
    }
  }

  lemma HalveTwice(n: nat, i: nat)
    requires i > 0
    ensures n / 2 / Pow2(i - 1) == n / Pow2(i)
  {
    hide Div, Mod;
    var p := Pow2(i - 1);
    var q, r := n / 2 / p, n / 2 % p;
    assert Pow2(i) == 2 * p;
    assert n == q * (2 * p) + (r * 2 + n % 2) by {
      assert n / 2 == q * p + r;
      assert q * (2 * p) == 2 * (q * p);
    }
    assert r * 2 + n % 2 < 2 * p;
    DivModUnique(n, 2 * p, q, r * 2 + n % 2);
    DivModAreOperators(n, 2 * p);
  }

  /** The bytes hold `bits`, and nothing after them. */
  predicate Holds(bytes: seq<Byte>, bits: seq<bool>) {
    && |bytes| == (|bits| + 7) / 8
    && forall i :: 0 <= i < 8 * |bytes| ==> (BitIs(bytes, i) <==> i < |bits| && bits[i])
  }

  lemma PackHolds(bits: seq<bool>)
    ensures Holds(Pack(bits), bits)
  {
    hide BitIs, Pack;
    var bytes := Pack(bits);
    forall i | 0 <= i < 8 * |bytes|
      ensures BitIs(bytes, i) <==> i < |bits| && bits[i]
    {
      PackedBit(bits, i);
    }
  }

  lemma PackedBit(bits: seq<bool>, i: nat)
    requires i < 8 * |Pack(bits)|
    ensures BitIs(Pack(bits), i) <==> i < |bits| && bits[i]
  {
    hide FromBits, TestBit, Chunk, Pow2;
    var chunk := Chunk(bits, i / 8);
    ChunkBit(bits, i);
    TestFromBits(chunk, i % 8);
    TestBitIs(FromBits(chunk), i % 8);
  }

  lemma ChunkBit(bits: seq<bool>, i: nat)
    ensures var chunk := Chunk(bits, i / 8);
      (i % 8 < |chunk| && chunk[i % 8]) <==> (i < |bits| && bits[i])
  {
    assert i == 8 * (i / 8) + i % 8;
  }

  // Series

  /** What an item takes in the head. */
  function Width(item: Item): nat {
    if item.Fixed? then |item.bytes| else 4
  }

  /** Where the head of item `i` stands: after the heads before it. */
  function HeadAt(items: seq<Item>, i: nat): nat
    requires i <= |items|
  {
    if i == 0 then 0 else HeadAt(items, i - 1) + Width(items[i - 1])
  }

  /** How many bytes the variable items before item `i` have. */
  function VariableBefore(items: seq<Item>, i: nat): nat
    requires i <= |items|
  {
    if i == 0 then 0
    else VariableBefore(items, i - 1) + if items[i - 1].Variable? then |items[i - 1].bytes| else 0
  }

  /** Where the bytes of item `i` stand when it is variable: after all heads and the variable items before it. */
  function TailAt(items: seq<Item>, i: nat): nat
    requires i <= |items|
  {
    HeadAt(items, |items|) + VariableBefore(items, i)
  }

  predicate StandsAt(bytes: seq<Byte>, at: nat, part: seq<Byte>) {
    at + |part| <= |bytes| && bytes[at..at + |part|] == part
  }

  /** A fixed item stands at its head; a variable one at its tail, and its head says where, lowest byte first. */
  predicate Placed(bytes: seq<Byte>, items: seq<Item>, i: nat)
    requires i < |items|
  {
    if items[i].Fixed? then StandsAt(bytes, HeadAt(items, i), items[i].bytes)
    else
      && StandsAt(bytes, TailAt(items, i), items[i].bytes)
      && HeadAt(items, i) + 4 <= |bytes|
      && Digits(bytes[HeadAt(items, i)..HeadAt(items, i) + 4], TailAt(items, i))
  }

  predicate LaidOut(bytes: seq<Byte>, items: seq<Item>) {
    && |bytes| == TailAt(items, |items|)
    && forall i :: 0 <= i < |items| ==> Placed(bytes, items, i)
  }

  lemma {:induction false} FromFirst(items: seq<Item>, i: nat)
    requires 0 < i <= |items|
    ensures HeadAt(items, i) == Width(items[0]) + HeadAt(items[1..], i - 1)
    ensures VariableBefore(items, i)
         == (if items[0].Variable? then |items[0].bytes| else 0) + VariableBefore(items[1..], i - 1)
  {
    if i > 1 {
      FromFirst(items, i - 1);
      assert items[1..][i - 2] == items[i - 1];
    } else {
      assert HeadAt(items, 0) == 0 && VariableBefore(items, 0) == 0;
    }
  }

  lemma {:induction false} PartSizes(items: seq<Item>)
    ensures HeadSize(items) == HeadAt(items, |items|)
    ensures |Tails(items)| == VariableBefore(items, |items|)
  {
    if items != [] {
      FromFirst(items, |items|);
      PartSizes(items[1..]);
    }
  }

  lemma {:induction false} HeadStands(items: seq<Item>, offset: nat, i: nat)
    requires i < |items|
    ensures StandsAt(Heads(items, offset), HeadAt(items, i),
                     if items[i].Fixed? then items[i].bytes else OffsetBytes(offset + VariableBefore(items, i)))
    decreases |items|
  {
    hide Heads, OffsetBytes, StandsAt;
    var first := if items[0].Fixed? then items[0].bytes else OffsetBytes(offset);
    var next := if items[0].Fixed? then offset else offset + |items[0].bytes|;
    HeadsUnfold(items, offset, first, next);
    if i > 0 {
      FromFirst(items, i);
      HeadStands(items[1..], next, i - 1);
      StandsAfter(first, Heads(items[1..], next), HeadAt(items[1..], i - 1),
        if items[i].Fixed? then items[i].bytes else OffsetBytes(offset + VariableBefore(items, i)));
    } else {
      StandsFirst(first, Heads(items[1..], next));
    }
  }

  lemma HeadsUnfold(items: seq<Item>, offset: nat, first: seq<Byte>, next: nat)
    requires items != []
    requires first == if items[0].Fixed? then items[0].bytes else OffsetBytes(offset)
    requires next == if items[0].Fixed? then offset else offset + |items[0].bytes|
    ensures Heads(items, offset) == first + Heads(items[1..], next)
  {
    hide OffsetBytes;
  }

  lemma StandsFirst(first: seq<Byte>, rest: seq<Byte>)
    ensures StandsAt(first + rest, 0, first)
  {
  }

  lemma StandsAfter(first: seq<Byte>, rest: seq<Byte>, at: nat, part: seq<Byte>)
    requires StandsAt(rest, at, part)
    ensures StandsAt(first + rest, |first| + at, part)
  {
    assert (first + rest)[|first| + at..|first| + at + |part|] == rest[at..at + |part|];
  }

  lemma StandsBefore(first: seq<Byte>, rest: seq<Byte>, at: nat, part: seq<Byte>)
    requires StandsAt(first, at, part)
    ensures StandsAt(first + rest, at, part)
  {
    assert (first + rest)[at..at + |part|] == first[at..at + |part|];
  }

  lemma {:induction false} TailStands(items: seq<Item>, i: nat)
    requires i < |items| && items[i].Variable?
    ensures StandsAt(Tails(items), VariableBefore(items, i), items[i].bytes)
    decreases |items|
  {
    if i > 0 {
      FromFirst(items, i);
      TailStands(items[1..], i - 1);
      var first := if items[0].Fixed? then [] else items[0].bytes;
      assert Tails(items) == first + Tails(items[1..]);
      StandsAfter(first, Tails(items[1..]), VariableBefore(items[1..], i - 1), items[i].bytes);
    }
  }

  lemma OffsetDigits(n: nat)
    ensures Digits(OffsetBytes(n), n)
  {
    hide LittleEndian, Digits;
    FourBytes();
    LittleEndianDigits(n, 4);
    LowPartOnly(n, 4);
  }

  lemma FourBytes()
    ensures Pow256(4) == 0x1_0000_0000
  {
    assert Pow256(2) == 65536;
  }

  lemma {:induction false} LowPartOnly(n: nat, k: nat)
    ensures LittleEndian(n % Pow256(k), k) == LittleEndian(n, k)
  {
    if k > 0 {
      hide LittleEndian, Pow256;
      var m := n % Pow256(k);
      LowSplit(n, k);
      NextByte(n, k);
      NextByte(m, k);
      LowPartOnly(n / 256, k - 1);
    }
  }

  lemma LowSplit(n: nat, k: nat)
    requires k > 0
    ensures n % Pow256(k) % 256 == n % 256 && n % Pow256(k) / 256 == n / 256 % Pow256(k - 1)
  {
    ModSplit(n, Pow256(k - 1));
  }

  /** A series is laid out: each fixed item stands after the heads before it, and each variable item behind
      all heads, in order, with its place in its head. */
  lemma {:induction false} SeriesIsLaidOut(items: seq<Item>)
    ensures LaidOut(EncodeSeries(items), items)
  {
    hide Heads, Tails, OffsetBytes, Digits, HeadAt, VariableBefore;
    PartSizes(items);
    forall i | 0 <= i < |items|
      ensures Placed(EncodeSeries(items), items, i)
    {
      ItemIsPlaced(items, i);
    }
  }

  lemma ItemIsPlaced(items: seq<Item>, i: nat)
    requires i < |items|
    ensures Placed(EncodeSeries(items), items, i)
  {
    hide Heads, Tails, OffsetBytes, Digits, HeadAt, VariableBefore;
    PartSizes(items);
    var heads, tails := Heads(items, HeadSize(items)), Tails(items);
    HeadStands(items, HeadSize(items), i);
    if items[i].Fixed? {
      StandsBefore(heads, tails, HeadAt(items, i), items[i].bytes);
    } else {
      OffsetDigits(TailAt(items, i));
      StandsBefore(heads, tails, HeadAt(items, i), OffsetBytes(TailAt(items, i)));
      TailStands(items, i);
      StandsAfter(heads, tails, VariableBefore(items, i), items[i].bytes);
    }
  }

  // One layout

  lemma {:induction false} HeadOf(items: seq<Item>, n: nat, q: nat) returns (i: nat)
    requires n <= |items| && q < HeadAt(items, n)
    ensures i < n && HeadAt(items, i) <= q < HeadAt(items, i) + Width(items[i])
  {
    if HeadAt(items, n - 1) <= q {
      i := n - 1;
    } else {
      i := HeadOf(items, n - 1, q);
    }
  }

  lemma {:induction false} TailOf(items: seq<Item>, n: nat, q: nat) returns (i: nat)
    requires n <= |items| && q < VariableBefore(items, n)
    ensures i < n && items[i].Variable?
    ensures VariableBefore(items, i) <= q < VariableBefore(items, i) + |items[i].bytes|
  {
    if VariableBefore(items, n - 1) <= q {
      i := n - 1;
    } else {
      i := TailOf(items, n - 1, q);
    }
  }

  lemma SamePart(bytes: seq<Byte>, bytes': seq<Byte>, at: nat, part: seq<Byte>, q: nat)
    requires StandsAt(bytes, at, part) && StandsAt(bytes', at, part) && at <= q < at + |part|
    ensures bytes[q] == bytes'[q]
  {
    assert bytes[q] == bytes[at..at + |part|][q - at];
    assert bytes'[q] == bytes'[at..at + |part|][q - at];
  }

  lemma SameDigits(bytes: seq<Byte>, bytes': seq<Byte>, at: nat, n: nat, q: nat)
    requires at + 4 <= |bytes| && at + 4 <= |bytes'| && at <= q < at + 4
    requires Digits(bytes[at..at + 4], n) && Digits(bytes'[at..at + 4], n)
    ensures bytes[q] == bytes'[q]
  {
    hide Pow256;
    assert bytes[q] == bytes[at..at + 4][q - at];
    assert bytes'[q] == bytes'[at..at + 4][q - at];
  }

  /** The layout leaves no choice. */
  lemma {:induction false} LayoutIsUnique(bytes: seq<Byte>, bytes': seq<Byte>, items: seq<Item>)
    requires LaidOut(bytes, items) && LaidOut(bytes', items)
    ensures bytes == bytes'
  {
    hide HeadAt, VariableBefore, StandsAt, Digits;
    forall q | 0 <= q < |bytes|
      ensures bytes[q] == bytes'[q]
    {
      if q < HeadAt(items, |items|) {
        var i := HeadOf(items, |items|, q);
        assert Placed(bytes, items, i) && Placed(bytes', items, i);
        if items[i].Fixed? {
          SamePart(bytes, bytes', HeadAt(items, i), items[i].bytes, q);
        } else {
          SameDigits(bytes, bytes', HeadAt(items, i), TailAt(items, i), q);
        }
      } else {
        var i := TailOf(items, |items|, q - HeadAt(items, |items|));
        assert Placed(bytes, items, i) && Placed(bytes', items, i);
        SamePart(bytes, bytes', TailAt(items, i), items[i].bytes, q);
      }
    }
  }

  lemma {:induction false} BitsDetermine(a: nat, b: nat, k: nat)
    requires a < Pow2(k) && b < Pow2(k) && forall j :: 0 <= j < k ==> TestBit(a, j) == TestBit(b, j)
    ensures a == b
  {
    if k > 0 {
      assert TestBit(a, 0) == TestBit(b, 0);
      forall j | 0 <= j < k - 1
        ensures TestBit(a / 2, j) == TestBit(b / 2, j)
      {
        assert TestBit(a, j + 1) == TestBit(b, j + 1);
      }
      BitsDetermine(a / 2, b / 2, k - 1);
    }
  }

  lemma SameByte(bytes: seq<Byte>, bytes': seq<Byte>, bits: seq<bool>, j: nat)
    requires Holds(bytes, bits) && Holds(bytes', bits) && j < |bytes|
    ensures bytes[j] == bytes'[j]
  {
    hide TestBit, Pow2;
    forall k | 0 <= k < 8
      ensures TestBit(bytes[j], k) == TestBit(bytes'[j], k)
    {
      var i := 8 * j + k;
      assert i / 8 == j && i % 8 == k;
      assert BitIs(bytes, i) <==> BitIs(bytes', i);
      TestBitIs(bytes[j], k);
      TestBitIs(bytes'[j], k);
    }
    EightBits();
    BitsDetermine(bytes[j], bytes'[j], 8);
  }

  lemma EightBits()
    ensures Pow2(8) == 256
  {
    assert Pow2(4) == 16;
  }

  lemma OneHolding(bytes: seq<Byte>, bytes': seq<Byte>, bits: seq<bool>)
    requires Holds(bytes, bits) && Holds(bytes', bits)
    ensures bytes == bytes'
  {
    hide BitIs;
    forall j | 0 <= j < |bytes|
      ensures bytes[j] == bytes'[j]
    {
      SameByte(bytes, bytes', bits, j);
    }
  }

  // The wire format

  /** `bytes` is what value `v` of type `t` looks like on the wire. */
  ghost predicate Wire(t: Type, v: Value, bytes: seq<Byte>)
    requires HasType(v, t)
    decreases t, 1
  {
    match t
    case UInt(k) => |bytes| == k && Digits(bytes, v.n)
    case Bool => bytes == [if v.b then 1 else 0]
    case Vector(elem, _) => exists parts :: ElementParts(elem, v.items, parts) && LaidOut(bytes, parts)
    case List(elem, _) => exists parts :: ElementParts(elem, v.items, parts) && LaidOut(bytes, parts)
    case BitVector(_) => Holds(bytes, v.bits)
    case BitList(_) => Holds(bytes, v.bits + [true])
    case Container(_) => exists parts :: ContainerParts(t, v, parts) && LaidOut(bytes, parts)
  }

  /** The elements as items, all fixed or all variable as their type is. */
  ghost predicate ElementParts(elem: Type, items: seq<Value>, parts: seq<Item>)
    requires forall i :: 0 <= i < |items| ==> HasType(items[i], elem)
    decreases elem, 2
  {
    && |parts| == |items|
    && forall i :: 0 <= i < |items| ==>
         (parts[i].Fixed? <==> Size(elem).Some?) && Wire(elem, items[i], parts[i].bytes)
  }

  /** The fields as items, fixed or variable as their types without a compact mark are. */
  ghost predicate ContainerParts(t: Type, v: Value, parts: seq<Item>)
    requires t.Container? && HasType(v, t)
    decreases t, 0
  {
    && |parts| == |t.fields|
    && forall i :: 0 <= i < |t.fields| ==>
         (parts[i].Fixed? <==> FieldSize(t.fields[i]).Some?) && Wire(t.fields[i], v.items[i], parts[i].bytes)
  }

  /** What is encoded is on the wire as it should be. */
  lemma {:induction false} EncodedIsWire(t: Type, v: Value)
    requires HasType(v, t)
    ensures Wire(t, v, Encode(t, v))
    decreases t, 1
  {
    hide LaidOut, EncodeSeries, Pack, Holds, LittleEndian, Digits, Parts, FieldParts, ElementParts, ContainerParts;
    match t
    case UInt(k) => LittleEndianDigits(v.n, k);
    case Bool =>
    case Vector(elem, _) => ElementsAreWire(elem, v.items);
    case List(elem, _) => ElementsAreWire(elem, v.items);
    case BitVector(_) => PackHolds(v.bits);
    case BitList(_) => PackHolds(v.bits + [true]);
    case Container(_) => FieldsAreWire(t, v);
  }

  lemma {:induction false} ElementsAreWire(elem: Type, items: seq<Value>)
    requires forall i :: 0 <= i < |items| ==> HasType(items[i], elem)
    ensures ElementParts(elem, items, Parts(elem, items))
    ensures LaidOut(EncodeSeries(Parts(elem, items)), Parts(elem, items))
    decreases elem, 2
  {
    hide LaidOut, EncodeSeries, Encode, Wire, HasType;
    forall i | 0 <= i < |items|
      ensures Wire(elem, items[i], Encode(elem, items[i]))
    {
      EncodedIsWire(elem, items[i]);
    }
    SeriesIsLaidOut(Parts(elem, items));
  }

  lemma {:induction false} FieldsAreWire(t: Type, v: Value)
    requires t.Container? && HasType(v, t)
    ensures ContainerParts(t, v, FieldParts(t, v))
    ensures LaidOut(EncodeSeries(FieldParts(t, v)), FieldParts(t, v))
    decreases t, 0
  {
    hide LaidOut, EncodeSeries, Encode, Wire;
    forall i | 0 <= i < |t.fields|
      ensures Wire(t.fields[i], v.items[i], Encode(t.fields[i], v.items[i]))
    {
      EncodedIsWire(t.fields[i], v.items[i]);
    }
    SeriesIsLaidOut(FieldParts(t, v));
  }

  /** And nothing else is: the wire format of a value is one byte string. */
  lemma {:induction false} WireIsEncoded(t: Type, v: Value, bytes: seq<Byte>)
    requires HasType(v, t) && Wire(t, v, bytes)
    ensures bytes == Encode(t, v)
    decreases t, 1
  {
    hide LaidOut, EncodeSeries, Pack, Holds, LittleEndian, Parts, FieldParts, ElementParts, ContainerParts, Pow256;
    match t
    case UInt(k) => LittleEndianDigits(v.n, k);
    case Bool =>
    case Vector(elem, _) => ElementsAreEncoded(elem, v.items, bytes);
    case List(elem, _) => ElementsAreEncoded(elem, v.items, bytes);
    case BitVector(_) =>
      PackHolds(v.bits);
      OneHolding(bytes, Pack(v.bits), v.bits);
    case BitList(_) =>
      PackHolds(v.bits + [true]);
      OneHolding(bytes, Pack(v.bits + [true]), v.bits + [true]);
    case Container(_) => FieldsAreEncoded(t, v, bytes);
  }

  lemma {:induction false} ElementsAreEncoded(elem: Type, items: seq<Value>, bytes: seq<Byte>)
    requires forall i :: 0 <= i < |items| ==> HasType(items[i], elem)
    requires exists parts :: ElementParts(elem, items, parts) && LaidOut(bytes, parts)
    ensures bytes == EncodeSeries(Parts(elem, items))
    decreases elem, 2
  {
    hide LaidOut, EncodeSeries, Encode, Wire, HasType;
    var parts: seq<Item> :| ElementParts(elem, items, parts) && LaidOut(bytes, parts);
    forall i | 0 <= i < |items|
      ensures parts[i] == Parts(elem, items)[i]
    {
      WireIsEncoded(elem, items[i], parts[i].bytes);
    }
    assert parts == Parts(elem, items);
    SeriesIsLaidOut(parts);
    LayoutIsUnique(bytes, EncodeSeries(parts), parts);
  }

  lemma {:induction false} FieldsAreEncoded(t: Type, v: Value, bytes: seq<Byte>)
    requires t.Container? && HasType(v, t)
    requires exists parts :: ContainerParts(t, v, parts) && LaidOut(bytes, parts)
    ensures bytes == EncodeSeries(FieldParts(t, v))
    decreases t, 0
  {
    hide LaidOut, EncodeSeries, Encode, Wire;
    var parts: seq<Item> :| ContainerParts(t, v, parts) && LaidOut(bytes, parts);
    forall i | 0 <= i < |t.fields|
      ensures parts[i] == FieldParts(t, v)[i]
    {
      WireIsEncoded(t.fields[i], v.items[i], parts[i].bytes);
    }
    assert parts == FieldParts(t, v);
    SeriesIsLaidOut(parts);
    LayoutIsUnique(bytes, EncodeSeries(parts), parts);
  }

  /** Decoding reads a value off its wire format. */
  lemma {:induction false} WireIsRead(t: Type, v: Value, bytes: seq<Byte>)
    requires HasType(v, t) && Sound(t) && Wire(t, v, bytes) && |bytes| < OFFSET_LIMIT
    ensures Decode(t, bytes) == Good(v)
  {
    hide Wire, Sound, Decode, Encode;
    WireIsEncoded(t, v, bytes);
    RoundTrip(t, v);
  }
}
