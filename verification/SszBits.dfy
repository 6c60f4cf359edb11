/** Bits packed into bytes, the first bit lowest: bitvectors, and bitlists with their sentinel bit. */
module SszBits {
  import opened Bytes
  import opened Arith
  import opened SszTypes

  // One byte

  /** `b & (1 << k) != 0` */
  function TestBit(b: nat, k: nat): bool {
    if k == 0 then b % 2 == 1 else TestBit(b / 2, k - 1)
  }

  /** `b | (1 << k)` */
  function SetBit(b: nat, k: nat): nat {
    if k == 0 then (b / 2) * 2 + 1 else SetBit(b / 2, k - 1) * 2 + b % 2
  }

  /** The position of the highest set bit: `7 - leading_zeros` on a non-zero byte. */
  function TopBit(b: nat): nat {
    if b < 2 then 0 else 1 + TopBit(b / 2)
  }

  function FromBits(bits: seq<bool>): nat {
    if bits == [] then 0 else (if bits[0] then 1 else 0) + 2 * FromBits(bits[1..])
  }

  lemma {:induction false} FromBitsBounded(bits: seq<bool>)
    ensures FromBits(bits) < Pow2(|bits|)
  {
    if bits != [] {
      FromBitsBounded(bits[1..]);
    }
  }

  lemma {:induction false} TestFromBits(bits: seq<bool>, k: nat)
    ensures TestBit(FromBits(bits), k) == (k < |bits| && bits[k])
  {
    if bits == [] {
      if k > 0 {
        TestFromBits([], k - 1);
      }
    } else {
      hide FromBits;
      LowBit(bits);
      if k > 0 {
        TestFromBits(bits[1..], k - 1);
      }
    }
  }

  lemma LowBit(bits: seq<bool>)
    requires bits != []
    ensures FromBits(bits) % 2 == (if bits[0] then 1 else 0) && FromBits(bits) / 2 == FromBits(bits[1..])
  {
  }

  lemma {:induction false} TopFromBits(bits: seq<bool>)
    requires bits != [] && bits[|bits| - 1]
    ensures FromBits(bits) > 0 && TopBit(FromBits(bits)) == |bits| - 1
  {
    if |bits| > 1 {
      TopFromBits(bits[1..]);
      assert FromBits(bits) / 2 == FromBits(bits[1..]);
    }
  }

  lemma {:induction false} SetNextBit(bits: seq<bool>)
    ensures FromBits(bits + [true]) == SetBit(FromBits(bits), |bits|)
    ensures FromBits(bits + [false]) == FromBits(bits)
  {
    if bits == [] {
      assert [true][1..] == [] && [false][1..] == [];
    } else {
      assert (bits + [true])[1..] == bits[1..] + [true];
      assert (bits + [false])[1..] == bits[1..] + [false];
      assert FromBits(bits) / 2 == FromBits(bits[1..]);
      SetNextBit(bits[1..]);
    }
  }

  // Byte strings

  function ByteOf(bits: seq<bool>): (b: Byte)
    requires |bits| <= 8
  {
    FromBitsBounded(bits);
    Pow2Small(|bits|);
    FromBits(bits)
  }

  lemma Pow2Small(k: nat)
    requires k <= 8
    ensures Pow2(k) <= 256
  {
    assert Pow2(3) == 8 && Pow2(6) == 64 by { assert Pow2(1) == 2; assert Pow2(4) == 16; }
    if k < 8 {
      Pow2Monotone(k, 8);
    }
    assert Pow2(8) == 256;
  }

  lemma {:induction false} Pow2Monotone(j: nat, k: nat)
    requires j <= k
    ensures Pow2(j) <= Pow2(k)
  {
    if j < k {
      Pow2Monotone(j, k - 1);
    }
  }

  /** The bits that byte `j` holds. */
  function Chunk(bits: seq<bool>, j: nat): (chunk: seq<bool>)
    ensures |chunk| <= 8
  {
    if 8 * j >= |bits| then [] else bits[8 * j..Min(8 * j + 8, |bits|)]
  }

  function Pack(bits: seq<bool>): (bytes: seq<Byte>)
    ensures |bytes| == (|bits| + 7) / 8
  {
    seq((|bits| + 7) / 8, j requires 0 <= j => ByteOf(Chunk(bits, j)))
  }

  /** Bit `i` of a byte string. */
  function BitAt(bytes: seq<Byte>, i: nat): bool
    requires i / 8 < |bytes|
  {
    TestBit(bytes[i / 8], i % 8)
  }

  function Unpack(bytes: seq<Byte>, n: nat): (bits: seq<bool>)
    requires n <= 8 * |bytes|
    ensures |bits| == n
  {
    seq(n, i requires 0 <= i < n => BitAt(bytes, i))
  }

  lemma {:induction false} UnpackPack(bits: seq<bool>, n: nat)
    requires n <= |bits|
    ensures Unpack(Pack(bits), n) == bits[..n]
  {
    forall i | 0 <= i < n
      ensures Unpack(Pack(bits), n)[i] == bits[i]
    {
      BitAtPack(bits, i);
    }
  }

  lemma {:induction false} BitAtPack(bits: seq<bool>, i: nat)
    requires i < |bits|
    ensures BitAt(Pack(bits), i) == bits[i]
  {
    var j := i / 8;
    assert Chunk(bits, j)[i % 8] == bits[8 * j + i % 8];
    TestFromBits(Chunk(bits, j), i % 8);
  }

  /** The length a bitlist announces by its highest bit. */
  function ListLength(bytes: seq<Byte>): nat
    requires |bytes| > 0
  {
    (|bytes| - 1) * 8 + TopBit(bytes[|bytes| - 1])
  }

  lemma {:induction false} SentinelMarksLength(bits: seq<bool>)
    ensures var bytes := Pack(bits + [true]);
            |bytes| > 0 && bytes[|bytes| - 1] != 0 && ListLength(bytes) == |bits|
  {
    var marked := bits + [true];
    var last := (|marked| + 7) / 8 - 1;
    var chunk := Chunk(marked, last);
    assert chunk == marked[8 * last..];
    assert chunk[|chunk| - 1];
    TopFromBits(chunk);
  }

  // The loops

  /** `bytes[i / 8] |= (bits[i] as u8) << (i % 8)` over a zeroed buffer of `size` bytes. */
  method PackInto(bits: seq<bool>, size: nat) returns (bytes: seq<Byte>)
    requires |bits| <= 8 * size
    ensures |bytes| == size
    ensures forall j :: 0 <= j < size ==> bytes[j] == ByteOf(Chunk(bits, j))
  {
    hide ByteOf, Chunk, SetBit;
    bytes := Zeros(size);
    NoBits();
    assert bits[..0] == [];
    for i := 0 to |bits|
      invariant |bytes| == size
      invariant forall j :: 0 <= j < size ==> bytes[j] == ByteOf(Chunk(bits[..i], j))
    {
      var j := i / 8;
      NextBit(bits, i);
      bytes := bytes[j := if bits[i] then SetBit(bytes[j], i % 8) else bytes[j]];
    }
    assert bits[..|bits|] == bits;
  }

  method EncodeBitVector(bits: seq<bool>) returns (bytes: seq<Byte>)
    ensures bytes == Pack(bits)
  {
    bytes := PackInto(bits, (|bits| + 7) / 8);
  }

  method EncodeBitList(bits: seq<bool>) returns (bytes: seq<Byte>)
    ensures bytes == Pack(bits + [true])
  {
    var n := |bits|;
    bytes := PackInto(bits, (n + 1 + 7) / 8);
    assert (bits + [true])[..n] == bits && (bits + [true])[..n + 1] == bits + [true];
    NextBit(bits + [true], n);
    bytes := bytes[n / 8 := SetBit(bytes[n / 8], n % 8)];
  }

  /** Reads `n` bits, and fails when the bytes run out. */
  method UnpackLoop(bytes: seq<Byte>, n: nat) returns (r: Decoded<seq<bool>>)
    ensures r == if n <= 8 * |bytes| then Good(Unpack(bytes, n)) else Bad(IncorrectSize)
  {
    var bits := [];
    for i := 0 to n
      invariant i <= 8 * |bytes| && bits == Unpack(bytes, i)
    {
      if i / 8 >= |bytes| {
        return Bad(IncorrectSize);
      }
      bits := bits + [TestBit(bytes[i / 8], i % 8)];
    }
    return Good(bits);
  }

  lemma NoBits()
    ensures forall j: nat :: ByteOf(Chunk([], j)) == 0
  {
  }

  lemma NextBit(bits: seq<bool>, i: nat)
    requires i < |bits|
    ensures forall j: nat :: j != i / 8 ==> Chunk(bits[..i + 1], j) == Chunk(bits[..i], j)
    ensures ByteOf(Chunk(bits[..i + 1], i / 8))
         == if bits[i] then SetBit(ByteOf(Chunk(bits[..i], i / 8)), i % 8) else ByteOf(Chunk(bits[..i], i / 8))
  {
    var chunk := Chunk(bits[..i], i / 8);
    var j := i / 8;
    assert chunk == bits[8 * j..i] && |chunk| == i % 8;
    assert Chunk(bits[..i + 1], j) == bits[8 * j..i + 1] == chunk + [bits[i]];
    SetNextBit(chunk);
    forall j: nat | j != i / 8
      ensures Chunk(bits[..i + 1], j) == Chunk(bits[..i], j)
    {
      if j < i / 8 {
        assert bits[..i + 1][8 * j..8 * j + 8] == bits[..i][8 * j..8 * j + 8];
      }
    }
  }
}
