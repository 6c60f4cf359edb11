/** Bytes, 32-byte hashes and little-endian integers. */
module Bytes {
  import Arith

  type Byte = b: int | 0 <= b < 256
  type Hash = h: seq<Byte> | |h| == 32 witness seq(32, _ => 0)

  // H256::default()
  const ZERO_HASH: Hash := Zeros(32)

  function Zeros(n: nat): (zeros: seq<Byte>)
    ensures |zeros| == n
    ensures forall i :: 0 <= i < n ==> zeros[i] == 0
  {
    seq(n, _ => 0)
  }

  /** The `k` low-order bytes of `n`, least significant first. */
  function LittleEndian(n: nat, k: nat): (bytes: seq<Byte>)
    ensures |bytes| == k
  {
    if k == 0 then [] else [n % 256] + LittleEndian(n / 256, k - 1)
  }

  /** The integer a little-endian byte string denotes. */
  function FromLittleEndian(bytes: seq<Byte>): (n: nat)
  {
    if bytes == [] then 0 else bytes[0] + 256 * FromLittleEndian(bytes[1..])
  }

  function Pow2(k: nat): (p: nat)
    ensures p >= 1
  {
    if k == 0 then 1 else 2 * Pow2(k - 1)
  }

  function Pow256(k: nat): (p: nat)
    ensures p >= 1
  {
    if k == 0 then 1 else 256 * Pow256(k - 1)
  }

  /** Writing `n` in `k` bytes and reading it back loses exactly the part of `n` above 256^k. */
  lemma {:induction false} LittleEndianRoundTrip(n: nat, k: nat)
    ensures FromLittleEndian(LittleEndian(n, k)) == n % Pow256(k)
  {
    if k == 0 {
    } else {
      LittleEndianRoundTrip(n / 256, k - 1);
      var p := Pow256(k - 1);
      assert LittleEndian(n, k)[1..] == LittleEndian(n / 256, k - 1);
      ModSplit(n, p);
    }
  }

  lemma ModSplit(n: nat, p: nat)
    requires p >= 1
    ensures n % (256 * p) == n % 256 + 256 * ((n / 256) % p)
  {
    var m, r := n / 256, n % 256;
    var q, t := m / p, m % p;
    assert n == 256 * (q * p + t) + r;
    assert n == q * (256 * p) + (256 * t + r);
    assert 0 <= 256 * t + r < 256 * p;
    Arith.DivModUnique(n, 256 * p, q, 256 * t + r);
    Arith.DivModAreOperators(n, 256 * p);
  }

  /** The first bytes are the low-order part. */
  lemma {:induction false} LowBytes(a: seq<Byte>, b: seq<Byte>)
    ensures LittleEndian(FromLittleEndian(a + b), |a|) == a
  {
    hide FromLittleEndian, LittleEndian;
    if a == [] {
      NoBytes(FromLittleEndian(a + b));
    } else {
      assert (a + b)[1..] == a[1..] + b;
      LowByte(a + b);
      NextByte(FromLittleEndian(a + b), |a|);
      LowBytes(a[1..], b);
    }
  }

  lemma NoBytes(n: nat)
    ensures LittleEndian(n, 0) == []
  {
  }

  lemma NextByte(n: nat, k: nat)
    requires k > 0
    ensures LittleEndian(n, k) == [n % 256] + LittleEndian(n / 256, k - 1)
  {
  }

  lemma LowByte(bytes: seq<Byte>)
    requires bytes != []
    ensures FromLittleEndian(bytes) % 256 == bytes[0]
    ensures FromLittleEndian(bytes) / 256 == FromLittleEndian(bytes[1..])
  {
  }
}
