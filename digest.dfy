// Hashing side of the filter (bloomfilter.go:19-28 and the index expression
// of lines 50 and 59): one 64-bit FNV-1a digest of the input, split into two
// 32-bit halves, from which the Kirsch-Mitzenmacher scheme derives as many bit
// indices as the filter has hash functions.
module Digest {

  type Byte = bv8

  /** 2^32: Go's uint32 arithmetic is arithmetic modulo this number. */
  const Two32: nat := 0x1_0000_0000

  // Parameters of 64-bit FNV-1a, as Go's hash/fnv uses them.
  const FnvOffset64: bv64 := 0xcbf2_9ce4_8422_2325
  const FnvPrime64: bv64 := 0x0000_0100_0000_01b3

  /** FNV-1a from a given state: xor in the next byte, then multiply by the prime. */
  function Fnv1aFrom(h: bv64, data: seq<Byte>): bv64
    decreases |data|
  {
    if |data| == 0 then h else Fnv1aFrom((h ^ data[0] as bv64) * FnvPrime64, data[1..])
  }

  /** The 64-bit FNV-1a digest of `data`. Only the empty-input value is proved; no other proof unfolds it. */
  function Fnv1a64(data: seq<Byte>): (digest: bv64)
    ensures |data| == 0 ==> digest == FnvOffset64
  {
    Fnv1aFrom(FnvOffset64, data)
  }

  /** The two 32-bit halves of a digest, (hashA, hashB) in the Go code. */
  type Halves = (bv32, bv32)

  /** Low and high 32-bit halves of a 64-bit digest (low half first). */
  function SplitDigest(v: bv64): (halves: Halves)
    ensures (halves.1 as bv64 << 32) | halves.0 as bv64 == v
  {
    ((v & 0xFFFF_FFFF) as bv32, (v >> 32) as bv32)
  }

  /** hashFNV1a: the digest of the input as the pair (hashA, hashB). */
  function HashHalves(input: seq<Byte>): (halves: Halves)
    ensures (halves.1 as bv64 << 32) | halves.0 as bv64 == Fnv1a64(input)
  {
    SplitDigest(Fnv1a64(input))
  }

  /** Reduction of an integer to the uint32 range, as a Go uint32 operation wraps. */
  function Wrap32(x: int): (r: nat)
    ensures r < Two32
  {
    x % Two32
  }

  /**
   * The uint32 value `hashA + hashB*uint32(i)` of the Go code: `i` is
   * truncated to 32 bits, and the product and the sum each wrap at 2^32.
   */
  function RawIndex(hashA: nat, hashB: nat, i: nat): (raw: nat)
    ensures raw < Two32
  {
    Wrap32(hashA + Wrap32(hashB * Wrap32(i)))
  }

  /**
   * Index number `i` of an input whose digest halves are hashA and hashB:
   * the uint32 value widened to int64 and reduced modulo the bit size. The
   * widened value is never negative, so Go's truncating `%` is the
   * Euclidean one here.
   */
  function DerivedIndex(hashA: bv32, hashB: bv32, i: nat, bitSize: int): (index: nat)
    requires bitSize > 0
    ensures index < bitSize
  {
    RawIndex(hashA as int, hashB as int, i) % bitSize
  }

  /** Adding a multiple of 2^32 does not change the wrapped value. */
  lemma WrapAddMultiple(x: int, k: int)
    ensures Wrap32(x + k * Two32) == Wrap32(x)
  {
    var q, r := x / Two32, x % Two32;
    assert x + k * Two32 == (q + k) * Two32 + r;
  }

  /** Wrapping an operand of a sum first does not change the wrapped sum. */
  lemma WrapAdd(x: int, y: int)
    ensures Wrap32(x + Wrap32(y)) == Wrap32(x + y)
  {
    WrapAddMultiple(x + Wrap32(y), y / Two32);
  }

  /** Wrapping a factor of a product first does not change the wrapped product. */
  lemma WrapMul(x: int, y: int)
    ensures Wrap32(x * Wrap32(y)) == Wrap32(x * y)
  {
    var q := y / Two32;
    assert x * y == x * Wrap32(y) + (x * q) * Two32;
    WrapAddMultiple(x * Wrap32(y), x * q);
  }

  /** The raw index is the single reduction (hashA + hashB*i) mod 2^32. */
  lemma RawIndexClosedForm(hashA: nat, hashB: nat, i: nat)
    ensures RawIndex(hashA, hashB, i) == Wrap32(hashA + hashB * i)
  {
    WrapMul(hashB, i);
    WrapAdd(hashA, hashB * i);
  }

  /** One more step of the progression adds hashB, modulo 2^32. */
  lemma WrapStep(a: int, b: int, i: nat)
    ensures Wrap32(a + b * (i + 1)) == Wrap32(Wrap32(a + b * i) + b)
  {
    var s := a + b * i;
    assert a + b * (i + 1) == b + s;
    WrapAdd(b, s);
  }

  /** The first raw index is hashA itself. */
  lemma RawIndexStart(hashA: nat, hashB: nat)
    requires hashA < Two32
    ensures RawIndex(hashA, hashB, 0) == hashA
  {
    RawIndexClosedForm(hashA, hashB, 0);
  }

  /**
   * Kirsch-Mitzenmacher: each raw index is the previous one plus hashB,
   * modulo 2^32, so with RawIndexStart the indices are the arithmetic
   * progression modulo 2^32 that starts at hashA and steps by hashB.
   */
  lemma RawIndexStep(hashA: nat, hashB: nat, i: nat)
    ensures RawIndex(hashA, hashB, i + 1) == Wrap32(RawIndex(hashA, hashB, i) + hashB)
  {
    RawIndexClosedForm(hashA, hashB, i);
    RawIndexClosedForm(hashA, hashB, i + 1);
    WrapStep(hashA, hashB, i);
  }
}
