// The packed bit array of bloomfilter.go:30-44: bit `index` lives in word
// `(index / 32) % numBuckets`, at offset `index % 32` within that word. The
// words are a sequence here; the filter class keeps them in an array and is
// specified by these functions.
module BitStore {

  /** Width of one word of the packed array (Go's uint32). */
  const WordBits: nat := 32

  /**
   * Word holding bit `index`. An index below 32 * numBuckets lands in its
   * own word; a larger one (possible when the bit size is not a multiple of
   * 32) wraps round to a low word.
   */
  function Bucket(index: nat, numBuckets: nat): (bucket: nat)
    requires numBuckets > 0
    ensures bucket < numBuckets
    ensures index < WordBits * numBuckets ==> WordBits * bucket <= index < WordBits * bucket + WordBits
  {
    (index / WordBits) % numBuckets
  }

  /** Position of bit `index` within its word. */
  function Offset(index: nat): (offset: nat)
    ensures offset < WordBits
    ensures (index - offset) % WordBits == 0
  {
    index % WordBits
  }

  /** The word with only bit `offset` set: `1 << offset`. */
  function Mask(offset: nat): (m: bv32)
    requires offset < WordBits
    ensures m != 0 && m & (m - 1) == 0
  {
    1 << offset
  }

  /** Indices i and j address the same bit of a store of numBuckets words. */
  predicate SameBit(i: nat, j: nat, numBuckets: nat)
    requires numBuckets > 0
  {
    Bucket(i, numBuckets) == Bucket(j, numBuckets) && Offset(i) == Offset(j)
  }

  /** testBit's condition: the addressed bit of the addressed word is 1. */
  predicate IsSet(words: seq<bv32>, index: nat): (isSet: bool)
    requires |words| > 0
    ensures isSet <==> (words[Bucket(index, |words|)] >> Offset(index)) & 1 == 1
  {
    words[Bucket(index, |words|)] & Mask(Offset(index)) != 0
  }

  /** setBit's effect: the addressed word ORed with the mask of the addressed bit. */
  function WithBit(words: seq<bv32>, index: nat): (r: seq<bv32>)
    requires |words| > 0
    ensures |r| == |words|
    ensures IsSet(r, index)
    ensures forall b :: 0 <= b < |words| && b != Bucket(index, |words|) ==> r[b] == words[b]
    ensures forall b :: 0 <= b < |words| ==> r[b] & words[b] == words[b]
  {
    var bucket := Bucket(index, |words|);
    words[bucket := words[bucket] | Mask(Offset(index))]
  }

  /** A bit of the store exists for every word and offset. */
  lemma EveryBitAddressable(numBuckets: nat, bucket: nat, offset: nat)
    requires bucket < numBuckets && offset < WordBits
    ensures var index := WordBits * bucket + offset;
      Bucket(index, numBuckets) == bucket && Offset(index) == offset
  {
    var index := WordBits * bucket + offset;
    assert index / WordBits == bucket;
  }

  /** OR-ing a single-bit mask into a word leaves every other bit as it was. */
  lemma MaskOrAt(x: bv32, a: nat, b: nat)
    requires a < WordBits && b < WordBits
    ensures (x | Mask(a)) & Mask(b) != 0 <==> x & Mask(b) != 0 || a == b
  {
  }

  /**
   * After setBit(index), exactly the bits that were set before and the bit
   * `index` addresses are set.
   */
  lemma WithBitExactly(words: seq<bv32>, index: nat, j: nat)
    requires |words| > 0
    ensures IsSet(WithBit(words, index), j) <==> IsSet(words, j) || SameBit(index, j, |words|)
  {
    var n := |words|;
    if Bucket(j, n) == Bucket(index, n) {
      MaskOrAt(words[Bucket(j, n)], Offset(index), Offset(j));
    }
  }

  /** OR-ing in a single-bit word whose bit is already set gives the same word. */
  lemma SingleBitOrNoop(x: bv32, m: bv32)
    requires m != 0 && m & (m - 1) == 0
    requires x & m != 0
    ensures x | m == x
  {
    assert x & m == m;
  }

  /** Setting a bit that is already set changes nothing. */
  lemma WithBitNoop(words: seq<bv32>, index: nat)
    requires |words| > 0
    requires IsSet(words, index)
    ensures WithBit(words, index) == words
  {
    var bucket := Bucket(index, |words|);
    SingleBitOrNoop(words[bucket], Mask(Offset(index)));
    assert WithBit(words, index) == words[bucket := words[bucket]];
  }

  /** setBit is idempotent. */
  lemma WithBitIdempotent(words: seq<bv32>, index: nat)
    requires |words| > 0
    ensures WithBit(WithBit(words, index), index) == WithBit(words, index)
  {
    WithBitNoop(WithBit(words, index), index);
  }
}
