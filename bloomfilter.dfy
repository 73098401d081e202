// The filter object of bloomfilter.go:10-17 with its methods setBit, testBit,
// Add and Check (lines 30-65) and the integer part of NewBloomFilter
// (lines 77-84). The methods work on the array in place and are specified
// by the functions of FilterSpec and BitStore on its contents.
module Bloom {
  import opened Digest
  import opened BitStore
  import opened FilterSpec

  class BloomFilter {
    // The package never reassigns these after construction; only the words
    // of `state` change. Go exports the first four, and client writes to
    // them are not modelled.
    const capacity: int           // n, as given to the constructor
    const falsePositiveRate: int  // p, for a false-positive rate of 1/p
    const numHashes: int          // k; a negative count runs the loops zero times
    const bitSize: int            // m
    const numBuckets: int         // bitSize / 32, rounded down
    const state: array<bv32>

    /** The object invariant. It reads only constants and the array's length, so no method can break it. */
    ghost predicate Valid()
    {
      bitSize >= WordBits &&
      numBuckets == bitSize / WordBits &&
      state.Length == numBuckets
    }

    /** How many times the loops of Add and Check run: numHashes, or 0 when it is negative. */
    ghost function HashCount(): (count: nat)
      ensures count == 0 <==> numHashes <= 0
      ensures numHashes > 0 ==> count == numHashes
    {
      if numHashes < 0 then 0 else numHashes
    }

    /** The words of the packed array, in order. */
    ghost function Words(): (words: seq<bv32>)
      reads state
      requires Valid()
      ensures |words| == numBuckets > 0
    {
      state[..]
    }

    /**
     * NewBloomFilter after its floating-point sizing: the bit size and the
     * hash count it would compute are given, and the array gets
     * bitSize / 32 zero words.
     */
    constructor (capacity: int, falsePositiveRate: int, bitSize: int, numHashes: int)
      requires bitSize >= WordBits
      ensures Valid() && fresh(state)
      ensures this.capacity == capacity && this.falsePositiveRate == falsePositiveRate
      ensures this.bitSize == bitSize && this.numHashes == numHashes
      ensures forall b :: 0 <= b < state.Length ==> state[b] == 0
      ensures forall j: nat :: !IsSet(Words(), j)
    {
      this.capacity := capacity;
      this.falsePositiveRate := falsePositiveRate;
      this.numHashes := numHashes;
      this.bitSize := bitSize;
      numBuckets := bitSize / WordBits;
      state := new bv32[bitSize / WordBits](_ => 0);
    }

    /** setBit: OR the bit `index` addresses into its word. */
    method SetBit(index: nat)
      requires Valid()
      modifies state
      ensures Valid()
      ensures Words() == WithBit(old(Words()), index)
    {
      var bucket := (index / WordBits) % numBuckets;
      var offset := index % WordBits;
      state[bucket] := state[bucket] | (1 << offset);
    }

    /** testBit: 1 when the bit `index` addresses is set, 0 otherwise. */
    method TestBit(index: nat) returns (bit: int)
      requires Valid()
      ensures bit == 0 || bit == 1
      ensures bit == 1 <==> IsSet(Words(), index)
    {
      var bucket := (index / WordBits) % numBuckets;
      var offset := index % WordBits;
      if state[bucket] & (1 << offset) != 0 {
        bit := 1;
      } else {
        bit := 0;
      }
    }

    /** Add: set every bit derived from the input. */
    method Add(input: seq<Byte>)
      requires Valid()
      modifies state
      ensures Valid()
      ensures Words() == Insert(old(Words()), HashHalves(input), HashCount(), bitSize)
      ensures MayContain(Words(), HashHalves(input), HashCount(), bitSize)
      ensures forall j: nat :: IsSet(old(Words()), j) ==> IsSet(Words(), j)
    {
      var (hashA, hashB) := HashHalves(input);
      ghost var indices := Indices(HashHalves(input), HashCount(), bitSize);
      var i := 0;
      while i < numHashes
        invariant 0 <= i <= HashCount()
        invariant Words() == SetAll(old(Words()), indices[..i])
      {
        var index := DerivedIndex(hashA, hashB, i, bitSize);
        assert indices[..i + 1] == indices[..i] + [index];
        SetBit(index);
        i := i + 1;
      }
      assert indices[..i] == indices;
      InsertThenMayContain(old(Words()), HashHalves(input), HashCount(), bitSize);
      SetAllKeeps(old(Words()), indices);
    }

    /**
     * Check: false at the first derived bit that is not set, true when
     * every derived bit is set.
     */
    method Check(input: seq<Byte>) returns (found: bool)
      requires Valid()
      ensures found == MayContain(Words(), HashHalves(input), HashCount(), bitSize)
      ensures !found <==> (exists p :: 0 <= p < HashCount() && !IsSet(Words(), Indices(HashHalves(input), HashCount(), bitSize)[p]))
    {
      var (hashA, hashB) := HashHalves(input);
      ghost var indices := Indices(HashHalves(input), HashCount(), bitSize);
      var i := 0;
      while i < numHashes
        invariant 0 <= i <= HashCount()
        invariant forall p :: 0 <= p < i ==> IsSet(Words(), indices[p])
      {
        var index := DerivedIndex(hashA, hashB, i, bitSize);
        var bit := TestBit(index);
        if bit != 1 {
          assert !IsSet(Words(), indices[i]);
          return false;
        }
        i := i + 1;
      }
      return true;
    }
  }

  /**
   * TestFalseNegatives of bloomfilter_test.go: add each input to a fresh
   * filter and check it straight away; every check answers true, so the
   * counter reaches the number of inputs.
   */
  method FalseNegativeTrial(inputs: seq<seq<Byte>>, capacity: int, falsePositiveRate: int, bitSize: int, numHashes: int)
    returns (counter: nat)
    requires bitSize >= WordBits
    ensures counter == |inputs|
  {
    var filter := new BloomFilter(capacity, falsePositiveRate, bitSize, numHashes);
    counter := 0;
    for i := 0 to |inputs|
      invariant counter == i
    {
      filter.Add(inputs[i]);
      var found := filter.Check(inputs[i]);
      if found {
        counter := counter + 1;
      }
    }
  }
}
