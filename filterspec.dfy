// What Add and Check do to, and read from, the packed words
// (bloomfilter.go:47-65), as functions of the words, the digest halves of the
// input and the two sizing parameters, and the no-false-negatives guarantee
// proved about them.
module FilterSpec {
  import opened Digest
  import opened BitStore

  /**
   * The indices Add and Check derive from the digest halves of an input, in
   * the order of their loops.
   */
  function Indices(halves: Halves, numHashes: nat, bitSize: int): (indices: seq<nat>)
    requires bitSize > 0
    ensures |indices| == numHashes
    ensures forall p :: 0 <= p < numHashes ==> indices[p] < bitSize
    ensures forall p :: 0 <= p < numHashes ==> indices[p] == DerivedIndex(halves.0, halves.1, p, bitSize)
  {
    seq(numHashes, i requires 0 <= i < numHashes => DerivedIndex(halves.0, halves.1, i, bitSize))
  }

  /** Index number p is (hashA + hashB*p) mod 2^32, then mod bitSize. */
  lemma IndicesClosedForm(halves: Halves, numHashes: nat, bitSize: int, p: nat)
    requires bitSize > 0 && p < numHashes
    ensures Indices(halves, numHashes, bitSize)[p] == Wrap32(halves.0 as int + halves.1 as int * p) % bitSize
  {
    RawIndexClosedForm(halves.0 as int, halves.1 as int, p);
  }

  /** The words after setBit has been applied to each index in turn. */
  function SetAll(words: seq<bv32>, indices: seq<nat>): (r: seq<bv32>)
    requires |words| > 0
    ensures |r| == |words|
    decreases |indices|
  {
    if |indices| == 0 then words
    else WithBit(SetAll(words, indices[..|indices| - 1]), indices[|indices| - 1])
  }

  /** The words after Add of an input with these digest halves. */
  function Insert(words: seq<bv32>, halves: Halves, numHashes: nat, bitSize: int): (r: seq<bv32>)
    requires |words| > 0 && bitSize > 0
    ensures |r| == |words|
  {
    SetAll(words, Indices(halves, numHashes, bitSize))
  }

  /** The words after Add has been called on inputs with these digest halves, in turn. */
  function InsertAll(words: seq<bv32>, history: seq<Halves>, numHashes: nat, bitSize: int): (r: seq<bv32>)
    requires |words| > 0 && bitSize > 0
    ensures |r| == |words|
    decreases |history|
  {
    if |history| == 0 then words
    else Insert(InsertAll(words, history[..|history| - 1], numHashes, bitSize), history[|history| - 1], numHashes, bitSize)
  }

  /** Check's answer for an input with these digest halves: every derived bit is set. */
  predicate MayContain(words: seq<bv32>, halves: Halves, numHashes: nat, bitSize: int): (answer: bool)
    requires |words| > 0 && bitSize > 0
    ensures answer <==> forall i :: 0 <= i < numHashes ==> IsSet(words, DerivedIndex(halves.0, halves.1, i, bitSize))
  {
    var indices := Indices(halves, numHashes, bitSize);
    forall p :: 0 <= p < numHashes ==> IsSet(words, indices[p])
  }

  /** The digest halves of each input, in order. */
  function HashAll(inputs: seq<seq<Byte>>): (history: seq<Halves>)
    ensures |history| == |inputs|
    ensures forall i :: 0 <= i < |inputs| ==> history[i] == HashHalves(inputs[i])
  {
    seq(|inputs|, i requires 0 <= i < |inputs| => HashHalves(inputs[i]))
  }

  /**
   * A bit is set after a run of setBit calls exactly when it was set before
   * or one of the indices addresses it.
   */
  lemma {:induction false} SetAllExactly(words: seq<bv32>, indices: seq<nat>, j: nat)
    requires |words| > 0
    ensures IsSet(SetAll(words, indices), j) <==>
      IsSet(words, j) || exists p :: 0 <= p < |indices| && SameBit(indices[p], j, |words|)
    decreases |indices|
  {
    if |indices| > 0 {
      var n := |indices|;
      var init := indices[..n - 1];
      SetAllExactly(words, init, j);
      WithBitExactly(SetAll(words, init), indices[n - 1], j);
      if exists p :: 0 <= p < n && SameBit(indices[p], j, |words|) {
        var p :| 0 <= p < n && SameBit(indices[p], j, |words|);
        if p < n - 1 {
          assert init[p] == indices[p];
        }
      }
      if exists p :: 0 <= p < n - 1 && SameBit(init[p], j, |words|) {
        var p :| 0 <= p < n - 1 && SameBit(init[p], j, |words|);
        assert indices[p] == init[p];
      }
    }
  }

  /** After a run of setBit calls, every index of the run tests set. */
  lemma SetAllSetsEach(words: seq<bv32>, indices: seq<nat>)
    requires |words| > 0
    ensures forall p :: 0 <= p < |indices| ==> IsSet(SetAll(words, indices), indices[p])
  {
    forall p | 0 <= p < |indices|
      ensures IsSet(SetAll(words, indices), indices[p])
    {
      SetAllExactly(words, indices, indices[p]);
    }
  }

  /** A run of setBit calls never clears a bit. */
  lemma SetAllKeeps(words: seq<bv32>, indices: seq<nat>)
    requires |words| > 0
    ensures forall j: nat :: IsSet(words, j) ==> IsSet(SetAll(words, indices), j)
  {
    forall j: nat | IsSet(words, j)
      ensures IsSet(SetAll(words, indices), j)
    {
      SetAllExactly(words, indices, j);
    }
  }

  /** A run of setBit calls on bits that are all set already changes nothing. */
  lemma {:induction false} SetAllNoop(words: seq<bv32>, indices: seq<nat>)
    requires |words| > 0
    requires forall p :: 0 <= p < |indices| ==> IsSet(words, indices[p])
    ensures SetAll(words, indices) == words
    decreases |indices|
  {
    if |indices| > 0 {
      var n := |indices|;
      SetAllNoop(words, indices[..n - 1]);
      WithBitNoop(words, indices[n - 1]);
    }
  }

  /** Repeating a run of setBit calls changes nothing. */
  lemma SetAllIdempotent(words: seq<bv32>, indices: seq<nat>)
    requires |words| > 0
    ensures SetAll(SetAll(words, indices), indices) == SetAll(words, indices)
  {
    SetAllSetsEach(words, indices);
    SetAllNoop(SetAll(words, indices), indices);
  }

  /** Right after Add(x), Check(x) answers true. */
  lemma InsertThenMayContain(words: seq<bv32>, halves: Halves, numHashes: nat, bitSize: int)
    requires |words| > 0 && bitSize > 0
    ensures MayContain(Insert(words, halves, numHashes, bitSize), halves, numHashes, bitSize)
  {
    SetAllSetsEach(words, Indices(halves, numHashes, bitSize));
  }

  /** Add(x) never turns a true answer of Check(y) into a false one. */
  lemma InsertKeepsMembership(words: seq<bv32>, halves: Halves, other: Halves, numHashes: nat, bitSize: int)
    requires |words| > 0 && bitSize > 0
    requires MayContain(words, other, numHashes, bitSize)
    ensures MayContain(Insert(words, halves, numHashes, bitSize), other, numHashes, bitSize)
  {
    SetAllKeeps(words, Indices(halves, numHashes, bitSize));
  }

  /** Any further sequence of Add calls keeps a true answer of Check true. */
  lemma {:induction false} InsertAllKeepsMembership(words: seq<bv32>, history: seq<Halves>, other: Halves, numHashes: nat, bitSize: int)
    requires |words| > 0 && bitSize > 0
    requires MayContain(words, other, numHashes, bitSize)
    ensures MayContain(InsertAll(words, history, numHashes, bitSize), other, numHashes, bitSize)
    decreases |history|
  {
    if |history| > 0 {
      var n := |history|;
      InsertAllKeepsMembership(words, history[..n - 1], other, numHashes, bitSize);
      InsertKeepsMembership(InsertAll(words, history[..n - 1], numHashes, bitSize), history[n - 1], other, numHashes, bitSize);
    }
  }

  /**
   * No false negatives: once an input has been added, Check answers true
   * for it, whatever is added afterwards. Stated for any digest halves, so
   * it holds for every input whatever the digest function.
   */
  lemma NoFalseNegatives(words: seq<bv32>, halves: Halves, later: seq<Halves>, numHashes: nat, bitSize: int)
    requires |words| > 0 && bitSize > 0
    ensures MayContain(InsertAll(Insert(words, halves, numHashes, bitSize), later, numHashes, bitSize), halves, numHashes, bitSize)
  {
    InsertThenMayContain(words, halves, numHashes, bitSize);
    InsertAllKeepsMembership(Insert(words, halves, numHashes, bitSize), later, halves, numHashes, bitSize);
  }

  /** NoFalseNegatives for byte inputs hashed with FNV-1a, as the filter does. */
  lemma NoFalseNegativesForInputs(words: seq<bv32>, input: seq<Byte>, later: seq<seq<Byte>>, numHashes: nat, bitSize: int)
    requires |words| > 0 && bitSize > 0
    ensures var halves := HashHalves(input);
      MayContain(InsertAll(Insert(words, halves, numHashes, bitSize), HashAll(later), numHashes, bitSize), halves, numHashes, bitSize)
  {
    NoFalseNegatives(words, HashHalves(input), HashAll(later), numHashes, bitSize);
  }

  /** Adding the same input twice leaves the words as adding it once. */
  lemma InsertIdempotent(words: seq<bv32>, halves: Halves, numHashes: nat, bitSize: int)
    requires |words| > 0 && bitSize > 0
    ensures Insert(Insert(words, halves, numHashes, bitSize), halves, numHashes, bitSize)
         == Insert(words, halves, numHashes, bitSize)
  {
    SetAllIdempotent(words, Indices(halves, numHashes, bitSize));
  }

  /** With no hash functions, Add changes nothing and Check accepts every input. */
  lemma ZeroHashes(words: seq<bv32>, halves: Halves, bitSize: int)
    requires |words| > 0 && bitSize > 0
    ensures Insert(words, halves, 0, bitSize) == words
    ensures MayContain(words, halves, 0, bitSize)
  {
  }
}
