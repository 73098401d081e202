# Bloom filter over packed 32-bit words, in Dafny

This project models `BloomFilter` of the Go package `bloomfilter`: a
probabilistic set of byte strings kept as a fixed array of `uint32` words.
`Add(input)` hashes the input once with 64-bit FNV-1a, splits the digest into
a low half `hashA` and a high half `hashB`, and for `i` in `0..NumHashes` sets
bit `(hashA + hashB*i) mod 2^32 mod BitSize` (the Kirsch–Mitzenmacher double
hashing scheme). `Check(input)` derives the same indices and answers false at
the first unset bit, true otherwise. Bit `index` lives in word
`(index / 32) % numBuckets` at offset `index % 32`, where
`numBuckets = BitSize / 32`.

Modules, one per layer of bloomfilter.go:

- `Digest` (digest.dfy): FNV-1a, the split of the digest into halves, the
  32-bit wrapping index arithmetic and its closed form.
- `BitStore` (bitstore.dfy): word and offset addressing, the test and set of
  one bit on a sequence of words, and what setting a bit does to every bit.
- `FilterSpec` (filterspec.dfy): the index sequence of an input, what `Add`
  does to the words, what `Check` answers, and the guarantees: no false
  negatives, idempotent `Add`, monotone membership. These functions take the
  digest halves `(hashA, hashB)` of an input rather than the input, so the
  guarantees hold for every input whatever the digest function is.
- `Bloom` (bloomfilter.dfy): the class `BloomFilter` with the array `state`
  and the methods `SetBit`, `TestBit`, `Add`, `Check`. Each method is proved
  against the functions above. `FalseNegativeTrial` is the loop of the
  package's false-negative test.

The model follows the code in places where a reader might expect otherwise:

- The word count is `BitSize / 32`, rounded down. It is not rounded up. When
  `BitSize` is not a multiple of 32, indices at or above `32 * numBuckets`
  wrap round to the low words (`BitStore.Bucket`).
- No hash count of at least 1 is enforced. With `NumHashes == 0`, `Add` does
  nothing and `Check` accepts everything (`FilterSpec.ZeroHashes`).
- The hash count is a signed integer, as in Go. A negative count arises only
  from a negative capacity; the loops of `Add` and `Check` then run zero
  times, exactly as for a count of 0 (`Bloom.BloomFilter.HashCount`).
- The constructor does not validate its arguments. Its only precondition is
  `BitSize >= 32`. For a smaller bit size Go's `setBit` and `testBit` divide
  by zero as soon as `NumHashes > 0`. With `NumHashes <= 0` such a filter
  (for example `NewBloomFilter(10, 2)`) works in Go: `Add` does nothing and
  `Check` answers true. That case is not modelled.

## Model

| member | source | states |
|---|---|---|
| `Digest.Fnv1a64` | bloomfilter.go:24-26 | the 64-bit FNV-1a digest of the input; the digest of the empty input is the FNV offset basis |
| `Digest.SplitDigest` | bloomfilter.go:27 | the two 32-bit halves recombine to the 64-bit digest: the high half shifted left by 32 and OR-ed with the low half is `value64` |
| `Digest.HashHalves` | bloomfilter.go:23-28 | `hashFNV1a` returns the low and high halves of the input's 64-bit FNV-1a digest |
| `Digest.Wrap32` | bloomfilter.go:50 | a uint32 result lies in `[0, 2^32)` |
| `Digest.RawIndex` | bloomfilter.go:50 | the uint32 value `hashA + hashB*uint32(i)`, with every wrap written out, lies in `[0, 2^32)` |
| `Digest.DerivedIndex` | bloomfilter.go:50 | every derived index, after the 32-bit wrap, the widening and `% BitSize`, lies in `[0, BitSize)` |
| `Digest.RawIndexClosedForm` | bloomfilter.go:50 | the wraps of `uint32(i)`, of the product and of the sum collapse into one: the raw index is `(hashA + hashB*i) mod 2^32` |
| `Digest.RawIndexStart` | bloomfilter.go:50 | the raw index for `i = 0` is `hashA` |
| `Digest.RawIndexStep` | bloomfilter.go:49-50 | each raw index is the previous one plus `hashB`, mod 2^32: the arithmetic progression of double hashing |
| `BitStore.Bucket` | bloomfilter.go:31 | the bucket lies in `[0, numBuckets)`; an index below `32 * numBuckets` lands in its own word `[32*b, 32*b + 32)` |
| `BitStore.Offset` | bloomfilter.go:32 | the offset lies in `[0, 32)` and differs from the index by a multiple of 32 |
| `BitStore.Mask` | bloomfilter.go:33 | `1 << offset` is a non-zero word with exactly one bit set |
| `BitStore.IsSet` | bloomfilter.go:39 | testBit's test `state[bucket] & (1 << offset) != 0` holds exactly when bit `offset` of the word, shifted down to position 0, is 1 |
| `BitStore.EveryBitAddressable` | bloomfilter.go:31-32 | every bit of every word is addressed by some index, namely `32*bucket + offset` |
| `BitStore.WithBit` | bloomfilter.go:30-34 | after `setBit(index)`, the length is unchanged, `testBit(index)` is 1, every other word is unchanged and no bit of any word is cleared |
| `BitStore.WithBitExactly` | bloomfilter.go:30-43 | after `setBit(index)`, bit `j` is set exactly when it was set before or `j` addresses the same word and offset as `index` |
| `BitStore.WithBitNoop` | bloomfilter.go:33 | setting a bit that is already set leaves the words equal |
| `BitStore.WithBitIdempotent` | bloomfilter.go:33 | `setBit` twice with one index gives the same words as once |
| `FilterSpec.Indices` | bloomfilter.go:48-50 | the digest halves of an input yield exactly `NumHashes` indices, index `p` being `DerivedIndex` of `p`, each in `[0, BitSize)` |
| `FilterSpec.IndicesClosedForm` | bloomfilter.go:48-59 | index `p` that `Add` and `Check` both use is `(hashA + hashB*p) mod 2^32 mod BitSize` |
| `FilterSpec.SetAll` | bloomfilter.go:49-52 | a run of `setBit` calls keeps the number of words |
| `FilterSpec.Insert` | bloomfilter.go:47-53 | the words after `Add` of an input with the given digest halves; the number of words is unchanged |
| `FilterSpec.MayContain` | bloomfilter.go:56-65 | `Check`'s answer: true exactly when, for every `i` below the hash count, the bit at `DerivedIndex` of `i` is set |
| `FilterSpec.InsertAll` | bloomfilter.go:47-53 | a run of `Add` calls keeps the number of words |
| `FilterSpec.SetAllExactly` | bloomfilter.go:49-52 | after a run of `setBit` calls, bit `j` is set exactly when it was set before or some index of the run addresses it |
| `FilterSpec.SetAllSetsEach` | bloomfilter.go:49-52 | after a run of `setBit` calls, every index of the run tests set |
| `FilterSpec.SetAllKeeps` | bloomfilter.go:33 | a run of `setBit` calls never clears a bit |
| `FilterSpec.SetAllNoop` | bloomfilter.go:33 | a run of `setBit` calls on bits that are all set leaves the words unchanged |
| `FilterSpec.SetAllIdempotent` | bloomfilter.go:49-52 | repeating a run of `setBit` calls leaves the words as after one run |
| `FilterSpec.InsertThenMayContain` | bloomfilter.go:47-65 | right after `Add(x)`, `Check(x)` answers true |
| `FilterSpec.InsertKeepsMembership` | bloomfilter.go:47-65 | `Add(x)` never turns a true answer of `Check(y)` into false |
| `FilterSpec.InsertAllKeepsMembership` | bloomfilter.go:47-65 | no sequence of `Add` calls turns a true answer of `Check(y)` into false |
| `FilterSpec.NoFalseNegatives` | bloomfilter.go:47-65 | after `Add(x)` and any further `Add` calls, `Check(x)` answers true, for any digest halves of `x` |
| `FilterSpec.NoFalseNegativesForInputs` | bloomfilter.go:47-65 | the same for byte inputs hashed with FNV-1a: `Add(x)`, then `Add` of any list of inputs, then `Check(x)` answers true |
| `FilterSpec.InsertIdempotent` | bloomfilter.go:47-53 | `Add(x)` twice leaves the words as `Add(x)` once |
| `FilterSpec.ZeroHashes` | bloomfilter.go:47-65 | with `NumHashes == 0`, `Add` leaves the words unchanged and `Check` answers true for every input |
| `Bloom.BloomFilter.HashCount` | bloomfilter.go:49 | the number of times the loop `for i := 0; i < NumHashes; i++` runs: 0 when `NumHashes <= 0`, else `NumHashes` |
| `Bloom.BloomFilter.constructor` | bloomfilter.go:73-85 | the filter keeps the given parameters, `numBuckets = BitSize / 32`, the array is fresh, every word is zero and no bit tests set |
| `Bloom.BloomFilter.SetBit` | bloomfilter.go:30-34 | the array becomes `WithBit` of its old contents and nothing else is modified |
| `Bloom.BloomFilter.TestBit` | bloomfilter.go:36-44 | returns 1 or 0, and 1 exactly when the addressed bit is set; it modifies nothing |
| `Bloom.BloomFilter.Add` | bloomfilter.go:47-53 | the array becomes `Insert` of its old contents over `HashCount()` indices, `Check` of the input is then true, and every bit set before stays set |
| `Bloom.BloomFilter.Check` | bloomfilter.go:56-65 | modifies nothing; returns true exactly when each of the `HashCount()` derived bits is set, false exactly when some derived bit is unset |
| `Bloom.FalseNegativeTrial` | bloomfilter_test.go:9-35 | adding each input to a fresh filter and checking it at once counts every input as found |

## Left out

- Floating-point sizing in `NewBloomFilter` (bloomfilter.go:74-76): `BitSize` and `NumHashes` come from `math.Log2`, `math.Log`, `math.Ceil` and `math.Abs`, and the constructor takes both as arguments. The code divides `bitSize / capacity` in integers before multiplying by ln 2, so `capacity == 0` divides by zero. That case is not modelled.
- `Bloom.BloomFilter.constructor`: requires `BitSize >= 32`. For a smaller bit size Go's `setBit` and `testBit` divide by zero as soon as `NumHashes > 0`. With `NumHashes <= 0` such a filter (for example `NewBloomFilter(10, 2)`) works in Go, with `Add` doing nothing and `Check` answering true; it is not modelled. Any hash count is accepted, a negative one included.
- FNV-1a (Go's `hash/fnv`, bloomfilter.go:24-26) is written out as the standard 64-bit FNV-1a. Only its value on the empty input is proved; no other proof unfolds it. The `FilterSpec` guarantees are stated over the digest halves, so they hold for any 64-bit digest function.
- The false-positive-rate test (bloomfilter_test.go:37-75) is a statistical comparison of floats over random data. It is not modelled. Random input generation in the tests is replaced by an input sequence parameter.
- Go's `int64` range for `BitSize` and `index`: modelled as unbounded integers. The raw index is below 2^32, so no 64-bit overflow is possible in the Go code.
- The fields `Capacity` and `FalsePositiveRate` are stored but never used by any operation, as in the Go code.
- `Bloom.BloomFilter`: its fields are `const`. Go exports `NumHashes`, `BitSize`, `Capacity` and `FalsePositiveRate` (bloomfilter.go:11-14), and `Add` and `Check` re-read `NumHashes` and `BitSize` on every call. A client that reassigns `NumHashes` or `BitSize` between `Add(x)` and `Check(x)` can get a false negative. The package itself never writes them after construction, and the model rules such writes out, so `NoFalseNegatives` and the contract of `Add` assume they do not happen.
