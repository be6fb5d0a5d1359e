# Hand-ranking database of sapphire-hodlem, in Dafny

This project models `py/genset.py` from the sapphire-hodlem poker repository. That
script builds the hand-ranking database, which the on-chain game later uses to prove
hand strengths. It:

- numbers the 52 cards 0..51, rank-major;
- packs each card into Cactus Kev's 32-bit evaluator word;
- scores every five-card hand with `eval5`;
- files each hand under its index in the combinatorial number system
  (`hand_to_index`, a bijection onto 0 .. C(52, 5) - 1);
- writes one 7-byte record per hand (five card bytes, then a little-endian 16-bit
  score) to `scores.leaf`, in index order;
- builds a Merkle tree over the SHA-256 digests of those records. It writes one file
  per pass (`scores.00`, `scores.01`, ...) and the root to `scores.root`.

Modules, one per part of the script:

- `Combinatorics`: `math.comb`, `sorted`, `hand_to_index` and its inverse `Unrank`,
  and `itertools.combinations` over `range(n)`.
- `Cards`: the `_SUITS`/`_RANKS`/`_PRIMES`/`_DECK` words and the `DECK`/`DECKIDX`
  names. `Bits` holds bit-vector facts the evaluator's proofs rest on.
- `Evaluator`: `hash_function`, `eval5` and `eval7`. The `poker_data` tables are a
  parameter, constrained only by their sizes.
- `LeafEncoding`: the leaf record format and its decoder.
- `Merkle`: one pass of the tree loop (`HashLevel`) and the whole loop (`BuildTree`),
  both as imperative methods proved equal to the functions `NextLevel` and
  `BuildFrom`.
- `RankingDatabase`: `main`. Its three loops are methods: `ScoreHands`/`BuildOffsets`
  fill the `offsets` dictionary, `HashLeaves` writes the leaf file and the while loop
  is `Merkle.BuildTree`. `BuildDatabase` runs the first and checks the hand count;
  `WriteFiles` runs the other two. Each file is modelled by the
  bytes written to it.

SHA-256 is a parameter `h` of type `seq<Byte> -> Digest`. Every property about the
tree holds for any such function.

The `poker_data` tables are a parameter of any size. A lookup past the end of a table
is Python's IndexError, an error result here. `Evaluator.StandardSizes` asks for at least
7937 entries in FLUSHES and UNIQUE_5 (one per rank mask up to 0x1F00), 512 in
HASH_ADJUST and 8192 in HASH_VALUES. `Eval5` never fails on such tables, because the
rank mask of five cards is at most 0x1F00.

The database methods are stated for the five-card hands of the first `n` cards,
`n <= 52`. `DeckChoose` (C(52, 5) = 2598960) specialises them to the real deck, where
`BuildDatabase` succeeds exactly when every hand's score exists and fits in 16 bits.

Two facts about the tree loop, as the code has them:

- The fill node for the odd last node of pass `level` is 32 copies of `level`
  (`Merkle.Fill`).
- For 2598960 leaves the loop runs 22 passes and writes 22 level files, `scores.00` to
  `scores.21` (`RankingDatabase.DeckTreeDepth`). The last of them holds the root alone.

## Model

| member | source | states |
|---|---|---|
| Combinatorics.Choose | py/genset.py:58 | math.comb(n, k) is zero exactly when k > n |
| Combinatorics.ChooseFiftyTwoFive | py/genset.py:86 | C(52, 5) is 2598960, the count main asserts |
| Combinatorics.Sort | py/genset.py:57 | the result is ascending and a permutation of the input |
| Combinatorics.CombIndex | py/genset.py:58 | the index of a combination whose largest element is c is at least C(c, k), and below C(c + 1, k) when the combination is strictly increasing |
| Combinatorics.HandToIndex | py/genset.py:56-58 | on a list that is already ascending, hand_to_index is the combinatorial index of the list as given |
| Combinatorics.HandToIndexOrderFree | py/genset.py:56-58 | two card lists with the same elements have the same index, so the order cards are given in does not matter |
| Combinatorics.CombIndexBelow | py/genset.py:58 | the index of a strictly increasing k-sequence below n is below C(n, k) |
| Combinatorics.CombIndexInjective | py/genset.py:58 | two strictly increasing sequences of the same length with the same index are equal |
| Combinatorics.Unrank | py/genset.py:56-58 | for every m < C(n, k) there is a strictly increasing k-sequence below n whose index is m |
| Combinatorics.UnrankCombIndex | py/genset.py:56-58 | unranking the index of a combination gives the combination back |
| Combinatorics.Combinations | py/genset.py:70 | itertools.combinations(range(lo, n), k) yields C(n - lo, k) tuples |
| Combinatorics.CombinationsSound | py/genset.py:70 | every element of the enumeration is a k-combination of lo..n-1 in ascending order |
| Combinatorics.CombinationsComplete | py/genset.py:70 | every ascending k-combination of lo..n-1 is enumerated |
| Combinatorics.IndexIsBijection | py/genset.py:56-58 | over the k-combinations of range(n), hand_to_index is below C(n, k), reaches every such index and is injective |
| Cards.CardOf | py/genset.py:19-20 | the card built from (rank, suit) has that rank and suit, as the rank-major product orders them |
| Cards.CardOfRankSuit | py/genset.py:19-20 | every id is 4 * rank + suit of its own rank and suit |
| Cards.SuitAsWritten | py/genset.py:16 | _SUITS[s] is 1 << (s + 12) |
| Cards.RankAsWritten | py/genset.py:17 | _RANKS[r] is (1 << (r + 16)) \| (r << 8) |
| Cards.RankBitAsWritten | py/genset.py:41 | the rank bit that q collects for rank r is 1 << r |
| Cards.Word | py/genset.py:19-20 | a card's word has the rank's prime in the low byte, only the suit's bit in bits 12-15 and only the rank's bit from bit 16 up |
| Cards.WordFields | py/genset.py:16-20 | field by field: prime in bits 0-7, rank r in bits 8-11, bit 12 + s, bit 16 + r |
| Cards.Name | py/genset.py:22-25 | DECKIDX[DECK[c]] is c for every card, so the 52 names are distinct |
| Cards.IndexOf | py/genset.py:25 | the first position of a character, or none when it does not occur |
| Cards.IdOfName | py/genset.py:24-25 | DECKIDX has a key exactly for a rank character followed by a suit character, and a name it accepts is DECK of its id |
| Cards.LookupOfName | py/genset.py:19-26 | LOOKUP[DECK[c]] is the word _DECK[c] of card c, because DECK and _DECK come from the same rank-major product |
| Cards.LookupOnlyNames | py/genset.py:24-26 | LOOKUP has no other keys: a name it accepts is DECK of some card and maps to that card's word |
| Evaluator.Mix | py/genset.py:29-33 | after the 32-bit mask the mixed value is below 2^32 |
| Evaluator.MixDoesNotWrap | py/genset.py:29-31 | for inputs below 2^32 neither addition overflows 64 bits, so the fixed-width words equal Python's unbounded integers |
| Evaluator.BucketIndex | py/genset.py:34 | b is below 512, a valid HASH_ADJUST index |
| Evaluator.ValueIndex | py/genset.py:35-36 | r is below 8192, a valid HASH_VALUES index, whatever the HASH_ADJUST entry |
| Evaluator.HashFunction | py/genset.py:28-37 | a result is an entry of HASH_VALUES; with 512 HASH_ADJUST and 8192 HASH_VALUES entries neither lookup fails |
| Evaluator.IsFlush | py/genset.py:42 | the flush test is nonzero exactly when all five cards share a suit |
| Evaluator.FlushTestOfCards | py/genset.py:42 | the and of the five words with 0xf000 is nonzero exactly when the five suits are equal |
| Evaluator.SuitsMeet | py/genset.py:42 | five suit bits meet exactly when the suits are equal |
| Evaluator.RankMask | py/genset.py:41 | q is at most 0x1F00, and its bit r is set exactly when some card has rank r |
| Evaluator.RankMaskOfCards | py/genset.py:41 | the or of the five words shifted down by 16 is the or of the five rank bits, below 2^13 |
| Evaluator.RanksMeet | py/genset.py:41 | the or of five rank bits has bit r exactly when r is one of the five ranks |
| Evaluator.PrimeField | py/genset.py:47 | c & 0xff is the prime of the card's rank, between 2 and 41 |
| Evaluator.PrimeRange | py/genset.py:18 | every entry of _PRIMES is between 2 and 41 |
| Evaluator.PrimeProduct | py/genset.py:47 | the prime product is at most 41^5, so it is below 2^32 |
| Evaluator.ProductBounds | py/genset.py:47 | five factors of at most 41 multiply to at most 115856201 |
| Evaluator.Eval5 | py/genset.py:39-48 | a flush scores FLUSHES[q]; otherwise a nonzero UNIQUE_5[q] is the score; otherwise the score is hash_function of the prime product; a read past the end of FLUSHES or UNIQUE_5 is an IndexError; a score is an entry of one of the tables; tables of the standard sizes never fail |
| Evaluator.MinOf | py/genset.py:51 | min fails exactly on an empty sequence; otherwise it returns an element no element is below |
| Evaluator.Collect | py/genset.py:51 | draining the generator fails exactly when some lookup fails; otherwise it holds every value, in order |
| Evaluator.Scores | py/genset.py:51 | the generator fails exactly when the eval5 of some position tuple fails; otherwise it holds one eval5 score per tuple, in order |
| Evaluator.Eval7 | py/genset.py:50-51 | fails exactly for fewer than five cards or when the eval5 of some five-card sub-hand fails; otherwise the result is the eval5 score of some five-card sub-hand and at most the score of every five-card sub-hand |
| Evaluator.CombinationsOfHand | py/genset.py:51 | itertools.combinations(hand, 5) yields exactly the 5-subsets of positions, and none when the hand has fewer than five cards |
| Evaluator.MinOverCombinations | py/genset.py:51 | the minimum over the enumerated sub-hands fails as eval7 does, and otherwise is attained by one sub-hand and bounds all of them |
| LeafEncoding.ToBytes | py/genset.py:94 | bytes(z) succeeds exactly when every element is below 256, and then holds z |
| LeafEncoding.PackU16 | py/genset.py:94 | struct.pack('<H') succeeds exactly below 65536 and gives low byte + 256 * high byte = score |
| LeafEncoding.EncodeLeaf | py/genset.py:94 | the entry exists exactly when the cards are bytes and the score fits in 16 bits; it is the cards followed by the score's two little-endian bytes |
| LeafEncoding.DecodeLeaf | py/genset.py:94 | a 7-byte record decodes to five cards and a score below 65536; anything else does not decode |
| LeafEncoding.DecodeEncode | py/genset.py:94 | decoding the entry of a five-card hand gives back the hand and the score |
| LeafEncoding.EncodeDecode | py/genset.py:94 | every 7-byte record is the entry of what it decodes to |
| Merkle.Fill | py/genset.py:107 | bytes([level] * 32) exists exactly for level < 256, and is 32 copies of level |
| Merkle.Join | py/genset.py:110 | p + n is 64 bytes: p, then n |
| Merkle.NextLevel | py/genset.py:104-112 | a pass fails exactly for an odd width at level 256 or more; otherwise it has ceil(w / 2) nodes, node i hashes nodes 2i and 2i + 1, and an odd last node is hashed with the fill |
| Merkle.HashLevel | py/genset.py:105-112 | the inner for loop computes exactly NextLevel |
| Merkle.Concat | py/genset.py:111-112 | a level file holds node i at bytes 32i .. 32i + 31 |
| Merkle.BuildFrom | py/genset.py:101-116 | with at most 2^(256 - level) nodes the fill never runs out of byte values, so the passes complete |
| Merkle.BuildTree | py/genset.py:99-116 | the while loop computes exactly BuildFrom from level 0 |
| Merkle.TreeStart | py/genset.py:99-103 | one level per width; no pass for a single leaf, which is then the root; otherwise the first width is the leaf count and the first level is a pass over the leaves |
| Merkle.TreeCons | py/genset.py:101-116 | a tree of more than one node is its first pass followed by the tree of the level that pass produced |
| Merkle.TreeHalves | py/genset.py:101-112 | every recorded width is at least two and its pass produces ceil(width / 2) nodes |
| Merkle.TreeSteps | py/genset.py:114-116 | each pass runs over the previous pass's output, with the next level number |
| Merkle.TreeEnd | py/genset.py:101-119 | the last pass leaves one node, and that node is the root written to scores.root |
| Merkle.PassCount | py/genset.py:101-116 | the loop makes ceil(log2 n) passes: none for one leaf, otherwise p with 2^(p-1) < n <= 2^p |
| Merkle.WidthsHalve | py/genset.py:101-116 | pass k runs over a level of width ceil(n / 2^k) |
| RankingDatabase.DeckChoose | py/genset.py:86 | the 52-card deck has 2598960 five-card hands |
| RankingDatabase.KeysCount | py/genset.py:86 | a dictionary whose keys are exactly 0..n-1 has n entries |
| RankingDatabase.RecordOf | py/genset.py:71-72 | the key of an ascending combination is its own index, and the entry stored is the hand and its score |
| RankingDatabase.Keys | py/genset.py:72 | one index per hand, in order |
| RankingDatabase.ScoreHands | py/genset.py:69-72 | the loop fails exactly when some hand cannot be scored; otherwise its keys are exactly the indices below C(n, k), and key m holds the ascending k-combination with index m and its score |
| RankingDatabase.StoreRecord | py/genset.py:72 | storing one more scored hand keeps every entry scored and every earlier key present |
| RankingDatabase.OffsetKeys | py/genset.py:69-72 | once every hand is stored, the keys are exactly the indices below C(n, k) |
| RankingDatabase.HandScore | py/genset.py:72 | eval5 of the hand with index m never fails on tables of the standard sizes |
| RankingDatabase.NthHandAt | py/genset.py:71-72 | the hand with index m is an ascending five-card combination of the first n cards whose hand_to_index is m, the hand the first loop stores under key m |
| RankingDatabase.ScoreIsEval5 | py/genset.py:72 | a five-card hand of the loop is the hand at its own index, and its stored score is its eval5 score |
| RankingDatabase.BuildOffsets | py/genset.py:66-72 | fails exactly when the eval5 of some hand fails; otherwise offsets has C(n, 5) entries keyed 0..C(n, 5)-1, and entry m is the five-card hand with index m and its eval5 score |
| RankingDatabase.LeafRecords | py/genset.py:92-94 | one record per key, in key order, when none fails |
| RankingDatabase.LeafRecordsAt | py/genset.py:92-94 | all records exist exactly when every entry encodes, and record m is the encoding of entry m |
| RankingDatabase.LeafRecordsFail | py/genset.py:94 | the first entry that does not encode aborts the loop with its error |
| RankingDatabase.FlattenFixed | py/genset.py:96 | records of 7 bytes written in turn put record m at bytes 7m .. 7m + 6 |
| RankingDatabase.Digests | py/genset.py:95 | the leaf level holds the digest of each record, in order |
| RankingDatabase.LeafLevelOf | py/genset.py:90-96 | the leaf level exists exactly when every entry encodes, and leaf m is the digest of the encoding of entry m |
| RankingDatabase.HashLeaves | py/genset.py:89-96 | the second loop computes exactly the leaf file and leaf level of the records of keys 0..count-1, or the first record's error |
| RankingDatabase.Record | py/genset.py:72-94 | the record of a hand exists exactly when its eval5 score exists and fits in 16 bits, and it decodes back to the hand and that score |
| RankingDatabase.ScoredRecord | py/genset.py:94 | bytes(z) + struct.pack('<H', score) exists exactly when there is a score below 65536, and decodes back to the hand and that score |
| RankingDatabase.HandAtIsUnrank | py/genset.py:71-72 | the hand stored at key m is the combination Unrank gives for m |
| RankingDatabase.LeavesFit | py/genset.py:99-107 | up to 2598960 leaves the tree loop completes without a fill error |
| RankingDatabase.DeckTreeDepth | py/genset.py:99-103 | 2598960 leaves give 22 passes |
| RankingDatabase.DigestsOfFile | py/genset.py:95-96 | the digests appended are those of the 7-byte records of the file written |
| RankingDatabase.EntriesEncode | py/genset.py:72-94 | every entry encodes exactly when the record of every hand exists |
| RankingDatabase.SomeEntryFails | py/genset.py:92-94 | when the leaf loop fails, the record of some hand does not exist |
| RankingDatabase.SomeRecordFails | py/genset.py:72 | a hand whose eval5 fails has no record |
| RankingDatabase.LeafFileSlices | py/genset.py:90-96 | bytes 7m .. 7m + 6 of scores.leaf are the encoding of entry m, and the leaf digests are those of the file's records |
| RankingDatabase.LeafFileLayout | py/genset.py:90-96 | bytes 7m .. 7m + 6 of scores.leaf are the record of the hand with index m |
| RankingDatabase.EntriesAreRecords | py/genset.py:72-94 | entry m encodes to the record of the hand with index m |
| RankingDatabase.LevelFiles | py/genset.py:104-112 | one file per pass, and the file of pass k holds node i of the level that pass produced at bytes 32i .. 32i + 31 |
| RankingDatabase.WriteFiles | py/genset.py:89-119 | once offsets holds every scored hand, the leaf loop and the tree loop fail exactly when the record of some hand does not exist, and otherwise leave the files DatabaseOfDeck describes |
| RankingDatabase.DatabaseLayout | py/genset.py:90-119 | from the complete leaf level, scores.leaf holds the record of index m at 7m, and the level files, root and widths are those of the 22-pass tree over its record digests |
| RankingDatabase.BuildDatabase | py/genset.py:66-119 | main fails exactly when the hand count is not 2598960 or the record of some hand does not exist (its score fails or does not fit in 16 bits); otherwise scores.leaf holds the record of index m at 7m, the tree over its record digests has 22 passes, and the level files, root and widths are that tree's |

## Left out

- File and console I/O: the `print` calls, `makedirs` and the paths are not modelled. Each file is the byte sequence written to it.
- SHA-256 is a parameter (`h`), so nothing depends on its internals.
- The contents of the `poker_data` tables are not part of this model. The tables are a parameter of any size; a read past the end is an `IndexOutOfRange` error, and `Evaluator.StandardSizes` names the sizes under which no read fails.
- Evaluator.Tables: the entries are natural numbers. A negative HASH_ADJUST entry, which Python would mask all the same, is not modelled.
- The commented-out verification block is dead code and is not modelled.
- Merkle.BuildTree: requires at least one leaf. On an empty level the source's loop never terminates.
- Evaluator.Eval5: takes the hand as card ids, where the source takes display names and reads each card's word from `LOOKUP`. `LOOKUP[DECK[c]]` is `Word(c)` (`Cards.LookupOfName`), because `DECK` and `_DECK` come from the same rank-major product. The KeyError on a name that is not in `DECK` is not modelled.
- Evaluator.Eval7: takes the hand as card ids, where the source takes display names and passes them on to `eval5`, so the same `LOOKUP` step and the same unmodelled KeyError apply.
- Evaluator.Eval5: takes exactly five card ids. With any other number of cards the source's tuple unpacking raises; no caller does that.
- Evaluator.Eval5: is not proved independent of card order. The eval7 and main callers only pass hands in combination order.
- RankingDatabase.ScoreHands: iterates over combinations of the ids 0..n-1, where the source iterates over combinations of the names in `DECK` and maps them back through `DECKIDX`. `DECK` lists the names in id order, and `Cards.Name` shows that `DECKIDX` inverts it, but the two enumerations are not proved equal element by element.
- RankingDatabase.BuildOffsets: scores through `Score`, which is `eval5` on five card ids and 0 elsewhere. Every hand the loop draws is five card ids, which `ScoreIsEval5` records.
- RankingDatabase.BuildDatabase: is stated for the first n <= 52 cards. Only `DeckChoose` ties it to the 52-card deck.
- RankingDatabase.HashLeaves: visits the keys as 0..count-1. The source sorts the dictionary's keys, which `BuildOffsets` shows are exactly that range.
- RankingDatabase.HashLeaves: on an entry that does not encode it returns only the error. The source has by then written the records of the earlier keys to `scores.leaf`, and that partial file is not modelled.
- RankingDatabase.BuildDatabase: on an error it returns only the error. The partial `scores.leaf` left by a failing leaf loop is not modelled. The tree loop cannot fail for 2598960 leaves (`LeavesFit`).
- RankingDatabase.BuildDatabase: returns the level files once the loop ends. The source writes each level file during its own pass, and writing order is not modelled.
- The betting state machine, the on-chain verifier, the replica of the evaluator and `modulobias.py` are outside this model.
