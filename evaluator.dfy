/** Cactus Kev's five-card evaluator and the best-of-seven evaluator of
    py/genset.py:28-51. The four lookup tables it reads (FLUSHES, UNIQUE_5,
    HASH_ADJUST, HASH_VALUES) live in a module whose contents are not part of this
    model; they are a parameter here, of any size. A read past the end of a table is
    the IndexError Python raises. Lower scores are stronger hands. */
module Evaluator {

  import opened Outcomes
  import opened Cards
  import opened Combinatorics
  import opened Bits

  /** The poker_data tables. */
  datatype Tables = Tables(flushes: seq<nat>, unique5: seq<nat>, hashAdjust: seq<nat>, hashValues: seq<nat>)

  /** The sizes of Cactus Kev's tables: 7937 entries for FLUSHES and UNIQUE_5 (one per
      rank mask up to 0x1F00), 512 for HASH_ADJUST (one per 9-bit bucket) and 8192 for
      HASH_VALUES (one per 13-bit slot). Tables at least this long cover every index
      eval5 can compute. */
  predicate StandardSizes(t: Tables)
  {
    |t.flushes| > 0x1F00 && |t.unique5| > 0x1F00 && |t.hashAdjust| >= 0x200 && |t.hashValues| >= 0x2000
  }

  // ---------------------------------------------------------------------------
  // hash_function

  /** The rebindings of x in hash_function up to the bucket selection, on 64-bit
      words. The result is below 2^32 whatever the input, because of the mask. */
  function Mix(x: bv64): (m: bv64)
    ensures m < 0x1_0000_0000
  {
    var x1 := x + 0xe91aaa35;
    var x2 := x1 ^ (x1 >> 16);
    var x3 := x2 + (x2 << 8);
    var x4 := x3 & 0xffff_ffff;
    x4 ^ (x4 >> 4)
  }

  /** For an input below 2^32 (all hash_function is given) neither addition in Mix
      wraps: the sums stay below 2^33 and 2^42, so the 64-bit words hold exactly
      Python's unbounded values. */
  lemma MixDoesNotWrap(x: bv64)
    requires x < 0x1_0000_0000
    ensures var x1 := x + 0xe91aaa35;
            var x2 := x1 ^ (x1 >> 16);
            x < x1 < 0x2_0000_0000 && x2 < 0x2_0000_0000 && x2 << 8 < 0x200_0000_0000 &&
            x2 + (x2 << 8) < 0x400_0000_0000
  {
  }

  /** b = (x >> 8) & 0x1ff: always an index into the 512-entry HASH_ADJUST. */
  function BucketIndex(m: bv64): (b: nat)
    ensures b < 0x200
  {
    ((m >> 8) & 0x1ff) as nat
  }

  /** r = (a ^ HASH_ADJUST[b]) & 0x1fff with a = (x + (x << 2)) >> 19: always an index
      into the 8192-entry HASH_VALUES. Only the low 13 bits of the table entry
      survive the mask. */
  function ValueIndex(m: bv64, adjust: nat): (r: nat)
    requires m < 0x1_0000_0000
    ensures r < 0x2000
  {
    var a := (m + (m << 2)) >> 19;
    ((a ^ ((adjust % 0x2000) as bv64)) & 0x1fff) as nat
  }

  /** hash_function(x), for the inputs it is given: products of five rank primes. The
      result is an entry of HASH_VALUES, and with tables of 512 and 8192 entries both
      lookups are in range. */
  function HashFunction(t: Tables, x: nat): (r: Result<nat>)
    requires x < 0x1_0000_0000
    ensures r.Ok? ==> r.value in t.hashValues
    ensures |t.hashAdjust| >= 0x200 && |t.hashValues| >= 0x2000 ==> r.Ok?
  {
    var m := Mix(x as bv64);
    var b := BucketIndex(m);
    if b >= |t.hashAdjust| then Err(IndexOutOfRange)
    else
      var slot := ValueIndex(m, t.hashAdjust[b]);
      if slot >= |t.hashValues| then Err(IndexOutOfRange) else Ok(t.hashValues[slot])
  }

  // ---------------------------------------------------------------------------
  // eval5

  predicate AllSameSuit(hand: seq<CardId>)
  {
    forall i :: 0 <= i < |hand| ==> SuitOf(hand[i]) == SuitOf(hand[0])
  }

  predicate HasRank(hand: seq<CardId>, r: Rank)
  {
    exists i :: 0 <= i < |hand| && RankOf(hand[i]) == r
  }

  /** Bit r of q is set (RankBits[r] is 1 << r, Cards.RankBitAsWritten). */
  predicate Bit(q: bv32, r: Rank)
  {
    q & RankBits[r] != 0
  }

  /** The flush test 0xf000 & c1 & c2 & c3 & c4 & c5 of eval5: nonzero exactly when
      the five cards share a suit. */
  function IsFlush(hand: seq<CardId>): (f: bool)
    requires |hand| == 5
    ensures f <==> AllSameSuit(hand)
  {
    FlushTestIsSameSuit(hand);
    0xf000 & Word(hand[0]) & Word(hand[1]) & Word(hand[2]) & Word(hand[3]) & Word(hand[4]) != 0
  }

  lemma FlushTestIsSameSuit(hand: seq<CardId>)
    requires |hand| == 5
    ensures (0xf000 & Word(hand[0]) & Word(hand[1]) & Word(hand[2]) & Word(hand[3]) & Word(hand[4]) != 0)
            <==> AllSameSuit(hand)
  {
    var c0, c1, c2, c3, c4 := hand[0], hand[1], hand[2], hand[3], hand[4];
    SameSuitOfFive(hand);
    FlushTestOfCards(c0, c1, c2, c3, c4);
  }

  lemma SameSuitOfFive(hand: seq<CardId>)
    requires |hand| == 5
    ensures AllSameSuit(hand) <==> SuitOf(hand[0]) == SuitOf(hand[1]) == SuitOf(hand[2]) == SuitOf(hand[3]) == SuitOf(hand[4])
  {
  }

  lemma FlushTestOfCards(c0: CardId, c1: CardId, c2: CardId, c3: CardId, c4: CardId)
    ensures (0xf000 & Word(c0) & Word(c1) & Word(c2) & Word(c3) & Word(c4) != 0)
            <==> SuitOf(c0) == SuitOf(c1) == SuitOf(c2) == SuitOf(c3) == SuitOf(c4)
  {
    var w0, w1, w2, w3, w4 := Word(c0), Word(c1), Word(c2), Word(c3), Word(c4);
    AndOfMasked(w0, w1, w2, w3, w4);
    SuitsMeet(SuitOf(c0), SuitOf(c1), SuitOf(c2), SuitOf(c3), SuitOf(c4));
  }

  /** The suit bits of five suits meet exactly when the suits are all the same. */
  lemma SuitsMeet(s0: Suit, s1: Suit, s2: Suit, s3: Suit, s4: Suit)
    ensures Suits[s0] & Suits[s1] & Suits[s2] & Suits[s3] & Suits[s4] != 0
            <==> s0 == s1 == s2 == s3 == s4
  {
    var m0, m1, m2, m3, m4 := Suits[s0], Suits[s1], Suits[s2], Suits[s3], Suits[s4];
    SuitBitsMeet(s0, s1);
    SuitBitsMeet(s0, s2);
    SuitBitsMeet(s0, s3);
    SuitBitsMeet(s0, s4);
    AndImpliesMeets(m0, m1, m2, m3, m4);
    AndOfSame(m0);
  }

  /** Two suit bits meet exactly when the suits are the same. */
  lemma SuitBitsMeet(a: Suit, b: Suit)
    ensures Suits[a] != 0 && (Suits[a] & Suits[b] != 0 <==> a == b)
  {
  }

  /** q = (c1 | c2 | c3 | c4 | c5) >> 16: a 13-bit mask with bit r set exactly when some
      card has rank r. With at most five bits set it is at most 0x1F00, the mask of
      the five highest ranks. */
  function RankMask(hand: seq<CardId>): (q: bv32)
    requires |hand| == 5
    ensures q < 0x2000 && q <= 0x1F00
    ensures forall r: Rank :: Bit(q, r) <==> HasRank(hand, r)
  {
    RankMaskOfHand(hand);
    (Word(hand[0]) | Word(hand[1]) | Word(hand[2]) | Word(hand[3]) | Word(hand[4])) >> 16
  }

  lemma RankMaskOfHand(hand: seq<CardId>)
    requires |hand| == 5
    ensures var q := (Word(hand[0]) | Word(hand[1]) | Word(hand[2]) | Word(hand[3]) | Word(hand[4])) >> 16;
            q < 0x2000 && q <= 0x1F00 && forall r: Rank :: Bit(q, r) <==> HasRank(hand, r)
  {
    var q := (Word(hand[0]) | Word(hand[1]) | Word(hand[2]) | Word(hand[3]) | Word(hand[4])) >> 16;
    var bits := RankBits[RankOf(hand[0])] | RankBits[RankOf(hand[1])] | RankBits[RankOf(hand[2])]
                | RankBits[RankOf(hand[3])] | RankBits[RankOf(hand[4])];
    RankMaskOfCards(hand[0], hand[1], hand[2], hand[3], hand[4]);
    assert q == bits;
    RankMaskHasRank(hand);
  }

  lemma RankMaskHasRank(hand: seq<CardId>)
    requires |hand| == 5
    ensures var q := RankBits[RankOf(hand[0])] | RankBits[RankOf(hand[1])] | RankBits[RankOf(hand[2])]
                     | RankBits[RankOf(hand[3])] | RankBits[RankOf(hand[4])];
            forall r: Rank :: Bit(q, r) <==> HasRank(hand, r)
  {
    var q := RankBits[RankOf(hand[0])] | RankBits[RankOf(hand[1])] | RankBits[RankOf(hand[2])]
             | RankBits[RankOf(hand[3])] | RankBits[RankOf(hand[4])];
    forall r: Rank ensures Bit(q, r) <==> HasRank(hand, r) {
      HasRankOfFive(hand, r);
      RanksMeet(RankOf(hand[0]), RankOf(hand[1]), RankOf(hand[2]), RankOf(hand[3]), RankOf(hand[4]), r);
    }
  }

  lemma HasRankOfFive(hand: seq<CardId>, r: Rank)
    requires |hand| == 5
    ensures HasRank(hand, r) <==> r == RankOf(hand[0]) || r == RankOf(hand[1]) || r == RankOf(hand[2])
                                  || r == RankOf(hand[3]) || r == RankOf(hand[4])
  {
    if r == RankOf(hand[0]) { assert RankOf(hand[0]) == r; }
    if r == RankOf(hand[1]) { assert RankOf(hand[1]) == r; }
    if r == RankOf(hand[2]) { assert RankOf(hand[2]) == r; }
    if r == RankOf(hand[3]) { assert RankOf(hand[3]) == r; }
    if r == RankOf(hand[4]) { assert RankOf(hand[4]) == r; }
  }

  /** The word-level computation: the or of the five words shifted down by 16 is the or
      of the five rank bits, a 13-bit value. */
  lemma RankMaskOfCards(c0: CardId, c1: CardId, c2: CardId, c3: CardId, c4: CardId)
    ensures (Word(c0) | Word(c1) | Word(c2) | Word(c3) | Word(c4)) >> 16
         == RankBits[RankOf(c0)] | RankBits[RankOf(c1)] | RankBits[RankOf(c2)] | RankBits[RankOf(c3)] | RankBits[RankOf(c4)]
    ensures RankBits[RankOf(c0)] | RankBits[RankOf(c1)] | RankBits[RankOf(c2)] | RankBits[RankOf(c3)] | RankBits[RankOf(c4)] < 0x2000
    ensures RankBits[RankOf(c0)] | RankBits[RankOf(c1)] | RankBits[RankOf(c2)] | RankBits[RankOf(c3)] | RankBits[RankOf(c4)] <= 0x1F00
  {
    ShiftOfOr(Word(c0), Word(c1), Word(c2), Word(c3), Word(c4));
    RankBitsBelow(RankOf(c0), RankOf(c1), RankOf(c2), RankOf(c3), RankOf(c4));
    RankBitsAtMost(RankOf(c0), RankOf(c1), RankOf(c2), RankOf(c3), RankOf(c4));
  }

  /** Five rank bits set at most the five highest bits 8-12: the or is at most 0x1F00. */
  lemma RankBitsAtMost(r0: Rank, r1: Rank, r2: Rank, r3: Rank, r4: Rank)
    ensures RankBits[r0] | RankBits[r1] | RankBits[r2] | RankBits[r3] | RankBits[r4] <= 0x1F00
  {
    RankBitAsWritten(r0);
    RankBitAsWritten(r1);
    RankBitAsWritten(r2);
    RankBitAsWritten(r3);
    RankBitAsWritten(r4);
    SingleBitsAtMost(r0, r1, r2, r3, r4);
  }

  /** The rank bits of five ranks include bit r exactly when r is one of the five. */
  lemma RanksMeet(r0: Rank, r1: Rank, r2: Rank, r3: Rank, r4: Rank, r: Rank)
    ensures Bit(RankBits[r0] | RankBits[r1] | RankBits[r2] | RankBits[r3] | RankBits[r4], r)
            <==> r == r0 || r == r1 || r == r2 || r == r3 || r == r4
  {
    OrMeets(RankBits[r0], RankBits[r1], RankBits[r2], RankBits[r3], RankBits[r4], RankBits[r]);
    RankBitsMeet(r0, r);
    RankBitsMeet(r1, r);
    RankBitsMeet(r2, r);
    RankBitsMeet(r3, r);
    RankBitsMeet(r4, r);
  }

  lemma RankBitsBelow(r0: Rank, r1: Rank, r2: Rank, r3: Rank, r4: Rank)
    ensures RankBits[r0] | RankBits[r1] | RankBits[r2] | RankBits[r3] | RankBits[r4] < 0x2000
  {
    assert forall r: Rank :: RankBits[r] < 0x2000;
    OrBelow(RankBits[r0], RankBits[r1], RankBits[r2], RankBits[r3], RankBits[r4]);
  }

  /** Two rank bits meet exactly when the ranks are the same. */
  lemma RankBitsMeet(a: Rank, b: Rank)
    ensures RankBits[a] & RankBits[b] != 0 <==> a == b
  {
  }

  /** c & 0xff: the prime of the card's rank, one of 2, 3, ..., 41. */
  function PrimeField(c: CardId): (p: nat)
    ensures p == Primes[RankOf(c)] as nat && 2 <= p <= 41
  {
    PrimeRange(RankOf(c));
    (Word(c) & 0xff) as nat
  }

  lemma PrimeRange(r: Rank)
    ensures 2 <= Primes[r] as nat <= 41
  {
    if r == 0 {} else if r == 1 {} else if r == 2 {} else if r == 3 {} else if r == 4 {}
    else if r == 5 {} else if r == 6 {} else if r == 7 {} else if r == 8 {} else if r == 9 {}
    else if r == 10 {} else if r == 11 {} else {}
  }

  /** p = (c1 & 0xff) * ... * (c5 & 0xff), an unbounded Python product. It is at most
      41^5 = 115856201, so it is below 2^32 and hash_function's arithmetic cannot wrap. */
  function PrimeProduct(hand: seq<CardId>): (p: nat)
    requires |hand| == 5
    ensures p <= 115856201
  {
    var f0, f1, f2, f3, f4 := PrimeField(hand[0]), PrimeField(hand[1]), PrimeField(hand[2]), PrimeField(hand[3]), PrimeField(hand[4]);
    ProductBounds(f0, f1, f2, f3, f4);
    f0 * f1 * f2 * f3 * f4
  }

  lemma ProductBounds(f0: nat, f1: nat, f2: nat, f3: nat, f4: nat)
    requires f0 <= 41 && f1 <= 41 && f2 <= 41 && f3 <= 41 && f4 <= 41
    ensures 0 <= f0 * f1 * f2 * f3 * f4 <= 115856201
  {
    MulBound(f0, f1, 41, 41);
    MulBound(f0 * f1, f2, 1681, 41);
    MulBound(f0 * f1 * f2, f3, 68921, 41);
    MulBound(f0 * f1 * f2 * f3, f4, 2825761, 41);
  }

  /** Multiplication of naturals is monotone in both factors. */
  lemma MulBound(a: nat, b: nat, x: nat, y: nat)
    requires a <= x && b <= y
    ensures a * b <= x * y
  {
    assert a * b <= x * b;
    assert x * b <= x * y;
  }

  /** eval5(hand): a flush is scored by FLUSHES at its rank mask; otherwise UNIQUE_5 at
      the rank mask when that entry is nonzero (five distinct ranks), and otherwise
      the perfect hash of the prime product. A lookup past the end of its table fails;
      with tables of the standard sizes none does. */
  function Eval5(t: Tables, hand: seq<CardId>): (s: Result<nat>)
    requires |hand| == 5
    ensures AllSameSuit(hand) ==>
              (s.Ok? <==> RankMask(hand) as nat < |t.flushes|) &&
              (s.Ok? ==> s.value == t.flushes[RankMask(hand)])
    ensures !AllSameSuit(hand) && RankMask(hand) as nat >= |t.unique5| ==> s.Err?
    ensures !AllSameSuit(hand) && RankMask(hand) as nat < |t.unique5| && t.unique5[RankMask(hand)] != 0 ==>
              s == Ok(t.unique5[RankMask(hand)])
    ensures !AllSameSuit(hand) && RankMask(hand) as nat < |t.unique5| && t.unique5[RankMask(hand)] == 0 ==>
              s == HashFunction(t, PrimeProduct(hand))
    ensures s.Ok? ==> s.value in t.flushes || s.value in t.unique5 || s.value in t.hashValues
    ensures StandardSizes(t) ==> s.Ok?
  {
    var q := RankMask(hand) as nat;
    if IsFlush(hand) then
      if q < |t.flushes| then Ok(t.flushes[q]) else Err(IndexOutOfRange)
    else if q >= |t.unique5| then Err(IndexOutOfRange)
    else if t.unique5[q] != 0 then Ok(t.unique5[q])
    else HashFunction(t, PrimeProduct(hand))
  }

  // ---------------------------------------------------------------------------
  // eval7

  /** The sub-hand at the positions idx, in the order of idx. */
  function Pick(hand: seq<CardId>, idx: seq<nat>): (sub: seq<CardId>)
    requires forall i :: 0 <= i < |idx| ==> idx[i] < |hand|
    ensures |sub| == |idx|
  {
    seq(|idx|, i requires 0 <= i < |idx| => hand[idx[i]])
  }

  /** Python's min: the least element, and an error for an empty sequence. */
  function MinOf(s: seq<nat>): (r: Result<nat>)
    ensures r.Err? <==> s == []
    ensures r.Ok? ==> r.value in s && forall i :: 0 <= i < |s| ==> r.value <= s[i]
  {
    if s == [] then Err(EmptyMinimum)
    else match MinOf(s[1..])
      case Err(_) => Ok(s[0])
      case Ok(m) => Ok(if s[0] <= m then s[0] else m)
  }

  /** eval5 of the sub-hand at the positions idx of one combination. */
  function SubHandScore(t: Tables, hand: seq<CardId>, idx: seq<nat>): (s: Result<nat>)
    requires IsCombination(idx, 0, |hand|, 5)
  {
    Eval5(t, Pick(hand, idx))
  }

  /** Draining a generator of lookups: the values in order, or the error of the first
      lookup that fails. */
  function Collect(rs: seq<Result<nat>>): (r: Result<seq<nat>>)
    ensures r.Err? <==> exists i :: 0 <= i < |rs| && rs[i].Err?
    ensures r.Ok? ==> |r.value| == |rs| && forall i :: 0 <= i < |rs| ==> rs[i] == Ok(r.value[i])
  {
    if rs == [] then Ok([])
    else match rs[0]
      case Err(e) => Err(e)
      case Ok(s) =>
        match Collect(rs[1..])
        case Err(e) =>
          assert forall i :: 0 <= i < |rs[1..]| ==> rs[1..][i] == rs[i + 1];
          Err(e)
        case Ok(rest) =>
          assert forall i :: 0 < i < |rs| ==> rs[i] == rs[1..][i - 1];
          Ok([s] + rest)
  }

  /** The generator eval5(x) for x in cs, as min consumes it: the scores in order, or
      the error of the first sub-hand whose lookup fails. */
  function Scores(t: Tables, hand: seq<CardId>, cs: seq<seq<nat>>): (r: Result<seq<nat>>)
    requires forall i :: 0 <= i < |cs| ==> IsCombination(cs[i], 0, |hand|, 5)
    ensures r.Err? <==> exists i :: 0 <= i < |cs| && SubHandScore(t, hand, cs[i]).Err?
    ensures r.Ok? ==> |r.value| == |cs| && forall i :: 0 <= i < |cs| ==> SubHandScore(t, hand, cs[i]) == Ok(r.value[i])
  {
    var rs := seq(|cs|, i requires 0 <= i < |cs| => SubHandScore(t, hand, cs[i]));
    assert forall i :: 0 <= i < |cs| ==> rs[i] == SubHandScore(t, hand, cs[i]);
    Collect(rs)
  }

  /** eval7(hand) = min(eval5(x) for x in itertools.combinations(hand, 5)): the score of
      some five-card sub-hand that no other five-card sub-hand beats. It fails when the
      hand has fewer than five cards and there is nothing to take the minimum of, and
      when the lookup of some sub-hand fails. */
  function Eval7(t: Tables, hand: seq<CardId>): (r: Result<nat>)
    ensures r.Err? <==> |hand| < 5 || exists idx :: IsCombination(idx, 0, |hand|, 5) && SubHandScore(t, hand, idx).Err?
    ensures r.Ok? ==> exists idx :: IsCombination(idx, 0, |hand|, 5) && SubHandScore(t, hand, idx) == Ok(r.value)
    ensures r.Ok? ==> forall idx :: IsCombination(idx, 0, |hand|, 5) ==>
              SubHandScore(t, hand, idx).Ok? && r.value <= SubHandScore(t, hand, idx).value
  {
    var cs := Combinations(0, |hand|, 5);
    CombinationsOfHand(|hand|, 5);
    var r := match Scores(t, hand, cs)
      case Err(e) => Err(e)
      case Ok(scores) => MinOf(scores);
    MinOverCombinations(t, hand, cs, r);
    r
  }

  /** What Eval7 needs of itertools.combinations(range(n), k): exactly the k-combinations,
      and none at all when k > n. */
  lemma CombinationsOfHand(n: nat, k: nat)
    ensures forall i :: 0 <= i < |Combinations(0, n, k)| ==> IsCombination(Combinations(0, n, k)[i], 0, n, k)
    ensures forall idx :: IsCombination(idx, 0, n, k) ==> idx in Combinations(0, n, k)
    ensures Combinations(0, n, k) == [] <==> n < k
  {
    var cs := Combinations(0, n, k);
    CombinationsSound(0, n, k);
    forall idx | IsCombination(idx, 0, n, k) ensures idx in cs {
      CombinationsComplete(idx, 0, n, k);
    }
  }

  lemma MinOverCombinations(t: Tables, hand: seq<CardId>, cs: seq<seq<nat>>, r: Result<nat>)
    requires forall i :: 0 <= i < |cs| ==> IsCombination(cs[i], 0, |hand|, 5)
    requires forall idx :: IsCombination(idx, 0, |hand|, 5) ==> idx in cs
    requires cs == [] <==> |hand| < 5
    requires r == match Scores(t, hand, cs) case Err(e) => Err(e) case Ok(scores) => MinOf(scores)
    ensures r.Err? <==> |hand| < 5 || exists idx :: IsCombination(idx, 0, |hand|, 5) && SubHandScore(t, hand, idx).Err?
    ensures r.Ok? ==> exists idx :: IsCombination(idx, 0, |hand|, 5) && SubHandScore(t, hand, idx) == Ok(r.value)
    ensures r.Ok? ==> forall idx :: IsCombination(idx, 0, |hand|, 5) ==>
              SubHandScore(t, hand, idx).Ok? && r.value <= SubHandScore(t, hand, idx).value
  {
    var all := Scores(t, hand, cs);
    if all.Err? {
      var i :| 0 <= i < |cs| && SubHandScore(t, hand, cs[i]).Err?;
      assert IsCombination(cs[i], 0, |hand|, 5);
    } else {
      var scores := all.value;
      forall idx | IsCombination(idx, 0, |hand|, 5) ensures SubHandScore(t, hand, idx).Ok? {
        var j :| 0 <= j < |cs| && cs[j] == idx;
        assert SubHandScore(t, hand, cs[j]) == Ok(scores[j]);
      }
      if r.Ok? {
        var i :| 0 <= i < |scores| && scores[i] == r.value;
        assert IsCombination(cs[i], 0, |hand|, 5) && SubHandScore(t, hand, cs[i]) == Ok(r.value);
        forall idx | IsCombination(idx, 0, |hand|, 5) ensures r.value <= SubHandScore(t, hand, idx).value {
          var j :| 0 <= j < |cs| && cs[j] == idx;
          assert SubHandScore(t, hand, cs[j]) == Ok(scores[j]);
        }
      }
    }
  }
}
