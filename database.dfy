/** main() of py/genset.py:66-119: score every five-card hand, store the scores in
    combinatorial-index order as 7-byte records, and build the Merkle tree over the
    records' digests. Files are modelled by the bytes written to them. */
module RankingDatabase {

  import opened Outcomes
  import opened Cards
  import opened Combinatorics
  import opened Evaluator
  import opened LeafEncoding
  import opened Merkle

  lemma DeckChoose()
    ensures Choose(DeckSize, 5) == HandCount
  {
    ChooseFiftyTwoFive();
  }

  /** `hand` is a five-card hand of the first n cards, in ascending order, with
      combinatorial index m (on an ascending list, hand_to_index is CombIndex). By
      Combinatorics.IndexIsBijection there is exactly one for each m below C(n, 5). */
  predicate IsHandAt(hand: seq<nat>, n: nat, m: nat)
  {
    IsCombination(hand, 0, n, 5) && CombIndex(hand) == m
  }

  /** The indices 0 .. n - 1. */
  function Range(n: nat): (r: set<nat>)
    ensures forall m: nat :: m in r <==> m < n
    ensures |r| == n
  {
    if n == 0 then {} else Range(n - 1) + {n - 1}
  }

  /** A map whose keys are exactly 0 .. n - 1 has n entries. */
  lemma KeysCount<V>(mp: map<nat, V>, n: nat)
    requires forall m: nat :: m in mp <==> m < n
    ensures |mp| == n
  {
    assert mp.Keys == Range(n);
  }

  /** Entry (hand, score) of offsets at key m: an ascending k-combination of range(n)
      with index m, scored by eval. */
  predicate ScoredAt(eval: seq<nat> -> Result<nat>, n: nat, k: nat, m: nat, entry: (seq<nat>, nat))
  {
    IsCombination(entry.0, 0, n, k) && HandToIndex(entry.0) == m && eval(entry.0) == Ok(entry.1)
  }

  /** eval5 on any sequence of ids; 0 where eval5 is not defined. */
  function Score(t: Tables, hand: seq<nat>): (r: Result<nat>)
  {
    if |hand| == 5 && forall i :: 0 <= i < 5 ==> hand[i] < DeckSize then Eval5(t, hand) else Ok(0)
  }

  lemma SortedHand(hand: seq<nat>)
    requires StrictlyIncreasing(hand)
    ensures Sort(hand) == hand
  {
    StrictlyIncreasingIsAscending(hand);
    SortOfSorted(hand);
  }

  /** The record the first loop stores for one combination, and its key. */
  lemma RecordOf(eval: seq<nat> -> Result<nat>, n: nat, k: nat, hand: seq<nat>, score: nat)
    requires IsCombination(hand, 0, n, k) && eval(hand) == Ok(score)
    ensures HandToIndex(Sort(hand)) == CombIndex(hand)
    ensures ScoredAt(eval, n, k, CombIndex(hand), (Sort(hand), score))
  {
    SortedHand(hand);
  }

  /** The combinatorial indices of a sequence of combinations, in order. */
  function Keys(hs: seq<seq<nat>>): (ks: seq<nat>)
    ensures |ks| == |hs|
    ensures forall j :: 0 <= j < |hs| ==> ks[j] == CombIndex(hs[j])
  {
    if hs == [] then [] else Keys(hs[..|hs| - 1]) + [CombIndex(hs[|hs| - 1])]
  }

  /** The first loop of main over the k-combinations of range(n):
      offsets[hand_to_index(z)] = (z, eval(hand)), z being the hand's sorted ids. It
      fails exactly when some hand cannot be scored. Otherwise the keys filled are
      exactly the indices below C(n, k), and key m holds the hand with index m and its
      score. */
  method ScoreHands(eval: seq<nat> -> Result<nat>, n: nat, k: nat) returns (r: Result<map<nat, (seq<nat>, nat)>>)
    ensures r.Err? <==> exists hand :: IsCombination(hand, 0, n, k) && eval(hand).Err?
    ensures r.Ok? ==> forall m: nat :: m in r.value <==> m < Choose(n, k)
    ensures r.Ok? ==> forall m {:trigger r.value[m]} :: m in r.value ==> ScoredAt(eval, n, k, m, r.value[m])
  {
    var hands := Combinations(0, n, k);
    var offsets: map<nat, (seq<nat>, nat)> := map[];
    var i := 0;
    ghost var keys: seq<nat> := [];
    while i < |hands|
      invariant i <= |hands| && keys == Keys(hands[..i])
      invariant KeysIn(keys, offsets) && AllScored(eval, n, k, offsets)
      invariant AllOk(eval, hands[..i])
    {
      var hand := hands[i];
      CombinationAt(n, k, i);
      var score := eval(hand);
      if score.Err? {
        HandFails(eval, n, k, hand);
        return Err(score.error);
      }
      var z := Sort(hand);
      var key := HandToIndex(z);
      ScoreStep(eval, n, k, hands, i, keys, offsets, score.value);
      offsets := offsets[key := (z, score.value)];
      keys := keys + [key];
      i := i + 1;
    }
    assert hands[..i] == hands;
    OffsetKeys(eval, n, k, hands, keys, offsets);
    EveryHandScored(eval, n, k);
    r := Ok(offsets);
  }

  /** One turn of the first loop: storing the i-th hand's sorted ids and score under
      its index keeps the loop invariants for the first i + 1 hands. */
  lemma ScoreStep(eval: seq<nat> -> Result<nat>, n: nat, k: nat, hands: seq<seq<nat>>, i: nat,
                  keys: seq<nat>, offsets: map<nat, (seq<nat>, nat)>, score: nat)
    requires hands == Combinations(0, n, k) && i < |hands| && keys == Keys(hands[..i])
    requires KeysIn(keys, offsets) && AllScored(eval, n, k, offsets)
    requires AllOk(eval, hands[..i]) && eval(hands[i]) == Ok(score)
    ensures var key := HandToIndex(Sort(hands[i]));
      keys + [key] == Keys(hands[..i + 1]) &&
      KeysIn(keys + [key], offsets[key := (Sort(hands[i]), score)]) &&
      AllScored(eval, n, k, offsets[key := (Sort(hands[i]), score)]) &&
      AllOk(eval, hands[..i + 1])
  {
    CombinationAt(n, k, i);
    AllOkSnoc(eval, hands, i);
    RecordOf(eval, n, k, hands[i], score);
    StoreRecord(eval, n, k, keys, offsets, HandToIndex(Sort(hands[i])), (Sort(hands[i]), score));
    KeysSnoc(hands, i);
  }

  /** Every hand in hs has a score. */
  predicate AllOk(eval: seq<nat> -> Result<nat>, hs: seq<seq<nat>>)
  {
    forall j :: 0 <= j < |hs| ==> eval(hs[j]).Ok?
  }

  lemma AllOkSnoc(eval: seq<nat> -> Result<nat>, hands: seq<seq<nat>>, i: nat)
    requires i < |hands| && AllOk(eval, hands[..i]) && eval(hands[i]).Ok?
    ensures AllOk(eval, hands[..i + 1])
  {
    assert forall j :: 0 <= j < i ==> hands[..i + 1][j] == hands[..i][j];
  }

  /** A hand without a score is a witness for the loop's failure. */
  lemma HandFails(eval: seq<nat> -> Result<nat>, n: nat, k: nat, hand: seq<nat>)
    requires IsCombination(hand, 0, n, k) && eval(hand).Err?
    ensures exists h :: IsCombination(h, 0, n, k) && eval(h).Err?
  {
  }

  /** When every hand the enumeration yields has a score, every k-combination has. */
  lemma EveryHandScored(eval: seq<nat> -> Result<nat>, n: nat, k: nat)
    requires AllOk(eval, Combinations(0, n, k))
    ensures !exists hand :: IsCombination(hand, 0, n, k) && eval(hand).Err?
  {
    forall hand | IsCombination(hand, 0, n, k) ensures eval(hand).Ok? {
      CombinationsComplete(hand, 0, n, k);
    }
  }

  /** The i-th hand the loop draws is a k-combination of range(n). */
  lemma CombinationAt(n: nat, k: nat, i: nat)
    requires i < |Combinations(0, n, k)|
    ensures IsCombination(Combinations(0, n, k)[i], 0, n, k)
  {
    CombinationsSound(0, n, k);
    assert Combinations(0, n, k)[i] in Combinations(0, n, k);
  }

  /** The keys of one more hand are the keys so far and that hand's index. */
  lemma KeysSnoc(hands: seq<seq<nat>>, i: nat)
    requires i < |hands|
    ensures Keys(hands[..i + 1]) == Keys(hands[..i]) + [CombIndex(hands[i])]
  {
    assert hands[..i + 1][..i] == hands[..i];
  }

  /** Every key in ks is a key of offsets. */
  predicate KeysIn(ks: seq<nat>, offsets: map<nat, (seq<nat>, nat)>)
  {
    forall j :: 0 <= j < |ks| ==> ks[j] in offsets
  }

  /** Every entry of offsets is the scored combination of its key. */
  predicate AllScored(eval: seq<nat> -> Result<nat>, n: nat, k: nat, offsets: map<nat, (seq<nat>, nat)>)
  {
    forall m {:trigger offsets[m]} :: m in offsets ==> ScoredAt(eval, n, k, m, offsets[m])
  }

  /** Storing one more scored combination keeps both loop invariants. */
  lemma StoreRecord(eval: seq<nat> -> Result<nat>, n: nat, k: nat, keys: seq<nat>, offsets: map<nat, (seq<nat>, nat)>,
                    key: nat, entry: (seq<nat>, nat))
    requires KeysIn(keys, offsets) && AllScored(eval, n, k, offsets)
    requires ScoredAt(eval, n, k, key, entry)
    ensures KeysIn(keys + [key], offsets[key := entry]) && AllScored(eval, n, k, offsets[key := entry])
  {
    var next := offsets[key := entry];
    forall m | m in next ensures ScoredAt(eval, n, k, m, next[m]) {
      if m != key {
        assert next[m] == offsets[m];
      }
    }
  }

  /** A key holding a scored combination is an index below C(n, k). */
  lemma ScoredKeyBelow(eval: seq<nat> -> Result<nat>, n: nat, k: nat, m: nat, entry: (seq<nat>, nat))
    requires ScoredAt(eval, n, k, m, entry)
    ensures m < Choose(n, k)
  {
    var s := entry.0;
    assert AllBelow(s, n);
    IncreasingIndex(s);
    CombIndexBelow(s, n);
  }

  /** The keys the first loop fills are exactly the indices below C(n, k). */
  lemma OffsetKeys(eval: seq<nat> -> Result<nat>, n: nat, k: nat, hands: seq<seq<nat>>, keys: seq<nat>, offsets: map<nat, (seq<nat>, nat)>)
    requires hands == Combinations(0, n, k) && keys == Keys(hands)
    requires KeysIn(keys, offsets) && AllScored(eval, n, k, offsets)
    ensures forall m: nat :: m in offsets <==> m < Choose(n, k)
  {
    forall m: nat | m in offsets ensures m < Choose(n, k) {
      ScoredKeyBelow(eval, n, k, m, offsets[m]);
    }
    forall m: nat | m < Choose(n, k) ensures m in offsets {
      var j := KeyPosition(n, k, m);
      assert keys[j] == m;
    }
  }

  /** Every index below C(n, k) is the key of some hand the enumeration yields. */
  lemma KeyPosition(n: nat, k: nat, m: nat) returns (j: nat)
    requires m < Choose(n, k)
    ensures j < |Combinations(0, n, k)| && CombIndex(Combinations(0, n, k)[j]) == m
  {
    var s := Unrank(m, k, n);
    assert IsCombination(s, 0, n, k);
    CombinationsComplete(s, 0, n, k);
    j :| 0 <= j < |Combinations(0, n, k)| && Combinations(0, n, k)[j] == s;
  }

  /** eval5 of the hand with index m among the five-card hands of the first n cards:
      the ascending combination Unrank(m). */
  function HandScore(t: Tables, n: nat, m: nat): (s: Result<nat>)
    requires n <= DeckSize && m < Choose(n, 5)
    ensures StandardSizes(t) ==> s.Ok?
  {
    Eval5(t, NthHand(n, m))
  }

  /** The hand with index m among the five-card hands of the first n cards, as card
      ids: the ascending combination whose hand_to_index is m, which Unrank finds. */
  function NthHand(n: nat, m: nat): (hand: seq<CardId>)
    requires n <= DeckSize && m < Choose(n, 5)
    ensures |hand| == 5 && hand == Unrank(m, 5, n)
  {
    var s := Unrank(m, 5, n);
    assert AllBelow(s, n);
    assert forall i :: 0 <= i < |s| ==> s[i] < DeckSize;
    s
  }

  /** The hand with index m is the one the first loop stores under key m: its
      hand_to_index is m. */
  lemma NthHandAt(n: nat, m: nat)
    requires n <= DeckSize && m < Choose(n, 5)
    ensures IsHandAt(NthHand(n, m), n, m) && HandToIndex(NthHand(n, m)) == m
  {
    UnrankIsCombination(m, 5, n);
    IncreasingIndex(NthHand(n, m));
  }

  /** Where Score is applied to a five-card hand, it is eval5, and that hand is the
      one at its own index. */
  lemma ScoreIsEval5(t: Tables, n: nat, hand: seq<nat>)
    requires n <= DeckSize && IsCombination(hand, 0, n, 5)
    ensures HandToIndex(hand) == CombIndex(hand) < Choose(n, 5) && IsHandAt(hand, n, CombIndex(hand))
    ensures Score(t, hand) == Eval5(t, hand) == HandScore(t, n, CombIndex(hand))
  {
    HandIndex(n, hand);
    ScoreOfHand(t, hand);
  }

  /** A five-card hand of the first n cards is the hand at its own index. */
  lemma HandIndex(n: nat, hand: seq<nat>)
    requires n <= DeckSize && IsCombination(hand, 0, n, 5)
    ensures HandToIndex(hand) == CombIndex(hand) < Choose(n, 5) && IsHandAt(hand, n, CombIndex(hand))
    ensures NthHand(n, CombIndex(hand)) == hand
  {
    IncreasingIndex(hand);
    UnrankCombIndex(hand, n);
  }

  /** Score of five card ids is eval5. */
  lemma ScoreOfHand(t: Tables, hand: seq<CardId>)
    requires |hand| == 5
    ensures Score(t, hand) == Eval5(t, hand)
  {
  }

  /** The eval5 lookup of every five-card hand of the first n cards succeeds. */
  predicate AllScores(t: Tables, n: nat)
    requires n <= DeckSize
  {
    forall m :: 0 <= m < Choose(n, 5) ==> HandScore(t, n, m).Ok?
  }

  /** Every entry of offsets is the hand at its own key with that hand's eval5 score. */
  predicate ScoredOffsets(t: Tables, n: nat, offsets: map<nat, (seq<nat>, nat)>)
    requires n <= DeckSize
  {
    forall m {:trigger offsets[m]} :: m in offsets ==> IsHandAt(offsets[m].0, n, m) && Eval5(t, offsets[m].0) == Ok(offsets[m].1)
  }

  /** The first loop of main, over the first n cards of the deck. It fails exactly when
      the eval5 lookup of some hand fails (never, for tables of the standard sizes).
      Otherwise the keys of offsets are exactly 0 .. C(n, 5) - 1, and key m holds the
      ascending hand with index m and that hand's eval5 score. For the whole deck
      C(52, 5) = 2598960 (DeckChoose). */
  method BuildOffsets(t: Tables, n: nat) returns (r: Result<map<nat, (seq<nat>, nat)>>)
    requires n <= DeckSize
    ensures r.Err? <==> !AllScores(t, n)
    ensures r.Ok? ==> forall m: nat :: m in r.value <==> m < Choose(n, 5)
    ensures r.Ok? ==> |r.value| == Choose(n, 5)
    ensures r.Ok? ==> ScoredOffsets(t, n, r.value)
  {
    var eval := hand => Score(t, hand);
    r := ScoreHands(eval, n, 5);
    if r.Err? {
      var hand :| IsCombination(hand, 0, n, 5) && eval(hand).Err?;
      ScoreFails(t, n, hand);
      return;
    }
    var offsets := r.value;
    KeysCount(offsets, Choose(n, 5));
    forall m | m in offsets
      ensures IsHandAt(offsets[m].0, n, m) && Eval5(t, offsets[m].0) == Ok(offsets[m].1)
    {
      assert ScoredAt(eval, n, 5, m, offsets[m]);
      ScoreIsEval5(t, n, offsets[m].0);
    }
    assert forall hand :: IsCombination(hand, 0, n, 5) ==> Score(t, hand).Ok? by {
      forall hand | IsCombination(hand, 0, n, 5) ensures Score(t, hand).Ok? {
        assert eval(hand) == Score(t, hand);
      }
    }
    EveryScoreExists(t, n);
  }

  /** A hand of the loop whose score fails is the hand at some index. */
  lemma ScoreFails(t: Tables, n: nat, hand: seq<nat>)
    requires n <= DeckSize && IsCombination(hand, 0, n, 5) && Score(t, hand).Err?
    ensures !AllScores(t, n)
  {
    ScoreIsEval5(t, n, hand);
  }

  /** When every five-card hand has a score, the hand at every index has. */
  lemma EveryScoreExists(t: Tables, n: nat)
    requires n <= DeckSize
    requires forall hand :: IsCombination(hand, 0, n, 5) ==> Score(t, hand).Ok?
    ensures AllScores(t, n)
  {
    forall m | 0 <= m < Choose(n, 5) ensures HandScore(t, n, m).Ok? {
      UnrankIsCombination(m, 5, n);
      ScoreOfHand(t, NthHand(n, m));
    }
  }

  // ---------------------------------------------------------------------------
  // The leaf level: scores.leaf and the leaf digests

  /** The records for keys 0 .. count - 1 in ascending key order (sorted(offsets.keys())
      when the keys are exactly those), stopping at the first one that cannot be
      encoded: one record per key, each of LeafSize bytes when the entries are
      five-card hands. */
  function LeafRecords(offsets: map<nat, (seq<nat>, nat)>, count: nat): (r: Result<seq<seq<Byte>>>)
    requires forall m: nat :: m < count ==> m in offsets
    ensures r.Ok? ==> |r.value| == count
  {
    if count == 0 then Ok([])
    else match LeafRecords(offsets, count - 1)
      case Err(e) => Err(e)
      case Ok(rs) =>
        match EncodeLeaf(offsets[count - 1].0, offsets[count - 1].1)
        case Err(e) => Err(e)
        case Ok(entry) => Ok(rs + [entry])
  }

  /** The records exist exactly when every key's entry can be encoded, and then record
      m is the encoding of offsets[m]. */
  lemma {:induction false} LeafRecordsAt(offsets: map<nat, (seq<nat>, nat)>, count: nat)
    requires forall m: nat :: m < count ==> m in offsets
    ensures LeafRecords(offsets, count).Ok? <==> forall m: nat :: m < count ==> EncodeLeaf(offsets[m].0, offsets[m].1).Ok?
    ensures LeafRecords(offsets, count).Ok? ==>
      var rs := LeafRecords(offsets, count).value;
      forall m: nat :: m < count ==> Ok(rs[m]) == EncodeLeaf(offsets[m].0, offsets[m].1)
  {
    if count > 0 {
      LeafRecordsAt(offsets, count - 1);
    }
  }

  /** One more encodable entry appends its record to the records, its bytes to the
      file and its digest to the leaves. */
  lemma LeafRecordsSnoc(h: Hash, offsets: map<nat, (seq<nat>, nat)>, m: nat, rs: seq<seq<Byte>>, entry: seq<Byte>)
    requires forall j: nat :: j <= m ==> j in offsets
    requires LeafRecords(offsets, m) == Ok(rs) && EncodeLeaf(offsets[m].0, offsets[m].1) == Ok(entry)
    ensures LeafRecords(offsets, m + 1) == Ok(rs + [entry])
    ensures Flatten(rs + [entry]) == Flatten(rs) + entry
    ensures Digests(h, rs + [entry]) == Digests(h, rs) + [h(entry)]
  {
    assert (rs + [entry])[..|rs|] == rs;
  }

  /** A record that fails makes all the records fail with its error. */
  lemma LeafRecordFails(offsets: map<nat, (seq<nat>, nat)>, m: nat, count: nat, rs: seq<seq<Byte>>)
    requires m < count && forall j: nat :: j < count ==> j in offsets
    requires LeafRecords(offsets, m) == Ok(rs) && EncodeLeaf(offsets[m].0, offsets[m].1).Err?
    ensures LeafRecords(offsets, count) == Err(EncodeLeaf(offsets[m].0, offsets[m].1).error)
  {
    var entry := EncodeLeaf(offsets[m].0, offsets[m].1);
    assert LeafRecords(offsets, m + 1) == Err(entry.error) by {
      assert m + 1 - 1 == m;
    }
    LeafRecordsFail(offsets, m + 1, count);
  }

  /** Once a record fails, the whole leaf level fails with that error. */
  lemma {:induction false} LeafRecordsFail(offsets: map<nat, (seq<nat>, nat)>, m: nat, count: nat)
    requires m <= count && forall j: nat :: j < count ==> j in offsets
    requires LeafRecords(offsets, m).Err?
    ensures LeafRecords(offsets, count) == LeafRecords(offsets, m)
    decreases count - m
  {
    if m < count {
      LeafRecordsFail(offsets, m, count - 1);
    }
  }

  /** The bytes written to a file record by record. */
  function Flatten(rs: seq<seq<Byte>>): (file: seq<Byte>)
  {
    if rs == [] then [] else Flatten(rs[..|rs| - 1]) + rs[|rs| - 1]
  }

  /** Records of LeafSize bytes each: record m sits at 7 * m .. 7 * m + 6 of the file. */
  lemma {:induction false} FlattenFixed(rs: seq<seq<Byte>>)
    requires forall i :: 0 <= i < |rs| ==> |rs[i]| == LeafSize
    ensures |Flatten(rs)| == LeafSize * |rs|
    ensures forall i :: 0 <= i < |rs| ==> Flatten(rs)[LeafSize * i .. LeafSize * i + LeafSize] == rs[i]
  {
    if rs != [] {
      var init := rs[..|rs| - 1];
      FlattenFixed(init);
      var a, b := Flatten(init), rs[|rs| - 1];
      assert Flatten(rs) == a + b;
      forall i | 0 <= i < |rs|
        ensures (a + b)[LeafSize * i .. LeafSize * i + LeafSize] == rs[i]
      {
        if i < |rs| - 1 {
          assert (a + b)[LeafSize * i .. LeafSize * i + LeafSize] == a[LeafSize * i .. LeafSize * i + LeafSize];
        } else {
          assert (a + b)[LeafSize * i ..LeafSize * i + LeafSize] == b;
        }
      }
    }
  }

  /** The digest of each record, in order: the leaf level of the Merkle tree. */
  function Digests(h: Hash, rs: seq<seq<Byte>>): (ds: seq<Digest>)
    ensures |ds| == |rs|
    ensures forall i :: 0 <= i < |rs| ==> ds[i] == h(rs[i])
  {
    if rs == [] then [] else Digests(h, rs[..|rs| - 1]) + [h(rs[|rs| - 1])]
  }

  /** The contents of scores.leaf and the leaf digests. */
  datatype LeafLevel = LeafLevel(file: seq<Byte>, leaves: seq<Digest>)

  /** scores.leaf and the leaf digests for keys 0 .. count - 1: they exist exactly when
      every entry encodes, and leaf m is the digest of the encoding of entry m. */
  function LeafLevelOf(h: Hash, offsets: map<nat, (seq<nat>, nat)>, count: nat): (r: Result<LeafLevel>)
    requires forall m: nat :: m < count ==> m in offsets
    ensures r.Ok? <==> forall m: nat :: m < count ==> EncodeLeaf(offsets[m].0, offsets[m].1).Ok?
    ensures r.Ok? ==> (|r.value.leaves| == count &&
                       forall m: nat :: m < count ==> r.value.leaves[m] == h(EncodeLeaf(offsets[m].0, offsets[m].1).value))
  {
    LeafRecordsAt(offsets, count);
    match LeafRecords(offsets, count)
    case Err(e) => Err(e)
    case Ok(rs) => Ok(LeafLevel(Flatten(rs), Digests(h, rs)))
  }

  /** The second loop of main: for each key in ascending order, entry = bytes(z) +
      struct.pack('<H', score) is hashed onto the leaf level and appended to
      scores.leaf. */
  method HashLeaves(h: Hash, offsets: map<nat, (seq<nat>, nat)>, count: nat) returns (r: Result<LeafLevel>)
    requires forall m: nat :: m in offsets <==> m < count
    ensures r == LeafLevelOf(h, offsets, count)
  {
    var file: seq<Byte> := [];
    var leaves: seq<Digest> := [];
    ghost var records: seq<seq<Byte>> := [];
    var m := 0;
    while m < count
      invariant m <= count && |records| == m
      invariant LeafRecords(offsets, m) == Ok(records)
      invariant file == Flatten(records) && leaves == Digests(h, records)
    {
      var entry := EncodeLeaf(offsets[m].0, offsets[m].1);
      if entry.Err? {
        LeafRecordFails(offsets, m, count, records);
        return Err(entry.error);
      }
      LeafRecordsSnoc(h, offsets, m, records, entry.value);
      records := records + [entry.value];
      file := file + entry.value;
      leaves := leaves + [h(entry.value)];
      m := m + 1;
    }
    r := Ok(LeafLevel(file, leaves));
  }
  // ---------------------------------------------------------------------------
  // main: the files it writes

  /** The record of every five-card hand of the first n cards exists: every score
      exists and fits in 16 bits. */
  predicate AllRecords(t: Tables, n: nat)
    requires n <= DeckSize
  {
    forall m :: 0 <= m < Choose(n, 5) ==> Record(t, NthHand(n, m)).Ok?
  }

  /** The record main writes for a hand of five card ids: bytes(z) +
      struct.pack('<H', eval5(z)), the card ids then the score in two little-endian
      bytes. It exists exactly when the score exists and fits in 16 bits. */
  function Record(t: Tables, hand: seq<CardId>): (r: Result<seq<Byte>>)
    requires |hand| == 5
    ensures r.Ok? <==> Eval5(t, hand).Ok? && Eval5(t, hand).value < 0x1_0000
    ensures r.Ok? ==> |r.value| == LeafSize && DecodeLeaf(r.value) == Some((hand, Eval5(t, hand).value))
  {
    ScoredRecord(hand, Eval5(t, hand))
  }

  /** bytes(z) + struct.pack('<H', score) for a hand of five card ids and its score,
      when there is one. */
  function ScoredRecord(hand: seq<CardId>, score: Result<nat>): (r: Result<seq<Byte>>)
    requires |hand| == 5
    ensures r.Ok? <==> score.Ok? && score.value < 0x1_0000
    ensures r.Ok? ==> |r.value| == LeafSize && DecodeLeaf(r.value) == Some((hand, score.value))
  {
    match score
    case Err(e) => Err(e)
    case Ok(s) => EncodeLeaf(hand, s)
  }

  /** The hand stored at key m is the one Unrank gives for m. */
  lemma HandAtIsUnrank(hand: seq<nat>, n: nat, m: nat)
    requires IsHandAt(hand, n, m)
    ensures m < Choose(n, 5) && Unrank(m, 5, n) == hand
  {
    UnrankCombIndex(hand, n);
  }

  /** The digests of the 7-byte records of a leaf file, in order. */
  function FileDigests(h: Hash, file: seq<Byte>): (ds: seq<Digest>)
    ensures |ds| == |file| / LeafSize
  {
    seq(|file| / LeafSize, m requires 0 <= m < |file| / LeafSize => h(file[LeafSize * m .. LeafSize * m + LeafSize]))
  }

  /** The bytes main writes to scores.00, scores.01, ...: one file per pass, and the
      file of pass k holds node i of the level that pass produced at bytes
      32i .. 32i + 31. */
  function LevelFiles(levels: seq<seq<Digest>>): (files: seq<seq<Byte>>)
    ensures |files| == |levels|
    ensures forall k :: 0 <= k < |levels| ==> files[k] == Concat(levels[k])
    ensures forall k, i :: 0 <= k < |levels| && 0 <= i < |levels[k]| ==>
              |files[k]| == 32 * |levels[k]| && files[k][32 * i .. 32 * i + 32] == levels[k][i]
  {
    seq(|levels|, k requires 0 <= k < |levels| => Concat(levels[k]))
  }

  /** What main leaves in cache/scores: scores.leaf, scores.00 .. scores.NN in pass
      order and scores.root; widths records the level widths the Merkle loop computes,
      which main keeps in memory and does not write to a file. */
  datatype Database = Database(leafFile: seq<Byte>, levelFiles: seq<seq<Byte>>, rootFile: seq<Byte>, widths: seq<nat>)

  lemma DeckPowers()
    ensures Pow2(21) == 2097152 && Pow2(22) == 4194304
  {
    assert Pow2(10) == 1024;
    assert Pow2(20) == 1048576;
  }

  /** Up to 2598960 leaves (fewer than 2^22), the Merkle loop never runs out of fill
      bytes. */
  lemma LeavesFit(h: Hash, leaves: seq<Digest>)
    requires 1 <= |leaves| <= HandCount
    ensures BuildFrom(h, leaves, 0).Ok?
  {
    DeckPowers();
    Pow2Monotone(22, 256);
  }

  /** With 2598960 leaves the tree has 22 passes: 2^21 < 2598960 <= 2^22. */
  lemma DeckTreeDepth(h: Hash, leaves: seq<Digest>)
    requires |leaves| == HandCount && BuildFrom(h, leaves, 0).Ok?
    ensures |BuildFrom(h, leaves, 0).value.widths| == 22
  {
    PassCount(h, leaves, 0);
    var p := |BuildFrom(h, leaves, 0).value.widths|;
    DeckPowers();
    if p <= 21 {
      Pow2Monotone(p, 21);
    } else if p >= 23 {
      Pow2Monotone(22, p - 1);
    }
  }

  /** The digests main appends are those of the 7-byte records of the leaf file. */
  lemma DigestsOfFile(h: Hash, rs: seq<seq<Byte>>)
    requires forall i :: 0 <= i < |rs| ==> |rs[i]| == LeafSize
    ensures Digests(h, rs) == FileDigests(h, Flatten(rs))
  {
    FlattenFixed(rs);
    var ds, fs := Digests(h, rs), FileDigests(h, Flatten(rs));
    assert |ds| == |fs|;
    forall i | 0 <= i < |rs| ensures ds[i] == fs[i] {
      assert fs[i] == h(Flatten(rs)[LeafSize * i .. LeafSize * i + LeafSize]);
    }
  }

  /** The entries of keys 0 .. count - 1 all encode exactly when the record of every
      hand exists. */
  lemma EntriesEncode(t: Tables, n: nat, offsets: map<nat, (seq<nat>, nat)>, count: nat)
    requires n <= DeckSize && count == Choose(n, 5)
    requires forall m: nat :: m in offsets <==> m < count
    requires ScoredOffsets(t, n, offsets)
    ensures (forall m: nat :: m < count ==> EncodeLeaf(offsets[m].0, offsets[m].1).Ok?) <==>
            AllRecords(t, n)
  {
    EntriesAreRecords(t, n, offsets, count);
  }

  /** When the leaf level fails, the record of some hand does not exist. */
  lemma SomeEntryFails(h: Hash, t: Tables, n: nat, offsets: map<nat, (seq<nat>, nat)>, count: nat)
    requires n <= DeckSize && count == Choose(n, 5)
    requires forall m: nat :: m in offsets <==> m < count
    requires ScoredOffsets(t, n, offsets)
    requires LeafLevelOf(h, offsets, count).Err?
    ensures !AllRecords(t, n)
  {
    EntriesEncode(t, n, offsets, count);
  }

  /** The records of five-card entries lie at 7m .. 7m + 6 of the file they are
      flattened into, and the leaf digests are those of the file's records. */
  lemma LeafFileSlices(h: Hash, offsets: map<nat, (seq<nat>, nat)>, count: nat)
    requires forall m: nat :: m < count ==> m in offsets && |offsets[m].0| == 5
    requires LeafRecords(offsets, count).Ok?
    ensures var rs := LeafRecords(offsets, count).value;
      |Flatten(rs)| == LeafSize * count && Digests(h, rs) == FileDigests(h, Flatten(rs)) &&
      forall m :: 0 <= m < count ==> Ok(Flatten(rs)[LeafSize * m .. LeafSize * m + LeafSize]) == EncodeLeaf(offsets[m].0, offsets[m].1)
  {
    LeafRecordsAt(offsets, count);
    var rs := LeafRecords(offsets, count).value;
    assert forall m :: 0 <= m < |rs| ==> |rs[m]| == LeafSize;
    FlattenFixed(rs);
    DigestsOfFile(h, rs);
  }

  /** Then scores.leaf holds record m at 7m .. 7m + 6, and the leaf digests are those
      of the file's records. */
  lemma LeafFileLayout(h: Hash, t: Tables, n: nat, offsets: map<nat, (seq<nat>, nat)>, count: nat)
    requires n <= DeckSize && count == Choose(n, 5)
    requires forall m: nat :: m in offsets <==> m < count
    requires ScoredOffsets(t, n, offsets)
    requires LeafRecords(offsets, count).Ok?
    ensures var rs := LeafRecords(offsets, count).value;
      LeafFileOf(t, n, Flatten(rs)) && Digests(h, rs) == FileDigests(h, Flatten(rs))
  {
    EntriesAreHands(t, n, offsets, count);
    LeafFileSlices(h, offsets, count);
    SlicesAreRecords(t, n, offsets, count, Flatten(LeafRecords(offsets, count).value));
  }

  /** Every entry of the loop holds a five-card hand. */
  lemma EntriesAreHands(t: Tables, n: nat, offsets: map<nat, (seq<nat>, nat)>, count: nat)
    requires n <= DeckSize
    requires forall m: nat :: m in offsets <==> m < count
    requires ScoredOffsets(t, n, offsets)
    ensures forall m: nat :: m < count ==> m in offsets && |offsets[m].0| == 5
  {
    forall m: nat | m < count
      ensures m in offsets && |offsets[m].0| == 5
    {
      assert IsHandAt(offsets[m].0, n, m);
    }
  }

  /** When byte slice m of a file is the encoding of entry m, the file is the leaf file
      of the hands of the first n cards: entry m holds the hand with index m and its
      score. */
  lemma SlicesAreRecords(t: Tables, n: nat, offsets: map<nat, (seq<nat>, nat)>, count: nat, file: seq<Byte>)
    requires n <= DeckSize && count == Choose(n, 5)
    requires forall m: nat :: m in offsets <==> m < count
    requires ScoredOffsets(t, n, offsets)
    requires |file| == LeafSize * count
    requires forall m :: 0 <= m < count ==> Ok(file[LeafSize * m .. LeafSize * m + LeafSize]) == EncodeLeaf(offsets[m].0, offsets[m].1)
    ensures LeafFileOf(t, n, file)
  {
    EntriesAreRecords(t, n, offsets, count);
  }

  /** The entry stored at key m encodes to the record of the hand with index m. */
  lemma EntriesAreRecords(t: Tables, n: nat, offsets: map<nat, (seq<nat>, nat)>, count: nat)
    requires n <= DeckSize && count == Choose(n, 5)
    requires forall m: nat :: m in offsets <==> m < count
    requires ScoredOffsets(t, n, offsets)
    ensures forall m :: 0 <= m < count ==> EncodeLeaf(offsets[m].0, offsets[m].1) == Record(t, NthHand(n, m))
  {
    forall m | 0 <= m < count
      ensures EncodeLeaf(offsets[m].0, offsets[m].1) == Record(t, NthHand(n, m))
    {
      HandAtIsUnrank(offsets[m].0, n, m);
    }
  }

  /** The files main leaves for the 2598960 hands of the first n cards: scores.leaf
      holds the record of the hand with index m at bytes 7m .. 7m + 6, and the level
      files, the root and the widths are those of the Merkle loop over the digests
      of those records, which takes 22 passes. */
  predicate DatabaseOfDeck(h: Hash, t: Tables, n: nat, db: Database)
    requires n <= DeckSize && Choose(n, 5) == HandCount
  {
    LeafFileOf(t, n, db.leafFile) && TreeOfLeafFile(h, db)
  }

  /** The level files, the root and the widths are those of the Merkle loop over the
      digests of the records in scores.leaf, which takes 22 passes over 2598960 leaves. */
  predicate TreeOfLeafFile(h: Hash, db: Database)
  {
    var leaves := FileDigests(h, db.leafFile);
    |leaves| == HandCount && BuildFrom(h, leaves, 0).Ok? &&
    var tree := BuildFrom(h, leaves, 0).value;
    db.levelFiles == LevelFiles(tree.levels) &&
    db.rootFile == tree.root && db.widths == tree.widths &&
    |tree.widths| == 22
  }

  /** main(): score every hand of the first n cards, check that there are 2598960 of
      them, write the records in index order to scores.leaf and build the Merkle tree
      over their digests. It fails exactly when some hand cannot be scored, the count
      is not 2598960, or some score does not fit in 16 bits (for the 52-card deck the
      count holds, DeckChoose). */
  method BuildDatabase(t: Tables, h: Hash, n: nat) returns (r: Result<Database>)
    requires n <= DeckSize
    ensures r.Ok? <==> Choose(n, 5) == HandCount && AllRecords(t, n)
    ensures r.Ok? ==> DatabaseOfDeck(h, t, n, r.value)
  {
    var scored := BuildOffsets(t, n);
    if scored.Err? {
      SomeRecordFails(t, n);
      return Err(scored.error);
    }
    var offsets := scored.value;
    if |offsets| != HandCount {
      return Err(CountMismatch);
    }
    r := WriteFiles(t, h, n, offsets);
  }

  /** The rest of main once offsets holds all 2598960 scored hands: the leaf loop
      writes scores.leaf, then the Merkle loop writes the level files and the root.
      It fails exactly when the record of some hand does not exist. */
  method WriteFiles(t: Tables, h: Hash, n: nat, offsets: map<nat, (seq<nat>, nat)>) returns (r: Result<Database>)
    requires n <= DeckSize && Choose(n, 5) == HandCount
    requires forall m: nat :: m in offsets <==> m < HandCount
    requires ScoredOffsets(t, n, offsets)
    ensures r.Ok? <==> AllRecords(t, n)
    ensures r.Ok? ==> DatabaseOfDeck(h, t, n, r.value)
  {
    var leaf := HashLeaves(h, offsets, HandCount);
    if leaf.Err? {
      SomeEntryFails(h, t, n, offsets, HandCount);
      return Err(leaf.error);
    }
    LeavesFit(h, leaf.value.leaves);
    var tree := BuildTree(h, leaf.value.leaves);
    var built := tree.value;
    var db := Database(leaf.value.file, LevelFiles(built.levels), built.root, built.widths);
    DatabaseLayout(h, t, n, offsets, leaf.value, db);
    r := Ok(db);
  }

  /** A hand without a score has no record. */
  lemma SomeRecordFails(t: Tables, n: nat)
    requires n <= DeckSize && !AllScores(t, n)
    ensures !AllRecords(t, n)
  {
    if AllRecords(t, n) {
      RecordsHaveScores(t, n);
    }
  }

  /** When every hand has a record, every hand has a score. */
  lemma RecordsHaveScores(t: Tables, n: nat)
    requires n <= DeckSize && AllRecords(t, n)
    ensures AllScores(t, n)
  {
    forall m | 0 <= m < Choose(n, 5) ensures HandScore(t, n, m).Ok? {
      RecordHasScore(t, NthHand(n, m));
    }
  }

  /** scores.leaf as main writes it for the hands of the first n cards: the record of
      the hand with index m at bytes 7m .. 7m + 6, for every m. */
  predicate LeafFileOf(t: Tables, n: nat, file: seq<Byte>)
    requires n <= DeckSize
  {
    |file| == LeafSize * Choose(n, 5) &&
    forall m :: 0 <= m < Choose(n, 5) ==> Ok(file[LeafSize * m .. LeafSize * m + LeafSize]) == Record(t, NthHand(n, m))
  }

  /** A hand with a record has a score. */
  lemma RecordHasScore(t: Tables, hand: seq<CardId>)
    requires |hand| == 5 && Record(t, hand).Ok?
    ensures Eval5(t, hand).Ok?
  {
  }

  /** The files main writes from the leaf level of all 2598960 hands: scores.leaf holds
      record m at 7m .. 7m + 6, the leaves are the digests of its records, and the
      Merkle loop over them takes 22 passes. */
  lemma DatabaseLayout(h: Hash, t: Tables, n: nat, offsets: map<nat, (seq<nat>, nat)>, leaf: LeafLevel, db: Database)
    requires n <= DeckSize && Choose(n, 5) == HandCount
    requires forall m: nat :: m in offsets <==> m < HandCount
    requires ScoredOffsets(t, n, offsets)
    requires LeafLevelOf(h, offsets, HandCount) == Ok(leaf) && BuildFrom(h, leaf.leaves, 0).Ok?
    requires var tree := BuildFrom(h, leaf.leaves, 0).value;
             db == Database(leaf.file, LevelFiles(tree.levels), tree.root, tree.widths)
    ensures AllRecords(t, n)
    ensures DatabaseOfDeck(h, t, n, db)
  {
    EntriesEncode(t, n, offsets, HandCount);
    LeafFileLayout(h, t, n, offsets, HandCount);
    DeckTreeDepth(h, leaf.leaves);
  }
}
