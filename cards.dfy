/** The deck of py/genset.py:16-26: dense card ids 0..51 (rank-major, id = 4 * rank + suit),
    their two-character display names, and the 32-bit word each card is packed into
    for the evaluator (low byte a prime per rank, bits 8-11 the rank, one suit bit
    among bits 12-15, one rank bit among bits 16-28). */
module Cards {

  import opened Outcomes

  const DeckSize: nat := 52

  type CardId = c: nat | c < 52
  type Rank = r: nat | r < 13
  type Suit = s: nat | s < 4

  function RankOf(c: CardId): (r: Rank) { c / 4 }
  function SuitOf(c: CardId): (s: Suit) { c % 4 }

  /** The id of the card (rank, suit): its position in a rank-major product. */
  function CardOf(r: Rank, s: Suit): (c: CardId)
    ensures RankOf(c) == r && SuitOf(c) == s
  {
    4 * r + s
  }

  lemma CardOfRankSuit(c: CardId)
    ensures CardOf(RankOf(c), SuitOf(c)) == c
  {
  }

  // ---------------------------------------------------------------------------
  // Bit encoding (_SUITS, _RANKS, _PRIMES, _DECK)

  /** _SUITS: the suit bit 1 << (s + 12) of each suit. */
  const Suits: seq<bv32> := [0x1000, 0x2000, 0x4000, 0x8000]

  /** _RANKS: the rank bit 1 << (r + 16) and the rank nibble r << 8 of each rank. */
  const Ranks: seq<bv32> := [0x10000, 0x20100, 0x40200, 0x80300, 0x100400, 0x200500, 0x400600, 0x800700, 0x1000800, 0x2000900, 0x4000a00, 0x8000b00, 0x10000c00]

  /** _PRIMES: one prime per rank, 2 for a deuce up to 41 for an ace. */
  const Primes: seq<bv32> := [2, 3, 5, 7, 11, 13, 17, 19, 23, 29, 31, 37, 41]

  /** 1 << r for each rank: the rank bit of _RANKS[r] shifted down by 16. */
  const RankBits: seq<bv32> := [0x1, 0x2, 0x4, 0x8, 0x10, 0x20, 0x40, 0x80, 0x100, 0x200, 0x400, 0x800, 0x1000]

  /** _SUITS[s] is the value of the comprehension that builds it. */
  lemma SuitAsWritten(s: Suit)
    ensures Suits[s] == (1 as bv32) << (s + 12)
  {
    if s == 0 {} else if s == 1 {} else if s == 2 {} else {}
  }

  /** _RANKS[r] is the value of the comprehension that builds it. */
  lemma RankAsWritten(r: Rank)
    ensures Ranks[r] == ((1 as bv32) << (r + 16)) | ((r as bv32) << 8)
  {
    if r == 0 {} else if r == 1 {} else if r == 2 {} else if r == 3 {} else if r == 4 {}
    else if r == 5 {} else if r == 6 {} else if r == 7 {} else if r == 8 {} else if r == 9 {}
    else if r == 10 {} else if r == 11 {} else {}
  }

  /** RankBits[r] is 1 << r. */
  lemma RankBitAsWritten(r: Rank)
    ensures RankBits[r] == (1 as bv32) << r
  {
    if r == 0 {} else if r == 1 {} else if r == 2 {} else if r == 3 {} else if r == 4 {}
    else if r == 5 {} else if r == 6 {} else if r == 7 {} else if r == 8 {} else if r == 9 {}
    else if r == 10 {} else if r == 11 {} else {}
  }

  /** A rank entry occupies only its nibble (bits 8-11) and its rank bit. */
  lemma RankFields(r: Rank)
    ensures Ranks[r] & 0xff == 0 && Ranks[r] & 0xf000 == 0 && Ranks[r] >> 16 == RankBits[r]
    ensures (Ranks[r] >> 8) & 0xf == r as bv32
  {
    if r == 0 {} else if r == 1 {} else if r == 2 {} else if r == 3 {} else if r == 4 {}
    else if r == 5 {} else if r == 6 {} else if r == 7 {} else if r == 8 {} else if r == 9 {}
    else if r == 10 {} else if r == 11 {} else {}
  }

  /** A suit entry occupies only bits 12-15. */
  lemma SuitFields(s: Suit)
    ensures Suits[s] & 0xff == 0 && Suits[s] & 0xf000 == Suits[s] && Suits[s] >> 16 == 0 && (Suits[s] >> 8) & 0xf == 0
  {
    if s == 0 {} else if s == 1 {} else if s == 2 {} else {}
  }

  /** A prime occupies only the low byte. */
  lemma PrimeFields(r: Rank)
    ensures Primes[r] & 0xff == Primes[r] && Primes[r] & 0xf000 == 0 && Primes[r] >> 16 == 0 && (Primes[r] >> 8) & 0xf == 0
  {
    if r == 0 {} else if r == 1 {} else if r == 2 {} else if r == 3 {} else if r == 4 {}
    else if r == 5 {} else if r == 6 {} else if r == 7 {} else if r == 8 {} else if r == 9 {}
    else if r == 10 {} else if r == 11 {} else {}
  }

  /** Masks and shifts distribute over the or of three words. */
  lemma FieldsOfOr(a: bv32, b: bv32, c: bv32)
    ensures (a | b | c) & 0xff == (a & 0xff) | (b & 0xff) | (c & 0xff)
    ensures (a | b | c) & 0xf000 == (a & 0xf000) | (b & 0xf000) | (c & 0xf000)
    ensures (a | b | c) >> 16 == (a >> 16) | (b >> 16) | (c >> 16)
    ensures ((a | b | c) >> 8) & 0xf == ((a >> 8) & 0xf) | ((b >> 8) & 0xf) | ((c >> 8) & 0xf)
  {
  }

  /** The packed word of the card (r, s): each field holds its own table's part. */
  lemma PackedFields(r: Rank, s: Suit)
    ensures (Ranks[r] | Suits[s] | Primes[r]) & 0xff == Primes[r]
    ensures (Ranks[r] | Suits[s] | Primes[r]) & 0xf000 == Suits[s]
    ensures (Ranks[r] | Suits[s] | Primes[r]) >> 16 == RankBits[r]
    ensures ((Ranks[r] | Suits[s] | Primes[r]) >> 8) & 0xf == r as bv32
  {
    FieldsOfOr(Ranks[r], Suits[s], Primes[r]);
    RankFields(r);
    SuitFields(s);
    PrimeFields(r);
  }

  /** _DECK[c] (and LOOKUP[DECK[c]], by LookupOfName): the packed word of card c. Its low byte is the
      rank's prime, bits 12-15 hold only the suit's bit and the bits from 16 up only
      the rank's bit. */
  function Word(c: CardId): (w: bv32)
    ensures w & 0xff == Primes[RankOf(c)]
    ensures w & 0xf000 == Suits[SuitOf(c)]
    ensures w >> 16 == RankBits[RankOf(c)]
  {
    PackedFields(RankOf(c), SuitOf(c));
    Ranks[RankOf(c)] | Suits[SuitOf(c)] | Primes[RankOf(c)]
  }

  /** Field by field: the prime in bits 0-7, the rank in bits 8-11, exactly one suit
      bit 12 + s among bits 12-15 and exactly one rank bit 16 + r above them. */
  lemma WordFields(c: CardId)
    ensures Word(c) & 0xff == Primes[RankOf(c)]
    ensures (Word(c) >> 8) & 0xf == RankOf(c) as bv32
    ensures Word(c) & 0xf000 == (1 as bv32) << (12 + SuitOf(c))
    ensures Word(c) >> 16 == (1 as bv32) << RankOf(c)
  {
    PackedFields(RankOf(c), SuitOf(c));
    SuitAsWritten(SuitOf(c));
    RankBitAsWritten(RankOf(c));
  }

  // ---------------------------------------------------------------------------
  // Display names (RANKS, SUITS, DECK, DECKIDX)

  const RankChars: string := "23456789TJQKA"
  const SuitChars: string := "cdhs"

  /** DECK[c]: rank character then suit character. DECKIDX maps it back to c, so the 52
      names are distinct. */
  function Name(c: CardId): (name: string)
    ensures IdOfName(name) == Some(c)
  {
    var r, s := RankOf(c), SuitOf(c);
    CharsDistinct();
    IndexOfDistinct(RankChars, r);
    IndexOfDistinct(SuitChars, s);
    CardOfRankSuit(c);
    var name := [RankChars[r], SuitChars[s]];
    assert IdOfName(name) == Some(CardOf(r, s));
    name
  }

  function IndexOf(s: string, ch: char): (r: Option<nat>)
    ensures r.Some? ==> r.value < |s| && s[r.value] == ch && forall j :: 0 <= j < r.value ==> s[j] != ch
    ensures r.None? ==> forall j :: 0 <= j < |s| ==> s[j] != ch
  {
    if s == [] then None
    else if s[0] == ch then Some(0)
    else match IndexOf(s[1..], ch)
      case None => None
      case Some(i) => Some(i + 1)
  }

  /** DECKIDX[name], with None for a name that is not a key (a KeyError in Python).
      A name is a key exactly when it is a rank character followed by a suit
      character, and it maps to the card of that rank and suit. */
  function IdOfName(name: string): (r: Option<CardId>)
    ensures r.Some? <==> |name| == 2 && name[0] in RankChars && name[1] in SuitChars
    ensures r.Some? ==> name == [RankChars[RankOf(r.value)], SuitChars[SuitOf(r.value)]]
  {
    if |name| != 2 then None
    else match (IndexOf(RankChars, name[0]), IndexOf(SuitChars, name[1]))
      case (Some(r), Some(s)) => Some(CardOf(r, s))
      case _ => None
  }

  predicate Distinct(s: string)
  {
    forall i, j :: 0 <= i < j < |s| ==> s[i] != s[j]
  }

  lemma CharsDistinct()
    ensures Distinct(RankChars) && Distinct(SuitChars)
  {
  }

  lemma IndexOfDistinct(s: string, i: nat)
    requires Distinct(s) && i < |s|
    ensures IndexOf(s, s[i]) == Some(i)
  {
  }

  /** LOOKUP[name] = dict(zip(DECK, _DECK))[name]: the word of the card a name
      denotes, or None for a name that is not in DECK (a KeyError in Python). */
  function Lookup(name: string): (w: Option<bv32>)
  {
    match IdOfName(name)
    case None => None
    case Some(c) => Some(Word(c))
  }

  /** DECK and _DECK come from the same rank-major product, so zipping them pairs the
      name of card c with the word of card c. */
  lemma LookupOfName(c: CardId)
    ensures Lookup(Name(c)) == Some(Word(c))
  {
  }

  /** LOOKUP has no other keys: a name it accepts is DECK of some card, and maps to
      that card's word. */
  lemma LookupOnlyNames(name: string)
    requires Lookup(name).Some?
    ensures exists c: CardId :: name == Name(c) && Lookup(name) == Some(Word(c))
  {
    var c := IdOfName(name).value;
    assert name == Name(c);
  }
}
