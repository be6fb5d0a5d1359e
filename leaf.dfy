/** The record scores.leaf holds for each hand (py/genset.py:71, 94): the five card
    ids as bytes, then the score as an unsigned 16-bit little-endian integer. */
module LeafEncoding {

  import opened Outcomes

  type Byte = x: int | 0 <= x < 256

  /** A SHA-256 digest. */
  type Digest = s: seq<Byte> | |s| == 32 witness seq(32, _ => 0)

  const LeafSize: nat := 7

  /** bytes(z): a ValueError unless every element is a byte. */
  function ToBytes(z: seq<nat>): (r: Result<seq<Byte>>)
    ensures r.Ok? <==> forall i :: 0 <= i < |z| ==> z[i] < 256
    ensures r.Ok? ==> r.value == z
  {
    if forall i :: 0 <= i < |z| ==> z[i] < 256 then Ok(seq(|z|, i requires 0 <= i < |z| => z[i] as Byte))
    else Err(ByteOutOfRange)
  }

  /** struct.pack('<H', score): low byte first; a struct.error outside 0..65535. */
  function PackU16(score: nat): (r: Result<seq<Byte>>)
    ensures r.Ok? <==> score < 0x1_0000
    ensures r.Ok? ==> |r.value| == 2 && r.value[0] as nat + 256 * r.value[1] as nat == score
  {
    if score < 0x1_0000 then Ok([score % 256, score / 256]) else Err(ScoreOutOfRange)
  }

  /** entry = bytes(z) + struct.pack('<H', score). */
  function EncodeLeaf(z: seq<nat>, score: nat): (r: Result<seq<Byte>>)
    ensures r.Ok? <==> (forall i :: 0 <= i < |z| ==> z[i] < 256) && score < 0x1_0000
    ensures r.Ok? ==> |r.value| == |z| + 2 && r.value[..|z|] == z
    ensures r.Ok? ==> r.value[|z|] == score % 256 && r.value[|z| + 1] == score / 256
  {
    match ToBytes(z)
    case Err(e) => Err(e)
    case Ok(b) =>
      match PackU16(score)
      case Err(e) => Err(e)
      case Ok(p) => Ok(b + p)
  }

  /** Reading a record back: five card bytes and the little-endian score. */
  function DecodeLeaf(entry: seq<Byte>): (r: Option<(seq<nat>, nat)>)
    ensures r.Some? <==> |entry| == LeafSize
    ensures r.Some? ==> |r.value.0| == 5 && r.value.1 < 0x1_0000
  {
    if |entry| == LeafSize then Some((entry[..5], entry[5] as nat + 256 * entry[6] as nat)) else None
  }

  /** A five-card record decodes to the hand and score it was made from. */
  lemma DecodeEncode(z: seq<nat>, score: nat)
    requires |z| == 5
    requires EncodeLeaf(z, score).Ok?
    ensures DecodeLeaf(EncodeLeaf(z, score).value) == Some((z, score))
  {
  }

  /** Every 7-byte record is the encoding of what it decodes to. */
  lemma EncodeDecode(entry: seq<Byte>)
    requires |entry| == LeafSize
    ensures var (z, score) := DecodeLeaf(entry).value; EncodeLeaf(z, score) == Ok(entry)
  {
    var (z, score) := DecodeLeaf(entry).value;
    assert entry == entry[..5] + [entry[5], entry[6]];
  }
}
