/** The Merkle tree over the leaf digests (py/genset.py:98-119). Each pass hashes
    adjacent pairs p + n; an odd last node is paired with 32 copies of the pass number
    `level`. Passes repeat until a single node, the root, remains. SHA-256 is a
    parameter: any function from byte strings to 32-byte digests. */
module Merkle {

  import opened Outcomes
  import opened LeafEncoding

  type Hash = seq<Byte> -> Digest

  function Pow2(k: nat): (p: nat)
    ensures p >= 1
  {
    if k == 0 then 1 else 2 * Pow2(k - 1)
  }

  lemma {:induction false} Pow2Monotone(j: nat, k: nat)
    requires j <= k
    ensures Pow2(j) <= Pow2(k)
    decreases k
  {
    if j < k {
      Pow2Monotone(j, k - 1);
    }
  }

  /** bytes([level] * 32): a ValueError once level no longer fits in a byte. */
  function Fill(level: nat): (f: Result<Digest>)
    ensures f.Ok? <==> level < 256
    ensures f.Ok? ==> forall i :: 0 <= i < 32 ==> f.value[i] == level
  {
    if level < 256 then Ok(seq(32, _ => level as Byte)) else Err(ByteOutOfRange)
  }

  /** p + n: the 64 bytes a parent hashes. */
  function Join(p: Digest, n: Digest): (b: seq<Byte>)
    ensures |b| == 64 && b[..32] == p && b[32..] == n
  {
    p + n
  }

  /** Node i of the next level: the hash of nodes 2i and 2i + 1, or of node 2i and the
      fill when 2i is last. */
  function Parent(h: Hash, ml: seq<Digest>, i: nat, fill: Digest): (d: Digest)
    requires 2 * i < |ml|
  {
    h(Join(ml[2 * i], if 2 * i + 1 < |ml| then ml[2 * i + 1] else fill))
  }

  /** One pass of the while loop: ceil(w / 2) parents of a level of width w, or the
      fill's error when w is odd and level is 256 or more. */
  function NextLevel(h: Hash, ml: seq<Digest>, level: nat): (r: Result<seq<Digest>>)
    ensures r.Err? <==> |ml| % 2 == 1 && level >= 256
    ensures r.Ok? ==> |r.value| == (|ml| + 1) / 2
    ensures r.Ok? && |ml| % 2 == 1 ==> r.value[|ml| / 2] == h(Join(ml[|ml| - 1], seq(32, _ => level as Byte)))
    ensures r.Ok? ==> forall i :: 0 <= i < |ml| / 2 ==> r.value[i] == h(Join(ml[2 * i], ml[2 * i + 1]))
  {
    if |ml| % 2 == 1 && level >= 256 then Err(ByteOutOfRange)
    else
      var fill := if level < 256 then Fill(level).value else seq(32, _ => 0);
      Ok(seq((|ml| + 1) / 2, i requires 0 <= i < (|ml| + 1) / 2 => Parent(h, ml, i, fill)))
  }

  /** The inner for loop: i runs over 0, 2, 4, ... below the width, appending one
      parent per step. */
  method HashLevel(h: Hash, ml: seq<Digest>, level: nat) returns (r: Result<seq<Digest>>)
    ensures r == NextLevel(h, ml, level)
  {
    var next: seq<Digest> := [];
    var i := 0;
    while i < |ml|
      invariant i % 2 == 0 && i <= |ml| + 1
      invariant i < |ml| ==> |next| == i / 2
      invariant i > |ml| ==> |next| == (|ml| + 1) / 2 && |ml| % 2 == 1 && level < 256
      invariant i == |ml| ==> |next| == |ml| / 2
      invariant forall j :: 0 <= j < |next| && 2 * j + 1 < |ml| ==> next[j] == h(Join(ml[2 * j], ml[2 * j + 1]))
      invariant forall j :: 0 <= j < |next| && 2 * j + 1 >= |ml| ==> next[j] == h(Join(ml[2 * j], seq(32, _ => level as Byte)))
    {
      var p, n;
      if i + 1 >= |ml| {
        var fill := Fill(level);
        if fill.Err? {
          return Err(fill.error);
        }
        p, n := ml[i], fill.value;
      } else {
        p, n := ml[i], ml[i + 1];
      }
      next := next + [h(Join(p, n))];
      i := i + 2;
    }
    r := Ok(next);
    assert r.value == NextLevel(h, ml, level).value;
  }

  /** The bytes a pass writes to scores.NN: its nodes in order, node i at bytes
      32i .. 32i + 31. */
  function Concat(nodes: seq<Digest>): (bytes: seq<Byte>)
    ensures |bytes| == 32 * |nodes|
    ensures forall i :: 0 <= i < |nodes| ==> bytes[32 * i .. 32 * i + 32] == nodes[i]
  {
    if nodes == [] then []
    else
      var init, last := Concat(nodes[..|nodes| - 1]), nodes[|nodes| - 1];
      assert forall i :: 0 <= i < |nodes| ==> (init + last)[32 * i .. 32 * i + 32] == nodes[i] by {
        forall i | 0 <= i < |nodes| ensures (init + last)[32 * i .. 32 * i + 32] == nodes[i] {
          if i < |nodes| - 1 {
            assert (init + last)[32 * i .. 32 * i + 32] == init[32 * i .. 32 * i + 32];
          } else {
            assert (init + last)[32 * i .. 32 * i + 32] == last;
          }
        }
      }
      init + last
  }

  /** What the while loop leaves behind: the level each pass appends (written to
      scores.00, scores.01, ...), the widths list and the root (scores.root). */
  datatype Tree = Tree(levels: seq<seq<Digest>>, widths: seq<nat>, root: Digest)

  /** The passes from a level of width at least one, numbered from `level` on. Up to
      2^(256 - level) nodes every odd level comes before pass 256, so the fill always
      exists and the passes complete. */
  function BuildFrom(h: Hash, ml: seq<Digest>, level: nat): (r: Result<Tree>)
    requires |ml| >= 1
    ensures level <= 256 && |ml| <= Pow2(256 - level) ==> r.Ok?
    decreases |ml|
  {
    if |ml| == 1 then Ok(Tree([], [], ml[0]))
    else
      assert level <= 256 && |ml| <= Pow2(256 - level) ==> level < 256 && Pow2(256 - level) == 2 * Pow2(256 - (level + 1));
      match NextLevel(h, ml, level)
      case Err(e) => Err(e)
      case Ok(next) => Prefix(next, |ml|, BuildFrom(h, next, level + 1))
  }

  /** A pass that produced `next` from a level of width w, followed by the rest. */
  function Prefix(next: seq<Digest>, w: nat, rest: Result<Tree>): (r: Result<Tree>)
    ensures r.Ok? <==> rest.Ok?
    ensures r.Ok? ==> r.value == Tree([next] + rest.value.levels, [w] + rest.value.widths, rest.value.root)
  {
    match rest
    case Err(e) => Err(e)
    case Ok(t) => Ok(Tree([next] + t.levels, [w] + t.widths, t.root))
  }

  /** The passes already made (levels, widths) followed by the passes still to come. */
  function Extend(levels: seq<seq<Digest>>, widths: seq<nat>, rest: Result<Tree>): (r: Result<Tree>)
    ensures r.Ok? <==> rest.Ok?
    ensures r.Ok? ==> r.value == Tree(levels + rest.value.levels, widths + rest.value.widths, rest.value.root)
  {
    match rest
    case Err(e) => Err(e)
    case Ok(t) => Ok(Tree(levels + t.levels, widths + t.widths, t.root))
  }

  /** The while loop of main: one pass per iteration until a single node remains. The
      source loops forever on an empty leaf level, so at least one leaf is required. */
  method BuildTree(h: Hash, leaves: seq<Digest>) returns (r: Result<Tree>)
    requires |leaves| >= 1
    ensures r == BuildFrom(h, leaves, 0)
  {
    var ml := leaves;
    var level := 0;
    var levels: seq<seq<Digest>> := [];
    var widths: seq<nat> := [];
    ExtendNothing(BuildFrom(h, ml, level));
    while |ml| != 1
      invariant |ml| >= 1
      invariant BuildFrom(h, leaves, 0) == Extend(levels, widths, BuildFrom(h, ml, level))
      decreases |ml|
    {
      var next := HashLevel(h, ml, level);
      if next.Err? {
        return Err(next.error);
      }
      assert BuildFrom(h, ml, level) == Prefix(next.value, |ml|, BuildFrom(h, next.value, level + 1));
      ExtendPass(levels, widths, next.value, |ml|, BuildFrom(h, next.value, level + 1));
      widths := widths + [|ml|];
      levels := levels + [next.value];
      level := level + 1;
      ml := next.value;
    }
    r := Ok(Tree(levels, widths, ml[0]));
    assert levels + [] == levels && widths + [] == widths;
  }

  lemma ExtendNothing(rest: Result<Tree>)
    ensures Extend([], [], rest) == rest
  {
    if rest.Ok? {
      assert [] + rest.value.levels == rest.value.levels;
      assert [] + rest.value.widths == rest.value.widths;
    }
  }

  lemma ExtendPass(levels: seq<seq<Digest>>, widths: seq<nat>, next: seq<Digest>, w: nat, rest: Result<Tree>)
    ensures Extend(levels, widths, Prefix(next, w, rest)) == Extend(levels + [next], widths + [w], rest)
  {
    if rest.Ok? {
      assert levels + ([next] + rest.value.levels) == (levels + [next]) + rest.value.levels;
      assert widths + ([w] + rest.value.widths) == (widths + [w]) + rest.value.widths;
    }
  }

  /** The first pass: one level per width, none exactly for a single leaf (which is
      then the root), and otherwise the first width is the leaf count and the first
      level is one pass over the leaves. */
  lemma {:induction false} TreeStart(h: Hash, ml: seq<Digest>, level: nat)
    requires |ml| >= 1 && BuildFrom(h, ml, level).Ok?
    ensures var t := BuildFrom(h, ml, level).value;
            |t.levels| == |t.widths| &&
            (t.widths == [] <==> |ml| == 1) &&
            (|ml| == 1 ==> t.root == ml[0]) &&
            (t.widths != [] ==> t.widths[0] == |ml| && NextLevel(h, ml, level) == Ok(t.levels[0]))
    decreases |ml|
  {
    if |ml| > 1 {
      TreeStart(h, NextLevel(h, ml, level).value, level + 1);
    }
  }

  /** A tree of more than one node is its first pass followed by the tree of the
      level that pass produced. */
  lemma TreeCons(h: Hash, ml: seq<Digest>, level: nat)
    requires |ml| > 1 && BuildFrom(h, ml, level).Ok?
    ensures NextLevel(h, ml, level).Ok?
    ensures var next := NextLevel(h, ml, level).value;
            |next| >= 1 && BuildFrom(h, next, level + 1).Ok? &&
            var t, u := BuildFrom(h, ml, level).value, BuildFrom(h, next, level + 1).value;
            t.levels == [next] + u.levels && t.widths == [|ml|] + u.widths && t.root == u.root
  {
  }

  /** Every pass halves a width of at least two, rounding up. */
  lemma {:induction false} TreeHalves(h: Hash, ml: seq<Digest>, level: nat)
    requires |ml| >= 1 && BuildFrom(h, ml, level).Ok?
    ensures var t := BuildFrom(h, ml, level).value;
            |t.levels| == |t.widths| &&
            forall k :: 0 <= k < |t.widths| ==> t.widths[k] >= 2 && |t.levels[k]| == (t.widths[k] + 1) / 2
    decreases |ml|
  {
    if |ml| > 1 {
      TreeCons(h, ml, level);
      var next := NextLevel(h, ml, level).value;
      TreeHalves(h, next, level + 1);
      var t, u := BuildFrom(h, ml, level).value, BuildFrom(h, next, level + 1).value;
      forall k | 0 <= k < |t.widths| ensures t.widths[k] >= 2 && |t.levels[k]| == (t.widths[k] + 1) / 2 {
        if k > 0 {
          assert t.levels[k] == u.levels[k - 1] && t.widths[k] == u.widths[k - 1];
        }
      }
    }
  }

  /** Each later pass runs over the level the previous one produced, with the next
      level number. */
  lemma {:induction false} TreeSteps(h: Hash, ml: seq<Digest>, level: nat)
    requires |ml| >= 1 && BuildFrom(h, ml, level).Ok?
    ensures var t := BuildFrom(h, ml, level).value;
            forall k :: 0 <= k < |t.widths| - 1 && k + 1 < |t.levels| ==>
              t.widths[k + 1] == |t.levels[k]| && NextLevel(h, t.levels[k], level + k + 1) == Ok(t.levels[k + 1])
    decreases |ml|
  {
    if |ml| > 1 {
      TreeCons(h, ml, level);
      var next := NextLevel(h, ml, level).value;
      TreeSteps(h, next, level + 1);
      TreeStart(h, next, level + 1);
      var u := BuildFrom(h, next, level + 1).value;
      StepsCons(h, next, |ml|, u.levels, u.widths, level);
    }
  }

  /** Passes that chain from level + 1 on, preceded by the pass that produced their
      first input, chain from level on. */
  lemma StepsCons(h: Hash, next: seq<Digest>, w: nat, levels: seq<seq<Digest>>, widths: seq<nat>, level: nat)
    requires forall k :: 0 <= k < |widths| - 1 && k + 1 < |levels| ==>
               widths[k + 1] == |levels[k]| && NextLevel(h, levels[k], level + 1 + k + 1) == Ok(levels[k + 1])
    requires widths != [] && levels != [] ==> widths[0] == |next| && NextLevel(h, next, level + 1) == Ok(levels[0])
    ensures var ls, ws := [next] + levels, [w] + widths;
            forall k :: 0 <= k < |ws| - 1 && k + 1 < |ls| ==>
              ws[k + 1] == |ls[k]| && NextLevel(h, ls[k], level + k + 1) == Ok(ls[k + 1])
  {
    var ls, ws := [next] + levels, [w] + widths;
    forall k | 0 <= k < |ws| - 1 && k + 1 < |ls|
      ensures ws[k + 1] == |ls[k]| && NextLevel(h, ls[k], level + k + 1) == Ok(ls[k + 1])
    {
      if k > 0 {
        assert ls[k] == levels[k - 1] && ls[k + 1] == levels[k] && ws[k + 1] == widths[k];
        assert level + 1 + (k - 1) + 1 == level + k + 1;
      }
    }
  }

  /** The last pass leaves a single node, and that node is the root. */
  lemma {:induction false} TreeEnd(h: Hash, ml: seq<Digest>, level: nat)
    requires |ml| >= 1 && BuildFrom(h, ml, level).Ok?
    ensures var t := BuildFrom(h, ml, level).value;
            t.levels != [] ==> |t.levels[|t.levels| - 1]| == 1 && t.root == t.levels[|t.levels| - 1][0]
    decreases |ml|
  {
    if |ml| > 1 {
      var next := NextLevel(h, ml, level).value;
      TreeEnd(h, next, level + 1);
      TreeStart(h, next, level + 1);
    }
  }

  /** The loop makes ceil(log2 n) passes: none for a single leaf, otherwise the p with
      2^(p-1) < n <= 2^p. */
  lemma {:induction false} PassCount(h: Hash, ml: seq<Digest>, level: nat)
    requires |ml| >= 1 && BuildFrom(h, ml, level).Ok?
    ensures var p := |BuildFrom(h, ml, level).value.widths|;
            (p == 0 <==> |ml| == 1) && (p > 0 ==> Pow2(p - 1) < |ml| <= Pow2(p))
    decreases |ml|
  {
    if |ml| > 1 {
      var next := NextLevel(h, ml, level).value;
      PassCount(h, next, level + 1);
    }
  }

  /** Pass k runs over a level of width ceil(n / 2^k). */
  lemma {:induction false} WidthsHalve(h: Hash, ml: seq<Digest>, level: nat)
    requires |ml| >= 1 && BuildFrom(h, ml, level).Ok?
    ensures var t := BuildFrom(h, ml, level).value;
            forall k :: 0 <= k < |t.widths| ==> Pow2(k) * t.widths[k] < |ml| + Pow2(k) && |ml| <= Pow2(k) * t.widths[k]
    decreases |ml|
  {
    if |ml| > 1 {
      var next := NextLevel(h, ml, level).value;
      WidthsHalve(h, next, level + 1);
      var t := BuildFrom(h, ml, level).value;
      var u := BuildFrom(h, next, level + 1).value;
      assert t.widths == [|ml|] + u.widths;
      forall k | 0 <= k < |t.widths| ensures Pow2(k) * t.widths[k] < |ml| + Pow2(k) && |ml| <= Pow2(k) * t.widths[k] {
        if k > 0 {
          assert t.widths[k] == u.widths[k - 1];
          HalvedCeiling(|ml|, |next|, Pow2(k - 1), u.widths[k - 1]);
        }
      }
    }
  }

  /** Halving twice is halving once by the product: if c = ceil(n / 2) and
      w = ceil(c / d), then w = ceil(n / 2d). */
  lemma HalvedCeiling(n: nat, c: nat, d: nat, w: nat)
    requires c == (n + 1) / 2
    requires d * w < c + d && c <= d * w
    ensures 2 * d * w < n + 2 * d && n <= 2 * d * w
  {
  }
}
