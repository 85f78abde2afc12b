/**
  Bit-level recombination of two parent gene sequences into two child
  gene sequences. The same operators serve the data chromosomes (length
  `dimension`) and the mutation-probability genes (length
  `numberOfVectors + 1`); every random choice is an argument.
*/
module Recombination {
  import opened Words
  import opened Genome

  /**
    The splice of the gene holding the cut: with `mask1` the `kp` low
    bits, the first child takes the low bits of `g1` and the remaining
    bits of `g2`; the second child takes the mirror.
  */
  function Splice(g1: Word, g2: Word, kp: nat): (r: (Word, Word))
    requires kp < WIDTH
    ensures forall j | 0 <= j < WIDTH ::
      && r.0[j] == (if j < kp then g1[j] else g2[j])
      && r.1[j] == (if j < kp then g2[j] else g1[j])
    ensures And(r.0, r.1) == And(g1, g2)
    ensures Xor(r.0, r.1) == Xor(g1, g2)
    ensures kp == 0 ==> r == (g2, g1)
  {
    var mask1 := LowMask(kp);
    var mask2 := Not(mask1);
    var c1 := Or(And(g1, mask1), And(g2, mask2));
    var c2 := Or(And(g2, mask1), And(g1, mask2));
    if kp == 0 then
      SameBits(c1, g2);
      SameBits(c2, g1);
      (c1, c2)
    else
      (c1, c2)
  }

  /** Words that agree on every bit are equal. */
  lemma SameBits(x: Word, y: Word)
    requires forall j | 0 <= j < WIDTH :: x[j] == y[j]
    ensures x == y
  {
  }

  /**
    Single-point crossover of two gene sequences at flattened bit
    position `cut`: genes before `cut / bits` stay with their own parent,
    the gene at `cut / bits` is spliced at bit `cut % bits`, and later
    genes are exchanged between the children.
  */
  function SinglePoint(a: seq<Word>, b: seq<Word>, bits: nat, cut: nat): (r: (seq<Word>, seq<Word>))
    requires |a| == |b| && 1 <= bits <= WIDTH
    requires cut < |a| * bits
    ensures |r.0| == |a| && |r.1| == |a|
    ensures forall i | 0 <= i < |a| && i < cut / bits :: r.0[i] == a[i] && r.1[i] == b[i]
    ensures forall i | cut / bits < i < |a| :: r.0[i] == b[i] && r.1[i] == a[i]
    ensures cut / bits < |a| && (r.0[cut / bits], r.1[cut / bits]) == Splice(a[cut / bits], b[cut / bits], cut % bits)
    ensures BitsConserved(a, b, r.0, r.1, WIDTH)
  {
    GeneOfCut(cut, |a|, bits);
    SpliceAt(a, b, cut / bits, cut % bits)
  }

  /**
    The children of a crossover whose cut falls in gene `k` at bit `kp`:
    genes before `k` stay, gene `k` is spliced, later genes are exchanged.
  */
  function SpliceAt(a: seq<Word>, b: seq<Word>, k: nat, kp: nat): (r: (seq<Word>, seq<Word>))
    requires |a| == |b| && k < |a| && kp < WIDTH
    ensures |r.0| == |a| && |r.1| == |a|
    ensures forall i | 0 <= i < k :: r.0[i] == a[i] && r.1[i] == b[i]
    ensures forall i | k < i < |a| :: r.0[i] == b[i] && r.1[i] == a[i]
    ensures (r.0[k], r.1[k]) == Splice(a[k], b[k], kp)
    ensures BitsConserved(a, b, r.0, r.1, WIDTH)
  {
    var spliced := Splice(a[k], b[k], kp);
    var c1 := seq(|a|, i requires 0 <= i < |a| => if i < k then a[i] else if i == k then spliced.0 else b[i]);
    var c2 := seq(|a|, i requires 0 <= i < |a| => if i < k then b[i] else if i == k then spliced.1 else a[i]);
    SplitConserves(a, b, c1, c2, k, kp);
    (c1, c2)
  }

  /** Children built from the parents around a spliced gene `k` keep every parent bit. */
  lemma SplitConserves(a: seq<Word>, b: seq<Word>, c1: seq<Word>, c2: seq<Word>, k: nat, kp: nat)
    requires |a| == |b| == |c1| == |c2| && k < |a| && kp < WIDTH
    requires forall i | 0 <= i < |a| && i != k ::
      (c1[i] == a[i] && c2[i] == b[i]) || (c1[i] == b[i] && c2[i] == a[i])
    requires (c1[k], c2[k]) == Splice(a[k], b[k], kp)
    ensures BitsConserved(a, b, c1, c2, WIDTH)
  {
    forall i, j | 0 <= i < |a| && 0 <= j < WIDTH
      ensures (c1[i][j] == a[i][j] && c2[i][j] == b[i][j]) || (c1[i][j] == b[i][j] && c2[i][j] == a[i][j])
    {
      if i == k {
        var s := Splice(a[k], b[k], kp);
        assert s.0[j] == (if j < kp then a[k][j] else b[k][j]);
      }
    }
  }

  /**
    The bits a word sequence encodes, gene after gene, the `bits` low
    bits of each gene in increasing order.
  */
  function Flatten(genes: seq<Word>, bits: nat): (r: seq<bool>)
    requires bits <= WIDTH
    ensures |r| == |genes| * bits
  {
    if |genes| == 0 then []
    else Flatten(genes[..|genes| - 1], bits) + genes[|genes| - 1][..bits]
  }

  lemma {:induction false} FlattenAppend(x: seq<Word>, y: seq<Word>, bits: nat)
    requires bits <= WIDTH
    ensures Flatten(x + y, bits) == Flatten(x, bits) + Flatten(y, bits)
    decreases |y|
  {
    if |y| > 0 {
      var n := |y| - 1;
      assert (x + y)[..|x + y| - 1] == x + y[..n];
      FlattenAppend(x, y[..n], bits);
    } else {
      assert x + y == x;
    }
  }

  /** Flattening the three parts around gene `k`. */
  lemma FlattenAround(genes: seq<Word>, k: nat, bits: nat)
    requires k < |genes| && bits <= WIDTH
    ensures Flatten(genes, bits) == Flatten(genes[..k], bits) + genes[k][..bits] + Flatten(genes[k + 1..], bits)
  {
    assert genes == genes[..k] + [genes[k]] + genes[k + 1..];
    FlattenAppend(genes[..k] + [genes[k]], genes[k + 1..], bits);
    FlattenAppend(genes[..k], [genes[k]], bits);
    assert Flatten([genes[k]], bits) == genes[k][..bits] by {
      assert [genes[k]][..0] == [];
    }
  }

  /**
    Reassembled bit by bit, the first child of a single-point crossover
    is the first parent's bit string up to the cut followed by the second
    parent's from the cut on, and the second child is the mirror: no bit
    is lost or duplicated.
  */
  lemma SinglePointReassembles(a: seq<Word>, b: seq<Word>, bits: nat, cut: nat)
    requires |a| == |b| && 1 <= bits <= WIDTH
    requires cut < |a| * bits
    ensures var r := SinglePoint(a, b, bits, cut);
      && Flatten(r.0, bits) == Flatten(a, bits)[..cut] + Flatten(b, bits)[cut..]
      && Flatten(r.1, bits) == Flatten(b, bits)[..cut] + Flatten(a, bits)[cut..]
  {
    var k, kp := CutPosition(a, b, bits, cut);
    Reassembled(a, b, bits, cut, k, kp, SinglePoint(a, b, bits, cut));
  }

  /** The gene `k` and bit `kp` a single-point cut falls on. */
  lemma CutPosition(a: seq<Word>, b: seq<Word>, bits: nat, cut: nat) returns (k: nat, kp: nat)
    requires |a| == |b| && 1 <= bits <= WIDTH
    requires cut < |a| * bits
    ensures cut == k * bits + kp && k < |a| && kp < bits
    ensures SinglePoint(a, b, bits, cut) == SpliceAt(a, b, k, kp)
  {
    CutInRange(cut, |a|, bits);
    k, kp := cut / bits, cut % bits;
  }

  /** The reassembly of a crossover whose cut `cut` is bit `kp` of gene `k`. */
  lemma Reassembled(a: seq<Word>, b: seq<Word>, bits: nat, cut: nat, k: nat, kp: nat, r: (seq<Word>, seq<Word>))
    requires |a| == |b| && k < |a| && kp < bits <= WIDTH && cut == k * bits + kp
    requires r == SpliceAt(a, b, k, kp)
    ensures cut <= |a| * bits
    ensures Flatten(r.0, bits) == Flatten(a, bits)[..cut] + Flatten(b, bits)[cut..]
    ensures Flatten(r.1, bits) == Flatten(b, bits)[..cut] + Flatten(a, bits)[cut..]
  {
    SplicedFlat(a, b, bits, k, kp);
  }

  /** `SinglePointReassembles` for a cut given as gene `k` and bit `kp`. */
  lemma SplicedFlat(a: seq<Word>, b: seq<Word>, bits: nat, k: nat, kp: nat)
    requires |a| == |b| && k < |a| && kp < bits <= WIDTH
    ensures k * bits + kp < |a| * bits
    ensures var r := SpliceAt(a, b, k, kp);
      && Flatten(r.0, bits) == Flatten(a, bits)[..k * bits + kp] + Flatten(b, bits)[k * bits + kp..]
      && Flatten(r.1, bits) == Flatten(b, bits)[..k * bits + kp] + Flatten(a, bits)[k * bits + kp..]
  {
    var r := SpliceAt(a, b, k, kp);
    SpliceHalf(a, b, r.0, bits, k, kp);
    SpliceHalf(b, a, r.1, bits, k, kp);
  }

  /**
    One child of the single-point crossover at gene `k`, bit `kp`:
    own-parent genes before `k`, the splice at `k`, other-parent genes after.
  */
  lemma SpliceHalf(a: seq<Word>, b: seq<Word>, c: seq<Word>, bits: nat, k: nat, kp: nat)
    requires |a| == |b| == |c| && k < |a| && kp < bits <= WIDTH
    requires forall i | 0 <= i < k :: c[i] == a[i]
    requires forall i | k < i < |a| :: c[i] == b[i]
    requires forall j | 0 <= j < WIDTH :: c[k][j] == (if j < kp then a[k][j] else b[k][j])
    ensures k * bits + kp < |a| * bits
      && Flatten(c, bits) == Flatten(a, bits)[..k * bits + kp] + Flatten(b, bits)[k * bits + kp..]
  {
    GeneBitBelow(k, kp, bits, |a|);
    ChildPieces(a, b, c, bits, k, kp);
    SpliceFlat(a, b, c, bits, k, kp);
  }

  /** Bit `kp` of gene `k` lies inside the flattened bits of `len` genes. */
  lemma GeneBitBelow(k: nat, kp: nat, bits: nat, len: nat)
    requires k < len && kp < bits
    ensures k * bits + kp < len * bits
  {
    assert (k + 1) * bits == k * bits + bits;
    MulMonotone(bits, k + 1, len);
    assert bits * len == len * bits;
  }

  /** The three slices of a spliced child, as sequence equalities. */
  lemma ChildPieces(a: seq<Word>, b: seq<Word>, c: seq<Word>, bits: nat, k: nat, kp: nat)
    requires |a| == |b| == |c| && k < |a| && kp < bits <= WIDTH
    requires forall i | 0 <= i < k :: c[i] == a[i]
    requires forall i | k < i < |a| :: c[i] == b[i]
    requires forall j | 0 <= j < WIDTH :: c[k][j] == (if j < kp then a[k][j] else b[k][j])
    ensures c[..k] == a[..k] && c[k + 1..] == b[k + 1..]
    ensures c[k][..bits] == a[k][..kp] + b[k][kp..bits]
  {
    assert c[..k] == a[..k];
    assert c[k + 1..] == b[k + 1..];
    SplicedLowBits(a[k], b[k], c[k], bits, kp);
  }

  /** `SpliceHalf` once the child is given slice by slice. */
  lemma SpliceFlat(a: seq<Word>, b: seq<Word>, c: seq<Word>, bits: nat, k: nat, kp: nat)
    requires |a| == |b| == |c| && k < |a| && kp < bits <= WIDTH
    requires c[..k] == a[..k] && c[k + 1..] == b[k + 1..]
    requires c[k][..bits] == a[k][..kp] + b[k][kp..bits]
    ensures Flatten(c, bits) == Flatten(a, bits)[..k * bits + kp] + Flatten(b, bits)[k * bits + kp..]
  {
    FlattenAround(a, k, bits);
    FlattenAround(b, k, bits);
    FlattenAround(c, k, bits);
    var pa, pb := Flatten(a[..k], bits), Flatten(b[..k], bits);
    assert |pa| == k * bits == |pb|;
    SliceOfSlice(a[k], bits, kp);
    SliceOfSlice(b[k], bits, kp);
    SpliceConcat(Flatten(a, bits), Flatten(b, bits), Flatten(c, bits), pa, pb,
                 a[k][..bits], b[k][..bits], Flatten(a[k + 1..], bits), Flatten(b[k + 1..], bits), kp);
  }

  /** Concatenation-level core of `SpliceHalf`. */
  lemma SpliceConcat(fa: seq<bool>, fb: seq<bool>, fc: seq<bool>, pa: seq<bool>, pb: seq<bool>,
                     xa: seq<bool>, xb: seq<bool>, sa: seq<bool>, sb: seq<bool>, n: nat)
    requires fa == pa + xa + sa && fb == pb + xb + sb && |pa| == |pb|
    requires |xa| == |xb| && n <= |xa|
    requires fc == pa + (xa[..n] + xb[n..]) + sb
    ensures fc == fa[..|pa| + n] + fb[|pa| + n..]
  {
    PrefixThrough(fa, pa, xa, sa, n);
    SuffixFrom(fb, pb, xb, sb, n);
    Regroup(pa, xa[..n], xb[n..], sb);
  }

  lemma SliceOfSlice(x: seq<bool>, m: nat, n: nat)
    requires n <= m <= |x|
    ensures x[..m][..n] == x[..n] && x[..m][n..] == x[n..m]
  {
  }

  lemma Regroup(p: seq<bool>, x: seq<bool>, y: seq<bool>, s: seq<bool>)
    ensures p + (x + y) + s == (p + x) + (y + s)
  {
  }

  lemma SplicedLowBits(x: Word, y: Word, z: Word, bits: nat, kp: nat)
    requires kp <= bits <= WIDTH
    requires forall j | 0 <= j < WIDTH :: z[j] == (if j < kp then x[j] else y[j])
    ensures z[..bits] == x[..kp] + y[kp..bits]
  {
    assert forall j | 0 <= j < bits :: z[..bits][j] == (x[..kp] + y[kp..bits])[j];
  }

  lemma PrefixThrough(whole: seq<bool>, p: seq<bool>, x: seq<bool>, s: seq<bool>, n: nat)
    requires whole == p + x + s && n <= |x|
    ensures whole[..|p| + n] == p + x[..n]
  {
  }

  lemma SuffixFrom(whole: seq<bool>, p: seq<bool>, x: seq<bool>, s: seq<bool>, n: nat)
    requires whole == p + x + s && n <= |x|
    ensures whole[|p| + n..] == x[n..] + s
  {
  }

  /** Cut point 0 exchanges the whole sequences. */
  lemma SinglePointAtZero(a: seq<Word>, b: seq<Word>, bits: nat)
    requires |a| == |b| && |a| >= 1 && 1 <= bits <= WIDTH
    ensures SinglePoint(a, b, bits, 0) == (b, a)
  {
    var r := SinglePoint(a, b, bits, 0);
    assert r.0[0] == b[0] && r.1[0] == a[0];
    assert r.0 == b && r.1 == a;
  }

  /**
    Uniform crossover of one gene over its `n` low bits. Bit `i` is
    processed after bits `0 .. i-1`: when the coin `keep[i]` says keep,
    the first child receives bit `i` of `g1` and the second that of
    `g2`; otherwise the bits are exchanged. Bits at or above `n` stay 0.
  */
  function UniformGene(g1: Word, g2: Word, keep: seq<bool>, n: nat): (r: (Word, Word))
    requires n <= |keep| && n <= WIDTH
    ensures forall j | 0 <= j < WIDTH ::
      && r.0[j] == (j < n && if keep[j] then g1[j] else g2[j])
      && r.1[j] == (j < n && if keep[j] then g2[j] else g1[j])
    decreases n
  {
    if n == 0 then (Zero(), Zero())
    else
      var i := n - 1;
      var acc := UniformGene(g1, g2, keep, i);
      var mask := OneHot(i);
      if keep[i] then (Or(acc.0, And(g1, mask)), Or(acc.1, And(g2, mask)))
      else (Or(acc.0, And(g2, mask)), Or(acc.1, And(g1, mask)))
  }

  /** One coin per bit of the gene width for every gene. */
  predicate CoinsFit(keep: seq<seq<bool>>, len: nat, bits: nat)
  {
    |keep| == len && forall i | 0 <= i < |keep| :: |keep[i]| == bits
  }

  /** Uniform crossover of two gene sequences, gene by gene. */
  function Uniform(a: seq<Word>, b: seq<Word>, bits: nat, keep: seq<seq<bool>>): (r: (seq<Word>, seq<Word>))
    requires |a| == |b| && bits <= WIDTH && CoinsFit(keep, |a|, bits)
    ensures |r.0| == |a| && |r.1| == |a|
    ensures forall i, j | 0 <= i < |a| && 0 <= j < WIDTH ::
      && r.0[i][j] == (j < bits && if keep[i][j] then a[i][j] else b[i][j])
      && r.1[i][j] == (j < bits && if keep[i][j] then b[i][j] else a[i][j])
    ensures forall i | 0 <= i < |a| ::
      && And(r.0[i], r.1[i]) == And(And(a[i], b[i]), LowMask(bits))
      && Xor(r.0[i], r.1[i]) == And(Xor(a[i], b[i]), LowMask(bits))
  {
    (seq(|a|, i requires 0 <= i < |a| => UniformGene(a[i], b[i], keep[i], bits).0),
     seq(|a|, i requires 0 <= i < |a| => UniformGene(a[i], b[i], keep[i], bits).1))
  }

  /**
    With every coin on keep, parents that fit in `bits` bits are reproduced
    unchanged; by `Words.FitsIffBelow` these are the genes of value below
    2^bits.
  */
  lemma UniformAllKeep(a: seq<Word>, b: seq<Word>, bits: nat, keep: seq<seq<bool>>)
    requires |a| == |b| && bits <= WIDTH && CoinsFit(keep, |a|, bits)
    requires forall i, j | 0 <= i < |a| && 0 <= j < bits :: keep[i][j]
    requires forall i | 0 <= i < |a| :: Fits(a[i], bits) && Fits(b[i], bits)
    ensures Uniform(a, b, bits, keep) == (a, b)
  {
    var r := Uniform(a, b, bits, keep);
    forall i | 0 <= i < |a|
      ensures r.0[i] == a[i] && r.1[i] == b[i]
    {
      assert forall j | 0 <= j < WIDTH :: r.0[i][j] == a[i][j] && r.1[i][j] == b[i][j];
    }
    assert r.0 == a && r.1 == b;
  }

  /** The random input of one recombination: a cut point or a coin matrix. */
  datatype Draw = Cut(point: nat) | Coins(keep: seq<seq<bool>>)

  /**
    The draw is of the kind the crossover method consumes and lies where
    the engine's distributions put it: a cut in `[0, len * bits - 1]`, or
    one coin per bit of the gene width for each of the `len` genes.
  */
  predicate DrawFits(kind: CrossoverType, d: Draw, len: nat, bits: nat)
  {
    match kind
    case SinglePointBitLevel => d.Cut? && len * bits >= 1 && d.point <= len * bits - 1
    case UniformBitLevel => d.Coins? && CoinsFit(d.keep, len, bits)
  }

  /**
    For every gene and every bit below `bits`, the children hold the
    parents' two bits, kept in place or exchanged.
  */
  predicate BitsConserved(a: seq<Word>, b: seq<Word>, c1: seq<Word>, c2: seq<Word>, bits: nat)
    requires |a| == |b| == |c1| == |c2| && bits <= WIDTH
  {
    forall i, j | 0 <= i < |a| && 0 <= j < bits ::
      || (c1[i][j] == a[i][j] && c2[i][j] == b[i][j])
      || (c1[i][j] == b[i][j] && c2[i][j] == a[i][j])
  }

  /** The crossover of one gene sequence with the configured method. */
  function Recombine(kind: CrossoverType, a: seq<Word>, b: seq<Word>, bits: nat, d: Draw): (r: (seq<Word>, seq<Word>))
    requires |a| == |b| && 1 <= bits <= WIDTH
    requires DrawFits(kind, d, |a|, bits)
    ensures |r.0| == |a| && |r.1| == |a|
    ensures BitsConserved(a, b, r.0, r.1, bits)
  {
    match kind
    case SinglePointBitLevel => SinglePoint(a, b, bits, d.point)
    case UniformBitLevel => Uniform(a, b, bits, d.keep)
  }
}
