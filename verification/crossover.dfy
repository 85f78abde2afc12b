/**
  Crossover of two individuals: every data chromosome is recombined with
  the configured method, the mutation-probability genes are recombined
  too when auto-adaptation is on, and both children lose their cached
  fitness.
*/
module Crossover {
  import opened Wrappers
  import opened Words
  import opened Genome
  import opened Recombination

  /** The random input of one crossover: one draw per data chromosome, one for the probability genes. */
  datatype CrossDraws = CrossDraws(data: seq<Draw>, probas: Draw)

  /**
    Each draw lies where the engine's distributions put it: data cuts in
    `[0, dimension * bits - 1]`, probability cuts in
    `[0, (numberOfVectors + 1) * bits - 1]`, or coin matrices of the
    matching shape. The probability draw matters only under auto-adaptation.
  */
  predicate CrossDrawsFit(cfg: Config, d: CrossDraws)
  {
    && |d.data| == cfg.numberOfVectors
    && (forall c | 0 <= c < |d.data| :: DrawFits(cfg.crossoverMethod, d.data[c], cfg.dimension, cfg.integerBits))
    && (cfg.enableAutoAdaptation ==> DrawFits(cfg.crossoverMethod, d.probas, ProbaCount(cfg), cfg.integerBits))
  }

  /**
    `bit_level_crossover` for chromosome `chromo`: the children's genes of
    that chromosome are replaced by the recombination of the parents'
    genes; nothing else in the children changes.
  */
  function CrossChromosome(cfg: Config, p1: Individual, p2: Individual, children: (Individual, Individual),
                           chromo: nat, d: Draw): (r: (Individual, Individual))
    requires EngineReady(cfg) && Shaped(cfg, p1) && Shaped(cfg, p2)
    requires chromo < cfg.numberOfVectors
    requires |children.0.genes| == cfg.numberOfVectors && |children.1.genes| == cfg.numberOfVectors
    requires DrawFits(cfg.crossoverMethod, d, cfg.dimension, cfg.integerBits)
    ensures |r.0.genes| == cfg.numberOfVectors && |r.1.genes| == cfg.numberOfVectors
    ensures (r.0.genes[chromo], r.1.genes[chromo])
         == Recombine(cfg.crossoverMethod, p1.genes[chromo], p2.genes[chromo], cfg.integerBits, d)
    ensures forall c | 0 <= c < cfg.numberOfVectors && c != chromo ::
      r.0.genes[c] == children.0.genes[c] && r.1.genes[c] == children.1.genes[c]
    ensures r.0.probas == children.0.probas && r.0.fitness == children.0.fitness
    ensures r.1.probas == children.1.probas && r.1.fitness == children.1.fitness
  {
    var g := Recombine(cfg.crossoverMethod, p1.genes[chromo], p2.genes[chromo], cfg.integerBits, d);
    (children.0.(genes := children.0.genes[chromo := g.0]),
     children.1.(genes := children.1.genes[chromo := g.1]))
  }

  /**
    The chromosome loop of `crossover` after its first `n` rounds,
    starting from copies of the parents: chromosomes below `n` are
    recombined, the others are still the parents' own.
  */
  function CrossData(cfg: Config, p1: Individual, p2: Individual, d: seq<Draw>, n: nat): (r: (Individual, Individual))
    requires EngineReady(cfg) && Shaped(cfg, p1) && Shaped(cfg, p2)
    requires n <= cfg.numberOfVectors && |d| == cfg.numberOfVectors
    requires forall c | 0 <= c < |d| :: DrawFits(cfg.crossoverMethod, d[c], cfg.dimension, cfg.integerBits)
    ensures |r.0.genes| == cfg.numberOfVectors && |r.1.genes| == cfg.numberOfVectors
    ensures forall c | 0 <= c < n ::
      (r.0.genes[c], r.1.genes[c]) == Recombine(cfg.crossoverMethod, p1.genes[c], p2.genes[c], cfg.integerBits, d[c])
    ensures forall c | n <= c < cfg.numberOfVectors :: r.0.genes[c] == p1.genes[c] && r.1.genes[c] == p2.genes[c]
    ensures r.0.probas == p1.probas && r.0.fitness == p1.fitness
    ensures r.1.probas == p2.probas && r.1.fitness == p2.fitness
    decreases n
  {
    if n == 0 then (p1, p2)
    else CrossChromosome(cfg, p1, p2, CrossData(cfg, p1, p2, d, n - 1), n - 1, d[n - 1])
  }

  /**
    `bit_level_crossover_probas`: the children's probability genes are
    replaced by the recombination of the parents' probability genes.
  */
  function CrossProbas(cfg: Config, p1: Individual, p2: Individual, children: (Individual, Individual), d: Draw)
    : (r: (Individual, Individual))
    requires EngineReady(cfg) && cfg.enableAutoAdaptation
    requires Shaped(cfg, p1) && Shaped(cfg, p2)
    requires DrawFits(cfg.crossoverMethod, d, ProbaCount(cfg), cfg.integerBits)
    ensures (r.0.probas, r.1.probas) == Recombine(cfg.crossoverMethod, p1.probas, p2.probas, cfg.integerBits, d)
    ensures r.0.genes == children.0.genes && r.0.fitness == children.0.fitness
    ensures r.1.genes == children.1.genes && r.1.fitness == children.1.fitness
  {
    var g := Recombine(cfg.crossoverMethod, p1.probas, p2.probas, cfg.integerBits, d);
    (children.0.(probas := g.0), children.1.(probas := g.1))
  }

  /**
    `crossover`: two children of the configured shape whose chromosomes
    are the recombinations of the parents' chromosomes, whose probability
    genes are recombined exactly when auto-adaptation is on (otherwise
    they are the parents' own), and whose fitness is not cached. Every
    parent bit below the gene width reaches exactly one child.
  */
  function Cross(cfg: Config, p1: Individual, p2: Individual, d: CrossDraws): (r: (Individual, Individual))
    requires EngineReady(cfg) && Shaped(cfg, p1) && Shaped(cfg, p2) && CrossDrawsFit(cfg, d)
    ensures Shaped(cfg, r.0) && Shaped(cfg, r.1)
    ensures r.0.fitness.None? && r.1.fitness.None?
    ensures forall c | 0 <= c < cfg.numberOfVectors ::
      (r.0.genes[c], r.1.genes[c])
        == Recombine(cfg.crossoverMethod, p1.genes[c], p2.genes[c], cfg.integerBits, d.data[c])
    ensures forall c | 0 <= c < cfg.numberOfVectors ::
      BitsConserved(p1.genes[c], p2.genes[c], r.0.genes[c], r.1.genes[c], cfg.integerBits)
    ensures cfg.enableAutoAdaptation ==>
      && (r.0.probas, r.1.probas) == Recombine(cfg.crossoverMethod, p1.probas, p2.probas, cfg.integerBits, d.probas)
      && BitsConserved(p1.probas, p2.probas, r.0.probas, r.1.probas, cfg.integerBits)
    ensures !cfg.enableAutoAdaptation ==> r.0.probas == p1.probas && r.1.probas == p2.probas
  {
    var data := CrossData(cfg, p1, p2, d.data, cfg.numberOfVectors);
    var both := if cfg.enableAutoAdaptation then CrossProbas(cfg, p1, p2, data, d.probas) else data;
    (both.0.(fitness := None), both.1.(fitness := None))
  }

  /** Exchanging the parents exchanges the children of one recombination. */
  lemma RecombineSymmetric(kind: CrossoverType, a: seq<Word>, b: seq<Word>, bits: nat, d: Draw)
    requires |a| == |b| && 1 <= bits <= WIDTH
    requires DrawFits(kind, d, |a|, bits)
    ensures var r := Recombine(kind, a, b, bits, d);
      Recombine(kind, b, a, bits, d) == (r.1, r.0)
  {
    var r := Recombine(kind, a, b, bits, d);
    var s := Recombine(kind, b, a, bits, d);
    forall i | 0 <= i < |a|
      ensures s.0[i] == r.1[i] && s.1[i] == r.0[i]
    {
      match kind
      case SinglePointBitLevel =>
        var k := d.point / bits;
        if i == k {
          SameBits(s.0[i], r.1[i]);
          SameBits(s.1[i], r.0[i]);
        }
      case UniformBitLevel =>
        SameBits(s.0[i], r.1[i]);
        SameBits(s.1[i], r.0[i]);
    }
    assert s.0 == r.1 && s.1 == r.0;
  }

  /** Crossing the parents in the other order yields the same two children, exchanged. */
  lemma CrossSymmetric(cfg: Config, p1: Individual, p2: Individual, d: CrossDraws)
    requires EngineReady(cfg) && Shaped(cfg, p1) && Shaped(cfg, p2) && CrossDrawsFit(cfg, d)
    ensures var r := Cross(cfg, p1, p2, d);
      Cross(cfg, p2, p1, d) == (r.1, r.0)
  {
    var r := Cross(cfg, p1, p2, d);
    var s := Cross(cfg, p2, p1, d);
    forall c | 0 <= c < cfg.numberOfVectors
      ensures s.0.genes[c] == r.1.genes[c] && s.1.genes[c] == r.0.genes[c]
    {
      RecombineSymmetric(cfg.crossoverMethod, p1.genes[c], p2.genes[c], cfg.integerBits, d.data[c]);
    }
    assert s.0.genes == r.1.genes && s.1.genes == r.0.genes;
    if cfg.enableAutoAdaptation {
      RecombineSymmetric(cfg.crossoverMethod, p1.probas, p2.probas, cfg.integerBits, d.probas);
    }
  }

  /**
    Under uniform crossover with every coin on keep, parents whose genes
    fit in the gene width come back unchanged apart from the cleared
    fitness cache.
  */
  lemma CrossAllKeep(cfg: Config, p1: Individual, p2: Individual, d: CrossDraws)
    requires EngineReady(cfg) && Shaped(cfg, p1) && Shaped(cfg, p2) && CrossDrawsFit(cfg, d)
    requires cfg.crossoverMethod == UniformBitLevel
    requires forall c, i, j | 0 <= c < |d.data| && 0 <= i < |d.data[c].keep| && 0 <= j < |d.data[c].keep[i]| ::
      d.data[c].keep[i][j]
    requires forall c, i | 0 <= c < cfg.numberOfVectors && 0 <= i < cfg.dimension ::
      Fits(p1.genes[c][i], cfg.integerBits) && Fits(p2.genes[c][i], cfg.integerBits)
    requires cfg.enableAutoAdaptation ==>
      && (forall i, j | 0 <= i < |d.probas.keep| && 0 <= j < |d.probas.keep[i]| :: d.probas.keep[i][j])
      && (forall i | 0 <= i < ProbaCount(cfg) ::
            Fits(p1.probas[i], cfg.integerBits) && Fits(p2.probas[i], cfg.integerBits))
    ensures Cross(cfg, p1, p2, d) == (p1.(fitness := None), p2.(fitness := None))
  {
    var r := Cross(cfg, p1, p2, d);
    forall c | 0 <= c < cfg.numberOfVectors
      ensures r.0.genes[c] == p1.genes[c] && r.1.genes[c] == p2.genes[c]
    {
      UniformAllKeep(p1.genes[c], p2.genes[c], cfg.integerBits, d.data[c].keep);
    }
    assert r.0.genes == p1.genes && r.1.genes == p2.genes;
    if cfg.enableAutoAdaptation {
      UniformAllKeep(p1.probas, p2.probas, cfg.integerBits, d.probas.keep);
    }
  }

  /** Single-point crossover with every data cut at 0 exchanges the parents' chromosomes. */
  lemma CrossAtZero(cfg: Config, p1: Individual, p2: Individual, d: CrossDraws)
    requires EngineReady(cfg) && Shaped(cfg, p1) && Shaped(cfg, p2) && CrossDrawsFit(cfg, d)
    requires cfg.crossoverMethod == SinglePointBitLevel
    requires forall c | 0 <= c < |d.data| :: d.data[c].point == 0
    ensures var r := Cross(cfg, p1, p2, d);
      r.0.genes == p2.genes && r.1.genes == p1.genes
  {
    var r := Cross(cfg, p1, p2, d);
    forall c | 0 <= c < cfg.numberOfVectors
      ensures r.0.genes[c] == p2.genes[c] && r.1.genes[c] == p1.genes[c]
    {
      SinglePointAtZero(p1.genes[c], p2.genes[c], cfg.integerBits);
    }
  }
}
