/**
  The configuration the engine reads, the individual it evolves, and the
  cached fitness evaluation. Real-valued parts of the configuration (the
  decoding range and the two probabilities) and the print interval play no
  part in the logic modelled here and are not carried.
*/
module Genome {
  import opened Wrappers
  import opened Words

  datatype CrossoverType = SinglePointBitLevel | UniformBitLevel

  datatype Config = Config(
    populationSize: nat,
    maxGenerations: nat,
    numberOfVectors: nat,
    dimension: nat,
    integerBits: nat,
    crossoverMethod: CrossoverType,
    tournamentSize: nat,
    enableElitism: bool,
    enableAutoAdaptation: bool)

  /** Size of the selected-parents buffer. */
  function HalfPopulation(cfg: Config): nat
  {
    cfg.populationSize / 2
  }

  /**
    What the engine's index arithmetic needs of a configuration: a
    non-empty even population whose half is even too (both offspring
    passes read the buffer in pairs), at least one gene per chromosome,
    a gene width between 1 and the width of the integer type, and at
    least one tournament candidate.
  */
  predicate EngineReady(cfg: Config)
  {
    && cfg.populationSize > 0
    && cfg.populationSize % 4 == 0
    && cfg.dimension >= 1
    && 1 <= cfg.integerBits <= WIDTH
    && cfg.tournamentSize >= 1
  }

  /** A ready configuration splits into two halves of even size. */
  lemma HalfEven(cfg: Config)
    requires EngineReady(cfg)
    ensures HalfPopulation(cfg) % 2 == 0 && 2 * HalfPopulation(cfg) == cfg.populationSize
  {
    var q := cfg.populationSize / 4;
    assert cfg.populationSize == 4 * q;
    assert HalfPopulation(cfg) == 2 * q;
  }

  /** Number of mutation-probability genes: one per chromosome plus a default. */
  function ProbaCount(cfg: Config): nat
  {
    cfg.numberOfVectors + 1
  }

  /**
    Upper bounds of the three index distributions set up by the
    constructor and by `reset`: population slots, data cut points and
    probability cut points, each drawn from `[0, max]`.
  */
  datatype Ranges = Ranges(indexMax: nat, dataCutMax: nat, probaCutMax: nat)

  function DistributionRanges(cfg: Config): (r: Ranges)
    requires EngineReady(cfg)
    ensures forall slot: nat :: slot <= r.indexMax <==> IsSlot(cfg, slot)
    ensures forall cut: nat :: cut <= r.dataCutMax <==> NamesBit(cut, cfg.dimension, cfg.integerBits)
    ensures forall cut: nat :: cut <= r.probaCutMax <==> NamesBit(cut, ProbaCount(cfg), cfg.integerBits)
  {
    CutRange(cfg.dimension, cfg.integerBits);
    CutRange(ProbaCount(cfg), cfg.integerBits);
    Ranges(
      cfg.populationSize - 1,
      cfg.dimension * cfg.integerBits - 1,
      ProbaCount(cfg) * cfg.integerBits - 1)
  }

  /** `slot` is a slot of the population. */
  predicate IsSlot(cfg: Config, slot: nat)
  {
    slot < cfg.populationSize
  }

  /**
    Read as gene `cut / bits` and bit `cut % bits`, the cut names a gene
    of a sequence of `len` genes and a bit inside the gene width.
  */
  predicate NamesBit(cut: nat, len: nat, bits: nat)
    requires bits >= 1
  {
    cut / bits < len && cut % bits < bits
  }

  /** The cuts of `[0, len * bits - 1]` are exactly those that name a gene and a bit. */
  lemma CutRange(len: nat, bits: nat)
    requires len >= 1 && bits >= 1
    ensures forall cut: nat :: cut <= len * bits - 1 <==> NamesBit(cut, len, bits)
  {
    MulMonotone(bits, 1, len);
    forall cut: nat
      ensures cut <= len * bits - 1 <==> NamesBit(cut, len, bits)
    {
      if cut / bits < len {
        var q := cut / bits;
        assert cut == bits * q + cut % bits;
        MulMonotone(bits, q + 1, len);
        assert bits * (q + 1) == bits * q + bits;
      }
      if cut < len * bits {
        GeneOfCut(cut, len, bits);
      }
    }
  }

  /**
    A cut point drawn from `[0, len * bits - 1]` names a gene `cut / bits`
    of the sequence and a bit `cut % bits` inside the gene width.
  */
  lemma CutInRange(cut: nat, len: nat, bits: nat)
    requires bits >= 1 && len >= 1
    requires cut <= len * bits - 1
    ensures cut / bits < len
    ensures cut % bits < bits
    ensures cut == (cut / bits) * bits + cut % bits
  {
    GeneOfCut(cut, len, bits);
  }

  /** The gene and bit a cut names, without the decomposition. */
  lemma GeneOfCut(cut: nat, len: nat, bits: nat)
    requires bits >= 1
    requires cut < len * bits
    ensures cut / bits < len && cut % bits < bits
  {
    var q := cut / bits;
    assert cut == bits * q + cut % bits;
    if q >= len {
      MulMonotone(bits, len, q);
    }
  }

  lemma MulMonotone(b: nat, x: nat, y: nat)
    requires x <= y
    ensures b * x <= b * y
  {
  }

  /**
    One candidate solution: `numberOfVectors` chromosomes of `dimension`
    genes, the mutation-probability genes, and the cached fitness
    (`None` when the individual has not been evaluated).
  */
  datatype Individual = Individual(genes: seq<seq<Word>>, probas: seq<Word>, fitness: Option<int>)

  /** The individual has the layout the configuration prescribes. */
  predicate Shaped(cfg: Config, ind: Individual)
  {
    && |ind.genes| == cfg.numberOfVectors
    && (forall c | 0 <= c < |ind.genes| :: |ind.genes[c]| == cfg.dimension)
    && (cfg.enableAutoAdaptation ==> |ind.probas| == ProbaCount(cfg))
  }

  /**
    The user's fitness function composed with the decoding of the genes
    into real vectors; it sees the data chromosomes only.
  */
  type Fitness = seq<seq<Word>> -> int

  /** The fitness `evaluate` reports for an individual. */
  function Score(ind: Individual, f: Fitness): int
  {
    match ind.fitness
    case Some(v) => v
    case None => f(ind.genes)
  }

  /** The individual with its fitness cache filled in. */
  function Evaluated(ind: Individual, f: Fitness): (r: Individual)
    ensures r.genes == ind.genes && r.probas == ind.probas
    ensures r.fitness == Some(Score(ind, f))
    ensures ind.fitness.Some? ==> r == ind
    ensures Score(r, f) == Score(ind, f)
  {
    ind.(fitness := Some(Score(ind, f)))
  }

  /** Result of `evaluate`: the fitness, the updated individual, and whether the fitness function ran. */
  datatype Evaluation = Evaluation(value: int, ind: Individual, called: bool)

  /**
    `evaluate`: a cached fitness is returned as it is; otherwise the
    fitness function runs once on the genes and its result is cached.
  */
  function Evaluate(ind: Individual, f: Fitness): (r: Evaluation)
    ensures r.called <==> ind.fitness.None?
    ensures ind.fitness.Some? ==> r.value == ind.fitness.value && r.ind == ind
    ensures ind.fitness.None? ==> r.value == f(ind.genes)
    ensures r.ind.genes == ind.genes && r.ind.probas == ind.probas
    ensures r.ind.fitness == Some(r.value)
  {
    if ind.fitness.Some? then
      Evaluation(ind.fitness.value, ind, false)
    else
      var v := f(ind.genes);
      Evaluation(v, ind.(fitness := Some(v)), true)
  }

  /**
    Evaluating an individual a second time returns the same value, leaves
    it as it is, and does not call the fitness function.
  */
  lemma EvaluateTwice(ind: Individual, f: Fitness)
    ensures var first := Evaluate(ind, f);
      var second := Evaluate(first.ind, f);
      && !second.called
      && second.value == first.value
      && second.ind == first.ind
      && first.ind == Evaluated(ind, f)
  {
  }
}
