/**
  The generational engine: its state, initialisation (the constructor and
  `reset`), one generation (`step`) and the `run` loop with its
  per-generation report.
*/
module GeneticAlgorithm {
  import opened Wrappers
  import opened Genome
  import opened Recombination
  import opened Crossover
  import opened Selection
  import opened Tracking
  import opened Offspring
  import opened Sequences

  /** The engine's state: configuration, population, generation counter and best-so-far. */
  datatype Engine = Engine(cfg: Config, population: seq<Individual>, generation: nat,
                           bestFitness: int, best: Individual)

  /** A ready configuration, a full population of the configured layout, and a best of that layout. */
  predicate Valid(e: Engine)
  {
    && EngineReady(e.cfg)
    && |e.population| == e.cfg.populationSize
    && AllShaped(e.cfg, e.population)
    && Shaped(e.cfg, e.best)
  }

  /**
    `Individu::mutate`, applied by `mutate_population` to the individual
    in slot `i`. It is random in the engine, so each generation's draws
    carry their own (`StepDraws.mutate`); of it only that it keeps the
    configured layout is known.
  */
  type Mutation = (nat, Individual) -> Individual

  ghost predicate KeepsShape(cfg: Config, mutate: Mutation)
  {
    forall i: nat, ind: Individual | Shaped(cfg, ind) :: Shaped(cfg, mutate(i, ind))
  }

  /** `mutate_population`: every slot is mutated in place. */
  function MutatePopulation(cfg: Config, pop: seq<Individual>, mutate: Mutation): (r: seq<Individual>)
    requires AllShaped(cfg, pop) && KeepsShape(cfg, mutate)
    ensures |r| == |pop| && AllShaped(cfg, r)
    ensures forall i | 0 <= i < |pop| :: r[i] == mutate(i, pop[i])
  {
    seq(|pop|, i requires 0 <= i < |pop| => mutate(i, pop[i]))
  }

  /** The random input of one generation, the mutation drawn for it included. */
  datatype StepDraws = StepDraws(tournaments: seq<seq<nat>>, offspring: OffspringDraws, mutate: Mutation,
                                 eliteSlot: nat)

  /**
    One tournament of `tournamentSize` population slots per selected
    parent, the draws of `create_offspring`, a mutation that keeps the
    layout, and an elite slot of the population.
  */
  ghost predicate StepDrawsFit(cfg: Config, d: StepDraws)
  {
    && |d.tournaments| == HalfPopulation(cfg)
    && (forall i | 0 <= i < |d.tournaments| ::
          |d.tournaments[i]| == cfg.tournamentSize && SlotsIn(d.tournaments[i], cfg.populationSize))
    && OffspringDrawsFit(cfg, d.offspring)
    && KeepsShape(cfg, d.mutate)
    && d.eliteSlot < cfg.populationSize
  }

  /** The engine's best is the value it caches. */
  predicate Cached(e: Engine)
  {
    BestCached(e.bestFitness, e.best)
  }

  /**
    `step`: selection; under elitism a first `update_best` on the
    population the tournaments evaluated; the two offspring passes;
    mutation; under elitism the best so far written into the elite slot;
    a final `update_best`; and the generation counter advanced by one.
    Every slot but the elite one ends as the evaluated mutation of the
    child `create_offspring` bred there from the parents `selection`
    picked; under elitism the elite slot holds the best the first
    `update_best` found. The best fitness never decreases and is at least
    every member's score.
  */
  function Step(e: Engine, d: StepDraws, f: Fitness): (r: Engine)
    requires Valid(e) && StepDrawsFit(e.cfg, d)
    ensures Valid(r) && r.cfg == e.cfg && r.generation == e.generation + 1
    ensures |r.population| == |e.population|
    ensures forall j | 0 <= j < |e.population| && !(e.cfg.enableElitism && j == d.eliteSlot) ::
      r.population[j] == Evaluated(d.mutate(j, Bred(e, d, f).pop[j]), f)
    ensures e.cfg.enableElitism ==> r.population[d.eliteSlot] == Evaluated(Elite(e, d, f).best, f)
    ensures r.bestFitness >= e.bestFitness
    ensures forall i | 0 <= i < |r.population| ::
      r.population[i].fitness.Some? && Score(r.population[i], f) <= r.bestFitness
    ensures Cached(e) ==> Cached(r)
    ensures e.cfg.enableElitism && Cached(e) ==> Score(r.population[d.eliteSlot], f) >= e.bestFitness
    ensures r.best == e.best || exists i | 0 <= i < |r.population| :: r.best == r.population[i]
  {
    var sel := Choose(e.cfg, e.population, d.tournaments, f);
    var last := Renew(e.cfg, sel.pop, sel.parents, f, e.bestFitness, e.best, d);
    OffspringOverwrites(e.cfg, sel.pop, e.population, sel.parents, d.offspring);
    Engine(e.cfg, last.pop, e.generation + 1, last.bestFitness, last.best)
  }

  /** The children `create_offspring` breeds in `step`, from the parents `selection` picks. */
  function Bred(e: Engine, d: StepDraws, f: Fitness): (r: Brood)
    requires Valid(e) && StepDrawsFit(e.cfg, d)
    ensures |r.pop| == |e.population| && AllShaped(e.cfg, r.pop)
    ensures forall j | 0 <= j < |e.population| :: r.pop[j].fitness.None?
  {
    CreateOffspring(e.cfg, e.population, Choose(e.cfg, e.population, d.tournaments, f).parents, d.offspring)
  }

  /** Under elitism, the best `update_best` finds on the population selection left. */
  function Elite(e: Engine, d: StepDraws, f: Fitness): (r: Scan)
    requires Valid(e) && StepDrawsFit(e.cfg, d)
    ensures Tracked(Select(e.population, d.tournaments, f).pop, f, e.bestFitness, e.best, r)
  {
    UpdateBest(Choose(e.cfg, e.population, d.tournaments, f).pop, f, e.bestFitness, e.best)
  }

  /**
    Selection as `step` uses it: `Select`, whose contract gives the
    tournament results, with the population and parents keeping the
    configured layout. This and the next four functions (`Renew`,
    `Settle`, `Snapshot`, `Breed`) are not stages of the source: they cut
    `step` where its proof would otherwise outgrow the solver's budget,
    and each contract carries to the next stage exactly what `Step`
    states.
  */
  function Choose(cfg: Config, pop: seq<Individual>, ts: seq<seq<nat>>, f: Fitness): (r: Selected)
    requires EngineReady(cfg) && |pop| == cfg.populationSize && AllShaped(cfg, pop)
    requires |ts| == HalfPopulation(cfg)
    requires forall i | 0 <= i < |ts| :: |ts[i]| == cfg.tournamentSize && SlotsIn(ts[i], cfg.populationSize)
    ensures r == Select(pop, ts, f)
    ensures |r.pop| == |pop| && AllShaped(cfg, r.pop)
    ensures |r.parents| == HalfPopulation(cfg) && AllShaped(cfg, r.parents)
  {
    var sel := Select(pop, ts, f);
    SelectionShaped(cfg, pop, ts, f, sel);
    sel
  }

  /**
    Everything `step` does after selection: the elitism snapshot,
    offspring, mutation, the elite slot and the closing `update_best`.
    Every slot but the elite one ends as the evaluated mutation of its
    child; under elitism the elite slot holds the snapshot's best.
  */
  function Renew(cfg: Config, pop: seq<Individual>, parents: seq<Individual>, f: Fitness, bf: int, b: Individual,
                 d: StepDraws): (r: Scan)
    requires EngineReady(cfg) && |pop| == cfg.populationSize && AllShaped(cfg, pop) && Shaped(cfg, b)
    requires |parents| == HalfPopulation(cfg) && AllShaped(cfg, parents)
    requires StepDrawsFit(cfg, d)
    ensures |r.pop| == |pop| && AllShaped(cfg, r.pop) && Shaped(cfg, r.best)
    ensures forall j | 0 <= j < |pop| && !(cfg.enableElitism && j == d.eliteSlot) ::
      r.pop[j] == Evaluated(d.mutate(j, CreateOffspring(cfg, pop, parents, d.offspring).pop[j]), f)
    ensures cfg.enableElitism ==> r.pop[d.eliteSlot] == Evaluated(UpdateBest(pop, f, bf, b).best, f)
    ensures r.bestFitness >= bf
    ensures forall i | 0 <= i < |pop| :: r.pop[i].fitness.Some? && Score(r.pop[i], f) <= r.bestFitness
    ensures BestCached(bf, b) ==> BestCached(r.bestFitness, r.best)
    ensures cfg.enableElitism && BestCached(bf, b) ==> Score(r.pop[d.eliteSlot], f) >= bf
    ensures r.best == b || exists i | 0 <= i < |r.pop| :: r.best == r.pop[i]
  {
    var snap := Snapshot(cfg, pop, f, bf, b);
    var placed := Breed(cfg, snap.pop, parents, snap.best, d);
    OffspringOverwrites(cfg, snap.pop, pop, parents, d.offspring);
    var last := Settle(cfg, placed, f, snap.bestFitness, snap.best);
    assert forall j | 0 <= j < |pop| && !(cfg.enableElitism && j == d.eliteSlot) ::
      last.pop[j] == Evaluated(d.mutate(j, CreateOffspring(cfg, pop, parents, d.offspring).pop[j]), f) by {
      forall j | 0 <= j < |pop| && !(cfg.enableElitism && j == d.eliteSlot)
        ensures last.pop[j] == Evaluated(d.mutate(j, CreateOffspring(cfg, pop, parents, d.offspring).pop[j]), f)
      {
        assert placed[j] == d.mutate(j, CreateOffspring(cfg, snap.pop, parents, d.offspring).pop[j]);
        assert last.pop[j] == Evaluated(placed[j], f);
      }
    }
    assert cfg.enableElitism && BestCached(bf, b) ==> last.pop[d.eliteSlot] == snap.best;
    assert snap.best != b ==> cfg.enableElitism && last.pop[d.eliteSlot] == snap.best;
    last
  }

  /**
    The closing `update_best` of `step`, with the guarantees of
    `Tracked`; the layout is kept and a cached best stays cached.
  */
  function Settle(cfg: Config, pop: seq<Individual>, f: Fitness, bf: int, b: Individual): (r: Scan)
    requires AllShaped(cfg, pop) && Shaped(cfg, b)
    ensures Tracked(pop, f, bf, b, r)
    ensures |r.pop| == |pop| && AllShaped(cfg, r.pop) && Shaped(cfg, r.best)
    ensures forall i | 0 <= i < |pop| :: r.pop[i].fitness.Some? && Score(r.pop[i], f) <= r.bestFitness
    ensures BestCached(bf, b) ==> BestCached(r.bestFitness, r.best)
    ensures r.best == b || exists i | 0 <= i < |r.pop| :: r.best == r.pop[i]
  {
    var r := UpdateBest(pop, f, bf, b);
    assert (exists i | 0 <= i < |pop| :: Score(pop[i], f) > bf) ==>
      r.from.Some? && r.from.value < |r.pop| && r.best == r.pop[r.from.value];
    r
  }

  /**
    The elitism snapshot of `step`: under elitism `update_best` runs on
    the population as selection left it, with the guarantees of
    `Tracked`; otherwise the population and the best stand.
  */
  function Snapshot(cfg: Config, pop: seq<Individual>, f: Fitness, bf: int, b: Individual): (r: Scan)
    requires AllShaped(cfg, pop) && Shaped(cfg, b)
    ensures |r.pop| == |pop| && AllShaped(cfg, r.pop) && Shaped(cfg, r.best)
    ensures r.bestFitness >= bf
    ensures BestCached(bf, b) ==> BestCached(r.bestFitness, r.best)
    ensures cfg.enableElitism ==> Tracked(pop, f, bf, b, r)
    ensures !cfg.enableElitism ==> r.pop == pop && r.bestFitness == bf && r.best == b
    ensures r.best == b || r.best.fitness.Some?
  {
    if cfg.enableElitism then UpdateBest(pop, f, bf, b) else Scan(pop, bf, b, None, 0)
  }

  /**
    Offspring, mutation and, under elitism, the saved best written into
    the elite slot: every other slot holds the mutation of the child
    `create_offspring` bred there.
  */
  function Breed(cfg: Config, pop: seq<Individual>, parents: seq<Individual>, best: Individual,
                 d: StepDraws): (r: seq<Individual>)
    requires EngineReady(cfg) && |pop| == cfg.populationSize && StepDrawsFit(cfg, d)
    requires |parents| == HalfPopulation(cfg) && AllShaped(cfg, parents) && Shaped(cfg, best)
    ensures |r| == |pop| && AllShaped(cfg, r)
    ensures forall j | 0 <= j < |pop| && !(cfg.enableElitism && j == d.eliteSlot) ::
      r[j] == d.mutate(j, CreateOffspring(cfg, pop, parents, d.offspring).pop[j])
    ensures cfg.enableElitism ==> r[d.eliteSlot] == best
  {
    var brood := CreateOffspring(cfg, pop, parents, d.offspring);
    var mutated := MutatePopulation(cfg, brood.pop, d.mutate);
    if cfg.enableElitism then AddBest(mutated, best, d.eliteSlot) else mutated
  }

  /** Selection leaves a population and parents of the configured layout. */
  lemma SelectionShaped(cfg: Config, pop: seq<Individual>, ts: seq<seq<nat>>, f: Fitness, sel: Selected)
    requires EngineReady(cfg) && |pop| == cfg.populationSize && AllShaped(cfg, pop)
    requires |ts| == HalfPopulation(cfg)
    requires forall i | 0 <= i < |ts| :: |ts[i]| == cfg.tournamentSize && SlotsIn(ts[i], cfg.populationSize)
    requires TournamentsFit(ts, |pop|) && sel == Select(pop, ts, f)
    ensures |sel.pop| == |pop| && AllShaped(cfg, sel.pop)
    ensures |sel.parents| == HalfPopulation(cfg) && AllShaped(cfg, sel.parents)
  {
    forall i | 0 <= i < |sel.parents|
      ensures Shaped(cfg, sel.parents[i])
    {
      assert sel.winners[i] < |pop|;
    }
  }

  /** What `run` hands its callback after each generation: the loop index, the best fitness and individual. */
  datatype Report = Report(index: nat, bestFitness: int, best: Individual)

  /** Every generation's draws fit the configuration. */
  ghost predicate RunDrawsFit(cfg: Config, draws: seq<StepDraws>)
  {
    forall g | 0 <= g < |draws| :: StepDrawsFit(cfg, draws[g])
  }

  /**
    `r` is the `run` loop after `n` generations from `e`: the counter
    advanced by `n`, one report per generation numbered `0 .. n - 1`,
    reported best fitness non-decreasing, never below the start, and the
    last report showing the engine's final best; after at least one
    generation every member is evaluated and scores at most the best.
  */
  predicate Ran(e: Engine, f: Fitness, n: nat, r: (Engine, seq<Report>))
  {
    && Valid(r.0) && r.0.cfg == e.cfg && r.0.generation == e.generation + n
    && |r.0.population| == |e.population|
    && r.0.bestFitness >= e.bestFitness
    && |r.1| == n
    && (forall g | 0 <= g < n :: r.1[g].index == g)
    && (forall g | 0 <= g < n :: e.bestFitness <= r.1[g].bestFitness <= r.0.bestFitness)
    && (forall g, h | 0 <= g < h < n :: r.1[g].bestFitness <= r.1[h].bestFitness)
    && (n > 0 ==> r.1[n - 1].bestFitness == r.0.bestFitness && r.1[n - 1].best == r.0.best)
    && (Cached(e) ==> Cached(r.0))
    && (n > 0 ==> forall i | 0 <= i < |r.0.population| ::
          r.0.population[i].fitness.Some? && Score(r.0.population[i], f) <= r.0.bestFitness)
  }

  /**
    The loop of `run` after its first `n` generations. It is not a log
    of anything else: its engine is `Stepped(e, draws, f, n)`, `step`
    applied `n` times, and its log is `Reports(e, draws, f, n)`, one
    report of each intermediate engine.
  */
  function RunFor(e: Engine, draws: seq<StepDraws>, f: Fitness, n: nat): (r: (Engine, seq<Report>))
    requires Valid(e) && n <= |draws| && RunDrawsFit(e.cfg, draws)
    ensures Ran(e, f, n, r)
    ensures r.0 == Stepped(e, draws, f, n) && r.1 == Reports(e, draws, f, n)
    decreases n
  {
    if n == 0 then (e, [])
    else
      var prev := RunFor(e, draws, f, n - 1);
      Logged(e, draws, f, n, prev);
      Generation(e, draws, f, n, prev)
  }

  /** Round `n - 1` of `run`: one step, then the report handed to the callback. */
  function Generation(e: Engine, draws: seq<StepDraws>, f: Fitness, n: nat,
                      prev: (Engine, seq<Report>)): (r: (Engine, seq<Report>))
    requires Valid(e) && 1 <= n <= |draws| && RunDrawsFit(e.cfg, draws)
    requires Ran(e, f, n - 1, prev)
    ensures r.0 == Step(prev.0, draws[n - 1], f)
    ensures r.1 == prev.1 + [Report(n - 1, r.0.bestFitness, r.0.best)]
    ensures Ran(e, f, n, r)
  {
    var next := Step(prev.0, draws[n - 1], f);
    Reported(e, f, n, prev, next);
    (next, prev.1 + [Report(n - 1, next.bestFitness, next.best)])
  }

  /** A generation after the first `n - 1` takes the engine to `Stepped(n)` and the log to `Reports(n)`. */
  lemma Logged(e: Engine, draws: seq<StepDraws>, f: Fitness, n: nat, prev: (Engine, seq<Report>))
    requires Valid(e) && 1 <= n <= |draws| && RunDrawsFit(e.cfg, draws)
    requires Ran(e, f, n - 1, prev)
    requires prev.0 == Stepped(e, draws, f, n - 1) && prev.1 == Reports(e, draws, f, n - 1)
    ensures Generation(e, draws, f, n, prev).0 == Stepped(e, draws, f, n)
    ensures Generation(e, draws, f, n, prev).1 == Reports(e, draws, f, n)
  {
  }

  /** Appending the report of a step that keeps the engine valid and its best monotone extends the run. */
  lemma Reported(e: Engine, f: Fitness, n: nat, prev: (Engine, seq<Report>), next: Engine)
    requires 1 <= n && Ran(e, f, n - 1, prev)
    requires Valid(next) && next.cfg == prev.0.cfg && next.generation == prev.0.generation + 1
    requires |next.population| == |prev.0.population| && next.bestFitness >= prev.0.bestFitness
    requires Cached(prev.0) ==> Cached(next)
    requires forall i | 0 <= i < |next.population| ::
      next.population[i].fitness.Some? && Score(next.population[i], f) <= next.bestFitness
    ensures Ran(e, f, n, (next, prev.1 + [Report(n - 1, next.bestFitness, next.best)]))
  {
    var log := prev.1 + [Report(n - 1, next.bestFitness, next.best)];
    assert forall g | 0 <= g < n - 1 :: log[g] == prev.1[g];
  }

  /**
    The engine after `n` generations: `step` applied `n` times, the
    `g`-th time with generation `g`'s draws.
  */
  function Stepped(e: Engine, draws: seq<StepDraws>, f: Fitness, n: nat): (r: Engine)
    requires Valid(e) && n <= |draws| && RunDrawsFit(e.cfg, draws)
    ensures Valid(r) && r.cfg == e.cfg && r.generation == e.generation + n
    decreases n
  {
    if n == 0 then e else Step(Stepped(e, draws, f, n - 1), draws[n - 1], f)
  }

  /**
    The report `run` hands its callback after generation `k - 1`, that
    is after `k` steps: the loop index and the best of `Stepped(e, draws, f, k)`.
  */
  function ReportAfter(e: Engine, draws: seq<StepDraws>, f: Fitness): (r: nat --> Report)
    requires Valid(e) && RunDrawsFit(e.cfg, draws)
    ensures forall k | 1 <= k <= |draws| :: r.requires(k)
    ensures forall k | 1 <= k <= |draws| :: r(k) == Report(k - 1, Stepped(e, draws, f, k).bestFitness, Stepped(e, draws, f, k).best)
  {
    k requires 1 <= k <= |draws| =>
      Report(k - 1, Stepped(e, draws, f, k).bestFitness, Stepped(e, draws, f, k).best)
  }

  /** The reports of the first `n` generations, `ReportAfter(1)` to `ReportAfter(n)` in order. */
  function Reports(e: Engine, draws: seq<StepDraws>, f: Fitness, n: nat): (r: seq<Report>)
    requires Valid(e) && n <= |draws| && RunDrawsFit(e.cfg, draws)
  {
    Appended(ReportAfter(e, draws, f), n)
  }

  /** Report `g` of the `run` loop shows the best of the engine after `g + 1` steps, however many generations follow. */
  lemma RunReport(e: Engine, draws: seq<StepDraws>, f: Fitness, n: nat, g: nat)
    requires Valid(e) && g < n <= |draws| && RunDrawsFit(e.cfg, draws)
    ensures RunFor(e, draws, f, n).1[g] == Report(g, Stepped(e, draws, f, g + 1).bestFitness, Stepped(e, draws, f, g + 1).best)
  {
    AppendedIndex(ReportAfter(e, draws, f), n, g);
  }

  /** The reports of the first `m` generations do not depend on how many follow. */
  lemma RunPrefix(e: Engine, draws: seq<StepDraws>, f: Fitness, n: nat, m: nat)
    requires Valid(e) && m <= n <= |draws| && RunDrawsFit(e.cfg, draws)
    ensures RunFor(e, draws, f, n).1[..m] == RunFor(e, draws, f, m).1
  {
    AppendedPrefix(ReportAfter(e, draws, f), n, m);
  }

  /**
    `run`: `maxGenerations` steps, the engine ending as `Stepped` says,
    the log as `Reports` says (so report `g` carries the best after
    `g + 1` steps, see `RunReport`), and the
    guarantees of `Ran`: the generation counter advanced by exactly that
    many, report indices `0 .. maxGenerations - 1`, a non-decreasing
    best fitness, and the last report showing the final best.
  */
  function Run(e: Engine, draws: seq<StepDraws>, f: Fitness): (r: (Engine, seq<Report>))
    requires Valid(e) && |draws| == e.cfg.maxGenerations && RunDrawsFit(e.cfg, draws)
    ensures Ran(e, f, e.cfg.maxGenerations, r)
    ensures r.0 == Stepped(e, draws, f, e.cfg.maxGenerations)
    ensures r.1 == Reports(e, draws, f, e.cfg.maxGenerations)
  {
    RunFor(e, draws, f, e.cfg.maxGenerations)
  }

  /**
    The constructor and `reset`: a fresh random population, the counter
    at 0 and the best fitness at the lowest value, followed by
    `update_best`. The best individual is the given starting individual
    unless some member scores strictly more than the lowest value, in
    which case it is the first best member, cached.
  */
  function Initialize(cfg: Config, random: seq<Individual>, start: Individual, lowest: int, f: Fitness): (r: Engine)
    requires EngineReady(cfg) && |random| == cfg.populationSize && AllShaped(cfg, random) && Shaped(cfg, start)
    ensures Valid(r) && r.cfg == cfg && r.generation == 0
    ensures forall i | 0 <= i < |random| :: r.population[i] == Evaluated(random[i], f)
    ensures r.bestFitness >= lowest && forall i | 0 <= i < |random| :: Score(random[i], f) <= r.bestFitness
    ensures (forall i | 0 <= i < |random| :: Score(random[i], f) <= lowest) ==> r.bestFitness == lowest && r.best == start
    ensures (exists i | 0 <= i < |random| :: Score(random[i], f) > lowest) ==>
      Cached(r) && exists i | 0 <= i < |random| ::
        && r.best == r.population[i] && r.bestFitness == Score(random[i], f)
        && forall j | 0 <= j < i :: Score(random[j], f) < r.bestFitness
  {
    var s := UpdateBest(random, f, lowest, start);
    assert s.from.Some? ==> s.from.value < |random| ==> s.best == s.pop[s.from.value];
    Engine(cfg, s.pop, 0, s.bestFitness, s.best)
  }

  /**
    The distributions set up by the constructor and `reset` produce
    exactly the draws the engine consumes: slots below the population
    size, and cut points that name a gene and a bit inside the data or
    the probability genes.
  */
  lemma DrawsWithinRanges(cfg: Config, slot: nat, cut: nat)
    requires EngineReady(cfg)
    ensures slot <= DistributionRanges(cfg).indexMax <==> slot < cfg.populationSize
    ensures cut <= DistributionRanges(cfg).dataCutMax <==>
      DrawFits(SinglePointBitLevel, Cut(cut), cfg.dimension, cfg.integerBits)
    ensures cut <= DistributionRanges(cfg).probaCutMax <==>
      DrawFits(SinglePointBitLevel, Cut(cut), ProbaCount(cfg), cfg.integerBits)
  {
    MulMonotone(cfg.integerBits, 1, cfg.dimension);
    MulMonotone(cfg.integerBits, 1, ProbaCount(cfg));
  }
}
