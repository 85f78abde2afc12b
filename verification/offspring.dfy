/**
  `create_offspring`: the selected-parents buffer is shuffled and paired
  `(0, 1), (2, 3), ...`; each pair's children overwrite the matching
  slots of the lower half of the population. The buffer is shuffled
  again and paired again, and those children overwrite the upper half.
*/
module Offspring {
  import opened Genome
  import opened Crossover

  /**
    The random input of one shuffle, as the Fisher-Yates swap partners:
    element `i` is exchanged with element `swaps[i]`, one of `0 .. i`.
  */
  predicate SwapsFit(swaps: seq<nat>, n: nat)
  {
    |swaps| == n && forall i | 0 <= i < n :: swaps[i] <= i
  }

  /** The first `n` swaps of a shuffle; the result is a rearrangement of `s`. */
  function ShufflePrefix(s: seq<Individual>, swaps: seq<nat>, n: nat): (r: seq<Individual>)
    requires SwapsFit(swaps, |s|) && n <= |s|
    ensures |r| == |s| && multiset(r) == multiset(s)
    decreases n
  {
    if n == 0 then s
    else
      var prev := ShufflePrefix(s, swaps, n - 1);
      var i, j := n - 1, swaps[n - 1];
      prev[i := prev[j]][j := prev[i]]
  }

  /** `std::shuffle` with its random draws given as swap partners. */
  function Shuffle(s: seq<Individual>, swaps: seq<nat>): (r: seq<Individual>)
    requires SwapsFit(swaps, |s|)
    ensures |r| == |s| && multiset(r) == multiset(s)
  {
    ShufflePrefix(s, swaps, |s|)
  }

  /** Every individual has the configured layout. */
  predicate AllShaped(cfg: Config, pop: seq<Individual>)
  {
    forall i | 0 <= i < |pop| :: Shaped(cfg, pop[i])
  }

  /** One set of crossover draws per pair of the buffer. */
  predicate PairDrawsFit(cfg: Config, draws: seq<CrossDraws>, pairs: nat)
  {
    |draws| == pairs && forall p | 0 <= p < pairs :: CrossDrawsFit(cfg, draws[p])
  }

  /**
    The child a pairing pass writes at offset `j`: the first child of
    pair `j / 2` when `j` is even, its second child when `j` is odd.
  */
  function ChildAt(cfg: Config, buffer: seq<Individual>, draws: seq<CrossDraws>, j: nat): (r: Individual)
    requires EngineReady(cfg) && AllShaped(cfg, buffer) && |buffer| % 2 == 0
    requires PairDrawsFit(cfg, draws, |buffer| / 2) && j < |buffer|
    ensures Shaped(cfg, r) && r.fitness.None?
  {
    var p := j / 2;
    var c := Cross(cfg, buffer[2 * p], buffer[2 * p + 1], draws[p]);
    if j % 2 == 0 then c.0 else c.1
  }

  /** The children of every pair of the buffer, in slot order. */
  function Children(cfg: Config, buffer: seq<Individual>, draws: seq<CrossDraws>): (r: seq<Individual>)
    requires EngineReady(cfg) && AllShaped(cfg, buffer) && |buffer| % 2 == 0
    requires PairDrawsFit(cfg, draws, |buffer| / 2)
    ensures |r| == |buffer| && AllShaped(cfg, r)
    ensures forall j | 0 <= j < |buffer| :: r[j] == ChildAt(cfg, buffer, draws, j) && r[j].fitness.None?
  {
    seq(|buffer|, j requires 0 <= j < |buffer| => ChildAt(cfg, buffer, draws, j))
  }

  /**
    A pairing pass after its first `n` pairs, the pairs' children being
    `children`: slots `offset .. offset + 2n` hold those children in
    order, every other slot is as it was.
  */
  function Pass(children: seq<Individual>, pop: seq<Individual>, offset: nat, n: nat): (r: seq<Individual>)
    requires 2 * n <= |children| && offset + |children| <= |pop|
    ensures |r| == |pop|
    ensures forall j | offset <= j < offset + 2 * n :: r[j] == children[j - offset]
    ensures forall j | 0 <= j < |pop| && !(offset <= j < offset + 2 * n) :: r[j] == pop[j]
    decreases n
  {
    if n == 0 then pop
    else
      var i := 2 * (n - 1);
      Pass(children, pop, offset, n - 1)[offset + i := children[i]][offset + i + 1 := children[i + 1]]
  }

  /** The random input of `create_offspring`: two shuffles and the crossover draws of each pass. */
  datatype OffspringDraws = OffspringDraws(
    shuffle1: seq<nat>, cross1: seq<CrossDraws>,
    shuffle2: seq<nat>, cross2: seq<CrossDraws>)

  predicate OffspringDrawsFit(cfg: Config, d: OffspringDraws)
  {
    && SwapsFit(d.shuffle1, HalfPopulation(cfg)) && SwapsFit(d.shuffle2, HalfPopulation(cfg))
    && PairDrawsFit(cfg, d.cross1, HalfPopulation(cfg) / 2)
    && PairDrawsFit(cfg, d.cross2, HalfPopulation(cfg) / 2)
  }

  /** Outcome of `create_offspring`: the new population and the buffer as each pass paired it. */
  datatype Brood = Brood(pop: seq<Individual>, paired1: seq<Individual>, paired2: seq<Individual>)

  /**
    `create_offspring`: both passes pair a rearrangement of the selected
    parents (the second pass re-shuffles the already shuffled buffer);
    slot `j` of the lower half receives child `j` of the first pass and
    slot `half + j` child `j` of the second, so every slot of the
    population is replaced by a child of the right shape with no cached
    fitness.
  */
  function CreateOffspring(cfg: Config, pop: seq<Individual>, selected: seq<Individual>, d: OffspringDraws)
    : (r: Brood)
    requires EngineReady(cfg) && |pop| == cfg.populationSize
    requires |selected| == HalfPopulation(cfg) && AllShaped(cfg, selected)
    requires OffspringDrawsFit(cfg, d)
    ensures multiset(r.paired1) == multiset(selected) && multiset(r.paired2) == multiset(selected)
    ensures |r.paired1| % 2 == 0 && AllShaped(cfg, r.paired1) && PairDrawsFit(cfg, d.cross1, |r.paired1| / 2)
    ensures |r.paired2| % 2 == 0 && AllShaped(cfg, r.paired2) && PairDrawsFit(cfg, d.cross2, |r.paired2| / 2)
    ensures |r.pop| == |pop| && AllShaped(cfg, r.pop)
    ensures forall j | 0 <= j < HalfPopulation(cfg) ::
      && r.pop[j] == ChildAt(cfg, r.paired1, d.cross1, j)
      && r.pop[HalfPopulation(cfg) + j] == ChildAt(cfg, r.paired2, d.cross2, j)
    ensures forall j | 0 <= j < |pop| :: r.pop[j].fitness.None?
  {
    HalfEven(cfg);
    var paired1 := Shuffle(selected, d.shuffle1);
    ShuffleShaped(cfg, selected, paired1);
    var paired2 := Shuffle(paired1, d.shuffle2);
    ShuffleShaped(cfg, paired1, paired2);
    Brood(BothPasses(cfg, pop, paired1, paired2, d), paired1, paired2)
  }

  /**
    The two pairing passes of `create_offspring` over the shuffled
    buffers: the first writes the lower half, the second the upper half.
  */
  function BothPasses(cfg: Config, pop: seq<Individual>, paired1: seq<Individual>, paired2: seq<Individual>,
                      d: OffspringDraws): (r: seq<Individual>)
    requires EngineReady(cfg) && |pop| == cfg.populationSize && OffspringDrawsFit(cfg, d)
    requires |paired1| == HalfPopulation(cfg) && AllShaped(cfg, paired1)
    requires |paired2| == HalfPopulation(cfg) && AllShaped(cfg, paired2)
    requires HalfPopulation(cfg) % 2 == 0 && 2 * HalfPopulation(cfg) == |pop|
    ensures |r| == |pop| && AllShaped(cfg, r)
    ensures forall j | 0 <= j < HalfPopulation(cfg) ::
      && r[j] == ChildAt(cfg, paired1, d.cross1, j)
      && r[HalfPopulation(cfg) + j] == ChildAt(cfg, paired2, d.cross2, j)
    ensures forall j | 0 <= j < |pop| :: r[j].fitness.None?
  {
    var half := HalfPopulation(cfg);
    var c1 := Children(cfg, paired1, d.cross1);
    var c2 := Children(cfg, paired2, d.cross2);
    var pop1 := Pass(c1, pop, 0, half / 2);
    var pop2 := Pass(c2, pop1, half, half / 2);
    TwoPasses(pop, c1, c2, half, pop1, pop2);
    assert forall j | 0 <= j < |pop2| :: pop2[j] == if j < half then c1[j] else c2[j - half];
    pop2
  }

  /**
    The population `create_offspring` starts from does not matter: every
    slot is overwritten, so two populations of the same size give the
    same new population.
  */
  lemma OffspringOverwrites(cfg: Config, pop1: seq<Individual>, pop2: seq<Individual>,
                            selected: seq<Individual>, d: OffspringDraws)
    requires EngineReady(cfg) && |pop1| == cfg.populationSize && |pop2| == cfg.populationSize
    requires |selected| == HalfPopulation(cfg) && AllShaped(cfg, selected)
    requires OffspringDrawsFit(cfg, d)
    ensures CreateOffspring(cfg, pop1, selected, d).pop == CreateOffspring(cfg, pop2, selected, d).pop
  {
    var r1, r2 := CreateOffspring(cfg, pop1, selected, d), CreateOffspring(cfg, pop2, selected, d);
    assert r1.paired1 == r2.paired1 && r1.paired2 == r2.paired2;
    HalfEven(cfg);
    var half := HalfPopulation(cfg);
    forall j | 0 <= j < |pop1|
      ensures r1.pop[j] == r2.pop[j]
    {
      if j >= half {
        assert r1.pop[half + (j - half)] == r2.pop[half + (j - half)];
      }
    }
  }

  /** The first pass fills the lower half, the second the upper half, and nothing else remains. */
  lemma TwoPasses(pop: seq<Individual>, c1: seq<Individual>, c2: seq<Individual>, half: nat,
                  pop1: seq<Individual>, pop2: seq<Individual>)
    requires |c1| == half && |c2| == half && half % 2 == 0 && |pop| == 2 * half
    requires pop1 == Pass(c1, pop, 0, half / 2)
    requires pop2 == Pass(c2, pop1, half, half / 2)
    ensures |pop2| == |pop|
    ensures forall j | 0 <= j < half :: pop2[j] == c1[j] && pop2[half + j] == c2[j]
  {
    assert 2 * (half / 2) == half;
    forall j | 0 <= j < half
      ensures pop2[j] == c1[j] && pop2[half + j] == c2[j]
    {
      assert pop2[j] == pop1[j];
      assert pop2[half + j] == c2[half + j - half];
    }
  }

  /** A rearrangement of shaped individuals is shaped. */
  lemma ShuffleShaped(cfg: Config, s: seq<Individual>, r: seq<Individual>)
    requires AllShaped(cfg, s) && multiset(r) == multiset(s)
    ensures AllShaped(cfg, r)
  {
    forall i | 0 <= i < |r|
      ensures Shaped(cfg, r[i])
    {
      assert r[i] in multiset(s);
    }
  }

  /**
    The buffer indices a pairing loop `for (i = 0; i < len; i += 2)`
    reads, from `i` on: `i` and `i + 1` on every round.
  */
  function PairReads(len: nat, i: nat): (r: seq<nat>)
    ensures |r| == (if i >= len then 0 else 2 * ((len - i + 1) / 2))
    ensures forall k | 0 <= k < |r| :: r[k] == i + k
    decreases len - i
  {
    if i >= len then [] else [i, i + 1] + PairReads(len, i + 2)
  }

  /** On a buffer of odd length the last round reads index `len`, one past the end. */
  lemma {:induction false} OddBufferReadsPastEnd(len: nat, i: nat)
    requires len % 2 == 1 && i % 2 == 0 && i <= len
    ensures len in PairReads(len, i)
    decreases len - i
  {
    if i + 1 == len {
      assert PairReads(len, i)[1] == len;
    } else {
      OddBufferReadsPastEnd(len, i + 2);
    }
  }

  /** On a buffer of even length the loop reads every index exactly once, in order. */
  lemma {:induction false} EvenBufferReadsInOrder(len: nat, i: nat)
    requires len % 2 == 0 && i % 2 == 0 && i <= len
    ensures PairReads(len, i) == seq(len - i, k requires 0 <= k < len - i => i + k)
    decreases len - i
  {
    if i < len {
      EvenBufferReadsInOrder(len, i + 2);
    }
  }

  /**
    The population slots a pairing pass at `offset` over a buffer of
    `len` writes, in loop order: the slots from `offset` on, two per
    round, as many as the loop reads.
  */
  function PassWrites(offset: nat, len: nat): (r: seq<nat>)
    ensures |r| == |PairReads(len, 0)|
    ensures forall slot :: slot in r <==> offset <= slot < offset + |PairReads(len, 0)|
  {
    var r := seq(|PairReads(len, 0)|, k requires 0 <= k < |PairReads(len, 0)| => offset + PairReads(len, 0)[k]);
    assert forall slot :: slot in r <==> offset <= slot < offset + |r| by {
      forall slot
        ensures slot in r <==> offset <= slot < offset + |r|
      {
        if slot in r {
          var k :| 0 <= k < |r| && r[k] == slot;
          assert PairReads(len, 0)[k] == k;
        }
        if offset <= slot < offset + |r| {
          assert r[slot - offset] == slot;
        }
      }
    }
    r
  }

  /**
    An even population whose half is odd makes `create_offspring` read
    past the end of the parents buffer; the second pass then writes one
    slot past the end of the population, and slot `half` is written by
    both passes.
  */
  lemma OddHalfReadsPastEnd(cfg: Config)
    requires cfg.populationSize % 2 == 0 && HalfPopulation(cfg) % 2 == 1
    ensures var half := HalfPopulation(cfg);
      && half in PairReads(half, 0)
      && cfg.populationSize in PassWrites(half, half)
      && half in PassWrites(0, half) && half in PassWrites(half, half)
  {
    var half := HalfPopulation(cfg);
    OddBufferReadsPastEnd(half, 0);
    var rd := PairReads(half, 0);
    var k :| 0 <= k < |rd| && rd[k] == half;
    assert PassWrites(half, half)[k] == cfg.populationSize;
    assert PassWrites(0, half)[k] == half;
    assert rd[0] == 0;
    assert PassWrites(half, half)[0] == half;
  }

  /**
    Under `EngineReady` the half population is even, so both passes read
    each buffer index exactly once and stay inside the buffer.
  */
  lemma ReadyHalfReadsInRange(cfg: Config)
    requires EngineReady(cfg)
    ensures var half := HalfPopulation(cfg);
      PairReads(half, 0) == seq(half, k requires 0 <= k < half => k)
  {
    EvenBufferReadsInOrder(HalfPopulation(cfg), 0);
  }
}
