/**
  Best-individual tracking: `update_best` scans the population in slot
  order, evaluates every member through the fitness cache and keeps a
  running strict maximum; `add_best` writes the tracked best into one
  slot.
*/
module Tracking {
  import opened Wrappers
  import opened Genome

  /** Number of individuals whose fitness is not cached. */
  function Pending(pop: seq<Individual>): nat
  {
    if |pop| == 0 then 0
    else Pending(pop[..|pop| - 1]) + if pop[|pop| - 1].fitness.None? then 1 else 0
  }

  /**
    State of the scan: the population as evaluated so far, the running
    best fitness and individual, the slot the best was last copied from
    (`None` while the incoming best stands), and the fitness calls made.
  */
  datatype Scan = Scan(pop: seq<Individual>, bestFitness: int, best: Individual, from: Option<nat>, calls: nat)

  /**
    `r` is the scan after the first `n` slots, started from best fitness
    `bf` and individual `b`: those slots are evaluated, the others are
    untouched; the best fitness is the larger of `bf` and the slots'
    scores; it was replaced only if some slot scored strictly more than
    `bf`, and then by the evaluated copy of the first slot attaining the
    maximum.
  */
  predicate Scanned(pop: seq<Individual>, f: Fitness, bf: int, b: Individual, n: nat, r: Scan)
    requires n <= |pop|
  {
    && |r.pop| == |pop|
    && (forall i | 0 <= i < n :: r.pop[i] == Evaluated(pop[i], f))
    && (forall i | n <= i < |pop| :: r.pop[i] == pop[i])
    && r.bestFitness >= bf
    && (forall i | 0 <= i < n :: Score(pop[i], f) <= r.bestFitness)
    && (r.from.None? <==> forall i | 0 <= i < n :: Score(pop[i], f) <= bf)
    && (r.from.None? ==> r.bestFitness == bf && r.best == b)
    && (r.from.Some? ==>
          && r.from.value < n
          && r.bestFitness == Score(pop[r.from.value], f)
          && r.best == Evaluated(pop[r.from.value], f)
          && forall j | 0 <= j < r.from.value :: Score(pop[j], f) < r.bestFitness)
    && r.calls == Pending(pop[..n])
  }

  /** The loop of `update_best` after its first `n` slots. */
  function ScanBest(pop: seq<Individual>, f: Fitness, bf: int, b: Individual, n: nat): (r: Scan)
    requires n <= |pop|
    ensures Scanned(pop, f, bf, b, n, r)
    decreases n
  {
    if n == 0 then Scan(pop, bf, b, None, 0)
    else Visit(pop, f, bf, b, n, ScanBest(pop, f, bf, b, n - 1))
  }

  /** One round of `update_best`: slot `n - 1` is evaluated and replaces the best only on strict improvement. */
  function Visit(pop: seq<Individual>, f: Fitness, bf: int, b: Individual, n: nat, prev: Scan): (r: Scan)
    requires 1 <= n <= |pop|
    requires Scanned(pop, f, bf, b, n - 1, prev)
    ensures Scanned(pop, f, bf, b, n, r)
  {
    var i := n - 1;
    var e := Evaluate(prev.pop[i], f);
    assert pop[..n][..i] == pop[..i];
    var calls := prev.calls + if e.called then 1 else 0;
    var after := prev.pop[i := e.ind];
    if e.value > prev.bestFitness then Scan(after, e.value, e.ind, Some(i), calls)
    else prev.(pop := after, calls := calls)
  }

  /** The tracked best carries its own fitness in its cache. */
  predicate BestCached(bf: int, b: Individual)
  {
    b.fitness == Some(bf)
  }

  /**
    What `update_best` guarantees of its result `r`, run on `pop` from
    best fitness `bf` and individual `b`: every member is evaluated; the
    best fitness never decreases and ends at least the score of every
    member; the best stands unless some member scores strictly more than
    `bf`, and then it is the evaluated copy of the first member attaining
    the maximum.
  */
  predicate Tracked(pop: seq<Individual>, f: Fitness, bf: int, b: Individual, r: Scan)
  {
    && |r.pop| == |pop| && (forall i | 0 <= i < |pop| :: r.pop[i] == Evaluated(pop[i], f))
    && r.bestFitness >= bf
    && (forall i | 0 <= i < |pop| :: Score(pop[i], f) <= r.bestFitness)
    && ((forall i | 0 <= i < |pop| :: Score(pop[i], f) <= bf) ==> r.bestFitness == bf && r.best == b)
    && ((exists i | 0 <= i < |pop| :: Score(pop[i], f) > bf) ==>
          && r.from.Some? && r.from.value < |pop|
          && r.bestFitness == Score(pop[r.from.value], f)
          && r.best == Evaluated(pop[r.from.value], f)
          && forall j | 0 <= j < r.from.value :: Score(pop[j], f) < r.bestFitness)
  }

  /**
    `update_best`: the guarantees of `Tracked`; the new best carries its
    fitness in its cache whenever the incoming one did or a member
    replaced it; the fitness function runs once per member without a
    cached fitness.
  */
  function UpdateBest(pop: seq<Individual>, f: Fitness, bf: int, b: Individual): (r: Scan)
    ensures Tracked(pop, f, bf, b, r)
    ensures (BestCached(bf, b) || r.from.Some?) ==> BestCached(r.bestFitness, r.best)
    ensures r.calls == Pending(pop)
  {
    assert pop[..|pop|] == pop;
    ScanBest(pop, f, bf, b, |pop|)
  }

  /** A population in which every member is evaluated has nothing pending. */
  lemma {:induction false} PendingNone(pop: seq<Individual>)
    requires forall i | 0 <= i < |pop| :: pop[i].fitness.Some?
    ensures Pending(pop) == 0
    decreases |pop|
  {
    if |pop| > 0 {
      PendingNone(pop[..|pop| - 1]);
    }
  }

  /**
    Running `update_best` a second time changes nothing: the population
    is already evaluated, no fitness call is made, and the best stands.
  */
  lemma UpdateBestIdempotent(pop: seq<Individual>, f: Fitness, bf: int, b: Individual)
    ensures var r := UpdateBest(pop, f, bf, b);
      var s := UpdateBest(r.pop, f, r.bestFitness, r.best);
      && s.pop == r.pop && s.bestFitness == r.bestFitness && s.best == r.best && s.calls == 0
  {
    var r := UpdateBest(pop, f, bf, b);
    var s := UpdateBest(r.pop, f, r.bestFitness, r.best);
    assert forall i | 0 <= i < |r.pop| :: Score(r.pop[i], f) == Score(pop[i], f);
    PendingNone(r.pop);
    assert s.pop == r.pop;
  }

  /** `add_best`: the tracked best overwrites slot `slot`; every other slot keeps its individual. */
  function AddBest(pop: seq<Individual>, b: Individual, slot: nat): (r: seq<Individual>)
    requires slot < |pop|
    ensures |r| == |pop| && r[slot] == b
    ensures forall i | 0 <= i < |pop| && i != slot :: r[i] == pop[i]
  {
    pop[slot := b]
  }
}
